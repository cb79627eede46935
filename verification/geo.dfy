/**
 * Geographic rectangles and the linear lon/lat -> column/row projection of
 * the map view (ui/map/map.go). Go's float64 is modelled as `real`.
 */
module Geo {

  /** An axis-aligned rectangle in longitude/latitude degrees. */
  datatype Box = Box(minX: real, minY: real, maxX: real, maxY: real) {

    function Width(): real { maxX - minX }

    function Height(): real { maxY - minY }

    function CenterX(): real { (minX + maxX) / 2.0 }

    function CenterY(): real { (minY + maxY) / 2.0 }

    /** The rectangle is not inverted on either axis. */
    predicate WellFormed() { minX <= maxX && minY <= maxY }
  }

  /** A geographic point: `x` is the longitude, `y` the latitude. */
  datatype Point = Point(x: real, y: real)

  /** Horizontal divisor compensating for terminal cells being taller than wide. */
  const CharAspect: real := 1.9

  /** The amount a degenerate axis of the view is widened by before dividing. */
  const Epsilon: real := 0.000001

  /** Go's `int(v)` conversion: truncation toward zero, not floor. */
  function Trunc(v: real): (r: int)
    ensures 0.0 <= v ==> 0 <= r && r as real <= v < r as real + 1.0
    ensures v < 0.0 ==> r <= 0 && r as real - 1.0 < v <= r as real
  {
    if v >= 0.0 then v.Floor else -((-v).Floor)
  }

  /** Truncation is monotone. */
  lemma TruncMonotone(a: real, b: real)
    requires a <= b
    ensures Trunc(a) <= Trunc(b)
  {
  }

  /**
   * The defensive widening of a degenerate view: an axis whose max equals its
   * min gets its max raised by Epsilon; the mins never move.
   */
  function Nudge(b: Box): (r: Box)
    ensures r.minX == b.minX && r.minY == b.minY
    ensures r.Width() != 0.0 && r.Height() != 0.0
    ensures b.Width() != 0.0 ==> r.maxX == b.maxX
    ensures b.Height() != 0.0 ==> r.maxY == b.maxY
    ensures b.Width() == 0.0 ==> r.maxX == b.maxX + Epsilon
    ensures b.Height() == 0.0 ==> r.maxY == b.maxY + Epsilon
    ensures b.WellFormed() ==> r.Width() > 0.0 && r.Height() > 0.0
  {
    var bx := if b.maxX == b.minX then b.(maxX := b.maxX + Epsilon) else b;
    if bx.maxY == bx.minY then bx.(maxY := bx.maxY + Epsilon) else bx
  }

  /** Nudging twice is nudging once, so the view a projection leaves behind is stable. */
  lemma NudgeIdempotent(b: Box)
    ensures Nudge(Nudge(b)) == Nudge(b)
  {
  }

  /** The result of `project`: the (possibly nudged) view it leaves behind, and the cell. */
  datatype Projection = Projection(view: Box, col: int, row: int)

  /**
   * The column of longitude `lon` on a grid `w` cells wide, before
   * truncation: the offset from the west edge normalised by the view width,
   * scaled to the grid width and divided by CharAspect.
   */
  function ColumnOffset(v: Box, lon: real, w: int): real
    requires v.Width() != 0.0
  {
    (lon - v.minX) / v.Width() * w as real / CharAspect
  }

  /**
   * The row of latitude `lat` on a grid `h` cells high, before truncation:
   * the latitude axis is inverted, so the north edge is 0.
   */
  function RowOffset(v: Box, lat: real, h: int): real
    requires v.Height() != 0.0
  {
    (v.maxY - lat) / v.Height() * h as real
  }

  function Column(v: Box, lon: real, w: int): int
    requires v.Width() != 0.0
  {
    Trunc(ColumnOffset(v, lon, w))
  }

  function Row(v: Box, lat: real, h: int): int
    requires v.Height() != 0.0
  {
    Trunc(RowOffset(v, lat, h))
  }

  /**
   * Maps (lon, lat) to a cell of a viewWidth x viewHeight grid. The result is
   * never clipped. A degenerate view is nudged first, and the nudged view is
   * part of the result because the source writes it back into the model.
   */
  function Project(b: Box, lon: real, lat: real, viewWidth: int, viewHeight: int): (r: Projection)
    ensures r.view == Nudge(b)
  {
    var v := Nudge(b);
    Projection(v, Column(v, lon, viewWidth), Row(v, lat, viewHeight))
  }

  /** The cell a point lands in (the projection without the view it leaves behind). */
  predicate Hits(b: Box, p: Point, w: int, h: int, x: int, y: int)
  {
    var q := Project(b, p.x, p.y, w, h);
    q.col == x && q.row == y
  }

  /** Whether a cell lies on a w x h grid; every write site of the renderer checks this. */
  predicate InGrid(x: int, y: int, w: int, h: int)
  {
    0 <= x < w && 0 <= y < h
  }

  /** Projecting through the nudged view gives the same cell and the same view. */
  lemma ProjectNudged(b: Box, lon: real, lat: real, w: int, h: int)
    ensures Project(Nudge(b), lon, lat, w, h) == Project(b, lon, lat, w, h)
  {
    NudgeIdempotent(b);
  }

  lemma MulMono(a: real, b: real, k: real)
    requires a <= b && k >= 0.0
    ensures a * k <= b * k
  {
  }

  lemma DivMono(a: real, b: real, k: real)
    requires a <= b && k > 0.0
    ensures a / k <= b / k
  {
    MulMono(a, b, 1.0 / k);
  }

  /** Normalising an offset by the view extent and scaling it to grid units is monotone. */
  lemma ScaleMono(d1: real, d2: real, ext: real, n: real, k: real)
    requires d1 <= d2 && ext > 0.0 && n >= 0.0 && k > 0.0
    ensures d1 / ext * n / k <= d2 / ext * n / k
  {
    DivMono(d1, d2, ext);
    MulMono(d1 / ext, d2 / ext, n);
    DivMono(d1 / ext * n, d2 / ext * n, k);
  }

  /** The west edge of the view is column 0 and its north edge row 0. */
  lemma ProjectOrigin(b: Box, lat: real, lon: real, w: int, h: int)
    ensures Project(b, b.minX, lat, w, h).col == 0
    ensures Project(b, lon, Nudge(b).maxY, w, h).row == 0
  {
  }

  /** Column is non-decreasing in longitude over a view that is not inverted. */
  lemma {:induction false} ColumnMonotone(v: Box, lon1: real, lon2: real, w: nat)
    requires v.Width() > 0.0 && lon1 <= lon2
    ensures Column(v, lon1, w) <= Column(v, lon2, w)
  {
    assert ColumnOffset(v, lon1, w) <= ColumnOffset(v, lon2, w) by {
      ScaleMono(lon1 - v.minX, lon2 - v.minX, v.Width(), w as real, CharAspect);
    }
    TruncMonotone(ColumnOffset(v, lon1, w), ColumnOffset(v, lon2, w));
  }

  /** Row is non-increasing in latitude over a view that is not inverted. */
  lemma {:induction false} RowAntitone(v: Box, lat1: real, lat2: real, h: nat)
    requires v.Height() > 0.0 && lat1 <= lat2
    ensures Row(v, lat1, h) >= Row(v, lat2, h)
  {
    assert RowOffset(v, lat2, h) <= RowOffset(v, lat1, h) by {
      DivMono(v.maxY - lat2, v.maxY - lat1, v.Height());
      MulMono((v.maxY - lat2) / v.Height(), (v.maxY - lat1) / v.Height(), h as real);
    }
    TruncMonotone(RowOffset(v, lat2, h), RowOffset(v, lat1, h));
  }

  /**
   * For any well-formed view, the projection's column is monotone in the
   * longitude and its row antitone in the latitude.
   */
  lemma {:induction false} ProjectMonotone(b: Box, lon1: real, lat1: real, lon2: real, lat2: real, w: nat, h: nat)
    requires b.WellFormed()
    ensures lon1 <= lon2 ==> Project(b, lon1, lat1, w, h).col <= Project(b, lon2, lat2, w, h).col
    ensures lat1 <= lat2 ==> Project(b, lon1, lat1, w, h).row >= Project(b, lon2, lat2, w, h).row
  {
    var v := Nudge(b);
    if lon1 <= lon2 {
      ColumnMonotone(v, lon1, lon2, w);
    }
    if lat1 <= lat2 {
      RowAntitone(v, lat1, lat2, h);
    }
  }

  /** The width in degrees of one grid column: CharAspect / w of the view width. */
  function ColumnWidth(v: Box, w: int): real
    requires w > 0
  {
    CharAspect * v.Width() / (w as real)
  }

  /** The height in degrees of one grid row. */
  function RowHeight(v: Box, h: int): real
    requires h > 0
  {
    v.Height() / (h as real)
  }

  /** The west edge of column c. */
  function ColumnEdge(v: Box, w: int, c: int): real
    requires w > 0
  {
    v.minX + (c as real) * ColumnWidth(v, w)
  }

  /** The north edge of row r. */
  function RowEdge(v: Box, h: int, r: int): real
    requires h > 0
  {
    v.maxY - (r as real) * RowHeight(v, h)
  }

  /** Comparing with a quotient is comparing with a product, for a positive divisor. */
  lemma QuotientCompare(c: real, d: real, k: real)
    requires k > 0.0
    ensures c <= d / k <==> c * k <= d
    ensures d / k < c <==> d < c * k
    ensures c < d / k <==> c * k < d
    ensures d / k <= c <==> d <= c * k
  {
    assert d / k * k == d;
    if c <= d / k {
      MulMono(c, d / k, k);
    } else {
      MulMono(d / k, c, k);
    }
  }

  /** The unrounded column is the offset from the west edge measured in column widths. */
  lemma ColumnOffsetInColumns(v: Box, lon: real, w: int)
    requires v.Width() > 0.0 && w > 0
    ensures ColumnWidth(v, w) > 0.0
    ensures ColumnOffset(v, lon, w) == (lon - v.minX) / ColumnWidth(v, w)
  {
  }

  /** The unrounded row is the offset from the north edge measured in row heights. */
  lemma RowOffsetInRows(v: Box, lat: real, h: int)
    requires v.Height() > 0.0 && h > 0
    ensures RowHeight(v, h) > 0.0
    ensures RowOffset(v, lat, h) == (v.maxY - lat) / RowHeight(v, h)
  {
  }

  /**
   * A truncated value c brackets its argument: t lies in [c, c + 1) when
   * t is non-negative and in (c - 1, c] when it is negative.
   */
  lemma TruncBracket(t: real, c: int)
    requires c == Trunc(t)
    ensures t >= 0.0 ==> c as real <= t < (c + 1) as real
    ensures t < 0.0 ==> (c - 1) as real < t <= c as real
  {
  }

  /**
   * Reference meaning of the column: a longitude at or east of the west edge
   * lands in the column whose edges bracket it; one west of it lands in the
   * column whose edges bracket it from the other side (truncation toward 0).
   */
  lemma {:induction false} ColumnBand(v: Box, lon: real, w: int)
    requires v.Width() > 0.0 && w > 0
    ensures var c := Column(v, lon, w);
      && (lon >= v.minX ==> ColumnEdge(v, w, c) <= lon < ColumnEdge(v, w, c + 1))
      && (lon < v.minX ==> ColumnEdge(v, w, c - 1) < lon <= ColumnEdge(v, w, c))
  {
    var d := lon - v.minX;
    var k := ColumnWidth(v, w);
    var c := Column(v, lon, w);
    var t := ColumnOffset(v, lon, w);
    ColumnOffsetInColumns(v, lon, w);
    assert t == d / k;
    TruncBracket(t, c);
    assert ColumnEdge(v, w, c) == v.minX + (c as real) * k;
    assert ColumnEdge(v, w, c + 1) == v.minX + ((c + 1) as real) * k;
    assert ColumnEdge(v, w, c - 1) == v.minX + ((c - 1) as real) * k;
    if lon >= v.minX {
      QuotientCompare(0.0, d, k);
      assert t >= 0.0;
      QuotientCompare(c as real, d, k);
      QuotientCompare((c + 1) as real, d, k);
      assert (c as real) * k <= d < ((c + 1) as real) * k;
    } else {
      QuotientCompare(0.0, d, k);
      assert t < 0.0;
      QuotientCompare(c as real, d, k);
      QuotientCompare((c - 1) as real, d, k);
      assert ((c - 1) as real) * k < d <= (c as real) * k;
    }
  }

  /** Reference meaning of the row: the row whose north and south edges bracket the latitude. */
  lemma {:induction false} RowBand(v: Box, lat: real, h: int)
    requires v.Height() > 0.0 && h > 0
    ensures var r := Row(v, lat, h);
      && (lat <= v.maxY ==> RowEdge(v, h, r + 1) < lat <= RowEdge(v, h, r))
      && (lat > v.maxY ==> RowEdge(v, h, r) <= lat < RowEdge(v, h, r - 1))
  {
    var d := v.maxY - lat;
    var k := RowHeight(v, h);
    var r := Row(v, lat, h);
    var t := RowOffset(v, lat, h);
    RowOffsetInRows(v, lat, h);
    assert t == d / k;
    TruncBracket(t, r);
    assert RowEdge(v, h, r) == v.maxY - (r as real) * k;
    assert RowEdge(v, h, r + 1) == v.maxY - ((r + 1) as real) * k;
    assert RowEdge(v, h, r - 1) == v.maxY - ((r - 1) as real) * k;
    if lat <= v.maxY {
      QuotientCompare(0.0, d, k);
      assert t >= 0.0;
      QuotientCompare(r as real, d, k);
      QuotientCompare((r + 1) as real, d, k);
      assert (r as real) * k <= d < ((r + 1) as real) * k;
    } else {
      QuotientCompare(0.0, d, k);
      assert t < 0.0;
      QuotientCompare(r as real, d, k);
      QuotientCompare((r - 1) as real, d, k);
      assert ((r - 1) as real) * k < d <= (r as real) * k;
    }
  }

  lemma EdgeMonotone(v: Box, w: int, c1: int, c2: int)
    requires w > 0 && v.Width() > 0.0 && c1 <= c2
    ensures ColumnEdge(v, w, c1) <= ColumnEdge(v, w, c2)
  {
    MulMono(c1 as real, c2 as real, ColumnWidth(v, w));
  }

  /**
   * Truncation toward zero makes column 0 twice as wide as the others: a
   * longitude up to one column west of the view still lands in column 0.
   */
  lemma {:induction false} WestStraddlersLandInColumnZero(v: Box, lon: real, w: int)
    requires v.Width() > 0.0 && w > 0
    requires ColumnEdge(v, w, -1) < lon < ColumnEdge(v, w, 1)
    ensures Column(v, lon, w) == 0
  {
    ColumnBand(v, lon, w);
    var c := Column(v, lon, w);
    assert ColumnEdge(v, w, 0) == v.minX;
    if c >= 1 {
      EdgeMonotone(v, w, 1, c);
      EdgeMonotone(v, w, 0, c - 1);
    } else if c <= -1 {
      EdgeMonotone(v, w, c + 1, 0);
      EdgeMonotone(v, w, c, -1);
    }
  }

  /**
   * A 20-degree square view on a 10 x 10 grid: the
   * centre lands in column 2 (not 5, because of the aspect divisor), the
   * north-west corner in cell (0, 0), and the south-east corner one row
   * below the grid.
   */
  lemma ProjectScenario()
    ensures var b := Box(-10.0, -10.0, 10.0, 10.0);
      && Project(b, 0.0, 0.0, 10, 10) == Projection(b, 2, 5)
      && Project(b, -10.0, 10.0, 10, 10) == Projection(b, 0, 0)
      && Project(b, 10.0, -10.0, 10, 10) == Projection(b, 5, 10)
      && !InGrid(5, 10, 10, 10)
  {
    var b := Box(-10.0, -10.0, 10.0, 10.0);
    assert Nudge(b) == b;
    assert ColumnOffset(b, 0.0, 10) == 100.0 / 38.0;
    assert ColumnOffset(b, 10.0, 10) == 100.0 / 19.0;
  }
}
