/**
 * The character grid of the map view and its static layer (ui/map/map.go):
 * polygon vertices and airports rasterised through the projection, the
 * deep copy of the cached grid, and flattening to text.
 */
module Raster {
  import opened Wrappers
  import opened Geo

  /**
   * One display cell. Styling is dropped: a cell is identified by what was
   * drawn into it. `Unset` is Go's zero-value string "", which prints as
   * nothing and is not the blank " ".
   */
  datatype Cell = Blank | Dot | AirportMark | PlaneIcon | Label(ch: char) | Unset

  /** Rows of cells, row 0 at the top. */
  type Grid = seq<seq<Cell>>

  /** The character printed for the aircraft icon: U+2708, an airplane. */
  const PlaneChar: char := '\U{2708}'

  /**
   * The icon text as ui/map/map.go:360 spells it: the three UTF-8 bytes of
   * U+2708 each read back as a character of its own.
   */
  const PlaneTextAsWritten: string := "\U{E2}\U{153}\U{2C6}"

  /** A polygon as the shapefile gives it: its vertices and its bounding box. */
  datatype Polygon = Polygon(points: seq<Point>, bbox: Box)

  /** `g` has `h` rows of `w` cells each. */
  predicate IsGrid(g: Grid, w: int, h: int)
  {
    |g| == h && forall y :: 0 <= y < |g| ==> |g[y]| == w
  }

  /** An h x w grid of blanks. */
  function BlankGrid(w: nat, h: nat): (g: Grid)
    ensures IsGrid(g, w, h)
    ensures forall y, x :: 0 <= y < h && 0 <= x < w ==> g[y][x] == Blank
  {
    seq(h, _ => seq(w, _ => Blank))
  }

  /** `grid[y][x] = c`: exactly one cell changes. */
  function SetCell(g: Grid, x: int, y: int, c: Cell): (r: Grid)
    requires 0 <= y < |g| && 0 <= x < |g[y]|
    ensures |r| == |g| && forall yy :: 0 <= yy < |g| ==> |r[yy]| == |g[yy]|
    ensures forall yy, xx :: 0 <= yy < |r| && 0 <= xx < |r[yy]| ==>
      r[yy][xx] == if yy == y && xx == x then c else g[yy][xx]
  {
    g[y := g[y][x := c]]
  }

  /** A layer under construction: the view as projection left it, and the grid. */
  datatype Layer = Layer(view: Box, grid: Grid)

  /** The only view a chain of projections can leave behind is the start or its nudged form. */
  predicate Reaches(start: Box, v: Box)
  {
    v == start || v == Nudge(start)
  }

  /** The vertices after the first sampled one: the loop steps by 3. */
  function Skip3(pts: seq<Point>): seq<Point>
  {
    if |pts| <= 3 then [] else pts[3..]
  }

  /**
   * The vertex loop of one polygon: every third vertex, starting with the
   * first, is projected and a dot is written at its cell when it is on the grid.
   */
  function DrawVertices(view: Box, g: Grid, pts: seq<Point>, w: int, h: int): (r: Layer)
    requires IsGrid(g, w, h)
    ensures IsGrid(r.grid, w, h) && Reaches(view, r.view)
    decreases |pts|
  {
    if |pts| == 0 then Layer(view, g)
    else
      var p := Project(view, pts[0].x, pts[0].y, w, h);
      var g' := if InGrid(p.col, p.row, w, h) then SetCell(g, p.col, p.row, Dot) else g;
      NudgeIdempotent(view);
      DrawVertices(p.view, g', Skip3(pts), w, h)
  }

  /** Some vertex with index divisible by 3 lands in cell (x, y). */
  predicate SampledHit(view: Box, pts: seq<Point>, w: int, h: int, x: int, y: int)
  {
    exists i :: 0 <= i < |pts| && i % 3 == 0 && Hits(view, pts[i], w, h, x, y)
  }

  /** Projection ignores whether the view was already nudged. */
  lemma HitsNudged(view: Box, p: Point, w: int, h: int, x: int, y: int)
    ensures Hits(Nudge(view), p, w, h, x, y) == Hits(view, p, w, h, x, y)
  {
    ProjectNudged(view, p.x, p.y, w, h);
  }

  /** The sampled vertices are the first one and the sampled vertices of the rest. */
  lemma SampledHitStep(view: Box, pts: seq<Point>, w: int, h: int, x: int, y: int)
    requires |pts| > 0
    ensures SampledHit(view, pts, w, h, x, y) <==>
      Hits(view, pts[0], w, h, x, y) || SampledHit(Nudge(view), Skip3(pts), w, h, x, y)
  {
    var rest := Skip3(pts);
    forall j | 0 <= j < |rest| ensures rest[j] == pts[j + 3] && (j % 3 == 0 <==> (j + 3) % 3 == 0) {
    }
    forall q | q in pts ensures Hits(Nudge(view), q, w, h, x, y) == Hits(view, q, w, h, x, y) {
      HitsNudged(view, q, w, h, x, y);
    }
    if SampledHit(view, pts, w, h, x, y) {
      var i :| 0 <= i < |pts| && i % 3 == 0 && Hits(view, pts[i], w, h, x, y);
      if i != 0 {
        assert i >= 3;
        assert rest[i - 3] == pts[i];
        assert SampledHit(Nudge(view), rest, w, h, x, y);
      }
    }
    if SampledHit(Nudge(view), rest, w, h, x, y) {
      var j :| 0 <= j < |rest| && j % 3 == 0 && Hits(Nudge(view), rest[j], w, h, x, y);
      assert pts[j + 3] == rest[j];
      assert Hits(view, pts[j + 3], w, h, x, y);
    }
  }

  /** The vertex loop dots exactly the on-grid cells of the sampled vertices. */
  lemma {:induction false} DrawVerticesCells(view: Box, g: Grid, pts: seq<Point>, w: int, h: int)
    requires IsGrid(g, w, h)
    ensures var r := DrawVertices(view, g, pts, w, h);
      forall y, x :: InGrid(x, y, w, h) ==>
        r.grid[y][x] == if SampledHit(view, pts, w, h, x, y) then Dot else g[y][x]
    decreases |pts|
  {
    if |pts| > 0 {
      var p := Project(view, pts[0].x, pts[0].y, w, h);
      var g' := if InGrid(p.col, p.row, w, h) then SetCell(g, p.col, p.row, Dot) else g;
      NudgeIdempotent(view);
      DrawVerticesCells(p.view, g', Skip3(pts), w, h);
      forall y, x | InGrid(x, y, w, h)
        ensures DrawVertices(view, g, pts, w, h).grid[y][x] ==
          if SampledHit(view, pts, w, h, x, y) then Dot else g[y][x]
      {
        SampledHitStep(view, pts, w, h, x, y);
      }
    }
  }

  /** The polygon's bounding box misses the view, so the polygon is skipped. */
  predicate Culled(bbox: Box, view: Box)
  {
    bbox.maxX < view.minX || bbox.minX > view.maxX || bbox.maxY < view.minY || bbox.minY > view.maxY
  }

  /** Nudging only widens the view, so it can only let more polygons through. */
  lemma CulledByNudged(bbox: Box, view: Box)
    ensures Culled(bbox, Nudge(view)) ==> Culled(bbox, view)
  {
  }

  /**
   * The polygon loop: polygons whose box misses the current view are
   * skipped; the others get their vertex loop. The view is re-read for each
   * polygon, so a projection's nudge affects the culling of later polygons.
   */
  function DrawPolygons(view: Box, g: Grid, polys: seq<Polygon>, w: int, h: int): (r: Layer)
    requires IsGrid(g, w, h)
    ensures IsGrid(r.grid, w, h) && Reaches(view, r.view)
    decreases |polys|
  {
    if |polys| == 0 then Layer(view, g)
    else if Culled(polys[0].bbox, view) then DrawPolygons(view, g, polys[1..], w, h)
    else
      var l := DrawVertices(view, g, polys[0].points, w, h);
      NudgeIdempotent(view);
      DrawPolygons(l.view, l.grid, polys[1..], w, h)
  }

  /** Some polygon not culled by view `v` has a sampled vertex in cell (x, y). */
  predicate PolygonHit(v: Box, polys: seq<Polygon>, w: int, h: int, x: int, y: int)
  {
    exists k :: 0 <= k < |polys| && !Culled(polys[k].bbox, v) && SampledHit(v, polys[k].points, w, h, x, y)
  }

  /** Whether a polygon hits a cell is the same through the nudged view, save for culling. */
  lemma SampledHitNudged(view: Box, pts: seq<Point>, w: int, h: int, x: int, y: int)
    ensures SampledHit(Nudge(view), pts, w, h, x, y) == SampledHit(view, pts, w, h, x, y)
  {
    forall q | q in pts ensures Hits(Nudge(view), q, w, h, x, y) == Hits(view, q, w, h, x, y) {
      HitsNudged(view, q, w, h, x, y);
    }
  }

  /**
   * The polygon loop changes a cell only into a dot, only where some polygon
   * that survives culling by the nudged view has a sampled vertex, and does
   * dot every such cell of a polygon that survives culling by the view itself.
   */
  lemma {:induction false} DrawPolygonsCells(view: Box, g: Grid, polys: seq<Polygon>, w: int, h: int)
    requires IsGrid(g, w, h)
    ensures var r := DrawPolygons(view, g, polys, w, h);
      forall y, x :: InGrid(x, y, w, h) ==>
        && (r.grid[y][x] == g[y][x] || r.grid[y][x] == Dot)
        && (r.grid[y][x] != g[y][x] ==> PolygonHit(Nudge(view), polys, w, h, x, y))
        && (PolygonHit(view, polys, w, h, x, y) ==> r.grid[y][x] == Dot)
    decreases |polys|
  {
    if |polys| > 0 {
      var r := DrawPolygons(view, g, polys, w, h);
      var tail := polys[1..];
      NudgeIdempotent(view);
      var mid: Layer;
      if Culled(polys[0].bbox, view) {
        mid := Layer(view, g);
      } else {
        mid := DrawVertices(view, g, polys[0].points, w, h);
        DrawVerticesCells(view, g, polys[0].points, w, h);
      }
      assert r == DrawPolygons(mid.view, mid.grid, tail, w, h);
      DrawPolygonsCells(mid.view, mid.grid, tail, w, h);
      forall y, x | InGrid(x, y, w, h)
        ensures && (r.grid[y][x] == g[y][x] || r.grid[y][x] == Dot)
                && (r.grid[y][x] != g[y][x] ==> PolygonHit(Nudge(view), polys, w, h, x, y))
                && (PolygonHit(view, polys, w, h, x, y) ==> r.grid[y][x] == Dot)
      {
        PolygonHitStep(view, mid.view, polys, w, h, x, y);
        SampledHitNudged(view, polys[0].points, w, h, x, y);
        CulledByNudged(polys[0].bbox, view);
      }
    }
  }

  /** How PolygonHit splits over the first polygon and the rest, for a reachable view. */
  lemma PolygonHitStep(view: Box, v: Box, polys: seq<Polygon>, w: int, h: int, x: int, y: int)
    requires |polys| > 0 && Reaches(view, v)
    ensures PolygonHit(Nudge(v), polys[1..], w, h, x, y) ==> PolygonHit(Nudge(view), polys, w, h, x, y)
    ensures PolygonHit(view, polys, w, h, x, y) ==>
      (!Culled(polys[0].bbox, view) && SampledHit(view, polys[0].points, w, h, x, y))
      || PolygonHit(v, polys[1..], w, h, x, y)
  {
    NudgeIdempotent(view);
    assert Nudge(v) == Nudge(view);
    if PolygonHit(Nudge(v), polys[1..], w, h, x, y) {
      var k :| 0 <= k < |polys[1..]| && !Culled(polys[1..][k].bbox, Nudge(v))
        && SampledHit(Nudge(v), polys[1..][k].points, w, h, x, y);
      assert polys[k + 1] == polys[1..][k];
    }
    if PolygonHit(view, polys, w, h, x, y) {
      var k :| 0 <= k < |polys| && !Culled(polys[k].bbox, view) && SampledHit(view, polys[k].points, w, h, x, y);
      if k > 0 {
        CulledByNudged(polys[k].bbox, view);
        SampledHitNudged(view, polys[k].points, w, h, x, y);
        assert polys[1..][k - 1] == polys[k];
      }
    }
  }

  /** The airport loop: every airport on the grid overwrites its cell with the airport mark. */
  function DrawAirports(view: Box, g: Grid, pts: seq<Point>, w: int, h: int): (r: Layer)
    requires IsGrid(g, w, h)
    ensures IsGrid(r.grid, w, h) && Reaches(view, r.view)
    decreases |pts|
  {
    if |pts| == 0 then Layer(view, g)
    else
      var p := Project(view, pts[0].x, pts[0].y, w, h);
      var g' := if InGrid(p.col, p.row, w, h) then SetCell(g, p.col, p.row, AirportMark) else g;
      NudgeIdempotent(view);
      DrawAirports(p.view, g', pts[1..], w, h)
  }

  /** Some airport projects onto cell (x, y). */
  predicate AirportHit(view: Box, pts: seq<Point>, w: int, h: int, x: int, y: int)
  {
    exists i :: 0 <= i < |pts| && Hits(view, pts[i], w, h, x, y)
  }

  /** The airport loop marks exactly the cells some airport projects onto. */
  lemma {:induction false} DrawAirportsCells(view: Box, g: Grid, pts: seq<Point>, w: int, h: int)
    requires IsGrid(g, w, h)
    ensures var r := DrawAirports(view, g, pts, w, h);
      forall y, x :: InGrid(x, y, w, h) ==>
        r.grid[y][x] == if AirportHit(view, pts, w, h, x, y) then AirportMark else g[y][x]
    decreases |pts|
  {
    if |pts| > 0 {
      var p := Project(view, pts[0].x, pts[0].y, w, h);
      var g' := if InGrid(p.col, p.row, w, h) then SetCell(g, p.col, p.row, AirportMark) else g;
      NudgeIdempotent(view);
      DrawAirportsCells(p.view, g', pts[1..], w, h);
      forall y, x | InGrid(x, y, w, h)
        ensures AirportHit(view, pts, w, h, x, y) <==>
          Hits(view, pts[0], w, h, x, y) || AirportHit(p.view, pts[1..], w, h, x, y)
      {
        forall q | q in pts ensures Hits(Nudge(view), q, w, h, x, y) == Hits(view, q, w, h, x, y) {
          HitsNudged(view, q, w, h, x, y);
        }
        if AirportHit(view, pts, w, h, x, y) {
          var i :| 0 <= i < |pts| && Hits(view, pts[i], w, h, x, y);
          if i > 0 {
            assert pts[1..][i - 1] == pts[i];
          }
        }
        if AirportHit(p.view, pts[1..], w, h, x, y) {
          var j :| 0 <= j < |pts[1..]| && Hits(p.view, pts[1..][j], w, h, x, y);
          assert pts[j + 1] == pts[1..][j];
        }
      }
    }
  }

  /**
   * The static layer: a blank grid, the polygon dots, then the airport
   * marks on top. The view comes back, possibly nudged.
   */
  function StaticLayer(view: Box, polys: seq<Polygon>, airports: seq<Point>, w: nat, h: nat): (r: Layer)
    ensures IsGrid(r.grid, w, h) && Reaches(view, r.view)
  {
    var l := DrawPolygons(view, BlankGrid(w, h), polys, w, h);
    NudgeIdempotent(view);
    DrawAirports(l.view, l.grid, airports, w, h)
  }

  /**
   * What the static layer shows in each cell: an airport mark exactly where
   * an airport projects; otherwise a dot only where a polygon that survives
   * culling has a sampled vertex, and certainly where one that survives
   * culling by the un-nudged view does; blank everywhere else.
   */
  lemma StaticLayerCells(view: Box, polys: seq<Polygon>, airports: seq<Point>, w: nat, h: nat)
    ensures var g := StaticLayer(view, polys, airports, w, h).grid;
      forall y, x :: InGrid(x, y, w, h) ==>
        && (g[y][x] == Blank || g[y][x] == Dot || g[y][x] == AirportMark)
        && (g[y][x] == AirportMark <==> AirportHit(view, airports, w, h, x, y))
        && (g[y][x] == Dot ==> PolygonHit(Nudge(view), polys, w, h, x, y))
        && (PolygonHit(view, polys, w, h, x, y) && !AirportHit(view, airports, w, h, x, y) ==> g[y][x] == Dot)
  {
    var b := BlankGrid(w, h);
    var l := DrawPolygons(view, b, polys, w, h);
    DrawPolygonsCells(view, b, polys, w, h);
    DrawAirportsCells(l.view, l.grid, airports, w, h);
    forall y, x | InGrid(x, y, w, h)
      ensures AirportHit(l.view, airports, w, h, x, y) == AirportHit(view, airports, w, h, x, y)
    {
      forall q | q in airports ensures Hits(Nudge(view), q, w, h, x, y) == Hits(view, q, w, h, x, y) {
        HitsNudged(view, q, w, h, x, y);
      }
    }
  }

  /** Row `row` cut or padded with unset cells to `w` cells: Go's copy into a fresh row. */
  function CopyRow(row: seq<Cell>, w: nat): (r: seq<Cell>)
    ensures |r| == w
    ensures forall x :: 0 <= x < w ==> r[x] == if x < |row| then row[x] else Unset
  {
    if |row| >= w then row[..w] else row + seq(w - |row|, _ => Unset)
  }

  /**
   * The deep copy of the cached grid. A missing grid stays missing and an
   * empty one stays empty; otherwise every row of the copy is as wide as the
   * first source row, so longer rows are cut and shorter ones padded.
   */
  function CopyGrid(src: Option<Grid>): (r: Option<Grid>)
    ensures src.None? <==> r.None?
    ensures src.Some? && |src.value| == 0 ==> r == Some([])
    ensures src.Some? && |src.value| > 0 ==>
      var g := src.value;
      && IsGrid(r.value, |g[0]|, |g|)
      && forall y, x :: 0 <= y < |g| && 0 <= x < |g[0]| ==>
        r.value[y][x] == if x < |g[y]| then g[y][x] else Unset
  {
    match src
    case None => None
    case Some(g) =>
      if |g| == 0 then Some([])
      else if |g[0]| == 0 then Some(seq(|g|, _ => []))
      else Some(seq(|g|, y requires 0 <= y < |g| => CopyRow(g[y], |g[0]|)))
  }

  /** Copying a rectangular grid gives the same grid back. */
  lemma CopyGridOfGrid(g: Grid, w: nat, h: nat)
    requires IsGrid(g, w, h)
    ensures CopyGrid(Some(g)) == Some(g)
  {
    if h > 0 {
      var r := CopyGrid(Some(g)).value;
      assert |r| == |g|;
      forall y | 0 <= y < h ensures r[y] == g[y] {
        assert |r[y]| == w == |g[y]|;
        forall x | 0 <= x < w ensures r[y][x] == g[y][x] {
        }
      }
      assert r == g;
    }
  }

  /** The character a written cell prints as. */
  function GlyphChar(c: Cell): char
    requires !c.Unset?
  {
    match c
    case Blank => ' '
    case Dot => '.'
    case AirportMark => '*'
    case PlaneIcon => PlaneChar
    case Label(ch) => ch
  }

  /** The text a cell prints as: an unset cell prints nothing. */
  function Glyph(c: Cell): string
  {
    if c.Unset? then "" else [GlyphChar(c)]
  }

  /** A row's cells joined with no separator. */
  function RowText(row: seq<Cell>): string
  {
    if |row| == 0 then "" else Glyph(row[0]) + RowText(row[1..])
  }

  /** Each row's text followed by a newline, including after the last row. */
  function Flatten(g: Grid): string
  {
    if |g| == 0 then "" else RowText(g[0]) + "\n" + Flatten(g[1..])
  }

  /** No cell of the grid is unset, so every cell prints as one character. */
  predicate FullyWritten(g: Grid)
  {
    forall y, x :: 0 <= y < |g| && 0 <= x < |g[y]| ==> !g[y][x].Unset?
  }

  /** A fully written row prints as one character per cell, in order. */
  lemma {:induction false} RowTextLayout(row: seq<Cell>)
    requires forall x :: 0 <= x < |row| ==> !row[x].Unset?
    ensures |RowText(row)| == |row|
    ensures forall x :: 0 <= x < |row| ==> RowText(row)[x] == GlyphChar(row[x])
    decreases |row|
  {
    if |row| > 0 {
      RowTextLayout(row[1..]);
      forall x | 0 < x < |row| ensures RowText(row)[x] == GlyphChar(row[x]) {
        assert row[1..][x - 1] == row[x];
      }
    }
  }

  /** Where cell (x, y) lands in the text of a grid w cells wide: each line is w characters and a newline. */
  function Offset(w: nat, y: nat, x: nat): nat
  {
    y * (w + 1) + x
  }

  /** Moving down one line moves w+1 characters on. */
  lemma OffsetStep(w: nat, y: nat, x: nat)
    requires y > 0
    ensures Offset(w, y, x) == (w + 1) + Offset(w, y - 1, x)
  {
    assert y * (w + 1) == (y - 1) * (w + 1) + (w + 1);
  }

  /** A cell inside an h-line grid lands inside its text. */
  lemma OffsetBound(w: nat, h: nat, y: nat, x: nat)
    requires y < h && x <= w
    ensures Offset(w, y, x) < h * (w + 1)
  {
    assert y * (w + 1) <= (h - 1) * (w + 1) by {
      MulMonoNat(y, h - 1, w + 1);
    }
    assert (h - 1) * (w + 1) + (w + 1) == h * (w + 1);
  }

  /** A character on a later line of `line + rest` is the one at the line before in `rest`. */
  lemma LaterLine(line: string, rest: string, w: nat, y: nat, x: nat)
    requires |line| == w + 1 && y > 0 && Offset(w, y - 1, x) < |rest|
    ensures Offset(w, y, x) < |line + rest|
    ensures (line + rest)[Offset(w, y, x)] == rest[Offset(w, y - 1, x)]
  {
    OffsetStep(w, y, x);
  }

  lemma MulMonoNat(a: nat, b: nat, c: nat)
    requires a <= b
    ensures a * c <= b * c
  {
  }

  /** A fully written h x w grid prints as h lines of w + 1 characters. */
  lemma {:induction false} FlattenLength(g: Grid, w: nat, h: nat)
    requires IsGrid(g, w, h) && FullyWritten(g)
    ensures |Flatten(g)| == h * (w + 1)
    decreases h
  {
    if h > 0 {
      RowTextLayout(g[0]);
      FlattenLength(g[1..], w, h - 1);
      assert (h - 1) * (w + 1) + (w + 1) == h * (w + 1);
    }
  }

  /** Cell (x, y) of a fully written grid, or the newline when x == w, is the character at Offset(w, y, x). */
  lemma {:induction false} FlattenAt(g: Grid, w: nat, h: nat, y: nat, x: nat)
    requires IsGrid(g, w, h) && FullyWritten(g) && y < h && x <= w
    ensures Offset(w, y, x) < |Flatten(g)|
    ensures Flatten(g)[Offset(w, y, x)] == if x < w then GlyphChar(g[y][x]) else '\n'
    decreases y
  {
    FlattenLength(g, w, h);
    OffsetBound(w, h, y, x);
    RowTextLayout(g[0]);
    var rest := g[1..];
    var line := RowText(g[0]) + "\n";
    assert Flatten(g) == line + Flatten(rest);
    if y == 0 {
      assert Offset(w, y, x) == x;
      assert Flatten(g)[x] == line[x];
    } else {
      FlattenAt(rest, w, h - 1, y - 1, x);
      LaterLine(line, Flatten(rest), w, y, x);
      assert rest[y - 1] == g[y];
    }
  }

  /**
   * The text of a fully written h x w grid has h lines of w characters plus
   * a newline: cell (x, y) is the character at Offset(w, y, x), and the
   * newline ends each line at Offset(w, y, w).
   */
  lemma FlattenLayout(g: Grid, w: nat, h: nat)
    requires IsGrid(g, w, h) && FullyWritten(g)
    ensures |Flatten(g)| == h * (w + 1)
    ensures forall y: nat, x: nat :: y < h && x <= w ==>
      && Offset(w, y, x) < |Flatten(g)|
      && Flatten(g)[Offset(w, y, x)] == if x < w then GlyphChar(g[y][x]) else '\n'
  {
    FlattenLength(g, w, h);
    forall y: nat, x: nat | y < h && x <= w
      ensures && Offset(w, y, x) < |Flatten(g)|
              && Flatten(g)[Offset(w, y, x)] == if x < w then GlyphChar(g[y][x]) else '\n'
    {
      FlattenAt(g, w, h, y, x);
    }
  }


  /** The static layer holds only blanks, dots and airport marks, so every cell prints. */
  lemma StaticLayerFullyWritten(view: Box, polys: seq<Polygon>, airports: seq<Point>, w: nat, h: nat)
    ensures FullyWritten(StaticLayer(view, polys, airports, w, h).grid)
  {
    StaticLayerCells(view, polys, airports, w, h);
    var g := StaticLayer(view, polys, airports, w, h).grid;
    forall y: int, x: int | 0 <= y < |g| && 0 <= x < |g[y]| ensures g[y][x] != Unset {
      assert InGrid(x, y, w, h);
    }
  }

  /** A cell's text with the icon spelled as in the source. */
  function GlyphAsWritten(c: Cell): string
  {
    if c == PlaneIcon then PlaneTextAsWritten else Glyph(c)
  }

  /** A row's text with the icon spelled as in the source. */
  function RowTextAsWritten(row: seq<Cell>): string
  {
    if |row| == 0 then "" else GlyphAsWritten(row[0]) + RowTextAsWritten(row[1..])
  }

  /** How many icons a row holds. */
  function IconCount(row: seq<Cell>): nat
  {
    if |row| == 0 then 0 else (if row[0] == PlaneIcon then 1 else 0) + IconCount(row[1..])
  }

  /**
   * With the icon spelled as in the source, a fully written row prints two
   * extra characters per icon, so a line holding an aircraft is wider than
   * the grid.
   */
  lemma {:induction false} AsWrittenRowWidth(row: seq<Cell>)
    requires forall x :: 0 <= x < |row| ==> row[x] != Unset
    ensures |RowTextAsWritten(row)| == |row| + 2 * IconCount(row)
    ensures IconCount(row) > 0 ==> |RowTextAsWritten(row)| > |RowText(row)|
    decreases |row|
  {
    RowTextLayout(row);
    if |row| > 0 {
      AsWrittenRowWidth(row[1..]);
    }
  }

  /** A row holding an icon has a positive icon count. */
  lemma {:induction false} IconCountPositive(row: seq<Cell>, x: int)
    requires 0 <= x < |row| && row[x] == PlaneIcon
    ensures IconCount(row) > 0
    decreases x
  {
    if x > 0 {
      assert row[1..][x - 1] == row[x];
      IconCountPositive(row[1..], x - 1);
    }
  }

  /** The icons of a whole grid, counted row by row. */
  function GridIcons(g: Grid): nat
  {
    if |g| == 0 then 0 else IconCount(g[0]) + GridIcons(g[1..])
  }

  /** A grid holding an icon has a positive icon count. */
  lemma {:induction false} GridIconsPositive(g: Grid, y: int, x: int)
    requires 0 <= y < |g| && 0 <= x < |g[y]| && g[y][x] == PlaneIcon
    ensures GridIcons(g) > 0
    decreases y
  {
    if y == 0 {
      IconCountPositive(g[0], x);
    } else {
      assert g[1..][y - 1] == g[y];
      GridIconsPositive(g[1..], y - 1, x);
    }
  }

  /** The text of a grid with the icon spelled as in the source: each row's text followed by a newline. */
  function FlattenAsWritten(g: Grid): string
  {
    if |g| == 0 then "" else RowTextAsWritten(g[0]) + "\n" + FlattenAsWritten(g[1..])
  }

  /**
   * With the icon spelled as in the source, the text of a fully written
   * h x w grid is two characters longer per icon than the h lines of w
   * characters and a newline that the grid has room for.
   */
  lemma {:induction false} FlattenAsWrittenWidth(g: Grid, w: nat, h: nat)
    requires IsGrid(g, w, h) && FullyWritten(g)
    ensures |FlattenAsWritten(g)| == h * (w + 1) + 2 * GridIcons(g)
    ensures forall y :: 0 <= y < h ==> |RowTextAsWritten(g[y])| == w + 2 * IconCount(g[y])
    decreases h
  {
    forall y | 0 <= y < h ensures |RowTextAsWritten(g[y])| == w + 2 * IconCount(g[y]) {
      AsWrittenRowWidth(g[y]);
    }
    if h > 0 {
      FlattenAsWrittenWidth(g[1..], w, h - 1);
      assert (h - 1) * (w + 1) + (w + 1) == h * (w + 1);
    }
  }
}
