/**
 * The dynamic part of a map render (ui/map/map.go): aircraft icons and
 * callsign labels drawn over a copy of the cached static grid, and the
 * render itself as a function from the map's state to a new state and text.
 *
 * Go's map iteration order is unspecified, so every pass over the aircraft
 * table takes the order as a parameter and the properties below hold for
 * every order.
 */
module Overlay {
  import opened Wrappers
  import opened Geo
  import opened Raster
  import opened Sbs
  import opened Viewport

  /** The cell an aircraft's icon went to. */
  datatype Pos = Pos(x: int, y: int)

  /** The renderer's test for a usable position: only exactly (0, 0) is skipped. */
  predicate HasFix(a: Aircraft)
  {
    !(a.lat == 0.0 && a.lon == 0.0)
  }

  /** An aircraft's position as a map point. */
  function Location(a: Aircraft): Point
  {
    Point(a.lon, a.lat)
  }

  /** `order` lists exactly the keys of `table`. */
  predicate Enumerates(order: seq<string>, table: map<string, Aircraft>)
  {
    (forall k :: k in table ==> k in order) && KeysOf(order, table)
  }

  /** Every entry of `order` is a key of `table`. */
  predicate KeysOf(order: seq<string>, table: map<string, Aircraft>)
  {
    forall i :: 0 <= i < |order| ==> order[i] in table
  }

  /** The cell aircraft `a` projects to. */
  function Spot(view: Box, a: Aircraft, w: int, h: int): Pos
  {
    var p := Project(view, a.lon, a.lat, w, h);
    Pos(p.col, p.row)
  }

  /** Aircraft `a` gets an icon: it has a fix and projects onto the grid. */
  predicate OnScreen(view: Box, a: Aircraft, w: int, h: int)
  {
    HasFix(a) && InGrid(Spot(view, a, w, h).x, Spot(view, a, w, h).y, w, h)
  }

  /** Aircraft `a` puts its icon in cell (x, y). */
  predicate IconAt(view: Box, a: Aircraft, w: int, h: int, x: int, y: int)
  {
    HasFix(a) && Hits(view, Location(a), w, h, x, y)
  }

  /** The icon pass's results: the view as projection left it, the grid, and where each icon went. */
  datatype IconPass = IconPass(view: Box, grid: Grid, positions: map<string, Pos>)

  /**
   * The icon pass: each aircraft with a fix that projects onto the grid gets
   * an icon in its cell, overwriting whatever was there, and its position is
   * recorded under its ICAO address.
   */
  function DrawIcons(view: Box, g: Grid, table: map<string, Aircraft>, order: seq<string>, w: int, h: int): (r: IconPass)
    requires IsGrid(g, w, h) && KeysOf(order, table)
    ensures IsGrid(r.grid, w, h) && Reaches(view, r.view)
    ensures forall k :: k in r.positions ==> k in table && InGrid(r.positions[k].x, r.positions[k].y, w, h)
    decreases |order|
  {
    if |order| == 0 then IconPass(view, g, map[])
    else
      var a := table[order[0]];
      if !HasFix(a) then DrawIcons(view, g, table, order[1..], w, h)
      else
        var p := Project(view, a.lon, a.lat, w, h);
        NudgeIdempotent(view);
        if InGrid(p.col, p.row, w, h) then
          var rest := DrawIcons(p.view, SetCell(g, p.col, p.row, PlaneIcon), table, order[1..], w, h);
          rest.(positions := rest.positions[order[0] := Pos(p.col, p.row)])
        else
          DrawIcons(p.view, g, table, order[1..], w, h)
  }

  /** Some aircraft listed in `order` puts its icon in cell (x, y). */
  predicate IconListed(view: Box, table: map<string, Aircraft>, order: seq<string>, w: int, h: int, x: int, y: int)
  {
    exists i :: 0 <= i < |order| && order[i] in table && IconAt(view, table[order[i]], w, h, x, y)
  }

  /** Icons and spots are the same through a nudged view. */
  lemma IconNudged(view: Box, a: Aircraft, w: int, h: int)
    ensures Spot(Nudge(view), a, w, h) == Spot(view, a, w, h)
    ensures OnScreen(Nudge(view), a, w, h) == OnScreen(view, a, w, h)
    ensures forall x, y :: IconAt(Nudge(view), a, w, h, x, y) == IconAt(view, a, w, h, x, y)
  {
    ProjectNudged(view, a.lon, a.lat, w, h);
  }

  /** The aircraft listed in `order` are the first one and those listed in the rest. */
  lemma IconListedStep(view: Box, v: Box, table: map<string, Aircraft>, order: seq<string>, w: int, h: int, x: int, y: int)
    requires |order| > 0 && order[0] in table && Reaches(view, v)
    ensures IconListed(view, table, order, w, h, x, y) <==>
      IconAt(view, table[order[0]], w, h, x, y) || IconListed(v, table, order[1..], w, h, x, y)
  {
    forall k | k in table
      ensures IconAt(v, table[k], w, h, x, y) == IconAt(view, table[k], w, h, x, y)
    {
      IconNudged(view, table[k], w, h);
    }
    if IconListed(view, table, order, w, h, x, y) {
      var i :| 0 <= i < |order| && order[i] in table && IconAt(view, table[order[i]], w, h, x, y);
      if i > 0 {
        assert order[1..][i - 1] == order[i];
      }
    }
    if IconListed(v, table, order[1..], w, h, x, y) {
      var j :| 0 <= j < |order[1..]| && order[1..][j] in table && IconAt(v, table[order[1..][j]], w, h, x, y);
      assert order[j + 1] == order[1..][j];
    }
  }

  /**
   * The icon pass puts an icon exactly in the cells some listed aircraft
   * projects onto and leaves every other cell alone; it records a position
   * exactly for the listed aircraft that have a fix and land on the grid,
   * and that position is the aircraft's cell.
   */
  lemma {:induction false} DrawIconsCells(view: Box, g: Grid, table: map<string, Aircraft>, order: seq<string>, w: int, h: int)
    requires IsGrid(g, w, h) && KeysOf(order, table)
    ensures var r := DrawIcons(view, g, table, order, w, h);
      && (forall y, x :: InGrid(x, y, w, h) ==>
            r.grid[y][x] == if IconListed(view, table, order, w, h, x, y) then PlaneIcon else g[y][x])
      && (forall k :: k in r.positions <==> k in order && k in table && OnScreen(view, table[k], w, h))
      && (forall k :: k in r.positions ==> r.positions[k] == Spot(view, table[k], w, h))
    decreases |order|
  {
    if |order| > 0 {
      var k0 := order[0];
      var a := table[k0];
      var r := DrawIcons(view, g, table, order, w, h);
      var tail := order[1..];
      var v := if HasFix(a) then Project(view, a.lon, a.lat, w, h).view else view;
      var g' := if OnScreen(view, a, w, h) then SetCell(g, Spot(view, a, w, h).x, Spot(view, a, w, h).y, PlaneIcon) else g;
      NudgeIdempotent(view);
      var rest := DrawIcons(v, g', table, tail, w, h);
      assert r.grid == rest.grid;
      assert r.positions == if OnScreen(view, a, w, h) then rest.positions[k0 := Spot(view, a, w, h)] else rest.positions;
      DrawIconsCells(v, g', table, tail, w, h);
      forall y, x | InGrid(x, y, w, h)
        ensures r.grid[y][x] == if IconListed(view, table, order, w, h, x, y) then PlaneIcon else g[y][x]
      {
        IconListedStep(view, v, table, order, w, h, x, y);
      }
      forall k | k in table
        ensures OnScreen(v, table[k], w, h) == OnScreen(view, table[k], w, h)
        ensures Spot(v, table[k], w, h) == Spot(view, table[k], w, h)
      {
        IconNudged(view, table[k], w, h);
      }
      forall k ensures k in r.positions <==> k in order && k in table && OnScreen(view, table[k], w, h) {
        if k in order && k != k0 {
          var i :| 0 <= i < |order| && order[i] == k;
          assert tail[i - 1] == k;
        }
      }
    }
  }

  /** The icon pass through the nudged view draws the same icons at the same positions. */
  lemma {:induction false} DrawIconsNudged(view: Box, g: Grid, table: map<string, Aircraft>, order: seq<string>, w: int, h: int)
    requires IsGrid(g, w, h) && KeysOf(order, table)
    ensures DrawIcons(Nudge(view), g, table, order, w, h).grid == DrawIcons(view, g, table, order, w, h).grid
    ensures DrawIcons(Nudge(view), g, table, order, w, h).positions == DrawIcons(view, g, table, order, w, h).positions
    decreases |order|
  {
    if |order| > 0 {
      var a := table[order[0]];
      if HasFix(a) {
        ProjectNudged(view, a.lon, a.lat, w, h);
      } else {
        DrawIconsNudged(view, g, table, order[1..], w, h);
      }
    }
  }

  /**
   * One callsign written rightwards from (x, y), one character per cell,
   * stopping at the right edge, and only into blank cells.
   */
  function DrawLabel(g: Grid, x: int, y: int, text: string, w: int, h: int): (r: Grid)
    requires IsGrid(g, w, h) && 0 <= y < h && 0 <= x
    ensures IsGrid(r, w, h)
    decreases |text|
  {
    if |text| == 0 || x >= w then g
    else
      var g' := if g[y][x] == Blank then SetCell(g, x, y, Label(text[0])) else g;
      DrawLabel(g', x + 1, y, text[1..], w, h)
  }

  /** A label changes exactly the blank cells of its row that its text covers. */
  lemma {:induction false} DrawLabelCells(g: Grid, x: int, y: int, text: string, w: int, h: int)
    requires IsGrid(g, w, h) && 0 <= y < h && 0 <= x
    ensures var r := DrawLabel(g, x, y, text, w, h);
      forall yy, xx :: InGrid(xx, yy, w, h) ==>
        r[yy][xx] == if yy == y && x <= xx < x + |text| && g[yy][xx] == Blank then Label(text[xx - x]) else g[yy][xx]
    decreases |text|
  {
    if |text| > 0 && x < w {
      var g' := if g[y][x] == Blank then SetCell(g, x, y, Label(text[0])) else g;
      DrawLabelCells(g', x + 1, y, text[1..], w, h);
      forall yy, xx | InGrid(xx, yy, w, h) && yy == y && x < xx < x + |text|
        ensures text[1..][xx - (x + 1)] == text[xx - x]
      {
      }
    }
  }

  /** The callsign of `k` reaches cell (x, y): one row below its icon, from the icon's column on. */
  predicate Covers(table: map<string, Aircraft>, positions: map<string, Pos>, k: string, w: int, h: int, x: int, y: int)
  {
    && k in positions && k in table
    && table[k].callsign != ""
    && positions[k].y + 1 < h
    && y == positions[k].y + 1
    && positions[k].x <= x < positions[k].x + |table[k].callsign|
    && x < w
  }

  /** The character of `k`'s callsign that falls in column x. */
  function LabelChar(table: map<string, Aircraft>, positions: map<string, Pos>, k: string, w: int, h: int, x: int, y: int): char
    requires Covers(table, positions, k, w, h, x, y)
  {
    table[k].callsign[x - positions[k].x]
  }

  /** Every recorded position lies on the grid and belongs to a known aircraft. */
  predicate PositionsOnGrid(table: map<string, Aircraft>, positions: map<string, Pos>, w: int, h: int)
  {
    forall k :: k in positions ==> k in table && InGrid(positions[k].x, positions[k].y, w, h)
  }

  /**
   * The label pass: for each aircraft with an icon and a callsign, in the
   * given order, the callsign goes one row below the icon unless that row
   * is off the bottom. Keys without a recorded position are skipped, so any
   * order of the positions can be given as an order of the whole table.
   */
  function LabelPass(g: Grid, table: map<string, Aircraft>, positions: map<string, Pos>, order: seq<string>, w: int, h: int): (r: Grid)
    requires IsGrid(g, w, h) && PositionsOnGrid(table, positions, w, h)
    ensures IsGrid(r, w, h)
    decreases |order|
  {
    if |order| == 0 then g
    else
      var k := order[0];
      var g' :=
        if k !in positions then g
        else
          var p := positions[k];
          var callsign := table[k].callsign;
          if callsign == "" || p.y + 1 >= h then g else DrawLabel(g, p.x, p.y + 1, callsign, w, h);
      LabelPass(g', table, positions, order[1..], w, h)
  }

  /** Cell content `c` is the character `k`'s callsign puts in cell (x, y). */
  predicate LabelledBy(table: map<string, Aircraft>, positions: map<string, Pos>, k: string, w: int, h: int, x: int, y: int, c: Cell)
  {
    Covers(table, positions, k, w, h, x, y) && c == Label(LabelChar(table, positions, k, w, h, x, y))
  }

  /** Cell content `c` is the character some key listed in `order` puts in cell (x, y). */
  predicate LabelledIn(table: map<string, Aircraft>, positions: map<string, Pos>, order: seq<string>, w: int, h: int, x: int, y: int, c: Cell)
  {
    exists i :: 0 <= i < |order| && LabelledBy(table, positions, order[i], w, h, x, y, c)
  }

  /** Some key listed in `order` has its callsign reach cell (x, y). */
  predicate CoveredIn(table: map<string, Aircraft>, positions: map<string, Pos>, order: seq<string>, w: int, h: int, x: int, y: int)
  {
    exists i :: 0 <= i < |order| && Covers(table, positions, order[i], w, h, x, y)
  }

  /**
   * The label pass leaves every non-blank cell alone; a blank cell stays
   * blank exactly when no listed callsign reaches it; and a changed cell
   * holds the matching character of some callsign that reaches it.
   */
  lemma {:induction false} LabelPassCells(g: Grid, table: map<string, Aircraft>, positions: map<string, Pos>, order: seq<string>, w: int, h: int)
    requires IsGrid(g, w, h) && PositionsOnGrid(table, positions, w, h)
    ensures var r := LabelPass(g, table, positions, order, w, h);
      forall y, x :: InGrid(x, y, w, h) ==>
        && (g[y][x] != Blank ==> r[y][x] == g[y][x])
        && (g[y][x] == Blank ==> (r[y][x] == Blank <==> !CoveredIn(table, positions, order, w, h, x, y)))
        && (r[y][x] != g[y][x] ==> LabelledIn(table, positions, order, w, h, x, y, r[y][x]))
    decreases |order|
  {
    if |order| > 0 {
      var k := order[0];
      var r := LabelPass(g, table, positions, order, w, h);
      var g' :=
        if k !in positions then g
        else
          var p := positions[k];
          var callsign := table[k].callsign;
          if callsign == "" || p.y + 1 >= h then g else DrawLabel(g, p.x, p.y + 1, callsign, w, h);
      assert r == LabelPass(g', table, positions, order[1..], w, h);
      LabelPassCells(g', table, positions, order[1..], w, h);
      if k in positions && table[k].callsign != "" && positions[k].y + 1 < h {
        DrawLabelCells(g, positions[k].x, positions[k].y + 1, table[k].callsign, w, h);
      }
      forall y, x | InGrid(x, y, w, h)
        ensures && (g[y][x] != Blank ==> r[y][x] == g[y][x])
                && (g[y][x] == Blank ==> (r[y][x] == Blank <==> !CoveredIn(table, positions, order, w, h, x, y)))
                && (r[y][x] != g[y][x] ==> LabelledIn(table, positions, order, w, h, x, y, r[y][x]))
      {
        CoveredInStep(table, positions, order, w, h, x, y);
        if r[y][x] != g[y][x] {
          if g'[y][x] != g[y][x] {
            assert Covers(table, positions, order[0], w, h, x, y);
          } else {
            var j :| 0 <= j < |order[1..]| && LabelledBy(table, positions, order[1..][j], w, h, x, y, r[y][x]);
            assert order[j + 1] == order[1..][j];
            assert LabelledBy(table, positions, order[j + 1], w, h, x, y, r[y][x]);
          }
        }
      }
    }
  }

  /** The keys listed in `order` are the first one and those listed in the rest. */
  lemma CoveredInStep(table: map<string, Aircraft>, positions: map<string, Pos>, order: seq<string>, w: int, h: int, x: int, y: int)
    requires |order| > 0
    ensures CoveredIn(table, positions, order, w, h, x, y) <==>
      Covers(table, positions, order[0], w, h, x, y) || CoveredIn(table, positions, order[1..], w, h, x, y)
  {
    if CoveredIn(table, positions, order, w, h, x, y) {
      var i :| 0 <= i < |order| && Covers(table, positions, order[i], w, h, x, y);
      if i > 0 {
        assert order[1..][i - 1] == order[i];
      }
    }
    if CoveredIn(table, positions, order[1..], w, h, x, y) {
      var j :| 0 <= j < |order[1..]| && Covers(table, positions, order[1..][j], w, h, x, y);
      assert order[j + 1] == order[1..][j];
    }
  }

  /** A requested view size below 1 becomes 1. */
  function ClampDim(n: int): (r: nat)
    ensures r >= 1
  {
    if n <= 0 then 1 else n
  }

  /** The static grid must be rebuilt: a redraw was requested, or there is no cache of this size. */
  predicate NeedsRebuild(m: MapModel, w: int, h: int)
    requires h > 0
  {
    m.needsRedraw || m.cache.None? || |m.cache.value| != h || |m.cache.value[0]| != w
  }

  /** The cache holds an h x w grid every cell of which prints. */
  predicate CacheReady(m: MapModel, w: int, h: int)
  {
    m.cache.Some? && IsGrid(m.cache.value, w, h) && FullyWritten(m.cache.value)
  }

  /**
   * The first step of a render: rebuild the static layer into the cache
   * when needed, clearing the redraw request; otherwise keep the state.
   */
  function Prepared(m: MapModel, w: nat, h: nat): (r: MapModel)
    requires h > 0
    ensures r == m.(viewBounds := r.viewBounds, cache := r.cache, needsRedraw := false)
    ensures Reaches(m.viewBounds, r.viewBounds)
    ensures r.cache.Some? && |r.cache.value| == h && |r.cache.value[0]| == w
    ensures NeedsRebuild(m, w, h) ==>
      && r.cache == Some(StaticLayer(m.viewBounds, m.polygons, m.airports, w, h).grid)
      && CacheReady(r, w, h)
    ensures !NeedsRebuild(m, w, h) ==> r == m
  {
    if NeedsRebuild(m, w, h) then
      var l := StaticLayer(m.viewBounds, m.polygons, m.airports, w, h);
      StaticLayerFullyWritten(m.viewBounds, m.polygons, m.airports, w, h);
      m.(viewBounds := l.view, cache := Some(l.grid), needsRedraw := false)
    else m
  }

  /**
   * One render's stages: the resulting state, the copy of the base grid
   * the overlay starts from, the icon pass, and the finished grid.
   */
  datatype Frame = Frame(state: MapModel, base: Grid, icons: IconPass, grid: Grid)

  /**
   * A render before flattening: the static step, a copy of the cache, the
   * icon pass over the aircraft in `order`, then the label pass over the
   * aircraft in `labelOrder`.
   */
  function Compose(m: MapModel, viewWidth: int, viewHeight: int, order: seq<string>, labelOrder: seq<string>): (f: Frame)
    requires KeysOf(order, m.aircraft)
    ensures var w := ClampDim(viewWidth); var h := ClampDim(viewHeight);
      && f.state == m.(viewBounds := f.state.viewBounds, cache := f.state.cache, needsRedraw := false)
      && Reaches(m.viewBounds, f.state.viewBounds)
      && f.state.cache == Prepared(m, w, h).cache
      && (!NeedsRebuild(m, w, h) ==> f.state.cache == m.cache)
      && Some(f.base) == CopyGrid(f.state.cache)
      && IsGrid(f.base, w, h) && IsGrid(f.grid, w, h)
      && f.icons == DrawIcons(Prepared(m, w, h).viewBounds, f.base, m.aircraft, order, w, h)
      && f.grid == LabelPass(f.icons.grid, m.aircraft, f.icons.positions, labelOrder, w, h)
  {
    var w := ClampDim(viewWidth);
    var h := ClampDim(viewHeight);
    var m1 := Prepared(m, w, h);
    var base := CopyGrid(m1.cache).value;
    var icons := DrawIcons(m1.viewBounds, base, m1.aircraft, order, w, h);
    var grid := LabelPass(icons.grid, m1.aircraft, icons.positions, labelOrder, w, h);
    NudgeIdempotent(m.viewBounds);
    Frame(m1.(viewBounds := icons.view), base, icons, grid)
  }

  /** When the static step leaves a ready cache, the copy is the cache and the whole frame prints. */
  lemma ComposeFullyWritten(m: MapModel, viewWidth: int, viewHeight: int, order: seq<string>, labelOrder: seq<string>)
    requires KeysOf(order, m.aircraft)
    requires NeedsRebuild(m, ClampDim(viewWidth), ClampDim(viewHeight)) || CacheReady(m, ClampDim(viewWidth), ClampDim(viewHeight))
    ensures var f := Compose(m, viewWidth, viewHeight, order, labelOrder);
      CacheReady(f.state, ClampDim(viewWidth), ClampDim(viewHeight)) && FullyWritten(f.base) && FullyWritten(f.grid)
  {
    var w := ClampDim(viewWidth);
    var h := ClampDim(viewHeight);
    var f := Compose(m, viewWidth, viewHeight, order, labelOrder);
    assert CacheReady(Prepared(m, w, h), w, h);
    CopyGridOfGrid(f.state.cache.value, w, h);
    DrawIconsCells(Prepared(m, w, h).viewBounds, f.base, m.aircraft, order, w, h);
    LabelPassCells(f.icons.grid, m.aircraft, f.icons.positions, labelOrder, w, h);
    forall y: int, x: int | 0 <= y < |f.grid| && 0 <= x < |f.grid[y]| ensures f.grid[y][x] != Unset {
      assert InGrid(x, y, w, h);
    }
  }

  /**
   * Render the map into a viewWidth x viewHeight character view. The new
   * state has no redraw request and a cache of this size, possibly a
   * nudged view, and is otherwise the old state; the text is h lines of w
   * characters each ended by a newline, where w and h are the requested
   * sizes raised to at least 1.
   */
  function RenderMapViewport(m: MapModel, viewWidth: int, viewHeight: int, order: seq<string>, labelOrder: seq<string>): (r: (MapModel, string))
    requires KeysOf(order, m.aircraft)
    ensures var w := ClampDim(viewWidth); var h := ClampDim(viewHeight);
      && r.0 == m.(viewBounds := r.0.viewBounds, cache := r.0.cache, needsRedraw := false)
      && Reaches(m.viewBounds, r.0.viewBounds)
      && (viewWidth > 0 ==> w == viewWidth) && (viewHeight > 0 ==> h == viewHeight)
      && (NeedsRebuild(m, w, h) || CacheReady(m, w, h) ==>
            && CacheReady(r.0, w, h)
            && |r.1| == h * (w + 1)
            && forall y: nat :: y < h ==> Offset(w, y, w) < |r.1| && r.1[Offset(w, y, w)] == '\n')
  {
    var f := Compose(m, viewWidth, viewHeight, order, labelOrder);
    var w := ClampDim(viewWidth);
    var h := ClampDim(viewHeight);
    if NeedsRebuild(m, w, h) || CacheReady(m, w, h) then
      ComposeFullyWritten(m, viewWidth, viewHeight, order, labelOrder);
      FlattenLayout(f.grid, w, h);
      (f.state, Flatten(f.grid))
    else
      (f.state, Flatten(f.grid))
  }

  /**
   * The render with the icon spelled as the source spells it, three
   * characters per icon: the same new state, and a text two characters
   * longer per icon than the corrected one, so as soon as one aircraft lands
   * on the grid the text no longer fits h lines of w characters.
   */
  function RenderAsWritten(m: MapModel, viewWidth: int, viewHeight: int, order: seq<string>, labelOrder: seq<string>): (r: (MapModel, string))
    requires KeysOf(order, m.aircraft)
    ensures var w := ClampDim(viewWidth); var h := ClampDim(viewHeight);
      var f := Compose(m, viewWidth, viewHeight, order, labelOrder);
      && r.0 == RenderMapViewport(m, viewWidth, viewHeight, order, labelOrder).0
      && (NeedsRebuild(m, w, h) || CacheReady(m, w, h) ==>
            && |r.1| == |RenderMapViewport(m, viewWidth, viewHeight, order, labelOrder).1| + 2 * GridIcons(f.grid)
            && (|f.icons.positions| > 0 ==> |r.1| > h * (w + 1)))
  {
    var f := Compose(m, viewWidth, viewHeight, order, labelOrder);
    var w := ClampDim(viewWidth);
    var h := ClampDim(viewHeight);
    if NeedsRebuild(m, w, h) || CacheReady(m, w, h) then
      ComposeFullyWritten(m, viewWidth, viewHeight, order, labelOrder);
      FlattenAsWrittenWidth(f.grid, w, h);
      IconsCounted(m, viewWidth, viewHeight, order, labelOrder);
      (f.state, FlattenAsWritten(f.grid))
    else
      (f.state, FlattenAsWritten(f.grid))
  }

  /** A recorded icon is still an icon in the finished grid, so a render that records one counts it. */
  lemma IconsCounted(m: MapModel, viewWidth: int, viewHeight: int, order: seq<string>, labelOrder: seq<string>)
    requires KeysOf(order, m.aircraft)
    ensures var f := Compose(m, viewWidth, viewHeight, order, labelOrder);
      && (forall k :: k in f.icons.positions ==> f.grid[f.icons.positions[k].y][f.icons.positions[k].x] == PlaneIcon)
      && (|f.icons.positions| > 0 ==> GridIcons(f.grid) > 0)
  {
    var w := ClampDim(viewWidth);
    var h := ClampDim(viewHeight);
    var f := Compose(m, viewWidth, viewHeight, order, labelOrder);
    var v := Prepared(m, w, h).viewBounds;
    var table := m.aircraft;
    DrawIconsCells(v, f.base, table, order, w, h);
    LabelPassCells(f.icons.grid, table, f.icons.positions, labelOrder, w, h);
    forall k | k in f.icons.positions
      ensures f.grid[f.icons.positions[k].y][f.icons.positions[k].x] == PlaneIcon
    {
      var p := f.icons.positions[k];
      var i :| 0 <= i < |order| && order[i] == k;
      assert IconAt(v, table[order[i]], w, h, p.x, p.y);
    }
    if |f.icons.positions| > 0 {
      var k :| k in f.icons.positions;
      var p := f.icons.positions[k];
      GridIconsPositive(f.grid, p.y, p.x);
    }
  }

  /**
   * The text of a render shows each cell of the finished grid at its place,
   * whatever order the aircraft were visited in.
   */
  lemma RenderText(m: MapModel, viewWidth: int, viewHeight: int, order: seq<string>, labelOrder: seq<string>)
    requires KeysOf(order, m.aircraft)
    requires NeedsRebuild(m, ClampDim(viewWidth), ClampDim(viewHeight)) || CacheReady(m, ClampDim(viewWidth), ClampDim(viewHeight))
    ensures var w := ClampDim(viewWidth); var h := ClampDim(viewHeight);
      var f := Compose(m, viewWidth, viewHeight, order, labelOrder);
      var text := RenderMapViewport(m, viewWidth, viewHeight, order, labelOrder).1;
      && FullyWritten(f.grid)
      && forall y: nat, x: nat :: y < h && x < w ==>
           Offset(w, y, x) < |text| && text[Offset(w, y, x)] == GlyphChar(f.grid[y][x])
  {
    var w := ClampDim(viewWidth);
    var h := ClampDim(viewHeight);
    var f := Compose(m, viewWidth, viewHeight, order, labelOrder);
    ComposeFullyWritten(m, viewWidth, viewHeight, order, labelOrder);
    FlattenLayout(f.grid, w, h);
  }

  /**
   * The icons of a render: a cell shows an icon exactly when some aircraft
   * with a fix projects onto it, and otherwise keeps its static content; an
   * icon position is recorded exactly for the aircraft with a fix that land
   * on the grid, at their cell. None of this depends on the order.
   */
  lemma RenderIcons(m: MapModel, viewWidth: int, viewHeight: int, order: seq<string>, labelOrder: seq<string>)
    requires Enumerates(order, m.aircraft)
    ensures var w := ClampDim(viewWidth); var h := ClampDim(viewHeight);
      var f := Compose(m, viewWidth, viewHeight, order, labelOrder);
      && (forall y, x :: InGrid(x, y, w, h) ==>
            f.icons.grid[y][x] ==
              if exists k :: k in m.aircraft && IconAt(m.viewBounds, m.aircraft[k], w, h, x, y) then PlaneIcon
              else f.base[y][x])
      && (forall k :: k in f.icons.positions <==> k in m.aircraft && OnScreen(m.viewBounds, m.aircraft[k], w, h))
      && (forall k :: k in f.icons.positions ==> f.icons.positions[k] == Spot(m.viewBounds, m.aircraft[k], w, h))
  {
    var w := ClampDim(viewWidth);
    var h := ClampDim(viewHeight);
    var f := Compose(m, viewWidth, viewHeight, order, labelOrder);
    var v := Prepared(m, w, h).viewBounds;
    var table := m.aircraft;
    DrawIconsCells(v, f.base, table, order, w, h);
    forall k | k in table
      ensures OnScreen(v, table[k], w, h) == OnScreen(m.viewBounds, table[k], w, h)
      ensures Spot(v, table[k], w, h) == Spot(m.viewBounds, table[k], w, h)
      ensures forall x, y :: IconAt(v, table[k], w, h, x, y) == IconAt(m.viewBounds, table[k], w, h, x, y)
    {
      IconNudged(m.viewBounds, table[k], w, h);
    }
    forall y, x | InGrid(x, y, w, h)
      ensures IconListed(v, table, order, w, h, x, y) <==>
        exists k :: k in table && IconAt(m.viewBounds, table[k], w, h, x, y)
    {
      if exists k :: k in table && IconAt(m.viewBounds, table[k], w, h, x, y) {
        var k :| k in table && IconAt(m.viewBounds, table[k], w, h, x, y);
        var i :| 0 <= i < |order| && order[i] == k;
        assert order[i] in table && IconAt(v, table[order[i]], w, h, x, y);
      }
    }
  }

  /**
   * The labels of a render: an icon or map glyph is never overwritten; a
   * blank cell becomes a label exactly when some recorded aircraft's
   * callsign reaches it, and then holds that callsign's character. Which
   * cells are labelled does not depend on the order; when two callsigns
   * reach the same cell, the first one drawn wins.
   */
  lemma RenderLabels(m: MapModel, viewWidth: int, viewHeight: int, order: seq<string>, labelOrder: seq<string>)
    requires KeysOf(order, m.aircraft) && Enumerates(labelOrder, m.aircraft)
    ensures var w := ClampDim(viewWidth); var h := ClampDim(viewHeight);
      var f := Compose(m, viewWidth, viewHeight, order, labelOrder);
      var icons := f.icons.grid;
      var positions := f.icons.positions;
      forall y, x :: InGrid(x, y, w, h) ==>
        && (icons[y][x] != Blank ==> f.grid[y][x] == icons[y][x])
        && (icons[y][x] == Blank ==>
              (f.grid[y][x] == Blank <==> !exists k :: Covers(m.aircraft, positions, k, w, h, x, y)))
        && (f.grid[y][x] != icons[y][x] ==> exists k :: LabelledBy(m.aircraft, positions, k, w, h, x, y, f.grid[y][x]))
  {
    var w := ClampDim(viewWidth);
    var h := ClampDim(viewHeight);
    var f := Compose(m, viewWidth, viewHeight, order, labelOrder);
    var table := m.aircraft;
    var positions := f.icons.positions;
    LabelPassCells(f.icons.grid, table, positions, labelOrder, w, h);
    forall y, x | InGrid(x, y, w, h)
      ensures CoveredIn(table, positions, labelOrder, w, h, x, y) <==> exists k :: Covers(table, positions, k, w, h, x, y)
    {
      if exists k :: Covers(table, positions, k, w, h, x, y) {
        var k :| Covers(table, positions, k, w, h, x, y);
        var i :| 0 <= i < |labelOrder| && labelOrder[i] == k;
        assert Covers(table, positions, labelOrder[i], w, h, x, y);
      }
    }
  }

  /**
   * Rendering again at the same size reuses the cache the first render
   * left and produces the same text.
   */
  lemma RenderTwice(m: MapModel, viewWidth: int, viewHeight: int, order: seq<string>, labelOrder: seq<string>)
    requires KeysOf(order, m.aircraft)
    ensures var r1 := RenderMapViewport(m, viewWidth, viewHeight, order, labelOrder);
      var r2 := RenderMapViewport(r1.0, viewWidth, viewHeight, order, labelOrder);
      r2.0.cache == r1.0.cache && r2.1 == r1.1
  {
    var w := ClampDim(viewWidth);
    var h := ClampDim(viewHeight);
    var f1 := Compose(m, viewWidth, viewHeight, order, labelOrder);
    var s1 := f1.state;
    assert !NeedsRebuild(s1, w, h);
    var f2 := Compose(s1, viewWidth, viewHeight, order, labelOrder);
    assert Prepared(s1, w, h) == s1;
    assert f2.base == f1.base;
    var v := Prepared(m, w, h).viewBounds;
    NudgeIdempotent(m.viewBounds);
    assert s1.viewBounds == v || s1.viewBounds == Nudge(v);
    DrawIconsNudged(v, f1.base, m.aircraft, order, w, h);
    assert f2.icons.grid == f1.icons.grid && f2.icons.positions == f1.icons.positions;
  }
}
