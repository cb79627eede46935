/**
 * The map view's state and its state machine (ui/map/map.go): pan, zoom
 * with its clamp to the full extent, reset, centring on a location, the
 * zoom level shown in the footer, and the key and resize dispatch.
 */
module Viewport {
  import opened Wrappers
  import opened Geo
  import opened Raster
  import opened Sbs

  /** Fraction of the view's extent one pan key moves it. */
  const PanFactor: real := 0.1
  /** Ratio by which one zoom key scales the view's extent. */
  const ZoomFactor: real := 1.2
  /** Zoom level applied when the view centres on the first located aircraft. */
  const LocationZoom: real := 25.5

  /**
   * The map component. `cache` is the static grid a render leaves for the
   * next one (None is Go's nil slice); `needsRedraw` says it must be
   * rebuilt. Go's View renders on a copy of this state, so in the running
   * program neither field survives a frame.
   */
  datatype MapModel = MapModel(
    width: int,
    height: int,
    polygons: seq<Polygon>,
    airports: seq<Point>,
    aircraft: map<string, Aircraft>,
    originalBounds: Box,
    viewBounds: Box,
    cache: Option<Grid>,
    needsRedraw: bool)

  /** Only the view changes, and a redraw is requested. */
  predicate MovesViewOnly(m: MapModel, r: MapModel)
  {
    r == m.(viewBounds := r.viewBounds, needsRedraw := true)
  }

  /**
   * Centre the view on (lon, lat) at 25.5 times the full extent's zoom,
   * keeping the full extent's aspect ratio.
   */
  function SetViewToLocation(m: MapModel, lat: real, lon: real): (r: MapModel)
    ensures MovesViewOnly(m, r)
    ensures r.viewBounds.CenterX() == lon && r.viewBounds.CenterY() == lat
    ensures r.viewBounds.Width() * LocationZoom == m.originalBounds.Width()
    ensures r.viewBounds.Height() * LocationZoom == m.originalBounds.Height()
  {
    var origWidth := m.originalBounds.Width();
    var origHeight := m.originalBounds.Height();
    var newGeoWidth := origWidth / LocationZoom;
    // The height goes through the aspect ratio origWidth / origHeight. A
    // zero extent has no such ratio over the reals; the direct quotient is
    // what the floating-point formula gives when only the height is zero.
    var newGeoHeight :=
      if origWidth == 0.0 || origHeight == 0.0 then origHeight / LocationZoom
      else AspectHeight(newGeoWidth, origWidth, origHeight);
    var halfWidth := newGeoWidth / 2.0;
    var halfHeight := newGeoHeight / 2.0;
    m.(viewBounds := Box(lon - halfWidth, lat - halfHeight, lon + halfWidth, lat + halfHeight),
       needsRedraw := true)
  }

  /** A width converted to a height through the aspect ratio width0 / height0. */
  function AspectHeight(width: real, width0: real, height0: real): (r: real)
    requires width0 != 0.0 && height0 != 0.0
    ensures r * width0 == width * height0
  {
    var aspect := width0 / height0;
    assert aspect * height0 == width0;
    width / aspect
  }

  /** Scaling the view by `factor` would make it wider or taller than the full extent. */
  predicate ZoomClamps(m: MapModel, factor: real)
  {
    m.viewBounds.Width() * factor > m.originalBounds.Width()
    || m.viewBounds.Height() * factor > m.originalBounds.Height()
  }

  /**
   * Scale the view about its centre; a view that would outgrow the full
   * extent becomes exactly the full extent.
   */
  function Zoom(m: MapModel, factor: real): (r: MapModel)
    ensures MovesViewOnly(m, r)
    ensures ZoomClamps(m, factor) ==> r.viewBounds == m.originalBounds
    ensures !ZoomClamps(m, factor) ==>
      && r.viewBounds.CenterX() == m.viewBounds.CenterX()
      && r.viewBounds.CenterY() == m.viewBounds.CenterY()
      && r.viewBounds.Width() == m.viewBounds.Width() * factor
      && r.viewBounds.Height() == m.viewBounds.Height() * factor
  {
    var v := m.viewBounds;
    var centerX := (v.minX + v.maxX) / 2.0;
    var centerY := (v.minY + v.maxY) / 2.0;
    var newWidth := v.Width() * factor;
    var newHeight := v.Height() * factor;
    if ZoomClamps(m, factor) then
      m.(viewBounds := m.originalBounds, needsRedraw := true)
    else
      m.(viewBounds := Box(centerX - newWidth / 2.0, centerY - newHeight / 2.0,
                           centerX + newWidth / 2.0, centerY + newHeight / 2.0),
         needsRedraw := true)
  }

  /** Move the view by `dx` of its width and `dy` of its height. */
  function Pan(m: MapModel, dx: real, dy: real): (r: MapModel)
    ensures MovesViewOnly(m, r)
    ensures r.viewBounds.Width() == m.viewBounds.Width()
    ensures r.viewBounds.Height() == m.viewBounds.Height()
    ensures r.viewBounds.CenterX() == m.viewBounds.CenterX() + m.viewBounds.Width() * dx
    ensures r.viewBounds.CenterY() == m.viewBounds.CenterY() + m.viewBounds.Height() * dy
  {
    var v := m.viewBounds;
    var panX := v.Width() * dx;
    var panY := v.Height() * dy;
    m.(viewBounds := Box(v.minX + panX, v.minY + panY, v.maxX + panX, v.maxY + panY),
       needsRedraw := true)
  }

  /** How many times narrower than the full extent the view is; 1 for a view of no width. */
  function GetZoomLevel(m: MapModel): (r: real)
    ensures m.viewBounds.Width() == 0.0 ==> r == 1.0
    ensures m.viewBounds.Width() != 0.0 ==> r * m.viewBounds.Width() == m.originalBounds.Width()
  {
    if m.viewBounds.maxX == m.viewBounds.minX then 1.0
    else m.originalBounds.Width() / m.viewBounds.Width()
  }

  /** The messages the map component reacts to. */
  datatype MapMsg = WindowSize(width: int, height: int) | KeyPress(key: string) | OtherMsg

  /** The keys the map component reacts to. */
  predicate IsMapKey(key: string)
  {
    key in {"k", "up", "l", "down", "j", "left", ";", "right", "K", "L", "r"}
  }

  /**
   * Resize stores the new size; the pan keys move a tenth of the view, K
   * zooms in and L out by 1.2, r resets to the full extent. Every one of these
   * requests a redraw; anything else leaves the model as it is.
   */
  function Update(m: MapModel, msg: MapMsg): (r: MapModel)
    ensures msg.WindowSize? ==> r == m.(width := msg.width, height := msg.height, needsRedraw := true)
    ensures msg.KeyPress? && msg.key in {"k", "up"} ==> r == Pan(m, 0.0, PanFactor)
    ensures msg.KeyPress? && msg.key in {"l", "down"} ==> r == Pan(m, 0.0, -PanFactor)
    ensures msg.KeyPress? && msg.key in {"j", "left"} ==> r == Pan(m, -PanFactor, 0.0)
    ensures msg.KeyPress? && msg.key in {";", "right"} ==> r == Pan(m, PanFactor, 0.0)
    ensures msg == KeyPress("K") ==> r == Zoom(m, 1.0 / ZoomFactor)
    ensures msg == KeyPress("L") ==> r == Zoom(m, ZoomFactor)
    ensures msg == KeyPress("r") ==> r == m.(viewBounds := m.originalBounds, needsRedraw := true)
    ensures msg.OtherMsg? || (msg.KeyPress? && !IsMapKey(msg.key)) ==> r == m
  {
    match msg
    case WindowSize(w, h) => m.(width := w, height := h, needsRedraw := true)
    case OtherMsg => m
    case KeyPress(key) =>
      if key == "k" || key == "up" then Pan(m, 0.0, PanFactor)
      else if key == "l" || key == "down" then Pan(m, 0.0, -PanFactor)
      else if key == "j" || key == "left" then Pan(m, -PanFactor, 0.0)
      else if key == ";" || key == "right" then Pan(m, PanFactor, 0.0)
      else if key == "K" then Zoom(m, 1.0 / ZoomFactor)
      else if key == "L" then Zoom(m, ZoomFactor)
      else if key == "r" then m.(viewBounds := m.originalBounds, needsRedraw := true)
      else m
  }

  /** The view is no larger than the full extent and not inverted. */
  predicate ViewWithin(m: MapModel)
  {
    && 0.0 <= m.viewBounds.Width() <= m.originalBounds.Width()
    && 0.0 <= m.viewBounds.Height() <= m.originalBounds.Height()
  }

  /** Every message keeps the view within the full extent. */
  lemma UpdateKeepsViewWithin(m: MapModel, msg: MapMsg)
    requires ViewWithin(m)
    ensures ViewWithin(Update(m, msg))
  {
    if msg == KeyPress("K") {
      ZoomInNeverClamps(m);
    }
  }

  /** Centring on a location keeps the view within a non-inverted full extent. */
  lemma LocationKeepsViewWithin(m: MapModel, lat: real, lon: real)
    requires m.originalBounds.Width() >= 0.0 && m.originalBounds.Height() >= 0.0
    ensures ViewWithin(SetViewToLocation(m, lat, lon))
  {
  }

  /** Zooming in from a view within the full extent never clamps. */
  lemma ZoomInNeverClamps(m: MapModel)
    requires ViewWithin(m)
    ensures !ZoomClamps(m, 1.0 / ZoomFactor)
  {
    var f := 1.0 / ZoomFactor;
    assert f <= 1.0;
    MulMono(f, 1.0, m.viewBounds.Width());
    MulMono(f, 1.0, m.viewBounds.Height());
    assert m.viewBounds.Width() * f <= m.viewBounds.Width();
    assert m.viewBounds.Height() * f <= m.viewBounds.Height();
  }

  /** Zooming out from a non-inverted full extent stays at the full extent. */
  lemma ZoomOutAtFullExtent(m: MapModel)
    requires m.viewBounds == m.originalBounds && m.originalBounds.WellFormed()
    ensures Update(m, KeyPress("L")).viewBounds == m.originalBounds
  {
    var v := m.viewBounds;
    if v.Width() > 0.0 {
      assert v.Width() * ZoomFactor > v.Width();
    } else if v.Height() > 0.0 {
      assert v.Height() * ZoomFactor > v.Height();
    } else {
      assert v.minX == v.maxX && v.minY == v.maxY;
    }
  }

  /** Two boxes with the same centre and extents are the same box. */
  lemma BoxFromCentre(a: Box, b: Box)
    requires a.CenterX() == b.CenterX() && a.CenterY() == b.CenterY()
    requires a.Width() == b.Width() && a.Height() == b.Height()
    ensures a == b
  {
  }

  /** K then L brings the view back, from any view within the full extent. */
  lemma ZoomInThenOut(m: MapModel)
    requires ViewWithin(m)
    ensures Update(Update(m, KeyPress("K")), KeyPress("L")).viewBounds == m.viewBounds
  {
    ZoomInNeverClamps(m);
    var m1 := Update(m, KeyPress("K"));
    assert m1.viewBounds.Width() * ZoomFactor == m.viewBounds.Width();
    assert m1.viewBounds.Height() * ZoomFactor == m.viewBounds.Height();
    assert !ZoomClamps(m1, ZoomFactor);
    BoxFromCentre(Update(m1, KeyPress("L")).viewBounds, m.viewBounds);
  }

  /** A pan followed by the opposite pan restores the view. */
  lemma PanInverse(m: MapModel, dx: real, dy: real)
    ensures Pan(Pan(m, dx, dy), -dx, -dy).viewBounds == m.viewBounds
  {
    BoxFromCentre(Pan(Pan(m, dx, dy), -dx, -dy).viewBounds, m.viewBounds);
  }

  /** Each pan key is undone by the opposite one. */
  lemma OppositeKeysCancel(m: MapModel)
    ensures Update(Update(m, KeyPress("up")), KeyPress("down")).viewBounds == m.viewBounds
    ensures Update(Update(m, KeyPress("right")), KeyPress("left")).viewBounds == m.viewBounds
  {
    PanInverse(m, 0.0, PanFactor);
    PanInverse(m, PanFactor, 0.0);
  }

  /** After centring on a location the zoom level reads 25.5, given a full extent of some width. */
  lemma ZoomLevelAfterLocation(m: MapModel, lat: real, lon: real)
    requires m.originalBounds.Width() != 0.0
    ensures GetZoomLevel(SetViewToLocation(m, lat, lon)) == LocationZoom
  {
    var r := SetViewToLocation(m, lat, lon);
    assert r.viewBounds.Width() != 0.0;
    var z := GetZoomLevel(r);
    var w := r.viewBounds.Width();
    assert z * w == LocationZoom * w;
    assert (z - LocationZoom) * w == 0.0;
  }

  /** After reset the zoom level reads 1. */
  lemma ZoomLevelAfterReset(m: MapModel)
    ensures GetZoomLevel(Update(m, KeyPress("r"))) == 1.0
  {
    var r := Update(m, KeyPress("r"));
    assert r.viewBounds == r.originalBounds;
    var w := r.viewBounds.Width();
    if w != 0.0 {
      var z := GetZoomLevel(r);
      assert z * w == r.originalBounds.Width();
      assert r.originalBounds.Width() == w;
      assert (z - 1.0) * w == 0.0;
    }
  }
}
