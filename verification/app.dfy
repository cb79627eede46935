/**
 * The application model (main.go): the master aircraft table with its
 * merge rules, the one-shot centring on the first located aircraft, the
 * screen layout split, and the message dispatch.
 */
module App {
  import opened Wrappers
  import opened Sbs
  import opened Viewport
  import opened Overlay

  /** Rows given to the header and to the footer; the map gets the rest. */
  const HeaderHeight: int := 1
  const FooterHeight: int := 1

  /** The merge takes a position only when both coordinates are non-zero. */
  predicate MergeablePosition(u: Aircraft)
  {
    u.lat != 0.0 && u.lon != 0.0
  }

  /**
   * The update rules for a known aircraft: a field is replaced only by a
   * non-empty callsign, a non-zero speed or track, and a position with both
   * coordinates non-zero; the identity never changes.
   */
  function MergeInto(prev: Aircraft, u: Aircraft): (r: Aircraft)
    ensures r.icao == prev.icao
    ensures r.callsign == if u.callsign != "" then u.callsign else prev.callsign
    ensures (r.lat, r.lon) == if MergeablePosition(u) then (u.lat, u.lon) else (prev.lat, prev.lon)
    ensures r.speed == if u.speed != 0.0 then u.speed else prev.speed
    ensures r.track == if u.track != 0.0 then u.track else prev.track
  {
    var a := if u.callsign != "" then prev.(callsign := u.callsign) else prev;
    var b := if u.lat != 0.0 && u.lon != 0.0 then a.(lat := u.lat, lon := u.lon) else a;
    var c := if u.speed != 0.0 then b.(speed := u.speed) else b;
    if u.track != 0.0 then c.(track := u.track) else c
  }

  /**
   * Merge one decoded update into the table keyed by ICAO address: nothing
   * for no update, the update itself for an unseen address, the field rules
   * for a known one; no other entry is touched.
   */
  function MergeAircraft(table: map<string, Aircraft>, update: Option<Aircraft>): (r: map<string, Aircraft>)
    ensures update.None? ==> r == table
    ensures update.Some? ==> r.Keys == table.Keys + {update.value.icao}
    ensures update.Some? ==> forall k :: k in table && k != update.value.icao ==> r[k] == table[k]
    ensures update.Some? && update.value.icao !in table ==> r[update.value.icao] == update.value
    ensures update.Some? && update.value.icao in table ==>
      r[update.value.icao] == MergeInto(table[update.value.icao], update.value)
  {
    match update
    case None => table
    case Some(u) =>
      if u.icao !in table then table[u.icao := u]
      else table[u.icao := MergeInto(table[u.icao], u)]
  }

  /** Every entry is stored under its own ICAO address. */
  predicate KeyedByIcao(table: map<string, Aircraft>)
  {
    forall k :: k in table ==> table[k].icao == k
  }

  /** The merge keeps every entry under its own address. */
  lemma MergeKeepsKeys(table: map<string, Aircraft>, update: Option<Aircraft>)
    requires KeyedByIcao(table)
    ensures KeyedByIcao(MergeAircraft(table, update))
  {
  }

  /** Merging the same update twice is the same as merging it once. */
  lemma MergeIdempotent(table: map<string, Aircraft>, update: Option<Aircraft>)
    ensures MergeAircraft(MergeAircraft(table, update), update) == MergeAircraft(table, update)
  {
    if update.Some? {
      var u := update.value;
      var once := MergeAircraft(table, update);
      var twice := MergeAircraft(once, update);
      assert twice[u.icao] == once[u.icao];
      assert twice == once;
    }
  }

  /** An update never erases a stored callsign, position, speed or track. */
  lemma MergeNeverErases(table: map<string, Aircraft>, update: Option<Aircraft>, k: string)
    requires k in table
    ensures var r := MergeAircraft(table, update);
      && k in r
      && (table[k].callsign != "" ==> r[k].callsign != "")
      && (table[k].speed != 0.0 ==> r[k].speed != 0.0)
      && (table[k].track != 0.0 ==> r[k].track != 0.0)
      && (MergeablePosition(table[k]) ==> MergeablePosition(r[k]))
  {
  }

  /** The updates merged one after another, in order. */
  function MergeAll(table: map<string, Aircraft>, updates: seq<Option<Aircraft>>): (r: map<string, Aircraft>)
    ensures r.Keys == table.Keys + set i | 0 <= i < |updates| && updates[i].Some? :: updates[i].value.icao
    decreases |updates|
  {
    if |updates| == 0 then table
    else
      var r := MergeAll(MergeAircraft(table, updates[0]), updates[1..]);
      assert forall i :: 0 < i < |updates| ==> updates[1..][i - 1] == updates[i];
      r
  }

  /** Update `u` is about aircraft `k`. */
  predicate About(u: Option<Aircraft>, k: string)
  {
    u.Some? && u.value.icao == k
  }

  /** Reference: `start`, replaced in turn by each non-empty callsign the updates for `k` carry. */
  function LatestCallsign(start: string, updates: seq<Option<Aircraft>>, k: string): string
    decreases |updates|
  {
    if |updates| == 0 then start
    else
      var next := if About(updates[0], k) && updates[0].value.callsign != "" then updates[0].value.callsign else start;
      LatestCallsign(next, updates[1..], k)
  }

  /** Reference: `start`, replaced in turn by each non-zero speed the updates for `k` carry. */
  function LatestSpeed(start: real, updates: seq<Option<Aircraft>>, k: string): real
    decreases |updates|
  {
    if |updates| == 0 then start
    else
      var next := if About(updates[0], k) && updates[0].value.speed != 0.0 then updates[0].value.speed else start;
      LatestSpeed(next, updates[1..], k)
  }

  /** Reference: `start`, replaced in turn by each non-zero track the updates for `k` carry. */
  function LatestTrack(start: real, updates: seq<Option<Aircraft>>, k: string): real
    decreases |updates|
  {
    if |updates| == 0 then start
    else
      var next := if About(updates[0], k) && updates[0].value.track != 0.0 then updates[0].value.track else start;
      LatestTrack(next, updates[1..], k)
  }

  /** Reference: `start`, replaced in turn by each position with both coordinates non-zero the updates for `k` carry. */
  function LatestPosition(start: (real, real), updates: seq<Option<Aircraft>>, k: string): (real, real)
    decreases |updates|
  {
    if |updates| == 0 then start
    else
      var u := updates[0];
      var next := if About(u, k) && MergeablePosition(u.value) then (u.value.lat, u.value.lon) else start;
      LatestPosition(next, updates[1..], k)
  }

  /**
   * After any run of updates, an aircraft's callsign is the last non-empty
   * callsign it was sent, or what it had before (nothing, for an aircraft
   * not yet in the table).
   */
  lemma {:induction false} CallsignIsLatest(table: map<string, Aircraft>, updates: seq<Option<Aircraft>>, k: string)
    requires k in MergeAll(table, updates)
    ensures MergeAll(table, updates)[k].callsign ==
      LatestCallsign(if k in table then table[k].callsign else "", updates, k)
    decreases |updates|
  {
    if |updates| > 0 {
      var t1 := MergeAircraft(table, updates[0]);
      CallsignIsLatest(t1, updates[1..], k);
    }
  }

  /**
   * After any run of updates, an aircraft's speed is the last non-zero
   * speed it was sent, or what it had before (0, for an aircraft not yet in
   * the table).
   */
  lemma {:induction false} SpeedIsLatest(table: map<string, Aircraft>, updates: seq<Option<Aircraft>>, k: string)
    requires k in MergeAll(table, updates)
    ensures MergeAll(table, updates)[k].speed ==
      LatestSpeed(if k in table then table[k].speed else 0.0, updates, k)
    decreases |updates|
  {
    if |updates| > 0 {
      var t1 := MergeAircraft(table, updates[0]);
      SpeedIsLatest(t1, updates[1..], k);
    }
  }

  /**
   * After any run of updates, an aircraft's track is the last non-zero
   * track it was sent, or what it had before (0, for an aircraft not yet in
   * the table).
   */
  lemma {:induction false} TrackIsLatest(table: map<string, Aircraft>, updates: seq<Option<Aircraft>>, k: string)
    requires k in MergeAll(table, updates)
    ensures MergeAll(table, updates)[k].track ==
      LatestTrack(if k in table then table[k].track else 0.0, updates, k)
    decreases |updates|
  {
    if |updates| > 0 {
      var t1 := MergeAircraft(table, updates[0]);
      TrackIsLatest(t1, updates[1..], k);
    }
  }

  /**
   * For an aircraft already in the table, its position after any run of
   * updates is the last one sent with both coordinates non-zero, or the
   * one it had.
   */
  lemma {:induction false} PositionIsLatest(table: map<string, Aircraft>, updates: seq<Option<Aircraft>>, k: string)
    requires k in table
    ensures k in MergeAll(table, updates)
    ensures (MergeAll(table, updates)[k].lat, MergeAll(table, updates)[k].lon) ==
      LatestPosition((table[k].lat, table[k].lon), updates, k)
    decreases |updates|
  {
    if |updates| > 0 {
      var t1 := MergeAircraft(table, updates[0]);
      PositionIsLatest(t1, updates[1..], k);
    }
  }

  /**
   * The zero sentinel is read three ways. An update with a latitude but a
   * zero longitude is stored whole for an unseen aircraft, which the
   * renderer then treats as located, but is dropped for a known one.
   */
  lemma MeridianPositionHandledTwoWays(table: map<string, Aircraft>, u: Aircraft)
    requires u.lat != 0.0 && u.lon == 0.0
    ensures var r := MergeAircraft(table, Some(u));
      && (u.icao !in table ==> (r[u.icao].lat, r[u.icao].lon) == (u.lat, 0.0) && HasFix(r[u.icao]))
      && (u.icao in table ==> (r[u.icao].lat, r[u.icao].lon) == (table[u.icao].lat, table[u.icao].lon))
  {
  }

  /**
   * The application state; the connection itself is I/O and only its
   * presence is kept. A tick hands the map the table itself, not a copy:
   * from then on `tableShared` holds and every merge is seen by the map.
   */
  datatype AppModel = AppModel(
    width: int,
    height: int,
    headerWidth: int,
    footerWidth: int,
    footerZoom: real,
    mapView: MapModel,
    aircraft: map<string, Aircraft>,
    initialPositionFound: bool,
    tableShared: bool,
    connected: bool,
    err: Option<string>)

  /** The messages the application reacts to. */
  datatype AppMsg =
    | Resize(width: int, height: int)
    | Connected
    | FeedError(message: string)
    | AircraftUpdate(update: Option<Aircraft>)
    | Tick
    | Key(key: string)
    | Other

  /** The result of one update: the new state and whether the program quits. */
  datatype Step = Step(model: AppModel, quit: bool)

  /** The keys that end the program. */
  predicate IsQuitKey(key: string)
  {
    key == "q" || key == "ctrl+c" || key == "esc"
  }

  /** The update that centres the map: the first update with a non-zero latitude. */
  predicate AutoZooms(m: AppModel, update: Option<Aircraft>)
  {
    !m.initialPositionFound && update.Some? && update.value.lat != 0.0
  }

  /**
   * One message. After a feed error only a key does anything, and it quits.
   * A resize gives the header and footer one row each and the map the rest,
   * all at full width. An aircraft update is merged, and the first one with
   * a latitude centres the map on it and refreshes the footer's zoom; the
   * map sees the merge once a tick has shared the table with it. A tick
   * shares the table. A quit key quits; any other key goes to the map and
   * refreshes the footer's zoom.
   */
  function AppUpdate(m: AppModel, msg: AppMsg): (r: Step)
    ensures m.err.Some? ==> r == Step(m, msg.Key?)
    ensures m.err.None? && msg.Resize? ==>
      && r.model == m.(width := msg.width, height := msg.height, headerWidth := msg.width,
                       footerWidth := msg.width, mapView := r.model.mapView)
      && r.model.mapView == Viewport.Update(m.mapView, WindowSize(msg.width, msg.height - HeaderHeight - FooterHeight))
      && !r.quit
    ensures m.err.None? && msg.AircraftUpdate? ==>
      && r.model.aircraft == MergeAircraft(m.aircraft, msg.update)
      && r.model.mapView.aircraft == (if m.tableShared then r.model.aircraft else m.mapView.aircraft)
      && (AutoZooms(m, msg.update) ==>
            && r.model == m.(aircraft := r.model.aircraft, mapView := r.model.mapView,
                             initialPositionFound := true, footerZoom := r.model.footerZoom)
            && r.model.mapView == SetViewToLocation(m.mapView, msg.update.value.lat, msg.update.value.lon)
                                    .(aircraft := r.model.mapView.aircraft)
            && r.model.footerZoom == GetZoomLevel(r.model.mapView))
      && (!AutoZooms(m, msg.update) ==>
            r.model == m.(aircraft := r.model.aircraft, mapView := m.mapView.(aircraft := r.model.mapView.aircraft)))
      && !r.quit
    ensures m.err.None? && msg.Tick? ==>
      r == Step(m.(mapView := m.mapView.(aircraft := m.aircraft), tableShared := true), false)
    ensures m.err.None? && msg.Key? && IsQuitKey(msg.key) ==> r == Step(m, true)
    ensures m.err.None? && msg.Key? && !IsQuitKey(msg.key) ==>
      && r.model == m.(mapView := r.model.mapView, footerZoom := r.model.footerZoom)
      && r.model.mapView == Viewport.Update(m.mapView, KeyPress(msg.key))
      && r.model.footerZoom == GetZoomLevel(r.model.mapView)
      && !r.quit
    ensures m.err.None? && msg.FeedError? ==> r == Step(m.(err := Some(msg.message)), false)
    ensures m.err.None? && msg.Connected? ==> r == Step(m.(connected := true), false)
    ensures m.err.None? && msg.Other? ==> r == Step(m, false)
  {
    if m.err.Some? then Step(m, msg.Key?)
    else
      match msg
      case Resize(w, h) =>
        var mapHeight := h - HeaderHeight - FooterHeight;
        Step(m.(width := w, height := h, headerWidth := w, footerWidth := w,
                mapView := Viewport.Update(m.mapView, WindowSize(w, mapHeight))), false)
      case Connected => Step(m.(connected := true), false)
      case FeedError(message) => Step(m.(err := Some(message)), false)
      case AircraftUpdate(update) =>
        var table := MergeAircraft(m.aircraft, update);
        var m1 := m.(aircraft := table,
                     mapView := if m.tableShared then m.mapView.(aircraft := table) else m.mapView);
        if AutoZooms(m, update) then
          var view1 := SetViewToLocation(m1.mapView, update.value.lat, update.value.lon);
          Step(m1.(initialPositionFound := true, mapView := view1, footerZoom := GetZoomLevel(view1)), false)
        else Step(m1, false)
      case Tick => Step(m.(mapView := m.mapView.(aircraft := m.aircraft), tableShared := true), false)
      case Key(key) =>
        if IsQuitKey(key) then Step(m, true)
        else
          var view1 := Viewport.Update(m.mapView, KeyPress(key));
          Step(m.(mapView := view1, footerZoom := GetZoomLevel(view1)), false)
      case Other => Step(m, false)
  }

  /** A resize splits the height among header, map and footer, all at the full width. */
  lemma ResizeLayout(m: AppModel, width: int, height: int)
    requires m.err.None?
    ensures var r := AppUpdate(m, Resize(width, height)).model;
      && HeaderHeight + r.mapView.height + FooterHeight == height
      && r.headerWidth == width && r.mapView.width == width && r.footerWidth == width
      && r.mapView.needsRedraw
  {
  }

  /** How often the map is centred automatically over a run of messages, up to a quit. */
  function AutoZoomCount(m: AppModel, msgs: seq<AppMsg>): nat
    decreases |msgs|
  {
    if |msgs| == 0 then 0
    else
      var fires := m.err.None? && msgs[0].AircraftUpdate? && AutoZooms(m, msgs[0].update);
      var step := AppUpdate(m, msgs[0]);
      (if fires then 1 else 0) + (if step.quit then 0 else AutoZoomCount(step.model, msgs[1..]))
  }

  /** Once set, the flag stays set. */
  lemma FlagStaysSet(m: AppModel, msg: AppMsg)
    requires m.initialPositionFound
    ensures AppUpdate(m, msg).model.initialPositionFound
  {
  }

  /**
   * The map is centred automatically at most once in any run of messages,
   * and never once the flag is set.
   */
  lemma {:induction false} AutoZoomAtMostOnce(m: AppModel, msgs: seq<AppMsg>)
    ensures AutoZoomCount(m, msgs) <= 1
    ensures m.initialPositionFound ==> AutoZoomCount(m, msgs) == 0
    decreases |msgs|
  {
    if |msgs| > 0 {
      var step := AppUpdate(m, msgs[0]);
      AutoZoomAtMostOnce(step.model, msgs[1..]);
      var fires := m.err.None? && msgs[0].AircraftUpdate? && AutoZooms(m, msgs[0].update);
      if fires {
        assert step.model.initialPositionFound;
      } else if m.initialPositionFound {
        FlagStaysSet(m, msgs[0]);
      }
    }
  }

  /**
   * The centring reads the update's own coordinates, not the merged ones:
   * for a known aircraft an update with a latitude and a zero longitude
   * centres the map on longitude 0 while the table keeps the old position.
   */
  lemma AutoZoomIgnoresMergeRule(m: AppModel, u: Aircraft)
    requires m.err.None? && !m.initialPositionFound
    requires u.lat != 0.0 && u.lon == 0.0 && u.icao in m.aircraft
    ensures var r := AppUpdate(m, AircraftUpdate(Some(u))).model;
      && r.mapView.viewBounds.CenterX() == 0.0 && r.mapView.viewBounds.CenterY() == u.lat
      && (r.aircraft[u.icao].lat, r.aircraft[u.icao].lon) == (m.aircraft[u.icao].lat, m.aircraft[u.icao].lon)
  {
  }

  /** Once a tick has shared the table, the map sees exactly the table after every message. */
  lemma SharedTableStaysCurrent(m: AppModel, msg: AppMsg)
    requires m.tableShared && m.mapView.aircraft == m.aircraft
    ensures var r := AppUpdate(m, msg).model;
      r.tableShared && r.mapView.aircraft == r.aircraft
  {
  }

  /** Before the first tick the map keeps the table it was given, whatever is merged. */
  lemma UnsharedMapTableFixed(m: AppModel, msg: AppMsg)
    requires !m.tableShared && !msg.Tick?
    ensures var r := AppUpdate(m, msg).model;
      !r.tableShared && r.mapView.aircraft == m.mapView.aircraft
  {
  }

  /** The state after a run of messages, up to the first that quits. */
  function Run(m: AppModel, msgs: seq<AppMsg>): AppModel
    decreases |msgs|
  {
    if |msgs| == 0 then m
    else
      var step := AppUpdate(m, msgs[0]);
      if step.quit then step.model else Run(step.model, msgs[1..])
  }

  /**
   * The map component's View has a value receiver, so the render's new
   * state (its cache, its cleared redraw request) is dropped and only the
   * text comes back. Nothing the program keeps ever clears the request, so
   * from the state the map starts in, with a redraw requested, every frame
   * of any run rebuilds the static layer.
   */
  lemma {:induction false} RedrawRequestNeverCleared(m: AppModel, msgs: seq<AppMsg>)
    requires m.mapView.needsRedraw
    ensures Run(m, msgs).mapView.needsRedraw
    ensures forall w, h :: h > 0 ==> NeedsRebuild(Run(m, msgs).mapView, w, h)
    decreases |msgs|
  {
    if |msgs| > 0 {
      var step := AppUpdate(m, msgs[0]);
      assert step.model.mapView.needsRedraw;
      if !step.quit {
        RedrawRequestNeverCleared(step.model, msgs[1..]);
      }
    }
  }
}
