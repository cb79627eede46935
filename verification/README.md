# TermTrack core in Dafny

TermTrack is a terminal aircraft tracker. It reads BaseStation (SBS)
messages from a feed, keeps a table of aircraft keyed by ICAO address, and
draws them over a vector map in a character grid. The map can be panned and
zoomed, and it centres itself once on the first aircraft that reports a
position. This project models the core of that program as pure functions
over immutable data, and proves properties of the model:

- `wrappers.dfy`, module `Wrappers`: `Option`.
- `geo.dfy`, module `Geo`: geographic boxes and the lon/lat → column/row
  projection. This covers Go's truncating `int()` conversion and the
  defensive widening of a degenerate view, which `project` writes back into
  the model.
- `raster.dfy`, module `Raster`: the character grid; the static layer of
  polygon dots and airport marks with bounding-box culling; `copyGrid`; and
  flattening to text.
- `sbs.dfy`, module `Sbs`: the `Aircraft` record and `parseSbsLine`, with
  `strings.Split` and `strings.TrimSpace` modelled exactly, over Unicode text.
- `viewport.dfy`, module `Viewport`: the map component's state (`pan`,
  `zoom`, reset, `SetViewToLocation`, `GetZoomLevel`, `Update`).
- `overlay.dfy`, module `Overlay`: the icon and label passes and
  `renderMapViewport`. The render is a function from a state to a new state
  and the text.
- `app.dfy`, module `App`: `mergeAircraft`, the application's message
  dispatch, the layout split on resize, and the one-shot auto-centring.

Go's `float64` is modelled as `real`. Go's map iteration order is
unspecified, so every pass over the aircraft table takes the order as a
parameter, and the render properties hold for every order. A cell is
modelled by what was drawn into it (`Blank`, `Dot`, `AirportMark`,
`PlaneIcon`, `Label(c)`, or `Unset` for Go's zero-value string); styling is
dropped.

The zero sentinel for "no position" is read differently in four places:
- the parser keeps a position report only if its latitude is non-zero;
- the merge takes a position only when both coordinates are non-zero;
- the renderer skips an aircraft only when both are zero;
- auto-centring needs only a non-zero latitude.

The model follows the code in all four places, and lemmas state the
consequences: `Sbs.EquatorPositionDropped`,
`App.MeridianPositionHandledTwoWays` and `App.AutoZoomIgnoresMergeRule`.

Two more behaviours follow the code:
- Labels: each label is written only into blank cells, so when two
  callsigns reach one cell the first one drawn wins. `Overlay.RenderLabels`
  proves which cells are labelled without depending on the order; the
  character in a shared cell depends on it. A label's space character is
  the one case not followed exactly (see the `Overlay.DrawLabel` line under
  "## Left out").
- Sampling: polygons are dotted at every third vertex (index 0, 3, 6, ...).

The model departs from the code where "## Left out" says, chiefly in
reals for `float64`, Unicode text for Go's byte strings, and the zero-width
case of `SetViewToLocation`. The departure visible in every frame is the
plane icon: the render prints it as one ✈ character, where the source spells
it with three characters. `Overlay.RenderAsWritten` renders with the
source's spelling. See "## Findings" for this and for the map's static-layer
cache, which the running program never keeps.

## Model

| member | source | states |
|---|---|---|
| `Geo.Trunc` | ui/map/map.go:250-251 | `int()` truncates toward zero: a non-negative value goes to the integer at or below it, a negative one to the integer at or above it |
| `Geo.Nudge` | ui/map/map.go:233-238 | a view with equal max and min on an axis gets that max raised by 1e-6. The mins never move, a non-degenerate axis is untouched, and afterwards neither extent is zero |
| `Geo.NudgeIdempotent` | ui/map/map.go:233-238 | widening an already widened view changes nothing |
| `Geo.Project` | ui/map/map.go:232-253 | `project` leaves the widened view behind in the model |
| `Geo.ProjectNudged` | ui/map/map.go:232-253 | projecting through a view that was already widened gives the same cell and view, so repeated projections agree |
| `Geo.ProjectOrigin` | ui/map/map.go:240-251 | longitude MinX lands in column 0 and latitude MaxY (after widening) in row 0 |
| `Geo.ColumnMonotone` | ui/map/map.go:240-250 | over a view of positive width the column never decreases as longitude grows |
| `Geo.RowAntitone` | ui/map/map.go:241-251 | over a view of positive height the row never increases as latitude grows (north is up) |
| `Geo.ProjectMonotone` | ui/map/map.go:232-253 | for every non-inverted view, column is monotone in longitude and row antitone in latitude |
| `Geo.ColumnBand` | ui/map/map.go:240-250 | reference meaning of the column: the projected column is the one whose west and east edges (view width × 1.9 / w apart) bracket the longitude, bracketed from the other side west of the view |
| `Geo.RowBand` | ui/map/map.go:241-251 | reference meaning of the row: the projected row is the one whose north and south edges (view height / h apart) bracket the latitude |
| `Geo.WestStraddlersLandInColumnZero` | ui/map/map.go:250 | because `int()` truncates, every longitude within one column of the west edge, on either side, lands in column 0 |
| `Geo.ProjectScenario` | ui/map/map.go:232-253 | on the 20° square view and a 10×10 grid, the centre is cell (2, 5), the north-west corner (0, 0), and the south-east corner (5, 10), off the grid |
| `Raster.BlankGrid` | ui/map/map.go:297-303 | the fresh grid is h rows of w blank cells |
| `Raster.DrawVertices` | ui/map/map.go:315-322 | the vertex loop keeps the grid's shape and leaves the view as given or widened |
| `Raster.DrawVerticesCells` | ui/map/map.go:315-322 | the vertex loop dots exactly the on-grid cells of vertices 0, 3, 6, … and leaves every other cell alone |
| `Raster.CulledByNudged` | ui/map/map.go:306-313 | widening the view can only let more polygons past the bounding-box test |
| `Raster.DrawPolygons` | ui/map/map.go:306-323 | the polygon loop keeps the grid's shape and leaves the view as given or widened |
| `Raster.DrawPolygonsCells` | ui/map/map.go:306-323 | the polygon loop only turns cells into dots. It does so only where an unculled polygon has a sampled vertex, and does so at every such vertex of a polygon that passes the test against the unwidened view |
| `Raster.DrawAirports` | ui/map/map.go:325-331 | the airport loop keeps the grid's shape and leaves the view as given or widened |
| `Raster.DrawAirportsCells` | ui/map/map.go:325-331 | the airport loop marks exactly the cells some airport projects onto, overwriting what was there, and nothing else |
| `Raster.StaticLayer` | ui/map/map.go:297-331 | the static layer is an h × w grid, built from the view as given or widened |
| `Raster.StaticLayerCells` | ui/map/map.go:297-331 | a static cell is an airport mark exactly where an airport projects (airports win over dots). Otherwise it is a dot only where an unculled polygon's sampled vertex lands. Everything else is blank |
| `Raster.StaticLayerFullyWritten` | ui/map/map.go:297-331 | no static cell is left without text |
| `Raster.CopyGrid` | ui/map/map.go:256-276 | nil copies to nil and empty to empty. Otherwise every row of the copy is as wide as the first source row: longer rows are cut and shorter ones padded with empty strings |
| `Raster.CopyGridOfGrid` | ui/map/map.go:256-276 | copying a rectangular grid gives an equal grid |
| `Raster.RowTextLayout` | ui/map/map.go:399-401 | with the icon as one ✈, a fully written row prints one character per cell, in order |
| `Raster.FlattenLength` | ui/map/map.go:398-403 | with the icon as one ✈, a fully written h × w grid prints as h·(w+1) characters |
| `Raster.FlattenAt` | ui/map/map.go:398-403 | with the icon as one ✈, cell (x, y) of a fully written grid prints at position y·(w+1)+x, and each line's newline at y·(w+1)+w |
| `Raster.FlattenLayout` | ui/map/map.go:398-403 | with the icon as one ✈, a fully written h × w grid prints as h lines of w characters, each followed by a newline, with cell (x, y) at position y·(w+1)+x |
| `Raster.AsWrittenRowWidth` | ui/map/map.go:360 | with the icon spelled as in the source, a line prints two extra characters per icon, so it is wider than the grid |
| `Raster.FlattenAsWrittenWidth` | ui/map/map.go:360-403 | with the icon spelled as in the source, each line of an h × w grid prints w characters plus two per icon in it, and the whole text is h·(w+1) plus two per icon |
| `Sbs.Split` | sbs/sbs.go:81 | `strings.Split` on commas gives at least one field, and no field contains a comma |
| `Sbs.JoinSplit` | sbs/sbs.go:81 | joining the fields of a line with commas gives the line back |
| `Sbs.SplitJoin` | sbs/sbs.go:81 | splitting comma-free fields joined with commas gives those fields back |
| `Sbs.TrimSpace` | sbs/sbs.go:102 | the callsign is a slice of the field with only Unicode white space removed from either end, and does not start or end with white space |
| `Sbs.TrimSpaceIdempotent` | sbs/sbs.go:102 | trimming twice is trimming once |
| `Sbs.ParseFields` | sbs/sbs.go:81-130 | gives nil for fewer than 11 fields, a first field other than "MSG", an empty ICAO or an unknown type. A type 1 update carries only the trimmed callsign; type 3 only lat/lon from fields 14/15 and only with ≥16 fields; type 4 only speed/track from fields 11/12 and only with ≥14 fields. Unparsable numbers read as 0, and a result always has a callsign, a latitude or a speed. Conversely, such a line with a non-empty callsign, latitude or speed is returned |
| `Sbs.ParseSbsLine` | sbs/sbs.go:80-97 | a decoded line had at least 11 fields, began with "MSG", and names the aircraft of field 4 |
| `Sbs.ParseJoinedLine` | sbs/sbs.go:80-81 | decoding a line assembled from comma-free fields is decoding those fields |
| `Sbs.EquatorPositionDropped` | sbs/sbs.go:104-130 | a position report whose latitude reads as 0 is dropped whatever its longitude, since the usefulness test looks only at the latitude |
| `Viewport.SetViewToLocation` | ui/map/map.go:126-148 | centres the view on (lon, lat) with width and height 1/25.5 of the full extent's, and requests a redraw |
| `Viewport.AspectHeight` | ui/map/map.go:128-137 | dividing a width by the aspect ratio width0/height0 scales it by height0/width0 |
| `Viewport.Zoom` | ui/map/map.go:151-171 | if the scaled view would be wider or taller than the full extent, the view becomes exactly the full extent. Otherwise the centre is kept and both extents are multiplied by the factor. Either way a redraw is requested |
| `Viewport.Pan` | ui/map/map.go:174-186 | keeps both extents, moves the centre by width·dx and height·dy, and requests a redraw |
| `Viewport.GetZoomLevel` | ui/map/map.go:189-195 | 1 for a view of zero width; otherwise the number that multiplied by the view width gives the full width |
| `Viewport.Update` | ui/map/map.go:198-226 | resize stores the size. k/up and l/down pan by ±0.1 vertically, j/left and ;/right by ∓0.1 horizontally, K zooms by 1/1.2 and L by 1.2, and r restores the full extent, all requesting a redraw. Any other key or message changes nothing |
| `Viewport.UpdateKeepsViewWithin` | ui/map/map.go:198-226 | every message keeps the view non-inverted and no larger than the full extent |
| `Viewport.LocationKeepsViewWithin` | ui/map/map.go:126-148 | centring on a location keeps the view within a non-inverted full extent |
| `Viewport.ZoomInNeverClamps` | ui/map/map.go:157-164 | zooming in from a view within the full extent never hits the clamp |
| `Viewport.ZoomOutAtFullExtent` | ui/map/map.go:157-164 | zooming out from the full extent leaves the view at the full extent |
| `Viewport.ZoomInThenOut` | ui/map/map.go:151-171 | K then L gives the starting view back, from any view within the full extent |
| `Viewport.PanInverse` | ui/map/map.go:174-186 | a pan followed by the opposite pan gives the starting view back |
| `Viewport.OppositeKeysCancel` | ui/map/map.go:207-214 | up then down, and right then left, give the starting view back |
| `Viewport.ZoomLevelAfterLocation` | ui/map/map.go:126-195 | after centring on a location, the zoom level reads 25.5 |
| `Viewport.ZoomLevelAfterReset` | ui/map/map.go:189-221 | after r, the zoom level reads 1 |
| `Overlay.DrawIcons` | ui/map/map.go:354-363 | the icon pass keeps the grid's shape, leaves the view as given or widened, and records only on-grid positions of known aircraft |
| `Overlay.DrawIconsCells` | ui/map/map.go:354-363 | the icon pass puts an icon exactly where some listed aircraft with a fix projects, and leaves all other cells alone. It records a position exactly for the listed aircraft with a fix that land on the grid, namely their cell |
| `Overlay.DrawIconsNudged` | ui/map/map.go:354-363 | the icon pass through a widened view draws the same icons at the same positions |
| `Overlay.DrawLabel` | ui/map/map.go:381-394 | drawing a callsign keeps the grid's shape |
| `Overlay.DrawLabelCells` | ui/map/map.go:381-394 | a callsign changes exactly the blank cells of its row from its start column to the right edge, each to the matching character |
| `Overlay.LabelPass` | ui/map/map.go:366-395 | the label pass keeps the grid's shape |
| `Overlay.LabelPassCells` | ui/map/map.go:366-395 | the label pass leaves non-blank cells alone. A blank cell stays blank exactly when no listed callsign reaches it. A changed cell holds the matching character of a callsign that reaches it |
| `Overlay.Prepared` | ui/map/map.go:295-336 | the static grid is rebuilt into the cache exactly when a redraw is requested or there is no cache of this size, and the request is cleared. Otherwise the state is kept |
| `Overlay.Compose` | ui/map/map.go:279-395 | a render clears the redraw request. It changes the view only by widening it and the cache only by a rebuild. The overlay works on a copy of the cache and never writes into the cache |
| `Overlay.ComposeFullyWritten` | ui/map/map.go:295-395 | after the static step the cache is a complete h × w grid, and the copy and the finished grid have text in every cell |
| `Overlay.RenderMapViewport` | ui/map/map.go:279-403 | sizes below 1 become 1. The new state has no redraw request, and only the view (by widening) and the cache change. When the cache is rebuilt or was already a complete grid of this size, the new cache is a complete h × w grid and the text is h lines of w characters, each followed by a newline. This is the render with the icon as one ✈ |
| `Overlay.RenderAsWritten` | ui/map/map.go:354-403 | the render with the icon spelled as at line 360 leaves the same state. Its text is two characters longer per icon cell than the one-character render, so once any aircraft is drawn it is longer than h lines of w characters |
| `Overlay.IconsCounted` | ui/map/map.go:354-395 | every recorded icon position still holds an icon after the label pass, so a render that draws an aircraft has at least one icon cell |
| `Overlay.RenderText` | ui/map/map.go:398-403 | with the icon as one ✈, each cell of the finished grid is printed at position y·(w+1)+x of the text |
| `Overlay.RenderIcons` | ui/map/map.go:348-363 | whatever the order: a cell shows an icon exactly when some aircraft not at (0, 0) projects onto it, and otherwise keeps its static content. Positions are recorded exactly for those aircraft that land on the grid, at their cell |
| `Overlay.RenderLabels` | ui/map/map.go:365-395 | whatever the order, no icon, dot or airport mark is overwritten. A blank cell is labelled exactly when a recorded aircraft's callsign reaches it (row below the icon, from its column, within the grid), and then holds that callsign's character |
| `Overlay.RenderTwice` | ui/map/map.go:295-339 | rendering again from the state a render returns, at the same size, reuses the cache that render left and gives the same text |
| `App.MergeInto` | main.go:89-102 | for a known aircraft only a non-empty callsign, a position with both coordinates non-zero, and a non-zero speed or track replace the stored ones. The identity never changes |
| `App.MergeAircraft` | main.go:76-104 | no update changes nothing. An unseen ICAO is inserted as is. A known one gets the field rules. No other entry is touched |
| `App.MergeKeepsKeys` | main.go:82-87 | every entry stays stored under its own ICAO address |
| `App.MergeIdempotent` | main.go:76-104 | merging the same update twice is merging it once |
| `App.MergeNeverErases` | main.go:89-102 | an update never erases a stored callsign, speed, track or two-coordinate position |
| `App.MergeAll` | main.go:76-87 | after a run of updates the table holds the old keys and every updated ICAO |
| `App.CallsignIsLatest` | main.go:82-92 | after any run of updates, an aircraft's callsign is the last non-empty one it was sent, or what it had before |
| `App.SpeedIsLatest` | main.go:82-99 | after any run of updates, an aircraft's speed is the last non-zero one it was sent, or what it had before |
| `App.TrackIsLatest` | main.go:82-102 | after any run of updates, an aircraft's track is the last non-zero one it was sent, or what it had before |
| `App.PositionIsLatest` | main.go:89-96 | after any run of updates, a known aircraft's position is the last one sent with both coordinates non-zero, or the one it had |
| `App.MeridianPositionHandledTwoWays` | main.go:82-96 | a latitude with a zero longitude is stored whole for an unseen aircraft, which the renderer then treats as located, but is dropped for a known one |
| `App.AppUpdate` | main.go:107-208 | after a feed error only a key does anything, and it quits. Resize gives one row each to header and footer and the rest to the map, all at full width. An aircraft update is merged, and the first with a non-zero latitude centres the map on it and refreshes the footer zoom. A tick shares the table with the map. q/ctrl+c/esc quit. Other keys go to the map and refresh the footer zoom |
| `App.ResizeLayout` | main.go:124-143 | header, map and footer heights add up to the terminal height, all widths are the terminal width, and the map redraws |
| `App.FlagStaysSet` | main.go:161-162 | once set, the auto-centring flag stays set |
| `App.AutoZoomAtMostOnce` | main.go:156-167 | in any run of messages the map is centred automatically at most once, and never once the flag is set |
| `App.AutoZoomIgnoresMergeRule` | main.go:156-167 | the centring reads the update's own coordinates, so a latitude with zero longitude for a known aircraft centres the map on longitude 0 while the table keeps the old position |
| `App.SharedTableStaysCurrent` | main.go:174-179 | once a tick has handed the table to the map, the map sees exactly the table after every message |
| `App.UnsharedMapTableFixed` | main.go:174-179 | before the first tick, the map keeps the table it was created with |
| `App.RedrawRequestNeverCleared` | ui/map/map.go:407-429 | View renders on a copy of the map, so no message ever clears the map's redraw request. After any run of messages from the starting state, which requests a redraw, the next frame rebuilds the static layer at every size |

## Left out

- Shapefile loading: `loadMapData`, `New` and ui/map/airports.go are file I/O. Polygons (vertices plus bounding box) and airport points are inputs.
- The network feed: connecting, `WaitForSbsLine` and closing the connection on quit are I/O. `App.AppUpdate` keeps only whether a connection was made, and returns no commands.
- Header, footer and map `View`, lipgloss styles, borders and the error view are library rendering. Only the header and footer widths and the footer zoom level are kept.
- `Overlay.RenderMapViewport`: the text prints the plane icon as the one character ✈, not the three-character string at ui/map/map.go:360. `Overlay.RenderAsWritten` gives the text with the source's spelling and its length.
- `Raster.RowTextLayout`, `Raster.FlattenLength`, `Raster.FlattenAt`, `Raster.FlattenLayout`: one character per cell, h·(w+1) characters and cell (x, y) at y·(w+1)+x hold for the one-character ✈ icon. With the three-character icon of ui/map/map.go:360, each icon makes its line two characters longer; `Raster.FlattenAsWrittenWidth` gives those lengths.
- `Overlay.RenderText`: the position y·(w+1)+x of a cell holds for the one-character icon. With the source's spelling, every icon earlier in a line moves the rest of that line two characters on.
- `Overlay.RenderMapViewport`: the text has styling stripped. Each cell prints its own character without lipgloss colour escapes. The line-layout promise is stated for a state whose cache is about to be rebuilt or is already a complete grid of this size. Either holds after any earlier render at that size.
- `Overlay.RenderTwice`: reuse holds when the state a render returns is kept. The running program drops that state, as the second Findings row says.
- `Overlay.RenderMapViewport`: the failsafe at ui/map/map.go:340-343 is not modelled. The cache is always present when the copy is made, so the failsafe cannot run.
- `Overlay.DrawLabel`: a label character is a `Label` cell, never `Blank`. Without colour support lipgloss renders a space label as a plain space, which a later label could overwrite; that case is not modelled.
- The Bubble Tea runtime, tick timing (tick.go) and command goroutines are replaced by a sequence of messages applied one at a time.
- `LastSeen` and `time.Now()` are wall-clock and not modelled.
- `Sbs.ParseSbsLine`, `Sbs.Split`, `Sbs.TrimSpace`: a feed line is taken to be valid UTF-8 and is modelled as Unicode text, while Go strings are bytes. A line with invalid byte sequences cannot be represented. Go's `TrimSpace` would keep such bytes, and `[]rune` at ui/map/map.go:381 would draw each one as a U+FFFD label cell; none of this is modelled.
- `Sbs.ParseFields`: `strconv.ParseFloat` is an abstract parameter returning an optional number. IEEE-754 rounding is not modelled: coordinates are real numbers.
- `Viewport.SetViewToLocation`: when the full extent has zero width, Go computes the height as 0/0 = NaN. The model uses the full height / 25.5 there, as it does for zero height, where the Go formula gives 0.
- `Overlay.Compose`: Go ranges over maps in an unspecified order. The model takes the icon-pass and label-pass orders as parameters. The label order is over the whole table and skips aircraft without an icon, which covers every order of the positions map.
- `App.AppUpdate`: aircraft are records, not pointers. Go's sharing of the first update's record with the table has no visible effect here. Go's sharing of the table's map with the map component after a tick is modelled by `tableShared`.

## Findings

| source | as written | input that shows it | evidently intended | confidence | as-written member | corrected member |
|---|---|---|---|---|---|---|
| ui/map/map.go:360 | the icon string is the three characters U+00E2 U+0153 U+02C6, the UTF-8 bytes E2 9C 88 of ✈ read as Windows-1252 and encoded again, so each icon cell prints "âœˆ" | any aircraft with a fix that projects onto the grid: its line prints w+2 characters instead of w | the single character ✈ (U+2708), one character per cell, so every line is w characters plus a newline | medium, not executed | `Overlay.RenderAsWritten` | `Overlay.RenderMapViewport` |
| ui/map/map.go:407 | `View` has a value receiver, so the render it calls (line 429) stores the static grid in `cachedStaticGrid` and clears `needsRedraw` (lines 334-335) on a copy that is then dropped. `New` sets `needsRedraw` (line 109), and nothing the program keeps ever clears it | any two frames with no key press between them: the second rebuilds the whole static layer, polygons and airports, instead of copying the cache | the static layer is built once and rebuilt only after a pan, zoom, reset or resize, as the comment at line 294 says. The text is the same either way | high, not executed | `App.RedrawRequestNeverCleared` | `Overlay.RenderTwice` |
