# Wrist-strap dashboard: scale-invariant cell addressing and annotations

A Dafny model of the core of the wrist-strap monitor dashboard: the page
viewer that lays a tile grid over a factory-layout PDF, lets the user click
a tile, attach a text setting to it, and stores that setting under a key
derived from the tile's position in the PDF's own (intrinsic) coordinates,
so that the annotation stays on the same spot of the layout at every zoom.

What is modelled, module by module:

- `JsMath` (`jsmath.dfy`): `Math.floor`, `Math.round` (= floor(x + 1/2)),
  `Math.abs`, `Math.min`, `Math.max` on exact reals.
- `Keys` (`keys.dfy`): JavaScript's decimal form of an integer, the
  intrinsic key `round(ix) + "-" + round(iy)`, and a parser that reads a key
  back, with the round trip and injectivity proved.
- `Addressing` (`addressing.dfy`): the tile edge (`100/scale`, clamped to at
  least 5 by the overlay, unclamped in the intrinsic-coordinate
  computation), the tile under a point (`floor`), a tile's top-left corner,
  its intrinsic coordinates through the viewBox, and the inverse mapping
  used to draw saved markers.
- `Annotations` (`annotations.dfy`): the annotation store `mapData`, an
  insertion-ordered map from key to record (a JavaScript object enumerates
  keys of this shape in insertion order; overwriting keeps the place).
- `Overlay` (`overlay.dfy`): `drawGrid` as the ordered list of shapes it
  paints (grid lines, selection fills, saved-cell markers, hover fill), the
  line loop as a method, and the overlay's own hover/selection state.
- `Dashboard` (`dashboard.dfy`): the controller of `app.js` as a state
  record and one function per handler: the render busy flag and its
  completion, the zoom buttons, wheel and typed percentage, panning, the
  press/click test, the cell editor's open and save, and the blink tick;
  an `Event` type and `Step` tie them together and an invariant is proved
  preserved by every event.

Reals are exact: JavaScript's floating point is idealised. Canvas
dimensions are whole numbers: assigning the viewport's fractional width to
a canvas truncates it, and the intrinsic coordinates divide by the canvas
width, so the model keeps the canvas size beside the viewport.

Where the code differs from what one might naively expect, the model
follows the code:

- The intrinsic coordinates use the unclamped tile edge `100/scale`
  (`source/dashboard/js/app.js:310`) while hit-testing and drawing clamp it
  to 5 (`source/old-dashboard/js/overlay.js:27-28`). The zoom buttons are
  not clamped, so zooms above 20 are reachable (`ButtonsReachClampedZoom`),
  and there a saved marker does not land on the clicked tile
  (`MarkerOnTileIff` states exactly when it does).
- Even at zooms up to 20, the marker of a saved record can sit on the
  neighbouring tile, because the record keeps the rounded coordinates
  (`RoundedMarkerMayMissTile`); only the unrounded point is guaranteed to
  hit-test back to its tile (`MarkerLandsOnTile`).
- Rounding is the only collision, but closeness is not enough: two points
  less than half a unit apart can straddle a rounding boundary and get
  different keys (`NearbyPointsMayDiffer`).
- A render replaces the viewport and both canvases as soon as its page
  arrives (`source/dashboard/js/app.js:146-152`), while the busy flag is
  still up and the zoom is still the old one. Clicks, saves and blink ticks
  do not look at the busy flag, so in that window a cell is keyed with the
  old zoom over the new canvas (`PageWindowMixesZooms`). A failed paint
  leaves the new viewport in place with the old zoom.
- The blink timer is started only by a ticked save; annotations loaded at
  start-up are not shown until the first save of the session.
- A press on the overlay also reaches the document container, so it starts
  a pan as well as a selection (`PressOnOverlayStartsPan`).

## Model

| member | source | states |
|---|---|---|
| `JsMath.Round` | source/dashboard/js/app.js:326 | `Math.round` gives the integer n with n - 1/2 <= x < n + 1/2 |
| `JsMath.RoundUnique` | source/dashboard/js/app.js:326 | that integer is the only one in that half-open window |
| `JsMath.RoundHalfUp` | source/dashboard/js/app.js:326 | halfway points round towards +infinity, also for negatives; integers are fixed |
| `Keys.NatStr` | source/dashboard/js/app.js:326 | an integer is written as a non-empty digit string with no leading zero |
| `Keys.IntStr` | source/dashboard/js/app.js:326 | a negative integer, and only a negative one, is written with a leading minus followed by digits |
| `Keys.KeyOf` | source/dashboard/js/app.js:324-329 | the key `${round(x)}-${round(y)}` decodes back to exactly the two integers it was made from |
| `Keys.ParseIntStr` | source/dashboard/js/app.js:326 | reading back the decimal form of any integer gives that integer |
| `Keys.KeyInjective` | source/dashboard/js/app.js:324-329 | two keys are equal exactly when their integer pairs are equal, for all integers |
| `Keys.OriginKey` | source/dashboard/js/app.js:306-308 | the origin pair has key "0-0" |
| `Addressing.CanvasFor` | source/dashboard/js/app.js:149-152 | the canvas takes the viewport's size truncated to whole pixels; it has no area exactly when the viewport is under one pixel wide or high |
| `Addressing.SubPixelViewportEmptiesCanvas` | source/dashboard/js/app.js:149-152 | a viewport under one pixel each way gives a 0 by 0 canvas, on which every marker is drawn at the origin |
| `Addressing.TileSize` | source/old-dashboard/js/overlay.js:139-140 | the overlay's tile edge is never below 5 pixels |
| `Addressing.TileSizeClamp` | source/old-dashboard/js/overlay.js:27-28 | the overlay's tile edge is max(5, 100/scale), and equals the unclamped edge exactly when the zoom is at most 20 |
| `Addressing.FloorDivBand` | source/old-dashboard/js/overlay.js:141-142 | floor(v / ts) is c exactly on the band [c*ts, (c+1)*ts) |
| `Addressing.TileAtBand` | source/old-dashboard/js/overlay.js:135-144 | a point is reported in tile t exactly when it lies in t's square |
| `Addressing.TileAtPoint` | source/old-dashboard/js/overlay.js:135-144 | the tile reported for a pointer is the one whose clamped square holds the pointer minus the canvas's on-screen corner |
| `Addressing.TopLeftRoundTrip` | source/old-dashboard/js/overlay.js:135-144 | a tile's top-left corner hit-tests back to that tile |
| `Addressing.IntrinsicOf` | source/dashboard/js/app.js:305-321 | without a viewport the intrinsic coordinates are (0, 0); with one, drawing them back through the same viewBox and canvas gives the tile's corner at the unclamped edge 100/scale |
| `Addressing.MarkerPixel` | source/old-dashboard/js/overlay.js:70-76 | whenever the canvas has area, the pixel a marker is drawn at maps back, through the same canvas and viewBox, to exactly the record's intrinsic coordinates: markers track the document, not the screen |
| `Addressing.IntrinsicInvertsMarker` | source/dashboard/js/app.js:313-318 | a pixel taken to intrinsic coordinates and drawn back as a marker is the same pixel |
| `Addressing.MarkerOnTileIff` | source/dashboard/js/app.js:310-318 | the marker of a tile's unrounded intrinsic coordinates lands on the tile's drawn corner exactly when the zoom is at most 20 or the tile is (0, 0) |
| `Addressing.MarkerLandsOnTile` | source/old-dashboard/js/overlay.js:75-79 | at zooms up to 20, the marker of a tile's intrinsic coordinates before rounding hit-tests to that tile |
| `Addressing.RoundedMarkerMayMissTile` | source/dashboard/js/app.js:369-370 | the rounded coordinates a save stores can put the marker in the neighbouring tile, in the settled state of a render at zoom 4: a 612-unit page drawn 2448 pixels wide, tile (0, 1) saved at x 6 instead of 6.25 and drawn in tile (0, 0) |
| `Addressing.RoundedMarkerNear` | source/dashboard/js/app.js:369-370 | rounding the saved coordinates moves the marker by at most half an intrinsic unit, in canvas pixels, per axis |
| `Addressing.PointKeyIff` | source/dashboard/js/app.js:324-329 | two intrinsic points share a key exactly when both coordinates round alike |
| `Addressing.NearbyPointsMayDiffer` | source/dashboard/js/app.js:326 | points under half a unit apart can still get different keys |
| `Addressing.WorkedExample` | source/dashboard/js/app.js:305-329 | zoom 4, pointer (130, 40), box 800x600 on a 1000x750 canvas: tile (1, 5), intrinsic (100, 20), key "100-20" |
| `Annotations.Empty` | source/dashboard/js/app.js:66-69 | the empty store is well-formed and finds nothing |
| `Annotations.Put` | source/dashboard/js/app.js:374 | `mapData[key] = record`: that key holds the record, every other key reads as before, a new key goes last, an existing one keeps its place |
| `Annotations.OrderCoversEntries` | source/old-dashboard/js/overlay.js:72-80 | the enumeration order visits each stored entry once |
| `Annotations.PutKeepsWellKeyed` | source/dashboard/js/app.js:366-374 | writing a record under the key its coordinates spell keeps every record under its own key |
| `Annotations.PutSize` | source/dashboard/js/app.js:374 | a write adds one entry for a new key, none for an existing key, and removes nothing |
| `Overlay.LineCount` | source/old-dashboard/js/overlay.js:34 | the number of lines drawn is the number of k >= 0 with k*ts <= limit |
| `Overlay.GridLinePositions` | source/old-dashboard/js/overlay.js:34-39 | the stepping loop visits exactly 0, ts, 2*ts, ... up to and including the limit |
| `Overlay.Ordered` | source/old-dashboard/js/overlay.js:50-53 | `Math.min` and `Math.max` of two corner indices: the same two values, lower first |
| `Overlay.RowTiles` | source/old-dashboard/js/overlay.js:57-61 | one row's loop visits exactly the columns from c0 to c1, each once |
| `Overlay.SpanTiles` | source/old-dashboard/js/overlay.js:56-62 | the nested loops visit exactly the tiles in the row and column ranges, each once, (rows) x (columns) of them |
| `Overlay.SelectionTiles` | source/old-dashboard/js/overlay.js:49-63 | the selection covers exactly the tiles between min and max of the corners' rows and columns, each once |
| `Overlay.SelectionSymmetric` | source/old-dashboard/js/overlay.js:50-53 | which corner is the start does not change the tiles filled |
| `Overlay.SelectionFillsExact` | source/old-dashboard/js/overlay.js:56-62 | a tile's selection fill is painted exactly when the tile is in the selection, and never twice |
| `Overlay.DrawGrid` | source/old-dashboard/js/overlay.js:18-92 | shapes are painted in the order vertical lines, horizontal lines, selection, saved markers, hover |
| `Overlay.DrawGridLines` | source/old-dashboard/js/overlay.js:33-46 | vertical lines sit at every multiple of the tile edge up to the width and span the height; horizontal lines likewise |
| `Overlay.DrawGridSelection` | source/old-dashboard/js/overlay.js:48-63 | the selection layer fills exactly the selected tiles, each once, and nothing without a selection |
| `Overlay.DrawGridMarkers` | source/old-dashboard/js/overlay.js:65-82 | with a store, a viewport and the blink phase on, one tile-sized marker per entry in key order at its intrinsic position scaled to the canvas; otherwise none |
| `Overlay.DrawGridHover` | source/old-dashboard/js/overlay.js:84-91 | the hover fill is painted exactly when a tile is hovered and no selection is passed |
| `Overlay.HandleMouseHover` | source/old-dashboard/js/overlay.js:97-112 | the tile under the pointer is recorded and returned exactly when there is no selection and it differs from the last hovered tile; otherwise nothing changes |
| `Overlay.ResetHover` | source/old-dashboard/js/overlay.js:115-118 | the hovered tile is forgotten and the selection kept, the setter's whole effect on state; `HoverAfterReset` states what follows from it |
| `Overlay.SetSelectionRect` | source/old-dashboard/js/overlay.js:121-124 | the selection is set and the hovered tile kept, the setter's whole effect on state; `SelectionSuppressesHover` states what follows from it |
| `Overlay.ClearSelectionRect` | source/old-dashboard/js/overlay.js:127-130 | the selection is dropped and the hovered tile kept, the setter's whole effect on state; `ClearSelectionRestoresHover` states what follows from it |
| `Overlay.HoverReportsChangeOnce` | source/old-dashboard/js/overlay.js:106-111 | a second hover over the same tile reports nothing and changes nothing |
| `Overlay.SelectionSuppressesHover` | source/old-dashboard/js/overlay.js:121-124 | once a selection is set, hovering reports nothing and changes nothing |
| `Overlay.ClearSelectionRestoresHover` | source/old-dashboard/js/overlay.js:127-130 | setting then clearing a selection leaves hover behaving as if no selection had been set |
| `Overlay.HoverAfterReset` | source/old-dashboard/js/overlay.js:115-118 | after a reset, with no selection, the next hover always reports its tile |
| `Dashboard.Init` | source/dashboard/js/app.js:40-93 | start-up state: zoom 400%, no document, no viewport, an empty store, idle, no blinking, editor closed |
| `Dashboard.MapDataLoaded` | source/dashboard/js/app.js:55-70 | the loaded store replaces the current one and nothing else changes; a failed load leaves an empty store |
| `Dashboard.LoadThenOpen` | source/dashboard/js/app.js:55-70 | after a load, a cell whose key the loaded store holds with a setting opens showing it, ticked; after a failed load every cell opens blank |
| `Dashboard.DocumentLoaded` | source/dashboard/js/app.js:124-135 | the document is recorded and, unless a render is in flight, a render at the current zoom is requested |
| `Dashboard.RenderPdf` | source/dashboard/js/app.js:140-144 | without a document or while busy the request is dropped; otherwise the busy flag goes up with the requested zoom and nothing else changes, the zoom included |
| `Dashboard.PageFetched` | source/dashboard/js/app.js:146-154 | the page's arrival replaces the viewport and both canvases while the render stays busy and the zoom and zoom field keep their old values |
| `Dashboard.PageFetchFailed` | source/dashboard/js/app.js:163-167 | a page that could not be fetched only lowers the busy flag |
| `Dashboard.PaintSettled` | source/dashboard/js/app.js:155-167 | the end of the paint lowers the busy flag; the zoom and the zoom field take the requested zoom exactly when the paint succeeded |
| `Dashboard.PageWindowMixesZooms` | source/dashboard/js/app.js:146-152 | between page arrival and paint end, hover and selection are blocked, but a click opens the editor at the old zoom's tiles, a cell is keyed with the old zoom over the new viewport and canvas, and a save records the old zoom |
| `Dashboard.WheelTarget` | source/dashboard/js/app.js:186-198 | a wheel notch asks for 1.1x (delta < 0) or 0.9x the zoom, clamped to [0.2, 10] |
| `Dashboard.ZoomIn` | source/dashboard/js/app.js:171-176 | the button's own busy test adds nothing to `renderPDF`'s; a request it makes is for 1.25x the zoom |
| `Dashboard.ZoomOut` | source/dashboard/js/app.js:178-183 | the button's own busy test adds nothing to `renderPDF`'s; a request it makes is for 0.8x the zoom |
| `Dashboard.Wheel` | source/dashboard/js/app.js:186-198 | a wheel notch is a render request for exactly the clamped wheel target, so within [0.2, 10], and changes only the render state |
| `Dashboard.ManualZoom` | source/dashboard/js/app.js:213-224 | a typed value in (0, 1000] is requested as value/100; anything else only puts the current zoom back in the field |
| `Dashboard.StepPreservesInv` | source/dashboard/js/app.js:140-224 | every event keeps the zoom positive, the canvas sized from the viewport, the store well-formed and the open editor's cell known |
| `Dashboard.BusyDropsRequests` | source/dashboard/js/app.js:142 | while a render is in flight every render and zoom request is dropped |
| `Dashboard.NoDocumentNoRender` | source/dashboard/js/app.js:142 | without a document a render request does nothing |
| `Dashboard.RenderCommitsOnlyOnSuccess` | source/dashboard/js/app.js:140-168 | a render clears the busy flag whatever happens; the zoom and zoom field change only on success; the viewport changes unless the page fetch failed |
| `Dashboard.WheelZoomBounded` | source/dashboard/js/app.js:186-198 | a committed wheel zoom is exactly the clamped wheel target of the old zoom, so lies in [0.2, 10] |
| `Dashboard.ButtonZoomUnclamped` | source/dashboard/js/app.js:171-183 | a committed button zoom is exactly 1.25x or 0.8x the old zoom, unclamped |
| `Dashboard.ButtonsReachClampedZoom` | source/dashboard/js/app.js:171-176 | four zoom-ins from 10 pass 20, where the overlay's tile edge is clamped |
| `Dashboard.ManualZoomAcceptedIff` | source/dashboard/js/app.js:213-224 | a typed percentage v is requested as v/100 exactly when 0 < v <= 1000; otherwise only the field resets to the current zoom |
| `Dashboard.PanStart` | source/dashboard/js/app.js:227-233 | a press starts the drag with the anchor chosen so that the pointer maps to the current offset |
| `Dashboard.PanMove` | source/dashboard/js/app.js:235-240 | while dragging, the offset becomes the pointer's displacement from the anchor; otherwise nothing changes |
| `Dashboard.PanEnd` | source/dashboard/js/app.js:242-252 | release or leave ends the drag and keeps the offset |
| `Dashboard.PanFollowsPointer` | source/dashboard/js/app.js:227-240 | after a press at p, a move to q puts the offset at the old offset plus q - p; the last move wins |
| `Dashboard.PanEndFreezesOffset` | source/dashboard/js/app.js:242-252 | mouseup and mouseleave end the drag without moving the offset, and later moves do nothing |
| `Dashboard.OverlayMouseDown` | source/dashboard/js/app.js:278-287 | the press position is always recorded; a selection starts at the tile under it only when neither dragging nor rendering |
| `Dashboard.OverlayMouseUp` | source/dashboard/js/app.js:289-292 | a release on the overlay ends the selection gesture, keeping the start tile, and changes nothing else |
| `Dashboard.PressOnOverlayStartsPan` | source/dashboard/js/app.js:278-287 | a press on the overlay also starts a pan, suppressing hover redraws, and records the start tile when idle |
| `Dashboard.OverlayClick` | source/dashboard/js/app.js:294-301 | a click within 5 pixels of the press on both axes opens the editor that `openCellModal` fills from the store, for the tile under it, busy render or not; otherwise nothing changes |
| `Dashboard.ClickOpensEditorIff` | source/dashboard/js/app.js:294-301 | a click less than 5 pixels from the press on both axes opens the editor for the tile under it; 5 or more on either axis changes nothing |
| `Dashboard.OverlayMouseLeave` | source/dashboard/js/app.js:268-275 | leaving the overlay forgets the hovered tile, keeping the selection, unless dragging or rendering, when nothing changes |
| `Dashboard.HoverRedraw` | source/dashboard/js/app.js:255-266 | a hover redraw happens exactly when neither dragging nor rendering; it highlights exactly the tile under the pointer and paints the saved markers of the whole store in the current blink phase |
| `Dashboard.HoverChangesOnlyHoverLayer` | source/dashboard/js/app.js:264-265 | a hover redraw paints the same grid, selection and saved markers as the plain redraw of the same state, which has no hover fill |
| `Dashboard.NoViewportKey` | source/dashboard/js/app.js:305-309 | before any viewport exists every cell's key is "0-0" |
| `Dashboard.CellKey` | source/dashboard/js/app.js:324-329 | a cell's key decodes to its intrinsic coordinates at the current zoom, viewport and canvas, rounded; without a viewport it is "0-0" |
| `Dashboard.SharedKeyIff` | source/dashboard/js/app.js:344-349 | two cells share an annotation exactly when their intrinsic coordinates round alike, and then open identically |
| `Dashboard.OpenCellModal` | source/dashboard/js/app.js:334-351 | the editor opens for the cell; it shows the stored setting, ticked, when the cell's key has one, and is blank and unticked otherwise |
| `Dashboard.CloseModal` | source/dashboard/js/app.js:353-356 | the editor is hidden; its cell, text and tick are kept, and nothing else changes |
| `Dashboard.SaveModal` | source/dashboard/js/app.js:363-402 | ticked: the cell's key holds the new record, every other key reads as before, the timer runs; unticked: store and timer unchanged; either way the editor closes and nothing else changes |
| `Dashboard.SavedRecord` | source/dashboard/js/app.js:366-373 | the record a save writes has coordinates that spell the cell's key, the current zoom and the typed text |
| `Dashboard.SaveWritesRecord` | source/dashboard/js/app.js:365-377 | a ticked save stores, under the cell's key, a record whose coordinates are the key's two integers, with the current zoom and typed text; other keys unchanged; timer on, phase kept, editor closed |
| `Dashboard.SaveAnswerChangesNothing` | source/dashboard/js/app.js:379-397 | the upload's answer, success or failure, leaves the state as the optimistic save left it |
| `Dashboard.SaveUncheckedOnlyCloses` | source/dashboard/js/app.js:398-401 | an unticked save only closes the editor |
| `Dashboard.SaveKeepsWellKeyed` | source/dashboard/js/app.js:366-374 | saving keeps every record under the key its coordinates spell |
| `Dashboard.SaveThenReopen` | source/dashboard/js/app.js:341-374 | saving a cell and reopening it shows the saved text, ticked |
| `Dashboard.SavedCellIsDrawn` | source/dashboard/js/app.js:374-377 | after a save, a redraw in the on phase paints the saved record's marker |
| `Dashboard.MarkerTracksDocument` | source/old-dashboard/js/overlay.js:67-80 | after a save and a render at another zoom, the saved marker is painted at the pixel the new viewport and canvas map back to the record's intrinsic coordinates |
| `Dashboard.BlinkTick` | source/dashboard/js/app.js:408-411 | a tick flips the blink phase and changes nothing else |
| `Dashboard.BlinkAlternates` | source/dashboard/js/app.js:406-413 | each tick flips between one marker per entry and none; two ticks restore the state |

## Proof helpers

Lemmas and functions that only serve the proofs above and model no source
line of their own: `Keys.FindDash`, `Keys.ParseNat`, `Keys.ParseInt`,
`Keys.ParseKey`, `Keys.ParseNatStr`, `Keys.JoinedRoundTrip`,
`Addressing.DivBound`, `Addressing.MulCancel`, `Addressing.ScaleBack`,
`Addressing.ScaledErrorBound`, `Addressing.CounterexampleIntrinsic`,
`Addressing.CounterexampleMarker`, `Annotations.DistinctCount`,
`Overlay.LineCountExact`, `Overlay.JoinRows`, `Overlay.WidthStep`,
`Overlay.PickConcat`, `Overlay.PickUniform`, `Overlay.PickLayers`,
`Overlay.DrawGridSplit`, `Overlay.TileFillInjective`,
`Dashboard.PressOnOverlay` and `Dashboard.ReleaseOnOverlay` (an overlay
press or release bubbling on to the container), `Dashboard.RenderSettled` (a render's page arrival and paint end as one
step), and the per-group invariant lemmas `ViewStepPreservesInv`,
`PointerStepPreservesInv`, `StoreStepPreservesInv`, `RenderPreservesInv`
and `OpenPreservesInv`.

## Left out

- Addressing.CanvasFor: a typed zoom as small as 0.1% is accepted and
  shows a page under one pixel each way, so the canvas gets a zero side.
  The model sizes that canvas, keeps it in the invariant and draws on it
  (every marker at the canvas origin), but `Dashboard.SaveModal`,
  `Dashboard.CellKey` and the save event require a canvas with area. There
  the source divides by zero and keys the cell as "NaN-NaN", "Infinity-NaN"
  and the like, and stores NaN or Infinity coordinates; JavaScript's NaN
  and Infinity are not modelled. A click needs a canvas with area to land
  on, so `OverlayClick` loses nothing by the same requirement.
- Canvas drawing calls, CSS transforms (`updatePosition`), the tooltip, the
  loading overlay and the editor's HTML: user-interface side effects. The
  overlay is modelled only as the list of shapes it would paint. Typing in
  the editor's text field and ticking its box are browser behaviour with no
  handler in the source; `EditInput` and `EditChecked` stand in for them.
- pdf.js: loading the document and rendering a page are a foreign library.
  A page's arrival carries the viewport pdf.js reported; the end of a
  paint carries whether it succeeded.
- `loadConfig`: the configured default zoom and document path come over
  the network. The model starts at the built-in 400%. The source's test
  `config['default-zoom'] && !isNaN(...)` rejects a numeric 0 but lets a
  negative number or the string "0" through, giving a zoom of zero or
  below; such a zoom is outside the invariant.
- Fetching and saving map data: network I/O. A load arrives as an optional
  store with integer coordinates; a JSON value that is not an object is not
  modelled. The save upload is fire-and-forget: its answer
  (`SaveAnswered`) changes nothing.
- `setInterval`: the 500 ms cadence is a timer; only one tick is modelled,
  and "the timer runs" is a flag, so replacing an existing interval on each
  save is the flag staying set.
- `parseFloat` and stripping the `%` sign: the manual zoom receives the
  parsed number, or None when it is not a number.
- Floating point: reals are exact, so the accumulated error of the grid
  line loop and of repeated zoom factors is not modelled.
- Integers of 10^21 or more, which JavaScript prints in exponent form, are
  written in plain decimal by the model.
- The redraws that `handleMouseHover`, `resetHover`, `setSelectionRect` and
  `clearSelectionRect` trigger are canvas effects; their arguments are a
  `DrawGrid` call with only the hover tile and selection. The redraw at the
  end of a successful paint and at each blink tick is `Dashboard.Redraw`
  applied to the new state.
- The `selecting` flag and the selection start tile are recorded but never
  read by the controller; they are kept as state only.
- Console logging.
