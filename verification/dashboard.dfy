/** The dashboard controller: render and zoom state machine, pan and click
    gestures, the cell editor's open/save protocol over the annotation
    store, and the blink tick. Every handler is a function from the current
    state to the next; DOM effects, pdf.js and the network are left out, and
    a render's outcome arrives as a parameter. */
module Dashboard {
  import opened Wrappers
  import opened JsMath
  import opened Keys
  import opened Addressing
  import opened Annotations
  import Overlay

  const DefaultScale: real := 4.0
  const ZoomInFactor: real := 1.25
  const ZoomOutFactor: real := 0.8
  const WheelInFactor: real := 1.1
  const WheelOutFactor: real := 0.9
  const WheelMinScale: real := 0.2
  const WheelMaxScale: real := 10.0
  const ManualMaxPercent: real := 1000.0
  const ClickThreshold: real := 5.0

  /** The busy flag, with the zoom the in-flight render will commit and
      whether its page has already arrived (viewport and canvases replaced,
      paint in progress). */
  datatype Render = Idle | Busy(target: real, painting: bool)

  /** How an in-flight render ends, as one step: the page could not be
      fetched (nothing was touched yet), the page failed to paint after the
      canvases were resized to its viewport, or it painted. */
  datatype RenderOutcome = PageFailed | RenderFailed(viewport: Viewport) | Rendered(viewport: Viewport)

  /** Panning: whether a drag is on, the pointer-minus-offset anchor taken at
      mousedown, and the offset applied to both canvases. */
  datatype Pan = Pan(dragging: bool, anchor: Point, offset: Point)

  /** The cell editor: visible or not, the cell it was last opened for, the
      text field and the "save" checkbox. */
  datatype Modal = Modal(open: bool, cell: Option<Tile>, input: string, checked: bool)

  datatype App = App(
    hasDocument: bool,
    scale: real,
    render: Render,
    viewport: Option<Viewport>,
    canvas: Canvas,
    zoomField: Option<int>,
    store: Store,
    blinkFlag: bool,
    blinkTimer: bool,
    overlay: Overlay.OverlayState,
    pan: Pan,
    clickStart: Point,
    selecting: bool,
    selectionStart: Option<Tile>,
    modal: Modal)

  /** What holds in every reachable state: a positive zoom (also for the one
      in flight), canvases sized from the current viewport, a well-formed
      store, and an open editor always knows its cell. */
  ghost predicate Inv(a: App) {
    && a.scale > 0.0
    && (a.render.Busy? ==> a.render.target > 0.0)
    && (a.viewport.Some? ==> ValidViewport(a.viewport.value) && a.canvas == CanvasFor(a.viewport.value))
    && Valid(a.store)
    && (a.modal.open ==> a.modal.cell.Some?)
  }

  /** Cells can be addressed: there is no viewport yet, or the canvas has
      at least one pixel each way. */
  predicate Addressable(a: App) {
    a.viewport.Some? ==> HasArea(a.canvas)
  }

  /** The state when the page script starts: 400%, nothing loaded, an empty
      store, no blinking and the editor closed. */
  function Init(canvas: Canvas): (a: App)
    ensures Inv(a) && Addressable(a)
    ensures a.scale == DefaultScale && a.render.Idle? && !a.hasDocument && a.viewport.None?
    ensures a.store == Empty() && forall k :: Lookup(a.store, k).None?
    ensures !a.blinkFlag && !a.blinkTimer && !a.modal.open && !a.pan.dragging
  {
    App(false, DefaultScale, Idle, None, canvas, None, Empty(), false, false, Overlay.NoHover,
        Pan(false, Point(0.0, 0.0), Point(0.0, 0.0)), Point(0.0, 0.0), false, None,
        Modal(false, None, "", false))
  }

  // ---------------------------------------------------------------------
  // Loading

  /** The stored annotations arrive (None: the fetch or parse failed). A
      loaded store replaces the current one; a failed load leaves an empty
      one; nothing else changes. */
  function MapDataLoaded(a: App, loaded: Option<Store>): (r: App)
    requires loaded.Some? ==> Valid(loaded.value)
    ensures Valid(r.store)
    ensures r == a.(store := r.store)
    ensures loaded.Some? ==> r.store == loaded.value
    ensures loaded.None? ==> r.store == Empty() && forall k :: Lookup(r.store, k).None?
  {
    a.(store := loaded.GetOr(Empty()))
  }

  /** The document arrives and a render at the current zoom is requested. */
  function DocumentLoaded(a: App): (r: App)
    ensures r.hasDocument
    ensures a.render.Idle? ==> r.render == Busy(a.scale, false)
    ensures a.render.Busy? ==> r == a.(hasDocument := true)
    ensures r == a.(hasDocument := true, render := r.render)
  {
    RenderPdf(a.(hasDocument := true), a.scale)
  }

  // ---------------------------------------------------------------------
  // Render and zoom

  /** `renderPDF(newScale)`: dropped without a document or while busy,
      otherwise the busy flag goes up with the requested zoom; the zoom
      itself is not touched until the render completes. */
  function RenderPdf(a: App, newScale: real): (r: App)
    ensures !a.hasDocument || a.render.Busy? ==> r == a
    ensures a.hasDocument && a.render.Idle? ==> r.render == Busy(newScale, false)
    ensures r == a.(render := r.render)
  {
    if !a.hasDocument || a.render.Busy? then a else a.(render := Busy(newScale, false))
  }

  /** The page of the in-flight render arrives: the viewport and both
      canvases are replaced at once, while the render is still busy and the
      zoom still the old one. */
  function PageFetched(a: App, vp: Viewport): (r: App)
    requires a.render.Busy? && !a.render.painting
    requires ValidViewport(vp)
    ensures r.render == Busy(a.render.target, true)
    ensures r.viewport == Some(vp) && r.canvas == CanvasFor(vp)
    ensures r.scale == a.scale && r.zoomField == a.zoomField
    ensures r == a.(render := r.render, viewport := r.viewport, canvas := r.canvas)
  {
    a.(render := a.render.(painting := true), viewport := Some(vp), canvas := CanvasFor(vp))
  }

  /** The page could not be fetched: the busy flag comes down, nothing else
      changes. */
  function PageFetchFailed(a: App): (r: App)
    requires a.render.Busy? && !a.render.painting
    ensures r.render.Idle? && r == a.(render := Idle)
  {
    a.(render := Idle)
  }

  /** The paint finished (`ok`) or failed: either way the busy flag comes
      down; only success commits the zoom and rewrites the zoom field. */
  function PaintSettled(a: App, ok: bool): (r: App)
    requires a.render.Busy? && a.render.painting
    ensures r.render.Idle?
    ensures r.scale == (if ok then a.render.target else a.scale)
    ensures r.zoomField == (if ok then Some(Round(a.render.target * 100.0)) else a.zoomField)
    ensures r == a.(render := Idle, scale := r.scale, zoomField := r.zoomField)
  {
    if ok then a.(render := Idle, scale := a.render.target, zoomField := Some(Round(a.render.target * 100.0)))
    else a.(render := Idle)
  }

  /** A render's completion seen as one step: page fetch, then paint. */
  function RenderSettled(a: App, outcome: RenderOutcome): App
    requires a.render.Busy? && !a.render.painting
    requires !outcome.PageFailed? ==> ValidViewport(outcome.viewport)
  {
    match outcome
    case PageFailed => PageFetchFailed(a)
    case RenderFailed(vp) => PaintSettled(PageFetched(a, vp), false)
    case Rendered(vp) => PaintSettled(PageFetched(a, vp), true)
  }

  /** Zoom-in button: unless busy, a render at 1.25 times the zoom. */
  function ZoomIn(a: App): (r: App)
    ensures r == RenderPdf(a, a.scale * ZoomInFactor)
    ensures r.render.Busy? && !a.render.Busy? ==> r.render.target == a.scale * 1.25
  {
    if a.render.Busy? then a else RenderPdf(a, a.scale * ZoomInFactor)
  }

  /** Zoom-out button: unless busy, a render at 0.8 times the zoom. */
  function ZoomOut(a: App): (r: App)
    ensures r == RenderPdf(a, a.scale * ZoomOutFactor)
    ensures r.render.Busy? && !a.render.Busy? ==> r.render.target == a.scale * 0.8
  {
    if a.render.Busy? then a else RenderPdf(a, a.scale * ZoomOutFactor)
  }

  /** The zoom a wheel notch asks for: up for a negative delta, down
      otherwise, clamped to [0.2, 10]. */
  function WheelTarget(scale: real, deltaY: real): (s: real)
    ensures WheelMinScale <= s <= WheelMaxScale
    ensures var want := scale * (if deltaY < 0.0 then WheelInFactor else WheelOutFactor);
            && (WheelMinScale <= want <= WheelMaxScale ==> s == want)
            && (want < WheelMinScale ==> s == WheelMinScale)
            && (want > WheelMaxScale ==> s == WheelMaxScale)
  {
    var f := if deltaY < 0.0 then WheelInFactor else WheelOutFactor;
    Max(WheelMinScale, Min(scale * f, WheelMaxScale))
  }

  /** A wheel notch: unless busy, a render at the clamped wheel zoom. */
  function Wheel(a: App, deltaY: real): (r: App)
    ensures r == RenderPdf(a, WheelTarget(a.scale, deltaY))
    ensures r == a.(render := r.render)
    ensures r.render.Busy? && !a.render.Busy? ==> WheelMinScale <= r.render.target <= WheelMaxScale
  {
    if a.render.Busy? then a else RenderPdf(a, WheelTarget(a.scale, deltaY))
  }

  predicate ManualZoomValid(v: real) {
    0.0 < v <= ManualMaxPercent
  }

  /** `applyManualZoom` on the parsed number (None: not a number). A valid
      percentage is requested as a zoom factor; anything else puts the
      current zoom back into the field. */
  function ManualZoom(a: App, entered: Option<real>): (r: App)
    ensures entered.Some? && ManualZoomValid(entered.value) ==> r == RenderPdf(a, entered.value / 100.0)
    ensures !(entered.Some? && ManualZoomValid(entered.value)) ==>
              r == a.(zoomField := Some(Round(a.scale * 100.0)))
    ensures r.scale == a.scale && r.viewport == a.viewport && r.store == a.store
  {
    if entered.Some? && ManualZoomValid(entered.value) then RenderPdf(a, entered.value / 100.0)
    else a.(zoomField := Some(Round(a.scale * 100.0)))
  }

  // ---------------------------------------------------------------------
  // Panning and clicks

  /** mousedown on the document container: the drag starts, with the anchor
      chosen so that the pointer where it is now maps to the current offset. */
  function PanStart(a: App, p: Point): (r: App)
    ensures r.pan.dragging && r.pan.offset == a.pan.offset
    ensures r.pan.anchor.x + r.pan.offset.x == p.x && r.pan.anchor.y + r.pan.offset.y == p.y
    ensures r == a.(pan := r.pan)
  {
    a.(pan := Pan(true, Point(p.x - a.pan.offset.x, p.y - a.pan.offset.y), a.pan.offset))
  }

  /** mousemove on the document container: while dragging, the offset is
      the pointer's displacement from the anchor; otherwise nothing. */
  function PanMove(a: App, p: Point): (r: App)
    ensures !a.pan.dragging ==> r == a
    ensures a.pan.dragging ==> r.pan.anchor.x + r.pan.offset.x == p.x && r.pan.anchor.y + r.pan.offset.y == p.y
    ensures r == a.(pan := r.pan) && r.pan.anchor == a.pan.anchor && r.pan.dragging == a.pan.dragging
  {
    if !a.pan.dragging then a
    else a.(pan := a.pan.(offset := Point(p.x - a.pan.anchor.x, p.y - a.pan.anchor.y)))
  }

  /** mouseup or mouseleave on the document container: the drag ends where
      it is. */
  function PanEnd(a: App): (r: App)
    ensures !r.pan.dragging && r.pan.offset == a.pan.offset
    ensures r == a.(pan := r.pan)
  {
    a.(pan := a.pan.(dragging := false))
  }

  /** mousedown on the overlay: remembers where the press happened and,
      unless dragging or rendering, starts a selection at the tile there. */
  function OverlayMouseDown(a: App, p: Point, origin: Point): (r: App)
    requires a.scale > 0.0
    ensures r.clickStart == p
    ensures !a.pan.dragging && a.render.Idle? ==>
              r.selecting && r.selectionStart == Some(TileAtPoint(a.scale, p, origin))
    ensures a.pan.dragging || a.render.Busy? ==> r == a.(clickStart := p)
    ensures r == a.(clickStart := p, selecting := r.selecting, selectionStart := r.selectionStart)
  {
    var a1 := a.(clickStart := p);
    if !a.pan.dragging && a.render.Idle? then
      a1.(selecting := true, selectionStart := Some(TileAtPoint(a.scale, p, origin)))
    else a1
  }

  /** mouseup on the overlay: the selection gesture ends. */
  function OverlayMouseUp(a: App): (r: App)
    ensures !r.selecting && r.selectionStart == a.selectionStart
    ensures r == a.(selecting := r.selecting)
  {
    a.(selecting := false)
  }

  /** A press on the overlay reaches the overlay first and then bubbles to
      the container, which starts a pan. */
  function PressOnOverlay(a: App, p: Point, origin: Point): App
    requires a.scale > 0.0
  {
    PanStart(OverlayMouseDown(a, p, origin), p)
  }

  /** A release over the overlay bubbles the same way. */
  function ReleaseOnOverlay(a: App): App {
    PanEnd(OverlayMouseUp(a))
  }

  /** The pointer moved less than the threshold on both axes. */
  predicate IsClick(start: Point, p: Point) {
    Abs(p.x - start.x) < ClickThreshold && Abs(p.y - start.y) < ClickThreshold
  }

  /** click on the overlay: opens the editor for the tile under the pointer
      when the pointer barely moved since the press, busy render or not. */
  function OverlayClick(a: App, p: Point, origin: Point): (r: App)
    requires Inv(a) && Addressable(a)
    ensures IsClick(a.clickStart, p) ==> r == OpenCellModal(a, TileAtPoint(a.scale, p, origin))
    ensures IsClick(a.clickStart, p) ==> r.modal.open && r.modal.cell == Some(TileAtPoint(a.scale, p, origin))
    ensures !IsClick(a.clickStart, p) ==> r == a
    ensures r == a.(modal := r.modal)
  {
    if IsClick(a.clickStart, p) then OpenCellModal(a, TileAtPoint(a.scale, p, origin)) else a
  }

  /** mouseleave on the overlay: the overlay forgets its hovered tile
      unless a drag or render is in progress. */
  function OverlayMouseLeave(a: App): (r: App)
    ensures !a.pan.dragging && a.render.Idle? ==>
              r.overlay.lastHovered.None? && r.overlay.selection == a.overlay.selection
    ensures a.pan.dragging || a.render.Busy? ==> r == a
    ensures r == a.(overlay := r.overlay)
  {
    if !a.pan.dragging && a.render.Idle? then a.(overlay := Overlay.ResetHover(a.overlay)) else a
  }

  // ---------------------------------------------------------------------
  // The cell editor and the annotation store

  /** The key of a cell at the current zoom, viewport and canvas. */
  function CellKey(a: App, cell: Tile): (k: string)
    requires Inv(a) && Addressable(a)
    ensures var p := IntrinsicOf(cell, a.scale, a.viewport, a.canvas);
            ParseKey(k) == Some((Round(p.x), Round(p.y)))
    ensures a.viewport.None? ==> k == "0-0"
  {
    OriginKey();
    PointKey(IntrinsicOf(cell, a.scale, a.viewport, a.canvas))
  }

  /** `openCellModal`: the editor opens for `cell`, blank and unticked,
      unless the store has an entry with a setting under the cell's key, in
      which case it shows that setting, ticked. */
  function OpenCellModal(a: App, cell: Tile): (r: App)
    requires Inv(a) && Addressable(a)
    ensures r == a.(modal := r.modal)
    ensures r.modal.open && r.modal.cell == Some(cell)
    ensures match Lookup(a.store, CellKey(a, cell))
            case Some(rec) =>
              if rec.setting.Some? then r.modal.input == rec.setting.value && r.modal.checked
              else r.modal.input == "" && !r.modal.checked
            case None => r.modal.input == "" && !r.modal.checked
  {
    var found := Lookup(a.store, CellKey(a, cell));
    if found.Some? && found.value.setting.Some? then
      a.(modal := Modal(true, Some(cell), found.value.setting.value, true))
    else
      a.(modal := Modal(true, Some(cell), "", false))
  }

  function EditInput(a: App, text: string): App {
    a.(modal := a.modal.(input := text))
  }

  function EditChecked(a: App, checked: bool): App {
    a.(modal := a.modal.(checked := checked))
  }

  /** `closeCellModal`: the editor is hidden; its cell, text and tick
      stay as they were. */
  function CloseModal(a: App): (r: App)
    ensures !r.modal.open
    ensures r.modal.cell == a.modal.cell && r.modal.input == a.modal.input && r.modal.checked == a.modal.checked
    ensures r == a.(modal := r.modal)
  {
    a.(modal := a.modal.(open := false))
  }

  /** The record a ticked save writes for the editor's cell. */
  function SavedRecord(a: App): (rec: Record)
    requires Inv(a) && Addressable(a) && a.modal.open
    ensures KeyOf(rec.intrinsicX, rec.intrinsicY) == CellKey(a, a.modal.cell.value)
    ensures rec.scale == a.scale && rec.setting == Some(a.modal.input)
  {
    var p := IntrinsicOf(a.modal.cell.value, a.scale, a.viewport, a.canvas);
    Record(Round(p.x), Round(p.y), a.scale, Some(a.modal.input))
  }

  /** Save: with the box ticked, the cell's record is written under its key
      (every other key reads as before) and the blink timer is (re)started;
      unticked, the store and timer stay as they are. Either way the editor
      closes. The upload to the server is fire-and-forget and changes no
      state. */
  function SaveModal(a: App): (r: App)
    requires Inv(a) && Addressable(a) && a.modal.open
    ensures Valid(r.store) && !r.modal.open
    ensures a.modal.checked ==>
              && Lookup(r.store, CellKey(a, a.modal.cell.value)) == Some(SavedRecord(a))
              && (forall k :: k != CellKey(a, a.modal.cell.value) ==> Lookup(r.store, k) == Lookup(a.store, k))
              && r.blinkTimer
    ensures !a.modal.checked ==> r.store == a.store && r.blinkTimer == a.blinkTimer
    ensures r == a.(store := r.store, blinkTimer := r.blinkTimer, modal := a.modal.(open := false))
  {
    var closed := a.modal.(open := false);
    if a.modal.checked then
      var rec := SavedRecord(a);
      a.(store := Put(a.store, CellKey(a, a.modal.cell.value), rec), blinkTimer := true, modal := closed)
    else
      a.(modal := closed)
  }

  /** One tick of the blink interval: the marker phase flips. */
  function BlinkTick(a: App): (r: App)
    requires a.blinkTimer
    ensures r.blinkFlag == !a.blinkFlag && r == a.(blinkFlag := r.blinkFlag)
  {
    a.(blinkFlag := !a.blinkFlag)
  }

  // ---------------------------------------------------------------------
  // Overlay redraws requested by the controller

  /** The overlay redraw the controller asks for: no selection, the whole
      store, markers shown in the current blink phase. */
  function Redraw(a: App, hover: Option<Tile>): seq<Overlay.Shape>
    requires Inv(a)
  {
    Overlay.DrawGrid(a.canvas, a.scale, hover, None, Some(a.store), a.blinkFlag, a.viewport)
  }

  /** mousemove on the overlay: ignored while dragging or rendering,
      otherwise a redraw with the tile under the pointer highlighted. */
  function HoverRedraw(a: App, p: Point, origin: Point): (r: Option<seq<Overlay.Shape>>)
    requires Inv(a)
    ensures r.Some? <==> !a.pan.dragging && a.render.Idle?
    ensures r.Some? ==>
              Overlay.Pick(r.value, 4) ==
              [Overlay.TileFill(Overlay.HoverFill, TileAtPoint(a.scale, p, origin), TileSize(a.scale))]
    ensures r.Some? ==>
              Overlay.Pick(r.value, 3) ==
              Overlay.MarkerFills(Some(a.store), a.blinkFlag, a.viewport, a.canvas, TileSize(a.scale))
  {
    if a.pan.dragging || a.render.Busy? then None
    else
      var t := TileAtPoint(a.scale, p, origin);
      Overlay.DrawGridHover(a.canvas, a.scale, Some(t), None, Some(a.store), a.blinkFlag, a.viewport);
      Overlay.DrawGridSplit(a.canvas, a.scale, Some(t), None, Some(a.store), a.blinkFlag, a.viewport);
      Some(Redraw(a, Some(t)))
  }

  // ---------------------------------------------------------------------
  // Events

  /** Events that drive the render and zoom machine. */
  datatype ViewEvent =
    | DocumentArrived
    | PageArrived(viewport: Viewport)
    | PageFetchError
    | PaintFinished(ok: bool)
    | ZoomInClicked
    | ZoomOutClicked
    | WheelTurned(deltaY: real)
    | ZoomEntered(value: Option<real>)

  /** Pointer events on the document container and on the overlay. */
  datatype PointerEvent =
    | ContainerDown(p: Point)
    | ContainerMove(p: Point)
    | ContainerUp
    | ContainerLeave
    | OverlayDown(p: Point, origin: Point)
    | OverlayUp
    | OverlayClicked(p: Point, origin: Point)
    | OverlayLeave

  /** Events of the cell editor, the annotation store and the blink timer. */
  datatype StoreEvent =
    | MapDataArrived(loaded: Option<Store>)
    | InputEdited(text: string)
    | CheckboxSet(checked: bool)
    | ModalClosed
    | SaveClicked
    | SaveAnswered(ok: bool)
    | BlinkTicked

  datatype Event = View(v: ViewEvent) | Pointer(p: PointerEvent) | Annotate(s: StoreEvent)

  /** When an event can arrive: a page arrives (or fails to) only while a
      render waits for it, and its viewport is a real page's; a paint ends
      only after its page arrived; a click needs a canvas with area to land
      on; the save button is only reachable while the editor is shown (and
      is modelled only while cells can be addressed); ticks come only from a
      started timer. */
  ghost predicate Enabled(a: App, e: Event) {
    match e
    case View(PageArrived(vp)) => a.render.Busy? && !a.render.painting && ValidViewport(vp)
    case View(PageFetchError) => a.render.Busy? && !a.render.painting
    case View(PaintFinished(_)) => a.render.Busy? && a.render.painting
    case Pointer(OverlayClicked(_, _)) => Addressable(a)
    case Annotate(MapDataArrived(loaded)) => loaded.Some? ==> Valid(loaded.value)
    case Annotate(SaveClicked) => a.modal.open && Addressable(a)
    case Annotate(BlinkTicked) => a.blinkTimer
    case _ => true
  }

  function ViewStep(a: App, e: ViewEvent): App
    requires Inv(a) && Enabled(a, View(e))
  {
    match e
    case DocumentArrived => DocumentLoaded(a)
    case PageArrived(vp) => PageFetched(a, vp)
    case PageFetchError => PageFetchFailed(a)
    case PaintFinished(ok) => PaintSettled(a, ok)
    case ZoomInClicked => ZoomIn(a)
    case ZoomOutClicked => ZoomOut(a)
    case WheelTurned(d) => Wheel(a, d)
    case ZoomEntered(v) => ManualZoom(a, v)
  }

  function PointerStep(a: App, e: PointerEvent): App
    requires Inv(a) && Enabled(a, Pointer(e))
  {
    match e
    case ContainerDown(p) => PanStart(a, p)
    case ContainerMove(p) => PanMove(a, p)
    case ContainerUp => PanEnd(a)
    case ContainerLeave => PanEnd(a)
    case OverlayDown(p, origin) => OverlayMouseDown(a, p, origin)
    case OverlayUp => OverlayMouseUp(a)
    case OverlayClicked(p, origin) => OverlayClick(a, p, origin)
    case OverlayLeave => OverlayMouseLeave(a)
  }

  function StoreStep(a: App, e: StoreEvent): App
    requires Inv(a) && Enabled(a, Annotate(e))
  {
    match e
    case MapDataArrived(loaded) => MapDataLoaded(a, loaded)
    case InputEdited(text) => EditInput(a, text)
    case CheckboxSet(b) => EditChecked(a, b)
    case ModalClosed => CloseModal(a)
    case SaveClicked => SaveModal(a)
    case SaveAnswered(_) => a
    case BlinkTicked => BlinkTick(a)
  }

  function Step(a: App, e: Event): App
    requires Inv(a) && Enabled(a, e)
  {
    match e
    case View(v) => ViewStep(a, v)
    case Pointer(p) => PointerStep(a, p)
    case Annotate(s) => StoreStep(a, s)
  }

  // ---------------------------------------------------------------------
  // Properties: the invariant

  /** Every event keeps the invariant; in particular the zoom stays positive
      whatever sequence of buttons, wheel notches and entries occurs. */
  lemma StepPreservesInv(a: App, e: Event)
    requires Inv(a) && Enabled(a, e)
    ensures Inv(Step(a, e))
  {
    match e
    case View(v) => ViewStepPreservesInv(a, v);
    case Pointer(p) => PointerStepPreservesInv(a, p);
    case Annotate(s) => StoreStepPreservesInv(a, s);
  }

  lemma ViewStepPreservesInv(a: App, e: ViewEvent)
    requires Inv(a) && Enabled(a, View(e))
    ensures Inv(ViewStep(a, e))
  {
    match e
    case DocumentArrived => RenderPreservesInv(a.(hasDocument := true), a.scale);
    case PageArrived(vp) =>
    case PageFetchError =>
    case PaintFinished(ok) =>
    case ZoomInClicked => RenderPreservesInv(a, a.scale * ZoomInFactor);
    case ZoomOutClicked => RenderPreservesInv(a, a.scale * ZoomOutFactor);
    case WheelTurned(d) => RenderPreservesInv(a, WheelTarget(a.scale, d));
    case ZoomEntered(v) =>
      if v.Some? && ManualZoomValid(v.value) { RenderPreservesInv(a, v.value / 100.0); }
  }

  lemma PointerStepPreservesInv(a: App, e: PointerEvent)
    requires Inv(a) && Enabled(a, Pointer(e))
    ensures Inv(PointerStep(a, e))
  {
    match e
    case OverlayClicked(p, origin) =>
      if IsClick(a.clickStart, p) { OpenPreservesInv(a, TileAtPoint(a.scale, p, origin)); }
    case _ =>
  }

  lemma StoreStepPreservesInv(a: App, e: StoreEvent)
    requires Inv(a) && Enabled(a, Annotate(e))
    ensures Inv(StoreStep(a, e))
  {
  }

  /** A render request at a positive zoom keeps the invariant. */
  lemma RenderPreservesInv(a: App, s: real)
    requires Inv(a) && s > 0.0
    ensures Inv(RenderPdf(a, s))
  {
  }

  /** Opening the editor keeps the invariant. */
  lemma OpenPreservesInv(a: App, cell: Tile)
    requires Inv(a) && Addressable(a)
    ensures Inv(OpenCellModal(a, cell))
  {
  }

  // ---------------------------------------------------------------------
  // Properties: render and zoom

  /** While a render is in flight, every zoom request is dropped, not queued. */
  lemma BusyDropsRequests(a: App, s: real, deltaY: real, v: real)
    requires a.render.Busy?
    ensures RenderPdf(a, s) == a
    ensures ZoomIn(a) == a && ZoomOut(a) == a && Wheel(a, deltaY) == a
    ensures ManualZoomValid(v) ==> ManualZoom(a, Some(v)) == a
    ensures DocumentLoaded(a).render == a.render
  {
  }

  /** A render request followed by its completion: the busy flag is down
      again, the zoom is the requested one exactly when the page painted
      and the old one otherwise, the viewport is replaced unless the page
      could not even be fetched, and the store, editor and gestures are
      untouched. */
  lemma RenderCommitsOnlyOnSuccess(a: App, s: real, outcome: RenderOutcome)
    requires a.hasDocument && a.render.Idle?
    requires !outcome.PageFailed? ==> ValidViewport(outcome.viewport)
    ensures RenderPdf(a, s).render == Busy(s, false)
    ensures var b := RenderSettled(RenderPdf(a, s), outcome);
            && b.render.Idle?
            && b.scale == (if outcome.Rendered? then s else a.scale)
            && b.viewport == (if outcome.PageFailed? then a.viewport else Some(outcome.viewport))
            && b.zoomField == (if outcome.Rendered? then Some(Round(s * 100.0)) else a.zoomField)
            && b.store == a.store && b.modal == a.modal && b.pan == a.pan && b.blinkFlag == a.blinkFlag
  {
  }

  /** Between the page's arrival and the end of its paint, the viewport and
      canvases are the new page's while the zoom is still the old one, and
      the busy flag blocks hover and selection but not clicks or saves: a
      cell opened or saved in that window is keyed with the old zoom's tile
      edge laid over the new canvas. */
  lemma PageWindowMixesZooms(a: App, vp: Viewport, cell: Tile, p: Point, origin: Point)
    requires Inv(a) && a.render.Busy? && !a.render.painting
    requires ValidViewport(vp) && vp.width >= 1.0 && vp.height >= 1.0
    ensures var b := PageFetched(a, vp);
            && Inv(b) && Addressable(b) && b.render.Busy?
            && CellKey(b, cell) == PointKey(IntrinsicOf(cell, a.scale, Some(vp), CanvasFor(vp)))
            && OverlayMouseDown(b, p, origin).selectionStart == a.selectionStart
            && HoverRedraw(b, p, origin).None?
            && (IsClick(b.clickStart, p) ==>
                  OverlayClick(b, p, origin).modal.cell == Some(TileAtPoint(a.scale, p, origin)))
            && (b.modal.open && b.modal.checked ==> SavedRecord(b).scale == a.scale)
  {
  }

  /** Without a document nothing renders. */
  lemma NoDocumentNoRender(a: App, s: real)
    requires !a.hasDocument
    ensures RenderPdf(a, s) == a
  {
  }

  /** A committed wheel zoom is the clamped wheel target, so always within
      [0.2, 10]. */
  lemma WheelZoomBounded(a: App, deltaY: real, vp: Viewport)
    requires a.hasDocument && a.render.Idle? && ValidViewport(vp)
    ensures var b := RenderSettled(Wheel(a, deltaY), Rendered(vp));
            && b.scale == WheelTarget(a.scale, deltaY)
            && WheelMinScale <= b.scale <= WheelMaxScale
  {
  }

  /** The zoom buttons are not clamped: a committed zoom-in is exactly 1.25
      times the old zoom, and a zoom-out 0.8 times, however large or small. */
  lemma ButtonZoomUnclamped(a: App, vp: Viewport)
    requires a.hasDocument && a.render.Idle? && ValidViewport(vp)
    ensures RenderSettled(ZoomIn(a), Rendered(vp)).scale == a.scale * 1.25
    ensures RenderSettled(ZoomOut(a), Rendered(vp)).scale == a.scale * 0.8
  {
  }

  /** Four committed zoom-ins from the wheel's maximum pass zoom 20, where
      the overlay's tile size starts to be clamped. */
  lemma ButtonsReachClampedZoom(a: App, vp: Viewport)
    requires a.hasDocument && a.render.Idle? && ValidViewport(vp)
    requires a.scale == WheelMaxScale
    ensures var z1 := RenderSettled(ZoomIn(a), Rendered(vp));
            var z2 := RenderSettled(ZoomIn(z1), Rendered(vp));
            var z3 := RenderSettled(ZoomIn(z2), Rendered(vp));
            var z4 := RenderSettled(ZoomIn(z3), Rendered(vp));
            z4.scale > 20.0 && TileSize(z4.scale) != RawTileSize(z4.scale)
  {
    var z1 := RenderSettled(ZoomIn(a), Rendered(vp));
    ButtonZoomUnclamped(a, vp);
    var z2 := RenderSettled(ZoomIn(z1), Rendered(vp));
    ButtonZoomUnclamped(z1, vp);
    var z3 := RenderSettled(ZoomIn(z2), Rendered(vp));
    ButtonZoomUnclamped(z2, vp);
    var z4 := RenderSettled(ZoomIn(z3), Rendered(vp));
    ButtonZoomUnclamped(z3, vp);
    assert z4.scale == 24.4140625;
    TileSizeClamp(z4.scale);
  }

  /** A typed percentage is requested exactly when it lies in (0, 1000]; a
      rejected entry only resets the field to the current zoom. */
  lemma ManualZoomAcceptedIff(a: App, v: real)
    requires a.hasDocument && a.render.Idle?
    ensures ManualZoom(a, Some(v)).render == Busy(v / 100.0, false) <==> ManualZoomValid(v)
    ensures !ManualZoomValid(v) ==> ManualZoom(a, Some(v)) == a.(zoomField := Some(Round(a.scale * 100.0)))
    ensures ManualZoom(a, None) == a.(zoomField := Some(Round(a.scale * 100.0)))
  {
  }

  // ---------------------------------------------------------------------
  // Properties: gestures

  /** After a press at `p`, every move to `q` puts the offset at the offset
      before the press plus `q - p`; the last move wins. */
  lemma PanFollowsPointer(a: App, p: Point, q1: Point, q2: Point)
    ensures var b := PanMove(PanStart(a, p), q1);
            b.pan.offset == Point(a.pan.offset.x + (q1.x - p.x), a.pan.offset.y + (q1.y - p.y))
    ensures var c := PanMove(PanMove(PanStart(a, p), q1), q2);
            c.pan.offset == Point(a.pan.offset.x + (q2.x - p.x), a.pan.offset.y + (q2.y - p.y))
  {
  }

  /** Releasing ends the drag without moving the canvases, and later moves
      do nothing until the next press. */
  lemma PanEndFreezesOffset(a: App, q: Point)
    ensures PanEnd(a).pan.offset == a.pan.offset && !PanEnd(a).pan.dragging
    ensures PanMove(PanEnd(a), q) == PanEnd(a)
  {
  }

  /** A press on the overlay starts a pan too, so hover redraws are
      suppressed until release. */
  lemma PressOnOverlayStartsPan(a: App, p: Point, origin: Point, q: Point)
    requires Inv(a)
    ensures PressOnOverlay(a, p, origin).pan.dragging
    ensures HoverRedraw(PressOnOverlay(a, p, origin), q, origin).None?
    ensures a.render.Idle? && !a.pan.dragging ==>
              PressOnOverlay(a, p, origin).selectionStart == Some(TileAtPoint(a.scale, p, origin))
  {
  }

  /** Press and click at points less than 5 pixels apart on both axes open
      the editor for the tile under the click; a move of 5 pixels or more on
      either axis opens nothing and changes nothing. */
  lemma ClickOpensEditorIff(a: App, p: Point, q: Point, origin: Point)
    requires Inv(a) && Addressable(a)
    ensures var b := ReleaseOnOverlay(PressOnOverlay(a, p, origin));
            var c := OverlayClick(b, q, origin);
            && (IsClick(p, q) ==> c.modal.open && c.modal.cell == Some(TileAtPoint(a.scale, q, origin)))
            && (Abs(q.x - p.x) >= 5.0 || Abs(q.y - p.y) >= 5.0 ==> c == b)
  {
  }

  // ---------------------------------------------------------------------
  // Properties: the editor and the store

  /** After the stored annotations arrive, opening a cell whose key the
      loaded store holds with a setting shows that setting, ticked; after a
      failed load every cell opens blank. */
  lemma LoadThenOpen(a: App, loaded: Option<Store>, cell: Tile)
    requires Inv(a) && Addressable(a)
    requires loaded.Some? ==> Valid(loaded.value)
    ensures var b := MapDataLoaded(a, loaded);
            && Inv(b) && Addressable(b)
            && var k := CellKey(b, cell);
            && (loaded.Some? && k in loaded.value.entries && loaded.value.entries[k].setting.Some? ==>
                  OpenCellModal(b, cell).modal.input == loaded.value.entries[k].setting.value &&
                  OpenCellModal(b, cell).modal.checked)
            && (loaded.None? ==> OpenCellModal(b, cell).modal.input == "" && !OpenCellModal(b, cell).modal.checked)
  {
    var b := MapDataLoaded(a, loaded);
    var k := CellKey(b, cell);
    if loaded.Some? && k in loaded.value.entries {
      assert Lookup(b.store, k) == Some(loaded.value.entries[k]);
    }
  }

  /** Without a viewport every cell has key "0-0". */
  lemma NoViewportKey(a: App, cell: Tile)
    requires Inv(a) && a.viewport.None?
    ensures CellKey(a, cell) == "0-0"
  {
    OriginKey();
    RoundHalfUp(0);
  }

  /** Two cells share an annotation exactly when their intrinsic
      coordinates round to the same pair; opening either shows the same. */
  lemma SharedKeyIff(a: App, c1: Tile, c2: Tile)
    requires Inv(a) && Addressable(a)
    ensures var p1 := IntrinsicOf(c1, a.scale, a.viewport, a.canvas);
            var p2 := IntrinsicOf(c2, a.scale, a.viewport, a.canvas);
            CellKey(a, c1) == CellKey(a, c2) <==> Round(p1.x) == Round(p2.x) && Round(p1.y) == Round(p2.y)
    ensures CellKey(a, c1) == CellKey(a, c2) ==>
              OpenCellModal(a, c1).modal.input == OpenCellModal(a, c2).modal.input &&
              OpenCellModal(a, c1).modal.checked == OpenCellModal(a, c2).modal.checked
  {
    PointKeyIff(IntrinsicOf(c1, a.scale, a.viewport, a.canvas), IntrinsicOf(c2, a.scale, a.viewport, a.canvas));
  }

  /** A ticked save writes, under the cell's key, a record whose coordinates
      are exactly the two integers the key spells, with the current zoom and
      the typed text; every other key reads as before; the timer runs, the
      blink phase is kept and the editor closes. */
  lemma SaveWritesRecord(a: App)
    requires Inv(a) && Addressable(a) && a.modal.open && a.modal.checked
    ensures var b := SaveModal(a);
            var k := CellKey(a, a.modal.cell.value);
            && Lookup(b.store, k).Some?
            && var rec := Lookup(b.store, k).value;
            && ParseKey(k) == Some((rec.intrinsicX, rec.intrinsicY))
            && rec.scale == a.scale
            && rec.setting == Some(a.modal.input)
            && (forall k' :: k' != k ==> Lookup(b.store, k') == Lookup(a.store, k'))
            && b.blinkTimer && b.blinkFlag == a.blinkFlag && !b.modal.open
            && b.scale == a.scale && b.viewport == a.viewport && b.render == a.render
  {
  }

  /** The server's answer to the upload, success or failure, changes
      nothing: the store keeps the optimistic write and nothing rolls back. */
  lemma SaveAnswerChangesNothing(a: App, ok: bool)
    requires Inv(a)
    ensures Step(a, Annotate(SaveAnswered(ok))) == a
  {
  }

  /** An unticked save changes nothing but closing the editor. */
  lemma SaveUncheckedOnlyCloses(a: App)
    requires Inv(a) && Addressable(a) && a.modal.open && !a.modal.checked
    ensures SaveModal(a) == CloseModal(a)
    ensures SaveModal(a).store == a.store && SaveModal(a).blinkTimer == a.blinkTimer
  {
  }

  /** Saving keeps every record under the key its coordinates spell. */
  lemma SaveKeepsWellKeyed(a: App)
    requires Inv(a) && Addressable(a) && a.modal.open && WellKeyed(a.store)
    ensures WellKeyed(SaveModal(a).store)
  {
    if a.modal.checked {
      PutKeepsWellKeyed(a.store, SavedRecord(a));
    }
  }

  /** Save with the box ticked, then reopen the same cell: the editor shows
      the saved text, ticked. */
  lemma SaveThenReopen(a: App)
    requires Inv(a) && Addressable(a) && a.modal.open && a.modal.checked
    ensures var b := OpenCellModal(SaveModal(a), a.modal.cell.value);
            b.modal.input == a.modal.input && b.modal.checked
  {
    SaveWritesRecord(a);
  }

  /** A saved cell is drawn: whenever the blink phase is on, the next redraw
      holds the marker of the record just saved. */
  lemma SavedCellIsDrawn(a: App)
    requires Inv(a) && Addressable(a) && a.modal.open && a.modal.checked
    requires a.viewport.Some? && a.blinkFlag
    ensures var b := SaveModal(a);
            Overlay.MarkerFill(SavedRecord(a), a.viewport.value, a.canvas, TileSize(a.scale))
              in Overlay.Pick(Redraw(b, None), 3)
  {
    var b := SaveModal(a);
    var k := CellKey(a, a.modal.cell.value);
    Overlay.DrawGridMarkers(b.canvas, b.scale, None, None, Some(b.store), b.blinkFlag, b.viewport);
    assert k in b.store.entries && b.store.entries[k] == SavedRecord(a) by {
      assert Lookup(b.store, k) == Some(SavedRecord(a));
    }
    var i :| 0 <= i < |b.store.keys| && b.store.keys[i] == k;
    assert Overlay.Pick(Redraw(b, None), 3)[i] ==
           Overlay.MarkerFill(SavedRecord(a), a.viewport.value, a.canvas, TileSize(a.scale));
  }

  /** Markers follow the document across zooms: after a save and a
      successful render at another zoom, the redraw in the on phase paints
      the saved record's marker at a pixel that the new viewport and canvas
      map back to exactly the record's intrinsic coordinates. */
  lemma MarkerTracksDocument(a: App, s: real, vp: Viewport)
    requires Inv(a) && Addressable(a) && a.modal.open && a.modal.checked && a.blinkFlag
    requires a.hasDocument && a.render.Idle? && s > 0.0
    requires ValidViewport(vp) && vp.width >= 1.0 && vp.height >= 1.0
    ensures var b := SaveModal(a);
            var c := RenderSettled(RenderPdf(b, s), Rendered(vp));
            var rec := SavedRecord(a);
            var m := MarkerPixel(rec.intrinsicX as real, rec.intrinsicY as real, vp, c.canvas);
            && c.scale == s
            && Overlay.Fill(Overlay.SavedMarker, m.x, m.y, TileSize(s)) in Overlay.Pick(Redraw(c, None), 3)
            && PixelToIntrinsic(m, vp, c.canvas) == Point(rec.intrinsicX as real, rec.intrinsicY as real)
  {
    var b := SaveModal(a);
    var c := RenderSettled(RenderPdf(b, s), Rendered(vp));
    var rec := SavedRecord(a);
    var k := CellKey(a, a.modal.cell.value);
    assert c.store == b.store && c.blinkFlag;
    Overlay.DrawGridMarkers(c.canvas, c.scale, None, None, Some(c.store), c.blinkFlag, c.viewport);
    assert k in c.store.entries && c.store.entries[k] == rec by {
      assert Lookup(b.store, k) == Some(rec);
    }
    var i :| 0 <= i < |c.store.keys| && c.store.keys[i] == k;
    assert Overlay.Pick(Redraw(c, None), 3)[i] == Overlay.MarkerFill(rec, vp, c.canvas, TileSize(s));
  }

  /** Each blink tick flips whether the next redraw shows the markers: one
      marker per stored entry when on, none when off. */
  lemma BlinkAlternates(a: App)
    requires Inv(a) && a.blinkTimer && a.viewport.Some?
    ensures var b := BlinkTick(a);
            |Overlay.Pick(Redraw(b, None), 3)| == (if a.blinkFlag then 0 else |a.store.entries|)
    ensures BlinkTick(BlinkTick(a)) == a
  {
    var b := BlinkTick(a);
    Overlay.DrawGridMarkers(b.canvas, b.scale, None, None, Some(b.store), b.blinkFlag, b.viewport);
  }

  /** A hover redraw differs from the plain redraw of the same state only
      in its hover layer: grid lines, selection and saved markers are the
      ones every other redraw paints, and the plain redraw has no hover. */
  lemma HoverChangesOnlyHoverLayer(a: App, p: Point, origin: Point)
    requires Inv(a) && !a.pan.dragging && a.render.Idle?
    ensures HoverRedraw(a, p, origin).Some?
    ensures forall rank :: 0 <= rank < 4 ==>
              Overlay.Pick(HoverRedraw(a, p, origin).value, rank) == Overlay.Pick(Redraw(a, None), rank)
    ensures Overlay.Pick(Redraw(a, None), 4) == []
  {
    var t := TileAtPoint(a.scale, p, origin);
    Overlay.DrawGridSplit(a.canvas, a.scale, Some(t), None, Some(a.store), a.blinkFlag, a.viewport);
    Overlay.DrawGridSplit(a.canvas, a.scale, None, None, Some(a.store), a.blinkFlag, a.viewport);
  }

}
