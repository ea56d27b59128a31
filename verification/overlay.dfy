/** The grid overlay: `drawGrid` as the ordered list of shapes it paints,
    and the module-level hover and selection state with its transitions. */
module Overlay {
  import opened Wrappers
  import opened JsMath
  import opened Addressing
  import opened Annotations

  /** Two corner tiles of a selection, in either order. */
  datatype SelRect = SelRect(start: Tile, end: Tile)

  datatype Layer = SelectionFill | SavedMarker | HoverFill

  /** One painted shape: a vertical line from (x, 0) to (x, height), a
      horizontal line from (0, y) to (width, y), or a filled square. */
  datatype Shape =
    | VLine(x: real, height: real)
    | HLine(y: real, width: real)
    | Fill(layer: Layer, x: real, y: real, size: real)

  /** The overlay module's own state (`lastHoveredTile`, `selectionRect`). */
  datatype OverlayState = OverlayState(lastHovered: Option<Tile>, selection: Option<SelRect>)

  const NoHover: OverlayState := OverlayState(None, None)

  /** Paint order of a shape: grid lines, then selection, markers, hover. */
  function Rank(s: Shape): nat {
    match s
    case VLine(_, _) => 0
    case HLine(_, _) => 1
    case Fill(SelectionFill, _, _, _) => 2
    case Fill(SavedMarker, _, _, _) => 3
    case Fill(HoverFill, _, _, _) => 4
  }

  // ---------------------------------------------------------------------
  // Grid lines

  /** Line `k` of a grid with spacing `ts` is drawn when it lies within `limit`. */
  predicate OnGrid(k: nat, ts: real, limit: real) {
    k as real * ts <= limit
  }

  /** How many lines `for (x = 0; x <= limit; x += ts)` draws. */
  function LineCount(ts: real, limit: real): (n: nat)
    requires ts > 0.0
    ensures forall k: nat :: k < n <==> OnGrid(k, ts, limit)
  {
    var n := if limit < 0.0 then 0 else Floor(limit / ts) + 1;
    LineCountExact(ts, limit, n);
    n
  }

  lemma LineCountExact(ts: real, limit: real, n: nat)
    requires ts > 0.0
    requires n == if limit < 0.0 then 0 else Floor(limit / ts) + 1
    ensures forall k: nat :: k < n <==> OnGrid(k, ts, limit)
  {
    forall k: nat ensures k < n <==> OnGrid(k, ts, limit) {
      DivBound(k as real, limit, ts);
      if limit >= 0.0 {
        assert k < n <==> k as real <= limit / ts;
      } else {
        assert k as real * ts >= 0.0;
      }
    }
  }

  /** Positions of the first `n` lines: 0, ts, 2*ts, ... */
  function GridCoords(ts: real, n: nat): seq<real> {
    seq(n, i => i as real * ts)
  }

  /** The line loop as the source writes it, stepping `x` by `ts`. */
  method GridLinePositions(ts: real, limit: real) returns (xs: seq<real>)
    requires ts > 0.0
    ensures forall i :: 0 <= i < |xs| ==> xs[i] == i as real * ts && xs[i] <= limit
    ensures forall k: nat :: k < |xs| <==> OnGrid(k, ts, limit)
  {
    var n := LineCount(ts, limit);
    xs := [];
    var x := 0.0;
    while x <= limit
      invariant x == |xs| as real * ts
      invariant |xs| <= n
      invariant forall i :: 0 <= i < |xs| ==> xs[i] == i as real * ts && xs[i] <= limit
      decreases n - |xs|
    {
      assert OnGrid(|xs|, ts, limit);
      xs := xs + [x];
      x := x + ts;
    }
    assert !OnGrid(|xs|, ts, limit);
  }

  function VLines(ts: real, canvas: Canvas): (r: seq<Shape>)
    requires ts > 0.0
    ensures forall i :: 0 <= i < |r| ==> Rank(r[i]) == 0
    ensures |r| == LineCount(ts, canvas.width as real)
    ensures forall i :: 0 <= i < |r| ==> r[i] == VLine(i as real * ts, canvas.height as real)
  {
    var xs := GridCoords(ts, LineCount(ts, canvas.width as real));
    seq(|xs|, i requires 0 <= i < |xs| => VLine(xs[i], canvas.height as real))
  }

  function HLines(ts: real, canvas: Canvas): (r: seq<Shape>)
    requires ts > 0.0
    ensures forall i :: 0 <= i < |r| ==> Rank(r[i]) == 1
    ensures |r| == LineCount(ts, canvas.height as real)
    ensures forall i :: 0 <= i < |r| ==> r[i] == HLine(i as real * ts, canvas.width as real)
  {
    var ys := GridCoords(ts, LineCount(ts, canvas.height as real));
    seq(|ys|, i requires 0 <= i < |ys| => HLine(ys[i], canvas.width as real))
  }

  // ---------------------------------------------------------------------
  // Selection

  /** The lower and the higher of two corner indices (`Math.min`, `Math.max`). */
  function Ordered(a: int, b: int): (r: (int, int))
    ensures r.0 <= r.1
    ensures (r.0 == a && r.1 == b) || (r.0 == b && r.1 == a)
  {
    if a <= b then (a, b) else (b, a)
  }

  predicate InSelection(t: Tile, sel: SelRect) {
    var rows := Ordered(sel.start.row, sel.end.row);
    var cols := Ordered(sel.start.col, sel.end.col);
    rows.0 <= t.row <= rows.1 && cols.0 <= t.col <= cols.1
  }

  /** No tile is visited twice. */
  predicate NoRepeats(r: seq<Tile>) {
    forall i, j :: 0 <= i < j < |r| ==> r[i] != r[j]
  }

  /** Number of indices from `lo` to `hi`. */
  function Width(lo: int, hi: int): nat {
    if lo <= hi then hi - lo + 1 else 0
  }

  /** Tiles of one row from column `c0` to `c1`, left to right, each once. */
  function RowTiles(row: int, c0: int, c1: int): (r: seq<Tile>)
    ensures forall t :: t in r <==> t.row == row && c0 <= t.col <= c1
    ensures NoRepeats(r) && |r| == Width(c0, c1)
  {
    var r := seq(Width(c0, c1), i => Tile(row, c0 + i));
    assert forall t: Tile :: t.row == row && c0 <= t.col <= c1 ==> r[t.col - c0] == t;
    r
  }

  /** Tiles of rows `r0..r1` and columns `c0..c1`, row by row, each once. */
  function SpanTiles(r0: int, r1: int, c0: int, c1: int): (r: seq<Tile>)
    ensures forall t :: t in r <==> r0 <= t.row <= r1 && c0 <= t.col <= c1
    ensures NoRepeats(r) && |r| == Width(r0, r1) * Width(c0, c1)
    decreases r1 - r0
  {
    if r0 > r1 then []
    else
      var row := RowTiles(r0, c0, c1);
      var rest := SpanTiles(r0 + 1, r1, c0, c1);
      JoinRows(row, rest, r0);
      WidthStep(r0, r1, Width(c0, c1));
      row + rest
  }

  /** A row of tiles followed by tiles of later rows repeats no tile. */
  lemma JoinRows(row: seq<Tile>, rest: seq<Tile>, r0: int)
    requires NoRepeats(row) && NoRepeats(rest)
    requires forall t :: t in row ==> t.row == r0
    requires forall t :: t in rest ==> t.row > r0
    ensures NoRepeats(row + rest)
  {
    var r := row + rest;
    forall i, j | 0 <= i < j < |r| ensures r[i] != r[j] {
      if j >= |row| {
        assert r[j] == rest[j - |row|];
        if i < |row| {
          assert r[i] == row[i];
        } else {
          assert r[i] == rest[i - |row|];
        }
      }
    }
  }

  lemma WidthStep(r0: int, r1: int, w: nat)
    requires r0 <= r1
    ensures Width(r0, r1) * w == w + Width(r0 + 1, r1) * w
  {
    assert Width(r0, r1) == Width(r0 + 1, r1) + 1;
  }

  /** The tiles the selection loops visit: each tile between the corners, once. */
  function SelectionTiles(sel: SelRect): (r: seq<Tile>)
    ensures forall t :: t in r <==> InSelection(t, sel)
    ensures NoRepeats(r)
    ensures var rows := Ordered(sel.start.row, sel.end.row);
            var cols := Ordered(sel.start.col, sel.end.col);
            |r| == (rows.1 - rows.0 + 1) * (cols.1 - cols.0 + 1)
  {
    var rows := Ordered(sel.start.row, sel.end.row);
    var cols := Ordered(sel.start.col, sel.end.col);
    SpanTiles(rows.0, rows.1, cols.0, cols.1)
  }

  /** Which corner is the start does not matter. */
  lemma SelectionSymmetric(a: Tile, b: Tile)
    ensures SelectionTiles(SelRect(a, b)) == SelectionTiles(SelRect(b, a))
  {
  }

  function TileFill(layer: Layer, t: Tile, ts: real): Shape {
    var p := TopLeft(t, ts);
    Fill(layer, p.x, p.y, ts)
  }

  function SelectionFills(sel: Option<SelRect>, ts: real): (r: seq<Shape>)
    ensures forall i :: 0 <= i < |r| ==> Rank(r[i]) == 2
  {
    match sel
    case None => []
    case Some(rect) =>
      var tiles := SelectionTiles(rect);
      seq(|tiles|, i requires 0 <= i < |tiles| => TileFill(SelectionFill, tiles[i], ts))
  }

  // ---------------------------------------------------------------------
  // Saved-cell markers and hover

  predicate MarkersShown(saved: Option<Store>, blinkVisible: bool, viewport: Option<Viewport>) {
    saved.Some? && viewport.Some? && blinkVisible
  }

  function MarkerFill(rec: Record, vp: Viewport, canvas: Canvas, ts: real): Shape
    requires ValidViewport(vp)
  {
    var p := MarkerPixel(rec.intrinsicX as real, rec.intrinsicY as real, vp, canvas);
    Fill(SavedMarker, p.x, p.y, ts)
  }

  function MarkerFills(saved: Option<Store>, blinkVisible: bool, viewport: Option<Viewport>,
                       canvas: Canvas, ts: real): (r: seq<Shape>)
    requires saved.Some? ==> Valid(saved.value)
    requires MarkersShown(saved, blinkVisible, viewport) ==> ValidViewport(viewport.value)
    ensures forall i :: 0 <= i < |r| ==> Rank(r[i]) == 3
  {
    if MarkersShown(saved, blinkVisible, viewport) then
      var s := saved.value;
      seq(|s.keys|, i requires 0 <= i < |s.keys| =>
        assert s.keys[i] in s.entries;
        MarkerFill(s.entries[s.keys[i]], viewport.value, canvas, ts))
    else []
  }

  function HoverFills(hover: Option<Tile>, sel: Option<SelRect>, ts: real): (r: seq<Shape>)
    ensures forall i :: 0 <= i < |r| ==> Rank(r[i]) == 4
  {
    if hover.Some? && sel.None? then [TileFill(HoverFill, hover.value, ts)] else []
  }

  /** The shapes `drawGrid` paints, in painting order. */
  function DrawGrid(canvas: Canvas, scale: real, hover: Option<Tile>, sel: Option<SelRect>,
                    saved: Option<Store>, blinkVisible: bool, viewport: Option<Viewport>): (r: seq<Shape>)
    requires scale > 0.0
    requires saved.Some? ==> Valid(saved.value)
    requires MarkersShown(saved, blinkVisible, viewport) ==> ValidViewport(viewport.value)
    ensures forall i, j :: 0 <= i < j < |r| ==> Rank(r[i]) <= Rank(r[j])
  {
    var ts := TileSize(scale);
    var v := VLines(ts, canvas);
    var h := HLines(ts, canvas);
    var s := SelectionFills(sel, ts);
    var m := MarkerFills(saved, blinkVisible, viewport, canvas, ts);
    var o := HoverFills(hover, sel, ts);
    var r := v + h + s + m + o;
    assert forall i :: 0 <= i < |r| ==>
      Rank(r[i]) == if i < |v| then 0
                    else if i < |v| + |h| then 1
                    else if i < |v| + |h| + |s| then 2
                    else if i < |v| + |h| + |s| + |m| then 3
                    else 4;
    r
  }

  // ---------------------------------------------------------------------
  // Reading a plan layer by layer

  /** The shapes of one paint rank, in plan order. */
  function Pick(plan: seq<Shape>, rank: nat): seq<Shape> {
    if |plan| == 0 then []
    else (if Rank(plan[0]) == rank then [plan[0]] else []) + Pick(plan[1..], rank)
  }

  lemma {:induction false} PickConcat(a: seq<Shape>, b: seq<Shape>, rank: nat)
    ensures Pick(a + b, rank) == Pick(a, rank) + Pick(b, rank)
    decreases |a|
  {
    if |a| > 0 {
      assert (a + b)[1..] == a[1..] + b;
      PickConcat(a[1..], b, rank);
    } else {
      assert a + b == b;
    }
  }

  lemma {:induction false} PickUniform(a: seq<Shape>, k: nat, rank: nat)
    requires forall i :: 0 <= i < |a| ==> Rank(a[i]) == k
    ensures Pick(a, rank) == if rank == k then a else []
    decreases |a|
  {
    if |a| > 0 {
      PickUniform(a[1..], k, rank);
      if rank == k {
        assert a == [a[0]] + a[1..];
      }
    }
  }

  /** Picking one rank out of five uniformly ranked blocks laid end to end
      gives back the block of that rank. */
  lemma PickLayers(v: seq<Shape>, h: seq<Shape>, s: seq<Shape>, m: seq<Shape>, o: seq<Shape>, rank: nat)
    requires forall i :: 0 <= i < |v| ==> Rank(v[i]) == 0
    requires forall i :: 0 <= i < |h| ==> Rank(h[i]) == 1
    requires forall i :: 0 <= i < |s| ==> Rank(s[i]) == 2
    requires forall i :: 0 <= i < |m| ==> Rank(m[i]) == 3
    requires forall i :: 0 <= i < |o| ==> Rank(o[i]) == 4
    ensures Pick(v + h + s + m + o, rank) ==
              if rank == 0 then v else if rank == 1 then h else if rank == 2 then s
              else if rank == 3 then m else if rank == 4 then o else []
  {
    PickConcat(v + h + s + m, o, rank);
    PickConcat(v + h + s, m, rank);
    PickConcat(v + h, s, rank);
    PickConcat(v, h, rank);
    PickUniform(v, 0, rank);
    PickUniform(h, 1, rank);
    PickUniform(s, 2, rank);
    PickUniform(m, 3, rank);
    PickUniform(o, 4, rank);
  }

  /** `drawGrid`'s plan, read layer by layer, is the five blocks it paints. */
  lemma DrawGridSplit(canvas: Canvas, scale: real, hover: Option<Tile>, sel: Option<SelRect>,
                      saved: Option<Store>, blinkVisible: bool, viewport: Option<Viewport>)
    requires scale > 0.0
    requires saved.Some? ==> Valid(saved.value)
    requires MarkersShown(saved, blinkVisible, viewport) ==> ValidViewport(viewport.value)
    ensures var plan := DrawGrid(canvas, scale, hover, sel, saved, blinkVisible, viewport);
            var ts := TileSize(scale);
            && Pick(plan, 0) == VLines(ts, canvas)
            && Pick(plan, 1) == HLines(ts, canvas)
            && Pick(plan, 2) == SelectionFills(sel, ts)
            && Pick(plan, 3) == MarkerFills(saved, blinkVisible, viewport, canvas, ts)
            && Pick(plan, 4) == HoverFills(hover, sel, ts)
  {
    var ts := TileSize(scale);
    var v := VLines(ts, canvas);
    var h := HLines(ts, canvas);
    var s := SelectionFills(sel, ts);
    var m := MarkerFills(saved, blinkVisible, viewport, canvas, ts);
    var o := HoverFills(hover, sel, ts);
    PickLayers(v, h, s, m, o, 0);
    PickLayers(v, h, s, m, o, 1);
    PickLayers(v, h, s, m, o, 2);
    PickLayers(v, h, s, m, o, 3);
    PickLayers(v, h, s, m, o, 4);
  }

  /** Grid lines: vertical lines at every multiple of the tile size from 0
      up to the canvas width and no further, spanning the height; horizontal
      lines likewise. */
  lemma DrawGridLines(canvas: Canvas, scale: real, hover: Option<Tile>, sel: Option<SelRect>,
                      saved: Option<Store>, blinkVisible: bool, viewport: Option<Viewport>)
    requires scale > 0.0
    requires saved.Some? ==> Valid(saved.value)
    requires MarkersShown(saved, blinkVisible, viewport) ==> ValidViewport(viewport.value)
    ensures var plan := DrawGrid(canvas, scale, hover, sel, saved, blinkVisible, viewport);
            var ts := TileSize(scale);
            && |Pick(plan, 0)| == LineCount(ts, canvas.width as real)
            && (forall i :: 0 <= i < |Pick(plan, 0)| ==> Pick(plan, 0)[i] == VLine(i as real * ts, canvas.height as real))
            && |Pick(plan, 1)| == LineCount(ts, canvas.height as real)
            && (forall i :: 0 <= i < |Pick(plan, 1)| ==> Pick(plan, 1)[i] == HLine(i as real * ts, canvas.width as real))
  {
    DrawGridSplit(canvas, scale, hover, sel, saved, blinkVisible, viewport);
    var ts := TileSize(scale);
    var v := VLines(ts, canvas);
    var h := HLines(ts, canvas);
    assert |v| == LineCount(ts, canvas.width as real);
    assert |h| == LineCount(ts, canvas.height as real);
  }

  /** Selection layer: one fill for each tile between the two corners, no
      tile twice, and none when there is no selection. */
  lemma DrawGridSelection(canvas: Canvas, scale: real, hover: Option<Tile>, sel: Option<SelRect>,
                          saved: Option<Store>, blinkVisible: bool, viewport: Option<Viewport>)
    requires scale > 0.0
    requires saved.Some? ==> Valid(saved.value)
    requires MarkersShown(saved, blinkVisible, viewport) ==> ValidViewport(viewport.value)
    ensures var plan := DrawGrid(canvas, scale, hover, sel, saved, blinkVisible, viewport);
            && (forall t :: TileFill(SelectionFill, t, TileSize(scale)) in Pick(plan, 2) <==>
                              sel.Some? && InSelection(t, sel.value))
            && (forall i, j :: 0 <= i < j < |Pick(plan, 2)| ==> Pick(plan, 2)[i] != Pick(plan, 2)[j])
            && (sel.None? ==> Pick(plan, 2) == [])
  {
    DrawGridSplit(canvas, scale, hover, sel, saved, blinkVisible, viewport);
    if sel.Some? {
      SelectionFillsExact(sel.value, TileSize(scale));
    }
  }

  /** Marker layer: when markers are shown, one tile-sized fill per stored
      entry, in key order, at the entry's intrinsic position scaled to the
      canvas; otherwise none. */
  lemma DrawGridMarkers(canvas: Canvas, scale: real, hover: Option<Tile>, sel: Option<SelRect>,
                        saved: Option<Store>, blinkVisible: bool, viewport: Option<Viewport>)
    requires scale > 0.0
    requires saved.Some? ==> Valid(saved.value)
    requires MarkersShown(saved, blinkVisible, viewport) ==> ValidViewport(viewport.value)
    ensures var plan := DrawGrid(canvas, scale, hover, sel, saved, blinkVisible, viewport);
            && |Pick(plan, 3)| == (if MarkersShown(saved, blinkVisible, viewport) then |saved.value.entries| else 0)
            && (MarkersShown(saved, blinkVisible, viewport) ==>
                  |Pick(plan, 3)| == |saved.value.keys| &&
                  forall i :: 0 <= i < |saved.value.keys| ==>
                    saved.value.keys[i] in saved.value.entries &&
                    Pick(plan, 3)[i] == MarkerFill(saved.value.entries[saved.value.keys[i]], viewport.value,
                                                   canvas, TileSize(scale)))
  {
    DrawGridSplit(canvas, scale, hover, sel, saved, blinkVisible, viewport);
    if MarkersShown(saved, blinkVisible, viewport) {
      OrderCoversEntries(saved.value);
    }
  }

  /** Hover layer: the hovered tile's fill exactly when a tile is hovered
      and no selection is passed. */
  lemma DrawGridHover(canvas: Canvas, scale: real, hover: Option<Tile>, sel: Option<SelRect>,
                      saved: Option<Store>, blinkVisible: bool, viewport: Option<Viewport>)
    requires scale > 0.0
    requires saved.Some? ==> Valid(saved.value)
    requires MarkersShown(saved, blinkVisible, viewport) ==> ValidViewport(viewport.value)
    ensures var plan := DrawGrid(canvas, scale, hover, sel, saved, blinkVisible, viewport);
            Pick(plan, 4) == (if hover.Some? && sel.None? then [TileFill(HoverFill, hover.value, TileSize(scale))] else [])
  {
    DrawGridSplit(canvas, scale, hover, sel, saved, blinkVisible, viewport);
  }

  /** A tile's fill square identifies the tile. */
  lemma TileFillInjective(t: Tile, u: Tile, layer: Layer, ts: real)
    requires ts > 0.0
    ensures TileFill(layer, t, ts) == TileFill(layer, u, ts) <==> t == u
  {
    if TileFill(layer, t, ts) == TileFill(layer, u, ts) {
      MulCancel(t.col as real, u.col as real, ts);
      MulCancel(t.row as real, u.row as real, ts);
    }
  }

  /** The selection layer fills exactly the tiles between the two corners,
      each of them once (a translucent fill painted twice would look darker). */
  lemma SelectionFillsExact(sel: SelRect, ts: real)
    requires ts > 0.0
    ensures forall t :: TileFill(SelectionFill, t, ts) in SelectionFills(Some(sel), ts) <==> InSelection(t, sel)
    ensures var fills := SelectionFills(Some(sel), ts);
            forall i, j :: 0 <= i < j < |fills| ==> fills[i] != fills[j]
  {
    var tiles := SelectionTiles(sel);
    var fills := SelectionFills(Some(sel), ts);
    forall i, j | 0 <= i < j < |fills| ensures fills[i] != fills[j] {
      TileFillInjective(tiles[i], tiles[j], SelectionFill, ts);
    }
    forall t ensures TileFill(SelectionFill, t, ts) in fills <==> InSelection(t, sel) {
      if TileFill(SelectionFill, t, ts) in fills {
        var i :| 0 <= i < |fills| && fills[i] == TileFill(SelectionFill, t, ts);
        TileFillInjective(tiles[i], t, SelectionFill, ts);
        assert tiles[i] == t;
      }
      if InSelection(t, sel) {
        var i :| 0 <= i < |tiles| && tiles[i] == t;
        assert fills[i] == TileFill(SelectionFill, t, ts);
      }
    }
  }

  // ---------------------------------------------------------------------
  // Hover and selection state

  /** `handleMouseHover`: the tile under the pointer is recorded and
      returned only when there is no selection and it differs from the
      last hovered tile; otherwise nothing changes and nothing is returned. */
  function HandleMouseHover(st: OverlayState, scale: real, pointer: Point, origin: Point)
    : (r: (OverlayState, Option<Tile>))
    requires scale > 0.0
    ensures var t := TileAtPoint(scale, pointer, origin);
            r.1.Some? <==> st.selection.None? && st.lastHovered != Some(t)
    ensures r.1.Some? ==> r.1 == Some(TileAtPoint(scale, pointer, origin)) && r.0 == st.(lastHovered := r.1)
    ensures r.1.None? ==> r.0 == st
  {
    var t := TileAtPoint(scale, pointer, origin);
    if st.selection.None? && (st.lastHovered.None? || st.lastHovered.value.col != t.col || st.lastHovered.value.row != t.row)
    then (st.(lastHovered := Some(t)), Some(t))
    else (st, None)
  }

  function ResetHover(st: OverlayState): (r: OverlayState)
    ensures r.lastHovered.None? && r.selection == st.selection
  {
    st.(lastHovered := None)
  }

  function SetSelectionRect(st: OverlayState, rect: SelRect): (r: OverlayState)
    ensures r.selection == Some(rect) && r.lastHovered == st.lastHovered
  {
    st.(selection := Some(rect))
  }

  function ClearSelectionRect(st: OverlayState): (r: OverlayState)
    ensures r.selection.None? && r.lastHovered == st.lastHovered
  {
    st.(selection := None)
  }

  /** Hovering twice over the same tile reports it once. */
  lemma HoverReportsChangeOnce(st: OverlayState, scale: real, p: Point, q: Point, origin: Point)
    requires scale > 0.0
    requires TileAtPoint(scale, p, origin) == TileAtPoint(scale, q, origin)
    ensures var first := HandleMouseHover(st, scale, p, origin);
            var second := HandleMouseHover(first.0, scale, q, origin);
            second.1.None? && second.0 == first.0
  {
  }

  /** While a selection is set, hovering reports nothing and changes nothing. */
  lemma SelectionSuppressesHover(st: OverlayState, rect: SelRect, scale: real, p: Point, origin: Point)
    requires scale > 0.0
    ensures var s := SetSelectionRect(st, rect);
            HandleMouseHover(s, scale, p, origin) == (s, None)
  {
  }

  /** After a reset (and with no selection) the next hover always reports its tile. */
  lemma HoverAfterReset(st: OverlayState, scale: real, p: Point, origin: Point)
    requires scale > 0.0
    requires st.selection.None?
    ensures HandleMouseHover(ResetHover(st), scale, p, origin).1 == Some(TileAtPoint(scale, p, origin))
  {
  }

  /** Setting a selection and clearing it again restores hover behaviour:
      the next hover acts as if the selection had never been set. */
  lemma ClearSelectionRestoresHover(st: OverlayState, rect: SelRect, scale: real, p: Point, origin: Point)
    requires scale > 0.0
    requires st.selection.None?
    ensures HandleMouseHover(ClearSelectionRect(SetSelectionRect(st, rect)), scale, p, origin)
            == HandleMouseHover(st, scale, p, origin)
  {
  }
}
