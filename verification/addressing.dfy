/** Scale-invariant cell addressing: the on-screen tile grid at a zoom
    factor, the tile under a point, and the conversion between a tile's
    top-left pixel and the document's intrinsic (PDF) coordinates. */
module Addressing {
  import opened Wrappers
  import opened JsMath
  import opened Keys

  /** Tile edge in canvas pixels at zoom 1 (both source files use 100). */
  const BaseTileSize: real := 100.0
  /** Smallest tile edge the overlay draws and hit-tests with. */
  const MinTileSize: real := 5.0

  datatype Tile = Tile(row: int, col: int)

  datatype Point = Point(x: real, y: real)

  /** What the renderer reports for a page at a zoom factor: its pixel size
      and its intrinsic bounding box `[x0, y0, x1, y1]` (the viewBox). */
  datatype Viewport = Viewport(width: real, height: real, x0: real, y0: real, x1: real, y1: real)

  /** Pixel size of a canvas; HTML canvas dimensions are whole numbers. */
  datatype Canvas = Canvas(width: int, height: int)

  /** A viewport of a real page at a positive zoom: a positive pixel size
      (possibly under one pixel) and a non-degenerate box. */
  predicate ValidViewport(vp: Viewport) {
    vp.width > 0.0 && vp.height > 0.0 && vp.x1 > vp.x0 && vp.y1 > vp.y0
  }

  /** A canvas with at least one pixel each way. */
  predicate HasArea(c: Canvas) {
    c.width > 0 && c.height > 0
  }

  function IntrinsicWidth(vp: Viewport): real { vp.x1 - vp.x0 }
  function IntrinsicHeight(vp: Viewport): real { vp.y1 - vp.y0 }

  /** Assigning the viewport's fractional size to a canvas truncates it;
      a viewport under one pixel wide or high leaves a side of zero. */
  function CanvasFor(vp: Viewport): (c: Canvas)
    requires ValidViewport(vp)
    ensures 0 <= c.width && c.width as real <= vp.width < c.width as real + 1.0
    ensures 0 <= c.height && c.height as real <= vp.height < c.height as real + 1.0
    ensures HasArea(c) <==> vp.width >= 1.0 && vp.height >= 1.0
  {
    Canvas(Floor(vp.width), Floor(vp.height))
  }

  /** The tile edge the intrinsic-coordinate computation uses: no clamp. */
  function RawTileSize(scale: real): real
    requires scale > 0.0
  {
    BaseTileSize / scale
  }

  /** The tile edge the overlay draws and hit-tests with: `100/scale`, but
      never below 5 pixels. */
  function TileSize(scale: real): (ts: real)
    requires scale > 0.0
    ensures ts >= MinTileSize
  {
    var ts := RawTileSize(scale);
    if ts < MinTileSize then MinTileSize else ts
  }

  /** The tile containing a point of canvas-local pixel space. */
  function TileAt(p: Point, ts: real): Tile
    requires ts > 0.0
  {
    Tile(Floor(p.y / ts), Floor(p.x / ts))
  }

  /** The tile under a pointer position, given the canvas's on-screen
      top-left corner `origin` (the bounding rectangle's left and top): the
      one whose clamped square holds the canvas-local point. */
  function TileAtPoint(scale: real, pointer: Point, origin: Point): (t: Tile)
    requires scale > 0.0
    ensures var ts := TileSize(scale);
            && t.col as real * ts <= pointer.x - origin.x < (t.col + 1) as real * ts
            && t.row as real * ts <= pointer.y - origin.y < (t.row + 1) as real * ts
  {
    var p := Point(pointer.x - origin.x, pointer.y - origin.y);
    var t := TileAt(p, TileSize(scale));
    TileAtBand(p, TileSize(scale), t);
    t
  }

  function TopLeft(t: Tile, ts: real): Point {
    Point(t.col as real * ts, t.row as real * ts)
  }

  /** Intrinsic coordinates of a tile's top-left corner: the corner at the
      unclamped tile size, as a fraction of the canvas, times the viewBox
      extent, so that drawing them back with the same viewport and canvas
      gives that corner. Without a viewport the result is the origin. */
  function IntrinsicOf(t: Tile, scale: real, viewport: Option<Viewport>, canvas: Canvas): (p: Point)
    requires scale > 0.0
    requires viewport.Some? ==> HasArea(canvas)
    ensures viewport.None? ==> p == Point(0.0, 0.0)
    ensures viewport.Some? && ValidViewport(viewport.value) ==>
              MarkerPixel(p.x, p.y, viewport.value, canvas) == TopLeft(t, RawTileSize(scale))
  {
    match viewport
    case None => Point(0.0, 0.0)
    case Some(vp) =>
      var corner := TopLeft(t, RawTileSize(scale));
      var w := canvas.width as real;
      var h := canvas.height as real;
      ScaleBack(corner.x, w, IntrinsicWidth(vp));
      ScaleBack(corner.y, h, IntrinsicHeight(vp));
      Point(corner.x / w * IntrinsicWidth(vp), corner.y / h * IntrinsicHeight(vp))
  }

  /** Dividing by one non-zero factor and multiplying by another is undone
      by the reverse. */
  lemma ScaleBack(v: real, d: real, w: real)
    ensures d != 0.0 && w != 0.0 ==> v / d * w / w * d == v
  {
  }

  /** The key of an intrinsic point: its two coordinates rounded. */
  function PointKey(p: Point): string {
    KeyOf(Round(p.x), Round(p.y))
  }

  /** Where a saved marker is drawn: the inverse of `IntrinsicOf`'s scaling,
      with the current canvas and viewport, so that the pixel maps back to
      the marker's intrinsic coordinates whenever the canvas has area. */
  function MarkerPixel(ix: real, iy: real, vp: Viewport, canvas: Canvas): (m: Point)
    requires ValidViewport(vp)
    ensures HasArea(canvas) ==> PixelToIntrinsic(m, vp, canvas) == Point(ix, iy)
  {
    var w := canvas.width as real;
    var h := canvas.height as real;
    ScaleBack(ix, IntrinsicWidth(vp), w);
    ScaleBack(iy, IntrinsicHeight(vp), h);
    Point(ix / IntrinsicWidth(vp) * w, iy / IntrinsicHeight(vp) * h)
  }

  /** Pixel position to intrinsic position, the direction `IntrinsicOf` takes. */
  function PixelToIntrinsic(p: Point, vp: Viewport, canvas: Canvas): Point
    requires HasArea(canvas)
  {
    Point(p.x / canvas.width as real * IntrinsicWidth(vp),
          p.y / canvas.height as real * IntrinsicHeight(vp))
  }

  // ---------------------------------------------------------------------
  // Tile size

  /** The overlay's tile edge is the larger of 5 and `100/scale`, and it
      differs from the unclamped edge exactly when the zoom exceeds 20. */
  lemma TileSizeClamp(scale: real)
    requires scale > 0.0
    ensures TileSize(scale) == Max(MinTileSize, BaseTileSize / scale)
    ensures TileSize(scale) == RawTileSize(scale) <==> scale <= 20.0
  {
    if scale <= 20.0 {
      assert BaseTileSize / scale >= 100.0 / 20.0;
    } else {
      assert BaseTileSize / scale * scale == 100.0;
    }
  }

  // ---------------------------------------------------------------------
  // Tiles and pixels

  /** `Floor(v / ts)` is `c` exactly on the half-open band `[c*ts, (c+1)*ts)`. */
  lemma FloorDivBand(v: real, ts: real, c: int)
    requires ts > 0.0
    ensures Floor(v / ts) == c <==> c as real * ts <= v < (c + 1) as real * ts
  {
    var q := v / ts;
    DivBound(c as real, v, ts);
    DivBound((c + 1) as real, v, ts);
    var n := Floor(q);
    if c as real <= q < (c + 1) as real {
      assert n < c + 1 && c < n + 1;
    }
  }

  /** Comparing with a quotient by a positive divisor is comparing with
      the product. */
  lemma DivBound(a: real, v: real, k: real)
    requires k > 0.0
    ensures a <= v / k <==> a * k <= v
  {
    var q := v / k;
    assert q * k == v;
    if a <= q {
      assert (q - a) * k >= 0.0;
    } else {
      assert (a - q) * k > 0.0;
    }
  }

  /** A positive factor can be cancelled from both sides. */
  lemma MulCancel(a: real, b: real, k: real)
    requires k > 0.0
    ensures a * k == b * k <==> a == b
  {
    if a != b {
      assert (a - b) * k != 0.0;
    }
  }

  /** A point falls in tile `t` exactly when it lies in `t`'s square. */
  lemma TileAtBand(p: Point, ts: real, t: Tile)
    requires ts > 0.0
    ensures TileAt(p, ts) == t <==>
              && t.col as real * ts <= p.x < (t.col + 1) as real * ts
              && t.row as real * ts <= p.y < (t.row + 1) as real * ts
  {
    FloorDivBand(p.x, ts, t.col);
    FloorDivBand(p.y, ts, t.row);
  }

  /** A tile's top-left corner hit-tests back to that tile. */
  lemma TopLeftRoundTrip(t: Tile, ts: real)
    requires ts > 0.0
    ensures TileAt(TopLeft(t, ts), ts) == t
  {
    TileAtBand(TopLeft(t, ts), ts, t);
  }

  // ---------------------------------------------------------------------
  // Intrinsic coordinates and markers

  /** A pixel sent to intrinsic space and back is unchanged: the converse
      of `MarkerPixel`'s own guarantee. */
  lemma IntrinsicInvertsMarker(p: Point, vp: Viewport, canvas: Canvas)
    requires ValidViewport(vp) && HasArea(canvas)
    ensures var q := PixelToIntrinsic(p, vp, canvas); MarkerPixel(q.x, q.y, vp, canvas) == p
  {
    var w := canvas.width as real;
    var h := canvas.height as real;
    var iw := IntrinsicWidth(vp);
    var ih := IntrinsicHeight(vp);
    assert p.x / w * iw / iw * w == p.x;
    assert p.y / h * ih / ih * h == p.y;
  }

  /** The marker for a tile's unrounded intrinsic coordinates lands on the
      tile's top-left pixel as drawn, exactly when the zoom is at most 20
      (no clamp) or the tile is the one at the origin. */
  lemma MarkerOnTileIff(t: Tile, scale: real, vp: Viewport, canvas: Canvas)
    requires scale > 0.0
    requires ValidViewport(vp) && HasArea(canvas)
    ensures var p := IntrinsicOf(t, scale, Some(vp), canvas);
            MarkerPixel(p.x, p.y, vp, canvas) == TopLeft(t, TileSize(scale))
            <==> scale <= 20.0 || t == Tile(0, 0)
  {
    var raw := RawTileSize(scale);
    var p := IntrinsicOf(t, scale, Some(vp), canvas);
    IntrinsicInvertsMarker(TopLeft(t, raw), vp, canvas);
    assert MarkerPixel(p.x, p.y, vp, canvas) == TopLeft(t, raw);
    TileSizeClamp(scale);
    if scale > 20.0 && t != Tile(0, 0) {
      var ts := TileSize(scale);
      assert raw != ts;
      if t.col != 0 {
        assert t.col as real * raw != t.col as real * ts;
      } else {
        assert t.row as real * raw != t.row as real * ts;
      }
    }
  }

  /** Rounding the intrinsic coordinates before saving moves the marker by
      at most half an intrinsic unit, scaled to canvas pixels, on each axis. */
  lemma RoundedMarkerNear(ix: real, iy: real, vp: Viewport, canvas: Canvas)
    requires ValidViewport(vp) && HasArea(canvas)
    ensures var exact := MarkerPixel(ix, iy, vp, canvas);
            var saved := MarkerPixel(Round(ix) as real, Round(iy) as real, vp, canvas);
            && Abs(saved.x - exact.x) <= 0.5 * canvas.width as real / IntrinsicWidth(vp)
            && Abs(saved.y - exact.y) <= 0.5 * canvas.height as real / IntrinsicHeight(vp)
  {
    var rx := Round(ix) as real;
    var ry := Round(iy) as real;
    var w := canvas.width as real;
    var h := canvas.height as real;
    var iw := IntrinsicWidth(vp);
    var ih := IntrinsicHeight(vp);
    var exact := MarkerPixel(ix, iy, vp, canvas);
    var saved := MarkerPixel(rx, ry, vp, canvas);
    assert exact.x == ix / iw * w && exact.y == iy / ih * h;
    assert saved.x == rx / iw * w && saved.y == ry / ih * h;
    ScaledErrorBound(rx, ix, iw, w);
    ScaledErrorBound(ry, iy, ih, h);
  }

  /** An error of at most one half, divided by `d` and scaled by `w`. */
  lemma ScaledErrorBound(r: real, x: real, d: real, w: real)
    requires d > 0.0 && w > 0.0
    requires -0.5 <= r - x <= 0.5
    ensures Abs(r / d * w - x / d * w) <= 0.5 * w / d
  {
    var k := w / d;
    var e := r / d * w - x / d * w;
    assert e == (r - x) * k;
    assert k > 0.0;
    assert (0.5 - (r - x)) * k >= 0.0;
    assert ((r - x) + 0.5) * k >= 0.0;
  }

  /** At the zoom levels where the two tile sizes agree, the saved marker
      of a cell sits on that cell (before its coordinates are rounded). */
  lemma MarkerLandsOnTile(t: Tile, scale: real, vp: Viewport, canvas: Canvas)
    requires 0.0 < scale <= 20.0
    requires ValidViewport(vp) && HasArea(canvas)
    ensures var p := IntrinsicOf(t, scale, Some(vp), canvas);
            TileAt(MarkerPixel(p.x, p.y, vp, canvas), TileSize(scale)) == t
  {
    MarkerOnTileIff(t, scale, vp, canvas);
    TopLeftRoundTrip(t, TileSize(scale));
  }

  /** Rounding can carry the saved marker out of its tile, in the state a
      render at zoom 4 settles in: a page 612 units wide is drawn 2448
      pixels wide, tile (0, 1) has intrinsic x 6.25, which is saved as 6
      and drawn at 24 pixels, inside tile (0, 0). */
  lemma RoundedMarkerMayMissTile(vp: Viewport)
    requires ValidViewport(vp) && vp.height >= 1.0
    requires IntrinsicWidth(vp) == 612.0 && vp.width == IntrinsicWidth(vp) * 4.0
    ensures var canvas := CanvasFor(vp);
            var p := IntrinsicOf(Tile(0, 1), 4.0, Some(vp), canvas);
            var m := MarkerPixel(Round(p.x) as real, Round(p.y) as real, vp, canvas);
            && canvas.width == 2448
            && TileAt(MarkerPixel(p.x, p.y, vp, canvas), TileSize(4.0)) == Tile(0, 1)
            && TileAt(m, TileSize(4.0)) == Tile(0, 0)
  {
    var canvas := CanvasFor(vp);
    assert canvas.width == 2448 by {
      assert vp.width == 2448.0;
      assert Floor(2448.0) == 2448;
    }
    var p := IntrinsicOf(Tile(0, 1), 4.0, Some(vp), canvas);
    CounterexampleIntrinsic(vp, canvas);
    RoundUnique(6.25, 6);
    RoundHalfUp(0);
    MarkerLandsOnTile(Tile(0, 1), 4.0, vp, canvas);
    CounterexampleMarker(vp, canvas);
  }

  lemma CounterexampleIntrinsic(vp: Viewport, canvas: Canvas)
    requires ValidViewport(vp) && IntrinsicWidth(vp) == 612.0 && canvas.width == 2448 && canvas.height > 0
    ensures IntrinsicOf(Tile(0, 1), 4.0, Some(vp), canvas) == Point(6.25, 0.0)
  {
    assert RawTileSize(4.0) == 25.0;
    assert TopLeft(Tile(0, 1), 25.0) == Point(25.0, 0.0);
  }

  lemma CounterexampleMarker(vp: Viewport, canvas: Canvas)
    requires ValidViewport(vp) && IntrinsicWidth(vp) == 612.0 && canvas.width == 2448
    ensures TileAt(MarkerPixel(6.0, 0.0, vp, canvas), TileSize(4.0)) == Tile(0, 0)
  {
    var m := MarkerPixel(6.0, 0.0, vp, canvas);
    assert m.x == 6.0 / 612.0 * 2448.0 == 24.0;
    assert m.y == 0.0 / IntrinsicHeight(vp) * canvas.height as real;
    assert TileSize(4.0) == 25.0;
    TileAtBand(m, 25.0, Tile(0, 0));
  }

  /** A viewport under one pixel each way (a typed zoom of 0.1% shows a
      612 by 792 point page at 0.612 by 0.792 pixels) truncates to a canvas
      with no area, and every marker is then drawn at the canvas origin. */
  lemma SubPixelViewportEmptiesCanvas(vp: Viewport, ix: real, iy: real)
    requires ValidViewport(vp) && vp.width < 1.0 && vp.height < 1.0
    ensures CanvasFor(vp) == Canvas(0, 0) && !HasArea(CanvasFor(vp))
    ensures MarkerPixel(ix, iy, vp, CanvasFor(vp)) == Point(0.0, 0.0)
  {
  }

  // ---------------------------------------------------------------------
  // Keys of intrinsic points

  /** Two intrinsic points share a key exactly when both coordinates round
      to the same integers: the quantisation is the only collision. */
  lemma PointKeyIff(p: Point, q: Point)
    ensures PointKey(p) == PointKey(q) <==> Round(p.x) == Round(q.x) && Round(p.y) == Round(q.y)
  {
    KeyInjective(Round(p.x), Round(p.y), Round(q.x), Round(q.y));
  }

  /** Points closer than half a unit on both axes may still get different
      keys when they straddle a rounding boundary. */
  lemma NearbyPointsMayDiffer()
    ensures var p := Point(0.49, 0.0);
            var q := Point(0.51, 0.0);
            Abs(p.x - q.x) < 0.5 && PointKey(p) != PointKey(q)
  {
    RoundUnique(0.49, 0);
    RoundUnique(0.51, 1);
    PointKeyIff(Point(0.49, 0.0), Point(0.51, 0.0));
  }

  /** A concrete cell at zoom 4 (tiles of 25 pixels): the pointer at
      (130, 40) over a canvas at the page origin is tile (1, 5); with a
      viewBox of 800 by 600 drawn on a 1000 by 750 canvas its corner
      (125, 25) is intrinsic (100, 20), key "100-20". */
  lemma WorkedExample()
    ensures TileAtPoint(4.0, Point(130.0, 40.0), Point(0.0, 0.0)) == Tile(1, 5)
    ensures IntrinsicOf(Tile(1, 5), 4.0, Some(Viewport(1000.0, 750.0, 0.0, 0.0, 800.0, 600.0)), Canvas(1000, 750))
            == Point(100.0, 20.0)
    ensures PointKey(Point(100.0, 20.0)) == "100-20"
  {
    assert TileSize(4.0) == 25.0;
    FloorDivBand(130.0 / 1.0, 25.0, 5);
    FloorDivBand(40.0, 25.0, 1);
    assert RawTileSize(4.0) == 25.0;
    assert TopLeft(Tile(1, 5), 25.0) == Point(125.0, 25.0);
    assert 125.0 / 1000.0 * 800.0 == 100.0 && 25.0 / 750.0 * 600.0 == 20.0;
    RoundHalfUp(100);
    RoundHalfUp(20);
    assert NatStr(100) == NatStr(10) + "0";
    assert NatStr(20) == "20";
  }
}
