/**
 * The pixel buffers of both programs and their drawing primitives.
 *
 * main.normless.c's t_sdl_canvas and main.c's fixed 640 x 480 screen are both
 * row-major RGBA byte arrays, and the two files draw lines, rectangles and
 * circles with the same loops; they differ only in screen_draw_pixel, which
 * alpha-composites in main.normless.c and overwrites in main.c. A canvas
 * therefore carries its pixel-write mode. The module ends with update_canvas,
 * which composites a canvas onto the window buffer with an integer scale.
 */
module Canvas {
  import opened Raster

  class Canvas {
    const width: int
    const height: int
    /** Window pixels per canvas pixel edge (update_canvas); main.c's screen has 1. */
    const scale: int
    /** Blend for main.normless.c's canvases, Overwrite for main.c's screen. */
    const mode: Mode
    /** The RGBA bytes, row-major, width * height * 4 of them. */
    const pixels: array<byte>

    ghost predicate Valid()
    {
      width > 0 && height > 0 && scale >= 1 && pixels.Length == width * height * 4
    }

    constructor (width: int, height: int, scale: int, mode: Mode)
      requires width > 0 && height > 0 && scale >= 1
      ensures Valid() && fresh(pixels)
      ensures this.width == width && this.height == height && this.scale == scale && this.mode == mode
    {
      this.width := width;
      this.height := height;
      this.scale := scale;
      this.mode := mode;
      pixels := new byte[width * height * 4];
    }

    /**
     * Fills the canvas with opaque black, as main.c's init and main.normless.c's
     * init, update_minimap and update_screen do.
     */
    method Clear()
      requires Valid()
      modifies pixels
      ensures pixels[..] == Cleared(pixels.Length)
    {
      var i := 0;
      while i < width * height * 4
        invariant 0 <= i <= pixels.Length
        invariant forall j :: 0 <= j < i ==> pixels[j] == if j % 4 == 3 then 255 else 0
      {
        pixels[i] := if i % 4 == 3 then 255 else 0;
        i := i + 1;
      }
    }

    /**
     * screen_draw_pixel. main.normless.c blends `c` over pixel `p` when the
     * pixel's first and last byte offsets are inside the canvas; main.c checks
     * each of the four byte offsets on its own and overwrites.
     */
    method DrawPixel(p: Point, c: Color)
      requires Valid()
      modifies pixels
      ensures pixels[..] == Plot(mode, old(pixels[..]), width, p, c)
    {
      var size := width * height * 4;
      var index := (p.y * width + p.x) * 4;
      if mode == Blend {
        if index >= 0 && index + 3 < size {
          var pr, pg, pb, pa := pixels[index], pixels[index + 1], pixels[index + 2], pixels[index + 3];
          pixels[index] := BlendChannel(pr, c.r, c.a);
          pixels[index + 1] := BlendChannel(pg, c.g, c.a);
          pixels[index + 2] := BlendChannel(pb, c.b, c.a);
          pixels[index + 3] := BlendAlpha(pa, c.a);
        }
      } else {
        if index >= 0 && index < size {
          pixels[index] := c.r;
        }
        if index + 1 >= 0 && index + 1 < size {
          pixels[index + 1] := c.g;
        }
        if index + 2 >= 0 && index + 2 < size {
          pixels[index + 2] := c.b;
        }
        if index + 3 >= 0 && index + 3 < size {
          pixels[index + 3] := c.a;
        }
        assert pixels[..] == Put(old(pixels[..]), index, c);
        assert size % 4 == 0;
        PutIsPlot(old(pixels[..]), width, p, c);
      }
    }

    /** The body of screen_draw_line's loop: the pixel at the truncated running position. */
    method DrawLinePixel(x: int, y: int, dx: int, dy: int, m: int, ghost n: nat, c: Color)
      requires Valid() && m > 0 && n > 0
      modifies pixels
      ensures Paint(mode, pixels[..], width, LineFrom(x + dx, y + dy, dx, dy, m, n - 1), c)
           == Paint(mode, old(pixels[..]), width, LineFrom(x, y, dx, dy, m, n), c)
    {
      PaintLineStep(mode, pixels[..], width, x, y, dx, dy, m, n, c);
      DrawPixel(Point(TruncDiv(x, m), TruncDiv(y, m)), c);
    }

    /**
     * screen_draw_line: `steps + 1` pixels from p1 to p2. The running position
     * is kept scaled by `steps`, so each step adds (dx, dy) exactly.
     */
    method DrawLine(p1: Point, p2: Point, c: Color)
      requires Valid()
      modifies pixels
      ensures pixels[..] == Paint(mode, old(pixels[..]), width, LinePoints(p1, p2), c)
    {
      var dx, dy := p2.x - p1.x, p2.y - p1.y;
      var steps := if Abs(dx) > Abs(dy) then Abs(dx) else Abs(dy);
      // With steps == 0 only the first pixel is drawn, so any positive scale will do.
      var m := if steps == 0 then 1 else steps;
      LineStart(p1, p2, steps, m);
      var x, y := p1.x * m, p1.y * m;
      var i := 0;
      ghost var left: nat := steps + 1;
      while i <= steps
        invariant 0 <= i <= steps + 1 && left == steps + 1 - i
        invariant Paint(mode, pixels[..], width, LineFrom(x, y, dx, dy, m, left), c)
               == Paint(mode, old(pixels[..]), width, LinePoints(p1, p2), c)
      {
        DrawLinePixel(x, y, dx, dy, m, left, c);
        x, y := x + dx, y + dy;
        i, left := i + 1, left - 1;
      }
    }

    /** The body of screen_draw_rect's inner loop. */
    method DrawRectCell(p1: Point, p2: Point, c: Color, fill: int, x: int, y: int)
      requires Valid() && p1.x <= x <= p2.x && p1.y <= y <= p2.y
      modifies pixels
      ensures Paint(mode, pixels[..], width, RectRow(p1, p2, fill, y, x + 1), c)
           == Paint(mode, old(pixels[..]), width, RectRow(p1, p2, fill, y, x), c)
    {
      PaintRectRowStep(mode, pixels[..], width, p1, p2, fill, y, x, c);
      if fill == 1 || x == p1.x || x == p2.x || y == p1.y || y == p2.y {
        DrawPixel(Point(x, y), c);
      }
    }

    /** One pass of screen_draw_rect's outer loop: row y, from x == p1.x to p2.x. */
    method DrawRectRow(p1: Point, p2: Point, c: Color, fill: int, y: int)
      requires Valid() && p1.y <= y <= p2.y
      modifies pixels
      ensures pixels[..] == Paint(mode, old(pixels[..]), width, RectRow(p1, p2, fill, y, p1.x), c)
    {
      ghost var goal := Paint(mode, pixels[..], width, RectRow(p1, p2, fill, y, p1.x), c);
      var x := p1.x;
      while x <= p2.x
        invariant p1.x <= x
        invariant Paint(mode, pixels[..], width, RectRow(p1, p2, fill, y, x), c) == goal
        decreases p2.x - x
      {
        DrawRectCell(p1, p2, c, fill, x, y);
        x := x + 1;
      }
    }

    /** screen_draw_rect: the inclusive box from p1 to p2, filled when fill == 1, else its border. */
    method DrawRect(p1: Point, p2: Point, c: Color, fill: int)
      requires Valid()
      modifies pixels
      ensures pixels[..] == Paint(mode, old(pixels[..]), width, RectPoints(p1, p2, fill), c)
    {
      ghost var goal := Paint(mode, pixels[..], width, RectPoints(p1, p2, fill), c);
      var y := p1.y;
      while y <= p2.y
        invariant p1.y <= y
        invariant Paint(mode, pixels[..], width, RectRows(p1, p2, fill, y), c) == goal
        decreases p2.y - y
      {
        PaintRectRowsStep(mode, pixels[..], width, p1, p2, fill, y, c);
        DrawRectRow(p1, p2, c, fill, y);
        y := y + 1;
      }
    }

    /** screen_draw_pixel as the k-th write of a known list of points. */
    method DrawListedPixel(p: Point, c: Color, ghost pts: seq<Point>, ghost k: int)
      requires Valid() && 0 <= k < |pts| && pts[k] == p
      modifies pixels
      ensures Paint(mode, pixels[..], width, pts[k + 1..], c) == Paint(mode, old(pixels[..]), width, pts[k..], c)
    {
      PaintUnfold(mode, pixels[..], width, pts, k, c);
      DrawPixel(p, c);
    }

    /** The eight octant pixels of one unfilled circle iteration. */
    method DrawOctants(center: Point, x: int, y: int, c: Color)
      requires Valid()
      modifies pixels
      ensures pixels[..] == Paint(mode, old(pixels[..]), width, Octants(center, Point(x, y)), c)
    {
      ghost var os := Octants(center, Point(x, y));
      assert os[0..] == os;
      DrawListedPixel(Point(center.x + x, center.y + y), c, os, 0);
      DrawListedPixel(Point(center.x + y, center.y + x), c, os, 1);
      DrawListedPixel(Point(center.x - y, center.y + x), c, os, 2);
      DrawListedPixel(Point(center.x - x, center.y + y), c, os, 3);
      DrawListedPixel(Point(center.x - x, center.y - y), c, os, 4);
      DrawListedPixel(Point(center.x - y, center.y - x), c, os, 5);
      DrawListedPixel(Point(center.x + y, center.y - x), c, os, 6);
      DrawListedPixel(Point(center.x + x, center.y - y), c, os, 7);
      assert os[8..] == [];
    }

    /** The four horizontal lines of one filled circle iteration. */
    method DrawSpans(center: Point, x: int, y: int, c: Color)
      requires Valid()
      modifies pixels
      ensures pixels[..] == Paint(mode, old(pixels[..]), width, Spans(center, Point(x, y)), c)
    {
      var a1, b1 := Point(center.x - x, center.y + y), Point(center.x + x, center.y + y);
      var a2, b2 := Point(center.x - y, center.y + x), Point(center.x + y, center.y + x);
      var a3, b3 := Point(center.x - x, center.y - y), Point(center.x + x, center.y - y);
      var a4, b4 := Point(center.x - y, center.y - x), Point(center.x + y, center.y - x);
      PaintFour(mode, pixels[..], width, LinePoints(a1, b1), LinePoints(a2, b2), LinePoints(a3, b3), LinePoints(a4, b4), c);
      DrawLine(a1, b1, c);
      DrawLine(a2, b2, c);
      DrawLine(a3, b3, c);
      DrawLine(a4, b4, c);
    }

    /** One iteration of screen_draw_circle's loop at offset (x, y). */
    method DrawIteration(center: Point, x: int, y: int, c: Color, fill: int)
      requires Valid()
      modifies pixels
      ensures pixels[..] == Paint(mode, old(pixels[..]), width, IterationPoints(center, Point(x, y), fill), c)
    {
      if fill == 1 {
        DrawSpans(center, x, y, c);
      } else {
        DrawOctants(center, x, y, c);
      }
    }

    /**
     * screen_draw_circle: midpoint circle generation; per iteration eight
     * mirrored pixels, or with fill == 1 four horizontal lines.
     */
    method DrawCircle(center: Point, radius: int, c: Color, fill: int)
      requires Valid()
      modifies pixels
      ensures pixels[..] == Paint(mode, old(pixels[..]), width, CirclePoints(center, radius, fill), c)
    {
      ghost var goal := Paint(mode, pixels[..], width, CirclePoints(center, radius, fill), c);
      var x, y, err := radius, 0, 1 - radius;
      while x >= y
        invariant 0 <= y
        invariant Paint(mode, pixels[..], width, CircleFrom(center, x, y, err, fill), c) == goal
        decreases x - y
      {
        PaintCircleStep(mode, pixels[..], width, center, x, y, err, fill, c);
        DrawIteration(center, x, y, c, fill);
        y := y + 1;
        if err < 0 {
          err := err + 2 * y + 1;
        } else {
          x := x - 1;
          err := err + 2 * (y - x + 1);
        }
      }
    }

    /**
     * The first part of update_screen: clear the screen to opaque black, then
     * blend the sky over its upper half and the floor over its lower half.
     */
    method DrawBackground()
      requires Valid()
      modifies pixels
      ensures pixels[..] == Paint(mode, Paint(mode, Cleared(width * height * 4), width, Sky(width, height), SkyColor),
                                  width, Floor(width, height), FloorColor)
    {
      Clear();
      DrawRect(Point(0, 0), Point(width, height / 2), SkyColor, 1);
      DrawRect(Point(0, height / 2), Point(width, height), FloorColor, 1);
    }
  }

  // ---------------------------------------------------------------------------
  // The background of update_screen

  const SkyColor := Color(0, 128, 255, 255)
  const FloorColor := Color(170, 85, 0, 255)

  /** The upper rectangle: corners (0, 0) and (width, height / 2), filled. */
  function Sky(width: int, height: int): seq<Point>
  {
    RectPoints(Point(0, 0), Point(width, height / 2), 1)
  }

  /** The lower rectangle: corners (0, height / 2) and (width, height), filled. */
  function Floor(width: int, height: int): seq<Point>
  {
    RectPoints(Point(0, height / 2), Point(width, height), 1)
  }

  /**
   * The rectangles reach x == width: column `width` of row y is drawn, and it
   * is the first pixel of row y + 1. Likewise row `height` of the floor starts
   * at the end of the buffer, where nothing is drawn.
   */
  lemma BackgroundWraps(width: int, height: int, y: int)
    requires width > 0 && height > 0 && 0 <= y <= height / 2
    ensures Point(width, y) in Sky(width, height)
    ensures PixelIndex(width, Point(width, y)) == PixelIndex(width, Point(0, y + 1))
    ensures Point(0, height) in Floor(width, height) && PixelIndex(width, Point(0, height)) == width * height * 4
  {
    RectPointsExact(Point(0, 0), Point(width, height / 2), 1, Point(width, y));
    RectPointsExact(Point(0, height / 2), Point(width, height), 1, Point(0, height));
    RowWrap(width, y);
  }

  /** Byte offset of the canvas pixel that window pixel `q` samples at integer scale `scale`. */
  function SourceIndex(cw: int, scale: int, q: Point): int
    requires scale >= 1
  {
    ((q.y / scale) * cw + q.x / scale) * 4
  }

  /** Every window pixel of the scaled canvas area samples a canvas pixel that exists. */
  lemma SourceIndexInBounds(cw: int, ch: int, scale: int, q: Point)
    requires cw > 0 && ch > 0 && scale >= 1
    requires 0 <= q.x < cw * scale && 0 <= q.y < ch * scale
    ensures 0 <= SourceIndex(cw, scale, q) && SourceIndex(cw, scale, q) + 3 < cw * ch * 4
  {
    var sx, sy := q.x / scale, q.y / scale;
    QuotientBelow(q.x, scale, cw);
    QuotientBelow(q.y, scale, ch);
    assert 0 <= sy * cw <= (ch - 1) * cw by { MulMono(0, sy, cw); MulMono(sy, ch - 1, cw); }
  }

  lemma QuotientBelow(n: int, d: int, bound: int)
    requires d >= 1 && 0 <= n < bound * d
    ensures 0 <= n / d < bound
  {
    if n / d >= bound {
      MulMono(bound, n / d, d);
      assert false;
    }
  }

  /**
   * The colour update_canvas blends onto window pixel `q`: the canvas pixel it
   * samples, whose alpha byte is the blend weight. update_canvas never samples
   * outside the canvas (SourceIndexInBounds); there the model answers fully
   * transparent, which leaves a window pixel as it is.
   */
  function SourceColor(src: seq<byte>, cw: int, scale: int, q: Point): Color
    requires scale >= 1
  {
    var i := SourceIndex(cw, scale, q);
    if 0 <= i && i + 3 < |src| then Color(src[i], src[i + 1], src[i + 2], src[i + 3]) else Color(0, 0, 0, 0)
  }

  /** The window buffer after update_canvas has blended the given window pixels, in order. */
  function Composite(target: seq<byte>, width: int, src: seq<byte>, cw: int, scale: int, cells: seq<Point>): (r: seq<byte>)
    requires scale >= 1
    ensures |r| == |target|
    decreases |cells|
  {
    if cells == [] then target
    else Composite(Plot(Blend, target, width, cells[0], SourceColor(src, cw, scale, cells[0])),
                   width, src, cw, scale, cells[1..])
  }

  lemma {:induction false} CompositeAppend(target: seq<byte>, width: int, src: seq<byte>, cw: int, scale: int, a: seq<Point>, b: seq<Point>)
    requires scale >= 1
    ensures Composite(target, width, src, cw, scale, a + b) ==
            Composite(Composite(target, width, src, cw, scale, a), width, src, cw, scale, b)
    decreases |a|
  {
    if a == [] {
      assert a + b == b;
    } else {
      assert (a + b)[1..] == a[1..] + b;
      CompositeAppend(Plot(Blend, target, width, a[0], SourceColor(src, cw, scale, a[0])),
                      width, src, cw, scale, a[1..], b);
    }
  }

  /** A window pixel that none of `cells` covers keeps its bytes. */
  lemma {:induction false} CompositeUntouched(target: seq<byte>, width: int, src: seq<byte>, cw: int, scale: int, cells: seq<Point>, k: int)
    requires scale >= 1 && 0 <= k < |target|
    requires forall i :: 0 <= i < |cells| ==> !Touches(width, cells[i], k)
    ensures Composite(target, width, src, cw, scale, cells)[k] == target[k]
    decreases |cells|
  {
    if cells != [] {
      var q := cells[0];
      PlotFrame(Blend, target, width, q, SourceColor(src, cw, scale, q), k);
      assert !Touches(width, cells[0], k);
      CompositeUntouched(Plot(Blend, target, width, q, SourceColor(src, cw, scale, q)),
                         width, src, cw, scale, cells[1..], k);
    }
  }

  /** One window pixel of a row of update_canvas, then the rest of the row. */
  lemma CompositeRowStep(target: seq<byte>, width: int, src: seq<byte>, cw: int, scale: int, p1: Point, p2: Point, y: int, x: int)
    requires scale >= 1 && p1.x <= x <= p2.x && p1.y <= y <= p2.y
    ensures Composite(target, width, src, cw, scale, RectRow(p1, p2, 1, y, x)) ==
            Composite(Plot(Blend, target, width, Point(x, y), SourceColor(src, cw, scale, Point(x, y))),
                      width, src, cw, scale, RectRow(p1, p2, 1, y, x + 1))
  {
    var rest := RectRow(p1, p2, 1, y, x + 1);
    assert RectRow(p1, p2, 1, y, x) == [Point(x, y)] + rest;
    assert ([Point(x, y)] + rest)[1..] == rest;
  }

  /** A row of update_canvas, then the rows below it. */
  lemma CompositeRowsStep(target: seq<byte>, width: int, src: seq<byte>, cw: int, scale: int, p1: Point, p2: Point, y: int)
    requires scale >= 1 && y <= p2.y
    ensures Composite(target, width, src, cw, scale, RectRows(p1, p2, 1, y)) ==
            Composite(Composite(target, width, src, cw, scale, RectRow(p1, p2, 1, y, p1.x)), width, src, cw, scale,
                      RectRows(p1, p2, 1, y + 1))
  {
    CompositeAppend(target, width, src, cw, scale, RectRow(p1, p2, 1, y, p1.x), RectRows(p1, p2, 1, y + 1));
  }

  /** The window pixels update_canvas visits: the canvas area scaled up, row by row. */
  function ScaledArea(cw: int, ch: int, scale: int): seq<Point>
  {
    RectPoints(Point(0, 0), Point(cw * scale - 1, ch * scale - 1), 1)
  }

  /** Every window pixel update_canvas visits samples a real canvas pixel. */
  lemma ScaledAreaSamples(cw: int, ch: int, scale: int, q: Point)
    requires cw > 0 && ch > 0 && scale >= 1 && q in ScaledArea(cw, ch, scale)
    ensures 0 <= SourceIndex(cw, scale, q) && SourceIndex(cw, scale, q) + 3 < cw * ch * 4
  {
    RectPointsExact(Point(0, 0), Point(cw * scale - 1, ch * scale - 1), 1, q);
    SourceIndexInBounds(cw, ch, scale, q);
  }

  /** The body of update_canvas's inner loop: blend the sampled canvas pixel onto window pixel (x, y). */
  method BlendCell(size: int, width: int, pixels: array<byte>, canvas: Canvas, x: int, y: int)
    requires canvas.Valid() && pixels != canvas.pixels && pixels.Length == size
    requires 0 <= x < canvas.width * canvas.scale && 0 <= y < canvas.height * canvas.scale
    modifies pixels
    ensures pixels[..] == Plot(Blend, old(pixels[..]), width, Point(x, y),
                                  SourceColor(canvas.pixels[..], canvas.width, canvas.scale, Point(x, y)))
  {
    SourceIndexInBounds(canvas.width, canvas.height, canvas.scale, Point(x, y));
    var index := ((y / canvas.scale) * canvas.width + x / canvas.scale) * 4;
    var windowIndex := (y * width + x) * 4;
    if windowIndex >= 0 && windowIndex + 3 < size {
      var a := canvas.pixels[index + 3];
      var pr, pg, pb, pa := pixels[windowIndex], pixels[windowIndex + 1], pixels[windowIndex + 2], pixels[windowIndex + 3];
      pixels[windowIndex] := BlendChannel(pr, canvas.pixels[index], a);
      pixels[windowIndex + 1] := BlendChannel(pg, canvas.pixels[index + 1], a);
      pixels[windowIndex + 2] := BlendChannel(pb, canvas.pixels[index + 2], a);
      pixels[windowIndex + 3] := BlendAlpha(pa, a);
    }
  }

  /**
   * update_canvas: blend every pixel of the canvas, magnified `scale` times,
   * onto the window buffer `pixels` (`width` pixels per row, `size` bytes).
   */
  method UpdateCanvas(size: int, width: int, pixels: array<byte>, canvas: Canvas)
    requires canvas.Valid() && pixels != canvas.pixels && pixels.Length == size
    modifies pixels
    ensures pixels[..] == Composite(old(pixels[..]), width, canvas.pixels[..], canvas.width, canvas.scale,
                                    ScaledArea(canvas.width, canvas.height, canvas.scale))
  {
    var cw, ch, s := canvas.width, canvas.height, canvas.scale;
    ghost var src := canvas.pixels[..];
    ghost var p1, p2 := Point(0, 0), Point(cw * s - 1, ch * s - 1);
    ghost var goal := Composite(pixels[..], width, src, cw, s, ScaledArea(cw, ch, s));
    var y := 0;
    while y < ch * s
      invariant 0 <= y
      invariant Composite(pixels[..], width, src, cw, s, RectRows(p1, p2, 1, y)) == goal
      decreases ch * s - y
    {
      CompositeRowsStep(pixels[..], width, src, cw, s, p1, p2, y);
      var x := 0;
      while x < cw * s
        invariant 0 <= x
        invariant Composite(Composite(pixels[..], width, src, cw, s, RectRow(p1, p2, 1, y, x)), width, src, cw, s,
                            RectRows(p1, p2, 1, y + 1)) == goal
        decreases cw * s - x
      {
        CompositeRowStep(pixels[..], width, src, cw, s, p1, p2, y, x);
        BlendCell(size, width, pixels, canvas, x, y);
        x := x + 1;
      }
      y := y + 1;
    }
  }
}
