/**
 * Pixel-buffer primitives shared by both renderers.
 *
 * A drawing routine is described by the exact sequence of points it hands to
 * `screen_draw_pixel`; the buffer it leaves behind is `Paint` of that sequence.
 * The two programs differ only in what one pixel write does: main.normless.c
 * alpha-composites (`Blend`), main.c overwrites (`Overwrite`).
 */
module Raster {

  /** An unsigned 8-bit channel (SDL's Uint8). */
  type byte = x: int | 0 <= x < 256

  datatype Point = Point(x: int, y: int)

  /** Straight (non-premultiplied) RGBA colour. */
  datatype Color = Color(r: byte, g: byte, b: byte, a: byte)

  datatype Mode = Blend | Overwrite

  function Min(a: int, b: int): int { if a <= b then a else b }
  function Max(a: int, b: int): int { if a <= b then b else a }
  function Abs(n: int): nat { if n < 0 then -n else n }

  /**
   * First byte of pixel `p` in a row-major RGBA buffer `width` pixels wide.
   * Only this linear index is ever bounds-checked, never the axes, so an
   * x of `width` lands on pixel 0 of the next row.
   */
  function PixelIndex(width: int, p: Point): int
  {
    (p.y * width + p.x) * 4
  }

  lemma RowWrap(width: int, y: int)
    ensures PixelIndex(width, Point(width, y)) == PixelIndex(width, Point(0, y + 1))
  {
  }

  /** Does a write at pixel `p` cover byte `k`? */
  predicate Touches(width: int, p: Point, k: int)
  {
    PixelIndex(width, p) <= k < PixelIndex(width, p) + 4
  }

  // ---------------------------------------------------------------------------
  // One pixel

  /** "Over" blend of one colour channel, truncating integer division. */
  function BlendChannel(dst: byte, src: byte, alpha: byte): (r: byte)
    ensures alpha == 255 ==> r == src
    ensures alpha == 0 ==> r == dst
    ensures Min(dst, src) <= r <= Max(dst, src)
  {
    var num := dst * (255 - alpha) + src * alpha;
    BlendBounds(dst, src, alpha);
    num / 255
  }

  lemma BlendBounds(dst: byte, src: byte, alpha: byte)
    ensures 255 * Min(dst, src) <= dst * (255 - alpha) + src * alpha <= 255 * Max(dst, src)
  {
    var lo, hi := Min(dst, src), Max(dst, src);
    assert dst * (255 - alpha) <= hi * (255 - alpha) by { MulMono(dst, hi, 255 - alpha); }
    assert src * alpha <= hi * alpha by { MulMono(src, hi, alpha); }
    assert lo * (255 - alpha) <= dst * (255 - alpha) by { MulMono(lo, dst, 255 - alpha); }
    assert lo * alpha <= src * alpha by { MulMono(lo, src, alpha); }
  }

  lemma MulMono(a: int, b: int, c: nat)
    requires a <= b
    ensures a * c <= b * c
  {
  }

  /** "Over" blend of the alpha channel: 255 - (255 - dstA)(255 - srcA)/255. */
  function BlendAlpha(dst: byte, alpha: byte): (r: byte)
    ensures alpha == 255 ==> r == 255
    ensures alpha == 0 ==> r == dst
    ensures Max(dst, alpha) <= r
  {
    var t := (255 - dst) * (255 - alpha);
    MulMono(255 - alpha, 255, 255 - dst);
    MulMono(255 - dst, 255, 255 - alpha);
    255 - t / 255
  }

  /** The byte a write in `mode` leaves in a colour channel that held `dst`. */
  function Channel(mode: Mode, dst: byte, src: byte, alpha: byte): byte
  {
    match mode
    case Blend => BlendChannel(dst, src, alpha)
    case Overwrite => src
  }

  /** The byte a write in `mode` leaves in an alpha channel that held `dst`. */
  function AlphaByte(mode: Mode, dst: byte, alpha: byte): byte
  {
    match mode
    case Blend => BlendAlpha(dst, alpha)
    case Overwrite => alpha
  }

  /**
   * screen_draw_pixel at pixel `p`: when its four bytes lie inside the buffer
   * they get the channel values of `mode`, otherwise nothing happens.
   */
  function Plot(mode: Mode, buf: seq<byte>, width: int, p: Point, c: Color): (r: seq<byte>)
    ensures |r| == |buf|
  {
    var i := PixelIndex(width, p);
    if 0 <= i && i + 3 < |buf| then
      buf[i := Channel(mode, buf[i], c.r, c.a)]
         [i + 1 := Channel(mode, buf[i + 1], c.g, c.a)]
         [i + 2 := Channel(mode, buf[i + 2], c.b, c.a)]
         [i + 3 := AlphaByte(mode, buf[i + 3], c.a)]
    else
      buf
  }

  /** A pixel write changes no byte outside the four bytes of that pixel. */
  lemma PlotFrame(mode: Mode, buf: seq<byte>, width: int, p: Point, c: Color, k: int)
    requires 0 <= k < |buf| && !Touches(width, p, k)
    ensures Plot(mode, buf, width, p, c)[k] == buf[k]
  {
  }

  /**
   * A pixel whose four bytes are not all inside the buffer is skipped; one that
   * is gets its four new bytes; no other byte changes.
   */
  lemma PlotSpec(mode: Mode, buf: seq<byte>, width: int, p: Point, c: Color)
    ensures var i := PixelIndex(width, p);
            !(0 <= i && i + 3 < |buf|) ==> Plot(mode, buf, width, p, c) == buf
    ensures var i := PixelIndex(width, p);
            0 <= i && i + 3 < |buf| ==>
              Plot(mode, buf, width, p, c)[i..i + 4] ==
              [Channel(mode, buf[i], c.r, c.a), Channel(mode, buf[i + 1], c.g, c.a),
               Channel(mode, buf[i + 2], c.b, c.a), AlphaByte(mode, buf[i + 3], c.a)]
    ensures forall k :: 0 <= k < |buf| && !Touches(width, p, k) ==> Plot(mode, buf, width, p, c)[k] == buf[k]
  {
  }

  /**
   * Blending an opaque colour writes exactly its r, g, b and alpha 255; a fully
   * transparent colour leaves the buffer as it was.
   */
  lemma BlendExtremes(buf: seq<byte>, width: int, p: Point, c: Color)
    ensures var i := PixelIndex(width, p);
            c.a == 255 && 0 <= i && i + 3 < |buf| ==> Plot(Blend, buf, width, p, c)[i..i + 4] == [c.r, c.g, c.b, 255]
    ensures c.a == 0 ==> Plot(Blend, buf, width, p, c) == buf
  {
    var i := PixelIndex(width, p);
    if c.a == 0 && 0 <= i && i + 3 < |buf| {
      assert Plot(Blend, buf, width, p, c) == buf[i := buf[i]][i + 1 := buf[i + 1]][i + 2 := buf[i + 2]][i + 3 := buf[i + 3]];
    }
  }

  /**
   * screen_draw_pixel of main.c at byte offset `index`: each of the four bytes
   * is checked against the buffer on its own and overwritten.
   */
  function Put(buf: seq<byte>, index: int, c: Color): (r: seq<byte>)
    ensures |r| == |buf|
  {
    var b0 := if 0 <= index < |buf| then buf[index := c.r] else buf;
    var b1 := if 0 <= index + 1 < |buf| then b0[index + 1 := c.g] else b0;
    var b2 := if 0 <= index + 2 < |buf| then b1[index + 2 := c.b] else b1;
    if 0 <= index + 3 < |buf| then b2[index + 3 := c.a] else b2
  }

  /**
   * Because pixel offsets and a whole-pixel buffer size are multiples of 4, the
   * four separate checks of main.c agree: all four bytes become the colour's
   * r, g, b, a, or none changes. That is the Overwrite write.
   */
  lemma PutIsPlot(buf: seq<byte>, width: int, p: Point, c: Color)
    requires |buf| % 4 == 0
    ensures Put(buf, PixelIndex(width, p), c) == Plot(Overwrite, buf, width, p, c)
  {
    var index := PixelIndex(width, p);
    var q, n := p.y * width + p.x, |buf| / 4;
    assert index == 4 * q && |buf| == 4 * n;
    if 0 <= index < |buf| {
      assert index + 3 < |buf|;
    } else if index < 0 {
      assert index + 3 < 0;
    }
  }

  /** The buffer after writing the points of `pts` one after another. */
  function Paint(mode: Mode, buf: seq<byte>, width: int, pts: seq<Point>, c: Color): (r: seq<byte>)
    ensures |r| == |buf|
    decreases |pts|
  {
    if pts == [] then buf else Paint(mode, Plot(mode, buf, width, pts[0], c), width, pts[1..], c)
  }

  lemma {:induction false} PaintAppend(mode: Mode, buf: seq<byte>, width: int, a: seq<Point>, b: seq<Point>, c: Color)
    ensures Paint(mode, buf, width, a + b, c) == Paint(mode, Paint(mode, buf, width, a, c), width, b, c)
    decreases |a|
  {
    if a == [] {
      assert a + b == b;
    } else {
      assert (a + b)[0] == a[0] && (a + b)[1..] == a[1..] + b;
      PaintAppend(mode, Plot(mode, buf, width, a[0], c), width, a[1..], b, c);
    }
  }

  /** Painting a list whose head is `p`: plot `p`, then paint the rest. */
  lemma PaintCons(mode: Mode, buf: seq<byte>, width: int, p: Point, rest: seq<Point>, c: Color)
    ensures Paint(mode, buf, width, [p] + rest, c) == Paint(mode, Plot(mode, buf, width, p, c), width, rest, c)
  {
    assert ([p] + rest)[0] == p && ([p] + rest)[1..] == rest;
  }

  /** One step of screen_draw_line: plot the current pixel, then paint the rest of the line. */
  lemma PaintLineStep(mode: Mode, buf: seq<byte>, width: int, x: int, y: int, dx: int, dy: int, m: int, n: nat, c: Color)
    requires m > 0 && n > 0
    ensures Paint(mode, buf, width, LineFrom(x, y, dx, dy, m, n), c) ==
            Paint(mode, Plot(mode, buf, width, Point(TruncDiv(x, m), TruncDiv(y, m)), c), width, LineFrom(x + dx, y + dy, dx, dy, m, n - 1), c)
  {
    PaintCons(mode, buf, width, Point(TruncDiv(x, m), TruncDiv(y, m)), LineFrom(x + dx, y + dy, dx, dy, m, n - 1), c);
  }

  /** screen_draw_line's own `steps` and scale give exactly LinePoints. */
  lemma LineStart(p1: Point, p2: Point, steps: int, m: int)
    requires steps == if Abs(p2.x - p1.x) > Abs(p2.y - p1.y) then Abs(p2.x - p1.x) else Abs(p2.y - p1.y)
    requires m == if steps == 0 then 1 else steps
    ensures steps >= 0 && m > 0
    ensures LinePoints(p1, p2) == LineFrom(p1.x * m, p1.y * m, p2.x - p1.x, p2.y - p1.y, m, steps + 1)
  {
  }

  /** Painting the rest of a point list after plotting its next point. */
  lemma PaintUnfold(mode: Mode, buf: seq<byte>, width: int, pts: seq<Point>, k: int, c: Color)
    requires 0 <= k < |pts|
    ensures Paint(mode, Plot(mode, buf, width, pts[k], c), width, pts[k + 1..], c) == Paint(mode, buf, width, pts[k..], c)
  {
    assert pts[k..][0] == pts[k] && pts[k..][1..] == pts[k + 1..];
  }

  /** Only bytes covered by one of the points can change. */
  lemma {:induction false} PaintUntouched(mode: Mode, buf: seq<byte>, width: int, pts: seq<Point>, c: Color, k: int)
    requires 0 <= k < |buf|
    requires forall i :: 0 <= i < |pts| ==> !Touches(width, pts[i], k)
    ensures Paint(mode, buf, width, pts, c)[k] == buf[k]
    decreases |pts|
  {
    if pts != [] {
      PlotFrame(mode, buf, width, pts[0], c, k);
      PaintUntouched(mode, Plot(mode, buf, width, pts[0], c), width, pts[1..], c, k);
    }
  }

  /** Byte `j` (0 red, 1 green, 2 blue, 3 alpha) of a colour. */
  function ColorByte(c: Color, j: int): byte
  {
    if j == 0 then c.r else if j == 1 then c.g else if j == 2 then c.b else c.a
  }

  /** Some point of `pts` covers byte `k`. */
  predicate Covered(width: int, pts: seq<Point>, k: int)
  {
    exists i :: 0 <= i < |pts| && Touches(width, pts[i], k)
  }

  /**
   * In a whole-pixel buffer, an overwrite either covers byte `k`, which then
   * holds the matching byte of the colour, or leaves it alone.
   */
  lemma PlotOverwriteAt(buf: seq<byte>, width: int, p: Point, c: Color, k: int)
    requires |buf| % 4 == 0 && 0 <= k < |buf|
    ensures Plot(Overwrite, buf, width, p, c)[k] == if Touches(width, p, k) then ColorByte(c, k % 4) else buf[k]
  {
    var i := PixelIndex(width, p);
    var q, n := p.y * width + p.x, |buf| / 4;
    assert i == 4 * q && |buf| == 4 * n;
    if Touches(width, p, k) {
      assert 0 <= i && i + 3 < |buf|;
      assert k % 4 == k - i;
    }
  }

  /**
   * Overwriting a list of points leaves every covered byte holding the colour
   * and every other byte as it was: the result depends only on the covered
   * pixels, not on the order or on repetitions.
   */
  lemma {:induction false} OverwriteAt(buf: seq<byte>, width: int, pts: seq<Point>, c: Color, k: int)
    requires |buf| % 4 == 0 && 0 <= k < |buf|
    ensures Paint(Overwrite, buf, width, pts, c)[k] == if Covered(width, pts, k) then ColorByte(c, k % 4) else buf[k]
    decreases |pts|
  {
    if pts != [] {
      var b := Plot(Overwrite, buf, width, pts[0], c);
      PlotOverwriteAt(buf, width, pts[0], c, k);
      OverwriteAt(b, width, pts[1..], c, k);
      if Covered(width, pts[1..], k) {
        var i :| 0 <= i < |pts[1..]| && Touches(width, pts[1..][i], k);
        assert Touches(width, pts[i + 1], k);
      }
      if Covered(width, pts, k) && !Touches(width, pts[0], k) {
        var i :| 0 <= i < |pts| && Touches(width, pts[i], k);
        assert i > 0 && Touches(width, pts[1..][i - 1], k);
      }
    }
  }

  /** Overwriting the same points twice leaves what the second colour alone would. */
  lemma OverwriteRepaint(buf: seq<byte>, width: int, pts: seq<Point>, c1: Color, c2: Color)
    requires |buf| % 4 == 0
    ensures Paint(Overwrite, Paint(Overwrite, buf, width, pts, c1), width, pts, c2) == Paint(Overwrite, buf, width, pts, c2)
  {
    var once := Paint(Overwrite, buf, width, pts, c1);
    var twice, direct := Paint(Overwrite, once, width, pts, c2), Paint(Overwrite, buf, width, pts, c2);
    forall k | 0 <= k < |buf| ensures twice[k] == direct[k] {
      OverwriteAt(buf, width, pts, c1, k);
      OverwriteAt(once, width, pts, c2, k);
      OverwriteAt(buf, width, pts, c2, k);
    }
  }

  /** A cleared buffer: every pixel black (0, 0, 0) and opaque (alpha 255). */
  function Cleared(n: nat): (r: seq<byte>)
    ensures |r| == n
  {
    seq(n, i => if i % 4 == 3 then 255 else 0)
  }

  lemma ClearedPixel(n: nat, i: int)
    requires 0 <= i && 4 * i + 3 < n
    ensures Cleared(n)[4 * i..4 * i + 4] == [0, 0, 0, 255]
  {
    assert (4 * i) % 4 == 0 && (4 * i + 1) % 4 == 1 && (4 * i + 2) % 4 == 2 && (4 * i + 3) % 4 == 3;
  }

  // ---------------------------------------------------------------------------
  // Lines

  function Steps(p1: Point, p2: Point): nat
  {
    Max(Abs(p2.x - p1.x), Abs(p2.y - p1.y))
  }

  /** C's `(int)` of a quotient: truncation toward zero. */
  function TruncDiv(n: int, d: int): int
    requires d > 0
  {
    if n >= 0 then n / d else -((-n) / d)
  }

  /** A product d * k strictly between -d and d has k == 0. */
  lemma MulSmall(k: int, d: int)
    requires d > 0 && -d < k * d < d
    ensures k == 0
  {
    if k >= 1 {
      MulMono(1, k, d);
      assert false;
    } else if k <= -1 {
      MulMono(k, -1, d);
      assert false;
    }
  }

  /** Euclidean division is determined by quotient and remainder. */
  lemma DivUnique(n: int, d: int, q: int, r: int)
    requires d > 0 && 0 <= r < d && n == q * d + r
    ensures n / d == q
  {
    var q', r' := n / d, n % d;
    assert n == q' * d + r';
    assert (q - q') * d == r' - r;
    MulSmall(q - q', d);
  }

  lemma TruncDivExact(m: int, d: int)
    requires d > 0
    ensures TruncDiv(m * d, d) == m
  {
    if m >= 0 {
      MulMono(0, m, d);
      DivUnique(m * d, d, m, 0);
    } else {
      assert -(m * d) == (-m) * d;
      MulMono(0, -m, d);
      DivUnique((-m) * d, d, -m, 0);
    }
  }

  /**
   * The pixels of screen_draw_line from a running position (x, y) kept scaled
   * by `m`: each of the `n` pixels is the position truncated toward zero,
   * then the position advances by (dx, dy). Scaling by m = steps makes the
   * increments dx / steps exact: this is the loop in exact arithmetic. C adds
   * float increments, and their rounding can leave a pixel short on lines that
   * are neither axis-aligned nor diagonal (see UnitLine for the exact case).
   */
  function LineFrom(x: int, y: int, dx: int, dy: int, m: int, n: nat): (r: seq<Point>)
    requires m > 0
    ensures |r| == n
    decreases n
  {
    if n == 0 then [] else [Point(TruncDiv(x, m), TruncDiv(y, m))] + LineFrom(x + dx, y + dy, dx, dy, m, n - 1)
  }

  /** The `steps + 1` points screen_draw_line hands to screen_draw_pixel. */
  function LinePoints(p1: Point, p2: Point): (r: seq<Point>)
    ensures |r| == Steps(p1, p2) + 1
  {
    var m := Max(Steps(p1, p2), 1);
    LineFrom(p1.x * m, p1.y * m, p2.x - p1.x, p2.y - p1.y, m, Steps(p1, p2) + 1)
  }

  /** The k-th point of a line in closed form: point1 plus k (dx, dy) / steps, truncated. */
  function LinePoint(p1: Point, p2: Point, k: int): Point
  {
    var s := Max(Steps(p1, p2), 1);
    Point(TruncDiv(p1.x * s + k * (p2.x - p1.x), s), TruncDiv(p1.y * s + k * (p2.y - p1.y), s))
  }

  lemma {:induction false} LineFromAt(x: int, y: int, dx: int, dy: int, m: int, n: nat, k: int)
    requires m > 0 && 0 <= k < n
    ensures LineFrom(x, y, dx, dy, m, n)[k] == Point(TruncDiv(x + k * dx, m), TruncDiv(y + k * dy, m))
    decreases n
  {
    if k > 0 {
      LineFromAt(x + dx, y + dy, dx, dy, m, n - 1, k - 1);
      assert x + dx + (k - 1) * dx == x + k * dx;
      assert y + dy + (k - 1) * dy == y + k * dy;
    }
  }

  /**
   * In exact arithmetic, accumulating the increments step by step lands on
   * the closed form. C's float sum agrees only where the increments are whole
   * pixels (UnitLine).
   */
  lemma LinePointsAt(p1: Point, p2: Point, k: int)
    requires 0 <= k <= Steps(p1, p2)
    ensures LinePoints(p1, p2)[k] == LinePoint(p1, p2, k)
  {
    var m := Max(Steps(p1, p2), 1);
    LineFromAt(p1.x * m, p1.y * m, p2.x - p1.x, p2.y - p1.y, m, Steps(p1, p2) + 1, k);
  }

  /**
   * In exact arithmetic a line starts at point1 and ends at point2; a
   * zero-length line is the single pixel point1. In C the float sum can stop
   * one pixel short of point2: from (0, 0) to (3, 9) it ends at (2, 9).
   */
  lemma LineEndpoints(p1: Point, p2: Point)
    ensures LinePoints(p1, p2)[0] == p1
    ensures LinePoints(p1, p2)[Steps(p1, p2)] == p2
    ensures p1 == p2 ==> LinePoints(p1, p2) == [p1]
  {
    var s := Steps(p1, p2);
    var m := Max(s, 1);
    LinePointAt(p1, p2, 0, p1);
    if s == 0 {
      assert p1 == p2;
    } else {
      LinePointAt(p1, p2, s, p2);
    }
  }

  /** Helper: the k-th line point is q when k (dx, dy) == (q - p1) * steps. */
  lemma LinePointAt(p1: Point, p2: Point, k: int, q: Point)
    requires 0 <= k <= Steps(p1, p2)
    requires k * (p2.x - p1.x) == (q.x - p1.x) * Max(Steps(p1, p2), 1)
    requires k * (p2.y - p1.y) == (q.y - p1.y) * Max(Steps(p1, p2), 1)
    ensures LinePoints(p1, p2)[k] == q
  {
    var m := Max(Steps(p1, p2), 1);
    LinePointsAt(p1, p2, k);
    LineCoord(p1.x, p2.x - p1.x, k, q.x, m);
    LineCoord(p1.y, p2.y - p1.y, k, q.y, m);
  }

  lemma LineCoord(a: int, d: int, k: int, b: int, m: int)
    requires m > 0 && k * d == (b - a) * m
    ensures TruncDiv(a * m + k * d, m) == b
  {
    assert a * m + (b - a) * m == b * m;
    TruncDivExact(b, m);
  }

  function Sign(n: int): int { if n < 0 then -1 else if n == 0 then 0 else 1 }

  /** One coordinate of a line whose per-step increment is -1, 0 or 1 pixel. */
  lemma UnitStep(a: int, d: int, m: int, k: int)
    requires m > 0 && (d == 0 || Abs(d) == m)
    ensures TruncDiv(a * m + k * d, m) == a + k * Sign(d)
  {
    if d == 0 {
      assert a * m + k * d == a * m;
      TruncDivExact(a, m);
    } else if d > 0 {
      assert a * m + k * d == (a + k) * m;
      TruncDivExact(a + k, m);
    } else {
      assert a * m + k * d == (a - k) * m;
      TruncDivExact(a - k, m);
    }
  }

  /**
   * Along the axis with the larger extent the line advances exactly one pixel
   * per step; in particular a horizontal span covers each x from p1.x to p2.x once.
   */
  lemma LineMajorX(p1: Point, p2: Point, k: int)
    requires Abs(p2.y - p1.y) <= Abs(p2.x - p1.x)
    requires 0 <= k <= Steps(p1, p2)
    ensures LinePoints(p1, p2)[k].x == p1.x + k * Sign(p2.x - p1.x)
  {
    LinePointsAt(p1, p2, k);
    UnitStep(p1.x, p2.x - p1.x, Max(Steps(p1, p2), 1), k);
  }

  lemma LineMajorY(p1: Point, p2: Point, k: int)
    requires Abs(p2.x - p1.x) <= Abs(p2.y - p1.y)
    requires 0 <= k <= Steps(p1, p2)
    ensures LinePoints(p1, p2)[k].y == p1.y + k * Sign(p2.y - p1.y)
  {
    LinePointsAt(p1, p2, k);
    UnitStep(p1.y, p2.y - p1.y, Max(Steps(p1, p2), 1), k);
  }

  /**
   * An axis-aligned or diagonal line steps by whole pixels: its k-th point is
   * point1 plus k times the sign of each difference. Its increments are -1, 0
   * or 1, which float adds without rounding, so here the exact-arithmetic
   * model and C's float loop agree.
   */
  lemma UnitLine(p1: Point, p2: Point, k: int)
    requires p2.x == p1.x || p2.y == p1.y || Abs(p2.x - p1.x) == Abs(p2.y - p1.y)
    requires 0 <= k <= Steps(p1, p2)
    ensures LinePoints(p1, p2)[k] == Point(p1.x + k * Sign(p2.x - p1.x), p1.y + k * Sign(p2.y - p1.y))
  {
    var m := Max(Steps(p1, p2), 1);
    LinePointsAt(p1, p2, k);
    UnitStep(p1.x, p2.x - p1.x, m, k);
    UnitStep(p1.y, p2.y - p1.y, m, k);
  }

  /** A span from (a, y) to (b, y) with a <= b plots (a, y), (a + 1, y), ..., (b, y). */
  lemma HorizontalSpan(a: int, b: int, y: int, k: int)
    requires a <= b && 0 <= k <= b - a
    ensures |LinePoints(Point(a, y), Point(b, y))| == b - a + 1
    ensures LinePoints(Point(a, y), Point(b, y))[k] == Point(a + k, y)
  {
    var p1, p2 := Point(a, y), Point(b, y);
    LineMajorX(p1, p2, k);
    LinePointsAt(p1, p2, k);
    var m := Max(Steps(p1, p2), 1);
    assert y * m + k * 0 == y * m;
    TruncDivExact(y, m);
  }

  /** The pixels (a, y), (a + 1, y), ..., (b, y); empty when b < a. */
  function HSpan(a: int, b: int, y: int): (r: seq<Point>)
    ensures a <= b ==> |r| == b - a + 1
  {
    if a <= b then seq(b - a + 1, k => Point(a + k, y)) else []
  }

  /** A left-to-right horizontal line is exactly its span of pixels. */
  lemma LineIsSpan(a: int, b: int, y: int)
    requires a <= b
    ensures LinePoints(Point(a, y), Point(b, y)) == HSpan(a, b, y)
  {
    forall k | 0 <= k <= b - a
      ensures LinePoints(Point(a, y), Point(b, y))[k] == HSpan(a, b, y)[k]
    {
      HorizontalSpan(a, b, y, k);
    }
  }

  // ---------------------------------------------------------------------------
  // Rectangles

  predicate OnRect(p1: Point, p2: Point, fill: int, q: Point)
  {
    && p1.x <= q.x <= p2.x && p1.y <= q.y <= p2.y
    && (fill == 1 || q.x == p1.x || q.x == p2.x || q.y == p1.y || q.y == p2.y)
  }

  /** Row `y` of screen_draw_rect, from column `x` to p2.x inclusive. */
  function RectRow(p1: Point, p2: Point, fill: int, y: int, x: int): seq<Point>
    decreases p2.x - x
  {
    if x > p2.x then []
    else (if OnRect(p1, p2, fill, Point(x, y)) then [Point(x, y)] else []) + RectRow(p1, p2, fill, y, x + 1)
  }

  /** Rows `y` to p2.y inclusive of screen_draw_rect. */
  function RectRows(p1: Point, p2: Point, fill: int, y: int): seq<Point>
    decreases p2.y - y
  {
    if y > p2.y then [] else RectRow(p1, p2, fill, y, p1.x) + RectRows(p1, p2, fill, y + 1)
  }

  /** The points screen_draw_rect plots, row by row, left to right. */
  function RectPoints(p1: Point, p2: Point, fill: int): seq<Point>
  {
    RectRows(p1, p2, fill, p1.y)
  }

  lemma {:induction false} RectRowExact(p1: Point, p2: Point, fill: int, y: int, x: int, q: Point)
    requires p1.y <= y <= p2.y
    ensures q in RectRow(p1, p2, fill, y, x) <==> q.y == y && x <= q.x && OnRect(p1, p2, fill, q)
    decreases p2.x - x
  {
    if x <= p2.x {
      RectRowExact(p1, p2, fill, y, x + 1, q);
    }
  }

  lemma {:induction false} RectRowsExact(p1: Point, p2: Point, fill: int, y: int, q: Point)
    requires p1.y <= y
    ensures q in RectRows(p1, p2, fill, y) <==> y <= q.y && OnRect(p1, p2, fill, q)
    decreases p2.y - y
  {
    if y <= p2.y {
      RectRowExact(p1, p2, fill, y, p1.x, q);
      RectRowsExact(p1, p2, fill, y + 1, q);
    }
  }

  /**
   * A point is plotted exactly when it lies in the inclusive box and, unless
   * fill is 1, on one of its four borders. An inverted box plots nothing.
   */
  lemma RectPointsExact(p1: Point, p2: Point, fill: int, q: Point)
    ensures q in RectPoints(p1, p2, fill) <==> OnRect(p1, p2, fill, q)
    ensures (p1.x > p2.x || p1.y > p2.y) ==> RectPoints(p1, p2, fill) == []
  {
    RectRowsExact(p1, p2, fill, p1.y, q);
    if p1.x > p2.x && p1.y <= p2.y {
      assert RectRow(p1, p2, fill, p1.y, p1.x) == [];
      InvertedRows(p1, p2, fill, p1.y);
    }
  }

  lemma {:induction false} InvertedRows(p1: Point, p2: Point, fill: int, y: int)
    requires p1.x > p2.x
    ensures RectRows(p1, p2, fill, y) == []
    decreases p2.y - y
  {
    if y <= p2.y {
      InvertedRows(p1, p2, fill, y + 1);
    }
  }

  /**
   * An unfilled rectangle leaves every byte of an interior pixel alone, as long
   * as the box stays inside the columns [0, width) (otherwise a border pixel
   * can wrap onto another row).
   */
  lemma RectInteriorUntouched(mode: Mode, buf: seq<byte>, width: int, p1: Point, p2: Point, c: Color, q: Point, k: int)
    requires 0 <= p1.x && p2.x < width
    requires p1.x < q.x < p2.x && p1.y < q.y < p2.y
    requires Touches(width, q, k) && 0 <= k < |buf|
    ensures Paint(mode, buf, width, RectPoints(p1, p2, 0), c)[k] == buf[k]
  {
    var pts := RectPoints(p1, p2, 0);
    forall i | 0 <= i < |pts| ensures !Touches(width, pts[i], k) {
      var p := pts[i];
      RectPointsExact(p1, p2, 0, p);
      if Touches(width, p, k) {
        SamePixel(width, p, q);
      }
    }
    PaintUntouched(mode, buf, width, pts, c, k);
  }

  /** Two in-row pixels whose 4-byte cells overlap are the same pixel. */
  lemma SamePixel(width: int, p: Point, q: Point)
    requires 0 <= p.x < width && 0 <= q.x < width
    requires PixelIndex(width, p) - 4 < PixelIndex(width, q) < PixelIndex(width, p) + 4
    ensures p == q
  {
    var d := q.y - p.y;
    assert d * width == p.x - q.x;
    if d >= 1 {
      MulMono(1, d, width);
      assert false;
    } else if d <= -1 {
      MulMono(d, -1, width);
      assert false;
    }
  }

  // ---------------------------------------------------------------------------
  // Circles

  /**
   * The (x, y) octant offsets screen_draw_circle visits from state (x, y, err):
   * one per iteration of `while (x >= y)`.
   */
  function CircleSteps(x: int, y: int, err: int): seq<Point>
    decreases x - y
  {
    if x < y then []
    else
      var y' := y + 1;
      [Point(x, y)] +
      (if err < 0 then CircleSteps(x, y', err + 2 * y' + 1)
       else CircleSteps(x - 1, y', err + 2 * (y' - (x - 1) + 1)))
  }

  function CircleIterations(radius: int): seq<Point>
  {
    CircleSteps(radius, 0, 1 - radius)
  }

  lemma {:induction false} CircleStepsShape(x: int, y: int, err: int)
    ensures |CircleSteps(x, y, err)| <= Max(x - y + 1, 0)
    ensures forall k :: 0 <= k < |CircleSteps(x, y, err)| ==>
              && CircleSteps(x, y, err)[k].y == y + k
              && y + k <= CircleSteps(x, y, err)[k].x <= x
    ensures forall k :: 0 <= k < |CircleSteps(x, y, err)| - 1 ==>
              CircleSteps(x, y, err)[k + 1].x in {CircleSteps(x, y, err)[k].x, CircleSteps(x, y, err)[k].x - 1}
    decreases x - y
  {
    if x >= y {
      var y' := y + 1;
      var x', err' := if err < 0 then x else x - 1, if err < 0 then err + 2 * y' + 1 else err + 2 * (y' - (x - 1) + 1);
      assert CircleSteps(x, y, err) == [Point(x, y)] + CircleSteps(x', y', err');
      CircleStepsShape(x', y', err');
      ConsShape(x, y, x', CircleSteps(x', y', err'));
    }
  }

  /** One iteration in front of a well-shaped rest keeps the shape. */
  lemma ConsShape(x: int, y: int, x': int, rest: seq<Point>)
    requires x >= y && (x' == x || x' == x - 1)
    requires |rest| <= Max(x' - (y + 1) + 1, 0) && (|rest| > 0 ==> rest[0].x == x')
    requires forall k :: 0 <= k < |rest| ==> rest[k].y == y + 1 + k && y + 1 + k <= rest[k].x <= x'
    requires forall k :: 0 <= k < |rest| - 1 ==> rest[k + 1].x in {rest[k].x, rest[k].x - 1}
    ensures var s := [Point(x, y)] + rest;
      && |s| <= Max(x - y + 1, 0)
      && (forall k :: 0 <= k < |s| ==> s[k].y == y + k && y + k <= s[k].x <= x)
      && (forall k :: 0 <= k < |s| - 1 ==> s[k + 1].x in {s[k].x, s[k].x - 1})
  {
    var s := [Point(x, y)] + rest;
    forall k | 0 <= k < |s| - 1
      ensures s[k + 1].x in {s[k].x, s[k].x - 1}
    {
      assert s[k + 1] == rest[k];
      if k > 0 {
        assert s[k] == rest[k - 1];
      }
    }
  }

  /**
   * screen_draw_circle runs at most radius + 1 iterations, none for a negative
   * radius; in iteration k the y offset is k, the x offset never increases and
   * never falls below y.
   */
  lemma CircleIterationsShape(radius: int)
    ensures radius < 0 ==> CircleIterations(radius) == []
    ensures |CircleIterations(radius)| <= Max(radius + 1, 0)
    ensures forall k :: 0 <= k < |CircleIterations(radius)| ==>
              && CircleIterations(radius)[k].y == k
              && k <= CircleIterations(radius)[k].x <= radius
    ensures forall k :: 0 <= k < |CircleIterations(radius)| - 1 ==>
              CircleIterations(radius)[k + 1].x in {CircleIterations(radius)[k].x, CircleIterations(radius)[k].x - 1}
  {
    CircleStepsShape(radius, 0, 1 - radius);
  }

  /** The eight pixels of one unfilled iteration, in the source's order. */
  function Octants(c: Point, o: Point): seq<Point>
  {
    [Point(c.x + o.x, c.y + o.y), Point(c.x + o.y, c.y + o.x), Point(c.x - o.y, c.y + o.x), Point(c.x - o.x, c.y + o.y),
     Point(c.x - o.x, c.y - o.y), Point(c.x - o.y, c.y - o.x), Point(c.x + o.y, c.y - o.x), Point(c.x + o.x, c.y - o.y)]
  }

  /** The four horizontal lines of one filled iteration, in the source's order. */
  function Spans(c: Point, o: Point): seq<Point>
  {
    (LinePoints(Point(c.x - o.x, c.y + o.y), Point(c.x + o.x, c.y + o.y)) +
     LinePoints(Point(c.x - o.y, c.y + o.x), Point(c.x + o.y, c.y + o.x))) +
    (LinePoints(Point(c.x - o.x, c.y - o.y), Point(c.x + o.x, c.y - o.y)) +
     LinePoints(Point(c.x - o.y, c.y - o.x), Point(c.x + o.y, c.y - o.x)))
  }

  function IterationPoints(c: Point, o: Point, fill: int): seq<Point>
  {
    if fill == 1 then Spans(c, o) else Octants(c, o)
  }

  /** The point lists of the given iterations, one list per iteration. */
  function IterationParts(c: Point, its: seq<Point>, fill: int): (r: seq<seq<Point>>)
    ensures |r| == |its|
  {
    seq(|its|, i requires 0 <= i < |its| => IterationPoints(c, its[i], fill))
  }

  function Flatten(parts: seq<seq<Point>>): seq<Point>
    decreases |parts|
  {
    if parts == [] then [] else parts[0] + Flatten(parts[1..])
  }

  /** The points of the circle loop's iterations from state (x, y, err) on, in order. */
  function CircleFrom(c: Point, x: int, y: int, err: int, fill: int): seq<Point>
    decreases x - y
  {
    if x < y then []
    else
      var y' := y + 1;
      IterationPoints(c, Point(x, y), fill) +
      (if err < 0 then CircleFrom(c, x, y', err + 2 * y' + 1, fill)
       else CircleFrom(c, x - 1, y', err + 2 * (y' - (x - 1) + 1), fill))
  }

  /** Every point screen_draw_circle hands to screen_draw_pixel, in order. */
  function CirclePoints(c: Point, radius: int, fill: int): seq<Point>
  {
    CircleFrom(c, radius, 0, 1 - radius, fill)
  }

  /** One iteration of the circle loop: its points, then those of the iterations after it. */
  lemma CirclePeel(c: Point, x: int, y: int, err: int, fill: int)
    requires x >= y
    ensures Flatten(IterationParts(c, CircleSteps(x, y, err), fill)) ==
            IterationPoints(c, Point(x, y), fill) +
            Flatten(IterationParts(c, if err < 0 then CircleSteps(x, y + 1, err + 2 * (y + 1) + 1)
                                      else CircleSteps(x - 1, y + 1, err + 2 * ((y + 1) - (x - 1) + 1)), fill))
  {
    var its := CircleSteps(x, y, err);
    var rest := if err < 0 then CircleSteps(x, y + 1, err + 2 * (y + 1) + 1)
                else CircleSteps(x - 1, y + 1, err + 2 * ((y + 1) - (x - 1) + 1));
    assert its == [Point(x, y)] + rest;
    var parts := IterationParts(c, its, fill);
    assert parts[1..] == IterationParts(c, rest, fill);
  }

  /** The loop's points are the per-iteration point lists of its iterations, concatenated. */
  lemma {:induction false} CircleFromParts(c: Point, x: int, y: int, err: int, fill: int)
    ensures CircleFrom(c, x, y, err, fill) == Flatten(IterationParts(c, CircleSteps(x, y, err), fill))
    decreases x - y
  {
    if x >= y {
      CirclePeel(c, x, y, err, fill);
      var x', err' := if err < 0 then x else x - 1,
                      if err < 0 then err + 2 * (y + 1) + 1 else err + 2 * ((y + 1) - (x - 1) + 1);
      CircleFromParts(c, x', y + 1, err', fill);
    }
  }

  function MirrorX(c: Point, q: Point): Point { Point(2 * c.x - q.x, q.y) }
  function MirrorY(c: Point, q: Point): Point { Point(q.x, 2 * c.y - q.y) }
  function SwapAxes(c: Point, q: Point): Point { Point(c.x + (q.y - c.y), c.y + (q.x - c.x)) }

  lemma {:induction false} FlattenMember(parts: seq<seq<Point>>, q: Point)
    ensures q in Flatten(parts) <==> exists i :: 0 <= i < |parts| && q in parts[i]
    decreases |parts|
  {
    if parts != [] {
      FlattenMember(parts[1..], q);
      if q in Flatten(parts[1..]) {
        var i :| 0 <= i < |parts[1..]| && q in parts[1..][i];
        assert parts[1..][i] == parts[i + 1];
      }
      if exists i :: 0 <= i < |parts| && q in parts[i] {
        var i :| 0 <= i < |parts| && q in parts[i];
        if i > 0 {
          assert parts[1..][i - 1] == parts[i];
        }
      }
    }
  }

  lemma OctantsSymmetric(c: Point, o: Point, q: Point)
    requires q in Octants(c, o)
    ensures MirrorX(c, q) in Octants(c, o) && MirrorY(c, q) in Octants(c, o) && SwapAxes(c, q) in Octants(c, o)
  {
    var os := Octants(c, o);
    var i :| 0 <= i < 8 && os[i] == q;
    var mx, my, sw := [3, 2, 1, 0, 7, 6, 5, 4], [7, 6, 5, 4, 3, 2, 1, 0], [1, 0, 7, 6, 5, 4, 3, 2];
    assert os[mx[i]] == MirrorX(c, q);
    assert os[my[i]] == MirrorY(c, q);
    assert os[sw[i]] == SwapAxes(c, q);
  }

  /**
   * An unfilled circle is octant-symmetric: its set of pixels is closed under
   * mirroring about the centre's vertical and horizontal axes and about the
   * diagonal.
   */
  lemma CircleSymmetric(c: Point, radius: int, q: Point)
    requires q in CirclePoints(c, radius, 0)
    ensures MirrorX(c, q) in CirclePoints(c, radius, 0)
    ensures MirrorY(c, q) in CirclePoints(c, radius, 0)
    ensures SwapAxes(c, q) in CirclePoints(c, radius, 0)
  {
    CircleFromParts(c, radius, 0, 1 - radius, 0);
    var parts := IterationParts(c, CircleIterations(radius), 0);
    FlattenMember(parts, q);
    var i :| 0 <= i < |parts| && q in parts[i];
    OctantsSymmetric(c, CircleIterations(radius)[i], q);
    FlattenMember(parts, MirrorX(c, q));
    FlattenMember(parts, MirrorY(c, q));
    FlattenMember(parts, SwapAxes(c, q));
  }

  lemma OctantsBounded(c: Point, o: Point, q: Point)
    requires 0 <= o.y <= o.x
    requires q in Octants(c, o)
    ensures Abs(q.x - c.x) <= o.x && Abs(q.y - c.y) <= o.x
  {
    var os := Octants(c, o);
    var i :| 0 <= i < 8 && os[i] == q;
  }

  lemma SpanBounded(a: Point, b: Point, q: Point)
    requires a.y == b.y && a.x <= b.x && q in LinePoints(a, b)
    ensures a.x <= q.x <= b.x && q.y == a.y
  {
    LineIsSpan(a.x, b.x, a.y);
  }

  lemma SpansBounded(c: Point, o: Point, q: Point)
    requires 0 <= o.y <= o.x
    requires q in Spans(c, o)
    ensures c.x - o.x <= q.x <= c.x + o.x && c.y - o.x <= q.y <= c.y + o.x
  {
    var a1, b1 := Point(c.x - o.x, c.y + o.y), Point(c.x + o.x, c.y + o.y);
    var a2, b2 := Point(c.x - o.y, c.y + o.x), Point(c.x + o.y, c.y + o.x);
    var a3, b3 := Point(c.x - o.x, c.y - o.y), Point(c.x + o.x, c.y - o.y);
    var a4, b4 := Point(c.x - o.y, c.y - o.x), Point(c.x + o.y, c.y - o.x);
    var h1, h2 := LinePoints(a1, b1) + LinePoints(a2, b2), LinePoints(a3, b3) + LinePoints(a4, b4);
    assert q in h1 + h2;
    if q in h1 {
      PairWithin(c, o.x, a1, b1, a2, b2, q);
    } else {
      PairWithin(c, o.x, a3, b3, a4, b4, q);
    }
  }

  /** Two spans inside the square of half-side r around c stay inside it. */
  lemma PairWithin(c: Point, r: int, a1: Point, b1: Point, a2: Point, b2: Point, q: Point)
    requires a1.y == b1.y && c.x - r <= a1.x <= b1.x <= c.x + r && c.y - r <= a1.y <= c.y + r
    requires a2.y == b2.y && c.x - r <= a2.x <= b2.x <= c.x + r && c.y - r <= a2.y <= c.y + r
    requires q in LinePoints(a1, b1) + LinePoints(a2, b2)
    ensures c.x - r <= q.x <= c.x + r && c.y - r <= q.y <= c.y + r
  {
    if q in LinePoints(a1, b1) {
      SpanWithin(c, r, a1, b1, q);
    } else {
      SpanWithin(c, r, a2, b2, q);
    }
  }

  /** A span inside the square of half-side r around c stays inside it. */
  lemma SpanWithin(c: Point, r: int, a: Point, b: Point, q: Point)
    requires a.y == b.y && c.x - r <= a.x <= b.x <= c.x + r && c.y - r <= a.y <= c.y + r
    requires q in LinePoints(a, b)
    ensures c.x - r <= q.x <= c.x + r && c.y - r <= q.y <= c.y + r
  {
    SpanBounded(a, b, q);
  }

  /** The bound of CircleBounded, over the iterations' point lists. */
  lemma IterationsBounded(c: Point, radius: int, fill: int, q: Point)
    requires q in Flatten(IterationParts(c, CircleIterations(radius), fill))
    ensures Abs(q.x - c.x) <= radius && Abs(q.y - c.y) <= radius
  {
    var its := CircleIterations(radius);
    var parts := IterationParts(c, its, fill);
    FlattenMember(parts, q);
    var i :| 0 <= i < |parts| && q in parts[i];
    CircleIterationsShape(radius);
    IterationBounded(c, its[i], fill, q);
  }

  /** The points of one iteration at offset o lie within o.x of the centre. */
  lemma IterationBounded(c: Point, o: Point, fill: int, q: Point)
    requires 0 <= o.y <= o.x
    requires q in IterationPoints(c, o, fill)
    ensures Abs(q.x - c.x) <= o.x && Abs(q.y - c.y) <= o.x
  {
    if fill == 1 {
      SpansBounded(c, o, q);
    } else {
      OctantsBounded(c, o, q);
    }
  }

  /** Filled or not, a circle never plots outside the square of side 2r + 1 around its centre. */
  lemma CircleBounded(c: Point, radius: int, fill: int, q: Point)
    requires q in CirclePoints(c, radius, fill)
    ensures Abs(q.x - c.x) <= radius && Abs(q.y - c.y) <= radius
  {
    CircleFromParts(c, radius, 0, 1 - radius, fill);
    IterationsBounded(c, radius, fill, q);
  }

  // ---------------------------------------------------------------------------
  // The drawing loops, one step at a time

  /** A rectangle row from column x: the pixel (x, y) if the source's test selects it, then the rest. */
  lemma PaintRectRowStep(mode: Mode, buf: seq<byte>, width: int, p1: Point, p2: Point, fill: int, y: int, x: int, c: Color)
    requires p1.x <= x <= p2.x && p1.y <= y <= p2.y
    ensures Paint(mode, buf, width, RectRow(p1, p2, fill, y, x), c) ==
            Paint(mode, if fill == 1 || x == p1.x || x == p2.x || y == p1.y || y == p2.y
                        then Plot(mode, buf, width, Point(x, y), c) else buf,
                  width, RectRow(p1, p2, fill, y, x + 1), c)
  {
    var rest := RectRow(p1, p2, fill, y, x + 1);
    if fill == 1 || x == p1.x || x == p2.x || y == p1.y || y == p2.y {
      PaintCons(mode, buf, width, Point(x, y), rest, c);
    } else {
      assert RectRow(p1, p2, fill, y, x) == [] + rest;
      assert [] + rest == rest;
    }
  }

  /** A row of the rectangle, then the rows below it. */
  lemma PaintRectRowsStep(mode: Mode, buf: seq<byte>, width: int, p1: Point, p2: Point, fill: int, y: int, c: Color)
    requires y <= p2.y
    ensures Paint(mode, buf, width, RectRows(p1, p2, fill, y), c) ==
            Paint(mode, Paint(mode, buf, width, RectRow(p1, p2, fill, y, p1.x), c), width, RectRows(p1, p2, fill, y + 1), c)
  {
    PaintAppend(mode, buf, width, RectRow(p1, p2, fill, y, p1.x), RectRows(p1, p2, fill, y + 1), c);
  }

  /** Four point lists painted as (a + b) + (c + d) or one after another give the same buffer. */
  lemma PaintFour(mode: Mode, buf: seq<byte>, width: int, a: seq<Point>, b: seq<Point>, d: seq<Point>, e: seq<Point>, c: Color)
    ensures Paint(mode, buf, width, (a + b) + (d + e), c) ==
            Paint(mode, Paint(mode, Paint(mode, Paint(mode, buf, width, a, c), width, b, c), width, d, c), width, e, c)
  {
    PaintAppend(mode, buf, width, a + b, d + e, c);
    PaintAppend(mode, buf, width, a, b, c);
    PaintAppend(mode, Paint(mode, Paint(mode, buf, width, a, c), width, b, c), width, d, e, c);
  }

  /** One iteration of screen_draw_circle: its pixels, then those of the iterations after it. */
  lemma PaintCircleStep(mode: Mode, buf: seq<byte>, width: int, ctr: Point, x: int, y: int, err: int, fill: int, c: Color)
    requires x >= y
    ensures Paint(mode, buf, width, CircleFrom(ctr, x, y, err, fill), c) ==
            Paint(mode, Paint(mode, buf, width, IterationPoints(ctr, Point(x, y), fill), c), width,
                  if err < 0 then CircleFrom(ctr, x, y + 1, err + 2 * (y + 1) + 1, fill)
                  else CircleFrom(ctr, x - 1, y + 1, err + 2 * ((y + 1) - (x - 1) + 1), fill), c)
  {
    PaintAppend(mode, buf, width, IterationPoints(ctr, Point(x, y), fill),
                if err < 0 then CircleFrom(ctr, x, y + 1, err + 2 * (y + 1) + 1, fill)
                else CircleFrom(ctr, x - 1, y + 1, err + 2 * ((y + 1) - (x - 1) + 1), fill), c);
  }
}
