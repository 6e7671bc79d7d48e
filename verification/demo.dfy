/**
 * main.c: the first version of the renderer. Its screen is a fixed 640 x 480
 * RGBA buffer whose pixel writes overwrite (a Canvas in Overwrite mode), and
 * its main loop redraws the screen border every frame in a pulsing green.
 */
module Demo {
  import opened Raster
  import C = Canvas

  const ScreenWidth := 640
  const ScreenHeight := 480

  /** s_sdl_master's `screen` array after init: 640 x 480 pixels of opaque black. */
  method NewScreen() returns (screen: C.Canvas)
    ensures fresh(screen.pixels) && screen.Valid()
    ensures screen.width == ScreenWidth && screen.height == ScreenHeight && screen.mode == Overwrite
    ensures screen.pixels[..] == Cleared(ScreenWidth * ScreenHeight * 4)
  {
    screen := new C.Canvas(ScreenWidth, ScreenHeight, 1, Overwrite);
    screen.Clear();
  }

  // ---------------------------------------------------------------------------
  // The green oscillator of main's loop

  /** The counter update at the top of each frame. */
  function Tick(i: int): int
  {
    if i >= 255 then -255 else i + 8
  }

  /** The counter after `n` frames; it starts at 0. */
  function Counter(n: nat): int
  {
    if n == 0 then 0 else Tick(Counter(n - 1))
  }

  /** Any counter in -255..262 stays there: the bound the loop keeps for any start inside it. */
  lemma TickRange(i: int)
    requires -255 <= i <= 262
    ensures -255 <= Tick(i) <= 262
  {
  }

  /**
   * From 0 the counter climbs in steps of 8 to 256 or 257 and then jumps to
   * -255: it is always in -255..257 and is 0 or 1 modulo 8.
   */
  lemma {:induction false} CounterRange(n: nat)
    ensures -255 <= Counter(n) <= 257
    ensures Counter(n) % 8 == 0 || Counter(n) % 8 == 1
  {
    if n > 0 {
      CounterRange(n - 1);
    }
  }

  /** For the first 32 frames the counter is 8 times the frame number. */
  lemma {:induction false} CounterRamp(n: nat)
    requires n <= 32
    ensures Counter(n) == 8 * n
  {
    if n > 0 {
      CounterRamp(n - 1);
    }
  }

  /** The green byte as main.c stores it: `i < 0 ? -i - 1 : i` converted to a Uint8. */
  function GreenAsWritten(i: int): byte
  {
    (if i < 0 then -i - 1 else i) % 256
  }

  /** The expression before conversion is never negative, and at most 254 for a negative counter. */
  lemma GreenLevelRange(i: int)
    requires -255 <= i <= 257
    ensures 0 <= (if i < 0 then -i - 1 else i) <= 257
    ensures i < 0 ==> 0 <= -i - 1 <= 254
  {
  }

  /**
   * The counter does reach 256 (frame 32) and 257: there the conversion wraps
   * and the green that had risen to 248 drops to 0 (and 1), a dark flash at
   * the top of every pulse.
   */
  lemma GreenWraps()
    ensures Counter(31) == 248 && GreenAsWritten(Counter(31)) == 248
    ensures Counter(32) == 256 && GreenAsWritten(Counter(32)) == 0
    ensures GreenAsWritten(257) == 1
  {
    CounterRamp(31);
    CounterRamp(32);
  }

  /** The green the pulse evidently means: the same expression, saturated at 255. */
  function Green(i: int): byte
  {
    Min(Max(if i < 0 then -i - 1 else i, 0), 255)
  }

  /**
   * The saturated green agrees with main.c wherever main.c does not wrap, and
   * is 255 at the top of the pulse.
   */
  lemma GreenCorrected(n: nat)
    ensures Counter(n) <= 255 ==> Green(Counter(n)) == GreenAsWritten(Counter(n))
    ensures Counter(n) >= 255 ==> Green(Counter(n)) == 255
  {
    CounterRange(n);
  }

  /** The colour of the border in a frame with counter `i`, with main.c's Uint8 green. */
  function FrameColor(i: int): Color
  {
    Color(0, GreenAsWritten(i), 0, 255)
  }

  /** The outline main draws every frame: the border of the whole screen. */
  function Border(): seq<Point>
  {
    RectPoints(Point(0, 0), Point(ScreenWidth - 1, ScreenHeight - 1), 0)
  }

  /**
   * `frames` iterations of main's loop on the screen: step the counter, then
   * outline the screen in the frame's green. Events and presenting the frame
   * are not modelled. Because every frame overwrites the same pixels, the
   * screen shows the border in the colour of the last frame only.
   */
  method RunFrames(screen: C.Canvas, frames: nat) returns (i: int)
    requires screen.Valid() && screen.width == ScreenWidth && screen.height == ScreenHeight
    requires screen.mode == Overwrite
    modifies screen.pixels
    ensures i == Counter(frames)
    ensures frames == 0 ==> screen.pixels[..] == old(screen.pixels[..])
    ensures frames > 0 ==> screen.pixels[..] == Paint(Overwrite, old(screen.pixels[..]), ScreenWidth, Border(), FrameColor(i))
  {
    i := 0;
    var k := 0;
    while k < frames
      invariant 0 <= k <= frames && i == Counter(k)
      invariant k == 0 ==> screen.pixels[..] == old(screen.pixels[..])
      invariant k > 0 ==> screen.pixels[..] == Paint(Overwrite, old(screen.pixels[..]), ScreenWidth, Border(), FrameColor(i))
    {
      ghost var last := i;
      if i >= 255 {
        i := -255;
      } else {
        i := i + 8;
      }
      var color := Color(0, GreenAsWritten(i), 0, 255);
      screen.DrawRect(Point(0, 0), Point(ScreenWidth - 1, ScreenHeight - 1), color, 0);
      if k > 0 {
        OverwriteRepaint(old(screen.pixels[..]), ScreenWidth, Border(), FrameColor(last), color);
      }
      k := k + 1;
    }
  }

  /** An unfilled box with its corner at the origin overwrites pixel (0, 0) with its colour. */
  lemma OriginCorner(buf: seq<byte>, width: int, p2: Point, c: Color)
    requires |buf| % 4 == 0 && |buf| >= 4 && 0 <= p2.x && 0 <= p2.y
    ensures Paint(Overwrite, buf, width, RectPoints(Point(0, 0), p2, 0), c)[..4] == [c.r, c.g, c.b, c.a]
  {
    var pts := RectPoints(Point(0, 0), p2, 0);
    RectPointsExact(Point(0, 0), p2, 0, Point(0, 0));
    var i :| 0 <= i < |pts| && pts[i] == Point(0, 0);
    forall k | 0 <= k < 4
      ensures Paint(Overwrite, buf, width, pts, c)[k] == ColorByte(c, k)
    {
      assert Touches(width, pts[i], k);
      OverwriteAt(buf, width, pts, c, k);
    }
  }

  /** Whatever the screen held, the border's top-left pixel shows the frame's colour. */
  lemma BorderCorner(buf: seq<byte>, c: Color)
    requires |buf| == ScreenWidth * ScreenHeight * 4
    ensures Paint(Overwrite, buf, ScreenWidth, Border(), c)[..4] == [c.r, c.g, c.b, c.a]
  {
    OriginCorner(buf, ScreenWidth, Point(ScreenWidth - 1, ScreenHeight - 1), c);
  }

  /**
   * What the dark flash looks like on screen: after frame 32 the top-left
   * pixel of the border, whatever it held before, is opaque black.
   */
  lemma BorderFlash(buf: seq<byte>)
    requires |buf| == ScreenWidth * ScreenHeight * 4
    ensures Paint(Overwrite, buf, ScreenWidth, Border(), FrameColor(Counter(32)))[..4] == [0, 0, 0, 255]
  {
    GreenWraps();
    BorderCorner(buf, FrameColor(Counter(32)));
  }
}
