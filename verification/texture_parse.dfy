/**
 * texture_parse (main.normless.c): reads a texture file byte by byte,
 * assembles lines of at most 255 characters and classifies each finished
 * line. The layout is a plain-PPM ("P3") subset with one sample per line:
 *
 *   line 0   magic ("P3"), ignored
 *   line 1   "<size> <size>": the first field becomes the texture size and a
 *            size * size * 3 sample buffer is allocated
 *   line 2   maximum value, ignored
 *   line 3+  one sample 0..255 each, stored at index current_line - 3
 *
 * Empty lines and lines starting with '#' are skipped, except
 * "# is_solid <n>", which sets the solidity to (n == 1). The file contents
 * are a parameter (`input`); the read loop's end of file is its end.
 */
module TextureParse {
  import opened Raster
  import opened Split
  import T = Textures

  /** How a parse ends: still reading at end of file, a sample out of 0..255, or undefined behaviour in C. */
  datatype Status = Reading | ColorError(value: int) | Undefined

  /** The parser's variables: the pending line, current_line and the texture fields it writes. */
  datatype Parser = Parser(line: seq<char>, currentLine: int, size: int, isSolid: bool,
                           pixels: seq<byte>, status: Status)

  // ---------------------------------------------------------------------------
  // C string helpers

  /** The first NUL at or after i, or |s|. */
  function NulFrom(s: seq<char>, i: int): (k: int)
    requires 0 <= i <= |s|
    ensures i <= k <= |s| && (k == |s| || s[k] == '\0')
    ensures forall j :: i <= j < k ==> s[j] != '\0'
    decreases |s| - i
  {
    if i == |s| || s[i] == '\0' then i else NulFrom(s, i + 1)
  }

  /** The C string a character buffer holds: everything before its first NUL. */
  function CText(s: seq<char>): (r: string)
    ensures NoNul(r) && r <= s
  {
    s[..NulFrom(s, 0)]
  }

  /** ft_startswith, taken as a plain prefix test. */
  predicate StartsWith(s: string, prefix: string)
  {
    prefix <= s
  }

  predicate IsSpace(c: char)
  {
    c == ' ' || c == '\t' || c == '\n' || c == '\r' || c as int == 11 || c as int == 12
  }

  predicate IsDigit(c: char)
  {
    '0' <= c <= '9'
  }

  /** The first position at or after i that does not hold white space. */
  function SpaceEnd(s: string, i: int): (k: int)
    requires 0 <= i <= |s|
    ensures i <= k <= |s| && (k == |s| || !IsSpace(s[k]))
    decreases |s| - i
  {
    if i == |s| || !IsSpace(s[i]) then i else SpaceEnd(s, i + 1)
  }

  /** The first position at or after i that does not hold a digit. */
  function DigitEnd(s: string, i: int): (k: int)
    requires 0 <= i <= |s|
    ensures i <= k <= |s| && (k == |s| || !IsDigit(s[k]))
    ensures forall j :: i <= j < k ==> IsDigit(s[j])
    decreases |s| - i
  {
    if i == |s| || !IsDigit(s[i]) then i else DigitEnd(s, i + 1)
  }

  /** The decimal value of the digits s[i..e]. */
  function DigitsValue(s: string, i: int, e: int): (v: nat)
    requires 0 <= i <= e <= |s|
    decreases e - i
  {
    if e == i then 0 else DigitsValue(s, i, e - 1) * 10 + ((s[e - 1] as int - '0' as int) % 10)
  }

  /** atoi: optional white space, an optional sign, then the longest run of decimal digits. */
  function Atoi(s: string): int
  {
    var i := SpaceEnd(s, 0);
    if i < |s| && s[i] == '-' then -(DigitsValue(s, i + 1, DigitEnd(s, i + 1)) as int)
    else if i < |s| && s[i] == '+' then DigitsValue(s, i + 1, DigitEnd(s, i + 1))
    else DigitsValue(s, i, DigitEnd(s, i))
  }

  /** The decimal text of a natural number, without leading zeros. */
  function Decimal(n: nat): (r: string)
    ensures |r| > 0 && forall j :: 0 <= j < |r| ==> IsDigit(r[j])
  {
    var d := ['0' + (n % 10) as char];
    if n < 10 then d else Decimal(n / 10) + d
  }

  /** The digits before e do not depend on what follows them. */
  lemma {:induction false} DigitsValuePrefix(a: string, b: string, e: int)
    requires 0 <= e <= |a|
    ensures DigitsValue(a + b, 0, e) == DigitsValue(a, 0, e)
    decreases e
  {
    if e > 0 {
      DigitsValuePrefix(a, b, e - 1);
    }
  }

  /** The value of Decimal(n) is n. */
  lemma {:induction false} DecimalValue(n: nat)
    ensures DigitsValue(Decimal(n), 0, |Decimal(n)|) == n
  {
    if n >= 10 {
      var a := Decimal(n / 10);
      var d := ['0' + (n % 10) as char];
      DecimalValue(n / 10);
      DigitsValuePrefix(a, d, |a|);
      assert Decimal(n) == a + d;
    }
  }

  /** atoi reads back the decimal text of any natural number. */
  lemma AtoiDecimal(n: nat)
    ensures Atoi(Decimal(n)) == n
  {
    var s := Decimal(n);
    assert SpaceEnd(s, 0) == 0;
    var e := DigitEnd(s, 0);
    assert e == |s|;
    DecimalValue(n);
  }

  // ---------------------------------------------------------------------------
  // The specification: one step per byte

  const SolidPrefix := "# is_solid "

  /** The number of samples of a size x size RGB texture. */
  function SampleCount(size: int): nat
  {
    size * size * 3
  }

  /** A fresh sample buffer: malloc'd bytes, taken as 0. */
  function Zeros(n: int): (r: seq<byte>)
    requires n >= 0
    ensures |r| == n
  {
    seq(n, _ => 0)
  }

  /** The parser before the first byte, for a texture with the given fields. */
  function Start(size: int, isSolid: bool, pixels: seq<byte>): Parser
  {
    Parser([], 0, size, isSolid, pixels, Reading)
  }

  /**
   * What a finished line does, given its C text. Every branch that goes on
   * reading empties the pending line. The UB cases: "# is_solid" with fewer
   * than three fields (ft_split(...)[2] is NULL or past the array), a size
   * line without any field, and a sample beyond the allocated buffer.
   */
  function EndLine(p: Parser, text: string): Parser
    requires NoNul(text)
  {
    if StartsWith(text, SolidPrefix) then
      var fields := Tokens(text, " ");
      if |fields| <= 2 then p.(status := Undefined)
      else p.(line := [], isSolid := Atoi(fields[2]) == 1)
    else if text == [] || text[0] == '#' then p.(line := [])
    else if p.currentLine == 0 || p.currentLine == 2 then p.(line := [], currentLine := p.currentLine + 1)
    else if p.currentLine == 1 then
      var fields := Tokens(text, " ");
      if |fields| == 0 then p.(status := Undefined)
      else
        var size := Atoi(fields[0]);
        p.(line := [], size := size, pixels := Zeros(SampleCount(size)), currentLine := 2)
    else
      var sample := Atoi(text);
      if sample < 0 || sample > 255 then p.(status := ColorError(sample))
      else if !(0 <= p.currentLine - 3 < |p.pixels|) then p.(status := Undefined)
      else p.(line := [], pixels := p.pixels[p.currentLine - 3 := sample], currentLine := p.currentLine + 1)
  }

  /**
   * One byte read. A newline, or any byte once the line holds 255 characters,
   * ends the line; that byte itself is dropped. A stopped parser reads nothing.
   */
  function Feed(p: Parser, b: char): Parser
  {
    if p.status != Reading then p
    else if b == '\n' || |p.line| >= 255 then EndLine(p, CText(p.line))
    else p.(line := p.line + [b])
  }

  /** The parser after reading all of `input`. */
  function Run(p: Parser, input: seq<char>): Parser
  {
    if input == [] then p else Feed(Run(p, input[..|input| - 1]), input[|input| - 1])
  }

  // ---------------------------------------------------------------------------
  // Properties of the specification

  /** Reading a + b is reading a, then b. */
  lemma {:induction false} RunAppend(p: Parser, a: seq<char>, b: seq<char>)
    ensures Run(p, a + b) == Run(Run(p, a), b)
    decreases |b|
  {
    if b != [] {
      var c := b[|b| - 1];
      assert (a + b)[..|a + b| - 1] == a + b[..|b| - 1] && (a + b)[|a + b| - 1] == c;
      RunAppend(p, a, b[..|b| - 1]);
      assert Run(p, a + b) == Feed(Run(p, a + b[..|b| - 1]), c);
    } else {
      assert a + b == a;
    }
  }

  /** Once the parser stops, nothing read later changes it. */
  lemma {:induction false} RunStopped(p: Parser, input: seq<char>)
    requires p.status != Reading
    ensures Run(p, input) == p
    decreases |input|
  {
    if input != [] {
      RunStopped(p, input[..|input| - 1]);
    }
  }

  /**
   * Bytes without a newline that fit in the line only extend the pending line:
   * in particular trailing bytes after the last newline are never processed.
   */
  lemma {:induction false} RunChars(p: Parser, t: seq<char>)
    requires p.status == Reading && |p.line| + |t| <= 255 && '\n' !in t
    ensures Run(p, t) == p.(line := p.line + t)
    decreases |t|
  {
    if t != [] {
      var u := t[..|t| - 1];
      assert '\n' !in u by {
        assert forall j :: 0 <= j < |u| ==> u[j] == t[j];
      }
      RunChars(p, u);
      assert p.line + u + [t[|t| - 1]] == p.line + t;
    }
  }

  /** A full line: any byte that arrives when 255 characters are pending acts as a newline and is dropped. */
  lemma FullLineCut(p: Parser, b: char)
    requires |p.line| >= 255
    ensures Feed(p, b) == Feed(p, '\n')
  {
  }

  /** Reading a line of at most 255 characters without NUL and its newline from an empty line. */
  lemma RunLine(p: Parser, text: string)
    requires p.status == Reading && p.line == [] && |text| <= 255 && '\n' !in text && NoNul(text)
    ensures Run(p, text + "\n") == EndLine(p.(line := text), text)
  {
    RunAppend(p, text, "\n");
    RunChars(p, text);
    assert [] + text == text;
    assert NulFrom(text, 0) == |text| by {
      var k := NulFrom(text, 0);
      if k < |text| {
        assert text[k] in text;
      }
    }
    assert text[..|text|] == text;
  }

  // ---------------------------------------------------------------------------
  // Texture files

  function Pow10(k: nat): nat
  {
    if k == 0 then 1 else 10 * Pow10(k - 1)
  }

  /** A number below 10^k has at most k decimal digits. */
  lemma {:induction false} DecimalLength(n: nat, k: nat)
    requires 1 <= k && n < Pow10(k)
    ensures |Decimal(n)| <= k
  {
    if n >= 10 {
      assert Pow10(1) == 10;
      assert n / 10 < Pow10(k - 1);
      DecimalLength(n / 10, k - 1);
    }
  }

  /** Digits are neither NUL, nor a newline, nor a blank, nor '#'. */
  lemma DigitsPlain(d: string)
    requires forall j :: 0 <= j < |d| ==> IsDigit(d[j])
    ensures NoNul(d) && '\n' !in d && ' ' !in d && (d != [] ==> d[0] != '#')
  {
  }

  /** The second line of a texture file: the side length, twice. */
  function SizeLine(size: nat): string
  {
    Decimal(size) + " " + Decimal(size)
  }

  /** The header of a texture file: magic, size line and maximum value. */
  function Header(size: nat): string
  {
    ("P3" + "\n") + (SizeLine(size) + "\n") + ("255" + "\n")
  }

  /** One sample per line, in order. */
  function SamplesText(vs: seq<byte>): string
  {
    if vs == [] then [] else (Decimal(vs[0]) + "\n") + SamplesText(vs[1..])
  }

  /** A texture file for a size x size texture with the given samples. */
  function Render(size: nat, samples: seq<byte>): string
  {
    Header(size) + SamplesText(samples)
  }

  /** The first field of the size line is the size. */
  lemma SizeLineFirstField(size: nat)
    ensures NoNul(SizeLine(size))
    ensures |Tokens(SizeLine(size), " ")| > 0 && Tokens(SizeLine(size), " ")[0] == Decimal(size)
  {
    var d := Decimal(size);
    var text := SizeLine(size);
    DigitsPlain(d);
    assert forall k :: 0 <= k < |d| ==> text[k] == d[k];
    TokensFromRun(text, " ", 0, |d|);
    assert text[0..|d|] == d;
    assert forall k :: 0 <= k < |text| ==> text[k] != '\0' by {
      forall k | 0 <= k < |text|
        ensures text[k] != '\0'
      {
        if k > |d| {
          assert text[k] == d[k - |d| - 1];
        }
      }
    }
  }

  /**
   * Reading the header from the start of a file: the size line sets the size
   * and allocates a buffer of size * size * 3 samples; the next line to read
   * is line 3.
   */
  lemma HeaderLines(p: Parser, size: nat)
    requires p.status == Reading && p.line == [] && p.currentLine == 0 && size <= 0x7fff_ffff
    ensures Run(p, Header(size)) == p.(currentLine := 3, size := size, pixels := Zeros(SampleCount(size)))
  {
    var l0 := "P3" + "\n";
    var l1 := SizeLine(size) + "\n";
    var l2 := "255" + "\n";
    var p1 := p.(currentLine := 1);
    var p2 := p.(currentLine := 2, size := size, pixels := Zeros(SampleCount(size)));
    var p3 := p2.(currentLine := 3);
    IgnoredHeaderLine(p, "P3");
    SizeLineRun(p1, size);
    IgnoredHeaderLine(p2, "255");
    RunThree(p, l0, l1, l2, p1, p2, p3);
  }

  /** Reading three pieces one after the other. */
  lemma RunThree(p: Parser, a: seq<char>, b: seq<char>, c: seq<char>, q1: Parser, q2: Parser, q3: Parser)
    requires Run(p, a) == q1 && Run(q1, b) == q2 && Run(q2, c) == q3
    ensures Run(p, a + b + c) == q3
  {
    RunAppend(p, a + b, c);
    RunAppend(p, a, b);
  }

  /** Lines 0 and 2 of the header are only counted. */
  lemma IgnoredHeaderLine(p: Parser, text: string)
    requires p.status == Reading && p.line == [] && (p.currentLine == 0 || p.currentLine == 2)
    requires text == "P3" || text == "255"
    ensures Run(p, text + "\n") == p.(currentLine := p.currentLine + 1)
  {
    RunLine(p, text);
  }

  /** The size line sets the size and allocates the sample buffer. */
  lemma SizeLineRun(p: Parser, size: nat)
    requires p.status == Reading && p.line == [] && p.currentLine == 1 && size <= 0x7fff_ffff
    ensures Run(p, SizeLine(size) + "\n") == p.(currentLine := 2, size := size, pixels := Zeros(SampleCount(size)))
  {
    DecimalLength(size, 10);
    SizeLineFirstField(size);
    AtoiDecimal(size);
    DigitsPlain(Decimal(size));
    RunLine(p, SizeLine(size));
  }

  /**
   * Reading one sample line at line 3 or later: a value above 255 stops the
   * parse with ColorError, a value past the end of the buffer is undefined
   * behaviour, and any other value is stored at index current_line - 3.
   */
  lemma SampleLine(p: Parser, n: nat)
    requires p.status == Reading && p.line == [] && p.currentLine >= 3 && |Decimal(n)| <= 255
    ensures Run(p, Decimal(n) + "\n")
         == if n > 255 then p.(line := Decimal(n), status := ColorError(n))
            else if p.currentLine - 3 < |p.pixels| then p.(pixels := p.pixels[p.currentLine - 3 := n], currentLine := p.currentLine + 1)
            else p.(line := Decimal(n), status := Undefined)
  {
    var d := Decimal(n);
    DigitsPlain(d);
    RunLine(p, d);
    AtoiDecimal(n);
    assert !StartsWith(d, SolidPrefix) by {
      assert SolidPrefix[0] == '#';
    }
    EndLineSample(p.(line := d), d);
  }

  /** The branch of EndLine for a sample line. */
  lemma EndLineSample(p: Parser, text: string)
    requires NoNul(text) && text != [] && text[0] != '#' && !StartsWith(text, SolidPrefix) && p.currentLine >= 3
    ensures var v := Atoi(text);
      EndLine(p, text)
      == if v < 0 || v > 255 then p.(status := ColorError(v))
         else if !(0 <= p.currentLine - 3 < |p.pixels|) then p.(status := Undefined)
         else p.(line := [], pixels := p.pixels[p.currentLine - 3 := v], currentLine := p.currentLine + 1)
  {
  }

  /** Sample lines fill the buffer in order from index j on. */
  lemma {:induction false} SampleLines(p: Parser, vs: seq<byte>, j: int)
    requires p.status == Reading && p.line == [] && 0 <= j && p.currentLine == 3 + j && j + |vs| == |p.pixels|
    ensures Run(p, SamplesText(vs)) == p.(currentLine := 3 + j + |vs|, pixels := p.pixels[..j] + vs)
    decreases |vs|
  {
    if vs == [] {
      assert p.pixels[..j] + vs == p.pixels;
    } else {
      var q := p.(pixels := p.pixels[j := vs[0]], currentLine := 4 + j);
      FirstSampleLine(p, vs, j);
      SampleLines(q, vs[1..], j + 1);
      StoreStep(p.pixels, vs, j);
    }
  }

  /** Storing vs[0] at j, then the rest of vs after it, stores vs at j. */
  lemma StoreStep(pixels: seq<byte>, vs: seq<byte>, j: int)
    requires 0 <= j < |pixels| && vs != []
    ensures pixels[j := vs[0]][..j + 1] + vs[1..] == pixels[..j] + vs
  {
    assert pixels[j := vs[0]][..j + 1] == pixels[..j] + [vs[0]];
    assert vs == [vs[0]] + vs[1..];
  }

  /** The first of the sample lines stores its value at index j. */
  lemma FirstSampleLine(p: Parser, vs: seq<byte>, j: int)
    requires p.status == Reading && p.line == [] && 0 <= j && p.currentLine == 3 + j && j < |p.pixels| && vs != []
    ensures Run(p, SamplesText(vs)) == Run(p.(pixels := p.pixels[j := vs[0]], currentLine := 4 + j), SamplesText(vs[1..]))
  {
    var v := vs[0];
    var line := Decimal(v) + "\n";
    assert Pow10(3) == 1000;
    DecimalLength(v as nat, 3);
    SampleLine(p, v as nat);
    assert SamplesText(vs) == line + SamplesText(vs[1..]);
    RunAppend(p, line, SamplesText(vs[1..]));
  }

  /**
   * A texture file with one line per sample parses back to that texture:
   * reading it from the start gives the size and exactly the samples, and the
   * parser is still reading at the end of the file.
   */
  lemma RenderParse(size: nat, samples: seq<byte>, size0: int, isSolid0: bool, pixels0: seq<byte>)
    requires size <= 0x7fff_ffff && |samples| == SampleCount(size)
    ensures Run(Start(size0, isSolid0, pixels0), Render(size, samples))
         == Parser([], 3 + |samples|, size, isSolid0, samples, Reading)
  {
    var p := Start(size0, isSolid0, pixels0);
    RunAppend(p, Header(size), SamplesText(samples));
    HeaderLines(p, size);
    var q := p.(currentLine := 3, size := size, pixels := Zeros(SampleCount(size)));
    SampleLines(q, samples, 0);
    assert q.pixels[..0] + samples == samples;
  }

  /** "# is_solid <n>" on any line sets the solidity to n == 1 and changes nothing else. */
  lemma SolidLine(p: Parser, n: nat)
    requires p.status == Reading && p.line == [] && |Decimal(n)| <= 244
    ensures Run(p, SolidPrefix + Decimal(n) + "\n") == p.(isSolid := n == 1)
  {
    SolidLineFields(n);
    RunLine(p, SolidPrefix + Decimal(n));
    AtoiDecimal(n);
  }

  /** The fields of "# is_solid <n>" are "#", "is_solid" and the number. */
  lemma SolidLineFields(n: nat)
    ensures var text := SolidPrefix + Decimal(n);
      NoNul(text) && '\n' !in text && Tokens(text, " ") == ["#", "is_solid", Decimal(n)]
  {
    var d := Decimal(n);
    var text := SolidPrefix + d;
    DigitsPlain(d);
    assert forall k :: 0 <= k < |d| ==> text[11 + k] == d[k];
    assert NoNul(text) && '\n' !in text by {
      assert forall k :: 0 <= k < |text| ==> text[k] != '\0' && text[k] != '\n' by {
        forall k | 0 <= k < |text|
          ensures text[k] != '\0' && text[k] != '\n'
        {
          if k >= 11 {
            assert text[k] == d[k - 11];
          }
        }
      }
    }
    TokensFromRun(text, " ", 0, 1);
    assert TokensFrom(text, " ", 1) == TokensFrom(text, " ", 2);
    TokensFromRun(text, " ", 2, 10);
    assert TokensFrom(text, " ", 10) == TokensFrom(text, " ", 11);
    TokensFromRun(text, " ", 11, |text|);
    assert text[11..|text|] == d;
    assert text[0..1] == "#" && text[2..10] == "is_solid";
  }

  /** Empty lines and comments other than "# is_solid" change nothing. */
  lemma SkippedLine(p: Parser, text: string)
    requires p.status == Reading && p.line == [] && |text| <= 255 && '\n' !in text && NoNul(text)
    requires text == [] || (text[0] == '#' && !StartsWith(text, SolidPrefix))
    ensures Run(p, text + "\n") == p
  {
    RunLine(p, text);
  }

  // ---------------------------------------------------------------------------
  // The C function

  /**
   * texture_parse on a node: the model's state after the loop is the
   * specification's state after reading the whole input. On ColorError the C
   * program quits; on Undefined its behaviour is not defined and the model
   * stops.
   */
  method Parse(texture: T.Node, input: seq<char>) returns (status: Status)
    modifies texture
    ensures var r := Run(Start(old(texture.size), old(texture.isSolid), old(texture.pixels)), input);
      status == r.status && texture.size == r.size && texture.isSolid == r.isSolid && texture.pixels == r.pixels
  {
    ghost var start := Start(texture.size, texture.isSolid, texture.pixels);
    var line := new char[256];
    var lineLen := 0;
    var currentLine := 0;
    var k := 0;
    status := Reading;
    while k < |input|
      invariant 0 <= k <= |input| && 0 <= lineLen <= 255 && status == Reading
      invariant Run(start, input[..k])
             == Parser(line[..lineLen], currentLine, texture.size, texture.isSolid, texture.pixels, Reading)
    {
      ghost var q := Run(start, input[..k]);
      var buffer := input[k];
      RunStep(start, input, k);
      k := k + 1;
      if buffer == '\n' || lineLen >= 255 {
        status, currentLine := EndOfLine(texture, line, lineLen, currentLine);
        if status != Reading {
          RunRest(start, input, k);
          return;
        }
        lineLen := 0;
      } else {
        line[lineLen] := buffer;
        lineLen := lineLen + 1;
        assert line[..lineLen] == q.line + [buffer];
      }
    }
    assert input[..k] == input;
  }

  /**
   * A line is complete: terminate it, take its C text and classify it. The
   * result is EndLine of the parser that holds this line.
   */
  method EndOfLine(texture: T.Node, line: array<char>, lineLen: int, currentLine: int)
    returns (status: Status, currentLine': int)
    requires 0 <= lineLen < line.Length
    modifies texture, line
    ensures var p := Parser(old(line[..lineLen]), currentLine, old(texture.size), old(texture.isSolid), old(texture.pixels), Reading);
      var q := EndLine(p, CText(p.line));
      status == q.status && texture.size == q.size && texture.isSolid == q.isSolid && texture.pixels == q.pixels
      && (status == Reading ==> q.line == [] && q.currentLine == currentLine')
  {
    ghost var p := Parser(line[..lineLen], currentLine, texture.size, texture.isSolid, texture.pixels, Reading);
    line[lineLen] := '\0';
    assert line[..lineLen] == p.line;
    var text := LineText(line, lineLen);
    EndLineLine(p, text);
    status, currentLine' := ParseLine(texture, text, currentLine);
  }

  /** One more byte of the input is one more Feed. */
  lemma RunStep(p: Parser, input: seq<char>, k: int)
    requires 0 <= k < |input|
    ensures Run(p, input[..k + 1]) == Feed(Run(p, input[..k]), input[k])
  {
    assert input[..k + 1][..k] == input[..k];
  }

  /** A parser stopped after a prefix of the input is the parser after all of it. */
  lemma RunRest(p: Parser, input: seq<char>, k: int)
    requires 0 <= k <= |input| && Run(p, input[..k]).status != Reading
    ensures Run(p, input) == Run(p, input[..k])
  {
    assert input == input[..k] + input[k..];
    RunAppend(p, input[..k], input[k..]);
    RunStopped(Run(p, input[..k]), input[k..]);
  }

  /** EndLine does not look at the pending line: it only empties it when it goes on reading. */
  lemma EndLineLine(p: Parser, text: string)
    requires NoNul(text) && p.status == Reading
    ensures var q := EndLine(p.(line := []), text);
      EndLine(p, text) == if q.status == Reading then q else q.(line := p.line)
  {
  }

  /** The C string in line[..lineLen + 1], where line[lineLen] is the terminator just written. */
  method LineText(line: array<char>, lineLen: int) returns (text: string)
    requires 0 <= lineLen < line.Length && line[lineLen] == '\0'
    ensures text == CText(line[..lineLen])
  {
    var n := 0;
    while line[n] != '\0'
      invariant 0 <= n <= lineLen
      invariant forall j :: 0 <= j < n ==> line[j] != '\0'
      decreases lineLen - n
    {
      n := n + 1;
    }
    assert NulFrom(line[..lineLen], 0) == n by {
      NulFromExact(line[..lineLen], 0, n);
    }
    text := line[..n];
  }

  /** A position with no NUL before it and a NUL or the end at it is NulFrom. */
  lemma {:induction false} NulFromExact(s: seq<char>, i: int, k: int)
    requires 0 <= i <= k <= |s| && (k == |s| || s[k] == '\0')
    requires forall j :: i <= j < k ==> s[j] != '\0'
    ensures NulFrom(s, i) == k
    decreases k - i
  {
    if i < k {
      NulFromExact(s, i + 1, k);
    }
  }

  /**
   * The body of texture_parse's loop once a line is complete: classify the
   * line `text` and update the texture and current_line.
   */
  method ParseLine(texture: T.Node, text: string, currentLine: int) returns (status: Status, currentLine': int)
    requires NoNul(text)
    modifies texture
    ensures var p := Parser([], currentLine, old(texture.size), old(texture.isSolid), old(texture.pixels), Reading);
      var q := EndLine(p, text);
      status == q.status && currentLine' == q.currentLine
      && texture.size == q.size && texture.isSolid == q.isSolid && texture.pixels == q.pixels
  {
    status, currentLine' := Reading, currentLine;
    if StartsWith(text, SolidPrefix) {
      var fields := FtSplit(text, " ");
      if fields.Length <= 2 || fields[2] == None {
        return Undefined, currentLine;
      }
      texture.isSolid := Atoi(fields[2].value) == 1;
      return;
    }
    if text == [] || text[0] == '#' {
      return;
    }
    if currentLine == 0 || currentLine == 2 {
      return Reading, currentLine + 1;
    } else if currentLine == 1 {
      var fields := FtSplit(text, " ");
      if fields[0] == None {
        return Undefined, currentLine;
      }
      texture.size := Atoi(fields[0].value);
      texture.pixels := Zeros(SampleCount(texture.size));
      return Reading, currentLine + 1;
    }
    var integer := Atoi(text);
    if integer < 0 || integer > 255 {
      return ColorError(integer), currentLine;
    }
    if !(0 <= currentLine - 3 < |texture.pixels|) {
      return Undefined, currentLine;
    }
    texture.pixels := texture.pixels[currentLine - 3 := integer];
    return Reading, currentLine + 1;
  }
}
