/**
 * ft_split.c: split a C string into the maximal non-empty runs of characters
 * that are not in a separator set (the charset).
 *
 * A C string is modelled as the characters before its terminating NUL, so it
 * contains no '\0'; reading position |s| stands for reading the terminator.
 * Positions are indices into the one string `s`, as the C code's str_i and
 * str_j are.
 */
module Split {

  datatype Option<T> = None | Some(value: T)

  /** The text of a C string: no NUL before the end. */
  predicate NoNul(s: string)
  {
    '\0' !in s
  }

  /** The first position at or after p that holds a separator, or |s| if there is none. */
  function RunEnd(s: string, charset: string, p: int): (e: int)
    requires 0 <= p <= |s|
    ensures p <= e <= |s| && (e == |s| || s[e] in charset)
    ensures forall k :: p <= k < e ==> s[k] !in charset
    decreases |s| - p
  {
    if p == |s| || s[p] in charset then p else RunEnd(s, charset, p + 1)
  }

  /** Any position with no separator from p up to it, and a separator or the end at it, is RunEnd. */
  lemma {:induction false} RunEndExact(s: string, charset: string, p: int, e: int)
    requires 0 <= p <= e <= |s|
    requires forall k :: p <= k < e ==> s[k] !in charset
    requires e == |s| || s[e] in charset
    ensures RunEnd(s, charset, p) == e
    decreases e - p
  {
    if p < e {
      RunEndExact(s, charset, p + 1, e);
    }
  }

  /** The tokens of s[p..]: its maximal runs of non-separators, left to right. */
  function TokensFrom(s: string, charset: string, p: int): seq<string>
    requires 0 <= p <= |s|
    decreases |s| - p
  {
    if p == |s| then []
    else if s[p] in charset then TokensFrom(s, charset, p + 1)
    else
      var e := RunEnd(s, charset, p);
      [s[p..e]] + TokensFrom(s, charset, e)
  }

  /** The tokens of `s`. */
  function Tokens(s: string, charset: string): seq<string>
  {
    TokensFrom(s, charset, 0)
  }

  /**
   * s[a..b] is a maximal run: non-empty, free of separators, with a separator
   * or an end of the string on either side.
   */
  predicate MaximalRun(s: string, charset: string, a: int, b: int)
  {
    0 <= a < b <= |s| && (a == 0 || s[a - 1] in charset) && (b == |s| || s[b] in charset)
    && forall i :: a <= i < b ==> s[i] !in charset
  }

  /** Every token of s[p..], where p is the start or follows a separator, is a maximal run of `s`. */
  lemma {:induction false} TokensFromAreRuns(s: string, charset: string, p: int, k: int)
    requires 0 <= p <= |s| && (p == 0 || s[p - 1] in charset)
    requires 0 <= k < |TokensFrom(s, charset, p)|
    ensures exists a, b :: p <= a && MaximalRun(s, charset, a, b) && TokensFrom(s, charset, p)[k] == s[a..b]
    decreases |s| - p
  {
    if s[p] in charset {
      TokensFromAreRuns(s, charset, p + 1, k);
    } else {
      var e := RunEnd(s, charset, p);
      if k == 0 {
        assert MaximalRun(s, charset, p, e);
      } else {
        assert TokensFrom(s, charset, p)[k] == TokensFrom(s, charset, e)[k - 1];
        assert TokensFrom(s, charset, e) == TokensFrom(s, charset, e + 1);
        TokensFromAreRuns(s, charset, e + 1, k - 1);
      }
    }
  }

  /**
   * Every token is a maximal run s[a..b] of `s`. In particular leading,
   * trailing or repeated separators yield no empty token.
   */
  lemma TokenIsMaximalRun(s: string, charset: string, k: int)
    requires 0 <= k < |Tokens(s, charset)|
    ensures exists a, b :: MaximalRun(s, charset, a, b) && Tokens(s, charset)[k] == s[a..b]
  {
    TokensFromAreRuns(s, charset, 0, k);
  }

  /** Every maximal run that starts at or after p is a token of s[p..]. */
  lemma {:induction false} RunsAreTokensFrom(s: string, charset: string, p: int, a: int, b: int)
    requires 0 <= p <= a && MaximalRun(s, charset, a, b)
    ensures s[a..b] in TokensFrom(s, charset, p)
    decreases |s| - p
  {
    if s[p] in charset {
      RunsAreTokensFrom(s, charset, p + 1, a, b);
    } else {
      var e := RunEnd(s, charset, p);
      if a == p {
        RunEndExact(s, charset, a, b);
      } else {
        assert e < a;
        RunsAreTokensFrom(s, charset, e, a, b);
      }
    }
  }

  /** Conversely, every maximal run of `s` is one of its tokens. */
  lemma MaximalRunIsToken(s: string, charset: string, a: int, b: int)
    requires MaximalRun(s, charset, a, b)
    ensures s[a..b] in Tokens(s, charset)
  {
    RunsAreTokensFrom(s, charset, 0, a, b);
  }

  /** Where the tokens of s[p..] start, left to right. */
  function TokenStarts(s: string, charset: string, p: int): seq<int>
    requires 0 <= p <= |s|
    decreases |s| - p
  {
    if p == |s| then []
    else if s[p] in charset then TokenStarts(s, charset, p + 1)
    else [p] + TokenStarts(s, charset, RunEnd(s, charset, p))
  }

  /** A run starting at p is a token starting at p; the walk resumes after its end. */
  lemma TokenStartsStep(s: string, charset: string, p: int)
    requires 0 <= p < |s| && s[p] !in charset
    ensures var e := RunEnd(s, charset, p);
      var n := if e < |s| then e + 1 else e;
      && TokenStarts(s, charset, p) == [p] + TokenStarts(s, charset, n)
      && TokensFrom(s, charset, p) == [s[p..e]] + TokensFrom(s, charset, n)
  {
    var e := RunEnd(s, charset, p);
    if e < |s| {
      assert TokenStarts(s, charset, e) == TokenStarts(s, charset, e + 1);
      assert TokensFrom(s, charset, e) == TokensFrom(s, charset, e + 1);
    }
  }

  /** There is one start per token. */
  lemma {:induction false} TokenStartsLength(s: string, charset: string, p: int)
    requires 0 <= p <= |s|
    ensures |TokenStarts(s, charset, p)| == |TokensFrom(s, charset, p)|
    decreases |s| - p
  {
    if p < |s| {
      if s[p] in charset {
        TokenStartsLength(s, charset, p + 1);
      } else {
        TokenStartsLength(s, charset, RunEnd(s, charset, p));
      }
    }
  }

  /** The k-th token of s[p..] is the maximal run at the k-th start. */
  lemma {:induction false} TokenStartsAt(s: string, charset: string, p: int, k: int)
    requires 0 <= p <= |s| && (p == 0 || s[p - 1] in charset)
    requires 0 <= k < |TokenStarts(s, charset, p)|
    ensures var a := TokenStarts(s, charset, p)[k];
      && p <= a < |s| && MaximalRun(s, charset, a, RunEnd(s, charset, a))
      && k < |TokensFrom(s, charset, p)| && TokensFrom(s, charset, p)[k] == s[a..RunEnd(s, charset, a)]
    decreases |s| - p
  {
    TokenStartsLength(s, charset, p);
    if s[p] in charset {
      TokenStartsAt(s, charset, p + 1, k);
    } else {
      var e := RunEnd(s, charset, p);
      TokenStartsStep(s, charset, p);
      if k == 0 {
        assert MaximalRun(s, charset, p, e);
      } else {
        TokenStartsAt(s, charset, e + 1, k - 1);
      }
    }
  }

  /** Consecutive runs are apart: the k-th ends before the next one starts. */
  lemma {:induction false} TokenStartsOrdered(s: string, charset: string, p: int, k: int)
    requires 0 <= p <= |s| && (p == 0 || s[p - 1] in charset)
    requires 0 <= k < |TokenStarts(s, charset, p)| - 1
    ensures 0 <= TokenStarts(s, charset, p)[k] < |s|
    ensures RunEnd(s, charset, TokenStarts(s, charset, p)[k]) < TokenStarts(s, charset, p)[k + 1]
    decreases |s| - p
  {
    if s[p] in charset {
      TokenStartsOrdered(s, charset, p + 1, k);
    } else {
      var e := RunEnd(s, charset, p);
      TokenStartsStep(s, charset, p);
      if k == 0 {
        TokenStartsAt(s, charset, e + 1, 0);
      } else {
        TokenStartsOrdered(s, charset, e + 1, k - 1);
      }
    }
  }

  /** Every maximal run from p on begins at one of the starts. */
  lemma {:induction false} TokenStartsComplete(s: string, charset: string, p: int, a: int, b: int)
    requires 0 <= p <= a && MaximalRun(s, charset, a, b)
    ensures a in TokenStarts(s, charset, p)
    decreases |s| - p
  {
    if s[p] in charset {
      TokenStartsComplete(s, charset, p + 1, a, b);
    } else if a != p {
      var e := RunEnd(s, charset, p);
      TokenStartsStep(s, charset, p);
      assert s[a - 1] in charset;
      assert e < a;
      TokenStartsComplete(s, charset, e + 1, a, b);
    }
  }

  /**
   * The tokens by position: the k-th token is the maximal run that starts at
   * the k-th start, the runs come strictly left to right, and every maximal
   * run starts at one of the starts. So the tokens are the maximal runs in
   * order, each exactly once, and a repeated run is counted as often as it
   * occurs.
   */
  lemma TokensByPosition(s: string, charset: string)
    ensures var st, ts := TokenStarts(s, charset, 0), Tokens(s, charset);
      && |st| == |ts|
      && (forall k :: 0 <= k < |st| ==>
            0 <= st[k] < |s| && MaximalRun(s, charset, st[k], RunEnd(s, charset, st[k]))
            && ts[k] == s[st[k]..RunEnd(s, charset, st[k])])
      && (forall k :: 0 <= k < |st| - 1 ==> RunEnd(s, charset, st[k]) < st[k + 1])
      && (forall a, b :: MaximalRun(s, charset, a, b) ==> a in st)
  {
    var st, ts := TokenStarts(s, charset, 0), Tokens(s, charset);
    TokenStartsLength(s, charset, 0);
    forall k | 0 <= k < |st|
      ensures 0 <= st[k] < |s| && MaximalRun(s, charset, st[k], RunEnd(s, charset, st[k]))
      ensures ts[k] == s[st[k]..RunEnd(s, charset, st[k])]
    {
      TokenStartsAt(s, charset, 0, k);
    }
    forall k | 0 <= k < |st| - 1
      ensures RunEnd(s, charset, st[k]) < st[k + 1]
    {
      TokenStartsOrdered(s, charset, 0, k);
    }
    forall a, b | MaximalRun(s, charset, a, b)
      ensures a in st
    {
      TokenStartsComplete(s, charset, 0, a, b);
    }
  }

  /** A string of separators only (or the empty string) has no tokens. */
  lemma TokensNone(s: string, charset: string)
    requires forall i :: 0 <= i < |s| ==> s[i] in charset
    ensures Tokens(s, charset) == []
  {
    var p := |s|;
    while p > 0
      invariant 0 <= p <= |s| && TokensFrom(s, charset, p) == []
    {
      p := p - 1;
    }
  }

  /** A non-empty string without separators is its own single token. */
  lemma TokensWhole(s: string, charset: string)
    requires s != [] && forall i :: 0 <= i < |s| ==> s[i] !in charset
    ensures Tokens(s, charset) == [s]
  {
    RunEndExact(s, charset, 0, |s|);
    assert TokensFrom(s, charset, |s|) == [];
    assert s[0..|s|] == s;
  }

  /** A separator is skipped, and a maximal run from p to e is the next token. */
  lemma TokensFromRun(s: string, charset: string, p: int, e: int)
    requires 0 <= p < e <= |s| && (e == |s| || s[e] in charset)
    requires forall k :: p <= k < e ==> s[k] !in charset
    ensures TokensFrom(s, charset, p) == [s[p..e]] + TokensFrom(s, charset, e)
  {
    RunEndExact(s, charset, p, e);
  }

  // ---------------------------------------------------------------------------
  // The walk that ft_split_len and ft_split_fill share

  /** The tokens after position i: all of them at i == -1, none at the end. */
  function TokensAfter(s: string, charset: string, i: int): seq<string>
    requires -1 <= i <= |s|
  {
    if i == |s| then [] else TokensFrom(s, charset, i + 1)
  }

  /**
   * From the start or a separator at i, the walk passes the run up to the
   * next boundary j; the run is the next token if it is not empty.
   */
  lemma WalkStep(s: string, charset: string, i: int, j: int)
    requires -1 <= i < |s| && j == RunEnd(s, charset, i + 1)
    ensures TokensAfter(s, charset, i) == (if i + 1 < j then [s[i + 1..j]] else []) + TokensAfter(s, charset, j)
  {
    if j < |s| {
      assert TokensFrom(s, charset, j) == TokensFrom(s, charset, j + 1);
    }
  }

  // ---------------------------------------------------------------------------
  // The C functions

  /** ft_is_inside_of: walks `charset` up to its terminator looking for `c`. */
  method IsInsideOf(c: char, charset: string) returns (found: bool)
    requires NoNul(charset)
    ensures found <==> c in charset
    ensures c == '\0' ==> !found
  {
    var i := 0;
    while i < |charset|
      invariant 0 <= i <= |charset|
      invariant c !in charset[..i]
    {
      if charset[i] == c {
        return true;
      }
      i := i + 1;
    }
    assert charset[..i] == charset;
    return false;
  }

  /** The negated loop test of ft_count and ft_split_len: str[j] is the terminator or a separator. */
  method AtBoundary(s: string, charset: string, j: int) returns (stop: bool)
    requires NoNul(charset) && 0 <= j <= |s|
    ensures stop <==> (j == |s| || s[j] in charset)
  {
    if j == |s| {
      stop := true;
    } else {
      stop := IsInsideOf(s[j], charset);
    }
  }

  /**
   * ft_count: from position `start`, count the characters up to the next
   * separator or the end; `j` is where *str_j is left.
   */
  method Count(s: string, charset: string, start: int) returns (counter: int, j: int)
    requires NoNul(charset) && 0 <= start <= |s|
    ensures j == RunEnd(s, charset, start) && counter == j - start
  {
    counter, j := 0, start;
    var stop := AtBoundary(s, charset, j);
    while !stop
      invariant start <= j <= |s| && counter == j - start
      invariant forall k :: start <= k < j ==> s[k] !in charset
      invariant stop <==> (j == |s| || s[j] in charset)
      decreases |s| - j
    {
      counter := counter + 1;
      j := j + 1;
      stop := AtBoundary(s, charset, j);
    }
    RunEndExact(s, charset, start, j);
  }

  /**
   * ft_split_len: i sits at the start (-1) or on a separator; from there the
   * inner loop walks the following run, which counts if it is not empty.
   */
  method SplitLen(s: string, charset: string) returns (tabLen: int)
    requires NoNul(s) && NoNul(charset)
    ensures tabLen == |Tokens(s, charset)|
  {
    tabLen := 0;
    var i := -1;
    while i == -1 || i < |s|
      invariant -1 <= i <= |s|
      invariant i == -1 || i == |s| || s[i] in charset
      invariant tabLen + |TokensAfter(s, charset, i)| == |Tokens(s, charset)|
      decreases |s| - i
    {
      var boundary := i == -1;
      if !boundary {
        boundary := IsInsideOf(s[i], charset);
      }
      if boundary {
        var counter;
        ghost var p := i + 1;
        i, counter := LenRun(s, charset, i);
        WalkStep(s, charset, p - 1, i + 1);
        if counter != 0 {
          tabLen := tabLen + 1;
        }
      } else {
        assert false;
      }
      i := i + 1;
    }
  }

  /**
   * The inner loop of ft_split_len: from the start or a separator at i, walk
   * i to the last character of the following run (it stays put for an empty
   * run) and count the run.
   */
  method LenRun(s: string, charset: string, i: int) returns (i': int, counter: int)
    requires NoNul(charset) && -1 <= i < |s|
    ensures i' + 1 == RunEnd(s, charset, i + 1) && counter == i' - i
  {
    i', counter := i, 0;
    var stop := AtBoundary(s, charset, i' + 1);
    while !stop
      invariant i <= i' < |s| && counter == i' - i
      invariant forall k :: i + 1 <= k <= i' ==> s[k] !in charset
      invariant stop <==> (i' + 1 == |s| || s[i' + 1] in charset)
      decreases |s| - i'
    {
      counter := counter + 1;
      i' := i' + 1;
      stop := AtBoundary(s, charset, i' + 1);
    }
    RunEndExact(s, charset, i + 1, i' + 1);
  }

  /**
   * ft_split_fill: the same walk as ft_split_len; each non-empty run is copied
   * into a fresh character array and stored at the next index of `splitted`.
   */
  method SplitFill(s: string, charset: string, splitted: array<Option<string>>)
    requires NoNul(s) && NoNul(charset) && |Tokens(s, charset)| <= splitted.Length
    modifies splitted
    ensures forall k :: 0 <= k < |Tokens(s, charset)| ==> splitted[k] == Some(Tokens(s, charset)[k])
    ensures forall k :: |Tokens(s, charset)| <= k < splitted.Length ==> splitted[k] == old(splitted[k])
  {
    ghost var all := Tokens(s, charset);
    var tabIndex := 0;
    var strI := -1;
    while strI == -1 || strI < |s|
      invariant -1 <= strI <= |s|
      invariant strI == -1 || strI == |s| || s[strI] in charset
      invariant 0 <= tabIndex <= |all| && all[tabIndex..] == TokensAfter(s, charset, strI)
      invariant forall k :: 0 <= k < tabIndex ==> splitted[k] == Some(all[k])
      invariant forall k :: tabIndex <= k < splitted.Length ==> splitted[k] == old(splitted[k])
      decreases |s| - strI
    {
      var boundary := strI == -1;
      if !boundary {
        boundary := IsInsideOf(s[strI], charset);
      }
      if boundary {
        ghost var j := RunEnd(s, charset, strI + 1);
        WalkStep(s, charset, strI, j);
        if strI + 1 < j {
          SuffixStep(all, tabIndex, s[strI + 1..j], TokensAfter(s, charset, j));
        }
        var counter := FillRun(s, charset, splitted, strI, tabIndex);
        if counter != 0 {
          tabIndex := tabIndex + 1;
        }
        strI := strI + counter;
      } else {
        assert false;
      }
      strI := strI + 1;
    }
  }

  /** Taking the head off a suffix of `all`. */
  lemma SuffixStep<T>(all: seq<T>, n: int, head: T, rest: seq<T>)
    requires 0 <= n <= |all| && all[n..] == [head] + rest
    ensures n < |all| && all[n] == head && all[n + 1..] == rest
  {
    assert all[n..][0] == head;
    assert all[n + 1..] == all[n..][1..];
  }

  /**
   * One visit of ft_split_fill's loop at the start or at a separator: count
   * the following run and, if it is not empty, store a copy of it at tabIndex.
   */
  method FillRun(s: string, charset: string, splitted: array<Option<string>>, strI: int, tabIndex: int)
    returns (counter: int)
    requires NoNul(charset) && -1 <= strI < |s| && 0 <= tabIndex
    requires strI + 1 < RunEnd(s, charset, strI + 1) ==> tabIndex < splitted.Length
    modifies splitted
    ensures counter == RunEnd(s, charset, strI + 1) - (strI + 1)
    ensures counter > 0 ==> splitted[tabIndex] == Some(s[strI + 1..strI + 1 + counter])
    ensures forall k :: 0 <= k < splitted.Length && (counter == 0 || k != tabIndex) ==> splitted[k] == old(splitted[k])
  {
    var strJ;
    counter, strJ := Count(s, charset, strI + 1);
    if counter != 0 {
      var token := CopyRun(s, strI + 1, counter);
      splitted[tabIndex] := Some(token);
    }
  }

  /** The copy loop of ft_split_fill: a fresh array holding s[from..from + counter]. */
  method CopyRun(s: string, from: int, counter: int) returns (token: string)
    requires 0 <= from && 0 < counter && from + counter <= |s|
    ensures token == s[from..from + counter]
  {
    var a := new char[counter];
    var j := 0;
    while j < counter
      invariant 0 <= j <= counter
      invariant forall m :: 0 <= m < j ==> a[m] == s[from + m]
    {
      a[j] := s[from + j];
      j := j + 1;
    }
    token := a[..];
  }

  /**
   * ft_split: an array of the tokens followed by one NULL entry, so it has
   * len + 1 entries for len tokens.
   */
  method FtSplit(s: string, charset: string) returns (splitted: array<Option<string>>)
    requires NoNul(s) && NoNul(charset)
    ensures splitted.Length == |Tokens(s, charset)| + 1
    ensures forall k :: 0 <= k < |Tokens(s, charset)| ==> splitted[k] == Some(Tokens(s, charset)[k])
    ensures splitted[|Tokens(s, charset)|] == None
  {
    var len := SplitLen(s, charset);
    splitted := new Option<string>[len + 1](_ => None);
    SplitFill(s, charset, splitted);
    splitted[len] := None;
  }
}
