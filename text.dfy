/**
 * The few Python string operations the GUI relies on, written out so that
 * their edge cases are explicit: `str.strip()`, `str.splitlines()`,
 * `str.upper()` on ASCII letters, and the search for the `": "` separator
 * behind `": " in line` and `line.split(": ", 1)`.
 */
module Text {

  import opened Wrappers

  /** The characters Python's `str.isspace()` accepts; `str.strip()` removes exactly these. */
  predicate IsSpace(c: char) {
    || ('\t' <= c <= '\r')
    || ('\U{1c}' <= c <= '\U{1f}')
    || c == ' '
    || c == '\U{85}'
    || c == '\U{a0}'
    || c == '\U{1680}'
    || ('\U{2000}' <= c <= '\U{200a}')
    || c == '\U{2028}'
    || c == '\U{2029}'
    || c == '\U{202f}'
    || c == '\U{205f}'
    || c == '\U{3000}'
  }

  /** The line boundaries `str.splitlines()` splits at ("\r\n" counts as one boundary). */
  predicate IsLineBreak(c: char) {
    || ('\n' <= c <= '\r')
    || ('\U{1c}' <= c <= '\U{1e}')
    || c == '\U{85}'
    || c == '\U{2028}'
    || c == '\U{2029}'
  }

  /** The first index at or after `i` that holds no whitespace, or `|s|`. */
  function SkipSpace(s: string, i: nat): (a: nat)
    requires i <= |s|
    decreases |s| - i
    ensures i <= a <= |s|
    ensures forall k | i <= k < a :: IsSpace(s[k])
    ensures a < |s| ==> !IsSpace(s[a])
  {
    if i < |s| && IsSpace(s[i]) then SkipSpace(s, i + 1) else i
  }

  /** The end of `s[lo..j]` once the whitespace at its end is dropped. */
  function SkipSpaceBack(s: string, lo: nat, j: nat): (b: nat)
    requires lo <= j <= |s|
    decreases j
    ensures lo <= b <= j
    ensures forall k | b <= k < j :: IsSpace(s[k])
    ensures b > lo ==> !IsSpace(s[b - 1])
  {
    if j > lo && IsSpace(s[j - 1]) then SkipSpaceBack(s, lo, j - 1) else j
  }

  /** Where the stripped text starts: the number of leading whitespace characters. */
  function StripStart(s: string): (a: nat)
    ensures a <= |s|
  {
    SkipSpace(s, 0)
  }

  /** Where the stripped text ends: the length of `s` less its trailing whitespace. */
  function StripEnd(s: string): (b: nat)
    ensures StripStart(s) <= b <= |s|
  {
    SkipSpaceBack(s, StripStart(s), |s|)
  }

  /** `str.strip()`: `s` without its leading and trailing whitespace. */
  function Strip(s: string): (r: string)
    ensures |r| <= |s|
  {
    s[StripStart(s)..StripEnd(s)]
  }

  /**
   * What `str.strip()` promises: only whitespace is cut away, at both ends; what
   * is left begins and ends with a non-space character; and it is empty exactly
   * when `s` is all whitespace. (A lemma rather than ensures on `Strip`, so that
   * these quantifiers enter a proof only where one asks for them.)
   */
  lemma StripSpec(s: string)
    ensures Strip(s) == s[StripStart(s)..StripEnd(s)]
    ensures forall k | 0 <= k < StripStart(s) :: IsSpace(s[k])
    ensures forall k | StripEnd(s) <= k < |s| :: IsSpace(s[k])
    ensures Strip(s) != [] ==> !IsSpace(Strip(s)[0]) && !IsSpace(Strip(s)[|Strip(s)| - 1])
    ensures Strip(s) == [] <==> forall k | 0 <= k < |s| :: IsSpace(s[k])
  {
    var a, b := StripStart(s), StripEnd(s);
    if a < |s| {
      assert !IsSpace(s[a]);
      assert b > a;
    }
  }

  /** A string that neither starts nor ends with whitespace is its own strip. */
  lemma StripUnchanged(s: string)
    requires s == [] || (!IsSpace(s[0]) && !IsSpace(s[|s| - 1]))
    ensures Strip(s) == s
  {
    if s != [] {
      assert StripStart(s) == 0;
      assert StripEnd(s) == |s|;
    }
  }

  /** `str.upper()` on one character, for the ASCII letters a GUID is made of. */
  function UpperChar(c: char): (u: char)
    ensures 'a' <= c <= 'z' ==> u as int == c as int - 32
    ensures !('a' <= c <= 'z') ==> u == c
  {
    if 'a' <= c <= 'z' then (c as int - 32) as char else c
  }

  /** `str.upper()` character by character (ASCII letters only; see README). */
  function Upper(s: string): (r: string)
    ensures |r| == |s|
    ensures forall k | 0 <= k < |s| :: r[k] == UpperChar(s[k])
  {
    if s == [] then [] else [UpperChar(s[0])] + Upper(s[1..])
  }

  /** Upper-casing twice is upper-casing once: the stored GUID is already in canonical form. */
  lemma {:induction false} UpperIdempotent(s: string)
    ensures Upper(Upper(s)) == Upper(s)
  {
    var u := Upper(s);
    assert forall k | 0 <= k < |s| :: Upper(u)[k] == u[k];
  }

  /** True when the two-character separator `": "` starts at index `i` of `s`. */
  predicate SepAt(s: string, i: int) {
    0 <= i && i + 1 < |s| && s[i] == ':' && s[i + 1] == ' '
  }

  /** The index of the first `": "` at or after `from`, as `str.find` computes it. */
  function FindSepFrom(s: string, from: nat): (r: Option<nat>)
    decreases |s| - from
    ensures r.Some? ==> from <= r.value && SepAt(s, r.value)
    ensures r.Some? ==> forall j | from <= j < r.value :: !SepAt(s, j)
    ensures r.None? ==> forall j | from <= j :: !SepAt(s, j)
  {
    if from + 1 >= |s| then None
    else if SepAt(s, from) then Some(from)
    else FindSepFrom(s, from + 1)
  }

  /**
   * The index of the first `": "` in `s`: `None` exactly when `": " in s` is false,
   * else the place where `s.split(": ", 1)` cuts.
   */
  function FindSep(s: string): (r: Option<nat>)
    ensures r.None? <==> forall j :: !SepAt(s, j)
    ensures r.Some? ==> SepAt(s, r.value) && forall j | 0 <= j < r.value :: !SepAt(s, j)
  {
    FindSepFrom(s, 0)
  }

  /** The index of the first line boundary in `s`, or `|s|` when there is none. */
  function LineEnd(s: string): (i: nat)
    ensures i <= |s|
    ensures i < |s| ==> IsLineBreak(s[i])
    ensures forall k | 0 <= k < i :: !IsLineBreak(s[k])
  {
    if s == [] || IsLineBreak(s[0]) then 0 else 1 + LineEnd(s[1..])
  }

  /** Where the next line starts after the boundary at `i`: `"\r\n"` is one boundary. */
  function NextLine(s: string, i: nat): (next: nat)
    requires i < |s|
    ensures i < next <= |s|
  {
    if s[i] == '\r' && i + 1 < |s| && s[i + 1] == '\n' then i + 2 else i + 1
  }

  /**
   * `str.splitlines()`: the lines of `s` without their boundaries, "\r\n" taken as
   * one boundary, and no empty last line after a final boundary.
   */
  function SplitLines(s: string): (lines: seq<string>)
    decreases |s|
    ensures forall n | 0 <= n < |lines| :: forall k | 0 <= k < |lines[n]| :: !IsLineBreak(lines[n][k])
    ensures s == [] <==> lines == []
    ensures (forall k | 0 <= k < |s| :: !IsLineBreak(s[k])) && s != [] ==> lines == [s]
  {
    if s == [] then []
    else
      var i := LineEnd(s);
      if i == |s| then [s]
      else
        var next := NextLine(s, i);
        [s[..i]] + SplitLines(s[next..])
  }

  /** A line boundary `splitlines()` recognises: `"\r\n"` or a single break character. */
  predicate IsBoundary(b: string) {
    b == "\r\n" || (|b| == 1 && IsLineBreak(b[0]))
  }

  /**
   * The boundary that ends each line of `SplitLines(s)`, in order; `""` for a
   * last line that runs to the end of `s`.
   */
  function Boundaries(s: string): (bounds: seq<string>)
    decreases |s|
  {
    if s == [] then []
    else
      var i := LineEnd(s);
      if i == |s| then [""]
      else
        var next := NextLine(s, i);
        [s[i..next]] + Boundaries(s[next..])
  }

  /** The lines put back together, each followed by its boundary. */
  function Join(lines: seq<string>, bounds: seq<string>): (s: string)
    requires |lines| == |bounds|
  {
    if lines == [] then [] else lines[0] + bounds[0] + Join(lines[1..], bounds[1..])
  }

  /** Each line has exactly one boundary after it. */
  lemma {:induction false} BoundariesLength(s: string)
    decreases |s|
    ensures |Boundaries(s)| == |SplitLines(s)|
  {
    if s != [] && LineEnd(s) < |s| {
      var i := LineEnd(s);
      var next := NextLine(s, i);
      BoundariesLength(s[next..]);
    }
  }

  /** One step of the recursion: the first line, its boundary, and the lines of the rest. */
  lemma SplitLinesStep(s: string, i: nat, next: nat)
    requires s != [] && i == LineEnd(s) && i < |s|
    requires next == NextLine(s, i)
    ensures SplitLines(s) == [s[..i]] + SplitLines(s[next..])
    ensures Boundaries(s) == [s[i..next]] + Boundaries(s[next..])
    ensures IsBoundary(s[i..next])
  {
  }

  /** A text is its three consecutive slices put back together. */
  lemma SlicesJoin(s: string, i: nat, j: nat)
    requires i <= j <= |s|
    ensures s[..i] + s[i..j] + s[j..] == s
  {
    assert s[..i] + s[i..j] == s[..j];
    assert s[..j] + s[j..] == s;
  }

  /**
   * `splitlines()` cuts `s` into its lines and nothing is lost: joining each line
   * with the boundary after it gives `s` back.
   */
  lemma {:induction false} SplitLinesJoin(s: string)
    decreases |s|
    ensures |Boundaries(s)| == |SplitLines(s)|
    ensures Join(SplitLines(s), Boundaries(s)) == s
  {
    BoundariesLength(s);
    if s != [] {
      var i := LineEnd(s);
      if i < |s| {
        var next := NextLine(s, i);
        SplitLinesStep(s, i, next);
        SlicesJoin(s, i, next);
        SplitLinesJoin(s[next..]);
        var lines, bounds := SplitLines(s), Boundaries(s);
        assert lines[1..] == SplitLines(s[next..]) && bounds[1..] == Boundaries(s[next..]);
      }
    }
  }

  /** The boundary after line `n`: a real one, or `""` only after a non-empty last line. */
  lemma {:induction false} BoundaryAt(s: string, n: nat)
    requires n < |Boundaries(s)|
    decreases |s|
    ensures |Boundaries(s)| == |SplitLines(s)|
    ensures IsBoundary(Boundaries(s)[n])
         || (Boundaries(s)[n] == "" && n == |SplitLines(s)| - 1 && SplitLines(s)[n] != [])
  {
    BoundariesLength(s);
    var i := LineEnd(s);
    if i < |s| {
      var next := NextLine(s, i);
      SplitLinesStep(s, i, next);
      if n > 0 {
        BoundaryAt(s[next..], n - 1);
      }
    }
  }

  /**
   * Every boundary is `"\r\n"` or a single break character, except a `""` after a
   * last line that runs to the end of the text; so there is no empty last line
   * after a final boundary.
   */
  lemma BoundariesShape(s: string)
    ensures |Boundaries(s)| == |SplitLines(s)|
    ensures forall n | 0 <= n < |Boundaries(s)| :: IsBoundary(Boundaries(s)[n]) || Boundaries(s)[n] == ""
    ensures forall n | 0 <= n < |Boundaries(s)| && Boundaries(s)[n] == "" ::
      n == |SplitLines(s)| - 1 && SplitLines(s)[n] != []
  {
    BoundariesLength(s);
    forall n | 0 <= n < |Boundaries(s)|
      ensures IsBoundary(Boundaries(s)[n])
           || (Boundaries(s)[n] == "" && n == |SplitLines(s)| - 1 && SplitLines(s)[n] != [])
    {
      BoundaryAt(s, n);
    }
  }

  /** A `"\r"` boundary after line `n` is not followed by an empty line ended by `"\n"`. */
  lemma {:induction false} CrLfAt(s: string, n: nat)
    requires n + 1 < |Boundaries(s)|
    decreases |s|
    ensures |Boundaries(s)| == |SplitLines(s)|
    ensures Boundaries(s)[n] == "\r" ==> !(SplitLines(s)[n + 1] == [] && Boundaries(s)[n + 1] == "\n")
  {
    BoundariesLength(s);
    var i := LineEnd(s);
    if i < |s| {
      var next := NextLine(s, i);
      var rest := s[next..];
      SplitLinesStep(s, i, next);
      BoundariesLength(rest);
      if n > 0 {
        CrLfAt(rest, n - 1);
      } else if s[i..next] == "\r" && SplitLines(rest)[0] == [] {
        // the "\r" is not followed by "\n", and the empty line after it starts the rest
        assert next == i + 1;
        var j := LineEnd(rest);
        assert j == 0;
        SplitLinesStep(rest, j, NextLine(rest, j));
        assert rest[0] == s[i + 1];
      }
    }
  }

  /** `"\r\n"` is one boundary: a `"\r"` boundary is never directly followed by a `"\n"` one. */
  lemma CrLfIsOneBoundary(s: string)
    ensures |Boundaries(s)| == |SplitLines(s)|
    ensures forall n | 0 <= n < |Boundaries(s)| - 1 && Boundaries(s)[n] == "\r" ::
      !(SplitLines(s)[n + 1] == [] && Boundaries(s)[n + 1] == "\n")
  {
    BoundariesLength(s);
    forall n | 0 <= n < |Boundaries(s)| - 1
      ensures Boundaries(s)[n] == "\r" ==> !(SplitLines(s)[n + 1] == [] && Boundaries(s)[n + 1] == "\n")
    {
      CrLfAt(s, n);
    }
  }
}
