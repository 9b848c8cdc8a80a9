/**
 * The two Python string methods the intake code relies on: `str.strip()`
 * with no argument, applied to every form field before it is validated,
 * logged or mailed, and `str.splitlines()`, by which the mail library
 * refuses a header value that spans several lines.
 */
module Text {

  /** Python's `str.isspace()` on one code point: the characters whose
      bidirectional class is WS, B or S, or whose category is Zs. */
  predicate IsSpace(c: char) {
    || ('\t' <= c <= '\r')
    || ('\U{1C}' <= c <= '\U{1F}')
    || c == ' '
    || c == '\U{85}'
    || c == '\U{A0}'
    || c == '\U{1680}'
    || ('\U{2000}' <= c <= '\U{200A}')
    || c == '\U{2028}'
    || c == '\U{2029}'
    || c == '\U{202F}'
    || c == '\U{205F}'
    || c == '\U{3000}'
  }

  predicate AllSpace(s: string) {
    forall i :: 0 <= i < |s| ==> IsSpace(s[i])
  }

  /** Neither end of `s` is whitespace. */
  predicate Stripped(s: string) {
    s == [] || (!IsSpace(s[0]) && !IsSpace(s[|s| - 1]))
  }

  /** Drops the leading whitespace; what is left does not start with any. */
  function TrimStart(s: string): (r: string)
    ensures |r| <= |s|
    ensures r == [] || !IsSpace(r[0])
  {
    if s != [] && IsSpace(s[0]) then TrimStart(s[1..]) else s
  }

  /** Drops the trailing whitespace; what is left does not end with any. */
  function TrimEnd(s: string): (r: string)
    ensures |r| <= |s|
    ensures r == [] || !IsSpace(r[|r| - 1])
  {
    if s != [] && IsSpace(s[|s| - 1]) then TrimEnd(s[..|s| - 1]) else s
  }

  /** TrimStart leaves a suffix of `s`, and what it dropped is all whitespace. */
  lemma {:induction false} TrimStartDrops(s: string)
    ensures var r := TrimStart(s);
      r == s[|s| - |r|..] && AllSpace(s[..|s| - |r|])
    decreases |s|
  {
    if s != [] && IsSpace(s[0]) {
      TrimStartDrops(s[1..]);
      var r := TrimStart(s);
      assert s[1..][..|s| - 1 - |r|] == s[1..|s| - |r|];
      forall i | 0 <= i < |s| - |r| ensures IsSpace(s[i]) {
        if i > 0 { assert s[1..][..|s| - 1 - |r|][i - 1] == s[i]; }
      }
    }
  }

  /** TrimEnd leaves a prefix of `s`, and what it dropped is all whitespace. */
  lemma {:induction false} TrimEndDrops(s: string)
    ensures var r := TrimEnd(s);
      r == s[..|r|] && AllSpace(s[|r|..])
    decreases |s|
  {
    if s != [] && IsSpace(s[|s| - 1]) {
      var t := s[..|s| - 1];
      TrimEndDrops(t);
      var r := TrimEnd(s);
      forall i | |r| <= i < |s| ensures IsSpace(s[i]) {
        if i < |s| - 1 { assert t[|r|..][i - |r|] == s[i]; }
      }
    }
  }

  /** `s.strip()`: no whitespace is left at either end. */
  function Strip(s: string): (r: string)
    ensures |r| <= |s|
    ensures Stripped(r)
  {
    TrimEndDrops(TrimStart(s));
    TrimEnd(TrimStart(s))
  }

  /** Reference definition of stripping: `s[i..j]` has no whitespace at
      either end, and everything outside it is whitespace. */
  ghost predicate StrippedAt(s: string, i: int, j: int) {
    && 0 <= i <= j <= |s|
    && AllSpace(s[..i])
    && AllSpace(s[j..])
    && Stripped(s[i..j])
  }

  /** Strip cuts `s` at positions that meet the reference definition. */
  lemma StripIsStrippedAt(s: string) returns (i: int, j: int)
    ensures StrippedAt(s, i, j) && Strip(s) == s[i..j]
  {
    var t := TrimStart(s);
    var r := TrimEnd(t);
    TrimStartDrops(s);
    TrimEndDrops(t);
    i := |s| - |t|;
    j := i + |r|;
    assert t == s[i..];
    assert r == t[..|r|];
    assert r == s[i..j];
    assert s[j..] == t[|r|..];
    assert AllSpace(s[..i]);
    assert AllSpace(s[j..]);
    assert r != [] ==> r[0] == t[0];
    assert Stripped(r);
  }

  /** Any cut that meets the reference definition is the one Strip makes,
      so Strip is exactly the reference definition. */
  lemma StrippedAtUnique(s: string, i: int, j: int)
    requires StrippedAt(s, i, j)
    ensures Strip(s) == s[i..j]
  {
    var i0, j0 := StripIsStrippedAt(s);
    SameCut(s, i, j, i0, j0);
  }

  /** Two cuts meeting the reference definition cut out the same text. */
  lemma SameCut(s: string, i: int, j: int, i0: int, j0: int)
    requires StrippedAt(s, i, j) && StrippedAt(s, i0, j0)
    ensures s[i..j] == s[i0..j0]
  {
    if i < j {
      NotSpaceAt(s, i, j, i);
      NotSpaceAt(s, i, j, j - 1);
    }
    if i0 < j0 {
      NotSpaceAt(s, i0, j0, i0);
      NotSpaceAt(s, i0, j0, j0 - 1);
    }
  }

  /** Inside a cut meeting the reference definition the ends are not
      whitespace, and outside it every position is. */
  lemma NotSpaceAt(s: string, i: int, j: int, k: int)
    requires StrippedAt(s, i, j) && (k == i || k == j - 1) && i < j
    ensures !IsSpace(s[k])
    ensures forall m :: 0 <= m < i ==> IsSpace(s[m])
    ensures forall m :: j <= m < |s| ==> IsSpace(s[m])
  {
  }

  /** A stripped field is empty exactly when the raw text was all whitespace. */
  lemma StripEmptyIff(s: string)
    ensures Strip(s) == [] <==> AllSpace(s)
  {
    var i, j := StripIsStrippedAt(s);
    if AllSpace(s) && i < j {
      // s[i] would be both whitespace and the first non-whitespace character
      assert false;
    }
    if i == j {
      forall k | 0 <= k < |s| ensures IsSpace(s[k]) {
        if k < i { assert s[..i][k] == s[k]; } else { assert s[j..][k - j] == s[k]; }
      }
    }
  }

  /** Stripping twice is stripping once. */
  lemma StripIdempotent(s: string)
    ensures Strip(Strip(s)) == Strip(s)
  {
    var r := Strip(s);
    assert r[0..|r|] == r;
    StrippedAtUnique(r, 0, |r|);
  }

  /** The line boundaries of Python's `str.splitlines()`. */
  predicate IsLineBreak(c: char) {
    || c == '\n' || c == '\r' || c == '\U{B}' || c == '\U{C}'
    || ('\U{1C}' <= c <= '\U{1E}')
    || c == '\U{85}' || c == '\U{2028}' || c == '\U{2029}'
  }

  /** Every line boundary is whitespace to `strip()` as well. */
  lemma LineBreakIsSpace(c: char)
    ensures IsLineBreak(c) ==> IsSpace(c)
  {
  }

  predicate NoLineBreak(s: string) {
    forall i :: 0 <= i < |s| ==> !IsLineBreak(s[i])
  }

  /** The first line boundary in `s`, or |s| when there is none. */
  function BreakAt(s: string): (k: nat)
    ensures k <= |s|
    ensures forall i :: 0 <= i < k ==> !IsLineBreak(s[i])
    ensures k < |s| ==> IsLineBreak(s[k])
  {
    if s == [] || IsLineBreak(s[0]) then 0 else 1 + BreakAt(s[1..])
  }

  /** `len(s.splitlines())`: each line ends at a boundary ('\r\n' is one
      boundary) or at the end of `s`; a final boundary opens no new line. */
  function LineCount(s: string): (r: nat)
    ensures r == 0 <==> s == []
    decreases |s|
  {
    if s == [] then 0
    else
      var k := BreakAt(s);
      if k == |s| then 1
      else
        var next := if s[k] == '\r' && k + 1 < |s| && s[k + 1] == '\n' then k + 2 else k + 1;
        1 + LineCount(s[next..])
  }

  /** Reference definition of a single line: a line boundary may only be the
      last character, or the '\r' of a closing '\r\n'. */
  ghost predicate OneLine(s: string) {
    forall i :: 0 <= i < |s| && IsLineBreak(s[i]) ==>
      i == |s| - 1 || (i == |s| - 2 && s[i] == '\r' && s[i + 1] == '\n')
  }

  /** `splitlines()` yields at most one line exactly when `s` is one line by
      the reference definition. */
  lemma SingleLineIff(s: string)
    ensures LineCount(s) <= 1 <==> OneLine(s)
  {
    if s != [] {
      var k := BreakAt(s);
      if k < |s| {
        var next := if s[k] == '\r' && k + 1 < |s| && s[k + 1] == '\n' then k + 2 else k + 1;
        if next == |s| {
          assert LineCount(s[next..]) == 0;
        } else {
          assert s[next..] != [];
          assert LineCount(s[next..]) >= 1;
          // the first boundary, at k, is followed by more text
          assert IsLineBreak(s[k]);
        }
      }
    }
  }

  /** Text with no line boundary at all is one line. */
  lemma NoLineBreakOneLine(s: string)
    requires NoLineBreak(s)
    ensures LineCount(s) <= 1
  {
    SingleLineIff(s);
  }

  /** Text that does not end in a line boundary is one line exactly when it
      has no line boundary at all. */
  lemma OneLineIffNoBreak(s: string)
    requires s != [] && !IsLineBreak(s[|s| - 1])
    ensures LineCount(s) <= 1 <==> NoLineBreak(s)
  {
    SingleLineIff(s);
  }

  lemma NoLineBreakConcat(a: string, b: string)
    ensures NoLineBreak(a + b) <==> NoLineBreak(a) && NoLineBreak(b)
  {
    assert forall i :: 0 <= i < |a| ==> (a + b)[i] == a[i];
    assert forall i :: 0 <= i < |b| ==> (a + b)[|a| + i] == b[i];
  }
}
