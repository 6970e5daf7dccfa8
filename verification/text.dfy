/** Character classes and the string helpers of Python's `str` that the
    finder and the filter rely on: `isspace`, `strip`, `lower`, `isdigit`. */
module Text {

  /** Python's `str.isspace` for one character: the ASCII controls TAB to CR,
      the information separators 0x1C-0x1F, SPACE, NEL, and the Unicode
      space separators (category Zs) plus LINE and PARAGRAPH SEPARATOR. The
      same set is what `\s` matches in a `str` regular expression. */
  predicate IsSpace(c: char) {
    || ('\t' <= c <= '\r')
    || ('\U{1C}' <= c <= '\U{1F}')
    || c == ' '
    || c == '\U{85}'
    || c == '\U{A0}'
    || c == '\U{1680}'
    || ('\U{2000}' <= c <= '\U{200A}')
    || c == '\U{2028}'
    || c == '\U{2029}'
    || c == '\U{202F}'
    || c == '\U{205F}'
    || c == '\U{3000}'
  }

  predicate AllSpace(t: string) {
    forall k :: 0 <= k < |t| ==> IsSpace(t[k])
  }

  /** Neither end of `t` is whitespace. */
  predicate Stripped(t: string) {
    t == [] || (!IsSpace(t[0]) && !IsSpace(t[|t| - 1]))
  }

  /** `r` is what remains of `s` once the whitespace runs at both ends are cut
      off: an infix of `s` flanked only by whitespace and not itself starting
      or ending with whitespace. */
  ghost predicate IsStripOf(r: string, s: string) {
    && Stripped(r)
    && exists i :: 0 <= i <= |s| - |r| && IsFlankedInfix(r, s, i)
  }

  ghost predicate IsFlankedInfix(r: string, s: string, i: int)
    requires 0 <= i <= |s| - |r|
  {
    s[i..i + |r|] == r && AllSpace(s[..i]) && AllSpace(s[i + |r|..])
  }

  function TrimLeft(s: string): (r: string)
    ensures |r| <= |s| && r == s[|s| - |r|..]
    ensures AllSpace(s[..|s| - |r|])
    ensures r == [] || !IsSpace(r[0])
    decreases |s|
  {
    if s != [] && IsSpace(s[0]) then
      var r := TrimLeft(s[1..]);
      assert s[|s| - |r|..] == s[1..][|s| - 1 - |r|..];
      assert s[..|s| - |r|] == [s[0]] + s[1..][..|s| - 1 - |r|];
      AllSpaceAppend([s[0]], s[1..][..|s| - 1 - |r|]);
      r
    else
      assert s[..0] == [];
      s
  }

  function TrimRight(s: string): (r: string)
    ensures |r| <= |s| && r == s[..|r|]
    ensures AllSpace(s[|r|..])
    ensures r == [] || !IsSpace(r[|r| - 1])
    decreases |s|
  {
    if s != [] && IsSpace(s[|s| - 1]) then
      var t := s[..|s| - 1];
      var r := TrimRight(t);
      assert s[..|r|] == t[..|r|];
      assert s[|r|..] == t[|r|..] + [s[|s| - 1]];
      AllSpaceAppend(t[|r|..], [s[|s| - 1]]);
      r
    else
      assert s[|s|..] == [];
      s
  }

  lemma AllSpaceAppend(a: string, b: string)
    requires AllSpace(a) && AllSpace(b)
    ensures AllSpace(a + b)
  {
    forall k | 0 <= k < |a + b| ensures IsSpace((a + b)[k]) {
      if k < |a| { assert (a + b)[k] == a[k]; } else { assert (a + b)[k] == b[k - |a|]; }
    }
  }

  /** Python's `str.strip()` with no argument. */
  function Strip(s: string): (r: string)
    ensures IsStripOf(r, s)
  {
    var l := TrimLeft(s);
    var r := TrimRight(l);
    TrimBothFlanked(s, l, r);
    r
  }

  lemma TrimBothFlanked(s: string, l: string, r: string)
    requires |l| <= |s| && l == s[|s| - |l|..] && AllSpace(s[..|s| - |l|])
    requires |r| <= |l| && r == l[..|r|] && AllSpace(l[|r|..])
    requires l == [] || !IsSpace(l[0])
    requires r == [] || !IsSpace(r[|r| - 1])
    ensures Stripped(r)
    ensures IsFlankedInfix(r, s, |s| - |l|)
  {
    assert r != [] ==> r[0] == l[0];
    assert s[|s| - |l|..|s| - |l| + |r|] == r;
    assert s[|s| - |l| + |r|..] == l[|r|..];
  }

  /** Stripping is the only way to cut whitespace off both ends: any infix
      with the shape `IsStripOf` describes is exactly `Strip(s)`. */
  lemma StripUnique(r: string, s: string)
    requires IsStripOf(r, s)
    ensures r == Strip(s)
  {
    var t := Strip(s);
    var i :| 0 <= i <= |s| - |r| && IsFlankedInfix(r, s, i);
    var j :| 0 <= j <= |s| - |t| && IsFlankedInfix(t, s, j);
    FlankedInfixUnique(s, r, i, t, j);
  }

  lemma FlankedInfixUnique(s: string, r: string, i: int, t: string, j: int)
    requires 0 <= i <= |s| - |r| && IsFlankedInfix(r, s, i) && Stripped(r)
    requires 0 <= j <= |s| - |t| && IsFlankedInfix(t, s, j) && Stripped(t)
    ensures r == t
  {
    assert r != [] ==> s[i] == r[0] && s[i + |r| - 1] == r[|r| - 1];
    assert t != [] ==> s[j] == t[0] && s[j + |t| - 1] == t[|t| - 1];
    if r == [] {
      AllSpaceSplit(s, i);
    } else if t == [] {
      AllSpaceSplit(s, j);
    } else {
      // both start at the first non-space character and end after the last one
      SpacePrefixEndsBefore(s, i, j);
      SpacePrefixEndsBefore(s, j, i);
      SpaceSuffixStartsAfter(s, i + |r|, j + |t| - 1);
      SpaceSuffixStartsAfter(s, j + |t|, i + |r| - 1);
    }
  }

  lemma SpacePrefixEndsBefore(s: string, a: int, b: int)
    requires 0 <= a <= |s| && 0 <= b < |s| && AllSpace(s[..a]) && !IsSpace(s[b])
    ensures a <= b
  {
    assert forall k | 0 <= k < a :: s[..a][k] == s[k];
  }

  lemma SpaceSuffixStartsAfter(s: string, a: int, b: int)
    requires 0 <= a <= |s| && 0 <= b < |s| && AllSpace(s[a..]) && !IsSpace(s[b])
    ensures b < a
  {
    assert forall k | a <= k < |s| :: s[a..][k - a] == s[k];
  }

  lemma AllSpaceSplit(s: string, i: int)
    requires 0 <= i <= |s| && AllSpace(s[..i]) && AllSpace(s[i..])
    ensures AllSpace(s)
  {
    forall k | 0 <= k < |s| ensures IsSpace(s[k]) {
      if k < i { assert s[..i][k] == s[k]; } else { assert s[i..][k - i] == s[k]; }
    }
  }

  /** Stripping twice is stripping once. */
  lemma StripIdempotent(s: string)
    ensures Strip(Strip(s)) == Strip(s)
  {
    var r := Strip(s);
    assert IsFlankedInfix(r, r, 0) by {
      assert r[..0] == [] && r[|r|..] == [] && r[0..|r|] == r;
    }
    StripUnique(r, r);
  }

  /** ASCII lowering of one character; other characters are left alone. */
  function LowerChar(c: char): char {
    if 'A' <= c <= 'Z' then (c as int + 32) as char else c
  }

  /** Python's `str.lower()` restricted to the ASCII case mapping. */
  function Lower(s: string): string {
    seq(|s|, k requires 0 <= k < |s| => LowerChar(s[k]))
  }

  predicate IsAsciiDigit(c: char) {
    '0' <= c <= '9'
  }

  function DigitValue(c: char): nat
    requires IsAsciiDigit(c)
  {
    c as int - '0' as int
  }

  predicate AllDigits(t: string) {
    forall k :: 0 <= k < |t| ==> IsAsciiDigit(t[k])
  }

  /** Python's `str.isdigit()`: non-empty and every character a digit. */
  predicate IsDigitString(s: string) {
    |s| > 0 && AllDigits(s)
  }
}
