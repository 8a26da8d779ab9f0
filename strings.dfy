/** The two string operations the answer extraction relies on: Python's
    `str.rfind` and `str.strip`, the latter over an abstract whitespace class. */
module Strings {

  /** `pat` occurs in `s` starting at index `i`. */
  predicate OccursAt(s: string, pat: string, i: int)
  {
    0 <= i && i + |pat| <= |s| && s[i..i + |pat|] == pat
  }

  /** `pat` occurs somewhere in `s` (Python's `pat in s`). */
  ghost predicate Contains(s: string, pat: string)
  {
    exists i :: OccursAt(s, pat, i)
  }

  /** Python's `s.rfind(pat)`: the highest index at which `pat` occurs in `s`,
      or -1 when it does not occur at all. */
  function RFind(s: string, pat: string): (r: int)
    ensures r == -1 <==> !Contains(s, pat)
    ensures r != -1 ==> OccursAt(s, pat, r)
    ensures forall j :: r < j ==> !OccursAt(s, pat, j)
  {
    if |pat| > |s| then -1 else LastAtOrBelow(s, pat, |s| - |pat|)
  }

  /** The highest index `j <= i` at which `pat` occurs, or -1; every start
      position above `i` is already known not to fit. */
  function LastAtOrBelow(s: string, pat: string, i: int): (r: int)
    requires -1 <= i && i + |pat| <= |s|
    ensures r == -1 || (0 <= r <= i && OccursAt(s, pat, r))
    ensures forall j :: r < j <= i ==> !OccursAt(s, pat, j)
    ensures r == -1 ==> forall j :: j <= i ==> !OccursAt(s, pat, j)
    decreases i + 1
  {
    if i < 0 then -1
    else if s[i..i + |pat|] == pat then i
    else LastAtOrBelow(s, pat, i - 1)
  }

  /** An occurrence of `pat` inside the slice `s[lo..hi]` is an occurrence in `s`,
      shifted by `lo`. */
  lemma {:induction false} OccursInSlice(s: string, pat: string, lo: int, hi: int, j: int)
    requires 0 <= lo <= hi <= |s|
    requires OccursAt(s[lo..hi], pat, j)
    ensures OccursAt(s, pat, lo + j)
  {
    forall k | 0 <= k < |pat|
      ensures s[lo + j..lo + j + |pat|][k] == pat[k]
    {
      assert s[lo..hi][j..j + |pat|][k] == pat[k];
    }
  }

  /** A slice of a string without `pat` is without `pat`. */
  lemma {:induction false} SliceLacks(s: string, pat: string, lo: int, hi: int)
    requires 0 <= lo <= hi <= |s|
    requires !Contains(s, pat)
    ensures !Contains(s[lo..hi], pat)
  {
    forall j | OccursAt(s[lo..hi], pat, j)
      ensures false
    {
      OccursInSlice(s, pat, lo, hi, j);
    }
  }

  /** What follows the last occurrence of a non-empty `pat` holds no further
      occurrence. */
  lemma {:induction false} SuffixAfterLastLacks(s: string, pat: string)
    requires pat != [] && Contains(s, pat)
    ensures !Contains(s[RFind(s, pat) + |pat|..], pat)
  {
    var start := RFind(s, pat) + |pat|;
    assert s[start..] == s[start..|s|];
    forall j | OccursAt(s[start..], pat, j)
      ensures false
    {
      OccursInSlice(s, pat, start, |s|, j);
    }
  }

  /** An occurrence of a non-empty `pat` starts with the first character of `pat`. */
  lemma StartsWithFirst(s: string, pat: string, i: int)
    requires pat != [] && OccursAt(s, pat, i)
    ensures s[i] == pat[0]
  {
  }

  /** A string lacking the first character of `pat` lacks `pat`. */
  lemma LacksFirstChar(s: string, pat: string)
    requires pat != [] && pat[0] !in s
    ensures !Contains(s, pat)
  {
  }

  /** The six usual ASCII whitespace characters (space, tab, line feed, carriage
      return, vertical tab, form feed): one instance of the whitespace class. */
  predicate AsciiWhitespace(c: char)
  {
    c == ' ' || c == '\t' || c == '\n' || c == '\r' || c == '\U{B}' || c == '\U{C}'
  }

  /** Python's `s.lstrip()`: drop the leading characters in the class `ws`. */
  function TrimLeft(s: string, ws: char -> bool): (r: string)
    ensures |r| <= |s| && r == s[|s| - |r|..]
    ensures forall k :: 0 <= k < |s| - |r| ==> ws(s[k])
    ensures r == [] || !ws(r[0])
  {
    if s != [] && ws(s[0]) then TrimLeft(s[1..], ws) else s
  }

  /** Python's `s.rstrip()`: drop the trailing characters in the class `ws`. */
  function TrimRight(s: string, ws: char -> bool): (r: string)
    ensures |r| <= |s| && r == s[..|r|]
    ensures forall k :: |r| <= k < |s| ==> ws(s[k])
    ensures r == [] || !ws(r[|r| - 1])
  {
    if s != [] && ws(s[|s| - 1]) then TrimRight(s[..|s| - 1], ws) else s
  }

  /** `r` is `s` with its leading and trailing `ws` characters removed, the
      kept part starting at `lo`: a slice of `s` that neither starts nor ends
      with whitespace, everything outside it being whitespace. */
  ghost predicate StrippedAt(s: string, ws: char -> bool, lo: int, r: string)
  {
    && 0 <= lo && lo + |r| <= |s| && r == s[lo..lo + |r|]
    && (forall k :: 0 <= k < lo ==> ws(s[k]))
    && (forall k :: lo + |r| <= k < |s| ==> ws(s[k]))
    && (r == [] || (!ws(r[0]) && !ws(r[|r| - 1])))
  }

  /** Python's `s.strip()` over the whitespace class `ws`. */
  function Strip(s: string, ws: char -> bool): (r: string)
    ensures StrippedAt(s, ws, |s| - |TrimLeft(s, ws)|, r)
  {
    var t := TrimLeft(s, ws);
    var r := TrimRight(t, ws);
    assert t[..|r|] == s[|s| - |t|..|s| - |t| + |r|];
    r
  }

  /** The characterisation determines the stripped string: any `r` that is a
      stripped slice of `s` is `Strip(s, ws)`. */
  lemma StrippedAtIsStrip(s: string, ws: char -> bool, lo: int, r: string)
    requires StrippedAt(s, ws, lo, r)
    ensures r == Strip(s, ws)
  {
  }

  /** Stripping keeps a slice of the input, so it introduces no `pat`. */
  lemma {:induction false} StripLacks(s: string, pat: string, ws: char -> bool)
    requires !Contains(s, pat)
    ensures !Contains(Strip(s, ws), pat)
  {
    var lo := StripStart(s, ws);
    SliceLacks(s, pat, lo, lo + |Strip(s, ws)|);
  }

  /** Where the stripped text starts in `s`, and that it is the slice there. */
  ghost function StripStart(s: string, ws: char -> bool): (lo: nat)
    ensures lo + |Strip(s, ws)| <= |s| && Strip(s, ws) == s[lo..lo + |Strip(s, ws)|]
  {
    var lo := |s| - |TrimLeft(s, ws)|;
    assert StrippedAt(s, ws, lo, Strip(s, ws));
    lo
  }

  /** Stripping twice is stripping once. */
  lemma StripIdempotent(s: string, ws: char -> bool)
    ensures Strip(Strip(s, ws), ws) == Strip(s, ws)
  {
  }
}
