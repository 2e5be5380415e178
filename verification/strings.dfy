/** The few string operations the archiver relies on, over ASCII text. */
module Strings {
  import opened Common

  predicate IsUpper(c: char) { 'A' <= c <= 'Z' }

  /** ASCII lower-casing of one character. */
  function LowerChar(c: char): (d: char)
    ensures !IsUpper(d)
    ensures !IsUpper(c) ==> d == c
    ensures IsUpper(c) ==> 'a' <= d <= 'z' && d as int - c as int == 'a' as int - 'A' as int
  {
    if IsUpper(c) then (c as int - 'A' as int + 'a' as int) as char else c
  }

  /** `str.lower()` restricted to ASCII. */
  function Lower(s: string): (r: string)
    ensures |r| == |s|
    ensures forall i :: 0 <= i < |s| ==> r[i] == LowerChar(s[i])
    ensures forall i :: 0 <= i < |r| ==> !IsUpper(r[i])
  {
    seq(|s|, i requires 0 <= i < |s| => LowerChar(s[i]))
  }

  lemma LowerIdempotent(s: string)
    ensures Lower(Lower(s)) == Lower(s)
  {
  }

  /** `s.startswith(p)`. */
  predicate StartsWith(s: string, p: string)
    ensures StartsWith(s, p) <==> |p| <= |s| && forall i :: 0 <= i < |p| ==> s[i] == p[i]
  {
    |p| <= |s| && s[..|p|] == p
  }

  /** A prefix of a prefix of `s` is a prefix of `s`. */
  lemma StartsWithTransitive(s: string, p: string, q: string)
    requires StartsWith(s, p) && StartsWith(p, q)
    ensures StartsWith(s, q)
  {
    assert s[..|q|] == s[..|p|][..|q|];
  }

  /** `p` occurs in `s` starting at index `i`. */
  predicate OccursAt(s: string, p: string, i: int) {
    0 <= i && i + |p| <= |s| && s[i..i + |p|] == p
  }

  /** The first index at or after `i` where `p` occurs in `s`. */
  function FindFrom(s: string, p: string, i: nat): (r: Option<nat>)
    decreases |s| - i
    ensures r.Some? ==> i <= r.value && OccursAt(s, p, r.value)
    ensures r.Some? ==> forall k :: i <= k < r.value ==> !OccursAt(s, p, k)
    ensures r.None? ==> forall k :: i <= k ==> !OccursAt(s, p, k)
  {
    if i + |p| > |s| then None
    else if s[i..i + |p|] == p then Some(i)
    else FindFrom(s, p, i + 1)
  }

  /** Python's `p in s`. */
  predicate Contains(s: string, p: string)
    ensures Contains(s, p) <==> FindFrom(s, p, 0).Some?
  {
    exists k :: 0 <= k <= |s| - |p| && OccursAt(s, p, k)
  }

  /** The first occurrence of `p` in `s`. */
  function FirstOccurrence(s: string, p: string): (i: nat)
    requires Contains(s, p)
    ensures OccursAt(s, p, i)
    ensures forall k :: 0 <= k < i ==> !OccursAt(s, p, k)
  {
    FindFrom(s, p, 0).value
  }

  /** `s` ends with `r`. */
  predicate IsSuffix(r: string, s: string) {
    |r| <= |s| && s[|s| - |r|..] == r
  }

  /** Python's `s.split(sep)[-1]`: `split` cuts `s` at the non-overlapping
      occurrences of `sep` found left to right, and this is the last piece. */
  function SplitLast(s: string, sep: string): (r: string)
    requires |sep| > 0
    decreases |s|
    ensures IsSuffix(r, s)
    ensures !Contains(r, sep)
  {
    if !Contains(s, sep) then s
    else
      var j := FirstOccurrence(s, sep) + |sep|;
      var r := SplitLast(s[j..], sep);
      SuffixOfRest(s, j, r);
      r
  }

  /** `sep` occurs in `s` immediately before its suffix `r`. */
  predicate PrecededBy(s: string, r: string, sep: string) {
    |r| + |sep| <= |s| && s[|s| - |r| - |sep|..|s| - |r|] == sep
  }

  /** Without `sep` in `s` the last piece is `s` itself; otherwise an
      occurrence of `sep` ends exactly where the last piece begins. */
  lemma {:induction false} SplitLastBoundary(s: string, sep: string)
    requires |sep| > 0
    decreases |s|
    ensures !Contains(s, sep) ==> SplitLast(s, sep) == s
    ensures Contains(s, sep) ==> PrecededBy(s, SplitLast(s, sep), sep)
  {
    if Contains(s, sep) {
      var i := FirstOccurrence(s, sep);
      var j := i + |sep|;
      var rest := s[j..];
      var r := SplitLast(rest, sep);
      assert SplitLast(s, sep) == r;
      SplitLastBoundary(rest, sep);
      if Contains(rest, sep) {
        SeparatorBeforeSuffix(s, j, r, sep);
      } else {
        SeparatorAtCut(s, i, sep);
      }
    }
  }

  /** Cutting `s` right after an occurrence of `sep` leaves a suffix preceded by `sep`. */
  lemma SeparatorAtCut(s: string, i: nat, sep: string)
    requires OccursAt(s, sep, i)
    ensures PrecededBy(s, s[i + |sep|..], sep)
  {
    var r := s[i + |sep|..];
    assert s[|s| - |r| - |sep|..|s| - |r|] == s[i..i + |sep|];
  }

  /** A suffix of a suffix of `s` is a suffix of `s`. */
  lemma SuffixOfRest(s: string, j: nat, r: string)
    requires j <= |s| && IsSuffix(r, s[j..])
    ensures IsSuffix(r, s)
  {
    var rest := s[j..];
    assert s[|s| - |r|..] == rest[|rest| - |r|..];
  }

  /** A separator just before a suffix of `s[j..]` is just before it in `s`. */
  lemma SeparatorBeforeSuffix(s: string, j: nat, r: string, sep: string)
    requires j <= |s| && PrecededBy(s[j..], r, sep)
    ensures PrecededBy(s, r, sep)
  {
    var rest := s[j..];
    assert s[|s| - |r| - |sep|..|s| - |r|] == rest[|rest| - |r| - |sep|..|rest| - |r|];
  }

  /** The index of the last occurrence of `c` in `s`, as `rsplit(c, 1)` finds it. */
  function LastIndexOf(s: string, c: char): (r: Option<nat>)
    ensures r.None? <==> c !in s
    ensures r.Some? ==> r.value < |s| && s[r.value] == c && c !in s[r.value + 1..]
  {
    if s == [] then None
    else if s[|s| - 1] == c then Some(|s| - 1)
    else
      assert s == s[..|s| - 1] + [s[|s| - 1]];
      LastIndexOf(s[..|s| - 1], c)
  }
}
