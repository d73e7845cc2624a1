/** The Python string operations the script applies to manifest lines and
    package names: `str.strip()` with no argument, `str.lower()`, and the
    substring test behind `key in some_string`. */
module Text {

  /** Python's `str.isspace()` on one character: the characters `str.strip()`
      removes when called without an argument. */
  predicate IsSpace(c: char) {
    || '\U{9}' <= c <= '\U{D}'
    || '\U{1C}' <= c <= '\U{20}'
    || c == '\U{85}' || c == '\U{A0}' || c == '\U{1680}'
    || '\U{2000}' <= c <= '\U{200A}'
    || c == '\U{2028}' || c == '\U{2029}' || c == '\U{202F}'
    || c == '\U{205F}' || c == '\U{3000}'
  }

  ghost predicate AllSpace(s: string) {
    forall i :: 0 <= i < |s| ==> IsSpace(s[i])
  }

  /** Every character of `s` from `lo` up to (not including) `hi` is
      whitespace. */
  ghost predicate SpaceBetween(s: string, lo: int, hi: int)
    requires 0 <= lo <= hi <= |s|
  {
    forall k :: lo <= k < hi ==> IsSpace(s[k])
  }

  /** Index of the first non-whitespace character of `s` at or after `lo`
      (or `|s|`). */
  function SkipLeading(s: string, lo: nat): (i: nat)
    requires lo <= |s|
    ensures lo <= i <= |s|
    ensures SpaceBetween(s, lo, i)
    ensures i < |s| ==> !IsSpace(s[i])
    decreases |s| - lo
  {
    if lo < |s| && IsSpace(s[lo]) then SkipLeading(s, lo + 1) else lo
  }

  /** Index just past the last non-whitespace character of `s` before `hi`
      and at or after `lo` (or `lo`). */
  function SkipTrailing(s: string, lo: nat, hi: nat): (j: nat)
    requires lo <= hi <= |s|
    ensures lo <= j <= hi
    ensures SpaceBetween(s, j, hi)
    ensures j > lo ==> !IsSpace(s[j - 1])
    decreases hi
  {
    if hi > lo && IsSpace(s[hi - 1]) then SkipTrailing(s, lo, hi - 1) else hi
  }

  /** `s[i..j]` is what is left of `s` once whitespace has been cut from both
      ends: everything cut is whitespace. */
  ghost predicate CutsSpace(s: string, i: int, j: int) {
    0 <= i <= j <= |s| && SpaceBetween(s, 0, i) && SpaceBetween(s, j, |s|)
  }

  /** Python's `s.strip()`: the slice of `s` left after removing whitespace
      from both ends. The result is empty or starts and ends with a
      non-whitespace character; `StripCutsSpace` says that only whitespace was
      removed. */
  function Strip(s: string): (r: string)
    ensures |r| <= |s|
    ensures r == [] || (!IsSpace(r[0]) && !IsSpace(r[|r| - 1]))
  {
    var i := SkipLeading(s, 0);
    s[i..SkipTrailing(s, i, |s|)]
  }

  /** Strip removes only whitespace, and only from the two ends. */
  lemma StripCutsSpace(s: string)
    ensures exists i, j :: CutsSpace(s, i, j) && Strip(s) == s[i..j]
  {
    var i := SkipLeading(s, 0);
    var j := SkipTrailing(s, i, |s|);
    assert CutsSpace(s, i, j);
  }

  /** A stripped line is empty exactly when the line is blank: this is the test
      `if line.strip()` that drops blank manifest lines. */
  lemma StripBlank(s: string)
    ensures Strip(s) == [] <==> AllSpace(s)
  {
    var r := Strip(s);
    StripCutsSpace(s);
    var i, j :| CutsSpace(s, i, j) && r == s[i..j];
    if Strip(s) == [] {
      forall k | 0 <= k < |s|
        ensures IsSpace(s[k])
      {
        if k >= i {
          assert k >= j;
        }
      }
    } else {
      assert s[i] == Strip(s)[0];
    }
  }

  /** Stripping an already stripped string changes nothing. */
  lemma StripIdempotent(s: string)
    ensures Strip(Strip(s)) == Strip(s)
  {
    var r := Strip(s);
    var r' := Strip(r);
    StripCutsSpace(r);
    var i, j :| CutsSpace(r, i, j) && r' == r[i..j];
    if r != [] {
      assert r[0..|r|] == r;
    }
  }

  /** Python's `str.lower()` on one character, restricted to ASCII letters. */
  function LowerChar(c: char): (d: char)
    ensures !('A' <= d <= 'Z')
    ensures ('A' <= c <= 'Z') == (d != c)
    ensures 'A' <= c <= 'Z' ==> d as int == c as int + 32
  {
    if 'A' <= c <= 'Z' then (c as int + 32) as char else c
  }

  /** Python's `s.lower()` (ASCII case mapping). */
  function Lower(s: string): (r: string)
    ensures |r| == |s|
    ensures forall i :: 0 <= i < |s| ==> r[i] == LowerChar(s[i])
  {
    seq(|s|, i requires 0 <= i < |s| => LowerChar(s[i]))
  }

  /** `a` and `b` are the same character up to ASCII case: equal, or one is a
      capital letter and the other its small letter. */
  predicate SameIgnoringCase(a: char, b: char) {
    || a == b
    || ('A' <= a <= 'Z' && b as int == a as int + 32)
    || ('A' <= b <= 'Z' && a as int == b as int + 32)
  }

  lemma LowerCharAgree(a: char, b: char)
    ensures LowerChar(a) == LowerChar(b) <==> SameIgnoringCase(a, b)
  {
  }

  /** Two names have the same lower-case form exactly when they have the same
      length and agree letter by letter up to ASCII case. */
  lemma LowerAgree(p: string, q: string)
    ensures Lower(p) == Lower(q) <==>
      |p| == |q| && forall i :: 0 <= i < |p| ==> SameIgnoringCase(p[i], q[i])
  {
    if |p| == |q| && forall i :: 0 <= i < |p| ==> SameIgnoringCase(p[i], q[i]) {
      forall i | 0 <= i < |p|
        ensures Lower(p)[i] == Lower(q)[i]
      {
        LowerCharAgree(p[i], q[i]);
      }
    }
    if Lower(p) == Lower(q) {
      forall i | 0 <= i < |p|
        ensures SameIgnoringCase(p[i], q[i])
      {
        assert Lower(p)[i] == Lower(q)[i];
        LowerCharAgree(p[i], q[i]);
      }
    }
  }

  /** Lower-casing a lower-cased name changes nothing. */
  lemma LowerIdempotent(s: string)
    ensures Lower(Lower(s)) == Lower(s)
  {
  }

  /** Python's `needle in hay` for two strings: `needle` occurs as a
      contiguous substring of `hay` (the empty string occurs in every string). */
  predicate IsInfix(needle: string, hay: string)
    decreases |hay|
  {
    || needle <= hay
    || (|hay| > 0 && IsInfix(needle, hay[1..]))
  }
}
