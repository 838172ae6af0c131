/**
 * The three Python string operations the `/check` handler applies to
 * client input: the substring test `needle in hay`, `s.rsplit('.', 1)[-1]`
 * and `s.strip()`.  The handler runs on Python 2, where request bodies
 * decode to `unicode` strings and `strip()` removes what
 * `unicode.isspace()` accepts.
 */
module Text {

  /** Python 2.7's `unicode.isspace()` (Unicode 5.2 whitespace, bidi B/S/WS). */
  predicate IsSpace(c: char) {
    ('\t' <= c <= '\r') || ('\U{1C}' <= c <= '\U{1F}') || c == ' ' ||
    c == '\U{85}' || c == '\U{A0}' || c == '\U{1680}' || c == '\U{180E}' ||
    ('\U{2000}' <= c <= '\U{200A}') || c == '\U{2028}' || c == '\U{2029}' ||
    c == '\U{202F}' || c == '\U{205F}' || c == '\U{3000}'
  }

  /** Every character of `s` is whitespace (true of the empty string). */
  ghost predicate AllSpace(s: string) {
    forall i :: 0 <= i < |s| ==> IsSpace(s[i])
  }

  // ---------------------------------------------------------------- `in`

  /** Python's `needle in hay` on strings. */
  predicate Contains(hay: string, needle: string) {
    needle <= hay || (hay != [] && Contains(hay[1..], needle))
  }

  /** `needle` occurs in `hay` starting at index `i`. */
  ghost predicate OccursAt(hay: string, needle: string, i: int) {
    0 <= i && i + |needle| <= |hay| && hay[i..i + |needle|] == needle
  }

  /** `Contains` finds exactly the occurrences of `needle` in `hay`. */
  lemma {:induction false} ContainsIffOccurs(hay: string, needle: string)
    ensures Contains(hay, needle) <==> exists i :: OccursAt(hay, needle, i)
  {
    if needle <= hay {
      assert OccursAt(hay, needle, 0);
    } else if hay == [] {
      assert |needle| > 0;
    } else {
      ContainsIffOccurs(hay[1..], needle);
      forall i | OccursAt(hay[1..], needle, i) ensures OccursAt(hay, needle, i + 1) {
        assert hay[1..][i..i + |needle|] == hay[i + 1..i + 1 + |needle|];
      }
      assert !OccursAt(hay, needle, 0);
      forall i | OccursAt(hay, needle, i) ensures OccursAt(hay[1..], needle, i - 1) {
        assert hay[1..][i - 1..i - 1 + |needle|] == hay[i..i + |needle|];
      }
    }
  }

  // ------------------------------------------------------ `rsplit('.', 1)[-1]`

  /**
   * The start of the dot-free run of characters that ends at `j`: the
   * index just after the last '.' before `j`, or 0 when there is none.
   */
  function SegmentStart(s: string, j: nat): (i: nat)
    requires j <= |s|
    ensures i <= j
  {
    if j == 0 || s[j - 1] == '.' then j else SegmentStart(s, j - 1)
  }

  /** The run from SegmentStart to `j` has no dot, and a '.' or the start of `s` precedes it. */
  lemma {:induction false} SegmentStartSpec(s: string, j: nat)
    requires j <= |s|
    ensures forall k :: SegmentStart(s, j) <= k < j ==> s[k] != '.'
    ensures SegmentStart(s, j) > 0 ==> s[SegmentStart(s, j) - 1] == '.'
    decreases j
  {
    if j > 0 && s[j - 1] != '.' {
      SegmentStartSpec(s, j - 1);
    }
  }

  /** Those properties determine the start of the run. */
  lemma {:induction false} SegmentStartUnique(s: string, j: nat, i: nat)
    requires i <= j <= |s|
    requires forall k :: i <= k < j ==> s[k] != '.'
    requires i > 0 ==> s[i - 1] == '.'
    ensures SegmentStart(s, j) == i
    decreases j
  {
    if j > i {
      assert s[j - 1] != '.';
      SegmentStartUnique(s, j - 1, i);
    }
  }

  /**
   * `s.rsplit('.', 1)[-1]`: the text after the last '.', or all of `s`
   * when it has no '.'.  The three ensures clauses determine the result
   * (see AfterLastDotUnique): the longest suffix of `s` free of dots.
   */
  function AfterLastDot(s: string): (r: string)
    ensures '.' !in r
    ensures |r| <= |s| && r == s[|s| - |r|..]
    ensures |r| < |s| ==> s[|s| - |r| - 1] == '.'
  {
    var i := SegmentStart(s, |s|);
    SegmentStartSpec(s, |s|);
    assert forall k :: 0 <= k < |s| - i ==> s[i..][k] == s[i + k];
    s[i..]
  }

  /** Any dot-free suffix that is all of `s` or follows a '.' is AfterLastDot(s). */
  lemma AfterLastDotUnique(s: string, r: string)
    requires '.' !in r
    requires |r| <= |s| && r == s[|s| - |r|..]
    requires |r| < |s| ==> s[|s| - |r| - 1] == '.'
    ensures r == AfterLastDot(s)
  {
    var i := |s| - |r|;
    forall k | i <= k < |s| ensures s[k] != '.' {
      assert s[k] == r[k - i];
    }
    SegmentStartUnique(s, |s|, i);
  }

  /** A dotted module path resolves to its last segment: `p.x` is treated like `x`. */
  lemma DottedPathReducesToLastSegment(p: string, x: string)
    ensures AfterLastDot(p + "." + x) == AfterLastDot(x)
  {
    var s := p + "." + x;
    var r := AfterLastDot(x);
    assert s[|s| - |x|..] == x;
    assert s[|s| - |r|..] == r;
    if |r| == |x| {
      assert s[|s| - |r| - 1] == '.';
    } else {
      assert s[|s| - |r| - 1] == x[|x| - |r| - 1];
    }
    AfterLastDotUnique(s, r);
  }

  /** Reducing a second time changes nothing. */
  lemma AfterLastDotIdempotent(s: string)
    ensures AfterLastDot(AfterLastDot(s)) == AfterLastDot(s)
  {
    var r := AfterLastDot(s);
    AfterLastDotUnique(r, r);
  }

  // ------------------------------------------------------------------ `strip()`

  /** The end of the run of whitespace that starts at `i`. */
  function SpacesFrom(s: string, i: nat): (j: nat)
    requires i <= |s|
    ensures i <= j <= |s|
    ensures forall k :: i <= k < j ==> IsSpace(s[k])
    ensures j < |s| ==> !IsSpace(s[j])
    decreases |s| - i
  {
    if i == |s| || !IsSpace(s[i]) then i else SpacesFrom(s, i + 1)
  }

  /** The start of the run of whitespace that ends at `j`, not going below `lo`. */
  function SpacesBefore(s: string, lo: nat, j: nat): (i: nat)
    requires lo <= j <= |s|
    ensures lo <= i <= j
    ensures forall k :: i <= k < j ==> IsSpace(s[k])
    ensures i > lo ==> !IsSpace(s[i - 1])
  {
    if j == lo || !IsSpace(s[j - 1]) then j else SpacesBefore(s, lo, j - 1)
  }

  /** `r` is `s` with the whitespace before index `i` and after `r` removed. */
  ghost predicate StrippedAt(s: string, r: string, i: int) {
    OccursAt(s, r, i) && AllSpace(s[..i]) && AllSpace(s[i + |r|..])
  }

  /**
   * `s.strip()`: the part of `s` between its leading and its trailing
   * whitespace.  It is empty exactly when `s` is all whitespace, which is
   * what makes a version of spaces count as blank.
   */
  function Strip(s: string): (r: string)
    ensures exists i :: StrippedAt(s, r, i)
    ensures r != [] ==> !IsSpace(r[0]) && !IsSpace(r[|r| - 1])
    ensures r == [] <==> AllSpace(s)
  {
    var a := SpacesFrom(s, 0);
    var b := SpacesBefore(s, a, |s|);
    assert StrippedAt(s, s[a..b], a);
    s[a..b]
  }

  /** A string with no whitespace at either end is its own strip. */
  lemma StripLeavesTrimmed(s: string)
    requires s != [] ==> !IsSpace(s[0]) && !IsSpace(s[|s| - 1])
    ensures Strip(s) == s
  {
    assert SpacesFrom(s, 0) == 0;
    assert SpacesBefore(s, 0, |s|) == |s|;
    assert s[0..|s|] == s;
  }

  /** Stripping a stripped string changes nothing. */
  lemma StripIdempotent(s: string)
    ensures Strip(Strip(s)) == Strip(s)
  {
    StripLeavesTrimmed(Strip(s));
  }
}
