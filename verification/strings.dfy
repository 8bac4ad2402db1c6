/** The few Python string operations the annotation tool relies on:
    `pat in s`, `s.split(sep)[0]`, `s.split(sep)[1]` and `sep.join(xs)`. */
module Strings {
  import opened Wrappers

  /** `pat` occurs in `s` starting at position `p`. */
  predicate OccursAt(s: string, pat: string, p: int) {
    0 <= p && p + |pat| <= |s| && s[p..p + |pat|] == pat
  }

  /** Python's `pat in s`. */
  predicate Contains(s: string, pat: string) {
    exists p | 0 <= p <= |s| :: OccursAt(s, pat, p)
  }

  /** The first occurrence of `pat` in `s` at or after `i`. */
  function FindFrom(s: string, pat: string, i: nat): (r: Option<nat>)
    ensures r.Some? ==> i <= r.value && OccursAt(s, pat, r.value)
    ensures forall q :: i <= q && (r.None? || q < r.value) ==> !OccursAt(s, pat, q)
    decreases |s| - i
  {
    if i + |pat| > |s| then None
    else if s[i..i + |pat|] == pat then Some(i)
    else FindFrom(s, pat, i + 1)
  }

  /** The first occurrence of `pat` in `s` (Python's `s.find(pat)`, with `None` for -1). */
  function Find(s: string, pat: string): (r: Option<nat>)
    ensures r.Some? ==> OccursAt(s, pat, r.value)
    ensures r.Some? ==> forall q :: 0 <= q < r.value ==> !OccursAt(s, pat, q)
    ensures r.None? <==> !Contains(s, pat)
  {
    FindFrom(s, pat, 0)
  }

  /** Python's `s.split(sep)[0]`: the text before the first `sep`, or all of `s`. */
  function SplitHead(s: string, sep: string): (r: string)
    requires |sep| > 0
    ensures |r| <= |s| && r == s[..|r|]
    ensures !Contains(s, sep) ==> r == s
    ensures Contains(s, sep) ==> OccursAt(s, sep, |r|)
    ensures forall q :: 0 <= q < |r| ==> !OccursAt(s, sep, q)
  {
    match Find(s, sep)
    case None => s
    case Some(j) => s[..j]
  }

  /** Splitting on a one-character separator stops at the first occurrence
      of that character, or at the end. */
  lemma SplitHeadChar(s: string, c: char)
    ensures var r := SplitHead(s, [c]);
      && (forall i :: 0 <= i < |r| ==> r[i] != c) && (|r| == |s| || s[|r|] == c)
  {
    var r := SplitHead(s, [c]);
    forall q | 0 <= q < |r| ensures r[q] != c {
      assert s[q..q + 1] == [r[q]];
      assert !OccursAt(s, [c], q);
    }
    if |r| < |s| {
      assert s[|r|..|r| + 1] == [s[|r|]];
    }
  }

  /** `r` is the text from `start` up to the next `sep` or the end of `s`. */
  predicate SegmentAt(s: string, sep: string, start: int, r: string) {
    && 0 <= start && start + |r| <= |s| && r == s[start..start + |r|]
    && (start + |r| == |s| || OccursAt(s, sep, start + |r|))
    && forall q :: start <= q < start + |r| ==> !OccursAt(s, sep, q)
  }

  /** Python's `s.split(sep)[1]`: the text between the end of the first `sep`
      and the next `sep` (or the end of `s`); `None` where Python raises
      `IndexError` because `sep` is absent. */
  function SplitSecond(s: string, sep: string): (r: Option<string>)
    requires |sep| > 0
    ensures r.None? <==> !Contains(s, sep)
    ensures r.Some? ==> SegmentAt(s, sep, Find(s, sep).value + |sep|, r.value)
  {
    match Find(s, sep)
    case None => None
    case Some(j) =>
      SegmentAfter(s, sep, j + |sep|);
      Some(SplitHead(s[j + |sep|..], sep))
  }

  /** Splitting what follows `start` gives the segment at `start`. */
  lemma SegmentAfter(s: string, sep: string, start: nat)
    requires |sep| > 0 && start <= |s|
    ensures SegmentAt(s, sep, start, SplitHead(s[start..], sep))
  {
    OccursShift(s, sep, start);
  }

  /** `r` starts at `start` and runs up to the first `c`, the first `sep` or
      the end of `s`, whichever comes first. */
  predicate StopsAt(s: string, sep: string, c: char, start: int, r: string) {
    && 0 <= start && start + |r| <= |s| && s[start..start + |r|] == r
    && (forall i :: 0 <= i < |r| ==> r[i] != c)
    && (forall q :: start <= q < start + |r| ==> !OccursAt(s, sep, q))
    && (start + |r| == |s| || s[start + |r|] == c || OccursAt(s, sep, start + |r|))
  }

  /** `s.split(sep)[1].split(c)[0]`: the text after the first `sep` up to the
      next `c`, the next `sep` or the end. */
  lemma HeadOfSecond(s: string, sep: string, c: char)
    requires |sep| > 0 && Contains(s, sep)
    ensures StopsAt(s, sep, c, Find(s, sep).value + |sep|, SplitHead(SplitSecond(s, sep).value, [c]))
  {
    HeadOfSegment(s, sep, c, Find(s, sep).value + |sep|, SplitSecond(s, sep).value);
  }

  /** Splitting a segment on `c` stops at the first `c` in it. */
  lemma HeadOfSegment(s: string, sep: string, c: char, start: int, seg: string)
    requires SegmentAt(s, sep, start, seg)
    ensures StopsAt(s, sep, c, start, SplitHead(seg, [c]))
  {
    var r := SplitHead(seg, [c]);
    SplitHeadChar(seg, c);
    HeadWithin(s, start, seg, r);
    forall q | start <= q < start + |r| ensures !OccursAt(s, sep, q) {
      assert q < start + |seg|;
    }
    if |r| < |seg| {
      assert s[start + |r|] == seg[|r|];
    }
  }

  /** A prefix of the segment that starts at `start` sits at `start` as well. */
  lemma HeadWithin(s: string, start: nat, seg: string, r: string)
    requires start + |seg| <= |s| && seg == s[start..start + |seg|]
    requires |r| <= |seg| && r == seg[..|r|]
    ensures s[start..start + |r|] == r
  {
  }

  /** Occurrences in a suffix are occurrences in the whole string, shifted. */
  lemma OccursShift(s: string, pat: string, k: nat)
    requires k <= |s|
    ensures forall q :: 0 <= q ==> (OccursAt(s[k..], pat, q) <==> OccursAt(s, pat, k + q))
    ensures forall q :: k <= q ==> (OccursAt(s, pat, q) <==> OccursAt(s[k..], pat, q - k))
  {
    forall q | 0 <= q
      ensures OccursAt(s[k..], pat, q) <==> OccursAt(s, pat, k + q)
    {
      if q + |pat| <= |s| - k {
        assert s[k..][q..q + |pat|] == s[k + q..k + q + |pat|];
      }
    }
    forall q | k <= q
      ensures OccursAt(s, pat, q) <==> OccursAt(s[k..], pat, q - k)
    {
      assert OccursAt(s[k..], pat, q - k) <==> OccursAt(s, pat, k + (q - k));
    }
  }

  /** Python's `sep.join(xs)`. */
  function Join(sep: string, xs: seq<string>): (r: string)
    ensures |xs| == 0 ==> r == ""
    ensures |xs| == 1 ==> r == xs[0]
    ensures |xs| > 1 ==> |xs[0]| + |sep| <= |r| && r[..|xs[0]| + |sep|] == xs[0] + sep
  {
    if |xs| == 0 then ""
    else if |xs| == 1 then xs[0]
    else xs[0] + sep + Join(sep, xs[1..])
  }

  /** A join of at least one non-empty piece is non-empty. */
  lemma {:induction false} JoinEmpty(sep: string, xs: seq<string>)
    requires forall k :: 0 <= k < |xs| ==> xs[k] != ""
    ensures Join(sep, xs) == "" <==> xs == []
  {
    if |xs| > 1 {
      assert |Join(sep, xs)| >= |xs[0]| > 0;
    }
  }

  /** The length of a join: the pieces plus one separator between each pair. */
  lemma {:induction false} JoinLength(sep: string, xs: seq<string>)
    requires |xs| > 0
    ensures |Join(sep, xs)| == SumLengths(xs) + (|xs| - 1) * |sep|
  {
    if |xs| > 1 {
      JoinLength(sep, xs[1..]);
      assert |Join(sep, xs)| == |xs[0]| + |sep| + |Join(sep, xs[1..])|;
      assert SumLengths(xs) == |xs[0]| + SumLengths(xs[1..]);
    }
  }

  function SumLengths(xs: seq<string>): nat
  {
    if |xs| == 0 then 0 else |xs[0]| + SumLengths(xs[1..])
  }

  /** Python's `s.split(sep)`: the pieces between consecutive occurrences of `sep`. */
  function SplitAll(s: string, sep: string): (r: seq<string>)
    requires |sep| > 0
    ensures |r| > 0
    decreases |s|
  {
    match Find(s, sep)
    case None => [s]
    case Some(j) => [s[..j]] + SplitAll(s[j + |sep|..], sep)
  }

  lemma OccursStartsWith(s: string, pat: string, p: int)
    requires |pat| > 0 && OccursAt(s, pat, p)
    ensures s[p] == pat[0]
  {
    assert s[p..p + |pat|][0] == s[p];
  }

  /** Splitting a join on its separator gives back the pieces, as long as no
      piece contains the separator's first character. */
  lemma {:induction false} SplitJoin(sep: string, xs: seq<string>)
    requires |sep| > 0 && |xs| > 0
    requires forall k, i :: 0 <= k < |xs| && 0 <= i < |xs[k]| ==> xs[k][i] != sep[0]
    ensures SplitAll(Join(sep, xs), sep) == xs
  {
    var x := xs[0];
    if |xs| == 1 {
      forall q | 0 <= q ensures !OccursAt(x, sep, q) {
        if OccursAt(x, sep, q) {
          OccursStartsWith(x, sep, q);
        }
      }
    } else {
      var rest := Join(sep, xs[1..]);
      var s := x + sep + rest;
      assert s[|x|..|x| + |sep|] == sep;
      assert OccursAt(s, sep, |x|);
      forall q | 0 <= q < |x| ensures !OccursAt(s, sep, q) {
        if OccursAt(s, sep, q) {
          OccursStartsWith(s, sep, q);
        }
      }
      assert Find(s, sep) == Some(|x|);
      assert s[..|x|] == x;
      assert s[|x| + |sep|..] == rest;
      SplitJoin(sep, xs[1..]);
    }
  }
}
