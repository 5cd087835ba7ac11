/**
 * The pieces of Python's `str` that the two scripts rely on:
 * `endswith`, `find` and `replace`, over `string` (= `seq<char>`).
 */
module Strings {
  import opened Wrappers

  /** `pat` occurs in `s` starting at index `i`. */
  predicate OccursAt(s: string, pat: string, i: nat) {
    i + |pat| <= |s| && s[i..i + |pat|] == pat
  }

  /** Whether `pat` occurs at index `k` of `y` does not depend on what surrounds `y`. */
  lemma OccursAtShift(x: string, y: string, z: string, pat: string, k: nat)
    requires k + |pat| <= |y|
    ensures OccursAt(x + y + z, pat, |x| + k) == OccursAt(y, pat, k)
  {
    assert (x + y + z)[|x| + k..|x| + k + |pat|] == y[k..k + |pat|];
  }

  /** `str.endswith`: true exactly when `s` is its own head followed by `suffix`. */
  function EndsWith(s: string, suffix: string): (r: bool)
    ensures r <==> |suffix| <= |s| && s == s[..|s| - |suffix|] + suffix
  {
    var k := |s| - |suffix|;
    if |suffix| <= |s| && s[k..] == suffix then
      assert s == s[..k] + suffix;
      true
    else
      false
  }

  /** Any stem followed by `suffix` ends with it. */
  lemma EndsWithConcat(stem: string, suffix: string)
    ensures EndsWith(stem + suffix, suffix)
  {
    assert (stem + suffix)[|stem|..] == suffix;
  }

  /** A string ends with whatever one of its tails ends with. */
  lemma EndsWithTail(s: string, t: string, suffix: string)
    requires |t| <= |s| && s[|s| - |t|..] == t
    requires EndsWith(t, suffix)
    ensures EndsWith(s, suffix)
  {
    assert s[|s| - |suffix|..] == t[|t| - |suffix|..];
  }

  /**
   * `s.find(pat, from)`: the first index at or after `from` where `pat`
   * occurs, or None where Python returns -1.
   */
  function Find(s: string, pat: string, from: nat): (r: Option<nat>)
    ensures r.Some? ==> from <= r.value && OccursAt(s, pat, r.value)
    decreases |s| - from
  {
    if from + |pat| > |s| then None
    else if OccursAt(s, pat, from) then Some(from)
    else Find(s, pat, from + 1)
  }

  /** Find skips no occurrence: none lies between `from` and its result. */
  lemma {:induction false} FindIsFirst(s: string, pat: string, from: nat, k: nat)
    requires from <= k
    requires OccursAt(s, pat, k)
    ensures Find(s, pat, from).Some? && Find(s, pat, from).value <= k
    decreases |s| - from
  {
    if from + |pat| <= |s| && !OccursAt(s, pat, from) {
      FindIsFirst(s, pat, from + 1, k);
    }
  }

  /** The contract of Find pins its result down once the first occurrence is known. */
  lemma FindFirst(s: string, pat: string, from: nat, k: nat)
    requires from <= k && OccursAt(s, pat, k)
    requires forall m: nat :: from <= m < k ==> !OccursAt(s, pat, m)
    ensures Find(s, pat, from) == Some(k)
  {
    FindIsFirst(s, pat, from, k);
  }

  /**
   * `s.replace(pat, rep)`: every non-overlapping occurrence of `pat`, found
   * left to right, is replaced by `rep`. For an empty `pat` Python puts `rep`
   * before every character and at the end.
   */
  function Replace(s: string, pat: string, rep: string): string
    decreases |s|
  {
    if pat == [] then
      if s == [] then rep else rep + [s[0]] + Replace(s[1..], pat, rep)
    else
      match Find(s, pat, 0)
      case None => s
      case Some(i) => s[..i] + rep + Replace(s[i + |pat|..], pat, rep)
  }

  /** Without any occurrence of `pat`, `replace` changes nothing. */
  lemma ReplaceNoOccurrence(s: string, pat: string, rep: string)
    requires pat != []
    requires forall k: nat :: !OccursAt(s, pat, k)
    ensures Replace(s, pat, rep) == s
  {
  }

  /**
   * The first occurrence of `pat` is replaced and the scan resumes after it:
   * an occurrence is replaced wherever it stands, not only at the end.
   */
  lemma ReplaceFirstOccurrence(x: string, y: string, pat: string, rep: string)
    requires pat != []
    requires forall k: nat :: k < |x| ==> !OccursAt(x + pat + y, pat, k)
    ensures Replace(x + pat + y, pat, rep) == x + rep + Replace(y, pat, rep)
  {
    var s := x + pat + y;
    assert OccursAt(s, pat, |x|) by { assert s[|x|..|x| + |pat|] == pat; }
    FindFirst(s, pat, 0, |x|);
    assert s[..|x|] == x;
    assert s[|x| + |pat|..] == y;
  }

  /**
   * A name that ends in `pat` and holds no earlier occurrence of it becomes
   * its stem followed by `rep`.
   */
  lemma ReplaceTrailing(stem: string, pat: string, rep: string)
    requires pat != []
    requires forall k: nat :: k < |stem| ==> !OccursAt(stem + pat, pat, k)
    ensures Replace(stem + pat, pat, rep) == stem + rep
  {
    assert stem + pat + [] == stem + pat;
    ReplaceFirstOccurrence(stem, [], pat, rep);
    assert Replace([], pat, rep) == [];
  }

  /** A sequence is the part before a slice, the slice, and the part after it. */
  lemma SplitAround(s: string, i: nat, n: nat)
    requires i + n <= |s|
    ensures s == s[..i] + s[i..i + n] + s[i + n..]
  {
    assert s == s[..i] + s[i..];
    assert s[i..] == s[i..i + n] + s[i + n..];
  }

  /** Both occurrences are replaced in a text holding `pat` exactly twice, at the positions it was put. */
  lemma ReplaceTwoOccurrences(x: string, y: string, pat: string, rep: string)
    requires pat != []
    requires forall k: nat :: k < |x| ==> !OccursAt(x + pat + (y + pat), pat, k)
    requires forall k: nat :: k < |y| ==> !OccursAt(y + pat, pat, k)
    ensures Replace(x + pat + (y + pat), pat, rep) == x + rep + (y + rep)
  {
    ReplaceFirstOccurrence(x, y + pat, pat, rep);
    ReplaceTrailing(y, pat, rep);
  }

  /** A character found in neither `s` nor `rep` is not in the result. */
  lemma {:induction false} ReplaceAvoids(s: string, pat: string, rep: string, c: char)
    requires c !in s && c !in rep
    ensures c !in Replace(s, pat, rep)
    decreases |s|
  {
    if pat == [] {
      if s != [] {
        assert s == [s[0]] + s[1..];
        ReplaceAvoids(s[1..], pat, rep, c);
      }
    } else {
      match Find(s, pat, 0)
      case None =>
      case Some(i) =>
        SplitAround(s, i, |pat|);
        ReplaceAvoids(s[i + |pat|..], pat, rep, c);
    }
  }
}
