/**
 * Order-preserving sublists and the list shapes every loop of the two
 * scripts builds: a filter, a filter that also transforms, a map, and a
 * dict filled key by key.
 */
module Seqs {
  import opened Wrappers

  /** `a` is obtained from `b` by dropping elements, keeping the order of the rest. */
  predicate IsSubsequence<T(==)>(a: seq<T>, b: seq<T>)
    decreases |b|
  {
    a == [] ||
    (b != [] &&
      ((a[|a| - 1] == b[|b| - 1] && IsSubsequence(a[..|a| - 1], b[..|b| - 1])) ||
       IsSubsequence(a, b[..|b| - 1])))
  }

  /** Appending `x` to the longer list keeps a sublist a sublist, whether or not `x` is kept. */
  lemma SubsequenceExtend<T>(a: seq<T>, b: seq<T>, x: T)
    requires IsSubsequence(a, b)
    ensures IsSubsequence(a + [x], b + [x])
    ensures IsSubsequence(a, b + [x])
  {
    assert (a + [x])[..|a|] == a;
    assert (b + [x])[..|b|] == b;
  }

  /** A sublist is never longer than the list it is taken from. */
  lemma {:induction false} SubsequenceLength<T>(a: seq<T>, b: seq<T>)
    requires IsSubsequence(a, b)
    ensures |a| <= |b|
    decreases |b|
  {
    if a != [] {
      if a[|a| - 1] == b[|b| - 1] && IsSubsequence(a[..|a| - 1], b[..|b| - 1]) {
        SubsequenceLength(a[..|a| - 1], b[..|b| - 1]);
      } else {
        SubsequenceLength(a, b[..|b| - 1]);
      }
    }
  }

  // ---------------------------------------------------------------- filter

  /** `[x for x in xs if keep(x)]`. */
  function Filter<T>(xs: seq<T>, keep: T -> bool): seq<T> {
    if xs == [] then []
    else Filter(xs[..|xs| - 1], keep) + (if keep(xs[|xs| - 1]) then [xs[|xs| - 1]] else [])
  }

  /** One more loop iteration: the new element is appended when it is kept. */
  lemma FilterStep<T>(xs: seq<T>, x: T, keep: T -> bool)
    ensures Filter(xs + [x], keep) == Filter(xs, keep) + (if keep(x) then [x] else [])
  {
    assert (xs + [x])[..|xs|] == xs;
  }

  /** The filter keeps exactly the accepted elements. */
  lemma {:induction false} FilterMembers<T>(xs: seq<T>, keep: T -> bool, x: T)
    ensures x in Filter(xs, keep) <==> x in xs && keep(x)
  {
    if xs != [] {
      FilterMembers(xs[..|xs| - 1], keep, x);
      assert xs == xs[..|xs| - 1] + [xs[|xs| - 1]];
    }
  }

  /** The filter keeps the order of its input and so is no longer than it. */
  lemma {:induction false} FilterInOrder<T>(xs: seq<T>, keep: T -> bool)
    ensures IsSubsequence(Filter(xs, keep), xs)
    ensures |Filter(xs, keep)| <= |xs|
  {
    if xs != [] {
      var init, last := xs[..|xs| - 1], xs[|xs| - 1];
      assert xs == init + [last];
      FilterInOrder(init, keep);
      SubsequenceExtend(Filter(init, keep), init, last);
      if !keep(last) {
        assert Filter(xs, keep) == Filter(init, keep) + [];
        assert Filter(xs, keep) == Filter(init, keep);
      }
    }
    SubsequenceLength(Filter(xs, keep), xs);
  }

  /** A filter that accepts every element changes nothing. */
  lemma {:induction false} FilterKeepsAll<T>(xs: seq<T>, keep: T -> bool)
    requires forall x :: x in xs ==> keep(x)
    ensures Filter(xs, keep) == xs
  {
    if xs != [] {
      var init := xs[..|xs| - 1];
      assert forall x :: x in init ==> x in xs;
      FilterKeepsAll(init, keep);
      assert xs == init + [xs[|xs| - 1]];
    }
  }

  // ---------------------------------------------------------------- filter and transform

  /** The values `f` gives for the elements of `xs`, in order, skipping the elements it gives none for. */
  function FilterMap<T, U>(xs: seq<T>, f: T -> Option<U>): seq<U> {
    if xs == [] then []
    else
      var y := f(xs[|xs| - 1]);
      FilterMap(xs[..|xs| - 1], f) + (if y.Some? then [y.value] else [])
  }

  lemma FilterMapStep<T, U>(xs: seq<T>, x: T, f: T -> Option<U>)
    ensures FilterMap(xs + [x], f) == FilterMap(xs, f) + (if f(x).Some? then [f(x).value] else [])
  {
    assert (xs + [x])[..|xs|] == xs;
  }

  /** A value is produced exactly when some element gives it, and there is at most one value per element. */
  lemma {:induction false} FilterMapMembers<T, U>(xs: seq<T>, f: T -> Option<U>, y: U)
    ensures y in FilterMap(xs, f) <==> exists x :: x in xs && f(x) == Some(y)
    ensures |FilterMap(xs, f)| <= |xs|
  {
    if xs != [] {
      var init, last := xs[..|xs| - 1], xs[|xs| - 1];
      assert xs == init + [last];
      FilterMapMembers(init, f, y);
      if exists x :: x in xs && f(x) == Some(y) {
        var x :| x in xs && f(x) == Some(y);
        if x != last { assert x in init; }
      }
    }
  }

  /** `[g(x) for x in xs]`. */
  function Map<T, U>(xs: seq<T>, g: T -> U): seq<U> {
    seq(|xs|, i requires 0 <= i < |xs| => g(xs[i]))
  }

  lemma MapStep<T, U>(xs: seq<T>, x: T, g: T -> U)
    ensures Map(xs + [x], g) == Map(xs, g) + [g(x)]
  {
    assert forall i :: 0 <= i < |xs| ==> (xs + [x])[i] == xs[i];
  }

  /**
   * When every produced value is labelled, through `g`, with the label `h`
   * gives its element, the labels of the produced values follow the order
   * of the elements' labels.
   */
  lemma {:induction false} FilterMapInOrder<T, U, V>(xs: seq<T>, f: T -> Option<U>, g: U -> V, h: T -> V)
    requires forall x :: f(x).Some? ==> g(f(x).value) == h(x)
    ensures IsSubsequence(Map(FilterMap(xs, f), g), Map(xs, h))
  {
    if xs != [] {
      var init, last := xs[..|xs| - 1], xs[|xs| - 1];
      assert xs == init + [last];
      FilterMapInOrder(init, f, g, h);
      MapStep(init, last, h);
      SubsequenceExtend(Map(FilterMap(init, f), g), Map(init, h), h(last));
      FilterMapStep(init, last, f);
      if f(last).Some? {
        MapStep(FilterMap(init, f), f(last).value, g);
      } else {
        assert FilterMap(xs, f) == FilterMap(init, f) + [];
        assert FilterMap(xs, f) == FilterMap(init, f);
      }
    }
  }

  // ---------------------------------------------------------------- dict filled in a loop

  /** `d = {}; for k in xs: if f(k) is not None: d[k] = f(k)`. */
  function Collect<K, V>(xs: seq<K>, f: K -> Option<V>): map<K, V> {
    if xs == [] then map[]
    else
      var k := xs[|xs| - 1];
      var d := Collect(xs[..|xs| - 1], f);
      if f(k).Some? then d[k := f(k).value] else d
  }

  lemma CollectStep<K, V>(xs: seq<K>, k: K, f: K -> Option<V>)
    ensures Collect(xs + [k], f) == if f(k).Some? then Collect(xs, f)[k := f(k).value] else Collect(xs, f)
  {
    assert (xs + [k])[..|xs|] == xs;
  }

  /** The dict holds exactly the elements that give a value, each with that value. */
  lemma {:induction false} CollectMembers<K, V>(xs: seq<K>, f: K -> Option<V>, k: K)
    ensures k in Collect(xs, f) <==> k in xs && f(k).Some?
    ensures k in Collect(xs, f) ==> Collect(xs, f)[k] == f(k).value
  {
    if xs != [] {
      var init := xs[..|xs| - 1];
      assert xs == init + [xs[|xs| - 1]];
      CollectMembers(init, f, k);
    }
  }
}
