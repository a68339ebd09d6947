/**
 * The array operations the pages are built from: `filter`, `find` and a
 * one-element `splice` on a copy.  Each keeps the array it is given unchanged
 * (they are functions), as the source's copies do.
 */
module Lists {
  import opened Wrappers

  /** `a` can be obtained from `b` by deleting elements: `b` holds `a`'s elements in the same relative order. */
  ghost predicate IsSubsequence<T>(a: seq<T>, b: seq<T>)
    decreases |b|
  {
    a == [] ||
    (b != [] && ((a[0] == b[0] && IsSubsequence(a[1..], b[1..])) || IsSubsequence(a, b[1..])))
  }

  /** Every sequence holds itself. */
  lemma {:induction false} SubsequenceOfItself<T>(a: seq<T>)
    ensures IsSubsequence(a, a)
    decreases |a|
  {
    if a != [] {
      SubsequenceOfItself(a[1..]);
    }
  }

  /** `xs.filter(keep)`: the elements `keep` accepts, in their original order; never longer, and all accepted. */
  function Filter<T>(xs: seq<T>, keep: T -> bool): (r: seq<T>)
    ensures |r| <= |xs|
    ensures forall i :: 0 <= i < |r| ==> keep(r[i])
  {
    if xs == [] then []
    else
      var rest := Filter(xs[1..], keep);
      if keep(xs[0]) then [xs[0]] + rest else rest
  }

  /** Exactly the accepted elements survive, each as often as it occurs in the input. */
  lemma {:induction false} FilterMembers<T>(xs: seq<T>, keep: T -> bool)
    ensures forall x :: x in Filter(xs, keep) <==> x in xs && keep(x)
    ensures forall x :: x in xs ==> multiset(Filter(xs, keep))[x] == if keep(x) then multiset(xs)[x] else 0
  {
    if xs != [] {
      FilterMembers(xs[1..], keep);
      assert xs == [xs[0]] + xs[1..];
    }
  }

  lemma {:induction false} FilterIsSubsequence<T>(xs: seq<T>, keep: T -> bool)
    ensures IsSubsequence(Filter(xs, keep), xs)
  {
    if xs != [] {
      FilterIsSubsequence(xs[1..], keep);
    }
  }

  /** Filtering a concatenation filters each part: the order of the survivors is the input order. */
  lemma {:induction false} FilterAppend<T>(a: seq<T>, b: seq<T>, keep: T -> bool)
    ensures Filter(a + b, keep) == Filter(a, keep) + Filter(b, keep)
  {
    if a == [] {
      assert a + b == b;
    } else {
      var ab := a + b;
      assert ab[0] == a[0] && ab[1..] == a[1..] + b;
      FilterAppend(a[1..], b, keep);
      assert Filter(ab, keep) == (if keep(a[0]) then [a[0]] else []) + Filter(ab[1..], keep);
    }
  }

  /** A filter that accepts everything is the identity; one that accepts nothing is empty. */
  lemma {:induction false} FilterAll<T>(xs: seq<T>, keep: T -> bool)
    requires forall x :: x in xs ==> keep(x)
    ensures Filter(xs, keep) == xs
  {
    if xs != [] {
      FilterAll(xs[1..], keep);
    }
  }

  /** `xs.filter(x => key(x) !== k)`: every element whose key is `k` removed. */
  function WithoutKey<T, K(==)>(xs: seq<T>, key: T -> K, k: K): (r: seq<T>)
    ensures |r| <= |xs|
    ensures forall i :: 0 <= i < |r| ==> key(r[i]) != k
  {
    Filter(xs, x => key(x) != k)
  }

  /** `xs.filter(x => key(x) === k)`: the elements whose key is `k`. */
  function WithKey<T, K(==)>(xs: seq<T>, key: T -> K, k: K): (r: seq<T>)
    ensures |r| <= |xs|
    ensures forall i :: 0 <= i < |r| ==> key(r[i]) == k
  {
    Filter(xs, x => key(x) == k)
  }

  /** Both key filters work part by part on a concatenation. */
  lemma KeyFiltersAppend<T, K>(a: seq<T>, b: seq<T>, key: T -> K, k: K)
    ensures WithoutKey(a + b, key, k) == WithoutKey(a, key, k) + WithoutKey(b, key, k)
    ensures WithKey(a + b, key, k) == WithKey(a, key, k) + WithKey(b, key, k)
  {
    FilterAppend(a, b, x => key(x) != k);
    FilterAppend(a, b, x => key(x) == k);
  }

  /**
   * Removing by key drops exactly the elements with that key, keeps the others
   * in their order, and leaves the list as it was when no element has the key.
   */
  lemma WithoutKeyProperties<T, K>(xs: seq<T>, key: T -> K, k: K)
    ensures forall x :: x in WithoutKey(xs, key, k) <==> x in xs && key(x) != k
    ensures IsSubsequence(WithoutKey(xs, key, k), xs)
    ensures (forall x :: x in xs ==> key(x) != k) ==> WithoutKey(xs, key, k) == xs
    ensures (exists x :: x in xs && key(x) == k) ==> |WithoutKey(xs, key, k)| < |xs|
  {
    var keep := x => key(x) != k;
    FilterMembers(xs, keep);
    FilterIsSubsequence(xs, keep);
    if forall x :: x in xs ==> key(x) != k {
      FilterAll(xs, keep);
    }
    if exists x :: x in xs && key(x) == k {
      var x :| x in xs && key(x) == k;
      FilterShorter(xs, keep, x);
    }
  }

  /** A filter that rejects some element of the list makes it shorter. */
  lemma {:induction false} FilterShorter<T>(xs: seq<T>, keep: T -> bool, x: T)
    requires x in xs && !keep(x)
    ensures |Filter(xs, keep)| < |xs|
  {
    if xs[0] != x {
      FilterShorter(xs[1..], keep, x);
    }
  }

  /** The index of the first element satisfying `p` (`xs.findIndex(p)`, with `None` for -1). */
  function FirstIndex<T>(xs: seq<T>, p: T -> bool): (r: Option<nat>)
    ensures r.Some? ==> r.value < |xs| && p(xs[r.value])
    ensures r.Some? ==> forall j :: 0 <= j < r.value ==> !p(xs[j])
    ensures r.None? ==> forall j :: 0 <= j < |xs| ==> !p(xs[j])
  {
    if xs == [] then None
    else if p(xs[0]) then Some(0)
    else match FirstIndex(xs[1..], p)
      case None => None
      case Some(i) => Some(i + 1)
  }

  /** `xs.find(p)`: the first element satisfying `p`, or `undefined`. */
  function Find<T>(xs: seq<T>, p: T -> bool): (r: Option<T>)
    ensures r.None? <==> forall x :: x in xs ==> !p(x)
    ensures r.Some? ==> exists i :: 0 <= i < |xs| && xs[i] == r.value && p(r.value)
                                    && forall j :: 0 <= j < i ==> !p(xs[j])
  {
    match FirstIndex(xs, p)
    case None => None
    case Some(i) => Some(xs[i])
  }

  /** The first element satisfying `p` is the one `Find` returns. */
  lemma FindAt<T>(xs: seq<T>, p: T -> bool, i: int)
    requires 0 <= i < |xs| && p(xs[i]) && forall j :: 0 <= j < i ==> !p(xs[j])
    ensures Find(xs, p) == Some(xs[i])
  {
    var k :| 0 <= k < |xs| && xs[k] == Find(xs, p).value && p(xs[k]) && forall j :: 0 <= j < k ==> !p(xs[j]);
    assert k == i;
  }

  /** Where `splice(index, 1)` starts on an array of length `len`: negative indices count from the end. */
  function SpliceStart(len: nat, index: int): (s: nat)
    ensures s <= len
    ensures 0 <= index <= len ==> s == index
    ensures index < 0 ==> s == if len + index < 0 then 0 else len + index
    ensures index > len ==> s == len
  {
    if index < 0 then (if len + index < 0 then 0 else len + index)
    else if index > len then len
    else index
  }

  /** `copy.splice(index, 1)` applied to a copy of `xs`: the copy after the call. */
  function RemoveAt<T>(xs: seq<T>, index: int): (r: seq<T>)
    ensures 0 <= index < |xs| ==> |r| == |xs| - 1
    ensures 0 <= index < |xs| ==> forall k :: 0 <= k < |r| ==> r[k] == if k < index then xs[k] else xs[k + 1]
    ensures index >= |xs| ==> r == xs
    ensures index < 0 && xs != [] ==> |r| == |xs| - 1
  {
    var s := SpliceStart(|xs|, index);
    if s < |xs| then xs[..s] + xs[s + 1..] else xs
  }
}
