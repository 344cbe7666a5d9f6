/**
 * Sequences, sets and maps as the source's hash collections use them.
 * Hash iteration order is unspecified, so a set is listed by `Enumerate`,
 * which may hand out its elements in any order; collecting pairs into a
 * hash map keeps, for each key, the pair inserted last.
 */
module Collections {

  /** No element occurs twice. */
  predicate NoDups<T(==)>(s: seq<T>) {
    forall i, j :: 0 <= i < j < |s| ==> s[i] != s[j]
  }

  /** Lists a hash set in an unspecified order: every element exactly once. */
  method Enumerate<T(==)>(s: set<T>) returns (xs: seq<T>)
    ensures NoDups(xs)
    ensures forall x :: x in xs <==> x in s
    ensures |xs| == |s|
  {
    xs := [];
    var rest := s;
    while rest != {}
      invariant rest <= s
      invariant NoDups(xs)
      invariant forall x :: x in xs <==> x in s && x !in rest
      invariant |xs| + |rest| == |s|
      decreases |rest|
    {
      var x :| x in rest;
      xs := xs + [x];
      rest := rest - {x};
    }
  }

  /** The elements of `xs` that satisfy `p`, in their order. */
  function Filter<T(!new)>(xs: seq<T>, p: T -> bool): (ys: seq<T>)
    ensures |ys| <= |xs|
    ensures forall y :: multiset(ys)[y] == if p(y) then multiset(xs)[y] else 0
    ensures forall y :: y in ys <==> y in xs && p(y)
  {
    if xs == [] then []
    else
      var init := xs[..|xs| - 1];
      var last := xs[|xs| - 1];
      assert xs == init + [last];
      if p(last) then Filter(init, p) + [last] else Filter(init, p)
  }

  /**
   * Collects `xs` into a hash map, the entry for `x` being `key(x)` to
   * `val(x)`: inserting in order, so a later element replaces an earlier
   * one with the same key.
   */
  function Collect<T(!new), K(!new), V>(xs: seq<T>, key: T -> K, val: T -> V): (m: map<K, V>)
    ensures forall k :: k in m <==> exists i :: 0 <= i < |xs| && key(xs[i]) == k
    ensures forall k :: k in m ==> exists i :: 0 <= i < |xs| && key(xs[i]) == k && m[k] == val(xs[i])
  {
    if xs == [] then map[]
    else
      var init := xs[..|xs| - 1];
      var m := Collect(init, key, val);
      assert forall i :: 0 <= i < |init| ==> xs[i] == init[i];
      m[key(xs[|xs| - 1]) := val(xs[|xs| - 1])]
  }

  /** Every element's key is in the collected map. */
  lemma CollectHasKey<T(!new), K(!new), V>(xs: seq<T>, key: T -> K, val: T -> V, x: T)
    requires x in xs
    ensures key(x) in Collect(xs, key, val)
  {
    var i :| 0 <= i < |xs| && xs[i] == x;
    assert key(xs[i]) == key(x);
  }

  /** For an element whose key no later element has, the collected map holds its value. */
  lemma {:induction false} CollectLastWins<T(!new), K(!new), V>(xs: seq<T>, key: T -> K, val: T -> V, i: nat)
    requires i < |xs| && LastWith(xs, key, i)
    ensures key(xs[i]) in Collect(xs, key, val) && Collect(xs, key, val)[key(xs[i])] == val(xs[i])
  {
    if i < |xs| - 1 {
      var init := xs[..|xs| - 1];
      assert LastWith(init, key, i);
      CollectLastWins(init, key, val, i);
    }
  }

  /** No element after index `i` has the key of `xs[i]`. */
  predicate LastWith<T, K(==)>(xs: seq<T>, key: T -> K, i: int)
    requires 0 <= i < |xs|
  {
    forall j :: i < j < |xs| ==> key(xs[j]) != key(xs[i])
  }
}
