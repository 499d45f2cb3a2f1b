/** The shuffle at the start of `HousingData.init`: a set of row indices is
    filled from `Int.random(in: 0..<numRecords)` until it holds `numRecords`
    of them, and `index.map{ dataRecords[$0] }` then visits that set in
    Swift's unspecified hash order. The generator becomes an input sequence of
    draws; the hash order becomes an arbitrary choice. */
module Shuffle {
  import opened Results
  import opened Collections

  /** The indices `0 ..< n`. */
  function Range(n: nat): (r: set<int>)
    ensures forall k :: k in r <==> 0 <= k < n
  {
    if n == 0 then {} else Range(n - 1) + {n - 1}
  }

  /** No value occurs twice. */
  predicate Distinct(xs: seq<int>)
  {
    forall i, j :: 0 <= i < j < |xs| ==> xs[i] != xs[j]
  }

  /** `p` lists each of the indices `0 ..< n` exactly once. */
  predicate IsPermutation(p: seq<int>, n: nat)
  {
    && |p| == n
    && (forall k :: 0 <= k < |p| ==> 0 <= p[k] < n)
    && Distinct(p)
    && (forall v :: 0 <= v < n ==> v in p)
  }

  lemma {:induction false} RangeSize(n: nat)
    ensures |Range(n)| == n
  {
    if n > 0 {
      var front := Range(n - 1);
      RangeSize(n - 1);
      assert n - 1 !in front;
      assert |Range(n)| == |front + {n - 1}| == |front| + 1;
    }
  }

  /** A subset of `0 ..< n` has at most `n` elements, and exactly `n` only
      when it is all of `0 ..< n`. */
  lemma SubsetOfRange(s: set<int>, n: nat)
    requires s <= Range(n)
    ensures |s| <= n
    ensures |s| == n ==> s == Range(n)
  {
    RangeSize(n);
    var rest := Range(n) - s;
    assert Range(n) == s + rest;
    assert |Range(n)| == |s| + |rest|;
    if |s| == n {
      assert |rest| == 0;
    }
  }

  /** The `while index.count < numRecords` loop. The `k`-th call to the
      generator returns `draws[k]`; `used` counts the calls made. The loop
      stops as soon as the set is full; only when the draws run out can it
      stop with a set that is not full. */
  method CollectIndices(n: nat, draws: seq<int>) returns (index: set<int>, used: nat)
    requires forall k :: 0 <= k < |draws| ==> 0 <= draws[k] < n
    ensures used <= |draws|
    ensures index == Elements(draws[..used])
    ensures forall u :: 0 <= u < used ==> |Elements(draws[..u])| < n
    ensures |index| < n ==> used == |draws|
    ensures |index| == n <==> index == Range(n)
    ensures index <= Range(n)
  {
    index := {};
    used := 0;
    while |index| < n && used < |draws|
      invariant used <= |draws|
      invariant index == Elements(draws[..used])
      invariant index <= Range(n)
      invariant forall u :: 0 <= u < used ==> |Elements(draws[..u])| < n
      decreases |draws| - used
    {
      assert draws[..used + 1] == draws[..used] + [draws[used]];
      index := index + {draws[used]};
      used := used + 1;
    }
    SubsetOfRange(index, n);
    RangeSize(n);
  }

  /** `index.map{ … }` over a Swift `Set`: each element is visited once, in
      an order the model leaves open. */
  method EnumerateSet(s: set<int>) returns (order: seq<int>)
    ensures |order| == |s|
    ensures Distinct(order)
    ensures Elements(order) == s
  {
    order := [];
    var rest := s;
    while rest != {}
      invariant rest <= s
      invariant Distinct(order)
      invariant forall k :: 0 <= k < |order| ==> order[k] in s && order[k] !in rest
      invariant forall x :: x in s ==> x in rest || x in order
      invariant |order| + |rest| == |s|
      decreases |rest|
    {
      NonEmptyHasMember(rest);
      var x :| x in rest;
      order := order + [x];
      rest := rest - {x};
    }
    forall x | x in s
      ensures x in Elements(order)
    {
      assert x in order;
    }
  }

  /** The rows of `s` in the order `p` lists their indices. */
  function Permute<T>(s: seq<T>, p: seq<int>): (r: seq<T>)
    requires forall k :: 0 <= k < |p| ==> 0 <= p[k] < |s|
    ensures |r| == |p|
    ensures forall k :: 0 <= k < |p| ==> r[k] == s[p[k]]
  {
    seq(|p|, k requires 0 <= k < |p| => s[p[k]])
  }

  /** The position at which `v` occurs in `xs`. */
  lemma PositionOf(xs: seq<int>, v: int) returns (j: nat)
    requires v in xs
    ensures j < |xs| && xs[j] == v
  {
    j :| 0 <= j < |xs| && xs[j] == v;
  }

  /** Dropping the position that holds the largest index `n - 1` leaves a
      permutation of `0 ..< n - 1`. */
  lemma RemoveLargest(p: seq<int>, n: nat, j: nat)
    requires n > 0 && IsPermutation(p, n)
    requires j < |p| && p[j] == n - 1
    ensures IsPermutation(p[..j] + p[j + 1..], n - 1)
  {
    var p' := p[..j] + p[j + 1..];
    assert forall k :: 0 <= k < |p'| ==> p'[k] == (if k < j then p[k] else p[k + 1]);
    forall k | 0 <= k < |p'|
      ensures 0 <= p'[k] < n - 1
    {
      if k < j { assert p[k] != p[j]; } else { assert p[k + 1] != p[j]; }
    }
    forall v | 0 <= v < n - 1
      ensures v in p'
    {
      assert v in p;
      var i :| 0 <= i < |p| && p[i] == v;
      if i < j { assert p'[i] == v; } else { assert i != j; assert p'[i - 1] == v; }
    }
  }

  /** Reordering the rows without the last one by the shortened permutation
      gives the reordered rows without the position of the last row. */
  lemma PermuteWithoutLargest<T>(s: seq<T>, p: seq<int>, j: nat)
    requires |s| > 0 && IsPermutation(p, |s|)
    requires j < |p| && p[j] == |s| - 1
    ensures IsPermutation(p[..j] + p[j + 1..], |s| - 1)
    ensures Permute(s[..|s| - 1], p[..j] + p[j + 1..]) == Permute(s, p)[..j] + Permute(s, p)[j + 1..]
  {
    RemoveLargest(p, |s|, j);
    var p' := p[..j] + p[j + 1..];
    var a := Permute(s, p);
    var b := Permute(s[..|s| - 1], p');
    var c := a[..j] + a[j + 1..];
    assert |b| == |c|;
    forall k | 0 <= k < |b|
      ensures b[k] == c[k]
    {
      if k < j {
        assert p'[k] == p[k];
      } else {
        assert p'[k] == p[k + 1];
      }
    }
  }

  /** Reordering by a permutation keeps every row and its multiplicity. */
  lemma {:induction false} PermutePreservesMultiset<T>(s: seq<T>, p: seq<int>)
    requires IsPermutation(p, |s|)
    ensures multiset(Permute(s, p)) == multiset(s)
    decreases |s|
  {
    if |s| > 0 {
      var n := |s|;
      var j := PositionOf(p, n - 1);
      PermuteWithoutLargest(s, p, j);
      var a := Permute(s, p);
      var front, back := a[..j], a[j + 1..];
      PermutePreservesMultiset(s[..n - 1], p[..j] + p[j + 1..]);
      assert multiset(front + back) == multiset(s[..n - 1]);
      assert a == front + [s[n - 1]] + back;
      assert multiset(a) == multiset(front) + multiset{s[n - 1]} + multiset(back);
      assert s == s[..n - 1] + [s[n - 1]];
      assert multiset(s) == multiset(s[..n - 1]) + multiset{s[n - 1]};
    }
  }

  /** The whole shuffle: when the draws cover every index the result is the
      order in which the rows are visited, a permutation of `0 ..< n`; the
      shuffle completes exactly when they do. */
  method ShuffleOrder(n: nat, draws: seq<int>) returns (r: Option<seq<int>>)
    requires forall k :: 0 <= k < |draws| ==> 0 <= draws[k] < n
    ensures r.Some? <==> Elements(draws) == Range(n)
    ensures r.Some? ==> IsPermutation(r.value, n)
  {
    var index, used := CollectIndices(n, draws);
    assert Elements(draws) <= Range(n);
    if |index| < n {
      assert draws[..used] == draws;
      return None;
    }
    assert index <= Elements(draws);
    SubsetOfRange(index, n);
    var order := EnumerateSet(index);
    RangeSize(n);
    forall k | 0 <= k < |order|
      ensures 0 <= order[k] < n
    {
      assert order[k] in Elements(order);
    }
    forall v | 0 <= v < n
      ensures v in order
    {
      assert v in index;
      assert v in Elements(order);
    }
    return Some(order);
  }

}
