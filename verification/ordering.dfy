/**
 * `ByDate` and `sort.Sort(sort.Reverse(ByDate(releases)))`: releases put in
 * place into non-increasing publication time. The library sort is not stable,
 * so what it promises is "sorted and a permutation"; an insertion sort built
 * from `Less` and `Swap` gives exactly that.
 */
module Ordering {
  import opened Github

  /** `ByDate.Less`: release i was published strictly before release j. */
  predicate Less(d: seq<Release>, i: int, j: int)
    requires 0 <= i < |d| && 0 <= j < |d|
  {
    d[i].release.publishedAt < d[j].release.publishedAt
  }

  /** `sort.Reverse(ByDate(d)).Less`: the arguments of `Less` swapped. */
  predicate ReverseLess(d: seq<Release>, i: int, j: int)
    requires 0 <= i < |d| && 0 <= j < |d|
  {
    Less(d, j, i)
  }

  /** Release i is not reverse-less than the one before it. */
  predicate InOrderAt(d: seq<Release>, i: int)
    requires 0 < i < |d|
  {
    !ReverseLess(d, i, i - 1)
  }

  /** `sort.IsSorted(sort.Reverse(ByDate(d)))`: every release is in order with the one before it. */
  predicate IsSorted(d: seq<Release>) {
    forall i :: 0 < i < |d| ==> InOrderAt(d, i)
  }

  /** Publication times never increase along `d`. */
  predicate NewestFirst(d: seq<Release>) {
    forall i, j :: 0 <= i < j < |d| ==> d[i].release.publishedAt >= d[j].release.publishedAt
  }

  /** Sorted by the reversed `ByDate` order means newest first, between any two positions. */
  lemma {:induction false} SortedIsNewestFirst(d: seq<Release>)
    requires IsSorted(d)
    ensures NewestFirst(d)
    decreases |d|
  {
    if |d| >= 2 {
      var init := d[..|d| - 1];
      assert forall i :: 0 <= i < |init| ==> init[i] == d[i];
      assert IsSorted(init) by {
        forall i | 0 < i < |init| ensures InOrderAt(init, i) {
          assert InOrderAt(d, i);
        }
      }
      SortedIsNewestFirst(init);
      var last := |d| - 1;
      forall i, j | 0 <= i < j < |d| ensures d[i].release.publishedAt >= d[j].release.publishedAt {
        if j < last {
          assert init[i] == d[i] && init[j] == d[j];
        } else if i < last - 1 {
          assert init[i].release.publishedAt >= init[last - 1].release.publishedAt;
          assert InOrderAt(d, last);
        } else {
          assert InOrderAt(d, last);
        }
      }
    }
  }

  /** `ByDate.Swap`: exchanges two releases and leaves the rest in place. */
  method Swap(a: array<Release>, i: int, j: int)
    requires 0 <= i < a.Length && 0 <= j < a.Length
    modifies a
    ensures a[i] == old(a[j]) && a[j] == old(a[i])
    ensures forall k :: 0 <= k < a.Length && k != i && k != j ==> a[k] == old(a[k])
    ensures multiset(a[..]) == old(multiset(a[..]))
  {
    a[i], a[j] := a[j], a[i];
  }

  /** `sort.Sort(sort.Reverse(ByDate(a)))`: the releases of `a`, rearranged newest first. */
  method Sort(a: array<Release>)
    modifies a
    ensures IsSorted(a[..])
    ensures multiset(a[..]) == old(multiset(a[..]))
  {
    var i := 0;
    while i < a.Length
      invariant 0 <= i <= a.Length
      invariant forall p, q :: 0 <= p < q < i ==> a[p].release.publishedAt >= a[q].release.publishedAt
      invariant multiset(a[..]) == old(multiset(a[..]))
    {
      var j := i;
      while j > 0 && ReverseLess(a[..], j, j - 1)
        invariant 0 <= j <= i
        invariant forall p, q :: 0 <= p < q <= i && p != j && q != j ==>
          a[p].release.publishedAt >= a[q].release.publishedAt
        invariant forall q :: j < q <= i ==> a[j].release.publishedAt > a[q].release.publishedAt
        invariant multiset(a[..]) == old(multiset(a[..]))
      {
        Swap(a, j - 1, j);
        j := j - 1;
      }
      i := i + 1;
    }
  }
}
