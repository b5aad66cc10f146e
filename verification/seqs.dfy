/** Mapping a function over a sequence, and why that respects permutations. */
module Seqs {

  /** `f` applied to every element of `s`, in order. */
  function MapSeq<A, B>(f: A --> B, s: seq<A>): (r: seq<B>)
    requires forall i :: 0 <= i < |s| ==> f.requires(s[i])
    ensures |r| == |s|
    decreases |s|
  {
    if s == [] then [] else [f(s[0])] + MapSeq(f, s[1..])
  }

  lemma {:induction false} MapSeqAt<A, B>(f: A --> B, s: seq<A>, i: nat)
    requires forall j :: 0 <= j < |s| ==> f.requires(s[j])
    requires i < |s|
    ensures MapSeq(f, s)[i] == f(s[i])
    decreases |s|
  {
    if i > 0 {
      MapSeqAt(f, s[1..], i - 1);
    }
  }

  /** A sequence that has `f` of the matching element of `s` at every position is `MapSeq(f, s)`. */
  lemma MapSeqPointwise<A, B>(f: A --> B, s: seq<A>, r: seq<B>)
    requires forall i :: 0 <= i < |s| ==> f.requires(s[i])
    requires |r| == |s| && forall i :: 0 <= i < |s| ==> r[i] == f(s[i])
    ensures r == MapSeq(f, s)
  {
    forall i | 0 <= i < |s| ensures MapSeq(f, s)[i] == r[i] {
      MapSeqAt(f, s, i);
    }
  }

  lemma {:induction false} MapSeqConcat<A, B>(f: A --> B, s: seq<A>, t: seq<A>)
    requires forall i :: 0 <= i < |s| ==> f.requires(s[i])
    requires forall i :: 0 <= i < |t| ==> f.requires(t[i])
    ensures MapSeq(f, s + t) == MapSeq(f, s) + MapSeq(f, t)
    decreases |s|
  {
    if s == [] {
      assert s + t == t;
    } else {
      assert (s + t)[1..] == s[1..] + t;
      MapSeqConcat(f, s[1..], t);
    }
  }

  /** Taking the element at `k` out of `t` takes its image out of the mapped sequence. */
  lemma MapSeqRemove<A, B>(f: A --> B, t: seq<A>, k: nat) returns (rest: seq<A>)
    requires forall i :: 0 <= i < |t| ==> f.requires(t[i])
    requires k < |t|
    ensures rest == t[..k] + t[k + 1..]
    ensures forall i :: 0 <= i < |rest| ==> f.requires(rest[i])
    ensures multiset(MapSeq(f, t)) == multiset(MapSeq(f, rest)) + multiset{f(t[k])}
  {
    var before, x, after := t[..k], t[k], t[k + 1..];
    rest := before + after;
    assert t == before + [x] + after;
    forall i | 0 <= i < |rest| ensures f.requires(rest[i]) {
      if i < k {
        assert rest[i] == t[i];
      } else {
        assert rest[i] == t[i + 1];
      }
    }
    assert forall i :: 0 <= i < |before| ==> before[i] == t[i];
    assert forall i :: 0 <= i < |before + [x]| ==> (before + [x])[i] == t[i];
    assert forall i :: 0 <= i < |after| ==> after[i] == t[k + 1 + i];
    MapSeqConcat(f, before, [x]);
    MapSeqConcat(f, before + [x], after);
    MapSeqConcat(f, before, after);
  }

  /** Rearranging the inputs rearranges the outputs the same way. */
  lemma {:induction false} MapSeqPermutation<A, B>(f: A --> B, s: seq<A>, t: seq<A>)
    requires forall i :: 0 <= i < |s| ==> f.requires(s[i])
    requires forall i :: 0 <= i < |t| ==> f.requires(t[i])
    requires multiset(s) == multiset(t)
    ensures multiset(MapSeq(f, s)) == multiset(MapSeq(f, t))
    decreases |s|
  {
    if s == [] {
      assert |t| == |multiset(t)| == 0;
    } else {
      assert s[0] in multiset(t);
      var k :| 0 <= k < |t| && t[k] == s[0];
      var rest := MapSeqRemove(f, t, k);
      TailPermutation(s, t, k);
      MapSeqPermutation(f, s[1..], rest);
    }
  }

  /** Removing equal elements from two permutations of each other leaves permutations. */
  lemma TailPermutation<A>(s: seq<A>, t: seq<A>, k: nat)
    requires multiset(s) == multiset(t) && |s| > 0 && k < |t| && t[k] == s[0]
    ensures multiset(s[1..]) == multiset(t[..k] + t[k + 1..])
  {
    var x := s[0];
    assert t == t[..k] + [x] + t[k + 1..];
    assert s == [x] + s[1..];
    assert multiset(s[1..]) == multiset(s) - multiset{x};
  }
}
