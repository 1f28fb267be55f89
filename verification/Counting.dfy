/** Pigeonhole facts about sequences of distinct numbers. */
module Counting {
  predicate Distinct(s: seq<nat>) {
    forall i, j | 0 <= i < j < |s| :: s[i] != s[j]
  }

  predicate Between(s: seq<nat>, lo: nat, hi: nat) {
    forall k | 0 <= k < |s| :: lo <= s[k] < hi
  }

  function Elements(s: seq<nat>): set<nat> {
    set x | x in s
  }

  lemma {:induction false} ElementsCard(s: seq<nat>)
    requires Distinct(s)
    ensures |Elements(s)| == |s|
  {
    if s == [] {
      assert Elements(s) == {};
    } else {
      var k := |s| - 1;
      ElementsCard(s[..k]);
      assert s == s[..k] + [s[k]];
      assert Elements(s) == Elements(s[..k]) + {s[k]};
    }
  }

  function Range(lo: nat, hi: nat): (r: set<nat>)
    ensures forall x: nat :: x in r <==> lo <= x < hi
  {
    if lo >= hi then {} else Range(lo, hi - 1) + {hi - 1}
  }

  lemma {:induction false} RangeCard(lo: nat, hi: nat)
    requires lo <= hi
    ensures |Range(lo, hi)| == hi - lo
    decreases hi
  {
    if lo < hi {
      RangeCard(lo, hi - 1);
    }
  }

  lemma {:induction false} SubsetCard(a: set<nat>, b: set<nat>)
    requires a <= b
    ensures |a| <= |b|
    ensures |a| == |b| ==> a == b
  {
    if a != {} {
      var x :| x in a;
      SubsetCard(a - {x}, b - {x});
    }
  }

  /** Distinct numbers in lo..hi are at most hi - lo, and if they are that many they are all of them. */
  lemma Pigeonhole(s: seq<nat>, lo: nat, hi: nat)
    requires lo <= hi && Distinct(s) && Between(s, lo, hi)
    ensures |s| <= hi - lo
    ensures |s| == hi - lo ==> forall x | lo <= x < hi :: x in s
  {
    ElementsCard(s);
    RangeCard(lo, hi);
    SubsetCard(Elements(s), Range(lo, hi));
    if |s| == hi - lo {
      forall x | lo <= x < hi ensures x in s {
        assert x in Range(lo, hi);
      }
    }
  }

  // ---- Unions of lists ----

  function Union(f: nat -> seq<nat>, k: nat): set<nat> {
    if k == 0 then {} else Union(f, k - 1) + Elements(f(k))
  }

  function TotalLength(f: nat -> seq<nat>, k: nat): nat {
    if k == 0 then 0 else TotalLength(f, k - 1) + |f(k)|
  }

  predicate InList(f: nat -> seq<nat>, i: nat, b: nat) {
    b in f(i)
  }

  lemma {:induction false} UnionHas(f: nat -> seq<nat>, k: nat, i: nat, b: nat)
    requires 1 <= i <= k && InList(f, i, b)
    ensures b in Union(f, k)
    decreases k
  {
    if i < k {
      UnionHas(f, k - 1, i, b);
    }
  }

  lemma {:induction false} UnionFrom(f: nat -> seq<nat>, k: nat, b: nat) returns (i: nat)
    requires b in Union(f, k)
    ensures 1 <= i <= k && InList(f, i, b)
  {
    if b in f(k) {
      i := k;
    } else {
      i := UnionFrom(f, k - 1, b);
    }
  }

  predicate Apart(f: nat -> seq<nat>, i: nat, j: nat, b: nat) {
    InList(f, i, b) && InList(f, j, b) ==> i == j
  }

  lemma DisjointCard(a: set<nat>, b: set<nat>)
    requires a !! b
    ensures |a + b| == |a| + |b|
  {
  }

  lemma NotInNext(f: nat -> seq<nat>, k: nat, b: nat)
    requires k > 0 && (forall i, j, x :: Apart(f, i, j, x)) && b in Union(f, k - 1)
    ensures !InList(f, k, b)
  {
    var i := UnionFrom(f, k - 1, b);
    assert Apart(f, i, k, b);
  }

  lemma UnionApart(f: nat -> seq<nat>, k: nat)
    requires k > 0 && forall i, j, b :: Apart(f, i, j, b)
    ensures Union(f, k - 1) !! Elements(f(k))
  {
    forall b | b in Union(f, k - 1) ensures b !in Elements(f(k)) {
      NotInNext(f, k, b);
    }
  }

  /** Lists without repetition or overlap have as many elements as their lengths add up to. */
  lemma {:induction false} UnionCard(f: nat -> seq<nat>, k: nat)
    requires forall i | 1 <= i <= k :: Distinct(f(i))
    requires forall i, j, b :: Apart(f, i, j, b)
    ensures |Union(f, k)| == TotalLength(f, k)
  {
    if k > 0 {
      UnionCard(f, k - 1);
      ElementsCard(f(k));
      UnionApart(f, k);
      DisjointCard(Union(f, k - 1), Elements(f(k)));
    }
  }
}
