/** Conservation of blocks: what `get_stats` counts against what the entries hold. */
module Accounting {
  import opened Counting
  import opened Bitmap
  import opened Chains
  import opened Tree
  import opened State

  /** The set flags among the first `k`, as `get_stats` counts them. */
  function Count(used: seq<bool>, k: nat): (r: nat)
    requires k <= |used|
    ensures r <= k
  {
    if k == 0 then 0 else Count(used, k - 1) + (if used[k - 1] then 1 else 0)
  }

  /** Used plus free is everything. */
  lemma {:induction false} CountAndFree(used: seq<bool>, k: nat)
    requires k <= |used|
    ensures Count(used, k) + |FreeBelow(used, k)| == k
  {
    if k > 0 {
      CountAndFree(used, k - 1);
    }
  }

  lemma FreeIsRest(used: seq<bool>)
    ensures |used| - Count(used, |used|) == |Free(used)|
  {
    CountAndFree(used, |used|);
  }

  /** The blocks that the first `k` entries need, by their records. */
  function TotalNeed(v: Volume, k: nat): nat
    requires k <= |v.meta|
  {
    if k == 0 then 0 else TotalNeed(v, k - 1) + (if Live(v.meta, k) then Need(v.meta[k - 1], v.bs) else 0)
  }

  function ChainsOf(v: Volume): nat -> seq<nat> {
    (i: nat) => EntryChain(v, i)
  }

  lemma ChainsAreApart(v: Volume)
    requires BlockInv(v)
    ensures forall i | 1 <= i <= |v.meta| :: Distinct(ChainsOf(v)(i))
    ensures forall i, j, b :: Apart(ChainsOf(v), i, j, b)
  {
    forall i | 1 <= i <= |v.meta| ensures Distinct(ChainsOf(v)(i)) {
      assert ChainOk(v, i);
      if Live(v.meta, i) {
        ChainIsShort(v.blocks, EntryChain(v, i));
      }
    }
    forall i, j, b ensures Apart(ChainsOf(v), i, j, b) {
      assert OneOwner(v, i, j, b);
    }
  }

  lemma {:induction false} LengthsAreNeeds(v: Volume, k: nat)
    requires BlockInv(v) && k <= |v.meta|
    ensures TotalLength(ChainsOf(v), k) == TotalNeed(v, k)
  {
    if k > 0 {
      LengthsAreNeeds(v, k - 1);
      assert ChainOk(v, k);
    }
  }

  lemma HeldAreUsed(v: Volume, b: nat)
    requires Shape(v) && BlockInv(v)
    ensures b in Union(ChainsOf(v), |v.meta|) <==> 1 <= b <= |v.blocks| && v.used[b - 1]
  {
    assert FlagOk(v, b);
    if b in Union(ChainsOf(v), |v.meta|) {
      var i := UnionFrom(ChainsOf(v), |v.meta|, b);
      assert ChainOk(v, i) && Owns(v, i, b);
      var k :| 0 <= k < |EntryChain(v, i)| && EntryChain(v, i)[k] == b;
      assert Link(v.blocks, EntryChain(v, i), k);
    }
    if 1 <= b <= |v.blocks| && v.used[b - 1] {
      var i :| Owns(v, i, b);
      UnionHas(ChainsOf(v), |v.meta|, i, b);
    }
  }

  /** Blocks in use and free blocks make up the volume. */
  lemma CoverAll(used: seq<bool>, held: set<nat>)
    requires forall b :: b in held <==> 1 <= b <= |used| && used[b - 1]
    ensures held + Elements(Free(used)) == Range(1, |used| + 1) && held !! Elements(Free(used))
  {
    var free := Elements(Free(used));
    FreeContents(used);
    forall b: nat ensures b in free <==> 1 <= b <= |used| && !used[b - 1] {
      assert b in free <==> b in Free(used);
    }
    forall b: nat ensures b in held + free <==> b in Range(1, |used| + 1) {
    }
  }

  lemma FreeCard(used: seq<bool>)
    ensures |Elements(Free(used))| == |Free(used)|
  {
    FreeContents(used);
    assert Distinct(Free(used));
    ElementsCard(Free(used));
  }

  lemma PartsCard(a: set<nat>, b: set<nat>, n: nat)
    requires a !! b && a + b == Range(1, n + 1)
    ensures |a| + |b| == n
  {
    RangeCard(1, n + 1);
    DisjointCard(a, b);
  }

  lemma UsedAndFreeCover(used: seq<bool>, held: set<nat>)
    requires forall b :: b in held <==> 1 <= b <= |used| && used[b - 1]
    ensures |held| + |Free(used)| == |used|
  {
    CoverAll(used, held);
    FreeCard(used);
    PartsCard(held, Elements(Free(used)), |used|);
  }

  /** The set flags are as many as the blocks that the records account for: per live file what
      its size needs, per directory one if it has a block. Used plus free is the volume. */
  lemma Conservation(v: Volume)
    requires Inv(v)
    ensures Count(v.used, |v.used|) == TotalNeed(v, |v.meta|)
    ensures Count(v.used, |v.used|) + |Free(v.used)| == |v.blocks|
  {
    var held := Union(ChainsOf(v), |v.meta|);
    CountAndFree(v.used, |v.used|);
    forall b: nat ensures b in held <==> 1 <= b <= |v.blocks| && v.used[b - 1] {
      HeldAreUsed(v, b);
    }
    UsedAndFreeCover(v.used, held);
    ChainsAreApart(v);
    UnionCard(ChainsOf(v), |v.meta|);
    LengthsAreNeeds(v, |v.meta|);
  }

  /** The cut-off in `get_block_chain` never fires, and every walk along a chain ends: a chain
      has no more blocks than the volume. */
  lemma GuardNeverFires(v: Volume, i: nat)
    requires Inv(v) && Live(v.meta, i)
    ensures |EntryChain(v, i)| <= |v.blocks|
    ensures Walk(v.blocks, v.meta[i - 1].start, |v.blocks| + 2) == EntryChain(v, i)
  {
    assert ChainOk(v, i);
    ChainIsShort(v.blocks, EntryChain(v, i));
    WalkOfChain(v.blocks, v.meta[i - 1].start, EntryChain(v, i), |v.blocks| + 2);
  }

  /** The guard of the path walk cuts no path short: it could be any number from the depth up. */
  lemma PathGuardNeverFires(v: Volume, i: nat, guard: nat)
    requires Inv(v) && Live(v.meta, i) && |v.meta| <= guard
    ensures Parts(v.meta, i, guard) == Toks(v.meta, i) && |Toks(v.meta, i)| < |v.meta|
  {
    assert NodeOk(v.meta, i);
    var k: nat :| Climb(v.meta, i, k);
    ClimbIsShort(v.meta, i, k);
    PartsSettle(v.meta, i, k, guard);
    PartsSettle(v.meta, i, k, |v.meta|);
  }
}
