/** The state of a mounted volume, as the engine sees it through blocks, flags, records and
    index, and the invariant that links them. */
module State {
  import opened Bytes
  import opened Counting
  import opened Chains
  import opened Tree
  import Encoding
  import Layout

  datatype Volume = Volume(
    bs: nat, blocks: seq<Block>, used: seq<bool>, meta: table, index: map<bytes, nat>,
    enc: Encoding.table, next: nat)

  /** Payload bytes of a block. */
  function Payload(bs: nat): nat {
    if bs >= 128 then bs - 4 else 124
  }

  // ---- Sizes and field widths ----

  predicate TypedEntry(e: MetaEntry) {
    && e.valid < 256 && e.kind < 256 && e.parent < U32 && |e.name| <= NAME_MAX && 0 !in e.name
    && e.start < U32 && e.size < U64 && e.owner < U32 && e.permissions < U32
    && e.created < U64 && e.modified < U64 && |e.reserved| == 18
  }

  predicate TypedBlock(b: Block, bs: nat) {
    b.next < U32 && |b.payload| == Payload(bs)
  }

  ghost predicate Shape(v: Volume) {
    && 128 <= v.bs < U32
    && |v.used| == |v.blocks| < U32
    && (forall b | 0 <= b < |v.blocks| :: TypedBlock(v.blocks[b], v.bs))
    && 1 <= |v.meta| < U32
    && (forall i | 0 <= i < |v.meta| :: TypedEntry(v.meta[i]))
    && 0 < v.next < U64
  }

  // ---- Chains of entries ----

  /** The blocks of a live entry; a dead one has none. */
  function EntryChain(v: Volume, i: nat): seq<nat> {
    if Live(v.meta, i) then Chain(v.blocks, v.meta[i - 1].start) else []
  }

  /** The number of blocks that an entry of this kind and size has. */
  function Need(e: MetaEntry, bs: nat): nat {
    if e.kind == 1 then (if e.start == 0 then 0 else 1) else Layout.CeilDiv(e.size, Payload(bs))
  }

  predicate ChainOk(v: Volume, i: nat) {
    Live(v.meta, i) ==>
      && IsChain(v.blocks, v.meta[i - 1].start, EntryChain(v, i))
      && |EntryChain(v, i)| == Need(v.meta[i - 1], v.bs)
  }

  /** The chain of a live entry is complete: it stays in the volume and ends. */
  predicate ChainEnds(v: Volume, i: nat) {
    Live(v.meta, i) ==> IsChain(v.blocks, v.meta[i - 1].start, EntryChain(v, i))
  }

  predicate Owns(v: Volume, i: nat, b: nat) {
    b in EntryChain(v, i)
  }

  ghost predicate Owned(v: Volume, b: nat) {
    exists i :: Owns(v, i, b)
  }

  ghost predicate FlagOk(v: Volume, b: nat) {
    1 <= b <= |v.blocks| && b <= |v.used| ==> (v.used[b - 1] <==> Owned(v, b))
  }

  predicate OneOwner(v: Volume, i: nat, j: nat, b: nat) {
    Owns(v, i, b) && Owns(v, j, b) ==> i == j
  }

  predicate OwnedUsed(v: Volume, i: nat, b: nat) {
    Owns(v, i, b) && 1 <= b <= |v.used| ==> v.used[b - 1]
  }

  /** Chains are complete, no block is in two of them, and the blocks in chains are flagged. */
  ghost predicate LooseBlocks(v: Volume) {
    && (forall i :: ChainEnds(v, i))
    && (forall i, j, b :: OneOwner(v, i, j, b))
    && (forall i, b :: OwnedUsed(v, i, b))
  }

  /** Besides, chains have the right length, and no other block is flagged. */
  ghost predicate BlockInv(v: Volume) {
    LooseBlocks(v) && (forall i :: ChainOk(v, i)) && (forall b :: FlagOk(v, b))
  }

  lemma BlockInvOf(v: Volume)
    requires |v.used| <= |v.blocks|
    requires (forall i :: ChainOk(v, i)) && (forall i, j, b :: OneOwner(v, i, j, b)) && (forall b :: FlagOk(v, b))
    ensures BlockInv(v)
  {
    forall i ensures ChainEnds(v, i) {
      assert ChainOk(v, i);
    }
    forall i, b ensures OwnedUsed(v, i, b) {
      assert FlagOk(v, b);
    }
  }

  // ---- Child lists ----

  function Kids(v: Volume, d: nat): seq<nat> {
    ChainWords(v.blocks, EntryChain(v, d))
  }

  predicate IsKid(meta: table, c: nat, d: nat) {
    Live(meta, c) && Par(meta, c) == d
  }

  /** The child list of a directory has no duplicates and is exactly the live entries whose
      parent it is. */
  ghost predicate KidsOk(v: Volume, d: nat) {
    IsDir(v.meta, d) ==>
      Distinct(Kids(v, d)) && forall c :: c in Kids(v, d) <==> IsKid(v.meta, c, d)
  }

  ghost predicate ChildInv(v: Volume) {
    forall d :: KidsOk(v, d)
  }

  ghost predicate Inv(v: Volume) {
    Shape(v) && BlockInv(v) && TreeInv(v.meta) && ChildInv(v) && IndexInv(v.meta, v.index)
  }

  // ---- Contents ----

  function Take<T>(s: seq<T>, n: nat): (r: seq<T>) {
    if n <= |s| then s[..n] else s
  }

  /** All bytes of a file's blocks, decoded: the visible ones and the slack after them. */
  function Capacity(v: Volume, i: nat): bytes {
    Encoding.Decode(v.enc, Raw(v.blocks, EntryChain(v, i), Payload(v.bs)))
  }

  function SizeOf(v: Volume, i: nat): nat {
    if Live(v.meta, i) then v.meta[i - 1].size else 0
  }

  function Visible(v: Volume, i: nat): bytes {
    Take(Capacity(v, i), SizeOf(v, i))
  }

  datatype Node = Folder | File(capacity: bytes, size: nat)

  function NodeAt(v: Volume, i: nat): Node {
    if IsDir(v.meta, i) then Folder else File(Capacity(v, i), SizeOf(v, i))
  }

  /** What a user sees: paths, and a folder or a file behind each. */
  function Abs(v: Volume): map<bytes, Node> {
    map p | p in v.index :: NodeAt(v, v.index[p])
  }

  // ---- Framing ----

  /** Entry `i` is the same entry in `w`, with the same blocks. */
  predicate Untouched(v: Volume, w: Volume, i: nat) {
    && (Live(v.meta, i) <==> Live(w.meta, i))
    && (Live(v.meta, i) ==>
      && v.meta[i - 1].start == w.meta[i - 1].start
      && v.meta[i - 1].size == w.meta[i - 1].size
      && v.meta[i - 1].kind == w.meta[i - 1].kind
      && Agree(v.blocks, w.blocks, EntryChain(v, i)))
  }

  predicate SameDisk(v: Volume, w: Volume) {
    v.bs == w.bs && v.enc == w.enc && |v.blocks| == |w.blocks| && |v.used| == |w.used| && |v.meta| == |w.meta|
  }

  /** An untouched entry keeps its chain, its child list and its content. */
  lemma UntouchedKeeps(v: Volume, w: Volume, i: nat)
    requires ChainEnds(v, i) && SameDisk(v, w) && Untouched(v, w, i)
    ensures ChainEnds(w, i) && (ChainOk(v, i) ==> ChainOk(w, i)) && EntryChain(w, i) == EntryChain(v, i)
    ensures Kids(w, i) == Kids(v, i) && Capacity(w, i) == Capacity(v, i) && NodeAt(w, i) == NodeAt(v, i)
  {
    if Live(v.meta, i) {
      var c := EntryChain(v, i);
      ChainFrame(v.blocks, w.blocks, v.meta[i - 1].start, c);
      RawFrame(v.blocks, w.blocks, c, Payload(v.bs));
      GatherFrame(DirEntries, v.blocks, w.blocks, c, |c|);
    }
  }

  // ---- One entry gets another chain ----

  /** `w` differs from `v` in entry `e` only, whose chain becomes `c`, and in the flags of
      the blocks that `e` gains and loses. */
  ghost predicate Rechained(v: Volume, w: Volume, e: nat, c: seq<nat>) {
    && SameDisk(v, w)
    && (forall i | i != e :: Untouched(v, w, i))
    && (if Live(w.meta, e)
        then IsChain(w.blocks, w.meta[e - 1].start, c) && |c| == Need(w.meta[e - 1], w.bs)
        else c == [])
    && (forall k | 0 <= k < |c| :: Gains(v, e, c[k]))
    && (forall b | 1 <= b <= |v.blocks| :: FlagMoved(v, w, e, c, b))
  }

  predicate Gains(v: Volume, e: nat, b: nat) {
    1 <= b <= |v.blocks| && b <= |v.used| && (!v.used[b - 1] || Owns(v, e, b))
  }

  predicate FlagMoved(v: Volume, w: Volume, e: nat, c: seq<nat>, b: nat) {
    1 <= b <= |v.used| && b <= |w.used| &&
    w.used[b - 1] == (if b in c then true else if Owns(v, e, b) then false else v.used[b - 1])
  }

  lemma RechainedChains(v: Volume, w: Volume, e: nat, c: seq<nat>)
    requires BlockInv(v) && Rechained(v, w, e, c)
    ensures EntryChain(w, e) == c && ChainOk(w, e)
    ensures forall i | i != e :: ChainOk(w, i) && EntryChain(w, i) == EntryChain(v, i)
  {
    if Live(w.meta, e) {
      ChainUnique(w.blocks, w.meta[e - 1].start, c);
    }
    forall i | i != e ensures ChainOk(w, i) && EntryChain(w, i) == EntryChain(v, i) {
      assert ChainOk(v, i) && Untouched(v, w, i);
      UntouchedKeeps(v, w, i);
    }
  }

  lemma GainIsForeign(v: Volume, e: nat, i: nat, b: nat)
    requires LooseBlocks(v) && Gains(v, e, b) && i != e
    ensures !Owns(v, i, b)
  {
    assert OwnedUsed(v, i, b) && OneOwner(v, i, e, b);
  }

  /** The block invariant survives any such change. */
  lemma RechainKeeps(v: Volume, w: Volume, e: nat, c: seq<nat>)
    requires BlockInv(v) && Rechained(v, w, e, c) && |v.used| <= |v.blocks|
    ensures BlockInv(w) && EntryChain(w, e) == c
    ensures forall i | i != e :: EntryChain(w, i) == EntryChain(v, i)
  {
    RechainedChains(v, w, e, c);
    forall i, j, b ensures OneOwner(w, i, j, b) {
      RechainOneOwner(v, w, e, c, i, j, b);
    }
    forall b ensures FlagOk(w, b) {
      RechainFlag(v, w, e, c, b);
    }
    BlockInvOf(w);
  }

  lemma RechainOneOwner(v: Volume, w: Volume, e: nat, c: seq<nat>, i: nat, j: nat, b: nat)
    requires BlockInv(v) && Rechained(v, w, e, c)
    requires EntryChain(w, e) == c && forall i | i != e :: EntryChain(w, i) == EntryChain(v, i)
    ensures OneOwner(w, i, j, b)
  {
    if Owns(w, i, b) && Owns(w, j, b) {
      assert OneOwner(v, i, j, b);
      if b in c {
        var k :| 0 <= k < |c| && c[k] == b;
        assert Gains(v, e, c[k]);
        if i != e {
          GainIsForeign(v, e, i, b);
        }
        if j != e {
          GainIsForeign(v, e, j, b);
        }
      }
    }
  }

  lemma RechainFlag(v: Volume, w: Volume, e: nat, c: seq<nat>, b: nat)
    requires BlockInv(v) && Rechained(v, w, e, c)
    requires EntryChain(w, e) == c && forall i | i != e :: EntryChain(w, i) == EntryChain(v, i)
    ensures FlagOk(w, b)
  {
    if 1 <= b <= |w.blocks| && b <= |w.used| {
      assert FlagMoved(v, w, e, c, b) && FlagOk(v, b);
      if b in c {
        assert Owns(w, e, b);
      } else if Owns(v, e, b) {
        forall i ensures !Owns(w, i, b) {
          assert OneOwner(v, i, e, b);
        }
      } else if v.used[b - 1] {
        var i :| Owns(v, i, b);
        assert Owns(w, i, b);
      } else {
        forall i ensures !Owns(w, i, b) {
          assert !Owns(v, i, b);
        }
      }
    }
  }

  // ---- What the operations themselves rely on ----

  predicate IndexLive(v: Volume, p: bytes) {
    p in v.index ==> Live(v.meta, v.index[p])
  }

  /** A parent that is dead has no blocks. */
  predicate ParentEmpty(v: Volume, i: nat) {
    var p := Par(v.meta, i);
    Live(v.meta, i) && 1 <= p <= |v.meta| && !Live(v.meta, p) ==> v.meta[p - 1].start == 0
  }

  /** Much less than `Inv`: chains end and do not meet, and the index names live entries. Child
      lists, parents, sizes, paths and spare flags may be anything. */
  ghost predicate Usable(v: Volume) {
    Shape(v) && LooseBlocks(v) && (forall p :: IndexLive(v, p)) && (forall i :: ParentEmpty(v, i))
  }

  lemma InvIsUsable(v: Volume)
    requires Inv(v)
    ensures Usable(v)
  {
    forall p ensures IndexLive(v, p) {
      assert Points(v.meta, v.index, p);
    }
    forall i ensures ParentEmpty(v, i) {
      if Live(v.meta, i) {
        assert NodeOk(v.meta, i);
      }
    }
  }

  // ---- The index and the next number ----

  lemma BlocksOnly(v: Volume, w: Volume)
    requires w == v.(index := w.index, next := w.next)
    ensures forall i :: EntryChain(v, i) == EntryChain(w, i)
    ensures LooseBlocks(v) ==> LooseBlocks(w)
    ensures BlockInv(v) ==> BlockInv(w)
  {
    forall i ensures EntryChain(v, i) == EntryChain(w, i) {
    }
    if LooseBlocks(v) {
      forall i ensures ChainEnds(w, i) {
        assert ChainEnds(v, i);
      }
      forall i, j, b ensures OneOwner(w, i, j, b) {
        assert OneOwner(v, i, j, b);
      }
      forall i, b ensures OwnedUsed(w, i, b) {
        assert OwnedUsed(v, i, b);
      }
    }
    if BlockInv(v) {
      forall i ensures ChainOk(w, i) {
        assert ChainOk(v, i);
      }
      forall b ensures FlagOk(w, b) {
        assert FlagOk(v, b);
        assert forall i :: Owns(v, i, b) <==> Owns(w, i, b);
      }
    }
  }

  /** They have no part in the invariants of blocks and child lists. */
  lemma IndexOnly(v: Volume, w: Volume)
    requires w == v.(index := w.index, next := w.next)
    ensures Shape(v) && 0 < w.next < U64 ==> Shape(w)
    ensures LooseBlocks(v) ==> LooseBlocks(w)
    ensures BlockInv(v) ==> BlockInv(w)
    ensures ChildInv(v) <==> ChildInv(w)
    ensures forall i :: EntryChain(v, i) == EntryChain(w, i) && Kids(v, i) == Kids(w, i)
    ensures forall i :: NodeAt(v, i) == NodeAt(w, i) && Capacity(v, i) == Capacity(w, i)
  {
    BlocksOnly(v, w);
    forall i ensures Kids(v, i) == Kids(w, i) {
    }
    forall d ensures KidsOk(v, d) <==> KidsOk(w, d) {
    }
  }
}
