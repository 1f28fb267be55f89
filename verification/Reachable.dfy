/** Every state that the engine can reach, by sound operations or not: what cannot go wrong
    whatever the arguments are. */
module Reachable {
  import opened Bytes
  import opened Counting
  import opened Bitmap
  import opened Chains
  import opened Paths
  import opened Tree
  import opened State
  import opened Ops
  import opened Directories
  import opened Creating
  import opened CreateTheorems
  import opened Deleting
  import opened Editing
  import opened Truncating
  import opened Renaming
  import opened Runs

  /** A dead entry has no blocks. */
  predicate DeadEmpty(v: Volume, i: nat) {
    1 <= i <= |v.meta| && !Live(v.meta, i) ==> v.meta[i - 1].start == 0
  }

  /** No path but "/" leads to the root. */
  predicate RootKeyed(v: Volume, p: bytes) {
    p in v.index && v.index[p] == 1 ==> p == ROOT
  }

  ghost predicate Core(v: Volume) {
    Shape(v) && LooseBlocks(v) && IsDir(v.meta, 1) && forall i :: DeadEmpty(v, i)
  }

  ghost predicate Keyed(v: Volume) {
    (forall p :: IndexLive(v, p)) && (forall p :: RootKeyed(v, p))
  }

  /** Kept by every operation, sound or not: chains end and do not meet, their blocks are
      flagged, dead entries own nothing, the index names live entries, and entry 1 is a live
      directory that no other path names. */
  ghost predicate Loose(v: Volume) {
    Core(v) && Keyed(v)
  }

  lemma LooseIsUsable(v: Volume)
    requires Loose(v)
    ensures Usable(v)
  {
    forall i ensures ParentEmpty(v, i) {
      assert DeadEmpty(v, Par(v.meta, i));
    }
  }

  // ---- One entry gets another chain ----

  /** A flag that is clear afterwards was clear, or belonged to `e`, and is not in its new chain. */
  predicate FlagAllowed(v: Volume, w: Volume, e: nat, c: seq<nat>, b: nat) {
    1 <= b <= |v.used| && b <= |w.used| && (w.used[b - 1] || (b !in c && (!v.used[b - 1] || Owns(v, e, b))))
  }

  /** `w` differs from `v` in entry `e` only, whose chain becomes `c`. Unlike after `Rechained`,
      blocks may stay flagged without being in a chain, and the length may be anything. */
  ghost predicate Moved(v: Volume, w: Volume, e: nat, c: seq<nat>) {
    && SameDisk(v, w)
    && (forall i | i != e :: Untouched(v, w, i))
    && (if Live(w.meta, e) then IsChain(w.blocks, w.meta[e - 1].start, c) else c == [])
    && (forall k | 0 <= k < |c| :: Gains(v, e, c[k]))
    && (forall b | 1 <= b <= |v.used| :: FlagAllowed(v, w, e, c, b))
  }

  lemma MovedChains(v: Volume, w: Volume, e: nat, c: seq<nat>)
    requires LooseBlocks(v) && Moved(v, w, e, c)
    ensures EntryChain(w, e) == c && ChainEnds(w, e)
    ensures forall i | i != e :: ChainEnds(w, i) && EntryChain(w, i) == EntryChain(v, i)
  {
    if Live(w.meta, e) {
      ChainUnique(w.blocks, w.meta[e - 1].start, c);
    }
    forall i | i != e ensures ChainEnds(w, i) && EntryChain(w, i) == EntryChain(v, i) {
      assert ChainEnds(v, i) && Untouched(v, w, i);
      UntouchedKeeps(v, w, i);
    }
  }

  lemma MovedOneOwner(v: Volume, w: Volume, e: nat, c: seq<nat>, i: nat, j: nat, b: nat)
    requires LooseBlocks(v) && Moved(v, w, e, c)
    requires EntryChain(w, e) == c && forall i | i != e :: EntryChain(w, i) == EntryChain(v, i)
    ensures OneOwner(w, i, j, b)
  {
    if Owns(w, i, b) && Owns(w, j, b) {
      assert OneOwner(v, i, j, b);
      if b in c {
        var k :| 0 <= k < |c| && c[k] == b;
        assert Gains(v, e, c[k]);
        if i != e {
          GainIsForeign(v, e, i, b);
        }
        if j != e {
          GainIsForeign(v, e, j, b);
        }
      }
    }
  }

  lemma MovedFlag(v: Volume, w: Volume, e: nat, c: seq<nat>, i: nat, b: nat)
    requires LooseBlocks(v) && Moved(v, w, e, c)
    requires EntryChain(w, e) == c && forall i | i != e :: EntryChain(w, i) == EntryChain(v, i)
    ensures OwnedUsed(w, i, b)
  {
    if Owns(w, i, b) && 1 <= b <= |w.used| {
      assert FlagAllowed(v, w, e, c, b);
      if i != e {
        assert OwnedUsed(v, i, b) && OneOwner(v, i, e, b);
      }
    }
  }

  lemma MovedKeeps(v: Volume, w: Volume, e: nat, c: seq<nat>)
    requires LooseBlocks(v) && Moved(v, w, e, c)
    ensures LooseBlocks(w) && EntryChain(w, e) == c
  {
    MovedChains(v, w, e, c);
    forall i, j, b ensures OneOwner(w, i, j, b) {
      MovedOneOwner(v, w, e, c, i, j, b);
    }
    forall i, b ensures OwnedUsed(w, i, b) {
      MovedFlag(v, w, e, c, i, b);
    }
  }

  // ---- Records ----

  lemma TypedAfter(v: Volume, w: Volume, i: nat, e: MetaEntry)
    requires Shape(v) && 1 <= i <= |v.meta| && TypedEntry(e) && w.meta == v.meta[i - 1 := e]
    ensures forall j | 0 <= j < |w.meta| :: TypedEntry(w.meta[j])
  {
    forall j | 0 <= j < |w.meta| ensures TypedEntry(w.meta[j]) {
      assert TypedEntry(v.meta[j]);
    }
  }

  lemma DeadAfter(v: Volume, w: Volume, i: nat, e: MetaEntry)
    requires (forall j :: DeadEmpty(v, j)) && 1 <= i <= |v.meta| && w.meta == v.meta[i - 1 := e]
    requires e.valid == 0 || e.start == 0
    ensures forall j :: DeadEmpty(w, j)
  {
    forall j ensures DeadEmpty(w, j) {
      assert DeadEmpty(v, j);
    }
  }

  lemma OwnFlagsAllowed(v: Volume, w: Volume, i: nat)
    requires LooseBlocks(v) && w.used == v.used
    ensures forall b | 1 <= b <= |v.used| :: FlagAllowed(v, w, i, EntryChain(v, i), b)
  {
    forall b | 1 <= b <= |v.used| ensures FlagAllowed(v, w, i, EntryChain(v, i), b) {
      assert OwnedUsed(v, i, b);
      assert b in EntryChain(v, i) ==> Owns(v, i, b);
    }
  }

  /** A record changes, but not in what concerns blocks. */
  lemma RecordBlocks(v: Volume, i: nat, e: MetaEntry)
    requires LooseBlocks(v) && |v.used| == |v.blocks| && 1 <= i <= |v.meta|
    requires e.start == v.meta[i - 1].start && (Live(v.meta, i) ==> e.valid == 0)
    requires !Live(v.meta, i) && e.valid == 0 ==> e.start == 0
    ensures LooseBlocks(SetEntry(v, i, e)) && EntryChain(SetEntry(v, i, e), i) == EntryChain(v, i)
  {
    var w, c := SetEntry(v, i, e), EntryChain(v, i);
    assert ChainEnds(v, i);
    OwnGains(v, i);
    forall j | j != i ensures SameRecord(v, w, j) {
    }
    forall b ensures WriteOk(v, w, i, b) {
    }
    OthersUntouched(v, w, i);
    OwnFlagsAllowed(v, w, i);
    MovedKeeps(v, w, i, c);
  }

  lemma RecordMoves(v: Volume, i: nat, e: MetaEntry)
    requires Core(v) && 1 <= i <= |v.meta| && TypedEntry(e)
    requires Live(v.meta, i) ==> e.valid == 0
    requires e.start == v.meta[i - 1].start && (i == 1 ==> e.kind == 1)
    ensures Core(SetEntry(v, i, e)) && EntryChain(SetEntry(v, i, e), i) == EntryChain(v, i)
  {
    var w := SetEntry(v, i, e);
    assert DeadEmpty(v, i);
    RecordBlocks(v, i, e);
    TypedAfter(v, w, i, e);
    DeadAfter(v, w, i, e);
  }

  // ---- Child lists ----

  /** Entry `p` has the single block `b`, which holds a list; what else it had stays flagged. */
  lemma ListBlocks(v: Volume, w: Volume, p: nat, b: nat, x: Block)
    requires LooseBlocks(v) && Live(v.meta, p) && Gains(v, p, b) && SameDisk(v, w)
    requires w.meta == v.meta[p - 1 := v.meta[p - 1].(start := b)]
    requires x.next == 0 && w.blocks == v.blocks[b - 1 := x]
    requires forall y | 1 <= y <= |v.used| :: FlagAllowed(v, w, p, [b], y)
    ensures LooseBlocks(w) && forall j | j != p :: EntryChain(w, j) == EntryChain(v, j)
  {
    forall j | j != p ensures SameRecord(v, w, j) {
    }
    forall y ensures WriteOk(v, w, p, y) {
    }
    OthersUntouched(v, w, p);
    assert Link(w.blocks, [b], 0);
    MovedKeeps(v, w, p, [b]);
    MovedChains(v, w, p, [b]);
  }

  lemma ListCore(v: Volume, w: Volume, p: nat, b: nat, children: seq<nat>)
    requires Core(v) && LooseBlocks(w) && Live(v.meta, p) && 1 <= b <= |v.blocks| && SameDisk(v, w) && 0 < w.next < U64
    requires w.meta == v.meta[p - 1 := v.meta[p - 1].(start := b)]
    requires w.blocks == v.blocks[b - 1 := Block(0, DirPayload(v.blocks[b - 1].payload, children))]
    ensures Core(w)
  {
    forall x | 0 <= x < |w.blocks| ensures TypedBlock(w.blocks[x], w.bs) {
      assert TypedBlock(v.blocks[x], v.bs);
    }
    assert TypedEntry(v.meta[p - 1]);
    TypedAfter(v, w, p, v.meta[p - 1].(start := b));
    DeadAfter(v, w, p, v.meta[p - 1].(start := b));
  }

  /** The list is rewritten in the first block of a chain. */
  lemma RelistBlocks(v: Volume, p: nat, children: seq<nat>)
    requires LooseBlocks(v) && |v.used| == |v.blocks| && Live(v.meta, p) && StartOf(v, p) != 0
    ensures var b := StartOf(v, p);
            var w := SetBlock(v, b, DirBlock(v, b, children));
            && LooseBlocks(w) && SameDisk(v, w) && Owns(v, p, b) && Gains(v, p, b)
            && w.blocks == v.blocks[b - 1 := Block(0, DirPayload(v.blocks[b - 1].payload, children))]
            && (forall j | j != p :: EntryChain(w, j) == EntryChain(v, j))
  {
    var b := StartOf(v, p);
    var w := SetBlock(v, b, DirBlock(v, b, children));
    assert ChainEnds(v, p);
    assert Link(v.blocks, EntryChain(v, p), 0) && EntryChain(v, p)[0] == b;
    assert Owns(v, p, b) && OwnedUsed(v, p, b);
    forall x | 1 <= x <= |v.used| ensures FlagAllowed(v, w, p, [b], x) {
    }
    SameStart(v.meta[p - 1]);
    ListBlocks(v, w, p, b, DirBlock(v, b, children));
  }

  lemma RelistCore(v: Volume, p: nat, children: seq<nat>)
    requires Core(v) && Live(v.meta, p) && StartOf(v, p) != 0
    ensures Core(SetBlock(v, StartOf(v, p), DirBlock(v, StartOf(v, p), children)))
  {
    var b := StartOf(v, p);
    RelistBlocks(v, p, children);
    SameStart(v.meta[p - 1]);
    ListCore(v, SetBlock(v, b, DirBlock(v, b, children)), p, b, children);
  }

  lemma FirstListCore(v: Volume, p: nat, c: nat)
    requires Core(v) && Live(v.meta, p) && StartOf(v, p) == 0 && Free(v.used) != []
    ensures Core(AddChild(v, p, c).0)
  {
    var b := Free(v.used)[0];
    FreeContents(v.used);
    assert b in Free(v.used);
    var w := AddChild(v, p, c).0;
    forall x | 1 <= x <= |v.used| ensures FlagAllowed(v, w, p, [b], x) {
    }
    ListBlocks(v, w, p, b, DirBlock(v, b, Kids(v, p) + [c]));
    ListCore(v, w, p, b, Kids(v, p) + [c]);
  }

  lemma AddChildCore(v: Volume, p: nat, c: nat)
    requires Core(v) && Live(v.meta, p)
    ensures Core(AddChild(v, p, c).0) && AddChild(v, p, c).0.index == v.index
    ensures forall j :: Live(AddChild(v, p, c).0.meta, j) <==> Live(v.meta, j)
  {
    forall j ensures Live(AddChild(v, p, c).0.meta, j) <==> Live(v.meta, j) {
      AddChildNodes(v, p, c, j);
    }
    if StartOf(v, p) != 0 {
      RelistCore(v, p, Kids(v, p) + [c]);
    } else if Free(v.used) != [] {
      FirstListCore(v, p, c);
    }
  }

  lemma KidsAreOfLive(v: Volume, p: nat)
    requires Kids(v, p) != []
    ensures Live(v.meta, p)
  {
  }

  /** Taking a child out of a list changes the list's block and nothing else. */
  lemma RemoveChildBlocks(v: Volume, p: nat, c: nat)
    requires LooseBlocks(v) && |v.used| == |v.blocks|
    ensures var w := RemoveChild(v, p, c).0;
            && LooseBlocks(w) && w.meta == v.meta && w.index == v.index && w.used == v.used && SameDisk(v, w)
            && (forall j | j != p :: EntryChain(w, j) == EntryChain(v, j))
            && (forall b :: WriteOk(v, w, p, b))
    ensures RemoveChild(v, p, c).1 ==> Live(v.meta, p)
  {
    if c in Kids(v, p) && StartOf(v, p) != 0 {
      KidsAreOfLive(v, p);
      RelistBlocks(v, p, RemoveFirst(Kids(v, p), c));
    }
  }

  lemma RemoveChildCore(v: Volume, p: nat, c: nat)
    requires Core(v)
    ensures Core(RemoveChild(v, p, c).0)
  {
    if c in Kids(v, p) && StartOf(v, p) != 0 {
      KidsAreOfLive(v, p);
      RelistCore(v, p, RemoveFirst(Kids(v, p), c));
    }
  }

  // ---- Files ----

  /** An entry dies, and some of its blocks are overwritten or freed. */
  lemma KillCore(v: Volume, w: Volume, i: nat, e: MetaEntry)
    requires Core(v) && 1 < i <= |v.meta| && e.valid != 0 && e.start == 0 && TypedEntry(e)
    requires SameDisk(v, w) && Shape(w) && w.meta == v.meta[i - 1 := e]
    requires forall b :: WriteOk(v, w, i, b)
    requires forall b | 1 <= b <= |v.used| :: FlagAllowed(v, w, i, [], b)
    ensures Core(w)
  {
    forall j | j != i ensures SameRecord(v, w, j) {
    }
    OthersUntouched(v, w, i);
    MovedKeeps(v, w, i, []);
    DeadAfter(v, w, i, e);
  }

  /** The entry out of its parent's list, its record dead, and some of its blocks free. */
  lemma ClearedCore(v: Volume, i: nat, e: MetaEntry, freed: seq<nat>)
    requires Core(v) && 1 < i <= |v.meta| && e.valid != 0 && e.start == 0 && TypedEntry(e)
    requires forall k | 0 <= k < |freed| :: Owns(v, i, freed[k])
    ensures Core(SetEntry(Marked(RemoveChild(v, Par(v.meta, i), i).0, freed, false), i, e))
  {
    var x := RemoveChild(v, Par(v.meta, i), i).0;
    var w := SetEntry(Marked(x, freed, false), i, e);
    RemoveChildCore(v, Par(v.meta, i), i);
    RemoveChildBlocks(v, Par(v.meta, i), i);
    TypedAfter(v, w, i, e);
    var y := if Par(v.meta, i) == i then v else x;
    ClearedAllowed(v, x, y, w, i, freed);
    KillCore(y, w, i, e);
  }

  lemma ClearedAllowed(v: Volume, x: Volume, y: Volume, w: Volume, i: nat, freed: seq<nat>)
    requires forall k | 0 <= k < |freed| :: Owns(y, i, freed[k])
    requires |v.used| == |v.blocks| == |x.blocks| && x.used == v.used && y == if Par(v.meta, i) == i then v else x
    requires w.blocks == x.blocks && w.used == Mark(x.used, |x.used|, freed, false)
    requires forall b :: WriteOk(v, x, Par(v.meta, i), b)
    ensures forall b :: WriteOk(y, w, i, b)
    ensures forall b | 1 <= b <= |v.used| :: FlagAllowed(y, w, i, [], b)
  {
    forall b ensures WriteOk(y, w, i, b) {
      assert WriteOk(v, x, Par(v.meta, i), b);
    }
    forall b | 1 <= b <= |v.used| ensures FlagAllowed(y, w, i, [], b) {
    }
  }

  lemma AllocatedAllowed(v: Volume, s: Volume, i: nat, c: seq<nat>)
    requires |v.used| == |v.blocks| == |s.used| && c == Allocated(v.used, |c|) && |c| <= |Free(v.used)|
    requires s.used == Mark(v.used, |v.used|, c, true)
    ensures forall k | 0 <= k < |c| :: Gains(v, i, c[k])
    ensures forall b | 1 <= b <= |v.used| :: FlagAllowed(v, s, i, c, b)
  {
    AllocatedFacts(v, |c|);
    forall k | 0 <= k < |c| ensures Gains(v, i, c[k]) {
    }
    forall b | 1 <= b <= |v.used| ensures FlagAllowed(v, s, i, c, b) {
    }
  }

  lemma StoreFileMoves(v: Volume, i: nat, e: MetaEntry, c: seq<nat>, data: bytes)
    requires Core(v) && 1 < i <= |v.meta| && !Live(v.meta, i) && e.valid == 0
    requires c == Allocated(v.used, |c|) && |c| <= |Free(v.used)|
    ensures Moved(v, StoreFile(v, i, e, c, data), i, c)
  {
    var s := StoreFile(v, i, e, c, data);
    AllocatedFacts(v, |c|);
    AllocatedAllowed(v, s, i, c);
    StoreFileUntouched(v, s, i, e.(start := Head(c)), c, data);
    FilledLinks(v.blocks, c, v.enc, data, Payload(v.bs));
  }

  lemma StoreFileCore(v: Volume, i: nat, e: MetaEntry, c: seq<nat>, data: bytes)
    requires Core(v) && 1 < i <= |v.meta| && !Live(v.meta, i) && e.valid == 0 && TypedEntry(e)
    requires c == Allocated(v.used, |c|) && |c| <= |Free(v.used)|
    ensures Core(StoreFile(v, i, e, c, data))
  {
    var s := StoreFile(v, i, e, c, data);
    StoreFileMoves(v, i, e, c, data);
    MovedKeeps(v, s, i, c);
    StoreFileShape(v, i, e, c, data);
    StoreFileFields(v, i, e, c, data);
    DeadAfter(v, s, i, e.(start := Head(c)));
  }

  lemma EditCore(v: Volume, i: nat, k: nat, pos: nat, data: bytes, now: nat)
    requires Core(v) && Live(v.meta, i) && k < |EntryChain(v, i)| && now < U64
    ensures Core(Edited(v, i, k, pos, data, now))
  {
    var w, c := Edited(v, i, k, pos, data, now), EntryChain(v, i);
    EditedBlockOf(v, i, k, pos, data, now);
    EditedShape(v, i, k, pos, data, now);
    EditedOthers(v, i, k, pos, data, now);
    OwnGains(v, i);
    assert ChainEnds(v, i);
    EditedLinks(v, w, c);
    OwnFlagsAllowed(v, w, i);
    MovedKeeps(v, w, i, c);
    DeadAfter(v, w, i, v.meta[i - 1].(modified := now));
  }

  lemma ShrunkFlagsLoose(v: Volume, w: Volume, i: nat, c: seq<nat>, r: nat)
    requires LooseBlocks(v) && |v.used| == |v.blocks| == |w.used| && c == EntryChain(v, i) && r < |c| && Distinct(c)
    requires w.used == Mark(v.used, |v.used|, c[r..], false)
    ensures forall b | 1 <= b <= |v.used| :: FlagAllowed(v, w, i, c[..r], b)
  {
    assert c == c[..r] + c[r..];
    forall b | 1 <= b <= |v.used| ensures FlagAllowed(v, w, i, c[..r], b) {
      assert OwnedUsed(v, i, b);
      assert b in c <==> b in c[..r] || b in c[r..];
      if b in c[..r] {
        var x :| 0 <= x < r && c[..r][x] == b;
        assert Owns(v, i, b);
        forall y | 0 <= y < |c[r..]| ensures c[r..][y] != b {
          assert c[r..][y] == c[r + y] && c[x] == b;
        }
      }
    }
  }

  lemma ShrunkCore(v: Volume, i: nat, e: MetaEntry, r: nat)
    requires Core(v) && IsFile(v.meta, i) && TypedEntry(e) && e.valid == 0 && e.start == v.meta[i - 1].start
    requires r < |EntryChain(v, i)|
    ensures Core(Shrunk(v, i, e, EntryChain(v, i), r))
  {
    var c := EntryChain(v, i);
    var w := Shrunk(v, i, e, c, r);
    var x := if r == 0 then e.(start := 0) else e;
    assert ChainEnds(v, i);
    ChainIsShort(v.blocks, c);
    OwnGains(v, i);
    assert r > 0 ==> Gains(v, i, c[r - 1]);
    ShrunkFields(v, i, e, c, r);
    ShrunkShape(v, i, e, c, r);
    forall j | j != i ensures SameRecord(v, w, j) {
    }
    ShrunkOthers(v, w, i, c, r);
    ShrunkFlagsLoose(v, w, i, c, r);
    forall k | 0 <= k < r ensures Gains(v, i, c[..r][k]) {
      assert Gains(v, i, c[k]);
    }
    if r > 0 {
      ShrunkLinks(v, w, c, r);
    }
    MovedKeeps(v, w, i, c[..r]);
    DeadAfter(v, w, i, x);
  }

  lemma GrownFlagsLoose(v: Volume, w: Volume, i: nat, extra: seq<nat>)
    requires LooseBlocks(v) && Spare(v, extra) && w.used == Mark(v.used, |v.used|, extra, true)
    ensures forall b | 1 <= b <= |v.used| :: FlagAllowed(v, w, i, EntryChain(v, i) + extra, b)
  {
    var c := EntryChain(v, i);
    forall b | 1 <= b <= |v.used| ensures FlagAllowed(v, w, i, c + extra, b) {
      assert OwnedUsed(v, i, b);
      assert b in c + extra <==> b in c || b in extra;
      if b in c {
        assert Owns(v, i, b);
      }
    }
  }

  lemma GrownMoves(v: Volume, w: Volume, i: nat, extra: seq<nat>)
    requires LooseBlocks(v) && Spare(v, extra) && SameDisk(v, w) && Live(v.meta, i) && Live(w.meta, i)
    requires w.blocks == Filled(Linked(v, EntryChain(v, i), extra[0]).blocks, extra, v.enc, [], Payload(v.bs))
    requires w.used == Mark(v.used, |v.used|, extra, true)
    requires w.meta[i - 1].start == Head(EntryChain(v, i) + extra)
    requires forall j | j != i :: SameRecord(v, w, j)
    ensures Moved(v, w, i, EntryChain(v, i) + extra)
  {
    var c := EntryChain(v, i);
    assert ChainEnds(v, i);
    ChainIsShort(v.blocks, c);
    GrownOthers(v, w, i, extra);
    SpareIsForeign(v, i, extra);
    GrownLinks(v, w, c, extra);
    GrownFlagsLoose(v, w, i, extra);
    GrownGains(v, i, extra);
  }

  lemma GrownCore(v: Volume, i: nat, e: MetaEntry, extra: seq<nat>)
    requires Core(v) && IsFile(v.meta, i) && TypedEntry(e) && e.valid == 0 && e.start == v.meta[i - 1].start
    requires Spare(v, extra)
    ensures Core(Grown(v, i, e, EntryChain(v, i), extra))
  {
    var c := EntryChain(v, i);
    var w := Grown(v, i, e, c, extra);
    assert ChainEnds(v, i);
    GrownFields(v, i, e, c, extra);
    GrownShape(v, i, e, c, extra);
    forall j | j != i ensures SameRecord(v, w, j) {
    }
    GrownMoves(v, w, i, extra);
    MovedKeeps(v, w, i, c + extra);
    DeadAfter(v, w, i, if c == [] then e.(start := extra[0]) else e);
  }

  // ---- The index ----

  lemma CoreIndex(v: Volume, w: Volume)
    requires Core(v) && w == v.(index := w.index, next := w.next) && 0 < w.next < U64
    ensures Core(w)
  {
    BlocksOnly(v, w);
    forall i ensures DeadEmpty(w, i) {
      assert DeadEmpty(v, i);
    }
  }

  /** A rebuilt index is in order, whatever the tree looks like. */
  lemma RebuiltLoose(v: Volume)
    requires Core(v)
    ensures Loose(Reindexed(v))
  {
    var w := Reindexed(v);
    CoreIndex(v, w);
    RootPath(v.meta);
    forall p ensures IndexLive(w, p) && RootKeyed(w, p) {
      RebuildPoints(v.meta, |v.meta|, p);
    }
  }

  lemma KeyedStays(v: Volume, w: Volume)
    requires Keyed(v) && w.index == v.index && forall j :: Live(v.meta, j) ==> Live(w.meta, j)
    ensures Keyed(w)
  {
    forall p ensures IndexLive(w, p) && RootKeyed(w, p) {
      assert IndexLive(v, p) && RootKeyed(v, p);
    }
  }

  // ---- The operations ----

  lemma NewIsNotRoot(v: Volume)
    requires Core(v) && NewIndex(v) != 0
    ensures NewIndex(v) != 1 && v.meta[NewIndex(v) - 1].start == 0
  {
    assert DeadEmpty(v, NewIndex(v));
  }

  lemma CreateStoredLoose(v: Volume, path: bytes, data: bytes, owner: nat, now: nat)
    requires Loose(v) && Request(path, |data|, owner, now) && Creates(v, path, |data|)
    ensures var s := StoredFile(v, path, data, owner, now);
            && Core(s) && s.index == v.index && Live(s.meta, NewIndex(v))
            && forall j :: Live(v.meta, j) ==> Live(s.meta, j)
  {
    var i, n := NewIndex(v), NeedBlocks(|data|, v.bs);
    NewIsNotRoot(v);
    assert IndexLive(v, DirOf(path));
    NewEntryTyped(v, path, |data|, owner, now);
    StoreFileCore(v, i, NewFile(v, path, |data|, owner, now), Free(v.used)[..n], data);
    StoreFileFields(v, i, NewFile(v, path, |data|, owner, now), Free(v.used)[..n], data);
  }

  lemma CreateLoose(v: Volume, path: bytes, data: bytes, owner: nat, now: nat)
    requires Loose(v) && Request(path, |data|, owner, now) && Creates(v, path, |data|)
    ensures Loose(WithPath(ListedFile(v, path, data, owner, now), path, NewIndex(v)))
  {
    var i := NewIndex(v);
    var s, w := StoredFile(v, path, data, owner, now), ListedFile(v, path, data, owner, now);
    CreateStoredLoose(v, path, data, owner, now);
    NewIsNotRoot(v);
    assert IndexLive(v, DirOf(path));
    AddChildCore(s, ParentOf(v, path), i);
    KeyedStays(v, w);
    var r := WithPath(w, path, i);
    CoreIndex(w, r);
    forall p ensures IndexLive(r, p) && RootKeyed(r, p) {
      assert IndexLive(w, p) && RootKeyed(w, p);
    }
  }

  lemma FailedCreateLoose(v: Volume, i: nat, e: MetaEntry)
    requires Loose(v) && i == NewIndex(v) != 0 && e.valid != 0 && e.start == 0 && TypedEntry(e)
    ensures Loose(SetEntry(v, i, e))
  {
    NewIsNotRoot(v);
    RecordMoves(v, i, e);
    KeyedStays(v, SetEntry(v, i, e));
  }

  lemma CreateFileLoose(v: Volume, path: bytes, data: bytes, owner: nat, now: nat)
    requires Loose(v) && Request(path, |data|, owner, now)
    ensures Loose(CreateFile(v, path, data, owner, now).0)
  {
    if CreateFile(v, path, data, owner, now).1 == Success {
      CreateSucceeds(v, path, data, owner, now);
      CreateLoose(v, path, data, owner, now);
    } else if CreateFile(v, path, data, owner, now).0 != v {
      NewIsNotRoot(v);
      assert IndexLive(v, DirOf(path));
      NewEntryTyped(v, path, |data|, owner, now);
      FailedCreateLoose(v, NewIndex(v), NewFile(v, path, |data|, owner, now).(valid := 1));
    }
  }

  lemma MakeDirLoose(v: Volume, path: bytes, owner: nat, now: nat)
    requires Loose(v) && Request(path, 0, owner, now)
    ensures Loose(MakeDir(v, path, owner, now).0)
  {
    var w := MakeDir(v, path, owner, now).0;
    if w != v {
      NewIsNotRoot(v);
      assert IndexLive(v, DirOf(path));
      NewEntryTyped(v, path, 0, owner, now);
      if MakeDir(v, path, owner, now).1 == Success {
        MadeDirLoose(v, path, owner, now);
      } else {
        MakeDirFails(v, path, owner, now);
        FailedCreateLoose(v, NewIndex(v), NewDir(v, path, owner, now).(valid := 1));
      }
    }
  }

  lemma MadeDirLoose(v: Volume, path: bytes, owner: nat, now: nat)
    requires Loose(v) && NewIndex(v) != 0 && TypedEntry(NewDir(v, path, owner, now))
    requires DirOf(path) in v.index
    ensures Loose(Reindexed(BumpNext(ListedDir(v, path, owner, now), NewIndex(v))))
  {
    var i := NewIndex(v);
    NewIsNotRoot(v);
    assert IndexLive(v, DirOf(path));
    RecordMoves(v, i, NewDir(v, path, owner, now));
    AddChildCore(StoredDir(v, path, owner, now), ParentOf(v, path), i);
    var w := ListedDir(v, path, owner, now);
    CoreIndex(w, BumpNext(w, i));
    RebuiltLoose(BumpNext(w, i));
  }

  lemma DeletedLoose(v: Volume, i: nat)
    requires Loose(v) && Live(v.meta, i) && i != 1
    ensures Loose(Deleted(v, i))
  {
    var c := EntryChain(v, i);
    DeadIsTyped(v, i);
    forall k | 0 <= k < |c| ensures Owns(v, i, c[k]) {
    }
    ClearedCore(v, i, Dead(v.meta[i - 1]), c);
    RebuiltLoose(Cleared(v, i, Dead(v.meta[i - 1])));
    DeletedIs(v, i);
  }

  lemma DeleteFileLoose(v: Volume, path: bytes)
    requires Loose(v)
    ensures Loose(DeleteFile(v, path).0)
  {
    if path in v.index && IsFile(v.meta, v.index[path]) {
      DeletedLoose(v, v.index[path]);
    }
  }

  lemma StartIsOwned(v: Volume, i: nat)
    requires Core(v) && Live(v.meta, i) && StartOf(v, i) != 0
    ensures Owns(v, i, StartOf(v, i))
  {
    assert ChainEnds(v, i);
    assert EntryChain(v, i)[0] == StartOf(v, i);
  }

  lemma DismantledLoose(v: Volume, i: nat)
    requires Loose(v) && Live(v.meta, i) && i != 1
    ensures Loose(Dismantled(v, i))
  {
    var e := v.meta[i - 1].(valid := 1, start := 0);
    var x := RemoveChild(v, Par(v.meta, i), i).0;
    var freed := if StartOf(v, i) != 0 then [StartOf(v, i)] else [];
    DeadIsTyped(v, i);
    if StartOf(v, i) != 0 {
      StartIsOwned(v, i);
    }
    ClearedCore(v, i, e, freed);
    assert Mark(x.used, |x.used|, [], false) == x.used;
    RebuiltLoose(SetEntry(Marked(x, freed, false), i, e));
  }

  lemma RemoveDirLoose(v: Volume, path: bytes)
    requires Loose(v)
    ensures Loose(RemoveDir(v, path).0)
  {
    assert IndexLive(v, path) && RootKeyed(v, path);
    if RemoveDir(v, path).1 == Success {
      DismantledLoose(v, v.index[path]);
    }
  }

  lemma EditFileLoose(v: Volume, path: bytes, data: bytes, index: nat, now: nat)
    requires Loose(v) && now < U64
    ensures Loose(EditFile(v, path, data, index, now).0)
  {
    EditIs(v, path, data, index, now);
    if Editable(v, path, index) {
      var i, k, pos := v.index[path], Quot(index, Payload(v.bs)), Rem(index, Payload(v.bs));
      EditCore(v, i, k, pos, data, now);
      EditedBlockOf(v, i, k, pos, data, now);
      KeyedStays(v, Edited(v, i, k, pos, data, now));
    }
  }

  lemma ShrunkLoose(v: Volume, i: nat, e: MetaEntry, r: nat)
    requires Loose(v) && IsFile(v.meta, i) && TypedEntry(e) && e.valid == 0 && e.start == v.meta[i - 1].start
    requires r < |EntryChain(v, i)|
    ensures Loose(Shrunk(v, i, e, EntryChain(v, i), r))
  {
    var c := EntryChain(v, i);
    OwnGains(v, i);
    assert r > 0 ==> Gains(v, i, c[r - 1]);
    ShrunkFields(v, i, e, c, r);
    ShrunkCore(v, i, e, r);
    KeyedStays(v, Shrunk(v, i, e, c, r));
  }

  lemma GrownLoose(v: Volume, i: nat, e: MetaEntry, extra: seq<nat>)
    requires Loose(v) && IsFile(v.meta, i) && TypedEntry(e) && e.valid == 0 && e.start == v.meta[i - 1].start
    requires Spare(v, extra)
    ensures Loose(Grown(v, i, e, EntryChain(v, i), extra))
  {
    GrownFields(v, i, e, EntryChain(v, i), extra);
    GrownCore(v, i, e, extra);
    KeyedStays(v, Grown(v, i, e, EntryChain(v, i), extra));
  }

  lemma ResizedLoose(v: Volume, i: nat, e: MetaEntry, required: nat)
    requires Loose(v) && IsFile(v.meta, i) && TypedEntry(e) && e.valid == 0 && e.start == v.meta[i - 1].start
    ensures Loose(ResizedTo(v, i, e, EntryChain(v, i), required).0)
  {
    var c := EntryChain(v, i);
    if required == |c| {
      RecordMoves(v, i, e);
      KeyedStays(v, SetEntry(v, i, e));
    } else if required < |c| {
      ShrunkLoose(v, i, e, required);
    } else if required - |c| <= |Free(v.used)| {
      FreeIsSpare(v, required - |c|);
      GrownLoose(v, i, e, Free(v.used)[..required - |c|]);
    }
  }

  lemma TruncateFileLoose(v: Volume, path: bytes, newSize: nat, now: nat)
    requires Loose(v) && newSize < U64 && now < U64
    ensures Loose(TruncateFile(v, path, newSize, now).0)
  {
    if path in v.index && IsFile(v.meta, v.index[path]) {
      var i := v.index[path];
      assert TypedEntry(v.meta[i - 1]);
      ResizedLoose(v, i, Resize(v.meta[i - 1], newSize, now), NeedBlocks(newSize, v.bs));
    }
  }

  lemma RenamedCore(v: Volume, i: nat, np: nat, name: bytes, now: nat)
    requires Core(v) && Live(v.meta, i) && StoredName(name) && np < U32 && now < U64
    ensures var y := Renamed(v, i, np, name, now);
            Core(y) && y.index == v.index && forall j :: Live(v.meta, j) <==> Live(y.meta, j)
  {
    var e := RenamedRecord(v.meta[i - 1], name, np, now);
    RemoveChildCore(v, Par(v.meta, i), i);
    RemoveChildBlocks(v, Par(v.meta, i), i);
    assert TypedEntry(v.meta[i - 1]);
    RecordMoves(Unlisted(v, i), i, e);
  }

  lemma RelocatedLoose(v: Volume, i: nat, np: nat, name: bytes, now: nat)
    requires Loose(v) && Live(v.meta, i) && StoredName(name) && Live(v.meta, np) && now < U64
    ensures Loose(Relocated(v, i, np, name, now).0)
  {
    var op := Par(v.meta, i);
    RemoveChildCore(v, op, i);
    RemoveChildBlocks(v, op, i);
    if !RemoveChild(v, op, i).1 {
      KeyedStays(v, Unlisted(v, i));
    } else {
      RenamedCore(v, i, np, name, now);
      AddChildCore(Renamed(v, i, np, name, now), np, i);
      RenamedCore(v, i, op, name, now);
      AddChildCore(Renamed(v, i, op, name, now), op, i);
      if AddChild(Renamed(v, i, np, name, now), np, i).1 {
        RebuiltLoose(AddChild(Renamed(v, i, np, name, now), np, i).0);
      } else {
        KeyedStays(v, AddChild(Renamed(v, i, op, name, now), op, i).0);
      }
    }
  }

  lemma RenameEntryLoose(v: Volume, oldPath: bytes, newPath: bytes, now: nat)
    requires Loose(v) && 0 !in newPath && now < U64
    ensures Loose(RenameEntry(v, oldPath, newPath, now).0)
  {
    RenameGuards(v, oldPath, newPath, now);
    if Renamable(v, oldPath, newPath) {
      NewNameIsStored(newPath);
      RelocatedLoose(v, v.index[oldPath], Target(v, newPath), NewBaseOf(newPath), now);
    }
  }

  // ---- Runs ----

  predicate WellformedRun(ops: seq<Op>) {
    forall k | 0 <= k < |ops| :: Wellformed(ops[k])
  }

  /** No operation, sound or not, leads out of the loose invariant. */
  lemma StepLoose(v: Volume, op: Op)
    requires Loose(v) && Wellformed(op)
    ensures Loose(Apply(v, op).0)
  {
    match op
    case Create(path, data, owner, now) => CreateFileLoose(v, path, data, owner, now);
    case MkDir(path, owner, now) => MakeDirLoose(v, path, owner, now);
    case Delete(path) => DeleteFileLoose(v, path);
    case RmDir(path) => RemoveDirLoose(v, path);
    case Edit(path, data, index, now) => EditFileLoose(v, path, data, index, now);
    case Truncate(path, newSize, now) => TruncateFileLoose(v, path, newSize, now);
    case Rename(path, newPath, now) => RenameEntryLoose(v, path, newPath, now);
  }

  lemma {:induction false} RunLoose(v: Volume, ops: seq<Op>)
    requires Loose(v) && WellformedRun(ops)
    ensures Loose(Run(v, ops))
    decreases ops
  {
    if ops != [] {
      assert Wellformed(ops[0]);
      StepLoose(v, ops[0]);
      RunLoose(Apply(v, ops[0]).0, ops[1..]);
    }
  }

  lemma FreshLoose(bs: nat, numBlocks: nat, maxFiles: nat)
    requires 128 <= bs < U32 && numBlocks < U32 && 1 <= maxFiles < U32
    ensures Loose(FreshVolume(bs, numBlocks, maxFiles))
  {
    var v := FreshVolume(bs, numBlocks, maxFiles);
    FreshInv(bs, numBlocks, maxFiles);
    InvIsUsable(v);
  }

  /** From a formatted volume, whatever operations are called with whatever arguments: no chain
      has a cycle or leaves the volume, no block belongs to two entries or is free and in use,
      and entry 1 is a live directory, so that mounting again never formats. */
  lemma AnyRun(bs: nat, numBlocks: nat, maxFiles: nat, ops: seq<Op>, i: nat, j: nat, b: nat)
    requires 128 <= bs < U32 && numBlocks < U32 && 1 <= maxFiles < U32 && WellformedRun(ops)
    ensures var w := Run(FreshVolume(bs, numBlocks, maxFiles), ops);
            && IsDir(w.meta, 1) && Usable(w)
            && (Live(w.meta, i) ==> IsChain(w.blocks, w.meta[i - 1].start, EntryChain(w, i)))
            && Distinct(EntryChain(w, i)) && |EntryChain(w, i)| <= |w.blocks|
            && (Owns(w, i, b) && Owns(w, j, b) ==> i == j)
            && (Owns(w, i, b) ==> 1 <= b <= |w.used| && w.used[b - 1])
  {
    var w := Run(FreshVolume(bs, numBlocks, maxFiles), ops);
    FreshLoose(bs, numBlocks, maxFiles);
    RunLoose(FreshVolume(bs, numBlocks, maxFiles), ops);
    LooseIsUsable(w);
    OwnGains(w, i);
    assert ChainEnds(w, i) && OneOwner(w, i, j, b) && OwnedUsed(w, i, b);
    if Live(w.meta, i) {
      ChainIsShort(w.blocks, EntryChain(w, i));
    }
    if Owns(w, i, b) {
      var k :| 0 <= k < |EntryChain(w, i)| && EntryChain(w, i)[k] == b;
      assert Gains(w, i, EntryChain(w, i)[k]);
    }
  }
}
