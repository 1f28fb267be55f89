/** What adding and removing a child does to a directory's list, and that it leaves every
    other entry alone. */
module Directories {
  import opened Bytes
  import opened Counting
  import opened Bitmap
  import opened Chains
  import opened Tree
  import opened State
  import opened Ops

  // ---- Who is touched by a write ----

  predicate SameRecord(v: Volume, w: Volume, i: nat) {
    && (Live(v.meta, i) <==> Live(w.meta, i))
    && (Live(v.meta, i) ==>
      && v.meta[i - 1].start == w.meta[i - 1].start
      && v.meta[i - 1].size == w.meta[i - 1].size
      && v.meta[i - 1].kind == w.meta[i - 1].kind)
  }

  /** A block may change only if it is free or belongs to `e`. */
  predicate WriteOk(v: Volume, w: Volume, e: nat, b: nat) {
    1 <= b <= |v.blocks| && b <= |w.blocks| ==> v.blocks[b - 1] == w.blocks[b - 1] || Gains(v, e, b)
  }

  lemma OthersUntouched(v: Volume, w: Volume, e: nat)
    requires LooseBlocks(v) && SameDisk(v, w)
    requires forall i | i != e :: SameRecord(v, w, i)
    requires forall b :: WriteOk(v, w, e, b)
    ensures forall i | i != e :: Untouched(v, w, i)
  {
    forall i | i != e ensures Untouched(v, w, i) {
      assert SameRecord(v, w, i) && ChainEnds(v, i);
      if Live(v.meta, i) {
        var c := EntryChain(v, i);
        forall k | 0 <= k < |c| ensures SameBlock(v.blocks, w.blocks, c[k]) {
          assert Link(v.blocks, c, k) && WriteOk(v, w, e, c[k]);
          if Gains(v, e, c[k]) {
            GainIsForeign(v, e, i, c[k]);
          }
        }
      }
    }
  }

  // ---- The list in a directory ----

  /** The number of children that fit in a directory. */
  function Room(v: Volume): nat {
    Payload(v.bs) / 4
  }

  lemma {:induction false} NonZeroBounds(ws: seq<nat>)
    requires Between(ws, 0, U32)
    ensures Between(NonZero(ws), 1, U32)
  {
    if ws != [] {
      NonZeroBounds(ws[..|ws| - 1]);
    }
  }

  lemma WordsBounds(p: bytes)
    ensures Between(Words(p), 0, U32)
  {
    Pow256Values();
  }

  lemma ListOfBlock(blocks: seq<Block>, s: nat, pl: nat)
    requires 1 <= s <= |blocks| && |blocks[s - 1].payload| == pl
    ensures var ws := ChainWords(blocks, [s]);
            ws == DirEntries(blocks[s - 1]) && Between(ws, 1, U32) && |ws| <= pl / 4
  {
    GatherOne(DirEntries, blocks, s);
    WordsBounds(blocks[s - 1].payload);
    NonZeroBounds(Words(blocks[s - 1].payload));
  }

  lemma OneBlock(v: Volume, d: nat)
    requires BlockInv(v) && IsDir(v.meta, d)
    ensures StartOf(v, d) == 0 ==> EntryChain(v, d) == []
    ensures StartOf(v, d) != 0 ==> EntryChain(v, d) == [StartOf(v, d)] && 1 <= StartOf(v, d) <= |v.blocks|
  {
    assert ChainOk(v, d);
    if StartOf(v, d) != 0 {
      assert Link(v.blocks, EntryChain(v, d), 0);
    }
  }

  /** A directory has no block, or one that is its whole chain; its list is in range and fits. */
  lemma DirShape(v: Volume, d: nat)
    requires Shape(v) && BlockInv(v) && IsDir(v.meta, d)
    ensures StartOf(v, d) == 0 ==> EntryChain(v, d) == [] && Kids(v, d) == []
    ensures StartOf(v, d) != 0 ==>
      && EntryChain(v, d) == [StartOf(v, d)]
      && 1 <= StartOf(v, d) <= |v.blocks|
      && Kids(v, d) == DirEntries(v.blocks[StartOf(v, d) - 1])
      && |v.blocks[StartOf(v, d) - 1].payload| == Payload(v.bs)
    ensures Between(Kids(v, d), 1, U32) && |Kids(v, d)| <= Room(v)
  {
    OneBlock(v, d);
    var s := StartOf(v, d);
    if s != 0 {
      assert TypedBlock(v.blocks[s - 1], v.bs);
      ListOfBlock(v.blocks, s, Payload(v.bs));
    }
  }

  /** Directory `p` now has the single block `b`, which holds `children`. */
  ghost predicate ListStored(v: Volume, w: Volume, p: nat, b: nat, children: seq<nat>) {
    && SameDisk(v, w) && w.index == v.index && w.next == v.next
    && 1 <= p <= |v.meta|
    && w.meta == v.meta[p - 1 := v.meta[p - 1].(start := b)]
    && 1 <= b <= |v.blocks|
    && w.blocks == v.blocks[b - 1 := Block(0, DirPayload(v.blocks[b - 1].payload, children))]
    && (forall x | 1 <= x <= |v.blocks| :: FlagMoved(v, w, p, [b], x))
  }

  lemma ListStoredShape(v: Volume, w: Volume, p: nat, b: nat, children: seq<nat>)
    requires Shape(v) && ListStored(v, w, p, b, children)
    ensures Shape(w)
  {
    forall x | 0 <= x < |w.blocks| ensures TypedBlock(w.blocks[x], w.bs) {
      assert TypedBlock(v.blocks[x], v.bs);
    }
    forall x | 0 <= x < |w.meta| ensures TypedEntry(w.meta[x]) {
      assert TypedEntry(v.meta[x]);
    }
  }

  lemma ListStoredRechains(v: Volume, w: Volume, p: nat, b: nat, children: seq<nat>)
    requires Shape(v) && BlockInv(v) && IsDir(v.meta, p) && ListStored(v, w, p, b, children) && Gains(v, p, b)
    ensures BlockInv(w) && EntryChain(w, p) == [b]
    ensures forall i | i != p :: Untouched(v, w, i)
  {
    forall i | i != p ensures SameRecord(v, w, i) {
    }
    forall x ensures WriteOk(v, w, p, x) {
    }
    OthersUntouched(v, w, p);
    assert Link(w.blocks, [b], 0);
    RechainKeeps(v, w, p, [b]);
  }

  lemma ListStoredKeeps(v: Volume, w: Volume, p: nat, b: nat, children: seq<nat>)
    requires Shape(v) && BlockInv(v) && IsDir(v.meta, p) && ListStored(v, w, p, b, children)
    requires Gains(v, p, b) && Between(children, 1, U32)
    ensures Shape(w) && BlockInv(w)
    ensures forall i | i != p :: Untouched(v, w, i)
    ensures Kids(w, p) == Take(children, Room(v))
  {
    assert TypedBlock(v.blocks[b - 1], v.bs);
    ListStoredShape(v, w, p, b, children);
    ListStoredRechains(v, w, p, b, children);
    GatherOne(DirEntries, w.blocks, b);
    WordsOfDirPayload(v.blocks[b - 1].payload, children);
  }

  lemma OwnBlock(v: Volume, p: nat)
    requires Shape(v) && BlockInv(v) && IsDir(v.meta, p) && StartOf(v, p) != 0
    ensures EntryChain(v, p) == [StartOf(v, p)] && Gains(v, p, StartOf(v, p)) && v.used[StartOf(v, p) - 1]
  {
    DirShape(v, p);
    assert EntryChain(v, p)[0] == StartOf(v, p);
    assert Owns(v, p, StartOf(v, p));
    assert FlagOk(v, StartOf(v, p));
  }

  lemma OwnFlags(v: Volume, w: Volume, p: nat, x: nat)
    requires Shape(v) && BlockInv(v) && IsDir(v.meta, p) && StartOf(v, p) != 0
    requires w.used == v.used && 1 <= x <= |v.blocks|
    ensures FlagMoved(v, w, p, [StartOf(v, p)], x)
  {
    OwnBlock(v, p);
  }

  lemma SameStart(e: MetaEntry)
    ensures e.(start := e.start) == e
  {
  }

  lemma StoreInOwnBlock(v: Volume, p: nat, children: seq<nat>)
    requires Shape(v) && BlockInv(v) && IsDir(v.meta, p) && StartOf(v, p) != 0
    ensures var b := StartOf(v, p);
            ListStored(v, SetBlock(v, b, DirBlock(v, b, children)), p, b, children)
  {
    var b := StartOf(v, p);
    assert 1 <= b <= |v.blocks| by {
      DirShape(v, p);
    }
    var w := SetBlock(v, b, DirBlock(v, b, children));
    forall x | 1 <= x <= |v.blocks| ensures FlagMoved(v, w, p, [b], x) {
      OwnFlags(v, w, p, x);
    }
    SameStart(v.meta[p - 1]);
  }

  lemma AddToFreshBlock(v: Volume, p: nat, c: nat)
    requires Shape(v) && BlockInv(v) && IsDir(v.meta, p) && StartOf(v, p) == 0 && Free(v.used) != []
    ensures var b := Free(v.used)[0];
            Gains(v, p, b) && ListStored(v, AddChild(v, p, c).0, p, b, Kids(v, p) + [c])
  {
    DirShape(v, p);
    FreeContents(v.used);
    var b := Free(v.used)[0];
    assert b in Free(v.used);
    forall x | 1 <= x <= |v.blocks| ensures FlagMoved(v, AddChild(v, p, c).0, p, [b], x) {
    }
  }

  /** The volume after a new list is stored. */
  ghost predicate ListKept(v: Volume, w: Volume, p: nat, children: seq<nat>) {
    && Shape(w) && BlockInv(w)
    && SameDisk(v, w) && w.index == v.index && w.next == v.next && 1 <= p <= |v.meta|
    && w.meta == v.meta[p - 1 := v.meta[p - 1].(start := StartOf(w, p))]
    && (forall i | i != p :: Untouched(v, w, i))
    && Kids(w, p) == Take(children, Room(v))
  }

  lemma StoredIsKept(v: Volume, w: Volume, p: nat, b: nat, children: seq<nat>)
    requires Shape(v) && BlockInv(v) && IsDir(v.meta, p) && ListStored(v, w, p, b, children)
    requires Gains(v, p, b) && Between(children, 1, U32)
    ensures ListKept(v, w, p, children) && StartOf(w, p) == b
  {
    ListStoredKeeps(v, w, p, b, children);
  }

  lemma ListInRange(v: Volume, p: nat, c: nat)
    requires Shape(v) && BlockInv(v) && IsDir(v.meta, p) && 1 <= c < U32
    ensures Between(Kids(v, p) + [c], 1, U32)
  {
    DirShape(v, p);
  }

  lemma AddToOwnBlock(v: Volume, p: nat, c: nat)
    requires Shape(v) && BlockInv(v) && IsDir(v.meta, p) && StartOf(v, p) != 0 && 1 <= c < U32
    ensures AddChild(v, p, c).1 && ListKept(v, AddChild(v, p, c).0, p, Kids(v, p) + [c])
  {
    ListInRange(v, p, c);
    OwnBlock(v, p);
    StoreInOwnBlock(v, p, Kids(v, p) + [c]);
    StoredIsKept(v, AddChild(v, p, c).0, p, StartOf(v, p), Kids(v, p) + [c]);
  }

  /** `dir_add_child` on a directory: it fails exactly when there is neither a block of its
      own nor a free one, and otherwise appends to the list as far as there is room. */
  lemma AddChildKeeps(v: Volume, p: nat, c: nat)
    requires Shape(v) && BlockInv(v) && IsDir(v.meta, p) && 1 <= c < U32
    ensures AddChild(v, p, c).1 <==> StartOf(v, p) != 0 || Free(v.used) != []
    ensures !AddChild(v, p, c).1 ==> AddChild(v, p, c).0 == v
    ensures AddChild(v, p, c).1 ==> ListKept(v, AddChild(v, p, c).0, p, Kids(v, p) + [c])
  {
    if StartOf(v, p) != 0 {
      AddToOwnBlock(v, p, c);
    } else if Free(v.used) != [] {
      ListInRange(v, p, c);
      AddToFreshBlock(v, p, c);
      StoredIsKept(v, AddChild(v, p, c).0, p, Free(v.used)[0], Kids(v, p) + [c]);
    }
  }

  lemma {:induction false} RemoveFirstOf(s: seq<nat>, x: nat)
    requires Distinct(s)
    ensures Distinct(RemoveFirst(s, x))
    ensures forall y :: y in RemoveFirst(s, x) <==> y in s && y != x
    ensures x in s ==> |RemoveFirst(s, x)| == |s| - 1
    decreases s
  {
    if s != [] {
      RemoveFirstOf(s[1..], x);
      var r := RemoveFirst(s[1..], x);
      forall y | y in s[1..] ensures y != s[0] {
      }
      forall k | 0 <= k < |r| ensures r[k] != s[0] {
        assert r[k] in r;
      }
    }
  }

  /** `dir_remove_child` on a directory: it fails exactly when the child is not listed. */
  lemma RemoveChildKeeps(v: Volume, p: nat, c: nat)
    requires Shape(v) && BlockInv(v) && IsDir(v.meta, p) && Distinct(Kids(v, p))
    ensures RemoveChild(v, p, c).1 <==> c in Kids(v, p)
    ensures !RemoveChild(v, p, c).1 ==> RemoveChild(v, p, c).0 == v
    ensures RemoveChild(v, p, c).1 ==>
      var w := RemoveChild(v, p, c).0;
      && Shape(w) && BlockInv(w)
      && SameDisk(v, w) && w.index == v.index && w.next == v.next && w.meta == v.meta && w.used == v.used
      && (forall i | i != p :: Untouched(v, w, i))
      && Kids(w, p) == RemoveFirst(Kids(v, p), c)
      && StartOf(w, p) != 0
  {
    if c in Kids(v, p) {
      DirShape(v, p);
      OwnBlock(v, p);
      RemoveFirstOf(Kids(v, p), c);
      var children := RemoveFirst(Kids(v, p), c);
      forall k | 0 <= k < |children| ensures 1 <= children[k] < U32 {
        assert children[k] in children;
      }
      StoreInOwnBlock(v, p, children);
      ListStoredKeeps(v, RemoveChild(v, p, c).0, p, StartOf(v, p), children);
    }
  }
}
