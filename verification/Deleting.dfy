/** `file_delete` and `dir_delete`: both keep the invariant, drop one path, and free exactly
    the blocks of that entry. */
module Deleting {
  import opened Bytes
  import opened Counting
  import opened Bitmap
  import opened Paths
  import opened Tree
  import opened State
  import opened Ops
  import opened Directories
  import opened TreeChanges

  lemma MarkedKids(v: Volume, p: nat, blocks: seq<nat>, flag: bool)
    ensures Kids(Marked(v, blocks, flag), p) == Kids(v, p)
    ensures StartOf(Marked(v, blocks, flag), p) == StartOf(v, p)
  {
  }

  lemma MarkedSet(v: Volume, b: nat, children: seq<nat>, blocks: seq<nat>, flag: bool)
    ensures SetBlock(Marked(v, blocks, flag), b, DirBlock(Marked(v, blocks, flag), b, children))
         == Marked(SetBlock(v, b, DirBlock(v, b, children)), blocks, flag)
  {
  }

  /** Freeing blocks and unlisting a child do not interfere. */
  lemma RemoveChildMarked(v: Volume, p: nat, c: nat, blocks: seq<nat>, flag: bool)
    ensures RemoveChild(Marked(v, blocks, flag), p, c)
         == (Marked(RemoveChild(v, p, c).0, blocks, flag), RemoveChild(v, p, c).1)
  {
    MarkedKids(v, p, blocks, flag);
    MarkedSet(v, StartOf(v, p), RemoveFirst(Kids(v, p), c), blocks, flag);
  }

  /** Entry `i` unlisted, its blocks free, its record replaced by the dead one `x`. */
  function Cleared(v: Volume, i: nat, x: MetaEntry): (w: Volume) {
    SetEntry(Marked(RemoveChild(v, Par(v.meta, i), i).0, EntryChain(v, i), false), i, x)
  }

  /** A live entry without children that is not the root. */
  ghost predicate Removable(v: Volume, i: nat) {
    Live(v.meta, i) && i != 1 && Childless(v.meta, i)
  }

  lemma DeletedIs(v: Volume, i: nat)
    requires Live(v.meta, i)
    ensures Deleted(v, i) == Reindexed(Cleared(v, i, Dead(v.meta[i - 1])))
  {
    RemoveChildMarked(v, Par(v.meta, i), i, EntryChain(v, i), false);
  }

  lemma FilesAreRemovable(v: Volume, i: nat)
    requires Inv(v) && IsFile(v.meta, i)
    ensures Removable(v, i)
  {
    forall c | Live(v.meta, c) ensures Par(v.meta, c) != i {
      assert NodeOk(v.meta, c);
    }
  }

  /** A directory is removable exactly when its list is empty. */
  lemma EmptyDirIsRemovable(v: Volume, i: nat)
    requires Inv(v) && IsDir(v.meta, i)
    ensures Kids(v, i) == [] <==> Childless(v.meta, i)
  {
    assert KidsOk(v, i);
    if Kids(v, i) == [] {
      forall c | Live(v.meta, c) ensures Par(v.meta, c) != i {
        assert !IsKid(v.meta, c, i);
      }
    } else {
      var c := Kids(v, i)[0];
      assert c in Kids(v, i);
      assert IsKid(v.meta, c, i);
    }
  }

  lemma Listed(v: Volume, i: nat)
    requires Inv(v) && Live(v.meta, i) && i != 1
    ensures var p := Par(v.meta, i);
            IsDir(v.meta, p) && i in Kids(v, p) && Distinct(Kids(v, p)) && p != i
  {
    var p := Par(v.meta, i);
    assert NodeOk(v.meta, i) && KidsOk(v, p) && IsKid(v.meta, i, p);
    var k: nat :| Climb(v.meta, i, k);
    if p == i {
      ClimbUnique(v.meta, i, k, k - 1);
    }
  }

  lemma UnlistKeeps(v: Volume, i: nat)
    requires Inv(v) && Live(v.meta, i) && i != 1
    ensures var p := Par(v.meta, i);
            var (x, ok) := RemoveChild(v, p, i);
            && ok && Shape(x) && BlockInv(x) && SameDisk(v, x) && x.index == v.index && x.meta == v.meta
            && x.used == v.used && x.next == v.next && StartOf(v, p) != 0
            && EntryChain(x, i) == EntryChain(v, i)
            && (forall j | j != p :: Untouched(v, x, j))
            && Kids(x, p) == RemoveFirst(Kids(v, p), i)
  {
    var p := Par(v.meta, i);
    Listed(v, i);
    RemoveChildKeeps(v, p, i);
    DirShape(v, p);
    var x := RemoveChild(v, p, i).0;
    assert ChainOk(v, i) && Untouched(v, x, i);
    UntouchedKeeps(v, x, i);
  }

  lemma ClearRechains(v: Volume, x: Volume, w: Volume, i: nat, e: MetaEntry)
    requires BlockInv(x) && |x.used| == |x.blocks| && 1 <= i <= |x.meta| && e.valid != 0
    requires w == SetEntry(Marked(x, EntryChain(x, i), false), i, e)
    ensures Rechained(x, w, i, [])
  {
    forall j | j != i ensures SameRecord(x, w, j) {
    }
    forall b ensures WriteOk(x, w, i, b) {
    }
    OthersUntouched(x, w, i);
    forall b | 1 <= b <= |x.blocks| ensures FlagMoved(x, w, i, [], b) {
    }
  }

  lemma ClearedShape(x: Volume, w: Volume, i: nat, e: MetaEntry)
    requires Shape(x) && 1 <= i <= |x.meta| && TypedEntry(e)
    requires w == SetEntry(Marked(x, EntryChain(x, i), false), i, e)
    ensures Shape(w)
  {
    forall j | 0 <= j < |w.meta| ensures TypedEntry(w.meta[j]) {
      assert TypedEntry(x.meta[j]);
    }
  }

  /** What is left after an entry is cleared: the tree without it, and every other node. */
  lemma ClearedNodes(v: Volume, i: nat, e: MetaEntry, j: nat)
    requires Inv(v) && Removable(v, i) && e.valid != 0 && TypedEntry(e) && j != i
    ensures var w := Cleared(v, i, e);
            && Kids(w, j) == (if j == Par(v.meta, i) then RemoveFirst(Kids(v, j), i) else Kids(v, j))
            && (Live(v.meta, j) ==> Live(w.meta, j) && NodeAt(w, j) == NodeAt(v, j))
  {
    var p := Par(v.meta, i);
    var x := RemoveChild(v, p, i).0;
    var w := Cleared(v, i, e);
    UnlistKeeps(v, i);
    ClearRechains(v, x, w, i, e);
    assert ChainOk(x, j) && Untouched(x, w, j);
    UntouchedKeeps(x, w, j);
    if j != p {
      assert ChainOk(v, j) && Untouched(v, x, j);
      UntouchedKeeps(v, x, j);
    } else {
      Listed(v, i);
    }
  }

  lemma ClearedKids(v: Volume, i: nat, e: MetaEntry, d: nat)
    requires Inv(v) && Removable(v, i) && e.valid != 0 && TypedEntry(e)
    requires Dropped(v.meta, Cleared(v, i, e).meta, i)
    ensures KidsOk(Cleared(v, i, e), d)
  {
    var w := Cleared(v, i, e);
    var p := Par(v.meta, i);
    if IsDir(w.meta, d) {
      assert d != i;
      assert SameNode(v.meta, w.meta, d) && KidsOk(v, d);
      ClearedNodes(v, i, e, d);
      Listed(v, i);
      RemoveFirstOf(Kids(v, d), i);
      assert IsKid(v.meta, i, d) <==> d == p;
      forall c ensures c in Kids(w, d) <==> IsKid(w.meta, c, d) {
        assert SameNode(v.meta, w.meta, c) || c == i;
      }
    }
  }

  /** Clearing an entry and rebuilding the index keeps the invariant and drops its path. */
  lemma ClearKeeps(v: Volume, i: nat, e: MetaEntry)
    requires Inv(v) && Removable(v, i) && e.valid != 0 && TypedEntry(e)
    ensures var w := Reindexed(Cleared(v, i, e));
            && Inv(w) && w.index == v.index - {PathTo(v.meta, i)}
            && Abs(w) == Abs(v) - {PathTo(v.meta, i)}
            && w.used == Mark(v.used, |v.used|, EntryChain(v, i), false)
  {
    var p := Par(v.meta, i);
    var x := RemoveChild(v, p, i).0;
    var w := Cleared(v, i, e);
    UnlistKeeps(v, i);
    ClearRechains(v, x, w, i, e);
    ClearedShape(x, w, i, e);
    RechainKeeps(x, w, i, []);
    forall j | j != i ensures SameNode(v.meta, w.meta, j) {
    }
    assert Dropped(v.meta, w.meta, i);
    DropNode(v.meta, w.meta, i);
    DropNodeIndex(v.meta, w.meta, i, v.index);
    RebuildIs(w.meta, v.index - {PathTo(v.meta, i)});
    forall d ensures KidsOk(w, d) {
      ClearedKids(v, i, e, d);
    }
    ReindexedOnly(w);
    ClearedAbs(v, i, e);
  }

  lemma ReindexedOnly(w: Volume)
    ensures Shape(w) ==> Shape(Reindexed(w))
    ensures BlockInv(w) ==> BlockInv(Reindexed(w))
    ensures ChildInv(w) <==> ChildInv(Reindexed(w))
    ensures forall i :: NodeAt(w, i) == NodeAt(Reindexed(w), i)
  {
    IndexOnly(w, Reindexed(w));
  }

  lemma AbsDrop(v: Volume, w: Volume, p: bytes)
    requires w.index == v.index - {p}
    requires forall q | q in v.index && q != p :: NodeAt(w, v.index[q]) == NodeAt(v, v.index[q])
    ensures Abs(w) == Abs(v) - {p}
  {
  }

  lemma ClearedAbs(v: Volume, i: nat, e: MetaEntry)
    requires Inv(v) && Removable(v, i) && e.valid != 0 && TypedEntry(e)
    requires Reindexed(Cleared(v, i, e)).index == v.index - {PathTo(v.meta, i)}
    ensures Abs(Reindexed(Cleared(v, i, e))) == Abs(v) - {PathTo(v.meta, i)}
  {
    var w := Reindexed(Cleared(v, i, e));
    ReindexedOnly(Cleared(v, i, e));
    forall q | q in v.index && q != PathTo(v.meta, i) ensures NodeAt(w, v.index[q]) == NodeAt(v, v.index[q]) {
      assert Points(v.meta, v.index, q);
      ClearedNodes(v, i, e, v.index[q]);
    }
    AbsDrop(v, w, PathTo(v.meta, i));
  }

  // ---- The operations ----

  lemma DeadIsTyped(v: Volume, i: nat)
    requires Shape(v) && 1 <= i <= |v.meta|
    ensures TypedEntry(Dead(v.meta[i - 1])) && TypedEntry(v.meta[i - 1].(valid := 1, start := 0))
  {
    assert TypedEntry(v.meta[i - 1]);
  }

  /** `file_delete` succeeds exactly on the path of a file; then that path is gone, exactly the
      blocks of the file are free, and nothing else changed for a user. */
  lemma DeleteFileRefines(v: Volume, path: bytes)
    requires Inv(v)
    ensures var (w, st) := DeleteFile(v, path);
            && (st == Success <==> path in v.index && IsFile(v.meta, v.index[path]))
            && (st != Success ==> w == v)
            && (st == Success ==>
                  Inv(w) && Abs(w) == Abs(v) - {path} && w.index == v.index - {path}
                  && w.used == Mark(v.used, |v.used|, EntryChain(v, v.index[path]), false))
  {
    if path in v.index && IsFile(v.meta, v.index[path]) {
      var i := v.index[path];
      assert Points(v.meta, v.index, path);
      FilesAreRemovable(v, i);
      DeletedIs(v, i);
      DeadIsTyped(v, i);
      ClearKeeps(v, i, Dead(v.meta[i - 1]));
    }
  }

  lemma RemoveDirIsCleared(v: Volume, i: nat)
    requires Shape(v) && BlockInv(v) && IsDir(v.meta, i)
    requires var x := RemoveChild(v, Par(v.meta, i), i).0; x.meta == v.meta && x.used == v.used
    ensures Dismantled(v, i) == Reindexed(Cleared(v, i, v.meta[i - 1].(valid := 1, start := 0)))
  {
    DirShape(v, i);
    var x := RemoveChild(v, Par(v.meta, i), i).0;
    assert Mark(x.used, |x.used|, [], false) == x.used;
  }

  lemma RemoveDirSucceeds(v: Volume, path: bytes)
    requires Inv(v) && path != [] && path != ROOT && path in v.index && IsDir(v.meta, v.index[path])
    requires Kids(v, v.index[path]) == []
    ensures var i := v.index[path];
            && Removable(v, i) && PathTo(v.meta, i) == path
            && RemoveDir(v, path) == (Reindexed(Cleared(v, i, v.meta[i - 1].(valid := 1, start := 0))), Success)
  {
    var i := v.index[path];
    assert Points(v.meta, v.index, path);
    RootPath(v.meta);
    EmptyDirIsRemovable(v, i);
    UnlistKeeps(v, i);
    Listed(v, i);
    RemoveDirIsCleared(v, i);
  }

  lemma RemoveDirDrops(v: Volume, path: bytes, i: nat)
    requires Inv(v) && path != [] && path != ROOT && path in v.index && i == v.index[path] && IsDir(v.meta, i)
    requires Kids(v, i) == []
    ensures var (w, st) := RemoveDir(v, path);
            st == Success && Inv(w) && Abs(w) == Abs(v) - {path} && w.index == v.index - {path}
            && w.used == Mark(v.used, |v.used|, EntryChain(v, i), false)
  {
    RemoveDirSucceeds(v, path);
    DeadIsTyped(v, i);
    ClearKeeps(v, i, v.meta[i - 1].(valid := 1, start := 0));
  }

  lemma RemoveDirGuards(v: Volume, path: bytes)
    requires !(path != [] && path != ROOT && path in v.index && IsDir(v.meta, v.index[path])
      && Kids(v, v.index[path]) == [])
    ensures RemoveDir(v, path).0 == v && RemoveDir(v, path).1 != Success
  {
  }

  /** `dir_delete` succeeds exactly on a directory, other than the root, that is the parent of
      no live entry: it never orphans one. */
  lemma RemoveDirRefines(v: Volume, path: bytes)
    requires Inv(v)
    ensures var (w, st) := RemoveDir(v, path);
            && (st == Success <==>
                  path != ROOT && path in v.index && IsDir(v.meta, v.index[path]) && Childless(v.meta, v.index[path]))
            && (st != Success ==> w == v)
            && (st == Success ==>
                  Inv(w) && Abs(w) == Abs(v) - {path} && w.index == v.index - {path}
                  && w.used == Mark(v.used, |v.used|, EntryChain(v, v.index[path]), false))
  {
    assert Points(v.meta, v.index, path);
    if path in v.index && IsDir(v.meta, v.index[path]) {
      EmptyDirIsRemovable(v, v.index[path]);
    }
    if path != [] && path != ROOT && path in v.index && IsDir(v.meta, v.index[path]) && Kids(v, v.index[path]) == [] {
      var i := v.index[path];
      RemoveDirDrops(v, path, i);
    } else {
      RemoveDirGuards(v, path);
    }
  }
}
