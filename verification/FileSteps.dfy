/** Changes to the blocks or the record of one file, with the tree left as it is. */
module FileSteps {
  import opened Tree
  import opened State
  import opened Directories
  import opened TreeChanges

  /** `w` is `v` with another chain `c`, size or time for entry `e`, which is no directory. */
  ghost predicate FileChanged(v: Volume, w: Volume, e: nat, c: seq<nat>) {
    && Rechained(v, w, e, c) && Shape(w) && w.index == v.index
    && (forall i :: SameNode(v.meta, w.meta, i))
    && !IsDir(v.meta, e)
  }

  lemma FileChangedNode(v: Volume, w: Volume, e: nat, c: seq<nat>, j: nat)
    requires BlockInv(v) && FileChanged(v, w, e, c) && j != e
    ensures Kids(w, j) == Kids(v, j) && NodeAt(w, j) == NodeAt(v, j)
  {
    assert ChainOk(v, j) && Untouched(v, w, j);
    UntouchedKeeps(v, w, j);
  }

  lemma FileChangedKids(v: Volume, w: Volume, e: nat, c: seq<nat>, d: nat)
    requires BlockInv(v) && ChildInv(v) && FileChanged(v, w, e, c)
    ensures KidsOk(w, d)
  {
    assert SameNode(v.meta, w.meta, d);
    if IsDir(w.meta, d) {
      FileChangedNode(v, w, e, c, d);
      assert KidsOk(v, d);
      forall x ensures IsKid(w.meta, x, d) <==> IsKid(v.meta, x, d) {
        assert SameNode(v.meta, w.meta, x);
      }
    }
  }

  lemma FileChangedInv(v: Volume, w: Volume, e: nat, c: seq<nat>)
    requires Inv(v) && FileChanged(v, w, e, c)
    ensures Inv(w) && EntryChain(w, e) == c
  {
    RechainKeeps(v, w, e, c);
    SameTree(v.meta, w.meta);
    SameTreeIndex(v.meta, w.meta, v.index);
    forall d ensures KidsOk(w, d) {
      FileChangedKids(v, w, e, c, d);
    }
  }

  /** The one path whose node may differ is the path of `e`. */
  lemma FileChangedAbs(v: Volume, w: Volume, e: nat, c: seq<nat>)
    requires Inv(v) && FileChanged(v, w, e, c)
    ensures Live(v.meta, e) ==> Abs(w) == Abs(v)[PathTo(v.meta, e) := NodeAt(w, e)]
    ensures !Live(v.meta, e) ==> Abs(w) == Abs(v)
  {
    forall p | p in v.index ensures Points(v.meta, v.index, p) {
    }
    if Live(v.meta, e) {
      assert Indexed(v.meta, v.index, e);
    }
    forall p | p in v.index && v.index[p] != e ensures NodeAt(w, v.index[p]) == NodeAt(v, v.index[p]) {
      FileChangedNode(v, w, e, c, v.index[p]);
    }
  }

  // ---- A dead record ----

  /** What a dead record says does not matter. */
  lemma DeadEdit(v: Volume, w: Volume, i: nat, x: MetaEntry)
    requires Inv(v) && 1 <= i <= |v.meta| && !Live(v.meta, i) && x.valid != 0 && TypedEntry(x)
    requires w == v.(meta := v.meta[i - 1 := x])
    ensures Inv(w) && Abs(w) == Abs(v)
  {
    forall j | j != i ensures SameRecord(v, w, j) {
    }
    forall b ensures WriteOk(v, w, i, b) {
    }
    OthersUntouched(v, w, i);
    forall b | 1 <= b <= |v.blocks| ensures FlagMoved(v, w, i, [], b) {
    }
    forall j ensures SameNode(v.meta, w.meta, j) {
    }
    forall j | 0 <= j < |w.meta| ensures TypedEntry(w.meta[j]) {
      assert TypedEntry(v.meta[j]);
    }
    FileChangedInv(v, w, i, []);
    FileChangedAbs(v, w, i, []);
  }
}
