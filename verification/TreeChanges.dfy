/** How adding, dropping and moving one entry changes the tree, its paths and its index. */
module TreeChanges {
  import opened Bytes
  import opened Paths
  import opened Tree

  lemma LiveClimbs(meta: table, i: nat) returns (k: nat)
    requires TreeInv(meta) && Live(meta, i)
    ensures Climb(meta, i, k) && Toks(meta, i) == Parts(meta, i, k) && |Toks(meta, i)| == k
  {
    assert NodeOk(meta, i);
    k :| Climb(meta, i, k);
    ToksAre(meta, i, k);
  }

  lemma SamePath(meta: table, i: nat, j: nat)
    requires TreeInv(meta)
    ensures PathTo(meta, i) == PathTo(meta, j) <==> Toks(meta, i) == Toks(meta, j)
  {
    ToksNames(meta, i);
    ToksNames(meta, j);
    if PathTo(meta, i) == PathTo(meta, j) {
      PathInjective(Toks(meta, i), Toks(meta, j));
    }
  }

  lemma NodeStays(a: table, b: table, e: nat, i: nat)
    requires TreeInv(a) && SameBut(a, b, e) && Live(a, i) && i != e
    requires i != 1 && Par(a, i) == e ==> IsDir(b, e)
    requires Rooted(b, i)
    ensures NodeOk(b, i)
  {
    assert NodeOk(a, i) && SameNode(a, b, i);
    if i != 1 && Par(a, i) != e {
      assert SameNode(a, b, Par(a, i));
    }
  }

  lemma RootStays(a: table, b: table, e: nat)
    requires TreeInv(a) && SameBut(a, b, e) && e != 1
    ensures IsDir(b, 1) && Par(b, 1) == 0
  {
    assert SameNode(a, b, 1);
  }

  // ---- The same tree ----

  lemma SameTree(a: table, b: table)
    requires TreeInv(a) && |a| == |b| && forall i :: SameNode(a, b, i)
    ensures TreeInv(b)
    ensures forall i | Live(b, i) :: Toks(b, i) == Toks(a, i)
  {
    RootStays(a, b, 0);
    forall i | Live(b, i) ensures NodeOk(b, i) && Toks(b, i) == Toks(a, i) {
      assert SameNode(a, b, i);
      var k := LiveClimbs(a, i);
      NotThroughDead(a, i, k, 0);
      AvoidToks(a, b, 0, i, k);
      assert NodeOk(a, i);
      NodeStays(a, b, 0, i);
    }
    forall i | 1 <= i <= |b| ensures NodeOk(b, i) {
    }
  }

  lemma SameTreeIndex(a: table, b: table, index: map<bytes, nat>)
    requires TreeInv(a) && IndexInv(a, index) && |a| == |b| && forall i :: SameNode(a, b, i)
    ensures IndexInv(b, index)
  {
    SameTree(a, b);
    forall i | Live(b, i) ensures Indexed(b, index, i) {
      assert SameNode(a, b, i) && Indexed(a, index, i);
    }
    forall p ensures Points(b, index, p) {
      assert Points(a, index, p);
      if p in index {
        assert SameNode(a, b, index[p]);
      }
    }
  }

  // ---- A new entry ----

  ghost predicate Added(a: table, b: table, e: nat) {
    && SameBut(a, b, e) && !Live(a, e) && Live(b, e) && e != 1
    && b[e - 1].kind < 2 && IsDir(a, Par(b, e)) && StoredName(NameOf(b, e))
  }

  lemma AddedOld(a: table, b: table, e: nat, i: nat)
    requires TreeInv(a) && Added(a, b, e) && Live(a, i)
    ensures NodeOk(b, i) && Toks(b, i) == Toks(a, i)
  {
    var k := LiveClimbs(a, i);
    NotThroughDead(a, i, k, e);
    AvoidToks(a, b, e, i, k);
    assert NodeOk(a, i);
    NodeStays(a, b, e, i);
  }

  lemma AddedNew(a: table, b: table, e: nat)
    requires TreeInv(a) && Added(a, b, e)
    ensures NodeOk(b, e) && Toks(b, e) == Toks(a, Par(b, e)) + [NameOf(b, e)]
  {
    var p := Par(b, e);
    var k := LiveClimbs(a, p);
    NotThroughDead(a, p, k, e);
    Avoid(a, b, e, p, k);
    assert SameNode(a, b, p);
    assert Climb(b, e, k + 1);
    ToksAre(b, e, k + 1);
    assert Rooted(b, e);
  }

  lemma AddNode(a: table, b: table, e: nat)
    requires TreeInv(a) && Added(a, b, e)
    ensures TreeInv(b)
    ensures PathTo(b, e) == Child(PathTo(a, Par(b, e)), NameOf(b, e))
    ensures forall i | Live(a, i) :: Live(b, i) && Toks(b, i) == Toks(a, i)
  {
    RootStays(a, b, e);
    AddedNew(a, b, e);
    forall i | Live(a, i) ensures Live(b, i) && NodeOk(b, i) && Toks(b, i) == Toks(a, i) {
      assert SameNode(a, b, i);
      AddedOld(a, b, e, i);
    }
    forall i | 1 <= i <= |b| ensures NodeOk(b, i) {
      if i != e {
        assert SameNode(a, b, i);
      }
    }
    ToksNames(a, Par(b, e));
    PathSnoc(Toks(a, Par(b, e)), NameOf(b, e));
  }

  /** One insert gives the exact index of the larger tree, if the path is new. */
  lemma AddNodeIndex(a: table, b: table, e: nat, index: map<bytes, nat>)
    requires TreeInv(a) && Added(a, b, e) && IndexInv(a, index)
    requires PathTo(b, e) !in index
    ensures IndexInv(b, index[PathTo(b, e) := e])
  {
    var index' := index[PathTo(b, e) := e];
    AddNode(a, b, e);
    forall i | Live(b, i) ensures Indexed(b, index', i) {
      if i != e {
        assert SameNode(a, b, i) && Indexed(a, index, i);
      }
    }
    forall p ensures Points(b, index', p) {
      assert Points(a, index, p);
    }
  }

  /** If the path is taken, no index is exact. */
  lemma AddNodeClash(a: table, b: table, e: nat, index: map<bytes, nat>, index': map<bytes, nat>)
    requires TreeInv(a) && Added(a, b, e) && IndexInv(a, index)
    requires PathTo(b, e) in index
    ensures !IndexInv(b, index')
  {
    AddNode(a, b, e);
    var x := index[PathTo(b, e)];
    assert Points(a, index, PathTo(b, e));
    assert Live(b, x) && PathTo(b, x) == PathTo(b, e);
    if IndexInv(b, index') {
      IndexMeansDistinct(b, index');
    }
  }

  // ---- An entry less ----

  ghost predicate Dropped(a: table, b: table, e: nat) {
    SameBut(a, b, e) && Live(a, e) && !Live(b, e) && e != 1 && Childless(a, e)
  }

  lemma DropNode(a: table, b: table, e: nat)
    requires TreeInv(a) && Dropped(a, b, e)
    ensures TreeInv(b)
    ensures forall i | Live(b, i) :: Live(a, i) && i != e && Toks(b, i) == Toks(a, i)
  {
    RootStays(a, b, e);
    forall i | Live(b, i) ensures Live(a, i) && i != e && NodeOk(b, i) && Toks(b, i) == Toks(a, i) {
      assert SameNode(a, b, i);
      var k := LiveClimbs(a, i);
      NotThroughChildless(a, i, k, e);
      AvoidToks(a, b, e, i, k);
      NodeStays(a, b, e, i);
    }
    forall i | 1 <= i <= |b| ensures NodeOk(b, i) {
    }
  }

  lemma DropNodeIndex(a: table, b: table, e: nat, index: map<bytes, nat>)
    requires TreeInv(a) && Dropped(a, b, e) && IndexInv(a, index)
    ensures IndexInv(b, index - {PathTo(a, e)})
  {
    var index' := index - {PathTo(a, e)};
    DropNode(a, b, e);
    assert Indexed(a, index, e);
    forall i | Live(b, i) ensures Indexed(b, index', i) {
      assert Indexed(a, index, i);
    }
    forall p ensures Points(b, index', p) {
      assert Points(a, index, p);
      if p in index' {
        assert SameNode(a, b, index[p]);
      }
    }
  }

  /** A rebuilt index is the exact one, if there is one. */
  lemma RebuildIs(meta: table, index: map<bytes, nat>)
    requires IndexInv(meta, index)
    ensures Rebuild(meta, |meta|) == index
  {
    IndexMeansDistinct(meta, index);
    RebuildExact(meta);
    IndexUnique(meta, Rebuild(meta, |meta|), index);
  }

  // ---- A moved entry ----

  lemma {:induction false} PrefixIsAncestor(meta: table, j: nat, k: nat, t: seq<bytes>) returns (x: nat)
    requires TreeInv(meta) && Climb(meta, j, k) && t <= Toks(meta, j)
    ensures Live(meta, x) && Toks(meta, x) == t
    ensures Through(meta, j, k, x)
    decreases k
  {
    ToksAre(meta, j, k);
    if |t| == k {
      x := j;
    } else {
      ToksStep(meta, j);
      x := PrefixIsAncestor(meta, Par(meta, j), k - 1, t);
    }
  }

  /** Walking up from `j` passes `e` exactly when the path of `e` is a prefix of the path of `j`. */
  lemma ThroughIffPrefix(meta: table, index: map<bytes, nat>, j: nat, k: nat, e: nat)
    requires TreeInv(meta) && IndexInv(meta, index) && Climb(meta, j, k) && Live(meta, e)
    ensures Through(meta, j, k, e) <==> Toks(meta, e) <= Toks(meta, j)
  {
    if Toks(meta, e) <= Toks(meta, j) {
      var x := PrefixIsAncestor(meta, j, k, Toks(meta, e));
      assert Indexed(meta, index, x) && Indexed(meta, index, e);
    }
    if Through(meta, j, k, e) {
      var ke := LiveClimbs(meta, e);
      assert SameBut(meta, meta, e);
      ToksAre(meta, j, k);
      Follow(meta, meta, e, j, k, ke, ke);
    }
  }

  ghost predicate MovedTo(a: table, b: table, e: nat, np: nat) {
    && SameBut(a, b, e) && Live(a, e) && Live(b, e) && e != 1
    && b[e - 1].kind == a[e - 1].kind && Par(b, e) == np && IsDir(a, np) && StoredName(NameOf(b, e))
  }

  /** The names that entry `j` has once `e` is called `t`. */
  function Retarget(a: table, e: nat, t: seq<bytes>, j: nat): seq<bytes> {
    if Toks(a, e) <= Toks(a, j) then t + Toks(a, j)[|Toks(a, e)|..] else Toks(a, j)
  }

  /** The moved entry itself, when its new directory is not below it. */
  lemma MovedItself(a: table, b: table, e: nat, np: nat, index: map<bytes, nat>) returns (kb: nat)
    requires TreeInv(a) && IndexInv(a, index) && MovedTo(a, b, e, np) && !(Toks(a, e) <= Toks(a, np))
    ensures Climb(b, e, kb) && Toks(b, e) == Parts(b, e, kb) == Toks(a, np) + [NameOf(b, e)]
  {
    var kn := LiveClimbs(a, np);
    ThroughIffPrefix(a, index, np, kn, e);
    Avoid(a, b, e, np, kn);
    kb := kn + 1;
    assert Climb(b, e, kb);
    ToksAre(b, e, kb);
  }

  lemma MovedOther(a: table, b: table, e: nat, np: nat, index: map<bytes, nat>, j: nat, kb: nat)
    requires TreeInv(a) && IndexInv(a, index) && MovedTo(a, b, e, np) && Climb(b, e, kb)
    requires Toks(b, e) == Parts(b, e, kb) && Live(a, j)
    ensures Rooted(b, j) && Toks(b, j) == Retarget(a, e, Toks(b, e), j)
  {
    var ke := LiveClimbs(a, e);
    var k := LiveClimbs(a, j);
    ThroughIffPrefix(a, index, j, k, e);
    if Through(a, j, k, e) {
      Follow(a, b, e, j, k, ke, kb);
      ToksAre(b, j, kb + k - ke);
    } else {
      AvoidToks(a, b, e, j, k);
    }
  }

  /** Moving an entry out of its own subtree keeps the tree, and rewrites exactly the paths
      that start with the old one. */
  lemma MoveNode(a: table, b: table, e: nat, np: nat, index: map<bytes, nat>)
    requires TreeInv(a) && IndexInv(a, index) && MovedTo(a, b, e, np) && !(Toks(a, e) <= Toks(a, np))
    ensures TreeInv(b) && Toks(b, e) == Toks(a, np) + [NameOf(b, e)]
    ensures forall j | Live(a, j) :: Live(b, j) && Toks(b, j) == Retarget(a, e, Toks(b, e), j)
  {
    var kb := MovedItself(a, b, e, np, index);
    RootStays(a, b, e);
    assert NodeOk(a, e);
    assert SameNode(a, b, np);
    forall j | Live(a, j) ensures Live(b, j) && NodeOk(b, j) && Toks(b, j) == Retarget(a, e, Toks(b, e), j) {
      MovedOther(a, b, e, np, index, j, kb);
      if j != e {
        assert SameNode(a, b, j) && NodeOk(a, j);
        NodeStays(a, b, e, j);
      }
    }
    forall i | 1 <= i <= |b| ensures NodeOk(b, i) {
      if i != e {
        assert SameNode(a, b, i);
      }
    }
  }

  /** Moving an entry below itself cuts it off from the root. */
  lemma MoveBelowItself(a: table, b: table, e: nat, np: nat, index: map<bytes, nat>)
    requires TreeInv(a) && IndexInv(a, index) && MovedTo(a, b, e, np) && Toks(a, e) <= Toks(a, np)
    ensures !TreeInv(b)
  {
    if TreeInv(b) {
      assert NodeOk(b, e);
      var kb: nat :| Climb(b, e, kb);
      var ka := LiveClimbs(a, e);
      var kn := LiveClimbs(a, np);
      ThroughIffPrefix(a, index, np, kn, e);
      Follow(a, b, e, np, kn, ka, kb);
      ClimbUnique(b, np, kb - 1, kb + kn - ka);
    }
  }

  /** No other entry has the path that `e` moves to. */
  ghost predicate TargetFree(a: table, e: nat, t: seq<bytes>) {
    forall x | Live(a, x) && Toks(a, x) == t :: x == e
  }

  lemma RetargetInjective(a: table, e: nat, t: seq<bytes>, index: map<bytes, nat>, i: nat, j: nat)
    requires TreeInv(a) && IndexInv(a, index) && TargetFree(a, e, t)
    requires Live(a, e) && Live(a, i) && Live(a, j) && Retarget(a, e, t, i) == Retarget(a, e, t, j)
    ensures i == j
  {
    var ti, tj, te := Toks(a, i), Toks(a, j), Toks(a, e);
    if te <= ti && te <= tj {
      assert ti[|te|..] == (t + ti[|te|..])[|t|..] == tj[|te|..];
      assert ti == te + ti[|te|..] && tj == te + tj[|te|..];
    } else if te <= ti {
      RetargetCross(a, e, t, index, j);
    } else if te <= tj {
      RetargetCross(a, e, t, index, i);
    }
    assert Indexed(a, index, i) && Indexed(a, index, j);
  }

  lemma RetargetCross(a: table, e: nat, t: seq<bytes>, index: map<bytes, nat>, j: nat)
    requires TreeInv(a) && IndexInv(a, index) && TargetFree(a, e, t)
    requires Live(a, e) && Live(a, j) && !(Toks(a, e) <= Toks(a, j))
    ensures !(t <= Toks(a, j))
  {
    if t <= Toks(a, j) {
      var k := LiveClimbs(a, j);
      var x := PrefixIsAncestor(a, j, k, t);
      ThroughIffPrefix(a, index, j, k, x);
    }
  }

  /** After a move to a free path the live entries have distinct paths again. */
  lemma MoveNodeDistinct(a: table, b: table, e: nat, np: nat, index: map<bytes, nat>)
    requires TreeInv(a) && IndexInv(a, index) && MovedTo(a, b, e, np) && !(Toks(a, e) <= Toks(a, np))
    requires TargetFree(a, e, Toks(a, np) + [NameOf(b, e)])
    ensures DistinctPaths(b)
  {
    MoveNode(a, b, e, np, index);
    forall i, j | Live(b, i) && Live(b, j) && PathTo(b, i) == PathTo(b, j) ensures i == j {
      assert SameNode(a, b, i) || i == e;
      assert SameNode(a, b, j) || j == e;
      SamePath(b, i, j);
      RetargetInjective(a, e, Toks(b, e), index, i, j);
    }
  }
}
