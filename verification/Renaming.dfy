/** `file_rename`, for files and whole directories: when a success is sound, and how every
    path below the moved entry changes. */
module Renaming {
  import opened Bytes
  import opened Counting
  import opened Bitmap
  import opened Chains
  import opened Paths
  import opened Tree
  import opened State
  import opened Ops
  import opened Directories
  import opened TreeChanges
  import opened Editing
  import opened Deleting
  import opened Creating

  // ---- The new name ----

  lemma {:induction false} LastSlashIs(p: bytes, n: nat)
    requires n <= |p|
    ensures var r := LastSlash(p, n);
            && (r < n ==> p[r] == SLASH) && (forall k | r < k < n :: p[k] != SLASH)
            && (r == n ==> forall k | 0 <= k < n :: p[k] != SLASH)
  {
    if n > 0 {
      LastSlashIs(p, n - 1);
    }
  }

  lemma NewNameIsStored(p: bytes)
    requires 0 !in p && NewBaseOf(p) != [] && |NewBaseOf(p)| <= NAME_MAX
    ensures StoredName(NewBaseOf(p))
  {
    LastSlashIs(p, |p|);
  }

  // ---- The record changes, the blocks do not ----

  /** Entry `i` gets another name, parent and time. */
  lemma RecordOnly(x: Volume, i: nat, e: MetaEntry)
    requires Shape(x) && BlockInv(x) && Live(x.meta, i) && TypedEntry(e)
    requires e.valid == 0 && e.kind == x.meta[i - 1].kind && e.start == x.meta[i - 1].start
      && e.size == x.meta[i - 1].size
    ensures var w := SetEntry(x, i, e);
            && Shape(w) && BlockInv(w) && SameDisk(x, w)
            && forall j :: Untouched(x, w, j) && EntryChain(w, j) == EntryChain(x, j)
  {
    var w := SetEntry(x, i, e);
    forall j | 0 <= j < |w.meta| ensures TypedEntry(w.meta[j]) {
      assert TypedEntry(x.meta[j]);
    }
    OwnGains(x, i);
    forall b ensures WriteOk(x, w, i, b) {
    }
    forall j | j != i ensures SameRecord(x, w, j) {
    }
    OthersUntouched(x, w, i);
    OwnFlagsKept(x, w, i);
    assert ChainOk(x, i);
    RechainKeeps(x, w, i, EntryChain(x, i));
    assert Untouched(x, w, i) by {
      forall k | 0 <= k < |EntryChain(x, i)| ensures SameBlock(x.blocks, w.blocks, EntryChain(x, i)[k]) {
        assert Gains(x, i, EntryChain(x, i)[k]);
      }
    }
  }

  lemma RecordOnlyKids(x: Volume, i: nat, e: MetaEntry, d: nat)
    requires Shape(x) && BlockInv(x) && Live(x.meta, i) && TypedEntry(e)
    requires e.valid == 0 && e.kind == x.meta[i - 1].kind && e.start == x.meta[i - 1].start
      && e.size == x.meta[i - 1].size
    ensures Kids(SetEntry(x, i, e), d) == Kids(x, d) && NodeAt(SetEntry(x, i, e), d) == NodeAt(x, d)
  {
    RecordOnly(x, i, e);
    assert ChainOk(x, d) && Untouched(x, SetEntry(x, i, e), d);
    UntouchedKeeps(x, SetEntry(x, i, e), d);
  }

  /** The state in which the entry is renamed but listed nowhere. */
  lemma RenamedKeeps(v: Volume, i: nat, np: nat, name: bytes, now: nat)
    requires Inv(v) && Live(v.meta, i) && i != 1 && StoredName(name) && np < U32 && now < U64
    ensures var y := Renamed(v, i, np, name, now);
            && RemoveChild(v, Par(v.meta, i), i).1
            && Shape(y) && BlockInv(y) && SameDisk(v, y) && y.index == v.index && y.used == v.used
            && y.meta == v.meta[i - 1 := RenamedRecord(v.meta[i - 1], name, np, now)]
            && Kids(y, Par(v.meta, i)) == RemoveFirst(Kids(v, Par(v.meta, i)), i)
            && StartOf(v, Par(v.meta, i)) != 0
  {
    var x := Unlisted(v, i);
    UnlistKeeps(v, i);
    assert TypedEntry(v.meta[i - 1]);
    var e := RenamedRecord(v.meta[i - 1], name, np, now);
    RecordOnly(x, i, e);
    RecordOnlyKids(x, i, e, Par(v.meta, i));
  }

  lemma UnlistedOther(v: Volume, i: nat, j: nat)
    requires Inv(v) && Live(v.meta, i) && i != 1
    ensures NodeAt(Unlisted(v, i), j) == NodeAt(v, j)
    ensures j != Par(v.meta, i) ==> Kids(Unlisted(v, i), j) == Kids(v, j)
  {
    UnlistKeeps(v, i);
    Listed(v, i);
    if j != Par(v.meta, i) {
      assert ChainOk(v, j) && Untouched(v, Unlisted(v, i), j);
      UntouchedKeeps(v, Unlisted(v, i), j);
    }
  }

  lemma RenamedOther(v: Volume, i: nat, np: nat, name: bytes, now: nat, j: nat)
    requires Inv(v) && Live(v.meta, i) && i != 1 && StoredName(name) && np < U32 && now < U64
    ensures var y := Renamed(v, i, np, name, now);
            && NodeAt(y, j) == NodeAt(v, j)
            && (j != Par(v.meta, i) ==> Kids(y, j) == Kids(v, j))
  {
    UnlistedOther(v, i, j);
    UnlistKeeps(v, i);
    assert TypedEntry(v.meta[i - 1]);
    RecordOnlyKids(Unlisted(v, i), i, RenamedRecord(v.meta[i - 1], name, np, now), j);
  }

  // ---- The entry in its new directory ----

  /** `i` is renamed and listed in `np`, with room. */
  predicate RoomToMove(v: Volume, i: nat, np: nat) {
    np == Par(v.meta, i) || |Kids(v, np)| < Room(v)
  }

  function Placed(v: Volume, i: nat, np: nat, name: bytes, now: nat): (w: Volume)
    requires 1 <= i <= |v.meta|
  {
    AddChild(Renamed(v, i, np, name, now), np, i).0
  }

  ghost predicate MoveReady(v: Volume, i: nat, np: nat, name: bytes, now: nat) {
    && Inv(v) && Live(v.meta, i) && i != 1 && StoredName(name) && IsDir(v.meta, np) && now < U64
    && AddChild(Renamed(v, i, np, name, now), np, i).1
  }

  lemma PlacedMoves(v: Volume, i: nat, np: nat, name: bytes, now: nat)
    requires Live(v.meta, i) && i != 1 && StoredName(name) && IsDir(v.meta, np)
    requires Renamed(v, i, np, name, now).meta == v.meta[i - 1 := RenamedRecord(v.meta[i - 1], name, np, now)]
    ensures var w := Placed(v, i, np, name, now);
            MovedTo(v.meta, w.meta, i, np) && NameOf(w.meta, i) == name
  {
    var y, w := Renamed(v, i, np, name, now), Placed(v, i, np, name, now);
    AddChildNodes(y, np, i, i);
    forall j | j != i ensures SameNode(v.meta, w.meta, j) {
      AddChildNodes(y, np, i, j);
    }
  }

  lemma RenamedIsDir(v: Volume, i: nat, np: nat, name: bytes, now: nat)
    requires Live(v.meta, i) && IsDir(v.meta, np) && i < U32
    requires Renamed(v, i, np, name, now).meta == v.meta[i - 1 := RenamedRecord(v.meta[i - 1], name, np, now)]
    ensures IsDir(Renamed(v, i, np, name, now).meta, np)
  {
  }

  lemma ListGrows(y: Volume, np: nat, i: nat)
    requires Shape(y) && BlockInv(y) && IsDir(y.meta, np) && 1 <= i < U32 && AddChild(y, np, i).1
    ensures ListKept(y, AddChild(y, np, i).0, np, Kids(y, np) + [i])
  {
    AddChildKeeps(y, np, i);
  }

  lemma PlacedList(v: Volume, i: nat, np: nat, name: bytes, now: nat)
    requires MoveReady(v, i, np, name, now)
    ensures var y := Renamed(v, i, np, name, now); ListKept(y, Placed(v, i, np, name, now), np, Kids(y, np) + [i])
  {
    RenamedKeeps(v, i, np, name, now);
    RenamedIsDir(v, i, np, name, now);
    ListGrows(Renamed(v, i, np, name, now), np, i);
  }

  lemma PlacedKeeps(v: Volume, i: nat, np: nat, name: bytes, now: nat)
    requires MoveReady(v, i, np, name, now)
    ensures var w, y := Placed(v, i, np, name, now), Renamed(v, i, np, name, now);
            && Shape(w) && BlockInv(w) && SameDisk(v, w) && w.index == v.index
            && (forall j | j != np :: Untouched(y, w, j))
            && Kids(w, np) == Take(Kids(y, np) + [i], Room(v))
            && MovedTo(v.meta, w.meta, i, np) && NameOf(w.meta, i) == name
  {
    RenamedKeeps(v, i, np, name, now);
    PlacedMoves(v, i, np, name, now);
    PlacedList(v, i, np, name, now);
  }

  lemma MovedKid(a: table, b: table, i: nat, np: nat, c: nat, d: nat)
    requires MovedTo(a, b, i, np)
    ensures IsKid(b, c, d) <==> if c == i then d == np else IsKid(a, c, d)
    ensures IsDir(b, d) <==> IsDir(a, d)
  {
    assert c != i ==> SameNode(a, b, c);
    assert d != i ==> SameNode(a, b, d);
  }

  lemma PlacedOther(v: Volume, i: nat, np: nat, name: bytes, now: nat, j: nat)
    requires MoveReady(v, i, np, name, now) && j != np
    ensures var y, w := Renamed(v, i, np, name, now), Placed(v, i, np, name, now);
            NodeAt(w, j) == NodeAt(y, j) && Kids(w, j) == Kids(y, j)
  {
    var y, w := Renamed(v, i, np, name, now), Placed(v, i, np, name, now);
    RenamedKeeps(v, i, np, name, now);
    PlacedList(v, i, np, name, now);
    assert ChainOk(y, j) && Untouched(y, w, j);
    UntouchedKeeps(y, w, j);
  }

  lemma PlacedFolder(v: Volume, i: nat, np: nat, name: bytes, now: nat)
    requires MoveReady(v, i, np, name, now)
    ensures IsDir(Placed(v, i, np, name, now).meta, np)
  {
    PlacedKeeps(v, i, np, name, now);
    MovedKid(v.meta, Placed(v, i, np, name, now).meta, i, np, i, np);
  }

  lemma PlacedNode(v: Volume, i: nat, np: nat, name: bytes, now: nat, j: nat)
    requires MoveReady(v, i, np, name, now)
    ensures NodeAt(Placed(v, i, np, name, now), j) == NodeAt(v, j)
    ensures j != np ==> Kids(Placed(v, i, np, name, now), j) == Kids(Renamed(v, i, np, name, now), j)
  {
    RenamedOther(v, i, np, name, now, j);
    if j != np {
      PlacedOther(v, i, np, name, now, j);
    } else {
      PlacedFolder(v, i, np, name, now);
    }
  }

  /** The list of directory `d` without entry `i`. */
  function KidsWithout(v: Volume, i: nat, d: nat): seq<nat> {
    if d == Par(v.meta, i) then RemoveFirst(Kids(v, d), i) else Kids(v, d)
  }

  /** The list of the new directory, with the entry out of the old one's, has room for one more. */
  lemma RoomForMoved(v: Volume, i: nat, np: nat)
    requires Inv(v) && Live(v.meta, i) && i != 1 && IsDir(v.meta, np) && RoomToMove(v, i, np)
    ensures |KidsWithout(v, i, np)| < Room(v)
  {
    Listed(v, i);
    RemoveFirstOf(Kids(v, Par(v.meta, i)), i);
    DirShape(v, Par(v.meta, i));
  }

  lemma RenamedKids(v: Volume, i: nat, np: nat, name: bytes, now: nat, d: nat)
    requires Inv(v) && Live(v.meta, i) && i != 1 && StoredName(name) && np < U32 && now < U64
    ensures Kids(Renamed(v, i, np, name, now), d) == KidsWithout(v, i, d)
  {
    RenamedKeeps(v, i, np, name, now);
    RenamedOther(v, i, np, name, now, d);
  }

  lemma TakeAll(s: seq<nat>, n: nat)
    requires |s| <= n
    ensures Take(s, n) == s
  {
  }

  lemma PlacedKidsAre(v: Volume, i: nat, np: nat, name: bytes, now: nat, d: nat)
    requires MoveReady(v, i, np, name, now) && RoomToMove(v, i, np) && IsDir(v.meta, d)
    ensures Kids(Placed(v, i, np, name, now), d) == if d == np then KidsWithout(v, i, d) + [i] else KidsWithout(v, i, d)
  {
    assert np < U32;
    RenamedKids(v, i, np, name, now, d);
    if d == np {
      PlacedKeeps(v, i, np, name, now);
      RoomForMoved(v, i, np);
      TakeAll(KidsWithout(v, i, d) + [i], Room(v));
    } else {
      PlacedNode(v, i, np, name, now, d);
    }
  }

  lemma MovedList(k: seq<nat>, i: nat, op: bool, np: bool) returns (r: seq<nat>)
    requires Distinct(k) && (i in k <==> op)
    ensures r == (var u := if op then RemoveFirst(k, i) else k; if np then u + [i] else u)
    ensures Distinct(r) && forall c :: c in r <==> if c == i then np else c in k
  {
    RemoveFirstOf(k, i);
    var u := if op then RemoveFirst(k, i) else k;
    assert i !in u;
    r := if np then u + [i] else u;
  }

  lemma PlacedKids(v: Volume, i: nat, np: nat, name: bytes, now: nat, d: nat)
    requires MoveReady(v, i, np, name, now) && RoomToMove(v, i, np)
    ensures KidsOk(Placed(v, i, np, name, now), d)
  {
    var w := Placed(v, i, np, name, now);
    PlacedKeeps(v, i, np, name, now);
    MovedKid(v.meta, w.meta, i, np, i, d);
    if IsDir(v.meta, d) {
      PlacedKidsAre(v, i, np, name, now, d);
      assert KidsOk(v, d);
      assert i in Kids(v, d) <==> IsKid(v.meta, i, d);
      var r := MovedList(Kids(v, d), i, d == Par(v.meta, i), d == np);
      forall c ensures c in Kids(w, d) <==> IsKid(w.meta, c, d) {
        MovedKid(v.meta, w.meta, i, np, c, d);
        assert c in Kids(v, d) <==> IsKid(v.meta, c, d);
      }
    }
  }

  lemma NoRoomLosesChild(v: Volume, i: nat, np: nat, name: bytes, now: nat)
    requires MoveReady(v, i, np, name, now) && !RoomToMove(v, i, np)
    ensures !ChildInv(Placed(v, i, np, name, now))
  {
    var w := Placed(v, i, np, name, now);
    PlacedKeeps(v, i, np, name, now);
    RenamedOther(v, i, np, name, now, np);
    DirShape(v, np);
    assert KidsOk(v, np) && !IsKid(v.meta, i, np);
    assert Kids(w, np) == Kids(v, np);
    assert IsKid(w.meta, i, np);
    assert SameNode(v.meta, w.meta, np) || np == i;
    assert !KidsOk(w, np);
  }

  // ---- Sound or not ----

  /** The new directory is neither the moved entry nor below it. */
  predicate Outside(v: Volume, i: nat, np: nat) {
    !(Toks(v.meta, i) <= Toks(v.meta, np))
  }

  /** The path the entry gets belongs to no other entry. */
  predicate TargetPathFree(v: Volume, i: nat, np: nat, name: bytes) {
    var t := Child(PathTo(v.meta, np), name);
    t in v.index ==> v.index[t] == i
  }

  lemma TargetToks(v: Volume, i: nat, np: nat, name: bytes)
    requires Inv(v) && Live(v.meta, np) && IsName(name)
    ensures PathOf(Toks(v.meta, np) + [name]) == Child(PathTo(v.meta, np), name)
    ensures TargetPathFree(v, i, np, name) <==> TargetFree(v.meta, i, Toks(v.meta, np) + [name])
  {
    var t := Toks(v.meta, np) + [name];
    ToksNames(v.meta, np);
    PathSnoc(Toks(v.meta, np), name);
    if TargetPathFree(v, i, np, name) {
      forall x | Live(v.meta, x) && Toks(v.meta, x) == t ensures x == i {
        assert Indexed(v.meta, v.index, x);
      }
    }
    if TargetFree(v.meta, i, t) && PathOf(t) in v.index {
      var x := v.index[PathOf(t)];
      assert Points(v.meta, v.index, PathOf(t));
      ToksNames(v.meta, x);
      PathInjective(Toks(v.meta, x), t);
    }
  }

  predicate MoveFits(v: Volume, i: nat, np: nat, name: bytes) {
    Outside(v, i, np) && TargetPathFree(v, i, np, name) && RoomToMove(v, i, np)
  }

  lemma MoveSound(v: Volume, i: nat, np: nat, name: bytes, now: nat)
    requires MoveReady(v, i, np, name, now) && MoveFits(v, i, np, name)
    ensures Inv(Reindexed(Placed(v, i, np, name, now)))
  {
    var w := Placed(v, i, np, name, now);
    PlacedKeeps(v, i, np, name, now);
    TargetToks(v, i, np, name);
    MoveNode(v.meta, w.meta, i, np, v.index);
    MoveNodeDistinct(v.meta, w.meta, i, np, v.index);
    RebuildExact(w.meta);
    forall d ensures KidsOk(w, d) {
      PlacedKids(v, i, np, name, now, d);
    }
    ReindexedOnly(w);
  }

  lemma PrefixOfSnoc<T>(a: seq<T>, b: seq<T>, x: T)
    ensures a <= b + [x] ==> a <= b || a == b + [x]
  {
    if a <= b + [x] && |a| <= |b| {
      assert (b + [x])[..|a|] == b[..|a|];
    }
  }

  lemma ClashMeansTwice(v: Volume, i: nat, np: nat, name: bytes, now: nat)
    requires MoveReady(v, i, np, name, now) && Outside(v, i, np) && !TargetPathFree(v, i, np, name)
    ensures !DistinctPaths(Placed(v, i, np, name, now).meta)
  {
    var w := Placed(v, i, np, name, now);
    PlacedKeeps(v, i, np, name, now);
    TargetToks(v, i, np, name);
    MoveNode(v.meta, w.meta, i, np, v.index);
    var t := Toks(v.meta, np) + [name];
    var x :| Live(v.meta, x) && Toks(v.meta, x) == t && x != i;
    assert Indexed(v.meta, v.index, x) && Indexed(v.meta, v.index, i);
    PrefixOfSnoc(Toks(v.meta, i), Toks(v.meta, np), name);
    assert Live(w.meta, x) && PathTo(w.meta, x) == PathTo(w.meta, i);
  }

  lemma MoveUnsound(v: Volume, i: nat, np: nat, name: bytes, now: nat)
    requires MoveReady(v, i, np, name, now) && Inv(Reindexed(Placed(v, i, np, name, now)))
    ensures MoveFits(v, i, np, name)
  {
    var w := Placed(v, i, np, name, now);
    PlacedKeeps(v, i, np, name, now);
    ReindexedOnly(w);
    if !Outside(v, i, np) {
      MoveBelowItself(v.meta, w.meta, i, np, v.index);
    }
    if !TargetPathFree(v, i, np, name) {
      ClashMeansTwice(v, i, np, name, now);
      IndexMeansDistinct(w.meta, Reindexed(w).index);
    }
    if !RoomToMove(v, i, np) {
      NoRoomLosesChild(v, i, np, name, now);
    }
  }

  // ---- The operation ----

  /** The checks that `file_rename` makes before it changes anything. */
  predicate Renamable(v: Volume, oldPath: bytes, newPath: bytes) {
    && oldPath != [] && newPath != [] && oldPath in v.index && Live(v.meta, v.index[oldPath])
    && newPath !in v.index && LastSlash(newPath, |newPath|) != |newPath|
    && NewBaseOf(newPath) != [] && |NewBaseOf(newPath)| <= NAME_MAX
    && IsDir(v.meta, Target(v, newPath))
    && 0 < Par(v.meta, v.index[oldPath]) <= |v.meta|
  }

  lemma RenameGuards(v: Volume, oldPath: bytes, newPath: bytes, now: nat)
    ensures !Renamable(v, oldPath, newPath) ==>
      RenameEntry(v, oldPath, newPath, now).0 == v && RenameEntry(v, oldPath, newPath, now).1 != Success
    ensures Renamable(v, oldPath, newPath) ==>
      RenameEntry(v, oldPath, newPath, now)
        == Relocated(v, v.index[oldPath], Target(v, newPath), NewBaseOf(newPath), now)
  {
  }

  lemma RenamableFacts(v: Volume, oldPath: bytes, newPath: bytes)
    requires Inv(v) && Renamable(v, oldPath, newPath) && 0 !in newPath
    ensures var i, np := v.index[oldPath], Target(v, newPath);
            && i != 1 && PathTo(v.meta, i) == oldPath && StoredName(NewBaseOf(newPath))
            && PathTo(v.meta, np) == NewDirOf(newPath) && np < U32
  {
    NewNameIsStored(newPath);
    assert Points(v.meta, v.index, oldPath);
    assert Points(v.meta, v.index, NewDirOf(newPath));
  }

  /** Back in the old directory, for want of a block in the new one. */
  lemma RolledBack(v: Volume, i: nat, name: bytes, now: nat)
    requires Inv(v) && Live(v.meta, i) && i != 1 && StoredName(name) && now < U64
    ensures var w := Placed(v, i, Par(v.meta, i), name, now);
            Inv(w) <==> name == NameOf(v.meta, i)
  {
    var op := Par(v.meta, i);
    var w := Placed(v, i, op, name, now);
    Listed(v, i);
    RenamedKeeps(v, i, op, name, now);
    assert StartOf(Renamed(v, i, op, name, now), op) == StartOf(v, op);
    assert MoveReady(v, i, op, name, now);
    PlacedKeeps(v, i, op, name, now);
    ToksStep(v.meta, i);
    assert Outside(v, i, op);
    MoveNode(v.meta, w.meta, i, op, v.index);
    forall d ensures KidsOk(w, d) {
      PlacedKids(v, i, op, name, now, d);
    }
    if name == NameOf(v.meta, i) {
      forall j ensures SameNode(v.meta, w.meta, j) {
        assert j != i ==> SameNode(v.meta, w.meta, j);
      }
      SameTreeIndex(v.meta, w.meta, v.index);
    }
    if Inv(w) {
      RolledBackName(v, w, i, op, name);
    }
  }

  /** The rollback keeps the tree, under the new name. */
  lemma RolledBackTree(v: Volume, i: nat, name: bytes, now: nat)
    requires Inv(v) && Live(v.meta, i) && i != 1 && StoredName(name) && now < U64
    ensures var w := Placed(v, i, Par(v.meta, i), name, now);
            TreeInv(w.meta) && NameOf(w.meta, i) == name && w.index == v.index
  {
    var op := Par(v.meta, i);
    Listed(v, i);
    RenamedKeeps(v, i, op, name, now);
    assert StartOf(Renamed(v, i, op, name, now), op) == StartOf(v, op);
    assert MoveReady(v, i, op, name, now);
    PlacedKeeps(v, i, op, name, now);
    ToksStep(v.meta, i);
    MoveNode(v.meta, Placed(v, i, op, name, now).meta, i, op, v.index);
  }

  lemma RolledBackName(v: Volume, w: Volume, i: nat, op: nat, name: bytes)
    requires Inv(v) && Live(v.meta, i) && i != 1 && op == Par(v.meta, i) && w.index == v.index
    requires IndexInv(w.meta, w.index) && TreeInv(w.meta) && Toks(w.meta, i) == Toks(v.meta, op) + [name]
    ensures name == NameOf(v.meta, i)
  {
    assert Indexed(v.meta, v.index, i);
    assert Points(w.meta, w.index, PathTo(v.meta, i));
    ToksStep(v.meta, i);
    ToksNames(v.meta, i);
    ToksNames(w.meta, i);
    PathInjective(Toks(v.meta, i), Toks(w.meta, i));
    assert Last(Toks(v.meta, i)) == Last(Toks(w.meta, i));
  }

  /** `file_rename` passes its checks, and the list of the new directory has a block or gets one. */
  predicate Renames(v: Volume, oldPath: bytes, newPath: bytes) {
    && Renamable(v, oldPath, newPath)
    && (StartOf(v, Target(v, newPath)) != 0 || Free(v.used) != [])
  }

  lemma PlacedWhen(y: Volume, v: Volume, np: nat, i: nat)
    requires StartOf(y, np) == StartOf(v, np) && y.used == v.used
    ensures AddChild(y, np, i).1 <==> StartOf(v, np) != 0 || Free(v.used) != []
  {
  }

  lemma StartIsKept(a: Volume, b: Volume, i: nat, e: MetaEntry, d: nat)
    requires 1 <= i <= |a.meta| && b.meta == a.meta[i - 1 := e] && e.start == a.meta[i - 1].start
    ensures StartOf(b, d) == StartOf(a, d)
  {
  }

  lemma PlacesWhen(v: Volume, i: nat, np: nat, name: bytes, now: nat)
    requires Inv(v) && Live(v.meta, i) && i != 1 && StoredName(name) && np < U32 && now < U64
    ensures RemoveChild(v, Par(v.meta, i), i).1
    ensures AddChild(Renamed(v, i, np, name, now), np, i).1 <==> StartOf(v, np) != 0 || Free(v.used) != []
  {
    RenamedKeeps(v, i, np, name, now);
    StartIsKept(v, Renamed(v, i, np, name, now), i, RenamedRecord(v.meta[i - 1], name, np, now), np);
    PlacedWhen(Renamed(v, i, np, name, now), v, np, i);
  }

  lemma RelocatedCases(v: Volume, i: nat, np: nat, name: bytes, now: nat)
    requires 1 <= i <= |v.meta| && RemoveChild(v, Par(v.meta, i), i).1
    ensures Relocated(v, i, np, name, now)
         == if AddChild(Renamed(v, i, np, name, now), np, i).1
            then (Reindexed(Placed(v, i, np, name, now)), Success)
            else (Placed(v, i, Par(v.meta, i), name, now), IoError)
  {
  }

  lemma RelocatesWhen(v: Volume, i: nat, np: nat, name: bytes, now: nat)
    requires Inv(v) && Live(v.meta, i) && i != 1 && StoredName(name) && np < U32 && now < U64
    ensures Relocated(v, i, np, name, now).1 == Success <==> StartOf(v, np) != 0 || Free(v.used) != []
  {
    PlacesWhen(v, i, np, name, now);
    RelocatedCases(v, i, np, name, now);
  }

  /** `file_rename` succeeds exactly when it passes its checks and the list of the new directory
      has or gets a block. A rename that a check refuses changes nothing. A success keeps the
      invariant exactly when the new directory lies outside the moved entry, no other entry has
      the new path, and the new directory has room. A failure for want of a block keeps it
      exactly when the new name is the old one. */
  lemma RenameKeepsIff(v: Volume, oldPath: bytes, newPath: bytes, now: nat)
    requires Inv(v) && 0 !in newPath && now < U64
    ensures var (w, st) := RenameEntry(v, oldPath, newPath, now);
            && (st == Success <==> Renames(v, oldPath, newPath))
            && (!Renamable(v, oldPath, newPath) ==> w == v)
            && (Renamable(v, oldPath, newPath) ==>
                  if Renames(v, oldPath, newPath)
                  then Inv(w) <==> MoveFits(v, v.index[oldPath], Target(v, newPath), NewBaseOf(newPath))
                  else Inv(w) <==> NewBaseOf(newPath) == NameOf(v.meta, v.index[oldPath]))
  {
    RenameGuards(v, oldPath, newPath, now);
    if Renamable(v, oldPath, newPath) {
      RenamableFacts(v, oldPath, newPath);
      RelocatesWhen(v, v.index[oldPath], Target(v, newPath), NewBaseOf(newPath), now);
      RelocatedKeepsIff(v, v.index[oldPath], Target(v, newPath), NewBaseOf(newPath), now);
    }
  }

  lemma RelocatedKeepsIff(v: Volume, i: nat, np: nat, name: bytes, now: nat)
    requires Inv(v) && Live(v.meta, i) && i != 1 && StoredName(name) && IsDir(v.meta, np) && now < U64
    ensures var (w, st) := Relocated(v, i, np, name, now);
            if st == Success then MoveReady(v, i, np, name, now) && w == Reindexed(Placed(v, i, np, name, now))
                                  && (Inv(w) <==> MoveFits(v, i, np, name))
            else Inv(w) <==> name == NameOf(v.meta, i)
  {
    RenamedKeeps(v, i, np, name, now);
    if AddChild(Renamed(v, i, np, name, now), np, i).1 {
      if MoveFits(v, i, np, name) {
        MoveSound(v, i, np, name, now);
      }
      if Inv(Reindexed(Placed(v, i, np, name, now))) {
        MoveUnsound(v, i, np, name, now);
      }
    } else {
      RolledBack(v, i, name, now);
    }
  }

  // ---- Paths and contents after a rename ----

  lemma MovedPath(v: Volume, i: nat, np: nat, name: bytes, now: nat, j: nat)
    requires MoveReady(v, i, np, name, now) && MoveFits(v, i, np, name) && Live(v.meta, j)
    ensures var w := Placed(v, i, np, name, now);
            && Live(w.meta, j)
            && PathTo(w.meta, j) == Rebased(PathTo(v.meta, i), Child(PathTo(v.meta, np), name), PathTo(v.meta, j))
  {
    var w := Placed(v, i, np, name, now);
    PlacedKeeps(v, i, np, name, now);
    MoveNode(v.meta, w.meta, i, np, v.index);
    TargetToks(v, i, np, name);
    ToksNames(v.meta, i);
    ToksNames(v.meta, j);
    ToksStep(v.meta, i);
    RetargetIsRebased(Toks(v.meta, i), Toks(v.meta, j), Toks(w.meta, i));
  }

  lemma RetargetIsRebased(a: seq<bytes>, b: seq<bytes>, t: seq<bytes>)
    requires Names(a) && Names(b) && a != [] && t != []
    ensures PathOf(if a <= b then t + b[|a|..] else b) == Rebased(PathOf(a), PathOf(t), PathOf(b))
  {
    if a <= b {
      RebasedBelow(a, t, b[|a|..]);
      assert b == a + b[|a|..];
    } else {
      RebasedElsewhere(a, t, b);
    }
  }

  /** Every path of `a` is a rebased path of `b`, with the same node, and there are no others. */
  ghost predicate Rekeyed(a: map<bytes, Node>, b: map<bytes, Node>, from: bytes, to: bytes) {
    && (forall p | p in a :: Rebased(from, to, p) in b && b[Rebased(from, to, p)] == a[p])
    && (forall q | q in b :: exists p :: p in a && Rebased(from, to, p) == q)
  }

  lemma MovedAbs(v: Volume, i: nat, np: nat, name: bytes, now: nat)
    requires MoveReady(v, i, np, name, now) && MoveFits(v, i, np, name)
    ensures Rekeyed(Abs(v), Abs(Reindexed(Placed(v, i, np, name, now))), PathTo(v.meta, i),
      Child(PathTo(v.meta, np), name))
  {
    var w := Placed(v, i, np, name, now);
    var r := Reindexed(w);
    var from, to := PathTo(v.meta, i), Child(PathTo(v.meta, np), name);
    MoveSound(v, i, np, name, now);
    ReindexedOnly(w);
    forall p | p in v.index
      ensures Rebased(from, to, p) in r.index && NodeAt(r, r.index[Rebased(from, to, p)]) == NodeAt(v, v.index[p])
    {
      var j := v.index[p];
      assert Points(v.meta, v.index, p);
      MovedPath(v, i, np, name, now, j);
      assert Indexed(r.meta, r.index, j);
      PlacedNode(v, i, np, name, now, j);
    }
    PlacedKeeps(v, i, np, name, now);
    forall q | q in r.index ensures exists p :: p in v.index && Rebased(from, to, p) == q {
      var j := r.index[q];
      assert Points(r.meta, r.index, q);
      assert j != i ==> SameNode(v.meta, w.meta, j);
      MovedPath(v, i, np, name, now, j);
      assert Indexed(v.meta, v.index, j);
      assert Rebased(from, to, PathTo(v.meta, j)) == q;
    }
  }

  lemma SplitAt(p: bytes, pos: nat)
    requires pos < |p| && p[pos] == SLASH
    ensures p == p[..pos] + ROOT + p[pos + 1..]
  {
  }

  lemma TargetIsNewPath(newPath: bytes)
    requires LastSlash(newPath, |newPath|) != |newPath|
    requires LastSlash(newPath, |newPath|) == 0 || NewDirOf(newPath) != ROOT
    ensures Child(NewDirOf(newPath), NewBaseOf(newPath)) == newPath
  {
    LastSlashIs(newPath, |newPath|);
    var pos := LastSlash(newPath, |newPath|);
    SplitAt(newPath, pos);
    if pos == 0 {
      assert newPath[..0] == [];
    }
  }

  /** A sound rename rewrites exactly the paths at and below the old one, at any depth, and
      changes no folder, size or content. */
  lemma RenameRefines(v: Volume, oldPath: bytes, newPath: bytes, now: nat)
    requires Inv(v) && 0 !in newPath && now < U64 && Renames(v, oldPath, newPath)
    requires MoveFits(v, v.index[oldPath], Target(v, newPath), NewBaseOf(newPath))
    ensures Rekeyed(Abs(v), Abs(RenameEntry(v, oldPath, newPath, now).0), oldPath,
      Child(NewDirOf(newPath), NewBaseOf(newPath)))
    ensures LastSlash(newPath, |newPath|) == 0 || NewDirOf(newPath) != ROOT
        ==> Child(NewDirOf(newPath), NewBaseOf(newPath)) == newPath
  {
    RenameGuards(v, oldPath, newPath, now);
    RenamableFacts(v, oldPath, newPath);
    RelocatesWhen(v, v.index[oldPath], Target(v, newPath), NewBaseOf(newPath), now);
    RelocatedKeepsIff(v, v.index[oldPath], Target(v, newPath), NewBaseOf(newPath), now);
    MovedAbs(v, v.index[oldPath], Target(v, newPath), NewBaseOf(newPath), now);
    if LastSlash(newPath, |newPath|) == 0 || NewDirOf(newPath) != ROOT {
      TargetIsNewPath(newPath);
    }
  }

  /** The subtree test on path strings: `np` is outside `i` exactly when its path is neither
      the path of `i` nor starts with it and a slash. */
  lemma OutsideIsPrefixTest(v: Volume, i: nat, np: nat)
    requires Inv(v) && Live(v.meta, i) && i != 1 && Live(v.meta, np)
    ensures Outside(v, i, np) <==>
      PathTo(v.meta, np) != PathTo(v.meta, i) && !(PathTo(v.meta, i) + ROOT <= PathTo(v.meta, np))
  {
    var a, b := Toks(v.meta, i), Toks(v.meta, np);
    ToksNames(v.meta, i);
    ToksNames(v.meta, np);
    ToksStep(v.meta, i);
    if a <= b {
      JoinConcat(a, b[|a|..]);
      assert b == a + b[|a|..];
      if b[|a|..] != [] {
        assert PathOf(b)[..|PathOf(a)| + 1] == PathOf(a) + ROOT;
      }
    }
    StringPrefixIsBelow(a, b);
  }
}
