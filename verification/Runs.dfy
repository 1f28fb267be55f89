/** Whole runs: the abstract file system of paths and nodes that the engine refines step by
    step, and what any run of sound operations keeps. */
module Runs {
  import opened Bytes
  import opened Bitmap
  import opened Paths
  import opened Chains
  import opened Tree
  import opened State
  import opened Ops
  import opened TreeChanges
  import opened Layout
  import opened Creating
  import opened CreateTheorems
  import opened Deleting
  import opened Editing
  import opened Truncating
  import opened Renaming
  import Encoding

  datatype Op =
    | Create(path: bytes, data: bytes, owner: nat, now: nat)
    | MkDir(path: bytes, owner: nat, now: nat)
    | Delete(path: bytes)
    | RmDir(path: bytes)
    | Edit(path: bytes, data: bytes, index: nat, now: nat)
    | Truncate(path: bytes, newSize: nat, now: nat)
    | Rename(path: bytes, newPath: bytes, now: nat)

  function Apply(v: Volume, op: Op): (r: (Volume, Status)) {
    match op
    case Create(path, data, owner, now) => CreateFile(v, path, data, owner, now)
    case MkDir(path, owner, now) => MakeDir(v, path, owner, now)
    case Delete(path) => DeleteFile(v, path)
    case RmDir(path) => RemoveDir(v, path)
    case Edit(path, data, index, now) => EditFile(v, path, data, index, now)
    case Truncate(path, newSize, now) => TruncateFile(v, path, newSize, now)
    case Rename(path, newPath, now) => RenameEntry(v, path, newPath, now)
  }

  /** Arguments that the interface can pass: C strings, and integers of their types. */
  predicate Wellformed(op: Op) {
    match op
    case Create(path, data, owner, now) => Request(path, |data|, owner, now)
    case MkDir(path, owner, now) => Request(path, 0, owner, now)
    case Delete(path) => true
    case RmDir(path) => true
    case Edit(path, data, index, now) => now < U64
    case Truncate(path, newSize, now) => newSize < U64 && now < U64
    case Rename(path, newPath, now) => 0 !in newPath && now < U64
  }

  /** When an operation succeeds: what its checks and its allocations find before it starts. */
  ghost predicate Succeeds(v: Volume, op: Op) {
    match op
    case Create(path, data, owner, now) => Creates(v, path, |data|)
    case MkDir(path, owner, now) => MakesDir(v, path)
    case Delete(path) => path in v.index && IsFile(v.meta, v.index[path])
    case RmDir(path) =>
      path != ROOT && path in v.index && IsDir(v.meta, v.index[path]) && Childless(v.meta, v.index[path])
    case Edit(path, data, index, now) => Editable(v, path, index)
    case Truncate(path, newSize, now) => Truncatable(v, path, newSize)
    case Rename(path, newPath, now) => Renames(v, path, newPath)
  }

  /** The guards of the single operations, on the state before the call. */
  ghost predicate Sound(v: Volume, op: Op) {
    match op
    case Create(path, data, owner, now) => Creates(v, path, |data|) ==> CreateFits(v, path, |data|)
    case MkDir(path, owner, now) => MakesDir(v, path) ==> MakeDirFits(v, path)
    case Delete(path) => true
    case RmDir(path) => true
    case Edit(path, data, index, now) => true
    case Truncate(path, newSize, now) => Truncatable(v, path, newSize) ==> CeilDiv(newSize, Payload(v.bs)) < U32
    case Rename(path, newPath, now) =>
      Renamable(v, path, newPath) ==>
        if Renames(v, path, newPath) then MoveFits(v, v.index[path], Target(v, newPath), NewBaseOf(newPath))
        else NewBaseOf(newPath) == NameOf(v.meta, v.index[path])
  }

  /** Success is decided by the state before the call. */
  lemma SuccessIff(v: Volume, op: Op)
    requires Inv(v) && Wellformed(op)
    ensures Apply(v, op).1 == Success <==> Succeeds(v, op)
  {
    match op
    case Create(path, data, owner, now) => CreateSucceeds(v, path, data, owner, now);
    case MkDir(path, owner, now) => MakeDirSucceeds(v, path, owner, now);
    case Delete(path) => DeleteFileRefines(v, path);
    case RmDir(path) => RemoveDirRefines(v, path);
    case Edit(path, data, index, now) => EditIs(v, path, data, index, now);
    case Truncate(path, newSize, now) => TruncateGuards(v, path, newSize, now);
    case Rename(path, newPath, now) => RenameKeepsIff(v, path, newPath, now);
  }

  /** One operation keeps the invariant exactly when its guard holds. */
  lemma StepKeepsIff(v: Volume, op: Op)
    requires Inv(v) && Wellformed(op)
    ensures Inv(Apply(v, op).0) <==> Sound(v, op)
  {
    match op
    case Create(path, data, owner, now) => CreateFileKeepsIff(v, path, data, owner, now);
    case MkDir(path, owner, now) => MakeDirKeepsIff(v, path, owner, now);
    case Delete(path) => DeleteFileRefines(v, path);
    case RmDir(path) => RemoveDirRefines(v, path);
    case Edit(path, data, index, now) => EditKeepsInv(v, path, data, index, now);
    case Truncate(path, newSize, now) =>
      TruncateGuards(v, path, newSize, now);
      TruncateKeepsIff(v, path, newSize, now);
    case Rename(path, newPath, now) => RenameKeepsIff(v, path, newPath, now);
  }

  lemma EditKeepsInv(v: Volume, path: bytes, data: bytes, index: nat, now: nat)
    requires Inv(v) && now < U64
    ensures Inv(EditFile(v, path, data, index, now).0)
  {
    EditIs(v, path, data, index, now);
    if Editable(v, path, index) {
      EditFileRefines(v, path, data, index, now);
    }
  }

  // ---- The abstract file system ----

  predicate FolderAt(a: map<bytes, Node>, p: bytes) {
    p in a && a[p].Folder?
  }

  predicate FileAt(a: map<bytes, Node>, p: bytes) {
    p in a && a[p].File?
  }

  /** What an operation does to paths and nodes when it succeeds. */
  ghost predicate AbsStep(a: map<bytes, Node>, op: Op, enc: Encoding.table, pl: nat, b: map<bytes, Node>)
    requires pl > 0
  {
    match op
    case Create(path, data, owner, now) =>
      && Tokens(path) != [] && path == Child(DirOf(path), BaseOf(path)) && path !in a && FolderAt(a, DirOf(path))
      && b == a[path := File(FreshCapacity(enc, data, pl), |data|)]
    case MkDir(path, owner, now) =>
      && IsName(Cut(BaseOf(path))) && TargetOf(path) !in a && FolderAt(a, DirOf(path))
      && b == a[TargetOf(path) := Folder]
    case Delete(path) => FileAt(a, path) && b == a - {path}
    case RmDir(path) =>
      path != ROOT && FolderAt(a, path) && (forall p | p in a :: !(path + ROOT <= p)) && b == a - {path}
    case Edit(path, data, index, now) =>
      FileAt(a, path) && b == a[path := File(EditedBytes(enc, a[path].capacity, index, data, pl), a[path].size)]
    case Truncate(path, newSize, now) =>
      && FileAt(a, path)
      && b == a[path := File(ResizedBytes(enc, a[path].capacity, CeilDiv(newSize, pl) * pl), newSize)]
    case Rename(path, newPath, now) =>
      var dir, target := NewDirOf(newPath), Child(NewDirOf(newPath), NewBaseOf(newPath));
      && path != ROOT && path in a && IsName(NewBaseOf(newPath)) && FolderAt(a, dir)
      && dir != path && !(path + ROOT <= dir) && (target in a ==> target == path)
      && Rekeyed(a, b, path, target)
  }

  lemma NodeOfIndexed(v: Volume, path: bytes)
    requires Inv(v) && path in v.index
    ensures path in Abs(v) && Abs(v)[path] == NodeAt(v, v.index[path])
    ensures IsDir(v.meta, v.index[path]) <==> Abs(v)[path].Folder?
    ensures IsFile(v.meta, v.index[path]) <==> Abs(v)[path].File?
  {
    assert Points(v.meta, v.index, path);
    assert NodeOk(v.meta, v.index[path]);
  }

  lemma FailedRename(v: Volume, path: bytes, newPath: bytes, now: nat)
    requires Inv(v) && 0 !in newPath && now < U64 && !Renames(v, path, newPath)
    ensures Abs(RenameEntry(v, path, newPath, now).0) == Abs(v)
  {
    RenameGuards(v, path, newPath, now);
    if Renamable(v, path, newPath) {
      RenamableFacts(v, path, newPath);
      RelocatesWhen(v, v.index[path], Target(v, newPath), NewBaseOf(newPath), now);
      RolledBackAbs(v, v.index[path], Target(v, newPath), NewBaseOf(newPath), now);
    }
  }

  lemma PlacedAbs(v: Volume, i: nat, np: nat, name: bytes, now: nat)
    requires MoveReady(v, i, np, name, now)
    ensures Abs(Placed(v, i, np, name, now)) == Abs(v)
  {
    var w := Placed(v, i, np, name, now);
    PlacedKeeps(v, i, np, name, now);
    forall p | p in v.index ensures NodeAt(w, v.index[p]) == NodeAt(v, v.index[p]) {
      PlacedNode(v, i, np, name, now, v.index[p]);
    }
  }

  lemma RolledBackAbs(v: Volume, i: nat, np: nat, name: bytes, now: nat)
    requires Inv(v) && Live(v.meta, i) && i != 1 && StoredName(name) && IsDir(v.meta, np) && now < U64
    requires Relocated(v, i, np, name, now).1 != Success
    ensures Abs(Relocated(v, i, np, name, now).0) == Abs(v)
  {
    var op := Par(v.meta, i);
    RenamedKeeps(v, i, np, name, now);
    RenamedKeeps(v, i, op, name, now);
    Listed(v, i);
    assert StartOf(Renamed(v, i, op, name, now), op) == StartOf(v, op);
    assert MoveReady(v, i, op, name, now);
    PlacedAbs(v, i, op, name, now);
  }

  /** The engine refines the abstract file system: a sound step that succeeds is an abstract
      step, and one that fails changes nothing a user sees. */
  lemma StepRefines(v: Volume, op: Op)
    requires Inv(v) && Wellformed(op) && Sound(v, op)
    ensures var (w, st) := Apply(v, op);
            if st == Success then AbsStep(Abs(v), op, v.enc, Payload(v.bs), Abs(w)) else Abs(w) == Abs(v)
  {
    SuccessIff(v, op);
    if Succeeds(v, op) {
      SuccessRefines(v, op);
    } else {
      FailureRefines(v, op);
    }
  }

  lemma FailureRefines(v: Volume, op: Op)
    requires Inv(v) && Wellformed(op) && !Succeeds(v, op)
    ensures Abs(Apply(v, op).0) == Abs(v)
  {
    match op
    case Create(path, data, owner, now) => CreateFileKeepsIff(v, path, data, owner, now);
    case MkDir(path, owner, now) => MakeDirKeepsIff(v, path, owner, now);
    case Delete(path) => DeleteFileRefines(v, path);
    case RmDir(path) => RemoveDirRefines(v, path);
    case Edit(path, data, index, now) => EditIs(v, path, data, index, now);
    case Truncate(path, newSize, now) => TruncateGuards(v, path, newSize, now);
    case Rename(path, newPath, now) => FailedRename(v, path, newPath, now);
  }

  lemma CreateStep(v: Volume, path: bytes, data: bytes, owner: nat, now: nat)
    requires Inv(v) && Request(path, |data|, owner, now) && Creates(v, path, |data|) && CreateFits(v, path, |data|)
    ensures AbsStep(Abs(v), Create(path, data, owner, now), v.enc, Payload(v.bs),
                    Abs(CreateFile(v, path, data, owner, now).0))
  {
    CreateFileRefines(v, path, data, owner, now);
    NodeOfIndexed(v, DirOf(path));
    ChildPath(path);
  }

  lemma MkDirStep(v: Volume, path: bytes, owner: nat, now: nat)
    requires Inv(v) && Request(path, 0, owner, now) && MakesDir(v, path) && MakeDirFits(v, path)
    ensures AbsStep(Abs(v), MkDir(path, owner, now), v.enc, Payload(v.bs), Abs(MakeDir(v, path, owner, now).0))
  {
    MakeDirRefines(v, path, owner, now);
    NodeOfIndexed(v, DirOf(path));
    BaseIsStored(path);
  }

  /** No path lies below an entry that is nobody's parent. */
  lemma NothingBelow(v: Volume, i: nat, p: bytes)
    requires Inv(v) && Live(v.meta, i) && i != 1 && Childless(v.meta, i) && p in v.index
    ensures !(PathTo(v.meta, i) + ROOT <= p)
  {
    var j := v.index[p];
    IndexedPath(v, p);
    ToksNames(v.meta, i);
    ToksNames(v.meta, j);
    ToksStep(v.meta, i);
    if PathTo(v.meta, i) + ROOT <= p {
      StringPrefixIsBelow(Toks(v.meta, i), Toks(v.meta, j));
      assert NodeOk(v.meta, j);
      var k: nat :| Climb(v.meta, j, k);
      ThroughIffPrefix(v.meta, v.index, j, k, i);
      if j != i {
        NotThroughChildless(v.meta, j, k, i);
      }
    }
  }

  lemma RmDirStep(v: Volume, path: bytes)
    requires Inv(v) && Succeeds(v, RmDir(path))
    ensures AbsStep(Abs(v), RmDir(path), v.enc, Payload(v.bs), Abs(RemoveDir(v, path).0))
  {
    RemoveDirRefines(v, path);
    NodeOfIndexed(v, path);
    IndexedPath(v, path);
    RootPath(v.meta);
    forall p | p in Abs(v) ensures !(path + ROOT <= p) {
      NothingBelow(v, v.index[path], p);
    }
  }

  lemma RenameStep(v: Volume, path: bytes, newPath: bytes, now: nat)
    requires Inv(v) && 0 !in newPath && now < U64 && Renames(v, path, newPath)
    requires MoveFits(v, v.index[path], Target(v, newPath), NewBaseOf(newPath))
    ensures AbsStep(Abs(v), Rename(path, newPath, now), v.enc, Payload(v.bs), Abs(RenameEntry(v, path, newPath, now).0))
  {
    var i, np := v.index[path], Target(v, newPath);
    RenameRefines(v, path, newPath, now);
    RenamableFacts(v, path, newPath);
    NodeOfIndexed(v, NewDirOf(newPath));
    OutsideIsPrefixTest(v, i, np);
    IndexedPath(v, path);
    RootPath(v.meta);
    assert Indexed(v.meta, v.index, 1);
    forall t | t in v.index && v.index[t] == i ensures t == path {
      IndexedPath(v, t);
    }
  }

  lemma SuccessRefines(v: Volume, op: Op)
    requires Inv(v) && Wellformed(op) && Sound(v, op) && Succeeds(v, op)
    ensures AbsStep(Abs(v), op, v.enc, Payload(v.bs), Abs(Apply(v, op).0))
  {
    match op
    case Create(path, data, owner, now) => CreateStep(v, path, data, owner, now);
    case MkDir(path, owner, now) => MkDirStep(v, path, owner, now);
    case Delete(path) =>
      DeleteFileRefines(v, path);
      NodeOfIndexed(v, path);
    case RmDir(path) => RmDirStep(v, path);
    case Edit(path, data, index, now) =>
      NodeOfIndexed(v, path);
      EditFileRefines(v, path, data, index, now);
    case Truncate(path, newSize, now) =>
      NodeOfIndexed(v, path);
      TruncateRefines(v, path, newSize, now);
    case Rename(path, newPath, now) => RenameStep(v, path, newPath, now);
  }

  // ---- Runs ----

  function Run(v: Volume, ops: seq<Op>): (w: Volume)
    decreases ops
  {
    if ops == [] then v else Run(Apply(v, ops[0]).0, ops[1..])
  }

  ghost predicate SoundRun(v: Volume, ops: seq<Op>)
    decreases ops
  {
    ops == [] || (Wellformed(ops[0]) && Sound(v, ops[0]) && SoundRun(Apply(v, ops[0]).0, ops[1..]))
  }

  /** Every run of sound operations keeps the whole invariant. */
  lemma {:induction false} RunKeeps(v: Volume, ops: seq<Op>)
    requires Inv(v) && SoundRun(v, ops)
    ensures Inv(Run(v, ops))
    decreases ops
  {
    if ops != [] {
      StepKeepsIff(v, ops[0]);
      RunKeeps(Apply(v, ops[0]).0, ops[1..]);
    }
  }

  /** The operation names `p`, or an entry above it. */
  predicate Touches(op: Op, p: bytes) {
    match op
    case Create(path, data, owner, now) => false
    case MkDir(path, owner, now) => false
    case Delete(path) => p == path
    case RmDir(path) => p == path
    case Edit(path, data, index, now) => p == path
    case Truncate(path, newSize, now) => p == path
    case Rename(path, newPath, now) => p == path || path + ROOT <= p
  }

  lemma StepFrame(a: map<bytes, Node>, op: Op, enc: Encoding.table, pl: nat, b: map<bytes, Node>, p: bytes)
    requires pl > 0 && AbsStep(a, op, enc, pl, b) && p in a && !Touches(op, p)
    ensures p in b && b[p] == a[p]
  {
    if op.Rename? {
      assert Rebased(op.path, Child(NewDirOf(op.newPath), NewBaseOf(op.newPath)), p) == p;
    }
  }

  // Block size and code table never change.

  predicate SameFormat(v: Volume, w: Volume) {
    w.enc == v.enc && w.bs == v.bs
  }

  lemma AddChildFormat(v: Volume, p: nat, c: nat)
    ensures SameFormat(v, AddChild(v, p, c).0)
  {
    AddChildNodes(v, p, c, 0);
  }

  lemma RemoveChildFormat(v: Volume, p: nat, c: nat)
    ensures SameFormat(v, RemoveChild(v, p, c).0)
  {
  }

  lemma CreateFormat(v: Volume, path: bytes, data: bytes, owner: nat, now: nat)
    ensures SameFormat(v, CreateFile(v, path, data, owner, now).0)
  {
    if Creates(v, path, |data|) {
      var c := Free(v.used)[..NeedBlocks(|data|, v.bs)];
      StoreFileFields(v, NewIndex(v), NewFile(v, path, |data|, owner, now), c, data);
      AddChildFormat(StoredFile(v, path, data, owner, now), ParentOf(v, path), NewIndex(v));
    }
  }

  lemma MkDirFormat(v: Volume, path: bytes, owner: nat, now: nat)
    ensures SameFormat(v, MakeDir(v, path, owner, now).0)
  {
    if NewIndex(v) != 0 {
      AddChildFormat(StoredDir(v, path, owner, now), ParentOf(v, path), NewIndex(v));
    }
  }

  lemma RenameFormat(v: Volume, path: bytes, newPath: bytes, now: nat)
    ensures SameFormat(v, RenameEntry(v, path, newPath, now).0)
  {
    RenameGuards(v, path, newPath, now);
    if Renamable(v, path, newPath) {
      var i, np, name := v.index[path], Target(v, newPath), NewBaseOf(newPath);
      var op := Par(v.meta, i);
      RemoveChildFormat(v, op, i);
      AddChildFormat(Renamed(v, i, np, name, now), np, i);
      AddChildFormat(Renamed(v, i, op, name, now), op, i);
    }
  }

  lemma DeleteFormat(v: Volume, path: bytes)
    ensures SameFormat(v, DeleteFile(v, path).0)
  {
  }

  lemma RmDirFormat(v: Volume, path: bytes)
    ensures SameFormat(v, RemoveDir(v, path).0)
  {
  }

  lemma TruncateFormat(v: Volume, path: bytes, newSize: nat, now: nat)
    ensures SameFormat(v, TruncateFile(v, path, newSize, now).0)
  {
  }

  lemma ApplyKeepsFormat(v: Volume, op: Op)
    ensures SameFormat(v, Apply(v, op).0)
  {
    match op
    case Create(path, data, owner, now) => CreateFormat(v, path, data, owner, now);
    case MkDir(path, owner, now) => MkDirFormat(v, path, owner, now);
    case Delete(path) => DeleteFormat(v, path);
    case RmDir(path) => RmDirFormat(v, path);
    case Edit(path, data, index, now) => EditIs(v, path, data, index, now);
    case Truncate(path, newSize, now) => TruncateFormat(v, path, newSize, now);
    case Rename(path, newPath, now) => RenameFormat(v, path, newPath, now);
  }

  /** In a run of sound operations, a node that none of them names keeps its path and its
      content, byte for byte, whatever the others do and whatever the code table is. */
  lemma {:induction false} RunFrame(v: Volume, ops: seq<Op>, p: bytes)
    requires Inv(v) && SoundRun(v, ops)
    requires p in Abs(v) && forall k | 0 <= k < |ops| :: !Touches(ops[k], p)
    ensures p in Abs(Run(v, ops)) && Abs(Run(v, ops))[p] == Abs(v)[p]
    decreases ops
  {
    if ops != [] {
      var w := Apply(v, ops[0]).0;
      StepKeepsIff(v, ops[0]);
      StepRefines(v, ops[0]);
      ApplyKeepsFormat(v, ops[0]);
      if Apply(v, ops[0]).1 == Success {
        StepFrame(Abs(v), ops[0], v.enc, Payload(v.bs), Abs(w), p);
      }
      forall k | 0 <= k < |ops[1..]| ensures !Touches(ops[1..][k], p) {
        assert ops[1..][k] == ops[k + 1];
      }
      RunFrame(w, ops[1..], p);
    }
  }

  // ---- The first state ----

  /** The record that the constructor of a metadata entry fills in. */
  const BLANK: MetaEntry := MetaEntry(1, 0, 0, [], 0, 0, 0, FILE_MODE, 0, 0, Zeros(18))

  const ROOT_NAME: bytes := [114, 111, 111, 116]

  function FreshTable(n: nat): (r: table)
    ensures |r| == n
  {
    seq(n, k requires 0 <= k < n => if k == 0 then BLANK.(valid := 0, kind := 1, name := ROOT_NAME) else BLANK)
  }

  /** A volume as `fs_init` finds it after `fs_format`: an empty root, no block in use, all
      bytes of the block region zero. */
  function FreshVolume(bs: nat, numBlocks: nat, maxFiles: nat): Volume {
    Volume(bs, seq(numBlocks, _ => Block(0, Zeros(Payload(bs)))), seq(numBlocks, _ => false),
           FreshTable(maxFiles), map[ROOT := 1], seq(256, _ => 0), 2)
  }

  lemma FreshTree(n: nat)
    requires n >= 1
    ensures TreeInv(FreshTable(n)) && IndexInv(FreshTable(n), map[ROOT := 1])
    ensures forall i :: Live(FreshTable(n), i) <==> i == 1
  {
    var meta := FreshTable(n);
    assert forall i :: Live(meta, i) <==> i == 1;
    assert Climb(meta, 1, 0);
    forall i | 1 <= i <= |meta| ensures NodeOk(meta, i) {
    }
    RootPath(meta);
    forall i | Live(meta, i) ensures Indexed(meta, map[ROOT := 1], i) {
    }
    forall p ensures Points(meta, map[ROOT := 1], p) {
    }
  }

  lemma BlankTyped()
    ensures TypedEntry(BLANK) && TypedEntry(BLANK.(valid := 0, kind := 1, name := ROOT_NAME))
  {
    assert 0 !in ROOT_NAME;
  }

  lemma FreshInv(bs: nat, numBlocks: nat, maxFiles: nat)
    requires 128 <= bs < U32 && numBlocks < U32 && 1 <= maxFiles < U32
    ensures Inv(FreshVolume(bs, numBlocks, maxFiles)) && Encoding.Lossless(FreshVolume(bs, numBlocks, maxFiles).enc)
  {
    var v := FreshVolume(bs, numBlocks, maxFiles);
    FreshTree(maxFiles);
    forall i | 0 <= i < |v.meta| ensures TypedEntry(v.meta[i]) {
      BlankTyped();
    }
    forall i ensures EntryChain(v, i) == [] && ChainOk(v, i) && Kids(v, i) == [] {
    }
    forall i, j, b ensures OneOwner(v, i, j, b) {
    }
    forall b ensures FlagOk(v, b) {
      forall i ensures !Owns(v, i, b) {
      }
    }
    forall d ensures KidsOk(v, d) {
      forall c ensures !IsKid(v.meta, c, 1) {
      }
    }
  }

  /** From a formatted volume, every run of sound operations keeps the invariant; entry 1 is a
      live directory in every state, so that mounting again never formats. */
  lemma FormattedRuns(bs: nat, numBlocks: nat, maxFiles: nat, ops: seq<Op>)
    requires 128 <= bs < U32 && numBlocks < U32 && 1 <= maxFiles < U32
    requires SoundRun(FreshVolume(bs, numBlocks, maxFiles), ops)
    ensures var w := Run(FreshVolume(bs, numBlocks, maxFiles), ops);
            Inv(w) && IsDir(w.meta, 1)
  {
    FreshInv(bs, numBlocks, maxFiles);
    RunKeeps(FreshVolume(bs, numBlocks, maxFiles), ops);
  }
}
