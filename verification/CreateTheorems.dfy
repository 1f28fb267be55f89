/** The theorems about `file_create` and `dir_create`. */
module CreateTheorems {
  import opened Bytes
  import opened Bitmap
  import opened Chains
  import opened Paths
  import opened Tree
  import opened State
  import opened Ops
  import opened Directories
  import opened TreeChanges
  import opened Layout
  import opened Creating
  import opened FileSteps
  import Encoding

  /** The caller's side: a C string, and integers that fit their fields. */
  predicate Request(path: bytes, size: nat, owner: nat, now: nat) {
    0 !in path && size < U64 && owner < U32 && now < U64
  }

  lemma ParentIsLive(v: Volume, path: bytes)
    requires Inv(v) && DirOf(path) in v.index
    ensures Live(v.meta, ParentOf(v, path)) && PathTo(v.meta, ParentOf(v, path)) == DirOf(path)
    ensures ParentOf(v, path) < U32 && IndexLive(v, DirOf(path))
  {
    assert Points(v.meta, v.index, DirOf(path));
  }

  lemma NewEntryTyped(v: Volume, path: bytes, size: nat, owner: nat, now: nat)
    requires Shape(v) && Request(path, size, owner, now) && NewIndex(v) != 0
    requires Tokens(path) != [] && DirOf(path) in v.index && IndexLive(v, DirOf(path))
    ensures TypedEntry(NewFile(v, path, size, owner, now)) && TypedEntry(NewDir(v, path, owner, now))
    ensures StoredName(Cut(BaseOf(path)))
  {
    BaseIsStored(path);
    assert TypedEntry(v.meta[NewIndex(v) - 1]);
  }

  // ---- file_create ----

  /** `file_create` passes its checks and finds its blocks. */
  ghost predicate Creates(v: Volume, path: bytes, size: nat) {
    && path != [] && path[0] == SLASH && Tokens(path) != [] && DirOf(path) in v.index && path !in v.index
    && HasDead(v.meta)
    && NeedBlocks(size, v.bs) <= |Free(v.used)|
  }

  lemma CreateSucceeds(v: Volume, path: bytes, data: bytes, owner: nat, now: nat)
    ensures CreateFile(v, path, data, owner, now).1 == Success <==> Creates(v, path, |data|)
    ensures Creates(v, path, |data|) ==>
      CreateFile(v, path, data, owner, now).0
        == WithPath(ListedFile(v, path, data, owner, now), path, NewIndex(v))
  {
  }

  lemma StoreFileFields(v: Volume, i: nat, e: MetaEntry, c: seq<nat>, data: bytes)
    requires 1 <= i <= |v.meta|
    ensures var s := StoreFile(v, i, e, c, data);
            && s.meta == v.meta[i - 1 := e.(start := Head(c))] && s.index == v.index && s.bs == v.bs && s.enc == v.enc
            && |s.blocks| == |v.blocks|
  {
  }

  /** The guard under which a success of `file_create` is sound: a canonical path whose last
      component fits, a parent that is a directory with room for one more child once the data
      has its blocks, and a block count that fits in 32 bits. */
  predicate CreateFits(v: Volume, path: bytes, size: nat) {
    var n := CeilDiv(size, Payload(v.bs));
    && Canonical(path) && |BaseOf(path)| <= NAME_MAX
    && IsDir(v.meta, ParentOf(v, path))
    && n < U32 && HasRoom(v, ParentOf(v, path), n)
  }

  lemma CreateStored(v: Volume, path: bytes, data: bytes, owner: nat, now: nat)
    requires Inv(v) && Request(path, |data|, owner, now) && Creates(v, path, |data|)
    requires NeedBlocks(|data|, v.bs) == CeilDiv(|data|, Payload(v.bs))
    ensures var c := Free(v.used)[..NeedBlocks(|data|, v.bs)];
            Stored(v, StoredFile(v, path, data, owner, now), NewIndex(v),
                   NewFile(v, path, |data|, owner, now).(start := Head(c)), c)
  {
    ParentIsLive(v, path);
    NewEntryTyped(v, path, |data|, owner, now);
    var c := Free(v.used)[..NeedBlocks(|data|, v.bs)];
    StoreFileStores(v, NewIndex(v), NewFile(v, path, |data|, owner, now), c, data);
  }

  /** Under the guard. */
  lemma CreateSound(v: Volume, path: bytes, data: bytes, owner: nat, now: nat)
    requires Inv(v) && Request(path, |data|, owner, now) && Creates(v, path, |data|)
    requires CreateFits(v, path, |data|)
    ensures var s, w, i := StoredFile(v, path, data, owner, now), ListedFile(v, path, data, owner, now), NewIndex(v);
            && Inv(WithPath(w, path, i))
            && OthersKept(v, w, i) && w.index == v.index && w.enc == v.enc && w.bs == v.bs
            && NodeAt(w, i) == NodeAt(s, i) && IsFile(w.meta, i)
            && EntryChain(s, i) == Free(v.used)[..NeedBlocks(|data|, v.bs)]
    ensures NeedBlocks(|data|, v.bs) == CeilDiv(|data|, Payload(v.bs))
  {
    var i, p, n := NewIndex(v), ParentOf(v, path), NeedBlocks(|data|, v.bs);
    var c := Free(v.used)[..n];
    var s, w := StoredFile(v, path, data, owner, now), ListedFile(v, path, data, owner, now);
    NeedExact(|data|, v.bs);
    CreateStored(v, path, data, owner, now);
    ParentIsLive(v, path);
    NewEntryTyped(v, path, |data|, owner, now);
    var x := NewFile(v, path, |data|, owner, now).(start := Head(c));
    RoomIsRoom(v, s, i, x, n, p);
    PlaceKeeps(v, s, i, x, c, p);
    ChildPath(path);
    AddNodeIndex(v.meta, w.meta, i, v.index);
    IndexOnly(w, WithPath(w, path, i));
    CreatedRecord(v, path, data, owner, now);
  }

  lemma CreatedRecord(v: Volume, path: bytes, data: bytes, owner: nat, now: nat)
    requires Inv(v) && Creates(v, path, |data|)
    ensures var w, i, p := ListedFile(v, path, data, owner, now), NewIndex(v), ParentOf(v, path);
            && IsFile(w.meta, i) && SizeOf(w, i) == |data| && Par(w.meta, i) == p && w.bs == v.bs
            && (IsDir(w.meta, p) <==> IsDir(v.meta, p))
  {
    var i, p := NewIndex(v), ParentOf(v, path);
    ParentIsLive(v, path);
    StoreFileFields(v, i, NewFile(v, path, |data|, owner, now), Free(v.used)[..NeedBlocks(|data|, v.bs)], data);
    AddChildNodes(StoredFile(v, path, data, owner, now), p, i, i);
    AddChildNodes(StoredFile(v, path, data, owner, now), p, i, p);
  }

  /** Against the guard, some part of the invariant fails. */
  lemma CreateUnsound(v: Volume, path: bytes, data: bytes, owner: nat, now: nat)
    requires Inv(v) && Request(path, |data|, owner, now) && Creates(v, path, |data|)
    requires Inv(WithPath(ListedFile(v, path, data, owner, now), path, NewIndex(v)))
    ensures CreateFits(v, path, |data|)
  {
    var i, p, n := NewIndex(v), ParentOf(v, path), NeedBlocks(|data|, v.bs);
    var c := Free(v.used)[..n];
    var s, w := StoredFile(v, path, data, owner, now), ListedFile(v, path, data, owner, now);
    var r := WithPath(w, path, i);
    ParentIsLive(v, path);
    NewEntryTyped(v, path, |data|, owner, now);
    CreatedRecord(v, path, data, owner, now);
    assert ChainOk(r, i);
    ChainIsShort(r.blocks, EntryChain(r, i));
    NeedExact(|data|, v.bs);
    assert NodeOk(r.meta, i);
    CreateStored(v, path, data, owner, now);
    var x := NewFile(v, path, |data|, owner, now).(start := Head(c));
    StoredIsAdded(v, s, i, x, c, p);
    AddNode(v.meta, w.meta, i);
    assert Points(r.meta, r.index, path);
    ChildPath(path);
    RoomIsRoom(v, s, i, x, n, p);
    IndexOnly(w, r);
    if !HasRoom(v, p, n) {
      PlaceFails(v, s, i, x, c, p);
    }
  }

  lemma CreateFailure(v: Volume, path: bytes, data: bytes, owner: nat, now: nat)
    requires Inv(v) && Request(path, |data|, owner, now) && !Creates(v, path, |data|)
    ensures Inv(CreateFile(v, path, data, owner, now).0) && Abs(CreateFile(v, path, data, owner, now).0) == Abs(v)
  {
    var w := CreateFile(v, path, data, owner, now).0;
    if w != v {
      ParentIsLive(v, path);
      NewEntryTyped(v, path, |data|, owner, now);
      DeadEdit(v, w, NewIndex(v), NewFile(v, path, |data|, owner, now).(valid := 1));
    }
  }

  /** `file_create` succeeds exactly when it passes its checks and finds its blocks. A failure
      keeps the invariant and everything a user sees; a success keeps the invariant exactly
      under the guard. */
  lemma CreateFileKeepsIff(v: Volume, path: bytes, data: bytes, owner: nat, now: nat)
    requires Inv(v) && Request(path, |data|, owner, now)
    ensures var (w, st) := CreateFile(v, path, data, owner, now);
            && (st == Success <==> Creates(v, path, |data|))
            && if Creates(v, path, |data|) then Inv(w) <==> CreateFits(v, path, |data|)
               else Inv(w) && Abs(w) == Abs(v)
  {
    CreateSucceeds(v, path, data, owner, now);
    if Creates(v, path, |data|) {
      if CreateFits(v, path, |data|) {
        CreateSound(v, path, data, owner, now);
      }
      if Inv(CreateFile(v, path, data, owner, now).0) {
        CreateUnsound(v, path, data, owner, now);
      }
    } else {
      CreateFailure(v, path, data, owner, now);
    }
  }

  /** The blocks of a new file: its data, then padding. */
  function FreshCapacity(enc: Encoding.table, data: bytes, pl: nat): bytes
    requires pl > 0
  {
    Encoding.Decode(enc, PadTo(Encoding.Encode(enc, data), CeilDiv(|data|, pl) * pl))
  }

  lemma FreshVisible(enc: Encoding.table, data: bytes, pl: nat)
    requires pl > 0
    ensures Take(FreshCapacity(enc, data, pl), |data|) == Encoding.Decode(enc, Encoding.Encode(enc, data))
    ensures Encoding.Lossless(enc) ==> Take(FreshCapacity(enc, data, pl), |data|) == data
  {
    CeilDivBounds(|data|, pl);
    var n := CeilDiv(|data|, pl) * pl;
    var raw := PadTo(Encoding.Encode(enc, data), n);
    assert raw[..|data|] == Encoding.Encode(enc, data);
    Encoding.CodeOfRange(enc, raw, 0, |data|);
    if Encoding.Lossless(enc) {
      Encoding.DecodeEncode(enc, data);
    }
    assert raw[0..|data|] == raw[..|data|];
  }

  /** Byte by byte: the data as it codes and decodes, then zeros as they decode. */
  lemma FreshIs(enc: Encoding.table, data: bytes, pl: nat, k: nat)
    requires pl > 0 && k < CeilDiv(|data|, pl) * pl
    ensures |FreshCapacity(enc, data, pl)| == CeilDiv(|data|, pl) * pl
    ensures FreshCapacity(enc, data, pl)[k]
         == Encoding.DecodeByte(enc, if k < |data| then Encoding.EncodeByte(enc, data[k]) else 0)
  {
    CeilDivBounds(|data|, pl);
  }

  lemma StoredCapacity(v: Volume, i: nat, e: MetaEntry, c: seq<nat>, data: bytes)
    requires Shape(v) && 1 <= i <= |v.meta| && |c| == CeilDiv(|data|, Payload(v.bs))
    requires c == Allocated(v.used, |c|) && |c| <= |Free(v.used)|
    requires EntryChain(StoreFile(v, i, e, c, data), i) == c
    ensures Capacity(StoreFile(v, i, e, c, data), i) == FreshCapacity(v.enc, data, Payload(v.bs))
  {
    AllocatedFacts(v, |c|);
    CeilDivBounds(|data|, Payload(v.bs));
    FilledRaw(v.blocks, c, v.enc, data, Payload(v.bs));
  }

  lemma AbsAdd(v: Volume, r: Volume, path: bytes, i: nat)
    requires r.index == v.index[path := i] && path !in v.index
    requires forall p | p in v.index :: NodeAt(r, v.index[p]) == NodeAt(v, v.index[p])
    ensures Abs(r) == Abs(v)[path := NodeAt(r, i)]
  {
  }

  lemma OldNodes(v: Volume, w: Volume, i: nat)
    requires Inv(v) && !Live(v.meta, i) && OthersKept(v, w, i)
    ensures forall p | p in v.index :: NodeAt(w, v.index[p]) == NodeAt(v, v.index[p])
  {
    forall p | p in v.index ensures NodeAt(w, v.index[p]) == NodeAt(v, v.index[p]) {
      assert Points(v.meta, v.index, p);
    }
  }

  /** A sound `file_create` adds exactly one path, with the data, and changes no other node. */
  lemma CreateFileRefines(v: Volume, path: bytes, data: bytes, owner: nat, now: nat)
    requires Inv(v) && Request(path, |data|, owner, now) && Creates(v, path, |data|) && CreateFits(v, path, |data|)
    ensures var w := CreateFile(v, path, data, owner, now).0;
            path !in Abs(v) && Abs(w) == Abs(v)[path := File(FreshCapacity(v.enc, data, Payload(v.bs)), |data|)]
  {
    var i, n := NewIndex(v), NeedBlocks(|data|, v.bs);
    var w := ListedFile(v, path, data, owner, now);
    CreateSucceeds(v, path, data, owner, now);
    CreateSound(v, path, data, owner, now);
    CreatedNode(v, path, data, owner, now);
    OldNodes(v, w, i);
    IndexOnly(w, WithPath(w, path, i));
    AbsAdd(v, WithPath(w, path, i), path, i);
  }

  lemma CreatedNode(v: Volume, path: bytes, data: bytes, owner: nat, now: nat)
    requires Inv(v) && Request(path, |data|, owner, now) && Creates(v, path, |data|)
    requires CreateFits(v, path, |data|)
    ensures NodeAt(ListedFile(v, path, data, owner, now), NewIndex(v))
         == File(FreshCapacity(v.enc, data, Payload(v.bs)), |data|)
  {
    var i, n := NewIndex(v), NeedBlocks(|data|, v.bs);
    CreateSound(v, path, data, owner, now);
    CreatedRecord(v, path, data, owner, now);
    StoredCapacity(v, i, NewFile(v, path, |data|, owner, now), Free(v.used)[..n], data);
  }

  /** `file_read` after `file_create` returns the data as it codes and decodes, whatever its
      size: with a lossless table, the data. */
  lemma ReadAfterCreate(v: Volume, path: bytes, data: bytes, owner: nat, now: nat)
    requires Inv(v) && Request(path, |data|, owner, now) && Creates(v, path, |data|) && CreateFits(v, path, |data|)
    ensures var w := CreateFile(v, path, data, owner, now).0;
            && ReadFile(w, path) == (Success, Encoding.Decode(v.enc, Encoding.Encode(v.enc, data)))
            && (Encoding.Lossless(v.enc) ==> ReadFile(w, path) == (Success, data))
  {
    var w, i := ListedFile(v, path, data, owner, now), NewIndex(v);
    CreateSucceeds(v, path, data, owner, now);
    CreateSound(v, path, data, owner, now);
    CreatedNode(v, path, data, owner, now);
    IndexOnly(w, WithPath(w, path, i));
    FreshVisible(v.enc, data, Payload(v.bs));
  }

  // ---- dir_create ----

  /** The path that a new directory gets: the directory part and the cut last component. */
  function TargetOf(path: bytes): bytes {
    Child(DirOf(path), Cut(BaseOf(path)))
  }

  /** The guard under which a success of `dir_create` is sound: nothing has the path that the
      entry gets, and the parent has room for one more child. */
  predicate MakeDirFits(v: Volume, path: bytes) {
    TargetOf(path) !in v.index && HasRoom(v, ParentOf(v, path), 0)
  }

  /** `dir_create` passes its checks, and the list of the parent has a block or gets one. */
  ghost predicate MakesDir(v: Volume, path: bytes) {
    && path != [] && path[0] == SLASH && Tokens(path) != [] && DirOf(path) in v.index && path !in v.index
    && HasDead(v.meta) && IsDir(v.meta, ParentOf(v, path))
    && (StartOf(v, ParentOf(v, path)) != 0 || Free(v.used) != [])
  }

  lemma MakeDirSucceeds(v: Volume, path: bytes, owner: nat, now: nat)
    ensures MakeDir(v, path, owner, now).1 == Success <==> MakesDir(v, path)
    ensures MakesDir(v, path) ==>
      MakeDir(v, path, owner, now).0 == Reindexed(BumpNext(ListedDir(v, path, owner, now), NewIndex(v)))
  {
    if NewIndex(v) != 0 {
      assert ParentOf(v, path) != NewIndex(v) ==>
        StartOf(StoredDir(v, path, owner, now), ParentOf(v, path)) == StartOf(v, ParentOf(v, path));
    }
  }

  function ListedDir(v: Volume, path: bytes, owner: nat, now: nat): (w: Volume)
    requires NewIndex(v) != 0
  {
    AddChild(StoredDir(v, path, owner, now), ParentOf(v, path), NewIndex(v)).0
  }

  lemma MakeDirStored(v: Volume, path: bytes, owner: nat, now: nat)
    requires Inv(v) && Request(path, 0, owner, now) && MakesDir(v, path)
    ensures Stored(v, StoredDir(v, path, owner, now), NewIndex(v), NewDir(v, path, owner, now), [])
    ensures StoredName(Cut(BaseOf(path))) && PathTo(v.meta, ParentOf(v, path)) == DirOf(path)
    ensures HasRoom(v, ParentOf(v, path), 0) <==>
      AddChild(StoredDir(v, path, owner, now), ParentOf(v, path), NewIndex(v)).1
        && |Kids(v, ParentOf(v, path))| < Room(v)
  {
    ParentIsLive(v, path);
    NewEntryTyped(v, path, 0, owner, now);
    StoreDirStores(v, NewIndex(v), NewDir(v, path, owner, now));
    assert Free(v.used)[..0] == [];
    RoomIsRoom(v, StoredDir(v, path, owner, now), NewIndex(v), NewDir(v, path, owner, now), 0, ParentOf(v, path));
  }

  lemma MakeDirSound(v: Volume, path: bytes, owner: nat, now: nat)
    requires Inv(v) && Request(path, 0, owner, now) && MakesDir(v, path) && MakeDirFits(v, path)
    ensures var w, i := ListedDir(v, path, owner, now), NewIndex(v);
            && Inv(Reindexed(BumpNext(w, i)))
            && Reindexed(BumpNext(w, i)).index == v.index[TargetOf(path) := i]
            && OthersKept(v, w, i) && IsDir(w.meta, i)
  {
    var i, p := NewIndex(v), ParentOf(v, path);
    var s, w := StoredDir(v, path, owner, now), ListedDir(v, path, owner, now);
    MakeDirStored(v, path, owner, now);
    PlaceKeeps(v, s, i, NewDir(v, path, owner, now), [], p);
    AddNodeIndex(v.meta, w.meta, i, v.index);
    RebuildIs(w.meta, v.index[TargetOf(path) := i]);
    IndexOnly(w, Reindexed(BumpNext(w, i)));
    AddChildNodes(s, p, i, i);
  }

  lemma MakeDirUnsound(v: Volume, path: bytes, owner: nat, now: nat)
    requires Inv(v) && Request(path, 0, owner, now) && MakesDir(v, path)
    requires Inv(Reindexed(BumpNext(ListedDir(v, path, owner, now), NewIndex(v))))
    ensures MakeDirFits(v, path)
  {
    var i, p := NewIndex(v), ParentOf(v, path);
    var s, w := StoredDir(v, path, owner, now), ListedDir(v, path, owner, now);
    MakeDirStored(v, path, owner, now);
    StoredIsAdded(v, s, i, NewDir(v, path, owner, now), [], p);
    AddNode(v.meta, w.meta, i);
    IndexOnly(w, Reindexed(BumpNext(w, i)));
    if TargetOf(path) in v.index {
      AddNodeClash(v.meta, w.meta, i, v.index, Reindexed(BumpNext(w, i)).index);
    }
    if !HasRoom(v, p, 0) {
      PlaceFails(v, s, i, NewDir(v, path, owner, now), [], p);
    }
  }

  /** A failure changes nothing, or leaves a dead record behind. */
  lemma MakeDirFails(v: Volume, path: bytes, owner: nat, now: nat)
    requires MakeDir(v, path, owner, now).1 != Success
    ensures var w := MakeDir(v, path, owner, now).0;
            w == v || (NewIndex(v) != 0 && w == SetEntry(v, NewIndex(v), NewDir(v, path, owner, now).(valid := 1)))
  {
  }

  lemma MakeDirFailure(v: Volume, path: bytes, owner: nat, now: nat)
    requires Inv(v) && Request(path, 0, owner, now) && !MakesDir(v, path)
    ensures Inv(MakeDir(v, path, owner, now).0) && Abs(MakeDir(v, path, owner, now).0) == Abs(v)
  {
    var w := MakeDir(v, path, owner, now).0;
    MakeDirSucceeds(v, path, owner, now);
    MakeDirFails(v, path, owner, now);
    if w != v {
      ParentIsLive(v, path);
      NewEntryTyped(v, path, 0, owner, now);
      DeadEdit(v, w, NewIndex(v), NewDir(v, path, owner, now).(valid := 1));
    }
  }

  /** `dir_create` succeeds exactly when it passes its checks and the list of the parent has or
      gets a block. A failure keeps the invariant and everything a user sees; a success keeps
      the invariant exactly under the guard. */
  lemma MakeDirKeepsIff(v: Volume, path: bytes, owner: nat, now: nat)
    requires Inv(v) && Request(path, 0, owner, now)
    ensures var (w, st) := MakeDir(v, path, owner, now);
            && (st == Success <==> MakesDir(v, path))
            && if MakesDir(v, path) then Inv(w) <==> MakeDirFits(v, path) else Inv(w) && Abs(w) == Abs(v)
  {
    MakeDirSucceeds(v, path, owner, now);
    if MakesDir(v, path) {
      if MakeDirFits(v, path) {
        MakeDirSound(v, path, owner, now);
      }
      if Inv(MakeDir(v, path, owner, now).0) {
        MakeDirUnsound(v, path, owner, now);
      }
    } else {
      MakeDirFailure(v, path, owner, now);
    }
  }

  /** A sound `dir_create` adds exactly one folder. */
  lemma MakeDirRefines(v: Volume, path: bytes, owner: nat, now: nat)
    requires Inv(v) && Request(path, 0, owner, now) && MakesDir(v, path) && MakeDirFits(v, path)
    ensures var w := MakeDir(v, path, owner, now).0;
            TargetOf(path) !in Abs(v) && Abs(w) == Abs(v)[TargetOf(path) := Folder]
    ensures Canonical(path) && |BaseOf(path)| <= NAME_MAX ==> TargetOf(path) == path
  {
    var w, i := ListedDir(v, path, owner, now), NewIndex(v);
    MakeDirSucceeds(v, path, owner, now);
    MakeDirSound(v, path, owner, now);
    OldNodes(v, w, i);
    IndexOnly(w, Reindexed(BumpNext(w, i)));
    AbsAdd(v, Reindexed(BumpNext(w, i)), TargetOf(path), i);
    ChildPath(path);
  }
}
