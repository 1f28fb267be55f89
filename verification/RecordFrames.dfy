/** The metadata records after each operation, field by field: what the changed record says, and
    that all others stay. This covers what paths and contents do not show: owners, permissions,
    times, reserved bytes, record numbers and the next number. */
module RecordFrames {
  import opened Bytes
  import opened Bitmap
  import opened Paths
  import opened Chains
  import opened Tree
  import opened State
  import opened Ops
  import opened Creating
  import opened CreateTheorems
  import opened Deleting
  import opened Editing
  import opened Truncating
  import opened Renaming
  import opened Runs
  import opened Statuses

  /** The first block of directory `p` once its list has a block, with the `n` lowest free blocks
      taken before: its own, or else the next free one, if any. */
  function ListStart(v: Volume, p: nat, n: nat): nat {
    if StartOf(v, p) != 0 then StartOf(v, p) else if n < |Free(v.used)| then Free(v.used)[n] else 0
  }

  /** All records but `i` stay, except that directory `p` may get its first block. */
  ghost predicate OthersStay(v: Volume, w: Volume, i: nat, p: nat, start: nat) {
    && |w.meta| == |v.meta|
    && forall j | 0 <= j < |v.meta| && j != i - 1 ::
         w.meta[j] == if j == p - 1 then v.meta[j].(start := start) else v.meta[j]
  }

  function NextAfter(v: Volume, i: nat): nat {
    if i < v.next then v.next else i + 1
  }

  /** Block size, code table and the size of the region never change. */
  predicate SameGeometry(v: Volume, w: Volume) {
    w.bs == v.bs && w.enc == v.enc && |w.blocks| == |v.blocks| && |w.used| == |v.used|
  }

  lemma LowestIs(v: Volume, i: nat)
    requires LowestDead(v.meta, i)
    ensures NewIndex(v) == i
  {
    assert HasDead(v.meta);
    OneLowest(v.meta, NewIndex(v), i);
  }

  lemma OneLowest(meta: table, i: nat, k: nat)
    requires LowestDead(meta, i) && LowestDead(meta, k)
    ensures i == k
  {
  }

  /** Without its `n` lowest members the free list starts with the next one. */
  lemma FreeNext(used: seq<bool>, n: nat)
    requires n < |Free(used)|
    ensures var marked := Mark(used, |used|, Free(used)[..n], true);
            Free(marked) != [] && Free(marked)[0] == Free(used)[n]
  {
    var c := Free(used)[..n];
    var marked := Mark(used, |used|, c, true);
    FreeContents(used);
    FreeContents(marked);
    var y := Free(used)[n];
    assert y in Free(used) && y !in c;
    assert y in Free(marked);
    var x := Free(marked)[0];
    assert x in Free(marked) && x in Free(used) && x !in c;
    TakeHas(Free(used), n);
  }

  // ---- Lists ----

  lemma AddChildRecords(s: Volume, p: nat, c: nat)
    ensures var w := AddChild(s, p, c).0;
            && SameGeometry(s, w) && w.index == s.index && w.next == s.next && |w.meta| == |s.meta|
            && (forall j | 0 <= j < |s.meta| ::
                  w.meta[j] == if j == p - 1 then s.meta[j].(start := ListStart(s, p, 0)) else s.meta[j])
            && w.used
               == (if StartOf(s, p) == 0 && Free(s.used) != [] then Mark(s.used, |s.used|, [Free(s.used)[0]], true)
                   else s.used)
  {
  }

  lemma RemoveChildRecords(s: Volume, p: nat, c: nat)
    ensures var w := RemoveChild(s, p, c).0;
            SameGeometry(s, w) && w.index == s.index && w.next == s.next && w.meta == s.meta && w.used == s.used
  {
  }

  // ---- file_create ----

  /** The flags with the `n` lowest free blocks set, and one more for the list of `p` if it needs one. */
  ghost predicate FlagsTaken(v: Volume, w: Volume, p: nat, n: nat) {
    && |w.used| == |v.used|
    && forall b | 0 <= b < |v.used| ::
         w.used[b] == (v.used[b] || b + 1 in Free(v.used)[..if n <= |Free(v.used)| then n else 0]
                       || (StartOf(v, p) == 0 && b + 1 == ListStart(v, p, n)))
  }

  lemma ListedAfter(v: Volume, s: Volume, p: nat, c: nat, n: nat)
    requires n <= |Free(v.used)| && s.used == Mark(v.used, |v.used|, Free(v.used)[..n], true)
    requires StartOf(s, p) == StartOf(v, p)
    ensures ListStart(s, p, 0) == ListStart(v, p, n)
    ensures FlagsTaken(v, AddChild(s, p, c).0, p, n)
  {
    AddChildRecords(s, p, c);
    if n < |Free(v.used)| {
      FreeNext(v.used, n);
    } else {
      FreeAfter(v.used, n);
    }
    TakenFlags(v, s, AddChild(s, p, c).0, p, n);
  }

  lemma TakenFlags(v: Volume, s: Volume, w: Volume, p: nat, n: nat)
    requires n <= |Free(v.used)| && s.used == Mark(v.used, |v.used|, Free(v.used)[..n], true)
    requires StartOf(s, p) == StartOf(v, p) && (StartOf(v, p) == 0 ==> ListStart(s, p, 0) == ListStart(v, p, n))
    requires w.used == if StartOf(s, p) == 0 && Free(s.used) != [] then Mark(s.used, |s.used|, [Free(s.used)[0]], true)
                       else s.used
    ensures FlagsTaken(v, w, p, n)
  {
    forall b | 0 <= b < |v.used|
      ensures w.used[b]
        == (v.used[b] || b + 1 in Free(v.used)[..n] || (StartOf(v, p) == 0 && b + 1 == ListStart(v, p, n)))
    {
      assert s.used[b] == (v.used[b] || b + 1 in Free(v.used)[..n]);
    }
  }

  lemma StoredRecords(v: Volume, i: nat, e: MetaEntry, c: seq<nat>, data: bytes)
    requires 1 <= i <= |v.meta|
    ensures var s := StoreFile(v, i, e, c, data);
            && SameGeometry(v, s) && s.index == v.index && s.next == NextAfter(v, i)
            && s.meta == v.meta[i - 1 := e.(start := Head(c))] && s.used == Mark(v.used, |v.used|, c, true)
  {
  }

  /** A record `x` entered at `i`, and listed in `p`. */
  lemma EnteredRecords(v: Volume, s: Volume, i: nat, p: nat, n: nat, x: MetaEntry)
    requires 1 <= i <= |v.meta| && i != p && s.meta == v.meta[i - 1 := x] && SameGeometry(v, s)
    requires n <= |Free(v.used)| && s.used == Mark(v.used, |v.used|, Free(v.used)[..n], true)
    ensures var w := AddChild(s, p, i).0;
            && OthersStay(v, w, i, p, ListStart(v, p, n)) && w.meta[i - 1] == x && SameGeometry(v, w)
            && w.index == s.index && w.next == s.next && FlagsTaken(v, w, p, n)
  {
    AddChildRecords(s, p, i);
    ListedAfter(v, s, p, i, n);
  }

  /** A successful `file_create`, sound or not: the lowest dead record becomes the file, indexed
      under the path; the data takes the lowest free blocks and the list of the parent the next. */
  lemma CreateRecords(v: Volume, path: bytes, data: bytes, owner: nat, now: nat, i: nat)
    requires Inv(v) && |data| < U64 && Creates(v, path, |data|) && LowestDead(v.meta, i)
    ensures var w, p, n := CreateFile(v, path, data, owner, now).0, v.index[DirOf(path)], Asked(|data|, Payload(v.bs));
            && n <= |Free(v.used)| && OthersStay(v, w, i, p, ListStart(v, p, n)) && i != p
            && w.meta[i - 1]
               == MetaEntry(0, 0, p, Take(BaseOf(path), 11), Head(Free(v.used)[..n]), |data|, owner, 0x1A4, now,
                            now, v.meta[i - 1].reserved)
            && w.index == v.index[path := i] && w.next == NextAfter(v, i)
            && FlagsTaken(v, w, p, n) && SameGeometry(v, w)
  {
    var p, n := v.index[DirOf(path)], NeedBlocks(|data|, v.bs);
    var c, e := Free(v.used)[..n], NewFile(v, path, |data|, owner, now);
    LowestIs(v, i);
    AskedIs(|data|, v.bs);
    ParentIsLive(v, path);
    CreateSucceeds(v, path, data, owner, now);
    StoredRecords(v, i, e, c, data);
    EnteredRecords(v, StoredFile(v, path, data, owner, now), i, p, n, e.(start := Head(c)));
  }

  /** A `file_create` without room for its blocks leaves its record behind, dead; any other
      failure changes nothing. */
  lemma CreateRefusedRecords(v: Volume, path: bytes, data: bytes, owner: nat, now: nat)
    requires Inv(v) && |data| < U64 && CreateFile(v, path, data, owner, now).1 != Success
    ensures var (w, st) := CreateFile(v, path, data, owner, now);
            if st == NoSpace && HasDead(v.meta) then
              exists i: nat :: LowestDead(v.meta, i)
                && w == v.(meta := v.meta[i - 1 := MetaEntry(1, 0, v.index[DirOf(path)], Take(BaseOf(path), 11),
                             v.meta[i - 1].start, |data|, owner, 0x1A4, now, now, v.meta[i - 1].reserved)])
            else w == v
  {
    CreateStatus(v, path, data, owner, now);
    Seen(v, DirOf(path));
    if HasDead(v.meta) {
      assert LowestDead(v.meta, NewIndex(v));
    }
  }

  // ---- dir_create ----

  /** A successful `dir_create`, sound or not. */
  lemma MakeDirRecords(v: Volume, path: bytes, owner: nat, now: nat, i: nat)
    requires Inv(v) && Request(path, 0, owner, now) && MakesDir(v, path) && LowestDead(v.meta, i)
    ensures var w, p := MakeDir(v, path, owner, now).0, v.index[DirOf(path)];
            && OthersStay(v, w, i, p, ListStart(v, p, 0)) && i != p
            && w.meta[i - 1]
               == MetaEntry(0, 1, p, Take(BaseOf(path), 11), 0, 0, owner, 0x1ED, now, now, v.meta[i - 1].reserved)
            && (MakeDirFits(v, path) ==> w.index == v.index[TargetOf(path) := i]) && w.next == NextAfter(v, i)
            && FlagsTaken(v, w, p, 0) && SameGeometry(v, w)
  {
    var p := v.index[DirOf(path)];
    LowestIs(v, i);
    ParentIsLive(v, path);
    MakeDirSucceeds(v, path, owner, now);
    var s := StoredDir(v, path, owner, now);
    assert Free(v.used)[..0] == [];
    assert Mark(v.used, |v.used|, [], true) == v.used;
    EnteredRecords(v, s, i, p, 0, NewDir(v, path, owner, now));
    if MakeDirFits(v, path) {
      MakeDirSound(v, path, owner, now);
    }
  }

  lemma MakeDirRefusedRecords(v: Volume, path: bytes, owner: nat, now: nat)
    requires Inv(v) && MakeDir(v, path, owner, now).1 != Success
    ensures var (w, st) := MakeDir(v, path, owner, now);
            if st == IoError then
              exists i: nat :: LowestDead(v.meta, i)
                && w == v.(meta := v.meta[i - 1 := MetaEntry(1, 1, v.index[DirOf(path)], Take(BaseOf(path), 11), 0, 0,
                             owner, 0x1ED, now, now, v.meta[i - 1].reserved)])
            else w == v
  {
    MakeDirStatus(v, path, owner, now);
    Seen(v, DirOf(path));
    if HasDead(v.meta) {
      assert LowestDead(v.meta, NewIndex(v));
    }
  }

  // ---- file_delete and dir_delete ----

  /** Of a deleted file the record keeps all but its life, its blocks and its size. */
  lemma DeleteRecords(v: Volume, path: bytes)
    requires Inv(v) && FileAt(Abs(v), path)
    ensures Live(v.meta, v.index[path])
    ensures var w, i := DeleteFile(v, path).0, v.index[path];
            var e := v.meta[i - 1];
            && OthersStay(v, w, i, 0, 0) && w.next == v.next && w.index == v.index - {path} && SameGeometry(v, w)
            && w.meta[i - 1]
               == MetaEntry(1, 0, e.parent, e.name, 0, 0, e.owner, e.permissions, e.created, e.modified, e.reserved)
  {
    var i := v.index[path];
    Seen(v, path);
    IndexedPath(v, path);
    RemoveChildRecords(Marked(v, EntryChain(v, i), false), Par(v.meta, i), i);
    DeleteFileRefines(v, path);
  }

  /** Of a deleted directory, all but its life and its block. */
  lemma RemoveDirRecords(v: Volume, path: bytes)
    requires Inv(v) && path != ROOT && FolderAt(Abs(v), path) && !Holds(Abs(v), path)
    ensures Live(v.meta, v.index[path])
    ensures var w, i := RemoveDir(v, path).0, v.index[path];
            var e := v.meta[i - 1];
            && OthersStay(v, w, i, 0, 0) && w.next == v.next && w.index == v.index - {path} && SameGeometry(v, w)
            && w.meta[i - 1]
               == MetaEntry(1, 1, e.parent, e.name, 0, e.size, e.owner, e.permissions, e.created, e.modified,
                            e.reserved)
  {
    var i := v.index[path];
    Seen(v, path);
    RemoveDirStatus(v, path);
    RemoveChildRecords(v, Par(v.meta, i), i);
    RemoveDirRefines(v, path);
  }

  // ---- file_edit and file_truncate ----

  /** An edit sets the time of change and nothing else. */
  lemma EditRecords(v: Volume, path: bytes, data: bytes, index: nat, now: nat)
    requires Inv(v) && EditFile(v, path, data, index, now).1 == Success
    ensures var w, i := EditFile(v, path, data, index, now).0, v.index[path];
            var e := v.meta[i - 1];
            && OthersStay(v, w, i, 0, 0) && w.next == v.next && w.index == v.index && w.used == v.used
            && SameGeometry(v, w)
            && w.meta[i - 1]
               == MetaEntry(0, 0, e.parent, e.name, e.start, e.size, e.owner, e.permissions, e.created, now,
                            e.reserved)
  {
    EditIs(v, path, data, index, now);
  }

  /** A truncate sets size and time, and the first block where there was or is none. */
  lemma TruncateRecords(v: Volume, path: bytes, newSize: nat, now: nat)
    requires Inv(v) && newSize < U64 && TruncateFile(v, path, newSize, now).1 == Success
    ensures var w, i, n := TruncateFile(v, path, newSize, now).0, v.index[path], Asked(newSize, Payload(v.bs));
            var e, c := v.meta[i - 1], EntryChain(v, i);
            && OthersStay(v, w, i, 0, 0) && w.index == v.index && SameGeometry(v, w)
            && w.next == (if n > |c| then NextAfter(v, i) else v.next)
            && (n > |c| ==> Free(v.used) != [])
            && w.meta[i - 1]
               == MetaEntry(0, 0, e.parent, e.name,
                            if n == 0 then 0 else if c == [] then Free(v.used)[0] else e.start, newSize, e.owner,
                            e.permissions, e.created, now, e.reserved)
  {
    AskedIs(newSize, v.bs);
    IndexedPath(v, path);
    var i := v.index[path];
    assert ChainOk(v, i);
    TruncatedRecord(v, i, v.meta[i - 1].(size := newSize, modified := now), EntryChain(v, i),
      NeedBlocks(newSize, v.bs));
  }

  lemma TruncatedRecord(v: Volume, i: nat, e: MetaEntry, c: seq<nat>, n: nat)
    requires 1 <= i <= |v.meta| && ResizedTo(v, i, e, c, n).1 == Success
    ensures var w := ResizedTo(v, i, e, c, n).0;
            && w.index == v.index && SameGeometry(v, w) && (n > |c| ==> Free(v.used) != [])
            && w.next == (if n > |c| then NextAfter(v, i) else v.next)
            && w.meta == v.meta[i - 1 := if n == |c| then e
                                         else if n == 0 then e.(start := 0)
                                         else if c == [] then e.(start := Free(v.used)[0]) else e]
  {
  }

  // ---- file_rename ----

  /** A successful rename, sound or not: the moved record has the new name, parent and time of
      change, and all else it had; it gets a first block only if it is itself the directory it
      moves to. */
  lemma RenameRecords(v: Volume, path: bytes, newPath: bytes, now: nat)
    requires Inv(v) && 0 !in newPath && now < U64 && RenameEntry(v, path, newPath, now).1 == Success
    ensures NewDirOf(newPath) in v.index && path in v.index
    ensures var w, i, np := RenameEntry(v, path, newPath, now).0, v.index[path], v.index[NewDirOf(newPath)];
            var e := v.meta[i - 1];
            && OthersStay(v, w, i, np, ListStart(v, np, 0)) && w.next == v.next && SameGeometry(v, w)
            && FlagsTaken(v, w, np, 0)
            && w.meta[i - 1]
               == MetaEntry(0, e.kind, np, NewBaseOf(newPath), if np == i then ListStart(v, np, 0) else e.start,
                            e.size, e.owner, e.permissions, e.created, now, e.reserved)
  {
    RenameStatus(v, path, newPath, now);
    Seen(v, path);
    Seen(v, NewDirOf(newPath));
    RenameGuards(v, path, newPath, now);
    RenamableFacts(v, path, newPath);
    MovedRecords(v, v.index[path], v.index[NewDirOf(newPath)], NewBaseOf(newPath), now);
    PlacesWhen(v, v.index[path], v.index[NewDirOf(newPath)], NewBaseOf(newPath), now);
    RelocatedCases(v, v.index[path], v.index[NewDirOf(newPath)], NewBaseOf(newPath), now);
  }

  lemma MovedRecords(v: Volume, i: nat, np: nat, name: bytes, now: nat)
    requires Inv(v) && Live(v.meta, i) && i != 1 && StoredName(name) && np < U32 && now < U64
    ensures var w, e := Placed(v, i, np, name, now), v.meta[i - 1];
            && OthersStay(v, w, i, np, ListStart(v, np, 0)) && w.next == v.next && SameGeometry(v, w)
            && FlagsTaken(v, w, np, 0) && w.index == v.index
            && w.meta[i - 1]
               == MetaEntry(0, e.kind, np, name, if np == i then ListStart(v, np, 0) else e.start, e.size, e.owner,
                            e.permissions, e.created, now, e.reserved)
  {
    var y := Renamed(v, i, np, name, now);
    RemoveChildRecords(v, Par(v.meta, i), i);
    MarkNone(v.used);
    MovedIn(v, y, i, np, RenamedRecord(v.meta[i - 1], name, np, now));
  }

  lemma MarkNone(used: seq<bool>)
    ensures Free(used)[..0] == [] && Mark(used, |used|, Free(used)[..0], true) == used
  {
  }

  lemma MovedIn(v: Volume, y: Volume, i: nat, np: nat, x: MetaEntry)
    requires 1 <= i <= |v.meta| && y.meta == v.meta[i - 1 := x] && x.start == v.meta[i - 1].start && SameGeometry(v, y)
    requires y.used == v.used && v.used == Mark(v.used, |v.used|, Free(v.used)[..0], true)
    ensures var w := AddChild(y, np, i).0;
            && OthersStay(v, w, i, np, ListStart(v, np, 0)) && w.next == y.next && w.index == y.index
              && SameGeometry(v, w)
            && FlagsTaken(v, w, np, 0)
            && w.meta[i - 1] == if np == i then x.(start := ListStart(v, np, 0)) else x
  {
    AddChildRecords(y, np, i);
    ListedAfter(v, y, np, i, 0);
    MovedTable(v.meta, y.meta, AddChild(y, np, i).0.meta, i, np, x, ListStart(v, np, 0));
  }

  lemma MovedTable(a: table, b: table, c: table, i: nat, np: nat, x: MetaEntry, start: nat)
    requires 1 <= i <= |a| == |c| && b == a[i - 1 := x]
    requires forall j | 0 <= j < |b| :: c[j] == if j == np - 1 then b[j].(start := start) else b[j]
    ensures forall j | 0 <= j < |a| && j != i - 1 :: c[j] == if j == np - 1 then a[j].(start := start) else a[j]
    ensures c[i - 1] == if np == i then x.(start := start) else x
  {
  }

  /** Entry `i` back in its directory under another name. */
  ghost predicate Returned(v: Volume, w: Volume, i: nat, name: bytes, now: nat) {
    && 1 <= i <= |v.meta| && OthersStay(v, w, i, 0, 0) && w.next == v.next && w.index == v.index && w.used == v.used
    && SameGeometry(v, w)
    && var e := v.meta[i - 1];
       w.meta[i - 1]
         == MetaEntry(0, e.kind, e.parent, name, e.start, e.size, e.owner, e.permissions, e.created, now, e.reserved)
  }

  /** A rename that is rolled back for want of a block leaves the new name and time; any other
      failure changes nothing. */
  lemma RenameRefusedRecords(v: Volume, path: bytes, newPath: bytes, now: nat)
    requires Inv(v) && 0 !in newPath && now < U64 && RenameEntry(v, path, newPath, now).1 != Success
    ensures var (w, st) := RenameEntry(v, path, newPath, now);
            if st == IoError then path in v.index && Returned(v, w, v.index[path], NewBaseOf(newPath), now) else w == v
  {
    RenameGuards(v, path, newPath, now);
    if Renamable(v, path, newPath) {
      RenamableFacts(v, path, newPath);
      BackRecords(v, v.index[path], Target(v, newPath), NewBaseOf(newPath), now);
    } else {
      RefusedIsNoIoError(v, path, newPath, now);
    }
  }

  lemma RefusedIsNoIoError(v: Volume, path: bytes, newPath: bytes, now: nat)
    requires !Renamable(v, path, newPath)
    ensures RenameEntry(v, path, newPath, now).1 != IoError
  {
  }

  lemma BackRecords(v: Volume, i: nat, np: nat, name: bytes, now: nat)
    requires Inv(v) && Live(v.meta, i) && i != 1 && StoredName(name) && np < U32 && now < U64
    requires Relocated(v, i, np, name, now).1 != Success
    ensures Relocated(v, i, np, name, now).1 == IoError && Returned(v, Relocated(v, i, np, name, now).0, i, name, now)
  {
    PlacesWhen(v, i, np, name, now);
    RelocatedCases(v, i, np, name, now);
    RolledBackRecords(v, i, name, now);
  }

  lemma RolledBackRecords(v: Volume, i: nat, name: bytes, now: nat)
    requires Inv(v) && Live(v.meta, i) && i != 1 && StoredName(name) && now < U64
    ensures Returned(v, Placed(v, i, Par(v.meta, i), name, now), i, name, now)
  {
    var op := Par(v.meta, i);
    var y := Renamed(v, i, op, name, now);
    Listed(v, i);
    UnlistKeeps(v, i);
    RemoveChildRecords(v, op, i);
    AddChildRecords(y, op, i);
  }

  // ---- Every operation ----

  lemma OtherBirth(v: Volume, w: Volume, i: nat, p: nat, start: nat, j: nat)
    requires OthersStay(v, w, i, p, start) && Live(v.meta, j) && j != i
    ensures SameBirth(v, w, j)
  {
    assert w.meta[j - 1] == if j == p then v.meta[j - 1].(start := start) else v.meta[j - 1];
  }

  /** What no operation changes in a live record that stays live. */
  predicate SameBirth(v: Volume, w: Volume, j: nat) {
    && 1 <= j <= |v.meta| && j <= |w.meta| && w.meta[j - 1].kind == v.meta[j - 1].kind
    && w.meta[j - 1].owner == v.meta[j - 1].owner && w.meta[j - 1].permissions == v.meta[j - 1].permissions
    && w.meta[j - 1].created == v.meta[j - 1].created && w.meta[j - 1].reserved == v.meta[j - 1].reserved
  }

  /** Kind, owner, permissions, time of creation and reserved bytes of an entry are those that it
      was created with, whatever operation is called and whether it succeeds. */
  lemma StepKeepsBirth(v: Volume, op: Op, j: nat)
    requires Inv(v) && Wellformed(op) && Live(v.meta, j)
    ensures SameBirth(v, Apply(v, op).0, j)
  {
    match op
    case Create(path, data, owner, now) => CreateBirth(v, path, data, owner, now, j);
    case MkDir(path, owner, now) => MakeDirBirth(v, path, owner, now, j);
    case Delete(path) => DeleteBirth(v, path, j);
    case RmDir(path) => RemoveDirBirth(v, path, j);
    case Edit(path, data, index, now) => EditBirth(v, path, data, index, now, j);
    case Truncate(path, newSize, now) => TruncateBirth(v, path, newSize, now, j);
    case Rename(path, newPath, now) => RenameBirth(v, path, newPath, now, j);
  }

  lemma DeleteBirth(v: Volume, path: bytes, j: nat)
    requires Inv(v) && Live(v.meta, j)
    ensures SameBirth(v, DeleteFile(v, path).0, j)
  {
    DeleteFileRefines(v, path);
    Seen(v, path);
    if FileAt(Abs(v), path) {
      DeleteRecords(v, path);
      if j != v.index[path] {
        OtherBirth(v, DeleteFile(v, path).0, v.index[path], 0, 0, j);
      }
    }
  }

  lemma RemoveDirBirth(v: Volume, path: bytes, j: nat)
    requires Inv(v) && Live(v.meta, j)
    ensures SameBirth(v, RemoveDir(v, path).0, j)
  {
    RemoveDirStatus(v, path);
    RemoveDirRefines(v, path);
    Seen(v, path);
    if RemoveDir(v, path).1 == Success {
      RemoveDirRecords(v, path);
      if j != v.index[path] {
        OtherBirth(v, RemoveDir(v, path).0, v.index[path], 0, 0, j);
      }
    }
  }

  lemma EditBirth(v: Volume, path: bytes, data: bytes, index: nat, now: nat, j: nat)
    requires Inv(v) && Live(v.meta, j)
    ensures SameBirth(v, EditFile(v, path, data, index, now).0, j)
  {
    EditIs(v, path, data, index, now);
    if EditFile(v, path, data, index, now).1 == Success {
      EditRecords(v, path, data, index, now);
      if j != v.index[path] {
        OtherBirth(v, EditFile(v, path, data, index, now).0, v.index[path], 0, 0, j);
      }
    }
  }

  lemma TruncateBirth(v: Volume, path: bytes, newSize: nat, now: nat, j: nat)
    requires Inv(v) && newSize < U64 && Live(v.meta, j)
    ensures SameBirth(v, TruncateFile(v, path, newSize, now).0, j)
  {
    TruncateGuards(v, path, newSize, now);
    if TruncateFile(v, path, newSize, now).1 == Success {
      TruncateRecords(v, path, newSize, now);
      if j != v.index[path] {
        OtherBirth(v, TruncateFile(v, path, newSize, now).0, v.index[path], 0, 0, j);
      }
    }
  }

  lemma RenameBirth(v: Volume, path: bytes, newPath: bytes, now: nat, j: nat)
    requires Inv(v) && 0 !in newPath && now < U64 && Live(v.meta, j)
    ensures SameBirth(v, RenameEntry(v, path, newPath, now).0, j)
  {
    if RenameEntry(v, path, newPath, now).1 == Success {
      MovedBirth(v, path, newPath, now, j);
    } else {
      BackBirth(v, path, newPath, now, j);
    }
  }

  lemma MovedBirth(v: Volume, path: bytes, newPath: bytes, now: nat, j: nat)
    requires Inv(v) && 0 !in newPath && now < U64 && Live(v.meta, j) && RenameEntry(v, path, newPath, now).1 == Success
    ensures SameBirth(v, RenameEntry(v, path, newPath, now).0, j)
  {
    RenameRecords(v, path, newPath, now);
    var np := v.index[NewDirOf(newPath)];
    if j != v.index[path] {
      OtherBirth(v, RenameEntry(v, path, newPath, now).0, v.index[path], np, ListStart(v, np, 0), j);
    }
  }

  lemma BackBirth(v: Volume, path: bytes, newPath: bytes, now: nat, j: nat)
    requires Inv(v) && 0 !in newPath && now < U64 && Live(v.meta, j) && RenameEntry(v, path, newPath, now).1 != Success
    ensures SameBirth(v, RenameEntry(v, path, newPath, now).0, j)
  {
    RenameRefusedRecords(v, path, newPath, now);
    if RenameEntry(v, path, newPath, now).1 == IoError && j != v.index[path] {
      OtherBirth(v, RenameEntry(v, path, newPath, now).0, v.index[path], 0, 0, j);
    }
  }

  lemma CreateBirth(v: Volume, path: bytes, data: bytes, owner: nat, now: nat, j: nat)
    requires Inv(v) && |data| < U64 && Live(v.meta, j)
    ensures SameBirth(v, CreateFile(v, path, data, owner, now).0, j)
  {
    CreateSucceeds(v, path, data, owner, now);
    if Creates(v, path, |data|) {
      CreateRecords(v, path, data, owner, now, NewIndex(v));
      var p, n := v.index[DirOf(path)], Asked(|data|, Payload(v.bs));
      OtherBirth(v, CreateFile(v, path, data, owner, now).0, NewIndex(v), p, ListStart(v, p, n), j);
    } else {
      CreateRefusedRecords(v, path, data, owner, now);
    }
  }

  lemma MakeDirBirth(v: Volume, path: bytes, owner: nat, now: nat, j: nat)
    requires Inv(v) && Request(path, 0, owner, now) && Live(v.meta, j)
    ensures SameBirth(v, MakeDir(v, path, owner, now).0, j)
  {
    MakeDirSucceeds(v, path, owner, now);
    if MakesDir(v, path) {
      MadeBirth(v, path, owner, now, j);
    } else {
      MakeDirRefusedRecords(v, path, owner, now);
    }
  }

  lemma MadeBirth(v: Volume, path: bytes, owner: nat, now: nat, j: nat)
    requires Inv(v) && Request(path, 0, owner, now) && Live(v.meta, j) && MakesDir(v, path)
    ensures SameBirth(v, MakeDir(v, path, owner, now).0, j)
  {
    MakeDirRecords(v, path, owner, now, NewIndex(v));
    var p := v.index[DirOf(path)];
    OtherBirth(v, MakeDir(v, path, owner, now).0, NewIndex(v), p, ListStart(v, p, 0), j);
  }
}
