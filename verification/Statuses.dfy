/** Which status each operation returns, said of the paths and nodes that a user sees and of
    what is free in the volume. The conditions of one operation exclude each other and leave no
    case, so no other status is ever returned. */
module Statuses {
  import opened Bytes
  import opened Counting
  import opened Bitmap
  import opened Paths
  import opened Chains
  import opened Tree
  import opened State
  import opened Ops
  import opened Layout
  import opened Creating
  import opened CreateTheorems
  import opened Deleting
  import opened Editing
  import opened Renaming
  import opened Runs

  // ---- Paths, nodes and free blocks ----

  /** A path for a new entry: it starts with a slash and is not all slashes. */
  ghost predicate NamesNew(path: bytes) {
    path != [] && path[0] == SLASH && exists k :: 0 <= k < |path| && path[k] != SLASH
  }

  lemma NamesNewIs(path: bytes)
    ensures NamesNew(path) <==> path != [] && path[0] == SLASH && Tokens(path) != []
  {
    NoTokens(path);
  }

  /** What the index and the records say of a path is what a user sees. */
  lemma Seen(v: Volume, p: bytes)
    requires Inv(v)
    ensures p in Abs(v) <==> p in v.index
    ensures p in v.index ==> Live(v.meta, v.index[p])
    ensures FolderAt(Abs(v), p) <==> p in v.index && IsDir(v.meta, v.index[p])
    ensures FileAt(Abs(v), p) <==> p in v.index && IsFile(v.meta, v.index[p])
    ensures FileAt(Abs(v), p) ==> Abs(v)[p] == File(Capacity(v, v.index[p]), SizeOf(v, v.index[p]))
  {
    if p in v.index {
      NodeOfIndexed(v, p);
      IndexedPath(v, p);
    }
  }

  predicate IsFree(used: seq<bool>, b: nat) {
    1 <= b <= |used| && !used[b - 1]
  }

  /** The numbers of the blocks that are free. */
  function FreeSet(used: seq<bool>): set<nat> {
    set b: nat | 1 <= b <= |used| && IsFree(used, b)
  }

  lemma FreeCount(used: seq<bool>)
    ensures |Free(used)| == |FreeSet(used)|
  {
    FreeContents(used);
    assert Elements(Free(used)) == FreeSet(used);
    ElementsCard(Free(used));
  }

  /** The blocks that the engine asks for: rounded up, narrowed to 32 bits, and none at all for
      the last sizes below 2 to the 64. */
  function Asked(size: nat, pl: nat): nat
    requires pl > 0
  {
    if size + pl - 1 < U64 then CeilDiv(size, pl) % U32 else 0
  }

  lemma AskedIs(size: nat, bs: nat)
    requires size < U64 && Payload(bs) <= U32
    ensures NeedBlocks(size, bs) == Asked(size, Payload(bs))
  {
    var pl := Payload(bs);
    if size + pl - 1 >= U64 {
      assert (size + pl - 1) % U64 == size + pl - 1 - U64;
      DivIs(size + pl - 1 - U64, pl, 0);
    } else if size > 0 {
      RoundedUp(size, pl);
    }
  }

  lemma RoundedUp(size: nat, pl: nat)
    requires size > 0 && pl > 0
    ensures (size + pl - 1) / pl == CeilDiv(size, pl)
  {
    DivBounds(size - 1, pl);
    DivIs(size + pl - 1, pl, (size - 1) / pl + 1);
  }

  // ---- Reading ----

  /** `file_read`, with the bytes it returns. */
  lemma ReadStatus(v: Volume, path: bytes)
    requires Inv(v)
    ensures var (st, data) := ReadFile(v, path);
            && (st == NotFound <==> path !in Abs(v))
            && (st == InvalidOperation <==> FolderAt(Abs(v), path))
            && (st == Success <==> FileAt(Abs(v), path))
            && (st == Success ==> data == Take(Abs(v)[path].capacity, Abs(v)[path].size) && |data| == Abs(v)[path].size)
            && (st != Success ==> data == [])
  {
    Seen(v, path);
    if FileAt(Abs(v), path) {
      var i := v.index[path];
      assert ChainOk(v, i);
      CeilDivBounds(SizeOf(v, i), Payload(v.bs));
    }
  }

  // ---- Creating ----

  lemma CreateStatus(v: Volume, path: bytes, data: bytes, owner: nat, now: nat)
    requires Inv(v) && |data| < U64
    ensures var st, a := CreateFile(v, path, data, owner, now).1, Abs(v);
            && (st == InvalidPath <==> !NamesNew(path))
            && (st == NotFound <==> NamesNew(path) && DirOf(path) !in a)
            && (st == FileExists <==> NamesNew(path) && DirOf(path) in a && path in a)
            && (st == NoSpace <==>
                  && NamesNew(path) && DirOf(path) in a && path !in a
                  && !(HasDead(v.meta) && Asked(|data|, Payload(v.bs)) <= |FreeSet(v.used)|))
            && (st == Success <==>
                  && NamesNew(path) && DirOf(path) in a && path !in a
                  && HasDead(v.meta) && Asked(|data|, Payload(v.bs)) <= |FreeSet(v.used)|)
  {
    NamesNewIs(path);
    Seen(v, path);
    Seen(v, DirOf(path));
    AskedIs(|data|, v.bs);
    FreeCount(v.used);
  }

  /** The list of the directory at a path has a block, or a block is free for it. */
  ghost predicate ListSpace(v: Volume, dir: bytes) {
    dir in v.index && (StartOf(v, v.index[dir]) != 0 || exists b :: 0 <= b < |v.used| && !v.used[b])
  }

  lemma ListSpaceIs(v: Volume, dir: bytes)
    requires dir in v.index
    ensures ListSpace(v, dir) <==> StartOf(v, v.index[dir]) != 0 || Free(v.used) != []
  {
    FreeContents(v.used);
    if b :| 0 <= b < |v.used| && !v.used[b] {
      assert b + 1 in Free(v.used);
    }
    if Free(v.used) != [] {
      assert Free(v.used)[0] in Free(v.used);
    }
  }

  lemma MakeDirStatus(v: Volume, path: bytes, owner: nat, now: nat)
    requires Inv(v)
    ensures var st, a := MakeDir(v, path, owner, now).1, Abs(v);
            && (st == InvalidPath <==> !NamesNew(path))
            && (st == NotFound <==> NamesNew(path) && DirOf(path) !in a)
            && (st == InvalidOperation <==> NamesNew(path) && FileAt(a, DirOf(path)))
            && (st == FileExists <==> NamesNew(path) && FolderAt(a, DirOf(path)) && path in a)
            && (st == NoSpace <==> NamesNew(path) && FolderAt(a, DirOf(path)) && path !in a && !HasDead(v.meta))
            && (st == IoError <==>
                  && NamesNew(path) && FolderAt(a, DirOf(path)) && path !in a && HasDead(v.meta)
                  && !ListSpace(v, DirOf(path)))
            && (st == Success <==>
                  && NamesNew(path) && FolderAt(a, DirOf(path)) && path !in a && HasDead(v.meta)
                  && ListSpace(v, DirOf(path)))
  {
    NamesNewIs(path);
    Seen(v, path);
    Seen(v, DirOf(path));
    MakeDirSucceeds(v, path, owner, now);
    if DirOf(path) in v.index {
      ListSpaceIs(v, DirOf(path));
    }
  }

  // ---- Deleting ----

  lemma DeleteStatus(v: Volume, path: bytes)
    requires Inv(v)
    ensures var st := DeleteFile(v, path).1;
            && (st == Success <==> FileAt(Abs(v), path))
            && (st == NotFound <==> !FileAt(Abs(v), path))
  {
    Seen(v, path);
  }

  /** Something lies below a path. */
  ghost predicate Holds(a: map<bytes, Node>, path: bytes) {
    exists p :: p in a && path + ROOT <= p
  }

  /** A live directory has children exactly when something lies below its path. */
  lemma HoldsIs(v: Volume, path: bytes)
    requires Inv(v) && path != ROOT && path in v.index && IsDir(v.meta, v.index[path])
    ensures Holds(Abs(v), path) <==> !Childless(v.meta, v.index[path])
  {
    var i := v.index[path];
    IndexedPath(v, path);
    if Childless(v.meta, i) {
      forall p | p in Abs(v) ensures !(path + ROOT <= p) {
        NothingBelow(v, i, p);
      }
    } else {
      var c: nat :| Live(v.meta, c) && Par(v.meta, c) == i;
      assert Par(v.meta, 1) == 0;
      PathStep(v.meta, c);
      assert Indexed(v.meta, v.index, c);
      var p := PathTo(v.meta, c);
      assert p == path + ROOT + NameOf(v.meta, c);
      assert p[..|path| + 1] == path + ROOT;
      assert p in Abs(v) && path + ROOT <= p;
    }
  }

  lemma RemoveDirStatus(v: Volume, path: bytes)
    requires Inv(v)
    ensures var st, a := RemoveDir(v, path).1, Abs(v);
            && (st == NotFound <==> path != [] && path != ROOT && path !in a)
            && (st == InvalidOperation <==> path == [] || path == ROOT || FileAt(a, path))
            && (st == DirectoryNotEmpty <==> path != ROOT && FolderAt(a, path) && Holds(a, path))
            && (st == Success <==> path != ROOT && FolderAt(a, path) && !Holds(a, path))
  {
    Seen(v, path);
    RemoveDirRefines(v, path);
    NoEmptyPath(v);
    if path != ROOT && FolderAt(Abs(v), path) {
      HoldsIs(v, path);
      EmptyDirIsRemovable(v, v.index[path]);
    }
  }

  lemma NoEmptyPath(v: Volume)
    requires Inv(v)
    ensures [] !in v.index
  {
    if [] in v.index {
      IndexedPath(v, []);
    }
  }

  // ---- Writing ----

  lemma CapacitySize(v: Volume, i: nat, index: nat)
    ensures |Capacity(v, i)| == |EntryChain(v, i)| * Payload(v.bs)
    ensures Quot(index, Payload(v.bs)) < |EntryChain(v, i)| <==> index < |Capacity(v, i)|
  {
    var pl, n := Payload(v.bs), |EntryChain(v, i)|;
    QuotRem(index, pl);
    if Quot(index, pl) < n {
      MulStep(Quot(index, pl), n, pl);
    } else {
      MulMono(n, Quot(index, pl), pl);
    }
  }

  lemma EditStatus(v: Volume, path: bytes, data: bytes, index: nat, now: nat)
    requires Inv(v)
    ensures var st, a := EditFile(v, path, data, index, now).1, Abs(v);
            && (st == NotFound <==> !FileAt(a, path))
            && (st == InvalidOperation <==>
                  FileAt(a, path) && (index > a[path].size || index >= |a[path].capacity|))
            && (st == Success <==> FileAt(a, path) && index <= a[path].size && index < |a[path].capacity|)
  {
    EditChecks(v, path, data, index, now);
    EditStatusOf(v, path, index, EditFile(v, path, data, index, now).1);
  }

  function EditStatusAt(v: Volume, path: bytes, index: nat): Status {
    if path !in v.index || !IsFile(v.meta, v.index[path]) then NotFound
    else if index > SizeOf(v, v.index[path]) || Quot(index, Payload(v.bs)) >= |EntryChain(v, v.index[path])|
    then InvalidOperation
    else Success
  }

  lemma EditChecks(v: Volume, path: bytes, data: bytes, index: nat, now: nat)
    ensures EditFile(v, path, data, index, now).1 == EditStatusAt(v, path, index)
  {
  }

  lemma EditStatusOf(v: Volume, path: bytes, index: nat, st: Status)
    requires Inv(v) && st == EditStatusAt(v, path, index)
    ensures var a := Abs(v);
            && (st == NotFound <==> !FileAt(a, path))
            && (st == InvalidOperation <==>
                  FileAt(a, path) && (index > a[path].size || index >= |a[path].capacity|))
            && (st == Success <==> FileAt(a, path) && index <= a[path].size && index < |a[path].capacity|)
  {
    Seen(v, path);
    if FileAt(Abs(v), path) {
      CapacitySize(v, v.index[path], index);
    }
  }

  lemma TruncateStatus(v: Volume, path: bytes, newSize: nat, now: nat)
    requires Inv(v) && newSize < U64
    ensures var st, a, pl := TruncateFile(v, path, newSize, now).1, Abs(v), Payload(v.bs);
            && (st == NotFound <==> path !in a)
            && (st == InvalidOperation <==> FolderAt(a, path))
            && (st == NoSpace <==>
                  FileAt(a, path) && Asked(newSize, pl) * pl > |a[path].capacity| + |FreeSet(v.used)| * pl)
            && (st == Success <==>
                  FileAt(a, path) && Asked(newSize, pl) * pl <= |a[path].capacity| + |FreeSet(v.used)| * pl)
  {
    Seen(v, path);
    AskedIs(newSize, v.bs);
    FreeCount(v.used);
    if path in v.index {
      var n, m, pl := |EntryChain(v, v.index[path])|, |Free(v.used)|, Payload(v.bs);
      CapacitySize(v, v.index[path], 0);
      SpaceLeft(Asked(newSize, pl), n, m, pl);
    }
  }

  lemma SpaceLeft(need: nat, n: nat, m: nat, pl: nat)
    requires pl > 0
    ensures need <= n + m <==> need * pl <= n * pl + m * pl
  {
    assert (n + m) * pl == n * pl + m * pl;
    if need <= n + m {
      MulMono(need, n + m, pl);
    } else {
      MulMono(n + m + 1, need, pl);
    }
  }

  // ---- Renaming ----

  /** A path with a slash is a directory part, a slash and a name without slashes; an empty
      directory part stands for the root. */
  lemma NewPathParts(p: bytes) returns (dir: bytes)
    requires SLASH in p
    ensures p == dir + ROOT + NewBaseOf(p) && SLASH !in NewBaseOf(p)
    ensures NewDirOf(p) == if dir == [] then ROOT else dir
  {
    LastSlashIs(p, |p|);
    var pos := LastSlash(p, |p|);
    dir := p[..pos];
    SplitAt(p, pos);
  }

  lemma NoSlash(p: bytes)
    ensures LastSlash(p, |p|) == |p| <==> SLASH !in p
  {
    LastSlashIs(p, |p|);
  }

  /** The new name can be stored: 1 to 11 bytes. */
  predicate NameFits(newPath: bytes) {
    1 <= |NewBaseOf(newPath)| <= 11
  }

  /** The checks on both paths that come before the one on the new directory. */
  ghost predicate BothNamed(a: map<bytes, Node>, path: bytes, newPath: bytes) {
    path in a && newPath != [] && newPath !in a && SLASH in newPath
  }

  lemma RenameStatus(v: Volume, path: bytes, newPath: bytes, now: nat)
    requires Inv(v) && 0 !in newPath && now < U64
    ensures var st, a, dir := RenameEntry(v, path, newPath, now).1, Abs(v), NewDirOf(newPath);
            && (st == InvalidPath <==>
                  path == [] || newPath == [] || (path in a && newPath !in a && SLASH !in newPath))
            && (st == FileExists <==> path in a && newPath in a)
            && (st == NotFound <==>
                  || (path != [] && newPath != [] && path !in a)
                  || (BothNamed(a, path, newPath) && NameFits(newPath) && dir !in a))
            && (st == InvalidOperation <==>
                  && BothNamed(a, path, newPath)
                  && (!NameFits(newPath) || FileAt(a, dir) || (FolderAt(a, dir) && path == ROOT)))
            && (st == IoError <==>
                  && BothNamed(a, path, newPath) && NameFits(newPath) && FolderAt(a, dir) && path != ROOT
                  && !ListSpace(v, dir))
            && (st == Success <==>
                  && BothNamed(a, path, newPath) && NameFits(newPath) && FolderAt(a, dir) && path != ROOT
                  && ListSpace(v, dir))
  {
    var dir := NewDirOf(newPath);
    Seen(v, path);
    Seen(v, newPath);
    Seen(v, dir);
    NoSlash(newPath);
    NoEmptyPath(v);
    if path in v.index {
      RootAlone(v, path);
      if Renamable(v, path, newPath) {
        RenamableFacts(v, path, newPath);
        RelocatesWhen(v, v.index[path], Target(v, newPath), NewBaseOf(newPath), now);
        PlacesWhen(v, v.index[path], Target(v, newPath), NewBaseOf(newPath), now);
        RelocatedCases(v, v.index[path], Target(v, newPath), NewBaseOf(newPath), now);
        ListSpaceIs(v, dir);
      }
    }
  }

  /** Only the root has no parent. */
  lemma RootAlone(v: Volume, path: bytes)
    requires Inv(v) && path in v.index
    ensures path == ROOT <==> v.index[path] == 1
    ensures path == ROOT <==> !(0 < Par(v.meta, v.index[path]) <= |v.meta|)
  {
    var i := v.index[path];
    IndexedPath(v, path);
    RootPath(v.meta);
    assert NodeOk(v.meta, i);
    assert Indexed(v.meta, v.index, 1);
  }
}
