/** What `dir_list` and `get_stats` tell a user, said of paths and nodes: each line of a listing
    field by field, what create, delete and rename do to listings, and what the figures count. */
module Reports {
  import opened Bytes
  import opened Counting
  import opened Bitmap
  import opened Chains
  import opened Paths
  import opened Tree
  import opened State
  import opened Records
  import opened Ops
  import opened Directories
  import opened Creating
  import opened CreateTheorems
  import opened Deleting
  import opened Editing
  import opened Renaming
  import opened Accounting
  import opened Listings
  import opened Runs
  import opened Statuses
  import opened RecordFrames

  // ---- One line ----

  /** The name shown for a user number: the user's name up to its NUL, at most 31 bytes, or
      "unknown" for a number that is not in the table. */
  predicate OwnerShown(shown: bytes, users: seq<UserInfo>, id: nat) {
    if id < |users| then
      var name := users[id].username;
      && |shown| <= 31 && shown <= name && 0 !in shown
      && (|shown| == 31 || |shown| == |name| || name[|shown|] == 0)
    else shown == [117, 110, 107, 110, 111, 119, 110]
  }

  lemma {:induction false} UpToNulIs(s: bytes)
    ensures var r := UpToNul(s); r <= s && 0 !in r && (|r| == |s| || s[|r|] == 0)
  {
    if s != [] && s[0] != 0 {
      UpToNulIs(s[1..]);
      assert s == [s[0]] + s[1..];
    }
  }

  lemma OwnerIsShown(users: seq<UserInfo>, id: nat)
    ensures OwnerShown(OwnerName(users, id), users, id)
  {
    if id < |users| {
      UpToNulIs(users[id].username);
    }
  }

  /** A line in the listing of the directory at `path`. */
  ghost predicate LineIs(v: Volume, users: seq<UserInfo>, path: bytes, line: FileEntry) {
    var p, c := Child(path, line.name), line.inode;
    && IsName(line.name) && p in Abs(v) && p in v.index && v.index[p] == c && 1 <= c <= |v.meta|
    && (line.kind == 1 <==> Abs(v)[p].Folder?) && (line.kind == 0 <==> Abs(v)[p].File?)
    && (Abs(v)[p].File? ==> line.size == Abs(v)[p].size) && line.size == v.meta[c - 1].size
    && line.permissions == v.meta[c - 1].permissions
    && line.created == v.meta[c - 1].created && line.modified == v.meta[c - 1].modified
    && OwnerShown(line.owner, users, v.meta[c - 1].owner)
  }

  lemma LineOf(v: Volume, users: seq<UserInfo>, path: bytes, c: nat)
    requires Inv(v) && path in v.index && IsDir(v.meta, v.index[path]) && IsKid(v.meta, c, v.index[path])
    ensures LineIs(v, users, path, EntryInfo(v.meta, users, c))
  {
    KidPath(v, path, c);
    Seen(v, PathTo(v.meta, c));
    OwnerIsShown(users, v.meta[c - 1].owner);
  }

  lemma KidPath(v: Volume, path: bytes, c: nat)
    requires Inv(v) && path in v.index && IsDir(v.meta, v.index[path]) && IsKid(v.meta, c, v.index[path])
    ensures IsName(NameOf(v.meta, c)) && PathTo(v.meta, c) == Child(path, NameOf(v.meta, c))
    ensures PathTo(v.meta, c) in v.index && v.index[PathTo(v.meta, c)] == c && v.meta[c - 1].kind < 2
  {
    assert NodeOk(v.meta, c) && Par(v.meta, 1) == 0;
    IndexedPath(v, path);
    PathStep(v.meta, c);
    assert Indexed(v.meta, v.index, c);
  }

  // ---- The whole listing ----

  /** The listing of a list of live entries. */
  function Lines(meta: table, users: seq<UserInfo>, kids: seq<nat>): seq<FileEntry> {
    Listing(meta, users, kids, |kids|)
  }

  lemma NextLine(meta: table, users: seq<UserInfo>, kids: seq<nat>, k: nat)
    requires 0 < k <= |kids| && Live(meta, kids[k - 1])
    ensures Listing(meta, users, kids, k) == Listing(meta, users, kids, k - 1) + [EntryInfo(meta, users, kids[k - 1])]
  {
  }

  /** With live entries only, no number is skipped. */
  lemma {:induction false} ListingOfLive(meta: table, users: seq<UserInfo>, kids: seq<nat>, k: nat, j: nat)
    requires j < k <= |kids| && forall x | 0 <= x < |kids| :: Live(meta, kids[x])
    ensures |Listing(meta, users, kids, k)| == k && Listing(meta, users, kids, k)[j] == EntryInfo(meta, users, kids[j])
  {
    NextLine(meta, users, kids, k);
    if k > 1 {
      ListingOfLive(meta, users, kids, k - 1, if j < k - 1 then j else 0);
    }
  }

  lemma LinesAre(meta: table, users: seq<UserInfo>, kids: seq<nat>)
    requires forall x | 0 <= x < |kids| :: Live(meta, kids[x])
    ensures |Lines(meta, users, kids)| == |kids|
    ensures forall k | 0 <= k < |kids| :: Lines(meta, users, kids)[k] == EntryInfo(meta, users, kids[k])
  {
    forall k | 0 <= k < |kids|
      ensures |Lines(meta, users, kids)| == |kids| && Lines(meta, users, kids)[k] == EntryInfo(meta, users, kids[k])
    {
      ListingOfLive(meta, users, kids, |kids|, k);
    }
  }

  lemma KidsAreLive(v: Volume, d: nat)
    requires Inv(v) && IsDir(v.meta, d)
    ensures forall k | 0 <= k < |Kids(v, d)| :: Live(v.meta, Kids(v, d)[k])
  {
    assert KidsOk(v, d);
    forall k | 0 <= k < |Kids(v, d)| ensures Live(v.meta, Kids(v, d)[k]) {
      assert Kids(v, d)[k] in Kids(v, d);
      assert IsKid(v.meta, Kids(v, d)[k], d);
    }
  }

  /** In a volume in order the listing of a directory has a line for each name in it and no other;
      each line says of its path what is there, and no path has two lines. */
  lemma ListingIsExact(v: Volume, users: seq<UserInfo>, path: bytes)
    requires Inv(v) && FolderAt(Abs(v), path)
    ensures var lines := Lines(v.meta, users, Kids(v, v.index[path]));
            && (forall k | 0 <= k < |lines| :: LineIs(v, users, path, lines[k]))
            && (forall j, k | 0 <= j < k < |lines| :: lines[j].inode != lines[k].inode)
            && (forall name | IsName(name) && Child(path, name) in Abs(v) ::
                  exists k :: 0 <= k < |lines| && lines[k].name == name)
  {
    Seen(v, path);
    var d := v.index[path];
    var kids := Kids(v, d);
    assert KidsOk(v, d);
    KidsAreLive(v, d);
    LinesAre(v.meta, users, kids);
    forall k | 0 <= k < |kids| ensures LineIs(v, users, path, Lines(v.meta, users, kids)[k]) {
      assert kids[k] in kids;
      LineOf(v, users, path, kids[k]);
    }
    forall name | IsName(name) && Child(path, name) in Abs(v)
      ensures exists k :: 0 <= k < |Lines(v.meta, users, kids)| && Lines(v.meta, users, kids)[k].name == name
    {
      var k := LineFor(v, path, name);
      assert Lines(v.meta, users, kids)[k].name == name;
    }
  }

  /** A name in a directory is that of one of its children. */
  lemma LineFor(v: Volume, path: bytes, name: bytes) returns (k: nat)
    requires Inv(v) && path in v.index && IsDir(v.meta, v.index[path]) && IsName(name) && Child(path, name) in v.index
    ensures k < |Kids(v, v.index[path])| && NameOf(v.meta, Kids(v, v.index[path])[k]) == name
  {
    var d, c := v.index[path], v.index[Child(path, name)];
    IndexedPath(v, path);
    IndexedPath(v, Child(path, name));
    ToksNames(v.meta, d);
    ToksNames(v.meta, c);
    PathSnoc(Toks(v.meta, d), name);
    PathInjective(Toks(v.meta, c), Toks(v.meta, d) + [name]);
    RootPath(v.meta);
    ToksStep(v.meta, c);
    var q := Par(v.meta, c);
    assert NodeOk(v.meta, c);
    assert Toks(v.meta, q) == Toks(v.meta, d) by {
      assert (Toks(v.meta, q) + [NameOf(v.meta, c)])[..|Toks(v.meta, q)|] == Toks(v.meta, q);
      assert (Toks(v.meta, d) + [name])[..|Toks(v.meta, d)|] == Toks(v.meta, d);
    }
    assert Last(Toks(v.meta, q) + [NameOf(v.meta, c)]) == Last(Toks(v.meta, d) + [name]);
    assert Indexed(v.meta, v.index, q) && Indexed(v.meta, v.index, d);
    assert KidsOk(v, d) && IsKid(v.meta, c, d);
    assert c in Kids(v, d);
    k :| k < |Kids(v, d)| && Kids(v, d)[k] == c;
  }

  // ---- Listings before and after ----

  /** A live record that at most gets another first block: its line stays. */
  predicate SameAs(a: table, b: table, c: nat) {
    Live(a, c) && c <= |b| && b[c - 1] == a[c - 1].(start := b[c - 1].start)
  }

  lemma StayIsSame(v: Volume, w: Volume, i: nat, p: nat, start: nat, c: nat)
    requires OthersStay(v, w, i, p, start) && Live(v.meta, c) && c != i
    ensures SameAs(v.meta, w.meta, c)
  {
    assert w.meta[c - 1] == if c == p then v.meta[c - 1].(start := start) else v.meta[c - 1];
  }

  /** Lines depend on the records of the list only. */
  lemma SameLines(a: table, b: table, users: seq<UserInfo>, kids: seq<nat>)
    requires forall k | 0 <= k < |kids| :: SameAs(a, b, kids[k])
    ensures Lines(a, users, kids) == Lines(b, users, kids)
  {
    LinesAre(a, users, kids);
    LinesAre(b, users, kids);
  }

  lemma OneMoreLine(meta: table, users: seq<UserInfo>, kids: seq<nat>, c: nat)
    requires (forall k | 0 <= k < |kids| :: Live(meta, kids[k])) && Live(meta, c)
    ensures Lines(meta, users, kids + [c]) == Lines(meta, users, kids) + [EntryInfo(meta, users, c)]
  {
    LinesAre(meta, users, kids);
    LinesAre(meta, users, kids + [c]);
  }

  lemma OneLineLess(meta: table, users: seq<UserInfo>, kids: seq<nat>, k: nat)
    requires k < |kids| && forall x | 0 <= x < |kids| :: Live(meta, kids[x])
    ensures var lines := Lines(meta, users, kids);
            |lines| == |kids| && Lines(meta, users, kids[..k] + kids[k + 1..]) == lines[..k] + lines[k + 1..]
  {
    LinesAre(meta, users, kids);
    LinesAre(meta, users, kids[..k] + kids[k + 1..]);
  }

  lemma {:induction false} RemoveFirstAt(s: seq<nat>, k: nat)
    requires Distinct(s) && k < |s|
    ensures RemoveFirst(s, s[k]) == s[..k] + s[k + 1..]
    decreases s
  {
    if k > 0 {
      assert s[1..][k - 1] == s[k];
      RemoveFirstAt(s[1..], k - 1);
      assert s == [s[0]] + s[1..];
    }
  }

  // ---- After a create ----

  lemma ListedKids(v: Volume, s: Volume, i: nat, x: MetaEntry, c: seq<nat>, p: nat)
    requires Inv(v) && Stored(v, s, i, x, c) && IsDir(v.meta, p) && |Kids(v, p)| < Room(v) && AddChild(s, p, i).1
    ensures Kids(AddChild(s, p, i).0, p) == Kids(v, p) + [i]
  {
    RechainKeeps(v, s, i, c);
    assert Untouched(v, s, p) && ChainOk(v, p);
    UntouchedKeeps(v, s, p);
    RoomyKids(s, p, i);
  }

  lemma RoomyKids(s: Volume, p: nat, i: nat)
    requires Shape(s) && BlockInv(s) && IsDir(s.meta, p) && 1 <= i < U32 && AddChild(s, p, i).1
      && |Kids(s, p)| < Room(s)
    ensures Kids(AddChild(s, p, i).0, p) == Kids(s, p) + [i]
  {
    ListGrows(s, p, i);
  }

  /** The parent's records after an entry `i` is listed in it. */
  lemma ListedLines(v: Volume, w: Volume, users: seq<UserInfo>, p: nat, i: nat, start: nat)
    requires Inv(v) && IsDir(v.meta, p) && !Live(v.meta, i) && Live(w.meta, i) && OthersStay(v, w, i, p, start)
    requires Kids(w, p) == Kids(v, p) + [i]
    ensures Lines(w.meta, users, Kids(w, p)) == Lines(v.meta, users, Kids(v, p)) + [EntryInfo(w.meta, users, i)]
  {
    var kids := Kids(v, p);
    KidsAreLive(v, p);
    forall k | 0 <= k < |kids| ensures SameAs(v.meta, w.meta, kids[k]) {
      StayIsSame(v, w, i, p, start, kids[k]);
    }
    SameLines(v.meta, w.meta, users, kids);
    OneMoreLine(w.meta, users, kids, i);
  }

  lemma ListedLine(v: Volume, w: Volume, users: seq<UserInfo>, p: nat, i: nat, start: nat, e: MetaEntry)
    requires Inv(v) && IsDir(v.meta, p) && 1 <= i <= |v.meta| && !Live(v.meta, i) && OthersStay(v, w, i, p, start)
    requires w.meta[i - 1] == e && e.valid == 0 && Kids(w, p) == Kids(v, p) + [i]
    ensures Lines(w.meta, users, Kids(w, p))
         == Lines(v.meta, users, Kids(v, p))
          + [FileEntry(e.name, e.kind, e.size, e.permissions, e.created, e.modified, OwnerName(users, e.owner), i)]
  {
    ListedLines(v, w, users, p, i, start);
  }

  lemma CreatedKids(v: Volume, path: bytes, data: bytes, owner: nat, now: nat)
    requires Inv(v) && Request(path, |data|, owner, now) && Creates(v, path, |data|) && CreateFits(v, path, |data|)
    ensures var w, p := CreateFile(v, path, data, owner, now).0, v.index[DirOf(path)];
            Kids(w, p) == Kids(v, p) + [NewIndex(v)]
  {
    var i, p, n := NewIndex(v), v.index[DirOf(path)], NeedBlocks(|data|, v.bs);
    var c := Free(v.used)[..n];
    CreateSucceeds(v, path, data, owner, now);
    CreateSound(v, path, data, owner, now);
    CreateStored(v, path, data, owner, now);
    var s, x := StoredFile(v, path, data, owner, now), NewFile(v, path, |data|, owner, now).(start := Head(c));
    RoomIsRoom(v, s, i, x, n, p);
    ListedKids(v, s, i, x, c, p);
    IndexOnly(ListedFile(v, path, data, owner, now), CreateFile(v, path, data, owner, now).0);
  }

  /** A sound `file_create` adds one line to the listing of the directory, at its end. */
  lemma ListAfterCreate(v: Volume, users: seq<UserInfo>, path: bytes, data: bytes, owner: nat, now: nat, i: nat)
    requires Inv(v) && Request(path, |data|, owner, now) && Creates(v, path, |data|) && CreateFits(v, path, |data|)
    requires LowestDead(v.meta, i)
    ensures var w, p := CreateFile(v, path, data, owner, now).0, v.index[DirOf(path)];
            && DirOf(path) in w.index && w.index[DirOf(path)] == p
            && Lines(w.meta, users, Kids(w, p))
               == Lines(v.meta, users, Kids(v, p))
                + [FileEntry(BaseOf(path), 0, |data|, 0x1A4, now, now, OwnerName(users, owner), i)]
  {
    var w, p, n := CreateFile(v, path, data, owner, now).0, v.index[DirOf(path)], Asked(|data|, Payload(v.bs));
    LowestIs(v, i);
    ParentIsLive(v, path);
    CreateRecords(v, path, data, owner, now, i);
    CreatedKids(v, path, data, owner, now);
    ListedLine(v, w, users, p, i, ListStart(v, p, n), w.meta[i - 1]);
    CutSame(BaseOf(path));
  }

  /** So does a sound `dir_create`. */
  lemma ListAfterMakeDir(v: Volume, users: seq<UserInfo>, path: bytes, owner: nat, now: nat, i: nat)
    requires Inv(v) && Request(path, 0, owner, now) && MakesDir(v, path) && MakeDirFits(v, path)
    requires LowestDead(v.meta, i)
    ensures var w, p := MakeDir(v, path, owner, now).0, v.index[DirOf(path)];
            && DirOf(path) in w.index && w.index[DirOf(path)] == p
            && Lines(w.meta, users, Kids(w, p))
               == Lines(v.meta, users, Kids(v, p))
                + [FileEntry(Take(BaseOf(path), 11), 1, 0, 0x1ED, now, now, OwnerName(users, owner), i)]
  {
    var w, p := MakeDir(v, path, owner, now).0, v.index[DirOf(path)];
    LowestIs(v, i);
    MakeDirRecords(v, path, owner, now, i);
    MakeDirSucceeds(v, path, owner, now);
    MakeDirStored(v, path, owner, now);
    MakeDirSound(v, path, owner, now);
    ListedKids(v, StoredDir(v, path, owner, now), i, NewDir(v, path, owner, now), [], p);
    IndexOnly(ListedDir(v, path, owner, now), w);
    ListedLine(v, w, users, p, i, ListStart(v, p, 0), w.meta[i - 1]);
    assert TargetOf(path) !in v.index;
  }

  // ---- After a delete or a rename ----

  /** The list of the old directory without the entry. */
  lemma UnlistedLines(v: Volume, w: Volume, users: seq<UserInfo>, i: nat, d: nat, p: nat, start: nat, k: nat)
    requires Inv(v) && Live(v.meta, i) && i != 1 && d == Par(v.meta, i) && OthersStay(v, w, i, p, start)
    requires k < |Kids(v, d)| && Kids(v, d)[k] == i
    ensures var lines := Lines(v.meta, users, Kids(v, d));
            && |lines| == |Kids(v, d)| && lines[k].inode == i
            && Lines(w.meta, users, RemoveFirst(Kids(v, d), i)) == lines[..k] + lines[k + 1..]
  {
    var kids := Kids(v, d);
    Listed(v, i);
    RemoveFirstAt(kids, k);
    KidsAreLive(v, d);
    forall x | 0 <= x < |kids| && x != k ensures SameAs(v.meta, w.meta, kids[x]) {
      StayIsSame(v, w, i, p, start, kids[x]);
    }
    LinesLeft(v.meta, w.meta, users, kids, k);
    LineInode(v, users, d, k);
  }

  lemma LinesLeft(a: table, b: table, users: seq<UserInfo>, kids: seq<nat>, k: nat)
    requires k < |kids| && Live(a, kids[k]) && forall x | 0 <= x < |kids| && x != k :: SameAs(a, b, kids[x])
    ensures var lines := Lines(a, users, kids);
            |lines| == |kids| && Lines(b, users, kids[..k] + kids[k + 1..]) == lines[..k] + lines[k + 1..]
  {
    var left := kids[..k] + kids[k + 1..];
    forall x | 0 <= x < |left| ensures SameAs(a, b, left[x]) {
      assert left[x] == kids[if x < k then x else x + 1];
    }
    SameLines(a, b, users, left);
    OneLineLess(a, users, kids, k);
  }

  /** `file_delete` takes one line out of the listing of the directory and keeps the order of the rest. */
  lemma ListAfterDelete(v: Volume, users: seq<UserInfo>, path: bytes) returns (k: nat)
    requires Inv(v) && FileAt(Abs(v), path)
    ensures path in v.index
    ensures var w, i := DeleteFile(v, path).0, v.index[path];
            var d := Par(v.meta, i);
            var lines := Lines(v.meta, users, Kids(v, d));
            && k < |lines| && lines[k].inode == i
            && Lines(w.meta, users, Kids(w, d)) == lines[..k] + lines[k + 1..]
  {
    Seen(v, path);
    var i := v.index[path];
    IndexedPath(v, path);
    FilesAreRemovable(v, i);
    RemoveChildMarked(v, Par(v.meta, i), i, EntryChain(v, i), false);
    UnlistKeeps(v, i);
    DeadIsTyped(v, i);
    DeleteRecords(v, path);
    k := ClearedLines(v, DeleteFile(v, path).0, users, i, Dead(v.meta[i - 1]));
  }

  /** So does `dir_delete`. */
  lemma ListAfterRemoveDir(v: Volume, users: seq<UserInfo>, path: bytes) returns (k: nat)
    requires Inv(v) && path != ROOT && FolderAt(Abs(v), path) && !Holds(Abs(v), path)
    ensures path in v.index
    ensures var w, i := RemoveDir(v, path).0, v.index[path];
            var d := Par(v.meta, i);
            var lines := Lines(v.meta, users, Kids(v, d));
            && k < |lines| && lines[k].inode == i
            && Lines(w.meta, users, Kids(w, d)) == lines[..k] + lines[k + 1..]
  {
    Seen(v, path);
    var i := v.index[path];
    NoEmptyPath(v);
    HoldsIs(v, path);
    EmptyDirIsRemovable(v, i);
    RemoveDirSucceeds(v, path);
    DeadIsTyped(v, i);
    RemoveDirRecords(v, path);
    k := ClearedLines(v, RemoveDir(v, path).0, users, i, v.meta[i - 1].(valid := 1, start := 0));
  }

  lemma ClearedLines(v: Volume, w: Volume, users: seq<UserInfo>, i: nat, e: MetaEntry) returns (k: nat)
    requires Inv(v) && Removable(v, i) && e.valid != 0 && TypedEntry(e) && w == Reindexed(Cleared(v, i, e))
    requires OthersStay(v, w, i, 0, 0)
    ensures var d := Par(v.meta, i);
            var lines := Lines(v.meta, users, Kids(v, d));
            && k < |lines| && lines[k].inode == i
            && Lines(w.meta, users, Kids(w, d)) == lines[..k] + lines[k + 1..]
  {
    var d := Par(v.meta, i);
    k := PlaceInList(v, i);
    ClearedList(v, i, e);
    UnlistedLines(v, w, users, i, d, 0, 0, k);
  }

  lemma PlaceInList(v: Volume, i: nat) returns (k: nat)
    requires Inv(v) && Live(v.meta, i) && i != 1
    ensures k < |Kids(v, Par(v.meta, i))| && Kids(v, Par(v.meta, i))[k] == i
  {
    Listed(v, i);
    k :| k < |Kids(v, Par(v.meta, i))| && Kids(v, Par(v.meta, i))[k] == i;
  }

  lemma ClearedList(v: Volume, i: nat, e: MetaEntry)
    requires Inv(v) && Removable(v, i) && e.valid != 0 && TypedEntry(e)
    ensures Kids(Reindexed(Cleared(v, i, e)), Par(v.meta, i)) == RemoveFirst(Kids(v, Par(v.meta, i)), i)
  {
    Listed(v, i);
    ClearedNodes(v, i, e, Par(v.meta, i));
    IndexOnly(Cleared(v, i, e), Reindexed(Cleared(v, i, e)));
  }

  /** A sound rename puts the line, with the new name and time, at the end of the listing of the
      new directory, and takes it out of the listing of the old one. */
  lemma ListAfterRename(v: Volume, users: seq<UserInfo>, path: bytes, newPath: bytes, now: nat) returns (k: nat)
    requires Inv(v) && 0 !in newPath && now < U64 && Renames(v, path, newPath)
    requires MoveFits(v, v.index[path], Target(v, newPath), NewBaseOf(newPath))
    ensures NewDirOf(newPath) in v.index && Live(v.meta, v.index[path])
    ensures var w, i, np := RenameEntry(v, path, newPath, now).0, v.index[path], v.index[NewDirOf(newPath)];
            var e, op := v.meta[i - 1], Par(v.meta, i);
            var line := FileEntry(NewBaseOf(newPath), e.kind, e.size, e.permissions, e.created, now,
                                  OwnerName(users, e.owner), i);
            var was := Lines(v.meta, users, Kids(v, op));
            && k < |was| && was[k].inode == i
            && Lines(w.meta, users, Kids(w, np))
               == (if np == op then was[..k] + was[k + 1..] else Lines(v.meta, users, Kids(v, np))) + [line]
            && (np != op ==> Lines(w.meta, users, Kids(w, op)) == was[..k] + was[k + 1..])
  {
    RenameStatus(v, path, newPath, now);
    Seen(v, path);
    RenameGuards(v, path, newPath, now);
    RenamableFacts(v, path, newPath);
    var i, np, name := v.index[path], v.index[NewDirOf(newPath)], NewBaseOf(newPath);
    var w, e, op := RenameEntry(v, path, newPath, now).0, v.meta[i - 1], Par(v.meta, i);
    RelocatesWhen(v, i, np, name, now);
    RelocatedKeepsIff(v, i, np, name, now);
    RenameRecords(v, path, newPath, now);
    MovedLists(v, i, np, name, now);
    k := PlaceInList(v, i);
    UnlistedLines(v, w, users, i, op, np, ListStart(v, np, 0), k);
    MovedLine(v, w, users, i, np, ListStart(v, np, 0), k);
  }

  lemma MovedLists(v: Volume, i: nat, np: nat, name: bytes, now: nat)
    requires MoveReady(v, i, np, name, now) && MoveFits(v, i, np, name)
    ensures var w, op := Reindexed(Placed(v, i, np, name, now)), Par(v.meta, i);
            && Kids(w, np) == KidsWithout(v, i, np) + [i]
            && (np != op ==> Kids(w, op) == RemoveFirst(Kids(v, op), i)) && IsDir(v.meta, op)
  {
    Listed(v, i);
    PlacedKidsAre(v, i, np, name, now, np);
    PlacedKidsAre(v, i, np, name, now, Par(v.meta, i));
    IndexOnly(Placed(v, i, np, name, now), Reindexed(Placed(v, i, np, name, now)));
  }

  lemma MovedLine(v: Volume, w: Volume, users: seq<UserInfo>, i: nat, np: nat, start: nat, k: nat)
    requires Inv(v) && Live(v.meta, i) && i != 1 && IsDir(v.meta, np) && OthersStay(v, w, i, np, start)
    requires Live(w.meta, i) && Kids(w, np) == KidsWithout(v, i, np) + [i]
    requires k < |Kids(v, Par(v.meta, i))| && Kids(v, Par(v.meta, i))[k] == i
    ensures var was := Lines(v.meta, users, Kids(v, Par(v.meta, i)));
            && k < |was|
            && Lines(w.meta, users, Kids(w, np))
               == (if np == Par(v.meta, i) then was[..k] + was[k + 1..] else Lines(v.meta, users, Kids(v, np)))
                + [EntryInfo(w.meta, users, i)]
  {
    var without := KidsWithout(v, i, np);
    UnlistedLines(v, w, users, i, Par(v.meta, i), np, start, k);
    forall x | 0 <= x < |without| ensures SameAs(v.meta, w.meta, without[x]) {
      OtherKid(v, i, np, x);
      StayIsSame(v, w, i, np, start, without[x]);
    }
    SameLines(v.meta, w.meta, users, without);
    OneMoreLine(w.meta, users, without, i);
  }

  lemma OtherKid(v: Volume, i: nat, d: nat, x: nat)
    requires Inv(v) && Live(v.meta, i) && i != 1 && IsDir(v.meta, d) && x < |KidsWithout(v, i, d)|
    ensures Live(v.meta, KidsWithout(v, i, d)[x]) && KidsWithout(v, i, d)[x] != i
  {
    var c := KidsWithout(v, i, d)[x];
    Listed(v, i);
    assert KidsOk(v, d);
    RemoveFirstOf(Kids(v, d), i);
    assert c in KidsWithout(v, i, d);
    assert c in Kids(v, d);
    assert IsKid(v.meta, c, d) && (i in Kids(v, d) <==> IsKid(v.meta, i, d));
  }

  lemma LineInode(v: Volume, users: seq<UserInfo>, d: nat, k: nat)
    requires Inv(v) && IsDir(v.meta, d) && k < |Kids(v, d)|
    ensures k < |Lines(v.meta, users, Kids(v, d))| && Lines(v.meta, users, Kids(v, d))[k].inode == Kids(v, d)[k]
  {
    KidsAreLive(v, d);
    LinesAre(v.meta, users, Kids(v, d));
  }

  // ---- Statistics ----

  /** The live entries of a kind among the first `k`. */
  function KindSet(meta: table, kind: nat, k: nat): set<nat>
    requires k <= |meta|
  {
    if k == 0 then {}
    else if Live(meta, k) && meta[k - 1].kind == kind then KindSet(meta, kind, k - 1) + {k}
    else KindSet(meta, kind, k - 1)
  }

  lemma {:induction false} KindCount(meta: table, kind: nat, k: nat)
    requires k <= |meta|
    ensures |KindSet(meta, kind, k)| == CountKind(meta, kind, k)
  {
    if k > 0 {
      KindCount(meta, kind, k - 1);
      KindHas(meta, kind, k - 1, k);
    }
  }

  lemma {:induction false} KindHas(meta: table, kind: nat, k: nat, i: nat)
    requires k <= |meta|
    ensures i in KindSet(meta, kind, k) <==> 1 <= i <= k && Live(meta, i) && meta[i - 1].kind == kind
  {
    if k > 0 {
      KindHas(meta, kind, k - 1, i);
    }
  }

  lemma {:induction false} InjectiveCard(s: set<bytes>, f: map<bytes, nat>, t: set<nat>)
    requires s <= f.Keys && (forall p | p in s :: f[p] in t)
    requires forall p, q | p in s && q in s && f[p] == f[q] :: p == q
    requires forall i | i in t :: exists p :: p in s && f[p] == i
    ensures |s| == |t|
    decreases s
  {
    if s == {} {
      assert t == {};
    } else {
      var p :| p in s;
      forall i | i in t - {f[p]} ensures exists q :: q in s - {p} && f[q] == i {
        var q :| q in s && f[q] == i;
        assert q in s - {p};
      }
      InjectiveCard(s - {p}, f, t - {f[p]});
    }
  }

  /** As many entries of a kind as paths of that kind. */
  lemma KindPaths(v: Volume, kind: nat, s: set<bytes>)
    requires Inv(v)
    requires forall p :: p in s <==> p in v.index && Live(v.meta, v.index[p]) && v.meta[v.index[p] - 1].kind == kind
    ensures CountKind(v.meta, kind, |v.meta|) == |s|
  {
    var t := KindSet(v.meta, kind, |v.meta|);
    KindCount(v.meta, kind, |v.meta|);
    forall p | p in s ensures v.index[p] in t && PathTo(v.meta, v.index[p]) == p {
      IndexedPath(v, p);
      KindHas(v.meta, kind, |v.meta|, v.index[p]);
    }
    forall i | i in t ensures exists p :: p in s && v.index[p] == i {
      KindHas(v.meta, kind, |v.meta|, i);
      assert Indexed(v.meta, v.index, i);
      assert PathTo(v.meta, i) in s;
    }
    InjectiveCard(s, v.index, t);
  }

  lemma KindsSeen(v: Volume)
    requires Inv(v)
    ensures CountKind(v.meta, 0, |v.meta|) == |set p | p in Abs(v) && Abs(v)[p].File?|
    ensures CountKind(v.meta, 1, |v.meta|) == |set p | p in Abs(v) && Abs(v)[p].Folder?|
  {
    forall p ensures p in Abs(v) && Abs(v)[p].File? <==> p in v.index && IsFile(v.meta, v.index[p]) {
      Seen(v, p);
    }
    forall p ensures p in Abs(v) && Abs(v)[p].Folder? <==> p in v.index && IsDir(v.meta, v.index[p]) {
      Seen(v, p);
    }
    KindPaths(v, 0, set p | p in Abs(v) && Abs(v)[p].File?);
    KindPaths(v, 1, set p | p in Abs(v) && Abs(v)[p].Folder?);
  }

  function ActiveSet(users: seq<UserInfo>): set<nat> {
    set k: nat | 0 <= k < |users| && IsActive(users, k)
  }

  predicate IsActive(users: seq<UserInfo>, k: nat) {
    k < |users| && users[k].active != 0
  }

  lemma {:induction false} ActiveCount(users: seq<UserInfo>, k: nat)
    requires k <= |users|
    ensures CountActive(users, k) == |set j: nat | 0 <= j < k && IsActive(users, j)|
  {
    var s := set j: nat | 0 <= j < k && IsActive(users, j);
    if k == 0 {
      assert s == {};
    } else {
      ActiveCount(users, k - 1);
      var r := set j: nat | 0 <= j < k - 1 && IsActive(users, j);
      assert s == if IsActive(users, k - 1) then r + {k - 1} else r;
    }
  }

  lemma SpaceAdds(a: nat, b: nat, n: nat, bs: nat)
    requires a + b == n
    ensures a * bs + b * bs == n * bs
  {
    assert (a + b) * bs == a * bs + b * bs;
  }

  /** In a volume in order: the space in use is what the records account for, used and free add
      up to the volume, files are the paths with a file, directories those with a folder, and
      users the active ones. */
  lemma StatsAreExact(v: Volume, total: nat, users: seq<UserInfo>)
    requires Inv(v)
    ensures var s := StatsOf(total, v.used, v.bs, v.meta, users);
            && s.totalSize == total
            && s.usedSpace == TotalNeed(v, |v.meta|) * v.bs && s.freeSpace == |FreeSet(v.used)| * v.bs
            && s.usedSpace + s.freeSpace == |v.blocks| * v.bs
            && s.files == |set p | p in Abs(v) && Abs(v)[p].File?|
            && s.directories == |set p | p in Abs(v) && Abs(v)[p].Folder?|
            && s.users == |ActiveSet(users)|
  {
    Conservation(v);
    FreeCount(v.used);
    SpaceAdds(Count(v.used, |v.used|), |Free(v.used)|, |v.blocks|, v.bs);
    KindsSeen(v);
    ActiveCount(users, |users|);
  }

  /** The figures of a formatted volume: no file, and the root. */
  lemma FreshStats(bs: nat, n: nat, files: nat, total: nat, users: seq<UserInfo>)
    requires 128 <= bs < U32 && n < U32 && 1 <= files < U32
    ensures var v := FreshVolume(bs, n, files);
            var s := StatsOf(total, v.used, bs, v.meta, users);
            s.usedSpace == 0 && s.freeSpace == n * bs && s.files == 0 && s.directories == 1
  {
    var v := FreshVolume(bs, n, files);
    FreshInv(bs, n, files);
    FreshTree(files);
    StatsAreExact(v, total, users);
    NothingUsed(v.used, n);
    Seen(v, ROOT);
    assert (set p | p in Abs(v) && Abs(v)[p].File?) == {};
    assert (set p | p in Abs(v) && Abs(v)[p].Folder?) == {ROOT};
  }

  lemma {:induction false} NothingUsed(used: seq<bool>, k: nat)
    requires k <= |used| && forall b | 0 <= b < |used| :: !used[b]
    ensures Count(used, k) == 0
  {
    if k > 0 {
      NothingUsed(used, k - 1);
    }
  }
}
