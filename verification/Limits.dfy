/** Inputs for which the engine does not do what one would expect. Each shows that a guard in
    the "exactly when" lemmas is needed; those lemmas say for which inputs all is well. */
module Limits {
  import opened Bytes
  import opened Bitmap
  import opened Paths
  import opened Tree
  import opened State
  import opened Ops
  import opened Layout
  import opened Directories
  import opened TreeChanges
  import opened Creating
  import opened CreateTheorems
  import opened Deleting
  import opened Editing
  import opened Truncating
  import opened Renaming
  import opened Runs
  import Encoding

  const A: bytes := [97]
  const B: bytes := [98]
  const PATH_A: bytes := ROOT + A             // "/a"
  const SLASHED_A: bytes := ROOT + PATH_A     // "//a"
  const PATH_AB: bytes := ROOT + A + ROOT + B // "/a/b"
  const LONG: bytes := seq(12, _ => 97)
  const PATH_LONG: bytes := ROOT + LONG       // a name of 12 bytes

  // ---- Paths ----

  /** The path of one name. */
  lemma OneName(name: bytes)
    requires IsName(name)
    ensures var p := ROOT + name;
            Tokens(p) == [name] && PathOf([name]) == p && DirOf(p) == ROOT && BaseOf(p) == name
              && Child(ROOT, name) == p
  {
    var p, ts := ROOT + name, [name];
    assert ts[1..] == [] && ts[..0] == [];
    assert Join(ts) == ROOT + name + Join(ts[1..]);
    assert p + [] == p;
    TokensOfPath(ts);
    assert [] + ROOT + name == p;
  }

  lemma OneNameIsCanonical(name: bytes)
    requires IsName(name) && 0 !in name && |name| <= NAME_MAX
    ensures Canonical(ROOT + name) && TargetOf(ROOT + name) == ROOT + name && 0 !in ROOT + name
  {
    OneName(name);
    ChildPath(ROOT + name);
  }

  /** A slash too many is not seen by the tokeniser. */
  lemma ExtraSlash(p: bytes)
    ensures Tokens(ROOT + p) == Tokens(p) && DirOf(ROOT + p) == DirOf(p) && BaseOf(ROOT + p) == BaseOf(p)
  {
    assert (ROOT + p)[1..] == p;
  }

  lemma BelowA()
    ensures Tokens(PATH_AB) == [A, B] && DirOf(PATH_AB) == PATH_A && BaseOf(PATH_AB) == B && 0 !in PATH_AB
    ensures Canonical(PATH_AB)
    ensures LastSlash(PATH_AB, 4) == 2 && NewDirOf(PATH_AB) == PATH_A && NewBaseOf(PATH_AB) == B
  {
    OneName(A);
    OneName(B);
    TokensCons(A, ROOT + B);
    assert PATH_AB == ROOT + A + (ROOT + B);
    assert [A, B][..1] == [A];
    assert PATH_AB[3] == 98 && PATH_AB[2] == SLASH;
    assert PATH_AB[..2] == PATH_A && PATH_AB[3..] == B;
  }

  lemma SlashedName()
    ensures Request(SLASHED_A, 0, 0, 0) && SLASHED_A != [] && SLASHED_A[0] == SLASH && SLASHED_A != PATH_A
      && SLASHED_A != ROOT
    ensures Tokens(SLASHED_A) == [A] && DirOf(SLASHED_A) == ROOT && BaseOf(SLASHED_A) == A
      && TargetOf(SLASHED_A) == PATH_A
    ensures !Canonical(SLASHED_A)
    ensures LastSlash(SLASHED_A, 3) == 1 && NewDirOf(SLASHED_A) == ROOT && NewBaseOf(SLASHED_A) == A
  {
    OneName(A);
    OneNameIsCanonical(A);
    ExtraSlash(PATH_A);
    assert SLASHED_A[0] == SLASH;
    assert SLASHED_A[1] == SLASH && SLASHED_A[2] == 97;
    assert SLASHED_A[..1] == ROOT && SLASHED_A[2..] == A;
  }

  lemma NewInRoot(name: bytes)
    requires IsName(name)
    ensures var p := ROOT + name; LastSlash(p, |p|) == 0 && NewDirOf(p) == ROOT && NewBaseOf(p) == name
  {
    var p := ROOT + name;
    LastSlashIs(p, |p|);
    forall k | 0 < k < |p| ensures p[k] != SLASH {
      assert p[k] == name[k - 1];
    }
    assert p[0] == SLASH && p[1..] == name;
  }

  // ---- States with entries 1 to k ----

  ghost predicate LiveUpTo(meta: table, k: nat) {
    forall j: nat :: Live(meta, j) <==> 1 <= j <= k
  }

  lemma {:induction false} FirstDeadIs(meta: table, k: nat, j: nat)
    requires LiveUpTo(meta, k) && j <= k < |meta|
    ensures FirstDead(meta, j) == k + 1
    decreases k - j
  {
    assert Live(meta, j + 1) <==> 1 <= j + 1 <= k;
    if j < k {
      FirstDeadIs(meta, k, j + 1);
    }
  }

  /** What a new entry `i` in directory `p` changes in the table. */
  ghost predicate Joined(v: Volume, w: Volume, i: nat, p: nat) {
    && LiveUpTo(w.meta, i) && w.bs == v.bs && |w.meta| == |v.meta|
    && Par(w.meta, i) == p && StartOf(w, p) != 0
    && (forall j: nat | 1 <= j < i :: KeptEntry(v, w, j, p))
  }

  predicate KeptEntry(v: Volume, w: Volume, j: nat, p: nat) {
    SameNode(v.meta, w.meta, j) && (j != p ==> StartOf(w, j) == StartOf(v, j))
  }

  predicate SameAt(a: table, b: table, j: nat) {
    1 <= j <= |a| && j <= |b| && a[j - 1] == b[j - 1]
  }

  lemma ListedKeeps(s: Volume, p: nat, i: nat)
    requires AddChild(s, p, i).1 && 1 <= p <= |s.meta| && |s.used| <= |s.blocks|
    ensures var w := AddChild(s, p, i).0;
            && w.bs == s.bs && |w.meta| == |s.meta| && StartOf(w, p) != 0
            && (forall j: nat | j != p && 1 <= j <= |s.meta| :: SameAt(s.meta, w.meta, j))
  {
    FreeContents(s.used);
    if Free(s.used) != [] {
      assert Free(s.used)[0] in Free(s.used);
    }
  }

  lemma JoinedTable(v: Volume, s: Volume, i: nat, e: MetaEntry, p: nat)
    requires 1 <= p < i <= |v.meta| && LiveUpTo(v.meta, i - 1) && e.valid == 0 && e.parent == p
    requires s.meta == v.meta[i - 1 := e] && s.bs == v.bs && AddChild(s, p, i).1 && |s.used| <= |s.blocks|
    ensures Joined(v, AddChild(s, p, i).0, i, p)
  {
    var w := AddChild(s, p, i).0;
    ListedKeeps(s, p, i);
    forall j: nat ensures Live(w.meta, j) <==> 1 <= j <= i {
      AddChildNodes(s, p, i, j);
      assert Live(v.meta, j) <==> 1 <= j <= i - 1;
    }
    AddChildNodes(s, p, i, i);
    forall j: nat | 1 <= j < i ensures KeptEntry(v, w, j, p) {
      AddChildNodes(s, p, i, j);
      assert Live(v.meta, j);
      assert j != p ==> SameAt(s.meta, w.meta, j);
    }
  }

  lemma JoinedIndexed(v: Volume, w: Volume, r: Volume, i: nat, p: nat)
    requires Joined(v, w, i, p) && r == w.(index := r.index, next := r.next)
    ensures Joined(v, r, i, p)
  {
    forall j: nat | 1 <= j < i ensures KeptEntry(v, r, j, p) {
      assert KeptEntry(v, w, j, p);
    }
  }

  lemma PlacedRoom(v: Volume, s: Volume, p: nat, i: nat)
    requires HasRoom(v, p, 0) && StartOf(s, p) == StartOf(v, p) && s.used == v.used
    ensures AddChild(s, p, i).1
  {
  }

  lemma EmptyFileStored(v: Volume, path: bytes, k: nat)
    requires LiveUpTo(v.meta, k) && k < |v.meta| && NeedBlocks(0, v.bs) <= |Free(v.used)| && NewIndex(v) == k + 1
    ensures var s := StoredFile(v, path, [], 0, 0);
            && s.meta == v.meta[k := NewFile(v, path, 0, 0, 0).(start := 0)] && s.bs == v.bs && s.used == v.used
            && |s.blocks| == |v.blocks|
  {
    var e := NewFile(v, path, 0, 0, 0);
    assert Free(v.used)[..0] == [];
    StoreFileFields(v, k + 1, e, [], []);
    assert Mark(v.used, |v.used|, [], true) == v.used;
  }

  lemma FileJoins(v: Volume, path: bytes, k: nat)
    requires Shape(v) && LiveUpTo(v.meta, k) && k < |v.meta| && NewIndex(v) == k + 1 && Creates(v, path, 0)
    requires Live(v.meta, ParentOf(v, path)) && HasRoom(v, ParentOf(v, path), 0)
    ensures var w := ListedFile(v, path, [], 0, 0);
            && Joined(v, w, k + 1, ParentOf(v, path))
            && w.meta[k] == NewFile(v, path, 0, 0, 0).(start := 0)
  {
    var i, p, s := k + 1, ParentOf(v, path), StoredFile(v, path, [], 0, 0);
    EmptyFileStored(v, path, k);
    PlacedRoom(v, s, p, i);
    JoinedTable(v, s, i, NewFile(v, path, 0, 0, 0).(start := 0), p);
    ListedKeeps(s, p, i);
    assert SameAt(s.meta, ListedFile(v, path, [], 0, 0).meta, i);
  }

  /** An empty file in a state with entries 1 to `k`. */
  lemma MadeFile(v: Volume, path: bytes, k: nat)
    requires Inv(v) && LiveUpTo(v.meta, k) && k < |v.meta| && Request(path, 0, 0, 0)
    requires Creates(v, path, 0) && CreateFits(v, path, 0)
    ensures var w := CreateFile(v, path, [], 0, 0).0;
            && Inv(w) && w.index == v.index[path := k + 1] && Joined(v, w, k + 1, ParentOf(v, path))
            && IsFile(w.meta, k + 1) && SizeOf(w, k + 1) == 0
  {
    var i, w := k + 1, ListedFile(v, path, [], 0, 0);
    FirstDeadIs(v.meta, k, 0);
    CreateSucceeds(v, path, [], 0, 0);
    FileSound(v, path);
    ParentIsLive(v, path);
    FileJoins(v, path, k);
    FileEntered(v, w, path, i, ParentOf(v, path));
  }

  lemma FileEntered(v: Volume, w: Volume, path: bytes, i: nat, p: nat)
    requires Joined(v, w, i, p) && 1 <= i <= |v.meta| && NewIndex(v) == i
    requires w.meta[i - 1] == NewFile(v, path, 0, 0, 0).(start := 0)
    ensures var r := WithPath(w, path, i); Joined(v, r, i, p) && IsFile(r.meta, i) && SizeOf(r, i) == 0
  {
    JoinedIndexed(v, w, WithPath(w, path, i), i, p);
  }

  lemma DirEntered(v: Volume, w: Volume, path: bytes, i: nat, p: nat)
    requires Joined(v, w, i, p) && 1 <= i <= |v.meta| && NewIndex(v) == i
    requires w.meta[i - 1] == NewDir(v, path, 0, 0)
    ensures var r := Reindexed(BumpNext(w, i)); Joined(v, r, i, p) && IsDir(r.meta, i) && StartOf(r, i) == 0
  {
    JoinedIndexed(v, w, Reindexed(BumpNext(w, i)), i, p);
  }

  lemma FileSound(v: Volume, path: bytes)
    requires Inv(v) && Request(path, 0, 0, 0) && Creates(v, path, 0) && CreateFits(v, path, 0)
    ensures var w, i := ListedFile(v, path, [], 0, 0), NewIndex(v); Inv(WithPath(w, path, i)) && w.index == v.index
  {
    CreateSound(v, path, [], 0, 0);
  }

  lemma DirSound(v: Volume, path: bytes)
    requires Inv(v) && Request(path, 0, 0, 0) && MakesDir(v, path) && MakeDirFits(v, path)
    ensures var w, i := ListedDir(v, path, 0, 0), NewIndex(v);
            Inv(Reindexed(BumpNext(w, i))) && Reindexed(BumpNext(w, i)).index == v.index[TargetOf(path) := i]
  {
    MakeDirSound(v, path, 0, 0);
  }

  lemma DirJoins(v: Volume, path: bytes, k: nat)
    requires Shape(v) && LiveUpTo(v.meta, k) && k < |v.meta| && NewIndex(v) == k + 1 && MakesDir(v, path)
    requires HasRoom(v, ParentOf(v, path), 0)
    ensures var w := ListedDir(v, path, 0, 0);
            && Joined(v, w, k + 1, ParentOf(v, path))
            && w.meta[k] == NewDir(v, path, 0, 0)
  {
    var i, p, s := k + 1, ParentOf(v, path), StoredDir(v, path, 0, 0);
    assert Live(v.meta, p);
    PlacedRoom(v, s, p, i);
    JoinedTable(v, s, i, NewDir(v, path, 0, 0), p);
    ListedKeeps(s, p, i);
    assert SameAt(s.meta, ListedDir(v, path, 0, 0).meta, i);
  }

  /** A directory in a state with entries 1 to `k`. */
  lemma MadeDir(v: Volume, path: bytes, k: nat)
    requires Inv(v) && LiveUpTo(v.meta, k) && k < |v.meta| && Request(path, 0, 0, 0)
    requires MakesDir(v, path) && MakeDirFits(v, path)
    ensures var w := MakeDir(v, path, 0, 0).0;
            && Inv(w) && w.index == v.index[TargetOf(path) := k + 1] && Joined(v, w, k + 1, ParentOf(v, path))
            && IsDir(w.meta, k + 1) && StartOf(w, k + 1) == 0
  {
    var i, w := k + 1, ListedDir(v, path, 0, 0);
    FirstDeadIs(v.meta, k, 0);
    MakeDirSucceeds(v, path, 0, 0);
    DirSound(v, path);
    DirJoins(v, path, k);
    DirEntered(v, w, path, i, ParentOf(v, path));
  }

  // ---- In the root ----

  lemma RootEntry(v: Volume)
    requires Inv(v)
    ensures ROOT in v.index && v.index[ROOT] == 1 && IsDir(v.meta, 1)
  {
    RootPath(v.meta);
    assert Indexed(v.meta, v.index, 1);
  }

  /** What `file_create` and `dir_create` find for a new name in the root. */
  lemma InRoot(v: Volume, name: bytes, k: nat)
    requires Inv(v) && LiveUpTo(v.meta, k) && k < |v.meta|
    requires IsName(name) && 0 !in name && |name| <= NAME_MAX && ROOT + name !in v.index
    ensures var p := ROOT + name;
            && Request(p, 0, 0, 0) && DirOf(p) == ROOT && ParentOf(v, p) == 1 && NewIndex(v) == k + 1
            && Creates(v, p, 0) && (CreateFits(v, p, 0) <==> HasRoom(v, 1, 0))
            && (MakesDir(v, p) <==> StartOf(v, 1) != 0 || Free(v.used) != [])
            && TargetOf(p) == p && (MakeDirFits(v, p) <==> HasRoom(v, 1, 0))
  {
    RootEntry(v);
    OneName(name);
    OneNameIsCanonical(name);
    FirstDeadIs(v.meta, k, 0);
  }

  /** A volume with room for three entries. */
  function Small(numBlocks: nat): Volume {
    FreshVolume(128, numBlocks, 3)
  }

  lemma {:induction false} AllFree(used: seq<bool>, k: nat)
    requires k <= |used| && forall b | 0 <= b < |used| :: !used[b]
    ensures |FreeBelow(used, k)| == k
  {
    if k > 0 {
      AllFree(used, k - 1);
    }
  }

  lemma FreshFacts(n: nat, files: nat)
    requires n < U32 && 1 <= files < U32
    ensures var v := FreshVolume(128, n, files);
            && Inv(v) && LiveUpTo(v.meta, 1) && |Free(v.used)| == n && v.index == map[ROOT := 1]
            && IsDir(v.meta, 1) && StartOf(v, 1) == 0 && v.bs == 128 && Kids(v, 1) == [] && Room(v) == 31
  {
    var v := FreshVolume(128, n, files);
    FreshInv(128, n, files);
    FreshTree(files);
    AllFree(v.used, n);
    DirShape(v, 1);
  }

  // ---- After the first operation ----

  lemma RawPath(v: Volume, p: bytes, k: nat)
    requires Inv(v) && LiveUpTo(v.meta, k) && k < |v.meta| && Request(p, 0, 0, 0) && p !in v.index
    requires p != [] && p[0] == SLASH && Tokens(p) != [] && DirOf(p) == ROOT
      && !(Canonical(p) && |BaseOf(p)| <= NAME_MAX)
    ensures var (w, st) := CreateFile(v, p, [], 0, 0); st == Success && !Inv(w)
  {
    RootEntry(v);
    FirstDeadIs(v.meta, k, 0);
    CreateFileKeepsIff(v, p, [], 0, 0);
  }

  /** `file_create` takes the path "//a", and the index and the tree disagree. */
  lemma RawPathIsIndexed()
    ensures var (w, st) := CreateFile(Small(1), SLASHED_A, [], 0, 0); st == Success && !Inv(w)
  {
    var v := Small(1);
    FreshFacts(1, 3);
    SlashedName();
    RawPath(v, SLASHED_A, 1);
  }

  /** `file_create` cuts a name of 12 bytes, but indexes the whole path. */
  lemma LongNameIsCut()
    ensures var (w, st) := CreateFile(Small(1), PATH_LONG, [], 0, 0); st == Success && !Inv(w)
  {
    var v := Small(1);
    FreshFacts(1, 3);
    OneName(LONG);
    RawPath(v, PATH_LONG, 1);
  }

  lemma NewInSmall(v: Volume, data: bytes)
    requires Inv(v) && LiveUpTo(v.meta, 1) && |v.meta| == 3 && v.index == map[ROOT := 1] && |data| < U64
    ensures Request(PATH_A, |data|, 0, 0)
    ensures Creates(v, PATH_A, |data|) <==> NeedBlocks(|data|, v.bs) <= |Free(v.used)|
    ensures CreateFits(v, PATH_A, |data|) ==>
      CeilDiv(|data|, Payload(v.bs)) < U32 && HasRoom(v, 1, CeilDiv(|data|, Payload(v.bs)))
  {
    InRoot(v, A, 1);
  }

  /** The data takes the only block, and `file_create` succeeds although the list of its
      directory gets none. */
  lemma NoBlockForList()
    ensures var (w, st) := CreateFile(Small(1), PATH_A, [0], 0, 0); st == Success && !Inv(w)
  {
    var v := Small(1);
    FreshFacts(1, 3);
    NewInSmall(v, [0]);
    assert NeedBlocks(1, 128) == 1 && CeilDiv(1, 124) == 1;
    CreateFileKeepsIff(v, PATH_A, [0], 0, 0);
  }

  /** Data of 124 * 2^32 bytes: the block count is narrowed to none. */
  lemma DataWraps(data: bytes)
    requires |data| == 124 * U32
    ensures var (w, st) := CreateFile(Small(1), PATH_A, data, 0, 0); st == Success && !Inv(w)
  {
    var v := Small(1);
    FreshFacts(1, 3);
    NewInSmall(v, data);
    assert NeedBlocks(124 * U32, 128) == 0 && CeilDiv(124 * U32, 124) == U32;
    CreateFileKeepsIff(v, PATH_A, data, 0, 0);
  }

  // ---- After an empty file "/a" ----

  function WithFile(): Volume {
    CreateFile(Small(1), PATH_A, [], 0, 0).0
  }

  lemma WithFileFacts()
    ensures var w := WithFile();
            && Inv(w) && LiveUpTo(w.meta, 2) && |w.meta| == 3 && w.bs == 128 && w.index == map[ROOT := 1, PATH_A := 2]
            && IsFile(w.meta, 2) && SizeOf(w, 2) == 0
  {
    var v := Small(1);
    FreshFacts(1, 3);
    InRoot(v, A, 1);
    MadeFile(v, PATH_A, 1);
  }

  /** `file_create` puts a file below a file, where no list can hold it. */
  lemma FileBelowFile()
    ensures var (w, st) := CreateFile(WithFile(), PATH_AB, [], 0, 0); st == Success && !Inv(w)
  {
    var v := WithFile();
    WithFileFacts();
    BelowA();
    NoFolder(v, PATH_AB, 2);
  }

  lemma NoFolder(v: Volume, p: bytes, k: nat)
    requires Inv(v) && LiveUpTo(v.meta, k) && k < |v.meta| && Request(p, 0, 0, 0) && p !in v.index
    requires p != [] && p[0] == SLASH && Tokens(p) != [] && DirOf(p) in v.index && !IsDir(v.meta, v.index[DirOf(p)])
    ensures var (w, st) := CreateFile(v, p, [], 0, 0); st == Success && !Inv(w)
  {
    FirstDeadIs(v.meta, k, 0);
    CreateFileKeepsIff(v, p, [], 0, 0);
  }

  lemma EmptyHasNoBlocks(v: Volume, path: bytes)
    requires Inv(v) && path in v.index && IsFile(v.meta, v.index[path]) && SizeOf(v, v.index[path]) == 0
    ensures EntryChain(v, v.index[path]) == []
  {
    assert ChainOk(v, v.index[path]);
  }

  /** 2 to the 32 blocks are narrowed to none: an empty file gets the size, but not the blocks. */
  lemma SizeWraps(v: Volume, path: bytes)
    requires Inv(v) && v.bs == 128 && path in v.index && IsFile(v.meta, v.index[path]) && SizeOf(v, v.index[path]) == 0
    ensures var (w, st) := TruncateFile(v, path, 124 * U32, 0); st == Success && !Inv(w)
  {
    EmptyHasNoBlocks(v, path);
    assert NeedBlocks(124 * U32, 128) == 0;
    TruncateKeepsIff(v, path, 124 * U32, 0);
  }

  lemma SizeWrapsHere()
    ensures var (w, st) := TruncateFile(WithFile(), PATH_A, 124 * U32, 0); st == Success && !Inv(w)
  {
    WithFileFacts();
    SizeWraps(WithFile(), PATH_A);
  }

  // ---- After an empty directory "/a" ----

  function WithDir(numBlocks: nat): Volume {
    MakeDir(Small(numBlocks), PATH_A, 0, 0).0
  }

  lemma WithDirFacts(n: nat)
    requires 1 <= n < U32
    ensures var w := WithDir(n);
            && Inv(w) && LiveUpTo(w.meta, 2) && |w.meta| == 3 && w.index == map[ROOT := 1, PATH_A := 2]
            && IsDir(w.meta, 2) && StartOf(w, 1) != 0 && StartOf(w, 2) == 0 && (Free(w.used) != [] <==> n > 1)
  {
    var v := Small(n);
    FreshFacts(n, 3);
    InRoot(v, A, 1);
    MadeDir(v, PATH_A, 1);
    MakeDirSucceeds(v, PATH_A, 0, 0);
    FirstListFlags(StoredDir(v, PATH_A, 0, 0), 1, 2);
  }

  lemma FirstListFlags(s: Volume, p: nat, i: nat)
    requires 1 <= p <= |s.meta| && StartOf(s, p) == 0 && Free(s.used) != []
    ensures Free(AddChild(s, p, i).0.used) != [] <==> |Free(s.used)| > 1
  {
    assert Free(s.used)[..1] == [Free(s.used)[0]];
    FreeAfter(s.used, 1);
  }

  /** `dir_create` makes "/a" again when it is spelled "//a". */
  lemma DirMadeTwice()
    ensures var (w, st) := MakeDir(WithDir(1), SLASHED_A, 0, 0); st == Success && !Inv(w)
  {
    var v := WithDir(1);
    WithDirFacts(1);
    SlashedName();
    MadeTwice(v, SLASHED_A, 2);
  }

  /** A path that stands for an entry in the root that is there already, under another spelling. */
  lemma MadeTwice(v: Volume, p: bytes, k: nat)
    requires Inv(v) && LiveUpTo(v.meta, k) && k < |v.meta| && StartOf(v, 1) != 0
    requires Request(p, 0, 0, 0) && p != [] && p[0] == SLASH && Tokens(p) != [] && DirOf(p) == ROOT
    requires p !in v.index && TargetOf(p) in v.index
    ensures var (w, st) := MakeDir(v, p, 0, 0); st == Success && !Inv(w)
  {
    RootEntry(v);
    FirstDeadIs(v.meta, k, 0);
    MakeDirKeepsIff(v, p, 0, 0);
  }

  lemma DirNamedA(v: Volume)
    requires Inv(v) && v.index == map[ROOT := 1, PATH_A := 2] && IsDir(v.meta, 2)
    ensures NameOf(v.meta, 2) == A && Par(v.meta, 2) == 1 && Toks(v.meta, 2) == [A]
    ensures Renamable(v, PATH_A, PATH_AB) && Target(v, PATH_AB) == 2
  {
    IndexedPath(v, PATH_A);
    Listed(v, 2);
    assert Indexed(v.meta, v.index, Par(v.meta, 2));
    IndexedPath(v, ROOT);
    ToksStep(v.meta, 2);
    ToksNames(v.meta, 2);
    OneName(A);
    PathInjective(Toks(v.meta, 2), [A]);
    BelowA();
    assert Last(Toks(v.meta, 2)) == A;
  }

  /** A directory that is renamed to a path below itself is cut off from the root. */
  lemma RenameIntoItself()
    ensures var (w, st) := RenameEntry(WithDir(2), PATH_A, PATH_AB, 0); st == Success && !TreeInv(w.meta)
  {
    var v := WithDir(2);
    WithDirFacts(2);
    DirNamedA(v);
    BelowA();
    RenameGuards(v, PATH_A, PATH_AB, 0);
    RelocatesWhen(v, 2, 2, B, 0);
    RelocatedKeepsIff(v, 2, 2, B, 0);
    PlacedKeeps(v, 2, 2, B, 0);
    MoveBelowItself(v.meta, Placed(v, 2, 2, B, 0).meta, 2, 2, v.index);
  }

  /** Without a block for the list of the new directory the rename is rolled back. The tree is
      the old one, but the entry keeps the new name, and the index does not know it. */
  lemma RollbackKeepsName()
    ensures var (w, st) := RenameEntry(WithDir(1), PATH_A, PATH_AB, 0);
            st == IoError && TreeInv(w.meta) && NameOf(w.meta, 2) == B && PATH_A in w.index && !Inv(w)
  {
    var v := WithDir(1);
    WithDirFacts(1);
    DirNamedA(v);
    BelowA();
    RenameGuards(v, PATH_A, PATH_AB, 0);
    RollsBack(v, 2, 2, B, 0);
    RolledBackTree(v, 2, B, 0);
    RolledBack(v, 2, B, 0);
  }

  lemma RollsBack(v: Volume, i: nat, np: nat, name: bytes, now: nat)
    requires Inv(v) && Live(v.meta, i) && i != 1 && StoredName(name) && np < U32 && now < U64
    requires StartOf(v, np) == 0 && Free(v.used) == []
    ensures Relocated(v, i, np, name, now) == (Placed(v, i, Par(v.meta, i), name, now), IoError)
  {
    PlacesWhen(v, i, np, name, now);
    RelocatedCases(v, i, np, name, now);
  }

  // ---- Layout and code ----

  /** With 128 bytes for one block and its bitmap, the loop of `fs_format` never ends. */
  lemma LayoutNeverSettles()
    ensures forall k: nat :: !StopsAt(128, 128, k)
  {
    LoopEndsIff(128, 128);
  }

  /** A code that maps all bytes to 1 reads every byte back as 255. */
  lemma ConstantCode(x: bytes)
    ensures var m: Encoding.table := seq(256, _ => 1);
            Encoding.Decode(m, Encoding.Encode(m, x)) == seq(|x|, _ => 255)
  {
    var m: Encoding.table := seq(256, _ => 1);
    assert m[0] == 1;
    forall k | 0 <= k < |x| ensures Encoding.Encode(m, x)[k] == 1 {
    }
  }
}
