/** A directory whose list is full, reached by creating files one by one: further entries are
    accepted, but the list does not take them. */
module FullDirectories {
  import opened Bytes
  import opened Counting
  import opened Bitmap
  import opened Paths
  import opened Tree
  import opened State
  import opened Ops
  import opened Directories
  import opened Creating
  import opened CreateTheorems
  import opened Editing
  import opened Renaming
  import opened Runs
  import opened Limits

  /** 31 names that differ from those in "/a/b". */
  function Item(m: nat): bytes {
    [if m < 100 then 128 + m else 128]
  }

  function ItemPath(m: nat): bytes {
    ROOT + Item(m)
  }

  predicate IsItem(p: bytes, m: nat) {
    p == ItemPath(m)
  }

  ghost predicate KnownPath(p: bytes, k: nat) {
    p == ROOT || p == PATH_A || p == PATH_AB || exists m: nat :: 1 <= m <= k && IsItem(p, m)
  }

  predicate InTop(meta: table, j: nat) {
    Par(meta, j) == 1
  }

  ghost predicate CrowdTable(meta: table, k: nat) {
    && |meta| == 40 && LiveUpTo(meta, k + 3)
    && IsDir(meta, 2) && InTop(meta, 2) && IsFile(meta, 3) && Par(meta, 3) == 2
    && (forall j: nat | 4 <= j <= k + 3 :: InTop(meta, j))
  }

  ghost predicate CrowdIndex(index: map<bytes, nat>, k: nat) {
    && PATH_A in index && index[PATH_A] == 2 && PATH_AB in index && index[PATH_AB] == 3
    && (forall p | p in index :: KnownPath(p, k))
  }

  /** "/a" with "/a/b" in it, and `k` files beside "/a". */
  ghost predicate CrowdFacts(v: Volume, k: nat) {
    Inv(v) && v.bs == 128 && StartOf(v, 1) != 0 && CrowdTable(v.meta, k) && CrowdIndex(v.index, k)
  }

  // ---- The first two entries ----

  function TopDir(): Volume {
    MakeDir(FreshVolume(128, 2, 40), PATH_A, 0, 0).0
  }

  function Base(): Volume {
    CreateFile(TopDir(), PATH_AB, [], 0, 0).0
  }

  predicate OnlyA(v: Volume) {
    && |v.meta| == 40 && v.bs == 128 && v.index == map[ROOT := 1, PATH_A := 2]
    && IsDir(v.meta, 2) && InTop(v.meta, 2) && StartOf(v, 1) != 0 && StartOf(v, 2) == 0 && Free(v.used) != []
  }

  lemma FirstDir(v: Volume)
    requires Inv(v) && LiveUpTo(v.meta, 1) && |v.meta| == 40 && v.bs == 128 && v.index == map[ROOT := 1]
    requires StartOf(v, 1) == 0 && Kids(v, 1) == [] && Room(v) == 31 && IsDir(v.meta, 1) && |Free(v.used)| > 1
    ensures var w := MakeDir(v, PATH_A, 0, 0).0; Inv(w) && LiveUpTo(w.meta, 2) && OnlyA(w)
  {
    InRoot(v, A, 1);
    MadeDir(v, PATH_A, 1);
    MakeDirSucceeds(v, PATH_A, 0, 0);
    FirstListFlags(StoredDir(v, PATH_A, 0, 0), 1, 2);
  }

  lemma TopDirFacts()
    ensures var w := TopDir(); Inv(w) && LiveUpTo(w.meta, 2) && OnlyA(w)
  {
    FreshFacts(2, 40);
    FirstDir(FreshVolume(128, 2, 40));
  }

  lemma BaseFits(v: Volume)
    requires Inv(v) && LiveUpTo(v.meta, 2) && OnlyA(v)
    ensures Request(PATH_AB, 0, 0, 0) && Creates(v, PATH_AB, 0) && CreateFits(v, PATH_AB, 0)
      && ParentOf(v, PATH_AB) == 2
  {
    BelowA();
    FirstDeadIs(v.meta, 2, 0);
  }

  lemma SecondFile(v: Volume)
    requires Inv(v) && LiveUpTo(v.meta, 2) && OnlyA(v)
    ensures CrowdFacts(CreateFile(v, PATH_AB, [], 0, 0).0, 0)
  {
    BaseFits(v);
    MadeFile(v, PATH_AB, 2);
    BaseTable(v, CreateFile(v, PATH_AB, [], 0, 0).0);
    assert PATH_A != PATH_AB;
  }

  lemma BaseFacts()
    ensures CrowdFacts(Base(), 0)
  {
    TopDirFacts();
    SecondFile(TopDir());
  }

  lemma BaseTable(v: Volume, w: Volume)
    requires Joined(v, w, 3, 2) && |v.meta| == 40 && LiveUpTo(v.meta, 2) && StartOf(v, 1) != 0
    requires IsDir(v.meta, 2) && InTop(v.meta, 2) && IsFile(w.meta, 3)
    ensures CrowdTable(w.meta, 0) && StartOf(w, 1) != 0 && w.bs == v.bs
  {
    assert KeptEntry(v, w, 1, 2) && KeptEntry(v, w, 2, 2);
    assert Live(v.meta, 1) && Live(v.meta, 2);
  }

  // ---- More files ----

  /** The volume with `k` files beside "/a". */
  function Crowd(k: nat): Volume {
    if k == 0 then Base() else CreateFile(Crowd(k - 1), ItemPath(k), [], 0, 0).0
  }

  lemma TopKid(meta: table, k: nat, c: nat)
    requires CrowdTable(meta, k) && Par(meta, 1) == 0
    ensures IsKid(meta, c, 1) <==> c == 2 || 4 <= c < k + 4
  {
    assert Live(meta, c) <==> 1 <= c <= k + 3;
    assert 4 <= c <= k + 3 ==> InTop(meta, c);
  }

  lemma KidIs(v: Volume, k: nat, c: nat)
    requires CrowdFacts(v, k)
    ensures c in Kids(v, 1) <==> c == 2 || 4 <= c < k + 4
  {
    RootEntry(v);
    assert KidsOk(v, 1);
    assert c in Kids(v, 1) <==> IsKid(v.meta, c, 1);
    TopKid(v.meta, k, c);
  }

  lemma SpanCount(kids: seq<nat>, k: nat)
    requires Distinct(kids) && forall c: nat :: c in kids <==> c == 2 || 4 <= c < k + 4
    ensures |kids| == k + 1
  {
    assert Elements(kids) == Range(4, k + 4) + {2};
    ElementsCard(kids);
    RangeCard(4, k + 4);
  }

  /** The list of the root has "/a" and the files. */
  lemma KidCount(v: Volume, k: nat)
    requires CrowdFacts(v, k)
    ensures |Kids(v, 1)| == k + 1
  {
    RootEntry(v);
    assert KidsOk(v, 1);
    forall c: nat ensures c in Kids(v, 1) <==> c == 2 || 4 <= c < k + 4 {
      KidIs(v, k, c);
    }
    SpanCount(Kids(v, 1), k);
  }

  lemma ItemsDiffer(p: bytes, k: nat)
    requires k <= 30 && KnownPath(p, k)
    ensures p != ItemPath(k + 1)
  {
    assert ItemPath(k + 1)[1] == 128 + k + 1 && |ItemPath(k + 1)| == 2;
    assert PATH_A[1] == 97 && |PATH_AB| == 4 && |ROOT| == 1;
    forall m: nat | 1 <= m <= k && IsItem(p, m) ensures ItemPath(m) != ItemPath(k + 1) {
      assert ItemPath(m)[1] == 128 + m;
    }
  }

  lemma ItemIsNew(v: Volume, k: nat)
    requires CrowdFacts(v, k) && k <= 30
    ensures IsName(Item(k + 1)) && 0 !in Item(k + 1) && |Item(k + 1)| <= NAME_MAX && ItemPath(k + 1) !in v.index
  {
    forall p | p in v.index ensures p != ItemPath(k + 1) {
      assert KnownPath(p, k);
      ItemsDiffer(p, k);
    }
  }

  lemma CrowdStep(v: Volume, k: nat)
    requires CrowdFacts(v, k) && k < 30
    ensures CrowdFacts(CreateFile(v, ItemPath(k + 1), [], 0, 0).0, k + 1)
  {
    var p, w := ItemPath(k + 1), CreateFile(v, ItemPath(k + 1), [], 0, 0).0;
    ItemIsNew(v, k);
    InRoot(v, Item(k + 1), k + 3);
    KidCount(v, k);
    MadeFile(v, p, k + 3);
    GrownTable(v, w, k);
    GrownIndex(v.index, k);
  }

  lemma GrownTable(v: Volume, w: Volume, k: nat)
    requires CrowdTable(v.meta, k) && Joined(v, w, k + 4, 1)
    ensures CrowdTable(w.meta, k + 1)
  {
    assert KeptEntry(v, w, 2, 1) && KeptEntry(v, w, 3, 1);
    assert Live(v.meta, 2) && Live(v.meta, 3);
    forall j: nat | 4 <= j <= k + 4 ensures InTop(w.meta, j) {
      if j < k + 4 {
        assert KeptEntry(v, w, j, 1) && InTop(v.meta, j) && Live(v.meta, j);
      }
    }
  }

  lemma GrownIndex(index: map<bytes, nat>, k: nat)
    requires CrowdIndex(index, k) && ItemPath(k + 1) !in index
    ensures CrowdIndex(index[ItemPath(k + 1) := k + 4], k + 1)
  {
    var grown := index[ItemPath(k + 1) := k + 4];
    forall q | q in grown ensures KnownPath(q, k + 1) {
      if q == ItemPath(k + 1) {
        assert IsItem(q, k + 1);
      } else {
        assert KnownPath(q, k);
      }
    }
  }

  lemma {:induction false} CrowdIs(k: nat)
    requires k <= 30
    ensures CrowdFacts(Crowd(k), k)
  {
    if k == 0 {
      BaseFacts();
    } else {
      CrowdIs(k - 1);
      CrowdStep(Crowd(k - 1), k - 1);
    }
  }

  // ---- One too many ----

  lemma FullFacts(v: Volume, k: nat)
    requires CrowdFacts(v, k) && k == 30
    ensures !HasRoom(v, 1, 0) && |Kids(v, 1)| == Room(v)
    ensures ItemPath(k + 1) !in v.index && IsName(Item(k + 1)) && 0 !in Item(k + 1) && |Item(k + 1)| <= NAME_MAX
  {
    KidCount(v, k);
    ItemIsNew(v, k);
  }

  /** With 31 children ("/a" and 30 files) in a block of 128 bytes, `file_create` succeeds once more, but the new
      file is in no list. */
  lemma CreateInFull(k: nat)
    requires k == 30
    ensures var (w, st) := CreateFile(Crowd(k), ItemPath(k + 1), [], 0, 0); st == Success && !Inv(w)
  {
    var v := Crowd(k);
    CrowdIs(k);
    FullFacts(v, k);
    InRoot(v, Item(k + 1), k + 3);
    CreateFileKeepsIff(v, ItemPath(k + 1), [], 0, 0);
  }

  /** So does `dir_create`. */
  lemma MakeDirInFull(k: nat)
    requires k == 30
    ensures var (w, st) := MakeDir(Crowd(k), ItemPath(k + 1), 0, 0); st == Success && !Inv(w)
  {
    var v := Crowd(k);
    CrowdIs(k);
    FullFacts(v, k);
    InRoot(v, Item(k + 1), k + 3);
    MakeDirKeepsIff(v, ItemPath(k + 1), 0, 0);
  }

  lemma RenamableToRoot(v: Volume, path: bytes, name: bytes)
    requires Inv(v) && path in v.index && v.index[path] != 1 && path != [] && StartOf(v, 1) != 0
    requires IsName(name) && 0 !in name && |name| <= NAME_MAX && ROOT + name !in v.index
    ensures Renames(v, path, ROOT + name) && Target(v, ROOT + name) == 1 && NewBaseOf(ROOT + name) == name
  {
    RootEntry(v);
    NewInRoot(name);
    IndexedPath(v, path);
    assert NodeOk(v.meta, v.index[path]);
  }

  /** A file that is renamed into the full directory is lost from all lists. */
  lemma RenameIntoFull(k: nat)
    requires k == 30
    ensures var (w, st) := RenameEntry(Crowd(k), PATH_AB, ItemPath(k + 1), 0); st == Success && !Inv(w)
  {
    var v := Crowd(k);
    CrowdIs(k);
    FullFacts(v, k);
    RenamableToRoot(v, PATH_AB, Item(k + 1));
    assert !RoomToMove(v, 3, 1);
    RenameKeepsIff(v, PATH_AB, ItemPath(k + 1), 0);
  }

  lemma TakenByA(v: Volume)
    requires CrowdFacts(v, 0)
    ensures Renames(v, PATH_AB, SLASHED_A) && Target(v, SLASHED_A) == 1 && NewBaseOf(SLASHED_A) == A
    ensures !TargetPathFree(v, 3, 1, A)
  {
    SlashedName();
    RootEntry(v);
    RootPath(v.meta);
    OneName(A);
    forall p | p in v.index ensures p != SLASHED_A {
      assert KnownPath(p, 0);
      assert |SLASHED_A| == 3 && |PATH_A| == 2 && |PATH_AB| == 4;
    }
  }

  /** "/a/b" renamed to "//a" while there is "/a": two entries have one path. */
  lemma RenameOntoTaken()
    ensures var (w, st) := RenameEntry(Base(), PATH_AB, SLASHED_A, 0); st == Success && !Inv(w)
  {
    var v := Base();
    BaseFacts();
    RootEntry(v);
    SlashedName();
    TakenByA(v);
    RenameKeepsIff(v, PATH_AB, SLASHED_A, 0);
  }
}
