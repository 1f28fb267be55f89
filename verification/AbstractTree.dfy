/** The abstract file system is a tree by itself: every step on paths and nodes keeps it one. */
module AbstractTree {
  import opened Bytes
  import opened Paths
  import opened Tree
  import opened State
  import opened Ops
  import opened CreateTheorems
  import opened Renaming
  import opened Runs
  import Encoding

  /** `p` is a name in a folder of `a`. */
  ghost predicate InFolder(a: map<bytes, Node>, p: bytes) {
    exists d, name :: NameIn(a, d, name, p)
  }

  predicate NameIn(a: map<bytes, Node>, d: bytes, name: bytes, p: bytes) {
    FolderAt(a, d) && IsName(name) && p == Child(d, name)
  }

  /** The root is a folder, and everything else is a name in a folder. */
  ghost predicate AbsTree(a: map<bytes, Node>) {
    FolderAt(a, ROOT) && forall p | p in a && p != ROOT :: InFolder(a, p)
  }

  /** What a user sees of a volume in order is a tree. */
  lemma AbsIsTree(v: Volume)
    requires Inv(v)
    ensures AbsTree(Abs(v))
  {
    var a := Abs(v);
    RootPath(v.meta);
    assert Indexed(v.meta, v.index, 1);
    NodeOfIndexed(v, ROOT);
    forall p | p in a && p != ROOT ensures InFolder(a, p) {
      var i := v.index[p];
      assert Points(v.meta, v.index, p) && NodeOk(v.meta, i);
      PathStep(v.meta, i);
      assert Indexed(v.meta, v.index, Par(v.meta, i));
      NodeOfIndexed(v, PathTo(v.meta, Par(v.meta, i)));
      assert NameIn(a, PathTo(v.meta, Par(v.meta, i)), NameOf(v.meta, i), p);
    }
  }

  // ---- Names in folders, as strings ----

  lemma ChildIsNotRoot(d: bytes, name: bytes)
    requires IsName(name)
    ensures Child(d, name) != ROOT && Child(d, name) != d
  {
    assert |Child(d, name)| > 1;
  }

  /** A name in a folder that lies below `path` is in `path` or in a folder below it. */
  lemma ParentBelow(d: bytes, name: bytes, path: bytes)
    requires IsName(name) && path != [] && path != ROOT && path + ROOT <= Child(d, name)
    ensures d != ROOT && (d == path || path + ROOT <= d)
  {
    var dir := if d == ROOT then [] else d;
    var p := dir + ROOT + name;
    assert p[|path|] == (path + ROOT)[|path|] == SLASH;
    forall x | |dir| < x < |p| ensures p[x] != SLASH {
      assert p[x] == name[x - |dir| - 1];
    }
    assert p[..|path|] == path;
    if |path| == |dir| {
      assert p[..|dir|] == dir;
    } else {
      assert p[..|path| + 1] == path + ROOT == dir[..|path| + 1];
    }
  }

  lemma BelowMeansBelow(d: bytes, name: bytes, path: bytes)
    requires path != ROOT && (d == path || path + ROOT <= d)
    ensures path + ROOT <= Child(d, name)
  {
    assert d != ROOT ==> Child(d, name) == d + ROOT + name;
    if d == path {
      assert Child(d, name)[..|path| + 1] == path + ROOT;
    } else {
      assert Child(d, name)[..|path| + 1] == d[..|path| + 1];
    }
  }

  lemma ChildOfRebased(n: nat, target: bytes, d: bytes, name: bytes)
    requires n <= |d| && d != ROOT && |target| > 1
    ensures n <= |Child(d, name)| && target + Child(d, name)[n..] == Child(target + d[n..], name)
  {
    assert (d + ROOT + name)[n..] == d[n..] + ROOT + name;
    assert target + d[n..] != ROOT;
  }

  lemma RebasedFolder(path: bytes, target: bytes, d: bytes)
    requires d == path || path + ROOT <= d
    ensures Rebased(path, target, d) == target + d[|path|..]
  {
  }

  /** A rename moves a name in a folder along with the folder. */
  lemma RebasedChild(path: bytes, target: bytes, d: bytes, name: bytes)
    requires IsName(name) && path != [] && path != ROOT && |target| > 1 && Child(d, name) != path
    ensures Rebased(path, target, Child(d, name)) == Child(Rebased(path, target, d), name)
  {
    if d == path || path + ROOT <= d {
      BelowMeansBelow(d, name, path);
    }
    if path + ROOT <= Child(d, name) {
      ParentBelow(d, name, path);
      RebasedFolder(path, target, d);
      ChildOfRebased(|path|, target, d, name);
    }
  }

  lemma RootStaysPut(path: bytes, target: bytes)
    requires path != [] && path != ROOT
    ensures Rebased(path, target, ROOT) == ROOT
  {
  }

  // ---- Steps ----

  lemma AddedTree(a: map<bytes, Node>, p: bytes, n: Node, d: bytes, name: bytes)
    requires AbsTree(a) && p !in a && NameIn(a, d, name, p)
    ensures AbsTree(a[p := n])
  {
    var b := a[p := n];
    assert FolderAt(a, ROOT) && FolderAt(b, ROOT);
    assert NameIn(b, d, name, p);
    forall q | q in b && q != ROOT && q != p ensures InFolder(b, q) {
      assert InFolder(a, q);
      StillThere(a, b, q);
    }
  }

  /** More paths, and the same folders. */
  lemma StillThere(a: map<bytes, Node>, b: map<bytes, Node>, q: bytes)
    requires InFolder(a, q) && forall d | FolderAt(a, d) :: FolderAt(b, d)
    ensures InFolder(b, q)
  {
    var e, m :| NameIn(a, e, m, q);
    assert NameIn(b, e, m, q);
  }

  /** What is gone held nothing. */
  lemma DroppedTree(a: map<bytes, Node>, p: bytes)
    requires AbsTree(a) && p != ROOT && p in a
    requires a[p].File? || (p != ROOT && forall q | q in a :: !(p + ROOT <= q))
    ensures AbsTree(a - {p})
  {
    var b := a - {p};
    forall q | q in b && q != ROOT ensures InFolder(b, q) {
      var e, m :| NameIn(a, e, m, q);
      assert e == p ==> q == p + ROOT + m;
      assert NameIn(b, e, m, q);
    }
  }

  lemma ChangedTree(a: map<bytes, Node>, p: bytes, n: Node)
    requires AbsTree(a) && FileAt(a, p)
    ensures AbsTree(a[p := n])
  {
    var b := a[p := n];
    assert FolderAt(b, ROOT);
    forall q | q in b && q != ROOT ensures InFolder(b, q) {
      assert InFolder(a, q);
      StillThere(a, b, q);
    }
  }

  lemma RekeyedTree(a: map<bytes, Node>, b: map<bytes, Node>, path: bytes, dir: bytes, name: bytes)
    requires AbsTree(a) && path != ROOT && path != [] && path in a && IsName(name) && FolderAt(a, dir)
    requires dir != path && !(path + ROOT <= dir) && Rekeyed(a, b, path, Child(dir, name))
    ensures AbsTree(b)
  {
    var target := Child(dir, name);
    RootStaysPut(path, target);
    assert FolderAt(b, ROOT) by {
      assert Rebased(path, target, ROOT) in b;
    }
    assert FolderAt(b, dir) by {
      assert Rebased(path, target, dir) in b;
    }
    forall q | q in b && q != ROOT ensures InFolder(b, q) {
      var p :| p in a && Rebased(path, target, p) == q;
      if p == path {
        assert NameIn(b, dir, name, q);
      } else {
        assert p != ROOT;
        var e, m :| NameIn(a, e, m, p);
        ChildIsNotRoot(dir, name);
        assert |target| > 1;
        RebasedChild(path, target, e, m);
        assert Rebased(path, target, e) in b;
        assert NameIn(b, Rebased(path, target, e), m, q);
      }
    }
  }

  lemma NothingIsEmpty(a: map<bytes, Node>, p: bytes)
    requires AbsTree(a) && p in a
    ensures p != []
  {
    if p != ROOT {
      var d, m :| NameIn(a, d, m, p);
      assert |Child(d, m)| > 0;
    }
  }

  /** Every step of the abstract file system keeps it a tree. */
  lemma AbsStepKeepsTree(a: map<bytes, Node>, op: Op, enc: Encoding.table, pl: nat, b: map<bytes, Node>)
    requires pl > 0 && AbsTree(a) && AbsStep(a, op, enc, pl, b)
    ensures AbsTree(b)
  {
    match op
    case Create(path, data, owner, now) =>
      assert BaseOf(path) in Tokens(path);
      AddedTree(a, path, File(FreshCapacity(enc, data, pl), |data|), DirOf(path), BaseOf(path));
    case MkDir(path, owner, now) => AddedTree(a, TargetOf(path), Folder, DirOf(path), Cut(BaseOf(path)));
    case Delete(path) => DroppedTree(a, path);
    case RmDir(path) => DroppedTree(a, path);
    case Edit(path, data, index, now) => ChangedTree(a, path, b[path]);
    case Truncate(path, newSize, now) => ChangedTree(a, path, b[path]);
    case Rename(path, newPath, now) =>
      NothingIsEmpty(a, path);
      RekeyedTree(a, b, path, NewDirOf(newPath), NewBaseOf(newPath));
  }
}
