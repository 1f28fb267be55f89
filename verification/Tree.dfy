/** The directory tree kept in the metadata table: entries with parent numbers, the walk that
    builds an entry's path, and the path index built from it. Entries are numbered from 1;
    entry 1 is the root. An entry is live when its `valid` byte is zero. */
module Tree {
  import opened Bytes
  import opened Counting
  import opened Paths

  datatype MetaEntry = MetaEntry(
    valid: nat, kind: nat, parent: nat, name: bytes, start: nat, size: nat,
    owner: nat, permissions: nat, created: nat, modified: nat, reserved: bytes)

  type table = seq<MetaEntry>

  const NAME_MAX: nat := 11
  const UNNAMED: bytes := [117, 110, 110, 97, 109, 101, 100]

  predicate Live(meta: table, i: nat) {
    1 <= i <= |meta| && meta[i - 1].valid == 0
  }

  predicate IsDir(meta: table, i: nat) {
    Live(meta, i) && meta[i - 1].kind == 1
  }

  predicate IsFile(meta: table, i: nat) {
    Live(meta, i) && meta[i - 1].kind == 0
  }

  function Par(meta: table, i: nat): nat {
    if 1 <= i <= |meta| then meta[i - 1].parent else 0
  }

  function NameOf(meta: table, i: nat): bytes {
    if 1 <= i <= |meta| then meta[i - 1].name else []
  }

  /** A name as `set_name` can store it. */
  predicate StoredName(n: bytes) {
    IsName(n) && |n| <= NAME_MAX && 0 !in n
  }

  /** Some record is free for a new entry. */
  ghost predicate HasDead(meta: table) {
    exists j: nat :: 1 <= j <= |meta| && !Live(meta, j)
  }

  /** `i` is the first such record: those of deleted entries are used again. */
  ghost predicate LowestDead(meta: table, i: nat) {
    1 <= i <= |meta| && !Live(meta, i) && forall j: nat | 1 <= j < i :: Live(meta, j)
  }

  // ---- Reaching the root ----

  /** `i` reaches entry 1 through live entries in exactly `k` steps. */
  predicate Climb(meta: table, i: nat, k: nat)
    decreases k
  {
    Live(meta, i) && if k == 0 then i == 1 else i != 1 && Climb(meta, Par(meta, i), k - 1)
  }

  ghost predicate Rooted(meta: table, i: nat) {
    exists k: nat :: Climb(meta, i, k)
  }

  lemma {:induction false} ClimbUnique(meta: table, i: nat, k: nat, l: nat)
    requires Climb(meta, i, k) && Climb(meta, i, l)
    ensures k == l
    decreases k
  {
    if k > 0 && l > 0 {
      ClimbUnique(meta, Par(meta, i), k - 1, l - 1);
    }
  }

  function Ancestors(meta: table, i: nat, k: nat): (r: seq<nat>)
    ensures |r| == k + 1
    decreases k
  {
    if k == 0 then [i] else [i] + Ancestors(meta, Par(meta, i), k - 1)
  }

  lemma {:induction false} AncestorClimbs(meta: table, i: nat, k: nat, j: nat)
    requires Climb(meta, i, k) && j <= k
    ensures Climb(meta, Ancestors(meta, i, k)[j], k - j)
    decreases k
  {
    if j > 0 {
      AncestorClimbs(meta, Par(meta, i), k - 1, j - 1);
    }
  }

  /** No entry is deeper than the table is long: the guard of the path walk never fires. */
  lemma ClimbIsShort(meta: table, i: nat, k: nat)
    requires Climb(meta, i, k)
    ensures k < |meta|
  {
    var a := Ancestors(meta, i, k);
    forall x | 0 <= x <= k ensures Climb(meta, a[x], k - x) {
      AncestorClimbs(meta, i, k, x);
    }
    forall x, y | 0 <= x < y <= k ensures a[x] != a[y] {
      if a[x] == a[y] {
        ClimbUnique(meta, a[x], k - x, k - y);
      }
    }
    Pigeonhole(a, 1, |meta| + 1);
  }

  // ---- Paths of entries ----

  /** The names that `build_full_path_from_meta` collects from `cur` upwards, root first,
      in at most `guard` steps. */
  function Parts(meta: table, cur: nat, guard: nat): seq<bytes>
    decreases guard
  {
    if guard == 0 || !Live(meta, cur) || cur == 1 then []
    else Parts(meta, Par(meta, cur), guard - 1) + [if NameOf(meta, cur) == [] then UNNAMED else NameOf(meta, cur)]
  }

  function Toks(meta: table, i: nat): seq<bytes> {
    Parts(meta, i, |meta|)
  }

  function PathTo(meta: table, i: nat): bytes {
    PathOf(Toks(meta, i))
  }

  lemma {:induction false} PartsSettle(meta: table, i: nat, k: nat, guard: nat)
    requires Climb(meta, i, k) && k <= guard
    ensures Parts(meta, i, guard) == Parts(meta, i, k) && |Parts(meta, i, k)| == k
    decreases guard
  {
    if k > 0 {
      PartsSettle(meta, Par(meta, i), k - 1, guard - 1);
    }
  }

  lemma ToksAre(meta: table, i: nat, k: nat)
    requires Climb(meta, i, k)
    ensures Toks(meta, i) == Parts(meta, i, k) && |Toks(meta, i)| == k
  {
    ClimbIsShort(meta, i, k);
    PartsSettle(meta, i, k, |meta|);
  }

  // ---- The tree invariant ----

  ghost predicate NodeOk(meta: table, i: nat) {
    Live(meta, i) ==>
      && Rooted(meta, i)
      && meta[i - 1].kind < 2
      && (i != 1 ==> IsDir(meta, Par(meta, i)) && StoredName(NameOf(meta, i)))
  }

  /** Every live entry but the root has a live directory as parent and reaches the root. */
  ghost predicate TreeInv(meta: table) {
    IsDir(meta, 1) && Par(meta, 1) == 0 && forall i | 1 <= i <= |meta| :: NodeOk(meta, i)
  }

  lemma ToksStep(meta: table, i: nat)
    requires TreeInv(meta) && Live(meta, i) && i != 1
    ensures Toks(meta, i) == Toks(meta, Par(meta, i)) + [NameOf(meta, i)]
  {
    assert NodeOk(meta, i);
    var k: nat :| Climb(meta, i, k);
    ToksAre(meta, i, k);
    ToksAre(meta, Par(meta, i), k - 1);
  }

  lemma {:induction false} PartsNames(meta: table, i: nat, k: nat)
    requires forall i | 1 <= i <= |meta| :: NodeOk(meta, i)
    ensures Names(Parts(meta, i, k))
    decreases k
  {
    if k > 0 && Live(meta, i) && i != 1 {
      assert NodeOk(meta, i);
      PartsNames(meta, Par(meta, i), k - 1);
    }
  }

  lemma ToksNames(meta: table, i: nat)
    requires TreeInv(meta)
    ensures Names(Toks(meta, i))
  {
    PartsNames(meta, i, |meta|);
  }

  lemma RootPath(meta: table)
    ensures Toks(meta, 1) == [] && PathTo(meta, 1) == ROOT
  {
  }

  lemma PathStep(meta: table, i: nat)
    requires TreeInv(meta) && Live(meta, i) && i != 1
    ensures PathTo(meta, i) == Child(PathTo(meta, Par(meta, i)), NameOf(meta, i))
  {
    ToksStep(meta, i);
    ToksNames(meta, Par(meta, i));
    PathSnoc(Toks(meta, Par(meta, i)), NameOf(meta, i));
  }

  // ---- Changing one entry ----

  /** What the tree sees of an entry. */
  predicate SameNode(a: table, b: table, i: nat) {
    && (Live(a, i) <==> Live(b, i))
    && (Live(a, i) ==> a[i - 1].kind == b[i - 1].kind && Par(a, i) == Par(b, i) && NameOf(a, i) == NameOf(b, i))
  }

  ghost predicate SameBut(a: table, b: table, e: nat) {
    |a| == |b| && forall i | i != e :: SameNode(a, b, i)
  }

  predicate Through(meta: table, i: nat, k: nat, e: nat)
    decreases k
  {
    i == e || (k > 0 && Through(meta, Par(meta, i), k - 1, e))
  }

  /** A walk that avoids the changed entry is as before. */
  lemma {:induction false} Avoid(a: table, b: table, e: nat, i: nat, k: nat)
    requires SameBut(a, b, e) && Climb(a, i, k) && !Through(a, i, k, e)
    ensures Climb(b, i, k) && Parts(b, i, k) == Parts(a, i, k)
    decreases k
  {
    assert SameNode(a, b, i);
    if k > 0 {
      Avoid(a, b, e, Par(a, i), k - 1);
    }
  }

  lemma AvoidToks(a: table, b: table, e: nat, i: nat, k: nat)
    requires SameBut(a, b, e) && Climb(a, i, k) && !Through(a, i, k, e)
    ensures Rooted(b, i) && Toks(b, i) == Toks(a, i)
  {
    Avoid(a, b, e, i, k);
    ToksAre(a, i, k);
    ToksAre(b, i, k);
  }

  /** A walk from below the changed entry follows it: the names below it stay, the names
      above it are replaced. */
  lemma {:induction false} Follow(a: table, b: table, e: nat, i: nat, k: nat, ka: nat, kb: nat)
    requires SameBut(a, b, e) && Climb(a, i, k) && Through(a, i, k, e)
    requires Climb(a, e, ka) && Climb(b, e, kb)
    ensures ka <= k && Climb(b, i, kb + k - ka)
    ensures |Parts(a, i, k)| == k && Parts(a, e, ka) <= Parts(a, i, k)
    ensures Parts(b, i, kb + k - ka) == Parts(b, e, kb) + Parts(a, i, k)[ka..]
    decreases k
  {
    PartsSettle(a, i, k, k);
    PartsSettle(a, e, ka, ka);
    if i == e {
      ClimbUnique(a, i, k, ka);
    } else {
      assert SameNode(a, b, i);
      Follow(a, b, e, Par(a, i), k - 1, ka, kb);
      PartsSettle(a, Par(a, i), k - 1, k - 1);
      FollowStep(a, b, e, i, k, ka, kb);
    }
  }

  lemma FollowStep(a: table, b: table, e: nat, i: nat, k: nat, ka: nat, kb: nat)
    requires ka < k && SameNode(a, b, i) && Live(a, i) && i != 1 && Climb(b, i, kb + k - ka)
    requires |Parts(a, Par(a, i), k - 1)| == k - 1
    requires Parts(b, Par(a, i), kb + k - 1 - ka) == Parts(b, e, kb) + Parts(a, Par(a, i), k - 1)[ka..]
    ensures Parts(b, i, kb + k - ka) == Parts(b, e, kb) + Parts(a, i, k)[ka..]
  {
  }

  lemma {:induction false} NotThroughDead(meta: table, i: nat, k: nat, e: nat)
    requires Climb(meta, i, k) && !Live(meta, e)
    ensures !Through(meta, i, k, e)
    decreases k
  {
    if k > 0 {
      NotThroughDead(meta, Par(meta, i), k - 1, e);
    }
  }

  ghost predicate Childless(meta: table, e: nat) {
    forall i | Live(meta, i) :: Par(meta, i) != e
  }

  lemma {:induction false} NotThroughChildless(meta: table, i: nat, k: nat, e: nat)
    requires Climb(meta, i, k) && Childless(meta, e) && i != e
    ensures !Through(meta, i, k, e)
    decreases k
  {
    if k > 0 {
      NotThroughChildless(meta, Par(meta, i), k - 1, e);
    }
  }

  // ---- The path index ----

  predicate Indexed(meta: table, index: map<bytes, nat>, i: nat) {
    PathTo(meta, i) in index && index[PathTo(meta, i)] == i
  }

  predicate Points(meta: table, index: map<bytes, nat>, p: bytes) {
    p in index ==> Live(meta, index[p]) && PathTo(meta, index[p]) == p
  }

  /** `index[p] == i` exactly when `i` is live and its path is `p`. */
  ghost predicate IndexInv(meta: table, index: map<bytes, nat>) {
    (forall i | Live(meta, i) :: Indexed(meta, index, i)) && (forall p :: Points(meta, index, p))
  }

  ghost predicate DistinctPaths(meta: table) {
    forall i, j | Live(meta, i) && Live(meta, j) && PathTo(meta, i) == PathTo(meta, j) :: i == j
  }

  lemma IndexMeansDistinct(meta: table, index: map<bytes, nat>)
    requires IndexInv(meta, index)
    ensures DistinctPaths(meta)
  {
    forall i, j | Live(meta, i) && Live(meta, j) && PathTo(meta, i) == PathTo(meta, j) ensures i == j {
      assert Indexed(meta, index, i) && Indexed(meta, index, j);
    }
  }

  /** A table has one exact index. */
  lemma IndexUnique(meta: table, a: map<bytes, nat>, b: map<bytes, nat>)
    requires IndexInv(meta, a) && IndexInv(meta, b)
    ensures a == b
  {
    forall p | p in a ensures p in b && a[p] == b[p] {
      assert Points(meta, a, p) && Indexed(meta, b, a[p]);
    }
    forall p | p in b ensures p in a {
      assert Points(meta, b, p) && Indexed(meta, a, b[p]);
    }
  }

  /** `rebuild_path_index` after the first `k` entries. */
  function Rebuild(meta: table, k: nat): map<bytes, nat>
    requires k <= |meta|
  {
    if k == 0 then map[]
    else if Live(meta, k) then Rebuild(meta, k - 1)[PathTo(meta, k) := k]
    else Rebuild(meta, k - 1)
  }

  lemma {:induction false} RebuildPoints(meta: table, k: nat, p: bytes)
    requires k <= |meta|
    ensures p in Rebuild(meta, k) ==> var i := Rebuild(meta, k)[p]; i <= k && Live(meta, i) && PathTo(meta, i) == p
  {
    if k > 0 {
      RebuildPoints(meta, k - 1, p);
    }
  }

  lemma {:induction false} RebuildHas(meta: table, k: nat, i: nat)
    requires i <= k <= |meta| && Live(meta, i)
    ensures PathTo(meta, i) in Rebuild(meta, k)
    decreases k
  {
    if i < k {
      RebuildHas(meta, k - 1, i);
    }
  }

  /** Rebuilding gives the exact index of any table whose live entries have distinct paths. */
  lemma RebuildExact(meta: table)
    requires DistinctPaths(meta)
    ensures IndexInv(meta, Rebuild(meta, |meta|))
  {
    var index := Rebuild(meta, |meta|);
    forall p ensures Points(meta, index, p) {
      RebuildPoints(meta, |meta|, p);
    }
    forall i | Live(meta, i) ensures Indexed(meta, index, i) {
      RebuildHas(meta, |meta|, i);
      assert Points(meta, index, PathTo(meta, i));
    }
  }
}
