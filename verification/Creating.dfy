/** `file_create` and `dir_create`: exactly when a success keeps the invariant, and what
    becomes of the paths, folders and contents. */
module Creating {
  import opened Bytes
  import opened Counting
  import opened Bitmap
  import opened Chains
  import opened Paths
  import opened Tree
  import opened State
  import opened Ops
  import opened Directories
  import opened TreeChanges
  import opened Layout
  import Encoding

  // ---- Writing data into the blocks of a chain ----

  lemma {:induction false} WrittenElsewhere(blocks: seq<Block>, c: seq<nat>, f: nat -> Block, k: nat, b: nat)
    requires k <= |c| && 1 <= b <= |blocks| && b !in c
    ensures Written(blocks, c, f, k)[b - 1] == blocks[b - 1]
    decreases k
  {
    if k > 0 {
      WrittenElsewhere(blocks, c, f, k - 1, b);
      assert c[k - 1] in c;
    }
  }

  lemma {:induction false} WrittenAt(blocks: seq<Block>, c: seq<nat>, f: nat -> Block, k: nat, j: nat)
    requires j < k <= |c| && Distinct(c) && Between(c, 1, |blocks| + 1)
    ensures Written(blocks, c, f, k)[c[j] - 1] == f(j)
    decreases k
  {
    if j < k - 1 {
      WrittenAt(blocks, c, f, k - 1, j);
      assert c[j] != c[k - 1];
    }
  }

  lemma FilledElsewhere(blocks: seq<Block>, c: seq<nat>, enc: Encoding.table, data: bytes, pl: nat, b: nat)
    requires 1 <= b <= |blocks| && b !in c
    ensures Filled(blocks, c, enc, data, pl)[b - 1] == blocks[b - 1]
  {
    WrittenElsewhere(blocks, c, DataBlocks(c, enc, data, pl), |c|, b);
  }

  lemma FilledAt(blocks: seq<Block>, c: seq<nat>, enc: Encoding.table, data: bytes, pl: nat, j: nat)
    requires j < |c| && Distinct(c) && Between(c, 1, |blocks| + 1)
    ensures Filled(blocks, c, enc, data, pl)[c[j] - 1] == DataBlock(c, j, enc, data, pl)
  {
    WrittenAt(blocks, c, DataBlocks(c, enc, data, pl), |c|, j);
  }

  lemma DataBlockTyped(c: seq<nat>, k: nat, enc: Encoding.table, data: bytes, bs: nat)
    requires Between(c, 0, U32)
    ensures TypedBlock(DataBlock(c, k, enc, data, Payload(bs)), bs)
  {
  }

  lemma FilledTyped(blocks: seq<Block>, c: seq<nat>, enc: Encoding.table, data: bytes, bs: nat, b: nat)
    requires Distinct(c) && Between(c, 1, |blocks| + 1) && |blocks| < U32 && 1 <= b <= |blocks|
    requires TypedBlock(blocks[b - 1], bs)
    ensures TypedBlock(Filled(blocks, c, enc, data, Payload(bs))[b - 1], bs)
  {
    if b in c {
      var j :| 0 <= j < |c| && c[j] == b;
      FilledAt(blocks, c, enc, data, Payload(bs), j);
      DataBlockTyped(c, j, enc, data, bs);
    } else {
      FilledElsewhere(blocks, c, enc, data, Payload(bs), b);
    }
  }

  /** The written blocks form the chain. */
  lemma FilledLinks(blocks: seq<Block>, c: seq<nat>, enc: Encoding.table, data: bytes, pl: nat)
    requires Distinct(c) && Between(c, 1, |blocks| + 1)
    ensures Links(Filled(blocks, c, enc, data, pl), c)
  {
    var f := Filled(blocks, c, enc, data, pl);
    forall k | 0 <= k < |c| ensures Link(f, c, k) {
      FilledAt(blocks, c, enc, data, pl, k);
    }
  }

  lemma PaddedChunk(enc: Encoding.table, data: bytes, lo: nat, pl: nat, o: nat)
    requires o < pl
    ensures PadTo(Encoding.Encode(enc, Chunk(data, lo, pl)), pl)[o]
         == if lo + o < |data| then Encoding.EncodeByte(enc, data[lo + o]) else 0
  {
    var chunk := Chunk(data, lo, pl);
    if o < |chunk| {
      assert chunk[o] == data[lo + o];
    }
  }

  lemma PaddedAll(enc: Encoding.table, data: bytes, n: nat, x: nat)
    requires |data| <= n && x < n
    ensures PadTo(Encoding.Encode(enc, data), n)[x] == if x < |data| then Encoding.EncodeByte(enc, data[x]) else 0
  {
  }

  lemma DataByte(c: seq<nat>, k: nat, enc: Encoding.table, data: bytes, pl: nat, lo: nat, o: nat)
    requires o < pl && lo == k * pl
    ensures |DataBlock(c, k, enc, data, pl).payload| == pl
    ensures DataBlock(c, k, enc, data, pl).payload[o]
         == if lo + o < |data| then Encoding.EncodeByte(enc, data[lo + o]) else 0
  {
    PaddedChunk(enc, data, lo, pl, o);
  }

  lemma FilledRawAt(blocks: seq<Block>, c: seq<nat>, enc: Encoding.table, data: bytes, pl: nat, k: nat, o: nat, lo: nat)
    requires Distinct(c) && Between(c, 1, |blocks| + 1) && k < |c| && o < pl && lo == k * pl
    ensures ByteAt(Filled(blocks, c, enc, data, pl), c[k], o)
         == if lo + o < |data| then Encoding.EncodeByte(enc, data[lo + o]) else 0
  {
    FilledAt(blocks, c, enc, data, pl, k);
    DataByte(c, k, enc, data, pl, lo, o);
  }

  lemma FilledRawByte(blocks: seq<Block>, c: seq<nat>, enc: Encoding.table, data: bytes, pl: nat, x: nat)
    requires Distinct(c) && Between(c, 1, |blocks| + 1) && pl > 0 && x < |c| * pl
    ensures Raw(Filled(blocks, c, enc, data, pl), c, pl)[x]
         == if x < |data| then Encoding.EncodeByte(enc, data[x]) else 0
  {
    QuotRem(x, pl);
    QuotBelow(x, |c|, pl);
    FilledRawAt(blocks, c, enc, data, pl, Quot(x, pl), Rem(x, pl), Quot(x, pl) * pl);
  }

  /** The raw bytes of a written chain: the encoded data, then zeros. */
  lemma FilledRaw(blocks: seq<Block>, c: seq<nat>, enc: Encoding.table, data: bytes, pl: nat)
    requires Distinct(c) && Between(c, 1, |blocks| + 1) && pl > 0 && |data| <= |c| * pl
    ensures Raw(Filled(blocks, c, enc, data, pl), c, pl) == PadTo(Encoding.Encode(enc, data), |c| * pl)
  {
    var r := Raw(Filled(blocks, c, enc, data, pl), c, pl);
    var p := PadTo(Encoding.Encode(enc, data), |c| * pl);
    forall x | 0 <= x < |r| ensures r[x] == p[x] {
      FilledRawByte(blocks, c, enc, data, pl, x);
      PaddedAll(enc, data, |c| * pl, x);
    }
  }

  // ---- How many blocks ----

  lemma CeilDivBounds(size: nat, pl: nat)
    requires pl > 0
    ensures size <= CeilDiv(size, pl) * pl
    ensures size > 0 ==> CeilDiv(size, pl) == (size + pl - 1) / pl && (CeilDiv(size, pl) - 1) * pl < size
  {
    if size > 0 {
      DivBounds(size - 1, pl);
      DivIs(size + pl - 1, pl, (size - 1) / pl + 1);
    }
  }

  /** The narrowed block count is right exactly while it fits in 32 bits. */
  lemma NeedExact(size: nat, bs: nat)
    requires size < U64 && 128 <= bs < U32
    ensures NeedBlocks(size, bs) < U32
    ensures NeedBlocks(size, bs) == CeilDiv(size, Payload(bs)) <==> CeilDiv(size, Payload(bs)) < U32
  {
    var pl := Payload(bs);
    var n := CeilDiv(size, pl);
    CeilDivBounds(size, pl);
    if size > 0 && n < U32 {
      assert n * pl <= (U32 - 1) * pl by { MulMono(n, U32 - 1, pl); }
      assert size + pl - 1 < U64;
    }
  }

  // ---- The new entry before it is listed in its directory ----

  lemma AllocatedFacts(v: Volume, n: nat)
    requires |v.used| == |v.blocks| && n <= |Free(v.used)|
    ensures var c := Allocated(v.used, n);
            && |c| == n && Distinct(c) && Between(c, 1, |v.blocks| + 1)
            && forall k | 0 <= k < n :: !v.used[c[k] - 1]
  {
    FreeContents(v.used);
    var c := Allocated(v.used, n);
    forall k | 0 <= k < n ensures 1 <= c[k] <= |v.blocks| && !v.used[c[k] - 1] {
      assert Free(v.used)[k] in Free(v.used);
    }
  }

  /** Entry `i`, dead in `v`, is the record `x` with the chain `c` in `s`; nothing else changed. */
  ghost predicate Stored(v: Volume, s: Volume, i: nat, x: MetaEntry, c: seq<nat>) {
    && 1 <= i <= |v.meta| && !Live(v.meta, i)
    && x.valid == 0 && x.kind < 2 && TypedEntry(x)
    && s.meta == v.meta[i - 1 := x]
    && s.index == v.index && Shape(s) && Rechained(v, s, i, c)
  }

  lemma FilledWriteOk(v: Volume, w: Volume, i: nat, c: seq<nat>, data: bytes, b: nat)
    requires w.blocks == Filled(v.blocks, c, v.enc, data, Payload(v.bs))
    requires forall k | 0 <= k < |c| :: Gains(v, i, c[k])
    ensures WriteOk(v, w, i, b)
  {
    if 1 <= b <= |v.blocks| {
      if b in c {
        var k :| 0 <= k < |c| && c[k] == b;
        assert Gains(v, i, c[k]);
      } else {
        FilledElsewhere(v.blocks, c, v.enc, data, Payload(v.bs), b);
      }
    }
  }

  lemma StoreFileUntouched(v: Volume, s: Volume, i: nat, e: MetaEntry, c: seq<nat>, data: bytes)
    requires LooseBlocks(v) && 1 <= i <= |v.meta| && SameDisk(v, s)
    requires s.blocks == Filled(v.blocks, c, v.enc, data, Payload(v.bs))
    requires s.meta == v.meta[i - 1 := e]
    requires forall k | 0 <= k < |c| :: Gains(v, i, c[k])
    ensures forall j | j != i :: Untouched(v, s, j)
  {
    forall j | j != i ensures SameRecord(v, s, j) {
    }
    forall b ensures WriteOk(v, s, i, b) {
      FilledWriteOk(v, s, i, c, data, b);
    }
    OthersUntouched(v, s, i);
  }

  lemma StoreFileShape(v: Volume, i: nat, e: MetaEntry, c: seq<nat>, data: bytes)
    requires Shape(v) && 1 <= i <= |v.meta| && TypedEntry(e)
    requires c == Allocated(v.used, |c|) && |c| <= |Free(v.used)|
    ensures Shape(StoreFile(v, i, e, c, data))
  {
    var s := StoreFile(v, i, e, c, data);
    AllocatedFacts(v, |c|);
    forall b | 0 <= b < |s.blocks| ensures TypedBlock(s.blocks[b], s.bs) {
      assert TypedBlock(v.blocks[b], v.bs);
      FilledTyped(v.blocks, c, v.enc, data, v.bs, b + 1);
    }
    forall j | 0 <= j < |s.meta| ensures TypedEntry(s.meta[j]) {
      assert TypedEntry(v.meta[j]);
    }
  }

  lemma StoreFileStores(v: Volume, i: nat, e: MetaEntry, c: seq<nat>, data: bytes)
    requires Shape(v) && BlockInv(v) && 1 <= i <= |v.meta| && !Live(v.meta, i)
    requires e.valid == 0 && e.kind == 0 && TypedEntry(e) && |c| == CeilDiv(e.size, Payload(v.bs))
    requires c == Allocated(v.used, |c|) && |c| <= |Free(v.used)|
    ensures Stored(v, StoreFile(v, i, e, c, data), i, e.(start := Head(c)), c)
  {
    var s := StoreFile(v, i, e, c, data);
    AllocatedFacts(v, |c|);
    StoreFileShape(v, i, e, c, data);
    forall k | 0 <= k < |c| ensures Gains(v, i, c[k]) {
    }
    StoreFileUntouched(v, s, i, e.(start := Head(c)), c, data);
    StoreFileRechains(v, s, i, e.(start := Head(c)), c, data);
  }

  lemma StoreFileRechains(v: Volume, s: Volume, i: nat, e: MetaEntry, c: seq<nat>, data: bytes)
    requires Shape(v) && BlockInv(v) && 1 <= i <= |v.meta| && !Live(v.meta, i) && SameDisk(v, s)
    requires s.blocks == Filled(v.blocks, c, v.enc, data, Payload(v.bs))
    requires s.meta == v.meta[i - 1 := e] && s.used == Mark(v.used, |v.used|, c, true)
    requires e.valid == 0 && e.kind == 0 && e.start == Head(c) && |c| == CeilDiv(e.size, Payload(v.bs))
    requires Distinct(c) && Between(c, 1, |v.blocks| + 1) && forall k | 0 <= k < |c| :: Gains(v, i, c[k])
    requires forall j | j != i :: Untouched(v, s, j)
    ensures Rechained(v, s, i, c)
  {
    FilledLinks(v.blocks, c, v.enc, data, Payload(v.bs));
    forall b | 1 <= b <= |v.blocks| ensures FlagMoved(v, s, i, c, b) {
    }
  }

  lemma StoreDirStores(v: Volume, i: nat, e: MetaEntry)
    requires Shape(v) && BlockInv(v) && 1 <= i <= |v.meta| && !Live(v.meta, i)
    requires e.valid == 0 && e.kind == 1 && e.start == 0 && TypedEntry(e)
    ensures Stored(v, SetEntry(v, i, e), i, e, [])
  {
    var s := SetEntry(v, i, e);
    forall j | j != i ensures SameRecord(v, s, j) {
    }
    forall b ensures WriteOk(v, s, i, b) {
    }
    OthersUntouched(v, s, i);
    forall j | 0 <= j < |s.meta| ensures TypedEntry(s.meta[j]) {
      assert TypedEntry(v.meta[j]);
    }
    forall b | 1 <= b <= |v.blocks| ensures FlagMoved(v, s, i, [], b) {
    }
  }

  // ---- Listing it in its directory ----

  /** Adding a child changes no name, kind, size or parent. */
  lemma AddChildNodes(v: Volume, p: nat, c: nat, i: nat)
    ensures var w := AddChild(v, p, c).0;
            && SameDisk(v, w) && w.index == v.index && SameNode(v.meta, w.meta, i)
            && SizeOf(v, i) == SizeOf(w, i)
  {
    if StartOf(v, p) == 0 && Free(v.used) != [] {
      var b := Free(v.used)[0];
      var w := WithStart(Marked(v, [b], true), p, b);
      assert AddChild(v, p, c).0 == SetBlock(w, b, DirBlock(v, b, Kids(v, p) + [c]));
      StartKeepsNode(Marked(v, [b], true), p, b, i);
    }
  }

  lemma StartKeepsNode(v: Volume, p: nat, b: nat, i: nat)
    ensures SameNode(v.meta, WithStart(v, p, b).meta, i) && SizeOf(v, i) == SizeOf(WithStart(v, p, b), i)
  {
  }

  lemma StoredIsAdded(v: Volume, s: Volume, i: nat, x: MetaEntry, c: seq<nat>, p: nat)
    requires Inv(v) && Stored(v, s, i, x, c) && x.parent == p && StoredName(x.name) && IsDir(v.meta, p)
    ensures Added(v.meta, AddChild(s, p, i).0.meta, i) && Par(AddChild(s, p, i).0.meta, i) == p
    ensures NameOf(AddChild(s, p, i).0.meta, i) == x.name
    ensures IsDir(s.meta, p) && p != i
  {
    var w := AddChild(s, p, i).0;
    AddChildNodes(s, p, i, i);
    forall j | j != i ensures SameNode(v.meta, w.meta, j) {
      AddChildNodes(s, p, i, j);
    }
  }

  lemma NoKidsYet(v: Volume, w: Volume, i: nat, c: nat)
    requires TreeInv(v.meta) && Added(v.meta, w.meta, i)
    ensures !IsKid(w.meta, c, i)
  {
    assert SameNode(v.meta, w.meta, c) || c == i;
    if c != i && Live(v.meta, c) {
      assert NodeOk(v.meta, c);
    }
  }

  lemma AddedKids(v: Volume, w: Volume, i: nat, d: nat)
    requires TreeInv(v.meta) && ChildInv(v) && Added(v.meta, w.meta, i)
    requires var p := Par(w.meta, i);
             Kids(w, d) == if d == p then Kids(v, d) + [i] else if d == i then [] else Kids(v, d)
    ensures KidsOk(w, d)
  {
    var p := Par(w.meta, i);
    if d == i {
      forall c ensures !IsKid(w.meta, c, i) {
        NoKidsYet(v, w, i, c);
      }
    } else if IsDir(w.meta, d) {
      assert SameNode(v.meta, w.meta, d) && KidsOk(v, d);
      assert !IsKid(v.meta, i, d);
      forall c ensures c in Kids(w, d) <==> IsKid(w.meta, c, d) {
        assert SameNode(v.meta, w.meta, c) || c == i;
      }
    }
  }

  ghost predicate OthersKept(v: Volume, w: Volume, i: nat) {
    forall j | j != i && Live(v.meta, j) :: Live(w.meta, j) && NodeAt(w, j) == NodeAt(v, j)
  }

  lemma PlacedOthers(v: Volume, s: Volume, i: nat, x: MetaEntry, c: seq<nat>, p: nat, j: nat)
    requires Inv(v) && Stored(v, s, i, x, c) && IsDir(s.meta, p) && p != i && BlockInv(s) && AddChild(s, p, i).1
    requires j != i
    ensures var w := AddChild(s, p, i).0;
            && (j != p ==> Kids(w, j) == Kids(v, j))
            && (Live(v.meta, j) ==> Live(w.meta, j) && NodeAt(w, j) == NodeAt(v, j))
  {
    var w := AddChild(s, p, i).0;
    AddChildKeeps(s, p, i);
    assert ChainOk(v, j) && Untouched(v, s, j);
    UntouchedKeeps(v, s, j);
    if j != p {
      assert ChainOk(s, j) && Untouched(s, w, j);
      UntouchedKeeps(s, w, j);
    }
  }

  /** A stored entry listed in a directory with room: everything but the index is in order. */
  lemma PlaceKeeps(v: Volume, s: Volume, i: nat, x: MetaEntry, c: seq<nat>, p: nat)
    requires Inv(v) && Stored(v, s, i, x, c) && x.parent == p && StoredName(x.name) && IsDir(v.meta, p)
    requires AddChild(s, p, i).1 && |Kids(v, p)| < Room(v) && (x.kind == 1 ==> c == [])
    ensures var w := AddChild(s, p, i).0;
            && Shape(w) && BlockInv(w) && ChildInv(w) && TreeInv(w.meta)
            && w.index == v.index && SameDisk(v, w) && OthersKept(v, w, i)
            && Added(v.meta, w.meta, i) && PathTo(w.meta, i) == Child(PathTo(v.meta, p), x.name)
            && NodeAt(w, i) == NodeAt(s, i) && EntryChain(w, i) == c && EntryChain(s, i) == c
  {
    var w := AddChild(s, p, i).0;
    StoredIsAdded(v, s, i, x, c, p);
    RechainKeeps(v, s, i, c);
    AddChildKeeps(s, p, i);
    AddNode(v.meta, w.meta, i);
    assert ChainOk(s, i) && Untouched(s, w, i);
    UntouchedKeeps(s, w, i);
    forall j | j != i && Live(v.meta, j) ensures Live(w.meta, j) && NodeAt(w, j) == NodeAt(v, j) {
      PlacedOthers(v, s, i, x, c, p, j);
    }
    StoredParentKids(v, s, i, x, c, p);
    forall d ensures KidsOk(w, d) {
      if d != i {
        PlacedOthers(v, s, i, x, c, p, d);
      }
      if d == i && !IsDir(w.meta, d) {
      } else {
        AddedKids(v, w, i, d);
      }
    }
  }

  lemma StoredParentKids(v: Volume, s: Volume, i: nat, x: MetaEntry, c: seq<nat>, p: nat)
    requires Inv(v) && Stored(v, s, i, x, c) && p != i
    ensures Kids(s, p) == Kids(v, p)
  {
    assert ChainOk(v, p) && Untouched(v, s, p);
    UntouchedKeeps(v, s, p);
  }

  /** Without room or without a block for the list, the child is lost. */
  /** A list without room or without a block stays as it is. */
  lemma FullList(v: Volume, s: Volume, i: nat, x: MetaEntry, c: seq<nat>, p: nat)
    requires Inv(v) && Stored(v, s, i, x, c) && IsDir(v.meta, p) && x.parent == p && StoredName(x.name)
    requires !AddChild(s, p, i).1 || |Kids(v, p)| >= Room(v)
    ensures Kids(AddChild(s, p, i).0, p) == Kids(v, p)
  {
    RechainKeeps(v, s, i, c);
    StoredParentKids(v, s, i, x, c, p);
    DirShape(v, p);
    AddChildKeeps(s, p, i);
  }

  lemma PlaceFails(v: Volume, s: Volume, i: nat, x: MetaEntry, c: seq<nat>, p: nat)
    requires Inv(v) && Stored(v, s, i, x, c) && x.parent == p && StoredName(x.name) && IsDir(v.meta, p)
    requires !AddChild(s, p, i).1 || |Kids(v, p)| >= Room(v)
    ensures !ChildInv(AddChild(s, p, i).0)
  {
    var w := AddChild(s, p, i).0;
    StoredIsAdded(v, s, i, x, c, p);
    FullList(v, s, i, x, c, p);
    assert KidsOk(v, p) && !IsKid(v.meta, i, p);
    assert SameNode(v.meta, w.meta, p) && IsKid(w.meta, i, p);
    assert !KidsOk(w, p);
  }

  // ---- The path of the new entry ----

  lemma {:induction false} TokensWithout(p: bytes, x: byte)
    requires x !in p
    ensures forall t | t in Tokens(p) :: x !in t
    decreases |p|
  {
    if p != [] {
      if p[0] == SLASH {
        TokensWithout(p[1..], x);
      } else {
        TokensWithout(p[Span(p)..], x);
      }
    }
  }

  lemma BaseIsStored(path: bytes)
    requires Tokens(path) != [] && 0 !in path
    ensures StoredName(Cut(BaseOf(path)))
  {
    TokensWithout(path, 0);
    assert BaseOf(path) in Tokens(path);
  }

  lemma CutPath(up: seq<bytes>, name: bytes, path: bytes)
    requires Names(up) && IsName(name) && IsName(Cut(name)) && Tokens(path) == up + [name]
    ensures PathOf(up + [Cut(name)]) == path <==> PathOf(up + [name]) == path && Cut(name) == name
  {
    TokensOfPath(up + [Cut(name)]);
    if PathOf(up + [Cut(name)]) == path {
      assert Last(up + [Cut(name)]) == Last(up + [name]);
    }
  }

  lemma CutSame(name: bytes)
    ensures Cut(name) == name <==> |name| <= NAME_MAX
  {
  }

  /** The entry gets the path it was asked for exactly when that path is canonical and its
      last component is not cut. */
  lemma ChildPath(path: bytes)
    requires Tokens(path) != [] && 0 !in path
    ensures Child(DirOf(path), Cut(BaseOf(path))) == path <==> Canonical(path) && |BaseOf(path)| <= NAME_MAX
  {
    var ts := Tokens(path);
    var up, name := ts[..|ts| - 1], Last(ts);
    assert up + [name] == ts;
    assert Child(DirOf(path), Cut(BaseOf(path))) == PathOf(up + [Cut(name)]) by {
      PathSnoc(up, Cut(name));
    }
    assert PathOf(up + [Cut(name)]) == path <==> PathOf(ts) == path && Cut(name) == name by {
      BaseIsStored(path);
      CutPath(up, name, path);
    }
    JoinTokensCanonical(path);
    CutSame(name);
  }

  // ---- Room ----

  lemma HeadIn(s: seq<nat>)
    ensures s != [] ==> s[0] in s
  {
  }

  lemma FreeAfter(used: seq<bool>, n: nat)
    requires n <= |Free(used)|
    ensures Free(Mark(used, |used|, Free(used)[..n], true)) != [] <==> n < |Free(used)|
  {
    var c := Free(used)[..n];
    var marked := Mark(used, |used|, c, true);
    FreeContents(used);
    FreeContents(marked);
    HeadIn(Free(marked));
    if n < |Free(used)| {
      var x := Free(used)[n];
      assert x in Free(used) && x !in c;
      assert x in Free(marked);
    } else {
      assert c == Free(used);
    }
  }

  /** Directory `p` can list one more child after `n` blocks are taken. */
  predicate HasRoom(v: Volume, p: nat, n: nat) {
    if StartOf(v, p) != 0 then |Kids(v, p)| < Room(v) else n < |Free(v.used)|
  }

  lemma RoomIsRoom(v: Volume, s: Volume, i: nat, x: MetaEntry, n: nat, p: nat)
    requires Inv(v) && n <= |Free(v.used)| && Stored(v, s, i, x, Free(v.used)[..n]) && IsDir(v.meta, p)
    ensures HasRoom(v, p, n) <==> AddChild(s, p, i).1 && |Kids(v, p)| < Room(v)
  {
    var c := Free(v.used)[..n];
    assert Untouched(v, s, p);
    assert StartOf(s, p) == StartOf(v, p);
    RechainKeeps(v, s, i, c);
    assert IsDir(s.meta, p);
    AddChildKeeps(s, p, i);
    DirShape(v, p);
    FreeAfter(v.used, n);
    StoredFlags(v, s, i, c);
  }

  lemma StoredFlags(v: Volume, s: Volume, i: nat, c: seq<nat>)
    requires !Live(v.meta, i) && Shape(v) && Rechained(v, s, i, c)
    ensures s.used == Mark(v.used, |v.used|, c, true)
  {
    forall b | 0 <= b < |s.used| ensures s.used[b] == Mark(v.used, |v.used|, c, true)[b] {
      assert FlagMoved(v, s, i, c, b + 1);
    }
  }
}
