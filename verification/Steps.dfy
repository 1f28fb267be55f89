/** Steps of the engine's methods that do not touch an instance: small loops over strings
    and lists, and facts about the state between two writes. */
module Steps {
  import opened Bytes
  import opened Counting
  import opened Bitmap
  import opened Chains
  import opened Paths
  import opened Tree
  import opened State
  import opened Ops
  import opened Creating
  import opened CreateTheorems
  import opened Editing
  import opened Renaming
  import opened Reachable
  import Encoding

  /** A payload that is overwritten in full. */
  lemma HeadOnly(head: bytes, prev: bytes)
    requires |head| == |prev|
    ensures head + prev[|head|..] == head
  {
  }

  lemma InVolume(c: seq<nat>, n: nat, k: nat)
    requires Between(c, 1, n + 1) && n < U32 && k < |c|
    ensures 1 <= c[k] <= n && At(c, k + 1) < U32
  {
  }

  lemma WrittenNext(blocks: seq<Block>, c: seq<nat>, f: nat -> Block, k: nat)
    requires k < |c| && 1 <= c[k] <= |blocks|
    ensures Written(blocks, c, f, k + 1) == Written(blocks, c, f, k)[c[k] - 1 := f(k)]
  {
  }

  lemma MarkPrefix(flags: seq<bool>, n: nat, list: seq<nat>, v: bool)
    requires n <= |flags|
    ensures Mark(flags, n, list, v)[..n] == Mark(flags[..n], n, list, v)
  {
  }

  lemma NonZeroSnoc(ws: seq<nat>, k: nat)
    requires k < |ws|
    ensures NonZero(ws[..k + 1]) == NonZero(ws[..k]) + (if ws[k] == 0 then [] else [ws[k]])
  {
    assert ws[..k + 1][..k] == ws[..k];
  }

  /** Along a chain, 0 means that it is complete. */
  /** `dir_create` once its checks are passed. */
  lemma MakeDirEnters(v: Volume, path: bytes, owner: nat, now: nat, i: nat, p: nat)
    requires ParentStatus(v, path) == Success && p == ParentOf(v, path) && IsDir(v.meta, p) && path !in v.index
    requires i == NewIndex(v) && i != 0
    ensures var (w, ok) := AddChild(SetEntry(v, i, NewDir(v, path, owner, now)), p, i);
            MakeDir(v, path, owner, now)
              == if ok then (Reindexed(BumpNext(w, i)), Success)
                 else (SetEntry(w, i, NewDir(v, path, owner, now).(valid := 1)), IoError)
  {
  }

  /** `file_edit` once its checks are passed. */
  lemma EditApplies(v: Volume, path: bytes, data: bytes, index: nat, now: nat, i: nat, k: nat, pos: nat)
    requires Shape(v) && LooseBlocks(v) && path in v.index && i == v.index[path] && IsFile(v.meta, i)
    requires index <= v.meta[i - 1].size && k == Quot(index, Payload(v.bs)) && pos == Rem(index, Payload(v.bs))
    requires k < |EntryChain(v, i)|
    ensures 1 <= EntryChain(v, i)[k] <= |v.blocks|
    ensures var s := SetEntry(v, i, v.meta[i - 1].(modified := now));
            EditFile(v, path, data, index, now) == (EditBlock(s, EntryChain(v, i)[k], pos, data), Success)
  {
    assert ChainEnds(v, i);
    assert Link(v.blocks, EntryChain(v, i), k);
  }

  /** `file_delete` on the path of a file. */
  lemma DeleteApplies(v: Volume, path: bytes, i: nat)
    requires path in v.index && i == v.index[path] && IsFile(v.meta, i)
    ensures DeleteFile(v, path) == (Deleted(v, i), Success)
  {
  }

  lemma EditRefused(v: Volume, path: bytes, data: bytes, index: nat, now: nat)
    requires path in v.index && IsFile(v.meta, v.index[path])
    requires index > v.meta[v.index[path] - 1].size || Quot(index, Payload(v.bs)) >= |EntryChain(v, v.index[path])|
    ensures EditFile(v, path, data, index, now) == (v, InvalidOperation)
  {
  }

  /** What one block adds to a child list. */
  lemma ListStep(blocks: seq<Block>, c: seq<nat>, k: nat, b: nat)
    requires k < |c| && c[k] == b && 1 <= b <= |blocks|
    ensures Gather(DirEntries, blocks, c, k + 1)
      == Gather(DirEntries, blocks, c, k) + NonZero(Words(blocks[b - 1].payload))
  {
    GatherNext(DirEntries, blocks, c, k);
  }

  lemma LinkedOrDone(blocks: seq<Block>, c: seq<nat>, k: nat)
    requires Links(blocks, c) && k <= |c|
    ensures At(c, k) == 0 <==> k == |c|
  {
    if k < |c| {
      assert Link(blocks, c, k);
    }
  }

  lemma NoneFree(used: seq<bool>)
    requires Allocated(used, 1) == []
    ensures Free(used) == []
  {
  }

  lemma OneFree(v: Volume, b: nat)
    requires |v.used| == |v.blocks| && Allocated(v.used, 1) != [] && b == Allocated(v.used, 1)[0]
    ensures Allocated(v.used, 1) == [b] && Free(v.used) != [] && b == Free(v.used)[0] && 1 <= b <= |v.blocks|
  {
    FreeContents(v.used);
    assert b in Free(v.used);
  }

  /** The list of entry `p` can be read: its chain ends, or it is dead and has none. */
  predicate Readable(v: Volume, p: nat) {
    1 <= p <= |v.meta| && ChainEnds(v, p) && (!Live(v.meta, p) ==> v.meta[p - 1].start == 0)
  }

  /** The list of the directory that a new path names can be read. */
  lemma ParentKept(v: Volume, path: bytes)
    requires Usable(v) && ParentStatus(v, path) == Success
    ensures Live(v.meta, ParentOf(v, path)) && Readable(v, ParentOf(v, path))
  {
    assert IndexLive(v, DirOf(path)) && ChainEnds(v, ParentOf(v, path));
  }

  lemma ReadableChain(v: Volume, p: nat)
    requires Readable(v, p)
    ensures var s := v.meta[p - 1].start;
            && IsChain(v.blocks, s, Chain(v.blocks, s)) && Kids(v, p) == ChainWords(v.blocks, Chain(v.blocks, s))
            && (s != 0 ==> 1 <= s <= |v.blocks|)
  {
    if Live(v.meta, p) && v.meta[p - 1].start != 0 {
      assert Link(v.blocks, EntryChain(v, p), 0);
    }
  }

  lemma ParentReadable(v: Volume, i: nat)
    requires Usable(v) && Live(v.meta, i)
    ensures 1 <= Par(v.meta, i) <= |v.meta| ==> Readable(v, Par(v.meta, i))
  {
    assert ParentEmpty(v, i) && ChainEnds(v, Par(v.meta, i));
  }

  lemma WalkStep(blocks: seq<Block>, done: seq<nat>, cur: nat, fuel: nat)
    requires Stays(blocks, cur, fuel) && fuel > 0 && cur != 0
    ensures 1 <= cur <= |blocks| && Stays(blocks, blocks[cur - 1].next, fuel - 1)
    ensures done + Walk(blocks, cur, fuel) == done + [cur] + Walk(blocks, blocks[cur - 1].next, fuel - 1)
  {
  }

  // ---- Lists in reverse ----

  function Reversed(s: seq<bytes>): (r: seq<bytes>)
    ensures |r| == |s|
  {
    if s == [] then [] else Reversed(s[1..]) + [s[0]]
  }

  lemma {:induction false} ReversedSnoc(s: seq<bytes>, x: bytes)
    ensures Reversed(s + [x]) == [x] + Reversed(s)
  {
    if s == [] {
      assert s + [x] == [x];
    } else {
      ReversedSnoc(s[1..], x);
      assert (s + [x])[1..] == s[1..] + [x];
      Assoc([x], Reversed(s[1..]), [s[0]]);
    }
  }

  lemma ReversedEmpty(s: seq<bytes>)
    ensures s == [] <==> Reversed(s) == []
  {
  }

  /** The path with these names, last one first: "/" and a name, for each, from the back. */
  method JoinReversed(parts: seq<bytes>) returns (path: bytes)
    ensures path == Join(Reversed(parts))
  {
    path := [];
    var k := |parts|;
    while k > 0
      invariant 0 <= k <= |parts| && path == Join(Reversed(parts[k..]))
    {
      k := k - 1;
      var t := parts[k..];
      assert t[1..] == parts[k + 1..] && t[0] == parts[k];
      JoinConcat(Reversed(parts[k + 1..]), [parts[k]]);
      assert Join([parts[k]]) == ROOT + parts[k];
      path := path + (ROOT + parts[k]);
    }
    assert parts[0..] == parts;
  }

  /** `std::find` and `erase`. */
  method WithoutFirst(s: seq<nat>, x: nat) returns (r: seq<nat>, found: bool)
    ensures found == (x in s) && (found ==> r == RemoveFirst(s, x))
  {
    var k := 0;
    while k < |s| && s[k] != x
      invariant 0 <= k <= |s| && x !in s[..k]
    {
      k := k + 1;
    }
    found := k < |s|;
    r := s;
    if found {
      RemoveFirstAt(s, x, k);
      r := s[..k] + s[k + 1..];
    }
  }

  lemma {:induction false} RemoveFirstAt(s: seq<nat>, x: nat, k: nat)
    requires k < |s| && s[k] == x && x !in s[..k]
    ensures RemoveFirst(s, x) == s[..k] + s[k + 1..]
  {
    if k > 0 {
      assert s[..k][0] == s[0];
      assert s[1..][..k - 1] == s[..k][1..];
      RemoveFirstAt(s[1..], x, k - 1);
      assert s[..k] == [s[0]] + s[1..][..k - 1];
      assert s[1..][k..] == s[k + 1..];
    }
  }

  method ParentPath(tokens: seq<bytes>) returns (path: bytes)
    requires tokens != []
    ensures path == PathOf(tokens[..|tokens| - 1])
  {
    path := ROOT;
    var n := |tokens| - 1;
    if n > 0 {
      path := [];
      for k := 0 to n
        invariant path == Join(tokens[..k])
      {
        JoinConcat(tokens[..k], [tokens[k]]);
        assert tokens[..k + 1] == tokens[..k] + [tokens[k]];
        assert Join([tokens[k]]) == ROOT + tokens[k];
        path := path + (ROOT + tokens[k]);
      }
    }
  }

  /** Storing a file leaves the chain of its parent in order. */
  lemma ParentChain(v: Volume, path: bytes, data: bytes, owner: nat, now: nat)
    requires Usable(v) && Creates(v, path, |data|)
    ensures Readable(StoredFile(v, path, data, owner, now), ParentOf(v, path))
  {
    var i, n, p := NewIndex(v), NeedBlocks(|data|, v.bs), ParentOf(v, path);
    var c := Free(v.used)[..n];
    var s := StoredFile(v, path, data, owner, now);
    assert IndexLive(v, DirOf(path)) && ChainEnds(v, p);
    FreeIsGained(v, i, n);
    StoreFileUntouched(v, s, i, NewFile(v, path, |data|, owner, now).(start := Head(c)), c, data);
    UntouchedChain(v, s, p);
  }

  lemma FreeIsGained(v: Volume, i: nat, n: nat)
    requires |v.used| == |v.blocks| && n <= |Free(v.used)|
    ensures forall k | 0 <= k < n :: Gains(v, i, Free(v.used)[..n][k])
  {
    AllocatedFacts(v, n);
  }

  lemma UntouchedChain(v: Volume, s: Volume, p: nat)
    requires ChainEnds(v, p) && SameDisk(v, s) && Untouched(v, s, p)
    ensures ChainEnds(s, p)
  {
    UntouchedKeeps(v, s, p);
  }

  lemma OverlayIs(prev: bytes, pos: nat, data: bytes, n: nat)
    requires pos <= |prev| && n == if |data| < |prev| - pos then |data| else |prev| - pos
    ensures prev[..pos] + data[..n] + prev[pos + n..] == Overlay(prev, pos, data)
  {
    assert Take(data, |prev| - pos) == data[..n];
  }

  /** Chunk `k` of the data, in the machine's arithmetic on offsets. */
  method ChunkOf(data: bytes, k: nat, pl: nat) returns (chunk: bytes)
    ensures chunk == Chunk(data, k * pl, pl)
  {
    var lo := k * pl;
    if lo >= |data| {
      return [];
    }
    return if lo + pl <= |data| then data[lo..lo + pl] else data[lo..];
  }

  /** One block more of a file. */
  lemma DecodedSnoc(blocks: seq<Block>, c: seq<nat>, enc: Encoding.table, k: nat, pl: nat)
    requires pl > 0 && k < |c| && 1 <= c[k] <= |blocks| && |blocks[c[k] - 1].payload| == pl
    ensures Decoded(blocks, c[..k + 1], enc, pl)
         == Decoded(blocks, c[..k], enc, pl) + Encoding.Decode(enc, blocks[c[k] - 1].payload)
  {
    RawSnoc(blocks, c, k, pl);
  }

  lemma TakeJoin(a: bytes, b: bytes, enc: Encoding.table, size: nat)
    requires |a| < size
    ensures Take(a + Encoding.Decode(enc, b), size) == Take(a, size) + Encoding.Decode(enc, Take(b, size - |a|))
  {
  }

  lemma ReadStep(blocks: seq<Block>, c: seq<nat>, enc: Encoding.table, k: nat, size: nat, pl: nat)
    requires pl > 0 && k < |c| && 1 <= c[k] <= |blocks| && |blocks[c[k] - 1].payload| == pl
    requires |Take(Decoded(blocks, c[..k], enc, pl), size)| < size
    ensures Take(Decoded(blocks, c[..k + 1], enc, pl), size)
         == Take(Decoded(blocks, c[..k], enc, pl), size)
          + Encoding.Decode(enc, Take(blocks[c[k] - 1].payload, size - |Take(Decoded(blocks, c[..k], enc, pl), size)|))
  {
    DecodedSnoc(blocks, c, enc, k, pl);
    TakeJoin(Decoded(blocks, c[..k], enc, pl), blocks[c[k] - 1].payload, enc, size);
  }

  /** More blocks do not change bytes that are there already. */
  lemma ReadEnough(blocks: seq<Block>, c: seq<nat>, enc: Encoding.table, k: nat, size: nat, pl: nat)
    requires pl > 0 && k <= |c|
    requires k == |c| || size <= |Take(Decoded(blocks, c[..k], enc, pl), size)|
    ensures Take(Decoded(blocks, c, enc, pl), size) == Take(Decoded(blocks, c[..k], enc, pl), size)
  {
    if k == |c| {
      assert c[..k] == c;
    } else {
      RawPrefix(blocks, c, k, pl);
      assert Decoded(blocks, c[..k], enc, pl) <= Decoded(blocks, c, enc, pl);
    }
  }

  /** A list depends on the record and the blocks only. */
  lemma SameRecordChain(v: Volume, w: Volume, p: nat)
    requires Live(v.meta, p) && Readable(v, p) && w == v.(meta := w.meta)
    requires p <= |w.meta| && w.meta[p - 1] == v.meta[p - 1]
    ensures Readable(w, p)
  {
  }

  /** `find_last_of`. */
  method FindLastSlash(p: bytes) returns (pos: nat)
    ensures pos == LastSlash(p, |p|)
  {
    var k := |p|;
    while k > 0 && p[k - 1] != SLASH
      invariant 0 <= k <= |p|
      invariant LastSlash(p, |p|) == if LastSlash(p, k) == k then |p| else LastSlash(p, k)
    {
      k := k - 1;
    }
    return if k == 0 then |p| else k - 1;
  }

  lemma ParentKnown(v: Volume, path: bytes, dir: bytes)
    requires path != [] && path[0] == SLASH && Tokens(path) != [] && dir == PathOf(Tokens(path)[..|Tokens(path)| - 1])
    ensures ParentStatus(v, path) == if dir in v.index then Success else NotFound
    ensures dir in v.index ==> ParentOf(v, path) == v.index[dir]
  {
  }

  /** What a rename has found out when it starts to change anything. */
  lemma Located(v: Volume, oldPath: bytes, newPath: bytes, i: nat, now: nat)
    requires oldPath != [] && newPath != [] && oldPath in v.index && i == v.index[oldPath] && Live(v.meta, i)
    requires TargetStatus(v, newPath) == Success && 0 < Par(v.meta, i) <= |v.meta|
    ensures IsDir(v.meta, Target(v, newPath)) && |NewBaseOf(newPath)| <= NAME_MAX
    ensures RenameEntry(v, oldPath, newPath, now) == Relocated(v, i, Target(v, newPath), NewBaseOf(newPath), now)
  {
    RenameGuards(v, oldPath, newPath, now);
  }

  lemma RenamedBlocks(v: Volume, i: nat, d: nat, name: bytes, now: nat)
    requires Usable(v) && Live(v.meta, i)
    ensures LooseBlocks(Renamed(v, i, d, name, now))
    ensures forall j | Live(v.meta, j) :: Live(Renamed(v, i, d, name, now).meta, j)
  {
    RemoveChildBlocks(v, Par(v.meta, i), i);
    RecordBlocks(Unlisted(v, i), i, RenamedRecord(v.meta[i - 1], name, d, now));
  }

  /** What holds when an entry is about to move. */
  lemma RehomeReady(v: Volume, i: nat, np: nat, name: bytes, now: nat)
    requires Usable(v) && Live(v.meta, i) && Live(v.meta, np) && 1 <= Par(v.meta, i) <= |v.meta|
    ensures var op := Par(v.meta, i);
            && Readable(v, op)
            && (RemoveChild(v, op, i).1 ==>
                  Readable(Renamed(v, i, np, name, now), np) && Readable(Renamed(v, i, op, name, now), op))
  {
    var op := Par(v.meta, i);
    ParentReadable(v, i);
    RemoveChildBlocks(v, op, i);
    RenamedBlocks(v, i, np, name, now);
    RenamedBlocks(v, i, op, name, now);
    assert ChainEnds(Renamed(v, i, np, name, now), np) && ChainEnds(Renamed(v, i, op, name, now), op);
  }

  lemma LinksBetween(blocks: seq<Block>, c: seq<nat>)
    requires Links(blocks, c)
    ensures Between(c, 1, |blocks| + 1)
  {
    forall k | 0 <= k < |c| ensures 1 <= c[k] < |blocks| + 1 {
      assert Link(blocks, c, k);
    }
  }

  /** Flags, blocks and record of a new file. */
  lemma StoredIs(v: Volume, used: seq<bool>, blocks: seq<Block>, i: nat, e: MetaEntry, c: seq<nat>, data: bytes)
    requires used == Mark(v.used, |v.used|, c, true) && blocks == Filled(v.blocks, c, v.enc, data, Payload(v.bs))
    ensures var w := SetEntry(v, i, e).(used := used, blocks := blocks);
            BumpNext(SetEntry(w, i, e.(start := Head(c))), i) == StoreFile(v, i, e, c, data)
  {
  }

  /** Flags, blocks and record of a file that has grown. */
  lemma GrownIs(v: Volume, used: seq<bool>, blocks: seq<Block>, i: nat, e: MetaEntry, c: seq<nat>, extra: seq<nat>)
    requires extra != [] && used == Mark(v.used, |v.used|, extra, true)
    requires blocks == Filled(Linked(v.(used := used), c, extra[0]).blocks, extra, v.enc, [], Payload(v.bs))
    ensures BumpNext(SetEntry(v.(used := used, blocks := blocks), i, if c == [] then e.(start := extra[0]) else e), i)
         == Grown(v, i, e, c, extra)
  {
    assert Linked(v.(used := used), c, extra[0]).blocks == Linked(v, c, extra[0]).blocks;
  }
}
