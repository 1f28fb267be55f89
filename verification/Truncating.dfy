/** `file_truncate`: same number of blocks, fewer, none, or more. */
module Truncating {
  import opened Bytes
  import opened Counting
  import opened Bitmap
  import opened Chains
  import opened Tree
  import opened State
  import opened Ops
  import opened Directories
  import opened Layout
  import opened Creating
  import opened FileSteps
  import opened Editing
  import Encoding

  /** The chain of file `i` becomes `c'`, which shares a prefix with the old one, and whose
      further blocks, if any, hold zeros. */
  ghost predicate Resized(v: Volume, w: Volume, i: nat, size: nat, c': seq<nat>) {
    && FileChanged(v, w, i, c') && IsFile(w.meta, i) && SizeOf(w, i) == size
    && (c' <= EntryChain(v, i) || EntryChain(v, i) <= c')
    && forall k | 0 <= k < |c'| :: PayloadKept(v, w, EntryChain(v, i), c', k)
  }

  predicate PayloadKept(v: Volume, w: Volume, c: seq<nat>, c': seq<nat>, k: nat)
    requires k < |c'|
  {
    && 1 <= c'[k] <= |v.blocks| && c'[k] <= |w.blocks|
    && w.blocks[c'[k] - 1].payload
       == if k < |c| then v.blocks[c'[k] - 1].payload else Zeros(Payload(v.bs))
  }

  // ---- The record ----

  function Resize(e: MetaEntry, size: nat, now: nat): MetaEntry {
    e.(size := size, modified := now)
  }

  lemma ResizedRecord(v: Volume, w: Volume, i: nat, e: MetaEntry)
    requires Shape(v) && IsFile(v.meta, i) && SameDisk(v, w) && w.meta == v.meta[i - 1 := e]
    requires TypedEntry(e) && e.valid == 0 && e.kind == 0 && e.parent == v.meta[i - 1].parent
      && e.name == v.meta[i - 1].name
    ensures (forall j :: SameNode(v.meta, w.meta, j)) && (forall j | j != i :: SameRecord(v, w, j))
    ensures forall j | 0 <= j < |w.meta| :: TypedEntry(w.meta[j])
  {
    forall j ensures SameNode(v.meta, w.meta, j) {
    }
    forall j | 0 <= j < |w.meta| ensures TypedEntry(w.meta[j]) {
      assert TypedEntry(v.meta[j]);
    }
  }

  // ---- The same number of blocks ----

  lemma RecordWritten(v: Volume, w: Volume, i: nat)
    requires LooseBlocks(v) && SameDisk(v, w) && w.blocks == v.blocks && forall j | j != i :: SameRecord(v, w, j)
    ensures forall j | j != i :: Untouched(v, w, j)
  {
    forall b ensures WriteOk(v, w, i, b) {
    }
    OthersUntouched(v, w, i);
  }

  lemma SameChain(v: Volume, i: nat, size: nat, now: nat)
    requires Inv(v) && IsFile(v.meta, i) && size < U64 && now < U64
    requires |EntryChain(v, i)| == CeilDiv(size, Payload(v.bs))
    ensures FileChanged(v, SetEntry(v, i, Resize(v.meta[i - 1], size, now)), i, EntryChain(v, i))
  {
    var w := SetEntry(v, i, Resize(v.meta[i - 1], size, now));
    assert TypedEntry(v.meta[i - 1]);
    ResizedRecord(v, w, i, Resize(v.meta[i - 1], size, now));
    RecordWritten(v, w, i);
    OwnGains(v, i);
    OwnFlagsKept(v, w, i);
    assert ChainOk(v, i);
  }

  lemma SameCount(v: Volume, i: nat, size: nat, now: nat)
    requires Inv(v) && IsFile(v.meta, i) && size < U64 && now < U64
    requires |EntryChain(v, i)| == CeilDiv(size, Payload(v.bs))
    ensures Resized(v, SetEntry(v, i, Resize(v.meta[i - 1], size, now)), i, size, EntryChain(v, i))
  {
    var w, c := SetEntry(v, i, Resize(v.meta[i - 1], size, now)), EntryChain(v, i);
    SameChain(v, i, size, now);
    KeptPayloads(v, w, i, c, c);
  }

  lemma KeptPayloads(v: Volume, w: Volume, i: nat, c: seq<nat>, c': seq<nat>)
    requires LooseBlocks(v) && |v.used| == |v.blocks| && c == EntryChain(v, i) && c' <= c && |w.blocks| == |v.blocks|
    requires forall b | 0 <= b < |v.blocks| :: w.blocks[b].payload == v.blocks[b].payload
    ensures forall k | 0 <= k < |c'| :: PayloadKept(v, w, c, c', k)
  {
    OwnGains(v, i);
    forall k | 0 <= k < |c'| ensures PayloadKept(v, w, c, c', k) {
      assert Gains(v, i, c[k]);
    }
  }

  // ---- Fewer blocks ----

  /** The fields of a shrunk file. */
  lemma ShrunkFields(v: Volume, i: nat, e: MetaEntry, c: seq<nat>, r: nat)
    requires IsFile(v.meta, i) && r < |c| && (r > 0 ==> 1 <= c[r - 1] <= |v.blocks|)
    ensures var w := Shrunk(v, i, e, c, r);
            && SameDisk(v, w) && w.index == v.index && w.next == v.next
            && w.meta == v.meta[i - 1 := if r == 0 then e.(start := 0) else e]
            && w.used == Mark(v.used, |v.used|, c[r..], false)
            && w.blocks == (if r == 0 then v.blocks else v.blocks[c[r - 1] - 1 := v.blocks[c[r - 1] - 1].(next := 0)])
  {
    assert c[0..] == c;
  }

  lemma ShrunkFlags(v: Volume, w: Volume, i: nat, c: seq<nat>, r: nat)
    requires BlockInv(v) && |v.used| == |v.blocks| == |w.used| && c == EntryChain(v, i) && r < |c| && Distinct(c)
    requires w.used == Mark(v.used, |v.used|, c[r..], false)
    ensures forall b | 1 <= b <= |v.blocks| :: FlagMoved(v, w, i, c[..r], b)
  {
    assert c == c[..r] + c[r..];
    forall b | 1 <= b <= |v.blocks| ensures FlagMoved(v, w, i, c[..r], b) {
      assert FlagOk(v, b);
      assert b in c <==> b in c[..r] || b in c[r..];
      if b in c[..r] {
        var x :| 0 <= x < r && c[..r][x] == b;
        assert Owns(v, i, b);
        forall y | 0 <= y < |c[r..]| ensures c[r..][y] != b {
          assert c[r..][y] == c[r + y] && c[x] == b;
        }
      }
    }
  }

  lemma ShrunkLinks(v: Volume, w: Volume, c: seq<nat>, r: nat)
    requires Links(v.blocks, c) && Distinct(c) && 0 < r < |c| && 1 <= c[r - 1] <= |v.blocks|
    requires w.blocks == v.blocks[c[r - 1] - 1 := v.blocks[c[r - 1] - 1].(next := 0)]
    ensures Links(w.blocks, c[..r])
  {
    forall k | 0 <= k < r ensures Link(w.blocks, c[..r], k) {
      assert Link(v.blocks, c, k);
      assert k < r - 1 ==> c[k] != c[r - 1];
    }
  }

  lemma ShrunkShape(v: Volume, i: nat, e: MetaEntry, c: seq<nat>, r: nat)
    requires Shape(v) && IsFile(v.meta, i) && r < |c| && (r > 0 ==> 1 <= c[r - 1] <= |v.blocks|) && TypedEntry(e)
    ensures Shape(Shrunk(v, i, e, c, r))
  {
    var w := Shrunk(v, i, e, c, r);
    ShrunkFields(v, i, e, c, r);
    forall x | 0 <= x < |w.blocks| ensures TypedBlock(w.blocks[x], w.bs) {
      assert TypedBlock(v.blocks[x], v.bs);
    }
    forall x | 0 <= x < |w.meta| ensures TypedEntry(w.meta[x]) {
      assert TypedEntry(v.meta[x]);
    }
  }

  lemma ShrunkOthers(v: Volume, w: Volume, i: nat, c: seq<nat>, r: nat)
    requires LooseBlocks(v) && |v.used| == |v.blocks| && c == EntryChain(v, i) && r < |c| && SameDisk(v, w)
    requires r > 0 ==> 1 <= c[r - 1] <= |v.blocks|
    requires w.blocks == (if r == 0 then v.blocks else v.blocks[c[r - 1] - 1 := v.blocks[c[r - 1] - 1].(next := 0)])
    requires forall j | j != i :: SameRecord(v, w, j)
    ensures forall j | j != i :: Untouched(v, w, j)
  {
    OwnGains(v, i);
    forall b ensures WriteOk(v, w, i, b) {
    }
    OthersUntouched(v, w, i);
  }

  /** The record and the other entries of a shrunk file. */
  lemma FewerRecord(v: Volume, i: nat, size: nat, now: nat, r: nat)
    requires Inv(v) && IsFile(v.meta, i) && size < U64 && now < U64 && r < |EntryChain(v, i)|
    ensures r > 0 ==> Gains(v, i, EntryChain(v, i)[r - 1])
    ensures var w := Shrunk(v, i, Resize(v.meta[i - 1], size, now), EntryChain(v, i), r);
            && Shape(w) && (forall j :: SameNode(v.meta, w.meta, j)) && (forall j | j != i :: Untouched(v, w, j))
  {
    var c, e := EntryChain(v, i), Resize(v.meta[i - 1], size, now);
    var w := Shrunk(v, i, e, c, r);
    assert TypedEntry(v.meta[i - 1]);
    OwnGains(v, i);
    assert r > 0 ==> Gains(v, i, c[r - 1]);
    ShrunkFields(v, i, e, c, r);
    ShrunkShape(v, i, e, c, r);
    ResizedRecord(v, w, i, if r == 0 then e.(start := 0) else e);
    ShrunkOthers(v, w, i, c, r);
  }

  /** Its chain. */
  lemma FewerChain(v: Volume, i: nat, e: MetaEntry, r: nat)
    requires Shape(v) && BlockInv(v) && IsFile(v.meta, i) && r < |EntryChain(v, i)|
    requires e.valid == 0 && e.kind == 0 && e.start == v.meta[i - 1].start
    requires r == CeilDiv(e.size, Payload(v.bs)) && (r > 0 ==> Gains(v, i, EntryChain(v, i)[r - 1]))
    ensures var c, w := EntryChain(v, i), Shrunk(v, i, e, EntryChain(v, i), r);
            && IsChain(w.blocks, w.meta[i - 1].start, c[..r]) && r == Need(w.meta[i - 1], w.bs) && Live(w.meta, i)
            && (forall k | 0 <= k < r :: Gains(v, i, c[..r][k]))
            && (forall b | 1 <= b <= |v.blocks| :: FlagMoved(v, w, i, c[..r], b))
  {
    var c, w := EntryChain(v, i), Shrunk(v, i, e, EntryChain(v, i), r);
    assert ChainOk(v, i);
    ChainIsShort(v.blocks, c);
    OwnGains(v, i);
    ShrunkFields(v, i, e, c, r);
    ShrunkFlags(v, w, i, c, r);
    forall k | 0 <= k < r ensures Gains(v, i, c[..r][k]) {
      assert Gains(v, i, c[k]);
    }
    if r > 0 {
      ShrunkLinks(v, w, c, r);
    }
  }

  lemma FewerLinks(v: Volume, i: nat, size: nat, now: nat, r: nat)
    requires Inv(v) && IsFile(v.meta, i) && size < U64 && now < U64
    requires r == CeilDiv(size, Payload(v.bs)) && r < |EntryChain(v, i)|
    ensures FileChanged(v, Shrunk(v, i, Resize(v.meta[i - 1], size, now), EntryChain(v, i), r), i,
      EntryChain(v, i)[..r])
  {
    var c, e := EntryChain(v, i), Resize(v.meta[i - 1], size, now);
    FewerRecord(v, i, size, now, r);
    FewerChain(v, i, e, r);
    ShrunkFields(v, i, e, c, r);
  }

  lemma Fewer(v: Volume, i: nat, size: nat, now: nat, r: nat)
    requires Inv(v) && IsFile(v.meta, i) && size < U64 && now < U64
    requires r == CeilDiv(size, Payload(v.bs)) && r < |EntryChain(v, i)|
    ensures Resized(v, Shrunk(v, i, Resize(v.meta[i - 1], size, now), EntryChain(v, i), r), i, size,
      EntryChain(v, i)[..r])
  {
    var c, e := EntryChain(v, i), Resize(v.meta[i - 1], size, now);
    var w := Shrunk(v, i, e, c, r);
    FewerLinks(v, i, size, now, r);
    FewerRecord(v, i, size, now, r);
    ShrunkFields(v, i, e, c, r);
    KeptPayloads(v, w, i, c, c[..r]);
  }

  // ---- More blocks ----

  lemma GrownFields(v: Volume, i: nat, e: MetaEntry, c: seq<nat>, extra: seq<nat>)
    requires IsFile(v.meta, i) && extra != []
    ensures var w := Grown(v, i, e, c, extra);
            && SameDisk(v, w) && w.index == v.index && (w.next == v.next || w.next == i + 1)
            && w.meta == v.meta[i - 1 := if c == [] then e.(start := extra[0]) else e]
            && w.used == Mark(v.used, |v.used|, extra, true)
            && w.blocks == Filled(Linked(v, c, extra[0]).blocks, extra, v.enc, [], Payload(v.bs))
  {
  }

  /** `extra` are free blocks. */
  ghost predicate Spare(v: Volume, extra: seq<nat>) {
    && extra != [] && Distinct(extra) && Between(extra, 1, |v.blocks| + 1) && |v.used| == |v.blocks|
    && forall k | 0 <= k < |extra| :: !v.used[extra[k] - 1]
  }

  lemma SpareIsForeign(v: Volume, i: nat, extra: seq<nat>)
    requires LooseBlocks(v) && Spare(v, extra)
    ensures forall k | 0 <= k < |EntryChain(v, i)| :: EntryChain(v, i)[k] !in extra
  {
    var c := EntryChain(v, i);
    OwnGains(v, i);
    forall k | 0 <= k < |c| ensures c[k] !in extra {
      assert Gains(v, i, c[k]) && OwnedUsed(v, i, c[k]) && c[k] in c;
    }
  }

  lemma ZeroBlock(c: seq<nat>, k: nat, enc: Encoding.table, pl: nat)
    ensures DataBlock(c, k, enc, [], pl) == Block(At(c, k + 1), Zeros(pl))
  {
    assert Chunk([], k * pl, pl) == [];
    assert Encoding.Encode(enc, []) == [];
  }

  lemma GrownOld(v: Volume, w: Volume, c: seq<nat>, extra: seq<nat>, k: nat)
    requires Links(v.blocks, c) && Distinct(c) && k < |c| && c[k] !in extra && extra != []
    requires w.blocks == Filled(Linked(v, c, extra[0]).blocks, extra, v.enc, [], Payload(v.bs))
    ensures Link(w.blocks, c + extra, k)
    ensures 1 <= c[k] <= |v.blocks| && w.blocks[c[k] - 1].payload == v.blocks[c[k] - 1].payload
  {
    assert Link(v.blocks, c, k);
    assert Link(v.blocks, c, |c| - 1);
    FilledElsewhere(Linked(v, c, extra[0]).blocks, extra, v.enc, [], Payload(v.bs), c[k]);
    assert k < |c| - 1 ==> c[k] != Last(c);
  }

  lemma GrownNew(v: Volume, w: Volume, c: seq<nat>, extra: seq<nat>, k: nat)
    requires Spare(v, extra) && k < |extra|
    requires w.blocks == Filled(Linked(v, c, extra[0]).blocks, extra, v.enc, [], Payload(v.bs))
    ensures Link(w.blocks, c + extra, |c| + k)
    ensures w.blocks[extra[k] - 1].payload == Zeros(Payload(v.bs))
  {
    FilledAt(Linked(v, c, extra[0]).blocks, extra, v.enc, [], Payload(v.bs), k);
    ZeroBlock(extra, k, v.enc, Payload(v.bs));
    assert (c + extra)[|c| + k] == extra[k];
  }

  lemma GrownLinks(v: Volume, w: Volume, c: seq<nat>, extra: seq<nat>)
    requires Links(v.blocks, c) && Distinct(c) && Spare(v, extra) && forall k | 0 <= k < |c| :: c[k] !in extra
    requires w.blocks == Filled(Linked(v, c, extra[0]).blocks, extra, v.enc, [], Payload(v.bs))
    ensures Links(w.blocks, c + extra)
    ensures forall k | 0 <= k < |c + extra| :: PayloadKept(v, w, c, c + extra, k)
  {
    forall k | 0 <= k < |c + extra| ensures Link(w.blocks, c + extra, k) && PayloadKept(v, w, c, c + extra, k) {
      if k < |c| {
        GrownOld(v, w, c, extra, k);
      } else {
        GrownNew(v, w, c, extra, k - |c|);
      }
    }
  }

  lemma GrownWrites(v: Volume, w: Volume, i: nat, extra: seq<nat>, b: nat)
    requires LooseBlocks(v) && Spare(v, extra)
    requires w.blocks == Filled(Linked(v, EntryChain(v, i), extra[0]).blocks, extra, v.enc, [], Payload(v.bs))
    ensures WriteOk(v, w, i, b)
  {
    if 1 <= b <= |v.blocks| {
      if b in extra {
        var k :| 0 <= k < |extra| && extra[k] == b;
      } else {
        var c := EntryChain(v, i);
        FilledElsewhere(Linked(v, c, extra[0]).blocks, extra, v.enc, [], Payload(v.bs), b);
        OwnGains(v, i);
        assert c != [] ==> Gains(v, i, c[|c| - 1]);
      }
    }
  }

  lemma GrownShape(v: Volume, i: nat, e: MetaEntry, c: seq<nat>, extra: seq<nat>)
    requires Shape(v) && IsFile(v.meta, i) && Spare(v, extra) && TypedEntry(e)
    ensures Shape(Grown(v, i, e, c, extra))
  {
    var w := Grown(v, i, e, c, extra);
    var linked := Linked(v, c, extra[0]).blocks;
    GrownFields(v, i, e, c, extra);
    forall x | 0 <= x < |w.blocks| ensures TypedBlock(w.blocks[x], w.bs) {
      assert TypedBlock(v.blocks[x], v.bs);
      assert TypedBlock(linked[x], v.bs);
      FilledTyped(linked, extra, v.enc, [], v.bs, x + 1);
    }
    forall x | 0 <= x < |w.meta| ensures TypedEntry(w.meta[x]) {
      assert TypedEntry(v.meta[x]);
    }
  }

  lemma GrownFlags(v: Volume, w: Volume, i: nat, extra: seq<nat>)
    requires BlockInv(v) && Spare(v, extra) && |w.used| == |v.used|
    requires w.used == Mark(v.used, |v.used|, extra, true)
    ensures forall b | 1 <= b <= |v.blocks| :: FlagMoved(v, w, i, EntryChain(v, i) + extra, b)
  {
    var c := EntryChain(v, i);
    forall b | 1 <= b <= |v.blocks| ensures FlagMoved(v, w, i, c + extra, b) {
      assert FlagOk(v, b);
      assert b in c + extra <==> b in c || b in extra;
      if b in c {
        assert Owns(v, i, b);
      }
    }
  }

  lemma GrownOthers(v: Volume, w: Volume, i: nat, extra: seq<nat>)
    requires LooseBlocks(v) && Spare(v, extra) && SameDisk(v, w)
    requires w.blocks == Filled(Linked(v, EntryChain(v, i), extra[0]).blocks, extra, v.enc, [], Payload(v.bs))
    requires forall j | j != i :: SameRecord(v, w, j)
    ensures forall j | j != i :: Untouched(v, w, j)
  {
    forall b ensures WriteOk(v, w, i, b) {
      GrownWrites(v, w, i, extra, b);
    }
    OthersUntouched(v, w, i);
  }

  lemma GrownGains(v: Volume, i: nat, extra: seq<nat>)
    requires LooseBlocks(v) && Spare(v, extra)
    ensures forall k | 0 <= k < |EntryChain(v, i) + extra| :: Gains(v, i, (EntryChain(v, i) + extra)[k])
  {
    var c := EntryChain(v, i);
    OwnGains(v, i);
    forall k | 0 <= k < |c + extra| ensures Gains(v, i, (c + extra)[k]) {
      if k < |c| {
        assert Gains(v, i, c[k]);
      } else {
        assert (c + extra)[k] == extra[k - |c|];
      }
    }
  }

  lemma GrownRechains(v: Volume, w: Volume, i: nat, extra: seq<nat>)
    requires BlockInv(v) && Spare(v, extra) && SameDisk(v, w) && Live(v.meta, i) && Live(w.meta, i)
    requires w.blocks == Filled(Linked(v, EntryChain(v, i), extra[0]).blocks, extra, v.enc, [], Payload(v.bs))
    requires w.used == Mark(v.used, |v.used|, extra, true)
    requires w.meta[i - 1].start == Head(EntryChain(v, i) + extra)
    requires |EntryChain(v, i) + extra| == Need(w.meta[i - 1], w.bs)
    requires forall j | j != i :: SameRecord(v, w, j)
    ensures Rechained(v, w, i, EntryChain(v, i) + extra)
    ensures forall k | 0 <= k < |EntryChain(v, i) + extra| ::
      PayloadKept(v, w, EntryChain(v, i), EntryChain(v, i) + extra, k)
  {
    var c := EntryChain(v, i);
    assert ChainOk(v, i);
    ChainIsShort(v.blocks, c);
    GrownOthers(v, w, i, extra);
    SpareIsForeign(v, i, extra);
    GrownLinks(v, w, c, extra);
    GrownFlags(v, w, i, extra);
    GrownGains(v, i, extra);
  }

  lemma More(v: Volume, i: nat, size: nat, now: nat, extra: seq<nat>)
    requires Inv(v) && IsFile(v.meta, i) && size < U64 && now < U64 && Spare(v, extra)
    requires |EntryChain(v, i)| + |extra| == CeilDiv(size, Payload(v.bs))
    ensures Resized(v, Grown(v, i, Resize(v.meta[i - 1], size, now), EntryChain(v, i), extra), i, size,
      EntryChain(v, i) + extra)
  {
    var c, e := EntryChain(v, i), Resize(v.meta[i - 1], size, now);
    var w := Grown(v, i, e, c, extra);
    assert TypedEntry(v.meta[i - 1]) && ChainOk(v, i);
    GrownFields(v, i, e, c, extra);
    GrownShape(v, i, e, c, extra);
    ResizedRecord(v, w, i, if c == [] then e.(start := extra[0]) else e);
    GrownRechains(v, w, i, extra);
  }

  // ---- The operation ----

  /** `file_truncate` resizes when it does not run out of blocks. */
  predicate Truncatable(v: Volume, path: bytes, newSize: nat) {
    && path in v.index && IsFile(v.meta, v.index[path])
    && NeedBlocks(newSize, v.bs) <= |EntryChain(v, v.index[path])| + |Free(v.used)|
  }

  /** The chain after truncation: a prefix of the old one, or the old one and the lowest free blocks. */
  function ChainAfter(v: Volume, i: nat, n: nat): seq<nat> {
    var c := EntryChain(v, i);
    if n <= |c| then c[..n] else c + Take(Free(v.used), n - |c|)
  }

  lemma TruncateGuards(v: Volume, path: bytes, newSize: nat, now: nat)
    ensures TruncateFile(v, path, newSize, now).1 == Success <==> Truncatable(v, path, newSize)
    ensures !Truncatable(v, path, newSize) ==> TruncateFile(v, path, newSize, now).0 == v
  {
  }

  lemma FreeIsSpare(v: Volume, n: nat)
    requires Shape(v) && 0 < n <= |Free(v.used)|
    ensures Spare(v, Free(v.used)[..n])
  {
    AllocatedFacts(v, n);
  }

  lemma TruncatedResizes(v: Volume, i: nat, size: nat, now: nat, n: nat)
    requires Inv(v) && IsFile(v.meta, i) && size < U64 && now < U64
    requires n == CeilDiv(size, Payload(v.bs)) <= |EntryChain(v, i)| + |Free(v.used)|
    ensures Resized(v, ResizedTo(v, i, Resize(v.meta[i - 1], size, now), EntryChain(v, i), n).0, i, size,
      ChainAfter(v, i, n))
  {
    var c := EntryChain(v, i);
    if n == |c| {
      SameCount(v, i, size, now);
      assert c[..n] == c;
    } else if n < |c| {
      Fewer(v, i, size, now, n);
    } else {
      FreeIsSpare(v, n - |c|);
      More(v, i, size, now, Free(v.used)[..n - |c|]);
    }
  }

  lemma TruncateIs(v: Volume, path: bytes, newSize: nat, now: nat)
    requires Truncatable(v, path, newSize)
    ensures var i := v.index[path];
            TruncateFile(v, path, newSize, now)
              == ResizedTo(v, i, Resize(v.meta[i - 1], newSize, now), EntryChain(v, i), NeedBlocks(newSize, v.bs))
  {
  }

  lemma TruncateResizes(v: Volume, path: bytes, newSize: nat, now: nat)
    requires Inv(v) && newSize < U64 && now < U64 && Truncatable(v, path, newSize)
    requires CeilDiv(newSize, Payload(v.bs)) < U32
    ensures var i := v.index[path];
            Resized(v, TruncateFile(v, path, newSize, now).0, i, newSize,
              ChainAfter(v, i, CeilDiv(newSize, Payload(v.bs))))
  {
    TruncateIs(v, path, newSize, now);
    NeedExact(newSize, v.bs);
    TruncatedResizes(v, v.index[path], newSize, now, NeedBlocks(newSize, v.bs));
  }

  lemma TruncatedSize(v: Volume, path: bytes, newSize: nat, now: nat)
    requires Truncatable(v, path, newSize)
    ensures var w := TruncateFile(v, path, newSize, now).0;
            IsFile(w.meta, v.index[path]) && SizeOf(w, v.index[path]) == newSize && w.bs == v.bs
  {
  }

  /** A failed `file_truncate` changes nothing; a successful one keeps the invariant exactly
      when the new block count fits in 32 bits. */
  lemma TruncateKeepsIff(v: Volume, path: bytes, newSize: nat, now: nat)
    requires Inv(v) && newSize < U64 && now < U64
    ensures var (w, st) := TruncateFile(v, path, newSize, now);
            if st == Success then Inv(w) <==> CeilDiv(newSize, Payload(v.bs)) < U32 else w == v
  {
    TruncateGuards(v, path, newSize, now);
    if Truncatable(v, path, newSize) {
      var w, i := TruncateFile(v, path, newSize, now).0, v.index[path];
      if CeilDiv(newSize, Payload(v.bs)) < U32 {
        TruncateResizes(v, path, newSize, now);
        FileChangedInv(v, w, i, ChainAfter(v, i, CeilDiv(newSize, Payload(v.bs))));
      }
      TruncatedSize(v, path, newSize, now);
      if Inv(w) {
        assert ChainOk(w, i);
        ChainIsShort(w.blocks, EntryChain(w, i));
      }
    }
  }

  /** Afterwards the flags that are set are those of the new chain and of all other entries:
      freed blocks are exactly the dropped end of the chain, taken ones the lowest free blocks. */
  lemma TruncateFlags(v: Volume, path: bytes, newSize: nat, now: nat)
    requires Inv(v) && newSize < U64 && now < U64 && Truncatable(v, path, newSize)
    requires CeilDiv(newSize, Payload(v.bs)) < U32
    ensures var w, i := TruncateFile(v, path, newSize, now).0, v.index[path];
            && EntryChain(w, i) == ChainAfter(v, i, CeilDiv(newSize, Payload(v.bs)))
            && |w.used| == |v.used|
            && forall b | 1 <= b <= |v.used| :: w.used[b - 1] ==
                 (b in EntryChain(w, i) || (v.used[b - 1] && b !in EntryChain(v, i)))
  {
    var w, i, n := TruncateFile(v, path, newSize, now).0, v.index[path], CeilDiv(newSize, Payload(v.bs));
    TruncateResizes(v, path, newSize, now);
    FileChangedInv(v, w, i, ChainAfter(v, i, n));
    forall b | 1 <= b <= |v.used|
      ensures w.used[b - 1] == (b in EntryChain(w, i) || (v.used[b - 1] && b !in EntryChain(v, i)))
    {
      assert FlagMoved(v, w, i, EntryChain(w, i), b);
    }
  }

  // ---- The bytes ----

  lemma KeptByte(v: Volume, w: Volume, i: nat, size: nat, c': seq<nat>, k: nat, o: nat)
    requires Resized(v, w, i, size, c') && k < |c'| && o < Payload(v.bs)
    ensures ByteAt(w.blocks, c'[k], o)
         == if k < |EntryChain(v, i)| then ByteAt(v.blocks, EntryChain(v, i)[k], o) else 0
  {
    assert PayloadKept(v, w, EntryChain(v, i), c', k);
    if k < |EntryChain(v, i)| {
      assert c'[k] == EntryChain(v, i)[k];
    }
  }

  /** The bytes of a file resized to `n` bytes of blocks: what it had, then raw zeros as
      they decode. */
  function ResizedBytes(enc: Encoding.table, prev: bytes, n: nat): (r: bytes)
    ensures |r| == n
  {
    if n <= |prev| then prev[..n] else prev + Encoding.Decode(enc, Zeros(n - |prev|))
  }

  lemma ResizedByteAt(v: Volume, w: Volume, i: nat, size: nat, c': seq<nat>, pl: nat, x: nat)
    requires Resized(v, w, i, size, c') && pl == Payload(v.bs) && x < |c'| * pl
    ensures Raw(w.blocks, c', pl)[x]
         == if x < |EntryChain(v, i)| * pl then Raw(v.blocks, EntryChain(v, i), pl)[x] else 0
  {
    var c := EntryChain(v, i);
    QuotRem(x, pl);
    QuotBelow(x, |c'|, pl);
    KeptByte(v, w, i, size, c', Quot(x, pl), Rem(x, pl));
    if x < |c| * pl {
      QuotBelow(x, |c|, pl);
    } else {
      MulStep(Quot(x, pl), |c|, pl);
    }
  }

  lemma ResizedCapacity(v: Volume, w: Volume, i: nat, size: nat, c': seq<nat>, pl: nat, n: nat)
    requires pl == Payload(v.bs) && n == |c'| * pl && Resized(v, w, i, size, c') && EntryChain(w, i) == c'
    ensures Capacity(w, i) == ResizedBytes(v.enc, Capacity(v, i), n)
  {
    var r := ResizedBytes(v.enc, Capacity(v, i), n);
    forall x | 0 <= x < |r| ensures Capacity(w, i)[x] == r[x] {
      ResizedByteAt(v, w, i, size, c', pl, x);
    }
  }

  /** The node of a resized file. */
  function ResizedNode(v: Volume, i: nat, newSize: nat): Node {
    File(ResizedBytes(v.enc, Capacity(v, i), CeilDiv(newSize, Payload(v.bs)) * Payload(v.bs)), newSize)
  }

  /** A sound `file_truncate`: the new chain has exactly the blocks that the new size needs and
      shares a prefix with the old one; the bytes that both chains hold are kept and new blocks
      are raw zeros; every other node stays. */
  lemma TruncateRefines(v: Volume, path: bytes, newSize: nat, now: nat)
    requires Inv(v) && newSize < U64 && now < U64 && Truncatable(v, path, newSize)
    requires CeilDiv(newSize, Payload(v.bs)) < U32
    ensures var w, i, n := TruncateFile(v, path, newSize, now).0, v.index[path], CeilDiv(newSize, Payload(v.bs));
            && EntryChain(w, i) == ChainAfter(v, i, n) && |EntryChain(w, i)| == n
            && Abs(w) == Abs(v)[path := ResizedNode(v, i, newSize)]
  {
    var w, i, n := TruncateFile(v, path, newSize, now).0, v.index[path], CeilDiv(newSize, Payload(v.bs));
    var c' := ChainAfter(v, i, n);
    NeedExact(newSize, v.bs);
    TruncateResizes(v, path, newSize, now);
    FileChangedInv(v, w, i, c');
    FileChangedAbs(v, w, i, c');
    IndexedPath(v, path);
    ResizedCapacity(v, w, i, newSize, c', Payload(v.bs), n * Payload(v.bs));
  }

  /** The first min(old, new) visible bytes of a truncated file are the old ones. */
  lemma TruncateKeepsVisible(v: Volume, path: bytes, newSize: nat, now: nat)
    requires Inv(v) && newSize < U64 && now < U64 && Truncatable(v, path, newSize)
    requires CeilDiv(newSize, Payload(v.bs)) < U32
    ensures var w, i := TruncateFile(v, path, newSize, now).0, v.index[path];
            && |Visible(w, i)| == newSize && |Visible(v, i)| == SizeOf(v, i)
            && (if newSize <= SizeOf(v, i) then Visible(w, i) == Visible(v, i)[..newSize]
              else Visible(v, i) <= Visible(w, i))
  {
    var w, i, n := TruncateFile(v, path, newSize, now).0, v.index[path], CeilDiv(newSize, Payload(v.bs));
    IndexedPath(v, path);
    assert ChainOk(v, i);
    TruncateRefines(v, path, newSize, now);
    TruncatedSize(v, path, newSize, now);
    CeilDivBounds(newSize, Payload(v.bs));
    CeilDivBounds(SizeOf(v, i), Payload(v.bs));
    TruncateResizes(v, path, newSize, now);
    ResizedCapacity(v, w, i, newSize, ChainAfter(v, i, n), Payload(v.bs), n * Payload(v.bs));
  }
}
