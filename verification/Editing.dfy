/** `file_edit`: an exact overlay of bytes, and nothing else. */
module Editing {
  import opened Bytes
  import opened Counting
  import opened Chains
  import opened Tree
  import opened State
  import opened Ops
  import opened Directories
  import opened FileSteps
  import Encoding

  /** The conditions that `file_edit` checks. */
  predicate Editable(v: Volume, path: bytes, index: nat) {
    && path in v.index && IsFile(v.meta, v.index[path])
    && index <= SizeOf(v, v.index[path])
    && Quot(index, Payload(v.bs)) < |EntryChain(v, v.index[path])|
  }

  lemma EditIs(v: Volume, path: bytes, data: bytes, index: nat, now: nat)
    ensures EditFile(v, path, data, index, now).1 == Success <==> Editable(v, path, index)
    ensures !Editable(v, path, index) ==> EditFile(v, path, data, index, now).0 == v
    ensures Editable(v, path, index) ==>
      EditFile(v, path, data, index, now).0
        == Edited(v, v.index[path], Quot(index, Payload(v.bs)), Rem(index, Payload(v.bs)), data, now)
  {
  }

  lemma EditedBlockOf(v: Volume, i: nat, k: nat, pos: nat, data: bytes, now: nat)
    requires Shape(v) && LooseBlocks(v) && Live(v.meta, i) && k < |EntryChain(v, i)|
    ensures var w, b := Edited(v, i, k, pos, data, now), EntryChain(v, i)[k];
            && 1 <= b <= |v.blocks| && |v.blocks[b - 1].payload| == Payload(v.bs) && Owns(v, i, b)
            && w == v.(meta := v.meta[i - 1 := v.meta[i - 1].(modified := now)],
                       blocks := v.blocks[b - 1 := EditedBlock(v.blocks[b - 1], v.enc, pos, data)])
  {
    assert ChainEnds(v, i);
    assert Link(v.blocks, EntryChain(v, i), k);
    assert TypedBlock(v.blocks[EntryChain(v, i)[k] - 1], v.bs);
  }

  lemma EditedShape(v: Volume, i: nat, k: nat, pos: nat, data: bytes, now: nat)
    requires Shape(v) && LooseBlocks(v) && Live(v.meta, i) && k < |EntryChain(v, i)| && now < U64
    ensures Shape(Edited(v, i, k, pos, data, now))
  {
    var w := Edited(v, i, k, pos, data, now);
    EditedBlockOf(v, i, k, pos, data, now);
    forall x | 0 <= x < |w.blocks| ensures TypedBlock(w.blocks[x], w.bs) {
      assert TypedBlock(v.blocks[x], v.bs);
    }
    forall x | 0 <= x < |w.meta| ensures TypedEntry(w.meta[x]) {
      assert TypedEntry(v.meta[x]);
    }
  }

  lemma EditedLinks(v: Volume, w: Volume, c: seq<nat>)
    requires Links(v.blocks, c) && |w.blocks| == |v.blocks|
    requires forall x | 0 <= x < |v.blocks| :: w.blocks[x].next == v.blocks[x].next
    ensures Links(w.blocks, c)
  {
    forall k | 0 <= k < |c| ensures Link(w.blocks, c, k) {
      assert Link(v.blocks, c, k);
    }
  }

  lemma OwnGains(v: Volume, i: nat)
    requires LooseBlocks(v) && |v.used| == |v.blocks|
    ensures forall x | 0 <= x < |EntryChain(v, i)| :: Gains(v, i, EntryChain(v, i)[x])
  {
    var c := EntryChain(v, i);
    assert ChainEnds(v, i);
    forall x | 0 <= x < |c| ensures Gains(v, i, c[x]) {
      assert Link(v.blocks, c, x) && c[x] in c;
    }
  }

  /** Writes to one record and to one of its blocks. */
  lemma OwnBlockWritten(v: Volume, w: Volume, i: nat, b: nat)
    requires LooseBlocks(v) && SameDisk(v, w) && Owns(v, i, b) && 1 <= b <= |v.blocks| == |v.used|
    requires forall j | 0 <= j < |v.meta| && j != i - 1 :: w.meta[j] == v.meta[j]
    requires forall x | 0 <= x < |v.blocks| && x != b - 1 :: w.blocks[x] == v.blocks[x]
    ensures forall j | j != i :: Untouched(v, w, j)
  {
    forall j | j != i ensures SameRecord(v, w, j) {
    }
    forall x ensures WriteOk(v, w, i, x) {
    }
    OthersUntouched(v, w, i);
  }

  lemma EditedOthers(v: Volume, i: nat, k: nat, pos: nat, data: bytes, now: nat)
    requires Shape(v) && LooseBlocks(v) && Live(v.meta, i) && k < |EntryChain(v, i)|
    ensures forall j | j != i :: Untouched(v, Edited(v, i, k, pos, data, now), j)
  {
    EditedBlockOf(v, i, k, pos, data, now);
    OwnBlockWritten(v, Edited(v, i, k, pos, data, now), i, EntryChain(v, i)[k]);
  }

  lemma EditedChanges(v: Volume, i: nat, k: nat, pos: nat, data: bytes, now: nat)
    requires Inv(v) && IsFile(v.meta, i) && k < |EntryChain(v, i)| && now < U64
    ensures FileChanged(v, Edited(v, i, k, pos, data, now), i, EntryChain(v, i))
  {
    var w, c := Edited(v, i, k, pos, data, now), EntryChain(v, i);
    EditedBlockOf(v, i, k, pos, data, now);
    EditedShape(v, i, k, pos, data, now);
    EditedOthers(v, i, k, pos, data, now);
    OwnGains(v, i);
    assert ChainOk(v, i);
    forall j ensures SameNode(v.meta, w.meta, j) {
    }
    EditedLinks(v, w, c);
    OwnFlagsKept(v, w, i);
  }

  /** Flags that stay as they are fit a chain that stays as it is. */
  lemma OwnFlagsKept(v: Volume, w: Volume, i: nat)
    requires BlockInv(v) && |v.used| == |v.blocks| && w.used == v.used
    ensures forall b | 1 <= b <= |v.blocks| :: FlagMoved(v, w, i, EntryChain(v, i), b)
  {
    forall b | 1 <= b <= |v.blocks| ensures FlagMoved(v, w, i, EntryChain(v, i), b) {
      assert FlagOk(v, b);
      if b in EntryChain(v, i) {
        assert Owns(v, i, b);
      }
    }
  }

  // ---- The bytes ----

  lemma OverlayAt(prev: bytes, pos: nat, data: bytes, x: nat)
    requires pos <= |prev| && x < |prev|
    ensures Overlay(prev, pos, data)[x] == if pos <= x < pos + |data| then data[x - pos] else prev[x]
  {
  }

  /** The blocks of a chain all have payloads of `pl` bytes. */
  predicate Full(blocks: seq<Block>, c: seq<nat>, pl: nat) {
    Distinct(c) && forall k | 0 <= k < |c| :: FullBlock(blocks, c[k], pl)
  }

  predicate FullBlock(blocks: seq<Block>, b: nat, pl: nat) {
    1 <= b <= |blocks| && |blocks[b - 1].payload| == pl
  }

  function WithEdit(blocks: seq<Block>, b: nat, enc: Encoding.table, pos: nat, data: bytes): (r: seq<Block>)
    requires 1 <= b <= |blocks|
  {
    blocks[b - 1 := EditedBlock(blocks[b - 1], enc, pos, data)]
  }

  lemma EditedByteSame(x: Block, enc: Encoding.table, pos: nat, data: bytes, o: nat)
    requires o < |x.payload| && pos <= |x.payload|
    ensures var y := EditedBlock(x, enc, pos, data);
            && |y.payload| == |x.payload|
            && Encoding.DecodeByte(enc, y.payload[o])
             == Encoding.Recode(
                  enc, if pos <= o < pos + |data| then data[o - pos] else Encoding.DecodeByte(enc, x.payload[o]))
  {
    OverlayAt(Encoding.Decode(enc, x.payload), pos, data, o);
  }

  lemma EditedByte(blocks: seq<Block>, c: seq<nat>, enc: Encoding.table, pl: nat, k: nat, pos: nat, data: bytes,
                   q: nat, o: nat)
    requires Full(blocks, c, pl) && k < |c| && q < |c| && o < pl && pos <= pl
    requires FullBlock(blocks, c[k], pl)
    ensures var was := Encoding.DecodeByte(enc, ByteAt(blocks, c[q], o));
            Encoding.DecodeByte(enc, ByteAt(WithEdit(blocks, c[k], enc, pos, data), c[q], o))
            == if q != k then was else Encoding.Recode(enc, if pos <= o < pos + |data| then data[o - pos] else was)
  {
    assert FullBlock(blocks, c[q], pl);
    if q == k {
      EditedByteSame(blocks[c[q] - 1], enc, pos, data, o);
    } else {
      assert c[q] != c[k];
    }
  }

  /** Position `x`, byte `o` of block `q`, is overlaid by `len` bytes at `index`, byte `pos` of block `k`. */
  predicate Hit(x: nat, q: nat, o: nat, index: nat, k: nat, pos: nat, len: nat) {
    && (index <= x < index + len <==> q == k && pos <= o < pos + len)
    && (q == k ==> x - index == o - pos)
  }

  lemma HitLinear(x: nat, q: nat, o: nat, index: nat, k: nat, pos: nat, pl: nat, len: nat, a: nat, b: nat)
    requires pos + len <= pl && o < pl && x == a + o && index == b + pos
    requires (q < k ==> a + pl <= b) && (k < q ==> b + pl <= a) && (q == k ==> a == b)
    ensures Hit(x, q, o, index, k, pos, len)
  {
  }

  lemma HitOf(x: nat, q: nat, o: nat, index: nat, k: nat, pos: nat, pl: nat, len: nat)
    requires pos + len <= pl && o < pl && x == q * pl + o && index == k * pl + pos
    ensures Hit(x, q, o, index, k, pos, len)
  {
    MulStep(q, k, pl);
    MulStep(k, q, pl);
    HitLinear(x, q, o, index, k, pos, pl, len, q * pl, k * pl);
  }

  function Decoded(blocks: seq<Block>, c: seq<nat>, enc: Encoding.table, pl: nat): (r: bytes)
    requires pl > 0
    ensures |r| == |c| * pl
  {
    Encoding.Decode(enc, Raw(blocks, c, pl))
  }

  lemma DecodedAt(blocks: seq<Block>, c: seq<nat>, enc: Encoding.table, pl: nat, x: nat, q: nat, o: nat)
    requires pl > 0 && x < |c| * pl && Quot(x, pl) == q < |c| && Rem(x, pl) == o
    ensures Decoded(blocks, c, enc, pl)[x] == Encoding.DecodeByte(enc, ByteAt(blocks, c[q], o))
  {
  }

  /** The bytes of a chain after block `k` is decoded and coded again: a lossy table changes them. */
  function RecodedBlock(enc: Encoding.table, d: bytes, k: nat, pl: nat): (r: bytes)
    ensures |r| == |d|
  {
    seq(|d|, x requires 0 <= x < |d| => if Quot(x, pl) == k then Encoding.Recode(enc, d[x]) else d[x])
  }

  lemma RecodedSame(enc: Encoding.table, d: bytes, k: nat, pl: nat)
    requires Encoding.Lossless(enc)
    ensures RecodedBlock(enc, d, k, pl) == d
  {
    forall x | 0 <= x < |d| ensures RecodedBlock(enc, d, k, pl)[x] == d[x] {
      Encoding.ByteRoundTrips(enc, d[x]);
    }
  }

  lemma EditedAt(blocks: seq<Block>, after: seq<Block>, c: seq<nat>, enc: Encoding.table, pl: nat,
                 k: nat, pos: nat, index: nat, data: bytes, d: bytes, d': bytes, x: nat, q: nat, o: nat)
    requires Full(blocks, c, pl) && k < |c| && pos + |data| <= pl && FullBlock(blocks, c[k], pl)
    requires after == WithEdit(blocks, c[k], enc, pos, data)
    requires q < |c| && o < pl && Hit(x, q, o, index, k, pos, |data|) && index <= |d| && x < |d| == |d'|
    requires d[x] == Encoding.DecodeByte(enc, ByteAt(blocks, c[q], o))
    requires d'[x] == Encoding.DecodeByte(enc, ByteAt(after, c[q], o))
    ensures d'[x] == if q == k then Encoding.Recode(enc, Overlay(d, index, data)[x]) else Overlay(d, index, data)[x]
  {
    EditedByte(blocks, c, enc, pl, k, pos, data, q, o);
    OverlayAt(d, index, data, x);
  }

  /** Editing one block of a chain overlays the decoded bytes of the chain. */
  lemma EditedDecoded(blocks: seq<Block>, c: seq<nat>, enc: Encoding.table, pl: nat, k: nat, pos: nat, index: nat,
                      data: bytes)
    requires Full(blocks, c, pl) && k < |c| && pl > 0 && pos + |data| <= pl
    requires FullBlock(blocks, c[k], pl) && index == k * pl + pos
    ensures Decoded(WithEdit(blocks, c[k], enc, pos, data), c, enc, pl)
         == RecodedBlock(enc, Overlay(Decoded(blocks, c, enc, pl), index, data), k, pl)
  {
    var after := WithEdit(blocks, c[k], enc, pos, data);
    var d, d' := Decoded(blocks, c, enc, pl), Decoded(after, c, enc, pl);
    MulStep(k, |c|, pl);
    var r := RecodedBlock(enc, Overlay(d, index, data), k, pl);
    forall x | 0 <= x < |d'| ensures d'[x] == r[x] {
      EditedPosition(blocks, after, c, enc, pl, k, pos, index, data, x);
    }
  }

  lemma EditedPosition(blocks: seq<Block>, after: seq<Block>, c: seq<nat>, enc: Encoding.table, pl: nat,
                       k: nat, pos: nat, index: nat, data: bytes, x: nat)
    requires Full(blocks, c, pl) && k < |c| && pl > 0 && pos + |data| <= pl
    requires FullBlock(blocks, c[k], pl) && index == k * pl + pos && after == WithEdit(blocks, c[k], enc, pos, data)
    requires x < |c| * pl && index <= |c| * pl
    ensures Decoded(after, c, enc, pl)[x]
      == RecodedBlock(enc, Overlay(Decoded(blocks, c, enc, pl), index, data), k, pl)[x]
  {
    var q, o := Quot(x, pl), Rem(x, pl);
    QuotRem(x, pl);
    QuotBelow(x, |c|, pl);
    DecodedAt(blocks, c, enc, pl, x, q, o);
    DecodedAt(after, c, enc, pl, x, q, o);
    HitOf(x, q, o, index, k, pos, pl, |data|);
    EditedAt(blocks, after, c, enc, pl, k, pos, index, data,
             Decoded(blocks, c, enc, pl), Decoded(after, c, enc, pl), x, q, o);
  }

  lemma ChainIsFull(v: Volume, i: nat)
    requires Shape(v) && BlockInv(v)
    ensures Full(v.blocks, EntryChain(v, i), Payload(v.bs))
  {
    var c := EntryChain(v, i);
    assert ChainOk(v, i);
    if Live(v.meta, i) {
      ChainIsShort(v.blocks, c);
      forall k | 0 <= k < |c| ensures FullBlock(v.blocks, c[k], Payload(v.bs)) {
        assert Link(v.blocks, c, k);
        assert TypedBlock(v.blocks[c[k] - 1], v.bs);
      }
    }
  }

  /** What `file_edit` writes: up to the end of the block that holds `index`. */
  function Fitting(data: bytes, index: nat, pl: nat): bytes
    requires pl > 0
  {
    Take(data, pl - Rem(index, pl))
  }

  lemma FittingSame(x: Block, enc: Encoding.table, pos: nat, data: bytes)
    requires pos <= |x.payload|
    ensures EditedBlock(x, enc, pos, data) == EditedBlock(x, enc, pos, Take(data, |x.payload| - pos))
  {
    var dec := Encoding.Decode(enc, x.payload);
    assert Take(data, |dec| - pos) == Take(Take(data, |x.payload| - pos), |dec| - pos);
  }

  lemma FittingEdit(x: Block, enc: Encoding.table, pos: nat, data: bytes, pl: nat)
    requires pos < pl == |x.payload|
    ensures EditedBlock(x, enc, pos, data) == EditedBlock(x, enc, pos, Take(data, pl - pos))
  {
    FittingSame(x, enc, pos, data);
  }

  lemma FittingWrite(blocks: seq<Block>, b: nat, enc: Encoding.table, pos: nat, data: bytes, pl: nat)
    requires FullBlock(blocks, b, pl) && pos < pl
    ensures WithEdit(blocks, b, enc, pos, data) == WithEdit(blocks, b, enc, pos, Take(data, pl - pos))
  {
    FittingEdit(blocks[b - 1], enc, pos, data, pl);
  }

  lemma EditedAsWrite(v: Volume, i: nat, k: nat, b: nat, pos: nat, data: bytes, now: nat)
    requires Live(v.meta, i) && k < |EntryChain(v, i)| && b == EntryChain(v, i)[k] && 1 <= b <= |v.blocks|
    ensures var w := Edited(v, i, k, pos, data, now);
            w.enc == v.enc && w.bs == v.bs && w.blocks == WithEdit(v.blocks, b, v.enc, pos, data)
  {
  }

  /** The bytes of a file after an edit at `index`. */
  function EditedBytes(enc: Encoding.table, prev: bytes, index: nat, data: bytes, pl: nat): bytes
    requires pl > 0
  {
    RecodedBlock(enc, Overlay(prev, index, Fitting(data, index, pl)), Quot(index, pl), pl)
  }

  /** Byte by byte: in the block of `index` the written bytes and the others are coded anew; the
      data ends at the end of that block. */
  lemma EditedIs(enc: Encoding.table, prev: bytes, index: nat, data: bytes, pl: nat, x: nat)
    requires pl > 0 && x < |prev| && index <= |prev|
    ensures var b := if index <= x < index + |data| && x / pl == index / pl then data[x - index] else prev[x];
            EditedBytes(enc, prev, index, data, pl)[x]
              == if x / pl == index / pl then Encoding.DecodeByte(enc, Encoding.EncodeByte(enc, b)) else b
  {
    QuotIsDiv(x, pl);
    QuotIsDiv(index, pl);
    QuotRem(x, pl);
    QuotRem(index, pl);
    SameBlockIff(x, index, pl);
    OverlayAt(prev, index, Fitting(data, index, pl), x);
  }

  /** From `index` on, the positions in its block. */
  lemma SameBlockIff(x: nat, index: nat, pl: nat)
    requires pl > 0
    ensures index <= x ==> (Quot(x, pl) == Quot(index, pl) <==> x < index + (pl - Rem(index, pl)))
  {
    QuotRem(x, pl);
    QuotRem(index, pl);
    if index <= x {
      if Quot(index, pl) < Quot(x, pl) {
        MulStep(Quot(index, pl), Quot(x, pl), pl);
      } else if Quot(x, pl) < Quot(index, pl) {
        MulStep(Quot(x, pl), Quot(index, pl), pl);
      }
    }
  }

  /** With a lossless table an edit is an exact overlay. */
  lemma EditIsOverlay(enc: Encoding.table, prev: bytes, index: nat, data: bytes, pl: nat)
    requires pl > 0 && Encoding.Lossless(enc)
    ensures EditedBytes(enc, prev, index, data, pl) == Overlay(prev, index, Fitting(data, index, pl))
  {
    RecodedSame(enc, Overlay(prev, index, Fitting(data, index, pl)), Quot(index, pl), pl);
  }

  lemma EditedBytesAre(enc: Encoding.table, prev: bytes, index: nat, data: bytes, pl: nat, k: nat, pos: nat)
    requires pl > 0 && k == Quot(index, pl) && pos == Rem(index, pl)
    ensures EditedBytes(enc, prev, index, data, pl)
      == RecodedBlock(enc, Overlay(prev, index, Take(data, pl - pos)), k, pl)
  {
  }

  lemma EditedCapacity(v: Volume, w: Volume, i: nat, k: nat, pos: nat, index: nat, data: bytes, now: nat)
    requires Shape(v) && BlockInv(v) && Live(v.meta, i)
    requires k < |EntryChain(v, i)| && k == Quot(index, Payload(v.bs)) && pos == Rem(index, Payload(v.bs))
    requires w == Edited(v, i, k, pos, data, now) && EntryChain(w, i) == EntryChain(v, i)
    ensures Capacity(w, i) == EditedBytes(v.enc, Capacity(v, i), index, data, Payload(v.bs))
  {
    var pl, c := Payload(v.bs), EntryChain(v, i);
    QuotRem(index, pl);
    ChainIsFull(v, i);
    assert FullBlock(v.blocks, c[k], pl);
    EditedAsWrite(v, i, k, c[k], pos, data, now);
    FittingWrite(v.blocks, c[k], v.enc, pos, data, pl);
    assert Capacity(v, i) == Decoded(v.blocks, c, v.enc, pl);
    assert Capacity(w, i) == Decoded(w.blocks, c, v.enc, pl);
    EditedDecoded(v.blocks, c, v.enc, pl, k, pos, index, Take(data, pl - pos));
    EditedBytesAre(v.enc, Capacity(v, i), index, data, pl, k, pos);
  }

  /** Entry `i` after its block `k` is edited. */
  lemma EditKeeps(v: Volume, i: nat, k: nat, pos: nat, data: bytes, now: nat)
    requires Inv(v) && IsFile(v.meta, i) && k < |EntryChain(v, i)| && now < U64
    ensures var w := Edited(v, i, k, pos, data, now);
            && Inv(w) && w.used == v.used && w.index == v.index && EntryChain(w, i) == EntryChain(v, i)
            && IsFile(w.meta, i) && SizeOf(w, i) == SizeOf(v, i)
            && Abs(w) == Abs(v)[PathTo(v.meta, i) := NodeAt(w, i)]
  {
    var w := Edited(v, i, k, pos, data, now);
    EditedBlockOf(v, i, k, pos, data, now);
    EditedChanges(v, i, k, pos, data, now);
    FileChangedInv(v, w, i, EntryChain(v, i));
    FileChangedAbs(v, w, i, EntryChain(v, i));
  }

  /** The node of an edited file. */
  function Overlaid(v: Volume, i: nat, index: nat, data: bytes): Node {
    File(EditedBytes(v.enc, Capacity(v, i), index, data, Payload(v.bs)), SizeOf(v, i))
  }

  lemma EditedNode(v: Volume, w: Volume, i: nat, index: nat, data: bytes, pl: nat)
    requires IsFile(w.meta, i) && SizeOf(w, i) == SizeOf(v, i) && pl == Payload(v.bs)
    requires Capacity(w, i) == EditedBytes(v.enc, Capacity(v, i), index, data, pl)
    ensures NodeAt(w, i) == Overlaid(v, i, index, data)
  {
  }

  lemma IndexedPath(v: Volume, path: bytes)
    requires Inv(v) && path in v.index
    ensures Live(v.meta, v.index[path]) && PathTo(v.meta, v.index[path]) == path
  {
    assert Points(v.meta, v.index, path);
  }

  lemma EditedFile(v: Volume, i: nat, k: nat, pos: nat, data: bytes, index: nat, now: nat)
    requires Inv(v) && IsFile(v.meta, i) && k < |EntryChain(v, i)| && now < U64
    requires k == Quot(index, Payload(v.bs)) && pos == Rem(index, Payload(v.bs))
    ensures var w := Edited(v, i, k, pos, data, now);
            && Inv(w) && w.used == v.used && w.index == v.index && EntryChain(w, i) == EntryChain(v, i)
            && Abs(w) == Abs(v)[PathTo(v.meta, i) := Overlaid(v, i, index, data)]
  {
    var w := Edited(v, i, k, pos, data, now);
    EditKeeps(v, i, k, pos, data, now);
    EditedCapacity(v, w, i, k, pos, index, data, now);
    EditedNode(v, w, i, index, data, Payload(v.bs));
  }

  /** A successful `file_edit` overlays the data, as far as it fits in one block, on the bytes
      of the file, and codes that block anew; size, chain, flags and every other node stay. */
  lemma EditFileRefines(v: Volume, path: bytes, data: bytes, index: nat, now: nat)
    requires Inv(v) && now < U64 && Editable(v, path, index)
    ensures var w := EditFile(v, path, data, index, now).0;
            && EditFile(v, path, data, index, now).1 == Success
            && Inv(w) && w.used == v.used && w.index == v.index
            && EntryChain(w, v.index[path]) == EntryChain(v, v.index[path])
            && Abs(w) == Abs(v)[path := Overlaid(v, v.index[path], index, data)]
  {
    EditIs(v, path, data, index, now);
    IndexedPath(v, path);
    EditedFile(v, v.index[path], Quot(index, Payload(v.bs)), Rem(index, Payload(v.bs)), data, index, now);
  }
}
