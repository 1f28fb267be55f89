/** The block region of the disk image: how blocks lie in bytes, and what a write inside one
    block, or outside the region, does to the blocks. */
module Disk {
  import opened Bytes
  import opened Chains

  /** Next pointer, little-endian in four bytes, then the payload. */
  function BlockAt(d: bytes, pos: nat, bs: nat): (r: Block)
    requires bs >= 4 && pos + bs <= |d|
  {
    Block(UnLe(d[pos..pos + 4]), d[pos + 4..pos + bs])
  }

  /** Where block number `k + 1` starts. */
  function Pos(off: nat, bs: nat, k: nat): nat {
    off + k * bs
  }

  lemma PosApart(off: nat, bs: nat, k: nat, j: nat)
    ensures k < j ==> Pos(off, bs, k) + bs <= Pos(off, bs, j)
  {
    MulStep(k, j, bs);
  }

  lemma StartOfRegion(off: nat, bs: nat, n: nat)
    ensures off <= Pos(off, bs, n)
  {
  }

  predicate Region(d: bytes, off: nat, bs: nat, n: nat) {
    bs >= 128 && Pos(off, bs, n) <= |d|
  }

  lemma InRegion(d: bytes, off: nat, bs: nat, n: nat, k: nat)
    requires Region(d, off, bs, n) && k < n
    ensures off <= Pos(off, bs, k) && Pos(off, bs, k) + bs <= Pos(off, bs, n) <= |d|
  {
    PosApart(off, bs, k, n);
  }

  function BlockNo(d: bytes, off: nat, bs: nat, n: nat, k: nat): Block
    requires Region(d, off, bs, n) && k < n
  {
    InRegion(d, off, bs, n, k);
    BlockAt(d, Pos(off, bs, k), bs)
  }

  function BlocksOf(d: bytes, off: nat, bs: nat, n: nat): (r: seq<Block>)
    requires Region(d, off, bs, n)
    ensures |r| == n
  {
    seq(n, k requires 0 <= k < n => BlockNo(d, off, bs, n, k))
  }

  lemma SameRange(d: bytes, e: bytes, pos: nat, bs: nat)
    requires bs >= 4 && pos + bs <= |d| && pos + bs <= |e|
    requires d[pos..pos + bs] == e[pos..pos + bs]
    ensures BlockAt(d, pos, bs) == BlockAt(e, pos, bs)
  {
    assert d[pos..pos + 4] == d[pos..pos + bs][..4];
    assert e[pos..pos + 4] == e[pos..pos + bs][..4];
    assert d[pos + 4..pos + bs] == d[pos..pos + bs][4..];
    assert e[pos + 4..pos + bs] == e[pos..pos + bs][4..];
  }

  /** A write before the block region leaves the blocks alone. */
  lemma PatchBefore(d: bytes, off: nat, bs: nat, n: nat, pos: nat, data: bytes)
    requires Region(d, off, bs, n) && pos + |data| <= off && off <= |d|
    ensures BlocksOf(Patch(d, pos, data), off, bs, n) == BlocksOf(d, off, bs, n)
  {
    var e := Patch(d, pos, data);
    forall k | 0 <= k < n ensures BlockNo(e, off, bs, n, k) == BlockNo(d, off, bs, n, k) {
      InRegion(d, off, bs, n, k);
      PatchElsewhere(d, pos, data, Pos(off, bs, k), Pos(off, bs, k) + bs);
      SameRange(e, d, Pos(off, bs, k), bs);
    }
  }

  lemma PatchOther(d: bytes, off: nat, bs: nat, n: nat, b: nat, data: bytes, k: nat)
    requires Region(d, off, bs, n) && b < n && k < n && k != b && |data| <= bs
    ensures Pos(off, bs, b) + bs <= |d|
    ensures BlockNo(Patch(d, Pos(off, bs, b), data), off, bs, n, k) == BlockNo(d, off, bs, n, k)
  {
    InRegion(d, off, bs, n, b);
    InRegion(d, off, bs, n, k);
    PosApart(off, bs, k, b);
    PosApart(off, bs, b, k);
    PatchElsewhere(d, Pos(off, bs, b), data, Pos(off, bs, k), Pos(off, bs, k) + bs);
    SameRange(Patch(d, Pos(off, bs, b), data), d, Pos(off, bs, k), bs);
  }

  /** A write of a next pointer and the first payload bytes of block `b + 1`. */
  lemma PatchedBlock(d: bytes, pos: nat, bs: nat, next: nat, head: bytes)
    requires bs >= 4 && pos + bs <= |d| && next < U32 && 4 + |head| <= bs
    ensures BlockAt(Patch(d, pos, Le(next, 4) + head), pos, bs)
         == Block(next, head + BlockAt(d, pos, bs).payload[|head|..])
  {
    var data := Le(next, 4) + head;
    var e := Patch(d, pos, data);
    Pow256Values();
    LeRoundTrip(next, 4);
    assert e[pos..pos + 4] == e[pos..pos + |data|][..4] == Le(next, 4);
    assert e[pos + 4..pos + |data|] == e[pos..pos + |data|][4..] == head;
    assert e[pos + |data|..pos + bs] == d[pos + |data|..pos + bs];
    assert e[pos + 4..pos + bs] == e[pos + 4..pos + |data|] + e[pos + |data|..pos + bs];
    assert d[pos + 4..pos + bs][|head|..] == d[pos + |data|..pos + bs];
  }

  /** Such a write changes that block and no other. */
  lemma PatchInside(d: bytes, off: nat, bs: nat, n: nat, b: nat, next: nat, head: bytes)
    requires Region(d, off, bs, n) && b < n && next < U32 && 4 + |head| <= bs
    ensures Pos(off, bs, b) + bs <= |d|
    ensures var x := BlocksOf(d, off, bs, n);
            |x[b].payload| == bs - 4 &&
            BlocksOf(Patch(d, Pos(off, bs, b), Le(next, 4) + head), off, bs, n)
              == x[b := Block(next, head + x[b].payload[|head|..])]
  {
    InRegion(d, off, bs, n, b);
    var data := Le(next, 4) + head;
    var e := Patch(d, Pos(off, bs, b), data);
    PatchedBlock(d, Pos(off, bs, b), bs, next, head);
    assert BlocksOf(d, off, bs, n)[b] == BlockAt(d, Pos(off, bs, b), bs);
    forall k | 0 <= k < n && k != b ensures BlockNo(e, off, bs, n, k) == BlockNo(d, off, bs, n, k) {
      PatchOther(d, off, bs, n, b, data, k);
    }
  }

  // ---- The same, as a relation between image and blocks ----

  predicate ShowsBlock(d: bytes, off: nat, bs: nat, x: seq<Block>, k: nat) {
    && k < |x| && bs >= 4 && Pos(off, bs, k) + bs <= |d|
    && x[k] == BlockAt(d, Pos(off, bs, k), bs)
  }

  /** The image `d` holds the blocks `x`. */
  ghost predicate Shows(d: bytes, off: nat, bs: nat, x: seq<Block>) {
    Region(d, off, bs, |x|) && forall k | 0 <= k < |x| :: ShowsBlock(d, off, bs, x, k)
  }

  lemma ShowsIs(d: bytes, off: nat, bs: nat, x: seq<Block>)
    requires Region(d, off, bs, |x|)
    ensures Shows(d, off, bs, x) <==> x == BlocksOf(d, off, bs, |x|)
  {
    var y := BlocksOf(d, off, bs, |x|);
    if Shows(d, off, bs, x) {
      forall k | 0 <= k < |x| ensures x[k] == y[k] {
        assert ShowsBlock(d, off, bs, x, k);
      }
    }
    if x == y {
      forall k | 0 <= k < |x| ensures ShowsBlock(d, off, bs, x, k) {
        InRegion(d, off, bs, |x|, k);
      }
    }
  }

  lemma ShowsAfterPut(d: bytes, off: nat, bs: nat, x: seq<Block>, b: nat, next: nat, head: bytes)
    requires Shows(d, off, bs, x) && b < |x| && next < U32 && 4 + |head| <= bs
    ensures Pos(off, bs, b) + bs <= |d| && |x[b].payload| == bs - 4
    ensures Shows(Patch(d, Pos(off, bs, b), Le(next, 4) + head), off, bs,
      x[b := Block(next, head + x[b].payload[|head|..])])
  {
    ShowsIs(d, off, bs, x);
    PatchInside(d, off, bs, |x|, b, next, head);
    ShowsIs(Patch(d, Pos(off, bs, b), Le(next, 4) + head), off, bs, x[b := Block(next, head + x[b].payload[|head|..])]);
  }

  lemma ShowsAfterOther(d: bytes, off: nat, bs: nat, x: seq<Block>, pos: nat, data: bytes)
    requires Shows(d, off, bs, x) && pos + |data| <= off && off <= |d|
    ensures Shows(Patch(d, pos, data), off, bs, x)
  {
    ShowsIs(d, off, bs, x);
    PatchBefore(d, off, bs, |x|, pos, data);
    ShowsIs(Patch(d, pos, data), off, bs, x);
  }

  lemma ShowsSize(d: bytes, off: nat, bs: nat, x: seq<Block>, b: nat)
    requires Shows(d, off, bs, x) && b < |x|
    ensures Pos(off, bs, b) + bs <= |d| && |x[b].payload| == bs - 4 && x[b].next < U32
    ensures UnLe(d[Pos(off, bs, b)..Pos(off, bs, b) + 4]) == x[b].next
    ensures d[Pos(off, bs, b) + 4..Pos(off, bs, b) + bs] == x[b].payload
  {
    assert ShowsBlock(d, off, bs, x, b);
    Pow256Values();
  }
}
