/** Where the regions of a volume lie: the sizing loop of `fs_format`, and the layout that
    `fs_init` computes again from the header. */
module Layout {
  import opened Bytes

  // ---- Division ----

  lemma DivBounds(a: nat, d: nat)
    requires d > 0
    ensures (a / d) * d <= a < (a / d) * d + d
  {
    assert a == (a / d) * d + a % d;
  }

  lemma MulMono(a: nat, b: nat, d: nat)
    requires a <= b
    ensures a * d <= b * d
  {
  }

  lemma DivIs(a: nat, d: nat, q: nat)
    requires d > 0 && q * d <= a < q * d + d
    ensures a / d == q
  {
    DivBounds(a, d);
    if a / d < q {
      MulMono(a / d + 1, q, d);
    } else if q < a / d {
      MulMono(q + 1, a / d, d);
    }
  }

  lemma DivMono(a: nat, b: nat, d: nat)
    requires d > 0 && a <= b
    ensures a / d <= b / d
  {
    DivBounds(a, d);
    DivBounds(b, d);
    if b / d < a / d {
      MulMono(b / d + 1, a / d, d);
    }
  }

  function CeilDiv(a: nat, d: nat): nat
    requires d > 0
  {
    if a == 0 then 0 else (a - 1) / d + 1
  }

  function BitmapBytes(n: nat): nat {
    (n + 7) / 8
  }

  // ---- The loop of fs_format ----

  /** The blocks that fit beside a bitmap of `bm` bytes. */
  function BlocksBeside(avail: nat, bs: nat, bm: nat): nat
    requires bs >= 128 && bm <= avail
  {
    (avail - bm) / bs
  }

  /** The bitmap that those blocks need: what one round of the loop computes from `bm`. */
  function NextBitmap(avail: nat, bs: nat, bm: nat): (r: nat)
    requires bs >= 128 && bm <= avail
    ensures r <= avail
  {
    DivBounds(avail - bm, bs);
    MulMono(128, bs, (avail - bm) / bs);
    BitmapBytes(BlocksBeside(avail, bs, bm))
  }

  /** The successive bitmap sizes; round k of the loop compares number k + 1 with number k + 2. */
  function Iter(avail: nat, bs: nat, k: nat): (r: nat)
    requires bs >= 128
    ensures r <= avail
  {
    if k == 0 then 0 else NextBitmap(avail, bs, Iter(avail, bs, k - 1))
  }

  /** The loop is left in round `k`. */
  predicate StopsAt(avail: nat, bs: nat, k: nat)
    requires bs >= 128
  {
    && Iter(avail, bs, k + 2) == Iter(avail, bs, k + 1)
    && BlocksBeside(avail, bs, Iter(avail, bs, k + 1)) == BlocksBeside(avail, bs, Iter(avail, bs, k))
  }

  /** The sizes for which the loop never ends: (8k + 1) * bs + k for some k. */
  predicate Oscillates(avail: nat, bs: nat)
    requires bs >= 128
  {
    avail % (8 * bs + 1) == bs
  }

  lemma OscillatesForm(avail: nat, bs: nat)
    requires bs >= 128
    ensures Oscillates(avail, bs) <==> exists k: nat :: avail == (8 * k + 1) * bs + k
  {
    var d := 8 * bs + 1;
    if Oscillates(avail, bs) {
      var k := avail / d;
      assert avail == k * d + bs;
      assert avail == (8 * k + 1) * bs + k;
    }
    forall k: nat | avail == (8 * k + 1) * bs + k ensures Oscillates(avail, bs) {
      assert avail == k * d + bs;
      DivIs(avail, d, k);
    }
  }

  /** Less room by `d` takes away little more than `d / 128` blocks. */
  lemma CountsApart(x: nat, y: nat, bs: nat)
    requires bs >= 128 && y < x
    ensures y / bs <= x / bs && (y / bs < x / bs ==> 128 * (x / bs - y / bs - 1) < x - y)
  {
    var n1, n2 := x / bs, y / bs;
    DivMono(y, x, bs);
    DivBounds(x, bs);
    DivBounds(y, bs);
    if n1 > n2 {
      MulMono(128, bs, n1 - n2 - 1);
      assert n1 * bs - n2 * bs - bs == (n1 - n2 - 1) * bs;
    }
  }

  lemma BytesApart(n1: nat, n2: nat, d: nat)
    requires d > 0 && n2 <= n1 && (n2 < n1 ==> 128 * (n1 - n2 - 1) < d)
    ensures BitmapBytes(n2) <= BitmapBytes(n1)
    ensures BitmapBytes(n1) - BitmapBytes(n2) <= 1 || 2 * (BitmapBytes(n1) - BitmapBytes(n2)) < d
  {
  }

  /** Between bitmaps that differ by `b2 - b1` the next ones differ, the other way round,
      by at most 1, or by less than half. */
  lemma Contracts(avail: nat, bs: nat, b1: nat, b2: nat)
    requires bs >= 128 && b1 < b2 <= avail
    ensures 0 <= NextBitmap(avail, bs, b1) - NextBitmap(avail, bs, b2)
    ensures NextBitmap(avail, bs, b1) - NextBitmap(avail, bs, b2) <= 1
         || 2 * (NextBitmap(avail, bs, b1) - NextBitmap(avail, bs, b2)) < b2 - b1
  {
    CountsApart(avail - b1, avail - b2, bs);
    BytesApart(BlocksBeside(avail, bs, b1), BlocksBeside(avail, bs, b2), b2 - b1);
  }

  function Gap(avail: nat, bs: nat, bm: nat): nat
    requires bs >= 128 && bm <= avail
  {
    if bm <= NextBitmap(avail, bs, bm) then NextBitmap(avail, bs, bm) - bm else bm - NextBitmap(avail, bs, bm)
  }

  /** A step back and forth between neighbours happens only at an oscillating size. */
  lemma SwapMeansOscillates(avail: nat, bs: nat, b: nat)
    requires bs >= 128 && b + 1 <= avail
    requires NextBitmap(avail, bs, b) == b + 1 && NextBitmap(avail, bs, b + 1) == b
    ensures Oscillates(avail, bs)
  {
    var n1, n2 := BlocksBeside(avail, bs, b), BlocksBeside(avail, bs, b + 1);
    DivBounds(avail - b, bs);
    DivBounds(avail - b - 1, bs);
    assert n1 >= 8 * b + 1 && n2 <= 8 * b;
    MulMono(8 * b + 1, n1, bs);
    MulMono(n2 + 1, 8 * b + 1, bs);
    assert avail - b == (8 * b + 1) * bs;
    assert avail == (8 * b + 1) * bs + b;
    OscillatesForm(avail, bs);
  }

  /** Each round brings the successive sizes closer together, unless the size oscillates. */
  lemma GapShrinks(avail: nat, bs: nat, bm: nat)
    requires bs >= 128 && bm <= avail && !Oscillates(avail, bs)
    requires NextBitmap(avail, bs, bm) != bm
    ensures Gap(avail, bs, NextBitmap(avail, bs, bm)) < Gap(avail, bs, bm)
  {
    var b' := NextBitmap(avail, bs, bm);
    if bm < b' {
      Contracts(avail, bs, bm, b');
      if b' == bm + 1 && NextBitmap(avail, bs, b') == bm {
        SwapMeansOscillates(avail, bs, bm);
      }
    } else {
      Contracts(avail, bs, b', bm);
      if bm == b' + 1 && NextBitmap(avail, bs, b') == bm {
        SwapMeansOscillates(avail, bs, b');
      }
    }
  }

  lemma {:induction false} StopsFrom(avail: nat, bs: nat, k: nat) returns (stop: nat)
    requires bs >= 128 && !Oscillates(avail, bs)
    ensures StopsAt(avail, bs, stop)
    decreases Gap(avail, bs, Iter(avail, bs, k))
  {
    var bm := Iter(avail, bs, k);
    if NextBitmap(avail, bs, bm) == bm {
      assert Iter(avail, bs, k + 1) == bm && Iter(avail, bs, k + 2) == bm;
      stop := k;
    } else {
      GapShrinks(avail, bs, bm);
      stop := StopsFrom(avail, bs, k + 1);
    }
  }

  lemma NoFixedPoint(avail: nat, bs: nat, bm: nat)
    requires bs >= 128 && Oscillates(avail, bs) && bm <= avail
    ensures NextBitmap(avail, bs, bm) != bm
  {
    OscillatesForm(avail, bs);
    var k: nat :| avail == (8 * k + 1) * bs + k;
    var n := BlocksBeside(avail, bs, bm);
    DivBounds(avail - bm, bs);
    if bm <= k {
      DivMono((8 * k + 1) * bs, avail - bm, bs);
      DivIs((8 * k + 1) * bs, bs, 8 * k + 1);
    } else if n > 8 * k {
      MulMono(8 * k + 1, n, bs);
    }
  }

  /** The loop of `fs_format` ends exactly when the available size is not of the oscillating form. */
  lemma LoopEndsIff(avail: nat, bs: nat)
    requires bs >= 128
    ensures (exists k: nat :: StopsAt(avail, bs, k)) <==> !Oscillates(avail, bs)
  {
    if Oscillates(avail, bs) {
      forall k: nat | StopsAt(avail, bs, k) ensures false {
        NoFixedPoint(avail, bs, Iter(avail, bs, k + 1));
      }
    } else {
      var k := StopsFrom(avail, bs, 0);
    }
  }

  predicate Fits(avail: nat, bs: nat, n: nat) {
    n * bs + BitmapBytes(n) <= avail
  }

  /** `n` blocks fit together with their bitmap, and no more. */
  ghost predicate Largest(avail: nat, bs: nat, n: nat) {
    forall m: nat :: Fits(avail, bs, m) <==> m <= n
  }

  lemma LargestFits(avail: nat, bs: nat, n: nat)
    requires Largest(avail, bs, n)
    ensures Fits(avail, bs, n) && BitmapBytes(n) <= avail
  {
    assert Fits(avail, bs, n);
  }

  lemma LargestFit(avail: nat, bs: nat, bm: nat, m: nat)
    requires bs >= 128 && bm <= avail && NextBitmap(avail, bs, bm) == bm
    ensures Fits(avail, bs, m) <==> m <= BlocksBeside(avail, bs, bm)
  {
    var n := BlocksBeside(avail, bs, bm);
    DivBounds(avail - bm, bs);
    if m <= n {
      MulMono(m, n, bs);
    } else {
      MulMono(n + 1, m, bs);
    }
  }

  /** The loop itself: when it ends, `numBlocks` is the largest number of blocks that fit
      together with their bitmap. */
  method SettleBlocks(avail: nat, bs: nat) returns (numBlocks: nat, bitmapBytes: nat)
    requires bs >= 128 && !Oscillates(avail, bs)
    ensures bitmapBytes == BitmapBytes(numBlocks) && bitmapBytes <= avail
    ensures numBlocks == BlocksBeside(avail, bs, bitmapBytes)
    ensures Largest(avail, bs, numBlocks)
    ensures exists k: nat :: StopsAt(avail, bs, k) && bitmapBytes == Iter(avail, bs, k + 1)
  {
    numBlocks := avail / bs;
    bitmapBytes := (numBlocks + 7) / 8;
    ghost var k: nat := 0;
    assert Iter(avail, bs, 0) == 0;
    while true
      invariant bitmapBytes == Iter(avail, bs, k + 1) && numBlocks == BlocksBeside(avail, bs, Iter(avail, bs, k))
      decreases Gap(avail, bs, Iter(avail, bs, k))
    {
      var nb := (avail - bitmapBytes) / bs;
      var newBitmap := (nb + 7) / 8;
      assert newBitmap == Iter(avail, bs, k + 2);
      if newBitmap == bitmapBytes && nb == numBlocks {
        break;
      }
      if Iter(avail, bs, k + 1) != Iter(avail, bs, k) {
        GapShrinks(avail, bs, Iter(avail, bs, k));
      }
      bitmapBytes := newBitmap;
      numBlocks := nb;
      k := k + 1;
    }
    assert StopsAt(avail, bs, k);
    forall m: nat ensures Fits(avail, bs, m) <==> m <= numBlocks {
      LargestFit(avail, bs, bitmapBytes, m);
    }
  }

  // ---- Format and init compared ----

  /** `fs_init` divides without room for the bitmap. */
  function InitBlocks(avail: nat, bs: nat): nat
    requires bs >= 128
  {
    avail / bs
  }

  /** With n blocks from format and their bitmap at `off`: init never has fewer blocks, has as
      many exactly when the slack of the division holds format's bitmap, and its last block
      ends at most one bitmap past the end `off + avail` of the volume. */
  lemma FormatAndInit(avail: nat, bs: nat, n: nat, off: nat)
    requires bs >= 128 && BitmapBytes(n) <= avail
    requires n == BlocksBeside(avail, bs, BitmapBytes(n))
    ensures n <= InitBlocks(avail, bs)
    ensures n == InitBlocks(avail, bs) <==> BitmapBytes(n) <= avail % bs
    ensures var m := InitBlocks(avail, bs);
            && off + BitmapBytes(m) + m * bs <= off + avail + BitmapBytes(m)
            && (off + BitmapBytes(m) + m * bs <= off + avail <==> BitmapBytes(m) <= avail % bs)
  {
    var b, m := BitmapBytes(n), InitBlocks(avail, bs);
    DivBounds(avail, bs);
    DivBounds(avail - b, bs);
    DivMono(avail - b, avail, bs);
    assert avail % bs == avail - m * bs;
    if n < m {
      MulMono(n + 1, m, bs);
    }
  }

  // ---- The regions ----

  const HEADER_BYTES: nat := 512
  const USER_BYTES: nat := 128
  const META_BYTES: nat := 72

  datatype Geometry = Geometry(userTable: nat, metadata: nat, bitmap: nat, blocks: nat, numBlocks: nat)

  /** What is left of the volume for bitmap and blocks, in 64-bit arithmetic that wraps. */
  function Available(total: nat, header: nat, maxUsers: nat, maxFiles: nat): nat {
    (total - header - maxUsers * USER_BYTES - maxFiles * META_BYTES) % U64
  }

  predicate ConfigAccepted(total: nat, header: nat, bs: nat, maxUsers: nat, maxFiles: nat) {
    header >= HEADER_BYTES && bs >= 128 && total > header && Available(total, header, maxUsers, maxFiles) >= bs
  }

  lemma OneFits(avail: nat, bs: nat)
    requires bs >= 128 && avail >= bs && !Oscillates(avail, bs)
    ensures Fits(avail, bs, 1)
  {
    OscillatesForm(avail, bs);
    assert (8 * 0 + 1) * bs + 0 == bs;
  }

  /** The blocks end inside the volume unless the subtractions wrapped. */
  lemma InsideUnlessWrapped(total: nat, regions: nat, avail: nat, bs: nat, n: nat)
    requires total < U64 && avail == (total - regions) % U64 && Fits(avail, bs, n)
    ensures regions + BitmapBytes(n) + n * bs <= total <==> regions <= total
  {
    if regions <= total {
      assert avail == total - regions;
    }
  }

  /** The geometry that `fs_format` lays out. Its own test for a volume without blocks never
      fires, and the regions lie inside the volume exactly when the size did not wrap. */
  method FormatGeometry(total: nat, header: nat, bs: nat, maxUsers: nat, maxFiles: nat)
    returns (ok: bool, g: Geometry)
    requires total < U64 && header < U64 && bs < U64 && maxUsers < U32 && maxFiles < U32
    requires bs >= 128 ==> !Oscillates(Available(total, header, maxUsers, maxFiles), bs)
    ensures ok <==> ConfigAccepted(total, header, bs, maxUsers, maxFiles)
    ensures ok ==>
      var avail := Available(total, header, maxUsers, maxFiles);
      && g.numBlocks > 0
      && Largest(avail, bs, g.numBlocks)
      && g.userTable == header
      && g.metadata == g.userTable + maxUsers * USER_BYTES
      && g.bitmap == g.metadata + maxFiles * META_BYTES
      && g.blocks == g.bitmap + BitmapBytes(g.numBlocks)
      && (g.blocks + g.numBlocks * bs <= total <==> header + maxUsers * USER_BYTES + maxFiles * META_BYTES <= total)
  {
    g := Geometry(0, 0, 0, 0, 0);
    if header < HEADER_BYTES || bs < 128 || total <= header {
      return false, g;
    }
    var userTableSize := maxUsers * USER_BYTES;
    var metadataSize := maxFiles * META_BYTES;
    var avail := (total - header - userTableSize - metadataSize) % U64;
    if avail < bs {
      return false, g;
    }
    var n, bm := SettleBlocks(avail, bs);
    OneFits(avail, bs);
    g := Geometry(header, header + userTableSize, header + userTableSize + metadataSize,
                  header + userTableSize + metadataSize + bm, n);
    LargestFits(avail, bs, n);
    InsideUnlessWrapped(total, header + userTableSize + metadataSize, avail, bs, n);
    return true, g;
  }
}
