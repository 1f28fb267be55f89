/** The free-space bitmap: one bit per block, packed eight to a byte, and the first-fit
    all-or-nothing allocator that works on it in place. Blocks are numbered from 1. */
module Bitmap {
  import opened Bytes

  type bits = seq<bv8>

  function Mask(k: nat): (r: bv8)
    requires k < 8
  {
    1 << k
  }

  predicate BitGet(b: bits, i: nat)
    requires i < 8 * |b|
  {
    b[i / 8] & Mask(i % 8) != 0
  }

  function PutBit(x: bv8, k: nat, v: bool): bv8
    requires k < 8
  {
    if v then x | Mask(k) else x & !Mask(k)
  }

  function BitPut(b: bits, i: nat, v: bool): (r: bits)
    requires i < 8 * |b|
    ensures |r| == |b|
  {
    b[i / 8 := PutBit(b[i / 8], i % 8, v)]
  }

  lemma MaskValues()
    ensures Mask(0) == 1 && Mask(1) == 2 && Mask(2) == 4 && Mask(3) == 8
    ensures Mask(4) == 16 && Mask(5) == 32 && Mask(6) == 64 && Mask(7) == 128
  {
  }

  lemma PutBitGet(x: bv8, k: nat, j: nat, v: bool)
    requires k < 8 && j < 8
    ensures (PutBit(x, k, v) & Mask(j) != 0) == (if j == k then v else x & Mask(j) != 0)
  {
    MaskValues();
    var m := Mask(k);
    var n := Mask(j);
    assert j != k ==> m & n == 0;
  }

  /** A byte is determined by its eight bits. */
  lemma ByteByBits(x: bv8, y: bv8)
    requires forall k | 0 <= k < 8 :: (x & Mask(k) != 0) == (y & Mask(k) != 0)
    ensures x == y
  {
    MaskValues();
    assert (x & Mask(0) != 0) == (y & Mask(0) != 0);
    assert (x & Mask(1) != 0) == (y & Mask(1) != 0);
    assert (x & Mask(2) != 0) == (y & Mask(2) != 0);
    assert (x & Mask(3) != 0) == (y & Mask(3) != 0);
    assert (x & Mask(4) != 0) == (y & Mask(4) != 0);
    assert (x & Mask(5) != 0) == (y & Mask(5) != 0);
    assert (x & Mask(6) != 0) == (y & Mask(6) != 0);
    assert (x & Mask(7) != 0) == (y & Mask(7) != 0);
  }

  lemma BitPutGet(b: bits, i: nat, j: nat, v: bool)
    requires i < 8 * |b| && j < 8 * |b|
    ensures BitGet(BitPut(b, i, v), j) == (if i == j then v else BitGet(b, j))
  {
    PutBitGet(b[i / 8], i % 8, j % 8, v);
    assert i == 8 * (i / 8) + i % 8 && j == 8 * (j / 8) + j % 8;
  }

  /** Every bit of the bitmap, in order. */
  function Flags(b: bits): (r: seq<bool>)
    ensures |r| == 8 * |b|
  {
    seq(8 * |b|, i requires 0 <= i < 8 * |b| => BitGet(b, i))
  }

  lemma FlagsOfBitPut(b: bits, i: nat, v: bool)
    requires i < 8 * |b|
    ensures Flags(BitPut(b, i, v)) == Flags(b)[i := v]
  {
    forall j | 0 <= j < 8 * |b| ensures Flags(BitPut(b, i, v))[j] == Flags(b)[i := v][j] {
      BitPutGet(b, i, j, v);
    }
  }

  /** Bitmaps with equal bits are equal bytes. */
  lemma FlagsInjective(a: bits, b: bits)
    requires Flags(a) == Flags(b)
    ensures a == b
  {
    assert |a| == |b|;
    forall q | 0 <= q < |a| ensures a[q] == b[q] {
      forall k | 0 <= k < 8 ensures (a[q] & Mask(k) != 0) == (b[q] & Mask(k) != 0) {
        assert Flags(a)[8 * q + k] == Flags(b)[8 * q + k];
      }
      ByteByBits(a[q], b[q]);
    }
  }

  // ---- What the bitmap says: a sequence of flags, and the list of free blocks ----

  /** `used` with the flags of the listed blocks among the first `n` set to `v`. */
  function Mark(used: seq<bool>, n: nat, blocks: seq<nat>, v: bool): (r: seq<bool>)
    ensures |r| == |used|
  {
    seq(|used|, k requires 0 <= k < |used| => if k < n && k + 1 in blocks then v else used[k])
  }

  /** The free blocks among the first `hi`, in ascending order. */
  function FreeBelow(used: seq<bool>, hi: nat): (r: seq<nat>)
    requires hi <= |used|
    ensures |r| <= hi
  {
    if hi == 0 then []
    else FreeBelow(used, hi - 1) + (if used[hi - 1] then [] else [hi])
  }

  function Free(used: seq<bool>): (r: seq<nat>) {
    FreeBelow(used, |used|)
  }

  lemma {:induction false} FreeBelowMembers(used: seq<bool>, hi: nat)
    requires hi <= |used|
    ensures forall b :: b in FreeBelow(used, hi) <==> 1 <= b <= hi && !used[b - 1]
  {
    if hi > 0 {
      FreeBelowMembers(used, hi - 1);
    }
  }

  lemma {:induction false} FreeBelowSorted(used: seq<bool>, hi: nat)
    requires hi <= |used|
    ensures forall i, j | 0 <= i < j < |FreeBelow(used, hi)| :: FreeBelow(used, hi)[i] < FreeBelow(used, hi)[j]
  {
    if hi > 0 {
      FreeBelowSorted(used, hi - 1);
      FreeBelowMembers(used, hi - 1);
      var rest := FreeBelow(used, hi - 1);
      forall i | 0 <= i < |rest| ensures rest[i] < hi {
        assert rest[i] in rest;
      }
    }
  }

  lemma {:induction false} FreeBelowPrefix(used: seq<bool>, i: nat, j: nat)
    requires i <= j <= |used|
    ensures FreeBelow(used, i) <= FreeBelow(used, j)
    decreases j
  {
    if i < j {
      FreeBelowPrefix(used, i, j - 1);
    }
  }

  /** The free list holds exactly the free blocks, strictly ascending: its first `n`
      elements are the `n` lowest free blocks. */
  lemma FreeContents(used: seq<bool>)
    ensures forall b :: b in Free(used) <==> 1 <= b <= |used| && !used[b - 1]
    ensures forall i, j | 0 <= i < j < |Free(used)| :: Free(used)[i] < Free(used)[j]
  {
    FreeBelowMembers(used, |used|);
    FreeBelowSorted(used, |used|);
  }

  lemma LowestFree(used: seq<bool>, n: nat, b: nat)
    requires n <= |Free(used)|
    ensures var out := Free(used)[..n];
            b in out <==>
              1 <= b <= |used| && !used[b - 1] && (forall x | x in Free(used) && x !in out :: b < x)
  {
    FreeContents(used);
    var free, out := Free(used), Free(used)[..n];
    TakeHas(free, n);
    if b in out {
      var i :| 0 <= i < n && out[i] == b;
      assert free[i] == b;
      forall x | x in free && x !in out ensures b < x {
        var j :| 0 <= j < |free| && free[j] == x;
      }
      assert b in free;
    } else if 1 <= b <= |used| && !used[b - 1] {
      assert b in free;
    }
  }

  // ---- The allocator ----

  method BitmapGet(a: array<bv8>, idx: nat) returns (v: bool)
    requires idx < 8 * a.Length
    ensures v == Flags(a[..])[idx]
  {
    v := a[idx / 8] & Mask(idx % 8) != 0;
  }

  method BitmapSet(a: array<bv8>, idx: nat, v: bool)
    requires idx < 8 * a.Length
    modifies a
    ensures Flags(a[..]) == Flags(old(a[..]))[idx := v]
  {
    FlagsOfBitPut(a[..], idx, v);
    a[idx / 8] := PutBit(a[idx / 8], idx % 8, v);
    assert a[..] == BitPut(old(a[..]), idx, v);
  }

  /** `free_blocks`: numbers outside the volume are skipped. */
  method FreeBlocks(a: array<bv8>, numBlocks: nat, blocks: seq<nat>)
    requires numBlocks <= 8 * a.Length
    modifies a
    ensures Flags(a[..]) == Mark(Flags(old(a[..])), numBlocks, blocks, false)
  {
    var k := 0;
    while k < |blocks|
      invariant 0 <= k <= |blocks|
      invariant Flags(a[..]) == Mark(Flags(old(a[..])), numBlocks, blocks[..k], false)
    {
      MarkSnoc(Flags(old(a[..])), numBlocks, blocks, k, false);
      if blocks[k] != 0 && blocks[k] <= numBlocks {
        BitmapSet(a, blocks[k] - 1, false);
      }
      k := k + 1;
    }
    assert blocks[..k] == blocks;
  }

  lemma MarkSnoc(used: seq<bool>, n: nat, blocks: seq<nat>, k: nat, v: bool)
    requires k < |blocks| && n <= |used|
    ensures Mark(used, n, blocks[..k + 1], v)
         == if 1 <= blocks[k] <= n then Mark(used, n, blocks[..k], v)[blocks[k] - 1 := v]
            else Mark(used, n, blocks[..k], v)
  {
    assert blocks[..k + 1] == blocks[..k] + [blocks[k]];
  }

  lemma FirstFitStep(flags: seq<bool>, n: nat, i: nat)
    requires i < n <= |flags|
    ensures var used := flags[..n];
            var out := FreeBelow(used, i);
            && Mark(flags, n, out, true)[i] == used[i]
            && FreeBelow(used, i + 1) == (if used[i] then out else out + [i + 1])
            && Mark(flags, n, out + [i + 1], true) == Mark(flags, n, out, true)[i := true]
  {
    var out := FreeBelow(flags[..n], i);
    FreeBelowMembers(flags[..n], i);
    MarkSnoc(flags, n, out + [i + 1], |out|, true);
    assert (out + [i + 1])[..|out|] == out && (out + [i + 1])[..|out| + 1] == out + [i + 1];
  }

  lemma FirstFitDone(used: seq<bool>, i: nat, n: nat)
    requires i <= |used| && |FreeBelow(used, i)| <= n
    requires i == |used| || |FreeBelow(used, i)| == n
    ensures FreeBelow(used, i) == if n <= |Free(used)| then Free(used)[..n] else Free(used)
  {
    FreeBelowPrefix(used, i, |used|);
  }

  /** The search loop: sets the bits of free blocks, lowest first, until it has `n` of them. */
  method FirstFit(a: array<bv8>, numBlocks: nat, n: nat) returns (out: seq<nat>)
    requires numBlocks <= 8 * a.Length
    modifies a
    ensures var free := Free(Flags(old(a[..]))[..numBlocks]);
            out == if n <= |free| then free[..n] else free
    ensures Flags(a[..]) == Mark(Flags(old(a[..])), numBlocks, out, true)
  {
    out := [];
    ghost var flags := Flags(a[..]);
    ghost var used := flags[..numBlocks];
    var i := 0;
    while i < numBlocks && |out| < n
      invariant 0 <= i <= numBlocks && |out| <= n
      invariant out == FreeBelow(used, i)
      invariant Flags(a[..]) == Mark(flags, numBlocks, out, true)
    {
      FirstFitStep(flags, numBlocks, i);
      var taken := BitmapGet(a, i);
      if !taken {
        BitmapSet(a, i, true);
        out := out + [i + 1];
      }
      i := i + 1;
    }
    FirstFitDone(used, i, n);
  }

  /** Clearing the flags of free blocks that were set gives back the flags. */
  lemma UnmarkMark(flags: seq<bool>, n: nat, blocks: seq<nat>)
    requires n <= |flags|
    requires blocks <= Free(flags[..n])
    ensures Mark(Mark(flags, n, blocks, true), n, blocks, false) == flags
  {
    FreeBelowMembers(flags[..n], n);
    forall x | x in blocks ensures 1 <= x <= n && !flags[x - 1] {
      assert x in Free(flags[..n]);
    }
  }

  /** First fit: the `n` lowest free blocks, or none and every byte of the bitmap as it was. */
  method AllocateBlocks(a: array<bv8>, numBlocks: nat, n: nat) returns (out: seq<nat>)
    requires numBlocks <= 8 * a.Length
    modifies a
    ensures var free := Free(Flags(old(a[..]))[..numBlocks]);
            out == if n <= |free| then free[..n] else []
    ensures Flags(a[..]) == Mark(Flags(old(a[..])), numBlocks, out, true)
    ensures out == [] ==> a[..] == old(a[..])
  {
    ghost var b := a[..];
    out := [];
    if n != 0 {
      out := FirstFit(a, numBlocks, n);
      if |out| < n {
        UnmarkMark(Flags(b), numBlocks, out);
        FreeBlocks(a, numBlocks, out);
        FlagsInjective(a[..], b);
        out := [];
      }
    }
    assert out == [] ==> Mark(Flags(b), numBlocks, out, true) == Flags(b);
  }

  /** `free_blocks` of a successful allocation gives back every byte of the bitmap. */
  method AllocateThenFree(a: array<bv8>, numBlocks: nat, n: nat)
    requires numBlocks <= 8 * a.Length
    modifies a
    ensures a[..] == old(a[..])
  {
    ghost var b := a[..];
    var out := AllocateBlocks(a, numBlocks, n);
    UnmarkMark(Flags(b), numBlocks, out);
    FreeBlocks(a, numBlocks, out);
    FlagsInjective(a[..], b);
  }
}
