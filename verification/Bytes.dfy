/** Machine integers and byte strings: little-endian fields, and writes into a byte image. */
module Bytes {
  type byte = x: nat | x < 256
  type bytes = seq<byte>

  const U32: nat := 0x1_0000_0000
  const U64: nat := 0x1_0000_0000_0000_0000

  function Pow256(n: nat): (r: nat)
    ensures r > 0
  {
    if n == 0 then 1 else 256 * Pow256(n - 1)
  }

  lemma Pow256Values()
    ensures Pow256(1) == 256 && Pow256(4) == U32 && Pow256(8) == U64
  {
    assert Pow256(2) == 0x1_0000 && Pow256(3) == 0x100_0000;
    assert Pow256(4) == U32;
    assert Pow256(5) == 0x100_0000_0000 && Pow256(6) == 0x1_0000_0000_0000;
    assert Pow256(7) == 0x100_0000_0000_0000;
  }

  /** The `n` bytes of `x`, least significant first. */
  function Le(x: nat, n: nat): (r: bytes)
    ensures |r| == n
  {
    if n == 0 then [] else [x % 256] + Le(x / 256, n - 1)
  }

  function UnLe(s: bytes): (r: nat)
    ensures r < Pow256(|s|)
  {
    if s == [] then 0 else s[0] + 256 * UnLe(s[1..])
  }

  /** The last byte of a field is the most significant one. */
  lemma {:induction false} UnLeLast(s: bytes)
    requires s != []
    ensures UnLe(s) == UnLe(s[..|s| - 1]) + s[|s| - 1] * Pow256(|s| - 1)
  {
    if |s| > 1 {
      var t := s[1..];
      UnLeLast(t);
      assert t[..|t| - 1] == s[..|s| - 1][1..];
      Scaled(s[|s| - 1], Pow256(|s| - 2));
      assert UnLe(s[..|s| - 1]) == s[0] + 256 * UnLe(t[..|t| - 1]);
    }
  }

  lemma Scaled(x: nat, p: nat)
    ensures x * (256 * p) == 256 * (x * p)
  {
  }

  lemma {:induction false} LeRoundTrip(x: nat, n: nat)
    requires x < Pow256(n)
    ensures UnLe(Le(x, n)) == x
  {
    if n > 0 {
      LeRoundTrip(x / 256, n - 1);
      assert Le(x, n)[1..] == Le(x / 256, n - 1);
    }
  }

  function Zeros(n: nat): (r: bytes)
    ensures |r| == n && forall k | 0 <= k < n :: r[k] == 0
  {
    seq(n, k => 0)
  }

  /** `s` in a field of `n` bytes: filled up with zeros, or cut. */
  function PadTo(s: bytes, n: nat): (r: bytes)
    ensures |r| == n
  {
    if |s| <= n then s + Zeros(n - |s|) else s[..n]
  }

  /** The image `d` after `data` is written at `pos`. */
  function Patch(d: bytes, pos: nat, data: bytes): (r: bytes)
    requires pos + |data| <= |d|
    ensures |r| == |d|
    ensures r[pos..pos + |data|] == data
    ensures forall k | 0 <= k < |d| && !(pos <= k < pos + |data|) :: r[k] == d[k]
  {
    d[..pos] + data + d[pos + |data|..]
  }

  /** A write leaves every range that it does not touch. */
  lemma PatchElsewhere(d: bytes, pos: nat, data: bytes, lo: nat, hi: nat)
    requires pos + |data| <= |d| && lo <= hi <= |d|
    requires hi <= pos || pos + |data| <= lo
    ensures Patch(d, pos, data)[lo..hi] == d[lo..hi]
  {
  }

  /** The write of `data` into an array of bytes, the model of `seekp` and `write`. */
  method WriteAt(a: array<byte>, pos: nat, data: bytes)
    requires pos + |data| <= a.Length
    modifies a
    ensures a[..] == Patch(old(a[..]), pos, data)
  {
    forall k | 0 <= k < |data| {
      a[pos + k] := data[k];
    }
  }

  lemma TakeHas<T>(s: seq<T>, n: nat)
    requires n <= |s|
    ensures forall k | 0 <= k < n :: s[k] in s[..n]
  {
    forall k | 0 <= k < n ensures s[k] in s[..n] {
      assert s[..n][k] == s[k];
    }
  }

  lemma Assoc<T>(a: seq<T>, b: seq<T>, c: seq<T>)
    ensures a + b + c == a + (b + c)
  {
  }
}
