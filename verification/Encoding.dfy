/** The substitution code applied to file payloads. */
module Encoding {
  import opened Bytes
  import opened Counting

  /** A table with one code byte per byte. */
  type table = m: seq<byte> | |m| == 256 witness seq(256, _ => 0)

  /** A table of zeros means that payloads are stored as they are. */
  predicate Initialized(m: table) {
    exists k :: 0 <= k < 256 && m[k] != 0
  }

  function EncodeByte(m: table, b: byte): byte {
    if Initialized(m) then m[b] else b
  }

  /** The last of the first `hi` bytes whose code is `b`, or 0. */
  function InverseBelow(m: table, b: byte, hi: nat): byte
    requires hi <= 256
  {
    if hi == 0 then 0
    else if m[hi - 1] == b then hi - 1
    else InverseBelow(m, b, hi - 1)
  }

  function DecodeByte(m: table, b: byte): byte {
    if Initialized(m) then InverseBelow(m, b, 256) else b
  }

  function Encode(m: table, s: bytes): (r: bytes)
    ensures |r| == |s|
  {
    seq(|s|, k requires 0 <= k < |s| => EncodeByte(m, s[k]))
  }

  function Decode(m: table, s: bytes): (r: bytes)
    ensures |r| == |s|
  {
    seq(|s|, k requires 0 <= k < |s| => DecodeByte(m, s[k]))
  }

  /** The tables for which the code loses nothing. */
  predicate Lossless(m: table) {
    !Initialized(m) || Distinct(m)
  }

  lemma {:induction false} InverseOfCode(m: table, b: byte, hi: nat)
    requires b < hi <= 256 && Distinct(m)
    ensures InverseBelow(m, m[b], hi) == b
    decreases hi
  {
    if hi - 1 != b {
      InverseOfCode(m, b, hi - 1);
    }
  }

  lemma {:induction false} InverseIsLast(m: table, b: byte, hi: nat)
    requires hi <= 256 && b in m[..hi]
    ensures InverseBelow(m, b, hi) < hi && m[InverseBelow(m, b, hi)] == b
  {
    if m[hi - 1] != b {
      assert m[..hi] == m[..hi - 1] + [m[hi - 1]];
      InverseIsLast(m, b, hi - 1);
    }
  }

  /** A lossless table codes every byte, so decoding then encoding is also the identity. */
  lemma ByteRoundTrips(m: table, b: byte)
    requires Lossless(m)
    ensures DecodeByte(m, EncodeByte(m, b)) == b
    ensures EncodeByte(m, DecodeByte(m, b)) == b
  {
    if Initialized(m) {
      InverseOfCode(m, b, 256);
      Pigeonhole(m, 0, 256);
      assert m[..256] == m;
      InverseIsLast(m, b, 256);
    }
  }

  /** What a byte becomes when it is written and read. */
  function Recode(m: table, b: byte): byte {
    DecodeByte(m, EncodeByte(m, b))
  }

  lemma EncodeDecode(m: table, y: bytes)
    requires Lossless(m)
    ensures Encode(m, Decode(m, y)) == y
  {
    forall k | 0 <= k < |y| ensures Encode(m, Decode(m, y))[k] == y[k] {
      ByteRoundTrips(m, y[k]);
    }
  }

  /** The bytes that are codes, among the codes of the first `k` bytes. */
  function Codes(m: table, k: nat): set<nat>
    requires k <= 256
  {
    if k == 0 then {} else Codes(m, k - 1) + {m[k - 1]}
  }

  lemma {:induction false} CodesHas(m: table, k: nat, b: byte)
    requires k <= 256
    ensures b in Codes(m, k) <==> b in m[..k]
  {
    if k > 0 {
      CodesHas(m, k - 1, b);
      assert m[..k] == m[..k - 1] + [m[k - 1]];
    }
  }

  lemma {:induction false} CodesCard(m: table, k: nat)
    requires k <= 256
    ensures |Codes(m, k)| <= k
  {
    if k > 0 {
      CodesCard(m, k - 1);
    }
  }

  /** With a code that occurs twice there are fewer codes than bytes. */
  lemma {:induction false} RepeatedCode(m: table, i: nat, j: nat, k: nat)
    requires i < j < k <= 256 && m[i] == m[j]
    ensures |Codes(m, k)| < k
    decreases k
  {
    CodesCard(m, k - 1);
    if j == k - 1 {
      TakeHas(m, j);
      CodesHas(m, j, m[i]);
      assert Codes(m, k) == Codes(m, k - 1);
    } else {
      RepeatedCode(m, i, j, k - 1);
    }
  }

  lemma MissingCode(m: table) returns (b: byte)
    requires !Distinct(m)
    ensures b !in Codes(m, 256)
  {
    var i, j :| 0 <= i < j < 256 && m[i] == m[j];
    RepeatedCode(m, i, j, 256);
    RangeCard(0, 256);
    if Range(0, 256) <= Codes(m, 256) {
      SubsetCard(Range(0, 256), Codes(m, 256));
    }
    var c: nat :| c in Range(0, 256) && c !in Codes(m, 256);
    b := c;
  }

  /** So some byte is no code: it does not survive decoding and encoding. */
  lemma BytesWithoutCode(m: table) returns (b: byte)
    requires !Lossless(m)
    ensures EncodeByte(m, DecodeByte(m, b)) != b
  {
    b := MissingCode(m);
    CodesHas(m, 256, b);
    assert m[..256] == m;
    assert m[DecodeByte(m, b)] in m;
  }

  /** Without a table of zeros each byte becomes its code. */
  lemma EncodedIs(m: table, s: bytes, k: nat)
    requires k < |s|
    ensures Encode(m, s)[k] == if exists b :: 0 <= b < 256 && m[b] != 0 then m[s[k]] else s[k]
  {
  }

  /** Each code becomes the last byte that has it, or 0 when no byte has. */
  lemma DecodedIs(m: table, y: bytes, k: nat)
    requires k < |y|
    ensures var r := Decode(m, y)[k];
            if forall b :: 0 <= b < 256 ==> m[b] == 0 then r == y[k]
            else if y[k] in m then m[r] == y[k] && forall b | r < b < 256 :: m[b] != y[k]
            else r == 0
  {
    LastCode(m, y[k], 256);
    assert m[..256] == m;
  }

  lemma {:induction false} LastCode(m: table, b: byte, hi: nat)
    requires hi <= 256
    ensures var r := InverseBelow(m, b, hi);
            if b in m[..hi] then m[r] == b && forall x | r < x < hi :: m[x] != b else r == 0
  {
    if hi > 0 {
      LastCode(m, b, hi - 1);
      assert m[..hi] == m[..hi - 1] + [m[hi - 1]];
    }
  }

  /** Encoding undoes decoding on every input exactly for the lossless tables: only then does
      an edit preserve the stored bytes that it does not write. */
  lemma EncodeDecodeIffLossless(m: table)
    ensures (forall y: bytes :: Encode(m, Decode(m, y)) == y) <==> Lossless(m)
  {
    if Lossless(m) {
      forall y: bytes ensures Encode(m, Decode(m, y)) == y {
        EncodeDecode(m, y);
      }
    } else {
      var b := BytesWithoutCode(m);
      var y: bytes := [b];
      assert Encode(m, Decode(m, y))[0] != y[0];
    }
  }

  lemma DecodeEncode(m: table, x: bytes)
    requires Lossless(m)
    ensures Decode(m, Encode(m, x)) == x
  {
    forall k | 0 <= k < |x| ensures Decode(m, Encode(m, x))[k] == x[k] {
      ByteRoundTrips(m, x[k]);
    }
  }

  /** Decoding undoes encoding on every input exactly for the lossless tables. */
  lemma RoundTripIffLossless(m: table)
    ensures (forall x: bytes :: Decode(m, Encode(m, x)) == x) <==> Lossless(m)
  {
    if Lossless(m) {
      forall x: bytes ensures Decode(m, Encode(m, x)) == x {
        DecodeEncode(m, x);
      }
    } else {
      var i, j :| 0 <= i < j < 256 && m[i] == m[j];
      var x: bytes, y: bytes := [i], [j];
      assert Encode(m, x) == Encode(m, y);
      assert x[0] != y[0];
    }
  }

  lemma CodeOfRange(m: table, s: bytes, lo: nat, hi: nat)
    requires lo <= hi <= |s|
    ensures Decode(m, s[lo..hi]) == Decode(m, s)[lo..hi]
    ensures Encode(m, s[lo..hi]) == Encode(m, s)[lo..hi]
  {
  }

  method EncodingInitialized(m: table) returns (r: bool)
    ensures r == Initialized(m)
  {
    for i := 0 to 256
      invariant forall k | 0 <= k < i :: m[k] == 0
    {
      if m[i] != 0 {
        return true;
      }
    }
    return false;
  }

  method EncodeData(m: table, input: bytes) returns (out: bytes)
    ensures out == Encode(m, input)
  {
    var coded := EncodingInitialized(m);
    if !coded {
      assert Encode(m, input) == input;
      return input;
    }
    out := [];
    for i := 0 to |input|
      invariant out == Encode(m, input)[..i]
    {
      out := out + [m[input[i]]];
    }
  }

  /** The inverse table, filled in ascending order so that later bytes win. */
  method BuildInverse(m: table) returns (inv: array<byte>)
    ensures fresh(inv) && inv.Length == 256
    ensures forall b: byte :: inv[b] == InverseBelow(m, b, 256)
  {
    inv := new byte[256](_ => 0);
    for i := 0 to 256
      invariant forall b: byte :: inv[b] == InverseBelow(m, b, i)
    {
      inv[m[i]] := i;
    }
  }

  method DecodeData(m: table, input: bytes) returns (out: bytes)
    ensures out == Decode(m, input)
  {
    var coded := EncodingInitialized(m);
    if !coded {
      assert Decode(m, input) == input;
      return input;
    }
    var inv := BuildInverse(m);
    out := [];
    for i := 0 to |input|
      invariant out == Decode(m, input)[..i]
    {
      out := out + [inv[input[i]]];
    }
  }
}
