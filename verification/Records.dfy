/** The packed records of the volume image, and tables of them. */
module Records {
  import opened Bytes
  import opened Tree
  import opened State
  import opened Chains

  // ---- Fields side by side ----

  function Concat(fs: seq<bytes>): bytes {
    if fs == [] then [] else fs[0] + Concat(fs[1..])
  }

  function Drop<T>(s: seq<T>, n: nat): seq<T> {
    if n <= |s| then s[n..] else []
  }

  /** Consecutive pieces of `s` with the given widths. */
  function Split(ws: seq<nat>, s: bytes): (r: seq<bytes>)
    ensures |r| == |ws|
  {
    if ws == [] then [] else [Take(s, ws[0])] + Split(ws[1..], Drop(s, ws[0]))
  }

  predicate Widths(fs: seq<bytes>, ws: seq<nat>) {
    |fs| == |ws| && forall k | 0 <= k < |fs| :: |fs[k]| == ws[k]
  }

  lemma {:induction false} SplitConcat(fs: seq<bytes>, ws: seq<nat>)
    requires Widths(fs, ws)
    ensures Split(ws, Concat(fs)) == fs
  {
    if fs != [] {
      var rest := Concat(fs[1..]);
      assert Take(fs[0] + rest, ws[0]) == fs[0] && Drop(fs[0] + rest, ws[0]) == rest;
      assert Widths(fs[1..], ws[1..]);
      SplitConcat(fs[1..], ws[1..]);
      assert fs == [fs[0]] + fs[1..];
    }
  }

  /** The widths of the first `k` fields. */
  function Upto(ws: seq<nat>, k: nat): nat
    requires k <= |ws|
  {
    if k == 0 then 0 else Upto(ws, k - 1) + ws[k - 1]
  }

  lemma {:induction false} UptoFirst(ws: seq<nat>, k: nat)
    requires 0 < k <= |ws|
    ensures Upto(ws, k) == ws[0] + Upto(ws[1..], k - 1)
  {
    if k > 1 {
      UptoFirst(ws, k - 1);
    } else {
      assert Upto(ws, 1) == Upto(ws, 0) + ws[0];
    }
  }

  /** Field `k` lies where the fields before it end. */
  lemma {:induction false} ConcatAt(fs: seq<bytes>, ws: seq<nat>, k: nat)
    requires Widths(fs, ws) && k < |fs|
    ensures var at := Upto(ws, k); at + ws[k] <= |Concat(fs)| && Concat(fs)[at..at + ws[k]] == fs[k]
  {
    var rest := Concat(fs[1..]);
    if k == 0 {
      assert (fs[0] + rest)[..ws[0]] == fs[0];
    } else {
      assert Widths(fs[1..], ws[1..]);
      ConcatAt(fs[1..], ws[1..], k - 1);
      UptoFirst(ws, k);
      var at := Upto(ws[1..], k - 1);
      assert (fs[0] + rest)[ws[0] + at..ws[0] + at + ws[k]] == rest[at..at + ws[k]];
    }
  }

  lemma {:induction false} SplitAtWidth(ws: seq<nat>, s: bytes, k: nat)
    requires k < |ws| && Upto(ws, k) + ws[k] <= |s|
    ensures Split(ws, s)[k] == s[Upto(ws, k)..Upto(ws, k) + ws[k]]
  {
    if k > 0 {
      UptoFirst(ws, k);
      var at, rest := Upto(ws[1..], k - 1), Drop(s, ws[0]);
      SplitAtWidth(ws[1..], rest, k - 1);
      assert rest[at..at + ws[k]] == s[ws[0] + at..ws[0] + at + ws[k]];
    }
  }

  // ---- Tables ----

  function Pack<T>(f: T -> bytes, xs: seq<T>): bytes {
    if xs == [] then [] else Pack(f, xs[..|xs| - 1]) + f(xs[|xs| - 1])
  }

  function Unpack<T>(g: bytes -> T, w: nat, s: bytes, n: nat): (r: seq<T>)
    requires n * w <= |s|
    ensures |r| == n
  {
    seq(n, k requires 0 <= k < n =>
      MulStep(k, n, w);
      g(s[k * w..k * w + w]))
  }

  predicate AllSize<T>(f: T -> bytes, w: nat, xs: seq<T>) {
    forall k | 0 <= k < |xs| :: |f(xs[k])| == w
  }

  lemma {:induction false} PackSize<T>(f: T -> bytes, w: nat, xs: seq<T>)
    requires AllSize(f, w, xs)
    ensures |Pack(f, xs)| == |xs| * w
  {
    if xs != [] {
      var n := |xs| - 1;
      PackSize(f, w, xs[..n]);
      assert |xs| * w == n * w + w;
    }
  }

  lemma SliceOfLeft(a: bytes, b: bytes, lo: nat, hi: nat)
    requires lo <= hi <= |a|
    ensures (a + b)[lo..hi] == a[lo..hi]
  {
  }

  lemma SliceOfRight(a: bytes, b: bytes)
    ensures (a + b)[|a|..|a| + |b|] == b
  {
  }

  lemma PackLast<T>(f: T -> bytes, w: nat, xs: seq<T>)
    requires AllSize(f, w, xs) && xs != []
    ensures var n := |xs| - 1;
            && Pack(f, xs) == Pack(f, xs[..n]) + f(xs[n]) && |Pack(f, xs[..n])| == n * w && |f(xs[n])| == w
            && AllSize(f, w, xs[..n])
  {
    PackSize(f, w, xs[..|xs| - 1]);
  }

  lemma {:induction false} PackAt<T>(f: T -> bytes, w: nat, xs: seq<T>, k: nat)
    requires AllSize(f, w, xs) && k < |xs|
    ensures k * w + w <= |Pack(f, xs)| && Pack(f, xs)[k * w..k * w + w] == f(xs[k])
  {
    var n := |xs| - 1;
    PackLast(f, w, xs);
    var a, b := Pack(f, xs[..n]), f(xs[n]);
    if k < n {
      PackAt(f, w, xs[..n], k);
      SliceOfLeft(a, b, k * w, k * w + w);
    } else {
      SliceOfRight(a, b);
      assert k * w == |a|;
    }
  }

  /** A table read back is the table written. */
  lemma UnpackPack<T>(f: T -> bytes, g: bytes -> T, w: nat, xs: seq<T>)
    requires AllSize(f, w, xs) && forall k | 0 <= k < |xs| :: g(f(xs[k])) == xs[k]
    ensures |Pack(f, xs)| == |xs| * w && Unpack(g, w, Pack(f, xs), |xs|) == xs
  {
    PackSize(f, w, xs);
    forall k | 0 <= k < |xs| ensures Unpack(g, w, Pack(f, xs), |xs|)[k] == xs[k] {
      PackAt(f, w, xs, k);
    }
  }

  // ---- Metadata entries: 72 bytes ----

  /** `get_name`: up to the first NUL. */
  function UpToNul(s: bytes): (r: bytes)
    ensures |r| <= |s|
  {
    if s == [] || s[0] == 0 then [] else [s[0]] + UpToNul(s[1..])
  }

  lemma {:induction false} NameRoundTrip(name: bytes, n: nat)
    requires 0 !in name
    ensures UpToNul(name + Zeros(n)) == name
  {
    if name == [] {
      assert name + Zeros(n) == Zeros(n);
    } else {
      assert (name + Zeros(n))[1..] == name[1..] + Zeros(n);
      NameRoundTrip(name[1..], n);
    }
  }

  const ENTRY_WIDTHS: seq<nat> := [1, 1, 4, 12, 4, 8, 4, 4, 8, 8, 18]

  function EntryFields(e: MetaEntry): (fs: seq<bytes>)
    ensures Widths(fs, ENTRY_WIDTHS)
  {
    [Le(e.valid, 1), Le(e.kind, 1), Le(e.parent, 4), PadTo(e.name, 12), Le(e.start, 4), Le(e.size, 8),
     Le(e.owner, 4), Le(e.permissions, 4), Le(e.created, 8), Le(e.modified, 8), PadTo(e.reserved, 18)]
  }

  function EntryOf(fs: seq<bytes>): MetaEntry
    requires |fs| == 11
  {
    MetaEntry(UnLe(fs[0]), UnLe(fs[1]), UnLe(fs[2]), UpToNul(fs[3]), UnLe(fs[4]), UnLe(fs[5]),
              UnLe(fs[6]), UnLe(fs[7]), UnLe(fs[8]), UnLe(fs[9]), fs[10])
  }

  function EntryBytes(e: MetaEntry): bytes {
    Concat(EntryFields(e))
  }

  function ParseEntry(s: bytes): MetaEntry {
    EntryOf(Split(ENTRY_WIDTHS, s))
  }

  lemma Le4(x: nat)
    requires x < U32
    ensures UnLe(Le(x, 4)) == x
  {
    Pow256Values();
    LeRoundTrip(x, 4);
  }

  lemma Le8(x: nat)
    requires x < U64
    ensures UnLe(Le(x, 8)) == x
  {
    Pow256Values();
    LeRoundTrip(x, 8);
  }

  lemma Le1(x: nat)
    requires x < 256
    ensures UnLe(Le(x, 1)) == x
  {
    Pow256Values();
    LeRoundTrip(x, 1);
  }

  lemma EntryRoundTrip(e: MetaEntry)
    requires TypedEntry(e)
    ensures ParseEntry(EntryBytes(e)) == e
  {
    SplitConcat(EntryFields(e), ENTRY_WIDTHS);
    Le1(e.valid);
    Le1(e.kind);
    Le4(e.parent);
    NameRoundTrip(e.name, 12 - |e.name|);
    Le4(e.start);
    Le8(e.size);
    Le4(e.owner);
    Le4(e.permissions);
    Le8(e.created);
    Le8(e.modified);
  }

  lemma {:induction false} ConcatSize(fs: seq<bytes>, ws: seq<nat>)
    requires Widths(fs, ws)
    ensures |Concat(fs)| == Sum(ws)
  {
    if fs != [] {
      assert Widths(fs[1..], ws[1..]);
      ConcatSize(fs[1..], ws[1..]);
    }
  }

  lemma {:induction false} SplitWidths(ws: seq<nat>, s: bytes)
    requires Sum(ws) <= |s|
    ensures Widths(Split(ws, s), ws)
  {
    if ws != [] {
      SplitWidths(ws[1..], Drop(s, ws[0]));
    }
  }

  /** The same sum, from field `k` on. */
  function SumFrom(ws: seq<nat>, k: nat): nat
    requires k <= |ws|
    decreases |ws| - k
  {
    if k == |ws| then 0 else ws[k] + SumFrom(ws, k + 1)
  }

  lemma {:induction false} SumFromIs(ws: seq<nat>, k: nat)
    requires k <= |ws|
    ensures SumFrom(ws, k) == Sum(ws[k..])
    decreases |ws| - k
  {
    if k < |ws| {
      SumFromIs(ws, k + 1);
      assert ws[k..][1..] == ws[k + 1..];
    }
  }

  function Sum(ws: seq<nat>): nat {
    if ws == [] then 0 else ws[0] + Sum(ws[1..])
  }

  lemma EntrySize(e: MetaEntry)
    ensures |EntryBytes(e)| == 72
  {
    ConcatSize(EntryFields(e), ENTRY_WIDTHS);
    EntryWidthSum(ENTRY_WIDTHS);
  }

  lemma EntryWidthSum(w: seq<nat>)
    requires w == ENTRY_WIDTHS
    ensures Sum(w) == 72
  {
    assert w[0..] == w;
    SumFromIs(w, 0);
    assert SumFrom(w, 7) == 38;
    assert SumFrom(w, 4) == 54;
  }

  // ---- Users: 128 bytes ----

  datatype UserInfo = UserInfo(
    username: bytes, passwordHash: bytes, role: nat, created: nat, lastLogin: nat, active: nat, reserved: bytes)

  const USER_WIDTHS: seq<nat> := [32, 64, 4, 8, 8, 1, 11]

  predicate TypedUser(u: UserInfo) {
    && |u.username| == 32 && |u.passwordHash| == 64 && u.role < U32 && u.created < U64 && u.lastLogin < U64
    && u.active < 256 && |u.reserved| == 11
  }

  function UserFields(u: UserInfo): (fs: seq<bytes>)
    ensures Widths(fs, USER_WIDTHS)
  {
    [PadTo(u.username, 32), PadTo(u.passwordHash, 64), Le(u.role, 4), Le(u.created, 8), Le(u.lastLogin, 8),
     Le(u.active, 1), PadTo(u.reserved, 11)]
  }

  function UserOf(fs: seq<bytes>): UserInfo
    requires |fs| == 7
  {
    UserInfo(fs[0], fs[1], UnLe(fs[2]), UnLe(fs[3]), UnLe(fs[4]), UnLe(fs[5]), fs[6])
  }

  function UserBytes(u: UserInfo): bytes {
    Concat(UserFields(u))
  }

  function ParseUser(s: bytes): UserInfo {
    UserOf(Split(USER_WIDTHS, s))
  }

  lemma UserRoundTrip(u: UserInfo)
    requires TypedUser(u)
    ensures ParseUser(UserBytes(u)) == u
  {
    SplitConcat(UserFields(u), USER_WIDTHS);
    Le4(u.role);
    Le8(u.created);
    Le8(u.lastLogin);
    Le1(u.active);
  }

  lemma UserSize(u: UserInfo)
    ensures |UserBytes(u)| == 128
  {
    ConcatSize(UserFields(u), USER_WIDTHS);
    assert USER_WIDTHS[1..][1..][1..] == [8, 8, 1, 11];
    assert Sum([8, 8, 1, 11]) == 28 by {
      assert [8, 8, 1, 11][1..][1..] == [1, 11];
    }
  }

  // ---- The header: 512 bytes ----

  datatype Header = Header(
    magic: bytes, version: nat, totalSize: nat, headerSize: nat, blockSize: nat, studentId: bytes,
    submissionDate: bytes, configHash: bytes, configTime: nat, userTable: nat, maxUsers: nat,
    metadata: nat, bitmap: nat, reserved: bytes)

  const HEADER_WIDTHS: seq<nat> := [8, 4, 8, 8, 8, 32, 16, 64, 8, 4, 4, 4, 4, 340]

  predicate TypedHeader(h: Header) {
    && |h.magic| == 8 && h.version < U32 && h.totalSize < U64 && h.headerSize < U64 && h.blockSize < U64
    && |h.studentId| == 32 && |h.submissionDate| == 16 && |h.configHash| == 64 && h.configTime < U64
    && h.userTable < U32 && h.maxUsers < U32 && h.metadata < U32 && h.bitmap < U32 && |h.reserved| == 340
  }

  function HeaderFields(h: Header): (fs: seq<bytes>)
    ensures Widths(fs, HEADER_WIDTHS)
  {
    [PadTo(h.magic, 8), Le(h.version, 4), Le(h.totalSize, 8), Le(h.headerSize, 8), Le(h.blockSize, 8),
     PadTo(h.studentId, 32), PadTo(h.submissionDate, 16), PadTo(h.configHash, 64), Le(h.configTime, 8),
     Le(h.userTable, 4), Le(h.maxUsers, 4),
     Le(h.metadata, 4), Le(h.bitmap, 4), PadTo(h.reserved, 340)]
  }

  function HeaderOf(fs: seq<bytes>): Header
    requires |fs| == 14
  {
    Header(fs[0], UnLe(fs[1]), UnLe(fs[2]), UnLe(fs[3]), UnLe(fs[4]), fs[5], fs[6], fs[7], UnLe(fs[8]),
           UnLe(fs[9]), UnLe(fs[10]), UnLe(fs[11]), UnLe(fs[12]), fs[13])
  }

  function HeaderBytes(h: Header): bytes {
    Concat(HeaderFields(h))
  }

  function ParseHeader(s: bytes): Header {
    HeaderOf(Split(HEADER_WIDTHS, s))
  }

  lemma HeaderRoundTrip(h: Header)
    requires TypedHeader(h)
    ensures ParseHeader(HeaderBytes(h)) == h
  {
    SplitConcat(HeaderFields(h), HEADER_WIDTHS);
    Le4(h.version);
    Le8(h.totalSize);
    Le8(h.headerSize);
    Le8(h.blockSize);
    Le8(h.configTime);
    Le4(h.userTable);
    Le4(h.maxUsers);
    Le4(h.metadata);
    Le4(h.bitmap);
  }

  lemma HeaderSize(h: Header)
    ensures |HeaderBytes(h)| == 512
  {
    ConcatSize(HeaderFields(h), HEADER_WIDTHS);
    HeaderWidthSum(HEADER_WIDTHS);
  }

  /** Every field of a header that is read in full has its width. */
  lemma ReservedSize(s: bytes)
    requires |s| == 512
    ensures |ParseHeader(s).reserved| == 340
  {
    HeaderWidthSum(HEADER_WIDTHS);
    SplitWidths(HEADER_WIDTHS, s);
  }

  lemma HeaderWidthSum(w: seq<nat>)
    requires w == HEADER_WIDTHS
    ensures Sum(w) == 512
  {
    WidthsSum(w);
  }

  lemma WidthsSum(w: seq<nat>)
    requires |w| == 14 && w[0] == 8 && w[1] == 4 && w[2] == 8 && w[3] == 8 && w[4] == 8 && w[5] == 32 && w[6] == 16
    requires w[7] == 64 && w[8] == 8 && w[9] == 4 && w[10] == 4 && w[11] == 4 && w[12] == 4 && w[13] == 340
    ensures Sum(w) == 512
  {
    SumFromIs(w, 0);
    assert w[0..] == w;
    assert SumFrom(w, 13) == 340;
    assert SumFrom(w, 11) == 348;
    assert SumFrom(w, 9) == 356;
    assert SumFrom(w, 7) == 428;
    assert SumFrom(w, 5) == 476;
    assert SumFrom(w, 3) == 492;
    assert SumFrom(w, 1) == 504;
  }

  // ---- The bitmap: its own bytes ----

  function BitsByte(x: bv8): bytes {
    [x as nat]
  }

  function ParseBits(s: bytes): bv8 {
    if s == [] then 0 else s[0] as bv8
  }

  lemma BitsRoundTrip(x: bv8)
    ensures ParseBits(BitsByte(x)) == x && |BitsByte(x)| == 1
  {
  }
}
