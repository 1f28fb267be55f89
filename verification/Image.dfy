/** The whole volume image: what `fs_shutdown` writes and what `fs_init` reads. */
module Image {
  import opened Bytes
  import opened Wrappers
  import opened Bitmap
  import opened Chains
  import opened Tree
  import opened State
  import opened Records
  import opened Layout
  import opened Disk

  const MAGIC: bytes := [79, 77, 78, 73, 70, 83, 48, 49]  // OMNIFS01

  /** What a mounted instance holds in memory, except for the index, which is rebuilt. */
  datatype Mounted = Mounted(
    header: Header, users: seq<UserInfo>, meta: table, bitmap: bits, numBlocks: nat, blocksOffset: nat, next: nat)

  /** The code table and the next entry number live in the reserved bytes of the header. */
  function CodeTable(h: Header): bytes {
    if |h.reserved| == 340 then h.reserved[64..320] else []
  }

  function NextIndex(h: Header): nat {
    if |h.reserved| == 340 && UnLe(h.reserved[320..328]) != 0 then UnLe(h.reserved[320..328]) else 2
  }

  function WithNext(h: Header, next: nat): (r: Header) {
    if |h.reserved| == 340 then h.(reserved := Patch(h.reserved, 320, Le(next, 8))) else h
  }

  lemma WithNextKeeps(h: Header, next: nat)
    requires TypedHeader(h) && 0 < next < U64
    ensures TypedHeader(WithNext(h, next)) && NextIndex(WithNext(h, next)) == next
    ensures CodeTable(WithNext(h, next)) == CodeTable(h)
  {
    Le8(next);
    PatchElsewhere(h.reserved, 320, Le(next, 8), 64, 320);
  }

  /** The bytes that `fs_init` divides into blocks, in 64-bit arithmetic that wraps. */
  function Candidate(h: Header, metaCount: nat): nat {
    (h.totalSize - h.headerSize - h.maxUsers * USER_BYTES - metaCount * META_BYTES) % U64
  }

  /** How the regions of a mounted volume lie: in order, without overlap, inside the image. */
  predicate Regions(m: Mounted, size: nat) {
    var h := m.header;
    && TypedHeader(h) && 128 <= h.blockSize < U32
    && HEADER_BYTES <= h.userTable
    && |m.users| == h.maxUsers && h.userTable + h.maxUsers * USER_BYTES <= h.metadata
    && 1 <= |m.meta| < U32 && h.metadata + |m.meta| * META_BYTES == h.bitmap
    && m.blocksOffset == h.bitmap + |m.bitmap| < U32
    && Pos(m.blocksOffset, h.blockSize, m.numBlocks) <= size
    && 0 < m.next < U64
  }

  /** The counts are the ones that `fs_init` computes from the header. */
  predicate Counts(m: Mounted) {
    var h := m.header;
    && h.magic == MAGIC && h.blockSize > 0
    && Candidate(h, |m.meta|) >= h.blockSize
    && m.numBlocks == Candidate(h, |m.meta|) / h.blockSize < U32
    && |m.bitmap| == BitmapBytes(m.numBlocks)
  }

  predicate Geometry(m: Mounted, size: nat) {
    Regions(m, size) && Counts(m)
  }

  /** The same, said of the header of an instance and the sizes of its parts. */
  predicate HeaderFits(h: Header, users: nat, metas: nat, bitmapBytes: nat, numBlocks: nat, bs: nat, metadata: nat,
                       bitmap: nat)
  {
    && TypedHeader(h) && h.magic == MAGIC && h.blockSize == bs > 0
    && HEADER_BYTES <= h.userTable && users == h.maxUsers && h.userTable + users * USER_BYTES <= metadata
    && h.metadata == metadata && h.bitmap == bitmap && bitmap + bitmapBytes < U32
    && Candidate(h, metas) >= bs && numBlocks == Candidate(h, metas) / bs
  }

  lemma WithNextFits(h: Header, next: nat, users: nat, metas: nat, bitmapBytes: nat, numBlocks: nat, bs: nat,
                     metadata: nat, bitmap: nat)
    requires HeaderFits(h, users, metas, bitmapBytes, numBlocks, bs, metadata, bitmap)
    ensures HeaderFits(WithNext(h, next), users, metas, bitmapBytes, numBlocks, bs, metadata, bitmap)
    ensures CodeTable(WithNext(h, next)) == CodeTable(h)
  {
    PatchElsewhere(h.reserved, 320, Le(next, 8), 64, 320);
  }

  predicate TypedTables(m: Mounted) {
    && (forall k | 0 <= k < |m.users| :: TypedUser(m.users[k]))
    && (forall k | 0 <= k < |m.meta| :: TypedEntry(m.meta[k]))
  }

  // ---- Writing ----

  function UserTable(users: seq<UserInfo>): bytes {
    Pack(UserBytes, users)
  }

  function MetaTable(meta: table): bytes {
    Pack(EntryBytes, meta)
  }

  function BitmapTable(b: bits): bytes {
    Pack(BitsByte, b)
  }

  lemma TableSizes(users: seq<UserInfo>, meta: table, b: bits)
    ensures |UserTable(users)| == |users| * USER_BYTES && |MetaTable(meta)| == |meta| * META_BYTES
    ensures |BitmapTable(b)| == |b|
  {
    forall k | 0 <= k < |users| ensures |UserBytes(users[k])| == USER_BYTES {
      UserSize(users[k]);
    }
    forall k | 0 <= k < |meta| ensures |EntryBytes(meta[k])| == META_BYTES {
      EntrySize(meta[k]);
    }
    PackSize(UserBytes, USER_BYTES, users);
    PackSize(EntryBytes, META_BYTES, meta);
    PackSize(BitsByte, 1, b);
  }

  lemma UserTableBack(users: seq<UserInfo>)
    requires forall k | 0 <= k < |users| :: TypedUser(users[k])
    ensures |UserTable(users)| == |users| * USER_BYTES
    ensures Unpack(ParseUser, USER_BYTES, UserTable(users), |users|) == users
  {
    forall k | 0 <= k < |users|
      ensures |UserBytes(users[k])| == USER_BYTES && ParseUser(UserBytes(users[k])) == users[k]
    {
      UserRoundTrip(users[k]);
      UserSize(users[k]);
    }
    UnpackPack(UserBytes, ParseUser, USER_BYTES, users);
  }

  lemma MetaTableBack(meta: table)
    requires forall k | 0 <= k < |meta| :: TypedEntry(meta[k])
    ensures |MetaTable(meta)| == |meta| * META_BYTES
    ensures Unpack(ParseEntry, META_BYTES, MetaTable(meta), |meta|) == meta
  {
    forall k | 0 <= k < |meta|
      ensures |EntryBytes(meta[k])| == META_BYTES && ParseEntry(EntryBytes(meta[k])) == meta[k]
    {
      EntryRoundTrip(meta[k]);
      EntrySize(meta[k]);
    }
    UnpackPack(EntryBytes, ParseEntry, META_BYTES, meta);
  }

  lemma BitmapTableBack(b: bits)
    ensures |BitmapTable(b)| == |b|
    ensures Unpack(ParseBits, 1, BitmapTable(b), |b|) == b
  {
    forall k | 0 <= k < |b| ensures |BitsByte(b[k])| == 1 && ParseBits(BitsByte(b[k])) == b[k] {
      BitsRoundTrip(b[k]);
    }
    UnpackPack(BitsByte, ParseBits, 1, b);
  }

  datatype Put = Put(pos: nat, data: bytes)

  /** Writes in order, each if it fits. */
  function Write(d: bytes, p: Put): (r: bytes)
    ensures |r| == |d|
  {
    if p.pos + |p.data| <= |d| then Patch(d, p.pos, p.data) else d
  }

  /** A write behind the front leaves it. */
  lemma FrontStays(d: bytes, n: nat, pos: nat, data: bytes)
    requires n <= pos && pos + |data| <= |d|
    ensures Patch(d, pos, data)[..n] == d[..n]
  {
    PatchElsewhere(d, pos, data, 0, n);
  }

  /** A write into the front is a write into it alone. */
  lemma FrontWritten(d: bytes, n: nat, pos: nat, data: bytes)
    requires pos + |data| <= n <= |d|
    ensures Patch(d, pos, data)[..n] == Write(d[..n], Put(pos, data))
  {
  }

  function Writes(d: bytes, ps: seq<Put>): (r: bytes)
    ensures |r| == |d|
  {
    if ps == [] then d else Write(Writes(d, ps[..|ps| - 1]), ps[|ps| - 1])
  }

  lemma FourWrites(d: bytes, ps: seq<Put>)
    requires |ps| == 4
    ensures Writes(d, ps) == Write(Write(Write(Write(d, ps[0]), ps[1]), ps[2]), ps[3])
  {
    assert ps[..3][..2] == ps[..2] && ps[..2][..1] == ps[..1];
    assert Writes(d, ps[..1]) == Write(d, ps[0]);
    assert Writes(d, ps[..2]) == Write(Writes(d, ps[..1]), ps[1]);
    assert Writes(d, ps[..3]) == Write(Writes(d, ps[..2]), ps[2]);
  }

  predicate Misses(p: Put, lo: nat, hi: nat) {
    hi <= p.pos || p.pos + |p.data| <= lo
  }

  lemma {:induction false} WritesMiss(d: bytes, ps: seq<Put>, lo: nat, hi: nat)
    requires lo <= hi <= |d| && forall k | 0 <= k < |ps| :: Misses(ps[k], lo, hi)
    ensures Writes(d, ps)[lo..hi] == d[lo..hi]
  {
    if ps != [] {
      var n := |ps| - 1;
      WritesMiss(d, ps[..n], lo, hi);
      assert Misses(ps[n], lo, hi);
    }
  }

  /** A write that no later one overlaps can be read back. */
  lemma {:induction false} WritesHit(d: bytes, ps: seq<Put>, j: nat)
    requires j < |ps| && ps[j].pos + |ps[j].data| <= |d|
    requires forall k | j < k < |ps| :: Misses(ps[k], ps[j].pos, ps[j].pos + |ps[j].data|)
    ensures Writes(d, ps)[ps[j].pos..ps[j].pos + |ps[j].data|] == ps[j].data
  {
    var n := |ps| - 1;
    if j < n {
      WritesHit(d, ps[..n], j);
      assert Misses(ps[n], ps[j].pos, ps[j].pos + |ps[j].data|);
    }
  }

  predicate FourPuts(ps: seq<Put>, a: bytes, p2: nat, b: bytes, p3: nat, c: bytes, p4: nat, e: bytes) {
    |ps| == 4 && ps[0] == Put(0, a) && ps[1] == Put(p2, b) && ps[2] == Put(p3, c) && ps[3] == Put(p4, e)
  }

  predicate Ascending(a: bytes, p2: nat, b: bytes, p3: nat, c: bytes, p4: nat, e: bytes, size: nat) {
    |a| <= p2 && p2 + |b| <= p3 && p3 + |c| <= p4 && p4 + |e| <= size
  }

  /** Four writes in ascending order that do not overlap can each be read back. */
  lemma FourApart(ps: seq<Put>, a: bytes, p2: nat, b: bytes, p3: nat, c: bytes, p4: nat, e: bytes, size: nat, j: nat)
    requires FourPuts(ps, a, p2, b, p3, c, p4, e) && Ascending(a, p2, b, p3, c, p4, e, size) && j < 4
    ensures ps[j].pos + |ps[j].data| <= size
    ensures forall k | j < k < |ps| :: Misses(ps[k], ps[j].pos, ps[j].pos + |ps[j].data|)
  {
  }

  lemma FourHit(d: bytes, ps: seq<Put>, a: bytes, p2: nat, b: bytes, p3: nat, c: bytes, p4: nat, e: bytes, j: nat,
                pos: nat, data: bytes)
    requires FourPuts(ps, a, p2, b, p3, c, p4, e) && Ascending(a, p2, b, p3, c, p4, e, |d|)
    requires j < 4 && ps[j] == Put(pos, data)
    ensures pos + |data| <= |d| && Writes(d, ps)[pos..pos + |data|] == data
  {
    FourApart(ps, a, p2, b, p3, c, p4, e, |d|, j);
    WritesHit(d, ps, j);
  }

  lemma FourMiss(d: bytes, ps: seq<Put>, a: bytes, p2: nat, b: bytes, p3: nat, c: bytes, p4: nat, e: bytes, lo: nat,
                 hi: nat)
    requires FourPuts(ps, a, p2, b, p3, c, p4, e)
    requires |a| <= p2 && p2 + |b| <= p3 && p3 + |c| <= p4 && p4 + |e| <= lo <= hi <= |d|
    ensures Writes(d, ps)[lo..hi] == d[lo..hi]
  {
    WritesMiss(d, ps, lo, hi);
  }

  function HeaderTable(m: Mounted): bytes {
    HeaderBytes(WithNext(m.header, m.next))
  }

  function SavePuts(m: Mounted): seq<Put> {
    [Put(0, HeaderTable(m)), Put(m.header.userTable, UserTable(m.users)),
     Put(m.header.metadata, MetaTable(m.meta)), Put(m.header.bitmap, BitmapTable(m.bitmap))]
  }

  /** The image after `fs_shutdown`: header, user table, metadata, bitmap. */
  function Save(d: bytes, m: Mounted): (r: bytes)
    ensures |r| == |d|
  {
    Writes(d, SavePuts(m))
  }

  // ---- Reading ----

  function ReadTable<T>(g: bytes -> T, w: nat, d: bytes, pos: nat, n: nat): seq<T> {
    if pos + n * w <= |d| then Unpack(g, w, d[pos..pos + n * w], n) else []
  }

  function Slice(d: bytes, pos: nat, n: nat): bytes {
    if pos + n <= |d| then d[pos..pos + n] else []
  }

  /** The test by which `fs_init` decides to format: no header, no magic, or no live root directory. */
  predicate NeedsFormat(d: bytes) {
    |d| < HEADER_BYTES || BadImage(d, ParseHeader(Slice(d, 0, HEADER_BYTES)))
  }

  predicate BadImage(d: bytes, h: Header) {
    h.magic != MAGIC || h.metadata + META_BYTES > |d| || BadRoot(ParseEntry(Slice(d, h.metadata, META_BYTES)))
  }

  predicate BadRoot(root: MetaEntry) {
    root.valid != 0 || root.kind != 1
  }

  /** The number of blocks that `fs_init` computes. */
  function MountBlocks(size: nat, h: Header, metaCount: nat): nat
    requires h.blockSize > 0
  {
    var candidate :=
      if Candidate(h, metaCount) < h.blockSize then (size - h.metadata - metaCount * META_BYTES) % U64
      else Candidate(h, metaCount);
    if candidate / h.blockSize == 0 then 1 else candidate / h.blockSize
  }

  function MountWith(d: bytes, h: Header, metaCount: nat, numBlocks: nat): Mounted {
    Mounted(h,
            ReadTable(ParseUser, USER_BYTES, d, h.userTable, h.maxUsers),
            ReadTable(ParseEntry, META_BYTES, d, h.metadata, metaCount),
            ReadTable(ParseBits, 1, d, h.bitmap, BitmapBytes(numBlocks)),
            numBlocks % U32, (h.bitmap + BitmapBytes(numBlocks)) % U32, NextIndex(h))
  }

  /** What `fs_init` reads from an image that it does not format; None for its error on a
      metadata region of an impossible size. */
  function Mount(d: bytes): Option<Mounted> {
    var h := ParseHeader(Slice(d, 0, HEADER_BYTES));
    if h.blockSize == 0 || h.bitmap < h.metadata || (h.bitmap - h.metadata) % META_BYTES != 0 then None
    else
      var metaCount := (h.bitmap - h.metadata) / META_BYTES;
      Some(MountWith(d, h, metaCount, MountBlocks(|d|, h, metaCount)))
  }

  // ---- What one operation writes ----

  /** Written records are read back, and the bytes around them stay. */
  lemma RecordsBack(f: bytes, m: nat, t: table)
    requires (forall k | 0 <= k < |t| :: TypedEntry(t[k])) && m + |t| * META_BYTES <= |f|
    ensures var g := Write(f, Put(m, MetaTable(t)));
            && ReadTable(ParseEntry, META_BYTES, g, m, |t|) == t
            && g[..m] == f[..m] && g[m + |t| * META_BYTES..] == f[m + |t| * META_BYTES..]
  {
    MetaTableBack(t);
    PatchElsewhere(f, m, MetaTable(t), 0, m);
    PatchElsewhere(f, m, MetaTable(t), m + |t| * META_BYTES, |f|);
  }

  /** Likewise a bitmap. */
  lemma BitsBack(f: bytes, p: nat, b: bits)
    requires p + |b| <= |f|
    ensures var g := Write(f, Put(p, BitmapTable(b)));
            ReadTable(ParseBits, 1, g, p, |b|) == b && g[..p] == f[..p] && g[p + |b|..] == f[p + |b|..]
  {
    BitmapTableBack(b);
    PatchElsewhere(f, p, BitmapTable(b), 0, p);
    PatchElsewhere(f, p, BitmapTable(b), p + |b|, |f|);
  }

  /** Likewise a header. */
  lemma HeaderBack(f: bytes, h: Header)
    requires TypedHeader(h) && HEADER_BYTES <= |f|
    ensures var g := Write(f, Put(0, HeaderBytes(h)));
            ParseHeader(Slice(g, 0, HEADER_BYTES)) == h && g[HEADER_BYTES..] == f[HEADER_BYTES..]
  {
    HeaderSize(h);
    HeaderRoundTrip(h);
    PatchElsewhere(f, 0, HeaderBytes(h), HEADER_BYTES, |f|);
  }

  lemma SameTable<T>(g: bytes -> T, w: nat, d: bytes, e: bytes, pos: nat, n: nat)
    requires |d| == |e| && pos + n * w <= |d| && d[pos..pos + n * w] == e[pos..pos + n * w]
    ensures ReadTable(g, w, d, pos, n) == ReadTable(g, w, e, pos, n)
  {
  }

  lemma Subrange(d: bytes, e: bytes, a: nat, lo: nat, hi: nat)
    requires |d| == |e| && a <= lo <= hi <= |d| && d[a..] == e[a..]
    ensures d[lo..hi] == e[lo..hi]
  {
    forall k | lo <= k < hi ensures d[k] == e[k] {
      assert d[k] == d[a..][k - a] && e[k] == e[a..][k - a];
    }
  }

  lemma Prerange(d: bytes, e: bytes, z: nat, lo: nat, hi: nat)
    requires |d| == |e| && lo <= hi <= z <= |d| && d[..z] == e[..z]
    ensures d[lo..hi] == e[lo..hi]
  {
    forall k | lo <= k < hi ensures d[k] == e[k] {
      assert d[k] == d[..z][k] && e[k] == e[..z][k];
    }
  }

  /** A header written last covers no table. */
  lemma UnderHeader<T>(g: bytes -> T, w: nat, d: bytes, e: bytes, pos: nat, n: nat)
    requires |d| == |e| && HEADER_BYTES <= pos && pos + n * w <= |d| && d[HEADER_BYTES..] == e[HEADER_BYTES..]
    ensures ReadTable(g, w, d, pos, n) == ReadTable(g, w, e, pos, n)
  {
    Subrange(d, e, HEADER_BYTES, pos, pos + n * w);
    SameTable(g, w, d, e, pos, n);
  }

  /** Records and header, one after the other: both are read back, and users and bitmap stay. */
  lemma EntriesBack(f: bytes, m: nat, t: table, h: Header)
    requires HEADER_BYTES <= m && m + |t| * META_BYTES <= |f|
    requires (forall k | 0 <= k < |t| :: TypedEntry(t[k])) && TypedHeader(h)
    ensures var g := Write(Write(f, Put(m, MetaTable(t))), Put(0, HeaderBytes(h)));
            && ParseHeader(Slice(g, 0, HEADER_BYTES)) == h && ReadTable(ParseEntry, META_BYTES, g, m, |t|) == t
            && g[HEADER_BYTES..m] == f[HEADER_BYTES..m]
            && g[m + |t| * META_BYTES..|f|] == f[m + |t| * META_BYTES..]
  {
    var e := Write(f, Put(m, MetaTable(t)));
    RecordsBack(f, m, t);
    HeaderBack(e, h);
    HeaderLast(f, e, Write(e, Put(0, HeaderBytes(h))), m, t);
  }

  lemma HeaderLast(f: bytes, e: bytes, g: bytes, m: nat, t: table)
    requires |f| == |e| == |g| && HEADER_BYTES <= m && m + |t| * META_BYTES <= |f|
    requires e[..m] == f[..m] && e[m + |t| * META_BYTES..] == f[m + |t| * META_BYTES..]
    requires g[HEADER_BYTES..] == e[HEADER_BYTES..]
    ensures ReadTable(ParseEntry, META_BYTES, g, m, |t|) == ReadTable(ParseEntry, META_BYTES, e, m, |t|)
    ensures g[HEADER_BYTES..m] == f[HEADER_BYTES..m]
    ensures g[m + |t| * META_BYTES..|f|] == f[m + |t| * META_BYTES..]
  {
    UnderHeader(ParseEntry, META_BYTES, g, e, m, |t|);
    Subrange(g, e, HEADER_BYTES, HEADER_BYTES, m);
    Prerange(e, f, m, HEADER_BYTES, m);
    Subrange(g, e, HEADER_BYTES, m + |t| * META_BYTES, |f|);
  }

  /** Records and bitmap: both are read back, and what lies before them stays. */
  lemma TablesBack(f: bytes, m: nat, t: table, p: nat, b: bits)
    requires m + |t| * META_BYTES == p && p + |b| <= |f| && forall k | 0 <= k < |t| :: TypedEntry(t[k])
    ensures var g := Write(Write(f, Put(m, MetaTable(t))), Put(p, BitmapTable(b)));
            && ReadTable(ParseEntry, META_BYTES, g, m, |t|) == t && ReadTable(ParseBits, 1, g, p, |b|) == b
            && g[..m] == f[..m]
  {
    var e := Write(f, Put(m, MetaTable(t)));
    RecordsBack(f, m, t);
    BitsBack(e, p, b);
    BitsLast(f, e, Write(e, Put(p, BitmapTable(b))), m, t, p);
  }

  lemma BitsLast(f: bytes, e: bytes, g: bytes, m: nat, t: table, p: nat)
    requires |f| == |e| == |g| && m + |t| * META_BYTES == p <= |f|
    requires e[..m] == f[..m] && g[..p] == e[..p]
    ensures ReadTable(ParseEntry, META_BYTES, g, m, |t|) == ReadTable(ParseEntry, META_BYTES, e, m, |t|)
    ensures g[..m] == f[..m]
  {
    Prerange(g, e, p, m, p);
    SameTable(ParseEntry, META_BYTES, g, e, m, |t|);
    Prerange(g, e, p, 0, m);
  }

  /** Records, bitmap and header: all are read back, and the users stay. */
  lemma AllBack(f: bytes, m: nat, t: table, p: nat, b: bits, h: Header)
    requires HEADER_BYTES <= m && m + |t| * META_BYTES == p && p + |b| <= |f|
    requires (forall k | 0 <= k < |t| :: TypedEntry(t[k])) && TypedHeader(h)
    ensures var g := Write(Write(Write(f, Put(m, MetaTable(t))), Put(p, BitmapTable(b))), Put(0, HeaderBytes(h)));
            && ParseHeader(Slice(g, 0, HEADER_BYTES)) == h && ReadTable(ParseEntry, META_BYTES, g, m, |t|) == t
            && ReadTable(ParseBits, 1, g, p, |b|) == b && g[HEADER_BYTES..m] == f[HEADER_BYTES..m]
  {
    var e := Write(Write(f, Put(m, MetaTable(t))), Put(p, BitmapTable(b)));
    TablesBack(f, m, t, p, b);
    HeaderBack(e, h);
    AllLast(f, e, Write(e, Put(0, HeaderBytes(h))), m, t, p, b);
  }

  lemma AllLast(f: bytes, e: bytes, g: bytes, m: nat, t: table, p: nat, b: bits)
    requires |f| == |e| == |g| && HEADER_BYTES <= m && m + |t| * META_BYTES == p && p + |b| <= |f|
    requires e[..m] == f[..m] && g[HEADER_BYTES..] == e[HEADER_BYTES..]
    ensures ReadTable(ParseEntry, META_BYTES, g, m, |t|) == ReadTable(ParseEntry, META_BYTES, e, m, |t|)
    ensures ReadTable(ParseBits, 1, g, p, |b|) == ReadTable(ParseBits, 1, e, p, |b|)
    ensures g[HEADER_BYTES..m] == f[HEADER_BYTES..m]
  {
    UnderHeader(ParseEntry, META_BYTES, g, e, m, |t|);
    UnderHeader(ParseBits, 1, g, e, p, |b|);
    Subrange(g, e, HEADER_BYTES, HEADER_BYTES, m);
    Prerange(e, f, m, HEADER_BYTES, m);
  }

  // ---- The round trip ----

  lemma HeaderPutSize(m: Mounted)
    ensures |HeaderTable(m)| == HEADER_BYTES
  {
    HeaderSize(WithNext(m.header, m.next));
  }

  /** The sizes of the regions, as they are written. */
  lemma Sizes(m: Mounted, size: nat)
    requires Regions(m, size) && TypedTables(m)
    ensures |HeaderTable(m)| == HEADER_BYTES && |UserTable(m.users)| == m.header.maxUsers * USER_BYTES
    ensures |MetaTable(m.meta)| == |m.meta| * META_BYTES && |BitmapTable(m.bitmap)| == |m.bitmap|
  {
    HeaderPutSize(m);
    UserTableBack(m.users);
    MetaTableBack(m.meta);
    BitmapTableBack(m.bitmap);
  }

  lemma SizesAscend(m: Mounted, size: nat, a: bytes, b: bytes, c: bytes, e: bytes)
    requires Regions(m, size) && |a| == HEADER_BYTES && |b| == m.header.maxUsers * USER_BYTES
    requires |c| == |m.meta| * META_BYTES && |e| == |m.bitmap|
    ensures Ascending(a, m.header.userTable, b, m.header.metadata, c, m.header.bitmap, e, m.blocksOffset)
    ensures m.blocksOffset <= size
  {
  }

  /** The four writes, in ascending order. */
  lemma PutsAscend(m: Mounted, size: nat)
    requires Regions(m, size) && TypedTables(m)
    ensures FourPuts(SavePuts(m), HeaderTable(m), m.header.userTable, UserTable(m.users), m.header.metadata,
                     MetaTable(m.meta), m.header.bitmap, BitmapTable(m.bitmap))
    ensures Ascending(HeaderTable(m), m.header.userTable, UserTable(m.users), m.header.metadata,
                      MetaTable(m.meta), m.header.bitmap, BitmapTable(m.bitmap), m.blocksOffset)
    ensures m.blocksOffset <= size
  {
    Sizes(m, size);
    SizesAscend(m, size, HeaderTable(m), UserTable(m.users), MetaTable(m.meta), BitmapTable(m.bitmap));
  }

  lemma AscendingWeaker(a: bytes, p2: nat, b: bytes, p3: nat, c: bytes, p4: nat, e: bytes, lo: nat, hi: nat)
    requires Ascending(a, p2, b, p3, c, p4, e, lo) && lo <= hi
    ensures Ascending(a, p2, b, p3, c, p4, e, hi)
  {
  }

  /** Every region can be read back from the saved image. */
  lemma SavedRange(d: bytes, m: Mounted, j: nat, pos: nat, data: bytes)
    requires Regions(m, |d|) && TypedTables(m) && j < 4 && SavePuts(m)[j] == Put(pos, data)
    ensures pos + |data| <= |d| && Save(d, m)[pos..pos + |data|] == data
  {
    PutsAscend(m, |d|);
    AscendingWeaker(HeaderTable(m), m.header.userTable, UserTable(m.users), m.header.metadata, MetaTable(m.meta),
                    m.header.bitmap, BitmapTable(m.bitmap), m.blocksOffset, |d|);
    FourHit(d, SavePuts(m), HeaderTable(m), m.header.userTable, UserTable(m.users), m.header.metadata,
            MetaTable(m.meta), m.header.bitmap, BitmapTable(m.bitmap), j, pos, data);
  }

  lemma BlocksMissed(d: bytes, m: Mounted, lo: nat, hi: nat)
    requires Regions(m, |d|) && TypedTables(m) && m.blocksOffset <= lo <= hi <= |d|
    ensures Save(d, m)[lo..hi] == d[lo..hi]
  {
    PutsAscend(m, |d|);
    FourMiss(d, SavePuts(m), HeaderTable(m), m.header.userTable, UserTable(m.users), m.header.metadata,
             MetaTable(m.meta), m.header.bitmap, BitmapTable(m.bitmap), lo, hi);
  }

  /** Saving leaves the block region as it was. */
  lemma SaveKeepsBlocks(d: bytes, m: Mounted)
    requires Regions(m, |d|) && TypedTables(m)
    ensures BlocksOf(Save(d, m), m.blocksOffset, m.header.blockSize, m.numBlocks)
         == BlocksOf(d, m.blocksOffset, m.header.blockSize, m.numBlocks)
  {
    var off, bs, n := m.blocksOffset, m.header.blockSize, m.numBlocks;
    forall k | 0 <= k < n ensures BlockNo(Save(d, m), off, bs, n, k) == BlockNo(d, off, bs, n, k) {
      SavedBlock(d, m, off, bs, n, k);
    }
  }

  lemma SavedBlock(d: bytes, m: Mounted, off: nat, bs: nat, n: nat, k: nat)
    requires Regions(m, |d|) && TypedTables(m) && k < n
    requires off == m.blocksOffset && bs == m.header.blockSize && n == m.numBlocks
    ensures BlockNo(Save(d, m), off, bs, n, k) == BlockNo(d, off, bs, n, k)
  {
    InRegion(d, off, bs, n, k);
    BlocksMissed(d, m, Pos(off, bs, k), Pos(off, bs, k) + bs);
    SameRange(Save(d, m), d, Pos(off, bs, k), bs);
  }

  lemma SavedHeader(d: bytes, m: Mounted)
    requires Regions(m, |d|) && TypedTables(m)
    ensures |d| >= HEADER_BYTES && ParseHeader(Slice(Save(d, m), 0, HEADER_BYTES)) == WithNext(m.header, m.next)
  {
    SavedRange(d, m, 0, 0, HeaderTable(m));
    HeaderPutSize(m);
    WithNextKeeps(m.header, m.next);
    HeaderRoundTrip(WithNext(m.header, m.next));
  }

  lemma TableAt<T>(g: bytes -> T, w: nat, d: bytes, pos: nat, n: nat, data: bytes)
    requires |data| == n * w && pos + |data| <= |d| && d[pos..pos + |data|] == data
    ensures pos + n * w <= |d| && ReadTable(g, w, d, pos, n) == Unpack(g, w, data, n)
  {
  }

  lemma SavedUsers(d: bytes, m: Mounted)
    requires Regions(m, |d|) && TypedTables(m)
    ensures ReadTable(ParseUser, USER_BYTES, Save(d, m), m.header.userTable, m.header.maxUsers) == m.users
  {
    SavedRange(d, m, 1, m.header.userTable, UserTable(m.users));
    UserTableBack(m.users);
    TableAt(ParseUser, USER_BYTES, Save(d, m), m.header.userTable, m.header.maxUsers, UserTable(m.users));
  }

  lemma SavedMeta(d: bytes, m: Mounted)
    requires Regions(m, |d|) && TypedTables(m)
    ensures ReadTable(ParseEntry, META_BYTES, Save(d, m), m.header.metadata, |m.meta|) == m.meta
    ensures m.header.metadata + |m.meta| * META_BYTES <= |d|
  {
    SavedRange(d, m, 2, m.header.metadata, MetaTable(m.meta));
    MetaTableBack(m.meta);
    TableAt(ParseEntry, META_BYTES, Save(d, m), m.header.metadata, |m.meta|, MetaTable(m.meta));
  }

  lemma SavedBitmap(d: bytes, m: Mounted)
    requires Regions(m, |d|) && TypedTables(m)
    ensures ReadTable(ParseBits, 1, Save(d, m), m.header.bitmap, |m.bitmap|) == m.bitmap
  {
    SavedRange(d, m, 3, m.header.bitmap, BitmapTable(m.bitmap));
    BitmapTableBack(m.bitmap);
    TableAt(ParseBits, 1, Save(d, m), m.header.bitmap, |m.bitmap|, BitmapTable(m.bitmap));
  }

  /** The first record of a table. */
  lemma FirstOfTable<T>(g: bytes -> T, w: nat, d: bytes, pos: nat, n: nat)
    requires n >= 1 && pos + n * w <= |d|
    ensures pos + w <= |d| && ReadTable(g, w, d, pos, n)[0] == g(Slice(d, pos, w))
  {
    MulStep(0, n, w);
    var t := d[pos..pos + n * w];
    assert t[0 * w..0 * w + w] == d[pos..pos + w];
  }

  lemma SavedRoot(d: bytes, m: Mounted)
    requires Regions(m, |d|) && TypedTables(m)
    ensures m.header.metadata + META_BYTES <= |d|
    ensures ParseEntry(Slice(Save(d, m), m.header.metadata, META_BYTES)) == m.meta[0]
  {
    SavedMeta(d, m);
    FirstOfTable(ParseEntry, META_BYTES, Save(d, m), m.header.metadata, |m.meta|);
  }

  lemma BlocksPositive(a: nat, bs: nat)
    requires 0 < bs <= a
    ensures a / bs > 0
  {
    DivBounds(a, bs);
  }

  /** Geometry that `fs_init` computes from a saved header. */
  lemma MountCounts(m: Mounted, size: nat, h: Header)
    requires Geometry(m, size) && h == WithNext(m.header, m.next)
    ensures (h.bitmap - h.metadata) % META_BYTES == 0 && (h.bitmap - h.metadata) / META_BYTES == |m.meta|
    ensures MountBlocks(size, h, |m.meta|) == m.numBlocks
  {
    assert h.bitmap - h.metadata == |m.meta| * META_BYTES;
    BlocksPositive(Candidate(h, |m.meta|), h.blockSize);
  }

  lemma SmallMod(x: nat)
    requires x < U32
    ensures x % U32 == x
  {
  }

  /** A header that says the same about tables and numbers. */
  predicate SameLayout(h: Header, m: Mounted) {
    && h.userTable == m.header.userTable && h.maxUsers == m.header.maxUsers && h.metadata == m.header.metadata
    && h.bitmap == m.header.bitmap && NextIndex(h) == m.next
  }

  lemma SavedTables(d: bytes, m: Mounted, h: Header)
    requires Regions(m, |d|) && TypedTables(m) && SameLayout(h, m)
    requires m.numBlocks < U32 && |m.bitmap| == BitmapBytes(m.numBlocks)
    ensures MountWith(Save(d, m), h, |m.meta|, m.numBlocks) == m.(header := h)
  {
    SavedUsers(d, m);
    SavedMeta(d, m);
    SavedBitmap(d, m);
    SmallMod(m.numBlocks);
    SmallMod(m.blocksOffset);
  }

  /** Mounting a saved image never formats it while entry 1 is a live directory. */
  lemma SavedIsGood(d: bytes, m: Mounted)
    requires Geometry(m, |d|) && TypedTables(m) && IsDir(m.meta, 1)
    ensures !NeedsFormat(Save(d, m))
  {
    SavedHeader(d, m);
    SavedRoot(d, m);
    assert !BadRoot(m.meta[0]);
  }

  lemma MountSaved(d: bytes, m: Mounted, h: Header)
    requires Geometry(m, |d|) && TypedTables(m) && h == WithNext(m.header, m.next)
    ensures Mount(Save(d, m)) == Some(MountWith(Save(d, m), h, |m.meta|, m.numBlocks))
  {
    SavedHeader(d, m);
    MountCounts(m, |d|, h);
  }

  /** Mounting what was saved gives back records, bitmap, users, geometry and next number. */
  lemma SaveThenMount(d: bytes, m: Mounted)
    requires Geometry(m, |d|) && TypedTables(m)
    ensures Mount(Save(d, m)) == Some(m.(header := WithNext(m.header, m.next)))
    ensures CodeTable(WithNext(m.header, m.next)) == CodeTable(m.header)
  {
    var h := WithNext(m.header, m.next);
    WithNextKeeps(m.header, m.next);
    MountSaved(d, m, h);
    SavedTables(d, m, h);
  }
}
