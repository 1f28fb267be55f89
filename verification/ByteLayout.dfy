/** Where everything lies in the volume image, byte by byte: the packed structures at their
    offsets, the image that is formatted, the image that is saved, and what is read back. */
module ByteLayout {
  import opened Bytes
  import opened Bitmap
  import opened Chains
  import opened Wrappers
  import opened Tree
  import opened State
  import opened Records
  import opened Image
  import opened Layout

  /** `data` lies in `d` at `pos`. */
  predicate LiesAt(d: bytes, pos: nat, data: bytes) {
    pos + |data| <= |d| && d[pos..pos + |data|] == data
  }

  lemma WithinLies(d: bytes, pos: nat, outer: bytes, at: nat, inner: bytes)
    requires LiesAt(d, pos, outer) && LiesAt(outer, at, inner)
    ensures LiesAt(d, pos + at, inner)
  {
    SliceOfSlice(d, pos, pos + |outer|, at, at + |inner|);
  }

  lemma SliceOfSlice(d: bytes, lo: nat, hi: nat, a: nat, b: nat)
    requires lo <= hi <= |d| && a <= b <= hi - lo
    ensures d[lo..hi][a..b] == d[lo + a..lo + b]
  {
    var x, y := d[lo..hi][a..b], d[lo + a..lo + b];
    forall k | 0 <= k < b - a ensures x[k] == y[k] {
      assert d[lo..hi][a + k] == d[lo + a + k];
    }
    assert x == y;
  }

  lemma FieldLies(fs: seq<bytes>, ws: seq<nat>, k: nat, at: nat)
    requires Widths(fs, ws) && k < |fs| && at == Upto(ws, k)
    ensures LiesAt(Concat(fs), at, fs[k])
  {
    ConcatAt(fs, ws, k);
  }

  // ---- A metadata record ----

  lemma EntryOffsets(w: seq<nat>)
    requires w == ENTRY_WIDTHS
    ensures Upto(w, 0) == 0 && Upto(w, 1) == 1 && Upto(w, 2) == 2 && Upto(w, 3) == 6 && Upto(w, 4) == 18
    ensures Upto(w, 5) == 22 && Upto(w, 6) == 30 && Upto(w, 7) == 34 && Upto(w, 8) == 38 && Upto(w, 9) == 46
    ensures Upto(w, 10) == 54
  {
  }

  /** The packed structure of 72 bytes: numbers are stored least significant byte first. */
  lemma EntryLayout(e: MetaEntry)
    requires TypedEntry(e)
    ensures var s := EntryBytes(e);
            && |s| == 72 && s[0] == e.valid && s[1] == e.kind && LiesAt(s, 2, Le(e.parent, 4))
            && LiesAt(s, 6, e.name + Zeros(12 - |e.name|)) && LiesAt(s, 18, Le(e.start, 4))
            && LiesAt(s, 22, Le(e.size, 8))
            && LiesAt(s, 30, Le(e.owner, 4)) && LiesAt(s, 34, Le(e.permissions, 4)) && LiesAt(s, 38, Le(e.created, 8))
            && LiesAt(s, 46, Le(e.modified, 8)) && LiesAt(s, 54, e.reserved)
  {
    var fs, w := EntryFields(e), ENTRY_WIDTHS;
    EntrySize(e);
    EntryOffsets(w);
    FieldLies(fs, w, 0, 0);
    FieldLies(fs, w, 1, 1);
    FieldLies(fs, w, 2, 2);
    FieldLies(fs, w, 3, 6);
    FieldLies(fs, w, 4, 18);
    FieldLies(fs, w, 5, 22);
    FieldLies(fs, w, 6, 30);
    FieldLies(fs, w, 7, 34);
    FieldLies(fs, w, 8, 38);
    FieldLies(fs, w, 9, 46);
    FieldLies(fs, w, 10, 54);
    OneByte(EntryBytes(e), 0, e.valid);
    OneByte(EntryBytes(e), 1, e.kind);
  }

  lemma OneByte(s: bytes, at: nat, x: nat)
    requires x < 256 && LiesAt(s, at, Le(x, 1))
    ensures s[at] == x
  {
    assert s[at] == s[at..at + 1][0] && Le(x, 1) == [x % 256] + Le(x / 256, 0);
  }

  // ---- A user ----

  lemma UserOffsets(w: seq<nat>)
    requires w == USER_WIDTHS
    ensures Upto(w, 0) == 0 && Upto(w, 1) == 32 && Upto(w, 2) == 96 && Upto(w, 3) == 100 && Upto(w, 4) == 108
    ensures Upto(w, 5) == 116 && Upto(w, 6) == 117
  {
  }

  lemma UserLayout(u: UserInfo)
    requires TypedUser(u)
    ensures var s := UserBytes(u);
            && |s| == 128 && LiesAt(s, 0, u.username) && LiesAt(s, 32, u.passwordHash) && LiesAt(s, 96, Le(u.role, 4))
            && LiesAt(s, 100, Le(u.created, 8)) && LiesAt(s, 108, Le(u.lastLogin, 8)) && s[116] == u.active
            && LiesAt(s, 117, u.reserved)
  {
    var fs, w := UserFields(u), USER_WIDTHS;
    UserSize(u);
    UserOffsets(w);
    FieldLies(fs, w, 0, 0);
    FieldLies(fs, w, 1, 32);
    FieldLies(fs, w, 2, 96);
    FieldLies(fs, w, 3, 100);
    FieldLies(fs, w, 4, 108);
    FieldLies(fs, w, 5, 116);
    FieldLies(fs, w, 6, 117);
    OneByte(UserBytes(u), 116, u.active);
  }

  // ---- The header ----

  lemma HeaderOffsets(w: seq<nat>)
    requires w == HEADER_WIDTHS
    ensures Upto(w, 0) == 0 && Upto(w, 1) == 8 && Upto(w, 2) == 12 && Upto(w, 3) == 20 && Upto(w, 4) == 28
    ensures Upto(w, 5) == 36 && Upto(w, 6) == 68 && Upto(w, 7) == 84 && Upto(w, 8) == 148 && Upto(w, 9) == 156
    ensures Upto(w, 10) == 160 && Upto(w, 11) == 164 && Upto(w, 12) == 168 && Upto(w, 13) == 172
  {
  }

  /** The header of 512 bytes. */
  lemma HeaderLayout(h: Header)
    requires TypedHeader(h)
    ensures var s := HeaderBytes(h);
            && |s| == 512 && LiesAt(s, 0, h.magic) && LiesAt(s, 8, Le(h.version, 4))
            && LiesAt(s, 12, Le(h.totalSize, 8))
            && LiesAt(s, 20, Le(h.headerSize, 8)) && LiesAt(s, 28, Le(h.blockSize, 8)) && LiesAt(s, 36, h.studentId)
            && LiesAt(s, 68, h.submissionDate) && LiesAt(s, 84, h.configHash) && LiesAt(s, 148, Le(h.configTime, 8))
            && LiesAt(s, 156, Le(h.userTable, 4)) && LiesAt(s, 160, Le(h.maxUsers, 4))
            && LiesAt(s, 164, Le(h.metadata, 4)) && LiesAt(s, 168, Le(h.bitmap, 4)) && LiesAt(s, 172, h.reserved)
  {
    var fs, w := HeaderFields(h), HEADER_WIDTHS;
    HeaderSize(h);
    HeaderOffsets(w);
    FieldLies(fs, w, 0, 0);
    FieldLies(fs, w, 1, 8);
    FieldLies(fs, w, 2, 12);
    FieldLies(fs, w, 3, 20);
    FieldLies(fs, w, 4, 28);
    FieldLies(fs, w, 5, 36);
    FieldLies(fs, w, 6, 68);
    FieldLies(fs, w, 7, 84);
    FieldLies(fs, w, 8, 148);
    FieldLies(fs, w, 9, 156);
    FieldLies(fs, w, 10, 160);
    FieldLies(fs, w, 11, 164);
    FieldLies(fs, w, 12, 168);
    FieldLies(fs, w, 13, 172);
  }

  /** The code table and the next number, in the reserved bytes. */
  lemma ReservedLayout(h: Header)
    requires TypedHeader(h)
    ensures |HeaderBytes(h)| == 512 && |CodeTable(h)| == 256 && LiesAt(HeaderBytes(h), 236, CodeTable(h))
    ensures NextIndex(h) == var x := UnLe(HeaderBytes(h)[492..500]); if x == 0 then 2 else x
  {
    HeaderLayout(h);
    assert LiesAt(h.reserved, 64, CodeTable(h));
    WithinLies(HeaderBytes(h), 172, h.reserved, 64, CodeTable(h));
    assert LiesAt(h.reserved, 320, h.reserved[320..328]);
    WithinLies(HeaderBytes(h), 172, h.reserved, 320, h.reserved[320..328]);
  }

  // ---- The test of fs_init ----

  lemma FieldOf(ws: seq<nat>, s: bytes, k: nat, at: nat)
    requires k < |ws| && at == Upto(ws, k) && at + ws[k] <= |s|
    ensures Split(ws, s)[k] == s[at..at + ws[k]]
  {
    SplitAtWidth(ws, s, k);
  }

  lemma SingleByte(s: bytes)
    requires |s| == 1
    ensures UnLe(s) == s[0]
  {
    assert s[1..] == [];
  }

  /** `fs_init` formats an image exactly when it is too short for a header, has not the magic
      "OMNIFS01", or has no live directory in the first record. */
  lemma NeedsFormatIff(d: bytes)
    ensures NeedsFormat(d) <==>
      || |d| < 512 || d[0..8] != [79, 77, 78, 73, 70, 83, 48, 49]
      || var m := UnLe(d[164..168]); m + 72 > |d| || d[m] != 0 || d[m + 1] != 1
  {
    if |d| >= 512 {
      var s, w := d[0..512], HEADER_WIDTHS;
      HeaderOffsets(w);
      FieldOf(w, s, 0, 0);
      FieldOf(w, s, 11, 164);
      assert s[0..8] == d[0..8] && s[164..168] == d[164..168];
      var m := UnLe(d[164..168]);
      assert ParseHeader(s).metadata == m;
      if m + 72 <= |d| {
        FirstBytes(d[m..m + 72]);
      }
    }
  }

  lemma FirstBytes(s: bytes)
    requires |s| == 72
    ensures ParseEntry(s).valid == s[0] && ParseEntry(s).kind == s[1]
  {
    EntryOffsets(ENTRY_WIDTHS);
    FieldOf(ENTRY_WIDTHS, s, 0, 0);
    FieldOf(ENTRY_WIDTHS, s, 1, 1);
    SingleByte(s[0..1]);
    SingleByte(s[1..2]);
  }

  // ---- What is saved ----

  lemma LiesIs(d: bytes, at: nat, w: nat, data: bytes)
    requires |data| == w && at + w <= |d| && d[at..at + w] == data
    ensures LiesAt(d, at, data)
  {
  }

  lemma RecordLies<T>(f: T -> bytes, w: nat, xs: seq<T>, k: nat, at: nat)
    requires AllSize(f, w, xs) && k < |xs| && at == k * w
    ensures LiesAt(Pack(f, xs), at, f(xs[k]))
  {
    PackAt(f, w, xs, k);
    var data := f(xs[k]);
    assert |data| == w;
    LiesIs(Pack(f, xs), at, w, data);
  }

  lemma UserLies(d: bytes, pos: nat, users: seq<UserInfo>, k: nat)
    requires LiesAt(d, pos, UserTable(users)) && k < |users|
    ensures LiesAt(d, pos + k * 128, UserBytes(users[k]))
  {
    forall x | 0 <= x < |users| ensures |UserBytes(users[x])| == 128 {
      UserSize(users[x]);
    }
    RecordLies(UserBytes, 128, users, k, k * 128);
    WithinLies(d, pos, UserTable(users), k * 128, UserBytes(users[k]));
  }

  lemma EntryLies(d: bytes, pos: nat, meta: table, k: nat)
    requires LiesAt(d, pos, MetaTable(meta)) && k < |meta|
    ensures LiesAt(d, pos + k * 72, EntryBytes(meta[k]))
  {
    forall x | 0 <= x < |meta| ensures |EntryBytes(meta[x])| == 72 {
      EntrySize(meta[x]);
    }
    RecordLies(EntryBytes, 72, meta, k, k * 72);
    WithinLies(d, pos, MetaTable(meta), k * 72, EntryBytes(meta[k]));
  }

  /** The image that `fs_shutdown` leaves: the header as it was but for the next number, then
      each user, record and bitmap byte at its place. */
  lemma SavedBytes(d: bytes, m: Mounted, k: nat)
    requires Regions(m, |d|) && TypedTables(m)
    ensures |HeaderBytes(m.header)| == 512
    ensures var s, h := Save(d, m), HeaderBytes(m.header);
            && LiesAt(s, 0, h[0..492]) && LiesAt(s, 492, Le(m.next, 8)) && LiesAt(s, 500, h[500..512])
            && (k < |m.users| ==> LiesAt(s, m.header.userTable + k * 128, UserBytes(m.users[k])))
            && (k < |m.meta| ==> LiesAt(s, m.header.metadata + k * 72, EntryBytes(m.meta[k])))
            && (k < |m.bitmap| ==> LiesAt(s, m.header.bitmap + k, [m.bitmap[k] as nat]))
  {
    SavedRange(d, m, 0, 0, HeaderTable(m));
    SavedHeader(m);
    WithinLies(Save(d, m), 0, HeaderTable(m), 0, HeaderBytes(m.header)[0..492]);
    WithinLies(Save(d, m), 0, HeaderTable(m), 492, Le(m.next, 8));
    WithinLies(Save(d, m), 0, HeaderTable(m), 500, HeaderBytes(m.header)[500..512]);
    if k < |m.users| {
      SavedUser(d, m, k);
    }
    if k < |m.meta| {
      SavedRecord(d, m, k);
    }
    if k < |m.bitmap| {
      SavedBits(d, m, k);
    }
  }

  lemma SavedUser(d: bytes, m: Mounted, k: nat)
    requires Regions(m, |d|) && TypedTables(m) && k < |m.users|
    ensures LiesAt(Save(d, m), m.header.userTable + k * 128, UserBytes(m.users[k]))
  {
    SavedRange(d, m, 1, m.header.userTable, UserTable(m.users));
    UserLies(Save(d, m), m.header.userTable, m.users, k);
  }

  lemma SavedRecord(d: bytes, m: Mounted, k: nat)
    requires Regions(m, |d|) && TypedTables(m) && k < |m.meta|
    ensures LiesAt(Save(d, m), m.header.metadata + k * 72, EntryBytes(m.meta[k]))
  {
    SavedRange(d, m, 2, m.header.metadata, MetaTable(m.meta));
    EntryLies(Save(d, m), m.header.metadata, m.meta, k);
  }

  lemma SavedBits(d: bytes, m: Mounted, k: nat)
    requires Regions(m, |d|) && TypedTables(m) && k < |m.bitmap|
    ensures LiesAt(Save(d, m), m.header.bitmap + k, [m.bitmap[k] as nat])
  {
    SavedRange(d, m, 3, m.header.bitmap, BitmapTable(m.bitmap));
    RecordLies(BitsByte, 1, m.bitmap, k, k);
    WithinLies(Save(d, m), m.header.bitmap, BitmapTable(m.bitmap), k, BitsByte(m.bitmap[k]));
  }

  lemma SavedHeader(m: Mounted)
    requires TypedHeader(m.header) && m.next < U64
    ensures |HeaderBytes(m.header)| == 512
    ensures var s, h := HeaderTable(m), HeaderBytes(m.header);
            LiesAt(s, 0, h[0..492]) && LiesAt(s, 492, Le(m.next, 8)) && LiesAt(s, 500, h[500..512])
  {
    var a, b := HeaderFields(m.header), HeaderFields(WithNext(m.header, m.next));
    HeaderSize(m.header);
    HeaderSize(WithNext(m.header, m.next));
    ConcatSnoc(a);
    ConcatSnoc(b);
    assert a[..13] == b[..13];
    PatchedTail(Concat(a[..13]), m.header.reserved, Le(m.next, 8));
  }

  lemma PatchedTail(p: bytes, r: bytes, data: bytes)
    requires |p| == 172 && |r| == 340 && |data| == 8
    ensures var s, h := p + Patch(r, 320, data), p + r;
            LiesAt(s, 0, h[0..492]) && LiesAt(s, 492, data) && LiesAt(s, 500, h[500..512])
  {
    var s, h, t := p + Patch(r, 320, data), p + r, Patch(r, 320, data);
    assert s[492..500] == t[320..328];
    assert forall k | 0 <= k < 320 :: t[k] == r[k];
    assert forall k | 328 <= k < 340 :: t[k] == r[k];
    assert s[0..492] == p + t[0..320] && h[0..492] == p + r[0..320];
    assert s[500..512] == t[328..340] && h[500..512] == r[328..340];
    assert t[0..320] == r[0..320] && t[328..340] == r[328..340];
  }

  lemma {:induction false} ConcatSnoc(fs: seq<bytes>)
    requires fs != []
    ensures Concat(fs) == Concat(fs[..|fs| - 1]) + fs[|fs| - 1]
  {
    if |fs| == 1 {
      assert fs[..0] == [];
      assert Concat(fs) == fs[0] + Concat(fs[1..]);
    } else {
      ConcatSnoc(fs[1..]);
      assert fs[1..][..|fs| - 2] == fs[..|fs| - 1][1..];
    }
  }

  // ---- What is read ----

  /** The fields of a header that is read. */
  lemma ParsedHeader(s: bytes)
    requires |s| == 512
    ensures var h := ParseHeader(s);
            && h.magic == s[0..8] && h.version == UnLe(s[8..12]) && h.totalSize == UnLe(s[12..20])
            && h.headerSize == UnLe(s[20..28]) && h.blockSize == UnLe(s[28..36]) && h.configTime == UnLe(s[148..156])
            && h.userTable == UnLe(s[156..160]) && h.maxUsers == UnLe(s[160..164])
            && h.metadata == UnLe(s[164..168]) && h.bitmap == UnLe(s[168..172]) && h.reserved == s[172..512]
  {
    ParsedSizes(s);
    ParsedUsers(s);
    ParsedRegions(s);
    ParsedReserved(s);
  }

  lemma ParsedSizes(s: bytes)
    requires |s| == 512
    ensures var h := ParseHeader(s);
            && h.magic == s[0..8] && h.version == UnLe(s[8..12]) && h.totalSize == UnLe(s[12..20])
            && h.headerSize == UnLe(s[20..28]) && h.blockSize == UnLe(s[28..36])
  {
    var w := HEADER_WIDTHS;
    HeaderOffsets(w);
    FieldOf(w, s, 0, 0);
    FieldOf(w, s, 1, 8);
    FieldOf(w, s, 2, 12);
    FieldOf(w, s, 3, 20);
    FieldOf(w, s, 4, 28);
  }

  lemma ParsedUsers(s: bytes)
    requires |s| == 512
    ensures var h := ParseHeader(s);
            && h.configTime == UnLe(s[148..156]) && h.userTable == UnLe(s[156..160])
            && h.maxUsers == UnLe(s[160..164])
  {
    var w := HEADER_WIDTHS;
    HeaderOffsets(w);
    FieldOf(w, s, 8, 148);
    FieldOf(w, s, 9, 156);
    FieldOf(w, s, 10, 160);
  }

  lemma ParsedRegions(s: bytes)
    requires |s| == 512
    ensures var h := ParseHeader(s); h.metadata == UnLe(s[164..168]) && h.bitmap == UnLe(s[168..172])
  {
    var w := HEADER_WIDTHS;
    HeaderOffsets(w);
    FieldOf(w, s, 11, 164);
    FieldOf(w, s, 12, 168);
  }

  lemma ParsedReserved(s: bytes)
    requires |s| == 512
    ensures ParseHeader(s).reserved == s[172..512]
  {
    var w := HEADER_WIDTHS;
    HeaderOffsets(w);
    FieldOf(w, s, 13, 172);
  }

  /** Code table and next number as `fs_init` reads them. */
  lemma MountedReserved(d: bytes, m: Mounted)
    requires |d| >= 512 && Mount(d) == Some(m)
    ensures CodeTable(m.header) == d[236..492]
    ensures m.next == var x := UnLe(d[492..500]); if x == 0 then 2 else x
  {
    var s := d[0..512];
    ParsedHeader(s);
    SliceOfSlice(s, 172, 512, 64, 320);
    SliceOfSlice(s, 172, 512, 320, 328);
    SliceOfSlice(d, 0, 512, 236, 492);
    SliceOfSlice(d, 0, 512, 492, 500);
  }

  /** The numbers of blocks and records: as many records as fit between metadata and bitmap, and
      the blocks that fit in what header, users and records leave of the volume, without room for
      the bitmap; if that is not even one block, those that fit between the records and the end of
      the image, and at least one. */
  lemma MountedCounts(d: bytes, m: Mounted)
    requires |d| >= 512 && Mount(d) == Some(m)
    ensures var h, s := m.header, d[0..512];
            && h == ParseHeader(s) && h.bitmap >= h.metadata && h.blockSize > 0 && (h.bitmap - h.metadata) % 72 == 0
            && var count := (h.bitmap - h.metadata) / 72;
               var left := (h.totalSize - h.headerSize - h.maxUsers * 128 - count * 72) % U64;
               var n := if left >= h.blockSize then left / h.blockSize
                        else var rest := (|d| - h.bitmap) % U64 / h.blockSize; if rest == 0 then 1 else rest;
               && m.numBlocks == n % U32 && m.blocksOffset == (h.bitmap + (n + 7) / 8) % U32
               && (h.bitmap <= |d| ==> |m.meta| == count)
               && (h.userTable + h.maxUsers * 128 <= |d| ==> |m.users| == h.maxUsers)
               && (h.bitmap + (n + 7) / 8 <= |d| ==> |m.bitmap| == (n + 7) / 8)
  {
    var h := m.header;
    var count := (h.bitmap - h.metadata) / 72;
    assert count * 72 == h.bitmap - h.metadata;
    var left := (h.totalSize - h.headerSize - h.maxUsers * 128 - count * 72) % U64;
    if left >= h.blockSize {
      AtLeastOne(left, h.blockSize);
    }
  }

  lemma AtLeastOne(a: nat, b: nat)
    requires 0 < b <= a
    ensures a / b >= 1
  {
    DivBounds(a, b);
  }

  lemma MountedTables(d: bytes, m: Mounted)
    requires |d| >= 512 && Mount(d) == Some(m)
    ensures m.meta == ReadTable(ParseEntry, 72, d, m.header.metadata, |m.meta|)
    ensures m.users == ReadTable(ParseUser, 128, d, m.header.userTable, |m.users|)
  {
  }

  /** The records, users and bitmap bytes that are read, one by one. */
  lemma MountedRecord(d: bytes, m: Mounted, k: nat)
    requires |d| >= 512 && Mount(d) == Some(m) && k < |m.meta|
    ensures var at := m.header.metadata + k * 72; at + 72 <= |d| && m.meta[k] == ParseEntry(d[at..at + 72])
  {
    MountedTables(d, m);
    RecordAt(d, m.header.metadata, m.meta, k);
  }

  lemma MountedUser(d: bytes, m: Mounted, k: nat)
    requires |d| >= 512 && Mount(d) == Some(m) && k < |m.users|
    ensures var at := m.header.userTable + k * 128; at + 128 <= |d| && m.users[k] == ParseUser(d[at..at + 128])
  {
    MountedTables(d, m);
    UserAt(d, m.header.userTable, m.users, k);
  }

  lemma RecordAt(d: bytes, pos: nat, xs: table, k: nat)
    requires k < |xs| && xs == ReadTable(ParseEntry, 72, d, pos, |xs|)
    ensures var at := pos + k * 72; at + 72 <= |d| && xs[k] == ParseEntry(d[at..at + 72])
  {
    ReadAt(ParseEntry, 72, d, pos, xs, k, k * 72);
  }

  lemma UserAt(d: bytes, pos: nat, xs: seq<UserInfo>, k: nat)
    requires k < |xs| && xs == ReadTable(ParseUser, 128, d, pos, |xs|)
    ensures var at := pos + k * 128; at + 128 <= |d| && xs[k] == ParseUser(d[at..at + 128])
  {
    ReadAt(ParseUser, 128, d, pos, xs, k, k * 128);
  }

  lemma MountedBits(d: bytes, m: Mounted, k: nat)
    requires |d| >= 512 && Mount(d) == Some(m) && k < |m.bitmap|
    ensures m.header.bitmap + k < |d| && m.bitmap[k] == d[m.header.bitmap + k] as bv8
  {
    MountedBit(d, m, k);
    ParsedBits(d, m.header.bitmap + k);
  }

  lemma MountedBit(d: bytes, m: Mounted, k: nat)
    requires |d| >= 512 && Mount(d) == Some(m) && k < |m.bitmap|
    ensures var at := m.header.bitmap + k; at + 1 <= |d| && m.bitmap[k] == ParseBits(d[at..at + 1])
  {
    ReadAt(ParseBits, 1, d, m.header.bitmap, m.bitmap, k, k);
  }

  lemma ParsedBits(d: bytes, at: nat)
    requires at + 1 <= |d|
    ensures ParseBits(d[at..at + 1]) == d[at] as bv8
  {
  }

  lemma ReadAt<T>(g: bytes -> T, w: nat, d: bytes, pos: nat, xs: seq<T>, k: nat, at: nat)
    requires k < |xs| && at == k * w && xs == ReadTable(g, w, d, pos, |xs|)
    ensures pos + at + w <= |d| && xs[k] == g(d[pos + at..pos + at + w])
  {
    var n := |xs|;
    MulStep(k, n, w);
    assert pos + n * w <= |d|;
    SliceOfSlice(d, pos, pos + n * w, at, at + w);
  }

  // ---- The order of bits ----

  /** Bit `i` of the bitmap is bit `i % 8`, counted from the least significant, of byte `i / 8`. */
  lemma BitIs(b: bits, i: nat)
    requires i < 8 * |b|
    ensures BitGet(b, i) <==> (b[i / 8] >> (i % 8) as bv8) & 1 == 1
  {
    MaskValues();
    var x, k := b[i / 8], i % 8;
    assert x & 1 != 0 <==> (x >> 0) & 1 == 1;
    assert x & 2 != 0 <==> (x >> 1) & 1 == 1;
    assert x & 4 != 0 <==> (x >> 2) & 1 == 1;
    assert x & 8 != 0 <==> (x >> 3) & 1 == 1;
    assert x & 16 != 0 <==> (x >> 4) & 1 == 1;
    assert x & 32 != 0 <==> (x >> 5) & 1 == 1;
    assert x & 64 != 0 <==> (x >> 6) & 1 == 1;
    assert x & 128 != 0 <==> (x >> 7) & 1 == 1;
  }
}
