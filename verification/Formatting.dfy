/** `fs_format`: the image it writes, and the volume that `fs_init` then shows. */
module Formatting {
  import opened Bytes
  import opened Wrappers
  import opened Bitmap
  import opened Chains
  import opened Tree
  import opened TreeChanges
  import opened State
  import opened Disk
  import opened Layout
  import opened Instance
  import opened Mounting
  import Image
  import Records
  import Runs
  import ByteLayout

  const VERSION: nat := 0x1_0000

  /** What is configured, and the time of formatting. */
  datatype Config = Config(total: nat, header: nat, bs: nat, users: seq<Records.UserInfo>, maxFiles: nat, time: nat)

  function Avail(c: Config): nat {
    Available(c.total, c.header, |c.users|, c.maxFiles)
  }

  predicate Accepted(c: Config) {
    ConfigAccepted(c.total, c.header, c.bs, |c.users|, c.maxFiles)
  }

  predicate TypedConfig(c: Config) {
    && c.total < U64 && c.header < U64 && c.bs < U32 && |c.users| < U32 && 1 <= c.maxFiles < U32 && c.time < U64
    && (forall k | 0 <= k < |c.users| :: Records.TypedUser(c.users[k]))
  }

  function MetaAt(c: Config): nat {
    c.header + |c.users| * USER_BYTES
  }

  function BitmapAt(c: Config): nat {
    MetaAt(c) + c.maxFiles * META_BYTES
  }

  /** The image is long enough for all that is written: a file grows with zeros when it is read
      or written past its end. Without the wrap-around of the subtractions this is `total`. */
  predicate Spans(c: Config, size: nat) {
    c.total <= size && BitmapAt(c) + Avail(c) <= size
  }

  function FormatHeader(c: Config): Records.Header {
    Records.Header(Image.MAGIC, VERSION, c.total, c.header, c.bs, Zeros(32), Zeros(16), Zeros(64), c.time,
                   c.header % U32, |c.users|, MetaAt(c) % U32, BitmapAt(c) % U32, Patch(Zeros(340), 320, Le(2, 8)))
  }

  /** The writes of `fs_format` for `n` blocks. */
  function FormatPuts(c: Config, n: nat): seq<Image.Put> {
    [Image.Put(0, Records.HeaderBytes(FormatHeader(c))), Image.Put(c.header, Image.UserTable(c.users)),
     Image.Put(MetaAt(c), Image.MetaTable(Runs.FreshTable(c.maxFiles))), Image.Put(BitmapAt(c), Zeros(BitmapBytes(n)))]
  }

  function FormattedImage(c: Config, n: nat, size: nat): (d: bytes)
    ensures |d| == size
  {
    Image.Writes(Zeros(size), FormatPuts(c, n))
  }

  /** `fs_format`, on an image of `size` bytes. */
  method FsFormat(c: Config, size: nat) returns (ok: bool, image: array<byte>, n: nat)
    requires TypedConfig(c) && Spans(c, size)
    requires c.bs >= 128 ==> !Oscillates(Avail(c), c.bs)
    ensures ok <==> Accepted(c)
    ensures fresh(image)
    ensures ok ==> image[..] == FormattedImage(c, n, size)
    ensures ok ==> Largest(Avail(c), c.bs, n)
  {
    n := 0;
    image := new byte[size](_ => 0);
    var g;
    ok, g := FormatGeometry(c.total, c.header, c.bs, |c.users|, c.maxFiles);
    if !ok {
      return;
    }
    n := g.numBlocks;
    LargestFits(Avail(c), c.bs, n);
    assert image[..] == Zeros(size);
    WriteTables(image, c, n);
  }

  method PutAt(image: array<byte>, p: Image.Put)
    requires p.pos + |p.data| <= image.Length
    modifies image
    ensures image[..] == Image.Write(old(image[..]), p)
  {
    WriteAt(image, p.pos, p.data);
  }

  method WriteTables(image: array<byte>, c: Config, n: nat)
    requires HEADER_BYTES <= c.header && BitmapAt(c) + BitmapBytes(n) <= image.Length
    modifies image
    ensures image[..] == Image.Writes(old(image[..]), FormatPuts(c, n))
  {
    PutSizes(c, n);
    Image.FourWrites(image[..], FormatPuts(c, n));
    PutAt(image, Image.Put(0, Records.HeaderBytes(FormatHeader(c))));
    PutAt(image, Image.Put(c.header, Image.UserTable(c.users)));
    PutAt(image, Image.Put(MetaAt(c), Image.MetaTable(Runs.FreshTable(c.maxFiles))));
    PutAt(image, Image.Put(BitmapAt(c), Zeros((n + 7) / 8)));
  }

  lemma PutSizes(c: Config, n: nat)
    ensures |Records.HeaderBytes(FormatHeader(c))| == HEADER_BYTES
    ensures |Image.UserTable(c.users)| == |c.users| * USER_BYTES
    ensures |Image.MetaTable(Runs.FreshTable(c.maxFiles))| == c.maxFiles * META_BYTES
  {
    Records.HeaderSize(FormatHeader(c));
    Image.TableSizes(c.users, Runs.FreshTable(c.maxFiles), []);
  }

  // ---- The bytes of a formatted image ----

  lemma FormatAscends(c: Config, n: nat, size: nat)
    requires HEADER_BYTES <= c.header && BitmapAt(c) + BitmapBytes(n) <= size
    ensures Image.Ascending(Records.HeaderBytes(FormatHeader(c)), c.header, Image.UserTable(c.users), MetaAt(c),
                            Image.MetaTable(Runs.FreshTable(c.maxFiles)), BitmapAt(c), Zeros(BitmapBytes(n)), size)
  {
    PutSizes(c, n);
  }

  lemma FormattedRange(c: Config, n: nat, size: nat, j: nat, pos: nat, data: bytes)
    requires HEADER_BYTES <= c.header && BitmapAt(c) + BitmapBytes(n) <= size
    requires j < 4 && FormatPuts(c, n)[j] == Image.Put(pos, data)
    ensures ByteLayout.LiesAt(FormattedImage(c, n, size), pos, data)
  {
    FormatAscends(c, n, size);
    Image.FourHit(Zeros(size), FormatPuts(c, n), Records.HeaderBytes(FormatHeader(c)), c.header,
                  Image.UserTable(c.users), MetaAt(c), Image.MetaTable(Runs.FreshTable(c.maxFiles)), BitmapAt(c),
                  Zeros(BitmapBytes(n)), j, pos, data);
  }

  /** The header as `fs_format` writes it: the magic "OMNIFS01", version 1.0, the configured sizes
      and the offsets of the regions, the entry number 2 as the next one, and zeros elsewhere. */
  lemma FormattedHeader(c: Config, n: nat, size: nat)
    requires TypedConfig(c) && HEADER_BYTES <= c.header && BitmapAt(c) + BitmapBytes(n) <= size
    ensures var d := FormattedImage(c, n, size);
            && ByteLayout.LiesAt(d, 0, [79, 77, 78, 73, 70, 83, 48, 49]) && ByteLayout.LiesAt(d, 8, Le(0x1_0000, 4))
            && ByteLayout.LiesAt(d, 12, Le(c.total, 8)) && ByteLayout.LiesAt(d, 20, Le(c.header, 8))
            && ByteLayout.LiesAt(d, 28, Le(c.bs, 8)) && ByteLayout.LiesAt(d, 148, Le(c.time, 8))
            && ByteLayout.LiesAt(d, 156, Le(c.header % U32, 4)) && ByteLayout.LiesAt(d, 160, Le(|c.users|, 4))
            && ByteLayout.LiesAt(d, 164, Le((c.header + |c.users| * 128) % U32, 4))
            && ByteLayout.LiesAt(d, 168, Le((c.header + |c.users| * 128 + c.maxFiles * 72) % U32, 4))
            && ByteLayout.LiesAt(d, 36, Zeros(32)) && ByteLayout.LiesAt(d, 68, Zeros(16))
            && ByteLayout.LiesAt(d, 84, Zeros(64)) && ByteLayout.LiesAt(d, 172, Zeros(320))
            && ByteLayout.LiesAt(d, 492, Le(2, 8)) && ByteLayout.LiesAt(d, 500, Zeros(12))
  {
    var d, h := FormattedImage(c, n, size), FormatHeader(c);
    var s := Records.HeaderBytes(h);
    FormattedRange(c, n, size, 0, 0, s);
    FormatTail(c, d, s);
    FormatNumbers(c, d, s);
  }

  lemma FormatTail(c: Config, d: bytes, s: bytes)
    requires TypedConfig(c) && s == Records.HeaderBytes(FormatHeader(c)) && ByteLayout.LiesAt(d, 0, s)
    ensures ByteLayout.LiesAt(d, 172, Zeros(320)) && ByteLayout.LiesAt(d, 492, Le(2, 8))
      && ByteLayout.LiesAt(d, 500, Zeros(12))
  {
    var r := FormatHeader(c).reserved;
    ByteLayout.HeaderLayout(FormatHeader(c));
    FormatReserved(r);
    ByteLayout.WithinLies(d, 0, s, 172, r);
    ByteLayout.WithinLies(d, 172, r, 0, Zeros(320));
    ByteLayout.WithinLies(d, 172, r, 320, Le(2, 8));
    ByteLayout.WithinLies(d, 172, r, 328, Zeros(12));
  }

  lemma FormatReserved(r: bytes)
    requires r == Patch(Zeros(340), 320, Le(2, 8))
    ensures ByteLayout.LiesAt(r, 0, Zeros(320)) && ByteLayout.LiesAt(r, 320, Le(2, 8))
    ensures ByteLayout.LiesAt(r, 328, Zeros(12))
  {
  }

  lemma FormatNumbers(c: Config, d: bytes, s: bytes)
    requires TypedConfig(c) && s == Records.HeaderBytes(FormatHeader(c)) && ByteLayout.LiesAt(d, 0, s)
    ensures ByteLayout.LiesAt(d, 0, [79, 77, 78, 73, 70, 83, 48, 49]) && ByteLayout.LiesAt(d, 8, Le(0x1_0000, 4))
    ensures ByteLayout.LiesAt(d, 12, Le(c.total, 8)) && ByteLayout.LiesAt(d, 20, Le(c.header, 8))
    ensures ByteLayout.LiesAt(d, 28, Le(c.bs, 8)) && ByteLayout.LiesAt(d, 148, Le(c.time, 8))
    ensures ByteLayout.LiesAt(d, 156, Le(c.header % U32, 4)) && ByteLayout.LiesAt(d, 160, Le(|c.users|, 4))
    ensures ByteLayout.LiesAt(d, 164, Le((c.header + |c.users| * 128) % U32, 4))
    ensures ByteLayout.LiesAt(d, 168, Le((c.header + |c.users| * 128 + c.maxFiles * 72) % U32, 4))
    ensures ByteLayout.LiesAt(d, 36, Zeros(32)) && ByteLayout.LiesAt(d, 68, Zeros(16))
      && ByteLayout.LiesAt(d, 84, Zeros(64))
  {
    ByteLayout.HeaderLayout(FormatHeader(c));
    ByteLayout.WithinLies(d, 0, s, 0, [79, 77, 78, 73, 70, 83, 48, 49]);
    ByteLayout.WithinLies(d, 0, s, 8, Le(0x1_0000, 4));
    ByteLayout.WithinLies(d, 0, s, 12, Le(c.total, 8));
    ByteLayout.WithinLies(d, 0, s, 20, Le(c.header, 8));
    ByteLayout.WithinLies(d, 0, s, 28, Le(c.bs, 8));
    ByteLayout.WithinLies(d, 0, s, 148, Le(c.time, 8));
    ByteLayout.WithinLies(d, 0, s, 156, Le(c.header % U32, 4));
    ByteLayout.WithinLies(d, 0, s, 160, Le(|c.users|, 4));
    ByteLayout.WithinLies(d, 0, s, 164, Le((c.header + |c.users| * 128) % U32, 4));
    ByteLayout.WithinLies(d, 0, s, 168, Le((c.header + |c.users| * 128 + c.maxFiles * 72) % U32, 4));
    ByteLayout.WithinLies(d, 0, s, 36, Zeros(32));
    ByteLayout.WithinLies(d, 0, s, 68, Zeros(16));
    ByteLayout.WithinLies(d, 0, s, 84, Zeros(64));
  }

  /** The tables as `fs_format` writes them: users, records, and zeros from the bitmap on. */
  lemma FormattedUser(c: Config, n: nat, size: nat, k: nat)
    requires HEADER_BYTES <= c.header && BitmapAt(c) + BitmapBytes(n) <= size && k < |c.users|
    ensures ByteLayout.LiesAt(FormattedImage(c, n, size), c.header + k * 128, Records.UserBytes(c.users[k]))
  {
    FormattedRange(c, n, size, 1, c.header, Image.UserTable(c.users));
    ByteLayout.UserLies(FormattedImage(c, n, size), c.header, c.users, k);
  }

  lemma FormattedMeta(c: Config, n: nat, size: nat)
    requires HEADER_BYTES <= c.header && BitmapAt(c) + BitmapBytes(n) <= size
    ensures ByteLayout.LiesAt(FormattedImage(c, n, size), c.header + |c.users| * 128,
                              Image.MetaTable(Runs.FreshTable(c.maxFiles)))
  {
    FormattedRange(c, n, size, 2, MetaAt(c), Image.MetaTable(Runs.FreshTable(c.maxFiles)));
  }

  /** The first record is the live directory "root", all others are dead; all have mode 0644. */
  lemma FreshRecords(n: nat, k: nat)
    requires k < n
    ensures Runs.FreshTable(n)[k]
         == if k == 0 then MetaEntry(0, 1, 0, [114, 111, 111, 116], 0, 0, 0, 0x1A4, 0, 0, Zeros(18))
            else MetaEntry(1, 0, 0, [], 0, 0, 0, 0x1A4, 0, 0, Zeros(18))
  {
  }

  lemma FormattedRest(c: Config, n: nat, size: nat, i: nat)
    requires HEADER_BYTES <= c.header && BitmapAt(c) + BitmapBytes(n) <= size
    requires c.header + |c.users| * 128 + c.maxFiles * 72 <= i < size
    ensures FormattedImage(c, n, size)[i] == 0
  {
    Image.FourWrites(Zeros(size), FormatPuts(c, n));
    RestIsZero(c, n, size, i);
  }

  // ---- Format, then init ----

  /** What `fs_init` reads from the image, with the larger block count that it computes. */
  function FormatMount(c: Config): Image.Mounted
    requires c.bs >= 128
  {
    var n := InitBlocks(Avail(c), c.bs);
    Image.Mounted(FormatHeader(c), c.users, Runs.FreshTable(c.maxFiles), NoBits(BitmapBytes(n)), n,
                  BitmapAt(c) + BitmapBytes(n), 2)
  }

  function NoBits(n: nat): (b: bits)
    ensures |b| == n
  {
    seq(n, _ => 0)
  }

  /** The regions end within 32 bits, and the image reaches to the last block of `fs_init`. */
  predicate Reaches(c: Config, size: nat)
    requires c.bs >= 128
  {
    var m := FormatMount(c);
    m.blocksOffset < U32 && m.numBlocks < U32 && Pos(m.blocksOffset, c.bs, m.numBlocks) <= size
  }

  lemma HeaderNumbers(c: Config)
    requires TypedConfig(c) && BitmapAt(c) < U32
    ensures var h := FormatHeader(c);
            Records.TypedHeader(h) && h.userTable == c.header && h.metadata == MetaAt(c) && h.bitmap == BitmapAt(c)
  {
    Image.SmallMod(c.header);
    Image.SmallMod(MetaAt(c));
    Image.SmallMod(BitmapAt(c));
  }

  lemma FormatRegions(c: Config, size: nat)
    requires TypedConfig(c) && Accepted(c) && Reaches(c, size)
    ensures Image.Regions(FormatMount(c), size)
  {
    HeaderNumbers(c);
  }

  lemma FormatCounts(c: Config, n: nat)
    requires Accepted(c) && n == InitBlocks(Avail(c), c.bs) && n < U32
    ensures Image.Counts(FormatMount(c))
  {
    assert Image.Candidate(FormatHeader(c), c.maxFiles) == Avail(c);
  }

  lemma FormatGeometryOk(c: Config, size: nat)
    requires TypedConfig(c) && Accepted(c) && Reaches(c, size)
    ensures Image.Geometry(FormatMount(c), size)
  {
    FormatRegions(c, size);
    FormatCounts(c, InitBlocks(Avail(c), c.bs));
  }

  /** Nothing in the header is in the way of the code table, which stays all zero. */
  lemma CodeIsZero(c: Config)
    ensures Image.CodeTable(FormatHeader(c)) == Zeros(256)
  {
    PatchElsewhere(Zeros(340), 320, Le(2, 8), 64, 320);
    assert Zeros(340)[64..320] == Zeros(256);
  }

  lemma PatchTwice(d: bytes, pos: nat, data: bytes)
    requires pos + |data| <= |d|
    ensures Patch(Patch(d, pos, data), pos, data) == Patch(d, pos, data)
  {
  }

  lemma NextIsTwo(c: Config)
    ensures Image.WithNext(FormatHeader(c), 2) == FormatHeader(c) && Image.NextIndex(FormatHeader(c)) == 2
  {
    Records.Le8(2);
    PatchTwice(Zeros(340), 320, Le(2, 8));
  }

  lemma BitOf(k: nat, i: nat)
    requires i < k
    ensures i < |Image.BitmapTable(NoBits(k))| && Image.BitmapTable(NoBits(k))[i] == 0
  {
    var b := NoBits(k);
    Image.TableSizes([], [], b);
    Records.PackAt(Records.BitsByte, 1, b, i);
    assert Image.BitmapTable(b)[i..i + 1] == [0];
  }

  /** An empty bitmap is written as zeros. */
  lemma EmptyBitmap(k: nat)
    ensures Image.BitmapTable(NoBits(k)) == Zeros(k)
  {
    Image.TableSizes([], [], NoBits(k));
    forall i | 0 <= i < k ensures Image.BitmapTable(NoBits(k))[i] == 0 {
      BitOf(k, i);
    }
  }

  /** Zeros written over zeros change nothing. */
  lemma ZerosOverZeros(d: bytes, pos: nat, k: nat)
    requires pos + k <= |d| && forall i | pos <= i < |d| :: d[i] == 0
    ensures Image.Write(d, Image.Put(pos, Zeros(k))) == d
  {
  }

  /** What the empty volume has to save. */
  lemma FormatTables(c: Config)
    requires TypedConfig(c) && c.bs >= 128
    ensures var m := FormatMount(c);
            && Image.HeaderTable(m) == Records.HeaderBytes(FormatHeader(c)) && m.users == c.users
            && m.meta == Runs.FreshTable(c.maxFiles)
            && Image.BitmapTable(m.bitmap) == Zeros(BitmapBytes(InitBlocks(Avail(c), c.bs)))
  {
    NextIsTwo(c);
    EmptyBitmap(BitmapBytes(InitBlocks(Avail(c), c.bs)));
  }

  lemma SamePuts(c: Config, n: nat)
    requires TypedConfig(c) && Accepted(c) && BitmapAt(c) < U32
    ensures var ps, qs := FormatPuts(c, n), Image.SavePuts(FormatMount(c));
            && |ps| == |qs| == 4 && ps[0] == qs[0] && ps[1] == qs[1] && ps[2] == qs[2]
            && ps[3] == Image.Put(BitmapAt(c), Zeros(BitmapBytes(n)))
            && qs[3] == Image.Put(BitmapAt(c), Zeros(BitmapBytes(InitBlocks(Avail(c), c.bs))))
  {
    HeaderNumbers(c);
    FormatTables(c);
  }

  lemma WriteMisses(d: bytes, p: Image.Put, i: nat)
    requires i < |d| && p.pos + |p.data| <= i
    ensures Image.Write(d, p)[i] == d[i]
  {
  }

  lemma ThreeMiss(d: bytes, p: Image.Put, q: Image.Put, r: Image.Put, i: nat)
    requires i < |d| && p.pos + |p.data| <= i && q.pos + |q.data| <= i && r.pos + |r.data| <= i
    ensures Image.Write(Image.Write(Image.Write(d, p), q), r)[i] == d[i]
  {
    WriteMisses(d, p, i);
    WriteMisses(Image.Write(d, p), q, i);
    WriteMisses(Image.Write(Image.Write(d, p), q), r, i);
  }

  lemma PutsBefore(c: Config, n: nat)
    requires HEADER_BYTES <= c.header
    ensures var ps := FormatPuts(c, n);
            && ps[0].pos + |ps[0].data| <= BitmapAt(c) && ps[1].pos + |ps[1].data| <= BitmapAt(c)
            && ps[2].pos + |ps[2].data| <= BitmapAt(c)
  {
    PutSizes(c, n);
  }

  /** After the first three writes, everything from the bitmap on is zero. */
  lemma RestIsZero(c: Config, n: nat, size: nat, i: nat)
    requires HEADER_BYTES <= c.header && BitmapAt(c) <= i < size
    ensures var ps := FormatPuts(c, n);
            Image.Write(Image.Write(Image.Write(Zeros(size), ps[0]), ps[1]), ps[2])[i] == 0
  {
    var ps := FormatPuts(c, n);
    PutsBefore(c, n);
    ThreeMiss(Zeros(size), ps[0], ps[1], ps[2], i);
  }

  function AfterThree(d: bytes, ps: seq<Image.Put>): (r: bytes)
    requires |ps| == 4
    ensures |r| == |d|
  {
    Image.Write(Image.Write(Image.Write(d, ps[0]), ps[1]), ps[2])
  }

  /** Two lists of writes that differ in the number of zeros written last. */
  lemma SameButZeros(d: bytes, ps: seq<Image.Put>, qs: seq<Image.Put>, pos: nat, j: nat, k: nat)
    requires |ps| == |qs| == 4 && ps[0] == qs[0] && ps[1] == qs[1] && ps[2] == qs[2]
    requires ps[3] == Image.Put(pos, Zeros(j)) && qs[3] == Image.Put(pos, Zeros(k))
    requires pos + j <= |d| && pos + k <= |d| && forall i | pos <= i < |d| :: AfterThree(d, ps)[i] == 0
    ensures Image.Writes(d, ps) == Image.Writes(d, qs)
  {
    Image.FourWrites(d, ps);
    Image.FourWrites(d, qs);
    ZerosOverZeros(AfterThree(d, ps), pos, j);
    ZerosOverZeros(AfterThree(d, ps), pos, k);
  }

  lemma ZeroFrom(c: Config, n: nat, size: nat)
    requires HEADER_BYTES <= c.header
    ensures forall i | BitmapAt(c) <= i < size :: AfterThree(Zeros(size), FormatPuts(c, n))[i] == 0
  {
    forall i | BitmapAt(c) <= i < size ensures AfterThree(Zeros(size), FormatPuts(c, n))[i] == 0 {
      RestIsZero(c, n, size, i);
    }
  }

  /** The formatted image is the image that a shutdown of the empty volume would save, although
      the two count blocks differently. */
  lemma FormattedIsSaved(c: Config, n: nat, m: nat, size: nat)
    requires TypedConfig(c) && Accepted(c) && BitmapAt(c) < U32 && m == BitmapBytes(InitBlocks(Avail(c), c.bs))
    requires BitmapAt(c) + BitmapBytes(n) <= size && BitmapAt(c) + m <= size
    ensures FormattedImage(c, n, size) == Image.Save(Zeros(size), FormatMount(c))
  {
    SamePuts(c, n);
    ZeroFrom(c, n, size);
    SameButZeros(Zeros(size), FormatPuts(c, n), Image.SavePuts(FormatMount(c)), BitmapAt(c), BitmapBytes(n), m);
  }

  lemma ZeroBlock(size: nat, pos: nat, bs: nat)
    requires 4 <= bs && pos + bs <= size
    ensures BlockAt(Zeros(size), pos, bs) == Block(0, Zeros(bs - 4))
  {
    var d := Zeros(size);
    assert d[pos..pos + 4] == [0, 0, 0, 0];
    assert UnLe([0, 0, 0, 0]) == 0 by {
      assert [0, 0, 0, 0][1..] == [0, 0, 0] && [0, 0, 0][1..] == [0, 0];
    }
  }

  lemma NoFlags(k: nat, i: nat)
    requires i < 8 * k
    ensures !Flags(NoBits(k))[i]
  {
  }

  /** Zeroed blocks, no flag set, the root alone in the index: the empty volume. */
  lemma FormatShows(c: Config, size: nat)
    requires TypedConfig(c) && Accepted(c) && Reaches(c, size)
    ensures Image.Geometry(FormatMount(c), size)
    ensures Shown(Zeros(size), FormatMount(c)) == Runs.FreshVolume(c.bs, InitBlocks(Avail(c), c.bs), c.maxFiles)
  {
    FormatGeometryOk(c, size);
    var m, v := FormatMount(c), Runs.FreshVolume(c.bs, InitBlocks(Avail(c), c.bs), c.maxFiles);
    var w := Shown(Zeros(size), m);
    GeometryFits(m, size);
    forall k | 0 <= k < m.numBlocks ensures w.blocks[k] == v.blocks[k] {
      InRegion(Zeros(size), m.blocksOffset, c.bs, m.numBlocks, k);
      ZeroBlock(size, Pos(m.blocksOffset, c.bs, k), c.bs);
    }
    forall k | 0 <= k < m.numBlocks ensures !w.used[k] {
      NoFlags(|m.bitmap|, k);
    }
    assert w.used == v.used;
    Runs.FreshTree(c.maxFiles);
    RebuildIs(m.meta, v.index);
    CodeIsZero(c);
    NextIsTwo(c);
  }

  lemma FormatBounds(c: Config, n: nat, size: nat)
    requires c.bs >= 128 && Spans(c, size) && Reaches(c, size) && BitmapBytes(n) <= Avail(c)
    ensures BitmapAt(c) < U32 && BitmapAt(c) + BitmapBytes(n) <= size
    ensures BitmapAt(c) + BitmapBytes(InitBlocks(Avail(c), c.bs)) <= size
  {
    var m := FormatMount(c);
    StartOfRegion(m.blocksOffset, c.bs, m.numBlocks);
  }

  /** Formatting and mounting establish the whole invariant, for every accepted configuration
      whose tables fit: `fs_init` recognises the image and shows the empty volume. */
  lemma FormatThenInit(c: Config, n: nat, size: nat)
    requires TypedConfig(c) && Accepted(c) && Spans(c, size) && Reaches(c, size)
    requires Largest(Avail(c), c.bs, n)
    ensures var d, m := FormattedImage(c, n, size), FormatMount(c);
            && !Image.NeedsFormat(d) && Image.Mount(d) == Some(m) && Image.Geometry(m, |d|)
            && Shown(d, m) == Runs.FreshVolume(c.bs, InitBlocks(Avail(c), c.bs), c.maxFiles)
            && Inv(Shown(d, m))
  {
    LargestFits(Avail(c), c.bs, n);
    FormatShows(c, size);
    FormatBounds(c, n, size);
    FormattedIsSaved(c, n, BitmapBytes(InitBlocks(Avail(c), c.bs)), size);
    NextIsTwo(c);
    Runs.FreshTree(c.maxFiles);
    FreshTables(c);
    SavedShows(Zeros(size), FormatMount(c));
    Runs.FreshInv(c.bs, InitBlocks(Avail(c), c.bs), c.maxFiles);
  }

  lemma FreshTables(c: Config)
    requires TypedConfig(c) && c.bs >= 128
    ensures Image.TypedTables(FormatMount(c)) && IsDir(FormatMount(c).meta, 1)
  {
    Runs.BlankTyped();
  }

  /** `fs_init`: an image without header, magic or live root directory is formatted first. What
      is opened is then the empty volume; otherwise it is what the image holds. */
  method FsInit(image: array<byte>, c: Config, size: nat, hash: bytes -> nat)
    returns (ok: bool, inst: Option<FSInstance>)
    requires Image.NeedsFormat(image[..]) ==>
      TypedConfig(c) && Spans(c, size) && (c.bs >= 128 ==> Reaches(c, size) && !Oscillates(Avail(c), c.bs))
    ensures Image.NeedsFormat(image[..]) ==>
      && (ok <==> Accepted(c))
      && (ok ==>
            && inst.Some? && inst.value.Valid() && Inv(inst.value.View())
            && inst.value.header.totalSize == c.total && inst.value.users == c.users
            && inst.value.View() == Runs.FreshVolume(c.bs, InitBlocks(Avail(c), c.bs), c.maxFiles))
    ensures !Image.NeedsFormat(image[..]) ==>
      && ok == Image.Mount(image[..]).Some? == inst.Some?
      && (ok ==>
            var m := Image.Mount(image[..]).value;
            && inst.value.disk == image && inst.value.Held() == m
            && inst.value.pathIndex.contents == Rebuild(m.meta, |m.meta|)
            && (Image.Geometry(m, image.Length) ==> inst.value.Valid() && inst.value.View() == Shown(image[..], m)))
  {
    inst := None;
    if Image.NeedsFormat(image[..]) {
      var formatted, n;
      ok, formatted, n := FsFormat(c, size);
      if ok {
        FormatThenInit(c, n, size);
        inst := OpenImage(formatted, hash);
      }
    } else {
      inst := OpenImage(image, hash);
      ok := inst.Some?;
    }
  }
}
