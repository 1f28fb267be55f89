/** Opening a volume: `fs_init` on an image that needs no formatting, and the round trip
    through `fs_shutdown`. */
module Mounting {
  import opened Bytes
  import opened Wrappers
  import opened Bitmap
  import opened Tree
  import opened TreeChanges
  import opened State
  import opened Ops
  import opened Disk
  import opened Layout
  import opened Instance
  import HashMap
  import Image
  import Records

  const INDEX_BUCKETS: nat := 1009

  /** The number of blocks, as `fs_init` computes it from the header. */
  method CountBlocks(size: nat, h: Records.Header, metaCount: nat) returns (n: nat)
    requires h.blockSize > 0
    ensures n == Image.MountBlocks(size, h, metaCount)
  {
    var content := (h.totalSize - h.headerSize - h.maxUsers * USER_BYTES - metaCount * META_BYTES) % U64;
    if content < h.blockSize {
      content := (size - h.metadata - metaCount * META_BYTES) % U64;
    }
    n := content / h.blockSize;
    if n == 0 {
      n := 1;
    }
  }

  /** What a mount shows of an image with sound geometry. */
  ghost function Shown(d: bytes, m: Image.Mounted): (v: Volume)
    requires Image.Geometry(m, |d|)
  {
    GeometryFits(m, |d|);
    Volume(m.header.blockSize, BlocksOf(d, m.blocksOffset, m.header.blockSize, m.numBlocks),
           Flags(m.bitmap)[..m.numBlocks], m.meta, Rebuild(m.meta, |m.meta|), Image.CodeTable(m.header), m.next)
  }

  /** Sound geometry is what an instance needs of its header and its regions. */
  lemma GeometryFits(m: Image.Mounted, size: nat)
    requires Image.Geometry(m, size)
    ensures var h := m.header;
            && Image.HeaderFits(h, |m.users|, |m.meta|, |m.bitmap|, m.numBlocks, h.blockSize, h.metadata, h.bitmap)
            && |Image.CodeTable(h)| == 256 && m.numBlocks <= 8 * |m.bitmap|
            && h.blockSize >= 128 && Pos(m.blocksOffset, h.blockSize, m.numBlocks) <= size
            && HEADER_BYTES <= h.metadata
  {
  }

  /** What `fs_init` reads, piece by piece. */
  method ReadImage(d: bytes) returns (r: Option<Image.Mounted>)
    ensures r == Image.Mount(d)
  {
    var h := Records.ParseHeader(Image.Slice(d, 0, HEADER_BYTES));
    if h.blockSize == 0 || h.bitmap < h.metadata || (h.bitmap - h.metadata) % META_BYTES != 0 {
      return None;
    }
    var metaCount := (h.bitmap - h.metadata) / META_BYTES;
    var numBlocks := CountBlocks(|d|, h, metaCount);
    var users := Image.ReadTable(Records.ParseUser, USER_BYTES, d, h.userTable, h.maxUsers);
    var entries := Image.ReadTable(Records.ParseEntry, META_BYTES, d, h.metadata, metaCount);
    var bitmap := Image.ReadTable(Records.ParseBits, 1, d, h.bitmap, BitmapBytes(numBlocks));
    r := Some(Image.Mounted(h, users, entries, bitmap, numBlocks % U32, (h.bitmap + BitmapBytes(numBlocks)) % U32,
                            Image.NextIndex(h)));
  }

  /** An instance over an image, with the tables read from it. */
  method Assemble(image: array<byte>, m: Image.Mounted, hash: bytes -> nat) returns (inst: FSInstance)
    requires |m.header.reserved| == 340 && m.next == Image.NextIndex(m.header)
    ensures fresh(inst) && fresh(inst.meta) && fresh(inst.freeBitmap) && fresh(inst.pathIndex) && inst.disk == image
    ensures inst.Held() == m && inst.pathIndex.Valid()
    ensures Image.Geometry(m, image.Length) ==>
      inst.Valid() && inst.View().(index := Rebuild(m.meta, |m.meta|)) == Shown(image[..], m)
  {
    var meta := new MetaEntry[|m.meta|](k requires 0 <= k < |m.meta| => m.meta[k]);
    var freeBitmap := new bv8[|m.bitmap|](k requires 0 <= k < |m.bitmap| => m.bitmap[k]);
    assert meta[..] == m.meta && freeBitmap[..] == m.bitmap;
    var pathIndex := new HashMap.SimpleHashMap<nat>(hash, INDEX_BUCKETS);
    inst := new FSInstance(image, m.header, m.users, meta, freeBitmap, pathIndex, m.numBlocks, m.blocksOffset);
    if Image.Geometry(m, image.Length) {
      GeometryFits(m, image.Length);
      ShowsIs(image[..], m.blocksOffset, m.header.blockSize, inst.blocks);
    }
  }

  /** `fs_init` from the point on where the image is formatted. It mounts exactly what the image
      holds; the instance is in order when the regions named in the header are. */
  method OpenImage(image: array<byte>, hash: bytes -> nat) returns (r: Option<FSInstance>)
    requires !Image.NeedsFormat(image[..])
    ensures r.None? <==> Image.Mount(image[..]).None?
    ensures r.Some? ==>
      var inst, m := r.value, Image.Mount(image[..]).value;
      && fresh(inst) && fresh(inst.meta) && fresh(inst.freeBitmap) && fresh(inst.pathIndex) && inst.disk == image
      && inst.Held() == m && inst.pathIndex.Valid() && inst.pathIndex.contents == Rebuild(m.meta, |m.meta|)
      && (Image.Geometry(m, image.Length) ==> inst.Valid() && inst.View() == Shown(image[..], m))
  {
    var mounted := ReadImage(image[..]);
    if mounted.None? {
      return None;
    }
    Records.ReservedSize(Image.Slice(image[..], 0, HEADER_BYTES));
    var inst := Assemble(image, mounted.value, hash);
    inst.RebuildPathIndex();
    r := Some(inst);
  }

  // ---- Shutdown, then init ----

  /** What an instance in order holds lies in order on its disk. */
  lemma HeldGeometry(inst: FSInstance)
    requires inst.Valid() && Shape(inst.View())
    ensures Image.Geometry(inst.Held(), inst.disk.Length)
  {
  }

  /** An instance in order shows its disk, except for the index, which is built anew. */
  lemma ViewIsShown(inst: FSInstance)
    requires inst.Valid() && Image.Geometry(inst.Held(), inst.disk.Length)
    ensures Reindexed(inst.View()) == Shown(inst.disk[..], inst.Held())
    ensures Inv(inst.View()) ==> Reindexed(inst.View()) == inst.View()
  {
    ShowsIs(inst.disk[..], inst.blocksOffset, inst.bs, inst.blocks);
    if Inv(inst.View()) {
      RebuildIs(inst.meta[..], inst.pathIndex.contents);
    }
  }

  /** The saved image is mounted, not formatted, and shows what was there. */
  lemma SavedShows(d: bytes, m: Image.Mounted)
    requires Image.Geometry(m, |d|) && Image.TypedTables(m) && IsDir(m.meta, 1)
    ensures var s, n := Image.Save(d, m), m.(header := Image.WithNext(m.header, m.next));
            && !Image.NeedsFormat(s) && Image.Mount(s) == Some(n)
            && Image.Geometry(n, |s|) && Shown(s, n) == Shown(d, m)
  {
    Image.SavedIsGood(d, m);
    Image.SaveThenMount(d, m);
    Image.SaveKeepsBlocks(d, m);
    NextKeepsGeometry(m, |d|);
  }

  lemma NextKeepsGeometry(m: Image.Mounted, size: nat)
    requires Image.Geometry(m, size)
    ensures Image.Geometry(m.(header := Image.WithNext(m.header, m.next)), size)
    ensures Image.CodeTable(Image.WithNext(m.header, m.next)) == Image.CodeTable(m.header)
  {
    Image.WithNextKeeps(m.header, m.next);
  }

  lemma HeldTables(inst: FSInstance)
    requires Shape(inst.View()) && forall k | 0 <= k < |inst.users| :: Records.TypedUser(inst.users[k])
    ensures Image.TypedTables(inst.Held())
  {
  }

  /** An instance that is shut down and opened again, whatever the hash function, shows the
      same volume: records, bitmap, blocks, users and next number, and the rebuilt index, which
      is the old one when the volume is in order. It needs no more than a live root directory,
      which every reachable state has. */
  method Restart(inst: FSInstance, hash: bytes -> nat) returns (again: FSInstance)
    requires inst.Valid() && Shape(inst.View()) && IsDir(inst.meta[..], 1)
    requires forall k | 0 <= k < |inst.users| :: Records.TypedUser(inst.users[k])
    modifies inst.disk, inst`header
    ensures again.Valid() && again.View() == Reindexed(old(inst.View()))
    ensures old(Inv(inst.View())) ==> again.View() == old(inst.View())
    ensures again.users == inst.users && again.freeBitmap[..] == old(inst.freeBitmap[..])
    ensures fresh(again) && fresh(again.meta) && fresh(again.freeBitmap) && fresh(again.pathIndex)
      && again.disk == inst.disk
  {
    ghost var d, m := inst.disk[..], inst.Held();
    HeldGeometry(inst);
    ViewIsShown(inst);
    HeldTables(inst);
    SavedShows(d, m);
    inst.Shutdown();
    var r := OpenImage(inst.disk, hash);
    again := r.value;
  }
}
