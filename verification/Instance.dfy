/** The engine itself: an instance with its disk, bitmap, metadata table and path index, and
    the operations that change them in place, each proved against the function of Ops that
    describes it. */
module Instance {
  import opened Bytes
  import opened Counting
  import opened Bitmap
  import opened Chains
  import opened Paths
  import opened Tree
  import opened State
  import opened Ops
  import opened Disk
  import opened Layout
  import opened Creating
  import opened CreateTheorems
  import opened Editing
  import opened Accounting
  import opened Listings
  import opened Steps
  import Encoding
  import HashMap
  import Records
  import Image

  class FSInstance {
    const disk: array<byte>
    const freeBitmap: array<bv8>
    const meta: array<MetaEntry>
    const pathIndex: HashMap.SimpleHashMap<nat>
    const users: seq<Records.UserInfo>
    const encodingMap: Encoding.table
    const bs: nat
    const numBlocks: nat
    const blocksOffset: nat
    const metadataOffset: nat
    const bitmapOffset: nat
    var header: Records.Header
    var nextMetaIndex: nat
    ghost var blocks: seq<Block>  // what the block region holds
    ghost var used: seq<bool>     // what the bitmap says

    /** What never changes: sizes, and regions that follow each other on the disk. */
    ghost predicate Fixed() {
      && 128 <= bs < U32 && numBlocks < U32 && freeBitmap.Length == BitmapBytes(numBlocks)
      && 1 <= meta.Length < U32
      && HEADER_BYTES <= metadataOffset && metadataOffset + meta.Length * META_BYTES == bitmapOffset
      && bitmapOffset + freeBitmap.Length == blocksOffset
      && Pos(blocksOffset, bs, numBlocks) <= disk.Length
      && freeBitmap as object != disk && meta as object != disk && meta as object != freeBitmap
    }

    ghost predicate DiskOk()
      reads this`blocks, disk
    {
      |blocks| == numBlocks && Shows(disk[..], blocksOffset, bs, blocks)
    }

    ghost predicate BitsOk()
      reads this`used, freeBitmap
    {
      numBlocks <= 8 * freeBitmap.Length && used == Flags(freeBitmap[..])[..numBlocks]
    }

    ghost predicate HeaderOk()
      reads this`header
    {
      && Image.HeaderFits(header, |users|, meta.Length, freeBitmap.Length, numBlocks, bs, metadataOffset, bitmapOffset)
      && Image.CodeTable(header) == encodingMap
    }

    ghost predicate Valid()
      reads this, disk, freeBitmap, pathIndex
    {
      Fixed() && DiskOk() && BitsOk() && HeaderOk() && pathIndex.Valid()
    }

    /** The state of the volume that this instance has mounted. */
    ghost function View(): (v: Volume)
      reads this, meta, pathIndex
    {
      Volume(bs, blocks, used, meta[..], pathIndex.contents, encodingMap, nextMetaIndex)
    }

    /** All that a shutdown saves. */
    ghost function Held(): (m: Image.Mounted)
      reads this, meta, freeBitmap
    {
      Image.Mounted(header, users, meta[..], freeBitmap[..], numBlocks, blocksOffset, nextMetaIndex)
    }

    constructor (disk: array<byte>, header: Records.Header, users: seq<Records.UserInfo>, meta: array<MetaEntry>,
                 freeBitmap: array<bv8>, pathIndex: HashMap.SimpleHashMap<nat>, numBlocks: nat, blocksOffset: nat)
      requires |header.reserved| == 340
      ensures this.disk == disk && this.meta == meta && this.freeBitmap == freeBitmap && this.pathIndex == pathIndex
      ensures Held()
        == Image.Mounted(header, users, meta[..], freeBitmap[..], numBlocks, blocksOffset, Image.NextIndex(header))
      ensures bs == header.blockSize && metadataOffset == header.metadata && bitmapOffset == header.bitmap
      ensures encodingMap == Image.CodeTable(header)
      ensures Region(disk[..], blocksOffset, bs, numBlocks) ==>
        blocks == BlocksOf(disk[..], blocksOffset, bs, numBlocks)
      ensures used == Take(Flags(freeBitmap[..]), numBlocks)
    {
      this.disk := disk;
      this.freeBitmap := freeBitmap;
      this.meta := meta;
      this.pathIndex := pathIndex;
      this.users := users;
      this.header := header;
      this.numBlocks := numBlocks;
      this.blocksOffset := blocksOffset;
      bs := header.blockSize;
      metadataOffset := header.metadata;
      bitmapOffset := header.bitmap;
      encodingMap := Image.CodeTable(header);
      nextMetaIndex := Image.NextIndex(header);
      blocks :=
        if Region(disk[..], blocksOffset, header.blockSize, numBlocks)
        then BlocksOf(disk[..], blocksOffset, header.blockSize, numBlocks) else [];
      used := Take(Flags(freeBitmap[..]), numBlocks);
    }

    /** The disk before the block region: header, users, records and bitmap. */
    ghost function Front(): (f: bytes)
      requires Fixed()
      reads disk
      ensures |f| == blocksOffset
    {
      StartOfRegion(blocksOffset, bs, numBlocks);
      disk[..blocksOffset]
    }

    // What is written to the front.

    function MetaPut(t: table): Image.Put {
      Image.Put(metadataOffset, Image.MetaTable(t))
    }

    function BitsPut(b: bits): Image.Put {
      Image.Put(bitmapOffset, Image.BitmapTable(b))
    }

    function HeadPut(h: Records.Header): Image.Put {
      Image.Put(0, Records.HeaderBytes(h))
    }

    /** After records and bitmap are written. */
    function TablesWritten(f: bytes, t: table, b: bits): bytes {
      Image.Write(Image.Write(f, MetaPut(t)), BitsPut(b))
    }

    /** After records and header are written. */
    function EntriesWritten(f: bytes, t: table, h: Records.Header): bytes {
      Image.Write(Image.Write(f, MetaPut(t)), HeadPut(h))
    }

    /** After records, bitmap and header are written. */
    function AllWritten(f: bytes, t: table, b: bits, h: Records.Header): bytes {
      Image.Write(TablesWritten(f, t, b), HeadPut(h))
    }

    /** A success wrote the present records, and a header with the present next number. */
    ghost predicate EntriesSaved(f: bytes, h: Records.Header, ok: bool)
      requires Fixed()
      reads this, disk, meta
    {
      && header == (if ok then Image.WithNext(h, nextMetaIndex) else h)
      && Front() == if ok then EntriesWritten(f, meta[..], header) else f
    }

    /** A success wrote the present bitmap as well. */
    ghost predicate AllSaved(f: bytes, h: Records.Header, ok: bool)
      requires Fixed()
      reads this, disk, meta, freeBitmap
    {
      && header == (if ok then Image.WithNext(h, nextMetaIndex) else h)
      && Front() == if ok then AllWritten(f, meta[..], freeBitmap[..], header) else f
    }

    /** The bitmap is written only if the number of blocks changes. */
    ghost predicate ResizeSaved(f: bytes, h: Records.Header, same: bool)
      requires Fixed()
      reads this, disk, meta, freeBitmap
    {
      if same then EntriesSaved(f, h, true) else AllSaved(f, h, true)
    }

    /** What was written is the state `v`, which a child list may have gone on from. */
    ghost predicate StateSaved(f: bytes, h: Records.Header, v: Volume)
      requires Fixed()
      reads this, disk
    {
      && header == Image.WithNext(h, v.next)
      && exists b: bits | |b| == freeBitmap.Length && Take(Flags(b), numBlocks) == v.used ::
           Front() == AllWritten(f, v.meta, b, header)
    }

    // ---- Blocks on disk ----

    method ReadBlock(b: nat) returns (next: nat, payload: bytes)
      requires Fixed() && DiskOk() && 1 <= b <= numBlocks
      ensures blocks[b - 1] == Block(next, payload) && |payload| == Payload(bs)
    {
      ghost var d := disk[..];
      ShowsSize(d, blocksOffset, bs, blocks, b - 1);
      var pos := blocksOffset + (b - 1) * bs;
      next := UnLe(disk[pos..pos + 4]);
      payload := disk[pos + 4..pos + bs];
      assert d[pos..pos + 4] == disk[pos..pos + 4] && d[pos + 4..pos + bs] == disk[pos + 4..pos + bs];
    }

    /** A next pointer, and the first bytes of a payload, in their place. */
    method PutBlock(b: nat, next: nat, head: bytes)
      requires Fixed() && DiskOk() && 1 <= b <= numBlocks && next < U32 && |head| <= Payload(bs)
      modifies disk, this`blocks
      ensures DiskOk() && |old(blocks)[b - 1].payload| == Payload(bs) && Front() == old(Front())
      ensures blocks == old(blocks)[b - 1 := Block(next, head + old(blocks)[b - 1].payload[|head|..])]
    {
      ShowsAfterPut(disk[..], blocksOffset, bs, blocks, b - 1, next, head);
      Image.FrontStays(disk[..], blocksOffset, blocksOffset + (b - 1) * bs, Le(next, 4) + head);
      WriteAt(disk, blocksOffset + (b - 1) * bs, Le(next, 4) + head);
      blocks := blocks[b - 1 := Block(next, head + blocks[b - 1].payload[|head|..])];
    }

    method WriteBlock(b: nat, next: nat, data: bytes)
      requires Fixed() && DiskOk() && 1 <= b <= numBlocks && next < U32
      modifies disk, this`blocks
      ensures DiskOk() && blocks == old(blocks)[b - 1 := Block(next, PadTo(data, Payload(bs)))]
      ensures Front() == old(Front())
    {
      var payload := if |data| > bs - 4 then data[..bs - 4] else data;
      var pad := bs - 4 - |payload|;
      PutBlock(b, next, payload + Zeros(pad));
      HeadOnly(payload + Zeros(pad), old(blocks)[b - 1].payload);
      assert payload + Zeros(pad) == PadTo(data, Payload(bs));
    }

    method WriteNext(b: nat, next: nat)
      requires Fixed() && DiskOk() && 1 <= b <= numBlocks && next < U32
      modifies disk, this`blocks
      ensures DiskOk() && blocks == old(blocks)[b - 1 := old(blocks)[b - 1].(next := next)]
      ensures Front() == old(Front())
    {
      PutBlock(b, next, []);
      assert [] + old(blocks)[b - 1].payload[0..] == old(blocks)[b - 1].payload;
    }

    // ---- Chains ----

    /** Reads the block with number `k` of a chain, and moves on to the one after it. */
    method FollowLink(ghost c: seq<nat>, ghost k: nat, cur: nat) returns (next: nat, payload: bytes)
      requires Fixed() && DiskOk() && Links(blocks, c) && k < |c| && cur == c[k]
      ensures 1 <= cur <= numBlocks && blocks[cur - 1].payload == payload && |payload| == Payload(bs)
      ensures next == At(c, k + 1) && (next == 0 <==> k + 1 == |c|)
    {
      assert Link(blocks, c, k);
      next, payload := ReadBlock(cur);
      LinkedOrDone(blocks, c, k + 1);
    }

    /** `get_block_chain`, with its cut-off: at most `numBlocks + 3` blocks, also of a chain that
        runs into itself. */
    method GetBlockChain(start: nat) returns (chain: seq<nat>)
      requires Fixed() && DiskOk() && Stays(blocks, start, numBlocks + 3)
      ensures chain == Walk(blocks, start, numBlocks + 3)
      ensures IsChain(blocks, start, Chain(blocks, start)) ==> chain == Chain(blocks, start)
    {
      chain := [];
      var cur := start;
      while cur != 0
        invariant |chain| <= numBlocks + 2 && Stays(blocks, cur, numBlocks + 3 - |chain|)
        invariant Walk(blocks, start, numBlocks + 3) == chain + Walk(blocks, cur, numBlocks + 3 - |chain|)
        decreases numBlocks + 3 - |chain|
      {
        var next, payload := ReadBlock(cur);
        WalkStep(blocks, chain, cur, numBlocks + 3 - |chain|);
        chain := chain + [cur];
        cur := next;
        if |chain| > numBlocks + 2 {
          break;
        }
      }
      assert chain + [] == chain;
      GuardedWalk(blocks, start);
    }

    /** The chain of an entry, which ends. */
    method EntryBlocks(start: nat) returns (chain: seq<nat>)
      requires Fixed() && DiskOk() && IsChain(blocks, start, Chain(blocks, start))
      ensures chain == Chain(blocks, start)
    {
      ChainStays(blocks, start, Chain(blocks, start), numBlocks + 3);
      chain := GetBlockChain(start);
    }

    // ---- Bitmap ----

    method Allocate(n: nat) returns (out: seq<nat>)
      requires Fixed() && BitsOk()
      modifies freeBitmap, this`used
      ensures BitsOk() && out == Allocated(old(used), n) && used == Mark(old(used), numBlocks, out, true)
    {
      ghost var flags := Flags(freeBitmap[..]);
      out := AllocateBlocks(freeBitmap, numBlocks, n);
      MarkPrefix(flags, numBlocks, out, true);
      used := Mark(used, numBlocks, out, true);
    }

    method Release(list: seq<nat>)
      requires Fixed() && BitsOk()
      modifies freeBitmap, this`used
      ensures BitsOk() && used == Mark(old(used), numBlocks, list, false)
    {
      ghost var flags := Flags(freeBitmap[..]);
      FreeBlocks(freeBitmap, numBlocks, list);
      MarkPrefix(flags, numBlocks, list, false);
      used := Mark(used, numBlocks, list, false);
    }

    // ---- Child lists ----

    /** The non-zero words of a payload. */
    method ReadWords(payload: bytes) returns (out: seq<nat>)
      ensures out == NonZero(Words(payload))
    {
      out := [];
      var n := |payload| / 4;
      for k := 0 to n
        invariant out == NonZero(Words(payload)[..k])
      {
        var val := UnLe(payload[4 * k..4 * k + 4]);
        NonZeroSnoc(Words(payload), k);
        if val != 0 {
          out := out + [val];
        }
      }
      assert Words(payload)[..n] == Words(payload);
    }

    /** `dir_block_read`. */
    method DirBlockRead(start: nat) returns (children: seq<nat>)
      requires Fixed() && DiskOk() && IsChain(blocks, start, Chain(blocks, start))
      ensures children == ChainWords(blocks, Chain(blocks, start))
    {
      ghost var c := Chain(blocks, start);
      ghost var k: nat := 0;
      LinkedOrDone(blocks, c, 0);
      children := [];
      var cur := start;
      while cur != 0
        invariant k <= |c| && children == Gather(DirEntries, blocks, c, k)
        invariant cur == At(c, k) && (cur == 0 ==> k == |c|)
        decreases |c| - k
      {
        var next, payload := FollowLink(c, k, cur);
        var words := ReadWords(payload);
        ListStep(blocks, c, k, cur);
        children := children + words;
        k := k + 1;
        cur := next;
      }
    }

    /** The list goes to block `b`, as far as it fits. */
    method StoreChildren(b: nat, children: seq<nat>)
      requires Fixed() && DiskOk() && 1 <= b <= numBlocks
      modifies disk, this`blocks
      ensures DiskOk() && blocks == old(blocks)[b - 1 := Block(0, DirPayload(old(blocks)[b - 1].payload, children))]
      ensures Front() == old(Front())
    {
      var count := (bs - 4) / 4;
      PutBlock(b, 0, WordBytes(Padded(children, count)));
    }

    /** The first block of a directory, if one is free, with the list in it. */
    method StartList(p: nat, children: seq<nat>) returns (ok: bool)
      requires Fixed() && DiskOk() && BitsOk() && 1 <= p <= meta.Length
      modifies disk, freeBitmap, meta, this`blocks, this`used
      ensures DiskOk() && BitsOk() && ok == (Free(old(used)) != []) && Front() == old(Front())
      ensures !ok ==> View() == old(View())
      ensures ok ==>
        var v, b := old(View()), Free(old(used))[0];
        View() == SetBlock(WithStart(Marked(v, [b], true), p, b), b, DirBlock(v, b, children))
    {
      ghost var v := View();
      var found := Allocate(1);
      if found == [] {
        NoneFree(v.used);
        assert Mark(v.used, numBlocks, [], true) == v.used;
        return false;
      }
      var b := found[0];
      OneFree(v, b);
      meta[p - 1] := meta[p - 1].(start := b);
      StoreChildren(b, children);
      return true;
    }

    /** The children of a directory, and the fact that its block is on the disk. */
    method ReadKids(p: nat) returns (children: seq<nat>)
      requires Fixed() && DiskOk() && Readable(View(), p)
      ensures children == Kids(View(), p)
      ensures meta[p - 1].start != 0 ==> 1 <= meta[p - 1].start <= numBlocks
    {
      ReadableChain(View(), p);
      children := DirBlockRead(meta[p - 1].start);
    }

    /** `dir_add_child`. */
    method DirAddChild(p: nat, c: nat) returns (ok: bool)
      requires Fixed() && DiskOk() && BitsOk() && Readable(View(), p)
      modifies disk, freeBitmap, meta, this`blocks, this`used
      ensures DiskOk() && BitsOk() && Front() == old(Front())
      ensures (View(), ok) == AddChild(old(View()), p, c)
    {
      var children := ReadKids(p);
      children := children + [c];
      if meta[p - 1].start == 0 {
        ok := StartList(p, children);
      } else {
        StoreChildren(meta[p - 1].start, children);
        ok := true;
      }
    }

    /** `dir_remove_child`. */
    method DirRemoveChild(p: nat, c: nat) returns (ok: bool)
      requires Fixed() && DiskOk() && Readable(View(), p)
      modifies disk, this`blocks
      ensures DiskOk() && Front() == old(Front())
      ensures (View(), ok) == RemoveChild(old(View()), p, c)
    {
      var children := ReadKids(p);
      var rest, found := WithoutFirst(children, c);
      var b := meta[p - 1].start;
      if !found || b == 0 {
        return false;
      }
      StoreChildren(b, rest);
      return true;
    }

    // ---- Entries and paths ----

    /** The live entry that the index gives for a path, or 0. */
    method FindEntry(path: bytes) returns (i: nat)
      requires pathIndex.Valid()
      ensures var index := pathIndex.contents;
              i == if path in index && Live(meta[..], index[path]) then index[path] else 0
    {
      var found := pathIndex.Find(path);
      if found.None? || found.value == 0 || found.value > meta.Length {
        return 0;
      }
      return if meta[found.value - 1].valid != 0 then 0 else found.value;
    }

    method FindFreeMetaIndex() returns (i: nat)
      ensures i == FirstDead(meta[..], 0)
      ensures if i == 0 then !HasDead(meta[..]) else LowestDead(meta[..], i)
    {
      var k := 0;
      while k < meta.Length
        invariant 0 <= k <= meta.Length && FirstDead(meta[..], 0) == FirstDead(meta[..], k)
        invariant forall j: nat | 1 <= j <= k :: Live(meta[..], j)
      {
        if meta[k].valid != 0 {
          return k + 1;
        }
        k := k + 1;
      }
      return 0;
    }

    /** The names from an entry up to the root, as the walk collects them. */
    method CollectParts(i: nat) returns (parts: seq<bytes>)
      requires meta.Length > 0
      ensures Reversed(parts) == Toks(meta[..], i)
    {
      parts := [];
      var cur: nat := i;
      var guard: nat := 0;
      while cur != 0 && cur <= meta.Length && guard < meta.Length
        invariant 0 <= guard <= meta.Length
        invariant Toks(meta[..], i) == Parts(meta[..], cur, meta.Length - guard) + Reversed(parts)
        decreases meta.Length - guard
      {
        var e := meta[cur - 1];
        if e.valid != 0 || cur == 1 {
          break;
        }
        var name := if e.name == [] then UNNAMED else e.name;
        ReversedSnoc(parts, name);
        Assoc(Parts(meta[..], e.parent, meta.Length - guard - 1), [name], Reversed(parts));
        parts := parts + [name];
        cur := e.parent;
        guard := guard + 1;
      }
    }

    /** `build_full_path_from_meta`. */
    method BuildFullPath(i: nat) returns (path: bytes)
      requires meta.Length > 0
      ensures path == PathTo(meta[..], i)
    {
      if i == 1 {
        return ROOT;
      }
      var parts := CollectParts(i);
      if parts == [] {
        return ROOT;
      }
      path := JoinReversed(parts);
      ReversedEmpty(parts);
    }

    method RebuildPathIndex()
      requires pathIndex.Valid()
      modifies pathIndex
      ensures pathIndex.Valid() && pathIndex.contents == Rebuild(meta[..], meta.Length)
    {
      ghost var m := meta[..];
      pathIndex.Clear();
      var k := 0;
      while k < meta.Length
        invariant 0 <= k <= meta.Length == |m| && meta[..] == m && pathIndex.Valid()
        invariant pathIndex.contents == Rebuild(m, k)
      {
        IndexEntry(m, k + 1);
        k := k + 1;
      }
    }

    /** One entry of the loop. */
    method IndexEntry(ghost m: table, i: nat)
      requires meta[..] == m && 1 <= i <= meta.Length && pathIndex.Valid() && pathIndex.contents == Rebuild(m, i - 1)
      modifies pathIndex
      ensures pathIndex.Valid() && pathIndex.contents == Rebuild(m, i)
    {
      if meta[i - 1].valid == 0 {
        var path := BuildFullPath(i);
        var added := pathIndex.Insert(path, i);
      }
    }

    // ---- Persistence ----

    /** A region before the blocks is written. */
    method WriteRegion(pos: nat, data: bytes)
      requires Fixed() && DiskOk() && pos + |data| <= blocksOffset
      modifies disk
      ensures DiskOk() && disk[..] == Image.Write(old(disk[..]), Image.Put(pos, data))
      ensures Front() == Image.Write(old(Front()), Image.Put(pos, data))
    {
      Image.FrontWritten(disk[..], blocksOffset, pos, data);
      ShowsAfterOther(disk[..], blocksOffset, bs, blocks, pos, data);
      WriteAt(disk, pos, data);
    }

    method PersistBitmap()
      requires Fixed() && DiskOk()
      modifies disk
      ensures DiskOk()
        && disk[..] == Image.Write(old(disk[..]), Image.Put(bitmapOffset, Image.BitmapTable(freeBitmap[..])))
      ensures Front() == Image.Write(old(Front()), BitsPut(freeBitmap[..]))
    {
      Image.TableSizes([], [], freeBitmap[..]);
      WriteRegion(bitmapOffset, Image.BitmapTable(freeBitmap[..]));
    }

    method PersistMetaEntries()
      requires Fixed() && DiskOk()
      modifies disk
      ensures DiskOk() && disk[..] == Image.Write(old(disk[..]), Image.Put(metadataOffset, Image.MetaTable(meta[..])))
      ensures Front() == Image.Write(old(Front()), MetaPut(meta[..]))
    {
      Image.TableSizes([], meta[..], []);
      WriteRegion(metadataOffset, Image.MetaTable(meta[..]));
    }

    method PersistHeader()
      requires Fixed() && DiskOk() && HeaderOk()
      modifies disk, this`header
      ensures DiskOk() && HeaderOk() && header == Image.WithNext(old(header), nextMetaIndex)
      ensures disk[..] == Image.Write(old(disk[..]), Image.Put(0, Records.HeaderBytes(header)))
      ensures Front() == Image.Write(old(Front()), HeadPut(header))
    {
      Image.WithNextFits(header, nextMetaIndex, |users|, meta.Length, freeBitmap.Length, numBlocks, bs,
        metadataOffset, bitmapOffset);
      header := Image.WithNext(header, nextMetaIndex);
      Records.HeaderSize(header);
      WriteRegion(0, Records.HeaderBytes(header));
    }

    method PersistUserTable()
      requires Fixed() && DiskOk() && HeaderOk()
      modifies disk
      ensures DiskOk() && disk[..] == Image.Write(old(disk[..]), Image.Put(header.userTable, Image.UserTable(users)))
    {
      Image.TableSizes(users, [], []);
      WriteRegion(header.userTable, Image.UserTable(users));
    }

    method SyncEntries()
      requires Valid()
      modifies disk, this`header
      ensures Valid() && View() == old(View()) && header == Image.WithNext(old(header), nextMetaIndex)
      ensures Front() == EntriesWritten(old(Front()), meta[..], header)
    {
      PersistMetaEntries();
      PersistHeader();
    }

    /** The end of a change to the tree. */
    method SyncAndReindex()
      requires Valid()
      modifies disk, pathIndex, this`header
      ensures Valid() && View() == Reindexed(old(View())) && EntriesSaved(old(Front()), old(header), true)
    {
      SyncEntries();
      RebuildPathIndex();
    }

    method SyncAll()
      requires Valid()
      modifies disk, this`header
      ensures Valid() && View() == old(View()) && header == Image.WithNext(old(header), nextMetaIndex)
      ensures Front() == AllWritten(old(Front()), meta[..], freeBitmap[..], header)
    {
      PersistMetaEntries();
      PersistBitmap();
      PersistHeader();
    }

    /** `fs_shutdown`: header, user table, metadata and bitmap, in this order. */
    method Shutdown()
      requires Valid()
      modifies disk, this`header
      ensures Valid() && View() == old(View())
      ensures header == Image.WithNext(old(header), nextMetaIndex)
      ensures disk[..] == Image.Save(old(disk[..]), old(Held()))
    {
      ghost var d, m := disk[..], Held();
      PersistHeader();
      PersistUserTable();
      PersistMetaEntries();
      PersistBitmap();
      Image.FourWrites(d, Image.SavePuts(m));
    }

    // ---- file_create ----

    /** Block `k` of a chain that stores `data`. */
    method WriteChunk(c: seq<nat>, k: nat, data: bytes)
      requires Fixed() && DiskOk() && k < |c| && 1 <= c[k] <= numBlocks && At(c, k + 1) < U32
      modifies disk, this`blocks
      ensures DiskOk() && blocks == old(blocks)[c[k] - 1 := DataBlock(c, k, encodingMap, data, Payload(bs))]
      ensures Front() == old(Front())
    {
      var next := if k + 1 < |c| then c[k + 1] else 0;
      var chunk := ChunkOf(data, k, bs - 4);
      var code := Encoding.EncodeData(encodingMap, chunk);
      assert DataBlock(c, k, encodingMap, data, Payload(bs)) == Block(next, PadTo(code, Payload(bs)));
      WriteBlock(c[k], next, code);
    }

    /** The blocks of a chain, one after the other. */
    method WriteData(c: seq<nat>, data: bytes)
      requires Fixed() && DiskOk() && Between(c, 1, numBlocks + 1)
      modifies disk, this`blocks
      ensures DiskOk() && blocks == Filled(old(blocks), c, encodingMap, data, Payload(bs)) && Front() == old(Front())
    {
      ghost var was, f := blocks, DataBlocks(c, encodingMap, data, Payload(bs));
      for k := 0 to |c|
        invariant DiskOk() && blocks == Written(was, c, f, k) && Front() == old(Front())
      {
        InVolume(c, numBlocks, k);
        WriteChunk(c, k, data);
        WrittenNext(was, c, f, k);
      }
    }

    method CountBlocks(size: nat) returns (n: nat)
      requires Fixed()
      ensures n == NeedBlocks(size, bs)
    {
      var pl := bs - 4;
      n := if size == 0 then 0 else ((size + pl - 1) % U64) / pl % U32;
    }

    /** The directory part and the name of the path of a new entry. */
    method LocateParent(path: bytes) returns (st: Status, p: nat, basename: bytes)
      requires pathIndex.Valid()
      ensures st == ParentStatus(View(), path)
      ensures st == Success ==> p == ParentOf(View(), path) && basename == BaseOf(path)
    {
      ghost var v := View();
      p, basename := 0, [];
      if path == [] || path[0] != SLASH {
        return InvalidPath, p, basename;
      }
      var tokens := SplitPathTokens(path);
      if tokens == [] {
        return InvalidPath, p, basename;
      }
      basename := tokens[|tokens| - 1];
      var parentPath := ParentPath(tokens);
      ParentKnown(v, path, parentPath);
      var parent := pathIndex.Find(parentPath);
      if parent.None? {
        return NotFound, p, basename;
      }
      return Success, parent.value, basename;
    }

    method FileCreate(path: bytes, data: bytes, owner: nat, now: nat) returns (st: Status)
      requires Valid() && Usable(View()) && Request(path, |data|, owner, now)
      modifies this, disk, freeBitmap, meta, pathIndex
      ensures Valid() && (View(), st) == CreateFile(old(View()), path, data, owner, now)
      ensures if st == Success
              then StateSaved(old(Front()), old(header), StoredFile(old(View()), path, data, owner, now))
              else EntriesSaved(old(Front()), old(header), false)
    {
      ghost var v := View();
      var located, p, basename := LocateParent(path);
      if located != Success {
        return located;
      }
      var taken := pathIndex.Contains(path);
      if taken {
        return FileExists;
      }
      var i := FindFreeMetaIndex();
      if i == 0 {
        return NoSpace;
      }
      var e := meta[i - 1].(
        valid := 0, kind := 0, parent := p, name := Cut(basename), size := |data|, permissions := FILE_MODE,
        owner := owner, created := now, modified := now);
      assert e == NewFile(v, path, |data|, owner, now);
      var ok := StoreBlocks(i, e, data);
      if !ok {
        return NoSpace;
      }
      assert View() == StoredFile(v, path, data, owner, now);
      ParentChain(v, path, data, owner, now);
      ListAndIndex(path, p, i);
      return Success;
    }

    /** As many free blocks as are needed, or none if there are too few. */
    method TakeBlocks(need: nat) returns (enough: bool, c: seq<nat>)
      requires Fixed() && BitsOk()
      modifies freeBitmap, this`used
      ensures BitsOk() && enough == (need <= |Free(old(used))|) && c == Allocated(old(used), need)
      ensures used == Mark(old(used), numBlocks, c, true) && (!enough ==> used == old(used))
    {
      c := [];
      if need > 0 {
        c := Allocate(need);
      }
      assert Mark(old(used), numBlocks, [], true) == old(used);
      enough := need == 0 || c != [];
    }

    /** The record and the blocks of a new file, or neither. */
    method StoreBlocks(i: nat, e: MetaEntry, data: bytes) returns (ok: bool)
      requires Valid() && 1 <= i <= meta.Length
      modifies disk, freeBitmap, meta, this`blocks, this`used, this`nextMetaIndex
      ensures Valid() && ok == (NeedBlocks(|data|, bs) <= |Free(old(used))|) && Front() == old(Front())
      ensures !ok ==> View() == SetEntry(old(View()), i, e.(valid := 1))
      ensures ok ==> View() == StoreFile(old(View()), i, e, Free(old(used))[..NeedBlocks(|data|, bs)], data)
    {
      ghost var v := View();
      meta[i - 1] := e;
      var need := CountBlocks(|data|);
      var enough, c := TakeBlocks(need);
      if !enough {
        meta[i - 1] := e.(valid := 1);
        return false;
      }
      AllocatedFacts(v, need);
      WriteData(c, data);
      StoredIs(v, used, blocks, i, e, c, data);
      SetNumbered(i, e.(start := Head(c)));
      return true;
    }

    /** A record changes, and the next entry number passes it. */
    method SetNumbered(i: nat, e: MetaEntry)
      requires Valid() && 1 <= i <= meta.Length
      modifies meta, this`nextMetaIndex
      ensures Valid() && View() == BumpNext(SetEntry(old(View()), i, e), i)
    {
      meta[i - 1] := e;
      if nextMetaIndex <= i {
        nextMetaIndex := i + 1;
      }
    }

    /** Everything is persisted, the entry listed in its directory, and its path indexed. */
    method ListAndIndex(path: bytes, p: nat, i: nat)
      requires Valid() && Readable(View(), p)
      modifies this, disk, freeBitmap, meta, pathIndex
      ensures Valid() && View() == WithPath(AddChild(old(View()), p, i).0, path, i)
      ensures StateSaved(old(Front()), old(header), old(View()))
    {
      SyncAll();
      ghost var b := freeBitmap[..];
      assert Take(Flags(b), numBlocks) == used && Front() == AllWritten(old(Front()), meta[..], b, header);
      var listed := DirAddChild(p, i);
      var added := pathIndex.Insert(path, i);
    }

    // ---- file_read, get_metadata, get_stats, dir_list ----

    method FileRead(path: bytes) returns (st: Status, data: bytes)
      requires Valid() && Usable(View())
      ensures (st, data) == ReadFile(View(), path)
    {
      var i := FindEntry(path);
      if i == 0 {
        return NotFound, [];
      }
      if meta[i - 1].kind != 0 {
        return InvalidOperation, [];
      }
      assert ChainEnds(View(), i);
      data := ReadContent(meta[i - 1].start, meta[i - 1].size);
      return Success, data;
    }

    /** At most `size` decoded bytes of block `k` of a chain, and the block after it. */
    method ReadChunk(ghost c: seq<nat>, ghost k: nat, cur: nat, size: nat) returns (next: nat, data: bytes)
      requires Fixed() && DiskOk() && Links(blocks, c) && k < |c| && cur == c[k]
      ensures 1 <= cur <= numBlocks && |blocks[cur - 1].payload| == Payload(bs)
      ensures next == At(c, k + 1) && (next == 0 <==> k + 1 == |c|)
      ensures data == Encoding.Decode(encodingMap, Take(blocks[cur - 1].payload, size))
    {
      var after, payload := FollowLink(c, k, cur);
      var chunk := if size < |payload| then size else |payload|;
      data := Encoding.DecodeData(encodingMap, payload[..chunk]);
      next := after;
      assert Take(payload, size) == payload[..chunk];
    }

    /** One round of the loop: block `k` is read, as far as it is needed. */
    method ReadMore(ghost c: seq<nat>, ghost k: nat, cur: nat, size: nat, data: bytes)
      returns (next: nat, more: bytes)
      requires Fixed() && DiskOk() && Links(blocks, c) && k < |c| && cur == c[k] && |data| < size
      requires data == Take(Decoded(blocks, c[..k], encodingMap, Payload(bs)), size)
      ensures next == At(c, k + 1) && (next == 0 <==> k + 1 == |c|)
      ensures more == Take(Decoded(blocks, c[..k + 1], encodingMap, Payload(bs)), size)
    {
      var after, chunk := ReadChunk(c, k, cur, size - |data|);
      ReadStep(blocks, c, encodingMap, k, size, Payload(bs));
      return after, data + chunk;
    }

    /** The loop over the chain, until the size is reached. */
    method ReadContent(start: nat, size: nat) returns (data: bytes)
      requires Fixed() && DiskOk() && IsChain(blocks, start, Chain(blocks, start))
      ensures data == Take(Decoded(blocks, Chain(blocks, start), encodingMap, Payload(bs)), size)
    {
      ghost var c, pl := Chain(blocks, start), Payload(bs);
      data := [];
      var cur := start;
      ghost var k: nat := 0;
      LinkedOrDone(blocks, c, 0);
      while cur != 0 && |data| < size
        invariant k <= |c| && cur == At(c, k) && (cur == 0 ==> k == |c|)
        invariant data == Take(Decoded(blocks, c[..k], encodingMap, pl), size)
        decreases |c| - k
      {
        cur, data := ReadMore(c, k, cur, size, data);
        k := k + 1;
      }
      ReadEnough(blocks, c, encodingMap, k, size, pl);
    }

    /** The loop of `get_metadata` that counts blocks. */
    method BlocksUsed(i: nat) returns (count: nat)
      requires Valid() && Usable(View()) && Live(meta[..], i)
      ensures count == |EntryChain(View(), i)| && (Inv(View()) ==> count == Need(meta[i - 1], bs))
    {
      ghost var c := EntryChain(View(), i);
      assert ChainEnds(View(), i) && (Inv(View()) ==> ChainOk(View(), i));
      count := 0;
      var cur := meta[i - 1].start;
      LinkedOrDone(blocks, c, 0);
      while cur != 0
        invariant count <= |c| && cur == At(c, count) && (cur == 0 ==> count == |c|)
        decreases |c| - count
      {
        var next, payload := FollowLink(c, count, cur);
        count := count + 1;
        cur := next;
      }
    }

    /** The loop of `get_stats` over the bitmap. */
    method CountSpace() returns (taken: nat, free: nat)
      requires Fixed() && BitsOk()
      ensures taken == Count(used, |used|) && free == |Free(used)|
    {
      taken := 0;
      for i := 0 to numBlocks
        invariant taken == Count(used, i)
      {
        var bit := BitmapGet(freeBitmap, i);
        if bit {
          taken := taken + 1;
        }
      }
      FreeIsRest(used);
      free := numBlocks - taken;
    }

    method CountEntries(kind: nat) returns (n: nat)
      ensures n == CountKind(meta[..], kind, meta.Length)
    {
      n := 0;
      for i := 0 to meta.Length
        invariant n == CountKind(meta[..], kind, i)
      {
        if meta[i].valid == 0 && meta[i].kind == kind {
          n := n + 1;
        }
      }
    }

    method CountUsers() returns (n: nat)
      ensures n == CountActive(users, |users|)
    {
      n := 0;
      for i := 0 to |users|
        invariant n == CountActive(users, i)
      {
        if users[i].active != 0 {
          n := n + 1;
        }
      }
    }

    /** `get_stats`, without sessions and the fragmentation figure. */
    method GetStats() returns (stats: FSStats)
      requires Valid()
      ensures stats == StatsOf(header.totalSize, used, bs, meta[..], users)
    {
      var usedBlocks, freeBlocks := CountSpace();
      var files := CountEntries(0);
      var directories := CountEntries(1);
      var active := CountUsers();
      stats := FSStats(header.totalSize, usedBlocks * bs, freeBlocks * bs, files, directories, active);
    }

    /** `dir_list`: a line for each number in the child list that stands for a live entry; in a
        volume in order, for each live entry whose parent is the directory, once. */
    method DirList(path: bytes) returns (st: Status, lines: seq<FileEntry>)
      requires Valid() && Usable(View())
      ensures st == if path !in pathIndex.contents then NotFound
                    else if !IsDir(meta[..], pathIndex.contents[path]) then InvalidOperation else Success
      ensures st != Success ==> lines == []
      ensures st == Success ==>
        var kids := Kids(View(), pathIndex.contents[path]);
        lines == Listing(meta[..], users, kids, |kids|)
    {
      var found := pathIndex.Find(path);
      if found.None? {
        return NotFound, [];
      }
      var d := found.value;
      assert IndexLive(View(), path) && ChainEnds(View(), d);
      if meta[d - 1].kind != 1 {
        return InvalidOperation, [];
      }
      var children := ReadKids(d);
      lines := ListEntries(children);
      return Success, lines;
    }

    /** The loop of `dir_list`. */
    method ListEntries(children: seq<nat>) returns (lines: seq<FileEntry>)
      ensures lines == Listing(meta[..], users, children, |children|)
    {
      lines := [];
      for k := 0 to |children|
        invariant lines == Listing(meta[..], users, children, k)
      {
        var idx := children[k];
        if idx == 0 || idx > meta.Length || meta[idx - 1].valid != 0 {
          continue;
        }
        var e := meta[idx - 1];
        var owner := if e.owner < |users| then Take(Records.UpToNul(users[e.owner].username), OWNER_MAX) else UNKNOWN;
        lines := lines + [FileEntry(e.name, e.kind, e.size, e.permissions, e.created, e.modified, owner, idx)];
      }
    }

    // ---- file_delete and dir_delete ----

    method FileDelete(path: bytes) returns (st: Status)
      requires Valid() && Usable(View())
      modifies this, disk, freeBitmap, meta, pathIndex
      ensures Valid() && (View(), st) == DeleteFile(old(View()), path) && header == old(header)
      ensures Front()
        == if st == Success then TablesWritten(old(Front()), meta[..], freeBitmap[..]) else old(Front())
    {
      ghost var v := View();
      var found := pathIndex.Find(path);
      if found.None? {
        return NotFound;
      }
      var i := found.value;
      assert IndexLive(v, path) && ChainEnds(v, i);
      if meta[i - 1].valid != 0 || meta[i - 1].kind != 0 {
        return NotFound;
      }
      ParentReadable(v, i);
      DeleteApplies(v, path, i);
      Erase(i, meta[i - 1].parent);
      return Success;
    }

    /** The changes that `file_delete` makes. */
    method Erase(i: nat, p: nat)
      requires Valid() && Live(meta[..], i) && p == Par(meta[..], i)
      requires IsChain(blocks, meta[i - 1].start, Chain(blocks, meta[i - 1].start))
      requires 1 <= p <= meta.Length ==> Readable(View(), p)
      modifies this, disk, freeBitmap, meta, pathIndex
      ensures Valid() && View() == Deleted(old(View()), i) && header == old(header)
      ensures Front() == TablesWritten(old(Front()), meta[..], freeBitmap[..])
    {
      ghost var v := View();
      var freeList := EntryBlocks(meta[i - 1].start);
      Release(freeList);
      Unlist(p, i);
      meta[i - 1] := Dead(meta[i - 1]);
      PersistMetaEntries();
      PersistBitmap();
      RebuildPathIndex();
    }

    /** The child out of its parent's list, if there is such a parent. */
    method Unlist(p: nat, c: nat)
      requires Fixed() && DiskOk() && (1 <= p <= meta.Length ==> Readable(View(), p))
      modifies disk, this`blocks
      ensures DiskOk() && View() == RemoveChild(old(View()), p, c).0 && Front() == old(Front())
    {
      if p != 0 && p <= meta.Length {
        var unlisted := DirRemoveChild(p, c);
      }
    }

    method DirDelete(path: bytes) returns (st: Status)
      requires Valid() && Usable(View())
      modifies this, disk, freeBitmap, meta, pathIndex
      ensures Valid() && (View(), st) == RemoveDir(old(View()), path) && header == old(header)
      ensures Front() == if st == Success then Image.Write(old(Front()), MetaPut(meta[..])) else old(Front())
    {
      ghost var v := View();
      if path == [] || path == ROOT {
        return InvalidOperation;
      }
      var found := pathIndex.Find(path);
      if found.None? {
        return NotFound;
      }
      var i := found.value;
      assert IndexLive(v, path) && ChainEnds(v, i);
      if meta[i - 1].kind != 1 {
        return InvalidOperation;
      }
      var children := ReadKids(i);
      if children != [] {
        return DirectoryNotEmpty;
      }
      var p := meta[i - 1].parent;
      if p == 0 || p > meta.Length {
        return InvalidOperation;
      }
      ParentReadable(v, i);
      var ok := Dismantle(i, p);
      return if ok then Success else IoError;
    }

    /** The changes that `dir_delete` makes. */
    method Dismantle(i: nat, p: nat) returns (ok: bool)
      requires Valid() && Live(meta[..], i) && p == Par(meta[..], i) && Readable(View(), p)
      modifies this, disk, freeBitmap, meta, pathIndex
      ensures Valid() && ok == RemoveChild(old(View()), p, i).1
      ensures View() == if ok then Dismantled(old(View()), i) else old(View())
      ensures header == old(header)
      ensures Front() == if ok then Image.Write(old(Front()), MetaPut(meta[..])) else old(Front())
    {
      ok := DirRemoveChild(p, i);
      if !ok {
        return;
      }
      if meta[i - 1].start != 0 {
        Release([meta[i - 1].start]);
      }
      meta[i - 1] := meta[i - 1].(valid := 1, start := 0);
      PersistMetaEntries();
      RebuildPathIndex();
    }

    // ---- file_edit ----

    method FileEdit(path: bytes, data: bytes, index: nat, now: nat) returns (st: Status)
      requires Valid() && Usable(View())
      modifies this, disk, meta
      ensures Valid() && (View(), st) == EditFile(old(View()), path, data, index, now) && header == old(header)
      ensures Front() == if st == Success then Image.Write(old(Front()), MetaPut(meta[..])) else old(Front())
    {
      ghost var v := View();
      var found := pathIndex.Find(path);
      if found.None? {
        return NotFound;
      }
      var i := found.value;
      assert IndexLive(v, path) && ChainEnds(v, i);
      if meta[i - 1].valid != 0 || meta[i - 1].kind != 0 {
        return NotFound;
      }
      if index > meta[i - 1].size {
        EditRefused(v, path, data, index, now);
        return InvalidOperation;
      }
      var k, pos := Position(index);
      var cur := Seek(meta[i - 1].start, k);
      if cur == 0 {
        EditRefused(v, path, data, index, now);
        return InvalidOperation;
      }
      EditApplies(v, path, data, index, now, i, k, pos);
      EditAt(i, cur, pos, data, now);
      return Success;
    }

    /** The block of a byte of a file, and the place of the byte in it. */
    method Position(index: nat) returns (k: nat, pos: nat)
      requires Fixed()
      ensures k == Quot(index, Payload(bs)) && pos == Rem(index, Payload(bs)) && pos < Payload(bs)
    {
      var pl := bs - 4;
      QuotIsDiv(index, pl);
      return index / pl, index % pl;
    }

    /** The block with number `k` in the chain, or 0 past its end. */
    method Seek(start: nat, k: nat) returns (cur: nat)
      requires Fixed() && DiskOk() && IsChain(blocks, start, Chain(blocks, start))
      ensures cur == At(Chain(blocks, start), k) && (cur != 0 <==> k < |Chain(blocks, start)|)
    {
      ghost var c := Chain(blocks, start);
      cur := start;
      var n := 0;
      LinkedOrDone(blocks, c, 0);
      while n < k && cur != 0
        invariant 0 <= n <= k && n <= |c| && cur == At(c, n) && (cur == 0 <==> n == |c|)
      {
        var next, payload := FollowLink(c, n, cur);
        n := n + 1;
        cur := next;
      }
    }

    /** The decoded payload of a block, overlaid at `pos` and coded again. */
    method OverlayBlock(b: nat, pos: nat, data: bytes)
      requires Fixed() && DiskOk() && 1 <= b <= numBlocks && pos <= Payload(bs)
      modifies disk, this`blocks
      ensures DiskOk() && blocks == old(blocks)[b - 1 := EditedBlock(old(blocks)[b - 1], encodingMap, pos, data)]
      ensures Front() == old(Front())
    {
      var next, payload := ReadBlock(b);
      assert next < U32 by {
        ShowsSize(disk[..], blocksOffset, bs, blocks, b - 1);
      }
      var dec := Encoding.DecodeData(encodingMap, payload);
      var writeLen := if |data| < |payload| - pos then |data| else |payload| - pos;
      dec := dec[..pos] + data[..writeLen] + dec[pos + writeLen..];
      OverlayIs(Encoding.Decode(encodingMap, payload), pos, data, writeLen);
      var code := Encoding.EncodeData(encodingMap, dec);
      WriteBlock(b, next, code);
      assert PadTo(code, Payload(bs)) == code;
    }

    method EditAt(i: nat, cur: nat, pos: nat, data: bytes, now: nat)
      requires Valid() && Live(meta[..], i) && 1 <= cur <= numBlocks && pos <= Payload(bs)
      modifies disk, meta, this`blocks
      ensures Valid()
      ensures View() == EditBlock(SetEntry(old(View()), i, old(meta[i - 1]).(modified := now)), cur, pos, data)
      ensures header == old(header) && Front() == Image.Write(old(Front()), MetaPut(meta[..]))
    {
      OverlayBlock(cur, pos, data);
      meta[i - 1] := meta[i - 1].(modified := now);
      PersistMetaEntries();
    }

    // ---- dir_create ----

    method DirCreate(path: bytes, owner: nat, now: nat) returns (st: Status)
      requires Valid() && Usable(View()) && Request(path, 0, owner, now)
      modifies this, disk, freeBitmap, meta, pathIndex
      ensures Valid() && (View(), st) == MakeDir(old(View()), path, owner, now)
      ensures EntriesSaved(old(Front()), old(header), st == Success)
    {
      ghost var v := View();
      var located, p, basename := LocateParent(path);
      if located != Success {
        return located;
      }
      ParentKept(v, path);
      if meta[p - 1].kind != 1 || meta[p - 1].valid != 0 {
        return InvalidOperation;
      }
      var taken := pathIndex.Contains(path);
      if taken {
        return FileExists;
      }
      var i := FindFreeMetaIndex();
      if i == 0 {
        return NoSpace;
      }
      st := AddDir(path, p, basename, i, owner, now);
    }

    /** The new directory, once the checks are passed. */
    method AddDir(path: bytes, p: nat, basename: bytes, i: nat, owner: nat, now: nat) returns (st: Status)
      requires Valid() && ParentStatus(View(), path) == Success && p == ParentOf(View(), path)
        && basename == BaseOf(path)
      requires IsDir(meta[..], p) && Readable(View(), p) && path !in pathIndex.contents
      requires i == NewIndex(View()) && i != 0
      modifies this, disk, freeBitmap, meta, pathIndex
      ensures Valid() && (View(), st) == MakeDir(old(View()), path, owner, now)
      ensures EntriesSaved(old(Front()), old(header), st == Success)
    {
      var e := meta[i - 1].(
        valid := 0, kind := 1, parent := p, name := Cut(basename), start := 0, size := 0, permissions := DIR_MODE,
        owner := owner, created := now, modified := now);
      assert e == NewDir(View(), path, owner, now);
      MakeDirEnters(View(), path, owner, now, i, p);
      var ok := EnterDir(i, p, e);
      return if ok then Success else IoError;
    }

    /** The record of a new directory, listed in its parent and indexed; or dead again. */
    method EnterDir(i: nat, p: nat, e: MetaEntry) returns (ok: bool)
      requires Valid() && Live(meta[..], p) && Readable(View(), p)
      requires 1 <= i <= meta.Length && !Live(meta[..], i) && e.valid == 0
      modifies this, disk, freeBitmap, meta, pathIndex
      ensures Valid()
      ensures ok == AddChild(SetEntry(old(View()), i, e), p, i).1
      ensures var w := AddChild(SetEntry(old(View()), i, e), p, i).0;
              View() == if ok then Reindexed(BumpNext(w, i)) else SetEntry(w, i, e.(valid := 1))
      ensures EntriesSaved(old(Front()), old(header), ok)
    {
      ghost var v := View();
      meta[i - 1] := e;
      SameRecordChain(v, SetEntry(v, i, e), p);
      ok := DirAddChild(p, i);
      if !ok {
        meta[i - 1] := e.(valid := 1);
        return;
      }
      if nextMetaIndex <= i {
        nextMetaIndex := i + 1;
      }
      SyncAndReindex();
    }

    // ---- file_truncate ----

    method FileTruncate(path: bytes, newSize: nat, now: nat) returns (st: Status)
      requires Valid() && Usable(View())
      modifies this, disk, freeBitmap, meta
      ensures Valid() && (View(), st) == TruncateFile(old(View()), path, newSize, now)
      ensures st != Success ==> EntriesSaved(old(Front()), old(header), false)
      ensures st == Success ==>
        var v := old(View());
        ResizeSaved(old(Front()), old(header), |EntryChain(v, v.index[path])| == NeedBlocks(newSize, bs))
    {
      ghost var v := View();
      var i := FindEntry(path);
      if i == 0 {
        return NotFound;
      }
      if meta[i - 1].kind != 0 {
        return InvalidOperation;
      }
      assert ChainEnds(v, i);
      var required := CountBlocks(newSize);
      st := Resize(i, meta[i - 1].(size := newSize, modified := now), required);
    }

    /** The four cases: as many blocks as before, fewer, or more, if there are enough. */
    method Resize(i: nat, e: MetaEntry, required: nat) returns (st: Status)
      requires Valid() && 1 <= i <= meta.Length
      requires IsChain(blocks, meta[i - 1].start, Chain(blocks, meta[i - 1].start))
      modifies this, disk, freeBitmap, meta
      ensures Valid()
      ensures (View(), st) == ResizedTo(old(View()), i, e, Chain(old(blocks), old(meta[i - 1].start)), required)
      ensures if st == Success
              then ResizeSaved(old(Front()), old(header), |Chain(old(blocks), old(meta[i - 1].start))| == required)
              else EntriesSaved(old(Front()), old(header), false)
    {
      var chain := EntryBlocks(meta[i - 1].start);
      LinksBetween(blocks, chain);
      if required == |chain| {
        SetRecord(i, e);
        return Success;
      }
      if required < |chain| {
        if required == 0 {
          Empty(i, e, chain);
        } else {
          Shorten(i, e, chain, required);
        }
        return Success;
      }
      var ok := Grow(i, e, chain, required - |chain|);
      return if ok then Success else NoSpace;
    }

    method SetRecord(i: nat, e: MetaEntry)
      requires Valid() && 1 <= i <= meta.Length
      modifies disk, meta, this`header
      ensures Valid() && View() == SetEntry(old(View()), i, e)
      ensures EntriesSaved(old(Front()), old(header), true)
    {
      meta[i - 1] := e;
      SyncEntries();
    }

    /** All blocks are freed. */
    method Empty(i: nat, e: MetaEntry, chain: seq<nat>)
      requires Valid() && 1 <= i <= meta.Length && chain != []
      modifies this, disk, freeBitmap, meta
      ensures Valid() && View() == Shrunk(old(View()), i, e, chain, 0)
      ensures AllSaved(old(Front()), old(header), true)
    {
      Release(chain);
      meta[i - 1] := e.(start := 0);
      SyncAll();
    }

    /** The blocks from number `r` on are freed, and the chain ends before them. */
    method Shorten(i: nat, e: MetaEntry, chain: seq<nat>, r: nat)
      requires Valid() && 1 <= i <= meta.Length && Between(chain, 1, numBlocks + 1) && 0 < r < |chain|
      modifies this, disk, freeBitmap, meta
      ensures Valid() && View() == Shrunk(old(View()), i, e, chain, r)
      ensures AllSaved(old(Front()), old(header), true)
    {
      ghost var v := View();
      Release(chain[r..]);
      EndChain(chain, r);
      meta[i - 1] := e;
      assert View() == Shrunk(v, i, e, chain, r);
      SyncAll();
    }

    method EndChain(chain: seq<nat>, r: nat)
      requires Fixed() && DiskOk() && Between(chain, 1, numBlocks + 1) && 0 < r < |chain|
      modifies disk, this`blocks
      ensures DiskOk() && View() == SetNext(old(View()), chain[r - 1], 0) && Front() == old(Front())
    {
      WriteNext(chain[r - 1], 0);
    }

    /** Zeroed blocks are linked behind the chain, if there are enough. */
    method Grow(i: nat, e: MetaEntry, chain: seq<nat>, need: nat) returns (ok: bool)
      requires Valid() && 1 <= i <= meta.Length && Between(chain, 1, numBlocks + 1) && need > 0
      modifies this, disk, freeBitmap, meta
      ensures Valid() && ok == (need <= |Free(old(used))|)
      ensures View() == if ok then Grown(old(View()), i, e, chain, Free(old(used))[..need]) else old(View())
      ensures AllSaved(old(Front()), old(header), ok)
    {
      ghost var v := View();
      var extra := Allocate(need);
      if |extra| != need {
        assert Mark(v.used, numBlocks, [], true) == v.used;
        return false;
      }
      AllocatedFacts(v, need);
      AppendBlocks(chain, extra);
      GrownIs(v, used, blocks, i, e, chain, extra);
      AdoptBlocks(i, if chain == [] then e.(start := extra[0]) else e);
      return true;
    }

    /** The last block points to the first new one, and the new ones are written. */
    method AppendBlocks(chain: seq<nat>, extra: seq<nat>)
      requires Fixed() && DiskOk() && Between(chain, 1, numBlocks + 1) && Between(extra, 1, numBlocks + 1)
        && extra != []
      modifies disk, this`blocks
      ensures DiskOk() && Front() == old(Front())
      ensures blocks == Filled(Linked(old(View()), chain, extra[0]).blocks, extra, encodingMap, [], Payload(bs))
    {
      if chain != [] {
        WriteNext(chain[|chain| - 1], extra[0]);
      }
      WriteData(extra, []);
    }

    method AdoptBlocks(i: nat, e: MetaEntry)
      requires Valid() && 1 <= i <= meta.Length
      modifies disk, meta, this`header, this`nextMetaIndex
      ensures Valid() && View() == BumpNext(SetEntry(old(View()), i, e), i)
      ensures AllSaved(old(Front()), old(header), true)
    {
      SetNumbered(i, e);
      SyncAll();
    }

    // ---- file_rename ----

    method FileRename(oldPath: bytes, newPath: bytes, now: nat) returns (st: Status)
      requires Valid() && Usable(View()) && 0 !in newPath && now < U64
      modifies this, disk, freeBitmap, meta, pathIndex
      ensures Valid() && (View(), st) == RenameEntry(old(View()), oldPath, newPath, now)
      ensures EntriesSaved(old(Front()), old(header), st == Success)
    {
      ghost var v := View();
      if oldPath == [] || newPath == [] {
        return InvalidPath;
      }
      var i := FindEntry(oldPath);
      if i == 0 {
        return NotFound;
      }
      var located, np, name := LocateTarget(newPath);
      if located != Success {
        return located;
      }
      var op := meta[i - 1].parent;
      if op == 0 || op > meta.Length {
        return InvalidOperation;
      }
      Located(v, oldPath, newPath, i, now);
      RehomeReady(v, i, np, name, now);
      st := Rehome(i, op, np, name, now);
    }

    /** The directory and the name that a new path stands for. */
    method LocateTarget(newPath: bytes) returns (st: Status, np: nat, name: bytes)
      requires pathIndex.Valid()
      ensures st == TargetStatus(View(), newPath)
      ensures st == Success ==> np == Target(View(), newPath) && name == NewBaseOf(newPath)
    {
      np, name := 0, [];
      var taken := pathIndex.Contains(newPath);
      if taken {
        return FileExists, np, name;
      }
      var pos := FindLastSlash(newPath);
      if pos == |newPath| {
        return InvalidPath, np, name;
      }
      var parentPath := if pos == 0 then ROOT else newPath[..pos];
      name := newPath[pos + 1..];
      if name == [] || |name| > NAME_MAX {
        return InvalidOperation, np, name;
      }
      var target := pathIndex.Find(parentPath);
      if target.None? || target.value == 0 || target.value > meta.Length {
        return NotFound, np, name;
      }
      np := target.value;
      if meta[np - 1].valid != 0 || meta[np - 1].kind != 1 {
        return InvalidOperation, np, name;
      }
      return Success, np, name;
    }

    /** From the list of directory `op` to that of `np`, under the new name; or back again. */
    method Rehome(i: nat, op: nat, np: nat, name: bytes, now: nat) returns (st: Status)
      requires Valid() && Live(meta[..], i) && op == Par(meta[..], i) && |name| <= NAME_MAX
      requires Readable(View(), op)
      requires RemoveChild(View(), op, i).1 ==>
        Readable(Renamed(View(), i, np, name, now), np) && Readable(Renamed(View(), i, op, name, now), op)
      modifies this, disk, freeBitmap, meta, pathIndex
      ensures Valid() && (View(), st) == Relocated(old(View()), i, np, name, now)
      ensures EntriesSaved(old(Front()), old(header), st == Success)
    {
      var unlisted := DirRemoveChild(op, i);
      if !unlisted {
        return IoError;
      }
      var ok := Relist(i, op, np, name, now);
      return if ok then Success else IoError;
    }

    /** The entry, in no list, gets its new name and goes to `np`, or back to `op`. */
    method Relist(i: nat, op: nat, np: nat, name: bytes, now: nat) returns (ok: bool)
      requires Valid() && Live(meta[..], i) && |name| <= NAME_MAX
      requires Readable(SetEntry(View(), i, RenamedRecord(meta[i - 1], name, np, now)), np)
      requires Readable(SetEntry(View(), i, RenamedRecord(meta[i - 1], name, op, now)), op)
      modifies this, disk, freeBitmap, meta, pathIndex
      ensures Valid()
      ensures ok == AddChild(SetEntry(old(View()), i, RenamedRecord(old(meta[i - 1]), name, np, now)), np, i).1
      ensures ok ==>
        View() == Reindexed(AddChild(SetEntry(old(View()), i, RenamedRecord(old(meta[i - 1]), name, np, now)), np, i).0)
      ensures !ok ==>
        View() == AddChild(SetEntry(old(View()), i, RenamedRecord(old(meta[i - 1]), name, op, now)), op, i).0
      ensures EntriesSaved(old(Front()), old(header), ok)
    {
      ghost var v, e := View(), meta[i - 1];
      ok := Enlist(i, np, name, now);
      if !ok {
        assert View() == SetEntry(v, i, RenamedRecord(e, name, np, now));
        assert SetEntry(View(), i, RenamedRecord(meta[i - 1], name, op, now))
          == SetEntry(v, i, RenamedRecord(e, name, op, now));
        PutBack(i, op, name, now);
        return;
      }
      SyncAndReindex();
    }

    /** The rollback: the old parent again, but not the old name. */
    method PutBack(i: nat, op: nat, name: bytes, now: nat)
      requires Valid() && Live(meta[..], i) && |name| <= NAME_MAX
      requires Readable(SetEntry(View(), i, RenamedRecord(meta[i - 1], name, op, now)), op)
      modifies disk, freeBitmap, meta, this`blocks, this`used
      ensures Valid() && Front() == old(Front())
        && View() == AddChild(SetEntry(old(View()), i, RenamedRecord(old(meta[i - 1]), name, op, now)), op, i).0
    {
      var back := Enlist(i, op, name, now);
    }

    /** A new name and parent, and a place in the parent's list. */
    method Enlist(i: nat, d: nat, name: bytes, now: nat) returns (ok: bool)
      requires Fixed() && DiskOk() && BitsOk() && Live(meta[..], i) && |name| <= NAME_MAX
      requires Readable(SetEntry(View(), i, RenamedRecord(meta[i - 1], name, d, now)), d)
      modifies disk, freeBitmap, meta, this`blocks, this`used
      ensures DiskOk() && BitsOk() && Front() == old(Front())
      ensures (View(), ok) == AddChild(SetEntry(old(View()), i, RenamedRecord(old(meta[i - 1]), name, d, now)), d, i)
    {
      ghost var v, e := View(), RenamedRecord(meta[i - 1], name, d, now);
      meta[i - 1] := RenamedRecord(meta[i - 1], Cut(name), d, now);
      assert Cut(name) == name && View() == SetEntry(v, i, e);
      ok := DirAddChild(d, i);
    }
  }
}
