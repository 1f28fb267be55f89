/** The file and directory operations as functions from one volume to the next, branch by
    branch as the engine takes them. */
module Ops {
  import opened Bytes
  import opened Bitmap
  import opened Chains
  import opened Paths
  import opened Tree
  import opened State
  import Encoding

  datatype Status =
    | Success | NotFound | IoError | InvalidPath | FileExists | NoSpace | DirectoryNotEmpty | InvalidOperation

  const FILE_MODE: nat := 420  // octal 0644
  const DIR_MODE: nat := 493   // octal 0755

  // ---- Pieces ----

  /** `find_free_meta_index`: the first dead entry after the first `k`, or 0. */
  function FirstDead(meta: table, k: nat): (r: nat)
    requires k <= |meta|
    ensures r != 0 ==> k < r <= |meta| && !Live(meta, r) && forall j: nat | k < j < r :: Live(meta, j)
    ensures r == 0 ==> forall j: nat | k < j <= |meta| :: Live(meta, j)
    decreases |meta| - k
  {
    if k == |meta| then 0 else if meta[k].valid != 0 then k + 1 else FirstDead(meta, k + 1)
  }

  /** `set_name`: what does not fit is cut off. */
  function Cut(name: bytes): bytes {
    Take(name, NAME_MAX)
  }

  function SetEntry(v: Volume, i: nat, e: MetaEntry): (w: Volume) {
    if 1 <= i <= |v.meta| then v.(meta := v.meta[i - 1 := e]) else v
  }

  function SetBlock(v: Volume, b: nat, x: Block): (w: Volume) {
    if 1 <= b <= |v.blocks| then v.(blocks := v.blocks[b - 1 := x]) else v
  }

  /** Blocks for `size` bytes: 64-bit arithmetic, narrowed to 32 bits. */
  function NeedBlocks(size: nat, bs: nat): nat {
    if size == 0 then 0 else ((size + Payload(bs) - 1) % U64) / Payload(bs) % U32
  }

  function Chunk(data: bytes, lo: nat, len: nat): (r: bytes)
    ensures |r| <= len
  {
    if lo >= |data| then [] else if lo + len <= |data| then data[lo..lo + len] else data[lo..]
  }

  /** Block `k` of a chain that stores `data`. */
  function DataBlock(c: seq<nat>, k: nat, enc: Encoding.table, data: bytes, pl: nat): (r: Block) {
    Block(At(c, k + 1), PadTo(Encoding.Encode(enc, Chunk(data, k * pl, pl)), pl))
  }

  function DataBlocks(c: seq<nat>, enc: Encoding.table, data: bytes, pl: nat): nat -> Block {
    (k: nat) => DataBlock(c, k, enc, data, pl)
  }

  /** The blocks after the first `k` blocks of chain `c` are written. */
  function Written(blocks: seq<Block>, c: seq<nat>, f: nat -> Block, k: nat): (r: seq<Block>)
    ensures |r| == |blocks|
    decreases k
  {
    if k == 0 then blocks
    else
      var r := Written(blocks, c, f, k - 1);
      var b := At(c, k - 1);
      if 1 <= b <= |blocks| then r[b - 1 := f(k - 1)] else r
  }

  /** The blocks after chain `c` is written with `data`. */
  function Filled(blocks: seq<Block>, c: seq<nat>, enc: Encoding.table, data: bytes, pl: nat): (r: seq<Block>)
    ensures |r| == |blocks|
  {
    Written(blocks, c, DataBlocks(c, enc, data, pl), |c|)
  }

  /** `allocate_blocks`. */
  function Allocated(used: seq<bool>, n: nat): seq<nat> {
    if n <= |Free(used)| then Free(used)[..n] else []
  }

  function Marked(v: Volume, blocks: seq<nat>, flag: bool): (w: Volume) {
    v.(used := Mark(v.used, |v.used|, blocks, flag))
  }

  // ---- Child lists ----

  function DirBlock(v: Volume, b: nat, children: seq<nat>): (r: Block) {
    Block(0, DirPayload(if 1 <= b <= |v.blocks| then v.blocks[b - 1].payload else [], children))
  }

  function StartOf(v: Volume, i: nat): nat {
    if 1 <= i <= |v.meta| then v.meta[i - 1].start else 0
  }

  function WithStart(v: Volume, i: nat, b: nat): (w: Volume) {
    if 1 <= i <= |v.meta| then SetEntry(v, i, v.meta[i - 1].(start := b)) else v
  }

  /** `dir_add_child`: the list goes to the first block of the directory, which is allocated
      on first use; children beyond its capacity are dropped. */
  function AddChild(v: Volume, p: nat, c: nat): (r: (Volume, bool)) {
    var children := Kids(v, p) + [c];
    if StartOf(v, p) != 0 then (SetBlock(v, StartOf(v, p), DirBlock(v, StartOf(v, p), children)), true)
    else if Free(v.used) == [] then (v, false)
    else
      var b := Free(v.used)[0];
      (SetBlock(WithStart(Marked(v, [b], true), p, b), b, DirBlock(v, b, children)), true)
  }

  function RemoveFirst(s: seq<nat>, x: nat): seq<nat> {
    if s == [] then [] else if s[0] == x then s[1..] else [s[0]] + RemoveFirst(s[1..], x)
  }

  /** `dir_remove_child`. */
  function RemoveChild(v: Volume, p: nat, c: nat): (r: (Volume, bool)) {
    if c !in Kids(v, p) || StartOf(v, p) == 0 then (v, false)
    else (SetBlock(v, StartOf(v, p), DirBlock(v, StartOf(v, p), RemoveFirst(Kids(v, p), c))), true)
  }

  function Reindexed(v: Volume): (w: Volume) {
    v.(index := Rebuild(v.meta, |v.meta|))
  }

  function BumpNext(v: Volume, i: nat): (w: Volume) {
    if v.next <= i then v.(next := i + 1) else v
  }

  // ---- Paths ----

  function Last<T>(s: seq<T>): T
    requires s != []
  {
    s[|s| - 1]
  }

  /** The directory part of a path, as `file_create` and `dir_create` look it up. */
  function DirOf(path: bytes): bytes {
    var ts := Tokens(path);
    if ts == [] then ROOT else PathOf(ts[..|ts| - 1])
  }

  function BaseOf(path: bytes): bytes {
    if Tokens(path) == [] then [] else Last(Tokens(path))
  }

  // ---- Create ----

  function NewIndex(v: Volume): (i: nat)
    ensures i != 0 <==> HasDead(v.meta)
    ensures i != 0 ==> 1 <= i <= |v.meta| && !Live(v.meta, i) && LowestDead(v.meta, i)
  {
    FirstDead(v.meta, 0)
  }

  function ParentOf(v: Volume, path: bytes): nat {
    if DirOf(path) in v.index then v.index[DirOf(path)] else 0
  }

  /** What is wrong with the path of a new entry, if anything. */
  function ParentStatus(v: Volume, path: bytes): Status {
    if path == [] || path[0] != SLASH || Tokens(path) == [] then InvalidPath
    else if DirOf(path) !in v.index then NotFound
    else Success
  }

  function NewFile(v: Volume, path: bytes, size: nat, owner: nat, now: nat): MetaEntry
    requires NewIndex(v) != 0
  {
    v.meta[NewIndex(v) - 1].(
      valid := 0, kind := 0, parent := ParentOf(v, path), name := Cut(BaseOf(path)), size := size,
      permissions := FILE_MODE, owner := owner, created := now, modified := now)
  }

  /** The new file in its record and blocks, not yet in its directory. */
  function StoreFile(v: Volume, i: nat, e: MetaEntry, c: seq<nat>, data: bytes): (w: Volume) {
    BumpNext(SetEntry(Marked(v, c, true), i, e.(start := Head(c)))
               .(blocks := Filled(v.blocks, c, v.enc, data, Payload(v.bs))), i)
  }

  function StoredFile(v: Volume, path: bytes, data: bytes, owner: nat, now: nat): (s: Volume)
    requires NewIndex(v) != 0 && NeedBlocks(|data|, v.bs) <= |Free(v.used)|
  {
    StoreFile(v, NewIndex(v), NewFile(v, path, |data|, owner, now), Free(v.used)[..NeedBlocks(|data|, v.bs)], data)
  }

  function ListedFile(v: Volume, path: bytes, data: bytes, owner: nat, now: nat): (w: Volume)
    requires NewIndex(v) != 0 && NeedBlocks(|data|, v.bs) <= |Free(v.used)|
  {
    AddChild(StoredFile(v, path, data, owner, now), ParentOf(v, path), NewIndex(v)).0
  }

  function WithPath(v: Volume, path: bytes, i: nat): (w: Volume) {
    v.(index := v.index[path := i])
  }

  function CreateFile(v: Volume, path: bytes, data: bytes, owner: nat, now: nat): (r: (Volume, Status)) {
    if ParentStatus(v, path) != Success then (v, ParentStatus(v, path))
    else if path in v.index then (v, FileExists)
    else if NewIndex(v) == 0 then (v, NoSpace)
    else if NeedBlocks(|data|, v.bs) > |Free(v.used)| then
      (SetEntry(v, NewIndex(v), NewFile(v, path, |data|, owner, now).(valid := 1)), NoSpace)
    else
      (WithPath(ListedFile(v, path, data, owner, now), path, NewIndex(v)), Success)
  }

  function NewDir(v: Volume, path: bytes, owner: nat, now: nat): MetaEntry
    requires NewIndex(v) != 0
  {
    v.meta[NewIndex(v) - 1].(
      valid := 0, kind := 1, parent := ParentOf(v, path), name := Cut(BaseOf(path)), start := 0, size := 0,
      permissions := DIR_MODE, owner := owner, created := now, modified := now)
  }

  function StoredDir(v: Volume, path: bytes, owner: nat, now: nat): (s: Volume)
    requires NewIndex(v) != 0
  {
    SetEntry(v, NewIndex(v), NewDir(v, path, owner, now))
  }

  function MakeDir(v: Volume, path: bytes, owner: nat, now: nat): (r: (Volume, Status)) {
    if ParentStatus(v, path) != Success then (v, ParentStatus(v, path))
    else if !IsDir(v.meta, ParentOf(v, path)) then (v, InvalidOperation)
    else if path in v.index then (v, FileExists)
    else if NewIndex(v) == 0 then (v, NoSpace)
    else
      var (w, ok) := AddChild(StoredDir(v, path, owner, now), ParentOf(v, path), NewIndex(v));
      if !ok then (SetEntry(w, NewIndex(v), NewDir(v, path, owner, now).(valid := 1)), IoError)
      else (Reindexed(BumpNext(w, NewIndex(v))), Success)
  }

  // ---- Delete ----

  function Dead(e: MetaEntry): MetaEntry {
    e.(valid := 1, start := 0, size := 0)
  }

  function DeleteFile(v: Volume, path: bytes): (r: (Volume, Status)) {
    if path !in v.index || !IsFile(v.meta, v.index[path]) then (v, NotFound)
    else (Deleted(v, v.index[path]), Success)
  }

  /** Blocks freed, entry unlisted and dead, index rebuilt. */
  function Deleted(v: Volume, i: nat): (w: Volume)
    requires Live(v.meta, i)
  {
    Reindexed(SetEntry(RemoveChild(Marked(v, EntryChain(v, i), false), Par(v.meta, i), i).0, i, Dead(v.meta[i - 1])))
  }

  function RemoveDir(v: Volume, path: bytes): (r: (Volume, Status)) {
    if path == [] || path == ROOT then (v, InvalidOperation)
    else if path !in v.index then (v, NotFound)
    else if !IsDir(v.meta, v.index[path]) then (v, InvalidOperation)
    else if Kids(v, v.index[path]) != [] then (v, DirectoryNotEmpty)
    else if Par(v.meta, v.index[path]) == 0 || Par(v.meta, v.index[path]) > |v.meta| then (v, InvalidOperation)
    else if !RemoveChild(v, Par(v.meta, v.index[path]), v.index[path]).1 then (v, IoError)
    else (Dismantled(v, v.index[path]), Success)
  }

  /** Directory unlisted and dead, its block freed, index rebuilt. */
  function Dismantled(v: Volume, i: nat): (w: Volume)
    requires Live(v.meta, i)
  {
    var x := RemoveChild(v, Par(v.meta, i), i).0;
    var y := if StartOf(v, i) != 0 then Marked(x, [StartOf(v, i)], false) else x;
    Reindexed(SetEntry(y, i, v.meta[i - 1].(valid := 1, start := 0)))
  }

  // ---- Edit ----

  /** `prev` with `data` written at `pos`, as far as it fits. */
  function Overlay(prev: bytes, pos: nat, data: bytes): (r: bytes)
    ensures |r| == |prev|
  {
    if pos > |prev| then prev
    else
      var d := Take(data, |prev| - pos);
      prev[..pos] + d + prev[pos + |d|..]
  }

  /** A block with the decoded payload overlaid at `pos`. */
  function EditedBlock(x: Block, enc: Encoding.table, pos: nat, data: bytes): (r: Block) {
    x.(payload := Encoding.Encode(enc, Overlay(Encoding.Decode(enc, x.payload), pos, data)))
  }

  function EditBlock(v: Volume, b: nat, pos: nat, data: bytes): (w: Volume) {
    if 1 <= b <= |v.blocks| then SetBlock(v, b, EditedBlock(v.blocks[b - 1], v.enc, pos, data)) else v
  }

  /** Block `k` of the file `i` rewritten. */
  function Edited(v: Volume, i: nat, k: nat, pos: nat, data: bytes, now: nat): (w: Volume)
    requires Live(v.meta, i) && k < |EntryChain(v, i)|
  {
    EditBlock(SetEntry(v, i, v.meta[i - 1].(modified := now)), EntryChain(v, i)[k], pos, data)
  }

  function EditFile(v: Volume, path: bytes, data: bytes, index: nat, now: nat): (r: (Volume, Status)) {
    if path !in v.index || !IsFile(v.meta, v.index[path]) then (v, NotFound)
    else
      var i, pl := v.index[path], Payload(v.bs);
      if index > v.meta[i - 1].size || Quot(index, pl) >= |EntryChain(v, i)| then (v, InvalidOperation)
      else (Edited(v, i, Quot(index, pl), Rem(index, pl), data, now), Success)
  }

  // ---- Truncate ----

  function SetNext(v: Volume, b: nat, next: nat): (w: Volume) {
    if 1 <= b <= |v.blocks| then SetBlock(v, b, v.blocks[b - 1].(next := next)) else v
  }

  /** The file cut to the first `r` blocks of its chain `c`. */
  function Shrunk(v: Volume, i: nat, e: MetaEntry, c: seq<nat>, r: nat): (w: Volume)
    requires r < |c|
  {
    if r == 0 then SetEntry(Marked(v, c, false), i, e.(start := 0))
    else SetEntry(SetNext(Marked(v, c[r..], false), c[r - 1], 0), i, e)
  }

  function Linked(v: Volume, c: seq<nat>, next: nat): (w: Volume) {
    if c == [] then v else SetNext(v, Last(c), next)
  }

  /** The file with the zeroed blocks `extra` linked behind its chain `c`. */
  function Grown(v: Volume, i: nat, e: MetaEntry, c: seq<nat>, extra: seq<nat>): (w: Volume)
    requires extra != []
  {
    var linked := Linked(v, c, extra[0]);
    BumpNext(SetEntry(Marked(linked, extra, true), i, if c == [] then e.(start := extra[0]) else e)
               .(blocks := Filled(linked.blocks, extra, v.enc, [], Payload(v.bs))), i)
  }

  /** The record becomes `e`, and the chain `c` gets `required` blocks, if there are enough. */
  function ResizedTo(v: Volume, i: nat, e: MetaEntry, c: seq<nat>, required: nat): (r: (Volume, Status)) {
    if required == |c| then (SetEntry(v, i, e), Success)
    else if required < |c| then (Shrunk(v, i, e, c, required), Success)
    else if required - |c| > |Free(v.used)| then (v, NoSpace)
    else (Grown(v, i, e, c, Free(v.used)[..required - |c|]), Success)
  }

  function TruncateFile(v: Volume, path: bytes, newSize: nat, now: nat): (r: (Volume, Status)) {
    if path !in v.index || !Live(v.meta, v.index[path]) then (v, NotFound)
    else if !IsFile(v.meta, v.index[path]) then (v, InvalidOperation)
    else
      var i := v.index[path];
      ResizedTo(v, i, v.meta[i - 1].(size := newSize, modified := now), EntryChain(v, i), NeedBlocks(newSize, v.bs))
  }

  // ---- Rename ----

  /** The position of the last slash, if any. */
  function LastSlash(p: bytes, n: nat): (r: nat)
    requires n <= |p|
    ensures r <= n
  {
    // n when there is none among the first n
    if n == 0 then 0
    else if p[n - 1] == SLASH then n - 1
    else
      var r := LastSlash(p, n - 1);
      if r == n - 1 then n else r
  }

  /** The directory part of a new path: what precedes its last slash. */
  function NewDirOf(p: bytes): bytes {
    var pos := LastSlash(p, |p|);
    if pos == 0 then ROOT else p[..pos]
  }

  function NewBaseOf(p: bytes): bytes {
    var pos := LastSlash(p, |p|);
    if pos == |p| then [] else p[pos + 1..]
  }

  function Target(v: Volume, newPath: bytes): nat {
    if NewDirOf(newPath) in v.index then v.index[NewDirOf(newPath)] else 0
  }

  /** What is wrong with a new path, if anything. */
  function TargetStatus(v: Volume, newPath: bytes): Status {
    if newPath in v.index then FileExists
    else if LastSlash(newPath, |newPath|) == |newPath| then InvalidPath
    else if NewBaseOf(newPath) == [] || |NewBaseOf(newPath)| > NAME_MAX then InvalidOperation
    else if Target(v, newPath) == 0 || Target(v, newPath) > |v.meta| then NotFound
    else if !IsDir(v.meta, Target(v, newPath)) then InvalidOperation
    else Success
  }

  function RenameEntry(v: Volume, oldPath: bytes, newPath: bytes, now: nat): (r: (Volume, Status)) {
    if oldPath == [] || newPath == [] then (v, InvalidPath)
    else if oldPath !in v.index || !Live(v.meta, v.index[oldPath]) then (v, NotFound)
    else if TargetStatus(v, newPath) != Success then (v, TargetStatus(v, newPath))
    else if Par(v.meta, v.index[oldPath]) == 0 || Par(v.meta, v.index[oldPath]) > |v.meta| then (v, InvalidOperation)
    else Relocated(v, v.index[oldPath], Target(v, newPath), NewBaseOf(newPath), now)
  }

  function RenamedRecord(e: MetaEntry, name: bytes, parent: nat, now: nat): MetaEntry {
    e.(name := name, parent := parent, modified := now)
  }

  /** The entry `i` out of its directory's list. */
  function Unlisted(v: Volume, i: nat): (w: Volume) {
    RemoveChild(v, Par(v.meta, i), i).0
  }

  /** The entry under its new name and parent, not yet in the new directory's list. */
  function Renamed(v: Volume, i: nat, np: nat, name: bytes, now: nat): (w: Volume)
    requires 1 <= i <= |v.meta|
  {
    SetEntry(Unlisted(v, i), i, RenamedRecord(v.meta[i - 1], name, np, now))
  }

  /** Out of the old directory and into the new one. When the new directory has no block and
      none is free, the entry goes back, under its new name. */
  function Relocated(v: Volume, i: nat, np: nat, name: bytes, now: nat): (r: (Volume, Status))
    requires 1 <= i <= |v.meta|
  {
    var op := Par(v.meta, i);
    if !RemoveChild(v, op, i).1 then (Unlisted(v, i), IoError)
    else
      var (w, ok) := AddChild(Renamed(v, i, np, name, now), np, i);
      if ok then (Reindexed(w), Success)
      else (AddChild(Renamed(v, i, op, name, now), op, i).0, IoError)
  }

  // ---- Reading ----

  function ReadFile(v: Volume, path: bytes): (r: (Status, bytes)) {
    if path !in v.index || !Live(v.meta, v.index[path]) then (NotFound, [])
    else if !IsFile(v.meta, v.index[path]) then (InvalidOperation, [])
    else (Success, Visible(v, v.index[path]))
  }
}
