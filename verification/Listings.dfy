/** What `dir_list` and `get_stats` report: copies of records, and sums over tables. */
module Listings {
  import opened Bytes
  import opened Bitmap
  import opened Tree
  import opened State
  import opened Records
  import opened Accounting

  /** A line of a listing; the fields that are not named here stay zero. */
  datatype FileEntry = FileEntry(
    name: bytes, kind: nat, size: nat, permissions: nat, created: nat, modified: nat, owner: bytes, inode: nat)

  const OWNER_MAX: nat := 31
  const UNKNOWN: bytes := [117, 110, 107, 110, 111, 119, 110]

  function OwnerName(users: seq<UserInfo>, id: nat): bytes {
    if id < |users| then Take(UpToNul(users[id].username), OWNER_MAX) else UNKNOWN
  }

  function EntryInfo(meta: table, users: seq<UserInfo>, c: nat): FileEntry
    requires Live(meta, c)
  {
    var e := meta[c - 1];
    FileEntry(e.name, e.kind, e.size, e.permissions, e.created, e.modified, OwnerName(users, e.owner), c)
  }

  /** The lines for the first `k` numbers of a list; numbers that stand for no live entry are skipped. */
  function Listing(meta: table, users: seq<UserInfo>, kids: seq<nat>, k: nat): seq<FileEntry>
    requires k <= |kids|
  {
    if k == 0 then []
    else if Live(meta, kids[k - 1]) then Listing(meta, users, kids, k - 1) + [EntryInfo(meta, users, kids[k - 1])]
    else Listing(meta, users, kids, k - 1)
  }

  // ---- Statistics ----

  datatype FSStats = FSStats(
    totalSize: nat, usedSpace: nat, freeSpace: nat, files: nat, directories: nat, users: nat)

  function StatsOf(total: nat, used: seq<bool>, bs: nat, meta: table, users: seq<UserInfo>): FSStats {
    FSStats(total, Count(used, |used|) * bs, |Free(used)| * bs, CountKind(meta, 0, |meta|), CountKind(meta, 1, |meta|),
            CountActive(users, |users|))
  }

  /** The live entries of a kind among the first `k`. */
  function CountKind(meta: table, kind: nat, k: nat): nat
    requires k <= |meta|
  {
    if k == 0 then 0
    else CountKind(meta, kind, k - 1) + (if Live(meta, k) && meta[k - 1].kind == kind then 1 else 0)
  }

  function CountActive(users: seq<UserInfo>, k: nat): nat
    requires k <= |users|
  {
    if k == 0 then 0 else CountActive(users, k - 1) + (if users[k - 1].active != 0 then 1 else 0)
  }
}
