# A model of the OFS storage engine, with proofs

OFS keeps a whole file system in one volume file: a header, a table of users, a table of
metadata records, a bitmap with one bit per block, and a region of equal blocks. Files are
chains of blocks linked by next pointers, and their bytes pass through a substitution code.
Directories are records with parent numbers plus one block that lists the children. A chained
hash map caches the entry number of every full path.

The project models that engine in three layers.

* **Values.** `State.dfy` has the mounted volume as one value (blocks, flags, records, index,
  code table, next number) and the invariant `Inv` that links them: chains are complete,
  disjoint and of the right length; the flags that are set are exactly the blocks in chains;
  every live entry climbs to the root through live directories; child lists are exactly the
  children, without duplicates; the index maps a path to an entry exactly when the entry is
  live and has that path. `Ops.dfy` gives each operation as a function from one volume to the
  next with the branches, constants and narrowings of the engine. `Abs` is what a user sees: a
  map from paths to folders and to files with their bytes.
* **Theorems.** `Creating` and `CreateTheorems`, `Deleting`, `Editing`, `Truncating` and
  `Renaming` prove for each operation when it keeps `Inv` (an exact condition, checkable
  before the call) and what it then does to `Abs`. `Runs` lifts this to whole runs. `Statuses` says which
  status each operation returns, and `RecordFrames` what it does to the records, field by field.
  `Reports` says what listings and figures show, and `ByteLayout` where everything lies in the
  image. `Layout`,
  `Bitmap`, `Encoding`, `Paths`, `HashMap`, `Chains`, `Tree` and `Image` prove the laws of the
  parts. `Limits` and `FullDirectories` have a concrete input for each condition, which shows
  that it is needed. `Reachable` proves what no call can break, and `AbstractTree` that the
  system of paths and nodes is a tree by itself.
* **The engine.** `Instance.dfy` is the class `FSInstance` with its disk as a byte array, its
  bitmap bytes, its record array and its hash map. Its methods change these step by step and
  are proved equal to the functions of `Ops`, in every state that `Reachable` shows can occur,
  not only in order. `Mounting` and `Formatting` open, save and create volumes. `Listings`
  has what `dir_list` and `get_stats` compute. `Steps.dfy` has the loops and facts that need no
  instance.

So a theorem about a function of `Ops` is a theorem about the method of the same operation:
`FileCreate` is `CreateFile`, `DirCreate` is `MakeDir`, `FileDelete` is `DeleteFile`,
`DirDelete` is `RemoveDir`, `FileEdit` is `EditFile`, `FileTruncate` is `TruncateFile`,
`FileRename` is `RenameEntry`.

Entry and block numbers start at 1, as in the engine; 0 means none. A record is live when its
`valid` byte is 0. Bytes are numbers below 256, paths are byte strings, and integers are
unbounded, so every wrap-around and narrowing of the engine is written out. Times, owner
numbers and the hash function are parameters.

Where the engine does not do what its interface suggests, the model follows the engine, and a
lemma says exactly when the expected property holds: raw and overlong paths in `file_create`,
a parent that is a file, a directory whose list is full or gets no block, a second spelling in
`dir_create`, a rename below itself or to a taken path, the name that a rolled-back rename
leaves behind, block counts of 2^32 and more, a code table with repeated codes, and a layout
loop that does not end. Growing a file does not clear the slack of its last block, and raw
zeros are not coded: the bytes of a grown file are stated as they are.

Verify with `dafny verify dfyconfig.toml`.

## Model

| member | source | states |
|---|---|---|
| `Bitmap.AllocateBlocks` | source/core/ofs_core.cpp:213-225 | returns the `n` lowest free blocks in ascending order and sets exactly their flags; with fewer than `n` free it returns none and every byte of the bitmap is as before |
| `Bitmap.FreeBlocks` | source/core/ofs_core.cpp:226-228 | clears exactly the flags of the listed blocks that are in the volume |
| `Bitmap.AllocateThenFree` | source/core/ofs_core.cpp:213-228 | freeing what a successful allocation returned restores every byte of the bitmap |
| `Bitmap.FreeContents` | source/core/ofs_core.cpp:213-225 | the list that first fit draws on is exactly the free blocks, strictly ascending |
| `Bitmap.LowestFree` | source/core/ofs_core.cpp:213-225 | a block is among the `n` allocated ones exactly when it is free and below every free block that is not |
| `Bitmap.FlagsInjective` | source/core/ofs_core.cpp:202-212 | two bitmaps with the same flags are the same bytes, so statements about flags are statements about bytes |
| `HashMap.SimpleHashMap.Insert` | source/data_structures/simple_unordered_map.hpp:14-25 | map update; each key stays only in its own bucket and at most once; the result says whether the key was new, and the size grows by one exactly then |
| `HashMap.SimpleHashMap.Erase` | source/data_structures/simple_unordered_map.hpp:26-36 | map removal, with result and size to match |
| `HashMap.SimpleHashMap.Contains` | source/data_structures/simple_unordered_map.hpp:38-44 | membership in the map, for any hash function and bucket count |
| `HashMap.SimpleHashMap.Find` | source/data_structures/simple_unordered_map.hpp:45-59 | the value of the key, or none |
| `HashMap.SimpleHashMap.Clear` | source/data_structures/simple_unordered_map.hpp:63-66 | the map is empty, however many buckets there are |
| `HashMap.SimpleHashMap.GetAll` | source/data_structures/simple_unordered_map.hpp:67-74 | lists every pair of the map exactly once and nothing else |
| `HashMap.SimpleHashMap.Size` | source/data_structures/simple_unordered_map.hpp:61 | the stored size is the number of keys |
| `HashMap.HoldsReplace` | source/data_structures/simple_unordered_map.hpp:14-36 | replacing one bucket keeps the placement invariant if old and new contents agree on all keys that belong elsewhere |
| `Paths.SplitPathTokens` | source/core/ofs_core.cpp:401-413 | the tokeniser loops compute the slash-free, non-empty components |
| `Paths.TokensOfPath` | source/core/ofs_core.cpp:401-413 | splitting a joined path gives back the list of names, for any list |
| `Paths.TokensAtSlash` | source/core/ofs_core.cpp:401-413 | a slash separates: the tokens of a path are those before it, then those after it; with `TokensOfName` this determines the tokens of every path |
| `Paths.TokensOfName` | source/core/ofs_core.cpp:401-413 | a non-empty name without slashes is its own single token |
| `Paths.JoinTokensCanonical` | source/core/ofs_core.cpp:422-432 | joining the tokens of a path gives the path back exactly when it is canonical |
| `Paths.StringPrefixIsBelow` | source/core/ofs_core.cpp:278-297 | a path string that starts with another and a slash belongs to an entry below it |
| `Steps.ParentPath` | source/core/ofs_core.cpp:425-432 | the loop that builds the parent path joins all tokens but the last |
| `Steps.JoinReversed` | source/core/ofs_core.cpp:278-297 | joining the collected names from the back gives the path, root first |
| `Encoding.EncodeData` | source/core/ofs_core.cpp:264-269 | codes each byte by the table, or none while the table is all zero |
| `Encoding.DecodeData` | source/core/ofs_core.cpp:270-277 | decodes by the inverse table that the loop fills, where the last of several equal codes wins |
| `Encoding.EncodedIs` | source/core/ofs_core.cpp:264-269 | each byte of encoded data is the table entry of the byte, or the byte itself while the table is all zero |
| `Encoding.DecodedIs` | source/core/ofs_core.cpp:270-277 | each decoded byte is the last one with that code, or 0 when no byte has it |
| `Encoding.RoundTripIffLossless` | source/core/ofs_core.cpp:261-277 | decoding undoes encoding on all inputs exactly when the table is all zero or has no repeated code |
| `Encoding.EncodeDecodeIffLossless` | source/core/ofs_core.cpp:592-598 | encoding undoes decoding on all inputs for the same tables and no others (pigeonhole): only then does editing a block keep the stored bytes it does not write |
| `Layout.OscillatesForm` | source/core/ofs_core.cpp:852-862 | the remainder test for a loop without end is the form (8k + 1) * block size + k |
| `Layout.LoopEndsIff` | source/core/ofs_core.cpp:852-862 | the layout loop reaches a round in which it stops exactly when the available size is not of that form |
| `Layout.SettleBlocks` | source/core/ofs_core.cpp:849-862 | when it stops, the block count is the largest that fits together with its bitmap; it stops because the distance of successive bitmap sizes shrinks |
| `Layout.FormatAndInit` | source/core/ofs_core.cpp:1014-1024 | the block count of `fs_init` is never below that of `fs_format`, equal exactly when the slack of the division holds the bitmap, and its last block ends at most one bitmap past the volume |
| `Layout.FormatGeometry` | source/core/ofs_core.cpp:836-868 | accepts exactly the configurations that pass the tests; regions follow each other and lie inside the volume exactly when the size did not wrap; the test for zero blocks never fires |
| `Disk.PatchInside` | source/core/ofs_core.cpp:170-201 | a write into one block of the image changes that block as stated and no other block |
| `Chains.ChainIsShort` | source/core/ofs_core.cpp:1044-1059 | a chain that ends has no repeated block and is no longer than the volume |
| `Chains.ChainUnique` | source/core/ofs_core.cpp:1044-1059 | following the next pointers gives the one chain from a start |
| `Chains.GuardedWalk` | source/core/ofs_core.cpp:1044-1059 | with its cut-off the walk returns the whole chain if that ends, and otherwise `blocks + 3` blocks with a repetition |
| `Chains.WordsOfDirPayload` | source/core/ofs_core.cpp:63-110 | the non-zero words of a directory block that was written are the children that fit, in order |
| `State.RechainKeeps` | source/core/ofs_core.cpp:213-228 | one entry may change its chain for its own and free blocks: no block gets two owners, and set flags are exactly the blocks in chains |
| `Directories.AddChildKeeps` | source/core/ofs_core.cpp:63-91 | fails exactly without a block of its own and without a free one; otherwise appends while there is room, and touches no other entry |
| `Directories.RemoveChildKeeps` | source/core/ofs_core.cpp:92-110 | fails exactly when the child is not listed; otherwise removes it and touches no other entry |
| `Tree.ClimbIsShort` | source/core/ofs_core.cpp:278-297 | no entry is deeper than the table is long |
| `Tree.PathStep` | source/core/ofs_core.cpp:278-297 | the path of an entry is the path of its parent and its name |
| `Tree.RebuildExact` | source/core/ofs_core.cpp:298-306 | rebuilding gives the exact index of every table whose live entries have distinct paths |
| `Tree.IndexUnique` | source/core/ofs_core.cpp:298-306 | a table has one exact index |
| `TreeChanges.AddNodeIndex` | source/core/ofs_core.cpp:481-485 | the single insert gives the exact index of the larger tree |
| `TreeChanges.MoveNode` | source/core/ofs_core.cpp:1190-1208 | moving an entry to a directory outside its subtree keeps the tree and replaces exactly the prefix of the paths at and below it, at any depth |
| `TreeChanges.MoveBelowItself` | source/core/ofs_core.cpp:1190-1208 | moving an entry below itself breaks the tree |
| `CreateTheorems.CreateFileKeepsIff` | source/core/ofs_core.cpp:415-486 | success exactly when the path checks pass and record and blocks are free; a failure keeps the invariant and what a user sees; a success keeps the invariant exactly for a canonical path with a name of at most 11 bytes, in a directory with room, with a block count below 2^32 |
| `CreateTheorems.CreateFileRefines` | source/core/ofs_core.cpp:415-486 | then the new path shows the data, zero-padded to whole blocks, and every other path shows what it did |
| `CreateTheorems.ReadAfterCreate` | source/core/ofs_core.cpp:415-533 | reading it returns the data coded and decoded, for any size and number of blocks: with a table without repeated codes, exactly the data |
| `CreateTheorems.FreshIs` | source/core/ofs_core.cpp:456-467 | byte by byte, the blocks of a new file hold the data as it codes and decodes, then zeros as they decode |
| `CreateTheorems.MakeDirKeepsIff` | source/core/ofs_core.cpp:603-647 | success exactly when the path checks pass, a record is free and the list of the parent has or gets a block; a failure keeps everything; a success keeps the invariant exactly when no entry has the path it gets and its parent has room |
| `CreateTheorems.MakeDirRefines` | source/core/ofs_core.cpp:603-647 | then exactly one folder is added |
| `Deleting.DeleteFileRefines` | source/core/ofs_core.cpp:535-566 | succeeds exactly on files; drops exactly that path, frees exactly its chain, keeps the invariant |
| `Deleting.RemoveDirRefines` | source/core/ofs_core.cpp:687-711 | succeeds exactly on directories other than the root that are the parent of no entry; drops exactly that path, frees exactly its block, keeps the invariant |
| `Editing.EditFileRefines` | source/core/ofs_core.cpp:567-602 | overlays the data at the index, up to the end of one block, and codes that block anew, whatever the code table; size, chain, flags, index and every other node stay |
| `Editing.EditIsOverlay` | source/core/ofs_core.cpp:592-598 | with a table without repeated codes that is exactly the overlay |
| `Editing.EditedIs` | source/core/ofs_core.cpp:585-598 | byte by byte, for any code table: written bytes from the index to the end of its block, and that block coded anew |
| `Truncating.TruncateKeepsIff` | source/core/ofs_core.cpp:1060-1137 | a failure changes nothing; a success keeps the invariant exactly when the block count is below 2^32 |
| `Truncating.TruncateRefines` | source/core/ofs_core.cpp:1060-1137 | the new chain shares a prefix with the old one and has exactly the blocks of the new size; old bytes stay and new blocks are raw zeros; other nodes stay |
| `Truncating.TruncateFlags` | source/core/ofs_core.cpp:1089-1112 | set flags afterwards are those of the new chain and of all other entries: freed blocks are exactly the dropped end of the chain, taken ones the lowest free blocks |
| `Truncating.TruncateKeepsVisible` | source/core/ofs_core.cpp:1060-1137 | the first min(old, new) visible bytes are the old ones |
| `Renaming.RenameKeepsIff` | source/core/ofs_core.cpp:1153-1209 | success exactly when the checks pass and the list of the new directory has or gets a block; a refused rename changes nothing; a success keeps the invariant exactly when the target is outside the moved entry, its path is free and its directory has room; a rollback keeps it exactly when the name did not change |
| `Renaming.RenameRefines` | source/core/ofs_core.cpp:1153-1209 | every path at or below the old one gets the new prefix, every other path stays, and no node changes |
| `Renaming.OutsideIsPrefixTest` | source/core/ofs_core.cpp:1153-1209 | being outside is a test on two path strings |
| `Statuses.ReadStatus` | source/core/ofs_core.cpp:488-533 | which status `file_read` returns, as conditions on paths and nodes that exclude each other, and that it returns exactly the visible bytes of the node |
| `Statuses.CreateStatus` | source/core/ofs_core.cpp:415-486 | which status `file_create` returns: InvalidPath, NotFound, FileExists, NoSpace exactly without a dead record or enough free blocks, or Success |
| `Statuses.AskedIs` | source/core/ofs_core.cpp:453-454 | the number of blocks asked for is the size divided by the payload, rounded up and narrowed to 32 bits, and none for the last sizes below 2^64 |
| `Statuses.MakeDirStatus` | source/core/ofs_core.cpp:603-647 | which status `dir_create` returns, likewise, with IoError exactly when the list of the parent has no block and gets none |
| `Statuses.DeleteStatus` | source/core/ofs_core.cpp:535-545 | `file_delete` returns Success on files and NotFound on all else |
| `Statuses.RemoveDirStatus` | source/core/ofs_core.cpp:687-711 | `dir_delete`: NotFound, InvalidOperation on files, the root and the empty path, DirectoryNotEmpty exactly when something lies below, or Success |
| `Statuses.EditStatus` | source/core/ofs_core.cpp:567-590 | `file_edit`: NotFound on all but files, InvalidOperation exactly when the index is past the size or past the last block |
| `Statuses.TruncateStatus` | source/core/ofs_core.cpp:1060-1117 | `file_truncate`: NotFound, InvalidOperation on folders, NoSpace exactly when the new size needs more than the blocks of the file and the free ones |
| `Statuses.RenameStatus` | source/core/ofs_core.cpp:1153-1206 | `file_rename`: all seven statuses, in the order of the checks |
| `Statuses.NewPathParts` | source/core/ofs_core.cpp:1166-1180 | a new path splits at its last slash, into a directory, the root for an empty part, and a name without slashes |
| `RecordFrames.CreateRecords` | source/core/ofs_core.cpp:438-485 | field by field, the record of a new file; it is the lowest dead one, the path is indexed at it, the data takes the lowest free blocks and the list of the parent the next; every other record stays |
| `RecordFrames.CreateRefusedRecords` | source/core/ofs_core.cpp:438-458 | without enough blocks the record is left dead but filled in; any other failure changes nothing |
| `RecordFrames.MakeDirRecords` | source/core/ofs_core.cpp:623-646 | field by field, the record of a new directory, and that every other record stays |
| `RecordFrames.MakeDirRefusedRecords` | source/core/ofs_core.cpp:623-641 | without a block for the list the record is left dead but filled in; any other failure changes nothing |
| `RecordFrames.DeleteRecords` | source/core/ofs_core.cpp:558-563 | a deleted file loses life, first block and size in its record, and every other field and record stays |
| `RecordFrames.RemoveDirRecords` | source/core/ofs_core.cpp:703-708 | a deleted directory loses life and block in its record, and every other field and record stays |
| `RecordFrames.EditRecords` | source/core/ofs_core.cpp:599-601 | an edit sets the time of change and no other field of any record |
| `RecordFrames.TruncateRecords` | source/core/ofs_core.cpp:1060-1137 | a truncate sets size and time of change, and the first block where there was or is none; every other field and record stays |
| `RecordFrames.RenameRecords` | source/core/ofs_core.cpp:1190-1206 | a rename sets name, parent and time of change; creation time, owner, permissions, size and every other record stay |
| `RecordFrames.RenameRefusedRecords` | source/core/ofs_core.cpp:1153-1203 | a rolled-back rename leaves the new name and time, in the old directory; any other failure changes nothing |
| `RecordFrames.StepKeepsBirth` | source/core/ofs_core.cpp:415-1209 | no operation, successful or not, changes kind, owner, permissions, creation time or reserved bytes of a live entry |
| `Accounting.Conservation` | source/core/ofs_core.cpp:777-809 | set flags are as many as the blocks that sizes and directory starts account for; used plus free is the block count |
| `Accounting.GuardNeverFires` | source/core/ofs_core.cpp:1044-1059 | the cut-off of the chain walk never fires |
| `Accounting.PathGuardNeverFires` | source/core/ofs_core.cpp:283-291 | the depth guard of the path walk cuts no path short |
| `Runs.SuccessIff` | source/core/ofs_core.cpp:415-1209 | whether an operation succeeds is a condition on the state before the call |
| `Runs.StepKeepsIff` | source/core/ofs_core.cpp:415-1209 | each of the seven changing operations keeps the whole invariant exactly when its guard holds, a condition on the state before the call |
| `Runs.StepRefines` | source/core/ofs_core.cpp:415-1209 | a sound step that succeeds is a step of the abstract map from paths to nodes, whatever the code table, and one that fails is none |
| `AbstractTree.AbsIsTree` | source/core/ofs_core.cpp:415-1209 | what a user sees of a volume in order is a tree: the root is a folder, and everything else is a name in a folder |
| `AbstractTree.AbsStepKeepsTree` | source/core/ofs_core.cpp:415-1209 | every step of the abstract system keeps such a map a tree, without a look at volumes |
| `Runs.RunKeeps` | source/core/ofs_core.cpp:415-1209 | every run of sound operations keeps the invariant |
| `Runs.RunFrame` | source/core/ofs_core.cpp:415-1209 | a node that no operation of a run names keeps its path and its bytes, whatever the code table |
| `Runs.FormattedRuns` | source/core/ofs_core.cpp:832-1209 | from a formatted volume every sound run keeps the invariant, and entry 1 stays a live directory |
| `Reachable.StepLoose` | source/core/ofs_core.cpp:415-1209 | every operation with any arguments, sound or not, keeps chains complete and disjoint, their blocks flagged, dead entries without blocks, the index on live entries, and entry 1 a live directory |
| `Reachable.AnyRun` | source/core/ofs_core.cpp:832-1209 | so after any run from a formatted volume no chain has a cycle, leaves the volume, shares a block or has a block that is marked free, and the state meets what the methods of `FSInstance` require |
| `Records.EntryRoundTrip` | source/core/meta_entry.hpp:6-39 | a metadata record of 72 packed bytes reads back |
| `Records.UserRoundTrip` | source/include/ofs_types.hpp:69-91 | a user record of 128 packed bytes reads back |
| `Records.HeaderRoundTrip` | source/include/ofs_types.hpp:46-67 | a header of 512 packed bytes reads back |
| `Bytes.UnLeLast` | source/include/ofs_types.hpp:46-67 | in a stored number the last byte is the most significant |
| `ByteLayout.EntryLayout` | source/core/meta_entry.hpp:6-39 | the offset of each field in a metadata record |
| `ByteLayout.UserLayout` | source/include/ofs_types.hpp:69-91 | the offset of each field in a user record |
| `ByteLayout.HeaderLayout` | source/include/ofs_types.hpp:46-67 | the offset of each field in the header |
| `ByteLayout.ReservedLayout` | source/core/ofs_core.cpp:1029-1034 | the code table at byte 236 and the next number at byte 492 of the header |
| `ByteLayout.BitIs` | source/core/ofs_core.cpp:202-212 | bit `i` of the bitmap is bit `i % 8`, from the least significant, of byte `i / 8` |
| `ByteLayout.NeedsFormatIff` | source/core/ofs_core.cpp:941-962 | an image is formatted exactly when it has no 512 bytes, not the magic, or no live directory in its first record |
| `ByteLayout.SavedBytes` | source/core/ofs_core.cpp:926-936 | what a shutdown leaves at each place: the header with the next number, each user, record and bitmap byte |
| `ByteLayout.MountedReserved` | source/core/ofs_core.cpp:1029-1034 | code table and next number are read from their places; no number reads as 2 |
| `ByteLayout.MountedCounts` | source/core/ofs_core.cpp:1003-1036 | how many records, blocks and bitmap bytes are mounted, with the fallback to the end of the image and the minimum of one block |
| `ByteLayout.MountedRecord` | source/core/ofs_core.cpp:1010-1012 | record `k` is read from its 72 bytes |
| `ByteLayout.MountedUser` | source/core/ofs_core.cpp:991-993 | user `k` is read from its 128 bytes |
| `ByteLayout.MountedBits` | source/core/ofs_core.cpp:1026-1028 | bitmap byte `k` is read from its place |
| `Image.SaveThenMount` | source/core/ofs_core.cpp:926-1042 | mounting what a shutdown saved gives back users, records, bitmap, geometry and next number |
| `Image.TablesBack` | source/core/ofs_core.cpp:229-242 | the records and the bitmap that an operation writes are read back, and what lies before them stays |
| `Image.EntriesBack` | source/core/ofs_core.cpp:236-260 | likewise records and header, while users and bitmap stay |
| `Image.AllBack` | source/core/ofs_core.cpp:229-260 | likewise all three, while the users stay |
| `Image.SavedIsGood` | source/core/ofs_core.cpp:941-962 | such an image is never formatted again |
| `Image.SaveKeepsBlocks` | source/core/ofs_core.cpp:926-936 | a shutdown leaves the block region as it is |
| `Instance.FSInstance.WriteBlock` | source/core/ofs_core.cpp:170-187 | next pointer, payload cut to size, zero padding; every other block as before |
| `Instance.FSInstance.ReadBlock` | source/core/ofs_core.cpp:188-201 | the next pointer and payload of the block |
| `Instance.FSInstance.GetBlockChain` | source/core/ofs_core.cpp:1044-1059 | the loop, cut-off included, returns the guarded walk, also when the chain runs into itself; the whole chain if it ends |
| `Instance.FSInstance.DirBlockRead` | source/core/ofs_core.cpp:42-62 | the loop over chain and words returns the child list |
| `Instance.FSInstance.DirAddChild` | source/core/ofs_core.cpp:63-91 | changes disk, bitmap and record as the specification says, and nothing else |
| `Instance.FSInstance.DirRemoveChild` | source/core/ofs_core.cpp:92-110 | likewise; only the directory block changes |
| `Instance.FSInstance.FindFreeMetaIndex` | source/core/ofs_core.cpp:34-41 | the lowest dead record, and 0 only if all records are live |
| `Instance.FSInstance.BuildFullPath` | source/core/ofs_core.cpp:278-297 | the walk to the root, with its guard, gives the path of the entry |
| `Instance.FSInstance.RebuildPathIndex` | source/core/ofs_core.cpp:298-306 | clears the hash map and enters every live entry |
| `Instance.FSInstance.PersistHeader` | source/core/ofs_core.cpp:251-260 | the header, with the next number, is written before the block region; no block changes |
| `Instance.FSInstance.FileCreate` | source/core/ofs_core.cpp:415-486 | new state and result are those of the specification, branch by branch; a success writes records, bitmap and header as they are before the new entry is listed, and a failure writes no table |
| `Instance.FSInstance.FileRead` | source/core/ofs_core.cpp:488-533 | the loop over the chain returns the visible bytes |
| `Instance.FSInstance.FileDelete` | source/core/ofs_core.cpp:535-566 | new state and result are those of the specification; a success writes records and bitmap, but no header |
| `Instance.FSInstance.FileEdit` | source/core/ofs_core.cpp:567-602 | new state and result are those of the specification; a success writes the records only |
| `Instance.FSInstance.DirCreate` | source/core/ofs_core.cpp:603-647 | new state and result are those of the specification; a success writes records and header, but not the bitmap |
| `Instance.FSInstance.DirList` | source/core/ofs_core.cpp:648-686 | one line for each live number in the child list, in order, with name, type, size, permissions, times, owner name and number; and the error cases |
| `Reports.ListingIsExact` | source/core/ofs_core.cpp:648-686 | in a volume in order each line names a path in the directory and says what is there: kind, size, permissions, times, owner name, number; every name in the directory has a line, and no number two |
| `Reports.ListAfterCreate` | source/core/ofs_core.cpp:415-486 | after a sound `file_create` the listing has one more line at its end, with the name, size, mode 0644, times and owner of the call |
| `Reports.ListAfterMakeDir` | source/core/ofs_core.cpp:603-647 | after a sound `dir_create`, likewise, with mode 0755 |
| `Reports.ListAfterDelete` | source/core/ofs_core.cpp:535-566 | after `file_delete` the listing lacks exactly that line, and the others keep their order |
| `Reports.ListAfterRemoveDir` | source/core/ofs_core.cpp:687-711 | after `dir_delete`, likewise |
| `Reports.ListAfterRename` | source/core/ofs_core.cpp:1153-1209 | after a sound rename the line, with new name and time, ends the listing of the new directory and is gone from the old one |
| `Instance.FSInstance.DirDelete` | source/core/ofs_core.cpp:687-711 | new state and result are those of the specification; a success writes the records only, though it frees a block |
| `Instance.FSInstance.BlocksUsed` | source/core/ofs_core.cpp:748-760 | the count is the length of the chain and what the record needs |
| `Instance.FSInstance.GetStats` | source/core/ofs_core.cpp:777-809 | the loops over bitmap, records and users return the sums of the specification |
| `Reports.StatsAreExact` | source/core/ofs_core.cpp:777-809 | in a volume in order the space in use is what the records account for, used and free add up to the volume, files are the paths of files, directories those of folders, and users the active ones |
| `Reports.FreshStats` | source/core/ofs_core.cpp:777-809 | a formatted volume has no file, one directory and no block in use |
| `Instance.FSInstance.FileTruncate` | source/core/ofs_core.cpp:1060-1137 | new state and result are those of the specification, in all four cases and without space; a success writes records and header, and the bitmap exactly if the number of blocks changes |
| `Instance.FSInstance.FileRename` | source/core/ofs_core.cpp:1153-1209 | new state and result are those of the specification, rollback included; a success writes records and header, and a rollback neither |
| `Instance.FSInstance.Shutdown` | source/core/ofs_core.cpp:926-936 | the four writes give exactly the saved image, and the state stays |
| `Mounting.OpenImage` | source/core/ofs_core.cpp:964-1042 | a new instance holds what the image holds and has the rebuilt index; it is in order if the regions named in the header are |
| `Mounting.SavedShows` | source/core/ofs_core.cpp:926-1042 | the saved image is mounted, not formatted, and shows the same volume |
| `Mounting.Restart` | source/core/ofs_core.cpp:926-1042 | shutdown, then init with any hash function, in every state with a live root directory: records, bitmap, blocks, users and next number are the same, and the index is the rebuilt one, which is the old one if the volume is in order |
| `Formatting.FsFormat` | source/core/ofs_core.cpp:832-924 | accepts exactly the configurations that pass the tests and writes the header, users, records and bitmap of the largest layout |
| `Formatting.FormattedHeader` | source/core/ofs_core.cpp:880-896 | the bytes of the header that is written: magic, version, sizes, offsets, time, next number 2, zeros elsewhere |
| `Formatting.FormattedUser` | source/core/ofs_core.cpp:898-904 | user `k` lies at its place |
| `Formatting.FormattedMeta` | source/core/ofs_core.cpp:906-916 | the records lie behind the users |
| `Formatting.FreshRecords` | source/core/ofs_core.cpp:906-914 | the first record is the live directory "root", all others are dead, with mode 0644 |
| `Formatting.FormattedRest` | source/core/ofs_core.cpp:918-920 | everything from the bitmap on is zero |
| `Formatting.FormatThenInit` | source/core/ofs_core.cpp:832-1042 | the image is recognised and shows the empty volume, for which the whole invariant holds, although `fs_init` counts blocks differently |
| `Formatting.FormattedIsSaved` | source/core/ofs_core.cpp:869-923 | the formatted image is byte for byte what a shutdown of the empty volume would save |
| `Formatting.FsInit` | source/core/ofs_core.cpp:938-1042 | an image without header, magic or live root directory is formatted first and then shows the empty volume, in order; any other image is mounted as it is |
| `Limits.RawPathIsIndexed` | source/core/ofs_core.cpp:436-484 | `file_create` of "//a" succeeds and breaks the invariant |
| `Limits.LongNameIsCut` | source/core/meta_entry.hpp:33-36 | so does a name of 12 bytes, which is cut |
| `Limits.NoBlockForList` | source/core/ofs_core.cpp:481-483 | so does a file of one byte on a volume of one block: the data takes the block, and the list of its directory gets none |
| `Limits.DataWraps` | source/core/ofs_core.cpp:457-462 | so does data of 124 * 2^32 bytes, with blocks of 128 |
| `Limits.FileBelowFile` | source/core/ofs_core.cpp:433-436 | so does a file below a file |
| `Limits.DirMadeTwice` | source/core/ofs_core.cpp:621-622 | `dir_create` of "//a" makes "/a" a second time |
| `Limits.RenameIntoItself` | source/core/ofs_core.cpp:1169-1204 | "/a" renamed to "/a/b" succeeds and breaks the tree |
| `Limits.RollbackKeepsName` | source/core/ofs_core.cpp:1191-1201 | the same without a free block is rolled back with an I/O error: the tree is kept, but the entry keeps the new name, and the index the old path |
| `FullDirectories.CreateInFull` | source/core/ofs_core.cpp:481-484 | with 31 children in a block of 128 bytes one more `file_create` succeeds, but the file is in no list |
| `FullDirectories.MakeDirInFull` | source/core/ofs_core.cpp:636-646 | so does one more `dir_create` |
| `FullDirectories.RenameIntoFull` | source/core/ofs_core.cpp:1190-1206 | a file renamed into that directory succeeds and is lost from all lists |
| `FullDirectories.RenameOntoTaken` | source/core/ofs_core.cpp:1165-1206 | "/a/b" renamed to "//a" while there is "/a" succeeds, and two entries have one path |
| `Limits.SizeWraps` | source/core/ofs_core.cpp:1073-1083 | truncating any empty file to 124 * 2^32 bytes, with blocks of 128, succeeds without a block |
| `Limits.SizeWrapsHere` | source/core/ofs_core.cpp:1073-1083 | such a file and volume exist |
| `Limits.LayoutNeverSettles` | source/core/ofs_core.cpp:852-862 | with 128 bytes left and blocks of 128 the layout loop never ends |
| `Limits.ConstantCode` | source/core/ofs_core.cpp:264-277 | a table that codes all bytes alike reads every byte back as 255 |

## Left out

- The server, its request queue and message format, the curses interface and the scripted client: input and output only.
- Users, login, sessions, password hashes, the user index and configuration parsing: the user table is carried through format, shutdown and init, but not changed.
- Failures and end-of-file states of the volume stream: a read or write succeeds. The image is an array long enough for the last block; `Formatting` takes its length as a parameter, because the block region of `fs_init` can end past the configured size and the file then grows with zeros.
- Images whose bitmap lies before the metadata, or with a block size of 0, where the engine's arithmetic wraps or divides by zero, are an error in the model.
- Formatting.FsFormat: requires that the layout loop ends (`Layout.LoopEndsIff` says exactly when) and an image as long as what is written.
- Formatting.FsInit: where it formats, requires besides that the regions end within 32 bits, because the header holds offsets of 32 bits and the engine would read other regions than it wrote.
- Instance.FSInstance.DirBlockRead: requires a chain that ends inside the volume, as every reachable state has; on others the engine reads past the block region or does not return. The same holds for the chains that the other methods walk.
- Instance.FSInstance.GetStats: does not model the session count and the floating-point fragmentation figure.
- Instance.FSInstance.DirList: the fields that the engine leaves zero are not part of a line.
- Crashes: which tables each operation writes is part of the contracts of `FSInstance`, but what an image between two operations mounts as is not stated; it need not agree with memory, because some operations do not write every table that they change.
- `set_permissions`, `file_exists`, `dir_exists`, the remaining fields of `get_metadata` and `get_error_message`: one branch each.
- Locking: the engine has none, so operations are taken one at a time.
