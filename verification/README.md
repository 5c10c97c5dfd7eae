# Cache purge module: index, purges and bootstrap

A Dafny model of an nginx module that purges cached responses by key, by key prefix and by
tag. It proves what the module's index in shared memory, its purge engine and its bootstrap
protocol guarantee, for every input, every allocation failure and every run.

Check everything with `dafny verify dfyconfig.toml --resource-limit 2000000`.

## What is modelled

**The index store** is a hand-linked heap in shared memory. Each zone has a queue of files, a
path tree, a key tree whose entries own a queue of files, and a tag tree whose entries own a
queue of members; a member also hangs on its file's own queue. `SharedHeap` keeps one map for
each struct field, from block address to value, so every relinking is an update in place of
that heap. `IndexStore.Store` has the operations with their loops. Which requests the slab
grants is an input (`SlabRequests`), what an operation lacks is known before it starts
(`IndexNeeds`), and all of them keep the invariant `Consistent`: the heap is linked correctly, no key
entry is empty, there are no more empty tag entries than failures, and the heap stands for a
plain map from zone and path to key, tags and stat. `PointerTree` goes one level lower and
proves the two pointer loops of the trees over linked nodes, and `LinkedIndex` that looking up
and entering over these links refines the heap's three indexes. Hash functions are arbitrary.

**The purge engine** is `Purge.Purger`: files on disk, cache nodes with their accounted size,
and an index, changed together by exact, wildcard, tag and full purges, hard and soft.
`PurgeSpec` says what each purge does as a function of the state before; `PurgeFacts` proves
what that means, and `PlainTerms` says it file by file, over bytes and plain fields. `Dispatch` runs a request from its headers to its status, and runs of requests.

**The bootstrap** is there twice. `Bootstrap` is a step relation for one zone and any number of
workers, with the two halves of a purge, of a scan step and of a cached response as separate steps,
the contents of files and entries, and a list of eleven faults. One theorem is about every run
without a fault; one, in `Presence`, about every run with only those faults that cannot cost an
entry; `BootstrapRuns` shows that no fault can be left out. `Runtime.Worker` is the code of one
worker, with its loops over zones and directories.

**The small parts** are the tokenizer, the file name decoding, JSON escaping, the node lookup
and the statistics walk.

| file | part |
|---|---|
| `Bytes`, `OrderedTree`, `PointerTree`, `NameIndex`, `Queues` | strings, search trees, queues |
| `SharedHeap`, `HeapSteps`, `HeapView`, `IndexHits` | the heap, its relinking steps, the map it stands for, query answers |
| `LinkedIndex` | the indexes of the heap in linked form |
| `SlabRequests`, `IndexNeeds` | which blocks the slab grants, which ones are lacking |
| `IndexStore`, `StoreFacts` | the store and its consequences |
| `CacheState`, `CacheNodes`, `PurgeSpec`, `Purge`, `PurgeFacts`, `PlainTerms`, `Dispatch`, `Metrics` | purges, requests, statistics |
| `Bootstrap`, `Presence`, `BootstrapRuns`, `Runtime` | bootstrap of all workers, code of one |
| `Tokens`, `TagHeaders`, `FileNames`, `Json` | strings in and out |

## Where the code does less than one would expect

Each point is proved in the member named; the code is modelled as it is.

- A failed upsert removes the entry that was there (`IndexStore.Store.UpsertFileMeta`).
- A tag in a second spelling is not stored, but tags are looked up byte for byte
  (`Tokens.LaterSpellingLost`).
- A soft exact purge counts the opened file twice when it is indexed under its own key
  (`PurgeFacts.SoftExactPurge`).
- A wildcard purge falls through to the walk when the index matches no file on disk
  (`Purge.Purger.Partial`).
- A wildcard purge by the index is case-sensitive, one by the walk is not
  (`PurgeFacts.CaseMatters`), and the index is used although the zone may not be complete. The
  README of the repository speaks of an index that is ready; the code does not test it. Both
  branches agree exactly under the condition of `PurgeFacts.WildcardBranches`.
- The branch for a key that is only a star is never reached: such a purge is an error
  (`Purge.Purger.Partial`).
- A hard exact purge drops the index entry also when the opened file could not be unlinked, so
  the index no longer covers the disk; the condition is exact
  (`PurgeFacts.ExactPurgeCoverage`).
- The tags of a request are read twice, each time into new memory. If the first reading fails,
  a tag purge, a full or a wildcard purge is answered 200 without a purge, or a tag purge
  becomes an exact one; if the second fails, an exact purge follows the tag purge and both are
  counted (`Dispatch.UnsoundKinds`, `Dispatch.Serve`, `Dispatch.ServeSilently`).
- The log phase commits key and tags of every response that was stashed or is not a hit,
  whether or not it was stored. An error page without tags that is not cached replaces the entry
  of the old file that stays on disk, and a tag purge then misses the file
  (`BootstrapRuns.CommittedStray`, `PurgeFacts.LeftIff`, fault `StrayCommit`). The comment in the
  source expects only an entry without a file. The entry stays present, so only its content is
  wrong (`Presence.CompleteLists`).
- A scan parses a file outside the lock and applies the result later. A request that rewrites
  and commits the file in between is overwritten with what was read before, or loses its entry
  if nothing was found (`BootstrapRuns.AppliedBehind`, faults `ScanStale` and `ScanMissed`). In
  the same way a late commit of an older write replaces a newer one
  (`BootstrapRuns.CommittedLate`, fault `LateCommit`).
- When memory runs out for the list of paths, an exact purge leaves the other files of its key
  and still succeeds, and a wildcard purge turns to the walk, but a tag purge is an error
  (`Purge.Purger.HardFanout`, `Purge.Purger.Partial`, `Purge.Purger.TagPurge`).
- A file that cannot be unlinked loses its node and its accounted size all the same
  (`Purge.Purger.DeleteCacheFile`, `Purge.Purger.DeleteOpenedFile`).
- A hard exact purge that fails in its fan-out is counted as an operation (`Dispatch.Handle`).
- The check that all locations of a zone have the same tag headers can be passed with different
  ones if and only if a header is repeated in its left list (`TagHeaders.CheckExactIff`).
- A scan passes over directories that do not open and drops entries of files that it cannot
  read, and still completes the zone (`Runtime.Worker.ScanRecursive`,
  `BootstrapRuns.EachFaultMatters`).
- The README of the repository says that hard tag purges hand index deletions to another worker
  later; the code deletes at once (`Purge.Purger.TagPurge`).

## Model

| member | source | states |
|---|---|---|
| OrderedTree.SlotCmpLaws | src/ngx_cache_pilot_index_store.c:460-498 | the order of a tree, first by hash and then by string, is a total preorder, and equal slots have the same hash and string |
| OrderedTree.LookupGeneric | src/ngx_cache_pilot_index_store.c:668-699 | in any tree ordered by hash and string, the descent finds a block for a hash and string if and only if the in-order sequence holds one, whatever the shape and however hashes collide |
| OrderedTree.InsertInOrder | src/ngx_cache_pilot_index_store.c:449-504 | the insertion walk puts the new node behind all nodes that are not greater in the in-order sequence, for every shape of an ordered tree |
| OrderedTree.UpperInsertOf | src/ngx_cache_pilot_index_store.c:449-504 | insertion keeps the order and the distinctness of the nodes and adds exactly the new one |
| OrderedTree.RotationUnseen | src/ngx_cache_pilot_index_store.c:449-504 | a rotation keeps the in-order sequence and changes no lookup, now or after any insertion |
| OrderedTree.RemoveAddrOf | src/ngx_cache_pilot_index_store.c:848-848 | taking a node out keeps the order and exactly the other nodes |
| PointerTree.AttachRepresents | src/ngx_cache_pilot_index_store.c:460-504 | hanging a node with parent, left and right links at the place that the walk reaches turns a linked representation of a tree into one of the tree with the node inserted |
| PointerTree.RbForest.InsertGeneric | src/ngx_cache_pilot_index_store.c:449-504 | the pointer loop leaves linked nodes that represent the tree with the new node inserted |
| PointerTree.RbForest.LookupGeneric | src/ngx_cache_pilot_index_store.c:668-699 | the pointer loop finds a node if and only if the represented tree holds one with that hash and string |
| NameIndex.FindName | src/ngx_cache_pilot_index_store.c:787-818 | probing the current hash and then the legacy one finds a name if and only if it is in use, under whichever hash its node was stored |
| NameIndex.ProbesMeetNames | src/ngx_cache_pilot_index_store.c:787-818 | one of the two probes can meet a block exactly when the block has the name |
| NameIndex.ForestInsert | src/ngx_cache_pilot_index_store.c:1065-1066 | entering a name that is not in use keeps every zone's tree a listing of exactly its own blocks, with no two of one name |
| NameIndex.ForestDelete | src/ngx_cache_pilot_index_store.c:848-850 | removing a block keeps every zone's tree a listing of exactly its own blocks |
| NameIndex.ForestUnique | src/ngx_cache_pilot_index_store.c:1014-1021 | no two blocks of one zone have the same name, with old and new hashes mixed |
| HeapSteps.AddZoneLinked | src/ngx_cache_pilot_index_store.c:646-666 | creating a zone keeps all five kinds of queue and three kinds of tree in agreement with the live blocks, with no link to a freed one |
| HeapSteps.AddFileLinked | src/ngx_cache_pilot_index_store.c:1032-1066 | allocating a file and entering it in the zone queue and the path tree keeps all five kinds of queue and three kinds of tree in agreement with the live blocks, with no link to a freed one |
| HeapSteps.AddKeyEntryLinked | src/ngx_cache_pilot_index_store.c:727-741 | creating a key entry in the key tree keeps all five kinds of queue and three kinds of tree in agreement with the live blocks, with no link to a freed one |
| HeapSteps.AddTagEntryLinked | src/ngx_cache_pilot_index_store.c:770-784 | creating a tag entry in the tag tree keeps all five kinds of queue and three kinds of tree in agreement with the live blocks, with no link to a freed one |
| HeapSteps.AddMemberLinked | src/ngx_cache_pilot_index_store.c:949-959 | creating a member on the queues of its tag entry and its file keeps all five kinds of queue and three kinds of tree in agreement with the live blocks, with no link to a freed one |
| HeapSteps.LinkKeyLinked | src/ngx_cache_pilot_index_store.c:921-922 | putting a file on the queue of the entry of its key keeps all five kinds of queue and three kinds of tree in agreement with the live blocks, with no link to a freed one |
| HeapSteps.UnlinkKeyLinked | src/ngx_cache_pilot_index_store.c:828-833 | taking a file off its key entry keeps all five kinds of queue and three kinds of tree in agreement with the live blocks, with no link to a freed one |
| HeapSteps.RemoveMemberLinked | src/ngx_cache_pilot_index_store.c:835-846 | taking a member off both its queues and freeing it keeps all five kinds of queue and three kinds of tree in agreement with the live blocks, with no link to a freed one |
| HeapSteps.DropKeyEntryLinked | src/ngx_cache_pilot_index_store.c:965-976 | removing and freeing an empty key entry keeps all five kinds of queue and three kinds of tree in agreement with the live blocks, with no link to a freed one |
| HeapSteps.DropTagEntryLinked | src/ngx_cache_pilot_index_store.c:978-989 | removing and freeing an empty tag entry keeps all five kinds of queue and three kinds of tree in agreement with the live blocks, with no link to a freed one |
| HeapSteps.DropFileLinked | src/ngx_cache_pilot_index_store.c:848-850 | taking an unlinked file off the zone queue and the path tree and freeing it keeps all five kinds of queue and three kinds of tree in agreement with the live blocks, with no link to a freed one |
| LinkedIndex.Find | src/ngx_cache_pilot_index_store.c:787-818 | the two probes over the links of one zone's tree find a block if and only if the zone has one of that name |
| LinkedIndex.Enter | src/ngx_cache_pilot_index_store.c:449-504 | entering a block over the links of one zone's tree leaves links that represent all zones' trees, that one with the block inserted |
| LinkedIndex.LinkedTrees.EnterFile | src/ngx_cache_pilot_index_store.c:1032-1066 | entering a file over the links keeps all three kinds of linked trees those of the heap with the file added, and the heap consistent |
| LinkedIndex.LinkedTrees.EnterKey | src/ngx_cache_pilot_index_store.c:727-741 | entering a key entry over the links keeps the linked trees those of the heap with the entry added, and the heap consistent |
| LinkedIndex.LinkedTrees.EnterTag | src/ngx_cache_pilot_index_store.c:770-784 | entering a tag entry over the links keeps the linked trees those of the heap with the entry added, and the heap consistent |
| LinkedIndex.LinkedTrees.FindFile | src/ngx_cache_pilot_index_store.c:787-818 | the linked lookup answers as the one over the trees of the heap does |
| IndexStore.Store.AllocLocked | src/ngx_cache_pilot_index_store.c:621-632 | an allocation yields an address that is not in use, exactly when the slab grants this request; else it counts one failure |
| IndexStore.Store.GetZoneLocked | src/ngx_cache_pilot_index_store.c:634-666 | finds the zone or enters a new cold one, for which it asks the slab once; on a refusal nothing changes and no zone has the name |
| IndexStore.Store.LookupFile | src/ngx_cache_pilot_index_store.c:787-818 | returns the file with the path in the zone, or nothing when no file has it |
| IndexStore.Store.GetKeyEntryLocked | src/ngx_cache_pilot_index_store.c:714-742 | finds or creates the entry of a key, and asks the slab only for a new one; only a new entry can be empty, and a refused allocation changes nothing |
| IndexStore.Store.GetTagEntryLocked | src/ngx_cache_pilot_index_store.c:757-785 | finds or creates the entry of a tag, byte for byte, and asks the slab only for a new one; a refused allocation changes nothing |
| IndexStore.Store.FreeEmptyKeyEntryLocked | src/ngx_cache_pilot_index_store.c:965-976 | an empty key entry is gone afterwards, another one stays |
| IndexStore.Store.FreeEmptyTagEntryLocked | src/ngx_cache_pilot_index_store.c:978-989 | an empty tag entry is gone afterwards, another one stays |
| IndexStore.Store.RemoveFileLocked | src/ngx_cache_pilot_index_store.c:820-853 | removes a file however far it was linked; the heap is consistent again, no key entry is empty, and the tag entries without members are those of before |
| IndexStore.Store.LinkExactKeyLocked | src/ngx_cache_pilot_index_store.c:902-925 | success, exactly when the slab grants every block that is lacking (one for a new key, none for an old or an empty one), puts the file on its key's queue; after a failure nothing new is linked and one failure is counted |
| IndexStore.Store.LinkTagsLocked | src/ngx_cache_pilot_index_store.c:927-963 | success, exactly when the slab grants every block that is lacking (a member for each tag and an entry for each new one), carries exactly these tags in order; a failure leaves at most one more empty tag entry and counts once |
| IndexStore.Store.LinkNewFile | src/ngx_cache_pilot_index_store.c:1068-1080 | a new file is linked to its key and all its tags, exactly when the slab grants every block that is lacking, or is taken out again with the heap consistent and the number of empty tag entries within the failures |
| IndexStore.Store.UpsertLocked | src/ngx_cache_pilot_index_store.c:991-1087 | the whole upsert, with an allocation refused at any point: the exact condition of success, consistent heap, point update of the map or the map without the path, one failure counted, zone names and states kept but for a new cold zone and the update time |
| IndexStore.Store.UpsertFileMeta | src/ngx_cache_pilot_index_store.c:991-1087 | succeeds if and only if the slab grants as many requests as blocks are lacking: the zone if it is new, the file, an entry for a key that no other file has, a member for each tag and an entry for each tag that no other file carries and none is left of; a success is a point update of the map, a failure leaves the map without the path, even when it had an entry; the update time changes only on success |
| IndexNeeds.FileNeedIs | src/ngx_cache_pilot_index_store.c:991-1087 | what the tree and queue operations will ask the slab for, after the old entry is gone, can be read off the map before the call |
| SlabRequests.SpentRefusals | src/ngx_cache_pilot_index_store.c:621-632 | the failures counted over an operation are exactly the refused requests |
| IndexStore.Store.DeleteFile | src/ngx_cache_pilot_index_store.c:1089-1114 | removes one point of the map and touches the zone exactly when the point was there |
| IndexStore.Store.Touch | src/ngx_cache_pilot_index_store.c:865-869 | only the update time of one zone changes |
| IndexStore.Store.ProcessFile | src/ngx_cache_pilot_index_store.c:266-335 | a file that was parsed is upserted, with the upsert's exact condition; one that was not loses its entry, and that counts as success; without memory for the parse the entry stays and no failure of the store is counted |
| IndexStore.Store.GetZoneState | src/ngx_cache_pilot_index_store.c:1293-1320 | readers see the normalised state; an unknown zone is cold |
| IndexStore.Store.SetZoneState | src/ngx_cache_pilot_index_store.c:1352-1380 | stores the normalised state for one zone and leaves all others, or counts a failed allocation |
| IndexStore.Store.PushPathUnique | src/ngx_cache_pilot_index_store.c:1116-1145 | appends a path that is not in the list yet, and only that; fails exactly when a new path finds no memory |
| IndexStore.Store.CollectPathsByTags | src/ngx_cache_pilot_index_store.c:1147-1197 | succeeds if and only if the pool grants the list and each hit on it, and returns then, once each, exactly the paths that carry one of the tags byte for byte in the map |
| IndexStore.Store.CollectPathsByExactKey | src/ngx_cache_pilot_index_store.c:1199-1244 | succeeds if and only if the pool grants the list and each hit on it, and returns then, once each, exactly the paths whose key in the map is the key text, none for an empty one |
| IndexStore.Store.CollectPathsByKeyPrefix | src/ngx_cache_pilot_index_store.c:1246-1291 | succeeds if and only if the pool grants the list and each hit on it, and returns then, once each, exactly the paths whose key in the map starts with the prefix, case included |
| StoreFacts.HeapDeterminesMap | src/ngx_cache_pilot_index_store_internal.h:33-82 | a heap stands for one map only |
| StoreFacts.QueueIffPathTree | src/ngx_cache_pilot_index_store_internal.h:33-61 | a file is on a zone's queue if and only if it is in that zone's path tree, and in one zone only |
| StoreFacts.KeyQueueIffKey | src/ngx_cache_pilot_index_store_internal.h:49-68 | a file is on the queue of a key entry if and only if that is the entry of its own key in its own zone; with an empty key it is on none |
| StoreFacts.MemberLinkedTwice | src/ngx_cache_pilot_index_store_internal.h:70-82 | a member is on the queue of its own tag entry and of its own file and on no other |
| StoreFacts.OneMemberPerTag | src/ngx_cache_pilot_index_store_internal.h:49-82 | each of a file's different tags has exactly one member on it |
| StoreFacts.NothingLeaked | src/ngx_cache_pilot_index_store_internal.h:23-82 | a block is live if and only if it can be reached from the zone queue |
| StoreFacts.EmptyMapLeavesLittle | src/ngx_cache_pilot_index_store.c:820-853 | when every file is deleted only zones and tag entries without members are left, and no more of these than allocations failed |
| StoreFacts.Replay | src/ngx_cache_pilot_index_store.c:991-1114 | any run of upserts, deletes and state changes with any refusals is the same run on the plain map, each failure is counted once, and when the slab refuses nothing every update succeeds |
| StoreFacts.LastUpdateWins | src/ngx_cache_pilot_index_store.c:991-1114 | the last update of a zone and path decides what the map has there, and the other places do not matter |
| FileNames.BaseStart | src/ngx_cache_pilot_module.c:1866-1870 | stepping back finds the start of the last path component |
| FileNames.FilenameKey | src/ngx_cache_pilot_module.c:1862-1890 | decodes the base name when it is 32 hexadecimal digits and rejects it otherwise |
| FileNames.NameRoundTrip | src/ngx_cache_pilot_module.c:1862-1890 | the lower-case name of a key decodes to that key, alone or in any directory |
| FileNames.DecodesIffHexName | src/ngx_cache_pilot_module.c:1862-1890 | a path decodes to a key if and only if its base name is the key's name up to letter case |
| PlainTerms.DecodedDigits | src/ngx_cache_pilot_module.c:1862-1890 | a file in a directory has the key that its 32 digits spell, two an octet, the higher one first |
| Tokens.TokenLaws | src/ngx_cache_pilot_index_store.c:1430-1469 | the tokens of a value are its maximal runs without separators, and a separator splits the tokens of its two sides |
| Tokens.ExtractTokens | src/ngx_cache_pilot_index_store.c:1430-1469 | succeeds if and only if the kept tokens find memory, and then adds the tokens of a value one after the other, skipping repeated ones and stopping at the cap |
| Tokens.PushUnique | src/ngx_cache_pilot_index_store.c:1471-1503 | appends a token unless it is empty or one like it, up to letter case, is there; fails exactly when a new token finds no memory |
| Tokens.NotedAreFirstSpellings | src/ngx_cache_pilot_index_store.c:1430-1503 | extraction keeps the first thousand tokens that differ up to letter case, each in its first spelling |
| Tokens.FirstSpellingsMeaning | src/ngx_cache_pilot_index_store.c:1471-1503 | a token is kept if and only if no earlier one is the same up to letter case; none is lost but for its spelling |
| Tokens.LinesCombine | src/ngx_cache_pilot_index_store.c:1430-1503 | extracting two values in turn is extracting them joined by a comma (section 5.3 of RFC 9110), with the cap counting across |
| Tokens.LaterSpellingLost | src/ngx_cache_pilot_index_store.c:1483-1486 | of two spellings of one tag only the first is stored, so a byte-exact query for the second misses the file |
| TagHeaders.RequestHeaders | src/ngx_cache_pilot_index.c:43-101 | succeeds if and only if the pool grants the list and each tag on it, and returns then the tags of all configured headers in order, as one list |
| TagHeaders.SplitLinesAlike | src/ngx_cache_pilot_index.c:43-101 | a tag header split over two lines gives the same tags as one line, among any other headers |
| TagHeaders.RequestMode | src/ngx_cache_pilot_module.c:3285-3334 | reads the purge mode |
| TagHeaders.FirstModeDecides | src/ngx_cache_pilot_module.c:3285-3334 | the first mode header decides, soft only for 1, soft or true; without one the configured mode holds |
| PlainTerms.SoftWords | src/ngx_cache_pilot_module.c:3285-3334 | 1, soft and true ask for a soft purge, in any letter case, and other words do not |
| TagHeaders.HeadersEqual | src/ngx_cache_pilot_index.c:145-177 | true if and only if the lists have one length and each left header is also a right one |
| TagHeaders.EqualHeaders | src/ngx_cache_pilot_index.c:145-177 | when the left list repeats no header, the check holds if and only if both lists name the same headers, and then all requests read the same tags with both |
| TagHeaders.RepeatedHeaderSlips | src/ngx_cache_pilot_index.c:145-177 | for any left list that repeats a header there is a list of other headers that passes the check one way round and fails it the other |
| TagHeaders.CheckExactIff | src/ngx_cache_pilot_index.c:145-177 | the check tells the same headers from different ones, for every other list of that length, if and only if the left list repeats no header |
| Json.EscapedLen | src/ngx_cache_pilot_module.c:2456-2475 | counts exactly the octets that escaping writes |
| Json.Escape | src/ngx_cache_pilot_module.c:2477-2506 | writes exactly that many octets and leaves the rest of the buffer alone |
| Json.EscapeRoundTrip | src/ngx_cache_pilot_module.c:2477-2506 | reading the escaped string as JSON (section 7 of RFC 8259) gives the original octets |
| CacheNodes.Lookup | src/ngx_cache_pilot_module.c:1892-1928 | in a sorted node tree the two-level descent finds the node of a key if and only if there is one |
| CacheNodes.KeyCmpZero | src/ngx_cache_pilot_module.c:1892-1928 | comparing the leading word and then the rest tells two keys apart if and only if they differ |
| CacheState.MarkAllSize | src/ngx_cache_pilot_module.c:2596-2611 | marking nodes deleted takes exactly the sizes of the live ones off the total |
| CacheState.StaleAllSize | src/ngx_cache_pilot_module.c:2020-2022 | expiring nodes does not change the total size |
| Metrics.WalkRbtree | src/ngx_cache_pilot_metrics.c:33-67 | adds the numbers of fresh, expired and updating nodes to the three counters |
| Metrics.CountsPartition | src/ngx_cache_pilot_metrics.c:33-67 | the three counts partition the existing nodes |
| Metrics.HardPurgeCounts | src/ngx_cache_pilot_metrics.c:50-66 | a hard purge takes exactly the purged nodes out of each count |
| Metrics.SoftPurgeCounts | src/ngx_cache_pilot_metrics.c:56-66 | a soft purge turns the purged fresh nodes into expired ones and keeps the updating ones |
| Purge.Purger.RecordPurge | src/ngx_cache_pilot_module.c:2320-2388 | the shared and the request's counter of one bucket grow by the same count, the others not at all |
| Purge.Purger.RecordPurgeRequest | src/ngx_cache_pilot_module.c:2390-2432 | one operation counter grows by one, and those of all other purge types and modes stay |
| Purge.Purger.MarkNodeDeleted | src/ngx_cache_pilot_module.c:2596-2611 | the node is dead and its size is off the accounted total, which stays the sum over the nodes and does not go below zero |
| Purge.Purger.DeleteCacheFile | src/ngx_cache_pilot_module.c:2613-2646 | OK exactly for a file on disk, DECLINED without one, ERROR exactly on a file error; without an error file and node are gone and the size follows; a file that cannot be unlinked stays, but its node and size go |
| Purge.Purger.SoftHeader | src/ngx_cache_pilot_module.c:1930-1997 | expires the header of a file on disk and nothing else; errors and missing files change nothing |
| Purge.Purger.SoftPath | src/ngx_cache_pilot_module.c:1999-2028 | expires header and node of a file on disk; size unchanged; anything but OK changes nothing |
| Purge.Purger.PurgeIndexedPath | src/ngx_cache_pilot_module.c:2700-2712 | hard: file, node and index entry go together, the entry also when there is no file; on an error the entry stays |
| Purge.Purger.HardLoop | src/ngx_cache_pilot_index.c:268-290 | a file error stops the list; the files before it are exactly unlinked, counted and dropped from the index, the failing one keeps its entry, and no file on disk loses its entry |
| Purge.Purger.SoftLoop | src/ngx_cache_pilot_index.c:268-290 | the files on disk are expired and counted; entries go only when asked, and only those of missing files |
| Purge.Purger.TagPurge | src/ngx_cache_pilot_index.c:179-312 | declines, changing nothing, exactly when the index cannot be used or the zone is not complete; an error exactly when the list of hits finds no memory or one of them has a file error; else it has purged exactly the files that carry a tag, with the exact count in its own bucket, and is OK if and only if one was on disk |
| Purge.Purger.DeleteOpenedFile | src/ngx_cache_pilot_module.c:2648-2668 | declines exactly when the node is not present; else node and file go, and a failed unlink is not reported |
| Purge.Purger.ReleaseUpdating | src/ngx_cache_pilot_module.c:3264-3283 | files, sizes and all of each node but its update mark stay; a mark is off afterwards exactly when it was off or the request owns the lock that the node still has |
| Purge.Purger.HardFanout | src/ngx_cache_pilot_module.c:3064-3106 | with a usable index and memory for key and list it purges all other files with the key and drops their entries and the opened one's, or is an error exactly when one of them has a file error; else it purges nothing and is no error; DECLINED is no outcome |
| Purge.Purger.ExactPurge | src/ngx_cache_pilot_module.c:3020-3123 | not found exactly when there is nothing open or the node is gone; an error exactly when opening failed or the fan-out meets a file error; else files, nodes, index, counts and route are exactly as specified; counted once even if the fan-out fails |
| Purge.Purger.SoftFanout | src/ngx_cache_pilot_module.c:3214-3241 | with a usable index and memory it expires all files with the key or meets a header error among them; else it does nothing; the index is unchanged |
| Purge.Purger.ExactPurgeSoft | src/ngx_cache_pilot_module.c:3125-3262 | not found exactly when there is nothing open or the node or file is gone; the exact condition of an error; else files, nodes, counts and route are exactly as specified; counted only on success; the index is unchanged |
| Purge.Purger.WalkTree | src/ngx_cache_pilot_module.c:1629-1713 | purges exactly the matching files of the walk that have no file error and counts them; a handler error does not end the walk |
| Purge.Purger.PurgeByPrefix | src/ngx_cache_pilot_module.c:3458-3492 | with a usable index and memory for the list it purges all indexed paths with the prefix, a hard purge dropping the entries of missing files too, or is an error exactly on a file error among them; else it changes nothing |
| Purge.Purger.Partial | src/ngx_cache_pilot_module.c:3378-3612 | by the index if and only if it can be asked and has a match on disk, else by the walk; the exact condition of an error, among them a key that is only a star, which changes nothing; after a success files, nodes, index, counts and route are exactly as specified; an error touches only files that match |
| Purge.Purger.PurgeAll | src/ngx_cache_pilot_module.c:3336-3376 | in the configured mode: a hard purge leaves on disk exactly the files that the walk did not visit or that cannot be looked at or unlinked, a soft one marks exactly the visited ones whose header can be written; the exact counts; the index stays as it was |
| PurgeFacts.SizeFollows | src/ngx_cache_pilot_module.c:2596-2611 | hard purges lower the accounted size by exactly the live sizes of the purged nodes, never below zero; soft purges keep it |
| PurgeFacts.HardTagPurge | src/ngx_cache_pilot_index.c:268-290 | afterwards no entry carries a queried tag, none of the files that did is on disk, and all else is unchanged |
| PurgeFacts.LeftIff | src/ngx_cache_pilot_index.c:268-290 | a hard tag purge leaves a file on disk if and only if its entry is missing or carries none of the tags, whatever the file says |
| PurgeFacts.HardTagPurgeRepeats | src/ngx_cache_pilot_index.c:268-290 | the same hard purge again finds and changes nothing |
| PurgeFacts.SoftTagPurgeRepeats | src/ngx_cache_pilot_index.c:268-290 | the same soft purge again meets exactly the entries of the expired files and changes nothing |
| PurgeFacts.NoTaggedFileSurvives | src/ngx_cache_pilot_index.c:248-290 | if the index covers and agrees with the disk, no cache file with a queried tag survives, and the index still covers the disk |
| PurgeFacts.CompleteZoneIsPurged | src/ngx_cache_pilot_index.c:248-290 | after any bootstrap run without a fault, a hard tag purge of the complete zone leaves no tagged file but those whose commit is still due; that entries and files agree is proved from the run |
| PurgeFacts.CompleteZoneIsCovered | src/ngx_cache_pilot_index.c:248-290 | after any run whose faults only spoiled entries, once all commits are made, the index of a complete zone covers the disk |
| PurgeFacts.HardExactPurge | src/ngx_cache_pilot_module.c:3056-3119 | with a usable index and memory for the key and the list it empties the key's group on disk and in the index; the count is the number of different files, the opened one counted once |
| PurgeFacts.NoVariantSurvives | src/ngx_cache_pilot_module.c:3056-3119 | if besides the index covers and agrees with the disk, no cache file with the key survives |
| PurgeFacts.CompleteZoneKeyIsPurged | src/ngx_cache_pilot_module.c:3056-3119 | after any bootstrap run without a fault, a hard exact purge of the complete zone leaves no file with the key but those whose commit is still due |
| PurgeFacts.SoftExactPurge | src/ngx_cache_pilot_module.c:3187-3256 | with a usable index and memory it expires the opened file and the key's group; the count is the number of different files, plus one exactly when the opened file is indexed under the key |
| PurgeFacts.WildcardBranches | src/ngx_cache_pilot_module.c:3458-3609 | the index branch purges a subset of what the walk would, and the same files if and only if every file that matches in any letter case is indexed and matches in its own |
| PurgeFacts.WildcardBranchesAgree | src/ngx_cache_pilot_module.c:3458-3609 | under that condition both branches leave the same files, nodes, size and count |
| PurgeFacts.CaseMatters | src/ngx_cache_pilot_module.c:1852-1853 | a file that the walk finds in another letter case is not found by the index |
| PlainTerms.WildcardByWalk | src/ngx_cache_pilot_module.c:1823-1858 | a wildcard purge by the walk takes a visited file if and only if its own key can be read and is as long as the prefix at least, each byte of the prefix being the same or the other case of a letter, and no fault stands against it |
| PlainTerms.WildcardByIndex | src/ngx_cache_pilot_module.c:3458-3492 | one by the index takes exactly the files whose entry has a key with the prefix, letter case included, and drops exactly the entries that it should |
| PlainTerms.TagPurgedMeans | src/ngx_cache_pilot_index.c:268-290 | a tag purge, file by file: which ones go, which are marked as expired, and which entries are left |
| PlainTerms.ExactPurgedMeans | src/ngx_cache_pilot_module.c:3056-3119 | a hard exact purge, file by file and entry by entry, also when the opened file cannot be unlinked |
| PlainTerms.ExactExpiredMeans | src/ngx_cache_pilot_module.c:3187-3256 | a soft exact purge, file by file |
| PlainTerms.UnlinkedMeans | src/ngx_cache_pilot_module.c:2596-2611 | the node of a purged file loses its size and its marks and no other node changes |
| PlainTerms.ExpiredMeans | src/ngx_cache_pilot_module.c:1999-2028 | a soft purge marks the header of a file, takes the time off its node and changes nothing else |
| PurgeFacts.CoverageKept | src/ngx_cache_pilot_module.c:2680-2712 | a purge that drops only entries of missing files and adds no file keeps the index covering the disk |
| PurgeFacts.ExactPurgeCoverage | src/ngx_cache_pilot_module.c:2648-2698 | a hard exact purge loses the coverage if and only if the opened file is on disk, could not be unlinked, and the index was usable with memory for the key |
| Dispatch.DispatchSpecial | src/ngx_cache_pilot_module.c:371-424 | handled exactly when the tags could be read and there are tags, a full purge or a star; then declined exactly when tags are named and the index is not ready, an error exactly when the purge asked for fails, and else that purge is done and counted once in the request's own bucket |
| Dispatch.DispatchTags | src/ngx_cache_pilot_module.c:388-408 | the tag branch: success exactly when the index is ready and neither memory nor a file fails, also when nothing is found; counted once as a tag purge |
| Dispatch.Handle | src/ngx_cache_pilot_module.c:2952-3018 | no purge when tags, a star or a full purge are named; else one exact purge, the exact condition of 500, and a count of one when it is answered 200; an error is counted only for a hard purge |
| Dispatch.Serve | src/ngx_cache_pilot_module.c:1264-1332 | whether a request is sound is a matter of its tags and of what the pool grants to the two readings; a sound one gets the answer and the effect that it asks for, and of the requests answered 200 exactly the sound ones bump one counter, their own; for the others what happens instead |
| Dispatch.ServedTags | src/ngx_cache_pilot_module.c:388-408 | what a served request with tags has done, file by file and entry by entry, hard and soft |
| Dispatch.ServedAll | src/ngx_cache_pilot_module.c:411-414 | what a served full purge has done to each file, and its count, in the configured mode |
| Dispatch.ServedByWalk | src/ngx_cache_pilot_module.c:416-421 | what a served hard wildcard purge without an index has done: the visited files whose key has the prefix up to letter case, compared byte by byte |
| Dispatch.ServedByIndex | src/ngx_cache_pilot_module.c:416-421 | what one with an index that knows a file has done: exactly the indexed files with the prefix, letter case included |
| Dispatch.ServedExact | src/ngx_cache_pilot_module.c:2952-2980 | what a served hard exact purge has done: no file and no entry with the key is left, and the opened file stays only if it could not be unlinked |
| Dispatch.ServedExactSoft | src/ngx_cache_pilot_module.c:2952-2980 | a soft one marks the files with the key and the opened one and keeps the index |
| Dispatch.ServeSilently | src/ngx_cache_pilot_module.c:1264-1332 | a concrete request for a full purge that is answered 200 with nothing purged and nothing counted |
| Dispatch.ServeAll | src/ngx_cache_pilot_module.c:1264-1332 | over any run of requests each shared counter of purged entries is the sum of the requests' counters, and the accounted size is the sum over the nodes |
| Bootstrap.TrackedKept | src/ngx_cache_pilot_index_runtime.c:162-251 | each step of a run without a fault keeps every file on disk indexed as it is, awaiting a commit, or still ahead of each scan in progress, and what a scan has read still true |
| Bootstrap.CompleteCovers | src/ngx_cache_pilot_index_runtime.c:369-388 | in every run of any number of workers without a fault, responses that store nothing but are committed included, a complete zone has for every well-named file on disk an entry with its key and tags, or a pending commit |
| Presence.CompleteLists | src/ngx_cache_pilot_index_runtime.c:162-251 | also when scans apply old contents, commits come late, or responses that store nothing are committed, a complete zone has some entry or a pending commit for every well-named file on disk |
| Presence.BlankDo | src/ngx_cache_pilot_index_runtime.c:162-251 | a step with all contents forgotten is a step of the same kind, and the faults that only spoil an entry vanish |
| Bootstrap.FlagsNeverAhead | src/ngx_cache_pilot_index_runtime.c:709-727 | in every run, with or without faults, no worker's flag is ahead of the shared one |
| Bootstrap.ColdWaits | src/ngx_cache_pilot_index_runtime.c:813-820 | in every run, until the cache loader is done no scan begins and the zone is not complete |
| Bootstrap.CompleteStays | src/ngx_cache_pilot_index_store.c:1352-1380 | once complete, a zone stays complete in every continuation |
| BootstrapRuns.SomeRunCompletes | src/ngx_cache_pilot_index_runtime.c:485-553 | from any directory tree some run without a fault completes the zone with exactly the files on disk and what they say |
| BootstrapRuns.EachFaultMatters | src/ngx_cache_pilot_index_runtime.c:485-553 | each of the eleven faults alone has a run that harms a complete zone: eight leave a file on disk without an entry, the three others with a wrong one, and no commit due |
| BootstrapRuns.CommittedStray | src/ngx_cache_pilot_index_runtime.c:158-160 | a response that is not stored replaces the entry of the file that stays on disk |
| BootstrapRuns.CommittedLate | src/ngx_cache_pilot_index_runtime.c:242-245 | of two writes of one file, the commit that comes last decides the entry, even if it is that of the older write |
| BootstrapRuns.AppliedBehind | src/ngx_cache_pilot_index_store.c:266-335 | a scan that applies what it found before a write undoes the commit of that write |
| Runtime.NormalizedIsNormal | src/ngx_cache_pilot_index_store.c:1382-1428 | normalising yields a normal state if and only if there is some time to take, and keeps completeness |
| Runtime.NormalizedTwice | src/ngx_cache_pilot_index_store.c:1382-1428 | normalising again changes nothing, and after a touch by a clock that stepped back readers still see a normal state |
| Runtime.Worker.ScanRecursive | src/ngx_cache_pilot_index_runtime.c:485-553 | declined exactly when the directory does not open, an error exactly when memory is refused by the store or outside; after OK the map is the old one updated with every listed file in order; no zone state becomes complete or incomplete |
| Runtime.Worker.ScanEntry | src/ngx_cache_pilot_index_runtime.c:485-553 | an error exactly when memory is refused; a directory that does not open is passed over |
| Runtime.ScanIndexes | src/ngx_cache_pilot_index_runtime.c:485-553 | a scan that shows each path once indexes exactly what was parsed, drops what was not, and leaves the other entries |
| Runtime.Worker.BootstrapZone | src/ngx_cache_pilot_index_runtime.c:369-407 | OK exactly when the tree opens and no memory is refused, and then the whole tree is in the map, and this zone and no other has become complete; with a slab that refuses nothing an error lies in the tree |
| Runtime.Worker.TryBootstrapZones | src/ngx_cache_pilot_index_runtime.c:788-864 | OK means that every zone with a cache path is complete and believed so; AGAIN only with several processes and a zone with a path whose loader is cold, and then every warm zone is complete; no cold zone becomes complete; an error exactly when a tree to scan is blocked or the store refused memory |
| Runtime.Worker.TryZone | src/ngx_cache_pilot_index_runtime.c:831-861 | a complete zone is not scanned again; else OK means scanned and complete, and an error has the exact cause |
| Runtime.Worker.CacheSync | src/ngx_cache_pilot_index_runtime.c:729-786 | the worker's copy of every registered zone is the normalised shared state, or cold without a store |
| Runtime.Worker.CompleteSync | src/ngx_cache_pilot_index_runtime.c:328-367 | for a registered zone the answer is the shared flag, however old the worker's copy is |
| Runtime.Worker.LogHandler | src/ngx_cache_pilot_index_runtime.c:162-251 | commits the tags and zone of the response as one upsert, which succeeds exactly when the slab grants what it lacks: those stashed, also on a hit, or else those of the headers unless it is a hit; skips exactly when there is no store or no commit is due |

## Left out

- NUL bytes: strings are sequences of bytes from 1 to 255, because the comparisons of the module stop at a NUL.
- Queue links: a queue is a sequence of block addresses, not prev and next pointers. The trees inside the store are values; `LinkedIndex` refines lookup and entering to links, while rebalancing and removal over links are code of nginx.
- The red-black colours and rotations, the slab allocator and the CRC tables of nginx: any rebalanced tree with the same in-order sequence, any free address, any hash functions, and any sequence of granted and refused requests, fixed beforehand.
- Purge.Purger.WalkTree: when a matching file cannot be unlinked, the contract states the files and the count, but the nodes only through the accounting.
- Purge.Purger.ExactPurge: after an error of the fan-out the contract states the cause, the counters and the untouched coverage, but not how far the list got; `Purge.Purger.HardLoop` states that. `Purge.Purger.TagPurge` and `Purge.Purger.Partial` do the same and name the files that may differ.
- Auxiliary heap fields: the kind of a block and the zone that holds it are recorded, although the structs of the module have no such field.
- The mutex: each locked operation is one step. Only in `Bootstrap` are a purge, a scan step and a request's write and commit two steps each; a file that is written in between counts as a fault.
- Runs of `Dispatch` and of `Runtime` serve one request or one attempt at a time; other processes meet only in `Bootstrap`.
- Reading cache files: a parse gives key, tags and stat, or nothing; the byte layout and the 64 KB limit are not modelled. A wildcard walk compares with the stored key only, which is exact for prefixes without a line feed.
- The tree walk of nginx: the visited paths and whether the walk finished are inputs; it stops only at an abort, which no handler returns. Thread pools, timers and asynchronous file access are not modelled.
- Opening the cache entry: any outcome in which file and node belong together.
- Clock and file errors are inputs; file errors are fixed for the length of one purge.
- The key array of a request has one element, as the module fills it.
- The request context: that it cannot be allocated, and counters then stay, is not modelled. The counters are unbounded.
- The reasons for a platform without the index and for a failed flush, which cannot occur on Linux.
- `Bootstrap` has one zone and only well-named files. For the wildcard purges, and for `PurgeFacts.NoTaggedFileSurvives` and `PurgeFacts.NoVariantSurvives`, that the index covers the disk and that entry and file say the same are hypotheses; `PurgeFacts.CompleteZoneIsPurged` and `PurgeFacts.CompleteZoneKeyIsPurged` take both from the run.
- Pool memory: a number of granted requests is an input of each list, one for the list and one for each element. The order in which an nginx array grows, and copies it makes, are not modelled.
- Restarts of the whole server, which empty the shared memory, and the retry timer itself.
- Directive parsing, location merging, protocol glue, response and statistics printing, logging.
