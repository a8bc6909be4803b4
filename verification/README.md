# XFireDB in Dafny

XFireDB is an in-memory key-value store with strings, lists, hashmaps and sets, a background
writer that keeps a row table on disk up to date, and a cluster layer that spreads the keys over
nodes by slot. This project models its hard parts and proves what they promise.

| files | part |
|---|---|
| `DictTables`, `DictRuns`, `DictLoad`, `DictStall`, `Dict`, `DictIterator`, `DictCursor`, `PowerOfTwo` | the incrementally rehashing dictionary, its background worker and its iterators |
| `Skiplist`, `SkiplistOps`, `Containers` | the skiplist on linked nodes, its iterator and drain, hashmaps and sets on top of it |
| `Rows`, `Persistence`, `WriteBehind`, `Engine`, `BioQueue` | write-behind persistence: log operations, the linked queue, the worker, rows and reload |
| `Store`, `StoreLaws`, `IndexTexts`, `Tokenizer`, `Queries`, `Wire` | the storage commands, and commands as text between nodes |
| `Sharding`, `Routing`, `Hearing`, `Arrival`, `Migration`, `Transfer`, `SelfMigration`, `Forgetting`, `ClusterRuns`, `SlotText`, `Crc16` | slots, forwarding, what arrives of a value sent as queries, migration, leaving nodes, whole cluster runs, the slot digest |

How the source is read:

- **Dictionary.** The hash is an arbitrary function. A state holds both bucket tables, the cursor
  `rehashidx`, the flag and the counters. The worker may run rehash slices of any size between any two
  critical sections, and between a lookup or add and the unlocked write through the entry it returned;
  entries therefore carry the identity of a value cell. `Dict` is the same in place on arrays; its
  methods take the worker's slices as arguments.
- **Skiplist.** Nodes are objects with `forward` arrays; each level is described by a ghost sequence, a
  ring. The height of a new node is an argument. Hashes lie below the header's, and a key used does not
  collide with another key of the list (`Rings.Apart`).
- **Persistence.** A row sequence stands for the table; every query is its intended change of rows, and a
  `LIMIT 1` may pick any matching row. `WriteBehind.Next` interleaves producers, the worker, `bio_sync`
  and `bio_exit` freely. A list is *loose* once a pop or set has named an item that occurs twice, until it
  has no rows.
- **Cluster.** A cluster is a map from node ids to node states, the slot of a key an arbitrary function of
  it. Queries between nodes travel as text and are cut into tokens again by the receiver, which runs
  what it reads. The order in which a set, a hashmap or the keys of a migration are gone through is an
  arbitrary function of them. Migration is one step to clients.

Where the code does not do what one would expect, the model follows the code and the exact condition is
proved:

- `StallIsReached`, `StalledForever`, `EmptiedTableStalls`, `StalledGrows`: a rehash whose old table was
  emptied by deletes never ends, and the load then has no bound.
- `Containers.Hashmap.Add`, `Containers.KeySet.Clear`: when the `num` counter stays right.
- `StopAloneIff`, `StopAloneMayLose`: when `bio_exit` without `bio_sync` leaves an operation in the queue.
- `PopIsSafeIff`, `UpdateIsSafeIff`, `OrderMayBeLost`: when equal list items can come back from disk in
  another order.
- `PopLikeRefIff`: `LPOP` and `LREF` reply differently on a range that starts before the list.
- `ParsesBackIff`, `LineIff`, `WordIff`, `SpokenIff`: the words and arguments that do not survive being
  printed and parsed, among them words with spaces, or with blanks at either end, and arguments with a bare
  quote or a leftover backslash.
- `ArrivesIff`, `MigrateIff`, `Forget`, `SetForwardIff`: when a value sent to another node, a migration, a
  leaving node or a forwarded SET keeps what the cluster holds; the source sends all texts unescaped.
- `ToSelfIff`, `MigrateToSelf`, `OwnRounds`, `NowhereLosesSlots`: migrating to oneself or to an unknown node.
- `LoadedAfterAddIff`: adding no slots leaves an empty slot name in the text of the slots.

## Model

| member | source | states |
|---|---|---|
| DictTables.EntryAhead | libxfiredbengine/storage/dict.c:403-413 | while rehashing with a nonempty old table a nonempty bucket lies at or after the cursor, so the scan over empty buckets stays in the array |
| DictInvariant.PushKeepsTable | libxfiredbengine/storage/dict.c:694-720 | linking an entry keeps keys unique, every entry in its bucket and the length exact |
| DictInvariant.MoveChainKeepsTable | libxfiredbengine/storage/dict.c:415-428 | moving a chain into the new table puts every entry into the bucket of its hash there |
| DictInvariant.MoveBucketKeeps | libxfiredbengine/storage/dict.c:415-431 | moving one bucket keeps the two tables together a duplicate-free index of the same map |
| DictInvariant.RehashKeeps | libxfiredbengine/storage/dict.c:390-447 | one call of dict_rehash, of any size, keeps the invariant for the same map |
| DictInvariant.ExpandIfKeeps | libxfiredbengine/storage/dict.c:486-513 | growing keeps the invariant for the same map |
| DictInvariant.AddSectionAdds | libxfiredbengine/storage/dict.c:597-720 | an add puts a missing key into the map and refuses a present one, mid-rehash or not |
| DictInvariant.DeleteSectionDeletes | libxfiredbengine/storage/dict.c:802-857 | a delete takes exactly its key out of whichever table holds it |
| DictInvariant.LookupSectionFinds | libxfiredbengine/storage/dict.c:889-923 | a lookup finds the entry the map has, in either table |
| DictRuns.StepRefines | libxfiredbengine/storage/dict.c:543-562 | a worker slice changes nothing and a client section does to the map what the plain-map operation does, with the same answer |
| DictRuns.Run | libxfiredbengine/storage/dict.c:390-965 | after every interleaving of worker slices and client sections the tables are a duplicate-free index with exact counters |
| DictRuns.RunRefines | libxfiredbengine/storage/dict.c:390-965 | over every such run the dictionary equals a plain map that ran the client operations alone |
| DictRuns.SizeIsExact | libxfiredbengine/storage/dict.c:160-170 | the two length counters add up to the number of keys |
| DictLoad.RehashAdvances | libxfiredbengine/storage/dict.c:402-446 | a call of dict_rehash on a nonempty old table moves the cursor forward or finishes, and reports which |
| DictLoad.RehashFinishes | libxfiredbengine/storage/dict.c:402-446 | as many calls as there are buckets ahead of the cursor finish the rehash |
| DictLoad.RehashMoves | libxfiredbengine/storage/dict.c:401-446 | a call dict_rehash(d, num) moves exactly num nonempty buckets, from the cursor on and no others, unless it has passed 10 * num empty ones or has moved all there are and handed the new table over |
| DictLoad.ClientStepMoves | libxfiredbengine/storage/dict.c:567-571 | so a client's step moves one bucket, and none while a safe iterator is open |
| DictStall.CloseUndoesOpen | libxfiredbengine/storage/dict.c:1019-1197 | closing a safe iterator undoes its opening, in every state and however many others are open |
| DictLoad.MoveChainOrder | libxfiredbengine/storage/dict.c:415-428 | the entries of a moved chain come to the heads of their buckets, the last one first, before those already there |
| DictLoad.EmptiedTableStalls | libxfiredbengine/storage/dict.c:403-433 | a call of dict_rehash changes the state if and only if the old table has entries |
| DictStall.StallIsReached | libxfiredbengine/storage/dict.c:567-571 | under an open safe iterator, which holds back the rehash step that every add and delete begins with, five adds and four deletes of any five keys, for every hash, reach a dictionary that is rehashing with an empty old table; closing the iterator does not help |
| DictStall.StalledForever | libxfiredbengine/storage/dict.c:390-965 | once there, every run without dict_clear leaves it there |
| DictStall.StalledGrows | libxfiredbengine/storage/dict.c:694-720 | from there any number of further adds all go into the same buckets of the new table, so the condition on deletes in `MigrationKeepsUp` is necessary |
| DictStall.StalledHasNoBound | libxfiredbengine/storage/dict.c:694-720 | for every n there are adds after which a stalled dictionary holds more than n entries in as many buckets as before |
| DictLoad.TableSizesArePowers | libxfiredbengine/storage/dict.c:459-513 | in every reachable state both tables have a power of two of buckets, or none |
| DictLoad.GrowsIff | libxfiredbengine/storage/dict.c:581-611 | the dictionary grows if and only if it has as many entries as buckets and growing is allowed or the entries are fewer than ratio times the buckets: by a rehash into the least power of two of buckets that is at least twice the entries; without buckets it gets four |
| DictLoad.AddedFirst | libxfiredbengine/storage/dict.c:694-720 | a new entry goes to the head of its bucket, in the new table while there is one, and nothing else moves |
| DictLoad.SlotIsModulo | libxfiredbengine/storage/dict.c:624-651 | the masked hash is the hash modulo the table size |
| DictLoad.StepKeepsLoad | libxfiredbengine/storage/dict.c:581-612 | every step of a disciplined run keeps the load bound |
| DictLoad.MigrationKeepsUp | libxfiredbengine/storage/dict.c:390-720 | during a rehash the entries never exceed old size plus cursor plus one, over any number of growths, if deletes do not empty the old table and no safe iterator is open |
| PowerOfTwo.MaskIsModulo | libxfiredbengine/storage/dict.c:634-634 | and with a power of two less one is the remainder |
| PowerOfTwo.DictRealSizeIsRealSize | libxfiredbengine/storage/dict.c:459-479 | for 1 <= size < LONG_MAX the or-and-shift cascade gives the power of two of the bit length |
| PowerOfTwo.DictRealSizeIs | libxfiredbengine/storage/dict.c:459-479 | for every size: 0 stays 0, sizes below 2^63 - 1 get the least power of two, and all others 2^63 - 1 |
| PowerOfTwo.RealSizeIsLeast | libxfiredbengine/storage/dict.c:459-479 | that power is at least size and no smaller power of two is |
| PowerOfTwo.RealSizeDoubles | libxfiredbengine/storage/dict.c:597-612 | growing a full table doubles it exactly |
| Dictionary.Dict.constructor | libxfiredbengine/storage/dict.c:176-212 | a new dictionary is valid and empty |
| Dictionary.Dict.ScanBuckets | libxfiredbengine/storage/dict.c:406-413 | the scan loop stops at the first nonempty bucket or when its visits run out |
| Dictionary.Dict.MoveCurrent | libxfiredbengine/storage/dict.c:415-431 | the loop that relinks one chain is MoveBucket on the arrays |
| Dictionary.Dict.RehashBuckets | libxfiredbengine/storage/dict.c:402-446 | the rehash loop on the arrays is the loop of the model |
| Dictionary.Dict.Rehash | libxfiredbengine/storage/dict.c:390-447 | the in-place call does what the model's does, keeps the map, and moves num buckets as `DictLoad.RehashMoves` says |
| Dictionary.Dict.ExpandIfNeeded | libxfiredbengine/storage/dict.c:581-612 | allocates the second table exactly when the model expands |
| Dictionary.Dict.Lookup | libxfiredbengine/storage/dict.c:889-923 | the search loops over one or two tables return the entry of the key |
| Dictionary.Dict.AddEntry | libxfiredbengine/storage/dict.c:694-720 | links a new entry at the head of its bucket unless the key is taken |
| Dictionary.Dict.DeleteEntry | libxfiredbengine/storage/dict.c:802-857 | unlinks the entry of the key and returns it |
| Dictionary.Dict.WorkerRuns | libxfiredbengine/storage/dict.c:543-562 | any number of worker slices leaves the contents as they are |
| Dictionary.Dict.SetVal | libxfiredbengine/storage/dict.c:134-154 | a write through an entry pointer changes that key alone |
| Dictionary.Dict.Add | libxfiredbengine/storage/dict.c:779-793 | dict_add adds a missing key and leaves a present one, whatever the worker does meanwhile |
| Dictionary.Dict.Get | libxfiredbengine/storage/dict.c:980-993 | dict_lookup answers as the plain map |
| Dictionary.Dict.Delete | libxfiredbengine/storage/dict.c:859-881 | dict_delete removes the key and returns its value |
| Dictionary.Dict.Update | libxfiredbengine/storage/dict.c:954-970 | dict_update writes the key, added or not |
| DictIterator.NextPops | libxfiredbengine/storage/dict.c:1144-1181 | dict_iterator_next returns the first entry not yet returned, or nothing when none is left |
| DictIterator.DeleteKeepsRemaining | libxfiredbengine/storage/dict.c:1144-1181 | deleting the entry just returned does not change what is still to come |
| DictIterator.Enumerate | libxfiredbengine/storage/dict.c:1144-1181 | calling next to the end, deleting any of the returned entries on the way, returns exactly the entries remaining at the start |
| DictIterator.ForwardIsOrder | libxfiredbengine/storage/dict.c:1144-1181 | a new iterator run to its end, deleting any of the returned entries on the way, returns every entry of both tables in order |
| DictIterator.OrderAt | libxfiredbengine/storage/dict.c:1144-1181 | that order is by bucket, along the chain of a bucket, and the new table comes after the old one |
| DictIterator.OrderIsIndex | libxfiredbengine/storage/dict.c:1144-1181 | those entries are exactly those of the map |
| DictIterator.OrderHasNoRepeats | libxfiredbengine/storage/dict.c:1144-1181 | and none comes twice |
| DictIterator.PrevPops | libxfiredbengine/storage/dict.c:1056-1135 | dict_iterator_prev returns the last entry not yet returned |
| DictIterator.BackwardIsReverse | libxfiredbengine/storage/dict.c:1084-1135 | on a settled dictionary prev lists the order of next in reverse |
| DictCursor.Cursor.Next | libxfiredbengine/storage/dict.c:1144-1181 | the loop on the iterator's fields computes the next entry of the model |
| DictCursor.Cursor.Prev | libxfiredbengine/storage/dict.c:1084-1135 | likewise backwards |
| Rings.RankIsBefore | libxfiredbengine/storage/skiplist.c:221-224 | the place of a hash splits a sorted level into smaller and not smaller hashes |
| Rings.KeyIsAfter | libxfiredbengine/storage/skiplist.c:226-238 | the node after the place of a key's hash is the key's, if the level has it |
| Rings.SplicedIsTower | libxfiredbengine/storage/skiplist.c:264-282 | a new node of any height keeps every level sorted, each a sublist of those below, and levels above the top empty |
| Rings.CutIsTower | libxfiredbengine/storage/skiplist.c:334-344 | so does taking a node out of all its levels |
| Rings.CutStops | libxfiredbengine/storage/skiplist.c:334-338 | stopping at the first level that lacks the node has unlinked it everywhere |
| Skiplists.Walk | libxfiredbengine/storage/skiplist.c:251-256 | the walk along one level ends at the last node before the hash |
| Skiplists.WalkToKey | libxfiredbengine/storage/skiplist.c:315-324 | the walk of delete, past equal hashes but not past the key, ends there too |
| Skiplists.SpliceIn | libxfiredbengine/storage/skiplist.c:278-281 | the two pointer assignments put the node into the circular level |
| Skiplists.SpliceOut | libxfiredbengine/storage/skiplist.c:335-337 | the pointer assignment takes it out |
| Skiplists.Skiplist.constructor | libxfiredbengine/storage/skiplist.c:41-62 | an empty list: every level is the header alone |
| Skiplists.Skiplist.Search | libxfiredbengine/storage/skiplist.c:213-239 | finds the node of a key if and only if the key is in the list |
| Skiplists.Skiplist.LocateHash | libxfiredbengine/storage/skiplist.c:251-256 | update holds, for every level, the last node before the hash |
| Skiplists.Skiplist.Insert | libxfiredbengine/storage/skiplist.c:241-287 | a new key's node is linked into its lowest height levels at the place of its hash and nowhere else; a present key changes nothing |
| Skiplists.Skiplist.Shrink | libxfiredbengine/storage/skiplist.c:342-344 | the level drops to the highest one that is not empty |
| Skiplists.Skiplist.Delete | libxfiredbengine/storage/skiplist.c:303-353 | succeeds if and only if the key is there, and takes its node out of every level |
| Containers.SkiplistIterator.Next | libxfiredbengine/storage/skiplist.c:367-378 | moves to the following node of the lowest level, or to nothing at the end |
| Containers.SkiplistIterator.Delete | libxfiredbengine/storage/skiplist.c:380-391 | deletes the current node and steps back to the one before |
| Containers.Drain | libxfiredbengine/storage/set.c:188-205 | alternating next and delete visits every node once in hash order, ends, and leaves every level empty and the level at 1 |
| Containers.AllBare | libxfiredbengine/storage/skiplist.c:342-344 | with nothing on the lowest level there is nothing on any |
| Containers.Hashmap.Add | libxfiredbengine/storage/hashmap.c:112-124 | adds the key; its counter stays right if and only if the key was absent |
| Containers.Hashmap.Find | libxfiredbengine/storage/hashmap.c:152-161 | finds exactly the keys added and not removed |
| Containers.Hashmap.Remove | libxfiredbengine/storage/hashmap.c:133-144 | removes the key, returns its node and keeps the counter right |
| Containers.KeySet.Contains | libxfiredbengine/storage/set.c:159-162 | membership |
| Containers.KeySet.Add | libxfiredbengine/storage/set.c:139-151 | adds a missing key, refuses a present one, keeps the counter right |
| Containers.KeySet.Remove | libxfiredbengine/storage/set.c:170-181 | removes the key and keeps the counter right |
| Containers.KeySet.Clear | libxfiredbengine/storage/set.c:188-205 | empties the set; the counter stays right if and only if it was empty |
| Rows.AppliesToKey | libxfiredbengine/storage/disk.c:155-534 | every query does to the rows of its key what it would do to them alone |
| Rows.AppliesElsewhere | libxfiredbengine/storage/disk.c:155-534 | and leaves the rows of other keys and their order |
| Persistence.VacantHasNoRows | lib/xfiredb-serv/engine.rb:104-132 | a missing key and an empty container have no rows, so the rows cannot tell them apart |
| Persistence.LoggedKeeps | ext/xfiredb-serv/list.c:79-213 | every logged change keeps the rows of the key a representation of its value, lists as multisets, and in order unless a query by value named an item that occurs twice; a list without rows is in order again |
| WriteBehind.NextKeeps | libxfiredbengine/storage/bio.c:87-136 | every step of producers, worker, sync and stop keeps: disk plus in-flight plus queued operations represents memory |
| WriteBehind.RunKeeps | libxfiredbengine/storage/bio.c:87-229 | so it holds in every state of every run |
| WriteBehind.ShutdownApplied | libxfiredbengine/storage/bio.c:156-186 | after bio_sync and bio_exit have returned, all queued operations have been applied, in order |
| WriteBehind.StopAloneMayLose | libxfiredbengine/os/bg.c:59-76 | from any initial state a run with bio_exit alone can end with an operation never applied |
| WriteBehind.StopAloneIff | libxfiredbengine/os/bg.c:59-76 | for every run that ends with the worker gone, bio_exit alone was enough if and only if the worker, when done was set, was not already past its last look at a nonempty queue |
| WriteBehind.LoadIsLocal | lib/xfiredb-serv/engine.rb:79-132 | what a load makes of a key depends on that key's rows alone |
| WriteBehind.LoadOfRepresented | lib/xfiredb-serv/engine.rb:79-132 | loading rows that represent a value gives that value, a permutation of it for loose lists |
| WriteBehind.ReloadGivesMemory | ext/xfiredb-serv/database.c:88-191 | in every reachable state, applying the pending operations and loading gives every key its value in memory, also after it was overwritten by another type |
| WriteBehind.ListsStayTight | libxfiredbengine/storage/disk.c:380-442 | from any state where a list is in order on disk, or has no rows, it comes back in order as long as no pop or set names an item that occurs twice |
| WriteBehind.DistinctListsStayTight | libxfiredbengine/storage/disk.c:380-442 | in particular while its items stay pairwise distinct from then on |
| WriteBehind.RestartIsInit | lib/xfiredb-serv/engine.rb:46-56 | a restarted engine starts from rows that represent its database exactly |
| WriteBehind.PopIsSafeIff | libxfiredbengine/storage/disk.c:439-442 | every outcome of the delete query for item i loads as that pop if and only if everything between i and each equal item is equal |
| WriteBehind.UpdateIsSafeIff | libxfiredbengine/storage/disk.c:380-383 | every outcome of the update query for item i loads as that set if and only if the data is the same or no other item is equal |
| WriteBehind.OrderMayBeLost | libxfiredbengine/storage/disk.c:439-442 | popping the last of two equal items around another one may reload in another order |
| StorageEngine.RunQuery | libxfiredbengine/storage/bio.c:92-129 | the worker's dispatch is an outcome of the operation's query, whichever row it picks |
| StorageEngine.Engine.constructor | lib/xfiredb-serv/engine.rb:46-56 | starting on stored rows loads every value they represent |
| StorageEngine.Engine.DrainQueue | libxfiredbengine/storage/bio.c:87-136 | the worker's loop empties the queue and leaves rows that represent memory |
| StorageEngine.Engine.ListPush | ext/xfiredb-serv/list.c:79-95 | appends and logs, invariant kept |
| StorageEngine.Engine.ListSet | ext/xfiredb-serv/list.c:158-181 | writes and logs at an index in range, else changes nothing |
| StorageEngine.Engine.ListPop | ext/xfiredb-serv/list.c:183-213 | removes and logs at an index in range, else nil and no change |
| StorageEngine.Engine.ListClear | ext/xfiredb-serv/list.c:97-116 | leaves an empty list and queues one delete per item, in list order |
| StorageEngine.Engine.HashmapStore | ext/xfiredb-serv/hashmap.c:190-216 | logs an add for a new field and an update for a present one |
| StorageEngine.Engine.HashmapDelete | ext/xfiredb-serv/hashmap.c:139-168 | removes a present field, returns its value and queues its delete; queues nothing for an absent one |
| StorageEngine.Engine.HashmapClear | ext/xfiredb-serv/hashmap.c:118-137 | leaves an empty hashmap and queues one delete per field, in iterator order |
| StorageEngine.Engine.SetInsert | ext/xfiredb-serv/set.c:98-116 | adds a missing member and queues it; queues nothing for a present one |
| StorageEngine.Engine.SetRemove | ext/xfiredb-serv/set.c:118-137 | removes a present member and queues its delete; queues nothing for an absent one |
| StorageEngine.Engine.SetClear | ext/xfiredb-serv/set.c:33-48 | leaves an empty set and queues one delete per member, in iterator order |
| StorageEngine.Engine.Delete | ext/xfiredb-serv/database.c:88-191 | deletes a key of any type and queues the deletes of all its rows, in order |
| StorageEngine.Engine.Fill | libxfiredbengine/xfiredb.c:201-262 | stores a container and queues exactly one add per element, in its own or its iterator's order |
| StorageEngine.Engine.Store | ext/xfiredb-serv/database.c:120-168 | stores a value over any or no value of any type; queues an update for a string over a string, else the deletes of the old value and the adds of the new one |
| BioQueue.Queue.LinkHead | libxfiredbengine/storage/bio.c:217-227 | links a node in at the head of the doubly linked queue, size exact |
| BioQueue.Queue.Add | libxfiredbengine/storage/bio.c:199-229 | queues the operation last at persist levels up to 2, and drops it from 3 on |
| BioQueue.Queue.UnlinkTail | libxfiredbengine/storage/bio.c:54-66 | unlinks the oldest node, size exact |
| BioQueue.Queue.Pop | libxfiredbengine/storage/bio.c:47-70 | hands out the queued operations one by one in order, none lost or repeated |
| BioQueue.Queue.Work | libxfiredbengine/storage/bio.c:87-136 | the worker's loop applies all queued operations in order |
| BioQueue.Queue.Size | libxfiredbengine/storage/bio.c:165-186 | the size bio_sync waits on is zero exactly when every operation has been taken |
| Store.PopRange | lib/xfiredb-serv/storage_commands.rb:403-411 | the loop of LPOP over a range leaves the list without the slice and replies with the slice |
| Store.RefRange | lib/xfiredb-serv/storage_commands.rb:471-478 | the loop of LREF replies position by position, nil outside the list |
| Store.Pop | ext/xfiredb-serv/list.c:144-213 | the item at an index in range leaves the list, otherwise nil |
| Store.PopTakesSlice | lib/xfiredb-serv/storage_commands.rb:384-434 | for a start that is not negative the list is what is left with the slice put back |
| Store.PopRepliesSlice | lib/xfiredb-serv/storage_commands.rb:384-434 | line k of the reply is item k of the slice, or nil beyond its end |
| Store.PopRepliesLikeRef | lib/xfiredb-serv/storage_commands.rb:450-488 | LPOP then replies what LREF replies on the same list, and LREF changes nothing |
| Store.PopLikeRefIff | lib/xfiredb-serv/storage_commands.rb:384-488 | the two replies agree if and only if the range starts in or after the list, ends before it, or the list is empty |
| Store.ExecKeepsSolid | lib/xfiredb-serv/storage_commands.rb:28-622 | no command leaves an empty container under a key |
| Store.ExecNotes | lib/xfiredb-serv/command.rb:81-87 | every command tells the key set to hold its key exactly if it has a value afterwards |
| Store.DeleteFields | lib/xfiredb-serv/storage_commands.rb:181-184 | the loop of MDEL counts the fields it deletes |
| Store.AddMembers | lib/xfiredb-serv/storage_commands.rb:147-150 | the loop of SADD counts the members that are new |
| Store.RemoveMembers | lib/xfiredb-serv/storage_commands.rb:110-113 | the loop of SDEL counts the members it removes |
| StoreLaws.SAddSInclude | lib/xfiredb-serv/storage_commands.rb:42-157 | SADD adds exactly the members named to those there, a value of another type being replaced, and replies how many are new |
| StoreLaws.MDelMSize | lib/xfiredb-serv/storage_commands.rb:172-193 | the count MDEL replies and the size MSIZE replies afterwards add up to the size before; the key goes exactly with its last field |
| StoreLaws.MDelMRef | lib/xfiredb-serv/storage_commands.rb:172-226 | exactly the fields named are gone |
| StoreLaws.SDelSInclude | lib/xfiredb-serv/storage_commands.rb:42-122 | exactly the members named are removed, SDEL replies how many there were, the key goes exactly with its last member |
| StoreLaws.SetGet | lib/xfiredb-serv/storage_commands.rb:546-596 | GET reads what SET wrote over any value, nil for a missing key, and fails on a container |
| StoreLaws.ReadsKeep | lib/xfiredb-serv/storage_commands.rb:42-596 | GET, MREF, MSIZE, SINCLUDE, LREF and LSIZE change nothing, of whatever arguments |
| StoreLaws.ErrorsKeep | lib/xfiredb-serv/storage_commands.rb:42-622 | every command that raises or complains leaves the value as it was |
| StoreLaws.OtherTypeIsMissing | lib/xfiredb-serv/storage_commands.rb:42-545 | for every command on containers a value of another type is as good as missing: same reply, and it is replaced exactly if the command adds to a missing key |
| StoreLaws.MissingSaysNil | lib/xfiredb-serv/storage_commands.rb:42-545 | on a missing key every command with the arguments it wants that adds nothing says nil |
| StoreLaws.WantsArguments | lib/xfiredb-serv/storage_commands.rb:45-534 | set commands without members and LSET at what is no number are refused |
| StoreLaws.ClearForgets | lib/xfiredb-serv/storage_commands.rb:60-622 | DELETE forgets any value; a clear forgets a container of its type and leaves every other value with nil |
| StoreLaws.MAddMRef | lib/xfiredb-serv/storage_commands.rb:206-287 | MREF reads the field that MADD wrote, and every other as before |
| StoreLaws.NamesJoin | lib/xfiredb-serv/storage_commands.rb:42-227 | MREF and SINCLUDE of several names answer for one after the other, in order |
| StoreLaws.MSizeCounts | lib/xfiredb-serv/storage_commands.rb:302-313 | MSIZE tells the number of names that MREF has data for |
| StoreLaws.PushedIsRead | lib/xfiredb-serv/storage_commands.rb:329-514 | a key that items were pushed to one after the other has each at its index, all of them in order under 0..-1, and their number as LSIZE; other indexes fail |
| StoreLaws.LPushSays | lib/xfiredb-serv/storage_commands.rb:329-341 | LPUSH says OK over any value |
| StoreLaws.LSetLRef | lib/xfiredb-serv/storage_commands.rb:450-544 | LSET writes at its index if there is an item, and LREF reads every other index as before |
| StoreLaws.LPopTakesOne | lib/xfiredb-serv/storage_commands.rb:384-434 | LPOP at an index says that item and takes it out, items after it move up by one, the key goes with the last; at other indexes it fails and keeps the list |
| StoreLaws.LPopTakesRange | lib/xfiredb-serv/storage_commands.rb:390-419 | LPOP of a range says what LREF says of it and takes exactly its positions out |
| StoreLaws.NegativeBounds | lib/xfiredb-serv/storage_commands.rb:399-400 | a negative bound is that many positions from the end, for LPOP and LREF |
| StoreLaws.LRefRangeJoins | lib/xfiredb-serv/storage_commands.rb:457-480 | LREF of a range says position after position what it says at that index, nil where there is none, and complains of a range that goes backwards |
| IndexTexts.DecimalRoundTrip | lib/xfiredb-serv/string.rb:22-24 | every printed number is read as that number, with a plus sign too |
| IndexTexts.IndexRoundTrip | lib/xfiredb-serv/storage_commands.rb:390-400 | every printed index or range is read as that index or range, negative bounds included |
| IndexTexts.OtherTexts | lib/xfiredb-serv/storage_commands.rb:391-392 | half a range makes the command fail, and a word that is no number is rejected, alone or as a bound |
| Tokenizer.MatchOfArg | lib/xfiredb-serv/string.rb:39-41 | where the backtracking match of any argument in quotes ends, by how its text reads: at its own quote if every quote in it is escaped, beyond it if a backslash is left over or a quote was left open and another quote follows, before it if a space stands outside the quotes |
| Tokenizer.ArgParses | lib/xfiredb-serv/string.rb:39-41 | an argument that is fine where it stands is the first token, unchanged, and the rest of the line follows |
| Tokenizer.ArgFails | lib/xfiredb-serv/string.rb:39-41 | an argument that is not fine never is the first token |
| Tokenizer.UnfineTokens | lib/xfiredb-serv/string.rb:39-41 | every token of an argument that is not fine is shorter than it |
| Tokenizer.WordOutside | lib/xfiredb-serv/string.rb:39-41 | a bare word that closes its quotes and has no space outside of them is matched to its end, whatever follows |
| Queries.ParsesBackIff | lib/xfiredb-serv/string.rb:34-41 | plain words and any arguments, in any order, tokenize to exactly themselves if and only if every argument is fine where it stands |
| Queries.WordIff | lib/xfiredb-serv/string.rb:39-41 | a word that is quote-free, or closes its quotes before any space outside of them, stands for itself if and only if it is nonempty, has no space outside quotes, and strip and the dropping of outer quotes leave it |
| Queries.PlainIff | lib/xfiredb-serv/string.rb:39-41 | a quote-free word is plain if and only if it has no space and no tab, newline, carriage return, vertical tab, form feed or NUL at either end |
| Queries.WordAndArg | lib/xfiredb-serv/string.rb:39-41 | a plain word, a space and a fine argument between double quotes are read as the two |
| Queries.EscapedQuoteStays | lib/xfiredb-serv/string.rb:39-41 | a double quote after a backslash does not end the argument, and both stay in it |
| Queries.LineIff | lib/xfiredb-serv/string.rb:39-41 | words that are quote-free or close their quotes, then arguments whose quotes are escaped (or plain words, then any arguments): the line has them as its first tokens if and only if every word is plain and every argument fine, and then has no others; with several arguments no word after one that is not plain may hold quotes |
| Queries.QueryParsesBack | lib/xfiredb-serv/xql.rb:50-59 | a query of plain words and fine arguments parses to its command and arguments, empty ones and ones with spaces and escaped quotes included |
| Wire.ReadTokens | lib/xfiredb-serv/storage_commands.rb:28-622 | the tokens of a command are read as that command |
| Wire.ReadDetermines | lib/xfiredb-serv/storage_commands.rb:28-622 | whatever is read as a command starts with that command's tokens |
| Wire.QueryText | lib/xfiredb-serv/storage_commands.rb:46-616 | a query is the name, the bare arguments after spaces, and the others between double quotes after spaces |
| Wire.KeyQueries | lib/xfiredb-serv/storage_commands.rb:306-616 | GET, DELETE, MSIZE and LSIZE print as name and key |
| Wire.ClearQueries | lib/xfiredb-serv/storage_commands.rb:77-361 | so do MCLEAR, SCLEAR and LCLEAR |
| Wire.DataQueries | lib/xfiredb-serv/storage_commands.rb:279-566 | SET, LPUSH and MADD print the key, and MADD the field, bare and the data in quotes |
| Wire.IndexQueries | lib/xfiredb-serv/storage_commands.rb:389-535 | LSET, LREF and LPOP print key and index bare |
| Wire.NamesQueries | lib/xfiredb-serv/storage_commands.rb:46-213 | MREF and MDEL print their names bare, SADD, SDEL and SINCLUDE theirs in quotes |
| Wire.SpokenIff | lib/xfiredb-serv/command.rb:67-72 | a forwarded command is the command run if and only if every bare argument is a plain word, inner quotes included, and every quoted one fine; so a key with a space outside quotes never arrives as itself |
| Wire.QuoteFreeSpokenIff | lib/xfiredb-serv/command.rb:67-72 | the same for every command whose texts hold no quotes |
| Wire.ToldIs | lib/xfiredb-serv/cluster_commands.rb:233-244 | a question about a key names its first token, and no key if it has none |
| Wire.SpeakableTravels | lib/xfiredb-serv/cluster_commands.rb:233-244 | such a command of one line arrives as itself, and so does its key in the questions for its owner |
| Sharding.OneOwner | lib/xfiredb-serv/keyshard.rb:90-95 | with slots partitioned a key has at most one owner |
| Sharding.ShowsIsUnion | lib/xfiredb-serv/keyshard.rb:52-61 | the cluster-wide map is the union of the databases without the server's own keys |
| Sharding.ExecKeepsSendable | lib/xfiredb-serv/localnode.rb:237-256 | values built by commands that can be sent can be sent |
| Sharding.RunAtKeeps | lib/xfiredb-serv/command.rb:81-87 | a command on the owner keeps the key set equal to the sharded keys of the database, each owned |
| Sharding.RunAtSendable | lib/xfiredb-serv/localnode.rb:237-256 | a node whose values can all be sent stays such a node |
| Hearing.PlainKeyRead | lib/xfiredb-serv/localnode.rb:240-253 | a SET, LPUSH or one-member SADD of a plain key is read as one of that key, with the first token of its text, or for SADD all of them |
| Hearing.FieldRead | lib/xfiredb-serv/localnode.rb:246-249 | a MADD of a plain key is read with the same field if its name is plain, and otherwise with a shorter name or not at all |
| Hearing.LostKeyRead | lib/xfiredb-serv/localnode.rb:237-256 | a query of a key that is not plain is read with a shorter key, or, where no token is left of the key, as a MADD of a piece of the field name |
| Arrival.PlainKeyArrivesIff | lib/xfiredb-serv/localnode.rb:238-254 | the queries for a plain key rebuild its string, list, hashmap or set at a node that lacks it if and only if every part of the value can be sent |
| Arrival.ArrivesIff | lib/xfiredb-serv/localnode.rb:238-254 | so do those for any key if and only if the key is plain as well |
| Arrival.LongKeyMissed | lib/xfiredb-serv/localnode.rb:237-256 | the queries for a key that is not plain do nothing to any such key that is at least as long |
| Arrival.HopelessStays | lib/xfiredb-serv/localnode.rb:237-256 | a key that cannot be sent is brought neither by its own queries nor by those for other keys, if it is the longest that is not plain, or the other keys are plain; there always is one such if any key cannot be sent |
| Routing.WhereIs | lib/xfiredb-serv/cluster_commands.rb:233-244 | the first node that says it has the key, if any |
| Routing.FirstAnswers | lib/xfiredb-serv/cluster_commands.rb:233-244 | the first node of the table that owns the key is found, and the first of all where the question fails |
| Routing.DeleteSaysOk | lib/xfiredb-serv/storage_commands.rb:611-620 | a forwarded DELETE says OK whatever is made of it elsewhere, and is done at the forwarding node too |
| Routing.RefusedKeys | lib/xfiredb-serv/command.rb:49-51 | exactly xfiredb, xfiredb-nodes and xfiredb-users are refused to clients; the owner runs commands on every other key |
| Routing.TargetIsUnique | lib/xfiredb-serv/command.rb:67-72 | the forwarding target is the unique owner, whatever the order of the node table |
| Routing.SingleSystemImage | lib/xfiredb-serv/storage_commands.rb:28-622 | a command at any node, answered there or arriving where it is forwarded to, changes the cluster-wide map, and replies, as on one unsharded store |
| Routing.SetForwardIff | lib/xfiredb-serv/storage_commands.rb:560-570 | a SET of a changed value at a node that does not own its key acts as on one store if and only if it arrives: the key is a plain word and the text fine; otherwise, however often what was read is forwarded on, the owner does not get the value |
| Routing.GarbledSetLands | lib/xfiredb-serv/command.rb:67-72 | a SET at a node that does not own its key, of a key that is not plain, is run at the owner of the first piece of the key, on that piece, with the second piece or else the text as the value, and says OK |
| Routing.BlankFieldRefused | lib/xfiredb-serv/storage_commands.rb:274-279 | a forwarded MADD of a field name of spaces changes nothing and is refused |
| Routing.ServeMisses | lib/xfiredb-serv/command.rb:67-72 | commands that are read as commands of other keys, at each forwarding again, leave a key alone at every node |
| Routing.OtherwiseUnchanged | lib/xfiredb-serv/command.rb:49-71 | a refused key, a malformed command or a slot without owner, if its key is asked for by its own name, changes nothing |
| Routing.DeleteElsewhere | lib/xfiredb-serv/storage_commands.rb:616-618 | the local delete after a forwarded DELETE has no effect |
| Migration.KeyShard.AddKey | lib/xfiredb-serv/keyshard.rb:100-102 | a key is in the set afterwards if it was or if its slot is here, other keys are not touched, and the keys of a shard stay within its slots |
| Migration.KeyShard.DelKey | lib/xfiredb-serv/keyshard.rb:107-109 | the key is gone, other keys are not touched, and the keys of a shard stay within its slots |
| Migration.RunHere | lib/xfiredb-serv/command.rb:81-87 | a command with its key-set bookkeeping keeps a node in order: the key set is that of the sharded keys of the database |
| Migration.KeyShard.Reshard | lib/xfiredb-serv/keyshard.rb:115-132 | removes the first num slots, all if there are fewer and none for num <= 0, keeps the others in order, and removes exactly the keys in them |
| Migration.SendValue | lib/xfiredb-serv/localnode.rb:238-254 | whatever the texts, the loops over a value send its parts in the order of the iterator, and the other node runs what it reads of keys it owns |
| Migration.Migrate | lib/xfiredb-serv/localnode.rb:224-260 | whatever the texts, migrate takes the first slots and their keys away, adds the slots at the other node, sends every key and deletes it here |
| Transfer.DeliverLocal | lib/xfiredb-serv/localnode.rb:237-256 | what a node has under a key after the queries depends only on what it had under it and on what is read, and changes only if it owns the key |
| Transfer.MigratedByIsMigrated | lib/xfiredb-serv/localnode.rb:224-260 | if every key and value that moves can be sent, the slots, keys and values change hands and nothing else happens |
| Transfer.MigrateIff | lib/xfiredb-serv/localnode.rb:224-260 | after a migration the cluster holds what it held if and only if every key that moved is plain and every part of its value can be sent |
| Transfer.MigratedBySlots | lib/xfiredb-serv/localnode.rb:224-236 | whatever becomes of the keys, the first slots change hands, no slot is lost or doubled, and the other nodes stay as they are |
| Transfer.HopelessStep | lib/xfiredb-serv/localnode.rb:224-260 | over several migrations of a node, the key that cannot arrive stays on it, or goes astray and stays so |
| Migration.MigratedKeeps | lib/xfiredb-serv/localnode.rb:224-260 | the cluster-wide map and set of slots stay, slot sets stay disjoint, every key lies with its slot, key sets match; num slots change hands, all for num at or above their number, none for num <= 0 |
| Migration.MigratedSendable | lib/xfiredb-serv/localnode.rb:237-256 | what was sent can be sent on |
| Migration.AddSlotsApart | lib/xfiredb-serv/keyshard.rb:66-68 | adding foreign slots appends them all |
| Forgetting.Pass | lib/xfiredb-serv/cluster.rb:237-247 | one pass asks every other node for an even part, or the first for everything, whatever the texts |
| Forgetting.Forget | lib/xfiredb-serv/cluster.rb:232-253 | at most two passes; every other node gets floor(N/(n-1)) slots, the first also the remainder; fails if and only if there is no other node to take slots; contents kept if and only if every key and value of the leaving node could be sent |
| ClusterRuns.StepAgrees | lib/xfiredb-serv/cluster.rb:342-348 | every command answered where it is given or arriving, and every migration of what can be sent, keeps the cluster in agreement with one store, with the same reply |
| ClusterRuns.RunAgrees | lib/xfiredb-serv/cluster.rb:342-348 | so does every run of such commands at any nodes and such migrations |
| ClusterRuns.SayableRunIsPossible | lib/xfiredb-serv/cluster.rb:342-348 | from nodes whose contents can be sent, commands that can be sent and migrations can come in any order |
| ClusterRuns.RunIsOneStore | lib/xfiredb-serv/storage_commands.rb:28-622 | the replies and the union of the databases after any run are those of a single store |
| ClusterRuns.LastSetIsRead | lib/xfiredb-serv/storage_commands.rb:560-595 | in every run of commands and migrations a GET, at whichever node, replies the data of the last SET of its key, if only reads of the key and anything on other keys came between |
| ClusterRuns.QuietReads | lib/xfiredb-serv/storage_commands.rb:42-596 | every read tells the same before and after any events that do not write under its key |
| ClusterRuns.DeliveredIsServed | lib/xfiredb-serv/cluster.rb:353-357 | a query of a migration is served as one that a node forwards, if the key read is the receiver's |
| ClusterRuns.NowhereLosesSlots | lib/xfiredb-serv/localnode.rb:226-235 | to an unknown node exactly the slots asked for are lost to the cluster |
| ClusterRuns.NowhereIff | lib/xfiredb-serv/localnode.rb:226-237 | the cluster then still holds what it held if and only if no key lay in those slots |
| SelfMigration.MigrateToSelf | lib/xfiredb-serv/localnode.rb:224-260 | for keys that can be sent, migrate to itself, run with its queries on the node itself: the slots come back, every moved key is deleted, and the loop over the keys goes round for ever if and only if one holds a list |
| SelfMigration.ToSelfIff | lib/xfiredb-serv/localnode.rb:237-256 | it ends and keeps the contents if and only if no key lies in the slots moved |
| SelfMigration.ToSelfLoses | lib/xfiredb-serv/localnode.rb:237-256 | whatever the texts, such a migration that ends has lost the key it came to last |
| SelfMigration.OwnRounds | ext/xfiredb-serv/list.c:239-250 | after i rounds of sending a list to its own node by LPUSH the node's list has i items more, so that round i is followed by another |
| SelfMigration.ResendNotes | lib/xfiredb-serv/localnode.rb:237-254 | any other part of a value sent to its own node leaves the value and notes the key |
| SlotText.SplitOfJoin | lib/xfiredb-serv/localnode.rb:44-51 | the text of the slots loads as those slots |
| SlotText.LoadedAfterAddIff | lib/xfiredb-serv/cluster.rb:69-82 | after add_slots it loads as exactly the new and old slots if and only if slots were added or there were none |
| Crc16.TableIsShift8 | libxfiredbengine/crc16.c:25-58 | every table entry is eight shift-register turns of its index |
| Crc16.TableStepFeeds | libxfiredbengine/crc16.c:67-68 | one table step feeds the eight bits of a byte into the register |
| Crc16.Compute | libxfiredbengine/crc16.c:60-72 | the loop is the bit-by-bit shift register of x^16+x^12+x^5+1, started at 0, over the whole message |
| Crc16.FedRegisterIsTheRemainder | libxfiredbengine/crc16.c:60-72 | that register is the one remainder of the message times x^16 by the polynomial of section 2 of ITU-T Recommendation V.41 |

## Left out

- Routing.SingleSystemImage: for a command that is answered where it is given, or whose text arrives as the same command; `Routing.SetForwardIff` shows for SET that others fail. Not decided are bare arguments that open a quote and do not close it, or have a space outside quotes beside one, and arguments that are not plain beside a quoted one with an unescaped quote.
- Routing.SetForwardIff: for a key that is plain, or quote-free beside a text whose quotes are escaped.
- Transfer.MigrateIff: for keys and values for which `Wire.SpokenIff` decides each query, and of one line; no command holds a newline, since each is read as one line.
- Forgetting.Forget: when contents are kept is said for such keys and values only; the slot counts hold for all.
- Arrival.ArrivesIff: for such keys and values.
- ClusterRuns.RunAgrees: for runs of commands that are answered where they are given or arrive, and of migrations of what can be sent, as are `ClusterRuns.StepAgrees` and `ClusterRuns.RunIsOneStore`; what others come to is decided one at a time by `Routing.SetForwardIff` and `Transfer.MigrateIff`.
- Migration.Delivered: a query that is read as a command for a key of a third node is sent on there by the source; that node's change, and what may come back from it, are not part of a migration here. `Routing.Serve` follows forwarded commands through any number of nodes.
- SelfMigration.MigrateToSelf: only for keys whose texts can be sent; `SelfMigration.ToSelfLoses` and `SelfMigration.ToSelfIff` need no such premise.
- Routing.AtNode: replies of forwarded commands also pass through `chomp` (lib/xfiredb-serv/clusternode.rb:83-86), which drops a carriage return at the end of a stored value.
- Skiplists.Skiplist.Insert: for a key that collides with no other key of the list and hashes below the header, as are search and delete; the source relies on both.
- Chain pointers of the dictionary: a bucket is a sequence of entries, so relinking is an update of sequences; entry identity is kept by value cells. The pointer work of the source is modelled in the skiplist and the background queue.
- Widths of the dictionary: table sizes, lengths and the cursor are unbounded; only `dict_real_size` is modelled at 64 bits with its overflow guard, and `persist_level`, slot counts and list indexes are unbounded too.
- `dict_clear` as a freeing loop, `dict_free`, and clients that run at the same time on one dictionary or use an entry after its deletion.
- `dict_iterator_prev` while rehashing, which the source does not promise to mirror `dict_iterator_next`.
- The walk over colliding keys in `skiplist_search`: with hashes distinct it is not entered.
- `list.c`: the circular doubly linked list is a sequence here; the same kind of relinking is proved for the background queue.
- Engine: its queue is a sequence, tied to the linked queue by the contracts of `BioQueue.Queue`; storing the same container object again and using a container after its key was deleted are not modelled.
- SQL text and SQLite: each query is its intended change of the rows, for values without single quotes.
- `persist_level` of 3 and above and loading without logging (`set_loadstate(false)`) in runs of the engine; lost wake-ups, so that `bio_sync` returns at all.
- Replies are answers without their prefix characters; messages of errors are not told apart beyond their kind.
- The trailing space of a forwarded `MREF` or `MDEL` without fields, and upper-casing of command names.
- Ruby before 2.6 strips NUL characters at the end of a token only; here both ends are stripped.
- A forwarded command that raises: the cluster state is as on one store, the reply is modelled as raised although the connection then closes without a line.
- `reshard` with source `all`: it works from counts it never updates, so no exact number of moved slots holds.
- Concurrent client commands in the middle of a migration, network failures, gossip, users, authentication, sockets and configuration.
- The arithmetic of the MurmurHash functions, the debug store of `xfiredb.c`, bit operations, atomics and object expiry.
