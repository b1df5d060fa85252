# Verified model of simple-redis

simple-redis is a Redis server written from scratch. Each of its hand-written parts stands in for a simple
mathematical object: two chained tables for one map, a skiplist for a sorted sequence, a heap and per-entry
deadlines for a timed map, a byte buffer and a parser for a stream of commands, a log file and a background rewrite
for the current database, an event loop for a serial history. This project models those parts and proves that each
one is what it stands in for, for all inputs, all runs and all interleavings.

The code that changes things in place is modelled in place: linked hash chains, skiplist towers, the heap array and
its index, the buffer array, the database, the log writer, the pub/sub registry and the server loop are classes and
loops. Every such method is proved against a function on values, and the laws over whole runs are proved about those
functions. Those functions are in turn held against an independent account of the server: what each of the 43 command
words does in any mix of cases, for absent, expired, well-typed and ill-typed keys, which bytes go out, and which bytes
are a request.

## The modules

| file | what it holds |
|---|---|
| `Text.dfy` | byte strings, decimal texts, the C integer scanner, lexicographic order |
| `Resp.dfy`, `RespProofs.dfy`, `RespParser.dfy`, `Buffer.dfy` | request codec, its laws, the parser loops, the connection buffer |
| `HashSpec.dfy`, `HashProofs.dfy`, `HashTable.dfy` | the incremental hash table on values, its laws, the linked implementation |
| `HashScan.dfy`, `ScanRuns.dfy`, `ScanLoss.dfy` | KEYS and SCAN on a still table, SCAN while the table changes, a reachable table on which SCAN loses keys |
| `SortedPairs.dfy`, `Skiplist.dfy`, `ZSet.dfy` | strictly sorted sequences, the skiplist, the sorted set |
| `Expiry.dfy`, `TTLHeap.dfy`, `Timed.dfy`, `Database.dfy` | reading a deadline, the deadline heap, the timed map and its simulation, the database object |
| `Objects.dfy`, `Replies.dfy`, `Commands.dfy`, `CommandProofs.dfy`, `RoundTrips.dfy`, `Handlers.dfy`, `Executor.dfy` | values, RESP2 replies, command semantics, their laws, the handlers on the database object, the whole command table on it |
| `WordLaws.dfy`, `KeyWords.dfy`, `ContainerWords.dfy`, `SortedWords.dfy`, `SpecialWords.dfy`, `WireLaws.dfy` | what every command does from the words sent, and every reply and request byte by byte, written out without the functions of the model |
| `Snapshot.dfy`, `TtlSnapshot.dfy`, `AofWriter.dfy`, `AofProtocol.dfy`, `AofFile.dfy`, `AofLoader.dfy` | replay, compaction without and with deadlines, the child's output, the append-only file protocol, the writer object, the loader |
| `Server.dfy`, `ServerProofs.dfy`, `ExecReplies.dfy`, `Locality.dfy`, `ServerLoop.dfy` | the connection state machine, its laws, EXEC's reply, what a step can know of its environment, the loop in place on the database object |
| `System.dfy` | server and append-only file together |

## Where the code does less than one might expect

Each of these is stated as an exact condition, with a lemma that reaches a failing input.

- A SCAN call loses a key that was still to come if and only if it goes on from a former call, the key is still in the old table and the call passes the key's slot: `ScanRuns.CallLosesIff`. Growth in itself loses nothing (`ScanRuns.ScanComplete`, `ScanRuns.DbScanComplete`), nor do old tables of up to 128 slots (`ScanRuns.SmallTableDrained`); `ScanLoss.LostKey` loses a key, under every hash, on a table reached by 513 insertions.
- A deadline survives `HashTable::set` if and only if the entry has reached the primary table: `HashProofs.DeadlineSurvivesIff`; `ScanLoss.DeadlineLost` loses one. The handlers call `setObject` on absent keys only, so no command shows it.
- Active expiry is invisible to lookups if and only if the heap holds no negative deadline: `Timed.SweepInvisibleIff`; `Timed.NegativeDeadlineSwept` is a run that shows it.
- A snapshot gives a key its deadline back if and only if it had none or the child asked for the time left before the deadline; a deadline that passes between the lookup and the question is lost and the key comes back for ever: `TtlSnapshots.TtlSnapshotRebuilds`, `TtlSnapshots.Resurrected`.
- Commands logged after start-up are all recovered if and only if the file found at start-up has no torn tail; the writer appends behind a torn tail without cutting it: `AofLoader.AppendableIff`, whose other half names the SET or DEL that is lost.
- GET returns the bytes given to SET if and only if they are no integer text or are one in printed form: `RoundTrips.SetGetIff`, `RoundTrips.SetGetChanges`.
- EXEC's reply can be read back if and only if every queued name is known or free of CR LF: `ExecReplies.ExecReplyShape`, `ExecReplies.BrokenReply`.

Where code and documentation disagree, the model follows the code. `src/store/HashTable.h:62-65` says that `flushAll`
keeps the slot array, the code frees it. `src/store/HashTable.h:54` and `docs/data_structures.md:67` say that `scan`
covers the primary table only, the code also returns the whole old table at cursor 0. `docs/persistence.md:28` says
that only successful commands are logged, the code logs every command whose name is marked as a write.

## Model

| member | source | states |
|---|---|---|
| `RespProofs.ParseExtends` | src/proto/RespParser.cpp:118-139 | a parse that succeeds on some bytes gives the same command and length on every extension of them |
| `RespProofs.DrainAppends` | src/main.cpp:256-260 | draining a stream is draining a prefix and then feeding the rest to the leftover |
| `RespProofs.ChunkingIndependence` | src/main.cpp:250-260 | the commands and the leftover bytes do not depend on how the stream was split into reads |
| `RespProofs.FormatRoundTrip` | src/persistence/AOFWriter.cpp:40-55 | a formatted command parses back to itself, for arbitrary binary arguments and whatever follows |
| `RespProofs.LogRoundTrip` | src/persistence/AOFLoader.cpp:91-114 | parsing a log of formatted commands yields exactly those commands and no leftover |
| `RespProofs.TornCommandIncomplete` | src/proto/RespParser.cpp:20-87 | no proper prefix of a formatted command parses |
| `RespProofs.WholeCommandsIsLargest` | src/persistence/AOFLoader.cpp:91-114 | the number of recovered commands is the largest whose text fits into the surviving bytes |
| `RespProofs.TruncatedLog` | src/persistence/AOFLoader.cpp:91-114 | for every byte prefix of a log exactly the longest prefix of complete commands is recovered |
| `WireLaws.ParseIff` | src/proto/RespParser.cpp:20-87 | the parser takes a request exactly when its bytes have the form of a length line and that many bulk strings, null array and null bulk string included |
| `WireLaws.InlineRoundTrip` | src/proto/RespParser.cpp:90-115 | a line of words with any number of spaces between them is the command of these words |
| `RespParser.FindFirstCRLF` | src/proto/RespParser.cpp:7-16 | the loop finds the first CR LF at or after the offset, or none |
| `RespParser.ReadBulk` | src/proto/RespParser.cpp:41-83 | one bulk string with all its error exits is the specification's bulk string |
| `RespParser.ReadArray` | src/proto/RespParser.cpp:20-87 | the array loop equals the recursive specification |
| `RespParser.ReadInline` | src/proto/RespParser.cpp:91-115 | an inline line is complete at its first CR LF and gives its tokens |
| `RespParser.SplitLine` | src/proto/RespParser.cpp:100-112 | the split loop yields the maximal space-free pieces in order |
| `RespParser.ParseBuffer` | src/proto/RespParser.cpp:118-139 | parses the readable bytes, consumes exactly the parsed ones and nothing on failure |
| `RespParser.DrainBuffer` | src/main.cpp:256-260 | the pipelining loop returns all complete commands and leaves the leftover readable |
| `RespParser.ServeChunks` | src/main.cpp:250-260 | any sequence of reads into a connection buffer drains the concatenated stream |
| `Buffers.Buffer.constructor` | src/net/Buffer.cpp:6-11 | a new buffer is valid and holds nothing |
| `Buffers.Buffer.AdvanceWrite` | src/net/Buffer.cpp:21-25 | exactly the written bytes become readable |
| `Buffers.Buffer.Consume` | src/net/Buffer.cpp:35-47 | exactly the first bytes leave the queue, and no space is lost |
| `Buffers.Buffer.Compact` | src/net/Buffer.cpp:62-79 | moving the bytes to the front, with overlap, keeps the content |
| `Buffers.Buffer.EnsureWritableBytes` | src/net/Buffer.cpp:55-90 | content is kept, the requested space is there, the doubling loop ends |
| `Buffers.Buffer.Append` | src/net/Buffer.cpp:49-53 | content grows by the bytes, at the end |
| `HashProofs.MigrateLaw` | src/store/HashTable.cpp:276-316 | one migration keeps the placement of every entry, every lookup and the size |
| `HashProofs.RehashStepLaw` | src/store/HashTable.cpp:318-323 | any number of migrations changes nothing observable and advances by that many slots or ends |
| `HashProofs.SetLaw` | src/store/HashTable.cpp:96-141 | `set` binds its key, leaves every other key's value and deadline alone, and grows the size exactly for a new key |
| `HashProofs.DelStateLaw` | src/store/HashTable.cpp:169-185 | `del` unbinds its key only, and shrinks the size exactly when it was bound |
| `HashProofs.ModifyLaw` | src/store/HashTable.cpp:80-92 | writing through a found entry changes that key only, in whichever table it is |
| `HashProofs.DeadlineSurvivesIff` | src/store/HashTable.cpp:103-121 | when `set` keeps a deadline and when it resets it, exactly |
| `HashProofs.SetKeepsLoad` | src/store/HashTable.cpp:96-141 | a `set` never outruns the draining: the load invariant survives growth and mid-rehash inserts |
| `HashProofs.LoadBound` | src/store/HashTable.cpp:263-274 | entries are at most twice the primary capacity, also in mid-rehash, and the drain index stays in range |
| `HashProofs.DrainEnds` | src/store/HashTable.cpp:318-323 | the drain of a c-slot table is over within ceil(c/128) sets, deletes and rehash steps in any mixture |
| `HashProofs.SetGrowsIff` | src/store/HashTable.cpp:96-141 | the table starts with four slots and doubles exactly when nothing is left to drain and a new key would make more than two entries per slot |
| `HashProofs.BatchProgress` | src/store/HashTable.cpp:96-141 | each of them ends the drain or passes 128 slots, and none starts a second growth before the end |
| `HashProofs.ApplyRefines` | src/store/HashTable.cpp:96-185 | every operation keeps the invariant and acts as the same operation on a plain map |
| `HashProofs.RunIsMap` | src/store/HashTable.cpp:66-191 | after any sequence of operations the two tables are one map: equal lookups, size its cardinality, load bounded |
| `HashScan.KeysOnce` | src/store/HashTable.cpp:195-213 | KEYS lists every bound key exactly once across both tables |
| `HashScan.ScanOnce` | src/store/HashTable.cpp:217-259 | on an unchanging table the iteration ends and returns each key exactly once, for all positive counts |
| `HashScan.PageSize` | src/store/HashTable.cpp:226-239 | a page goes on until it has `count` entries or the table ends, and has fewer without its last slot |
| `ScanRuns.ScanCompleteWithoutGrowth` | src/store/HashTable.cpp:217-259 | as long as no new rehash starts, through any interleaving of calls, sets, deletes, writes and rehash steps, every key bound throughout is returned |
| `ScanRuns.ApplyKeepsPrimary` | src/store/HashTable.cpp:96-185 | a key of the primary table stays there as long as it is bound and the table does not grow |
| `ScanRuns.ScanComplete` | src/store/HashTable.cpp:217-259 | with growth as well, a key bound throughout is returned if calls after the first find it in the primary table |
| `ScanRuns.OpKeepsAhead` | src/store/HashTable.cpp:263-274 | no operation, growth included, brings a bound key behind the cursor |
| `ScanRuns.PageHas` | src/store/HashTable.cpp:217-259 | exactly which bound keys a page lists |
| `ScanRuns.CallLosesIff` | src/store/HashTable.cpp:217-259 | exactly when a call loses a key that was still to come |
| `ScanRuns.DbScanCompleteWithoutGrowth` | src/store/Database.cpp:86-110 | as long as no new rehash starts, the SCAN command returns every key that is live throughout and matches the pattern |
| `ScanRuns.DbScanComplete` | src/store/Database.cpp:86-110 | the same with growth, if pages after the first find the key in the primary table |
| `ScanRuns.SmallTableDrained` | src/store/Database.cpp:86-89 | which they do whenever the old table has at most 128 slots |
| `ScanLoss.ScanLoses` | src/store/Database.cpp:86-89 | on every full table of more than 128 slots, after one insertion and a batch, a page that goes on ends the iteration without any key of the slots from 128 on |
| `ScanLoss.LostKey` | src/store/Database.cpp:86-110 | for every hash and 512 keys that cover the first 129 of 256 slots: insert them, a page, one more key, a page; the iteration is over and keys bound throughout were not returned |
| `ScanLoss.SomeCover` | src/store/HashTable.cpp:11-18 | there are such hashes and keys |
| `ScanLoss.DeadlineLost` | src/store/HashTable.cpp:103-121 | on that table `set` resets the deadline of a present key |
| `HashTables.Table.FindIn` | src/store/HashTable.cpp:66-78 | the chain walk returns the node of the key, or none exactly when it is absent |
| `HashTables.Table.DeleteFrom` | src/store/HashTable.cpp:145-167 | unlinking in place removes exactly the key's node and keeps the chains linked |
| `HashTables.Table.PushNode` | src/store/HashTable.cpp:125-133 | a node is linked in front of its slot's chain |
| `HashTables.MoveChain` | src/store/HashTable.cpp:290-304 | the relink loop moves every node of a chain to its slot in the other table |
| `HashTables.HashTable.FindEntry` | src/store/HashTable.cpp:80-92 | finds the entry in either table, null exactly when the key is unbound |
| `HashTables.HashTable.Migrate` | src/store/HashTable.cpp:276-316 | the in-place migration of one slot equals the value-level one, and drops the old table at its end |
| `HashTables.HashTable.RehashSteps` | src/store/HashTable.cpp:318-323 | the batch loop equals the value-level batch and keeps the contents |
| `HashTables.HashTable.TriggerRehashing` | src/store/HashTable.cpp:263-274 | the primary table becomes the old one and an empty table of twice the size takes its place |
| `HashTables.HashTable.SetKey` | src/store/HashTable.cpp:96-141 | in place: state as the value-level `set`, contents the old map with the key rebound |
| `HashTables.HashTable.DeleteKey` | src/store/HashTable.cpp:169-185 | in place: contents the old map without the key, and whether it was there |
| `HashTables.HashTable.WriteEntry` | src/store/Database.cpp:120-138 | writing value and deadline through an entry pointer rebinds that key only |
| `HashTables.HashTable.ListKeys` | src/store/HashTable.cpp:195-213 | every key of the contents exactly once |
| `HashTables.HashTable.ScanPage` | src/store/HashTable.cpp:217-259 | the page and the next cursor of the value-level scan |
| `HashTables.HashTable.FlushAll` | src/store/HashTable.cpp:327-332 | both tables become empty and unallocated |
| `SortedPairs.BelowTrichotomy` | src/store/Skiplist.cpp:192-196 | score, then member, is a strict total order |
| `SortedPairs.BelowIs` | src/store/Skiplist.cpp:192-196 | a pair is below another exactly when its score is smaller, or equal and its member earlier in byte order |
| `Text.LessIsByteOrder` | src/store/Skiplist.cpp:195 | a text is earlier exactly when it is a proper prefix, or smaller at the first place where they differ |
| `SortedPairs.InsertLaw` | src/store/Skiplist.cpp:43-81 | sorted insertion keeps strict order and adds exactly the pair |
| `SortedPairs.RemoveLaw` | src/store/Skiplist.cpp:83-120 | removal keeps strict order and takes out exactly the pair, or nothing when it is absent |
| `SortedPairs.SortedUnique` | src/store/Skiplist.cpp:192-196 | a set of pairs has one strictly sorted sequence |
| `Skiplists.RandomLevel` | src/store/Skiplist.cpp:171-178 | the level is one more than the number of leading successes of the coin, at most 32 |
| `Skiplists.LinkWith` | src/store/Skiplist.cpp:67-71 | splicing a tower in changes exactly the links of its predecessors on each level |
| `Skiplists.Skiplist.Search` | src/store/Skiplist.cpp:44-55 | `update[i]` is the last node before the target among those that reach level i |
| `Skiplists.Skiplist.Insert` | src/store/Skiplist.cpp:43-81 | for every level 1..32 the list refines sorted insertion and all levels, towers and back links stay right |
| `Skiplists.Skiplist.Remove` | src/store/Skiplist.cpp:83-120 | sorted removal or nothing, and the early `break` leaves no link to the removed node |
| `Skiplists.Skiplist.FindNode` | src/store/Skiplist.cpp:122-137 | returns the node of exactly that pair, null exactly when it is absent |
| `Skiplists.Skiplist.ShrinkLevel` | src/store/Skiplist.cpp:115-118 | lowering the level keeps every tower below it |
| `Skiplists.Skiplist.RangeByRank` | src/store/Skiplist.cpp:139-163 | the sign-normalised, clamped slice of the sorted order: scores ascend, equal scores are in byte order of the members |
| `ZSets.ZSetData.ZAdd` | src/cmd/ZSetCommands.cpp:52-74 | skiplist and dictionary stay coherent with repeated members, and the reply is the growth in cardinality |
| `ZSets.ZSetData.ZRem` | src/cmd/ZSetCommands.cpp:212-225 | coherence is kept and the reply is the loss in cardinality |
| `ZSets.ZSetData.ZRank` | src/cmd/ZSetCommands.cpp:112-130 | the number of members with a smaller score, or an equal score and a name earlier in byte order; none exactly when the member is absent, so the fallback is dead |
| `ZSets.ZSetData.ZRange` | src/cmd/ZSetCommands.cpp:159-164 | the slice of the sorted order: scores ascend, equal scores are in byte order of the members |
| `ZSets.RankCounts` | src/cmd/ZSetCommands.cpp:112-130 | a position in the sorted order is the number of smaller pairs |
| `ZSets.RemAllIsMinus` | src/cmd/ZSetCommands.cpp:212-225 | ZREM removes exactly the named members |
| `ZSets.OrderFromDict` | src/cmd/ZSetCommands.cpp:52-74 | the dictionary determines the skiplist's order |
| `TTLHeaps.RootIsEarliest` | src/store/TTLHeap.cpp:71-105 | the root of a heap in order is its earliest entry |
| `TTLHeaps.SiftUpStep` | src/store/TTLHeap.cpp:117-124 | a lift moves the only defect one level up |
| `TTLHeaps.SiftDownStep` | src/store/TTLHeap.cpp:126-145 | a sink under the earliest child moves the only defect one level down |
| `TTLHeaps.TTLHeap.SwapEntries` | src/store/TTLHeap.cpp:147-152 | a swap keeps the index the exact inverse and every deadline |
| `TTLHeaps.TTLHeap.SiftUp` | src/store/TTLHeap.cpp:117-124 | repairs an upward defect and creates none below |
| `TTLHeaps.TTLHeap.SiftDown` | src/store/TTLHeap.cpp:126-145 | repairs a downward defect and creates none above |
| `TTLHeaps.TTLHeap.Push` | src/store/TTLHeap.cpp:8-24 | binds the key to the deadline in the heap's map |
| `TTLHeaps.TTLHeap.Update` | src/store/TTLHeap.cpp:51-69 | rebinds the key, or adds it; the double sift from one index restores order |
| `TTLHeaps.TTLHeap.Remove` | src/store/TTLHeap.cpp:26-49 | unbinds the key, or changes nothing |
| `TTLHeaps.TTLHeap.PopExpired` | src/store/TTLHeap.cpp:71-105 | due keys, earliest first, at most maxWork; fewer only when nothing due remains |
| `Timed.StepAgrees` | src/store/Database.cpp:13-196 | every database operation keeps heap and table in agreement |
| `Timed.RunAgrees` | src/store/Database.cpp:13-196 | heap and table agree in every state of every run, for deadlines of either sign |
| `Timed.ExpiryUnobservable` | src/store/Database.cpp:13-178 | over every run with a non-decreasing clock and non-negative deadlines, lookups and remaining times equal those of a plain timed map |
| `Timed.RunSimulates` | src/store/Database.cpp:13-178 | the simulation behind it, for every prefix of a run and every later time |
| `Timed.SweepInvisibleIff` | src/store/Database.cpp:156-166 | a sweep is invisible exactly when the heap before it holds no negative deadline |
| `Timed.NegativeDeadlineSwept` | src/store/Database.cpp:120-130 | a run in which a sweep takes a key that lookups still see |
| `Timed.ShownIff` | src/store/Database.cpp:94-107 | a page shows exactly its live and matching keys |
| `Timed.ShownExactly` | src/store/Database.cpp:94-107 | with `*` a page shows the live keys of the raw page in order, with another pattern that key alone, exactly when it is live and on the page |
| `Timed.PersistFaithfulIff` | src/store/Database.cpp:132-138 | what removing a deadline does to lookups; no command reaches `removeExpire` |
| `Timed.LazyAllSeen` | src/store/Database.cpp:86-110 | collecting any expired keys changes no lookup |
| `Databases.Database.FindEntry` | src/store/Database.cpp:168-178 | a live entry, or null after collecting an expired one from heap and table |
| `Databases.Database.Exists` | src/store/Database.cpp:68-78 | true exactly for a live key, an expired one is collected |
| `Handlers.GetString` | src/store/Database.cpp:24-37 | the text of a live string, nothing for a missing key or another type |
| `Databases.Database.TimeToLive` | src/store/Database.cpp:140-154 | -2, -1 or the remaining time, as the timed map gives it |
| `Databases.Database.SetString` | src/store/Database.cpp:39-57 | binds the key without deadline, in table and heap, whichever table held the old entry |
| `Databases.Database.Delete` | src/store/Database.cpp:59-66 | removes the key from table and heap, expired or not |
| `Databases.Database.SetExpire` | src/store/Database.cpp:120-130 | sets both deadlines, exactly for a live key |
| `Databases.Database.RemoveExpire` | src/store/Database.cpp:132-138 | clears the deadline in table and heap |
| `Databases.Database.SetObject` | src/store/Database.cpp:180-190 | binds the key, without deadline when it was absent, else with exactly the deadline that the table leaves |
| `Databases.Database.ActiveExpireCycle` | src/store/Database.cpp:156-166 | what the heap gives up is what the table loses, within the work limit |
| `Databases.Database.ScanKeys` | src/store/Database.cpp:86-110 | one step of the scan iteration: the batch, the page, its expired keys collected in table and heap; `*` shows the live ones in order, another pattern that key alone |
| `Databases.Database.Keys` | src/store/Database.cpp:80-83 | every stored key once, expired or not |
| `Databases.Database.DbSize` | src/store/Database.cpp:112-114 | the number of stored keys, expired or not |
| `Databases.Database.FlushDb` | src/store/Database.cpp:192-196 | table and heap become empty |
| `Objects.CreateAsString` | src/store/RedisObject.cpp:7-28 | printing a stored string and storing it again reproduces the object |
| `Objects.IntegerStored` | src/store/RedisObject.cpp:7-28 | white space, at most one sign and digits within 64 bits are stored as their value |
| `Objects.OtherStored` | src/store/RedisObject.cpp:7-28 | every other text is stored as it is |
| `Text.ScanIntIs` | src/store/RedisObject.cpp:13-17 | the C scanner takes white space, at most one sign and digits, and nothing where no digit follows |
| `Text.DigitsAre` | src/proto/RespSerializer.cpp:17-27 | decimal printing, digit by digit |
| `Text.ScanIntRoundTrip` | src/store/RedisObject.cpp:12-22 | printing and scanning are inverse on every integer and the scan consumes the whole text |
| `RoundTrips.SetGetIff` | src/cmd/StringCommands.cpp:23-45 | exactly when GET returns the bytes given to SET |
| `RoundTrips.SetGetChanges` | src/store/RedisObject.cpp:12-22 | SET of "007" is read back as "7" |
| `RoundTrips.PopsAll` | src/cmd/ListCommands.cpp:59-106 | popping a whole list gives its elements in order, from either end, and removes the key |
| `RoundTrips.PushThenPop` | src/cmd/ListCommands.cpp:21-106 | one end is a stack, opposite ends are a queue, and popping everything restores the database |
| `RoundTrips.PutFieldsAt` | src/cmd/HashCommands.cpp:40-52 | a field holds the value of the last pair that names it, else its old value |
| `RoundTrips.SAddUndoneIff` | src/cmd/SetCommands.cpp:19-63 | SREM undoes SADD of the same members if and only if none was there before |
| `RoundTrips.ExpireThenTimeLeft` | src/cmd/KeyCommands.cpp:81-128 | after EXPIRE or PEXPIRE the remaining time counts down to the deadline, where the key is gone; a deadline below zero never comes |
| `Handlers.CmdPush` | src/cmd/ListCommands.cpp:21-57 | on the database object: LPUSH and RPUSH as the command functions, reply and new state, heap agreement kept |
| `Handlers.CmdPop` | src/cmd/ListCommands.cpp:59-106 | LPOP and RPOP, with the emptied key deleted |
| `Handlers.CmdHSet` | src/cmd/HashCommands.cpp:20-53 | HSET; the reply is the growth of the map |
| `Handlers.CmdHDel` | src/cmd/HashCommands.cpp:77-100 | HDEL; the reply is the loss, and the emptied key is deleted |
| `Handlers.CmdSAdd` | src/cmd/SetCommands.cpp:19-39 | SADD; the reply is the growth of the set |
| `Handlers.CmdSRem` | src/cmd/SetCommands.cpp:41-63 | SREM; the reply is the loss, and the emptied key is deleted |
| `Handlers.CmdExpire` | src/cmd/KeyCommands.cpp:81-121 | EXPIRE and PEXPIRE on the database object; the deadline goes to entry and heap |
| `Handlers.CmdScan` | src/cmd/KeyCommands.cpp:138-187 | SCAN on the database object: the raw page of the table, what is shown of it written out, and the expired keys collected |
| `Handlers.ActiveExpire` | src/store/Database.cpp:156-166 | the timer's sweep takes at most its limit, only keys due in the heap, all of them when it takes fewer, and none later than a heaped key it leaves |
| `Executor.CmdSet` | src/cmd/StringCommands.cpp:23-28 | SET on the database object |
| `Executor.CmdDel` | src/cmd/KeyCommands.cpp:45-55 | DEL; repeated keys count once |
| `Executor.CmdExists` | src/cmd/KeyCommands.cpp:57-67 | EXISTS; counts words that name a live key and collects the expired |
| `Executor.CmdKeys` | src/cmd/KeyCommands.cpp:69-79 | KEYS; every stored key once, in the order the tables give |
| `Executor.CmdTtl` | src/cmd/KeyCommands.cpp:96-128 | TTL and PTTL |
| `Executor.CmdScanAll` | src/cmd/KeyCommands.cpp:138-187 | SCAN with its options and errors; the page is that of the table, with `*` its live keys in order, with another pattern that key alone |
| `Executor.CmdZAdd` | src/cmd/ZSetCommands.cpp:32-75 | ZADD through the sorted-set object; the reply is the growth |
| `Executor.CmdZRem` | src/cmd/ZSetCommands.cpp:199-226 | ZREM; the reply is the loss, and the emptied key is deleted |
| `Executor.ReadSorted` | src/cmd/ZSetCommands.cpp:77-197 | ZSCORE, ZRANK, ZRANGE and ZCARD through the sorted-set object, by ascending score (`SortedWords` has the answers written out) |
| `Executor.CmdRead` | src/cmd/HashCommands.cpp:55-140 | the reading handlers: nothing, the value, or the type error |
| `Executor.Execute` | src/cmd/CommandTable.cpp:36-76 | for every command, known or not, reply and new state of the database object are those of the dispatch function, whose effect for each name is written out in the word laws; a page of SCAN is one of the table |
| `WordLaws.WrongCount` | src/cmd/CommandTable.cpp:52-72 | each of the 36 names, in any case, with a number of words it may not have changes nothing and is told so |
| `WordLaws.UnknownWord` | src/cmd/CommandTable.cpp:44-50 | a word that spells none of the 36 names changes nothing and is named in the reply |
| `WordLaws.LoggedIff` | src/cmd/CommandTable.cpp:78-84 | exactly the fifteen writers, in any case, are logged |
| `KeyWords.PingWord` | src/cmd/StringCommands.cpp:12-21 | PING from its words: PONG, or the word sent |
| `KeyWords.SetWord` | src/cmd/StringCommands.cpp:23-28 | SET binds the key, without deadline |
| `KeyWords.GetWord` | src/cmd/StringCommands.cpp:30-45 | GET: null, the text, or the type error; an expired key goes |
| `KeyWords.DelWord` | src/cmd/KeyCommands.cpp:45-55 | DEL takes out the named keys and counts each once |
| `KeyWords.ExistsWord` | src/cmd/KeyCommands.cpp:57-67 | EXISTS counts the words that name a live key, repeated ones each time, and drops the expired |
| `KeyWords.KeysWord` | src/cmd/KeyCommands.cpp:69-79 | KEYS lists every stored key in the order of the tables |
| `KeyWords.ExpireWord` | src/cmd/KeyCommands.cpp:81-94 | EXPIRE: seconds from now on a live key and 1, 0 for a missing one, an error for a text that is no integer |
| `KeyWords.PExpireWord` | src/cmd/KeyCommands.cpp:108-121 | PEXPIRE: the same in milliseconds |
| `KeyWords.TtlWord` | src/cmd/KeyCommands.cpp:96-106 | TTL: -2, -1 or the whole seconds left |
| `KeyWords.PTtlWord` | src/cmd/KeyCommands.cpp:123-128 | PTTL: -2, -1 or the milliseconds left |
| `KeyWords.DbsizeWord` | src/cmd/ServerCommands.cpp:23-27 | DBSIZE: the number of stored keys |
| `KeyWords.FlushdbWord` | src/cmd/ServerCommands.cpp:31-35 | FLUSHDB leaves nothing |
| `KeyWords.InfoWord` | src/cmd/ServerCommands.cpp:101-122 | INFO changes nothing |
| `KeyWords.ScanWord` | src/cmd/KeyCommands.cpp:138-187 | SCAN: the cursor error, the option error, else the last COUNT and the last MATCH (10 and `*` without), the page, its live keys that the pattern selects |
| `ContainerWords.LPushWord` | src/cmd/ListCommands.cpp:21-38 | LPUSH: the words in front, the last one first; length or type error |
| `ContainerWords.RPushWord` | src/cmd/ListCommands.cpp:40-57 | RPUSH: the words at the end |
| `ContainerWords.LPopWord` | src/cmd/ListCommands.cpp:59-82 | LPOP: the first element; the key goes with the last one |
| `ContainerWords.RPopWord` | src/cmd/ListCommands.cpp:84-106 | RPOP: the last element |
| `ContainerWords.LLenWord` | src/cmd/ListCommands.cpp:108-122 | LLEN |
| `ContainerWords.LRangeWord` | src/cmd/ListCommands.cpp:124-158 | LRANGE: the elements from one position to another, negative ones from the end, both cut to the list |
| `ContainerWords.PushPopWords` | src/cmd/ListCommands.cpp:15-18 | after RPUSH to a new list LPOP replies the first word and RPOP the last |
| `ContainerWords.HSetWord` | src/cmd/HashCommands.cpp:20-53 | HSET: the last value given to each field; the number of new fields; an odd number of words is an error |
| `ContainerWords.HGetWord` | src/cmd/HashCommands.cpp:55-75 | HGET: the value of the field, null, or the type error |
| `ContainerWords.HDelWord` | src/cmd/HashCommands.cpp:77-100 | HDEL: the named fields go, the key with the last; the number that were there |
| `ContainerWords.HGetAllWord` | src/cmd/HashCommands.cpp:102-123 | HGETALL: every field followed by its value |
| `ContainerWords.HLenWord` | src/cmd/HashCommands.cpp:125-140 | HLEN |
| `ContainerWords.HSetGetWords` | src/cmd/HashCommands.cpp:20-75 | HGET after HSET replies the value of the last pair that names the field |
| `ContainerWords.SAddWord` | src/cmd/SetCommands.cpp:19-39 | SADD: the words join; the number of new ones |
| `ContainerWords.SRemWord` | src/cmd/SetCommands.cpp:41-63 | SREM: the words go, the key with the last member; the number that were there |
| `ContainerWords.SIsMemberWord` | src/cmd/SetCommands.cpp:65-79 | SISMEMBER: 1 exactly for a member |
| `ContainerWords.SMembersWord` | src/cmd/SetCommands.cpp:81-99 | SMEMBERS: the members in the order iterated |
| `ContainerWords.SCardWord` | src/cmd/SetCommands.cpp:101-115 | SCARD |
| `ContainerWords.SAddIsMemberWords` | src/cmd/SetCommands.cpp:19-79 | SISMEMBER after SADD is 1 exactly for the old members and the words added |
| `SortedWords.ZAddWord` | src/cmd/ZSetCommands.cpp:32-75 | ZADD: the last score given to each member; the number of new members; an odd number of words is an error |
| `SortedWords.ZRemWord` | src/cmd/ZSetCommands.cpp:199-226 | ZREM: the words go, the key with the last member; the number that were there |
| `SortedWords.ZScoreWord` | src/cmd/ZSetCommands.cpp:77-97 | ZSCORE: the printed score, null, or the type error |
| `SortedWords.ZRankWord` | src/cmd/ZSetCommands.cpp:99-131 | ZRANK: the number of members with a smaller score, or an equal score and a name earlier in byte order |
| `SortedWords.ZRangeWord` | src/cmd/ZSetCommands.cpp:133-181 | ZRANGE: the members by ascending score, equal scores in byte order, from one position to another |
| `SortedWords.ZRangeScoresWord` | src/cmd/ZSetCommands.cpp:133-181 | with WITHSCORES each followed by its score; another fifth word is an error |
| `SortedWords.ZCardWord` | src/cmd/ZSetCommands.cpp:183-197 | ZCARD |
| `SortedWords.ZAddScoreWords` | src/cmd/ZSetCommands.cpp:32-97 | ZSCORE after ZADD replies the score of the last pair that names the member |
| `CommandProofs.ExecSteady` | src/cmd/CommandTable.cpp:36-76 | without deadlines a handler ignores the clock, leaves no empty container, and changes nothing unless marked as a write |
| `CommandProofs.DispatchSteady` | src/cmd/CommandTable.cpp:36-84 | the same for every dispatched command, known or not, with the right number of words or not |
| `CommandProofs.ExecAgreed` | src/store/Database.cpp:120-130 | no handler stores a deadline that can come without putting it into the heap |
| `Replies.ReplyRoundTrip` | src/proto/RespSerializer.cpp:5-36 | a written reply is read back as itself whatever follows |
| `Replies.ReadBackIff` | src/proto/RespSerializer.cpp:5-36 | exactly the replies without CR LF in simple strings and errors are read back |
| `WireLaws.WireFormat` | src/proto/RespSerializer.cpp:5-36 | the bytes of every kind of reply, the null and nested arrays included |
| `Snapshots.RunSteady` | src/persistence/AOFLoader.cpp:91-114 | replay without TTL commands does not depend on the clock |
| `Snapshots.EmittedRebuilds` | src/persistence/AOFWriter.cpp:147-206 | the command written for a key rebuilds its value, for every type and iteration order |
| `Snapshots.SnapshotRebuilds` | src/persistence/AOFWriter.cpp:141-215 | replaying a snapshot on an empty database rebuilds the database, for any order of keys, fields and members |
| `AofWriter.FormatRespCommand` | src/persistence/AOFWriter.cpp:40-55 | the loop produces the specified frame |
| `AofWriter.KeyCommand` | src/persistence/AOFWriter.cpp:147-206 | the switch builds a reconstruction command of the value |
| `AofWriter.WriteSnapshot` | src/persistence/AOFWriter.cpp:141-215 | the child's file holds the lines of exactly the keys its lookups found, each with its own clock readings, PEXPIRE lines included |
| `TtlSnapshots.TtlSnapshotRebuilds` | src/persistence/AOFWriter.cpp:141-215 | replaying them at whatever times rebuilds exactly the keys found, with their values, and gives a key its deadline back exactly when it had none or the child asked in time |
| `TtlSnapshots.Resurrected` | src/persistence/AOFWriter.cpp:209-214 | a key found before and asked about after its deadline comes back without one |
| `TtlSnapshots.ExpireLineWorks` | src/persistence/AOFWriter.cpp:209-214 | the PEXPIRE line puts the deadline on the entry and into the heap |
| `TtlSnapshots.PlainSnapshot` | src/persistence/AOFWriter.cpp:153-214 | without deadlines, and because no handler leaves an empty container, the child writes one reconstruction command per key and nothing else |
| `AofProtocol.StepSafe` | src/persistence/AOFWriter.cpp:79-278 | every step, with every outcome of fork, child, open and rename, keeps the database recoverable |
| `AofProtocol.AlwaysRecoverable` | src/persistence/AOFWriter.cpp:79-278 | in every state of every TTL-free run, loading the file of that name gives exactly the current database |
| `AofProtocol.PendingRewriteRecovers` | src/persistence/AOFWriter.cpp:115-225 | while a rewrite is pending, snapshot plus buffer also gives the current database |
| `AofProtocol.TornWrite` | src/persistence/AOFWriter.cpp:57-70 | a crash in the middle of a log write loses that command only, and a whole write loses nothing |
| `AofProtocol.RewriteCompletes` | src/persistence/AOFWriter.cpp:115-278 | after trigger, child success, open and rename the file is the snapshot followed by every frame logged since the fork, in order, and the server is quiet again |
| `AofFiles.Writer.Log` | src/persistence/AOFWriter.cpp:79-97 | in place: the frame goes to the file, and to the buffer exactly while rewriting |
| `AofFiles.Writer.AfterDispatch` | src/main.cpp:304-311 | dispatch and logging rule are the protocol's client step |
| `AofFiles.Writer.TriggerRewrite` | src/persistence/AOFWriter.cpp:115-130 | ignored while rewriting; else with a child the writer is rewriting with an empty buffer on a copy of the database, and without one it stays quiet |
| `AofFiles.Writer.ChildEnds` | src/persistence/AOFWriter.cpp:217-220 | the end of the child process is the protocol's child step |
| `AofFiles.Writer.CheckRewriteComplete` | src/persistence/AOFWriter.cpp:227-278 | for every report of waiting, failure of the wait itself included: the new file is the child's file plus the whole buffer or the old file, the rewrite state is cleared, recoverability is kept |
| `AofLoader.LoadBuffer` | src/persistence/AOFLoader.cpp:91-118 | the replay loop builds the loaded database in the database object, counts the dispatched commands and leaves the torn tail |
| `AofLoader.AppendableIff` | src/persistence/AOFWriter.cpp:17-28 | all commands the writer logs after start-up are recovered exactly when the file found has no torn tail |
| `ServerProofs.RunInv` | src/main.cpp:104-311 | in every state of every run, timer ticks included: pub/sub relation, clean queues, never MULTI and subscriber at once, serial database, log of writes, every deadline that can come in the heap |
| `ServerProofs.NonInterference` | src/main.cpp:267-294 | a connection's transaction and subscriptions depend on its own commands only, under every interleaving |
| `ServerProofs.SerialHistory` | src/main.cpp:104-133 | from any loaded database, the database is the serial run of a history of commands and ticks, each EXEC's commands contiguous and in order with no tick inside, each tick taking only due keys; the log is its writes |
| `ServerProofs.TickDeletes` | src/main.cpp:202-206 | SET, PEXPIRE and a tick leave an empty database |
| `ServerProofs.LoadedAgreed` | src/persistence/AOFLoader.cpp:91-114 | what the loader builds from any file has every deadline in the heap |
| `ServerProofs.ExecRunsAll` | src/main.cpp:104-133 | whatever was queued enters the history at EXEC, complete and in the order sent |
| `ServerProofs.DiscardLeavesNothing` | src/cmd/TransactionCommands.cpp:24-33 | whatever was queued before DISCARD adds nothing to the history |
| `ServerProofs.LogRecovers` | src/main.cpp:304-311 | a server started on a well-formed log: at any point of a TTL-free run that log and the commands logged since load to the current database |
| `ServerProofs.JoinRelated` | src/cmd/PubSubRegistry.cpp:5-9 | a subscription keeps the two sides of the pub/sub relation equal |
| `ServerProofs.LeaveRelated` | src/cmd/PubSubRegistry.cpp:11-21 | so does an unsubscription, and no empty channel stays |
| `ServerProofs.CloseRelated` | src/cmd/PubSubRegistry.cpp:44-55 | after a disconnect no channel knows the connection and none is empty |
| `ServerProofs.PublishExact` | src/cmd/PubSubRegistry.cpp:23-42 | the bytes of `message`, channel and text as three bulk strings to exactly the connections subscribed, their number as the reply, nothing else |
| `SpecialWords.NothingSent` | src/main.cpp:260 | an empty command changes nothing and gets no reply |
| `SpecialWords.SubscriberRefused` | src/main.cpp:267-278 | a subscriber sending anything but SUBSCRIBE, UNSUBSCRIBE, PING or QUIT changes nothing and gets the refusal |
| `SpecialWords.Queued` | src/main.cpp:280-291 | inside MULTI every command but MULTI, EXEC and DISCARD is queued and runs nothing |
| `SpecialWords.MultiWord` | src/cmd/TransactionCommands.cpp:13-22 | MULTI in any case starts an empty queue, nested it is an error |
| `SpecialWords.DiscardWord` | src/cmd/TransactionCommands.cpp:24-33 | DISCARD drops the queue, without MULTI it is an error |
| `SpecialWords.ExecWord` | src/main.cpp:104-133 | EXEC sends the array header, runs the queue and leaves the transaction, without MULTI it is an error |
| `SpecialWords.SpecialWrongCount` | src/cmd/CommandTable.cpp:52-72 | the commands outside the table with a wrong number of words |
| `SpecialWords.SubscribeWord` | src/main.cpp:136-152 | SUBSCRIBE joins each channel and confirms it in turn with the number of subscriptions, byte by byte |
| `SpecialWords.UnsubscribeWord` | src/main.cpp:177-186 | UNSUBSCRIBE leaves each channel named and confirms it |
| `SpecialWords.UnsubscribeAllWord` | src/main.cpp:155-176 | UNSUBSCRIBE alone leaves all channels, or confirms that there is none with a null |
| `SpecialWords.PublishWord` | src/main.cpp:190-199 | PUBLISH in any case from an idle connection is the exact publication |
| `SpecialWords.RewriteWord` | src/main.cpp:81-89 | the reply to BGREWRITEAOF |
| `SpecialWords.TableWord` | src/main.cpp:294-311 | any other word goes to the table: one reply, one entry of the history, one of the log exactly for the writers |
| `Systems.FileFollows` | src/main.cpp:117-127 | dispatching and logging any sequence of commands, rewrites included, keeps the file recoverable to the serial run of the history |
| `Systems.AlwaysRecovers` | src/main.cpp:104-311 | end to end, from any well-formed log: at every moment of every TTL-free run of clients, transactions, ticks, rewrites and failures the file loads to the clients' database |
| `Systems.RewriteRequested` | src/main.cpp:81-89 | BGREWRITEAOF forks a child with the current database, unless one is at work or the fork fails |
| `ExecReplies.PlainSays` | src/cmd/CommandTable.cpp:36-76 | out of subscriber mode every other command appends exactly one value |
| `ExecReplies.ExecReplyShape` | src/main.cpp:113-132 | EXEC appends one array of one reply per queued command, readable exactly when every queued name is known or has no CR LF |
| `ExecReplies.BrokenReply` | src/cmd/CommandTable.cpp:44-50 | MULTI, a name with CR LF and EXEC: the client does not read the reply back |
| `ServerLoops.PubSubRegistry.Subscribe` | src/cmd/PubSubRegistry.cpp:5-9 | in place: both sides of the relation are updated and the count returned |
| `ServerLoops.PubSubRegistry.Unsubscribe` | src/cmd/PubSubRegistry.cpp:11-21 | in place: both sides are updated and an emptied channel erased |
| `ServerLoops.PubSubRegistry.Publish` | src/cmd/PubSubRegistry.cpp:23-42 | the loop sends one message to each subscriber and counts them |
| `ServerLoops.PubSubRegistry.RemoveConnection` | src/cmd/PubSubRegistry.cpp:44-55 | the loop takes the connection out of all its channels |
| `Locality.DispatchLocal` | src/cmd/CommandTable.cpp:36-76 | a call depends only on what it can find out itself |
| `Locality.RunLocal` | src/main.cpp:256-312 | a run stays a run when the environment changes only in calls not made yet |
| `ServerLoops.ServerLoop.Transaction` | src/cmd/TransactionCommands.cpp:13-33 | MULTI and DISCARD in place |
| `ServerLoops.ServerLoop.ExecuteDb` | src/main.cpp:294-311 | a command of the table on the database object, its reply and the logging rule |
| `ServerLoops.ServerLoop.RunTransaction` | src/main.cpp:104-133 | the EXEC loop on the objects equals the value-level run of the queue |
| `ServerLoops.ServerLoop.Receive` | src/main.cpp:256-312 | one parsed command on the objects is one step of the run; every subscriber messaged is open |
| `ServerLoops.ServerLoop.Expire` | src/main.cpp:202-206 | the timer's active expiry of the database object is one tick of the run, with the sweep's limit of 200 and its completeness |
| `ServerLoops.ServerLoop.Accept` | src/main.cpp:227-234 | a new connection is idle and subscribed to nothing |
| `ServerLoops.ServerLoop.Drop` | src/main.cpp:364-372 | a closed connection leaves the registry before it goes |
| `ServerLoops.ServerLoop.StartsRunning` | src/main.cpp:93-101 | a loop on any loaded database object starts as a run |
| `ServerLoops.ServerLoop.Meaning` | src/main.cpp:211-375 | at any time the database object, hash table and heap included, holds the serial run of what the clients sent, with every EXEC contiguous and no tick inside, and the log is its writes |

## Left out

- Sockets, epoll, timers, signals and file descriptors: system calls only. The outcomes of fork, child, open and rename are steps of the protocol; other I/O errors and partial writes are assumed away.
- fsync policy and `tick`: a completed write counts as in the file.
- Wall clock: one reading per database operation, passed as a parameter. `ttl` reads the clock once to test the deadline and once to subtract, a command such as EXPIRE once for the deadline and once in the lookup; the model has one reading for both. The child's lookup and its question for the time left have separate readings.
- `usedMemory_`, INFO text, latency histogram and slow log: INFO's text is a parameter.
- Floating point: scores are positions in a total order without NaN, printing and parsing of scores are parameters, and replay assumes that a printed score parses to itself. `stoi` is modelled by a scanner that returns 0 where the original throws.
- Integer widths: counts and lengths below 2^31 and deadlines without 64-bit overflow; the range test of the integer encoding is modelled.
- FNV-1a: the hash is an arbitrary function, `h & mask` is `h % capacity`. Skiplist levels are arbitrary in 1..32; probabilities are not modelled.
- Deadlines in the log: EXPIRE and PEXPIRE are logged as relative times and expiry is not logged, so replaying a log depends on the wall clock; the theorems about whole runs and their log are for runs without TTL commands. The snapshot's PEXPIRE lines are modelled, for times left that fit 64 bits.
- Failed reopening of the append-only file after the rename, and running with the file disabled.
- Destructors, move constructors and memory freeing. `HashTables.HashTable.FlushAll` drops the tables instead of freeing them.
- ServerLoops.ServerLoop: a subscriber is held by the identity of its connection instead of by a pointer, and the log is a sequence of commands; its bytes are `AofFiles.Writer`. Draining the connection buffer is `RespParser.DrainBuffer`.
- Executor.CmdZAdd: a value in the database holds a sorted set as its score dictionary, which determines the order; the sorted-set object with its skiplist is built from it for each command instead of being kept. The same holds for ZREM, ZRANK and ZRANGE.
- Commands.Exec: the order in which a call iterates a container and the raw page of SCAN are parameters of the command functions, for each call anew; `Executor.Execute` finds them out from the objects.
- HashTables.HashTable.Migrate: empties the slot before the relink loop instead of after it.
- Skiplists.Skiplist.RangeByRank: the walk has no null test, because it is proved never to run off the list.
- Bytes are characters: no definition depends on the range of a character, so the statements hold for bytes in particular.
- `expiryCount`, `memoryUsage` and the documented but absent RENAME and TYPE commands.
