# Verified models of a Bitcoin Cash node's data structures and protocols

This project models, in Dafny, the self-contained parts of a Bitcoin Cash full node whose correctness
rests on state or arithmetic, and proves what they promise. Each group of files can be read on its own.

- **Address manager** (`Addr*.dfy`, `Orders.dfy`). Five mutually redundant indexes of peer addresses.
  `AddrTables` has the invariant and the primitive table operations, `AddrMoves` and `AddrOps` the moves
  between the "new" and the "tried" table, `AddrRuns` every operation as a function of the state and the
  invariant over every run, `AddrEffects` and `AddrAdd` what each does to entries, slots and pending
  collisions, `AddrManager` the object itself, proved to compute those functions.
  `AddrCheck` is the manager's own consistency check, proved to pass exactly on the states it describes.
  `AddrSave`, `AddrSlots`, `AddrFile`, `AddrImage` and `AddrDisk` are the file image, its writer and its
  loader: what was saved loads to the same tables.
- **Coin caches** (`Coins.dfy`, `CoinsStack.dfy`, `Sums.dfy`). A stack of write-back caches of any height
  over a database, proved to act like plain maps.
- **Check queue** (`CheckQueue.dfy`). One master and any number of workers over one mutex and two
  condition variables, as a state machine with one step per critical section.
- **Wire framing** (`Framing.dfy`, `Wire.dfy`). The send queue with partial sends against the incremental
  message parser.
- **Partial Merkle trees** (`Merkle.dfy`, `MerkleBlock.dfy`, `MerkleUse.dfy`, `MerkleSizes.dfy`), following
  section "Partial Merkle branch format" of BIP 37: soundness, completeness, and the exact sizes.
- **Block roots and branches** (`BlockRoot.dfy`, `RootUnique.dfy`): the computation in constant space, and what a
  root and a branch prove about the transactions.
- **Block template selection** (`Miner.dfy`). The depth-first loop over the mempool.
- **256-bit arithmetic** (`Limbs.dfy`, `ArithUint.dfy`, `ArithShift.dfy`, `ArithDivide.dfy`,
  `Compact.dfy`). Limb loops against the integers they stand for, and the compact form of targets.
- **Rolling Bloom filter** (`BitPlanes.dfy`, `RollingBloom.dfy`, `RollingFilter.dfy`).
- **CashAddr** (`CashChecksum.dfy`, `CashAddr.dfy`, `CashPrefixes.dfy`): the linear checksum, the text form,
  and which texts have no defined result.
- **Block index** (`SkipHeights.dfy`, `BlockIndex.dfy`, `Chain.dfy`): skip list and the length of its walks,
  active chain, locators, forks.
- **Base58** (`Radix.dfy`, `Base58.dfy`).
- **Compact blocks** (`CompactBlocks.dfy`, `ReRequest.dfy`, `CompactSize.dfy`), the index coding of BIP 152
  down to the bytes.

`Prelude.dfy` has what several of these share.

Conventions. Code that updates fields or arrays is a class or a method with loops; each such method is
tied by its contract to a function of the old state, and the properties are lemmas about that function
or direct postconditions. Clocks, random draws, sockets and hash functions are arguments: a draw is any
value in range, a hash any function (injective for Merkle pairs), `send` any partial transfer. Table
dimensions and filter sizes are parameters. Times that are recorded by Good, Attempt and the collision
test are positive, as the node's clock is.

Where the code and its comments or expectations part, the model follows the code:

- `src/compactthin.cpp` cannot tell a short id of zero from no id at all, so an accepted compact block is
  refused when one of its short ids is zero, and only then (`CompactBlocks.ListComplete`,
  `CompactBlocks.ZeroIdFails`).
- `src/merkleblock.cpp` refuses more than 1,000,000 / 60 = 16666 transactions, although blocks of up to
  32,000,000 bytes are allowed elsewhere; a tree built for a larger block never extracts
  (`Merkle.ExtractsWithinLimit`). A failed extraction returns the zero hash, so soundness speaks of
  non-zero roots.
- The format comment in `src/merkleblock.h` counts at most 2N - 1 flag bits and guarantees a size of at most
  10 + ceil(32.25 * N) bytes. Nodes with a single child break the first (`MerkleSizes.FlagBoundExact`,
  `MerkleSizes.FourFlagsForTwoHashes`). The second is broken by such nodes in a tree of moderate size
  (`MerkleSizes.PromiseBroken`), and without any by the width of the counts in a large one
  (`MerkleSizes.PromiseBrokenByCounts`); `MerkleSizes.PromiseExact` says exactly when it holds.
- The comment on `MerkleComputation` in `src/consensus/merkle.cpp` allows 2^32 leaves. Its 32-bit count is enough
  exactly up to 2^31 (`BlockRoot.SweepFits`), which is what `BlockRoot.MerkleComputation` asks for.
- Multiplying a big integer by itself in place gives zero, because the object is cleared before its operand
  is read (`ArithUint.Multiply`); `ArithUint.SquareInPlaceExact` says for which numbers that is right.
- `cashaddr::Decode` takes eight values off a list it never checked for length. `CashPrefixes.UndefinedString`
  is a string with no value whose checksum holds; `CashPrefixes.DefinedUnlessOpen` and
  `CashPrefixes.UndefinedIfOpen` say which prefixes have any such string, and
  `CashPrefixes.NetworksDefined` that those of the three networks have none.
- `CAddrMan::Add_` reports a new entry also when that entry is dropped again at once for lack of a slot
  (`AddrAdd.AddUnknown`, `AddrAdd.NewYetDropped`).
- `CAddrMan::Check_` accepts three kinds of bad states: an entry with id 0 whose address is missing from the
  address index, because the lookup inserts a zero; a stale address in that index, which it never scans; and
  an id not yet given out. `AddrCheck.PassedCore` says that there are no others, `AddrCheck.BadStatesPass`
  has one of each.
- `CCoinsViewCache::SpendCoin` returns true for a cached entry that is already spent
  (`Coins.SpentStaysCached`).
- `CCoinsViewCache::AddCoin` throws on an unannounced overwrite only if the coin is in the cache; one that
  only the base holds is silently marked FRESH (`Coins.FreshOverBase`). `Coins.AddedExactly` gives the exact
  condition. The exception leaves the usage counter short of the old coin.
- In CashAddr text the separator may not come first, so an empty prefix never decodes
  (`CashAddr.EmptyPrefixRefused`), and a prefix with capitals never comes back as it was.
  `CashAddr.DecodeEncode` states when the round trip holds.
- The inventory prefiller cuts each step between prefilled transactions to sixteen bits. In a block with a
  step of 65536 or more the receiver accepts the compact block and rebuilds another list
  (`CompactBlocks.ReceivedList`, `CompactBlocks.WideStepLost`).
- In a re-request every number is written without a limit and refused above 0x02000000 when read, so the
  test of each for 32 bits never fails; and an index after 2^32 - 1 starts again from zero.
  `ReRequest.ReadsBack` states exactly which lists survive, `ReRequest.WideGapRefused` has one that does not.

## Model

| member | source | states |
|---|---|---|
| `AddrTables.InitialInv` | src/addrman.h:462-481 | A new manager has every index empty and satisfies the invariant: counters match, ids index their addresses and random positions both ways, every slot holds an entry at its hashed position, reference counts equal slots held. |
| `AddrTables.SwapRandomKeeps` | src/addrman.cpp:99-117 | Swapping two places of the random vector keeps the invariant and changes nothing in any entry but the recorded position. |
| `AddrTables.DeleteKeeps` | src/addrman.cpp:119-131 | Deleting an unreferenced new entry never fails its asserts, removes exactly that entry from all indexes and keeps the invariant. |
| `AddrTables.ClearNewKeeps` | src/addrman.cpp:133-146 | Clearing a slot empties it, drops its entry when that was the last reference, and leaves every other entry's data as it was. |
| `AddrMoves.DetachKeeps` | src/addrman.cpp:150-160 | Taking an entry out of all "new" buckets leaves it with no slot and a zero count, the rest consistent. |
| `AddrMoves.PromoteKeeps` | src/addrman.cpp:189-193 | Writing the freed "tried" slot makes the entry tried and restores the counters. |
| `AddrOps.EvictKeeps` | src/addrman.cpp:166-188 | Sending the occupant of a "tried" slot back to the "new" table keeps the invariant. |
| `AddrOps.EvictDisplaces` | src/addrman.cpp:166-188 | The evicted entry ends up in the one "new" slot its source selects, with one reference; only the entry that held that slot may lose a reference. |
| `AddrOps.MakeTriedKeeps` | src/addrman.cpp:148-194 | Moving an entry to "tried" keeps the invariant and overwrites exactly its own slot. |
| `AddrOps.MakeTriedEntries` | src/addrman.cpp:148-194 | What the move does to every entry: the moved one, the evicted one, the one that held the evicted entry's slot, and all others. |
| `AddrOps.CollisionsCarryOver` | src/addrman.cpp:247-251 | While "tried" slots stay occupied, every pending collision keeps an occupied target. |
| `AddrRuns.FindExact` | src/addrman.cpp:74-85 | Looking up an address finds an entry exactly when one has that address. |
| `AddrRuns.GoodKeeps` | src/addrman.cpp:196-258 | A success keeps the invariant, reuses no id and empties no "tried" slot. |
| `AddrEffects.GoodKnown` | src/addrman.cpp:196-258 | A success of a known service sets its last success and last try and clears its attempts. A tried entry stays in place. With the test asked for and the slot held, the id is only noted, and only below ten noted ones. Otherwise the entry takes its "tried" slot with no reference left, and the former holder is a "new" entry with one reference. |
| `AddrEffects.GoodUnknown` | src/addrman.cpp:196-213 | A success of an unknown service only changes the time of the last success of all. |
| `AddrRuns.AttemptKeeps` | src/addrman.cpp:328-348 | Recording an attempt keeps the invariant. |
| `AddrEffects.AttemptKnown` | src/addrman.cpp:328-348 | The attempt is dated, and counted once between two successes when asked to; nothing else changes. |
| `AddrRuns.ConnectedKeeps` | src/addrman.cpp:496-514 | Refreshing the time of a connected peer keeps the invariant. |
| `AddrEffects.ConnectedKnown` | src/addrman.cpp:496-514 | The time of the entry is set when it is more than twenty minutes old; nothing else changes. |
| `AddrEffects.OthersUntouched` | src/addrman.cpp:328-514 | For an unknown service, or a known address on another port, neither changes anything. |
| `AddrRuns.InsertKeeps` | src/addrman.cpp:304-324 | Placing an entry in the bucket its source selects keeps the invariant. |
| `AddrRuns.InsertTakesSlot` | src/addrman.cpp:306-318 | When the slot is free or its occupant gives way, the slot holds the entry, its count rises by one, and only the old occupant may change. |
| `AddrRuns.InsertStaysOut` | src/addrman.cpp:306-324 | When the occupant stays, an entry without any slot is forgotten again and any other state is left untouched. |
| `AddrRuns.AddKeeps` | src/addrman.cpp:260-326 | Adding an address keeps the invariant, reuses no id and leaves the "tried" table and the pending collisions as they are. |
| `AddrEffects.AddKnown` | src/addrman.cpp:260-326 | A known address is not reported as new. Its entry gets the newer time and the union of the service bits, and takes the slot its source selects exactly when the news is newer, the entry is not tried, has fewer than eight references, the draw allows it and the slot gives way; besides it only the entry that gave way may change. |
| `AddrEffects.AddUnroutable` | src/addrman.cpp:262-263 | An address that cannot be routed is ignored. |
| `AddrAdd.AddUnknown` | src/addrman.cpp:260-326 | An unknown routable address is always reported as new; it is known afterwards exactly when its slot is empty, or held by a terrible entry or one with another slot, and otherwise nothing changes in entries and slots. |
| `AddrAdd.NewYetDropped` | src/addrman.cpp:318-325 | With one slot, a second address is reported as new and not kept. |
| `AddrRuns.ShuffleKeeps` | src/addrman.cpp:475-494 | The partial shuffle of the random vector keeps the invariant. |
| `AddrRuns.PendingMeetsOccupant` | src/addrman.cpp:520-570 | A pending collision that is still known always has an occupied target slot with a known tried entry in it. |
| `AddrRuns.ResolveOneKeeps` | src/addrman.cpp:522-569 | Resolving one collision, with any readings of the clock, keeps the invariant and empties no "tried" slot. |
| `AddrEffects.ResolvedOne` | src/addrman.cpp:522-569 | An unknown or invalid id is forgotten. The holder of the slot stays, and the id is forgotten, when it had a success within four hours. If it was tried within four hours, and that more than a minute ago, the id takes its place in "tried", and it goes back to "new". Otherwise the id stays pending and nothing changes. |
| `AddrRuns.ResolveAllKeeps` | src/addrman.cpp:520-570 | So does resolving all of them, in the order of the set. |
| `AddrEffects.ResolvedAll` | src/addrman.cpp:520-570 | Resolving all of them passes through one state per id, each the outcome above of the state before. |
| `AddrRuns.StepKeeps` | src/addrman.cpp:196-597 | Every operation, with any draws and positive times, keeps the invariant and leaves every occupied "tried" slot occupied. |
| `AddrRuns.RunKeeps` | src/addrman.cpp:196-597 | The same over every sequence of operations from any state with the invariant. |
| `AddrManager.AddrMan.SwapRandom` | src/addrman.cpp:99-117 | The in-place code computes the swap above. |
| `AddrManager.AddrMan.Delete` | src/addrman.cpp:119-131 | The in-place code computes the deletion above. |
| `AddrManager.AddrMan.ClearNew` | src/addrman.cpp:133-146 | The in-place code computes the clearing above. |
| `AddrManager.AddrMan.LeaveNewBuckets` | src/addrman.cpp:150-160 | The bucket loop removes the entry from all its slots and its count reaches zero with the last. |
| `AddrManager.AddrMan.MakeTried` | src/addrman.cpp:148-194 | The in-place code computes the move to "tried"; its asserts hold. |
| `AddrManager.AddrMan.Find` | src/addrman.cpp:74-85 | Returns an entry exactly when the address is known. |
| `AddrManager.AddrMan.FindNewBucket` | src/addrman.cpp:225-240 | The randomised search finds a bucket that holds the entry; the "no bucket found" exit is never taken. |
| `AddrManager.AddrMan.Good` | src/addrman.cpp:196-258 | The in-place code equals the operation with the effects above and keeps the object valid. |
| `AddrManager.AddrMan.Attempt` | src/addrman.cpp:328-348 | The in-place code equals the operation with the effects above. |
| `AddrManager.AddrMan.Connected` | src/addrman.cpp:496-514 | The in-place code equals the operation with the effects above. |
| `AddrManager.AddrMan.Create` | src/addrman.cpp:87-97 | A new entry gets the next id, is indexed by its address and stands last in the random vector. |
| `AddrManager.AddrMan.Insert` | src/addrman.cpp:304-324 | The in-place code equals the insertion above. |
| `AddrManager.AddrMan.Add` | src/addrman.cpp:260-326 | The in-place code equals the operation with the effects above, including the early exits; a further reference is tried when the draw is a multiple of two to the number of references. |
| `AddrEffects.TerribleExactly` | src/addrman.cpp:32-50 | When an entry counts as terrible: times in the future, too old or missing, or too many failures, but never in the minute after a try. |
| `AddrManager.AddrMan.GetAddr` | src/addrman.cpp:475-494 | Returns, in the order of the shuffled vector, the entries of a front part of it that are not terrible, none twice. That part ends before the end only when 23 per cent of the entries, or 2500, are reported; more never are. |
| `AddrManager.AddrMan.ResolveOne` | src/addrman.cpp:522-569 | One round of the loop equals the resolution with the outcomes above; its branch for a slot that is no longer occupied is unreachable. |
| `AddrManager.AddrMan.ResolveCollisions` | src/addrman.cpp:520-570 | The loop over the pending set computes the resolution above, id by id in increasing order. |
| `AddrManager.AddrMan.SelectTriedCollision` | src/addrman.cpp:572-597 | The draw picks the pending id at its place in the set; one that is unknown is forgotten, for any other the entry in its slot is returned, a tried entry of the manager. Id -1 is never looked up. |
| `AddrCheck.CheckEntry` | src/addrman.cpp:406-430 | The checks of one entry pass exactly when its flags, count, address, position and times are right, and otherwise name the one that is not. |
| `AddrCheck.CheckEntries` | src/addrman.cpp:406-430 | All entries pass exactly when each does; the collected sets are the tried ids and the new ids with their counts. |
| `AddrCheck.CheckTried` | src/addrman.cpp:437-449 | The scan of the "tried" table passes and leaves nothing over exactly when every slot and every tried entry agree. |
| `AddrCheck.CheckNew` | src/addrman.cpp:451-462 | The countdown over the "new" table ends at nothing exactly when every count equals the slots held. |
| `AddrCheck.Check` | src/addrman.cpp:398-472 | The check returns 0 exactly when everything it asks for holds, and otherwise the code of a fault that is there; its lookups leave missing addresses of entries in the address index with id 0. |
| `AddrCheck.InvPasses` | src/addrman.cpp:398-472 | Every state with the invariant passes the check (for a non-zero key). |
| `AddrCheck.RunPasses` | src/addrman.cpp:398-472 | The check passes after every run of operations. |
| `AddrCheck.PassedCore` | src/addrman.cpp:398-472 | Conversely, a state that passes keeps the invariant (collisions apart) exactly when there are as many addresses as entries, entry 0 has its address, and every id is below the next one. |
| `AddrCheck.PassedThenCore` | src/addrman.cpp:422 | With the index as the passed check leaves it, entry 0 has its address, so only the other two conditions remain. |
| `AddrCheck.BadStatesPass` | src/addrman.cpp:398-472 | Each of the three is needed: three states that pass and break the invariant. |
| `AddrFile.NewFits` | src/addrman.h:377-379 | The number of new entries never exceeds the loader's limit. |
| `AddrFile.TriedFits` | src/addrman.h:381-383 | The number of tried entries never exceeds the loader's limit. |
| `AddrFile.WriteOrderOk` | src/addrman.h:319-339 | The entries are written once each, the new ones first, and their numbers equal the counters, so the writer's asserts hold. |
| `AddrImage.NameIsIndex` | src/addrman.h:319-331 | The index recorded for a new entry is its place in the order of writing. |
| `AddrImage.ImageIs` | src/addrman.h:307-354 | The whole image in terms of that order. |
| `AddrSlots.FullSlot` | src/addrman.h:426-442 | Reading the index written for a slot puts the entry back into that slot and raises its count. |
| `AddrSlots.EntriesRestored` | src/addrman.h:385-442 | Every entry comes back with its service, time, service bits, source, last success and attempts, its table side and its count of slots; the times of its last try and last counted attempt are zero. |
| `AddrSlots.SlotsRestored` | src/addrman.h:405-442 | Every slot of both tables comes back with the same entry in it; no tried entry is lost. |
| `AddrImage.LoadSaved` | src/addrman.h:307-442 | Loading what was saved is within all limits and gives the same tables with ids renumbered in the order of writing. |
| `AddrFile.ReloadedInv` | src/addrman.h:357-460 | The loaded manager satisfies the whole invariant. |
| `AddrImage.LoadedInv` | src/addrman.h:444-454 | Pruning after the load drops nothing. |
| `AddrDisk.ImageHead` | src/addrman.h:311-319 | The head of the image: version 1, a key of 32 bytes, the counts, and the number of buckets with bit 30 turned over. |
| `AddrDisk.ImageEntries` | src/addrman.h:320-341 | Then service, time, service bits, source, last success and attempts of every entry, the new ones first, each kind by id. |
| `AddrDisk.Serialize` | src/addrman.h:307-354 | The writing loops produce that image. |
| `AddrDisk.WriteEntries` | src/addrman.h:319-339 | One pass over the map writes the entries of one kind; the count is never exceeded. |
| `AddrDisk.ReadNews` | src/addrman.h:385-403 | The first loop of the loader rebuilds map, address index and random vector for the new entries. |
| `AddrDisk.ReadTrieds` | src/addrman.h:405-424 | The second loop adds tried entries and counts the lost ones. |
| `AddrDisk.ReadBuckets` | src/addrman.h:426-442 | The third loop restores the bucket slots. |
| `AddrDisk.Prune` | src/addrman.h:444-454 | The last loop drops entries left without a slot. |
| `AddrDisk.Unserialize` | src/addrman.h:357-460 | The loader fails exactly on a bad key size or counts above the limits, and otherwise computes the loaded state. |
| `AddrFile.ReloadedIs` | src/addrman.h:307-460 | The reloaded state: every entry with the fields above, no other entry, every slot of both tables with the same entry in it, the same counts, nothing pending. |
| `AddrDisk.SaveAndLoad` | src/addrman.h:307-460 | A valid manager saved and loaded is a valid manager in that state. |
| `Coins.FetchedKeeps` | src/coins.cpp:43-58 | Fetching a coin into a cache changes no view and keeps the flags truthful. |
| `Coins.AddedKeeps` | src/coins.cpp:69-88 | Adding a coin updates the view at that outpoint only and keeps the flags truthful. |
| `Coins.AddedExactly` | src/coins.cpp:69-88 | Where nothing is thrown, the flags stay truthful exactly when an overwrite was announced or the base does not show the coin. |
| `Coins.FreshOverBase` | src/coins.cpp:69-88 | An unannounced overwrite in an empty cache of a coin the base holds is marked FRESH wrongly. |
| `Coins.SpentKeeps` | src/coins.cpp:101-115 | Spending removes the coin from the view and keeps the flags truthful. |
| `Coins.SpentStaysCached` | src/coins.cpp:101-115 | A spent coin of the base stays in the cache, so that spending it again finds an entry. |
| `Coins.CreatedAndSpent` | src/coins.cpp:69-115 | A coin created and spent in one cache leaves the cache as it was. |
| `Coins.UncachedKeeps` | src/coins.cpp:211-218 | Dropping a clean entry changes no view. |
| `Coins.FetchUncache` | src/coins.cpp:43-218 | Exactly the entries with nothing to write are dropped; looking up and dropping leave the cache as it was. |
| `Coins.NeverMisapplied` | src/coins.cpp:148-202 | With truthful flags in parent and child, the "FRESH flag misapplied" error cannot arise. |
| `Coins.MergedKeeps` | src/coins.cpp:148-202 | Writing a child's entries into its parent makes the parent show exactly what the child showed, with truthful flags. |
| `Coins.CreatedAndSpentBelow` | src/coins.cpp:148-202 | A coin that reached the parent as FRESH and comes back spent leaves no entry there. |
| `Coins.WrittenIsOverlay` | src/txdb.cpp:108-132 | Writing a cache into the database makes the database show what the cache showed. |
| `CoinsStack.CoinsViewCache.FetchCoin` | src/coins.cpp:43-58 | Fetching through any number of layers leaves every view as it was. |
| `CoinsStack.CoinsViewCache.GetCoin` | src/coins.cpp:60-67 | Returns what the plain map shows. |
| `CoinsStack.CoinsViewCache.HaveCoin` | src/coins.cpp:128-131 | True exactly when the plain map has the coin. |
| `CoinsStack.CoinsViewCache.AddCoin` | src/coins.cpp:69-88 | The plain map gains the coin unless it is unspendable, and the usage counter stays exact, as long as an overwrite of a shown coin is announced. Otherwise it throws exactly when the coin is cached, leaving the counter short of it, and else marks the entry FRESH wrongly. |
| `CoinsStack.CoinsViewCache.AddCoins` | src/coins.cpp:90-99 | All spendable outputs of a transaction are added, in order, and nothing else changes. |
| `CoinsStack.OutputsShown` | src/coins.cpp:90-99 | The view then shows exactly the spendable outputs, each as a coin of that height, and everything else as before. |
| `CoinsStack.CoinsViewCache.SpendCoin` | src/coins.cpp:101-115 | The plain map loses the coin, which is handed out; true is returned exactly when the cache or its base has an entry, so also for a coin that is cached and already spent, and for no other that is not shown. |
| `CoinsStack.CoinsViewCache.Uncache` | src/coins.cpp:211-218 | No view changes. |
| `CoinsStack.CoinsViewCache.BatchWrite` | src/coins.cpp:148-202 | The cache comes to show what its child showed; usage stays the exact sum. |
| `CoinsStack.CoinsViewCache.Flush` | src/coins.cpp:204-209 | The base comes to show what this cache shows, every other view is unchanged, and the cache is empty. |
| `CoinsStack.CoinsViewCache.Run` | src/coins.cpp:43-218 | Any run on the top of a stack of any height acts on all views like the same run on plain maps. |
| `CoinsStack.TopIsPlainMap` | src/coins.cpp:43-218 | The top view after a run is the plain map after the same additions and spends. |
| `CoinsStack.OnlyFlushReachesBelow` | src/coins.cpp:204-209 | Without a flush no view below the top changes. |
| `CheckQueue.TakeBatch` | src/checkqueue.h:105-117 | The batch is the requested number of checks from the back of the queue, last one first; all others stay in order. |
| `CheckQueue.RunBatch` | src/checkqueue.h:118-125 | After a failure the remaining checks of a batch are skipped; the result is their conjunction. |
| `CheckQueue.BatchShare` | src/checkqueue.h:105-110 | A batch is the largest number up to the cap of which every thread and idle helper, and one more, could take as many; at least one. |
| `CheckQueue.BatchTaken` | src/checkqueue.h:105-117 | A thread that finds work leaves the front of the queue and takes that many checks from its back. |
| `CheckQueue.InitialInv` | src/checkqueue.h:30-66 | A new queue satisfies the protocol invariant. |
| `CheckQueue.StepKeeps` | src/checkqueue.h:69-158 | Every critical section, of any thread in any order and with any spurious wake-up, keeps it: unfinished checks are those queued plus those in batches. When Wait returns, it returns the conjunction of all checks added since it last did and leaves an idle queue. |
| `CheckQueue.RunKeeps` | src/checkqueue.h:69-158 | So every reachable state of every interleaving satisfies it. |
| `CheckQueue.ReturnIsVerdict` | src/checkqueue.h:91-100 | When the master returns, the verdict is the conjunction of all checks added since the last return. |
| `CheckQueue.FreshIsIdle` | src/checkqueue.h:164-168 | With nothing added and the master outside, the queue is idle. |
| `CheckQueue.SleepingMasterIsServed` | src/checkqueue.h:80-104 | While the master sleeps un-notified some worker runs a non-empty batch. |
| `CheckQueue.NeverStuck` | src/checkqueue.h:80-104 | Inside Wait some thread can always run. |
| `CheckQueue.StepAttended` | src/checkqueue.h:146-158 | While checks are queued and a worker sleeps, some other worker is awake: no step loses a wake-up. |
| `CheckQueue.RunAttended` | src/checkqueue.h:69-158 | So it is in every reachable state of every interleaving. |
| `CheckQueue.StepsUseUpWork` | src/checkqueue.h:69-127 | Every step of a thread that does not return uses up work, and a spurious wake-up never adds any. |
| `CheckQueue.WaitReturns` | src/checkqueue.h:140-143 | In any schedule, with any spurious wake-ups in between, threads take at most as many other steps before Wait returns as there was work at the start. |
| `Framing.HeaderRoundTrip` | src/net.cpp:2244-2252 | A header read back gives the payload size, and header and payload together the message, that were written. |
| `Framing.HeaderLayout` | src/protocol.h:42-49 | The header byte by byte: magic, command, size with its lowest byte first, checksum. |
| `Framing.ReadHeaderAbsorbs` | src/net.cpp:564-593 | Reading header bytes absorbs them in order, and fails only on a complete header that announces too much. |
| `Framing.ReadDataAbsorbs` | src/net.cpp:595-610 | Reading payload bytes absorbs them in order; the buffer never exceeds the announced size. |
| `Framing.FirstMessage` | src/net.cpp:564-610 | A complete received message at the head of a stream of messages is its first one, intact, and the rest of the stream is the others. |
| `Wire.SendNode.Enqueue` | src/net.cpp:2259-2268 | A pushed message adds exactly its bytes to the queue; the size counter is the total queued. |
| `Wire.SendNode.PushMessage` | src/net.cpp:2240-2276 | Nothing already queued or sent changes; a closed socket drops the message. |
| `Wire.SendNode.SocketSendData` | src/net.cpp:629-689 | Under any partial sends the bytes go out in order, the offset stays inside the first buffer and neither assert fails. |
| `Wire.RecvNode.ReceiveMsgBytes` | src/net.cpp:497-535 | Every byte of a chunk is absorbed in order, and "complete" is reported exactly when a message was completed. |
| `Wire.IntactPrefix` | src/net.cpp:497-610 | What a list of complete messages absorbed determines them. |
| `Wire.Delivered` | src/net.cpp:497-689 | For any chunking, completed messages are an intact in-order prefix of those pushed, each payload of exactly the announced size. |
| `Wire.NeverRejected` | src/net.cpp:564-593 | A stream of messages within the limit is never rejected. |
| `Wire.Session` | src/net.cpp:497-689 | In any interleaving of pushing, sending and delivering the parser never gives up, and once nothing is in flight everything pushed has arrived. |
| `Merkle.NodesDiffer` | src/merkleblock.cpp:39-57 | Different nodes of a level have different hashes (injective pair hash, distinct transactions). |
| `Merkle.SoundBelow` | src/merkleblock.cpp:77-113 | Below a node: a traversal that arrives at the node's true hash found only true transactions. |
| `Merkle.Sound` | src/merkleblock.cpp:77-162 | For any bits and hashes, if extraction returns the true (non-zero) root then every extracted pair is that block's transaction at that index. |
| `Merkle.CompleteBelow` | src/merkleblock.cpp:59-113 | Below a node: extraction consumes exactly what building wrote, finds exactly the matched transactions, and fails exactly where two children that are walked have the same hash. |
| `Merkle.BuiltExtracts` | src/merkleblock.cpp:59-162 | For any transactions, also repeated ones: a built tree within the limit gives exactly the matched transactions in order, and the true root unless it has such children. |
| `MerkleUse.ClashMeans` | src/merkleblock.cpp:99-106 | It has such children exactly when some node with a match below has two children of the same hash. |
| `Merkle.Complete` | src/merkleblock.cpp:59-162 | For distinct transactions a built tree, also after its trip through bytes, extracts to the true root and exactly the matched transactions in order. |
| `MerkleUse.RefusedUnseen` | src/merkleblock.cpp:131-145 | Trees with no or too many transactions, more hashes than transactions or fewer bits than hashes give nothing. |
| `MerkleUse.UsedUp` | src/merkleblock.cpp:152-161 | A tree that extracts is used up: with one more hash, or eight more bits, it no longer extracts. |
| `MerkleUse.NothingMissing` | src/merkleblock.cpp:77-161 | Nor does it without its last hash, or with so many bits cut off that a byte is lost. |
| `Merkle.ExtractsWithinLimit` | src/merkleblock.cpp:131-162 | A tree built for a block of distinct transactions with a non-zero root extracts exactly when there are at most 16666 of them. |
| `Merkle.SizeBounds` | src/merkleblock.h:31-40 | At most n hashes, and at most 1 + matches * height. |
| `MerkleSizes.FlagCount` | src/merkleblock.h:47 | The number of flag bits is twice the number of hashes less one, plus the number of nodes with a match below and a single child. |
| `MerkleSizes.FlagBoundExact` | src/merkleblock.h:47 | So the stated bound of 2N - 1 bits holds exactly when there is no such node. |
| `MerkleSizes.FourFlagsForTwoHashes` | src/merkleblock.h:47 | Three transactions with the last one matched give four flag bits for two hashes. |
| `MerkleSizes.HashCount` | src/merkleblock.h:35-40 | The number of hashes, as a function of the matches alone. |
| `MerkleSizes.PromiseExact` | src/merkleblock.h:31-48 | From the matches alone, when the encoded size stays within the guaranteed 10 + ceil(32.25 * N): always below 253 hashes, never above 65535, and in between exactly while the matched nodes with a single child are at most 17, or 1 once the flag bytes reach 253, plus twice what the number of hashes lacks to a multiple of four. |
| `MerkleSizes.PromiseOfExtractable` | src/merkleblock.h:31-48 | For at most 16666 transactions it does so exactly when there are fewer than 253 flag bytes or few enough such nodes. |
| `MerkleSizes.PromiseKeptWhenSmall` | src/merkleblock.h:31-48 | The guarantee holds for every tree of fewer than 253 hashes. |
| `MerkleSizes.PromiseBroken` | src/merkleblock.h:31-48 | 1025 transactions, all matched, encode to one byte more than guaranteed. |
| `MerkleSizes.PromiseBrokenByCounts` | src/merkleblock.h:31-48 | 65536 transactions, all matched, have no node with a single child and encode to two bytes more than guaranteed. |
| `MerkleBlock.Pack` | src/merkleblock.h:99-103 | Bit p of the byte form is flag p; padding bits are zero. |
| `MerkleBlock.Unpack` | src/merkleblock.h:92-98 | The flags read back are the bits of the bytes. |
| `MerkleBlock.PartialMerkleTree.TraverseAndBuild` | src/merkleblock.cpp:59-75 | The recursion appends the bits and hashes of the depth-first encoding. |
| `MerkleBlock.PartialMerkleTree.TraverseAndExtract` | src/merkleblock.cpp:77-113 | The recursion consumes them and reports failure exactly as the traversal function. |
| `MerkleBlock.PartialMerkleTree.ExtractMatches` | src/merkleblock.cpp:131-162 | The checks before and after the traversal give the root or zero as the specification does; a tree that failed once never gives a root again. |
| `MerkleBlock.RoundTrip` | src/merkleblock.cpp:59-162 | Building, packing, unpacking and extracting returns the true root and the matched transactions. |
| `BlockRoot.AddLeaf` | src/consensus/merkle.cpp:61-86 | One more leaf: the last node of each level with an odd number of nodes is kept, the branch grows with it, and the flag for repeated subtrees stays exact. |
| `BlockRoot.Sweep` | src/consensus/merkle.cpp:87-123 | The final sweep over the last branch arrives at the root; its count stays within 32 bits. |
| `BlockRoot.MerkleComputation` | src/consensus/merkle.cpp:42-127 | The computation in constant space gives the root of the tree, the branch of the chosen leaf, and whether two whole subtrees side by side are equal. |
| `BlockRoot.SweepFits` | src/consensus/merkle.cpp:41 | The count at which the sweep ends fits 32 bits exactly up to 2^31 leaves. |
| `RootUnique.RootDetermines` | src/consensus/merkle.cpp:5-39 | No two lists without repeated subtrees have the same root at the same height. |
| `RootUnique.HeightMatters` | src/consensus/merkle.cpp:5-39 | Without the height they may: one leaf can be the hash of two. |
| `RootUnique.EqualChildren` | src/consensus/merkle.cpp:33-38 | Two children with the same hash, even an incomplete right one, are caught by the check for repeated subtrees. |
| `RootUnique.ComputeRootFromBranch` | src/consensus/merkle.cpp:141-152 | The loop combines leaf and branch as the position's bits say. |
| `RootUnique.BranchLeads` | src/consensus/merkle.cpp:135-152 | A leaf and its computed branch lead to the node above it. |
| `RootUnique.BranchExact` | src/consensus/merkle.cpp:135-152 | A leaf and a branch of the tree's height lead to the root exactly when they are the true ones of that position. |
| `Miner.MaxBlockSigopsMonotone` | src/consensus/consensus.h:22-24 | A larger block never has a smaller signature-operation limit. |
| `Miner.MaxBlockSigopsPerMillion` | src/consensus/consensus.h:22-24 | The limit is 20000 for every million bytes begun. |
| `Miner.IncludeKeeps` | src/miner.cpp:194-226 | Adding an accepted transaction keeps: no duplicates, parents first, sizes within limits. |
| `Miner.PushParents` | src/miner.cpp:176-188 | On the first visit the transaction and its missing parents are pushed, in that order. |
| `Miner.PushKeeps` | src/miner.cpp:176-191 | What is met waits on the stack below its missing parents, within the turn of the entry it was reached from. |
| `Miner.SecondTimeDoomed` | src/miner.cpp:172-191 | A transaction met again on top of the stack with a parent missing has an ancestor that was refused. |
| `Miner.Visit` | src/miner.cpp:150-191 | One look at a transaction: passed over if it is in the block, dropped by the rule on negative deltas, put under its missing parents the first time, passed over without them the second, or ready; a measure goes down each time. |
| `Miner.Consider` | src/miner.cpp:193-218 | Accepted exactly when size, finality and signature-operation budgets allow. The loop ends exactly on a refusal for size within 100 bytes of the limit or after more than 50 counted ones, or on one for signature operations within two of theirs; refusals for size within 1000 bytes of the limit are counted. |
| `Miner.SelectTransactions` | src/miner.cpp:114-227 | The loop ends on every mempool; the selection has no duplicates, lists parents first, stays within the limits, and adds in the turn of each entry of the score order only that entry and its ancestors. On a mempool without cycles, unless the loop gave up for a stated reason, every transaction is added by the end of its turn, or it or an ancestor was refused by a rule or budget at a prefix of the selection. |
| `ArithUint.Add` | src/arith_uint256.h:135-145 | Exact sum modulo 2 to the width, also of a number with itself; no 64-bit intermediate wraps. |
| `ArithUint.Negate` | src/arith_uint256.h:77-84 | Exact negation modulo 2 to the width. |
| `ArithUint.Subtract` | src/arith_uint256.h:147-151 | Exact difference modulo 2 to the width, also of a number with itself. |
| `ArithUint.Increment` | src/arith_uint256.h:173-180 | Adds one modulo 2 to the width. |
| `ArithUint.Decrement` | src/arith_uint256.h:190-197 | Subtracts one modulo 2 to the width. |
| `ArithUint.Multiply32` | src/arith_uint256.cpp:56-65 | Exact product with a 32-bit number modulo 2 to the width. |
| `ArithUint.Multiply` | src/arith_uint256.cpp:68-81 | Exact product modulo 2 to the width, with no intermediate wrapping, unless the operand is the object itself: then the result is zero. |
| `ArithUint.SquareInPlaceExact` | src/arith_uint256.cpp:68-81 | Zero is the right square exactly when the lower half of the bits is zero; for one it is not. |
| `ArithShift.ShiftLeft` | src/arith_uint256.cpp:22-36 | Exact multiplication by a power of two modulo 2 to the width, for any shift. |
| `ArithShift.ShiftRight` | src/arith_uint256.cpp:39-53 | Exact division by a power of two, rounded down, for any shift. |
| `ArithShift.CompareTo` | src/arith_uint256.cpp:110-119 | Orders limb arrays as the numbers they stand for. |
| `ArithShift.Bits` | src/arith_uint256.cpp:172-184 | The length of the number in bits. |
| `ArithDivide.Divide` | src/arith_uint256.cpp:84-107 | Shift-and-subtract division gives the exact floor quotient, also of a number by itself; it fails, leaving zero, exactly on a zero divisor. |
| `Compact.GetCompact` | src/arith_uint256.cpp:224-245 | The word computed from the limbs is the compact code of the number; it fits in 32 bits and its asserts hold. |
| `Compact.SetCompact` | src/arith_uint256.cpp:204-222 | The limbs set from a word hold its value, and the flags are its sign and overflow. |
| `Compact.DecodeEncode` | src/arith_uint256.cpp:204-245 | Decoding a code gives the number with all but its leading bytes zeroed, the sign, and no overflow. |
| `Compact.CompactKeepsOrder` | src/arith_uint256.cpp:204-245 | The trip through the compact form never exceeds the number, loses less than one part in 2^15, and is monotone. |
| `Compact.EncodeAgain` | src/arith_uint256.cpp:204-245 | Encoding the decoded number gives the same code. |
| `Compact.OverflowExact` | src/arith_uint256.cpp:217-220 | The overflow flag is set exactly when the value does not fit in 256 bits. |
| `BitPlanes.PutGeneration` | src/bloom.cpp:276-278 | Writing the two bits of a position stores the generation number there and changes no other position. |
| `BitPlanes.WipeGeneration` | src/bloom.cpp:260-268 | The masked words hold 0 where they held the wiped generation and are unchanged elsewhere. |
| `BitPlanes.EitherBit` | src/bloom.cpp:294-297 | A position reads as set exactly when its generation number is not 0. |
| `RollingBloom.InsertedKeeps` | src/bloom.cpp:252-280 | The marks of the d-th last key are at most as many generations old as its age. |
| `RollingBloom.PositionIs` | src/bloom.cpp:273-279 | The low six bits of a hash choose the bit, the rest of it the pair of words. |
| `RollingBloom.RecentKeysFound` | src/bloom.h:123-124 | After any insertions each of the last nElements keys is contained. |
| `RollingBloom.SetExactlyByWindow` | src/bloom.cpp:252-280 | A position is set exactly when one of the keys in the current window of two to three generations marks it. |
| `RollingFilter.RollingBloomFilter.Reset` | src/bloom.cpp:318-326 | A reset filter holds nothing. |
| `RollingFilter.RollingBloomFilter.Roll` | src/bloom.cpp:254-270 | Starting a generation wipes exactly the positions that hold its number. |
| `RollingFilter.RollingBloomFilter.Insert` | src/bloom.cpp:252-280 | The word loops refine insertion into one generation number per position. |
| `RollingFilter.RollingBloomFilter.Contains` | src/bloom.cpp:288-300 | True for each of the last nElements keys, and exactly when all positions of the key are set. |
| `CashChecksum.AdvanceLinear` | src/cashaddr.cpp:101-136 | One step of the register is linear over exclusive or. |
| `CashChecksum.AdvanceInjective` | src/cashaddr.cpp:101-136 | One step of the register loses nothing: different words step to different words. |
| `CashChecksum.RegisterLinear` | src/cashaddr.cpp:42-147 | So is the whole computation, in start value and sequence together. |
| `CashChecksum.CheckValuesWork` | src/cashaddr.cpp:183-196 | The computed check values make the checksum zero. |
| `CashChecksum.CheckValuesUnique` | src/cashaddr.cpp:183-196 | They are the only eight values that do. |
| `CashChecksum.BurstDetected` | src/cashaddr.cpp:42-147 | A change confined to eight consecutive values of a sequence of any length changes the checksum. |
| `CashChecksum.PolyMod` | src/cashaddr.cpp:42-147 | The loop computes that register. |
| `CashChecksum.CreateChecksum` | src/cashaddr.cpp:183-196 | The loop reads out the check values; appended they verify. |
| `CashAddr.CharsetIs` | src/cashaddr.cpp:15 | The value of each symbol is its place in the alphabet. |
| `CashAddr.DecodeEncode` | src/cashaddr.cpp:205-297 | Decoding an encoded address gives prefix and payload back exactly when the prefix is a non-empty word of small letters. |
| `CashAddr.EmptyPrefixRefused` | src/cashaddr.cpp:244-249 | With an empty prefix the encoded text is always refused. |
| `CashAddr.EncodeDecode` | src/cashaddr.cpp:205-297 | Whatever decodes is, in small letters, the encoding of what it decoded to. |
| `CashAddr.CorruptionRefused` | src/cashaddr.cpp:221-297 | At most eight consecutive changed characters after the colon are refused. |
| `CashAddr.Encode` | src/cashaddr.cpp:205-216 | The loop spells the payload and its check values after the prefix. |
| `CashAddr.Scan` | src/cashaddr.cpp:223-259 | The scan accepts exactly the well-formed strings and finds the separator. |
| `CashAddr.Decode` | src/cashaddr.cpp:221-297 | The whole decoder equals its declarative description, with a separate outcome where the code takes eight values off a shorter list. |
| `CashPrefixes.CompletedBy` | src/cashaddr.cpp:42-147 | A sequence can be completed to checksum zero by m < 8 values exactly when its checksum over m zeros is below 32 to the m. |
| `CashPrefixes.DefinedUnlessOpen` | src/cashaddr.cpp:277-297 | That happens exactly for a well-formed string of fewer than eight values whose checksum holds; and the prefix alone decides, since there is none with a prefix that no short list completes. |
| `CashPrefixes.UndefinedIfOpen` | src/cashaddr.cpp:277-297 | With any other prefix some string has no defined result. |
| `CashPrefixes.UndefinedString` | src/cashaddr.cpp:277-297 | "anutbtuna:" is such a string: its checksum holds with no value at all. |
| `CashPrefixes.NetworksDefined` | src/chainparams.cpp:165 | With the prefix of the main network, or those of the test and regression networks at lines 276 and 646, every string has a defined result. |
| `BlockIndex.Block.GetAncestor` | src/chain.cpp:93-116 | The skip-list walk returns the same entry as stepping back one by one, for every block and height; null outside the range. With every skip pointer set, it takes at most 110 steps below height 2^18. |
| `SkipHeights.StepsBound` | src/chain.cpp:83-116 | A bound on the steps between any two heights, from the bit in which they part and the ones below it. |
| `SkipHeights.StepsAtMost110` | src/chain.cpp:86-90 | Among the first 2^18 heights no walk takes more than 110 steps, as the comment says. |
| `SkipHeights.StepsQuadratic` | src/chain.cpp:83-116 | From a height of b bits the walk takes at most b * b / 4 + 2 * b steps. |
| `BlockIndex.Block.BuildSkip` | src/chain.cpp:123-127 | The skip pointer becomes the ancestor at the skip height, and all pointers stay right. |
| `Chain.ActiveChain.SetTip` | src/chain.cpp:15-30 | From any earlier tip, the array becomes the path from the first block to the new tip. |
| `Chain.ActiveChain.GetLocator` | src/chain.cpp:32-58 | The list is, in order, the ancestors at the locator heights. |
| `Chain.LocatorShape` | src/chain.cpp:32-58 | It goes strictly down from the start to the first block and has at most 12 + floor(log2(height)) entries. |
| `Chain.LocatorIs` | src/chain.cpp:39-55 | Its heights: one less each time for ten entries, then going back twice as far each time, and the first block. |
| `Chain.ActiveChain.FindFork` | src/chain.cpp:60-69 | The highest entry of the path that is in the chain, or null when there is none. |
| `Chain.LastCommonAncestor` | src/chain.cpp:129-146 | The highest entry both blocks descend from, or null exactly when they have different first blocks; the final assert always holds. |
| `Base58.SymbolIs` | src/base58.cpp:18-19 | The value of each symbol is its place in the alphabet. |
| `Base58.RoomFor58` | src/base58.cpp:82-83 | The 138/100 estimate always leaves room for the number. |
| `Base58.RoomFor256` | src/base58.cpp:34-36 | So does the 733/1000 estimate. |
| `Base58.MultiplyAdd` | src/base58.cpp:85-98 | The carry loop multiplies the buffer and adds a digit; the carry left over is zero. |
| `Base58.EncodeBase58` | src/base58.cpp:72-110 | The text is one "1" per leading zero byte and the digits of the number, without leading zeros. |
| `Base58.DecodeBase58` | src/base58.cpp:22-70 | Accepts exactly alphabet characters with white space around, and gives the bytes of the number. |
| `Base58.DecodeEncode` | src/base58.cpp:22-110 | Decoding an encoding gives the bytes back. |
| `Base58.EncodeDecode` | src/base58.cpp:22-110 | Every string over the alphabet decodes, to bytes that encode to the same string. |
| `CompactBlocks.ValidateCompactBlock` | src/blockencodings.cpp:86-108 | Accepted exactly when the header and every prefilled transaction are present, the count is within the limit and every position can be reached; otherwise the exception names the fault, and for a prefilled transaction the first one that has any. |
| `CompactBlocks.MakeCompactBlock` | src/blockencodings.cpp:35-59 | The short ids are those of the transactions whose hash is not prefilled, in order. |
| `CompactBlocks.AllTransactions` | src/compactthin.cpp:73-104 | On an accepted block no index is out of range; the list is complete exactly when no short id is zero. |
| `CompactBlocks.ListComplete` | src/compactthin.cpp:94-102 | A null slot is left exactly when some short id is zero. |
| `CompactBlocks.ZeroIdFails` | src/compactthin.cpp:94-102 | An accepted block with a zero short id is refused by the list. |
| `CompactBlocks.LayoutUnique` | src/compactthin.cpp:73-104 | A compact block stands for at most one list. |
| `CompactBlocks.FillCoinbase` | src/compactprefiller.cpp:13-16 | Only the first transaction is prefilled. |
| `CompactBlocks.FillInventory` | src/compactprefiller.cpp:18-48 | All transactions not known to the peer are prefilled in order, up to the first that would pass the size limit. |
| `CompactBlocks.CodedPosition` | src/compactprefiller.cpp:43-45 | A position coded in 16-bit steps never lies beyond the chosen one, and is the chosen one exactly when every step so far fits. |
| `CompactBlocks.ChosenPositions` | src/compactprefiller.cpp:43-45 | All coded positions are the chosen ones exactly when every step between chosen positions is below 65536, in a block of any size. |
| `CompactBlocks.FillWideStep` | src/compactprefiller.cpp:18-48 | When only transaction 65537 is unknown to the peer, and small, the prefiller chooses it after transaction 0. |
| `CompactBlocks.WideStepLost` | src/compactthin.cpp:73-104 | The receiver accepts that block and gets another list, with transaction 65537 at position 1. |
| `CompactBlocks.BlockRebuilt` | src/blockencodings.cpp:35-59 | The built block stands for the full hash of every prefilled transaction and the short id of every other, in order, exactly when every step fits. |
| `CompactBlocks.ReceivedList` | src/compactthin.cpp:73-104 | The complete list a receiver gets is that one exactly when every step fits. |
| `CompactBlocks.BlockAccepted` | src/blockencodings.cpp:86-108 | The receiver accepts the built block, whether the steps fit or not, exactly when it takes that many transactions. |
| `CompactSize.ReadWritten` | src/serialize.h:233-288 | A number in compact form reads back, leaving the rest of the stream, exactly when it is at most 0x02000000; the writer has no such limit. |
| `CompactSize.WriteRead` | src/serialize.h:258-288 | Nothing but the written form of a number reads as that number. |
| `CompactSize.WriteForm` | src/serialize.h:233-256 | The bytes written: the number itself, or a marker and two, four or eight bytes, the lowest first. |
| `ReRequest.WriteMessage` | src/blockencodings.h:36-63 | The loop writes the count and each index as its 32-bit distance from one past the one before. |
| `ReRequest.ReadMessage` | src/blockencodings.h:36-57 | Reading the count, the numbers in blocks of a thousand, and adding up equals the parser below; the test for 32 bits after each number never fails. |
| `ReRequest.DecodeWritten` | src/blockencodings.h:51-62 | Adding the distances up gives the list back exactly when each index is above the one before or follows the largest. |
| `ReRequest.ReadsBack` | src/blockencodings.h:36-63 | A message reads back as its list exactly when the list climbs so and neither its length nor any distance is above 0x02000000. |
| `ReRequest.WideGapRefused` | src/blockencodings.h:38-63 | The increasing list of the single index 0x02000001 is written and refused on reading. |
| `ReRequest.IncreasingReadsBack` | src/blockencodings.h:36-63 | A strictly increasing list comes back exactly when its length and every gap in it are at most 0x02000000. |
| `ReRequest.MessageRead` | src/blockencodings.h:36-63 | Only the message of a list reads as that list. |
| `ReRequest.ShortIdRoundTrip` | src/blockencodings.h:141-161 | The two halves of a short id join to its low 48 bits. |
| `ReRequest.ShortIdHalves` | src/blockencodings.h:141-161 | The low 32 bits travel first, then the high 16. |

## Left out

- `CAddrMan::Select_` and `GetChance`: their termination is only probabilistic and they use floating point.
- `CAddrMan::Clear` on a manager that is not new; every run starts from a new or a freshly loaded manager.
- AddrDisk.Unserialize: only complete images of version 1 with the same number of "new" buckets; the path that rebuilds the buckets for other files and reading from a truncated stream are not modelled.
- The locking wrappers of the address manager and all logging.
- CoinsStack.CoinsViewCache.FetchCoin: the branch for a base that returns a spent coin is never reached over the modelled bases, so it does not appear.
- Best-block hashes, cursors, batch sizes and crash simulation of the coin database.
- CheckQueue.StepKeeps: the shutdown flag is never set by the code and is not modelled; each critical section is one step, memory ordering inside it is not modelled.
- The sanity-check signal of the receive loop is taken to accept, and message timestamps, byte counters and the traffic shaper's amounts are arbitrary.
- Wire.Session: one connection in one direction.
- RootUnique.ComputeRootFromBranch: the position is an unbounded number; the code's is one of 32 bits.
- Merkle.Sound: 32-bit overflow of positions and widths is not modelled; positions are unbounded.
- Miner.SelectTransactions: fee totals, the order in which the finished block lists transactions, and the block header are not modelled.
- AddrCheck.Check: when a state has several faults, which of them is reported follows the code but is not part of the contract; ids are not negative.
- ReRequest.ReadMessage: the block hash before the indexes is left out.
- Arithmetic operators that only copy and call the modelled ones, conversion to floating point and to text.
- RollingFilter.RollingBloomFilter.Contains: the sizing of the filter from a false-positive rate and the false-positive rate itself are not modelled; sizes are positive parameters.
- The plain (not rolling) Bloom filter and transaction matching.
- The address types behind CashAddr payloads and the check-summed Base58 forms.
- Chain.ActiveChain.SetTip: the tip observers and the cached block size are not modelled.
- Integer widths of heights, locator steps and list indexes, except where a row says otherwise.
- The differential form of prefilled positions on the wire and transaction serialization.
- Finding transactions for short ids in the mempool, peer announcement policy, in-flight tracking.
