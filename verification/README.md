# Verified models of a Bitcoin-family node

Dafny models of the parts of the node whose correctness rests on more than one function: the script
check queue, the stack of coin caches, the address manager and its file, block assembly, partial
Merkle trees, compact block relay, 256-bit arithmetic with the compact target form, the block tree
with its active chain, block download bookkeeping, the rolling Bloom filter, the signature cache,
message framing and Base58. `dafny verify dfyconfig.toml` checks everything.

Each file follows one part of the source:

- `CheckQueue.dfy`: the queue as a state machine over locked sections, one master and any number of
  workers, with spurious wake-ups. Every run is covered.
- `Coins.dfy`: a stack of caches over a database as values (`Coins`), against the map each level
  shows; the linked objects that the code updates in place (`CoinsCache`).
- `AddrMan.dfy`, `AddrManager.dfy`, `AddrManDisk.dfy`, `AddrManAnyFile.dfy`: the address manager as a
  value with the conditions of its own debug check, the same manager updated in place, its file format,
  and files from elsewhere. A failed assert of the original is the outcome `Failed`, which is shown
  never to happen.
- `Miner.dfy`: package selection over a mempool given as a graph with ancestor totals.
- `Merkle.dfy`: partial Merkle trees as functions (`Merkle`) and as the recursive methods over
  vectors (`MerkleTree`). The node hash is any injective function of two hashes.
- `CompactBlock.dfy`: announcement, reconstruction, request codec and reply. Short ids are any function.
- `Arith.dfy`, `CompactTarget.dfy`: eight 32-bit limbs in an array against the integers, and the
  compact encoding of targets.
- `SkipWalk.dfy`: skip heights (`Heights`) and the number of steps of the skip walk.
- `Chain.dfy`, `FetchPlan.dfy`: blocks linked by `pprev` and `pskip`, the active chain, and the choice
  of blocks to download.
- `InFlight.dfy`, `BlockFetch.dfy`: which peer each block is in flight from, and requesting the next ones.
- `Bloom.dfy`, `Cuckoo.dfy`: bit-level and slot-level structures with arbitrary hash functions.
- `Framing.dfy`: send queue and receiver; the socket may take any part and deliver in any pieces.
- `Base58.dfy`: base conversion in a fixed buffer.
- `Basics.dfy`: vocabulary shared by the others.

Random numbers, clocks, hash functions, socket results, fee rates, the block check and the contract
machine are parameters. Properties hold for all their values unless a lemma says otherwise.

Some expected properties are false of the code; the model keeps the code and states when they hold:

- `CCoinsViewCache::AddCoin` without the overwrite flag is right if and only if the coin is not
  visible, and its throw leaves the memory count too low (`Coins.AddCoinIsExact`, `Coins.AddCoinThrowMiscounts`).
- `Add_` reports an address as new even when it is dropped at once (`AddrMan.AddKeepsExactlyWhenGranted`).
- `Good_` and `Attempt_` keep the debug check if and only if the time is positive, respectively not
  negative, or the address is unknown (`AddrMan.GoodKeepsTimes`, `AddrMan.AttemptIsExact`).
- `CCoinsViewCache`'s `AddCoins` keeps the flags right if and only if it checks, or the transaction is a
  coinbase, or its outputs are new (`CoinsCache.CoinsView.AddCoins`).
- Reading an address file leaves indexes that agree if and only if no count is negative and every two
  entries with one address are dropped (`AddrManAnyFile.AnyFileIsConsistent`,
  `AddrManAnyFile.RepeatedRecordUnlists`).
- A contract that fails during block assembly can leave a child in the block without its parent
  (`Miner.FailedContractOrphansChild`, `Miner.ClosedIffNoOrphan`), bring the loop back to the state it
  was in (`Miner.FailedContractLoops`, `Miner.ProgressIff`), put a block transaction back into the
  modified set, where the `inBlock` assert would meet it (`Miner.FailedContractBreaksRun`,
  `Miner.ApartIff`, `Miner.ApartIffNoSkippedBelow`), and make the cached totals too small, so that the
  weight limit is missed (`Miner.FailedContractBreaksRun`, `Miner.ModsOkIff`).
- The epoch of the signature cache is 45 percent of its slots if and only if there are at most 95443717
  (`Cuckoo.Cache.constructor`).
- Multiplying a 256-bit number by itself in place gives zero (`Arith.BaseUint.MulAssign`).
- The index codec of compact blocks gives a list back if and only if it strictly increases
  (`CompactBlock.CodecRoundTrip`).

Where comments and code of the source disagree the code is followed: the first cuckoo displacement
uses the second location, not the first (`src/cuckoocache.h:419-420`, `src/cuckoocache.h:430`).

## Model

| member | source | states |
|---|---|---|
| `CheckQueue.BatchSize` | src/checkqueue.h:106-110 | A batch is never empty, never larger than the queue, and otherwise capped by the configured size, whatever the idle and total counts are. |
| `CheckQueue.RunBatch` | src/checkqueue.h:122-124 | The early-exit loop over a batch returns the conjunction of the verdict so far and every check in the batch. |
| `CheckQueue.Queue.Add` | src/checkqueue.h:149-161 | Pushing the checks, raising `nTodo` and signalling the workers is the atomic step of the state machine. |
| `CheckQueue.Queue.TakeBatch` | src/checkqueue.h:111-117 | Moves exactly the last `nNow` checks, last first, out of the queue. |
| `CheckQueue.Queue.LockedSection` | src/checkqueue.h:77-120 | One pass under the mutex, statement by statement, equals the atomic step of the state machine: new shared state, new thread state, notification and return value. |
| `CheckQueue.StepsAreDefined` | src/checkqueue.h:77-120 | In every state that satisfies the invariant no unsigned subtraction underflows and no division is by zero. |
| `CheckQueue.BalancedKeepsInv` | src/checkqueue.h:69-127 | Any step whose effect balances its own counters keeps the invariant over all threads: `nTodo` is queued plus held checks, `nIdle` and `nTotal` count sleepers and participants, and the master never sleeps un-notified with `nTodo` zero. |
| `CheckQueue.SectionKeepsInv` | src/checkqueue.h:69-127 | Every locked section of every thread keeps that invariant. |
| `CheckQueue.StepKeepsInv` | src/checkqueue.h:69-161 | So does every action: add, enter, locked section, running a check, spurious wake-up. |
| `CheckQueue.PoppedSplits` | src/checkqueue.h:111-117 | Taking a batch splits the conjunction over the queue into batch and rest. |
| `CheckQueue.SectionDischarges` | src/checkqueue.h:79-100 | A locked section merges exactly the verdict of the batch it held. |
| `CheckQueue.DischargedKeepsDebt` | src/checkqueue.h:79-100 | If the master returns, its verdict is the conjunction of the whole session and nothing is queued or held; otherwise the conjunction still owed is unchanged. |
| `CheckQueue.SectionKeepsDebt` | src/checkqueue.h:69-127 | The same for every locked section of the code. |
| `CheckQueue.AddKeepsDebt` | src/checkqueue.h:149-161 | Adding checks extends the session by exactly those checks. |
| `CheckQueue.RunKeepsDebt` | src/checkqueue.h:121-124 | Running one check, or skipping it after a failure, leaves the owed conjunction unchanged. |
| `CheckQueue.StepKeepsDebt` | src/checkqueue.h:69-161 | Every action keeps the owed conjunction, and a returned `Wait` returned it. |
| `CheckQueue.RunsAreExact` | src/checkqueue.h:69-161 | In every interleaving of one master and any number of workers every `Wait` returns exactly the conjunction of the checks added since the previous one, and leaves nothing queued or held. |
| `CheckQueue.RunExtends` | src/checkqueue.h:69-161 | Every action the control flow allows at the end of a run extends the run: no run gets into undefined arithmetic. |
| `CheckQueue.WaitIsNeverStuck` | src/checkqueue.h:91-104 | While the master is inside `Wait` some thread that needs no waking can move. |
| `CheckQueue.WorkShrinks` | src/checkqueue.h:69-127 | Every such move strictly decreases the work left. |
| `CheckQueue.WaitReturnsInTime` | src/checkqueue.h:69-127 | A stretch of locked sections and checks, in any order, is no longer than the work left at its start, and where no such step is left the master is back from `Wait`. |
| `Coins.FetchIsExact` | src/coins.cpp:43-58 | A fetch leaves what every level shows unchanged, keeps the flags and the memory count right, and ends with the entry cached exactly when the coin is known. |
| `Coins.GetCoinIsExact` | src/coins.cpp:60-67 | A lookup through any number of caches answers from the map the level shows. |
| `Coins.AddCoinIsExact` | src/coins.cpp:69-88 | An add without the overwrite flag is right if and only if the coin is not already visible; it throws if and only if the coin is unspent in this very cache; when right, exactly that coin changes. |
| `Coins.AddCoinThrowMiscounts` | src/coins.cpp:69-88 | A throwing add has already given back the memory of the entry it keeps, so the count is off unless that entry used none. |
| `Coins.SpendCoinIsExact` | src/coins.cpp:101-115 | Spending hides exactly that coin, whatever the flags were, hands out what was there, and leaves the levels below showing the same. |
| `Coins.SpendCoinFinds` | src/coins.cpp:101-115 | The call returns true if and only if the coin is visible, or this cache has an entry for it, or the database right below stores a spent one. |
| `Coins.UncacheIsExact` | src/coins.cpp:211-218 | Uncaching removes an entry exactly when it is neither dirty nor fresh, and nothing shown changes. |
| `Coins.MergeOneIsRight` | src/coins.cpp:148-201 | Merging one well-flagged child entry never meets a misapplied FRESH flag and shows the child's coin afterwards. |
| `Coins.BatchWriteIsExact` | src/coins.cpp:148-202 | A whole child map merges without a throw, and the parent then shows the child's coins over its own. |
| `Coins.FlushIsExact` | src/coins.cpp:204-209 | After a flush the parent shows what the child showed, and the child still does. |
| `Coins.DoAtRefines` | src/coins.cpp:43-218 | Fetch, uncache and flush at any depth of a stack change the list of shown maps as the simple maps say. |
| `Coins.StepRefines` | src/coins.cpp:43-218 | So does every operation that respects the overwrite promise, and none throws. |
| `Coins.RunsRefine` | src/coins.cpp:43-218 | Every run of operations goes through, and every level ends showing the map the operations describe. |
| `CoinsCache.CoinsView.Database` | src/txdb.cpp:57-59 | A database view shows exactly what it stores. |
| `CoinsCache.CoinsView.OnTopOf` | src/coins.cpp:37-37 | A new cache is empty and shows its base. |
| `CoinsCache.CoinsView.GetCoin` | src/coins.cpp:60-67 | The linked objects, updated in place, do what the model function says at every level. |
| `CoinsCache.CoinsView.FetchCoin` | src/coins.cpp:43-58 | The same for the fetch with its insertion into the cache. |
| `CoinsCache.CoinsView.HaveCoin` | src/coins.cpp:128-131 | True exactly when the level shows a coin; what all levels show is unchanged. |
| `CoinsCache.CoinsView.AddCoin` | src/coins.cpp:69-88 | In place, with the memory count given back before the throw, as the model function says. |
| `CoinsCache.CoinsView.AddCoins` | src/coins.cpp:90-99 | Goes through with every flag right if and only if it checks, or the transaction is a coinbase, or its outputs are new; the view then gains exactly the spendable outputs. |
| `CoinsCache.CoinsView.SpendCoin` | src/coins.cpp:101-115 | In place, as the model function says. |
| `CoinsCache.CoinsView.Uncache` | src/coins.cpp:211-218 | In place, as the model function says. |
| `CoinsCache.CoinsView.BatchWrite` | src/coins.cpp:148-202 | Walking the child's map in any order gives the order-free merge, or fails exactly where the original throws. |
| `CoinsCache.CoinsView.WriteDb` | src/txdb.cpp:84-143 | The database stores the dirty unspent coins and erases the dirty spent ones. |
| `CoinsCache.CoinsView.Flush` | src/coins.cpp:204-209 | Writes the cache into its base and empties it, as the model function says. |
| `AddrMan.SwapRandomEffect` | src/addrman.cpp:93-111 | Swapping exchanges two positions and keeps positions and `vRandom` inverse to each other. |
| `AddrMan.SwapRandomKeeps` | src/addrman.cpp:93-111 | It keeps every index, table and counter consistent. |
| `AddrMan.DeleteKeeps` | src/addrman.cpp:113-125 | Deleting an entry that is in no table removes exactly that entry from all indexes and counters. |
| `AddrMan.UnrefKeeps` | src/addrman.cpp:127-140 | Giving up slots keeps the reference counts equal to the number of slots held. |
| `AddrMan.ClearNewKeeps` | src/addrman.cpp:127-140 | Clearing a slot frees it, and drops its holder exactly when that was its last slot. |
| `AddrMan.ReferencedKeeps` | src/addrman.cpp:302-305 | Claiming a free slot of its own keeps everything consistent as long as fewer than eight slots are held. |
| `AddrMan.UntriedKeeps` | src/addrman.cpp:161-170 | Taking an entry out of its tried slot leaves it in no table and the counters right. |
| `AddrMan.LeaveNewKeeps` | src/addrman.cpp:144-154 | The sweep over all new buckets finds every slot the entry holds, so its count reaches zero. |
| `AddrMan.EvictKeeps` | src/addrman.cpp:160-183 | Evicting frees the tried slot, puts the evicted entry into the new slot of its source, and can drop at most the entry displaced there. |
| `AddrMan.TriedKeeps` | src/addrman.cpp:185-187 | Entering the tried slot restores full consistency. |
| `AddrMan.MakeTriedKeeps` | src/addrman.cpp:142-188 | The whole move trips no assert, leaves exactly the stated new and tried tables, and changes only the moved, the evicted and the displaced entry. |
| `AddrMan.NewEntryIsHeld` | src/addrman.cpp:219-234 | An entry that is not tried holds a slot, so the "no bucket found" exit is dead. |
| `AddrMan.GoodIsExact` | src/addrman.cpp:190-240 | On any consistent manager: no assert fires, a known untried entry ends up tried, at most one entry is lost, both tables are exactly as the move says. |
| `AddrMan.GoodKeepsTimes` | src/addrman.cpp:190-240 | What the debug check asks of times survives if and only if the time given is positive or the address is unknown. |
| `AddrMan.IntroducedKeeps` | src/addrman.cpp:285-288 | A newly created entry is in all indexes and in no table. |
| `AddrMan.PlaceKeeps` | src/addrman.cpp:291-311 | Finding a slot for an entry restores consistency whether the slot is claimed, refused, or the entry is dropped; the new table changes in the claimed slot alone. |
| `AddrMan.AddIsExact` | src/addrman.cpp:242-313 | On any consistent manager: no assert fires, the times, services and the return value are as the function promises, and the new table changes in exactly the granted slot. |
| `AddrMan.AddKeepsExactlyWhenGranted` | src/addrman.cpp:285-312 | An unknown routable address is reported as new every time, but kept if and only if its slot is free or held by an entry that is terrible or has another slot. |
| `AddrMan.GetAddrIsExact` | src/addrman.cpp:462-481 | Distinct, presentable, known addresses, at most 23 percent and 2500; fewer than the limit only when every entry was looked at. |
| `AddrMan.AttemptIsExact` | src/addrman.cpp:315-335 | Consistency survives if and only if the time is not negative or the address is unknown. |
| `AddrMan.AttemptKeeps` | src/addrman.cpp:315-335 | Indexes, tables and counters survive in any case. |
| `AddrMan.ConnectedKeeps` | src/addrman.cpp:483-501 | Consistency survives. |
| `AddrMan.SetServicesKeeps` | src/addrman.cpp:503-519 | Consistency survives. |
| `AddrMan.DoKeeps` | src/addrman.cpp:190-519 | Every public call keeps the invariant, and with a sane clock the conditions on times. |
| `AddrMan.DoAllKeeps` | src/addrman.cpp:190-519 | So does every sequence of calls. |
| `AddrMan.EmptyIsConsistent` | src/addrman.h:456-477 | A cleared manager is consistent. |
| `AddrMan.EveryRunIsConsistent` | src/addrman.cpp:385-459 | From a cleared manager no sequence of calls trips an assert, and with a sane clock everything the debug check tests holds. |
| `AddrManager.Manager.constructor` | src/addrman.h:456-482 | Starts consistent and empty. |
| `AddrManager.Manager.SwapRandom` | src/addrman.cpp:93-111 | In place, as the model function says. |
| `AddrManager.Manager.Delete` | src/addrman.cpp:113-125 | In place, as the model function says. |
| `AddrManager.Manager.ClearNew` | src/addrman.cpp:127-140 | In place, as the model function says. |
| `AddrManager.Manager.RemoveFromNew` | src/addrman.cpp:144-151 | The loop over all buckets removes exactly the slots the entry holds. |
| `AddrManager.Manager.EvictFrom` | src/addrman.cpp:160-182 | The eviction in the middle of the move, where `nNew` is already one lower, equals the model step. |
| `AddrManager.Manager.MakeTried` | src/addrman.cpp:142-188 | The whole move equals the model function. |
| `AddrManager.Manager.FindBucket` | src/addrman.cpp:219-229 | The search from a random bucket finds a slot exactly when the entry holds one. |
| `AddrManager.Manager.Good` | src/addrman.cpp:190-240 | Equals the model function for every starting point of the search. |
| `AddrManager.Manager.Create` | src/addrman.cpp:81-91 | Equals the model function. |
| `AddrManager.Manager.Add` | src/addrman.cpp:242-313 | Equals the model function for every outcome of the die. |
| `AddrManager.Manager.PlaceInNew` | src/addrman.cpp:291-311 | Equals the model function. |
| `AddrManager.Manager.Attempt` | src/addrman.cpp:315-335 | Equals the model function. |
| `AddrManager.Manager.Connected` | src/addrman.cpp:483-501 | Equals the model function. |
| `AddrManager.Manager.SetServices` | src/addrman.cpp:503-519 | Equals the model function. |
| `AddrManager.Manager.GetAddr` | src/addrman.cpp:462-481 | The in-place shuffle equals the model function for every sequence of random numbers. |
| `AddrManager.PowerOfTwo` | src/addrman.cpp:278-281 | The doubling loop gives two to the reference count. |
| `AddrManDisk.OrderFacts` | src/addrman.h:314-333 | The entries written in each pass are as many as the counters say, and every slot is held by one of them. |
| `AddrManDisk.Serialize` | src/addrman.h:300-348 | Writes exactly the file described by `Serialized`; the asserts on both counters hold. |
| `AddrManDisk.CountsFit` | src/addrman.h:371-377 | The counters of a consistent manager never exceed the limits the reader enforces. |
| `AddrManDisk.MarkedTwice` | src/addrman.h:312-312 | Exclusive or with 2^30 is its own inverse. |
| `AddrManDisk.SerializedDescribes` | src/addrman.h:300-348 | The file determines the renumbered manager: records, counts and every bucket list. |
| `AddrManDisk.LoadNewIs` | src/addrman.h:379-397 | Reading the first part rebuilds the first entries under new ids. |
| `AddrManDisk.LoadTriedIs` | src/addrman.h:399-418 | Reading the second part rebuilds all entries and the whole tried table, with none lost. |
| `AddrManDisk.ReferenceStep` | src/addrman.h:427-434 | Each stored reference finds its own slot free and is taken up. |
| `AddrManDisk.BucketsAre` | src/addrman.h:420-436 | Reading the bucket lists rebuilds the whole new table and all reference counts. |
| `AddrManDisk.LoadedIs` | src/addrman.h:350-448 | What is in memory then is the renumbered manager, and nothing is left to prune. |
| `AddrManDisk.RenumberedConsistent` | src/addrman.h:350-454 | The renumbered manager passes the debug check. |
| `AddrManDisk.RoundTrip` | src/addrman.h:300-454 | Reading what was written for any consistent manager gives a consistent manager equal up to numbering and memory-only fields. |
| `AddrManDisk.Unserialize` | src/addrman.h:350-454 | For every file, what the loops leave is the specified loading followed by dropping the entries without a reference; it fails exactly when that does. |
| `AddrManDisk.SaveAndLoad` | src/addrman.h:300-454 | The two methods in sequence give the renumbered manager, consistent. |
| `AddrManAnyFile.LastListedEnter` | src/addrman.h:382-385 | Records entered in order leave the index by address with the last entry of each address. |
| `AddrManAnyFile.ListedIff` | src/addrman.h:438-448 | After the entries without a reference are dropped, the index by address is right if and only if only such entries shared an address. |
| `AddrManAnyFile.NewLoaded` | src/addrman.h:379-397 | Whatever the version, the bucket count and the addresses, the new records of a file leave positions and tables that agree, with the entries without a slot set apart. |
| `AddrManAnyFile.TriedLoaded` | src/addrman.h:399-418 | So do the tried records, those that lose their slot to an earlier one included, for negative counts as well. |
| `AddrManAnyFile.BucketsSettle` | src/addrman.h:420-436 | Any list of references, out of range, repeated or too many, keeps that. |
| `AddrManAnyFile.PruneKeeps` | src/addrman.h:438-448 | Dropping entries without a reference never fails, drops exactly those, and takes their addresses out of the index. |
| `AddrManAnyFile.AnyFileIsConsistent` | src/addrman.h:350-454 | For every readable file reading succeeds and drops exactly the entries left without a reference; indexes, tables and counters then agree if and only if no count was negative and every two entries with one address were dropped. |
| `AddrManAnyFile.AnyFilePasses` | src/addrman.h:453-453 | The debug check at the end passes if and only if, besides, the times of the kept records are in order. |
| `AddrManAnyFile.RepeatedRecordUnlists` | src/addrman.h:379-448 | A file with one new record twice: the first entry is kept, but its address is no longer listed. |
| `AddrManAnyFile.RepeatedTriedIsLost` | src/addrman.h:399-418 | A file with one tried record twice gives a manager that fits together. |
| `AddrManAnyFile.OneRecordEachSuffices` | src/addrman.h:350-454 | So does every readable file with one record for each address and no negative count. |
| `Miner.ClampWeight` | src/miner.cpp:70-75 | The limit lies between 4000 and the block maximum less 4000, and is the option when that does. |
| `Miner.AncCount` | src/miner.cpp:458-461 | An ancestor has strictly fewer ancestors. |
| `Miner.WeightBelowSize` | src/policy/policy.cpp:253-256 | Four times the summed virtual sizes bounds the summed weights. |
| `Miner.FullTotalsCover` | src/miner.cpp:536-538 | The pool's ancestor totals bound what is still missing of a package. |
| `Miner.PackageFits` | src/miner.cpp:244-252 | Passing the test on such a bound leaves room for the whole package. |
| `Miner.PackageShrinks` | src/miner.cpp:414-439 | When a set goes into the block, a package shrinks by exactly what it shares with it. |
| `Miner.SortedPutsAncestorsFirst` | src/miner.cpp:456-465 | Sorted by ancestor count, everything before an entry and the block contain all its ancestors. |
| `Miner.AddedKeeps` | src/miner.cpp:395-404 | Adding a transaction whose ancestors are in keeps the block in order, without duplicates, and its totals exact. |
| `Miner.AddAllMembers` | src/miner.cpp:593-606 | Exactly the package less the failing contracts goes in. |
| `Miner.AddAllKeeps` | src/miner.cpp:593-606 | Adding a sorted package keeps the block in order and adds exactly its weight and sigops. |
| `Miner.ClosedIffNoOrphan` | src/miner.cpp:593-606 | A round leaves every transaction with its ancestors if and only if no skipped contract has a descendant that went in. |
| `Miner.FailedContractOrphansChild` | src/miner.cpp:593-606 | A pool of a contract and its child where a failing contract leaves the child in the block without its parent. |
| `Miner.AddAllTotals` | src/miner.cpp:593-606 | Weight and sigops grow by exactly the members that are not skipped. |
| `Miner.RoundEffect` | src/miner.cpp:588-611 | What a round with failing contracts does to the block and to the keys of the modified set. |
| `Miner.ApartIff` | src/miner.cpp:532-534 | The `inBlock` assert survives a round if and only if no member of the package is an ancestor of a transaction already in the block. |
| `Miner.OrphansStayFailing` | src/miner.cpp:588-611 | While the same contracts fail, what the block lacks of its members' ancestors are failing contracts. |
| `Miner.ApartIffNoSkippedBelow` | src/miner.cpp:532-534 | In such a run the assert survives a round if and only if no skipped contract is an ancestor of a transaction already in the block. |
| `Miner.ProgressIff` | src/miner.cpp:499-611 | A whole round brings the loop nearer to its end (fewer unselected transactions, then fewer index entries, then a smaller modified set) if and only if it came from the index or some member of its package is not a skipped contract. |
| `Miner.SkippedRoundRepeats` | src/miner.cpp:588-611 | Skipping a whole package that nobody else descends from leaves block and modified set as they were. |
| `Miner.FailedContractLoops` | src/miner.cpp:499-611 | A pool in which the second round, and every one after it, ends in the state it began with. |
| `Miner.RoundStaysWithin` | src/miner.cpp:549-611 | A package tested on a total that covers it stays within the limits, contracts skipped or not. |
| `Miner.CoverIff` | src/miner.cpp:414-439 | A cached total still covers its package after a round if and only if it had room for the skipped ancestors once more. |
| `Miner.ModsOkIff` | src/miner.cpp:414-439 | All cached totals bound their packages after a round, which is what the limits rest on, if and only if no package member is an ancestor of a block transaction and every descendant of a skipped contract had that room. |
| `Miner.FailedContractBreaksRun` | src/miner.cpp:499-611 | Three rounds in fee rate order, with one contract failing each time, end with a block over its weight limit, without a parent of its members, and with one of its transactions in the modified set. |
| `Miner.EntrySubtracted` | src/miner.cpp:422-436 | One more ancestor in the block takes exactly its share off the cached totals. |
| `Miner.UpdatedKeepsMods` | src/miner.cpp:414-439 | After the update every cached total again bounds what is missing of its package. |
| `Miner.BlockAssembler.constructor` | src/miner.cpp:70-109 | Starts with the reserved weight and sigops and nothing selected. |
| `Miner.BlockAssembler.AddToBlock` | src/miner.cpp:395-404 | Appends the transaction and adds its totals. |
| `Miner.BlockAssembler.SortForBlock` | src/miner.cpp:456-465 | A permutation of the package in order of ancestor count, ties by hash. |
| `Miner.BlockAssembler.AddSorted` | src/miner.cpp:593-606 | The loop equals the model function, and takes what went in out of the modified set. |
| `Miner.BlockAssembler.UpdateDescendants` | src/miner.cpp:419-437 | The inner loop updates exactly the descendants of one transaction. |
| `Miner.BlockAssembler.UpdatePackagesForAdded` | src/miner.cpp:414-439 | The double loop updates every descendant once for each added ancestor. |
| `Miner.BlockAssembler.TestPackageTransactions` | src/miner.cpp:258-267 | True exactly when every member may go in. |
| `Miner.BlockAssembler.RoundKeeps` | src/miner.cpp:569-611 | A whole round keeps order, limits and cached totals, and selects something unless the entry itself is a failing contract. |
| `Miner.BlockAssembler.SelectPackage` | src/miner.cpp:588-611 | Sorting, adding and updating make a round of the model. |
| `Miner.BlockAssembler.Consider` | src/miner.cpp:532-611 | The tests and the addition keep the loop invariant, and the `inBlock` assert holds. |
| `Miner.BetterTransitive` | src/miner.h:77-87 | The fee rate order by cross products is transitive for positive sizes. |
| `Miner.CoveredIsSized` | src/miner.cpp:414-439 | Cached sizes stay positive. |
| `Miner.BlockAssembler.BestModified` | src/miner.cpp:510-510 | The front of the modified set is better than every other entry of it. |
| `Miner.BlockAssembler.ChooseEntry` | src/miner.cpp:506-530 | The entry chosen is better than every other one left in the index or in the modified set. |
| `Miner.BlockAssembler.NextPackage` | src/miner.cpp:506-611 | One turn of the loop keeps the invariant, takes the best entry left, and brings the loop nearer to its end unless it stops there. |
| `Miner.BlockAssembler.AddPackageTxs` | src/miner.cpp:477-613 | When failing contracts have neither parents nor children in the pool, in particular when none fails, the loop terminates, never trips the `inBlock` assert, and ends with every parent before its child, no duplicates, exact totals, weight and sigops below the limits, and only transactions that may go in; each round took the best entry left, and every transaction comes from the package of one of them. |
| `Merkle.WidthIff` | src/merkleblock.h:66-68 | A position exists at a level exactly when its first leaf exists. |
| `Merkle.BuildSize` | src/merkleblock.cpp:81-97 | At least one hash, at most one for each transaction below, and a bit for each hash. |
| `Merkle.BuildHashBound` | src/merkleblock.cpp:81-97 | At most one hash plus the height for each match. |
| `Merkle.NodesDiffer` | src/merkleblock.cpp:61-79 | Distinct transactions give distinct hashes at every level. |
| `Merkle.ExtractInvertsBuild` | src/merkleblock.cpp:99-135 | Extraction undoes building at every node, wherever in the stream it stands. |
| `Merkle.RoundTrip` | src/merkleblock.cpp:61-184 | For every non-empty list and mask the true root and exactly the matched ids and indexes come back, with the bound on stored hashes. |
| `Merkle.ExtractExtends` | src/merkleblock.cpp:99-135 | Extraction only ever appends to its outputs and never clears the failure flag. |
| `Merkle.ExtractIsSound` | src/merkleblock.cpp:99-135 | Whatever the bits and hashes: the right hash for a node vouches for every match reported below it. |
| `Merkle.ExtractMatchesIsSound` | src/merkleblock.cpp:153-184 | If extraction gives the true root, every reported pair is the real transaction at that index, and the indexes strictly rise. |
| `MerkleTree.PackBits` | src/merkleblock.h:100-103 | Byte-packing puts bit p where the reader looks for it and pads with zeros. |
| `MerkleTree.UnpackBits` | src/merkleblock.h:93-97 | Unpacking reads the bits back, padding included. |
| `MerkleTree.PartialMerkleTree.FromMask` | src/merkleblock.cpp:137-149 | Building yields the model's bits and hashes. |
| `MerkleTree.PartialMerkleTree.FromWire` | src/merkleblock.h:88-98 | Holds what arrived. |
| `MerkleTree.PartialMerkleTree.TreeHeight` | src/merkleblock.cpp:142-145 | The loop finds the lowest level of width one. |
| `MerkleTree.PartialMerkleTree.ParentOfMatch` | src/merkleblock.cpp:82-85 | The loop finds whether any leaf below matches. |
| `MerkleTree.PartialMerkleTree.TraverseAndBuild` | src/merkleblock.cpp:81-97 | Appends the model's bits and hashes to the vectors. |
| `MerkleTree.PartialMerkleTree.TraverseAndExtract` | src/merkleblock.cpp:99-135 | Moves cursors, outputs and flag as the model function says. |
| `MerkleTree.PartialMerkleTree.ExtractMatches` | src/merkleblock.cpp:153-184 | Equals the model function, failure checks included. |
| `MerkleTree.SendAndExtract` | src/merkleblock.cpp:81-184 | Build, pack, unpack, extract gives root and matches of the sender. |
| `CompactBlock.Announce` | src/blockencodings.cpp:18-28 | The coinbase in full and the short id of every other transaction, in order. |
| `CompactBlock.GapsFilled` | src/blockencodings.cpp:58-74 | Filling a slot takes exactly one gap off the list. |
| `CompactBlock.PlacePrefilled` | src/blockencodings.cpp:58-74 | Succeeds exactly when every prefilled index is in range, and leaves as many gaps as there are short ids. |
| `CompactBlock.NextGap` | src/blockencodings.cpp:81-85 | The 16-bit search stops at the i-th gap, in bounds. |
| `CompactBlock.MapShortIds` | src/blockencodings.cpp:80-102 | The i-th id maps to the i-th gap; fails if and only if an id is repeated or a bucket is crowded. |
| `CompactBlock.ScanEntry` | src/blockencodings.cpp:109-157 | One pool entry: a slot is only ever filled by a transaction with its short id, and a contested slot is given up. |
| `CompactBlock.FullIsFound` | src/blockencodings.cpp:126-130 | Stopping early when all are found misses nothing. |
| `CompactBlock.ScanPools` | src/blockencodings.cpp:104-163 | Both scans fill slots only by matching ids, and all that can be found if no two entries clash. |
| `CompactBlock.PartiallyDownloadedBlock.constructor` | src/blockencodings.h:195-201 | Starts empty. |
| `CompactBlock.PartiallyDownloadedBlock.InitData` | src/blockencodings.cpp:48-168 | Invalid exactly for a null header, no or too many transactions, or a misplaced or null prefilled one; failed exactly for a repeated id or a crowded bucket otherwise; and else the slots hold the prefilled transactions and matching pool transactions. |
| `CompactBlock.PartiallyDownloadedBlock.IsTxAvailable` | src/blockencodings.cpp:170-174 | True exactly when the index is not among those to be requested. |
| `CompactBlock.PartiallyDownloadedBlock.MissingIndexes` | src/net_processing.cpp:2368-2372 | The request lists exactly the gaps, in order. |
| `CompactBlock.PartiallyDownloadedBlock.FillBlock` | src/blockencodings.cpp:176-217 | Invalid exactly when the number of supplied transactions differs from the number of gaps; otherwise gaps are filled in order and the verdict is that of the block check. |
| `CompactBlock.EncodeIndexes` | src/blockencodings.h:62-67 | Writes differences to the previous index plus one. |
| `CompactBlock.DecodeIndexes` | src/blockencodings.h:42-61 | Returns the unique list that decodes the input, and throws exactly when there is none in 16 bits. |
| `CompactBlock.CodecRoundTrip` | src/blockencodings.h:38-68 | A list of 16-bit indexes survives encoding and decoding if and only if it strictly increases. |
| `CompactBlock.SendBlockTransactions` | src/net_processing.cpp:1215-1230 | Answers exactly when every index is in range, with the transactions at those indexes. |
| `CompactBlock.HonestSlots` | src/blockencodings.cpp:18-74 | For an honest announcement the gaps are the positions after the coinbase. |
| `CompactBlock.IsUnambiguous` | src/blockencodings.cpp:104-163 | Without short id collisions no two pool entries compete for a slot. |
| `CompactBlock.AgreeAfterInit` | src/blockencodings.cpp:48-168 | After initialization every filled slot holds the sender's transaction, and a slot is empty exactly when the pools lack it. |
| `CompactBlock.FilledIsSame` | src/blockencodings.cpp:176-197 | Filling such slots with the requested transactions gives the sender's list. |
| `CompactBlock.Relay` | src/net_processing.cpp:2343-2383 | Announce, initialize, request, answer and fill rebuild the sender's transactions, asking for exactly those the receiver lacks; it succeeds unless a bucket is crowded or the block check objects. |
| `Arith.BaseUint.constructor` | src/arith_uint256.h:55-63 | The value of a 64-bit number. |
| `Arith.BaseUint.Copy` | src/arith_uint256.h:40-46 | An equal, separate object. |
| `Arith.BaseUint.AddAssign` | src/arith_uint256.h:141-151 | Addition modulo 2^256, also to itself. |
| `Arith.BaseUint.Increment` | src/arith_uint256.h:179-186 | Plus one modulo 2^256. |
| `Arith.BaseUint.Decrement` | src/arith_uint256.h:196-203 | Minus one modulo 2^256. |
| `Arith.BaseUint.Negated` | src/arith_uint256.h:83-90 | Negation modulo 2^256. |
| `Arith.BaseUint.SubAssign` | src/arith_uint256.h:153-157 | Subtraction modulo 2^256. |
| `Arith.MulAdd` | src/arith_uint256.cpp:62-64 | The 64-bit intermediate never overflows, and splits into limb and carry. |
| `Arith.BaseUint.MulAssign32` | src/arith_uint256.cpp:58-67 | Product with a 32-bit number modulo 2^256. |
| `Arith.BaseUint.AddRow` | src/arith_uint256.cpp:75-80 | One row of the product adds exactly its multiple, less what leaves the width. |
| `Arith.BaseUint.MulAssign` | src/arith_uint256.cpp:70-83 | Product modulo 2^256 with another object; with itself the result is zero, because the receiver is cleared before it is read. |
| `Arith.BaseUint.ShlAssign` | src/arith_uint256.cpp:24-38 | Multiplication by the power of two, modulo 2^256, for every shift. |
| `Arith.BaseUint.ShrAssign` | src/arith_uint256.cpp:41-55 | Floor division by the power of two, for every shift. |
| `Arith.BaseUint.DivStep` | src/arith_uint256.cpp:100-105 | One step keeps dividend = remainder + quotient times divisor and halves the bound on the remainder. |
| `Arith.BaseUint.DivAssign` | src/arith_uint256.cpp:86-109 | The floor quotient for every non-zero divisor; the error exactly for zero, which leaves the receiver cleared. |
| `Arith.BaseUint.CompareTo` | src/arith_uint256.cpp:112-121 | The order of the values. |
| `Arith.BaseUint.Bits` | src/arith_uint256.cpp:174-186 | The length of the binary representation. |
| `Arith.BaseUint.Assign64` | src/arith_uint256.h:94-101 | The value of the number assigned. |
| `Arith.BaseUint.GetLow64` | src/arith_uint256.h:251-255 | The value modulo 2^64. |
| `CompactTarget.OverflowIff` | src/arith_uint256.cpp:219-222 | The test on mantissa and exponent decides exactly whether mantissa times 256^(exponent-3) fits in 256 bits. |
| `CompactTarget.SetCompact` | src/arith_uint256.cpp:206-224 | The value is the expanded number modulo 2^256; overflow exactly when it does not fit; negative exactly when the sign bit is set and the number is not zero. |
| `CompactTarget.TopDigits` | src/arith_uint256.cpp:228-235 | Bit length and shift give the number of base-256 digits and the three leading ones. |
| `CompactTarget.GetCompact` | src/arith_uint256.cpp:226-247 | Equals the specified word, with the sign recorded only beside a non-zero mantissa; the two asserts hold. |
| `CompactTarget.CompactShape` | src/arith_uint256.cpp:226-247 | Small numbers are encoded exactly, others rounded down to their unit with a mantissa of at least 2^15. |
| `CompactTarget.CompactIsGreatest` | src/arith_uint256.cpp:226-247 | No compact word at all stands for a larger number that is still at most the encoded one. |
| `CompactTarget.CompactIsPrecise` | src/arith_uint256.cpp:206-247 | Decoding gives y with y at most x and (x - y) times 2^15 at most x, without sign or overflow. |
| `CompactTarget.CompactIsStable` | src/arith_uint256.cpp:206-247 | Encoding the decoded number gives the same word. |
| `Heights.InvertsLowestOne` | src/chain.cpp:69-70 | n & (n - 1) removes exactly the lowest one bit. |
| `Heights.GetSkipHeight` | src/chain.cpp:73-81 | Strictly below the height for every block above genesis. |
| `SkipWalk.InvertedMult` | src/chain.cpp:69-70 | Clearing the lowest one of a multiple of 2^j leaves a multiple of 2^(j+1), at least 2^j lower. |
| `SkipWalk.InvertedAbove` | src/chain.cpp:69-70 | Within an aligned block of 2^k heights clearing the lowest one stays in the block. |
| `SkipWalk.DeclinedJumps` | src/chain.cpp:91-104 | A skip that the walk declines is followed by the better one from the block before. |
| `SkipWalk.EvenRun` | src/chain.cpp:83-107 | From an even height the walk leaves an aligned block of 2^k heights in k + 1 steps at most, fewer the better the height is aligned. |
| `SkipWalk.OddRun` | src/chain.cpp:83-107 | So it does from an odd height. |
| `SkipWalk.InBlock` | src/chain.cpp:83-107 | Within an aligned block of 2^k heights the walk takes at most 1 + 2 + ... + k steps. |
| `SkipWalk.HopsBound` | src/chain.cpp:73-107 | Going back less than 2^k heights takes at most (k + 1)(k + 2) / 2 steps, however high the chain. |
| `Chain.BlockIndex.GetAncestor` | src/chain.cpp:83-107 | The skip walk ends at the block that following `pprev` one by one reaches, and null exactly out of range; the `pprev` assert holds; it takes no more steps than that, and (k + 1)(k + 2) / 2 at most for a distance below 2^k when every block has its skip pointer. |
| `Chain.BlockIndex.BuildSkip` | src/chain.cpp:114-118 | The skip pointer is the ancestor at the skip height, and the tree stays sound with the new block. |
| `Chain.BlockMap.AddToBlockIndex` | src/validation.cpp:2729-2761 | A known hash gives the known block; a new one joins under its parent, the tree stays sound and every block has its skip pointer. |
| `Chain.BackBack` | src/chain.cpp:83-107 | An ancestor of an ancestor is the ancestor. |
| `Chain.LastCommonUnique` | src/chain.cpp:155-170 | There is only one highest common ancestor. |
| `Chain.LastCommonAncestor` | src/chain.cpp:155-170 | Returns the highest common ancestor, or null when there is none; the assert holds. |
| `Chain.ActiveChain.ContainsIff` | src/chain.h:490-492 | Containing a block means having it on the path to the tip. |
| `Chain.ActiveChain.ValidInLargerTree` | src/chain.h:461-463 | A chain stays valid while the tree grows. |
| `Chain.ActiveChain.SetTip` | src/chain.cpp:11-21 | Despite the early exit the chain is exactly the path to the new tip. |
| `Chain.ActiveChain.FindFork` | src/chain.cpp:51-60 | Returns the highest common ancestor with the tip, and null when there is none. |
| `Chain.LocatorStep` | src/chain.cpp:35-45 | Heights fall strictly, by one and then by doubling steps, down to zero. |
| `Chain.LocatorBound` | src/chain.cpp:23-49 | At most 12 + ceil(log2(H + 1)) heights. |
| `Chain.ActiveChain.StepBack` | src/chain.cpp:36-43 | Index and skip list give the same ancestor. |
| `Chain.ActiveChain.GetLocator` | src/chain.cpp:23-49 | The hashes of the ancestors at those heights, ending at genesis, within the bound. |
| `FetchPlan.FetchChunk` | src/net_processing.cpp:499-504 | One ancestor lookup and a downward fill give the next blocks of the peer's chain in order. |
| `FetchPlan.ScanIsSound` | src/net_processing.cpp:510-540 | Only blocks on the peer's chain, rising, inside the window, neither here nor in flight, and at most as many as asked for. |
| `FetchPlan.ScanIsComplete` | src/net_processing.cpp:510-540 | The lowest missing blocks are taken, and the scan stops short only at a refused block or the end of the window. |
| `FetchPlan.ScanNamesStaller` | src/net_processing.cpp:524-539 | A peer is named as staller if and only if the scan reached a missing block just beyond the window with none missing before it, and the lowest awaited block is in flight from that peer, which is another one. |
| `FetchPlan.ScanKeepsLastCommon` | src/net_processing.cpp:519-521 | The last common block moves to the highest block scanned that is here and connected. |
| `FetchPlan.FindNextBlocks` | src/net_processing.cpp:483-542 | The batched walk equals the scan one block at a time, and so has all four properties; nothing is requested from a peer with nothing above the last common block. |
| `FetchPlan.FindNextBlocksToDownload` | src/net_processing.cpp:458-542 | Nothing for a count of zero or a peer without as much work as the tip and the minimum; otherwise the plan from the last common ancestor of the peer's best block and the remembered or guessed block. |
| `InFlight.QueuesAreDisjoint` | src/net_processing.cpp:109-109 | A block is in flight from at most one peer and queued once. |
| `InFlight.ReceivedKeeps` | src/net_processing.cpp:305-325 | An arrival removes the block from map and queue and settles every counter. |
| `InFlight.RequestedKeeps` | src/net_processing.cpp:330-361 | A request puts the block in flight from exactly this peer, taking it from whoever had it, and changes nothing else in the map. |
| `InFlight.InitializedKeeps` | src/net_processing.cpp:562-572 | A new peer starts with nothing; no known peer, block in flight or counter changes. |
| `InFlight.FinalizedKeeps` | src/net_processing.cpp:574-605 | Removing a peer leaves exactly the others' blocks; the counters stay non-negative and are all zero after the last peer. |
| `InFlight.PreferredKeeps` | src/net_processing.cpp:271-279 | The preferred count follows the flags. |
| `InFlight.ProtectedKeeps` | src/net_processing.cpp:1440-1443 | The protected count follows the flags and stays at most four. |
| `InFlight.RequestAllKeeps` | src/net_processing.cpp:1392-1402 | A guarded or fitting batch of requests keeps every peer within its limit. |
| `InFlight.CompactBlockKeeps` | src/net_processing.cpp:2340-2352 | A compact block is taken from the peer it is in flight from, or from one with a free place if it is in flight from nobody; it is then being rebuilt, and limit and invariant are kept. |
| `InFlight.CompactedKeeps` | src/net_processing.cpp:2343-2346 | Starting the partial block of an entry changes nothing but that. |
| `InFlight.DoKeeps` | src/net_processing.cpp:305-605 | Every action under its caller's guard keeps the invariant and the limit. |
| `InFlight.EveryRunIsConsistent` | src/net_processing.cpp:305-605 | In every state of every run the map is the disjoint union of the queues, all counters agree, and no peer has more than 16 blocks in flight. |
| `InFlight.RunGoesOn` | src/net_processing.cpp:305-605 | Every allowed action is defined at the end of every run: no list iterator kept in the map is stale. |
| `InFlight.Downloads.constructor` | src/net_processing.cpp:109-121 | Starts consistent. |
| `InFlight.Downloads.MarkBlockAsReceived` | src/net_processing.cpp:305-325 | Equals the model step, and tells whether the block had been requested. |
| `InFlight.Downloads.Append` | src/net_processing.cpp:346-357 | Equals the model step. |
| `InFlight.Downloads.MarkBlockAsInFlight` | src/net_processing.cpp:330-361 | Equals the model step, and is false exactly when the block was already in flight from this peer. |
| `InFlight.Downloads.InitializeNode` | src/net_processing.cpp:562-572 | Equals the model step. |
| `InFlight.Downloads.FinalizeNode` | src/net_processing.cpp:574-605 | Equals the model step; every assert of the original holds. |
| `InFlight.Downloads.UpdatePreferredDownload` | src/net_processing.cpp:271-279 | Equals the model step. |
| `InFlight.Downloads.RequestBlocks` | src/net_processing.cpp:3565-3569 | Requests a whole batch, as the model step. |
| `InFlight.Downloads.StartCompact` | src/net_processing.cpp:2340-2352 | Equals the model step, and goes on exactly when the block is taken and was not yet being rebuilt. |
| `InFlight.Downloads.Prepare` | src/net_processing.cpp:2344-2345 | Equals the model step, and tells whether the entry had no partial block. |
| `InFlight.Downloads.DirectFetch` | src/net_processing.cpp:1392-1402 | Requests a prefix of the list, all then in flight from this peer, within the limit. |
| `BlockFetch.PlanIsNew` | src/net_processing.cpp:458-542 | Nothing the plan asks for is in flight from anybody. |
| `BlockFetch.RequestNext` | src/net_processing.cpp:3561-3569 | Plan and bookkeeping together: only blocks in flight from nobody are requested, all are in flight from this peer afterwards, the batch fits its free places, and the state stays consistent. |
| `Bloom.PutGen` | src/bloom.cpp:273-274 | Writing two bits sets the generation of exactly one position. |
| `Bloom.WipeGen` | src/bloom.cpp:256-264 | The mask clears exactly the positions of one generation, 64 at a time. |
| `Bloom.RollKeeps` | src/bloom.cpp:250-265 | Starting a generation forgets nothing of the last two. |
| `Bloom.MarkKeeps` | src/bloom.cpp:269-275 | Overwriting a position with the current generation forgets nothing. |
| `Bloom.InsertKeeps` | src/bloom.cpp:248-276 | A key marked everywhere joins what is remembered. |
| `Bloom.RollingBloomFilter.constructor` | src/bloom.cpp:216-241 | Generations of half the element count, rounded up; nothing remembered. |
| `Bloom.RollingBloomFilter.Reset` | src/bloom.cpp:304-312 | Every position is unset. |
| `Bloom.RollingBloomFilter.Wipe` | src/bloom.cpp:258-264 | The loop clears exactly the positions of the current generation number. |
| `Bloom.RollingBloomFilter.Mark` | src/bloom.cpp:270-274 | Sets exactly one position. |
| `Bloom.RollingBloomFilter.Insert` | src/bloom.cpp:248-276 | The key joins the history, and all of the last two generations and the current one stays remembered. |
| `Bloom.RollingBloomFilter.Contains` | src/bloom.cpp:284-296 | True exactly when every position is set, hence for each of the last two generations' keys and those of the current one, whatever the hash function. |
| `Cuckoo.ComputeHashes` | src/cuckoocache.h:243-253 | Eight locations inside the table for every element. |
| `Cuckoo.StoredOk` | src/cuckoocache.h:411-413 | Storing an absent element at a location of its own keeps every element at its own location, once. |
| `Cuckoo.StoredLive` | src/cuckoocache.h:411-413 | Over garbage the live set gains the element; over a live slot it exchanges one for the other. |
| `Cuckoo.StoredRecents` | src/cuckoocache.h:411-413 | The count of live recent slots changes by that slot only. |
| `Cuckoo.FoundAtLocations` | src/cuckoocache.h:400-405 | An element not found at its locations is nowhere in the table. |
| `Cuckoo.SwapOk` | src/cuckoocache.h:430-435 | Swapping moves one live element into the hand and loses none. |
| `Cuckoo.AgedOk` | src/cuckoocache.h:305-310 | Aging only lets live elements of the old epoch go and leaves none recent. |
| `Cuckoo.Cache.constructor` | src/cuckoocache.h:340-353 | At least two slots, none live; the epoch is 45 percent of them if and only if there are at most 95443717, beyond which the 32-bit product wraps. |
| `Cuckoo.Cache.CountRecent` | src/cuckoocache.h:297-300 | The loop counts the live recent slots. |
| `Cuckoo.Cache.AgeAll` | src/cuckoocache.h:306-310 | The loop ages exactly as specified. |
| `Cuckoo.Cache.EpochCheck` | src/cuckoocache.h:289-321 | Leaves room for one more recent element within the bound, and ages only when the epoch is full. |
| `Cuckoo.Cache.Keep` | src/cuckoocache.h:400-405 | Finding the element makes it live again in place. |
| `Cuckoo.Cache.Place` | src/cuckoocache.h:406-440 | The cuckoo loop conserves the live set plus the new element, up to the one left in hand when the depth runs out. |
| `Cuckoo.Cache.Insert` | src/cuckoocache.h:392-440 | The same for a whole insert after a possible aging; elements stay at their own locations without duplicates, and recent live slots stay within epoch size plus max(1, epoch size / 16). |
| `Cuckoo.Cache.Contains` | src/cuckoocache.h:467-477 | True exactly when the element is in the table; erasing takes exactly it out of the live set. |
| `Framing.LE32RoundTrip` | src/protocol.h:50-57 | The size field survives writing and reading. |
| `Framing.Header` | src/net.cpp:2838-2844 | Twenty-four bytes that announce the payload's length. |
| `Framing.PushKeeps` | src/net.cpp:2853-2859 | Queueing header and payload extends the stream by exactly that message, and the size by its bytes. |
| `Framing.SendKeeps` | src/net.cpp:861-874 | A partial send moves exactly those bytes from the queue to what was sent. |
| `Framing.Sender.PushMessage` | src/net.cpp:2832-2867 | Sent plus queued bytes are the stream of the pushed messages, and `nSendSize` is the sum of the queued buffers. |
| `Framing.Sender.SocketSendData` | src/net.cpp:846-896 | The same under any results of the socket; all three asserts hold. |
| `Framing.ReadHeaderOk` | src/net.cpp:781-810 | A header takes exactly the bytes it appends, and fails only by announcing too much. |
| `Framing.ReadDataOk` | src/net.cpp:812-827 | Data take exactly the bytes they append, within the announced size. |
| `Framing.PrefixMatches` | src/net.cpp:702-752 | Complete messages at the front of the stream are the first messages sent, in order. |
| `Framing.HonestNotOversized` | src/net.cpp:725-731 | In an honest stream no header announces too much. |
| `Framing.Receiver.Absorb` | src/net.cpp:711-748 | One round of the loop takes a non-empty piece, or is stopped by a header that announces too much. |
| `Framing.Receiver.ReceiveMsgBytes` | src/net.cpp:702-752 | All bytes are absorbed, or the stream is refused at a header that announces too much after the complete messages; an honest stream is never refused. |
| `Framing.Receiver.HandOn` | src/net.cpp:1330-1343 | The complete messages at the front move on, in order. |
| `Framing.Receiver.OnRead` | src/net.cpp:1324-1346 | After a read every complete message has been handed on, the peer disconnected or not; it is disconnected only at a header that announces too much right after them, and never for an honest stream. |
| `Framing.DeliveredIsPrefix` | src/net.cpp:702-896 | However sends and reads were cut: the messages handed on are the first ones pushed, unchanged and in order, and exactly those whose bytes have all arrived. |
| `Base58.NumOfDigits` | src/base58.cpp:98-107 | The shortest digits of a number stand for it. |
| `Base58.DigitsOfNum` | src/base58.cpp:59-67 | Digits without a leading zero are the shortest ones of their number. |
| `Base58.MulAdd` | src/base58.cpp:42-51 | The in-place pass multiplies and adds, may stop early, and leaves no carry. |
| `Base58.EncodeFits` | src/base58.cpp:80-82 | n bytes fit in n * 138 / 100 + 1 base-58 digits, for every n. |
| `Base58.DecodeFits` | src/base58.cpp:33-35 | n base-58 digits fit in n * 733 / 1000 + 1 bytes, for every n. |
| `Base58.EncodeBase58` | src/base58.cpp:71-109 | Equals the specified encoding; the `carry == 0` assert holds. |
| `Base58.DecodeWord` | src/base58.cpp:33-53 | Reads a word as a number, failing exactly at a character outside the alphabet; the assert holds. |
| `Base58.DecodeBase58` | src/base58.cpp:21-69 | Equals the specified decoding, spaces and failures included. |
| `Base58.DecodeEncode` | src/base58.cpp:21-109 | Decoding inverts encoding on every byte string. |
| `Base58.EncodeDecode` | src/base58.cpp:21-109 | Encoding inverts decoding on every string over the alphabet. |
| `Base58.DecodesIff` | src/base58.cpp:21-69 | A string decodes if and only if it is a word over the alphabet with only spaces around it. |

## Left out

- CheckQueue.Queue.Add: counters are unbounded numbers, so a wrap-around of the 32-bit `nTodo` is not modelled; underflow is shown not to happen.
- CCheckQueueControl and the mutex that admits one controller at a time are taken for granted: one master.
- Coins.RunsRefine: adds and spends go to the top cache only, as in the original, since a cache does not see changes made below it behind its back; best block hashes, the cursor, batch sizes and crash recovery of the database are not modelled.
- AddrMan.EveryRunIsConsistent: `Select_` and `GetChance` are probabilistic and not modelled; bucket hashes are arbitrary functions, and 32- and 64-bit fields are unbounded.
- AddrManDisk.Unserialize: files are records and lists, not bytes.
- Miner.BlockAssembler.AddPackageTxs: failing contracts with parents or children in the pool are not admitted, since the loop need not end then; what each round does with them is stated for rounds. Fee rates are compared by exact products, where the original multiplies doubles.
- Miner.ModsOkIff: cached totals are integers; the wrap-around of a 64-bit size that failing contracts push below zero is not modelled.
- Miner.BlockAssembler.UpdateDescendants: the cached fees are computed but not stated, because the code subtracts the modified fee of one ancestor and the plain fees of the others.
- Miner.BlockAssembler.UpdatePackagesForAdded: the cached fees are not stated, for the same reason.
- Miner.BlockAssembler.SortForBlock: an own selection sort stands for the library sort.
- Contract execution, refunds, the coinbase, witness commitment and the casino consensus are outside the model.
- Merkle.RoundTrip: the node hash is assumed injective, and transaction ids distinct, which the original relies on a cryptographic hash for.
- CompactBlock.PartiallyDownloadedBlock.InitData: announcements of 65537 to 100000 transactions are left out, where the 16-bit slot numbers of the original no longer denote slots, and so are announced ids that collide with the id of an empty extra slot, where it follows a null pointer; the statistics counters are not modelled.
- CompactBlock.Relay: stated without short id collisions; the bytes of the compact size encoding are not modelled.
- Arith.BaseUint.MulAssign: only the width of 256 bits is instantiated; conversion to floating point and hexadecimal strings is not modelled.
- Chain.ActiveChain.GetLocator: heights are unbounded, so an overflow of the 32-bit step beyond 2^30 blocks is not modelled.
- `FindEarliestAtLeast` and `GetBlockProofEquivalentTime` would only add easy members; the code of `GetBlockProof` after its first line is dead.
- FetchPlan.FindNextBlocksToDownload: which block the peer last announced is a parameter; a tree with one genesis is required, without which the original follows a null pointer.
- BlockFetch.RequestNext: the stall timer that a named staller starts is not modelled.
- InFlight.EveryRunIsConsistent: orphan transactions, misbehaviour scores and timeouts are not modelled; download start times are carried along but nothing is stated about them.
- Bloom.RollingBloomFilter.Contains: the false positive rate, the sizes derived from it in floating point, and `CBloomFilter` are not modelled.
- Cuckoo.Cache.Insert: single-threaded; the relaxed atomics that allow concurrent `contains` are not modelled, and the depth limit is a parameter.
- Framing.DeliveredIsPrefix: the checks of start bytes and checksum when a message is processed, flood limits and statistics are not modelled; command and checksum are given as bytes.
- Base58.DecodeBase58: strings end at their length instead of a terminating zero; the checksummed and address formats on top are not modelled.
