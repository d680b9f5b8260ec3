# Verium core data structures, in Dafny

Verium is a Bitcoin Core 0.19 derivative written in C++. This project models its most intricate stateful
algorithms and proves what each of them is for: statements about every run, every reachable state or every input.

| area | files | main results |
|---|---|---|
| UTXO cache stack | `Coins.dfy` | a stack of write-back caches of any depth answers every run like one plain map; a FRESH flag is never misapplied; a coin created and spent in between leaves no trace |
| Address manager | `AddrTable.dfy`, `AddrMan.dfy`, `AddrEffects.dfy`, `AddrResolve.dfy`, `AddrStats.dfy`, `AddrGroups.dfy`, `AddrCheck.dfy`, `AddrDump.dfy`, `AddrForeign.dfy`, `AddrFile.dfy` | every run keeps the full consistency condition of the debug check; how each collision is decided; no run lets a group of sources out of its 64 buckets; the file format loses nothing; exactly which files load to a consistent manager |
| Block template | `Miner.dfy` | limits, order, closure, fees, termination and maximality of package selection; every try of a run justified, and giving up after exactly 1001 failures in a row |
| Check queue | `CheckQueue.dfy` | in every interleaving the verdict is the conjunction of all checks; no deadlock; bounded waiting; no work left with all workers asleep |
| Merkle trees | `MerkleTree.dfy`, `MerkleBlock.dfy`, `MerkleSizes.dfy`, `MerkleRoot.dfy` | a proof that checks against the root reports only genuine transactions, whatever count it claims; the root decides the list unless it is reported as mutated; what is built comes back; exact sizes |
| 256-bit arithmetic | `Limbs.dfy`, `ArithUint256.dfy`, `Compact.dfy` | limb loops refine the integers modulo 2^256; compact targets, their one canonical form, and block proof |
| Block index tree | `SkipHeights.dfy`, `Chain.dfy` | skip-list walks equal parent walks and take at most 110 steps among 2^18 blocks; fork points; locators and their exact length |
| Cuckoo cache | `Cuckoo.dfy`, `CuckooCache.dfy` | every element in its own slots and once; one insert loses at most one element; epoch bound; what erasing does |
| Rolling bloom filter | `RollingBloom.dfy` | none of the last `nElements` keys is ever forgotten; it answers exactly like a Bloom filter of the kept keys |
| Block filters | `BitStreams.dfy`, `Golomb.dfy`, `BlockFilter.dfy` | bit streams through a byte of buffer; a filter matches exactly when hashed images meet |
| Compact blocks | `CompactBlocks.dfy` | exactly what each slot holds after looking through the pools; reconstruction gives the original block |
| Base58 | `Digits.dfy`, `Base58.dfy` | the two directions are inverse; the buffer estimates always suffice |

`Numbers.dfy`, `BitOps.dfy` and `Sequences.dfy` hold shared arithmetic, bit and sequence facts, `Options.dfy` optional
values.

How the model is built. An object that the source updates in place is a class (`CoinsView`, `CAddrMan`,
`BlockAssembler`, `CPartialMerkleTree`, `BaseUint`, `CChain`, `Cache`, `RollingBloomFilter`, `BitStreamWriter`,
`BitStreamReader`, `PartiallyDownloadedBlock`), and each of its methods is tied to a function of the old state; the
theorems are about those functions. The check queue is a state machine whose steps are the critical sections of `Loop`
and `Add` and the execution of single checks. Hash functions are parameters: arbitrary everywhere, except that the
two-input merkle hash is taken to be injective. Clocks, random draws and the iteration order of hashed containers are
parameters or nondeterministic choices.

Constants are those of this fork: `WITNESS_SCALE_FACTOR` is 1, `MAX_BLOCK_WEIGHT` 1,000,000,
`MAX_BLOCK_SIGOPS_COST` 40,000, `MAX_SIZE` 0x02000000.

## Where the code and its comments differ

The model follows the code.

- `src/cuckoocache.h:419-420` says the first swap goes to `locs[0]`. It goes to `locs[1]` (`Cuckoo.FirstSwap`).
- `src/merkleblock.h:47` says there are at most 2N-1 flag bits. `MerkleSizes.BitBoundFails` shows three transactions
  that need more, and `MerkleSizes.SizeBounds` that the bound holds exactly when no height has an odd number of nodes
  below it while a match lies under its last node.
- `src/merkleblock.h:34` calls SIZE <= 10 + ceil(32.25*N) a hard guarantee. `MerkleSizes.SizeBoundFails` shows that
  1012 transactions, all matched, take one byte more, and `MerkleSizes.SerializedBound` when exactly it holds.
- `src/cuckoocache.h:348-349` speaks of 45 percent of the table. The product is a 32-bit one, so that this is true
  exactly up to 95,443,717 entries (`CuckooCache.EpochIsShare`).
- For the seven largest 32-bit sizes the cuckoo cache has no collection flags at all: the rounded-up count of
  `src/cuckoocache.h:64` wraps (`CuckooCache.FlagsSuffice`).
- Nothing stops a peers file from naming an address twice; the manager it loads to is consistent exactly when the
  entries of every address that occurs twice are pruned again (`AddrForeign.LoadConsistent`).
- A block filter is built for any set smaller than 2^32, but its own encoding is read back exactly when the set has at
  most `MAX_SIZE` elements (`BlockFilter.OwnEncoding`, `BlockFilter.BuildAndMatchAny`).
- `AddCoin` has already reduced the memory counter when it throws (`src/coins.cpp:75-81`); its contract says by how much.
- `CAddrMan::Clear` keeps the collision set (`src/addrman.h:456-478`), and so does `AddrFile.Clear`.

## Model

| member | source | states |
|---|---|---|
| Coins.SoundIsNotMisapplied | src/coins.cpp:147-203 | in a sound stack no child cache handed down can trigger the "FRESH flag misapplied" error |
| Coins.PushedIsOverlay | src/coins.cpp:147-203 | writing only the dirty entries of a sound cache to its base gives exactly the view the cache showed |
| Coins.FreshIffAbsent | src/coins.h:117-125 | marking a dirty entry FRESH keeps the stack sound if and only if the parent view has no such coin |
| Coins.FetchKeepsView | src/coins.cpp:42-57 | caching what the base answered, spent or not, changes neither soundness nor the view |
| Coins.AddedEntryOk | src/coins.cpp:68-87 | the FRESH rule of AddCoin is sound in all its cases, and the view gains exactly the new coin |
| Coins.SpentEntryOk | src/coins.cpp:100-114 | a spent FRESH entry may be erased and any other must stay as dirty and spent; either way the view loses exactly that coin |
| Coins.UncachedOk | src/coins.cpp:212-219 | dropping an unmodified entry cannot be observed |
| Coins.WrittenOk | src/coins.cpp:147-203 | each case of merging one child entry keeps the parent sound and puts exactly that coin into its view |
| Coins.WrittenEntry | src/coins.cpp:147-203 | a merged entry is dirty, and FRESH if ours was or, where we had none, if the child's was; only what is FRESH and spent disappears; no other entry changes |
| Coins.FlushedThenSpent | src/coins.cpp:147-203 | a coin flushed as FRESH into a cache without it, and later flushed as spent, leaves no trace there |
| Coins.UsageUpdate | src/coins.cpp:38-40 | replacing an entry changes the total memory use by exactly the difference of the two coins |
| Coins.ScriptRules | src/script/script.h:557-560 | spendable are exactly the scripts of at most 10000 bytes that do not start with OP_RETURN; what a script of each length takes in memory |
| Coins.CoinsView.Cache | src/coins.cpp:36-36 | a new empty cache shows the view of its base |
| Coins.CoinsView.GetCoin | src/coins.cpp:59-66 | through any number of levels, a coin is found exactly when the view has it, and looking changes no view |
| Coins.CoinsView.FetchCoin | src/coins.cpp:42-57 | an entry is found exactly if it was cached or the base view has the coin (a store may also report a pruned one); a new entry holds the base's coin, clean, and FRESH exactly if the base has none; no other entry and no view changes |
| Coins.CoinsView.HaveCoin | src/coins.cpp:127-130 | true exactly for the coins of the view |
| Coins.CoinsView.AddCoin | src/coins.cpp:68-87 | fails exactly when it would overwrite a coin of the view without permission; otherwise the view gains the coin unless it is unspendable, when nothing changes; the entry holds the coin and is dirty, and it is FRESH exactly if it was before, or no overwriting was expected and it was not cached dirty; no other entry changes; accounting holds on normal return, and on failure the counter is short by the entry kept |
| Coins.AddCoins | src/coins.cpp:89-98 | never fails for a coinbase or when checking; otherwise stops exactly at the first output that would replace an unspent coin; the view gains exactly the spendable outputs before that point |
| Coins.CoinsView.SpendCoin | src/coins.cpp:100-114 | the view loses exactly that coin and the caller receives it; whatever was cached is reported as found, spent or not; afterwards the entry is gone or dirty and spent, and gone exactly if it was FRESH or neither cached nor in the base; accounting holds |
| Coins.CoinsView.AddThenSpend | src/coins.cpp:68-114 | a coin added to a cache whose parent has none, and spent before any flush, is given back and leaves the cache as it was |
| Coins.CoinsView.Uncache | src/coins.cpp:212-219 | no view changes; a modified or FRESH entry stays as it is and any other is dropped; no other entry changes |
| Coins.CoinsView.BatchWrite | src/coins.cpp:147-203 | fails exactly if a modified FRESH entry of the child meets an unspent coin cached here; a sound child is merged so that the parent's view becomes the child's; in every case exactly the entries processed so far are merged and all others are as before; accounting holds |
| Coins.CoinsView.Flush | src/coins.cpp:205-210 | always succeeds, leaves the top view unchanged, makes the level below equal to it and empties the cache |
| Coins.CoinsView.FlushAll | src/coins.cpp:205-210 | flushing level by level carries the top view down to the store at the bottom |
| Coins.CoinsView.Maintain | src/coins.cpp:205-219 | fetching, dropping or flushing at any level of the stack is invisible at the top |
| Coins.CoinsView.Apply | src/coins.cpp:42-219 | one operation on the stack has the output and the effect it has on a plain map |
| Coins.CoinsView.Run | src/coins.cpp:42-219 | every legal run on a stack of any depth has the outputs and the final view of the same run on a plain map |
| AddrTable.SwapRandomOk | src/addrman.cpp:92-110 | swapping keeps the random list a bijection with the stored positions and touches nothing else |
| AddrTable.DeleteOk | src/addrman.cpp:112-124 | deleting an unreferenced new entry keeps all six structures consistent |
| AddrTable.ClearNewOk | src/addrman.cpp:126-139 | freeing a new slot keeps consistency, also when the last reference goes and the entry is deleted |
| AddrTable.MakeTriedOk | src/addrman.cpp:141-187 | moving an entry to tried keeps consistency; the entry ends in its own tried slot and no other tried slot changes |
| AddrTable.GoodOk | src/addrman.cpp:189-253 | a good connection keeps consistency, occupied tried slots, and the soundness and size bound of the collision set |
| AddrTable.UntriedIsInABucket | src/addrman.cpp:218-233 | an entry that is not tried is always in some new bucket, so the bail-out for "no bucket found" is unreachable |
| AddrTable.PlaceOk | src/addrman.cpp:304-324 | placing an entry in a new bucket keeps consistency in each case: free slot, replacement and rejection |
| AddrTable.AddOk | src/addrman.cpp:255-326 | adding an address keeps consistency, tried slots and collisions, whatever the source, penalty, clock and luck |
| AddrTable.AttemptOk | src/addrman.cpp:328-348 | recording an attempt keeps consistency and proper time stamps |
| AddrTable.ConnectedOk | src/addrman.cpp:496-514 | refreshing a time stamp keeps consistency |
| AddrTable.SetServicesOk | src/addrman.cpp:516-532 | changing the service bits keeps consistency |
| AddrTable.ResolveOneOk | src/addrman.cpp:534-591 | resolving one collision keeps consistency, proper time stamps and every occupied tried slot, and removes at most that id from the collision set; which collision is decided how is stated by AddrResolve.ResolveMoves |
| AddrTable.ResolveOk | src/addrman.cpp:534-591 | the same for all collisions in turn; their decisions are stated by AddrResolve.ResolveAllMoves |
| AddrTable.CollisionHasOccupant | src/addrman.cpp:593-618 | every known id in the collision set has an occupied tried slot, so the lookup of id -1 is unreachable |
| AddrTable.ShufflesOk | src/addrman.cpp:475-494 | any number of swaps of the random list keeps consistency |
| AddrTable.ClearedOk | src/addrman.h:456-478 | an empty manager is consistent |
| AddrTable.StepOk | src/addrman.cpp:80-618 | every public operation keeps consistency, occupied tried slots stay occupied, and the collision set is sound and at most 10 large |
| AddrTable.RunOk | src/addrman.cpp:80-618 | the same over every run of operations, with proper time stamps when the clocks given are |
| AddrEffects.EvictMoves | src/addrman.cpp:159-181 | the evicted tried entry lands in its home new slot, and at most the former holder of that slot is lost |
| AddrEffects.MakeTriedMoves | src/addrman.cpp:141-187 | exactly which slots and entries change: the entry leaves all new slots and takes its tried slot, whose former holder goes to its home new slot; all else known of every entry stays |
| AddrEffects.GoodMoves | src/addrman.cpp:189-253 | the branch taken for unknown, already tried, colliding (at most 10 pending) and promoted entries, each with its exact effect on entries, tables and collisions |
| AddrEffects.PlaceMoves | src/addrman.cpp:304-324 | the entry takes the slot exactly when it is free, its own, or held by a terrible or many-times-referenced entry; otherwise only an unreferenced newcomer is dropped |
| AddrEffects.AddMoves | src/addrman.cpp:255-326 | reports new exactly for a routable unknown address, which enters, with its time less the penalty and nothing else known, exactly if its slot makes room; tried table and collisions never change; a known address is never lost |
| AddrResolve.ResolveMoves | src/addrman.cpp:534-591 | told from clock readings and tables alone: an unknown or invalid id, or one whose slot is held by an address reached within four hours, only leaves the set; a free slot, a holder tried within four hours but more than a minute ago, or one not tried while the newcomer has waited more than 40 minutes, makes the id tried in its slot and its holder untried; otherwise nothing changes |
| AddrResolve.ReplacedMoves | src/addrman.cpp:563-583 | replacing puts the id into its tried slot, sends the holder back to new, changes nothing else known of any entry, and drops the id from the set |
| AddrResolve.ResolveAllMoves | src/addrman.cpp:534-591 | the pending collisions are decided so one after the other, in id order |
| AddrResolve.ResolveProtects | src/addrman.cpp:554-560 | whoever was reached within four hours keeps the tried slot through the resolution of all collisions |
| AddrStats.AttemptMoves | src/addrman.cpp:328-348 | only the entry of the exact address and port changes: its last try is set, and a failure is counted exactly if asked for and not yet counted since the last success of any connection |
| AddrStats.AttemptsCountOnce | src/addrman.cpp:342-347 | between two successes any number of failed attempts on an address counts as one |
| AddrStats.ConnectedMoves | src/addrman.cpp:496-514 | the time moves to the new one exactly if that is more than 20 minutes later; nothing else changes |
| AddrStats.SetServicesMoves | src/addrman.cpp:516-532 | the services of the exact address and port are replaced; nothing else changes |
| AddrStats.RefreshedTimes | src/addrman.cpp:268-276 | hearing again adds services and moves the time to the announced one less the penalty, exactly if that is by more than an hour for an announcement of the last day and a day for an older one |
| AddrStats.TerribleIff | src/addrman.cpp:32-50 | the five grounds in seconds and counts, none of which holds within a minute of an attempt |
| AddrStats.ReachedThisWeek | src/addrman.cpp:32-50 | an address seen this month and reached this week is not terrible, however often it failed since |
| AddrStats.HeardAgain | src/addrman.cpp:258-326 | a known address gains the slot its source selects exactly if the news is newer, it is untried with fewer than 8 references, it is lucky, and the slot is free or held by a terrible entry; otherwise no slot changes and nobody is lost |
| AddrGroups.TriedIsConfined | src/addrman.h:131-132 | in a consistent manager the addresses of a network group hold tried slots in at most 8 buckets, at most 512 in all |
| AddrGroups.TriedBucketHere | src/addrman.cpp:11-16 | the tried bucket of an address is one of 8 that its group determines |
| AddrGroups.NewBucketHere | src/addrman.cpp:18-24 | the new bucket of an address is one of 64 that the group of its source determines |
| AddrGroups.MakeTriedLocal | src/addrman.cpp:141-187 | an entry sent back to new lands in a bucket of the group it was first heard from |
| AddrGroups.RunLocal | src/addrman.cpp:80-618 | over every run of operations, all new slots in use lie in the buckets of the groups that addresses were heard from |
| AddrGroups.SourcesAreConfined | src/addrman.h:96-111 | after any run from an empty manager, sources of n network groups occupy at most 64 * n new buckets and 4096 * n slots |
| AddrMan.CAddrMan.constructor | src/addrman.h:456-478 | a new manager is empty and valid, with 256 tried and 1024 new buckets of 64 positions |
| AddrMan.CAddrMan.Find | src/addrman.cpp:67-78 | with a sound address index it finds exactly the addresses that some entry has, and the id of the one entry that has it |
| AddrMan.CAddrMan.Create | src/addrman.cpp:80-90 | in-place creation refines the table-level creation with a fresh id |
| AddrMan.CAddrMan.SwapRandom | src/addrman.cpp:92-110 | the in-place swap refines the table-level swap |
| AddrMan.CAddrMan.Delete | src/addrman.cpp:112-124 | the in-place deletion refines the table-level deletion and its assertions hold |
| AddrMan.CAddrMan.ClearNew | src/addrman.cpp:126-139 | clearing a slot of the array refines freeing it in the table |
| AddrMan.CAddrMan.RemoveFromNew | src/addrman.cpp:143-153 | scanning the buckets removes every reference to the entry and ends with reference count 0 |
| AddrMan.CAddrMan.EvictTried | src/addrman.cpp:159-181 | the in-place eviction refines the table-level one and its assertions hold |
| AddrMan.CAddrMan.MakeTried | src/addrman.cpp:141-187 | the in-place move refines the table-level move |
| AddrMan.CAddrMan.FindNewBucket | src/addrman.cpp:218-228 | the wrap-around scan from a random bucket finds a bucket exactly when the entry is in one |
| AddrMan.CAddrMan.Good_ | src/addrman.cpp:189-253 | refines the table-level operation on every valid manager and keeps it valid |
| AddrMan.CAddrMan.PlaceNew | src/addrman.cpp:304-324 | refines the table-level placement |
| AddrMan.CAddrMan.Reinforce | src/addrman.cpp:291-296 | an entry with N references gets another one exactly if a draw below 2^N is zero |
| AddrMan.CAddrMan.Add_ | src/addrman.cpp:255-326 | refines the table-level operation, result included, the stochastic test passing one draw in 2^N for N references, and keeps the manager valid |
| AddrMan.CAddrMan.Attempt_ | src/addrman.cpp:328-348 | refines the table-level operation and keeps the manager valid |
| AddrMan.CAddrMan.Connected_ | src/addrman.cpp:496-514 | refines the table-level operation and keeps the manager valid |
| AddrMan.CAddrMan.SetServices_ | src/addrman.cpp:516-532 | refines the table-level operation and keeps the manager valid |
| AddrMan.CAddrMan.ResolveCollision | src/addrman.cpp:537-589 | refines one step of collision resolution and decides it as AddrResolve.ResolveMoves states |
| AddrMan.CAddrMan.ResolveCollisions_ | src/addrman.cpp:534-591 | the loop over the collision set refines resolving each id once; each is decided as stated there, and whoever was reached within four hours keeps the tried slot |
| AddrMan.CAddrMan.SelectTriedCollision_ | src/addrman.cpp:593-618 | what is returned is a tried entry in the very slot the chosen collision wants; nothing is returned only if there is no collision or the chosen id is gone |
| AddrMan.CAddrMan.GetAddr_ | src/addrman.cpp:475-494 | at most 23 percent and at most 2500 addresses, all known and not terrible, no address twice; a list below that limit holds every address that is not terrible; the shuffle keeps the manager valid |
| AddrMan.CAddrMan.TestOrMove | src/addrman.cpp:235-252 | with a tested occupant only the collision set grows, up to its limit; otherwise the id moves to tried |
| AddrCheck.SanePasses | src/addrman.cpp:398-472 | every consistent manager with proper time stamps and key meets all conditions of the check |
| AddrCheck.PassesIsSane | src/addrman.cpp:398-472 | conversely, passing the check means consistency, given sound ids and address index |
| AddrCheck.CheckInfos | src/addrman.cpp:406-430 | the scan of the entries returns 0 exactly when every entry is in order, and collects the tried ids and reference counts; any other code is that of some entry |
| AddrCheck.CodeMeans | src/addrman.cpp:409-430 | what each code of an entry says, and what it takes to get none |
| AddrCheck.CheckTried | src/addrman.cpp:437-449 | the scan of the tried table leaves nothing over exactly when tried ids and tried slots are in bijection, each in its own slot |
| AddrCheck.CheckNew | src/addrman.cpp:451-462 | the scan of the new table leaves nothing over exactly when every reference count equals the number of slots, each in its own position |
| AddrCheck.Check_ | src/addrman.cpp:398-472 | the code is 0 if and only if all those conditions hold, for every manager; each other code tells which test failed first |
| AddrDump.RoundTrip | src/addrman.h:301-454 | loading the dump of any consistent manager gives the same addresses, key, slots and reference counts up to a renaming of ids, with nothing lost |
| AddrDump.RenamedOk | src/addrman.h:351-454 | a renamed copy of a consistent manager is consistent |
| AddrDump.DumpAccepted | src/addrman.h:371-377 | the size limits of the reader never refuse the dump of a consistent manager |
| AddrDump.DumpForm | src/addrman.h:301-348 | the header written: version 1, key size 32, 1024 exclusive-or 2^30 buckets, the exact counts; each record carries address, source, last success and attempts |
| AddrDump.SizeChecks | src/addrman.h:361-386 | accepted are exactly a key of 32 bytes, at most 65536 new and 16384 tried records; the written table is used exactly for version 1 with 1024 buckets |
| AddrDump.PositionsSize | src/addrman.h:371-377 | a table of b buckets of n positions has exactly b times n slots |
| AddrDump.LoadNewOk | src/addrman.h:380-397 | after n records exactly the first n new entries are rebuilt under the ids 0 to n-1 |
| AddrDump.LoadTriedOk | src/addrman.h:400-418 | every tried entry finds its slot free, so none is lost |
| AddrDump.LoadBucketsOk | src/addrman.h:421-436 | after n buckets exactly their slots and references are restored |
| AddrDump.LoadedRandom | src/addrman.h:380-436 | even for a foreign dump the random list stays a bijection, so pruning is safe |
| AddrForeign.BucketsFiled | src/addrman.h:380-436 | for every complete dump the tables, counts, ids and the random list fit each other before pruning, and every address is indexed |
| AddrForeign.PruneSound | src/addrman.h:438-448 | pruning takes away exactly the entries in no table, and their addresses from the index, and keeps the tables sound |
| AddrForeign.LoadConsistent | src/addrman.h:351-454 | any complete dump loads to a consistent manager if and only if no two loaded records share an address, save where both are pruned |
| AddrForeign.DistinctLoads | src/addrman.h:351-454 | a dump whose records have distinct addresses loads to a consistent manager, whatever else it says |
| AddrFile.WriteNew | src/addrman.h:314-324 | writes the new entries in id order and numbers exactly them; the counter assertion holds |
| AddrFile.WriteTried | src/addrman.h:325-333 | writes the tried entries in id order; the counter assertion holds |
| AddrFile.WriteBucket | src/addrman.h:334-347 | lists the occupied positions of a bucket in order by the numbers of their entries |
| AddrFile.Serialize | src/addrman.h:301-348 | the writing loops produce the dump of the manager |
| AddrFile.Clear | src/addrman.h:456-478 | everything but the collision set is emptied |
| AddrFile.ReadInfos | src/addrman.h:380-418 | the two reading loops refine loading the records, for every complete dump |
| AddrFile.PruneLost | src/addrman.h:438-448 | the pruning loop removes exactly the entries without tried slot or reference |
| AddrFile.Unserialize | src/addrman.h:351-454 | accepts exactly the dumps within the size limits and then holds what they describe; into a manager without collisions the result is consistent exactly when no two loaded records share an address, save where both are pruned |
| AddrFile.Reload | src/addrman.h:301-454 | writing one manager and reading it into another succeeds and gives a consistent renamed copy |
| Miner.AncestorCountFalls | src/miner.h:79-81 | an ancestor always has a smaller ancestor count than its descendant |
| Miner.CalculateDescendants | src/txmempool.cpp:431-452 | the walk over direct children ends with exactly the transaction and everything that has it among its ancestors, added to a set closed under children |
| Miner.DescendantsInside | src/txmempool.cpp:425-452 | a set closed under children contains every descendant of its members |
| Miner.UpdateDescendants | src/miner.cpp:236-254 | each descendant outside the added set is lowered by the parent's amounts, and nothing else changes |
| Miner.UpdateOne | src/miner.cpp:243-253 | one entry, cached or already modified, loses the amounts of one parent; no other entry changes |
| Miner.UpdatePackagesForAdded | src/miner.cpp:232-257 | every transaction outside the added set is lowered by exactly its ancestors in the set |
| Miner.RecordedBounds | src/miner.cpp:295-417 | recorded size and sigops never underestimate the ancestors not yet in the block, and are exact unless the transaction failed before |
| Miner.TrackingNext | src/miner.cpp:404-415 | that bookkeeping invariant survives the addition of a package |
| Miner.TrackingFailed | src/miner.cpp:363-370 | that bookkeeping invariant survives the removal of a failed entry |
| Miner.WeightWithinSize | src/miner.cpp:190-198 | a set of transactions weighs at most the scale factor times its size |
| Miner.WithinLimits | src/miner.cpp:190-198 | a package that passes the test on recorded amounts keeps the true block weight and sigops below their limits |
| Miner.TestedEntry | src/miner.cpp:355-370 | a recorded entry that passes really fits, and one that does not is a known failure or really rejected |
| Miner.FailsAgain | src/miner.cpp:258-272 | a modified entry that fails for size, sigops or finality is refused again when met among the mempool's own entries with its cached totals, whatever the block has taken since |
| Miner.RefusedStays | src/miner.cpp:190-211 | under an unchanged record a refusal is final while the block grows by final transactions |
| Miner.CachedIsLarger | src/miner.cpp:240-252 | cached totals are never smaller than the modified ones |
| Miner.SortForBlock | src/miner.cpp:274-283 | lists the package exactly once, by ancestor count and, where that is equal, by hash |
| Miner.AncestorsReady | src/miner.h:82-89 | in that order every ancestor of an entry is in the block or comes earlier |
| Miner.OrderedAppend | src/miner.cpp:213-230 | appending a transaction whose ancestors are in the block keeps the block duplicate-free with parents first |
| Miner.OrderedIsClosed | src/miner.cpp:295-417 | such a block is closed under mempool ancestors |
| Miner.PricedCoinbase | src/miner.cpp:157-163 | entering the negated fees for the coinbase makes all fees sum to zero |
| Miner.SelectEnd | src/miner.cpp:316-416 | with exact sizes, when the loop runs out every transaction outside the block is rejected by the final block |
| Miner.TriedEntry | src/miner.cpp:355-402 | whether an entry is taken, too large or not final follows from the block's true totals and an entry the records allow |
| Miner.TracedTry | src/miner.cpp:316-416 | one pass of the loop adds one justified try; nothing is tried twice between two packages and nothing is forgotten |
| Miner.RefusalsStand | src/miner.cpp:190-211 | whatever was refused at some time and is not in the block is refused, on an entry recorded for it, by the block as it is now |
| Miner.FailsAreDistinct | src/miner.cpp:372-372 | the failures counted in a row are as many different transactions |
| Miner.ExhaustedAt | src/miner.cpp:372-378 | the loop gives up at 1001 failures in a row, not earlier and not later |
| Miner.TooLargeStill | src/miner.cpp:362-378 | every one of those failures is still too large for the block at the end |
| Miner.BlockAssembler.constructor | src/miner.cpp:57-61 | the weight limit is the given one if it lies between 4000 and 996000, and else the nearer of the two |
| Miner.BlockAssembler.ResetBlock | src/miner.cpp:74-86 | starts from an empty valid block |
| Miner.BlockAssembler.AddToBlock | src/miner.cpp:213-230 | the block grows by that transaction at the end and all totals still match its contents |
| Miner.BlockAssembler.AddSorted | src/miner.cpp:402-410 | adds the whole package in order, and the modified set loses exactly its members |
| Miner.BlockAssembler.StartSelection | src/miner.cpp:301-308 | the selection starts with every entry right for what is already in the block |
| Miner.BlockAssembler.TakePackage | src/miner.cpp:382-415 | the whole package enters a valid block exactly if all of it is final; otherwise nothing changes |
| Miner.BlockAssembler.Choose | src/miner.cpp:325-353 | the entry tried next is outside the block, and comes from the modified entries or is the next of the mempool, under any comparison |
| Miner.BlockAssembler.Attempt | src/miner.cpp:355-415 | one try adds the package exactly if its recorded entry passes the size test and all of it is final, so that fewer transactions are left, and otherwise changes nothing but the bookkeeping of a failure |
| Miner.BlockAssembler.TryNext | src/miner.cpp:325-415 | one pass: the entry chosen is taken, too large or not final, and the run is longer by that try |
| Miner.BlockAssembler.AddPackageTxs | src/miner.cpp:295-417 | terminates; the block stays within limits, ordered and closed; it is what the packages taken in the run add up to, and every try is justified by the block at that moment; gives up exactly at the first moment with more than 1000 failures in a row and less than 4000 to go, and then 1001 different transactions outside the block are too large for it; otherwise every transaction left out was tried and is refused by the final block on a recorded entry, and, with exact sizes, does not fit |
| Miner.BlockAssembler.CreateNewBlock | src/miner.cpp:91-175 | the template's fees sum to zero; its weight is 4000 and its sigops 400 plus those of its transactions, at most 996000 and below 40000; and it has all properties of the selection |
| CheckQueue.InitOk | src/checkqueue.h:131-131 | the initial state meets the invariant |
| CheckQueue.AddOk | src/checkqueue.h:146-158 | adding a batch, empty ones included, keeps the invariant |
| CheckQueue.WakeOk | src/checkqueue.h:99-99 | a spurious wake-up keeps the invariant |
| CheckQueue.ExecuteOk | src/checkqueue.h:119-121 | executing or skipping a check keeps the invariant |
| CheckQueue.HeadOk | src/checkqueue.h:73-87 | the clean-up of a batch keeps the counts and the recorded verdict right |
| CheckQueue.LoopHeadOk | src/checkqueue.h:88-117 | leaving, sleeping and taking a batch each keep the invariant, and the idle and total counts never go negative |
| CheckQueue.TakeBackSplits | src/checkqueue.h:107-114 | taking a batch off the back neither loses nor duplicates a check |
| CheckQueue.BatchSize | src/checkqueue.h:102-107 | the largest batch within nBatchSize that leaves as much for each thread, the idle ones counted twice, but at least one check |
| CheckQueue.BatchTaken | src/checkqueue.h:107-117 | a batch comes off the back of the queue, last first, and is executed only if no check has failed yet |
| CheckQueue.AddNotifies | src/checkqueue.h:147-158 | adding two or more checks leaves no worker waiting, a single check wakes exactly one waiting worker if there is one, an empty batch changes nothing, and every other thread is as before |
| CheckQueue.AwakeStays | src/checkqueue.h:66-158 | every step keeps somebody awake while checks are queued and a worker sleeps |
| CheckQueue.RunIsAwake | src/checkqueue.h:66-158 | over every interleaving, checks are never left in the queue with all the workers asleep |
| CheckQueue.VerdictIsConjunction | src/checkqueue.h:89-97 | when the master returns, every added check is done and the verdict is true exactly when all of them are good, though some may have been skipped |
| CheckQueue.StepOk | src/checkqueue.h:66-158 | every step of every thread is defined and keeps the invariant, in particular that nTodo counts queued and held checks |
| CheckQueue.RunOk | src/checkqueue.h:66-158 | over every interleaving, each return of Wait is true exactly when all checks added since the previous return are good |
| CheckQueue.StepUsesBudget | src/checkqueue.h:66-124 | every step other than a spurious wake-up uses up work, and such a wake-up adds at most one unit |
| CheckQueue.WaitIsBounded | src/checkqueue.h:66-124 | the number of steps before the master returns is bounded by the work outstanding and twice the spurious wake-ups |
| CheckQueue.NoDeadlock | src/checkqueue.h:66-124 | while the master is waiting or working some thread can take a real step |
| CheckQueue.NoStall | src/checkqueue.h:66-158 | with checks queued and any thread in the loop, master or not, some thread can take a real step |
| CheckQueue.SleepingMasterHasWork | src/checkqueue.h:80-99 | a sleeping master that is not notified has nTodo above 0 and a worker still holding checks |
| MerkleTree.WidthMeans | src/merkleblock.h:66-68 | a position exists at a height exactly when its first leaf exists |
| MerkleTree.Height | src/merkleblock.cpp:120-123 | the least height with a single node |
| MerkleTree.DistinctNodes | src/merkleblock.cpp:39-57 | distinct txids give distinct nodes at every height |
| MerkleTree.ExtractSound | src/merkleblock.cpp:77-113 | if a traversal yields the true hash of a node, each transaction it reports is the real one at its position below that node |
| MerkleTree.ExtractBuilt | src/merkleblock.cpp:59-113 | traversing what was built for a node, wherever it lies in the stream, consumes exactly it and yields the hash and exactly the matches |
| MerkleTree.BuiltSizes | src/merkleblock.cpp:59-75 | exact relation between the bits and hashes stored for a node, with both hash-count bounds |
| MerkleTree.MatchedBounds | src/merkleblock.cpp:131-162 | the reported positions are exactly the matched ones, strictly increasing |
| MerkleBlock.MatchesAreGenuine | src/merkleblock.cpp:131-162 | for any bits and hashes with the true transaction count, a result equal to the root means every reported pair is genuine, in range and strictly increasing |
| MerkleBlock.BuiltComesBack | src/merkleblock.cpp:59-162 | extracting a built tree, padded to bytes or not, returns the root and exactly the matched txids and positions |
| MerkleBlock.FirstFlag | src/merkleblock.cpp:59-75 | the first flag tells whether anything is matched; if not, the proof is that flag and the root |
| MerkleSizes.SinglesAreLones | src/merkleblock.cpp:59-75 | only the last node of a height can have a single child, and it is visited exactly when a match lies at or behind its first leaf |
| MerkleSizes.BitCount | src/merkleblock.cpp:59-75 | the number of flag bits is twice the hashes less one, plus the heights with such a node |
| MerkleSizes.Counts | src/merkleblock.cpp:59-75 | there is one hash more than nodes with two children above a match, and the number of flag bits follows |
| MerkleSizes.SizeBounds | src/merkleblock.h:36-47 | at most nTransactions and at most 1 + matches * height hashes; at most 2N-1 bits if and only if, at every height with an odd number of nodes below it, no matched index lies under the last node |
| MerkleSizes.BitBoundFails | src/merkleblock.h:47-47 | three transactions with the last one matched need more than 2N-1 bits |
| MerkleSizes.SerializedBound | src/merkleblock.h:31-47 | told from the mask alone: what the documented size bound comes down to, and that within the limit on transactions it fails exactly with more than 252 flag bytes and more than 8 * ceil(N/4) flag bits |
| MerkleSizes.AllHashes | src/merkleblock.cpp:59-75 | with every transaction matched there is one hash for each |
| MerkleSizes.SizeBoundFails | src/merkleblock.h:34-34 | 1012 transactions, all matched, take 32648 bytes, one more than documented |
| MerkleBlock.PackBits | src/merkleblock.h:100-102 | bit p of the bytes is the flag p, and the padding is zero |
| MerkleBlock.UnpackBits | src/merkleblock.h:95-97 | every bit of the bytes becomes one flag in order |
| MerkleBlock.CPartialMerkleTree.Build | src/merkleblock.cpp:115-127 | the constructor's loops store the bits and hashes of the whole tree |
| MerkleBlock.CPartialMerkleTree.CalcHeight | src/merkleblock.cpp:120-123 | the counting loop finds the height of the tree |
| MerkleBlock.CPartialMerkleTree.IsParentOfMatch | src/merkleblock.cpp:60-63 | the scan tells whether a matched leaf lies below the node |
| MerkleBlock.CPartialMerkleTree.TraverseAndBuild | src/merkleblock.cpp:59-75 | appends exactly the bits and hashes of the node |
| MerkleBlock.CPartialMerkleTree.TraverseAndExtract | src/merkleblock.cpp:77-113 | the in-place traversal refines the value-level one, error flag included |
| MerkleBlock.CPartialMerkleTree.ExtractMatches | src/merkleblock.cpp:131-162 | refines the value-level result with all its refusals |
| MerkleBlock.CPartialMerkleTree.Serialize | src/merkleblock.h:87-105 | the wire form carries count, hashes and all flags |
| MerkleBlock.CPartialMerkleTree.Unserialize | src/merkleblock.h:87-105 | reads back count, hashes and the flags padded to whole bytes |
| MerkleBlock.RoundTrip | src/merkleblock.cpp:59-162 | build, serialize, read and extract gives the root and exactly the matches, for distinct txids and any mask |
| MerkleRoot.LevelUp | src/consensus/merkle.cpp:53-57 | the nodes of a height are the pairs of the height below, a last one paired with itself |
| MerkleRoot.HasTwins | src/consensus/merkle.cpp:48-52 | finds exactly whether two paired neighbours are equal |
| MerkleRoot.CombineLevel | src/consensus/merkle.cpp:53-57 | combines a level into the next |
| MerkleRoot.ComputeMerkleRoot | src/consensus/merkle.cpp:45-62 | the loop ends with the root of the tree that partial trees are cut from, null for no transactions, and reports a mutation exactly if two sibling nodes anywhere in the tree are equal |
| MerkleRoot.DistinctIsNotMutated | src/consensus/merkle.cpp:12-42 | distinct transactions are never reported as mutated |
| MerkleRoot.RootDecidesList | src/consensus/merkle.cpp:12-42 | two lists with trees of one height, neither reported as mutated, have the same root only if they are equal |
| MerkleRoot.RepeatIsReported | src/consensus/merkle.cpp:12-42 | repeating the last of three transactions keeps the root and is reported |
| MerkleRoot.ExtractSoundAny | src/merkleblock.cpp:77-113 | a traversal with any claimed count that yields the true hash of a node reports only true transactions below it: a right child made up is caught as equal to the left one |
| MerkleRoot.ClaimedCount | src/merkleblock.cpp:131-162 | whatever transaction count a proof claims, if the tree has the true height, what it reports under the root of an unmutated list is genuine |
| MerkleRoot.AcceptedUsesAll | src/merkleblock.cpp:131-162 | an accepted proof has 1 to 16666 transactions, no more hashes than transactions or flags, no failure, and uses every hash and all flags but the padding of a byte |
| MerkleRoot.NothingToAdd | src/merkleblock.cpp:154-160 | an accepted proof with a hash or a flag byte added is refused |
| ArithUint256.BaseUint.constructor | src/arith_uint256.h:56-64 | the value is the given 64-bit number |
| ArithUint256.BaseUint.Complemented | src/arith_uint256.h:68-74 | the value is 2^256 - 1 minus the operand |
| ArithUint256.BaseUint.Negated | src/arith_uint256.h:76-83 | the additive inverse modulo 2^256 |
| ArithUint256.BaseUint.Add | src/arith_uint256.h:134-144 | the sum modulo 2^256, also when the operand is the object itself |
| ArithUint256.BaseUint.Subtract | src/arith_uint256.h:146-150 | the difference modulo 2^256 |
| ArithUint256.BaseUint.Increment | src/arith_uint256.h:172-179 | the successor modulo 2^256 |
| ArithUint256.BaseUint.Decrement | src/arith_uint256.h:189-196 | the predecessor modulo 2^256 |
| ArithUint256.BaseUint.MultiplySmall | src/arith_uint256.cpp:57-66 | the product with a 32-bit number modulo 2^256 |
| ArithUint256.BaseUint.AddRow | src/arith_uint256.cpp:73-78 | one row of the schoolbook product, with what falls off the top accounted for |
| ArithUint256.BaseUint.Multiply | src/arith_uint256.cpp:69-82 | the product modulo 2^256 |
| ArithUint256.BaseUint.Divide | src/arith_uint256.cpp:85-108 | the floor quotient; fails exactly for divisor zero |
| ArithUint256.BaseUint.DivideBits | src/arith_uint256.cpp:98-105 | the loop ends with quotient times divisor plus remainder equal to the dividend and the remainder below the divisor |
| ArithUint256.BaseUint.DivideStep | src/arith_uint256.cpp:98-105 | each shift-and-subtract step keeps quotient times divisor plus remainder equal to the dividend |
| ArithUint256.BaseUint.ShiftLeft | src/arith_uint256.cpp:23-37 | multiplication by the power of two modulo 2^256, for every shift |
| ArithUint256.BaseUint.ShiftRight | src/arith_uint256.cpp:40-54 | the floor quotient by the power of two, for every shift |
| ArithUint256.BaseUint.CompareTo | src/arith_uint256.cpp:111-120 | the three-way comparison of the values |
| ArithUint256.BaseUint.EqualTo | src/arith_uint256.cpp:123-134 | equality with a 64-bit number |
| ArithUint256.BaseUint.Bits | src/arith_uint256.cpp:173-185 | the least number of bits that holds the value |
| ArithUint256.BaseUint.GetLow64 | src/arith_uint256.h:244-248 | the value modulo 2^64 |
| Compact.OverflowIff | src/arith_uint256.cpp:218-221 | the three-case size test holds exactly when the encoded number does not fit in 256 bits |
| Compact.SetCompact | src/arith_uint256.cpp:205-223 | the encoded number modulo 2^256; overflow exactly when it does not fit; negative exactly for a nonzero number with the sign bit |
| Compact.LeadingBytes | src/arith_uint256.cpp:227-234 | the byte length of the number and its three leading bytes |
| Compact.GetCompact | src/arith_uint256.cpp:225-246 | the one canonical encoding of the number rounded down to its leading bytes, with the sign only on a nonzero number |
| Compact.OneForm | src/arith_uint256.cpp:225-246 | a number has exactly one canonical size and word |
| Compact.Layout | src/arith_uint256.h:259-267 | size, sign bit and 23-bit word stand for word * 256^(size-3), rounded down, for every 32-bit encoding |
| Compact.NextFits | src/chain.cpp:130-134 | a target that fits can be incremented without wrapping |
| Compact.ProofArith | src/chain.cpp:130-134 | the rewritten quotient equals floor(2^256 / (target + 1)) |
| Compact.GetBlockProof | src/chain.cpp:122-135 | floor(2^256 / (target + 1)) for a valid target, 0 for a negative, overflowing or zero one |
| Compact.ProofOf | src/chain.cpp:130-134 | the expression that avoids 2^256 is floor(2^256 / (target + 1)) |
| SkipHeights.InvertIsAnd | src/chain.cpp:70-71 | clearing the lowest one bit is the bitwise and with the predecessor |
| SkipHeights.GetSkipHeight | src/chain.cpp:74-82 | the skip goes strictly down |
| SkipHeights.FromOdd | src/chain.cpp:84-109 | from an odd height above bit j, every step that stays above it clears two more bits |
| SkipHeights.FromLast | src/chain.cpp:84-109 | the cost of a walk from the last of 2^k heights to any other of them |
| SkipHeights.StepBound | src/chain.cpp:74-109 | an explicit bound, quadratic in k, on every walk among the heights up to 2^k |
| SkipHeights.DocumentedBound | src/chain.cpp:78-80 | no walk among the heights up to 2^18 takes more than 110 steps |
| Chain.BlockIndex.GetAncestor | src/chain.cpp:84-109 | the walk over skip pointers ends at the block the parent walk reaches; null outside the range; with all skip pointers in place it follows at most 110 pointers among the first 2^18 blocks |
| Chain.BlockIndex.BuildSkip | src/chain.cpp:116-120 | the new skip pointer is the ancestor at the skip height, and the tree stays well formed |
| Chain.WalkTwice | src/chain.cpp:84-109 | walking in two stages is walking directly |
| Chain.BlockTree.Append | src/validation.cpp:2976-2984 | every tree grown by appending stays well formed |
| Chain.CompleteWalk | src/chain.cpp:11-21 | in a complete chain each entry is the ancestor of all later ones at its height |
| Chain.CChain.SetTip | src/chain.cpp:11-21 | despite the early stop the chain holds exactly the ancestors of the tip |
| Chain.CChain.FindFork | src/chain.cpp:51-60 | the highest ancestor of the block that is in the chain, or null if there is none |
| Chain.CChain.Below | src/chain.cpp:36-43 | the ancestor at a height, taken from the chain or by the skip list, is the same block |
| Chain.CChain.GetLocator | src/chain.cpp:23-49 | the hashes of the ancestors at the locator heights, whether the block is in the chain or not |
| Chain.LocatorFalls | src/chain.cpp:23-49 | the heights start at the block, fall strictly and end at genesis |
| Chain.StepDoubles | src/chain.cpp:44-45 | the step is 1 for the first eleven gaps and 2^(i-10) for gap i after that |
| Chain.LocatorGaps | src/chain.cpp:30-46 | each height is exactly that step below the one before, the last one not below genesis |
| Chain.LocatorIsShort | src/chain.cpp:23-49 | a locator has at most e + 11 entries if and only if the block's height is at most 2^e + 9 |
| Chain.LastCommonAncestor | src/chain.cpp:156-171 | the highest block that is an ancestor of both |
| Cuckoo.Loc | src/cuckoocache.h:243-253 | the cell whose share of the 32-bit range the hash falls into |
| Cuckoo.FirstSwap | src/cuckoocache.h:416-430 | the first element moved out is the one at the second location |
| Cuckoo.NextSwap | src/cuckoocache.h:416-430 | afterwards it is the one after the location last swapped, around the eight |
| Cuckoo.FirstVictim | src/cuckoocache.h:392-440 | with room for one move only, a new element that finds no free place replaces the one at its second place and nothing else changes |
| Cuckoo.PlaceOk | src/cuckoocache.h:406-439 | the swap loop keeps every element in its own slots and once, trades the new element for at most one other, and drops nothing if a slot is free |
| Cuckoo.EpochCheckOk | src/cuckoocache.h:289-321 | the counter falls by one until a scan; a scan finding a full epoch makes discardable exactly what is not of the current epoch, ends the epoch and waits for a whole one; any other scan changes no cell and waits for what is missing, at least a sixteenth; no element changes and the epoch bound holds |
| Cuckoo.InsertOk | src/cuckoocache.h:392-440 | after an insert the element is present and not discardable unless it is itself the one dropped, at most one element is gone, and the invariant and bound hold |
| Cuckoo.PlaceFlags | src/cuckoocache.h:406-439 | the epoch flags travel with the elements that are moved along |
| Cuckoo.InsertMarks | src/cuckoocache.h:392-440 | an inserted element is of the current epoch, and every other keeps its epoch |
| Cuckoo.LookupOk | src/cuckoocache.h:443-477 | a lookup that does not erase, or does not find, changes nothing; an erasing one sets the collection flag of one of the element's own places that holds it, so that no copy is left that must be kept, and changes no other cell, no epoch flag and no counter; no answer of a later lookup changes |
| Cuckoo.SetupOk | src/cuckoocache.h:340-353 | the initial table, every cell blank and free, a whole epoch to wait, meets the invariant and the bound |
| Cuckoo.RunOk | src/cuckoocache.h:392-477 | both hold after every run of inserts, lookups and erasures |
| CuckooCache.BitPackedFlags.constructor | src/cuckoocache.h:61-68 | all flags are set |
| CuckooCache.BitPackedFlags.BitSet | src/cuckoocache.h:92-95 | sets that flag and no other |
| CuckooCache.BitPackedFlags.BitUnset | src/cuckoocache.h:103-106 | clears that flag and no other |
| CuckooCache.BitPackedFlags.BitIsSet | src/cuckoocache.h:113-116 | reads that flag |
| CuckooCache.EpochIsShare | src/cuckoocache.h:348-349 | the epoch size is 45 percent of the table exactly up to 95,443,717 entries; beyond, the 32-bit product wraps |
| CuckooCache.FlagsSuffice | src/cuckoocache.h:61-68 | the flag bytes cover all entries exactly below the seven largest sizes, for which there are none |
| CuckooCache.Cache.constructor | src/cuckoocache.h:340-353 | for every 32-bit size the sizes of the source, wrap-around included; there is a flag for every entry, and the set-up state, exactly below the seven largest sizes |
| CuckooCache.Cache.CountUnused | src/cuckoocache.h:297-300 | counts the live entries of the current epoch |
| CuckooCache.Cache.Age | src/cuckoocache.h:306-310 | the loop over both flag arrays refines ageing |
| CuckooCache.Cache.EpochCheck | src/cuckoocache.h:289-321 | refines the value-level epoch check |
| CuckooCache.Cache.PlaceElement | src/cuckoocache.h:406-439 | the in-place swap loop refines the recursive placement |
| CuckooCache.Cache.Insert | src/cuckoocache.h:392-440 | refines the value-level insert |
| CuckooCache.Cache.Contains | src/cuckoocache.h:467-477 | refines the value-level lookup, result included |
| RollingBloom.WipeAt | src/bloom.cpp:254-262 | the masks erase exactly the cells of one generation, at every bit position |
| RollingBloom.PutAt | src/bloom.cpp:271-273 | writing a cell sets its generation and no other cell |
| RollingBloom.PlaceIs | src/bloom.cpp:267-271 | the pair of words whose share of the 32-bit range the hash falls into, at the bit of its low six bits |
| RollingBloom.WipedMarked | src/bloom.cpp:248-263 | a wipe forgets no key of the two generations that stay |
| RollingBloom.FreshenedMarked | src/bloom.cpp:266-274 | overwriting cells with the current generation forgets no key |
| RollingBloom.MarkedOwned | src/bloom.cpp:266-274 | after an insert every set cell belongs to a key of the generation it is labelled with |
| RollingBloom.WipedOwned | src/bloom.cpp:248-263 | after a wipe no cell of the forgotten generation is left, and the others pass to the generation before |
| RollingBloom.SetIffOwned | src/bloom.cpp:206-295 | a cell is set exactly if it is one of a key of the three kept generations |
| RollingBloom.RollingBloomFilter.constructor | src/bloom.cpp:206-231 | an empty valid filter with half of nElements, rounded up, per generation; two cleared words for every 64 filter bits, and the given tweak |
| RollingBloom.RollingBloomFilter.Reset | src/bloom.cpp:303-309 | forgets everything: all words are cleared and the new tweak is in place |
| RollingBloom.RollingBloomFilter.Wipe | src/bloom.cpp:254-262 | erases exactly one generation from the whole array |
| RollingBloom.RollingBloomFilter.Mark | src/bloom.cpp:266-274 | all cells of the key become current, and cells of no other place change |
| RollingBloom.RollingBloomFilter.Insert | src/bloom.cpp:246-275 | the key joins the current generation; a full generation is rolled and only the oldest is wiped |
| RollingBloom.RollingBloomFilter.Contains | src/bloom.cpp:283-295 | true exactly when every cell of the key is one of a kept key, hence for every key of the three kept generations |
| RollingBloom.RollingBloomFilter.LastKeysKept | src/bloom.h:109-110 | each of the last nElements inserted keys is in a kept generation |
| BitStreams.FromBitsOf | src/streams.h:516-535 | reading back the bits written gives the number modulo the power of two |
| BitStreams.BytesAt | src/streams.h:516-535 | the most significant bit of a byte comes first: bit p of the stream has weight 2^(7 - p % 8) in byte p / 8 |
| BitStreams.WriteStep | src/streams.h:569-574 | the shifts and the or move the next bits of the number to their place behind the buffered ones |
| BitStreams.BitStreamWriter.Write | src/streams.h:564-579 | appends exactly the low bits of the number to the bits written, refusing more than 64 |
| BitStreams.BitStreamWriter.Flush | src/streams.h:584-592 | fills the last byte up with zeros, so that the output holds all bits written |
| BitStreams.ReadMore | src/streams.h:528-532 | the shifts and the or append the next bits of the byte to the number read |
| BitStreams.BitStreamReader.Read | src/streams.h:516-535 | the number of the next bits of the stream; fails exactly beyond 64 bits or when the stream runs out |
| BitStreams.PackedBytes | src/streams.h:564-592 | packing bits into bytes yields the same bits and less than a byte of zeros |
| BitStreams.PackedIsOnly | src/streams.h:564-592 | no other bytes do |
| Golomb.CompactSizeBack | src/serialize.h:263-318 | a 64-bit compact size is read back if and only if it is at most 0x02000000 |
| Golomb.LittleEndianAt | src/serialize.h:97-101 | byte i is the one of weight 256^i |
| Golomb.CompactSizeForm | src/serialize.h:263-286 | one byte below 253, else the tag 253, 254 or 255 and two, four or eight bytes, the least significant first |
| Golomb.OnlyCanonical | src/serialize.h:288-318 | only what is written is accepted: the bytes read are the one form of a size of at most 0x02000000 |
| Golomb.RiceForm | src/blockfilter.cpp:27-41 | a code in full: x / 2^p ones, a zero, and the last p bits of x, the most significant first |
| Golomb.RiceBack | src/blockfilter.cpp:27-55 | decoding inverts Golomb-Rice encoding of every 64-bit number at any position of a stream |
| Golomb.RiceAllBack | src/blockfilter.cpp:126-128 | the same for a whole list of deltas |
| BlockFilter.PiecewiseIsExact | src/blockfilter.cpp:62-86 | the 32-bit piecewise product is floor(x*n / 2^64), and no intermediate value overflows 64 bits |
| BlockFilter.BuildHashedSet | src/blockfilter.cpp:96-105 | the sorted list of the images of the elements, one for each element |
| BlockFilter.InsertSorted | src/blockfilter.cpp:96-105 | the list stays sorted and gains exactly that number |
| BlockFilter.ValuesBack | src/blockfilter.cpp:154-159 | summing the deltas of a sorted list of 64-bit numbers gives the list without wrapping |
| BlockFilter.GolombRiceEncode | src/blockfilter.cpp:27-41 | the loop of 64-bit chunks appends the Golomb-Rice code to the stream |
| BlockFilter.ReadQuotient | src/blockfilter.cpp:46-50 | the bit loop reads a unary number and fails exactly when no zero bit follows |
| BlockFilter.GolombRiceDecode | src/blockfilter.cpp:44-55 | the bit loop reads a Golomb-Rice code, as a 64-bit number, and fails exactly at the end of the data |
| BlockFilter.WriteDeltas | src/blockfilter.cpp:152-161 | the writing loop yields the packed codes of the deltas |
| BlockFilter.FromElements | src/blockfilter.cpp:134-162 | fails exactly for 2^32 elements or more; otherwise encodes the deltas of the sorted images |
| BlockFilter.OwnEncoding | src/blockfilter.cpp:111-162 | the filter's own encoding is well formed if and only if it has at most MAX_SIZE elements |
| BlockFilter.FromEncoded | src/blockfilter.cpp:111-132 | accepts exactly the byte strings that encode some list of deltas with nothing left over |
| BlockFilter.MatchInternal | src/blockfilter.cpp:164-194 | true exactly when some hash equals an encoded value with no larger value before it, for every encoding, wrapping ones included |
| BlockFilter.SkipBelow | src/blockfilter.cpp:180-190 | stops at the first hash that is not below the value |
| BlockFilter.SortedShows | src/blockfilter.cpp:164-194 | in a list that does not wrap that is every encoded value |
| BlockFilter.MatchAny | src/blockfilter.cpp:202-206 | true exactly when the image of some query is encoded with no larger value before it |
| BlockFilter.Match | src/blockfilter.cpp:196-200 | true exactly when the image of the query is encoded with no larger value before it |
| BlockFilter.BuildAndMatchAny | src/blockfilter.cpp:134-206 | on the filter built from a set, a query set matches if and only if the hashed images of the two sets meet |
| CompactBlocks.Announce | src/blockencodings.cpp:19-29 | the announcement of a block describes it: coinbase prefilled, all others by short id |
| CompactBlocks.OneSlotEach | src/blockencodings.cpp:57-86 | prefilled transactions land in distinct slots, so exactly one slot is open for each short id and no index runs past the end |
| CompactBlocks.SourcedIsRight | src/blockencodings.cpp:49-169 | when equal short ids mean equal transactions, every filled slot holds the transaction of the block |
| CompactBlocks.ScanPut | src/blockencodings.cpp:112-126 | filling or emptying a slot keeps every slot settled and the counter equal to the filled slots |
| CompactBlocks.SettledMatch | src/blockencodings.cpp:112-157 | what a further match makes of a slot is again the first match, or none once two matches clash |
| CompactBlocks.FullCount | src/blockencodings.cpp:128-132 | the counter reaches the number of short ids exactly when every slot is filled |
| CompactBlocks.PartiallyDownloadedBlock.PrefillSlots | src/blockencodings.cpp:57-75 | succeeds exactly when every prefilled index is in place and no transaction null |
| CompactBlocks.PartiallyDownloadedBlock.MapShortIds | src/blockencodings.cpp:81-103 | fails exactly for a repeated short id or an overfull bucket; otherwise each short id stands for its own open slot |
| CompactBlocks.PartiallyDownloadedBlock.MatchMempool | src/blockencodings.cpp:112-125 | a first match fills the slot and any further one empties it; the counter follows |
| CompactBlocks.PartiallyDownloadedBlock.MatchExtra | src/blockencodings.cpp:139-157 | a first match fills the slot, a further one empties it only if the witness hashes differ; both counters follow |
| CompactBlocks.PartiallyDownloadedBlock.ScanMempool | src/blockencodings.cpp:105-133 | looks at all entries, or stops at the first point where every slot is filled; a slot then holds the only entry looked at that matches it, and is empty if none or two do |
| CompactBlocks.PartiallyDownloadedBlock.ScanExtra | src/blockencodings.cpp:135-164 | continues through the extra transactions up to the same stopping point; a slot holds the first match of all, unless two mempool entries match it or two matches differ in their witness hash; extra_count moves with mempool_count, modulo 2^64 |
| CompactBlocks.PartiallyDownloadedBlock.InitData | src/blockencodings.cpp:49-169 | invalid exactly for a malformed announcement, failed exactly for repeated short ids or an overfull bucket; when OK, exactly which entries are looked at and what each slot holds: its first match, unless none or two that clash; mempool_count is the number of slots filled; a slot stays empty only if no entry of the pools or two match it |
| CompactBlocks.PartiallyDownloadedBlock.FillBlock | src/blockencodings.cpp:177-219 | invalid exactly when the missing transactions are not as many as the gaps; otherwise fills the gaps in order and reports what the validity test says; the slots are given up unless there were too few |
| CompactBlocks.CompletedIsBlock | src/blockencodings.cpp:177-219 | filling the gaps of right slots with the block's own transactions gives the block |
| CompactBlocks.Roundtrip | src/blockencodings.cpp:19-219 | announcing a block, matching any pools and supplying the gaps gives the original list and the verdict of the validity test on it; it fails in the lookup exactly when the block's own short ids collide or crowd a bucket |
| CompactBlocks.WriteIndexes | src/blockencodings.h:63-66 | writes each index as its distance from one past the previous one, wrapping at 64 bits where the indexes do not rise |
| CompactBlocks.ReadIndexes | src/blockencodings.h:42-61 | reads the running sums and refuses exactly those beyond 16 bits |
| CompactBlocks.IndexesRoundtrip | src/blockencodings.h:38-68 | 16-bit indexes come back if and only if they are strictly increasing |
| Digits.NumOfDigits | src/base58.cpp:84-122 | the digits of a number have no leading zero and denote it |
| Digits.DigitsOfNum | src/base58.cpp:84-122 | digits without leading zero are determined by the number |
| Digits.DigitsFit | src/base58.cpp:94-94 | a digit estimate in one base is large enough for another whenever one numeric comparison of powers holds |
| Base58.BytesInDigits | src/base58.cpp:94-94 | 256^19 <= 58^26 |
| Base58.DigitsInBytes | src/base58.cpp:48-48 | 58^71 <= 256^52 |
| Base58.Alphabet | src/base58.cpp:15-33 | the digits are the 58 characters of the alphabet in its order, and no other character is a digit; which characters are blanks |
| Base58.EncodeFits | src/base58.cpp:94-94 | n * 138 / 100 + 1 base-58 digits hold every n bytes |
| Base58.DecodeFits | src/base58.cpp:48-48 | n * 733 / 1000 + 1 bytes hold every n base-58 digits |
| Base58.MulAdd | src/base58.cpp:98-108 | one pass of the carry loop multiplies the buffer's number and adds the digit; the carry assertion holds |
| Base58.Significant | src/base58.cpp:111-114 | skipping the leading zeros leaves exactly the digits of the number |
| Base58.EncodeBase58 | src/base58.cpp:84-122 | the text is one '1' for each leading zero byte followed by the base-58 digits of the number |
| Base58.ReadDigits | src/base58.cpp:50-66 | reads up to the first blank or end, fails exactly at an invalid character, and the buffer holds the number read; the carry assertion holds |
| Base58.DecodeBase58 | src/base58.cpp:35-82 | accepts exactly valid characters surrounded by blanks, and gives one zero byte for each leading '1' followed by the bytes of the number |
| Base58.PlainText | src/base58.cpp:35-82 | text of valid characters is accepted as it stands |
| Base58.DecodedEncoded | src/base58.cpp:35-122 | decoding the encoding gives the bytes back, leading zeros included |
| Base58.EncodedDecoded | src/base58.cpp:35-122 | encoding the decoding gives the text back |
| Base58.RoundTrip | src/base58.cpp:35-122 | running both methods returns every byte vector |

## Left out

- Coins: best-block hashes, cursors, `CCoinsViewErrorCatcher` and the hash table's own memory, which pass through or only measure.
- Coins.CoinsView.AddCoin: requires, as `src/coins.h` asks of callers, that `possible_overwrite` is set when an uncached coin may exist in the base; `FreshIffAbsent` shows that nothing weaker would do.
- Coins: a lower level is changed only through the levels above it, as in the source.
- AddrMan: `Select_` and `GetChance` are floating point and end only with probability one.
- AddrMan: the keyed hashes and the network group of an address are arbitrary functions, and the 32-bit overflow of `nIdCount` is not modelled.
- AddrMan: the adjusted time is read once per call.
- AddrCheck.Check_: the lookup of a missing address reads 0 as in the source but does not insert it.
- AddrCheck.PassesIsSane: asks for sound ids and address index, which the check does not look at in full.
- AddrFile: byte framing of the peers file and negative counts in a corrupt one; a dump is the sequence of its records.
- AddrFile.Reload: the reading manager starts with an empty collision set, because `Clear` does not empty it.
- Miner: the fee-rate order is arbitrary, so that the results hold for every order; modified fees and the logging counters have no part in them.
- Miner: the mempool is a finite graph whose links, ancestors and cached totals agree, as `src/txmempool.cpp:610-672` asserts; its own maintenance is not modelled.
- Miner.BlockAssembler.AddPackageTxs: that nothing left out would really fit is stated for exact sizes only, else only that it is refused on a recorded entry; a size inflated by sigops makes a package look larger than it weighs, and the source promises no maximality.
- Miner: the coinbase transaction itself, header fields and `TestBlockValidity`.
- CheckQueue: thread interruption and `CCheckQueueControl`; the loop is modelled by its critical sections, not as a method.
- MerkleBlock: 32-bit overflow of the tree width beyond 2^31 transactions; `CMerkleBlock` itself.
- ArithUint256: hexadecimal text, `getdouble` and the bitwise operators.
- Chain: `FindEarliestAtLeast`, `GetBlockProofEquivalentTime` and the overflow of `nStep` beyond 2^31 blocks.
- Cuckoo: the depth limit, a floating-point logarithm, is any positive number; atomicity of the flags under concurrent lookups is not modelled.
- RollingBloom: the number of hash functions and cells, floating point in the source, are parameters.
- BlockFilter: extraction of elements from blocks, filter headers and the registry of filter types.
- CompactBlocks.PartiallyDownloadedBlock.InitData: asks for at most 65535 transactions, which the message format enforces (`src/blockencodings.h:189-190`); whether a bucket of the hash table is overfull is a parameter, and it says nothing of extra_count.
- CompactBlocks: the short-id hash key and logging; the outcome of `CheckBlock` is a parameter.
- Base58: the checksummed variants and the decoder's length limit of its callers.
