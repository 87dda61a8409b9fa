# Lytix core: a verified model

This project models the parts of the Lytix node (a Bitcoin Core / PIVX descendant) whose correctness is
decided by their own code, and proves what they promise. Every class and loop of the source that works by
changing state is an object or a loop here, and is proved equal to a specification function or state machine;
the properties are proved about those, for every input, every run and every interleaving.

`dafny verify dfyconfig.toml` checks everything.

| files | component |
|---|---|
| `AddrMan`, `AddrManOps`, `AddrManMoves`, `AddrManGroups`, `AddrManRuns`, `AddrManClass`, `AddrManCheck` | the stochastic address manager: state and invariant, operations, the slots they touch, runs, the object, `Check_` |
| `AddrManStore`, `AddrManLoad`, `AddrManRoundTrip`, `AddrManStoreRun` | saving and loading it |
| `Basics`, `Options` | small definitions shared by several components |
| `CoinChange`, `CoinSelection`, `CoinSelectionRun` | selecting mints for a zerocoin spend |
| `Coins`, `CoinsUndo`, `CoinsCache`, `CoinsCacheClass` | unspent outputs, their undo data, and the stack of caches over the database |
| `VarInt`, `Compressor`, `CoinsCodec`, `CoinsStream`, `CoinsStored` | their stored form, and that the database holds only what has one |
| `CheckQueue` | the parallel check queue |
| `Products`, `Limbs`, `ArithUint`, `ArithUintClass`, `Compact` | fixed-width integers and their compact form |
| `Radix`, `Base58` | base-58 text |
| `Chain`, `Kernel` | the active chain and the stake modifier |
| `Accumulators` | accumulator checkpoints |
| `LockedPages` | counting locked memory pages |

## How the proofs go

* **Address manager.** Five redundant indexes and three counters. `AddrMan.Inv` weakens the consistency that
  `Check_` tests by a set of entries without references and an error of `nNew`, so that it holds half way
  through `MakeTried`, `ClearNew`, `Delete` and loading as well; `AddrMan.Core` is what is left of it while
  addresses may occur twice. Hashes are an arbitrary function, draws and
  the clock arbitrary numbers. `AddrManRuns.RunKeeps` is safety over all runs;
  `AddrManRuns.ConsistentMeansPasses` says that the invariant is what `Check_` tests, and
  `AddrManRoundTrip.SavedThenLoaded` that nothing is lost on disk. Since a consistent manager is determined
  by its entries and its two tables, `AddrManOps.AddFiles`, `AddrManMoves.GoodMoves` and
  `AddrManLoad.LoadFirstCome` say slot by slot what announcing, confirming and loading do.
* **Coin selection.** The denominations form a divisibility chain. `CoinChange.Exchange` rearranges any exact
  payment so that it takes as many coins of the highest kind as greedy does; completeness and optimality of
  greedy follow, and with them every path through `calculateChange` and `minimizeChange`. A second exchange
  (`CoinSelection.OverFewest`) shows that overshooting takes the fewest coins, which settles the limit on spends.
* **Caches.** A stack of any number of caches refines a stack of plain maps (`CoinsCache.RunRefines`). The
  invariant relates the DIRTY and FRESH flags at every level to what the level below shows. `HaveCoins` and
  the best block (`CoinsCache.RunBlocks`) have exact conditions of their own. For the database the refinement
  is equality (`CoinsCache.RunExact`): it never holds a pruned entry, and what it holds reads back
  (`CoinsStored.DatabaseReadsBack`).
* **Check queue.** A state machine over the steps between lock points, for one master and any number of
  workers, with spurious wake-ups. Checks are numbered as they are added, so that "no check runs twice" and
  "Wait returns true exactly if all checks since the last Wait pass" can be stated. That Wait returns at all,
  whatever the schedule, follows from a measure that every step of a thread makes smaller.
* **Numbers.** Limb loops are proved against integers. Nonlinear terms have names (`Times`, `Div`, `Mod`), so
  that proofs use laws about them instead of their definitions.
* **Accumulators.** An accumulator is the multiset of what has been added to it. `Right` says of every
  checkpoint in a run what must load from it; connecting a block keeps it, and `Accumulators.AcceptedIff`
  says which blocks can be connected.

## Where the code does not do what its documentation says

* A positive result of `calculateChange` can exceed the limit on the number of spends, although the comment
  (`src/denomination_functions.cpp:304-308`) has 0 stand for too many spends. This happens exactly when no
  choice of the held coins reaches the target within the limit (`CoinSelection.CalculateChangeLimit`);
  `CoinSelection.LimitCanBeExceeded` names an input. If some choice does, the selection keeps to the limit
  (`CoinSelection.CalculateChangeWithin`).
* `GetSerializeSize` of coins (`src/coins.h:184`) uses factor 8 where `Serialize` uses 16, and the comment
  above the class describes the older form. `CoinsCodec.SizeAgreesIff` says when the size is right
  and how wrong it can be, `CoinsCodec.SizeCanBeWrong` names coins for which it is.
* Undoing a block (`src/main.cpp:2450-2457`) does not restore `fCoinStake`, although the undo data has it.
  `CoinsUndo.UndoCompleteIff` says when this loses something, `CoinsUndo.UndoCanLoseMark` names a case.
* A cache that does not know its best block writes 0 into a parent cache when flushed
  (`src/coins.cpp:198`). `CoinsCache.FlushBest` says when this changes what the parent answers,
  `CoinsCache.BestCanBeLost` gives a run in which it does.
* `x *= x` on `base_uint` makes 0 (`src/arith_uint256.cpp:107-108`): see `ArithUintClass.BaseUint.TimesAssign`.
* `CAddrMan::Clear` (`src/addrman.h:430`) leaves `mapInfo` and `mapAddr` as they are. It empties a consistent
  manager if and only if that had no entries (`AddrManRuns.ClearedIff`), so loading is stated for such a one.
* Loading checks no stream for addresses that occur twice (`src/addrman.h:349-387`).
  `AddrManStore.LoadConsistentIff` says when the result is consistent, `AddrManStore.LoadConsistent` for which
  streams it always is, and `AddrManStore.LoadCanClash` names streams for which it is not.
* A negative version or height of coins is written as a single byte (`src/serialize.h:436-451`) and comes back
  as its low seven bits: see `CoinsCodec.CoinsRoundTrip`.

## Model

| member | source | states |
|---|---|---|
| `AddrMan.SwapRandomKeeps` | src/addrman.cpp:103-121 | swapping two positions of vRandom keeps the invariant, files every entry as before and moves exactly the entry asked for |
| `AddrMan.DeleteKeeps` | src/addrman.cpp:123-135 | an unreferenced new entry can be deleted (all three asserts hold) and deleting it keeps every index consistent, with one entry less to account for |
| `AddrMan.ClearNewKeeps` | src/addrman.cpp:137-150 | clearing any new slot is safe, and either drops one reference or deletes the entry with its last one; the counters stay right in the middle of MakeTried and Add_ too |
| `AddrMan.CreateKeeps` | src/addrman.cpp:91-101 | creating an address that is not known keeps the invariant, with the new entry not yet referenced |
| `AddrManOps.EvictIsSafe` | src/addrman.cpp:177-192 | while an entry is on its way to tried, the evicted entry can take the slot that its own primary source gives it, even if that deletes a third entry |
| `AddrManOps.EvictFits` | src/addrman.cpp:177-192 | after ClearNew the slot for the evicted entry is empty and the entry has no reference, so both asserts hold |
| `AddrManOps.MakeTriedKeeps` | src/addrman.cpp:152-198 | a new entry becomes the tried entry of exactly its own slot, the state is consistent again, every other entry keeps its facts, and at most one new entry is lost |
| `AddrManOps.GoodKeeps` | src/addrman.cpp:200-247 | an unknown address or other port changes nothing; the entry with it ends up tried, with success and last try set and no failures; every entry left keeps its other facts, and at most one new entry is lost |
| `AddrManOps.AddKeeps` | src/addrman.cpp:249-315 | true exactly for a routable unknown address; the state stays consistent, no tried slot is touched, at most one new entry is lost, a new entry has what was announced (address, services, source, time less the penalty) and no history, and of the others only the entry of this address changes: services are merged, and its time never goes back, is taken over if more than a day newer and kept if less than an hour newer |
| `AddrManOps.AddFiles` | src/addrman.cpp:249-315 | an unknown routable address gets an entry with one reference in exactly the slot that the announcing source leads to, if and only if that slot is free or its entry gives way (terrible, or with another reference); otherwise entries and table stay. A known entry gains exactly that slot, and one reference, if and only if the announcement is news, the entry is new with room, the draw succeeds and the slot is free or its entry terrible |
| `AddrManOps.HealthyStay` | src/addrman.cpp:292-313 | an entry that is not terrible and has one reference is never put out of its slot by an announcement |
| `AddrManMoves.GoodMoves` | src/addrman.cpp:152-247 | a success of a new entry changes exactly these slots: its own tried slot gets it, its slots in the new table become free, and the entry that was in its tried slot stands in the new slot its own source leads to; a success of a tried entry moves nothing |
| `AddrManGroups.GroupReaches` | src/addrman.cpp:15-28 | the addresses of one group go to 8 tried buckets at most, and those told by one source group to 64 new buckets at most |
| `AddrManGroups.GroupLimited` | src/addrman.h:137-144 | a consistent manager never has more than 8 * 64 tried entries of one group |
| `AddrManOps.FindIff` | src/addrman.cpp:78-89 | the index finds an entry exactly if it is the one with this address |
| `AddrManRuns.AttemptKeeps` | src/addrman.cpp:317-334 | consistent before and after; exactly the entry with this address and port counts an attempt |
| `AddrManRuns.ConnectedKeeps` | src/addrman.cpp:474-492 | consistent before and after; exactly the entry with this address and port gets the new time, if that is more than 20 minutes newer |
| `AddrManRuns.GetAddrKeeps` | src/addrman.cpp:453-472 | whatever is drawn, the result lists exactly the entries worth sending in the shuffled prefix of vRandom, no more than 23 percent or 2500, and only vRandom is reordered |
| `AddrManRuns.AnyOrderGiven` | src/addrman.cpp:453-472 | the shuffle can make any order: for each order of the entries there are draws with which the worthy ones are handed out in it, up to the limit |
| `AddrManRuns.StepKeeps` | src/addrman.cpp:200-334 | every public operation keeps the state consistent, and with positive times keeps the recorded times as Check_ wants them |
| `AddrManRuns.RunKeeps` | src/addrman.cpp:91-334 | every run of operations from an empty manager ends in a consistent state, whatever the hashes, draws and clock; with positive times also the time tests of Check_ hold |
| `AddrManRuns.ConsistentMeansPasses` | src/addrman.cpp:376-450 | the consistency proved over runs is exactly what Check_ tests, together with the one index it does not test (that mapAddr holds nothing else) |
| `AddrManRuns.ClearedIff` | src/addrman.h:430-448 | Clear makes the empty manager out of a consistent one if and only if that had no entries; otherwise what it leaves is inconsistent |
| `AddrManCheck.Check_` | src/addrman.cpp:376-450 | the scan over all tables and counters returns 0 if and only if all those conditions hold |
| `AddrManCheck.CheckEntries` | src/addrman.cpp:384-408 | the first loop passes exactly if every entry does, and then leaves the tried ids and the reference counts of the new ones |
| `AddrManCheck.CheckTried` | src/addrman.cpp:415-427 | the tried scan passes exactly if every occupied slot is the own slot of a tried entry, and leaves an empty set exactly if all tried entries were met |
| `AddrManCheck.CheckNew` | src/addrman.cpp:429-440 | the new scan passes exactly if every slot is right and no entry has more slots than references, and leaves an empty map exactly if the numbers agree |
| `AddrManClass.Manager.constructor` | src/addrman.h:430-453 | a fresh manager is empty and consistent |
| `AddrManClass.Manager.Clear_` | src/addrman.h:430-448 | the clearing loops in place; mapInfo and mapAddr stay as they are |
| `AddrManClass.Manager.Find_` | src/addrman.cpp:78-89 | the lookup through mapAddr and mapInfo in place |
| `AddrManClass.Manager.Create_` | src/addrman.cpp:91-101 | the creation in place, equal to its specification |
| `AddrManClass.Manager.SwapRandom_` | src/addrman.cpp:103-121 | the swap in place, back-pointers included |
| `AddrManClass.Manager.Delete_` | src/addrman.cpp:123-135 | the deletion in place |
| `AddrManClass.Manager.ClearNew_` | src/addrman.cpp:137-150 | the clearing of a slot in place |
| `AddrManClass.Manager.DropFromNew_` | src/addrman.cpp:154-161 | the loop over all 1024 buckets removes every reference of the entry and counts each once |
| `AddrManClass.Manager.Evict_` | src/addrman.cpp:171-192 | the eviction in place, with ClearNew between the two tables |
| `AddrManClass.Manager.MakeTried_` | src/addrman.cpp:152-198 | the whole move to tried in place |
| `AddrManClass.Manager.Good_` | src/addrman.cpp:200-247 | Good_ in place, consistent before and after, whatever bucket its search starts from |
| `AddrManClass.Manager.FindBucket_` | src/addrman.cpp:226-236 | the rotated search finds a bucket of the entry if and only if it has one |
| `AddrManClass.Manager.Add_` | src/addrman.cpp:249-315 | Add_ in place: state and result are those of the specification, consistent, and with the entry filed as in `AddrManOps.AddFiles` |
| `AddrManClass.Manager.Refresh_` | src/addrman.cpp:258-266 | time and services of a known entry, in place |
| `AddrManClass.Manager.MakeRoom_` | src/addrman.cpp:152-193 | up to the assert that the tried slot is empty, in place |
| `AddrManClass.Manager.Place_` | src/addrman.cpp:292-313 | overwriting, keeping or deleting at the slot of the source, in place |
| `AddrManClass.Manager.Attempt_` | src/addrman.cpp:317-334 | Attempt_ in place |
| `AddrManClass.Manager.Connected_` | src/addrman.cpp:474-492 | Connected_ in place |
| `AddrManClass.Manager.GetAddr_` | src/addrman.cpp:453-472 | the shuffling loop in place |
| `AddrManStore.LoadConsistent` | src/addrman.h:328-423 | any stream in which no address occurs twice, save for tried entries with the same slot, loads into a consistent manager, whatever its version, bucket count or bucket contents |
| `AddrManStore.LoadConsistentIff` | src/addrman.h:328-423 | whatever a stream lists, all indexes but mapAddr agree after loading; the manager is consistent if and only if no entry that has a slot before the pruning shares its address with another entry |
| `AddrManStore.LoadCanClash` | src/addrman.h:349-387 | the same entry among the new and the tried ones loads into an inconsistent manager |
| `AddrManStore.PruneStep` | src/addrman.h:407-417 | one step of the pruning loop deletes the entry exactly if it has no reference, and can always do so |
| `AddrManLoad.LoadFirstCome` | src/addrman.h:349-417 | for any stream: each tried slot holds the first tried entry of the list that competes for it, with the fields that were stored; if the bucket rows can be used, each bucket holds only entries listed for it, and each of those unless its slot is taken or it has eight; if not, each new slot holds the first new entry whose own source leads to it |
| `AddrManRoundTrip.SavedCounts` | src/addrman.h:293-311 | the two lists that are written have nNew and nTried entries, so the asserts in Serialize hold |
| `AddrManRoundTrip.SavedDistinct` | src/addrman.h:278-325 | a consistent manager never writes the same address twice |
| `AddrManRoundTrip.SavedThenLoaded` | src/addrman.h:278-423 | saving a consistent manager and loading it into a fresh one gives the same entries, reference counts, counters and new and tried tables, up to an injective renaming of ids; nothing is lost or pruned (only nLastTry and the order of vRandom are new) |
| `AddrManStoreRun.Serialize` | src/addrman.h:278-325 | the loops of Serialize write exactly the specified stream |
| `AddrManStoreRun.SaveEntries` | src/addrman.h:293-311 | one list of entries in id order, with the positions that the bucket rows refer to |
| `AddrManStoreRun.SaveBucket` | src/addrman.h:312-324 | one bucket as the positions of its entries |
| `AddrManStoreRun.Unserialize` | src/addrman.h:328-423 | fails exactly for a wrong key size, and then leaves an empty manager; otherwise the loops leave the specified manager, consistent exactly under the condition above |
| `AddrManStoreRun.LoadNewInto` | src/addrman.h:349-365 | one entry of the new list in place, filed at once when the bucket rows cannot be used |
| `AddrManStoreRun.LoadTriedInto` | src/addrman.h:370-387 | one entry of the tried list in place, lost exactly if its slot is taken |
| `AddrManStoreRun.FileInto` | src/addrman.h:396-403 | one position of a bucket row in place, ignored unless it is in range, the slot free and the entry below eight references |
| `AddrManStoreRun.PruneAll` | src/addrman.h:407-417 | the pruning loop in place |
| `CoinChange.Exchange` | src/denomination_functions.cpp:40-62 | any exact payment from a bounded supply can be changed, without more coins, into one that takes as many coins of the highest kind as greedy does |
| `CoinChange.GreedyBest` | src/denomination_functions.cpp:40-62 | whenever an amount is payable from the held coins, greedy pays it exactly and with the fewest coins |
| `CoinChange.GreedyComplete` | src/denomination_functions.cpp:93-117 | greedy reaches the amount if and only if some choice of the held coins does |
| `CoinChange.ChangeBest` | src/denomination_functions.cpp:67-87 | change loses less than the smallest coin and uses the fewest coins among all coins of its value |
| `CoinSelection.CalculateChangeSound` | src/denomination_functions.cpp:310-399 | on every path, minimizeChange included: a positive result comes with a choice within the held coins that is worth at least the target, and is the coin count of the change for the excess |
| `CoinSelection.CalculateChangeComplete` | src/denomination_functions.cpp:310-399 | a whole target that the held coins reach, but cannot pay exactly, always gets a positive result |
| `CoinSelection.CalculateChangeLimit` | src/denomination_functions.cpp:304-404 | a selection keeps to the limit on the number of spends if and only if some choice of the held coins reaches the target within it |
| `CoinSelection.OverFewest` | src/denomination_functions.cpp:351-368 | taking coins from the highest kind down until the target is passed uses the fewest coins of all choices that reach it |
| `CoinSelection.CalculateChangeWithin` | src/denomination_functions.cpp:304-404 | for a whole target that no exact payment meets within the limit: a selection within the limit comes back if and only if some choice of the held coins reaches the target within it |
| `CoinSelection.LimitCanBeExceeded` | src/denomination_functions.cpp:304-399 | if no choice keeps to the limit there can still be a result: two fives for six coins, with a limit of one |
| `CoinSelection.MinimizeSound` | src/denomination_functions.cpp:213-302 | whenever minimizeChange reports less change its choice is within the held coins and the limit, reaches the target, and its change count is right |
| `CoinSelection.WithoutFlagFewest` | src/denomination_functions.cpp:338-368 | without fMinimizeChange no choice within the held coins that reaches the target uses fewer coins than the selection |
| `CoinSelection.FlagLessChange` | src/denomination_functions.cpp:338-368 | fMinimizeChange never leads to more change |
| `CoinSelection.FlagMinimizes` | src/denomination_functions.cpp:213-345 | with fMinimizeChange there is no more change than for greedy below the target and one coin of the least kind that then passes it, whenever that keeps to the limit |
| `CoinSelectionRun.GetNumberOfCoinsUsed` | src/denomination_functions.cpp:12-20 | the sum of the counts |
| `CoinSelectionRun.GetSpendCoins` | src/denomination_functions.cpp:40-62 | the nested loops compute the greedy choice |
| `CoinSelectionRun.GetChange` | src/denomination_functions.cpp:67-87 | the nested loops compute the greedy change |
| `CoinSelectionRun.GetIdealSpends` | src/denomination_functions.cpp:93-117 | true if and only if some sub-multiset of the unused mints sums to the target, and then no payment uses fewer coins |
| `CoinSelectionRun.GetSpends` | src/denomination_functions.cpp:122-142 | terminates, and picks pairwise different unused mints of the list: exactly the wanted number of each denomination, with the value reported |
| `CoinSelectionRun.MinimizeChange` | src/denomination_functions.cpp:213-302 | its four phases compute the specified alternative |
| `CoinSelectionRun.CalculateChange_` | src/denomination_functions.cpp:310-399 | the function with all its branches computes the specified choice, whose dependence on the flag is that of `CoinSelection.WithoutFlagFewest` and `CoinSelection.FlagLessChange` |
| `CoinSelectionRun.GetDenomHeldBelow` | src/denomination_functions.cpp:200-211 | the highest denomination held below a given one |
| `CoinSelectionRun.SelectMintsFromList` | src/denomination_functions.cpp:405-437 | terminates; a result is made of pairwise different unused mints whose sum is nSelectedValue, at least the target, with the right change count; the exact payment with fewest coins is returned whenever one fits the limit, otherwise the choice of calculateChange; for whole coins a selection within the limit comes back if and only if some choice of the mints reaches the target within it; a reachable target never gets an empty result unless it can only be paid exactly; nNeededSpends is the fewest coins of an exact payment that is over the limit, else 0 |
| `Coins.TrimmedKeeps` | src/coins.h:120-127 | trimming drops exactly the spent outputs at the end |
| `Coins.Cleanup` | src/coins.h:120-127 | the loop trims |
| `Coins.CheckPruned` | src/coins.h:278-286 | true exactly if all outputs are spent |
| `Coins.Spend` | src/coins.cpp:36-52 | the result and undo data of spending one output |
| `Coins.SpentOne` | src/coins.cpp:36-52 | spending succeeds exactly for an unspent output and changes the availability of that output alone |
| `Coins.SpendThenRestore` | src/main.cpp:2446-2467 | restoring a spent output gives the coins back exactly, except that fCoinStake is lost if the last output of a transaction with a height was spent |
| `CoinsUndo.SpendThenUndo` | src/main.cpp:2442-2468 | undoing the inputs of a transaction backwards restores the whole unspent set, except for the coinstake mark of transactions that were spent completely |
| `CoinsUndo.UndoCompleteIff` | src/main.cpp:2209-2222 | the undo is complete if and only if no coinstake transaction was spent completely |
| `CoinsUndo.UndoCanLoseMark` | src/main.cpp:2450-2457 | spending and undoing the only output of a coinstake transaction loses its mark |
| `CoinsCache.FetchKeeps` | src/coins.cpp:86-102 | fetching changes no view and no entry at any level, adds none that is dirty, keeps the flag invariant at every level, and finds what the levels below hold |
| `CoinsCache.GetCoinsKeeps` | src/coins.cpp:104-112 | reading through any number of caches answers with the first entry met on the way down |
| `CoinsCache.HaveMeans` | src/coins.cpp:143-151 | HaveCoins says whether the view has coins, except for a pruned entry with outputs while it is being modified |
| `CoinsCache.ModifyKeeps` | src/coins.cpp:114-131 | opening a modifier changes no view and keeps the flags right: FRESH exactly if the level below shows nothing, DIRTY if it shows something else |
| `CoinsCache.CloseKeeps` | src/coins.cpp:273-281 | closing a modifier changes no view, and leaves no entry that is dirty, fresh and pruned |
| `CoinsCache.FlushAccepted` | src/coins.cpp:165-181 | the FRESH assert in BatchWrite never fails when a cache is flushed into the cache below it |
| `CoinsCache.FlushKeeps` | src/coins.cpp:165-207 | after a flush the parent shows exactly what the child showed, the child still shows it, and the invariant holds at both levels |
| `CoinsCache.FlushBest` | src/coins.cpp:153-163 | a flush keeps the best block exactly if the flushed hash is known, or nothing below the parent would answer differently |
| `CoinsCache.StepRefines` | src/coins.cpp:86-207 | every operation on a stack of caches does to a stack of plain maps what it should, with the same answer |
| `CoinsCache.RunRefines` | src/coins.cpp:86-281 | any run of reads, modifications, flushes and stacked caches gives the answers about coins that plain maps give |
| `CoinsCache.RunBlocks` | src/coins.cpp:153-200 | in any run in which every flush meets the condition of `CoinsCache.FlushBest`, each level also answers with the one best block of its plain counterpart |
| `CoinsCache.BestCanBeLost` | src/coins.cpp:153-200 | a run of six operations after which a cache has lost the best block it was told |
| `CoinsCache.DatabaseRefines` | src/txdb.cpp:38-75 | a database of unpruned coins starts the refinement |
| `CoinsCache.RunExact` | src/coins.cpp:165-207 | over every run from a database of unpruned coins, the database equals its plain counterpart entry by entry: what is spent is erased, not stored empty |
| `CoinsCache.DatabaseKeeps` | src/txdb.cpp:21-27 | so it never holds a pruned entry, and whatever property the first entries and all coins written have, all its entries have |
| `CoinsStored.DatabaseReadsBack` | src/txdb.cpp:21-75 | over every run that writes coins with a stored form, each entry of the database reads back from its bytes as it was (a negative version or height as its low seven bits) |
| `CoinsCacheClass.ViewDB.BatchWrite` | src/txdb.cpp:56-75 | a dirty entry is in the database afterwards, with its coins, if and only if it is not pruned; every other key is as before, and the best block is replaced only if known |
| `CoinsCacheClass.ViewCache.FetchCoins` | src/coins.cpp:86-102 | the fetch in place through the linked caches |
| `CoinsCacheClass.ViewCache.GetCoins` | src/coins.cpp:104-112 | the read in place |
| `CoinsCacheClass.ViewCache.HaveCoins` | src/coins.cpp:143-151 | the test in place |
| `CoinsCacheClass.ViewCache.ModifyCoins` | src/coins.cpp:114-131 | opening a modifier in place |
| `CoinsCacheClass.ViewCache.EndModifier` | src/coins.cpp:273-281 | the destructor of the modifier in place |
| `CoinsCacheClass.ViewCache.BatchWrite` | src/coins.cpp:165-200 | the loop over the child entries in place, its assert included |
| `CoinsCacheClass.ViewCache.Flush` | src/coins.cpp:202-207 | the flush in place: base, this view and the view before show the same |
| `CoinsCacheClass.ViewCache.GetBestBlock` | src/coins.cpp:153-158 | the best block, remembered on the way |
| `VarInt.WriteVarInt` | src/serialize.h:436-451 | the loop writes the encoding, and a single byte for a negative number |
| `VarInt.ReadVarInt` | src/serialize.h:453-466 | the loop reads modulo the width of the type |
| `VarInt.ReadWritten` | src/serialize.h:399-421 | reading what was written gives the number and exactly the rest of the stream |
| `VarInt.WrittenRead` | src/serialize.h:399-421 | every encoding that can be read is the one that would be written: exactly one per number |
| `VarInt.LengthIs` | src/serialize.h:436-451 | the encoding takes at most j bytes exactly for the numbers below 128 + 128^2 + ... + 128^j |
| `VarInt.EncodedOrder` | src/serialize.h:399-403 | most significant digit first: encodings of one length are ordered as their numbers |
| `VarInt.BufferFits` | src/serialize.h:439 | the buffer of (bits + 6) / 7 bytes is long enough for 32 and for 64 bits |
| `Compressor.AmountRoundTrip` | src/compressor.cpp:129-181 | decompression inverts compression on all natural numbers |
| `Compressor.AmountOnto` | src/compressor.cpp:129-181 | compression inverts decompression: the coding is a bijection |
| `Compressor.ZerosShorten` | src/compressor.cpp:129-136 | m with e < 9 zeros behind it, m not ending in one, is compressed to 9 * m + m % 10 + e - 9, and m with nine zeros to 10 * m: what the code is for every amount |
| `Compressor.AmountFits` | src/compressor.cpp:138-155 | no overflow in 64 bits up to (2^64 - 1) / 9, above the maximum amount of money |
| `Compressor.CompressAmount` | src/compressor.cpp:138-155 | the loop computes the code modulo 2^64, and its assert on the digit holds |
| `Compressor.DecompressAmount` | src/compressor.cpp:157-181 | the loop computes the amount modulo 2^64 |
| `Compressor.SpecialBack` | src/compressor.cpp:44-127 | each of the six special forms decompresses to the script it came from |
| `Compressor.SpecialUsed` | src/compressor.cpp:44-127 | every script that a special form stands for is stored in that form, in 21 or 33 bytes |
| `Compressor.ScriptRoundTrip` | src/compressor.h:70-97 | a script is read back, special or not, and the stream is left right behind it |
| `Compressor.TxOutRoundTrip` | src/compressor.h:112-127 | an output is read back with value and script |
| `CoinsCodec.CalcMaskSize` | src/coins.cpp:17-34 | the loops count mask bytes and non-zero mask bytes |
| `CoinsCodec.MaskSizeIs` | src/coins.cpp:12-34 | the last mask byte is non-zero and no output behind the mask is available |
| `CoinsCodec.ReadMaskWritten` | src/coins.h:244-254 | the reader consumes exactly the mask bytes that were written and learns the availability of every output |
| `CoinsCodec.ReadOutsWritten` | src/coins.h:255-260 | the outputs are read back in their places |
| `CoinsCodec.CoinsRoundTrip` | src/coins.h:200-264 | for coins with an unspent output: flags, version, height and outputs are restored up to dropped spent outputs at the end, and the stream is left right behind (a negative version or height comes back as its low seven bits) |
| `CoinsCodec.SizeAgreesIff` | src/coins.h:176-198 | GetSerializeSize, which uses factor 8, is never too large, and one byte too small if and only if a number from which on codes take a byte more lies above the code with factor 8 and not above the one with factor 16 that is written |
| `CoinsCodec.SizeCanBeWrong` | src/coins.h:184 | for 66 unspent outputs the size is too small |
| `CoinsStream.WriteMask` | src/coins.h:213-220 | the loops set exactly the bits of available outputs |
| `CoinsStream.ReadAvail` | src/coins.h:244-254 | the loop stops after the announced number of non-zero bytes |
| `CoinsStream.Serialize` | src/coins.h:200-228 | the whole writer |
| `CoinsStream.Unserialize` | src/coins.h:230-264 | the whole reader, failing exactly where the specification does |
| `CheckQueue.TakeBatch` | src/checkqueue.h:110-117 | the last checks of the queue, in reverse order |
| `CheckQueue.StepKeeps` | src/checkqueue.h:69-158 | every atomic step of any thread keeps the counters, the places of all checks and the judgement right |
| `CheckQueue.RunKeeps` | src/checkqueue.h:69-158 | so does every interleaving of one master and any number of workers; a run asks of its steps only that the thread is where the step starts |
| `CheckQueue.ExecKeeps` | src/checkqueue.h:121-125 | executing one check keeps the invariant, and no check is executed twice |
| `CheckQueue.WaitIsRight` | src/checkqueue.h:139-143 | over all interleavings: nTodo counts the queued checks and those in unfinished batches, no check runs twice, the checks that the returns of Wait are about follow each other without gap, and each Wait returned true exactly if all checks added since the one before evaluate to true, each then having run once |
| `CheckQueue.MasterNeverStuck` | src/checkqueue.h:91-104 | in every reachable state a master asleep and not notified has a worker with an unfinished batch, which can take its next step |
| `CheckQueue.WaitReturns` | src/checkqueue.h:69-143 | from every reachable state, however the threads in Loop are scheduled, they run out of steps within a number of them fixed by that state, and then Wait has returned |
| `CheckQueue.WorkersNotForgotten` | src/checkqueue.h:145-158 | while checks are queued and a worker sleeps unnotified, some thread is at work or notified and can step |
| `CheckQueue.BatchFair` | src/checkqueue.h:105-109 | a batch is as large as the maximum and an equal share for all threads at work or idle allow, but at least one check |
| `CheckQueue.IdleBetweenWaits` | src/checkqueue.h:164-190 | in every reachable state between calls of Wait, IsIdle says that nothing is left to do and nothing added since failed; right after Wait it is true, so the assert in CCheckQueueControl holds |
| `Limbs.ShlValue` | src/arith_uint256.cpp:58-73 | the limbs that a left shift puts together are the product with the power of two, modulo the width |
| `Limbs.ShrValue` | src/arith_uint256.cpp:75-90 | the limbs that a right shift puts together are the quotient |
| `Limbs.AddMulMod` | src/arith_uint256.cpp:92-102 | a row of multiply-and-carry is exact modulo the width |
| `Limbs.CarryFits` | src/arith_uint256.cpp:109-116 | the 64-bit accumulator of the product never overflows |
| `ArithUint.RowValue` | src/arith_uint256.cpp:109-116 | row by row the product so far is right modulo the width |
| `ArithUint.DivideStep` | src/arith_uint256.cpp:134-141 | one round of long division keeps quotient, remainder and their bound |
| `ArithUint.DivideEnd` | src/arith_uint256.cpp:120-144 | what the invariant says at the end is quotient and remainder |
| `ArithUintClass.BaseUint.ShlAssign` | src/arith_uint256.cpp:58-73 | multiplication by 2^shift modulo 2^BITS, for any shift |
| `ArithUintClass.BaseUint.ShrAssign` | src/arith_uint256.cpp:75-90 | floor division by 2^shift, for any shift |
| `ArithUintClass.BaseUint.PlusAssign` | src/arith_uint256.h:139-148 | the sum modulo 2^BITS, also when added to itself |
| `ArithUintClass.BaseUint.Negated` | src/arith_uint256.h:81-88 | the negative modulo 2^BITS |
| `ArithUintClass.BaseUint.MinusAssign` | src/arith_uint256.h:150-154 | the difference modulo 2^BITS |
| `ArithUintClass.BaseUint.Increment` | src/arith_uint256.h:176-183 | the successor modulo 2^BITS |
| `ArithUintClass.BaseUint.Decrement` | src/arith_uint256.h:193-200 | the predecessor modulo 2^BITS |
| `ArithUintClass.BaseUint.TimesAssign32` | src/arith_uint256.cpp:92-102 | the product with a word modulo 2^BITS |
| `ArithUintClass.BaseUint.TimesAssign` | src/arith_uint256.cpp:104-118 | the product modulo 2^BITS, except that a number multiplied by itself in place becomes 0 |
| `ArithUintClass.BaseUint.DivAssign` | src/arith_uint256.cpp:120-144 | fails exactly for a zero divisor; otherwise leaves the quotient in the number and the remainder in num |
| `ArithUintClass.BaseUint.CompareTo` | src/arith_uint256.cpp:146-156 | the order of the values |
| `ArithUintClass.BaseUint.EqualTo` | src/arith_uint256.cpp:158-170 | equality with a 64-bit value |
| `ArithUintClass.BaseUint.Bits` | src/arith_uint256.cpp:196-209 | the bit length of the value |
| `Compact.SetCompact` | src/arith_uint256.cpp:245-263 | the value modulo 2^256, and both flags exactly |
| `Compact.OverflowIff` | src/arith_uint256.cpp:258-261 | the overflow condition holds if and only if mantissa times 256^(size-3) is at least 2^256 |
| `Compact.GetCompact` | src/arith_uint256.cpp:265-286 | the compact word, its two asserts included |
| `Compact.CompactLoss` | src/arith_uint256.cpp:245-286 | the word never means more than the number, and loses less than its 2^15th part |
| `Compact.CompactStable` | src/arith_uint256.cpp:245-286 | the number that the word means has the same word |
| `Base58.AlphabetGood` | src/base58.cpp:21-22 | the 58 letters are different, no letter is a space, and 1 is the first |
| `Base58.AlphabetIs` | src/base58.cpp:21-22 | the alphabet is all letters and digits but 0, O, I and l, in the order of their codes |
| `Base58.EncodeFits` | src/base58.cpp:109 | n bytes always fit into n*138/100+1 digits |
| `Base58.DecodeFits` | src/base58.cpp:36 | n digits always fit into n*733/1000+1 bytes |
| `Base58.MultiplyAdd` | src/base58.cpp:43-50 | buffer times factor plus digit in place; nothing is carried out when there is room |
| `Base58.EncodeBase58` | src/base58.cpp:100-133 | the encoder computes the specified text |
| `Base58.DecodeBase58` | src/base58.cpp:24-68 | the decoder accepts exactly one word of letters between spaces and computes the specified bytes |
| `Base58.DecodeBase58String` | src/base58.cpp:140-143 | for std::string the text ends at the first zero character: bytes that were encoded come back whatever follows it |
| `Base58.DecodeEncoded` | src/base58.cpp:24-133 | decoding inverts encoding on all byte strings |
| `Base58.EncodeDecoded` | src/base58.cpp:24-133 | encoding inverts every successful decoding, up to surrounding spaces |
| `Base58.EncodeBase58Check` | src/base58.cpp:145-152 | the text with a checksum |
| `Base58.DecodeEncodedCheck` | src/base58.cpp:145-169 | the checked forms invert for any 4-byte checksum function |
| `Base58.EncodeDecodedCheck` | src/base58.cpp:145-169 | and the other way round, up to spaces |
| `Radix.CanonicalUnique` | src/base58.cpp:58-66 | a number has one sequence of digits without leading zeros |
| `Chain.BlockIndex.constructor` | src/main.cpp:4569-4573 | BuildSkip leaves the ancestor at the skip height |
| `Chain.SkipsBack` | src/main.cpp:4529-4539 | the skip height is strictly lower |
| `Chain.LowestOne` | src/main.cpp:4525-4527 | what is taken away from a number for its skip height is its lowest one bit |
| `Chain.GetAncestor` | src/main.cpp:4541-4562 | the walk along skips and parents ends at the ancestor, or is NULL exactly outside the heights |
| `Chain.LastCommonAncestor` | src/main.cpp:462-480 | the highest block on both branches |
| `Chain.CChain.SetTip` | src/chain.cpp:14-25 | despite stopping early, entry i is the ancestor of the new tip at height i, for all i |
| `Chain.CChain.ContainsIff` | src/chain.h:562-575 | a block is in the chain exactly if it is the ancestor of the tip at its height; then so are all its ancestors, and Next is its child, NULL only for the tip |
| `Chain.CChain.FindFork` | src/chain.cpp:56-63 | the highest block that is on both paths, NULL only if there is none |
| `Chain.CChain.GetLocator` | src/chain.cpp:27-54 | ancestors at exactly these heights: the start and ten single steps down, then steps that double, down to the genesis block; more than 12 of them need a height above 2^(length-12) |
| `Chain.LocatorReaches` | src/chain.cpp:27-54 | however far back a fork is, the locator has a block at or below it that is at most twice as far back |
| `Kernel.SectionBounds` | src/kernel.cpp:58-64 | the sections grow from 20 to 60 seconds, section n being the largest whole number not above 3780 / (189 - 2 * n) |
| `Kernel.LastStop` | src/kernel.cpp:189-209 | the 64 sections sum up so that the last stop is the interval-aligned tip time |
| `Kernel.GetStakeModifierSelectionInterval` | src/kernel.cpp:66-74 | the sum of the sections |
| `Kernel.SelectBlockFromCandidates` | src/kernel.cpp:76-145 | fails only if no candidate is left; otherwise the choice is the first unselected candidate of least hash up to the stop, or the earliest unselected one if none is that early, and stake is favoured as in `Kernel.StakeFavoured` |
| `Kernel.StakeFavoured` | src/kernel.cpp:120-135 | for the choice of a round and any unselected candidate up to the stop, in terms of the hashes before the shift: work never wins over stake unless its hash is below 2^224; among blocks of one kind the choice has the least hash, for stake up to its low 32 bits; stake wins over work with hashes 2^32 times as large |
| `Kernel.ChosenDistinct` | src/kernel.cpp:203-223 | the blocks chosen in different rounds are different |
| `Kernel.SelectAll` | src/kernel.cpp:203-223 | never fails, makes min(64, count) choices, each right for its round |
| `Kernel.ModifierBit` | src/kernel.cpp:215-216 | bit n of the modifier is the entropy bit of choice n |
| `Kernel.ModifierBits` | src/kernel.cpp:215-216 | bit n of the new modifier is the lowest bit of the hash of choice n, and there are no other bits |
| `Kernel.GetLastStakeModifier` | src/kernel.cpp:44-56 | the nearest ancestor that generated a modifier; fails exactly if there is none |
| `Kernel.ComputeNextStakeModifier` | src/kernel.cpp:160-251 | which modifier a block gets: 0, the constant, the old one within an interval, or the new one from all blocks of the branch in the window |
| `Kernel.GetKernelStakeModifier` | src/kernel.cpp:253-283 | the modifier of the first block above that generated one a selection interval later or more; fails exactly if there is none |
| `Accumulators.ParsePacked` | src/accumulators.cpp:20-26 | each of the eight packed words is recovered |
| `Accumulators.ParseUnique` | src/accumulators.cpp:20-26 | no other number of 256 bits has the same eight words |
| `Accumulators.AccumulatedAllAdds` | src/accumulatormap.cpp:62-74 | accumulating mints adds to each denomination exactly the mints of it |
| `Accumulators.StoredLoads` | src/accumulators.cpp:86-103 | what DatabaseChecksums stored loads again, if checksums do not collide |
| `Accumulators.ConnectKeeps` | src/accumulators.cpp:304-329 | connecting a valid block keeps every checkpoint right |
| `Accumulators.NextDue` | src/accumulators.cpp:220-297 | a checkpoint at a multiple of ten is due exactly the mints of the ten blocks that the window adds, and in between it stays what it was |
| `Accumulators.AcceptedIff` | src/accumulators.cpp:290-329 | which checkpoint the next block may carry: off the multiples of ten, or if the window holds no mint, exactly that of the block before; otherwise the block is accepted if and only if all mints of the window are of valid kinds and the eight words of its checkpoint are the checksums of the accumulators that are due, with nothing above them |
| `Accumulators.HardCountsOnce` | src/accumulators.cpp:200-297 | in the first 20 blocks of version 2: from a hard checkpoint that holds the mints through 21 below its height, exactly the mints through 11 below the new height, each once; it fails only for a mint of no valid kind |
| `Accumulators.RunKeeps` | src/accumulators.cpp:304-329 | so does connecting any sequence of blocks |
| `Accumulators.RunCountsOnce` | src/accumulators.cpp:220-297 | along any chain the checkpoint in force at a height holds every mint from the start of the run through the block eleven below the last multiple of ten exactly once |
| `Accumulators.ConstantBetween` | src/accumulators.cpp:325-328 | along any chain all heights between two multiples of ten have the checkpoint of the lower one |
| `Accumulators.AccumulatorMap.Reset` | src/accumulatormap.cpp:24-38 | the empty accumulators |
| `Accumulators.AccumulatorMap.Load` | src/accumulatormap.cpp:40-53 | fails exactly if a checksum is unknown, otherwise loads all eight |
| `Accumulators.AccumulatorMap.Accumulate` | src/accumulatormap.cpp:62-74 | adds one mint, or refuses the invalid denomination |
| `Accumulators.AccumulatorMap.GetCheckpoint` | src/accumulatormap.cpp:84-98 | the loop packs eight checksums into 256 bits |
| `Accumulators.AccumulatorMap.AccumulateBlocks` | src/accumulators.cpp:253-287 | the window loop adds exactly the mints from twenty below the height of the accumulators, and not below the start of zerocoin, to eleven below the new height |
| `Accumulators.AccumulatorMap.InitializeAccumulators` | src/accumulators.cpp:184-229 | the accumulators to start from: those of the closest hard checkpoint, or those of the previous checkpoint |
| `Accumulators.AccumulatorMap.CalculateAccumulatorCheckpoint` | src/accumulators.cpp:232-297 | for every height but that of the recalculation: the new checkpoint and accumulators, or failure |
| `Accumulators.ValidateAccumulatorCheckpoint` | src/accumulators.cpp:304-329 | accepts a block exactly if its checkpoint is the specified one (see `Accumulators.AcceptedIff`), for every height but that of the recalculation |
| `LockedPages.PowerTest` | src/allocators.h:34-39 | the assert in the constructor holds exactly for powers of two |
| `LockedPages.MaskClears` | src/allocators.h:53-54 | masking an address gives the start of its page |
| `LockedPages.IntersectsIff` | src/allocators.h:53-55 | the loop from the first to the last page visits exactly the pages that the range intersects |
| `LockedPages.LockedPageManager.LockRange` | src/allocators.h:46-66 | the counters count one live range more |
| `LockedPages.LockedPageManager.UnlockRange` | src/allocators.h:68-89 | for a live range the assert holds and the counters count one range less |
| `LockedPages.LockedPageManager.LockedIff` | src/allocators.h:46-89 | a page is locked exactly if some live range intersects it |
| `LockedPages.LockedPageManager.GetLockedPageCount` | src/allocators.h:91-96 | the number of locked pages |

## Left out

- AddrManStoreRun.Unserialize: the manager has no entries, as with its callers, and a stream that ends early is not modelled.
- AddrManStore.LoadConsistentIff: the condition is on the entries as loaded, before the pruning, since whether an entry gets a slot depends on all others; `AddrManStore.LoadConsistent` has one on the stream alone.
- AddrManStoreRun.Serialize: the stream is a record of its fields and lists, not bytes; reads past its end, a negative or missing length and the bytes of an entry are not modelled.
- AddrManRoundTrip.SavedThenLoaded: nLastTry is not stored by the source, and vRandom comes back in another order.
- AddrManRuns.RunKeeps: times are unbounded integers, so the truncation of nTime to 32 bits is not modelled; nServices is a set of bits; the key is a number that is fixed when the manager is made.
- AddrManRuns.GetAddrKeeps: the draws are arbitrary; how likely each order is has no meaning here.
- `CAddrMan::Select_` and `CAddrInfo::GetChance`: probabilities and a loop that ends with probability one; they change nothing but the order of draws.
- Parts of a function that are methods of their own here (`DropFromNew_`, `Evict_`, `MakeRoom_`, `FindBucket_`, `Refresh_`, `Place_`, `Insert_`, `ClearTable`, `AppendBits`, `FillBelow`, `FillFromBottom`, `DropOverlap`, `TakeUntilOver`, `IdealOfKind`, `SpendsOfKind`, `AddRow`, `DivideBit`, `Process`, `Locate`, `Collect`, `RaisePages`, `LowerPages` and others) are inlined in the source.
- CoinSelectionRun.SelectMintsFromList: targets are positive, as its caller checks (`src/wallet.cpp:4846-4849`), and the map of held coins counts the unused mints of the list.
- CoinSelectionRun.GetSpends: more coins of a kind than the list has would loop forever; its callers never ask for them, which is what is proved.
- CoinSelectionRun.GetIdealSpends: the map of used coins starts empty, as in its only caller; maps by denomination are sequences in the order of zerocoinDenomList.
- Amounts in coin selection are unbounded integers: no sum of held mints comes near 2^63.
- Coins.SpendThenRestore: zerocoin mints, which IsAvailable excludes, and the error messages about inconsistent undo data are not modelled.
- The bytes of undo data (`src/undo.h`), adding the outputs of a transaction (`FromTx`) and `ClearUnspendable`.
- CoinsCache.RunRefines: SetBackend, GetStats, AccessCoins by pointer, GetPriority, GetValueIn and write errors of the database are not modelled; the caller keeps the order that the asserts on hasModifier ask for.
- CoinsCacheClass.ViewCache.Flush: C++ moves coins out of the map it is given; here the child's map is simply emptied.
- Compressor.ScriptRoundTrip: which public keys are valid and how they are decompressed is a parameter (`Curve`), with the law that decompression inverts compression of valid keys; byte buffers are values.
- VarInt.ReadVarInt: overflow of a signed type while reading is modelled as wrap-around.
- CheckQueue.RunKeeps: fQuit is constant over a run, checks are numbers with a fixed verdict, and the memory they hold is not modelled; the mutex makes the steps atomic.
- CheckQueue.WaitReturns: counts the steps of threads in Loop, wake-ups with a reason included; that a scheduler lets some enabled thread run, and that a check ends, is assumed.
- ArithUintClass.BaseUint.EqualTo: needs two limbs, as WIDTH always has; conversions to double, hexadecimal and bytes, and the bitwise operators, are left out as easy.
- Base58.DecodeBase58: isspace is that of the C locale; the hexadecimal variants, CBase58Data and Bitcoin addresses are left out.
- Base58.DecodeEncodedCheck: the hash is any function with at least four bytes.
- Chain.CChain.GetLocator: the locator lists block index entries instead of their hashes.
- `CBlockIndex::GetBlockTrust`, `CChain::Tip(true)`, `CChain::Genesis` and the comparison of chains.
- Kernel.ComputeNextStakeModifier: the constant for the first block, which the source makes from the address of a string (`src/kernel.cpp:171`), is a parameter, as are the hash and the block index; printing is left out.
- `stakeTargetHit`, `CheckStake` and the hard-coded stake modifier checkpoints.
- Accumulators.RunCountsOnce: covers heights after the V2 start plus 20 and not the recalculation height; checksums must not collide, and blocks carry the list of mints that BlockToPubcoinList finds.
- Accumulators.AccumulatorMap.CalculateAccumulatorCheckpoint: not for the height of the recalculation, whose EraseCheckpoints changes the database; GetClosestCheckpoint is a parameter with checkpoints below the height asked for and above 20 blocks; shutdown requests and blocks that cannot be read from disk are not modelled.
- Accumulators.ValidateAccumulatorCheckpoint: not for the height of the recalculation.
- The switch of zerocoin parameters, `EraseCheckpoints`, the table of hard-coded accumulator checkpoints, witnesses and the arithmetic of accumulators.
- LockedPages.LockedPageManager.LockRange: ranges lie below the last page of the address space; for one that touches it the page counter would wrap around and the loop not end.
- Mutexes of the address manager, the page manager and the wallet: each method is one step.
