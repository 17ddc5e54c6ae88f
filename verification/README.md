# Bitcoin SV node: verified models of its concurrent and data-structure core

A Dafny model of the parts of the node whose correctness is hard to see from the
code, and proofs of what those parts are for:

- the parallel script check queue and the pool that lends such queues out, as step
  systems over every interleaving of the threads;
- the address manager: its two bucket tables, every public operation, whole runs
  of operations, and its disk format;
- the layered cache of unspent coins over the coin database, from a single entry's
  flags up to the protocol of concurrent readers and writers;
- the rolling bloom filter and the cuckoo cache of script signatures;
- 256-bit arithmetic on 32-bit limbs, the compact form of difficulty targets, and
  the work that a block proves;
- the block tree: skip links, the active chain, locators, forks, the tree of
  descendants, and the soft freezing of blocks;
- Base58 and Base58Check, compact block relay, and the allocation and pruning of
  block files.

Code that computes a value is modelled by functions; code that changes things step
by step is modelled by classes, arrays and loops, each method proved against a
function or a property. The modules follow the source files:

| modules | what |
|---|---|
| `CheckQueue`, `CheckQueueSafety`, `CheckQueueRuns` | steps of the queue; the invariant of every step; what holds of all runs |
| `CheckQueuePool` | the pool of queues |
| `AddrMan`, `AddrManInv`, `AddrManOps` | the manager's state; the invariant; the operations |
| `AddrManObject`, `AddrManCheck` | the manager as an object; its own consistency check |
| `AddrManDisk`, `AddrManStream` | the format; the loops that write and read it |
| `AddrManRoundTrip`, `AddrManReload` | the round trip; loading into a manager that is not new |
| `Coins`, `CoinsMeaning` | entries of a layer; the plain map a layer stands for |
| `CoinsObject`, `CoinsView`, `CoinsFetch` | the store; a layer over any view; the database with concurrent readers |
| `RollingBloom` | the rolling bloom filter |
| `Cuckoo`, `CuckooProps`, `CuckooObject` | the cuckoo cache: functions, properties, arrays |
| `Limbs`, `LimbShifts`, `ArithUint` | numbers made of limbs, and the operations on them |
| `Compact`, `Target` | the compact form on numbers, and on limbs; block proofs |
| `SkipHeights`, `BlockTree` | skip heights and the length of a walk; block index and chain |
| `Descendants`, `SoftFreeze` | the walk over descendants; freezing |
| `Digits`, `Base58` | positional numbers; the text forms |
| `CompactBlocks`, `BlockFiles` | compact blocks; block files |
| `Options`, `Nonlinear` | optional values; facts about products |

Where the code and its comments disagree, the model follows the code:

- The cuckoo cache says that an insert without a free slot first displaces the
  element at the first location; the code takes the second one, because the search
  for "no last location" ends at 8 and 1 + 8 is masked to 1
  (`src/cuckoocache.h:390-408`).
- A soft freeze whose last height would exceed a 32-bit integer is walked only up
  to the height `duration`, not to the end (`src/validation.cpp:3400-3404`).
  `SoftFreeze.Freezer.SoftConsensusFreeze` says exactly when the marks are then
  right.
- Marking an address as good with a time that is not positive leaves an entry that
  the manager's own check rejects; `AddrManOps.GoodKeeps` gives the exact condition
  and `AddrManOps.GoodAtZero` a state.
- The manager's check looks addresses up with an operator that inserts a missing one
  under the id 0, and so may change what it checks; it does not look at addresses
  that belong to no entry (`src/addrman.cpp:417`). `AddrManCheck.Check` says what a
  pass means.
- Clearing the manager leaves mapInfo and mapAddr as they are
  (`src/addrman.h:472-491`), and loading begins with it and reads over what is left
  (`src/addrman.h:359`, `src/addrman.h:389`). `AddrManReload.Reload` says exactly
  when loading a saved manager into a used one passes the check, and
  `AddrManReload.EmptyFails` gives a stream on which it never does. A used manager
  that was cleared cannot be saved: an assertion of Serialize fails
  (`src/addrman.h:325`, `AddrManStream.UsedFires`). So it is after a load that broke
  off, where the node clears the manager and saves it (`src/net/net.cpp:2484`):
  `AddrManStream.ClearedFires` gives the exact condition and
  `AddrManReload.CutTried` a stream.
- Multiplying a 256-bit number by itself in place gives zero, because it is cleared
  before it is read (`src/arith_uint256.cpp:58-70`).
- The index of a prefilled transaction is increased in 32 bits, so the largest index
  does not advance: two prefilled transactions may land on one position, and another
  position then has neither a transaction nor a short id
  (`src/blockencodings.cpp:104`). `CompactBlocks.PositionsShared` gives the exact
  condition and `CompactBlocks.WrappedIndex` an announcement. If it is the first
  entry, the position is -1; the size test refuses that unless there are 2^32 - 1
  short ids or more, where the write is outside the block
  (`CompactBlocks.StraysWhen`).
- The number of chunks below a new block is computed in 32 bits and is zero close to
  4 GiB, where chunks are then allocated again (`src/blockfileinfostore.cpp:103-104`).
  `BlockFiles.OldChunksExact` gives the exact condition.
- Base58 text ends at a NUL, whatever follows it in the string
  (`src/base58.cpp:125-127`).

## Model

| member | source | states |
|---|---|---|
| `CheckQueueSafety.StepKeeps` | src/checkqueue.h:141-260 | every step of any thread, of the owner, or of the cancellation token keeps the whole invariant: counters exact, every added check in exactly one place, verdicts accounted for |
| `CheckQueueRuns.ReachableInv` | src/checkqueue.h:141-260 | the invariant holds in every state of every execution |
| `CheckQueueRuns.AnswerSound` | src/checkqueue.h:349-359 | Wait answers true only if every added check ran exactly once and passed, false only if one failed, nothing only if the session was canceled or a check returned nothing |
| `CheckQueueRuns.CountersMeanWork` | src/checkqueue.h:151-260 | in every reachable state nTodo counts the checks queued or in some batch, nTotal - nIdle counts the threads that hold a batch, and no counter is negative |
| `CheckQueue.BatchLength` | src/checkqueue.h:228-241 | a batch has at least one check, at most the batch size, and never more than there are |
| `CheckQueue.QuotientIsDivision` | src/checkqueue.h:236-238 | the division that sizes a batch, written as repeated subtraction, is the unsigned division |
| `CheckQueueRuns.IdleAfterWait` | src/checkqueue.h:393-419 | after Wait has returned the queue is idle and a session can be started, whatever the workers do |
| `CheckQueueRuns.NeverStuck` | src/checkqueue.h:141-260 | while the master is inside Wait, some thread can take a step that is not a spurious wake-up |
| `CheckQueueRuns.WorkerInFlight` | src/checkqueue.h:190-226 | a master that waits without a notification waits for a worker that holds checks, so no wake-up is lost |
| `CheckQueueRuns.RankDecreases` | src/checkqueue.h:141-260 | every thread step but a spurious wake-up lowers a measure of the work left |
| `CheckQueueRuns.WaitReturns` | src/checkqueue.h:349-359 | no run inside Wait has more useful steps than the measure of the work left |
| `CheckQueueRuns.WaitEnds` | src/checkqueue.h:349-359 | in every infinite run in which a thread that can act from some time on takes a step, Wait returns; a waiting master counts as able to act only if it was notified |
| `CheckQueuePool.FindWorst` | src/checkqueuepool.h:251-263 | the scan finds the first running session of the lowest value, the earliest started among equals |
| `CheckQueuePool.AssertsNeverFire` | src/checkqueuepool.h:239-327 | in every state with the invariant no assertion of the pool fires and no call to a queue throws: a handle's queue is idle when it is given back and is found among the running ones |
| `CheckQueuePool.PoolStepKeeps` | src/checkqueuepool.h:239-327 | every step of the pool, of a handle or of any thread of any queue keeps the pool's invariant |
| `CheckQueuePool.PoolSafe` | src/checkqueuepool.h:79-327 | in every run no assertion fires, each queue is idle or lent out, exactly one of the two and exactly once, and handles and running entries correspond one to one |
| `CheckQueuePool.HandleLent` | src/checkqueuepool.h:79-119 | the queue of an open handle is among the running ones and not idle |
| `CheckQueuePool.OneHandle` | src/checkqueuepool.h:79-119 | two open handles never have the same queue |
| `CheckQueuePool.PreemptsWorstOnly` | src/checkqueuepool.h:246-271 | a request without an idle queue cancels at most the worst session, only if it is worth less than the request, and changes nothing else |
| `AddrManInv.ClearNewInv` | src/addrman.cpp:132-144 | clearing a slot keeps the invariant, whether or not the entry loses its last reference and is deleted |
| `AddrManInv.DeleteInv` | src/addrman.cpp:119-130 | the assertions of a deletion hold for an unreferenced entry, and the invariant is kept without it |
| `AddrManOps.BackToNewInv` | src/addrman.cpp:163-186 | an entry evicted from the tried table returns to its own slot of the new table, where its loser gives way; the entry on the move survives |
| `AddrManOps.MakeTriedKeeps` | src/addrman.cpp:146-192 | moving an entry to the tried table keeps the structures in agreement, and the times if the entry has been reached |
| `AddrManOps.MakeTriedEffect` | src/addrman.cpp:146-192 | the entry ends up in its own tried slot without references, and no other tried slot changes |
| `AddrManOps.BucketFound` | src/addrman.cpp:220-233 | an untried entry is in some bucket, so the bail-out of Good_ is unreachable |
| `AddrManOps.GoodKeeps` | src/addrman.cpp:194-240 | for every time: the structures agree after Good_, the address is tried, and the invariant is kept if and only if the time is positive or nothing matches |
| `AddrManOps.GoodAtZero` | src/addrman.cpp:194-240 | an address just added and marked as good at time zero leaves a state that the check rejects |
| `AddrManOps.PlaceCases` | src/addrman.cpp:291-313 | where the occupant gives way its slot can be cleared and the entry survives that; where it does not, an entry without references can be deleted |
| `AddrManOps.AddKeeps` | src/addrman.cpp:242-314 | Add_ keeps the invariant for every address, source, penalty and outcome of its random choice |
| `AddrManOps.AddKnown` | src/addrman.cpp:242-314 | a routable unknown address is reported as new, and is known afterwards if and only if its slot was free or its occupant gave way |
| `AddrManOps.TouchesKeep` | src/addrman.cpp:316-335 | Attempt_ keeps the invariant if and only if the time is not negative or nothing matches; Connected_ and SetServices_ always do |
| `AddrManOps.SwapKeeps` | src/addrman.cpp:101-117 | swapping two random positions keeps the invariant |
| `AddrManOps.RunConsistent` | src/addrman.cpp:194-335 | every state of every run of calls from an empty manager is consistent, and so passes Check_ |
| `AddrManCheck.Check` | src/addrman.cpp:396-458 | returns 0 if and only if the key is not null and the state passes; on a state without stray addresses and with ids below the next one, if and only if it is consistent and the key not null; changes nothing if every entry has its address |
| `AddrManCheck.CheckEntries` | src/addrman.cpp:402-423 | in any order of the entries: passes if and only if every entry does, and collects the tried ids and the reference counts |
| `AddrManCheck.CheckTried` | src/addrman.cpp:428-440 | passes and uses up the tried ids if and only if every tried entry is in its own slot and nothing else is in the table |
| `AddrManCheck.CheckNew` | src/addrman.cpp:442-451 | passes and uses up the counts if and only if every reference is in its place and every count exact |
| `AddrManCheck.RandomCount` | src/addrman.cpp:400 | where every entry has its position, vRandom holds each entry once if and only if it has as many positions as there are entries |
| `AddrManCheck.PassesMeans` | src/addrman.cpp:396-458 | a state is consistent if and only if it passes, its ids are below the next one, and mapAddr holds addresses of entries only |
| `AddrManObject.Manager.Create` | src/addrman.cpp:90-99 | the object's fields become those of the specification: a new id, indexed by address and random position |
| `AddrManObject.Manager.SwapRandom` | src/addrman.cpp:101-117 | the object's fields become those of the specification |
| `AddrManObject.Manager.Delete` | src/addrman.cpp:119-130 | the object's fields become those of the specification |
| `AddrManObject.Manager.ClearNew` | src/addrman.cpp:132-144 | the object's fields become those of the specification |
| `AddrManObject.Manager.Withdraw` | src/addrman.cpp:148-158 | the loop over all buckets removes exactly the references of the entry |
| `AddrManObject.Manager.MakeTried` | src/addrman.cpp:146-192 | the loop, the eviction and the promotion together are the specification |
| `AddrManObject.Manager.FindBucket` | src/addrman.cpp:220-233 | the rotating search from a random start finds a bucket that holds the entry |
| `AddrManObject.Manager.Good` | src/addrman.cpp:194-240 | refines Good for every time, and leaves a consistent object exactly under the condition of GoodKeeps |
| `AddrManObject.Manager.Add` | src/addrman.cpp:242-314 | refines Add, result and state |
| `AddrManObject.Manager.Place` | src/addrman.cpp:291-313 | refines the placing of a reference |
| `AddrManObject.Manager.GetAddr` | src/addrman.cpp:461-476 | returns distinct entries that are not terrible, within the limit, and all of them if it stays below the limit; only positions change |
| `AddrManOps.ClearKeeps` | src/addrman.h:472-491 | clearing a consistent manager leaves a consistent one if and only if it held no entries |
| `AddrManObject.Manager.Clear` | src/addrman.h:472-491 | the object's fields become those of the specification: everything but mapInfo and mapAddr is reset |
| `AddrManRoundTrip.RoundTrip` | src/addrman.h:305-470 | loading what was saved into a manager without entries gives the same manager with its ids renumbered, consistent, with nothing lost |
| `AddrManStream.Serialize` | src/addrman.h:305-354 | for every manager an assertion fails if and only if more entries are met than a counter says; for a consistent one none does, and the loops write the specified stream |
| `AddrManStream.WriteEntries` | src/addrman.h:317-340 | either loop over mapInfo writes the records of its entries by increasing id, and fails if and only if there are more of them than counted; each entry is numbered by the new ones before it |
| `AddrManStream.WriteBuckets` | src/addrman.h:341-353 | the size of each bucket, and its entries by their numbers |
| `AddrManStream.ListingIs` | src/addrman.h:317-340 | going through mapInfo by increasing id meets the entries that the stream lists |
| `AddrManStream.ClearedFires` | src/addrman.h:317-340 | a cleared manager fails an assertion when it is saved if and only if it holds an entry with references or a tried one |
| `AddrManStream.UsedFires` | src/addrman.h:472-491 | so a consistent manager can be saved after clearing if and only if it held no entries |
| `AddrManStream.Unserialize` | src/addrman.h:356-470 | for every stream and every manager, also one with entries: fails, aborts or loads exactly as specified, with the specified state, which after a failure is what was read so far |
| `AddrManStream.ReadNewEntries` | src/addrman.h:387-407 | the loop refines the specification; an entry of before with the same id keeps its references and table |
| `AddrManStream.ReadTriedEntries` | src/addrman.h:409-428 | the loop refines the specification, where an id of -1 leaves its slot empty, and counts the lost entries |
| `AddrManStream.ReadAllBuckets` | src/addrman.h:429-449 | the loops refine the specification, and stop where the stream breaks off |
| `AddrManStream.PruneEntries` | src/addrman.h:451-463 | deletes the entries without a place by increasing id, and reports exactly when an assertion of a deletion fails |
| `AddrManRoundTrip.LoadsParts` | src/addrman.h:356-470 | a stream with a right header whose parts are read loads to the state read |
| `AddrManReload.NewNeverAborts` | src/addrman.h:356-470 | loading any stream into a manager without entries fails no assertion |
| `AddrManReload.OnlyOverwritten` | src/addrman.h:356-470 | for every stream: if a used manager passes the check after loading it, the ids it had are among those that the tried entries get |
| `AddrManReload.Reload` | src/addrman.h:356-470 | loading what one consistent manager saved into another passes the check, a null key aside, if and only if every old id lies in the ids of the tried entries; it gives a consistent manager if and only if, besides, every old address is saved too |
| `AddrManReload.LoadsEmpty` | src/addrman.h:451-463 | a stream of no entries leaves the old ones behind, and fails an assertion if and only if one of them has no place |
| `AddrManReload.EmptyFails` | src/addrman.h:356-470 | on it a consistent manager passes the check if and only if it held no entries |
| `AddrManReload.CutTried` | src/net/net.cpp:2479-2487 | a stream that breaks off after a tried entry leaves a new manager that cannot be saved, though it is cleared first |
| `AddrManReload.CutNew` | src/addrman.h:451-463 | one that breaks off after a new entry leaves a manager that fails an assertion on the next load |
| `AddrManRoundTrip.RenamedConsistent` | src/addrman.cpp:396-458 | renumbering the ids keeps consistency |
| `AddrManRoundTrip.NewFits` | src/addrman.h:377-380 | a consistent manager never exceeds the size test on its new entries |
| `AddrManRoundTrip.TriedFits` | src/addrman.h:382-385 | a consistent manager never exceeds the size test on its tried entries |
| `CoinsMeaning.FilledMeans` | src/coins.cpp:234-253 | reading a coin into a layer changes nothing that the layer stands for |
| `CoinsMeaning.LoadedMeans` | src/coins.h:427-436 | neither does loading a missing script |
| `CoinsMeaning.UncachedMeans` | src/coins.cpp:340-348 | neither does uncaching |
| `CoinsMeaning.AddedMeans` | src/coins.cpp:255-284 | adding throws exactly on a known unspent coin without leave to overwrite; otherwise it is a point update, and the flags stay truthful if and only if the caller met its duty |
| `CoinsMeaning.SpentMeans` | src/coins.cpp:304-318 | spending removes exactly that output from what the layer stands for |
| `CoinsMeaning.NeverMisapplied` | src/coins.cpp:365-373 | with truthful flags the exception on a misapplied FRESH flag is unreachable |
| `CoinsMeaning.FlushMeans` | src/coins.cpp:350-393 | writing a child into its parent makes the parent stand for what the child stood for, with truthful flags |
| `CoinsMeaning.StoredMeans` | src/txdb.cpp:194-265 | writing the dirty entries makes the database equal to what the layer stood for |
| `CoinsMeaning.UsageWithout` | src/coins.cpp:212-215 | the memory count splits off one entry |
| `CoinsMeaning.UsageWith` | src/coins.cpp:212-215 | the memory count after an update of one entry |
| `CoinsObject.CoinsStore.MoveOutCoins` | src/coins.h:408-415 | hands out all entries and leaves an empty store with an exact memory count |
| `CoinsObject.CoinsStore.Fill` | src/coins.cpp:234-253 | the entry is stored with its flags, and the memory count stays exact |
| `CoinsObject.CoinsStore.AddCoin` | src/coins.cpp:255-284 | throws and updates as specified, and the memory count stays exact |
| `CoinsObject.CoinsStore.SpendCoin` | src/coins.cpp:304-318 | a fresh entry is erased and another becomes spent and dirty, with an exact memory count |
| `CoinsObject.CoinsStore.ReplaceWithCoinWithScript` | src/coins.h:427-436 | the script is loaded, and adding the new usage keeps the memory count exact |
| `CoinsObject.CoinsStore.Uncache` | src/coins.cpp:340-348 | only unmodified entries go, with an exact memory count |
| `CoinsObject.CoinsStore.BatchWrite` | src/coins.cpp:350-393 | in any order of the child's entries: throws exactly if FRESH was misapplied somewhere, and then just the entries before that one are written; otherwise all of them are |
| `CoinsView.CoinsViewCache.GetCoin` | src/coins.cpp:25-76 | the answer is right for the map the layer stands for, which does not change |
| `CoinsView.CoinsViewCache.HaveCoin` | src/coins.cpp:131-135 | true exactly if the output is unspent in that map |
| `CoinsView.CoinsViewCache.AddCoin` | src/coins.cpp:78-99 | a point update of that map, or an exception exactly when it would replace a coin unasked |
| `CoinsView.CoinsViewCache.SpendCoin` | src/coins.cpp:116-129 | removes the output from that map and hands out its coin with its script |
| `CoinsView.CoinsViewCache.AddCoins` | src/coins.cpp:101-114 | throws exactly if an output exists and none may be overwritten, and then the map has gained just the outputs before the first such one; otherwise it gains exactly the spendable outputs |
| `CoinsView.WithOutputsAt` | src/coins.cpp:101-114 | of the outputs of a transaction exactly the spendable ones are new, and nothing else changes |
| `CoinsView.CoinsViewCache.Flush` | src/txdb.cpp:711-731 | never throws; the layer below then stands for what this layer stood for, and this layer is empty |
| `CoinsFetch.AssertsNeverFire` | src/txdb.cpp:486-611 | no assertion of the concurrent lookup fires |
| `CoinsFetch.StepKeeps` | src/txdb.cpp:486-667 | every step of a reader or a writer keeps the invariant and changes what the database stands for only as a writer asked |
| `CoinsFetch.InitInv` | src/txdb.cpp:471-479 | an empty cache over any database has the invariant and stands for the database |
| `CoinsFetch.RunSound` | src/txdb.cpp:486-667 | in every run readers get true answers, and the contents are those of the writers alone |
| `CoinsFetch.WaiterGetsTurn` | src/txdb.cpp:498-563 | a reader that must wait waits for another that can finish, and can then go on |
| `CoinsFetch.AnswerReplies` | src/txdb.cpp:486-611 | with a large enough size limit the database answers as a view does |
| `RollingBloom.FastMod` | src/bloom.cpp:259-261 | the multiplication that replaces a modulo stays below the bound |
| `RollingBloom.WipedCell` | src/bloom.cpp:270-278 | the bit masks clear the cells of one generation and no others |
| `RollingBloom.MarkedCell` | src/bloom.cpp:282-293 | marking sets one two-bit cell to the generation and leaves all others |
| `RollingBloom.TurnedYoung` | src/bloom.cpp:264-279 | a new generation ages every cell by one and wipes only the oldest |
| `RollingBloom.NoFalseNegatives` | src/bloom.cpp:263-313 | after any inserts, every key of the current and the last two generations is found |
| `RollingBloom.RemembersLast` | src/bloom.cpp:211-246 | a filter for n elements finds at least the last n |
| `RollingBloom.RollingBloomFilter.Insert` | src/bloom.cpp:263-294 | the word array is that of the run with one more key |
| `RollingBloom.RollingBloomFilter.Turn` | src/bloom.cpp:264-279 | the loop over pairs of words is the wiping of one generation |
| `RollingBloom.RollingBloomFilter.MayContain` | src/bloom.cpp:301-313 | true exactly if every cell of the key is set, and so for every recent key |
| `RollingBloom.RollingBloomFilter.Reset` | src/bloom.cpp:320-327 | a filter that has seen nothing |
| `CuckooProps.FoundExactly` | src/cuckoocache.h:446-457 | the eight slots hold an element exactly if it is anywhere in the table |
| `CuckooProps.DisplacedInv` | src/cuckoocache.h:381-417 | a chain of displacements keeps elements in their slots and never twice |
| `CuckooProps.DisplacedLive` | src/cuckoocache.h:381-417 | it loses nothing but the one element left over |
| `CuckooProps.CheckedKeeps` | src/cuckoocache.h:262-294 | aging releases no element of the newest epoch, and nothing at all before an epoch is full |
| `CuckooProps.InsertConserves` | src/cuckoocache.h:368-418 | after aging, an insert adds the element and loses at most one |
| `CuckooProps.InsertBounded` | src/cuckoocache.h:262-294 | the newest epoch together with the heuristic counter stays within its bound |
| `CuckooProps.LookedKeeps` | src/cuckoocache.h:446-457 | a lookup keeps the invariant and releases at most the element asked for |
| `CuckooProps.RunSound` | src/cuckoocache.h:262-294 | after any calls all of this holds, and the newest epoch exceeds its size by a sixteenth at most |
| `CuckooObject.Cache.EpochCheck` | src/cuckoocache.h:262-294 | the loops over the flag arrays are the specification |
| `CuckooObject.Cache.Insert` | src/cuckoocache.h:368-418 | the in-place displacement is the specification |
| `CuckooObject.Cache.Displace` | src/cuckoocache.h:381-417 | the loop of displacements is the recursive specification |
| `CuckooObject.Cache.Contains` | src/cuckoocache.h:446-457 | finds exactly the elements of the table, and releases one if asked |
| `ArithUint.Uint.Add` | src/arith_uint256.h:119-127 | the limbs with their carries add modulo 2 to the width |
| `ArithUint.Uint.Sub` | src/arith_uint256.h:129-132 | adding the negation subtracts with wrap-around |
| `ArithUint.Uint.Negated` | src/arith_uint256.h:68-75 | complement and increment negate |
| `ArithUint.Uint.Not` | src/arith_uint256.h:61-66 | the complement of the value |
| `ArithUint.Uint.Increment` | src/arith_uint256.h:152-158 | adds one with wrap-around |
| `ArithUint.Uint.MulWord` | src/arith_uint256.cpp:47-55 | the product with a word, modulo 2 to the width |
| `ArithUint.Uint.Mul` | src/arith_uint256.cpp:58-70 | the schoolbook product modulo 2 to the width; the same loops leave zero for a number times itself in place |
| `ArithUint.Uint.Shl` | src/arith_uint256.cpp:17-29 | multiplies by a power of two, modulo 2 to the width, for every shift |
| `ArithUint.Uint.Shr` | src/arith_uint256.cpp:32-44 | divides by a power of two, for every shift |
| `ArithUint.Uint.Div` | src/arith_uint256.cpp:73-100 | the quotient for every divisor, and an exception exactly for zero |
| `ArithUint.Uint.CompareTo` | src/arith_uint256.cpp:103-109 | the order of the values |
| `ArithUint.Uint.EqualTo` | src/arith_uint256.cpp:111-118 | equality with a 64-bit number |
| `ArithUint.Uint.Bits` | src/arith_uint256.cpp:147-157 | the length of the value in binary |
| `Compact.OverflowExact` | src/arith_uint256.cpp:189-192 | the overflow flag is set if and only if the number does not fit 256 bits |
| `Compact.RoundTrip` | src/arith_uint256.cpp:177-217 | encoding and decoding gives the truncated number, unflagged, in 32 bits |
| `Compact.SignedRoundTrip` | src/arith_uint256.cpp:177-217 | the sign survives as well, except that of zero |
| `Compact.RoundedMeans` | src/arith_uint256.cpp:196-217 | truncation clears low bytes, and loses less than a 2^15th of what is left |
| `Compact.FixedPoint` | src/arith_uint256.cpp:177-217 | a decoded target is encoded as it was |
| `Target.SetCompact` | src/arith_uint256.cpp:177-194 | the limbs and both flags are those of the exact number |
| `Target.GetCompact` | src/arith_uint256.cpp:196-217 | the compact form of the number in the limbs |
| `Target.ComplementQuotient` | src/block_index.cpp:112-117 | dividing the complement and adding one is dividing 2 to the 256, which does not fit |
| `Target.RoomForOne` | src/block_index.cpp:112-117 | a target that is not flagged can be incremented |
| `Target.GetBlockProof` | src/block_index.cpp:105-118 | the work of a block, zero for bad targets; never divides by zero |
| `SkipHeights.LowestOneCleared` | src/block_index.cpp:16-20 | of a number the lowest one-bit is cleared, and nothing else |
| `SkipHeights.SkipOfEven` | src/block_index.cpp:22-33 | an even height skips to the height without its lowest one-bit |
| `SkipHeights.SkipOfOdd` | src/block_index.cpp:22-33 | an odd height keeps its lowest bit and loses the next two |
| `SkipHeights.StepsBound` | src/block_index.cpp:27-33 | from below 2^k blocks the walk to any ancestor follows at most k * k + 1 links |
| `BlockTree.BlockIndex.Walk` | src/block_index.cpp:77-95 | the loop reaches the ancestor in as many steps as specified |
| `BlockTree.BlockIndex.GetAncestor` | src/block_index.cpp:72-96 | following skip links reaches the block that following parents would |
| `BlockTree.PathOn` | src/block_index.cpp:98-103 | the path to a block on a path is a prefix of that path |
| `BlockTree.LastCommonAncestor` | src/block_index.cpp:147-163 | the last block of the common prefix of both paths |
| `BlockTree.Chain.SetTip` | src/chain.cpp:11-25 | although it stops early, the vector is then the path to the tip |
| `BlockTree.Chain.FindFork` | src/chain.cpp:58-69 | the last common ancestor with the tip |
| `BlockTree.Chain.GetLocator` | src/chain.cpp:27-56 | ten steps of one, then doubling, always ending at genesis, on any branch |
| `BlockTree.LocatorShort` | src/chain.cpp:27-56 | a locator of a chain below 2^k blocks has at most k + 11 blocks |
| `BlockTree.Chain.FindEarliestAtLeast` | src/chain.cpp:71-78 | the binary search on running maxima finds the first block of the chain with such a time |
| `BlockTree.Chain.Next` | src/chain.h:62-68 | the child on the chain, exactly for a block on it that is not the tip |
| `BlockTree.OnPath` | src/chain.h:54-56 | a block is on a path exactly if it is there at its own height |
| `Descendants.WalkIsPreorder` | src/blockindex_with_descendants.h:99-135 | the walk without a stack goes through a preorder of the subtree |
| `Descendants.ListsDescendants` | src/blockindex_with_descendants.h:99-135 | which lists exactly the descendants |
| `Descendants.ListsOnce` | src/blockindex_with_descendants.h:99-135 | each once |
| `Descendants.ParentsFirst` | src/blockindex_with_descendants.h:99-135 | and each after its parent |
| `SoftFreeze.BlockIndexWithDescendants.constructor` | src/blockindex_with_descendants.h:161-203 | the tree over the root and all higher blocks up to the limit, with parents and children linked both ways |
| `SoftFreeze.BlockIndexWithDescendants.NextItem` | src/blockindex_with_descendants.h:99-135 | the loop upwards is the specified step |
| `SoftFreeze.WalkVisits` | src/blockindex_with_descendants.h:99-203 | the walk from the root visits exactly its descendants up to the limit, once, parents first, and stops |
| `SoftFreeze.MarkIsReach` | src/block_index.h:1126-1142 | the mark made of parents' marks is the largest freeze on the path less its distance |
| `SoftFreeze.NewFreeze` | src/block_index.h:542-560 | a new freeze raises the marks of its descendants within reach and no others |
| `SoftFreeze.MarkedExactly` | src/validation.cpp:3390-3411 | marks not updated are right exactly where the freeze does not reach further |
| `SoftFreeze.Freezer.SoftConsensusFreeze` | src/validation.cpp:3390-3410 | after freezing a block all marks are right if and only if no descendant above the last height visited is within reach, and always when that height is a 32-bit number |
| `SoftFreeze.FrozenTooFar` | src/validation.cpp:3400-3404 | a freeze of 2^30 - 1 blocks at height 2^30 should reach the next block, which is above the last height visited |
| `SoftFreeze.Freezer.UpdateDescendants` | src/validation.cpp:3406-3410 | the walk brings exactly the descendants up to the limit up to date |
| `Digits.ValDigits` | src/base58.cpp:22-119 | digits have the value they were made from |
| `Digits.DigitsVal` | src/base58.cpp:22-119 | a value has one form without leading zeros |
| `Digits.DecodeRoom` | src/base58.cpp:34-37 | the buffer of 733/1000 of the characters is always large enough |
| `Digits.EncodeRoom` | src/base58.cpp:86-89 | the buffer of 138/100 of the bytes is always large enough |
| `Base58.Scale` | src/base58.cpp:46-57 | multiplies the number in the buffer and adds a digit; the carry at the end is zero |
| `Base58.RebasedBack` | src/base58.cpp:22-119 | changing the base and back, leading zeros included, is the identity |
| `Base58.EncodeBase58` | src/base58.cpp:78-119 | the text of the bytes in base 58, a one for each leading zero |
| `Base58.DecodeBase58` | src/base58.cpp:22-127 | accepts exactly base-58 text between spaces, up to the first NUL, and gives its bytes |
| `Base58.DecodeEncode` | src/base58.cpp:22-119 | decoding what was encoded gives the bytes back |
| `Base58.EncodeDecode` | src/base58.cpp:22-119 | encoding what was decoded gives the text back, without outer spaces |
| `Base58.CheckRoundTrip` | src/base58.cpp:129-150 | text decodes to bytes if and only if, up to a NUL and between spaces, it is their text with the checksum |
| `CompactBlocks.PartiallyDownloadedBlock.Prefill` | src/blockencodings.cpp:94-118 | places the prefilled transactions with 32-bit positions, or fails exactly if one does not pass the tests |
| `CompactBlocks.FilledCount` | src/blockencodings.cpp:94-118 | each prefilled transaction takes an empty position, except one with the largest index after the first, which takes the position before it |
| `CompactBlocks.PositionsShared` | src/blockencodings.cpp:94-158 | of an accepted announcement every position has a prefilled transaction or a short id, and none both, if and only if no entry after the first has the largest index |
| `CompactBlocks.StraysWhen` | src/blockencodings.cpp:104-118 | the position -1 passes the tests if and only if the first index is the largest and there are 2^32 - 1 short ids or more |
| `CompactBlocks.WrappedIndex` | src/blockencodings.cpp:94-118 | an accepted announcement with two transactions at one position and a position with neither |
| `CompactBlocks.MapShortIds` | src/blockencodings.cpp:126-158 | every id gets the next empty position, and fails exactly on equal ids or uneven hashing |
| `CompactBlocks.PartiallyDownloadedBlock.Match` | src/blockencodings.cpp:160-223 | a slot only ever holds a transaction with its id, and the count stays that of the filled slots |
| `CompactBlocks.PartiallyDownloadedBlock.InitData` | src/blockencodings.cpp:80-231 | exactly when it refuses, when it fails and when it succeeds, and the state after success |
| `CompactBlocks.PartiallyDownloadedBlock.FillBlock` | src/blockencodings.cpp:239-295 | the block with the missing transactions in their gaps; refuses exactly too few or too many |
| `CompactBlocks.RestoresBlock` | src/blockencodings.cpp:239-270 | gaps filled with a block's own transactions restore the block |
| `CompactBlocks.AnnouncedAgrees` | src/blockencodings.cpp:19-30 | a receiver without colliding ids has only transactions of the announced block, each in place |
| `CompactBlocks.Reconstructs` | src/blockencodings.cpp:19-270 | with what it then asks for it has the sender's block |
| `BlockFiles.BlockFileInfoStore.FindFile` | src/blockfileinfostore.cpp:18-36 | the first file with room from the last one on |
| `BlockFiles.BlockFileInfoStore.FindBlockPos` | src/blockfileinfostore.cpp:71-122 | stored blocks never overlap, stay inside their files and, with the old chunks counted in 32 bits, inside what is allocated; the 32-bit position is exact if and only if the file is below 4 GiB |
| `BlockFiles.OldChunksExact` | src/blockfileinfostore.cpp:103-104 | the old chunks are counted right if and only if the position is at least a chunk below 4 GiB; at the last position none are counted |
| `BlockFiles.PositionLost` | src/blockfileinfostore.cpp:81-84 | a file of 4 GiB with room for more gives its next block the position 0 |
| `BlockFiles.BlockFileInfoStore.CalculateCurrentUsage` | src/blockfileinfostore.cpp:154-161 | the sum of all files |
| `BlockFiles.BlockFileInfoStore.ClearFileInfo` | src/blockfileinfostore.cpp:163-167 | a deleted file holds no blocks, and the others keep theirs apart |
| `BlockFiles.BlockFileInfoStore.FindFilesToPrune` | src/blockfileinfostore.cpp:224-277 | deletes nothing near the tip, and eligible files from the first on only while the target is exceeded |

## Left out

- Check queue: the list of failed checks, shutting down, and which threads a notification wakes (any waiting thread may wake at any time, so nothing depends on it).
- Address manager: hash functions, random choices and the clock are parameters; a bucket table is the map of its occupied slots, not an array with -1 for the others.
- Address manager: Select_, which only reads, and the limits of machine integers on its counters.
- AddrManCheck.Check: the entries are visited in any order, where the source visits them by increasing id, so which error comes first is left open.
- AddrManStream.Serialize: the stream is a sequence of typed tokens; how each is written in bytes is not modelled.
- Coins: best-block hashes, detaching and re-attaching spans, HaveInputs, GetValueIn and HaveInputsLimited.
- Coins: how long a coin that does not own its script may point to one; the model copies.
- Coins: a spent coin carries no script and an empty script uses no memory of its own, as in the source's coin type.
- CoinsFetch.StepKeeps: reading the database and storing what was read is one step; no writer can come between them, since writers wait for all readers to leave.
- Bloom filters: the fixed filter of peers, and how sizes follow from a false positive rate (sizes are parameters).
- Cuckoo cache: how sizes follow from a number of bytes, the mapping of hashes to slots (any eight slots), and the relaxed memory order of the flags.
- 256-bit numbers: floating point and hexadecimal conversions, bitwise operators between numbers, and the equivalent time of two chains. The disjoint bitwise-or inside shifts is a sum, proved disjoint.
- Compact blocks: the coding of requests for transactions, and the hash table's bucket sizes (where it becomes too uneven is a parameter).
- Compact blocks: transactions known from the extra pool are not counted separately. A write outside the block is reported as a status of its own.
- CompactBlocks.Reconstructs: assumes that no foreign transaction at hand has the short id of one in the block, which is what the format relies on.
- Block index: chain work and the order of chain tips by work.
- Block files: undo positions, blocks at known positions during a reindex, loading from the database, and pruning by hand.
- Soft rejection of blocks, script evaluation, validation of blocks and transactions, the memory pool, the wallet, the network protocol and the RPC interface.
