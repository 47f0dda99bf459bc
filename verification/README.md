# Verified models of UnemployCoin Core algorithms

A Dafny model of the parts of UnemployCoin Core whose correctness rests on invariants over whole runs, and
proofs of what those parts promise. Each module follows one component:

| module | component |
|---|---|
| `AddrMan`, `AddrManAdd`, `AddrManGood`, `AddrManTables`, `Services` | the address manager: its rules on values, what each operation does, and the object with its bucket tables |
| `AddrManDisk`, `AddrManLoad`, `AddrManStream` | saving to and loading from `peers.dat`, loading any stream at all, and which streams give a consistent state |
| `Mempool`, `Miner` | the transaction graph, and the block assembler that selects packages from it |
| `Coins` | the stack of write-back caches over the coin database |
| `CheckQueue` | the master/worker queue of script checks |
| `PartialMerkle`, `ByteBits` | partial Merkle trees, their encoder, decoder and bit packing |
| `BoolExpr`, `BoolText` | the evaluator of boolean verifier strings, and exactly which texts it accepts |
| `Cuckoo` | the signature cache |
| `Limbs`, `ArithUint`, `Compact` | multi-limb integers, the compact difficulty format, the work of a block |
| `SkipList`, `Chain` | skip heights and the length of skipping walks; the block tree and the active chain |
| `Base58` | Base58 and Base58Check |
| `RollingBloom` | the rolling Bloom filter |
| `NetFraming` | cutting a peer's byte stream into messages |
| `Arithmetic`, `Basics` | facts about products, quotients and powers; options and white space |

Code that computes by expressions and recursion is modelled by functions. Code that changes objects step by
step is modelled by classes and loops; those methods are proved equal to a function on values, and the
theorems are about that function. Hash functions are arbitrary functions (injective only where a theorem says
so), random choices and the clock are parameters, and so are the predicate `IsTerrible` and the hash tweak.
Integers are unbounded except where a width matters: limbs, 64-bit intermediates, compact numbers, hashes
scaled to slots, and words of bits have their widths.

`dafny verify dfyconfig.toml` checks the project.

## Where the code and its text differ

The theorems named here state what the code does and exactly when the text holds.

- The comment on partial Merkle trees (`src/merkleblock.h:33-49`) bounds the flag bits by `2*N-1` for N stored
  hashes. There are `2*N-1` bits and one more for every tree level whose last node has a single child and a
  marked leaf below it (`FlagBits`), so the bound holds if and only if there is no such level (`FlagBitsBound`).
  Three transactions of which the last is marked exceed it (`FlagBitsExceeded`).
- The same comment guarantees a size of at most `10 + ceil(32.25*N)` bytes. Up to 65535 transactions, more than
  the decoder admits, the size is at most two bytes more, and `EncodedSizeBound` states exactly when it is
  within the guarantee. A tree of 1012 transactions, all marked, takes one byte more (`DocumentedSizeExceeded`).
- A partial Merkle tree carries its own transaction count, and the decoder does not compare it with the block's.
  With the true root, a tree lower than the block's yields inner nodes as transactions (`AcceptedMatches`;
  `LowerTreeAccepted` shows it for four transactions announced as two). A higher tree yields nothing, unless some
  transaction hash is the hash of a pair of hashes (`HigherTreeAccepted`). Otherwise the matches are genuine if
  and only if there are none or the tree is as high as the block's (`AcceptedIsGenuine`).
- The evaluator of verifier strings is used as their syntax check and accepts texts that are not formulas: in
  front of a list of several operands, at the start of the text or of a parenthesis, it passes over characters
  that can begin no operand, and it passes over `&` in front of an operand of `|` that is itself a conjunction.
  `AcceptedExactly` states which texts are accepted, as what formula and with what value, when all keys of the
  valuation are names. `|a|b` is accepted as `a|b` (`LeadingOperatorAccepted`), and `&a` is refused
  (`LeadingOperatorRefused`).
- `x *= x` gives zero for every x, because the product is built in the object that is also the operand
  (`src/arith_uint256.cpp:72-85`). `MulAssign` covers both cases; the aliased result is the product exactly if
  the low half of the bits of x is zero.
- The comment on the cuckoo cache says that the first displacement uses `locs[0]`. The code computes index
  `(1 + 8) & 7`, so it uses `locs[1]` (`src/cuckoocache.h:419-434`, `FirstDisplacement`).
- The comment on the epoch size says 45 percent of the table. The product is taken in 32 bits, so this holds if
  and only if 45 times the size is below 2^32 (`EpochSizeExact`).
- An element of the cuckoo cache is spared by ageing for one insertion more than an epoch (`AgeingSparesRecent`).
- The four limits on ancestors (`src/txmempool.h:627-637`) are said to count the transaction itself. Nothing is
  tested for a transaction without ancestors, and the number of ancestors is not tested for an entry of the pool
  none of whose ancestors has parents (`LimitsAsDocumented`, `CountNotTested`).
- `Add` answers whether it created an entry, also when that entry found no slot and was deleted again. `AddOutcome`
  states exactly when a new address is present afterwards.
- `Add` asks whether an announcement brings a new time only after it has recorded that time (`src/addrman.cpp:266-277`), so one
  that comes without a penalty and refreshes the time adds no reference, whatever the dice; `KnownGains` states exactly
  when one is added.
- Loading `peers.dat` accepts streams that saving never writes: an address that occurs twice is loaded twice, and
  the result then fails `Check_` exactly if one of the two survives pruning (`LoadedConsistent`,
  `SharedAddressLoads`).
- `Check_` also demands `nLastTry >= 0`, and `nLastSuccess != 0` for tried entries. `Good_` and `Attempt_`
  store the time they are given, so these clauses hold exactly under the conditions on the time that
  `GoodTimes` and `AttemptTimes` state.
- `AddCoin` without `possible_overwrite` detects an unspent coin only if it is cached; `AddSpec` states
  exactly when the flags stay right.

## Model

| member | source | states |
|---|---|---|
| AddrMan.RunKeepsConsistent | src/addrman.cpp:90-528 | every run of additions, promotions, attempts, connections, service updates and getaddr answers keeps the structural predicate of `Check_` |
| AddrMan.RunsPassCheck | src/addrman.cpp:394-468 | from a consistent state, every run under a running clock satisfies every clause of `Check_` about entries, tables, positions, counters and times |
| AddrMan.RandomCounted | src/addrman.cpp:399-400 | `vRandom` is as long as both counters together |
| AddrMan.EmptyConsistent | src/addrman.h:458-484 | the cleared tables satisfy the predicate |
| AddrMan.SwapRandomKeeps | src/addrman.cpp:102-120 | exchanging two positions keeps the predicate and changes nothing but positions |
| AddrMan.DeleteKeeps | src/addrman.cpp:122-134 | deleting an unreferenced entry keeps the predicate, also in the middle of an operation |
| AddrMan.ClearNewKeeps | src/addrman.cpp:136-149 | clearing a slot is always allowed by its assertion, keeps the predicate, and changes only the slot and its occupant |
| AddrMan.CreateKeeps | src/addrman.cpp:90-100 | a created entry is the only one without references, and the count of new entries is off by exactly one |
| AddrMan.PlaceKeeps | src/addrman.cpp:311-314 | putting an entry in its hashed free slot keeps reference counts equal to slot occurrences |
| AddrMan.InsertKeeps | src/addrman.cpp:300-320 | the last part of an addition ends in a consistent state whether it places, leaves or deletes the entry |
| AddrMan.Add | src/addrman.cpp:251-322 | an addition ends in a consistent state on every path |
| AddrManAdd.AddOutcome | src/addrman.cpp:251-322 | at most the one hashed slot is given away; no other entry changes, and none is lost but a terrible holder of that slot with no other reference; a known entry stays, and a new address is present afterwards if and only if it is routable and its slot is available |
| AddrManAdd.InsertSpares | src/addrman.cpp:300-320 | the last part keeps its entry if and only if that had a reference or may take the slot |
| AddrManAdd.KnownStatistics | src/addrman.cpp:254-273 | a known address offers afterwards the services of before and the announced ones; its time becomes the announced one less the penalty, and never below zero, if and only if the announcement has a time and none was recorded, or it is newer by more than the penalty and an hour, or a day if it is a day old; nothing else of its entry changes, and its own announcement has no penalty |
| AddrManAdd.KnownGains | src/addrman.cpp:275-317 | a known address gets the hashed slot if and only if the announcement is later than the time now recorded, or none is, the entry is a new one with fewer than eight references, the dice give zero among two to the number of references, and the slot is free, its own or held by a terrible entry |
| AddrManAdd.NewStatistics | src/addrman.cpp:293-298 | a new address that stays has the announced services and source, the announced time less the penalty, and no attempts yet |
| Services.UnionOffers | src/addrman.cpp:273-273 | the services recorded are exactly those of before or announced, whichever flags are asked for |
| AddrMan.ScanFindsAll | src/addrman.cpp:153-162 | scanning every bucket at the hashed position finds exactly the entry's slots, as many as its reference count |
| AddrMan.DropNewRefsKeeps | src/addrman.cpp:153-164 | after the scan no slot refers to the entry and its count is zero, as the assertion demands |
| AddrMan.EvictKeeps | src/addrman.cpp:170-192 | evicting the tried occupant frees the slot and returns the occupant to a new bucket, keeping the predicate |
| AddrMan.MakeTried | src/addrman.cpp:151-197 | promotion ends in a consistent state |
| AddrMan.MakeTriedMoves | src/addrman.cpp:151-197 | the entry is tried afterwards, in its hashed slot, and no other tried slot changes |
| AddrMan.MakeTriedTimes | src/addrman.cpp:151-197 | promotion makes no other entry tried and changes no entry's times |
| AddrManGood.MakeTriedPromotes | src/addrman.cpp:151-197 | exactly what a promotion leaves: the entry has its tried slot and no new one; the occupant of that slot is back in the new slot of its own source; the only entry that can be lost is that slot's holder, exactly if it had no other reference; nothing recorded changes |
| AddrMan.GoodAlwaysFindsBucket | src/addrman.cpp:229-242 | the branch for an entry found in no new bucket is never taken |
| AddrMan.Good | src/addrman.cpp:199-249 | ends in a consistent state |
| AddrMan.GoodOutcome | src/addrman.cpp:199-249 | a known service is tried afterwards with both times set; no other entry becomes tried or changes its times |
| AddrMan.GoodTimes | src/addrman.cpp:199-249 | the clauses on times survive if and only if the service is unknown or the time is positive |
| AddrManGood.GoodPromotes | src/addrman.cpp:199-249 | an unknown service changes only the time of the last success; a known one has success and try set and its attempts cleared, and is then promoted unless it is tried |
| AddrMan.Attempt | src/addrman.cpp:324-344 | ends in a consistent state |
| AddrMan.AttemptTimes | src/addrman.cpp:324-344 | the clauses on times survive if and only if the service is unknown or the time is not negative |
| AddrManGood.AttemptOutcome | src/addrman.cpp:324-344 | an attempt sets the last try of the known service; it is counted exactly if that is asked for and none was counted since the last success; nothing else changes |
| AddrManGood.AttemptsCountOnce | src/addrman.cpp:339-343 | after an attempt at or after the last success, further ones are not counted |
| AddrMan.AddTimes | src/addrman.cpp:251-322 | an addition keeps the clauses on times |
| AddrMan.Connected | src/addrman.cpp:492-510 | ends in a consistent state |
| AddrManGood.ConnectedOutcome | src/addrman.cpp:492-510 | the time of the known service is replaced exactly if it is more than twenty minutes older; nothing else changes |
| AddrMan.SetServices | src/addrman.cpp:512-528 | ends in a consistent state |
| AddrManGood.SetServicesOutcome | src/addrman.cpp:512-528 | the services of the known service are replaced; nothing else changes |
| AddrMan.GetAddr | src/addrman.cpp:471-490 | the shuffle keeps the predicate |
| AddrMan.GetAddrAnswers | src/addrman.cpp:471-490 | the answer names acceptable entries, each once, at most 23 percent of the entries and at most 2500, and leaves one out only if it is full |
| AddrManTables.CAddrMan.constructor | src/addrman.h:458-490 | the new object is the empty state |
| AddrManTables.CAddrMan.Find | src/addrman.cpp:70-81 | finds the entry of an address if there is one |
| AddrManTables.CAddrMan.Create | src/addrman.cpp:90-100 | the object's new state is the specified one |
| AddrManTables.CAddrMan.SwapRandom | src/addrman.cpp:102-120 | the object's new state is the specified one |
| AddrManTables.CAddrMan.Delete | src/addrman.cpp:122-134 | the object's new state is the specified one |
| AddrManTables.CAddrMan.ClearNew | src/addrman.cpp:136-149 | the object's new state is the specified one |
| AddrManTables.CAddrMan.MakeTried | src/addrman.cpp:151-197 | the loop over buckets and the eviction reach the specified state, and the invariant holds |
| AddrManTables.CAddrMan.FindBucket | src/addrman.cpp:229-238 | from a random start the loop finds a bucket that holds the entry exactly if there is one |
| AddrManTables.CAddrMan.Good | src/addrman.cpp:199-249 | reaches the specified state whatever bucket the random start finds, and the invariant holds |
| AddrManTables.CAddrMan.Add | src/addrman.cpp:251-322 | reaches the specified state and answer, and the invariant holds |
| AddrManTables.CAddrMan.Insert | src/addrman.cpp:300-320 | reaches the specified state |
| AddrManTables.CAddrMan.Attempt | src/addrman.cpp:324-344 | reaches the specified state, and the invariant holds |
| AddrManTables.CAddrMan.Connected | src/addrman.cpp:492-510 | reaches the specified state, and the invariant holds |
| AddrManTables.CAddrMan.SetServices | src/addrman.cpp:512-528 | reaches the specified state, and the invariant holds |
| AddrManTables.CAddrMan.GetAddr | src/addrman.cpp:471-490 | reaches the specified state and answer, and the invariant holds |
| AddrManTables.CAddrMan.Serialize | src/addrman.h:302-350 | the loops write the specified stream |
| AddrManTables.CAddrMan.Unserialize | src/addrman.h:352-456 | the loops accept exactly the specified streams and rebuild the specified state |
| AddrManDisk.ListSizes | src/addrman.h:316-334 | the entries written as new and as tried are as many as the two counters say, so the assertions hold |
| AddrManDisk.SavedCountsAdmitted | src/addrman.h:373-379 | what is saved passes the size checks of loading |
| AddrManDisk.RoundTrip | src/addrman.h:302-456 | loading what was saved succeeds and gives the same bucket tables up to renaming of ids; every entry has its address, source, services, time, last success, attempts and reference count back, and no last try; the result passes every clause of `Check_` that the saved state did |
| AddrManLoad.LoadedConsistent | src/addrman.h:352-456 | whatever the stream: it loads if and only if its header fits; positions, both bucket tables, reference counts and counters are then right; and the whole state is consistent if and only if no entry that survives pruning shares its address with another entry |
| AddrManLoad.DistinctLoads | src/addrman.h:352-456 | a stream in which no address occurs twice loads into a consistent state, whatever its bucket section says |
| AddrManLoad.SharedAddressLoads | src/addrman.h:403-421 | two tried entries of one address in different slots both load, and the state is not consistent |
| AddrManLoad.BeforePruningSettled | src/addrman.h:381-443 | the three loops leave every index right but the owners of addresses, with both counters exact |
| AddrManLoad.PruneSettles | src/addrman.h:445-455 | pruning removes exactly the entries without a reference and their addresses, and keeps the rest right |
| AddrManStream.StreamConsistent | src/addrman.h:352-456 | a stream without new entries, or with a bucket section that is not usable, loads into a consistent state if and only if no address of an entry that survives occurs with another entry that is loaded, survival being told by the hashed slots of the stream |
| Mempool.CalculateAncestors | src/txmempool.cpp:155-232 | whatever the order of the work list: it is refused if and only if a limit that is tested is exceeded, the reason given is true, and otherwise the result is exactly the transitive parents |
| Mempool.FindParents | src/txmempool.cpp:162-175 | the parents among the inputs, refused exactly if they are too many |
| Mempool.Walk | src/txmempool.cpp:183-214 | the loop over the work list, with its four refusals |
| Mempool.StageParents | src/txmempool.cpp:203-213 | the parents not visited yet join the work list unless the count is exceeded |
| Mempool.LimitsAsDocumented | src/txmempool.h:627-637 | what is within the documented limits is admitted, and exactly when more than that is |
| Mempool.CountNotTested | src/txmempool.cpp:178-214 | an entry of the pool with two parents that have none is admitted under a limit of one ancestor |
| Mempool.NothingRefused | src/miner.cpp:444-447 | without limits, as the block assembler calls it, the answer is always the ancestors |
| Mempool.CalculateDescendants | src/txmempool.cpp:736-757 | the work list adds exactly the transitive children to a set that is closed under children, empty or not |
| Mempool.AncestorCounts | src/miner.h:87-103 | an ancestor has a smaller ancestor count than its descendant |
| Mempool.Size | src/policy/policy.cpp:266-269 | the least number of quarters that covers both the weight and the weight the signature operations count for |
| Miner.BlockAssembler.constructor | src/miner.cpp:81-120 | the empty template satisfies the invariant; the weight limit is clamped, and a wanted limit inside the range is kept |
| Miner.BlockAssembler.AddToBlock | src/miner.cpp:269-286 | appends one transaction and keeps weight, sigops, count and fees equal to the sums over the block |
| Miner.BlockAssembler.UpdateDescendants | src/miner.cpp:293-310 | one added transaction is subtracted once from every descendant outside the added set |
| Miner.BlockAssembler.UpdatePackagesForAdded | src/miner.cpp:288-313 | every modified entry has lost exactly the sums of its added ancestors, and every affected entry is present |
| Miner.SortForBlock | src/miner.cpp:330-339 | the package sorted by ancestor count, complete and without repetition |
| Miner.AppendPackage | src/miner.cpp:464-472 | appending a sorted package keeps every parent before its child and nothing twice |
| Miner.PackageCloses | src/miner.cpp:231-242 | adding a transaction with its missing ancestors keeps the block closed under ancestors |
| Miner.InitialMods | src/miner.cpp:359-361 | the first update makes the modified sums right for what is already in the block |
| Miner.PackageKeepsMods | src/miner.cpp:468-477 | after a package is added, no modified entry is in the block and every modified sum covers the ancestors still missing |
| Miner.FailureKeeps | src/miner.cpp:425-432 | erasing a failed entry keeps the modified sums right |
| Miner.SumsSuffice | src/miner.cpp:379-418 | whichever entry is tried is outside the block, and the size and sigop sums used for it cover its missing ancestors |
| Miner.PackageWeighs | src/miner.cpp:244-252 | the weight that is tested bounds the weight that is added |
| Miner.BlockAssembler.IncludePackage | src/miner.cpp:468-472 | adds the whole package and erases it from the modified set |
| Miner.BlockAssembler.AddPackage | src/miner.cpp:464-477 | a tested package keeps the template's invariant and the modified sums |
| Miner.BlockAssembler.Consider | src/miner.cpp:406-477 | exactly when a candidate pays too little, does not fit, has a member that may not be included, or is added with all it misses |
| Miner.BlockAssembler.Turn | src/miner.cpp:379-477 | one turn: the candidate is added, or erased and remembered as failed if it was a modified entry, and everything looked at stays accounted for |
| Miner.BlockAssembler.NextCandidate | src/miner.cpp:379-398 | the candidate is the next of the pool, or a modified entry, which it is when the pool is used up |
| Miner.BlockAssembler.AddPackageTxs | src/miner.cpp:351-479 | for every graph and every order of trial the loop ends, with the block closed under ancestors, parents first, nothing twice, weight and sigops within their limits, and as many packages selected as were added one after the other; if the pool is exhausted, every listed transaction is in the block or was turned down at a part of it, where what it missed did not fit or held a member that may not be included; an end for low fees shows a package that pays too little for what it is judged by, and giving up shows more than a thousand failures in a row at a block within 4000 of its weight |
| Miner.TakesAll | src/miner.cpp:363-478 | where the whole pool fits with room to spare, may be included, and no package pays too little, whichever of its ancestors are in the block, every order of trial takes the whole pool |
| Miner.FirstFailure | src/miner.cpp:420-443 | a transaction that fails the size test for the first time is tested by exactly the sums of what it misses |
| Miner.JudgedAfter | src/miner.cpp:288-322 | after a package is added, every modified entry is judged by its own size, signature operations and fees less those of some of its ancestors in the block, the first of them at its modified fee |
| Coins.FetchSpec | src/coins.cpp:52-67 | a fetch changes no view, keeps the flags right, and leaves the coin of the view in the cache |
| Coins.GetSpec | src/coins.cpp:69-76 | a read answers with the view and changes no view |
| Coins.AddSpec | src/coins.cpp:78-97 | when adding is refused, when it keeps the flags right (if and only if), and the view afterwards |
| Coins.SpendSpec | src/coins.cpp:361-393 | spending removes exactly that coin from the view and keeps the flags right |
| Coins.UncacheSpec | src/coins.cpp:489-496 | uncaching changes no view |
| Coins.WrittenStep | src/coins.cpp:426-480 | writing one more entry of the child to what the others have made of the parent gives what all of them make of it |
| Coins.FlushSpec | src/coins.cpp:426-487 | flushing hands the parent the child's view, changes no view above, keeps the flags right at every level and never meets a misapplied FRESH flag |
| Coins.StepRefines | src/coins.cpp:52-97 | one operation on any stack of caches acts and answers as on one flat map |
| Coins.RunRefines | src/coins.cpp:361-496 | every run of reads, additions, spends, uncachings and flushes answers as one flat map |
| Coins.StartShows | src/coins.h:116-124 | empty caches over any database show that database |
| Coins.CoinsCaches.FetchCoin | src/coins.cpp:52-67 | the new state of the stack is the specified one |
| Coins.CoinsCaches.GetCoin | src/coins.cpp:69-76 | state and answer are the specified ones |
| Coins.CoinsCaches.AddCoin | src/coins.cpp:78-97 | state and refusal are the specified ones |
| Coins.CoinsCaches.SpendCoin | src/coins.cpp:361-393 | the state is the specified one, a coin in the view is moved out, and without one the answer is true exactly if the cache, or the database right below it, holds a spent entry |
| Coins.CoinsCaches.UncacheCoin | src/coins.cpp:489-496 | the state is the specified one |
| Coins.CoinsCaches.WriteEntry | src/coins.cpp:428-476 | one child entry is merged as specified; the misapplied flag is detected |
| Coins.CoinsCaches.BatchWrite | src/coins.cpp:426-480 | the consuming loop merges all entries as specified, in any order, and refuses if and only if a FRESH flag is misapplied |
| Coins.CoinsCaches.BatchWriteDb | src/txdb.cpp:92-126 | the database gets exactly the dirty entries |
| Coins.CoinsCaches.FlushLayer | src/coins.cpp:482-487 | flushing succeeds and reaches the specified state |
| CheckQueue.InitInv | src/checkqueue.h:137-137 | the start satisfies the invariant |
| CheckQueue.StepSpec | src/checkqueue.h:72-164 | every atomic step of master or worker keeps the invariant, and a step that returns from `Wait` returns whether all added checks are true |
| CheckQueue.EveryWaitIsRight | src/checkqueue.h:72-164 | in every interleaving the results of `Wait` are, in order, whether all checks added since the previous one are true |
| CheckQueue.BlockedMasterIsOwed | src/checkqueue.h:94-107 | a waiting master without a wake-up pending has a worker that still holds a batch |
| CheckQueue.ReturnSpec | src/checkqueue.h:94-103 | with nothing left to do the flag says exactly whether all added checks are true |
| CheckQueue.ProceedSpec | src/checkqueue.h:94-123 | what a thread does after entering keeps the invariant |
| CheckQueue.CleanUpSpec | src/checkqueue.h:82-93 | accounting for a finished batch keeps the counts exact |
| CheckQueue.BatchLimit | src/checkqueue.h:108-113 | a batch has at least one check, at most all that are queued, and no more than the configured size; it is the largest of which all threads and one more could have as many, unless the configured size is smaller |
| CheckQueue.EvaluateBatch | src/checkqueue.h:124-128 | the loop computes the conjunction of the batch |
| CheckQueue.CCheckQueue.Add | src/checkqueue.h:152-164 | the object follows the step of the protocol, and wakes nobody, one worker or all, by the number of checks |
| CheckQueue.CCheckQueue.TakeBatch | src/checkqueue.h:114-120 | the batch is taken from the end of the queue |
| CheckQueue.CCheckQueue.Decide | src/checkqueue.h:94-123 | the object follows the step and the thread's decision is the specified one |
| CheckQueue.CCheckQueue.Enter | src/checkqueue.h:80-123 | one lock section follows the step of the protocol, and notifies the master if and only if a worker has just finished the last outstanding checks |
| CheckQueue.CCheckQueue.Wake | src/checkqueue.h:104-107 | a thread that wakes leaves the idle ones and decides anew, as the step of the protocol |
| PartialMerkle.AcceptedIsGenuine | src/merkleblock.cpp:80-165 | whatever a peer sends, the transaction count included: if the extracted root is the true one, and no transaction hash is the hash of a pair, every match is the transaction at its index if and only if there is no match or the tree is as high as the block's |
| PartialMerkle.AcceptedMatches | src/merkleblock.cpp:80-165 | with the true root the indexes strictly increase; a tree k levels lower than the block's yields true nodes of level k, which are the transactions for k = 0; a higher tree yields nothing unless some transaction hash is the hash of a pair |
| PartialMerkle.NothingUnread | src/merkleblock.cpp:134-165 | if a message is accepted, no message with further hashes, or with another byte of flag bits, is; and the counts of an accepted one are within their bounds |
| PartialMerkle.LowerTreeAccepted | src/merkleblock.cpp:134-165 | four transactions announced as two: the two inner nodes are accepted as transactions |
| PartialMerkle.HigherTreeAccepted | src/merkleblock.cpp:134-165 | one transaction whose hash is that of a pair, announced as two: the pair is accepted as transactions |
| PartialMerkle.RoundTrip | src/merkleblock.cpp:62-165 | extracting from a built and padded tree gives the true root and exactly the marked transactions in order |
| PartialMerkle.HashCount | src/merkleblock.h:36-42 | stored hashes are at most the transactions and at most 1 + matches * height |
| PartialMerkle.FlagBits | src/merkleblock.h:33-49 | the exact number of flag bits: twice the hashes less one, and one for each level whose last node has a single child and a marked leaf below |
| PartialMerkle.FlagBitsBound | src/merkleblock.h:33-49 | the documented bound on the flag bits holds if and only if there is no such level |
| PartialMerkle.FlagBitsExceeded | src/merkleblock.h:33-49 | three transactions with the last one marked: two hashes and four bits |
| PartialMerkle.EncodedSizeBound | src/merkleblock.h:33-49 | up to 65535 transactions the encoded size is at most two bytes above the documented one, and exactly when it is not above |
| PartialMerkle.DocumentedSizeExceeded | src/merkleblock.h:33-49 | 1012 transactions, all marked: one byte above the documented size |
| PartialMerkle.ExtractOrdered | src/merkleblock.cpp:80-116 | the indexes of one traversal strictly increase and lie below the node, so no transaction is reported twice |
| PartialMerkle.ExtractSound | src/merkleblock.cpp:80-116 | a subtree that hashes to a true node k levels higher up yields only true nodes of level k, whatever count was sent |
| PartialMerkle.ExtractTooDeep | src/merkleblock.cpp:80-116 | a subtree that hashes to a true node of lower height matches nothing unless some transaction hash is the hash of a pair |
| PartialMerkle.ExtractBuilt | src/merkleblock.cpp:62-116 | reading a subtree inverts writing it wherever it lies in the stream |
| PartialMerkle.HashesDiffer | src/merkleblock.cpp:103-109 | different nodes of one height have different hashes, so the check for equal branches refuses no honest tree |
| PartialMerkle.NodeExists | src/merkleblock.h:68-70 | a node exists exactly if its first leaf does |
| PartialMerkle.HeightFrom | src/merkleblock.cpp:123-126 | the loop ends, at the least height with one node |
| PartialMerkle.PackBits | src/merkleblock.h:102-105 | the bytes hold the bits, least significant first, and nothing else |
| PartialMerkle.UnpackBits | src/merkleblock.h:95-100 | every bit is read back |
| PartialMerkle.UnpackedIsPadded | src/merkleblock.h:90-107 | packing and unpacking only pads with zeros to whole bytes |
| PartialMerkle.CPartialMerkleTree.FromBlock | src/merkleblock.cpp:118-130 | the built object holds the specified tree |
| PartialMerkle.CPartialMerkleTree.ParentOfMatch | src/merkleblock.cpp:63-66 | the loop finds whether any leaf below is matched |
| PartialMerkle.CPartialMerkleTree.TraverseAndBuild | src/merkleblock.cpp:62-78 | appends exactly the specified bits and hashes |
| PartialMerkle.CPartialMerkleTree.TraverseAndExtract | src/merkleblock.cpp:80-116 | cursors, matches, failure flag and hash are the specified ones |
| PartialMerkle.CPartialMerkleTree.ExtractMatches | src/merkleblock.cpp:134-165 | root, matches, indexes and failure flag are the specified ones |
| PartialMerkle.CPartialMerkleTree.Serialize | src/merkleblock.h:90-107 | the packed form of the object |
| PartialMerkle.CPartialMerkleTree.Unserialize | src/merkleblock.h:90-107 | the object of a packed form, with the failure flag off |
| PartialMerkle.Relay | src/merkleblock.cpp:62-165 | build, serialize, unserialize and extract: true root, the marked transactions, their indexes |
| ByteBits.SetFlagSpec | src/cuckoocache.h:95-98 | setting a packed flag changes no other |
| ByteBits.ClearFlagSpec | src/cuckoocache.h:106-109 | clearing a packed flag changes no other |
| BoolText.AcceptedExactly | src/LibBoolEE.cpp:19-146 | with names as keys, a text gives a value if and only if it reads as a well-formed formula over the valuation with that value |
| BoolText.Accept | src/LibBoolEE.cpp:19-146 | every accepted text reads as a formula, found along the recursion of the evaluator |
| BoolText.ReadsMeans | src/LibBoolEE.cpp:74-146 | a text that reads as a formula evaluates to the meaning of that formula, under any valuation |
| BoolText.PrintReads | src/LibBoolEE.cpp:74-146 | the text printed by precedence reads as the formula with its parentheses made explicit |
| BoolText.LeadingOperatorAccepted | src/LibBoolEE.cpp:19-68 | `|a|b` is accepted with the value of `a|b` |
| BoolText.LeadingOperatorRefused | src/LibBoolEE.cpp:19-146 | `&a` is refused as the missing variable `&a` |
| BoolText.ResolveAgrees | src/LibBoolEE.cpp:70-146 | for every formula printed by precedence, with any white space: success exactly if all variables have values, then the truth value, otherwise a missing variable is reported |
| BoolText.SplitList | src/LibBoolEE.cpp:19-68 | splitting a text at an operator gives back the operands it is related to, also behind characters that are passed over |
| BoolText.ScanDeep | src/LibBoolEE.cpp:23-32 | inside parentheses the scan sees nothing but parentheses |
| BoolText.ScanOperand | src/LibBoolEE.cpp:33-54 | an operand without the operator at top level extends the current part |
| BoolExpr.SplitShortens | src/LibBoolEE.cpp:19-68 | parts are shorter than the text and a lone parenthesis is refused, so evaluation ends on every string |
| BoolExpr.MeaningSpec | src/LibBoolEE.cpp:105-145 | evaluation without shortcuts succeeds exactly if every variable has a value |
| BoolExpr.RemoveWhitespaces | src/LibBoolEE.cpp:158-166 | the loop removes exactly the white space |
| BoolExpr.SingleParse | src/LibBoolEE.cpp:19-68 | the loop computes the specified parts or error |
| BoolExpr.Evaluate | src/LibBoolEE.cpp:70-72 | ends on every string with the specified value or error |
| BoolExpr.EvaluateRec | src/LibBoolEE.cpp:74-146 | ends on every string with the specified value or error |
| BoolExpr.EvaluateParts | src/LibBoolEE.cpp:130-144 | the loop evaluates all operands in order; the first error leaves it |
| Cuckoo.Slot | src/cuckoocache.h:246-256 | the scaled hash is a slot of the table, and the slots share the range of the hash evenly |
| Cuckoo.InsertConserves | src/cuckoocache.h:395-443 | after ageing, the live elements with multiplicity plus the new one are kept, but for the one handed back |
| Cuckoo.InsertLosesAtMostOne | src/cuckoocache.h:395-443 | nothing else becomes live, and at most one element stops being live |
| Cuckoo.InsertFindsRoom | src/cuckoocache.h:395-418 | an element that is in one of its eight slots, or has one that may be overwritten while the limit is positive, is live and found afterwards, nothing is handed back, and no other live element is lost |
| Cuckoo.GivesUpExactly | src/cuckoocache.h:395-443 | something is handed back if and only if the element is in none of its slots and as many exchanges as the limit allows met protected slots only |
| Cuckoo.DisplaceConserves | src/cuckoocache.h:409-442 | moving elements on loses only the last one in hand |
| Cuckoo.InsertHomed | src/cuckoocache.h:292-443 | ageing and insertion leave every live element in one of its own eight slots |
| Cuckoo.RunsFindLive | src/cuckoocache.h:395-480 | in every run from the empty cache, a lookup finds every live element |
| Cuckoo.AgeingSparesRecent | src/cuckoocache.h:292-324 | an inserted element is found after up to an epoch of further insertions unless pushed out or given up: ageing never does it |
| Cuckoo.RunsKeepRoom | src/cuckoocache.h:292-324 | in every run from the empty cache neither epoch holds more protected elements than the epoch size and a sixteenth of it, or one more |
| Cuckoo.RunsLeaveRoom | src/cuckoocache.h:292-356 | in every run a cache of more than twenty slots keeps one that may be overwritten |
| Cuckoo.LookupGivesUp | src/cuckoocache.h:470-480 | a lookup that gives up an element stored once ends its being live and nothing else; it is still found until it is overwritten |
| Cuckoo.CuckooCache.Setup | src/cuckoocache.h:343-356 | the empty cache of at least two slots, all free, with the epoch size that the 32-bit product gives |
| Cuckoo.EpochSizeExact | src/cuckoocache.h:343-356 | the epoch size is 45 percent of the table if and only if the product does not wrap in 32 bits |
| Cuckoo.FirstDisplacement | src/cuckoocache.h:419-434 | the first displacement goes to the second of the eight locations |
| Cuckoo.NextDisplacement | src/cuckoocache.h:419-434 | later displacements go to the location after the slot just used, the eighth being followed by the first |
| Cuckoo.CuckooCache.EpochCheck | src/cuckoocache.h:292-324 | counting and ageing reach the specified state |
| Cuckoo.CuckooCache.AgeAll | src/cuckoocache.h:308-314 | the loop frees the old epoch and demotes the current one |
| Cuckoo.CuckooCache.Settle | src/cuckoocache.h:409-442 | the displacement loop reaches the specified state |
| Cuckoo.CuckooCache.Insert | src/cuckoocache.h:395-443 | reaches the specified state |
| Cuckoo.CuckooCache.Contains | src/cuckoocache.h:470-480 | the specified answer; only the flag of the found element changes |
| Cuckoo.CuckooCache.AllowErase | src/cuckoocache.h:269-272 | exactly one flag is set |
| Cuckoo.CuckooCache.PleaseKeep | src/cuckoocache.h:278-281 | exactly one flag is cleared |
| ArithUint.BaseUint.AddAssign | src/arith_uint256.h:143-153 | the sum modulo 2^BITS, for every width, aliased or not |
| ArithUint.BaseUint.BitNot | src/arith_uint256.h:77-83 | 2^BITS - 1 - value |
| ArithUint.BaseUint.Increment | src/arith_uint256.h:181-188 | the value plus one modulo 2^BITS |
| ArithUint.BaseUint.Decrement | src/arith_uint256.h:198-205 | the value less one modulo 2^BITS |
| ArithUint.BaseUint.Negate | src/arith_uint256.h:85-92 | the negated value modulo 2^BITS |
| ArithUint.BaseUint.SubAssign | src/arith_uint256.h:155-159 | the difference modulo 2^BITS |
| ArithUint.BaseUint.Assign | src/arith_uint256.h:96-103 | the assigned 64-bit value |
| ArithUint.BaseUint.ShlAssign | src/arith_uint256.cpp:26-40 | the value times 2^shift modulo 2^BITS |
| ArithUint.BaseUint.ShrAssign | src/arith_uint256.cpp:43-57 | the value divided by 2^shift |
| ArithUint.BaseUint.MulAssign32 | src/arith_uint256.cpp:60-69 | the product modulo 2^BITS; the 64-bit intermediate never overflows |
| ArithUint.BaseUint.MulAssign | src/arith_uint256.cpp:72-85 | the product modulo 2^BITS of two objects, and zero for an object multiplied by itself, which is the square exactly if the low half of the bits is zero |
| ArithUint.SquareMultiple | src/arith_uint256.cpp:72-85 | a square is a multiple of 2^(2m) exactly if its root is one of 2^m |
| ArithUint.BaseUint.AddProduct | src/arith_uint256.cpp:76-83 | one row of the product, with what leaves at the top accounted for |
| ArithUint.BaseUint.DivAssign | src/arith_uint256.cpp:88-111 | the exact quotient; zero divisors are refused |
| ArithUint.BaseUint.LongDivide | src/arith_uint256.cpp:99-110 | shift and subtract ends with the quotient |
| ArithUint.BaseUint.CompareTo | src/arith_uint256.cpp:114-123 | the order of the values |
| ArithUint.BaseUint.EqualTo | src/arith_uint256.cpp:126-137 | equality with a 64-bit value |
| ArithUint.BaseUint.Bits | src/arith_uint256.cpp:176-188 | the position of the highest bit plus one, or zero |
| ArithUint.ShlStep | src/arith_uint256.cpp:33-38 | one limb goes to its two places; or-ing adds |
| ArithUint.ShrStep | src/arith_uint256.cpp:50-55 | one limb goes to its two places, and only what is below the shift is lost |
| ArithUint.SetBit | src/arith_uint256.cpp:104-104 | setting the next lower bit of the quotient adds its weight |
| ArithUint.Wide | src/arith_uint256.cpp:79-79 | the intermediate of the product fits in 64 bits |
| Compact.OverflowExact | src/arith_uint256.cpp:221-224 | the overflow flag is set exactly if the denoted number is at least 2^256 |
| Compact.CompactRoundTrip | src/arith_uint256.cpp:208-249 | decoding the encoding of x is at most x, less than x / 2^15 below it, with the right sign and no overflow |
| Compact.BestBelow | src/arith_uint256.cpp:208-249 | no compact number lies between the decoded number and x |
| Compact.WordBounds | src/arith_uint256.cpp:240-244 | the word fits below the sign bit and is normalised, so the assertion holds |
| Compact.SizeBound | src/arith_uint256.cpp:245-245 | the size fits in its byte |
| Compact.SetCompact | src/arith_uint256.cpp:208-226 | the denoted number modulo 2^256 and both flags, on limbs |
| Compact.GetCompact | src/arith_uint256.cpp:228-249 | the specified encoding, on limbs |
| Compact.QuotientWithoutTop | src/chain.cpp:130-134 | the quotient of 2^256 computed without that number |
| Compact.NeverLargest | src/chain.cpp:134-134 | no target is 2^256 - 1, so the divisor is not zero |
| Compact.GetBlockProof | src/chain.cpp:122-135 | 2^256 / (target + 1) rounded down for usable targets, zero for the others |
| SkipList.InvertClears | src/chain.cpp:72-72 | masking with the predecessor clears the lowest one bit |
| SkipList.GetSkipHeight | src/chain.cpp:75-83 | strictly lower than a positive height |
| SkipList.StepsBound | src/chain.cpp:75-109 | a skipping walk from any height below 2^k, with k at least nine, to any lower height takes at most k^2 / 4 + 2k - 7 steps |
| SkipList.DocumentedSteps | src/chain.cpp:75-83 | below 2^18 at most 110 steps, the documented maximum |
| SkipList.TopBound | src/chain.cpp:85-109 | from the top of an aligned block of 2^i heights, i at least three, to any height in it at most (i + 1)^2 / 4 + i - 3 steps |
| Chain.CBlockIndex.GetAncestor | src/chain.cpp:85-109 | ends, and returns the block that walking predecessors reaches; with all skip pointers set, after as many steps as `StepsBound` bounds |
| Chain.CBlockIndex.BuildSkip | src/chain.cpp:116-120 | the skip pointer is the ancestor at the skip height |
| Chain.BlockTree.AddBlock | src/validation.cpp:3776-3808 | in every tree grown block by block all skip pointers are right |
| Chain.CChain.SetTip | src/chain.cpp:13-23 | after any change of tip the chain is exactly the new tip's ancestors |
| Chain.CChain.FindFork | src/chain.cpp:53-62 | the highest block of the chain that is an ancestor |
| Chain.LastCommonAncestor | src/chain.cpp:156-171 | a common ancestor of which every common ancestor is an ancestor, or none exists |
| Chain.CChain.GetLocator | src/chain.cpp:25-51 | the listed blocks are ancestors at the specified heights, down to the first block |
| Chain.LocatorSpec | src/chain.cpp:25-51 | heights strictly fall to zero, with at most 12 + floor(log2 height) entries |
| Base58.EncodeFits | src/base58.cpp:84-84 | the encoder's buffer is large enough for every input |
| Base58.DecodeFits | src/base58.cpp:37-37 | the decoder's buffer is large enough for every input |
| Base58.SymbolIs | src/base58.cpp:21-22 | the symbols are those of the alphabet, in its order |
| Base58.DecodeEncode | src/base58.cpp:24-112 | decoding undoes encoding for every byte string |
| Base58.EncodeDecode | src/base58.cpp:24-112 | every accepted text is the encoding of its decoding, but for spaces around it |
| Base58.EncodeDecodeString | src/base58.cpp:119-122 | every text accepted through the `std::string` overload encodes, up to its first NUL, what was decoded |
| Base58.DecodeBase58String | src/base58.cpp:119-122 | the overload for strings decodes what lies before the first NUL |
| Base58.DecodeEncodeCheck | src/base58.cpp:124-148 | the same with the checksum |
| Base58.EncodeDecodeCheck | src/base58.cpp:124-148 | accepted texts carry the right checksum and encode what is returned |
| Base58.MultiplyAdd | src/base58.cpp:88-98 | the buffer's number is multiplied and added to, and no carry is left |
| Base58.Convert | src/base58.cpp:83-105 | the digits in the other radix, without leading zeros |
| Base58.EncodeBase58 | src/base58.cpp:74-112 | the specified text |
| Base58.DecodeBase58 | src/base58.cpp:24-72 | the specified bytes or refusal |
| Base58.ReadDigits | src/base58.cpp:40-56 | digits up to a space or the end are read into the buffer; another character refuses the text |
| RollingBloom.HoldsLast | src/bloom.cpp:219-315 | a filter sized for n elements holds each of the last n inserted keys, across all generations |
| RollingBloom.HoldsExactly | src/bloom.cpp:251-315 | a key is reported if and only if each of its hashes falls on a bit of a word pair that a key of the current generation, or of the two before, was hashed to since the reset |
| RollingBloom.SurvivesRun | src/bloom.cpp:251-279 | a key outlives two further generations of insertions |
| RollingBloom.InsertKeeps | src/bloom.cpp:251-279 | one insertion uses up exactly one of the insertions a key survives |
| RollingBloom.WipedSpec | src/bloom.cpp:259-267 | the masks unset exactly the cells of the generation now beginning |
| RollingBloom.MarkedSpec | src/bloom.cpp:272-277 | marking changes exactly one cell |
| RollingBloom.CRollingBloomFilter.constructor | src/bloom.cpp:219-244 | the empty filter |
| RollingBloom.CRollingBloomFilter.Reset | src/bloom.cpp:307-315 | the empty filter with a new tweak |
| RollingBloom.CRollingBloomFilter.Insert | src/bloom.cpp:251-279 | reaches the specified state |
| RollingBloom.CRollingBloomFilter.Wipe | src/bloom.cpp:259-267 | the loop wipes as specified |
| RollingBloom.CRollingBloomFilter.Mark | src/bloom.cpp:271-278 | the loop marks as specified |
| RollingBloom.CRollingBloomFilter.Contains | src/bloom.cpp:287-299 | true exactly if all the key's cells are set |
| NetFraming.ChunkingIrrelevant | src/net.cpp:730-780 | however a stream is cut, the same messages come out and it is refused at the same place |
| NetFraming.ParseAppend | src/net.cpp:730-780 | more bytes change neither earlier messages nor a refusal |
| NetFraming.FramesArrive | src/net.cpp:730-855 | the frames of any messages within the limit, sent with a little-endian size, arrive in order with their headers and payloads, and what follows is read as if it stood alone |
| NetFraming.SentIsReceived | src/net.cpp:2878-2908 | however the stream of a sender is cut, a peer receives exactly the messages that were sent, and nothing is left or refused |
| NetFraming.TooLongIsRefused | src/net.cpp:756-759 | a frame that announces more than the limit is refused after the messages before it |
| NetFraming.CNetMessage.ReadHeader | src/net.cpp:809-838 | takes what the header lacks; complete headers switch to data unless the size is refused |
| NetFraming.CNetMessage.ReadData | src/net.cpp:840-855 | takes what the payload lacks; the buffer never exceeds the announced size |
| NetFraming.CNetMessage.Take | src/net.cpp:746-760 | either bytes are taken, or the header is one that is refused |
| NetFraming.CNode.ReceiveSome | src/net.cpp:739-776 | one turn takes some bytes, and completes at most one message, which holds exactly its header and payload |
| NetFraming.CNode.ReceiveMsgBytes | src/net.cpp:730-780 | from any state, the complete messages, the pending bytes and the refusal are those of the pending bytes followed by the new ones |

## Left out

- Selection of peers (`Select_`, `GetChance`) and the thresholds of `IsTerrible`: probability, floating point and clock policy; `IsTerrible` is an arbitrary predicate.
- `peers.dat` below the level of records, its checksum, and negative counts in a stream.
- The scores of packages: which modified entry scores best, and whether it scores better than the next of the pool, are arbitrary choices, so nothing is said of the total of the fees.
- Coinbase construction, block validity and the mining threads.
- `vTxFees` and the other output arrays of a block template.
- The best-block hash and memory counters of the coin caches, and the asset code in `AddCoins` and `SpendCoin`.
- `fQuit` of the check queue: nothing in the source sets it.
- The hash functions themselves, and signatures.
- `GetBlockProofEquivalentTime`, hexadecimal conversion and `getdouble`.
- That some walk below 2^18 takes all of the 110 steps: the source found it by simulation, and only the bound is proved.
- The overflow of the locator's `int` step on chains higher than 2^30.
- `CBlockIndex` heights taken from block headers before the predecessor is known: a block without predecessor has height 0.
- `FindEarliestAtLeast`, `Next` and the other accessors of the chain: easy beside the rest.
- Sizing of the Bloom filter and of the cuckoo cache's depth limit by floating-point formulas: parameters.
- The plain `CBloomFilter`.
- Network code other than message framing; message hashes, times and per-command byte counts; the removal of complete messages from the list by the message handler.
- Concurrent erasure in the cuckoo cache: operations are modelled one after the other.
- Clause -16 of `Check_` (`nKey` not null): the key is a parameter of the hash functions and is not kept in the state.
- AddrManStream.StreamConsistent: not for streams with new entries and a usable bucket section, where survival depends on the order of the bucket rows; `LoadedConsistent` and `DistinctLoads` cover them.
- AddrManTables.CAddrMan.Unserialize: says nothing of the object after a refused stream, because the source throws; counts are natural numbers.
- Coins.CoinsCaches.BatchWriteDb: without the head-blocks marker and the partial batches, which matter only if the program stops during the write.
- Chain.BlockTree.AddBlock: without duplicate headers and the chain work; heights come from the tree and not from headers.
- Chain.CChain.GetLocator: lists the blocks rather than their hashes, because the hash of a block is not part of this model.
- RollingBloom.CRollingBloomFilter.constructor: the number of hash functions and of words are parameters, because the source computes them by floating-point formulas.
- NetFraming.CNode.ReceiveMsgBytes: says of the object after a refusal only that complete messages are kept, because the caller disconnects.
