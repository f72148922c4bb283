# Verified model of the BitMED node's chain, pool and wallet logic

This project models the parts of the node that keep state consistent under reorganisations and
load, and proves what they keep. Each module follows one component:

- `Option`, `Sums`: optional values and sums over tables.
- `Ancestry`, `HeaderChain`, `CommonAncestor`: the header tree, the header chain with its database,
  caches and canonical number table, and the walk to a last common ancestor.
- `Ledger`, `BlockChain`: blocks and their transactions, the canonical chain and the transaction
  lookup index across reorganisations.
- `WeightedList`, `WeightedSelect`, `WeightedChance`: weighted random selection with a tree of
  eight-way nodes, proved to refine a flat weighted list, and the chances it gives.
- `Heap`, `Transactions`, `TxSortedMap`, `TxList`, `PricedList`: the transaction pool's containers.
- `PoolState`, `PoolLimits`, `PoolDemotion`, `PoolSteps`, `PoolPromotion`, `PoolSpec`, `PoolReturn`,
  `TxPool`: the transaction pool itself: adding, promoting, demoting, fair eviction, queue limits and
  resets.
- `PoolReorg`, `PoolHole`, `PoolStrand`, `QueueOrder`, `QueueRun`: the pool's walk over a reorganised
  chain, and what resets, removals and the queue limit can leave behind.
- `ChainIndexer`: the section indexer, a background job that runs while reorgs arrive.
- `Feed`: one-to-many event delivery with removals in the middle of a send.
- `LightPool`: the light client's pool across reorganisations.
- `Gas`: gas purchase, refund and accounting of a message and of a block.
- `DerivationPath`: wallet derivation paths, parsed and printed.

Objects that the source updates in place are classes; their methods are proved against functions
of the old state, and what the source promises is proved about those functions and as invariants.
Hashes are opaque identifiers that determine what they hash. Randomness (the coin of a difficulty
tie, the random numbers of a selection, which channel is ready), clocks, remote data and contract
execution are parameters or arbitrary choices, so the results hold for all of them. "Every run" is
either an invariant that each operation keeps, or a `Run` method that takes any list of steps.

What the operations take for granted, because verification elsewhere in the node gives it: a header
that is written carries the number after its parent's, and a hash seen before belongs to the same
header; no transaction occurs twice on one chain or in one block; a subscription ends at most once.
Blocks of the block chain and headers of the light client are stored with their parents. Otherwise
nothing is assumed about whether a parent is known, a line is stored, a block can be retrieved, or
the order in which calls arrive.

Places where the code does not do what one would expect; each is kept as it is, with a concrete run
and the exact condition:

- A header written on a side branch after a rewind below its fork meets a nil header
  (`StrandedFork`); `WriteHeader` states that this happens exactly if the parent's line is not stored.
- After a reorganisation the header head can be below the block head, because the branch is inserted
  from its top down (`LaggingHeader`); `WriteBlockAndState`, `KeepsUpAtFork` and `KeepsUpWithChild`
  give the exact condition.
- The pool's demotion only looks for a gap at the state nonce. A reset that takes back some of the
  transactions of a reorganised chain can leave a hole further up (`HoleAfterReorg`);
  `RunnableGapFree` and `Rebase` give the exact condition, and `BatchRestores` one that can be checked
  before the reset.
- Removing the lowest of several executable transactions drops the others from the lists but not from
  the pool (`Stranded`); `RemovedAccounts` says that nothing else does.
- The selection is documented to choose in proportion to current weights; a weight that has risen
  since it was stored counts only as stored (`RisenWeight`). `ChanceIsShare` gives the chance in every
  case, and `Proportional` the case in which it is as documented.
- The queue limit is documented to drop the oldest accounts first; the code takes them from the end
  of a list sorted by heartbeat and so starts with the latest (`YoungestFirst`); `OldestFirstIff` says
  exactly when the two orders agree.
- The indexer's commit test sees a reorg below its section but not one inside it (`StaleSection`);
  `Finish` states exactly when a section is stored, and that it is canonical exactly if its last header
  still is.

## Model

| member | source | states |
|---|---|---|
| `HeaderChains.HeaderChain.constructor` | core/headerchain.go:71-107 | a chain over a database that holds only the genesis header has a consistent store, exact caches and a heaviest head |
| `HeaderChains.HeaderChain.GetBlockNumber` | core/headerchain.go:111-120 | the number cache never changes an answer: the stored number, or the largest uint64 for an unknown hash |
| `HeaderChains.HeaderChain.GetTd` | core/headerchain.go:312-324 | a cached difficulty is returned whatever the number asked for; the cache stays exact |
| `HeaderChains.HeaderChain.GetHeader` | core/headerchain.go:344-356 | a cached header is returned whatever the number asked for; the cache stays exact |
| `HeaderChains.CacheTransparent` | core/headerchain.go:344-356 | the cached lookup agrees with the database if and only if the hash is not cached or is asked for with its true number |
| `HeaderChains.HeaderChain.ClearAbove` | core/headerchain.go:156-163 | exactly the canonical numbers at and above a height are cleared |
| `HeaderChains.HeaderChain.RewriteLine` | core/headerchain.go:164-176 | rewriting stale numbers down to the common ancestor makes the table the parent's whole ancestry; it succeeds if and only if that ancestry is stored |
| `HeaderChains.HeaderChain.WriteHeader` | core/headerchain.go:131-195 | the number table stays exactly the head's ancestry with nothing above; the head moves exactly on a greater total difficulty or on a tie won by the coin; the nil-header crash happens if and only if the parent's line is not stored; the head's total difficulty never falls and stays maximal |
| `HeaderChains.HeaderChain.SetHead` | core/headerchain.go:404-437 | rewinding leaves the head's ancestor at the given height, deletes exactly the headers above it on that line, and empties the caches |
| `HeaderChains.HeaderChain.Run` | core/headerchain.go:131-195 | every run of writes and rewinds is the fold of its steps over tree, store and head, up to the first write that meets a nil header; it crashes if and only if some written header wins while its parent's line is not stored; a run of writes only never does, stores exactly the headers whose parent was known in time, and ends with a head of maximal total difficulty |
| `HeaderChains.StrandedFork` | core/headerchain.go:404-437 | a concrete run in which a rewind strands a side branch and the next write on it meets a nil header |
| `HeaderChains.PutStoreOk` | core/headerchain.go:145-151 | storing an admitted header keeps every stored total difficulty equal to the sum along its path |
| `HeaderChains.RewoundOk` | core/headerchain.go:404-437 | what a rewind leaves in the store is still consistent with the header tree |
| `Ancestry.GrowKeeps` | core/headerchain.go:145-151 | writing a header changes no ancestry and no total difficulty of older ones |
| `CommonAncestors.FindCommonAncestor` | core/database_util.go:614-638 | on any header store, even with holes, the walk ends at the highest height where both headers reach the same hash, or reports that there is none |
| `CommonAncestors.OrderIrrelevant` | core/database_util.go:614-638 | swapping the arguments gives the same answer |
| `CommonAncestors.ClimbIsAt` | core/database_util.go:614-638 | where lines are stored in full, climbing parent links is the ancestry of the header tree |
| `CommonAncestors.LastCommonOnTree` | core/database_util.go:614-638 | on a parent-closed store the walk succeeds, and the two lines agree at a height exactly if it is not above the result |
| `Ledgers.IndexMeaning` | core/database_util.go:470-487 | a transaction is indexed with an entry if and only if that entry is its place on the chain |
| `Ledgers.IndexSplit` | core/database_util.go:470-487 | the index of a chain is the index below any height followed by the index above it |
| `Ledgers.IndexReroute` | core/blockchain.go:1190-1208 | adding the new branch's entries and deleting the old branch's other entries turns one chain's index into the other's |
| `Ledgers.TxDifference` | core/types/transaction.go:339-354 | the transactions of the first list that are not in the second, in their order and with their repetitions |
| `Ledgers.DifferenceInOrder` | core/types/transaction.go:339-354 | what is left comes in the order of the first list |
| `Ledgers.DifferenceCounts` | core/types/transaction.go:339-354 | each transaction is left as often as it was, or not at all if it is in the second list |
| `BlockChains.BlockChain.Insert` | core/blockchain.go:481-503 | the block becomes head block; the header head and the fast-sync head follow exactly if its number pointed elsewhere; the database keeps naming all three heads |
| `BlockChains.BlockChain.WriteTxLookupEntries` | core/database_util.go:470-487 | the lookup table gains exactly the block's entries |
| `BlockChains.BlockChain.CollectChains` | core/blockchain.go:1115-1178 | the walk collects exactly the two branches above the height where the lines meet, and all transactions of the old branch; its error exits are unreachable on a parent-closed store |
| `BlockChains.BlockChain.InsertChain` | core/blockchain.go:1190-1200 | inserting the branch from its top down makes the canonical numbers the new line, adds exactly its entries, and leaves the header head at the lowest block whose number pointed elsewhere |
| `BlockChains.BlockChain.Reorg` | core/blockchain.go:1115-1221 | from one chain's canonical table and lookup index to exactly the other's, without an error; the blocks left behind are reported; the header head is the lowest new block whose number changed |
| `BlockChains.BlockChain.WriteBlockAndState` | core/blockchain.go:812-876 | the lookup index equals a scan of the current chain, canonical numbers up to the head are its ancestry and those above are untouched; the head moves exactly on greater difficulty or a won tie, and a write that does not win moves no head; the reorg's error is passed on and never occurs; after every canonical write the header head and the fast-sync head are the lowest block of the new line whose number changed, if there is one, and the header head is the written block exactly under the condition of KeepsUpIff |
| `BlockChains.KeepsUpIff` | core/blockchain.go:481-503 | where the header head ends is the written block if and only if every lower number of its line above the meeting point pointed there already, and its own number did not or the header head was there before |
| `BlockChains.KeepsUpAtFork` | core/blockchain.go:1190-1200 | where both lines go on above the meeting point, the header head keeps up if and only if the new line has one block |
| `BlockChains.KeepsUpWithChild` | core/blockchain.go:481-503 | for a child of the head it keeps up if and only if the child's number pointed elsewhere or the header head was there already |
| `BlockChains.BlockChain.Run` | core/blockchain.go:812-876 | over every run of block writes: each write does to the table and the three heads what is specified, so they move at canonical writes only; the ledger holds exactly the blocks whose parent was known in time; an entry exists if and only if its transaction is on the current chain, and then gives its place; canonical numbers are the head's ancestry; the head is heaviest |
| `BlockChains.LaggingHeader` | core/blockchain.go:1190-1200 | a concrete run after which the header head is below the block head |
| `WeightedLists.PickInterval` | les/randselect.go:160-173 | a value picks a slot if and only if it lies in the slot's interval of prefix sums |
| `WeightedLists.PickShare` | les/randselect.go:160-173 | each slot is picked by exactly as many values as its weight |
| `WeightedLists.PickFlatten` | les/randselect.go:160-173 | picking a branch and then inside it is picking in the flat list |
| `WeightedLists.FirstFreeFlatten` | les/randselect.go:107-132 | the first free slot of the first branch with room is the first free slot of the flat list |
| `WeightedSelect.WrsNode.FindBranch` | les/randselect.go:107-114 | the scan for a branch with room never runs off a node that has room |
| `WeightedSelect.WrsNode.Insert` | les/randselect.go:107-132 | the tree as a flat list gains the item at its least free index, which is returned |
| `WeightedSelect.WrsNode.SetWeight` | les/randselect.go:136-157 | exactly the addressed slot changes (weight zero frees it), and the returned difference is exact |
| `WeightedSelect.WrsNode.Choose` | les/randselect.go:160-173 | the item whose prefix-sum interval in the flat list contains the value |
| `WeightedSelect.WrsNode.Above` | les/randselect.go:63-69 | a new root over a full tree keeps every item at its index and appends free slots |
| `WeightedSelect.WeightedRandomSelect.constructor` | les/randselect.go:38-40 | an empty selection |
| `WeightedSelect.WeightedRandomSelect.SetWeight` | les/randselect.go:54-73 | the item-to-weight map changes at that item only, through growth of the tree as well |
| `WeightedSelect.WeightedRandomSelect.Choose` | les/randselect.go:79-94 | on the tree the selection equals the selection from the flat list with the same random numbers, result and new weights; it terminates because the total weight falls with every retry; stored weights only move to the items' own weights, and nothing is chosen only if nothing is left |
| `WeightedChances.ChanceIsShare` | les/randselect.go:75-94 | with uniform random numbers and over all retries, an item is chosen with probability equal to the smaller of its stored and its current weight, divided by the sum of these |
| `WeightedChances.Proportional` | les/randselect.go:75-94 | the chance is proportional to the current weight, as documented, if no weight has risen since it was stored |
| `WeightedChances.RisenWeight` | les/randselect.go:75-94 | a concrete selection in which a weight has risen and the chances are not proportional to the current weights |
| `Heaps.Up` | core/tx_list.go:30-48 | sifting up restores the heap and permutes it |
| `Heaps.Down` | core/tx_list.go:30-48 | sifting down restores the heap, permutes it and touches nothing outside its range |
| `Heaps.Init` | core/tx_list.go:113-118 | heapifying any list gives a heap of the same elements |
| `Heaps.Push` | core/tx_list.go:38-40 | pushing adds exactly one element to a heap |
| `Heaps.Pop` | core/tx_list.go:42-48 | popping takes a least element and leaves a heap of the others |
| `Heaps.Remove` | core/tx_list.go:158-163 | removing at an index takes that element and leaves a heap of the others |
| `Heaps.RootIsLeast` | core/tx_list.go:30-48 | the root of a heap is least |
| `TxSortedMaps.TxSortedMap.Put` | core/tx_list.go:73-79 | one nonce changes; the index stays a duplicate-free heap of exactly the nonces, and a cached listing is never out of date |
| `TxSortedMaps.TxSortedMap.Forward` | core/tx_list.go:84-98 | splits at the threshold; the removed part is returned in nonce order |
| `TxSortedMaps.TxSortedMap.Filter` | core/tx_list.go:102-123 | splits by the predicate; the removed part is returned in full |
| `TxSortedMaps.TxSortedMap.Cap` | core/tx_list.go:127-148 | keeps the lowest nonces and returns the others, highest first |
| `TxSortedMaps.TxSortedMap.Remove` | core/tx_list.go:152-169 | removes exactly that nonce and tells whether it was there |
| `TxSortedMaps.TxSortedMap.Ready` | core/tx_list.go:178-193 | takes the contiguous run at the front if it starts no later than the given nonce, and nothing else |
| `TxSortedMaps.TxSortedMap.Flatten` | core/tx_list.go:203-216 | the one listing of the contents in nonce order, whatever the cache held |
| `TxLists.TxList.Add` | core/tx_list.go:252-270 | a transaction is accepted exactly if its nonce is free or it outbids the old price by the bump; the caps keep bounding every member |
| `TxLists.TxList.Filter` | core/tx_list.go:288-312 | removes exactly what a full scan would, short cut or not, and returns the unpayable and the invalidated transactions apart |
| `TxLists.TxList.Cap` | core/tx_list.go:316-318 | keeps the lowest nonces |
| `TxLists.TxList.Remove` | core/tx_list.go:323-334 | removes the nonce, and in a strict list everything above it, which is returned |
| `TxLists.TxList.Ready` | core/tx_list.go:343-345 | takes the contiguous run at the front |
| `TxLists.ShortCut` | core/tx_list.go:288-294 | below the caps a scan finds nothing, so skipping it is sound |
| `TxLists.ScanConserves` | core/tx_list.go:288-312 | a scan splits the list into what stays, what is unpayable and what is invalidated |
| `TxLists.ForwardContiguous` | core/tx_list.go:275-277 | a contiguous list stays contiguous when forwarded |
| `TxLists.ScanContiguous` | core/tx_list.go:288-312 | a contiguous strict list stays a contiguous prefix when filtered |
| `TxLists.CapContiguous` | core/tx_list.go:316-318 | a contiguous list stays a contiguous prefix when capped |
| `TxLists.RemoveContiguous` | core/tx_list.go:323-334 | a contiguous strict list stays a contiguous prefix when a nonce is removed |
| `TxLists.Outbid` | core/tx_list.go:252-270 | over any run of offered transactions, accepted or not, a taken nonce stays taken and its price rises by at least one with every accepted replacement |
| `TxLists.AcceptsIff` | core/tx_list.go:252-270 | a transaction is accepted if and only if its nonce is free or it pays more than the bump per cent above the old price |
| `PricedLists.TxPricedList.Put` | core/tx_list.go:401-403 | adds one entry to the price heap |
| `PricedLists.TxPricedList.Removed` | core/tx_list.go:408-422 | counts a stale entry, or rebuilds the heap from exactly the pooled transactions once a quarter is stale |
| `PricedLists.TxPricedList.Cap` | core/tx_list.go:426-453 | drops only remote pooled transactions below the threshold, leaves none of them in the heap, and loses no other pooled transaction |
| `PricedLists.TxPricedList.Underpriced` | core/tx_list.go:457-479 | a transaction is underpriced only if it is remote and no pooled transaction of the heap is cheaper; otherwise the heap is empty or its cheapest is cheaper |
| `PricedLists.TxPricedList.Discard` | core/tx_list.go:483-506 | drops at most the given number of remote transactions, none dearer than a remote one it keeps; fewer only if no remote one is left |
| `TxPools.TxPool.constructor` | core/tx_pool.go:210-250 | a new pool is consistent and gap-free |
| `TxPools.TxPool.EnqueueTx` | core/tx_pool.go:670-691 | puts the transaction into its sender's queue exactly if it is acceptable there, replacing at most the transaction of the same nonce in the lists and in the pool |
| `TxPools.TxPool.EnqueueAll` | core/tx_pool.go:1071-1082 | a demotion's enqueueing always succeeds: the whole batch joins the queue and nothing leaves the pool |
| `TxPools.TxPool.PromoteTx` | core/tx_pool.go:708-740 | adds the transaction to the executable list exactly if it is acceptable, moves the virtual nonce behind it, and otherwise drops it from the pool |
| `TxPools.TxPool.PromoteFresh` | core/tx_pool.go:708-740 | a promotion into a free nonce always succeeds |
| `TxPools.TxPool.RemoveTx` | core/tx_pool.go:831-870 | the exact new books: an executable nonce cuts the list there, sends what followed back to the queue unless nothing is left in front, and lowers the virtual nonce; otherwise the nonce leaves the queue; only this transaction leaves the pool, and gap-freeness is kept |
| `TxPools.TxPool.SetGasPrice` | core/tx_pool.go:457-466 | afterwards a transaction is pooled if and only if it was and is local or priced at least the new minimum, despite stale heap entries; the lists change by exactly these removals, one after the other |
| `TxPools.TxPool.Add` | core/tx_pool.go:601-665 | the exact new books: validation errors in order; a full pool refuses exactly the remote transactions no better than its cheapest, or makes room by removing cheapest remote ones; on acceptance the transaction is at its nonce in exactly one list, and the one it replaces is gone |
| `TxPools.TxPool.MakeRoom` | core/tx_pool.go:614-629 | a full pool refuses a remote transaction if and only if gas is not free and a pooled one exists but none is cheaper; otherwise at most the excess and one more are given up, fewer heap entries only if no remote one is left: remote ones only, none dearer than a remote one kept, each through a removal |
| `TxPools.TxPool.PromoteAccount` | core/tx_pool.go:889-933 | exact new lists of one account, said of single nonces: the executable list gains exactly the run of unused, payable nonces that starts no later than the virtual nonce; a remote account keeps at most its queue limit, and loses a good transaction only if lower ones use the limit up; a local one loses only used or unpayable ones; exactly the transactions that left both lists leave the pool; gap-freeness kept |
| `PoolPromotions.PromotionMeaning` | core/tx_pool.go:889-933 | the same for every account that is promoted at once |
| `TxPools.TxPool.PromoteExecutables` | core/tx_pool.go:875-1045 | each given account promoted and the others untouched, then a fair cut of the executable lists and the queue limit; no remote account promoted ends above its own queue limit; exactly the transactions that left both lists leave the pool; consistency and gap-freeness kept |
| `TxPools.TxPool.EvictPending` | core/tx_pool.go:934-1004 | remote accounts above their guaranteed share are cut to one common level, the highest that keeps the global limit, never below the share; exactly the cut transactions leave the pool |
| `PoolLimits.FairCutMeaning` | core/tx_pool.go:934-1004 | the limit is kept unless every remote account is down to its share; accounts at or below it and local accounts lose nothing; everyone keeps their lowest nonces; whoever is cut stays at least as long as any other remote account |
| `PoolLimits.FairCutTight` | core/tx_pool.go:945-998 | one transaction more per cut account would exceed the limit |
| `PoolLimits.LevelMonotone` | core/tx_pool.go:954-998 | a lower level never holds more |
| `PoolLimits.RoundIsFair` | core/tx_pool.go:954-976 | a round of equalisation cuts exactly the accounts at the level |
| `PoolLimits.CountTxs` | core/tx_pool.go:934-938 | the counter is the real number of transactions |
| `TxPools.TxPool.EvictRound` | core/tx_pool.go:957-974 | one round lowers every offender by its highest transaction and the counter by as many |
| `TxPools.TxPool.TruncateQueue` | core/tx_pool.go:1005-1044 | drops exactly the excess, or else every remote queue; whole queues of the latest heartbeats first, and at most one queue in part, from its highest nonce down; local queues and executable lists untouched |
| `QueueOrders.OldestFirstIff` | core/tx_pool.go:1005-1044 | older accounts go first, as documented, if and only if nothing has to go, or every remote queue has to, or all waiting remote accounts have the same heartbeat |
| `QueueRuns.YoungestFirst` | core/tx_pool.go:1005-1044 | a concrete run of additions in which the younger account loses its queue and the older one keeps its own |
| `TxPools.TxPool.DemoteUnexecutables` | core/tx_pool.go:1050-1090 | every executable list splits into what stays, what is queued and what is dropped, and exactly the dropped part leaves the pool; every list left starts at the state nonce |
| `PoolDemotions.DemotionConserves` | core/tx_pool.go:1050-1090 | the three parts are disjoint and make up the list |
| `PoolDemotions.DiscardedMeaning` | core/tx_pool.go:1055-1070 | a transaction is dropped if and only if its nonce is used or it cannot be paid |
| `PoolDemotions.RunnableMeaning` | core/tx_pool.go:1050-1090 | a transaction stays executable if and only if the state nonce is in the list and everything from there up to it can be paid |
| `PoolDemotions.RunnableGapFree` | core/tx_pool.go:1076-1083 | the demoted list is a gap-free run if and only if no transaction that stays had a hole below it |
| `PoolDemotions.DemotionGapFree` | core/tx_pool.go:1050-1090 | after the demotion every list is a gap-free run from its state nonce if and only if no list had a hole below a transaction that stays |
| `PoolDemotions.ContiguousRuns` | core/tx_pool.go:1050-1090 | a list that was contiguous from anywhere becomes a gap-free run from the state nonce |
| `TxPools.TxPool.Rebase` | core/tx_pool.go:410-420 | after demotion and renumbering the pool is gap-free if and only if no list had such a hole and no emptied account a stale virtual nonce |
| `PoolReorgs.Reconcile` | core/tx_pool.go:345-389 | what a new head takes off the chain: nothing if it is a child of the old head or the heights differ by more than 64, and otherwise the old branch's transactions, from its top down, that are not on the new branch |
| `PoolReorgs.ResetToHead` | core/tx_pool.go:345-424 | a reset to a head of the block tree takes back exactly the transactions that the new head takes off the chain; the pool is consistent, and gap-free if the rebase condition holds, in particular if it was gap-free and nothing is taken off, or every nonce the chain gave up returns |
| `TxPools.TxPool.Reset` | core/tx_pool.go:390-424 | the books through every step: the batch taken back, demotion, renumbering, promotion of every queued account, fair cut and queue limit; the pool is consistent, and gap-free if the rebase condition holds, or if it was gap-free and the batch restores every nonce the chain gave up |
| `PoolReturns.BatchRestores` | core/tx_pool.go:402-420 | if the executable limit has room for the whole batch and every nonce between the new and the old state nonce in front of an executable list returns as a valid transaction, the rebase condition holds; all of it can be checked before the reset |
| `PoolHoles.HoleAfterReorg` | core/tx_pool.go:345-420 | a concrete reorganisation that takes two transactions off the chain: the pool takes one back and finds the other underpriced, which leaves a hole in an executable list |
| `PoolSpecs.AddedKeeps` | core/tx_pool.go:601-665 | no addition loses a local transaction other than the one replaced, nor a remote one dearer than a remote one lost |
| `PoolSpecs.CheckMeaning` | core/tx_pool.go:548-593 | a transaction is valid if and only if none of nine checks objects, and otherwise the first that does, in the order of the source, is reported |
| `PoolSpecs.AddedLocals` | core/tx_pool.go:601-665 | an account becomes local exactly by an accepted local transaction that does not replace an executable one |
| `PoolSpecs.AddedWithRoom` | core/tx_pool.go:601-665 | with room in the pool a valid transaction is only put in place: nothing else leaves |
| `PoolSpecs.AddedGrows` | core/tx_pool.go:601-665 | whatever the size and however often the price heap lists a transaction, the pool grows if and only if a new transaction is accepted while there is room or nothing remote is left to give up |
| `PoolSpecs.AddedSize` | core/tx_pool.go:601-665 | an addition keeps the pool within its capacity if and only if it is not a new transaction accepted into a full pool of local ones only |
| `TxPools.TxPool.AddTx` | core/tx_pool.go:771-786 | an addition as specified, and then promotion of the sender and the global limits exactly if a new nonce was queued |
| `TxPools.TxPool.AddTxs` | core/tx_pool.go:798-818 | the additions one by one, each as specified, and then promotion and limits for exactly the accounts that gained a queued nonce |
| `PoolSteps.PromotedAlone` | core/tx_pool.go:913-918 | a payable transaction alone in the queue, at the virtual nonce, becomes executable at once |
| `TxPools.TxPool.Run` | core/tx_pool.go:345-1090 | over every run of additions, removals, price changes and resets: each operation does what is specified; no nonce is in both lists of an account, every listed transaction is filed under its sender and nonce and pooled, and the price heap covers the pool; without reinjection every executable list stays gap-free up to the virtual nonce; with remote additions only the pool never exceeds its capacity |
| `PoolStrands.RemovedAccounts` | core/tx_pool.go:831-870 | after a removal every pooled transaction is still in a list if and only if the removed one was not the lowest of several executable ones |
| `PoolStrands.RemovedHome` | core/tx_pool.go:831-870 | exactly the later executable transactions of its sender drop out of the lists, and only if the removed one was the lowest |
| `PoolStrands.Stranded` | core/tx_pool.go:843-852 | a concrete run after which a transaction is pooled but in no list |
| `PoolStrands.RunAccounts` | core/tx_pool.go:345-1090 | over every run in which no transaction has to give way and no removal strands others, each pooled transaction is in a list of its sender |
| `PoolStates.GapFreeRemove` | core/tx_pool.go:843-857 | removing a nonce cuts a gap-free list to a gap-free list that ends there |
| `ChainIndexers.ChainIndexer.SetValidSections` | core/chain_indexer.go:370-382 | exactly the heads above the new count are removed, and the persisted count follows |
| `ChainIndexers.ChainIndexer.Reorg` | core/chain_indexer.go:191-215 | a section survives if and only if it ends below the reorg point |
| `ChainIndexers.ChainIndexer.NewHead` | core/chain_indexer.go:216-230 | a section becomes known exactly when it has the required confirmations, and known sections are never forgotten |
| `ChainIndexers.ChainIndexer.Begin` | core/chain_indexer.go:247-263 | a job starts exactly if a known section is not stored, after the last stored head |
| `ChainIndexers.ChainIndexer.Rechain` | core/chain_indexer.go:316-329 | the canonical table may change at any time; what the job read last stays canonical unless the change is below it |
| `ChainIndexers.ChainIndexer.Read` | core/chain_indexer.go:316-329 | a header is taken exactly if its number has a canonical hash, the header exists and it continues the last one; otherwise the job fails |
| `ChainIndexers.ChainIndexer.Finish` | core/chain_indexer.go:270-291 | the section is stored if and only if all its headers were linked, the backend committed, and no reorg notified since the start went below its first header; every header of a stored section is canonical if and only if its last one is, in particular if the table has not changed below that one since the start, or if every change was notified and no notified reorg is below it |
| `ChainIndexers.ChainIndexer.Take` | core/chain_indexer.go:191-335 | each notification and each step of the job does exactly what its part of the loop does, and a step that is not possible does nothing |
| `ChainIndexers.TipIsEnough` | core/chain_indexer.go:316-335 | a chain of linked headers whose tip is canonical is canonical throughout |
| `ChainIndexers.ChainIndexer.Run` | core/chain_indexer.go:191-335 | every interleaving of notifications with a job, each step carried out as specified: heads exist exactly for the stored sections, each ends a full section of linked headers right after the one before, and together they are one chain from block zero |
| `ChainIndexers.OneChain` | core/chain_indexer.go:272-275 | stored sections join into one chain of linked headers |
| `ChainIndexers.StaleSection` | core/chain_indexer.go:272-275 | a concrete run: a section of two blocks is stored with a head that is no longer canonical, although the reorg was notified |
| `Feeds.Find` | event/feed.go:208-215 | the first index of the channel, or -1 if it is not there |
| `Feeds.DeactivateMoves` | event/feed.go:223-227 | deactivation moves one channel out of the active prefix and leaves slot 0 and the subscriptions as they were |
| `Feeds.Feed.Subscribe` | event/feed.go:73-93 | one more live subscription |
| `Feeds.Feed.Remove` | event/feed.go:104-125 | one subscription of the channel ends, in the inbox or among the cases |
| `Feeds.Feed.Send` | event/feed.go:129-185 | for every order of sends, arrivals and requested removals: delivered exactly once to every subscription nobody asked to end and to no one outside; subscriptions that end do so by request, before or after receiving it; the live subscriptions afterwards are those before without the ended and with the arrived ones; the count is exact; slot 0 stays; the loop ends |
| `Feeds.Feed.SendAll` | event/feed.go:129-185 | every send of a run delivers as specified to the subscriptions the one before left |
| `Feeds.EveryValueOnce` | event/feed.go:129-185 | over consecutive sends a subscription that nobody touches receives every value exactly once |
| `Feeds.Feed.TrySends` | event/feed.go:155-161 | the fast path delivers at most once to each waiting channel, changes no subscription and counts what it sent |
| `Feeds.Feed.RemoveWhileSending` | event/feed.go:167-172 | a removal in the middle of a send takes one case from the part it is in |
| `LightPools.MinedEffect` | light/txpool.go:140-147 | recording a mined transaction keeps the change map equal to the net effect |
| `LightPools.RolledBackEffect` | light/txpool.go:140-147 | recording a rolled back transaction keeps the change map equal to the net effect |
| `LightPools.LightPool.CheckMinedTxs` | light/txpool.go:164-197 | succeeds if and only if nothing is pending or the block, and its receipts if it holds a pending transaction, can be had; then moves exactly its pending transactions, in block order, to its mined list, and otherwise nothing |
| `LightPools.LocalInOrder` | light/txpool.go:176-181 | a block's mined list keeps the order of the block |
| `LightPools.LightPool.RollbackTxs` | light/txpool.go:201-211 | a rolled back block's transactions are pending again and nothing is lost |
| `LightPools.FindFork` | light/txpool.go:220-238 | the alternating walk ends at the last common ancestor and lists both branches in full |
| `LightPools.LightPool.CheckAll` | light/txpool.go:246-254 | the new blocks are checked in order up to the first that cannot be had, with the exact pool after each; the head is the last block checked, and the check succeeds if and only if that is the new head |
| `LightPools.LightPool.ClearOld` | light/txpool.go:256-273 | discards exactly the lists of canonical blocks between the last clearing and the permanence limit |
| `LightPools.LightPool.ReorgOnNewHead` | light/txpool.go:219-276 | the exact new pool for every way the retrievals can fail: the old branch's lists pending again, the new blocks checked in order up to the first that cannot be had, and old lists swept only on success; pending plus mined before equals pending plus mined plus discarded after; the change map is the net effect, even on an early error |
| `LightPools.Completes` | light/txpool.go:219-276 | if every new block can be had with its receipts the move is completed, and no transaction of a new block is pending |
| `LightPools.LightPool.Run` | light/txpool.go:219-276 | over every run of new heads, each of them new to the header tree or not, every step is as specified and all that is ever lost is what the steps discarded |
| `GasAccounting.IntrinsicGas` | core/state_transition.go:90-112 | 21000, or 53000 for a creation after homestead, plus 68 for every place of a non-zero byte and 4 for every other |
| `GasAccounting.GasPool.SubGas` | core/gaspool.go:35-42 | takes the amount if there is enough, and otherwise nothing |
| `GasAccounting.StateTransition.PreCheck` | core/state_transition.go:175-214 | the gas is bought from pool and sender if and only if the nonce fits, the gas is below 2 to the 64, the balance covers gas times price and the pool covers the gas; otherwise nothing changes and the first obstacle is reported |
| `GasAccounting.ObstacleMeaning` | core/state_transition.go:175-214 | which obstacle is reported, each with its own condition |
| `GasAccounting.StateTransition.RefundGas` | core/state_transition.go:304-321 | the least charge that the refund counter and the cap of half the consumed gas allow; the gas counter stays within 64 bits, and unused gas returns to sender and pool |
| `GasAccounting.StateTransition.TransitionDb` | core/state_transition.go:219-302 | every outcome with its balances; out of gas exactly if the gas is below the intrinsic gas; on success the charge is the least allowed, the sender's net payment is what the coinbase receives, the pool loses exactly the gas used, and total balance is conserved |
| `GasAccounting.StartedPaid` | core/state_transition.go:185-214 | when execution starts the sender has paid all the gas at its price, a call has taken its nonce, and nothing else has changed |
| `GasAccounting.Pays` | core/state_transition.go:293-321 | the coinbase receives the gas used times the price, the sender gets the rest of the purchase back, and no one else's balance moves |
| `GasAccounting.ReasonMeaning` | core/state_processor.go:102-124 | which error a message is refused with, each with its own condition |
| `GasAccounting.Conserves` | core/state_transition.go:293-296 | buying gas, executing and paying out conserve the sum of all balances |
| `GasAccounting.ApplyTransaction` | core/state_processor.go:102-143 | a message is applied if and only if its gas price is allowed, it starts, covers its intrinsic gas and can transfer its value; then world, pool and receipt are those of its execution, and otherwise the reason is reported in order |
| `GasAccounting.Process` | core/state_processor.go:74-91 | every message is applied to the world and pool the one before left, up to the first invalid one, whose error is returned; after each message the pool and the gas used so far make up the block gas limit and total balance is conserved; receipts carry running totals; the block is accepted if and only if all messages are valid |
| `GasAccounting.OneTrace` | core/state_processor.go:74-91 | the worlds, pools and receipts between the messages of a block are determined by the block |
| `GasAccounting.RunningTotal` | core/state_processor.go:131-139 | a receipt's running total is the one before plus its own gas |
| `DerivationPaths.ParseDerivationPath` | accounts/hd.go:67-117 | the loop computes the path of the specification, or the first error |
| `DerivationPaths.AnyNotation` | accounts/hd.go:67-117 | a path whose components are written in decimal, hexadecimal, binary or octal, in either case, with or without a plus sign and hardened or not, parses to their values |
| `DerivationPaths.ItemRoundTrip` | accounts/hd.go:90-115 | a component in any notation parses to its value if and only if it fits into 32 bits, or 31 if hardened, and is out of range otherwise |
| `DerivationPaths.NegativeRejected` | accounts/hd.go:100-111 | a minus sign before anything but zero is out of range |
| `DerivationPaths.NumberIff` | accounts/hd.go:100-104 | exactly which texts are numbers: the notations with their digits |
| `DerivationPaths.CaseIgnored` | accounts/hd.go:100-104 | upper and lower case mean the same, letter by letter |
| `DerivationPaths.InvalidRejected` | accounts/hd.go:100-104 | a text that is no number is an invalid component |
| `DerivationPaths.AmbiguousIff` | accounts/hd.go:72-75 | a path is ambiguous if and only if only white space stands before its first slash |
| `DerivationPaths.EmptyIff` | accounts/hd.go:79-88 | a path is empty if and only if it is the letter m alone |
| `DerivationPaths.DefaultRoot` | accounts/hd.go:29-39 | the default root prints as m/44'/60'/0'/0 |
| `DerivationPaths.ToString` | accounts/hd.go:121-135 | the loop computes the printed form of the specification |
| `DerivationPaths.RoundTrip` | accounts/hd.go:67-135 | parsing a printed path of 32-bit components gives the path back, exactly if it is not empty |
| `DerivationPaths.ComponentRoundTrip` | accounts/hd.go:90-115 | a printed component parses to itself, over the plain and the hardened range |
| `DerivationPaths.Reparse` | accounts/hd.go:67-135 | whatever parses is non-empty and within 32 bits, and its printed form parses to the same path |
| `DerivationPaths.PrintInjective` | accounts/hd.go:121-135 | different paths print differently |
| `DerivationPaths.RelativePath` | accounts/hd.go:79-84 | a relative path is its absolute form below the default root |
| `DerivationPaths.SpaceIgnored` | accounts/hd.go:90-98 | white space around a component is ignored |

## Left out

- Networking, RPC, console, metrics, logging, journals and the key-value database: glue without state of its own here.
- Cryptography, RLP, tries, state database internals and the virtual machine: execution is a parameter that uses at most the supplied gas and conserves total balance.
- Block bodies' receipts, bloom filters, chain events and the fast-sync head of the block chain beyond its assignment: they follow the head that is modelled.
- The batch imports around header and block writes, and the block chain's own rewind: loops and clean-up around the operations modelled.
- Private transactions' gas: an early return keeps bought gas out of the pool and used gas is reported as zero, so the accounting laws are stated for public transactions.
- Locks and channels other than in the indexer and the feed: every other operation is one atomic step.
- The pool's lazy initialisation, lifetime eviction loop, local journal and transaction events: timers and I/O.
- HeaderChains.HeaderChain.constructor: does not model the restart from a database with a stored head, because the invariant it would have to start from is the one the other operations keep.
- The pool's reset without a new head or without the new head's state: it falls back to the current block, or gives up.
- TxPools.TxPool.MakeRoom: does not promise that a pool above its capacity shrinks back to it, because the price heap can list a transaction twice and both entries are counted.
- Heartbeats are a parameter of the queue limit; how additions set them is not modelled.
- The state that a rejected block leaves behind: the caller throws it away.
- Block rewards in the engine's finalisation and the DAO fork's balance move: the conservation law is about the transaction loop between them.
- The spammer queue's 32-bit floating point priorities: lengths are compared exactly.
- The pool's account lists are values of type `List` inside the pool's maps; `TxList` proves that the mutable lists compute exactly these values, but aliasing of list objects is not modelled inside the pool.
- Heaps are sequences that are rebuilt step by step, not slices shared with the caller.
- Negative weights and the overflow of 64-bit weight sums in the weighted selection.
- Child indexers, throttling and the update notifications of the section indexer: a job may begin whenever a section is waiting.
- The light pool's header sync from checkpoints, where a parent can be missing: the header store is parent-closed.
- Number syntax that later versions of the big-integer library accept in derivation paths: underscores and the prefix 0o.
