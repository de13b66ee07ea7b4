# Evrynet node: verified core

A Dafny model of the parts of the Evrynet node (a Go Ethereum fork) where state is spread over
several structures that must agree: the transaction pool, the header and block chains, the event
feed, the chain indexer, gas accounting, the block gas limit and derivation paths. `dafny verify
dfyconfig.toml` checks everything.

The main results, each for all inputs, all runs or all reachable states:

- **Transaction pool.** `TxPools.RunPool` runs any sequence of additions, resets, price changes and
  evictions on a new pool and gives the states it goes through. In every one of them the hash lookup is
  the disjoint union of all pending and queued lists, each transaction sits under its sender at its
  nonce, every known transaction is in the price heap, and the pool is within its capacity; and each is
  made from the one before as that operation's relation says (`PoolEffects`): what each `add` of a batch
  returned on the pool reached by then, how each account was promoted or demoted, what the limits cut,
  which transactions a price or an eviction took, and where heartbeats and virtual nonces end up. If the
  run discards no block, pending nonces are in every state exactly the interval from head nonce to
  virtual nonce, no queue holds the virtual nonce, and the front-gap branch of `demoteUnexecutables` is
  never taken.
- **Funds.** In every state of every run each known transaction has an unused nonce and the funds that
  its execution at the head, were it its turn, asks for: buying its gas is not refused, and its value is
  still with the sender afterwards (`TxPools.RunSolvent`, `PoolFunds.FundsIff`); and it is local or pays
  the minimum price. Alone in a block it goes through if and only if the pool finds its funds and its gas
  covers the intrinsic gas, except for a sender that is its own provider, whom the pool asks for fee and
  value one by one (`PoolFunds.AppliesIff`, `PoolFunds.SelfProvidedFails`).
- **Reinjection.** A reset that brings transactions back can leave a hole in the pending nonces:
  `PoolReset.ResetLeavesHole` is a family of such calls, for example nonce 7 pending at head nonce 7 and
  nonce 5 alone coming back at head nonce 5. `PoolReset.ResetInStepIff` decides it from what `reset` is
  given: if the limit on pending transactions cuts nothing, as in every pool small enough
  (`PoolReset.RoomyUncut`), the pool ends in step if and only if no account gained a payable run at its
  head nonce that stops short of its first pending transaction while that one can still be paid. When
  that limit does cut, it cuts lists that are not demoted yet:
  `PoolSetback.ResetSetsBack` is a family of resets without holes that leave a virtual nonce below the
  head nonce, and `PoolSetback.NothingReady` says that no promotion then takes anything of that account.
- **Equalisation and truncation.** `PoolLimits.Equalize` and `PoolLimits.TruncateQueue` end within
  the limits or with nothing left they may cut, level all offenders alike, cut the newest heartbeats
  first, and spare local accounts. A local transaction is only ever forgotten by promotion or a reset
  without reinjection if its nonce is used or its payers cannot cover it (`PoolOps.PromoteExecutables`,
  `PoolOps.Reset`).
- **Transaction lists.** The map, heap and cache of `txSortedMap` always agree, and each operation
  refines a plain map; `txList`'s caps never change what `Filter` returns; lists of consecutive nonces
  stay so under every operation.
- **Chains.** The header chain's index is always the current header's path and the current header
  has the most work, in every state of an import. Over any run of block writes the transaction lookup is
  the head's, and the number index is right up to the head and above it follows the path of one stored
  block (`BlockChains.BlockChain.WriteBlocks`). The head's work never falls, and of two with equal work
  the lower is kept; a preserved head is given up for nothing less (`BlockChains.HeadsAscend`). Whether
  the index goes on above the head is decided write by
  write: it does not if and only if `Reorgs.BranchOk` held, and `Reorgs.Stays` says which stale entries
  are left, all of them unmoved. `BlockChains.StaleIndex` is a clean chain and a tie in total difficulty
  that leave one, because `reorg` deletes entries above the current block, which on a branch of one block
  is still the old head; and a next block that makes the index clean again.
- **Header queries.** They run on any store that block writes reach. `GetAncestor` returns what walking
  parents would, or the empty hash, if and only if it is not misled by the empty hash at a number past
  the index and does not stray: its walk meets a stale entry above the head, and the number asked for is
  above the fork and not above the head. Neighbours in a hash-mode reply are exactly `skip + 1`
  generations apart, for every 64-bit skip, if and only if they are not astray in that way
  (`HeaderQueries.ByHash`); on a clean index none are. A reply that stays below its limits ends because
  the genesis or the end of the index is nearer than `skip + 1`, the next block does not come from the
  last, or the walk to the index exceeds the budget, and then always (`HeaderQueries.EndsIff`); from an
  origin on a clean index it is as long as amount, limit and chain allow (`HeaderQueries.FullLength`).
  `BlockChains.StaleAnswer` is a chain of five
  blocks on which both go wrong.
- **Trie garbage collection.** References minus dereferences equals queue multiplicity after every
  write of any run, each write drops exactly the roots that are due, and `Stop` drops the rest.
- **Event feed.** `Feeds.Interleave` takes any interleaving and gives its states and every send it
  completes. Each started with all the subscriptions there were, what it delivered and what was removed
  meanwhile are exactly the steps taken, and it delivered once per subscription that was not removed and
  returned the number of its deliveries.
- **Chain indexer.** In every state of every interleaving of a whole tree of indexers, stored sections
  are parent-linked chains, and no child knows past its parent's stored range when sections have two or
  more blocks and no backend reset has failed. From new indexers on, every section that any of them knows
  has its own confirmations and those of its parents below a head that was announced
  (`ChainIndexers.RunConfirmed`), and after a head the first section not known lacks some. With one-block sections a child can
  (`ChainIndexers.NarrowFails`, a run from two new indexers); `ChainIndexers.StaysWithinIff` says exactly when.
- **Gas.** Every transaction shrinks the pool by the gas it used and charges the payer for exactly
  that; a block's cumulative gas is the sum of its receipts and what the pool lost. With an EVM that
  lowers no nonce and raises the creator's, a block applies the checked messages of a sender in the order
  of their nonces and none twice (`Gas.InOrder`); one that comes again fails for its nonce
  (`Gas.Replayed`).
- **Gas limit.** In the range the limit follows the gas used, by the difference of two 1024ths. Iterating `CalcGasLimit` from 2048 or more reaches the configured range and stays there.
  Below the floor the limit rises if and only if it is at least 2048, or zero, or the floor is at most
  5000; above the ceiling it falls if and only if it is at least 2048.
- **Derivation paths.** Printing then parsing is the identity on non-empty paths, and components in
  hexadecimal, binary and octal are read as what their digits stand for.

## Layout

| files | source |
|---|---|
| `BinaryHeap`, `TxTypes`, `TxSortedMap`, `TxList`, `TxRuns` | core/tx_list.go |
| `PoolModel`, `PoolSteps`, `PoolFunds`, `PoolNonces`, `PoolDemote`, `PoolLimits`, `PoolLosses`, `PoolEffects`, `PoolOps`, `PoolReset`, `PoolSetback`, `PoolSolvency`, `TxPool` | core/tx_pool.go |
| `BlockTree`, `HeaderChain`, `HeaderQuery` | core/headerchain.go, evr/handler.go |
| `Reorg`, `TrieGC`, `BlockChain` | core/blockchain.go |
| `Feed` | event/feed.go |
| `ChainIndexer` | core/chain_indexer.go |
| `Gas`, `GasLimit` | core/state_transition.go, core/gaspool.go, core/state_processor.go, core/block_validator.go |
| `DerivationPath` | accounts/hd.go |

Steps of the larger operations are methods on values; the classes hold those values as fields.
Quantified invariants are written as one predicate per account, block, channel or section, which
also serves as the trigger. A run returns the ghost sequence of its states, one more than its steps,
with neighbours related by that step's own predicate. Maps that Go ranges over in random order are
ranged over in an arbitrary order here. Clocks, coin flips, database reads, the EVM and channel
readiness are parameters.

## Model

| member | source | states |
|---|---|---|
| BinaryHeap.RootIsMinimum | core/tx_list.go:31-48 | nothing in a heap sorts before its root |
| BinaryHeap.Up | core/tx_list.go:73-80 | restores heap order when one element rises, as a permutation |
| BinaryHeap.Down | core/tx_list.go:84-98 | restores heap order below one position, touches only its subtree, and reports whether the element moved |
| BinaryHeap.Push | core/tx_list.go:38-41 | heap order is kept and exactly one element is added |
| BinaryHeap.Remove | core/tx_list.go:171-188 | heap order is kept and exactly the element at the position is taken out |
| BinaryHeap.Pop | core/tx_list.go:84-98 | takes out a minimum and keeps heap order |
| BinaryHeap.Init | core/tx_list.go:121-143 | any slice becomes a heap of the same elements |
| TxTypes.RunEnd | core/tx_list.go:197-212 | the first missing nonce at or above a nonce |
| TxTypes.SortsUnique | core/tx_list.go:222-235 | two nonce-sorted listings of the same contents are equal, so the cache is determined by the map |
| TxTypes.ListingShifted | core/tx_list.go:84-98 | dropping as many entries from the front of the cache as were removed lists what is left |
| TxTypes.CapKeeps | core/tx_list.go:146-168 | cutting the end of the cache lists what a cap leaves |
| TxTypes.RunIsPrefix | core/tx_list.go:197-212 | the consecutive run from the lowest nonce is the sorted listing of everything below its end |
| TxSortedMaps.TxSortedMap.constructor | core/tx_list.go:59-64 | a new map is empty and consistent |
| TxSortedMaps.TxSortedMap.Put | core/tx_list.go:73-80 | map update; heap holds each nonce once |
| TxSortedMaps.TxSortedMap.Forward | core/tx_list.go:84-98 | keeps exactly the nonces from the threshold on, returns the rest sorted, and the shifted cache stays right |
| TxSortedMaps.TxSortedMap.RemoveTxs | core/tx_list.go:101-117 | removes exactly the given nonces |
| TxSortedMaps.TxSortedMap.Filter | core/tx_list.go:121-143 | keeps exactly what does not match, and lists exactly what does |
| TxSortedMaps.TxSortedMap.Cap | core/tx_list.go:146-168 | keeps the lowest nonces, returns the others from the highest down, and the shortened cache stays right |
| TxSortedMaps.TxSortedMap.Remove | core/tx_list.go:171-188 | removes one nonce from map and heap and says whether it was there |
| TxSortedMaps.TxSortedMap.Ready | core/tx_list.go:197-212 | takes the consecutive run from the lowest nonce if that is not above the start |
| TxSortedMaps.TxSortedMap.Flatten | core/tx_list.go:222-235 | the cache becomes the nonce-sorted contents |
| TxSortedMaps.TxSortedMap.LowestIsRoot | core/tx_list.go:84-98 | the heap's root is the lowest nonce of the map |
| TxLists.OutbidsIff | core/tx_list.go:271-280 | a replacement costs more, and at least the bump in percent but for less than one unit |
| TxLists.TxList.Add | core/tx_list.go:270-291 | accepts exactly a new nonce or a sufficient price bump, replaces exactly that transaction, keeps the caps above everything, and the next nonce extends a contiguous list |
| TxLists.TxList.Filter | core/tx_list.go:309-333 | the short cut through the caps gives the result of filtering everything; strict lists also lose what follows the first drop, and a contiguous one is cut there |
| TxLists.TxList.Cap | core/tx_list.go:337-339 | keeps the lowest nonces and lists exactly the others; a contiguous list stays so |
| TxLists.TxList.Remove | core/tx_list.go:344-356 | a strict list keeps exactly what is below the removed nonce, and stays contiguous |
| TxLists.TxList.Ready | core/tx_list.go:364-366 | takes the ready run |
| TxLists.StrictCut | core/tx_list.go:318-330 | cutting above the lowest dropped nonce is what strict filtering means |
| TxLists.RunsAppend | core/tx_list.go:270-291 | the next nonce extends a contiguous list |
| TxLists.RunsForward | core/tx_list.go:296-298 | `Forward` of a contiguous list leaves a contiguous list, at any threshold |
| TxLists.RunsKept | core/tx_list.go:309-333 | what a strict filter keeps of a contiguous list is contiguous |
| TxLists.RunsCapped | core/tx_list.go:337-339 | so is what a cap keeps |
| TxLists.RunsBelow | core/tx_list.go:344-356 | and what a strict removal keeps |
| PoolModel.KnownFacts | core/tx_pool.go:1003-1050 | a known transaction is in exactly one of its sender's lists, at its nonce |
| PoolModel.EnqueueNew | core/tx_pool.go:803-829 | queueing a new transaction, in place of the one at its nonce, keeps the views coherent |
| PoolModel.RemovePending | core/tx_pool.go:1003-1050 | removing a pending transaction by nonce leaves exactly those above it to requeue |
| PoolModel.TakePending | core/tx_pool.go:1292-1320 | what is taken out of a pending list is accounted for until it is filed again |
| PoolSteps.CheapestFirst | core/tx_list.go:392-402 | the first of the price heap has the lowest price and, of those at that price, the highest nonce |
| PoolSteps.PricedRemoved | core/tx_list.go:440-455 | rebuilding the price heap keeps every known transaction in it |
| PoolSteps.EnqueueTx | core/tx_pool.go:803-829 | exactly when a transaction is queued, what it replaces, and the lookup afterwards |
| PoolSteps.Requeue | core/tx_pool.go:1027-1030 | every invalidated transaction lands in the queue; none is lost or rejected |
| PoolSteps.RemoveTx | core/tx_pool.go:1003-1050 | lists are cut by nonce, yet the transaction removed is the one the hash names; later pending ones move to the queue, the virtual nonce drops to it, and an account left without pending ones loses its heartbeat |
| PoolSteps.PromoteTx | core/tx_pool.go:847-883 | exactly when a transaction becomes pending, what it replaces, and the virtual nonce and heartbeat afterwards |
| PoolSteps.PromoteRun | core/tx_pool.go:1128-1135 | a ready run becomes pending in full, the virtual nonce moves to its end and the heartbeat to now |
| PoolSteps.PromoteAccount | core/tx_pool.go:1105-1159 | one account: old and unpayable queued transactions go, the ready run becomes pending, the rest is capped unless local; a heartbeat exactly if something became pending |
| PoolFunds.PaidAsCharged | core/tx_pool.go:1053-1088 | the pool finds the funds of a transaction if and only if execution in a block of its own takes it and then finds its value with the sender |
| PoolFunds.FundsIff | core/tx_pool.go:1062-1075 | with payer the provider, or the sender if there is none: funds are found if and only if buying the gas is not refused for lack of balance, the value is still there afterwards, and the gas is within the limit |
| PoolFunds.SelfProvidedIff | core/tx_pool.go:1062-1068 | a sender that is its own provider is asked for fee and value one by one |
| PoolFunds.AppliesIff | core/state_transition.go:187-240 | alone in a block on the head a transaction goes through if and only if the pool finds its funds and its gas covers the intrinsic gas, unless its sender is its own provider and lacks the sum |
| PoolFunds.SelfProvidedFails | core/tx_pool.go:714-727 | a transaction of that kind which the pool admits and execution refuses |
| PoolNonces.RemovedInStep | core/tx_pool.go:1003-1050 | removal keeps pending nonces the interval from head nonce to virtual nonce |
| PoolNonces.PromotedInStep | core/tx_pool.go:1105-1159 | promotion joins the queue's run to that interval and leaves nothing ready behind |
| PoolDemote.StrictFilter | core/tx_pool.go:1053-1088 | splits a list into kept, dropped and invalidated transactions, with nothing lost |
| PoolDemote.DropUnexecutable | core/tx_pool.go:1292-1315 | the pending list is cut to what the head leaves executable, and what that invalidates is kept in hand |
| PoolDemote.DemoteAccount | core/tx_pool.go:1292-1339 | one account's demotion, exactly when it takes the front-gap branch, and its heartbeat gone exactly if nothing stays pending |
| PoolDemote.DemoteUnexecutables | core/tx_pool.go:1292-1339 | all accounts in any order; views stay coherent, the counter is exactly the number of accounts whose list takes the front-gap branch, and exactly the accounts left without pending transactions lose their heartbeats; `PoolSolvency.DemotedIff` says what it keeps |
| PoolDemote.GappedNext | core/tx_pool.go:1323-1331 | serving one account counts it exactly if its list has a gap in front |
| PoolDemote.SyncNonces | core/tx_pool.go:500-504 | every virtual nonce moves just past the account's last pending transaction |
| PoolDemote.NoFrontGap | core/tx_pool.go:1323-1331 | the front-gap branch is unreachable when no block is discarded |
| PoolDemote.DemotedInStep | core/tx_pool.go:485-507 | demotion to a later head restores the interval for every account |
| PoolDemote.ContiguousIff | core/tx_pool.go:1292-1339 | demotion leaves a contiguous pending list if and only if the front-gap branch catches it or nothing executable lies past the first missing nonce |
| PoolLimits.DropLast | core/tx_pool.go:1196-1214 | dropping an offender's last transaction lowers its virtual nonce and takes one off the total |
| PoolLimits.LoweredTrans | core/tx_pool.go:1196-1214 | over any number of drops a virtual nonce falls to the lowest nonce lost, unless it was below that |
| PoolLimits.CutRound | core/tx_pool.go:1196-1214 | one round shortens every offender by one; the running counter stays exact |
| PoolLimits.ReduceTo | core/tx_pool.go:1195-1216 | rounds stop when the total fits or the threshold is reached, and not a round later |
| PoolLimits.NextOffender | core/tx_pool.go:1184-1217 | earlier offenders are levelled to the next one's length and stay equal |
| PoolLimits.Equalize | core/tx_pool.go:1164-1246 | only remote accounts above their slots are cut, all to one level at or above the slots, and their virtual nonces with them; the total fits or no remote account exceeds its slots |
| PoolLimits.TruncateQueue | core/tx_pool.go:1247-1286 | the queue ends at its limit or with local accounts only; accounts lose their highest nonces and locals nothing, and no account is cut while one with a later heartbeat keeps anything |
| PoolLimits.TruncateNext | core/tx_pool.go:1263-1285 | one account of the newest heartbeat left is dropped whole, or cut to what still fits |
| PoolLosses.PromotedSpares | core/tx_pool.go:1105-1159 | promotion forgets a local transaction only if its nonce is used or it cannot be paid |
| PoolLosses.EqualizedSpares | core/tx_pool.go:1164-1246 | equalisation forgets no local transaction |
| PoolLosses.TruncatedSpares | core/tx_pool.go:1247-1286 | nor does truncation |
| PoolLosses.DemotedSpares | core/tx_pool.go:1292-1339 | demotion forgets nobody's transaction unless its nonce is used or it cannot be paid |
| PoolOps.PromoteExecutables | core/tx_pool.go:1093-1287 | the accounts are promoted in turn, then equalised and truncated, each as its own relation says, with the accounts cut on the way; coherent, bounded, in step, and local transactions forgotten only if the head state rules them out |
| PoolOps.Add | core/tx_pool.go:752-799 | the verdict as a function of pool and transaction, what becomes of queue, pending and lookup, and exactly when it is refused, for its funds as `PoolSolvency.AdmittedIff` says; capacity is kept |
| PoolOps.AddAll | core/tx_pool.go:950-974 | each result is `add`'s verdict on the pool reached by then, and the accounts that gained a transaction are promoted; coherence, capacity and nonce intervals are kept |
| PoolOps.Reset | core/tx_pool.go:413-507 | reinjection, demotion, nonce update and promotion one after the other, with the exact front-gap count; coherent and bounded, and without reinjection nonce intervals and every local transaction the head allows are kept |
| PoolOps.PopCheap | core/tx_list.go:459-486 | everything below the threshold is popped and either dropped or saved |
| PoolOps.SetGasPrice | core/tx_pool.go:541-550 | a transaction stays known if and only if it is local or at least as dear as the price; each one dropped cuts its list as a removal does |
| PoolOps.Evict | core/tx_pool.go:372-389 | exactly the queues of silent remote accounts go, and nothing else is forgotten |
| PoolOps.BeatKeeps | core/tx_pool.go:372-389 | an account of which something became pending keeps its queue through a tick exactly as long as its lifetime, and longer if local; a remote one without a heartbeat loses it |
| PoolReset.ExecutedEffect | core/tx_pool.go:1093-1287 | what a whole promotion that cuts no account leaves of one account's lists |
| PoolReset.ExecutedFits | core/tx_pool.go:1164-1246 | a promotion cuts no account if all transactions known may be pending at once |
| PoolReset.ReachesAll | core/tx_pool.go:489-492 | what reinjection leaves is a function of the pool, the new head and the transactions, in order |
| PoolReset.PayableKept | core/tx_pool.go:1292-1320 | demotion keeps a transaction when everything from the head nonce up to it can be paid |
| PoolReset.AccountIff | core/tx_pool.go:413-507 | one account through reinjection, promotion, demotion and promotion again: in step if and only if it has no hole |
| PoolReset.ResetInStepIff | core/tx_pool.go:413-507 | a reset of any pool in step, with any reinjected transactions, that cuts no account leaves it in step if and only if no account has a hole |
| PoolReset.RoomyUncut | core/tx_pool.go:413-507 | it cuts none if the transactions known and reinjected are no more than the global slots |
| PoolReset.ResetLeavesHole | core/tx_pool.go:413-507 | resets of a coherent pool in step whose result is not in step |
| PoolReset.FreeFallsShort | core/tx_pool.go:413-507 | concrete inputs of that kind, at any two nonces two or more apart |
| PoolSetback.StaysBack | core/tx_pool.go:493-507 | demotion and the nonce update leave the virtual nonce of an account whose list lies below the head nonce as reinjection left it |
| PoolSetback.NothingReady | core/tx_pool.go:1128-1135 | a virtual nonce below the head nonce keeps the account's queue from being promoted |
| PoolSetback.CutToOne | core/tx_pool.go:1164-1246 | a limit that three pending transactions exceed cuts the account that has two, and its virtual nonce with it |
| PoolSetback.ResetSetsBack | core/tx_pool.go:413-507 | resets of a coherent pool in step, without holes, that leave a virtual nonce below the head nonce |
| PoolSetback.FreeOvertaken | core/tx_pool.go:413-507 | concrete inputs of that kind |
| PoolSolvency.AdmittedIff | core/tx_pool.go:640-775 | a new transaction that is proper apart from its funds is refused as invalid if and only if execution would not find them, and otherwise for lack of room if and only if all slots are taken |
| PoolSolvency.DemotedIff | core/tx_pool.go:1292-1339 | what was pending is kept by demotion, in one list or the other, if and only if its nonce is unused and execution finds its funds |
| PoolSolvency.LiveIff | core/tx_pool.go:1105-1126 | and so it is with what promotion leaves of a queue |
| PoolSolvency.ResetSound | core/tx_pool.go:413-507 | after a reset, whatever was known before it, every known transaction has an unused nonce and can be paid at the new head |
| PoolSolvency.BatchSound | core/tx_pool.go:950-974 | a batch of additions keeps it so |
| PoolSolvency.BatchDear | core/tx_pool.go:950-974 | and keeps every known transaction local or at the minimum price |
| PoolSolvency.ResetDear | core/tx_pool.go:413-507 | so does a reset |
| TxPools.TxPool.AddTxs | core/tx_pool.go:888-974 | the pool object keeps its invariant under additions, which add exactly what each verdict says |
| TxPools.TxPool.SetMinimumPrice | core/tx_pool.go:541-550 | and under price changes, which forget exactly the remote transactions below the price |
| TxPools.TxPool.EvictSilent | core/tx_pool.go:372-389 | and under eviction, which empties exactly the queues of silent remote accounts |
| TxPools.TxPool.ResetTo | core/tx_pool.go:413-507 | and under resets, whose front-gap count is exact, and zero when no block is discarded |
| TxPools.StepSound | core/tx_pool.go:274-507 | no operation leaves a transaction known that the head state rules out, or that is neither local nor at the minimum price |
| TxPools.RunSolvent | core/tx_pool.go:274-507 | in every state of a run every known transaction has an unused nonce and funds as execution asks for them, and is local or pays the minimum price |
| TxPools.Perform | core/tx_pool.go:274-507 | one operation changes the pool as its own relation says, and keeps it in step unless a block is discarded |
| TxPools.RunPool | core/tx_pool.go:274-507 | the states of any run of operations on a new pool, each made from the one before by its operation; all are coherent and within capacity and every known transaction in them is solvent and local or at the minimum price, and in a run that discards no block all are in step and none demotes for a front gap |
| BlockTree.UpIsAt | core/headerchain.go:338-368 | walking parents reaches the ancestor at that number |
| HeaderChains.DeleteAbove | core/headerchain.go:159-168 | deletes exactly the index entries from a number up to the first hole |
| HeaderChains.Redirect | core/headerchain.go:159-184 | after clearing above and rewriting below, the index is exactly the new head's path |
| HeaderChains.TreeGrows | core/headerchain.go:135-157 | storing a header leaves every other path and its work alone |
| HeaderChains.HeaderChain.constructor | core/headerchain.go:73-110 | a chain over an empty store is the genesis alone, one over a stored chain resumes it; both are valid |
| HeaderChains.HeaderChain.WriteHeader | core/headerchain.go:135-199 | index, total difficulties and heaviest header stay right; the header becomes current exactly if it is heavier or wins the tie |
| HeaderChains.InsertHeaders | core/headerchain.go:267-305 | headers are imported in turn up to the first that is not verified or has no stored parent; known ones are skipped, and every state on the way is valid |
| HeaderQueries.IndexedAncestor | core/headerchain.go:348-356 | an entry's ancestor is the entry at that number, if and only if one is not above the head and the other between the fork and the head |
| HeaderQueries.WalkIff | core/headerchain.go:350-367 | the walk ends at the ancestor or gives up, if and only if the empty hash does not mislead it and no stale entry leads it astray; otherwise it ends at the entry of that number |
| HeaderQueries.GetAncestor | core/headerchain.go:338-368 | the loop's answer is that of `Walk`; it is the empty hash or that of walking parents if and only if it is neither misled nor astray, and never empty for a stored block on the index or within the budget |
| HeaderQueries.EmptyHashMisleads | core/headerchain.go:348-356 | every index of two or more entries has a query that misleads it |
| HeaderQueries.CanonicalSound | core/headerchain.go:135-199 | a header chain meets what the queries ask for |
| HeaderQueries.CleanNeverStrays | core/headerchain.go:350-367 | on a clean index nothing strays |
| HeaderQueries.BackwardIff | evr/handler.go:438-448 | towards the genesis the next header is `skip + 1` generations up if and only if the two are not astray |
| HeaderQueries.ForwardIff | evr/handler.go:449-471 | and towards the head as many down |
| HeaderQueries.Advance | evr/handler.go:438-471 | the next origin, wrap-around included; right if and only if the two headers are not astray; `HeaderQueries.EndsIff` says when there is none |
| HeaderQueries.WalkJoins | core/headerchain.go:350-367 | the walk takes from the budget what lies above the number at which it joins the index, and gives up if and only if that is more than there is |
| HeaderQueries.EndsIff | evr/handler.go:438-471 | there is no next origin if and only if the genesis or the end of the index is nearer than `skip + 1`, the block at the next number does not come from the last, or the walk to the index exceeds the budget |
| HeaderQueries.ReplySpends | evr/handler.go:438-471 | each step of a reply takes its walk to the index from the budget, and nothing else does |
| HeaderQueries.SteadyReply | evr/handler.go:438-471 | from an origin on the index every header of a reply is on it, at the number asked for |
| HeaderQueries.FullLength | evr/handler.go:416-471 | such a reply has exactly as many headers as the amount, the limit of 192 and the way to the end of the chain allow, towards the genesis and towards the head, for every 64-bit skip |
| HeaderQueries.ByHash | evr/handler.go:400-485 | every hash-mode reply starts at its origin, each header is the next origin of the one before, it ends short of its limits only for the reasons `Ends` names, neighbours are `skip + 1` generations apart if and only if not astray, and from an origin on a clean index it has its full length |
| Reorgs.FindCommon | core/blockchain.go:1834-1878 | both branches down to the highest common block |
| Reorgs.CommonExists | core/blockchain.go:1834-1878 | any two stored blocks have a highest common ancestor |
| Reorgs.CanonicalIff | core/blockchain.go:1909-1918 | an index that is right up to the head is the head's path if and only if it ends there |
| Reorgs.InsertBranch | core/blockchain.go:1890-1902 | index and lookup after inserting all of the new branch but its head, stale entries above included |
| Reorgs.CutLookup | core/blockchain.go:1903-1908 | dropping the old branch's transactions that the new one did not take leaves the new path's lookup |
| Reorgs.Reorg | core/blockchain.go:1800-1918 | what index and lookup are before the head itself is written |
| Reorgs.BranchCases | core/blockchain.go:1909-1918 | the caller-side condition says exactly whether the index then ends at the head, and which entries above it stay |
| Reorgs.Adopt | core/blockchain.go:1181-1197 | the lookup is always the new head's, and the index always right up to it and above it on the path of one block; it ends at the head if and only if `BranchOk` held, and stale entries that stay keep their values |
| TrieGC.WriteRoot | core/blockchain.go:1243-1289 | the root is queued; of all queued roots exactly those 128 or more blocks down are dropped, lowest first, and none before that height; references match the queue |
| TrieGC.Drain | core/blockchain.go:827-829 | exactly the queued roots are dropped, lowest first, and every root's balance ends at zero |
| TrieGC.RunWrites | core/blockchain.go:1243-1289 | every write of any sequence collects like that, from an empty queue on, and stopping drops what is left |
| BlockChains.OnceInsert | core/blockchain.go:1212-1232 | a block of fresh transactions keeps every path free of duplicates |
| BlockChains.ChooseFork | core/blockchain.go:1296-1312 | more work wins, then the lower block, then the miner's own or the coin; clause by clause in `BlockChains.WrittenChosen` |
| BlockChains.WriteBlock | core/blockchain.go:1212-1338 | fork choice by work, then height, then preservation or coin; the store stays sound whether or not its index is stale, and stale entries appear, stay or go exactly as `BranchOk` and `Stays` say, unmoved |
| BlockChains.WrittenChosen | core/blockchain.go:1296-1312 | more work takes the head and less does not; with equal work the lower block is head; at equal height a preserved head stays, a preserved newcomer displaces one that is not, and otherwise the coin alone decides |
| BlockChains.StepAscends | core/blockchain.go:1296-1312 | the head changes only to more work, or as much and lower, or as much and as high if it is not preserved |
| BlockChains.HeadsAscend | core/blockchain.go:1200-1338 | between any two states of a run the head's work does not fall, nor does it rise in number at equal work; a head preserved all along is given up only for more work or a lower block |
| BlockChains.BlockChain.constructor | core/blockchain.go:605-624 | a chain of the genesis alone is sound and its index clean |
| BlockChains.BlockChain.WriteBlocks | core/blockchain.go:1200-1338 | the stores of any run of writes, refused ones included, each made from the one before by its write; all are sound and every head is the one the fork choice gives |
| BlockChains.StaleIndex | core/blockchain.go:1300-1335 | two writes to a sound, clean chain: a tie that leaves number 2 mapped to a block above the head, and a block on top that cleans the index again |
| BlockChains.Queryable | core/blockchain.go:2092-2097 | every sound store meets what the header queries ask for |
| BlockChains.StaleAnswer | core/headerchain.go:350-367 | two writes to that chain after which the grandparent of a stored block, and a forward query, are answered with an unrelated block |
| Feeds.Find | event/feed.go:213-220 | the first index of a channel, or minus one exactly if absent |
| Feeds.Deleted | event/feed.go:223-225 | deleting takes out one occurrence and shifts what follows |
| Feeds.Moved | event/feed.go:228-232 | deactivating moves one occurrence behind the waiting prefix |
| Feeds.Feed.constructor | event/feed.go:61-66 | a new feed has only the removal case |
| Feeds.Feed.Subscribe | event/feed.go:73-93 | the subscription is filed once, in the inbox, and nothing else changes |
| Feeds.Feed.Cancel | event/feed.go:104-116 | removed at once from the inbox, or waiting for the cases |
| Feeds.Feed.FindLeaving | event/feed.go:119-124 | a waiting canceller's channel is always among the cases, never in slot 0 |
| Feeds.Feed.RemoveIdle | event/feed.go:118-124 | removal between sends |
| Feeds.Feed.BeginSend | event/feed.go:129-154 | the send starts with every subscription there is |
| Feeds.Feed.Deliver | event/feed.go:162-168 | one delivery, counted once, and the case leaves the waiting prefix |
| Feeds.Feed.EndTries | event/feed.go:169-190 | the send ends exactly when nothing waits, and is then fair to every channel |
| Feeds.Feed.SelectRemove | event/feed.go:174-180 | removal during a send, of a waiting or a served case |
| Feeds.RemovedGood | event/feed.go:174-180 | a removal while the send is blocked keeps every subscription accounted for |
| Feeds.Finished | event/feed.go:129-190 | per channel: deliveries at most the subscriptions, equal to them if none was removed |
| Feeds.TrackedNext | event/feed.go:129-190 | a step changes the send's counts by exactly what it delivers and removes |
| Feeds.Interleave | event/feed.go:73-190 | the states of any interleaving, all good, and every send it completes, once and in order: started with all the subscriptions there were, its deliveries and removals those of its steps, fair to every channel and returning its number of deliveries |
| ChainIndexers.SetValidSections | core/chain_indexer.go:453-465 | lowering the count removes exactly the heads from the new count to the old, raising it none |
| ChainIndexers.Truncated | core/chain_indexer.go:453-465 | after lowering it every section below the count has a head that covers it, and none above has one |
| ChainIndexers.Extended | core/chain_indexer.go:342-345 | a processed section extends the linked chain of stored sections |
| ChainIndexers.NewHead | core/chain_indexer.go:239-295 | what a head or reorg does to an indexer and its children; a head that raises the known sections has all their confirmations below it, after any head that is no reorg the next section lacks some, sections stay linked and children within their parents |
| ChainIndexers.KnownBound | core/chain_indexer.go:239-295 | a reorg leaves nothing known past it, and a head nothing new past itself |
| ChainIndexers.Confirms | core/chain_indexer.go:272-290 | sections become known with their confirmations, and no later |
| ChainIndexers.ReorgTakes | core/chain_indexer.go:244-262 | a reorg takes exactly the sections that end at or above it, of those known and of those stored |
| ChainIndexers.HeadConfirmed | core/chain_indexer.go:239-295 | a head or reorg passed down the tree of indexers leaves nothing known without the confirmations of its indexer and of all above |
| ChainIndexers.StoredConfirmed | core/chain_indexer.go:341-355 | nor does the end of a section, even if a reorg came between |
| ChainIndexers.RunConfirmed | core/chain_indexer.go:193-412 | from new indexers on, in every state of every run, each known section of each indexer has its confirmations, and those of its parents, below the highest head announced |
| ChainIndexers.TopAnnounced | core/chain_indexer.go:193-236 | which some event did announce |
| ChainIndexers.ReadHeader | core/chain_indexer.go:391-405 | a header is taken if and only if it builds on the one before, and fails the section otherwise |
| ChainIndexers.Unchanged | core/chain_indexer.go:341-342 | comparing the old section head decides exactly whether a reorg truncated meanwhile |
| ChainIndexers.Finish | core/chain_indexer.go:338-363 | a section is stored and cascaded, or forgotten, and exactly when |
| ChainIndexers.FailReset | core/chain_indexer.go:386-389 | a failing reset keeps sections linked, and children within exactly if they know nothing |
| ChainIndexers.NotPassed | core/chain_indexer.go:259-269 | a reorg kept from the children leaves them within the stored range when sections have two blocks |
| ChainIndexers.PassedOnUnlessNarrow | core/chain_indexer.go:259-269 | it is kept from them wrongly only with one-block sections and a one-block reorg |
| ChainIndexers.StaysWithinIff | core/chain_indexer.go:259-269 | a child it is kept from stays within its parent's stored range unless sections are single blocks, the reorg is by one and the child knows all that was stored |
| ChainIndexers.NarrowFails | core/chain_indexer.go:239-271 | a run from two new indexers with one-block sections, and a reorg after which the child knows a block past its parent's stored range |
| ChainIndexers.AttachedNested | core/chain_indexer.go:425-441 | children attached before the first head start within their parents |
| ChainIndexers.ChainIndexer.Run | core/chain_indexer.go:193-412 | the trees of indexers of any interleaving of events and update loops, each made from the one before by its event; in all of them sections are linked and, with wide sections and until a reset fails, children nested; and known sections are those with their confirmations |
| Gas.IntrinsicGas | core/state_transition.go:83-113 | 21000, or 53000 for a creation, plus 4 for every zero byte and 68 for every other, and an error exactly when that exceeds 64 bits |
| Gas.Priced | core/state_transition.go:92-110 | zero bytes cost 4 and all others 68, wherever they are |
| Gas.GasPool.AddGas | core/gaspool.go:29-35 | adds exactly; the overflow panic is a precondition met by every caller |
| Gas.GasPool.SubGas | core/gaspool.go:39-45 | deducts exactly, or fails without change when there is too little |
| Gas.StateTransition.PreCheck | core/state_transition.go:156-182 | which check refuses a message, and that refusal changes nothing |
| Gas.StateTransition.RefundGas | core/state_transition.go:243-258 | the refund is the counter capped at half, and what is left goes to payer and pool |
| Gas.RefundIsMost | core/state_transition.go:243-250 | the refund is the most that neither the counter nor half of the gas spent exceeds |
| Gas.Settled | core/state_transition.go:156-168 | buying the limit and being paid back costs the payer the used gas, and nobody else anything |
| Gas.StateTransition.TransitionDb | core/state_transition.go:187-240 | exactly when a message goes through and with which error it does not; the pool shrinks by the gas used, the payer is charged for it, and the world is the one the EVM left with the rest paid back |
| Gas.ApplyTransaction | core/state_processor.go:87-115 | one transaction, its receipt, the running sum, the whole world after it with the refund counter cleared, and its error |
| Gas.Counted | core/state_transition.go:170-182 | a message that goes through uses up a nonce of its sender, and a checked one its own |
| Gas.InOrder | core/state_processor.go:56-81 | the checked messages of a sender that a block applied carry rising nonces, each the account's own at the time |
| Gas.Replayed | core/state_transition.go:170-182 | a checked message the block has applied before, or an earlier one of its sender, fails for a nonce too low |
| Gas.Skipped | miner/worker.go:792-805 | what the miner skips after a nonce error would fail too: later nonces of the sender, or the same message later in the block |
| Gas.Process | core/state_processor.go:56-81 | gas used is the sum over receipts and limit minus pool; on an error, which message failed and why; no checked message is applied twice |
| GasLimit.Moves | core/block_validator.go:114-145 | one block moves into the range or towards it by exactly the decay, and never past it |
| GasLimit.Follows | core/block_validator.go:114-145 | inside the range the limit rises, stays or falls as half as much again of the gas used exceeds, equals or is below the limit in 1024ths, by exactly the difference until it meets the range |
| GasLimit.Converges | core/block_validator.go:114-145 | any sequence of blocks reaches the range within its distance and never leaves it |
| GasLimit.RisesIff | core/block_validator.go:114-145 | below the floor the limit rises if and only if it is at least 2048, or zero, or the floor is at most 5000 |
| GasLimit.Stuck | core/block_validator.go:119-121 | between 1024 and 2047 it stays outside the range, unless the minimum lifts it |
| GasLimit.Wraps | core/block_validator.go:119-121 | below 1024 the decay wraps around and it moves by one the wrong way |
| GasLimit.Lifted | core/block_validator.go:128-137 | a floor of at most 5000 lifts a small limit at once |
| GasLimit.FallsIff | core/block_validator.go:114-145 | above the ceiling it falls if and only if it is at least 2048 |
| DerivationPaths.SplitIsInverse | accounts/hd.go:72 | the pieces hold no slash and join back to the string |
| DerivationPaths.ParseDerivationPath | accounts/hd.go:68-118 | the loop computes the specification, errors included |
| DerivationPaths.String | accounts/hd.go:122-136 | the loop computes the specification |
| DerivationPaths.RoundTrip | accounts/hd.go:68-136 | parsing a printed path gives it back if and only if it is not empty |
| DerivationPaths.ParsedSurvives | accounts/hd.go:68-136 | every parse result survives print-then-parse |
| DerivationPaths.AnyBaseReads | accounts/hd.go:96-112 | digits after 0x, 0b or 0, in either case and with any zeros in front, are read as the number they stand for, plain or hardened, as far as the range goes |
| DerivationPaths.SpacesIgnored | accounts/hd.go:92-100 | white space around a component does not count |
| DerivationPaths.SignedReads | accounts/hd.go:101-112 | a sign is read, and a number below zero is out of range |
| DerivationPaths.RelativeIsUnderRoot | accounts/hd.go:72-87 | a relative path means the absolute path under the default root |

## Where code and documentation disagree

- `promoteExecutables` says it drops the oldest queued transactions when the queue overflows; it
  starts with the account of the newest heartbeat, and so does the model.
- `CalcGasLimit` says it keeps the limit above the floor and always decreases one above the ceiling. A
  non-zero limit below 2048 does not rise to a floor above 5000, and does not fall to a ceiling below it
  (`GasLimit.RisesIff`, `GasLimit.FallsIff`).
- `GetAncestor` says it returns an ancestor of the given block; for the empty hash at a number past the
  index, and for a block above a stale entry, it can return another (`HeaderQueries.EmptyHashMisleads`,
  `BlockChains.StaleAnswer`).
- `reorg` says it deletes the canonical numbers above the new head; on a branch of one block it
  deletes those above the old one (`BlockChains.StaleIndex`).

## Left out

- Nonces, block numbers, section numbers and counts are unbounded; their 64-bit wrap-around is modelled only in header queries and the gas limit.
- Journal, metrics, logging, events to subscribers of the pool, and the recovery of senders.
- ValidateTx's checks that read no pool state (size, signature, network gas price, provider and owner rules, intrinsic gas): one flag per transaction.
- txPricedList.Underpriced and Discard, which the pool never calls in this fork; the exact value of the stale counter.
- Lists as shared objects inside the pool: pool steps use list values, and the list classes are proved against the same functions.
- Which transactions `reset` reinjects: the model takes any sequence of them.
- `GlobalSlots + GlobalQueue` overflowing 64 bits.
- PoolOps.Reset: with reinjected transactions it promises no nonce intervals; `PoolReset.ResetInStepIff` is when they hold.
- PoolReset.ResetInStepIff: stated for resets that cut no account; a cut can hide a hole, and `PoolSetback.ResetSetsBack` shows what else it can do.
- TxTypes.Tx: a transaction's hash is taken to be collision-free, as a constructor of the transaction.
- SetHead, fast sync, the ancient store and side-chain import; the errors that `reorg` returns on a store with missing blocks.
- Number-mode header queries.
- Trie contents, flushing by size and time, and database errors.
- Feeds.Feed: the type check, closing, and the value sent; a blocked `Send` may wait for ever.
- ChainIndexers.Indexer: checkpoints, throttling, shutdown and section data; children are part of their parent's value.
- ChainIndexers.FailReset: the truncation, which the source does without the lock, is one step.
- Gas.Process: signature recovery, logs, blooms, contract addresses, fork rules, the deletion of empty and destroyed accounts and block finalisation; the EVM is any function that returns no more gas than it got.
- DerivationPaths.ParseComponent: numbers are read as in Go 1.12, without digit separators; JSON.
- Consensus, networking, the EVM, account storage, RPC and everything else in the repository.
