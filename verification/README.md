# go-bazacoin in Dafny

This project models the stateful core of go-bazacoin, a node of the Bazacoin network written in Go, and
proves what that core promises over every run. Hashes, signatures, the virtual machine, tries and the
encoding of values stay opaque: a hash is a number that is compared for equality, a header is its hash,
parent, number and difficulty, the virtual machine is a function that returns no more gas than it got.
Random draws, the iteration order of Go maps and the time of day are nondeterministic choices or
parameters, so each result holds for all of them.

The modules, by component:

- **Transaction pool.** `Heap`, `Sorting` and `Listings` are the data structures underneath. `TxSortedMap`
  and `TxList` are the per-account list with its map, nonce heap, sorted cache and caps; `PricedList` is the
  price heap. `PoolState`, `PoolAccounts`, `PoolSums`, `PoolLimits`, `PoolShares` and `TxPool` are the pool
  itself, over the contents of those lists (`Transactions` holds the vocabulary both share).
- **Weighted random selection.** `RandSelect`: an 8-ary tree of mutable nodes against a flat table of slots.
- **Canonical chain.** `Chain`, `HeaderChain`, `BlockChain`: fork choice by total difficulty, the
  number-to-hash index, reorganisations and the transaction lookup table.
- **Light transaction pool.** `LightTxPool`: transactions that move between pending and mined.
- **Concurrent protocols.** `Feed` (a state machine with one step per lock region or channel handoff) and
  `Distributor`.
- **Database migration.** `DbKeys` (the byte layout of old and new keys) and `DbUpgrade`.
- **Gas.** `Gas`: messages, the gas pool, blocks of messages and their receipts.
- **Smaller ones.** `EntryQueue` (the server pool's bounded queues) and `DerivationPath`.

## What is not true of the code

Seven properties one would expect do not hold. In each case the model keeps the code as it is and states
exactly when the property holds.

- After a reorganisation the head header and the head fast block need not be those of the new head, because
  the new blocks are inserted from the top down (the comment at core/blockchain.go:1172 says that the order
  does not matter). `BlockChain.BlockChain.InsertBlock` says where they are after every write: at the lowest
  new block that the index did not hold, so for a branch that replaces another they are the new head if and
  only if the branch has one block. `BlockChain.HeadHeaderStaysLow` is a run of three writes that shows it.
- Rewinding the header chain leaves headers of side branches whose ancestors are gone:
  `HeaderChain.StillRooted` says which headers keep their ancestry, namely those whose ancestry avoids the
  lowest header that was deleted. A header written above one of the others is stored like any other, but if
  it becomes the head, the walk that rewrites the index dereferences a missing header.
  `HeaderChain.HeaderChain.WriteHeader` shows that this happens if and only if the header becomes the head
  and its parent's ancestry is not all stored, and what it leaves behind;
  `HeaderChain.WriteAboveOrphan` is a run that ends so.
- The light pool forgets old mined blocks by the canonical index, which may already have moved on.
  `LightTxPool.TxPool.ReorgOnNewHead` shows that all mined blocks stay at or above the clear index if and only
  if the index agrees with the ancestry of the new head wherever that will hold mined transactions below the
  new clear index; in particular if it agrees with all of it. `LightTxPool.StaleEntryStays` is an example.
- A transaction that is mined can be added to the light pool once more, and is then pending as well.
  `LightTxPool.TxPool.Add` shows that this takes a chain that has left the block in which it is mined, and
  that it cannot happen while the chain is at the pool's head or above it. `LightTxPool.AddedAgain` is an
  example.
- The key migration overwrites a newer canonical hash with an older one if both formats hold the number.
  `DbUpgrade.ReadsSurvive` shows that all reads survive if and only if the two formats agreed at the start,
  `DbUpgrade.StaleHashReturns` is an example. Numbers of 2^63 and more are read under the old key of another
  number; `DbUpgrade.WideNumber` says exactly when that read survives.
- If an account's nonce goes back, the pool's pending transactions no longer start at it.
  `TxPool.StartsAtNonce` gives the exact condition for one list, `TxPool.NonceWentBack` an example; the
  methods of the pool ask for nonces that do not go back.
- Raising the price threshold of the pool loses one transaction from the price heap though it stays in the
  pool. `PricedList.TxPricedList.Cap` says when: if and only if there is one at or above the threshold.

## Model

| member | source | states |
|---|---|---|
| `Heap.Up` | core/tx_list.go:30-48 | An element whose parent may be larger moves up until the slice is a heap; nothing is gained or lost. |
| `Heap.Down` | core/tx_list.go:30-48 | An element whose children may be smaller moves down; every edge below the given position then holds, and the elements stay the same. |
| `Heap.Push` | core/tx_list.go:38-40 | A heap with one more element is a heap of the old elements and the new one. |
| `Heap.Pop` | core/tx_list.go:42-48 | The element taken out has the least key of all, the rest is a heap of the other elements. |
| `Heap.Remove` | core/tx_list.go:152-169 | Any position can be taken out of a heap; the rest is a heap of the other elements. |
| `Heap.Init` | core/tx_list.go:102-123 | Any slice becomes a heap of the same elements. |
| `Heap.RootIsLeast` | core/tx_list.go:84-98 | The first element of a heap has the least key. |
| `Sorting.SortedUnique` | core/tx_list.go:203-216 | With distinct nonces there is one sorted order only, so the cache does not depend on map iteration. |
| `TxSortedMap.PopBelow` | core/tx_list.go:84-98 | Popping up to a threshold leaves the nonces from it on and returns the others in order. |
| `TxSortedMap.PopRun` | core/tx_list.go:178-193 | Popping a run takes the maximal contiguous run from the least nonce, in order. |
| `TxSortedMap.FilterItems` | core/tx_list.go:102-123 | Filtering keeps and returns exactly what the predicate says, whatever the iteration order. |
| `TxSortedMap.CapItems` | core/tx_list.go:127-148 | Capping keeps the lowest nonces and returns the others from the highest down. |
| `TxSortedMap.TxSortedMap.Put` | core/tx_list.go:73-79 | The map gets the transaction; heap and map keep the same nonces. |
| `TxSortedMap.TxSortedMap.Forward` | core/tx_list.go:84-98 | Exactly the nonces below the threshold leave, in order, and a cache that is cut at the front is still the sorted contents. |
| `TxSortedMap.TxSortedMap.Filter` | core/tx_list.go:102-123 | Exactly the transactions filtered out leave; the rebuilt heap holds the nonces that stay. |
| `TxSortedMap.TxSortedMap.Cap` | core/tx_list.go:127-148 | At most the threshold stays, namely the lowest nonces; a cache that is cut at the back is still the sorted contents. |
| `TxSortedMap.TxSortedMap.Remove` | core/tx_list.go:152-169 | Removes one nonce from map and heap and says whether it was there. |
| `TxSortedMap.TxSortedMap.Ready` | core/tx_list.go:178-193 | Takes out the maximal contiguous run from the least nonce exactly if that nonce is at most the start. |
| `TxSortedMap.TxSortedMap.Flatten` | core/tx_list.go:203-216 | Returns the contents in the order of nonces, from the cache or not. |
| `TxList.TxList.Add` | core/tx_list.go:252-270 | Accepts exactly if nothing is in its place, or something whose price, raised by the price bump in percent, is below its own; a replacement has a strictly higher price; the caps still bound everything stored. |
| `TxList.TxList.Filter` | core/tx_list.go:288-311 | Leaves and returns what a scan without caps would, strict or not. |
| `TxList.TxList.Forward` | core/tx_list.go:275-277 | Drops exactly the nonces below the threshold. |
| `TxList.TxList.Cap` | core/tx_list.go:315-317 | Keeps the lowest nonces up to the limit. |
| `TxList.TxList.Remove` | core/tx_list.go:322-333 | Removes a nonce and, in a strict list, exactly what comes behind it. |
| `TxList.TxList.Ready` | core/tx_list.go:342-344 | Takes out the executable run. |
| `TxList.StaysGapFree` | core/tx_list.go:288-333 | A list without gaps has none after a strict filter, after forwarding, and after removal or capping. |
| `Transactions.StrictKeptSpans` | core/tx_list.go:299-310 | A strict filter leaves a contiguous list up to the first transaction it drops. |
| `Transactions.ThresholdIsHigher` | core/tx_list.go:255-259 | The price to beat is never below the old price. |
| `Transactions.AcceptsExactly` | core/tx_list.go:255-259 | A transaction may replace another exactly if it pays more than the other by the price bump, in percent of the price of the other; rounding makes no difference. |
| `PricedList.TxPricedList.Discard` | core/tx_list.go:483-508 | Drops the cheapest transactions of the pool that are not local, as many as asked or all; local ones of the pool are in the heap as often as before, stale ones go, nothing else is lost. |
| `PricedList.TxPricedList.Cap` | core/tx_list.go:425-453 | Drops exactly the transactions of the pool below the threshold that are not local, and loses one more, local or not, if and only if the pool has one at or above it; all other local ones of the pool stay. |
| `PricedList.TxPricedList.Underpriced` | core/tx_list.go:457-479 | True exactly if the transaction is remote, the pool has tracked transactions and none is cheaper. |
| `PricedList.TxPricedList.Removed` | core/tx_list.go:407-421 | Counts a stale transaction, or rebuilds the heap from the whole pool once a quarter is stale. |
| `PricedList.Partition` | core/tx_list.go:425-508 | Everything popped is stale, dropped or saved, and counted once. |
| `PoolAccounts.EnqueueTx` | core/tx_pool.go:501-522 | A transaction enters the queue exactly if nothing is in its place there, or something whose price it beats by the price bump. |
| `PoolAccounts.EnqueueListed` | core/tx_pool.go:501-522 | Taking its place in a list keeps every listed transaction of every account in the index. |
| `PoolAccounts.Requeue` | core/tx_pool.go:662-665 | Invalidated transactions all get back into the queue, and the index does not change. |
| `PoolAccounts.RemoveFrom` | core/tx_pool.go:642-681 | Removing keeps the account's invariant: pending is cut at the nonce, the pending nonce follows, and what was behind is queued unless nothing is left before it. |
| `PoolAccounts.RemoveTx` | core/tx_pool.go:642-681 | Removing a transaction by hash keeps the pool's invariant, does to its account what `RemovedFrom` says, touches no other and takes exactly one entry out of the index. |
| `PoolAccounts.PromoteTx` | core/tx_pool.go:527-559 | A transaction enters the pending list exactly if nothing is in its place, or something whose price it beats by the price bump, and the pending nonce is one past it. |
| `PoolAccounts.PromoteAccount` | core/tx_pool.go:698-738 | Of what is neither too old nor too costly in the queue, exactly the run behind the pending transactions joins them, and of the rest the lowest nonces stay, up to the cap; whatever ends up in neither list leaves the index. |
| `PoolAccounts.DemoteAccount` | core/tx_pool.go:860-889 | After a new head, pending holds what is payable from the new nonce up to the first gap, contiguous from that nonce; what is behind is queued, and whatever ends up in neither list leaves the index. |
| `PoolAccounts.DemoteUnexecutables` | core/tx_pool.go:856-890 | All accounts are demoted, start at their new nonces and lose from the index what they dropped, in whatever order they are taken. |
| `PoolLimits.PromoteQueues` | core/tx_pool.go:689-738 | Promotes exactly the given accounts and no other, re-establishes the invariant for all, and counts what stays queued. |
| `PoolLimits.DropOverflow` | core/tx_pool.go:818-850 | Drops exactly the overflow, whole queues and of the last one the highest nonces, takes what it drops out of the index, never runs out of accounts and leaves pending alone. |
| `PoolShares.DropLast` | core/tx_pool.go:776-788 | Dropping the highest pending nonce keeps the invariant, lowers the pending nonce to it and takes exactly its entry out of the index. |
| `PoolShares.LowerTo` | core/tx_pool.go:773-792 | Equally long accounts go down together and stay equal, until the pool is within its limit or they are at the floor, and by no more than one round below the limit; the counter is the true total. |
| `PoolShares.NextOffender` | core/tx_pool.go:763-794 | With each new offender there is still one water level. |
| `PoolShares.Spammers` | core/tx_pool.go:749-760 | Every account above its share is penalized or has a local transaction, and a penalized one has a transaction that is not local. |
| `PoolShares.Equalize` | core/tx_pool.go:740-816 | For one level of at least the account share, every penalized account ends with the lesser of its old number and the level, its lowest nonces, everyone else with what they had, and what is dropped leaves the index; then the pool is within its limit, and not below it by more than one transaction of each, or every account above its share has a local transaction. |
| `TxPool.PromoteExecutables` | core/tx_pool.go:686-851 | Promotes the given queues, shares out pending transactions exactly if there are too many, and drops from the queues exactly as many as are queued above the limit in the given accounts; then pending transactions are within their limit, and queued ones too, if all queues were looked at. |
| `TxPool.Insert` | core/tx_pool.go:470-495 | A transaction takes its place in the pending list or the queue exactly if nothing is there, or something whose price it beats by the price bump, which then leaves the index; nothing else changes and the invariant is kept. |
| `TxPool.InsertedIndex` | core/tx_pool.go:470-495 | The index gains the new transaction, loses the one it replaced and changes nowhere else. |
| `TxPool.PromotedMeans` | core/tx_pool.go:698-738 | After a promotion whatever is queued or newly pending is from the queue, not too old and payable; whatever is gone was too old or not payable, or the queue is at its cap. |
| `TxPool.DemotedMeans` | core/tx_pool.go:856-890 | After a demotion whatever is pending or newly queued is not too old and payable; whatever is not pending any more was too old, or something up to it is not payable. |
| `TxPool.AddTx` | core/tx_pool.go:439-496 | A transaction is refused exactly if it is known, fails a check against nonce, balance, gas limit or minimal price, or is underpriced in a full pool, and then nothing changes; any other is inserted once a full pool has made room by removing the named transactions one by one, unless it is too cheap to replace what is in its place. |
| `TxPool.RemoveAll` | core/tx_pool.go:461-466 | Removing transactions is a run of single removals; exactly these leave the index. |
| `TxPool.RemovedOthers` | core/tx_pool.go:642-681 | Accounts of which no transaction is removed keep both their lists. |
| `TxPool.Reset` | core/tx_pool.go:258-280 | A reset demotes every account, then promotes every queue; the invariant holds for the new nonces and both limits are kept. |
| `TxPool.PendingNonce` | core/tx_pool.go:258-280 | In every state that satisfies the invariant, the pending nonce is the account's nonce plus the number of pending transactions, and no nonce is both pending and queued. |
| `TxPool.StartsAtNonce` | core/tx_pool.go:856-888 | What is left of a pending list starts at the account's nonce if and only if the nonce did not go back or nothing is left. |
| `TxPool.NonceWentBack` | core/tx_pool.go:856-888 | A nonce that goes back by one leaves a gap in front of a pending transaction. |
| `TxPool.TxPool.constructor` | core/tx_pool.go:176-207 | An empty pool satisfies the invariant. |
| `TxPool.TxPool.Add` | core/tx_pool.go:562-581 | An addition is one step of adding, and its account is promoted exactly if no transaction was replaced; the invariant is kept with the chain state the same as at the last reset or ahead of it. |
| `TxPool.TxPool.AddBatch` | core/tx_pool.go:584-611 | A batch is a run of such steps, after which exactly the accounts that got a new transaction are promoted; the invariant is kept. |
| `TxPool.TxPool.RemoveBatch` | core/tx_pool.go:631-638 | A batch of removals keeps the invariant and is a run of single removals, each of which does to its account what `RemovedFrom` says; exactly these transactions leave the index. |
| `TxPool.TxPool.SetGasPrice` | core/tx_pool.go:301-310 | A price change keeps the invariant and removes exactly the transactions that the price heap names, one by one, whatever they are. |
| `TxPool.TxPool.ResetState` | core/tx_pool.go:258-280 | Every reset keeps the invariant and both limits, and does what `Reset` says; an unavailable state changes nothing. |
| `TxPool.TxPool.Expire` | core/tx_pool.go:895-918 | The queues of idle accounts are emptied and their transactions leave the index; no other account and no pending transaction or nonce changes. |
| `PoolState.InvAfter` | core/tx_pool.go:642-681 | A change to one account that keeps its invariant keeps that of all. |
| `PoolState.Forget` | core/tx_pool.go:704-722 | Deleting listed transactions from the index deletes no other listed transaction. |
| `RandSelect.WrsNode.constructor` | les/randselect.go:98-104 | A new node stands for a table of empty slots. |
| `RandSelect.WrsNode.Insert` | les/randselect.go:107-132 | Fills the first empty slot and returns its index; the panic is never reached while there is room. |
| `RandSelect.WrsNode.SetWeight` | les/randselect.go:136-157 | Changes one slot of the table, by the difference it returns; all weights, sums and counts on the way match again. |
| `RandSelect.WrsNode.Choose` | les/randselect.go:160-173 | Returns the slot whose interval of prefix sums contains the value. |
| `RandSelect.WeightedRandomSelect.SetWeight` | les/randselect.go:54-73 | The weights it stands for change at one item: added, changed or removed. |
| `RandSelect.WeightedRandomSelect.Grow` | les/randselect.go:63-69 | A new level changes no weight and makes room. |
| `RandSelect.WeightedRandomSelect.Choose` | les/randselect.go:79-94 | The rejection loop ends, whatever is drawn. What is chosen was accepted at the last draw, by its weight or by chance. Each stored weight is the old one or one the item had at some draw; if weights stand still meanwhile, nothing is returned exactly if all are zero, and otherwise an item with its current, positive weight. |
| `RandSelect.WeightedRandomSelect.Draw` | les/randselect.go:79-94 | One draw picks the item whose interval of prefix sums the drawn value falls into, and stores its current weight; the root sum follows. |
| `RandSelect.WeightedRandomSelect.Try` | les/randselect.go:79-94 | An item is accepted exactly if its weight has not gone down or a number drawn below the old weight is below the new one; a rejected draw lowers the root sum. |
| `RandSelect.SelectsOne` | les/randselect.go:160-173 | Each value below the total weight selects exactly one slot. |
| `RandSelect.HitCount` | les/randselect.go:160-173 | Each slot is selected by exactly as many values as it weighs. |
| `RandSelect.GrownBranches` | les/randselect.go:63-69 | A new root has the old tree as its first branch and nothing else, so all indices stay right. |
| `Chain.Ancestry` | core/headerchain.go:131-195 | The ancestry of a header has one hash for each number up to its own, each the parent of the next. |
| `Chain.AncestriesMeet` | core/headerchain.go:170-176 | Two ancestries that agree at one number agree below it. |
| `Chain.FindCommonAncestor` | core/database_util.go:653-677 | Returns the last common ancestor; returns nothing only if a header on the way is missing. |
| `HeaderChain.ClearAbove` | core/headerchain.go:156-163 | The index is cut above a number. |
| `HeaderChain.RewriteBelow` | core/headerchain.go:164-176 | The rewriting loop ends where the old and the new ancestry meet, and the index then follows the new one; or it ends at the highest missing ancestor, which it dereferences, and leaves the index torn there. |
| `HeaderChain.MakeHead` | core/headerchain.go:155-184 | The index becomes the ancestry of the new head, with nothing above it; the walk meets a missing header if and only if that ancestry is not all stored. |
| `HeaderChain.Splice` | core/headerchain.go:170-176 | Below the meeting point the old index already is the new ancestry. |
| `HeaderChain.StoreAndChoose` | core/headerchain.go:142-189 | A header of higher total difficulty becomes the head, one of equal total difficulty if the coin says so; the head stays the heaviest. Crashes exactly if the winner's ancestry is not all stored. |
| `HeaderChain.Write` | core/headerchain.go:131-195 | One write keeps index, tables and caches, and reports unknown ancestors; says exactly when it crashes and what it leaves then. |
| `HeaderChain.Rewind` | core/headerchain.go:401-434 | Rewinding leaves exactly the truncated ancestry in the index and deletes exactly the headers above. |
| `HeaderChain.StillRooted` | core/headerchain.go:401-434 | After a rewind a header keeps its whole ancestry if and only if that avoids the lowest deleted header. |
| `HeaderChain.WriteAboveOrphan` | core/headerchain.go:164-176 | Genesis, two headers in a line and one beside the second, rewound to genesis: writing a header above the one beside crashes. |
| `HeaderChain.RootedStep` | core/headerchain.go:131-195 | A stored header has its whole ancestry stored exactly if its parent has. |
| `HeaderChain.InsertAll` | core/headerchain.go:259-285 | A run of headers is stored up to where it stopped. It crashes exactly if it starts above an ancestry that is not all stored and comes to a new header that would be the head. |
| `HeaderChain.HeaderChain.constructor` | core/headerchain.go:71-107 | A chain of the genesis header alone satisfies the invariant. |
| `HeaderChain.HeaderChain.WriteHeader` | core/headerchain.go:131-195 | Keeps the invariant of the chain and that the head is the heaviest header; the header becomes the head exactly if its total difficulty is higher than that of the head, or equal and the coin says so; says what status and error are. Dereferences a missing header if and only if the header becomes the head and its parent's ancestry is not all stored. |
| `HeaderChain.HeaderChain.SetHead` | core/headerchain.go:401-434 | The current header's ancestry is the old one, cut. |
| `HeaderChain.HeaderChain.InsertHeaderChain` | core/headerchain.go:259-285 | Keeps the invariant; reports the first header that was not stored; says exactly when the run crashes. |
| `HeaderChain.HeaderChain.GetBlockNumber` | core/headerchain.go:111-120 | The cached number is that of the stored header. |
| `HeaderChain.HeaderChain.GetHeader` | core/headerchain.go:344-356 | A cached header is the stored one, and a stored one is found. |
| `HeaderChain.HeaderChain.GetTd` | core/headerchain.go:312-324 | A cached total difficulty is the sum of difficulties back to genesis. |
| `BlockChain.Branches` | core/blockchain.go:1117-1161 | Walking back finds the two branches down to where they last met. |
| `BlockChain.WriteTransactions` | core/database_util.go:423-459 | Files exactly the transactions of a block under their positions. |
| `BlockChain.DeleteTransactions` | core/database_util.go:528-531 | Takes exactly the given transactions out of the lookup table. |
| `BlockChain.TxDifference` | core/types/transaction.go:334-349 | Returns exactly the members of one list that are not in the other. |
| `BlockChain.InsertBranch` | core/blockchain.go:1171-1190 | Inserting the new branch from the top down files all its blocks and transactions, and moves head header and fast head to the lowest block that the index did not hold. |
| `BlockChain.ReorgLookup` | core/blockchain.go:1171-1199 | After filing the new branch and deleting the difference, the lookup table is that of the new ancestry. |
| `BlockChain.Reorg` | core/blockchain.go:1096-1199 | Index and lookup table follow the new ancestry, whichever branch is longer. |
| `BlockChain.MakeHead` | core/blockchain.go:855-862 | Extending or reorganising, the database is right for the new head. |
| `BlockChain.HeadHeaderStaysLow` | core/blockchain.go:457-479 | A run of three block writes in which a branch of two blocks takes over: head header and fast head end at its lower block. |
| `BlockChain.Import` | core/blockchain.go:828-871 | One block write, canonical or not, keeps index and lookup table; a heavier block becomes the head. |
| `BlockChain.BlockChain.constructor` | core/blockchain.go:118-169 | A chain of the genesis block alone satisfies the invariant. |
| `BlockChain.BlockChain.InsertBlock` | core/blockchain.go:995-1014 | Every block write keeps: index up to the head is the head's ancestry, the lookup table maps exactly its transactions, the head is the heaviest. Head header and fast head end at the lowest new block that the index did not hold, or stay; and exactly when that is the new head. |
| `LightTxPool.SetStateNet` | light/txpool.go:149-156 | The change map stays the net difference of what is pending. |
| `LightTxPool.CheckMinedTxs` | light/txpool.go:173-216 | Moves exactly the pending transactions of a block to mined, unchanged and at their positions; other blocks keep their lists; an error changes nothing. |
| `LightTxPool.RollbackTxs` | light/txpool.go:221-231 | Moves exactly the mined transactions of a block back to pending, unchanged; what was pending stays as it was. |
| `LightTxPool.Walk` | light/txpool.go:243-258 | Finds the last common header, above which the two ancestries differ, and the hashes on both sides of it. |
| `LightTxPool.RolledToCommon` | light/txpool.go:262-266 | After rolling back the old side, all mined blocks lie on the ancestry of the common header. |
| `LightTxPool.CheckAll` | light/txpool.go:267-274 | Checking the new side upwards keeps the invariant at every block, also if it stops at an error. Exactly the pending transactions of the checked blocks become mined, each in the first block that has it. |
| `LightTxPool.OnlyMoved` | light/txpool.go:239-275 | After a head event every pending and every newly mined transaction is, unchanged, one that was pending before or was mined in a block that is rolled back, and a block that stays mined keeps its list. |
| `LightTxPool.ClearOld` | light/txpool.go:276-293 | Says exactly which mined blocks are forgotten; none is left below the clear index if and only if the index agrees with the head's ancestry wherever a block of it is mined there. |
| `LightTxPool.StaleEntryStays` | light/txpool.go:276-293 | When the index has moved to another branch before the pool hears of the head, an entry stays below the clear index. |
| `LightTxPool.AddExclusive` | light/txpool.go:403-433 | Adding keeps pending and mined apart exactly if the transaction is not mined. |
| `LightTxPool.MinedIsRefused` | light/txpool.go:359-367 | A transaction that is mined in an ancestor of the current header has a nonce that is too low there. |
| `LightTxPool.AddedAgain` | light/txpool.go:403-433 | A pool whose head is one of two blocks, in which its transaction is mined, while the chain is at the other: the transaction is valid there and, added again, pending as well as mined. |
| `LightTxPool.TxPool.constructor` | light/txpool.go:80-100 | An empty pool satisfies the invariant. |
| `LightTxPool.TxPool.ReorgOnNewHead` | light/txpool.go:239-296 | Every head event keeps the invariant, also after an error, from where the next one continues; the change map is the net difference, and no tracked transaction is lost, gained or altered before old blocks are cleared. Says exactly what is pending, which blocks hold mined transactions and which ones afterwards, and keeps mined blocks at or above the clear index if and only if the canonical index agrees with the new ancestry wherever that matters. |
| `LightTxPool.TxPool.Add` | light/txpool.go:403-433 | Adds an unknown transaction that is valid in the state of the chain's current header. The invariant survives exactly if the transaction is not mined, and always if the chain is at the pool's head or above it. |
| `LightTxPool.TxPool.RemoveTx` | light/txpool.go:531-538 | Removes a pending transaction. |
| `Feed.Find` | event/feed.go:208-215 | The first position of a channel, or -1 exactly if it is not there. |
| `Feed.FindInPlace` | event/feed.go:208-215 | The search in the shared array agrees with the search in its contents. |
| `Feed.DeleteInPlace` | event/feed.go:218-220 | Deleting in the shared array deletes from both slices that look at it, and only there. |
| `Feed.DeactivateInPlace` | event/feed.go:223-227 | Deactivating in place exchanges two cases of the shared array. |
| `Feed.DeactivateCount` | event/feed.go:223-227 | Deactivating moves one case from the active to the inactive part and loses none. |
| `Feed.DeleteCount` | event/feed.go:218-220 | Deleting takes one case out of its part and none out of the other. |
| `Feed.InvStep` | event/feed.go:104-185 | Every enabled step finds the case it looks for and keeps the invariant: active cases are a prefix, progress and log match. |
| `Feed.RunKeepsInv` | event/feed.go:104-185 | Every run keeps the invariant. |
| `Feed.EveryRun` | event/feed.go:129-185 | Over every run from the start nothing panics, each finished send returned the number it delivered, and the live subscriptions of a channel are its Subscribe events less its completed removals. |
| `Feed.LiveCount` | event/feed.go:66-125 | Over every run the live subscriptions of a channel change by its Subscribe events less its completed removals. |
| `Feed.ExactlyOnce` | event/feed.go:129-185 | Over every run, counted on its events: a send hands its value over on each channel as often as that was subscribed and not removed when it began, less the removals that hit a case still to be served; it logs and returns how often it did. |
| `Feed.TakenOnce` | event/feed.go:129-185 | A channel that a send took from the inbox once got the value once, or not at all if removed before its turn; any other got nothing. |
| `Feed.CanFinish` | event/feed.go:129-185 | A send in progress can always come to its end. |
| `Feed.NothingAfterUnsubscribe` | event/feed.go:104-125 | Once a removal is complete, no step of any run delivers to the channel. |
| `Distributor.NextRequest` | les/distributor.go:178-227 | Drops only requests that no peer can take. Of all registered peers, each with the first queued request that suits it, the one returned needs the least wait; the wait is zero exactly if there is no request or one of these peers needs none. |
| `Distributor.Enqueue` | les/distributor.go:233-251 | The queue gains exactly the request and stays strictly sorted by creation, also when a request is queued again. |
| `Distributor.SendOne` | les/distributor.go:130-140 | One round sends the earliest request that the peer can take, to a peer that needs no wait, if there is such a peer; a request leaves the queue only by being sent or because no registered peer can take it. |
| `Distributor.SendAll` | les/distributor.go:129-158 | Over a whole activation each request is sent once, to a peer that can take it without waiting, and never while an earlier one for that peer is queued; whatever else left the queue could be sent to no registered peer in the round it was dropped. It ends only when no registered peer is ready for the first request that suits it. |
| `Distributor.RequestDistributor.Queue` | les/distributor.go:233-260 | There is always room for the signal under the lock, and afterwards the loop is going to wake. |
| `Distributor.RequestDistributor.Cancel` | les/distributor.go:265-285 | Takes out the request exactly if it is queued. |
| `Distributor.RequestDistributor.Wake` | les/distributor.go:152-155 | A sleeping goroutine always finds room for its signal. |
| `Distributor.RequestDistributor.Receive` | les/distributor.go:126-128 | The loop takes a signal. |
| `Distributor.RequestDistributor.Process` | les/distributor.go:126-160 | When the lock is free again, a wake-up is arranged exactly if the queue is not empty, after the least time that one of the peers has to be waited for, or 50 milliseconds if that is less; no registered peer is ready for the first request that suits it. Every request is still queued, was sent, or was dropped because no registered peer could take it. |
| `Distributor.RequestDistributor.RegisterPeer` | les/distributor.go:89-93 | Adds a peer. |
| `Distributor.RequestDistributor.UnregisterPeer` | les/distributor.go:96-100 | Takes a peer away. |
| `DbKeys.BigEndianRoundTrip` | core/database_util.go:76-80 | A number can be read back from its big-endian bytes. |
| `DbKeys.MinimalRoundTrip` | bzc/db_upgrade.go:110 | A number can be read back from its shortest bytes. |
| `DbKeys.ScansFindTheirKeys` | bzc/db_upgrade.go:92-209 | Prefix and length pick exactly the old keys of their kind, even if a hash begins like another prefix. |
| `DbKeys.BodyKeyScanned` | bzc/db_upgrade.go:135-148 | A new body key looks like an old block key exactly for numbers whose bytes begin with "lock-". |
| `DbKeys.KeyRoundTrip` | core/database_util.go:43-66 | Distinct keys of both formats have distinct bytes. |
| `DbUpgrade.ConvertNumbers` | bzc/db_upgrade.go:92-130 | Wherever it stops, it heads for the same result and keeps reads; at its end no old number is left. |
| `DbUpgrade.ConvertBlock` | bzc/db_upgrade.go:213-253 | Copies all of a block before anything of it is deleted, to keys under the number that its header decodes to, as 64 bits; fails only on a header that cannot be decoded. |
| `DbUpgrade.HeaderNumber` | core/database_util.go:100-115 | A header in the old format reads as the number it decodes to if and only if that fits 64 bits. |
| `DbUpgrade.ConvertBlocks` | bzc/db_upgrade.go:135-182 | Wherever it stops, it heads for the same result and keeps reads; at its end no old block entry is left. |
| `DbUpgrade.DeleteReceipts` | bzc/db_upgrade.go:186-209 | Deletes the old receipts that are left, without changing a read of a stored block. |
| `DbUpgrade.Upgrade` | bzc/db_upgrade.go:41-88 | One start, dying at any write or not at all. |
| `DbUpgrade.Restarts` | bzc/db_upgrade.go:41-88 | Over any number of starts that die at any writes, reads never change, and once one completes the database is that of an uninterrupted migration. |
| `DbUpgrade.CoherentReads` | core/database_util.go:83-257 | Databases that agree between formats and head for the same result read the same. |
| `DbUpgrade.ReadsSurvive` | bzc/db_upgrade.go:92-253 | All reads survive the migration if and only if the two formats agreed before it. |
| `DbUpgrade.StaleHashReturns` | bzc/db_upgrade.go:110-118 | In a database that is due for migration, an older canonical hash overwrites a newer one. |
| `DbUpgrade.WideNumber` | core/database_util.go:83-92 | The read of a number of 2^63 or more survives if and only if the old entries of the two keys involved are the same, or a new entry stands before them that the old one agrees with. |
| `DbUpgrade.Database.UpgradeSequentialKeys` | bzc/db_upgrade.go:41-88 | If the two formats agree, a reader sees the same before and after a start, however far it came; if it came to its end, only if they agreed. |
| `Gas.IntrinsicGas` | core/state_transition.go:85-107 | Counting one kind of byte gives 4 for every zero byte and 68 for every other, on top of 21000, or 53000 for a creation under the newer rules. |
| `Gas.GasPool.AddGas` | core/gaspool.go:27-31 | Adds to the pool. |
| `Gas.GasPool.SubGas` | core/gaspool.go:35-42 | Takes from the pool exactly if there is enough. |
| `Gas.StateTransition.UseGas` | core/state_transition.go:161-168 | Takes gas exactly if there is enough. |
| `Gas.StateTransition.BuyGas` | core/state_transition.go:170-193 | Buys all the gas, or changes nothing and says why. |
| `Gas.StateTransition.PreCheck` | core/state_transition.go:195-206 | Buys the gas exactly if the nonce is right and the gas affordable. |
| `Gas.StateTransition.RefundGas` | core/state_transition.go:262-279 | Gives back what is left and at most half of what was used, without overflow, to sender and pool alike. |
| `Gas.StateTransition.TransitionDb` | core/state_transition.go:211-260 | The outcome of a message, its state and its pool are those of the closed form `Transition`; the rows below say on balances, nonces and gas what that is. |
| `Gas.RefusedExactly` | core/state_transition.go:170-206 | Each of the errors before a message runs by its own condition on nonce, balance, gas and pool, in the order of the checks. |
| `Gas.MachineStarts` | core/state_transition.go:211-245 | The machine starts with what is left after the intrinsic gas, when the sender has paid for all of it and, for a call, has used a nonce. |
| `Gas.SucceedsExactly` | core/state_transition.go:211-260 | A message succeeds if and only if it can buy its gas, that covers the intrinsic gas and the machine finds the value to transfer. |
| `Gas.SuccessPays` | core/state_transition.go:245-279 | What success does to each account: the sender gets back what was not used, the coinbase gets what was, at the gas price, and everyone else has what the machine left; a refund counts up to half of the gas needed. |
| `Gas.SuccessConserves` | core/state_transition.go:211-279 | A message that succeeds changes the total of balances by what the machine changed it by, pays its intrinsic gas, gets at most half back, and takes exactly its used gas from the pool. |
| `Gas.FailureCosts` | core/state_transition.go:211-253 | What failure does to each account: nothing before the gas is bought, and after that the sender has paid for all of it. |
| `Gas.FailurePays` | core/state_transition.go:211-253 | A message that fails changed nothing, or has paid all its gas to nobody. |
| `Gas.BlockRuns` | core/state_processor.go:58-84 | Each message of a block starts in the state and with the pool that the one before it left, with the refund counter cleared; the block fails exactly if one has no valid signature or fails. |
| `Gas.BlockConserves` | core/state_processor.go:58-84 | The messages of a block keep the total of balances and never overdraw the pool. |
| `Gas.ApplyTransaction` | core/state_processor.go:90-124 | The receipt records the message's gas and the running total. |
| `Gas.Process` | core/state_processor.go:58-84 | Total used gas and pool remainder add up to the gas limit; receipts record each message. |
| `Gas.SetReceiptsData` | core/blockchain.go:660-691 | Gas recomputed from cumulative values adds up to them, and is what was recorded. |
| `EntryQueue.PoolEntryQueue.constructor` | les/serverpool.go:719-721 | A new queue is empty. |
| `EntryQueue.PoolEntryQueue.FetchOldest` | les/serverpool.go:724-736 | The scan ends and takes out the least recently set entry. |
| `EntryQueue.PoolEntryQueue.Remove` | les/serverpool.go:739-743 | Takes an entry out of the list exactly if it is there. |
| `EntryQueue.PoolEntryQueue.SetLatest` | les/serverpool.go:747-760 | The entry becomes the most recent; only if it is new and the queue full, the least recent one is evicted. |
| `EntryQueue.RemembersMostRecent` | les/serverpool.go:710-717 | After any run of accesses the queue holds the most recently accessed entries, in order of their last access. |
| `EntryQueue.ServerPool.Discovered` | les/serverpool.go:377-379 | A new entry becomes the most recent of the new ones. |
| `EntryQueue.ServerPool.Registered` | les/serverpool.go:192-205 | An entry moves from the new queue to the known one; the two never share an entry. |
| `EntryQueue.ServerPool.SaveNodes` | les/serverpool.go:409-418 | Entries are stored from least to most recently connected. |
| `DerivationPath.ParseDerivationPath` | accounts/hd.go:62-112 | Parses exactly as the specification function says, with its errors. |
| `DerivationPath.ToString` | accounts/hd.go:116-130 | Prints as the specification function says. |
| `DerivationPath.ParsePrinted` | accounts/hd.go:62-130 | Parsing the printed form of a path gives the path back, hardened components included. |
| `DerivationPath.ParsedReprints` | accounts/hd.go:62-130 | Whatever parses is a non-empty path in range, and its printed form parses to it again. |
| `DerivationPath.RelativeIsRooted` | accounts/hd.go:56-84 | A relative path stands for the default root followed by it. |
| `DerivationPath.DefaultRoot` | accounts/hd.go:30 | The default root prints as m/44'/60'/0'. |
| `DerivationPath.LeadingSlash` | accounts/hd.go:71-72 | Whatever follows, a path with a leading slash is an error. |
| `DerivationPath.RootAlone` | accounts/hd.go:74-83 | The root alone is an error. |
| `DerivationPath.InRangeExactly` | accounts/hd.go:87-106 | A plain component is any number below 2^32, a hardened one any below 2^31; others are refused as out of range. |
| `DerivationPath.PrintsNext` | accounts/hd.go:116-130 | Each component is printed in decimal after a slash, a hardened one less 0x80000000 and followed by an apostrophe. |
| `DerivationPath.PrefixedReads` | accounts/hd.go:95-98 | After 0x, 0b or 0 a number is read in base 16, 2 or 8, digit by digit. |
| `DerivationPath.PaddingIgnored` | accounts/hd.go:88-96 | White space around the components of any path makes no difference to what it parses to. |
| `DerivationPath.TrimPadding` | accounts/hd.go:88-96 | Trimming a string with white space around it is trimming the string. |
| `DerivationPath.JoinSplit` | accounts/hd.go:66 | Every path is its parts joined by slashes. |

## Left out

- The networking, RPC, console, metrics and logging packages: plumbing without state of interest.
- The virtual machine, state database, tries, RLP, signatures, consensus engines and Bloom filters: oracles with stated assumptions, or not used.
- 64-bit overflow of nonces, block numbers, weights and queue indices; only gas, database keys and derivation paths are bounded as in the source.
- The order in which Go maps and the heap of the Go priority queue return ties, heartbeat times and LRU cache evictions: any order and any eviction is allowed.
- Priorities of the pool's penalty queue are exact lengths; the source stores them as 32-bit floats, which are exact up to 2^24.
- The pool works on the contents of account lists; that the lists have these contents is what `TxSortedMap` and `TxList` show. A list that is empty and one that is missing are the same.
- Which transactions the price heap names for discarding is any choice in the pool; what the heap itself does is in `PricedList`.
- That the index of the pool holds nothing but listed transactions: removal drops invalidated ones from the lists alone if nothing is left before them.
- The count of stale entries in the price heap is not exact: requeueing puts transactions into the heap once more.
- Transaction checks that need only the transaction (signature, sign of the value, intrinsic gas, size) are one flag; in the light pool so are all checks but that of the nonce.
- Executing blocks: that it raises the nonces of senders and never lowers any is the hypothesis `Executed` of the light pool.
- What a restart makes of a header chain whose index a crash has left torn.
- Receipts, logs, Bloom filters, state and uncles of blocks in `BlockChain`; canonical entries above the head; fast sync, rollback of blocks, future and bad blocks.
- Gaps in the header chain under the light pool, as they occur while it syncs from a trusted checkpoint.
- Type checks of `Feed` on channels and values, and its use of the reflection package to select a case.
- The closing of channels when the distributor stops. Which peer can be sent what, and after how long, may differ from round to round but not within one.
- The writers that run beside the migration, the recreation of its iterator every so many keys, and old number keys that are not in shortest form.
- Account creation as a side effect of looking up the sender, and block rewards.
- `les/fetcher.go`, `les/retrieve.go`, pool statistics and dialling: no clean invariant or floating point only.
- Go's base-prefixed integer syntax follows `big.Int.SetString` as of Go 1.8: no digit separators and no "0o".
