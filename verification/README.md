# Venachain engines in Dafny

This project models the stateful engines of the Venachain node (a Go node in the Ethereum family) in
which a fast or incremental structure has to agree with a simple one over every run, and proves that
it does.

- `Feed.dfy`, `FeedHistory.dfy`, `TypeMux.dfy`, `MuxShutdown.dfy`, `MuxDelivery.dfy`: the two event delivery
  protocols. Every lock hand-over, try-send and select choice is a step of a state machine; the theorems
  are about all interleavings, and the histories tell from the steps alone who subscribed and who was
  served. The shared slices are also modelled in place, on arrays.
- `Ancestry.dfy`, `HeaderChain.dfy`, `HeaderQuery.dfy`: the header chain, its number-to-hash index,
  ancestor queries that trust the index, and the block-header query of the eth protocol.
- `TxQueue.dfy`, `PoolConsistency.dfy`, `FairEviction.dfy`, `Eviction.dfy`, `TxPool.dfy`,
  `PoolReset.dfy`: the transaction pool, its fairness evictor and the reorganisation walk of reset.
- `Heap.dfy`, `SortedMap.dfy`, `TxList.dfy`, `PricedList.dfy`: the older ordered containers.
- `Distributor.dfy`: the LES request distributor. `ChainIndexer.dfy`: the chain indexer.
- `TrieGc.dfy`, `Gas.dfy`, `DerivationPath.dfy`: trie retention, the gas of one state transition, and
  HD derivation paths.
- `Options.dfy`, `Transactions.dfy`: shared values.

Conventions. Code that updates fields or slices is a class or an array method whose `ensures` ties
the new state to the old one through a specification function or predicate; the properties of that
specification are lemmas. Hashes are identities: equal hashes mean equal objects where a contract
says so. Clocks, randomness, the network, peers, the virtual machine, backends and cache evictions
are parameters, nondeterministic choices or arbitrary functions of what is read. Where the code takes
no lock between two reads of the chain, the chain indexer may see a different chain at each read, and
others may write headers or roll back before each read of a header query; the reorganisation walk of
the pool reads one fixed block store. `rawdb` is maps, `prque` pops the largest priority first,
`container/heap` is verified code, `sort.Sort` is an ascending permutation. Go's unsigned 64-bit
arithmetic is written out where it can wrap.

Where code and comments disagree the model follows the code. The comment on `TypeMux.Stop` says that it
blocks until all current deliveries have finished. It does not: `TypeMuxes.StopMissesUnsubscribing` is
a run in which a subscription is served afterwards, and `MuxShutdowns.ServedFromStopOnIff` says exactly
which ones can be, namely those that a Post under way still has ahead in its snapshot while their
channel is open and no thread holds their postMu for writing. A reorganisation notice to the chain
indexer is ignored, since the code below it is commented out.

Verify with `dafny verify dfyconfig.toml`.

## Model

| member | source | states |
|---|---|---|
| `Feeds.SendServesItsRoster` | event/feed.go:129-190 | In every interleaving, when a Send is over, each entry on its roster was served as often as it was listed minus the times it was removed first; FeedHistories.RosterIsLive and FeedHistories.BooksFollow say what the roster is |
| `FeedHistories.SendServesWhoIsLive` | event/feed.go:129-190 | In every run and for every channel, from the steps alone: a Send that is over has sent on it once for each subscription that was live when the Send took the lock, short of that by no more than the removals of the channel in between, and exactly that often if there were none |
| `FeedHistories.SendServesWhoIsListed` | event/feed.go:129-190 | The same for every single entry listed in sendCases or the inbox when the Send takes the lock; the returned nsent is the number of deliveries made |
| `FeedHistories.RosterIsLive` | event/feed.go:133-138 | When a Send takes the lock its roster has each channel as often as it is live, and the inbox is empty afterwards |
| `FeedHistories.BooksFollow` | event/feed.go:129-190 | From one StartSend to the next the roster stays what was listed at the first, sent is what the steps delivered and nsent is their number |
| `FeedHistories.UnservedStep` | event/feed.go:145-190 | Each step takes from the unserved entries of a channel what it delivers there and at most what it removes |
| `FeedHistories.LiveCounts` | event/feed.go:73-125 | In every run the live subscriptions of a channel are those made less the calls of Unsubscribe that are not still waiting, and each waiting call ends with one removal |
| `FeedHistories.PassEnds` | event/feed.go:166-171 | A pass ends the Send exactly when no subscription is left in the active prefix; otherwise the select can serve one |
| `FeedHistories.PassGoesOn` | event/feed.go:159-165 | Each try brings the pass one case closer to its end and leaves the cases before it alone |
| `FeedHistories.SendCanFinish` | event/feed.go:155-190 | From any state of any run in which a Send is under way, deliveries alone bring it to its end: it waits for nobody but its receivers |
| `FeedHistories.WaitingHasWork` | event/feed.go:166-171 | In every run a Send that waits in its select has an unserved subscription to wait for |
| `FeedHistories.NobodyIsStuck` | event/feed.go:104-190 | A pass can try every active case, a waiting Send can take every active case and every removal, and without a Send a removal or a new Send can take the lock |
| `Feeds.NeverServedTwice` | event/feed.go:151-182 | At every moment of every run no entry has been served more often than the Send found it |
| `Feeds.ListsHoldLiveSubscriptions` | event/feed.go:104-190 | At every moment of every run sendCases and inbox together hold exactly the multiset of live subscriptions |
| `Feeds.NothingAfterUnsubscribe` | event/feed.go:104-125 | A channel whose subscriptions are all gone is in neither list, so no later Send can reach it |
| `Feeds.RemoverIsFound` | event/feed.go:171-177 | A removal that reaches sendCases always finds its channel, at an index above 0: delete is never called with -1 |
| `Feeds.StepKeepsInv` | event/feed.go:73-190 | Each atomic step of Subscribe, remove and Send keeps the bookkeeping: active prefix, served suffix, removed entries |
| `Feeds.RunsKeepInv` | event/feed.go:73-190 | The same for every state of every run, by induction over its steps |
| `Feeds.DropKeepsAccounts` | event/feed.go:171-177 | A removal in the middle of a Send keeps the accounts whether the entry was still active or already served |
| `Feeds.ChannelsPermuted` | event/feed.go:228-232 | Reordering cases, as deactivation does, changes no subscription |
| `Feeds.CaseList.FindCase` | event/feed.go:213-220 | Linear search: the first case for the channel, or -1 when there is none |
| `Feeds.CaseList.DeleteCase` | event/feed.go:223-225 | The in-place shift removes exactly one element and leaves the elements before it where they were, which is what the aliasing prefix relies on |
| `Feeds.CaseList.DeactivateCase` | event/feed.go:228-232 | The in-place swap with the last active case |
| `TypeMuxes.RunsNeverPanic` | event/event.go:53-145 | In no interleaving of Subscribe, Post, Unsubscribe and Stop does a thread send on a closed channel, close an event channel twice or close a closing channel twice |
| `TypeMuxes.NothingAfterUnsubscribe` | event/event.go:178-202 | Once a call of Unsubscribe has returned, its subscription receives nothing in the rest of the run |
| `TypeMuxes.NothingAfterStop` | event/event.go:105-115 | Once Stop has returned, every subscription it found registered, and every one already closed, receives nothing in the rest of the run; the exact condition is MuxShutdowns.ServedFromStopOnIff |
| `TypeMuxes.StopMissesUnsubscribing` | event/event.go:102-129 | A concrete run in which a subscription is served after Stop has returned: an Unsubscribe has taken it off the tables and not closed it yet, and a Post still has it ahead in an older snapshot, although the comment on Stop promises that all current deliveries have finished |
| `MuxShutdowns.ServedFromStopOnIff` | event/event.go:83-129 | For every run in which Stop holds the lock or has returned, and every subscription: some continuation of the run serves it if and only if a Post under way has it at or after its position in its snapshot, its event channel is open and no thread holds its postMu for writing |
| `MuxShutdowns.ServedAfterStopIsUnregistered` | event/event.go:105-115 | When Stop returns, whatever meets that condition is on no table and its channel is open: its Unsubscribe is not done with it; returning changes the condition for nobody |
| `MuxShutdowns.ServedLater` | event/event.go:96-98 | From any state of any run in which a Post has an open subscription ahead there is a continuation that serves it once more, by passing the subscriptions before it |
| `MuxShutdowns.PostGoesOn` | event/event.go:204-217 | A Post under way is never stuck: the step that passes or serves the subscription it is at is enabled |
| `MuxShutdowns.UnservedForGood` | event/event.go:105-115 | From Stop on, a subscription that does not meet the condition never meets it again and receives nothing in the rest of the run |
| `MuxShutdowns.StaysUnserved` | event/event.go:83-129 | The same for one step of any thread |
| `MuxShutdowns.AheadShrinks` | event/event.go:83-100 | Once Stop holds the lock no Post starts, and those under way never get a subscription ahead that they did not have |
| `MuxShutdowns.ShutStays` | event/event.go:189-202 | A closed channel, or a postMu held for writing, is never undone: the lock is released over a closed channel only |
| `MuxShutdowns.RunsKeepMarks` | event/event.go:189-202 | In every run, what a slice lists and is closed has its closing channel closed, so a delivery to it can be given up |
| `TypeMuxes.SnapshotsSurvive` | event/event.go:83-100 | A slice that a Post has snapshotted stays the same for the rest of the run; MuxDeliveries.PostMeetsEachOnce says what a Post does with it |
| `MuxDeliveries.PostMeetsEachOnce` | event/event.go:83-100 | In every run a Post that returns has met each subscriber registered for its type when it began in exactly one step: a delivery, a skip because the event is older than the subscription, or a skip because it is being closed |
| `MuxDeliveries.PostHasAllAhead` | event/event.go:83-98 | Every subscriber of the type is ahead of a Post that starts on a mux that is not stopped |
| `MuxDeliveries.PostStartsAtFirst` | event/event.go:83-98 | A Post starts at the first element of the slice registered for its type; without subscribers or after Stop it does nothing |
| `MuxDeliveries.WhoIsRegistered` | event/event.go:53-129 | In every run not ended by Stop the subscribers of a type are exactly those who subscribed to it and whose Unsubscribe has not been called |
| `MuxDeliveries.TableStep` | event/event.go:53-145 | After Subscribe the subscribers of each type named are the old ones and then the new one, after Unsubscribe the old ones without it, after Stop none; every other step leaves every type alone |
| `MuxDeliveries.PositionCounts` | event/event.go:83-100 | A Post walks the slice that was registered when it began, and its position is the number of subscriptions it is done with |
| `MuxDeliveries.DeliveryGoesToElement` | event/event.go:204-217 | A delivery of a Post counts for the subscription it is at and for no other |
| `TypeMuxes.SnapshotsAreStable` | event/event.go:66-76 | No step writes to a subscriber slice that exists |
| `TypeMuxes.ClosedStaysSilent` | event/event.go:189-217 | A closed event channel stays closed and its count of received events never grows again |
| `TypeMuxes.NeverSendsOnClosed` | event/event.go:204-217 | The read lock and the nil postC protect every delivery in progress |
| `TypeMuxes.NeverClosesTwice` | event/event.go:189-202 | The closed flag under closeMu makes closewait close once |
| `TypeMuxes.StepKeepsInv` | event/event.go:53-217 | Every step of every thread keeps the protocol invariant |
| `TypeMuxes.RunsKeepInv` | event/event.go:53-217 | The invariant holds in every state of every run |
| `TypeMuxes.StopReturnKeepsInv` | event/event.go:105-115 | When Stop returns, all it found registered is closed |
| `TypeMuxes.RemovedIsUnregistered` | event/event.go:117-129 | After del no table lists the subscription |
| `TypeMuxes.AppendCopy` | event/event.go:72-74 | The new subscriber array is fresh and is the old one followed by the new subscription; the old one is only read |
| `TypeMuxes.PosDelete` | event/event.go:140-145 | The copy without one element is fresh and equals the old slice with the subscription taken out |
| `TypeMuxes.WithoutOne` | event/event.go:117-145 | Removing a subscription that occurs once is removing one position |
| `HeaderChains.RunsKeepIndexLinked` | core/headerchain.go:130-186 | After every run of header writes and rollbacks the canonical index is gap-free and parent-linked from genesis through at least the head and names the head at its number |
| `HeaderChains.HeaderChain.WriteHeader` | core/headerchain.go:130-186 | A header with a higher number becomes head, one with a lower number changes neither head nor index, and at equal numbers the coin alone decides; when it becomes head the incremental re-routing gives exactly the index of a full parent walk from it; the loops end |
| `HeaderChains.WriteTakesHigher` | core/headerchain.go:142-146 | A write leaves the head at the larger of the two numbers: it never lowers it |
| `HeaderChains.HeadOnlyRises` | core/headerchain.go:130-186 | Between two rollbacks of any run the head only rises, is at least as high as every header written, and is the old head or one of those |
| `HeaderChains.RollbackOfOthers` | core/blockchain.go:727-749 | Withdrawing hashes none of which is the head leaves the head alone |
| `HeaderChains.CanonicalWriteEndsAtHead` | core/headerchain.go:145-177 | After a canonical write the index ends exactly at the new head and answers every ancestor question about it |
| `HeaderChains.HeaderChain.Rollback` | core/blockchain.go:727-749 | The header part, for every list of hashes whose withdrawal does not reach genesis itself: the head moves down its branch, the index is untouched |
| `HeaderChains.RollbackStaysOnBranch` | core/blockchain.go:727-749 | Whatever hashes are withdrawn, the head stays on the indexed branch and never rises; the walk fails only if genesis is listed |
| `HeaderChains.RollbackUndoesBranch` | core/blockchain.go:727-749 | Withdrawing a stretch of one branch that ends at the head lands exactly on the block below it |
| `HeaderChains.StepKeepsCoherence` | core/headerchain.go:130-186 | One write or rollback keeps the index equal to the branch of some stored tip with the head on it |
| `HeaderChains.CoherentIsLinked` | core/headerchain.go:130-186 | That invariant implies the promise about the index |
| `HeaderChains.HeaderChain.DeleteAbove` | core/headerchain.go:146-155 | Deleting upwards to the first gap removes every number above the new head |
| `HeaderChains.HeaderChain.OverwriteStale` | core/headerchain.go:157-169 | Overwriting downwards to the first match leaves the whole branch of the parent in the index |
| `HeaderChains.FirstMatchSuffices` | core/headerchain.go:157-169 | Stopping at the first agreeing entry is enough: below it both branches are the same |
| `HeaderChains.HeaderChain.GetAncestor` | core/headerchain.go:317-347 | For every hash, number and budget: a non-zero answer is the true n-th parent unless the walk would leave the stored blocks (zero hash, or a wrong number with more ancestors asked than there are); for the zero hash exactly when the answer is misleading; for a block given with its own number a zero answer means exactly that the number is too small or the budget ran out before the walk met the index |
| `HeaderChains.ShortcutIsAncestry` | core/headerchain.go:329-333 | Once a walk is on the index, the index is the walk |
| `HeaderChains.HeaderChain.GetHeader` | core/headerchain.go:351-364 | With a cache that may drop anything, a stored header is found, and whatever is returned is the stored header of that hash |
| `HeaderChains.HeaderChain.GetHeaderByHash` | core/headerchain.go:367-373 | Finds exactly the stored headers |
| `HeaderChains.HeaderChain.GetHeaderByNumber` | core/headerchain.go:385-391 | Finds exactly the canonical header of the number |
| `Ancestry.IndexIsAncestry` | core/headerchain.go:317-347 | The index of a branch answers every ancestor question the slow parent walk answers |
| `Ancestry.WriteKeepsBranches` | core/headerchain.go:139-140 | Storing a header whose parent is stored changes no existing branch |
| `Ancestry.ChildCanBeWritten` | core/headerchain.go:130-140 | Every new child of a stored header may be written |
| `HeaderQueries.Serve` | eth/handler.go:403-482 | Whatever others write to the chain before each read: at most the limit is served; by hash, each consecutive pair is exactly Skip+1 generations apart on one branch in the asked direction, also for wrapping skips; by number, stored headers stepping by Skip+1 modulo 2^64; a stored origin is always served. On a chain nobody changes, answers by number are canonical, and from a canonical origin, or backwards by hash from an origin no more than 100 blocks off the index, the answer is full or nothing could follow |
| `HeaderQueries.AncestorJoins` | eth/handler.go:403-445 | The budget of 100 suffices: each step back spends no more of it than it comes closer to the index |
| `HeaderQueries.LimitMeans` | eth/handler.go:413 | At most the amount asked for and at most 192; an amount of 2^63 or more is negative as an int and gives none |
| `HeaderQueries.NumbersInAnswer` | eth/handler.go:470-479 | Entry i of an answer by number has number q.number plus or minus i times Skip+1 |
| `HeaderQueries.AncestorsInAnswer` | eth/handler.go:436-468 | Entry i of an answer by hash is i times Skip+1 generations away from the header asked for |
| `HeaderQueries.ExhaustedMeans` | eth/handler.go:436-480 | Where an answer from a canonical origin ends short of the limit, no canonical header could follow |
| `HeaderQueries.AdvanceByHash` | eth/handler.go:436-468 | One advance by hash goes to a header exactly Skip+1 generations away or reports that there is none, also when headers are written between its two reads |
| `HeaderQueries.StepBack` | eth/handler.go:437-445 | The parent side, including the skip that wraps to zero |
| `HeaderQueries.StepForward` | eth/handler.go:446-468 | The child side: the header found canonical is taken only if the origin is its ancestor, even if the chain was reorganised in between |
| `HeaderQueries.NotDescendant` | eth/handler.go:457-464 | Accepts only a header whose ancestor Skip+1 generations back is the origin, and always accepts it if both are canonical |
| `HeaderQueries.ServeOne` | eth/handler.go:413-480 | One pass of the loop extends the answer by the pending header or says exactly why there is none |
| `HeaderQueries.AnswersStay` | eth/handler.go:403-482 | What has been served stays a correct answer whatever headers are written afterwards |
| `HeaderQueries.AncestryStays` | eth/handler.go:403-482 | Writing headers changes no ancestor of a stored block |
| `HeaderQueries.Meanwhile` | core/headerchain.go:130-186 | Any sequence of header writes and rollbacks by others keeps the chain valid and removes no header |
| `HeaderQueries.CanonicalAncestor` | eth/handler.go:436-468 | On the index no budget is needed and ancestors are on the index |
| `HeaderQueries.AnswerGrows` | eth/handler.go:432-433 | A header read at the pending position extends the answer correctly |
| `PoolReset.PlanReset` | core/tx_pool.go:460-571 | What is injected again is exactly the transactions of abandoned blocks above the highest common ancestor that no adopted block contains; nothing if the heads are more than 64 blocks apart, if the new head follows the old one or if there was none; an unchanged head or branches without a common stored ancestor keep the state |
| `PoolReset.FindReorg` | core/tx_pool.go:510-536 | The three walks end, and meet at the highest common ancestor with the transactions of both sides above it collected |
| `PoolReset.ReinjectIsDifference` | core/tx_pool.go:537 | The difference of the collected lists is the set of transactions only the abandoned branch has |
| `PoolReset.TxsAboveAreBranchTxs` | core/tx_pool.go:511-536 | The collected list is exactly the transactions of the branch above the fork |
| `PoolReset.RootedBranchesMeet` | core/tx_pool.go:487-540 | In a store whose branches reach one genesis two heads always have a highest common ancestor |
| `PoolReset.TxDifference` | core/types/transaction.go:328-343 | Keeps exactly the transactions whose hash the other list lacks |
| `PoolReset.TxDifferenceSplits` | core/types/transaction.go:328-343 | Each transaction is judged by itself and the order is kept |
| `PoolReset.TxDifferenceOfOne` | core/types/transaction.go:328-343 | A single transaction is kept exactly if the other list has no transaction of its hash |
| `PoolReset.BranchIsLinked` | core/tx_pool.go:510-536 | The branch that is walked follows parent hashes: its top is the head, and below each block lies the stored block it names as parent |
| `TxQueues.TxQueue.Put` | core/tx_list.go:109-120 | Appends a new hash once; set, list and size agree |
| `TxQueues.TxQueue.Remove` | core/tx_list.go:123-140 | Takes out the one element with the hash and keeps the order |
| `TxQueues.TxQueue.RemoveTxs` | core/tx_list.go:143-162 | Takes out all listed hashes; set, list and size agree |
| `TxQueues.TxQueue.GetByCount` | core/tx_list.go:85-101 | A prefix of the asked length, or everything |
| `TxPools.TxPool.Add` | core/tx_pool.go:791-825 | Keeps lookup and queues equal; refuses known chain transactions and uncovered values; a new transaction goes to the end of its sender queue |
| `TxPools.TxPool.PromoteTx` | core/tx_pool.go:866-887 | Files a transaction under its sender exactly when the lookup does not know it |
| `TxPools.TxPool.RecoverTx` | core/tx_pool.go:972-991 | Adds what is unknown, and only then marks the sender local |
| `TxPools.TxPool.RemoveTx` | core/tx_pool.go:1143-1163 | One hash leaves the lookup and its queue; an emptied queue disappears |
| `TxPools.TxPool.RemoveFrom` | core/tx_list.go:123-140 | Removing from the queue object of one account changes the contents of that account only; every object's set, list and size still agree |
| `TxPools.TxPool.PutInto` | core/tx_list.go:109-120 | Putting into the queue object of one account changes the contents of that account only |
| `TxPools.TxPool.EnsureQueue` | core/tx_pool.go:866-874 | A first transaction gets a queue object of its own, shared with no other account |
| `TxPools.TxPool.DemoteAccount` | core/tx_pool.go:1251-1270 | One account on its queue object: included and uncovered transactions leave, an emptied queue is deleted |
| `TxPools.TxPool.DemoteUnexecutables` | core/tx_pool.go:1245-1273 | The whole new state: included and uncovered transactions are gone from queues and lookup, order is kept, emptied queues disappear |
| `TxPools.TxPool.DropUnpayable` | core/tx_pool.go:1258-1266 | Removal while walking a copy leaves exactly the covered transactions |
| `TxPools.DemotedIsExecutable` | core/tx_pool.go:1245-1273 | Exactly the transactions remain that are not in txs and whose value the balance of the sender covers, and a queue disappears exactly when it had some and lost them all |
| `TxPools.DemotedIsConsistent` | core/tx_pool.go:1245-1273 | Lookup and queues are still the same set after a demotion |
| `PoolConsistency.LookupCountsQueues` | core/tx_pool.go:1366-1420 | The lookup is the disjoint union of the queues: its size is the sum of their lengths |
| `PoolConsistency.RemovalKeepsConsistency` | core/tx_pool.go:1143-1163 | Removing the same transactions from a queue and the lookup keeps them equal |
| `PoolConsistency.AppendKeepsConsistency` | core/tx_pool.go:866-887 | Appending an unknown transaction to its sender queue and the lookup keeps them equal |
| `Evictions.PromoteExecutables` | core/tx_pool.go:1168-1240 | On the queue objects: the nested equalisation loops end, the pool is still consistent, and its contents are the fair cut, whatever the map order and the tie breaking |
| `Evictions.Equalise` | core/tx_pool.go:1191-1216 | All earlier offenders end at one common length; it stops at the newest offender or at the limit |
| `Evictions.Reduce` | core/tx_pool.go:1218-1237 | All offenders together go down to the limit or to the guaranteed slots |
| `Evictions.DropRound` | core/tx_pool.go:1198-1214 | One round costs each offender its newest transaction and lowers the common level by one |
| `Evictions.DropNewest` | core/tx_pool.go:1204-1212 | The newest transaction of one account leaves queue and lookup |
| `Evictions.CountPending` | core/tx_pool.go:1169-1173 | The sum of the queue lengths |
| `Evictions.CollectSpammers` | core/tx_pool.go:1177-1183 | Exactly the non-local accounts above the guaranteed slots |
| `FairEviction.FairCutGuarantees` | core/tx_pool.go:1168-1240 | Total within the limit or every non-local account at the guaranteed slots; locals and small accounts untouched; nobody falls below the guaranteed slots; survivors are prefixes; the undershoot is smaller than the number of offenders; nothing happens under the limit |
| `FairEviction.FairCutIsUnique` | core/tx_pool.go:1168-1240 | The outcome is the same for every map order and tie breaking |
| `FairEviction.LevelStep` | core/tx_pool.go:1196-1215 | Lowering the level by one costs exactly one transaction per account above it |
| `Distributors.RequestDistributor.Queue` | les/distributor.go:231-258 | The line stays strictly sorted by order, a resent request returns to its old place, a new one goes last; if no signal was outstanding one is put into the loop channel at once, otherwise none; the new channel is open and empty |
| `Distributors.RequestDistributor.Wake` | les/distributor.go:124-157 | One signal consumed: a chain of correct scheduling rounds leads from the old line to the new one, each request that left was settled by its round, channels closed before are untouched, and a new signal is on its way exactly if requests are left |
| `Distributors.RequestDistributor.SendAll` | les/distributor.go:127-156 | The inner loop ends after a round that sends nothing; it asks for a wait exactly if the line is not empty |
| `Distributors.RequestDistributor.Round` | les/distributor.go:129-138 | One round: the unservable head is closed unserved, a pair that can send now is handed over on its channel, an empty answer means an empty line |
| `Distributors.LastRoundWaits` | les/distributor.go:139-154 | When requests are left, the first has a taker and no registered peer could send its first request in the last round |
| `Distributors.OutcomeMeans` | les/distributor.go:124-157 | A request whose channel was closed empty met a round in which no registered peer accepted it; one that was handed out went to a registered peer that accepted it without waiting and accepted nothing before it in the line |
| `Distributors.LastRoundLeaves` | les/distributor.go:139-154 | After the last round every registered peer would have to wait for the first request left that it accepts |
| `Distributors.ValidMeans` | les/distributor.go:27-38 | Whenever the lock is free: strictly rising order, one open empty channel per waiting request, every other channel closed after at most one peer, at most one signal on its way and one whenever anything waits |
| `Distributors.TraceOne` | les/distributor.go:127-156 | A correct round extends the chain of rounds |
| `Distributors.NextRequest` | les/distributor.go:176-225 | Drops exactly the requests at the head that no registered peer accepts; the chosen peer gets the first request it accepts; a wait is asked only if no peer can send its first request now, and it is the shortest one |
| `Distributors.ScanRequest` | les/distributor.go:189-211 | One request against all peers not matched yet keeps the candidates right |
| `Distributors.ChoiceIsGood` | les/distributor.go:220-224 | The final selection respects creation order after the drops |
| `Distributors.DropKeepsFirst` | les/distributor.go:212-217 | Dropping unservable requests does not change whom a peer serves first |
| `Distributors.RoundOutcomes` | les/distributor.go:129-138 | What a round removes was handed over or unservable |
| `Distributors.RequestDistributor.Cancel` | les/distributor.go:263-274 | Succeeds exactly on a queued request, closes its channel empty, and the request is gone from the line |
| `Distributors.RequestDistributor.Settle` | les/distributor.go:277-283 | A channel is closed only while open and empty, so none is closed twice |
| `Distributors.RequestDistributor.Fire` | les/distributor.go:150-153 | A sleeper turns into one signal in the channel without exceeding its buffer of two |
| `Distributors.RequestDistributor.Stop` | les/distributor.go:113-123 | Every channel ends up closed, those still queued unserved, and those closed before are not touched |
| `Distributors.FindPlace` | les/distributor.go:240-249 | The place before the first request that is not earlier |
| `Distributors.InsertKeepsOrder` | les/distributor.go:240-249 | Inserting there keeps the line strictly sorted |
| `ChainIndexers.ChainIndexer.NewHead` | core/chain_indexer.go:240-297 | In uint64 arithmetic: afterwards every section whose last block the head confirms is known, no section is claimed that it does not confirm, and an update is signalled exactly if the count rose; reorganisation notices change nothing; the invariant holds in every stage of processing |
| `ChainIndexers.ChainIndexer.Begin` | core/chain_indexer.go:314-331 | Picks the next section and its required parent; everything in it is confirmed by an announced head |
| `ChainIndexers.ChainIndexer.ProcessSection` | core/chain_indexer.go:383-413 | Succeeds exactly if the backend agrees and every header read is known and linked to the one read before; only a failed reset changes the index, and then empties it; every number processed is confirmed |
| `ChainIndexers.WalkSection` | core/chain_indexer.go:393-408 | With the chain free to change between any two reads, a success is a hash-linked run of the full section from the given parent |
| `ChainIndexers.ChainIndexer.Finish` | core/chain_indexer.go:344-375 | A processed section extends the committed chain and its head; children hear exactly the number of the last stored block; a failure stores nothing and drops the claim to more sections |
| `ChainIndexers.ChainIndexer.AddChild` | core/chain_indexer.go:426-442 | A late child hears the last block of the sections both stored and known, or nothing if there are none |
| `ChainIndexers.SetValidSections` | core/chain_indexer.go:454-466 | Exactly the heads from the new count up to the stored one are removed; a higher count, as a commit passes it, removes none |
| `ChainIndexers.ForgettingKeepsIndex` | core/chain_indexer.go:454-466 | What is left is the correct index of the shorter chain, with no head above it |
| `ChainIndexers.CommitKeepsIndex` | core/chain_indexer.go:347-349 | Appending a linked section keeps one hash-linked chain from number 0 with every section head at its last block |
| `ChainIndexers.SectionHeadFixesSections` | core/chain_indexer.go:470-480 | Two indexes that agree on one section head indexed the same blocks up to it |
| `ChainIndexers.LastHead` | core/chain_indexer.go:326-331 | The stored head of the last section is the hash the next one must continue from |
| `ChainIndexers.Announce` | core/chain_indexer.go:354-358 | Every child hears the head once, knows every section it completes and keeps its own invariant |
| `ChainIndexers.SectionsAt` | core/chain_indexer.go:275-276 | The largest count of full sections among the confirmed blocks: no more than the head confirms and, unless the span wraps, one more would be too many; none below the confirmations |
| `ChainIndexers.HeadCompletes` | core/chain_indexer.go:275-276 | Section k is completed by a head if and only if the head is at or above its last block plus the confirmations; the head 2^64-1 without confirmations wraps and completes none |
| `ChainIndexers.ValidMeans` | core/chain_indexer.go:240-420 | Whenever the lock is free: one chain of blocks linked by parent hashes from number 0, its section heads stored and no others, every block handed to the backend confirmed by an announced head, and a signal or timer for any work left |
| `ChainIndexers.AllPassMeans` | core/chain_indexer.go:393-408 | A section is walked to its end exactly if each block is known and accepted, the first links to the head of the section before and every other one to the block before it |
| `ChainIndexers.ChildKnowsParentSection` | core/chain_indexer.go:354-358 | A child without confirmations and with the parent section size knows the section its parent has just announced |
| `ChainIndexers.ChainIndexer.TimerFires` | core/chain_indexer.go:365-373 | Whenever an idle indexer has sections to process a signal or a timer is pending |
| `Heaps.Pop` | core/tx_list.go:34-50 | The least element leaves and the rest is a heap of the others |
| `Heaps.Push` | core/tx_list.go:34-50 | The heap gains exactly one element |
| `Heaps.Remove` | core/tx_list.go:34-50 | Element i leaves from anywhere and the heap is repaired by sinking or rising |
| `Heaps.Init` | core/tx_list.go:34-50 | Any slice becomes a heap of the same elements |
| `Heaps.RootIsLeast` | core/tx_list.go:34-50 | The root of a heap ranks lowest |
| `SortedMaps.SortedMap.Put` | core/tx_list.go:187-193 | Map, heap index and cache still agree; the map gains or replaces one nonce |
| `SortedMaps.SortedMap.Forward` | core/tx_list.go:198-212 | Exactly the nonces below the threshold leave, in rising order, and a cached order cut at its front is still the sorted map |
| `SortedMaps.PartsMean` | core/tx_list.go:198-212 | Each nonce is on exactly one side of a threshold, with its transaction |
| `SortedMaps.SortedMap.Filter` | core/tx_list.go:216-237 | Exactly the named transactions leave; the index is rebuilt only then |
| `SortedMaps.SortedMap.Cap` | core/tx_list.go:241-262 | The highest nonces leave, highest first, until the limit holds, and a cached order cut at its back is still the sorted map |
| `SortedMaps.SortedMap.Remove` | core/tx_list.go:266-283 | One nonce leaves map and index |
| `SortedMaps.SortedMap.Ready` | core/tx_list.go:292-307 | The maximal run of consecutive nonces from the lowest one, also at the end of the 64-bit range, and nothing if the lowest is not due |
| `SortedMaps.SortedMap.Flatten` | core/tx_list.go:317-330 | The transactions of the map in nonce order, cached |
| `SortedMaps.ViewIsUnique` | core/tx_list.go:317-330 | There is only one nonce-sorted order of the map, so a cache can only be that one |
| `SortedMaps.ViewMeans` | core/tx_list.go:317-330 | A sorted view holds each stored transaction once, by strictly rising nonce |
| `SortedMaps.RunMeans` | core/tx_list.go:292-307 | Position i of a ready run has the nonce lo + i, the nonce after the run is free, and exactly the later ones are left |
| `SortedMaps.HighMeans` | core/tx_list.go:241-262 | What a cap takes has higher nonces than anything left and is returned highest first |
| `SortedMaps.ViewStartsLeast` | core/tx_list.go:208-210 | Cutting the front of the order is removing the least nonce |
| `SortedMaps.ViewEndsGreatest` | core/tx_list.go:258-260 | Cutting the back of the order is removing the greatest nonce |
| `SortedMaps.FilterItems` | core/tx_list.go:219-225 | The scan in arbitrary map order collects exactly what it deletes |
| `SortedMaps.DropHighest` | core/tx_list.go:249-254 | The loop over the sorted index takes the greatest nonces one by one |
| `SortedMaps.RunStops` | core/tx_list.go:299-303 | The run ended because the next nonce is missing, even where the counter wraps |
| `TxLists.TxList.Add` | core/tx_list.go:365-386 | A taken nonce is given up only for a price higher by the bump; the caps are raised to value plus price times gas and to the gas, and still bound every value and gas |
| `TxLists.TxList.Filter` | core/tx_list.go:404-428 | Every value and gas left is within the limits and everything in removed exceeds one of them; removed and invalids together are exactly what left; in strict mode exactly the nonces below the lowest violation stay and contiguity is kept |
| `TxLists.ShortCircuitIsSound` | core/tx_list.go:405-408 | When the caps fit the limits no stored transaction exceeds them, although the cap is raised by cost and the test is on value |
| `TxLists.TxList.Remove` | core/tx_list.go:439-452 | In strict mode exactly the nonces below the removed one stay and all above are returned; contiguity is kept |
| `TxLists.TxList.Forward` | core/tx_list.go:391-393 | Contiguity is kept |
| `TxLists.TxList.Cap` | core/tx_list.go:432-434 | Contiguity is kept |
| `TxLists.LowestNonce` | core/tx_list.go:419-424 | The minimum of the removed nonces |
| `TxLists.LowPartIsContiguous` | core/tx_list.go:432-434 | What a cap leaves of a contiguous run is contiguous |
| `TxLists.StagesAddUp` | core/tx_list.go:411-426 | What two filters remove one after the other is what is missing in the end |
| `PricedLists.PricedList.Put` | core/tx_list.go:528-530 | In every history the heap holds every live transaction; the counter stays exact if no entry of an earlier life of the transaction is still in the heap |
| `PricedLists.PutCountsRightIff` | core/tx_list.go:528-552 | The counter is right after an insertion if and only if no stale entry has the same hash |
| `PricedLists.AddedAgain` | core/tx_list.go:528-550 | A reachable history with a wrong counter: a transaction leaves and enters again while its old entry is still in the heap |
| `PricedLists.StalesCountsAbsentees` | core/tx_list.go:513-517 | stales is the number of heap entries absent from the lookup |
| `PricedLists.PricedList.Remove` | core/tx_list.go:535-550 | A drop leaves one more stale entry and the same heap, or past a quarter of the heap a rebuilt one, after which the counter is exact in every history |
| `PricedLists.PricedList.Underpriced` | core/tx_list.go:585-607 | In every history, also with transactions added again: for a remote transaction and a non-empty pool, true exactly if no live price is lower; false for local senders and an empty pool |
| `PricedLists.PricedList.Discard` | core/tx_list.go:611-634 | Exactly the count worst remote live transactions, or all if fewer; every local one stays; heap and counter are right for the lookup without them |
| `PricedLists.PricedList.Cap` | core/tx_list.go:554-581 | Exactly the remote live transactions below the threshold; everything else stays |
| `PricedLists.PricedList.Forget` | core/tx_list.go:611-634 | Once the discarded transactions leave the lookup the list is consistent again |
| `PricedLists.DroppedAreWorst` | core/tx_list.go:615-630 | Whatever is still in the heap ranks no lower than what was dropped |
| `PricedLists.DroppedAreCheap` | core/tx_list.go:558-577 | Stopping at the first live price at the threshold misses nothing |
| `PricedLists.ForgettingRestores` | core/tx_list.go:611-634 | Heap entries are again the live transactions plus the stale ones |
| `PricedLists.RankIsOrder` | core/tx_list.go:487-497 | The ranking is price first, and high nonce first among equal prices |
| `TrieGcs.TrieGc.Write` | core/blockchain.go:949-989 | References per root equal queue entries; after writing N > 128 no entry at or below N-128 is queued and nothing above it was released; released and queued entries together are all ever written |
| `TrieGcs.TrieGc.Stop` | core/blockchain.go:676-695 | Every reference ever taken has been released exactly once and none is left |
| `TrieGcs.TrieGc.Collect` | core/blockchain.go:979-987 | Popping stops at the first young entry, which goes back; exactly the old ones were released |
| `TrieGcs.TrieGc.ReleaseLowest` | core/blockchain.go:689-691 | A dereferenced root holds a reference, and it belongs to the lowest block queued |
| `TrieGcs.LedgerStep` | core/blockchain.go:949-989 | No trie within 128 blocks of the highest block written is ever released before Stop |
| `TrieGcs.RecentStatesAreHeld` | core/blockchain.go:949-989 | The state root of every block written among the 128 numbers that end at the highest one is referenced |
| `TrieGcs.RootBagCounts` | core/blockchain.go:949-989 | A root is referenced once for each queue entry that carries it |
| `TrieGcs.RootBagIgnoresOrder` | core/blockchain.go:949-989 | The references do not depend on the order of the queue |
| `Gas.IntrinsicGas` | core/state_transition.go:87-118 | The exact unbounded-integer price if and only if it is below 2^64, out of gas otherwise |
| `Gas.PriceOfByte` | core/state_transition.go:87-118 | 53000 for a creation and 21000 for a call, and each further byte costs 4 if it is zero and 68 otherwise |
| `Gas.PriceInNumbers` | core/state_transition.go:87-118 | The price as a formula in the number of positions that hold a byte other than zero |
| `Gas.NonZeroCounts` | core/state_transition.go:97-103 | The counting loop counts the positions that hold a byte other than zero |
| `Gas.StateTransition.TransitionDb` | core/state_transition.go:289-365 | Which of the pool, the intrinsic price, the deployment permission and the balance stops the message, in that order, and whether a finished one failed; then pool after plus used gas is pool before, used is consumed minus the refund counter but at least half of consumed, rounded up, and AddGas cannot overflow; on every other exit after buying the whole limit stays taken |
| `Gas.DoneIff` | core/state_transition.go:289-365 | A transition is done exactly if the limit fits the pool and covers the price, and it is a permitted creation or a call, refused by the firewall or run without an insufficient balance; a refused call has failed |
| `Gas.StateTransition.RefundGas` | core/state_transition.go:409-418 | The refund is the smaller of the counter and half of the gas consumed (section 6.2 of the Ethereum Yellow Paper); all gas left returns to the pool |
| `Gas.StateTransition.BuyGas` | core/state_transition.go:161-170 | The limit moves from the pool to the transition, or nothing does |
| `Gas.StateTransition.UseGas` | core/state_transition.go:152-159 | Takes the amount exactly if it is there |
| `Gas.GasPool.AddGas` | core/gaspool.go:29-35 | Adds unless the sum exceeds uint64 |
| `Gas.GasPool.SubGas` | core/gaspool.go:39-45 | Takes the amount exactly if it is there |
| `Gas.QuotientCheck` | core/state_transition.go:104-113 | The division before the multiplication is an exact overflow test |
| `DerivationPaths.RoundTrip` | accounts/hd.go:67-135 | Every non-empty path survives printing and parsing; the empty path prints as a string that is refused |
| `DerivationPaths.CanonicalForm` | accounts/hd.go:67-135 | Every accepted string gives a non-empty path, and its printed form parses to the same path |
| `DerivationPaths.HardenedIndex` | accounts/hd.go:94-112 | Index i with an apostrophe is i + 2^31 for i below 2^31 and out of range otherwise (section "Extended keys" of BIP-32) |
| `DerivationPaths.PlainIndex` | accounts/hd.go:99-112 | Without an apostrophe i is itself for i below 2^32 and out of range otherwise |
| `DerivationPaths.NegativeIndex` | accounts/hd.go:104-109 | A negative number is out of range, hardened or not |
| `DerivationPaths.DefaultRoot` | accounts/hd.go:30-30 | The default root prints as m/44'/60'/0'/0 |
| `DerivationPaths.RelativePath` | accounts/hd.go:70-84 | Without the m/ prefix a printed path is appended to the default root |
| `DerivationPaths.WhitespaceIsIgnored` | accounts/hd.go:90-98 | White space around a component does not matter |
| `DerivationPaths.ComponentRoundTrip` | accounts/hd.go:89-115 | Every 32-bit component is printed and read back, hardened or not |
| `DerivationPaths.ParseDerivationPath` | accounts/hd.go:67-117 | The loop computes the specified result: all components in order or the first error, and ambiguous and empty paths are refused |
| `DerivationPaths.PathString` | accounts/hd.go:121-135 | The loop prints the specified string |
| `DerivationPaths.DecimalIsRead` | accounts/hd.go:99-103 | The base-0 integer reader reads every printed decimal back |
| `DerivationPaths.PrefixedIsRead` | accounts/hd.go:99-103 | Every number written after 0b, 0o, 0 or 0x in base 2, 8, 8 or 16, in either case, is read back |
| `DerivationPaths.SignedNumber` | accounts/hd.go:99-103 | A plus sign changes nothing, a minus sign negates |
| `DerivationPaths.Separators` | accounts/hd.go:99-103 | An underscore between two digits is ignored; doubled, at the end, or in front of a number without prefix it is an error |
| `DerivationPaths.DigitTooLarge` | accounts/hd.go:99-103 | A digit that is not below the base is an error |
| `DerivationPaths.NoLeadingSeparator` | accounts/hd.go:99-103 | A number cannot begin with an underscore |
| `DerivationPaths.TrimMeans` | accounts/hd.go:90-98 | Trimming removes the white space at both ends, all of it and nothing else |
| `DerivationPaths.SpaceTable` | accounts/hd.go:90-98 | The white space that is trimmed, character by character |
| `DerivationPaths.FirstComponentDecides` | accounts/hd.go:70-84 | An empty first component is ambiguous, m makes the path absolute, anything else is a path below the default root; m alone is an empty path |
| `DerivationPaths.FirstErrorWins` | accounts/hd.go:89-115 | All components are right and in order, or the first wrong one gives the error |
| `DerivationPaths.ErrorIsFirst` | accounts/hd.go:89-115 | The first bad component decides the error |

## Left out

- Feeds: type checks and their panics; the value being sent; `Feed.init`.
- TypeMuxes: a type given twice to Subscribe, which panics; time stamps are a free choice of Stale.
- TypeMuxes.NothingAfterStop: a sufficient condition that can be read off the tables; silence of every subscription is false of the code, and MuxShutdowns.ServedFromStopOnIff is the exact condition.
- HeaderChains.HeaderChain.WriteHeader: asks for a stored parent, a non-genesis number below 2^64-1 and no hash collision, which its callers guarantee; total difficulty is not modelled because the fork choice compares numbers.
- HeaderChains.HeaderChain.GetAncestor: a non-zero answer is not promised to be an ancestor for a block given with a wrong number when more ancestors are asked for than it has, because there the answer depends on what the cache holds; the hash-to-number table is read through the headers.
- HeaderChains.HeaderChain.Rollback: asks that the walk does not withdraw genesis itself, where the code would use a nil header.
- HeaderQueries.Serve: others may write and roll back during a query but not delete headers, as SetHead would; that an answer by number is canonical is stated for a chain nobody changes.
- HeaderChain.SetHead, ValidateHeaderChain, InsertHeaderChain, GetBlockHashesFromHash and the block and fast-block parts of Rollback.
- BlockChain.repair, loadLastState and the rest of block insertion.
- PoolReset.PlanReset: the block store is fixed during the walks; the depth test uses an integer absolute value instead of floating point; installing the new state and re-injecting are not part of it.
- TxPools: sender recovery is a function of the transaction; the branches for an empty queue inside the eviction rounds, which cannot be reached, are not written out.
- TxPool.addTxs and its error merge, PendingLimited, enqueueTx, generateTxs, ForkedReset, journaling, metrics: they would only add easy members or are unused.
- A bound of the pool size by GlobalSlots in addTxs: the check precedes batch insertion, so it is not an invariant.
- TxLists.TxList.Add: the price bump is a natural number; its conversion to a signed 64-bit integer is not modelled.
- PricedLists.PricedList.Discard: asks, like Cap, that the counter is exact, that is, that no dropped transaction was added again before its old entry was swept; PricedLists.PutCountsRightIff says exactly when that holds.
- Distributors: the random choice among ready peers and the sleeping times are free choices, request orders are unbounded, and a request is queued again only after it left the line, as its caller does; behaviour after stop is not modelled beyond closing the channels.
- ChainIndexers: no checkpoint; the throttling delay; closing the indexer in the middle of a section; a crash between the two database writes of a commit.
- TrieGcs.TrieGc.Write: asks for a block number below 2^63, where the signed priority is the negated number; flushing tries to disk by size or time and the archive mode do not touch the references and are not modelled.
- Gas.StateTransition.TransitionDb: only the path that buys the configured limit; the fee-contract path, balances, nonces and the virtual machine are outside; the machine returns no more gas than it was given.
- Block-level gas in core/state_processor.go: the transfer branch adds gas to the pool, so no conservation law holds there.
- DerivationPaths: strings are sequences of Unicode characters, so invalid UTF-8 is not modelled; error texts are reduced to their kind and values; the integer reader follows the prefixes and separators of Go 1.13.
- les/fetcher.go, les/freeclient.go, AddCheckpoint during processing, the virtual machines, trie, RLP, cryptography, database encodings, consensus, RPC and configuration.
