# Chain maintenance, event feed and message execution of go-ethereum, in Dafny

This project models the stateful core of a go-ethereum node and proves what its operations keep.

- **Canonical chain** (`Chain`, `ChainIndex`, `Fork`, `BlockChain`, `HeaderChain`, `Ancestor`, `Rewind`, `SetHead`).
  A header store is a finite map; `Line` is the parent-linked run of hashes from the genesis to a header. Every
  statement about canonical markers, lookup entries, caches and log streams is made against that line. Extension,
  reorganisation of any depth, header batches and rewinds are imperative methods on classes that hold the database
  and the in-memory markers.
- **Event feed** (`CaseList`, `Feed`). The case list is edited in place on an array; the feed itself is a step
  relation over all interleavings of subscribers, unsubscribers and senders.
- **Message execution** (`Gas`, `World`, `StateTransition`, `StateProcessor`). Checks, gas purchase, authorizations,
  refund, floor and fees on 64-bit and 256-bit words that wrap where the code's do; then the loop over a block.
  The virtual machine is a function parameter about which only `EvmSound` is assumed.
- **Fast forms and background work** (`HashFn`, `TxIndexer`, `TrieGC`), and two smaller cores
  (`GasLimit`, `DerivationPath`).

`Options` holds the option type, `Words` the 64-bit words. Hashes, addresses and channels are numbers of which only
equality matters.

## Main results

1. Over any run of imports, head changes and reused blocks, on forks of any depth and with lookups in between, the
   number-to-hash markers, the transaction lookup table and the lookup cache describe exactly the ancestry of the
   block that became head last (`BlockChain.Run`); an operation fails exactly if the new head has no complete
   ancestry, and then moves nothing.
2. The removed-log and new-log streams are exactly the logs of the two branches, oldest block first, whatever the
   chunking does (`HeadLogs` in `SetCanonical` and `WriteBlockAndSetHead`). Every withdrawn log is the announced one
   with its removed flag set (`WithdrawnAreFlagged`).
3. A header batch leaves exactly the ancestry of its last header; a failed one leaves every marker alone; the break
   marked as unreachable in the cross-link loop is unreachable (`CrossLink`).
4. What a rewind makes durable is stated write by write (`Trail`): one batch of the three head markers for each height
   on the way down, then one batch with all deletions, then, if it reaches higher, the cut of the ancient store. After
   every one of these writes all three stored heads are readable with their full ancestry. The rewind ends at the
   highest header that meets the target, unless a head block found on the way lies below the frozen part and below the
   target: exactly then it is forced down to the block it then aims for (`Arrived`, `ForcedIff`). The snap block has a
   closed form (`SnapAt`). On a chain whose timestamps grow the ancient store is not left reaching beyond the head block
   (`NoHoleLeft`). Every fork above the end is deleted up to the first height that held no header.
5. In every interleaving of the feed no lookup before a delete fails, and each finished send delivered exactly once to
   every subscription that was not removed meanwhile (`RunsAreSafe`, `Good`). These are all the subscriptions in either
   list when the send merged them (`SubscribersAreServed`). Nobody gets stuck, and a send whose subscribers are ready
   ends (`NobodyIsStuck`, `ReadySend`).
6. For every accepted message after London, with the fee checks on, exactly what the machine burned, the base fee on
   the gas used and the blob fee leave the world; no fee product wraps and the transfer check cannot fail
   (`Conservation`, `Execute`). Exactly the sender pays, exactly the sender gets the unused gas back and exactly the
   coinbase gets the tip, account by account (`Payments`).
   Over a block, gas, receipts and balances add up. The nonces taken are exactly those of the senders and of the valid
   authorizations, in order, and none is taken twice. What is burned is exactly what the machine burns, transaction by
   transaction. The first transaction that does not apply is named with its reason (`Process`, `StopsForGood`).

## Where the code falls short of the expectation

- The hash-scheme search for a stateful block dereferences a missing header (core/blockchain.go:859) on some chains
  with a gap. `RewindHashHead` fails if and only if `NilWalk` holds; `GapCrashes` is a concrete case.
- `GetAncestor` (core/headerchain.go:364) takes the zero hash at a number without marker for a canonical block,
  because a missing marker reads as the zero hash. Its contract covers both sides of that condition; the walk finds
  nothing there (`ZeroHashWalk`), and `ZeroHashTaken` is a concrete case.
- The token count of the floor gas (core/state_transition.go:124) and the access-list and authorization costs of the
  intrinsic gas (core/state_transition.go:109-115) are 64-bit sums without overflow check. The contracts give the
  wrapped values.
- Raising a gas limit wraps around near 2^64 (core/block_validator.go:183). `StepWraps` says exactly when one step
  does, and `SteadyIff` that the limits move steadily to the goal if and only if it is not above the `Summit` of the
  climb; otherwise `Falls` gives the step that drops.
- The empty derivation path prints as `m`, which the parser refuses. `PrintThenParse` has both cases.
- Without a stored index tail, blocks below the window that were indexed on import stay indexed
  (core/txindexer.go:116-127), and they stay so on every later start, since nothing below a stored tail is looked at.
  `StaleEntries` is a concrete case, with the first start and the second. `RepairAndRun` leaves exactly the window if
  and only if the stored tail was above the head or below the cutoff, or every indexed block that lies below the window
  and below the stored tail is empty. It also names the blocks then indexed, so that the statement applies to the next
  start.
- `report` (core/txindexer.go:303) wraps if the tail lies more than one above the head, and then says that nothing
  remains to be indexed (`ReportWraps`).
- An unquoted derivation path component from 2^31 on is accepted and is a hardened one (accounts/hd.go:96-113).
  `HardenedIff` says exactly which texts are.

## Model

| member | source | states |
|---|---|---|
| ChainIndex.TxIndexIsExact | core/rawdb/accessors_indexes.go:79-93 | on a chain without repeated transactions the lookup table holds exactly the pairs of a transaction and its block number |
| ChainIndex.ReorgedTxIndex | core/blockchain.go:2447-2494 | writing the new branch over the table and deleting the old transactions it did not bring back leaves exactly the table of the new chain |
| ChainIndex.CollectLogs | core/blockchain.go:2315-2334 | the logs of a block in receipt order: the same data, the flag set when removed and else left alone |
| ChainIndex.LineLogsSplit | core/blockchain.go:2425-2446 | the logs of a stretch of blocks are those of its lower part followed by those of its upper part |
| ChainIndex.WithdrawnAreFlagged | core/blockchain.go:2327-2328 | the withdrawn logs of a branch are its announced ones, one by one, with the flag set |
| ChainIndex.HashDifference | core/types/transaction.go:648-663 | keeps exactly the hashes of the first list that are not in the second, in order and as often as there |
| ChainIndex.DifferenceSplits | core/types/transaction.go:648-663 | what is kept of two lists in a row is what is kept of each, so order and repetitions stay |
| Fork.Level | core/blockchain.go:2348-2365 | brings both heads to one height, stashing the walked blocks of the higher side only |
| Fork.Meet | core/blockchain.go:2366-2387 | walking down together they meet iff the new head leads down to the genesis, at the end of the longest common prefix |
| Fork.FindFork | core/blockchain.go:2342-2387 | succeeds iff the new head leads down to the genesis; returns both branches above the last shared block, top first |
| Fork.ForkFound | core/blockchain.go:2368-2373 | where the two walks meet is the end of the longest common prefix of both chains |
| BlockChains.Enqueue | core/blockchain.go:2435-2441 | queueing and chunked sending loses, repeats and reorders no log; the queue is sent exactly when it exceeds 512 logs |
| BlockChains.Flush | core/blockchain.go:2443-2445 | the remaining logs are sent, and no empty event is |
| BlockChains.BranchIsWithdrawn | core/blockchain.go:2425-2446 | every log sent for a withdrawn branch carries the removed flag |
| BlockChains.CacheSurvives | core/blockchain.go:1209-1216 | adding a block of fresh transactions on top changes no answer already cached |
| BlockChains.LookupIsExact | core/rawdb/accessors_indexes.go:180-200 | a lookup finds a transaction at a number iff it is in the canonical block of that number, and returns its hash and position |
| BlockChains.IndexHead | core/blockchain.go:1209-1216 | writing the head over an index that lacks at most the head completes markers and table and keeps the cache right |
| BlockChains.MarksReorged | core/blockchain.go:2495-2508 | after the new branch is written, the markers up to its second block are exactly the new chain, and those above are contiguous |
| BlockChains.StoreGrows | core/blockchain.go:1574-1584 | storing a block changes no chain, table or cached answer of the blocks already there |
| BlockChains.BlockChain.constructor | core/blockchain.go:1209-1230 | a chain that consists of its genesis is valid |
| BlockChains.BlockChain.WriteHeadBlock | core/blockchain.go:1209-1230 | all stored and in-memory heads become the block; one marker and the block's entries are added |
| BlockChains.BlockChain.EmitRemovedLogs | core/blockchain.go:2425-2446 | the removed-log events grow by exactly the old branch's logs, oldest block first, every one flagged as removed |
| BlockChains.BlockChain.CollectTxs | core/blockchain.go:2447-2456 | collects the transactions of the branch, top block first, which are exactly those the lookup table has for it |
| BlockChains.BlockChain.CollectRebirth | core/blockchain.go:2466-2474 | collects the transactions of the new branch without its head, oldest block first |
| BlockChains.BlockChain.StaleTxs | core/blockchain.go:2492 | the entries to delete are exactly those of the old branch that the new branch does not bring back |
| BlockChains.BlockChain.AdoptBlock | core/blockchain.go:2466-2485 | one block of the new branch becomes head: markers, table and log stream advance by that block |
| BlockChains.BlockChain.ApplyBranch | core/blockchain.go:2465-2488 | markers, table and log stream advance by the new branch without its head, in chain order |
| BlockChains.BlockChain.DeleteStale | core/blockchain.go:2489-2511 | removes exactly the markers above the number and the given entries |
| BlockChains.BlockChain.SwapBranch | core/blockchain.go:2465-2511 | markers and table become exactly those of the new chain without its head |
| BlockChains.BlockChain.Rewire | core/blockchain.go:2411-2516 | swaps one branch for the other in markers, table and both log streams; the cache ends empty and the lock free |
| BlockChains.BlockChain.Reorg | core/blockchain.go:2342-2519 | fails, changing nothing, iff the new head has no complete ancestry; else the index is exactly the new chain up to its head's parent and the log streams moved by the branches |
| BlockChains.BlockChain.GetCanonicalTransaction | core/blockchain_reader.go:332-354 | cached or not, the answer is the database's, and the cache stays in agreement with it |
| BlockChains.BlockChain.CompleteHead | core/blockchain.go:1564-1565 | with lookups in between, putting the head on top leaves exactly its chain indexed |
| BlockChains.BlockChain.Connect | core/blockchain.go:1558-1563 | reorganises unless the block extends the head; the index is then exactly the block's chain without at most the block itself |
| BlockChains.BlockChain.WriteKnownBlock | core/blockchain.go:1557-1566 | markers, table and cache are exactly the chain of the block; fails iff it has no complete ancestry |
| BlockChains.BlockChain.InstallHead | core/blockchain.go:1656-1671 | as above, and the head's logs follow those of its branch |
| BlockChains.BlockChain.AnnounceHead | core/blockchain.go:2562-2566 | the head's logs are sent once, and no empty event is |
| BlockChains.BlockChain.SetCanonical | core/blockchain.go:2539-2580 | the head becomes the block iff its state can be had and its ancestry is complete; log streams are exactly the two branches, the withdrawn one flagged |
| BlockChains.BlockChain.StoreBlock | core/blockchain.go:1574-1584 | block and body are stored and no marker is touched |
| BlockChains.BlockChain.StoreEligible | core/blockchain.go:1570-1584 | a stored block with a known parent can become head, and has a complete ancestry iff its parent had one |
| BlockChains.BlockChain.WriteBlockAndSetHead | core/blockchain.go:1652-1681 | unknown parent iff the parent is not stored; else stored, and head iff the parent has a complete ancestry; log streams are exactly the two branches, the withdrawn one flagged |
| BlockChains.BlockChain.Apply | core/blockchain.go:1557-1566 | each of the three operations keeps the index exact and moves the head as specified |
| BlockChains.BlockChain.Run | core/blockchain.go:2342-2580 | every run of the three operations, with any lookups before each head change, keeps the index exact and ends on the block that became head last |
| HeaderChains.HeaderChain.MarkersAbove | core/headerchain.go:137-144 | collects exactly the markers above the last header of the batch |
| HeaderChains.HeaderChain.CrossLink | core/headerchain.go:145-163 | stages exactly the markers between the cross link and the first header, and each of the old ones there was wrong; missing parent iff no complete ancestry; the break at number 0 is never taken |
| HeaderChains.HeaderChain.ExtendMarks | core/headerchain.go:165-176 | stages exactly the markers of the batch on top |
| HeaderChains.HeaderChain.StageFork | core/headerchain.go:136-164 | off the head: exactly the markers above the batch are deleted, and those down to the cross link staged, where every marker below the first header was wrong |
| HeaderChains.HeaderChain.StageChild | core/headerchain.go:165-176 | on the head: exactly one marker is staged, right above the old chain |
| HeaderChains.HeaderChain.constructor | core/headerchain.go:181-183 | a chain that consists of its genesis is valid |
| HeaderChains.HeaderChain.StageFirst | core/headerchain.go:131-164 | staged markers plus the untouched part below are the first header's ancestry, in both branches |
| HeaderChains.HeaderChain.Stage | core/headerchain.go:122-177 | the staged write applied to the markers leaves exactly the last header's ancestry |
| HeaderChains.HeaderChain.Reorg | core/headerchain.go:122-186 | markers become exactly the last header's ancestry; a missing parent changes nothing |
| HeaderChains.HeaderChain.WriteHeaders | core/headerchain.go:192-237 | unknown ancestor iff the first parent is not stored; else the store is merged with the batch and the count excludes exactly the known prefix |
| HeaderChains.HeaderChain.ImportHeaders | core/headerchain.go:247-251 | importing keeps the chain valid, and the last header gains an ancestry iff the parent had one |
| HeaderChains.HeaderChain.WriteHeadersAndSetHead | core/headerchain.go:247-274 | markers are exactly the current header's ancestry; a batch ending on the canonical chain never shortens it; a missing parent moves no marker |
| HeaderChains.CrossLinked | core/headerchain.go:153 | meeting one right marker means the chains agree from there down |
| HeaderChains.MarksMoved | core/headerchain.go:137-154 | deleting above and overwriting from the cross link turns one chain's markers into the other's |
| HeaderChains.Imported | core/headerchain.go:192-237 | storing a batch leaves the current ancestry alone and gives the batch one iff its parent had one |
| Ancestors.WalkMarks | core/headerchain.go:364-369 | along linked markers the k-step parent walk is one lookup |
| Ancestors.VisitedIs | core/headerchain.go:364-383 | the budget counts the blocks off the chain that the walk goes through one after the other until it is done, on the chain, or finds nothing |
| Ancestors.GetAncestor | core/headerchain.go:352-384 | equals the plain parent walk; fails only for k above the number, a missing header or an exhausted budget; the budget drops by the non-canonical blocks visited, unless k is 1 |
| Ancestors.ZeroHashWalk | core/headerchain.go:364-369 | for the zero hash at a number without marker the parent walk finds nothing, so the shortcut agrees with it iff the number k below has no marker either |
| Ancestors.ZeroHashTaken | core/headerchain.go:364 | a concrete chain on which the shortcut answers for the zero hash with a block, where the walk finds nothing |
| Rewind.HashSearchOutcome | core/blockchain.go:818-860 | on any store the search terminates, fails iff it walks into a gap with state above it, and otherwise ends on state or the genesis |
| Rewind.GapCrashes | core/blockchain.go:859 | a concrete gapped chain on which the search dereferences a missing header |
| Rewind.SearchLimitIs | core/blockchain.go:811-815 | the search goes down to the pivot if there is one, else 90000 blocks or to the genesis |
| Rewind.HashSearchBest | core/blockchain.go:818-860 | on a complete chain the result is the highest block within the limit that has state and is at or past the requested root, else the genesis |
| Rewind.RewindHashHead | core/blockchain.go:788-861 | the loop has that outcome, and reports the highest block with the requested root |
| Rewind.PathSearchOutcome | core/blockchain.go:881-927 | on any store the search ends on a state, a recoverable state or the genesis |
| Rewind.PathSearchKeeps | core/blockchain.go:881-936 | what is found other than the genesis has its state available or recoverable |
| Rewind.PathSearchBest | core/blockchain.go:881-927 | on a complete chain the result is the highest acceptable block, and a reported number is the highest block with the root |
| Rewind.SearchPath | core/blockchain.go:881-927 | the loop computes that search |
| Rewind.RewindPathHead | core/blockchain.go:864-936 | additionally the state of a non-genesis result is available afterwards |
| SetHeads.RewindHead | core/blockchain.go:946-951 | in both schemes, on a complete chain, the result is the highest acceptable block and, other than the genesis, has state; the reported number is that of the highest block with the requested root |
| SetHeads.SearchedIsBest | core/blockchain.go:946-951 | the search finds the highest acceptable block and makes at most its state available |
| SetHeads.FoundIsLocated | core/blockchain.go:985 | a reported number names a block of the chain with the requested root |
| SetHeads.SnapIs | core/blockchain.go:1007-1022 | the snap block of every height: the old one if low enough, else the header there if all bodies from there up to the old one are stored, and otherwise the genesis |
| SetHeads.BlockStays | core/blockchain.go:979-983 | a head block below the head header is not searched for again |
| SetHeads.BlockIsBest | core/blockchain.go:983-1006 | any other head block is the highest acceptable one at or below the header, and the reported number that of the requested root |
| SetHeads.LoweredKeeps | core/blockchain.go:979-1036 | lowering the header keeps the head block at or below it, never raises it and does not trade state for none |
| SetHeads.RouteStep | core/headerchain.go:557-564 | one more step down determines heads and aim |
| SetHeads.ForcedIff | core/headerchain.go:557-564 | the target is replaced iff some head block on the way lies below the frozen part, is not below the pivot, and misses the original target |
| SetHeads.StaysOnCourse | core/headerchain.go:540-572 | each round keeps heads and aim as determined; a forced aim lies below the frozen part, at the head block unless that fell below the pivot |
| SetHeads.Arrives | core/headerchain.go:534-540 | stopping means: unforced, the highest header that meets the target; forced, the block aimed for |
| SetHeads.CourseHolds | core/headerchain.go:540-572 | at every height the rewind gets to, heads and aim are as they should be |
| SetHeads.EndIsMet | core/headerchain.go:534-540 | the rewind ends at the first height, from the top, whose header meets the aim it has there |
| SetHeads.ArrivesAt | core/headerchain.go:534-540 | there it has arrived |
| SetHeads.NoHoleLeft | core/blockchain.go:1023-1036 | where a rewind stops, the cut ancient store does not reach beyond the head block unless that lies below the pivot or, in a rewind to a time, is not older than that time, which growing timestamps rule out |
| SetHeads.HeadsAtEnd | core/blockchain.go:1007-1036 | snap block and head block at the end |
| SetHeads.EndMeans | core/headerchain.go:534-572 | the computed end has all of these properties |
| SetHeads.LowStays | core/headerchain.go:585-638 | the deletions leave everything up to the new head readable |
| SetHeads.MarkersReadLine | core/headerchain.go:604-605 | reading the markers gives exactly the chain and nothing above its end |
| SetHeads.HeadsAreDurable | core/headerchain.go:566-569 | placed heads are readable with their full ancestry after a restart |
| SetHeads.HeadSurvives | core/headerchain.go:608-637 | a head at or below the new head header stays readable with its ancestry after each of the two deletions |
| SetHeads.HeadsSurvive | core/headerchain.go:608-637 | so do all three heads together |
| SetHeads.CutIsSound | core/headerchain.go:608-638 | each durable state of the deletions keeps all heads readable, and the last is a consistent cut chain without forks above |
| SetHeads.LoggedGrows | core/headerchain.go:566-571 | one more round appends exactly its marker batch to what is durable |
| SetHeads.BatchesAre | core/headerchain.go:566-571 | the marker batches come from the top down, exactly one for each height |
| SetHeads.CutsAre | core/headerchain.go:608-638 | first only the key-value store changes, then only the ancient store, and only if it reaches higher |
| SetHeads.TrailEnds | core/headerchain.go:608-638 | the deletions after the marker batches complete the sequence of durable states |
| SetHeads.CutEndsTrail | core/headerchain.go:608-638 | the deletions complete the durable states and leave the chain cut |
| SetHeads.ConsistentAfter | core/headerchain.go:608-637 | what is left is consistent with the chain cut at the new head |
| SetHeads.ForksAreGone | core/headerchain.go:574-606 | above the new head no header is left up to the first empty height above the old head, nor its number entry or unfrozen body; nothing at or below the new head is lost, and nothing new appears |
| SetHeads.DoomLeftovers | core/headerchain.go:574-583 | the first round marks every height above the old head up to the first empty one |
| SetHeads.Node.UpdateHeads | core/blockchain.go:979-1036 | head block, snap block, available states and reported number are the determined ones; a snap block above the header becomes the header iff its body is stored, else the genesis; wiping is asked for iff the head block lies below the frozen part and not below the pivot |
| SetHeads.Node.LowerBlock | core/blockchain.go:983-1006 | a head block not below the header is replaced by the highest acceptable one, which has state; the stateless non-genesis crash is unreachable |
| SetHeads.Node.constructor | core/headerchain.go:570-571 | a database that consists of its genesis is valid |
| SetHeads.Node.LowerHead | core/headerchain.go:540-572 | the head header moves down the chain by one; heads and wipe flag are the determined ones; exactly one marker batch becomes durable, with readable heads |
| SetHeads.Node.Approach | core/headerchain.go:540-572 | one round: the header is lowered, heads and aim are those determined for that height, and its marker batch is the only new durable state |
| SetHeads.Node.MarkLeft | core/headerchain.go:574-606 | the height just left, with all its forks, is marked for deletion |
| SetHeads.Node.Descend | core/headerchain.go:534-607 | terminates at the determined end of the rewind, with its heads; exactly the marker batches of the heights passed became durable, in order; all heights above are marked |
| SetHeads.Node.Cut | core/headerchain.go:608-638 | first the deletions become durable in one batch, then, if it reaches higher, the cut of the ancient store; nothing else changes |
| SetHeads.Node.Delete | core/headerchain.go:608-638 | the deletions complete the sequence of durable states and leave a valid cut chain without forks above it, and the heads as they are |
| SetHeads.Node.RewindTo | core/headerchain.go:534-638 | descent and deletions together: the exact durable states, the end of the rewind, the valid cut chain, the forks gone |
| SetHeads.Node.SetHead | core/headerchain.go:515-638 | rejects a time before the genesis, changing nothing; else the durable states are exactly a marker batch for each height on the way down, the deletions and the cut of the ancient store, in this order and all with readable heads; it ends exactly where the rewind has to, forced iff a head block on the way was wiped below the target, on a valid cut chain, forks gone, a stateful head block still stateful, the snap block in closed form, and no hole between ancient store and head block but in the stated case |
| CaseLists.FindCaseFinds | event/feed.go:203-210 | the first index with the channel, or -1 iff there is none |
| CaseLists.Find | event/feed.go:203-210 | the loop over the array finds that index |
| CaseLists.Delete | event/feed.go:213-215 | in place, the list becomes the list without the case, in order |
| CaseLists.Deactivate | event/feed.go:218-222 | in place, the case moves behind the active part |
| CaseLists.WithoutAt | event/feed.go:213-215 | after a deletion every case behind it stands one place further up |
| CaseLists.DeactivatedAt | event/feed.go:218-222 | after a deactivation the case and the last active one have changed places |
| CaseLists.CountDeactivated | event/feed.go:218-222 | deactivating changes the number of cases of no channel |
| Feeds.InitialOk | event/feed.go:60-66 | a fresh feed satisfies the invariant |
| Feeds.LookupSucceeds | event/feed.go:108-115 | an unsubscriber that missed the inbox finds its channel in the send list, above slot 0 |
| Feeds.SubscribeKeeps | event/feed.go:86-92 | subscribing keeps the invariant |
| Feeds.InboxRemovalKeeps | event/feed.go:99-105 | removing from the inbox keeps it |
| Feeds.MissKeeps | event/feed.go:99-106 | missing the inbox means the case is in the send list |
| Feeds.LockedRemovalKeeps | event/feed.go:111-114 | removing under the send lock keeps the invariant, without panic |
| Feeds.MergeKeeps | event/feed.go:130-144 | merging the inbox keeps the invariant and starts the books of a send |
| Feeds.DeliverKeeps | event/feed.go:149-155 | a delivery goes to a case not served before and moves it out of the active part |
| Feeds.SelectRemovalKeeps | event/feed.go:161-167 | a removal during a send shrinks the active part iff the case was active |
| Feeds.EndKeeps | event/feed.go:156-158 | a send that ends has kept its promise |
| Feeds.StepKeepsInv | event/feed.go:73-180 | every step of every participant keeps the invariant |
| Feeds.StepMovesCases | event/feed.go:73-180 | subscribing puts a new case into the inbox, unsubscribing takes exactly one case of its channel out, merging moves the whole inbox to the send list, and no other step adds or drops a case |
| Feeds.StepKeepsBooks | event/feed.go:120-180 | a send starts with all cases of both lists; a delivery adds exactly the chosen case, a removal exactly the removed one, and no other step touches the books |
| Feeds.NobodyIsStuck | event/feed.go:86-180 | in every state whoever holds the lock can go on, a free lock can be taken, and a blocked send can serve every unserved case and every waiting unsubscriber |
| Feeds.RunKeepsInv | event/feed.go:73-180 | so does every run |
| Feeds.RunsAreSafe | event/feed.go:73-180 | the invariant holds after every interleaving |
| Feeds.FinishedSends | event/feed.go:120-180 | every finished send delivered exactly once to each subscription not removed, at most once to a removed one, returned the number of deliveries, and left slot 0 and exactly the remaining cases |
| Feeds.StartIsReported | event/feed.go:120-180 | whatever happens meanwhile, a send reports what it started with |
| Feeds.SubscribersAreServed | event/feed.go:120-180 | over every run, all subscriptions in either list when a send merges got the value when it reports, unless removed during it, and nobody else did |
| Feeds.ReadySend | event/feed.go:145-158 | a send whose subscribers are all ready serves them all and ends |
| Feeds.SendProgresses | event/feed.go:145-172 | each delivery and each removal lowers active plus listed cases |
| Feeds.OthersKeepWork | event/feed.go:86-116 | nobody else touches the list or the books of a running send |
| Gas.ToWordSize | core/state_transition.go:135-141 | the number of words rounded up, without overflow |
| Gas.CountZeroCounts | core/state_transition.go:83 | exactly the zero bytes are counted |
| Gas.AddUnits | core/state_transition.go:91-94 | the division guard reports an overflow exactly when the sum leaves 64 bits |
| Gas.DataGas | core/state_transition.go:72-108 | the data cost in unbounded arithmetic, or an overflow iff it exceeds 64 bits |
| Gas.ByteCost | core/state_transition.go:72-103 | a call costs 21000 gas, a zero byte 4 more, any other byte 16 more, or 68 before Istanbul |
| Gas.CreationCost | core/state_transition.go:75-108 | a creation costs 32000 gas more from Homestead on, and 2 more for every word from Shanghai on |
| Gas.UniformCost | core/state_transition.go:83-125 | gas and tokens of data with only zero bytes and of data with none, in figures |
| Gas.IntrinsicGas | core/state_transition.go:71-117 | overflow iff the data cost exceeds 64 bits; the result is the whole cost modulo 2^64 |
| Gas.FloorDataGas | core/state_transition.go:120-132 | the floor of the token count modulo 2^64, or an overflow |
| Gas.GasPool.AddGas | core/gaspool.go:29-35 | adds; the panic is a precondition every caller meets |
| Gas.GasPool.SubGas | core/gaspool.go:39-45 | fails, taking nothing, iff not enough is left |
| Worlds.TotalSet | core/state_transition.go:654 | changing one account changes the total balance by its change |
| Worlds.CreditIsExact | core/state_transition.go:652-654 | a credit that keeps the total below 2^256 does not wrap and touches no other account |
| Worlds.DebitIsExact | core/state_transition.go:301-302 | a covered debit does not underflow and changes nothing but that balance |
| StateTransitions.UpFrontIsCovered | core/state_transition.go:262-290 | the price lies between base fee and cap, and the purchase leaves the value to transfer |
| StateTransitions.BlobsCost | core/state_transition.go:262-290 | what is debited and what must be there, in figures, blobs included |
| StateTransitions.SettledBounds | core/state_transition.go:524-536 | for every refund counter and leftover: floor <= gas used <= limit after Prague, and at least four fifths of the gas is paid after London |
| StateTransitions.RefundIs | core/state_transition.go:632-648 | the refund is the largest number within the counter and a fifth of the gas used, a half before London |
| StateTransitions.UsedIs | core/state_transition.go:522-536 | the gas used is what the machine took less the refund, after Prague at least the floor |
| StateTransitions.FeesBalance | core/state_transition.go:541-556 | the sender's loss is the coinbase's gain plus the base fee on the gas used |
| StateTransitions.ConsumeKeepsLedger | core/state_transition.go:498-499 | taking an account's current nonce repeats no earlier one |
| StateTransitions.AuthorizedKeeps | core/state_transition.go:604-628 | a valid authorization raises one nonce by one, keeps balances and overwrites no contract code |
| StateTransitions.AuthorizationIs | core/state_transition.go:573-628 | which authorizations have no effect, and what exactly any other one changes and earns |
| StateTransitions.AuthsApplyInOrder | core/state_transition.go:501-507 | of two lists in a row the second meets the world the first left, and the refunds add up |
| StateTransitions.TakenInOrder | core/state_transition.go:501-507 | likewise the nonces taken |
| StateTransitions.NonceTaken | core/state_transition.go:498-499 | a call takes the sender's nonce and keeps the ledger unless that nonce is exhausted |
| StateTransitions.PurchaseIsExact | core/state_transition.go:284-302 | the debit is the exact up-front cost and leaves at least the value |
| StateTransitions.AmountsAddUp | core/state_transition.go:543-556 | no fee product wraps; refund, fee, base fee and blob fee add up to the purchase |
| StateTransitions.AmountsAre | core/state_transition.go:541-556 | the sender gets back the unused gas at its price, the coinbase the tip on the gas used |
| StateTransitions.AmountsBeforeLondon | core/state_transition.go:541-556 | before London the coinbase gets the whole price of the gas used |
| StateTransitions.PaidTo | core/state_transition.go:541-556 | who is credited with what, for every account and in wrapping arithmetic |
| StateTransitions.ShareIsExact | core/state_transition.go:541-556 | without wrapping every account gets exactly its share and keeps nonce and code |
| StateTransitions.SharesAreExact | core/state_transition.go:541-556 | without wrapping every account gets exactly its share |
| StateTransitions.SettlementIsExact | core/state_transition.go:541-556 | after the payments exactly base fee, blob fee and what was burned are gone |
| StateTransitions.PreparedKeepsTotal | core/state_transition.go:497-507 | taking nonces and applying authorizations moves no balance |
| StateTransitions.PurchaseIsPaid | core/state_transition.go:284-302 | when the machine starts exactly the sender has paid, exactly for its gas and blobs |
| StateTransitions.Conservation | core/state_transition.go:418-570 | for every machine within its assumptions and every accepted message after London with fee checks on, the total balance drops by exactly what was burned, the base fee on the gas used and the blob fee |
| StateTransitions.Payments | core/state_transition.go:418-570 | for every machine within its assumptions, account by account: the sender alone pays before, and sender and coinbase alone get their shares after the machine ran |
| StateTransitions.StateTransition.BuyGas | core/state_transition.go:262-304 | insufficient funds iff the caps and the value exceed the balance or 256 bits, gas limit reached iff the pool has less; else gas leaves the pool and the price the account |
| StateTransitions.StateTransition.PreCheck | core/state_transition.go:306-406 | gas is bought iff every check passes; otherwise nothing changes and the first failing check names the error |
| StateTransitions.PurchaseMeans | core/state_transition.go:306-406 | passing the checks means the fee conditions hold, the balance covers the caps and the value, and the nonce is current and not the last |
| StateTransitions.AcceptedIff | core/state_transition.go:306-406 | the conditions under which gas is bought, all of them and no other |
| StateTransitions.FirstErrorIs | core/state_transition.go:306-406 | the error returned is that of the first condition that holds, in this order |
| StateTransitions.ChargeErrorIs | core/state_transition.go:441-484 | likewise once the gas is bought |
| StateTransitions.StateTransition.ApplyAuthorization | core/state_transition.go:573-628 | applied iff chain, nonce range, signature, code and current nonce fit; then exactly nonce, delegation and refund change |
| StateTransitions.StateTransition.ApplyAuthorizations | core/state_transition.go:501-507 | the list applies in order; exactly the nonces of the valid authorizations are taken, none twice and none lowered; balances and contract code stay |
| StateTransitions.StateTransition.IntrinsicCost | core/state_transition.go:441-449 | the wrapped intrinsic gas, or the overflow or too-low error, each exactly when due |
| StateTransitions.StateTransition.FloorCost | core/state_transition.go:450-459 | the floor that applies, or the overflow or too-low error, each exactly when due |
| StateTransitions.IntrinsicIs | core/state_transition.go:71-117 | the intrinsic gas of every message for which it fits 64 bits, in figures |
| StateTransitions.FloorIs | core/state_transition.go:120-132 | the floor in figures: 40 gas for every byte that is not zero and 10 for every zero |
| StateTransitions.StateTransition.ChargeIntrinsic | core/state_transition.go:441-484 | exactly the intrinsic gas is charged, or the first of intrinsic, floor, transfer and init code errors is returned |
| StateTransitions.StateTransition.Begin | core/state_transition.go:429-484 | returns the first error there is; without one exactly the purchase and the intrinsic gas are charged, nonces stay, and with fee checks on the transfer check cannot fail |
| StateTransitions.StateTransition.PrepareCall | core/state_transition.go:497-507 | the sender's nonce is taken first, then exactly those of the valid authorizations in order; none is taken twice |
| StateTransitions.StateTransition.RunMessage | core/state_transition.go:495-520 | the machine gets exactly the prepared world, the remaining gas and the refund counter; exactly the sender's nonce and, in a call, those of the valid authorizations are taken |
| StateTransitions.StateTransition.SettleGas | core/state_transition.go:522-540 | refund and floor leave the settled amount; the peak is the larger of the gas used before the refund and, after Prague, the floor |
| StateTransitions.StateTransition.Pay | core/state_transition.go:543-562 | the sender is credited with the unused gas and the coinbase with the fee, unless fees are switched off, and nobody else |
| StateTransitions.StateTransition.Finish | core/state_transition.go:522-569 | world and result follow from what the machine returned, and the pool gets back exactly what was not used |
| StateTransitions.StateTransition.Conclude | core/state_transition.go:495-569 | machine run and settlement taken together compute the specified outcome and take exactly the message's nonces |
| StateTransitions.StateTransition.Execute | core/state_transition.go:418-570 | returns the first error there is; without one world, gas used, peak and failure follow from the machine's result; pool down by the gas used, floor <= gas used <= limit, the peak not below the intrinsic gas; exactly the message's nonces are taken, none on an error, and none twice; after London with fee checks on exactly the sender paid for gas and blobs, got the unused gas back, and the coinbase got the tip |
| StateProcessors.TransactionToMessage | core/state_transition.go:172-199 | fails iff the signature does; copies the transaction; after London the price is the smaller of fee cap and tip plus base fee |
| StateProcessors.CumulativeGrows | core/state_processor.go:160-174 | appending a receipt keeps every cumulative sum right |
| StateProcessors.NoReplayGrows | core/state_processor.go:93-106 | a new transaction repeats no sender and nonce of the earlier ones |
| StateProcessors.ApplyTransaction | core/state_processor.go:139-168 | rejected exactly when and why execution is; else world, pool, refund counter and receipt follow from the machine's result, exactly its nonces are taken, and the total balance drops by exactly what the machine burned, base fee and blob fee |
| StateProcessors.Next | core/state_processor.go:93-106 | one round of the loop keeps everything promised so far, nonces and burned amounts included, or names the transaction that stops the block and why, taking no nonce |
| StateProcessors.KeptGrows | core/state_processor.go:93-106 | the books of one more transaction are those of the machine at the point it starts from |
| StateProcessors.SettlingGrows | core/state_processor.go:93-106 | one more transaction that balances keeps receipts, nonce ledger and totals in balance with the books |
| StateProcessors.TracesAgree | core/state_processor.go:93-106 | the points between the transactions of a block are determined |
| StateProcessors.StopsForGood | core/state_processor.go:95-103 | where a block is stopped, no way of processing it goes on |
| StateProcessors.RefundsStartAtZero | core/state_processor.go:139-168 | every transaction after the first starts with an empty refund counter |
| StateProcessors.Process | core/state_processor.go:57-106 | all transactions are processed, or it stops at the first that does not apply, with its reason; receipts are cumulative and show gas and status of each; gas stays within the limits; the nonces taken are exactly those of the processed messages in order, none twice; and the total drops by exactly what the machine burned over the points of the block, base fees and blob fees |
| HashFns.WalkSnoc | core/evm.go:120-127 | a walk is extended at its end by one parent step |
| HashFns.CacheGrows | core/evm.go:125 | headers stored later do not invalidate the cache |
| HashFns.AnswerIsAncestor | core/evm.go:98-134 | on a complete chain the answer is the hash of the ancestor with that number |
| HashFns.HashFn.Query | core/evm.go:103-133 | equals the uncached walk; entry i of the cache is the hash of block ref-1-i, also after a walk that met a missing header; never below the genesis |
| HashFns.HashFn.Queries | core/evm.go:98-134 | every sequence of queries gets the uncached answers |
| TxIndexers.ShowsMore | core/rawdb/chain_iterator.go:217 | writing the entries of a block adds exactly that block to those indexed, whether it was there or not |
| TxIndexers.ShowsLess | core/rawdb/chain_iterator.go:310 | deleting the entries of a block takes exactly that block out |
| TxIndexers.ShowsIsUnique | core/txindexer.go:44-48 | the set of indexed blocks determines the table |
| TxIndexers.WindowIs | core/txindexer.go:44-48 | the window holds the last limit blocks, or all without a limit, but none below the cutoff |
| TxIndexers.ShowsImport | core/blockchain.go:1215 | importing the next block adds exactly that block |
| TxIndexers.WindowIff | core/txindexer.go:116-127 | a table is exactly the window iff every block in which the two differ is empty |
| TxIndexers.StaleEntries | core/txindexer.go:116-127 | a concrete first start after which an entry below the window remains, and the second start does nothing |
| TxIndexers.FinishedAtWindow | core/txindexer.go:105-148 | a finished task leaves the tail at the start of the window |
| TxIndexers.StartShows | core/txindexer.go:105-212 | after repair and a finished run exactly the window is indexed and those stale blocks below that repair did not delete |
| TxIndexers.TxIndexer.DrainDown | core/rawdb/chain_iterator.go:205-236 | what is queued without a gap is added to the indexed blocks, the rest stays queued |
| TxIndexers.TxIndexer.DrainUp | core/rawdb/chain_iterator.go:299-331 | what is queued without a gap is taken out of the indexed blocks, the rest stays queued |
| TxIndexers.TxIndexer.IndexTransactions | core/rawdb/chain_iterator.go:182-246 | blocks arriving in any order: the stored tail is where the first gap is, and exactly the blocks from it on are added |
| TxIndexers.TxIndexer.UnindexTransactions | core/rawdb/chain_iterator.go:278-340 | likewise upwards: exactly the blocks below the stored tail are taken out |
| TxIndexers.TxIndexer.Repair | core/txindexer.go:155-212 | a tail survives only within cutoff and head; a bad one deletes everything, one below the cutoff exactly what lies below it, stale blocks included |
| TxIndexers.TxIndexer.Run | core/txindexer.go:105-148 | interrupted or not, on a chain that may have grown meanwhile, tail and indexed blocks are exactly determined; finished, the tail is the start of the window |
| TxIndexers.TxIndexer.RepairAndRun | core/txindexer.go:239-249 | the indexed blocks are exactly determined, again from the stored tail on; they are exactly the configured window iff the stored tail was above the head or below the cutoff, or all indexed blocks below both the window and the stored tail are empty |
| TxIndexers.ReportIsExact | core/txindexer.go:282-315 | the remaining count is the part of the window below the tail |
| TxIndexers.CompleteStaysComplete | core/txindexer.go:282-315 | a finished window is reported complete for its head and all later heads |
| TxIndexers.ReportWraps | core/txindexer.go:301-304 | a tail more than one above the head makes the indexed count wrap, and nothing remaining is reported |
| TxIndexers.NeverTwoTasks | core/txindexer.go:229-279 | over every run at most one task is active, none after shutdown, and when idle the published tail is the stored one |
| TxIndexers.EventDoes | core/txindexer.go:250-279 | what each event does: a head starts exactly one new task iff the loop waits for none, the end of a task publishes the stored tail, an answered shutdown leaves no task |
| TxIndexers.LoopGoesOn | core/txindexer.go:250-279 | the loop is not stuck before it has terminated, and nothing happens afterwards |
| TxIndexers.ShutdownIsFinal | core/txindexer.go:268-279 | over every run no task starts once shutdown is asked for |
| TrieGCs.AboveWithout | core/blockchain.go:1640 | taking out one entry lowers exactly the counts it contributes to |
| TrieGCs.QueuedIsCounted | core/blockchain.go:1600-1601 | a queued root has a reference |
| TrieGCs.TrieGC.Pop | core/blockchain.go:1640 | the entry with the lowest number |
| TrieGCs.TrieGC.Release | core/blockchain.go:1638-1646 | nothing at or below the chosen number stays queued, everything above stays as often as before, references agree |
| TrieGCs.TrieGC.WriteBlock | core/blockchain.go:1600-1646 | references equal multiplicities in the queue; after block n above 128 nothing at or below n-128 is queued and nothing above was released |
| TrieGCs.TrieGC.Stop | core/blockchain.go:1305-1307 | the drain brings every count to zero |
| TrieGCs.TrieGC.Run | core/blockchain.go:1600-1646 | any blocks in any order followed by a shutdown leave no reference |
| GasLimits.StepApproaches | core/block_validator.go:174-195 | a step moves towards the goal by less than parent/1024, never past it and never below the minimum |
| GasLimits.StepIs | core/block_validator.go:174-195 | a step goes by exactly parent/1024 - 1 towards the goal, or onto it if it is nearer |
| GasLimits.StepWraps | core/block_validator.go:175-187 | a raise wraps around, lowering the limit, iff limit plus delta leaves 64 bits |
| GasLimits.WrapsFrom | core/block_validator.go:181-187 | below the goal, raising wraps iff the limit is at least the bound |
| GasLimits.StepTowards | core/block_validator.go:174-195 | a goal within reach stays within reach |
| GasLimits.Converges | core/block_validator.go:174-195 | a goal within reach is reached after at most distance many steps and kept |
| GasLimits.NoOvershoot | core/block_validator.go:174-195 | towards a goal within reach every limit on the way lies between start and goal |
| GasLimits.Falls | core/block_validator.go:181-187 | a goal out of reach: the climb gets to its summit below the goal, and the next step drops |
| GasLimits.SteadyIff | core/block_validator.go:174-195 | the limits move steadily, without overshoot or setback, iff the goal is within reach |
| DerivationPaths.ParseDerivationPath | accounts/hd.go:68-118 | the loop computes the specified path or rejects |
| DerivationPaths.AppendComponents | accounts/hd.go:91-117 | appends all components, or gives up iff one is not acceptable |
| DerivationPaths.ReadComponent | accounts/hd.go:92-113 | computes the specified component: an integer in its range, with 2^31 added if quoted |
| DerivationPaths.HardenedIff | accounts/hd.go:96-113 | an accepted component is hardened iff it is quoted or a plain number from 2^31 on |
| DerivationPaths.RangeIs | accounts/hd.go:103-113 | which numbers are accepted, plain and quoted, and that negative ones are not |
| DerivationPaths.SpacesAreIgnored | accounts/hd.go:92-99 | spaces around a component change nothing |
| DerivationPaths.ScanIsValue | accounts/hd.go:101 | digits are read as the number they denote in their base |
| DerivationPaths.ReadIff | accounts/hd.go:101 | exactly the texts of digits with single underscores between them are read |
| DerivationPaths.UnderscoreIsIgnored | accounts/hd.go:101 | an underscore between digits changes nothing |
| DerivationPaths.PrefixSelectsBase | accounts/hd.go:101 | 0b, 0o and 0x select base 2, 8 and 16 |
| DerivationPaths.OctalNumber | accounts/hd.go:101 | a mere 0 in front selects base 8 |
| DerivationPaths.SignIs | accounts/hd.go:101 | a sign in front is read |
| DerivationPaths.DigitIs | accounts/hd.go:101 | the sixteen digits in either case |
| DerivationPaths.SpacesAre | accounts/hd.go:92 | the white space of Unicode, character by character |
| DerivationPaths.ToString | accounts/hd.go:122-136 | the loop prints the specified text |
| DerivationPaths.ComponentRoundTrip | accounts/hd.go:92-113 | every 32-bit component, hardened or not, is read back from its print |
| DerivationPaths.PrintThenParse | accounts/hd.go:68-136 | every non-empty path is read back from its print; the empty one is refused |
| DerivationPaths.ParsePrintParse | accounts/hd.go:68-136 | the print of an accepted text means the same path |
| DerivationPaths.PrintIsInjective | accounts/hd.go:122-136 | different paths print differently |
| DerivationPaths.RelativeIsBelowRoot | accounts/hd.go:71-89 | a relative path is the absolute one appended to the default root |

## Left out

- Snap-sync insertion, `insertChain`, side-chain import and `writeBlockWithoutState`: the head header and head block part ways there, and the rest is consensus and trie code.
- Header, body and number caches of the header chain and their purging; the interrupt path of `WriteHeaders`.
- Early returns inside `reorg` for stored headers without a body; every stored header is assumed to have one.
- Chain events other than logs, metrics, tracing hooks, timers and log output.
- The repair mode of `setHeadBeyondRoot`, the safe and finalized markers, and light mode without a delete callback.
- BlockChains.BlockChain.SetCanonical: the re-execution of ancestors without state is reduced to its outcome, because it runs the block import that is left out above.
- The least-recently-used eviction of the lookup cache: an evicted answer is simply read again.
- Concurrent database writes between a lookup's read and its cache insertion: the lookup holds the read lock, and the steps are taken as atomic.
- `Feed.Send` as one method: its loop is a step relation, so that other participants can act between any two steps; the type checks and panics on wrong channel types are not modelled. `event/feedof.go` is the same algorithm.
- The virtual machine, state database and tries: the machine may not raise the total balance, lower a nonce or return more gas than it got; account deletion at the end of a transaction is not modelled.
- System calls, withdrawals, requests, block rewards and the receipts' logs and blooms in `Process`.
- Access lists and warm addresses, verkle access events, and the byte encoding of delegation designators.
- Signature recovery and blob hash versions: their outcome is part of the message.
- StateTransitions.StateTransition.Execute: claims no rollback on errors, because the code keeps what was debited and the caller rejects the block.
- The concurrent iterators behind transaction indexing: the order of deliveries is arbitrary, batch flushes in between are not modelled.
- TxIndexers.TxIndexer.RepairAndRun: takes the blocks from a stored tail on to be indexed, as core/txindexer.go:102-104 does, and the lookup entries of blocks that a rewind removed (core/blockchain.go:1055) are not modelled.
- TrieGCs.TrieGC.Run: leaves out `Cap`, `Commit` and the flush interval, which touch no reference count.
- JSON forms and iterators of derivation paths; integer literals follow Go's `big.Int.SetString` with base 0.
