# Verification of the autobee ordering engine

Autobee merges the logs of many writers into one linear order. This project models that engine in
Dafny and proves that it does what the repository says it does:

- **The order.** A batch that arrives is inserted by a walk over the end of the applied order
  (`lib/topo.js`). The repository defines the same order in one shot, by weight strata, as a
  recursive construction over the set of nodes (`reference/order.js`). Both are proved equal to
  one flat definition, `Graphs.AntiKahn`: repeatedly take the greatest causally maximal batch and
  fill the sequence from its end. So the walk settles on the reference order for every set of
  batches and every causal arrival order.
- **The machine around it.** Reading a bounded window of the log, rewinding to the snapshot below
  the first difference and re-applying the rest (`index.js`, `lib/system.js`) leaves the state that
  a fold over the canonical order gives, with at most one rewind for each arriving batch. Peers
  that ingest the same batches through the gate of `lib/writers.js` hold the same log, frontier,
  hash and view.
- **The network.** In every reachable network of peers that append and ingest in any order, each
  log is the canonical order of what its peer applied, and every peer can catch up to the
  canonical order of everything. Nothing is assumed there about the batches that exist, except
  that no append reads its hint too late; a run in which some do ends in a wrong order.
- **Weights and promotions.** The ceiling on weights, the monotone standing of writers, and exactly
  what every record, hint and request is after a log (`lib/witness.js`, `lib/system.js`), and the
  digest that says which tiers are still wanted (`lib/promotions.js`).
- **The structures it runs on.** Trigger lists (`lib/triggers.js`), the pending writers and the
  local append buffer (`lib/writers.js`).

## How it is built

| module | what it holds |
|---|---|
| `Batches`, `Graphs`, `Universe` | batches, dependencies, causal graphs, the flat order |
| `Topo`, `Window`, `Linearizer` | the walk as functions, the bounded window, the walk in place |
| `Strata`, `Reference`, `Order` | the stratified definition and its proof, building the graph, the recursive construction |
| `Grouping`, `Nodes` | grouping loose nodes into units, ordering loose nodes |
| `Settle`, `Causes`, `Stability` | the main theorem, facts about any list with causes first, what does not move |
| `Gate`, `Citations` | admission, the citation condition |
| `System`, `States`, `Systembee` | state as a fold, what that state is, the system bee |
| `Sort`, `Autobee` | sorting into the log, undo and redo |
| `Peers`, `Hints` | runs of one peer, the hints and standings that an append reads |
| `Network`, `LateHint` | the network of all peers, a run that goes wrong |
| `Witness`, `Promotions` | weight resolution, hints, requests and digest |
| `Events`, `Weights`, `Writers` | what happens to writers along a log, pending updates, the records as they are kept |
| `Triggers`, `Pending`, `LocalWriter` | waiting writers, pending writers, the local buffer |

## What the model assumes

- Weights are inputs of the ordering part: each batch carries the weight it resolved to
  (`reference/README.md`, lines 50-52). The weight part proves its invariants over a given log.
- The engine's unit is the wire batch. Only its head carries links, a citation and approvals, and
  all members share timestamp and weight, as `append` stamps them (`index.js`, lines 1603-1636).
  Ordering loose nodes (`Nodes`) does not assume this.
- Keys are compared as 32-byte buffers, which is the order of the numbers they spell, so a key is a
  number.
- The hash function and the apply handler are parameters; snapshots are the chain of flushes, each
  holding the head it was written on.
- Only the owner of an oplog appends to it, and it has one append under way at a time.

## Where the code falls short of its promise

The walk ticks the citation (the approval that a batch cites) of the batch it inserts, but not those
of the batches it pops. `Citations.CanonicalIffCovered` proves that the walk is exact for every next
batch if and only if every citation is covered, that is, adds nothing to what its batch links
already. An append reads its links first, waits, and reads its hint, which becomes the citation,
last (`index.js`, lines 1600-1616). `Network.FinishSafeIff` proves that citations stay covered if
and only if the links that were read reach the approval that is cited. That is so whenever the
approval had been applied when the links were read; `Network.ReachableIsSafe` proves that then all
is well. `LateHint.LateHintMisorders` gives a reachable network in which two hints were read later,
and a log that is not in the reference order.

## Model

| member | source | states |
|---|---|---|
| Order.CmpNodesIsCmp | reference/order.js:58-63 | within one weight class the reference comparison is the comparison of the walk |
| Topo.HitStart | lib/topo.js:110-118 | a fresh clock hits exactly the direct dependencies of a batch |
| Topo.HitIsPast | lib/topo.js:123-145 | as the clock grows during the walk, it hits the next popped batch exactly when that is an ancestor of the new one |
| Topo.WalkDivides | lib/topo.js:120-145 | the walk hands over exactly the popped ancestors, in an order in which each can be re-inserted after what it depends on |
| Topo.WalkRestores | lib/topo.js:147-149 | whatever canonical arrangement the ancestors take below the new batch, putting back the batch and the tip is canonical |
| Topo.InsertCanonical | lib/topo.js:109-149 | inserting a batch into the canonical order of a set, with its recursive re-insertions, gives the canonical order of the larger set |
| Settle.InsertSettles | lib/topo.js:109-149 | the same for any well-formed set and any batch nothing in it depends on |
| Settle.SoundSettles | lib/topo.js:97-107 | for every set in which the clock can trace all dependencies and every arrival order with dependencies first, folding the walk gives the flat canonical order |
| Settle.CoveredIsSound | lib/topo.js:110-118 | that holds when all citations are covered |
| Settle.LinearizeIsCanonical | lib/topo.js:97-107 | so the walk settles in the canonical order for every set with covered citations and every causal arrival order |
| Settle.LinearizeIsReference | reference/README.md:3-6 | the incremental walk yields the flattened stratified reference order under every causal arrival schedule |
| Settle.ArrivalOrderIrrelevant | lib/topo.js:97-107 | two causal arrival orders of one set settle in the same sequence |
| Window.InsertPermutes | lib/topo.js:109-149 | whatever the list, the walk outputs a permutation of it plus the new batch |
| Window.InsertWindow | lib/topo.js:123-149 | re-insertions never reach below a batch that everything in the window sorts after |
| Window.WindowExact | lib/topo.js:56-83 | sorting only the loaded end of the log and keeping the rest is the same as sorting the whole log |
| Stability.RedoOnlyAppends | lib/topo.js:97-107 | feeding a canonical order back in order makes every insertion a pure append |
| Stability.LinearizeIdempotent | index.js:1258-1261 | linearizing a linearized sequence changes nothing, so applying it in that order never undoes |
| Stability.PrefixCanonical | reference/order.js:140-168 | every prefix of the canonical order is the canonical order of its members |
| Stability.CanonicalArrivals | reference/order.js:65-67 | the canonical order lists every batch once and dependencies first |
| Stability.UpSetOrder | reference/order.js:137-168 | a part that contains everything depending on it is ordered as if it were alone |
| Stability.NeighboursRank | lib/topo.js:168-179 | of two neighbours in the canonical order the first is in the past of the second, or is heavier, or as heavy and older, or as old with a smaller key |
| Stability.PairRanks | reference/order.js:58-63 | two unrelated batches are in the order of weight, time and key |
| Causes.CausesFirstMeans | lib/topo.js:109-149 | a list has causes first exactly when it is closed, has no repeats and no entry is in the past of an earlier one |
| Causes.InsertKeepsCauses | lib/topo.js:109-149 | inserting into any list with causes first, canonical or not, keeps causes first |
| Causes.InsertKeepsOutside | lib/topo.js:131-149 | inserting into any such list keeps the relative order of everything outside the causal past of the new batch |
| Causes.InsertDisturbsOnlyPast | lib/topo.js:109-149 | both, for any list with dependencies first and covered citations |
| Stability.AcknowledgesAll | index.js:1442-1449 | a batch with the whole applied set in its past goes last |
| Linearizer.Clock.Add | lib/topo.js:23-27 | the clock keeps the largest length it was given for a writer |
| Linearizer.List.Unwind | lib/topo.js:120-145 | popping into two stacks divides the list as the walk function says, and loses no entry |
| Linearizer.List.Relink | lib/topo.js:147 | linked entries are re-inserted oldest first, each by a full recursive insertion into a shorter list |
| Linearizer.List.AddSorted | lib/topo.js:109-162 | the in-place insertion equals the walk function, permutes the entries, and returns the length of the part that kept its positions |
| Linearizer.Linearize | lib/topo.js:99-107 | the loop computes the fold the main theorem is about |
| Graphs.AntiKahnElems | reference/order.js:137-168 | extraction emits each member exactly once |
| Strata.CanonicalTopological | reference/order.js:137-168 | nothing in the order precedes its own past |
| Strata.SplitTail | reference/order.js:131-132 | a part no one below depends on, which sorts after all maximal batches below, is extracted as a whole |
| Strata.ClosureFacts | reference/order.js:109-124 | an acknowledger is never claimed by an earlier one, and its unclaimed past is strictly lighter |
| Strata.ClaimNext | reference/order.js:109-129 | in the flat order the closure of an acknowledger stands right before it, after everything claimed earlier |
| Strata.TailLast | reference/order.js:131-134 | in the flat order the unclaimed rest follows everything the top class claims |
| Strata.Placement | reference/README.md:32-36 | both placements as positions in the whole order |
| Strata.ExplainsFlattens | reference/order.js:7-23 | the recursive stratified definition, flattened, is the flat order over all weights |
| Strata.EmitsOnceCausally | reference/order.js:65-83 | the flattened tree emits every unit once, after all of its past |
| Reference.SamePast | reference/order.js:183-230 | naming single nodes exactly, as the reference does, and covering all earlier nodes, as the clock does, give the same causal past |
| Reference.IndexMembers | reference/order.js:173-181 | every node is mapped to its unit, with an error exactly when a unit repeats |
| Reference.UnitDeps | reference/order.js:183-208 | the direct dependencies of a unit, with an error exactly when it names a missing node |
| Reference.Resolver.Resolve | reference/order.js:210-228 | the memoized search finds the transitive past, and fails only on a causal cycle |
| Reference.BuildGraph | reference/order.js:170-233 | the graph is built exactly for sets without repeats, missing nodes or cycles, and holds the causal past of every unit |
| Order.SelectLast | reference/order.js:144-161 | the scan finds the greatest causally maximal member, so the cycle error is unreachable |
| Order.AntiKahnOf | reference/order.js:140-168 | the extraction loop computes the flat order of a class, whatever the iteration order |
| Order.Builder.ClosureIds | reference/order.js:109-124 | the closure is the live past not yet emitted; both internal errors are unreachable |
| Order.Builder.Build | reference/order.js:93-135 | the recursive construction over a shared emitted set terminates, emits the whole subset and yields its segment tree |
| Order.FlattenInto | reference/order.js:69-83 | the nodes of the tree come out with every unit contiguous |
| Order.CanonicalOrder | reference/order.js:65-67 | the whole computation yields the nodes of the flat order, and errors exactly on repeats, gaps and cycles |
| Grouping.ChainedIffWellBatched | reference/order.js:251-275 | a writer's nodes in order can be cut into batches exactly when every member follows another and none is cut short, whatever their order was |
| Grouping.UnitMeans | reference/order.js:251-294 | a unit is nodes of one writer and one weight with consecutive lengths, numbered from its head, of which only the last ends it |
| Grouping.ScanWriter | reference/order.js:248-279 | the scan cuts the nodes into whole batches of one weight, losing none, and fails exactly when no such cut exists |
| Grouping.GroupUnits | reference/order.js:238-282 | grouping puts every node into one whole batch; it fails exactly when some writer's nodes in order cannot be cut into batches, which for distinct nodes means that a batch is broken |
| Grouping.RepeatedPlaces | reference/order.js:246-275 | nodes that take a place twice are grouped or not depending on the order of the input |
| Nodes.ReadsAllMembers | reference/order.js:184-196 | a unit names its predecessor in the chain and whatever any of its members links or cites |
| Nodes.UnitSortsByHead | reference/order.js:284-294 | a unit sorts by the time, key and length of its head, whatever its other members carry |
| Nodes.GroupingUnique | reference/order.js:238-282 | distinct nodes can be grouped in one way only, so the order of the input does not matter |
| Nodes.UnitsDisjoint | reference/order.js:176-181 | the units of distinct nodes do not repeat or overlap |
| Nodes.UnitsAreWire | reference/order.js:286-294 | the nodes of a set of wire batches, in any order, group into exactly those batches |
| Nodes.OrderNodes | reference/order.js:65-67 | the order of any nodes is that of the one way to group them, however they are permuted, lists every node once, and fails exactly on broken batches, gaps and cycles |
| Nodes.OrderPermutes | reference/order.js:69-83 | the canonical order of the units, spread into their members, is a permutation of the nodes |
| Nodes.ReplayIsReference | reference/diff.js:76-100 | the reference orders the shuffled nodes of applied batches as the walk left them, under every causal arrival schedule |
| Gate.IngestKeepsWorld | lib/writers.js:673-723 | a batch let in by the gate depends on nothing missing, nothing applied depends on it, and the applied set stays closed and acyclic |
| Gate.ChainComplete | lib/writers.js:553-571 | the applied part of an oplog has no gaps |
| Gate.GateExact | lib/writers.js:673-723 | the gate opens exactly for the next batch of a writer all of whose links and citation name applied nodes |
| Citations.CanonicalIffCovered | lib/topo.js:118-144 | the walk places every next batch canonically if and only if every applied citation is covered by links, and batches no heavier than what is applied already decide it |
| Citations.UncoveredMisplaced | lib/topo.js:118-144 | each uncovered citation has a next batch, no heavier than what is applied, that is placed before an ancestor |
| System.HeadsAreFrontier | lib/system.js:222-233 | after any log the heads are exactly the last nodes no applied batch links, at most one for each writer |
| System.HeadsAreUnreached | lib/topo.js:370-390 | the heads are exactly the last nodes that no later batch of their writer and no link of any batch reaches |
| System.RecordsExact | lib/system.js:374-405 | after any log the writer records hold exactly the last applied position of every writer |
| System.LinkingAllSeesAll | lib/topo.js:370-390 | a batch linking every head has the whole applied set in its past |
| States.HashIsRolled | lib/system.js:506-525 | the hash after a log rolls over key, length and weight of all its nodes, in the order they were applied |
| States.HashTellsOrder | index.js:1442-1449 | unless there is a collision, equal hashes mean the same nodes and weights in the same order |
| States.ViewIsFold | index.js:1490-1541 | the view is the batches applied one after another to a blank one, and each is one flush |
| States.TimestampIsLatest | lib/system.js:222-241 | the timestamp is the latest in the log |
| Systembee.Systembee.AddNode | lib/system.js:222-241 | splicing the linked heads out and merging the updates is one step of the fold |
| Systembee.Systembee.Flush | lib/system.js:418-482 | a flush writes everything held in memory as the next snapshot |
| Systembee.Systembee.Undo | lib/system.js:146-211 | a rewind restores heads, hash, timestamp, records and view of the snapshot |
| Systembee.Systembee.Has | lib/system.js:310-320 | the fast path through heads and the record answer alike: whether the node has been applied |
| Sort.ReadWindow | lib/topo.js:56-76 | the stream is read exactly down to the first batch the new one does not sort before |
| Sort.SharedIsCommonPrefix | lib/topo.js:151-161 | the entries that kept their index are the longest common prefix of the old and new order |
| Sort.SortBatch | lib/topo.js:56-95 | the tip is the new order from its first difference on, and undo is the snapshot below that, or null when nothing has to go |
| Autobee.FastPathAppends | index.js:1442-1449 | the fast path gives the result of the full sort |
| Autobee.Autobee.PrepareBatch | index.js:1436-1460 | either the batch goes last, or the state is rewound to the longest common prefix |
| Autobee.Autobee.ApplyBatch | index.js:1490-1541 | applying a batch extends the log by it and the state by one step of the fold |
| Autobee.Autobee.ProcessBatch | index.js:1462-1488 | the stack machine terminates, rewinds at most once and exactly when the batch does not go last, and leaves the state of the canonical order of the larger set |
| Autobee.Autobee.IsLinked | lib/writers.js:673-723 | the gate opens exactly when everything linked or cited has been applied |
| Autobee.Autobee.Ingest | lib/writers.js:547-622 | a batch is taken exactly when it continues its writer's chain and is linked |
| Autobee.Autobee.StartAppend | index.js:1600-1606 | an append first reads the heads of all other writers, the hash, and the later of its clock and the latest time applied |
| Peers.RunSettles | index.js:1406-1434 | every run of offers, in any order and with any blocked, leaves the canonical order of what was accepted |
| Peers.RunsConverge | index.js:1438-1440 | two runs that accept the same batches end in the same log and snapshots |
| Peers.Run | index.js:1406-1434 | a running peer holds the state that the run of offers defines |
| Peers.PeersConverge | lib/system.js:222-241 | peers with the same applied set have the same log, heads, hash, timestamp, flush count and view |
| Peers.LinkingHeadsAcknowledges | index.js:1600-1601 | a batch that links every head reaches everything applied through links alone |
| Peers.AppendKeepsCovered | index.js:1609-1616 | appending a batch keeps all citations covered if it cites something in a set that its links reach |
| Hints.HintsExactly | lib/system.js:67-94 | the hint of a writer names a batch that approved it at exactly that weight since it was last removed, and no approval since then was for more |
| Hints.StandingIsLast | lib/system.js:236-241 | the standing of a writer is the weight of its last applied batch |
| Hints.ApprovalIsCited | index.js:1609-1616 | what a writer appends after it was approved for more than it stands at cites that approval or a stronger one |
| Hints.CitedWasApproved | index.js:1609-1616 | a writer cites nothing but approvals for more than it stands at |
| Network.FinishAppend | index.js:1609-1636 | it then reads its hint from the state of that moment, and cites it if and only if it is worth more than the writer stands at |
| Network.StepKeepsSafe | lib/writers.js:673-723 | joining, appending in two steps and ingesting keep the batches that exist well formed with covered citations, and every log canonical, unless a hint is read too late |
| Network.ReachableIsSafe | reference/README.md:3-6 | in every network reached without late hints every log is the canonical order of what its peer applied |
| Network.ReachableAgree | index.js:1438-1440 | peers of such a network with the same applied set have the same log and snapshots |
| Network.SomethingToTake | lib/writers.js:547-571 | a peer that lacks a batch always has one that its gate lets in |
| Network.CatchesUp | index.js:1406-1434 | from every such network each peer can ingest its way to the canonical order of all batches |
| Network.AppendCoveredIff | index.js:1600-1616 | an append keeps citations covered if and only if its links reach the approval it cites |
| Network.FinishSafeIff | index.js:1600-1616 | whenever an append reads its hint, it keeps citations covered if and only if the links it read reach the approval it cites |
| Network.OneStepIsTimely | index.js:1609-1616 | an append in one step never reads its hint too late |
| LateHint.ThirdWalk | lib/topo.js:118-144 | three batches, each citing the one before, of which the walk puts the first last |
| LateHint.LateHintMisorders | index.js:1600-1616 | a network reached from nothing in which a log lists a batch before one in its past, unlike the reference order |
| LateHint.LateWeights | lib/witness.js:19-47 | the weights in that network are those that the citations resolve to |
| Witness.ResolvedWithin | lib/witness.js:19-47 | a resolved weight is never below the writer's standing nor above the founding weight, and rises only on a sufficient approval by an author standing that high |
| Witness.RisesExactly | lib/witness.js:19-47 | a claim raises the weight, to exactly what is claimed, if and only if it is for more than the writer stands at and the first approval for it at that place is enough and within what its author stands at |
| Witness.BypassEqualsStored | lib/witness.js:8-12 | the genesis bypass equals the stored weight |
| Weights.AddWriterBounded | lib/system.js:67-94 | no grant, whatever it asks for, gives more standing or leaves a stronger hint than its carrier has |
| Weights.MergeBounded | lib/system.js:322-385 | merging updates keeps every pending change within bounds |
| Weights.FlushedRecord | lib/system.js:387-416 | a flush never lowers a stored weight and keeps the ceiling and the genesis bypass |
| Writers.WriterTable.ApplyBatch | index.js:1476-1541 | applying a batch makes exactly its events happen, stores at least the resolved weight and lowers no weight |
| Writers.WriterTable.Flush | lib/system.js:387-447 | a flush turns every pending update into record, hint and request, all of which tell what happened |
| Writers.WriterTable.ApplyLog | index.js:1462-1541 | over a whole log every record holds exactly the largest amount granted since the writer was last dropped, its largest weight, and whether its last change put it out; hints and requests are exact, everything stays within the founding weight, and weights never fall |
| Events.LevelMeans | lib/system.js:67-94 | the level of a writer is the largest grant that still stands |
| Weights.TellsGrant | lib/system.js:67-94 | recording a grant keeps record and pending update exact, also when it is skipped |
| Weights.TellsAck | lib/system.js:96-107 | consuming an optimistic batch puts its writer out exactly if it was not in |
| Weights.TellsFlushed | lib/system.js:387-416 | flushing keeps the record exact |
| Weights.TellsIndexes | lib/promotions.js:60-126 | flushing leaves exactly the strongest approval, and what was asked beyond it, since the last batch that left the writer out |
| Promotions.FlushKeepsOutstanding | lib/promotions.js:74-126 | after a flush the pending index holds only requests that want more than is anchored by then |
| Promotions.FlushPointwise | lib/promotions.js:60-127 | a flush gives every writer the stronger of its hint and the grant, with its place, and nothing to those removed |
| Promotions.PendingExactly | lib/promotions.js:60-127 | after any flushes a hint is the largest grant since the writer was last removed, and a request is pending exactly when more was asked for since then |
| Promotions.HintExactly | lib/promotions.js:60-72 | after any flushes a hint is exactly the strongest grant since the writer was last removed, place included |
| Promotions.HintsNeverFall | lib/promotions.js:60-72 | a hint is never lowered except with its writer |
| Promotions.DigestUnique | lib/promotions.js:13-17 | the digest is determined by hints and requests |
| Promotions.TierWanted | index.js:1292-1302 | some request can be served by a standing exactly when some tier up to it is wanted |
| Promotions.PendingWork | index.js:1295-1302 | the tier gate is exact for every standing |
| Promotions.CollectApprovals | index.js:1304-1359 | exactly the members among the requests looked at that got less before, from a hint or from this peer, are approved, and nobody is left out unless 32 were looked at |
| Promotions.Promotions.FlushPending | lib/promotions.js:74-147 | the operations, the cache and the digest are those of the indexes after the flush, on every path including both early returns |
| Promotions.Promotions.Flush | lib/system.js:418-447 | a flush keeps the cache equal to what is stored and the digest exact |
| Triggers.Triggers.RemoveEntry | lib/triggers.js:65-78 | swap-removal keeps the lists dense and the back-indexes right, and drops exactly the entry |
| Triggers.Triggers.Add | lib/triggers.js:8-29 | a writer keeps at most one live entry, and any it had elsewhere is dropped |
| Triggers.Triggers.Remove | lib/triggers.js:31-37 | removing a removed entry does nothing |
| Triggers.Triggers.Collect | lib/triggers.js:47-60 | walking the list from its end while it is swap-removed collects exactly the due writers, once each |
| Triggers.Triggers.Wake | lib/triggers.js:62 | a woken writer that registers again gets a new entry, and nobody else's changes |
| Triggers.Triggers.Trigger | lib/triggers.js:47-63 | a trigger wakes exactly the writers waiting at that length or below, once each; those that register again when woken wait for what they asked for, even if that is due as well, and all others wait as before |
| Pending.PendingList.RemovePending | lib/writers.js:396-407 | swap-removal from the pending list keeps it dense and drops exactly the writer, with its batch in the buffer |
| Pending.PendingList.Refill | lib/writers.js:177-185 | exactly the pending writers without a batch are asked for one, and those that must wait or cannot be read are pending no longer |
| Pending.PendingList.NextPending | lib/writers.js:177-206 | pending writers without a batch are asked for one, weights not resolved before are resolved, and the batch taken is one that no other of all, or of the local writer, sorts before |
| LocalWriter.Writer.AppendBatch | lib/writers.js:729-754 | appending a batch extends the history by it, with consecutive lengths |
| Batches.MembersOf | index.js:1619-1634 | only the first member of a batch carries links, citation, hash and approvals, and all count from it |
| LocalWriter.Writer.Next | lib/writers.js:624-664 | the batch handed out is the whole batch right after what was handed out or applied before, so none is skipped |
| LocalWriter.Writer.Flush | lib/writers.js:768-789 | a flush moves whole batches to the core and leaves the history as it was |
| LocalWriter.Writer.GetBatch | lib/topo.js:277-304 | the length of a last node finds its whole batch, in memory or in the core |

## Left out

- Hypercore, Hyperbee, Corestore and replication: the system bee is a chain of snapshots and a core is a sequence.
- Asynchrony: every drain step is one step and every append is two; boot guards, teardown, wakeup and timeouts are not part of this model.
- Weights that are resolved again after a rewind: weights are inputs of the ordering part.
- Fast-forward, trust, warmup, acking, remapping, legacy batches and migration.
- The wire encodings and encryption.
- Nodes.OrderNodes: says nothing of nodes that take a place twice, because the reference then depends on the order of its input (Grouping.RepeatedPlaces). A node without batch bookkeeping is one with both counts 0.
- Reference.UnitDeps: reads the links of the unit as one batch; Nodes.ReadsAllMembers shows that these are the links and citations of all its members.
- Systembee.Systembee.Flush: the snapshot holds heads, hash, timestamp, lengths and view; weights, membership and promotions are in Writers, and hints and standings in Hints as part of the view.
- Optimistic admission, removal and re-adding of writers as ordering concerns: the applied set is what the gate let in.
- Links of length 0: they name no node for the reference, and the gate lets them through only for known writers.
- Autobee.Autobee.Ingest: does not model the checks of membership, optimistic nodes, batch size and forward clock drift, which only delay or refuse a batch.
- LocalWriter.Writer.Next: does not model the failure on a writer that may not write, nor a core append that fails.
- Triggers.Triggers.Trigger: what a woken writer registers for is given by a map, so a writer registers at most itself, once; scheduling the drain is not part of this model.
