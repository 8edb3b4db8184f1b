# Ossa in Dafny

Ossa keeps stores in sync between peers: the operations on a store travel in headers that form a graph, and every
replica applies them to a CRDT. This project models the parts of Ossa that make this work and proves what they are
for. `dafny verify dfyconfig.toml` checks everything.

- **The event graph.** `EventGraph` and `Ancestry` describe the graph as the log of accepted headers, with roots, tips,
  depths and ancestry as functions of it. `EcgState` is the mutable graph, proved to hold exactly these tables.
- **Convergence.** `Time` has causal order, comparison with a tiebreak and Lamport time. `Convergence` proves the
  general theorem on orders of events, `StoreLoop` strong eventual consistency of the loop that accepts headers and
  applies operations to an `EcgState` object, and `Registers`, `TwoPhaseMap`, `CausalTree` and `SiblingOrder` the CRDTs.
  `StoreStates`, `StoreRegisters` and `StoreTexts` put maps, registers and texts into the store.
- **Verified download.** `Merkle` is the flat tree, `PartialMerkle` the tree that untrusted peers fill in, `Ranges` the
  compression of requests, `Blocks` and `StoreIds` the metadata and its hash, and `Download` the phases of a store.
  `Recovery` proves that a download recovers from whatever lies peers have told.
- **The task that owns a store.** `StoreTask` defines on values what it does for every command: phase, statuses of
  peers, those who wait, and the messages it sends. `StoreHandler` is the object whose fields the handlers update,
  with the partial tree and the event graph as objects inside it, proved equal to that. The other modules prove what
  holds over whole runs: `StoreTaskStates` that the state is that of the accepted headers, so that running stores
  converge; `StoreTaskRuns` that only true answers are given and nobody waits in vain; `StoreTaskNews` that whoever
  waits or asks is told, and what; `StoreTaskPeers` that a store asks for what it lacks, one thing at a time from each
  peer; and `StoreTaskWaiters` that no news is kept from a subscriber.
- **The sync protocol.** `SyncResponder` defines what the responder does on values, and `ResponderLoops` is the object
  with its queues and loops, proved equal to it. `Heap` and `Walks` give the termination argument: the number of paths
  that start at the queued headers falls. `WalkOrder` proves that the order in which neighbours are listed makes no
  difference. `Intake` proves what a request makes pending, and `QueueOrder` the order of the queues. `Marking`,
  `SyncDelivery`, `Resending`, `Proposals` and `Replication` prove what whole runs deliver, and `EndToEnd` connects them
  to the state of a replica. `Bits` is the test for powers of two.
- **Connections.** `Multiplexer` is the framing, and `Manager` has stream ids and the exchange of store ids.

Hypotheses are stated where they are used. Hashes are functions to numbers that are assumed to be free of collisions
where a theorem needs it. Header ids are the digests read as big-endian numbers, so that their order is that of the
bytes. A header is modelled together with the raw operations it is delivered with; the code never compares these with
`operations_hash`, so that "the same headers" in the convergence theorems includes the same operations.

Where the code differs from what its comments promise, the model follows the code:

- `mark_as_known_helper` stops at a header that is new to the set, because `BTreeSet::insert` returns true for a new
  element. The comment above `mark_as_known` claims closure under ancestors; `Marking.ClosureKeptIff` gives the exact
  condition and `Marking.ClosureBroken` a counterexample. The cost is that a peer can be sent headers it has, below a
  tip it has named: `SyncDelivery.SentAgain` says exactly which, and `Resending.AncestorIsSentAgain` is a run of two
  requests in which it happens. No header is sent twice (`SyncDelivery.DeliveredOnce`).
- `LWW` does not obey the commutativity law over event graph time. `Registers.LawIffNoInversion` gives the exact
  condition and `Registers.EcgRegistersDiverge` two causal orders that leave different values. Siblings of a text have
  the same condition, whatever search inserts them (`SiblingOrder.SiblingLawIffNoInversion`,
  `SiblingOrder.EcgTextsDiverge`). Stores of registers and texts converge whenever the operation ids in use have no
  inversion (`StoreRegisters.RegisterStoresConverge`, `StoreTexts.TextStoresConverge`).
- A depth is one more than the least depth of the parents, so a header can be sent before one of its parents.
  `Replication.ReplicatesIff` gives the exact condition under which a new replica ends up complete.
- Metadata that arrives again restarts a download, whatever the phase (`Download.MetadataDecides`); the theorems on
  phases hold for all sequences of commands.

## Model

| member | source | states |
|---|---|---|
| EcgState.EcgState.InsertHeader | ossa-core/src/store/ecg.rs:307-391 | The mutable graph (edges, roots, node table, tips) accepts a header exactly when it is valid, new, and all its parents are present; the tables then equal those of the log with the header appended, and a rejected header changes nothing |
| EcgState.EcgState.LookUpParents | ossa-core/src/store/ecg.rs:338-362 | Every parent is found, and the depth kept is the least among theirs, or a missing parent is reported |
| EcgState.EcgState.Contains | ossa-core/src/store/ecg.rs:124-133 | Exactly the accepted headers are contained |
| EcgState.EcgState.GetParents | ossa-core/src/store/ecg.rs:135-145 | The parents of a contained header, once for every edge, in an order that is left open |
| EcgState.EcgState.GetParentsWithDepth | ossa-core/src/store/ecg.rs:147-167 | The same parents, each with its depth |
| EcgState.EcgState.GetChildrenWithDepth | ossa-core/src/store/ecg.rs:169-187 | The children of a contained header with their depths, once for every edge, in an order that is left open |
| EcgState.EcgState.GetHeaderDepth | ossa-core/src/store/ecg.rs:189-194 | The stored depth is the depth defined on the log |
| EventGraph.ChildrenMembers | ossa-core/src/store/ecg.rs:169-187 | A header is among the children exactly if it lists the other as a parent, and then it came later |
| EventGraph.ShallowParent | ossa-core/src/store/ecg.rs:338-356 | The depth of a header is one more than that of some parent, and at most one more than that of any |
| EventGraph.DepthBound | ossa-core/src/store/ecg.rs:323-356 | Depths start at one and never exceed the position of acceptance |
| EventGraph.AcceptedInTurn | ossa-core/src/store/ecg.rs:307-391 | Every header of a graph would be accepted by the part of the log before it, so logs are exactly what runs of insertions produce |
| EventGraph.Rebuild | ossa-core/src/store/ecg.rs:307-391 | Inserting the headers of a graph one by one in its order rebuilds it |
| EventGraph.InsertAllExtends | ossa-core/src/store/ecg.rs:307-391 | A later snapshot extends an earlier one |
| Ancestry.Acyclic | ossa-core/src/store/ecg.rs:307-391 | In every reachable graph no two different headers reach each other |
| Ancestry.DepthIsLowerBound | ossa-core/src/store/ecg.rs:323-356 | No path from a header up to a root is shorter than its depth |
| Ancestry.DepthIsShortest | ossa-core/src/store/ecg.rs:323-356 | Some path from a header up to a root is as long as its depth |
| EcgState.EcgState.IsAncestorOf | ossa-core/src/store/ecg.rs:395-425 | The queue-and-visited search ends, answers true exactly when a parent path leads from the descendant to the ancestor, and has no answer only for unknown headers |
| Ancestry.IsAncestorIffReaches | ossa-core/src/store/ecg.rs:395-425 | The reference definition of ancestry by recursion is the existence of a path of parents |
| Ancestry.OrderIndependence | ossa-core/src/store/ecg.rs:432-459 | Replicas that accepted the same headers in any two orders have equal roots, tips, edges and nodes, equal depths, and the same ancestry |
| Ancestry.TipsHaveNoDescendants | ossa-core/src/store/ecg.rs:333-361 | The tips are exactly the headers that nothing descends from |
| Ancestry.RootsHaveNoAncestors | ossa-core/src/store/ecg.rs:323-337 | The roots are exactly the headers without ancestors, and those of depth one |
| Ancestry.BelowSomeTip | ossa-core/src/store/ecg.rs:333-361 | Every header is an ancestor of a tip or is one |
| Ancestry.EqualTipsEqualGraphs | ossa-core/src/store/ecg.rs:333-361 | Two snapshots of one growing graph have equal tips if and only if they are the same snapshot |
| Ancestry.EqualTipsSameHeaders | ossa-core/src/store/mod.rs:544-563 | Any two graphs whose ids determine headers have equal tips if and only if they hold the same headers |
| CausalOrder.QueryHappensBefore | ossa-core/src/store/ecg/v0.rs:330-347 | The query over the mutable graph returns happens-before, and fails only on an unknown header id |
| CausalOrder.HappensBeforeIsAncestry | ossa-core/src/store/ecg/v0.rs:330-347 | Between operations of different headers, happens-before is exactly ancestry of the headers |
| CausalOrder.HappensBeforeIsOrder | ossa-core/src/store/ecg/v0.rs:330-347 | In every graph happens-before is irreflexive and transitive |
| CausalOrder.HappensBeforeIsStable | ossa-core/src/store/ecg/v0.rs:330-347 | No later insertion, in whatever order, changes the relation to an existing operation id |
| CausalOrder.NewTimes | ossa-core/src/store/ecg/v0.rs:304-316 | The times given to the operations of a new header are new, nothing known happened after them, and what happened before them is exactly what belongs to ancestors of the parents or to the initial state |
| CausalOrder.CompareIdsIsOrder | ossa-core/src/store/ecg/v0.rs:298-302 | The derived order on operation ids is the lexicographic total order, with the initial state first |
| Time.Antisymmetric | ossa-crdt/src/time.rs:32-45 | The comparison with a tiebreak is antisymmetric and says equal only of equal times |
| Time.TransitiveIffNoInversion | ossa-crdt/src/time.rs:32-45 | It is transitive if and only if no time that is concurrent with both ends of a causal pair is put between them backwards by the fallback order |
| Time.ExtendingFallback | ossa-crdt/src/time.rs:32-45 | If the fallback order extends happens-before, the comparison is the fallback order itself |
| Time.LamportComparison | ossa-crdt/src/time/lamport.rs:22-60 | Lamport time meets this: the comparison equals the total order on timestamps |
| Registers.LawIffNoInversion | ossa-crdt/src/register/lww.rs:36-44 | The register obeys the commutativity law, asked of any two concurrent writes with values of their own, if and only if the comparison of times has no inversion |
| Registers.InversionBreaksLaw | ossa-crdt/src/register/lww.rs:36-44 | Every inversion yields, for any three values, a register and two concurrent writes whose two orders end in different writes |
| Registers.EcgRegistersDiverge | ossa-crdt/src/register/lww.rs:36-44 | Over event graph time the law fails: a concrete graph of three headers and two causal delivery orders that leave different values |
| Registers.RegisterIsMaximal | ossa-crdt/src/register/lww.rs:36-44 | Under any delivery that respects causality the register holds one of the writes, and no other write happened after it |
| Registers.LamportRegisterIsLatest | ossa-crdt/src/register/lww.rs:36-44 | Over Lamport time the writes with distinct times leave the latest one |
| Registers.LamportConvergence | ossa-crdt/src/register/lww.rs:36-44 | Any two permutations of the same distinctly timed writes leave the same register |
| StoreRegisters.RegisterStoreIsMaximal | ossa-crdt/src/register/lww.rs:36-44 | In a store the register holds the initial value or a write of an accepted header, and no write of an accepted header happened after it |
| StoreRegisters.RegisterStoresConverge | ossa-crdt/src/register/lww.rs:36-44 | Two stores that accepted the same headers hold the same register whenever the operation ids in use have no inversion |
| StoreRegisters.RegistersAreLawful | ossa-crdt/src/register/lww.rs:36-44 | Under that condition registers are values that a map may hold |
| StoreRegisters.RegisterMapStoresConverge | ossa-crdt/src/map/twopmap.rs:118-162 | Two stores of a map of registers that accepted the same headers hold the same map and no operation failed |
| StoreLoop.SyncingStore.HandleReceivedOperations | ossa-core/src/store/mod.rs:747-804 | The loop over delivered headers parses, offers to the graph, and applies only what was accepted; the result is the replay function of the delivered sequence, or the failure on malformed bytes |
| StoreLoop.SyncingStore.ApplyOne | ossa-core/src/store/mod.rs:1051-1072 | The operations of a header are applied in order under the graph that already holds it |
| StoreLoop.StrongEventualConsistency | ossa-core/src/store/mod.rs:780-792 | For any CRDT that obeys the commutativity law, replicas with the same initial state that accepted the same headers hold the same state, whatever was delivered, in whatever order, and however often |
| StoreLoop.ExactlyOnceInCausalOrder | ossa-core/src/store/mod.rs:780-792 | The state is the fold over a trace that holds every operation of every accepted header exactly once, and no operation of an ancestor after one of a descendant |
| StoreLoop.ReplayUnderFinalGraph | ossa-core/src/store/mod.rs:1066-1071 | Applying each header under the graph of its moment gives the same as applying all of them under the final graph |
| StoreLoop.ReceivesInTurn | ossa-core/src/store/mod.rs:780-792 | The loop fails exactly on a header that does not parse, and otherwise accepts in turn what the graph accepts |
| StoreLoop.HeadersCommute | ossa-crdt/src/lib.rs:35-39 | The law for single concurrent operations lifts to whole headers that are not ancestors of each other |
| Convergence.Converges | ossa-crdt/src/lib.rs:35-39 | Any two orders of the same events that respect the required order lead to the same state, if events that may both come next commute |
| StoreStates.ValidHistoriesConverge | ossa-core/src/store/mod.rs:780-792 | Strong eventual consistency also for CRDTs whose operations commute only in valid histories |
| StoreStates.MapStoresConverge | ossa-crdt/src/map/twopmap.rs:118-162 | Two stores of a map that accepted the same headers hold the same map and no operation failed, if the values converge under the updates of their key in this history; values may ask the causal state |
| StoreTexts.TextStoresConverge | ossa-crdt/src/text/causal_tree.rs:36-48 | Two stores of a text over event graph time that accepted the same headers hold the same text and no insertion failed, whenever the operation ids in use have no inversion |
| StoreTexts.ClockTextStoresConverge | ossa-crdt/src/text/causal_tree.rs:36-48 | The same for atoms with times of a clock of their own |
| TwoPhaseMap.DeletedStaysDeleted | ossa-crdt/src/map/twopmap.rs:118-162 | Over every run live keys and tombstones stay disjoint and a deleted key never returns |
| TwoPhaseMap.TwoPhaseMapConvergence | ossa-crdt/src/map/twopmap.rs:118-162 | Any two causally valid orders of the same inserts, updates and deletes succeed and give the same map, if the updates of this history that may both come next commute on the values that may then occur |
| TwoPhaseMap.CommutingUpdatesConverge | ossa-crdt/src/map/twopmap.rs:118-162 | In particular if concurrent updates of one key in this history commute |
| TwoPhaseMap.ValuesStayValid | ossa-crdt/src/map/twopmap.rs:118-162 | The invariant of the values survives every operation of a valid history |
| TwoPhaseMap.StepPreserves | ossa-crdt/src/map/twopmap.rs:118-162 | In a valid history the next operation never fails, and what remains is valid |
| TwoPhaseMap.NewKey | ossa-crdt/src/map/twopmap.rs:118-162 | A key is there at the end exactly if it was inserted and not deleted, with the inserted value and all updates of the key applied in order |
| TwoPhaseMap.FailsIff | ossa-crdt/src/map/twopmap.rs:118-162 | An operation fails exactly if it inserts a key that is there or updates one that is not, unless the key was deleted |
| TwoPhaseMap.KeysAreIndependent | ossa-crdt/src/map/twopmap.rs:118-162 | The map treats every key by itself: its entry is that of a three-state machine run on the operations of that key |
| CausalTree.InsertEffect | ossa-crdt/src/text/causal_tree.rs:50-72 | An insertion finds its parent exactly if it is in the tree; it then adds one atom right below that parent, moves no other, and keeps all siblings sorted, and otherwise it is handed back with the tree unchanged; it fails only on an id used before |
| CausalTree.SortedByKindAndTime | ossa-crdt/src/text/causal_tree.rs:79-139 | Sorted siblings are letters, then deletions, then roots, each kind in the order of time |
| CausalTree.InsertAtomEffect | ossa-crdt/src/text/causal_tree.rs:74-157 | Among sorted siblings exactly one leaf is added and they stay sorted |
| CausalTree.CompareAtomIsOrder | ossa-crdt/src/text/causal_tree.rs:79-139 | Atoms are totally ordered whenever their times are |
| CausalTree.BinarySearch | ossa-crdt/src/text/causal_tree.rs:141-154 | Searching sorted siblings finds an equal one, or the place that keeps them sorted |
| CausalTree.InsertAtomInPlace | ossa-crdt/src/text/causal_tree.rs:74-157 | The search followed by the insertion computes the recursive specification |
| CausalTree.Weave | ossa-crdt/src/text/causal_tree.rs:50-72 | The traversal that passes the operation from tree to tree computes the recursive specification, and its result has the old edges and the one from the named parent to the new atom |
| CausalTree.WeaveChildren | ossa-crdt/src/text/causal_tree.rs:159-181 | The loop that threads the operation through the children stops passing it on once it is used |
| CausalTree.InsertionsCommute | ossa-crdt/src/text/causal_tree.rs:50-180 | Two insertions of which neither is the parent of the other commute on every sorted tree, also in whether they find their parents |
| CausalTree.CausalTreeConvergence | ossa-crdt/src/text/causal_tree.rs:50-180 | Any two parent-before-child orders of the same insertions with distinct ids succeed and build the same sorted tree, if the ids in use have no inversion |
| CausalTree.OrderedInsertionsConverge | ossa-crdt/src/text/causal_tree.rs:50-180 | The same over any total order on the ids |
| CausalTree.RunAddsAtoms | ossa-crdt/src/text/causal_tree.rs:50-180 | A run adds exactly the atoms of its insertions |
| CausalTree.RunBuildsEdges | ossa-crdt/src/text/causal_tree.rs:50-180 | In the tree that a run builds every inserted atom hangs below the parent that its operation names, and all others hang where they did |
| SiblingOrder.SearchInserts | ossa-crdt/src/text/causal_tree.rs:141-154 | Over a total order every search that looks only at comparisons inserts as specified |
| SiblingOrder.SiblingLawIffNoInversion | ossa-crdt/src/text/causal_tree.rs:74-157 | For every such search, concurrent insertions of siblings commute if and only if the comparison of times has no inversion |
| SiblingOrder.InversionBreaksSiblingLaw | ossa-crdt/src/text/causal_tree.rs:74-157 | Every inversion yields two concurrent insertions whose two orders end in different sibling lists, whatever the search |
| SiblingOrder.EcgTextsDiverge | ossa-crdt/src/text/causal_tree.rs:74-157 | Over event graph time: a concrete graph and two causal delivery orders that leave different texts, whatever the search |
| Merkle.LeafSlots | ossa-core/src/util/merkle_tree.rs:159-171 | The leaf slots and the leaves correspond one to one |
| Merkle.BuildLayout | ossa-core/src/util/merkle_tree.rs:42-89 | A sequence is the built tree if and only if it has 2n-1 slots, every branch is the hash of the two slots below, and every leaf is in its slot |
| Merkle.FillLayer | ossa-core/src/util/merkle_tree.rs:57-79 | One layer is filled from the one below, every slot once |
| Merkle.FromLeaves | ossa-core/src/util/merkle_tree.rs:42-89 | The layer-by-layer loop fills every slot and computes the specified tree |
| Merkle.FromChunks | ossa-core/src/util/merkle_tree.rs:91-109 | The leaves are the hashes of the chunks; no chunks count as one empty chunk |
| Merkle.RootDetermines | ossa-core/src/util/merkle_tree.rs:42-89 | Under a collision-free node hash two hashed trees of the same size with equal roots are equal |
| Merkle.ValidChunkIsOriginal | ossa-core/src/util/merkle_tree.rs:144-156 | Under collision-free hashes a chunk validates at an index exactly if it is the chunk the tree was made from |
| PartialMerkle.PartialTree.Propose | ossa-core/src/util/merkle_tree.rs:195-225 | Setting a digest in place computes the specified nodes and verdict, keeps the invariant, and never reaches an unreachable branch |
| PartialMerkle.PartialTree.ValidateChildren | ossa-core/src/util/merkle_tree.rs:227-269 | The recursive check marks or drops a pair of siblings as specified |
| PartialMerkle.RunKeepsInv | ossa-core/src/util/merkle_tree.rs:195-269 | Over every sequence of proposals the root stays verified, verified digests never change, siblings are verified together and hash to their parent, and no unverified pair is left below a verified parent |
| PartialMerkle.SetVerdict | ossa-core/src/util/merkle_tree.rs:195-225 | A proposal is refused exactly if it is out of range, contradicts a verified digest, or fails with its sibling |
| PartialMerkle.SetTraced | ossa-core/src/util/merkle_tree.rs:195-269 | A proposal is recorded only where a digest is missing; then every node stays, or is verified as proposed, or is dropped with its sibling because a verified parent does not hash to the two |
| PartialMerkle.VerifiedAbove | ossa-core/src/util/merkle_tree.rs:227-269 | Verified nodes are closed towards the root |
| PartialMerkle.CompleteIffNothingMissing | ossa-core/src/util/merkle_tree.rs:184-286 | A tree can be completed exactly when no index is missing |
| PartialMerkle.CompletedIsOriginal | ossa-core/src/util/merkle_tree.rs:272-286 | A completed tree is the tree built from the true leaves with that root and leaf count |
| PartialMerkle.TrueDigestsComplete | ossa-core/src/util/merkle_tree.rs:195-286 | True digests in any order that covers all slots always complete the tree |
| Ranges.CompressConsecutive.Next | ossa-core/src/util.rs:486-517 | Each call yields the next maximal range and keeps the rest for later |
| Ranges.FlattenMembers | ossa-core/src/util.rs:472-517 | A range stands for the indices from its start up to, but without, its end |
| Ranges.FlattenCompress | ossa-core/src/util.rs:472-517 | Flattening the compressed ranges gives back exactly the indices |
| Ranges.MaximalIsUnique | ossa-core/src/util.rs:472-517 | There is only one list of maximal ranges for given indices |
| Ranges.RequestsAreFull | ossa-core/src/store/mod.rs:404-448 | All requests but the last have as many indices as the limit allows, named by maximal ranges |
| Ranges.RequestsCover | ossa-core/src/store/mod.rs:404-448 | Cut into requests, every index is asked for once and in order, and no request exceeds its limit |
| StoreIds.HashInputInjective | ossa-core/src/store/v0.rs:90-101 | Different metadata never give the hash the same input |
| StoreIds.HashInputLayout | ossa-core/src/store/v0.rs:90-101 | The nonce, the version, the store type, the size as eight bytes with the most significant first, and the Merkle root, in this order |
| StoreIds.ValidatesIff | ossa-core/src/store/v0.rs:104-110 | Under a collision-free hash metadata validates against a store id exactly if it is the metadata of that id |
| Blocks.ChunkSizes | ossa-core/src/store/v0.rs:112-135 | There are just enough blocks, all but the last are full, and the last is not empty |
| Blocks.ConcatChunks | ossa-core/src/store/mod.rs:881-885 | The blocks an initial state is cut into concatenate to it |
| Download.CreatorPublishes | ossa-core/src/store/v0.rs:73-88 | The metadata made for a new store is the metadata of its bytes |
| Download.PhaseInvariants | ossa-core/src/store/mod.rs:576-929 | Over every sequence of commands the store id never changes, a store in the Merkle phase misses a node, and one in the block phase misses a block |
| Download.RequestsAreExact | ossa-core/src/store/mod.rs:404-448 | In both download phases there is something to request (the two invariant panics are unreachable) and the requests flatten to exactly what is missing |
| Download.PercentBelow100 | ossa-core/src/store/mod.rs:1190-1197 | The reported percentage never reaches 100 while downloading |
| Download.DownloadIsExact | ossa-core/src/store/mod.rs:576-929 | Whatever metadata, hashes and blocks any peers send, a store that was given an id and reaches the syncing phase holds exactly the metadata, tree and bytes published under that id |
| Download.MetadataDecides | ossa-core/src/store/mod.rs:576-622 | Metadata of another id changes nothing; our own starts the download anew from the root alone, or with the one block that is missing |
| Download.BlocksTaken | ossa-core/src/store/mod.rs:720-740 | A block that is there stays, a missing one is taken exactly if a valid one is among the answers, and an index out of range is the only failure |
| Download.PercentExact | ossa-core/src/store/mod.rs:1190-1197 | The percentage is that of the blocks that are there, rounded down |
| Recovery.DownloadRecovers | ossa-core/src/store/mod.rs:404-448 | Whatever lies peers have told it, from every phase it can be in a store reaches the syncing phase with the published state once its requests get true answers, after at most one round for every lie and three more |
| Recovery.TrueDigests | ossa-core/src/util/merkle_tree.rs:195-286 | True digests make progress in every tree: some lie is found out, or nothing is lost and what was supplied is there |
| Download.HonestDownloadSucceeds | ossa-core/src/store/mod.rs:1426-1471 | Metadata, and what syncing peers serve for any requests that ask for all hashes and all blocks, in any pieces and order, always lead to the syncing phase with the published bytes |
| StoreHandlers.StoreHandler.HandleReceivedMetadata | ossa-core/src/store/mod.rs:576-622 | Marks the peer as ready; ignores metadata that does not validate; otherwise restarts the download in place, answers all who wait for metadata, and goes on if one block is all |
| StoreHandlers.StoreHandler.HandleReceivedMerkleHashes | ossa-core/src/store/mod.rs:646-689 | Marks the peer as ready, sets every hash in the partial tree in place, then tries to complete it |
| StoreHandlers.StoreHandler.HandleReceivedInitialStateBlocks | ossa-core/src/store/mod.rs:691-745 | Marks the peer as ready, takes a block only where one is missing and if it validates, and goes on when none is missing |
| StoreHandlers.StoreHandler.HandleReceivedEcgOperations | ossa-core/src/store/mod.rs:747-804 | Marks the peer as ready, inserts into the graph object and applies what is accepted, then notifies listeners and subscribers except the sender |
| StoreHandlers.StoreHandler.HandleMetadataPeerRequest | ossa-core/src/store/mod.rs:474-490 | Answers, or registers the peer |
| StoreHandlers.StoreHandler.HandleMerklePeerRequest | ossa-core/src/store/mod.rs:492-514 | Answers from a complete tree, or registers the peer with its ranges |
| StoreHandlers.StoreHandler.HandleBlockPeerRequest | ossa-core/src/store/mod.rs:516-535 | Answers also with part of the blocks while they are downloaded, or registers the peer with its ranges |
| StoreHandlers.StoreHandler.HandleEcgSubscribe | ossa-core/src/store/mod.rs:537-564 | Answers at once or parks the subscriber |
| StoreHandlers.StoreHandler.UpdateListeners | ossa-core/src/store/mod.rs:932-963 | Listeners get a snapshot; all who wait get the graph and are removed, except the peer that brought the news |
| StoreHandlers.StoreHandler.UpdateStateToDownloadingInitialState | ossa-core/src/store/mod.rs:806-865 | Moves on exactly when the tree is complete, answers all who wait for hashes, and goes on if there are no blocks |
| StoreHandlers.StoreHandler.UpdateStateToSyncing | ossa-core/src/store/mod.rs:867-929 | Concatenates the blocks, parses them, starts with an empty graph, and tells all listeners, subscribers and those who wait for blocks |
| StoreHandlers.StoreHandler.UpdateOutgoingPeerToReady | ossa-core/src/store/mod.rs:344-368 | The peer may be asked again; it is a failure if we do not sync with it |
| StoreHandlers.StoreHandler.SendSyncRequests | ossa-core/src/store/mod.rs:371-471 | Deals what is missing out to the ready peers, both shuffled, and marks the peers that were asked |
| StoreHandlers.StoreHandler.Apply | ossa-core/src/store/mod.rs:1120-1173 | A local operation is inserted, applied and announced to everyone |
| StoreTaskStates.StateIsReplayed | ossa-core/src/store/mod.rs:780-792 | Over whole runs the latest state of a syncing store is the replay of its accepted headers over the parsed initial state |
| StoreTaskStates.DeliveredHeaders | ossa-core/src/store/mod.rs:747-804 | A delivery fails exactly if the store does not sync, the peer is not synced with, or a header does not parse; otherwise the graph is the old one with the headers inserted in turn |
| StoreTaskStates.AppliedHeader | ossa-core/src/store/mod.rs:1120-1173 | A local header is accepted and added last, or it is a failure |
| StoreTaskStates.OnlyHeadersChange | ossa-core/src/store/mod.rs:576-929 | Nothing but headers changes the graph and the state of a store that goes on syncing |
| StoreTaskStates.RunningStoresConverge | ossa-core/src/store/mod.rs:780-792 | Two running stores of the same id, whatever peers did to them, that sync and hold the same headers hold the same state, for any law-abiding CRDT |
| StoreTaskNews.StepServes | ossa-core/src/store/mod.rs:932-963 | In every step that does not fail, who stops waiting for metadata, hashes, blocks or the graph gets exactly one answer, with what the store has now; nobody else is told anything unless it asks; and news goes to the listeners exactly once, as the state is now |
| StoreTaskNews.AsksServed | ossa-core/src/store/mod.rs:474-564 | Who asks is answered at once if the store has what is asked for, and waits otherwise; nothing else changes |
| StoreTaskNews.NobodyIsForgotten | ossa-core/src/store/mod.rs:604-616 | Over whole runs whoever waits or asks is answered or still waits, and nobody gets more answers than it asked questions |
| StoreTaskNews.GivenForIndices | ossa-core/src/store/mod.rs:1426-1487 | What is given for indices is what the tree, the state, or the blocks so far have there; an index that does not exist is a failure |
| StoreTaskPeers.StoresAsk | ossa-core/src/store/mod.rs:371-471 | After every run a store with a ready peer asks: once for metadata, in a download for everything missing and nothing twice, and while syncing every ready peer with the current graph |
| StoreTaskPeers.StatusStep | ossa-core/src/store/mod.rs:242-368 | In a step that does not fail a peer gets only from known to initializing to syncing, is asked, and is free again when it answers |
| StoreTaskRuns.PhaseFollows | ossa-core/src/store/mod.rs:576-929 | Every step of the task, whatever it does about peers and messages, is a step of the phase machine of the download theorems or ends the task |
| StoreTaskRuns.NobodyWaitsInVain | ossa-core/src/store/mod.rs:474-535 | Over whole runs nobody waits for metadata, hashes or blocks that the store has |
| StoreTaskRuns.AnswersAreTrue | ossa-core/src/store/mod.rs:474-535 | Whatever peers send, over whole runs every answer a store gives about metadata, hashes and blocks is what the creator of its id published |
| StoreTaskPeers.SendEffect | ossa-core/src/store/mod.rs:371-471 | As many requests as there are both requests and ready peers are sent, each to a peer of its own |
| StoreTaskPeers.OneRequestAtATime | ossa-core/src/store/mod.rs:371-471 | Over whole runs no peer is asked again before it has answered |
| StoreTaskPeers.SendingNeverFails | ossa-core/src/store/mod.rs:404-448 | After no run does sending fail for want of anything to ask for, and every request asks for something that is missing then, at most 16 indices at a time |
| StoreTaskWaiters.ParkedIffCurrent | ossa-core/src/store/mod.rs:544-563 | A subscriber is parked exactly when the store is not syncing or the snapshot of the subscriber already holds the same headers |
| StoreTaskWaiters.WaitersLackNothing | ossa-core/src/store/mod.rs:932-963 | Over whole runs a peer that still waits lacks no header: the store has only what its snapshots had or what it sent itself |
| ResponderLoops.EcgSyncResponder.MarkAsKnown | ossa-core/src/protocol/store_peer/ecg_sync.rs:169-188 | The walk with a queue ends, although it remembers nothing, and updates the known headers as specified, in whatever order parents are listed |
| WalkOrder.MarkAnyOrder | ossa-core/src/protocol/store_peer/ecg_sync.rs:169-188 | The order of the queue, and so that of neighbours, makes no difference to what is marked |
| WalkOrder.SendAnyOrder | ossa-core/src/protocol/store_peer/ecg_sync.rs:363-366 | Nor does the order of children make a difference to the send queue |
| WalkOrder.HaveAnyOrder | ossa-core/src/protocol/store_peer/ecg_sync.rs:390-398 | Nor that of parents to the proposal queue |
| ResponderLoops.EcgSyncResponder.HandleTheirTips | ossa-core/src/protocol/store_peer/ecg_sync.rs:407-436 | Known tips are marked and their children queued, unknown ones recorded; without tips the roots are queued |
| ResponderLoops.EcgSyncResponder.HandleTheirKnown | ossa-core/src/protocol/store_peer/ecg_sync.rs:459-495 | The bitmap is matched with the proposals; acknowledged ones are marked, others are queued when their parents are known |
| ResponderLoops.EcgSyncResponder.PrepareOperations | ossa-core/src/protocol/store_peer/ecg_sync.rs:334-371 | The pop loop ends on every graph and delivers as specified, at most 32 headers |
| ResponderLoops.EcgSyncResponder.PrepareOurTips | ossa-core/src/protocol/store_peer/ecg_sync.rs:438-457 | All tips are queued at distance 0 |
| ResponderLoops.EcgSyncResponder.PrepareSentHaves | ossa-core/src/protocol/store_peer/ecg_sync.rs:374-405 | The pop loop ends on every graph and proposes as specified, at most 32 headers |
| ResponderLoops.EcgSyncResponder.UpdateOurUnknown | ossa-core/src/protocol/store_peer/ecg_sync.rs:497-508 | Headers that arrived meanwhile are removed and marked |
| ResponderLoops.EcgSyncResponder.Respond | ossa-core/src/protocol/store_peer/ecg_sync.rs:240-289 | One response, and the peer is told to wait exactly if it would be empty |
| SyncResponder.PopSendWeight | ossa-core/src/protocol/store_peer/ecg_sync.rs:344-368 | Each pop of the send queue takes exactly one off the number of downward paths from the queued headers |
| SyncResponder.PopHaveWeight | ossa-core/src/protocol/store_peer/ecg_sync.rs:380-404 | Each pop of the proposal queue lowers the number of upward paths from the queued headers |
| SyncResponder.MarkStep | ossa-core/src/protocol/store_peer/ecg_sync.rs:176-188 | Each step of marking lowers the number of upward paths from the queued headers |
| Marking.MarkBounds | ossa-core/src/protocol/store_peer/ecg_sync.rs:169-188 | A new header is marked alone, and nothing but ancestors of the header is ever marked |
| Marking.MarkGoesOn | ossa-core/src/protocol/store_peer/ecg_sync.rs:176-188 | Marking goes on through headers that were marked before, to the first that was not |
| Marking.ClosureKeptIff | ossa-core/src/protocol/store_peer/ecg_sync.rs:199-212 | The documented closure under ancestors survives marking a header if and only if the header or all its parents were marked before |
| Marking.ClosureBroken | ossa-core/src/protocol/store_peer/ecg_sync.rs:199-212 | A new peer that names one tip with a parent breaks the documented closure |
| SyncDelivery.NothingIsMissing | ossa-core/src/protocol/store_peer/ecg_sync.rs:334-508 | In no run over growing snapshots, in each of which what arrived meanwhile is dealt with first, does a look-up of a queued, proposed or known header fail |
| SyncDelivery.DeliveredOnce | ossa-core/src/protocol/store_peer/ecg_sync.rs:334-508 | Over whole runs with growing snapshots no header is sent twice, and one counts as known only if it was sent or the peer has it |
| SyncDelivery.SentAgain | ossa-core/src/protocol/store_peer/ecg_sync.rs:334-371 | Draining sends a peer exactly those of its own headers that are pending and do not count as known; none if and only if all pending ones count as known |
| Resending.AncestorIsSentAgain | ossa-core/src/protocol/store_peer/ecg_sync.rs:169-212 | The cost of the broken closure: a peer that named its tip and acknowledged a proposal, both truthfully, is sent an ancestor of that tip |
| Intake.RequestTakenIn | ossa-core/src/protocol/store_peer/ecg_sync.rs:407-508 | After a request pending is exactly what was pending before, every header below a tip it names, and what its answers to the proposals add; what counted as known still does, and so do the tips |
| Intake.HavesTakenIn | ossa-core/src/protocol/store_peer/ecg_sync.rs:459-495 | An acknowledged proposal makes pending what lies below it; one that the peer lacks is pending itself if it is a root or its parents count as known |
| Intake.ArrivalsTakenIn | ossa-core/src/protocol/store_peer/ecg_sync.rs:497-508 | Headers that arrived are missed no longer and count as known; nothing else is forgotten |
| Intake.RequestServed | ossa-core/src/protocol/store_peer/ecg_sync.rs:334-371 | Draining after a request sends exactly what was pending or asked for, except what counts as known |
| Intake.NothingBelowTipsIsMissed | ossa-core/src/protocol/store_peer/ecg_sync.rs:407-436 | An honest peer that names tips has every header below them, or is sent it |
| QueueOrder.QueuesStayInOrder | ossa-core/src/protocol/store_peer/ecg_sync.rs:344-404 | Over whole runs the send queue has shallower headers and then greater ids first, and the proposal queue tips, then deeper headers, then greater ids |
| SyncDelivery.PopSendAccounted | ossa-core/src/protocol/store_peer/ecg_sync.rs:344-361 | A popped header is skipped exactly if it counts as known, and then it was sent or the peer has it |
| SyncDelivery.PrepareDelivers | ossa-core/src/protocol/store_peer/ecg_sync.rs:334-371 | A batch takes as many outstanding headers as fit, each once, and leaves the others outstanding |
| SyncDelivery.BatchesDeliver | ossa-core/src/protocol/store_peer/ecg_sync.rs:334-371 | So do any number of batches in a row |
| SyncDelivery.NewPeerGetsEverything | ossa-core/src/protocol/store_peer/ecg_sync.rs:334-436 | To a peer without tips, draining the queue sends every header of any graph exactly once |
| Replication.RequestTellsAll | ossa-core/src/protocol/store_peer/ecg_sync.rs:103-147 | The initiator names just its tips, and acknowledges just those proposals that it has |
| Replication.SentInLevelOrder | ossa-core/src/protocol/store_peer/ecg_sync.rs:334-436 | After k rounds with a new replica the responder has sent exactly the first 32k headers in the order of depth and then descending id, and the replica is what it could insert of them |
| Replication.LevelPrefixUnique | ossa-core/src/protocol/store_peer/ecg_sync.rs:163-166 | That order is determined by the graph |
| Replication.ReplicatesIff | ossa-core/src/protocol/store_peer/ecg_sync.rs:334-436 | Once everything is sent, the replica equals the responder if and only if every parent precedes its child in that order |
| Replication.GradedReplicates | ossa-core/src/protocol/store_peer/ecg_sync.rs:334-436 | A graph in which all parents of a header have the same depth is replicated completely |
| Replication.SkewedIsNotReplicated | ossa-core/src/protocol/store_peer/ecg_sync.rs:334-436 | A graph of four headers that never arrives completely, in any number of rounds |
| Replication.NeverAccepted | ossa-core/src/store/ecg.rs:307-391 | A header that is sent before one of its parents is refused and never arrives later |
| Proposals.ProposalsExact | ossa-core/src/protocol/store_peer/ecg_sync.rs:374-405 | The proposals are headers at an exponential distance above a queued one, or roots, along headers the peer is not known to have; below the limit they are all of these |
| Proposals.ProposedDistances | ossa-core/src/protocol/store_peer/ecg_sync.rs:385-388 | Headers are proposed at distance zero and at the powers of two, and roots always |
| Proposals.ProposedFromTips | ossa-core/src/protocol/store_peer/ecg_sync.rs:374-405 | From an empty queue, what is proposed are the tips, the headers a power of two above them, and roots, along ways that the peer is not known to have; below the limit all of these |
| Proposals.WaitMeansNothingMissing | ossa-core/src/protocol/store_peer/ecg_sync.rs:253-276 | If what was sent has arrived, a peer is told to wait only when it has every header of the responder |
| Proposals.AllKnownMeansWait | ossa-core/src/protocol/store_peer/ecg_sync.rs:253-276 | A peer that counts as having every header is told to wait |
| EndToEnd.ReplicaHoldsTheState | ossa-core/src/store/mod.rs:747-804 | Under the condition of ReplicatesIff, a replica that applies what it is sent ends with the same headers and the same state as the responder |
| Bits.PowerOfTwoTest | ossa-core/src/util.rs:520-523 | The bit test on 64-bit words, with its wrap-around, holds of zero and of the powers of two only |
| Bits.NumbersThatPass | ossa-core/src/util.rs:520-523 | On numbers, too, exactly zero and the powers of two pass |
| Bits.TestOnNumbers | ossa-core/src/util.rs:520-523 | On 64-bit words it is the test on numbers that the responder is modelled with |
| Multiplexer.Connection.HandleReceive | ossa-core/src/network/multiplexer.rs:235-326 | The recursive parser terminates on every buffer and state and agrees with the byte-at-a-time automaton, including empty messages, unknown streams and lengths over the limit |
| Multiplexer.Connection.ReceiveChunk | ossa-core/src/network/multiplexer.rs:153-163 | The read branch of the run loop replaces the state and delivers in order |
| Multiplexer.Connection.Send | ossa-core/src/network/multiplexer.rs:136-151 | A message is written as stream id, length and body, both numbers big-endian |
| Multiplexer.Connection.CreateStream | ossa-core/src/network/multiplexer.rs:171-187 | A stream is added, and an id that is in use is reported |
| Multiplexer.FrameFate | ossa-core/src/network/multiplexer.rs:235-326 | A written frame is delivered as its message and leaves the fresh state if the stream is known and the length within the limit, and otherwise fails the parser |
| Multiplexer.FrameLayout | ossa-core/src/network/multiplexer.rs:136-151 | Stream id and length come first, four bytes each, the most significant first, and then the body |
| Multiplexer.ChunkingIndependence | ossa-core/src/network/multiplexer.rs:235-326 | How any bytes are cut into pieces makes no difference to what is delivered and to the state, also while streams are added |
| Multiplexer.FramesSurviveChunking | ossa-core/src/network/multiplexer.rs:136-326 | Frames within the limit on known streams, cut up in any way, deliver exactly their messages in order and leave the fresh state |
| Multiplexer.PrefixDelivered | ossa-core/src/network/multiplexer.rs:235-326 | After part of the bytes a prefix of the messages has been delivered |
| Multiplexer.FramesUnambiguous | ossa-core/src/network/multiplexer.rs:136-151 | Different message sequences are never written the same way |
| Manager.ManagerState.NextStreamId | ossa-core/src/protocol/manager/v0.rs:193-197 | The next id is two more than the last |
| Manager.ManagerState.Request | ossa-core/src/protocol/manager/v0.rs:260-272 | An id that is given out passes the check of the other side |
| Manager.StreamIdsNeverCollide | ossa-core/src/protocol/manager/v0.rs:177-197 | However both sides take turns, all stream ids of a connection differ, from each other and from those in use at the start, and have the parity that is checked |
| Manager.StreamIdsCountUp | ossa-core/src/protocol/manager/v0.rs:177-197 | The client opens 3, 5, 7 and so on and the server 4, 6, 8, whatever the other side does |
| Manager.AdvertiseStoresClient | ossa-core/src/protocol/manager/v0.rs:405-447 | A bit is set exactly for the first mention of each of our stores, and the stores found are kept in order |
| Manager.BothSidesAgree | ossa-core/src/protocol/manager/v0.rs:350-447 | Without hash collisions both sides come to the same list: the advertised stores that the client has |

## Left out

- TCP, Tokio tasks and channels, handshakes, identity keys and NAT traversal: input and output; channels are sequences of messages and tasks are steps.
- CBOR and SHA-256: decoding is a parameter of the CRDT and of the download, hashing a parameter with its collision freedom as a hypothesis.
- The statuses of incoming peers and the tasks that are spawned for peers: only the outgoing statuses decide what a store asks for.
- Channels whose receiver is gone: sending to them is a failure in the code and succeeds here. The messages a handler sent before it fails are not kept.
- The registration of listeners: a message to the listeners stands for one message to each of them.
- The overflow of the progress percentage for states of more than 2^64 / 100 bytes: the computation is on unbounded numbers.
- The binary search of the persistent vector on siblings that no order sorts: it stands for any search there (`SiblingOrder`); on sorted siblings it is modelled as it is.
- Digests of a fixed width: they are unbounded numbers, so that a hash without collisions exists; in the hash input of the metadata a digest comes last and takes the bytes it needs.
- Merkle hashes and blocks asked for outside the tree or the state: the store fails, as in the code, where its comments ask for an error.
- Convergence of two replicas that have both diverged: a merge header can be sent before one of its parents, so this does not hold in general; the theorems cover a new replica, and what is delivered to any replica.
- Machine-word limits of depths, indices and stream ids: numbers are unbounded, with a bound as a precondition where the code would wrap around (`EcgState.EcgState.InsertHeader`, `Manager.ManagerState.NextStreamId`).
- A Merkle tree with no leaves: the node count underflows, which is modelled as the failure of the store.
- An advertisement of more than 256 stores: the message type limits it, and the parser does not check that yet.
- The heartbeat, the hooks for user interfaces, the derive macros and the commented-out OR-set.
- StoreStates.MapStoresConverge: keys are values that carry no time, as for keys that are constants.
- Manager.AdvertiseStoresClient: the list of hashes is at most 256 long, as the message type promises.
