# Causal delivery, packing and identity in go-helios-v2-primitive

A Dafny model of the parts of the repository that decide which vertices a node stores, in
which order transactions leave in blocks, and what identifies a vertex, with proofs of what
the code promises about them.

- `Model.dfy`, `Iteration.dfy`, `Bytes.dfy` hold the shared values: 64-bit integers with
  wrap-around, hashes, blocks, vertices, and Go's iteration over a map as an arbitrary order.
- `Dag.dfy`, `Store.dfy`, `WeakEdges.dfy`: the vertex store. `Store.DAG` is the object with its
  three mutable maps; `WeakEdges` shows that the lazily written index is a transparent cache.
- `Delivery.dfy`, `Runs.dfy`, `Agreement.dfy`, `Consequences.dfy`, `DrainBound.dfy`,
  `NodeState.dfy`, `Waves.dfy`: the delivery state machine. `NodeState.State` is the object; its
  methods are proved to take the steps of `Delivery`, whose runs are shown to compute a least
  fixpoint. Agreement, acyclicity, eventual delivery and the order of waves follow.
- `Packing.dfy`, `TxPool.dfy`, `Interleaving.dfy`, `Traces.dfy`: the transaction buffer.
  `TxPool.Coordinator` is the object; `Interleaving` runs any number of producers against one block
  maker and a consumer, one lock step or counter increment at a time, and `Traces` describes its
  runs by their events.
- `Identity.dfy`, `Base64.dfy`, `Wire.dfy`, `EndToEnd.dfy`: the hash preimage, the wire form, and
  agreement derived from content hashes.
- `RoundMachine.dfy`, `RoundMessages.dfy`: the coordinator's rounds, and what they are in terms of
  the messages received.

Assumptions. Delivery results assume that equal vertex hashes mean equal rounds and parents;
`Identity.ContentHashesIdentify` derives that for vertices that carry their content hash, for
any hash function that does not collide on the preimages involved. Genesis has round 0 and no
parents, as `pkg/node/node.go` builds it. Map iteration and `sort.Slice` may produce any order
their contracts allow.

Where code and documentation part. `README.md` of the repository promises that all honest nodes
agree on the same vertices. In the code nodes with one genesis vertex agree exactly when the same
vertices reached both before being marked as delivered there (`Agreement.NodesAgree`): a mark that
comes first hides its vertex (`Agreement.MarkHides`). This needs round counters that have not
wrapped or stand at their highest value again; for any other number of advances two nodes that
receive the same vertex can disagree (`Consequences.DisagreementAfterWrap`). `pkg/node/node.go`
builds a different genesis for each node key; such nodes show the same exactly when the same
vertices reached both, the genesis of each counted among what it has (`EndToEnd.GenesisExact`): it
is enough to exchange the genesis vertices (`EndToEnd.GenesisExchange`), and nodes that receive
nothing disagree (`EndToEnd.GenesisDisagreement`). One wire record can decode to different vertices:
exactly when two of its parent keys decode alike and carry different rounds
(`Wire.OneOutcomeExact`). The coordinator's round can fall: exactly when a vertex fills round 2^64 -
1, which a handled block of that height makes the current round (`RoundMachine.DecreaseExact`,
`RoundMachine.WrapReachable`). `GetOrderedVertices` does not end for waves that are 2^62 - 1 modulo
2^62 (`Waves.LoopEndsExact`). `createBlock` never removes a transaction larger than the limit
(`Packing.DrainExact`).

`dafny verify dfyconfig.toml` checks the project.

## Model

| member | source | states |
|---|---|---|
| Store.DAG.constructor | pkg/consensus/dag.go:29-44 | a new DAG holds the genesis vertex in round 0 and no edges |
| Store.DAG.InsertVertex | pkg/consensus/dag.go:47-66 | the three maps after an insertion: the vertex under its round and hash, its parents as strong edges, its weak edges rebuilt above round 2 |
| Store.DAG.AddStrongEdges | pkg/consensus/dag.go:56-60 | only the entry of the vertex changes, to exactly its parents, for every iteration order |
| Store.DAG.AddWeakEdges | pkg/consensus/dag.go:69-83 | only this vertex's entry changes, to the hashes stored from round 1 up to three rounds below that are not strong edges, for every iteration order |
| Store.DAG.AddWeakEdgesToRound | pkg/consensus/dag.go:74-81 | the inner loop adds exactly the non-parents of one round |
| Store.DAG.ContainsVertices | pkg/consensus/dag.go:86-100 | true exactly when every hash is stored under some round |
| Store.DAG.GetVertexCountInRound | pkg/consensus/dag.go:103-108 | the number of hashes stored under a round, zero when the round is missing |
| Store.DAG.GetVerticesInRound | pkg/consensus/dag.go:111-120 | every vertex of the round exactly once, in some map order; nil exactly when the round map is missing |
| Store.DAG.GetStrongParents | pkg/consensus/dag.go:123-136 | the hash of each vertex of the round before exactly once, in some map order; nil for round 0 and for a missing round map |
| Store.DAG.IsLinked | pkg/consensus/dag.go:139-167 | the answer, and the one index entry the query may write |
| Store.DAG.IsStronglyLinked | pkg/consensus/dag.go:170-177 | true exactly for a recorded strong edge |
| Store.DAG.IsLinkedWithOthersInRound | pkg/consensus/dag.go:180-189 | one answer for every iteration order: some other vertex of the round is linked; nothing is written when none is, and one link of an arbitrary such vertex otherwise |
| DagSpec.InsertHashes | pkg/consensus/dag.go:47-54 | insertion adds exactly one hash to the store |
| DagSpec.InsertAllMatches | pkg/consensus/dag.go:47-60 | a store built by insertions holds exactly what was inserted, under its own round and hash, with strong edges to its parents |
| DagSpec.InsertEdges | pkg/consensus/dag.go:56-65 | an insertion disturbs the edges of no other vertex, and below round three no weak edges at all |
| NodeState.State.constructor | pkg/consensus/state.go:30-43 | a new state is in round 0 with genesis stored and delivered |
| NodeState.State.AddVertex | pkg/consensus/state.go:61-86 | the whole new state: ignored when delivered, stored and drained when ready, buffered otherwise |
| NodeState.State.ProcessBuffer | pkg/consensus/state.go:89-112 | the in-place passes compute the repeated-pass drain, and their number is exactly TotalPasses, which the lemmas of DrainBound bound |
| NodeState.State.ScanBuffer | pkg/consensus/state.go:95-110 | one in-place scan, which inserts while it scans, leaves what one pass leaves, and tells whether it inserted anything |
| NodeState.State.AdvanceRound | pkg/consensus/state.go:53-58 | the round counter steps with wrap-around and the buffer is drained |
| NodeState.State.IsReady | pkg/consensus/state.go:70-77 | the delivery test: round reached and all parents stored |
| NodeState.State.MarkVertexDelivered | pkg/consensus/state.go:170-174 | only the delivered set changes, by one hash |
| NodeState.State.IsVertexDelivered | pkg/consensus/state.go:161-167 | true exactly for a hash in the delivered set, which DeliveredExact describes |
| NodeState.State.GetStrongParents | pkg/consensus/state.go:129-133 | the same for the current round; in a store built by insertions, exactly the stored hashes of the round before, without repetition |
| NodeState.State.GetOrderedVertices | pkg/consensus/state.go:202-220 | for every wave on which the loop ends, the stored vertices of its four rounds once each in order of rounds |
| Delivery.PassContract | pkg/consensus/state.go:95-108 | one pass splits the buffer into what it inserts and what it keeps; what it keeps was not ready; a pass that keeps all changes nothing |
| Delivery.DrainContract | pkg/consensus/state.go:89-112 | a drain splits the buffer likewise and leaves nothing that is ready |
| Delivery.DeliverKeeps | pkg/consensus/state.go:101-103 | one insertion in mid-pass keeps causal order, conservation and the round bound |
| Runs.DrainRestores | pkg/consensus/state.go:89-112 | a drain restores the invariant between operations, including that no stored hash is still buffered |
| Runs.RunKeeps | pkg/consensus/state.go:53-112 | the invariant holds after every run of AddVertex, AdvanceRound and MarkVertexDelivered |
| Agreement.FixpointRefinement | pkg/consensus/state.go:61-112 | the stored hashes are exactly the least set that contains genesis and is closed under delivery of the vertices not ignored; with marks too |
| Agreement.ReceivedFixpoint | pkg/consensus/state.go:61-112 | without marks they are the least such set over everything received |
| Agreement.NodesAgree | pkg/consensus/state.go:53-112 | nodes with one genesis that advance equally often have equal rounds, strong edges and backlogs exactly when the same hashes reached both before being marked there, in any order and with any repetition |
| Agreement.MarkersAgree | pkg/consensus/state.go:53-112 | with equal marks the delivered sets are equal too |
| Agreement.ReceiversAgree | pkg/consensus/state.go:53-112 | without marks it is enough to receive the same vertices |
| Agreement.MarkHides | pkg/consensus/state.go:170-174 | for any vertex: a node that marks it before it arrives disagrees with a node that only receives it; a mark after it arrives changes nothing in the store |
| Agreement.StoreContained | pkg/consensus/state.go:53-112 | a node that lags, in rounds or in what reached it, has stored nothing that a node ahead of it has not, even from a genesis of its own |
| Agreement.DeliveredExact | pkg/consensus/state.go:169-174 | delivered means stored or marked, nothing else |
| Agreement.AcceptedExact | pkg/consensus/state.go:65-68 | a hash is taken up exactly when a vertex with it arrives before it is marked |
| Agreement.UnmarkedRun | pkg/consensus/state.go:65-85 | without marks delivered means stored, and every received hash but genesis is taken up |
| Consequences.DisagreementAfterWrap | pkg/consensus/state.go:56 | the hypothesis of agreement on the number of advances is exact: for any other number two runs that receive one vertex end with different stores |
| Consequences.TopVertexArrives | pkg/consensus/state.go:56-77 | when a vertex of the highest round is delivered on arrival, as the counter wraps |
| Consequences.Conservation | pkg/consensus/state.go:61-112 | accepted = inserted + buffered as multisets, no stored hash is buffered, nothing buffered is deliverable, every parent is inserted before its child, no stored round exceeds the highest reached |
| Consequences.BufferInArrivalOrder | pkg/consensus/state.go:82-110 | in every run the buffer holds its vertices in the order in which they arrived |
| Consequences.TakenUpExact | pkg/consensus/state.go:65-68 | a vertex is taken up exactly when its hash is not in the delivered set on arrival, in order of arrival |
| Consequences.UnfoundedNeverDelivered | pkg/consensus/state.go:77-80 | no vertex of a set each of whose members names a parent inside the set is ever delivered |
| Consequences.CycleNeverDelivered | pkg/consensus/state.go:101-103 | a vertex on a cycle of parents, or its own parent, is never delivered |
| Consequences.StrongEdgesAcyclic | pkg/consensus/dag.go:56-60 | the strong edges of every reachable state are acyclic, though no round is compared |
| Consequences.ParentStored | pkg/consensus/state.go:77-80 | a parent of a stored vertex is stored |
| Consequences.EventualDelivery | pkg/consensus/state.go:53-112 | once the round has reached everything received, the buffer is empty exactly when the received set is ancestor-closed and well-founded, whatever the arrival order |
| Consequences.OwnVertexDelivered | pkg/consensus/state.go:77-85 | a vertex for the current round built on GetStrongParents is stored at once |
| DrainBound.PassesMakeChain | pkg/consensus/state.go:89-112 | k productive passes exhibit a chain of k delivered vertices, each a parent of the next |
| DrainBound.DrainBound | pkg/consensus/state.go:89-112 | the passes that ProcessBuffer makes are at most one more than the longest chain of buffered ancestors among the delivered |
| DrainBound.PassesWithinBuffer | pkg/consensus/state.go:89-112 | the passes that insert something never exceed the vertices delivered; the buffer length is the measure |
| DrainBound.OnePassExact | pkg/consensus/state.go:95-108 | one productive pass is enough exactly when every copy of a deliverable vertex in the buffer lies after its parents |
| EndToEnd.DecodedNodesAgree | pkg/consensus/state.go:53-112 | the exact condition for agreement, from content hashes and an absence of collisions alone |
| EndToEnd.GenesisExact | pkg/node/node.go:45-57 | nodes with genesis vertices of their own that advance equally often store the same hashes, in the same rounds and with the same parents, and buffer the same, exactly when each has what the other has: its genesis or what reached it unhidden |
| EndToEnd.GenesisExchange | pkg/node/node.go:45-57 | two nodes that exchange their genesis vertices show the same |
| EndToEnd.GenesisDisagreement | pkg/node/node.go:45-57 | two nodes with different genesis hashes that receive nothing never store the same |
| Waves.LoopEndsExact | pkg/consensus/state.go:207-212 | the loop over rounds can end for every wave but those equal to 2^62 - 1 modulo 2^62 |
| Waves.WavesShareExact | pkg/consensus/state.go:190-192 | two waves share a round exactly when they are equal modulo 2^62 |
| Waves.WavesPartition | pkg/consensus/state.go:202-220 | outputs of consecutive waves list every stored vertex of their rounds once, in order of rounds |
| Waves.AncestorsFirst | pkg/consensus/state.go:202-220 | when parents have lower rounds every ancestor is listed, before its descendant |
| Waves.RunIsStore | pkg/consensus/state.go:202-220 | the DAG of every run is a store built by insertions, so the promise of GetOrderedVertices holds in every state reached |
| Waves.RunPartition | pkg/consensus/state.go:202-220 | in any run the concatenated outputs list the hash of every stored vertex of their rounds exactly once, in order of rounds |
| Waves.RunLinearized | pkg/consensus/state.go:202-220 | in any run whose received vertices lie above those of their parents that were received, every ancestor of a listed vertex is listed, before it |
| WeakEdges.LinkExact | pkg/consensus/dag.go:139-167 | after any mix of insertions and queries: linked exactly when a parent of the inserted vertex, or stored at least three rounds lower |
| WeakEdges.HistoryTransparent | pkg/consensus/dag.go:139-167 | neither queries nor insertion order change any answer |
| WeakEdges.OnceLinkedAlways | pkg/consensus/dag.go:139-167 | an answer once true stays true |
| WeakEdges.OthersExact | pkg/consensus/dag.go:180-189 | after any mix of insertions and queries, the query about a round answers whether some other vertex inserted in that round is linked to, by the definition without cache and order |
| WeakEdges.WeakEdgeShape | pkg/consensus/dag.go:69-83 | weak edges lead from vertices inserted or asked about to stored vertices at least three rounds lower, and never double a strong edge |
| WeakEdges.TargetsExact | pkg/consensus/dag.go:69-83 | which weak edges insertion itself writes, in terms of the vertices inserted before |
| WeakEdges.InsertKeeps | pkg/consensus/dag.go:47-83 | insertion keeps the index invariant |
| WeakEdges.LinkWriteExact | pkg/consensus/dag.go:139-167 | a query adds to the index exactly the pair it answered for, and nothing else |
| WeakEdges.LinkKeeps | pkg/consensus/dag.go:154-163 | the write of a query keeps the index invariant |
| TxPool.Coordinator.constructor | pkg/transaction/transaction.go:94-110 | an empty buffer of 100000 places and an empty channel of 10000 |
| TxPool.Coordinator.ReadCheck | pkg/transaction/transaction.go:255-268 | the check under the read lock and its counters |
| TxPool.Coordinator.LockedAppend | pkg/transaction/transaction.go:272-290 | the second check and the append under the write lock |
| TxPool.Coordinator.AddTransaction | pkg/transaction/transaction.go:245-299 | the whole new state of an uninterrupted call |
| TxPool.Coordinator.CreateBlock | pkg/transaction/transaction.go:185-242 | nothing at all for an empty buffer, otherwise one block cut, sent or dropped |
| TxPool.Coordinator.LockedCut | pkg/transaction/transaction.go:199-241 | the whole new state of the locked part |
| TxPool.Coordinator.MakeBlock | pkg/transaction/transaction.go:219-232 | the block carries the selected transactions at the current height; they leave the buffer, and height and counters step |
| TxPool.Coordinator.SendBlock | pkg/transaction/transaction.go:235-241 | the block enters the channel, or is counted as dropped when it is full |
| TxPool.Coordinator.ReceiveBlock | pkg/node/node.go:154-163 | a receive takes the oldest block of the channel and nothing else |
| TxPool.SelectTransactions | pkg/transaction/transaction.go:204-216 | the loop with its running total takes the longest prefix within the limit |
| TxPool.CallsBuffer | pkg/transaction/transaction.go:202-232 | repeated calls leave in the buffer what the packing arithmetic says |
| TxPool.DrainCreates | pkg/transaction/transaction.go:202-232 | the calls that empty the buffer create exactly the greedy blocks |
| Packing.FitLongest | pkg/transaction/transaction.go:204-216 | the selection is the longest fitting prefix |
| Packing.LongestFitUnique | pkg/transaction/transaction.go:204-216 | only one prefix is |
| Packing.BlocksSplit | pkg/transaction/transaction.go:204-232 | the blocks cut the buffer contiguously, each within the limit |
| Packing.CallsNeeded | pkg/transaction/transaction.go:202-232 | exactly the calls from the number of blocks on leave the buffer empty |
| Packing.DrainExact | pkg/transaction/transaction.go:202-232 | some number of calls empties the buffer exactly when no transaction exceeds the limit |
| Packing.GreedyOptimal | pkg/transaction/transaction.go:202-232 | no order-preserving split has fewer blocks than greedy packing, which is one |
| Packing.Consecutive | pkg/transaction/transaction.go:204-216 | two consecutive blocks together exceed the limit |
| Packing.PackingBound | pkg/transaction/transaction.go:204-216 | k blocks for S bytes satisfy (k - 1) * limit <= 2 * S |
| Packing.UniformCount | pkg/transaction/transaction.go:204-216 | transactions of one size, m of which and no more fit a block, need exactly the ceiling of their number by m blocks |
| Packing.DividingCount | cmd/benchmark/benchmark_test.go:73-75 | when the size divides the limit, exactly the ceiling of total size by limit |
| Interleaving.CutKeeps | pkg/transaction/transaction.go:199-241 | cutting and sending a block keeps ledger, channel and counters |
| Interleaving.StepKeeps | pkg/transaction/transaction.go:185-299 | every step keeps the invariant: lock steps of a producer, each of its counter increments on its own, the cut of the block maker, and a receive |
| Interleaving.RunLongest | pkg/transaction/transaction.go:204-216 | in every interleaving each block created, dropped or not, was the longest fitting prefix of the buffer it was cut from, and holds the accepted transactions from its offset on |
| Interleaving.CapacityAndConservation | pkg/transaction/transaction.go:255-292 | in every interleaving the buffer stays within capacity, and processed + buffered - received is the number of producers between append and count, modulo 2^64 |
| Interleaving.FifoLedger | pkg/transaction/transaction.go:202-241 | created blocks in order of height, dropped ones included, then the buffer, spell out the accepted transactions in order; each was the longest that fits; the sent ones are a subsequence of the created, taken in that order; sent and dropped make the block count |
| Interleaving.EveryCallAccounted | pkg/transaction/transaction.go:245-299 | every submitted transaction was accepted, counted as dropped, waits between the two checks, or was refused by a producer that has not yet counted the drop, modulo 2^64; full-buffer events exceed drops by the producers between the two increments |
| Interleaving.CountersMeetExact | pkg/transaction/transaction.go:260-282 | with fewer than 2^64 producers the two counters of refusals are equal exactly when none stands between them |
| Interleaving.CutsNonEmptyBuffer | pkg/transaction/transaction.go:189-216 | the unlocked emptiness check is safe, and each cut is the longest fitting prefix at that moment |
| Traces.EverySubmissionPlaced | pkg/transaction/transaction.go:245-299 | over every run each transaction is among the accepted, the refused and those held between the two checks, together, exactly as often as it was submitted |
| Traces.AcceptedExact | pkg/transaction/transaction.go:272-287 | what is accepted is what each committing producer submitted last, in order of commits |
| Traces.CutExact | pkg/transaction/transaction.go:234-241 | a cut with room in the channel puts the block just made at the end of the queue and counts no drop; with a full channel it counts one and leaves the channel alone |
| Traces.CutBlock | pkg/transaction/transaction.go:219-232 | the block cut carries the head of the buffer, the current height and their hash |
| Traces.SentExact | pkg/transaction/transaction.go:199-241 | over every run each cut makes one block, the blocks sent are exactly those of the cuts that found room, the other cuts are counted as drops, and each receive takes one |
| Traces.ProducerCanStep | pkg/transaction/transaction.go:245-299 | each producer can always take a step, of one kind only |
| Traces.MakerCanCut | pkg/transaction/transaction.go:185-199 | while transactions are buffered, one check lets the block maker cut |
| Traces.ConsumerCanTake | pkg/node/node.go:154-163 | a receive is possible exactly while a block is queued, and takes the oldest |
| Traces.UninterruptedCall | pkg/transaction/transaction.go:245-299 | a call with nobody in between does what the sequential method does |
| Identity.CompareHashes | pkg/model/vertex.go:155-162 | the comparator decides by the first differing byte |
| Identity.LessTotalOrder | pkg/model/vertex.go:155-162 | it is a strict total order |
| Identity.LessNumeric | pkg/model/vertex.go:155-162 | hashes are ordered as the numbers that their bytes spell |
| Identity.SortedUnique | pkg/model/vertex.go:151-162 | the keys of a map sort in one way only, whatever the iteration order and the sort |
| Identity.CalculateHash | pkg/model/vertex.go:128-174 | the hash computed in any iteration order is the hash of one preimage |
| Identity.PreimageReadBack | pkg/model/vertex.go:131-166 | the preimage decodes to owner, round, wave, block field and parents |
| Identity.PreimageLayout | pkg/model/vertex.go:131-147 | where each field lies; a filled cache contributes its 32 bytes, an empty one the hash of height and transactions, a nil block zeros |
| Identity.PreimageInjective | pkg/model/vertex.go:131-166 | equal preimages exactly for equal fields |
| Identity.ContentHashesIdentify | pkg/model/vertex.go:128-174 | without collisions equal content hashes mean equal fields, hence equal rounds and parents |
| Identity.BlocksIdentified | pkg/model/vertex.go:140-147 | without collisions vertices with one content hash carry blocks of one height with the same transaction bytes |
| Identity.CalculateBlockHash | pkg/model/block.go:41-58 | the write loop hashes height and transactions in order |
| Identity.NewBlockExact | pkg/model/block.go:29-38 | the cache of a new block is the hash of its height and transactions |
| Bytes.U64RoundTrip | pkg/model/vertex.go:134-138 | eight big-endian bytes determine a 64-bit value |
| Bytes.U64BytesExact | pkg/model/vertex.go:134-138 | the most significant byte comes first |
| Base64.AlphabetExact | pkg/model/types.go:49-51 | table 1 of RFC 4648 |
| Base64.EncodeExact | pkg/model/types.go:49-51 | groups of 24 bits written as four six-bit characters, with padding at the end, as section 4 of RFC 4648 defines |
| Base64.DecodeEncode | pkg/model/types.go:49-64 | decoding undoes encoding, for every byte string |
| Base64.EncodeInjective | pkg/model/vertex.go:193-197 | encoded keys cannot merge parents |
| Base64.CanonicalExact | pkg/model/vertex.go:262-268 | a string encodes b exactly when it decodes to b, has no line break and its unused bits are zero |
| Base64.DecodeExact | pkg/model/types.go:54-64 | a string decodes to b exactly when, without its line breaks, it is the text of quanta whose bytes are b, only the last padded |
| Base64.BreakIgnored | pkg/model/types.go:54-64 | a line break anywhere makes no difference |
| Base64.DecodeNotInjective | pkg/model/vertex.go:262-268 | two different keys may decode alike |
| Base64.Json32RoundTrip | pkg/model/types.go:31-82 | the JSON form of a 32-byte array restores it in any receiver |
| Base64.UnmarshalJson32Exact | pkg/model/types.go:54-64 | a quoted string of any decoded length is copied over the receiver; other text is refused |
| Base64.CopyExact | pkg/model/types.go:62 | the bytes there are replace those of the array, the rest stay |
| Wire.MarshalBinary | pkg/model/vertex.go:182-210 | the record written, with one key per parent |
| Wire.RekeyParents | pkg/model/vertex.go:193-197 | the loop keeps every parent and its round and adds nothing |
| Wire.KeyHashExact | pkg/model/vertex.go:262-268 | a key of any decoded length is taken: missing bytes are zero, extra ones are dropped |
| Wire.VertexCell.UnmarshalBinary | pkg/model/vertex.go:213-282 | which records are accepted, the first error otherwise, and the receiver after success and after each error |
| Wire.VertexCell.MergeParents | pkg/model/vertex.go:262-270 | the loop over the decoded map in any order, with its early return |
| Wire.OrderFreeExact | pkg/model/vertex.go:262-270 | the parents decoded are the same for every iteration order exactly when keys that decode to one hash carry one round |
| Wire.OneOutcomeExact | pkg/model/vertex.go:213-282 | exactly then a record decodes to one vertex, with one hash |
| Wire.ConflictingKeys | pkg/model/vertex.go:262-270 | two keys that decode alike, with different rounds |
| Wire.ConflictingRecord | pkg/model/vertex.go:213-282 | an accepted record with two outcomes, whose parents differ and whose hashes differ unless the hash collides |
| Wire.MarshalAcceptable | pkg/model/vertex.go:182-282 | what is written is accepted |
| Wire.ParentsRoundTrip | pkg/model/vertex.go:193-270 | re-keying and merging into an empty map give the parents back |
| Wire.ParentsMerge | pkg/model/vertex.go:262-270 | decoding into a receiver that has parents adds to them and replaces the rounds of those read |
| Wire.HeaderRoundTrip | pkg/model/vertex.go:236-270 | when only the parents of an encoded vertex fail to be read, the other fields are already those of the vertex |
| Wire.AbsentFields | pkg/model/vertex.go:213-282 | a missing wave reads as zero, a missing block as none, a missing hash as zero, and the hash in the record makes no difference to the outcome |
| Wire.ErrorOrder | pkg/model/vertex.go:213-260 | which check fails first, in terms of the fields |
| Wire.WireRoundTrip | pkg/model/vertex.go:182-282 | a fresh receiver gets owner, round, wave, parents, block height and transactions back, and the content hash of the original when its block hash was right |
| Wire.NewVertexRoundTrip | pkg/model/vertex.go:39-50 | a vertex as the constructors make it comes back unchanged |
| RoundMachine.Coordinator.constructor | pkg/consensus/consensus.go:43-65 | the coordinator starts in the given round over a DAG with genesis only |
| RoundMachine.Coordinator.HandleVertex | pkg/consensus/consensus.go:198-229 | the whole new state: vertex stored, and a block and the next round once the round holds a committee's worth |
| RoundMachine.Coordinator.HandleBlock | pkg/consensus/consensus.go:231-251 | the whole new state: last block recorded, round raised to a height that is not lower |
| RoundMachine.DecreaseExact | pkg/consensus/consensus.go:225 | a step lowers the round exactly when a vertex fills the highest round |
| RoundMachine.MonotoneExact | pkg/consensus/consensus.go:198-251 | along a run the round never falls exactly when that never happens |
| RoundMachine.WrapReachable | pkg/consensus/consensus.go:225-248 | one block of the highest height and a committee's worth of vertices send the round to zero |
| RoundMachine.RoundHistory | pkg/consensus/consensus.go:198-251 | a run has this history exactly when no vertex fills the highest round in it: every round passed was filled or jumped by a greater height, and created blocks have strictly increasing heights of filled rounds below the current one |
| RoundMessages.VertexMessageExact | pkg/consensus/consensus.go:198-229 | a vertex of whatever round makes the coordinator create and remember the empty block of its round and move on exactly when the distinct hashes of that round among genesis and the vertices received number a committee; otherwise only the store changes |
| RoundMessages.BlockMessageExact | pkg/consensus/consensus.go:231-251 | a block raises the round to its height if higher, is remembered by its cached hash or the hash of its content, and creates nothing |
| RoundMessages.RoundExact | pkg/consensus/consensus.go:198-251 | over any run the round is the one computed from the messages alone |

## Left out

- NodeState.State.GetOrderedVertices: requires a wave on which the loop ends; for the others the code does not return, as Waves.LoopEndsExact shows.
- Store.DAG.GetVerticesInRound: leaders, the first vertex of a list, are not modelled, since only membership in the round is determined.
- TxPool.Coordinator.AddTransaction: the stop flag is read once at the start and is not part of the interleavings; timing metrics, the gauge of the buffer size, averages and log lines are left out.
- Identity.CalculateHash: sort.Slice is modelled by an insertion sort on a sequence, but only the contract of a sort is used; the cache inside a block is a value, not a pointer.
- Wire.VertexCell.UnmarshalBinary: JSON text is an abstract record, so JSON syntax errors and null fields are not modelled.
- Network, channels between goroutines, command-line programs and pkg/vertex: inputs are arbitrary sequences of operations.
- BLAKE3, ed25519, clocks and timestamps: the hash is any function, timestamps are ignored.
- Injectivity of the block hash: transactions are written without lengths, and a nil block shares the zero field; only the block-hash field is identified.
- AddParent and the parent accessors of a vertex: AddParent does not recompute the hash; the accessors are one-line filters.
- The queue of blocks to propose, the unused edges map, the unused ring-buffer fields: easy or unused.
- Quorum and Byzantine claims: vertices are counted by hash and QuorumThreshold is not used by this code.
- Equality of weakEdges contents between nodes: false, since the index depends on arrival order; only the answers agree.
