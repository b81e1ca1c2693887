# goraphdb: a verified model

goraphdb is an embedded graph database in Go: nodes and edges with properties in
sharded bbolt buckets, secondary, composite, label and unique indexes, a write-ahead
log shipped to followers, graph searches, a Cypher subset, and caches in front of the
reads. This project models its core in Dafny and proves what the system relies on.

A shard is a record of its buckets: maps keyed by ID and sets of byte-string keys. A
transaction is a change to one shard that is committed whole or dropped. Strings are
byte sequences, `fmt.Sprintf("%v")` is an arbitrary function from values to strings,
hashes are arbitrary functions, and weights are reals.

The parts and how they build on each other:

* **Store and replication.** `Store` holds the buckets and index keys, `Leader` the
  write methods as functions from state to state and log entries, `Applier` the replay
  of an entry. `Transaction`, `Batches`, `Definitions`, `UniqueBuild`, `Database` and
  `FollowerStore` are the same operations as they run: objects whose fields loops
  change, each method proved to end where the function says. `Replay` proves that the
  follower simulates the leader, `Commute` that independent entries may be reordered,
  `Pipeline` that eight workers which finish conflicting entries in order end where the
  leader does, `Schedules` and `Workers` the same with every transaction a step of its
  own. `Reapply`, `Redelivery`, `Settling`, `LabelOrder` and `Reconnect` are about entries
  that are applied again, `Promotion` about a follower that starts taking writes.
* **Invariants over runs.** `Adjacency` (buckets mirror one edge map, endpoints exist,
  how far the edge counter drifts), `NodeState` (records and labels), `Unique`
  (uniqueness per shard, and globally exactly for one shard), `UniqueExact` (when the
  unique index is exact and refusals are justified), `Indexes` (soundness and
  completeness), `ReadShortcuts` (cache and bloom filter).
* **Reads.** `Keys` and `Cursor` make prefix seeks exact, `EdgeReads`, `Lookups` and
  `Plans` show that adjacency lists, index lookups and every node-match strategy return
  what a scan of the records would, `Conditions` what a WHERE says of stored values.
* **Algorithms.** `Heap`, `Dijkstra`, `AllPaths`, `TopologicalSort`, `BreadthFirst`,
  `TopK`, each an imperative method with its full specification. `Relaxation` is Dijkstra's
  loop as a state machine for weights of any sign, `NegativeWeights` and `LabelCorrecting`
  are about its runs.
* **Log, tracker, parser, cache, filter.** `Wal`, `Tailing`, `Watermark`, `Parser`,
  `NodeCache`, `Bloom`.

Places where the code does less than its comments say, and where the model follows the
code, each with the lemma that says exactly when, or shows the run:

* `PathResult.Cost` is the hop count even for weighted paths (`Graph.BuildPathResult`).
* Deleting a node with a self-loop counts that edge down twice (`Adjacency.CallDrift`).
* `UpdateNode` drops the unique entries of the merged values rather than the old ones and
  `RemoveLabel` leaves unique entries behind, so a free value can stay refused
  (`UniqueExact.ExactnessExactly`, `UpdatedAwayIsRefused`, `UnlabelledIsRefused`).
* Uniqueness is checked in the node's own shard only (`Unique.SingleShardIsUnique`,
  `ManyShardsMayRepeat`).
* Dropping a constraint can wipe the keys of another whose prefix it starts
  (`Unique.DropKeepsExactly`, `DropWipesOther`).
* The stored applied LSN can step back (`Watermark.StepsBackExactly`), after which a
  stretch of the log is applied again. It is refused exactly if an entry in it needs a
  record that the stretch has not created by then and in the end deletes
  (`Redelivery.RedeliveryExactly`); otherwise counters move a second time and label lists
  may change their order, while all else stays (`Reconnect.RedeliverySettles`,
  `RedeliveryKeepsOrder`, `ListsReorder`).
* An edge over two shards is two transactions of a follower's worker, and workers do not
  wait for each other, so adding and deleting it at the same time can leave half of it
  behind (`Workers.FinishingInOrderMayDiverge`, `WorkersFollowLeader`).
* The follower maintains neither the unique index nor the ID counters on writes
  (`Commute.LogKeepsUnique`, `Promotion.ReplayKeepsCounters`), so one that starts taking
  writes may overwrite a record or accept a value it already has
  (`Promotion.OverwritesExactly`, `PromotedOverwrites`, `PromotedAccepts`, `StaysGuarded`).
* A log reader that already knows of later segments reports end of file at the end of the
  current one (`Wal.EofExactly`); an append and a rotation between its end-of-file read
  and its new listing make it pass over entries (`Tailing.PassesOverExactly`); a prune
  shifts its position in the listing (`Tailing.PruneShiftsExactly`, `EntryPrunedPast`).
* Reopening a log whose last segment is empty starts again at LSN 1
  (`Wal.RecoveryExactly`); behind a torn frame what is appended is not read back
  (`Wal.AppendBehindTear`).
* Comparison of values of different kinds need not be transitive
  (`Values.TransitiveWithTextsExactly`).
* An equality with null behaves differently under an index (`Plans.ExecNodeMatch`,
  `NullEqualityExactly`).
* With negative weights Dijkstra's loop may stop at a path that is not the shortest, never
  stop, or stop and never return (`NegativeWeights.StopsTooEarly`,
  `NegativeCycleNeverEnds`, `LabelCorrecting.StopsButNeverReturns`); the conditions are
  `LabelCorrecting.StopIsShortest`, `UnreachableExactly` and `WalkLeadsBack`.

Hypotheses that several theorems share, each something a caller can check: IDs have
not reached 2^64; no constraint's key prefix starts another's (true of NUL-free names);
index names hold no NUL and no ':'; composite definitions are NUL-free and none is a
prefix of another; rendered values and labels hold no NUL where a lookup must equal a
scan; a property index is looked up only when no `AddNodeBatch` has come since it was
built.

## Model

| member | source | states |
|---|---|---|
| `Replay.ReplaySimulatesLeader` | applier.go:76-156 | For every run of leader calls and every in-order delivery with any re-deliveries, the follower's applied LSN is the highest delivered (or the one it started from) and its nodes, labels, edges, adjacency, type, label, property and composite buckets, counters and registries are the leader's right after that entry |
| `Replay.RunChains` | node.go:221-428 | Every call of every run logs entries that lead, one by one, from the state before to the state after; failed calls log nothing and DeleteNode logs each cascaded edge |
| `Replay.CallReplays` | applier.go:165-724 | Replaying the entry of any call other than DeleteNode on any state equal up to the unique index gives the leader's state after the call |
| `Replay.DeleteNodeChains` | node.go:359-428 | The cascade's edge entries followed by the node entry replay to the state DeleteNode leaves, also when the node turns out to be missing |
| `Replay.BatchIsOneByOne` | edge.go:228-306 | Writing a batch of edges grouped by source shard and then by target shard leaves exactly what writing them one by one leaves |
| `Replay.UpdateEdgeReplays` | applier.go:460-490 | The follower finds the edge in the source's shard whenever the leader found it by searching all shards, and merges to the same record |
| `Replay.CallKeepsPlaced` | edge.go:386-470 | Every call keeps every edge record under its own ID in the shard of its source |
| `Replay.UniqueRebuilt` | applier.go:726-793 | Where no value is duplicated, the unique index the follower builds for a logged constraint is the one the leader built |
| `FollowerStore.Follower.Apply` | applier.go:76-91 | Entries at or below the applied LSN are skipped, an error leaves buckets and LSN alone, success applies the entry and advances the LSN |
| `FollowerStore.Follower.ApplyOp` | applier.go:109-156 | The dispatcher reaches the specified state for every entry kind |
| `FollowerStore.Follower.ApplyAddNode` | applier.go:165-190 | Record, property and composite entries and the node counter of the owning shard, and nothing else |
| `FollowerStore.Follower.ApplyAddNodeBatch` | applier.go:192-230 | Records and counters shard by shard, whatever order the groups come in; no index entry |
| `FollowerStore.Follower.ApplyUpdateNode` | applier.go:232-268 | Refused exactly when the node is missing; otherwise old entries out, merged record in, new entries in |
| `FollowerStore.Follower.ApplySetNodeProps` | applier.go:270-297 | Overwrites the record and its entries, creating it if it is missing |
| `FollowerStore.Follower.ApplyDeleteNode` | applier.go:299-337 | Removes record, labels and all their entries; a missing node still costs one on the counter |
| `FollowerStore.Follower.ApplyAddEdge` | applier.go:339-412 | Edge, outgoing and type entries in the source's shard, incoming entry in the target's, in one or two transactions |
| `FollowerStore.Follower.ApplyAddEdgeBatch` | applier.go:414-433 | Edge by edge in order |
| `FollowerStore.Follower.ApplyDeleteEdge` | applier.go:435-458 | Removes the edge's entries on both sides and counts down once |
| `FollowerStore.Follower.ApplyUpdateEdge` | applier.go:460-490 | Refused exactly when the source's shard has no such edge; otherwise properties are merged |
| `FollowerStore.Follower.ApplyAddNodeWithLabels` | applier.go:492-536 | Record, indexes, label list and label entries |
| `FollowerStore.Follower.ApplyAddLabel` | applier.go:538-582 | Refused exactly when the node is missing; appends only labels not yet held and indexes those |
| `FollowerStore.Follower.ApplyRemoveLabel` | applier.go:584-627 | A missing node changes nothing; otherwise labels and their entries go, an empty list as no entry |
| `FollowerStore.Follower.ApplyCreateUnique` | applier.go:726-793 | Without a duplicate check: every value of the follower's own records gets an entry, of several nodes with one value the last one scanned; a known constraint changes nothing |
| `FollowerStore.Follower.ApplyDefinition` | applier.go:629-724 | Index and constraint definitions rebuild or clear the buckets of every shard and update the registry |
| `Commute.EntriesCommute` | applier.go:165-627 | Two data entries that share no node record and no edge ID can be swapped: accepted in one order means accepted in the other, with equal buckets and counters |
| `Commute.ReorderingIsHarmless` | applier.go:98-156 | Every permutation of a log that keeps LSN order among entries on the same record is accepted exactly when the log is, and ends in the sequential state |
| `Commute.ConflictsDiverge` | replication/client.go:241-267 | Two overwrites of one node end alike in both orders if and only if they write the same properties |
| `Commute.LogKeepsUnique` | applier.go:165-627 | Replaying data entries leaves the follower's unique index as it was, whatever the leader did to its own |
| `Pipeline.PipelineFollowsLeader` | replication/client.go:188-323 | Leader, eight workers and replay together: for every run of leader calls that logs data entries and every interleaving of receiver and workers in which one connection without failures delivers and applies all of them, if entries on the same record finish in LSN order then all are accepted and the follower has the leader's buckets |
| `Pipeline.ReconnectFollowsLeader` | replication/client.go:188-323 | The same for a run of two connections, the first breaking after any number of entries, the second opened behind the stored LSN: the second accepts everything if and only if the repeated entries have no orphan among them, and then the follower has the leader's buckets up to the order inside label lists, its counters moved by the repeated entries once more |
| `Pipeline.StoredWithin` | replication/client.go:241-267 | The LSN stored by a connection lies within what it received, so the second connection starts inside the log |
| `Pipeline.OrderPermutes` | replication/client.go:188-267 | A connection that has nothing left to apply has applied each received entry exactly once, wherever in a run it stands |
| `Pipeline.RunAccounted` | replication/client.go:188-267 | At every moment of a connection each LSN received is in the channel, being applied, or finished, exactly once |
| `Schedules.InterleavingIsHarmless` | applier.go:192-458 | Transactions of many entries interleaved in any way, each entry's own in order, a batch's shards in any order: if entries on the same record keep apart and in LSN order, the interleaving is accepted exactly when the log is and ends in the sequential state |
| `Schedules.PlanIsEntry` | applier.go:192-458 | Run without interruption, the transactions of an entry (one, two for an edge over two shards or a deleted edge, one for each shard of a node batch, edge by edge for an edge batch) do what the entry does |
| `Schedules.StepsSwap` | applier.go:192-458 | Two transactions of entries that share no record can be swapped, accepted or not |
| `Workers.WorkersFollowLeader` | replication/client.go:188-323 | Leader, workers and transactions together: for every run of leader calls that logs data entries and every interleaving of receiver, workers and their transactions without failures, if an entry is taken only after every earlier one on the same record has succeeded, all transactions are accepted and the follower has the leader's buckets |
| `Workers.ReconnectInTurn` | replication/client.go:188-323 | The same for a connection that breaks after any number of entries and a second one behind the stored LSN: accepted if and only if the repeated entries have no orphan, and then the leader's buckets up to the order inside label lists |
| `Workers.RunKeepsGrain` | replication/client.go:241-267 | What every step of receiver, worker and transaction keeps: what clashes with a started entry and comes before it is finished, finished entries have run exactly their transactions, and no transaction stands before one of an earlier entry on its record |
| `Workers.FinishingInOrderMayDiverge` | applier.go:339-458 | An edge over two shards added and deleted: a run that finishes both entries in LSN order, with the deletion between the two transactions of the addition, leaves an incoming entry that sequential replay does not |
| `Reapply.ReapplyExactly` | applier.go:165-627 | An accepted data entry applied a second time is accepted, leaves every bucket alone and moves every counter again; so it changes nothing exactly for entries that are neither additions nor deletions |
| `Redelivery.AcceptedExactly` | applier.go:165-627 | Whatever the state, a log of data entries is accepted if and only if each entry that needs a record finds it created last before it in the log, or stored at the start and not deleted since |
| `Redelivery.RedeliveryExactly` | applier.go:165-627 | Applied again on the state it leads to, an accepted log is accepted if and only if no entry needs a record that the log has not created by then and in the end deletes |
| `Redelivery.FateExactly` | applier.go:165-627 | After an accepted log a node, or an edge in a shard, exists as its last creation or deletion in the log says, or as before if there is none |
| `Reconnect.DeletedNextIsRefused` | applier.go:232-490 | An entry whose node or edge the next one deletes is refused the second time |
| `Reconnect.RedeliverySettles` | applier.go:165-627 | If a log that brings only new nodes is accepted again, records, edges, adjacency, type, label, property and composite buckets are as after the first time, label lists up to their order, and every counter has moved a second time |
| `Reconnect.RedeliveryKeepsOrder` | applier.go:538-627 | The label lists keep their order too, and only the counters differ, if and only if in every node's list after the first pass the labels that the log removes at some point stand last, or the log starts the list anew by deleting the node or adding it with labels |
| `LabelOrder.ListStaysExactly` | applier.go:538-627 | One list through both passes: it stays as it is if and only if the log starts it anew or the removed labels stand last |
| `LabelOrder.BehindAll` | applier.go:538-627 | All through the second pass the labels removed so far and back again are those of the first pass in the same order, and stand behind the labels that are never removed |
| `Reconnect.ListsReorder` | applier.go:538-627 | Remove Y, add Y, add X on a node labelled Y: the first pass leaves [Y, X], the second [X, Y] |
| `Reconnect.ReconnectedFollower` | replication/client.go:188-267 | For every run of leader calls that logs data entries and all k <= j: a follower that has replayed the first j entries and then gets everything after the first k refuses exactly if the stretch from k to j has an orphaned entry, and otherwise ends with the leader's buckets up to label order and its counters off by that stretch; that the log brings only new nodes and the buckets are sound is proved of the leader |
| `Reconnect.OverrunLog` | applier.go:165-627 | Two stores that differ in label order and counters only accept the same logs and go on differing in no more than that |
| `Settling.ShardSettles` | applier.go:165-627 | The two passes compared entry by entry in one shard: every cell of the second is that of the first or that of the state between them, which at the end are the same |
| `Promotion.PromotedAccepts` | label.go:38-68 | A constraint and a labelled value replayed by a follower, which is then reopened: the leader refuses the value to another node, the follower accepts it under its next ID |
| `Promotion.ReplayKeepsCounters` | applier.go:165-627 | Replaying data entries leaves both ID counters where they were |
| `Promotion.OverwritesExactly` | node.go:12-61 | AddNode leaves every stored record as it is if and only if the next ID is not stored or has these properties; the node counter goes up in any case, the set of IDs exactly if the ID is new |
| `Promotion.PromotedOverwrites` | replication/cluster.go:235-260 | A follower that has replayed node 1 and becomes leader writes its first node over it, with its counter at 2 |
| `Promotion.ReopenedOverwritesNothing` | storage.go:188-243 | With one shard, the counter that opening recovers from the highest stored ID lets no AddNode overwrite a record |
| `Promotion.StaysGuarded` | applier.go:165-627 | A follower whose unique index covers its carriers keeps it so through every accepted log in which no entry gives a node a constrained value |
| `Commute.ApplyIsSpread` | applier.go:165-627 | A data entry is refused exactly when its record is missing; otherwise every shard changes by a patch of deletions and writes |
| `Commute.PatchWithin` | applier.go:165-627 | Every key such a patch touches, index keys included, belongs to a node record or edge ID the entry names |
| `Database.Database.AddNode` | node.go:12-61 | Takes the next ID and returns it; under that ID stands a record with exactly these properties, logged as such; index entries and counter in the owning shard; state and log are those of the specification the run proofs use |
| `Database.Database.AddNodeBatch` | node.go:74-170 | Consecutive IDs, returned in batch order: under `ids[k]` stands exactly `list[k]`, without labels, and the one log entry pairs them so; counters by shard in any group order, no index entries; state and log are those of the specification the run proofs use |
| `Database.Database.UpdateNode` | node.go:221-293 | Missing node or constraint violation leaves everything alone; otherwise entries move from the old to the merged properties and the unique entries of the merged values are dropped and rewritten; state and log are those of the specification the run proofs use |
| `Database.Database.SetNodeProps` | node.go:295-357 | As UpdateNode, with a full overwrite and the unique entries of the old values dropped; state and log are those of the specification the run proofs use |
| `Database.Database.DeleteNode` | node.go:359-428 | Deletes and logs every edge listed in both directions, a self-loop twice, then the node with its entries; state and log are those of the specification the run proofs use |
| `Database.Database.AddNodeWithLabels` | label.go:13-80 | Refused on a constraint violation, the ID being spent and nothing else changed; otherwise the ID is returned, under it stand these properties and labels, logged as such, and all indexes are written; state and log are those of the specification the run proofs use |
| `Database.Database.AddLabel` | label.go:82-167 | No labels: nothing happens; missing node or violation: refused; else only labels not yet held are stored and indexed; state and log are those of the specification the run proofs use |
| `Database.Database.RemoveLabel` | label.go:169-231 | Filters the label list, drops the label entries, leaves the unique index alone; state and log are those of the specification the run proofs use |
| `Database.Database.AddEdge` | edge.go:22-149 | Refused, with nothing changed, unless both ends exist; else the new ID is returned, under it stands an edge with these ends, label and properties, logged as such, and its entries are in the one or two shards; state and log are those of the specification the run proofs use |
| `Database.Database.AddEdgeBatch` | edge.go:153-320 | Consecutive IDs, returned in batch order: under `ids[k]` stands an edge with the ends, label and properties of `list[k]`, and the log entry pairs them so; outgoing sides by source shard, then incoming sides by target shard, in any group order; endpoints are not looked at; state and log are those of the specification the run proofs use |
| `Database.Database.DeleteEdgeInternal` | edge.go:386-428 | Both sides of the edge are erased, the counter goes down and the deletion is logged; state and log are those of the specification the run proofs use |
| `Database.Database.DeleteEdge` | edge.go:357-381 | Finds the edge in any shard and erases it, or fails; state and log are those of the specification the run proofs use |
| `Database.Database.UpdateEdge` | edge.go:431-468 | Finds the edge in any shard and merges its properties in the source's shard, or fails; state and log are those of the specification the run proofs use |
| `Database.Database.GetEdge` | edge.go:334-354 | The first shard that has the ID; state and log are those of the specification the run proofs use |
| `Database.Database.CreateIndex` | index.go:15-57 | An entry for every record that has the property, in every shard, and the registry; state and log are those of the specification the run proofs use |
| `Database.Database.DropIndex` | index.go:127-165 | Every key that starts with the name and ':' goes, in every shard; state and log are those of the specification the run proofs use |
| `Database.Database.ReIndex` | index.go:182-187 | Drop then create; state and log are those of the specification the run proofs use |
| `Database.Database.CreateComposite` | composite_index.go:39-79 | Refused below two properties; else an entry for every record that has them all; state and log are those of the specification the run proofs use |
| `Database.Database.DropComposite` | composite_index.go:180-218 | Every key that starts with the definition's names goes; state and log are those of the specification the run proofs use |
| `Database.Database.CreateUnique` | constraint.go:92-185 | Known constraint: nothing; duplicate value under the label: refused, with nothing changed; else it is registered and every live value gets an entry in its node's shard; state and log are those of the specification the run proofs use |
| `Database.Database.DropUnique` | constraint.go:189-246 | Every key of the constraint goes, and its registration; state and log are those of the specification the run proofs use |
| `Transaction.Tx.IndexNodeProps` | index.go:196-222 | The loop over the registry puts exactly the node's property entries and composite entries |
| `Transaction.Tx.UnindexNodeProps` | index.go:227-254 | The loop deletes exactly those entries |
| `Transaction.BuildCompositeKey` | composite_index.go:263-288 | None exactly when a property is missing; else names, rendered values in definition order and the ID |
| `Transaction.Tx.CheckUnique` | constraint.go:312-352 | True exactly when some unique key of the node is held by a node other than the excluded one |
| `Transaction.Tx.PutUnique` | constraint.go:358-385 | Every unique key of the node names it, other keys are untouched |
| `Transaction.Tx.DropUniqueKeys` | constraint.go:389-421 | Only the node's own entries among its keys are deleted |
| `Transaction.MissingLabels` | label.go:104-118 | The requested labels not yet held, in order, repeats included |
| `Transaction.RemainingLabels` | label.go:186-196 | The held labels that are not removed, in order |
| `Definitions.DeletePrefix` | index.go:139-157 | Collecting and deleting the keys of a prefix leaves exactly the other keys |
| `Batches.WriteNodeBatch` | node.go:120-160 | Whatever order the groups come in, every shard receives its own items in batch order |
| `UniqueBuild.ScanAll` | constraint.go:106-150 | Reports a duplicate exactly when two scanned keys render the property alike, else notes every value with its node |
| `UniqueBuild.EntriesAreBuilt` | constraint.go:152-163 | The entries written are those of the specification, in the shard of their node |
| `Adjacency.RunMirrors` | edge.go:685-802 | After any run with any shard count: every edge has exactly one record, outgoing, incoming and type entry in the right shards and there are no others; without AddEdgeBatch both endpoints exist; the edge counter is off by exactly the self-loops removed by DeleteNode |
| `Adjacency.CallMirrors` | edge.go:22-149 | Every call takes buckets that mirror an edge map to buckets that mirror the map after the abstract operation |
| `Adjacency.CallKeepsEndpoints` | node.go:359-428 | Every call but AddEdgeBatch keeps both endpoints of every edge in existence, DeleteNode by its cascade |
| `Adjacency.CallDrift` | node.go:374-378 | EdgeCount minus the number of edges falls by the number of self-loops of a deleted node, and otherwise never changes |
| `Adjacency.GetEdgeExact` | edge.go:334-354 | The search over the shards returns the stored edge, or nothing exactly when there is none |
| `Adjacency.EdgeBatchIsRead` | edge.go:153-320 | Item k of an edge batch is read back under the k-th new ID with its ends, label and properties, and every older edge as before |
| `Adjacency.EdgeCallsAreRead` | edge.go:334-468 | AddEdge is accepted exactly when both ends exist, and its edge is read back as given; UpdateEdge sets the given properties and leaves the others, ends and label; a deleted edge is read no more |
| `EdgeReads.GetEdgesForNode` | edge.go:685-802 | Outgoing: exactly the edges from the node in ID order; incoming: exactly those to it, fetched by source shard; both: the two lists, a self-loop twice |
| `EdgeReads.EdgesByLabel` | edge.go:624-661 | The walk over the type index, shard by shard, for any label |
| `EdgeReads.TypeHitsExact` | edge.go:624-661 | For NUL-free labels that walk gives exactly the stored edges of the label, in ID order per shard |
| `EdgeReads.StoredGraphIsSound` | edge.go:685-802 | A store whose edges have their endpoints gives the searches a graph without dangling edges whose outgoing and incoming lists are the stored edges, each listed once |
| `EdgeReads.StoredEdgesJoin` | edge.go:685-802 | For a traversal the stored edges join their two ends: forwards, backwards, or in either way |
| `NodeState.CallKeepsRecords` | label.go:82-231 | Every call keeps every record in its own shard under an ID already handed out, labels only on existing nodes, and the label index exactly the keys of the stored labels |
| `NodeState.RunKeepsRecords` | node.go:447-454 | After any run the records invariant holds and every shard's node counter is off from its number of records by exactly what it was at the start |
| `NodeState.NodeCallSteps` | node.go:221-428 | Every node call changes the node side of the owning shard by its entry's patch and no other shard, or changes nothing |
| `NodeState.BatchIsRead` | node.go:74-170 | Item k of a batch is read back under the k-th of the IDs handed out, without labels, and logged with it |
| `Unique.SingleShardIsUnique` | constraint.go:92-185 | With one shard and constraints whose keys stay apart, after any run of the write methods no two nodes carry the same rendered value of a constraint in force |
| `Unique.ManyShardsMayRepeat` | label.go:38-68 | With two shards or more, a run from a new database in which the same labelled value is accepted twice, so one shard is exactly when uniqueness is global |
| `Unique.ShardIsUnique` | constraint.go:312-352 | In any reachable state two carriers of one value in the same shard are the same node |
| `Unique.CallKeepsUniqueInv` | constraint.go:358-421 | Every call keeps the index covering every live value with its owner |
| `Unique.CreateCovers` | constraint.go:92-185 | Creating a constraint gives every live value to the node that has it and disturbs no other constraint |
| `Unique.KeySplits` | constraint.go:498-520 | If neither constraint's prefix starts the other's, no key of one starts with the prefix of the other, whatever the value |
| `Unique.NulFreeApart` | constraint.go:498-520 | Different constraints with NUL-free names are apart in this sense |
| `Unique.DropKeepsExactly` | constraint.go:189-246 | Dropping a constraint leaves the others covered if and only if no live value of theirs has a key under its prefix |
| `Unique.DropWipesOther` | constraint.go:189-246 | Dropping (a, b) wipes the key of (a, b NUL x) |
| `UniqueExact.ExactnessExactly` | constraint.go:358-421 | From an index that is exactly the keys of the live carriers, a call leaves it exact if and only if it is neither an accepted UpdateNode that changes the rendering of a constrained property under a held label nor a RemoveLabel of a held constrained label whose property the node has |
| `UniqueExact.NulFreeScansClean` | constraint.go:106-150 | For a NUL-free label among NUL-free stored labels the scan that builds a constraint meets that label only, which the theorem asks of CreateUnique |
| `UniqueExact.UpdateExactly` | node.go:250-259 | For UpdateNode: a stale entry is left exactly when the call is accepted and such a property renders differently, because the entries dropped are those of the merged values |
| `UniqueExact.RemoveLabelExactly` | label.go:180-222 | For RemoveLabel: a stale entry is left exactly when such a label goes |
| `UniqueExact.RunStaysExact` | constraint.go:358-421 | Runs without such calls keep the index exact |
| `UniqueExact.ViolationExactly` | constraint.go:312-352 | On an exact index the check fails if and only if another live node carries one of the values |
| `UniqueExact.AddRefusedExactly` | label.go:38-68 | So AddNodeWithLabels is refused if and only if a live node of the shard carries one of the values |
| `UniqueExact.RewriteRefusedExactly` | node.go:221-357 | UpdateNode and SetNodeProps of a stored node are refused if and only if another live node of the shard carries one of the new values |
| `UniqueExact.AddLabelRefusedExactly` | label.go:82-167 | AddLabel on a stored node is refused if and only if another live node of the shard carries one of the values under a requested label |
| `UniqueExact.CreateRefusedExactly` | constraint.go:106-150 | A new constraint is refused if and only if two different nodes of the whole database carry one value under its label |
| `UniqueExact.FindByUnique` | constraint.go:425-468 | The first shard with an entry answers; on an exact index that is a node carrying the value, and nothing exactly when no node carries it |
| `UniqueExact.UpdateBlocksOldValue` | node.go:250-259 | After such an UpdateNode the old value's key still names the node, which no longer carries it, and the value is refused to every other node of the shard |
| `UniqueExact.RemoveLabelBlocksValue` | label.go:180-222 | The same after such a RemoveLabel |
| `UniqueExact.UpdatedAwayIsRefused` | node.go:250-259 | A run from a new database: constraint, node with value a, update to b, and a second node with a is refused though no node carries a |
| `UniqueExact.UnlabelledIsRefused` | label.go:180-222 | The same with the label removed instead of the value changed |
| `Indexes.RunKeepsIndexes` | index.go:196-254 | After any tidy run every property and composite entry belongs to a stored record, and all entries are there except for indexes made stale by AddNodeBatch and not rebuilt |
| `Indexes.CallKeepsIndexes` | node.go:221-428 | Each call keeps that invariant; a batch makes every index stale, building one makes it complete |
| `Indexes.RebuildCompletes` | index.go:15-57 | CreateIndex after batches makes the index complete whatever was stale |
| `Indexes.DropIndexKeeps` | index.go:127-165 | For names without NUL and ':' dropping an index removes its own entries and no others |
| `Indexes.DropCompositeKeeps` | composite_index.go:180-218 | For NUL-free definitions none a prefix of another, dropping one removes its own entries and no others |
| `Lookups.FindByProperty` | index.go:61-124 | The index walk or the scan, shard by shard; with the index complete and texts NUL-free, the IDs of exactly the nodes a scan finds, in the same order |
| `Lookups.PropertyHitsExact` | index.go:61-124 | In every reachable state with the index complete and texts NUL-free, the index finds exactly the nodes a scan finds, in the same order |
| `Lookups.FindByLabel` | label.go:253-299 | The label index walk, shard by shard; with NUL-free labels, the IDs of exactly the nodes that carry the label, in ID order per shard |
| `Lookups.LabelHitsExact` | label.go:253-299 | In every reachable state, with NUL-free labels, exactly the nodes that carry the label, in ID order per shard |
| `Lookups.FindByComposite` | composite_index.go:83-177 | Refused below two filters; else the composite index walk or the scan, shard by shard; with the index complete and texts NUL-free, the IDs of exactly the nodes that match all filters, in the scan's order |
| `Lookups.CompositeHitsExact` | composite_index.go:109-177 | With the composite index complete and texts NUL-free, exactly the nodes that match all filters, in the scan's order |
| `Lookups.RunsAnswerLikeScans` | index.go:61-124 | From a new database, after any tidy run without AddNodeBatch, property, label and composite lookups return exactly what scanning the records returns, in the same order |
| `Lookups.DefinitionCanonical` | composite_index.go:22-30 | Any two listings of the same properties name the same composite index |
| `Keys.IDRoundTrip` | encoding.go:16-46 | Decoding an encoded ID returns it, for all 64-bit IDs |
| `Keys.IDOrder` | encoding.go:16-46 | Byte order of encoded IDs is numeric order |
| `Keys.IndexKeyInjective` | encoding.go:84-92 | An index key determines its text and its ID, whatever bytes the text holds |
| `Keys.IndexScanExact` | encoding.go:94-100 | Among NUL-free texts a prefix seek meets exactly the keys of its own text |
| `Keys.FieldsPrefix` | composite_index.go:252-310 | A run of NUL-terminated fields is a key prefix exactly when it is a prefix of the field list |
| `Cursor.WalkKeyed` | encoding.go:84-100 | Over the keys of one prefix the cursor's byte order is ID order |
| `Plans.ExecNodeMatch` | cypher_exec.go:437-591 | Label, composite, inline-index, WHERE-index and scan strategies, whichever key is picked, return the IDs of the filtered full scan cut to LIMIT, if and only if no node of that answer lacks a property that the WHERE index looks up as null; for a plain WHERE these are the nodes that hold every label of the pattern, store an equal value for each of its properties, and of whose stored values the condition says so |
| `Plans.AnswerMeets` | cypher_exec.go:485-560 | With a plain WHERE the scan's answer is those nodes, per shard in ID order, cut to LIMIT, and WHERE errs on no node |
| `Plans.NumbersAnswer` | cypher_exec.go:1512-1541 | MATCH ... WHERE x.p op number, over nodes whose p is a number if they have it: the answer is the nodes whose number a stands to b as `<`, `>`, `<=`, `>=`, `=`, `<>` between reals say, and for `<`, `<=`, `<>` also those without p |
| `Conditions.PlainMeans` | cypher_exec.go:1430-1541 | A WHERE of comparisons of literals, properties and id() under NOT, AND and OR never errs, and is true of a node exactly when its stored values satisfy it: numbers by value, strings byte by byte, null first, a missing property null, NOT as negation, AND as all, OR as some |
| `Conditions.NumbersCompare` | cypher_exec.go:1512-1541 | `x.p op b` on a stored number a: exactly `a op b` between reals, for each of the six operators |
| `Conditions.ChainMeans` | cypher_exec.go:1466-1488 | Any AND or OR: OR is true exactly when some operand is true and none before it errs, AND false exactly when some operand is false and none before it errs, either errs exactly when an operand reached in this way errs |
| `Conditions.CallErrsExactly` | cypher_exec.go:1543-1583 | A call errs if and only if it is neither id nor type in any spelling, has other than one argument, or its argument errs |
| `Conditions.ExtractSound` | cypher_exec.go:656-684 | An equality taken out of WHERE holds of every node of which WHERE holds |
| `Conditions.LabelsUnseen` | cypher_exec.go:1438-1500 | A WHERE that compares no whole node evaluates alike on nodes with and without their labels |
| `Plans.ByWhereIndex` | cypher_exec.go:530-540 | The WHERE-index strategy: for a literal other than null the answer of the scan; for null the scan's nodes that have the property, cut to LIMIT, which is the answer exactly when every node of the answer has it |
| `Plans.NullEqualityExactly` | cypher_exec.go:625-650 | MATCH ... WHERE x.p = null on an indexed p without LIMIT goes wrong if and only if some stored node lacks p |
| `Plans.FindCandidates` | cypher_exec.go:1063-1119 | Candidates of a pattern's end, by whichever index, are those of the filtered scan |
| `Plans.FilterNodes` | cypher_exec.go:454-482 | The candidate loop keeps those that pass all filters, in order, and stops early only once LIMIT is reached |
| `TopK.OrderByLimit` | cypher_exec.go:1304-1395 | The heap's answer is a sub-multiset of the input, in order, whose sort keys tie position by position with the first K of every full sort; by stored values: no row stands before one, or is kept instead of one, that has a smaller key in an ASC column or a larger one in a DESC column where all earlier columns are equal |
| `TopK.ColumnsRun` | cypher_exec.go:1336-1386 | In the first column where two rows of the result differ, and in which a kept row differs from one left out, numbers do not fall under ASC nor rise under DESC, strings and booleans likewise, and null comes first under ASC and last under DESC |
| `TopK.FullSortAgrees` | cypher_exec.go:1317-1395 | Whatever sorting the input gives, its first K rows tie with the heap's rows |
| `TopK.SortableIsStrictWeak` | cypher_exec.go:1332-1385 | On columns of nil and one kind, or of nil, texts and values whose own order is that of their printings, the row comparison, ASC and DESC mixed, is a strict weak order |
| `TopK.Selector.Offer` | cypher_exec.go:1358-1369 | After each offer the heap holds a best K of everything offered |
| `TopK.Selector.Sorted` | cypher_exec.go:1387-1395 | Popping yields the kept rows best first |
| `Values.CompareTransitive` | cypher_exec.go:1645-1693 | On nil and one kind the comparison is transitive |
| `Values.CompareAntisymmetric` | cypher_exec.go:1645-1693 | Swapping the operands flips the sign, whatever the kinds |
| `Values.CompareMeans` | cypher_exec.go:1645-1693 | The comparison is negative, zero or positive exactly as the values say: null first, two numbers by value whatever their types, strings by the first differing byte or a proper prefix first, false before true, other pairs by their printed forms |
| `Values.TransitiveWithTextsExactly` | cypher_exec.go:1645-1693 | On any set of values together with nil and all strings the comparison is transitive if and only if the values' own order agrees with the order of their printings |
| `Values.TextClosesCycle` | cypher_exec.go:1645-1693 | If a < b but b prints no later than a, the string of b closes a cycle |
| `Values.NumbersBreakWithTexts` | cypher_exec.go:1645-1693 | Numbers together with strings are not transitive: 9 and 10 print in the other order |
| `Values.BooleansJoinTexts` | cypher_exec.go:1645-1693 | Booleans together with strings are transitive |
| `Dijkstra.ShortestPathWeighted` | path.go:84-169 | For weights of any sign without a reachable negative cycle: a path from source to target, nil exactly when there is none, of minimum total weight if no path from a reachable node to the target is negative; an error only for a missing node and never without dangling edges; the weight is the sum of what the edges count with: the stored number if it is a float64, int or int64, the default if it is absent or of any other type |
| `Relaxation.TotalIsSum` | path.go:128-141 | The weight of a path is the sum of those numbers, kind by kind |
| `Dijkstra.Run` | path.go:104-166 | The loop follows its turns, each popping a cheapest entry, to an end, and the walk back gives a path no heavier than the target's distance; with non-negative weights no two turns expand the same node despite stale queue entries, what is expanded is reachable and includes every node nearer than the target (all reachable nodes when there is no path) |
| `Dijkstra.NoNodeTwice` | path.go:109-122 | In every run of the loop with non-negative weights, ended or not, two different turns that expand a node expand different nodes |
| `Dijkstra.WalkBack` | path.go:151-166 | If the walk over prev leads to the source it spells a path to the target no heavier than the distance |
| `Dijkstra.RelaxEdges` | path.go:124-149 | Reading the edges of a node changes distances, predecessors and queue as relaxing them one by one does, whatever the weights |
| `Dijkstra.Explore` | path.go:104-150 | The main loop terminates without a reachable negative cycle, whatever the ties, and its turns are those of the state machine, each popping a cheapest entry |
| `NegativeWeights.EndsExactly` | path.go:104-150 | For weights of any sign, if the main loop ends it has stopped at the target exactly when the target is reachable, at the distance of a real path; if it ran out of entries every reachable node has its least distance |
| `NegativeWeights.NegativeCycleNeverEnds` | path.go:112-150 | With a reachable cycle of negative weight and an unreachable target the loop never ends |
| `LabelCorrecting.UnreachableExactly` | path.go:112-150 | For an unreachable target the number of turns is bounded if and only if no negative cycle is reachable |
| `LabelCorrecting.TameRunsAreBounded` | path.go:112-150 | Without a reachable negative cycle every run of the loop is bounded by the number of paths without repeats, whatever the ties |
| `LabelCorrecting.WalkLeadsBack` | path.go:151-166 | Without one the walk over prev from any node with a distance ends at the source and spells a path no heavier than that distance |
| `LabelCorrecting.StopIsShortest` | path.go:116-118 | Whatever else the weights are, a stop is at the least distance if no path from a reachable node to the target is negative |
| `LabelCorrecting.NonNegativeIsTame` | path.go:84-169 | Non-negative weights satisfy both conditions |
| `LabelCorrecting.StopsButNeverReturns` | path.go:151-166 | With a negative cycle on the way the loop can stop at the target with a circle in prev, so that the walk back never ends |
| `NegativeWeights.StopsTooEarly` | path.go:116-118 | With a negative edge it can stop at a path that is not the shortest: 1 where -3 was possible |
| `BinaryHeap.Heap.Pop` | path.go:388-417 | Removes and returns a least element and keeps the rest in heap order |
| `BinaryHeap.Heap.Push` | path.go:388-417 | Adds one element and keeps heap order |
| `AllPaths.Enumerate` | path.go:173-226 | Lists every path that repeats no node and has at most maxDepth edges (10 if not positive), each exactly once, and nothing else |
| `AllPaths.Enumeration.Dfs` | path.go:185-219 | The recursion over the shared visited set restores it and appends exactly the continuations of the current path |
| `AllPaths.WantedIsFound` | path.go:173-226 | Every wanted path is found |
| `AllPaths.FoundOnce` | path.go:173-226 | No path is found twice |
| `TopologicalSort.Sort` | path.go:292-355 | For any graph a result lists the stored nodes and the ends of their edges, each once; where missing ends have no edges of their own, it succeeds exactly when no directed cycle goes through a stored node, with every edge's source before its target |
| `TopologicalSort.NoDanglingIsClosed` | path.go:296-322 | Without dangling edges, which is every store not written by AddEdgeBatch, the condition holds and exactly the stored nodes are sorted |
| `TopologicalSort.CycleIfStuck` | path.go:344-352 | If nodes are left over there is a cycle among them |
| `TopologicalSort.NoCycleIfSorted` | path.go:292-355 | A graph with a topological order has no cycle through a stored node |
| `TopologicalSort.CountInDegrees` | path.go:296-322 | In-degrees count every edge of a stored node, parallel ones included, and the ends of those edges are nodes to sort too |
| `BreadthFirst.Bfs` | traversal.go:27-126 | With a visitor that never stops: exactly the nodes within reach, each once, in non-decreasing depth, Depth the true distance and Path a path of that length; in terms of the edges: the visited nodes are the ends of chains of accepted edges followed forwards, backwards, or in either way as the direction says, and depth is the length of a shortest such chain |
| `BreadthFirst.ChainEnds` | traversal.go:82-90 | Such a chain leads the traversal to its last node, in each of the three directions |
| `BreadthFirst.WalksReach` | traversal.go:27-126 | Every accepted walk within the depth limit ends in a visited node of no greater depth |
| `BreadthFirst.ShortestPathLabeled` | path.go:17-79 | A hop-minimal path over edges of the label, nil exactly when the target is unreachable |
| `Graph.BuildPathResult` | path.go:358-383 | Fails exactly on a missing node of the path; cost is the hop count |
| `Watermark.LsnTracker.MarkDone` | replication/client.go:355-371 | Returns the new baseline after draining consecutive LSNs |
| `Watermark.WatermarkIsLargestGapFree` | replication/client.go:340-371 | After any sequence of marks the baseline is the largest LSN below which none is missing |
| `Watermark.WatermarkSafety` | replication/client.go:188-323 | Under every interleaving of receiver and eight workers, with any LSNs received, failures and late stores, every LSN above the start and up to the stored one has been applied, so reconnecting after it skips nothing |
| `Watermark.GapHolds` | replication/client.go:272-323 | An LSN that a connection never receives is never passed by the stored LSN within that connection |
| `Watermark.StepLowersExactly` | replication/client.go:263-264 | A step lowers the stored LSN if and only if it stores a watermark below it |
| `Watermark.StepsBackExactly` | replication/client.go:241-267 | Over every run: a step lowers the stored LSN if and only if it is a store and the last store before it, by another worker since this one marked, was of a larger watermark |
| `Watermark.MonotoneIfStoredInTurn` | replication/client.go:241-267 | Where each worker stores before the next one marks the stored LSN never goes down |
| `Watermark.StoredLsnMayStepBack` | replication/client.go:263-264 | A run with three workers that stores 3, then 1, then 2: the stored LSN goes down, and the last store raises it although a larger one came since its mark |
| `Wal.ShippingIsPrefixSafe` | wal.go:355-448 | What a reader has returned is always a prefix, without repeats or gaps, of the entries from its LSN, under any interleaving of append, rotation and Next, each taken as one step |
| `Wal.Writer.Append` | wal.go:183-234 | Consecutive LSNs; the log rotates exactly when the entry brings the segment to its maximum size |
| `Wal.WalReader.Next` | wal.go:355-448 | The next entry at or after the wanted LSN, or end of file |
| `Wal.EofExactly` | wal.go:380-395 | Next reports end of file if and only if nothing wanted is in sight: the rest of the current segment and, when segments have appeared since it last looked, the next one |
| `Wal.StallsAtKnownBoundary` | wal.go:380-395 | A reader that already knows of later segments reports end of file at the end of the current one although entries remain |
| `Tailing.PassesOverExactly` | wal.go:380-395 | With the end-of-file read and the new listing as two steps, as long as nothing has been pruned: the listing makes the reader skip entries if and only if in between the writer appended to the segment being read and then rotated |
| `Tailing.RelistSkips` | wal.go:380-395 | What a listing skips is the unread rest of the segment and the segments jumped over, and nothing if the reader does not move |
| `Tailing.SkipsExactly` | wal.go:380-395 | With prunes too: a listing skips entries if and only if the reader moves on and either its segment was appended to since it read the end or a segment it jumps over has entries |
| `Tailing.PrefixUnlessMissed` | wal.go:355-448 | Under every interleaving of appends, rotations, prunes, reads and listings, what was returned is a prefix of the wanted entries as long as no listing skips a wanted one |
| `Tailing.NoPrefixOnceMissed` | wal.go:355-448 | Once one has been skipped and another returned, it is no prefix any more |
| `Tailing.EntryPassedOver` | wal.go:380-395 | A run in which the reader returns entry 1 and then entry 3 |
| `Tailing.EntryPrunedPast` | wal.go:564-598 | A run in which pruning the segment just read makes the reader return entry 1 and then entry 3 |
| `Tailing.PruneShiftsExactly` | wal.go:564-598 | A reader moves to the next position of a new listing: it jumps over as many segments as were pruned up to the one it read, so it opens the following one if and only if none of these was pruned |
| `Wal.PruneIsSafe` | wal.go:564-598 | Pruning keeps the active segment and every segment with an entry at or above the minimum LSN, and says exactly which segments survive |
| `Wal.Prune` | wal.go:564-598 | Keeps exactly the surviving segments, in order, and counts the others |
| `Wal.RecoverNextLsn` | wal.go:107-160 | One more than the last segment's highest LSN, 1 if it is empty |
| `Wal.ScanLast` | wal.go:519-561 | The last LSN of a segment |
| `Wal.RecoveryExactly` | wal.go:107-160 | Reopening continues with the right LSN if and only if the last segment holds an entry or the log is empty |
| `Wal.FramesRoundTrip` | wal.go:183-234 | Framed entries parse back to themselves |
| `Wal.AppendBehindTear` | wal.go:131-148 | Reopened behind a torn frame, what is appended is lost, all of it, if and only if the torn bytes and what follows do not happen to start with a whole frame; without a torn frame everything reads back |
| `Wal.LostUntilLongEnough` | wal.go:131-148 | In particular as long as less has been appended than the torn frame was still to hold |
| `Wal.TornFrame` | wal.go:396-448 | A frame cut short parses to nothing |
| `NodeCache.Shard.Put` | node_cache.go:91-120 | New or refreshed entry first, then eviction from the least recent end until within budget |
| `NodeCache.Shard.Get` | node_cache.go:73-88 | The cached node, moved to the front |
| `NodeCache.Shard.Invalidate` | node_cache.go:123-138 | The entry is unlinked and unmapped |
| `NodeCache.Shard.RemoveEntry` | node_cache.go:197-210 | Unlinks one entry; the list stays well formed both ways |
| `NodeCache.Shard.EvictUntilBudget` | node_cache.go:212-219 | Drops entries from the tail until within budget |
| `NodeCache.EvictsFromTheEnd` | node_cache.go:212-219 | Eviction keeps the longest prefix of the recency order that fits |
| `NodeCache.Cache.TotalBytes` | node_cache.go:155-166 | All sixteen shards together never exceed a positive budget |
| `NodeCache.Cache.Put` | node_cache.go:91-120 | Only the node's shard changes, as its recency list says; a non-positive budget stores nothing |
| `Bloom.BloomFilter.Add` | bloom.go:112-121 | Every pair added before still tests positive and so does the new one |
| `Bloom.BloomFilter.Test` | bloom.go:125-138 | Positive exactly when all four probed bits are set, hence for every pair ever added |
| `ReadShortcuts.ShortcutsAreTransparent` | node.go:184-216 | In every state of every run of writes, reads and reopens, a read through the cache is the stored node and a pair unknown to the filter joins no stored edge |
| `ReadShortcuts.GetNode` | node.go:184-216 | Through the linked-list cache: exactly what the node and label buckets hold, whatever was evicted |
| `ReadShortcuts.HasEdge` | edge.go:585-606 | True exactly when an edge between the two nodes is stored |
| `ReadShortcuts.InitBloomFilter` | bloom.go:168-200 | After reopening, the filter covers every stored edge |
| `ReadShortcuts.PropsAreRead` | node.go:250-259 | After UpdateNode a read sees the merged properties, after SetNodeProps the new ones, with labels as before, and after DeleteNode nothing |
| `ReadShortcuts.AddTruth` | node.go:12-61 | After AddNode or AddNodeWithLabels a read of the new ID gives exactly the given properties and labels |
| `ReadShortcuts.LabelsAreRead` | label.go:82-231 | After AddLabel a read sees the old labels first, then the requested ones not held, in their order and with repeats; after RemoveLabel the labels not named, in their order |
| `ReadShortcuts.CallTruth` | node.go:221-428 | What a read sees of any node a call does not name is as before |
| `ReadShortcuts.NewIsTransparent` | bloom.go:168-180 | A new database with an empty cache and filter is a state to start runs from |
| `ReadShortcuts.StepKeepsTransparent` | label.go:75-76 | Every write, read and reopen keeps every cached node true and every edge in the filter |
| `Parser.ReadChain` | cypher_parser.go:556-735 | Parsing the printing of a canonical tree, wherever it stands, returns the tree and consumes exactly those tokens |
| `Parser.ChainIsPrinted` | cypher_parser.go:556-735 | Whatever the parser accepts is the printing of the canonical tree it returns |
| `Parser.PrintingIsInjective` | cypher_parser.go:22-31 | Two canonical trees with the same printing are equal |
| `Parser.LevelsNest` | cypher_parser.go:556-640 | a OR b AND NOT c op d is read as OR over AND over NOT over the comparison |
| `Parser.TokenParser.ParseExpr` | cypher_parser.go:557-559 | The descent over a moving position returns what the parsing function returns and stops where it stops |
| `Parser.TokenParser.ParseLevel` | cypher_parser.go:562-604 | The operand loops of OR and AND |
| `Parser.TokenParser.ParsePrimaryExpr` | cypher_parser.go:657-735 | Literals, variables, property accesses, calls with nested arguments, parameters |

## Left out

- bbolt, msgpack, CRC-32C, FNV, gRPC, Raft, files and fsync: foreign code. Buckets are maps and sets, transactions atomic, codecs invisible, hashes arbitrary functions.
- Closed-database and role checks, logging, metrics, slow-query ring, worker pool, governor, compaction, query-plan cache: easy members or a duplicate of the node cache's list.
- ID counters at 2^64: every allocating call is taken with an ID left, so wrap-around is not modelled. Node and edge counters are unbounded integers.
- Reopen: outside Promotion, registries and ID counters are taken to come back as they were; recovering counters across shards after a crash and the name heuristic that rediscovers composite indexes are not modelled.
- `Tx` transactions (tx.go), iterators, snapshots, parameter resolution on cached query trees, SKIP, pattern matches with edges, ORDER BY inside node matching, the row cap.
- Depth-first traversal, connected components, degree and neighbour helpers, multi-shard pagination: they would only add easier members of the same kind.
- strconv and the lexer beyond the word "type": literals keep their token text, and an environment gives their values.
- NaN and rounding: numbers are reals.
- Log damage other than a frame cut short, and a reader opened when no segment exists.
- `Leader` and `Applier` functions carry no contract of their own: they are the specification that `Database` and `FollowerStore` methods meet and that the lemmas are about.
- Replay.ReplaySimulatesLeader: says nothing about the unique index, which the follower does not maintain on node writes (Commute.LogKeepsUnique and Replay.UniqueRebuilt say what it holds), nor about ID counters.
- Lookups.FindByProperty: returns IDs, as do FindByLabel and FindByComposite; the records beside them are those the node bucket holds under these IDs.
- Plans.ExecNodeMatch: WHERE clauses that compare a whole node are not covered, because index lookups return nodes without labels and the comparison prints them.
- Conditions.PlainMeans: a whole node, a parameter, or a call of anything but the bound node is not an operand of a plain condition (ChainMeans and CallErrsExactly are about every expression).
- ReadShortcuts.InitBloomFilter: the sizing from a wrapped-around edge counter is not modelled.
- EdgeReads.EdgesByLabel: for labels with NUL bytes only the walk itself is stated, because the prefix of one label can then start another's key.
- TopologicalSort.Sort: where an edge leads to a missing node that has edges of its own, only the content of the result is stated, because those edges are taken off counts they were never added to.
- Wal.WalReader.Next: one call is one step against the log; Tailing takes the steps apart.
- Pipeline.PipelineFollowsLeader: runs with a failed entry are not covered; each ApplyOp takes effect as one step (Workers.WorkersFollowLeader takes its transactions apart).
- Pipeline.ReconnectFollowsLeader: repeated index and constraint definitions are not covered, nor more than one reconnect.
- Workers.WorkersFollowLeader: runs with a failed entry are not covered; the source does not make workers wait, so that entries are taken in turn is a condition on the run.
- Promotion.StaysGuarded: a sufficient condition on the log; an entry that gives a value which the index happens to hold already is not told apart.
- Promotion.ReopenedOverwritesNothing: one shard; with more, recovery looks only at the nodes of the shard that gives out IDs, and Promotion.OverwritesExactly says which writes then overwrite.
- Dijkstra.ShortestPathWeighted: asks for no reachable negative cycle, because with one the source's loops need not end (NegativeWeights.NegativeCycleNeverEnds, LabelCorrecting.StopsButNeverReturns).
