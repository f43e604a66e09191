# Verified model of the replication core of a Dynamo-style key-value store

The store keeps every key on N replicas chosen by a consistent-hash ring. Any node
coordinates a request: a read asks all N replicas and answers when R replied; a write
first reads, merges the vector clocks it saw, counts one more write of its own, and is
acknowledged when W replicas stored the new version. Versions that no clock orders are
kept side by side as siblings. A write for a replica that is down is parked as a hint on
one spare node and delivered later; a gossip failure detector decides who is down.

This project models those five parts and proves what they guarantee together.

## Layout

- `VectorClock.dfy`, `Antichain.dfy`: clocks, `reconcile`, and why folding it over
  versions in any order computes the maximal antichain.
- `Quorum.dfy`: the quorum loop, clamped thresholds, overlap, merged reads.
- `HashRing.dfy`, `RingStability.dfy`: the ring as a class over a sorted list and a map;
  canonical state, the wrapping walk, stability under membership changes.
- `HintStore.dfy`: the two-level hint store against the history of its operations.
- `Gossip.dfy`, `GossipCluster.dfy`: the failure detector, alone and in a cluster.
- `Node.dfy`: one node's imperative code (local storage, read, put, flush, gossip).
- `Replication.dfy`, `ReplicationFrame.dfy`, `ReplicationInvariant.dfy`: one key as a
  state machine over steps of coordinators, replicas, hint holder and network, with the
  invariants of every reachable state. `Placement.dfy` derives its configuration from the ring.
- `Continuations.dfy`: building and extending runs.
- `Convergence.dfy`, `Causality.dfy`, `Turns.dfy`, `Sequential.dfy`, `Visibility.dfy`,
  `Progress.dfy`, `Availability.dfy`: the theorems over whole runs.
- `FlushRefinement.dfy`, `PutRefinement.dfy`: a node's flush and put, as coded in
  `Node.dfy`, are runs of the state machine.
- `Counterexamples.dfy`: runs that show where the guarantees end.

In the state machine a request that was sent may take effect at any later time, any
number of times, or never; answers arrive in any order or are lost. Completion order,
clock readings, failures and the failure detector's verdicts are step parameters.

## Assumptions

- `put_local` is one atomic step, although the source takes no lock around its
  read-modify-write (`src/dynamokv/node.py:82-84`).
- N, R and W are at least 1, and all nodes agree on them and on the ring. Overlapping
  quorums, R + W above the length of the replica list, are assumed only where a lemma names
  `Overlapping`.
- Hashes are below 2^64, and there is at least one virtual node where a lemma says so. The
  stability theorems are about rings whose virtual points do not collide; additions,
  removals and lookups are specified with collisions too. The names that are hashed are
  proved distinct.
- Counters are naturals. Gossip is honest and nodes do not restart.
- No `delete` of the key happens during a run.

## Where documentation and code differ

`tests/test_node_conflicts.py:4-9` and `PROGRESS.md:257-262` say that with R + W > N a
conflict can never happen. It never does when the issued clocks form a chain
(`Sequential.ChainNeverConflicts`), and they do exactly when, of any two puts that issue a
version, one has read the other (`Sequential.ChainIffEachReadsOther`); for instance when
every such put is acknowledged before the next one starts
(`Sequential.SequentialNeverConflicts`). At N = 3, R = W = 2 the code does produce a conflict

- when puts of two coordinators overlap (`Counterexamples.ConflictDespiteOverlap`), and
- when they do not overlap but the first missed its write quorum
  (`Counterexamples.ConflictAfterFailedPut`).

The clock of a put says exactly who saw it if no other put of its coordinator counted to
the same number (`Causality.Unique`, `Causality.DominanceIsCausality`). This holds if and
only if every put of its coordinator that counts at least as far has read it
(`Causality.UniqueIffReadByLaterCounts`). An acknowledged value can therefore vanish only
if another put of its own coordinator reused its very counter
(`Causality.AckedValueNeverLost`), and a read answers with a conflict exactly when two of
the puts it saw are causally latest, if none of those counters was reused
(`Causality.ReadConflictIffTwoLatest`).

Unique counters are guaranteed when the puts of each coordinator, from all its clients
together, are each acknowledged before the next one starts (`Turns.TurnsReadOwnPast`; for
one put `Turns.AckedApartIsUnique`). It is not enough that each client waits for its own
puts. The code does not guarantee it, and without it acknowledged values vanish, either
behind an equal clock (`Counterexamples.ReusedClockLosesValue`) or behind a clock that
dominates without having seen them (`Counterexamples.UnseenPutIsDominated`).

## Model

| member | source | states |
|---|---|---|
| VectorClocks.Compare | src/dynamokv/vector_clock.py:27-39 | The four outcomes, decided on the union of two key sets, are exactly equality, strict dominance either way and concurrency in the order over all nodes |
| VectorClocks.Incremented | src/dynamokv/vector_clock.py:22-25 | The result is strictly above the clock and differs in one entry |
| VectorClocks.Merge | src/dynamokv/vector_clock.py:50-56 | The nested loops compute the entry-wise merge of the list |
| VectorClocks.MergedIsLeastUpperBound | src/dynamokv/vector_clock.py:50-56 | The merge is above every clock and below every other upper bound |
| VectorClocks.MergedEntryHasSource | src/dynamokv/vector_clock.py:50-56 | Every positive entry of a merge occurs in one of the merged clocks |
| VectorClocks.Reconcile | src/dynamokv/vector_clock.py:72-86 | The loop with early return, filter and append computes the reconciliation function |
| Antichains.ReconciledList | src/dynamokv/vector_clock.py:81-86 | The list stays as it is if some sibling is at or above the incoming version, which is otherwise appended to exactly the siblings it does not supersede |
| Antichains.SurvivorsConcat | src/dynamokv/vector_clock.py:84-85 | The siblings that stay keep their order |
| Antichains.ReconciledCovers | src/dynamokv/vector_clock.py:72-86 | One reconciliation enlarges the set of covered clocks by exactly what the incoming version covers |
| Antichains.ReconciledAntichain | src/dynamokv/vector_clock.py:72-86 | One reconciliation keeps siblings pairwise concurrent |
| Antichains.FoldIsMaximalAntichain | src/dynamokv/vector_clock.py:72-80 | Folding any list yields exactly one version per maximal clock of the list and nothing else |
| Antichains.FoldOrderIrrelevant | src/dynamokv/vector_clock.py:72-80 | Order and duplicates never change the resulting clocks |
| Antichains.FoldConverges | src/dynamokv/vector_clock.py:72-80 | Two lists that cover each other fold to the same clocks, so superseded versions may be missing |
| Antichains.FoldKeepsFirst | src/dynamokv/vector_clock.py:81-83 | Of several versions with one clock the first to arrive is kept |
| Antichains.ConflictIffTwoMaximal | src/dynamokv/vector_clock.py:72-80 | The antichain has more than one element exactly when two maximal clocks differ |
| Antichains.MaximalAntichainCovers | src/dynamokv/vector_clock.py:72-80 | Every version of a finite set lies below an element of its maximal antichain |
| Quorums.QuorumOp | src/dynamokv/node.py:106-121 | Keeps the successes in completion order up to the threshold, at least one if any, and no failure |
| Quorums.ReachesThreshold | src/dynamokv/node.py:283-283 | A count reaches the clamped threshold when it reaches the configured number or the number of replicas |
| Quorums.SuccessesInOrder | src/dynamokv/node.py:113-118 | Exactly the successes are counted, each in its place in completion order |
| Quorums.ClampedQuorumsOverlap | src/dynamokv/node.py:283-317 | Any accepted reader set and any accepted writer set share a replica when R + W exceeds the length of the replica list, with thresholds clamped to it |
| Quorums.SmallQuorumsCanMiss | src/dynamokv/config.py:23-28 | When R + W does not exceed the list length, disjoint accepted quorums exist, so the condition is exact |
| Quorums.MergeReplies | src/dynamokv/node.py:169-173 | The nested loops fold all replies one version at a time |
| Quorums.MergedReadIndependent | src/dynamokv/node.py:165-173 | The merged read is the maximal antichain of the union of replies, independent of arrival order and of who carried which sibling |
| Quorums.EarliestReplyWins | src/dynamokv/node.py:169-173 | A version of the merged read comes from the earliest reply that holds its clock |
| Quorums.ReadResponseMeaning | src/dynamokv/node.py:281-292 | Unavailable iff too few replies, not found iff nothing was returned, conflict iff two maximal clocks differ; a found version is above every returned one, and a conflict reports the maximal antichain of all of them |
| Quorums.NextVersionDominates | src/dynamokv/node.py:297-299 | A put's clock is strictly above every clock its read covers |
| Quorums.NextVersionExact | src/dynamokv/node.py:297-299 | A put writes the client's value; for each node its clock counts what the replies count at most, and one more for the coordinator |
| HashRings.HashRing.constructor | src/dynamokv/ring.py:20-26 | Adds the given nodes one after the other, collisions or not; without collisions the result is the canonical ring of the set |
| HashRings.HashRing.AddNode | src/dynamokv/ring.py:33-40 | For every ring: a new node ends up owning the hash of each of its names, and each is inserted into the sorted list once more; from a canonical ring the result is canonical iff nothing collides; a known node changes nothing |
| HashRings.AddedCanonicalIff | src/dynamokv/ring.py:37-40 | A node added to a canonical ring keeps it canonical exactly when none of its virtual points coincides with another point |
| HashRings.HashRing.RemoveNode | src/dynamokv/ring.py:42-50 | For every ring: each point of the node leaves the map and, once, the sorted list; it fails at the first point that has no owner any more, which cannot happen without collisions, and then the result is the canonical ring of the reduced node set |
| HashRings.RemovedConsistentIff | src/dynamokv/ring.py:46-50 | A completed removal leaves points without an owner exactly when some other virtual point of the ring coincides with one of the node's |
| HashRings.CanonicalUnique | src/dynamokv/ring.py:33-50 | Sorted list and owner map are determined by the node set, whatever the history |
| HashRings.OwnershipCount | src/dynamokv/ring.py:37-40 | Each node owns exactly the configured number of points, other names none |
| HashRings.VirtualNameReads | src/dynamokv/ring.py:38-38 | The name of a virtual node is the node's name, '#' and the decimal numeral of its index, without leading zeros |
| HashRings.OwnedPointsAreNamed | src/dynamokv/ring.py:37-39 | On a canonical ring a node owns exactly the hashes of its name, '#' and a numeral below the number of virtual nodes |
| HashRings.DigestsFillSpace | src/dynamokv/ring.py:29-31 | Eight-byte digests read as big-endian numbers are exactly the numbers below 2^64 |
| HashRings.VirtualNameInjective | src/dynamokv/ring.py:38-38 | Distinct virtual nodes hash distinct names, even when node names contain the separator |
| HashRings.InjectiveHashHasNoCollisions | src/dynamokv/ring.py:28-31 | A hash that is injective on the virtual names of the nodes in use meets the ring's assumption |
| HashRings.BisectLeft | src/dynamokv/ring.py:56-60 | Binary search on a sorted list, repetitions allowed, finds the only split between smaller points and the rest |
| HashRings.HashRing.GetNode | src/dynamokv/ring.py:52-61 | The answer owns a point of least clockwise distance and heads the owner order, collisions or not; an error iff the ring is empty |
| HashRings.NearestPoint | src/dynamokv/ring.py:52-61 | The first clockwise point is strictly nearer to the hash, clockwise on the circle of 2^64 points, than any different one |
| HashRings.OwnersByDistance | src/dynamokv/ring.py:71-86 | Of two owners the walk meets first the one whose nearest point is nearer, which determines the order of the replica list |
| HashRings.HashRing.GetPreferenceList | src/dynamokv/ring.py:63-86 | The wrapping walk returns the first min(n, node count) distinct owners, or all of them for a target below one, collisions or not |
| RingStability.PreferenceListShape | src/dynamokv/ring.py:63-86 | For n at least 1 the list has min(n, node count) distinct members, the same head as the lookup, and is a prefix of the next longer list |
| RingStability.OwnerOrderStable | src/dynamokv/ring.py:10-12 | Adding a node only inserts it into each key's clockwise owner order; removal is the converse |
| RingStability.PreferenceListStable | src/dynamokv/ring.py:63-86 | The new replica list without the new node is a prefix of the old one, shorter by at most one |
| RingStability.OwnerChangesOnlyToNewNode | src/dynamokv/ring.py:10-12 | A key changes owner only to the added node or away from the removed one |
| RingStability.HintHolderIsNextOwner | src/dynamokv/node.py:301-302 | The hint holder is the next owner after the replica list, existing iff the cluster has a spare node |
| RingStability.AddThenRemove | src/dynamokv/ring.py:33-50 | On the class, adding a new node and removing it again restores list, map and node set |
| Placement.RingYieldsValidConfig | src/dynamokv/node.py:295-302 | Every non-empty canonical ring yields the first owners as replica list and the next one as hint holder, a configuration the protocol theorems apply to; its quorums overlap iff R + W exceeds the smaller of N and the node count |
| HintStores.HintStore.Add | src/dynamokv/hint_store.py:25-31 | Reconciles into the pair's hints and leaves the rest of the store alone |
| HintStores.HintStore.ClearKey | src/dynamokv/hint_store.py:37-46 | Removes one key's hints, and the blob with its last key |
| HintStores.StoreRefinesHistory | src/dynamokv/hint_store.py:25-46 | After any operations a pair holds the fold of exactly the hints added since its last clear |
| HintStores.HintsAreMaximalAntichain | src/dynamokv/hint_store.py:25-46 | Hence the maximal antichain of them; other targets and keys never interfere |
| HintStores.HasPendingExact | src/dynamokv/hint_store.py:48-56 | A target has pending hints iff some pair was added to since its clear; no list handed out is empty |
| Gossip.GossipState.Tick | src/dynamokv/gossip.py:22-26 | Raises the own counter by one and stamps it |
| Gossip.GossipState.MergeWire | src/dynamokv/gossip.py:31-42 | The loop adopts and stamps new nodes and strictly higher counters, and nothing else, never anything about itself |
| Gossip.BelievedDownExact | src/dynamokv/gossip.py:44-51 | Down iff not oneself and the last report that introduced the peer or exceeded all earlier ones is older than the timeout |
| Gossip.BelievedDownIffSilent | src/dynamokv/gossip.py:44-51 | With a non-decreasing clock: down iff known and every such report is older than the timeout |
| Gossip.StaleNewsChangesNothing | src/dynamokv/gossip.py:31-42 | Stale or duplicate tables and own ticks never change the answer |
| GossipClusters.GossipNeverRunsAhead | src/dynamokv/node.py:222-239 | In every run no view and no message in flight exceeds the owner's counter |
| GossipClusters.ViewsNeverDecrease | src/dynamokv/gossip.py:31-42 | In no run does any view of any counter ever decrease |
| GossipClusters.OwnCounterCountsTicks | src/dynamokv/gossip.py:22-29 | A node's counter is its number of ticks in the run, so only its own ticks raise it, and it bounds every view |
| GossipClusters.OnePushSpreadsNews | src/dynamokv/node.py:222-239 | From every reachable state one push makes the receiver know all that the sender knows, its own counter included, and no count is invented |
| GossipClusters.RefreshesAreBounded | src/dynamokv/gossip.py:31-42 | In every run a view is refreshed at most once per tick of its subject not heard of yet, however often messages are repeated |
| GossipClusters.SilentPeerStaysDown | src/dynamokv/gossip.py:44-51 | Once a peer has stopped ticking and its last count has arrived, the verdict is down from one timeout after that news on, in every continuation |
| Nodes.Node.PutLocal | src/dynamokv/node.py:82-84 | Reconciles the version into one key's siblings |
| Nodes.Node.PartitionByLiveness | src/dynamokv/node.py:177-186 | Splits the list in order: down are the other nodes that are known and silent for longer than the timeout |
| Replication.KeepInConcat | src/dynamokv/node.py:181-185 | Both parts of the split keep the order of the list |
| Nodes.TakenAreFirst | src/dynamokv/node.py:106-121 | A quorum read keeps the first successes it needs, in completion order, at least one if there is any |
| Nodes.Node.Read | src/dynamokv/node.py:281-292 | Unavailable iff fewer than R and fewer than all replicas succeed; otherwise the answer by cases of the merged replies of the first responders |
| Nodes.Node.Put | src/dynamokv/node.py:294-321 | Writes the client's value under the next clock of the read quorum; hints go to exactly the presumed-down and the failing replicas, in order; acknowledged iff W or all replicas accept the write |
| Nodes.WrittenOrHinted | src/dynamokv/node.py:304-318 | With a hint holder each replica either acknowledges the write or is sent a hint, never both and never neither; one that applied the write but whose answer failed is hinted too |
| Nodes.Node.FlushHintsFor | src/dynamokv/node.py:205-220 | Delivers a snapshot; the first confirmation of a key clears all its hints; other targets are untouched |
| Nodes.FlushKeepsAllIff | src/dynamokv/node.py:211-218 | A flush loses nothing iff no delivery is confirmed or every unapplied sibling was already covered |
| Nodes.Node.GossipExchange | src/dynamokv/node.py:222-239 | One push-pull round with its own clock reading for tick and merge, under loss of the push or of the answer |
| FlushRefinement.FlushRuns | src/dynamokv/node.py:205-220 | Whatever becomes of the deliveries, flushing a key from any reachable state is a legal run of the protocol with exactly the effect of the code's flush |
| FlushRefinement.FlushIsRun | src/dynamokv/node.py:205-220 | The flush method leaves holder and target in the state a legal continuation of the protocol reaches |
| PutRefinement.PutRuns | src/dynamokv/node.py:294-321 | For every reachable state, reader list, failure pattern and completion order the put is a legal run: its version, the replicas that store it, the hints parked or lost and whether it is acknowledged are determined, and nothing stays in flight |
| PutRefinement.PutIsRun | src/dynamokv/node.py:294-321 | The put method leaves storage and hint store in the state a legal continuation of the protocol reaches, and answers success iff the put is acknowledged there |
| ReplicationFrame.CoverageNeverShrinks | src/dynamokv/node.py:82-84 | No step makes a replica stop covering a clock |
| ReplicationInvariant.InvariantHolds | src/dynamokv/node.py:281-321 | All protocol invariants hold in every reachable state of every run |
| ReplicationInvariant.HintCoverageStep | src/dynamokv/node.py:188-220 | Every step keeps each issued version accounted for at each replica |
| ReplicationInvariant.AckedShownStep | src/dynamokv/node.py:106-121 | Every step keeps: an acker that serves a read started after the acknowledgement shows the write |
| Convergence.ReachableListsAreAntichains | src/dynamokv/node.py:76-93 | In every reachable state sibling and hint lists are antichains of issued versions |
| Convergence.IssuedValueIsClients | src/dynamokv/node.py:299-299 | In every reachable state an issued version carries the value its client sent |
| Convergence.CoverageIsForever | src/dynamokv/node.py:82-84 | What a replica once covered it covers for the rest of the run |
| Convergence.HintCoverageHolds | src/dynamokv/node.py:301-315 | An issued version is at each replica, on its way, parked, or recorded as lost |
| Convergence.LossHasCause | src/dynamokv/node.py:188-220 | In any run a version lost to a replica goes back to an earlier step for that version and that replica: a missing spare node, a failed remote hint request, or a clear of hints the replica did not cover |
| Convergence.FlushLosesIff | src/dynamokv/node.py:217-218 | In any run a confirmed delivery loses a version iff some hint parked for the target at that moment, sibling or later addition, is not covered there; otherwise the record of losses is unchanged |
| Convergence.ConvergedIffNothingMissing | src/dynamokv/node.py:205-220 | In a quiet state a replica holds the maximal antichain of all issued versions iff it has received whatever was lost towards it |
| Convergence.ReplicasConverge | src/dynamokv/node.py:82-84 | With nothing in flight and nothing lost all replicas hold the same clocks, that antichain |
| Convergence.AckedBeforeIsRecorded | src/dynamokv/node.py:317-321 | The history record of an operation contains every put acknowledged before it started |
| Convergence.AckedWriteNeverLost | src/dynamokv/node.py:106-121 | With overlapping quorums every completed read started after an acknowledgement covers the acknowledged clock, in any concurrent run |
| Visibility.ShownForeverIff | src/dynamokv/node.py:165-173 | From any reachable state and for any quorums, every read that starts later and completes covers a clock iff more than |replicas| - R of them cover it |
| Visibility.AckedIsHeld | src/dynamokv/node.py:317-321 | With overlapping quorums an acknowledged clock is held by that many replicas |
| Progress.AlwaysQuiescible | src/dynamokv/node.py:205-220 | From every reachable state some continuation ends with nothing in flight or parked, issuing no further version and, with a spare node, losing none |
| Progress.ConvergenceStaysPossible | src/dynamokv/node.py:188-220 | With a spare node, as long as nothing was lost, every reachable state has a continuation in which all replicas hold the maximal antichain of everything issued |
| Availability.QuorumsMeanCounts | src/dynamokv/node.py:283-317 | In every reachable state a read is complete iff R or all replies were counted, and a put acknowledged iff W or all replicas were |
| Availability.AlwaysAvailable | src/dynamokv/node.py:281-321 | From every reachable state some continuation completes a new get and acknowledges a new put of any value by any coordinator |
| Causality.CausalityImpliesDominance | src/dynamokv/node.py:294-299 | The transitive closure of reading a version, and with overlap of acknowledgement before start, implies strict clock dominance |
| Causality.UniqueIffReadByLaterCounts | src/dynamokv/node.py:297-298 | In any run and for any quorums, no other put of its coordinator counts to the number of a put iff every put of that coordinator counting at least as far has read it |
| Causality.CountersDistinctIffOwnPastRead | src/dynamokv/node.py:297-298 | For all counters together: none is reused iff of any two puts of one coordinator one read the other |
| Causality.OwnPastReadMakesUnique | src/dynamokv/node.py:297-298 | In runs where each coordinator reads its own past no counter is reused, so what follows for such puts holds for all |
| Causality.DominanceIsCausality | src/dynamokv/node.py:294-299 | For a put whose counter is not reused, and any quorums, strict dominance over its clock is exactly the transitive closure of reading a version |
| Causality.ClocksAreUnique | src/dynamokv/node.py:297-298 | No other put issues the clock of a put whose counter is not reused |
| Causality.ConflictIffUnrelated | src/dynamokv/vector_clock.py:6-10 | Two such versions are concurrent iff neither put precedes the other |
| Causality.ReadConflictIffTwoLatest | src/dynamokv/node.py:281-292 | If no put it saw had its counter reused, a completed read answers with a conflict iff two different puts it saw precede no other put it saw |
| Causality.ConflictReportsLatest | src/dynamokv/node.py:289-292 | And then the client gets exactly the versions of the causally latest puts among those seen |
| Causality.AckedValueNeverLost | src/dynamokv/node.py:317-321 | With overlapping quorums and unless another put of its coordinator reused its counter, a later read contains the acknowledged version itself or one whose put came causally after it, with the value its client sent |
| Causality.ReplicasConvergeOnVersions | src/dynamokv/node.py:82-84 | Convergence holds for whole versions, values included, if no put whose version one replica holds had its counter reused |
| Turns.TurnsReadOwnPast | src/dynamokv/node.py:294-299 | With overlapping quorums, coordinators whose issued puts, from all clients together, are each acknowledged before the next one starts read their own past |
| Turns.AckedApartIsUnique | src/dynamokv/node.py:294-299 | The counter of a put is not reused if every other put of its coordinator was acknowledged before it started or started after it was acknowledged |
| Turns.WaitingIssuesInTurn | src/dynamokv/node.py:317-321 | Starting no put of a coordinator before its earlier ones, whoever sent them, aborted or were acknowledged gives such runs |
| Sequential.ChainIffEachReadsOther | src/dynamokv/node.py:294-299 | In any run and for any quorums, the issued clocks form a strict chain iff of any two puts that issued one has read the other |
| Sequential.ChainNeverConflicts | src/dynamokv/node.py:281-292 | Then every sibling and hint list has at most one version and no read conflicts |
| Sequential.IssuedFormChain | src/dynamokv/node.py:294-321 | When of any two puts that issued one was acknowledged before the other started, issued clocks form a strict chain in that order; puts that never issue do not matter |
| Sequential.SequentialNeverConflicts | src/dynamokv/node.py:281-292 | So with puts acknowledged in turn every sibling and hint list has at most one version and no read conflicts |
| Sequential.SequentialReadsLatest | src/dynamokv/node.py:281-292 | A completed read with no put in progress returns exactly the last acknowledged version, with the value its client sent |
| Sequential.NothingIssuedNothingFound | src/dynamokv/node.py:285-286 | Before anything is issued a completed read answers not found |
| Counterexamples.ConflictDespiteOverlap | tests/test_node_conflicts.py:4-9 | For any two coordinators some run with overlapping quorums acknowledges both puts and then answers a read with a conflict |
| Counterexamples.ConflictAfterFailedPut | src/dynamokv/node.py:319-320 | In some run with overlapping quorums a put misses its write quorum and is over before the next starts, and a read still answers with a conflict |
| Counterexamples.ReusedClockLosesValue | src/dynamokv/node.py:297-298 | In some run where a coordinator does not read its own past two puts share a clock, both are acknowledged, and a later completed read returns one value without a trace of the other |
| Counterexamples.UnseenPutIsDominated | src/dynamokv/node.py:297-298 | In another such run the clocks differ: an acknowledged put is erased by a put of its coordinator that never saw it |
| Counterexamples.LaterReadIsOlder | src/dynamokv/node.py:281-292 | In some run with overlapping quorums a read returns a version and a read started afterwards finds nothing |
| Counterexamples.FlushBreaksConvergence | src/dynamokv/node.py:205-220 | Some run ends quiet but unconverged because a flush cleared an undelivered sibling |

## Left out

- Nodes.Node.Put: runs one put from start to end with given outcomes; interleaving of coordinators, late stragglers and duplicated requests are modelled in `Replication` instead, of which each put is shown to be a run.
- PutRefinement.PutIsRun: all replies are taken from the state the put starts in, and the local write succeeds.
- Nodes.Node.FlushHintsFor: one flush without hints added meanwhile; racing additions are steps of `Replication`.
- Nodes.Node.GossipExchange: the random choice of the peer and the loop that then flushes hints to every peer believed up are left to the caller.
- HashRings.HashRing.GetNode: lookups on a ring in which a removal left points without an owner, where the source raises on such a point, are not modelled; nor are further additions and removals there.
- Several keys in one run: storage and hints are per key and keys never interact, so `Replication` follows one key.
- Unlocked interleaving inside `put_local`: taken as atomic, see Assumptions.
- `delete`: it erases siblings without a tombstone and would falsify monotonicity.
- Aliasing of stored lists and dictionaries: storage is a map of values.
- HTTP, TLS, JSON, the thread pool, storage backends and encryption: foreign code, replaced by outcomes and maps.
- BLAKE2b: an arbitrary function into 64-bit numbers; statistical balance is not claimed.
- Process restarts, which reset a gossip counter.
- Metrics, logging, audit, authentication, configuration, the gossip thread, benchmarks, scripts and the dashboard: thin or unrelated to replication.
