# fount-p2p: a verified model of the event DAG, link framing and small protocols

This project models the Kotlin port of fount-p2p in Dafny and proves what its replicas rely on.
`dafny verify dfyconfig.toml` checks everything.

## What is modelled

**The event DAG.** A timeline is a hash-addressed DAG of events. Replicas that never talk to each other must
order it alike and fold it to the same state.

| file | content |
|---|---|
| `Texts`, `Seqs`, `Numbers`, `Ids`, `HexIds` | text order, list vocabulary, normalised id lists, why a 64-hex id can be read as a number |
| `Events`, `Graphs` | event rows, the tie-breaker, extract-min; parent paths, cycles, closed sets |
| `CanonicalOrder`, `Dag`, `OrderKeys` | the canonical order as a specification with its laws, the Kahn loops proved against it, and what it means row by row |
| `Closures`, `Branch` | least closed sets and the stack loops; tips, ancestor and descendant closures, branch choice, fold order |
| `OrderCache` | the incremental order cache, whole runs of it, and exactly when it agrees with the full order |
| `RetentionPolicy`, `Timeline` | which events are kept, and the log rewritten to them, raw lines included |
| `Append`, `Materialize`, `Merkle` | clocks and parents of appended events, the folded state, the id-set root |

**Link framing.** `Frames` covers encoding and decoding; `Reassembly` is the reassembler with its mutable partial
messages and counters, each call proved equal to a pure function of the state; `ReassemblyRuns` follows whole runs of
interleaved, repeated and reordered frames with prunes in between.

**Canonical JSON.** `JsonStrings` and `CanonicalJson` are the writers; `JsonMeaning` shows that text and data determine
each other; `JsonReader` reads the text back by the grammar of RFC 8259; `EventIds` carries both to event ids.

**Small protocols,** as state machines over their steps, each with the invariant that every run keeps:
`LinkGlare` (which of several links survives), `Overlay`, `OverlayRuns`, `OverlayDelivery` and `OverlayTrust` (route
discovery by flooding and relaying, when it must succeed, and what a route or a body proves among nodes that may send
anything), `MailboxPrune`, `MailboxEviction`, `MailboxStore`, `MailboxTiers` and `MailboxRank` (fair eviction and exactly
who goes, the stored list, what tiers count for), `MailboxProtocol` and `MailboxSpread` (the hop limit, and exactly who
ends with a copy).

A loop in the source is a method here with the same loop; a class with mutable fields is a class. Their contracts tie
them to specification functions, and the laws are lemmas about those functions. Graphs and logs are of any size and
may contain cycles unless a clause says otherwise.

## Conventions and assumptions

- Rows in one log have distinct ids. Runs of the order cache are over acyclic logs (an id hashes the parents it names)
  in which rows may come and go but an id keeps its row; parents may be missing, as after a checkpoint prune. Ids are well-formed: 64 lower-case hex digits, read as numbers.
- SHA-256 and signatures are free symbols: distinct inputs have distinct digests, and only the owner of a key makes
  its signatures. So a Merkle leaf digest never equals an inner one.
- Clock readings, drawn ids, the set of linked peers and the mailbox's expiry instant are parameters.
- Kotlin's `Int` and `Long` are unbounded here except where the code can meet their limits: frame numbers and totals
  are read as signed 32-bit integers, the chunk count is computed in 32-bit arithmetic, and the logical clock counter
  wraps at 2^63.
- Senders are authenticated, and the network may delay, drop, reorder and repeat every message. Nodes follow the
  protocol, except in `OverlayTrust`, where they may besides send whatever they can sign or have seen signed.

## Where the code does less than its comments or callers expect

Each is a theorem with the exact condition.

- The incremental cache can serve an order that differs from the canonical one: `OrderCache.RunAgreesIff` over whole
  runs, `OrderCache.CacheAgreesIff` for one step, with the example `OrderCache.ReplicasMayDisagree`. Replicas with the
  same events that fold the orders they are served can end in different states: `Materialize.ReplicasMayFoldDifferently`.
- A parent that arrives after its child was cached breaks the order: `OrderCache.RunTopologicalIff` over whole runs,
  with the example `OrderCache.LateParentBreaksOrder`.
- The merge computes an insertion point from a new event's parents, but it always comes out as the end of the list:
  `OrderCache.InsertionPoint`.
- `mailbox/Importance.kt:35` says low tiers are evicted first. Both pruning passes sort again by time, so a bucket gives
  its records up by age and the tier only orders those of one instant: `MailboxTiers.AgeThenTier`,
  `MailboxTiers.WrittenBucketIsNewest`. The file respects tiers exactly under `MailboxRank.FileRankRespectedIff`, and
  who is in it at all is `MailboxRank.InFileIff`. Either pass can break the rule: bucket pruning in
  `MailboxTiers.HighestTierGoesFirst` (its own condition is `MailboxTiers.RankRespectedIff`), global eviction alone in
  `MailboxRank.TrustedGoesUnderPressure`.
- `node/RetentionPolicy.kt:14` calls `maxDepth` the greatest event depth on the branch. Without a checkpoint a branch
  longer than the bound loses nothing, because the bound then seeds the tip and the closure takes all its ancestors:
  `RetentionPolicy.BranchLosesNothingIff`, `Timeline.RetentionLosesNothingIff` for the file, with the example
  `RetentionPolicy.TighterBoundKeepsMore`.
- A node takes up only the first copy of a route request, so one that came a long way can use up the ttl that a shorter
  path needs: `OverlayDelivery.DetourShadowsRoute`. `OverlayDelivery.LosslessFindsRoute` says when that cannot happen.
- A node stores only the first copy of a mailbox record that reaches it. If that came the long way round it is in
  quarantine and not passed on, so a peer of a peer of the publisher may get nothing although every put arrives:
  `MailboxSpread.QuarantineShadowsPeer`; who does get a copy is `MailboxSpread.HoldersExactly`.
- The tips hash of an order cache decides nothing unless the cached order repeats an id: `OrderCache.CacheServedIff`,
  `OrderCache.RepeatsServedOnHit`.
- `encodeFrames` loses part of the body when its length plus the chunk size minus one exceeds 2^31 - 1:
  `Frames.ChunksCarryBodyIff`.
- `nextHlc` promises a strictly later clock; it fails exactly when the logical counter is full and no clock has moved:
  `Append.NextHlcIsLater`. An append looks at the last line only, so with several writers its key may not exceed those
  of its parents: `Append.AppendAlwaysMonotoneIff`, with the example `Append.TipAheadOfLastLine`.
- The `multiTip` option of an append makes no difference: `Append.AppendJoinsTips`.
- Two links of the winning level started by the same side can close each other: `LinkGlare.AgreeUnlessTwins`.
- Events with an ancestor on a cycle are left out of the order, hence dropped by a rewrite:
  `CanonicalOrder.EmittedExactly`, `Timeline.RewrittenGraph`, `Timeline.PruneExactIff`.
- The retention closure does not follow parents of checkpoint descendants, so with a checkpoint a log without dangling
  parents may get some: `Timeline.RetainedFileClosedIff`, with the example `Timeline.RetainedFileMayDangle`.

## Model

| member | source | states |
|---|---|---|
| `HexIds.OrderIsNumeric` | kotlin/src/main/kotlin/io/github/steve02081504/fountp2p/core/HexIds.kt:4-28 | 64-hex ids compare as texts exactly as the numbers they spell, which is why the other modules take ids to be numbers |
| `Texts.LexTotal` | kotlin/src/main/kotlin/io/github/steve02081504/fountp2p/dag/Dag.kt:141-143 | the text comparison behind the node tie-breaker is total: two different texts are always ordered one way |
| `Texts.LexLessIff` | kotlin/src/main/kotlin/io/github/steve02081504/fountp2p/dag/Dag.kt:141-143 | the comparison is decided at the first code unit in which two texts differ, or by the end of the shorter one |
| `Events.BeforeTotal` | kotlin/src/main/kotlin/io/github/steve02081504/fountp2p/dag/Dag.kt:134-146 | the tie-breaker (wall, logical, node, id) orders any two distinct events one way and never both ways |
| `Events.BeforeTransitive` | kotlin/src/main/kotlin/io/github/steve02081504/fountp2p/dag/Dag.kt:134-146 | the tie-breaker is transitive, so with totality a strict total order |
| `Events.IndexById` | kotlin/src/main/kotlin/io/github/steve02081504/fountp2p/dag/Dag.kt:113-117 | the `byId` loop builds the row map of the list |
| `Events.ExtractMin` | kotlin/src/main/kotlin/io/github/steve02081504/fountp2p/dag/Dag.kt:148-156 | polling the queue removes the one least ready event under the tie-breaker |
| `Ids.SortedIds` | kotlin/src/main/kotlin/io/github/steve02081504/fountp2p/dag/Dag.kt:51-54 | parent ids come out strictly ascending and name exactly the ids that went in |
| `Ids.SortedIdsCanonical` | kotlin/src/main/kotlin/io/github/steve02081504/fountp2p/dag/Dag.kt:51-54 | two raw parent lists normalise alike exactly when they name the same set |
| `Dag.AddRow` | kotlin/src/main/kotlin/io/github/steve02081504/fountp2p/dag/Dag.kt:120-125 | recording one row extends every child list by exactly that row where it is a parent, and counts its in-graph parents |
| `Dag.BuildEdges` | kotlin/src/main/kotlin/io/github/steve02081504/fountp2p/dag/Dag.kt:118-125 | after the edge loop the counters are the numbers of in-graph parents and the lists name each child once |
| `Dag.CountDownAll` | kotlin/src/main/kotlin/io/github/steve02081504/fountp2p/dag/Dag.kt:158-162 | counting the children of an emitted event down releases exactly those that waited for nothing else |
| `Dag.ReadyAfter` | kotlin/src/main/kotlin/io/github/steve02081504/fountp2p/dag/Dag.kt:155-163 | what is ready after emitting an event: what was ready before, less it, plus its released children |
| `Dag.DrainQueue` | kotlin/src/main/kotlin/io/github/steve02081504/fountp2p/dag/Dag.kt:155-165 | the main loop yields the specified order from correct counters and lists |
| `Dag.TopologicalCanonicalOrder` | kotlin/src/main/kotlin/io/github/steve02081504/fountp2p/dag/Dag.kt:111-166 | the whole function computes `Order` of the event graph |
| `Dag.OrderIgnoresInputOrder` | kotlin/src/main/kotlin/io/github/steve02081504/fountp2p/dag/Dag.kt:111-166 | any arrangement of the same events gives the same order |
| `CanonicalOrder.OrderIsGreedy` | kotlin/src/main/kotlin/io/github/steve02081504/fountp2p/dag/Dag.kt:155-163 | each emitted event is the least of those whose parents are already out, and nothing more could be emitted |
| `CanonicalOrder.GreedyUnique` | kotlin/src/main/kotlin/io/github/steve02081504/fountp2p/dag/Dag.kt:155-163 | only one list is greedy in that sense, so the order is determined by the graph |
| `CanonicalOrder.OrderIsTopological` | kotlin/src/main/kotlin/io/github/steve02081504/fountp2p/dag/Dag.kt:118-165 | on any graph: no id twice, and every in-graph parent strictly before its child |
| `CanonicalOrder.EmittedExactly` | kotlin/src/main/kotlin/io/github/steve02081504/fountp2p/dag/Dag.kt:118-165 | on any graph: an event is emitted exactly when neither it nor an ancestor lies on a cycle |
| `CanonicalOrder.CompleteIffAcyclic` | kotlin/src/main/kotlin/io/github/steve02081504/fountp2p/dag/Dag.kt:118-165 | all events are emitted exactly when the graph is acyclic |
| `CanonicalOrder.LeastLinearExtension` | kotlin/src/main/kotlin/io/github/steve02081504/fountp2p/dag/Dag.kt:134-163 | any other topological arrangement of the emitted events is later at the first place where it differs |
| `OrderKeys.OrderFollowsKeys` | kotlin/src/main/kotlin/io/github/steve02081504/fountp2p/dag/Dag.kt:127-163 | read off the rows: if the later of two listed events could have stood in the place of the earlier one, its parents being listed before, the earlier row has the smaller wall, then counter, then node text, then id; what a row lacks counts as 0, 0 and the empty text |
| `OrderKeys.UnrelatedRowsAreSorted` | kotlin/src/main/kotlin/io/github/steve02081504/fountp2p/dag/Dag.kt:127-163 | rows none of which names another are listed all, sorted by that tuple |
| `CanonicalOrder.OrderOfParentClosedPart` | kotlin/src/main/kotlin/io/github/steve02081504/fountp2p/dag/Dag.kt:111-166 | ordering a parent-closed part of a graph gives the order of the whole, filtered |
| `CanonicalOrder.MonotoneSorted` | kotlin/src/main/kotlin/io/github/steve02081504/fountp2p/dag/Dag.kt:134-163 | if children's keys exceed their parents', the order holds every event and is the sort by key |
| `CanonicalOrder.MonotoneOrderCommutesWithDrop` | kotlin/src/main/kotlin/io/github/steve02081504/fountp2p/dag/Dag.kt:134-163 | under the same condition, dropping any events and ordering commute |
| `Graphs.StuckHasCycle` | kotlin/src/main/kotlin/io/github/steve02081504/fountp2p/dag/Dag.kt:155-163 | from any event of a set in which everyone still waits for a member, a cycle can be reached |
| `Merkle.MerkleRoot` | kotlin/src/main/kotlin/io/github/steve02081504/fountp2p/dag/Dag.kt:18-34 | the level loop computes the root of the sorted, deduplicated ids |
| `Merkle.RootKeepsLeaves` | kotlin/src/main/kotlin/io/github/steve02081504/fountp2p/dag/Dag.kt:22-32 | no level moves a leaf in or out, the doubled odd last digest included |
| `Merkle.RootDeterminesIds` | kotlin/src/main/kotlin/io/github/steve02081504/fountp2p/dag/Dag.kt:18-34 | two id lists have the same root exactly when they hold the same set of ids |
| `Merkle.RootReadsLeftToRight` | kotlin/src/main/kotlin/io/github/steve02081504/fountp2p/dag/Dag.kt:18-34 | the level-by-level root is that of the tree defined top down: the lowest one with room for the ids in ascending order, first half left, rest right, an empty right half repeating the left one |
| `OrderCache.InsertionPoint` | kotlin/src/main/kotlin/io/github/steve02081504/fountp2p/federation/DagOrderCache.kt:37-44 | the insertion point is the end of the list, whatever the parents |
| `OrderCache.InsertAll` | kotlin/src/main/kotlin/io/github/steve02081504/fountp2p/federation/DagOrderCache.kt:36-47 | so the insertion loop appends the new order |
| `OrderCache.MergeTopologicalOrder` | kotlin/src/main/kotlin/io/github/steve02081504/fountp2p/federation/DagOrderCache.kt:22-49 | the merge is the surviving cached ids followed by the canonical order of the new events alone |
| `OrderCache.ResolveEventTopologicalOrder` | kotlin/src/main/kotlin/io/github/steve02081504/fountp2p/federation/DagOrderCache.kt:58-94 | the hit, merge and full paths, chosen as specified by `Resolved` |
| `OrderCache.MergedIsPermutation` | kotlin/src/main/kotlin/io/github/steve02081504/fountp2p/federation/DagOrderCache.kt:22-49 | on an acyclic history the merged list holds every event once, so its size passes the check that accepts it |
| `OrderCache.MergedTopologicalIff` | kotlin/src/main/kotlin/io/github/steve02081504/fountp2p/federation/DagOrderCache.kt:22-49 | the merged list puts parents first exactly when no cached event names a new event as a parent |
| `OrderCache.MergedCanonicalIff` | kotlin/src/main/kotlin/io/github/steve02081504/fountp2p/federation/DagOrderCache.kt:22-49 | on any graph the merged list is the canonical order exactly when no cached event names a new one as a parent, the cached list is itself canonical, and no new event is ready before a cached one that its key precedes |
| `OrderCache.CacheExtends` | kotlin/src/main/kotlin/io/github/steve02081504/fountp2p/federation/DagOrderCache.kt:58-94 | serving a cache built from an earlier log, by hit or by merge, lists every event once and extends the cached order; it lists parents first exactly if the cached order did and no event held then names a new one as a parent |
| `OrderCache.RunsKeepOrder` | kotlin/src/main/kotlin/io/github/steve02081504/fountp2p/federation/DagOrderCache.kt:22-109 | over every run of acyclic logs that gain and lose events between rounds, dangling parents allowed: each resolved order holds every event once, and the one before is a prefix of it unless the round forced a full pass, lost the cache or found a cached event gone |
| `OrderCache.StartsOverOrder` | kotlin/src/main/kotlin/io/github/steve02081504/fountp2p/federation/DagOrderCache.kt:58-94 | in just those rounds the order is the canonical one: a cache that lists an event the log has lost is never used |
| `OrderCache.RunTopologicalIff` | kotlin/src/main/kotlin/io/github/steve02081504/fountp2p/federation/DagOrderCache.kt:22-109 | over every such run: the resolved order lists parents first exactly when, since such a round, none brought in a parent of an event already held |
| `OrderCache.ClosedRunsStayTopological` | kotlin/src/main/kotlin/io/github/steve02081504/fountp2p/federation/DagOrderCache.kt:22-109 | logs without dangling parents meet that condition however they change |
| `OrderCache.LateParentBreaksOrder` | kotlin/src/main/kotlin/io/github/steve02081504/fountp2p/federation/DagOrderCache.kt:22-94 | a child resolved before its parent arrives: the order served next lists the child first |
| `OrderCache.HitSameGraph` | kotlin/src/main/kotlin/io/github/steve02081504/fountp2p/federation/DagOrderCache.kt:72-83 | a hit is sound: with a grown log, the equal event count alone makes the cached and the present history the same, dangling parents or not |
| `OrderCache.CacheAgreesIff` | kotlin/src/main/kotlin/io/github/steve02081504/fountp2p/federation/DagOrderCache.kt:58-94 | an incremental replica agrees with one that orders everything at once exactly when no event it had cached names a later one as a parent and no later one overtakes a cached one; no assumption on keys |
| `OrderCache.RunAgreesIff` | kotlin/src/main/kotlin/io/github/steve02081504/fountp2p/federation/DagOrderCache.kt:22-109 | over every run: a replica's order is the canonical one exactly when, in every round since it last started over, no event held named a newcomer as a parent and no newcomer overtook one |
| `OrderCache.MonotoneAppendableIff` | kotlin/src/main/kotlin/io/github/steve02081504/fountp2p/federation/DagOrderCache.kt:22-109 | if keys grow along edges, that condition is that every new event follows, by key, all those held |
| `OrderCache.ReplicasMayDisagree` | kotlin/src/main/kotlin/io/github/steve02081504/fountp2p/federation/DagOrderCache.kt:22-94 | two unrelated events learned in the other order: the cached replica is served [later, earlier], the full one [earlier, later] |
| `Materialize.ReplicasMayFoldDifferently` | kotlin/src/main/kotlin/io/github/steve02081504/fountp2p/federation/DagOrderCache.kt:22-94 | folding the orders the two replicas are served leaves them in different states |
| `OrderCache.PayloadServedBack` | kotlin/src/main/kotlin/io/github/steve02081504/fountp2p/federation/DagOrderCache.kt:58-109 | a cache rebuilt from an order that lists every event serves that order back unchanged |
| `OrderCache.CacheServedIff` | kotlin/src/main/kotlin/io/github/steve02081504/fountp2p/federation/DagOrderCache.kt:58-94 | a cached order without repeats is extended exactly if all its ids are still there and the cache counts no more events than there are; otherwise it is ignored, whatever its tips hash |
| `OrderCache.RepeatsServedOnHit` | kotlin/src/main/kotlin/io/github/steve02081504/fountp2p/federation/DagOrderCache.kt:72-93 | a cached order with repeats is served only when tips hash, count and length all agree |
| `Branch.AncestorClosureFromTip` | kotlin/src/main/kotlin/io/github/steve02081504/fountp2p/governance/Branch.kt:110-123 | the stack loop ends on every graph, cyclic too, with exactly the events reachable through parents; an unknown tip gives itself, no tip gives nothing |
| `Branch.DescendantClosureFromTip` | kotlin/src/main/kotlin/io/github/steve02081504/fountp2p/governance/Branch.kt:148-161 | the same for children; an unknown root gives nothing |
| `Branch.BuildDagChildrenMap` | kotlin/src/main/kotlin/io/github/steve02081504/fountp2p/governance/Branch.kt:130-140 | the children map lists each child of each event once |
| `Branch.AncestorsLeast` | kotlin/src/main/kotlin/io/github/steve02081504/fountp2p/governance/Branch.kt:110-123 | path reachability is the least set that holds the tip and its members' in-graph parents |
| `Branch.DescendantsLeast` | kotlin/src/main/kotlin/io/github/steve02081504/fountp2p/governance/Branch.kt:148-161 | the same for children |
| `Closures.StackVisit` | kotlin/src/main/kotlin/io/github/steve02081504/fountp2p/governance/Branch.kt:113-121 | one turn of a closure loop keeps "done plus pending is below every closed set" and shrinks what is unvisited |
| `Branch.ClosuresDual` | kotlin/src/main/kotlin/io/github/steve02081504/fountp2p/governance/Branch.kt:110-161 | x is found from y through parents exactly when y is found from x through children |
| `Branch.ComputeDagTipIds` | kotlin/src/main/kotlin/io/github/steve02081504/fountp2p/governance/Branch.kt:89-102 | the two loops list the ids no row names as a parent, in input order |
| `Branch.TipListIsTips` | kotlin/src/main/kotlin/io/github/steve02081504/fountp2p/governance/Branch.kt:89-102 | those are exactly the tips of the event graph |
| `Branch.HasDanglingParents` | kotlin/src/main/kotlin/io/github/steve02081504/fountp2p/governance/Branch.kt:71-82 | true exactly when some row names a parent that is not held |
| `Branch.TipsCover` | kotlin/src/main/kotlin/io/github/steve02081504/fountp2p/governance/Branch.kt:89-123 | in an acyclic set every event is an ancestor of some tip |
| `Branch.TipsDetermineEvents` | kotlin/src/main/kotlin/io/github/steve02081504/fountp2p/governance/Branch.kt:89-123 | two acyclic sets without dangling parents that agree on shared rows' parents and have equal tips hold the same events |
| `Branch.SelectConsensusBranchTip` | kotlin/src/main/kotlin/io/github/steve02081504/fountp2p/governance/Branch.kt:198-217 | the chosen tip has the most governance ancestors, ties going to the larger id |
| `Branch.BestTipUnique` | kotlin/src/main/kotlin/io/github/steve02081504/fountp2p/governance/Branch.kt:198-217 | there is only one such tip, whatever order the tips come in |
| `Branch.BestTipHasMost` | kotlin/src/main/kotlin/io/github/steve02081504/fountp2p/governance/Branch.kt:198-217 | every other tip has fewer governance events among itself and its ancestors, or as many and a smaller id |
| `Branch.AuthzFoldOrderIds` | kotlin/src/main/kotlin/io/github/steve02081504/fountp2p/governance/Branch.kt:294-302 | the fold order is the given order cut to the tip's ancestors |
| `Branch.FoldWithoutBranch` | kotlin/src/main/kotlin/io/github/steve02081504/fountp2p/governance/Branch.kt:294-302 | without a tip the whole order is folded, with an unknown one nothing |
| `Branch.BranchFoldIsBranchOrder` | kotlin/src/main/kotlin/io/github/steve02081504/fountp2p/governance/Branch.kt:294-302 | and that equals the canonical order of the branch taken on its own |
| `RetentionPolicy.CollectSeeds` | kotlin/src/main/kotlin/io/github/steve02081504/fountp2p/node/RetentionPolicy.kt:39-65 | the anchor, age and depth passes collect exactly the specified seeds |
| `RetentionPolicy.SeedAt` | kotlin/src/main/kotlin/io/github/steve02081504/fountp2p/node/RetentionPolicy.kt:43-65 | an event of the branch is a seed exactly when it is the newest anchor, recent enough, or, in a branch longer than the bound, within the bound (rounded towards zero; below zero it skips that many of the oldest) |
| `RetentionPolicy.DrainSeeds` | kotlin/src/main/kotlin/io/github/steve02081504/fountp2p/node/RetentionPolicy.kt:67-76 | the stack loop yields the least closed set over the seeds |
| `RetentionPolicy.ComputeRetentionKeepIds` | kotlin/src/main/kotlin/io/github/steve02081504/fountp2p/node/RetentionPolicy.kt:21-82 | the whole function computes `KeepIds` |
| `RetentionPolicy.KeepIsLeast` | kotlin/src/main/kotlin/io/github/steve02081504/fountp2p/node/RetentionPolicy.kt:32-81 | what is kept is the least part of the branch with the checkpoint's descendants, all seeds, and the in-branch parents of members outside those descendants; the whole branch if there is nothing to start from |
| `RetentionPolicy.RetentionWithoutCheckpoint` | kotlin/src/main/kotlin/io/github/steve02081504/fountp2p/node/RetentionPolicy.kt:21-82 | with no checkpoint the kept set is parent-closed, a log without dangling parents keeps none, and the kept order is the canonical order of what is kept |
| `RetentionPolicy.RetentionWithCheckpoint` | kotlin/src/main/kotlin/io/github/steve02081504/fountp2p/node/RetentionPolicy.kt:21-82 | a kept event outside the checkpoint's descendants keeps all its in-graph parents |
| `RetentionPolicy.KeptExactly` | kotlin/src/main/kotlin/io/github/steve02081504/fountp2p/node/RetentionPolicy.kt:21-82 | what is kept: the checkpoint's in-branch descendants and all ancestors of the seeds outside them; the whole branch if there are neither |
| `RetentionPolicy.PassedExactly` | kotlin/src/main/kotlin/io/github/steve02081504/fountp2p/node/RetentionPolicy.kt:39-41 | the checkpoint counts only if it lies in the branch; it passes itself and its descendants there |
| `RetentionPolicy.KeptParentClosedIff` | kotlin/src/main/kotlin/io/github/steve02081504/fountp2p/node/RetentionPolicy.kt:21-82 | the kept set is parent-closed exactly when every parent of the checkpoint's descendants outside them is an ancestor of a seed outside them |
| `RetentionPolicy.RetentionClosedIff` | kotlin/src/main/kotlin/io/github/steve02081504/fountp2p/node/RetentionPolicy.kt:21-82 | exactly under that condition a log without dangling parents keeps none |
| `RetentionPolicy.RetentionMayDangle` | kotlin/src/main/kotlin/io/github/steve02081504/fountp2p/node/RetentionPolicy.kt:21-82 | an old root and a newer checkpoint, nothing else: the root goes and the checkpoint dangles |
| `RetentionPolicy.BranchLosesNothingIff` | kotlin/src/main/kotlin/io/github/steve02081504/fountp2p/node/RetentionPolicy.kt:43-81 | without a checkpoint a branch keeps every event exactly when the depth bound seeds something (the branch is longer than a bound of at least one), its tip is an anchor or recent, or no event of it is |
| `RetentionPolicy.TighterBoundKeepsMore` | kotlin/src/main/kotlin/io/github/steve02081504/fountp2p/node/RetentionPolicy.kt:59-81 | two events and no checkpoint: a bound of one keeps both, a bound of two drops the newer one |
| `Timeline.PruneAfterCheckpoint` | kotlin/src/main/kotlin/io/github/steve02081504/fountp2p/timeline/Prune.kt:34-69 | a held checkpoint rewrites the log to its descendants in canonical order, original lines, with matching counts; no or an unknown checkpoint changes nothing and reports 0 or all rows kept |
| `Timeline.RewrittenGraph` | kotlin/src/main/kotlin/io/github/steve02081504/fountp2p/timeline/Prune.kt:54-68 | on any log, a rewrite leaves exactly the wanted events with no ancestor on a cycle, and counts them |
| `Timeline.PruneExactIff` | kotlin/src/main/kotlin/io/github/steve02081504/fountp2p/timeline/Prune.kt:53-68 | so pruning leaves exactly the sub-graph of the descendants if and only if none of them has an ancestor on a cycle; a checkpoint that is left is the root of all that is left |
| `Timeline.KeptHasKeptParent` | kotlin/src/main/kotlin/io/github/steve02081504/fountp2p/timeline/Prune.kt:53-68 | every kept event but the checkpoint keeps a parent |
| `Timeline.KeptTips` | kotlin/src/main/kotlin/io/github/steve02081504/fountp2p/timeline/Prune.kt:53-68 | a kept event is a tip afterwards exactly when it was one before |
| `Timeline.SecondPruneDropsNothing` | kotlin/src/main/kotlin/io/github/steve02081504/fountp2p/timeline/Prune.kt:34-69 | on any log, pruning again at the same checkpoint drops nothing and leaves the file as it is |
| `Timeline.LaterPruneGraph` | kotlin/src/main/kotlin/io/github/steve02081504/fountp2p/timeline/Prune.kt:34-69 | on any log, pruning at one checkpoint and then at a later kept one leaves the events that pruning at the later one alone leaves |
| `Timeline.LaterPruneSameFile` | kotlin/src/main/kotlin/io/github/steve02081504/fountp2p/timeline/Prune.kt:34-69 | and, if keys grow along edges, the same file |
| `Timeline.RewrittenLogIsCanonical` | kotlin/src/main/kotlin/io/github/steve02081504/fountp2p/timeline/Prune.kt:54-68 | if children's keys exceed their parents', a rewritten log stands in its own canonical order, whatever was dropped |
| `Timeline.EnforceRetention` | kotlin/src/main/kotlin/io/github/steve02081504/fountp2p/timeline/Retention.kt:37-87 | the retention pass rewrites the log to `KeepIds` of the consensus branch; when nothing would go it leaves the file and reports all rows kept |
| `Timeline.RetentionInFigures` | kotlin/src/main/kotlin/io/github/steve02081504/fountp2p/timeline/Retention.kt:45-47 | the policy in figures: depth 200,000 by default and 256 at least, age 365 days by default and an hour at least, the branch of the best tip |
| `Timeline.RetentionKeepsLogClosed` | kotlin/src/main/kotlin/io/github/steve02081504/fountp2p/timeline/Retention.kt:37-87 | without a checkpoint a log without dangling parents stays so, and is written in its own canonical order |
| `Timeline.RetentionLosesNothingIff` | kotlin/src/main/kotlin/io/github/steve02081504/fountp2p/timeline/Retention.kt:37-87 | a log with one tip and no checkpoint comes out of the pass as it is exactly when it is longer than the depth bound, its tip is an anchor or recent, or no event is |
| `Timeline.RetainedFileClosedIff` | kotlin/src/main/kotlin/io/github/steve02081504/fountp2p/timeline/Retention.kt:37-87 | with or without a checkpoint: the written file has no dangling parent exactly when every parent of the checkpoint's descendants outside them is an ancestor of a seed outside them |
| `Timeline.RetainedFileMayDangle` | kotlin/src/main/kotlin/io/github/steve02081504/fountp2p/timeline/Retention.kt:37-87 | a log of two lines whose file dangles after the pass with the policy it builds itself |
| `Append.NextHlcIsLater` | kotlin/src/main/kotlin/io/github/steve02081504/fountp2p/core/Hlc.kt:71-82 | the new clock is not before the requested time or the clock reading, and is strictly later than the last exactly unless the logical counter is full and no clock has moved on |
| `Append.NextHlcExactly` | kotlin/src/main/kotlin/io/github/steve02081504/fountp2p/core/Hlc.kt:71-82 | and no later than it must be: the wall is the latest of the last clock, the requested time and the readings; the counter is 0 on a later reading, 1 on a later requested time, else one more than the last |
| `Append.AppendJoinsTips` | kotlin/src/main/kotlin/io/github/steve02081504/fountp2p/timeline/AppendCore.kt:34-53 | on any acyclic log, dangling parents allowed, an append without explicit parents names all tips and becomes the only tip, with or without `multiTip` |
| `Append.ExplicitParentsNamed` | kotlin/src/main/kotlin/io/github/steve02081504/fountp2p/timeline/AppendCore.kt:44-46 | on any log, parents that the row brings along win over the tips and `multiTip`: exactly they are named, in strictly ascending order |
| `Append.AppendKeepsOtherTips` | kotlin/src/main/kotlin/io/github/steve02081504/fountp2p/timeline/AppendCore.kt:44-46 | such an append takes those parents off the tips and adds itself, so forks stay; the log stays without dangling parents exactly when all of them are held |
| `Append.AppendWithoutTips` | kotlin/src/main/kotlin/io/github/steve02081504/fountp2p/timeline/AppendCore.kt:47-51 | with neither explicit parents nor tips the last line is named, and nothing on an empty log |
| `Append.RunIsChain` | kotlin/src/main/kotlin/io/github/steve02081504/fountp2p/timeline/AppendCore.kt:34-53 | in every single-writer run, clocks running back included, each row names the row before alone, is strictly later, and at or after its requested time |
| `Append.RunOrderIsAppendOrder` | kotlin/src/main/kotlin/io/github/steve02081504/fountp2p/timeline/AppendCore.kt:34-53 | the canonical order of such a run is the append order |
| `Append.SingleWriterMonotone` | kotlin/src/main/kotlin/io/github/steve02081504/fountp2p/timeline/AppendCore.kt:34-53 | in such a run every row's key exceeds its parent's |
| `Append.AppendMonotoneIff` | kotlin/src/main/kotlin/io/github/steve02081504/fountp2p/timeline/AppendCore.kt:34-53 | one append to a log whose keys grow along edges keeps them growing exactly when the key of every tip precedes the new one |
| `Append.AppendAlwaysMonotoneIff` | kotlin/src/main/kotlin/io/github/steve02081504/fountp2p/timeline/AppendCore.kt:34-53 | it does so under all clock readings and requested times exactly when the last line has a clock and the key of every tip precedes that of a row one tick after it |
| `Append.TipAheadOfLastLine` | kotlin/src/main/kotlin/io/github/steve02081504/fountp2p/timeline/AppendCore.kt:34-53 | two writers exchange their first rows, one clock ahead: the next append comes before one of its own parents |
| `Materialize.MaterializeFromEvents` | kotlin/src/main/kotlin/io/github/steve02081504/fountp2p/timeline/MaterializeRunner.kt:19-44 | the loop folds the reducers over the canonical order |
| `Materialize.StateStepByStep` | kotlin/src/main/kotlin/io/github/steve02081504/fountp2p/timeline/MaterializeRunner.kt:37-42 | the state is reached event by event: one whose type has a reducer is handed to it, any other changes nothing |
| `Materialize.ReplicasMaterializeAlike` | kotlin/src/main/kotlin/io/github/steve02081504/fountp2p/timeline/MaterializeRunner.kt:19-44 | replicas with the same events in any order reach the same order and the same state |
| `Materialize.BranchStateIsLocal` | kotlin/src/main/kotlin/io/github/steve02081504/fountp2p/governance/Branch.kt:294-302 | the state folded for a branch depends on the branch's own events alone |
| `Materialize.RunsExtendState` | kotlin/src/main/kotlin/io/github/steve02081504/fountp2p/federation/DagOrderCache.kt:58-94 | in a run of the cache, the state after a round is the state before it folded on over the appended part |
| `Frames.UInt32RoundTrip` | kotlin/src/main/kotlin/io/github/steve02081504/fountp2p/link/Frame.kt:142-153 | the header integers survive being written and read |
| `Frames.FrameRoundTrip` | kotlin/src/main/kotlin/io/github/steve02081504/fountp2p/link/Frame.kt:84-127 | decoding an encoded frame gives its parts back |
| `Frames.DecodedIsFrame` | kotlin/src/main/kotlin/io/github/steve02081504/fountp2p/link/Frame.kt:119-127 | every frame that decodes with a non-negative number is the encoding of what it decodes to |
| `Frames.DecodeReadsLayout` | kotlin/src/main/kotlin/io/github/steve02081504/fountp2p/link/Frame.kt:119-153 | the layout byte by byte: 16 of id, number and total in four each, high byte first and signed, then the chunk; which frames are refused |
| `Frames.EncodeFrames` | kotlin/src/main/kotlin/io/github/steve02081504/fountp2p/link/Frame.kt:84-103 | the frames carry the body's slices, numbered from 0, with the common total; a wrong id or a negative chunk size fails |
| `Frames.ChunksCarryBodyIff` | kotlin/src/main/kotlin/io/github/steve02081504/fountp2p/link/Frame.kt:84-103 | the slices join to the body exactly when length + chunk size - 1 fits a signed 32-bit integer |
| `Frames.SlicesAreFull` | kotlin/src/main/kotlin/io/github/steve02081504/fountp2p/link/Frame.kt:84-103 | every slice but the last has the chunk size |
| `Frames.ChunkSizes` | kotlin/src/main/kotlin/io/github/steve02081504/fountp2p/link/Frame.kt:84-88 | 15 KiB unless a size is asked for, 8 MiB at most |
| `Reassembly.FillCounts` | kotlin/src/main/kotlin/io/github/steve02081504/fountp2p/link/Frame.kt:211-214 | filling an empty slot takes one from the missing and adds the chunk's size to the stored bytes |
| `Reassembly.Partial.Receive` | kotlin/src/main/kotlin/io/github/steve02081504/fountp2p/link/Frame.kt:210-219 | keeps `remaining` equal to the empty slots and `bytes` to the stored sizes; a repeated frame changes only the time stamp |
| `Reassembly.Partial.Concatenate` | kotlin/src/main/kotlin/io/github/steve02081504/fountp2p/link/Frame.kt:129-140 | joins the slots in order |
| `Reassembly.Reassembler.Push` | kotlin/src/main/kotlin/io/github/steve02081504/fountp2p/link/Frame.kt:190-226 | the new partial messages and the result or error are exactly those of `PushSpec`, on the real mutable state |
| `Reassembly.Refusals` | kotlin/src/main/kotlin/io/github/steve02081504/fountp2p/link/Frame.kt:190-222 | which frames are refused, in what order the reasons are looked at, and what each refusal leaves of the partial messages |
| `Reassembly.Reassembler.constructor` | kotlin/src/main/kotlin/io/github/steve02081504/fountp2p/link/Frame.kt:176-179 | the three limits with their defaults (8 MiB, 32, 30 s) and least values (1 KiB, 1, 1 s) |
| `Reassembly.Reassembler.Prune` | kotlin/src/main/kotlin/io/github/steve02081504/fountp2p/link/Frame.kt:234-245 | drops exactly the partial messages past the time-out and lists each once |
| `ReassemblyRuns.StepAsExpected` | kotlin/src/main/kotlin/io/github/steve02081504/fountp2p/link/Frame.kt:190-245 | any delivery or prune acts on the chunk slots just as on the set of frame numbers received so far |
| `ReassemblyRuns.RunsAsExpected` | kotlin/src/main/kotlin/io/github/steve02081504/fountp2p/link/Frame.kt:190-245 | over every run that mixes messages of any length, repeats and prunes, each push returns the message exactly when its last missing frame arrives, with the original bytes, and refuses and forgets it exactly when more bytes than the limit have arrived |
| `ReassemblyRuns.NothingTooLargeArrives` | kotlin/src/main/kotlin/io/github/steve02081504/fountp2p/link/Frame.kt:210-222 | whatever comes out is one of the messages sent and no longer than the limit |
| `ReassemblyRuns.AnyOrderReassembles` | kotlin/src/main/kotlin/io/github/steve02081504/fountp2p/link/Frame.kt:190-226 | the frames of one message, in any order, at any times and with repeats: `Pending` until the set is complete, then the message |
| `ReassemblyRuns.EncodedMessageArrives` | kotlin/src/main/kotlin/io/github/steve02081504/fountp2p/link/Frame.kt:84-226 | end to end: what `encodeFrames` makes comes out as the original body |
| `JsonStrings.WriteString` | kotlin/src/main/kotlin/io/github/steve02081504/fountp2p/core/Json.kt:175-190 | appends the quoted, escaped string |
| `JsonStrings.StringRoundTrip` | kotlin/src/main/kotlin/io/github/steve02081504/fountp2p/core/Json.kt:175-190 | a reader that follows section 7 of RFC 8259 reads every written string back, and stops at its closing quote |
| `JsonStrings.EscapeIsShortest` | kotlin/src/main/kotlin/io/github/steve02081504/fountp2p/core/Json.kt:175-190 | of all spellings of a unit that a reader accepts the writer takes the shortest, and of those the one with small hexadecimal digits |
| `JsonStrings.QuoteInjective` | kotlin/src/main/kotlin/io/github/steve02081504/fountp2p/core/Json.kt:175-190 | quoted strings followed by anything are equal only if the strings and what follows are |
| `CanonicalJson.WriteValue` | kotlin/src/main/kotlin/io/github/steve02081504/fountp2p/core/Json.kt:138-151 | appends the canonical text of any value |
| `CanonicalJson.WriteArray` | kotlin/src/main/kotlin/io/github/steve02081504/fountp2p/core/Json.kt:153-160 | appends the items with commas between them; undefined ones as `null` |
| `CanonicalJson.WriteObject` | kotlin/src/main/kotlin/io/github/steve02081504/fountp2p/core/Json.kt:162-173 | appends the defined entries in key order |
| `JsonMeaning.PlainInjective` | kotlin/src/main/kotlin/io/github/steve02081504/fountp2p/core/Json.kt:138-173 | nested structure is self-delimiting: equal texts, cut at a comma, a closing bracket or the end, come from equal values |
| `JsonMeaning.NormKeepsData` | kotlin/src/main/kotlin/io/github/steve02081504/fountp2p/core/Json.kt:138-173 | sorting keys and dropping undefined ones keeps the data |
| `JsonMeaning.NormalUnique` | kotlin/src/main/kotlin/io/github/steve02081504/fountp2p/core/Json.kt:138-173 | data has one normal form |
| `JsonMeaning.CanonicalTextIffSameData` | kotlin/src/main/kotlin/io/github/steve02081504/fountp2p/core/Json.kt:69-73 | two values have the same canonical text exactly when they hold the same data |
| `JsonReader.CanonicalTextReads` | kotlin/src/main/kotlin/io/github/steve02081504/fountp2p/core/Json.kt:138-173 | a reader written from the grammar of RFC 8259, with or without space between tokens, finds in canonical text exactly the data of the value, with the names of each object in strictly ascending order, and stops where the text stops |
| `EventIds.SortedParentsSet` | kotlin/src/main/kotlin/io/github/steve02081504/fountp2p/dag/Dag.kt:51-54 | on raw JSON the normalised parents are ascending and are exactly the well-formed ids in the field |
| `EventIds.EventIdIffSameContent` | kotlin/src/main/kotlin/io/github/steve02081504/fountp2p/dag/Dag.kt:88-93 | two event bodies get the same id exactly when they say the same and name the same set of parents |
| `EventIds.HashedTextReads` | kotlin/src/main/kotlin/io/github/steve02081504/fountp2p/dag/Dag.kt:88-93 | the hashed text read back: an object with the fields of the body, of which "prev_event_ids", if there, is the ascending list of the well-formed ids it names |
| `LinkGlare.LinkRegistry.RegisterResolvedLink` | kotlin/src/main/kotlin/io/github/steve02081504/fountp2p/transport/LinkRegistry.kt:305-317 | changes the peer's entry as `RegisterAt` says and no other peer's |
| `LinkGlare.LinkRegistry.LinkDown` | kotlin/src/main/kotlin/io/github/steve02081504/fountp2p/transport/LinkRegistry.kt:274-279 | a link going down empties the entry only if it was the canonical one |
| `LinkGlare.RegisteredAgain` | kotlin/src/main/kotlin/io/github/steve02081504/fountp2p/transport/LinkRegistry.kt:305-317 | registering the canonical link once more closes nothing and tells the listeners again |
| `LinkGlare.PreferenceIsShared` | kotlin/src/main/kotlin/io/github/steve02081504/fountp2p/transport/LinkRegistry.kt:255-261 | both ends judge any two links alike |
| `LinkGlare.BestExists` | kotlin/src/main/kotlin/io/github/steve02081504/fountp2p/transport/LinkRegistry.kt:255-261 | with at most one link per level and side there is a best link |
| `LinkGlare.RunsKeepBest` | kotlin/src/main/kotlin/io/github/steve02081504/fountp2p/transport/LinkRegistry.kt:255-317 | in every interleaving of registrations and seen closes the best link is never closed and, once registered, stays canonical |
| `LinkGlare.GlareConverges` | kotlin/src/main/kotlin/io/github/steve02081504/fountp2p/transport/LinkRegistry.kt:255-317 | once both ends have registered all links, both hold the best one, every other is closed, and listeners were last told it is up |
| `LinkGlare.BestUnlessTwins` | kotlin/src/main/kotlin/io/github/steve02081504/fountp2p/transport/LinkRegistry.kt:255-261 | a best link exists exactly when no two links of the winning level and side are in the set |
| `LinkGlare.TwinsCanBothDie` | kotlin/src/main/kotlin/io/github/steve02081504/fountp2p/transport/LinkRegistry.kt:305-317 | two such links can kill each other: a complete run that leaves both nodes without a link |
| `LinkGlare.AgreeUnlessTwins` | kotlin/src/main/kotlin/io/github/steve02081504/fountp2p/transport/LinkRegistry.kt:255-317 | for every set of links: the nodes agree in every complete run exactly when it has no two links of the winning level and side |
| `LinkGlare.RunsCanComplete` | kotlin/src/main/kotlin/io/github/steve02081504/fountp2p/transport/LinkRegistry.kt:274-317 | every run can be continued to a complete one, so the two rows before never speak of nothing |
| `Overlay.OverlayRouter.HandleOverlay` | kotlin/src/main/kotlin/io/github/steve02081504/fountp2p/overlay/Overlay.kt:136-229 | the new memory, what is sent, resolved and delivered are those of `Handle` |
| `Overlay.OverlayRouter.DiscoverRoute` | kotlin/src/main/kotlin/io/github/steve02081504/fountp2p/overlay/Overlay.kt:241-266 | records the target as pending and opens the flood on every link |
| `Overlay.RelayArrives` | kotlin/src/main/kotlin/io/github/steve02081504/fountp2p/overlay/Overlay.kt:202-288 | a relay along any path that `relay` accepts reaches the last node with the body unchanged |
| `OverlayRuns.RunsKeepInv` | kotlin/src/main/kotlin/io/github/steve02081504/fountp2p/overlay/Overlay.kt:136-266 | in every reachable state: requests in flight carry duplicate-free link paths with path length plus ttl constant, no node takes up a request twice, accepted routes are simple link paths to the target |
| `OverlayRuns.OneRoutePerDiscovery` | kotlin/src/main/kotlin/io/github/steve02081504/fountp2p/overlay/Overlay.kt:186-195 | a discovery ends with one route at most, and its origin then no longer waits |
| `OverlayRuns.EveryRouteCanBeFound` | kotlin/src/main/kotlin/io/github/steve02081504/fountp2p/overlay/Overlay.kt:136-266 | every simple path of two-way links within the bounds is accepted in some run; sends over anything but a link of the sender are lost |
| `OverlayRuns.AcceptableRoutesExactly` | kotlin/src/main/kotlin/io/github/steve02081504/fountp2p/overlay/Overlay.kt:136-266 | on any topology, the routes a discovery can end with are exactly the simple paths to the target, linked both ways, of at most ttl + 1 and at most seven nodes |
| `OverlayRuns.SymmetricRoutesExactly` | kotlin/src/main/kotlin/io/github/steve02081504/fountp2p/overlay/Overlay.kt:136-266 | with links that work both ways these are exactly the simple link paths within the bounds |
| `OverlayDelivery.RunsFlood` | kotlin/src/main/kotlin/io/github/steve02081504/fountp2p/overlay/Overlay.kt:136-266 | in every run in which the origin does not give up: every neighbour of a node that took the request up has it or has been sent it, whoever a copy arrived at has taken it up, the target has answered once reached, and every response that arrived has moved one place back |
| `OverlayDelivery.LosslessFindsRoute` | kotlin/src/main/kotlin/io/github/steve02081504/fountp2p/overlay/Overlay.kt:136-266 | if no simple path from the origin is longer than the ttl and hop limits allow, links work both ways, the target can be reached and every message arrives in time, a route is accepted |
| `OverlayDelivery.SmallNetworksAreRoomy` | kotlin/src/main/kotlin/io/github/steve02081504/fountp2p/overlay/Overlay.kt:136-178 | seven nodes or fewer, and a ttl that visits them all, meet the first condition |
| `OverlayDelivery.DetourShadowsRoute` | kotlin/src/main/kotlin/io/github/steve02081504/fountp2p/overlay/Overlay.kt:136-178 | four nodes, ttl two: every message arrives, a route within the ttl exists, and none is accepted, because a copy that came a longer way was taken up first |
| `OverlayTrust.RunsKeepTrust` | kotlin/src/main/kotlin/io/github/steve02081504/fountp2p/overlay/Overlay.kt:136-288 | among nodes that may send any payload under signatures of their own or seen on the wire: every signature in flight was made by its signer, and what was delivered or accepted is covered by one |
| `OverlayTrust.DeliveredWasIssued` | kotlin/src/main/kotlin/io/github/steve02081504/fountp2p/overlay/Overlay.kt:202-217 | in every such run a body is delivered only at the end of its path, and only if the first node of the path issued just this body along just this path |
| `OverlayTrust.AcceptedWasSigned` | kotlin/src/main/kotlin/io/github/steve02081504/fountp2p/overlay/Overlay.kt:179-195 | in every such run a route is accepted only by the node that asked for its last node, and only if that node signed it for this request |
| `OverlayTrust.EveryRelayCanArrive` | kotlin/src/main/kotlin/io/github/steve02081504/fountp2p/overlay/Overlay.kt:202-288 | conversely, along any path of links what the first node relays can be delivered at the last |
| `MailboxPrune.TrimBucket` | kotlin/src/main/kotlin/io/github/steve02081504/fountp2p/mailbox/Prune.kt:78-84 | the loop on running totals drops oldest records until the bucket fits |
| `MailboxPrune.SortStable` | kotlin/src/main/kotlin/io/github/steve02081504/fountp2p/mailbox/Prune.kt:53-63 | records stored at the same instant keep their order |
| `MailboxPrune.PruneMailboxBuckets` | kotlin/src/main/kotlin/io/github/steve02081504/fountp2p/mailbox/Prune.kt:69-87 | the buckets in order of appearance, each sorted by time and trimmed |
| `MailboxPrune.SameBucketIff` | kotlin/src/main/kotlin/io/github/steve02081504/fountp2p/mailbox/Prune.kt:36-45 | two records share a bucket exactly when recipient and source agree, the source being the node they came from, else the sender, else "unknown" |
| `MailboxPrune.LimitsInFigures` | kotlin/src/main/kotlin/io/github/steve02081504/fountp2p/mailbox/Prune.kt:15-107 | ten records and 2 MiB a bucket, 500 and 50 MiB in all; a bucket weighs a million a record and one a unit of text |
| `MailboxPrune.TrimLongest` | kotlin/src/main/kotlin/io/github/steve02081504/fountp2p/mailbox/Prune.kt:78-84 | what is left is the longest newest part that fits |
| `MailboxPrune.BucketsTrimmed` | kotlin/src/main/kotlin/io/github/steve02081504/fountp2p/mailbox/Prune.kt:69-87 | after the pass, each bucket of the result is the trimmed bucket of the input |
| `MailboxPrune.EvictOne` | kotlin/src/main/kotlin/io/github/steve02081504/fountp2p/mailbox/Prune.kt:98-118 | one turn removes the oldest record of the heaviest bucket |
| `MailboxPrune.PruneMailboxGlobalFair` | kotlin/src/main/kotlin/io/github/steve02081504/fountp2p/mailbox/Prune.kt:93-123 | the loop ends and the final cut to 500 never fires |
| `MailboxPrune.EvictAllEnds` | kotlin/src/main/kotlin/io/github/steve02081504/fountp2p/mailbox/Prune.kt:93-123 | eviction ends within 500 entries and within the byte limit or at one record |
| `MailboxPrune.EvictBucket` | kotlin/src/main/kotlin/io/github/steve02081504/fountp2p/mailbox/Prune.kt:98-118 | with unique ids an eviction takes the oldest record of the heaviest bucket and nothing else |
| `MailboxPrune.GlobalEvictionIsFair` | kotlin/src/main/kotlin/io/github/steve02081504/fountp2p/mailbox/Prune.kt:93-123 | every bucket keeps a newest suffix; if it lost a record, no bucket outweighs what it weighed with its last lost record |
| `MailboxEviction.SurvivesEvictionIff` | kotlin/src/main/kotlin/io/github/steve02081504/fountp2p/mailbox/Prune.kt:93-118 | how much goes, and which: records take their turn by falling weight of their bucket from them on, then by place, and one survives exactly when, with all earlier turns gone, the list is within both limits or it is alone |
| `MailboxStore.WriteAll` | kotlin/src/main/kotlin/io/github/steve02081504/fountp2p/mailbox/Store.kt:96-104 | live records, sorted for retention, bucket-pruned, then globally evicted |
| `MailboxStore.LiveExactly` | kotlin/src/main/kotlin/io/github/steve02081504/fountp2p/mailbox/Store.kt:96-104 | the expiry filter keeps every unexpired record, as often as it occurs, and no other |
| `MailboxStore.NothingLostWithinLimits` | kotlin/src/main/kotlin/io/github/steve02081504/fountp2p/mailbox/Store.kt:96-104 | while every bucket and the whole are within their limits, writing loses no live record |
| `MailboxStore.SortedByTier` | kotlin/src/main/kotlin/io/github/steve02081504/fountp2p/mailbox/Importance.kt:39-52 | before pruning, lower tiers come first and, within a tier, older records; the sort is a permutation |
| `MailboxStore.RetentionStable` | kotlin/src/main/kotlin/io/github/steve02081504/fountp2p/mailbox/Importance.kt:39-52 | records of one tier and instant keep their order |
| `MailboxStore.StoreRecord` | kotlin/src/main/kotlin/io/github/steve02081504/fountp2p/mailbox/Store.kt:121-161 | a new acceptable record is added and the file rewritten; a known id or an unacceptable record changes nothing |
| `MailboxStore.WrittenPart` | kotlin/src/main/kotlin/io/github/steve02081504/fountp2p/mailbox/Store.kt:96-104 | writing only drops records, leaves none expired, meets both limits (or one oversized record is left), and leaves older records first |
| `MailboxStore.StoreKeepsIdsUnique` | kotlin/src/main/kotlin/io/github/steve02081504/fountp2p/mailbox/Store.kt:121-161 | ids in the file stay unique |
| `MailboxTiers.AgeThenTier` | kotlin/src/main/kotlin/io/github/steve02081504/fountp2p/mailbox/Importance.kt:39-52 | a bucket gives its records up oldest first; the tier only orders those stored at the same instant |
| `MailboxTiers.SurvivesIff` | kotlin/src/main/kotlin/io/github/steve02081504/fountp2p/mailbox/Prune.kt:69-87 | a place of the bucket in that order survives bucket pruning exactly when the records from there on fit together |
| `MailboxTiers.RankRespectedIff` | kotlin/src/main/kotlin/io/github/steve02081504/fountp2p/mailbox/Importance.kt:39-52 | in bucket pruning alone: no dropped record has a higher tier than a kept one exactly when no older record of higher tier stops fitting before a newer one of lower tier does |
| `MailboxTiers.WrittenBucketIsNewest` | kotlin/src/main/kotlin/io/github/steve02081504/fountp2p/mailbox/Store.kt:96-104 | through both passes: with unique ids, what the file keeps of a bucket is the newest part of its live records in that order |
| `MailboxTiers.WrittenIgnoresTiers` | kotlin/src/main/kotlin/io/github/steve02081504/fountp2p/mailbox/Store.kt:96-104 | if live records differ in time, the whole file is what it would be without the sort by tier |
| `MailboxRank.InFileIff` | kotlin/src/main/kotlin/io/github/steve02081504/fountp2p/mailbox/Store.kt:96-104 | through both passes: with unique ids, a live record is in the file exactly when it fits its bucket together with the newer ones and, at its turn in global eviction, the whole is within its limits |
| `MailboxRank.TurnWeight` | kotlin/src/main/kotlin/io/github/steve02081504/fountp2p/mailbox/Prune.kt:98-112 | the weight that decides its turn is that of its live bucket from it on |
| `MailboxRank.FileBucketsFit` | kotlin/src/main/kotlin/io/github/steve02081504/fountp2p/mailbox/Store.kt:96-104 | in the file every bucket is within its limits |
| `MailboxRank.FileRankRespectedIff` | kotlin/src/main/kotlin/io/github/steve02081504/fountp2p/mailbox/Store.kt:96-104 | of a bucket, no live record that the file drops has a higher tier than one it keeps exactly when no older record of higher tier stops fitting, its bucket or the whole, before a newer one of lower tier does |
| `MailboxRank.TrustedGoesUnderPressure` | kotlin/src/main/kotlin/io/github/steve02081504/fountp2p/mailbox/Store.kt:96-104 | 52 records in 26 buckets, each within its limit: bucket pruning drops nothing, yet the file drops a trusted record and keeps the newer one in quarantine from its bucket |
| `MailboxTiers.HighestTierGoesFirst` | kotlin/src/main/kotlin/io/github/steve02081504/fountp2p/mailbox/Store.kt:96-104 | a list of eleven whose file keeps ten records in quarantine and drops the trusted one |
| `MailboxProtocol.Mailbox.DeliverOrStorePut` | kotlin/src/main/kotlin/io/github/steve02081504/fountp2p/mailbox/DeliverOrStore.kt:84-119 | stores once, sends to the addressee if linked, relays only a newly stored copy under the hop limit |
| `MailboxProtocol.Mailbox.IngestPut` | kotlin/src/main/kotlin/io/github/steve02081504/fountp2p/mailbox/DeliverOrStore.kt:154-178 | an incoming put is stored one hop further out, or dropped at the limit |
| `MailboxProtocol.RunsKeepInv` | kotlin/src/main/kotlin/io/github/steve02081504/fountp2p/mailbox/DeliverOrStore.kt:84-178 | the invariant behind the next two rows, over every run |
| `MailboxProtocol.CopiesStayNear` | kotlin/src/main/kotlin/io/github/steve02081504/fountp2p/mailbox/DeliverOrStore.kt:84-178 | in every run: no put carries hop 2 or more; a copy off its publisher has hop at least 1, one more than its sender put on the wire, the tier of that hop, and at most one node between it and a publisher |
| `MailboxProtocol.RelayedOncePerCopy` | kotlin/src/main/kotlin/io/github/steve02081504/fountp2p/mailbox/DeliverOrStore.kt:84-119 | a node relays an id at most once more than it has lost copies of it; without losses, at most once |
| `MailboxSpread.PublishDoes` | kotlin/src/main/kotlin/io/github/steve02081504/fountp2p/mailbox/DeliverOrStore.kt:84-145 | what a publish does, in every state: a record not held is stored, trusted and with hop 0, and sent to all peers and the addressee; a record held is only sent to the addressee; what is reported |
| `MailboxSpread.ReceiveDoes` | kotlin/src/main/kotlin/io/github/steve02081504/fountp2p/mailbox/DeliverOrStore.kt:154-178 | what a receipt does, in every state: a record not held is stored one hop further out while that is below the limit, normal at hop 1 and passed on to all peers, in quarantine from hop 2 and passed on to nobody; what is reported |
| `MailboxSpread.WireExactly` | kotlin/src/main/kotlin/io/github/steve02081504/fountp2p/mailbox/DeliverOrStore.kt:84-178 | in every run without losses the puts sent are exactly those to the peers of whoever holds the record with hop 0 or 1 and those to the addressees it was published to |
| `MailboxSpread.HoldersExactly` | kotlin/src/main/kotlin/io/github/steve02081504/fountp2p/mailbox/DeliverOrStore.kt:84-178 | if also every put is delivered: a node ends with a copy exactly if it published the record or was sent a put whose hop the limit lets it go beyond |
| `MailboxSpread.HoldersWithinTwoPuts` | kotlin/src/main/kotlin/io/github/steve02081504/fountp2p/mailbox/DeliverOrStore.kt:84-178 | for limits of three and more these are the publishers and whoever a chain of at most two puts reaches |
| `MailboxSpread.PeersOfNearCopiesHold` | kotlin/src/main/kotlin/io/github/steve02081504/fountp2p/mailbox/DeliverOrStore.kt:84-178 | so every peer of a node whose copy has hop 0 or 1 ends with a copy |
| `MailboxSpread.QuarantineShadowsPeer` | kotlin/src/main/kotlin/io/github/steve02081504/fountp2p/mailbox/DeliverOrStore.kt:84-178 | a run without losses in which a peer of a peer of the publisher gets nothing, because the node between them stored a copy in quarantine first |
## Left out

- Append.RunIsChain: runs of at most 2^63 - 1 appends, since a longer one could fill the logical counter.
- Frames.ChunksCarryBodyIff: chunk sizes up to the message limit of 8 MiB and bodies a JVM array can hold.
- MailboxStore.StoreRecord: the checks on the record's fields are one flag; normalising its fields is not modelled.
- Reassembly.Reassembler.Push: the byte counter is unbounded, which overflows only with a message limit close to 2^31; the array allocation is assumed to succeed.
- Reassembly.Reassembler.Prune: the order of the returned ids, which is the map's insertion order in the source.
- Overlay.OverlayRouter.HandleOverlay: eviction from the bounded set of seen requests, the rate gate (in runs, a message it turns away is one that has not arrived), and sends that fail.
- Overlay.OverlayRouter.DiscoverRoute: the timer itself; a time-out is a step that may happen at any moment.
- OverlayRuns.EveryRouteCanBeFound: a send that finds no direct link and falls back to relaying over a route found earlier.
- MailboxProtocol.Mailbox.DeliverOrStorePut: the checks on the record and the limit on how many peers get a relay; the peers are a parameter.
- LinkGlare.LinkRegistry.RegisterResolvedLink: the reasons given when closing, and listeners that throw.
- Branch.SelectConsensusBranchTip: the variant weighted by reputation.
- EventIds.EventIdIffSameContent: UTF-8 encoding of the text, which maps lone surrogates to one replacement byte.
- CanonicalJson.WriteValue: number formatting; a number is a token, equal for equal numbers.
- MailboxProtocol.Mailbox.IngestPut: hops are integers; fractional and non-numeric hops, expiry and the sender checks are not modelled.
- Malformed or missing ids in rows, and repeated ids in one list, which the source skips or overwrites.
- Non-finite numbers in retention bounds and stored times; `Double` values are taken as exact.
- File access, locks, memoised orders and the memo's invalidation: every call is atomic, files are lists.
- Mailbox want and give requests, and consumption by the addressee beyond the loss of a copy.
- Choosing the fields of an event that are hashed and signed, key handling, and verifying event signatures.
- Sockets, discovery, dialing, cooldowns, trust scores, token buckets and permission masks: they would add easy members or belong to other libraries.
