/** `timeline/Prune.kt` and `timeline/Retention.kt`: rewriting an event log, as list-to-list functions. */
module Timeline {
  import opened Seqs
  import opened Texts
  import opened Ids
  import opened Events
  import opened Graphs
  import opened CanonicalOrder
  import opened Dag
  import opened Branch
  import opened RetentionPolicy

  /** A parsed row together with the raw line it was read from. */
  datatype Entry = Entry(row: Event, raw: Text)

  datatype PruneStats = PruneStats(pruned: bool, kept: int, dropped: int)

  function Rows(entries: seq<Entry>): seq<Event> {
    if entries == [] then [] else Rows(entries[..|entries| - 1]) + [entries[|entries| - 1].row]
  }

  lemma {:induction false} RowsAt(entries: seq<Entry>)
    ensures |Rows(entries)| == |entries| && forall i | 0 <= i < |entries| :: Rows(entries)[i] == entries[i].row
  {
    if entries != [] {
      RowsAt(entries[..|entries| - 1]);
    }
  }

  ghost function GraphOf(entries: seq<Entry>): Graph {
    ById(Rows(entries))
  }

  ghost predicate DistinctEntries(entries: seq<Entry>) {
    DistinctIds(Rows(entries))
  }

  /** `file` holds, for each id of `ids` in order, the original line with that id. */
  ghost predicate LinesOf(entries: seq<Entry>, ids: seq<Id>, file: seq<Entry>) {
    && |file| == |ids|
    && (forall k | 0 <= k < |ids| :: file[k] in entries && file[k].row.id == ids[k])
  }

  ghost predicate LinesIndexed(entries: seq<Entry>, lines: map<Id, Entry>) {
    forall x | x in lines :: lines[x] in entries && lines[x].row.id == x
  }

  lemma {:induction false} LineIndexed(entries: seq<Entry>, lines: map<Id, Entry>, i: nat)
    requires LinesIndexed(entries, lines) && i < |entries|
    ensures LinesIndexed(entries, lines[entries[i].row.id := entries[i]])
  {
  }

  lemma {:induction false} EntriesIndexed(entries: seq<Entry>)
    requires DistinctEntries(entries)
    ensures GraphOf(entries).Keys == IdsOf(Rows(entries)) && Keyed(GraphOf(entries)) && |GraphOf(entries)| == |entries|
  {
    RowsAt(entries);
    ByIdRows(Rows(entries));
    ByIdSize(Rows(entries));
  }

  lemma {:induction false} WholeList(rows: seq<Event>)
    ensures rows[..|rows|] == rows
  {
  }

  method IndexEntries(entries: seq<Entry>) returns (byId: Graph, lines: map<Id, Entry>)
    requires DistinctEntries(entries)
    ensures byId == GraphOf(entries) && Keyed(byId) && |byId| == |entries|
    ensures lines.Keys == byId.Keys && LinesIndexed(entries, lines)
  {
    RowsAt(entries);
    byId := IndexById(Rows(entries));
    EntriesIndexed(entries);
    lines := map[];
    for i := 0 to |entries|
      invariant lines.Keys == IdsOf(Rows(entries)[..i])
      invariant LinesIndexed(entries, lines)
    {
      NextRow(Rows(entries), i);
      LineIndexed(entries, lines, i);
      lines := lines[entries[i].row.id := entries[i]];
    }
    WholeList(Rows(entries));
  }

  /** `keptIds.mapNotNull { rawById[it] }`. */
  method LinesFor(ids: seq<Id>, lines: map<Id, Entry>, ghost entries: seq<Entry>) returns (file: seq<Entry>)
    requires Elems(ids) <= lines.Keys && LinesIndexed(entries, lines)
    ensures LinesOf(entries, ids, file)
  {
    file := [];
    for i := 0 to |ids|
      invariant LinesOf(entries, ids[..i], file)
    {
      assert ids[i] in Elems(ids);
      file := file + [lines[ids[i]]];
    }
    assert ids[..|ids|] == ids;
  }

  /** What rewriting a log to the ids in `keep` leaves behind, and what it reports. */
  ghost predicate Rewritten(entries: seq<Entry>, keep: set<Id>, stats: PruneStats, file: seq<Entry>) {
    var kept := Filter(Order(GraphOf(entries)), keep);
    && stats == PruneStats(|kept| < |entries|, |kept|, if |kept| < |entries| then |entries| - |kept| else 0)
    && if stats.pruned then LinesOf(entries, kept, file) else file == entries
  }

  method Rewrite(entries: seq<Entry>, order: seq<Id>, keep: set<Id>, lines: map<Id, Entry>)
    returns (stats: PruneStats, file: seq<Entry>)
    requires order == Order(GraphOf(entries)) && |GraphOf(entries)| == |entries|
    requires lines.Keys == GraphOf(entries).Keys && LinesIndexed(entries, lines)
    ensures Rewritten(entries, keep, stats, file)
  {
    var keptIds := Filter(order, keep);
    FilterElems(order, keep);
    OrderIsTopological(GraphOf(entries));
    NoDupBound(keptIds, lines.Keys);
    var dropped := |entries| - |keptIds|;
    if dropped <= 0 {
      return PruneStats(false, |keptIds|, 0), entries;
    }
    file := LinesFor(keptIds, lines, entries);
    stats := PruneStats(true, |keptIds|, dropped);
  }

  // ---------------------------------------------------------------- pruneEventsJsonlAfterCheckpoint

  method PruneAfterCheckpoint(entries: seq<Entry>, checkpoint: Option<Id>) returns (stats: PruneStats, file: seq<Entry>)
    requires DistinctEntries(entries)
    ensures checkpoint.Some? && checkpoint.value in GraphOf(entries)
      ==> Rewritten(entries, Descendants(GraphOf(entries), checkpoint.value), stats, file)
    ensures checkpoint.None? || checkpoint.value !in GraphOf(entries)
      ==> stats == PruneStats(false, if checkpoint.None? then 0 else |entries|, 0) && file == entries
  {
    if checkpoint.None? || entries == [] {
      return PruneStats(false, 0, 0), entries;
    }
    var byId, lines := IndexEntries(entries);
    if checkpoint.value !in byId {
      return PruneStats(false, |entries|, 0), entries;
    }
    var keepIds := DescendantClosureFromTip(checkpoint, byId);
    var order := TopologicalCanonicalOrder(Rows(entries));
    stats, file := Rewrite(entries, order, keepIds, lines);
  }

  /** What the canonical order emits of `keep`. */
  ghost function Emitted(g: Graph, keep: set<Id>): set<Id> {
    set x | x in g && x in keep && !AncestorOnCycle(g, x)
  }

  lemma {:induction false} RewrittenElems(entries: seq<Entry>, keep: set<Id>)
    ensures var g := GraphOf(entries);
      var kept := Filter(Order(g), keep);
      Elems(kept) == Emitted(g, keep) && |kept| == |Emitted(g, keep)| && NoDup(kept)
  {
    var g := GraphOf(entries);
    OrderIsTopological(g);
    FilterElems(Order(g), keep);
    forall x ensures x in Elems(Filter(Order(g), keep)) <==> x in Emitted(g, keep) {
      EmittedExactly(g, x);
      assert x in Elems(Order(g)) <==> x in Order(g);
    }
    NoDupLength(Filter(Order(g), keep));
  }

  /** Every kept event but the checkpoint keeps a parent. */
  lemma {:induction false} KeptHasKeptParent(g: Graph, root: Id, x: Id)
    requires x in Descendants(g, root) && x != root
    ensures Parents(g, x) * Descendants(g, root) != {}
  {
    var p :| PathFromTo(g, p, x, root);
    assert p[0 + 1] in Parents(g, p[0]);
    var q := p[1..];
    forall k | 0 <= k < |q| - 1 ensures q[k + 1] in Parents(g, q[k]) {
      assert p[k + 1 + 1] in Parents(g, p[k + 1]);
    }
    assert PathFromTo(g, q, p[1], root);
    assert p[1] in Parents(g, x) * Descendants(g, root);
  }

  /** A kept event is a tip of the pruned log exactly when it was one before. */
  lemma {:induction false} KeptTips(g: Graph, root: Id, x: Id)
    requires root in g && x in Descendants(g, root)
    ensures x in Tips(Restrict(g, Descendants(g, root))) <==> x in Tips(g)
  {
    DescendantsLeast(g, root);
    var h := Restrict(g, Descendants(g, root));
    if y :| y in g && x in g[y].prev {
      assert y in ChildEdges(g)[x];
      assert y in h;
    }
  }

  lemma {:induction false} LineRow(entries: seq<Entry>, ids: seq<Id>, file: seq<Entry>, k: nat)
    requires DistinctEntries(entries) && LinesOf(entries, ids, file) && k < |ids|
    ensures ids[k] in GraphOf(entries) && GraphOf(entries)[ids[k]] == file[k].row
  {
    RowsAt(entries);
    var i :| 0 <= i < |entries| && entries[i] == file[k];
    ByIdAt(Rows(entries), i);
  }

  lemma {:induction false} FileRow(ids: seq<Id>, entries: seq<Entry>, file: seq<Entry>, k: nat)
    requires LinesOf(entries, ids, file) && NoDup(ids) && k < |ids|
    ensures DistinctEntries(file)
    ensures ids[k] in GraphOf(file) && GraphOf(file)[ids[k]] == file[k].row
  {
    RowsAt(file);
    ByIdAt(Rows(file), k);
  }

  lemma {:induction false} FileKeys(ids: seq<Id>, entries: seq<Entry>, file: seq<Entry>)
    requires LinesOf(entries, ids, file)
    ensures GraphOf(file).Keys <= Elems(ids)
  {
    RowsAt(file);
    ByIdRows(Rows(file));
    forall x | x in GraphOf(file) ensures x in ids {
      var k :| 0 <= k < |Rows(file)| && Rows(file)[k].id == x;
      assert file[k].row.id == ids[k];
    }
  }

  /** The rewritten file is the log restricted to the ids written. */
  lemma {:induction false} LinesGraph(entries: seq<Entry>, ids: seq<Id>, file: seq<Entry>)
    requires DistinctEntries(entries) && LinesOf(entries, ids, file) && NoDup(ids)
    ensures DistinctEntries(file) && GraphOf(file) == Restrict(GraphOf(entries), Elems(ids))
  {
    var g, h := GraphOf(entries), GraphOf(file);
    RowsAt(file);
    FileKeys(ids, entries, file);
    forall x | x in Elems(ids) ensures x in g && x in h && h[x] == g[x] {
      var k :| 0 <= k < |ids| && ids[k] == x;
      LineRow(entries, ids, file, k);
      FileRow(ids, entries, file, k);
    }
  }

  /** On any log a rewrite to `keep` leaves exactly the events of `keep` with no ancestor on a cycle. */
  lemma {:induction false} RewrittenGraph(entries: seq<Entry>, keep: set<Id>, stats: PruneStats, file: seq<Entry>)
    requires DistinctEntries(entries) && Rewritten(entries, keep, stats, file)
    ensures DistinctEntries(file) && GraphOf(file) == Restrict(GraphOf(entries), Emitted(GraphOf(entries), keep))
    ensures stats.kept == |Emitted(GraphOf(entries), keep)| && stats.kept + stats.dropped == |entries|
    ensures stats.kept == |file|
  {
    var g := GraphOf(entries);
    RewrittenElems(entries, keep);
    EntriesIndexed(entries);
    SubsetSize(Emitted(g, keep), g.Keys);
    if stats.pruned {
      LinesGraph(entries, Filter(Order(g), keep), file);
    } else {
      RestrictAll(g);
    }
  }

  lemma {:induction false} EmittedWhole(g: Graph, keep: set<Id>)
    requires keep <= g.Keys
    ensures Restrict(g, Emitted(g, keep)) == Restrict(g, keep) <==> forall x | x in keep :: !AncestorOnCycle(g, x)
  {
    assert Restrict(g, Emitted(g, keep)).Keys == Emitted(g, keep) && Restrict(g, keep).Keys == keep;
    if forall x | x in keep :: !AncestorOnCycle(g, x) {
      assert Emitted(g, keep) == keep;
    }
  }

  /** Checkpoint pruning leaves the checkpoint's descendants, less those with an ancestor on a cycle; so it is exact
      exactly when they have none. */
  lemma {:induction false} PruneExactIff(entries: seq<Entry>, checkpoint: Id, stats: PruneStats, file: seq<Entry>)
    requires DistinctEntries(entries) && checkpoint in GraphOf(entries)
    requires Rewritten(entries, Descendants(GraphOf(entries), checkpoint), stats, file)
    ensures var g, d := GraphOf(entries), Descendants(GraphOf(entries), checkpoint);
      && DistinctEntries(file) && GraphOf(file) == Restrict(g, Emitted(g, d))
      && stats.kept == |Emitted(g, d)| && stats.kept + stats.dropped == |entries|
      && (GraphOf(file) == Restrict(g, d) <==> forall x | x in d :: !AncestorOnCycle(g, x))
    ensures checkpoint in GraphOf(file) <==> !AncestorOnCycle(GraphOf(entries), checkpoint)
    ensures checkpoint in GraphOf(file) ==> Descendants(GraphOf(file), checkpoint) == GraphOf(file).Keys
  {
    var g := GraphOf(entries);
    RewrittenGraph(entries, Descendants(g, checkpoint), stats, file);
    EmittedWhole(g, Descendants(g, checkpoint));
    ReachSelf(g, checkpoint);
    if checkpoint in GraphOf(file) {
      EmittedTwice(g, checkpoint, checkpoint);
    }
  }

  lemma {:induction false} AncestorEmitted(g: Graph, x: Id, y: Id)
    requires !AncestorOnCycle(g, x) && Reaches(g, x, y)
    ensures !AncestorOnCycle(g, y)
  {
    if AncestorOnCycle(g, y) {
      var z :| Reaches(g, y, z) && OnCycle(g, z);
      ReachTransitive(g, x, y, z);
    }
  }

  lemma {:induction false} RestrictReaches(g: Graph, s: set<Id>, x: Id, y: Id)
    requires Reaches(Restrict(g, s), x, y)
    ensures Reaches(g, x, y)
  {
    var p :| PathFromTo(Restrict(g, s), p, x, y);
    RestrictPath(g, s, p);
    assert PathFromTo(g, p, x, y);
  }

  /** Restricting makes no cycle. */
  lemma {:induction false} RestrictEmitted(g: Graph, s: set<Id>, x: Id)
    requires !AncestorOnCycle(g, x)
    ensures !AncestorOnCycle(Restrict(g, s), x)
  {
    if AncestorOnCycle(Restrict(g, s), x) {
      var y :| Reaches(Restrict(g, s), x, y) && OnCycle(Restrict(g, s), y);
      RestrictReaches(g, s, x, y);
      RestrictCycle(g, s, y);
    }
  }

  /** A path from an emitted event down to a kept checkpoint runs inside what was kept. */
  lemma {:induction false} KeptPath(g: Graph, first: Id, p: seq<Id>)
    requires IsPath(g, p) && !AncestorOnCycle(g, p[0]) && p[|p| - 1] in Descendants(g, first)
    ensures IsPath(Restrict(g, Emitted(g, Descendants(g, first))), p)
    decreases |p|
  {
    var h := Restrict(g, Emitted(g, Descendants(g, first)));
    assert PathFromTo(g, p, p[0], p[|p| - 1]);
    ReachTransitive(g, p[0], p[|p| - 1], first);
    if |p| > 1 {
      var q := p[1..];
      assert p[0 + 1] in Parents(g, p[0]);
      forall k | 0 <= k < |q| - 1 ensures q[k + 1] in Parents(g, q[k]) {
        assert p[k + 1 + 1] in Parents(g, p[k + 1]);
      }
      ReachParent(g, p[0], p[1]);
      AncestorEmitted(g, p[0], p[1]);
      KeptPath(g, first, q);
      assert p == [p[0]] + q && p[1] in h;
      forall i | 0 <= i < |p| - 1 ensures p[i + 1] in Parents(h, p[i]) {
        if i > 0 {
          assert q[i - 1 + 1] in Parents(h, q[i - 1]);
        }
      }
    }
  }

  /** What is left of a checkpoint's descendants does not depend on an earlier prune that kept it. */
  lemma {:induction false} EmittedTwice(g: Graph, first: Id, second: Id)
    requires second in Emitted(g, Descendants(g, first))
    ensures var h := Restrict(g, Emitted(g, Descendants(g, first)));
      Emitted(h, Descendants(h, second)) == Emitted(g, Descendants(g, second))
  {
    var s := Emitted(g, Descendants(g, first));
    var h := Restrict(g, s);
    forall x ensures x in Emitted(h, Descendants(h, second)) <==> x in Emitted(g, Descendants(g, second)) {
      if x in Emitted(g, Descendants(g, second)) {
        var p :| PathFromTo(g, p, x, second);
        KeptPath(g, first, p);
        assert PathFromTo(h, p, x, second);
        RestrictEmitted(g, s, x);
      }
      if x in Emitted(h, Descendants(h, second)) {
        RestrictReaches(g, s, x, second);
      }
    }
  }

  lemma {:induction false} RestrictTwice(g: Graph, s: set<Id>, t: set<Id>)
    requires t <= s
    ensures Restrict(Restrict(g, s), t) == Restrict(g, t)
  {
  }

  lemma {:induction false} EmittedShrinks(g: Graph, first: Id, second: Id)
    requires second in Descendants(g, first)
    ensures Emitted(g, Descendants(g, second)) <= Emitted(g, Descendants(g, first))
  {
    forall x | x in Descendants(g, second) ensures x in Descendants(g, first) {
      ReachTransitive(g, x, second, first);
    }
  }

  /** Pruning at one checkpoint and then at a later one that was kept leaves the events that pruning at the later one
      alone leaves. */
  lemma {:induction false} LaterPruneGraph(entries: seq<Entry>, first: Id, second: Id, stats: PruneStats,
        file: seq<Entry>, again: PruneStats, file': seq<Entry>)
    requires DistinctEntries(entries) && Rewritten(entries, Descendants(GraphOf(entries), first), stats, file)
    requires second in GraphOf(file) && Rewritten(file, Descendants(GraphOf(file), second), again, file')
    ensures var g := GraphOf(entries);
      DistinctEntries(file') && GraphOf(file') == Restrict(g, Emitted(g, Descendants(g, second)))
    ensures again.kept == |Emitted(GraphOf(entries), Descendants(GraphOf(entries), second))|
  {
    var g := GraphOf(entries);
    RewrittenGraph(entries, Descendants(g, first), stats, file);
    RewrittenGraph(file, Descendants(GraphOf(file), second), again, file');
    EmittedTwice(g, first, second);
    EmittedShrinks(g, first, second);
    RestrictTwice(g, Emitted(g, Descendants(g, first)), Emitted(g, Descendants(g, second)));
  }

  /** Pruning twice at the same checkpoint is pruning once, on any log. (A checkpoint the first prune has dropped is
      unknown to the second, which then changes nothing.) */
  lemma {:induction false} SecondPruneDropsNothing(entries: seq<Entry>, checkpoint: Id, stats: PruneStats,
        file: seq<Entry>, again: PruneStats, file': seq<Entry>)
    requires DistinctEntries(entries) && Rewritten(entries, Descendants(GraphOf(entries), checkpoint), stats, file)
    requires checkpoint in GraphOf(file) && Rewritten(file, Descendants(GraphOf(file), checkpoint), again, file')
    ensures !again.pruned && again.dropped == 0 && file' == file
  {
    RewrittenGraph(entries, Descendants(GraphOf(entries), checkpoint), stats, file);
    LaterPruneGraph(entries, checkpoint, checkpoint, stats, file, again, file');
  }

  /** If children's keys exceed their parents', any rewritten log stands in its own canonical order. */
  lemma {:induction false} RewrittenLogIsCanonical(entries: seq<Entry>, keep: set<Id>, stats: PruneStats,
        file: seq<Entry>)
    requires DistinctEntries(entries) && KeyMonotone(GraphOf(entries))
    requires Rewritten(entries, keep, stats, file) && stats.pruned
    ensures LinesOf(entries, Order(GraphOf(file)), file)
  {
    var g := GraphOf(entries);
    var kept := Filter(Order(g), keep);
    MonotoneSorted(g);
    OrderIsTopological(g);
    FilterElems(Order(g), keep);
    LinesGraph(entries, kept, file);
    MonotoneOrderCommutesWithDrop(g, Elems(kept));
    FilterSame(Order(g), keep);
  }

  lemma {:induction false} LinesUnique(entries: seq<Entry>, ids: seq<Id>, a: seq<Entry>, b: seq<Entry>)
    requires DistinctEntries(entries) && LinesOf(entries, ids, a) && LinesOf(entries, ids, b)
    ensures a == b
  {
    RowsAt(entries);
    forall k | 0 <= k < |a| ensures a[k] == b[k] {
      var i :| 0 <= i < |entries| && entries[i] == a[k];
      var j :| 0 <= j < |entries| && entries[j] == b[k];
      assert Rows(entries)[i].id == Rows(entries)[j].id;
    }
  }

  lemma {:induction false} LinesOfLines(entries: seq<Entry>, file: seq<Entry>, ids: seq<Id>, file': seq<Entry>)
    requires (forall l | l in file :: l in entries) && LinesOf(file, ids, file')
    ensures LinesOf(entries, ids, file')
  {
    forall k | 0 <= k < |ids| ensures file'[k] in entries {
      assert file'[k] in file;
    }
  }

  lemma {:induction false} LinesAreOriginal(entries: seq<Entry>, keep: set<Id>, stats: PruneStats, file: seq<Entry>)
    requires Rewritten(entries, keep, stats, file)
    ensures forall l | l in file :: l in entries
  {
  }

  /** If keys grow along edges, the two ways of pruning leave the same file, line by line. */
  lemma {:induction false} LaterPruneSameFile(entries: seq<Entry>, first: Id, second: Id, stats: PruneStats,
        file: seq<Entry>, again: PruneStats, file': seq<Entry>, alone: PruneStats, direct: seq<Entry>)
    requires DistinctEntries(entries) && KeyMonotone(GraphOf(entries))
    requires Rewritten(entries, Descendants(GraphOf(entries), first), stats, file)
    requires second in GraphOf(file) && Rewritten(file, Descendants(GraphOf(file), second), again, file')
    requires Rewritten(entries, Descendants(GraphOf(entries), second), alone, direct)
    ensures file' == direct
  {
    var g := GraphOf(entries);
    RewrittenGraph(entries, Descendants(g, first), stats, file);
    RewrittenGraph(entries, Descendants(g, second), alone, direct);
    LaterPruneGraph(entries, first, second, stats, file, again, file');
    EmittedShrinks(g, first, second);
    EntriesIndexed(entries);
    SubsetSize(Emitted(g, Descendants(g, second)), Emitted(g, Descendants(g, first)));
    SubsetSize(Emitted(g, Descendants(g, first)), g.Keys);
    if alone.pruned {
      RewrittenLogIsCanonical(entries, Descendants(g, second), alone, direct);
      LinesAreOriginal(entries, Descendants(g, first), stats, file);
      if again.pruned {
        RestrictMonotone(g, Emitted(g, Descendants(g, first)));
        RewrittenLogIsCanonical(file, Descendants(GraphOf(file), second), again, file');
        LinesOfLines(entries, file, Order(GraphOf(file')), file');
      } else {
        RewrittenLogIsCanonical(entries, Descendants(g, first), stats, file);
      }
      LinesUnique(entries, Order(GraphOf(direct)), file', direct);
    }
  }

  /** Filtering by what survived the filter changes nothing. */
  lemma {:induction false} FilterSame(s: seq<Id>, keep: set<Id>)
    ensures Filter(s, Elems(Filter(s, keep))) == Filter(s, keep)
  {
    FilterElems(s, keep);
    FilterAgree(s, Elems(Filter(s, keep)), keep);
  }

  lemma {:induction false} FilterAgree(s: seq<Id>, a: set<Id>, b: set<Id>)
    requires Elems(s) * a == Elems(s) * b
    ensures Filter(s, a) == Filter(s, b)
  {
    if s != [] {
      var init, x := s[..|s| - 1], s[|s| - 1];
      assert x in Elems(s) && s == init + [x];
      assert x in a <==> x in Elems(s) * a;
      assert x in b <==> x in Elems(s) * b;
      forall y | y in Elems(init) ensures y in a <==> y in b {
        assert y in Elems(s);
        assert y in a <==> y in Elems(s) * a;
        assert y in b <==> y in Elems(s) * b;
      }
      assert Elems(init) * a == Elems(init) * b;
      FilterAgree(init, a, b);
    }
  }

  // ---------------------------------------------------------------- enforceTimelineEventRetention

  const DEFAULT_MAX_DEPTH: real := 200000.0
  const MIN_MAX_DEPTH: real := 256.0
  const DEFAULT_MAX_MS: real := 31536000000.0
  const MIN_MAX_MS: real := 3600000.0

  /** `maxOf(least, value || fallback)`. */
  function Bounded(value: real, fallback: real, least: real): real {
    var v := if value == 0.0 then fallback else value;
    if v < least then least else v
  }

  ghost function RetentionOf(g: Graph, now: real, maxDepth: real, maxMs: real, anchorTypes: set<Text>,
      governanceTypes: set<Text>, checkpoint: Option<Id>): Policy
  {
    Policy(Bounded(maxDepth, DEFAULT_MAX_DEPTH, MIN_MAX_DEPTH), now - Bounded(maxMs, DEFAULT_MAX_MS, MIN_MAX_MS),
      anchorTypes, checkpoint, BestTip(g, governanceTypes, Tips(g)))
  }

  /** The policy in figures: a depth of 200,000 unless one is asked for, 256 at least; an age of 365 days unless one is
      asked for, an hour at least; the branch is the one of the best tip. */
  lemma {:induction false} RetentionInFigures(g: Graph, now: real, maxDepth: real, maxMs: real, anchorTypes: set<Text>,
        governanceTypes: set<Text>, checkpoint: Option<Id>)
    ensures var p := RetentionOf(g, now, maxDepth, maxMs, anchorTypes, governanceTypes, checkpoint);
      && p.maxDepth == (if maxDepth == 0.0 then 200_000.0 else if maxDepth < 256.0 then 256.0 else maxDepth)
      && now - p.cutoffWall ==
        (if maxMs == 0.0 then 31_536_000_000.0 else if maxMs < 3_600_000.0 then 3_600_000.0 else maxMs)
      && p.anchorTypes == anchorTypes && p.checkpointTip == checkpoint
      && IsBestTip(g, governanceTypes, Tips(g), p.branchTip)
  {
    var best := BestTipExists(g, governanceTypes, Tips(g));
    IsTheBestTip(g, governanceTypes, Tips(g), best);
  }

  lemma {:induction false} KeepIsOrdered(g: Graph, p: Policy)
    ensures KeepIds(g, Order(g), p) <= Elems(Order(g)) && NoDup(Filter(Order(g), KeepIds(g, Order(g), p)))
    ensures Elems(Filter(Order(g), KeepIds(g, Order(g), p))) == KeepIds(g, Order(g), p)
  {
    KeepIsLeast(g, Order(g), p);
    OrderIsTopological(g);
    FilterElems(Order(g), Allowed(g, Order(g), p.branchTip));
    FilterElems(Order(g), KeepIds(g, Order(g), p));
  }

  lemma {:induction false} KeepBound(entries: seq<Entry>, p: Policy)
    requires DistinctEntries(entries)
    ensures var g := GraphOf(entries); var keep := KeepIds(g, Order(g), p);
      |Filter(Order(g), keep)| == |keep| <= |entries| && (|keep| == |entries| <==> keep == g.Keys)
  {
    var g := GraphOf(entries);
    KeepIsOrdered(g, p);
    NoDupLength(Filter(Order(g), KeepIds(g, Order(g), p)));
    EntriesIndexed(entries);
    OrderIsTopological(g);
    SubsetSize(KeepIds(g, Order(g), p), g.Keys);
  }

  lemma {:induction false} NothingPruned(entries: seq<Entry>, p: Policy)
    requires DistinctEntries(entries)
    requires entries == [] || |KeepIds(GraphOf(entries), Order(GraphOf(entries)), p)| >= |entries|
    ensures var g := GraphOf(entries);
      Rewritten(entries, KeepIds(g, Order(g), p), PruneStats(false, |entries|, 0), entries)
  {
    KeepBound(entries, p);
  }

  method EnforceRetention(entries: seq<Entry>, checkpoint: Option<Id>, now: real, maxDepth: real, maxMs: real,
      anchorTypes: set<Text>, governanceTypes: set<Text>) returns (stats: PruneStats, file: seq<Entry>)
    requires DistinctEntries(entries)
    ensures var g := GraphOf(entries);
      var keep := KeepIds(g, Order(g), RetentionOf(g, now, maxDepth, maxMs, anchorTypes, governanceTypes, checkpoint));
      && Rewritten(entries, keep, stats, file)
      && (|keep| >= |entries| ==> stats == PruneStats(false, |entries|, 0) && file == entries)
  {
    ghost var p := RetentionOf(GraphOf(entries), now, maxDepth, maxMs, anchorTypes, governanceTypes, checkpoint);
    if entries == [] {
      NothingPruned(entries, p);
      return PruneStats(false, 0, 0), entries;
    }
    var byId, lines := IndexEntries(entries);
    var order := TopologicalCanonicalOrder(Rows(entries));
    var tips := ComputeDagTipIds(Rows(entries));
    TipListIsTips(Rows(entries));
    var branchTip := SelectConsensusBranchTip(tips, byId, governanceTypes);
    IsTheBestTip(byId, governanceTypes, Tips(byId), branchTip);
    var policy := Policy(Bounded(maxDepth, DEFAULT_MAX_DEPTH, MIN_MAX_DEPTH),
      now - Bounded(maxMs, DEFAULT_MAX_MS, MIN_MAX_MS), anchorTypes, checkpoint, branchTip);
    var keepIds := ComputeRetentionKeepIds(order, byId, policy);
    if |keepIds| >= |entries| {
      NothingPruned(entries, p);
      return PruneStats(false, |entries|, 0), entries;
    }
    stats, file := Rewrite(entries, order, keepIds, lines);
  }

  /** Without a checkpoint, retention turns a log without dangling parents into a log without dangling
      parents, written in its own canonical order. */
  lemma {:induction false} RetentionKeepsLogClosed(entries: seq<Entry>, p: Policy, stats: PruneStats, file: seq<Entry>)
    requires DistinctEntries(entries) && Closed(GraphOf(entries)) && p.checkpointTip.None?
    requires Rewritten(entries, KeepIds(GraphOf(entries), Order(GraphOf(entries)), p), stats, file)
    ensures DistinctEntries(file) && Closed(GraphOf(file))
    ensures stats.pruned ==> LinesOf(entries, Order(GraphOf(file)), file)
  {
    var g := GraphOf(entries);
    if stats.pruned {
      RetentionWithoutCheckpoint(g, p);
      KeepIsOrdered(g, p);
      LinesGraph(entries, Filter(Order(g), KeepIds(g, Order(g), p)), file);
    }
  }

  lemma {:induction false} OneTip(g: Graph, types: set<Text>, t: Id)
    requires Acyclic(g) && Tips(g) == {t}
    ensures t in g && t in Order(g) && Ancestors(g, t) == g.Keys && BestTip(g, types, Tips(g)) == Some(t)
  {
    assert t in Tips(g);
    CompleteIffAcyclic(g);
    assert t in Elems(Order(g));
    forall x | x in g ensures x in Ancestors(g, t) {
      TipsCover(g, x);
    }
    assert IsBestTip(g, types, Tips(g), Some(t));
    IsTheBestTip(g, types, Tips(g), Some(t));
  }

  /** A log with one tip and no checkpoint comes out of retention as it is exactly when it is longer than the depth
      bound, its tip is an anchor or recent, or no event is. */
  lemma {:induction false} RetentionLosesNothingIff(entries: seq<Entry>, now: real, maxDepth: real, maxMs: real,
        anchorTypes: set<Text>, governanceTypes: set<Text>, t: Id, stats: PruneStats, file: seq<Entry>)
    requires DistinctEntries(entries) && Acyclic(GraphOf(entries)) && Tips(GraphOf(entries)) == {t}
    requires var g := GraphOf(entries);
      var p := RetentionOf(g, now, maxDepth, maxMs, anchorTypes, governanceTypes, None);
      Rewritten(entries, KeepIds(g, Order(g), p), stats, file)
    ensures var g := GraphOf(entries);
      var p := RetentionOf(g, now, maxDepth, maxMs, anchorTypes, governanceTypes, None);
      file == entries && !stats.pruned <==>
        || |entries| as real > Bounded(maxDepth, DEFAULT_MAX_DEPTH, MIN_MAX_DEPTH)
        || Wanted(g, p, t)
        || forall x | x in g :: !Wanted(g, p, x)
  {
    var g := GraphOf(entries);
    var p := RetentionOf(g, now, maxDepth, maxMs, anchorTypes, governanceTypes, None);
    OneTip(g, governanceTypes, t);
    BranchLosesNothingIff(g, p, t);
    EntriesIndexed(entries);
    DepthSeedsIff(|entries|, p.maxDepth);
    KeepBound(entries, p);
  }

  /** With or without a checkpoint: a log without dangling parents still has none after retention exactly when every
      parent of the checkpoint's descendants outside them is an ancestor of a seed outside them. */
  lemma {:induction false} RetainedFileClosedIff(entries: seq<Entry>, p: Policy, stats: PruneStats, file: seq<Entry>)
    requires DistinctEntries(entries) && Closed(GraphOf(entries))
    requires Rewritten(entries, KeptIds(GraphOf(entries), p), stats, file)
    ensures DistinctEntries(file) && GraphOf(file) == Restrict(GraphOf(entries), KeptIds(GraphOf(entries), p))
    ensures Closed(GraphOf(file)) <==> PassedParentsSeeded(GraphOf(entries), p)
  {
    var g := GraphOf(entries);
    RewrittenGraph(entries, KeptIds(g, p), stats, file);
    RewrittenElems(entries, KeptIds(g, p));
    KeepIsOrdered(g, p);
    RetentionClosedIff(g, p);
  }

  /** The old root and the newer checkpoint, as a log of two lines: the file that retention leaves is the checkpoint
      alone, and its parent dangles. */
  lemma {:induction false} RetainedFileMayDangle(root: Event, checkpoint: Event, a: Text, b: Text, now: real,
        maxDepth: real, maxMs: real, anchorTypes: set<Text>, governanceTypes: set<Text>, stats: PruneStats,
        file: seq<Entry>)
    requires root.id != checkpoint.id && root.prev == [] && checkpoint.prev == [root.id] && root.kind.None?
    requires var wall := if root.hlc.Some? then root.hlc.value.wall else 0;
      wall as real < now - Bounded(maxMs, DEFAULT_MAX_MS, MIN_MAX_MS)
    requires var entries := [Entry(root, a), Entry(checkpoint, b)];
      var g := GraphOf(entries);
      var p := RetentionOf(g, now, maxDepth, maxMs, anchorTypes, governanceTypes, Some(checkpoint.id));
      Rewritten(entries, KeptIds(g, p), stats, file)
    ensures Closed(GraphOf([Entry(root, a), Entry(checkpoint, b)])) && !Closed(GraphOf(file))
  {
    var entries := [Entry(root, a), Entry(checkpoint, b)];
    TwoLines(root, checkpoint, a, b);
    var g := TwoEvents(root, checkpoint);
    TwoTips(g, root.id, checkpoint.id);
    ChainOfTwo(g, root.id, checkpoint.id);
    OneTip(g, governanceTypes, checkpoint.id);
    var p := RetentionOf(g, now, maxDepth, maxMs, anchorTypes, governanceTypes, Some(checkpoint.id));
    RetentionMayDangle(root, checkpoint, p);
    RetainedFileClosedIff(entries, p, stats, file);
  }

  lemma {:induction false} TwoTips(g: Graph, r: Id, c: Id)
    requires r != c && g.Keys == {r, c} && g[r].prev == [] && g[c].prev == [r]
    ensures Tips(g) == {c}
  {
    assert r in g[c].prev;
  }

  lemma {:induction false} TwoLines(x: Event, y: Event, a: Text, b: Text)
    requires x.id != y.id
    ensures DistinctEntries([Entry(x, a), Entry(y, b)]) && GraphOf([Entry(x, a), Entry(y, b)]) == TwoEvents(x, y)
  {
    var entries := [Entry(x, a), Entry(y, b)];
    RowsAt(entries);
    assert Rows(entries) == [x, y];
    TwoRows(x, y);
  }
}
