/** The loops of `Dag.kt`, proved against the specifications in `CanonicalOrder`. */
module Dag {
  import opened Seqs
  import opened Ids
  import opened Events
  import opened Graphs
  import opened CanonicalOrder

  function SortedPrevEventIds(e: Event): (r: seq<Id>)
    ensures Ascending(r) && Elems(r) == Elems(e.prev)
  {
    SortedIds(e.prev)
  }

  function ChildrenIn(g: Graph, rows: set<Id>, p: Id): set<Id> {
    set x | x in rows && x in g && p in Parents(g, x)
  }

  /** The adjacency lists name, once each, exactly the children found among `rows`. */
  ghost predicate ListsChildren(g: Graph, rows: set<Id>, children: map<Id, seq<Id>>) {
    forall p | p in g :: NoDup(ListAt(children, p)) && Elems(ListAt(children, p)) == ChildrenIn(g, rows, p)
  }

  /** `for (parentId in parents) children.getOrPut(parentId) { [] }.add(id)`. */
  method AppendToEach(children: map<Id, seq<Id>>, parents: seq<Id>, id: Id) returns (r: map<Id, seq<Id>>)
    requires NoDup(parents)
    ensures forall p :: ListAt(r, p) == if p in parents then ListAt(children, p) + [id] else ListAt(children, p)
  {
    r := children;
    for i := 0 to |parents|
      invariant forall p ::
        ListAt(r, p) == if p in parents[..i] then ListAt(children, p) + [id] else ListAt(children, p)
    {
      assert parents[i] !in parents[..i];
      r := r[parents[i] := ListAt(r, parents[i]) + [id]];
      assert parents[..i + 1] == parents[..i] + [parents[i]];
    }
    assert parents[..|parents|] == parents;
  }

  lemma {:induction false} ChildrenGrow(g: Graph, rows: set<Id>, id: Id, children: map<Id, seq<Id>>, r: map<Id,
        seq<Id>>)
    requires id in g && id !in rows && ListsChildren(g, rows, children)
    requires forall p | p in g ::
      ListAt(r, p) == if p in Parents(g, id) then ListAt(children, p) + [id] else ListAt(children, p)
    ensures ListsChildren(g, rows + {id}, r)
  {
    forall p | p in g
      ensures NoDup(ListAt(r, p)) && Elems(ListAt(r, p)) == ChildrenIn(g, rows + {id}, p)
    {
      ChildrenInGrow(g, rows, id, p);
      assert Elems(ListAt(children, p)) == ChildrenIn(g, rows, p);
      AddedLast(ListAt(children, p), id);
    }
  }

  lemma {:induction false} AddedLast(before: seq<Id>, id: Id)
    requires NoDup(before) && id !in Elems(before)
    ensures NoDup(before + [id]) && Elems(before + [id]) == Elems(before) + {id}
  {
    ElemsAppend(before, [id]);
  }

  lemma {:induction false} ChildrenInGrow(g: Graph, rows: set<Id>, id: Id, p: Id)
    requires id in g
    ensures ChildrenIn(g, rows + {id}, p) == ChildrenIn(g, rows, p) + (if p in Parents(g, id) then {id} else {})
  {
  }

  method AddRow(g: Graph, ghost rows: set<Id>, id: Id, children: map<Id, seq<Id>>)
    returns (r: map<Id, seq<Id>>, parentCount: nat)
    requires Keyed(g) && id in g && id !in rows && ListsChildren(g, rows, children)
    ensures ListsChildren(g, rows + {id}, r) && parentCount == |Parents(g, id)|
  {
    var parentsInGraph := Filter(SortedPrevEventIds(g[id]), g.Keys);
    FilterElems(SortedPrevEventIds(g[id]), g.Keys);
    assert Elems(parentsInGraph) == Parents(g, id);
    NoDupLength(parentsInGraph);
    parentCount := |parentsInGraph|;
    r := AppendToEach(children, parentsInGraph, id);
    assert forall p :: p in parentsInGraph <==> p in Elems(parentsInGraph);
    ChildrenGrow(g, rows, id, children, r);
  }

  lemma {:induction false} NextRow(metas: seq<Event>, i: nat)
    requires DistinctIds(metas) && i < |metas|
    ensures var id := metas[i].id;
      id in ById(metas) && id !in IdsOf(metas[..i]) && IdsOf(metas[..i + 1]) == IdsOf(metas[..i]) + {id}
  {
    ByIdAt(metas, i);
    var before, after := metas[..i], metas[..i + 1];
    assert after == before + [metas[i]];
    assert forall e :: e in after <==> e in before || e == metas[i];
  }

  ghost predicate CountsParents(g: Graph, counts: map<Id, int>) {
    forall x | x in counts :: x in g && counts[x] == |Parents(g, x)|
  }

  lemma {:induction false} CountNext(g: Graph, counts: map<Id, int>, id: Id)
    requires CountsParents(g, counts) && id in g
    ensures CountsParents(g, counts[id := |Parents(g, id)|])
    ensures counts[id := |Parents(g, id)|].Keys == counts.Keys + {id}
  {
  }

  method BuildEdges(metas: seq<Event>, g: Graph) returns (parentCount: map<Id, int>, children: map<Id, seq<Id>>)
    requires DistinctIds(metas) && g == ById(metas)
    ensures parentCount.Keys == g.Keys && CountsParents(g, parentCount)
    ensures ListsChildren(g, g.Keys, children)
  {
    ByIdRows(metas);
    parentCount, children := map[], map[];
    for i := 0 to |metas|
      invariant parentCount.Keys == IdsOf(metas[..i])
      invariant CountsParents(g, parentCount)
      invariant ListsChildren(g, parentCount.Keys, children)
    {
      var id := metas[i].id;
      NextRow(metas, i);
      var count;
      children, count := AddRow(g, parentCount.Keys, id, children);
      CountNext(g, parentCount, id);
      parentCount := parentCount[id := count];
    }
    assert metas[..|metas|] == metas;
  }

  /** How many in-graph parents of `x` are still to be emitted. */
  ghost function Pending(g: Graph, x: Id, done: set<Id>): nat
    requires x in g
  {
    |Parents(g, x) - done|
  }

  lemma {:induction false} PendingStep(g: Graph, x: Id, done: set<Id>, next: Id)
    requires x in g && next !in done
    ensures Pending(g, x, done) == Pending(g, x, done + {next}) + (if next in Parents(g, x) then 1 else 0)
  {
    var before, after := Parents(g, x) - done, Parents(g, x) - (done + {next});
    if next in Parents(g, x) {
      assert before == after + {next};
    } else {
      assert before == after;
    }
  }

  lemma {:induction false} PendingZero(g: Graph, x: Id, done: set<Id>)
    requires x in g
    ensures Pending(g, x, done) == 0 <==> Parents(g, x) <= done
  {
    if Parents(g, x) <= done {
      assert Parents(g, x) - done == {};
    } else {
      var p :| p in Parents(g, x) && p !in done;
      assert p in Parents(g, x) - done;
    }
  }

  /** The counters while `next` is being processed: the children in `left` still count it. */
  ghost predicate CountsMatch(g: Graph, counts: map<Id, int>, done: set<Id>, left: set<Id>) {
    && counts.Keys == g.Keys
    && (forall x | x in g && x in left :: counts[x] == Pending(g, x, done) + 1)
    && (forall x | x in g && x !in left :: counts[x] == Pending(g, x, done))
  }

  lemma {:induction false} CountsBegin(g: Graph, counts: map<Id, int>, done: set<Id>, next: Id)
    requires next !in done && CountsMatch(g, counts, done, {})
    ensures CountsMatch(g, counts, done + {next}, ChildrenIn(g, g.Keys, next))
  {
    forall x | x in g {
      PendingStep(g, x, done, next);
    }
  }

  lemma {:induction false} CountDown(g: Graph, counts: map<Id, int>, done: set<Id>, left: set<Id>, child: Id)
    requires CountsMatch(g, counts, done, left) && child in g && child in left
    ensures CountsMatch(g, counts[child := counts[child] - 1], done, left - {child})
    ensures counts[child] - 1 == Pending(g, child, done)
  {
  }

  ghost function Released(g: Graph, done: set<Id>, kids: set<Id>): set<Id> {
    set x | x in kids && x in g && Pending(g, x, done) == 0
  }

  lemma {:induction false} ReleasedStep(g: Graph, done: set<Id>, all: set<Id>, left: set<Id>, child: Id)
    requires child in left && left <= all && child in g
    ensures Released(g, done, all - (left - {child}))
      == Released(g, done, all - left) + (if Pending(g, child, done) == 0 then {child} else {})
  {
  }

  ghost predicate Midway(g: Graph, done: set<Id>, queue: set<Id>, all: set<Id>, left: set<Id>, counts: map<Id, int>,
        ready: set<Id>)
  {
    left <= all <= g.Keys && CountsMatch(g, counts, done, left) && ready == queue + Released(g, done, all - left)
  }

  lemma {:induction false} MidwayStep(g: Graph, done: set<Id>, queue: set<Id>, all: set<Id>, left: set<Id>,
        counts: map<Id, int>, ready: set<Id>, child: Id)
    requires Midway(g, done, queue, all, left, counts, ready) && child in left
    ensures child in counts
    ensures var remaining := counts[child] - 1;
      Midway(g, done, queue, all, left - {child}, counts[child := remaining],
        if remaining == 0 then ready + {child} else ready)
  {
    CountDown(g, counts, done, left, child);
    ReleasedStep(g, done, all, left, child);
  }

  lemma {:induction false} MidwayStart(g: Graph, done: set<Id>, kids: seq<Id>, counts: map<Id, int>, queue: set<Id>)
    requires Elems(kids) <= g.Keys && CountsMatch(g, counts, done, Elems(kids))
    ensures Midway(g, done, queue, Elems(kids), Elems(kids[0..]), counts, queue)
  {
    assert kids[0..] == kids;
    assert queue + Released(g, done, Elems(kids) - Elems(kids)) == queue;
  }

  lemma {:induction false} MidwayEnd(g: Graph, done: set<Id>, kids: seq<Id>, counts: map<Id, int>, queue: set<Id>,
        ready: set<Id>)
    requires Midway(g, done, queue, Elems(kids), Elems(kids[|kids|..]), counts, ready)
    ensures CountsMatch(g, counts, done, {}) && ready == queue + Released(g, done, Elems(kids))
  {
    assert Elems(kids[|kids|..]) == {} && Elems(kids) - {} == Elems(kids);
  }

  lemma {:induction false} TailElems(s: seq<Id>, i: nat)
    requires NoDup(s) && i < |s|
    ensures s[i] in Elems(s[i..]) && Elems(s[i + 1..]) == Elems(s[i..]) - {s[i]}
  {
    assert s[i..] == [s[i]] + s[i + 1..];
  }

  /** `for (childId in children[next])`: count each child down, queue those that reach zero. */
  method CountDownAll(g: Graph, ghost done: set<Id>, kids: seq<Id>, parentCount: map<Id, int>, queue: set<Id>)
    returns (counts: map<Id, int>, ready: set<Id>)
    requires NoDup(kids) && Elems(kids) <= g.Keys && CountsMatch(g, parentCount, done, Elems(kids))
    ensures CountsMatch(g, counts, done, {})
    ensures ready == queue + Released(g, done, Elems(kids))
  {
    counts, ready := parentCount, queue;
    MidwayStart(g, done, kids, parentCount, queue);
    for i := 0 to |kids|
      invariant Midway(g, done, queue, Elems(kids), Elems(kids[i..]), counts, ready)
    {
      var child := kids[i];
      TailElems(kids, i);
      MidwayStep(g, done, queue, Elems(kids), Elems(kids[i..]), counts, ready, child);
      var remaining := counts[child] - 1;
      counts := counts[child := remaining];
      if remaining == 0 {
        ready := ready + {child};
      }
    }
    MidwayEnd(g, done, kids, counts, queue, ready);
  }

  /** What becomes ready when `next` is emitted: its children that waited for nothing else. */
  lemma {:induction false} ReadyAfter(g: Graph, done: set<Id>, next: Id)
    requires ParentClosed(g, done) && next in Ready(g, done)
    ensures ParentClosed(g, done + {next})
    ensures Ready(g, done + {next}) == (Ready(g, done) - {next})
      + Released(g, done + {next}, ChildrenIn(g, g.Keys, next))
  {
    var done' := done + {next};
    var released := Released(g, done', ChildrenIn(g, g.Keys, next));
    forall x ensures x in Ready(g, done') <==> x in (Ready(g, done) - {next}) + released {
      if x in g {
        PendingZero(g, x, done');
      }
    }
  }

  lemma {:induction false} PendingAtStart(g: Graph, x: Id)
    requires x in g
    ensures Pending(g, x, {}) == |Parents(g, x)|
    ensures Pending(g, x, {}) == 0 <==> x in Ready(g, {})
  {
    assert Parents(g, x) - {} == Parents(g, x);
    PendingZero(g, x, {});
  }

  function Zeros(counts: map<Id, int>): set<Id> {
    set x | x in counts && counts[x] == 0
  }

  lemma {:induction false} ZerosReady(g: Graph, parentCount: map<Id, int>)
    requires parentCount.Keys == g.Keys && CountsParents(g, parentCount)
    ensures Zeros(parentCount) == Ready(g, {})
  {
    forall x ensures x in Zeros(parentCount) <==> x in Ready(g, {}) {
      if x in g {
        PendingAtStart(g, x);
      }
    }
  }

  lemma {:induction false} InitiallyReady(g: Graph, parentCount: map<Id, int>)
    requires parentCount.Keys == g.Keys && CountsParents(g, parentCount)
    ensures CountsMatch(g, parentCount, {}, {}) && Zeros(parentCount) == Ready(g, {})
  {
    forall x | x in g ensures Pending(g, x, {}) == parentCount[x] {
      PendingAtStart(g, x);
    }
    ZerosReady(g, parentCount);
  }

  lemma {:induction false} FewerLeft(all: set<Id>, done: set<Id>, next: Id)
    requires next in all && next !in done
    ensures |all - (done + {next})| < |all - done|
  {
    SubsetSize(all - (done + {next}), all - done);
    assert next in all - done;
  }

  lemma {:induction false} EmitLeast(g: Graph, ordered: seq<Id>, next: Id)
    requires GreedySoFar(g, ordered) && IsLeast(g, Ready(g, Elems(ordered)), next)
    ensures Elems(ordered + [next]) == Elems(ordered) + {next}
    ensures GreedySoFar(g, ordered + [next])
    ensures |g.Keys - Elems(ordered + [next])| < |g.Keys - Elems(ordered)|
  {
    var s := ordered + [next];
    ElemsAppend(ordered, [next]);
    FewerLeft(g.Keys, Elems(ordered), next);
    forall i | 0 <= i < |s| ensures IsLeast(g, Ready(g, Elems(s[..i])), s[i]) {
      PrefixKept(ordered, next, i);
    }
  }

  lemma {:induction false} PrefixKept(s: seq<Id>, x: Id, i: nat)
    requires i <= |s|
    ensures (s + [x])[..i] == s[..i] && s[..|s|] == s
  {
  }

  /** The main loop: `while (ready.isNotEmpty())`. */
  method DrainQueue(g: Graph, initialCount: map<Id, int>, children: map<Id, seq<Id>>, initialReady: set<Id>)
    returns (ordered: seq<Id>)
    requires CountsMatch(g, initialCount, {}, {}) && ListsChildren(g, g.Keys, children) && initialReady == Ready(g, {})
    ensures ordered == Order(g)
  {
    var parentCount, ready := initialCount, initialReady;
    ordered := [];
    assert Elems(ordered) == {};
    while ready != {}
      invariant ParentClosed(g, Elems(ordered)) && ready == Ready(g, Elems(ordered))
      invariant CountsMatch(g, parentCount, Elems(ordered), {})
      invariant GreedySoFar(g, ordered)
      decreases |g.Keys - Elems(ordered)|
    {
      var next, rest := ExtractMin(g, ready);
      EmitLeast(g, ordered, next);
      CountsBegin(g, parentCount, Elems(ordered), next);
      ReadyAfter(g, Elems(ordered), next);
      ordered := ordered + [next];
      parentCount, ready := CountDownAll(g, Elems(ordered), ListAt(children, next), parentCount, rest);
    }
    GreedyUnique(g, ordered);
  }

  /** `topologicalCanonicalOrder`. */
  method TopologicalCanonicalOrder(metas: seq<Event>) returns (ordered: seq<Id>)
    requires DistinctIds(metas)
    ensures ordered == Order(ById(metas))
  {
    if metas == [] {
      assert Ready(ById(metas), {}) == {};
      return [];
    }
    var g := IndexById(metas);
    var parentCount, children := BuildEdges(metas, g);
    var ready := Zeros(parentCount);
    InitiallyReady(g, parentCount);
    ordered := DrainQueue(g, parentCount, children, ready);
  }

  /** Any arrangement of the same events yields the same order. */
  lemma {:induction false} OrderIgnoresInputOrder(a: seq<Event>, b: seq<Event>)
    requires DistinctIds(a) && DistinctIds(b) && Elems(a) == Elems(b)
    ensures Order(ById(a)) == Order(ById(b))
  {
    ByIdIgnoresOrder(a, b);
  }
}
