/** `DagOrderCache.kt`: the incremental topological order cache. */
module OrderCache {
  import opened Numbers
  import opened Seqs
  import opened Ids
  import opened Events
  import opened Graphs
  import opened CanonicalOrder
  import opened Dag
  import opened Branch

  /** `computeLocalTipsHash` as an injective symbol: the digest of the sorted, duplicate-free tips. */
  datatype TipsHash = TipsHash(sorted: seq<Id>)

  datatype Cache = Cache(order: seq<Id>, tipsHash: TipsHash, eventCount: nat)

  function HashTips(tips: seq<Id>): TipsHash {
    TipsHash(SortedIds(tips))
  }

  function NewEvents(events: seq<Event>, known: set<Id>): seq<Event> {
    if events == [] then []
    else
      var last := events[|events| - 1];
      NewEvents(events[..|events| - 1], known) + (if last.id !in known then [last] else [])
  }

  // ---------------------------------------------------------------- mergeTopologicalOrder

  /** The graph of the new events is the whole graph without the ids already merged. */
  lemma {:induction false} NewEventsGraph(events: seq<Event>, known: set<Id>)
    ensures ById(NewEvents(events, known)) == Restrict(ById(events), ById(events).Keys - known)
  {
    if events != [] {
      var init, last := events[..|events| - 1], events[|events| - 1];
      NewEventsGraph(init, known);
      RestrictGrown(ById(init), last, known);
      if last.id in known {
        assert NewEvents(events, known) == NewEvents(init, known);
      } else {
        ByIdSnoc(NewEvents(init, known), last);
      }
    }
  }

  lemma {:induction false} ByIdSnoc(s: seq<Event>, e: Event)
    ensures ById(s + [e]) == ById(s)[e.id := e]
  {
    assert (s + [e])[..|s|] == s;
  }

  lemma {:induction false} RestrictGrown(g: Graph, e: Event, known: set<Id>)
    ensures var h := g[e.id := e];
      Restrict(h, h.Keys - known)
        == if e.id in known then Restrict(g, g.Keys - known) else Restrict(g, g.Keys - known)[e.id := e]
  {
  }

  lemma {:induction false} NewEventsAmong(events: seq<Event>, known: set<Id>)
    ensures forall e | e in NewEvents(events, known) :: e in events
  {
    if events != [] {
      NewEventsAmong(events[..|events| - 1], known);
      assert events == events[..|events| - 1] + [events[|events| - 1]];
    }
  }

  lemma {:induction false} NewEventsDistinct(events: seq<Event>, known: set<Id>)
    requires DistinctIds(events)
    ensures DistinctIds(NewEvents(events, known))
  {
    if events != [] {
      var init, last := events[..|events| - 1], events[|events| - 1];
      NewEventsDistinct(init, known);
      NewEventsAmong(init, known);
      var s := NewEvents(init, known);
      forall i | 0 <= i < |s| ensures s[i].id != last.id {
        assert s[i] in s;
        var j :| 0 <= j < |init| && init[j] == s[i];
        assert events[j].id != events[|events| - 1].id;
      }
    }
  }

  method SplitNew(events: seq<Event>, known: set<Id>) returns (added: seq<Event>)
    ensures added == NewEvents(events, known)
  {
    added := [];
    for i := 0 to |events|
      invariant added == NewEvents(events[..i], known)
    {
      assert events[..i + 1][..i] == events[..i];
      if events[i].id !in known {
        added := added + [events[i]];
      }
    }
    assert events[..|events|] == events;
  }

  /** The insertion point starts at the end and is only ever raised, so it stays at the end. */
  method InsertionPoint(merged: seq<Id>, parents: seq<Id>) returns (at: nat)
    ensures at == |merged|
  {
    at := |merged|;
    for i := 0 to |parents|
      invariant at == |merged|
    {
      var k := IndexOf(merged, parents[i]);
      if k >= 0 {
        at := Max(at, k + 1);
      }
    }
  }

  ghost function Merged(cached: seq<Id>, g: Graph): seq<Id> {
    Filter(cached, g.Keys) + Order(Restrict(g, g.Keys - Elems(cached)))
  }

  /** `for (id in newOrder)`: each id goes in at its insertion point. */
  method InsertAll(kept: seq<Id>, newOrder: seq<Id>, byId: Graph) returns (merged: seq<Id>)
    requires NoDup(newOrder) && Elems(newOrder) <= byId.Keys && Elems(newOrder) !! Elems(kept)
    ensures merged == kept + newOrder
  {
    merged := kept;
    var orderSet := Elems(merged);
    for i := 0 to |newOrder|
      invariant merged == kept + newOrder[..i]
      invariant forall k | i <= k < |newOrder| :: newOrder[k] !in orderSet
    {
      var id := newOrder[i];
      assert id in Elems(newOrder);
      if id !in orderSet {
        var at := InsertionPoint(merged, SortedPrevEventIds(byId[id]));
        merged := merged[..at] + [id] + merged[at..];
        orderSet := orderSet + {id};
      }
    }
  }

  /** `mergeTopologicalOrder`: the surviving cached ids, then the new events in their own canonical order. */
  method MergeTopologicalOrder(cachedOrder: seq<Id>, events: seq<Event>) returns (merged: seq<Id>)
    requires DistinctIds(events)
    ensures merged == Merged(cachedOrder, ById(events))
  {
    var byId := IndexById(events);
    merged := Filter(cachedOrder, byId.Keys);
    var orderSet := Elems(merged);
    FilterElems(cachedOrder, byId.Keys);
    assert byId.Keys - orderSet == byId.Keys - Elems(cachedOrder);
    NewEventsGraph(events, orderSet);
    NewEventsDistinct(events, orderSet);
    var newEvents := SplitNew(events, orderSet);
    if newEvents == [] {
      assert Ready(ById(newEvents), {}) == {};
      return;
    }
    var newOrder := TopologicalCanonicalOrder(newEvents);
    OrderIsTopological(ById(newEvents));
    merged := InsertAll(merged, newOrder, byId);
  }

  // ---------------------------------------------------------------- resolveEventTopologicalOrder

  ghost predicate Usable(c: Cache, g: Graph) {
    c.order != [] && Elems(c.order) <= g.Keys
  }

  ghost predicate Hit(c: Cache, events: seq<Event>) {
    && Usable(c, ById(events)) && c.tipsHash == HashTips(TipList(events))
    && c.eventCount == |events| && |c.order| == |events|
  }

  ghost predicate Mergeable(c: Cache, events: seq<Event>) {
    Usable(c, ById(events)) && c.eventCount <= |events| && |Merged(c.order, ById(events))| == |events|
  }

  ghost function Resolved(events: seq<Event>, cache: Option<Cache>, forceFull: bool): seq<Id> {
    if forceFull || cache.None? then Order(ById(events))
    else if Hit(cache.value, events) then cache.value.order
    else if Mergeable(cache.value, events) then Merged(cache.value.order, ById(events))
    else Order(ById(events))
  }

  method ResolveEventTopologicalOrder(events: seq<Event>, cache: Option<Cache>,
        forceFull: bool) returns (order: seq<Id>)
    requires DistinctIds(events)
    ensures order == Resolved(events, cache, forceFull)
  {
    if events == [] {
      EmptyResolved(cache, forceFull);
      return [];
    }
    if forceFull {
      order := TopologicalCanonicalOrder(events);
      return;
    }
    var byId := IndexById(events);
    var tips := ComputeDagTipIds(events);
    var tipsHash := HashTips(tips);
    if cache.Some? && cache.value.order != [] {
      var c := cache.value;
      if c.tipsHash == tipsHash && c.eventCount == |events| {
        if |c.order| == |events| && Elems(c.order) <= byId.Keys {
          return c.order;
        }
      }
      if c.eventCount <= |events| && Elems(c.order) <= byId.Keys {
        var merged := MergeTopologicalOrder(c.order, events);
        if |merged| == |events| {
          return merged;
        }
      }
    }
    order := TopologicalCanonicalOrder(events);
  }

  lemma {:induction false} EmptyResolved(cache: Option<Cache>, forceFull: bool)
    ensures Resolved([], cache, forceFull) == []
  {
    var g := ById([]);
    assert Ready(g, {}) == {};
    if cache.Some? && cache.value.order != [] {
      assert cache.value.order[0] in Elems(cache.value.order);
    }
  }

  /** `buildOrderCachePayload`: an order that lists every event is served back unchanged. */
  method BuildOrderCachePayload(order: seq<Id>, events: seq<Event>) returns (c: Cache)
    ensures c == Payload(order, events)
    ensures DistinctIds(events) && events != [] && Permutation(ById(events), order)
      ==> Resolved(events, Some(c), false) == order
  {
    var tips := ComputeDagTipIds(events);
    c := Cache(order, HashTips(tips), |events|);
    if DistinctIds(events) && events != [] && Permutation(ById(events), order) {
      PayloadServedBack(order, events);
    }
  }

  function Payload(order: seq<Id>, events: seq<Event>): Cache {
    Cache(order, HashTips(TipList(events)), |events|)
  }

  // ---------------------------------------------------------------- when the merged list is right

  /** The canonical order of what the cache does not hold. */
  ghost function Tail(cached: seq<Id>, g: Graph): seq<Id> {
    Order(Restrict(g, g.Keys - Elems(cached)))
  }

  lemma {:induction false} TailComplete(cached: seq<Id>, g: Graph)
    requires Acyclic(g) && Elems(cached) <= g.Keys
    ensures Merged(cached, g) == cached + Tail(cached, g)
    ensures TopologicalPermutation(Restrict(g, g.Keys - Elems(cached)), Tail(cached, g))
    ensures Elems(Tail(cached, g)) == g.Keys - Elems(cached)
  {
    FilterAll(cached, g.Keys);
    RestrictAcyclic(g, g.Keys - Elems(cached));
    CompleteIffAcyclic(Restrict(g, g.Keys - Elems(cached)));
  }

  lemma {:induction false} NoDupConcat(a: seq<Id>, b: seq<Id>)
    requires NoDup(a) && NoDup(b) && Elems(a) !! Elems(b)
    ensures NoDup(a + b)
  {
    var s := a + b;
    forall i, j | 0 <= i < j < |s| ensures s[i] != s[j] {
      if i < |a| <= j {
        assert s[i] in Elems(a) && s[j] in Elems(b);
      }
    }
  }

  lemma {:induction false} PermutationConcat(a: seq<Id>, b: seq<Id>, whole: set<Id>)
    requires NoDup(a) && NoDup(b) && Elems(a) <= whole && Elems(b) == whole - Elems(a)
    ensures NoDup(a + b) && Elems(a + b) == whole && |a + b| == |whole|
  {
    NoDupConcat(a, b);
    ElemsAppend(a, b);
    NoDupLength(a + b);
  }

  /** On an acyclic history the merged list is a permutation of all events. */
  lemma {:induction false} MergedIsPermutation(cached: seq<Id>, g: Graph)
    requires Acyclic(g) && NoDup(cached) && Elems(cached) <= g.Keys
    ensures NoDup(Merged(cached, g)) && Elems(Merged(cached, g)) == g.Keys && |Merged(cached, g)| == |g|
  {
    TailComplete(cached, g);
    PermutationConcat(cached, Tail(cached, g), g.Keys);
  }

  lemma {:induction false} MergedTailParents(cached: seq<Id>, g: Graph, k: nat)
    requires Acyclic(g) && Elems(cached) <= g.Keys && k < |Tail(cached, g)|
    ensures Tail(cached, g)[k] in g
    ensures Parents(g, Tail(cached, g)[k]) <= Elems(cached + Tail(cached, g)[..k])
  {
    TailComplete(cached, g);
    var tail := Tail(cached, g);
    assert tail[k] in Elems(tail);
    ElemsAppend(cached, tail[..k]);
    forall p | p in Parents(g, tail[k]) && p !in Elems(cached) ensures p in Elems(tail[..k]) {
      assert p in Parents(Restrict(g, g.Keys - Elems(cached)), tail[k]);
    }
  }

  lemma {:induction false} TopologicalConcat(g: Graph, a: seq<Id>, b: seq<Id>)
    requires NoDup(a) && NoDup(b) && Elems(a) !! Elems(b) && Elems(a) <= g.Keys && Elems(b) <= g.Keys
    requires forall i | 0 <= i < |a| :: assert a[i] in Elems(a); Parents(g, a[i]) <= Elems(a[..i])
    requires forall k | 0 <= k < |b| :: assert b[k] in Elems(b); Parents(g, b[k]) <= Elems(a + b[..k])
    ensures Topological(g, a + b)
  {
    var s := a + b;
    NoDupConcat(a, b);
    forall i | 0 <= i < |s| ensures s[i] in g && Parents(g, s[i]) <= Elems(s[..i]) {
      if i < |a| {
        assert a[i] in Elems(a) && s[..i] == a[..i];
      } else {
        assert b[i - |a|] in Elems(b) && s[..i] == a + b[..i - |a|];
      }
    }
  }

  lemma {:induction false} CachedParents(cached: seq<Id>, g: Graph, i: nat)
    requires ParentClosed(g, Elems(cached)) && Topological(Restrict(g, Elems(cached)), cached) && i < |cached|
    ensures cached[i] in Elems(cached) && Parents(g, cached[i]) <= Elems(cached[..i])
  {
    assert cached[i] in Elems(cached);
    RestrictParents(g, Elems(cached), cached[i]);
  }

  lemma {:induction false} MergedTopological(cached: seq<Id>, g: Graph)
    requires Acyclic(g) && ParentClosed(g, Elems(cached))
    requires Topological(Restrict(g, Elems(cached)), cached)
    ensures TopologicalPermutation(g, Merged(cached, g))
  {
    var tail := Tail(cached, g);
    TailComplete(cached, g);
    forall i | 0 <= i < |cached| ensures cached[i] in Elems(cached) && Parents(g, cached[i]) <= Elems(cached[..i]) {
      CachedParents(cached, g, i);
    }
    forall k | 0 <= k < |tail| ensures tail[k] in Elems(tail) && Parents(g, tail[k]) <= Elems(cached + tail[..k]) {
      MergedTailParents(cached, g, k);
    }
    TopologicalConcat(g, cached, tail);
    ElemsAppend(cached, tail);
  }

  lemma {:induction false} MergedTopologicalOnlyIf(cached: seq<Id>, g: Graph)
    requires Elems(cached) <= g.Keys && Topological(g, Merged(cached, g))
    ensures ParentClosed(g, Elems(cached))
  {
    FilterAll(cached, g.Keys);
    var m := Merged(cached, g);
    forall x | x in Elems(cached) ensures Parents(g, x) <= Elems(cached) {
      var i :| 0 <= i < |cached| && cached[i] == x;
      assert m[i] == x && m[..i] == cached[..i];
      assert Elems(cached[..i]) <= Elems(cached);
    }
  }

  /** The merged list lists parents first exactly when no cached event names a new event as a parent:
      a parent that arrives after its child has been cached breaks the order. */
  lemma {:induction false} MergedTopologicalIff(cached: seq<Id>, g: Graph)
    requires Acyclic(g) && Elems(cached) <= g.Keys
    requires Topological(Restrict(g, Elems(cached)), cached)
    ensures TopologicalPermutation(g, Merged(cached, g)) <==> ParentClosed(g, Elems(cached))
  {
    if ParentClosed(g, Elems(cached)) {
      MergedTopological(cached, g);
    } else if Topological(g, Merged(cached, g)) {
      MergedTopologicalOnlyIf(cached, g);
    }
  }

  // ---------------------------------------------------------------- when it is the canonical order

  /** Nothing new is ready before a cached event whose key does not precede its own: listing the cached events
      first lets no new event miss its turn. */
  ghost predicate NoneOvertakes(h: Graph, order: seq<Id>)
    requires Elems(order) <= h.Keys
  {
    forall i, y | 0 <= i < |order| && y in h && y !in Elems(order) && Parents(h, y) <= Elems(order[..i]) ::
      assert order[i] in Elems(order);
      Before(h, order[i], y)
  }

  lemma {:induction false} FilterNone(s: seq<Id>, keep: set<Id>)
    requires Elems(s) !! keep
    ensures Filter(s, keep) == []
  {
    if s != [] {
      var init := s[..|s| - 1];
      assert s == init + [s[|s| - 1]];
      ElemsAppend(init, [s[|s| - 1]]);
      assert s[|s| - 1] in Elems(s);
      FilterNone(init, keep);
    }
  }

  /** Cut back to what was cached, the merged list is the cached list. */
  lemma {:induction false} MergedKeepsCached(h: Graph, order: seq<Id>)
    requires Elems(order) <= h.Keys
    ensures Merged(order, h) == order + Tail(order, h) && Filter(Merged(order, h), Elems(order)) == order
  {
    var rest := Restrict(h, h.Keys - Elems(order));
    FilterAll(order, h.Keys);
    FilterAll(order, Elems(order));
    OrderIsTopological(rest);
    assert Elems(Order(rest)) <= rest.Keys;
    FilterNone(Order(rest), Elems(order));
    FilterAppend(order, Order(rest), Elems(order));
  }

  /** Once the cached events are out, what is ready is what is ready among the rest alone. */
  lemma {:induction false} ReadyAmongRest(h: Graph, known: set<Id>, done: set<Id>)
    requires known <= h.Keys && done <= h.Keys - known
    ensures Ready(h, known + done) == Ready(Restrict(h, h.Keys - known), done)
  {
    var rest := Restrict(h, h.Keys - known);
    forall x ensures x in Ready(h, known + done) <==> x in Ready(rest, done) {
      if x in rest {
        assert Parents(rest, x) == Parents(h, x) - known;
      }
    }
  }

  lemma {:induction false} LeastCarriesOver(h: Graph, part: set<Id>, s: set<Id>, x: Id)
    requires s <= Restrict(h, part).Keys && IsLeast(Restrict(h, part), s, x)
    ensures s <= h.Keys && IsLeast(h, s, x)
  {
    forall y | y in s && y != x ensures Before(h, x, y) {
      assert Before(Restrict(h, part), x, y);
    }
  }

  /** In the cached part of the list every entry is the least that is ready. */
  lemma {:induction false} CachedIsLeast(h: Graph, order: seq<Id>, i: nat)
    requires ParentClosed(h, Elems(order)) && order == Order(Restrict(h, Elems(order))) && NoneOvertakes(h, order)
    requires i < |order|
    ensures IsLeast(h, Ready(h, Elems(order[..i])), order[i])
  {
    var e, done := Elems(order), Elems(order[..i]);
    OrderIsGreedy(Restrict(h, e));
    assert done * e == done;
    RestrictReady(h, e, done);
    LeastCarriesOver(h, e, Ready(h, done) * e, order[i]);
    forall y | y in Ready(h, done) && y != order[i] ensures Before(h, order[i], y) {
      if y in e {
        assert y in Ready(h, done) * e;
      }
    }
  }

  lemma {:induction false} RestIsLeast(h: Graph, order: seq<Id>, k: nat)
    requires Elems(order) <= h.Keys && k < |Tail(order, h)|
    ensures IsLeast(h, Ready(h, Elems(order + Tail(order, h)[..k])), Tail(order, h)[k])
  {
    var tail, rest := Tail(order, h), Restrict(h, h.Keys - Elems(order));
    OrderIsGreedy(rest);
    OrderIsTopological(rest);
    assert Elems(tail[..k]) <= rest.Keys;
    ElemsAppend(order, tail[..k]);
    ReadyAmongRest(h, Elems(order), Elems(tail[..k]));
    LeastCarriesOver(h, h.Keys - Elems(order), Ready(rest, Elems(tail[..k])), tail[k]);
  }

  lemma {:induction false} MergedLeastAt(h: Graph, order: seq<Id>, i: nat)
    requires ParentClosed(h, Elems(order)) && order == Order(Restrict(h, Elems(order))) && NoneOvertakes(h, order)
    requires i < |order + Tail(order, h)|
    ensures var s := order + Tail(order, h); IsLeast(h, Ready(h, Elems(s[..i])), s[i])
  {
    var tail := Tail(order, h);
    var s := order + tail;
    if i < |order| {
      assert s[..i] == order[..i];
      CachedIsLeast(h, order, i);
    } else {
      assert s[..i] == order + tail[..i - |order|];
      RestIsLeast(h, order, i - |order|);
    }
  }

  lemma {:induction false} NothingReadyAfter(h: Graph, order: seq<Id>)
    requires Elems(order) <= h.Keys
    ensures Ready(h, Elems(order + Tail(order, h))) == {}
  {
    var tail, rest := Tail(order, h), Restrict(h, h.Keys - Elems(order));
    OrderIsGreedy(rest);
    OrderIsTopological(rest);
    assert Elems(tail) <= rest.Keys;
    ElemsAppend(order, tail);
    ReadyAmongRest(h, Elems(order), Elems(tail));
  }

  lemma {:induction false} MergedIsGreedy(h: Graph, order: seq<Id>)
    requires ParentClosed(h, Elems(order)) && order == Order(Restrict(h, Elems(order))) && NoneOvertakes(h, order)
    ensures Greedy(h, order + Tail(order, h))
  {
    var s := order + Tail(order, h);
    forall i | 0 <= i < |s| ensures IsLeast(h, Ready(h, Elems(s[..i])), s[i]) {
      MergedLeastAt(h, order, i);
    }
    NothingReadyAfter(h, order);
  }

  lemma {:induction false} CanonicalPrefixOvertaken(h: Graph, order: seq<Id>, i: nat, y: Id)
    requires Elems(order) <= h.Keys && order <= Order(h) && i < |order|
    requires y in h && y !in Elems(order) && Parents(h, y) <= Elems(order[..i])
    ensures order[i] in Elems(order) && Before(h, order[i], y)
  {
    var all := Order(h);
    OrderIsGreedy(h);
    assert all[..i] == order[..i] && all[i] == order[i];
    NotYetListed(order, i, y);
    assert y in Ready(h, Elems(all[..i]));
    assert IsLeast(h, Ready(h, Elems(all[..i])), all[i]);
  }

  lemma {:induction false} NotYetListed(s: seq<Id>, i: nat, y: Id)
    requires i < |s| && y !in Elems(s)
    ensures y !in Elems(s[..i]) && y != s[i]
  {
  }

  lemma {:induction false} CanonicalMergeOnlyIf(h: Graph, order: seq<Id>)
    requires Elems(order) <= h.Keys && Merged(order, h) == Order(h)
    ensures ParentClosed(h, Elems(order)) && order == Order(Restrict(h, Elems(order))) && NoneOvertakes(h, order)
  {
    MergedKeepsCached(h, order);
    OrderIsTopological(h);
    MergedTopologicalOnlyIf(order, h);
    OrderOfParentClosedPart(h, Elems(order));
    forall i, y | 0 <= i < |order| && y in h && y !in Elems(order) && Parents(h, y) <= Elems(order[..i])
      ensures order[i] in Elems(order) && Before(h, order[i], y)
    {
      CanonicalPrefixOvertaken(h, order, i, y);
    }
  }

  /** On any graph: the merged list is the canonical order exactly when no cached event names a new one as a parent,
      the cached list is itself canonical, and no new event overtakes a cached one. */
  lemma {:induction false} MergedCanonicalIff(order: seq<Id>, h: Graph)
    requires Elems(order) <= h.Keys
    ensures Merged(order, h) == Order(h) <==>
      ParentClosed(h, Elems(order)) && order == Order(Restrict(h, Elems(order))) && NoneOvertakes(h, order)
  {
    if Merged(order, h) == Order(h) {
      CanonicalMergeOnlyIf(h, order);
    } else if ParentClosed(h, Elems(order)) && order == Order(Restrict(h, Elems(order))) && NoneOvertakes(h, order) {
      MergedIsGreedy(h, order);
      GreedyUnique(h, order + Tail(order, h));
      MergedKeepsCached(h, order);
    }
  }

  lemma {:induction false} OrderOfPart(g: Graph, s: set<Id>)
    requires KeyMonotone(g) && s <= g.Keys
    ensures var o := Order(Restrict(g, s)); Elems(o) == s && SortedByKey(g, o)
  {
    MonotoneOrderCommutesWithDrop(g, s);
    FilterElems(Order(g), s);
    FilteredSorted(g, Order(g), s);
  }

  lemma {:induction false} SortedSplit(g: Graph, a: seq<Id>, b: seq<Id>, x: Id, y: Id)
    requires Elems(a + b) <= g.Keys && SortedByKey(g, a + b) && x in a && y in b
    ensures x in g && y in g && Before(g, x, y)
  {
    var s := a + b;
    var i :| 0 <= i < |a| && a[i] == x;
    var j :| 0 <= j < |b| && b[j] == y;
    assert s[i] == x && s[|a| + j] == y && s[i] in Elems(s) && s[|a| + j] in Elems(s);
  }

  lemma {:induction false} MergedOfPart(known: set<Id>, g: Graph)
    requires KeyMonotone(g) && known <= g.Keys
    ensures Merged(Order(Restrict(g, known)), g) == Order(Restrict(g, known)) + Order(Restrict(g, g.Keys - known))
  {
    OrderOfPart(g, known);
    FilterAll(Order(Restrict(g, known)), g.Keys);
  }

  ghost predicate AllBefore(g: Graph, xs: set<Id>, ys: set<Id>)
    requires xs <= g.Keys && ys <= g.Keys
  {
    forall x, y | x in xs && y in ys :: Before(g, x, y)
  }

  /** With monotone keys the merged list is the canonical order exactly when every cached event precedes, by key,
      every new one. */
  lemma {:induction false} MonotoneMergedIff(known: set<Id>, g: Graph)
    requires KeyMonotone(g) && known <= g.Keys
    ensures Merged(Order(Restrict(g, known)), g) == Order(g) <==> AllBefore(g, known, g.Keys - known)
  {
    var a, b := Order(Restrict(g, known)), Order(Restrict(g, g.Keys - known));
    OrderOfPart(g, known);
    OrderOfPart(g, g.Keys - known);
    MergedOfPart(known, g);
    MonotoneSorted(g);
    if a + b == Order(g) {
      forall x, y | x in known && y in g.Keys - known ensures Before(g, x, y) {
        assert x in Elems(a) && y in Elems(b);
        SortedSplit(g, a, b, x, y);
      }
    } else if AllBefore(g, known, g.Keys - known) {
      ConcatSorted(g, a, b);
      ElemsAppend(a, b);
      OrderIsTopological(g);
      SortedUnique(g, a + b, Order(g));
    }
  }

  lemma {:induction false} ConcatSorted(g: Graph, a: seq<Id>, b: seq<Id>)
    requires Elems(a) <= g.Keys && Elems(b) <= g.Keys && SortedByKey(g, a) && SortedByKey(g, b)
    requires AllBefore(g, Elems(a), Elems(b))
    ensures Elems(a + b) <= g.Keys && SortedByKey(g, a + b) && NoDup(a + b)
  {
    ElemsAppend(a, b);
    var s := a + b;
    forall i, j | 0 <= i < j < |s| ensures s[i] in Elems(s) && s[j] in Elems(s) &&
        s[i] != s[j] && Before(g, s[i], s[j]) {
      if i < |a| <= j {
        assert s[i] in Elems(a) && s[j] in Elems(b);
      }
      BeforeTotal(g, s[i], s[j]);
    }
  }

  // ---------------------------------------------------------------- runs

  /** One round: the log has become `events`, the order is resolved, the cache is rebuilt. */
  datatype Round = Round(events: seq<Event>, forceFull: bool, cacheLost: bool)

  /** Distinct ids and no cycle. Parents may be missing, as after a checkpoint prune. */
  ghost predicate GoodLog(events: seq<Event>) {
    DistinctIds(events) && Acyclic(ById(events))
  }

  ghost predicate Grown(before: seq<Event>, now: seq<Event>) {
    GoodLog(before) && GoodLog(now) && Elems(before) <= Elems(now)
  }

  /** Between two rounds a log may gain events and lose events (a prune); what stays is not altered. */
  ghost predicate Run(rounds: seq<Round>) {
    && (forall i | 0 <= i < |rounds| :: GoodLog(rounds[i].events))
    && (forall i | 0 <= i < |rounds| - 1 :: SameRows(ById(rounds[i].events), ById(rounds[i + 1].events)))
  }

  ghost predicate SameRows(g: Graph, h: Graph) {
    forall x | x in g && x in h :: g[x] == h[x]
  }

  ghost function OrderAfter(rounds: seq<Round>): seq<Id>
    requires rounds != []
    decreases rounds, 1
  {
    var last := rounds[|rounds| - 1];
    Resolved(last.events, if last.cacheLost then None else CacheAfter(rounds[..|rounds| - 1]), last.forceFull)
  }

  ghost function CacheAfter(rounds: seq<Round>): Option<Cache>
    decreases rounds, 0
  {
    if rounds == [] then None
    else
      var last := rounds[|rounds| - 1];
      var cache := if last.cacheLost then None else CacheAfter(rounds[..|rounds| - 1]);
      Some(Payload(Resolved(last.events, cache, last.forceFull), last.events))
  }

  ghost predicate Permutation(g: Graph, s: seq<Id>) {
    NoDup(s) && Elems(s) == g.Keys
  }

  lemma {:induction false} GrownLog(before: seq<Event>, now: seq<Event>)
    requires Grown(before, now)
    ensures ById(before).Keys <= ById(now).Keys && ById(before) == Restrict(ById(now), ById(before).Keys)
    ensures |ById(before)| == |before| <= |now| == |ById(now)|
  {
    var g, h := ById(before), ById(now);
    ByIdDistinct(before);
    ByIdRows(before);
    forall x | x in g ensures x in h && h[x] == g[x] {
      assert g[x] in Elems(before) && g[x] in now;
      var i :| 0 <= i < |now| && now[i] == g[x];
      ByIdAt(now, i);
    }
    ByIdSize(now);
    SubsetSize(g.Keys, h.Keys);
  }

  /** A hit is sound: the event count alone already makes the cached and the present history the same. */
  lemma {:induction false} HitSameGraph(before: seq<Event>, now: seq<Event>, order: seq<Id>)
    requires Grown(before, now) && Hit(Payload(order, before), now)
    ensures ById(before) == ById(now)
  {
    GrownLog(before, now);
    SubsetSize(ById(before).Keys, ById(now).Keys);
    RestrictAll(ById(now));
  }

  /** Short of a hit, a rebuilt cache is always extended by merging. */
  lemma {:induction false} MergePath(before: seq<Event>, now: seq<Event>, order: seq<Id>)
    requires Grown(before, now) && Permutation(ById(before), order)
    requires order != [] && !Hit(Payload(order, before), now)
    ensures Resolved(now, Some(Payload(order, before)), false) == Merged(order, ById(now))
    ensures Permutation(ById(now), Merged(order, ById(now))) && order <= Merged(order, ById(now))
  {
    GrownLog(before, now);
    MergedIsPermutation(order, ById(now));
    TailComplete(order, ById(now));
  }

  lemma {:induction false} EmptyGraphOrder(g: Graph, order: seq<Id>)
    requires Elems(order) == g.Keys && order == []
    ensures g.Keys == {} && Order(g) == [] && TopologicalPermutation(g, order)
  {
    assert Ready(g, {}) == {};
  }

  /** Serving a cached order, whether by hit or by merge, gives every event once and extends the cached order. It
      lists parents first exactly if the cached order did and no event held then names a new one as a parent. */
  lemma {:induction false} CacheExtends(before: seq<Event>, now: seq<Event>, order: seq<Id>)
    requires Grown(before, now) && Permutation(ById(before), order)
    ensures var g, h, s := ById(before), ById(now), Resolved(now, Some(Payload(order, before)), false);
      && Permutation(h, s) && order <= s
      && (TopologicalPermutation(h, s) <==> TopologicalPermutation(g, order) && ParentClosed(h, g.Keys))
  {
    GrownLog(before, now);
    if order == [] {
      EmptyGraphOrder(ById(before), order);
      CompleteIffAcyclic(ById(now));
    } else if Hit(Payload(order, before), now) {
      HitSameGraph(before, now, order);
    } else {
      MergePath(before, now, order);
      MergedTopologicalFrom(order, ById(before), ById(now));
    }
  }

  lemma {:induction false} MergedTopologicalFrom(order: seq<Id>, g: Graph, h: Graph)
    requires Acyclic(h) && g.Keys <= h.Keys && g == Restrict(h, g.Keys) && Permutation(g, order)
    ensures TopologicalPermutation(h, Merged(order, h)) <==> TopologicalPermutation(g, order) && ParentClosed(h, g.Keys)
  {
    if TopologicalPermutation(h, Merged(order, h)) {
      MergedTopologicalOnlyIf(order, h);
      MergedKeepsCached(h, order);
      PrefixTopological(order, Tail(order, h), g, h);
    } else if TopologicalPermutation(g, order) && ParentClosed(h, g.Keys) {
      MergedTopological(order, h);
    }
  }

  lemma {:induction false} PrefixTopological(order: seq<Id>, tail: seq<Id>, g: Graph, h: Graph)
    requires g.Keys <= h.Keys && g == Restrict(h, g.Keys) && Permutation(g, order) && Topological(h, order + tail)
    ensures Topological(g, order)
  {
    var s := order + tail;
    forall i | 0 <= i < |order| ensures order[i] in g && Parents(g, order[i]) <= Elems(order[..i]) {
      assert order[i] in Elems(order) && s[i] == order[i] && s[..i] == order[..i];
      assert Parents(g, order[i]) <= Parents(h, order[i]);
    }
  }

  lemma {:induction false} CacheIsPayload(rounds: seq<Round>)
    requires rounds != []
    ensures CacheAfter(rounds) == Some(Payload(OrderAfter(rounds), rounds[|rounds| - 1].events))
  {
  }

  /** The last round has no use for the cache: it is the first, a full pass, or finds that a cached event is gone. */
  ghost predicate StartsOver(rounds: seq<Round>)
    requires rounds != []
  {
    var k := |rounds| - 1;
    k == 0 || rounds[k].forceFull || rounds[k].cacheLost
      || !(ById(rounds[k - 1].events).Keys <= ById(rounds[k].events).Keys)
  }

  lemma {:induction false} KeptRows(before: seq<Event>, now: seq<Event>)
    requires GoodLog(before) && GoodLog(now) && SameRows(ById(before), ById(now))
    requires ById(before).Keys <= ById(now).Keys
    ensures Grown(before, now)
  {
    ByIdDistinct(before);
    ByIdRows(now);
    forall e | e in Elems(before) ensures e in Elems(now) {
      var i :| 0 <= i < |before| && before[i] == e;
      ByIdAt(before, i);
      assert e.id in ById(now) && ById(now)[e.id] == e;
    }
  }

  lemma {:induction false} RunInit(rounds: seq<Round>)
    requires Run(rounds) && |rounds| >= 2
    ensures var k := |rounds| - 1;
      Run(rounds[..k]) && SameRows(ById(rounds[k - 1].events), ById(rounds[k].events))
  {
    var k := |rounds| - 1;
    assert SameRows(ById(rounds[k - 1].events), ById(rounds[k - 1 + 1].events));
  }

  lemma {:induction false} CachedRound(rounds: seq<Round>)
    requires Run(rounds) && rounds != [] && !StartsOver(rounds)
    ensures var k := |rounds| - 1;
      && k > 0 && Run(rounds[..k]) && Grown(rounds[k - 1].events, rounds[k].events)
      && OrderAfter(rounds) ==
        Resolved(rounds[k].events, Some(Payload(OrderAfter(rounds[..k]), rounds[k - 1].events)), false)
  {
    var k := |rounds| - 1;
    RunInit(rounds);
    KeptRows(rounds[k - 1].events, rounds[k].events);
    CacheIsPayload(rounds[..k]);
  }

  /** A cached event that is gone makes the cache useless. */
  lemma {:induction false} LostEventResolves(before: seq<Event>, now: seq<Event>, order: seq<Id>)
    requires Permutation(ById(before), order) && !(ById(before).Keys <= ById(now).Keys)
    ensures Resolved(now, Some(Payload(order, before)), false) == Order(ById(now))
  {
  }

  lemma {:induction false} LostEventOrder(rounds: seq<Round>)
    requires |rounds| >= 2 && !rounds[|rounds| - 1].forceFull && !rounds[|rounds| - 1].cacheLost
    requires var k := |rounds| - 1;
      && Permutation(ById(rounds[k - 1].events), OrderAfter(rounds[..k]))
      && !(ById(rounds[k - 1].events).Keys <= ById(rounds[k].events).Keys)
    ensures OrderAfter(rounds) == Order(ById(rounds[|rounds| - 1].events))
  {
    var k := |rounds| - 1;
    CacheIsPayload(rounds[..k]);
    LostEventResolves(rounds[k - 1].events, rounds[k].events, OrderAfter(rounds[..k]));
  }

  lemma {:induction false} FullPassOrder(rounds: seq<Round>)
    requires rounds != []
    requires |rounds| == 1 || rounds[|rounds| - 1].forceFull || rounds[|rounds| - 1].cacheLost
    ensures OrderAfter(rounds) == Order(ById(rounds[|rounds| - 1].events))
  {
  }

  lemma {:induction false} StartsOverOrder(rounds: seq<Round>)
    requires Run(rounds) && rounds != [] && StartsOver(rounds)
    ensures OrderAfter(rounds) == Order(ById(rounds[|rounds| - 1].events)) && ListsParentsFirst(rounds)
    decreases |rounds|, 0
  {
    var k := |rounds| - 1;
    if k == 0 || rounds[k].forceFull || rounds[k].cacheLost {
      FullPassOrder(rounds);
    } else {
      RunInit(rounds);
      RunsKeepOrder(rounds[..k]);
      LostEventOrder(rounds);
    }
    CompleteIffAcyclic(ById(rounds[k].events));
  }

  /** What is resolved after the last round holds every event once and lists parents first. */
  ghost predicate ListsParentsFirst(rounds: seq<Round>)
    requires rounds != []
  {
    TopologicalPermutation(ById(rounds[|rounds| - 1].events), OrderAfter(rounds))
  }

  /** Since the run last started over, no round brought in a parent of an event already held. */
  ghost predicate ParentsArriveFirst(rounds: seq<Round>)
    requires rounds != []
    decreases |rounds|
  {
    var k := |rounds| - 1;
    StartsOver(rounds) || (ParentsArriveFirst(rounds[..k])
      && ParentClosed(ById(rounds[k].events), ById(rounds[k - 1].events).Keys))
  }

  /** Over every run, through hit, merge and full paths alike, the resolved order holds every event once and extends
      the order before it, unless a full pass was forced, the cache was lost or a cached event is gone. */
  lemma {:induction false} RunsKeepOrder(rounds: seq<Round>)
    requires Run(rounds) && rounds != []
    ensures Permutation(ById(rounds[|rounds| - 1].events), OrderAfter(rounds))
    ensures !StartsOver(rounds) ==> OrderAfter(rounds[..|rounds| - 1]) <= OrderAfter(rounds)
    decreases |rounds|, 1
  {
    var k := |rounds| - 1;
    if StartsOver(rounds) {
      StartsOverOrder(rounds);
    } else {
      CachedRound(rounds);
      RunsKeepOrder(rounds[..k]);
      CacheExtends(rounds[k - 1].events, rounds[k].events, OrderAfter(rounds[..k]));
    }
  }

  lemma {:induction false} CachedRoundTopological(rounds: seq<Round>)
    requires Run(rounds) && rounds != [] && !StartsOver(rounds)
    ensures var k := |rounds| - 1;
      ListsParentsFirst(rounds) <==>
        ListsParentsFirst(rounds[..k]) && ParentClosed(ById(rounds[k].events), ById(rounds[k - 1].events).Keys)
  {
    var k := |rounds| - 1;
    CachedRound(rounds);
    RunsKeepOrder(rounds[..k]);
    CacheExtends(rounds[k - 1].events, rounds[k].events, OrderAfter(rounds[..k]));
  }

  /** Over every run: the resolved order lists parents first exactly when parents have arrived first since the run
      last started over. */
  lemma {:induction false} RunTopologicalIff(rounds: seq<Round>)
    requires Run(rounds) && rounds != []
    ensures ListsParentsFirst(rounds) <==> ParentsArriveFirst(rounds)
    decreases |rounds|
  {
    var k := |rounds| - 1;
    if StartsOver(rounds) {
      StartsOverOrder(rounds);
    } else {
      CachedRound(rounds);
      RunTopologicalIff(rounds[..k]);
      CachedRoundTopological(rounds);
    }
  }

  /** Logs without dangling parents meet that condition however they grow. */
  lemma {:induction false} ClosedRunsStayTopological(rounds: seq<Round>)
    requires Run(rounds) && rounds != [] && forall i | 0 <= i < |rounds| :: Closed(ById(rounds[i].events))
    ensures ParentsArriveFirst(rounds) && ListsParentsFirst(rounds)
    decreases |rounds|
  {
    var k := |rounds| - 1;
    RunTopologicalIff(rounds);
    if !StartsOver(rounds) {
      CachedRound(rounds);
      ClosedRunsStayTopological(rounds[..k]);
      GrownLog(rounds[k - 1].events, rounds[k].events);
    }
  }

  /** A run that resolves `first`, then `second`, and nothing is forced or lost. */
  function TwoRounds(first: seq<Event>, second: seq<Event>): seq<Round> {
    [Round(first, false, false), Round(second, false, false)]
  }

  lemma {:induction false} TwoRoundsRun(first: seq<Event>, second: seq<Event>)
    requires Grown(first, second)
    ensures Run(TwoRounds(first, second)) && Run([Round(first, false, false)])
    ensures TwoRounds(first, second)[..1] == [Round(first, false, false)]
    ensures !StartsOver(TwoRounds(first, second))
    ensures ParentsArriveFirst(TwoRounds(first, second)) ==> ParentClosed(ById(second), ById(first).Keys)
  {
    GrownLog(first, second);
  }

  /** One event, then a second: the second can only be listed after the first. */
  lemma {:induction false} SecondGoesLast(p: Event, c: Event)
    requires p.id != c.id && Grown([c], [p, c])
    ensures OrderAfter(TwoRounds([c], [p, c])) == [c.id, p.id]
  {
    TwoRows(p, c);
    TwoRoundsRun([c], [p, c]);
    RunsKeepOrder(TwoRounds([c], [p, c]));
    RunsKeepOrder([Round([c], false, false)]);
    PairServed(p.id, c.id, OrderAfter([Round([c], false, false)]), OrderAfter(TwoRounds([c], [p, c])));
  }

  /** A child resolved before its parent arrives: the order that is then served lists the child first. */
  lemma {:induction false} LateParentBreaksOrder(p: Event, c: Event)
    requires p.id != c.id && p.prev == [] && c.prev == [p.id]
    ensures Run(TwoRounds([c], [p, c])) && OrderAfter(TwoRounds([c], [p, c])) == [c.id, p.id]
    ensures !ListsParentsFirst(TwoRounds([c], [p, c]))
  {
    PairGrown(p, c);
    SecondGoesLast(p, c);
    TwoRows(p, c);
    TwoRoundsRun([c], [p, c]);
    RunTopologicalIff(TwoRounds([c], [p, c]));
    assert p.id in Parents(ById([p, c]), c.id) && p.id !in ById([c]);
  }

  /** A list of one id, extended to a list of two. */
  lemma {:induction false} PairServed(p: Id, c: Id, one: seq<Id>, two: seq<Id>)
    requires NoDup(one) && Elems(one) == {c} && NoDup(two) && Elems(two) == {p, c} && p != c && one <= two
    ensures two == [c, p]
  {
    NoDupLength(one);
    NoDupLength(two);
    assert one[0] in Elems(one) && two[1] in Elems(two);
    assert two[0] == one[0];
  }

  lemma {:induction false} PairGrown(p: Event, c: Event)
    requires p.id != c.id && p.prev == [] && (c.prev == [] || c.prev == [p.id])
    ensures Grown([c], [p, c])
  {
    assert c in [p, c];
    TwoRows(p, c);
    PairListed(ById([p, c]), p.id, c.id);
    ListedIsAcyclic(ById([p, c]), [p.id, c.id]);
    PairRestricted(ById([p, c]), p.id, c.id);
    RestrictAcyclic(ById([p, c]), {c.id});
  }

  lemma {:induction false} PairListed(h: Graph, p: Id, c: Id)
    requires h.Keys == {p, c} && p != c && h[p].prev == [] && (h[c].prev == [] || h[c].prev == [p])
    ensures TopologicalPermutation(h, [p, c])
  {
    var s := [p, c];
    assert s[..1] == [p] && Parents(h, p) == {} && Parents(h, c) <= Elems([p]);
  }

  lemma {:induction false} PairRestricted(h: Graph, p: Id, c: Id)
    requires h.Keys == {p, c} && p != c
    ensures Restrict(h, {c}) == map[c := h[c]]
  {
  }

  lemma {:induction false} ListedIsAcyclic(g: Graph, s: seq<Id>)
    requires TopologicalPermutation(g, s)
    ensures Acyclic(g)
  {
    forall x | x in g ensures !OnCycle(g, x) {
      assert x in Elems(s);
      TopologicalAvoidsCycles(g, s, x);
      ReachSelf(g, x);
    }
  }

  // ---------------------------------------------------------------- when replicas agree

  /** Everything new can go after the canonical order of what is held. */
  ghost predicate Appendable(g: Graph, h: Graph) {
    ParentClosed(h, g.Keys) && Elems(Order(g)) <= h.Keys && NoneOvertakes(h, Order(g))
  }

  lemma {:induction false} SameGraphAppendable(g: Graph)
    requires Acyclic(g)
    ensures Appendable(g, g)
  {
    CompleteIffAcyclic(g);
  }

  /** What a rebuilt cache serves is the canonical order exactly when the cached list was canonical and everything
      new can go after it. */
  lemma {:induction false} ServedAgreesIff(before: seq<Event>, now: seq<Event>, order: seq<Id>)
    requires Grown(before, now) && Permutation(ById(before), order)
    ensures Resolved(now, Some(Payload(order, before)), false) == Order(ById(now))
      <==> order == Order(ById(before)) && Appendable(ById(before), ById(now))
  {
    var g, h := ById(before), ById(now);
    if order == [] {
      EmptyGraphOrder(g, order);
    } else if Hit(Payload(order, before), now) {
      HitSameGraph(before, now, order);
      SameGraphAppendable(g);
    } else {
      GrownLog(before, now);
      MergePath(before, now, order);
      MergedCanonicalIff(order, h);
    }
  }

  /** A replica that resolves incrementally agrees with one that orders everything at once exactly when everything
      that came later can go after what it had cached. */
  lemma {:induction false} CacheAgreesIff(before: seq<Event>, now: seq<Event>)
    requires Grown(before, now)
    ensures Resolved(now, Some(Payload(Order(ById(before)), before)), false) == Resolved(now, None, false)
      <==> Appendable(ById(before), ById(now))
  {
    CompleteIffAcyclic(ById(before));
    ServedAgreesIff(before, now, Order(ById(before)));
  }

  /** Since the run last started over, whatever a round brought could go after everything held before it. */
  ghost predicate EventsArriveInOrder(rounds: seq<Round>)
    requires rounds != []
    decreases |rounds|
  {
    var k := |rounds| - 1;
    StartsOver(rounds) || (EventsArriveInOrder(rounds[..k])
      && Appendable(ById(rounds[k - 1].events), ById(rounds[k].events)))
  }

  /** The same over whole runs: the order a replica has reached is the canonical one exactly when, since it last
      started over, events have arrived in an order that needs no going back. */
  lemma {:induction false} RunAgreesIff(rounds: seq<Round>)
    requires Run(rounds) && rounds != []
    ensures OrderAfter(rounds) == Order(ById(rounds[|rounds| - 1].events)) <==> EventsArriveInOrder(rounds)
    decreases |rounds|
  {
    var k := |rounds| - 1;
    if StartsOver(rounds) {
      StartsOverOrder(rounds);
    } else {
      CachedRound(rounds);
      RunAgreesIff(rounds[..k]);
      RunsKeepOrder(rounds[..k]);
      ServedAgreesIff(rounds[k - 1].events, rounds[k].events, OrderAfter(rounds[..k]));
    }
  }

  /** With monotone keys, what is new can go after what is held exactly when it follows it by key. */
  lemma {:induction false} MonotoneAppendableIff(g: Graph, h: Graph)
    requires KeyMonotone(h) && g.Keys <= h.Keys && g == Restrict(h, g.Keys)
    ensures Appendable(g, h) <==> AllBefore(h, g.Keys, h.Keys - g.Keys)
  {
    OrderOfPart(h, g.Keys);
    MonotoneMergedIff(g.Keys, h);
    MergedCanonicalIff(Order(g), h);
  }

  lemma {:induction false} OneRound(events: seq<Event>)
    requires GoodLog(events)
    ensures OrderAfter([Round(events, false, false)]) == Order(ById(events))
  {
    StartsOverOrder([Round(events, false, false)]);
  }

  /** Two unrelated events: the replica that cached the later one before it learned the earlier one
      never agrees with the replica that ordered both at once. */
  lemma {:induction false} ReplicasMayDisagree(x: Event, y: Event)
    requires x.id != y.id && x.prev == [] && y.prev == []
    requires Before(map[x.id := x, y.id := y], x.id, y.id)
    ensures Run(TwoRounds([y], [x, y])) && OrderAfter(TwoRounds([y], [x, y])) == [y.id, x.id]
    ensures OrderAfter([Round([x, y], false, false)]) == Order(ById([x, y])) == [x.id, y.id]
  {
    PairGrown(x, y);
    SecondGoesLast(x, y);
    TwoRoundsRun([y], [x, y]);
    TwoRows(x, y);
    OneRound([x, y]);
    RootPairOrder(ById([x, y]), x.id, y.id);
  }

  lemma {:induction false} RootPairOrder(h: Graph, x: Id, y: Id)
    requires h.Keys == {x, y} && x != y && h[x].prev == [] && h[y].prev == [] && Before(h, x, y)
    ensures Order(h) == [x, y]
  {
    var s := [x, y];
    assert Elems(s[..0]) == {} && s[..1] == [x] && Elems([x]) == {x} && Elems(s) == {x, y};
    assert Ready(h, {}) == {x, y} && Ready(h, {x}) == {y};
    forall i | 0 <= i < |s| ensures IsLeast(h, Ready(h, Elems(s[..i])), s[i]) {
    }
    GreedyUnique(h, s);
  }

  /** A cache rebuilt from an order that lists every event serves that order back unchanged. */
  lemma {:induction false} PayloadServedBack(order: seq<Id>, events: seq<Event>)
    requires DistinctIds(events) && events != [] && Permutation(ById(events), order)
    ensures Resolved(events, Some(Payload(order, events)), false) == order
  {
    ByIdSize(events);
    NoDupLength(order);
  }

  // ---------------------------------------------------------------- what of a cache counts

  lemma {:induction false} FullOrderMerged(order: seq<Id>, g: Graph)
    requires Acyclic(g) && NoDup(order) && Elems(order) <= g.Keys && |order| == |g|
    ensures Merged(order, g) == order
  {
    NoDupLength(order);
    SubsetSize(Elems(order), g.Keys);
    TailComplete(order, g);
    EmptyElems(Tail(order, g));
  }

  /** Of a cached order without repeats, whatever else the cache says: it is extended if all its ids are still there and
      the cache does not count more events than there are, and ignored otherwise. The tips hash decides nothing. */
  lemma {:induction false} CacheServedIff(events: seq<Event>, c: Cache)
    requires GoodLog(events) && NoDup(c.order)
    ensures var g := ById(events);
      Resolved(events, Some(c), false)
        == if c.order != [] && Elems(c.order) <= g.Keys && c.eventCount <= |events|
          then c.order + Order(Restrict(g, g.Keys - Elems(c.order))) else Order(g)
  {
    var g := ById(events);
    ByIdSize(events);
    if c.order != [] && Elems(c.order) <= g.Keys {
      MergedIsPermutation(c.order, g);
      TailComplete(c.order, g);
      if Hit(c, events) {
        FullOrderMerged(c.order, g);
      }
    }
  }

  lemma {:induction false} MergedLength(order: seq<Id>, g: Graph)
    requires Acyclic(g) && Elems(order) <= g.Keys
    ensures |Merged(order, g)| == |order| + |g| - |Elems(order)|
  {
    var tail := Tail(order, g);
    TailComplete(order, g);
    NoDupLength(tail);
    assert g.Keys == Elems(order) + Elems(tail);
    assert |g.Keys| == |Elems(order)| + |Elems(tail)|;
  }

  /** A cached order with repeats, which no rebuilt cache holds, is served only when tips, count and length agree. */
  lemma {:induction false} RepeatsServedOnHit(events: seq<Event>, c: Cache)
    requires GoodLog(events) && !NoDup(c.order)
    ensures var g := ById(events);
      Resolved(events, Some(c), false)
        == if Elems(c.order) <= g.Keys && c.tipsHash == TipsHash(SortedIds(TipList(events)))
            && c.eventCount == |events| == |c.order|
          then c.order else Order(g)
  {
    RepeatsNotMergeable(events, c);
    EmptyElems(c.order);
  }

  lemma {:induction false} RepeatsNotMergeable(events: seq<Event>, c: Cache)
    requires GoodLog(events) && !NoDup(c.order)
    ensures !Mergeable(c, events)
  {
    ByIdSize(events);
    RepeatsShrink(c.order);
    if Elems(c.order) <= ById(events).Keys {
      MergedLength(c.order, ById(events));
    }
  }
}
