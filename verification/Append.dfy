/** `Hlc.kt` and `AppendCore.kt`: hybrid clocks and the append step of a timeline. */
module Append {
  import opened Numbers
  import opened Seqs
  import opened Texts
  import opened Ids
  import opened Events
  import opened Graphs
  import opened CanonicalOrder
  import opened Branch

  const MAX_LONG: int := 0x7fff_ffff_ffff_ffff
  const MIN_LONG: int := -0x8000_0000_0000_0000

  predicate IsLong(x: int) {
    MIN_LONG <= x <= MAX_LONG
  }

  /** `x + 1` on a 64-bit `Long`. */
  function Increment(x: int): int {
    if x == MAX_LONG then MIN_LONG else x + 1
  }

  // ---------------------------------------------------------------- clocks

  /** `Hlc.update`, with the wall clock it reads as a parameter. */
  function Update(local: Hlc, remote: Hlc, localWall: int): Hlc {
    if localWall > local.wall && localWall > remote.wall then Hlc(localWall, 0)
    else if local.wall == remote.wall then Hlc(local.wall, Increment(Max(local.logical, remote.logical)))
    else if local.wall > remote.wall then Hlc(local.wall, Increment(local.logical))
    else Hlc(remote.wall, Increment(remote.logical))
  }

  /** The two clock readings one `nextHlc` call makes: its own, then the one inside `update`. */
  datatype Readings = Readings(first: int, second: int)

  function RequestedWall(wallMs: Option<int>, first: int): int {
    if wallMs.Some? && wallMs.value != MIN_LONG then Max(wallMs.value, first) else first
  }

  /** `nextHlc`. */
  function NextHlc(last: Option<Hlc>, wallMs: Option<int>, now: Readings): Hlc {
    var remote := Hlc(RequestedWall(wallMs, now.first), 0);
    if last.None? then remote else Update(last.value, remote, now.second)
  }

  /** The promise of `nextHlc`: strictly later than the last clock and never before the requested time, under
      any clock readings; it fails exactly when the logical counter is full and no clock has moved on. */
  lemma {:induction false} NextHlcIsLater(last: Hlc, wallMs: Option<int>, now: Readings)
    requires IsLong(last.logical)
    ensures var next := NextHlc(Some(last), wallMs, now);
      && (HlcLess(last, next) <==>
        || last.logical < 0x7fff_ffff_ffff_ffff || now.first > last.wall || now.second > last.wall
        || (wallMs.Some? && wallMs.value > last.wall && wallMs.value != -0x8000_0000_0000_0000))
      && (wallMs.Some? ==> wallMs.value == -0x8000_0000_0000_0000 || next.wall >= wallMs.value)
      && next.wall >= now.first
  {
  }

  /** The next clock goes no further than it must: its wall is the latest of the last one, the requested one and the
      clock's; its counter starts at 0 on a reading later than both, at 1 on a requested time later than the last, and
      otherwise is one more than the last (never below 1 if the requested time is the last one's too). */
  lemma {:induction false} NextHlcExactly(last: Hlc, wallMs: Option<int>, now: Readings)
    requires IsLong(last.logical) && last.logical < 0x7fff_ffff_ffff_ffff
    ensures var next := NextHlc(Some(last), wallMs, now);
      var asked := if wallMs.Some? && wallMs.value > now.first && wallMs.value != -0x8000_0000_0000_0000
        then wallMs.value else now.first;
      && (next.wall == last.wall || next.wall == asked || next.wall == now.second)
      && next.wall >= last.wall && next.wall >= asked && next.wall >= now.second
      && next.logical ==
        if next.wall == last.wall then 1 + (if asked == last.wall && last.logical < 0 then 0 else last.logical)
        else if next.wall == asked then 1
        else 0
  {
  }

  // ---------------------------------------------------------------- computeAppendHlcAndPrev

  datatype AppendHlcAndPrev = AppendHlcAndPrev(hlc: Hlc, prevEventIds: seq<Id>, last: Option<Event>)

  /** `computeAppendHlcAndPrev`. `explicitPrev` is the row's own `prev_event_ids`, empty when absent. */
  function ComputeAppend(previous: seq<Event>, wallMs: Option<int>, explicitPrev: seq<Id>, multiTip: bool,
        now: Readings): AppendHlcAndPrev
  {
    var last := if previous == [] then None else Some(previous[|previous| - 1]);
    var hlc := NextHlc(if last.Some? then last.value.hlc else None, wallMs, now);
    var tips := TipList(previous);
    var prevEventIds :=
      if explicitPrev != [] then SortedIds(explicitPrev)
      else if multiTip && |tips| > 1 then SortedIds(tips)
      else if tips != [] then SortedIds(tips)
      else if last.Some? then [last.value.id]
      else [];
    AppendHlcAndPrev(hlc, prevEventIds, last)
  }

  function Appended(previous: seq<Event>, a: AppendHlcAndPrev, id: Id, node: Option<Text>, kind: Option<Text>): Event {
    Event(id, a.prevEventIds, Some(a.hlc), node, kind)
  }

  /** On any acyclic log, dangling parents allowed, an append without explicit parents takes all current tips as
      parents and becomes the only tip, whatever `multiTip` says. */
  lemma {:induction false} AppendJoinsTips(previous: seq<Event>, wallMs: Option<int>, multiTip: bool, now: Readings,
        e: Event)
    requires DistinctIds(previous) && Acyclic(ById(previous)) && Fresh(previous, e.id)
    requires e.prev == ComputeAppend(previous, wallMs, [], multiTip, now).prevEventIds
    ensures Elems(e.prev) == Tips(ById(previous))
    ensures DistinctIds(previous + [e]) && Tips(ById(previous + [e])) == {e.id}
    ensures ById(previous + [e]) == ById(previous)[e.id := e]
    ensures Closed(ById(previous)) ==> Closed(ById(previous + [e]))
  {
    ByIdRows(previous);
    AppendRow(previous, e);
    TipListIsTips(previous);
    if previous != [] {
      SomeTip(previous);
    }
    ReferencedInGraph(previous, e.id);
    JoinTips(ById(previous), e);
  }

  /** Parents that the row brings along win over the tips, whatever `multiTip` says: they are named once each, in
      ascending order. */
  lemma {:induction false} ExplicitParentsNamed(previous: seq<Event>, wallMs: Option<int>, explicitPrev: seq<Id>,
        multiTip: bool, now: Readings)
    requires explicitPrev != []
    ensures var named := ComputeAppend(previous, wallMs, explicitPrev, multiTip, now).prevEventIds;
      && (forall i, j | 0 <= i < j < |named| :: named[i] < named[j])
      && (forall x :: x in named <==> x in explicitPrev)
  {
    var named := ComputeAppend(previous, wallMs, explicitPrev, multiTip, now).prevEventIds;
    forall x ensures x in named <==> x in explicitPrev {
      assert x in Elems(named) <==> x in Elems(explicitPrev);
    }
  }

  /** On any log, an append with explicit parents takes those it names off the tips and, unless it names itself, becomes
      one, so a fork is kept. The log stays without dangling parents exactly when they are all held. */
  lemma {:induction false} AppendKeepsOtherTips(previous: seq<Event>, wallMs: Option<int>, explicitPrev: seq<Id>,
        multiTip: bool, now: Readings, e: Event)
    requires DistinctIds(previous) && Fresh(previous, e.id) && explicitPrev != []
    requires e.prev == ComputeAppend(previous, wallMs, explicitPrev, multiTip, now).prevEventIds
    ensures var g, h := ById(previous), ById(previous + [e]);
      && DistinctIds(previous + [e]) && h == g[e.id := e]
      && Tips(h) == (Tips(g) + {e.id}) - Elems(explicitPrev)
      && (Closed(h) <==> Closed(g) && Elems(explicitPrev) <= g.Keys + {e.id})
  {
    AppendRow(previous, e);
    ReferencedInGraph(previous, e.id);
    ExplicitParentsNamed(previous, wallMs, explicitPrev, multiTip, now);
    ForkedTips(ById(previous), e);
    ClosedAfter(ById(previous), e);
    assert Elems(e.prev) == Elems(explicitPrev);
  }

  lemma {:induction false} ForkedTips(g: Graph, e: Event)
    requires e.id !in g && forall y | y in g :: e.id !in g[y].prev
    ensures Tips(g[e.id := e]) == (Tips(g) + {e.id}) - Elems(e.prev)
  {
    var h := g[e.id := e];
    forall x ensures x in Tips(h) <==> x in (Tips(g) + {e.id}) - Elems(e.prev) {
      assert h[e.id] == e;
      if x in Tips(g) && x !in e.prev {
        assert forall y | y in h :: x !in h[y].prev;
      }
      if x in Tips(h) {
        assert x !in h[e.id].prev;
        assert forall y | y in g :: h[y] == g[y];
      }
    }
  }

  lemma {:induction false} ClosedAfter(g: Graph, e: Event)
    requires e.id !in g && forall y | y in g :: e.id !in g[y].prev
    ensures Closed(g[e.id := e]) <==> Closed(g) && Elems(e.prev) <= g.Keys + {e.id}
  {
    var h := g[e.id := e];
    assert h[e.id] == e && forall y | y in g :: h[y] == g[y];
    if Closed(h) {
      forall x, p | x in g && p in g[x].prev ensures p in g {
        assert p in h[x].prev;
      }
      forall p | p in Elems(e.prev) ensures p in g.Keys + {e.id} {
        assert p in h[e.id].prev;
      }
    }
    if Closed(g) && Elems(e.prev) <= g.Keys + {e.id} {
      forall x, p | x in h && p in h[x].prev ensures p in h {
        assert x == e.id ==> p in Elems(e.prev);
      }
    }
  }

  /** Without explicit parents and tips, as where every event is on a cycle, the last line is named. */
  lemma {:induction false} AppendWithoutTips(previous: seq<Event>, wallMs: Option<int>, multiTip: bool, now: Readings)
    requires Tips(ById(previous)) == {} && DistinctIds(previous)
    ensures ComputeAppend(previous, wallMs, [], multiTip, now).prevEventIds
      == if previous == [] then [] else [previous[|previous| - 1].id]
  {
    TipListIsTips(previous);
    EmptyElems(TipList(previous));
  }

  /** No row has this id and none names it as a parent. */
  ghost predicate Fresh(previous: seq<Event>, id: Id) {
    id !in ById(previous) && id !in Referenced(previous)
  }

  lemma {:induction false} SomeTip(previous: seq<Event>)
    requires DistinctIds(previous) && Acyclic(ById(previous)) && previous != []
    ensures TipList(previous) != []
  {
    TipListIsTips(previous);
    TipsCover(ById(previous), AnyId(previous));
    var tip :| tip in Tips(ById(previous));
    assert tip in Elems(TipList(previous));
  }

  lemma {:induction false} JoinTips(g: Graph, e: Event)
    requires e.id !in g && Elems(e.prev) == Tips(g) && forall y | y in g :: e.id !in g[y].prev
    ensures Tips(g[e.id := e]) == {e.id}
    ensures Closed(g) ==> Closed(g[e.id := e])
  {
    var h := g[e.id := e];
    forall p ensures p in Elems(e.prev) <==> p in e.prev {
    }
    forall x ensures x in Tips(h) <==> x == e.id {
      assert e.id in h && h[e.id] == e;
      if x in g && x !in Tips(g) {
        var y :| y in g && x in g[y].prev;
        assert x in h[y].prev;
      }
    }
  }

  ghost function AnyId(events: seq<Event>): (x: Id)
    requires events != []
    ensures x in ById(events)
  {
    events[|events| - 1].id
  }

  lemma {:induction false} AppendRow(previous: seq<Event>, e: Event)
    requires DistinctIds(previous) && e.id !in ById(previous)
    ensures DistinctIds(previous + [e])
    ensures ById(previous + [e]) == ById(previous)[e.id := e]
  {
    var s := previous + [e];
    assert s[..|previous|] == previous;
    forall i | 0 <= i < |previous| ensures previous[i].id != e.id {
      ByIdAt(previous, i);
    }
  }

  // ---------------------------------------------------------------- single-writer runs

  /** One append request, with the clock readings it will see. */
  datatype Request = Request(id: Id, wallMs: Option<int>, now: Readings,
      multiTip: bool, node: Option<Text>, kind: Option<Text>)

  /** The log after the requests, from empty, each appended without explicit parents. */
  function Log(requests: seq<Request>): (log: seq<Event>)
    ensures |log| == |requests|
  {
    if requests == [] then []
    else
      var r := requests[|requests| - 1];
      var previous := Log(requests[..|requests| - 1]);
      previous + [Appended(previous, ComputeAppend(previous, r.wallMs, [], r.multiTip, r.now), r.id, r.node, r.kind)]
  }

  ghost predicate FreshIds(requests: seq<Request>) {
    forall i, j | 0 <= i < j < |requests| :: requests[i].id != requests[j].id
  }

  /** Row `k` of the log names row `k - 1` alone and is strictly later, at or after the requested time. */
  ghost predicate LinkAt(requests: seq<Request>, log: seq<Event>, k: nat)
    requires k < |log| == |requests|
  {
    && log[k].id == requests[k].id
    && log[k].prev == (if k == 0 then [] else [log[k - 1].id])
    && log[k].hlc.Some? && IsLong(log[k].hlc.value.logical) && log[k].hlc.value.logical <= k
    && (k > 0 && log[k - 1].hlc.Some? ==> HlcLess(log[k - 1].hlc.value, log[k].hlc.value))
    && (requests[k].wallMs.Some? && requests[k].wallMs.value != MIN_LONG
        ==> log[k].hlc.value.wall >= requests[k].wallMs.value)
  }

  ghost predicate Chain(requests: seq<Request>, log: seq<Event>) {
    |log| == |requests| && forall k | 0 <= k < |log| :: LinkAt(requests, log, k)
  }

  /** In a chain every row but the last is named by a later one. */
  lemma {:induction false} ReferencedInChain(requests: seq<Request>, log: seq<Event>, x: Id)
    requires Chain(requests, log)
    ensures x in Referenced(log) <==> exists k :: 0 <= k < |log| - 1 && log[k].id == x
    ensures x in IdsOf(log) <==> exists k :: 0 <= k < |log| && log[k].id == x
  {
    if x in Referenced(log) {
      var m :| 0 <= m < |log| && x in log[m].prev;
      assert LinkAt(requests, log, m);
      assert log[m - 1].id == x;
    }
    if k :| 0 <= k < |log| - 1 && log[k].id == x {
      assert LinkAt(requests, log, k + 1);
      assert log[k + 1] in log && x in log[k + 1].prev;
    }
    if k :| 0 <= k < |log| && log[k].id == x {
      assert log[k] in log;
    }
  }

  lemma {:induction false} ChainTips(requests: seq<Request>, log: seq<Event>)
    requires FreshIds(requests) && Chain(requests, log)
    ensures DistinctIds(log)
    ensures SortedIds(TipList(log)) == if log == [] then [] else [log[|log| - 1].id]
  {
    forall i, j | 0 <= i < j < |log| ensures log[i].id != log[j].id {
      assert LinkAt(requests, log, i) && LinkAt(requests, log, j);
    }
    var n := |log|;
    forall x ensures x in TipList(log) <==> n > 0 && x == log[n - 1].id {
      TipsAmongMembers(log, Referenced(log), x);
      ReferencedInChain(requests, log, x);
    }
    if n > 0 {
      SortedIdsCanonical(TipList(log), [log[n - 1].id]);
      assert Elems(TipList(log)) == Elems([log[n - 1].id]);
      AscendingUnique(SortedIds([log[n - 1].id]), [log[n - 1].id]);
    } else {
      assert TipList(log) == [];
    }
  }

  lemma {:induction false} FreshInit(init: seq<Request>, r: Request)
    requires FreshIds(init + [r])
    ensures FreshIds(init)
  {
    forall i, j | 0 <= i < j < |init| ensures init[i].id != init[j].id {
      assert (init + [r])[i].id != (init + [r])[j].id;
    }
  }

  lemma {:induction false} AppendedParts(previous: seq<Event>, tip: Id, r: Request)
    requires previous != [] && SortedIds(TipList(previous)) == [tip]
    ensures Appended(previous, ComputeAppend(previous, r.wallMs, [], r.multiTip, r.now), r.id, r.node, r.kind)
      == Event(r.id, [tip], Some(NextHlc(previous[|previous| - 1].hlc, r.wallMs, r.now)), r.node, r.kind)
  {
    assert tip in Elems(SortedIds(TipList(previous)));
    assert TipList(previous) != [];
  }

  lemma {:induction false} LaterLink(init: seq<Request>, r: Request, previous: seq<Event>, e: Event)
    requires init != [] && Chain(init, previous) && |init| < MAX_LONG
    requires e == Event(r.id, [previous[|init| - 1].id], Some(NextHlc(previous[|init| - 1].hlc, r.wallMs, r.now)),
      r.node, r.kind)
    ensures LinkAt(init + [r], previous + [e], |init|)
  {
    var n := |init|;
    assert LinkAt(init, previous, n - 1);
    LaterClock(previous[n - 1].hlc.value, r, n);
    LinkAppended(init, r, previous, e);
  }

  lemma {:induction false} LaterClock(last: Hlc, r: Request, n: nat)
    requires IsLong(last.logical) && last.logical < n < MAX_LONG && 0 < n
    ensures var next := NextHlc(Some(last), r.wallMs, r.now);
      && IsLong(next.logical) && next.logical <= n && HlcLess(last, next)
      && (r.wallMs.Some? && r.wallMs.value != MIN_LONG ==> next.wall >= r.wallMs.value)
  {
    NextHlcIsLater(last, r.wallMs, r.now);
  }

  lemma {:induction false} LinkAppended(init: seq<Request>, r: Request, previous: seq<Event>, e: Event)
    requires |init| == |previous| > 0 && e.id == r.id && e.prev == [previous[|previous| - 1].id]
    requires e.hlc.Some? && IsLong(e.hlc.value.logical) && e.hlc.value.logical <= |init|
    requires var last := previous[|previous| - 1]; last.hlc.Some? ==> HlcLess(last.hlc.value, e.hlc.value)
    requires r.wallMs.Some? && r.wallMs.value != MIN_LONG ==> e.hlc.value.wall >= r.wallMs.value
    ensures LinkAt(init + [r], previous + [e], |init|)
  {
  }

  lemma {:induction false} NextLink(init: seq<Request>, r: Request, previous: seq<Event>, e: Event)
    requires FreshIds(init + [r]) && Chain(init, previous) && |init| < MAX_LONG
    requires e == Appended(previous, ComputeAppend(previous, r.wallMs, [], r.multiTip, r.now), r.id, r.node, r.kind)
    ensures LinkAt(init + [r], previous + [e], |init|)
  {
    FreshInit(init, r);
    ChainTips(init, previous);
    if init == [] {
      assert TipList(previous) == [];
    } else {
      AppendedParts(previous, previous[|init| - 1].id, r);
      LaterLink(init, r, previous, e);
    }
  }

  lemma {:induction false} ChainGrows(init: seq<Request>, r: Request, previous: seq<Event>, e: Event)
    requires Chain(init, previous) && LinkAt(init + [r], previous + [e], |init|)
    ensures Chain(init + [r], previous + [e])
  {
    forall k | 0 <= k < |init| ensures LinkAt(init + [r], previous + [e], k) {
      assert LinkAt(init, previous, k);
    }
  }

  /** Every single-writer run, clocks running backwards included, builds a chain whose clocks strictly increase.
      (A run of 2^63 appends would be needed to fill a logical counter.) */
  lemma {:induction false} RunIsChain(requests: seq<Request>)
    requires FreshIds(requests) && |requests| <= MAX_LONG
    ensures Chain(requests, Log(requests))
  {
    if requests != [] {
      var n := |requests| - 1;
      var init, log := requests[..n], Log(requests);
      RunIsChain(init);
      assert requests == init + [requests[n]] && log == Log(init) + [log[n]];
      NextLink(init, requests[n], Log(init), log[n]);
      ChainGrows(init, requests[n], Log(init), log[n]);
    }
  }

  lemma {:induction false} ChainExhausted(log: seq<Event>, ids: seq<Id>)
    requires |log| == |ids| && forall i | 0 <= i < |ids| :: ids[i] == log[i].id
    ensures Ready(ById(log), Elems(ids)) == {}
  {
    ByIdRows(log);
    forall x | x in ById(log) ensures x in Elems(ids) {
      var k :| 0 <= k < |log| && log[k] == ById(log)[x];
      assert ids[k] == x;
    }
  }

  /** A chain has one topological order, its own. */
  lemma {:induction false} ChainOrder(requests: seq<Request>, log: seq<Event>)
    requires FreshIds(requests) && Chain(requests, log)
    ensures DistinctIds(log)
    ensures |Order(ById(log))| == |log| && forall k | 0 <= k < |log| :: Order(ById(log))[k] == log[k].id
  {
    ChainTips(requests, log);
    var ids := seq(|log|, k requires 0 <= k < |log| => log[k].id);
    ChainGreedy(requests, log, ids);
    GreedyUnique(ById(log), ids);
  }

  lemma {:induction false} ChainGreedy(requests: seq<Request>, log: seq<Event>, ids: seq<Id>)
    requires Chain(requests, log) && DistinctIds(log) && |ids| == |log|
    requires forall i | 0 <= i < |ids| :: ids[i] == log[i].id
    ensures Greedy(ById(log), ids)
  {
    forall k | 0 <= k < |ids| ensures IsLeast(ById(log), Ready(ById(log), Elems(ids[..k])), ids[k]) {
      ChainReady(requests, log, ids, k);
    }
    ChainExhausted(log, ids);
  }

  lemma {:induction false} EmittedPlace(log: seq<Event>, ids: seq<Id>, k: nat, i: nat)
    requires DistinctIds(log) && k <= |log| == |ids| && i < |log|
    requires forall j | 0 <= j < |ids| :: ids[j] == log[j].id
    ensures ids[i] in Elems(ids[..k]) <==> i < k
  {
    if i < k {
      assert ids[..k][i] == ids[i];
    }
  }

  lemma {:induction false} ParentsInChain(requests: seq<Request>, log: seq<Event>, ids: seq<Id>, i: nat)
    requires Chain(requests, log) && DistinctIds(log) && i < |log| == |ids|
    requires forall j | 0 <= j < |ids| :: ids[j] == log[j].id
    ensures ids[i] in ById(log) && Parents(ById(log), ids[i]) == if i == 0 then {} else {ids[i - 1]}
  {
    assert LinkAt(requests, log, i);
    ByIdAt(log, i);
    if i > 0 {
      ByIdAt(log, i - 1);
    }
  }

  lemma {:induction false} OnlyNextIsReady(requests: seq<Request>, log: seq<Event>, ids: seq<Id>, k: nat, x: Id)
    requires Chain(requests, log) && DistinctIds(log) && k < |log| == |ids|
    requires forall i | 0 <= i < |ids| :: ids[i] == log[i].id
    requires x in Ready(ById(log), Elems(ids[..k]))
    ensures x == ids[k]
  {
    ByIdRows(log);
    var i :| 0 <= i < |log| && log[i] == ById(log)[x];
    ParentsInChain(requests, log, ids, i);
    EmittedPlace(log, ids, k, i);
    if i > 0 {
      EmittedPlace(log, ids, k, i - 1);
    }
  }

  lemma {:induction false} ChainReady(requests: seq<Request>, log: seq<Event>, ids: seq<Id>, k: nat)
    requires Chain(requests, log) && DistinctIds(log) && k < |log| == |ids|
    requires forall i | 0 <= i < |ids| :: ids[i] == log[i].id
    ensures IsLeast(ById(log), Ready(ById(log), Elems(ids[..k])), ids[k])
  {
    var g, done := ById(log), Elems(ids[..k]);
    ParentsInChain(requests, log, ids, k);
    EmittedPlace(log, ids, k, k);
    if k > 0 {
      EmittedPlace(log, ids, k, k - 1);
    }
    forall x | x in Ready(g, done) ensures x == ids[k] {
      OnlyNextIsReady(requests, log, ids, k, x);
    }
  }

  /** For such a run the canonical order is the append order. */
  lemma {:induction false} RunOrderIsAppendOrder(requests: seq<Request>)
    requires FreshIds(requests) && |requests| <= MAX_LONG
    ensures Chain(requests, Log(requests)) && DistinctIds(Log(requests))
    ensures |Order(ById(Log(requests)))| == |requests|
    ensures forall k | 0 <= k < |requests| :: Order(ById(Log(requests)))[k] == requests[k].id
  {
    RunIsChain(requests);
    ChainOrder(requests, Log(requests));
    forall k | 0 <= k < |requests| ensures Order(ById(Log(requests)))[k] == requests[k].id {
      assert LinkAt(requests, Log(requests), k);
    }
  }

  /** In such a run every row's key exceeds its parent's. */
  lemma {:induction false} SingleWriterMonotone(requests: seq<Request>)
    requires FreshIds(requests) && |requests| <= MAX_LONG
    ensures KeyMonotone(ById(Log(requests)))
  {
    var log := Log(requests);
    RunIsChain(requests);
    ChainTips(requests, log);
    forall x, p | x in ById(log) && p in Parents(ById(log), x) ensures Before(ById(log), p, x) {
      EdgeOfChain(requests, log, x, p);
    }
  }

  lemma {:induction false} EdgeOfChain(requests: seq<Request>, log: seq<Event>, x: Id, p: Id)
    requires Chain(requests, log) && DistinctIds(log) && x in ById(log) && p in Parents(ById(log), x)
    ensures Before(ById(log), p, x)
  {
    var ids := seq(|log|, k requires 0 <= k < |log| => log[k].id);
    ByIdRows(log);
    var i :| 0 <= i < |log| && log[i] == ById(log)[x];
    ParentsInChain(requests, log, ids, i);
    ChainEdge(requests, log, i);
  }

  lemma {:induction false} ChainEdge(requests: seq<Request>, log: seq<Event>, i: nat)
    requires Chain(requests, log) && DistinctIds(log) && 0 < i < |log|
    ensures log[i - 1].id in ById(log) && log[i].id in ById(log) && Before(ById(log), log[i - 1].id, log[i].id)
  {
    assert LinkAt(requests, log, i) && LinkAt(requests, log, i - 1);
    ByIdAt(log, i - 1);
    ByIdAt(log, i);
  }

  // ---------------------------------------------------------------- several writers

  /** The row one append adds. */
  function Row(previous: seq<Event>, multiTip: bool, id: Id, node: Option<Text>, kind: Option<Text>,
        wallMs: Option<int>, now: Readings): Event
  {
    Appended(previous, ComputeAppend(previous, wallMs, [], multiTip, now), id, node, kind)
  }

  /** One append keeps keys growing along edges exactly when every tip's key precedes the new row's. */
  lemma {:induction false} AppendMonotoneIff(previous: seq<Event>, multiTip: bool, id: Id, node: Option<Text>,
        kind: Option<Text>, wallMs: Option<int>, now: Readings)
    requires DistinctIds(previous) && KeyMonotone(ById(previous)) && Fresh(previous, id)
    ensures var h := ById(previous + [Row(previous, multiTip, id, node, kind, wallMs, now)]);
      && id in h && Tips(ById(previous)) <= h.Keys
      && (KeyMonotone(h) <==> forall t | t in Tips(ById(previous)) :: Before(h, t, id))
  {
    var e := Row(previous, multiTip, id, node, kind, wallMs, now);
    MonotoneComplete(ById(previous));
    CompleteIffAcyclic(ById(previous));
    AppendJoinsTips(previous, wallMs, multiTip, now, e);
    MonotoneWithTip(ById(previous), e);
  }

  lemma {:induction false} MonotoneWithTip(g: Graph, e: Event)
    requires KeyMonotone(g) && e.id !in g && Elems(e.prev) == Tips(g) && Tips(g[e.id := e]) == {e.id}
    ensures KeyMonotone(g[e.id := e]) <==> forall t | t in Tips(g) :: Before(g[e.id := e], t, e.id)
  {
    var h := g[e.id := e];
    assert Parents(h, e.id) == Tips(g);
    forall x, p | x in g && p in Parents(h, x) ensures Before(h, p, x) {
      assert e.id !in h[x].prev by {
        assert e.id in Tips(h);
      }
      assert p in Parents(g, x) && Before(g, p, x);
    }
  }

  /** The least clock the next row can get: the last line's, one tick on. */
  function Slowest(last: Hlc): Hlc {
    Hlc(last.wall, Increment(last.logical))
  }

  /** No clock reading and no requested time makes the new clock less than that, and stalled clocks reach it. */
  lemma {:induction false} SlowestClock(last: Hlc, wallMs: Option<int>, now: Readings)
    ensures !HlcLess(NextHlc(Some(last), wallMs, now), Slowest(last))
    ensures NextHlc(Some(last), None, Readings(last.wall - 1, last.wall - 1)) == Slowest(last)
  {
  }

  /** Whether the key of `t` precedes that of a row with this clock, node and id. */
  predicate Behind(g: Graph, t: Id, clock: Hlc, node: Option<Text>, id: Id)
    requires t in g
  {
    Before(g[id := Event(id, [], Some(clock), node, None)], t, id)
  }

  ghost predicate AllBehind(g: Graph, clock: Hlc, node: Option<Text>, id: Id) {
    forall t | t in Tips(g) :: Behind(g, t, clock, node, id)
  }

  lemma {:induction false} AllBehindLater(g: Graph, a: Hlc, b: Hlc, node: Option<Text>, id: Id)
    requires id !in g && AllBehind(g, a, node, id) && !HlcLess(b, a)
    ensures AllBehind(g, b, node, id)
  {
    forall t | t in Tips(g) ensures Behind(g, t, b, node, id) {
      assert Behind(g, t, a, node, id);
    }
  }

  lemma {:induction false} BehindRow(g: Graph, e: Event, clock: Hlc)
    requires e.id !in g && e.hlc == Some(clock)
    ensures (forall t | t in Tips(g) :: Before(g[e.id := e], t, e.id)) <==> AllBehind(g, clock, e.node, e.id)
  {
    forall t | t in Tips(g) ensures Before(g[e.id := e], t, e.id) <==> Behind(g, t, clock, e.node, e.id) {
    }
  }

  ghost predicate StaysMonotone(previous: seq<Event>, multiTip: bool, id: Id, node: Option<Text>, kind: Option<Text>,
        wallMs: Option<int>, now: Readings)
  {
    KeyMonotone(ById(previous + [Row(previous, multiTip, id, node, kind, wallMs, now)]))
  }

  lemma {:induction false} AppendMonotoneByClock(previous: seq<Event>, multiTip: bool, id: Id, node: Option<Text>,
        kind: Option<Text>, wallMs: Option<int>, now: Readings)
    requires previous != [] && DistinctIds(previous) && KeyMonotone(ById(previous)) && Fresh(previous, id)
    ensures StaysMonotone(previous, multiTip, id, node, kind, wallMs, now)
      <==> AllBehind(ById(previous), NextHlc(previous[|previous| - 1].hlc, wallMs, now), node, id)
  {
    var e := Row(previous, multiTip, id, node, kind, wallMs, now);
    AppendMonotoneIff(previous, multiTip, id, node, kind, wallMs, now);
    AppendRow(previous, e);
    BehindRow(ById(previous), e, e.hlc.value);
  }

  /** Under every clock reading and requested time the append keeps keys growing exactly when the last line has a
      clock and every tip's key precedes that of a row one tick after it. */
  lemma {:induction false} AppendAlwaysMonotoneIff(previous: seq<Event>, multiTip: bool, id: Id, node: Option<Text>,
        kind: Option<Text>)
    requires previous != [] && DistinctIds(previous) && KeyMonotone(ById(previous)) && Fresh(previous, id)
    ensures (forall wallMs, now :: StaysMonotone(previous, multiTip, id, node, kind, wallMs, now))
      <==> (previous[|previous| - 1].hlc.Some?
        && AllBehind(ById(previous), Slowest(previous[|previous| - 1].hlc.value), node, id))
  {
    var g, last := ById(previous), previous[|previous| - 1].hlc;
    if last.None? {
      UnclockedAppendMayFail(previous, multiTip, id, node, kind);
    } else {
      var now := Readings(last.value.wall - 1, last.value.wall - 1);
      SlowestClock(last.value, None, now);
      AppendMonotoneByClock(previous, multiTip, id, node, kind, None, now);
      if AllBehind(g, Slowest(last.value), node, id) {
        forall wallMs, now ensures StaysMonotone(previous, multiTip, id, node, kind, wallMs, now) {
          SlowestClock(last.value, wallMs, now);
          AllBehindLater(g, Slowest(last.value), NextHlc(last, wallMs, now), node, id);
          AppendMonotoneByClock(previous, multiTip, id, node, kind, wallMs, now);
        }
      }
    }
  }

  lemma {:induction false} UnclockedAppendMayFail(previous: seq<Event>, multiTip: bool, id: Id, node: Option<Text>,
        kind: Option<Text>)
    requires previous != [] && DistinctIds(previous) && KeyMonotone(ById(previous)) && Fresh(previous, id)
    requires previous[|previous| - 1].hlc.None?
    ensures exists wallMs, now :: !StaysMonotone(previous, multiTip, id, node, kind, wallMs, now)
  {
    var g := ById(previous);
    MonotoneComplete(g);
    CompleteIffAcyclic(g);
    TipsCover(g, AnyId(previous));
    var t :| t in Tips(g);
    var wall := ClockOf(g, t).wall - 1;
    AppendMonotoneByClock(previous, multiTip, id, node, kind, None, Readings(wall, wall));
    assert !Behind(g, t, Hlc(wall, 0), node, id);
    assert !StaysMonotone(previous, multiTip, id, node, kind, None, Readings(wall, wall));
  }

  /** Two writers start a timeline each on its own, one with its clock ahead, and exchange their rows. The next append
      follows the slower clock, so its row comes before one of its own parents. */
  lemma {:induction false} TipAheadOfLastLine()
    ensures var fast := Row([], true, 1, None, None, None, Readings(100, 100));
      var slow := Row([], true, 2, None, None, None, Readings(5, 5));
      var next := Row([fast, slow], true, 3, None, None, None, Readings(6, 6));
      var h := ById([fast, slow, next]);
      && KeyMonotone(ById([fast, slow])) && !KeyMonotone(h)
      && 1 in Elems(next.prev) && 1 in h && 3 in h && Before(h, 3, 1)
  {
    var fast := Row([], true, 1, None, None, None, Readings(100, 100));
    var slow := Row([], true, 2, None, None, None, Readings(5, 5));
    var both := [fast, slow];
    assert fast == Event(1, [], Some(Hlc(100, 0)), None, None) && slow == Event(2, [], Some(Hlc(5, 0)), None, None);
    RootPair(fast, slow);
    var next := Row(both, true, 3, None, None, None, Readings(6, 6));
    AppendMonotoneIff(both, true, 3, None, None, None, Readings(6, 6));
    AppendRow(both, next);
    assert both + [next] == [fast, slow, next];
    AppendJoinsTips(both, None, true, Readings(6, 6), next);
    assert 1 in Tips(ById(both));
  }

  lemma {:induction false} RootPair(x: Event, y: Event)
    requires x.id != y.id && x.prev == [] && y.prev == []
    ensures DistinctIds([x, y]) && ById([x, y]) == map[x.id := x, y.id := y]
    ensures Referenced([x, y]) == {} && Tips(ById([x, y])) == {x.id, y.id}
    ensures KeyMonotone(ById([x, y])) && Acyclic(ById([x, y]))
  {
    TwoRows(x, y);
    RootsAreTips(ById([x, y]));
  }

  lemma {:induction false} RootsAreTips(g: Graph)
    requires forall x | x in g :: g[x].prev == []
    ensures Tips(g) == g.Keys && KeyMonotone(g) && Acyclic(g)
  {
    MonotoneComplete(g);
    CompleteIffAcyclic(g);
  }
}
