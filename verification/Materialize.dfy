/** `MaterializeRunner.kt`: folding a log in canonical order. */
module Materialize {
  import opened Seqs
  import opened Texts
  import opened Ids
  import opened Events
  import opened Graphs
  import opened CanonicalOrder
  import opened Dag
  import opened Branch
  import opened OrderCache

  type Reducers<!S> = map<Text, (S, Event) -> S>

  function Apply<S>(state: S, id: Id, byId: Graph, reducers: Reducers<S>): S {
    if id in byId && byId[id].kind.Some? && byId[id].kind.value in reducers
    then reducers[byId[id].kind.value](state, byId[id])
    else state
  }

  function Fold<S>(order: seq<Id>, byId: Graph, reducers: Reducers<S>, initial: S): S {
    if order == [] then initial
    else Apply(Fold(order[..|order| - 1], byId, reducers, initial), order[|order| - 1], byId, reducers)
  }

  /** The folded state of a log, as a function of its event graph. */
  ghost function StateOf<S>(g: Graph, reducers: Reducers<S>, initial: S): S {
    Fold(Order(g), g, reducers, initial)
  }

  method MaterializeFromEvents<S>(events: seq<Event>, reducers: Reducers<S>, initial: S) returns (state: S,
        order: seq<Id>)
    requires DistinctIds(events)
    ensures order == Order(ById(events))
    ensures state == StateOf(ById(events), reducers, initial)
  {
    order := TopologicalCanonicalOrder(events);
    var byId := IndexById(events);
    state := initial;
    for i := 0 to |order|
      invariant state == Fold(order[..i], byId, reducers, initial)
    {
      assert order[..i + 1][..i] == order[..i];
      var id := order[i];
      if id in byId && byId[id].kind.Some? && byId[id].kind.value in reducers {
        state := reducers[byId[id].kind.value](state, byId[id]);
      }
    }
    assert order[..|order|] == order;
  }

  /** Replicas that hold the same events, in whatever arrangement, reach the same order and the same state. */
  lemma {:induction false} ReplicasMaterializeAlike<S>(a: seq<Event>, b: seq<Event>, reducers: Reducers<S>, initial: S)
    requires DistinctIds(a) && DistinctIds(b) && Elems(a) == Elems(b)
    ensures Order(ById(a)) == Order(ById(b))
    ensures StateOf(ById(a), reducers, initial) == StateOf(ById(b), reducers, initial)
  {
    ByIdIgnoresOrder(a, b);
  }

  lemma {:induction false} FoldAgree<S>(order: seq<Id>, g: Graph, h: Graph, reducers: Reducers<S>, initial: S)
    requires forall x | x in order :: (x in g <==> x in h) && (x in g ==> g[x] == h[x])
    ensures Fold(order, g, reducers, initial) == Fold(order, h, reducers, initial)
  {
    if order != [] {
      var init := order[..|order| - 1];
      assert order == init + [order[|order| - 1]];
      FoldAgree(init, g, h, reducers, initial);
    }
  }

  lemma {:induction false} FoldAppend<S>(a: seq<Id>, b: seq<Id>, g: Graph, reducers: Reducers<S>, initial: S)
    ensures Fold(a + b, g, reducers, initial) == Fold(b, g, reducers, Fold(a, g, reducers, initial))
  {
    if b == [] {
      assert a + b == a;
    } else {
      var init := b[..|b| - 1];
      assert (a + b)[..|a + b| - 1] == a + init;
      FoldAppend(a, init, g, reducers, initial);
    }
  }

  /** From state to state: an event whose type has a reducer is handed to it, any other changes nothing. */
  ghost predicate StatesAlong<S>(order: seq<Id>, byId: Graph, reducers: Reducers<S>, states: seq<S>) {
    && |states| == |order| + 1
    && forall i | 0 <= i < |order| ::
        states[i + 1] ==
          if order[i] !in byId then states[i]
          else
            var row := byId[order[i]];
            match row.kind
            case Some(kind) => if kind in reducers then reducers[kind](states[i], row) else states[i]
            case None => states[i]
  }

  /** The state of a log is reached from the initial one event by event in canonical order. */
  lemma {:induction false} StateStepByStep<S>(order: seq<Id>, byId: Graph, reducers: Reducers<S>,
        initial: S) returns (states: seq<S>)
    ensures StatesAlong(order, byId, reducers, states)
    ensures states[0] == initial && states[|order|] == Fold(order, byId, reducers, initial)
  {
    if order == [] {
      states := [initial];
    } else {
      states := StateStepByStep(order[..|order| - 1], byId, reducers, initial);
      states := states + [Fold(order, byId, reducers, initial)];
    }
  }

  /** Folding one branch out of everything a replica holds equals materializing the branch alone. */
  lemma {:induction false} BranchStateIsLocal<S>(g: Graph, tip: Id, reducers: Reducers<S>, initial: S)
    requires tip in g
    ensures Fold(Filter(Order(g), Ancestors(g, tip)), g, reducers, initial)
      == StateOf(Restrict(g, Ancestors(g, tip)), reducers, initial)
  {
    var h := Restrict(g, Ancestors(g, tip));
    BranchFoldIsBranchOrder(g, tip);
    OrderIsTopological(h);
    FoldAgree(Order(h), g, h, reducers, initial);
  }

  lemma {:induction false} FoldExtends<S>(before: seq<Id>, after: seq<Id>, g: Graph, h: Graph, reducers: Reducers<S>,
        initial: S)
    requires before <= after && Elems(before) <= g.Keys <= h.Keys && g == Restrict(h, g.Keys)
    ensures Fold(after, h, reducers, initial)
      == Fold(after[|before|..], h, reducers, Fold(before, g, reducers, initial))
  {
    forall x | x in before ensures x in g && x in h && g[x] == h[x] {
      assert x in Elems(before);
    }
    FoldAgree(before, g, h, reducers, initial);
    FoldAppend(before, after[|before|..], h, reducers, initial);
    assert before + after[|before|..] == after;
  }

  /** Along any run of the order cache, the next state is the previous state with the new suffix folded in. */
  lemma {:induction false} RunsExtendState<S>(rounds: seq<Round>, next: Round, reducers: Reducers<S>, initial: S)
    requires Run(rounds + [next]) && rounds != [] && !StartsOver(rounds + [next])
    ensures var before, after := OrderAfter(rounds), OrderAfter(rounds + [next]);
      var g, h := ById(rounds[|rounds| - 1].events), ById(next.events);
      && before <= after
      && Fold(after, h, reducers, initial) == Fold(after[|before|..], h, reducers, Fold(before, g, reducers, initial))
  {
    var all, k := rounds + [next], |rounds| - 1;
    assert all[..|all| - 1] == rounds;
    CachedRound(all);
    RunsKeepOrder(all);
    RunsKeepOrder(rounds);
    GrownLog(rounds[k].events, next.events);
    FoldExtends(OrderAfter(rounds), OrderAfter(all), ById(rounds[k].events), ById(next.events), reducers, initial);
  }

  // ---------------------------------------------------------------- replicas that fold the served order

  /** A reducer that notes the events of one kind as they come. */
  function Trail(kind: Text): Reducers<seq<Id>> {
    map[kind := (state: seq<Id>, e: Event) => state + [e.id]]
  }

  lemma {:induction false} TrailOfTwo(g: Graph, a: Id, b: Id, kind: Text)
    requires a in g && b in g && g[a].kind == Some(kind) == g[b].kind && g[a].id == a && g[b].id == b
    ensures Fold([a, b], g, Trail(kind), []) == [a, b]
  {
    assert [a, b][..1] == [a] && [a][..0] == [];
    assert Fold([a], g, Trail(kind), []) == [a];
  }

  /** Two unrelated events again: folding the order each replica is served leaves the two in different states. */
  lemma {:induction false} ReplicasMayFoldDifferently(x: Event, y: Event, kind: Text)
    requires x.id != y.id && x.prev == [] && y.prev == [] && x.kind == Some(kind) == y.kind
    requires Before(map[x.id := x, y.id := y], x.id, y.id)
    ensures var h, late, whole := ById([x, y]), TwoRounds([y], [x, y]), [Round([x, y], false, false)];
      && Run(late) && Run(whole)
      && Fold(OrderAfter(late), h, Trail(kind), []) == [y.id, x.id]
      && Fold(OrderAfter(whole), h, Trail(kind), []) == [x.id, y.id]
  {
    ReplicasMayDisagree(x, y);
    TwoRows(x, y);
    TrailOfTwo(ById([x, y]), x.id, y.id, kind);
    TrailOfTwo(ById([x, y]), y.id, x.id, kind);
    PairGrown(x, y);
  }
}
