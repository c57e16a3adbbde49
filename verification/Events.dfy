/** Event rows, the `byId` index every DAG function builds, and the tie-breaking key order. */
module Events {
  import opened Seqs
  import opened Texts
  import opened Ids

  datatype Hlc = Hlc(wall: int, logical: int)

  /** One event row. `prev` is the raw `prev_event_ids` list: unordered, possibly with repeats.
      A missing clock or node name is `None`. */
  datatype Event = Event(id: Id, prev: seq<Id>, hlc: Option<Hlc>, node: Option<Text>, kind: Option<Text>)

  type Graph = map<Id, Event>

  /** No two rows carry the same id. */
  ghost predicate DistinctIds(events: seq<Event>) {
    forall i, j | 0 <= i < j < |events| :: events[i].id != events[j].id
  }

  ghost predicate Keyed(g: Graph) {
    forall x | x in g :: g[x].id == x
  }

  function IdsOf(events: seq<Event>): set<Id> {
    set e | e in events :: e.id
  }

  /** `byId[event.id] = event`, row after row. */
  function ById(events: seq<Event>): Graph {
    if events == [] then map[]
    else var last := events[|events| - 1]; ById(events[..|events| - 1])[last.id := last]
  }

  method IndexById(events: seq<Event>) returns (byId: Graph)
    ensures byId == ById(events)
  {
    byId := map[];
    for i := 0 to |events|
      invariant byId == ById(events[..i])
    {
      assert events[..i + 1][..i] == events[..i];
      byId := byId[events[i].id := events[i]];
    }
    assert events[..|events|] == events;
  }

  lemma {:induction false} ByIdRows(events: seq<Event>)
    ensures ById(events).Keys == IdsOf(events)
    ensures forall x | x in ById(events) :: ById(events)[x] in events && ById(events)[x].id == x
  {
    if events != [] {
      var init, last := events[..|events| - 1], events[|events| - 1];
      ByIdRows(init);
      assert events == init + [last];
      assert ById(events) == ById(init)[last.id := last];
      assert IdsOf(events) == IdsOf(init) + {last.id} by {
        assert forall e :: e in events <==> e in init || e == last;
      }
    }
  }

  lemma {:induction false} ByIdAt(events: seq<Event>, i: nat)
    requires DistinctIds(events) && i < |events|
    ensures events[i].id in ById(events) && ById(events)[events[i].id] == events[i]
  {
    if i < |events| - 1 {
      ByIdAt(events[..|events| - 1], i);
    }
  }

  lemma {:induction false} ByIdSize(events: seq<Event>)
    requires DistinctIds(events)
    ensures |ById(events)| == |events|
  {
    if events != [] {
      var init, last := events[..|events| - 1], events[|events| - 1];
      ByIdSize(init);
      ByIdRows(init);
      assert last.id !in ById(init).Keys;
      assert ById(events).Keys == ById(init).Keys + {last.id};
    }
  }

  lemma {:induction false} ByIdDistinct(events: seq<Event>)
    requires DistinctIds(events)
    ensures Keyed(ById(events)) && ById(events).Keys == IdsOf(events)
    ensures forall e :: e in events <==> e.id in ById(events) && ById(events)[e.id] == e
    ensures |ById(events)| == |events|
  {
    ByIdRows(events);
    ByIdSize(events);
    forall e | e in events ensures e.id in ById(events) && ById(events)[e.id] == e {
      var i :| 0 <= i < |events| && events[i] == e;
      ByIdAt(events, i);
    }
  }

  lemma {:induction false} TwoRows(x: Event, y: Event)
    requires x.id != y.id
    ensures ById([x, y]) == map[x.id := x, y.id := y] && ById([y]) == map[y.id := y]
  {
    assert [x, y][..1] == [x] && [x][..0] == [] && [y][..0] == [];
    assert ById([x]) == map[x.id := x];
  }

  /** The index of a list with distinct ids is a function of the set of rows: order is forgotten. */
  lemma {:induction false} ByIdIgnoresOrder(a: seq<Event>, b: seq<Event>)
    requires DistinctIds(a) && DistinctIds(b) && Elems(a) == Elems(b)
    ensures ById(a) == ById(b)
  {
    ByIdDistinct(a);
    ByIdDistinct(b);
    assert forall e :: e in a <==> e in Elems(a);
    assert forall e :: e in b <==> e in Elems(b);
    forall x | x in ById(a) ensures x in ById(b) && ById(b)[x] == ById(a)[x] {
      assert ById(a)[x] in b;
    }
    forall x | x in ById(b) ensures x in ById(a) {
      assert ById(b)[x] in a;
    }
  }

  /** The parents of `x` that the graph holds. */
  function Parents(g: Graph, x: Id): set<Id>
    requires x in g
  {
    Elems(g[x].prev) * g.Keys
  }

  function ClockOf(g: Graph, x: Id): Hlc
    requires x in g
  {
    if g[x].hlc.Some? then g[x].hlc.value else Hlc(0, 0)
  }

  function NodeOf(g: Graph, x: Id): Text
    requires x in g
  {
    if g[x].node.Some? then g[x].node.value else []
  }

  predicate HlcLess(a: Hlc, b: Hlc) {
    a.wall < b.wall || (a.wall == b.wall && a.logical < b.logical)
  }

  /** `compareIds(a, b) < 0`: wall, then logical, then node name, then id. */
  predicate Before(g: Graph, a: Id, b: Id)
    requires a in g && b in g
  {
    var l, r := ClockOf(g, a), ClockOf(g, b);
    if l.wall != r.wall then l.wall < r.wall
    else if l.logical != r.logical then l.logical < r.logical
    else if NodeOf(g, a) != NodeOf(g, b) then LexLess(NodeOf(g, a), NodeOf(g, b))
    else a < b
  }

  lemma {:induction false} BeforeTransitive(g: Graph, a: Id, b: Id, c: Id)
    requires a in g && b in g && c in g && Before(g, a, b) && Before(g, b, c)
    ensures Before(g, a, c)
  {
    if LexLess(NodeOf(g, a), NodeOf(g, b)) && LexLess(NodeOf(g, b), NodeOf(g, c)) {
      LexTransitive(NodeOf(g, a), NodeOf(g, b), NodeOf(g, c));
      if NodeOf(g, a) == NodeOf(g, c) {
        LexIrreflexive(NodeOf(g, a));
      }
    }
  }

  /** Any two distinct ids are comparable, in exactly one direction. */
  lemma {:induction false} BeforeTotal(g: Graph, a: Id, b: Id)
    requires a in g && b in g
    ensures Before(g, a, b) <==> a != b && !Before(g, b, a)
  {
    LexTotal(NodeOf(g, a), NodeOf(g, b));
    if LexLess(NodeOf(g, a), NodeOf(g, b)) && LexLess(NodeOf(g, b), NodeOf(g, a)) {
      LexTransitive(NodeOf(g, a), NodeOf(g, b), NodeOf(g, a));
      LexIrreflexive(NodeOf(g, a));
    }
  }

  ghost predicate IsLeast(g: Graph, s: set<Id>, x: Id)
    requires s <= g.Keys
  {
    x in s && forall y | y in s && y != x :: Before(g, x, y)
  }

  lemma {:induction false} LeastExists(g: Graph, s: set<Id>)
    requires s <= g.Keys && s != {}
    ensures exists x :: IsLeast(g, s, x)
  {
    var a :| a in s;
    if s == {a} {
      assert IsLeast(g, s, a);
    } else {
      LeastExists(g, s - {a});
      var m :| IsLeast(g, s - {a}, m);
      BeforeTotal(g, a, m);
      if Before(g, a, m) {
        forall y | y in s && y != a ensures Before(g, a, y) {
          if y != m {
            BeforeTransitive(g, a, m, y);
          }
        }
        assert IsLeast(g, s, a);
      } else {
        assert IsLeast(g, s, m);
      }
    }
  }

  lemma {:induction false} LeastUnique(g: Graph, s: set<Id>, x: Id, y: Id)
    requires s <= g.Keys && IsLeast(g, s, x) && IsLeast(g, s, y)
    ensures x == y
  {
    BeforeTotal(g, x, y);
  }

  /** `ready.poll()`: the head of the priority queue is the least queued id. */
  method ExtractMin(g: Graph, queue: set<Id>) returns (x: Id, rest: set<Id>)
    requires queue <= g.Keys && queue != {}
    ensures IsLeast(g, queue, x) && rest == queue - {x}
  {
    LeastExists(g, queue);
    x :| x in queue && forall y | y in queue && y != x :: Before(g, x, y);
    rest := queue - {x};
  }
}
