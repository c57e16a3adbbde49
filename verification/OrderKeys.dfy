/** The canonical order read off the rows: what decides between two events, field by field. */
module OrderKeys {
  import opened Seqs
  import opened Texts
  import opened Ids
  import opened Events
  import opened Graphs
  import opened CanonicalOrder

  /** Wall clock, then counter, then node name, then id; what a row lacks counts as 0, 0 and the empty name. */
  ghost predicate RowBefore(x: Event, y: Event) {
    var wall, wall' := if x.hlc.Some? then x.hlc.value.wall else 0, if y.hlc.Some? then y.hlc.value.wall else 0;
    var count, count' :=
      if x.hlc.Some? then x.hlc.value.logical else 0, if y.hlc.Some? then y.hlc.value.logical else 0;
    var name: Text, name': Text :=
      if x.node.Some? then x.node.value else [], if y.node.Some? then y.node.value else [];
    || wall < wall'
    || (wall == wall' && count < count')
    || (wall == wall' && count == count' && Smaller(name, name'))
    || (wall == wall' && count == count' && name == name' && x.id < y.id)
  }

  lemma {:induction false} BeforeIsRowBefore(g: Graph, a: Id, b: Id)
    requires Keyed(g) && a in g && b in g
    ensures Before(g, a, b) <==> RowBefore(g[a], g[b])
  {
    LexLessIff(NodeOf(g, a), NodeOf(g, b));
    LexIrreflexive(NodeOf(g, a));
  }

  /** Every parent of `y` that has a row of its own is listed. */
  ghost predicate ParentsListed(rows: seq<Event>, y: Event, listed: seq<Id>) {
    forall p | p in rows && p.id in y.prev :: p.id in listed
  }

  lemma {:induction false} ParentsListedIff(rows: seq<Event>, y: Event, listed: seq<Id>)
    requires DistinctIds(rows) && y in rows
    ensures y.id in ById(rows) && ById(rows)[y.id] == y
    ensures ParentsListed(rows, y, listed) <==> Parents(ById(rows), y.id) <= Elems(listed)
  {
    var g := ById(rows);
    ByIdDistinct(rows);
    forall p | p in Parents(g, y.id) && ParentsListed(rows, y, listed) ensures p in Elems(listed) {
      assert g[p] in rows && g[p].id == p;
    }
    forall p | p in rows && p.id in y.prev && Parents(g, y.id) <= Elems(listed) ensures p.id in listed {
      assert p.id in Parents(g, y.id);
    }
  }

  /** Whenever the later of two listed events could have stood in the place of the earlier one, its parents being
      listed before that place, the earlier one has the smaller key. */
  lemma {:induction false} OrderFollowsKeys(rows: seq<Event>, i: nat, j: nat, x: Event, y: Event)
    requires DistinctIds(rows) && i < j < |Order(ById(rows))| && x in rows && y in rows
    requires x.id == Order(ById(rows))[i] && y.id == Order(ById(rows))[j]
    requires ParentsListed(rows, y, Order(ById(rows))[..i])
    ensures RowBefore(x, y)
  {
    var g, s := ById(rows), Order(ById(rows));
    ByIdDistinct(rows);
    ParentsListedIff(rows, y, s[..i]);
    ParentsListedIff(rows, x, s[..i]);
    OrderIsGreedy(g);
    OrderIsTopological(g);
    NotYet(s, i, j);
    assert s[j] in Ready(g, Elems(s[..i]));
    assert IsLeast(g, Ready(g, Elems(s[..i])), s[i]);
    BeforeIsRowBefore(g, s[i], s[j]);
  }

  lemma {:induction false} NotYet(s: seq<Id>, i: nat, j: nat)
    requires NoDup(s) && i < j < |s|
    ensures s[j] !in Elems(s[..i]) && s[i] != s[j]
  {
  }

  ghost predicate SortedByRow(rows: seq<Event>, order: seq<Id>) {
    forall x, y, i, j | x in rows && y in rows && 0 <= i < j < |order| && x.id == order[i] && y.id == order[j] ::
      RowBefore(x, y)
  }

  /** Rows none of which names another are listed all, sorted by that key. */
  lemma {:induction false} UnrelatedRowsAreSorted(rows: seq<Event>)
    requires DistinctIds(rows) && forall x, y | x in rows && y in rows :: x.id !in y.prev
    ensures var order := Order(ById(rows)); NoDup(order) && Elems(order) == IdsOf(rows) && SortedByRow(rows, order)
  {
    var g, order := ById(rows), Order(ById(rows));
    ByIdDistinct(rows);
    forall x | x in g ensures Parents(g, x) == {} {
      forall p | p in g ensures p !in g[x].prev {
        assert g[p] in rows && g[x] in rows;
      }
    }
    assert KeyMonotone(g);
    MonotoneSorted(g);
    OrderIsTopological(g);
    forall x, y, i, j | x in rows && y in rows && 0 <= i < j < |order| && x.id == order[i] && y.id == order[j]
      ensures RowBefore(x, y)
    {
      OrderFollowsKeys(rows, i, j, x, y);
    }
  }
}
