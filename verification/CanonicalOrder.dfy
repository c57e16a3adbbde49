/** `topologicalCanonicalOrder`: Kahn's algorithm with a total tie-breaker. */
module CanonicalOrder {
  import opened Seqs
  import opened Ids
  import opened Events
  import opened Graphs

  // ---------------------------------------------------------------- specification

  /** The events not yet emitted whose in-graph parents all are. */
  function Ready(g: Graph, done: set<Id>): set<Id> {
    set x | x in g && x !in done && Parents(g, x) <= done
  }

  ghost function Least(g: Graph, s: set<Id>): (x: Id)
    requires s <= g.Keys && s != {}
    ensures IsLeast(g, s, x)
  {
    LeastExists(g, s);
    var x :| IsLeast(g, s, x);
    x
  }

  ghost function KahnFrom(g: Graph, done: set<Id>): seq<Id>
    decreases |g.Keys - done|
  {
    var ready := Ready(g, done);
    if ready == {} then []
    else
      var x := Least(g, ready);
      SubsetSize(g.Keys - (done + {x}), g.Keys - done);
      assert x in g.Keys - done;
      [x] + KahnFrom(g, done + {x})
  }

  ghost function Order(g: Graph): seq<Id> {
    KahnFrom(g, {})
  }

  // ---------------------------------------------------------------- what an order may promise

  /** Each entry is the least event whose parents are listed before it, and nothing more can be listed. */
  ghost predicate Greedy(g: Graph, s: seq<Id>) {
    GreedySoFar(g, s) && Ready(g, Elems(s)) == {}
  }

  ghost predicate GreedySoFar(g: Graph, s: seq<Id>) {
    forall i | 0 <= i < |s| :: IsLeast(g, Ready(g, Elems(s[..i])), s[i])
  }

  /** No repeats, only graph ids, every in-graph parent strictly earlier. */
  ghost predicate Topological(g: Graph, s: seq<Id>) {
    && NoDup(s)
    && (forall x | x in s :: x in g)
    && (forall i | 0 <= i < |s| :: Parents(g, s[i]) <= Elems(s[..i]))
  }

  ghost predicate TopologicalPermutation(g: Graph, s: seq<Id>) {
    Topological(g, s) && Elems(s) == g.Keys
  }

  ghost predicate SortedByKey(g: Graph, s: seq<Id>)
    requires Elems(s) <= g.Keys
  {
    forall i, j | 0 <= i < j < |s| ::
      assert s[i] in Elems(s) && s[j] in Elems(s);
      Before(g, s[i], s[j])
  }

  /** Every child's key exceeds its in-graph parents' keys. */
  ghost predicate KeyMonotone(g: Graph) {
    forall x | x in g :: forall p | p in Parents(g, x) :: Before(g, p, x)
  }

  // ---------------------------------------------------------------- the order is the greedy one, and only that

  lemma {:induction false} KahnFromLeast(g: Graph, done: set<Id>, i: nat)
    requires i < |KahnFrom(g, done)|
    ensures IsLeast(g, Ready(g, done + Elems(KahnFrom(g, done)[..i])), KahnFrom(g, done)[i])
    decreases i
  {
    var x, s := Least(g, Ready(g, done)), KahnFrom(g, done);
    var t := KahnFrom(g, done + {x});
    if i == 0 {
      assert done + Elems(s[..0]) == done;
    } else {
      KahnFromLeast(g, done + {x}, i - 1);
      assert s[..i] == [x] + t[..i - 1];
      ElemsFirst(done, x, t[..i - 1]);
    }
  }

  lemma {:induction false} ElemsFirst(done: set<Id>, x: Id, t: seq<Id>)
    ensures done + Elems([x] + t) == (done + {x}) + Elems(t)
  {
    ElemsAppend([x], t);
  }

  lemma {:induction false} KahnFirst(g: Graph, done: set<Id>) returns (x: Id)
    requires Ready(g, done) != {}
    ensures KahnFrom(g, done) == [x] + KahnFrom(g, done + {x})
    ensures |g.Keys - (done + {x})| < |g.Keys - done|
  {
    x := Least(g, Ready(g, done));
    SubsetSize(g.Keys - (done + {x}), g.Keys - done);
    assert x in g.Keys - done;
  }

  lemma {:induction false} KahnFromExhausts(g: Graph, done: set<Id>)
    ensures Ready(g, done + Elems(KahnFrom(g, done))) == {}
    decreases |g.Keys - done|
  {
    if Ready(g, done) != {} {
      var x := KahnFirst(g, done);
      var rest := KahnFrom(g, done + {x});
      KahnFromExhausts(g, done + {x});
      ElemsFirst(done, x, rest);
      assert KahnFrom(g, done) == [x] + rest;
    }
  }

  lemma {:induction false} OrderIsGreedy(g: Graph)
    ensures Greedy(g, Order(g))
  {
    KahnFromExhausts(g, {});
    var s := Order(g);
    forall i | 0 <= i < |s| ensures IsLeast(g, Ready(g, Elems(s[..i])), s[i]) {
      KahnFromLeast(g, {}, i);
      assert {} + Elems(s[..i]) == Elems(s[..i]);
    }
    assert {} + Elems(s) == Elems(s);
  }

  lemma {:induction false} GreedyPrefix(g: Graph, s: seq<Id>, t: seq<Id>, k: nat)
    requires Greedy(g, s) && Greedy(g, t) && k <= |s| && k <= |t|
    ensures s[..k] == t[..k]
  {
    if k > 0 {
      GreedyPrefix(g, s, t, k - 1);
      LeastUnique(g, Ready(g, Elems(s[..k - 1])), s[k - 1], t[k - 1]);
      assert s[..k] == s[..k - 1] + [s[k - 1]] && t[..k] == t[..k - 1] + [t[k - 1]];
    }
  }

  lemma {:induction false} GreedyLength(g: Graph, s: seq<Id>, t: seq<Id>)
    requires Greedy(g, s) && Greedy(g, t)
    ensures |t| <= |s|
  {
    if |s| < |t| {
      assert s[..|s|] == s;
      var next := t[|s|];
      assert next in Ready(g, Elems(t[..|s|]));
      GreedyPrefix(g, s, t, |s|);
      assert false;
    }
  }

  /** The greedy order is unique: whatever satisfies `Greedy` is `Order(g)`. */
  lemma {:induction false} GreedyUnique(g: Graph, s: seq<Id>)
    requires Greedy(g, s)
    ensures s == Order(g)
  {
    var t := Order(g);
    OrderIsGreedy(g);
    GreedyLength(g, s, t);
    GreedyLength(g, t, s);
    GreedyPrefix(g, s, t, |s|);
    assert s[..|s|] == s && t[..|t|] == t;
  }

  lemma {:induction false} GreedyIsTopological(g: Graph, s: seq<Id>)
    requires Greedy(g, s)
    ensures Topological(g, s)
  {
    forall i, j | 0 <= i < j < |s| ensures s[i] != s[j] {
      assert IsLeast(g, Ready(g, Elems(s[..j])), s[j]);
      assert s[i] in s[..j];
    }
    forall x | x in s ensures x in g {
      var i :| 0 <= i < |s| && s[i] == x;
      assert IsLeast(g, Ready(g, Elems(s[..i])), s[i]);
    }
    forall i | 0 <= i < |s| ensures Parents(g, s[i]) <= Elems(s[..i]) {
      assert IsLeast(g, Ready(g, Elems(s[..i])), s[i]);
    }
  }

  /** On any graph: each id at most once, in-graph parents before their children. */
  lemma {:induction false} OrderIsTopological(g: Graph)
    ensures Topological(g, Order(g))
  {
    OrderIsGreedy(g);
    GreedyIsTopological(g, Order(g));
  }

  // ---------------------------------------------------------------- exactly which events are emitted

  /** Once nothing is ready, whatever is left out waits for a parent that is left out too. */
  lemma {:induction false} MissingParent(g: Graph, done: set<Id>, x: Id) returns (p: Id)
    requires Ready(g, done) == {} && x in g && x !in done
    ensures p in Parents(g, x) && p !in done
  {
    assert x !in Ready(g, done);
    p :| p in Parents(g, x) && p !in done;
  }

  ghost predicate AncestorOnCycle(g: Graph, x: Id) {
    exists y :: Reaches(g, x, y) && OnCycle(g, y)
  }

  /** Along a path the positions in a topological list fall strictly. */
  lemma {:induction false} PathDescends(g: Graph, s: seq<Id>, p: seq<Id>, i: nat) returns (j: nat)
    requires Topological(g, s) && IsPath(g, p) && i < |s| && p[0] == s[i]
    ensures j <= i && s[j] == p[|p| - 1] && (|p| >= 2 ==> j < i)
  {
    if |p| == 1 {
      j := i;
    } else {
      assert p[0 + 1] in Parents(g, p[0]);
      assert p[1] in s[..i];
      var k :| 0 <= k < i && s[..i][k] == p[1];
      var q := p[1..];
      forall m | 0 <= m < |q| - 1 ensures q[m + 1] in Parents(g, q[m]) {
        assert p[m + 1 + 1] in Parents(g, p[m + 1]);
      }
      j := PathDescends(g, s, q, k);
    }
  }

  lemma {:induction false} TopologicalAvoidsCycles(g: Graph, s: seq<Id>, x: Id)
    requires Topological(g, s) && x in s
    ensures !AncestorOnCycle(g, x)
  {
    if y :| Reaches(g, x, y) && OnCycle(g, y) {
      var i :| 0 <= i < |s| && s[i] == x;
      var p :| PathFromTo(g, p, x, y);
      var j := PathDescends(g, s, p, i);
      var q :| PathFromTo(g, q, y, y) && |q| >= 2;
      var k := PathDescends(g, s, q, j);
      assert false;
    }
  }

  /** Cyclic graphs included: an event is emitted exactly when no ancestor of it (itself included) is on a cycle. */
  lemma {:induction false} EmittedExactly(g: Graph, x: Id)
    ensures x in Order(g) <==> x in g && !AncestorOnCycle(g, x)
  {
    OrderIsGreedy(g);
    OrderIsTopological(g);
    var s := Order(g);
    if x in s {
      TopologicalAvoidsCycles(g, s, x);
    } else if x in g {
      var stuck := g.Keys - Elems(s);
      forall z | z in stuck ensures Parents(g, z) * stuck != {} {
        var p := MissingParent(g, Elems(s), z);
        assert p in Parents(g, z) * stuck;
      }
      var y := StuckHasCycle(g, stuck, x);
      assert Reaches(g, x, y) && OnCycle(g, y);
    }
  }

  /** The order lists every event exactly when the graph has no cycle. */
  lemma {:induction false} CompleteIffAcyclic(g: Graph)
    ensures TopologicalPermutation(g, Order(g)) <==> Acyclic(g)
    ensures |Order(g)| == |g| <==> Acyclic(g)
  {
    OrderIsTopological(g);
    var s := Order(g);
    if Acyclic(g) {
      forall x | x in g ensures x in s {
        EmittedExactly(g, x);
      }
      assert Elems(s) == g.Keys;
    }
    if Elems(s) == g.Keys {
      forall x | x in g ensures !OnCycle(g, x) {
        assert x in Elems(s);
        EmittedExactly(g, x);
        ReachSelf(g, x);
      }
    }
    NoDupLength(s);
    SubsetSize(Elems(s), g.Keys);
  }

  // ---------------------------------------------------------------- least among all linear extensions

  /** Any other topological listing of the emitted events first departs from the order by taking a later key. */
  lemma {:induction false} LeastLinearExtension(g: Graph, t: seq<Id>)
    requires Topological(g, t) && Elems(t) == Elems(Order(g)) && t != Order(g)
    ensures exists i | 0 <= i < |t| && i < |Order(g)| ::
      t[..i] == Order(g)[..i] && t[i] in g && Order(g)[i] in g && Before(g, Order(g)[i], t[i])
  {
    var s := Order(g);
    OrderIsGreedy(g);
    OrderIsTopological(g);
    NoDupLength(s);
    NoDupLength(t);
    var i := 0;
    while i < |s| && s[i] == t[i]
      invariant i <= |s| && s[..i] == t[..i]
    {
      i := i + 1;
    }
    assert s == s[..|s|] && t == t[..|t|];
    assert i < |s|;
    assert IsLeast(g, Ready(g, Elems(s[..i])), s[i]);
    assert t[i] in t && t[i] !in t[..i];
    assert t[i] in Ready(g, Elems(s[..i]));
  }

  // ---------------------------------------------------------------- orders of sub-graphs

  lemma {:induction false} RestrictParents(g: Graph, s: set<Id>, x: Id)
    requires ParentClosed(g, s) && x in s
    ensures x in Restrict(g, s) && Parents(Restrict(g, s), x) == Parents(g, x)
  {
    forall p | p in Parents(g, x) ensures p in Parents(Restrict(g, s), x) {
      assert p in s;
    }
  }

  lemma {:induction false} RestrictReady(g: Graph, s: set<Id>, done: set<Id>)
    requires ParentClosed(g, s)
    ensures Ready(Restrict(g, s), done * s) == Ready(g, done) * s
  {
    var h := Restrict(g, s);
    forall x ensures x in Ready(h, done * s) <==> x in Ready(g, done) * s {
      if x in s {
        RestrictParents(g, s, x);
      }
    }
  }

  /** The order of a parent-closed part is the order of the whole, filtered: a replica that holds only
      a branch orders it exactly as a replica that holds everything. */
  lemma {:induction false} OrderOfParentClosedPart(g: Graph, s: set<Id>)
    requires ParentClosed(g, s)
    ensures Order(Restrict(g, s)) == Filter(Order(g), s)
  {
    var h, all := Restrict(g, s), Order(g);
    var f := Filter(all, s);
    OrderIsGreedy(g);
    forall k | 0 <= k < |f| ensures IsLeast(h, Ready(h, Elems(f[..k])), f[k]) {
      var i := FilterPrefix(all, s, k);
      FilterElems(all[..i], s);
      RestrictReady(g, s, Elems(all[..i]));
      assert IsLeast(g, Ready(g, Elems(all[..i])), all[i]);
    }
    FilterElems(all, s);
    RestrictReady(g, s, Elems(all));
    GreedyUnique(h, f);
  }

  lemma {:induction false} MonotoneComplete(g: Graph)
    requires KeyMonotone(g)
    ensures TopologicalPermutation(g, Order(g))
  {
    var s := Order(g);
    OrderIsGreedy(g);
    OrderIsTopological(g);
    var missing := g.Keys - Elems(s);
    if missing != {} {
      var x := Least(g, missing);
      var p := MissingParent(g, Elems(s), x);
      BeforeTotal(g, p, x);
      assert false;
    }
    assert forall x :: x in g.Keys <==> x in missing || x in Elems(s);
  }

  lemma {:induction false} MonotoneSorted(g: Graph)
    requires KeyMonotone(g)
    ensures Elems(Order(g)) == g.Keys && SortedByKey(g, Order(g))
  {
    var s := Order(g);
    OrderIsGreedy(g);
    MonotoneComplete(g);
    forall i, j | 0 <= i < j < |s| ensures s[i] in g && s[j] in g && Before(g, s[i], s[j]) {
      assert s[i] in Elems(s) && s[j] in Elems(s);
      MonotonePair(g, s, i, j);
    }
  }

  lemma {:induction false} MonotonePair(g: Graph, s: seq<Id>, i: nat, j: nat)
    requires KeyMonotone(g) && Greedy(g, s) && i < j < |s| && Elems(s) == g.Keys
    ensures s[i] in Elems(s) && s[j] in Elems(s) && Before(g, s[i], s[j])
    decreases j
  {
    var k := j - 1;
    assert s[i] in Elems(s) && s[j] in Elems(s) && s[k] in Elems(s);
    assert IsLeast(g, Ready(g, Elems(s[..k])), s[k]);
    assert IsLeast(g, Ready(g, Elems(s[..j])), s[j]);
    assert Elems(s[..j]) == Elems(s[..k]) + {s[k]} by {
      assert s[..j] == s[..k] + [s[k]];
    }
    assert Before(g, s[k], s[j]) by {
      if s[j] !in Ready(g, Elems(s[..k])) {
        assert s[k] in Parents(g, s[j]);
      }
    }
    if i < k {
      MonotonePair(g, s, i, k);
      BeforeTransitive(g, s[i], s[k], s[j]);
    }
  }

  lemma {:induction false} SortedLast(g: Graph, s: seq<Id>, x: Id)
    requires Elems(s) <= g.Keys && SortedByKey(g, s) && NoDup(s) && x in s
    ensures s[|s| - 1] in Elems(s) && (x == s[|s| - 1] || Before(g, x, s[|s| - 1]))
  {
    assert s[|s| - 1] in Elems(s);
    var i :| 0 <= i < |s| && s[i] == x;
  }

  lemma {:induction false} SortedInit(g: Graph, s: seq<Id>)
    requires s != [] && Elems(s) <= g.Keys && SortedByKey(g, s) && NoDup(s)
    ensures Elems(s[..|s| - 1]) == Elems(s) - {s[|s| - 1]}
    ensures SortedByKey(g, s[..|s| - 1])
  {
    var a := s[..|s| - 1];
    assert s == a + [s[|s| - 1]];
    forall i, j | 0 <= i < j < |a| ensures a[i] in Elems(s) && a[j] in Elems(s) && Before(g, a[i], a[j]) {
      assert s[i] in Elems(s) && s[j] in Elems(s);
    }
  }

  /** A key-sorted listing of a set is unique. */
  lemma {:induction false} SortedUnique(g: Graph, s: seq<Id>, t: seq<Id>)
    requires Elems(s) == Elems(t) <= g.Keys && SortedByKey(g, s) && SortedByKey(g, t)
    requires NoDup(s) && NoDup(t)
    ensures s == t
  {
    NoDupLength(s);
    NoDupLength(t);
    if s != [] {
      var x, y := s[|s| - 1], t[|t| - 1];
      assert x in Elems(s) && y in Elems(t);
      SortedLast(g, s, y);
      SortedLast(g, t, x);
      BeforeTotal(g, x, y);
      SortedInit(g, s);
      SortedInit(g, t);
      SortedUnique(g, s[..|s| - 1], t[..|t| - 1]);
      assert s == s[..|s| - 1] + [x] && t == t[..|t| - 1] + [y];
    }
  }

  lemma {:induction false} RestrictMonotone(g: Graph, s: set<Id>)
    requires KeyMonotone(g)
    ensures KeyMonotone(Restrict(g, s))
  {
    var h := Restrict(g, s);
    forall x, p | x in h && p in Parents(h, x) ensures Before(h, p, x) {
      assert p in Parents(g, x) && Before(g, p, x);
    }
  }

  lemma {:induction false} RestrictSorted(g: Graph, s: set<Id>, o: seq<Id>)
    requires Elems(o) <= Restrict(g, s).Keys && SortedByKey(Restrict(g, s), o)
    ensures Elems(o) <= g.Keys && SortedByKey(g, o)
  {
    var h := Restrict(g, s);
    forall i, j | 0 <= i < j < |o| ensures o[i] in Elems(o) && o[j] in Elems(o) && Before(g, o[i], o[j]) {
      assert o[i] in Elems(o) && o[j] in Elems(o) && Before(h, o[i], o[j]);
    }
  }

  /** With monotone keys the canonical order is the sort by key, and ordering commutes with dropping any events. */
  lemma {:induction false} MonotoneOrderCommutesWithDrop(g: Graph, s: set<Id>)
    requires KeyMonotone(g)
    ensures Elems(Order(g)) == g.Keys && SortedByKey(g, Order(g))
    ensures Order(Restrict(g, s)) == Filter(Order(g), s)
  {
    var h, all := Restrict(g, s), Order(g);
    MonotoneSorted(g);
    OrderIsTopological(g);
    RestrictMonotone(g, s);
    MonotoneSorted(h);
    OrderIsTopological(h);
    RestrictSorted(g, s, Order(h));
    FilterElems(all, s);
    FilteredSorted(g, all, s);
    SortedUnique(g, Order(h), Filter(all, s));
  }

  lemma {:induction false} FilteredSorted(g: Graph, all: seq<Id>, s: set<Id>)
    requires Elems(all) <= g.Keys && SortedByKey(g, all)
    ensures Elems(Filter(all, s)) <= g.Keys && SortedByKey(g, Filter(all, s))
  {
    var f := Filter(all, s);
    FilterElems(all, s);
    forall i, j | 0 <= i < j < |f| ensures f[i] in g && f[j] in g && Before(g, f[i], f[j]) {
      assert f[i] in Elems(f) && f[j] in Elems(f);
      var k := FilterPrefix(all, s, j);
      assert f[i] in f[..j];
      FilterElems(all[..k], s);
      assert f[i] in Elems(f[..j]) && f[i] in all[..k];
      var m :| 0 <= m < k && all[..k][m] == f[i];
    }
  }
}
