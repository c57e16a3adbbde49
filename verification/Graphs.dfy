/** Parent paths inside an event graph: reachability, cycles, parent-closed sets. */
module Graphs {
  import opened Seqs
  import opened Ids
  import opened Events

  /** A walk that steps from an event to one of its in-graph parents. */
  ghost predicate IsPath(g: Graph, p: seq<Id>) {
    && |p| > 0
    && (forall i | 0 <= i < |p| :: p[i] in g)
    && (forall i | 0 <= i < |p| - 1 :: p[i + 1] in Parents(g, p[i]))
  }

  ghost predicate PathFromTo(g: Graph, p: seq<Id>, x: Id, y: Id) {
    IsPath(g, p) && p[0] == x && p[|p| - 1] == y
  }

  /** `y` is `x` or an ancestor of `x`. */
  ghost predicate Reaches(g: Graph, x: Id, y: Id) {
    exists p :: PathFromTo(g, p, x, y)
  }

  ghost predicate OnCycle(g: Graph, x: Id) {
    exists p :: PathFromTo(g, p, x, x) && |p| >= 2
  }

  ghost predicate Acyclic(g: Graph) {
    forall x | x in g :: !OnCycle(g, x)
  }

  /** Every parent that any row names is itself in the graph (`!hasDanglingParents`). */
  ghost predicate Closed(g: Graph) {
    forall x | x in g :: forall p | p in g[x].prev :: p in g
  }

  ghost predicate ParentClosed(g: Graph, s: set<Id>) {
    s <= g.Keys && forall x | x in s :: Parents(g, x) <= s
  }

  function Restrict(g: Graph, s: set<Id>): Graph {
    map x | x in g && x in s :: g[x]
  }

  lemma {:induction false} RestrictAll(g: Graph)
    ensures Restrict(g, g.Keys) == g
  {
  }

  lemma {:induction false} ReachSelf(g: Graph, x: Id)
    requires x in g
    ensures Reaches(g, x, x)
  {
    assert PathFromTo(g, [x], x, x);
  }

  lemma {:induction false} ReachTransitive(g: Graph, x: Id, y: Id, z: Id)
    requires Reaches(g, x, y) && Reaches(g, y, z)
    ensures Reaches(g, x, z)
  {
    var p :| PathFromTo(g, p, x, y);
    var q :| PathFromTo(g, q, y, z);
    var r := p + q[1..];
    assert PathFromTo(g, r, x, z);
  }

  lemma {:induction false} ReachParent(g: Graph, x: Id, p: Id)
    requires x in g && p in Parents(g, x)
    ensures Reaches(g, x, p)
  {
    assert PathFromTo(g, [x, p], x, p);
  }

  /** A set closed under parents holds everything reachable from its members. */
  lemma {:induction false} ClosedHoldsPath(g: Graph, s: set<Id>, p: seq<Id>)
    requires IsPath(g, p) && p[0] in s
    requires forall x | x in s && x in g :: Parents(g, x) <= s
    ensures forall i | 0 <= i < |p| :: p[i] in s
  {
    if |p| > 1 {
      var q := p[1..];
      assert IsPath(g, q) by {
        forall i | 0 <= i < |q| - 1 ensures q[i + 1] in Parents(g, q[i]) {
          assert p[i + 1 + 1] in Parents(g, p[i + 1]);
        }
      }
      ClosedHoldsPath(g, s, q);
      forall i | 0 <= i < |p| ensures p[i] in s {
        assert i > 0 ==> p[i] == q[i - 1];
      }
    }
  }

  /** In a non-empty set where every member has a parent in the set, some member lies on a cycle. */
  lemma {:induction false} StuckHasCycle(g: Graph, s: set<Id>, x: Id) returns (y: Id)
    requires x in s && s <= g.Keys
    requires forall z | z in s :: Parents(g, z) * s != {}
    ensures y in s && Reaches(g, x, y) && OnCycle(g, y)
  {
    var p := [x];
    while NoDup(p)
      invariant IsPath(g, p) && Elems(p) <= s && p[0] == x
      invariant NoDup(p) || NoDup(p[..|p| - 1])
      decreases |s| + 1 - |p|
    {
      NoDupBound(p, s);
      var next :| next in Parents(g, p[|p| - 1]) * s;
      ElemsAppend(p, [next]);
      PathGrows(g, p, next);
      p := p + [next];
    }
    var i, j :| 0 <= i < j < |p| && p[i] == p[j];
    RepeatIsCycle(g, p, i, j);
    y := p[i];
    assert y in Elems(p);
  }

  lemma {:induction false} PathGrows(g: Graph, p: seq<Id>, next: Id)
    requires IsPath(g, p) && next in Parents(g, p[|p| - 1])
    ensures IsPath(g, p + [next]) && (p + [next])[0] == p[0] && (p + [next])[..|p|] == p
  {
  }

  lemma {:induction false} RepeatIsCycle(g: Graph, p: seq<Id>, i: nat, j: nat)
    requires IsPath(g, p) && i < j < |p| && p[i] == p[j]
    ensures Reaches(g, p[0], p[i]) && OnCycle(g, p[i])
  {
    assert PathFromTo(g, p[..i + 1], p[0], p[i]);
    assert PathFromTo(g, p[i..j + 1], p[i], p[i]);
  }

  lemma {:induction false} RestrictPath(g: Graph, s: set<Id>, p: seq<Id>)
    requires IsPath(Restrict(g, s), p)
    ensures IsPath(g, p)
  {
    var h := Restrict(g, s);
    forall i | 0 <= i < |p| - 1 ensures p[i + 1] in Parents(g, p[i]) {
      assert p[i + 1] in Parents(h, p[i]);
    }
  }

  lemma {:induction false} RestrictCycle(g: Graph, s: set<Id>, x: Id)
    requires OnCycle(Restrict(g, s), x)
    ensures OnCycle(g, x)
  {
    var p :| PathFromTo(Restrict(g, s), p, x, x) && |p| >= 2;
    RestrictPath(g, s, p);
    assert PathFromTo(g, p, x, x);
  }

  lemma {:induction false} RestrictAcyclic(g: Graph, s: set<Id>)
    requires Acyclic(g)
    ensures Acyclic(Restrict(g, s))
  {
    forall x | x in Restrict(g, s) && OnCycle(Restrict(g, s), x) ensures OnCycle(g, x) {
      RestrictCycle(g, s, x);
    }
  }
}
