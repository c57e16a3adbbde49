/** `Branch.kt`: tips, ancestor and descendant closures, consensus branch selection. */
module Branch {
  import opened Seqs
  import opened Texts
  import opened Ids
  import opened Events
  import opened Graphs
  import opened CanonicalOrder
  import opened Closures
  import opened Dag

  // ---------------------------------------------------------------- specification

  function Referenced(events: seq<Event>): set<Id> {
    set e, p | e in events && p in e.prev :: p
  }

  /** Events that no event names as a parent. */
  function Tips(g: Graph): set<Id> {
    set x | x in g && forall y | y in g :: x !in g[y].prev
  }

  ghost function Ancestors(g: Graph, tip: Id): set<Id> {
    set x | x in g && Reaches(g, tip, x)
  }

  ghost function Descendants(g: Graph, root: Id): set<Id> {
    set x | x in g && Reaches(g, x, root)
  }

  function ParentEdges(g: Graph): Edges {
    map x | x in g :: Parents(g, x)
  }

  function ChildEdges(g: Graph): Edges {
    map x | x in g :: ChildrenIn(g, g.Keys, x)
  }

  // ---------------------------------------------------------------- path sets are least fixed points

  lemma {:induction false} AncestorsLeast(g: Graph, tip: Id)
    requires tip in g
    ensures LeastClosed(ParentEdges(g), {tip}, Ancestors(g, tip))
    ensures ParentClosed(g, Ancestors(g, tip))
  {
    var e, s := ParentEdges(g), Ancestors(g, tip);
    ReachSelf(g, tip);
    forall x, p | x in s && p in Parents(g, x) ensures p in s {
      ReachParent(g, x, p);
      ReachTransitive(g, tip, x, p);
    }
    forall t | ClosedUnder(e, t) && {tip} <= t ensures s <= t {
      forall x | x in s ensures x in t {
        var p :| PathFromTo(g, p, tip, x);
        assert forall y | y in t && y in g :: e[y] <= t;
        ClosedHoldsPath(g, t, p);
      }
    }
  }

  lemma {:induction false} ChildClosedHoldsPath(g: Graph, t: set<Id>, p: seq<Id>)
    requires ClosedUnder(ChildEdges(g), t) && IsPath(g, p) && p[|p| - 1] in t
    ensures p[0] in t
    decreases |p|
  {
    if |p| > 1 {
      var k := |p| - 2;
      assert p[k + 1] in Parents(g, p[k]);
      assert p[k] in ChildEdges(g)[p[k + 1]];
      ChildClosedHoldsPath(g, t, p[..k + 1]);
    }
  }

  lemma {:induction false} DescendantsLeast(g: Graph, root: Id)
    requires root in g
    ensures LeastClosed(ChildEdges(g), {root}, Descendants(g, root))
  {
    var e, s := ChildEdges(g), Descendants(g, root);
    ReachSelf(g, root);
    forall x, c | x in s && c in e[x] ensures c in s {
      ReachParent(g, c, x);
      ReachTransitive(g, c, x, root);
    }
    forall t | ClosedUnder(e, t) && {root} <= t ensures s <= t {
      forall x | x in s ensures x in t {
        var p :| PathFromTo(g, p, x, root);
        ChildClosedHoldsPath(g, t, p);
      }
    }
  }

  // ---------------------------------------------------------------- the stack loops

  /** The parents a loop over `sortedPrevEventIds` pushes: those the graph holds, in sorted order. */
  method InGraph(ids: seq<Id>, byId: Graph) returns (r: seq<Id>)
    ensures r == Filter(ids, byId.Keys)
  {
    r := [];
    for i := 0 to |ids|
      invariant r == Filter(ids[..i], byId.Keys)
    {
      assert ids[..i + 1][..i] == ids[..i];
      if ids[i] in byId {
        r := r + [ids[i]];
      }
    }
    assert ids[..|ids|] == ids;
  }

  /** `ancestorClosureFromTip`: the parents of every visited in-graph event are pushed. */
  method AncestorClosureFromTip(tip: Option<Id>, byId: Graph) returns (out: set<Id>)
    ensures tip.None? ==> out == {}
    ensures tip.Some? && tip.value in byId ==> out == Ancestors(byId, tip.value)
    ensures tip.Some? && tip.value !in byId ==> out == {tip.value}
  {
    out := {};
    if tip.None? {
      return;
    }
    var stack := [tip.value];
    ghost var e, all := ParentEdges(byId), byId.Keys + {tip.value};
    while stack != []
      invariant StackWorking(e, {tip.value}, all, out, stack)
      decreases |all - out|, |stack|
    {
      var id, rest := stack[|stack| - 1], stack[..|stack| - 1];
      if id in out {
        StackSkip(e, {tip.value}, all, out, stack);
        stack := rest;
      } else {
        var pushed := [];
        if id in byId {
          pushed := InGraph(SortedPrevEventIds(byId[id]), byId);
        }
        PushedParents(byId, id, pushed);
        StackVisit(e, {tip.value}, all, out, stack, pushed);
        stack := rest + pushed;
        out := out + {id};
      }
    }
    Finished(e, {tip.value}, all, out);
    AncestorsFound(byId, tip.value, out);
  }

  lemma {:induction false} PushedParents(g: Graph, id: Id, pushed: seq<Id>)
    requires pushed == if id in g then Filter(SortedPrevEventIds(g[id]), g.Keys) else []
    ensures Elems(pushed) == (if id in ParentEdges(g) then ParentEdges(g)[id] else {}) && Elems(pushed) <= g.Keys
  {
    if id in g {
      FilterElems(SortedPrevEventIds(g[id]), g.Keys);
    }
  }

  lemma {:induction false} AncestorsFound(g: Graph, tip: Id, out: set<Id>)
    requires LeastClosed(ParentEdges(g), {tip}, out)
    ensures out == if tip in g then Ancestors(g, tip) else {tip}
  {
    if tip in g {
      AncestorsLeast(g, tip);
      Closures.LeastUnique(ParentEdges(g), {tip}, out, Ancestors(g, tip));
    } else {
      assert ClosedUnder(ParentEdges(g), {tip});
    }
  }

  /** `buildDagChildrenMap`. */
  method BuildDagChildrenMap(byId: Graph) returns (children: map<Id, seq<Id>>)
    requires Keyed(byId)
    ensures ListsChildren(byId, byId.Keys, children)
  {
    children := map[];
    var todo := byId.Keys;
    while todo != {}
      invariant todo <= byId.Keys && ListsChildren(byId, byId.Keys - todo, children)
      decreases todo
    {
      var id :| id in todo;
      var count;
      children, count := AddRow(byId, byId.Keys - todo, id, children);
      assert byId.Keys - todo + {id} == byId.Keys - (todo - {id});
      todo := todo - {id};
    }
    assert byId.Keys - {} == byId.Keys;
  }

  /** `descendantClosureFromTip`: the root and everything after it, empty for a root that is not held. */
  method DescendantClosureFromTip(root: Option<Id>, byId: Graph) returns (out: set<Id>)
    requires Keyed(byId)
    ensures out == if root.Some? && root.value in byId then Descendants(byId, root.value) else {}
  {
    out := {};
    if root.None? || root.value !in byId {
      return;
    }
    var children := BuildDagChildrenMap(byId);
    var stack := [root.value];
    ghost var e := ChildEdges(byId);
    while stack != []
      invariant StackWorking(e, {root.value}, byId.Keys, out, stack)
      decreases |byId.Keys - out|, |stack|
    {
      var id, rest := stack[|stack| - 1], stack[..|stack| - 1];
      if id in out {
        StackSkip(e, {root.value}, byId.Keys, out, stack);
        stack := rest;
      } else {
        ChildListElems(byId, children, stack, id);
        StackVisit(e, {root.value}, byId.Keys, out, stack, ListAt(children, id));
        stack := rest + ListAt(children, id);
        out := out + {id};
      }
    }
    Finished(e, {root.value}, byId.Keys, out);
    DescendantsLeast(byId, root.value);
    Closures.LeastUnique(e, {root.value}, out, Descendants(byId, root.value));
  }

  lemma {:induction false} ChildListElems(g: Graph, children: map<Id, seq<Id>>, stack: seq<Id>, id: Id)
    requires ListsChildren(g, g.Keys, children) && id in stack && Elems(stack) <= g.Keys
    ensures id in ChildEdges(g) && Elems(ListAt(children, id)) == ChildEdges(g)[id] <= g.Keys
  {
    assert id in Elems(stack);
  }

  /** The two loops are dual: walking parents from `y` finds `x` exactly when walking children from `x` finds `y`. */
  lemma {:induction false} ClosuresDual(g: Graph, x: Id, y: Id)
    requires x in g && y in g
    ensures x in Ancestors(g, y) <==> y in Descendants(g, x)
    ensures forall s, t | LeastClosed(ParentEdges(g), {y}, s) && LeastClosed(ChildEdges(g), {x}, t) ::
      x in s <==> y in t
  {
    AncestorsLeast(g, y);
    DescendantsLeast(g, x);
  }

  // ---------------------------------------------------------------- tips and dangling parents

  /** `computeDagTipIdsFromEvents`. */
  method ComputeDagTipIds(events: seq<Event>) returns (tips: seq<Id>)
    ensures tips == TipList(events)
  {
    var referenced := {};
    for i := 0 to |events|
      invariant referenced == Referenced(events[..i])
    {
      assert events[..i + 1] == events[..i] + [events[i]];
      assert forall e :: e in events[..i + 1] <==> e in events[..i] || e == events[i];
      referenced := referenced + Elems(SortedPrevEventIds(events[i]));
    }
    assert events[..|events|] == events;
    tips := [];
    for i := 0 to |events|
      invariant tips == TipsAmong(events[..i], referenced)
    {
      assert events[..i + 1][..i] == events[..i];
      if events[i].id !in referenced {
        tips := tips + [events[i].id];
      }
    }
  }

  function TipsAmong(events: seq<Event>, referenced: set<Id>): seq<Id> {
    if events == [] then []
    else
      var last := events[|events| - 1];
      TipsAmong(events[..|events| - 1], referenced) + (if last.id !in referenced then [last.id] else [])
  }

  function TipList(events: seq<Event>): seq<Id> {
    TipsAmong(events, Referenced(events))
  }

  lemma {:induction false} TipsAmongMembers(events: seq<Event>, referenced: set<Id>, x: Id)
    ensures x in TipsAmong(events, referenced) <==> x in IdsOf(events) && x !in referenced
  {
    if events != [] {
      var init, last := events[..|events| - 1], events[|events| - 1];
      TipsAmongMembers(init, referenced, x);
      assert events == init + [last];
      assert x in IdsOf(events) <==> x in IdsOf(init) || x == last.id;
    }
  }

  lemma {:induction false} ReferencedInGraph(events: seq<Event>, x: Id)
    requires DistinctIds(events)
    ensures x in Referenced(events) <==> exists y :: y in ById(events) && x in ById(events)[y].prev
  {
    ByIdDistinct(events);
    if x in Referenced(events) {
      var e :| e in events && x in e.prev;
      assert e.id in ById(events) && ById(events)[e.id] == e;
    }
    if y :| y in ById(events) && x in ById(events)[y].prev {
      assert ById(events)[y] in events;
    }
  }

  /** The list of tips holds exactly the tips of the graph. */
  lemma {:induction false} TipListIsTips(events: seq<Event>)
    requires DistinctIds(events)
    ensures Elems(TipList(events)) == Tips(ById(events))
  {
    var g, referenced := ById(events), Referenced(events);
    ByIdDistinct(events);
    forall x ensures x in TipList(events) <==> x in Tips(g) {
      TipsAmongMembers(events, referenced, x);
      ReferencedInGraph(events, x);
    }
  }

  /** `hasDanglingParents`. */
  method HasDanglingParents(events: seq<Event>) returns (r: bool)
    requires DistinctIds(events)
    ensures r <==> !Closed(ById(events))
  {
    var byId := IndexById(events);
    ByIdDistinct(events);
    for i := 0 to |events|
      invariant forall k | 0 <= k < i :: ParentsHeld(byId, events[k])
    {
      var parents := SortedPrevEventIds(events[i]);
      for j := 0 to |parents|
        invariant forall m | 0 <= m < j :: parents[m] in byId
      {
        if parents[j] !in byId {
          MissingParent(events, i, parents[j]);
          return true;
        }
      }
      assert Elems(parents) <= byId.Keys;
    }
    AllParentsHeld(events);
    r := false;
  }

  ghost predicate ParentsHeld(g: Graph, e: Event) {
    Elems(e.prev) <= g.Keys
  }

  lemma {:induction false} MissingParent(events: seq<Event>, i: nat, p: Id)
    requires DistinctIds(events) && i < |events| && p in Elems(events[i].prev) && p !in ById(events)
    ensures !Closed(ById(events))
  {
    ByIdAt(events, i);
    assert p in ById(events)[events[i].id].prev;
  }

  lemma {:induction false} AllParentsHeld(events: seq<Event>)
    requires forall k | 0 <= k < |events| :: ParentsHeld(ById(events), events[k])
    ensures Closed(ById(events))
  {
    var g := ById(events);
    ByIdRows(events);
    forall x | x in g ensures Elems(g[x].prev) <= g.Keys {
      var k :| 0 <= k < |events| && events[k] == g[x];
      assert ParentsHeld(g, events[k]);
    }
  }

  lemma {:induction false} TipsCoverFrom(g: Graph, i: nat) returns (tip: Id)
    requires Acyclic(g) && i < |Order(g)|
    ensures tip in Tips(g) && Reaches(g, tip, Order(g)[i])
    decreases |Order(g)| - i
  {
    var s := Order(g);
    CompleteIffAcyclic(g);
    var x := s[i];
    assert x in Elems(s);
    if x in Tips(g) {
      ReachSelf(g, x);
      tip := x;
    } else {
      var c :| c in g && x in g[c].prev;
      assert c in Elems(s);
      var j :| 0 <= j < |s| && s[j] == c;
      assert x in Parents(g, c) && x in s[..j];
      tip := TipsCoverFrom(g, j);
      ReachParent(g, c, x);
      ReachTransitive(g, tip, c, x);
    }
  }

  /** In an acyclic graph the tips' ancestor closures cover every event. */
  lemma {:induction false} TipsCover(g: Graph, x: Id)
    requires Acyclic(g) && x in g
    ensures exists tip :: tip in Tips(g) && x in Ancestors(g, tip)
  {
    CompleteIffAcyclic(g);
    assert x in Elems(Order(g));
    var i :| 0 <= i < |Order(g)| && Order(g)[i] == x;
    var tip := TipsCoverFrom(g, i);
    assert x in Ancestors(g, tip);
  }

  lemma {:induction false} PathShared(g: Graph, h: Graph, p: seq<Id>)
    requires Closed(h) && IsPath(g, p) && p[0] in h
    requires forall x | x in g && x in h :: Elems(g[x].prev) == Elems(h[x].prev)
    ensures p[|p| - 1] in h
    decreases |p|
  {
    if |p| > 1 {
      assert p[0 + 1] in Parents(g, p[0]);
      assert p[1] in Elems(h[p[0]].prev);
      var q := p[1..];
      forall i | 0 <= i < |q| - 1 ensures q[i + 1] in Parents(g, q[i]) {
        assert p[i + 1 + 1] in Parents(g, p[i + 1]);
      }
      PathShared(g, h, q);
    }
  }

  lemma {:induction false} TipsDetermineOneWay(g: Graph, h: Graph)
    requires Acyclic(g) && Closed(h) && Tips(g) <= Tips(h)
    requires forall x | x in g && x in h :: Elems(g[x].prev) == Elems(h[x].prev)
    ensures g.Keys <= h.Keys
  {
    forall x | x in g ensures x in h {
      TipsCover(g, x);
      var tip :| tip in Tips(g) && x in Ancestors(g, tip);
      var p :| PathFromTo(g, p, tip, x);
      PathShared(g, h, p);
    }
  }

  /** Two histories without dangling parents that agree on shared events and have the same tips are the same:
      this is what makes the tips hash a sound cache key. */
  lemma {:induction false} TipsDetermineEvents(g: Graph, h: Graph)
    requires Acyclic(g) && Acyclic(h) && Closed(g) && Closed(h) && Tips(g) == Tips(h)
    requires forall x | x in g && x in h :: Elems(g[x].prev) == Elems(h[x].prev)
    ensures g.Keys == h.Keys
  {
    TipsDetermineOneWay(g, h);
    TipsDetermineOneWay(h, g);
  }

  // ---------------------------------------------------------------- consensus branch

  function Governance(g: Graph, types: set<Text>, s: set<Id>): set<Id> {
    set x | x in s && x in g && g[x].kind.Some? && g[x].kind.value in types
  }

  /** How many governance events lie on the branch that ends at `tip`. */
  ghost function BranchScore(g: Graph, types: set<Text>, tip: Id): nat {
    |Governance(g, types, if tip in g then Ancestors(g, tip) else {})|
  }

  ghost predicate NotBetter(g: Graph, types: set<Text>, a: Id, b: Id) {
    var sa, sb := BranchScore(g, types, a), BranchScore(g, types, b);
    sa < sb || (sa == sb && a <= b)
  }

  ghost predicate IsBestTip(g: Graph, types: set<Text>, tips: set<Id>, best: Option<Id>) {
    match best
    case None => tips == {}
    case Some(b) => b in tips && forall t | t in tips :: NotBetter(g, types, t, b)
  }

  method CountGovernance(byId: Graph, types: set<Text>, closure: set<Id>) returns (score: nat)
    ensures score == |Governance(byId, types, closure)|
  {
    score := 0;
    var todo := closure;
    while todo != {}
      invariant todo <= closure && score == |Governance(byId, types, closure - todo)|
      decreases todo
    {
      var id :| id in todo;
      var was, now := closure - todo, closure - (todo - {id});
      if id in byId && byId[id].kind.Some? && byId[id].kind.value in types {
        assert Governance(byId, types, now) == Governance(byId, types, was) + {id};
        score := score + 1;
      } else {
        assert Governance(byId, types, now) == Governance(byId, types, was);
      }
      todo := todo - {id};
    }
    assert closure - {} == closure;
  }

  /** `selectConsensusBranchTip`: most governance events, then the larger id. */
  method SelectConsensusBranchTip(tips: seq<Id>, byId: Graph, types: set<Text>) returns (best: Option<Id>)
    ensures IsBestTip(byId, types, Elems(tips), best)
  {
    if tips == [] {
      return None;
    }
    if |tips| == 1 {
      return Some(tips[0]);
    }
    var b, bestScore: int := tips[0], -1;
    for i := 0 to |tips|
      invariant i == 0 ==> bestScore == -1
      invariant i > 0 ==> b in tips[..i] && bestScore == BranchScore(byId, types, b)
      invariant forall k | 0 <= k < i :: NotBetter(byId, types, tips[k], b)
    {
      var closure := AncestorClosureFromTip(Some(tips[i]), byId);
      var score := CountGovernance(byId, types, closure);
      assert score == BranchScore(byId, types, tips[i]) by {
        if tips[i] !in byId {
          assert Governance(byId, types, closure) == {} == Governance(byId, types, {});
        }
      }
      if score > bestScore || (score == bestScore && tips[i] > b) {
        bestScore, b := score, tips[i];
      }
      assert tips[..i + 1] == tips[..i] + [tips[i]];
    }
    best := Some(b);
  }

  /** Every replica with the same set of tips picks the same one. */
  lemma {:induction false} BestTipUnique(g: Graph, types: set<Text>, tips: set<Id>, a: Option<Id>, b: Option<Id>)
    requires IsBestTip(g, types, tips, a) && IsBestTip(g, types, tips, b)
    ensures a == b
  {
    if a.Some? && b.Some? {
      assert NotBetter(g, types, a.value, b.value) && NotBetter(g, types, b.value, a.value);
    }
  }

  /** The events of governance types among this one and its ancestors. */
  ghost function GovernanceBehind(g: Graph, types: set<Text>, tip: Id): set<Id> {
    set x | x in g && Reaches(g, tip, x) && g[x].kind.Some? && g[x].kind.value in types
  }

  lemma {:induction false} ScoreCounts(g: Graph, types: set<Text>, tip: Id)
    ensures BranchScore(g, types, tip) == |GovernanceBehind(g, types, tip)|
  {
    var closure := if tip in g then Ancestors(g, tip) else {};
    forall x ensures x in Governance(g, types, closure) <==> x in GovernanceBehind(g, types, tip) {
      if Reaches(g, tip, x) {
        var p :| PathFromTo(g, p, tip, x);
        assert p[0] in g;
      }
    }
    assert Governance(g, types, closure) == GovernanceBehind(g, types, tip);
  }

  /** Every other tip has fewer governance events behind it, or as many and a smaller id. */
  lemma {:induction false} BestTipHasMost(g: Graph, types: set<Text>, tips: set<Id>, best: Id, other: Id)
    requires IsBestTip(g, types, tips, Some(best)) && other in tips && other != best
    ensures best in tips
    ensures var most, others := |GovernanceBehind(g, types, best)|, |GovernanceBehind(g, types, other)|;
      others < most || (others == most && other < best)
  {
    ScoreCounts(g, types, best);
    ScoreCounts(g, types, other);
    assert NotBetter(g, types, other, best);
  }

  lemma {:induction false} BestTipExists(g: Graph, types: set<Text>, tips: set<Id>) returns (best: Option<Id>)
    ensures IsBestTip(g, types, tips, best)
    decreases |tips|
  {
    best := None;
    if t :| t in tips {
      best := BestTipExists(g, types, tips - {t});
      if best.None? || NotBetter(g, types, best.value, t) {
        assert forall x | x in tips && x != t :: x in tips - {t};
        best := Some(t);
      }
    }
  }

  ghost function BestTip(g: Graph, types: set<Text>, tips: set<Id>): Option<Id> {
    if exists b :: IsBestTip(g, types, tips, b) then
      var b :| IsBestTip(g, types, tips, b);
      b
    else None
  }

  lemma {:induction false} IsTheBestTip(g: Graph, types: set<Text>, tips: set<Id>, b: Option<Id>)
    requires IsBestTip(g, types, tips, b)
    ensures b == BestTip(g, types, tips)
  {
    BestTipUnique(g, types, tips, b, BestTip(g, types, tips));
  }

  /** The events a branch selection admits: all of them when no tip is selected. */
  ghost function Allowed(g: Graph, order: seq<Id>, tip: Option<Id>): set<Id> {
    match tip
    case None => Elems(order)
    case Some(t) => if t in g then Ancestors(g, t) else {t}
  }

  /** `authzFoldOrderIds`. */
  method AuthzFoldOrderIds(order: seq<Id>, byId: Graph, tip: Option<Id>) returns (r: seq<Id>)
    ensures r == Filter(order, Allowed(byId, order, tip))
  {
    if tip.None? {
      FilterAll(order, Elems(order));
      return order;
    }
    var allowed := AncestorClosureFromTip(tip, byId);
    r := Filter(order, allowed);
  }

  /** Without a tip the whole order is folded, with an unknown one nothing. */
  lemma {:induction false} FoldWithoutBranch(g: Graph, tip: Option<Id>)
    requires tip.None? || tip.value !in g
    ensures Filter(Order(g), Allowed(g, Order(g), tip)) == if tip.None? then Order(g) else []
  {
    if tip.None? {
      FilterAll(Order(g), Elems(Order(g)));
    } else {
      OrderIsTopological(g);
      FilterElems(Order(g), {tip.value});
      EmptyElems(Filter(Order(g), {tip.value}));
    }
  }

  /** Folding one branch out of everything is the same as ordering that branch alone, whatever else a replica holds. */
  lemma {:induction false} BranchFoldIsBranchOrder(g: Graph, tip: Id)
    requires tip in g
    ensures Filter(Order(g), Allowed(g, Order(g), Some(tip))) == Order(Restrict(g, Ancestors(g, tip)))
  {
    AncestorsLeast(g, tip);
    OrderOfParentClosedPart(g, Ancestors(g, tip));
  }
}
