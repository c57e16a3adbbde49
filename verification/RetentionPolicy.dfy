/** `RetentionPolicy.kt`: which events of the consensus branch a retention policy keeps. */
module RetentionPolicy {
  import opened Seqs
  import opened Texts
  import opened Ids
  import opened Events
  import opened Graphs
  import opened CanonicalOrder
  import opened Closures
  import opened Dag
  import opened Branch

  /** The numbers are finite reals; a `NaN` bound is not modelled. */
  datatype Policy = Policy(
    maxDepth: real, cutoffWall: real, anchorTypes: set<Text>, checkpointTip: Option<Id>, branchTip: Option<Id>)

  // ---------------------------------------------------------------- specification

  ghost function BranchOrder(g: Graph, order: seq<Id>, p: Policy): seq<Id> {
    Filter(order, Allowed(g, order, p.branchTip))
  }

  ghost function AfterCheckpoint(g: Graph, branch: set<Id>, checkpoint: Option<Id>): set<Id> {
    if checkpoint.Some? && checkpoint.value in branch && checkpoint.value in g
    then Descendants(g, checkpoint.value) * branch
    else {}
  }

  predicate IsAnchor(g: Graph, types: set<Text>, x: Id) {
    x in g && g[x].kind.Some? && g[x].kind.value in types
  }

  /** The newest anchor event of the branch. */
  function LastAnchor(g: Graph, types: set<Text>, branch: seq<Id>): set<Id> {
    if branch == [] then {}
    else if IsAnchor(g, types, branch[|branch| - 1]) then {branch[|branch| - 1]}
    else LastAnchor(g, types, branch[..|branch| - 1])
  }

  function WallOf(g: Graph, x: Id): int {
    if x in g then ClockOf(g, x).wall else 0
  }

  function Recent(g: Graph, cutoff: real, branch: seq<Id>): set<Id> {
    set x | x in branch && WallOf(g, x) as real >= cutoff
  }

  /** `Double.toInt()`: rounds towards zero. */
  function Truncate(r: real): int {
    if r >= 0.0 then r.Floor else -((-r).Floor)
  }

  function DropFirst(s: seq<Id>, n: nat): seq<Id> {
    if n >= |s| then [] else s[n..]
  }

  /** What the depth bound seeds: nothing unless the branch is longer than the bound. */
  function Deep(branch: seq<Id>, maxDepth: real): seq<Id> {
    if |branch| as real > maxDepth then
      var depth := Truncate(maxDepth);
      if depth >= 0 then TakeLast(branch, depth) else DropFirst(branch, -depth)
    else []
  }

  ghost function Seeds(g: Graph, branch: seq<Id>, p: Policy): set<Id> {
    LastAnchor(g, p.anchorTypes, branch) + Recent(g, p.cutoffWall, branch) + Elems(Deep(branch, p.maxDepth))
  }

  /** Parent edges inside the branch; the checkpoint's descendants are kept without following theirs. */
  function KeepEdges(g: Graph, branch: set<Id>, afterCheckpoint: set<Id>): Edges {
    map x | x in g && x in branch && x !in afterCheckpoint :: Elems(g[x].prev) * branch
  }

  /** The whole branch when nothing seeds the closure, otherwise the least closed set. */
  ghost function KeepIds(g: Graph, order: seq<Id>, p: Policy): set<Id> {
    var branch := BranchOrder(g, order, p);
    var b := Elems(branch);
    var d := AfterCheckpoint(g, b, p.checkpointTip);
    var seeds := d + Seeds(g, branch, p);
    if seeds == {} then b else LeastOf(KeepEdges(g, b, d), seeds, b)
  }

  // ---------------------------------------------------------------- computeRetentionKeepIds

  lemma {:induction false} LastAnchorMember(g: Graph, types: set<Text>, branch: seq<Id>)
    ensures LastAnchor(g, types, branch) <= Elems(branch)
    ensures LastAnchor(g, types, branch) == {} <==> forall x | x in branch :: !IsAnchor(g, types, x)
  {
    if branch != [] {
      var init := branch[..|branch| - 1];
      LastAnchorMember(g, types, init);
      assert branch == init + [branch[|branch| - 1]];
    }
  }

  method CollectSeeds(g: Graph, branch: seq<Id>, p: Policy) returns (seeds: set<Id>)
    ensures seeds == Seeds(g, branch, p)
    ensures seeds <= Elems(branch)
  {
    var anchor: set<Id>, index := {}, |branch|;
    assert branch[..|branch|] == branch;
    while index > 0
      invariant 0 <= index <= |branch|
      invariant anchor == {} && LastAnchor(g, p.anchorTypes, branch) == LastAnchor(g, p.anchorTypes, branch[..index])
    {
      index := index - 1;
      assert branch[..index + 1][..index] == branch[..index];
      if IsAnchor(g, p.anchorTypes, branch[index]) {
        anchor := {branch[index]};
        break;
      }
    }
    assert anchor == LastAnchor(g, p.anchorTypes, branch);
    LastAnchorMember(g, p.anchorTypes, branch);
    var recent: set<Id> := {};
    for i := 0 to |branch|
      invariant recent == Recent(g, p.cutoffWall, branch[..i])
    {
      assert branch[..i + 1] == branch[..i] + [branch[i]];
      if WallOf(g, branch[i]) as real >= p.cutoffWall {
        recent := recent + {branch[i]};
      }
    }
    assert branch[..|branch|] == branch;
    seeds := anchor + recent + Elems(Deep(branch, p.maxDepth));
  }

  lemma {:induction false} StartWorking(g: Graph, b: set<Id>, d: set<Id>, seeds: set<Id>)
    requires d <= b && seeds <= b
    ensures Working(KeepEdges(g, b, d), d + seeds, d, seeds)
  {
  }

  /** `computeRetentionKeepIds`. */
  method ComputeRetentionKeepIds(order: seq<Id>, byId: Graph, p: Policy) returns (keep: set<Id>)
    requires Keyed(byId)
    ensures keep == KeepIds(byId, order, p)
  {
    var branchOrder := AuthzFoldOrderIds(order, byId, p.branchTip);
    var branchSet := Elems(branchOrder);
    var afterCheckpoint: set<Id> := {};
    if p.checkpointTip.Some? && p.checkpointTip.value in branchSet {
      var closure := DescendantClosureFromTip(p.checkpointTip, byId);
      afterCheckpoint := closure * branchSet;
    }
    var ancestorSeeds := CollectSeeds(byId, branchOrder, p);
    keep := DrainSeeds(byId, branchSet, afterCheckpoint, ancestorSeeds);
    KeepIdsFound(byId, order, p, keep);
    if keep == {} {
      keep := branchSet;
    }
  }

  lemma {:induction false} KeepIdsFound(g: Graph, order: seq<Id>, p: Policy, keep: set<Id>)
    requires var b := Elems(BranchOrder(g, order, p));
      var d := AfterCheckpoint(g, b, p.checkpointTip);
      var seeds := d + Seeds(g, BranchOrder(g, order, p), p);
      LeastClosed(KeepEdges(g, b, d), seeds, keep) && keep <= b && (keep == {} <==> seeds == {})
    ensures KeepIds(g, order, p) == if keep == {} then Elems(BranchOrder(g, order, p)) else keep
  {
    var b := Elems(BranchOrder(g, order, p));
    var d := AfterCheckpoint(g, b, p.checkpointTip);
    LeastIsLeastOf(KeepEdges(g, b, d), d + Seeds(g, BranchOrder(g, order, p), p), b, keep);
  }

  /** The stack loop of the retention closure, over the ids of `seeds` in some order. */
  method DrainSeeds(byId: Graph, branchSet: set<Id>, afterCheckpoint: set<Id>, seeds: set<Id>) returns (keep: set<Id>)
    requires afterCheckpoint <= branchSet && seeds <= branchSet
    ensures LeastClosed(KeepEdges(byId, branchSet, afterCheckpoint), afterCheckpoint + seeds, keep)
    ensures keep <= branchSet
    ensures keep == {} <==> afterCheckpoint + seeds == {}
  {
    ghost var e, roots := KeepEdges(byId, branchSet, afterCheckpoint), afterCheckpoint + seeds;
    var stack := ListOf(seeds);
    keep := afterCheckpoint;
    StartWorking(byId, branchSet, afterCheckpoint, seeds);
    while stack != []
      invariant StackWorking(e, roots, branchSet, keep, stack) && afterCheckpoint <= keep
      decreases |branchSet - keep|, |stack|
    {
      var id, rest := stack[|stack| - 1], stack[..|stack| - 1];
      assert id in Elems(stack);
      if id !in branchSet || id in keep {
        StackSkip(e, roots, branchSet, keep, stack);
        stack := rest;
      } else {
        var pushed := [];
        if id in byId {
          pushed := Filter(SortedPrevEventIds(byId[id]), branchSet);
          FilterElems(SortedPrevEventIds(byId[id]), branchSet);
        }
        StackVisit(e, roots, branchSet, keep, stack, pushed);
        stack := rest + pushed;
        keep := keep + {id};
      }
    }
    Finished(e, roots, branchSet, keep);
    if roots == {} {
      assert ClosedUnder(e, {});
    }
  }

  method ListOf(s: set<Id>) returns (r: seq<Id>)
    ensures Elems(r) == s
  {
    r := [];
    var todo := s;
    while todo != {}
      invariant todo <= s && Elems(r) == s - todo
      decreases todo
    {
      var x :| x in todo;
      ElemsAppend(r, [x]);
      r, todo := r + [x], todo - {x};
    }
  }

  // ---------------------------------------------------------------- which places of the branch are seeds

  /** The event's type is one of these. */
  predicate OfType(g: Graph, types: set<Text>, x: Id) {
    x in g && match g[x].kind case Some(kind) => kind in types case None => false
  }

  /** The event's wall clock, 0 if it has none, is not before the cutoff. */
  predicate NotBefore(g: Graph, cutoff: real, x: Id) {
    (if x in g then match g[x].hlc case Some(hlc) => hlc.wall case None => 0 else 0) as real >= cutoff
  }

  ghost predicate NewestAnchor(g: Graph, types: set<Text>, branch: seq<Id>, i: nat)
    requires i < |branch|
  {
    OfType(g, types, branch[i]) && forall j | i < j < |branch| :: !OfType(g, types, branch[j])
  }

  lemma {:induction false} LastAnchorAt(g: Graph, types: set<Text>, branch: seq<Id>, i: nat)
    requires NoDup(branch) && i < |branch|
    ensures branch[i] in LastAnchor(g, types, branch) <==> NewestAnchor(g, types, branch, i)
  {
    var k := |branch| - 1;
    if i < k && !IsAnchor(g, types, branch[k]) {
      LastAnchorAt(g, types, branch[..k], i);
      assert forall j | i < j < k :: branch[..k][j] == branch[j];
    } else if i == k && !IsAnchor(g, types, branch[k]) {
      LastAnchorMember(g, types, branch[..k]);
    }
  }

  lemma {:induction false} TruncatesTowardsZero(r: real)
    ensures r >= 0.0 ==> Truncate(r) as real <= r < Truncate(r) as real + 1.0
    ensures r <= 0.0 ==> Truncate(r) as real - 1.0 < r <= Truncate(r) as real
  {
  }

  lemma {:induction false} PlaceInTail(s: seq<Id>, n: nat, i: nat)
    requires NoDup(s) && n <= |s| && i < |s|
    ensures s[i] in Elems(s[n..]) <==> i >= n
  {
    if i >= n {
      assert s[n..][i - n] == s[i];
    }
  }

  /** Depth seeds by place: as many of the newest events as the bound, rounded towards zero, says; below zero it
      says how many of the oldest to skip instead. */
  lemma {:induction false} DeepAt(branch: seq<Id>, maxDepth: real, i: nat)
    requires NoDup(branch) && i < |branch|
    ensures branch[i] in Elems(Deep(branch, maxDepth)) <==>
      && |branch| as real > maxDepth
      && WithinDepth(|branch|, Truncate(maxDepth), i)
  {
    var depth := Truncate(maxDepth);
    if depth >= 0 {
      PlaceInTail(branch, if depth >= |branch| then 0 else |branch| - depth, i);
    } else {
      PlaceInTail(branch, if -depth >= |branch| then |branch| else -depth, i);
    }
    WholeAndNone(branch);
  }

  predicate WithinDepth(length: nat, depth: int, i: nat) {
    if depth >= 0 then length - i <= depth else i >= -depth
  }

  lemma {:induction false} WholeAndNone(s: seq<Id>)
    ensures s[0..] == s && s[|s|..] == []
  {
  }

  /** An event of the branch is a seed exactly when it is the newest anchor, is recent enough, or lies within the
      depth bound of a branch that exceeds it. */
  lemma {:induction false} SeedAt(g: Graph, branch: seq<Id>, p: Policy, i: nat)
    requires NoDup(branch) && i < |branch|
    ensures branch[i] in Seeds(g, branch, p) <==>
      || NewestAnchor(g, p.anchorTypes, branch, i)
      || NotBefore(g, p.cutoffWall, branch[i])
      || (|branch| as real > p.maxDepth && WithinDepth(|branch|, Truncate(p.maxDepth), i))
  {
    LastAnchorAt(g, p.anchorTypes, branch, i);
    DeepAt(branch, p.maxDepth, i);
  }

  // ---------------------------------------------------------------- what retention guarantees

  /** The kept set is the least part of the branch that holds the seeds and, outside the checkpoint's
      descendants, the in-branch parents of everything it holds. */
  lemma {:induction false} KeepIsLeast(g: Graph, order: seq<Id>, p: Policy)
    ensures var b := Elems(BranchOrder(g, order, p));
      var d := AfterCheckpoint(g, b, p.checkpointTip);
      var seeds := d + Seeds(g, BranchOrder(g, order, p), p);
      && KeepIds(g, order, p) <= b
      && (seeds == {} ==> KeepIds(g, order, p) == b)
      && (seeds != {} ==> LeastClosed(KeepEdges(g, b, d), seeds, KeepIds(g, order, p)))
  {
    var branch := BranchOrder(g, order, p);
    var b := Elems(branch);
    var d := AfterCheckpoint(g, b, p.checkpointTip);
    LastAnchorMember(g, p.anchorTypes, branch);
    LeastOfIsLeast(KeepEdges(g, b, d), d + Seeds(g, branch, p), b);
  }

  /** The branch of a canonical order is closed under in-graph parents. */
  lemma {:induction false} BranchParentClosed(g: Graph, p: Policy)
    ensures ParentClosed(g, Elems(BranchOrder(g, Order(g), p)))
  {
    var order := Order(g);
    var allowed := Allowed(g, order, p.branchTip);
    OrderIsTopological(g);
    FilterElems(order, allowed);
    if p.branchTip.Some? && p.branchTip.value in g {
      AncestorsLeast(g, p.branchTip.value);
    }
    forall x, q | x in Elems(order) * allowed && q in Parents(g, x) ensures q in Elems(order) * allowed {
      var i :| 0 <= i < |order| && order[i] == x;
      assert q in order[..i];
    }
  }

  /** Without a checkpoint the kept part is closed under in-graph parents, so a log without dangling
      parents still has none, and the kept events stand in their own canonical order. */
  lemma {:induction false} RetentionWithoutCheckpoint(g: Graph, p: Policy)
    requires p.checkpointTip.None?
    ensures ParentClosed(g, KeepIds(g, Order(g), p))
    ensures Closed(g) ==> Closed(Restrict(g, KeepIds(g, Order(g), p)))
    ensures Filter(Order(g), KeepIds(g, Order(g), p)) == Order(Restrict(g, KeepIds(g, Order(g), p)))
  {
    var b, keep := Elems(BranchOrder(g, Order(g), p)), KeepIds(g, Order(g), p);
    KeepIsLeast(g, Order(g), p);
    BranchParentClosed(g, p);
    forall x, q | x in keep && q in Parents(g, x) ensures q in keep {
      assert q in b;
      assert keep != b ==> q in KeepEdges(g, b, {})[x];
    }
    OrderOfParentClosedPart(g, keep);
    if Closed(g) {
      forall x, q | x in keep && q in g[x].prev ensures q in keep {
        assert q in Parents(g, x);
      }
    }
  }

  // ---------------------------------------------------------------- with a checkpoint

  ghost function BranchIds(g: Graph, p: Policy): set<Id> {
    Elems(BranchOrder(g, Order(g), p))
  }

  /** The checkpoint's descendants in the branch. */
  ghost function Passed(g: Graph, p: Policy): set<Id> {
    AfterCheckpoint(g, BranchIds(g, p), p.checkpointTip)
  }

  /** The checkpoint counts only if it lies in the branch; it passes itself and what it is an ancestor of there. */
  lemma {:induction false} PassedExactly(g: Graph, p: Policy, x: Id)
    ensures x in Passed(g, p) <==>
      && p.checkpointTip.Some? && p.checkpointTip.value in BranchIds(g, p)
      && x in BranchIds(g, p) && Reaches(g, x, p.checkpointTip.value)
  {
    BranchParentClosed(g, p);
  }

  ghost function SeedIds(g: Graph, p: Policy): set<Id> {
    Seeds(g, BranchOrder(g, Order(g), p), p)
  }

  ghost function KeptIds(g: Graph, p: Policy): set<Id> {
    KeepIds(g, Order(g), p)
  }

  /** `q` is an ancestor of a seed that the checkpoint has not passed. */
  ghost predicate UnderOpenSeed(g: Graph, p: Policy, q: Id) {
    exists s :: s in SeedIds(g, p) && s !in Passed(g, p) && q in Ancestors(g, s)
  }

  lemma {:induction false} SeedsInBranch(g: Graph, p: Policy)
    ensures SeedIds(g, p) <= BranchIds(g, p) && Passed(g, p) <= BranchIds(g, p) <= g.Keys
    ensures ParentClosed(g, BranchIds(g, p))
  {
    LastAnchorMember(g, p.anchorTypes, BranchOrder(g, Order(g), p));
    BranchParentClosed(g, p);
  }

  /** Whatever has an ancestor among the checkpoint's descendants is one itself. */
  lemma {:induction false} PassedUpwards(g: Graph, p: Policy, s: Id, x: Id)
    requires s in BranchIds(g, p) && x in Passed(g, p) && x in Ancestors(g, s)
    ensures s in Passed(g, p)
  {
    SeedsInBranch(g, p);
    ReachTransitive(g, s, x, p.checkpointTip.value);
  }

  /** Closing under the code's edges from an open seed goes all the way up. */
  lemma {:induction false} ClosedHoldsAncestors(g: Graph, p: Policy, t: set<Id>, s: Id)
    requires ClosedUnder(KeepEdges(g, BranchIds(g, p), Passed(g, p)), t)
    requires s in t && s in BranchIds(g, p) && s !in Passed(g, p)
    ensures Ancestors(g, s) <= t
  {
    SeedsInBranch(g, p);
    AncestorsLeast(g, s);
    ReachSelf(g, s);
    var u := Ancestors(g, s) * t * BranchIds(g, p);
    forall x | x in u && x in ParentEdges(g) ensures ParentEdges(g)[x] <= u {
      if x in Passed(g, p) {
        PassedUpwards(g, p, s, x);
      }
      assert Parents(g, x) <= KeepEdges(g, BranchIds(g, p), Passed(g, p))[x];
      assert Parents(g, x) <= Ancestors(g, s);
    }
    assert ClosedUnder(ParentEdges(g), u) && {s} <= u;
  }

  lemma {:induction false} OpenSeedsClosed(g: Graph, p: Policy, s: set<Id>)
    requires forall q :: q in s <==> q in Passed(g, p) || UnderOpenSeed(g, p, q)
    ensures ClosedUnder(KeepEdges(g, BranchIds(g, p), Passed(g, p)), s)
    ensures SeedIds(g, p) <= s
  {
    var e := KeepEdges(g, BranchIds(g, p), Passed(g, p));
    SeedsInBranch(g, p);
    forall x, q | x in s && x in e && q in e[x] ensures q in s {
      var seed :| seed in SeedIds(g, p) && seed !in Passed(g, p) && x in Ancestors(g, seed);
      AncestorsLeast(g, seed);
      assert q in Parents(g, x);
      assert q in Ancestors(g, seed);
    }
    forall x | x in SeedIds(g, p) ensures x in s {
      ReachSelf(g, x);
      assert x in Ancestors(g, x);
    }
  }

  /** What is kept: the checkpoint's descendants and the ancestors of the seeds outside them; the whole branch if
      there are neither. */
  lemma {:induction false} KeptExactly(g: Graph, p: Policy, q: Id)
    ensures q in KeptIds(g, p) <==>
      if Passed(g, p) + SeedIds(g, p) == {} then q in BranchIds(g, p)
      else q in Passed(g, p) || UnderOpenSeed(g, p, q)
  {
    KeepIsLeast(g, Order(g), p);
    if Passed(g, p) + SeedIds(g, p) != {} {
      if q in KeptIds(g, p) {
        KeptIsOpen(g, p, q);
      }
      if UnderOpenSeed(g, p, q) {
        var seed :| seed in SeedIds(g, p) && seed !in Passed(g, p) && q in Ancestors(g, seed);
        SeedsInBranch(g, p);
        ClosedHoldsAncestors(g, p, KeptIds(g, p), seed);
      }
    }
  }

  lemma {:induction false} KeptIsOpen(g: Graph, p: Policy, q: Id)
    requires Passed(g, p) + SeedIds(g, p) != {} && q in KeptIds(g, p)
    ensures q in Passed(g, p) || UnderOpenSeed(g, p, q)
  {
    var s := set x | x in g && (x in Passed(g, p) || UnderOpenSeed(g, p, x));
    KeepIsLeast(g, Order(g), p);
    SeedsInBranch(g, p);
    OpenSeedsClosed(g, p, s);
    assert KeptIds(g, p) <= s;
  }

  /** A kept event outside the checkpoint's descendants keeps all its parents. */
  lemma {:induction false} RetentionWithCheckpoint(g: Graph, p: Policy, x: Id)
    requires x in KeptIds(g, p) && x !in Passed(g, p)
    ensures x in g && Parents(g, x) <= KeptIds(g, p)
  {
    KeepIsLeast(g, Order(g), p);
    SeedsInBranch(g, p);
    forall q | q in Parents(g, x) ensures q in KeptIds(g, p) {
      assert q in BranchIds(g, p);
      assert KeptIds(g, p) != BranchIds(g, p) ==> q in KeepEdges(g, BranchIds(g, p), Passed(g, p))[x];
    }
  }

  /** Every parent a passed event has outside the passed ones is an ancestor of a seed outside them. */
  ghost predicate PassedParentsSeeded(g: Graph, p: Policy) {
    forall x, q | x in Passed(g, p) && x in g && q in Parents(g, x) && q !in Passed(g, p) :: UnderOpenSeed(g, p, q)
  }

  lemma {:induction false} PassedParentKept(g: Graph, p: Policy, x: Id, q: Id)
    requires x in Passed(g, p)
    ensures q in KeptIds(g, p) <==> q in Passed(g, p) || UnderOpenSeed(g, p, q)
  {
    KeptExactly(g, p, q);
    assert x in Passed(g, p) + SeedIds(g, p);
  }

  lemma {:induction false} PassedKept(g: Graph, p: Policy, x: Id)
    requires x in Passed(g, p)
    ensures x in KeptIds(g, p) && x in g
  {
    PassedParentKept(g, p, x, x);
    SeedsInBranch(g, p);
  }

  lemma {:induction false} ParentsSeeded(g: Graph, p: Policy)
    requires ParentClosed(g, KeptIds(g, p))
    ensures PassedParentsSeeded(g, p)
  {
    forall x, q | x in Passed(g, p) && x in g && q in Parents(g, x) && q !in Passed(g, p)
      ensures UnderOpenSeed(g, p, q)
    {
      PassedKept(g, p, x);
      PassedParentKept(g, p, x, q);
    }
  }

  lemma {:induction false} SeededParents(g: Graph, p: Policy, x: Id)
    requires PassedParentsSeeded(g, p) && x in KeptIds(g, p)
    ensures x in g && Parents(g, x) <= KeptIds(g, p)
  {
    if x in Passed(g, p) {
      PassedKept(g, p, x);
      forall q | q in Parents(g, x) ensures q in KeptIds(g, p) {
        PassedParentKept(g, p, x, q);
      }
    } else {
      RetentionWithCheckpoint(g, p, x);
    }
  }

  /** The kept part is closed under in-graph parents exactly under that condition. */
  lemma {:induction false} KeptParentClosedIff(g: Graph, p: Policy)
    ensures ParentClosed(g, KeptIds(g, p)) <==> PassedParentsSeeded(g, p)
  {
    if PassedParentsSeeded(g, p) {
      forall x | x in KeptIds(g, p) ensures x in g && Parents(g, x) <= KeptIds(g, p) {
        SeededParents(g, p, x);
      }
    } else if ParentClosed(g, KeptIds(g, p)) {
      ParentsSeeded(g, p);
    }
  }

  lemma {:induction false} ClosedPartIff(g: Graph, s: set<Id>)
    requires Closed(g) && s <= g.Keys
    ensures Closed(Restrict(g, s)) <==> ParentClosed(g, s)
  {
    var h := Restrict(g, s);
    if Closed(h) {
      forall x, q | x in s && q in Parents(g, x) ensures q in s {
        assert x in h && q in h[x].prev;
      }
    }
    if ParentClosed(g, s) {
      forall x, q | x in h && q in h[x].prev ensures q in h {
        assert q in Parents(g, x);
      }
    }
  }

  /** A log without dangling parents still has none after retention exactly when every parent of the checkpoint's
      descendants outside them is an ancestor of a seed outside them. */
  lemma {:induction false} RetentionClosedIff(g: Graph, p: Policy)
    requires Closed(g)
    ensures Closed(Restrict(g, KeptIds(g, p))) <==> PassedParentsSeeded(g, p)
  {
    KeepIsLeast(g, Order(g), p);
    SeedsInBranch(g, p);
    ClosedPartIff(g, KeptIds(g, p));
    KeptParentClosedIff(g, p);
  }

  // ---------------------------------------------------------------- when a branch loses nothing

  /** The depth bound seeds something. */
  predicate DepthSeeds(length: nat, maxDepth: real) {
    length > 0 && length as real > maxDepth && WithinDepth(length, Truncate(maxDepth), length - 1)
  }

  /** An anchor, or recent enough. */
  predicate Wanted(g: Graph, p: Policy, x: Id) {
    OfType(g, p.anchorTypes, x) || NotBefore(g, p.cutoffWall, x)
  }

  /** In a topological list an event stands behind all its ancestors. */
  lemma {:induction false} AncestorsEarlier(g: Graph, s: seq<Id>, i: nat)
    requires Topological(g, s) && i < |s|
    ensures Ancestors(g, s[i]) <= Elems(s[..i + 1])
  {
    var t := Elems(s[..i + 1]);
    assert s[i] in s && s[..i + 1][i] == s[i];
    AncestorsLeast(g, s[i]);
    forall x | x in t ensures Parents(g, x) <= t {
      var k :| 0 <= k < i + 1 && s[..i + 1][k] == x;
      assert s[..k] <= s[..i + 1];
      ElemsPrefix(s[..i + 1], k);
      assert s[..i + 1][..k] == s[..k];
    }
    assert ClosedUnder(ParentEdges(g), t);
  }

  lemma {:induction false} ElemsPrefix(s: seq<Id>, k: nat)
    requires k <= |s|
    ensures Elems(s[..k]) <= Elems(s)
  {
    forall x | x in Elems(s[..k]) ensures x in Elems(s) {
      var i :| 0 <= i < k && s[..k][i] == x;
      assert s[i] == x;
    }
  }

  /** The branch of an emitted tip is its ancestors, in a topological order that ends with it. */
  lemma {:induction false} BranchEndsWithTip(g: Graph, p: Policy, t: Id)
    requires p.branchTip == Some(t) && t in Order(g) && t in g
    ensures var branch := BranchOrder(g, Order(g), p);
      && Topological(g, branch) && Elems(branch) == Ancestors(g, t)
      && branch != [] && branch[|branch| - 1] == t
  {
    var branch, a := BranchOrder(g, Order(g), p), Ancestors(g, t);
    AncestorsLeast(g, t);
    BranchFoldIsBranchOrder(g, t);
    OrderIsTopological(g);
    OrderIsTopological(Restrict(g, a));
    FilterElems(Order(g), a);
    var i :| 0 <= i < |Order(g)| && Order(g)[i] == t;
    AncestorsEarlier(g, Order(g), i);
    ElemsPrefix(Order(g), i + 1);
    assert Elems(branch) == a;
    TopologicalInWhole(g, a, branch);
    TipIsLast(g, branch, t);
  }

  lemma {:induction false} TopologicalInWhole(g: Graph, a: set<Id>, s: seq<Id>)
    requires ParentClosed(g, a) && Topological(Restrict(g, a), s)
    ensures Topological(g, s)
  {
    forall i | 0 <= i < |s| ensures s[i] in g && Parents(g, s[i]) <= Elems(s[..i]) {
      assert s[i] in s;
      assert s[i] in Restrict(g, a);
      RestrictParents(g, a, s[i]);
    }
    forall x | x in s ensures x in g {
      assert x in Restrict(g, a);
    }
  }

  lemma {:induction false} TipIsLast(g: Graph, s: seq<Id>, t: Id)
    requires Topological(g, s) && t in g && Elems(s) == Ancestors(g, t)
    ensures s != [] && s[|s| - 1] == t
  {
    ReachSelf(g, t);
    assert t in Elems(s);
    var i :| 0 <= i < |s| && s[i] == t;
    AncestorsEarlier(g, s, i);
    assert s[|s| - 1] in Elems(s);
    var k :| 0 <= k < i + 1 && s[..i + 1][k] == s[|s| - 1];
    assert s[k] == s[|s| - 1];
  }

  /** Whether anything is seeded, and whether the tip is. */
  lemma {:induction false} TipSeed(g: Graph, p: Policy, branch: seq<Id>)
    requires NoDup(branch) && branch != []
    ensures branch[|branch| - 1] in Seeds(g, branch, p)
      <==> DepthSeeds(|branch|, p.maxDepth) || Wanted(g, p, branch[|branch| - 1])
    ensures Seeds(g, branch, p) != {}
      <==> DepthSeeds(|branch|, p.maxDepth) || exists x :: x in branch && Wanted(g, p, x)
  {
    var k := |branch| - 1;
    SeedAt(g, branch, p, k);
    LastAnchorMember(g, p.anchorTypes, branch);
    NoDeepSeeds(branch, p.maxDepth);
    if x :| x in branch && Wanted(g, p, x) {
      assert IsAnchor(g, p.anchorTypes, x) ==> LastAnchor(g, p.anchorTypes, branch) != {};
      assert !IsAnchor(g, p.anchorTypes, x) ==> x in Recent(g, p.cutoffWall, branch);
    } else if !DepthSeeds(|branch|, p.maxDepth) {
      assert LastAnchor(g, p.anchorTypes, branch) == {} && Recent(g, p.cutoffWall, branch) == {};
    }
  }

  lemma {:induction false} NoDeepSeeds(branch: seq<Id>, maxDepth: real)
    requires branch != []
    ensures Elems(Deep(branch, maxDepth)) == {} <==> !DepthSeeds(|branch|, maxDepth)
  {
    var d := Deep(branch, maxDepth);
    assert d != [] ==> d[0] in Elems(d);
  }

  /** Without a checkpoint, a branch keeps every event exactly when the depth bound seeds something, the tip itself is
      an anchor or recent, or nothing is. So a branch longer than a bound of one or more loses nothing. */
  lemma {:induction false} BranchLosesNothingIff(g: Graph, p: Policy, t: Id)
    requires p.checkpointTip.None? && p.branchTip == Some(t) && t in g && t in Order(g)
    ensures KeptIds(g, p) == Ancestors(g, t) <==>
      || DepthSeeds(|Ancestors(g, t)|, p.maxDepth)
      || Wanted(g, p, t)
      || forall x | x in Ancestors(g, t) :: !Wanted(g, p, x)
  {
    var branch := BranchOrder(g, Order(g), p);
    BranchEndsWithTip(g, p, t);
    TipSeed(g, p, branch);
    NoDupLength(branch);
    assert forall x :: x in branch <==> x in Elems(branch);
    KeptWithoutTip(g, p, t, branch);
  }

  lemma {:induction false} DepthSeedsIff(length: nat, maxDepth: real)
    requires maxDepth >= 1.0
    ensures DepthSeeds(length, maxDepth) <==> length as real > maxDepth
  {
  }

  lemma {:induction false} KeptWithoutTip(g: Graph, p: Policy, t: Id, branch: seq<Id>)
    requires p.checkpointTip.None? && branch == BranchOrder(g, Order(g), p) && Topological(g, branch)
    requires branch != [] && branch[|branch| - 1] == t && t in g && Elems(branch) == Ancestors(g, t)
    ensures KeptIds(g, p) == Ancestors(g, t) <==> SeedIds(g, p) == {} || t in SeedIds(g, p)
  {
    SeedsInBranch(g, p);
    ReachSelf(g, t);
    if SeedIds(g, p) == {} {
      KeepIsLeast(g, Order(g), p);
    } else if t in SeedIds(g, p) {
      forall x ensures x in KeptIds(g, p) <==> x in Ancestors(g, t) {
        KeptExactly(g, p, x);
        KeepIsLeast(g, Order(g), p);
      }
    } else {
      KeptExactly(g, p, t);
      if UnderOpenSeed(g, p, t) {
        var s :| s in SeedIds(g, p) && s !in Passed(g, p) && t in Ancestors(g, s);
        TipUnderItselfOnly(g, branch, s);
      }
    }
  }

  lemma {:induction false} TipUnderItselfOnly(g: Graph, s: seq<Id>, x: Id)
    requires Topological(g, s) && x in s && s[|s| - 1] in Ancestors(g, x)
    ensures x == s[|s| - 1]
  {
    var i :| 0 <= i < |s| && s[i] == x;
    AncestorsEarlier(g, s, i);
    var k :| 0 <= k < i + 1 && s[..i + 1][k] == s[|s| - 1];
    assert s[k] == s[|s| - 1];
  }

  // An old root and a newer checkpoint, nothing else.

  function TwoEvents(root: Event, checkpoint: Event): Graph {
    map[root.id := root, checkpoint.id := checkpoint]
  }

  lemma {:induction false} ChainOfTwo(g: Graph, r: Id, c: Id)
    requires r != c && g.Keys == {r, c} && Parents(g, r) == {} && Parents(g, c) == {r}
    ensures Order(g) == [r, c] && Acyclic(g) &&
      r in Ancestors(g, c) && r !in Descendants(g, c) && c in Descendants(g, c)
  {
    var s := [r, c];
    assert Elems(s[..0]) == {} && s[..1] == [r] && Elems([r]) == {r} && Elems(s) == {r, c};
    assert Ready(g, {}) == {r} && Ready(g, {r}) == {c};
    forall i | 0 <= i < |s| ensures IsLeast(g, Ready(g, Elems(s[..i])), s[i]) {
    }
    GreedyUnique(g, s);
    CompleteIffAcyclic(g);
    ReachSelf(g, c);
    ReachParent(g, c, r);
    RootReachesItself(g, r, c);
  }

  lemma {:induction false} RootReachesItself(g: Graph, x: Id, y: Id)
    requires x in g && Parents(g, x) == {}
    ensures Reaches(g, x, y) ==> y == x
  {
    if Reaches(g, x, y) {
      var q :| PathFromTo(g, q, x, y);
      if |q| > 1 {
        FirstStep(g, q);
      }
    }
  }

  lemma {:induction false} FirstStep(g: Graph, q: seq<Id>)
    requires IsPath(g, q) && |q| > 1
    ensures q[1] in Parents(g, q[0])
  {
    assert q[0 + 1] in Parents(g, q[0]);
  }

  /** Under any policy with that checkpoint, the root too old and no anchor, and a depth bound that two events do not
      exceed, the root goes and the checkpoint's parent dangles. */
  lemma {:induction false} RetentionMayDangle(root: Event, checkpoint: Event, p: Policy)
    requires root.id != checkpoint.id && root.prev == [] && checkpoint.prev == [root.id]
    requires p.checkpointTip == Some(checkpoint.id) == p.branchTip && p.maxDepth >= 2.0
    requires root.kind.None? && (if root.hlc.Some? then root.hlc.value.wall else 0) as real < p.cutoffWall
    ensures var g := TwoEvents(root, checkpoint);
      && Closed(g) && Acyclic(g) && Order(g) == [root.id, checkpoint.id]
      && KeptIds(g, p) == {checkpoint.id} && !Closed(Restrict(g, KeptIds(g, p)))
  {
    var g := TwoEvents(root, checkpoint);
    ChainOfTwo(g, root.id, checkpoint.id);
    CheckpointBranch(g, root.id, checkpoint.id, p);
    forall q ensures q in KeptIds(g, p) <==> q == checkpoint.id {
      KeptExactly(g, p, q);
    }
    assert KeptIds(g, p) == {checkpoint.id};
    assert root.id in Restrict(g, {checkpoint.id})[checkpoint.id].prev;
  }

  lemma {:induction false} CheckpointBranch(g: Graph, r: Id, c: Id, p: Policy)
    requires r != c && g.Keys == {r, c} && Order(g) == [r, c] && r in Ancestors(g, c) && r !in Descendants(g, c)
    requires c in Descendants(g, c) && p.checkpointTip == Some(c) == p.branchTip && p.maxDepth >= 2.0
    requires g[r].kind.None? && WallOf(g, r) as real < p.cutoffWall
    ensures BranchIds(g, p) == {r, c} && Passed(g, p) == {c} && SeedIds(g, p) <= {c}
  {
    assert Elems([r, c]) == {r, c} && Ancestors(g, c) == {r, c};
    FilterAll([r, c], {r, c});
    var branch := BranchOrder(g, Order(g), p);
    assert branch == [r, c];
    SeedsInBranch(g, p);
    assert NoDup(branch) && branch[0] == r;
    SeedAt(g, branch, p, 0);
  }

  /** The same two events without a checkpoint, the root an anchor and the newer event neither an anchor nor recent:
      a bound of one, which they exceed, keeps both; a bound of two drops the newer one. */
  lemma {:induction false} TighterBoundKeepsMore(root: Event, tip: Event, p: Policy)
    requires root.id != tip.id && root.prev == [] && tip.prev == [root.id]
    requires p.checkpointTip.None? && p.branchTip == Some(tip.id)
    requires root.kind.Some? && root.kind.value in p.anchorTypes && !Wanted(TwoEvents(root, tip), p, tip.id)
    ensures var g := TwoEvents(root, tip);
      && KeptIds(g, p.(maxDepth := 1.0)) == {root.id, tip.id}
      && KeptIds(g, p.(maxDepth := 2.0)) == {root.id}
  {
    var g := TwoEvents(root, tip);
    ChainOfTwo(g, root.id, tip.id);
    assert Ancestors(g, tip.id) == {root.id, tip.id};
    TipBoundOne(g, root.id, tip.id, p.(maxDepth := 1.0));
    TipBoundTwo(g, root.id, tip.id, p.(maxDepth := 2.0));
  }

  lemma {:induction false} TipBoundOne(g: Graph, r: Id, t: Id, p: Policy)
    requires t in g && t in Order(g) && Ancestors(g, t) == {r, t} && r != t
    requires p.checkpointTip.None? && p.branchTip == Some(t) && p.maxDepth == 1.0
    ensures KeptIds(g, p) == {r, t}
  {
    assert |{r, t}| == 2;
    DepthSeedsIff(2, p.maxDepth);
    BranchLosesNothingIff(g, p, t);
  }

  lemma {:induction false} TipBoundTwo(g: Graph, r: Id, t: Id, p: Policy)
    requires t in g && t in Order(g) && Ancestors(g, t) == {r, t} && r != t && r in g
    requires p.checkpointTip.None? && p.branchTip == Some(t) && p.maxDepth == 2.0
    requires IsAnchor(g, p.anchorTypes, r) && !Wanted(g, p, t)
    ensures KeptIds(g, p) == {r}
  {
    assert |{r, t}| == 2;
    DepthSeedsIff(2, p.maxDepth);
    assert r in Ancestors(g, t) && Wanted(g, p, r);
    BranchLosesNothingIff(g, p, t);
    BranchSeeded(g, p, t, r);
    KeepIsLeast(g, Order(g), p);
    RetentionWithoutCheckpoint(g, p);
    if t in KeptIds(g, p) {
      AncestorsKept(g, KeptIds(g, p), t);
    }
    OneOfTwo(KeptIds(g, p), r, t);
  }

  lemma {:induction false} OneOfTwo(s: set<Id>, r: Id, t: Id)
    requires s <= {r, t} && s != {} && s != {r, t} && (t in s ==> r in s)
    ensures s == {r}
  {
  }

  lemma {:induction false} BranchSeeded(g: Graph, p: Policy, t: Id, x: Id)
    requires t in g && t in Order(g) && p.branchTip == Some(t) && x in Ancestors(g, t) && Wanted(g, p, x)
    ensures KeptIds(g, p) != {} && BranchIds(g, p) == Ancestors(g, t)
  {
    var branch := BranchOrder(g, Order(g), p);
    BranchEndsWithTip(g, p, t);
    TipSeed(g, p, branch);
    assert x in branch;
    SomethingKept(g, p);
  }

  lemma {:induction false} SomethingKept(g: Graph, p: Policy)
    requires SeedIds(g, p) != {}
    ensures KeptIds(g, p) != {}
  {
    KeepIsLeast(g, Order(g), p);
    var x :| x in SeedIds(g, p);
    SeedsInBranch(g, p);
    assert x in KeptIds(g, p);
  }

  lemma {:induction false} AncestorsKept(g: Graph, s: set<Id>, x: Id)
    requires ParentClosed(g, s) && x in s
    ensures Ancestors(g, x) <= s
  {
    AncestorsLeast(g, x);
    assert ClosedUnder(ParentEdges(g), s);
  }
}
