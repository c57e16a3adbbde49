/** Least sets closed under an edge relation, and the bookkeeping of the stack loops that compute them. */
module Closures {
  import opened Seqs
  import opened Ids

  type Edges = map<Id, set<Id>>

  ghost predicate ClosedUnder(e: Edges, s: set<Id>) {
    forall x | x in s && x in e :: e[x] <= s
  }

  /** `s` is the least set that contains `seeds` and is closed under `e`. */
  ghost predicate LeastClosed(e: Edges, seeds: set<Id>, s: set<Id>) {
    && seeds <= s
    && ClosedUnder(e, s)
    && (forall t | ClosedUnder(e, t) && seeds <= t :: s <= t)
  }

  /** A stack loop in progress: `out` is done, `pending` is on the stack. */
  ghost predicate Working(e: Edges, seeds: set<Id>, out: set<Id>, pending: set<Id>) {
    && seeds <= out + pending
    && (forall x | x in out && x in e :: e[x] <= out + pending)
    && (forall t | ClosedUnder(e, t) && seeds <= t :: out + pending <= t)
  }

  /** Popping an id that is already done. */
  lemma {:induction false} SkipDone(e: Edges, seeds: set<Id>, out: set<Id>, pending: set<Id>, rest: set<Id>, id: Id)
    requires Working(e, seeds, out, pending) && id in out && rest + {id} == pending + {id} && rest <= pending
    ensures Working(e, seeds, out, rest)
  {
    assert out + rest == out + pending;
  }

  /** Popping a new id and pushing its successors. */
  lemma {:induction false} Visit(e: Edges, seeds: set<Id>, out: set<Id>, pending: set<Id>, rest: set<Id>, id: Id)
    requires Working(e, seeds, out, pending) && id in pending
    requires rest + {id} == pending + {id} + (if id in e then e[id] else {})
    ensures Working(e, seeds, out + {id}, rest)
  {
    var out' := out + {id};
    assert out' + rest == out + pending + (if id in e then e[id] else {});
    forall t | ClosedUnder(e, t) && seeds <= t ensures out' + rest <= t {
      assert out + pending <= t && id in t;
    }
  }

  /** The same for the stack itself, inside a finite universe `all` that bounds the work. */
  ghost predicate StackWorking(e: Edges, seeds: set<Id>, all: set<Id>, out: set<Id>, stack: seq<Id>) {
    Working(e, seeds, out, Elems(stack)) && out <= all && Elems(stack) <= all
  }

  lemma {:induction false} PopSet(stack: seq<Id>)
    requires stack != []
    ensures Elems(stack[..|stack| - 1]) + {stack[|stack| - 1]} == Elems(stack)
  {
    assert stack == stack[..|stack| - 1] + [stack[|stack| - 1]];
  }

  lemma {:induction false} StackSkip(e: Edges, seeds: set<Id>, all: set<Id>, out: set<Id>, stack: seq<Id>)
    requires stack != [] && StackWorking(e, seeds, all, out, stack) && stack[|stack| - 1] in out
    ensures StackWorking(e, seeds, all, out, stack[..|stack| - 1])
  {
    PopSet(stack);
    SkipDone(e, seeds, out, Elems(stack), Elems(stack[..|stack| - 1]), stack[|stack| - 1]);
  }

  lemma {:induction false} StackVisit(e: Edges, seeds: set<Id>, all: set<Id>, out: set<Id>, stack: seq<Id>,
        pushed: seq<Id>)
    requires stack != [] && StackWorking(e, seeds, all, out, stack) && stack[|stack| - 1] !in out
    requires Elems(pushed) <= all
    requires Elems(pushed) == if stack[|stack| - 1] in e then e[stack[|stack| - 1]] else {}
    ensures StackWorking(e, seeds, all, out + {stack[|stack| - 1]}, stack[..|stack| - 1] + pushed)
    ensures |all - (out + {stack[|stack| - 1]})| < |all - out|
  {
    var id, rest := stack[|stack| - 1], stack[..|stack| - 1];
    PopSet(stack);
    ElemsAppend(rest, pushed);
    Visit(e, seeds, out, Elems(stack), Elems(rest + pushed), id);
    SubsetSize(all - (out + {id}), all - out);
    assert id in all - out;
  }

  lemma {:induction false} Finished(e: Edges, seeds: set<Id>, all: set<Id>, out: set<Id>)
    requires StackWorking(e, seeds, all, out, [])
    ensures LeastClosed(e, seeds, out)
  {
    assert Elems<Id>([]) == {};
    assert out + {} == out;
  }

  lemma {:induction false} LeastUnique(e: Edges, seeds: set<Id>, s: set<Id>, t: set<Id>)
    requires LeastClosed(e, seeds, s) && LeastClosed(e, seeds, t)
    ensures s == t
  {
  }

  /** The least closed set, written as the intersection of all closed sets that hold the seeds. */
  ghost function LeastOf(e: Edges, seeds: set<Id>, all: set<Id>): set<Id> {
    set x | x in all && forall t: set<Id> | ClosedUnder(e, t) && seeds <= t :: x in t
  }

  lemma {:induction false} LeastIsLeastOf(e: Edges, seeds: set<Id>, all: set<Id>, s: set<Id>)
    requires LeastClosed(e, seeds, s) && s <= all
    ensures s == LeastOf(e, seeds, all)
  {
    forall x | x in LeastOf(e, seeds, all) ensures x in s {
      assert ClosedUnder(e, s) && seeds <= s;
    }
  }

  /** Inside a finite universe that is itself closed, the intersection is the least closed set. */
  lemma {:induction false} LeastOfIsLeast(e: Edges, seeds: set<Id>, all: set<Id>)
    requires seeds <= all && ClosedUnder(e, all)
    ensures LeastClosed(e, seeds, LeastOf(e, seeds, all))
  {
    var s := LeastOf(e, seeds, all);
    forall x, y | x in s && x in e && y in e[x] ensures y in s {
      forall t: set<Id> | ClosedUnder(e, t) && seeds <= t ensures y in t {
        assert x in t;
      }
    }
  }
}
