/** Vocabulary for lists: element sets, duplicate-freedom, order-keeping filters. */
module Seqs {
  datatype Option<+T> = None | Some(value: T)

  function Elems<T>(s: seq<T>): set<T> {
    set x | x in s
  }

  ghost predicate NoDup<T>(s: seq<T>) {
    forall i, j | 0 <= i < j < |s| :: s[i] != s[j]
  }

  /** `list.filter { it in keep }`. */
  function Filter<T(==)>(s: seq<T>, keep: set<T>): (r: seq<T>)
  {
    if s == [] then []
    else Filter(s[..|s| - 1], keep) + (if s[|s| - 1] in keep then [s[|s| - 1]] else [])
  }

  /** `list.takeLast(n)`. */
  function TakeLast<T>(s: seq<T>, n: nat): seq<T> {
    if n >= |s| then s else s[|s| - n..]
  }

  /** `list.indexOf(x)`: the first position of `x`, or -1. */
  function IndexOf<T(==)>(s: seq<T>, x: T): (i: int)
    ensures -1 <= i < |s|
    ensures i >= 0 ==> s[i] == x && x !in s[..i]
    ensures i == -1 ==> x !in s
  {
    if s == [] then -1
    else
      var k := IndexOf(s[..|s| - 1], x);
      assert s == s[..|s| - 1] + [s[|s| - 1]];
      if k >= 0 then k else if s[|s| - 1] == x then |s| - 1 else -1
  }

  lemma {:induction false} FirstIndex<T>(s: seq<T>, k: nat, x: T)
    requires k < |s| && s[k] == x && x !in s[..k]
    ensures IndexOf(s, x) == k
  {
    var init := s[..|s| - 1];
    if k < |s| - 1 {
      assert init[..k] == s[..k];
      FirstIndex(init, k, x);
    } else {
      assert init == s[..k];
    }
  }

  /** `map[k].orEmpty()` of a map of lists. */
  function ListAt<K, V>(m: map<K, seq<V>>, k: K): seq<V> {
    if k in m then m[k] else []
  }

  lemma {:induction false} FilterMembers<T>(s: seq<T>, keep: set<T>)
    ensures forall x :: x in Filter(s, keep) <==> x in s && x in keep
    ensures |Filter(s, keep)| <= |s|
    ensures NoDup(s) ==> NoDup(Filter(s, keep))
  {
    if s != [] {
      FilterMembers(s[..|s| - 1], keep);
      assert s == s[..|s| - 1] + [s[|s| - 1]];
    }
  }

  lemma {:induction false} FilterElems<T>(s: seq<T>, keep: set<T>)
    ensures Elems(Filter(s, keep)) == Elems(s) * keep
    ensures NoDup(s) ==> NoDup(Filter(s, keep))
  {
    FilterMembers(s, keep);
    var l, r := Elems(Filter(s, keep)), Elems(s) * keep;
    assert forall x :: x in l <==> x in r;
  }

  lemma {:induction false} FilterAppend<T>(a: seq<T>, b: seq<T>, keep: set<T>)
    ensures Filter(a + b, keep) == Filter(a, keep) + Filter(b, keep)
  {
    if b == [] {
      assert a + b == a;
    } else {
      FilterAppend(a, b[..|b| - 1], keep);
      assert (a + b)[..|a + b| - 1] == a + b[..|b| - 1];
    }
  }

  lemma {:induction false} FilterAll<T>(s: seq<T>, keep: set<T>)
    requires Elems(s) <= keep
    ensures Filter(s, keep) == s
  {
    if s != [] {
      assert Elems(s[..|s| - 1]) <= Elems(s);
      assert s[|s| - 1] in Elems(s);
      FilterAll(s[..|s| - 1], keep);
    }
  }

  /** A filtered list keeps the relative order: what precedes an entry of it preceded that entry before. */
  lemma {:induction false} FilterPrefix<T>(s: seq<T>, keep: set<T>, k: nat) returns (i: nat)
    requires k < |Filter(s, keep)|
    ensures i < |s| && s[i] == Filter(s, keep)[k] && s[i] in keep
    ensures Filter(s[..i], keep) == Filter(s, keep)[..k]
  {
    var s' := s[..|s| - 1];
    var f' := Filter(s', keep);
    if k < |f'| {
      i := FilterPrefix(s', keep, k);
      assert s'[..i] == s[..i];
    } else {
      i := |s| - 1;
    }
  }

  lemma {:induction false} NoDupLength<T>(s: seq<T>)
    requires NoDup(s)
    ensures |Elems(s)| == |s|
  {
    if s != [] {
      var t := s[..|s| - 1];
      NoDupLength(t);
      assert s[|s| - 1] !in t;
      assert Elems(s) == Elems(t) + {s[|s| - 1]};
    }
  }

  lemma {:induction false} RepeatsShrink<T>(s: seq<T>)
    requires !NoDup(s)
    ensures |Elems(s)| < |s|
  {
    var k := |s| - 1;
    var init := s[..k];
    assert Elems(s) == Elems(init) + {s[k]};
    if NoDup(init) {
      NoDupLength(init);
      assert s[k] in Elems(init);
    } else {
      RepeatsShrink(init);
    }
  }

  lemma {:induction false} SubsetSize<T>(a: set<T>, b: set<T>)
    requires a <= b
    ensures |a| <= |b|
    ensures |a| == |b| ==> a == b
  {
    assert b == a + (b - a);
    assert |b| == |a| + |b - a|;
  }

  /** A duplicate-free list is never longer than a set that holds it. */
  lemma {:induction false} NoDupBound<T>(s: seq<T>, bound: set<T>)
    requires NoDup(s) && Elems(s) <= bound
    ensures |s| <= |bound|
  {
    NoDupLength(s);
    SubsetSize(Elems(s), bound);
  }

  lemma {:induction false} EmptyElems<T>(s: seq<T>)
    ensures Elems(s) == {} <==> s == []
  {
    if s != [] {
      assert s[0] in Elems(s);
    }
  }

  lemma {:induction false} ElemsAppend<T>(a: seq<T>, b: seq<T>)
    ensures Elems(a + b) == Elems(a) + Elems(b)
  {
  }
}
