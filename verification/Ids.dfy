/** Event ids and the sorted, duplicate-free lists the code builds from them.
    An id is 64 lower-case hex digits, so it is read as the number it spells: for strings of one
    fixed width over digits ordered like their values, string order is number order. */
module Ids {
  import opened Seqs

  type Id = nat

  ghost predicate Ascending(s: seq<Id>) {
    forall i, j | 0 <= i < j < |s| :: s[i] < s[j]
  }

  function InsertSorted(x: Id, s: seq<Id>): (r: seq<Id>)
    requires Ascending(s)
    ensures Ascending(r)
    ensures forall y :: y in r <==> y == x || y in s
  {
    if s == [] then [x]
    else if x < s[0] then [x] + s
    else if x == s[0] then s
    else
      var rest := InsertSorted(x, s[1..]);
      assert forall y | y in s[1..] :: s[0] < y;
      assert forall j | 0 <= j < |rest| :: rest[j] in rest && s[0] < rest[j];
      assert forall y :: y in s <==> y == s[0] || y in s[1..];
      [s[0]] + rest
  }

  /** `toSortedSet().toList()`. */
  function SortedIds(raw: seq<Id>): (r: seq<Id>)
    ensures Ascending(r) && Elems(r) == Elems(raw)
  {
    if raw == [] then []
    else
      var k := |raw| - 1;
      assert raw == raw[..k] + [raw[k]];
      var r := InsertSorted(raw[k], SortedIds(raw[..k]));
      assert forall y :: y in SortedIds(raw[..k]) <==> y in Elems(raw[..k]);
      r
  }

  /** Only the set of ids survives: two ascending lists with the same elements are the same list. */
  lemma {:induction false} AscendingUnique(a: seq<Id>, b: seq<Id>)
    requires Ascending(a) && Ascending(b) && Elems(a) == Elems(b)
    ensures a == b
  {
    NoDupLength(a);
    NoDupLength(b);
    if a != [] {
      assert a[0] in Elems(b) && b[0] in Elems(a);
      forall x ensures x in Elems(a[1..]) <==> x in Elems(b[1..]) {
        assert x in a[1..] <==> x in Elems(a) && x != a[0];
        assert x in b[1..] <==> x in Elems(b) && x != b[0];
      }
      AscendingUnique(a[1..], b[1..]);
      assert a == [a[0]] + a[1..] && b == [b[0]] + b[1..];
    }
  }

  /** `sortedPrevEventIds` and every other sorted set depend on membership alone. */
  lemma {:induction false} SortedIdsCanonical(a: seq<Id>, b: seq<Id>)
    ensures SortedIds(a) == SortedIds(b) <==> Elems(a) == Elems(b)
  {
    if Elems(a) == Elems(b) {
      AscendingUnique(SortedIds(a), SortedIds(b));
    }
  }
}
