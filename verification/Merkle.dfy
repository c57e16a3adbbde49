/** `merkleRoot`: a binary Merkle tree over the sorted ids, with SHA-256 as free symbols. */
module Merkle {
  import opened Seqs
  import opened Ids

  datatype Digest = EmptyInput | Leaf(id: Id) | Pair(left: Digest, right: Digest)

  function RightOf(level: seq<Digest>, i: nat): Digest
    requires 2 * i < |level|
  {
    if 2 * i + 1 < |level| then level[2 * i + 1] else level[2 * i]
  }

  /** One level up: neighbours are paired, an odd last digest is paired with itself. */
  function Up(level: seq<Digest>): seq<Digest> {
    seq((|level| + 1) / 2, i requires 0 <= i < (|level| + 1) / 2 => Pair(level[2 * i], RightOf(level, i)))
  }

  function RootOf(level: seq<Digest>): Digest
    requires level != []
    decreases |level|
  {
    if |level| == 1 then level[0] else RootOf(Up(level))
  }

  function LeafLevel(ids: seq<Id>): seq<Digest> {
    seq(|ids|, i requires 0 <= i < |ids| => Leaf(ids[i]))
  }

  function Root(ids: seq<Id>): Digest {
    if SortedIds(ids) == [] then EmptyInput else RootOf(LeafLevel(SortedIds(ids)))
  }

  method MerkleRoot(ids: seq<Id>) returns (root: Digest)
    ensures root == Root(ids)
  {
    var sorted := SortedIds(ids);
    if sorted == [] {
      return EmptyInput;
    }
    var level := LeafLevel(sorted);
    while |level| > 1
      invariant level != [] && RootOf(level) == Root(ids)
      decreases |level|
    {
      var next, index := [], 0;
      while index < |level|
        invariant 0 <= index <= |level| + 1 && index % 2 == 0 && |next| == index / 2
        invariant forall i | 0 <= i < |next| :: next[i] == Pair(level[2 * i], RightOf(level, i))
      {
        var left := level[index];
        var right := if index + 1 < |level| then level[index + 1] else left;
        next := next + [Pair(left, right)];
        index := index + 2;
      }
      assert next == Up(level);
      level := next;
    }
    root := level[0];
  }

  // ---------------------------------------------------------------- the root determines the set of ids

  function LeavesOf(d: Digest): set<Id> {
    match d
    case EmptyInput => {}
    case Leaf(id) => {id}
    case Pair(l, r) => LeavesOf(l) + LeavesOf(r)
  }

  ghost function LevelLeaves(level: seq<Digest>): set<Id> {
    set d, x | d in level && x in LeavesOf(d) :: x
  }

  /** Pairing moves no leaf in or out, the doubled last digest included. */
  lemma {:induction false} UpKeepsLeaves(level: seq<Digest>)
    ensures LevelLeaves(Up(level)) == LevelLeaves(level)
  {
    var up := Up(level);
    forall x | x in LevelLeaves(level) ensures x in LevelLeaves(up) {
      var k :| 0 <= k < |level| && x in LeavesOf(level[k]);
      assert up[k / 2] in up && x in LeavesOf(up[k / 2]);
    }
    forall x | x in LevelLeaves(up) ensures x in LevelLeaves(level) {
      var i :| 0 <= i < |up| && x in LeavesOf(up[i]);
      var d := if x in LeavesOf(level[2 * i]) then level[2 * i] else RightOf(level, i);
      assert d in level && x in LeavesOf(d);
    }
  }

  lemma {:induction false} RootKeepsLeaves(level: seq<Digest>)
    requires level != []
    ensures LeavesOf(RootOf(level)) == LevelLeaves(level)
    decreases |level|
  {
    if |level| == 1 {
      assert level == [level[0]];
    } else {
      RootKeepsLeaves(Up(level));
      UpKeepsLeaves(level);
    }
  }

  lemma {:induction false} RootLeaves(ids: seq<Id>)
    ensures LeavesOf(Root(ids)) == Elems(ids)
  {
    var sorted := SortedIds(ids);
    if sorted != [] {
      var level := LeafLevel(sorted);
      RootKeepsLeaves(level);
      forall x ensures x in LevelLeaves(level) <==> x in Elems(sorted) {
        if x in Elems(sorted) {
          var i :| 0 <= i < |sorted| && sorted[i] == x;
          assert level[i] in level && x in LeavesOf(level[i]);
        }
        if x in LevelLeaves(level) {
          var i :| 0 <= i < |level| && x in LeavesOf(level[i]);
          assert x == sorted[i];
        }
      }
    }
  }

  /** Two lists have the same root exactly when they hold the same ids. */
  lemma {:induction false} RootDeterminesIds(a: seq<Id>, b: seq<Id>)
    ensures Root(a) == Root(b) <==> Elems(a) == Elems(b)
  {
    RootLeaves(a);
    RootLeaves(b);
    SortedIdsCanonical(a, b);
  }

  // ---------------------------------------------------------------- the same tree, top down

  function Pow2(h: nat): (p: nat)
    ensures p > 0
  {
    if h == 0 then 1 else 2 * Pow2(h - 1)
  }

  /** The tree of height `h`: the first half of the places on the left, the rest on the right; with nothing left for the
      right half, the left one is repeated. */
  function TreeOf(level: seq<Digest>, h: nat): Digest
    requires 0 < |level| <= Pow2(h)
  {
    if h == 0 then level[0]
    else
      var half := Pow2(h - 1);
      if |level| > half then Pair(TreeOf(level[..half], h - 1), TreeOf(level[half..], h - 1))
      else Pair(TreeOf(level, h - 1), TreeOf(level, h - 1))
  }

  lemma {:induction false} UpSplits(level: seq<Digest>, k: nat)
    requires 2 * k <= |level|
    ensures |Up(level)| == k + |Up(level[2 * k..])|
    ensures Up(level)[..k] == Up(level[..2 * k]) && Up(level)[k..] == Up(level[2 * k..])
  {
    assert forall i | 0 <= i < k :: Up(level)[i] == Up(level[..2 * k])[i];
    var rest := level[2 * k..];
    forall i | 0 <= i < |Up(rest)| ensures Up(level)[k + i] == Up(rest)[i] {
      assert 2 * (k + i) == 2 * k + 2 * i;
    }
  }

  lemma {:induction false} UpOfPair(level: seq<Digest>)
    requires 1 <= |level| <= 2
    ensures Up(level) == [Pair(level[0], level[|level| - 1])]
  {
  }

  /** One level up is one level less to go. */
  lemma {:induction false} TreeOfUp(level: seq<Digest>, h: nat)
    requires 0 < |level| <= Pow2(h) && h > 0
    ensures 0 < |Up(level)| <= Pow2(h - 1) && TreeOf(level, h) == TreeOf(Up(level), h - 1)
  {
    if h == 1 {
      UpOfPair(level);
      PairTree(level);
    } else if |level| > Pow2(h - 1) {
      var k := Pow2(h - 2);
      UpSplits(level, k);
      TreeOfUp(level[..2 * k], h - 1);
      TreeOfUp(level[2 * k..], h - 1);
    } else {
      TreeOfUp(level, h - 1);
    }
  }

  lemma {:induction false} PairTree(level: seq<Digest>)
    requires 1 <= |level| <= 2
    ensures Pow2(1) == 2 && TreeOf(level, 1) == Pair(level[0], level[|level| - 1])
  {
    assert Pow2(0) == 1;
  }

  lemma {:induction false} RootIsTree(level: seq<Digest>, h: nat)
    requires 0 < |level| <= Pow2(h) && (h > 0 ==> |level| > Pow2(h - 1))
    ensures RootOf(level) == TreeOf(level, h)
    decreases h
  {
    if h > 0 {
      TreeOfUp(level, h);
      if h > 1 {
        assert Pow2(h - 1) == 2 * Pow2(h - 2);
      }
      RootIsTree(Up(level), h - 1);
    }
  }

  /** The root is that of the lowest tree that has room for the ids, in ascending order from the left. */
  lemma {:induction false} RootReadsLeftToRight(ids: seq<Id>, sorted: seq<Id>, h: nat)
    requires Elems(sorted) == Elems(ids) && forall i, j | 0 <= i < j < |sorted| :: sorted[i] < sorted[j]
    requires 0 < |sorted| <= Pow2(h) && (h > 0 ==> |sorted| > Pow2(h - 1))
    ensures Root(ids) == TreeOf(seq(|sorted|, i requires 0 <= i < |sorted| => Leaf(sorted[i])), h)
  {
    AscendingUnique(sorted, SortedIds(ids));
    EmptyElems(sorted);
    RootIsTree(LeafLevel(sorted), h);
    assert LeafLevel(sorted) == seq(|sorted|, i requires 0 <= i < |sorted| => Leaf(sorted[i]));
  }
}
