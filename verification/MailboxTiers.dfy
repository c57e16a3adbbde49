/** What the tier of a record means for its eviction: `sortMailboxForRetention` puts lower tiers first, and both
    pruning passes of `writeAll` sort again by time. */
module MailboxTiers {
  import opened Texts
  import opened MailboxPrune
  import opened MailboxStore

  /** The records of a bucket in the order in which pruning gives them up. */
  function ByAge(rows: Rows, key: Text): Rows {
    SortByTime(Bucket(SortForRetention(rows), key))
  }

  // ---------------------------------------------------------------- the tier breaks ties, and only ties

  lemma {:induction false} BucketStaysSorted(s: Rows, key: Text)
    requires SortedForRetention(s)
    ensures SortedForRetention(Bucket(s, key))
  {
    if s != [] {
      BucketStaysSorted(s[1..], key);
      BucketMembers(s[1..], key);
      var b := Bucket(s[1..], key);
      forall i | 0 <= i < |b| ensures !RetentionLess(b[i], s[0]) {
        assert b[i] in b;
        var j :| 0 <= j < |s[1..]| && s[1..][j] == b[i];
      }
    }
  }

  lemma {:induction false} AtMembers(s: Rows, t: real)
    ensures forall r :: r in At(s, t) <==> r in s && r.storedAt == t
  {
    if s != [] {
      AtMembers(s[..|s| - 1], t);
      SplitEnd(s);
    }
  }

  ghost predicate TiersRise(s: Rows) {
    forall i, j | 0 <= i < j < |s| :: s[i].tier <= s[j].tier
  }

  lemma {:induction false} TiersRiseAt(s: Rows, t: real)
    requires SortedForRetention(s)
    ensures TiersRise(At(s, t))
  {
    if s != [] {
      var init, last := s[..|s| - 1], s[|s| - 1];
      TiersRiseAt(init, t);
      AtMembers(init, t);
      var a := At(init, t);
      forall i | 0 <= i < |a| && last.storedAt == t ensures a[i].tier <= last.tier {
        assert a[i] in a;
        var j :| 0 <= j < |init| && init[j] == a[i];
        assert !RetentionLess(s[|s| - 1], s[j]);
      }
    }
  }

  /** Where a record stands among those of its instant. */
  lemma {:induction false} PlaceAt(s: Rows, t: real, i: nat) returns (a: nat)
    requires i < |s| && s[i].storedAt == t
    ensures a < |At(s, t)| && At(s, t)[a] == s[i] && a == |At(s[..i], t)|
  {
    var k := |s| - 1;
    if i == k {
      a := |At(s[..k], t)|;
    } else {
      a := PlaceAt(s[..k], t, i);
      assert s[..k][..i] == s[..i];
    }
  }

  lemma {:induction false} AtGrows(s: Rows, t: real, i: nat, j: nat)
    requires i < j <= |s| && s[i].storedAt == t
    ensures |At(s[..i], t)| < |At(s[..j], t)|
    decreases j
  {
    assert s[..j][..j - 1] == s[..j - 1];
    if i < j - 1 {
      AtGrows(s, t, i, j - 1);
    }
  }

  lemma {:induction false} ByAgeSorted(rows: Rows, key: Text)
    ensures SortedByTime(ByAge(rows, key)) && multiset(ByAge(rows, key)) == multiset(Bucket(rows, key))
  {
    SortSorts(Bucket(SortForRetention(rows), key));
    RetentionPermutes(rows);
    forall r ensures multiset(Bucket(SortForRetention(rows), key))[r] == multiset(Bucket(rows, key))[r] {
      BucketOfPermutation(SortForRetention(rows), key, r);
      BucketOfPermutation(rows, key, r);
    }
  }

  /** Records are given up by age; the tier only orders those of one instant. */
  lemma {:induction false} AgeThenTier(rows: Rows, key: Text, i: nat, j: nat)
    requires i < j < |ByAge(rows, key)|
    ensures var s := ByAge(rows, key);
      s[i].storedAt < s[j].storedAt || (s[i].storedAt == s[j].storedAt && s[i].tier <= s[j].tier)
  {
    var s, b := ByAge(rows, key), Bucket(SortForRetention(rows), key);
    ByAgeSorted(rows, key);
    if s[i].storedAt == s[j].storedAt {
      var t := s[i].storedAt;
      SortedByTier(rows);
      BucketStaysSorted(SortForRetention(rows), key);
      TiersRiseAt(b, t);
      SortStable(b, t);
      var p := PlaceAt(s, t, i);
      var q := PlaceAt(s, t, j);
      AtGrows(s, t, i, j);
    }
  }

  // ---------------------------------------------------------------- what a bucket keeps

  lemma {:induction false} SuffixBytes(s: Rows, k: nat, i: nat)
    requires k <= i <= |s|
    ensures Bytes(s[i..]) <= Bytes(s[k..])
    decreases i - k
  {
    if k < i {
      SuffixBytes(s, k + 1, i);
      assert s[k..][1..] == s[k + 1..];
    }
  }

  lemma {:induction false} FitsFrom(s: Rows, i: nat)
    requires i <= |s|
    ensures i >= |s| - |Trim(s)| <==> !BucketOver(s[i..])
  {
    TrimLongest(s);
    if i >= |s| - |Trim(s)| {
      SuffixBytes(s, |s| - |Trim(s)|, i);
    }
  }

  /** Bucket pruning keeps the newest part of the bucket in that order, and a place in it survives exactly when the
      records from there on fit together. */
  lemma {:induction false} SurvivesIff(rows: Rows, key: Text, i: nat)
    requires i < |ByAge(rows, key)|
    ensures var sorted, s := SortForRetention(rows), ByAge(rows, key);
      var kept := Bucket(TrimmedBuckets(sorted, Keys(sorted)), key);
      && |kept| <= |s| && kept == s[|s| - |kept|..]
      && (i >= |s| - |kept| <==> !BucketOver(s[i..]))
  {
    BucketsTrimmed(SortForRetention(rows), key);
    TrimLongest(ByAge(rows, key));
    FitsFrom(ByAge(rows, key), i);
  }

  /** No record that bucket pruning drops has a higher tier than one it keeps. */
  ghost predicate RankRespected(rows: Rows, key: Text) {
    var sorted, s := SortForRetention(rows), ByAge(rows, key);
    var dropped := |s| - |Bucket(TrimmedBuckets(sorted, Keys(sorted)), key)|;
    forall i, j | 0 <= i < dropped <= j < |s| :: s[i].tier <= s[j].tier
  }

  /** An older record of higher tier no longer fits before a newer one of lower tier that does. */
  ghost predicate Outlived(s: Rows, i: nat, j: nat)
    requires i < j < |s|
  {
    s[i].storedAt < s[j].storedAt && s[i].tier > s[j].tier && BucketOver(s[i..]) && !BucketOver(s[j..])
  }

  /** Low tiers go first exactly when no older record of higher tier is squeezed out before a newer one of lower. */
  lemma {:induction false} RankRespectedIff(rows: Rows, key: Text)
    ensures RankRespected(rows, key) <==>
      forall i, j | 0 <= i < j < |ByAge(rows, key)| :: !Outlived(ByAge(rows, key), i, j)
  {
    var sorted, s := SortForRetention(rows), ByAge(rows, key);
    var dropped := |s| - |Bucket(TrimmedBuckets(sorted, Keys(sorted)), key)|;
    forall i | 0 <= i < |s| ensures i >= dropped <==> !BucketOver(s[i..]) {
      SurvivesIff(rows, key, i);
    }
    forall i, j | 0 <= i < j < |s| ensures s[i].tier > s[j].tier ==> s[i].storedAt < s[j].storedAt {
      AgeThenTier(rows, key, i, j);
    }
    if RankRespected(rows, key) {
      forall i, j | 0 <= i < j < |s| ensures !Outlived(s, i, j) {
        assert i < dropped <= j ==> s[i].tier <= s[j].tier;
      }
    } else {
      var i, j :| 0 <= i < dropped <= j < |s| && s[i].tier > s[j].tier;
      assert Outlived(s, i, j);
    }
  }

  // ---------------------------------------------------------------- what the file keeps

  lemma {:induction false} BucketOfInsert(e: Record, s: Rows, key: Text)
    requires SortedByTime(s)
    ensures Bucket(InsertByTime(e, s), key)
      == if BucketKey(e) == key then InsertByTime(e, Bucket(s, key)) else Bucket(s, key)
  {
    if s == [] || s[|s| - 1].storedAt <= e.storedAt {
      InsertNewest(e, s);
      BucketPlus(s, e, key);
      BucketEndsEarlier(e, s, key);
    } else {
      var init, last := s[..|s| - 1], s[|s| - 1];
      SplitEnd(s);
      BucketOfInsert(e, init, key);
      BucketPlus(init, last, key);
      BucketPlus(InsertByTime(e, init), last, key);
      InsertBeforeLast(e, Bucket(init, key), last);
    }
  }

  lemma {:induction false} BucketPlus(s: Rows, r: Record, key: Text)
    ensures Bucket(s + [r], key) == if BucketKey(r) == key then Bucket(s, key) + [r] else Bucket(s, key)
  {
    BucketConcat(s, [r], key);
  }

  lemma {:induction false} InsertBeforeLast(e: Record, s: Rows, last: Record)
    requires last.storedAt > e.storedAt
    ensures InsertByTime(e, s + [last]) == InsertByTime(e, s) + [last]
  {
    assert (s + [last])[..|s|] == s;
  }

  lemma {:induction false} BucketEndsEarlier(e: Record, s: Rows, key: Text)
    requires SortedByTime(s) && (s == [] || s[|s| - 1].storedAt <= e.storedAt)
    ensures InsertByTime(e, Bucket(s, key)) == Bucket(s, key) + [e]
  {
    var b := Bucket(s, key);
    BucketMembers(s, key);
    if b != [] {
      assert b[|b| - 1] in b;
      var i :| 0 <= i < |s| && s[i] == b[|b| - 1];
    }
    InsertNewest(e, b);
  }

  /** Sorting by time and picking out a bucket commute. */
  lemma {:induction false} BucketOfSorted(s: Rows, key: Text)
    ensures Bucket(SortByTime(s), key) == SortByTime(Bucket(s, key))
  {
    if s != [] {
      var init, last := s[..|s| - 1], s[|s| - 1];
      SplitEnd(s);
      BucketOfSorted(init, key);
      SortSorts(init);
      BucketOfInsert(last, SortByTime(init), key);
      BucketPlus(init, last, key);
      SortSnoc(Bucket(init, key), last);
    }
  }

  lemma {:induction false} SortSnoc(s: Rows, e: Record)
    ensures SortByTime(s + [e]) == InsertByTime(e, SortByTime(s))
  {
    assert (s + [e])[..|s|] == s;
  }

  lemma {:induction false} SuffixSorted(s: Rows, k: nat)
    requires SortedByTime(s) && k <= |s|
    ensures SortByTime(s[k..]) == s[k..]
  {
    SortSorted(s[k..]);
  }

  lemma {:induction false} EvictedSuffix(s: Rows, key: Text) returns (m: nat)
    requires UniqueIds(s)
    ensures m <= |SortByTime(Bucket(s, key))|
    ensures Bucket(EvictAll(SortByTime(s)), key) == SortByTime(Bucket(s, key))[m..]
  {
    GlobalEvictionIsFair(s, key);
    BucketOfSorted(s, key);
    m :| DroppedFairly(Bucket(SortByTime(s), key), m, EvictAll(SortByTime(s)), key);
  }

  /** What bucket pruning leaves of a list. */
  function Trimmed(rows: Rows): Rows {
    var sorted := SortForRetention(rows);
    TrimmedBuckets(sorted, Keys(sorted))
  }

  lemma {:induction false} TrimmedByAge(rows: Rows, key: Text) returns (k: nat)
    ensures k <= |ByAge(rows, key)| && SortByTime(Bucket(Trimmed(rows), key)) == ByAge(rows, key)[k..]
  {
    BucketsTrimmed(SortForRetention(rows), key);
    ByAgeSorted(rows, key);
    k := SortedTrim(ByAge(rows, key));
  }

  lemma {:induction false} SortedTrim(s: Rows) returns (k: nat)
    requires SortedByTime(s)
    ensures k + |Trim(s)| == |s| && SortByTime(Trim(s)) == s[k..]
  {
    TrimLongest(s);
    k := |s| - |Trim(s)|;
    SuffixSorted(s, k);
  }

  lemma {:induction false} SuffixOfSuffix(s: Rows, t: Rows, u: Rows, k: nat, m: nat)
    requires k <= |s| && t == s[k..] && m <= |t| && u == t[m..]
    ensures k + m <= |s| && u == s[k + m..]
  {
  }

  lemma {:induction false} WrittenIsEvicted(rows: Rows, now: real)
    ensures Written(rows, now) == EvictAll(SortByTime(Trimmed(Live(rows, now))))
  {
  }

  lemma {:induction false} EvictedFrom(t: Rows, b: Rows, n: nat, key: Text) returns (k: nat)
    requires UniqueIds(t) && n <= |b| && SortByTime(Bucket(t, key)) == b[n..]
    ensures k <= |b| && Bucket(EvictAll(SortByTime(t)), key) == b[k..]
  {
    var m := EvictedSuffix(t, key);
    SuffixOfSuffix(b, SortByTime(Bucket(t, key)), Bucket(EvictAll(SortByTime(t)), key), n, m);
    k := n + m;
  }

  lemma {:induction false} EvictedByAge(live: Rows, key: Text) returns (k: nat)
    requires UniqueIds(Trimmed(live))
    ensures k <= |ByAge(live, key)| && Bucket(EvictAll(SortByTime(Trimmed(live))), key) == ByAge(live, key)[k..]
  {
    var n := TrimmedByAge(live, key);
    k := EvictedFrom(Trimmed(live), ByAge(live, key), n, key);
  }

  lemma {:induction false} TrimmedUnique(rows: Rows, now: real)
    requires UniqueIds(rows)
    ensures UniqueIds(Trimmed(Live(rows, now)))
  {
    var sorted := SortForRetention(Live(rows, now));
    var trimmed := TrimmedBuckets(sorted, Keys(sorted));
    LivePart(rows, now);
    RetentionPermutes(Live(rows, now));
    KeysNoDup(sorted);
    forall r ensures multiset(trimmed)[r] <= multiset(rows)[r] {
      TrimmedPart(sorted, Keys(sorted), r);
    }
    UniqueByContents(rows, trimmed);
  }

  /** Through both passes: with unique ids, what the file keeps of a bucket is the newest part of its live records,
      older ones before newer and, within an instant, lower tiers before higher. */
  lemma {:induction false} WrittenBucketIsNewest(rows: Rows, now: real, key: Text) returns (k: nat)
    requires UniqueIds(rows)
    ensures k <= |ByAge(Live(rows, now), key)| && Bucket(Written(rows, now), key) == ByAge(Live(rows, now), key)[k..]
  {
    TrimmedUnique(rows, now);
    WrittenIsEvicted(rows, now);
    k := EvictedByAge(Live(rows, now), key);
  }

  // ---------------------------------------------------------------- when all times differ

  ghost predicate DistinctTimes(s: Rows) {
    forall i, j | 0 <= i < j < |s| :: s[i].storedAt != s[j].storedAt
  }

  ghost predicate TimesTellApart(m: multiset<Record>) {
    forall a, b | a in m && b in m && a.storedAt == b.storedAt :: a == b
  }

  lemma {:induction false} LastIsNewest(s: Rows, x: Record)
    requires SortedByTime(s) && x in multiset(s)
    ensures s != [] && x.storedAt <= s[|s| - 1].storedAt && s[|s| - 1] in multiset(s)
    ensures multiset(s[..|s| - 1]) == multiset(s) - multiset{s[|s| - 1]}
  {
    var i :| 0 <= i < |s| && s[i] == x;
    assert s == s[..|s| - 1] + [s[|s| - 1]];
  }

  lemma {:induction false} FewerTellApart(m: multiset<Record>, x: Record)
    requires TimesTellApart(m)
    ensures TimesTellApart(m - multiset{x})
  {
    assert forall a | a in m - multiset{x} :: a in m;
  }

  lemma {:induction false} SameNewest(s: Rows, t: Rows)
    requires s != [] && t != [] && SortedByTime(s) && SortedByTime(t)
    requires multiset(s) == multiset(t) && TimesTellApart(multiset(s))
    ensures s[|s| - 1] == t[|t| - 1]
    ensures multiset(s[..|s| - 1]) == multiset(t[..|t| - 1]) == multiset(s) - multiset{s[|s| - 1]}
  {
    var x, y := s[|s| - 1], t[|t| - 1];
    assert x in multiset(s) && y in multiset(t);
    LastIsNewest(s, y);
    LastIsNewest(t, x);
  }

  /** Where times tell records apart, there is one list in time order. */
  lemma {:induction false} SortedTimesUnique(s: Rows, t: Rows)
    requires SortedByTime(s) && SortedByTime(t) && multiset(s) == multiset(t) && TimesTellApart(multiset(s))
    ensures s == t
    decreases |s|
  {
    SameSize(s, t);
    if s != [] {
      SameNewest(s, t);
      FewerTellApart(multiset(s), s[|s| - 1]);
      SortedTimesUnique(s[..|s| - 1], t[..|t| - 1]);
      SameBySplit(s, t);
    }
  }

  lemma {:induction false} SameBySplit(s: Rows, t: Rows)
    requires s != [] && t != [] && s[|s| - 1] == t[|t| - 1] && s[..|s| - 1] == t[..|t| - 1]
    ensures s == t
  {
    assert s == s[..|s| - 1] + [s[|s| - 1]] && t == t[..|t| - 1] + [t[|t| - 1]];
  }

  lemma {:induction false} DistinctInMultiset(s: Rows)
    requires DistinctTimes(s)
    ensures TimesTellApart(multiset(s))
  {
    forall a, b | a in multiset(s) && b in multiset(s) && a.storedAt == b.storedAt ensures a == b {
      var i :| 0 <= i < |s| && s[i] == a;
      var j :| 0 <= j < |s| && s[j] == b;
    }
  }

  /** Among records stored at different times the sort by tier has no effect on what a bucket keeps. */
  lemma {:induction false} TierOrderIsForgotten(rows: Rows, key: Text)
    requires DistinctTimes(Bucket(rows, key))
    ensures var sorted := SortForRetention(rows);
      Bucket(TrimmedBuckets(sorted, Keys(sorted)), key) == Trim(SortByTime(Bucket(rows, key)))
  {
    var sorted := SortForRetention(rows);
    RetentionPermutes(rows);
    BucketsTrimmed(sorted, key);
    var a, b := Bucket(sorted, key), Bucket(rows, key);
    forall r ensures multiset(a)[r] == multiset(b)[r] {
      BucketOfPermutation(sorted, key, r);
      BucketOfPermutation(rows, key, r);
    }
    SortSorts(a);
    SortSorts(b);
    DistinctInMultiset(b);
    SortedTimesUnique(SortByTime(b), SortByTime(a));
  }

  lemma {:induction false} DistinctInBucket(s: Rows, key: Text)
    requires DistinctTimes(s)
    ensures DistinctTimes(Bucket(s, key))
  {
    if s != [] {
      forall i, j | 0 <= i < j < |s[1..]| ensures s[1..][i].storedAt != s[1..][j].storedAt {
        assert s[i + 1].storedAt != s[j + 1].storedAt;
      }
      DistinctInBucket(s[1..], key);
      BucketMembers(s[1..], key);
      var b := Bucket(s[1..], key);
      forall i | 0 <= i < |b| ensures b[i].storedAt != s[0].storedAt {
        assert b[i] in b;
        var j :| 0 <= j < |s[1..]| && s[1..][j] == b[i];
        assert s[j + 1] == b[i];
      }
    }
  }

  lemma {:induction false} SameTrimmed(live: Rows, r: Record)
    requires DistinctTimes(live)
    ensures var sorted := SortForRetention(live);
      multiset(TrimmedBuckets(sorted, Keys(sorted)))[r] == multiset(TrimmedBuckets(live, Keys(live)))[r]
  {
    var sorted, key := SortForRetention(live), BucketKey(r);
    DistinctInBucket(live, key);
    TierOrderIsForgotten(live, key);
    BucketsTrimmed(live, key);
    BucketOfPermutation(TrimmedBuckets(sorted, Keys(sorted)), key, r);
    BucketOfPermutation(TrimmedBuckets(live, Keys(live)), key, r);
  }

  lemma {:induction false} FewerTimesTellApart(m: multiset<Record>, n: multiset<Record>)
    requires TimesTellApart(n) && m <= n
    ensures TimesTellApart(m)
  {
    assert forall a | a in m :: a in n;
  }

  /** If all live records differ in time, the whole file is what it would be without the sort by tier. */
  lemma {:induction false} WrittenIgnoresTiers(rows: Rows, now: real)
    requires DistinctTimes(Live(rows, now))
    ensures var live := Live(rows, now);
      Written(rows, now) == EvictAll(SortByTime(TrimmedBuckets(live, Keys(live))))
  {
    var live := Live(rows, now);
    var sorted := SortForRetention(live);
    var a, b := TrimmedBuckets(sorted, Keys(sorted)), TrimmedBuckets(live, Keys(live));
    forall r ensures multiset(a)[r] == multiset(b)[r] {
      SameTrimmed(live, r);
    }
    assert multiset(a) == multiset(b);
    KeysNoDup(live);
    forall r ensures multiset(b)[r] <= multiset(live)[r] {
      TrimmedPart(live, Keys(live), r);
    }
    DistinctInMultiset(live);
    FewerTimesTellApart(multiset(b), multiset(live));
    SortSorts(a);
    SortSorts(b);
    SortedTimesUnique(SortByTime(a), SortByTime(b));
  }

  // ---------------------------------------------------------------- a list where the highest tier goes first

  /** Eleven records of one bucket: the oldest trusted (2), the ten newer ones in quarantine (0). */
  function Crowd(): (s: Rows)
    ensures IsCrowd(s)
  {
    seq(11, i requires 0 <= i < 11 => Record([i], [], [], [], 1, i as real, 100.0, if i == 0 then 2 else 0))
  }

  ghost predicate IsCrowd(s: Rows) {
    && |s| == 11
    && forall i | 0 <= i < 11 :: s[i] == Record([i], [], [], [], 1, i as real, 100.0, if i == 0 then 2 else 0)
  }

  lemma {:induction false} LiveAll(rows: Rows, now: real)
    requires forall r | r in rows :: r.expiresAt > now
    ensures Live(rows, now) == rows
  {
    if rows != [] {
      SplitEnd(rows);
      LiveAll(rows[..|rows| - 1], now);
    }
  }

  lemma {:induction false} BytesOfOnes(s: Rows)
    requires forall r | r in s :: r.bytes == 1
    ensures Bytes(s) == |s|
  {
    if s != [] {
      BytesOfOnes(s[1..]);
    }
  }

  lemma {:induction false} OneTooMany(s: Rows)
    requires |s| == MAX_BUCKET_ENTRIES + 1 && forall r | r in s :: r.bytes == 1
    ensures Trim(s) == s[1..] && !Over(s[1..])
  {
    assert forall r | r in s[1..] :: r in s;
    BytesOfOnes(s[1..]);
    assert Trim(s[1..]) == s[1..];
  }

  lemma {:induction false} CrowdFacts(s: Rows)
    requires IsCrowd(s)
    ensures SortedByTime(s) && DistinctTimes(s) && UniqueIds(s)
    ensures forall r | r in s :: r.bytes == 1 && r.expiresAt == 100.0 && BucketKey(r) == [0] + UNKNOWN
  {
    forall i, j | 0 <= i < j < 11 ensures s[i].id != s[j].id && s[i].storedAt < s[j].storedAt {
      assert s[i].id[0] == i && s[j].id[0] == j;
    }
  }

  /** The file keeps the ten records in quarantine and drops the trusted one. */
  lemma {:induction false} HighestTierGoesFirst()
    ensures UniqueIds(Crowd()) && Written(Crowd(), 50.0) == Crowd()[1..]
    ensures Crowd()[0].tier == 2 && forall r | r in Written(Crowd(), 50.0) :: r.tier == 0
  {
    CrowdWritten(Crowd());
    CrowdTiers(Crowd());
    CrowdFacts(Crowd());
  }

  lemma {:induction false} CrowdTiers(s: Rows)
    requires IsCrowd(s)
    ensures s[0].tier == 2 && forall r | r in s[1..] :: r.tier == 0
  {
    assert forall i | 0 <= i < 10 :: s[1..][i] == s[i + 1];
  }

  lemma {:induction false} CrowdWritten(s: Rows)
    requires IsCrowd(s)
    ensures Written(s, 50.0) == s[1..]
  {
    CrowdFacts(s);
    LiveAll(s, 50.0);
    WrittenIgnoresTiers(s, 50.0);
    CrowdTrimmed(s);
  }

  lemma {:induction false} CrowdTrimmed(s: Rows)
    requires IsCrowd(s)
    ensures EvictAll(SortByTime(TrimmedBuckets(s, Keys(s)))) == s[1..]
  {
    CrowdFacts(s);
    SortSorted(s);
    OneBucketLeft(s, [0] + UNKNOWN);
    OneTooMany(s);
    SuffixSorted(s, 1);
  }

  lemma {:induction false} OneBucketLeft(s: Rows, key: Text)
    requires forall r | r in s :: BucketKey(r) == key
    ensures TrimmedBuckets(s, Keys(s)) == Trim(SortByTime(s))
  {
    var t := TrimmedBuckets(s, Keys(s));
    BucketsTrimmed(s, key);
    SingleBucket(s, key, key);
    KeysNoDup(s);
    forall r | r in t ensures BucketKey(r) == key {
      assert r in multiset(t);
      TrimmedPart(s, Keys(s), r);
      assert r in multiset(s);
    }
    SingleBucket(t, key, key);
  }
}
