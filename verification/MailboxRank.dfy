/** Which live records the mailbox file keeps, through both pruning passes, and when tiers are respected. */
module MailboxRank {
  import opened Texts
  import opened MailboxPrune
  import opened MailboxStore
  import opened MailboxTiers
  import opened MailboxEviction

  /** What bucket pruning hands on to global eviction, oldest first. */
  function Contenders(rows: Rows, now: real): Rows {
    SortByTime(Trimmed(Live(rows, now)))
  }

  /** The live records of one bucket in the order in which it gives them up. */
  function LiveByAge(rows: Rows, now: real, key: Text): Rows {
    ByAge(Live(rows, now), key)
  }

  // ---------------------------------------------------------------- places and records

  lemma {:induction false} ContendersUnique(rows: Rows, now: real)
    requires UniqueIds(rows)
    ensures UniqueIds(Contenders(rows, now))
  {
    TrimmedUnique(rows, now);
    SortSorts(Trimmed(Live(rows, now)));
    UniqueByContents(Trimmed(Live(rows, now)), Contenders(rows, now));
  }

  lemma {:induction false} LiveByAgeUnique(rows: Rows, now: real, key: Text)
    requires UniqueIds(rows)
    ensures UniqueIds(LiveByAge(rows, now, key))
    ensures forall r | r in LiveByAge(rows, now, key) :: BucketKey(r) == key
  {
    var live, s := Live(rows, now), LiveByAge(rows, now, key);
    ByAgeSorted(live, key);
    LivePart(rows, now);
    forall r ensures multiset(s)[r] <= multiset(rows)[r] {
      BucketOfPermutation(live, key, r);
    }
    UniqueByContents(rows, s);
    BucketMembers(live, key);
    forall r | r in s ensures BucketKey(r) == key {
      assert r in multiset(s);
    }
  }

  lemma {:induction false} InSuffix(s: Rows, k: nat, i: nat)
    requires UniqueIds(s) && k <= |s| && i < |s|
    ensures s[i] in s[k..] <==> i >= k
  {
    if i >= k {
      assert s[k..][i - k] == s[i];
    }
    if s[i] in s[k..] {
      var j :| 0 <= j < |s| - k && s[k..][j] == s[i];
      assert s[k + j] == s[i];
    }
  }

  /** The bucket of the contenders is the part of it that fits. */
  lemma {:induction false} ContendersOfBucket(rows: Rows, now: real, key: Text)
    ensures var s := LiveByAge(rows, now, key);
      |Trim(s)| <= |s| && Bucket(Contenders(rows, now), key) == s[|s| - |Trim(s)|..]
  {
    var s := LiveByAge(rows, now, key);
    BucketOfSorted(Trimmed(Live(rows, now)), key);
    BucketsTrimmed(SortForRetention(Live(rows, now)), key);
    ByAgeSorted(Live(rows, now), key);
    var k := SortedTrim(s);
  }

  lemma {:induction false} ContendsIff(rows: Rows, now: real, key: Text, i: nat)
    requires UniqueIds(rows) && i < |LiveByAge(rows, now, key)|
    ensures LiveByAge(rows, now, key)[i] in Contenders(rows, now) <==> !BucketOver(LiveByAge(rows, now, key)[i..])
  {
    var s := LiveByAge(rows, now, key);
    LiveByAgeUnique(rows, now, key);
    ContendersOfBucket(rows, now, key);
    BucketMembers(Contenders(rows, now), key);
    assert s[i] in s;
    InSuffix(s, |s| - |Trim(s)|, i);
    FitsFrom(s, i);
  }

  // ---------------------------------------------------------------- who is in the file

  /** At the record's turn among the contenders the whole is within its limits. */
  ghost predicate FitsWhole(c: Rows, r: Record) {
    exists j :: 0 <= j < |c| && c[j] == r && LevelFits(c, j)
  }

  /** The record at this place of its bucket fits its bucket together with the newer ones, and its turn in global
      eviction finds the whole within its limits. */
  ghost predicate Fits(rows: Rows, now: real, key: Text, i: nat)
    requires i < |LiveByAge(rows, now, key)|
  {
    !BucketOver(LiveByAge(rows, now, key)[i..]) && FitsWhole(Contenders(rows, now), LiveByAge(rows, now, key)[i])
  }

  /** With unique ids, a live record is in the file exactly when it fits its bucket and its turn fits the whole. */
  lemma {:induction false} InFileIff(rows: Rows, now: real, key: Text, i: nat)
    requires UniqueIds(rows) && i < |LiveByAge(rows, now, key)|
    ensures LiveByAge(rows, now, key)[i] in Written(rows, now) <==> Fits(rows, now, key, i)
  {
    var c, r := Contenders(rows, now), LiveByAge(rows, now, key)[i];
    ContendersUnique(rows, now);
    ContendsIff(rows, now, key, i);
    if r in Written(rows, now) {
      EvictAllKeepsSome(c, r);
      var j :| 0 <= j < |c| && c[j] == r;
      SurvivesEvictionIff(c, j);
    }
    if j :| 0 <= j < |c| && c[j] == r && LevelFits(c, j) {
      SurvivesEvictionIff(c, j);
    }
  }

  /** The weight that decides a record's turn is that of its bucket from it on. */
  lemma {:induction false} TurnWeight(rows: Rows, now: real, key: Text, i: nat, j: nat)
    requires UniqueIds(rows) && i < |LiveByAge(rows, now, key)| && j < |Contenders(rows, now)|
    requires Contenders(rows, now)[j] == LiveByAge(rows, now, key)[i]
    ensures HeadWeight(Contenders(rows, now)[j..]) == Score(LiveByAge(rows, now, key)[i..])
  {
    var c, s := Contenders(rows, now), LiveByAge(rows, now, key);
    LiveByAgeUnique(rows, now, key);
    ContendersOfBucket(rows, now, key);
    assert s[i] in s;
    BucketOfSuffix(c, j, key);
    SameSuffix(s, |s| - |Trim(s)|, Bucket(c[..j], key), Bucket(c[j..], key), i);
  }

  lemma {:induction false} SameSuffix(s: Rows, k: nat, a: Rows, b: Rows, i: nat)
    requires UniqueIds(s) && k <= |s| && s[k..] == a + b && b != [] && i < |s| && b[0] == s[i]
    ensures b == s[i..]
  {
    assert s[k..][|a|] == b[0] && s[k + |a|] == b[0];
    assert b == s[k..][|a|..];
  }

  /** In the file every bucket is within its limits. */
  lemma {:induction false} FileBucketsFit(rows: Rows, now: real, key: Text)
    requires UniqueIds(rows)
    ensures var b := Bucket(Written(rows, now), key); |b| <= 10 && Bytes(b) <= 2_097_152
  {
    var s := LiveByAge(rows, now, key);
    var k := WrittenBucketIsNewest(rows, now, key);
    if k < |s| {
      BucketMembers(Written(rows, now), key);
      assert s[k..][0] == s[k] && s[k..][0] in s[k..];
      InFileIff(rows, now, key, k);
    }
  }

  // ---------------------------------------------------------------- when tiers are respected

  /** No live record of the bucket that the file drops has a higher tier than one that it keeps. */
  ghost predicate FileRankRespected(rows: Rows, now: real, key: Text) {
    forall a, b | a in Bucket(Live(rows, now), key) && b in Bucket(Live(rows, now), key) ::
      a !in Written(rows, now) && b in Written(rows, now) ==> a.tier <= b.tier
  }

  /** An older record of higher tier does not fit, a newer one of lower tier does. */
  ghost predicate OutlivedInFile(rows: Rows, now: real, key: Text, i: nat, j: nat)
    requires i < j < |LiveByAge(rows, now, key)|
  {
    var s := LiveByAge(rows, now, key);
    s[i].storedAt < s[j].storedAt && s[i].tier > s[j].tier && !Fits(rows, now, key, i) && Fits(rows, now, key, j)
  }

  lemma {:induction false} LiveByAgeHolds(rows: Rows, now: real, key: Text, r: Record)
    ensures r in Bucket(Live(rows, now), key) <==> r in LiveByAge(rows, now, key)
  {
    ByAgeSorted(Live(rows, now), key);
    assert r in Bucket(Live(rows, now), key) <==> r in multiset(Bucket(Live(rows, now), key));
    assert r in LiveByAge(rows, now, key) <==> r in multiset(LiveByAge(rows, now, key));
  }

  /** What is dropped is older than what is kept. */
  lemma {:induction false} DroppedIsOlder(rows: Rows, now: real, key: Text, i: nat, j: nat)
    requires UniqueIds(rows) && i < |LiveByAge(rows, now, key)| && j < |LiveByAge(rows, now, key)|
    requires LiveByAge(rows, now, key)[i] !in Written(rows, now) && LiveByAge(rows, now, key)[j] in Written(rows, now)
    ensures i < j
  {
    var s := LiveByAge(rows, now, key);
    LiveByAgeUnique(rows, now, key);
    var k := WrittenBucketIsNewest(rows, now, key);
    BucketMembers(Written(rows, now), key);
    assert s[i] in s && s[j] in s;
    InSuffix(s, k, i);
    InSuffix(s, k, j);
  }

  lemma {:induction false} RespectedOnlyIf(rows: Rows, now: real, key: Text, i: nat, j: nat)
    requires UniqueIds(rows) && FileRankRespected(rows, now, key) && i < j < |LiveByAge(rows, now, key)|
    ensures !OutlivedInFile(rows, now, key, i, j)
  {
    var s := LiveByAge(rows, now, key);
    InFileIff(rows, now, key, i);
    InFileIff(rows, now, key, j);
    assert s[i] in s && s[j] in s;
    LiveByAgeHolds(rows, now, key, s[i]);
    LiveByAgeHolds(rows, now, key, s[j]);
  }

  lemma {:induction false} PlaceByAge(rows: Rows, now: real, key: Text, r: Record) returns (i: nat)
    requires r in Bucket(Live(rows, now), key)
    ensures i < |LiveByAge(rows, now, key)| && LiveByAge(rows, now, key)[i] == r
  {
    LiveByAgeHolds(rows, now, key, r);
    i :| 0 <= i < |LiveByAge(rows, now, key)| && LiveByAge(rows, now, key)[i] == r;
  }

  lemma {:induction false} OutlivedOtherwise(rows: Rows, now: real, key: Text, i: nat, j: nat)
    requires UniqueIds(rows) && i < |LiveByAge(rows, now, key)| && j < |LiveByAge(rows, now, key)|
    requires LiveByAge(rows, now, key)[i] !in Written(rows, now) && LiveByAge(rows, now, key)[j] in Written(rows, now)
    requires LiveByAge(rows, now, key)[i].tier > LiveByAge(rows, now, key)[j].tier
    ensures i < j && OutlivedInFile(rows, now, key, i, j)
  {
    DroppedIsOlder(rows, now, key, i, j);
    AgeThenTier(Live(rows, now), key, i, j);
    InFileIff(rows, now, key, i);
    InFileIff(rows, now, key, j);
  }

  /** In the file low tiers go first exactly when no older record of higher tier stops fitting, its bucket or the
      whole, before a newer one of lower tier of its bucket does. */
  lemma {:induction false} FileRankRespectedIff(rows: Rows, now: real, key: Text)
    requires UniqueIds(rows)
    ensures FileRankRespected(rows, now, key) <==>
      forall i, j | 0 <= i < j < |LiveByAge(rows, now, key)| :: !OutlivedInFile(rows, now, key, i, j)
  {
    if FileRankRespected(rows, now, key) {
      forall i, j | 0 <= i < j < |LiveByAge(rows, now, key)| ensures !OutlivedInFile(rows, now, key, i, j) {
        RespectedOnlyIf(rows, now, key, i, j);
      }
    } else {
      var a, b :| a in Bucket(Live(rows, now), key) && b in Bucket(Live(rows, now), key)
        && a !in Written(rows, now) && b in Written(rows, now) && a.tier > b.tier;
      var i := PlaceByAge(rows, now, key, a);
      var j := PlaceByAge(rows, now, key, b);
      OutlivedOtherwise(rows, now, key, i, j);
    }
  }

  // ---------------------------------------------------------------- buckets that fit, and still a trusted record goes

  const BUCKETS := 26

  function Old(k: nat): Record
    requires k < BUCKETS
  {
    Record([2 * k], [k], [], [], 1_000_000, (2 * k) as real, 100.0, 2)
  }

  function New(k: nat): Record
    requires k < BUCKETS
  {
    Record([2 * k + 1], [k], [], [], 1_097_152, (2 * k + 1) as real, 100.0, 0)
  }

  /** From bucket `k` on, a trusted record and a newer one in quarantine; a pair just fills a bucket. */
  function Pairs(k: nat): Rows
    requires k <= BUCKETS
    decreases BUCKETS - k
  {
    if k == BUCKETS then [] else [Old(k), New(k)] + Pairs(k + 1)
  }

  /** The newer records alone. */
  function News(k: nat): Rows
    requires k <= BUCKETS
    decreases BUCKETS - k
  {
    if k == BUCKETS then [] else [New(k)] + News(k + 1)
  }

  lemma {:induction false} AfterTwo(a: Record, b: Record, s: Rows, r: Record)
    requires r in [a, b] + s && r != a && r != b
    ensures r in s
  {
  }

  lemma {:induction false} PairsMembers(k: nat, r: Record) returns (i: nat)
    requires k <= BUCKETS && r in Pairs(k)
    ensures k <= i < BUCKETS && (r == Old(i) || r == New(i))
    decreases BUCKETS - k
  {
    i := k;
    if r != Old(k) && r != New(k) {
      AfterTwo(Old(k), New(k), Pairs(k + 1), r);
      i := PairsMembers(k + 1, r);
    }
  }

  lemma {:induction false} PairCons(k: nat)
    requires k < BUCKETS
    ensures Pairs(k) == [Old(k)] + ([New(k)] + Pairs(k + 1))
  {
  }

  lemma {:induction false} PairsTail(k: nat)
    requires k < BUCKETS
    ensures Pairs(k)[1..] == [New(k)] + Pairs(k + 1) && Pairs(k)[1..][1..] == Pairs(k + 1) && Pairs(k)[0] == Old(k)
    ensures Pairs(k)[1..][0] == New(k)
  {
  }

  ghost predicate Rising(s: Rows) {
    forall i, j | 0 <= i < j < |s| :: s[i].storedAt < s[j].storedAt && s[i].id != s[j].id
  }

  lemma {:induction false} RisingCons(r: Record, s: Rows)
    requires Rising(s) && forall x | x in s :: r.storedAt < x.storedAt && r.id != x.id
    ensures Rising([r] + s)
  {
    var t := [r] + s;
    forall i, j | 0 <= i < j < |t| ensures t[i].storedAt < t[j].storedAt && t[i].id != t[j].id {
      assert t[j] in s;
      if i > 0 {
        assert t[i] == s[i - 1] && t[j] == s[j - 1];
      }
    }
  }

  lemma {:induction false} LaterPairs(k: nat, x: Record)
    requires k < BUCKETS && x in Pairs(k + 1)
    ensures Old(k).storedAt < New(k).storedAt < x.storedAt
    ensures Old(k).id != New(k).id && Old(k).id != x.id && New(k).id != x.id
  {
    var i := PairsMembers(k + 1, x);
    assert x.id[0] >= 2 * i > 2 * k + 1 && New(k).id[0] == 2 * k + 1 && Old(k).id[0] == 2 * k;
  }

  lemma {:induction false} PairsRise(k: nat)
    requires k <= BUCKETS
    ensures Rising(Pairs(k))
    decreases BUCKETS - k
  {
    if k < BUCKETS {
      PairsRise(k + 1);
      assert Old(k).storedAt < New(k).storedAt && Old(k).id[0] != New(k).id[0];
      forall x | x in Pairs(k + 1) ensures New(k).storedAt < x.storedAt && New(k).id != x.id {
        LaterPairs(k, x);
      }
      RisingCons(New(k), Pairs(k + 1));
      forall x | x in [New(k)] + Pairs(k + 1) ensures Old(k).storedAt < x.storedAt && Old(k).id != x.id {
        if x != New(k) {
          LaterPairs(k, x);
        }
      }
      RisingCons(Old(k), [New(k)] + Pairs(k + 1));
      PairCons(k);
    }
  }

  lemma {:induction false} RisingFacts(s: Rows)
    requires Rising(s)
    ensures SortedByTime(s) && DistinctTimes(s) && UniqueIds(s)
  {
  }

  lemma {:induction false} PairSizes(k: nat)
    requires k <= BUCKETS
    ensures Bytes(Pairs(k)) == (BUCKETS - k) * 2_097_152 && |Pairs(k)| == (BUCKETS - k) * 2
    ensures Bytes(News(k)) == (BUCKETS - k) * 1_097_152 && |News(k)| == BUCKETS - k
    decreases BUCKETS - k
  {
    if k < BUCKETS {
      PairSizes(k + 1);
      PairsTail(k);
      assert News(k)[1..] == News(k + 1);
    }
  }

  lemma {:induction false} KeyOfPair(k: nat)
    requires k < BUCKETS
    ensures BucketKey(Old(k)) == BucketKey(New(k)) == [k, 0] + UNKNOWN
  {
  }

  lemma {:induction false} BucketOfPairs(k: nat, m: nat)
    requires k <= BUCKETS && m < BUCKETS
    ensures Bucket(Pairs(k), [m, 0] + UNKNOWN) == if k <= m then [Old(m), New(m)] else []
    decreases BUCKETS - k
  {
    if k < BUCKETS {
      BucketOfPairs(k + 1, m);
      PairsTail(k);
      KeyOfPair(k);
      KeysDiffer(k, m);
    }
  }

  lemma {:induction false} KeysDiffer(k: nat, m: nat)
    requires k < BUCKETS && m < BUCKETS
    ensures [k, 0] + UNKNOWN == [m, 0] + UNKNOWN <==> k == m
  {
    assert ([k, 0] + UNKNOWN)[0] == k && ([m, 0] + UNKNOWN)[0] == m;
  }

  lemma {:induction false} PairScores(k: nat)
    requires k < BUCKETS
    ensures Score([New(k)]) == ENTRY_WEIGHT + 1_097_152 && Score([Old(k), New(k)]) == 2 * ENTRY_WEIGHT + 2_097_152
    ensures Bytes([Old(k), New(k)]) == MAX_BUCKET_BYTES
  {
    BytesOfPair(Old(k), New(k));
  }

  lemma {:induction false} BytesOfPair(a: Record, b: Record)
    ensures Bytes([b]) == b.bytes && Bytes([a, b]) == a.bytes + b.bytes
  {
    assert [a, b][1..] == [b] && [b][1..] == [];
  }

  lemma {:induction false} NewBucket(k: nat)
    requires k < BUCKETS
    ensures Bucket([New(k)] + Pairs(k + 1), BucketKey(New(k))) == [New(k)]
  {
    KeyOfPair(k);
    BucketOfPairs(k + 1, k);
    assert ([New(k)] + Pairs(k + 1))[1..] == Pairs(k + 1);
  }

  /** What each record's bucket weighs from it on. */
  lemma {:induction false} PairWeights(k: nat)
    requires k < BUCKETS
    ensures HeadWeight(Pairs(k)) == 2 * ENTRY_WEIGHT + 2_097_152
    ensures HeadWeight([New(k)] + Pairs(k + 1)) == ENTRY_WEIGHT + 1_097_152
  {
    KeyOfPair(k);
    BucketOfPairs(k, k);
    NewBucket(k);
    PairScores(k);
  }

  lemma {:induction false} BothStillThere(a: Record, b: Record, t: Rows, w: nat)
    requires HeadWeight([a] + ([b] + t)) <= w && HeadWeight([b] + t) <= w && StillThere(t, w, 0) == t
    ensures StillThere([a] + ([b] + t), w, 0) == [a] + ([b] + t)
  {
    StillThereCons(a, [b] + t, w, 0);
    StillThereCons(b, t, w, 0);
  }

  lemma {:induction false} SecondStillThere(a: Record, b: Record, t: Rows, u: Rows, w: nat)
    requires HeadWeight([a] + ([b] + t)) > w && HeadWeight([b] + t) <= w && StillThere(t, w, 0) == u
    ensures StillThere([a] + ([b] + t), w, 0) == [b] + u && StillThere([a] + ([b] + t), w, 1) == [b] + u
  {
    StillThereCons(a, [b] + t, w, 0);
    StillThereCons(a, [b] + t, w, 1);
    StillThereCons(b, t, w, 0);
  }

  lemma {:induction false} AllAtTheTop(k: nat)
    requires k <= BUCKETS
    ensures StillThere(Pairs(k), 2 * ENTRY_WEIGHT + 2_097_152, 0) == Pairs(k)
    decreases BUCKETS - k
  {
    if k < BUCKETS {
      AllAtTheTop(k + 1);
      PairCons(k);
      PairWeights(k);
      BothStillThere(Old(k), New(k), Pairs(k + 1), 2 * ENTRY_WEIGHT + 2_097_152);
    }
  }

  lemma {:induction false} NewsAtTheEnd(k: nat)
    requires k <= BUCKETS
    ensures StillThere(Pairs(k), ENTRY_WEIGHT + 1_097_152, 0) == News(k)
    decreases BUCKETS - k
  {
    if k < BUCKETS {
      NewsAtTheEnd(k + 1);
      PairCons(k);
      PairWeights(k);
      SecondStillThere(Old(k), New(k), Pairs(k + 1), News(k + 1), ENTRY_WEIGHT + 1_097_152);
    }
  }

  lemma {:induction false} OldTurn(k: nat)
    requires k < BUCKETS
    ensures LeftAt(Pairs(k), 0) == Pairs(k)
  {
    PairWeights(k);
    AllAtTheTop(k);
    assert Pairs(k)[0..] == Pairs(k);
  }

  lemma {:induction false} NewTurn(k: nat)
    requires k < BUCKETS
    ensures LeftAt(Pairs(k), 1) == News(k)
  {
    var w := ENTRY_WEIGHT + 1_097_152;
    PairWeights(k);
    PairCons(k);
    assert Pairs(k)[1..] == [New(k)] + Pairs(k + 1);
    NewsAtTheEnd(k + 1);
    SecondStillThere(Old(k), New(k), Pairs(k + 1), News(k + 1), w);
  }

  lemma {:induction false} FirstGoes(t: Rows)
    requires UniqueIds(t) && |t| >= 2 && LeftAt(t, 0) == t && Over(t) && !Over(LeftAt(t, 1))
    ensures t[0] !in EvictAll(t) && t[1] in EvictAll(t)
  {
    SurvivesEvictionIff(t, 0);
    SurvivesEvictionIff(t, 1);
  }

  /** The trusted record of the first of too many pairs goes, its newer neighbour stays. */
  lemma {:induction false} OldestGoes(k: nat)
    requires k < BUCKETS && Over(Pairs(k)) && !Over(News(k))
    ensures Old(k) !in EvictAll(Pairs(k)) && New(k) in EvictAll(Pairs(k))
  {
    PairsRise(k);
    RisingFacts(Pairs(k));
    PairCons(k);
    OldTurn(k);
    NewTurn(k);
    FirstGoes(Pairs(k));
  }

  // ---------------------------------------------------------------- the example through writeAll

  lemma {:induction false} PairsFit(k: nat, key: Text)
    requires k <= BUCKETS
    ensures !BucketOver(Bucket(Pairs(k), key))
  {
    var b := Bucket(Pairs(k), key);
    if b != [] {
      BucketMembers(Pairs(k), key);
      assert b[0] in b;
      var i := PairsMembers(k, b[0]);
      KeyOfPair(i);
      BucketOfPairs(k, i);
      PairScores(i);
    }
  }

  /** What bucket pruning leaves alone is in nobody's way. */
  lemma {:induction false} FittingIsRespected(rows: Rows, key: Text)
    requires !BucketOver(Bucket(rows, key))
    ensures RankRespected(rows, key)
  {
    var s := ByAge(rows, key);
    ByAgeSorted(rows, key);
    BytesPermuted(Bucket(rows, key), s);
    if s != [] {
      SurvivesIff(rows, key, 0);
      assert s[0..] == s;
    }
  }

  /** Where nothing is pruned from a bucket and times tell the records apart, eviction decides alone. */
  lemma {:induction false} EvictionDecides(rows: Rows, now: real)
    requires SortedByTime(rows) && DistinctTimes(rows)
    requires forall r | r in rows :: r.expiresAt > now
    requires forall key :: !BucketOver(Bucket(rows, key))
    ensures Live(rows, now) == rows && Written(rows, now) == EvictAll(rows)
  {
    LiveAll(rows, now);
    WrittenIgnoresTiers(rows, now);
    TrimmedAll(rows);
    SortSorts(TrimmedBuckets(rows, Keys(rows)));
    DistinctInMultiset(rows);
    SortedTimesUnique(rows, SortByTime(TrimmedBuckets(rows, Keys(rows))));
  }

  lemma {:induction false} PairsWritten(k: nat)
    requires k < BUCKETS
    ensures Live(Pairs(k), 50.0) == Pairs(k) && Written(Pairs(k), 50.0) == EvictAll(Pairs(k))
  {
    PairsRise(k);
    RisingFacts(Pairs(k));
    forall r | r in Pairs(k) ensures r.expiresAt > 50.0 {
      var i := PairsMembers(k, r);
    }
    forall key ensures !BucketOver(Bucket(Pairs(k), key)) {
      PairsFit(k, key);
    }
    EvictionDecides(Pairs(k), 50.0);
  }

  lemma {:induction false} PairInBucket(k: nat)
    requires k < BUCKETS
    ensures Old(k) in Bucket(Pairs(k), BucketKey(Old(k))) && New(k) in Bucket(Pairs(k), BucketKey(Old(k)))
  {
    KeyOfPair(k);
    BucketOfPairs(k, k);
  }

  lemma {:induction false} TrustedGoes(k: nat)
    requires k < BUCKETS && Over(Pairs(k)) && !Over(News(k))
    ensures UniqueIds(Pairs(k)) && forall key :: RankRespected(Live(Pairs(k), 50.0), key)
    ensures !FileRankRespected(Pairs(k), 50.0, BucketKey(Old(k)))
  {
    PairsRise(k);
    RisingFacts(Pairs(k));
    PairsWritten(k);
    forall key ensures RankRespected(Live(Pairs(k), 50.0), key) {
      PairsFit(k, key);
      FittingIsRespected(Pairs(k), key);
    }
    OldestGoes(k);
    PairInBucket(k);
  }

  /** In each of 26 buckets a trusted record and a newer one in quarantine. Every bucket fits, so bucket pruning
      respects tiers; the whole does not, and a trusted record goes while its newer neighbour stays. */
  lemma {:induction false} TrustedGoesUnderPressure()
    ensures UniqueIds(Pairs(0)) && forall key :: RankRespected(Live(Pairs(0), 50.0), key)
    ensures !FileRankRespected(Pairs(0), 50.0, BucketKey(Old(0)))
  {
    PairSizes(0);
    TrustedGoes(0);
  }
}
