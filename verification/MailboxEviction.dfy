/** Which records global eviction takes: an exact account, record by record. */
module MailboxEviction {
  import opened Seqs
  import opened Texts
  import opened MailboxPrune

  /** The weight of the first record's bucket. At place `i` of a list, `HeadWeight(t[i..])` is what the bucket of that
      record weighs when the record is its oldest. */
  function HeadWeight(t: Rows): nat
    requires t != []
  {
    Score(Bucket(t, BucketKey(t[0])))
  }

  /** The records that are still there when the turn comes to weight `w` and place `n`: the lighter ones, and of those
      that weigh as much the ones from place `n` on. */
  function StillThere(t: Rows, w: nat, n: nat): Rows {
    if t == [] then []
    else
      (if HeadWeight(t) < w || (HeadWeight(t) == w && n == 0) then [t[0]] else [])
      + StillThere(t[1..], w, if n == 0 then 0 else n - 1)
  }

  /** What is left at the turn of place `i`, itself included. */
  function LeftAt(t: Rows, i: nat): Rows
    requires i < |t|
  {
    StillThere(t, HeadWeight(t[i..]), i)
  }

  /** At its turn the list is within its limits, or the record is the only one left. */
  predicate LevelFits(t: Rows, i: nat)
    requires i < |t|
  {
    !Over(LeftAt(t, i)) || |LeftAt(t, i)| <= 1
  }

  // ---------------------------------------------------------------- whose turn it is

  /** Ties go to the bucket that appears first: every key before the heaviest is strictly lighter. */
  lemma {:induction false} HeaviestIsFirst(s: Rows, keys: seq<Text>, n: nat)
    requires n < |keys| && Heaviest(s, keys) !in keys[..n]
    ensures forall c | c in keys[..n] :: Score(Bucket(s, c)) < Score(Bucket(s, Heaviest(s, keys)))
  {
    if n > 0 {
      var init, last := keys[..|keys| - 1], keys[|keys| - 1];
      var k := Heaviest(s, init);
      assert keys[..n] == init[..n];
      if Score(Bucket(s, last)) > Score(Bucket(s, k)) {
        assert forall c | c in init[..n] :: c in init;
      } else {
        HeaviestBefore(init, n, k);
        HeaviestIsFirst(s, init, n);
      }
    }
  }

  lemma {:induction false} HeaviestBefore(keys: seq<Text>, n: nat, k: Text)
    requires n <= |keys| && k in keys && k !in keys[..n]
    ensures n < |keys|
  {
    assert keys == keys[..n] + keys[n..];
  }

  lemma {:induction false} KeysOfPrefix(s: Rows, m: nat)
    requires m <= |s|
    ensures Keys(s[..m]) <= Keys(s)
  {
    if m == |s| {
      assert s[..m] == s;
    } else {
      KeysOfPrefix(s[..|s| - 1], m);
      assert s[..|s| - 1][..m] == s[..m];
    }
  }

  lemma {:induction false} BucketOfSuffix(t: Rows, j: nat, key: Text)
    requires j <= |t|
    ensures Bucket(t, key) == Bucket(t[..j], key) + Bucket(t[j..], key)
  {
    BucketConcat(t[..j], t[j..], key);
    assert t == t[..j] + t[j..];
  }

  lemma {:induction false} ScoreOfSuffix(a: Rows, b: Rows)
    ensures Score(b) <= Score(a + b)
  {
    if a == [] {
      assert a + b == b;
    } else {
      ScoreOfSuffix(a[1..], b);
      TailConcat(a, b);
    }
  }

  lemma {:induction false} WeightBound(t: Rows, j: nat)
    requires j < |t|
    ensures HeadWeight(t[j..]) <= Score(Bucket(t, BucketKey(t[j])))
  {
    BucketOfSuffix(t, j, BucketKey(t[j]));
    ScoreOfSuffix(Bucket(t[..j], BucketKey(t[j])), Bucket(t[j..], BucketKey(t[j])));
  }

  ghost predicate IsTop(t: Rows, m: nat) {
    && m < |t| && Bucket(t[..m], BucketKey(t[m])) == []
    && (forall j | 0 <= j < |t| :: HeadWeight(t[j..]) <= HeadWeight(t[m..]))
    && (forall j | 0 <= j < m :: HeadWeight(t[j..]) < HeadWeight(t[m..]))
  }

  lemma {:induction false} EarlierKeyLighter(t: Rows, m: nat, j: nat)
    requires t != [] && Keys(t) != [] && j < m < |t| && Bucket(t[..m], Heaviest(t, Keys(t))) == []
    ensures Score(Bucket(t, BucketKey(t[j]))) < Score(Bucket(t, Heaviest(t, Keys(t))))
  {
    var v := Heaviest(t, Keys(t));
    var n := KeysBefore(t, m, v);
    PlaceHasKey(t[..m], j);
    assert t[..m][j] == t[j];
    HeaviestBefore(Keys(t), n, v);
    HeaviestIsFirst(t, Keys(t), n);
  }

  lemma {:induction false} KeysBefore(t: Rows, m: nat, key: Text) returns (n: nat)
    requires m <= |t| && Bucket(t[..m], key) == []
    ensures n <= |Keys(t)| && Keys(t)[..n] == Keys(t[..m]) && key !in Keys(t[..m])
  {
    KeysOfPrefix(t, m);
    n := |Keys(t[..m])|;
    if key in Keys(t[..m]) {
      KeyHasRecord(t[..m], key);
    }
  }

  lemma {:induction false} PlaceHasKey(s: Rows, j: nat)
    requires j < |s|
    ensures BucketKey(s[j]) in Keys(s)
  {
    KeysMembers(s);
  }

  lemma {:induction false} KeyHasRecord(s: Rows, key: Text)
    requires key in Keys(s)
    ensures Bucket(s, key) != []
  {
    KeysMembers(s);
    BucketMembers(s, key);
    var i :| 0 <= i < |s| && BucketKey(s[i]) == key;
    assert s[i] in Bucket(s, key);
  }

  /** One eviction takes the record of the greatest weight and, among equals, the first. */
  lemma {:induction false} EvictTakesTop(t: Rows) returns (m: nat)
    requires t != [] && UniqueIds(t)
    ensures IsTop(t, m) && Evict(t) == t[..m] + t[m + 1..]
  {
    VictimExists(t);
    var v := Heaviest(t, Keys(t));
    m := FirstOfBucket(t, v);
    BucketOfSuffix(t, m, v);
    WithoutIdUnique(t, m);
    assert t[m..][0] == t[m] && [] + Bucket(t[m..], v) == Bucket(t[m..], v);
    assert HeadWeight(t[m..]) == Score(Bucket(t, v));
    forall j | 0 <= j < |t| ensures HeadWeight(t[j..]) <= HeadWeight(t[m..]) {
      WeightBound(t, j);
      HeaviestOfAll(t, BucketKey(t[j]));
    }
    forall j | 0 <= j < m ensures HeadWeight(t[j..]) < HeadWeight(t[m..]) {
      WeightBound(t, j);
      EarlierKeyLighter(t, m, j);
    }
  }

  // ---------------------------------------------------------------- what a turn leaves

  /** The list without place `m`. */
  function Without(t: Rows, m: nat): Rows
    requires m < |t|
  {
    t[..m] + t[m + 1..]
  }

  lemma {:induction false} WithoutTail(t: Rows, m: nat)
    requires 0 < m < |t|
    ensures Without(t, m) == [t[0]] + Without(t[1..], m - 1)
  {
    assert t[1..][..m - 1] == t[1..m] && t[1..][m..] == t[m + 1..];
  }

  lemma {:induction false} BucketWithout(t: Rows, m: nat, key: Text)
    requires m < |t| && BucketKey(t[m]) != key
    ensures Bucket(Without(t, m), key) == Bucket(t, key)
  {
    BucketSplit(t, m, key);
    BucketConcat(t[..m], t[m + 1..], key);
  }

  lemma {:induction false} NoneBefore(t: Rows, m: nat)
    requires 0 < m < |t| && Bucket(t[..m], BucketKey(t[m])) == []
    ensures BucketKey(t[0]) != BucketKey(t[m]) && Bucket(t[1..][..m - 1], BucketKey(t[m])) == []
  {
    assert t[..m][1..] == t[1..][..m - 1] && t[..m][0] == t[0];
  }

  /** Taking out a bucket's oldest record changes nobody else's weight. */
  lemma {:induction false} WeightsKept(t: Rows, m: nat, j: nat)
    requires m < |t| && Bucket(t[..m], BucketKey(t[m])) == [] && j < |t| - 1
    ensures HeadWeight(Without(t, m)[j..]) == HeadWeight(t[if j < m then j else j + 1..])
    decreases m
  {
    if j >= m {
      assert Without(t, m)[j..] == t[j + 1..];
    } else if j == 0 {
      NoneBefore(t, m);
      BucketWithout(t, m, BucketKey(t[0]));
      assert Without(t, m)[0..] == Without(t, m) && t[0..] == t;
    } else {
      NoneBefore(t, m);
      WithoutTail(t, m);
      WeightsKept(t[1..], m - 1, j - 1);
      assert Without(t, m)[j..] == Without(t[1..], m - 1)[j - 1..] && t[1..][j - 1..] == t[j..];
    }
  }

  lemma {:induction false} StillThereCons(r: Record, s: Rows, w: nat, n: nat)
    ensures StillThere([r] + s, w, n)
      == (if HeadWeight([r] + s) < w || (HeadWeight([r] + s) == w && n == 0) then [r] else [])
        + StillThere(s, w, if n == 0 then 0 else n - 1)
  {
    assert ([r] + s)[1..] == s;
  }

  lemma {:induction false} StillThereSame(r: Record, s: Rows, t: Rows, w: nat, n: nat, m: nat)
    requires HeadWeight([r] + s) == HeadWeight([r] + t) && (n == 0 <==> m == 0)
    requires StillThere(s, w, if n == 0 then 0 else n - 1) == StillThere(t, w, if m == 0 then 0 else m - 1)
    ensures StillThere([r] + s, w, n) == StillThere([r] + t, w, m)
  {
    StillThereCons(r, s, w, n);
    StillThereCons(r, t, w, m);
  }

  lemma {:induction false} StillThereFirst(t: Rows, w: nat, n: nat)
    requires t != [] && (HeadWeight(t[0..]) > w || (HeadWeight(t[0..]) == w && 0 < n))
    ensures StillThere(Without(t, 0), w, if 0 < n then n - 1 else n) == StillThere(t, w, n)
  {
    assert Without(t, 0) == t[1..] && t[0..] == t;
  }

  lemma {:induction false} RestParts(t: Rows, m: nat)
    requires 0 < m < |t| && Bucket(t[..m], BucketKey(t[m])) == []
    ensures Without(t, m) == [t[0]] + Without(t[1..], m - 1) && [t[0]] + t[1..] == t
    ensures t[1..][m - 1..] == t[m..] && Bucket(t[1..][..m - 1], BucketKey(t[1..][m - 1])) == []
  {
    NoneBefore(t, m);
    WithoutTail(t, m);
  }

  lemma {:induction false} HeadKept(t: Rows, m: nat)
    requires 0 < m < |t| && Bucket(t[..m], BucketKey(t[m])) == []
    ensures HeadWeight([t[0]] + Without(t[1..], m - 1)) == HeadWeight([t[0]] + t[1..])
  {
    NoneBefore(t, m);
    WithoutTail(t, m);
    BucketWithout(t, m, BucketKey(t[0]));
    assert [t[0]] + t[1..] == t;
  }

  /** A record whose turn has passed leaves no trace. */
  lemma {:induction false} StillThereWithout(t: Rows, m: nat, w: nat, n: nat)
    requires m < |t| && Bucket(t[..m], BucketKey(t[m])) == []
    requires HeadWeight(t[m..]) > w || (HeadWeight(t[m..]) == w && m < n)
    ensures StillThere(Without(t, m), w, if m < n then n - 1 else n) == StillThere(t, w, n)
    decreases m
  {
    if m == 0 {
      StillThereFirst(t, w, n);
    } else {
      var rest, k := t[1..], if n == 0 then 0 else n - 1;
      HeadKept(t, m);
      RestParts(t, m);
      StillThereWithout(rest, m - 1, w, k);
      StillThereSame(t[0], rest, Without(rest, m - 1), w, n, if m < n then n - 1 else n);
    }
  }

  lemma {:induction false} StillThereWhole(t: Rows, w: nat, n: nat)
    requires forall j | 0 <= j < |t| :: HeadWeight(t[j..]) < w || (HeadWeight(t[j..]) == w && j >= n)
    ensures StillThere(t, w, n) == t
  {
    if t != [] {
      assert t[0..] == t && HeadWeight(t[0..]) == HeadWeight(t);
      assert HeadWeight(t) < w || (HeadWeight(t) == w && n == 0);
      forall j | 0 <= j < |t[1..]|
        ensures HeadWeight(t[1..][j..]) < w || (HeadWeight(t[1..][j..]) == w && j >= (if n == 0 then 0 else n - 1))
      {
        assert t[1..][j..] == t[j + 1..];
      }
      StillThereWhole(t[1..], w, if n == 0 then 0 else n - 1);
      assert [t[0]] + t[1..] == t;
    }
  }

  lemma {:induction false} StillThereBound(t: Rows, w: nat, n: nat)
    ensures |StillThere(t, w, n)| <= |t| && Bytes(StillThere(t, w, n)) <= Bytes(t)
  {
    if t != [] {
      var rest := StillThere(t[1..], w, if n == 0 then 0 else n - 1);
      StillThereBound(t[1..], w, if n == 0 then 0 else n - 1);
      assert ([t[0]] + rest)[1..] == rest && [] + rest == rest;
    }
  }

  // ---------------------------------------------------------------- who survives

  lemma {:induction false} WithoutAt(t: Rows, m: nat, k: nat)
    requires m < |t| && k < |t| - 1
    ensures |Without(t, m)| == |t| - 1 && Without(t, m)[k] == t[if k < m then k else k + 1]
  {
  }

  lemma {:induction false} TopPrecedes(t: Rows, m: nat, i: nat)
    requires IsTop(t, m) && i < |t| && i != m
    ensures HeadWeight(t[m..]) > HeadWeight(t[i..]) || (HeadWeight(t[m..]) == HeadWeight(t[i..]) && m < i)
  {
    assert HeadWeight(t[i..]) <= HeadWeight(t[m..]);
    assert i < m ==> HeadWeight(t[i..]) < HeadWeight(t[m..]);
  }

  lemma {:induction false} LeftAtWithout(t: Rows, m: nat, i: nat, k: nat)
    requires m < |t| && i < |t| && i != m && k == (if i < m then i else i - 1)
    requires Bucket(t[..m], BucketKey(t[m])) == []
    requires HeadWeight(t[m..]) > HeadWeight(t[i..]) || (HeadWeight(t[m..]) == HeadWeight(t[i..]) && m < i)
    ensures k < |Without(t, m)| && LeftAt(Without(t, m), k) == LeftAt(t, i)
  {
    WithoutAt(t, m, k);
    WeightsKept(t, m, k);
    StillThereWithout(t, m, HeadWeight(t[i..]), i);
  }

  /** When one record goes, everyone else's case stays as it was. */
  lemma {:induction false} TurnStep(t: Rows, m: nat, i: nat)
    requires IsTop(t, m) && i < |t| && i != m
    ensures var k := if i < m then i else i - 1;
      k < |Without(t, m)| && Without(t, m)[k] == t[i] && LeftAt(Without(t, m), k) == LeftAt(t, i)
  {
    var k := if i < m then i else i - 1;
    WithoutAt(t, m, k);
    TopPrecedes(t, m, i);
    LeftAtWithout(t, m, i, k);
  }

  lemma {:induction false} TopTurn(t: Rows, m: nat)
    requires IsTop(t, m)
    ensures LeftAt(t, m) == t
  {
    StillThereWhole(t, HeadWeight(t[m..]), m);
  }

  /** Eviction goes by falling weight and, within a weight, by place: a record survives exactly when, with everything
      whose turn comes before its own gone, the list is within its limits or it is alone. */
  lemma {:induction false} SurvivesEvictionIff(t: Rows, i: nat)
    requires UniqueIds(t) && i < |t|
    ensures t[i] in EvictAll(t) <==> LevelFits(t, i)
    decreases |t|
  {
    if Over(t) && |t| > 1 {
      var m := EvictTakesTop(t);
      EvictShrinks(t);
      UniqueWithout(t, m);
      if i == m {
        TopTurn(t, m);
        GoneStaysGone(t, m);
      } else {
        TurnStep(t, m, i);
        SurvivesEvictionIff(Without(t, m), if i < m then i else i - 1);
      }
    } else {
      StillThereBound(t, HeadWeight(t[i..]), i);
    }
  }

  lemma {:induction false} EvictAllKeepsSome(t: Rows, r: Record)
    requires r in EvictAll(t)
    ensures r in t
    decreases |t|
  {
    if Over(t) && |t| > 1 {
      EvictShrinks(t);
      EvictAllKeepsSome(Evict(t), r);
      VictimExists(t);
      WithoutIdShrinks(t, Bucket(t, Heaviest(t, Keys(t)))[0].id);
    }
  }

  lemma {:induction false} GoneStaysGone(t: Rows, m: nat)
    requires UniqueIds(t) && m < |t|
    ensures t[m] !in EvictAll(Without(t, m))
  {
    if t[m] in EvictAll(Without(t, m)) {
      EvictAllKeepsSome(Without(t, m), t[m]);
      OtherIds(t, m, t[m]);
    }
  }

  lemma {:induction false} OtherIds(t: Rows, m: nat, r: Record)
    requires UniqueIds(t) && m < |t| && r in Without(t, m)
    ensures r.id != t[m].id
  {
    var k :| 0 <= k < |t| - 1 && Without(t, m)[k] == r;
    assert Without(t, m)[k] == t[if k < m then k else k + 1];
  }
}
