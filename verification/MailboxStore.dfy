/** `mailbox/Store.kt`: the stored list, as it is before and after each call. */
module MailboxStore {
  import opened Seqs
  import opened Texts
  import opened MailboxPrune

  // ---------------------------------------------------------------- sortMailboxForRetention

  /** `sortMailboxForRetention` puts lower tiers first, then older records. */
  predicate RetentionLess(a: Record, b: Record) {
    a.tier < b.tier || (a.tier == b.tier && a.storedAt < b.storedAt)
  }

  function InsertForRetention(e: Record, s: Rows): Rows {
    if s == [] || !RetentionLess(e, s[|s| - 1]) then s + [e]
    else InsertForRetention(e, s[..|s| - 1]) + [s[|s| - 1]]
  }

  function SortForRetention(s: Rows): Rows {
    if s == [] then [] else InsertForRetention(s[|s| - 1], SortForRetention(s[..|s| - 1]))
  }

  function Live(rows: Rows, now: real): Rows {
    if rows == [] then []
    else Live(rows[..|rows| - 1], now) + (if rows[|rows| - 1].expiresAt > now then [rows[|rows| - 1]] else [])
  }

  /** What `writeAll` leaves in the file. */
  function Written(rows: Rows, now: real): Rows {
    var sorted := SortForRetention(Live(rows, now));
    EvictAll(SortByTime(TrimmedBuckets(sorted, Keys(sorted))))
  }

  method WriteAll(rows: Rows, now: real) returns (kept: Rows)
    ensures kept == Written(rows, now)
  {
    var buckets := PruneMailboxBuckets(SortForRetention(Live(rows, now)));
    kept := PruneMailboxGlobalFair(buckets);
  }

  predicate HasId(rows: Rows, id: Text) {
    exists i :: 0 <= i < |rows| && rows[i].id == id
  }

  /** `storeMailboxRecord`. `acceptable` stands for the checks on the record's own fields. */
  method StoreRecord(rows: Rows, record: Record, acceptable: bool, now: real) returns (stored: bool, file: Rows)
    ensures stored == (acceptable && !HasId(rows, record.id))
    ensures file == if stored then Written(rows + [record], now) else rows
  {
    if !acceptable || HasId(rows, record.id) {
      return false, rows;
    }
    file := WriteAll(rows + [record], now);
    stored := true;
  }

  // ---------------------------------------------------------------- what the file keeps

  lemma {:induction false} RetentionPermutes(s: Rows)
    ensures multiset(SortForRetention(s)) == multiset(s)
  {
    if s != [] {
      RetentionPermutes(s[..|s| - 1]);
      assert s == s[..|s| - 1] + [s[|s| - 1]];
      InsertRetentionPermutes(s[|s| - 1], SortForRetention(s[..|s| - 1]));
    }
  }

  lemma {:induction false} InsertRetentionPermutes(e: Record, s: Rows)
    ensures multiset(InsertForRetention(e, s)) == multiset(s) + multiset{e}
  {
    if s != [] && RetentionLess(e, s[|s| - 1]) {
      InsertRetentionPermutes(e, s[..|s| - 1]);
      assert s == s[..|s| - 1] + [s[|s| - 1]];
    }
  }

  ghost predicate SortedForRetention(s: Rows) {
    forall i, j | 0 <= i < j < |s| :: !RetentionLess(s[j], s[i])
  }

  lemma {:induction false} InsertForRetentionSorts(e: Record, s: Rows)
    requires SortedForRetention(s)
    ensures SortedForRetention(InsertForRetention(e, s))
  {
    if s != [] && RetentionLess(e, s[|s| - 1]) {
      var init, last := s[..|s| - 1], s[|s| - 1];
      var t := InsertForRetention(e, init);
      InsertForRetentionSorts(e, init);
      InsertRetentionPermutes(e, init);
      forall i | 0 <= i < |t| ensures !RetentionLess(last, t[i]) {
        assert t[i] in multiset(t);
        if t[i] != e {
          assert t[i] in multiset(init);
        }
      }
    }
  }

  /** Before pruning, lower tiers come first and, within a tier, older records. */
  lemma {:induction false} SortedByTier(s: Rows)
    ensures SortedForRetention(SortForRetention(s)) && multiset(SortForRetention(s)) == multiset(s)
    ensures var t := SortForRetention(s);
      forall i, j | 0 <= i < j < |t| ::
        t[i].tier < t[j].tier || (t[i].tier == t[j].tier && t[i].storedAt <= t[j].storedAt)
  {
    RetentionPermutes(s);
    if s != [] {
      SortedByTier(s[..|s| - 1]);
      InsertForRetentionSorts(s[|s| - 1], SortForRetention(s[..|s| - 1]));
    }
  }

  /** The records of one tier and instant, in list order. */
  function Level(s: Rows, tier: int, time: real): Rows {
    if s == [] then []
    else
      var last := s[|s| - 1];
      Level(s[..|s| - 1], tier, time) + (if last.tier == tier && last.storedAt == time then [last] else [])
  }

  lemma {:induction false} LevelSnoc(s: Rows, r: Record, tier: int, time: real)
    ensures Level(s + [r], tier, time)
      == Level(s, tier, time) + (if r.tier == tier && r.storedAt == time then [r] else [])
  {
    assert (s + [r])[..|s|] == s;
  }

  lemma {:induction false} InsertKeepsLevels(e: Record, s: Rows, tier: int, time: real)
    ensures Level(InsertForRetention(e, s), tier, time) == Level(s + [e], tier, time)
  {
    if s == [] || !RetentionLess(e, s[|s| - 1]) {
      assert InsertForRetention(e, s) == s + [e];
    } else {
      var init, last := s[..|s| - 1], s[|s| - 1];
      InsertKeepsLevels(e, init, tier, time);
      LevelSnoc(InsertForRetention(e, init), last, tier, time);
      LevelSnoc(init, e, tier, time);
      LevelSnoc(s, e, tier, time);
    }
  }

  /** The sort is stable: records of one tier and instant keep their order. */
  lemma {:induction false} RetentionStable(s: Rows, tier: int, time: real)
    ensures Level(SortForRetention(s), tier, time) == Level(s, tier, time)
  {
    if s != [] {
      var init, last := s[..|s| - 1], s[|s| - 1];
      RetentionStable(init, tier, time);
      InsertKeepsLevels(last, SortForRetention(init), tier, time);
      LevelSnoc(SortForRetention(init), last, tier, time);
    }
  }

  lemma {:induction false} LivePart(rows: Rows, now: real)
    ensures multiset(Live(rows, now)) <= multiset(rows)
    ensures forall r | r in Live(rows, now) :: r.expiresAt > now
  {
    if rows != [] {
      LivePart(rows[..|rows| - 1], now);
      assert rows == rows[..|rows| - 1] + [rows[|rows| - 1]];
    }
  }

  lemma {:induction false} SuffixPart(s: Rows, k: nat)
    requires k <= |s|
    ensures multiset(s[k..]) <= multiset(s)
  {
    assert s == s[..k] + s[k..];
  }

  lemma {:induction false} OneBucketPart(rows: Rows, key: Text, r: Record)
    ensures multiset(Trim(SortByTime(Bucket(rows, key))))[r] <= if BucketKey(r) == key then multiset(rows)[r] else 0
  {
    SortSorts(Bucket(rows, key));
    TrimPart(SortByTime(Bucket(rows, key)));
    BucketOfPermutation(rows, key, r);
  }

  lemma {:induction false} TrimPart(s: Rows)
    ensures multiset(Trim(s)) <= multiset(s)
  {
    TrimLongest(s);
    SuffixPart(s, |s| - |Trim(s)|);
  }

  lemma {:induction false} CountConcat(a: Rows, b: Rows, r: Record)
    ensures multiset(a + b)[r] == multiset(a)[r] + multiset(b)[r]
  {
  }

  /** Records of different buckets are different records, so trimming bucket by bucket never repeats one. */
  lemma {:induction false} TrimmedPart(rows: Rows, keys: seq<Text>, r: Record)
    requires NoDup(keys)
    ensures multiset(TrimmedBuckets(rows, keys))[r] <= if BucketKey(r) in keys then multiset(rows)[r] else 0
  {
    if keys != [] {
      var init, key := keys[..|keys| - 1], keys[|keys| - 1];
      TrimmedPart(rows, init, r);
      OneBucketPart(rows, key, r);
      LastKey(keys, BucketKey(r));
      CountConcat(TrimmedBuckets(rows, init), Trim(SortByTime(Bucket(rows, key))), r);
    }
  }

  lemma {:induction false} WithoutIdPart(s: Rows, id: Text)
    ensures multiset(WithoutId(s, id)) <= multiset(s)
  {
    if s != [] {
      WithoutIdPart(s[1..], id);
      assert s == [s[0]] + s[1..];
    }
  }

  lemma {:induction false} EvictAllPart(s: Rows)
    ensures multiset(EvictAll(s)) <= multiset(s)
    decreases |s|
  {
    if Over(s) && |s| > 1 {
      EvictShrinks(s);
      VictimExists(s);
      WithoutIdPart(s, Bucket(s, Heaviest(s, Keys(s)))[0].id);
      EvictAllPart(Evict(s));
    }
  }

  /** Writing only ever drops records, and leaves the file within its limits. */
  lemma {:induction false} EvictAllSorted(s: Rows)
    requires SortedByTime(s)
    ensures SortedByTime(EvictAll(s))
    decreases |s|
  {
    if Over(s) && |s| > 1 {
      EvictShrinks(s);
      EvictKeepsSorted(s);
      EvictAllSorted(Evict(s));
    }
  }

  lemma {:induction false} WrittenPart(rows: Rows, now: real)
    ensures multiset(Written(rows, now)) <= multiset(rows)
    ensures forall r | r in Written(rows, now) :: r.expiresAt > now
    ensures |Written(rows, now)| <= 500 && (Bytes(Written(rows, now)) <= 52_428_800 || |Written(rows, now)| <= 1)
    ensures SortedByTime(Written(rows, now))
  {
    var live := Live(rows, now);
    var sorted := SortForRetention(live);
    var trimmed := TrimmedBuckets(sorted, Keys(sorted));
    LivePart(rows, now);
    RetentionPermutes(live);
    KeysNoDup(sorted);
    forall r ensures multiset(trimmed)[r] <= multiset(sorted)[r] {
      TrimmedPart(sorted, Keys(sorted), r);
    }
    SortSorts(trimmed);
    EvictAllPart(SortByTime(trimmed));
    EvictAllEnds(SortByTime(trimmed));
    EvictAllSorted(SortByTime(trimmed));
    forall r | r in Written(rows, now) ensures r.expiresAt > now {
      assert r in multiset(Written(rows, now));
      assert r in multiset(live);
    }
  }

  lemma {:induction false} LiveExactly(rows: Rows, now: real, r: Record)
    ensures multiset(Live(rows, now))[r] == if r.expiresAt > now then multiset(rows)[r] else 0
  {
    if rows != [] {
      LiveExactly(rows[..|rows| - 1], now, r);
      assert rows == rows[..|rows| - 1] + [rows[|rows| - 1]];
    }
  }

  lemma {:induction false} TakeOut(s: Rows, j: nat)
    requires j < |s|
    ensures multiset(s[..j] + s[j + 1..]) == multiset(s) - multiset{s[j]}
    ensures Bytes(s) == Bytes(s[..j] + s[j + 1..]) + s[j].bytes
  {
    assert s == s[..j] + [s[j]] + s[j + 1..];
    BytesOfTwo(s[..j] + [s[j]], s[j + 1..]);
    BytesOfTwo(s[..j], [s[j]]);
    BytesOfTwo(s[..j], s[j + 1..]);
  }

  /** The byte count does not depend on the arrangement. */
  lemma {:induction false} BytesPermuted(s: Rows, t: Rows)
    requires multiset(s) == multiset(t)
    ensures Bytes(s) == Bytes(t) && |s| == |t|
  {
    SameSize(s, t);
    if s != [] {
      assert s == [s[0]] + s[1..];
      assert s[0] in multiset(t);
      var j :| 0 <= j < |t| && t[j] == s[0];
      TakeOut(t, j);
      BytesPermuted(s[1..], t[..j] + t[j + 1..]);
    }
  }

  lemma {:induction false} BucketOverPermuted(s: Rows, t: Rows, key: Text)
    requires multiset(s) == multiset(t)
    ensures BucketOver(Bucket(s, key)) == BucketOver(Bucket(t, key))
  {
    forall r ensures multiset(Bucket(s, key))[r] == multiset(Bucket(t, key))[r] {
      BucketOfPermutation(s, key, r);
      BucketOfPermutation(t, key, r);
    }
    BytesPermuted(Bucket(s, key), Bucket(t, key));
  }

  lemma {:induction false} OneBucketWhole(rows: Rows, key: Text, r: Record)
    requires !BucketOver(Bucket(rows, key))
    ensures multiset(Trim(SortByTime(Bucket(rows, key))))[r] == if BucketKey(r) == key then multiset(rows)[r] else 0
  {
    SortSorts(Bucket(rows, key));
    BytesPermuted(Bucket(rows, key), SortByTime(Bucket(rows, key)));
    BucketOfPermutation(rows, key, r);
  }

  lemma {:induction false} TrimmedWhole(rows: Rows, keys: seq<Text>, r: Record)
    requires NoDup(keys) && forall k | k in keys :: !BucketOver(Bucket(rows, k))
    ensures multiset(TrimmedBuckets(rows, keys))[r] == if BucketKey(r) in keys then multiset(rows)[r] else 0
  {
    if keys != [] {
      var init, key := keys[..|keys| - 1], keys[|keys| - 1];
      TrimmedWhole(rows, init, r);
      OneBucketWhole(rows, key, r);
      LastKey(keys, BucketKey(r));
      CountConcat(TrimmedBuckets(rows, init), Trim(SortByTime(Bucket(rows, key))), r);
    }
  }

  lemma {:induction false} KeyListed(rows: Rows, r: Record)
    requires r in multiset(rows)
    ensures BucketKey(r) in Keys(rows)
  {
    var i :| 0 <= i < |rows| && rows[i] == r;
    KeysMembers(rows);
  }

  /** While every bucket and the whole are within their limits, writing loses no live record. */
  lemma {:induction false} NothingLostWithinLimits(rows: Rows, now: real)
    requires !Over(Live(rows, now)) && forall key :: !BucketOver(Bucket(Live(rows, now), key))
    ensures multiset(Written(rows, now)) == multiset(Live(rows, now))
  {
    var live := Live(rows, now);
    var sorted := SortForRetention(live);
    RetentionPermutes(live);
    forall key ensures !BucketOver(Bucket(sorted, key)) {
      BucketOverPermuted(sorted, live, key);
    }
    TrimmedAll(sorted);
    NoEviction(TrimmedBuckets(sorted, Keys(sorted)), live);
  }

  lemma {:induction false} TrimmedAll(s: Rows)
    requires forall key :: !BucketOver(Bucket(s, key))
    ensures multiset(TrimmedBuckets(s, Keys(s))) == multiset(s)
  {
    KeysNoDup(s);
    forall r ensures multiset(TrimmedBuckets(s, Keys(s)))[r] == multiset(s)[r] {
      TrimmedWhole(s, Keys(s), r);
      if r in multiset(s) {
        KeyListed(s, r);
      }
    }
  }

  lemma {:induction false} NoEviction(s: Rows, t: Rows)
    requires multiset(s) == multiset(t) && !Over(t)
    ensures multiset(EvictAll(SortByTime(s))) == multiset(t)
  {
    SortSorts(s);
    BytesPermuted(SortByTime(s), t);
  }

  /** Ids in the file stay unique, whatever is stored and whenever. */
  lemma {:induction false} StoreKeepsIdsUnique(rows: Rows, record: Record, now: real)
    requires UniqueIds(rows) && !HasId(rows, record.id)
    ensures UniqueIds(Written(rows + [record], now))
  {
    assert UniqueIds(rows + [record]);
    WrittenPart(rows + [record], now);
    UniqueByContents(rows + [record], Written(rows + [record], now));
  }

  // ---------------------------------------------------------------- permutations

  lemma {:induction false} SameSize(s: Rows, t: Rows)
    requires multiset(s) == multiset(t)
    ensures |s| == |t|
  {
    assert |multiset(s)| == |s| && |multiset(t)| == |t|;
  }

  lemma {:induction false} BucketOfPermutation(s: Rows, key: Text, r: Record)
    ensures multiset(Bucket(s, key))[r] == if BucketKey(r) == key then multiset(s)[r] else 0
  {
    if s != [] {
      BucketOfPermutation(s[1..], key, r);
      assert s == [s[0]] + s[1..];
      assert Bucket(s, key) == (if BucketKey(s[0]) == key then [s[0]] else []) + Bucket(s[1..], key);
    }
  }
}
