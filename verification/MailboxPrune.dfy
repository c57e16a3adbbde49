/** `mailbox/Prune.kt`: per-bucket pruning and fair global eviction. */
module MailboxPrune {
  import opened Seqs
  import opened Texts

  /** A stored record. `bytes` is the length of its JSON text; times are finite numbers. */
  datatype Record = Record(id: Text, to: Text, from: Text, sender: Text, bytes: nat,
      storedAt: real, expiresAt: real, tier: nat)

  type Rows = seq<Record>

  const MAX_BUCKET_ENTRIES := 10
  const MAX_BUCKET_BYTES := 2 * 1024 * 1024
  const MAX_MAILBOX_ENTRIES := 500
  const MAX_MAILBOX_BYTES := 50 * 1024 * 1024
  const ENTRY_WEIGHT := 1_000_000
  /** "unknown" */
  const UNKNOWN: Text := [117, 110, 107, 110, 111, 119, 110]

  /** `mailboxBucketKey`: recipient and source; the source falls back to the envelope's sender. */
  function BucketKey(r: Record): Text {
    r.to + [0] + (if r.from != [] then r.from else if r.sender != [] then r.sender else UNKNOWN)
  }

  /** The node a record came from, else its envelope's sender, else "unknown". */
  function Source(from: Text, sender: Text): Text {
    if from != [] then from else if sender != [] then sender else [117, 110, 107, 110, 111, 119, 110]
  }

  lemma {:induction false} FirstZeroAt(a: Text, s: Text)
    requires 0 !in a
    ensures IndexOf(a + [0] + s, 0) == |a|
  {
    assert (a + [0] + s)[..|a|] == a;
    FirstIndex(a + [0] + s, |a|, 0);
  }

  lemma {:induction false} FirstZero(a: Text, s: Text, b: Text, t: Text)
    requires 0 !in a && 0 !in b && a + [0] + s == b + [0] + t
    ensures a == b && s == t
  {
    var u := a + [0] + s;
    FirstZeroAt(a, s);
    FirstZeroAt(b, t);
    assert a == u[..|a|] && b == u[..|b|] && s == u[|a| + 1..] && t == u[|b| + 1..];
  }

  /** Two records share a bucket exactly when recipient and source are the same, recipients being key hashes, which hold
      no zero unit. */
  lemma {:induction false} SameBucketIff(a: Record, b: Record)
    requires 0 !in a.to && 0 !in b.to
    ensures BucketKey(a) == BucketKey(b) <==> a.to == b.to && Source(a.from, a.sender) == Source(b.from, b.sender)
  {
    if BucketKey(a) == BucketKey(b) {
      FirstZero(a.to, Source(a.from, a.sender), b.to, Source(b.from, b.sender));
    }
  }

  // ---------------------------------------------------------------- lists of records

  function Bytes(s: Rows): nat {
    if s == [] then 0 else s[0].bytes + Bytes(s[1..])
  }

  /** The records of one bucket, in list order. */
  function Bucket(s: Rows, key: Text): Rows {
    if s == [] then [] else (if BucketKey(s[0]) == key then [s[0]] else []) + Bucket(s[1..], key)
  }

  function Score(s: Rows): nat {
    |s| * ENTRY_WEIGHT + Bytes(s)
  }

  function WithoutId(s: Rows, id: Text): Rows {
    if s == [] then [] else (if s[0].id != id then [s[0]] else []) + WithoutId(s[1..], id)
  }

  ghost predicate UniqueIds(s: Rows) {
    forall i, j | 0 <= i < j < |s| :: s[i].id != s[j].id
  }

  ghost predicate SortedByTime(s: Rows) {
    forall i, j | 0 <= i < j < |s| :: s[i].storedAt <= s[j].storedAt
  }

  /** `sortedWith(compareStoredAt)`: stable, oldest first. */
  function InsertByTime(e: Record, s: Rows): Rows {
    if s == [] || s[|s| - 1].storedAt <= e.storedAt then s + [e]
    else InsertByTime(e, s[..|s| - 1]) + [s[|s| - 1]]
  }

  function SortByTime(s: Rows): Rows {
    if s == [] then [] else InsertByTime(s[|s| - 1], SortByTime(s[..|s| - 1]))
  }

  /** The bucket keys in order of first appearance, as the keys of a `LinkedHashMap`. */
  function Keys(s: Rows): seq<Text> {
    if s == [] then []
    else
      var ks := Keys(s[..|s| - 1]);
      if BucketKey(s[|s| - 1]) in ks then ks else ks + [BucketKey(s[|s| - 1])]
  }

  // ---------------------------------------------------------------- pruneMailboxGlobalFair

  predicate Over(s: Rows) {
    |s| > MAX_MAILBOX_ENTRIES || Bytes(s) > MAX_MAILBOX_BYTES
  }

  /** The first bucket, in map order, whose score no earlier bucket reaches. */
  function Heaviest(s: Rows, keys: seq<Text>): (k: Text)
    requires keys != []
    ensures k in keys
    ensures forall c | c in keys :: Score(Bucket(s, c)) <= Score(Bucket(s, k))
  {
    if |keys| == 1 then keys[0]
    else
      var k := Heaviest(s, keys[..|keys| - 1]);
      assert keys == keys[..|keys| - 1] + [keys[|keys| - 1]];
      if Score(Bucket(s, keys[|keys| - 1])) > Score(Bucket(s, k)) then keys[|keys| - 1] else k
  }

  lemma {:induction false} KeysMembers(s: Rows)
    ensures forall k :: k in Keys(s) <==> exists i :: 0 <= i < |s| && BucketKey(s[i]) == k
  {
    if s != [] {
      KeysMembers(s[..|s| - 1]);
      assert forall i | 0 <= i < |s| - 1 :: s[..|s| - 1][i] == s[i];
    }
  }

  lemma {:induction false} BucketMembers(s: Rows, key: Text)
    ensures forall r :: r in Bucket(s, key) <==> r in s && BucketKey(r) == key
    ensures |Bucket(s, key)| <= |s|
  {
    if s != [] {
      BucketMembers(s[1..], key);
      assert s == [s[0]] + s[1..];
    }
  }

  lemma {:induction false} WithoutIdShrinks(s: Rows, id: Text)
    ensures |WithoutId(s, id)| <= |s|
    ensures (exists i :: 0 <= i < |s| && s[i].id == id) ==> |WithoutId(s, id)| < |s|
    ensures forall r :: r in WithoutId(s, id) <==> r in s && r.id != id
  {
    if s != [] {
      WithoutIdShrinks(s[1..], id);
      assert s == [s[0]] + s[1..];
      if i :| 0 <= i < |s| && s[i].id == id {
        assert i > 0 ==> s[1..][i - 1].id == id;
      }
    }
  }

  lemma {:induction false} VictimExists(s: Rows)
    requires s != []
    ensures Keys(s) != []
    ensures Bucket(s, Heaviest(s, Keys(s))) != []
  {
    KeysMembers(s);
    assert BucketKey(s[0]) in Keys(s);
    var v := Heaviest(s, Keys(s));
    var i :| 0 <= i < |s| && BucketKey(s[i]) == v;
    BucketMembers(s, v);
    assert s[i] in Bucket(s, v);
  }

  /** One eviction: the oldest record of the heaviest bucket goes. */
  function Evict(s: Rows): Rows
    requires s != []
  {
    VictimExists(s);
    WithoutId(s, Bucket(s, Heaviest(s, Keys(s)))[0].id)
  }

  lemma {:induction false} EvictShrinks(s: Rows)
    requires s != []
    ensures |Evict(s)| < |s|
  {
    VictimExists(s);
    var r := Bucket(s, Heaviest(s, Keys(s)))[0];
    BucketMembers(s, Heaviest(s, Keys(s)));
    assert r in Bucket(s, Heaviest(s, Keys(s)));
    var i :| 0 <= i < |s| && s[i] == r;
    WithoutIdShrinks(s, r.id);
  }

  function EvictAll(s: Rows): Rows
    decreases |s|
  {
    if Over(s) && |s| > 1 then
      EvictShrinks(s);
      EvictAll(Evict(s))
    else s
  }

  lemma {:induction false} BucketConcat(s: Rows, t: Rows, key: Text)
    ensures Bucket(s + t, key) == Bucket(s, key) + Bucket(t, key)
  {
    if s == [] {
      assert s + t == t;
    } else {
      BucketConcat(s[1..], t, key);
      TailConcat(s, t);
      ConcatAssociative(if BucketKey(s[0]) == key then [s[0]] else [], Bucket(s[1..], key), Bucket(t, key));
    }
  }

  lemma {:induction false} ConcatAssociative(a: Rows, b: Rows, c: Rows)
    ensures (a + b) + c == a + (b + c)
  {
  }

  lemma {:induction false} TailConcat(s: Rows, t: Rows)
    requires s != []
    ensures (s + t)[1..] == s[1..] + t && s + t != [] && (s + t)[0] == s[0]
  {
  }

  ghost predicate Grouped(rows: Rows, buckets: map<Text, Rows>) {
    forall k :: ListAt(buckets, k) == Bucket(rows, k)
  }

  lemma {:induction false} BucketSplit(s: Rows, i: nat, key: Text)
    requires i < |s|
    ensures Bucket(s, key) == Bucket(s[..i], key)
      + (if BucketKey(s[i]) == key then [s[i]] else []) + Bucket(s[i + 1..], key)
  {
    assert s == s[..i] + s[i..] && s[i..][1..] == s[i + 1..];
    BucketConcat(s[..i], s[i..], key);
  }

  lemma {:induction false} GroupStep(rows: Rows, i: nat, buckets: map<Text, Rows>)
    requires i < |rows| && Grouped(rows[..i], buckets)
    ensures Grouped(rows[..i + 1], buckets[BucketKey(rows[i]) := ListAt(buckets, BucketKey(rows[i])) + [rows[i]]])
  {
    var key := BucketKey(rows[i]);
    var next := buckets[key := ListAt(buckets, key) + [rows[i]]];
    forall k ensures ListAt(next, k) == Bucket(rows[..i + 1], k) {
      assert ListAt(buckets, k) == Bucket(rows[..i], k);
      BucketSnoc(rows, i, k);
    }
  }

  lemma {:induction false} BucketSnoc(rows: Rows, i: nat, key: Text)
    requires i < |rows|
    ensures Bucket(rows[..i + 1], key) == Bucket(rows[..i], key) + (if BucketKey(rows[i]) == key then [rows[i]] else [])
  {
    BucketConcat(rows[..i], [rows[i]], key);
    assert rows[..i + 1] == rows[..i] + [rows[i]];
  }

  /** Grouping into a `LinkedHashMap`: the keys in order of appearance, and each key's records in list order. */
  method GroupByBucket(rows: Rows) returns (keys: seq<Text>, buckets: map<Text, Rows>)
    ensures keys == Keys(rows) && Grouped(rows, buckets)
  {
    keys, buckets := [], map[];
    for i := 0 to |rows|
      invariant keys == Keys(rows[..i]) && Grouped(rows[..i], buckets)
    {
      var key := BucketKey(rows[i]);
      GroupStep(rows, i, buckets);
      assert rows[..i + 1][..i] == rows[..i];
      if key !in keys {
        keys := keys + [key];
      }
      buckets := buckets[key := ListAt(buckets, key) + [rows[i]]];
    }
    assert rows[..|rows|] == rows;
  }

  lemma {:induction false} KeysPrefix(keys: seq<Text>, i: nat)
    requires i < |keys|
    ensures keys[..i + 1][..i] == keys[..i] && keys[..|keys|] == keys
  {
  }

  lemma {:induction false} HeaviestNext(rows: Rows, keys: seq<Text>, i: nat)
    requires 0 < i < |keys|
    ensures var k, next := Heaviest(rows, keys[..i]), keys[i];
      Heaviest(rows, keys[..i + 1]) == if Score(Bucket(rows, next)) > Score(Bucket(rows, k)) then next else k
  {
    KeysPrefix(keys, i);
  }

  method SelectVictim(ghost rows: Rows, keys: seq<Text>, buckets: map<Text, Rows>) returns (victimKey: Text)
    requires keys != [] && Grouped(rows, buckets)
    ensures victimKey == Heaviest(rows, keys)
  {
    victimKey := keys[0];
    var victimScore: int := -1;
    for i := 0 to |keys|
      invariant i == 0 ==> victimScore == -1
      invariant i > 0 ==> victimKey == Heaviest(rows, keys[..i]) && victimScore == Score(Bucket(rows, victimKey))
    {
      if i > 0 {
        HeaviestNext(rows, keys, i);
      }
      var score := Score(ListAt(buckets, keys[i]));
      if score > victimScore {
        victimScore, victimKey := score, keys[i];
      }
    }
    KeysPrefix(keys, 0);
  }

  /** One turn of the eviction loop. Re-sorting the victim bucket changes nothing: it is already in order. */
  method EvictOne(kept: Rows) returns (r: Rows)
    requires kept != [] && SortedByTime(kept)
    ensures r == Evict(kept)
  {
    var keys, buckets := GroupByBucket(kept);
    VictimExists(kept);
    var victimKey := SelectVictim(kept, keys, buckets);
    var victimList := ListAt(buckets, victimKey);
    BucketSorted(kept, victimKey);
    SortSorted(victimList);
    var sortedVictim := SortByTime(victimList);
    r := WithoutId(kept, sortedVictim[0].id);
  }

  method PruneMailboxGlobalFair(rows: Rows) returns (kept: Rows)
    ensures kept == EvictAll(SortByTime(rows))
  {
    kept := SortByTime(rows);
    SortSorts(rows);
    while Over(kept) && |kept| > 1
      invariant SortedByTime(kept) && EvictAll(kept) == EvictAll(SortByTime(rows))
      decreases |kept|
    {
      EvictShrinks(kept);
      EvictKeepsSorted(kept);
      kept := EvictOne(kept);
    }
    assert |kept| <= MAX_MAILBOX_ENTRIES;
    kept := TakeLast(kept, MAX_MAILBOX_ENTRIES);
  }

  // ---------------------------------------------------------------- sorting

  lemma {:induction false} InsertSorts(e: Record, s: Rows)
    requires SortedByTime(s)
    ensures SortedByTime(InsertByTime(e, s))
    ensures multiset(InsertByTime(e, s)) == multiset(s) + multiset{e}
  {
    if s == [] || s[|s| - 1].storedAt <= e.storedAt {
      InsertNewest(e, s);
    } else {
      var init, last := s[..|s| - 1], s[|s| - 1];
      InsertSorts(e, init);
      SplitEnd(s);
      NoneLater(e, init, InsertByTime(e, init), last);
    }
  }

  lemma {:induction false} NoneLater(e: Record, init: Rows, t: Rows, last: Record)
    requires e.storedAt <= last.storedAt && multiset(t) == multiset(init) + multiset{e}
    requires forall j | 0 <= j < |init| :: init[j].storedAt <= last.storedAt
    ensures forall i | 0 <= i < |t| :: t[i].storedAt <= last.storedAt
  {
    forall i | 0 <= i < |t| ensures t[i].storedAt <= last.storedAt {
      assert t[i] in multiset(t);
      if t[i] != e {
        assert t[i] in multiset(init);
        var j :| 0 <= j < |init| && init[j] == t[i];
      }
    }
  }

  lemma {:induction false} SortSorts(s: Rows)
    ensures SortedByTime(SortByTime(s)) && multiset(SortByTime(s)) == multiset(s)
  {
    if s != [] {
      SortSorts(s[..|s| - 1]);
      assert s == s[..|s| - 1] + [s[|s| - 1]];
      InsertSorts(s[|s| - 1], SortByTime(s[..|s| - 1]));
    }
  }

  lemma {:induction false} InsertNewest(e: Record, s: Rows)
    requires s == [] || s[|s| - 1].storedAt <= e.storedAt
    ensures InsertByTime(e, s) == s + [e]
  {
  }

  lemma {:induction false} SplitEnd(s: Rows)
    requires s != []
    ensures s == s[..|s| - 1] + [s[|s| - 1]]
  {
  }

  lemma {:induction false} SortSorted(s: Rows)
    requires SortedByTime(s)
    ensures SortByTime(s) == s
  {
    if s != [] {
      var init, last := s[..|s| - 1], s[|s| - 1];
      SortSorted(init);
      InsertNewest(last, init);
      SplitEnd(s);
    }
  }

  /** The records stored at one instant, in list order. */
  function At(s: Rows, t: real): Rows {
    if s == [] then []
    else At(s[..|s| - 1], t) + (if s[|s| - 1].storedAt == t then [s[|s| - 1]] else [])
  }

  lemma {:induction false} AtSnoc(s: Rows, e: Record, t: real)
    ensures At(s + [e], t) == At(s, t) + (if e.storedAt == t then [e] else [])
  {
    assert (s + [e])[..|s|] == s;
  }

  lemma {:induction false} NotBoth(s: Rows, e: Record, last: Record, t: real)
    requires e.storedAt < last.storedAt
    ensures s + (if e.storedAt == t then [e] else []) + (if last.storedAt == t then [last] else [])
      == s + (if last.storedAt == t then [last] else []) + (if e.storedAt == t then [e] else [])
  {
  }

  lemma {:induction false} InsertStable(e: Record, s: Rows, t: real)
    ensures At(InsertByTime(e, s), t) == At(s, t) + (if e.storedAt == t then [e] else [])
  {
    if s == [] || s[|s| - 1].storedAt <= e.storedAt {
      AtSnoc(s, e, t);
    } else {
      var init, last := s[..|s| - 1], s[|s| - 1];
      InsertStable(e, init, t);
      AtSnoc(InsertByTime(e, init), last, t);
      NotBoth(At(init, t), e, last, t);
    }
  }

  /** The sort is stable: records stored at the same instant keep their order. */
  lemma {:induction false} SortStable(s: Rows, t: real)
    ensures At(SortByTime(s), t) == At(s, t)
  {
    if s != [] {
      SortStable(s[..|s| - 1], t);
      InsertStable(s[|s| - 1], SortByTime(s[..|s| - 1]), t);
    }
  }

  lemma {:induction false} BucketSorted(s: Rows, key: Text)
    requires SortedByTime(s)
    ensures SortedByTime(Bucket(s, key))
  {
    if s != [] {
      BucketSorted(s[1..], key);
      BucketMembers(s[1..], key);
      var b := Bucket(s[1..], key);
      forall i | 0 <= i < |b| ensures s[0].storedAt <= b[i].storedAt {
        assert b[i] in b;
        var j :| 0 <= j < |s[1..]| && s[1..][j] == b[i];
      }
    }
  }

  lemma {:induction false} WithoutIdSorted(s: Rows, id: Text)
    requires SortedByTime(s)
    ensures SortedByTime(WithoutId(s, id))
  {
    if s != [] {
      WithoutIdSorted(s[1..], id);
      WithoutIdShrinks(s[1..], id);
      var b := WithoutId(s[1..], id);
      forall i | 0 <= i < |b| ensures s[0].storedAt <= b[i].storedAt {
        assert b[i] in b;
        var j :| 0 <= j < |s[1..]| && s[1..][j] == b[i];
      }
    }
  }

  lemma {:induction false} EvictKeepsSorted(s: Rows)
    requires s != [] && SortedByTime(s)
    ensures SortedByTime(Evict(s))
  {
    VictimExists(s);
    WithoutIdSorted(s, Bucket(s, Heaviest(s, Keys(s)))[0].id);
  }

  // ---------------------------------------------------------------- what eviction guarantees

  /** Eviction stops within the entry limit, so the final `takeLast` never fires, and within the byte limit or
      at one record. */
  lemma {:induction false} EvictAllEnds(s: Rows)
    ensures !Over(EvictAll(s)) || |EvictAll(s)| <= 1
    ensures |EvictAll(s)| <= MAX_MAILBOX_ENTRIES
    decreases |s|
  {
    if Over(s) && |s| > 1 {
      EvictShrinks(s);
      EvictAllEnds(Evict(s));
    }
  }

  lemma {:induction false} WithoutIdUnique(s: Rows, i: nat)
    requires UniqueIds(s) && i < |s|
    ensures WithoutId(s, s[i].id) == s[..i] + s[i + 1..]
  {
    var id := s[i].id;
    if i == 0 {
      WithoutIdNone(s[1..], id);
      assert s[..0] + s[1..] == s[1..];
    } else {
      assert s[1..][i - 1] == s[i];
      WithoutIdUnique(s[1..], i - 1);
      assert [s[0]] + (s[1..][..i - 1] + s[1..][i..]) == s[..i] + s[i + 1..];
    }
  }

  lemma {:induction false} WithoutIdNone(s: Rows, id: Text)
    requires forall i | 0 <= i < |s| :: s[i].id != id
    ensures WithoutId(s, id) == s
  {
    if s != [] {
      WithoutIdNone(s[1..], id);
    }
  }

  lemma {:induction false} BucketKnown(s: Rows, key: Text)
    requires Bucket(s, key) != []
    ensures key in Keys(s)
  {
    var i := FirstOfBucket(s, key);
    KeysMembers(s);
  }

  lemma {:induction false} HeaviestOfAll(s: Rows, c: Text)
    requires s != []
    ensures Keys(s) != [] && Score(Bucket(s, c)) <= Score(Bucket(s, Heaviest(s, Keys(s))))
  {
    VictimExists(s);
    if Bucket(s, c) != [] {
      BucketKnown(s, c);
    }
  }

  /** Where the oldest record of a bucket stands in the list: after no other record of the bucket. */
  lemma {:induction false} FirstOfBucket(s: Rows, key: Text) returns (i: nat)
    requires Bucket(s, key) != []
    ensures i < |s| && s[i] == Bucket(s, key)[0] && BucketKey(s[i]) == key && Bucket(s[..i], key) == []
  {
    if BucketKey(s[0]) == key {
      i := 0;
    } else {
      var k := FirstOfBucket(s[1..], key);
      i := k + 1;
      assert s[..i][1..] == s[1..][..k];
    }
  }

  lemma {:induction false} RemoveFirst(s: Rows, i: nat, v: Text, b: Text)
    requires i < |s| && BucketKey(s[i]) == v && Bucket(s[..i], v) == []
    ensures Bucket(s, v) != []
    ensures Bucket(s[..i] + s[i + 1..], b) == if b == v then Bucket(s, b)[1..] else Bucket(s, b)
  {
    BucketSplit(s, i, v);
    BucketSplit(s, i, b);
    BucketConcat(s[..i], s[i + 1..], b);
    DropMiddle(s[i], Bucket(s[i + 1..], b));
    KeepAround(Bucket(s[..i], b), Bucket(s[i + 1..], b));
  }

  lemma {:induction false} DropMiddle(r: Record, after: Rows)
    ensures ([] + [r] + after)[1..] == [] + after && [] + [r] + after != []
  {
  }

  lemma {:induction false} KeepAround(before: Rows, after: Rows)
    ensures before + [] + after == before + after
  {
  }

  /** With unique ids, one eviction takes the oldest record of the heaviest bucket and nothing else. */
  lemma {:induction false} EvictBucket(s: Rows, b: Text)
    requires s != [] && UniqueIds(s)
    ensures Keys(s) != [] && Bucket(s, Heaviest(s, Keys(s))) != []
    ensures Bucket(Evict(s), b) == if b == Heaviest(s, Keys(s)) then Bucket(s, b)[1..] else Bucket(s, b)
    ensures UniqueIds(Evict(s))
  {
    VictimExists(s);
    var v := Heaviest(s, Keys(s));
    var i := FirstOfBucket(s, v);
    WithoutIdUnique(s, i);
    RemoveFirst(s, i, v, b);
    UniqueWithout(s, i);
  }

  lemma {:induction false} UniqueWithout(s: Rows, i: nat)
    requires UniqueIds(s) && i < |s|
    ensures UniqueIds(s[..i] + s[i + 1..])
  {
  }

  /** `kept` is what is left of `base`: each bucket a newest suffix of what it was, and, if it lost anything, no
      bucket now weighs more than it did with its last dropped record. */
  ghost predicate FairRemainder(base: Rows, kept: Rows, b: Text) {
    exists k: nat :: DroppedFairly(Bucket(base, b), k, kept, b)
  }

  /** The bucket lost its `k` oldest records, the last of them while it was the heaviest. */
  ghost predicate DroppedFairly(was: Rows, k: nat, kept: Rows, b: Text) {
    && k <= |was| && Bucket(kept, b) == was[k..]
    && (k > 0 ==> NoneHeavier(kept, Score(was[k - 1..])))
  }

  ghost predicate NoneHeavier(s: Rows, weight: nat) {
    forall c :: Score(Bucket(s, c)) <= weight
  }

  lemma {:induction false} EvictLightens(kept: Rows, weight: nat)
    requires kept != [] && UniqueIds(kept)
    ensures Keys(kept) != [] && NoneHeavier(kept, Score(Bucket(kept, Heaviest(kept, Keys(kept)))))
    ensures NoneHeavier(kept, weight) ==> NoneHeavier(Evict(kept), weight)
  {
    VictimExists(kept);
    forall c ensures Score(Bucket(kept, c)) <= Score(Bucket(kept, Heaviest(kept, Keys(kept)))) {
      HeaviestOfAll(kept, c);
    }
    forall c ensures Score(Bucket(Evict(kept), c)) <= Score(Bucket(kept, c)) {
      EvictBucket(kept, c);
    }
  }

  lemma {:induction false} EvictFairFor(base: Rows, kept: Rows, b: Text)
    requires kept != [] && UniqueIds(kept) && FairRemainder(base, kept, b)
    ensures FairRemainder(base, Evict(kept), b)
  {
    EvictBucket(kept, b);
    var was := Bucket(base, b);
    var k: nat :| DroppedFairly(was, k, kept, b);
    EvictLightens(kept, Score(was[k..]));
    if b == Heaviest(kept, Keys(kept)) {
      assert DroppedFairly(was, k + 1, Evict(kept), b);
    } else {
      if k > 0 {
        EvictLightens(kept, Score(was[k - 1..]));
      }
      assert DroppedFairly(was, k, Evict(kept), b);
    }
  }

  lemma {:induction false} EvictFair(base: Rows, kept: Rows)
    requires kept != [] && UniqueIds(kept) && forall b :: FairRemainder(base, kept, b)
    ensures UniqueIds(Evict(kept)) && forall b :: FairRemainder(base, Evict(kept), b)
  {
    EvictBucket(kept, []);
    forall b ensures FairRemainder(base, Evict(kept), b) {
      EvictFairFor(base, kept, b);
    }
  }

  lemma {:induction false} EvictAllFair(base: Rows, kept: Rows)
    requires UniqueIds(kept) && forall b :: FairRemainder(base, kept, b)
    ensures UniqueIds(EvictAll(kept)) && forall b :: FairRemainder(base, EvictAll(kept), b)
    decreases |kept|
  {
    if Over(kept) && |kept| > 1 {
      EvictFair(base, kept);
      EvictShrinks(kept);
      EvictAllFair(base, Evict(kept));
    }
  }

  /** Global eviction is fair: every bucket keeps its newest records, and a bucket that lost one is left no lighter
      than any other by more than the weight of the last record it lost. (How much goes is `SurvivesEvictionIff`.) */
  lemma {:induction false} GlobalEvictionIsFair(rows: Rows, b: Text)
    requires UniqueIds(rows)
    ensures var sorted := SortByTime(rows);
      UniqueIds(EvictAll(sorted)) && FairRemainder(sorted, EvictAll(sorted), b)
  {
    var sorted := SortByTime(rows);
    SortSorts(rows);
    UniqueByContents(rows, sorted);
    forall c ensures FairRemainder(sorted, sorted, c) {
      assert DroppedFairly(Bucket(sorted, c), 0, sorted, c);
    }
    EvictAllFair(sorted, sorted);
  }

  // ---------------------------------------------------------------- unique ids survive

  lemma {:induction false} TwiceMeansTwoPlaces(s: Rows, r: Record)
    requires multiset(s)[r] >= 2
    ensures exists i, j :: 0 <= i < j < |s| && s[i] == r && s[j] == r
  {
    var k := |s| - 1;
    assert s == s[..k] + [s[k]];
    if s[k] == r {
      assert multiset(s[..k])[r] >= 1;
      var i :| 0 <= i < k && s[..k][i] == r;
      assert s[i] == r && s[k] == r;
    } else {
      TwiceMeansTwoPlaces(s[..k], r);
      var i, j :| 0 <= i < j < k && s[..k][i] == r && s[..k][j] == r;
      assert s[i] == r && s[j] == r;
    }
  }

  lemma {:induction false} TwoPlacesMeanTwice(s: Rows, i: nat, j: nat)
    requires i < j < |s| && s[i] == s[j]
    ensures multiset(s)[s[i]] >= 2
  {
    var k := |s| - 1;
    assert s == s[..k] + [s[k]];
    if j == k {
      assert s[..k][i] == s[i];
      assert s[i] in multiset(s[..k]);
    } else {
      assert s[..k][i] == s[i] && s[..k][j] == s[j];
      TwoPlacesMeanTwice(s[..k], i, j);
    }
  }

  /** A part of a list with unique ids, in any arrangement, has unique ids. */
  lemma {:induction false} UniqueByContents(s: Rows, t: Rows)
    requires UniqueIds(s) && multiset(t) <= multiset(s)
    ensures UniqueIds(t)
  {
    forall i, j | 0 <= i < j < |t| ensures t[i].id != t[j].id {
      assert t[i] in multiset(t) && t[j] in multiset(t);
      if t[i] == t[j] {
        TwoPlacesMeanTwice(t, i, j);
        TwiceMeansTwoPlaces(s, t[i]);
      } else {
        var a :| 0 <= a < |s| && s[a] == t[i];
        var b :| 0 <= b < |s| && s[b] == t[j];
      }
    }
  }

  // ---------------------------------------------------------------- pruneMailboxBuckets

  predicate BucketOver(s: Rows) {
    |s| > MAX_BUCKET_ENTRIES || Bytes(s) > MAX_BUCKET_BYTES
  }

  /** Oldest records go until the bucket fits. */
  function Trim(s: Rows): Rows {
    if s != [] && BucketOver(s) then Trim(s[1..]) else s
  }

  function TrimmedBuckets(rows: Rows, keys: seq<Text>): Rows {
    if keys == [] then []
    else TrimmedBuckets(rows, keys[..|keys| - 1]) + Trim(SortByTime(Bucket(rows, keys[|keys| - 1])))
  }

  method TrimBucket(sorted: Rows) returns (bucket: Rows)
    ensures bucket == Trim(sorted)
  {
    bucket := sorted;
    var bytes: int := Bytes(bucket);
    while |bucket| > MAX_BUCKET_ENTRIES || bytes > MAX_BUCKET_BYTES
      invariant bytes == Bytes(bucket) && Trim(bucket) == Trim(sorted)
      decreases |bucket|
    {
      if bucket == [] {
        break;
      }
      var removed := bucket[0];
      bucket := bucket[1..];
      bytes := bytes - removed.bytes;
    }
  }

  lemma {:induction false} TrimmedNext(rows: Rows, keys: seq<Text>, i: nat)
    requires i < |keys|
    ensures TrimmedBuckets(rows, keys[..i + 1])
      == TrimmedBuckets(rows, keys[..i]) + Trim(SortByTime(Bucket(rows, keys[i])))
  {
    assert keys[..i + 1][..i] == keys[..i];
  }

  method PruneMailboxBuckets(rows: Rows) returns (out: Rows)
    ensures out == TrimmedBuckets(rows, Keys(rows))
  {
    var keys, buckets := GroupByBucket(rows);
    out := [];
    for i := 0 to |keys|
      invariant out == TrimmedBuckets(rows, keys[..i])
    {
      TrimmedNext(rows, keys, i);
      var bucket := TrimBucket(SortByTime(ListAt(buckets, keys[i])));
      out := out + bucket;
    }
    assert keys[..|keys|] == keys;
  }

  /** What is left of a bucket is its longest newest part that fits. */
  lemma {:induction false} TrimLongest(s: Rows)
    ensures |Trim(s)| <= |s| && Trim(s) == s[|s| - |Trim(s)|..] && !BucketOver(Trim(s))
    ensures forall k | 0 <= k < |s| - |Trim(s)| :: BucketOver(s[k..])
  {
    if s != [] && BucketOver(s) {
      TrimLongest(s[1..]);
      forall k | 0 <= k < |s| - |Trim(s)| ensures BucketOver(s[k..]) {
        assert k > 0 ==> s[k..] == s[1..][k - 1..];
      }
    }
  }

  lemma {:induction false} SingleBucket(s: Rows, key: Text, b: Text)
    requires forall r | r in s :: BucketKey(r) == key
    ensures Bucket(s, b) == if b == key then s else []
  {
    if s != [] {
      SingleBucket(s[1..], key, b);
    }
  }

  lemma {:induction false} TrimKeepsKey(rows: Rows, key: Text, b: Text)
    ensures Bucket(Trim(SortByTime(Bucket(rows, key))), b)
      == if b == key then Trim(SortByTime(Bucket(rows, key))) else []
  {
    var s := SortByTime(Bucket(rows, key));
    SortSorts(Bucket(rows, key));
    TrimLongest(s);
    forall r | r in Trim(s) ensures BucketKey(r) == key {
      assert r in multiset(s);
      BucketMembers(rows, key);
    }
    SingleBucket(Trim(s), key, b);
  }

  lemma {:induction false} LastKey(keys: seq<Text>, k: Text)
    requires NoDup(keys) && keys != []
    ensures var init, last := keys[..|keys| - 1], keys[|keys| - 1];
      NoDup(init) && (k in keys <==> k in init || k == last) && last !in init
  {
    assert keys == keys[..|keys| - 1] + [keys[|keys| - 1]];
  }

  lemma {:induction false} TrimmedBucket(rows: Rows, keys: seq<Text>, b: Text)
    requires NoDup(keys)
    ensures Bucket(TrimmedBuckets(rows, keys), b) == if b in keys then Trim(SortByTime(Bucket(rows, b))) else []
  {
    if keys != [] {
      var k := |keys| - 1;
      TrimmedBucket(rows, keys[..k], b);
      TrimKeepsKey(rows, keys[k], b);
      BucketConcat(TrimmedBuckets(rows, keys[..k]), Trim(SortByTime(Bucket(rows, keys[k]))), b);
      LastKey(keys, b);
    }
  }

  lemma {:induction false} KeysNoDup(s: Rows)
    ensures NoDup(Keys(s))
  {
    if s != [] {
      KeysNoDup(s[..|s| - 1]);
    }
  }

  /** Bucket pruning leaves of each bucket its longest newest part that fits, whatever the records' tiers. */
  lemma {:induction false} BucketsTrimmed(rows: Rows, b: Text)
    ensures Bucket(TrimmedBuckets(rows, Keys(rows)), b) == Trim(SortByTime(Bucket(rows, b)))
  {
    KeysNoDup(rows);
    TrimmedBucket(rows, Keys(rows), b);
    if Bucket(rows, b) != [] {
      BucketKnown(rows, b);
    }
  }

  /** The limits in figures: a bucket has room for ten records and 2 MiB, the whole for 500 and 50 MiB; a bucket weighs
      a million for each record and one for each unit of its text. */
  lemma {:induction false} LimitsInFigures(s: Rows)
    ensures BucketOver(s) <==> |s| > 10 || Bytes(s) > 2_097_152
    ensures Over(s) <==> |s| > 500 || Bytes(s) > 52_428_800
    ensures Score(s) == |s| * 1_000_000 + Bytes(s)
    ensures forall r :: Bytes(s + [r]) == Bytes(s) + r.bytes
  {
    forall r ensures Bytes(s + [r]) == Bytes(s) + r.bytes {
      BytesOfTwo(s, [r]);
      assert [r][1..] == [];
    }
  }

  lemma {:induction false} BytesOfTwo(a: Rows, b: Rows)
    ensures Bytes(a + b) == Bytes(a) + Bytes(b)
  {
    if a == [] {
      assert a + b == b;
    } else {
      BytesOfTwo(a[1..], b);
      TailConcat(a, b);
    }
  }
}
