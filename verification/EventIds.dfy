/** `computeEventId`: the hash of the canonical body, with parents normalised. */
module EventIds {
  import opened Seqs
  import opened Texts
  import opened HexIds
  import opened CanonicalJson
  import opened JsonMeaning
  import opened JsonReader

  /** SHA-256 as a free symbol: distinct texts have distinct digests. */
  datatype Digest = Sha256(text: Text)

  /** "prev_event_ids" */
  const PREV: Text := [112, 114, 101, 118, 95, 101, 118, 101, 110, 116, 95, 105, 100, 115]

  predicate IsParentId(v: Value) {
    v.Str? && IsHex64(v.s)
  }

  /** The parents a raw field names: its well-formed id strings, as a set. */
  function ParentSet(raw: Value): set<Text> {
    if raw.Arr? then set v | v in raw.items && IsParentId(v) :: v.s else {}
  }

  ghost predicate AscendingTexts(s: seq<Text>) {
    forall i, j | 0 <= i < j < |s| :: LexLess(s[i], s[j])
  }

  function InsertText(x: Text, s: seq<Text>): seq<Text> {
    if s == [] || LexLess(x, s[0]) then [x] + s
    else if x == s[0] then s
    else [s[0]] + InsertText(x, s[1..])
  }

  /** `sortedPrevEventIds` on the raw field. */
  function SortedParents(items: seq<Value>): seq<Text> {
    if items == [] then []
    else if IsParentId(items[0]) then InsertText(items[0].s, SortedParents(items[1..]))
    else SortedParents(items[1..])
  }

  function Strings(s: seq<Text>): seq<Value> {
    if s == [] then [] else [Str(s[0])] + Strings(s[1..])
  }

  function NormParents(raw: Value): Value {
    Arr(Strings(SortedParents(if raw.Arr? then raw.items else [])))
  }

  /** The body with its parent field, if it has one, replaced by the normalised list. */
  function NormBody(body: seq<Entry>): seq<Entry> {
    if body == [] then []
    else [if body[0].key == PREV then Entry(PREV, NormParents(body[0].value)) else body[0]] + NormBody(body[1..])
  }

  function ComputeEventId(body: seq<Entry>): Digest {
    Sha256(CanonicalText(Obj(NormBody(body))))
  }

  // ---------------------------------------------------------------- the parent list depends on the parent set alone

  lemma {:induction false} InsertTextAscends(x: Text, s: seq<Text>)
    requires AscendingTexts(s)
    ensures AscendingTexts(InsertText(x, s))
    ensures forall y :: y in InsertText(x, s) <==> y == x || y in s
  {
    if s != [] {
      LexTotal(x, s[0]);
      assert s == [s[0]] + s[1..];
      if LexLess(x, s[0]) {
        forall j | 0 <= j < |s| ensures LexLess(x, s[j]) {
          if j > 0 {
            LexTransitive(x, s[0], s[j]);
          }
        }
      } else if x != s[0] {
        var t := InsertText(x, s[1..]);
        InsertTextAscends(x, s[1..]);
        forall j | 0 <= j < |t| ensures LexLess(s[0], t[j]) {
          assert t[j] in t;
          if t[j] != x {
            var i :| 0 <= i < |s[1..]| && s[1..][i] == t[j];
            assert s[i + 1] == t[j];
          }
        }
      }
    }
  }

  lemma {:induction false} SortedParentsSet(items: seq<Value>)
    ensures AscendingTexts(SortedParents(items))
    ensures forall x :: x in SortedParents(items) <==> x in ParentSet(Arr(items))
  {
    if items != [] {
      SortedParentsSet(items[1..]);
      assert items == [items[0]] + items[1..];
      var now, before := ParentSet(Arr(items)), ParentSet(Arr(items[1..]));
      if IsParentId(items[0]) {
        InsertTextAscends(items[0].s, SortedParents(items[1..]));
        assert now == before + {items[0].s};
      } else {
        assert now == before;
      }
    }
  }

  lemma {:induction false} AscendingTextsUnique(a: seq<Text>, b: seq<Text>)
    requires AscendingTexts(a) && AscendingTexts(b) && forall x :: x in a <==> x in b
    ensures a == b
  {
    assert b != [] ==> b[0] in b;
    if a != [] {
      assert a[0] in b;
      assert b[0] in a;
      var i :| 0 <= i < |a| && a[i] == b[0];
      var j :| 0 <= j < |b| && b[j] == a[0];
      if i > 0 && j > 0 {
        LexTransitive(a[0], b[0], a[0]);
        LexIrreflexive(a[0]);
      }
      forall x ensures x in a[1..] <==> x in b[1..] {
        LexIrreflexive(a[0]);
        assert x in a <==> x == a[0] || x in a[1..];
        assert x in b <==> x == b[0] || x in b[1..];
        assert x in a[1..] ==> LexLess(a[0], x);
        assert x in b[1..] ==> LexLess(b[0], x);
      }
      AscendingTextsUnique(a[1..], b[1..]);
      assert a == [a[0]] + a[1..] && b == [b[0]] + b[1..];
    }
  }

  lemma {:induction false} StringsInjective(a: seq<Text>, b: seq<Text>)
    requires ItemMeanings(Strings(a)) == ItemMeanings(Strings(b))
    ensures a == b
  {
    StringsLength(a);
    StringsLength(b);
    if a != [] {
      var x, y := ItemMeanings(Strings(a)), ItemMeanings(Strings(b));
      assert Strings(a)[1..] == Strings(a[1..]) && Strings(b)[1..] == Strings(b[1..]);
      assert x[0] == y[0] && x[1..] == y[1..];
      assert x[1..] == ItemMeanings(Strings(a[1..])) && y[1..] == ItemMeanings(Strings(b[1..]));
      StringsInjective(a[1..], b[1..]);
      assert a == [a[0]] + a[1..] && b == [b[0]] + b[1..];
    }
  }

  lemma {:induction false} StringsLength(a: seq<Text>)
    ensures |ItemMeanings(Strings(a))| == |Strings(a)| == |a|
    ensures forall i | 0 <= i < |a| :: WellFormed(Strings(a)[i])
  {
    if a != [] {
      StringsLength(a[1..]);
      assert Strings(a)[1..] == Strings(a[1..]);
    }
  }

  lemma {:induction false} NormParentsIff(a: Value, b: Value)
    ensures MeaningOf(NormParents(a)) == MeaningOf(NormParents(b)) <==> ParentSet(a) == ParentSet(b)
  {
    var x, y := if a.Arr? then a.items else [], if b.Arr? then b.items else [];
    SortedParentsSet(x);
    SortedParentsSet(y);
    assert ParentSet(a) == ParentSet(Arr(x)) && ParentSet(b) == ParentSet(Arr(y));
    if MeaningOf(NormParents(a)) == MeaningOf(NormParents(b)) {
      StringsInjective(SortedParents(x), SortedParents(y));
    }
    if ParentSet(a) == ParentSet(b) {
      AscendingTextsUnique(SortedParents(x), SortedParents(y));
    }
  }

  // ---------------------------------------------------------------- what an id stands for

  /** What a body says apart from its parents, and the parent set it names (`None` when it has no such field). */
  datatype Content = Content(fields: map<Text, Meaning>, parents: Option<set<Text>>)

  function ContentOf(body: seq<Entry>): Content {
    if body == [] then Content(map[], None)
    else
      var c := ContentOf(body[1..]);
      if body[0].key == PREV then c.(parents := Some(ParentSet(body[0].value)))
      else if body[0].value.Undefined? then c
      else c.(fields := c.fields[body[0].key := MeaningOf(body[0].value)])
  }

  /** The data of a normalised body, field by field. */
  lemma {:induction false} NormBodyFields(body: seq<Entry>, raw: Value)
    requires DistinctKeys(body)
    ensures PREV !in ContentOf(body).fields
    ensures PREV in Fields(NormBody(body)) <==> ContentOf(body).parents.Some?
    ensures Fields(NormBody(body)) - {PREV} == ContentOf(body).fields
    ensures ContentOf(body).parents == Some(ParentSet(raw)) && PREV in Fields(NormBody(body))
      ==> Fields(NormBody(body))[PREV] == MeaningOf(NormParents(raw))
  {
    if body != [] {
      NormBodyFields(body[1..], raw);
      var n := NormBody(body);
      assert n[1..] == NormBody(body[1..]);
      if body[0].key == PREV {
        NormParentsIff(body[0].value, raw);
      }
    }
  }

  function RawParents(body: seq<Entry>): Value {
    if body == [] then Null else if body[0].key == PREV then body[0].value else RawParents(body[1..])
  }

  lemma {:induction false} RawParentsSet(body: seq<Entry>)
    ensures ContentOf(body).parents.Some? ==> ContentOf(body).parents.value == ParentSet(RawParents(body))
  {
    if body != [] {
      RawParentsSet(body[1..]);
    }
  }

  lemma {:induction false} RestWellFormed(body: seq<Entry>)
    requires WellFormed(Obj(body)) && body != []
    ensures WellFormed(Obj(body[1..]))
  {
    var rest := body[1..];
    assert forall i | 0 <= i < |rest| :: rest[i] == body[i + 1];
  }

  lemma {:induction false} NormBodyWellFormed(body: seq<Entry>)
    requires WellFormed(Obj(body))
    ensures WellFormed(Obj(NormBody(body)))
    ensures |NormBody(body)| == |body| && forall i | 0 <= i < |body| :: NormBody(body)[i].key == body[i].key
  {
    if body != [] {
      var rest, n := body[1..], NormBody(body);
      RestWellFormed(body);
      NormBodyWellFormed(rest);
      StringsLength(SortedParents(if body[0].value.Arr? then body[0].value.items else []));
      assert n[1..] == NormBody(rest);
    }
  }

  /** Two bodies get the same id exactly when they say the same thing and name the same set of parents:
      the order, repetition and malformed entries of `prev_event_ids` do not count. */
  lemma {:induction false} EventIdIffSameContent(a: seq<Entry>, b: seq<Entry>)
    requires WellFormed(Obj(a)) && WellFormed(Obj(b))
    ensures ComputeEventId(a) == ComputeEventId(b) <==> ContentOf(a) == ContentOf(b)
  {
    var x, y := Fields(NormBody(a)), Fields(NormBody(b));
    NormBodyWellFormed(a);
    NormBodyWellFormed(b);
    CanonicalTextIffSameData(Obj(NormBody(a)), Obj(NormBody(b)));
    RawParentsSet(a);
    RawParentsSet(b);
    NormBodyFields(a, RawParents(a));
    NormBodyFields(b, RawParents(b));
    NormParentsIff(RawParents(a), RawParents(b));
    if ContentOf(a) == ContentOf(b) {
      forall k ensures k in x <==> k in y {
        assert k != PREV ==> (k in x <==> k in x - {PREV}) && (k in y <==> k in y - {PREV});
      }
      forall k | k in x ensures x[k] == y[k] {
        assert k != PREV ==> x[k] == (x - {PREV})[k] && y[k] == (y - {PREV})[k];
      }
      assert x == y;
    }
  }

  // ---------------------------------------------------------------- what is hashed

  lemma {:induction false} StringMeanings(s: seq<Text>)
    ensures |ItemMeanings(Strings(s))| == |s| && forall i | 0 <= i < |s| :: ItemMeanings(Strings(s))[i] == MStr(s[i])
  {
    if s != [] {
      StringMeanings(s[1..]);
      assert Strings(s)[1..] == Strings(s[1..]);
    }
  }

  lemma {:induction false} OtherFieldKept(body: seq<Entry>, k: Text)
    requires k != PREV
    ensures k in Fields(NormBody(body)) <==> k in Fields(body)
    ensures k in Fields(body) ==> Fields(NormBody(body))[k] == Fields(body)[k]
  {
    if body != [] {
      OtherFieldKept(body[1..], k);
      assert NormBody(body)[1..] == NormBody(body[1..]);
    }
  }

  /** Normalising a body touches its parent field alone. */
  lemma {:induction false} OtherFieldsKept(body: seq<Entry>)
    ensures Fields(NormBody(body)) - {PREV} == Fields(body) - {PREV}
  {
    forall k | k != PREV
      ensures k in Fields(NormBody(body)) <==> k in Fields(body)
      ensures k in Fields(body) ==> Fields(NormBody(body))[k] == Fields(body)[k]
    {
      OtherFieldKept(body, k);
    }
  }

  lemma {:induction false} ParentFieldNamed(body: seq<Entry>) returns (i: nat)
    requires PREV in Fields(NormBody(body))
    ensures i < |body| && body[i].key == PREV
  {
    assert NormBody(body)[1..] == NormBody(body[1..]);
    i := 0;
    if body[0].key != PREV {
      i := ParentFieldNamed(body[1..]);
      i := i + 1;
    }
  }

  lemma {:induction false} ParentField(body: seq<Entry>, i: nat)
    requires DistinctKeys(body) && i < |body| && body[i].key == PREV
    ensures PREV in Fields(NormBody(body)) && Fields(NormBody(body))[PREV] == MeaningOf(NormParents(body[i].value))
  {
    assert NormBody(body)[1..] == NormBody(body[1..]);
    if i > 0 {
      ParentField(body[1..], i - 1);
    }
  }

  predicate IsLowerHex(t: Text, width: nat) {
    |t| == width && forall i | 0 <= i < |t| :: 48 <= t[i] <= 57 || 97 <= t[i] <= 102
  }

  /** An array of strings in strictly ascending order, which are the well-formed ids among what the raw field lists. */
  ghost predicate ListsParents(m: Meaning, raw: Value) {
    && m.MArr? && (forall i | 0 <= i < |m.items| :: m.items[i].MStr?)
    && (forall i, j | 0 <= i < j < |m.items| :: Smaller(m.items[i].s, m.items[j].s))
    && (forall x: Text :: MStr(x) in m.items <==> raw.Arr? && Str(x) in raw.items && IsLowerHex(x, 64))
  }

  lemma {:induction false} NormParentsList(raw: Value)
    ensures ListsParents(MeaningOf(NormParents(raw)), raw)
  {
    var items := if raw.Arr? then raw.items else [];
    var s := SortedParents(items);
    var m := MeaningOf(NormParents(raw));
    SortedParentsSet(items);
    StringMeanings(s);
    forall i, j | 0 <= i < j < |s| ensures Smaller(s[i], s[j]) {
      LexLessIff(s[i], s[j]);
    }
    forall x: Text ensures MStr(x) in m.items <==> x in s {
      assert x in s ==> exists i :: 0 <= i < |s| && s[i] == x && m.items[i] == MStr(x);
    }
    forall x: Text ensures x in ParentSet(Arr(items)) <==> Str(x) in items && IsLowerHex(x, 64) {
    }
  }

  /** The text that is hashed is JSON: an object with the fields of the body, of which "prev_event_ids", if the body has
      it, is the ascending list of the well-formed ids it names. */
  lemma {:induction false} HashedTextReads(body: seq<Entry>)
    requires WellFormed(Obj(body))
    ensures var r := ReadValue(ComputeEventId(body).text, false);
      && r.Some? && r.value.1 == [] && r.value.0.Obj? && KeysAscend(r.value.0)
      && var fields := Fields(r.value.0.entries);
      && var name: Text := [112, 114, 101, 118, 95, 101, 118, 101, 110, 116, 95, 105, 100, 115];
      && fields - {name} == Fields(body) - {name}
      && (name in fields <==> exists e :: e in body && e.key == name)
      && (forall e | e in body && e.key == name :: name in fields && ListsParents(fields[name], e.value))
  {
    var v := Obj(NormBody(body));
    NormBodyWellFormed(body);
    CanonicalTextReads(v, [], false);
    assert CanonicalText(v) + [] == CanonicalText(v);
    OtherFieldsKept(body);
    if PREV in Fields(NormBody(body)) {
      var i := ParentFieldNamed(body);
      assert body[i] in body;
    }
    forall e | e in body && e.key == PREV
      ensures PREV in Fields(NormBody(body)) && ListsParents(Fields(NormBody(body))[PREV], e.value)
    {
      var i :| 0 <= i < |body| && body[i] == e;
      ParentField(body, i);
      NormParentsList(e.value);
    }
  }
}
