/** Canonical text and JSON data determine each other: key order and `undefined` fields never show,
    and nothing else is ever lost. */
module JsonMeaning {
  import opened Texts
  import opened JsonStrings
  import opened CanonicalJson

  // ---------------------------------------------------------------- nested structure is self-delimiting

  /** Nothing left to replace by `null`, tokens well-formed. */
  ghost predicate Clean(v: Value) {
    match v
    case Undefined => false
    case Number(NonFinite) => false
    case Number(Finite(t)) => IsToken(t)
    case Arr(items) => CleanItems(items)
    case Obj(entries) => CleanEntries(entries)
    case _ => true
  }

  ghost predicate CleanItems(items: seq<Value>) {
    items != [] ==> Clean(items[0]) && CleanItems(items[1..])
  }

  ghost predicate CleanEntries(entries: seq<Entry>) {
    entries != [] ==> Clean(entries[0].value) && CleanEntries(entries[1..])
  }

  /** What may follow a value: nothing, a comma, or a closing bracket. */
  predicate Ends(t: Text) {
    t == [] || t[0] == COMMA || t[0] == CLOSE_ARR || t[0] == CLOSE_OBJ
  }

  /** The first unit of a value's text gives away its kind. */
  lemma {:induction false} PlainHead(v: Value)
    requires Clean(v)
    ensures Plain(v) != []
    ensures var c := Plain(v)[0];
      match v
      case Null => c == 110
      case Bool(b) => c == if b then 116 else 102
      case Number(_) => c == 45 || 48 <= c <= 57
      case Str(_) => c == QUOTE
      case Arr(_) => c == OPEN_ARR
      case Obj(_) => c == OPEN_OBJ
      case _ => false
  {
  }

  /** How many number units a text starts with. */
  function NumberLength(t: Text): nat {
    if t == [] || !IsNumberUnit(t[0]) then 0 else 1 + NumberLength(t[1..])
  }

  /** A token ends where the number units do. */
  lemma {:induction false} TokenEnd(a: Text, s: Text)
    requires (forall i | 0 <= i < |a| :: IsNumberUnit(a[i])) && Ends(s)
    ensures NumberLength(a + s) == |a|
  {
    if a == [] {
      assert a + s == s;
    } else {
      TokenEnd(a[1..], s);
      assert (a + s)[1..] == a[1..] + s;
    }
  }

  lemma {:induction false} TokenInjective(a: Text, b: Text, s: Text, t: Text)
    requires IsToken(a) && IsToken(b) && Ends(s) && Ends(t) && a + s == b + t
    ensures a == b && s == t
  {
    TokenEnd(a, s);
    TokenEnd(b, t);
    assert a == (a + s)[..|a|] && b == (b + t)[..|b|];
    assert s == (a + s)[|a|..] && t == (b + t)[|b|..];
  }

  lemma {:induction false} CancelPrefix(p: Text, x: Text, y: Text)
    requires p + x == p + y
    ensures x == y
  {
    assert (p + x)[|p|..] == x && (p + y)[|p|..] == y;
  }

  lemma {:induction false} Split3(a: Text, b: Text, c: Text)
    ensures (a + b) + c == a + (b + c)
  {
  }

  lemma {:induction false} SameKind(v: Value, w: Value, s: Text, t: Text)
    requires Clean(v) && Clean(w) && Plain(v) + s == Plain(w) + t
    ensures v.Null? == w.Null? && v.Bool? == w.Bool? && v.Number? == w.Number? && v.Str? == w.Str?
    ensures v.Arr? == w.Arr? && v.Obj? == w.Obj? && (v.Bool? ==> v.b == w.b)
  {
    PlainHead(v);
    PlainHead(w);
    assert (Plain(v) + s)[0] == Plain(v)[0] && (Plain(w) + t)[0] == Plain(w)[0];
  }

  /** Unique decoding: from a text that starts with a value, both the value and what follows are determined. */
  lemma {:induction false} PlainInjective(v: Value, w: Value, s: Text, t: Text)
    requires Clean(v) && Clean(w) && Ends(s) && Ends(t) && Plain(v) + s == Plain(w) + t
    ensures v == w && s == t
    decreases v, 1
  {
    SameKind(v, w, s, t);
    match v
    case Null => CancelPrefix(NULL_TEXT, s, t);
    case Bool(b) => CancelPrefix(Plain(v), s, t);
    case Number(Finite(token)) => TokenInjective(token, w.n.token, s, t);
    case Str(text) => QuoteInjective(text, w.s, s, t);
    case Arr(items) =>
      Split3([OPEN_ARR], ItemsBody(items), s);
      Split3([OPEN_ARR], ItemsBody(w.items), t);
      CancelPrefix([OPEN_ARR], ItemsBody(items) + s, ItemsBody(w.items) + t);
      ItemsBodyInjective(items, w.items, s, t);
    case Obj(entries) =>
      Split3([OPEN_OBJ], EntriesBody(entries), s);
      Split3([OPEN_OBJ], EntriesBody(w.entries), t);
      CancelPrefix([OPEN_OBJ], EntriesBody(entries) + s, EntriesBody(w.entries) + t);
      EntriesBodyInjective(entries, w.entries, s, t);
  }

  function ItemsBody(items: seq<Value>): Text {
    if items == [] then [CLOSE_ARR] else Plain(items[0]) + MoreItems(items[1..])
  }

  function EntriesBody(entries: seq<Entry>): Text {
    if entries == [] then [CLOSE_OBJ] else Field(entries[0]) + MoreEntries(entries[1..])
  }

  lemma {:induction false} ItemsBodyInjective(a: seq<Value>, b: seq<Value>, s: Text, t: Text)
    requires CleanItems(a) && CleanItems(b) && Ends(s) && Ends(t) && ItemsBody(a) + s == ItemsBody(b) + t
    ensures a == b && s == t
    decreases a, 2
  {
    assert (ItemsBody(a) + s)[0] == (ItemsBody(b) + t)[0];
    if a != [] {
      PlainHead(a[0]);
    }
    if b != [] {
      PlainHead(b[0]);
    }
    assert a == [] <==> b == [];
    if a == [] {
      CancelPrefix([CLOSE_ARR], s, t);
    } else {
      Split3(Plain(a[0]), MoreItems(a[1..]), s);
      Split3(Plain(b[0]), MoreItems(b[1..]), t);
      PlainInjective(a[0], b[0], MoreItems(a[1..]) + s, MoreItems(b[1..]) + t);
      MoreItemsInjective(a[1..], b[1..], s, t);
      assert a == [a[0]] + a[1..] && b == [b[0]] + b[1..];
    }
  }

  lemma {:induction false} MoreItemsInjective(a: seq<Value>, b: seq<Value>, s: Text, t: Text)
    requires CleanItems(a) && CleanItems(b) && Ends(s) && Ends(t) && MoreItems(a) + s == MoreItems(b) + t
    ensures a == b && s == t
    decreases a, 1
  {
    assert (MoreItems(a) + s)[0] == (MoreItems(b) + t)[0];
    assert a == [] <==> b == [];
    if a == [] {
      CancelPrefix([CLOSE_ARR], s, t);
    } else {
      var x, y := MoreItems(a[1..]), MoreItems(b[1..]);
      Split4([COMMA], Plain(a[0]), x, s);
      Split4([COMMA], Plain(b[0]), y, t);
      CancelPrefix([COMMA], Plain(a[0]) + (x + s), Plain(b[0]) + (y + t));
      PlainInjective(a[0], b[0], x + s, y + t);
      MoreItemsInjective(a[1..], b[1..], s, t);
      assert a == [a[0]] + a[1..] && b == [b[0]] + b[1..];
    }
  }

  lemma {:induction false} Split4(a: Text, b: Text, c: Text, d: Text)
    ensures (a + b + c) + d == a + (b + (c + d))
  {
  }

  lemma {:induction false} FieldInjective(e: Entry, f: Entry, s: Text, t: Text)
    requires Clean(e.value) && Clean(f.value) && Ends(s) && Ends(t) && Field(e) + s == Field(f) + t
    ensures e == f && s == t
    decreases e, 2
  {
    Split4(Quote(e.key), [COLON], Plain(e.value), s);
    Split4(Quote(f.key), [COLON], Plain(f.value), t);
    QuoteInjective(e.key, f.key, [COLON] + (Plain(e.value) + s), [COLON] + (Plain(f.value) + t));
    CancelPrefix([COLON], Plain(e.value) + s, Plain(f.value) + t);
    PlainInjective(e.value, f.value, s, t);
  }

  lemma {:induction false} EntriesBodyInjective(a: seq<Entry>, b: seq<Entry>, s: Text, t: Text)
    requires CleanEntries(a) && CleanEntries(b) && Ends(s) && Ends(t) && EntriesBody(a) + s == EntriesBody(b) + t
    ensures a == b && s == t
    decreases a, 2
  {
    assert (EntriesBody(a) + s)[0] == (EntriesBody(b) + t)[0];
    assert a == [] <==> b == [];
    if a == [] {
      CancelPrefix([CLOSE_OBJ], s, t);
    } else {
      Split3(Field(a[0]), MoreEntries(a[1..]), s);
      Split3(Field(b[0]), MoreEntries(b[1..]), t);
      FieldInjective(a[0], b[0], MoreEntries(a[1..]) + s, MoreEntries(b[1..]) + t);
      MoreEntriesInjective(a[1..], b[1..], s, t);
      assert a == [a[0]] + a[1..] && b == [b[0]] + b[1..];
    }
  }

  lemma {:induction false} MoreEntriesInjective(a: seq<Entry>, b: seq<Entry>, s: Text, t: Text)
    requires CleanEntries(a) && CleanEntries(b) && Ends(s) && Ends(t) && MoreEntries(a) + s == MoreEntries(b) + t
    ensures a == b && s == t
    decreases a, 1
  {
    assert (MoreEntries(a) + s)[0] == (MoreEntries(b) + t)[0];
    assert a == [] <==> b == [];
    if a == [] {
      CancelPrefix([CLOSE_OBJ], s, t);
    } else {
      var x, y := MoreEntries(a[1..]), MoreEntries(b[1..]);
      Split4([COMMA], Field(a[0]), x, s);
      Split4([COMMA], Field(b[0]), y, t);
      CancelPrefix([COMMA], Field(a[0]) + (x + s), Field(b[0]) + (y + t));
      FieldInjective(a[0], b[0], x + s, y + t);
      MoreEntriesInjective(a[1..], b[1..], s, t);
      assert a == [a[0]] + a[1..] && b == [b[0]] + b[1..];
    }
  }

  // ---------------------------------------------------------------- normal forms and data

  ghost predicate SortedEntries(s: seq<Entry>) {
    forall i, j | 0 <= i < j < |s| :: LexLess(s[i].key, s[j].key)
  }

  /** A value the writer need not touch: clean, and sorted by key at every level. */
  ghost predicate Normal(v: Value) {
    match v
    case Undefined => false
    case Number(NonFinite) => false
    case Number(Finite(t)) => IsToken(t)
    case Arr(items) => NormalItems(items)
    case Obj(entries) => SortedEntries(entries) && NormalEntries(entries)
    case _ => true
  }

  ghost predicate NormalItems(items: seq<Value>) {
    items != [] ==> Normal(items[0]) && NormalItems(items[1..])
  }

  ghost predicate NormalEntries(entries: seq<Entry>) {
    entries != [] ==> Normal(entries[0].value) && NormalEntries(entries[1..])
  }

  lemma {:induction false} NormalIsClean(v: Value)
    requires Normal(v)
    ensures Clean(v)
    decreases v, 1
  {
    match v
    case Arr(items) => NormalItemsClean(items);
    case Obj(entries) => NormalEntriesClean(entries);
    case _ =>
  }

  lemma {:induction false} NormalItemsClean(items: seq<Value>)
    requires NormalItems(items)
    ensures CleanItems(items)
    decreases items, 0
  {
    if items != [] {
      NormalIsClean(items[0]);
      NormalItemsClean(items[1..]);
    }
  }

  lemma {:induction false} NormalEntriesClean(entries: seq<Entry>)
    requires NormalEntries(entries)
    ensures CleanEntries(entries)
    decreases entries, 0
  {
    if entries != [] {
      NormalIsClean(entries[0].value);
      NormalEntriesClean(entries[1..]);
    }
  }

  ghost predicate KeyFree(s: seq<Entry>, k: Text) {
    forall i | 0 <= i < |s| :: s[i].key != k
  }

  lemma {:induction false} InsertKeepsSorted(e: Entry, s: seq<Entry>)
    requires SortedEntries(s) && KeyFree(s, e.key)
    ensures SortedEntries(InsertEntry(e, s))
  {
    if s != [] {
      LexTotal(e.key, s[0].key);
      if LexLess(e.key, s[0].key) {
        forall j | 0 <= j < |s| ensures LexLess(e.key, s[j].key) {
          if j > 0 {
            LexTransitive(e.key, s[0].key, s[j].key);
          }
        }
      } else {
        var t := InsertEntry(e, s[1..]);
        InsertKeepsSorted(e, s[1..]);
        InsertMembers(e, s[1..]);
        forall j | 0 <= j < |t| ensures LexLess(s[0].key, t[j].key) {
          assert t[j] in t;
          if t[j] != e {
            var i :| 0 <= i < |s[1..]| && s[1..][i] == t[j];
            assert s[i + 1] == t[j];
          }
        }
      }
    }
  }

  lemma {:induction false} InsertKeepsNormal(e: Entry, s: seq<Entry>)
    requires NormalEntries(s) && Normal(e.value)
    ensures NormalEntries(InsertEntry(e, s))
  {
    if s == [] || LexLess(e.key, s[0].key) {
      assert ([e] + s)[1..] == s;
    } else {
      InsertKeepsNormal(e, s[1..]);
      assert InsertEntry(e, s)[1..] == InsertEntry(e, s[1..]);
    }
  }

  /** Inserting an entry under a new key adds that field to the object's data, wherever it lands. */
  lemma {:induction false} InsertAddsField(e: Entry, s: seq<Entry>)
    requires NormalEntries(s) && Normal(e.value) && KeyFree(s, e.key)
    ensures Fields(InsertEntry(e, s)) == Fields(s)[e.key := MeaningOf(e.value)]
  {
    if s == [] || LexLess(e.key, s[0].key) {
      assert ([e] + s)[1..] == s;
    } else {
      InsertAddsField(e, s[1..]);
      var r := InsertEntry(e, s);
      assert r[0] == s[0] && r[1..] == InsertEntry(e, s[1..]);
      assert s[0].key != e.key;
    }
  }

  /** Normalising makes a value normal and keeps its data. */
  lemma {:induction false} NormKeepsData(v: Value)
    requires WellFormed(v)
    ensures Normal(Norm(v)) && MeaningOf(Norm(v)) == MeaningOf(v)
    decreases v, 1
  {
    match v
    case Arr(items) => NormItemsKeepData(items);
    case Obj(entries) => NormEntriesKeepData(entries);
    case _ =>
  }

  lemma {:induction false} NormItemsKeepData(items: seq<Value>)
    requires forall i | 0 <= i < |items| :: WellFormed(items[i])
    ensures NormalItems(NormItems(items)) && ItemMeanings(NormItems(items)) == ItemMeanings(items)
    decreases items, 0
  {
    if items != [] {
      NormKeepsData(items[0]);
      NormItemsKeepData(items[1..]);
      assert NormItems(items)[1..] == NormItems(items[1..]);
    }
  }

  lemma {:induction false} NormEntriesKeepData(entries: seq<Entry>)
    requires DistinctKeys(entries) && forall i | 0 <= i < |entries| :: WellFormed(entries[i].value)
    ensures var s := SortEntries(NormEntries(entries));
      && SortedEntries(s) && NormalEntries(s) && Fields(s) == Fields(entries)
      && forall e | e in s :: exists i :: 0 <= i < |entries| && entries[i].key == e.key
    decreases entries, 0
  {
    if entries != [] {
      var rest := entries[1..];
      NormEntriesKeepData(rest);
      var n, t := NormEntries(entries), SortEntries(NormEntries(rest));
      assert forall i | 0 <= i < |rest| :: rest[i] == entries[i + 1];
      if entries[0].value.Undefined? {
        assert n == NormEntries(rest);
        forall e | e in t ensures exists i :: 0 <= i < |entries| && entries[i].key == e.key {
          var i :| 0 <= i < |rest| && rest[i].key == e.key;
          assert entries[i + 1].key == e.key;
        }
      } else {
        var e := Entry(entries[0].key, Norm(entries[0].value));
        NormKeepsData(entries[0].value);
        assert n[0] == e && n[1..] == NormEntries(rest);
        forall i | 0 <= i < |t| ensures t[i].key != e.key {
          assert t[i] in t;
          var j :| 0 <= j < |rest| && rest[j].key == t[i].key;
          assert entries[j + 1].key != entries[0].key;
        }
        InsertKeepsSorted(e, t);
        InsertKeepsNormal(e, t);
        InsertAddsField(e, t);
        InsertMembers(e, t);
        forall x | x in InsertEntry(e, t) ensures exists i :: 0 <= i < |entries| && entries[i].key == x.key {
          if x == e {
            assert entries[0].key == x.key;
          } else {
            var i :| 0 <= i < |rest| && rest[i].key == x.key;
            assert entries[i + 1].key == x.key;
          }
        }
      }
    }
  }

  lemma {:induction false} FieldKeys(s: seq<Entry>, k: Text)
    requires NormalEntries(s)
    ensures k in Fields(s) <==> exists i :: 0 <= i < |s| && s[i].key == k
  {
    if s != [] {
      FieldKeys(s[1..], k);
      if i :| 0 <= i < |s| && s[i].key == k {
        assert i > 0 ==> s[1..][i - 1].key == k;
      }
      if i :| 0 <= i < |s[1..]| && s[1..][i].key == k {
        assert s[i + 1].key == k;
      }
    }
  }

  lemma {:induction false} SameFirstKey(a: seq<Entry>, b: seq<Entry>)
    requires SortedEntries(a) && SortedEntries(b) && NormalEntries(a) && NormalEntries(b) && Fields(a) == Fields(b)
    requires a != [] && b != []
    ensures a[0].key == b[0].key
  {
    FieldKeys(a, a[0].key);
    FieldKeys(b, a[0].key);
    FieldKeys(b, b[0].key);
    FieldKeys(a, b[0].key);
    var j :| 0 <= j < |b| && b[j].key == a[0].key;
    var i :| 0 <= i < |a| && a[i].key == b[0].key;
    if i > 0 && j > 0 {
      LexTransitive(a[0].key, b[0].key, a[0].key);
      LexIrreflexive(a[0].key);
    }
  }

  lemma {:induction false} FieldsTail(s: seq<Entry>)
    requires s != [] && SortedEntries(s) && NormalEntries(s)
    ensures s[0].key in Fields(s) && Fields(s)[s[0].key] == MeaningOf(s[0].value)
    ensures Fields(s[1..]) == Fields(s) - {s[0].key}
    ensures SortedEntries(s[1..])
  {
    FieldKeys(s[1..], s[0].key);
    if i :| 0 <= i < |s[1..]| && s[1..][i].key == s[0].key {
      assert LexLess(s[0].key, s[i + 1].key);
      LexIrreflexive(s[0].key);
    }
  }

  /** Normal values with the same data are the same value. */
  lemma {:induction false} NormalUnique(v: Value, w: Value)
    requires Normal(v) && Normal(w) && MeaningOf(v) == MeaningOf(w)
    ensures v == w
    decreases v, 1
  {
    match v
    case Arr(items) => NormalItemsUnique(items, w.items);
    case Obj(entries) => NormalEntriesUnique(entries, w.entries);
    case _ =>
  }

  lemma {:induction false} NormalItemsUnique(a: seq<Value>, b: seq<Value>)
    requires NormalItems(a) && NormalItems(b) && ItemMeanings(a) == ItemMeanings(b)
    ensures a == b
    decreases a, 0
  {
    assert a == [] <==> b == [];
    if a != [] {
      assert ItemMeanings(a)[0] == ItemMeanings(b)[0];
      assert ItemMeanings(a)[1..] == ItemMeanings(a[1..]) && ItemMeanings(b)[1..] == ItemMeanings(b[1..]);
      NormalUnique(a[0], b[0]);
      NormalItemsUnique(a[1..], b[1..]);
      assert a == [a[0]] + a[1..] && b == [b[0]] + b[1..];
    }
  }

  lemma {:induction false} NormalEntriesUnique(a: seq<Entry>, b: seq<Entry>)
    requires SortedEntries(a) && SortedEntries(b) && NormalEntries(a) && NormalEntries(b) && Fields(a) == Fields(b)
    ensures a == b
    decreases a, 0
  {
    if a != [] {
      FieldsTail(a);
    }
    if b != [] {
      FieldsTail(b);
    }
    assert a == [] <==> b == [];
    if a != [] {
      SameFirstKey(a, b);
      NormalUnique(a[0].value, b[0].value);
      NormalEntriesUnique(a[1..], b[1..]);
      assert a == [a[0]] + a[1..] && b == [b[0]] + b[1..];
    }
  }

  /** The canonical text is the same exactly when the data is: key order and `undefined` fields never show,
      and different data never share a text. */
  lemma {:induction false} CanonicalTextIffSameData(v: Value, w: Value)
    requires WellFormed(v) && WellFormed(w)
    ensures CanonicalText(v) == CanonicalText(w) <==> MeaningOf(v) == MeaningOf(w)
  {
    NormKeepsData(v);
    NormKeepsData(w);
    if CanonicalText(v) == CanonicalText(w) {
      NormalIsClean(Norm(v));
      NormalIsClean(Norm(w));
      assert Plain(Norm(v)) + [] == Plain(Norm(w)) + [];
      PlainInjective(Norm(v), Norm(w), [], []);
    } else if MeaningOf(v) == MeaningOf(w) {
      NormalUnique(Norm(v), Norm(w));
    }
  }
}
