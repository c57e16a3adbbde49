/** The canonical JSON writer of `Json.kt`: what its text depends on, and what can be told from it. */
module CanonicalJson {
  import opened Texts
  import opened JsonStrings

  /** A finite number is its token, distinct numbers having distinct tokens; `NaN` and infinities print as `null`. */
  datatype Num = Finite(token: Text) | NonFinite

  datatype Entry = Entry(key: Text, value: Value)

  /** JSON values as the code holds them: objects are insertion-ordered, and may hold `undefined`. */
  datatype Value =
    | Null
    | Undefined
    | Bool(b: bool)
    | Number(n: Num)
    | Str(s: Text)
    | Arr(items: seq<Value>)
    | Obj(entries: seq<Entry>)

  const COMMA: CodeUnit := 44
  const COLON: CodeUnit := 58
  const OPEN_ARR: CodeUnit := 91
  const CLOSE_ARR: CodeUnit := 93
  const OPEN_OBJ: CodeUnit := 123
  const CLOSE_OBJ: CodeUnit := 125
  const NULL_TEXT: Text := [110, 117, 108, 108]
  const TRUE_TEXT: Text := [116, 114, 117, 101]
  const FALSE_TEXT: Text := [102, 97, 108, 115, 101]

  // ---------------------------------------------------------------- well-formed values

  predicate IsNumberUnit(c: CodeUnit) {
    48 <= c <= 57 || c == 43 || c == 45 || c == 46 || c == 101
  }

  /** Digits, sign, point and exponent, starting with a digit or a minus sign. */
  predicate IsToken(t: Text) {
    t != [] && (t[0] == 45 || 48 <= t[0] <= 57) && forall i | 0 <= i < |t| :: IsNumberUnit(t[i])
  }

  ghost predicate DistinctKeys(entries: seq<Entry>) {
    forall i, j | 0 <= i < j < |entries| :: entries[i].key != entries[j].key
  }

  /** What a map-backed value always satisfies: distinct keys, and number tokens as the formatter prints them. */
  ghost predicate WellFormed(v: Value) {
    match v
    case Number(Finite(t)) => IsToken(t)
    case Arr(items) => forall i | 0 <= i < |items| :: WellFormed(items[i])
    case Obj(entries) => DistinctKeys(entries) && forall i | 0 <= i < |entries| :: WellFormed(entries[i].value)
    case _ => true
  }

  // ---------------------------------------------------------------- the data a value carries

  /** The JSON data model: objects are finite maps, `undefined` fields do not exist. */
  datatype Meaning =
    | MNull
    | MBool(b: bool)
    | MNumber(token: Text)
    | MStr(s: Text)
    | MArr(items: seq<Meaning>)
    | MObj(fields: map<Text, Meaning>)

  function MeaningOf(v: Value): Meaning {
    match v
    case Null => MNull
    case Undefined => MNull
    case Bool(b) => MBool(b)
    case Number(Finite(t)) => MNumber(t)
    case Number(NonFinite) => MNull
    case Str(s) => MStr(s)
    case Arr(items) => MArr(ItemMeanings(items))
    case Obj(entries) => MObj(Fields(entries))
  }

  function ItemMeanings(items: seq<Value>): seq<Meaning> {
    if items == [] then [] else [MeaningOf(items[0])] + ItemMeanings(items[1..])
  }

  function Fields(entries: seq<Entry>): map<Text, Meaning> {
    if entries == [] then map[]
    else if entries[0].value.Undefined? then Fields(entries[1..])
    else Fields(entries[1..])[entries[0].key := MeaningOf(entries[0].value)]
  }

  // ---------------------------------------------------------------- normal form and plain text

  function InsertEntry(e: Entry, s: seq<Entry>): seq<Entry> {
    if s == [] || LexLess(e.key, s[0].key) then [e] + s
    else [s[0]] + InsertEntry(e, s[1..])
  }

  /** `sortedBy { it.key }`. */
  function SortEntries(s: seq<Entry>): seq<Entry> {
    if s == [] then [] else InsertEntry(s[0], SortEntries(s[1..]))
  }

  function Norm(v: Value): Value {
    match v
    case Undefined => Null
    case Number(NonFinite) => Null
    case Arr(items) => Arr(NormItems(items))
    case Obj(entries) => Obj(SortEntries(NormEntries(entries)))
    case _ => v
  }

  function NormItems(items: seq<Value>): seq<Value> {
    if items == [] then [] else [Norm(items[0])] + NormItems(items[1..])
  }

  function NormEntries(entries: seq<Entry>): seq<Entry> {
    if entries == [] then []
    else if entries[0].value.Undefined? then NormEntries(entries[1..])
    else [Entry(entries[0].key, Norm(entries[0].value))] + NormEntries(entries[1..])
  }

  /** The text of a value with nothing left to sort or drop. */
  function Plain(v: Value): Text {
    match v
    case Null => NULL_TEXT
    case Undefined => NULL_TEXT
    case Bool(b) => if b then TRUE_TEXT else FALSE_TEXT
    case Number(Finite(t)) => t
    case Number(NonFinite) => NULL_TEXT
    case Str(s) => Quote(s)
    case Arr(items) => [OPEN_ARR] + (if items == [] then [CLOSE_ARR] else Plain(items[0]) + MoreItems(items[1..]))
    case Obj(entries) => [OPEN_OBJ] + (if entries == [] then [CLOSE_OBJ]
        else Field(entries[0]) + MoreEntries(entries[1..]))
  }

  function MoreItems(items: seq<Value>): Text {
    if items == [] then [CLOSE_ARR] else [COMMA] + Plain(items[0]) + MoreItems(items[1..])
  }

  function Field(e: Entry): Text {
    Quote(e.key) + [COLON] + Plain(e.value)
  }

  function MoreEntries(entries: seq<Entry>): Text {
    if entries == [] then [CLOSE_OBJ] else [COMMA] + Field(entries[0]) + MoreEntries(entries[1..])
  }

  function CanonicalText(v: Value): Text {
    Plain(Norm(v))
  }

  // ---------------------------------------------------------------- the writer

  method WriteValue(out: Text, value: Value) returns (r: Text)
    ensures r == out + CanonicalText(value)
    decreases value, 1
  {
    match value
    case Null => r := out + NULL_TEXT;
    case Undefined => r := out + NULL_TEXT;
    case Bool(b) => r := out + (if b then TRUE_TEXT else FALSE_TEXT);
    case Number(Finite(t)) => r := out + t;
    case Number(NonFinite) => r := out + NULL_TEXT;
    case Str(s) => r := WriteString(out, s);
    case Arr(items) => r := WriteArray(out, items);
    case Obj(entries) => r := WriteObject(out, entries);
  }

  /** The first `k` items of a list with their separating commas. */
  function ItemsUpTo(items: seq<Value>, k: nat): Text
    requires k <= |items|
  {
    if k == 0 then [] else ItemsUpTo(items, k - 1) + (if k > 1 then [COMMA] else []) + Plain(items[k - 1])
  }

  lemma {:induction false} ItemsComplete(items: seq<Value>, k: nat)
    requires 0 < k <= |items|
    ensures ItemsUpTo(items, k) + MoreItems(items[k..]) == Plain(items[0]) + MoreItems(items[1..])
  {
    if k > 1 {
      ItemsComplete(items, k - 1);
      assert items[k - 1..][1..] == items[k..];
      SplitMore(ItemsUpTo(items, k - 1), Plain(items[k - 1]), MoreItems(items[k..]));
    } else {
      assert ItemsUpTo(items, 1) == Plain(items[0]);
    }
  }

  lemma {:induction false} SplitMore(a: Text, x: Text, more: Text)
    ensures (a + [COMMA] + x) + more == a + ([COMMA] + x + more)
  {
  }

  lemma {:induction false} ItemsClosed(items: seq<Value>)
    ensures [OPEN_ARR] + ItemsUpTo(items, |items|) + [CLOSE_ARR] == Plain(Arr(items))
  {
    if items != [] {
      ItemsComplete(items, |items|);
      assert MoreItems(items[|items|..]) == [CLOSE_ARR];
      Regroup([OPEN_ARR], ItemsUpTo(items, |items|), [CLOSE_ARR]);
    }
  }

  lemma {:induction false} Regroup(a: Text, b: Text, c: Text)
    ensures (a + b) + c == a + (b + c)
  {
  }

  lemma {:induction false} ItemNext(out: Text, items: seq<Value>, i: nat)
    requires i < |items|
    ensures out + ItemsUpTo(items, i + 1) == out + ItemsUpTo(items, i)
      + (if i > 0 then [COMMA] else []) + Plain(items[i])
  {
    Regroup(out, ItemsUpTo(items, i), if i > 0 then [COMMA] else []);
    Regroup(out, ItemsUpTo(items, i) + (if i > 0 then [COMMA] else []), Plain(items[i]));
  }

  lemma {:induction false} ItemsWritten(out: Text, items: seq<Value>)
    ensures out + [OPEN_ARR] + ItemsUpTo(items, |items|) + [CLOSE_ARR] == out + Plain(Arr(items))
  {
    ItemsClosed(items);
    Regroup(out, [OPEN_ARR], ItemsUpTo(items, |items|));
    Regroup(out, [OPEN_ARR] + ItemsUpTo(items, |items|), [CLOSE_ARR]);
  }

  method WriteArray(out: Text, items: seq<Value>) returns (r: Text)
    ensures r == out + Plain(Arr(NormItems(items)))
    decreases items, 0
  {
    ghost var n := NormItems(items);
    NormItemsAt(items);
    r := out + [OPEN_ARR];
    for i := 0 to |items|
      invariant r == (out + [OPEN_ARR]) + ItemsUpTo(n, i)
    {
      ItemNext(out + [OPEN_ARR], n, i);
      if i > 0 {
        r := r + [COMMA];
      }
      r := WriteValue(r, items[i]);
    }
    r := r + [CLOSE_ARR];
    ItemsWritten(out, n);
  }

  lemma {:induction false} NormItemsAt(items: seq<Value>)
    ensures |NormItems(items)| == |items| && forall i | 0 <= i < |items| :: NormItems(items)[i] == Norm(items[i])
  {
    if items != [] {
      NormItemsAt(items[1..]);
    }
  }

  function DropUndefined(entries: seq<Entry>): seq<Entry> {
    if entries == [] then []
    else (if entries[0].value.Undefined? then [] else [entries[0]]) + DropUndefined(entries[1..])
  }

  /** The entries the code writes, in the order it writes them: filtered, then sorted, then written one by one. */
  function Ordered(entries: seq<Entry>): seq<Entry> {
    SortEntries(DropUndefined(entries))
  }

  function NormEach(entries: seq<Entry>): seq<Entry> {
    if entries == [] then [] else [Entry(entries[0].key, Norm(entries[0].value))] + NormEach(entries[1..])
  }

  lemma {:induction false} InsertNormEach(e: Entry, s: seq<Entry>)
    ensures NormEach(InsertEntry(e, s)) == InsertEntry(Entry(e.key, Norm(e.value)), NormEach(s))
  {
    if s == [] || LexLess(e.key, s[0].key) {
      assert ([e] + s)[1..] == s;
    } else {
      InsertNormEach(e, s[1..]);
      assert ([s[0]] + InsertEntry(e, s[1..]))[1..] == InsertEntry(e, s[1..]);
      assert NormEach(s)[1..] == NormEach(s[1..]);
    }
  }

  /** Sorting the filtered entries and normalising them is normalising first and sorting then. */
  lemma {:induction false} OrderedNorm(entries: seq<Entry>)
    ensures NormEach(Ordered(entries)) == SortEntries(NormEntries(entries))
  {
    if entries != [] {
      var e, rest := entries[0], entries[1..];
      OrderedNorm(rest);
      if e.value.Undefined? {
        assert DropUndefined(entries) == DropUndefined(rest);
      } else {
        assert DropUndefined(entries)[1..] == DropUndefined(rest);
        InsertNormEach(e, Ordered(rest));
        var n := NormEntries(entries);
        assert n[1..] == NormEntries(rest);
      }
    }
  }

  lemma {:induction false} InsertMembers(e: Entry, s: seq<Entry>)
    ensures |InsertEntry(e, s)| == |s| + 1
    ensures forall x :: x in InsertEntry(e, s) <==> x == e || x in s
  {
    if s != [] && !LexLess(e.key, s[0].key) {
      InsertMembers(e, s[1..]);
      assert s == [s[0]] + s[1..];
    }
  }

  lemma {:induction false} OrderedMembers(entries: seq<Entry>)
    ensures forall x | x in Ordered(entries) :: x in entries
  {
    if entries != [] {
      OrderedMembers(entries[1..]);
      var d := DropUndefined(entries);
      if entries[0].value.Undefined? {
        assert d == DropUndefined(entries[1..]);
      } else {
        assert d[1..] == DropUndefined(entries[1..]);
        InsertMembers(entries[0], Ordered(entries[1..]));
      }
    }
  }

  lemma {:induction false} NormEachAt(entries: seq<Entry>)
    ensures |NormEach(entries)| == |entries|
    ensures forall i | 0 <= i < |entries| :: NormEach(entries)[i] == Entry(entries[i].key, Norm(entries[i].value))
  {
    if entries != [] {
      NormEachAt(entries[1..]);
    }
  }

  method FilterDefined(entries: seq<Entry>) returns (kept: seq<Entry>)
    ensures kept == DropUndefined(entries)
  {
    kept := [];
    for i := 0 to |entries|
      invariant kept + DropUndefined(entries[i..]) == DropUndefined(entries)
    {
      assert entries[i..][1..] == entries[i + 1..];
      if !entries[i].value.Undefined? {
        kept := kept + [entries[i]];
      }
    }
  }

  function EntriesUpTo(entries: seq<Entry>, k: nat): Text
    requires k <= |entries|
  {
    if k == 0 then [] else EntriesUpTo(entries, k - 1) + (if k > 1 then [COMMA] else []) + Field(entries[k - 1])
  }

  lemma {:induction false} EntriesComplete(entries: seq<Entry>, k: nat)
    requires 0 < k <= |entries|
    ensures EntriesUpTo(entries, k) + MoreEntries(entries[k..]) == Field(entries[0]) + MoreEntries(entries[1..])
  {
    if k > 1 {
      EntriesComplete(entries, k - 1);
      assert entries[k - 1..][1..] == entries[k..];
      SplitMore(EntriesUpTo(entries, k - 1), Field(entries[k - 1]), MoreEntries(entries[k..]));
    } else {
      assert EntriesUpTo(entries, 1) == Field(entries[0]);
    }
  }

  lemma {:induction false} EntriesClosed(entries: seq<Entry>)
    ensures [OPEN_OBJ] + EntriesUpTo(entries, |entries|) + [CLOSE_OBJ] == Plain(Obj(entries))
  {
    if entries != [] {
      EntriesComplete(entries, |entries|);
      assert MoreEntries(entries[|entries|..]) == [CLOSE_OBJ];
      Regroup([OPEN_OBJ], EntriesUpTo(entries, |entries|), [CLOSE_OBJ]);
    }
  }

  lemma {:induction false} EntryNext(out: Text, entries: seq<Entry>, i: nat)
    requires i < |entries|
    ensures out + EntriesUpTo(entries, i + 1)
      == out + EntriesUpTo(entries, i) + (if i > 0 then [COMMA] else []) + Field(entries[i])
  {
    Regroup(out, EntriesUpTo(entries, i), if i > 0 then [COMMA] else []);
    Regroup(out, EntriesUpTo(entries, i) + (if i > 0 then [COMMA] else []), Field(entries[i]));
  }

  lemma {:induction false} EntriesWritten(out: Text, entries: seq<Entry>)
    ensures out + [OPEN_OBJ] + EntriesUpTo(entries, |entries|) + [CLOSE_OBJ] == out + Plain(Obj(entries))
  {
    EntriesClosed(entries);
    Regroup(out, [OPEN_OBJ], EntriesUpTo(entries, |entries|));
    Regroup(out, [OPEN_OBJ] + EntriesUpTo(entries, |entries|), [CLOSE_OBJ]);
  }

  method WriteField(out: Text, e: Entry) returns (r: Text)
    ensures r == out + Field(Entry(e.key, Norm(e.value)))
    decreases e, 2
  {
    var named := WriteString(out, e.key);
    r := WriteValue(named + [COLON], e.value);
    Regroup(out, Quote(e.key), [COLON]);
    Regroup(out, Quote(e.key) + [COLON], CanonicalText(e.value));
  }

  method WriteObject(out: Text, entries: seq<Entry>) returns (r: Text)
    ensures r == out + Plain(Obj(SortEntries(NormEntries(entries))))
    decreases entries, 0
  {
    var kept := FilterDefined(entries);
    var ordered := SortEntries(kept);
    ghost var n := NormEach(ordered);
    OrderedNorm(entries);
    OrderedMembers(entries);
    NormEachAt(ordered);
    r := out + [OPEN_OBJ];
    for i := 0 to |ordered|
      invariant r == (out + [OPEN_OBJ]) + EntriesUpTo(n, i)
    {
      assert ordered[i] in entries;
      EntryNext(out + [OPEN_OBJ], n, i);
      if i > 0 {
        r := r + [COMMA];
      }
      r := WriteField(r, ordered[i]);
    }
    r := r + [CLOSE_OBJ];
    EntriesWritten(out, n);
  }

  /** `stringifyCanonical`. */
  method StringifyCanonical(value: Value) returns (text: Text)
    ensures text == CanonicalText(value)
  {
    text := WriteValue([], value);
  }
}
