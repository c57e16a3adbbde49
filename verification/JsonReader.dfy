/** A reader of JSON by the grammar of RFC 8259, spelled in code units, and what it finds in canonical text. Numbers
    are opaque tokens; strings are read by `JsonStrings`. */
module JsonReader {
  import opened Seqs
  import opened Texts
  import opened JsonStrings
  import opened CanonicalJson
  import opened JsonMeaning

  // ---------------------------------------------------------------- the grammar (RFC 8259, sections 2 to 6)

  /** Space, tab, line feed, carriage return. */
  predicate IsSpace(c: CodeUnit) {
    c == 32 || c == 9 || c == 10 || c == 13
  }

  /** A lax reader skips space between tokens, a strict one finds it an error. */
  function SkipSpace(t: Text, lax: bool): (r: Text)
    ensures |r| <= |t|
  {
    if lax && t != [] && IsSpace(t[0]) then SkipSpace(t[1..], lax) else t
  }

  /** The text is `word` and something after it. */
  predicate StartsWith(t: Text, word: Text) {
    word <= t
  }

  predicate IsNumberChar(c: CodeUnit) {
    48 <= c <= 57 || c == 43 || c == 45 || c == 46 || c == 101 || c == 69
  }

  function NumberRun(t: Text): (n: nat)
    ensures n <= |t|
  {
    if t == [] || !IsNumberChar(t[0]) then 0 else 1 + NumberRun(t[1..])
  }

  /** A value and what follows it. */
  function ReadValue(t: Text, lax: bool): (r: Option<(Value, Text)>)
    ensures r.Some? ==> |r.value.1| < |t|
    decreases |t|, 2
  {
    var u := SkipSpace(t, lax);
    if u == [] then None
    else if StartsWith(u, [110, 117, 108, 108]) then Some((Null, u[4..]))
    else if StartsWith(u, [116, 114, 117, 101]) then Some((Bool(true), u[4..]))
    else if StartsWith(u, [102, 97, 108, 115, 101]) then Some((Bool(false), u[5..]))
    else if u[0] == 45 || 48 <= u[0] <= 57 then
      var n := NumberRun(u);
      assert n > 0;
      Some((Number(Finite(u[..n])), u[n..]))
    else if u[0] == 34 then
      var s := ReadString(u[1..]);
      if s.Some? then Some((Str(s.value.0), s.value.1)) else None
    else if u[0] == 91 then ReadArray(u[1..], lax)
    else if u[0] == 123 then ReadObject(u[1..], lax)
    else None
  }

  /** After the opening bracket. */
  function ReadArray(t: Text, lax: bool): (r: Option<(Value, Text)>)
    ensures r.Some? ==> |r.value.1| <= |t|
    decreases |t|, 3
  {
    var u := SkipSpace(t, lax);
    if u != [] && u[0] == 93 then Some((Arr([]), u[1..]))
    else
      var first := ReadValue(u, lax);
      if first.None? then None
      else
        var more := ReadItems(first.value.1, lax);
        if more.None? then None else Some((Arr([first.value.0] + more.value.0), more.value.1))
  }

  /** Commas and further items, up to the closing bracket. */
  function ReadItems(t: Text, lax: bool): (r: Option<(seq<Value>, Text)>)
    ensures r.Some? ==> |r.value.1| <= |t|
    decreases |t|, 1
  {
    var u := SkipSpace(t, lax);
    if u == [] then None
    else if u[0] == 93 then Some(([], u[1..]))
    else if u[0] != 44 then None
    else
      var next := ReadValue(u[1..], lax);
      if next.None? then None
      else
        var more := ReadItems(next.value.1, lax);
        if more.None? then None else Some(([next.value.0] + more.value.0, more.value.1))
  }

  /** After the opening brace. */
  function ReadObject(t: Text, lax: bool): (r: Option<(Value, Text)>)
    ensures r.Some? ==> |r.value.1| <= |t|
    decreases |t|, 3
  {
    var u := SkipSpace(t, lax);
    if u != [] && u[0] == 125 then Some((Obj([]), u[1..]))
    else
      var first := ReadMember(u, lax);
      if first.None? then None
      else
        var more := ReadMembers(first.value.1, lax);
        if more.None? then None else Some((Obj([first.value.0] + more.value.0), more.value.1))
  }

  /** A name, a colon and a value. */
  function ReadMember(t: Text, lax: bool): (r: Option<(Entry, Text)>)
    ensures r.Some? ==> |r.value.1| < |t|
    decreases |t|, 2
  {
    var u := SkipSpace(t, lax);
    if u == [] || u[0] != 34 then None
    else
      var name := ReadString(u[1..]);
      if name.None? then None
      else
        var w := SkipSpace(name.value.1, lax);
        if w == [] || w[0] != 58 then None
        else
          var v := ReadValue(w[1..], lax);
          if v.None? then None else Some((Entry(name.value.0, v.value.0), v.value.1))
  }

  /** Commas and further members, up to the closing brace. */
  function ReadMembers(t: Text, lax: bool): (r: Option<(seq<Entry>, Text)>)
    ensures r.Some? ==> |r.value.1| <= |t|
    decreases |t|, 1
  {
    var u := SkipSpace(t, lax);
    if u == [] then None
    else if u[0] == 125 then Some(([], u[1..]))
    else if u[0] != 44 then None
    else
      var next := ReadMember(u[1..], lax);
      if next.None? then None
      else
        var more := ReadMembers(next.value.1, lax);
        if more.None? then None else Some(([next.value.0] + more.value.0, more.value.1))
  }

  // ---------------------------------------------------------------- reading canonical text

  /** What may follow a value inside a larger text: nothing, a comma, or a closing bracket or brace. */
  predicate Follows(t: Text) {
    t == [] || t[0] == 44 || t[0] == 93 || t[0] == 125
  }

  lemma {:induction false} NoSpace(t: Text, lax: bool)
    requires t == [] || !IsSpace(t[0])
    ensures SkipSpace(t, lax) == t
  {
  }

  lemma {:induction false} NumberRunEnds(a: Text, rest: Text)
    requires (forall i | 0 <= i < |a| :: IsNumberUnit(a[i])) && Follows(rest)
    ensures NumberRun(a + rest) == |a|
  {
    if a == [] {
      assert a + rest == rest;
    } else {
      NumberRunEnds(a[1..], rest);
      assert (a + rest)[1..] == a[1..] + rest;
    }
  }

  lemma {:induction false} AfterPrefix(a: Text, rest: Text)
    ensures (a + rest)[..|a|] == a && (a + rest)[|a|..] == rest && a <= a + rest
  {
  }

  lemma {:induction false} TokenReads(a: Text, rest: Text, lax: bool)
    requires IsToken(a) && Follows(rest)
    ensures ReadValue(a + rest, lax) == Some((Number(Finite(a)), rest))
  {
    NumberRunEnds(a, rest);
    AfterPrefix(a, rest);
    assert (a + rest)[0] == a[0];
    NoSpace(a + rest, lax);
  }

  lemma {:induction false} WordReads(word: Text, v: Value, rest: Text, lax: bool)
    requires (word == [110, 117, 108, 108] && v == Null) || (word == [116, 114, 117, 101] && v == Bool(true))
      || (word == [102, 97, 108, 115, 101] && v == Bool(false))
    ensures ReadValue(word + rest, lax) == Some((v, rest))
  {
    AfterPrefix(word, rest);
    assert (word + rest)[0] == word[0];
    NoSpace(word + rest, lax);
  }

  lemma {:induction false} TextReads(s: Text, rest: Text, lax: bool)
    ensures ReadValue(Quote(s) + rest, lax) == Some((Str(s), rest))
  {
    QuoteReads(s, rest);
    assert (Quote(s) + rest)[0] == 34;
    NoSpace(Quote(s) + rest, lax);
  }

  lemma {:induction false} HeadIsNoSpace(v: Value, rest: Text, lax: bool)
    requires Clean(v)
    ensures var t := Plain(v) + rest; t != [] && SkipSpace(t, lax) == t && t[0] != 93
  {
    PlainHead(v);
    assert (Plain(v) + rest)[0] == Plain(v)[0];
    NoSpace(Plain(v) + rest, lax);
  }

  lemma {:induction false} OpensArray(body: Text, rest: Text, lax: bool)
    ensures ReadValue(([91] + body) + rest, lax) == ReadArray(body + rest, lax)
  {
    var t := ([91] + body) + rest;
    assert t[0] == 91 && t[1..] == body + rest;
    NoSpace(t, lax);
  }

  lemma {:induction false} OpensObject(body: Text, rest: Text, lax: bool)
    ensures ReadValue(([123] + body) + rest, lax) == ReadObject(body + rest, lax)
  {
    var t := ([123] + body) + rest;
    assert t[0] == 123 && t[1..] == body + rest;
    NoSpace(t, lax);
  }

  /** Reading the text of a clean value gives the value and leaves what follows. */
  lemma {:induction false} ValueReads(v: Value, rest: Text, lax: bool)
    requires Clean(v) && Follows(rest)
    ensures ReadValue(Plain(v) + rest, lax) == Some((v, rest))
    decreases v, 1
  {
    match v
    case Null => WordReads(NULL_TEXT, v, rest, lax);
    case Bool(b) => WordReads(Plain(v), v, rest, lax);
    case Number(Finite(token)) => TokenReads(token, rest, lax);
    case Str(s) => TextReads(s, rest, lax);
    case Arr(items) =>
      OpensArray(ItemsBody(items), rest, lax);
      ItemsBodyReads(items, rest, lax);
    case Obj(entries) =>
      OpensObject(EntriesBody(entries), rest, lax);
      EntriesBodyReads(entries, rest, lax);
  }

  lemma {:induction false} ItemsBodyReads(items: seq<Value>, rest: Text, lax: bool)
    requires CleanItems(items) && Follows(rest)
    ensures ReadArray(ItemsBody(items) + rest, lax) == Some((Arr(items), rest))
    decreases items, 2
  {
    var t := ItemsBody(items) + rest;
    if items == [] {
      assert t[0] == 93 && t[1..] == rest;
      NoSpace(t, lax);
    } else {
      var more := MoreItems(items[1..]) + rest;
      Split3(Plain(items[0]), MoreItems(items[1..]), rest);
      MoreItemsHead(items[1..], rest, lax);
      HeadIsNoSpace(items[0], more, lax);
      ValueReads(items[0], more, lax);
      MoreItemsReads(items[1..], rest, lax);
      assert [items[0]] + items[1..] == items;
    }
  }

  lemma {:induction false} AfterComma(x: Text, more: Text, rest: Text)
    ensures var t := ([44] + x + more) + rest; t[0] == 44 && t[1..] == x + (more + rest)
  {
  }

  lemma {:induction false} MoreItemsHead(items: seq<Value>, rest: Text, lax: bool)
    ensures var t := MoreItems(items) + rest; t != [] && Follows(t) && SkipSpace(t, lax) == t
  {
    assert MoreItems(items) != [] && (MoreItems(items) + rest)[0] == MoreItems(items)[0];
    NoSpace(MoreItems(items) + rest, lax);
  }

  lemma {:induction false} MoreItemsReads(items: seq<Value>, rest: Text, lax: bool)
    requires CleanItems(items) && Follows(rest)
    ensures ReadItems(MoreItems(items) + rest, lax) == Some((items, rest))
    decreases items, 1
  {
    var t := MoreItems(items) + rest;
    MoreItemsHead(items, rest, lax);
    if items == [] {
      assert t[0] == 93 && t[1..] == rest;
    } else {
      var more := MoreItems(items[1..]) + rest;
      AfterComma(Plain(items[0]), MoreItems(items[1..]), rest);
      MoreItemsHead(items[1..], rest, lax);
      ValueReads(items[0], more, lax);
      MoreItemsReads(items[1..], rest, lax);
      assert [items[0]] + items[1..] == items;
    }
  }

  lemma {:induction false} FieldReads(e: Entry, rest: Text, lax: bool)
    requires Clean(e.value) && Follows(rest)
    ensures ReadMember(Field(e) + rest, lax) == Some((e, rest))
    decreases e, 2
  {
    var t, more := Field(e) + rest, [58] + (Plain(e.value) + rest);
    Split4(Quote(e.key), [58], Plain(e.value), rest);
    assert t == Quote(e.key) + more && t[0] == 34;
    NoSpace(t, lax);
    QuoteReads(e.key, more);
    NoSpace(more, lax);
    assert more[0] == 58 && more[1..] == Plain(e.value) + rest;
    ValueReads(e.value, rest, lax);
  }

  lemma {:induction false} MoreEntriesHead(entries: seq<Entry>, rest: Text, lax: bool)
    ensures var t := MoreEntries(entries) + rest; t != [] && Follows(t) && SkipSpace(t, lax) == t
  {
    assert MoreEntries(entries) != [] && (MoreEntries(entries) + rest)[0] == MoreEntries(entries)[0];
    NoSpace(MoreEntries(entries) + rest, lax);
  }

  lemma {:induction false} EntriesBodyReads(entries: seq<Entry>, rest: Text, lax: bool)
    requires CleanEntries(entries) && Follows(rest)
    ensures ReadObject(EntriesBody(entries) + rest, lax) == Some((Obj(entries), rest))
    decreases entries, 2
  {
    var t := EntriesBody(entries) + rest;
    if entries == [] {
      assert t[0] == 125 && t[1..] == rest;
      NoSpace(t, lax);
    } else {
      var more := MoreEntries(entries[1..]) + rest;
      Split3(Field(entries[0]), MoreEntries(entries[1..]), rest);
      assert t[0] == 34;
      NoSpace(t, lax);
      MoreEntriesHead(entries[1..], rest, lax);
      FieldReads(entries[0], more, lax);
      MoreEntriesReads(entries[1..], rest, lax);
      assert [entries[0]] + entries[1..] == entries;
    }
  }

  lemma {:induction false} MoreEntriesReads(entries: seq<Entry>, rest: Text, lax: bool)
    requires CleanEntries(entries) && Follows(rest)
    ensures ReadMembers(MoreEntries(entries) + rest, lax) == Some((entries, rest))
    decreases entries, 1
  {
    var t := MoreEntries(entries) + rest;
    MoreEntriesHead(entries, rest, lax);
    if entries == [] {
      assert t[0] == 125 && t[1..] == rest;
    } else {
      var more := MoreEntries(entries[1..]) + rest;
      AfterComma(Field(entries[0]), MoreEntries(entries[1..]), rest);
      MoreEntriesHead(entries[1..], rest, lax);
      FieldReads(entries[0], more, lax);
      MoreEntriesReads(entries[1..], rest, lax);
      assert [entries[0]] + entries[1..] == entries;
    }
  }

  // ---------------------------------------------------------------- what canonical text says

  /** In every object of the value the names ascend strictly, code unit by code unit. */
  ghost predicate KeysAscend(v: Value) {
    match v
    case Arr(items) => forall i | 0 <= i < |items| :: KeysAscend(items[i])
    case Obj(entries) =>
      && (forall i, j | 0 <= i < j < |entries| :: Smaller(entries[i].key, entries[j].key))
      && forall i | 0 <= i < |entries| :: KeysAscend(entries[i].value)
    case _ => true
  }

  lemma {:induction false} NormalKeysAscend(v: Value)
    requires Normal(v)
    ensures KeysAscend(v)
  {
    match v
    case Arr(items) =>
      forall i | 0 <= i < |items| ensures KeysAscend(items[i]) {
        NormalItemAt(items, i);
        NormalKeysAscend(items[i]);
      }
    case Obj(entries) =>
      forall i, j | 0 <= i < j < |entries| ensures Smaller(entries[i].key, entries[j].key) {
        LexLessIff(entries[i].key, entries[j].key);
      }
      forall i | 0 <= i < |entries| ensures KeysAscend(entries[i].value) {
        NormalEntryAt(entries, i);
        NormalKeysAscend(entries[i].value);
      }
    case _ =>
  }

  lemma {:induction false} NormalItemAt(items: seq<Value>, i: nat)
    requires NormalItems(items) && i < |items|
    ensures Normal(items[i])
  {
    if i > 0 {
      NormalItemAt(items[1..], i - 1);
    }
  }

  lemma {:induction false} NormalEntryAt(entries: seq<Entry>, i: nat)
    requires NormalEntries(entries) && i < |entries|
    ensures Normal(entries[i].value)
  {
    if i > 0 {
      NormalEntryAt(entries[1..], i - 1);
    }
  }

  /** A reader of JSON, strict or lax, finds in the canonical text exactly the data of the value, with the names of
      every object in ascending order, and stops where the text stops. */
  lemma {:induction false} CanonicalTextReads(v: Value, rest: Text, lax: bool)
    requires WellFormed(v) && Follows(rest)
    ensures var r := ReadValue(CanonicalText(v) + rest, lax);
      && r.Some? && r.value.1 == rest
      && MeaningOf(r.value.0) == MeaningOf(v) && KeysAscend(r.value.0)
  {
    NormKeepsData(v);
    NormalIsClean(Norm(v));
    NormalKeysAscend(Norm(v));
    ValueReads(Norm(v), rest, lax);
  }
}
