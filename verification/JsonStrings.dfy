/** JSON string literals: the writer's escapes and a reader for them (RFC 8259, section 7). */
module JsonStrings {
  import opened Seqs
  import opened Texts

  const QUOTE: CodeUnit := 34
  const BACKSLASH: CodeUnit := 92

  // ---------------------------------------------------------------- writing a string

  function HexUnit(d: nat): CodeUnit
    requires d < 16
  {
    if d < 10 then 48 + d else 87 + d
  }

  function Escape(c: CodeUnit): Text {
    if c == QUOTE then [BACKSLASH, QUOTE]
    else if c == BACKSLASH then [BACKSLASH, BACKSLASH]
    else if c == 8 then [BACKSLASH, 98]
    else if c == 12 then [BACKSLASH, 102]
    else if c == 10 then [BACKSLASH, 110]
    else if c == 13 then [BACKSLASH, 114]
    else if c == 9 then [BACKSLASH, 116]
    else if c < 32 then [BACKSLASH, 117, 48, 48, HexUnit(c / 16), HexUnit(c % 16)]
    else [c]
  }

  function EscapeAll(s: Text): Text {
    if s == [] then [] else Escape(s[0]) + EscapeAll(s[1..])
  }

  function Quote(s: Text): Text {
    [QUOTE] + EscapeAll(s) + [QUOTE]
  }

  lemma {:induction false} EscapeNext(r: Text, s: Text, i: nat)
    requires i < |s|
    ensures r + EscapeAll(s[i..]) == r + Escape(s[i]) + EscapeAll(s[i + 1..])
  {
    assert s[i..][1..] == s[i + 1..];
  }

  method WriteString(out: Text, s: Text) returns (r: Text)
    ensures r == out + Quote(s)
  {
    r := out + [QUOTE];
    for i := 0 to |s|
      invariant r + EscapeAll(s[i..]) == out + [QUOTE] + EscapeAll(s)
    {
      EscapeNext(r, s, i);
      r := r + Escape(s[i]);
    }
    assert r == out + [QUOTE] + EscapeAll(s);
    r := r + [QUOTE];
  }

  // ---------------------------------------------------------------- reading a string back (RFC 8259, section 7)

  function HexDigitValue(c: CodeUnit): Option<nat> {
    if 48 <= c <= 57 then Some(c - 48)
    else if 97 <= c <= 102 then Some(c - 87)
    else if 65 <= c <= 70 then Some(c - 55)
    else None
  }

  function SimpleEscape(c: CodeUnit): Option<CodeUnit> {
    if c == 34 || c == 92 || c == 47 then Some(c)
    else if c == 98 then Some(8)
    else if c == 102 then Some(12)
    else if c == 110 then Some(10)
    else if c == 114 then Some(13)
    else if c == 116 then Some(9)
    else None
  }

  /** One character of a string body: the unit it stands for and how many units spell it. */
  function ReadUnit(t: Text): Option<(CodeUnit, nat)>
    requires t != []
  {
    if t[0] == 34 || t[0] < 32 then None
    else if t[0] != 92 then Some((t[0], 1))
    else if |t| < 2 then None
    else if t[1] != 117 then
      var e := SimpleEscape(t[1]);
      if e.Some? then Some((e.value, 2)) else None
    else if |t| < 6 then None
    else
      var (a, b, c, d) := (HexDigitValue(t[2]), HexDigitValue(t[3]), HexDigitValue(t[4]), HexDigitValue(t[5]));
      if a.Some? && b.Some? && c.Some? && d.Some?
      then Some((4096 * a.value + 256 * b.value + 16 * c.value + d.value, 6))
      else None
  }

  /** The rest of a string after its opening quote: its contents and what follows the closing quote. */
  function ReadString(t: Text): (r: Option<(Text, Text)>)
    ensures r.Some? ==> |r.value.1| < |t|
    decreases |t|
  {
    if t == [] then None
    else if t[0] == 34 then Some(([], t[1..]))
    else
      var u := ReadUnit(t);
      if u.None? || u.value.1 == 0 || u.value.1 > |t| then None
      else
        var rest := ReadString(t[u.value.1..]);
        if rest.None? then None else Some(([u.value.0] + rest.value.0, rest.value.1))
  }

  lemma {:induction false} EscapeReads(c: CodeUnit, t: Text)
    ensures Escape(c)[0] != QUOTE
    ensures ReadUnit(Escape(c) + t) == Some((c, |Escape(c)|))
  {
  }

  /** No hexadecimal digit of the first `n` units is a capital. */
  predicate LowerCase(t: Text, n: nat)
    requires n <= |t|
  {
    forall i | 2 <= i < n :: !(65 <= t[i] <= 70)
  }

  /** Among all spellings of a unit that a reader accepts, the writer takes the shortest, and of those the one in small
      letters. */
  lemma {:induction false} EscapeIsShortest(c: CodeUnit, t: Text)
    requires t != [] && ReadUnit(t).Some? && ReadUnit(t).value.0 == c && ReadUnit(t).value.1 <= |t|
    ensures var n := ReadUnit(t).value.1;
      |Escape(c)| <= n && (|Escape(c)| == n && LowerCase(t, n) ==> t[..n] == Escape(c))
  {
    var n := ReadUnit(t).value.1;
    if n == 6 && |Escape(c)| == 6 {
      HexDigits(t[2], t[3], t[4], t[5], c);
    }
  }

  lemma {:induction false} HexDigits(p: CodeUnit, q: CodeUnit, x: CodeUnit, y: CodeUnit, c: CodeUnit)
    requires var (a, b, d, e) := (HexDigitValue(p), HexDigitValue(q), HexDigitValue(x), HexDigitValue(y));
      a.Some? && b.Some? && d.Some? && e.Some? && c == 4096 * a.value + 256 * b.value + 16 * d.value + e.value
    requires c < 32
    ensures p == 48 && q == 48
    ensures HexDigitValue(x) == Some(c / 16) && HexDigitValue(y) == Some(c % 16)
  {
  }

  /** Reading back what was written gives the string, and leaves exactly what followed. */
  lemma {:induction false} StringRoundTrip(s: Text, rest: Text)
    ensures ReadString(EscapeAll(s) + [QUOTE] + rest) == Some((s, rest))
    decreases |s|
  {
    var t := EscapeAll(s) + [QUOTE] + rest;
    if s == [] {
      assert t[1..] == rest;
    } else {
      var tail := EscapeAll(s[1..]) + [QUOTE] + rest;
      EscapeReads(s[0], tail);
      assert t == Escape(s[0]) + tail;
      assert t[|Escape(s[0])|..] == tail;
      StringRoundTrip(s[1..], rest);
      assert s == [s[0]] + s[1..];
    }
  }

  lemma {:induction false} DropOpening(q: CodeUnit, body: Text, s: Text)
    ensures ([q] + body + [q] + s)[1..] == body + [q] + s
  {
  }

  lemma {:induction false} QuoteReads(a: Text, s: Text)
    ensures ReadString((Quote(a) + s)[1..]) == Some((a, s))
  {
    StringRoundTrip(a, s);
    DropOpening(QUOTE, EscapeAll(a), s);
  }

  lemma {:induction false} QuoteInjective(a: Text, b: Text, s: Text, t: Text)
    requires Quote(a) + s == Quote(b) + t
    ensures a == b && s == t
  {
    QuoteReads(a, s);
    QuoteReads(b, t);
  }
}
