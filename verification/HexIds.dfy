/** Why an id may be read as a number: on 64-digit lower-case hex strings, string order is number order. */
module HexIds {
  import opened Texts

  const WIDTH := 64

  predicate IsHexDigit(c: CodeUnit) {
    48 <= c <= 57 || 97 <= c <= 102
  }

  function Digit(c: CodeUnit): nat
    requires IsHexDigit(c)
  {
    if c <= 57 then c - 48 else c - 87
  }

  predicate AllHex(t: Text) {
    forall i | 0 <= i < |t| :: IsHexDigit(t[i])
  }

  /** `HEX_ID_64.matches(t)`. */
  predicate IsHex64(t: Text) {
    |t| == WIDTH && AllHex(t)
  }

  function Pow16(n: nat): nat {
    if n == 0 then 1 else 16 * Pow16(n - 1)
  }

  function Value(t: Text): nat
    requires AllHex(t)
  {
    if t == [] then 0 else Digit(t[0]) * Pow16(|t| - 1) + Value(t[1..])
  }

  lemma {:induction false} MulMono(a: nat, b: nat, p: nat)
    requires a <= b
    ensures a * p <= b * p
  {
  }

  lemma {:induction false} ValueBound(t: Text)
    requires AllHex(t)
    ensures Value(t) < Pow16(|t|)
  {
    if t != [] {
      ValueBound(t[1..]);
      MulMono(Digit(t[0]), 15, Pow16(|t| - 1));
    }
  }

  lemma {:induction false} LeadingDigitDecides(x: nat, y: nat, p: nat, u: nat, v: nat)
    requires x < y && u < p
    ensures x * p + u < y * p + v
  {
    MulMono(x + 1, y, p);
    assert (x + 1) * p == x * p + p;
  }

  /** Equal width: the lexicographic order of the strings is the order of the numbers they spell. */
  lemma {:induction false} OrderIsNumeric(a: Text, b: Text)
    requires AllHex(a) && AllHex(b) && |a| == |b|
    ensures LexLess(a, b) <==> Value(a) < Value(b)
    ensures a == b <==> Value(a) == Value(b)
  {
    if a != [] {
      var x, y, p := Digit(a[0]), Digit(b[0]), Pow16(|a| - 1);
      var u, v := Value(a[1..]), Value(b[1..]);
      ValueBound(a[1..]);
      ValueBound(b[1..]);
      OrderIsNumeric(a[1..], b[1..]);
      assert a == [a[0]] + a[1..] && b == [b[0]] + b[1..];
      if x < y {
        LeadingDigitDecides(x, y, p, u, v);
      } else if y < x {
        LeadingDigitDecides(y, x, p, v, u);
      }
    }
  }
}
