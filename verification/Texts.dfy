/** Strings as the JVM sees them: sequences of 16-bit code units, compared lexicographically. */
module Texts {
  type CodeUnit = c: int | 0 <= c < 0x1_0000

  type Text = seq<CodeUnit>

  /** `String.compareTo(other) < 0`. */
  predicate LexLess(a: Text, b: Text) {
    if b == [] then false
    else if a == [] then true
    else a[0] < b[0] || (a[0] == b[0] && LexLess(a[1..], b[1..]))
  }

  lemma {:induction false} LexIrreflexive(a: Text)
    ensures !LexLess(a, a)
  {
    if a != [] {
      LexIrreflexive(a[1..]);
    }
  }

  lemma {:induction false} LexTransitive(a: Text, b: Text, c: Text)
    requires LexLess(a, b) && LexLess(b, c)
    ensures LexLess(a, c)
  {
    if a != [] && a[0] == b[0] && b[0] == c[0] {
      LexTransitive(a[1..], b[1..], c[1..]);
    }
  }

  lemma {:induction false} LexTotal(a: Text, b: Text)
    ensures LexLess(a, b) || a == b || LexLess(b, a)
  {
    if a != [] && b != [] && a[0] == b[0] {
      LexTotal(a[1..], b[1..]);
      assert a == [a[0]] + a[1..] && b == [b[0]] + b[1..];
    }
  }

  // ---------------------------------------------------------------- what the comparison looks at

  /** The two agree up to place `k`. There the first ends and the second goes on, or it has the smaller unit. */
  ghost predicate SmallerAt(a: Text, b: Text, k: nat) {
    && k <= |a| && k < |b| && a[..k] == b[..k]
    && (k < |a| ==> a[k] < b[k])
  }

  ghost predicate Smaller(a: Text, b: Text) {
    exists k: nat :: SmallerAt(a, b, k)
  }

  lemma {:induction false} SmallerAtNext(a: Text, b: Text, k: nat)
    requires a != [] && b != [] && a[0] == b[0]
    ensures SmallerAt(a[1..], b[1..], k) <==> SmallerAt(a, b, k + 1)
  {
    if SmallerAt(a[1..], b[1..], k) {
      assert a[..k + 1] == [a[0]] + a[1..][..k] && b[..k + 1] == [b[0]] + b[1..][..k];
    }
    if SmallerAt(a, b, k + 1) {
      assert a[1..][..k] == a[..k + 1][1..] && b[1..][..k] == b[..k + 1][1..];
    }
  }

  /** The comparison is decided at the first unit in which the texts differ, or by the end of the shorter one. */
  lemma {:induction false} LexLessIff(a: Text, b: Text)
    ensures LexLess(a, b) <==> Smaller(a, b)
  {
    if a == [] || b == [] || a[0] != b[0] {
      FirstUnitsDecide(a, b);
    } else {
      LexLessIff(a[1..], b[1..]);
      if k: nat :| SmallerAt(a[1..], b[1..], k) {
        SmallerAtNext(a, b, k);
      }
      if k: nat :| SmallerAt(a, b, k) {
        SmallerAtHead(a, b, k);
        SmallerAtNext(a, b, k - 1);
      }
    }
  }

  lemma {:induction false} SmallerAtHead(a: Text, b: Text, k: nat)
    requires a != [] && b != [] && a[0] == b[0] && SmallerAt(a, b, k)
    ensures k > 0
  {
  }

  lemma {:induction false} AgreeAtStart(a: Text, b: Text, k: nat)
    requires 0 < k <= |a| && k <= |b| && a[..k] == b[..k]
    ensures a[0] == b[0]
  {
    assert a[..k][0] == a[0] && b[..k][0] == b[0];
  }

  lemma {:induction false} FirstUnitsDecide(a: Text, b: Text)
    requires a == [] || b == [] || a[0] != b[0]
    ensures LexLess(a, b) <==> Smaller(a, b)
  {
    assert LexLess(a, b) ==> SmallerAt(a, b, 0);
    forall k: nat | SmallerAt(a, b, k) ensures LexLess(a, b) {
      if k > 0 {
        AgreeAtStart(a, b, k);
      }
    }
  }
}
