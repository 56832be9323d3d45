/** Comparing strings by character code, as the library does. */
module Strings {
  import Patterns

  function Codes(s: string): (codes: seq<nat>)
    ensures |codes| == |s|
  {
    seq(|s|, i requires 0 <= i < |s| => s[i] as int)
  }

  predicate StringLe(a: string, b: string) {
    !Patterns.LexLess(Codes(b), Codes(a))
  }

  lemma CodesInjective(a: string, b: string)
    requires Codes(a) == Codes(b)
    ensures a == b
  {
    assert |a| == |b|;
    forall i | 0 <= i < |a| ensures a[i] == b[i] { assert Codes(a)[i] == Codes(b)[i]; }
  }

  lemma StringLeTotal(a: string, b: string)
    ensures StringLe(a, b) || StringLe(b, a)
    ensures StringLe(a, b) && StringLe(b, a) ==> a == b
    ensures StringLe(a, a)
  {
    Patterns.LexTotal(Codes(a), Codes(b));
    Patterns.LexTotal(Codes(a), Codes(a));
    if Codes(a) == Codes(b) { CodesInjective(a, b); }
  }

  lemma StringLeTransitive(a: string, b: string, c: string)
    requires StringLe(a, b) && StringLe(b, c)
    ensures StringLe(a, c)
  {
    var x, y, z := Codes(a), Codes(b), Codes(c);
    Patterns.LexTotal(x, y);
    Patterns.LexTotal(y, z);
    Patterns.LexTotal(x, z);
    if Patterns.LexLess(z, x) {
      if Patterns.LexLess(x, y) { Patterns.LexTransitive(z, x, y); }
    }
  }

  /** A string comes first if it begins the other, or has the smaller character where they first differ. */
  lemma StringOrder(a: string, b: string)
    ensures StringLe(a, b) <==>
      a <= b || exists k: nat :: k < |a| && k < |b| && a[..k] == b[..k] && a[k] < b[k]
  {
    var x, y := Codes(a), Codes(b);
    var c := Patterns.CommonPrefix(y, x);
    forall i: nat | i < c ensures a[i] == b[i] { assert y[..c][i] == x[..c][i]; }
    assert a[..c] == b[..c];
    if c < |a| && c < |b| {
      assert x[c] != y[c];
      assert a[c] != b[c];
      forall k: nat | k < |a| && k < |b| && a[..k] == b[..k] && a[k] != b[k] ensures k == c {
        forall i: nat | i < k ensures a[i] == b[i] { assert a[..k][i] == b[..k][i]; }
      }
      assert !(a <= b);
    } else if c == |a| {
      assert a <= b;
    } else {
      forall k: nat | k < |a| && k < |b| ensures a[k] == b[k] { }
      assert !(a <= b);
    }
  }
}
