/** Token patterns, the order they are sorted in, and the reference answer to a search. */
module Patterns {
  import opened Suffixes
  import Sorting

  /** The 32-bit sentinel for an absent node or value. */
  const NONE: nat := 0xFFFF_FFFF

  datatype Pattern = Pattern(tokens: Word, value: nat)

  function CommonPrefix(a: Word, b: Word): (c: nat)
    ensures c <= |a| && c <= |b| && a[..c] == b[..c]
    ensures c < |a| && c < |b| ==> a[c] != b[c]
  {
    if a == [] || b == [] || a[0] != b[0] then 0
    else
      assert a == [a[0]] + a[1..] && b == [b[0]] + b[1..];
      1 + CommonPrefix(a[1..], b[1..])
  }

  predicate LexLess(a: Word, b: Word) {
    var c := CommonPrefix(a, b);
    c < |b| && (c == |a| || a[c] < b[c])
  }

  function Before(): (Pattern, Pattern) -> bool {
    (a: Pattern, b: Pattern) =>
      LexLess(a.tokens, b.tokens) || (a.tokens == b.tokens && a.value <= b.value)
  }

  lemma SamePrefix(a: Word, b: Word, c: nat)
    requires c <= |a| && c <= |b| && a[..c] == b[..c]
    ensures forall i | 0 <= i < c :: a[i] == b[i]
  {
    assert forall i | 0 <= i < c :: a[i] == a[..c][i] && b[i] == b[..c][i];
  }

  lemma CommonPrefixUnique(a: Word, b: Word, c: nat)
    requires c <= |a| && c <= |b| && a[..c] == b[..c]
    requires c < |a| && c < |b| ==> a[c] != b[c]
    ensures CommonPrefix(a, b) == c
  {
    SamePrefix(a, b, c);
    SamePrefix(a, b, CommonPrefix(a, b));
  }

  lemma LexTransitive(a: Word, b: Word, d: Word)
    requires LexLess(a, b) && LexLess(b, d)
    ensures LexLess(a, d)
  {
    var x, y := CommonPrefix(a, b), CommonPrefix(b, d);
    var c := if x < y then x else y;
    assert a[..c] == a[..x][..c] && b[..c] == b[..x][..c] == b[..y][..c] && d[..c] == d[..y][..c];
    if x < y { assert b[..y][x] == d[..y][x]; }
    if y < x { assert a[..x][y] == b[..x][y]; }
    CommonPrefixUnique(a, d, c);
  }

  lemma LexTotal(a: Word, b: Word)
    ensures LexLess(a, b) || a == b || LexLess(b, a)
    ensures !(LexLess(a, b) && LexLess(b, a)) && !LexLess(a, a)
  {
    var c := CommonPrefix(a, b);
    CommonPrefixUnique(b, a, c);
    CommonPrefixUnique(a, a, |a|);
    assert c == |a| == |b| ==> a == a[..c] == b[..c] == b;
  }

  lemma BeforeIsTotalOrder()
    ensures Sorting.TotalOrder(Before())
  {
    forall a: Pattern, b: Pattern ensures Before()(a, b) || Before()(b, a) {
      LexTotal(a.tokens, b.tokens);
    }
    forall a: Pattern, b: Pattern, c: Pattern | Before()(a, b) && Before()(b, c) ensures Before()(a, c) {
      if LexLess(a.tokens, b.tokens) && LexLess(b.tokens, c.tokens) {
        LexTransitive(a.tokens, b.tokens, c.tokens);
      }
    }
  }

  /** Extending a string past the point where `a` leaves it puts it after `a`. */
  lemma LexExtend(a: Word, b: Word, k: nat)
    requires LexLess(a, b) && CommonPrefix(a, b) < k <= |b|
    ensures LexLess(a, b[..k])
  {
    var c := CommonPrefix(a, b);
    assert b[..k][..c] == b[..c];
    CommonPrefixUnique(a, b[..k], c);
  }

  lemma LexSiblings(s: Word, t: nat, u: nat)
    requires LexLess(s + [t], s + [u])
    ensures t < u
  {
    if t != u {
      assert (s + [t])[..|s|] == s == (s + [u])[..|s|];
      CommonPrefixUnique(s + [t], s + [u], |s|);
    } else {
      LexTotal(s + [t], s + [t]);
    }
  }

  /** Values of the patterns spelling `s`, last listed first. */
  function ValuesOf(ps: seq<Pattern>, s: Word): seq<nat> {
    if ps == [] then []
    else
      var last := ps[|ps| - 1];
      (if last.tokens == s then [last.value] else []) + ValuesOf(ps[..|ps| - 1], s)
  }

  /** The reference answer: values of all non-empty patterns ending where `w` ends, longest first. */
  function Hits(ps: seq<Pattern>, w: Word): seq<nat> {
    if w == [] then [] else ValuesOf(ps, w) + Hits(ps, w[1..])
  }

  lemma {:induction false} ValuesOfMembers(ps: seq<Pattern>, s: Word, v: nat)
    ensures v in ValuesOf(ps, s) <==> exists p :: p in ps && p.tokens == s && p.value == v
  {
    if ps == [] {
    } else {
      var init, last := ps[..|ps| - 1], ps[|ps| - 1];
      assert ps == init + [last];
      ValuesOfMembers(init, s, v);
      if last.tokens == s && last.value == v { assert last in ps; }
    }
  }

  ghost predicate DistinctValues(ps: seq<Pattern>) {
    forall i, j | 0 <= i < j < |ps| :: ps[i].value != ps[j].value
  }
}
