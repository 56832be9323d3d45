/** The longest suffix of a token string that belongs to a set of strings. */
module Suffixes {
  import opened Options

  type Word = seq<nat>

  ghost predicate IsSuffix(s: Word, w: Word) {
    |s| <= |w| && w[|w| - |s|..] == s
  }

  ghost predicate PrefixClosed(p: set<Word>) {
    [] in p && forall w | w in p && w != [] :: w[..|w| - 1] in p
  }

  ghost function LongestIn(p: set<Word>, w: Word): (r: Option<Word>)
  {
    if w in p then Some(w)
    else if w == [] then None
    else LongestIn(p, w[1..])
  }

  /** `LongestIn` is what its name says: a member, a suffix, and no shorter than any other. */
  lemma {:induction false} LongestInIsLongest(p: set<Word>, w: Word)
    ensures match LongestIn(p, w)
      case None => forall s | s in p :: !IsSuffix(s, w)
      case Some(r) => r in p && IsSuffix(r, w) && forall s | s in p && IsSuffix(s, w) :: |s| <= |r|
  {
    if w in p || w == [] {
    } else {
      LongestInIsLongest(p, w[1..]);
      forall s | s in p && IsSuffix(s, w) ensures IsSuffix(s, w[1..]) {
        assert |s| == |w| ==> s == w;
      }
      if LongestIn(p, w[1..]).Some? {
        var r := LongestIn(p, w[1..]).value;
        assert w[|w| - |r|..] == w[1..][|w| - 1 - |r|..];
      }
    }
  }

  /** In a set holding the empty string some suffix always qualifies. */
  lemma {:induction false} LongestExists(p: set<Word>, w: Word)
    requires [] in p
    ensures LongestIn(p, w).Some? && LongestIn(p, w).value in p
    ensures |LongestIn(p, w).value| <= |w|
  {
    if w in p {
    } else {
      LongestExists(p, w[1..]);
    }
  }

  /** Reading one more token only needs the longest suffix, not the whole input. */
  lemma {:induction false} LongestStep(p: set<Word>, w: Word, t: nat)
    requires PrefixClosed(p)
    ensures LongestIn(p, w).Some?
    ensures LongestIn(p, w + [t]) == LongestIn(p, LongestIn(p, w).value + [t])
  {
    LongestExists(p, w);
    if w in p {
    } else {
      assert (w + [t])[..|w|] == w;
      assert (w + [t])[1..] == w[1..] + [t];
      LongestStep(p, w[1..], t);
    }
  }

  /** A set inside a larger one sees only the larger one's longest suffix. */
  lemma {:induction false} LongestThrough(p: set<Word>, q: set<Word>, w: Word)
    requires [] in p && q <= p
    ensures LongestIn(p, w).Some?
    ensures LongestIn(q, w) == LongestIn(q, LongestIn(p, w).value)
  {
    LongestExists(p, w);
    if w in p {
    } else {
      LongestThrough(p, q, w[1..]);
    }
  }
}
