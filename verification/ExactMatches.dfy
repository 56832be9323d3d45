/** Rules and the token ranges they match. */
module ExactMatches {
  import opened Picking

  /** The corpus flags the matcher consults. */
  datatype Flags = Flags(text: bool, notice: bool, tag: bool, reference: bool, intro: bool, clue: bool,
                         continuous: bool, requiredPhrase: bool, falsePositive: bool)

  datatype MatchRule = MatchRule(id: string, expression: string, stopwordAfter: seq<nat>, flags: Flags, relevance: nat)

  /** Tokens `start..end` of the input match rule `rule`. */
  datatype Match = Match(rule: nat, start: nat, end: nat) {
    function Length(): int {
      end - start
    }
  }

  /** The members of a list that satisfy a predicate, in order. */
  function Filter<T>(keep: T -> bool, s: seq<T>): seq<T> {
    if s == [] then [] else Filter(keep, s[..|s| - 1]) + if keep(s[|s| - 1]) then [s[|s| - 1]] else []
  }

  lemma FilterOne<T>(keep: T -> bool, s: seq<T>, i: nat)
    requires i < |s|
    ensures Filter(keep, s[..i + 1]) == Filter(keep, s[..i]) + if keep(s[i]) then [s[i]] else []
  {
    assert s[..i + 1][..i] == s[..i];
  }

  lemma {:induction false} FilterMembers<T>(keep: T -> bool, s: seq<T>, x: T)
    ensures x in Filter(keep, s) <==> x in s && keep(x)
  {
    if s == [] {
    } else {
      FilterMembers(keep, s[..|s| - 1], x);
    }
  }

  ghost function Passing<T(!new)>(keep: T -> bool, s: seq<T>): nat -> bool {
    (i: nat) => i < |s| && keep(s[i])
  }

  ghost function MemberAt<T(!new)>(s: seq<T>): (nat, T) -> bool {
    (i: nat, x: T) => i < |s| && x == s[i]
  }

  /** Filtering keeps the passing members, each once and in order. */
  lemma {:induction false} FilterPicks<T(!new)>(keep: T -> bool, s: seq<T>)
    ensures Picks(0, |s|, Passing(keep, s), MemberAt(s), Filter(keep, s))
  {
    if s == [] {
      PicksNone(0, Passing(keep, s), MemberAt(s));
    } else {
      var n := |s| - 1;
      FilterPicks(keep, s[..n]);
      PicksAlike(0, n, Passing(keep, s[..n]), MemberAt(s[..n]), Passing(keep, s), MemberAt(s), Filter(keep, s[..n]));
      PicksNext(0, n, Passing(keep, s), MemberAt(s), Filter(keep, s[..n]),
                if keep(s[n]) then [s[n]] else []);
    }
  }
}
