/** Picking some members of a list in order: what scans that skip come to. */
module Picking {

  ghost predicate Rising(at: seq<nat>) {
    forall j, k | 0 <= j < k < |at| :: at[j] < at[k]
  }

  ghost predicate Within(from: nat, past: nat, takes: nat -> bool, at: seq<nat>) {
    forall k | 0 <= k < |at| :: from <= at[k] < past && takes(at[k])
  }

  ghost predicate Missing(from: nat, past: nat, takes: nat -> bool, at: seq<nat>) {
    exists i: nat :: from <= i < past && takes(i) && i !in at
  }

  /** `at` lists all places from `from` up to `past` that are taken, in order. */
  ghost predicate AllTaken(from: nat, past: nat, takes: nat -> bool, at: seq<nat>) {
    Rising(at) && Within(from, past, takes, at) && !Missing(from, past, takes, at)
  }

  ghost predicate AllGiven<R(!new)>(gives: (nat, R) -> bool, r: seq<R>, at: seq<nat>) {
    |at| == |r| && forall k | 0 <= k < |at| :: gives(at[k], r[k])
  }

  /** The list holds what the taken places give, each once and in order. */
  ghost predicate Picks<R(!new)>(from: nat, past: nat, takes: nat -> bool, gives: (nat, R) -> bool, r: seq<R>) {
    exists at :: AllTaken(from, past, takes, at) && AllGiven(gives, r, at)
  }

  lemma PicksNone<R(!new)>(from: nat, takes: nat -> bool, gives: (nat, R) -> bool)
    ensures Picks(from, from, takes, gives, [])
  {
    assert AllTaken(from, from, takes, []) && AllGiven(gives, [], []);
  }

  lemma TakesNext(from: nat, past: nat, takes: nat -> bool, at: seq<nat>)
    requires from <= past && AllTaken(from, past, takes, at)
    ensures AllTaken(from, past + 1, takes, if takes(past) then at + [past] else at)
  {
    var more := if takes(past) then at + [past] else at;
    assert Rising(more) && Within(from, past + 1, takes, more);
  }

  /** What a place gives if it is taken. */
  ghost predicate Gives<R(!new)>(takes: nat -> bool, gives: (nat, R) -> bool, i: nat, xs: seq<R>) {
    if takes(i) then |xs| == 1 && gives(i, xs[0]) else xs == []
  }

  /** One more place at the end. */
  lemma PicksNext<R(!new)>(from: nat, past: nat, takes: nat -> bool, gives: (nat, R) -> bool, r: seq<R>, xs: seq<R>)
    requires from <= past && Picks(from, past, takes, gives, r) && Gives(takes, gives, past, xs)
    ensures Picks(from, past + 1, takes, gives, r + xs)
  {
    var at :| AllTaken(from, past, takes, at) && AllGiven(gives, r, at);
    TakesNext(from, past, takes, at);
    if takes(past) {
      assert AllGiven(gives, r + xs, at + [past]);
    } else {
      assert r + xs == r;
    }
  }

  lemma TakesFirst(from: nat, past: nat, takes: nat -> bool, at: seq<nat>)
    requires from < past && AllTaken(from + 1, past, takes, at)
    ensures AllTaken(from, past, takes, if takes(from) then [from] + at else at)
  {
    var more := if takes(from) then [from] + at else at;
    assert Rising(more) && Within(from, past, takes, more);
  }

  /** One more place in front. */
  lemma PicksFirst<R(!new)>(from: nat, past: nat, takes: nat -> bool, gives: (nat, R) -> bool, r: seq<R>, xs: seq<R>)
    requires from < past && Picks(from + 1, past, takes, gives, r) && Gives(takes, gives, from, xs)
    ensures Picks(from, past, takes, gives, xs + r)
  {
    var at :| AllTaken(from + 1, past, takes, at) && AllGiven(gives, r, at);
    TakesFirst(from, past, takes, at);
    if takes(from) {
      assert AllGiven(gives, xs + r, [from] + at);
    } else {
      assert xs + r == r;
    }
  }

  /** The conditions may be put differently. */
  lemma PicksAlike<R(!new)>(from: nat, past: nat, takes: nat -> bool, gives: (nat, R) -> bool, takes': nat -> bool,
                            gives': (nat, R) -> bool, r: seq<R>)
    requires Picks(from, past, takes, gives, r)
    requires forall i: nat | from <= i < past :: takes(i) <==> takes'(i)
    requires forall i: nat, x: R | from <= i < past && gives(i, x) :: gives'(i, x)
    ensures Picks(from, past, takes', gives', r)
  {
    var at :| AllTaken(from, past, takes, at) && AllGiven(gives, r, at);
    TakenAlike(from, past, takes, takes', at);
    forall k | 0 <= k < |at| ensures gives'(at[k], r[k]) { assert gives(at[k], r[k]); }
    assert AllGiven(gives', r, at);
  }

  lemma TakenAlike(from: nat, past: nat, takes: nat -> bool, takes': nat -> bool, at: seq<nat>)
    requires AllTaken(from, past, takes, at)
    requires forall i: nat | from <= i < past :: takes(i) <==> takes'(i)
    ensures AllTaken(from, past, takes', at)
  {
  }

  /** How many places from `from` up to `past` are taken. */
  ghost function Taken(from: nat, past: nat, takes: nat -> bool): set<nat> {
    set i: nat | from <= i < past && takes(i)
  }

  lemma {:induction false} PicksCount<R(!new)>(from: nat, past: nat, takes: nat -> bool, gives: (nat, R) -> bool,
                                               r: seq<R>)
    requires Picks(from, past, takes, gives, r)
    ensures |r| == |Taken(from, past, takes)|
  {
    var at :| AllTaken(from, past, takes, at) && AllGiven(gives, r, at);
    PlacesCount(from, past, takes, at);
  }

  lemma TakenMore(from: nat, last: nat, takes: nat -> bool)
    requires from <= last
    ensures Taken(from, last + 1, takes) == Taken(from, last, takes) + if takes(last) then {last} else {}
  {
  }

  lemma TakenLast(from: nat, last: nat, takes: nat -> bool)
    requires from <= last
    ensures |Taken(from, last + 1, takes)| == |Taken(from, last, takes)| + if takes(last) then 1 else 0
  {
    TakenMore(from, last, takes);
    assert last !in Taken(from, last, takes);
  }

  lemma {:induction false} PlacesCount(from: nat, past: nat, takes: nat -> bool, at: seq<nat>)
    requires AllTaken(from, past, takes, at)
    ensures |at| == |Taken(from, past, takes)|
    decreases past
  {
    if past <= from {
      assert Taken(from, past, takes) == {};
    } else {
      TakenLast(from, past - 1, takes);
      if takes(past - 1) {
        LastPlace(from, past, takes, at);
        PlacesCount(from, past - 1, takes, at[..|at| - 1]);
      } else {
        NotLast(from, past, takes, at);
        PlacesCount(from, past - 1, takes, at);
      }
    }
  }

  /** What is picked is determined. */
  lemma PicksOnce<R(!new)>(from: nat, past: nat, takes: nat -> bool, gives: (nat, R) -> bool, r: seq<R>, s: seq<R>)
    requires forall i: nat, x: R, y: R | gives(i, x) && gives(i, y) :: x == y
    requires Picks(from, past, takes, gives, r) && Picks(from, past, takes, gives, s)
    ensures r == s
  {
    var a :| AllTaken(from, past, takes, a) && AllGiven(gives, r, a);
    var b :| AllTaken(from, past, takes, b) && AllGiven(gives, s, b);
    SamePlaces(from, past, takes, a, b);
    GivenOnce(gives, r, s, a);
  }

  lemma GivenOnce<R(!new)>(gives: (nat, R) -> bool, r: seq<R>, s: seq<R>, at: seq<nat>)
    requires forall i: nat, x: R, y: R | gives(i, x) && gives(i, y) :: x == y
    requires AllGiven(gives, r, at) && AllGiven(gives, s, at)
    ensures r == s
  {
    forall k | 0 <= k < |r| ensures r[k] == s[k] { assert gives(at[k], r[k]) && gives(at[k], s[k]); }
  }

  lemma {:induction false} SamePlaces(from: nat, past: nat, takes: nat -> bool, a: seq<nat>, b: seq<nat>)
    requires AllTaken(from, past, takes, a) && AllTaken(from, past, takes, b)
    ensures a == b
    decreases past
  {
    if past <= from {
    } else if takes(past - 1) {
      LastPlace(from, past, takes, a);
      LastPlace(from, past, takes, b);
      SamePlaces(from, past - 1, takes, a[..|a| - 1], b[..|b| - 1]);
      assert a == a[..|a| - 1] + [past - 1] && b == b[..|b| - 1] + [past - 1];
    } else {
      NotLast(from, past, takes, a);
      NotLast(from, past, takes, b);
      SamePlaces(from, past - 1, takes, a, b);
    }
  }

  lemma NotLast(from: nat, past: nat, takes: nat -> bool, at: seq<nat>)
    requires AllTaken(from, past, takes, at) && from < past && !takes(past - 1)
    ensures AllTaken(from, past - 1, takes, at)
  {
    forall k | 0 <= k < |at| ensures at[k] < past - 1 { assert takes(at[k]); }
  }

  lemma LastPlace(from: nat, past: nat, takes: nat -> bool, at: seq<nat>)
    requires AllTaken(from, past, takes, at) && from < past && takes(past - 1)
    ensures at != [] && at[|at| - 1] == past - 1 && AllTaken(from, past - 1, takes, at[..|at| - 1])
  {
    var n := |at| - 1;
    assert !Missing(from, past, takes, at);
    var k :| 0 <= k < |at| && at[k] == past - 1;
    assert at[k] <= at[n];
  }
}
