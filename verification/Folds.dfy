/** Sums and collections over outcomes, and why their order of arrival does not matter. */
module Folds {
  import opened Sequences

  function Sum<T>(f: T -> nat, s: seq<T>): nat {
    if s == [] then 0 else Sum(f, s[..|s| - 1]) + f(s[|s| - 1])
  }

  function Collect<T, R>(f: T -> seq<R>, s: seq<T>): seq<R> {
    if s == [] then [] else Collect(f, s[..|s| - 1]) + f(s[|s| - 1])
  }

  lemma SumOne<T>(f: T -> nat, s: seq<T>, i: nat)
    requires i < |s|
    ensures Sum(f, s[..i + 1]) == Sum(f, s[..i]) + f(s[i])
  {
    assert s[..i + 1][..i] == s[..i];
  }

  lemma CollectOne<T, R>(f: T -> seq<R>, s: seq<T>, i: nat)
    requires i < |s|
    ensures Collect(f, s[..i + 1]) == Collect(f, s[..i]) + f(s[i])
  {
    assert s[..i + 1][..i] == s[..i];
  }

  lemma {:induction false} SumWithout<T>(f: T -> nat, s: seq<T>, j: nat)
    requires j < |s|
    ensures Sum(f, s) == Sum(f, Without(s, j)) + f(s[j])
  {
    var n := |s| - 1;
    if j < n {
      assert Without(s, j)[..n - 1] == Without(s[..n], j) && Without(s, j)[n - 1] == s[n];
      SumWithout(f, s[..n], j);
    } else {
      assert Without(s, j) == s[..n];
    }
  }

  lemma SwapLast<R>(a: multiset<R>, b: multiset<R>, c: multiset<R>)
    ensures (a + b) + c == (a + c) + b
  {
  }

  lemma {:induction false} CollectWithout<T, R>(f: T -> seq<R>, s: seq<T>, j: nat)
    requires j < |s|
    ensures multiset(Collect(f, s)) == multiset(Collect(f, Without(s, j))) + multiset(f(s[j]))
  {
    var n := |s| - 1;
    if j < n {
      assert Without(s, j)[..n - 1] == Without(s[..n], j) && Without(s, j)[n - 1] == s[n];
      CollectWithout(f, s[..n], j);
      SwapLast(multiset(Collect(f, Without(s[..n], j))), multiset(f(s[j])), multiset(f(s[n])));
    } else {
      assert Without(s, j) == s[..n];
    }
  }

  /** Where the last element of one list stands in another with the same elements. */
  lemma LastIn<T>(a: seq<T>, b: seq<T>) returns (j: nat)
    requires multiset(a) == multiset(b) && a != []
    ensures j < |b| && b[j] == a[|a| - 1] && multiset(a[..|a| - 1]) == multiset(Without(b, j))
  {
    var last := a[|a| - 1];
    assert a == a[..|a| - 1] + [last];
    assert last in multiset(b);
    j :| 0 <= j < |b| && b[j] == last;
    WithoutMultiset(b, j);
    assert multiset(a[..|a| - 1]) == multiset(a) - multiset{last} == multiset(Without(b, j));
  }

  lemma {:induction false} SumPermuted<T>(f: T -> nat, a: seq<T>, b: seq<T>)
    requires multiset(a) == multiset(b)
    ensures Sum(f, a) == Sum(f, b)
    decreases |a|
  {
    assert |a| == |multiset(a)| == |b|;
    if a == [] {
    } else {
      var j := LastIn(a, b);
      SumPermuted(f, a[..|a| - 1], Without(b, j));
      SumWithout(f, b, j);
    }
  }

  /** What is collected from outcomes in any order has the same elements. */
  lemma {:induction false} CollectPermuted<T, R>(f: T -> seq<R>, a: seq<T>, b: seq<T>)
    requires multiset(a) == multiset(b)
    ensures multiset(Collect(f, a)) == multiset(Collect(f, b))
    decreases |a|
  {
    assert |a| == |multiset(a)| == |b|;
    if a == [] {
    } else {
      var j := LastIn(a, b);
      CollectPermuted(f, a[..|a| - 1], Without(b, j));
      CollectWithout(f, b, j);
    }
  }

  lemma {:induction false} CollectMember<T, R>(f: T -> seq<R>, s: seq<T>, r: R)
    ensures r in Collect(f, s) <==> exists t :: t in s && r in f(t)
  {
    if s == [] {
    } else {
      var n := |s| - 1;
      CollectMember(f, s[..n], r);
      if r in f(s[n]) { assert s[n] in s; }
      if exists t :: t in s && r in f(t) {
        var t :| t in s && r in f(t);
        if t in s[..n] { } else { assert t == s[n]; }
      }
    }
  }
}
