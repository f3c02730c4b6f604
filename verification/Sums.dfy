/** Sums and counts over the rows of a table. */
module Sums {

  function SumBy<T>(f: T -> int, s: seq<T>): int {
    if s == [] then 0 else SumBy(f, s[..|s| - 1]) + f(s[|s| - 1])
  }

  function CountBy<T>(p: T -> bool, s: seq<T>): (n: nat)
    ensures n <= |s|
  {
    if s == [] then 0 else CountBy(p, s[..|s| - 1]) + if p(s[|s| - 1]) then 1 else 0
  }

  lemma CountOfLonger<T>(p: T -> bool, s: seq<T>, x: T)
    ensures CountBy(p, s + [x]) == CountBy(p, s) + if p(x) then 1 else 0
  {
    assert (s + [x])[..|s|] == s;
  }

  lemma {:induction false} NoneCounted<T(!new)>(p: T -> bool, s: seq<T>)
    ensures CountBy(p, s) == 0 <==> forall x :: x in s ==> !p(x)
  {
    if s != [] {
      NoneCounted(p, s[..|s| - 1]);
      assert forall x :: x in s <==> x in s[..|s| - 1] || x == s[|s| - 1];
    }
  }

  lemma {:induction false} CountIsMonotone<T(!new)>(p: T -> bool, q: T -> bool, s: seq<T>)
    requires forall x :: x in s && p(x) ==> q(x)
    ensures CountBy(p, s) <= CountBy(q, s)
  {
    if s != [] {
      CountIsMonotone(p, q, s[..|s| - 1]);
    }
  }

  lemma {:induction false} SumOfConcat<T>(f: T -> int, a: seq<T>, b: seq<T>)
    ensures SumBy(f, a + b) == SumBy(f, a) + SumBy(f, b)
  {
    if b == [] {
      assert a + b == a;
    } else {
      assert (a + b)[..|a + b| - 1] == a + b[..|b| - 1];
      SumOfConcat(f, a, b[..|b| - 1]);
    }
  }

  lemma SumWithoutOne<T>(f: T -> int, s: seq<T>, i: nat)
    requires i < |s|
    ensures var others := s[..i] + s[i + 1..];
      && SumBy(f, s) == SumBy(f, others) + f(s[i])
      && multiset(s) == multiset(others) + multiset{s[i]}
  {
    assert s == s[..i] + [s[i]] + s[i + 1..];
    SumOfConcat(f, s[..i], s[i + 1..]);
    SumOfConcat(f, s[..i] + [s[i]], s[i + 1..]);
    SumOfConcat(f, s[..i], [s[i]]);
  }

  lemma CancelOne<T>(a: multiset<T>, b: multiset<T>, x: T)
    requires a + multiset{x} == b + multiset{x}
    ensures a == b
  {
    assert a == a + multiset{x} - multiset{x};
    assert b == b + multiset{x} - multiset{x};
  }

  lemma {:induction false} SumIgnoresOrder<T>(f: T -> int, a: seq<T>, b: seq<T>)
    requires multiset(a) == multiset(b)
    ensures SumBy(f, a) == SumBy(f, b)
    decreases |a|
  {
    hide SumBy;
    if a == [] {
      assert |multiset(b)| == |b|;
    } else {
      assert a[0] in multiset(b);
      var i :| 0 <= i < |b| && b[i] == a[0];
      SumWithoutOne(f, a, 0);
      SumWithoutOne(f, b, i);
      var restOfA, restOfB := a[..0] + a[1..], b[..i] + b[i + 1..];
      CancelOne(multiset(restOfA), multiset(restOfB), a[0]);
      SumIgnoresOrder(f, restOfA, restOfB);
    }
  }

  lemma {:induction false} SumOfUpdate<T>(f: T -> int, s: seq<T>, k: nat, x: T)
    requires k < |s|
    ensures SumBy(f, s[k := x]) == SumBy(f, s) - f(s[k]) + f(x)
  {
    if k < |s| - 1 {
      assert s[k := x][..|s| - 1] == s[..|s| - 1][k := x];
      SumOfUpdate(f, s[..|s| - 1], k, x);
    } else {
      assert s[k := x][..|s| - 1] == s[..|s| - 1];
    }
  }
}
