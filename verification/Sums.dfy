/** Sums over a sequence, one element changing at a time. */
module Sums {

  function Sum<T>(s: seq<T>, f: T -> int): int {
    if s == [] then 0 else f(s[0]) + Sum(s[1..], f)
  }

  lemma {:induction false} SumUpdate<T>(s: seq<T>, f: T -> int, i: nat, x: T)
    requires i < |s|
    ensures Sum(s[i := x], f) == Sum(s, f) - f(s[i]) + f(x)
  {
    if i == 0 {
      assert s[i := x][1..] == s[1..];
    } else {
      SumUpdate(s[1..], f, i - 1, x);
      assert s[i := x][1..] == s[1..][i - 1 := x];
    }
  }

  lemma {:induction false} SumAtMost<T>(s: seq<T>, f: T -> int, c: nat)
    requires forall x :: x in s ==> f(x) <= c
    ensures Sum(s, f) <= |s| * c
  {
    if s != [] {
      SumAtMost(s[1..], f, c);
      assert |s| * c == c + |s[1..]| * c;
    }
  }

  lemma {:induction false} SumBelow<T>(s: seq<T>, f: T -> int, g: T -> int)
    requires forall x :: x in s ==> f(x) <= g(x)
    ensures Sum(s, f) <= Sum(s, g)
  {
    if s != [] {
      SumBelow(s[1..], f, g);
    }
  }

  /** f stays below g everywhere, and by at least d at position i. */
  lemma {:induction false} SumBelowBy<T>(s: seq<T>, f: T -> int, g: T -> int, i: nat, d: int)
    requires i < |s| && forall x :: x in s ==> f(x) <= g(x)
    requires f(s[i]) + d <= g(s[i])
    ensures Sum(s, f) + d <= Sum(s, g)
  {
    if i == 0 {
      SumBelow(s[1..], f, g);
    } else {
      SumBelowBy(s[1..], f, g, i - 1, d);
    }
  }

  lemma {:induction false} SumZero<T>(s: seq<T>, f: T -> int)
    requires forall x :: x in s ==> f(x) == 0
    ensures Sum(s, f) == 0
  {
    if s != [] {
      SumZero(s[1..], f);
    }
  }

  lemma SumAtLeast<T>(s: seq<T>, f: T -> int, i: nat)
    requires i < |s| && forall x :: x in s ==> 0 <= f(x)
    ensures f(s[i]) <= Sum(s, f)
  {
    var zero := (x: T) => 0;
    SumZero(s, zero);
    SumBelowBy(s, zero, f, i, f(s[i]));
  }
}
