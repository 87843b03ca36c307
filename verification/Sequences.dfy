/** Sequences whose elements are compared by value. */
module Sequences {

  ghost predicate Distinct<T>(s: seq<T>) {
    forall i, j | 0 <= i < j < |s| :: s[i] != s[j]
  }

  /** The first place `x` stands at. */
  function IndexOf<T(==)>(s: seq<T>, x: T): (i: nat)
    requires x in s
    ensures i < |s| && s[i] == x
    ensures forall j | 0 <= j < i :: s[j] != x
  {
    if s[0] == x then 0 else 1 + IndexOf(s[1..], x)
  }

  // ---------------------------------------------------------------- cutting and joining

  lemma Associates<T>(a: seq<T>, b: seq<T>, c: seq<T>)
    ensures a + (b + c) == (a + b) + c
  {
  }

  lemma LastSplits<T>(s: seq<T>)
    requires s != []
    ensures s == s[..|s| - 1] + [s[|s| - 1]]
  {
  }

  lemma PrefixGrows<T>(s: seq<T>, n: nat)
    requires n < |s|
    ensures s[..n + 1] == s[..n] + [s[n]]
  {
  }

  lemma FrontOfSum<T>(a: seq<T>, b: seq<T>)
    requires b != []
    ensures (a + b)[..|a + b| - 1] == a + b[..|b| - 1]
    ensures (a + b)[|a + b| - 1] == b[|b| - 1]
  {
  }

  lemma TailOfSum<T>(a: seq<T>, b: seq<T>)
    requires a != []
    ensures (a + b)[1..] == a[1..] + b
    ensures (a + b)[0] == a[0]
  {
  }

  lemma DropSplits<T>(s: seq<T>, i: nat)
    requires i < |s|
    ensures s[i..] == [s[i]] + s[i + 1..]
  {
  }

  lemma DropDrop<T>(s: seq<T>, i: nat, j: nat)
    requires i <= j <= |s|
    ensures s[i..][j - i..] == s[j..]
  {
  }

  lemma ConsIs<T>(s: seq<T>, x: T, t: seq<T>)
    requires |s| == |t| + 1 && s[0] == x && forall j | 0 <= j < |t| :: s[j + 1] == t[j]
    ensures s == [x] + t
  {
  }

  // ---------------------------------------------------------------- sums of multisets

  /** The sum of the first `n`. */
  function SumTo<T>(ms: seq<multiset<T>>, n: nat): multiset<T>
    requires n <= |ms|
  {
    if n == 0 then multiset{} else SumTo(ms, n - 1) + ms[n - 1]
  }

  lemma {:induction false} SameSums<T>(a: seq<multiset<T>>, b: seq<multiset<T>>, n: nat)
    requires n <= |a| && n <= |b| && forall i | 0 <= i < n :: a[i] == b[i]
    ensures SumTo(a, n) == SumTo(b, n)
  {
    if n > 0 {
      SameSums(a, b, n - 1);
    }
  }

  lemma SumsSwap<T>(a: multiset<T>, b: multiset<T>, c: multiset<T>)
    ensures (a + b) + c == (a + c) + b
  {
  }

  lemma {:induction false} SumAfterUpdate<T>(ms: seq<multiset<T>>, t: nat, m: multiset<T>, n: nat)
    requires t < n <= |ms| && ms[t] == multiset{}
    ensures SumTo(ms[t := m], n) == SumTo(ms, n) + m
    decreases n
  {
    if t < n - 1 {
      SumAfterUpdate(ms, t, m, n - 1);
      SumsSwap(SumTo(ms, n - 1), m, ms[n - 1]);
    } else {
      SameSums(ms[t := m], ms, t);
    }
  }
}
