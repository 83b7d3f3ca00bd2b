/** The last elements of a growing sequence. */
module Sequences {

  function LastN<T>(xs: seq<T>, n: nat): seq<T> {
    if |xs| <= n then xs else xs[|xs| - n..]
  }

  lemma LastNOfAppend<T>(a: seq<T>, b: seq<T>, n: nat)
    ensures |b| >= n ==> LastN(a + b, n) == LastN(b, n)
    ensures |b| <= n ==> LastN(a + b, n) == LastN(a, n - |b|) + b
  {
  }

  lemma LastNPush<T>(xs: seq<T>, x: T, n: nat)
    requires n > 0
    ensures var ys := LastN(xs, n) + [x]; LastN(xs + [x], n) == if |ys| > n then ys[1..] else ys
  {
  }

  lemma LastNTwice<T>(xs: seq<T>, m: nat, n: nat)
    requires n <= m
    ensures LastN(LastN(xs, m), n) == LastN(xs, n)
  {
  }

  lemma Associative<T>(a: seq<T>, b: seq<T>, c: seq<T>)
    ensures (a + b) + c == a + (b + c)
  {
  }

  lemma DropDrop<T>(s: seq<T>, a: nat, b: nat)
    requires a + b <= |s|
    ensures s[a..][b..] == s[a + b..]
  {
  }

  lemma DropTake<T>(s: seq<T>, a: nat, n: nat)
    requires a + n <= |s|
    ensures s[a..][..n] == s[a..a + n]
  {
  }

  lemma DropAppend<T>(a: seq<T>, b: seq<T>, k: nat)
    requires k <= |a|
    ensures (a + b)[k..] == a[k..] + b
  {
  }
}
