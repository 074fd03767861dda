/** The optional value used where the C code returns NULL or FALSE, and facts about division and counting the proofs
    share. */
module Prelude {
  datatype Option<+T> = None | Some(value: T)

  lemma {:induction false} DivIs(x: nat, q: nat, r: nat, n: nat)
    requires n > 0 && r < n && x == q * n + r
    ensures x / n == q
  {
    var d := x / n - q;
    assert x == x / n * n + x % n;
    assert x % n - r == -(d * n) by { assert (q + d) * n == q * n + d * n; }
    MulSign(d, n);
  }

  lemma {:induction false} MulSign(d: int, n: nat)
    ensures d >= 1 ==> d * n >= n
    ensures d <= -1 ==> d * n <= 0 - n
  {
  }

  /** How many flags are set. */
  function CountSet(s: seq<bool>): nat {
    if s == [] then 0 else CountSet(s[..|s| - 1]) + if s[|s| - 1] then 1 else 0
  }

  lemma {:induction false} CountUpdate(s: seq<bool>, i: nat, b: bool)
    requires i < |s|
    ensures CountSet(s[i := b]) == CountSet(s) - (if s[i] then 1 else 0) + (if b then 1 else 0)
  {
    var n := |s| - 1;
    if i == n { assert s[i := b][..n] == s[..n]; }
    else {
      CountUpdate(s[..n], i, b);
      assert s[i := b][..n] == s[..n][i := b];
    }
  }

  lemma {:induction false} CountOrder(s: seq<bool>, r: seq<bool>)
    requires |s| == |r| && forall i :: 0 <= i < |s| && s[i] ==> r[i]
    ensures CountSet(s) <= CountSet(r) <= |r|
  {
    if s != [] { CountOrder(s[..|s| - 1], r[..|s| - 1]); }
  }

  lemma {:induction false} CountFull(s: seq<bool>)
    requires forall i :: 0 <= i < |s| ==> s[i]
    ensures CountSet(s) == |s|
  {
    if s != [] { CountFull(s[..|s| - 1]); }
  }

  lemma {:induction false} CountEmpty(s: seq<bool>)
    requires forall i :: 0 <= i < |s| ==> !s[i]
    ensures CountSet(s) == 0
  {
    if s != [] { CountEmpty(s[..|s| - 1]); }
  }

  predicate PowerOfTwo(n: nat) { n == 1 || (n > 1 && n % 2 == 0 && PowerOfTwo(n / 2)) }

  predicate Distinct(l: seq<nat>) { forall i, j :: 0 <= i < j < |l| ==> l[i] != l[j] }

  /** At most `n` different numbers are below `n`. */
  lemma {:induction false} DistinctBound(l: seq<nat>, n: nat)
    requires Distinct(l) && forall i :: 0 <= i < |l| ==> l[i] < n
    ensures |l| <= n
  {
    if l != [] {
      assert l[0] < n;
      if i :| 0 <= i < |l| && l[i] == n - 1 { DistinctBound(l[..i] + l[i + 1..], n - 1); }
      else { DistinctBound(l, n - 1); }
    }
  }

  function Members(s: seq<nat>): set<nat> { set x | x in s }

  lemma {:induction false} MembersFew(s: seq<nat>)
    ensures |Members(s)| <= |s|
  {
    if s != [] {
      MembersFew(s[..|s| - 1]);
      assert Members(s) == Members(s[..|s| - 1]) + {s[|s| - 1]};
    }
  }

  function Interval(from: nat, n: nat): (r: set<nat>)
    ensures |r| == n && forall x :: x in r <==> from <= x < from + n
  {
    if n == 0 then {} else Interval(from, n - 1) + {from + n - 1}
  }

  lemma {:induction false} Subset(a: set<nat>, b: set<nat>)
    requires a <= b
    ensures |a| <= |b|
  {
    assert b == a + (b - a);
  }
}
