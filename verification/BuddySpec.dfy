/** The buddy allocator of PMM.c on values: one list of free page numbers per order, newest first. */
module BuddySpec {
  import opened Prelude

  const TOP := 20
  const PAGE := 4096

  datatype Buddy = Buddy(lists: seq<seq<nat>>, freePages: nat)

  function Pow2(n: nat): (r: nat)
    ensures r > 0
  {
    if n == 0 then 1 else 2 * Pow2(n - 1)
  }

  predicate Aligned(p: nat, o: nat) { p % Pow2(o) == 0 }

  /** The block whose page number differs in bit `o` only. */
  function BuddyOf(p: nat, o: nat): nat {
    if (p / Pow2(o)) % 2 == 0 then p + Pow2(o) else Minus(p, Pow2(o))
  }

  predicate In(s: Buddy, o: nat, p: nat) { o < |s.lists| && p in s.lists[o] }

  function Push(s: Buddy, o: nat, p: nat): Buddy
    requires o < |s.lists|
  {
    Buddy(s.lists[o := [p] + s.lists[o]], s.freePages + Pow2(o))
  }

  /** The list without the first occurrence of `p`. */
  function Without(l: seq<nat>, p: nat): seq<nat> {
    if l == [] then [] else if l[0] == p then l[1..] else [l[0]] + Without(l[1..], p)
  }

  function Minus(a: nat, b: nat): nat { if a < b then 0 else a - b }

  function Remove(s: Buddy, o: nat, p: nat): Buddy
    requires o < |s.lists|
  {
    Buddy(s.lists[o := Without(s.lists[o], p)], Minus(s.freePages, Pow2(o)))
  }

  /** Halves the taken block of order `current` down to `order`, freeing the upper halves. */
  function Split(s: Buddy, current: nat, order: nat, p: nat): (r: Buddy)
    requires current <= |s.lists|
    ensures |r.lists| == |s.lists|
    decreases current
  {
    if current <= order then s
    else Split(Push(s, current - 1, p + Pow2(current - 1)), current - 1, order, p)
  }

  function Take(s: Buddy, current: nat, order: nat, p: nat): (r: Buddy)
    requires current < |s.lists|
    ensures |r.lists| == |s.lists|
  {
    Split(Remove(s, current, p), current, order, p)
  }

  function FirstOrder(s: Buddy, order: nat): Option<nat>
    decreases |s.lists| - order
  {
    if order >= |s.lists| then None else if s.lists[order] != [] then Some(order) else FirstOrder(s, order + 1)
  }

  function Allocate(s: Buddy, order: nat): (r: Option<(Buddy, nat)>)
    ensures r.Some? ==> |r.value.0.lists| == |s.lists|
  {
    var current := FirstOrder(s, order);
    if current.None? then None else
    FirstOrderIs(s, order);
    var p := s.lists[current.value][0];
    Some((Take(s, current.value, order, p), p))
  }

  lemma {:induction false} FirstOrderIs(s: Buddy, order: nat)
    ensures var r := FirstOrder(s, order);
            && (r.Some? ==> order <= r.value < |s.lists| && s.lists[r.value] != [])
            && (r.None? ==> forall o :: order <= o < |s.lists| ==> s.lists[o] == [])
    decreases |s.lists| - order
  {
    if order < |s.lists| && s.lists[order] == [] { FirstOrderIs(s, order + 1); }
  }

  /** A request of `order` cut from the start of block `p` ends at or below the byte address `limit`. */
  predicate Fits(p: nat, order: nat, limit: nat) { p * PAGE + Pow2(order) * PAGE <= limit }

  function FirstFit(l: seq<nat>, order: nat, limit: nat): Option<nat> {
    if l == [] then None else if Fits(l[0], order, limit) then Some(l[0]) else FirstFit(l[1..], order, limit)
  }

  /** The first fitting block, lowest order first. */
  function FindBelow(s: Buddy, current: nat, order: nat, limit: nat): Option<(nat, nat)>
    decreases |s.lists| - current
  {
    if current >= |s.lists| then None else
    var p := FirstFit(s.lists[current], order, limit);
    if p.Some? then Some((current, p.value)) else FindBelow(s, current + 1, order, limit)
  }

  function AllocateBelow(s: Buddy, order: nat, limit: nat): (r: Option<(Buddy, nat)>)
    ensures r.Some? ==> |r.value.0.lists| == |s.lists|
  {
    if limit == 0 then None else
    var found := FindBelow(s, order, order, limit);
    if found.None? then None else
    FindBelowIs(s, order, order, limit);
    Some((Take(s, found.value.0, order, found.value.1), found.value.1))
  }

  lemma {:induction false} FirstFitIs(l: seq<nat>, order: nat, limit: nat)
    ensures var r := FirstFit(l, order, limit);
            && (r.Some? ==> r.value in l && Fits(r.value, order, limit))
            && (r.None? ==> forall p :: p in l ==> !Fits(p, order, limit))
  {
    if l != [] && !Fits(l[0], order, limit) { FirstFitIs(l[1..], order, limit); }
  }

  lemma {:induction false} FindBelowIs(s: Buddy, current: nat, order: nat, limit: nat)
    ensures var r := FindBelow(s, current, order, limit);
            && (r.Some? ==> current <= r.value.0 < |s.lists| && In(s, r.value.0, r.value.1) && Fits(r.value.1, order, limit))
            && (r.None? ==> forall o: nat, p: nat :: current <= o && In(s, o, p) ==> !Fits(p, order, limit))
    decreases |s.lists| - current
  {
    if current < |s.lists| {
      FirstFitIs(s.lists[current], order, limit);
      FindBelowIs(s, current + 1, order, limit);
    }
  }

  function Lower(a: nat, b: nat): nat { if a < b then a else b }

  /** BuddyFree: joins the block with its buddy while that is free, then files it. */
  function Release(s: Buddy, p: nat, o: nat): (r: Buddy)
    requires |s.lists| == TOP + 1
    ensures |r.lists| == TOP + 1
    decreases TOP + 1 - o
  {
    if o > TOP then s
    else if o < TOP && In(s, o, BuddyOf(p, o)) then
      Release(Remove(s, o, BuddyOf(p, o)), Lower(p, BuddyOf(p, o)), o + 1)
    else Push(s, o, p)
  }

  // ---- Blocks ----

  predicate Disjoint(o: nat, p: nat, r: nat, q: nat) { p + Pow2(o) <= q || q + Pow2(r) <= p }

  function Total(lists: seq<seq<nat>>, n: nat): nat
    requires n <= |lists|
  {
    if n == 0 then 0 else Total(lists, n - 1) + |lists[n - 1]| * Pow2(n - 1)
  }

  predicate BlockOk(o: nat, p: nat) { p > 0 && Aligned(p, o) }

  ghost predicate Apart(s: Buddy) {
    forall o: nat, p: nat, r: nat, q: nat :: In(s, o, p) && In(s, r, q) && (o != r || p != q) ==> Disjoint(o, p, r, q)
  }

  /** Every free block is aligned to its order, no two overlap, and FreePages is their total. */
  ghost predicate WF(s: Buddy) {
    && |s.lists| == TOP + 1
    && (forall o: nat, p: nat :: In(s, o, p) ==> BlockOk(o, p))
    && (forall o :: 0 <= o <= TOP ==> Distinct(s.lists[o]))
    && Apart(s)
    && s.freePages == Total(s.lists, TOP + 1)
  }

  /** No two free blocks below the top order are buddies. */
  ghost predicate NoBuddies(s: Buddy) {
    forall o: nat, p: nat :: o < TOP && In(s, o, p) ==> !In(s, o, BuddyOf(p, o))
  }

  /** Page `x` lies in a free block. */
  ghost predicate FreeAt(s: Buddy, x: nat) { exists o: nat, p: nat :: In(s, o, p) && Covers(o, p, x) }
  predicate Covers(o: nat, p: nat, x: nat) { p <= x < p + Pow2(o) }

  /** The block's pages are all outside the free blocks. */
  ghost predicate Outside(s: Buddy, o: nat, p: nat) { forall r: nat, q: nat :: In(s, r, q) ==> Disjoint(o, p, r, q) }

  // ---- Arithmetic of aligned blocks ----

  lemma {:induction false} PowAdd(o: nat, k: nat)
    ensures Pow2(o + k) == Pow2(o) * Pow2(k)
  {
    if k != 0 {
      PowAdd(o, k - 1);
      assert Pow2(o) * (2 * Pow2(k - 1)) == 2 * (Pow2(o) * Pow2(k - 1));
    }
  }

  lemma {:induction false} MultipleIs(k: nat, r: nat, m: nat)
    requires r < m
    ensures (k * m + r) / m == k && (k * m + r) % m == r
  {
    var x := k * m + r;
    DivIs(x, k, r, m);
    assert x == x / m * m + x % m;
  }

  /** An aligned page number is a multiple of its block size. */
  lemma {:induction false} Units(p: nat, o: nat) returns (k: nat)
    requires Aligned(p, o)
    ensures p == k * Pow2(o)
  {
    k := p / Pow2(o);
    assert p == p / Pow2(o) * Pow2(o) + p % Pow2(o);
  }

  lemma {:induction false} UnitsAligned(k: nat, o: nat)
    ensures Aligned(k * Pow2(o), o) && k * Pow2(o) / Pow2(o) == k
  {
    MultipleIs(k, 0, Pow2(o));
  }

  lemma {:induction false} MulOrder(a: nat, b: nat, m: nat)
    requires a <= b
    ensures a * m <= b * m
  {
  }

  lemma {:induction false} TwiceUnits(k: nat, m: nat)
    ensures k * (2 * m) == (2 * k) * m && k * (2 * m) + m == (2 * k + 1) * m
  {
  }

  lemma {:induction false} BuddyUnits(j: nat, o: nat)
    ensures var m := Pow2(o);
            Aligned(j * m, o) && BuddyOf(j * m, o) == if j % 2 == 0 then j * m + m else Minus(j * m, m)
  {
    UnitsAligned(j, o);
  }

  lemma {:induction false} PowStep(o: nat)
    ensures Pow2(o + 1) == 2 * Pow2(o)
  {
  }

  /** The halves of an aligned block are each other's buddies. */
  lemma {:induction false} SplitAligned(p: nat, o: nat)
    requires Aligned(p, o + 1)
    ensures var m := Pow2(o);
            Aligned(p, o) && Aligned(p + m, o) && BuddyOf(p, o) == p + m && BuddyOf(p + m, o) == p
  {
    hide Pow2, BuddyOf, Aligned;
    PowStep(o);
    var k := Units(p, o + 1);
    var m := Pow2(o);
    TwiceUnits(k, m);
    BuddyUnits(2 * k, o);
    BuddyUnits(2 * k + 1, o);
  }

  lemma {:induction false} HalfOf(p: nat, o: nat) returns (low: nat)
    requires Aligned(p, o)
    ensures Aligned(low, o + 1) && (p == low || p == low + Pow2(o))
  {
    var k := Units(p, o);
    UnitsAligned(k / 2, o + 1);
    low := (k / 2) * Pow2(o + 1);
    DoubleUnits(k, Pow2(o));
  }

  lemma {:induction false} DoubleUnits(k: nat, m: nat)
    ensures k * m == (k / 2) * (2 * m) + if k % 2 == 0 then 0 else m
  {
    var j := k / 2;
    if k % 2 == 0 { assert k == 2 * j; } else { assert k == 2 * j + 1; assert (2 * j + 1) * m == 2 * j * m + m; }
  }

  /** An aligned block and its buddy make an aligned block of the next order. */
  lemma {:induction false} JoinAligned(p: nat, o: nat)
    requires Aligned(p, o)
    ensures var b := BuddyOf(p, o); var low := Lower(p, b);
            && Aligned(low, o + 1) && Aligned(b, o) && b != p
            && ((p == low && b == low + Pow2(o)) || (b == low && p == low + Pow2(o)))
            && BuddyOf(b, o) == p
  {
    hide Pow2, Aligned, BuddyOf;
    var low := HalfOf(p, o);
    SplitAligned(low, o);
  }

  lemma {:induction false} Regroup(j: nat, n: nat, m: nat, k: nat)
    ensures j * (m * n) == (j * n) * m && j * (m * n) + m * n == (j * n + n) * m && k * m + m == (k + 1) * m
  {
  }

  /** Aligned blocks are disjoint or nested. */
  lemma {:induction false} Nested(o: nat, p: nat, r: nat, q: nat)
    requires Aligned(p, o) && Aligned(q, r) && o <= r
    ensures Disjoint(o, p, r, q) || (q <= p && p + Pow2(o) <= q + Pow2(r))
  {
    hide Pow2, Aligned;
    var m, n := Pow2(o), Pow2(r - o);
    PowAdd(o, r - o);
    var k := Units(p, o);
    var j := Units(q, r);
    Regroup(j, n, m, k);
    var first := j * n;
    if k + 1 <= first { MulOrder(k + 1, first, m); }
    else if first + n <= k { MulOrder(first + n, k, m); }
    else { MulOrder(first, k, m); MulOrder(k + 1, first + n, m); }
  }
}
