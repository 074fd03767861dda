/** What allocation and release do to the free blocks. */
module BuddyProofs {
  import opened Prelude
  import opened BuddySpec

  // ---- Lists ----

  lemma {:induction false} WithoutIs(l: seq<nat>, p: nat)
    requires Distinct(l)
    ensures var w := Without(l, p);
            && Distinct(w) && (forall x :: x in w <==> x in l && x != p)
            && |w| == |l| - if p in l then 1 else 0
  {
    if l != [] && l[0] != p {
      WithoutIs(l[1..], p);
      var w := Without(l[1..], p);
      forall j | 0 <= j < |w| ensures w[j] != l[0] { assert w[j] in l[1..]; }
    }
  }

  lemma {:induction false} MulPlus(n: nat, m: nat)
    ensures (n + 1) * m == n * m + m
  {
  }

  lemma {:induction false} TotalUpdate(lists: seq<seq<nat>>, n: nat, o: nat, l: seq<nat>)
    requires n <= |lists| && o < |lists|
    ensures Total(lists[o := l], n)
            == Total(lists, n) + if o < n then |l| * Pow2(o) - |lists[o]| * Pow2(o) else 0
  {
    if n != 0 { TotalUpdate(lists, n - 1, o, l); }
  }

  lemma {:induction false} TotalAtLeast(lists: seq<seq<nat>>, n: nat, o: nat)
    requires n <= |lists| && o < n && lists[o] != []
    ensures Total(lists, n) >= Pow2(o)
  {
    if o < n - 1 { TotalAtLeast(lists, n - 1, o); }
    else { MulPlus(|lists[o]| - 1, Pow2(o)); }
  }

  lemma {:induction false} InPush(s: Buddy, o: nat, p: nat)
    requires o < |s.lists|
    ensures forall r: nat, q: nat :: In(Push(s, o, p), r, q) <==> In(s, r, q) || (r == o && q == p)
  {
  }

  /** Filing a block that overlaps no free one keeps the books. */
  lemma {:induction false} PushKeeps(s: Buddy, o: nat, p: nat)
    requires WF(s) && o <= TOP && BlockOk(o, p) && Outside(s, o, p)
    ensures WF(Push(s, o, p))
  {
    hide BlockOk;
    var t := Push(s, o, p);
    InPush(s, o, p);
    TotalUpdate(s.lists, TOP + 1, o, [p] + s.lists[o]);
    MulPlus(|s.lists[o]|, Pow2(o));
    assert !Disjoint(o, p, o, p);
    forall r: nat, q: nat, r': nat, q': nat | In(t, r, q) && In(t, r', q') && (r != r' || q != q')
      ensures Disjoint(r, q, r', q')
    {
      if r == o && q == p { assert In(s, r', q'); assert Disjoint(o, p, r', q'); }
      else if r' == o && q' == p { assert In(s, r, q); assert Disjoint(o, p, r, q); }
    }
  }

  /** Unlinking a free block leaves the others as they were and its pages outside them. */
  lemma {:induction false} RemoveKeeps(s: Buddy, o: nat, p: nat)
    requires WF(s) && o <= TOP && In(s, o, p)
    ensures var t := Remove(s, o, p);
            && WF(t) && Outside(t, o, p) && t.freePages == s.freePages - Pow2(o)
            && (forall r: nat, q: nat :: In(t, r, q) <==> In(s, r, q) && (r != o || q != p))
  {
    hide BlockOk, Disjoint;
    WithoutIs(s.lists[o], p);
    TotalUpdate(s.lists, TOP + 1, o, Without(s.lists[o], p));
    MulPlus(|s.lists[o]| - 1, Pow2(o));
    TotalAtLeast(s.lists, TOP + 1, o);
    var t := Remove(s, o, p);
    forall r: nat, q: nat ensures In(t, r, q) <==> In(s, r, q) && (r != o || q != p) {}
    forall r: nat | r <= TOP ensures Distinct(t.lists[r]) {}
  }

  // ---- Taking a block ----

  lemma {:induction false} AlignedDown(p: nat, o: nat, r: nat)
    requires r <= o && Aligned(p, o)
    ensures Aligned(p, r)
    decreases o - r
  {
    hide Aligned, BuddyOf;
    if r < o { SplitAligned(p, o - 1); AlignedDown(p, o - 1, r); }
  }

  /** Splitting files one upper half per order and keeps the lower end out. */
  lemma {:induction false} SplitKeeps(s: Buddy, current: nat, order: nat, p: nat)
    requires WF(s) && order <= current <= TOP && BlockOk(current, p) && Outside(s, current, p)
    ensures var t := Split(s, current, order, p);
            && WF(t) && Outside(t, order, p) && t.freePages == s.freePages + Pow2(current) - Pow2(order)
            && (forall r: nat, q: nat :: In(t, r, q) <==> In(s, r, q) || (order <= r < current && q == p + Pow2(r)))
            && (forall x: nat :: FreeAt(t, x) || Covers(order, p, x) <==> FreeAt(s, x) || Covers(current, p, x))
    decreases current
  {
    if current > order {
      var o, half := current - 1, p + Pow2(current - 1);
      hide WF, BuddyOf, Aligned, In;
      SplitAligned(p, o);
      var s1 := Push(s, o, half);
      assert |s.lists| == TOP + 1 by { Sized(s); }
      assert Outside(s, o, half) by { forall r: nat, q: nat | In(s, r, q) ensures Disjoint(o, half, r, q) {} }
      PushKeeps(s, o, half);
      InPush(s, o, half);
      assert Outside(s1, o, p) by { forall r: nat, q: nat | In(s1, r, q) ensures Disjoint(o, p, r, q) { assert In(s, r, q) || (r == o && q == half); } }
      PushCovers(s, o, half);
      SplitKeeps(s1, o, order, p);
    }
  }

  lemma {:induction false} Sized(s: Buddy)
    requires WF(s)
    ensures |s.lists| == TOP + 1
  {
  }

  lemma {:induction false} PushCovers(s: Buddy, o: nat, p: nat)
    requires o < |s.lists|
    ensures forall x: nat :: FreeAt(Push(s, o, p), x) <==> FreeAt(s, x) || Covers(o, p, x)
  {
    hide Covers;
    var t := Push(s, o, p);
    InPush(s, o, p);
    forall x: nat ensures FreeAt(t, x) <==> FreeAt(s, x) || Covers(o, p, x) {
      if Covers(o, p, x) { assert In(t, o, p); }
      else if FreeAt(s, x) {
        var r: nat, q: nat :| In(s, r, q) && Covers(r, q, x);
        assert In(t, r, q);
      }
    }
  }

  lemma {:induction false} RemoveCovers(s: Buddy, o: nat, p: nat)
    requires WF(s) && o <= TOP && In(s, o, p)
    ensures forall x: nat :: FreeAt(s, x) <==> FreeAt(Remove(s, o, p), x) || Covers(o, p, x)
  {
    var t := Remove(s, o, p);
    RemoveKeeps(s, o, p);
    hide Covers, In, Remove, WF;
    forall x: nat ensures FreeAt(s, x) <==> FreeAt(t, x) || Covers(o, p, x) {
      if Covers(o, p, x) { assert In(s, o, p); }
      else if FreeAt(s, x) {
        var r: nat, q: nat :| In(s, r, q) && Covers(r, q, x);
        assert In(t, r, q);
      }
    }
  }

  /** The pages of the block given out were free and no longer are; every other page stays as it was. */
  ghost predicate Handed(s: Buddy, t: Buddy, order: nat, p: nat) {
    && Aligned(p, order) && p > 0
    && t.freePages == s.freePages - Pow2(order)
    && (forall x: nat :: FreeAt(s, x) <==> FreeAt(t, x) || Covers(order, p, x))
    && (forall x: nat :: Covers(order, p, x) ==> !FreeAt(t, x))
  }

  lemma {:induction false} OutsideCovers(t: Buddy, order: nat, p: nat)
    requires Outside(t, order, p)
    ensures forall x: nat :: Covers(order, p, x) ==> !FreeAt(t, x)
  {
  }

  /** Cutting a request out of a free block. */
  lemma {:induction false} TakeMeaning(s: Buddy, current: nat, order: nat, p: nat)
    requires WF(s) && order <= current <= TOP && In(s, current, p)
    ensures var t := Take(s, current, order, p);
            && WF(t) && Outside(t, order, p) && Handed(s, t, order, p)
            && (forall r: nat, q: nat ::
                  In(t, r, q) <==> (In(s, r, q) && (r != current || q != p)) || (order <= r < current && q == p + Pow2(r)))
  {
    assert BlockOk(current, p);
    RemoveKeeps(s, current, p);
    RemoveCovers(s, current, p);
    SplitKeeps(Remove(s, current, p), current, order, p);
    AlignedDown(p, current, order);
    OutsideCovers(Take(s, current, order, p), order, p);
    hide In, Remove, Split, Covers, FreeAt, WF, Outside;
  }

  lemma {:induction false} TakeNoBuddies(s: Buddy, current: nat, order: nat, p: nat)
    requires WF(s) && NoBuddies(s) && order <= current <= TOP && In(s, current, p)
    ensures NoBuddies(Take(s, current, order, p))
  {
    var t := Take(s, current, order, p);
    TakeMeaning(s, current, order, p);
    hide In, Take, Covers, FreeAt, BuddyOf, Aligned;
    forall r: nat, q: nat | r < TOP && In(t, r, q) ensures !In(t, r, BuddyOf(q, r)) {
      if order <= r < current {
        AlignedDown(p, current, r + 1);
        SplitAligned(p, r);
        InsideTaken(s, current, p, r);
        if In(s, r, q) { JoinAligned(q, r); }
      }
    }
  }

  /** No part of a free block is free by itself. */
  lemma {:induction false} InsideTaken(s: Buddy, current: nat, p: nat, r: nat)
    requires WF(s) && In(s, current, p) && r < current
    ensures !In(s, r, p) && !In(s, r, p + Pow2(r))
  {
    PowLess(r, current);
    assert !Disjoint(current, p, r, p) && !Disjoint(current, p, r, p + Pow2(r));
  }

  lemma {:induction false} PowLess(r: nat, o: nat)
    requires r < o
    ensures 2 * Pow2(r) <= Pow2(o)
  {
    if r < o - 1 { PowLess(r, o - 1); }
  }

  // ---- Giving a block back ----

  /** A released block's pages become free and nothing else changes. */
  lemma {:induction false} ReleaseMeaning(s: Buddy, p: nat, o: nat)
    requires WF(s) && o <= TOP && BlockOk(o, p) && Outside(s, o, p)
    ensures var t := Release(s, p, o);
            && WF(t) && t.freePages == s.freePages + Pow2(o)
            && (forall x: nat :: FreeAt(t, x) <==> FreeAt(s, x) || Covers(o, p, x))
    decreases TOP + 1 - o
  {
    var b := BuddyOf(p, o);
    if o < TOP && In(s, o, b) {
      var low := Lower(p, b);
      assert BlockOk(o, b);
      JoinAligned(p, o);
      RemoveKeeps(s, o, b);
      RemoveCovers(s, o, b);
      var s1 := Remove(s, o, b);
      hide WF, In, Remove, BuddyOf, Aligned, FreeAt;
      assert Outside(s1, o + 1, low) by {
        forall r: nat, q: nat | In(s1, r, q) ensures Disjoint(o + 1, low, r, q) { assert Disjoint(o, p, r, q) && Disjoint(o, b, r, q); JoinedDisjoint(o, low, r, q); }
      }
      ReleaseMeaning(s1, low, o + 1);
    } else {
      PushKeeps(s, o, p);
      PushCovers(s, o, p);
    }
  }

  lemma {:induction false} JoinedDisjoint(o: nat, low: nat, r: nat, q: nat)
    requires Disjoint(o, low, r, q) && Disjoint(o, low + Pow2(o), r, q)
    ensures Disjoint(o + 1, low, r, q)
  {
  }

  lemma {:induction false} ReleaseNoBuddies(s: Buddy, p: nat, o: nat)
    requires WF(s) && NoBuddies(s) && o <= TOP && BlockOk(o, p) && Outside(s, o, p)
    ensures NoBuddies(Release(s, p, o))
    decreases TOP + 1 - o
  {
    var b := BuddyOf(p, o);
    JoinAligned(p, o);
    if o < TOP && In(s, o, b) {
      var low, s1 := Lower(p, b), Remove(s, o, b);
      assert BlockOk(o, b);
      RemoveKeeps(s, o, b);
      hide WF, In, Remove, BuddyOf, Aligned;
      assert Outside(s1, o + 1, low) by {
        forall r: nat, q: nat | In(s1, r, q) ensures Disjoint(o + 1, low, r, q) { assert Disjoint(o, p, r, q) && Disjoint(o, b, r, q); JoinedDisjoint(o, low, r, q); }
      }
      ReleaseNoBuddies(s1, low, o + 1);
    } else {
      var t := Push(s, o, p);
      InPush(s, o, p);
      hide Push, Aligned, BuddyOf;
      forall r: nat, q: nat | r < TOP && In(t, r, q) ensures !In(t, r, BuddyOf(q, r)) {
        if In(s, r, q) { assert BlockOk(r, q); JoinAligned(q, r); }
      }
    }
  }

  /** The free blocks of `s` and the upper halves from `order` below `current` of the block at `p`. */
  ghost predicate Halved(s: Buddy, t: Buddy, current: nat, order: nat, p: nat) {
    && (forall r: nat, q: nat :: In(t, r, q) <==> In(s, r, q) || (order <= r < current && q == p + Pow2(r)))
    && (forall r: nat :: order <= r < current ==> !In(s, r, p + Pow2(r)))
  }

  /** Releasing the lower end of a split block joins all the halves again. */
  lemma {:induction false} Rejoin(s: Buddy, t: Buddy, current: nat, order: nat, p: nat)
    requires WF(t) && order <= current <= TOP && BlockOk(current, p) && Halved(s, t, current, order, p)
    requires current == TOP || !In(s, current, BuddyOf(p, current))
    ensures var u := Release(t, p, order);
            forall r: nat, q: nat :: In(u, r, q) <==> In(s, r, q) || (r == current && q == p)
    decreases current - order
  {
    Sized(t);
    if order < current {
      AlignedDown(p, current, order + 1);
      SplitAligned(p, order);
      var half := p + Pow2(order);
      assert In(t, order, half);
      RemoveKeeps(t, order, half);
      hide In, WF, Remove, BuddyOf, Aligned;
      assert Halved(s, Remove(t, order, half), current, order + 1, p);
      Rejoin(s, Remove(t, order, half), current, order + 1, p);
    } else { InPush(t, order, p); }
  }

  lemma {:induction false} TakenHalved(s: Buddy, current: nat, order: nat, p: nat)
    requires WF(s) && order <= current <= TOP && In(s, current, p)
    ensures Halved(Remove(s, current, p), Take(s, current, order, p), current, order, p)
  {
    TakeMeaning(s, current, order, p);
    RemoveKeeps(s, current, p);
    forall r: nat | order <= r < current ensures !In(s, r, p + Pow2(r)) { InsideTaken(s, current, p, r); }
    hide In, WF, Take, Remove, Outside, Handed;
  }

  /** Freeing what was just allocated, by either way, gives the page count back; it restores every free list as a set
      exactly when the block it was cut from had no free buddy. Without free buddies that is always so. */
  lemma {:induction false} FreeRestores(s: Buddy, current: nat, order: nat, p: nat)
    requires WF(s) && order <= current <= TOP && In(s, current, p)
    ensures |s.lists| == TOP + 1
    ensures var u := Release(Take(s, current, order, p), p, order);
            && u.freePages == s.freePages && WF(u)
            && ((forall r: nat, q: nat :: In(u, r, q) <==> In(s, r, q)) <==> current == TOP || !In(s, current, BuddyOf(p, current)))
            && (NoBuddies(s) ==> forall r: nat, q: nat :: In(u, r, q) <==> In(s, r, q))
  {
    hide Take, Remove, Release, BuddyOf, FreeAt, Covers, Outside, Halved, WF, In, BlockOk, Handed;
    Sized(s);
    var t := Take(s, current, order, p);
    TakeMeaning(s, current, order, p);
    TakenFacts(s, t, current, order, p);
    TakenHalved(s, current, order, p);
    if current == TOP || !In(s, current, BuddyOf(p, current)) { RestoreBlocks(s, t, current, order, p); }
    else { RestoreJoins(s, t, current, order, p); }
    ReleaseMeaning(t, p, order);
  }

  lemma {:induction false} TakenFacts(s: Buddy, t: Buddy, current: nat, order: nat, p: nat)
    requires WF(s) && WF(t) && order <= current <= TOP && In(s, current, p) && Handed(s, t, order, p)
    ensures BlockOk(current, p) && BlockOk(order, p) && t.freePages == s.freePages - Pow2(order)
    ensures |s.lists| == |t.lists| == TOP + 1
    ensures NoBuddies(s) ==> current == TOP || !In(s, current, BuddyOf(p, current))
  {
  }

  lemma {:induction false} RestoreBlocks(s: Buddy, t: Buddy, current: nat, order: nat, p: nat)
    requires WF(s) && WF(t) && order <= current <= TOP && In(s, current, p) && BlockOk(current, p)
    requires Halved(Remove(s, current, p), t, current, order, p)
    requires current == TOP || !In(s, current, BuddyOf(p, current))
    ensures var u := Release(t, p, order); forall r: nat, q: nat :: In(u, r, q) <==> In(s, r, q)
  {
    RemoveKeeps(s, current, p);
    hide In, WF, Remove, Release, BuddyOf, Halved, BlockOk, Outside;
    Rejoin(Remove(s, current, p), t, current, order, p);
  }

  /** A release files and unlinks nothing below the order it starts at. */
  lemma {:induction false} ReleaseAbove(s: Buddy, p: nat, o: nat, r: nat, q: nat)
    requires |s.lists| == TOP + 1 && r < o
    ensures In(Release(s, p, o), r, q) <==> In(s, r, q)
    decreases TOP + 1 - o
  {
    if o < TOP && In(s, o, BuddyOf(p, o)) {
      ReleaseAbove(Remove(s, o, BuddyOf(p, o)), Lower(p, BuddyOf(p, o)), o + 1, r, q);
    }
  }

  /** Once the halves are joined the block joins its free buddy as well, which then is no block any more. */
  lemma {:induction false} JoinsOn(s: Buddy, t: Buddy, current: nat, order: nat, p: nat)
    requires WF(t) && order <= current < TOP && BlockOk(current, p) && Halved(s, t, current, order, p)
    requires In(s, current, BuddyOf(p, current))
    ensures |t.lists| == TOP + 1 && !In(Release(t, p, order), current, BuddyOf(p, current))
    decreases current - order
  {
    Sized(t);
    if order < current {
      AlignedDown(p, current, order + 1);
      SplitAligned(p, order);
      var half := p + Pow2(order);
      assert In(t, order, half);
      RemoveKeeps(t, order, half);
      hide In, WF, Remove, BuddyOf, Aligned;
      assert Halved(s, Remove(t, order, half), current, order + 1, p);
      JoinsOn(s, Remove(t, order, half), current, order + 1, p);
    } else { JoinsLast(t, current, p); }
  }

  lemma {:induction false} JoinsLast(t: Buddy, current: nat, p: nat)
    requires WF(t) && current < TOP && In(t, current, BuddyOf(p, current))
    ensures |t.lists| == TOP + 1 && !In(Release(t, p, current), current, BuddyOf(p, current))
  {
    var b := BuddyOf(p, current);
    RemoveKeeps(t, current, b);
    hide WF, BuddyOf, Remove, In;
    ReleaseAbove(Remove(t, current, b), Lower(p, b), current + 1, current, b);
  }

  lemma {:induction false} RestoreJoins(s: Buddy, t: Buddy, current: nat, order: nat, p: nat)
    requires WF(s) && WF(t) && order <= current < TOP && In(s, current, p) && BlockOk(current, p)
    requires Halved(Remove(s, current, p), t, current, order, p) && In(s, current, BuddyOf(p, current))
    ensures |t.lists| == TOP + 1 && !In(Release(t, p, order), current, BuddyOf(p, current))
  {
    RemoveKeeps(s, current, p);
    JoinAligned(p, current);
    hide WF, Remove, Release, BuddyOf, Halved, Outside, In;
    JoinsOn(Remove(s, current, p), t, current, order, p);
  }

  // ---- Finding a block ----

  /** The page run of `order` at `q` is free. */
  ghost predicate FreeRun(s: Buddy, order: nat, q: nat) {
    Aligned(q, order) && forall x: nat :: Covers(order, q, x) ==> FreeAt(s, x)
  }

  /** Without free buddies an aligned free run lies inside one free block. */
  lemma {:induction false} RunInBlock(s: Buddy, order: nat, q: nat) returns (r: nat, b: nat)
    requires WF(s) && NoBuddies(s) && order <= TOP && FreeRun(s, order, q)
    ensures order <= r <= TOP && In(s, r, b) && b <= q && q + Pow2(order) <= b + Pow2(r)
  {
    if order == 0 {
      assert Covers(order, q, q);
      r, b :| In(s, r, b) && Covers(r, b, q);
    } else {
      var o, half := order - 1, q + Pow2(order - 1);
      SplitAligned(q, o);
      assert FreeRun(s, o, q) by { forall x: nat | Covers(o, q, x) ensures FreeAt(s, x) { assert Covers(order, q, x); } }
      assert FreeRun(s, o, half) by { forall x: nat | Covers(o, half, x) ensures FreeAt(s, x) { assert Covers(order, q, x); } }
      r, b := RunInBlock(s, o, q);
      assert BlockOk(r, b);
      if r > o { Nested(order, q, r, b); }
      else {
        var r', b' := RunInBlock(s, o, half);
        assert BlockOk(r', b');
        if r' > o { Nested(order, q, r', b'); r, b := r', b'; }
      }
    }
  }

  /** A request of `order` cut from a free block is a free run. */
  lemma {:induction false} BlockIsRun(s: Buddy, order: nat, r: nat, b: nat)
    requires WF(s) && order <= r && In(s, r, b)
    ensures FreeRun(s, order, b)
  {
    assert BlockOk(r, b);
    AlignedDown(b, r, order);
    if order < r { PowLess(order, r); }
    forall x: nat | Covers(order, b, x) ensures FreeAt(s, x) { assert Covers(r, b, x); }
  }

  /** Some free block has room for a request of `order`. */
  ghost predicate HasBlock(s: Buddy, order: nat) { exists r: nat, b: nat :: order <= r && In(s, r, b) }

  /** Some free block has room for a request of `order` at its start that ends at or below `limit`. */
  ghost predicate HasBlockBelow(s: Buddy, order: nat, limit: nat) {
    exists r: nat, b: nat :: order <= r && In(s, r, b) && Fits(b, order, limit)
  }

  /** Block `p` is the first of its list at or below the limit, and no smaller block that would do fits there. */
  ghost predicate BestFit(s: Buddy, order: nat, limit: nat, current: nat, p: nat) {
    && order <= current < |s.lists| && (forall r: nat, q: nat :: order <= r < current && In(s, r, q) ==> !Fits(q, order, limit))
    && exists k :: 0 <= k < |s.lists[current]| && s.lists[current][k] == p && forall j :: 0 <= j < k ==> !Fits(s.lists[current][j], order, limit)
  }

  lemma {:induction false} FirstFitPlace(l: seq<nat>, order: nat, limit: nat)
    requires FirstFit(l, order, limit).Some?
    ensures exists k :: 0 <= k < |l| && l[k] == FirstFit(l, order, limit).value && forall j :: 0 <= j < k ==> !Fits(l[j], order, limit)
  {
    if Fits(l[0], order, limit) { assert l[0] == FirstFit(l, order, limit).value; }
    else {
      FirstFitPlace(l[1..], order, limit);
      var k :| 0 <= k < |l[1..]| && l[1..][k] == FirstFit(l, order, limit).value && forall j :: 0 <= j < k ==> !Fits(l[1..][j], order, limit);
      assert l[k + 1] == l[1..][k];
      forall j | 0 <= j < k + 1 ensures !Fits(l[j], order, limit) { assert j > 0 ==> l[j] == l[1..][j - 1]; }
    }
  }

  lemma {:induction false} BestFitIs(s: Buddy, from: nat, order: nat, limit: nat)
    requires order <= from && FindBelow(s, from, order, limit).Some?
    requires forall r: nat, q: nat :: order <= r < from && In(s, r, q) ==> !Fits(q, order, limit)
    ensures var (current, p) := FindBelow(s, from, order, limit).value; BestFit(s, order, limit, current, p)
    decreases |s.lists| - from
  {
    FirstFitIs(s.lists[from], order, limit);
    if FirstFit(s.lists[from], order, limit).Some? { FirstFitPlace(s.lists[from], order, limit); }
    else { BestFitIs(s, from + 1, order, limit); }
  }

  /** BuddyAllocateBelow hands out a free run that ends at or below the limit, from the smallest block that starts with
      one, and fails exactly when none does; without free buddies, exactly when there is no such run at all. */
  lemma {:induction false} AllocateBelowMeaning(s: Buddy, order: nat, limit: nat)
    requires WF(s) && order <= TOP
    ensures var r := AllocateBelow(s, order, limit);
            && (r.Some? ==> var (t, p) := r.value;
                  WF(t) && Handed(s, t, order, p) && FreeRun(s, order, p) && Fits(p, order, limit) && (NoBuddies(s) ==> NoBuddies(t))
                  && exists current: nat :: BestFit(s, order, limit, current, p))
            && (r.Some? <==> HasBlockBelow(s, order, limit))
            && (NoBuddies(s) ==> (r.Some? <==> exists q: nat :: FreeRun(s, order, q) && Fits(q, order, limit)))
  {
    Sized(s);
    FindBelowIs(s, order, order, limit);
    var found := FindBelow(s, order, order, limit);
    if AllocateBelow(s, order, limit).Some? {
      var (current, p) := found.value;
      BestFitIs(s, order, order, limit);
      TakeMeaning(s, current, order, p);
      if NoBuddies(s) { TakeNoBuddies(s, current, order, p); }
      BlockIsRun(s, order, current, p);
    } else {
      forall q: nat | NoBuddies(s) && FreeRun(s, order, q) ensures !Fits(q, order, limit) {
        var r, b := RunInBlock(s, order, q);
        assert !Fits(b, order, limit);
      }
    }
  }

  /** Block `p` is the newest of the smallest order that will do. */
  predicate Smallest(s: Buddy, order: nat, current: nat, p: nat) {
    && order <= current < |s.lists| && (forall r :: order <= r < current ==> s.lists[r] == [])
    && s.lists[current] != [] && s.lists[current][0] == p
  }

  lemma {:induction false} SmallestIs(s: Buddy, order: nat, from: nat)
    requires order <= from && FirstOrder(s, from).Some? && forall r :: order <= r < from && r < |s.lists| ==> s.lists[r] == []
    ensures FirstOrder(s, from).value < |s.lists| && s.lists[FirstOrder(s, from).value] != []
    ensures Smallest(s, order, FirstOrder(s, from).value, s.lists[FirstOrder(s, from).value][0])
    decreases |s.lists| - from
  {
    if s.lists[from] == [] { SmallestIs(s, order, from + 1); }
  }

  /** BuddyAllocate takes the newest of the smallest blocks that will do, and fails exactly when no free block is large
      enough; without free buddies, exactly when no aligned run of the size is free. */
  lemma {:induction false} AllocateMeaning(s: Buddy, order: nat)
    requires WF(s) && order <= TOP
    ensures var r := Allocate(s, order);
            && (r.Some? ==> var (t, p) := r.value;
                  WF(t) && Handed(s, t, order, p) && FreeRun(s, order, p) && (NoBuddies(s) ==> NoBuddies(t))
                  && exists current: nat :: Smallest(s, order, current, p))
            && (r.Some? <==> HasBlock(s, order))
            && (NoBuddies(s) ==> (r.Some? <==> exists q: nat :: FreeRun(s, order, q)))
  {
    Sized(s);
    FirstOrderIs(s, order);
    var found := FirstOrder(s, order);
    if found.Some? {
      var current := found.value;
      var p := s.lists[current][0];
      SmallestIs(s, order, order);
      assert In(s, current, p);
      TakeMeaning(s, current, order, p);
      if NoBuddies(s) { TakeNoBuddies(s, current, order, p); }
      BlockIsRun(s, order, current, p);
    } else {
      forall q: nat | NoBuddies(s) ensures !FreeRun(s, order, q) {
        if FreeRun(s, order, q) { var r, b := RunInBlock(s, order, q); }
      }
    }
  }
}
