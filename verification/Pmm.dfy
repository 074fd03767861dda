/** The page allocator of PMM.c in place: each free list is threaded through the first words of the free pages
    themselves. */
module PageAllocator {
  import opened Prelude
  import opened BuddySpec
  import opened BuddyProofs
  import opened BuddyRuns
  import BuddyBoot

  const NULL: nat := 0
  const WORD := 0x1_0000_0000_0000_0000
  const HALF_WORD := 0x8000_0000_0000_0000

  /** What `order` doublings of a 64-bit one give. */
  function Doubled(order: nat): nat { if order == 0 then 1 else Doubled(order - 1) * 2 % WORD }

  lemma {:induction false} PowAt63()
    ensures Pow2(63) == HALF_WORD
  {
    hide Pow2;
    PowAt8();
    PowAdd(8, 8);
    PowAdd(16, 16);
    PowAdd(32, 32);
    PowStep(63);
  }

  lemma {:induction false} PowAt8()
    ensures Pow2(8) == 256
  {
    assert Pow2(4) == 16;
  }

  lemma {:induction false} DoubleStays(order: nat)
    requires Doubled(order) == Pow2(order) && Pow2(order) < HALF_WORD
    ensures Doubled(order + 1) == Pow2(order + 1) <= HALF_WORD
  {
    PowAt63();
    if order >= 63 { PowMore(63, order); } else { PowMore(order + 1, 63); }
  }

  lemma {:induction false} PowMore(a: nat, b: nat)
    requires a <= b
    ensures Pow2(a) <= Pow2(b)
  {
    if a < b { PowLess(a, b); }
  }

  /** The doubling loop of PToO reaches the count exactly when that is at most 2^63; for a larger one the shifted
      word becomes 0 and the loop never ends. */
  lemma {:induction false} DoublingEnds(count: nat)
    ensures (exists order: nat :: Doubled(order) >= count) <==> count <= HALF_WORD
  {
    if count <= HALF_WORD {
      DoubledIs(63);
      PowAt63();
      assert Doubled(63) >= count;
    } else {
      forall order: nat ensures Doubled(order) < count { DoubledIs(order); }
    }
  }

  lemma {:induction false} DoubledIs(order: nat)
    ensures Doubled(order) == if order <= 63 then Pow2(order) else 0
    ensures Doubled(order) <= HALF_WORD
  {
    hide Pow2, Doubled;
    PowAt63();
    if order == 0 { PowAt0(); }
    else {
      DoubledIs(order - 1);
      DoubledStep(order - 1);
      if order <= 63 { PowStep(order - 1); PowMore(order, 63); }
    }
  }

  lemma {:induction false} DoubledStep(order: nat)
    ensures Doubled(order) < HALF_WORD ==> Doubled(order + 1) == 2 * Doubled(order)
    ensures Doubled(order) == HALF_WORD ==> Doubled(order + 1) == 0
  {
  }

  lemma {:induction false} PowAt0()
    ensures Pow2(0) == 1 == Doubled(0)
  {
  }

  /** The first word of a page. */
  function Link(next: map<nat, nat>, p: nat): nat { if p in next then next[p] else NULL }

  /** The page at position `i` stores the number of the one after it. */
  ghost predicate LinkAt(next: map<nat, nat>, l: seq<nat>, i: nat)
    requires i < |l|
  {
    l[i] != NULL && Link(next, l[i]) == if i + 1 < |l| then l[i + 1] else NULL
  }

  /** `l` is the chain that starts at `head` and follows the stored links. */
  ghost predicate Linked(next: map<nat, nat>, head: nat, l: seq<nat>) {
    && head == (if l == [] then NULL else l[0])
    && forall i: nat :: i < |l| ==> LinkAt(next, l, i)
  }

  /** No page is on two lists, or twice on one. */
  ghost predicate Unshared(lists: seq<seq<nat>>) {
    && (forall o :: 0 <= o < |lists| ==> Distinct(lists[o]))
    && (forall o, r, p :: 0 <= o < |lists| && 0 <= r < |lists| && p in lists[o] && p in lists[r] ==> o == r)
  }

  ghost predicate Nowhere(lists: seq<seq<nat>>, p: nat) { forall o :: 0 <= o < |lists| ==> p !in lists[o] }

  lemma {:induction false} LinkedFrame(next: map<nat, nat>, head: nat, l: seq<nat>, p: nat, v: nat)
    requires Linked(next, head, l) && p !in l
    ensures Linked(next[p := v], head, l)
  {
    var after := next[p := v];
    forall i: nat | i < |l| ensures LinkAt(after, l, i) { assert LinkAt(next, l, i) && l[i] in l; }
  }

  lemma {:induction false} LinkedPush(next: map<nat, nat>, head: nat, l: seq<nat>, p: nat)
    requires Linked(next, head, l) && p !in l && p != NULL
    ensures Linked(next[p := head], p, [p] + l)
  {
    var after, t := next[p := head], [p] + l;
    forall i: nat | i < |t| ensures LinkAt(after, t, i) {
      if i > 0 { assert LinkAt(next, l, i - 1) && l[i - 1] in l; }
    }
  }

  /** Unlinking position `i`: its predecessor, or the head, takes over its link. */
  lemma {:induction false} LinkedCut(next: map<nat, nat>, head: nat, l: seq<nat>, i: nat)
    requires Linked(next, head, l) && Distinct(l) && i < |l|
    ensures var cut := l[..i] + l[i + 1..];
            if i == 0 then Linked(next[l[0] := NULL], Link(next, l[0]), cut)
            else Linked(next[l[i - 1] := Link(next, l[i])][l[i] := NULL], head, cut)
  {
    var cut := l[..i] + l[i + 1..];
    var after := if i == 0 then next[l[0] := NULL] else next[l[i - 1] := Link(next, l[i])][l[i] := NULL];
    LinkOf(next, head, l, i);
    forall k: nat | k < |cut| ensures LinkAt(after, cut, k) {
      var j := if k < i then k else k + 1;
      assert cut[k] == l[j] && l[j] != l[i];
      LinkOf(next, head, l, j);
      if k + 1 == i { assert l[j] == l[i - 1]; }
      else { assert i > 0 ==> l[j] != l[i - 1]; assert k + 1 < |cut| ==> cut[k + 1] == l[j + 1]; }
    }
    LinkOf(next, head, l, 0);
  }

  lemma {:induction false} LinkOf(next: map<nat, nat>, head: nat, l: seq<nat>, i: nat)
    requires Linked(next, head, l) && i < |l|
    ensures l[i] != NULL && Link(next, l[i]) == if i + 1 < |l| then l[i + 1] else NULL
  {
    assert LinkAt(next, l, i);
  }

  lemma {:induction false} UnsharedUpdate(lists: seq<seq<nat>>, order: nat, l: seq<nat>)
    requires Unshared(lists) && order < |lists| && Distinct(l)
    requires forall p :: p in l ==> p in lists[order] || Nowhere(lists, p)
    ensures Unshared(lists[order := l])
  {
  }

  lemma {:induction false} OutsideNowhere(s: Buddy, o: nat, p: nat)
    requires Outside(s, o, p)
    ensures Nowhere(s.lists, p)
  {
    forall r | 0 <= r < |s.lists| ensures p !in s.lists[r] {
      if p in s.lists[r] { assert !Disjoint(o, p, r, p); assert In(s, r, p); }
    }
  }

  lemma {:induction false} WithoutAt(l: seq<nat>, i: nat)
    requires i < |l| && l[i] !in l[..i]
    ensures Without(l, l[i]) == l[..i] + l[i + 1..]
  {
    if i > 0 {
      assert l[0] == l[..i][0];
      assert l[1..][..i - 1] == l[..i][1..];
      WithoutAt(l[1..], i - 1);
    }
  }

  lemma {:induction false} WithoutAbsent(l: seq<nat>, p: nat)
    requires p !in l
    ensures Without(l, p) == l
  {
    if l != [] { WithoutAbsent(l[1..], p); }
  }

  lemma {:induction false} FreeAtLeast(s: Buddy, o: nat, p: nat)
    requires WF(s) && o <= TOP && In(s, o, p)
    ensures s.freePages >= Pow2(o) && p != NULL
  {
    TotalAtLeast(s.lists, TOP + 1, o);
    assert BlockOk(o, p);
  }

  /** One halving of a taken block. */
  lemma {:induction false} SplitStep(s: Buddy, current: nat, order: nat, p: nat)
    requires WF(s) && order < current <= TOP && BlockOk(current, p) && Outside(s, current, p)
    ensures |s.lists| == TOP + 1
    ensures var s1 := Push(s, current - 1, p + Pow2(current - 1));
            && Nowhere(s.lists, p + Pow2(current - 1))
            && WF(s1) && BlockOk(current - 1, p) && Outside(s1, current - 1, p)
            && Split(s, current, order, p) == Split(s1, current - 1, order, p)
  {
    Sized(s);
    SplitKeeps(s, current, current - 1, p);
    AlignedDown(p, current, current - 1);
    OutsideUpper(s, current, p);
  }

  lemma {:induction false} OutsideUpper(s: Buddy, current: nat, p: nat)
    requires current > 0 && Outside(s, current, p)
    ensures Nowhere(s.lists, p + Pow2(current - 1))
  {
    var o, half := current - 1, p + Pow2(current - 1);
    forall r: nat, q: nat | In(s, r, q) ensures Disjoint(o, half, r, q) { assert Disjoint(current, p, r, q); }
    OutsideNowhere(s, o, half);
  }

  /** One joining of a released block with its free buddy. */
  lemma {:induction false} JoinStep(s: Buddy, p: nat, o: nat)
    requires WF(s) && o < TOP && BlockOk(o, p) && Outside(s, o, p) && In(s, o, BuddyOf(p, o))
    ensures |s.lists| == TOP + 1
    ensures var b := BuddyOf(p, o); var s1 := Remove(s, o, b);
            WF(s1) && BlockOk(o + 1, Lower(p, b)) && Outside(s1, o + 1, Lower(p, b))
  {
    var b := BuddyOf(p, o);
    var low := Lower(p, b);
    assert BlockOk(o, b);
    JoinAligned(p, o);
    RemoveKeeps(s, o, b);
    var s1 := Remove(s, o, b);
    hide WF, In, Remove, BuddyOf, Aligned;
    forall r: nat, q: nat | In(s1, r, q) ensures Disjoint(o + 1, low, r, q) {
      assert Disjoint(o, p, r, q) && Disjoint(o, b, r, q);
      JoinedDisjoint(o, low, r, q);
    }
  }

  lemma {:induction false} SplitDone(s: Buddy, order: nat, p: nat)
    requires order <= |s.lists|
    ensures Split(s, order, order, p) == s
  {
  }

  lemma {:induction false} FirstOrderStep(s: Buddy, o: nat)
    ensures FirstOrder(s, o) == if o >= |s.lists| then None else if s.lists[o] != [] then Some(o) else FirstOrder(s, o + 1)
  {
  }

  lemma {:induction false} FindBelowStep(s: Buddy, current: nat, order: nat, limit: nat)
    ensures FindBelow(s, current, order, limit)
            == if current >= |s.lists| then None
               else if FirstFit(s.lists[current], order, limit).Some? then Some((current, FirstFit(s.lists[current], order, limit).value))
               else FindBelow(s, current + 1, order, limit)
  {
  }

  lemma {:induction false} ReleaseStep(s: Buddy, p: nat, o: nat)
    requires |s.lists| == TOP + 1
    ensures Release(s, p, o)
            == if o > TOP then s
               else if o < TOP && In(s, o, BuddyOf(p, o)) then Release(Remove(s, o, BuddyOf(p, o)), Lower(p, BuddyOf(p, o)), o + 1)
               else Push(s, o, p)
  {
  }

  lemma {:induction false} BlockPositive(o: nat, p: nat)
    requires BlockOk(o, p)
    ensures p != NULL
  {
  }

  lemma {:induction false} RangeNowhere(s: Buddy, p: nat, n: nat)
    requires n > 0 && Clear(s, p, n)
    ensures Nowhere(s.lists, p)
  {
    forall r | 0 <= r < |s.lists| ensures p !in s.lists[r] { if p in s.lists[r] { assert In(s, r, p); } }
  }

  lemma {:induction false} OrderUnique(count: nat, o: nat, r: nat)
    requires Pow2(o) >= count && (o > 0 ==> Pow2(o - 1) < count)
    requires Pow2(r) >= count && (r > 0 ==> Pow2(r - 1) < count)
    ensures o == r
  {
    if o < r { PowMore(o, r - 1); } else if r < o { PowMore(r, o - 1); }
  }

  lemma {:induction false} NextNotFree(ds: seq<Range>, n: nat, from: nat, to: nat)
    requires RangesApart(ds) && n < |ds|
    requires forall x: nat :: FreeAt(Init(ds[..n], from, to), x) <==> exists i :: 0 <= i < n && Usable(ds[..n][i], from, to, x)
    ensures NotFree(Init(ds[..n], from, to), ds[n].start, ds[n].start + ds[n].count)
  {
  }

  class Pages {
    const heads: array<nat>
    var next: map<nat, nat>
    var freePages: nat
    ghost var lists: seq<seq<nat>>

    ghost predicate Valid() reads this, heads {
      && heads.Length == TOP + 1 == |lists|
      && (forall o :: 0 <= o <= TOP ==> Linked(next, heads[o], lists[o]))
      && Unshared(lists)
    }

    ghost function View(): Buddy reads this { Buddy(lists, freePages) }

    constructor ()
      ensures Valid() && View() == Empty()
    {
      heads := new nat[TOP + 1](_ => NULL);
      next := map[];
      freePages := 0;
      lists := seq(TOP + 1, _ => []);
    }

    method BuddyPush(order: nat, page: nat)
      requires Valid() && page != NULL && Nowhere(lists, page)
      modifies this`next, this`freePages, this`lists, heads
      ensures Valid()
      ensures View() == if order > TOP then old(View()) else Push(old(View()), order, page)
    {
      if order > TOP { return; }
      forall o | 0 <= o <= TOP ensures Linked(next[page := heads[order]], heads[o], lists[o]) {
        LinkedFrame(next, heads[o], lists[o], page, heads[order]);
      }
      LinkedPush(next, heads[order], lists[order], page);
      UnsharedUpdate(lists, order, [page] + lists[order]);
      hide Linked, Unshared, Nowhere, Distinct;
      next := next[page := heads[order]];
      heads[order] := page;
      freePages := freePages + Pow2(order);
      lists := lists[order := [page] + lists[order]];
    }

    /** BuddyPop: the newest block of the order, or NULL. */
    method BuddyPop(order: nat) returns (page: nat)
      requires Valid() && (order <= TOP && lists[order] != [] ==> freePages >= Pow2(order))
      modifies this`next, this`freePages, this`lists, heads
      ensures Valid()
      ensures page == if order > TOP || old(lists)[order] == [] then NULL else old(lists)[order][0]
      ensures View() == if page == NULL then old(View()) else Remove(old(View()), order, page)
    {
      if order > TOP { return NULL; }
      page := heads[order];
      if page == NULL { return; }
      Cut(order, 0);
      heads[order] := Link(next, page);
      freePages := freePages - Pow2(order);
      next := next[page := NULL];
      lists := lists[order := lists[order][1..]];
    }

    /** What unlinking position `i` of a list leaves of all of them. */
    lemma Cut(order: nat, i: nat)
      requires Valid() && order <= TOP && i < |lists[order]|
      ensures var l := lists[order]; var cut := l[..i] + l[i + 1..];
              && Without(l, l[i]) == cut && Unshared(lists[order := cut])
              && (if i == 0 then Linked(next[l[0] := NULL], Link(next, l[0]), cut)
                  else Linked(next[l[i - 1] := Link(next, l[i])][l[i] := NULL], heads[order], cut))
              && (forall o :: 0 <= o <= TOP && o != order ==>
                    if i == 0 then Linked(next[l[0] := NULL], heads[o], lists[o])
                    else Linked(next[l[i - 1] := Link(next, l[i])][l[i] := NULL], heads[o], lists[o]))
    {
      var l := lists[order];
      WithoutAt(l, i);
      LinkedCut(next, heads[order], l, i);
      UnsharedUpdate(lists, order, l[..i] + l[i + 1..]);
      forall o | 0 <= o <= TOP && o != order
        ensures if i == 0 then Linked(next[l[0] := NULL], heads[o], lists[o])
                else Linked(next[l[i - 1] := Link(next, l[i])][l[i] := NULL], heads[o], lists[o])
      {
        assert l[i] !in lists[o];
        if i == 0 { LinkedFrame(next, heads[o], lists[o], l[0], NULL); }
        else {
          assert l[i - 1] !in lists[o];
          LinkedFrame(next, heads[o], lists[o], l[i - 1], Link(next, l[i]));
          LinkedFrame(next[l[i - 1] := Link(next, l[i])], heads[o], lists[o], l[i], NULL);
        }
      }
    }

    /** Takes position `i` off its list. */
    method Unlink(order: nat, block: nat, previous: nat, ghost i: nat)
      requires Valid() && order <= TOP && i < |lists[order]| && block == lists[order][i] && freePages >= Pow2(order)
      requires (previous == NULL <==> i == 0) && (i > 0 ==> previous == lists[order][i - 1])
      modifies this`next, this`freePages, this`lists, heads
      ensures Valid() && View() == Remove(old(View()), order, block)
    {
      Cut(order, i);
      hide Linked, Unshared, Without;
      ghost var rest := lists[order][..i] + lists[order][i + 1..];
      var link := Link(next, block);
      if previous == NULL { heads[order] := link; }
      else { next := next[previous := link]; }
      freePages := freePages - Pow2(order);
      next := next[block := NULL];
      lists := lists[order := rest];
    }

    /** BuddyRemove: finds the block on its list and unlinks it. */
    method BuddyRemove(order: nat, page: nat) returns (found: bool)
      requires Valid() && (order <= TOP && In(View(), order, page) ==> freePages >= Pow2(order))
      modifies this`next, this`freePages, this`lists, heads
      ensures Valid() && (found <==> order <= TOP && In(old(View()), order, page))
      ensures View() == if found then Remove(old(View()), order, page) else old(View())
    {
      hide Unshared, LinkAt, Link, Remove;
      if order > TOP { return false; }
      var block := heads[order];
      var previous := NULL;
      ghost var l, i := lists[order], 0;
      if l != [] { LinkOf(next, heads[order], l, 0); }
      while block != NULL
        invariant 0 <= i <= |l| && Valid() && l == lists[order] && View() == old(View())
        invariant page !in l[..i]
        invariant block == (if i < |l| then l[i] else NULL) && (block == NULL <==> i == |l|)
        invariant previous == (if i > 0 then l[i - 1] else NULL) && (previous == NULL <==> i == 0)
        decreases |l| - i
      {
        if block == page {
          Unlink(order, block, previous, i);
          return true;
        }
        LinkOf(next, heads[order], l, i);
        if i + 1 < |l| { LinkOf(next, heads[order], l, i + 1); }
        previous := block;
        block := Link(next, block);
        i := i + 1;
      }
      return false;
    }
  
    method LargestOrderForRange(page: nat, count: nat) returns (order: nat)
      ensures order == Largest(page, count, 0)
    {
      order := 0;
      while order < TOP
        invariant order <= TOP && Largest(page, count, 0) == Largest(page, count, order)
      {
        var nextOrder := order + 1;
        if Pow2(nextOrder) > count { break; }
        if page % Pow2(nextOrder) != 0 { break; }
        order := nextOrder;
      }
    }

    /** BuddyAddRange over pages no list holds. */
    method BuddyAddRange(start: nat, size: nat)
      requires Valid() && WF(View()) && start > 0 && Clear(View(), start, size)
      modifies this`next, this`freePages, this`lists, heads
      ensures Valid() && WF(View()) && View() == AddRange(old(View()), start, size)
    {
      hide WF, Clear, AddRange, Push, In, Largest, Linked, Unshared, Nowhere, Size;
      var page: nat, count: nat := start, size;
      while count != 0
        invariant Valid() && WF(View()) && page > 0 && Clear(View(), page, count)
        invariant AddRange(View(), page, count) == AddRange(old(View()), start, size)
      {
        ghost var o, s1 := AddRangeStep(View(), page, count);
        RangeNowhere(View(), page, count);
        var order := LargestOrderForRange(page, count);
        BuddyPush(order, page);
        page := page + Pow2(order);
        count := count - Pow2(order);
      }
      AddNothing(View(), page);
    }

    /** The halving loop both ways of allocating end with. */
    method SplitDown(page: nat, from: nat, order: nat)
      requires Valid() && WF(View()) && order <= from <= TOP && BlockOk(from, page) && Outside(View(), from, page)
      modifies this`next, this`freePages, this`lists, heads
      ensures Valid() && View() == Split(old(View()), from, order, page)
    {
      hide WF, Outside, BlockOk, Push, Linked, Unshared, Nowhere, In, Split;
      var current := from;
      while current > order
        invariant order <= current <= from && Valid() && WF(View())
        invariant BlockOk(current, page) && Outside(View(), current, page)
        invariant Split(View(), current, order, page) == Split(old(View()), from, order, page)
      {
        SplitStep(View(), current, order, page);
        current := current - 1;
        BuddyPush(current, page + Pow2(current));
      }
      SplitDone(View(), order, page);
    }

    /** BuddyAllocate. NULL leaves everything as it was. */
    method BuddyAllocate(order: nat) returns (page: nat)
      requires Valid() && WF(View())
      modifies this`next, this`freePages, this`lists, heads
      ensures Valid()
      ensures var r := if order > TOP then None else Allocate(old(View()), order);
              if r.None? then page == NULL && View() == old(View()) else page == r.value.1 != NULL && View() == r.value.0
    {
      hide Linked, Unshared, FirstOrder, Split, Remove;
      if order > TOP { return NULL; }
      var current := order;
      Sized(View());
      HeadIs(current);
      while current <= TOP && heads[current] == NULL
        invariant unchanged(this) && unchanged(heads)
        invariant order <= current <= TOP + 1 && FirstOrder(View(), order) == FirstOrder(View(), current)
        invariant current <= TOP ==> (heads[current] == NULL <==> lists[current] == [])
      {
        FirstOrderStep(View(), current);
        current := current + 1;
        if current <= TOP { HeadIs(current); }
      }
      FirstOrderStep(View(), current);
      if current > TOP { return NULL; }
      ghost var s, p := View(), lists[current][0];
      assert In(s, current, p);
      FreeAtLeast(s, current, p);
      RemoveKeeps(s, current, p);
      assert BlockOk(current, p);
      page := BuddyPop(current);
      SplitDown(page, current, order);
    }

    lemma HeadIs(order: nat)
      requires Valid() && order <= TOP
      ensures order < heads.Length && order < |lists|
      ensures heads[order] == (if lists[order] == [] then NULL else lists[order][0]) && (heads[order] == NULL <==> lists[order] == [])
    {
      if lists[order] != [] { LinkOf(next, heads[order], lists[order], 0); }
    }

    /** Walks one list for the first block the request fits into. */
    method ScanList(current: nat, order: nat, limit: nat) returns (page: nat)
      requires Valid() && current <= TOP
      ensures FirstFit(lists[current], order, limit) == if page == NULL then None else Some(page)
      ensures page != NULL ==> page in lists[current]
    {
      hide Unshared, LinkAt, Link;
      page := heads[current];
      ghost var l, i := lists[current], 0;
      if l != [] { LinkOf(next, heads[current], l, 0); }
      assert l[0..] == l;
      while page != NULL
        invariant 0 <= i <= |l|
        invariant page == (if i < |l| then l[i] else NULL) && (page == NULL <==> i == |l|)
        invariant FirstFit(l, order, limit) == FirstFit(l[i..], order, limit)
        decreases |l| - i
      {
        assert l[i..][0] == l[i] && l[i..][1..] == l[i + 1..];
        if page * PAGE <= limit && Pow2(order) * PAGE <= limit - page * PAGE { return; }
        LinkOf(next, heads[current], l, i);
        if i + 1 < |l| { LinkOf(next, heads[current], l, i + 1); }
        page := Link(next, page);
        i := i + 1;
      }
    }

    /** BuddyAllocateBelow. */
    method BuddyAllocateBelow(order: nat, limit: nat) returns (page: nat)
      requires Valid() && WF(View())
      modifies this`next, this`freePages, this`lists, heads
      ensures Valid()
      ensures var r := if order > TOP then None else AllocateBelow(old(View()), order, limit);
              if r.None? then page == NULL && View() == old(View()) else page == r.value.1 != NULL && View() == r.value.0
    {
      hide Linked, Unshared, FindBelow, FirstFit, Split, Remove;
      if order > TOP || limit == 0 { return NULL; }
      Sized(View());
      var current := order;
      while current <= TOP
        invariant unchanged(this) && unchanged(heads)
        invariant order <= current <= TOP + 1
        invariant FindBelow(View(), order, order, limit) == FindBelow(View(), current, order, limit)
      {
        FindBelowStep(View(), current, order, limit);
        var block := ScanList(current, order, limit);
        if block != NULL {
          ghost var s := View();
          assert In(s, current, block);
          FreeAtLeast(s, current, block);
          RemoveKeeps(s, current, block);
          assert BlockOk(current, block);
          var found := BuddyRemove(current, block);
          SplitDown(block, current, order);
          return block;
        }
        current := current + 1;
      }
      FindBelowStep(View(), current, order, limit);
      return NULL;
    }

    /** BuddyFree. */
    method BuddyFree(start: nat, from: nat)
      requires Valid() && WF(View())
      requires from <= TOP ==> BlockOk(from, start) && Outside(View(), from, start)
      modifies this`next, this`freePages, this`lists, heads
      ensures Valid() && View() == Release(old(View()), start, from)
    {
      hide WF, Outside, BlockOk, Push, Linked, Unshared, Nowhere, In, Remove, Release, BuddyOf;
      if from > TOP { ReleaseStep(View(), start, from); return; }
      var page, order := start, from;
      while order < TOP
        invariant order <= TOP && Valid() && WF(View())
        invariant BlockOk(order, page) && Outside(View(), order, page)
        invariant Release(View(), page, order) == Release(old(View()), start, from)
      {
        ReleaseStep(View(), page, order);
        var buddy := BuddyOf(page, order);
        ghost var s := View();
        if In(s, order, buddy) { FreeAtLeast(s, order, buddy); JoinStep(s, page, order); }
        var found := BuddyRemove(order, buddy);
        if !found { break; }
        if buddy < page { page := buddy; }
        order := order + 1;
      }
      ReleaseStep(View(), page, order);
      OutsideNowhere(View(), order, page);
      assert page != NULL by { BlockPositive(order, page); }
      BuddyPush(order, page);
    }
  
    /** PToO on a 64-bit count: the least order with enough pages. */
    static method PagesToOrder(count: nat) returns (order: nat)
      requires count <= HALF_WORD
      ensures Pow2(order) >= count && (order > 0 ==> Pow2(order - 1) < count)
    {
      order := 0;
      var pages := 1;
      PowAt63();
      while pages < count
        invariant pages == Doubled(order) == Pow2(order) <= HALF_WORD
        invariant order > 0 ==> Pow2(order - 1) < count
        decreases HALF_WORD - pages
      {
        order := order + 1;
        DoubleStays(order - 1);
        pages := pages * 2 % WORD;
      }
    }

    /** KAllocPages and, with a limit, KAllocPagesBelow. A request no block can hold fails. */
    method KAllocPages(count: nat, limit: Option<nat>) returns (page: nat, ghost order: nat)
      requires Valid() && WF(View()) && count <= HALF_WORD
      modifies this`next, this`freePages, this`lists, heads
      ensures Valid() && WF(View()) && (old(NoBuddies(View())) ==> NoBuddies(View()))
      ensures count > 0 ==> Pow2(order) >= count && (order > 0 ==> Pow2(order - 1) < count)
      ensures page != NULL ==> Handed(old(View()), View(), order, page) && (limit.Some? ==> Fits(page, order, limit.value))
      ensures page == NULL ==> View() == old(View())
      ensures page != NULL <==>
                count > 0 && order <= TOP
                && if limit.None? then HasBlock(old(View()), order) else HasBlockBelow(old(View()), order, limit.value)
      ensures old(NoBuddies(View())) ==>
                (page != NULL <==>
                   count > 0 && order <= TOP
                   && exists q: nat :: FreeRun(old(View()), order, q) && (limit.Some? ==> Fits(q, order, limit.value)))
    {
      hide Linked, Unshared, WF, NoBuddies, Handed, FreeRun, HasBlock, HasBlockBelow, Allocate, AllocateBelow;
      order := 0;
      if count == 0 { return NULL, 0; }
      var o := PagesToOrder(count);
      order := o;
      if o > TOP { return NULL, o; }
      if limit.None? {
        AllocateMeaning(View(), o);
        page := BuddyAllocate(o);
      } else {
        AllocateBelowMeaning(View(), o, limit.value);
        page := BuddyAllocateBelow(o, limit.value);
      }
    }

    /** KMemFreePages on a block given out for the same count. */
    method KMemFreePages(page: nat, count: nat, ghost order: nat)
      requires Valid() && WF(View()) && count <= HALF_WORD
      requires page != NULL && count > 0 ==>
                 Pow2(order) >= count && (order > 0 ==> Pow2(order - 1) < count)
                 && (order <= TOP ==> BlockOk(order, page) && Outside(View(), order, page))
      modifies this`next, this`freePages, this`lists, heads
      ensures Valid() && WF(View()) && (old(NoBuddies(View())) ==> NoBuddies(View()))
      ensures if page == NULL || count == 0 || order > TOP then View() == old(View())
              else View() == Release(old(View()), page, order)
                   && forall x: nat :: FreeAt(View(), x) <==> old(FreeAt(View(), x)) || Covers(order, page, x)
    {
      hide Linked, Unshared, WF, NoBuddies, Outside, Release, FreeAt;
      if page == NULL || count == 0 { return; }
      var o := PagesToOrder(count);
      OrderUnique(count, o, order);
      if o > TOP { return; }
      ReleaseMeaning(View(), page, o);
      if NoBuddies(View()) { ReleaseNoBuddies(View(), page, o); }
      BuddyFree(page, o);
    }

    /** BuddyAddUsableRange. */
    method BuddyAddUsableRange(start: nat, count: nat)
      requires Valid() && WF(View()) && NotFree(View(), start, start + count)
      modifies this`next, this`freePages, this`lists, heads
      ensures Valid() && WF(View()) && View() == AddUsable(old(View()), start, count)
    {
      hide Linked, Unshared, WF, AddRange, Clear, FreeAt;
      Sized(View());
      if count == 0 { return; }
      var from, end := start, start + count;
      if end <= RESERVED { return; }
      if from < RESERVED { from := RESERVED; }
      NotFreeClear(View(), from, end - from);
      BuddyAddRange(from, end - from);
    }

    /** BuddyAddUsableRangeExcept. */
    method BuddyAddUsableRangeExcept(d: Range, from: nat, to: nat)
      requires Valid() && WF(View()) && NotFree(View(), d.start, d.start + d.count)
      modifies this`next, this`freePages, this`lists, heads
      ensures Valid() && WF(View()) && View() == AddExcept(old(View()), d, from, to)
    {
      hide Linked, Unshared, WF, AddUsable, FreeAt;
      Sized(View());
      if d.count == 0 { return; }
      var end := d.start + d.count;
      if to <= from || end <= from || d.start >= to { BuddyAddUsableRange(d.start, d.count); return; }
      if d.start < from {
        AddUsableMeaning(View(), d.start, from - d.start);
        BuddyAddUsableRange(d.start, from - d.start);
      }
      if end > to { BuddyAddUsableRange(to, end - to); }
    }

    /** The loop of KMemoryInit over the conventional descriptors. */
    method KMemoryInit(ds: seq<Range>, from: nat, to: nat)
      requires Valid() && View() == Empty() && RangesApart(ds)
      modifies this`next, this`freePages, this`lists, heads
      ensures Valid() && WF(View()) && View() == Init(ds, from, to)
      ensures forall x: nat :: FreeAt(View(), x) <==> exists i :: 0 <= i < |ds| && Usable(ds[i], from, to, x)
      ensures NoBuddies(View()) <==> BuddyBoot.NoneMeet(BuddyBoot.Pieces(ds, from, to))
    {
      hide Linked, Unshared, WF, FreeAt, AddExcept, Usable, NoBuddies;
      var index := 0;
      assert ds[..0] == [];
      while index < |ds|
        invariant 0 <= index <= |ds| && Valid() && View() == Init(ds[..index], from, to)
      {
        assert ds[..index + 1][..index] == ds[..index];
        InitMeaning(ds[..index], from, to);
        NextNotFree(ds, index, from, to);
        BuddyAddUsableRangeExcept(ds[index], from, to);
        index := index + 1;
      }
      assert ds[..|ds|] == ds;
      InitMeaning(ds, from, to);
      BuddyBoot.BootNoBuddies(ds, from, to);
    }
  }
}
