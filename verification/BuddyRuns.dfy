/** Filling the buddy lists at boot, and every later sequence of allocations and releases. */
module BuddyRuns {
  import opened Prelude
  import opened BuddySpec
  import opened BuddyProofs

  const RESERVED := 256

  // ---- One range ----

  /** LargestOrderForRange, from order `o` up. */
  function Largest(p: nat, n: nat, o: nat): (r: nat)
    requires o <= TOP
    ensures o <= r <= TOP
    decreases TOP - o
  {
    if o < TOP && Pow2(o + 1) <= n && Aligned(p, o + 1) then Largest(p, n, o + 1) else o
  }

  lemma {:induction false} LargestIs(p: nat, n: nat, o: nat)
    requires o <= TOP && Pow2(o) <= n && Aligned(p, o)
    ensures var r := Largest(p, n, o);
            Pow2(r) <= n && Aligned(p, r) && (r == TOP || Pow2(r + 1) > n || !Aligned(p, r + 1))
    decreases TOP - o
  {
    if o < TOP && Pow2(o + 1) <= n && Aligned(p, o + 1) { LargestIs(p, n, o + 1); }
  }

  lemma {:induction false} AlignedZero(p: nat)
    ensures Aligned(p, 0)
  {
  }

  function Size(p: nat, n: nat): (m: nat)
    requires n > 0
    ensures 0 < m <= n
  {
    AlignedZero(p);
    LargestIs(p, n, 0);
    Pow2(Largest(p, n, 0))
  }

  /** BuddyAddRange: files the largest aligned block that fits, then the rest. */
  function AddRange(s: Buddy, p: nat, n: nat): (t: Buddy)
    requires |s.lists| == TOP + 1
    ensures |t.lists| == TOP + 1
    decreases n
  {
    if n == 0 then s
    else AddRange(Push(s, Largest(p, n, 0), p), p + Size(p, n), n - Size(p, n))
  }

  /** No free block meets the pages from `p` on. */
  ghost predicate Clear(s: Buddy, p: nat, n: nat) {
    forall r: nat, q: nat :: In(s, r, q) ==> q + Pow2(r) <= p || p + n <= q
  }

  lemma {:induction false} First(p: nat, n: nat) returns (o: nat)
    requires n > 0
    ensures o == Largest(p, n, 0) <= TOP && Pow2(o) == Size(p, n) <= n && Aligned(p, o)
    ensures o == TOP || Pow2(o + 1) > n || !Aligned(p, o + 1)
  {
    o := Largest(p, n, 0);
    AlignedZero(p);
    LargestIs(p, n, 0);
  }

  lemma {:induction false} AddRangeUnfolds(s: Buddy, p: nat, n: nat)
    requires |s.lists| == TOP + 1 && n > 0
    ensures AddRange(s, p, n) == AddRange(Push(s, Largest(p, n, 0), p), p + Size(p, n), n - Size(p, n))
  {
  }

  /** The first block filed, and the state after it. */
  lemma {:induction false} AddRangeStep(s: Buddy, p: nat, n: nat) returns (o: nat, s1: Buddy)
    requires WF(s) && p > 0 && n > 0 && Clear(s, p, n)
    ensures o == Largest(p, n, 0) && Pow2(o) == Size(p, n) <= n && |s.lists| == TOP + 1 && s1 == Push(s, o, p)
    ensures WF(s1) && Clear(s1, p + Size(p, n), n - Size(p, n)) && s1.freePages == s.freePages + Size(p, n)
    ensures AddRange(s, p, n) == AddRange(s1, p + Size(p, n), n - Size(p, n))
    ensures forall x: nat :: FreeAt(s1, x) <==> FreeAt(s, x) || Covers(o, p, x)
    ensures forall r: nat, q: nat :: In(s1, r, q) <==> In(s, r, q) || (r == o && q == p)
  {
    hide Largest, Size, Aligned, In, FreeAt, AddRange, WF;
    o := First(p, n);
    Sized(s);
    s1 := Push(s, o, p);
    AddRangeUnfolds(s, p, n);
    forall r: nat, q: nat | In(s, r, q) ensures Disjoint(o, p, r, q) {}
    PushKeeps(s, o, p);
    PushCovers(s, o, p);
    InPush(s, o, p);
  }

  /** `t` is `s` with the pages from `p` on free as well. */
  ghost predicate Added(s: Buddy, t: Buddy, p: nat, n: nat) {
    && t.freePages == s.freePages + n
    && (forall x: nat :: FreeAt(t, x) <==> FreeAt(s, x) || p <= x < p + n)
    && (forall r: nat, q: nat :: In(t, r, q) ==> In(s, r, q) || (p <= q && q + Pow2(r) <= p + n))
  }

  lemma {:induction false} AddedAfter(s: Buddy, s1: Buddy, t: Buddy, o: nat, p: nat, n: nat)
    requires Pow2(o) <= n && Added(s1, t, p + Pow2(o), n - Pow2(o)) && s1.freePages == s.freePages + Pow2(o)
    requires forall x: nat :: FreeAt(s1, x) <==> FreeAt(s, x) || Covers(o, p, x)
    requires forall r: nat, q: nat :: In(s1, r, q) <==> In(s, r, q) || (r == o && q == p)
    ensures Added(s, t, p, n)
  {
    hide In, FreeAt, Pow2;
  }

  /** Exactly the pages of the range become free. */
  lemma {:induction false} AddRangeMeaning(s: Buddy, p: nat, n: nat)
    requires WF(s) && p > 0 && Clear(s, p, n)
    ensures |s.lists| == TOP + 1
    ensures WF(AddRange(s, p, n)) && Added(s, AddRange(s, p, n), p, n)
    decreases n
  {
    hide *;
    Sized(s);
    if n == 0 { AddNothing(s, p); }
    else {
      var o, s1 := AddRangeStep(s, p, n);
      AddRangeMeaning(s1, p + Size(p, n), n - Size(p, n));
      AddedAfter(s, s1, AddRange(s, p, n), o, p, n);
    }
  }

  /** A newly filed block has no newly filed buddy. */
  ghost predicate NoNewBuddies(s: Buddy, t: Buddy) {
    forall r: nat, q: nat :: r < TOP && In(t, r, q) && !In(s, r, q) && In(t, r, BuddyOf(q, r)) ==> In(s, r, BuddyOf(q, r))
  }

  lemma {:induction false} AddNothing(s: Buddy, p: nat)
    requires |s.lists| == TOP + 1
    ensures AddRange(s, p, 0) == s && Added(s, s, p, 0) && NoNewBuddies(s, s)
  {
  }

  lemma {:induction false} InOk(t: Buddy, r: nat, q: nat)
    requires WF(t) && In(t, r, q)
    ensures Aligned(q, r)
  {
  }

  /** The first block's buddy does not fit into the rest of the range behind it. */
  lemma {:induction false} BuddyLater(p: nat, n: nat)
    requires n > 0
    ensures var o := Largest(p, n, 0); var b := BuddyOf(p, o);
            o < TOP ==> !(p + Size(p, n) <= b && b + Pow2(o) <= p + n)
  {
    hide Largest, Size, Aligned, BuddyOf, Pow2;
    var o := First(p, n);
    JoinAligned(p, o);
    PowStep(o);
  }

  lemma {:induction false} AddNoBuddies(s: Buddy, s1: Buddy, t: Buddy, o: nat, p: nat, n: nat)
    requires WF(t) && NoNewBuddies(s1, t) && n > 0 && o == Largest(p, n, 0)
    requires forall r: nat, q: nat :: In(s1, r, q) <==> In(s, r, q) || (r == o && q == p)
    requires Added(s1, t, p + Size(p, n), n - Size(p, n))
    ensures NoNewBuddies(s, t)
  {
    hide Largest, Size, Aligned, In, WF, BuddyOf, Pow2;
    BuddyLater(p, n);
    forall r: nat, q: nat | r < TOP && In(t, r, q) && !In(s, r, q) && In(t, r, BuddyOf(q, r)) ensures In(s, r, BuddyOf(q, r)) {
      InOk(t, r, q);
      JoinAligned(q, r);
    }
  }

  lemma {:induction false} StepNoBuddies(s: Buddy, p: nat, n: nat)
    requires WF(s) && p > 0 && n > 0 && Clear(s, p, n) && |s.lists| == TOP + 1
    requires var s1 := Push(s, Largest(p, n, 0), p); NoNewBuddies(s1, AddRange(s1, p + Size(p, n), n - Size(p, n)))
    ensures NoNewBuddies(s, AddRange(s, p, n))
  {
    hide *;
    var o, s1 := AddRangeStep(s, p, n);
    AddRangeMeaning(s1, p + Size(p, n), n - Size(p, n));
    AddNoBuddies(s, s1, AddRange(s, p, n), o, p, n);
  }

  lemma {:induction false} StepReady(s: Buddy, p: nat, n: nat)
    requires WF(s) && p > 0 && n > 0 && Clear(s, p, n) && |s.lists| == TOP + 1
    ensures WF(Push(s, Largest(p, n, 0), p))
    ensures Clear(Push(s, Largest(p, n, 0), p), p + Size(p, n), n - Size(p, n))
  {
    hide *;
    var o, s1 := AddRangeStep(s, p, n);
  }

  /** The greedy cut of one range never files both halves of a larger block. */
  lemma {:induction false} RangeNoBuddies(s: Buddy, p: nat, n: nat)
    requires WF(s) && p > 0 && Clear(s, p, n)
    ensures |s.lists| == TOP + 1 && NoNewBuddies(s, AddRange(s, p, n))
    decreases n
  {
    hide *;
    Sized(s);
    if n == 0 { AddNothing(s, p); }
    else {
      StepReady(s, p, n);
      RangeNoBuddies(Push(s, Largest(p, n, 0), p), p + Size(p, n), n - Size(p, n));
      StepNoBuddies(s, p, n);
    }
  }

  // ---- Boot ----

  /** A run of conventional memory in the firmware's map, in pages. */
  datatype Range = Range(start: nat, count: nat)

  function Higher(a: nat, b: nat): nat { if a < b then b else a }

  /** BuddyAddUsableRange: nothing below 1 MiB is used. */
  function AddUsable(s: Buddy, start: nat, count: nat): (t: Buddy)
    requires |s.lists| == TOP + 1
    ensures |t.lists| == TOP + 1
  {
    if count == 0 || start + count <= RESERVED then s
    else AddRange(s, Higher(start, RESERVED), start + count - Higher(start, RESERVED))
  }

  /** BuddyAddUsableRangeExcept: nor the pages of the kernel image. */
  function AddExcept(s: Buddy, d: Range, from: nat, to: nat): (t: Buddy)
    requires |s.lists| == TOP + 1
    ensures |t.lists| == TOP + 1
  {
    var end := d.start + d.count;
    if d.count == 0 then s
    else if to <= from || end <= from || d.start >= to then AddUsable(s, d.start, d.count)
    else
      var s1 := if d.start < from then AddUsable(s, d.start, from - d.start) else s;
      if end > to then AddUsable(s1, to, end - to) else s1
  }

  function Empty(): Buddy { Buddy(seq(TOP + 1, _ => []), 0) }

  function Init(ds: seq<Range>, from: nat, to: nat): (t: Buddy)
    ensures |t.lists| == TOP + 1
  {
    if ds == [] then Empty() else AddExcept(Init(ds[..|ds| - 1], from, to), ds[|ds| - 1], from, to)
  }

  predicate Usable(d: Range, from: nat, to: nat, x: nat) {
    d.start <= x < d.start + d.count && x * PAGE >= 0x10_0000 && !(from <= x < to)
  }

  ghost predicate NotFree(s: Buddy, from: nat, to: nat) { forall x: nat :: from <= x < to ==> !FreeAt(s, x) }

  lemma {:induction false} NotFreeClear(s: Buddy, p: nat, n: nat)
    requires n > 0 && NotFree(s, p, p + n)
    ensures Clear(s, p, n)
  {
    forall r: nat, q: nat | In(s, r, q) ensures q + Pow2(r) <= p || p + n <= q {
      var x := Higher(p, q);
      assert Covers(r, q, x) ==> FreeAt(s, x);
    }
  }

  lemma {:induction false} AddUsableMeaning(s: Buddy, start: nat, count: nat)
    requires WF(s) && NotFree(s, start, start + count)
    ensures |s.lists| == TOP + 1
    ensures var t := AddUsable(s, start, count);
            WF(t) && forall x: nat :: FreeAt(t, x) <==> FreeAt(s, x) || (start <= x < start + count && x * PAGE >= 0x10_0000)
  {
    Sized(s);
    hide WF, FreeAt, AddRange, Clear;
    if count != 0 && start + count > RESERVED {
      NotFreeClear(s, Higher(start, RESERVED), start + count - Higher(start, RESERVED));
      AddRangeMeaning(s, Higher(start, RESERVED), start + count - Higher(start, RESERVED));
    }
  }

  lemma {:induction false} AddExceptMeaning(s: Buddy, d: Range, from: nat, to: nat)
    requires WF(s) && NotFree(s, d.start, d.start + d.count)
    ensures |s.lists| == TOP + 1
    ensures var t := AddExcept(s, d, from, to);
            WF(t) && forall x: nat :: FreeAt(t, x) <==> FreeAt(s, x) || Usable(d, from, to, x)
  {
    Sized(s);
    hide WF, FreeAt, AddUsable;
    var end := d.start + d.count;
    if d.count == 0 {}
    else if to <= from || end <= from || d.start >= to { AddUsableMeaning(s, d.start, d.count); }
    else {
      if d.start < from { AddUsableMeaning(s, d.start, from - d.start); }
      var s1 := if d.start < from then AddUsable(s, d.start, from - d.start) else s;
      if end > to { AddUsableMeaning(s1, to, end - to); }
    }
  }

  predicate RangesApart(ds: seq<Range>) {
    forall i, j :: 0 <= i < j < |ds| ==>
      ds[i].start + ds[i].count <= ds[j].start || ds[j].start + ds[j].count <= ds[i].start
  }

  lemma {:induction false} EmptyOk()
    ensures WF(Empty()) && NoBuddies(Empty()) && forall x: nat :: !FreeAt(Empty(), x)
  {
    TotalEmpty(TOP + 1);
  }

  lemma {:induction false} TotalEmpty(n: nat)
    requires n <= TOP + 1
    ensures Total(Empty().lists, n) == 0
  {
    if n != 0 { TotalEmpty(n - 1); }
  }

  /** KMemoryInit makes free exactly the conventional pages above 1 MiB outside the kernel image. */
  lemma {:induction false} InitMeaning(ds: seq<Range>, from: nat, to: nat)
    requires RangesApart(ds)
    ensures var t := Init(ds, from, to);
            WF(t) && forall x: nat :: FreeAt(t, x) <==> exists i :: 0 <= i < |ds| && Usable(ds[i], from, to, x)
  {
    if ds == [] { EmptyOk(); }
    else {
      var n := |ds| - 1;
      InitMeaning(ds[..n], from, to);
      var s, t := Init(ds[..n], from, to), Init(ds, from, to);
      hide WF, FreeAt;
      forall x: nat | ds[n].start <= x < ds[n].start + ds[n].count ensures !FreeAt(s, x) {}
      AddExceptMeaning(s, ds[n], from, to);
      forall x: nat ensures FreeAt(t, x) <==> exists i :: 0 <= i < |ds| && Usable(ds[i], from, to, x) {
        if FreeAt(s, x) { var i :| 0 <= i < n && Usable(ds[..n][i], from, to, x); assert Usable(ds[i], from, to, x); }
      }
    }
  }

  /** Two neighbouring pages from two firmware ranges stay apart: a free aligned pair that no request of order 1
      is given. */
  lemma {:induction false} NeighbouringRanges()
    ensures var s := Init([Range(512, 1), Range(513, 1)], 0, 0);
            RangesApart([Range(512, 1), Range(513, 1)]) && FreeRun(s, 1, 512) && !NoBuddies(s) && Allocate(s, 1).None?
  {
    var ds := [Range(512, 1), Range(513, 1)];
    assert ds[..1] == [ds[0]] && ds[..1][..0] == [];
    OnePage(Empty(), 512);
    OnePage(Push(Empty(), 0, 512), 513);
    hide AddRange, Aligned, BuddyOf, Pow2, FreeRun;
    assert Init(ds[..1][..0], 0, 0) == Empty();
    assert Init(ds[..1], 0, 0) == Push(Empty(), 0, 512);
    assert Init(ds, 0, 0) == Push(Push(Empty(), 0, 512), 0, 513);
    assert Push(Empty(), 0, 512).lists[0] == [512];
    assert Init(ds, 0, 0).lists[0] == [513, 512];
    assert forall k :: 1 <= k <= TOP ==> Init(ds, 0, 0).lists[k] == [];
    assert Init(ds, 0, 0).lists == Empty().lists[0 := [513, 512]];
    TwoPages(Init(ds, 0, 0));
  }

  lemma {:induction false} TwoPages(s: Buddy)
    requires s.lists == Empty().lists[0 := [513, 512]]
    ensures FreeRun(s, 1, 512) && !NoBuddies(s) && Allocate(s, 1).None?
  {
    assert Pow2(0) == 1 && Pow2(1) == 2 && BuddyOf(512, 0) == 513;
    assert In(s, 0, 512) && In(s, 0, 513);
    forall x: nat | Covers(1, 512, x) ensures FreeAt(s, x) { assert Covers(0, x, x) && In(s, 0, x); }
    FirstOrderIs(s, 1);
  }

  lemma {:induction false} OnePage(s: Buddy, p: nat)
    requires |s.lists| == TOP + 1
    ensures AddRange(s, p, 1) == Push(s, 0, p)
  {
    assert Pow2(0 + 1) == 2;
  }

  /** Free runs lie in single free blocks exactly when no free buddies were left apart. */
  lemma {:induction false} RunsInBlocks(s: Buddy)
    requires WF(s)
    ensures NoBuddies(s) <==>
              forall order: nat, q: nat :: order <= TOP && FreeRun(s, order, q) ==> InOneBlock(s, order, q)
  {
    if NoBuddies(s) {
      forall order: nat, q: nat | order <= TOP && FreeRun(s, order, q) ensures InOneBlock(s, order, q) {
        var r, b := RunInBlock(s, order, q);
      }
    } else {
      var o: nat, p: nat :| o < TOP && In(s, o, p) && In(s, o, BuddyOf(p, o));
      InOk(s, o, p);
      JoinAligned(p, o);
      SplitRun(s, o, Lower(p, BuddyOf(p, o)));
    }
  }

  ghost predicate InOneBlock(s: Buddy, order: nat, q: nat) {
    exists r: nat, b: nat :: In(s, r, b) && order <= r && b <= q && q + Pow2(order) <= b + Pow2(r)
  }

  lemma {:induction false} SplitRun(s: Buddy, o: nat, low: nat)
    requires WF(s) && o < TOP && Aligned(low, o + 1) && In(s, o, low) && In(s, o, low + Pow2(o))
    ensures FreeRun(s, o + 1, low) && !InOneBlock(s, o + 1, low)
  {
    forall x: nat | Covers(o + 1, low, x) ensures FreeAt(s, x) {
      assert Covers(o, low, x) || Covers(o, low + Pow2(o), x);
    }
    forall r: nat, b: nat | In(s, r, b) && o + 1 <= r ensures !(b <= low && low + Pow2(o + 1) <= b + Pow2(r)) {
      assert Disjoint(r, b, o, low);
    }
  }

  // ---- Runs ----

  /** The allocator and the blocks handed out and not yet returned, each an order and a page. */
  datatype Book = Book(buddy: Buddy, out: seq<(nat, nat)>)

  datatype Event = Get(order: nat) | GetBelow(order: nat, limit: nat) | Put(index: nat)

  /** Callers return what they were given. */
  predicate Enabled(b: Book, e: Event) { e.Put? ==> e.index < |b.out| }

  function Gave(b: Book, order: nat, r: Option<(Buddy, nat)>): Book {
    if r.None? then b else Book(r.value.0, b.out + [(order, r.value.1)])
  }

  function Apply(b: Book, e: Event): (c: Book)
    requires Enabled(b, e) && |b.buddy.lists| == TOP + 1
    ensures |c.buddy.lists| == TOP + 1
  {
    match e
    case Get(order) => if order > TOP then b else Gave(b, order, Allocate(b.buddy, order))
    case GetBelow(order, limit) => if order > TOP then b else Gave(b, order, AllocateBelow(b.buddy, order, limit))
    case Put(i) => Book(Release(b.buddy, b.out[i].1, b.out[i].0), b.out[..i] + b.out[i + 1..])
  }

  function OutPages(out: seq<(nat, nat)>): nat {
    if out == [] then 0 else Pow2(out[0].0) + OutPages(out[1..])
  }

  ghost predicate OutAt(out: seq<(nat, nat)>, x: nat) { exists i :: 0 <= i < |out| && Covers(out[i].0, out[i].1, x) }

  /** Handed-out blocks are aligned, apart from each other and from the free ones. */
  ghost predicate BookOk(b: Book) {
    && WF(b.buddy)
    && (forall i :: 0 <= i < |b.out| ==> b.out[i].0 <= TOP && BlockOk(b.out[i].0, b.out[i].1) && Outside(b.buddy, b.out[i].0, b.out[i].1))
    && (forall i, j :: 0 <= i < j < |b.out| ==> Disjoint(b.out[i].0, b.out[i].1, b.out[j].0, b.out[j].1))
  }

  /** The same pages in all, and as many. */
  ghost predicate SamePages(b: Book, c: Book) {
    && b.buddy.freePages + OutPages(b.out) == c.buddy.freePages + OutPages(c.out)
    && forall x: nat :: FreeAt(b.buddy, x) || OutAt(b.out, x) <==> FreeAt(c.buddy, x) || OutAt(c.out, x)
  }

  lemma {:induction false} OutPagesAppend(out: seq<(nat, nat)>, x: (nat, nat))
    ensures OutPages(out + [x]) == OutPages(out) + Pow2(x.0)
  {
    if out != [] {
      assert (out + [x])[1..] == out[1..] + [x];
      OutPagesAppend(out[1..], x);
    }
  }

  lemma {:induction false} OutPagesDrop(out: seq<(nat, nat)>, i: nat)
    requires i < |out|
    ensures OutPages(out[..i] + out[i + 1..]) == OutPages(out) - Pow2(out[i].0)
  {
    if i > 0 {
      OutPagesDrop(out[1..], i - 1);
      assert (out[..i] + out[i + 1..])[1..] == out[1..][..i - 1] + out[1..][i..];
    } else { assert out[..0] + out[1..] == out[1..]; }
  }

  /** A block handed out of free pages is apart from everything already handed out. */
  lemma {:induction false} GaveOk(b: Book, order: nat, t: Buddy, p: nat)
    requires BookOk(b) && WF(t) && order <= TOP && Handed(b.buddy, t, order, p)
    ensures var c := Book(t, b.out + [(order, p)]); BookOk(c) && SamePages(b, c)
  {
    var c := Book(t, b.out + [(order, p)]);
    OutPagesAppend(b.out, (order, p));
    GaveFrame(b.buddy, t, order, p);
    forall i | 0 <= i < |b.out|
      ensures Outside(t, b.out[i].0, b.out[i].1) && Disjoint(b.out[i].0, b.out[i].1, order, p)
    {
      OutsideStays(b.buddy, t, order, p, b.out[i].0, b.out[i].1);
    }
    hide WF, In, FreeAt, Disjoint, BlockOk, OutPages;
    assert c.out[|b.out|] == (order, p);
    forall x: nat ensures FreeAt(b.buddy, x) || OutAt(b.out, x) <==> FreeAt(t, x) || OutAt(c.out, x) {
      if OutAt(b.out, x) { var i :| 0 <= i < |b.out| && Covers(b.out[i].0, b.out[i].1, x); assert c.out[i] == b.out[i]; }
      if Covers(order, p, x) { assert Covers(c.out[|b.out|].0, c.out[|b.out|].1, x); }
    }
  }

  lemma {:induction false} GaveFrame(s: Buddy, t: Buddy, order: nat, p: nat)
    requires WF(t) && Handed(s, t, order, p)
    ensures BlockOk(order, p) && Outside(t, order, p)
  {
    forall r: nat, q: nat | In(t, r, q) ensures Disjoint(order, p, r, q) {
      var x := Higher(p, q);
      assert Covers(r, q, x) ==> FreeAt(t, x);
    }
  }

  lemma {:induction false} OutsideStays(s: Buddy, t: Buddy, order: nat, p: nat, o: nat, out: nat)
    requires Handed(s, t, order, p) && Outside(s, o, out)
    ensures Outside(t, o, out) && Disjoint(o, out, order, p)
  {
    forall x: nat | Covers(o, out, x) ensures !FreeAt(s, x) { }
    forall r: nat, q: nat | In(t, r, q) ensures Disjoint(o, out, r, q) {
      var x := Higher(out, q);
      assert Covers(r, q, x) ==> FreeAt(t, x);
    }
    var x := Higher(out, p);
    assert Covers(order, p, x) ==> FreeAt(s, x);
  }

  lemma {:induction false} PutOk(b: Book, i: nat)
    requires BookOk(b) && i < |b.out|
    ensures |b.buddy.lists| == TOP + 1
    ensures var c := Apply(b, Put(i)); BookOk(c) && SamePages(b, c) && (NoBuddies(b.buddy) ==> NoBuddies(c.buddy))
  {
    hide WF, NoBuddies, In, FreeAt, BlockOk, OutPages, Release, Outside, Disjoint, Covers, OutAt;
    var o, p := b.out[i].0, b.out[i].1;
    Sized(b.buddy);
    ReleaseMeaning(b.buddy, p, o);
    if NoBuddies(b.buddy) { ReleaseNoBuddies(b.buddy, p, o); }
    OutPagesDrop(b.out, i);
    var t, rest := Release(b.buddy, p, o), b.out[..i] + b.out[i + 1..];
    forall k | 0 <= k < |rest| ensures Outside(t, rest[k].0, rest[k].1) {
      var j := if k < i then k else k + 1;
      assert rest[k] == b.out[j];
      OutsideReleased(b.buddy, t, o, p, rest[k].0, rest[k].1);
    }
    OutAtDrop(b.out, i);
  }

  lemma {:induction false} OutAtDrop(out: seq<(nat, nat)>, i: nat)
    requires i < |out|
    ensures forall x: nat :: OutAt(out, x) <==> OutAt(out[..i] + out[i + 1..], x) || Covers(out[i].0, out[i].1, x)
  {
    hide Covers;
    var rest := out[..i] + out[i + 1..];
    forall x: nat ensures OutAt(out, x) <==> OutAt(rest, x) || Covers(out[i].0, out[i].1, x) {
      if OutAt(out, x) && !Covers(out[i].0, out[i].1, x) {
        var j :| 0 <= j < |out| && Covers(out[j].0, out[j].1, x);
        assert rest[if j < i then j else j - 1] == out[j];
      }
      if OutAt(rest, x) {
        var k :| 0 <= k < |rest| && Covers(rest[k].0, rest[k].1, x);
        assert rest[k] == out[if k < i then k else k + 1];
      }
    }
  }

  lemma {:induction false} OutsideReleased(s: Buddy, t: Buddy, o: nat, p: nat, r: nat, q: nat)
    requires Outside(s, r, q) && (Disjoint(o, p, r, q) || Disjoint(r, q, o, p))
    requires forall x: nat :: FreeAt(t, x) <==> FreeAt(s, x) || Covers(o, p, x)
    ensures Outside(t, r, q)
  {
    forall r': nat, q': nat | In(t, r', q') ensures Disjoint(r, q, r', q') {
      var x := Higher(q, q');
      assert Covers(r', q', x) ==> FreeAt(t, x);
    }
  }

  lemma {:induction false} ApplyOk(b: Book, e: Event)
    requires BookOk(b) && Enabled(b, e)
    ensures |b.buddy.lists| == TOP + 1
    ensures BookOk(Apply(b, e)) && SamePages(b, Apply(b, e)) && (NoBuddies(b.buddy) ==> NoBuddies(Apply(b, e).buddy))
  {
    Sized(b.buddy);
    match e {
      case Get(order) =>
        if order <= TOP {
          AllocateMeaning(b.buddy, order);
          if Allocate(b.buddy, order).Some? { GaveOk(b, order, Allocate(b.buddy, order).value.0, Allocate(b.buddy, order).value.1); }
        }
      case GetBelow(order, limit) =>
        if order <= TOP {
          AllocateBelowMeaning(b.buddy, order, limit);
          var r := AllocateBelow(b.buddy, order, limit);
          if r.Some? { GaveOk(b, order, r.value.0, r.value.1); }
        }
      case Put(i) => PutOk(b, i);
    }
  }

  /** The books after the events; one that is not enabled is not taken. */
  function Run(b: Book, es: seq<Event>): (c: Book)
    requires |b.buddy.lists| == TOP + 1
    ensures |c.buddy.lists| == TOP + 1
  {
    if es == [] then b else
    var c := Run(b, es[..|es| - 1]);
    var e := es[|es| - 1];
    if Enabled(c, e) then Apply(c, e) else c
  }

  /** Over every run no page is lost or handed out twice, and once everything is back every page is free. */
  lemma {:induction false} RunConserves(b: Book, es: seq<Event>)
    requires BookOk(b)
    ensures |b.buddy.lists| == TOP + 1
    ensures var c := Run(b, es);
            && BookOk(c) && SamePages(b, c) && (NoBuddies(b.buddy) ==> NoBuddies(c.buddy))
            && (c.out == [] && b.out == [] ==>
                  c.buddy.freePages == b.buddy.freePages && forall x: nat :: FreeAt(c.buddy, x) <==> FreeAt(b.buddy, x))
  {
    Sized(b.buddy);
    if es != [] {
      RunConserves(b, es[..|es| - 1]);
      var c, e := Run(b, es[..|es| - 1]), es[|es| - 1];
      if Enabled(c, e) { ApplyOk(c, e); }
    }
    var c := Run(b, es);
    hide BookOk, FreeAt, NoBuddies;
    forall x: nat ensures !OutAt([], x) {}
  }

  /** From boot on: whatever the firmware's map is, over every run each usable page is either free or in exactly one
      block handed out, and no other page ever is; blocks handed out never overlap. */
  lemma {:induction false} BootConserves(ds: seq<Range>, from: nat, to: nat, es: seq<Event>)
    requires RangesApart(ds)
    ensures var c := Run(Book(Init(ds, from, to), []), es);
            && BookOk(c) && c.buddy.freePages + OutPages(c.out) == Init(ds, from, to).freePages
            && (forall x: nat :: FreeAt(c.buddy, x) || OutAt(c.out, x) <==> exists i :: 0 <= i < |ds| && Usable(ds[i], from, to, x))
            && (forall x: nat :: !(FreeAt(c.buddy, x) && OutAt(c.out, x)))
  {
    InitMeaning(ds, from, to);
    var b := Book(Init(ds, from, to), []);
    assert BookOk(b);
    RunConserves(b, es);
    var c := Run(b, es);
    forall x: nat ensures !OutAt([], x) {}
    forall x: nat, i | 0 <= i < |c.out| && Covers(c.out[i].0, c.out[i].1, x) ensures !FreeAt(c.buddy, x) {}
  }
}
