/** Which pages the allocator can give for page tables, and how many a change of the tables takes. */
module PageSupply {
  import opened Prelude
  import opened PageTables

  const LOW_PAGES: nat := 1048576

  /** A walk that leads page `f` to itself, writable all along. */
  predicate WritableAt(w: Option<Mapping>, f: nat) { w.Some? && w.value.frame == f && w.value.eff.w }

  /** Page `f` is writable at its own address through the root, for the kernel only. */
  ghost predicate IdentityAt(m: Memory, root: nat, f: nat) {
    root in m && !m[root][Index(f, 0)].large && WritableAt(Walk(m, root, 0, f), f) && !Walk(m, root, 0, f).value.own.u
  }

  /** A page that can be written as a table whichever root is in use. */
  ghost predicate Suitable(m: Memory, current: nat, roots: seq<nat>, f: nat) {
    WritableAt(Walk(m, current, 0, f), f) && forall k :: 0 <= k < |roots| ==> IdentityAt(m, roots[k], f)
  }

  /** Only the pages `s` were taken from the allocator, and nothing that was in use changed. */
  ghost predicate Grown(m0: Memory, f0: set<nat>, m1: Memory, f1: set<nat>, s: set<nat>) {
    s <= f0 && f1 == f0 - s && m1.Keys == m0.Keys + s && Agree(m0, m1, m0.Keys)
  }

  /** The free pages below 4 GiB. */
  ghost function Low(free: set<nat>): set<nat> { set f | f in free && f < LOW_PAGES }

  lemma {:induction false} LowLess(free: set<nat>, f: nat)
    requires f in free && f < LOW_PAGES
    ensures |Low(free - {f})| == |Low(free)| - 1
  {
    assert Low(free - {f}) == Low(free) - {f};
  }

  /** No root leads to a free page, and every low free page can be written as a table. */
  ghost predicate Calm(m: Memory, free: set<nat>, current: nat, roots: seq<nat>) {
    && Pages(m, current, 0) !! free && (forall k :: 0 <= k < |roots| ==> Pages(m, roots[k], 0) !! free)
    && forall f :: f in Low(free) ==> Suitable(m, current, roots, f)
  }

  /** At least `n` pages can be had for tables. */
  ghost predicate Enough(m: Memory, free: set<nat>, current: nat, roots: seq<nat>, n: nat) {
    Calm(m, free, current, roots) && |Low(free)| >= n
  }

  lemma {:induction false} CalmGrown(m0: Memory, f0: set<nat>, m: Memory, f: set<nat>, s: set<nat>, current: nat, roots: seq<nat>)
    requires f0 !! m0.Keys && Grown(m0, f0, m, f, s) && Calm(m0, f0, current, roots)
    ensures Calm(m, f, current, roots)
  {
    hide Pages, ChildPages, IsTree, Walk, WalkEntry;
    RootGrown(m0, f0, m, f, s, current);
    forall k | 0 <= k < |roots| ensures Pages(m, roots[k], 0) !! f { RootGrown(m0, f0, m, f, s, roots[k]); }
    forall x | x in Low(f) ensures Suitable(m, current, roots, x) {
      assert x in Low(f0);
      forall k | 0 <= k < |roots| ensures IdentityAt(m, roots[k], x) { RootGrown(m0, f0, m, f, s, roots[k]); }
    }
  }

  /** A root that leads to no free page sees what it saw. */
  lemma {:induction false} RootGrown(m0: Memory, f0: set<nat>, m: Memory, f: set<nat>, s: set<nat>, root: nat)
    requires f0 !! m0.Keys && Grown(m0, f0, m, f, s) && Pages(m0, root, 0) !! f0
    ensures Pages(m, root, 0) == Pages(m0, root, 0) && Pages(m, root, 0) !! f
    ensures (root in m0 <==> root in m) && (root in m0 ==> m[root] == m0[root])
    ensures forall v: nat :: Walk(m, root, 0, v) == Walk(m0, root, 0, v)
  {
    SelfPage(m0, root, 0);
    hide Walk, WalkEntry, ChildPages, IsTree;
    PagesFrame(m0, m, root, 0);
    forall v: nat ensures Walk(m, root, 0, v) == Walk(m0, root, 0, v) { WalkFrame(m0, m, root, 0, v); }
  }

  // ---- What a copy takes ----

  /** The tables that are visited from the one at `f` on, each time they are. */
  ghost function Needs(m: Memory, f: nat, level: nat): nat
    requires level <= 3
    decreases 3 - level, 1, 0
  {
    1 + NeedsBelow(m, f, level, SLOTS)
  }

  ghost function NeedsBelow(m: Memory, f: nat, level: nat, n: nat): nat
    requires level <= 3 && n <= SLOTS
    decreases 3 - level, 0, n
  {
    if n == 0 || f !in m then 0
    else NeedsBelow(m, f, level, n - 1) + if IsLink(m[f][n - 1], level) then Needs(m, m[f][n - 1].frame, level + 1) else 0
  }

  /** Every table that is visited can be read. */
  ghost predicate Readable(m: Memory, f: nat, level: nat)
    requires level <= 3
    decreases 3 - level
  {
    f in m && forall i :: 0 <= i < SLOTS && IsLink(m[f][i], level) ==> Readable(m, m[f][i].frame, level + 1)
  }

  lemma {:induction false} NeedsFrame(m1: Memory, m2: Memory, f: nat, level: nat)
    requires level <= 3 && Agree(m1, m2, Pages(m1, f, level))
    ensures Needs(m2, f, level) == Needs(m1, f, level) && (Readable(m2, f, level) <==> Readable(m1, f, level))
    decreases 3 - level, 1
  {
    hide Pages, ChildPages, NeedsBelow;
    SelfPage(m1, f, level);
    NeedsBelowFrame(m1, m2, f, level, SLOTS);
    if f in m1 {
      forall i | 0 <= i < SLOTS && IsLink(m1[f][i], level)
        ensures Readable(m2, m1[f][i].frame, level + 1) <==> Readable(m1, m1[f][i].frame, level + 1)
      {
        ChildIn(m1, f, level, i);
        NeedsFrame(m1, m2, m1[f][i].frame, level + 1);
      }
    }
  }

  lemma {:induction false} NeedsBelowFrame(m1: Memory, m2: Memory, f: nat, level: nat, n: nat)
    requires level <= 3 && n <= SLOTS && Agree(m1, m2, Pages(m1, f, level))
    ensures NeedsBelow(m2, f, level, n) == NeedsBelow(m1, f, level, n)
    decreases 3 - level, 0, n
  {
    hide Pages, ChildPages, Needs;
    SelfPage(m1, f, level);
    if n > 0 && f in m1 {
      NeedsBelowFrame(m1, m2, f, level, n - 1);
      if IsLink(m1[f][n - 1], level) {
        ChildIn(m1, f, level, n - 1);
        NeedsFrame(m1, m2, m1[f][n - 1].frame, level + 1);
      }
    }
  }

  lemma {:induction false} NeedsGrow(m: Memory, f: nat, level: nat, i: nat, n: nat)
    requires level <= 3 && i <= n <= SLOTS
    ensures NeedsBelow(m, f, level, i) <= NeedsBelow(m, f, level, n)
    decreases n
  {
    if i < n && f in m { NeedsGrow(m, f, level, i, n - 1); }
  }

  lemma {:induction false} NeedsAll(m: Memory, f: nat, level: nat)
    requires level <= 3
    ensures Needs(m, f, level) == 1 + NeedsBelow(m, f, level, SLOTS) >= 1 && NeedsBelow(m, f, level, 0) == 0
    ensures Readable(m, f, level) ==> f in m
  {
  }

  /** What is still to be had when child `i` is copied. */
  lemma {:induction false} ChildNeeds(m: Memory, f: nat, level: nat, i: nat)
    requires level < 3 && f in m && i < SLOTS && IsLink(m[f][i], level)
    ensures Needs(m, f, level) >= 1 + NeedsBelow(m, f, level, i) + Needs(m, m[f][i].frame, level + 1)
    ensures NeedsBelow(m, f, level, i + 1) == NeedsBelow(m, f, level, i) + Needs(m, m[f][i].frame, level + 1)
    ensures Readable(m, f, level) ==> Readable(m, m[f][i].frame, level + 1)
  {
    NeedsGrow(m, f, level, i + 1, SLOTS);
  }

  lemma {:induction false} NoChild(m: Memory, f: nat, level: nat, i: nat)
    requires level <= 3 && f in m && i < SLOTS && !IsLink(m[f][i], level)
    ensures NeedsBelow(m, f, level, i + 1) == NeedsBelow(m, f, level, i)
  {
  }

  /** A copy of what root entry `e` leads to, or a new table. */
  ghost function RootNeeds(m: Memory, e: Entry): nat { if e.p then Needs(m, e.frame, 1) else 1 }

  ghost predicate RootReadable(m: Memory, e: Entry) { e.p ==> Readable(m, e.frame, 1) }

  /** A tree of tables in use can be read. */
  lemma {:induction false} TreeReadable(m: Memory, f: nat, level: nat)
    requires level <= 3 && IsTree(m, f, level)
    ensures Readable(m, f, level)
    decreases 3 - level
  {
    forall i | 0 <= i < SLOTS && IsLink(m[f][i], level) ensures Readable(m, m[f][i].frame, level + 1) {
      TreeReadable(m, m[f][i].frame, level + 1);
    }
  }
}
