/** Taking one page out of a private subtree in place: what the walks and the other spaces keep. */
module PageRemoval {
  import opened Prelude
  import opened PageTables
  import opened PagePath
  import opened AddressSpaces

  /** The slots of `vpn` lead from table `f` down to table `t` of level `target`, with no large page on the way. */
  ghost predicate LinkPath(m: Memory, f: nat, level: nat, vpn: nat, t: nat, target: nat)
    requires level <= target <= 3
    decreases target - level
  {
    if level == target then t == f
    else f in m && var e := m[f][Index(vpn, level)]; e.p && !e.large && LinkPath(m, e.frame, level + 1, vpn, t, target)
  }

  lemma {:induction false} ExtendLink(m: Memory, f: nat, level: nat, vpn: nat, t: nat, target: nat)
    requires level <= target < 3 && LinkPath(m, f, level, vpn, t, target) && t in m
    ensures var e := m[t][Index(vpn, target)];
            if e.p && !e.large then LinkPath(m, f, level, vpn, e.frame, target + 1)
            else forall x: nat :: !LinkPath(m, f, level, vpn, x, 3)
    decreases target - level
  {
    if level < target { ExtendLink(m, m[f][Index(vpn, level)].frame, level + 1, vpn, t, target); }
    else { assert forall x: nat :: LinkPath(m, f, level, vpn, x, 3) ==> m[f][Index(vpn, level)].p && !m[f][Index(vpn, level)].large; }
  }

  lemma {:induction false} LinkSelf(m: Memory, f: nat, vpn: nat)
    ensures LinkPath(m, f, 0, vpn, f, 0)
  {
  }

  /** There is only one last table. */
  lemma {:induction false} OneLeaf(m: Memory, f: nat, level: nat, vpn: nat, t: nat)
    requires level <= 3 && LinkPath(m, f, level, vpn, t, 3)
    ensures forall x: nat :: LinkPath(m, f, level, vpn, x, 3) ==> x == t
    decreases 3 - level
  {
    if level < 3 { OneLeaf(m, m[f][Index(vpn, level)].frame, level + 1, vpn, t); }
  }

  /** The walk of a page with a last table ends in its slot there. */
  lemma {:induction false} LinkWalk(m: Memory, f: nat, level: nat, vpn: nat, t: nat)
    requires level <= 3 && LinkPath(m, f, level, vpn, t, 3) && t in m
    ensures var e := m[t][Index(vpn, 3)]; var w := Walk(m, f, level, vpn);
            w.Some? == e.p && (e.p ==> w.value.frame == e.frame && w.value.own == RightsOf(e))
    decreases 3 - level
  {
    if level < 3 { LinkWalk(m, m[f][Index(vpn, level)].frame, level + 1, vpn, t); }
  }

  /** Every table on the way through a tree is in use. */
  lemma {:induction false} TreePath(m: Memory, f: nat, level: nat, vpn: nat, t: nat, target: nat)
    requires 1 <= level <= target <= 3 && IsTree(m, f, level) && LinkPath(m, f, level, vpn, t, target)
    ensures t in m
    decreases target - level
  {
    if level < target { TreePath(m, m[f][Index(vpn, level)].frame, level + 1, vpn, t, target); }
  }

  /** So is every table on the way through a private slot. */
  lemma {:induction false} PrivateInMemory(m: Memory, free: set<nat>, s: Space, vpn: nat)
    requires SpaceOk(m, free, s) && !s.shared[Index(vpn, 0)]
    ensures forall x: nat, l: nat :: l <= 3 && LinkPath(m, s.root, 0, vpn, x, l) ==> x in m
  {
    forall x: nat, l: nat | l <= 3 && LinkPath(m, s.root, 0, vpn, x, l) ensures x in m {
      if l > 0 { TreePath(m, m[s.root][Index(vpn, 0)].frame, 1, vpn, x, l); }
    }
  }

  predicate SameSlots(v: nat, vpn: nat, level: nat)
    requires level <= 3
  {
    SharesPath(v, vpn, level, 3) && Index(v, 3) == Index(vpn, 3)
  }

  /** Clearing the last slot of `vpn` unmaps the pages that share all its slots and no others. */
  lemma {:induction false} ClearLeaf(m: Memory, f: nat, level: nat, vpn: nat, t: nat, m': Memory)
    requires level <= 3 && IsTree(m, f, level) && LinkPath(m, f, level, vpn, t, 3) && t in m
    requires m' == m[t := m[t][Index(vpn, 3) := ZERO_ENTRY]]
    ensures t in Pages(m, f, level) && IsTree(m', f, level) && Pages(m', f, level) == Pages(m, f, level)
    ensures forall v: nat :: Walk(m', f, level, v) == if SameSlots(v, vpn, level) then None else Walk(m, f, level, v)
    decreases 3 - level
  {
    if level == 3 {
      LastLevel(m, t);
      SlotUpdate(m, t, 3, Index(vpn, 3), ZERO_ENTRY, m');
      LastLevel(m', t);
    } else {
      ClearBelow(m, f, level, vpn, t, m');
    }
  }

  lemma {:induction false} ClearBelow(m: Memory, f: nat, level: nat, vpn: nat, t: nat, m': Memory)
    requires level < 3 && IsTree(m, f, level) && LinkPath(m, f, level, vpn, t, 3) && t in m
    requires m' == m[t := m[t][Index(vpn, 3) := ZERO_ENTRY]]
    ensures t in Pages(m, f, level) && IsTree(m', f, level) && Pages(m', f, level) == Pages(m, f, level)
    ensures forall v: nat :: Walk(m', f, level, v) == if SameSlots(v, vpn, level) then None else Walk(m, f, level, v)
    decreases 3 - level, 0
  {
    hide IsTree, Pages, ChildPages, Walk, WalkEntry, SharesPath, Index;
    var i := Index(vpn, level);
    var c := m[f][i].frame;
    TreeChild(m, f, level, i);
    ClearLeaf(m, c, level + 1, vpn, t, m');
    ChildUpdate(m, m', f, level, i);
    forall v: nat
      ensures Walk(m', f, level, v) == if SameSlots(v, vpn, level) then None else Walk(m, f, level, v)
    {
      SlotsBelow(v, vpn, level);
      if Index(v, level) == i {
        LinkStep(m, f, level, v);
        LinkStep(m', f, level, v);
      } else {
        SiblingWalk(m, m', f, level, i, v);
      }
    }
  }

  lemma {:induction false} SlotsBelow(v: nat, vpn: nat, level: nat)
    requires level < 3
    ensures SameSlots(v, vpn, level) <==> Index(v, level) == Index(vpn, level) && SameSlots(v, vpn, level + 1)
  {
  }

  lemma {:induction false} TreeChild(m: Memory, f: nat, level: nat, i: nat)
    requires level < 3 && i < SLOTS && IsTree(m, f, level) && f in m && IsLink(m[f][i], level)
    ensures var c := m[f][i].frame; IsTree(m, c, level + 1) && f !in Pages(m, c, level + 1) && Pages(m, c, level + 1) <= Pages(m, f, level)
  {
    ChildIn(m, f, level, i);
  }

  /** One level of a walk through a link. */
  lemma {:induction false} LinkStep(m: Memory, f: nat, level: nat, v: nat)
    requires level < 3 && f in m && IsLink(m[f][Index(v, level)], level)
    ensures var e := m[f][Index(v, level)]; Walk(m, f, level, v) == Through(e, Walk(m, e.frame, level + 1, v))
  {
  }

  /** The subtree of private slot `i` was rewritten in place. */
  ghost predicate Reworked(m: Memory, free: set<nat>, s: Space, i: nat, m': Memory)
    requires i < SLOTS
  {
    && SpaceOk(m, free, s) && !s.shared[i] && m[s.root][i].p && m'.Keys == m.Keys
    && Agree(m, m', m.Keys - SlotPages(m, s.root, i))
    && PrivateOk(m', m[s.root][i]) && Pages(m', m[s.root][i].frame, 1) == Pages(m, m[s.root][i].frame, 1)
  }

  lemma {:induction false} ReworkedSlot(m: Memory, free: set<nat>, s: Space, i: nat, m': Memory, j: nat)
    requires i < SLOTS && j < SLOTS && Reworked(m, free, s, i, m')
    ensures s.root in m' && m'[s.root] == m[s.root] && SlotPages(m', s.root, j) == SlotPages(m, s.root, j)
    ensures m[s.root][j].p && !s.shared[j] ==> PrivateOk(m', m[s.root][j])
    ensures j != i ==> Agree(m, m', SlotPages(m, s.root, j))
  {
    var x := m[s.root][j];
    if j != i && x.p {
      assert SlotPages(m, s.root, i) !! SlotPages(m, s.root, j);
      PagesFrame(m, m', x.frame, 1);
      WalksFrame(m, m', x.frame, 1);
    }
  }

  lemma {:induction false} ReworkedOk(m: Memory, free: set<nat>, s: Space, i: nat, m': Memory)
    requires i < SLOTS && Reworked(m, free, s, i, m')
    ensures SpaceOk(m', free, s) && Owned(m', s) == Owned(m, s) && Pages(m', s.root, 0) == Pages(m, s.root, 0)
    ensures forall v: nat :: Index(v, 0) != i ==> Translate(m', s, v) == Translate(m, s, v)
  {
    hide IsTree, Normal, Walk, WalkEntry, Index, Pages;
    forall j | 0 <= j < SLOTS
      ensures s.root in m' && m'[s.root] == m[s.root] && SlotPages(m', s.root, j) == SlotPages(m, s.root, j)
      ensures m[s.root][j].p && !s.shared[j] ==> PrivateOk(m', m[s.root][j])
    {
      ReworkedSlot(m, free, s, i, m', j);
    }
    RootPages(m, s.root);
    RootPages(m', s.root);
    forall v: nat | Index(v, 0) != i ensures Translate(m', s, v) == Translate(m, s, v) {
      ReworkedWalk(m, free, s, i, m', v);
    }
  }

  lemma {:induction false} ReworkedWalk(m: Memory, free: set<nat>, s: Space, i: nat, m': Memory, v: nat)
    requires i < SLOTS && Reworked(m, free, s, i, m') && Index(v, 0) != i
    ensures Translate(m', s, v) == Translate(m, s, v)
  {
    var j := Index(v, 0);
    ReworkedSlot(m, free, s, i, m', j);
    if m[s.root][j].p { WalkFrame(m, m', m[s.root][j].frame, 1, v); }
  }

  /** A root's pages are its own and those of its slots. */
  lemma {:induction false} RootPages(m: Memory, root: nat)
    requires root in m
    ensures forall q: nat :: q in Pages(m, root, 0) <==> q == root || exists i: nat :: i < SLOTS && q in SlotPages(m, root, i)
  {
    forall q: nat | q in ChildPages(m, root, 0, SLOTS) ensures exists i: nat :: i < SLOTS && q in SlotPages(m, root, i) {
      var i :| 0 <= i < SLOTS && IsLink(m[root][i], 0) && q in Pages(m, m[root][i].frame, 1);
      assert q in SlotPages(m, root, i);
    }
    forall i: nat, q: nat | i < SLOTS && q in SlotPages(m, root, i) ensures q in Pages(m, root, 0) { ChildIn(m, root, 0, i); }
  }

  /** A tree of tables the space does not own is untouched. */
  lemma {:induction false} ReworkedElse(m: Memory, free: set<nat>, s: Space, i: nat, m': Memory, root: nat)
    requires i < SLOTS && Reworked(m, free, s, i, m') && Owned(m, s) !! Pages(m, root, 0)
    ensures Agree(m, m', Pages(m, root, 0)) && Pages(m', root, 0) == Pages(m, root, 0)
    ensures SameWalksBelow(m, root, m', root, 0, SLOTS)
  {
    hide Pages, ChildPages, IsTree;
    GoneOwned(m, free, s, i);
    PagesFrame(m, m', root, 0);
    WalksFrame(m, m', root, 0);
  }

  lemma {:induction false} SameEverywhere(m: Memory, f: nat)
    ensures SameWalksBelow(m, f, m, f, 0, SLOTS)
  {
  }

  /** Every space stays in order, and all but one see what they saw. */
  lemma {:induction false} AllReworked(m: Memory, free: set<nat>, ss: seq<Space>, kernel: nat, k: nat, i: nat, m': Memory)
    requires k < |ss| && i < SLOTS && AllOk(m, free, ss) && KernelOk(m, free, kernel, ss) && Reworked(m, free, ss[k], i, m')
    ensures AllOk(m', free, ss) && KernelOk(m', free, kernel, ss) && SameWalksBelow(m, kernel, m', kernel, 0, SLOTS)
    ensures forall j :: 0 <= j < |ss| && j != k ==> SameWalksBelow(m, ss[j].root, m', ss[j].root, 0, SLOTS)
  {
    hide Pages, ChildPages, IsTree, SameWalksBelow, SpaceOk, Owned, Reworked;
    ReworkedOk(m, free, ss[k], i, m');
    ReworkedRoots(m, free, ss, kernel, k, i, m');
    forall j | 0 <= j < |ss|
      ensures SpaceOk(m', free, ss[j]) && Owned(m', ss[j]) == Owned(m, ss[j]) && Pages(m', ss[j].root, 0) == Pages(m, ss[j].root, 0)
      ensures ss[j].root in m' && j != k ==> SameWalksBelow(m, ss[j].root, m', ss[j].root, 0, SLOTS)
    {
      if j != k { OtherReworked(m, free, ss[k], i, m', ss[j]); }
    }
    assert Apart(m, ss[k], Space(kernel, ss[k].shared));
    ReworkedElse(m, free, ss[k], i, m', kernel);
    forall j, l | 0 <= j < |ss| && 0 <= l < |ss| && j != l ensures Apart(m', ss[l], ss[j]) { assert Apart(m, ss[l], ss[j]); }
    forall j | 0 <= j < |ss| ensures Apart(m', ss[j], Space(kernel, ss[j].shared)) { assert Apart(m, ss[j], Space(kernel, ss[j].shared)); }
  }

  lemma {:induction false} OtherReworked(m: Memory, free: set<nat>, s: Space, i: nat, m': Memory, o: Space)
    requires i < SLOTS && free !! m.Keys && Reworked(m, free, s, i, m') && SpaceOk(m, free, o) && Apart(m, s, o)
    ensures SpaceOk(m', free, o) && Owned(m', o) == Owned(m, o) && Pages(m', o.root, 0) == Pages(m, o.root, 0)
    ensures o.root in m' && SameWalksBelow(m, o.root, m', o.root, 0, SLOTS)
  {
    hide Pages, ChildPages, IsTree, SameWalksBelow, Owned;
    ReworkedElse(m, free, s, i, m', o.root);
    SpacePages(m, free, o);
    Untouched(m, free, o, m', free);
  }

  lemma {:induction false} ReworkedRoots(m: Memory, free: set<nat>, ss: seq<Space>, kernel: nat, k: nat, i: nat, m': Memory)
    requires k < |ss| && i < SLOTS && AllOk(m, free, ss) && KernelOk(m, free, kernel, ss) && Reworked(m, free, ss[k], i, m')
    ensures free !! m'.Keys && kernel in m' && forall j :: 0 <= j < |ss| ==> ss[j].root in m && ss[j].root in m' && |ss[j].shared| == SLOTS
  {
  }

  /** Exactly the page `vpn` went away; every other keeps its mapping, rights included. */
  ghost predicate UnmapsOnly(m: Memory, s: Space, m': Memory, vpn: nat) {
    && Translate(m', s, vpn).None?
    && forall v: nat {:trigger Translate(m', s, v)} :: v < PAGES && v != vpn ==> Translate(m', s, v) == Translate(m, s, v)
  }

  /** Clearing the last slot of a page in a private subtree. */
  lemma {:induction false} Cleared(m: Memory, free: set<nat>, s: Space, vpn: nat, t: nat, m': Memory)
    requires vpn < PAGES && SpaceOk(m, free, s) && !s.shared[Index(vpn, 0)] && LinkPath(m, s.root, 0, vpn, t, 3) && t in m
    requires m' == m[t := m[t][Index(vpn, 3) := ZERO_ENTRY]]
    ensures Reworked(m, free, s, Index(vpn, 0), m') && UnmapsOnly(m, s, m', vpn)
  {
    hide IsTree, Pages, ChildPages, Walk, WalkEntry, SharesPath, Index, Span, Owned;
    var i := Index(vpn, 0);
    var e := m[s.root][i];
    ClearedTree(m, free, s, vpn, t, m');
    ReworkedOk(m, free, s, i, m');
    forall v: nat | v < PAGES
      ensures if v == vpn then Translate(m', s, v).None? else Translate(m', s, v) == Translate(m, s, v)
    {
      if Index(v, 0) == i {
        PageOf(v, vpn);
        SamePage(v, vpn);
        LinkStep(m, s.root, 0, v);
        LinkStep(m', s.root, 0, v);
      }
    }
  }

  lemma {:induction false} ClearedTree(m: Memory, free: set<nat>, s: Space, vpn: nat, t: nat, m': Memory)
    requires SpaceOk(m, free, s) && !s.shared[Index(vpn, 0)] && LinkPath(m, s.root, 0, vpn, t, 3) && t in m
    requires m' == m[t := m[t][Index(vpn, 3) := ZERO_ENTRY]]
    ensures Reworked(m, free, s, Index(vpn, 0), m') && m'[s.root] == m[s.root]
    ensures forall v: nat :: Walk(m', m[s.root][Index(vpn, 0)].frame, 1, v) ==
                             if SameSlots(v, vpn, 1) then None else Walk(m, m[s.root][Index(vpn, 0)].frame, 1, v)
  {
    hide Pages, ChildPages, IsTree, Walk, WalkEntry, Index, Span, SharesPath;
    var i := Index(vpn, 0);
    var e := m[s.root][i];
    assert PrivateOk(m, e) && LinkPath(m, e.frame, 1, vpn, t, 3);
    ClearLeaf(m, e.frame, 1, vpn, t, m');
    assert t in SlotPages(m, s.root, i) && s.root !in SlotPages(m, s.root, i);
  }

  /** The tables of the first `n` private slots. */
  ghost function PrivatePages(m: Memory, s: Space, n: nat): set<nat>
    requires s.root in m && |s.shared| == SLOTS && n <= SLOTS
  {
    set i, q {:trigger q in SlotPages(m, s.root, i)} | 0 <= i < n && !s.shared[i] && q in SlotPages(m, s.root, i) :: q
  }

  /** The first `n` private slots of a dying space were given back. */
  ghost predicate Dying(m0: Memory, f0: set<nat>, s: Space, m: Memory, f: set<nat>, n: nat) {
    && n <= SLOTS && SpaceOk(m0, f0, s) && f0 !! m0.Keys && s.root in m && m[s.root] == m0[s.root]
    && m == m0 - PrivatePages(m0, s, n) && f == f0 + PrivatePages(m0, s, n) && PrivatePages(m0, s, n) <= m0.Keys
  }

  lemma {:induction false} DyingStart(m: Memory, f: set<nat>, s: Space)
    requires SpaceOk(m, f, s) && f !! m.Keys
    ensures Dying(m, f, s, m, f, 0)
  {
    assert PrivatePages(m, s, 0) == {};
  }

  lemma {:induction false} DyingStep(m0: Memory, f0: set<nat>, s: Space, m: Memory, f: set<nat>, i: nat)
    requires i < SLOTS && Dying(m0, f0, s, m, f, i)
    ensures var e := m0[s.root][i];
            if !s.shared[i] && e.p then
              && IsTree(m, e.frame, 1) && Pages(m, e.frame, 1) == SlotPages(m0, s.root, i)
              && Dying(m0, f0, s, m - SlotPages(m0, s.root, i), f + SlotPages(m0, s.root, i), i + 1)
            else Dying(m0, f0, s, m, f, i + 1)
  {
    hide IsTree, Pages, ChildPages;
    var e := m0[s.root][i];
    assert PrivatePages(m0, s, i + 1) == PrivatePages(m0, s, i) + if s.shared[i] then {} else SlotPages(m0, s.root, i);
    if !s.shared[i] && e.p {
      TreeInMemory(m0, e.frame, 1);
      forall j | 0 <= j < i && !s.shared[j] ensures SlotPages(m0, s.root, j) !! SlotPages(m0, s.root, i) { assert i != j; }
      PagesFrame(m0, m, e.frame, 1);
    }
  }

  lemma {:induction false} DyingIs(m0: Memory, f0: set<nat>, s: Space, m: Memory, f: set<nat>, n: nat)
    requires Dying(m0, f0, s, m, f, n)
    ensures f !! m.Keys && s.root in m && s.root in m0 && m[s.root] == m0[s.root] && |s.shared| == SLOTS
  {
  }

  lemma {:induction false} DyingEnd(m0: Memory, f0: set<nat>, s: Space, m: Memory, f: set<nat>)
    requires Dying(m0, f0, s, m, f, SLOTS)
    ensures m - {s.root} == m0 - Owned(m0, s) && f + {s.root} == f0 + Owned(m0, s)
  {
    hide IsTree, Pages, ChildPages;
    assert Owned(m0, s) == {s.root} + PrivatePages(m0, s, SLOTS);
  }

  /** Without one space the others are as they were. */
  lemma {:induction false} AllButOne(m: Memory, free: set<nat>, ss: seq<Space>, kernel: nat, k: nat, m': Memory)
    requires k < |ss| && AllOk(m, free, ss) && KernelOk(m, free, kernel, ss) && m' == m - Owned(m, ss[k])
    ensures var rest := ss[..k] + ss[k + 1..]; var free' := free + Owned(m, ss[k]);
            AllOk(m', free', rest) && KernelOk(m', free', kernel, rest)
    ensures SameWalksBelow(m, kernel, m', kernel, 0, SLOTS)
    ensures forall j :: 0 <= j < |ss| && j != k ==> SameWalksBelow(m, ss[j].root, m', ss[j].root, 0, SLOTS)
  {
    hide Pages, ChildPages, IsTree, SameWalksBelow, SpaceOk, Owned;
    var rest := ss[..k] + ss[k + 1..];
    var free' := free + Owned(m, ss[k]);
    Roots(m, free, ss);
    assert Apart(m, ss[k], Space(kernel, ss[k].shared));
    SelfPage(m, kernel, 0);
    PagesFrame(m, m', kernel, 0);
    WalksFrame(m, m', kernel, 0);
    forall j | 0 <= j < |ss| && j != k
      ensures SpaceOk(m', free', ss[j]) && ss[j].root in m' && SameWalksBelow(m, ss[j].root, m', ss[j].root, 0, SLOTS)
      ensures Owned(m', ss[j]) == Owned(m, ss[j]) && Pages(m', ss[j].root, 0) == Pages(m, ss[j].root, 0)
    {
      assert Apart(m, ss[k], ss[j]);
      SpacePages(m, free, ss[j]);
      SelfPage(m, ss[j].root, 0);
      Untouched(m, free, ss[j], m', free');
    }
    forall j | 0 <= j < |rest|
      ensures SpaceOk(m', free', rest[j]) && Apart(m', rest[j], Space(kernel, rest[j].shared))
    {
      var x := if j < k then j else j + 1;
      assert rest[j] == ss[x] && Apart(m, ss[x], Space(kernel, ss[x].shared));
    }
    forall j, l | 0 <= j < |rest| && 0 <= l < |rest| && j != l ensures Apart(m', rest[l], rest[j]) {
      var x, y := if j < k then j else j + 1, if l < k then l else l + 1;
      assert rest[j] == ss[x] && rest[l] == ss[y] && Apart(m, ss[y], ss[x]);
    }
  }

  lemma {:induction false} Roots(m: Memory, free: set<nat>, ss: seq<Space>)
    requires AllOk(m, free, ss)
    ensures free !! m.Keys && forall j :: 0 <= j < |ss| ==> ss[j].root in m && |ss[j].shared| == SLOTS
  {
  }

  /** Unmapping undoes mapping: a page that was unmapped before is so again, and every other kept its access. */
  lemma {:induction false} UnmapUndoesMap(m: Memory, s: Space, m1: Memory, s1: Space, m2: Memory, vpn: nat, frame: nat, writable: bool, v: nat)
    requires MapsOnly(m, s, m1, s1, vpn, frame, writable) && UnmapsOnly(m1, s1, m2, vpn)
    requires vpn < PAGES && v < PAGES && Translate(m, s, vpn).None?
    ensures SameAccess(Translate(m, s, v), Translate(m2, s1, v))
  {
    hide Walk;
    assert v != vpn ==> SameAccess(Translate(m, s, v), Translate(m1, s1, v)) && Translate(m2, s1, v) == Translate(m1, s1, v);
  }
}
