/** A user address space: one root table whose slots are either inherited from the kernel root or
    private. Several spaces share one physical memory. */
module AddressSpaces {
  import opened Prelude
  import opened PageTables
  import opened PagePath

  /** The root table's page, and which of its slots are inherited. */
  datatype Space = Space(root: nat, shared: seq<bool>)

  ghost function SlotPages(m: Memory, root: nat, i: nat): set<nat>
    requires root in m && i < SLOTS
  {
    LinkPages(m, m[root][i], 0)
  }

  ghost predicate PrivateOk(m: Memory, e: Entry) {
    IsOpen(e) && IsTree(m, e.frame, 1) && Normal(m, e.frame, 1)
  }

  /** Inherited slots are closed to user mode and lead to tables in use; private slots are open and lead
      to trees of their own whose last entries carry the rights. */
  ghost predicate SpaceOk(m: Memory, free: set<nat>, s: Space) {
    && |s.shared| == SLOTS && s.root in m
    && (forall i :: 0 <= i < SLOTS ==> s.root !in SlotPages(m, s.root, i))
    && (forall i :: 0 <= i < SLOTS && m[s.root][i].p ==>
          if s.shared[i] then !m[s.root][i].u && SlotPages(m, s.root, i) !! free else PrivateOk(m, m[s.root][i]))
    && (forall i, j :: 0 <= i < SLOTS && 0 <= j < SLOTS && i != j && !s.shared[i] ==>
          SlotPages(m, s.root, i) !! SlotPages(m, s.root, j))
  }

  /** The pages that go away with the space. */
  ghost function Owned(m: Memory, s: Space): set<nat>
    requires s.root in m && |s.shared| == SLOTS
  {
    {s.root} + set i, q {:trigger q in SlotPages(m, s.root, i)} | 0 <= i < SLOTS && !s.shared[i] && q in SlotPages(m, s.root, i) :: q
  }

  ghost predicate Apart(m: Memory, a: Space, b: Space) {
    a.root in m && |a.shared| == SLOTS && Owned(m, a) !! Pages(m, b.root, 0)
  }

  /** Every space is in order, and none owns a page that another one walks through. */
  ghost predicate AllOk(m: Memory, free: set<nat>, ss: seq<Space>) {
    && free !! m.Keys
    && (forall k :: 0 <= k < |ss| ==> SpaceOk(m, free, ss[k]))
    && (forall j, k :: 0 <= j < |ss| && 0 <= k < |ss| && j != k ==> Apart(m, ss[k], ss[j]))
  }

  function Translate(m: Memory, s: Space, vpn: nat): Option<Mapping> { Walk(m, s.root, 0, vpn) }

  /** The same page under the same effective rights, with the same kind of last entry. */
  predicate SameAccess(a: Option<Mapping>, b: Option<Mapping>) {
    a.Some? == b.Some? && (a.Some? ==> a.value.(own := b.value.own) == b.value)
  }

  /** The pages slot `i` gives up when it is replaced. */
  ghost function Gone(m: Memory, s: Space, i: nat): set<nat>
    requires s.root in m && |s.shared| == SLOTS && i < SLOTS
  {
    if s.shared[i] then {} else SlotPages(m, s.root, i)
  }

  /** Slot `i` of space `s` now holds `e`, which leads to a tree of freshly taken pages. */
  ghost predicate Replaced(m: Memory, free: set<nat>, s: Space, i: nat, e: Entry, m': Memory, free': set<nat>)
    requires i < SLOTS
  {
    && SpaceOk(m, free, s)
    && s.root in m' && m'[s.root] == m[s.root][i := e]
    && PrivateOk(m', e) && LinkPages(m', e, 0) <= free
    && m'.Keys == m.Keys - Gone(m, s, i) + LinkPages(m', e, 0)
    && free' == free - LinkPages(m', e, 0) + Gone(m, s, i)
    && Agree(m, m', m.Keys - {s.root} - Gone(m, s, i))
  }

  lemma {:induction false} OtherSlots(m: Memory, free: set<nat>, s: Space, i: nat, e: Entry, m': Memory, free': set<nat>, j: nat)
    requires i < SLOTS && Replaced(m, free, s, i, e, m', free') && free !! m.Keys && j < SLOTS && j != i
    ensures Agree(m, m', SlotPages(m, s.root, j)) && SlotPages(m', s.root, j) == SlotPages(m, s.root, j)
    ensures m[s.root][j].p && !s.shared[j] ==> PrivateOk(m', m[s.root][j])
    ensures SlotPages(m, s.root, j) !! free'
  {
    var x := m[s.root][j];
    if x.p {
      if !s.shared[j] { TreeInMemory(m, x.frame, 1); }
      assert Agree(m, m', SlotPages(m, s.root, j));
      PagesFrame(m, m', x.frame, 1);
      WalksFrame(m, m', x.frame, 1);
    }
  }

  lemma {:induction false} ReplacedOk(m: Memory, free: set<nat>, s: Space, i: nat, e: Entry, m': Memory, free': set<nat>)
    requires i < SLOTS && Replaced(m, free, s, i, e, m', free') && free !! m.Keys
    ensures SpaceOk(m', free', s.(shared := s.shared[i := false]))
    ensures forall v: nat :: Index(v, 0) != i ==> Translate(m', s, v) == Translate(m, s, v)
  {
    ReplacedShape(m, free, s, i, e, m', free');
    forall v: nat | Index(v, 0) != i
      ensures Translate(m', s, v) == Translate(m, s, v)
    {
      ReplacedWalk(m, free, s, i, e, m', free', v);
    }
  }

  lemma {:induction false} ReplacedWalk(m: Memory, free: set<nat>, s: Space, i: nat, e: Entry, m': Memory, free': set<nat>, v: nat)
    requires i < SLOTS && Replaced(m, free, s, i, e, m', free') && free !! m.Keys && Index(v, 0) != i
    ensures Translate(m', s, v) == Translate(m, s, v)
  {
    hide Pages, ChildPages, IsTree, Owned;
    var j := Index(v, 0);
    OtherSlots(m, free, s, i, e, m', free', j);
    if m[s.root][j].p { WalkFrame(m, m', m[s.root][j].frame, 1, v); }
  }

  lemma {:induction false} ReplacedShape(m: Memory, free: set<nat>, s: Space, i: nat, e: Entry, m': Memory, free': set<nat>)
    requires i < SLOTS && Replaced(m, free, s, i, e, m', free') && free !! m.Keys
    ensures SpaceOk(m', free', s.(shared := s.shared[i := false]))
  {
    hide Pages, ChildPages, IsTree, Normal, Walk, WalkEntry;
    forall j | 0 <= j < SLOTS && j != i
      ensures Agree(m, m', SlotPages(m, s.root, j)) && SlotPages(m', s.root, j) == SlotPages(m, s.root, j)
      ensures m[s.root][j].p && !s.shared[j] ==> PrivateOk(m', m[s.root][j])
      ensures SlotPages(m, s.root, j) !! free'
      ensures SlotPages(m, s.root, j) !! LinkPages(m', e, 0)
    {
      OtherSlots(m, free, s, i, e, m', free', j);
      if m[s.root][j].p && !s.shared[j] { TreeInMemory(m, m[s.root][j].frame, 1); }
    }
    assert SlotPages(m', s.root, i) == LinkPages(m', e, 0);
  }

  lemma {:induction false} SpacePages(m: Memory, free: set<nat>, s: Space)
    requires SpaceOk(m, free, s) && free !! m.Keys
    ensures Pages(m, s.root, 0) !! free && Owned(m, s) <= Pages(m, s.root, 0)
  {
    forall i | 0 <= i < SLOTS && m[s.root][i].p
      ensures SlotPages(m, s.root, i) !! free && SlotPages(m, s.root, i) <= Pages(m, s.root, 0)
    {
      ChildIn(m, s.root, 0, i);
      if !s.shared[i] { TreeInMemory(m, m[s.root][i].frame, 1); }
    }
  }

  /** A space none of whose pages changed is as it was. */
  lemma {:induction false} Untouched(m: Memory, free: set<nat>, s: Space, m': Memory, free': set<nat>)
    requires SpaceOk(m, free, s) && Agree(m, m', Pages(m, s.root, 0)) && free' !! Pages(m, s.root, 0)
    ensures SpaceOk(m', free', s)
    ensures Owned(m', s) == Owned(m, s) && Pages(m', s.root, 0) == Pages(m, s.root, 0)
    ensures SameWalksBelow(m, s.root, m', s.root, 0, SLOTS)
  {
    hide Pages, ChildPages, IsTree, Walk, WalkEntry, Index, Span;
    PagesFrame(m, m', s.root, 0);
    WalksFrame(m, m', s.root, 0);
    SelfPage(m, s.root, 0);
    forall i | 0 <= i < SLOTS
      ensures SlotPages(m', s.root, i) == SlotPages(m, s.root, i) <= Pages(m, s.root, 0)
      ensures m[s.root][i].p && !s.shared[i] ==> PrivateOk(m', m[s.root][i])
    {
      if m[s.root][i].p {
        ChildIn(m, s.root, 0, i);
        PagesFrame(m, m', m[s.root][i].frame, 1);
        WalksFrame(m, m', m[s.root][i].frame, 1);
      }
    }
  }

  lemma {:induction false} ReplacedSlot(m: Memory, free: set<nat>, s: Space, i: nat, e: Entry, m': Memory, free': set<nat>, j: nat)
    requires i < SLOTS && Replaced(m, free, s, i, e, m', free') && free !! m.Keys && j < SLOTS
    ensures SlotPages(m', s.root, j) == if j == i then LinkPages(m', e, 0) else SlotPages(m, s.root, j)
    ensures SlotPages(m, s.root, j) <= Pages(m, s.root, 0)
    ensures !s.shared[j] ==> SlotPages(m, s.root, j) <= Owned(m, s)
  {
    if j != i { OtherSlots(m, free, s, i, e, m', free', j); }
    if m[s.root][j].p { ChildIn(m, s.root, 0, j); }
  }

  lemma {:induction false} ReplacedPages(m: Memory, free: set<nat>, s: Space, i: nat, e: Entry, m': Memory, free': set<nat>)
    requires i < SLOTS && Replaced(m, free, s, i, e, m', free') && free !! m.Keys
    ensures Pages(m', s.root, 0) <= Pages(m, s.root, 0) + LinkPages(m', e, 0)
    ensures Owned(m', s.(shared := s.shared[i := false])) <= Owned(m, s) + LinkPages(m', e, 0)
  {
    var s' := s.(shared := s.shared[i := false]);
    forall q | q in Pages(m', s.root, 0)
      ensures q in Pages(m, s.root, 0) + LinkPages(m', e, 0)
    {
      if q != s.root {
        var j :| 0 <= j < SLOTS && IsLink(m'[s.root][j], 0) && q in Pages(m', m'[s.root][j].frame, 1);
        hide Pages, ChildPages, IsTree, SpaceOk;
        assert q in SlotPages(m', s.root, j);
        ReplacedSlot(m, free, s, i, e, m', free', j);
      }
    }
    forall q | q in Owned(m', s')
      ensures q in Owned(m, s) + LinkPages(m', e, 0)
    {
      if q != s.root {
        var j :| 0 <= j < SLOTS && !s'.shared[j] && q in SlotPages(m', s.root, j);
        ReplacedSlot(m, free, s, i, e, m', free', j);
      }
    }
  }

  lemma {:induction false} OtherSpace(m: Memory, free: set<nat>, s: Space, i: nat, e: Entry, m': Memory, free': set<nat>, o: Space)
    requires i < SLOTS && free !! m.Keys && Replaced(m, free, s, i, e, m', free')
    requires SpaceOk(m, free, o) && Apart(m, s, o)
    ensures SpaceOk(m', free', o) && SameWalksBelow(m, o.root, m', o.root, 0, SLOTS)
    ensures Owned(m', o) == Owned(m, o) && Pages(m', o.root, 0) == Pages(m, o.root, 0)
    ensures Pages(m, o.root, 0) !! free && Owned(m, o) <= Pages(m, o.root, 0)
  {
    hide Pages, ChildPages, IsTree, SameWalksBelow;
    SpacePages(m, free, o);
    GoneOwned(m, free, s, i);
    Untouched(m, free, o, m', free');
  }

  /** Replacing a slot of space `k` keeps every space in order and every other space's walks. */
  lemma {:induction false} AllReplaced(m: Memory, free: set<nat>, ss: seq<Space>, k: nat, i: nat, e: Entry, m': Memory, free': set<nat>)
    requires k < |ss| && i < SLOTS && AllOk(m, free, ss) && Replaced(m, free, ss[k], i, e, m', free')
    ensures AllOk(m', free', ss[k := ss[k].(shared := ss[k].shared[i := false])])
    ensures forall j :: 0 <= j < |ss| && j != k ==> SameWalksBelow(m, ss[j].root, m', ss[j].root, 0, SLOTS)
  {
    hide Pages, ChildPages, IsTree, SameWalksBelow;
    ReplacedOk(m, free, ss[k], i, e, m', free');
    ReplacedPages(m, free, ss[k], i, e, m', free');
    forall j | 0 <= j < |ss| && j != k
      ensures SpaceOk(m', free', ss[j]) && SameWalksBelow(m, ss[j].root, m', ss[j].root, 0, SLOTS)
      ensures Owned(m', ss[j]) == Owned(m, ss[j]) && Pages(m', ss[j].root, 0) == Pages(m, ss[j].root, 0)
      ensures Pages(m, ss[j].root, 0) !! free && Owned(m, ss[j]) <= Pages(m, ss[j].root, 0)
    {
      OtherSpace(m, free, ss[k], i, e, m', free', ss[j]);
    }
    var ss' := ss[k := ss[k].(shared := ss[k].shared[i := false])];
    forall j, l | 0 <= j < |ss'| && 0 <= l < |ss'| && j != l
      ensures Apart(m', ss'[l], ss'[j])
    {
      assert Apart(m, ss[l], ss[j]);
    }
    SpacePages(m, free, ss[k]);
    GoneOwned(m, free, ss[k], i);
    assert m'.Keys !! free';
  }

  lemma {:induction false} GoneOwned(m: Memory, free: set<nat>, s: Space, i: nat)
    requires SpaceOk(m, free, s) && i < SLOTS
    ensures {s.root} + Gone(m, s, i) <= Owned(m, s)
  {
  }

  /** A detached table at `r`, made only of pages taken since `m0`, whose last entries carry the rights. */
  ghost predicate Building(m0: Memory, f0: set<nat>, m: Memory, f: set<nat>, r: nat) {
    && f0 !! m0.Keys && Pages(m, r, 1) <= f0 && f == f0 - Pages(m, r, 1)
    && m.Keys == m0.Keys + Pages(m, r, 1) && Agree(m0, m, m0.Keys)
    && IsTree(m, r, 1) && Normal(m, r, 1)
  }

  /** The table at `r` grants what the root entry `e` of `m0` did. */
  ghost predicate StandsFor(m0: Memory, e: Entry, m: Memory, r: nat) {
    forall v: nat {:trigger Walk(m, r, 1, v)} :: SameAccess(WalkEntry(m0, e, 0, v), Walk(m, r, 1, v))
  }

  lemma {:induction false} PrivateCopy(m0: Memory, e: Entry, m: Memory, r: nat)
    requires e.p && PrivateOk(m0, e) && SameWalksBelow(m0, e.frame, m, r, 1, SLOTS)
    ensures Normal(m, r, 1) && StandsFor(m0, e, m, r)
  {
    forall v: nat
      ensures Walk(m, r, 1, v) == Walk(m0, e.frame, 1, v) == WalkEntry(m0, e, 0, v)
    {
      assert Index(v, 1) < SLOTS;
    }
  }

  lemma {:induction false} InheritedCopy(m0: Memory, e: Entry, m1: Memory, m: Memory, r: nat)
    requires e.p && !e.u && SameWalksBelow(m0, e.frame, m1, r, 1, SLOTS) && RestrictedBelow(m1, m, r, 1, SLOTS, e.w, e.nx)
    ensures Normal(m, r, 1) && StandsFor(m0, e, m, r)
  {
    forall v: nat
      ensures Walk(m, r, 1, v) == Restricted(Walk(m0, e.frame, 1, v), e.w, e.nx)
    {
      assert Walk(m1, r, 1, v) == Walk(m0, e.frame, 1, v);
    }
  }

  lemma {:induction false} EmptyTable(m0: Memory, e: Entry, m: Memory, r: nat, level: nat)
    requires 1 <= level <= 3 && r in m && m[r] == ZERO_TABLE
    ensures IsTree(m, r, level) && Pages(m, r, level) == {r} && Normal(m, r, level)
    ensures !e.p && level == 1 ==> StandsFor(m0, e, m, r)
    ensures forall v: nat :: Walk(m, r, level, v) == None
  {
    assert ChildPages(m, r, level, SLOTS) == {};
  }

  /** Memory after slot `i` of the root took the built table and the pages it replaces were given back. */
  lemma {:induction false} Commit(m0: Memory, f0: set<nat>, s: Space, i: nat, m: Memory, f: set<nat>, r: nat, e: Entry, m3: Memory)
    requires i < SLOTS && SpaceOk(m0, f0, s) && Building(m0, f0, m, f, r) && IsOpen(e) && e.frame == r
    requires m3 == m[s.root := m[s.root][i := e]] - Gone(m0, s, i)
    ensures Replaced(m0, f0, s, i, e, m3, f + Gone(m0, s, i))
    ensures SameWalksBelow(m, r, m3, r, 1, SLOTS) && LinkPages(m3, e, 0) == Pages(m, r, 1)
    ensures m3.Keys + (f + Gone(m0, s, i)) == m0.Keys + f0
  {
    assert LinkPages(m, e, 0) == Pages(m, r, 1);
    if m0[s.root][i].p && !s.shared[i] { TreeInMemory(m0, m0[s.root][i].frame, 1); }
    PagesFrame(m, m3, r, 1);
    WalksFrame(m, m3, r, 1);
  }

  lemma {:induction false} StandsOn(m0: Memory, e: Entry, m1: Memory, m2: Memory, r: nat)
    requires StandsFor(m0, e, m1, r) && SameWalksBelow(m1, r, m2, r, 1, SLOTS)
    ensures StandsFor(m0, e, m2, r) && SameWalksBelow(m2, r, m2, r, 1, SLOTS)
  {
    forall v: nat ensures SameAccess(WalkEntry(m0, e, 0, v), Walk(m2, r, 1, v)) {
      assert Index(v, 1) < SLOTS && Walk(m1, r, 1, v) == Walk(m2, r, 1, v);
    }
  }

  lemma {:induction false} StillEmpty(m0: Memory, e: Entry, m1: Memory, m: Memory, r: nat, shared: bool, w: bool, nx: bool)
    requires !e.p && forall v: nat :: Walk(m1, r, 1, v) == None
    requires if shared then RestrictedBelow(m1, m, r, 1, SLOTS, w, nx) else m == m1
    ensures Normal(m, r, 1) && StandsFor(m0, e, m, r)
  {
    forall v: nat
      ensures Walk(m, r, 1, v) == None
    {
      assert Walk(m1, r, 1, v) == None && Index(v, 1) < SLOTS;
    }
  }

  lemma {:induction false} OpenedStep(m0: Memory, f0: set<nat>, mb: Memory, m: Memory, f: set<nat>, r: nat, vpn: nat, t: nat, level: nat,
                                      m1: Memory, f1: set<nat>, e2: Entry)
    requires 1 <= level < 3 && Building(m0, f0, m, f, r) && SameWalksBelow(mb, r, m, r, 1, SLOTS)
    requires t in m && OpenPath(m, r, 1, vpn, t, level)
    requires Opened(m, m[t][Index(vpn, level)], m1, e2, level, Index(vpn, level))
    requires var c := if IsLink(m[t][Index(vpn, level)], level) then {} else {e2.frame};
             c <= f && f1 == f - c && m1.Keys == m.Keys + c
    ensures t in m1 && var m2 := m1[t := m1[t][Index(vpn, level) := e2]];
            && Building(m0, f0, m2, f1, r) && SameWalksBelow(mb, r, m2, r, 1, SLOTS)
            && OpenPath(m2, r, 1, vpn, e2.frame, level + 1) && e2.frame in m2
  {
    hide Pages, ChildPages, IsTree, OpenPath, Walk, WalkEntry, Span;
    var m2 := m1[t := m1[t][Index(vpn, level) := e2]];
    OpenStep(m, r, vpn, t, level, m1, e2, m2);
    PathPages(m, r, 1, vpn, t, level);
    PathPages(m2, r, 1, vpn, e2.frame, level + 1);
    OpenedPages(m, r, t, level, m1, e2, Index(vpn, level));
    forall v: nat
      ensures Walk(m2, r, 1, v) == Walk(m, r, 1, v) == Walk(mb, r, 1, v)
    {
      assert Index(v, 1) < SLOTS;
    }
  }

  lemma {:induction false} OpenedPages(m: Memory, r: nat, t: nat, level: nat, m1: Memory, e2: Entry, i: nat)
    requires 1 <= level < 3 && i < SLOTS && IsTree(m, t, level) && Pages(m, t, level) <= Pages(m, r, 1)
    requires Opened(m, m[t][i], m1, e2, level, i)
    ensures t in Pages(m, r, 1)
    ensures Pages(m, r, 1) + LinkPages(m1, e2, level) ==
            Pages(m, r, 1) + (if IsLink(m[t][i], level) then {} else {e2.frame})
  {
    if IsLink(m[t][i], level) { ChildIn(m, t, level, i); }
  }

  lemma {:induction false} OpenStart(m: Memory, r: nat, vpn: nat)
    requires IsTree(m, r, 1)
    ensures r in m && OpenPath(m, r, 1, vpn, r, 1) && SameWalksBelow(m, r, m, r, 1, SLOTS)
  {
  }

  lemma {:induction false} EmptyReplaces(m: Memory, e: Entry, m1: Memory, c: nat, level: nat, i: nat)
    requires level < 3 && !e.p && c in m1 && m1[c] == ZERO_TABLE
    ensures IsTree(m1, c, level + 1) && Pages(m1, c, level + 1) == {c} && ReplacesEntry(m, e, m1, c, level, i)
  {
    EmptyTable(m, e, m1, c, level + 1);
  }

  const PAGES: nat := 68719476736

  /** Exactly the page `vpn` changed: it now leads to `frame` for user mode, writable or not, and executable. */
  ghost predicate MapsOnly(m: Memory, s: Space, m': Memory, s': Space, vpn: nat, frame: nat, writable: bool) {
    && Translate(m', s', vpn) == Some(Mapping(frame, Rights(writable, true, false), Rights(writable, true, false), false, 0, false))
    && forall v: nat {:trigger Translate(m', s', v)} :: v < PAGES && v != vpn ==> SameAccess(Translate(m, s, v), Translate(m', s', v))
  }

  /** The table at `r` grants what the root entry `e` of `m0` did, except that page `vpn` is `leaf`. */
  ghost predicate Adds(m0: Memory, e: Entry, m: Memory, r: nat, vpn: nat, leaf: Entry) {
    forall v: nat {:trigger Walk(m, r, 1, v)} ::
      if v % REGION == vpn % REGION then Walk(m, r, 1, v) == Some(Mapping(leaf.frame, RightsOf(leaf), RightsOf(leaf), leaf.global, leaf.cache, leaf.large))
      else SameAccess(WalkEntry(m0, e, 0, v), Walk(m, r, 1, v))
  }

  lemma {:induction false} AddsLeaf(m0: Memory, e: Entry, m1: Memory, m2: Memory, m3: Memory, r: nat, vpn: nat, leaf: Entry)
    requires StandsFor(m0, e, m1, r) && SameWalksBelow(m1, r, m2, r, 1, SLOTS) && leaf.p
    requires forall v: nat :: Walk(m3, r, 1, v) == Rewalk(Walk(m2, r, 1, v), vpn, leaf, v)
    ensures Adds(m0, e, m3, r, vpn, leaf)
  {
    forall v: nat
      ensures Walk(m3, r, 1, v) == Rewalk(Walk(m1, r, 1, v), vpn, leaf, v)
    {
      assert Index(v, 1) < SLOTS && Walk(m3, r, 1, v) == Rewalk(Walk(m2, r, 1, v), vpn, leaf, v);
    }
  }

  lemma {:induction false} PageOf(v: nat, vpn: nat)
    requires v < PAGES && vpn < PAGES && Index(v, 0) == Index(vpn, 0)
    ensures v % REGION == vpn % REGION <==> v == vpn
  {
  }

  lemma {:induction false} MapResult(m0: Memory, f0: set<nat>, s: Space, m3: Memory, m4: Memory, f4: set<nat>,
                                     r: nat, e: Entry, vpn: nat, leaf: Entry, shared': seq<bool>)
    requires vpn < PAGES && f0 !! m0.Keys && Replaced(m0, f0, s, Index(vpn, 0), e, m4, f4) && IsOpen(e) && e.frame == r
    requires Adds(m0, m0[s.root][Index(vpn, 0)], m3, r, vpn, leaf) && SameWalksBelow(m3, r, m4, r, 1, SLOTS)
    requires leaf.p && leaf.u && !leaf.nx && !leaf.global && leaf.cache == 0 && !leaf.large
    ensures MapsOnly(m0, s, m4, s.(shared := shared'), vpn, leaf.frame, leaf.w)
  {
    var i := Index(vpn, 0);
    hide IsTree, Pages, ChildPages, SpaceOk, Owned, Index, Span;
    ReplacedOk(m0, f0, s, i, e, m4, f4);
    forall v: nat | v < PAGES
      ensures Translate(m4, s.(shared := shared'), v) == Translate(m4, s, v)
      ensures v == vpn ==> Translate(m4, s, v) == Some(Mapping(leaf.frame, RightsOf(leaf), RightsOf(leaf), leaf.global, leaf.cache, leaf.large))
      ensures v != vpn ==> SameAccess(Translate(m0, s, v), Translate(m4, s, v))
    {
      if Index(v, 0) == i {
        PageOf(v, vpn);
        assert Index(v, 1) < SLOTS;
        assert Walk(m4, r, 1, v) == Walk(m3, r, 1, v);
        assert Translate(m4, s, v) == Through(e, Walk(m4, r, 1, v));
        ThroughOpen(e, e, Walk(m4, r, 1, v));
      }
    }
  }

  /** A user page may take the place of nothing, or of the kernel's own identity mapping: not global, closed to user
      mode, and below the kernel image. */
  predicate Yields(o: Option<Mapping>, vpn: nat, belowKernel: bool) {
    o.Some? ==> o.value.frame == vpn && !o.value.eff.u && !o.value.global && belowKernel
  }

  /** What the page was mapped to before is what its last slot holds once the path is open. */
  lemma {:induction false} OldMapping(m0: Memory, s: Space, m1: Memory, m2: Memory, r: nat, vpn: nat, t: nat)
    requires s.root in m0 && t in m2 && OpenPath(m2, r, 1, vpn, t, 3)
    requires StandsFor(m0, m0[s.root][Index(vpn, 0)], m1, r) && SameWalksBelow(m1, r, m2, r, 1, SLOTS)
    requires Normal(m2, r, 1)
    ensures var e := m2[t][Index(vpn, 3)];
            var o := Translate(m0, s, vpn);
            o.Some? == e.p && (e.p ==> o.value.frame == e.frame && o.value.eff == RightsOf(e) && o.value.global == e.global)
  {
    PathWalk(m2, r, 1, vpn, t, 3, vpn) by { SamePage(vpn, vpn); }
    assert Walk(m1, r, 1, vpn) == Walk(m2, r, 1, vpn) by { assert Index(vpn, 1) < SLOTS; }
  }

  lemma {:induction false} SlotFacts(m: Memory, f: set<nat>, ss: seq<Space>, k: nat, i: nat)
    requires AllOk(m, f, ss) && k < |ss| && i < SLOTS
    ensures f !! m.Keys && SpaceOk(m, f, ss[k]) && ss[k].root in m && |ss[k].shared| == SLOTS
    ensures var e := m[ss[k].root][i];
            && LinkPages(m, e, 0) !! f
            && (e.p ==> if ss[k].shared[i] then !e.u else PrivateOk(m, e))
  {
    var s := ss[k];
    assert SpaceOk(m, f, s);
    if m[s.root][i].p && !s.shared[i] { TreeInMemory(m, m[s.root][i].frame, 1); }
    assert LinkPages(m, m[s.root][i], 0) == SlotPages(m, s.root, i);
  }

  lemma {:induction false} LeafBuilt(m0: Memory, f0: set<nat>, m: Memory, f: set<nat>, r: nat, vpn: nat, t: nat, leaf: Entry)
    requires Building(m0, f0, m, f, r) && t in m && OpenPath(m, r, 1, vpn, t, 3)
    ensures var m3 := m[t := m[t][Index(vpn, 3) := leaf]];
            && Building(m0, f0, m3, f, r) && Pages(m3, r, 1) == Pages(m, r, 1)
            && forall v: nat :: Walk(m3, r, 1, v) == Rewalk(Walk(m, r, 1, v), vpn, leaf, v)
  {
    hide IsTree, Pages, ChildPages, OpenPath, Index, Span, WalkEntry;
    var m3 := m[t := m[t][Index(vpn, 3) := leaf]];
    LeafWrite(m, r, vpn, t, leaf, m3);
    PathPages(m, r, 1, vpn, t, 3);
    LastLevel(m, t);
    assert t in Pages(m, r, 1);
  }

  /** The table a private slot gives up is still whole after the root took the new one. */
  lemma {:induction false} OldSubtree(m0: Memory, f0: set<nat>, s: Space, i: nat, m: Memory, f: set<nat>, r: nat, e: Entry)
    requires i < SLOTS && SpaceOk(m0, f0, s) && Building(m0, f0, m, f, r)
    ensures s.root in m && m[s.root] == m0[s.root] && var x := m0[s.root][i]; var m4 := m[s.root := m[s.root][i := e]];
            if !s.shared[i] && x.p then IsTree(m4, x.frame, 1) && Pages(m4, x.frame, 1) == Gone(m0, s, i)
            else Gone(m0, s, i) == {}
    ensures f !! m.Keys + {s.root}
  {
    var x := m0[s.root][i];
    if !s.shared[i] && x.p {
      TreeInMemory(m0, x.frame, 1);
      assert s.root !in SlotPages(m0, s.root, i);
      PagesFrame(m0, m[s.root := m[s.root][i := e]], x.frame, 1);
    }
  }

  /** The kernel's own tables are in use and no space owns any of them. */
  ghost predicate KernelOk(m: Memory, free: set<nat>, kernel: nat, ss: seq<Space>) {
    && kernel in m && Pages(m, kernel, 0) !! free
    && forall k :: 0 <= k < |ss| ==> Apart(m, ss[k], Space(kernel, ss[k].shared))
  }

  lemma {:induction false} KernelReplaced(m: Memory, free: set<nat>, kernel: nat, ss: seq<Space>, k: nat, i: nat, e: Entry, m': Memory, free': set<nat>)
    requires k < |ss| && i < SLOTS && AllOk(m, free, ss) && KernelOk(m, free, kernel, ss) && Replaced(m, free, ss[k], i, e, m', free')
    ensures KernelOk(m', free', kernel, ss[k := ss[k].(shared := ss[k].shared[i := false])])
    ensures SameWalksBelow(m, kernel, m', kernel, 0, SLOTS)
  {
    hide Pages, ChildPages, IsTree, SameWalksBelow;
    GoneOwned(m, free, ss[k], i);
    SelfPage(m, kernel, 0);
    assert Apart(m, ss[k], Space(kernel, ss[k].shared));
    PagesFrame(m, m', kernel, 0);
    WalksFrame(m, m', kernel, 0);
    ReplacedPages(m, free, ss[k], i, e, m', free');
    var ss' := ss[k := ss[k].(shared := ss[k].shared[i := false])];
    forall j | 0 <= j < |ss'|
      ensures Apart(m', ss'[j], Space(kernel, ss'[j].shared))
    {
      assert Apart(m, ss[j], Space(kernel, ss[j].shared));
      if j != k { OtherSpace(m, free, ss[k], i, e, m', free', ss[j]); }
    }
  }

  /** Page `a` is a table of the kernel or of one of the spaces. */
  ghost predicate InTables(m: Memory, kernel: nat, ss: seq<Space>, a: nat) {
    Uses(m, kernel, 0, a) || exists k :: 0 <= k < |ss| && Uses(m, ss[k].root, 0, a)
  }

  /** Building a detached table does not change which pages are tables. */
  lemma {:induction false} TablesSame(m0: Memory, f0: set<nat>, m: Memory, f: set<nat>, r: nat, ss: seq<Space>, kernel: nat, a: nat)
    requires AllOk(m0, f0, ss) && KernelOk(m0, f0, kernel, ss) && Building(m0, f0, m, f, r)
    ensures InTables(m0, kernel, ss, a) <==> InTables(m, kernel, ss, a)
  {
    hide Pages, ChildPages, IsTree, Uses, Normal;
    UsesFrame(m0, m, kernel, 0, a);
    forall k | 0 <= k < |ss| ensures Uses(m0, ss[k].root, 0, a) <==> Uses(m, ss[k].root, 0, a) {
      SpacePages(m0, f0, ss[k]);
      UsesFrame(m0, m, ss[k].root, 0, a);
    }
  }

  /** Tables that the replaced slot does not lead to are where they were. */
  lemma {:induction false} SharedKept(m: Memory, free: set<nat>, s: Space, i: nat, e: Entry, m': Memory, free': set<nat>, root: nat, a: nat)
    requires i < SLOTS && free !! m.Keys && Replaced(m, free, s, i, e, m', free')
    requires Owned(m, s) !! Pages(m, root, 0) && Pages(m, root, 0) !! free
    ensures Uses(m, root, 0, a) <==> Uses(m', root, 0, a)
  {
    hide Pages, ChildPages, IsTree, Uses;
    GoneOwned(m, free, s, i);
    UsesFrame(m, m', root, 0, a);
  }

  lemma {:induction false} OwnTables(m: Memory, free: set<nat>, s: Space, i: nat, e: Entry, m': Memory, free': set<nat>, a: nat)
    requires i < SLOTS && free !! m.Keys && Replaced(m, free, s, i, e, m', free')
    requires !Uses(m, s.root, 0, a) && a !in LinkPages(m', e, 0)
    ensures !Uses(m', s.root, 0, a)
  {
    hide Pages, ChildPages, IsTree;
    forall j | 0 <= j < SLOTS && m'[s.root][j].p && !m'[s.root][j].large ensures !Uses(m', m'[s.root][j].frame, 1, a) {
      if j == i {
        UsesIs(m', e.frame, 1, a);
      } else {
        OtherSlots(m, free, s, i, e, m', free', j);
        UsesFrame(m, m', m[s.root][j].frame, 1, a);
      }
    }
  }

  /** A page that was no table, and is none of the new ones, is no table afterwards. */
  lemma {:induction false} TablesKept(m: Memory, free: set<nat>, ss: seq<Space>, k: nat, i: nat, e: Entry, m': Memory, free': set<nat>,
                                      kernel: nat, a: nat, ss': seq<Space>)
    requires k < |ss| && i < SLOTS && AllOk(m, free, ss) && KernelOk(m, free, kernel, ss) && Replaced(m, free, ss[k], i, e, m', free')
    requires !InTables(m, kernel, ss, a) && a !in LinkPages(m', e, 0)
    requires |ss'| == |ss| && forall j :: 0 <= j < |ss| ==> ss'[j].root == ss[j].root
    ensures !InTables(m', kernel, ss', a)
  {
    hide Pages, ChildPages, IsTree, Uses, Replaced, LinkPages;
    assert Apart(m, ss[k], Space(kernel, ss[k].shared));
    SharedKept(m, free, ss[k], i, e, m', free', kernel, a);
    forall j | 0 <= j < |ss| ensures !Uses(m', ss[j].root, 0, a) {
      assert !Uses(m, ss[j].root, 0, a);
      if j == k { OwnTables(m, free, ss[k], i, e, m', free', a); }
      else {
        SpacePages(m, free, ss[j]);
        assert Apart(m, ss[k], ss[j]);
        SharedKept(m, free, ss[k], i, e, m', free', ss[j].root, a);
      }
    }
  }

  /** Only one page was taken, and it was not in use. */
  lemma {:induction false} SpaceBeforeNew(m: Memory, free: set<nat>, s: Space, m': Memory, r: nat)
    requires SpaceOk(m, free, s) && free !! m.Keys && r in free && m'.Keys == m.Keys + {r} && Agree(m, m', m.Keys)
    ensures SpaceOk(m', free - {r}, s) && Owned(m', s) == Owned(m, s) && Pages(m', s.root, 0) == Pages(m, s.root, 0)
    ensures r !in Pages(m, s.root, 0) && Owned(m, s) <= Pages(m, s.root, 0)
  {
    hide Pages, ChildPages, IsTree;
    SpacePages(m, free, s);
    Untouched(m, free, s, m', free - {r});
  }

  /** A root that holds the kernel root's present entries, all marked inherited, is a space in order. */
  lemma {:induction false} NewSpace(m: Memory, free: set<nat>, kernel: nat, ss: seq<Space>, m': Memory, s: Space)
    requires AllOk(m, free, ss) && KernelOk(m, free, kernel, ss)
    requires s.root in free && m'.Keys == m.Keys + {s.root} && Agree(m, m', m.Keys) && |s.shared| == SLOTS
    requires forall i :: 0 <= i < SLOTS ==>
               s.shared[i] == m[kernel][i].p && !(m[kernel][i].p && m[kernel][i].u) &&
               m'[s.root][i] == if m[kernel][i].p then m[kernel][i] else ZERO_ENTRY
    ensures AllOk(m', free - {s.root}, ss + [s]) && KernelOk(m', free - {s.root}, kernel, ss + [s])
    ensures forall v: nat :: Walk(m', s.root, 0, v) == Walk(m, kernel, 0, v)
    ensures forall k :: 0 <= k < |ss| ==> SameWalksBelow(m, ss[k].root, m', ss[k].root, 0, SLOTS)
  {
    hide IsTree, ChildPages, SameWalksBelow, Span, Index;
    PagesFrame(m, m', kernel, 0);
    forall i | 0 <= i < SLOTS
      ensures SlotPages(m', s.root, i) <= Pages(m, kernel, 0)
    {
      if m[kernel][i].p { ChildIn(m', kernel, 0, i); }
    }
    NewRootPages(m', s, Pages(m, kernel, 0));
    forall k | 0 <= k < |ss|
      ensures SpaceOk(m', free - {s.root}, ss[k]) && Apart(m', ss[k], s) && Apart(m', s, ss[k])
      ensures Apart(m', ss[k], Space(kernel, ss[k].shared))
      ensures SameWalksBelow(m, ss[k].root, m', ss[k].root, 0, SLOTS)
    {
      assert SpaceOk(m, free, ss[k]) && Apart(m, ss[k], Space(kernel, ss[k].shared));
      SpaceBeforeNew(m, free, ss[k], m', s.root);
      WalksFrame(m, m', ss[k].root, 0);
    }
    forall j, k | 0 <= j < |ss| && 0 <= k < |ss| && j != k
      ensures Apart(m', ss[k], ss[j])
    {
      assert Apart(m, ss[k], ss[j]);
      SpaceBeforeNew(m, free, ss[k], m', s.root);
      SpaceBeforeNew(m, free, ss[j], m', s.root);
    }
    forall v: nat
      ensures Walk(m', s.root, 0, v) == Walk(m, kernel, 0, v)
    {
      WalkFrame(m, m', kernel, 0, v);
      assert m'[kernel] == m[kernel];
    }
  }

  lemma {:induction false} NewRootPages(m: Memory, s: Space, kernelPages: set<nat>)
    requires s.root in m && |s.shared| == SLOTS
    requires forall i :: 0 <= i < SLOTS ==> SlotPages(m, s.root, i) <= kernelPages && (!s.shared[i] ==> !m[s.root][i].p)
    ensures Owned(m, s) == {s.root} && Pages(m, s.root, 0) <= {s.root} + kernelPages
  {
  }
}
