/** Four-level page tables kept in physical memory: what an entry grants, what a walk yields, and
    which pages a table is made of. Addresses are counted in 4 KiB pages throughout. */
module PageTables {
  import opened Prelude

  datatype Rights = Rights(w: bool, u: bool, nx: bool)

  /** One 64-bit entry: bits 0 to 2, `cache` bits 3 to 5, `large` bit 7, `global` bit 8, `nx` bit 63,
      `frame` bits 12 to 51, and `misc` every other bit. */
  datatype Entry = Entry(p: bool, w: bool, u: bool, cache: nat, large: bool, global: bool, nx: bool, misc: nat, frame: nat)

  const SLOTS: nat := 512
  const ZERO_ENTRY := Entry(false, false, false, 0, false, false, false, 0, 0)
  const ZERO_TABLE: seq<Entry> := seq(512, _ => ZERO_ENTRY)

  type Table = t: seq<Entry> | |t| == 512 witness ZERO_TABLE

  /** The pages in use that the kernel can read at their physical address. */
  type Memory = map<nat, Table>

  /** What a walk finds: the page, the rights of the last entry alone and those of the whole path, and of the last entry
      whether it is global, its cache bits and its attribute bit. */
  datatype Mapping = Mapping(frame: nat, own: Rights, eff: Rights, global: bool, cache: nat, attribute: bool)

  function Span(level: nat): (n: nat)
    requires level <= 3
    ensures n > 0
  {
    if level == 0 then 134217728 else if level == 1 then 262144 else if level == 2 then 512 else 1
  }

  function Index(vpn: nat, level: nat): (i: nat)
    requires level <= 3
    ensures i < 512
  {
    vpn / Span(level) % 512
  }

  /** The entry points to a table of the next level. The walk ignores bit 7 in the root. */
  predicate IsLink(e: Entry, level: nat) {
    e.p && level < 3 && (level == 0 || !e.large)
  }

  function RightsOf(e: Entry): Rights { Rights(e.w, e.u, e.nx) }

  function Meet(e: Entry, r: Rights): Rights { Rights(e.w && r.w, e.u && r.u, e.nx || r.nx) }

  /** The attribute bit is bit 12 in a large page's entry and bit 7 in that of a 4 KiB page. */
  function Attribute(e: Entry, level: nat): bool { if level == 3 then e.large else e.frame % 2 == 1 }

  function LeafMapping(e: Entry, level: nat, vpn: nat): Mapping
    requires level <= 3
  {
    Mapping(e.frame / Span(level) * Span(level) + vpn % Span(level), RightsOf(e), RightsOf(e), e.global, e.cache, Attribute(e, level))
  }

  function Through(e: Entry, m: Option<Mapping>): Option<Mapping> {
    if m.None? then None else Some(m.value.(eff := Meet(e, m.value.eff)))
  }

  function Walk(mem: Memory, f: nat, level: nat, vpn: nat): (r: Option<Mapping>)
    requires level <= 3
    ensures r.Some? ==> Within(r.value)
    decreases 3 - level, 1
  {
    if f !in mem then None else WalkEntry(mem, mem[f][Index(vpn, level)], level, vpn)
  }

  function WalkEntry(mem: Memory, e: Entry, level: nat, vpn: nat): (r: Option<Mapping>)
    requires level <= 3
    ensures r.Some? ==> Within(r.value)
    decreases 3 - level, 0
  {
    if !e.p then None
    else if IsLink(e, level) then Through(e, Walk(mem, e.frame, level + 1, vpn))
    else Some(LeafMapping(e, level, vpn))
  }

  /** The whole path never grants more than its last entry. */
  predicate Within(m: Mapping) {
    (m.eff.w ==> m.own.w) && (m.eff.u ==> m.own.u) && (m.own.nx ==> m.eff.nx)
  }

  /** Every page of the table at `f`, itself included. */
  ghost function Pages(mem: Memory, f: nat, level: nat): set<nat>
    requires level <= 3
    decreases 3 - level, 1
  {
    {f} + ChildPages(mem, f, level, SLOTS)
  }

  /** The pages of the first `n` children. */
  ghost function ChildPages(mem: Memory, f: nat, level: nat, n: nat): set<nat>
    requires level <= 3 && n <= SLOTS
    decreases 3 - level, 0
  {
    set i, q {:trigger q in Pages(mem, mem[f][i].frame, level + 1)} | 0 <= i < n && f in mem && IsLink(mem[f][i], level) && q in Pages(mem, mem[f][i].frame, level + 1) :: q
  }

  /** No page of the table at `f` is used twice. */
  ghost predicate IsTree(mem: Memory, f: nat, level: nat)
    requires level <= 3
    decreases 3 - level
  {
    && f in mem
    && (forall i :: 0 <= i < SLOTS && IsLink(mem[f][i], level) ==>
          IsTree(mem, mem[f][i].frame, level + 1) && f !in Pages(mem, mem[f][i].frame, level + 1))
    && (forall i, j :: 0 <= i < j < SLOTS && IsLink(mem[f][i], level) && IsLink(mem[f][j], level) ==>
          Pages(mem, mem[f][i].frame, level + 1) !! Pages(mem, mem[f][j].frame, level + 1))
  }

  /** Page `a` is the table at `f` or one that it leads to, as VMMTableUsesAddress searches. */
  ghost predicate Uses(m: Memory, f: nat, level: nat, a: nat)
    requires level <= 3
    decreases 3 - level
  {
    f == a || (level < 3 && f in m && exists i :: 0 <= i < SLOTS && m[f][i].p && !m[f][i].large && Uses(m, m[f][i].frame, level + 1, a))
  }

  /** The two memories hold the same tables on `s`. */
  ghost predicate Agree(m1: Memory, m2: Memory, s: set<nat>) {
    forall p :: p in s ==> (p in m1 <==> p in m2) && (p in m1 ==> m1[p] == m2[p])
  }

  lemma {:induction false} ChildIn(mem: Memory, f: nat, level: nat, i: nat)
    requires level <= 3 && f in mem && i < SLOTS && IsLink(mem[f][i], level)
    ensures Pages(mem, mem[f][i].frame, level + 1) <= ChildPages(mem, f, level, SLOTS) <= Pages(mem, f, level)
  {
  }

  /** The pages of a link's target; nothing for any other entry. */
  ghost function LinkPages(mem: Memory, e: Entry, level: nat): set<nat>
    requires level <= 3
  {
    if IsLink(e, level) then Pages(mem, e.frame, level + 1) else {}
  }

  lemma {:induction false} NextChild(mem: Memory, f: nat, level: nat, i: nat)
    requires level <= 3 && i < SLOTS && IsTree(mem, f, level)
    ensures ChildPages(mem, f, level, i + 1) == ChildPages(mem, f, level, i) + LinkPages(mem, mem[f][i], level)
    ensures ChildPages(mem, f, level, i) !! LinkPages(mem, mem[f][i], level)
    ensures f !in ChildPages(mem, f, level, i + 1)
    ensures LinkPages(mem, mem[f][i], level) <= mem.Keys
  {
    if IsLink(mem[f][i], level) { TreeInMemory(mem, mem[f][i].frame, level + 1); }
  }

  lemma {:induction false} TreeInMemory(m: Memory, f: nat, level: nat)
    requires level <= 3 && IsTree(m, f, level)
    ensures Pages(m, f, level) <= m.Keys
    decreases 3 - level
  {
    forall i | 0 <= i < SLOTS && IsLink(m[f][i], level)
      ensures Pages(m, m[f][i].frame, level + 1) <= m.Keys
    {
      TreeInMemory(m, m[f][i].frame, level + 1);
    }
  }

  lemma {:induction false} PagesFrame(m1: Memory, m2: Memory, f: nat, level: nat)
    requires level <= 3 && Agree(m1, m2, Pages(m1, f, level))
    ensures Pages(m2, f, level) == Pages(m1, f, level)
    ensures IsTree(m2, f, level) == IsTree(m1, f, level)
    decreases 3 - level
  {
    if f in m1 {
      forall i | 0 <= i < SLOTS && IsLink(m1[f][i], level)
        ensures Pages(m2, m1[f][i].frame, level + 1) == Pages(m1, m1[f][i].frame, level + 1)
        ensures IsTree(m2, m1[f][i].frame, level + 1) == IsTree(m1, m1[f][i].frame, level + 1)
      {
        ChildIn(m1, f, level, i);
        PagesFrame(m1, m2, m1[f][i].frame, level + 1);
      }
      assert ChildPages(m1, f, level, SLOTS) == ChildPages(m2, f, level, SLOTS);
    } else {
      assert f !in m2;
    }
  }

  /** Below the root the search finds exactly the pages of the table; in the root it passes over entries with bit 7. */
  lemma {:induction false} UsesIs(m: Memory, f: nat, level: nat, a: nat)
    requires level <= 3
    ensures Uses(m, f, level, a) ==> a in Pages(m, f, level)
    ensures level > 0 && a in Pages(m, f, level) ==> Uses(m, f, level, a)
    decreases 3 - level
  {
    if level < 3 && f in m {
      forall i | 0 <= i < SLOTS && m[f][i].p && !m[f][i].large
        ensures Uses(m, m[f][i].frame, level + 1, a) <==> a in Pages(m, m[f][i].frame, level + 1)
      {
        UsesIs(m, m[f][i].frame, level + 1, a);
      }
      if level > 0 && a != f && a in Pages(m, f, level) {
        assert a in ChildPages(m, f, level, SLOTS);
        var i :| 0 <= i < SLOTS && IsLink(m[f][i], level) && a in Pages(m, m[f][i].frame, level + 1);
        assert Uses(m, m[f][i].frame, level + 1, a);
      }
    } else {
      assert ChildPages(m, f, level, SLOTS) == {};
    }
  }

  lemma {:induction false} UsesFrame(m1: Memory, m2: Memory, f: nat, level: nat, a: nat)
    requires level <= 3 && Agree(m1, m2, Pages(m1, f, level))
    ensures Uses(m1, f, level, a) <==> Uses(m2, f, level, a)
    decreases 3 - level
  {
    if level < 3 && f in m1 {
      forall i | 0 <= i < SLOTS && m1[f][i].p && !m1[f][i].large
        ensures Uses(m1, m1[f][i].frame, level + 1, a) <==> Uses(m2, m1[f][i].frame, level + 1, a)
      {
        ChildIn(m1, f, level, i);
        UsesFrame(m1, m2, m1[f][i].frame, level + 1, a);
      }
    }
  }

  /** The walks that start in a slot below `n` agree. */
  ghost predicate SameWalksBelow(m0: Memory, f0: nat, m1: Memory, f1: nat, level: nat, n: nat)
    requires level <= 3
  {
    forall v: nat {:trigger Walk(m1, f1, level, v)} :: Index(v, level) < n ==> Walk(m1, f1, level, v) == Walk(m0, f0, level, v)
  }

  lemma {:induction false} WalkFrame(m1: Memory, m2: Memory, f: nat, level: nat, vpn: nat)
    requires level <= 3 && Agree(m1, m2, Pages(m1, f, level))
    ensures Walk(m1, f, level, vpn) == Walk(m2, f, level, vpn)
    decreases 3 - level
  {
    if f in m1 {
      var i := Index(vpn, level);
      if IsLink(m1[f][i], level) {
        ChildIn(m1, f, level, i);
        WalkFrame(m1, m2, m1[f][i].frame, level + 1, vpn);
      }
    }
  }

  lemma {:induction false} WalksFrame(m1: Memory, m2: Memory, f: nat, level: nat)
    requires level <= 3 && Agree(m1, m2, Pages(m1, f, level))
    ensures SameWalksBelow(m1, f, m2, f, level, SLOTS)
  {
    forall v: nat ensures Walk(m2, f, level, v) == Walk(m1, f, level, v) { WalkFrame(m1, m2, f, level, v); }
  }

  /** Slot `i` of the root of a tree may be pointed at another tree that shares no page with the rest. */
  lemma {:induction false} SlotUpdate(m: Memory, t: nat, level: nat, i: nat, e: Entry, m': Memory)
    requires level <= 3 && IsTree(m, t, level) && i < SLOTS
    requires IsLink(e, level) ==> IsTree(m, e.frame, level + 1) && t !in Pages(m, e.frame, level + 1)
    requires IsLink(e, level) ==> forall j :: 0 <= j < SLOTS && j != i && IsLink(m[t][j], level) ==>
                 Pages(m, e.frame, level + 1) !! Pages(m, m[t][j].frame, level + 1)
    requires m' == m[t := m[t][i := e]]
    ensures IsTree(m', t, level)
    ensures Pages(m', t, level) == Pages(m, t, level)
                                   - LinkPages(m, m[t][i], level) + LinkPages(m, e, level)
    ensures forall v: nat :: Walk(m', t, level, v) == WalkEntry(m, m'[t][Index(v, level)], level, v)
    ensures forall j :: 0 <= j < SLOTS && IsLink(m'[t][j], level) ==>
              Pages(m', m'[t][j].frame, level + 1) == Pages(m, m'[t][j].frame, level + 1)
  {
    hide Walk, WalkEntry;
    forall j | 0 <= j < SLOTS && IsLink(m'[t][j], level)
      ensures IsTree(m', m'[t][j].frame, level + 1)
      ensures Pages(m', m'[t][j].frame, level + 1) == Pages(m, m'[t][j].frame, level + 1)
      ensures t !in Pages(m, m'[t][j].frame, level + 1)
    {
      PagesFrame(m, m', m'[t][j].frame, level + 1);
    }
    var gone, new_ := LinkPages(m, m[t][i], level), LinkPages(m, e, level);
    forall q ensures q in Pages(m', t, level) <==> q in Pages(m, t, level) - gone + new_ {
      if q in ChildPages(m', t, level, SLOTS) {
        var j :| 0 <= j < SLOTS && IsLink(m'[t][j], level) && q in Pages(m', m'[t][j].frame, level + 1);
        if j != i { ChildIn(m, t, level, j); }
      }
      if q in ChildPages(m, t, level, SLOTS) && q !in gone {
        var j :| 0 <= j < SLOTS && IsLink(m[t][j], level) && q in Pages(m, m[t][j].frame, level + 1);
        ChildIn(m', t, level, j);
      }
      if q in new_ { ChildIn(m', t, level, i); }
    }
    forall v: nat
      ensures Walk(m', t, level, v) == WalkEntry(m, m'[t][Index(v, level)], level, v)
    {
      SlotWalk(m, m', t, level, v);
    }
  }

  /** A walk goes on below its slot as before when the tables there are the same. */
  lemma {:induction false} SlotWalk(m: Memory, m': Memory, t: nat, level: nat, v: nat)
    requires level <= 3 && t in m'
    requires var x := m'[t][Index(v, level)]; IsLink(x, level) ==> Agree(m, m', Pages(m, x.frame, level + 1))
    ensures Walk(m', t, level, v) == WalkEntry(m, m'[t][Index(v, level)], level, v)
  {
    var x := m'[t][Index(v, level)];
    hide Pages, ChildPages;
    if IsLink(x, level) { WalkFrame(m, m', x.frame, level + 1, v); }
  }

  /** One child of a tree may be rewritten in place, or grow, as long as it keeps off its siblings. */
  lemma {:induction false} ChildUpdate(m: Memory, m': Memory, t: nat, level: nat, i: nat)
    requires level < 3 && IsTree(m, t, level) && i < SLOTS && IsLink(m[t][i], level)
    requires Agree(m, m', Pages(m, t, level) - Pages(m, m[t][i].frame, level + 1))
    requires IsTree(m', m[t][i].frame, level + 1)
    requires Pages(m', m[t][i].frame, level + 1) !! Pages(m, t, level) - Pages(m, m[t][i].frame, level + 1)
    ensures IsTree(m', t, level) && m'[t] == m[t]
    ensures Pages(m', t, level) == Pages(m, t, level) - Pages(m, m[t][i].frame, level + 1) + Pages(m', m[t][i].frame, level + 1)
  {
    forall j | 0 <= j < SLOTS && j != i && IsLink(m[t][j], level)
      ensures IsTree(m', m[t][j].frame, level + 1)
      ensures Pages(m', m[t][j].frame, level + 1) == Pages(m, m[t][j].frame, level + 1)
      ensures Pages(m, m[t][j].frame, level + 1) <= Pages(m, t, level) - Pages(m, m[t][i].frame, level + 1)
    {
      ChildIn(m, t, level, j);
      PagesFrame(m, m', m[t][j].frame, level + 1);
    }
  }

  lemma {:induction false} SelfPage(m: Memory, t: nat, level: nat)
    requires level <= 3
    ensures t in Pages(m, t, level)
  {
  }

  /** The walks through its siblings stay as they were. */
  lemma {:induction false} SiblingWalk(m: Memory, m': Memory, t: nat, level: nat, i: nat, v: nat)
    requires level < 3 && IsTree(m, t, level) && i < SLOTS && IsLink(m[t][i], level)
    requires Agree(m, m', Pages(m, t, level) - Pages(m, m[t][i].frame, level + 1))
    requires Index(v, level) != i
    ensures Walk(m', t, level, v) == Walk(m, t, level, v)
  {
    hide Pages, ChildPages, Index, Span;
    var j := Index(v, level);
    assert t in Pages(m, t, level) - Pages(m, m[t][i].frame, level + 1) by { SelfPage(m, t, level); }
    if IsLink(m[t][j], level) {
      ChildIn(m, t, level, j);
      WalkFrame(m, m', m[t][j].frame, level + 1, v);
    }
  }

  /** Slot `i` of the copy `t` receives entry `e`: the source's own, or one that links to a copied child. */
  ghost predicate Copied(m0: Memory, a: Entry, m1: Memory, e: Entry, level: nat)
    requires level <= 3
  {
    if IsLink(a, level) then
      e == a.(frame := e.frame) && SameWalksBelow(m0, a.frame, m1, e.frame, level + 1, SLOTS)
    else e == a
  }

  lemma {:induction false} CloneStepTree(m: Memory, m1: Memory, m2: Memory, t: nat, level: nat, i: nat, e: Entry)
    requires level <= 3 && i < SLOTS && IsTree(m, t, level) && m[t][i] == ZERO_ENTRY
    requires Agree(m, m1, m.Keys)
    requires IsLink(e, level) ==> IsTree(m1, e.frame, level + 1) && Pages(m1, e.frame, level + 1) !! m.Keys
    requires m2 == m1[t := m1[t][i := e]]
    ensures IsTree(m2, t, level)
    ensures Pages(m2, t, level) == Pages(m, t, level) + LinkPages(m1, e, level)
  {
    TreeInMemory(m, t, level);
    PagesFrame(m, m1, t, level);
    forall j | 0 <= j < SLOTS && IsLink(m1[t][j], level)
      ensures Pages(m1, m1[t][j].frame, level + 1) <= m.Keys
    {
      ChildIn(m1, t, level, j);
    }
    SlotUpdate(m1, t, level, i, e, m2);
  }

  lemma {:induction false} CloneStepWalks(m0: Memory, f: nat, m: Memory, m1: Memory, m2: Memory, t: nat, level: nat, i: nat, e: Entry)
    requires level <= 3 && i < SLOTS && f in m0 && IsTree(m, t, level)
    requires SameWalksBelow(m0, f, m, t, level, i) && Agree(m, m1, m.Keys)
    requires IsLink(e, level) ==> t !in Pages(m1, e.frame, level + 1)
    requires Copied(m0, m0[f][i], m1, e, level)
    requires m2 == m1[t := m1[t][i := e]]
    ensures SameWalksBelow(m0, f, m2, t, level, i + 1)
  {
    hide ChildPages, Index, Span;
    TreeInMemory(m, t, level);
    PagesFrame(m, m1, t, level);
    forall v: nat | Index(v, level) <= i
      ensures Walk(m2, t, level, v) == Walk(m0, f, level, v)
    {
      var j := Index(v, level);
      if IsLink(m2[t][j], level) { WalkFrame(m1, m2, m2[t][j].frame, level + 1, v); }
      if j < i { WalkFrame(m, m1, t, level, v); }
    }
  }

  /** A mapping whose last entry carries the rights of the whole path under a parent, and no user access. */
  function Restricted(m: Option<Mapping>, w: bool, nx: bool): Option<Mapping> {
    if m.None? then None else
    var r := Rights(w && m.value.eff.w, false, nx || m.value.eff.nx);
    Some(m.value.(own := r, eff := r))
  }

  function RestrictEntry(e: Entry, level: nat, w: bool, nx: bool): Entry {
    if !e.p then e else e.(w := e.w && w, u := false, nx := !IsLink(e, level) && (e.nx || nx))
  }

  ghost predicate RestrictedBelow(m0: Memory, m: Memory, f: nat, level: nat, n: nat, w: bool, nx: bool)
    requires level <= 3
  {
    forall v: nat {:trigger Walk(m, f, level, v)} :: Index(v, level) < n ==> Walk(m, f, level, v) == Restricted(Walk(m0, f, level, v), w, nx)
  }

  /** Only the tree at `f` was written, and it still owns the same pages. */
  ghost predicate Rewritten(m0: Memory, m: Memory, f: nat, level: nat)
    requires level <= 3
  {
    && IsTree(m0, f, level) && IsTree(m, f, level) && Pages(m, f, level) == Pages(m0, f, level)
    && m.Keys == m0.Keys && Agree(m0, m, m0.Keys - Pages(m0, f, level))
  }

  ghost predicate Restricting(m0: Memory, m: Memory, f: nat, level: nat, i: nat, w: bool, nx: bool)
    requires level <= 3 && i <= SLOTS
  {
    && Rewritten(m0, m, f, level)
    && RestrictedBelow(m0, m, f, level, i, w, nx)
    && forall j :: i <= j < SLOTS ==> m[f][j] == m0[f][j] && Agree(m0, m, LinkPages(m0, m0[f][j], level))
  }

  /** `m` became `m1` while the child that `e` links to, if any, was being restricted. */
  ghost predicate RestrictedChild(m: Memory, m1: Memory, e: Entry, level: nat, w: bool, nx: bool)
    requires level <= 3
  {
    if IsLink(e, level) then
      && Rewritten(m, m1, e.frame, level + 1)
      && RestrictedBelow(m, m1, e.frame, level + 1, SLOTS, e.w && w, e.nx || nx)
    else m1 == m
  }

  lemma {:induction false} ThroughRestricted(e: Entry, level: nat, c: Option<Mapping>, w: bool, nx: bool)
    requires IsLink(e, level)
    ensures Through(RestrictEntry(e, level, w, nx), Restricted(c, e.w && w, e.nx || nx)) == Restricted(Through(e, c), w, nx)
  {
  }

  lemma {:induction false} RestrictEntryWalk(m0: Memory, m: Memory, m1: Memory, e: Entry, level: nat, v: nat, w: bool, nx: bool)
    requires level <= 3 && Agree(m0, m, LinkPages(m0, e, level)) && RestrictedChild(m, m1, e, level, w, nx)
    ensures WalkEntry(m1, RestrictEntry(e, level, w, nx), level, v) == Restricted(WalkEntry(m0, e, level, v), w, nx)
  {
    if IsLink(e, level) {
      WalkFrame(m0, m, e.frame, level + 1, v);
      assert Walk(m1, e.frame, level + 1, v) == Restricted(Walk(m, e.frame, level + 1, v), e.w && w, e.nx || nx);
      ThroughRestricted(e, level, Walk(m0, e.frame, level + 1, v), w, nx);
    } else if e.p {
      assert WalkEntry(m0, e, level, v) == Some(LeafMapping(e, level, v));
      assert WalkEntry(m1, RestrictEntry(e, level, w, nx), level, v) == Some(LeafMapping(RestrictEntry(e, level, w, nx), level, v));
    }
  }

  lemma {:induction false} RestrictStepTree(m0: Memory, m: Memory, m1: Memory, f: nat, level: nat, i: nat, w: bool, nx: bool)
    requires level <= 3 && i < SLOTS && Rewritten(m0, m, f, level) && RestrictedChild(m, m1, m[f][i], level, w, nx)
    ensures Rewritten(m0, m1, f, level) && m1[f] == m[f]
    ensures forall v: nat :: Index(v, level) != i ==> Walk(m1, f, level, v) == Walk(m, f, level, v)
  {
    hide ChildPages, Walk, WalkEntry, Index, Span;
    var e := m[f][i];
    TreeInMemory(m, f, level);
    if IsLink(e, level) {
      ChildIn(m, f, level, i);
      ChildUpdate(m, m1, f, level, i);
      forall v: nat | Index(v, level) != i
        ensures Walk(m1, f, level, v) == Walk(m, f, level, v)
      {
        SiblingWalk(m, m1, f, level, i, v);
      }
    }
  }

  lemma {:induction false} RestrictStepRest(m0: Memory, m: Memory, m1: Memory, f: nat, level: nat, i: nat, w: bool, nx: bool)
    requires level <= 3 && i < SLOTS && f in m && IsTree(m0, f, level) && RestrictedChild(m, m1, m[f][i], level, w, nx)
    requires forall j :: i <= j < SLOTS ==> m[f][j] == m0[f][j] && Agree(m0, m, LinkPages(m0, m0[f][j], level))
    ensures forall j :: i < j < SLOTS ==> Agree(m0, m1, LinkPages(m0, m0[f][j], level)) && f !in LinkPages(m0, m0[f][j], level)
  {
    var e := m0[f][i];
    if IsLink(e, level) {
      PagesFrame(m0, m, e.frame, level + 1);
      forall j | i < j < SLOTS && IsLink(m0[f][j], level)
        ensures Agree(m0, m1, LinkPages(m0, m0[f][j], level))
      {
        TreeInMemory(m0, m0[f][j].frame, level + 1);
      }
    }
  }

  lemma {:induction false} RestrictStepWalks(m0: Memory, m: Memory, m1: Memory, m2: Memory, f: nat, level: nat, i: nat, w: bool, nx: bool)
    requires level <= 3 && i < SLOTS && f in m0 && f in m && f in m1 && f in m2
    requires m[f][i] == m0[f][i] && m1[f] == m[f] && Agree(m0, m, LinkPages(m0, m0[f][i], level))
    requires RestrictedChild(m, m1, m[f][i], level, w, nx) && RestrictedBelow(m0, m, f, level, i, w, nx)
    requires m2[f] == m1[f][i := RestrictEntry(m[f][i], level, w, nx)]
    requires forall v: nat :: Walk(m2, f, level, v) == WalkEntry(m1, m2[f][Index(v, level)], level, v)
    requires forall v: nat :: Index(v, level) != i ==> Walk(m1, f, level, v) == Walk(m, f, level, v)
    ensures RestrictedBelow(m0, m2, f, level, i + 1, w, nx)
  {
    forall v: nat | Index(v, level) < i + 1
      ensures Walk(m2, f, level, v) == Restricted(Walk(m0, f, level, v), w, nx)
    {
      if Index(v, level) == i {
        RestrictEntryWalk(m0, m, m1, m[f][i], level, v, w, nx);
      } else {
        assert Walk(m1, f, level, v) == Walk(m, f, level, v);
      }
    }
  }

  /** Slot `i` takes other flags and keeps its target. */
  lemma {:induction false} SlotRewrite(m0: Memory, m1: Memory, f: nat, level: nat, i: nat, e: Entry, m2: Memory)
    requires level <= 3 && i < SLOTS && Rewritten(m0, m1, f, level)
    requires e.frame == m1[f][i].frame && IsLink(e, level) == IsLink(m1[f][i], level)
    requires m2 == m1[f := m1[f][i := e]]
    ensures Rewritten(m0, m2, f, level)
    ensures forall v: nat :: Walk(m2, f, level, v) == WalkEntry(m1, m2[f][Index(v, level)], level, v)
  {
    if IsLink(e, level) { ChildIn(m1, f, level, i); }
    SlotUpdate(m1, f, level, i, e, m2);
  }

  lemma {:induction false} RestrictStep(m0: Memory, m: Memory, m1: Memory, f: nat, level: nat, i: nat, w: bool, nx: bool)
    requires level <= 3 && i < SLOTS && Restricting(m0, m, f, level, i, w, nx)
    requires RestrictedChild(m, m1, m[f][i], level, w, nx)
    ensures f in m1 && m1[f] == m[f] && m1.Keys == m0.Keys
    ensures Restricting(m0, m1[f := m1[f][i := RestrictEntry(m[f][i], level, w, nx)]], f, level, i + 1, w, nx)
  {
    var e := RestrictEntry(m[f][i], level, w, nx);
    var m2 := m1[f := m1[f][i := e]];
    RestrictStepTree(m0, m, m1, f, level, i, w, nx);
    SlotRewrite(m0, m1, f, level, i, e, m2);
    RestrictStepWalks(m0, m, m1, m2, f, level, i, w, nx);
    RestrictStepRest(m0, m, m1, f, level, i, w, nx);
  }

  lemma {:induction false} RestrictStart(m: Memory, f: nat, level: nat, w: bool, nx: bool)
    requires level <= 3 && IsTree(m, f, level)
    ensures f in m && Restricting(m, m, f, level, 0, w, nx)
  {
  }

  lemma {:induction false} RestrictEnd(m0: Memory, m: Memory, f: nat, level: nat, w: bool, nx: bool)
    requires level <= 3 && Restricting(m0, m, f, level, SLOTS, w, nx)
    ensures Rewritten(m0, m, f, level) && RestrictedBelow(m0, m, f, level, SLOTS, w, nx)
  {
  }

  lemma {:induction false} RestrictNext(m0: Memory, m: Memory, f: nat, level: nat, i: nat, w: bool, nx: bool)
    requires level <= 3 && i < SLOTS && Restricting(m0, m, f, level, i, w, nx)
    ensures f in m && m.Keys == m0.Keys && (IsLink(m[f][i], level) ==> IsTree(m, m[f][i].frame, level + 1))
  {
  }

  ghost predicate Freeing(m0: Memory, f0: set<nat>, f: nat, m: Memory, f1: set<nat>, level: nat, i: nat)
    requires level <= 3 && i <= SLOTS
  {
    && IsTree(m0, f, level)
    && m == m0 - ChildPages(m0, f, level, i)
    && f1 == f0 + ChildPages(m0, f, level, i)
  }

  lemma {:induction false} FreeStart(m: Memory, f0: set<nat>, f: nat, level: nat)
    requires level <= 3 && IsTree(m, f, level)
    ensures f in m && Freeing(m, f0, f, m, f0, level, if level == 3 then SLOTS else 0)
  {
    assert ChildPages(m, f, level, 0) == {};
    assert level == 3 ==> ChildPages(m, f, level, SLOTS) == {};
  }

  lemma {:induction false} FreeEnd(m0: Memory, f0: set<nat>, f: nat, m: Memory, f1: set<nat>, level: nat)
    requires level <= 3 && Freeing(m0, f0, f, m, f1, level, SLOTS)
    ensures m - {f} == m0 - Pages(m0, f, level) && f1 + {f} == f0 + Pages(m0, f, level)
    ensures f in m
  {
    NextChild(m0, f, level, SLOTS - 1);
  }

  /** What is left of the memory once the first `i` children are gone, and what one more takes away. */
  lemma {:induction false} FreeStep(m0: Memory, f0: set<nat>, f: nat, m: Memory, f1: set<nat>, level: nat, i: nat)
    requires level <= 3 && i < SLOTS && Freeing(m0, f0, f, m, f1, level, i)
    ensures f in m && m[f] == m0[f]
    ensures IsLink(m0[f][i], level) ==> IsTree(m, m0[f][i].frame, level + 1)
    ensures Freeing(m0, f0, f, m - LinkPages(m, m0[f][i], level), f1 + LinkPages(m, m0[f][i], level), level, i + 1)
  {
    NextChild(m0, f, level, i);
    if IsLink(m0[f][i], level) { PagesFrame(m0, m, m0[f][i].frame, level + 1); }
  }
}
