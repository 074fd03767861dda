/** The path one virtual page takes through a table, and what changes when it is opened and written. */
module PagePath {
  import opened Prelude
  import opened PageTables

  /** Every last entry carries exactly the rights of its whole path. */
  ghost predicate Normal(mem: Memory, f: nat, level: nat)
    requires level <= 3
  {
    forall v: nat {:trigger Walk(mem, f, level, v)} :: Walk(mem, f, level, v).Some? ==> Walk(mem, f, level, v).value.own == Walk(mem, f, level, v).value.eff
  }

  predicate IsOpen(e: Entry) { e.p && e.w && e.u && !e.nx }

  /** The walk for `vpn` from `f` reaches table `t` of level `target` through entries that restrict nothing. */
  ghost predicate OpenPath(mem: Memory, f: nat, level: nat, vpn: nat, t: nat, target: nat)
    requires level <= target <= 3
    decreases target - level
  {
    if level == target then t == f else
    && f in mem
    && var e := mem[f][Index(vpn, level)];
       IsOpen(e) && IsLink(e, level) && OpenPath(mem, e.frame, level + 1, vpn, t, target)
  }

  /** `v` and `vpn` take the same slots from `level` down to, not including, `target`. */
  predicate SharesPath(v: nat, vpn: nat, level: nat, target: nat)
    requires level <= target <= 3
    decreases target - level
  {
    level == target || (Index(v, level) == Index(vpn, level) && SharesPath(v, vpn, level + 1, target))
  }

  lemma {:induction false} PathWalk(m: Memory, f: nat, level: nat, vpn: nat, t: nat, target: nat, v: nat)
    requires level <= target <= 3 && OpenPath(m, f, level, vpn, t, target) && SharesPath(v, vpn, level, target)
    ensures Walk(m, f, level, v) == Walk(m, t, target, v)
    decreases target - level
  {
    if level < target {
      PathWalk(m, m[f][Index(vpn, level)].frame, level + 1, vpn, t, target, v);
    }
  }

  lemma {:induction false} PathPages(m: Memory, f: nat, level: nat, vpn: nat, t: nat, target: nat)
    requires level <= target <= 3 && IsTree(m, f, level) && OpenPath(m, f, level, vpn, t, target)
    ensures Pages(m, t, target) <= Pages(m, f, level) && IsTree(m, t, target)
    decreases target - level
  {
    if level < target {
      var e := m[f][Index(vpn, level)];
      ChildIn(m, f, level, Index(vpn, level));
      PathPages(m, e.frame, level + 1, vpn, t, target);
    }
  }

  lemma {:induction false} SetChain(p: set<nat>, c: set<nat>, t: set<nat>, c': set<nat>, t': set<nat>)
    requires t <= c <= p && c' == c - t + t'
    ensures p - c + c' == p - t + t'
  {
  }

  /** The slots beside the path lead to pages the subtree at its end does not own. */
  lemma {:induction false} BesidePath(m: Memory, f: nat, level: nat, vpn: nat, t: nat, target: nat, j: nat)
    requires level < target <= 3 && IsTree(m, f, level) && OpenPath(m, f, level, vpn, t, target)
    requires j < SLOTS && j != Index(vpn, level)
    ensures LinkPages(m, m[f][j], level) <= Pages(m, f, level) - Pages(m, t, target)
    ensures f in Pages(m, f, level) - Pages(m, t, target)
  {
    var c := m[f][Index(vpn, level)].frame;
    PathPages(m, c, level + 1, vpn, t, target);
    if IsLink(m[f][j], level) { ChildIn(m, f, level, j); }
  }

  lemma {:induction false} PathChild(m: Memory, f: nat, level: nat, vpn: nat, t: nat, target: nat)
    requires level < target <= 3 && IsTree(m, f, level) && OpenPath(m, f, level, vpn, t, target)
    ensures f in m && var e := m[f][Index(vpn, level)];
            && IsOpen(e) && IsLink(e, level) && IsTree(m, e.frame, level + 1)
            && OpenPath(m, e.frame, level + 1, vpn, t, target)
            && Pages(m, t, target) <= Pages(m, e.frame, level + 1) <= Pages(m, f, level)
            && f in Pages(m, f, level) - Pages(m, e.frame, level + 1)
  {
    PathPages(m, m[f][Index(vpn, level)].frame, level + 1, vpn, t, target);
    ChildIn(m, f, level, Index(vpn, level));
  }

  /** Rewriting the subtree at the end of an open path keeps the rest of the tree. */
  lemma {:induction false} PathUpdate(m: Memory, m': Memory, f: nat, level: nat, vpn: nat, t: nat, target: nat)
    requires level <= target <= 3 && IsTree(m, f, level) && OpenPath(m, f, level, vpn, t, target)
    requires Agree(m, m', Pages(m, f, level) - Pages(m, t, target))
    requires IsTree(m', t, target) && Pages(m', t, target) !! Pages(m, f, level) - Pages(m, t, target)
    ensures IsTree(m', f, level) && OpenPath(m', f, level, vpn, t, target)
    ensures Pages(m', f, level) == Pages(m, f, level) - Pages(m, t, target) + Pages(m', t, target)
    decreases target - level
  {
    hide Pages, ChildPages, IsTree, Index, Span;
    if level < target {
      PathChild(m, f, level, vpn, t, target);
      var i := Index(vpn, level);
      var c := m[f][i].frame;
      PathUpdate(m, m', c, level + 1, vpn, t, target);
      assert Agree(m, m', Pages(m, f, level) - Pages(m, c, level + 1));
      ChildUpdate(m, m', f, level, i);
      SetChain(Pages(m, f, level), Pages(m, c, level + 1), Pages(m, t, target), Pages(m', c, level + 1), Pages(m', t, target));
    }
  }

  /** It changes only the walks that go through it. */
  lemma {:induction false} PathUpdateWalk(m: Memory, m': Memory, f: nat, level: nat, vpn: nat, t: nat, target: nat, v: nat)
    requires level <= target <= 3 && IsTree(m, f, level) && OpenPath(m, f, level, vpn, t, target)
    requires Agree(m, m', Pages(m, f, level) - Pages(m, t, target))
    requires !SharesPath(v, vpn, level, target)
    ensures Walk(m', f, level, v) == Walk(m, f, level, v)
    decreases target - level
  {
    hide Pages, ChildPages;
    var i, j := Index(vpn, level), Index(v, level);
    BesidePath(m, f, level, vpn, t, target, if i == 0 then 1 else 0);
    if j == i {
      ChildIn(m, f, level, i);
      PathUpdateWalk(m, m', m[f][i].frame, level + 1, vpn, t, target, v);
    } else {
      BesidePath(m, f, level, vpn, t, target, j);
      if IsLink(m[f][j], level) { WalkFrame(m, m', m[f][j].frame, level + 1, v); }
    }
  }

  lemma {:induction false} ExtendPath(m: Memory, f: nat, level: nat, vpn: nat, t: nat, target: nat)
    requires level <= target < 3 && OpenPath(m, f, level, vpn, t, target) && t in m
    requires IsOpen(m[t][Index(vpn, target)]) && IsLink(m[t][Index(vpn, target)], target)
    ensures OpenPath(m, f, level, vpn, m[t][Index(vpn, target)].frame, target + 1)
    decreases target - level
  {
    if level < target { ExtendPath(m, m[f][Index(vpn, level)].frame, level + 1, vpn, t, target); }
  }

  /** An open entry in front of a child keeps the walk of a table whose last entries carry the rights. */
  lemma {:induction false} ThroughOpen(e: Entry, e2: Entry, c: Option<Mapping>)
    requires IsOpen(e2) && (c.Some? ==> Within(c.value))
    requires Through(e, c).Some? ==> Through(e, c).value.own == Through(e, c).value.eff
    ensures Through(e2, c) == Through(e, c)
  {
  }

  /** What slot `i` of level `level` may become while a path is opened: the same link with its rights
      granted, or a link to one new table `c` that yields the walks of the old entry. */
  ghost predicate Opened(m: Memory, e: Entry, m1: Memory, e2: Entry, level: nat, i: nat)
    requires level < 3
  {
    && IsOpen(e2) && IsLink(e2, level) && Agree(m, m1, m.Keys)
    && if IsLink(e, level) then e2.frame == e.frame && m1 == m else
         && e2.frame !in m && IsTree(m1, e2.frame, level + 1) && Pages(m1, e2.frame, level + 1) == {e2.frame}
         && ReplacesEntry(m, e, m1, e2.frame, level, i)
  }

  ghost predicate ReplacesEntry(m: Memory, e: Entry, m1: Memory, c: nat, level: nat, i: nat)
    requires level < 3
  {
    forall v: nat :: Index(v, level) == i ==> Walk(m1, c, level + 1, v) == WalkEntry(m, e, level, v)
  }

  lemma {:induction false} OpenSlotTree(m: Memory, t: nat, level: nat, i: nat, m1: Memory, e2: Entry, m2: Memory)
    requires level < 3 && i < SLOTS && IsTree(m, t, level) && Opened(m, m[t][i], m1, e2, level, i)
    requires m2 == m1[t := m1[t][i := e2]]
    ensures IsTree(m2, t, level)
    ensures Pages(m2, t, level) == Pages(m, t, level) + LinkPages(m1, e2, level)
    ensures forall v: nat :: Walk(m2, t, level, v) == WalkEntry(m1, m2[t][Index(v, level)], level, v)
  {
    TreeInMemory(m, t, level);
    PagesFrame(m, m1, t, level);
    forall j | 0 <= j < SLOTS && IsLink(m1[t][j], level)
      ensures Pages(m1, m1[t][j].frame, level + 1) <= m.Keys
    {
      ChildIn(m1, t, level, j);
    }
    SlotUpdate(m1, t, level, i, e2, m2);
    if IsLink(m1[t][i], level) { ChildIn(m1, t, level, i); }
  }

  lemma {:induction false} OpenSlotWalk(m: Memory, t: nat, level: nat, i: nat, m1: Memory, e2: Entry, m2: Memory, v: nat)
    requires level < 3 && i < SLOTS && IsTree(m, t, level) && Opened(m, m[t][i], m1, e2, level, i)
    requires m2 == m1[t := m1[t][i := e2]]
    requires Walk(m, t, level, v).Some? ==> Walk(m, t, level, v).value.own == Walk(m, t, level, v).value.eff
    ensures Walk(m2, t, level, v) == Walk(m, t, level, v)
  {
    OpenSlotTree(m, t, level, i, m1, e2, m2);
    TreeInMemory(m, t, level);
    if Index(v, level) == i {
      var c := Walk(m1, e2.frame, level + 1, v);
      ThroughOpen(if IsLink(m[t][i], level) then m[t][i] else e2, e2, c);
    } else {
      WalkFrame(m, m1, t, level, v);
    }
  }

  /** Opening one more level of the path leaves every walk as it was. */
  lemma {:induction false} OpenStep(m: Memory, r: nat, vpn: nat, t: nat, level: nat, m1: Memory, e2: Entry, m2: Memory)
    requires 1 <= level < 3 && IsTree(m, r, 1) && Normal(m, r, 1) && OpenPath(m, r, 1, vpn, t, level)
    requires t in m && Opened(m, m[t][Index(vpn, level)], m1, e2, level, Index(vpn, level))
    requires m2 == m1[t := m1[t][Index(vpn, level) := e2]]
    ensures IsTree(m2, r, 1) && OpenPath(m2, r, 1, vpn, e2.frame, level + 1)
    ensures Pages(m2, r, 1) == Pages(m, r, 1) + LinkPages(m1, e2, level)
    ensures SameWalksBelow(m, r, m2, r, 1, SLOTS)
  {
    hide Pages, ChildPages, IsTree, Index, Span, WalkEntry;
    PathPages(m, r, 1, vpn, t, level);
    TreeInMemory(m, r, 1);
    OpenSlotTree(m, t, level, Index(vpn, level), m1, e2, m2);
    OpenSlotOutside(m, t, level, m1, e2, m2, Index(vpn, level), Pages(m, r, 1));
    PathUpdate(m, m2, r, 1, vpn, t, level);
    ExtendPath(m2, r, 1, vpn, t, level);
    forall v: nat
      ensures Walk(m2, r, 1, v) == Walk(m, r, 1, v)
    {
      if SharesPath(v, vpn, 1, level) {
        PathWalk(m, r, 1, vpn, t, level, v);
        PathWalk(m2, r, 1, vpn, t, level, v);
        OpenSlotWalk(m, t, level, Index(vpn, level), m1, e2, m2, v);
      } else {
        PathUpdateWalk(m, m2, r, 1, vpn, t, level, v);
      }
    }
  }

  lemma {:induction false} OpenSlotOutside(m: Memory, t: nat, level: nat, m1: Memory, e2: Entry, m2: Memory, i: nat, s: set<nat>)
    requires level < 3 && i < SLOTS && IsTree(m, t, level) && Opened(m, m[t][i], m1, e2, level, i)
    requires m2 == m1[t := m1[t][i := e2]] && s <= m.Keys
    ensures Agree(m, m2, s - Pages(m, t, level)) && t in Pages(m, t, level)
    ensures LinkPages(m1, e2, level) !! s - Pages(m, t, level)
  {
    if IsLink(m[t][i], level) { ChildIn(m, t, level, i); }
  }

  const REGION: nat := 134217728

  /** The pages of one root slot are told apart by the slots of the three lower levels. */
  lemma {:induction false} SamePage(v: nat, vpn: nat)
    ensures SharesPath(v, vpn, 1, 3) && Index(v, 3) == Index(vpn, 3) <==> v % REGION == vpn % REGION
  {
    var a, b := v % REGION, vpn % REGION;
    assert SharesPath(v, vpn, 1, 3) <==> Index(v, 1) == Index(vpn, 1) && Index(v, 2) == Index(vpn, 2) by {
      assert SharesPath(v, vpn, 2, 3) <==> Index(v, 2) == Index(vpn, 2) && SharesPath(v, vpn, 3, 3);
    }
    forall x: nat
      ensures x % REGION == Index(x, 1) * 262144 + Index(x, 2) * 512 + Index(x, 3)
    {
      assert x / 512 / 512 == x / 262144;
    }
  }

  /** What the walk of `v` becomes once the last slot of `vpn` holds `e`. */
  function Rewalk(old_: Option<Mapping>, vpn: nat, e: Entry, v: nat): Option<Mapping> {
    if v % REGION != vpn % REGION then old_
    else if e.p then Some(Mapping(e.frame, RightsOf(e), RightsOf(e), e.global, e.cache, e.large))
    else None
  }

  lemma {:induction false} LeafWrite(m: Memory, r: nat, vpn: nat, t: nat, e: Entry, m2: Memory)
    requires IsTree(m, r, 1) && OpenPath(m, r, 1, vpn, t, 3) && t in m
    requires m2 == m[t := m[t][Index(vpn, 3) := e]]
    ensures IsTree(m2, r, 1) && Pages(m2, r, 1) == Pages(m, r, 1)
    ensures forall v: nat :: Walk(m2, r, 1, v) == Rewalk(Walk(m, r, 1, v), vpn, e, v)
  {
    hide Pages, ChildPages, IsTree, Index, Span;
    PathPages(m, r, 1, vpn, t, 3);
    LastLevel(m, t);
    LastLevel(m2, t);
    PathUpdate(m, m2, r, 1, vpn, t, 3);
    SetChain(Pages(m, r, 1), {t}, {t}, {t}, {t});
    forall v: nat
      ensures Walk(m2, r, 1, v) == Rewalk(Walk(m, r, 1, v), vpn, e, v)
    {
      LeafWriteWalk(m, r, vpn, t, e, m2, v);
    }
  }

  lemma {:induction false} LastLevel(m: Memory, t: nat)
    requires t in m
    ensures IsTree(m, t, 3) && Pages(m, t, 3) == {t}
  {
  }

  lemma {:induction false} LeafWriteWalk(m: Memory, r: nat, vpn: nat, t: nat, e: Entry, m2: Memory, v: nat)
    requires IsTree(m, r, 1) && OpenPath(m, r, 1, vpn, t, 3) && OpenPath(m2, r, 1, vpn, t, 3) && t in m
    requires m2 == m[t := m[t][Index(vpn, 3) := e]]
    ensures Walk(m2, r, 1, v) == Rewalk(Walk(m, r, 1, v), vpn, e, v)
  {
    hide Pages, ChildPages, IsTree, Index;
    SamePage(v, vpn);
    if SharesPath(v, vpn, 1, 3) {
      PathWalk(m, r, 1, vpn, t, 3, v);
      PathWalk(m2, r, 1, vpn, t, 3, v);
    } else {
      LastLevel(m, t);
      PathUpdateWalk(m, m2, r, 1, vpn, t, 3, v);
    }
  }

  /** Entry `i` of the table that replaces the large page `e`: the same flags over the next smaller page
      size. Bit 12 of a large entry is an attribute, not an address bit; it moves to bit 7 at the last level. */
  function SplitEntry(e: Entry, level: nat, i: nat): Entry
    requires 1 <= level < 3
  {
    var base := e.frame / Span(level) * Span(level);
    var attribute := e.frame % 2 == 1;
    if level == 1 then e.(frame := base + i * Span(2) + if attribute then 1 else 0)
    else e.(frame := base + i, large := attribute)
  }

  lemma {:induction false} SplitArithmetic(frame: nat, v: nat, attribute: nat)
    requires attribute <= 1
    ensures (frame / 262144 * 262144 + v / 512 % 512 * 512 + attribute) / 512 * 512 + v % 512 == frame / 262144 * 262144 + v % 262144
  {
    var b, q, o := frame / 262144, v / 512, v % 512;
    var i := q % 512;
    assert v == q / 512 * 262144 + i * 512 + o;
    assert v % 262144 == i * 512 + o;
    assert (b * 512 + i) * 512 + attribute == b * 262144 + i * 512 + attribute;
    assert ((b * 512 + i) * 512 + attribute) / 512 == b * 512 + i;
  }

  lemma {:induction false} SplitParity(frame: nat, i: nat, attribute: nat)
    requires attribute <= 1
    ensures (frame / 262144 * 262144 + i * 512 + attribute) % 2 == attribute
  {
    assert frame / 262144 * 262144 + i * 512 + attribute == 2 * (frame / 262144 * 131072 + i * 256) + attribute;
  }

  lemma {:induction false} SplitFrame(e: Entry, level: nat, v: nat)
    requires 1 <= level < 3
    ensures var x := SplitEntry(e, level, Index(v, level + 1));
            && LeafMapping(x, level + 1, v).frame == LeafMapping(e, level, v).frame
            && Attribute(x, level + 1) == Attribute(e, level)
  {
    if level == 1 {
      SplitArithmetic(e.frame, v, e.frame % 2);
      SplitParity(e.frame, Index(v, 2), e.frame % 2);
    }
  }

  /** The split table yields, page for page, what the large page did. */
  lemma {:induction false} SplitWalk(e: Entry, level: nat, m: Memory, c: nat, v: nat)
    requires 1 <= level < 3 && e.p && e.large && c in m
    requires m[c][Index(v, level + 1)] == SplitEntry(e, level, Index(v, level + 1))
    ensures Walk(m, c, level + 1, v) == Some(LeafMapping(e, level, v))
  {
    var x := m[c][Index(v, level + 1)];
    assert Walk(m, c, level + 1, v) == Some(LeafMapping(x, level + 1, v));
    SplitFrame(e, level, v);
  }

  lemma {:induction false} SplitTable(e: Entry, level: nat, m: Memory, m1: Memory, c: nat)
    requires 1 <= level < 3 && e.p && e.large && c in m1
    requires forall j :: 0 <= j < SLOTS ==> m1[c][j] == SplitEntry(e, level, j)
    ensures IsTree(m1, c, level + 1) && Pages(m1, c, level + 1) == {c}
    ensures forall i: nat :: ReplacesEntry(m, e, m1, c, level, i)
  {
    assert forall j :: 0 <= j < SLOTS ==> !IsLink(m1[c][j], level + 1);
    assert ChildPages(m1, c, level + 1, SLOTS) == {};
    forall i: nat
      ensures ReplacesEntry(m, e, m1, c, level, i)
    {
      forall v: nat | Index(v, level) == i
        ensures Walk(m1, c, level + 1, v) == WalkEntry(m, e, level, v)
      {
        SplitWalk(e, level, m1, c, v);
      }
    }
  }
}
