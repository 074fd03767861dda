/** The page-table code of VMM.c over one physical memory: tables are written in place, pages come
    from and go back to the page allocator. */
module Vmm {
  import opened Prelude
  import opened PageTables
  import opened PagePath
  import opened AddressSpaces
  import opened PageRemoval
  import opened PageSupply

  /** The copy at `t` of the first `i` slots of the table at `f` of `m0`. */
  ghost predicate Cloning(m0: Memory, f0: set<nat>, f: nat, m: Memory, f1: set<nat>, t: nat, level: nat, i: nat)
    requires level <= 3 && i <= SLOTS
  {
    && f in m0 && t in m && t !in m0 && f0 !! m0.Keys && IsTree(m, t, level) && t in Pages(m, t, level)
    && Grown(m0, f0, m, f1, Pages(m, t, level))
    && SameWalksBelow(m0, f, m, t, level, i)
    && forall j :: i <= j < SLOTS ==> m[t][j] == ZERO_ENTRY
  }

  lemma {:induction false} CloneStart(m0: Memory, f0: set<nat>, f: nat, m: Memory, f1: set<nat>, t: nat, level: nat)
    requires level <= 3 && f in m0 && f0 !! m0.Keys && Grown(m0, f0, m, f1, {t}) && m[t] == ZERO_TABLE
    ensures Cloning(m0, f0, f, m, f1, t, level, 0)
  {
    assert ChildPages(m, t, level, SLOTS) == {};
  }

  /** Slot `i` of the copy receives `e`; `m` became `m1` while the child was being copied. */
  lemma {:induction false} CloneStep(m0: Memory, f0: set<nat>, f: nat, m: Memory, f1: set<nat>, m1: Memory, f2: set<nat>, t: nat, level: nat, i: nat, e: Entry)
    requires level <= 3 && i < SLOTS && Cloning(m0, f0, f, m, f1, t, level, i)
    requires Grown(m, f1, m1, f2, LinkPages(m1, e, level))
    requires IsLink(e, level) ==> IsTree(m1, e.frame, level + 1)
    requires Copied(m0, m0[f][i], m1, e, level)
    ensures Cloning(m0, f0, f, m1[t := m1[t][i := e]], f2, t, level, i + 1)
  {
    hide Pages, ChildPages, IsTree, Walk, WalkEntry, Index, Span, SameWalksBelow;
    CloneStepTree(m, m1, m1[t := m1[t][i := e]], t, level, i, e);
    CloneStepWalks(m0, f, m, m1, m1[t := m1[t][i := e]], t, level, i, e);
  }

  lemma {:induction false} SourceKept(m0: Memory, f0: set<nat>, m: Memory, f1: set<nat>, s: set<nat>, f: nat, level: nat, i: nat)
    requires level < 3 && f in m0 && i < SLOTS && IsLink(m0[f][i], level) && Grown(m0, f0, m, f1, s)
    requires Pages(m0, f, level) !! f0
    ensures Pages(m, m0[f][i].frame, level + 1) !! f1
    ensures SameWalksBelow(m0, m0[f][i].frame, m, m0[f][i].frame, level + 1, SLOTS)
  {
    var c := m0[f][i].frame;
    ChildIn(m0, f, level, i);
    PagesFrame(m0, m, c, level + 1);
    WalksFrame(m0, m, c, level + 1);
  }

  /** A copy that can be afforded leaves enough for its next child. */
  lemma {:induction false} ChildAffords(m0: Memory, f0: set<nat>, m: Memory, f1: set<nat>, s: set<nat>, f: nat, level: nat, i: nat,
                                        current: nat, roots: seq<nat>)
    requires level < 3 && f in m0 && i < SLOTS && IsLink(m0[f][i], level) && Grown(m0, f0, m, f1, s) && f0 !! m0.Keys
    requires Pages(m0, f, level) !! f0 && |Low(f1)| == |Low(f0)| - 1 - NeedsBelow(m0, f, level, i)
    ensures var c := m0[f][i].frame;
            && Needs(m, c, level + 1) == Needs(m0, c, level + 1)
            && NeedsBelow(m0, f, level, i + 1) == NeedsBelow(m0, f, level, i) + Needs(m0, c, level + 1)
            && (Readable(m0, f, level) && Enough(m0, f0, current, roots, Needs(m0, f, level)) ==>
                  Readable(m, c, level + 1) && Enough(m, f1, current, roots, Needs(m, c, level + 1)))
  {
    var c := m0[f][i].frame;
    ChildIn(m0, f, level, i);
    NeedsFrame(m0, m, c, level + 1);
    hide Pages, ChildPages, Walk, WalkEntry, Needs, NeedsBelow, Calm, Low, Readable;
    ChildNeeds(m0, f, level, i);
    if Calm(m0, f0, current, roots) { CalmGrown(m0, f0, m, f1, s, current, roots); }
  }

  lemma {:induction false} BuildingCalm(m0: Memory, f0: set<nat>, m: Memory, f: set<nat>, r: nat, current: nat, roots: seq<nat>)
    requires Building(m0, f0, m, f, r)
    ensures Calm(m0, f0, current, roots) ==> Calm(m, f, current, roots)
  {
    if Calm(m0, f0, current, roots) { CalmGrown(m0, f0, m, f, Pages(m, r, 1), current, roots); }
  }

  class AddressSpace {
    /** The page that holds this record itself. */
    const record: nat
    const root: nat
    var shared: seq<bool>

    constructor (record: nat, root: nat, shared: seq<bool>)
      ensures this.record == record && this.root == root && this.shared == shared
    {
      this.record, this.root, this.shared := record, root, shared;
    }

    ghost function View(): Space reads this { Space(root, shared) }
  }

  const USER_END: nat := 0x8000_0000_0000
  const SHARED_USER_START: nat := 0x5000_0000_0000
  const SHARED_USER_END: nat := 0x5000_4000_0000
  const PAGE_SIZE: nat := 4096
  const LOWEST_PAGE: nat := 1024
  const STACK_PAGES: nat := 16

  function FrameOf(w: Option<Mapping>): Option<nat> { if w.None? then None else Some(w.value.frame) }

  /** The page is in the 2 MiB the stack pointer is in, in some processor's stack, or holds the record of a space. */
  predicate Occupied(stacks: seq<nat>, records: seq<nat>, vpn: nat, rsp: nat) {
    || vpn / 512 == rsp / 512
    || (exists i :: 0 <= i < |stacks| && stacks[i] <= vpn < stacks[i] + STACK_PAGES)
    || vpn in records
  }

  class Tables {
    var mem: Memory
    var free: set<nat>
    var spaces: seq<AddressSpace>
    var active: seq<AddressSpace?>
    const kernel: nat
    /** The root the processor runs on, and the first page of each processor's stack. */
    var current: nat
    var stacks: seq<nat>
    ghost function Views(): (r: seq<Space>)
      reads this, spaces
      ensures |r| == |spaces| && forall k :: 0 <= k < |spaces| ==> r[k] == spaces[k].View()
    {
      seq(|spaces|, k requires 0 <= k < |spaces| reads this, spaces => spaces[k].View())
    }

    ghost predicate Valid()
      reads this, spaces
    {
      AllOk(mem, free, Views()) && KernelOk(mem, free, kernel, Views()) && forall j, k :: 0 <= j < k < |spaces| ==> spaces[j] != spaces[k]
    }

    ghost predicate Pool() reads this { free !! mem.Keys }

    ghost function Records(): seq<nat> reads this`spaces {
      var ss := spaces;
      seq(|ss|, k requires 0 <= k < |ss| => ss[k].record)
    }

    /** VMMTranslateRoot, level by level; the canonical-address check does not apply to page numbers. */
    method TranslateRoot(root: nat, vpn: nat) returns (frame: Option<nat>)
      ensures frame == FrameOf(Walk(mem, root, 0, vpn))
    {
      if root !in mem { return None; }
      var e := mem[root][Index(vpn, 0)];
      if !e.p { return None; }
      var level := 1;
      assert Walk(mem, root, 0, vpn) == Through(e, Walk(mem, e.frame, 1, vpn));
      while level < 3
        invariant 1 <= level <= 3 && FrameOf(Walk(mem, root, 0, vpn)) == FrameOf(Walk(mem, e.frame, level, vpn))
      {
        if e.frame !in mem { return None; }
        var next := mem[e.frame][Index(vpn, level)];
        if !next.p { return None; }
        if next.large { return Some(next.frame / Span(level) * Span(level) + vpn % Span(level)); }
        e := next;
        level := level + 1;
      }
      if e.frame !in mem { return None; }
      e := mem[e.frame][Index(vpn, 3)];
      if !e.p { return None; }
      frame := Some(e.frame);
    }

    /** VMMTableWritableRoot: the page is mapped to itself and every entry of its path is writable. */
    method TableWritable(root: nat, f: nat) returns (b: bool)
      ensures b <==> WritableAt(Walk(mem, root, 0, f), f)
    {
      hide Span, Index;
      var frame := TranslateRoot(root, f);
      if frame != Some(f) { return false; }
      var table, level := root, 0;
      while true
        invariant 0 <= level <= 3 && Walk(mem, table, level, f).Some? && Walk(mem, root, 0, f).Some?
        invariant Walk(mem, root, 0, f).value.frame == f
        invariant Walk(mem, root, 0, f).value.eff.w == Walk(mem, table, level, f).value.eff.w
        decreases 3 - level
      {
        var e := mem[table][Index(f, level)];
        if !e.p || !e.w { return false; }
        if level == 3 || (level != 0 && e.large) { return true; }
        table, level := e.frame, level + 1;
      }
    }

    /** VMMAddressSpaceIdentityWritable: moreover closed to user mode, and through no root entry with bit 7. */
    method IdentityWritable(space: AddressSpace, f: nat) returns (b: bool)
      ensures b <==> IdentityAt(mem, space.root, f)
    {
      hide Span, Index;
      var table, level := space.root, 0;
      while true
        invariant 0 <= level <= 3 && (level == 0 ==> table == space.root)
        invariant IdentityAt(mem, space.root, f) <==>
                    if level == 0 then IdentityAt(mem, space.root, f)
                    else WritableAt(Walk(mem, table, level, f), f) && !Walk(mem, table, level, f).value.own.u
        decreases 3 - level
      {
        if table !in mem { return false; }
        var e := mem[table][Index(f, level)];
        if !e.p || !e.w { return false; }
        if level == 3 || ((level == 1 || level == 2) && e.large) {
          return !e.u && e.frame / Span(level) * Span(level) + f % Span(level) == f;
        }
        if e.large { return false; }
        table, level := e.frame, level + 1;
      }
    }

    /** A page below 4 GiB that is writable at its own address here and in every space; null, with nothing changed, when
        there is none or the one found is not. */
    method AllocTable() returns (r: Option<nat>)
      requires Pool()
      modifies this`mem, this`free
      ensures Pool()
      ensures r.None? ==> mem == old(mem) && free == old(free)
      ensures r.Some? ==> Grown(old(mem), old(free), mem, free, {r.value}) && mem[r.value] == ZERO_TABLE
      ensures r.Some? ==> r.value < LOW_PAGES && Suitable(old(mem), current, AllRoots(), r.value) && |Low(free)| == |Low(old(free))| - 1
      ensures r.None? ==> Low(free) == {} || exists f :: f in Low(free) && !Suitable(mem, current, AllRoots(), f)
      ensures r.None? ==> !Enough(mem, free, current, AllRoots(), 1)
    {
      var low := set f | f in free && f < LOW_PAGES;
      assert low == Low(free);
      if low == {} { return None; }
      var f :| f in low;
      LowLess(free, f);
      free := free - {f};
      var writable := TableWritable(current, f);
      var k := 0;
      while writable && k < |spaces|
        invariant k <= |spaces| && free == old(free) - {f} && mem == old(mem)
        invariant writable ==> WritableAt(Walk(mem, current, 0, f), f) && forall j :: 0 <= j < k ==> IdentityAt(mem, spaces[j].root, f)
        invariant !writable ==> !Suitable(mem, current, AllRoots(), f)
      {
        writable := IdentityWritable(spaces[k], f);
        assert AllRoots()[k] == spaces[k].root;
        k := k + 1;
      }
      if !writable {
        free := free + {f};
        assert f in Low(free);
        return None;
      }
      mem := mem[f := ZERO_TABLE];
      r := Some(f);
    }

    ghost function AllRoots(): seq<nat> reads this`spaces {
      var ss := spaces;
      seq(|ss|, k requires 0 <= k < |ss| => ss[k].root)
    }

    method FreePage(f: nat)
      requires Pool() && f in mem
      modifies this`mem, this`free
      ensures Pool() && mem == old(mem) - {f} && free == old(free) + {f}
    {
      mem := mem - {f};
      free := free + {f};
    }

    method FreeClone(f: nat, level: nat)
      requires Pool() && 1 <= level <= 3 && IsTree(mem, f, level)
      modifies this`mem, this`free
      ensures Pool()
      ensures mem == old(mem) - Pages(old(mem), f, level)
      ensures free == old(free) + Pages(old(mem), f, level)
      decreases 3 - level
    {
      hide Pages, ChildPages, IsTree, Freeing;
      ghost var m0 := mem;
      FreeStart(m0, free, f, level);
      if level < 3 {
        var i := 0;
        while i < SLOTS
          invariant 0 <= i <= SLOTS && Pool()
          invariant Freeing(m0, old(free), f, mem, free, level, i)
        {
          FreeStep(m0, old(free), f, mem, free, level, i);
          var e := mem[f][i];
          assert mem - {} == mem && free + {} == free;
          if e.p && !e.large {
            FreeClone(e.frame, level + 1);
          }
          i := i + 1;
        }
      }
      FreeEnd(m0, old(free), f, mem, free, level);
      FreePage(f);
    }

    /** A private copy of the table at `f`, or null with every page taken given back. */
    method Clone(f: nat, level: nat) returns (r: Option<nat>)
      requires Pool() && 1 <= level <= 3 && Pages(mem, f, level) !! free
      modifies this`mem, this`free
      ensures Pool()
      ensures r.None? ==> mem == old(mem) && free == old(free)
      ensures r.None? ==> !(Readable(mem, f, level) && Enough(mem, free, current, AllRoots(), Needs(mem, f, level)))
      ensures r.Some? ==> |Low(free)| == |Low(old(free))| - Needs(old(mem), f, level)
      ensures r.Some? ==>
                && Grown(old(mem), old(free), mem, free, Pages(mem, r.value, level))
                && IsTree(mem, r.value, level)
                && SameWalksBelow(old(mem), f, mem, r.value, level, SLOTS)
      decreases 3 - level
    {
      hide Pages, ChildPages, Walk, WalkEntry, Index, Span, Suitable, WritableAt, IdentityAt, Needs, NeedsBelow, Low, Calm, Readable, IsTree;
      ghost var m0 := mem;
      NeedsAll(m0, f, level);
      if f !in mem { return None; }
      r := AllocTable();
      if r.None? { return; }
      var t := r.value;
      CloneStart(m0, old(free), f, mem, free, t, level);
      var i := 0;
      while i < SLOTS
        invariant 0 <= i <= SLOTS && Pool() && f in mem && t in mem
        invariant Cloning(m0, old(free), f, mem, free, t, level, i)
        invariant |Low(free)| == |Low(old(free))| - 1 - NeedsBelow(m0, f, level, i)
      {
        ghost var m, f1 := mem, free;
        var e := mem[f][i];
        if level < 3 && e.p && !e.large {
          SourceKept(m0, old(free), m, free, Pages(m, t, level), f, level, i);
          ChildAffords(m0, old(free), m, free, Pages(m, t, level), f, level, i, current, AllRoots());
          var child := Clone(e.frame, level + 1);
          if child.None? {
            FreeClone(t, level);
            return None;
          }
          e := e.(frame := child.value);
        } else { NoChild(m0, f, level, i); }
        CloneStep(m0, old(free), f, m, f1, mem, free, t, level, i, e);
        mem := mem[t := mem[t][i := e]];
        i := i + 1;
      }
    }
  
    /** Moves the inherited rights of a path down to its last entries, in place. */
    method Restrict(f: nat, level: nat, w: bool, nx: bool)
      requires Pool() && 1 <= level <= 3 && IsTree(mem, f, level)
      modifies this`mem
      ensures Pool() && Rewritten(old(mem), mem, f, level)
      ensures RestrictedBelow(old(mem), mem, f, level, SLOTS, w, nx)
      decreases 3 - level
    {
      hide Pages, ChildPages, Index, Span, Walk, WalkEntry, Restricting, IsTree, Rewritten, RestrictedBelow, Agree;
      RestrictStart(mem, f, level, w, nx);
      var i := 0;
      while i < SLOTS
        invariant 0 <= i <= SLOTS && f in mem && mem.Keys == old(mem).Keys
        invariant Restricting(old(mem), mem, f, level, i, w, nx)
      {
        ghost var m := mem;
        RestrictNext(old(mem), mem, f, level, i, w, nx);
        var e := mem[f][i];
        var e1 := e;
        if e.p {
          e1 := e.(w := e.w && w, nx := e.nx || nx);
          if level < 3 && !e.large {
            Restrict(e.frame, level + 1, e1.w, e1.nx);
            e1 := e1.(nx := false);
          }
          e1 := e1.(u := false);
        }
        RestrictStep(old(mem), m, mem, f, level, i, w, nx);
        mem := mem[f := mem[f][i := e1]];
        i := i + 1;
      }
      RestrictEnd(old(mem), mem, f, level, w, nx);
    }

    /** Whether the page `a` is one of the tables below `f`. */
    method UsesAddress(f: nat, level: nat, a: nat) returns (b: bool)
      requires level <= 3
      ensures b <==> Uses(mem, f, level, a)
      decreases 3 - level
    {
      if f == a { return true; }
      if level < 3 && f in mem {
        var i := 0;
        while i < SLOTS
          invariant 0 <= i <= SLOTS
          invariant forall j :: 0 <= j < i && mem[f][j].p && !mem[f][j].large ==> !Uses(mem, mem[f][j].frame, level + 1, a)
        {
          var e := mem[f][i];
          if e.p && !e.large {
            var found := UsesAddress(e.frame, level + 1, a);
            if found { return true; }
          }
          i := i + 1;
        }
      }
      b := false;
    }

    /** VMMAddressSpaceCanReplace below the kernel image: not the first four megabytes, no stack, no record, and no table
        of the kernel or of any space. */
    method CanReplace(vpn: nat, rsp: nat) returns (ok: bool)
      ensures ok <==> Replaceable(mem, kernel, Views(), vpn, Occupied(stacks, Records(), vpn, rsp))
    {
      if vpn < LOWEST_PAGE || vpn / 512 == rsp / 512 { return false; }
      var used := UsesAddress(kernel, 0, vpn);
      if used { return false; }
      var k := 0;
      while k < |spaces|
        invariant k <= |spaces| && forall j :: 0 <= j < k ==> Records()[j] != vpn && !Uses(mem, spaces[j].root, 0, vpn)
      {
        if spaces[k].record == vpn { assert Records()[k] == vpn; return false; }
        used := UsesAddress(spaces[k].root, 0, vpn);
        if used {
          assert Uses(mem, Views()[k].root, 0, vpn);
          return false;
        }
        k := k + 1;
      }
      var i := 0;
      while i < |stacks|
        invariant i <= |stacks| && forall j :: 0 <= j < i ==> !(stacks[j] <= vpn < stacks[j] + STACK_PAGES)
      {
        if vpn >= stacks[i] && vpn - stacks[i] < STACK_PAGES { return false; }
        i := i + 1;
      }
      ok := true;
    }

    method SplitPage(e: Entry, level: nat) returns (r: Option<nat>)
      requires Pool() && 1 <= level < 3 && e.p && e.large
      modifies this`mem, this`free
      ensures Pool()
      ensures r.None? ==> mem == old(mem) && free == old(free) && !Enough(mem, free, current, AllRoots(), 1)
      ensures r.Some? ==> |Low(free)| == |Low(old(free))| - 1
      ensures r.Some? ==>
                && Grown(old(mem), old(free), mem, free, {r.value})
                && IsTree(mem, r.value, level + 1) && Pages(mem, r.value, level + 1) == {r.value}
                && forall i: nat :: ReplacesEntry(old(mem), e, mem, r.value, level, i)
    {
      hide IsTree, Pages, ChildPages, Walk, WalkEntry, ReplacesEntry, Suitable, WritableAt, IdentityAt, Enough, Calm, Low;
      r := AllocTable();
      if r.None? { return; }
      var c := r.value;
      var address := e.frame / Span(level) * Span(level);
      var size := Span(level + 1);
      var flags := e;
      if level == 2 { flags := e.(large := e.frame % 2 == 1); }
      var i := 0;
      while i < SLOTS
        invariant 0 <= i <= SLOTS && Pool() && c in mem && |Low(free)| == |Low(old(free))| - 1
        invariant Grown(old(mem), old(free), mem, free, {c})
        invariant forall j :: 0 <= j < i ==> mem[c][j] == SplitEntry(e, level, j)
      {
        var frame := address + i * size + if level == 1 && e.frame % 2 == 1 then 1 else 0;
        mem := mem[c := mem[c][i := flags.(frame := frame)]];
        i := i + 1;
      }
      SplitTable(e, level, old(mem), mem, c);
    }
  
    /** A detached copy of what root entry `e` leads to, with inherited rights moved down to the last entries. */
    method BuildRoot(e: Entry, shared: bool) returns (r: Option<nat>)
      requires Pool() && LinkPages(mem, e, 0) !! free
      requires e.p ==> if shared then !e.u else PrivateOk(mem, e)
      modifies this`mem, this`free
      ensures r.None? ==> mem == old(mem) && free == old(free)
      ensures r.None? ==> !(RootReadable(mem, e) && Enough(mem, free, current, AllRoots(), RootNeeds(mem, e)))
      ensures r.Some? ==> |Low(free)| == |Low(old(free))| - RootNeeds(old(mem), e)
      ensures r.Some? ==> Building(old(mem), old(free), mem, free, r.value) && StandsFor(old(mem), e, mem, r.value)
    {
      hide Pages, ChildPages, IsTree, Walk, WalkEntry, Index, Span, Needs, Readable, Low, Suitable;
      if e.p { r := Clone(e.frame, 1); } else { r := AllocTable(); }
      if r.None? { return; }
      ghost var m1 := mem;
      if !e.p { EmptyTable(old(mem), e, mem, r.value, 1); }
      if shared { Restrict(r.value, 1, e.w, e.nx); }
      if e.p {
        if shared { InheritedCopy(old(mem), e, m1, mem, r.value); } else { PrivateCopy(old(mem), e, mem, r.value); }
      } else {
        StillEmpty(old(mem), e, m1, mem, r.value, shared, e.w, e.nx);
      }
    }

    /** Walks down to the last table for `vpn`, splitting large pages and adding tables where they are missing. */
    method OpenLevels(r: nat, vpn: nat, ghost m0: Memory, ghost f0: set<nat>) returns (t: Option<nat>)
      requires Building(m0, f0, mem, free, r)
      modifies this`mem, this`free
      ensures t.None? ==> !(Calm(m0, f0, current, AllRoots()) && |Low(old(free))| >= 2)
      ensures Building(m0, f0, mem, free, r) && SameWalksBelow(old(mem), r, mem, r, 1, SLOTS)
      ensures t.Some? ==> t.value in mem && OpenPath(mem, r, 1, vpn, t.value, 3)
    {
      hide Pages, ChildPages, IsTree, Normal, Index, Span, Walk, WalkEntry, OpenPath;
      OpenStart(mem, r, vpn);
      var table := r;
      var level := 1;
      while level < 3
        invariant 1 <= level <= 3 && table in mem && |Low(free)| + level >= |Low(old(free))| + 1
        invariant Building(m0, f0, mem, free, r) && SameWalksBelow(old(mem), r, mem, r, 1, SLOTS)
        invariant OpenPath(mem, r, 1, vpn, table, level)
      {
        var i := Index(vpn, level);
        var e := mem[table][i];
        ghost var m, f := mem, free;
        if !e.p || e.large {
          BuildingCalm(m0, f0, mem, free, r, current, AllRoots());
          var child;
          if e.p { child := SplitPage(e, level); } else { child := AllocTable(); }
          if child.None? { return None; }
          if !e.p { EmptyReplaces(m, e, mem, child.value, level, i); }
          e := ZERO_ENTRY.(p := true, frame := child.value);
        }
        ghost var e2 := e.(nx := false, u := true, w := true);
        OpenedStep(m0, f0, old(mem), m, f, r, vpn, table, level, mem, free, e2);
        mem := mem[table := mem[table][i := e.(nx := false, u := true, w := true)]];
        table := e.frame;
        level := level + 1;
      }
      t := Some(table);
    }
  
    /** Gives back a detached table, and with it everything taken since `m0`. */
    method DropBuilt(r: nat, ghost m0: Memory, ghost f0: set<nat>)
      requires Building(m0, f0, mem, free, r)
      modifies this`mem, this`free
      ensures mem == m0 && free == f0
    {
      FreeClone(r, 1);
    }

    /** No present slot of the kernel root grants user access. */
    method KernelClosed() returns (closed: bool)
      requires kernel in mem
      ensures closed <==> forall i :: 0 <= i < SLOTS ==> !(mem[kernel][i].p && mem[kernel][i].u)
    {
      var i := 0;
      while i < SLOTS
        invariant 0 <= i <= SLOTS
        invariant forall j :: 0 <= j < i ==> !(mem[kernel][j].p && mem[kernel][j].u)
      {
        if mem[kernel][i].p && mem[kernel][i].u { return false; }
        i := i + 1;
      }
      closed := true;
    }

    /** Copies the kernel root's present entries into a new root and marks their slots shared. */
    method Inherit(root: nat) returns (shared: seq<bool>)
      requires kernel in mem && root in mem && root != kernel && mem[root] == ZERO_TABLE
      modifies this`mem
      ensures root in mem && mem.Keys == old(mem.Keys) && Agree(old(mem), mem, old(mem.Keys) - {root})
      ensures |shared| == SLOTS && forall j :: 0 <= j < SLOTS ==> shared[j] == old(mem)[kernel][j].p
      ensures forall j :: 0 <= j < SLOTS ==> mem[root][j] == if old(mem)[kernel][j].p then old(mem)[kernel][j] else ZERO_ENTRY
    {
      shared := seq(SLOTS, _ => false);
      var i := 0;
      while i < SLOTS
        invariant 0 <= i <= SLOTS && |shared| == SLOTS && root in mem && kernel in mem && mem[kernel] == old(mem)[kernel]
        invariant mem.Keys == old(mem.Keys) && Agree(old(mem), mem, old(mem.Keys) - {root})
        invariant forall j :: 0 <= j < SLOTS ==> shared[j] == (j < i && mem[kernel][j].p)
        invariant forall j :: 0 <= j < SLOTS ==> mem[root][j] == if j < i && mem[kernel][j].p then mem[kernel][j] else ZERO_ENTRY
      {
        var e := mem[kernel][i];
        if e.p {
          mem := mem[root := mem[root][i := e]];
          shared := shared[i := true];
        }
        i := i + 1;
      }
    }

    /** Refused when the kernel root cannot be written or grants user access anywhere; otherwise a space that sees what the
        kernel sees. `record` is the page allocated for its record. */
    method CreateAddressSpace(modifiable: bool, record: nat) returns (r: AddressSpace?)
      requires Valid()
      modifies this`mem, this`free, this`spaces
      ensures Valid()
      ensures r == null ==> mem == old(mem) && free == old(free) && spaces == old(spaces)
      ensures r == null ==>
                || !modifiable || !WritableAt(Walk(mem, current, 0, kernel), kernel)
                || Low(free) == {} || (exists f :: f in Low(free) && !Suitable(mem, current, AllRoots(), f))
                || exists i :: 0 <= i < SLOTS && mem[kernel][i].p && mem[kernel][i].u
      ensures r != null ==>
                && fresh(r) && modifiable && spaces == old(spaces) + [r] && r.record == record
                && kernel in old(mem) && |r.shared| == SLOTS && (forall i :: 0 <= i < SLOTS ==> r.shared[i] == old(mem)[kernel][i].p)
                && (forall v: nat :: Translate(mem, r.View(), v) == Walk(old(mem), kernel, 0, v))
                && forall k :: 0 <= k < |old(spaces)| ==> SameWalksBelow(old(mem), old(spaces)[k].root, mem, old(spaces)[k].root, 0, SLOTS)
    {
      hide IsTree, Pages, ChildPages, Walk, WalkEntry, Owned, Index, Span, SameWalksBelow, SpaceOk, WritableAt, IdentityAt, Suitable;
      if !modifiable { return null; }
      var writable := TableWritable(current, kernel);
      if !writable { return null; }
      var closed := KernelClosed();
      if !closed { return null; }
      ghost var m0, f0, ss := mem, free, Views();
      var page := AllocTable();
      if page.None? { return null; }
      var root := page.value;
      var shared := Inherit(root);
      assert Grown(m0, f0, mem, free, {root});
      NewSpace(m0, f0, kernel, ss, mem, Space(root, shared));
      var space := new AddressSpace(record, root, shared);
      spaces := spaces + [space];
      assert Views() == ss + [space.View()];
      r := space;
    }

    /** Points slot `i` of the root at the detached table and gives back the private table it replaces. */
    method CommitRoot(space: AddressSpace, i: nat, r: nat, ghost m0: Memory, ghost f0: set<nat>, ghost k: nat) returns (e: Entry)
      requires Building(m0, f0, mem, free, r) && AllOk(m0, f0, Views()) && KernelOk(m0, f0, kernel, Views()) && i < SLOTS
      requires k < |spaces| && spaces[k] == space && forall a, b :: 0 <= a < b < |spaces| ==> spaces[a] != spaces[b]
      modifies this`mem, this`free, space`shared
      ensures Valid() && Replaced(m0, f0, old(space.View()), i, e, mem, free) && IsOpen(e) && e.frame == r
      ensures space.root in old(mem) && e == ZERO_ENTRY.(p := true, w := true, u := true, cache := old(mem)[space.root][i].cache, frame := r)
      ensures space.shared == old(space.shared)[i := false]
      ensures SameWalksBelow(old(mem), r, mem, r, 1, SLOTS)
      ensures LinkPages(mem, e, 0) == Pages(old(mem), r, 1) && mem.Keys + free == m0.Keys + f0
      ensures forall j :: 0 <= j < |spaces| && j != k ==> SameWalksBelow(m0, spaces[j].root, mem, spaces[j].root, 0, SLOTS)
      ensures SameWalksBelow(m0, kernel, mem, kernel, 0, SLOTS)
    {
      hide IsTree, Pages, ChildPages, Owned, Normal, SameWalksBelow, Agree, LinkPages, KernelOk;
      ghost var s, ss, m, f := space.View(), Views(), mem, free;
      SlotFacts(m0, f0, ss, k, i);
      var rootEntry := mem[space.root][i];
      var shared := space.shared[i];
      e := ZERO_ENTRY.(p := true, w := true, u := true, cache := rootEntry.cache, frame := r);
      OldSubtree(m0, f0, s, i, m, free, r, e);
      ghost var m3 := m[s.root := m[s.root][i := e]] - Gone(m0, s, i);
      Commit(m0, f0, s, i, m, f, r, e, m3);
      AllReplaced(m0, f0, ss, k, i, e, m3, f + Gone(m0, s, i));
      KernelReplaced(m0, f0, kernel, ss, k, i, e, m3, f + Gone(m0, s, i));
      mem := mem[space.root := mem[space.root][i := e]];
      space.shared := space.shared[i := false];
      if !shared && rootEntry.p { FreeClone(rootEntry.frame, 1); }
      assert mem == m3 && free == f + Gone(m0, s, i);
      assert Views() == ss[k := s.(shared := s.shared[i := false])];
    }

    /** The checks on the last slot's old entry `e`, before the page is put there. */
    method MayPlace(r: nat, e: Entry, vpn: nat, rsp: nat, belowKernel: bool) returns (ok: bool)
      ensures ok <==>
                && (belowKernel ==> Replaceable(mem, kernel, Views(), vpn, Occupied(stacks, Records(), vpn, rsp)) && !Uses(mem, r, 1, vpn))
                && (e.p ==> !e.u && !e.global && e.frame == vpn && belowKernel)
    {
      if belowKernel {
        var replace := CanReplace(vpn, rsp);
        if !replace { return false; }
        var used := UsesAddress(r, 1, vpn);
        if used { return false; }
      }
      if e.p && (e.u || e.global || e.frame != vpn || !belowKernel) { return false; }
      ok := true;
    }

    /** Pages can be had for a copy of what the root entry leads to and for two more tables. */
    ghost predicate Affords(m: Memory, f: set<nat>, e: Entry) reads this`current, this`spaces {
      RootReadable(m, e) && Enough(m, f, current, AllRoots(), RootNeeds(m, e) + 2)
    }

    /** A detached copy of what the root slot of `vpn` leads to, with the path to that page's last table opened. */
    method OpenRoot(space: AddressSpace, vpn: nat, ghost k: nat) returns (r: Option<(nat, nat)>)
      requires AllOk(mem, free, Views()) && k < |spaces| && spaces[k] == space
      modifies this`mem, this`free
      ensures r.None? ==> mem == old(mem) && free == old(free)
      ensures r.None? ==> space.root in mem && !Affords(mem, free, mem[space.root][Index(vpn, 0)])
      ensures r.Some? ==>
                && Building(old(mem), old(free), mem, free, r.value.0) && space.root in old(mem)
                && r.value.1 in mem && OpenPath(mem, r.value.0, 1, vpn, r.value.1, 3)
                && StandsFor(old(mem), old(mem)[space.root][Index(vpn, 0)], mem, r.value.0)
                && SameWalksBelow(mem, r.value.0, mem, r.value.0, 1, SLOTS)
    {
      hide IsTree, Pages, ChildPages, Walk, WalkEntry, Index, Span, Owned, SpaceOk, OpenPath, Normal, SameWalksBelow, Translate, StandsFor, Agree, PrivateOk, LinkPages, Adds, KernelOk, Uses, InTables;
      ghost var m0, f0 := mem, free;
      SlotFacts(m0, f0, Views(), k, Index(vpn, 0));
      var rootEntry := mem[space.root][Index(vpn, 0)];
      var root := BuildRoot(rootEntry, space.shared[Index(vpn, 0)]);
      if root.None? { return None; }
      ghost var m1 := mem;
      var table := OpenLevels(root.value, vpn, m0, f0);
      if table.None? { DropBuilt(root.value, m0, f0); return None; }
      StandsOn(m0, rootEntry, m1, mem, root.value);
      r := Some((root.value, table.value));
    }

    /** A detached table for the root slot of `vpn` in which that page is `leaf`; null, with nothing taken,
        when memory runs out or the page may not be replaced. */
    method BuildPage(space: AddressSpace, vpn: nat, leaf: Entry, rsp: nat, belowKernel: bool, ghost k: nat) returns (root: Option<nat>)
      requires AllOk(mem, free, Views()) && KernelOk(mem, free, kernel, Views())
      requires k < |spaces| && spaces[k] == space && leaf.p
      modifies this`mem, this`free
      ensures root.None? ==> mem == old(mem) && free == old(free)
      ensures root.None? ==>
                || (space.root in mem && !Affords(mem, free, mem[space.root][Index(vpn, 0)]))
                || !Yields(Translate(old(mem), space.View(), vpn), vpn, belowKernel)
                || (belowKernel && !(Replaceable(old(mem), kernel, Views(), vpn, Occupied(stacks, Records(), vpn, rsp)) && vpn !in old(free)))
      ensures root.Some? ==>
                && Building(old(mem), old(free), mem, free, root.value)
                && space.root in old(mem) && Adds(old(mem), old(mem)[space.root][Index(vpn, 0)], mem, root.value, vpn, leaf)
                && (belowKernel ==> Replaceable(old(mem), kernel, Views(), vpn, Occupied(stacks, Records(), vpn, rsp)) && vpn !in Pages(mem, root.value, 1))
                && Yields(Translate(old(mem), space.View(), vpn), vpn, belowKernel)
    {
      hide IsTree, Pages, ChildPages, Walk, WalkEntry, Index, Span, Owned, SpaceOk, OpenPath, Normal, SameWalksBelow, Translate, StandsFor, Agree, PrivateOk, LinkPages, Adds, KernelOk, Uses, InTables;
      ghost var m0, f0, s, ss := mem, free, space.View(), Views();
      var path := OpenRoot(space, vpn, k);
      assert Views() == ss;
      if path.None? { return None; }
      var (r, t) := path.value;
      ghost var m2 := mem;
      OldMapping(m0, s, m2, m2, r, vpn, t);
      TablesSame(m0, f0, mem, free, r, ss, kernel, vpn);
      UsesIs(mem, r, 1, vpn);
      var ok := MayPlace(r, mem[t][Index(vpn, 3)], vpn, rsp, belowKernel);
      if !ok { DropBuilt(r, m0, f0); return None; }
      LeafBuilt(m0, f0, m2, free, r, vpn, t, leaf);
      mem := mem[t := mem[t][Index(vpn, 3) := leaf]];
      AddsLeaf(m0, m0[s.root][Index(vpn, 0)], m2, m2, mem, r, vpn, leaf);
      assert Views() == ss;
      root := Some(r);
    }

    /** Installs one user page. `modifiable` stands for the guards on the CPU and the shootdown state,
        `rsp` is the page of the stack pointer, `physLimit` stands for the physical address width. */
    method MapAddressSpacePage(space: AddressSpace, va: nat, pa: nat, writable: bool, user: bool, otherFlags: bool,
                               physLimit: nat, modifiable: bool, rsp: nat, kernelStart: nat)
      returns (ok: bool)
      requires Valid()
      modifies this`mem, this`free, space`shared
      ensures Valid()
      ensures !ok ==> mem == old(mem) && free == old(free) && space.shared == old(space.shared)
      ensures ok ==> MapArguments(va, pa, user, otherFlags, physLimit) && modifiable && space in spaces && space !in active
      ensures ok ==> MapsOnly(old(mem), old(space.View()), mem, space.View(), va / PAGE_SIZE, pa / PAGE_SIZE, writable)
      ensures ok ==> Yields(Translate(old(mem), old(space.View()), va / PAGE_SIZE), va / PAGE_SIZE, va < kernelStart)
      // A page that may change is refused only for want of memory, or for being a page that must stay as it is.
      ensures !ok && MapArguments(va, pa, user, otherFlags, physLimit) && modifiable && space in spaces && space !in active ==>
                || (space.root in mem && !Affords(mem, free, mem[space.root][Index(va / PAGE_SIZE, 0)]))
                || !Yields(Translate(old(mem), old(space.View()), va / PAGE_SIZE), va / PAGE_SIZE, va < kernelStart)
                || (va < kernelStart &&
                    !(Replaceable(old(mem), kernel, old(Views()), va / PAGE_SIZE, Occupied(stacks, Records(), va / PAGE_SIZE, rsp)) && va / PAGE_SIZE !in old(free)))
      // No table of the kernel or of any space lies at the address that was mapped.
      ensures ok && va < kernelStart ==>
                Replaceable(old(mem), kernel, old(Views()), va / PAGE_SIZE, Occupied(stacks, Records(), va / PAGE_SIZE, rsp)) && !InTables(mem, kernel, Views(), va / PAGE_SIZE)
      ensures mem.Keys + free == old(mem.Keys + free)
      ensures ok ==> SameWalksBelow(old(mem), kernel, mem, kernel, 0, SLOTS)
      ensures ok ==> forall k :: 0 <= k < |spaces| && spaces[k] != space ==>
                spaces[k].View() == old(spaces[k].View()) &&
                SameWalksBelow(old(mem), spaces[k].root, mem, spaces[k].root, 0, SLOTS)
    {
      hide IsTree, Pages, ChildPages, Walk, WalkEntry, Index, Span, Owned, SpaceOk, MapsOnly, Normal, SameWalksBelow, Translate, Agree, PrivateOk, LinkPages, Adds, Building, KernelOk, Uses, InTables;
      if va >= USER_END || (SHARED_USER_START <= va < SHARED_USER_END) { return false; }
      if va % PAGE_SIZE != 0 || pa % PAGE_SIZE != 0 { return false; }
      if !user || otherFlags { return false; }
      if pa >= physLimit { return false; }
      if !modifiable || space !in spaces || space in active { return false; }
      ghost var m0, f0, s, ss := mem, free, space.View(), Views();
      ghost var k :| 0 <= k < |spaces| && spaces[k] == space;
      var vpn := va / PAGE_SIZE;
      var leaf := ZERO_ENTRY.(p := true, w := writable, u := true, frame := pa / PAGE_SIZE);
      var root := BuildPage(space, vpn, leaf, rsp, va < kernelStart, k);
      assert Views() == ss;
      if root.None? { return false; }
      ghost var m3 := mem;
      var e2 := CommitRoot(space, Index(vpn, 0), root.value, m0, f0, k);
      MapResult(m0, f0, s, m3, mem, free, root.value, e2, vpn, leaf, space.shared);
      if va < kernelStart { TablesKept(m0, f0, ss, k, Index(vpn, 0), e2, mem, free, kernel, vpn, Views()); }
      ok := true;
    }

    /** Gives back the private tables and the root, and takes the space off the list. */
    method DestroyAddressSpace(space: AddressSpace, modifiable: bool) returns (ok: bool)
      requires Valid()
      modifies this`mem, this`free, this`spaces
      ensures Valid()
      ensures ok <==> modifiable && space in old(spaces) && space !in active
      ensures !ok ==> mem == old(mem) && free == old(free) && spaces == old(spaces)
      ensures ok ==>
                && space.root in old(mem) && |space.shared| == SLOTS && space !in spaces
                && mem == old(mem) - Owned(old(mem), space.View()) && free == old(free) + Owned(old(mem), space.View())
                && SameWalksBelow(old(mem), kernel, mem, kernel, 0, SLOTS)
                && (exists k :: 0 <= k < |old(spaces)| && old(spaces)[k] == space && spaces == old(spaces)[..k] + old(spaces)[k + 1..])
                && forall o :: o in spaces ==> SameWalksBelow(old(mem), o.root, mem, o.root, 0, SLOTS)
    {
      hide IsTree, Pages, ChildPages, Walk, WalkEntry, Index, Span, Owned, KernelOk, SameWalksBelow, SpaceOk, Dying;
      if !modifiable || space !in spaces || space in active { return false; }
      ghost var m0, f0, ss, s := mem, free, Views(), space.View();
      assert SpaceOk(m0, f0, s) by { var j :| 0 <= j < |spaces| && spaces[j] == space; assert ss[j] == s; }
      Roots(m0, f0, ss);
      DyingStart(m0, f0, s);
      var i := 0;
      while i < SLOTS
        invariant 0 <= i <= SLOTS && spaces == old(spaces) && Dying(m0, f0, s, mem, free, i)
      {
        DyingIs(m0, f0, s, mem, free, i);
        DyingStep(m0, f0, s, mem, free, i);
        var e := mem[space.root][i];
        if !space.shared[i] && e.p { FreeClone(e.frame, 1); }
        i := i + 1;
      }
      DyingIs(m0, f0, s, mem, free, SLOTS);
      DyingEnd(m0, f0, s, mem, free);
      FreePage(space.root);
      var k := 0;
      while spaces[k] != space
        invariant k < |spaces| && spaces == old(spaces) && space !in spaces[..k] && space in spaces
        invariant mem == m0 - Owned(m0, s) && free == f0 + Owned(m0, s)
        decreases |spaces| - k
      {
        assert space in spaces[k + 1..];
        k := k + 1;
      }
      AllButOne(m0, f0, ss, kernel, k, mem);
      spaces := spaces[..k] + spaces[k + 1..];
      assert Views() == ss[..k] + ss[k + 1..];
      ok := true;
    }

    /** VMMAddressSpaceLeaf: the last table for the page; null when a large page or nothing is in the way. */
    method AddressSpaceLeaf(space: AddressSpace, vpn: nat) returns (t: Option<nat>)
      ensures t.Some? ==> t.value in mem && LinkPath(mem, space.root, 0, vpn, t.value, 3)
      ensures t.None? ==>
                || (forall x: nat :: !LinkPath(mem, space.root, 0, vpn, x, 3))
                || exists x: nat, l: nat :: l <= 3 && LinkPath(mem, space.root, 0, vpn, x, l) && x !in mem
    {
      hide LinkPath, Index;
      var table, level := space.root, 0;
      LinkSelf(mem, table, vpn);
      while level < 3
        invariant level <= 3 && LinkPath(mem, space.root, 0, vpn, table, level)
      {
        if table !in mem { return None; }
        ExtendLink(mem, space.root, 0, vpn, table, level);
        var e := mem[table][Index(vpn, level)];
        if !e.p || e.large { return None; }
        table, level := e.frame, level + 1;
      }
      if table !in mem { return None; }
      t := Some(table);
    }

    /** Takes one user page of a private slot away and says what frame it had. */
    method UnmapAddressSpacePage(space: AddressSpace, va: nat, modifiable: bool) returns (frame: Option<nat>)
      requires Valid()
      modifies this`mem
      ensures Valid()
      ensures frame.None? ==> mem == old(mem)
      ensures frame.Some? ==>
                && va < USER_END && va % PAGE_SIZE == 0 && modifiable && space in spaces && space !in active
                && UnmapsOnly(old(mem), space.View(), mem, va / PAGE_SIZE)
                && var o := Translate(old(mem), space.View(), va / PAGE_SIZE); o.Some? && o.value.own.u && o.value.frame == frame.value
      // A user page of a private slot is never refused.
      ensures frame.None? && va < USER_END && va % PAGE_SIZE == 0 && modifiable && space in spaces && space !in active
              && !space.shared[Index(va / PAGE_SIZE, 0)] ==>
                forall x: nat :: LinkPath(mem, space.root, 0, va / PAGE_SIZE, x, 3) && x in mem ==>
                                      !(mem[x][Index(va / PAGE_SIZE, 3)].p && mem[x][Index(va / PAGE_SIZE, 3)].u)
      ensures mem.Keys == old(mem.Keys) && SameWalksBelow(old(mem), kernel, mem, kernel, 0, SLOTS)
      ensures forall k :: 0 <= k < |spaces| && spaces[k] != space ==>
                SameWalksBelow(old(mem), spaces[k].root, mem, spaces[k].root, 0, SLOTS)
    {
      hide IsTree, Pages, ChildPages, Walk, WalkEntry, Index, Span, Owned, KernelOk, LinkPath, SameWalksBelow, UnmapsOnly, Reworked;
      SameEverywhere(mem, kernel);
      forall k | 0 <= k < |spaces| ensures SameWalksBelow(mem, spaces[k].root, mem, spaces[k].root, 0, SLOTS) { SameEverywhere(mem, spaces[k].root); }
      if va >= USER_END || va % PAGE_SIZE != 0 || !modifiable || space !in spaces || space in active { return None; }
      ghost var k :| 0 <= k < |spaces| && spaces[k] == space;
      assert SpaceOk(mem, free, Views()[k]);
      var vpn := va / PAGE_SIZE;
      if space.shared[Index(vpn, 0)] { return None; }
      ghost var m0, ss := mem, Views();
      var t := AddressSpaceLeaf(space, vpn);
      assert Views() == ss;
      PrivateInMemory(mem, free, space.View(), vpn);
      if t.None? { return None; }
      var e := mem[t.value][Index(vpn, 3)];
      if !e.p || !e.u {
        OneLeaf(mem, space.root, 0, vpn, t.value);
        return None;
      }
      LinkWalk(mem, space.root, 0, vpn, t.value);
      mem := mem[t.value := mem[t.value][Index(vpn, 3) := ZERO_ENTRY]];
      Cleared(m0, free, space.View(), vpn, t.value, mem);
      AllReworked(m0, free, ss, kernel, k, Index(vpn, 0), mem);
      assert Views() == ss;
      frame := Some(e.frame);
    }
  }

  /** While the processor runs on the kernel's root or on a space's, pages can be had exactly as long as low ones are free
      and each of them can be written through every root. */
  lemma {:induction false} ManagedRoot(m: Memory, free: set<nat>, kernel: nat, ss: seq<Space>, current: nat, roots: seq<nat>, n: nat)
    requires AllOk(m, free, ss) && KernelOk(m, free, kernel, ss) && |roots| == |ss| && forall k :: 0 <= k < |ss| ==> roots[k] == ss[k].root
    requires current == kernel || current in roots
    ensures Enough(m, free, current, roots, n) <==> |Low(free)| >= n && forall f :: f in Low(free) ==> Suitable(m, current, roots, f)
  {
    forall k | 0 <= k < |ss| ensures Pages(m, roots[k], 0) !! free { SpacePages(m, free, ss[k]); }
  }

  /** The page may be given to a user: it lies above the first four megabytes and is neither stack nor table. */
  ghost predicate Replaceable(m: Memory, kernel: nat, ss: seq<Space>, vpn: nat, occupied: bool) {
    vpn >= LOWEST_PAGE && !occupied && !InTables(m, kernel, ss, vpn)
  }

  predicate MapArguments(va: nat, pa: nat, user: bool, otherFlags: bool, physLimit: nat) {
    && va < USER_END && !(SHARED_USER_START <= va < SHARED_USER_END)
    && va % PAGE_SIZE == 0 && pa % PAGE_SIZE == 0 && user && !otherFlags && pa < physLimit
  }
}
