/** The kernel heap of PMM.c on values: its blocks in list order, each a header and a payload. */
module HeapSpec {
  import opened Prelude
  import opened BuddySpec

  const WORD := 0x1_0000_0000_0000_0000
  const HEADER := 32
  const ALIGNMENT := 16
  const MIN_BLOCK := 16
  const EXPAND_PAGES := 16
  const ADDRESS_LIMIT := 0x10_0000_0000_0000

  datatype Block = Block(at: nat, size: nat, free: bool)

  function End(b: Block): nat { b.at + HEADER + b.size }
  predicate Adjacent(a: Block, b: Block) { End(a) == b.at }

  /** AlignUp in 64-bit arithmetic, to 16 bytes and to a page. */
  function AlignSize(n: nat): nat { (n + ALIGNMENT - 1) % WORD - (n + ALIGNMENT - 1) % WORD % ALIGNMENT }
  function AlignPage(n: nat): nat { (n + PAGE - 1) % WORD - (n + PAGE - 1) % WORD % PAGE }

  function FindFree(bs: seq<Block>, size: nat, i: nat): (r: Option<nat>)
    requires i <= |bs|
    ensures r.Some? ==> i <= r.value < |bs| && bs[r.value].free && bs[r.value].size >= size
    ensures r.Some? ==> forall k :: i <= k < r.value ==> !(bs[k].free && bs[k].size >= size)
    ensures r.None? ==> forall k :: i <= k < |bs| ==> !(bs[k].free && bs[k].size >= size)
    decreases |bs| - i
  {
    if i == |bs| then None else if bs[i].free && bs[i].size >= size then Some(i) else FindFree(bs, size, i + 1)
  }

  /** HeapSplitBlock: what a block does not need becomes a free block of its own when that is worth a header. */
  function Split(bs: seq<Block>, i: nat, size: nat): seq<Block>
    requires i < |bs|
  {
    var b := bs[i];
    if b.size < size || b.size - size < HEADER + MIN_BLOCK then bs
    else bs[..i] + [b.(size := size), Block(b.at + HEADER + size, b.size - size - HEADER, true)] + bs[i + 1..]
  }

  /** HeapMergeWithNext. */
  function MergeNext(bs: seq<Block>, i: nat): seq<Block>
    requires i < |bs|
  {
    if i + 1 < |bs| && bs[i + 1].free && Adjacent(bs[i], bs[i + 1])
    then bs[..i] + [bs[i].(size := bs[i].size + HEADER + bs[i + 1].size)] + bs[i + 2..]
    else bs
  }

  /** The pages HeapExpand asks for, and the order that holds them. */
  function PagesFor(size: nat): nat {
    var pages := AlignPage((size + HEADER) % WORD) / PAGE;
    if pages < EXPAND_PAGES then EXPAND_PAGES else pages
  }

  /** HeapExpand once `2^order` pages at `memory` were allocated: the new list and the block to use. */
  function Expand(bs: seq<Block>, memory: nat, order: nat): (seq<Block>, nat)
    requires Pow2(order) * PAGE >= HEADER
  {
    var b := Block(memory, Pow2(order) * PAGE - HEADER, true);
    var more := bs + [b];
    if bs != [] && bs[|bs| - 1].free && Adjacent(bs[|bs| - 1], b) then (MergeNext(more, |bs| - 1), |bs| - 1)
    else (more, |bs|)
  }

  /** The end of KAlloc: block `i` is cut to size and taken. */
  function Taken(bs: seq<Block>, i: nat, size: nat): seq<Block>
    requires i < |bs|
  {
    var split := Split(bs, i, size);
    SplitSize(bs, i, size);
    split[i := split[i].(free := false)]
  }

  lemma {:induction false} SplitSize(bs: seq<Block>, i: nat, size: nat)
    requires i < |bs|
    ensures |Split(bs, i, size)| >= |bs|
  {
  }

  /** KFree of block `i`. */
  function Released(bs: seq<Block>, i: nat): seq<Block>
    requires i < |bs|
  {
    var merged := MergeNext(bs[i := bs[i].(free := true)], i);
    MergeSize(bs[i := bs[i].(free := true)], i);
    if i > 0 && merged[i - 1].free then MergeNext(merged, i - 1) else merged
  }

  lemma {:induction false} MergeSize(bs: seq<Block>, i: nat)
    requires i < |bs|
    ensures i < |MergeNext(bs, i)| <= |bs|
  {
  }

  // ---- Invariant ----

  predicate Covers(b: Block, x: nat) { b.at <= x < End(b) }

  ghost predicate Covered(bs: seq<Block>, x: nat) { exists i :: 0 <= i < |bs| && Covers(bs[i], x) }

  predicate BlockOk(b: Block) { b.at > 0 && b.at % ALIGNMENT == 0 && b.size % ALIGNMENT == 0 && End(b) <= ADDRESS_LIMIT }

  predicate Apart(a: Block, b: Block) { End(a) <= b.at || End(b) <= a.at }

  /** Blocks are aligned and disjoint, and no two list neighbours that touch are both free. */
  ghost predicate HeapOk(bs: seq<Block>) {
    && (forall i :: 0 <= i < |bs| ==> BlockOk(bs[i]))
    && (forall i, j :: 0 <= i < j < |bs| ==> Apart(bs[i], bs[j]))
    && (forall i: nat :: i + 1 < |bs| ==> Settled(bs, i))
  }

  predicate Settled(bs: seq<Block>, i: nat)
    requires i + 1 < |bs|
  {
    bs[i].free && bs[i + 1].free ==> !Adjacent(bs[i], bs[i + 1])
  }

  /** The same bytes are in some block. */
  ghost predicate SameBytes(bs: seq<Block>, cs: seq<Block>) { forall x: nat :: Covered(bs, x) <==> Covered(cs, x) }

  /** The blocks that are handed out. */
  ghost function UsedBlocks(bs: seq<Block>): set<Block> { set b | b in bs && !b.free }

  /** Lists that hold the same blocks but for free ones. */
  lemma {:induction false} SameUsed(bs: seq<Block>, cs: seq<Block>)
    requires forall k :: 0 <= k < |bs| && !bs[k].free ==> bs[k] in cs
    requires forall k :: 0 <= k < |cs| && !cs[k].free ==> cs[k] in bs
    ensures UsedBlocks(bs) == UsedBlocks(cs)
  {
  }

  lemma {:induction false} CutUsed(bs: seq<Block>, r: seq<Block>, i: nat, size: nat)
    requires CutAt(bs, r, i, size) && bs[i].free && !r[i].free
    ensures UsedBlocks(r) == UsedBlocks(bs) + {r[i]}
  {
    forall b | b in UsedBlocks(bs) ensures b in r {
      var k :| 0 <= k < |bs| && bs[k] == b;
      assert r[if k < i then k else k + 1] == b;
    }
    forall b | b in UsedBlocks(r) && b != r[i] ensures b in bs {
      var k :| 0 <= k < |r| && r[k] == b;
      assert bs[if k < i then k else k - 1] == b;
    }
  }

  lemma {:induction false} FlagUsed(bs: seq<Block>, i: nat)
    requires HeapOk(bs) && i < |bs|
    ensures bs[i].free ==> UsedBlocks(bs[i := bs[i].(free := false)]) == UsedBlocks(bs) + {bs[i].(free := false)}
    ensures UsedBlocks(bs[i := bs[i].(free := true)]) == UsedBlocks(bs) - {bs[i]}
  {
    var taken, given := bs[i := bs[i].(free := false)], bs[i := bs[i].(free := true)];
    forall b | b in UsedBlocks(bs) && b != bs[i] ensures b in taken && b in given {
      var k :| 0 <= k < |bs| && bs[k] == b;
      assert taken[k] == b && given[k] == b;
    }
    assert bs[i].free ==> taken[i] in taken;
    forall k | 0 <= k < |bs| && k != i ensures bs[k] != bs[i] {
      assert Apart(bs[if k < i then k else i], bs[if k < i then i else k]);
    }
  }

  lemma {:induction false} JoinedUsed(bs: seq<Block>, i: nat)
    requires i < |bs| && bs[i].free
    ensures UsedBlocks(MergeNext(bs, i)) == UsedBlocks(bs)
  {
    var r := MergeNext(bs, i);
    if i + 1 < |bs| && bs[i + 1].free && Adjacent(bs[i], bs[i + 1]) {
      assert Joined(bs, r, i);
      forall k | 0 <= k < |bs| && !bs[k].free ensures bs[k] in r { assert r[if k < i then k else k - 1] == bs[k]; }
      forall k | 0 <= k < |r| && !r[k].free ensures r[k] in bs { assert bs[if k < i then k else k + 1] == r[k]; }
      SameUsed(bs, r);
    }
  }

  /** What a cut leaves: the first part, a free rest right behind it if there is one, every other block as it was. */
  ghost predicate CutAt(bs: seq<Block>, r: seq<Block>, i: nat, size: nat) {
    && i < |bs| && |r| == |bs| + 1 && size + HEADER + MIN_BLOCK <= bs[i].size
    && (forall k :: 0 <= k < i ==> r[k] == bs[k]) && (forall k :: i + 2 <= k < |r| ==> r[k] == bs[k - 1])
    && r[i].at == bs[i].at && r[i].size == size
    && r[i + 1] == Block(bs[i].at + HEADER + size, bs[i].size - size - HEADER, true)
  }

  lemma {:induction false} SplitShape(bs: seq<Block>, i: nat, size: nat)
    requires i < |bs|
    ensures Split(bs, i, size) == bs || CutAt(bs, Split(bs, i, size), i, size)
    ensures i < |Split(bs, i, size)| && (bs[i].size >= size ==> Split(bs, i, size)[i].size >= size)
    ensures Split(bs, i, size) == bs || CutAt(bs, Taken(bs, i, size), i, size)
  {
    var b, r := bs[i], Split(bs, i, size);
    if b.size >= size + HEADER + MIN_BLOCK {
      assert r[i] == b.(size := size);
      CutShape(bs, r, i, size);
      CutShape(bs, Taken(bs, i, size), i, size);
    }
  }

  lemma {:induction false} CutShape(bs: seq<Block>, r: seq<Block>, i: nat, size: nat)
    requires i < |bs| && size + HEADER + MIN_BLOCK <= bs[i].size && |r| == |bs| + 1
    requires r[i].at == bs[i].at && r[i].size == size
    requires r == bs[..i] + [r[i], Block(bs[i].at + HEADER + size, bs[i].size - size - HEADER, true)] + bs[i + 1..]
    ensures CutAt(bs, r, i, size)
  {
  }

  lemma {:induction false} CutOk(bs: seq<Block>, r: seq<Block>, i: nat, size: nat)
    requires HeapOk(bs) && CutAt(bs, r, i, size) && bs[i].free && size % ALIGNMENT == 0 && !r[i].free
    ensures HeapOk(r)
  {
    CutApart(bs, r, i, size);
    hide BlockOk, Adjacent, Apart;
    forall k: nat | k + 1 < |r| ensures Settled(r, k) {
      if k + 1 < i { assert Settled(bs, k); }
      if k == i + 1 { assert Settled(bs, i); RestTouches(bs[i], size, r[k + 1]); }
      if k > i + 1 { assert Settled(bs, k - 1); }
    }
  }

  lemma {:induction false} CutApart(bs: seq<Block>, r: seq<Block>, i: nat, size: nat)
    requires HeapOk(bs) && CutAt(bs, r, i, size) && size % ALIGNMENT == 0
    ensures (forall k :: 0 <= k < |r| ==> BlockOk(r[k])) && (forall k, j :: 0 <= k < j < |r| ==> Apart(r[k], r[j]))
  {
    hide BlockOk, Adjacent, Settled;
    forall k | 0 <= k < |r| ensures BlockOk(r[k]) {
      if k == i || k == i + 1 { assert BlockOk(bs[i]); CutBlocks(bs[i], r[i], r[i + 1], size); }
      else { assert BlockOk(bs[if k < i then k else k - 1]); }
    }
    forall k, j | 0 <= k < j < |r| ensures Apart(r[k], r[j]) {
      var p, q := if k <= i then k else k - 1, if j <= i then j else j - 1;
      if p != q { assert Apart(bs[p], bs[q]); }
    }
  }

  lemma {:induction false} RestTouches(b: Block, size: nat, next: Block)
    requires size + HEADER <= b.size
    ensures Adjacent(Block(b.at + HEADER + size, b.size - size - HEADER, true), next) <==> Adjacent(b, next)
  {
  }

  lemma {:induction false} CutBlocks(b: Block, first: Block, rest: Block, size: nat)
    requires BlockOk(b) && size % ALIGNMENT == 0 && size + HEADER <= b.size
    requires first.at == b.at && first.size == size && rest.at == b.at + HEADER + size && rest.size == b.size - size - HEADER
    ensures BlockOk(first) && BlockOk(rest)
  {
    SizesAligned(b.at, b.size, size);
  }

  lemma {:induction false} CutBytes(bs: seq<Block>, r: seq<Block>, i: nat, size: nat)
    requires CutAt(bs, r, i, size)
    ensures SameBytes(bs, r)
  {
    forall x: nat ensures Covered(bs, x) <==> Covered(r, x) {
      if Covered(bs, x) {
        var k :| 0 <= k < |bs| && Covers(bs[k], x);
        assert Covers(r[if k < i then k else if k > i then k + 1 else if Covers(r[i], x) then i else i + 1], x);
      }
      if Covered(r, x) {
        var k :| 0 <= k < |r| && Covers(r[k], x);
        assert Covers(bs[if k <= i then k else k - 1], x);
      }
    }
  }

  /** Blocks that differ in the flag only cover the same bytes. */
  lemma {:induction false} FlagBytes(bs: seq<Block>, cs: seq<Block>)
    requires |bs| == |cs| && forall k :: 0 <= k < |bs| ==> bs[k].at == cs[k].at && bs[k].size == cs[k].size
    ensures SameBytes(bs, cs)
  {
    forall x: nat ensures Covered(bs, x) <==> Covered(cs, x) {
      if Covered(bs, x) { var k :| 0 <= k < |bs| && Covers(bs[k], x); assert Covers(cs[k], x); }
      if Covered(cs, x) { var k :| 0 <= k < |cs| && Covers(cs[k], x); assert Covers(bs[k], x); }
    }
  }

  /** Taking a free block keeps the heap's invariant and its bytes. */
  lemma {:induction false} TakenOk(bs: seq<Block>, i: nat, size: nat)
    requires HeapOk(bs) && i < |bs| && bs[i].free && size % ALIGNMENT == 0
    ensures HeapOk(Taken(bs, i, size)) && SameBytes(bs, Taken(bs, i, size))
    ensures i < |Taken(bs, i, size)| && !Taken(bs, i, size)[i].free && Taken(bs, i, size)[i].at == bs[i].at
    ensures bs[i].size >= size ==> size <= Taken(bs, i, size)[i].size < size + HEADER + MIN_BLOCK
    ensures bs[i].size < size ==> Taken(bs, i, size)[i].size == bs[i].size
    ensures UsedBlocks(Taken(bs, i, size)) == UsedBlocks(bs) + {Taken(bs, i, size)[i]}
  {
    SplitShape(bs, i, size);
    var t := Taken(bs, i, size);
    SplitLeaves(bs, i, size);
    if Split(bs, i, size) == bs {
      FlagBytes(bs, t);
      FlagUsed(bs, i);
      forall k: nat | k + 1 < |t| ensures Settled(t, k) { assert Settled(bs, k); }
    } else {
      hide HeapOk, Taken, Split;
      CutOk(bs, t, i, size);
      CutBytes(bs, t, i, size);
      CutUsed(bs, t, i, size);
    }
  }

  /** A block that is not cut is worth no header. */
  lemma {:induction false} SplitLeaves(bs: seq<Block>, i: nat, size: nat)
    requires i < |bs|
    ensures Split(bs, i, size) == bs ==> bs[i].size < size + HEADER + MIN_BLOCK
  {
    if bs[i].size >= size + HEADER + MIN_BLOCK { SplitSizes(bs, i, size); }
  }

  lemma {:induction false} SplitSizes(bs: seq<Block>, i: nat, size: nat)
    requires i < |bs| && bs[i].size >= size + HEADER + MIN_BLOCK
    ensures |Split(bs, i, size)| == |bs| + 1
  {
  }

  lemma {:induction false} SizesAligned(at: nat, big: nat, size: nat)
    requires at % ALIGNMENT == 0 && big % ALIGNMENT == 0 && size % ALIGNMENT == 0 && big - size >= HEADER
    ensures (at + HEADER + size) % ALIGNMENT == 0 && (big - size - HEADER) % ALIGNMENT == 0
  {
  }

  // ---- Merging ----

  ghost predicate Disjointed(bs: seq<Block>) {
    && (forall i :: 0 <= i < |bs| ==> BlockOk(bs[i]))
    && (forall i, j :: 0 <= i < j < |bs| ==> Apart(bs[i], bs[j]))
  }

  /** Settled everywhere but perhaps at `e` and `f`. */
  ghost predicate SettledBut(bs: seq<Block>, e: int, f: int) {
    forall k: nat :: k + 1 < |bs| && k != e && k != f ==> Settled(bs, k)
  }

  ghost predicate Joined(bs: seq<Block>, r: seq<Block>, i: nat) {
    && i + 1 < |bs| && |r| == |bs| - 1
    && (forall k :: 0 <= k < i ==> r[k] == bs[k]) && (forall k :: i < k < |r| ==> r[k] == bs[k + 1])
    && r[i] == bs[i].(size := bs[i].size + HEADER + bs[i + 1].size)
  }

  lemma {:induction false} JoinedOk(bs: seq<Block>, r: seq<Block>, i: nat, e: int)
    requires Disjointed(bs) && Joined(bs, r, i) && Adjacent(bs[i], bs[i + 1]) && bs[i].free && bs[i + 1].free
    requires SettledBut(bs, e, i) && e < i
    ensures Disjointed(r) && SettledBut(r, e, e) && SameBytes(bs, r)
  {
    JoinedApart(bs, r, i);
    JoinedBytes(bs, r, i);
    forall k: nat | k + 1 < |r| && k != e ensures Settled(r, k) {
      if k < i { assert Settled(bs, k); } else { assert Settled(bs, k + 1); }
    }
  }

  lemma {:induction false} JoinedApart(bs: seq<Block>, r: seq<Block>, i: nat)
    requires Disjointed(bs) && Joined(bs, r, i) && Adjacent(bs[i], bs[i + 1])
    ensures Disjointed(r)
  {
    hide BlockOk;
    forall k | 0 <= k < |r| ensures BlockOk(r[k]) {
      if k == i { JoinedBlock(bs[i], bs[i + 1]); } else { assert BlockOk(bs[if k < i then k else k + 1]); }
    }
    forall k, j | 0 <= k < j < |r| ensures Apart(r[k], r[j]) {
      if k == i { assert Apart(bs[i], bs[j + 1]) && Apart(bs[i + 1], bs[j + 1]); JoinedClear(bs[i], bs[i + 1], bs[j + 1]); }
      else if j == i { assert Apart(bs[k], bs[i]) && Apart(bs[k], bs[i + 1]); JoinedClear(bs[i], bs[i + 1], bs[k]); }
      else { assert Apart(bs[if k < i then k else k + 1], bs[if j < i then j else j + 1]); }
    }
  }

  lemma {:induction false} JoinedClear(a: Block, b: Block, c: Block)
    requires Adjacent(a, b) && (Apart(a, c) || Apart(c, a)) && (Apart(b, c) || Apart(c, b))
    ensures Apart(a.(size := a.size + HEADER + b.size), c) && Apart(c, a.(size := a.size + HEADER + b.size))
  {
  }

  lemma {:induction false} JoinedBytes(bs: seq<Block>, r: seq<Block>, i: nat)
    requires Joined(bs, r, i) && Adjacent(bs[i], bs[i + 1])
    ensures SameBytes(bs, r)
  {
    forall x: nat ensures Covered(bs, x) <==> Covered(r, x) {
      if Covered(bs, x) { var k :| 0 <= k < |bs| && Covers(bs[k], x); assert Covers(r[if k <= i then k else k - 1], x); }
      if Covered(r, x) {
        var k :| 0 <= k < |r| && Covers(r[k], x);
        assert Covers(bs[if k < i then k else if k > i then k + 1 else if Covers(bs[i], x) then i else i + 1], x);
      }
    }
  }

  lemma {:induction false} JoinedBlock(a: Block, b: Block)
    requires BlockOk(a) && BlockOk(b) && Adjacent(a, b)
    ensures BlockOk(a.(size := a.size + HEADER + b.size))
  {
  }

  /** What HeapMergeWithNext does to a free block. */
  lemma {:induction false} MergeOk(bs: seq<Block>, i: nat, e: int)
    requires Disjointed(bs) && i < |bs| && bs[i].free && SettledBut(bs, e, i) && e < i
    ensures var r := MergeNext(bs, i);
            && Disjointed(r) && SettledBut(r, e, e) && SameBytes(bs, r) && i < |r| && r[i].free
            && (forall k :: 0 <= k < i ==> r[k] == bs[k])
  {
    var r := MergeNext(bs, i);
    if i + 1 < |bs| && bs[i + 1].free && Adjacent(bs[i], bs[i + 1]) {
      assert Joined(bs, r, i);
      hide MergeNext, Disjointed, SettledBut;
      JoinedOk(bs, r, i, e);
    } else {
      forall k: nat | k + 1 < |r| && k != e ensures Settled(r, k) {}
    }
  }

  /** Freeing a block keeps the invariant: it joins both neighbours it touches that are free. */
  lemma {:induction false} ReleasedOk(bs: seq<Block>, i: nat)
    requires HeapOk(bs) && i < |bs|
    ensures HeapOk(Released(bs, i)) && SameBytes(bs, Released(bs, i))
  {
    var b1 := bs[i := bs[i].(free := true)];
    FlagBytes(bs, b1);
    assert Disjointed(b1);
    forall k: nat | k + 1 < |b1| && k != i - 1 && k != i ensures Settled(b1, k) { assert Settled(bs, k); }
    MergeOk(b1, i, i - 1);
    var m := MergeNext(b1, i);
    MergeSize(b1, i);
    if i > 0 && m[i - 1].free {
      hide MergeNext, Disjointed;
      forall k: nat | k + 1 < |m| && k != i - 1 ensures Settled(m, k) {}
      MergeOk(m, i - 1, -1);
      SettledAll(MergeNext(m, i - 1));
    } else {
      forall k: nat | k + 1 < |m| ensures Settled(m, k) { if k != i - 1 {} }
    }
  }

  /** A freed block is handed out no more, and every other block that is stays as it was. */
  lemma {:induction false} ReleasedUsed(bs: seq<Block>, i: nat)
    requires HeapOk(bs) && i < |bs|
    ensures UsedBlocks(Released(bs, i)) == UsedBlocks(bs) - {bs[i]}
  {
    FlagUsed(bs, i);
    hide HeapOk, MergeNext, UsedBlocks;
    var b1 := bs[i := bs[i].(free := true)];
    JoinedUsed(b1, i);
    var m := MergeNext(b1, i);
    MergeSize(b1, i);
    if i > 0 && m[i - 1].free { JoinedUsed(m, i - 1); }
  }

  lemma {:induction false} SettledAll(bs: seq<Block>)
    requires Disjointed(bs) && SettledBut(bs, -1, -1)
    ensures HeapOk(bs)
  {
  }

  /** Freeing what was just allocated from the list restores the whole list. */
  lemma {:induction false} FreeRestores(bs: seq<Block>, i: nat, size: nat)
    requires HeapOk(bs) && i < |bs| && bs[i].free
    ensures i < |Taken(bs, i, size)| && Released(Taken(bs, i, size), i) == bs
  {
    SplitShape(bs, i, size);
    var t := Taken(bs, i, size);
    var b1 := t[i := t[i].(free := true)];
    if i > 0 { assert Settled(bs, i - 1); }
    if Split(bs, i, size) == bs {
      assert b1 == bs;
      if i + 1 < |bs| { assert Settled(bs, i); }
    } else {
      RejoinCut(bs, t, i, size);
    }
    assert MergeNext(b1, i) == bs;
  }

  lemma {:induction false} RejoinCut(bs: seq<Block>, t: seq<Block>, i: nat, size: nat)
    requires CutAt(bs, t, i, size) && bs[i].free
    ensures MergeNext(t[i := t[i].(free := true)], i) == bs
  {
    var b1 := t[i := t[i].(free := true)];
    var r := MergeNext(b1, i);
    assert r[i] == bs[i];
    forall k | 0 <= k < |bs| ensures r[k] == bs[k] {}
  }

  // ---- Expanding ----

  ghost predicate Region(bs: seq<Block>, memory: nat, order: nat) {
    && memory % PAGE == 0 && memory > 0 && memory + Pow2(order) * PAGE <= ADDRESS_LIMIT
    && forall i :: 0 <= i < |bs| ==> End(bs[i]) <= memory || memory + Pow2(order) * PAGE <= bs[i].at
  }

  lemma {:induction false} RegionBlock(memory: nat, pages: nat)
    requires memory % PAGE == 0 && memory > 0 && pages > 0 && memory + pages * PAGE <= ADDRESS_LIMIT
    ensures var b := Block(memory, pages * PAGE - HEADER, true); BlockOk(b) && End(b) == memory + pages * PAGE
  {
    var q := memory / PAGE;
    assert memory == q * PAGE == (q * 256) * ALIGNMENT;
    assert pages * PAGE - HEADER == (pages * 256 - 2) * ALIGNMENT;
  }

  /** The new pages join the heap and nothing else changes; a free last block they touch grows over them. */
  lemma {:induction false} ExpandOk(bs: seq<Block>, memory: nat, order: nat)
    requires HeapOk(bs) && Region(bs, memory, order)
    ensures Pow2(order) * PAGE >= HEADER
    ensures var (r, j) := Expand(bs, memory, order);
            && HeapOk(r) && j < |r| && r[j].free && r[j].size >= Pow2(order) * PAGE - HEADER
            && (forall x: nat :: Covered(r, x) <==> Covered(bs, x) || memory <= x < memory + Pow2(order) * PAGE)
            && UsedBlocks(r) == UsedBlocks(bs)
  {
    hide BlockOk, SameBytes, Covered, Disjointed, HeapOk, Pow2;
    RegionBlock(memory, Pow2(order));
    var b := Block(memory, Pow2(order) * PAGE - HEADER, true);
    var more := bs + [b];
    AppendBlock(bs, b);
    SameUsed(bs, more);
    if bs != [] && bs[|bs| - 1].free && Adjacent(bs[|bs| - 1], b) {
      MergeOk(more, |bs| - 1, -1);
      SettledAll(MergeNext(more, |bs| - 1));
      SameMeans(more, MergeNext(more, |bs| - 1));
      JoinedUsed(more, |bs| - 1);
    } else {
      forall k: nat | k + 1 < |more| ensures Settled(more, k) {}
      assert SettledBut(more, -1, -1);
      SettledAll(more);
    }
  }

  lemma {:induction false} SameMeans(bs: seq<Block>, cs: seq<Block>)
    requires SameBytes(bs, cs)
    ensures forall x: nat :: Covered(bs, x) <==> Covered(cs, x)
  {
  }

  lemma {:induction false} AppendBlock(bs: seq<Block>, b: Block)
    requires HeapOk(bs) && BlockOk(b) && forall i :: 0 <= i < |bs| ==> Apart(bs[i], b)
    ensures Disjointed(bs + [b]) && SettledBut(bs + [b], -1, |bs| - 1)
    ensures forall x: nat :: Covered(bs + [b], x) <==> Covered(bs, x) || Covers(b, x)
  {
    var more := bs + [b];
    hide BlockOk;
    forall i, j | 0 <= i < j < |more| ensures Apart(more[i], more[j]) { if j == |bs| { assert Apart(bs[i], b); } }
    forall k: nat | k + 1 < |more| && k != |bs| - 1 ensures Settled(more, k) { assert Settled(bs, k); }
    forall x: nat ensures Covered(more, x) <==> Covered(bs, x) || Covers(b, x) {
      if Covered(bs, x) { var k :| 0 <= k < |bs| && Covers(bs[k], x); assert Covers(more[k], x); }
      if Covers(b, x) { assert Covers(more[|bs|], x); }
      if Covered(more, x) { var k :| 0 <= k < |more| && Covers(more[k], x); if k < |bs| { assert Covers(bs[k], x); } }
    }
  }

  // ---- Allocation ----

  function OrderOf(pages: nat, o: nat): (r: nat)
    ensures r >= o && Pow2(r) >= pages
    decreases pages - Pow2(o)
  {
    if Pow2(o) >= pages then o else OrderOf(pages, o + 1)
  }

  /** KAlloc; `memory` is what KAllocPages gives HeapExpand, if it comes to that. */
  function Alloc(bs: seq<Block>, request: nat, memory: Option<nat>): (seq<Block>, Option<nat>) {
    if request == 0 then (bs, None) else
    var size := AlignSize(request);
    var found := FindFree(bs, size, 0);
    if found.Some? then (Taken(bs, found.value, size), found) else
    var order := OrderOf(PagesFor(size), 0);
    if order > TOP || memory.None? || Pow2(order) * PAGE < HEADER then (bs, None) else
    var (more, j) := Expand(bs, memory.value, order);
    if j >= |more| then (bs, None) else (Taken(more, j, size), Some(j))
  }

  /** The largest request whose rounding stays inside 64 bits. */
  const LARGEST := WORD - PAGE - HEADER

  lemma {:induction false} SizeOf(request: nat)
    requires 0 < request < WORD
    ensures var size := AlignSize(request);
            && size % ALIGNMENT == 0 && (request <= LARGEST ==> request <= size <= LARGEST && size < request + 16)
  {
  }

  lemma {:induction false} PagesSuffice(size: nat)
    requires size <= LARGEST
    ensures PagesFor(size) * PAGE >= size + HEADER
    ensures PagesFor(size) == 16 || (PagesFor(size) > 16 && PagesFor(size) * PAGE < size + HEADER + PAGE)
  {
  }

  lemma {:induction false} MulMore(a: nat, b: nat, m: nat)
    requires a <= b
    ensures a * m <= b * m
  {
  }

  /** Byte `x` is in the pages HeapExpand would get for the request. */
  predicate InRegion(request: nat, memory: Option<nat>, x: nat) {
    memory.Some? && memory.value <= x < memory.value + Pow2(OrderOf(PagesFor(AlignSize(request)), 0)) * PAGE
  }

  /** The request does not fit the list and gets new pages. */
  predicate Expands(bs: seq<Block>, request: nat, memory: Option<nat>) {
    && request != 0 && memory.Some? && FindFree(bs, AlignSize(request), 0).None?
    && OrderOf(PagesFor(AlignSize(request)), 0) <= TOP
  }

  /** KAlloc succeeds exactly when a free block is large enough or pages can be had, and takes the first such block. It
      is as large as asked, and less than 64 bytes larger, exactly when the request is at most 2^64 - 4128; beyond that
      the rounding wraps and a block that is too small is handed out. No other block that is handed out changes. */
  lemma {:induction false} AllocMeaning(bs: seq<Block>, request: nat, memory: Option<nat>)
    requires HeapOk(bs) && 0 < request < WORD
    requires memory.Some? ==> Region(bs, memory.value, OrderOf(PagesFor(AlignSize(request)), 0))
    ensures var (r, i) := Alloc(bs, request, memory);
            && HeapOk(r)
            && (i.None? ==> r == bs)
            && (i.Some? <==> (exists k :: 0 <= k < |bs| && bs[k].free && bs[k].size >= AlignSize(request))
                             || (memory.Some? && PagesFor(AlignSize(request)) <= 0x10_0000))
            && (i.Some? ==> i.value < |r| && !r[i.value].free && (r[i.value].size >= request <==> request <= LARGEST))
            && (i.Some? && request <= LARGEST ==> r[i.value].size < request + 64)
            && (i.Some? ==> UsedBlocks(r) == UsedBlocks(bs) + {r[i.value]})
            && (forall k :: 0 <= k < |bs| && bs[k].free && bs[k].size >= AlignSize(request) ==> i.Some? && i.value <= k && r[i.value].at == bs[i.value].at)
            && (forall x: nat :: Covered(r, x) <==> Covered(bs, x) || (Expands(bs, request, memory) && InRegion(request, memory, x)))
  {
    var size := AlignSize(request);
    SizeOf(request);
    OrderFits(PagesFor(size));
    hide AlignSize, PagesFor, OrderOf, Taken, Expand, HeapOk, Covered, UsedBlocks, Pow2, Region;
    var found := FindFree(bs, size, 0);
    if found.Some? { FitsTaken(bs, found.value, request); }
    else if memory.Some? {
      ExpandOk(bs, memory.value, OrderOf(PagesFor(size), 0));
      if OrderOf(PagesFor(size), 0) <= TOP {
        var (more, j) := Expand(bs, memory.value, OrderOf(PagesFor(size), 0));
        if request <= LARGEST {
          PagesSuffice(size);
          MulMore(PagesFor(size), Pow2(OrderOf(PagesFor(size), 0)), PAGE);
        }
        FitsTaken(more, j, request);
      }
    }
  }

  /** Taking a free block that is large enough, or any if the size has wrapped. */
  lemma {:induction false} FitsTaken(bs: seq<Block>, i: nat, request: nat)
    requires HeapOk(bs) && i < |bs| && bs[i].free && 0 < request < WORD && (request <= LARGEST ==> bs[i].size >= AlignSize(request))
    ensures var r := Taken(bs, i, AlignSize(request));
            && HeapOk(r) && i < |r| && !r[i].free && r[i].at == bs[i].at && (r[i].size >= request <==> request <= LARGEST)
            && (request <= LARGEST ==> r[i].size < request + 64)
            && UsedBlocks(r) == UsedBlocks(bs) + {r[i]} && SameBytes(bs, r)
  {
    SizeOf(request);
    TakenOk(bs, i, AlignSize(request));
    hide AlignSize, Taken;
    SmallBlock(Taken(bs, i, AlignSize(request)), i);
  }

  lemma {:induction false} OrderLeast(pages: nat, o: nat, m: nat)
    requires o <= m && Pow2(m) >= pages
    ensures OrderOf(pages, o) <= m
    decreases m - o
  {
    if Pow2(o) < pages { OrderLeast(pages, o + 1, m); }
  }

  lemma {:induction false} OrderFits(pages: nat)
    ensures OrderOf(pages, 0) <= TOP <==> pages <= 0x10_0000
  {
    PowAdd(1, 1);
    PowAdd(2, 2);
    PowAdd(4, 1);
    PowAdd(5, 5);
    PowAdd(10, 10);
    assert Pow2(1) == 2 && Pow2(TOP) == 0x10_0000;
    if pages <= Pow2(TOP) { OrderLeast(pages, 0, TOP); }
    else if OrderOf(pages, 0) <= TOP { Pow2Grows(OrderOf(pages, 0), TOP); }
  }

  lemma {:induction false} Pow2Grows(a: nat, b: nat)
    requires a <= b
    ensures Pow2(a) <= Pow2(b)
    decreases b
  {
    if a < b { Pow2Grows(a, b - 1); }
  }

  lemma {:induction false} SmallBlock(bs: seq<Block>, i: nat)
    requires HeapOk(bs) && i < |bs|
    ensures bs[i].size < LARGEST
  {
    assert BlockOk(bs[i]);
  }

  /** The largest 64-bit request rounds to zero and is answered with an empty block. */
  lemma {:induction false} WrappedRequest()
    ensures var r := Alloc([Block(PAGE, 65504, true)], WORD - 1, None);
            HeapOk([Block(PAGE, 65504, true)]) && r.1 == Some(0) && r.0[0] == Block(PAGE, 0, false)
  {
    assert AlignSize(WORD - 1) == 0;
  }

  // ---- Runs ----

  /** The heap and the page runs HeapExpand obtained, each an address and an order. */
  datatype World = World(blocks: seq<Block>, regions: seq<(nat, nat)>)

  datatype Event = Get(request: nat, memory: Option<nat>) | Put(index: nat)

  /** KAllocPages gives pages no block lies in; callers free blocks they hold. */
  ghost predicate Enabled(w: World, e: Event) {
    match e
    case Get(request, memory) =>
      request < WORD && (memory.Some? ==> Region(w.blocks, memory.value, OrderOf(PagesFor(AlignSize(request)), 0)))
    case Put(i) => i < |w.blocks| && !w.blocks[i].free
  }

  function Step(w: World, e: Event): World {
    match e
    case Get(request, memory) =>
      World(Alloc(w.blocks, request, memory).0,
            if Expands(w.blocks, request, memory) then w.regions + [(memory.value, OrderOf(PagesFor(AlignSize(request)), 0))]
            else w.regions)
    case Put(i) => if i < |w.blocks| then w.(blocks := Released(w.blocks, i)) else w
  }

  ghost predicate InRegions(regions: seq<(nat, nat)>, x: nat) {
    exists k :: 0 <= k < |regions| && regions[k].0 <= x < regions[k].0 + Pow2(regions[k].1) * PAGE
  }

  /** The blocks lie exactly on the pages obtained. */
  ghost predicate Tiled(w: World) {
    HeapOk(w.blocks) && forall x: nat :: Covered(w.blocks, x) <==> InRegions(w.regions, x)
  }

  lemma {:induction false} StepTiles(w: World, e: Event)
    requires Tiled(w) && Enabled(w, e)
    ensures Tiled(Step(w, e))
  {
    match e {
      case Put(i) =>
        ReleasedOk(w.blocks, i);
        SameMeans(w.blocks, Released(w.blocks, i));
      case Get(request, memory) =>
        if request != 0 {
          AllocMeaning(w.blocks, request, memory);
          hide HeapOk, Covered, Alloc, PagesFor, AlignSize, OrderOf, FindFree, Pow2;
          if Expands(w.blocks, request, memory) {
            MoreRegions(w.regions, memory.value, OrderOf(PagesFor(AlignSize(request)), 0));
          }
        }
    }
  }

  lemma {:induction false} MoreRegions(regions: seq<(nat, nat)>, memory: nat, order: nat)
    ensures forall x: nat :: InRegions(regions + [(memory, order)], x)
              <==> InRegions(regions, x) || memory <= x < memory + Pow2(order) * PAGE
  {
    hide Pow2;
    var more := regions + [(memory, order)];
    forall x: nat ensures InRegions(more, x) <==> InRegions(regions, x) || memory <= x < memory + Pow2(order) * PAGE {
      if InRegions(regions, x) {
        var k :| 0 <= k < |regions| && regions[k].0 <= x < regions[k].0 + Pow2(regions[k].1) * PAGE;
        assert more[k] == regions[k];
      }
      if memory <= x < memory + Pow2(order) * PAGE { assert more[|regions|] == (memory, order); }
    }
  }

  function Run(w: World, es: seq<Event>): World { if es == [] then w else Step(Run(w, es[..|es| - 1]), es[|es| - 1]) }

  ghost predicate AllEnabled(w: World, es: seq<Event>) {
    es != [] ==> AllEnabled(w, es[..|es| - 1]) && Enabled(Run(w, es[..|es| - 1]), es[|es| - 1])
  }

  /** Over every run from the empty heap the blocks tile exactly the pages obtained, aligned and disjoint, and no
      two list neighbours that touch are both free. */
  lemma {:induction false} RunTiles(es: seq<Event>)
    requires AllEnabled(World([], []), es)
    ensures Tiled(Run(World([], []), es))
  {
    if es != [] {
      RunTiles(es[..|es| - 1]);
      StepTiles(Run(World([], []), es[..|es| - 1]), es[|es| - 1]);
    }
  }
}
