/** The heap of PMM.c in place: block headers in memory, linked both ways in list order. */
module KernelHeap {
  import opened Prelude
  import BuddySpec
  import PageAllocator
  import opened HeapSpec

  const NULL: nat := 0

  datatype Header = Header(size: nat, free: bool, next: nat, previous: nat)

  const NOTHING := Header(0, false, NULL, NULL)

  function At(headers: map<nat, Header>, a: nat): Header { if a in headers then headers[a] else NOTHING }

  function NextOf(bs: seq<Block>, i: nat): nat { if i + 1 < |bs| then bs[i + 1].at else NULL }
  function PreviousOf(bs: seq<Block>, i: nat): nat { if 0 < i <= |bs| then bs[i - 1].at else NULL }

  /** The header of block `i` says what the block is and names its neighbours. */
  ghost predicate HeaderOk(headers: map<nat, Header>, bs: seq<Block>, i: nat)
    requires i < |bs|
  {
    && bs[i].at != NULL && bs[i].at in headers
    && headers[bs[i].at] == Header(bs[i].size, bs[i].free, NextOf(bs, i), PreviousOf(bs, i))
  }

  ghost predicate Linked(headers: map<nat, Header>, head: nat, tail: nat, bs: seq<Block>) {
    && head == (if bs == [] then NULL else bs[0].at) && tail == (if bs == [] then NULL else bs[|bs| - 1].at)
    && (forall i, j :: 0 <= i < j < |bs| ==> bs[i].at != bs[j].at)
    && (forall i: nat :: i < |bs| ==> HeaderOk(headers, bs, i))
  }

  class Heap {
    var headers: map<nat, Header>
    var head: nat
    var tail: nat
    ghost var blocks: seq<Block>

    ghost predicate Valid() reads this { Linked(headers, head, tail, blocks) }

    constructor ()
      ensures Valid() && blocks == []
    {
      headers, head, tail, blocks := map[], NULL, NULL, [];
    }

    /** HeapFindFreeBlock; the index says where in the list the block is. */
    method FindFreeBlock(size: nat) returns (block: nat, ghost index: nat)
      requires Valid()
      ensures var r := FindFree(blocks, size, 0);
              block == (if r.None? then NULL else blocks[r.value].at) && (block == NULL <==> r.None?)
      ensures var r := FindFree(blocks, size, 0); r.Some? ==> index == r.value
    {
      block, index := head, 0;
      First(headers, head, tail, blocks);
      while block != NULL
        invariant 0 <= index <= |blocks| && FindFree(blocks, size, 0) == FindFree(blocks, size, index)
        invariant block == (if index < |blocks| then blocks[index].at else NULL) && (block == NULL <==> index == |blocks|)
        decreases |blocks| - index
      {
        assert HeaderOk(headers, blocks, index);
        if At(headers, block).free && At(headers, block).size >= size { return; }
        if index + 1 < |blocks| { assert HeaderOk(headers, blocks, index + 1); }
        block := At(headers, block).next;
        index := index + 1;
      }
    }

    /** HeapSplitBlock on block `i`. */
    method SplitBlock(block: nat, size: nat, ghost i: nat)
      requires Valid() && i < |blocks| && block == blocks[i].at && HeapOk(blocks)
      modifies this
      ensures Valid() && blocks == Split(old(blocks), i, size)
    {
      hide HeapOk, Split, CutAt, Linked;
      HeaderAt(headers, head, tail, blocks, i);
      var b := At(headers, block);
      if b.size < size { SplitNone(blocks, i, size); return; }
      var remaining := b.size - size;
      if remaining < HEADER + MIN_BLOCK { SplitNone(blocks, i, size); return; }
      var rest := block + HEADER + size;
      ghost var old0, bs, r := headers, blocks, Split(blocks, i, size);
      SplitSome(bs, i, size);
      RestNew(bs, i, rest);
      if i + 1 < |bs| { HeaderAt(headers, head, tail, bs, i + 1); }
      headers := headers[rest := Header(remaining - HEADER, true, b.next, block)];
      ghost var tail0 := tail;
      if b.next != NULL { headers := headers[b.next := At(headers, b.next).(previous := rest)]; } else { tail := rest; }
      headers := headers[block := At(headers, block).(next := rest, size := size)];
      SplitLinked(old0, headers, head, tail0, tail, bs, r, i, size);
      blocks := r;
    }

    /** HeapMergeWithNext on block `i`. */
    method MergeWithNext(block: nat, ghost i: nat)
      requires Valid() && i < |blocks| && block == blocks[i].at
      modifies this
      ensures Valid() && blocks == MergeNext(old(blocks), i)
    {
      hide Linked, MergeNext, Joined;
      ghost var old0, bs, tail0 := headers, blocks, tail;
      HeaderAt(headers, head, tail, bs, i);
      MergeCases(bs, i);
      var b := At(headers, block);
      if b.next == NULL { return; }
      HeaderAt(headers, head, tail, bs, i + 1);
      var next := At(headers, b.next);
      if !next.free { return; }
      if block + HEADER + b.size != b.next { return; }
      ghost var r := MergeNext(bs, i);
      if i + 2 < |bs| { HeaderAt(headers, head, tail, bs, i + 2); Different(headers, head, tail, bs, i, i + 2); }
      headers := headers[block := b.(size := b.size + HEADER + next.size, next := next.next)];
      if next.next != NULL { headers := headers[next.next := At(headers, next.next).(previous := block)]; } else { tail := block; }
      JoinedLinked(old0, headers, head, tail0, tail, bs, r, i);
      blocks := r;
    }

    /** HeapExpand once `2^order` pages at `memory` were allocated. */
    method ExpandWith(memory: nat, order: nat) returns (block: nat, ghost index: nat)
      requires Valid() && HeapOk(blocks) && Region(blocks, memory, order)
      modifies this
      ensures Valid() && BuddySpec.Pow2(order) * BuddySpec.PAGE >= HEADER
      ensures (blocks, index) == Expand(old(blocks), memory, order) && index < |blocks| && block == blocks[index].at
    {
      ghost var bs := blocks;
      ExpandOk(bs, memory, order);
      RegionNew(bs, memory, order);
      First(headers, head, tail, bs);
      Last(headers, head, tail, bs);
      var size := BuddySpec.Pow2(order) * BuddySpec.PAGE - HEADER;
      ghost var old0, tail0 := headers, tail;
      hide HeapOk, Linked, MergeNext, BuddySpec.Pow2, Region;
      ghost var more := bs + [Block(memory, size, true)];
      index := |bs|;
      block := memory;
      if head == NULL {
        headers := headers[memory := Header(size, true, NULL, NULL)];
        AppendLinked(old0, headers, head, tail0, memory, bs, Block(memory, size, true));
        head, tail, blocks := memory, memory, more;
        return;
      }
      HeaderAt(headers, head, tail, bs, |bs| - 1);
      headers := headers[memory := Header(size, true, NULL, tail)];
      headers := headers[tail := At(headers, tail).(next := memory)];
      AppendLinked(old0, headers, head, tail0, head, bs, Block(memory, size, true));
      var previous := tail;
      tail, blocks := memory, more;
      if At(headers, previous).free && previous + HEADER + At(headers, previous).size == memory {
        block := previous;
        index := |bs| - 1;
        MergeWithNext(previous, index);
        HeadStays(more, index);
      }
    }

    /** KAlloc; `memory` is what KAllocPages gives HeapExpand, if it comes to that. */
    method KAlloc(request: nat, memory: Option<nat>) returns (address: nat, ghost index: nat)
      requires Valid() && HeapOk(blocks) && request < WORD
      requires memory.Some? ==> Region(blocks, memory.value, OrderOf(PagesFor(AlignSize(request)), 0))
      modifies this
      ensures Valid() && HeapOk(blocks)
      ensures var (r, i) := Alloc(old(blocks), request, memory);
              blocks == r && if i.None? then address == NULL else index == i.value < |blocks| && address == blocks[index].at + HEADER
      ensures address != NULL ==> !blocks[index].free && (blocks[index].size >= request <==> request <= LARGEST)
    {
      index := 0;
      if request == 0 { return NULL, 0; }
      AllocMeaning(blocks, request, memory);
      SizeOf(request);
      hide HeapOk, Linked, Taken, Split, Expand, FindFree, AlignSize, PagesFor, OrderOf, Region, BuddySpec.Pow2;
      var size := AlignSize(request);
      var block;
      block, index := FindFreeBlock(size);
      ghost var bs := blocks;
      if block == NULL {
        var pages := PagesFor(size);
        PagesBelow(size);
        var order := PageAllocator.Pages.PagesToOrder(pages);
        OrderIs(pages, order);
        if order > BuddySpec.TOP { return NULL, 0; }
        if memory.None? { return NULL, 0; }
        ExpandOk(blocks, memory.value, order);
        block, index := ExpandWith(memory.value, order);
      }
      TakenOk(blocks, index, size);
      TakeBlock(block, size, index);
      address := block + HEADER;
    }

    /** The end of KAlloc: the block is cut to size and marked. */
    method TakeBlock(block: nat, size: nat, ghost i: nat)
      requires Valid() && HeapOk(blocks) && i < |blocks| && block == blocks[i].at
      modifies this
      ensures Valid() && blocks == Taken(old(blocks), i, size)
    {
      hide HeapOk, Linked;
      ghost var bs := blocks;
      SplitShape(bs, i, size);
      SplitBlock(block, size, i);
      Mark(block, false, i);
    }

    /** Sets the flag of block `i`. */
    method Mark(block: nat, free: bool, ghost i: nat)
      requires Valid() && i < |blocks| && block == blocks[i].at
      modifies this
      ensures Valid() && blocks == old(blocks)[i := old(blocks)[i].(free := free)]
    {
      HeaderAt(headers, head, tail, blocks, i);
      FlagLinked(headers, head, tail, blocks, i, free);
      headers := headers[block := At(headers, block).(free := free)];
      blocks := blocks[i := blocks[i].(free := free)];
    }

    /** KFree of a block's payload address. */
    method KFree(address: nat, ghost i: nat)
      requires Valid() && HeapOk(blocks)
      requires address != NULL ==> i < |blocks| && address == blocks[i].at + HEADER
      modifies this
      ensures Valid() && HeapOk(blocks)
      ensures blocks == if address == NULL then old(blocks) else Released(old(blocks), i)
    {
      hide HeapOk, Linked, MergeNext, BlockOk, Apart, Settled;
      if address == NULL { return; }
      ReleasedOk(blocks, i);
      var block := address - HEADER;
      Mark(block, true, i);
      HeadStays(blocks, i);
      MergeWithNext(block, i);
      HeaderAt(headers, head, tail, blocks, i);
      var previous := At(headers, block).previous;
      if previous != NULL {
        HeaderAt(headers, head, tail, blocks, i - 1);
        if At(headers, previous).free { MergeWithNext(previous, i - 1); }
      }
    }
  }

  lemma {:induction false} SplitNone(bs: seq<Block>, i: nat, size: nat)
    requires i < |bs| && (bs[i].size < size || bs[i].size - size < HEADER + MIN_BLOCK)
    ensures Split(bs, i, size) == bs
  {
  }

  lemma {:induction false} SplitSome(bs: seq<Block>, i: nat, size: nat)
    requires i < |bs| && bs[i].size >= size + HEADER + MIN_BLOCK
    ensures CutAt(bs, Split(bs, i, size), i, size) && Split(bs, i, size)[i].free == bs[i].free
  {
    SplitShape(bs, i, size);
  }

  /** What the list says of block `i` is in its header, and its neighbours are elsewhere. */
  lemma {:induction false} HeaderAt(headers: map<nat, Header>, head: nat, tail: nat, bs: seq<Block>, i: nat)
    requires Linked(headers, head, tail, bs) && i < |bs|
    ensures bs[i].at != NULL && bs[i].at in headers
    ensures headers[bs[i].at] == Header(bs[i].size, bs[i].free, NextOf(bs, i), PreviousOf(bs, i))
    ensures (NextOf(bs, i) == NULL <==> i + 1 == |bs|) && NextOf(bs, i) != bs[i].at && PreviousOf(bs, i) != bs[i].at
    ensures (PreviousOf(bs, i) == NULL <==> i == 0) && (i + 1 < |bs| && i > 0 ==> NextOf(bs, i) != PreviousOf(bs, i))
  {
    assert HeaderOk(headers, bs, i);
    if i + 1 < |bs| { assert HeaderOk(headers, bs, i + 1); }
    if i > 0 { assert HeaderOk(headers, bs, i - 1); }
  }

  /** A rest begins inside its block, where no other block does. */
  lemma {:induction false} RestNew(bs: seq<Block>, i: nat, at: nat)
    requires HeapOk(bs) && i < |bs| && bs[i].at < at < End(bs[i])
    ensures forall k :: 0 <= k < |bs| ==> bs[k].at != at
  {
    forall k | 0 <= k < |bs| ensures bs[k].at != at {
      if k < i { assert Apart(bs[k], bs[i]); } else if i < k { assert Apart(bs[i], bs[k]); }
    }
  }

  /** Headers that say what the split list says. */
  lemma {:induction false} SplitLinked(h: map<nat, Header>, h': map<nat, Header>, head: nat, tail: nat, tail': nat,
                                       bs: seq<Block>, r: seq<Block>, i: nat, size: nat)
    requires Linked(h, head, tail, bs) && CutAt(bs, r, i, size) && r[i].free == bs[i].free
    requires forall k :: 0 <= k < |bs| ==> bs[k].at != r[i + 1].at
    requires bs[i].at in h' && h'[bs[i].at] == Header(size, bs[i].free, r[i + 1].at, PreviousOf(bs, i))
    requires r[i + 1].at in h' && h'[r[i + 1].at] == Header(r[i + 1].size, true, NextOf(bs, i), bs[i].at)
    requires i + 1 < |bs| ==>
               bs[i + 1].at in h' && h'[bs[i + 1].at] == Header(bs[i + 1].size, bs[i + 1].free, NextOf(bs, i + 1), r[i + 1].at)
    requires forall a :: a in h && a != bs[i].at && a != NextOf(bs, i) && a != r[i + 1].at ==> a in h' && h'[a] == h[a]
    requires tail' == if i + 1 < |bs| then tail else r[i + 1].at
    ensures Linked(h', head, tail', r)
  {
    forall k: nat | k < |r| ensures HeaderOk(h', r, k) {
      if k < i { assert HeaderOk(h, bs, k); }
      else if k > i + 1 { assert HeaderOk(h, bs, k - 1); }
      else { assert HeaderOk(h, bs, i); }
    }
    forall k, j | 0 <= k < j < |r| ensures r[k].at != r[j].at {
      if k != i + 1 && j != i + 1 { assert bs[if k <= i then k else k - 1].at != bs[if j <= i then j else j - 1].at; }
    }
  }

  lemma {:induction false} First(headers: map<nat, Header>, head: nat, tail: nat, bs: seq<Block>)
    requires Linked(headers, head, tail, bs)
    ensures head == (if bs == [] then NULL else bs[0].at) && (head == NULL <==> bs == [])
  {
    if bs != [] { assert HeaderOk(headers, bs, 0); }
  }

  lemma {:induction false} Last(headers: map<nat, Header>, head: nat, tail: nat, bs: seq<Block>)
    requires Linked(headers, head, tail, bs)
    ensures tail == (if bs == [] then NULL else bs[|bs| - 1].at)
  {
  }

  lemma {:induction false} Different(headers: map<nat, Header>, head: nat, tail: nat, bs: seq<Block>, i: nat, j: nat)
    requires Linked(headers, head, tail, bs) && i < j < |bs|
    ensures bs[i].at != bs[j].at
  {
  }

  lemma {:induction false} MergeCases(bs: seq<Block>, i: nat)
    requires i < |bs|
    ensures if i + 1 < |bs| && bs[i + 1].free && Adjacent(bs[i], bs[i + 1]) then Joined(bs, MergeNext(bs, i), i) else MergeNext(bs, i) == bs
  {
    if i + 1 < |bs| && bs[i + 1].free && Adjacent(bs[i], bs[i + 1]) {
      JoinedShape(bs, MergeNext(bs, i), i, bs[i].(size := bs[i].size + HEADER + bs[i + 1].size));
    }
  }

  lemma {:induction false} JoinedShape(bs: seq<Block>, r: seq<Block>, i: nat, b: Block)
    requires i + 1 < |bs| && r == bs[..i] + [b] + bs[i + 2..] && b == bs[i].(size := bs[i].size + HEADER + bs[i + 1].size)
    ensures Joined(bs, r, i)
  {
    hide Adjacent;
    assert r[i] == b;
  }

  lemma {:induction false} HeadStays(bs: seq<Block>, i: nat)
    requires i < |bs|
    ensures i < |MergeNext(bs, i)| && MergeNext(bs, i)[i].at == bs[i].at
  {
  }

  lemma {:induction false} JoinedLinked(h: map<nat, Header>, h': map<nat, Header>, head: nat, tail: nat, tail': nat,
                                        bs: seq<Block>, r: seq<Block>, i: nat)
    requires Linked(h, head, tail, bs) && Joined(bs, r, i)
    requires bs[i].at in h' && h'[bs[i].at] == Header(r[i].size, bs[i].free, NextOf(bs, i + 1), PreviousOf(bs, i))
    requires i + 2 < |bs| ==>
               bs[i + 2].at in h' && h'[bs[i + 2].at] == Header(bs[i + 2].size, bs[i + 2].free, NextOf(bs, i + 2), bs[i].at)
    requires forall a :: a in h && a != bs[i].at && a != NextOf(bs, i + 1) ==> a in h' && h'[a] == h[a]
    requires tail' == if i + 2 < |bs| then tail else bs[i].at
    ensures Linked(h', head, tail', r)
  {
    forall k: nat | k < |r| ensures HeaderOk(h', r, k) {
      assert HeaderOk(h, bs, if k <= i then k else k + 1);
    }
    forall k, j | 0 <= k < j < |r| ensures r[k].at != r[j].at {
      assert bs[if k <= i then k else k + 1].at != bs[if j <= i then j else j + 1].at;
    }
  }

  lemma {:induction false} RegionNew(bs: seq<Block>, memory: nat, order: nat)
    requires Region(bs, memory, order)
    ensures memory != NULL && forall k :: 0 <= k < |bs| ==> bs[k].at != memory
  {
    RegionSize(order);
    forall k | 0 <= k < |bs| ensures bs[k].at != memory {
      assert End(bs[k]) <= memory || memory + BuddySpec.Pow2(order) * BuddySpec.PAGE <= bs[k].at;
    }
  }

  lemma {:induction false} RegionSize(order: nat)
    ensures BuddySpec.Pow2(order) * BuddySpec.PAGE > 0
  {
  }

  lemma {:induction false} AppendLinked(h: map<nat, Header>, h': map<nat, Header>, head: nat, tail: nat, head': nat,
                                        bs: seq<Block>, b: Block)
    requires Linked(h, head, tail, bs) && b.at != NULL && forall k :: 0 <= k < |bs| ==> bs[k].at != b.at
    requires b.at in h' && h'[b.at] == Header(b.size, b.free, NULL, tail)
    requires bs != [] ==> tail in h' && tail in h && h'[tail] == h[tail].(next := b.at)
    requires forall a :: a in h && a != b.at && a != tail ==> a in h' && h'[a] == h[a]
    requires head' == if bs == [] then b.at else head
    ensures Linked(h', head', b.at, bs + [b])
  {
    var more := bs + [b];
    forall k: nat | k < |more| ensures HeaderOk(h', more, k) {
      if k < |bs| { assert HeaderOk(h, bs, k); if k < |bs| - 1 { assert bs[k].at != bs[|bs| - 1].at; } }
    }
  }

  /** Changing a block's flag in its header. */
  lemma {:induction false} FlagLinked(h: map<nat, Header>, head: nat, tail: nat, bs: seq<Block>, i: nat, free: bool)
    requires Linked(h, head, tail, bs) && i < |bs| && bs[i].at in h
    ensures Linked(h[bs[i].at := h[bs[i].at].(free := free)], head, tail, bs[i := bs[i].(free := free)])
  {
    var h', r := h[bs[i].at := h[bs[i].at].(free := free)], bs[i := bs[i].(free := free)];
    forall k: nat | k < |r| ensures HeaderOk(h', r, k) { assert HeaderOk(h, bs, k); assert k != i ==> bs[k].at != bs[i].at; }
  }

  lemma {:induction false} PagesBelow(size: nat)
    ensures 0 < PagesFor(size) <= PageAllocator.HALF_WORD
  {
  }

  lemma {:induction false} OrderIs(pages: nat, order: nat)
    requires BuddySpec.Pow2(order) >= pages && (order > 0 ==> BuddySpec.Pow2(order - 1) < pages)
    ensures OrderOf(pages, 0) == order
  {
    OrderLeast(pages, 0);
    PageAllocator.OrderUnique(pages, order, OrderOf(pages, 0));
  }

  lemma {:induction false} OrderLeast(pages: nat, o: nat)
    requires o > 0 ==> BuddySpec.Pow2(o - 1) < pages
    ensures var r := OrderOf(pages, o); r > 0 ==> BuddySpec.Pow2(r - 1) < pages
    decreases pages - BuddySpec.Pow2(o)
  {
    if BuddySpec.Pow2(o) < pages { OrderLeast(pages, o + 1); }
  }
}
