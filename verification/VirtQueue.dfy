/** VirtQueue.c in place: descriptor table, in-use flags and rings are arrays; `used` and `deviceIndex` are written
    by the device. */
module VirtQueues {
  import opened Prelude
  import opened VirtDesc
  import opened VirtRing

  lemma {:induction false} FreeChainStep(t: Table, i: nat)
    requires Shape(t)
    ensures FreeChain(t, i)
            == if i >= |t.desc| || !t.inUse[i] then t
               else if t.desc[i].more then FreeChain(Free(t, i), t.desc[i].next) else Free(t, i)
  {
  }

  lemma {:induction false} BuildStep(t: Table, bufs: seq<Buffer>, ids: seq<nat>)
    requires Shape(t) && forall k :: 0 <= k < |ids| ==> ids[k] < |t.desc|
    ensures Build(t, bufs, ids)
            == if |ids| >= |bufs| then (t, Some(ids)) else
               var undone := if ids == [] then t else FreeChain(t, ids[0]);
               if !Usable(bufs[|ids|]) || Alloc(t).None? then (undone, None) else
               Build(Link(Alloc(t).value.0, Alloc(t).value.1, bufs[|ids|], ids), bufs, ids + [Alloc(t).value.1])
  {
  }

  class VirtQueue {
    const desc: array<Desc>
    const inUse: array<bool>
    const available: array<nat>
    const used: array<(nat, nat)>
    var freeHead: nat
    var freeCount: nat
    var availIndex: nat
    var usedIndex: nat
    var deviceIndex: nat

    ghost predicate Valid() reads this {
      && 0 < desc.Length <= MAX_SIZE
      && inUse.Length == available.Length == used.Length == desc.Length
    }

    ghost function TableView(): (t: Table)
      reads this, desc, inUse
      requires Valid()
      ensures Shape(t) && |t.desc| == desc.Length
    {
      Table(desc[..], inUse[..], freeHead, freeCount)
    }

    ghost function RingView(): (r: Rings)
      reads this, available, used
      requires Valid()
      ensures Sized(r) && |r.available| == available.Length
    {
      Rings(available[..], availIndex, used[..], deviceIndex, usedIndex)
    }

    /** VirtQueueInit with the negotiated size. */
    constructor (size: nat)
      requires 0 < size <= MAX_SIZE
      ensures Valid() && desc.Length == size
      ensures fresh(desc) && fresh(inUse) && fresh(available) && fresh(used)
      ensures TableView() == Table(seq(size, i requires 0 <= i < size => BLANK.(next := if i + 1 < size then i + 1 else NONE)),
                                   seq(size, _ => false), 0, size)
      ensures RingView() == Rings(seq(size, _ => 0), 0, seq(size, _ => (0, 0)), 0, 0)
    {
      desc := new Desc[size](i => BLANK.(next := i + 1));
      inUse := new bool[size](_ => false);
      available := new nat[size](_ => 0);
      used := new (nat, nat)[size](_ => (0, 0));
      freeHead, freeCount, availIndex, usedIndex, deviceIndex := 0, size, 0, 0, 0;
      new;
      desc[size - 1] := BLANK.(next := NONE);
    }

    method AllocDesc() returns (index: Option<nat>)
      requires Valid()
      modifies this`freeHead, this`freeCount, desc, inUse
      ensures var r := Alloc(old(TableView()));
              if r.None? then index.None? && TableView() == old(TableView())
              else index == Some(r.value.1) && TableView() == r.value.0
    {
      if freeCount == 0 || freeHead == NONE { return None; }
      var i := freeHead;
      if freeCount > desc.Length || i >= desc.Length || inUse[i] { return None; }
      freeHead := desc[i].next;
      freeCount := freeCount - 1;
      inUse[i] := true;
      desc[i] := BLANK;
      return Some(i);
    }

    method FreeDesc(i: nat)
      requires Valid()
      modifies this`freeHead, this`freeCount, desc, inUse
      ensures TableView() == Free(old(TableView()), i)
    {
      if i >= desc.Length || !inUse[i] { return; }
      desc[i] := BLANK.(next := freeHead);
      inUse[i] := false;
      freeHead := i;
      freeCount := freeCount + 1;
    }

    method FreeChainFrom(head: nat)
      requires Valid()
      modifies this`freeHead, this`freeCount, desc, inUse
      ensures TableView() == FreeChain(old(TableView()), head)
    {
      hide Free, FreeChain;
      var index: nat := head;
      FreeChainStep(TableView(), index);
      while index < desc.Length && inUse[index]
        invariant Valid() && FreeChain(TableView(), index) == FreeChain(old(TableView()), head)
        decreases CountSet(inUse[..])
      {
        var more: bool, next: nat := desc[index].more, desc[index].next;
        FreeChainStep(TableView(), index);
        CountUpdate(inUse[..], index, false);
        FreeUse(TableView(), index);
        FreeDesc(index);
        if !more { return; }
        index := next;
      }
      FreeChainStep(TableView(), index);
    }

    static lemma {:induction false} FreeUse(t: Table, i: nat)
      requires Shape(t) && i < |t.desc| && t.inUse[i]
      ensures Free(t, i).inUse == t.inUse[i := false]
    {
    }

    /** VirtQueueBuildChain; the result is the chain's descriptors, the head first. */
    method BuildChainOf(bufs: seq<Buffer>) returns (ids: Option<seq<nat>>)
      requires Valid()
      modifies this`freeHead, this`freeCount, desc, inUse
      ensures TableView() == BuildChain(old(TableView()), bufs).0 && ids == BuildChain(old(TableView()), bufs).1
      ensures ids.Some? ==> ids.value != [] && ids.value[0] < desc.Length && inUse[ids.value[0]]
    {
      BuiltInUse(TableView(), bufs, []);
      hide Build, FreeChain, Usable, Alloc, Link;
      if bufs == [] { return None; }
      var chain: seq<nat> := [];
      while |chain| < |bufs|
        invariant |chain| <= |bufs| && forall k :: 0 <= k < |chain| ==> chain[k] < desc.Length
        invariant Build(TableView(), bufs, chain) == Build(old(TableView()), bufs, [])
        decreases |bufs| - |chain|
      {
        BuildStep(TableView(), bufs, chain);
        var buffer := bufs[|chain|];
        if !Usable(buffer) {
          if chain != [] { FreeChainFrom(chain[0]); }
          return None;
        }
        ghost var before := TableView();
        AllocBelow(before);
        var index := AllocDesc();
        if index.None? {
          if chain != [] { FreeChainFrom(chain[0]); }
          return None;
        }
        Describe(index.value, buffer, chain);
        chain := chain + [index.value];
      }
      BuildStep(TableView(), bufs, chain);
      return Some(chain);
    }

    static lemma {:induction false} AllocBelow(t: Table)
      requires Shape(t)
      ensures Alloc(t).Some? ==> var (r, i) := Alloc(t).value; Shape(r) && i < |t.desc| && |r.desc| == |t.desc|
    {
    }

    /** Fills the new descriptor and links the previous one to it. */
    method Describe(i: nat, b: Buffer, chain: seq<nat>)
      requires Valid() && i < desc.Length && forall k :: 0 <= k < |chain| ==> chain[k] < desc.Length
      modifies desc
      ensures TableView() == VirtDesc.Link(old(TableView()), i, b, chain)
    {
      desc[i] := Desc(b.address, b.length, b.write, false, 0);
      if chain != [] {
        var previous := chain[|chain| - 1];
        desc[previous] := desc[previous].(more := true, next := i);
      }
    }

    /** VirtQueueSubmit; the notification is not modelled. */
    method SubmitHead(head: nat) returns (ok: bool)
      requires Valid()
      modifies this`availIndex, available
      ensures ok <==> head < desc.Length && inUse[head]
      ensures RingView() == if ok then Submit(old(RingView()), head) else old(RingView())
    {
      if head >= desc.Length || !inUse[head] { return false; }
      available[availIndex % available.Length] := head;
      availIndex := (availIndex + 1) % INDEX;
      return true;
    }

    /** VirtQueuePopUsed: None when nothing is reported, or when the reported head is out of range. */
    method PopUsed() returns (entry: Option<(nat, nat)>)
      requires Valid()
      modifies this`usedIndex
      ensures var (r, e) := Pop(old(RingView()));
              RingView() == r && entry == if e.Some? && e.value.0 >= desc.Length then None else e
    {
      if deviceIndex == usedIndex { return None; }
      var e := used[usedIndex % used.Length];
      usedIndex := (usedIndex + 1) % INDEX;
      if e.0 >= desc.Length { return None; }
      return Some(e);
    }
  }
}
