/** The block driver of VirtIOBlock.c in place; each method is one section under the queue lock. */
module BlockDevices {
  import opened Prelude
  import opened VirtDesc
  import opened VirtRing
  import opened VirtQueues
  import opened BlockSpec
  import BlockRuns

  class BlockDevice {
    const queue: VirtQueue
    const requests: array<Request>
    const requestByHead: array<Option<nat>>
    const pool: nat
    const capacity: nat
    const flushSupported: bool

    ghost predicate Valid()
      reads this, queue
    {
      && queue.Valid() && requests.Length == REQUESTS && requestByHead.Length == queue.desc.Length
    }

    ghost function View(): (d: Driver)
      reads this, queue, queue.desc, queue.inUse, queue.available, queue.used, requests, requestByHead
      requires Valid()
      ensures Formed(d)
    {
      Driver(queue.TableView(), queue.RingView(), requests[..], requestByHead[..], pool, capacity, flushSupported)
    }

    /** VirtIOBlockInit once the device is found: a queue of `size` descriptors and an empty request pool. */
    constructor (size: nat, poolAddress: nat, sectors: nat, flush: bool)
      requires 0 < size <= MAX_SIZE
      ensures Valid() && View() == BlockRuns.Fresh(size, poolAddress, sectors, flush).d
    {
      queue := new VirtQueue(size);
      requests := new Request[REQUESTS](_ => Request(FREE, Flush, 0, 0, 0, 0, 0, 0));
      requestByHead := new Option<nat>[size](_ => None);
      pool, capacity, flushSupported := poolAddress, sectors, flush;
    }

    /** AllocateRequest's search. */
    method FindFree() returns (slot: Option<nat>)
      requires Valid()
      ensures slot == FirstFree(requests[..], 0)
    {
      var index := 0;
      while index < requests.Length
        invariant 0 <= index <= requests.Length && FirstFree(requests[..], 0) == FirstFree(requests[..], index)
      {
        if requests[index].state.FREE? { return Some(index); }
        index := index + 1;
      }
      return None;
    }

    /** SubmitRequest. The head of a chain just built is in use, so VirtQueueSubmit cannot refuse it. */
    method SubmitRequest(kind: Kind, sector: nat, count: nat, buffer: nat) returns (r: Option<nat>)
      requires Valid()
      modifies queue, queue.desc, queue.inUse, queue.available, requests, requestByHead
      ensures Valid()
      ensures (View(), r) == Submitted(old(View()), kind, sector, count, buffer)
    {
      hide ArgumentsOk, FirstFree, BuildChain, Layout, Submit;
      if !ArgumentsOk(capacity, flushSupported, kind, sector, count, buffer) { return None; }
      var slot := FindFree();
      if slot.None? { return None; }
      var index := slot.value;
      var request := Request(PENDING, kind, sector, buffer, if kind.Flush? then 0 else count * SECTOR, 0, UNKNOWN_STATUS, 0);
      var ids := queue.BuildChainOf(Layout(pool, index, request));
      if ids.None? {
        requests[index] := request.(state := FREE);
        return None;
      }
      var head := ids.value[0];
      requests[index] := request.(head := head);
      requestByHead[head] := Some(index);
      var ok := queue.SubmitHead(head);
      return slot;
    }
  
    /** One turn of the loop in VirtIOBlockHandleInterrupt. */
    method ServiceOne() returns (more: bool)
      requires Valid() && BlockRuns.Named(View())
      modifies queue, queue.desc, queue.inUse, requests, requestByHead
      ensures Valid() && BlockRuns.Named(View()) && (View(), more) == Serviced(old(View()))
    {
      hide FreeChain, Pop;
      ghost var d := View();
      var entry := queue.PopUsed();
      if entry.None? { return false; }
      var (head, length) := entry.value;
      assert requestByHead[head] == d.byHead[head];
      if requestByHead[head].None? { return true; }
      var index := requestByHead[head].value;
      requestByHead[head] := None;
      var state := if requests[index].status == STATUS_OK then COMPLETED else FAILED;
      requests[index] := requests[index].(usedLength := length, state := state);
      queue.FreeChainFrom(head);
      return true;
    }

    /** VirtIOBlockReleaseRequest. */
    method ReleaseRequest(r: nat) returns (ok: bool)
      requires Valid()
      modifies requests
      ensures Valid() && (View(), ok) == Released(old(View()), r)
    {
      if r >= requests.Length { return false; }
      if !requests[r].state.COMPLETED? && !requests[r].state.FAILED? { return false; }
      requests[r] := requests[r].(buffer := 0, state := FREE);
      return true;
    }
  }
}
