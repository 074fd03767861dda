/** What the block device does with the chains it is given: the requests of the driver move exactly the sectors they
    were made for (section 5.2.6 of VirtIO 1.2). */
module BlockTransfer {
  import opened Prelude
  import opened VirtDesc
  import opened BlockSpec
  import opened BlockRuns

  /** The bytes of physical memory and those of the disk. */
  datatype Store = Store(mem: nat -> nat, disk: nat -> nat)

  function Copied(into: nat -> nat, at: nat, source: nat -> nat, from: nat, length: nat): nat -> nat {
    (x: nat) => if at <= x < at + length then source(from + (x - at)) else into(x)
  }

  /** The request type and the sector in the header at an address, where there is one. */
  function HeaderIn(d: Driver, address: nat): Option<(Kind, nat)> {
    if address < d.pool || (address - d.pool) % REQUEST_SIZE != 0 || (address - d.pool) / REQUEST_SIZE >= |d.requests| then None
    else var q := d.requests[(address - d.pool) / REQUEST_SIZE]; Some((q.kind, q.sector))
  }

  /** The device follows the chain from descriptor `h`. It knows the descriptors and the header they start with, and
      moves as many bytes as the data descriptor has, if its direction is that of the request. */
  function Executed(d: Driver, h: nat, s: Store): Store
    requires h < |d.table.desc|
  {
    var first := d.table.desc[h];
    var header := HeaderIn(d, first.address);
    if header.None? || first.write || first.length != 16 || !first.more || first.next >= |d.table.desc| then s else
    var data := d.table.desc[first.next];
    if !data.more then s
    else if header.value.0.Read? && data.write then
      s.(mem := Copied(s.mem, data.address, s.disk, header.value.1 * SECTOR, data.length))
    else if header.value.0.Write? && !data.write then
      s.(disk := Copied(s.disk, header.value.1 * SECTOR, s.mem, data.address, data.length))
    else s
  }

  /** Executing a pending request fills the caller's buffer with its sectors, or its sectors from the caller's buffer,
      and touches nothing else; a flush moves nothing. */
  lemma {:induction false} ExecutedMeaning(w: World, r: nat, s: Store, x: nat)
    requires Inv(w) && r < |w.d.requests| && w.d.requests[r].state.PENDING?
    ensures var q := w.d.requests[r];
            && q.head < |w.d.table.desc|
            && var s' := Executed(w.d, q.head, s);
               && s'.mem(x) == (if q.kind == Read && q.buffer <= x < q.buffer + q.length then s.disk(512 * q.sector + (x - q.buffer)) else s.mem(x))
               && s'.disk(x) == (if q.kind == Write && 512 * q.sector <= x < 512 * q.sector + q.length
                                 then s.mem(q.buffer + (x - 512 * q.sector)) else s.disk(x))
  {
    hide Inv;
    PendingDescribed(w, r);
    var first := w.d.table.desc[w.d.requests[r].head];
    assert (first.address - w.d.pool) / REQUEST_SIZE == r && (first.address - w.d.pool) % REQUEST_SIZE == 0;
  }
}
