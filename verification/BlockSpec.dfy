/** The block driver of VirtIOBlock.c over its virtqueue, together with a conforming device. */
module BlockSpec {
  import opened Prelude
  import opened VirtDesc
  import opened VirtRing

  const REQUESTS := 32
  const REQUEST_SIZE := 48
  const HEADER_LENGTH := 16
  const STATUS_OFFSET := 42
  const SECTOR := 512
  const WORD32 := 0x1_0000_0000
  const UNKNOWN_STATUS := 0xFF
  const STATUS_OK := 0

  datatype Kind = Read | Write | Flush
  datatype Status = FREE | PENDING | COMPLETED | FAILED

  /** `kind` and `sector` are what the request's header tells the device. */
  datatype Request = Request(state: Status, kind: Kind, sector: nat, buffer: nat, length: nat, head: nat, status: nat, usedLength: nat)

  /** The driver's fields; `pool` is the address of the request table. */
  datatype Driver = Driver(table: Table, rings: Rings, requests: seq<Request>, byHead: seq<Option<nat>>, pool: nat,
                           capacity: nat, flushSupported: bool)

  function HeaderAt(pool: nat, r: nat): nat { pool + r * REQUEST_SIZE }
  function StatusAt(pool: nat, r: nat): nat { pool + r * REQUEST_SIZE + STATUS_OFFSET }

  /** What the device is given: the header to read, the data, and the status byte to write. */
  function Layout(pool: nat, r: nat, q: Request): seq<Buffer> {
    [Buffer(HeaderAt(pool, r), HEADER_LENGTH, false)]
    + (if q.kind.Flush? then [] else [Buffer(q.buffer, q.length, q.kind.Read?)])
    + [Buffer(StatusAt(pool, r), 1, true)]
  }

  predicate DmaValid(buffer: nat, length: nat) { buffer != 0 && length != 0 && buffer + length <= WORD32 }

  /** The argument checks of SubmitRequest. */
  predicate ArgumentsOk(capacity: nat, flushSupported: bool, kind: Kind, sector: nat, count: nat, buffer: nat) {
    if kind.Flush? then flushSupported
    else && 0 < count <= (WORD32 - 1) / SECTOR && DmaValid(buffer, count * SECTOR)
         && sector < capacity && count <= capacity - sector
  }

  predicate Acceptable(d: Driver, kind: Kind, sector: nat, count: nat, buffer: nat) {
    ArgumentsOk(d.capacity, d.flushSupported, kind, sector, count, buffer)
  }

  function FirstFree(rs: seq<Request>, i: nat): (o: Option<nat>)
    requires i <= |rs|
    ensures o.Some? ==> i <= o.value < |rs| && rs[o.value].state.FREE? && forall k :: i <= k < o.value ==> !rs[k].state.FREE?
    ensures o.None? ==> forall k :: i <= k < |rs| ==> !rs[k].state.FREE?
    decreases |rs| - i
  {
    if i == |rs| then None else if rs[i].state.FREE? then Some(i) else FirstFree(rs, i + 1)
  }

  predicate Formed(d: Driver) {
    Shape(d.table) && Sized(d.rings) && |d.rings.available| == |d.table.desc| == |d.byHead| && |d.requests| == REQUESTS
  }

  /** SubmitRequest. */
  function Submitted(d: Driver, kind: Kind, sector: nat, count: nat, buffer: nat): (Driver, Option<nat>)
    requires Formed(d)
  {
    if !Acceptable(d, kind, sector, count, buffer) then (d, None) else
    var slot := FirstFree(d.requests, 0);
    if slot.None? then (d, None) else
    var r := slot.value;
    var length := if kind.Flush? then 0 else count * SECTOR;
    var q := Request(PENDING, kind, sector, buffer, length, 0, UNKNOWN_STATUS, 0);
    var (t, ids) := BuildChain(d.table, Layout(d.pool, r, q));
    if ids.None? then
      (d.(table := t, requests := d.requests[r := q.(state := FREE)]), None)
    else
      var h := ids.value[0];
      (d.(table := t, rings := Submit(d.rings, h), requests := d.requests[r := q.(head := h)],
          byHead := d.byHead[h := Some(r)]), slot)
  }

  /** One turn of the loop in VirtIOBlockHandleInterrupt, and whether it goes on. */
  function Serviced(d: Driver): (Driver, bool)
    requires Formed(d) && forall h :: 0 <= h < |d.byHead| && d.byHead[h].Some? ==> d.byHead[h].value < |d.requests|
  {
    var (rings, e) := Pop(d.rings);
    var d1 := d.(rings := rings);
    if e.None? || e.value.0 >= |d.byHead| then (d1, false) else
    var (h, used) := e.value;
    if d.byHead[h].None? then (d1, true) else
    var r := d.byHead[h].value;
    var q := d.requests[r];
    (d1.(table := FreeChain(d.table, h), byHead := d.byHead[h := None],
         requests := d.requests[r := q.(usedLength := used, state := if q.status == STATUS_OK then COMPLETED else FAILED)]), true)
  }

  /** VirtIOBlockReleaseRequest. */
  function Released(d: Driver, r: nat): (Driver, bool) {
    if r >= |d.requests| || !(d.requests[r].state.COMPLETED? || d.requests[r].state.FAILED?) then (d, false)
    else (d.(requests := d.requests[r := d.requests[r].(buffer := 0, state := FREE)]), true)
  }

  // ---- Driver and device ----

  /** The driver and what a conforming device has: its available index, the heads it has not fetched, those it
      works on and its reports the driver has not popped. `chains` are the chains in the table by head. */
  datatype World = World(d: Driver, seen: nat, queued: seq<nat>, running: seq<nat>, finished: seq<(nat, nat)>,
                         chains: map<nat, Chain>)

  function Heads(f: seq<(nat, nat)>): (r: seq<nat>)
    ensures |r| == |f|
  {
    seq(|f|, i requires 0 <= i < |f| => f[i].0)
  }

  function Outstanding(w: World): seq<nat> { Heads(w.finished) + w.running + w.queued }

  /** Table slot `h` names request `r`, which is pending with that head, and its chain lays out that request. */
  ghost predicate Paired(w: World, h: nat, r: nat) {
    && r < |w.d.requests| && w.d.requests[r].state.PENDING? && w.d.requests[r].head == h
    && h in w.chains && w.chains[h].bufs == Layout(w.d.pool, r, w.d.requests[r])
  }

  ghost predicate Links(w: World) {
    && (forall h: nat :: h < |w.d.byHead| ==> (h in w.chains <==> w.d.byHead[h].Some?))
    && (forall h: nat :: h < |w.d.byHead| && w.d.byHead[h].Some? ==> Paired(w, h, w.d.byHead[h].value))
    && (forall r: nat :: r < |w.d.requests| && w.d.requests[r].state.PENDING? ==>
          w.d.requests[r].head < |w.d.byHead| && w.d.byHead[w.d.requests[r].head] == Some(r))
  }

  /** The descriptors a device finds for request `r` of the table at `pool`: 16 bytes of header it may not write, the
      caller's buffer, which it may write exactly for a read and which a flush lacks, and one status byte to write. */
  ghost predicate Described(a: seq<Desc>, pool: nat, r: nat, q: Request) {
    && q.head < |a|
    && var first := a[q.head];
       && first == Desc(pool + 48 * r, 16, false, true, first.next) && first.next < |a| && first.next != q.head
       && var second := a[first.next];
          if q.kind.Flush? then second == Desc(pool + 48 * r + 42, 1, true, false, 0)
          else
            && second == Desc(q.buffer, q.length, q.kind == Read, true, second.next)
            && second.next < |a| && second.next != q.head && second.next != first.next
            && a[second.next] == Desc(pool + 48 * r + 42, 1, true, false, 0)
  }

  /** Every descriptor is in one of the chains or on the free list. */
  ghost predicate Tabled(t: Table, chains: map<nat, Chain>) { exists free :: TableOk(t, free, chains) }

  ghost predicate Inv(w: World) {
    && Formed(w.d) && w.d.pool > 0
    && Tabled(w.d.table, w.chains)
    && RingsOk(w.d.rings, w.seen, w.queued, |w.running|, w.finished)
    && Links(w)
    && Distinct(Outstanding(w)) && (forall h :: h in Outstanding(w) <==> h in w.chains)
  }

  lemma {:induction false} HeadBelow(t: Table, chains: map<nat, Chain>, h: nat)
    requires Tabled(t, chains) && h in chains
    ensures h < |t.desc| && t.inUse[h]
  {
    var free :| TableOk(t, free, chains);
    HeadOwned(t, free, chains, h);
    OwnedInUse(t, free, chains, h, h);
  }

  /** Whatever is pending is described to the device as it was asked for. */
  lemma {:induction false} PendingDescribed(w: World, r: nat)
    requires Inv(w) && r < |w.d.requests| && w.d.requests[r].state.PENDING?
    ensures Described(w.d.table.desc, w.d.pool, r, w.d.requests[r])
  {
    var q := w.d.requests[r];
    assert Paired(w, q.head, r);
    var free :| TableOk(w.d.table, free, w.chains);
    var c := w.chains[q.head];
    assert LinkOk(w.d.table, c, 0) && LinkOk(w.d.table, c, 1);
    if !q.kind.Flush? { assert LinkOk(w.d.table, c, 2); }
  }

  /** No header or status byte of one request lies in those of another, and all lie in the one page of the table. */
  lemma {:induction false} RequestsApart(pool: nat, r: nat, k: nat, x: nat, y: nat)
    requires r < REQUESTS && k < REQUESTS
    requires pool + 48 * r <= x < pool + 48 * r + 16 || x == pool + 48 * r + 42
    requires pool + 48 * k <= y < pool + 48 * k + 16 || y == pool + 48 * k + 42
    ensures x == y ==> r == k
    ensures pool <= x < pool + 4096
  {
  }

  /** The pending requests are as many as the outstanding heads, which the indexes count modulo 2^16. */
  lemma {:induction false} PendingCount(w: World)
    requires Inv(w)
    ensures CountSet(Pendings(w.d.requests)) == |Outstanding(w)|
    ensures (w.d.rings.availIndex - w.d.rings.usedIndex) % INDEX == |Outstanding(w)| <= |w.d.table.desc|
  {
    var out := Outstanding(w);
    forall i | 0 <= i < |out| ensures out[i] < |w.d.byHead| && w.d.byHead[out[i]].Some? {
      assert out[i] in out;
      HeadBelow(w.d.table, w.chains, out[i]);
    }
    var rs := seq(|out|, i requires 0 <= i < |out| => w.d.byHead[out[i]].value);
    hide Tabled, RingsOk, Layout;
    forall i | 0 <= i < |out| ensures Paired(w, out[i], rs[i]) {}
    forall i, j | 0 <= i < j < |rs| ensures rs[i] != rs[j] { assert Paired(w, out[i], rs[i]) && Paired(w, out[j], rs[j]); }
    forall r: nat | r < |w.d.requests| && w.d.requests[r].state.PENDING? ensures r in rs {
      var h := w.d.requests[r].head;
      assert h in out;
      var i :| 0 <= i < |out| && out[i] == h;
      assert rs[i] == r;
    }
    CountIs(Pendings(w.d.requests), rs);
    OutstandingFits(w);
  }

  lemma {:induction false} OutstandingFits(w: World)
    requires Inv(w)
    ensures (w.d.rings.availIndex - w.d.rings.usedIndex) % INDEX == |Outstanding(w)| <= |w.d.table.desc|
  {
  }

  function Pendings(rs: seq<Request>): seq<bool> { seq(|rs|, i requires 0 <= i < |rs| => rs[i].state.PENDING?) }

  lemma {:induction false} CountIs(s: seq<bool>, l: seq<nat>)
    requires Distinct(l) && (forall i :: 0 <= i < |l| ==> l[i] < |s| && s[l[i]])
    requires forall x: nat :: x < |s| && s[x] ==> x in l
    ensures CountSet(s) == |l|
  {
    if s != [] {
      var n := |s| - 1;
      if s[n] {
        var i :| 0 <= i < |l| && l[i] == n;
        var rest := l[..i] + l[i + 1..];
        forall x: nat | x < n && s[..n][x] ensures x in rest { var j :| 0 <= j < |l| && l[j] == x; assert rest[if j < i then j else j - 1] == x; }
        CountIs(s[..n], rest);
      } else {
        forall i | 0 <= i < |l| ensures l[i] < n {}
        CountIs(s[..n], l);
      }
    } else { DistinctBound(l, 0); }
  }
}
