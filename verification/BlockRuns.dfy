/** Every interleaving of the block driver's locked sections with a conforming device. */
module BlockRuns {
  import opened Prelude
  import opened VirtDesc
  import opened VirtRing
  import opened BlockSpec

  datatype Event =
    | Issue(kind: Kind, sector: nat, count: nat, buffer: nat)
    | Fetch
    | Report(index: nat, length: nat, status: nat)
    | Service
    | Release(request: nat)

  /** The device fetches what was made available and reports each head it works on once. */
  predicate Enabled(w: World, e: Event) {
    match e
    case Fetch => w.queued != []
    case Report(j, _, _) => j < |w.running|
    case _ => true
  }

  function Take(l: seq<nat>, j: nat): seq<nat>
    requires j < |l|
  {
    l[..j] + l[j + 1..]
  }

  /** Requests named by the table of heads exist. */
  predicate Named(d: Driver) {
    Formed(d) && forall h :: 0 <= h < |d.byHead| && d.byHead[h].Some? ==> d.byHead[h].value < |d.requests|
  }

  /** The device writes the status byte of the request whose chain it ran, then reports the head. */
  function Reported(w: World, j: nat, length: nat, status: nat): World
    requires Named(w.d) && j < |w.running|
  {
    var h := w.running[j];
    var d := if h < |w.d.byHead| && w.d.byHead[h].Some? then
               var r := w.d.byHead[h].value;
               w.d.(requests := w.d.requests[r := w.d.requests[r].(status := status)])
             else w.d;
    w.(d := d.(rings := Complete(d.rings, h, length)), running := Take(w.running, j), finished := w.finished + [(h, length)])
  }

  function Apply(w: World, e: Event): World
    requires Named(w.d) && Enabled(w, e)
  {
    match e
    case Issue(kind, sector, count, buffer) =>
      var (d, r) := Submitted(w.d, kind, sector, count, buffer);
      if r.None? then w.(d := d) else
      var q := d.requests[r.value];
      w.(d := d, queued := w.queued + [q.head],
         chains := w.chains[q.head := Chain(BuildChain(w.d.table, Layout(d.pool, r.value, q)).1.value, Layout(d.pool, r.value, q))])
    case Fetch =>
      w.(seen := Next(w.seen), queued := w.queued[1..],
         running := w.running + [w.d.rings.available[w.seen % |w.d.rings.available|]])
    case Report(j, length, status) => Reported(w, j, length, status)
    case Service =>
      var d := Serviced(w.d).0;
      if w.finished == [] then w.(d := d)
      else w.(d := d, finished := w.finished[1..], chains := w.chains - {w.finished[0].0})
    case Release(r) => w.(d := Released(w.d, r).0)
  }

  // ---- Issuing ----

  function Needed(kind: Kind): nat { if kind.Flush? then 2 else 3 }

  function NewRequest(kind: Kind, sector: nat, count: nat, buffer: nat): Request {
    Request(PENDING, kind, sector, buffer, if kind.Flush? then 0 else count * SECTOR, 0, UNKNOWN_STATUS, 0)
  }

  lemma {:induction false} LayoutUsable(d: Driver, r: nat, kind: Kind, sector: nat, count: nat, buffer: nat)
    requires Acceptable(d, kind, sector, count, buffer) && d.pool > 0
    ensures var l := Layout(d.pool, r, NewRequest(kind, sector, count, buffer)); AllUsable(l) && |l| == Needed(kind)
  {
    var q := NewRequest(kind, sector, count, buffer);
    var l := Layout(d.pool, r, q);
    assert HeaderAt(d.pool, r) > 0;
    forall k | 0 <= k < |l| ensures Usable(l[k]) {}
  }

  /** What SubmitRequest does when its arguments are good and request `r` is the first free one. */
  lemma {:induction false} SubmittedIs(d: Driver, kind: Kind, sector: nat, count: nat, buffer: nat, r: nat)
    requires Formed(d) && Acceptable(d, kind, sector, count, buffer) && FirstFree(d.requests, 0) == Some(r)
    ensures var q := NewRequest(kind, sector, count, buffer); var (t, ids) := BuildChain(d.table, Layout(d.pool, r, q));
            Submitted(d, kind, sector, count, buffer)
            == if ids.None? then
                 (d.(table := t, requests := d.requests[r := q.(state := FREE)]), None)
               else
                 (d.(table := t, rings := Submit(d.rings, ids.value[0]), requests := d.requests[r := q.(head := ids.value[0])],
                     byHead := d.byHead[ids.value[0] := Some(r)]), Some(r))
  {
  }

  /** A head of the free list is new to the device, and there is room for it. */
  lemma {:induction false} RoomForOne(w: World, h: nat)
    requires Inv(w) && h !in w.chains && h < |w.d.table.desc|
    ensures Distinct(Outstanding(w) + [h]) && |Outstanding(w)| < |w.d.rings.available|
  {
    var out := Outstanding(w);
    var more := out + [h];
    forall i | 0 <= i < |more| ensures more[i] < |w.d.table.desc| {
      if i < |out| { assert out[i] in out; HeadBelow(w.d.table, w.chains, out[i]); }
    }
    assert h !in out;
    DistinctBound(more, |w.d.table.desc|);
  }

  lemma {:induction false} LinksIssued(w: World, w': World, r: nat, h: nat, c: Chain)
    requires Links(w) && Formed(w.d) && r < |w.d.requests| && w.d.requests[r].state.FREE? && h < |w.d.byHead| && h !in w.chains
    requires w'.chains == w.chains[h := c] && w'.d.pool == w.d.pool && w'.d.byHead == w.d.byHead[h := Some(r)]
    requires |w'.d.requests| == |w.d.requests| && w'.d.requests == w.d.requests[r := w'.d.requests[r]]
    requires w'.d.requests[r].state.PENDING? && w'.d.requests[r].head == h && c.bufs == Layout(w.d.pool, r, w'.d.requests[r])
    ensures Links(w')
  {
    hide Layout;
    assert w.d.byHead[h].None?;
    forall g: nat | g < |w'.d.byHead| && w'.d.byHead[g].Some? ensures Paired(w', g, w'.d.byHead[g].value) {
      if g != h { assert Paired(w, g, w.d.byHead[g].value); }
    }
  }

  lemma {:induction false} IssueOk(w: World, r: nat, q: Request, h: nat, c: Chain, t: Table)
    requires Inv(w) && r < |w.d.requests| && w.d.requests[r].state.FREE? && h !in w.chains && h < |w.d.table.desc|
    requires Shape(t) && |t.desc| == |w.d.table.desc| && Tabled(t, w.chains[h := c])
    requires q.state.PENDING? && c.bufs == Layout(w.d.pool, r, q)
    ensures Inv(World(w.d.(table := t, rings := Submit(w.d.rings, h), requests := w.d.requests[r := q.(head := h)],
                           byHead := w.d.byHead[h := Some(r)]),
                      w.seen, w.queued + [h], w.running, w.finished, w.chains[h := c]))
  {
    hide RingsOk, Tabled, Layout, Links, Distinct;
    RoomForOne(w, h);
    SubmitKeeps(w.d.rings, w.seen, w.queued, |w.running|, w.finished, h);
    var w' := World(w.d.(table := t, rings := Submit(w.d.rings, h), requests := w.d.requests[r := q.(head := h)],
                         byHead := w.d.byHead[h := Some(r)]),
                    w.seen, w.queued + [h], w.running, w.finished, w.chains[h := c]);
    LayoutHead(w.d.pool, r, q, h);
    LinksIssued(w, w', r, h, c);
    assert Outstanding(w') == Outstanding(w) + [h];
  }

  lemma {:induction false} LayoutHead(pool: nat, r: nat, q: Request, h: nat)
    ensures Layout(pool, r, q.(head := h)) == Layout(pool, r, q)
  {
  }

  lemma {:induction false} IssueFailed(w: World, r: nat, q: Request, t: Table)
    requires Inv(w) && r < |w.d.requests| && w.d.requests[r].state.FREE?
    requires Shape(t) && |t.desc| == |w.d.table.desc| && Tabled(t, w.chains)
    ensures Inv(w.(d := w.d.(table := t, requests := w.d.requests[r := q.(state := FREE)])))
  {
    hide RingsOk, Tabled, Layout, Distinct;
    var w' := w.(d := w.d.(table := t, requests := w.d.requests[r := q.(state := FREE)]));
    assert Outstanding(w') == Outstanding(w);
    forall h: nat | h < |w'.d.byHead| && w'.d.byHead[h].Some? ensures Paired(w', h, w'.d.byHead[h].value) {
      assert Paired(w, h, w.d.byHead[h].value);
    }
  }

  /** A transfer is for at least one sector, all of them on the disk, and its buffer lies below 4 GiB. */
  lemma {:induction false} AcceptableMeaning(d: Driver, kind: Kind, sector: nat, count: nat, buffer: nat)
    ensures Acceptable(d, kind, sector, count, buffer) <==>
              if kind == Flush then d.flushSupported
              else count > 0 && buffer > 0 && buffer + 512 * count <= 0x1_0000_0000 && sector + count <= d.capacity
  {
  }

  lemma {:induction false} IssueIgnored(w: World, kind: Kind, sector: nat, count: nat, buffer: nat)
    requires Inv(w) && Named(w.d)
    requires !Acceptable(w.d, kind, sector, count, buffer) || FirstFree(w.d.requests, 0).None?
    ensures Submitted(w.d, kind, sector, count, buffer).1.None? && Apply(w, Issue(kind, sector, count, buffer)) == w
  {
  }

  /** SubmitRequest takes the first free request exactly when the arguments are good, a request is free and the
      table has the descriptors; otherwise no request changes state and nothing reaches the device. */
  lemma {:induction false} IssueMeaning(w: World, kind: Kind, sector: nat, count: nat, buffer: nat)
    requires Inv(w) && Named(w.d)
    ensures var w' := Apply(w, Issue(kind, sector, count, buffer));
            var r := Submitted(w.d, kind, sector, count, buffer).1;
            && Inv(w')
            && (r.Some? <==> (if kind == Flush then w.d.flushSupported
                              else count > 0 && buffer > 0 && buffer + 512 * count <= 0x1_0000_0000 && sector + count <= w.d.capacity)
                             && (exists k :: 0 <= k < |w.d.requests| && w.d.requests[k].state.FREE?)
                             && w.d.table.freeCount >= if kind == Flush then 2 else 3)
            && (r.Some? ==> var h := w'.d.requests[r.value].head;
                            && r.value < |w.d.requests| && w.d.requests[r.value].state.FREE?
                            && (forall k :: 0 <= k < r.value ==> !w.d.requests[k].state.FREE?)
                            && w'.d.requests == w.d.requests[r.value := Request(PENDING, kind, sector, buffer, if kind == Flush then 0 else 512 * count, h, 0xFF, 0)]
                            && Described(w'.d.table.desc, w.d.pool, r.value, w'.d.requests[r.value])
                            && w'.queued == w.queued + [h] && h !in w.chains)
            && (r.None? ==> w'.d.rings == w.d.rings && w'.chains == w.chains && w'.d.byHead == w.d.byHead
                            && forall k :: 0 <= k < |w.d.requests| ==> w'.d.requests[k].state == w.d.requests[k].state)
  {
    hide Inv, Named, Described, BuildChain, Layout, Submit;
    AcceptableMeaning(w.d, kind, sector, count, buffer);
    var slot := FirstFree(w.d.requests, 0);
    if !Acceptable(w.d, kind, sector, count, buffer) || slot.None? { IssueIgnored(w, kind, sector, count, buffer); }
    else {
      if w.d.table.freeCount >= Needed(kind) {
        IssueTaken(w, kind, sector, count, buffer, slot.value);
        PendingDescribed(Apply(w, Issue(kind, sector, count, buffer)), slot.value);
      }
      else { IssueRefused(w, kind, sector, count, buffer, slot.value); }
    }
  }

  lemma {:induction false} IssueTaken(w: World, kind: Kind, sector: nat, count: nat, buffer: nat, r: nat)
    requires Inv(w) && Named(w.d) && Acceptable(w.d, kind, sector, count, buffer) && FirstFree(w.d.requests, 0) == Some(r)
    requires w.d.table.freeCount >= Needed(kind)
    ensures var w' := Apply(w, Issue(kind, sector, count, buffer));
            && Inv(w') && Submitted(w.d, kind, sector, count, buffer).1 == Some(r) && |w'.d.requests| == |w.d.requests|
            && w'.d.requests == w.d.requests[r := NewRequest(kind, sector, count, buffer).(head := w'.d.requests[r].head)]
            && w'.d.pool == w.d.pool
            && w'.d.requests[r].head !in w.chains && w'.queued == w.queued + [w'.d.requests[r].head]
  {
    hide Acceptable, RingsOk, TableOk, Layout, BuildChain, FirstFree, Links, AllUsable, Submit, ChainOk, FreeOk;
    var q := NewRequest(kind, sector, count, buffer);
    var bufs := Layout(w.d.pool, r, q);
    SubmittedIs(w.d, kind, sector, count, buffer, r);
    LayoutUsable(w.d, r, kind, sector, count, buffer);
    var free :| TableOk(w.d.table, free, w.chains);
    BuildChainMeaning(w.d.table, free, w.chains, bufs);
    FreeHead(w.d.table, free, w.chains);
    var (t, ids) := BuildChain(w.d.table, bufs);
    var c := Chain(free[..|bufs|], bufs);
    assert Tabled(t, w.chains[free[0] := c]);
    LayoutHead(w.d.pool, r, q, free[0]);
    IssueOk(w, r, q, free[0], c, t);
  }

  lemma {:induction false} IssueRefused(w: World, kind: Kind, sector: nat, count: nat, buffer: nat, r: nat)
    requires Inv(w) && Named(w.d) && Acceptable(w.d, kind, sector, count, buffer) && FirstFree(w.d.requests, 0) == Some(r)
    requires w.d.table.freeCount < Needed(kind)
    ensures var w' := Apply(w, Issue(kind, sector, count, buffer));
            && Inv(w') && Submitted(w.d, kind, sector, count, buffer).1.None?
            && w'.d.rings == w.d.rings && w'.chains == w.chains && w'.d.byHead == w.d.byHead
            && |w'.d.requests| == |w.d.requests|
            && forall k :: 0 <= k < |w.d.requests| ==> w'.d.requests[k].state == w.d.requests[k].state
  {
    hide Acceptable, RingsOk, TableOk, Layout, BuildChain, FirstFree, Links, AllUsable, Submit, ChainOk, FreeOk;
    var q := NewRequest(kind, sector, count, buffer);
    var bufs := Layout(w.d.pool, r, q);
    SubmittedIs(w.d, kind, sector, count, buffer, r);
    LayoutUsable(w.d, r, kind, sector, count, buffer);
    var free :| TableOk(w.d.table, free, w.chains);
    BuildChainMeaning(w.d.table, free, w.chains, bufs);
    FreeHead(w.d.table, free, w.chains);
    IssueFailed(w, r, q, BuildChain(w.d.table, bufs).0);
  }

  lemma {:induction false} FreeHead(t: Table, free: seq<nat>, chains: map<nat, Chain>)
    requires TableOk(t, free, chains)
    ensures t.freeCount == |free| && (free != [] ==> free[0] < |t.desc|)
  {
    if free != [] { assert FreeAt(t, free, 0); }
  }

  // ---- The device ----

  lemma {:induction false} InvNamed(w: World)
    requires Inv(w)
    ensures Named(w.d)
  {
    forall h | 0 <= h < |w.d.byHead| && w.d.byHead[h].Some? ensures w.d.byHead[h].value < |w.d.requests| {
      assert Paired(w, h, w.d.byHead[h].value);
    }
  }

  /** The device sees the heads in the order they were issued. */
  lemma {:induction false} FetchMeaning(w: World)
    requires Inv(w) && Named(w.d) && Enabled(w, Fetch)
    ensures var w' := Apply(w, Fetch); Inv(w') && w'.running == w.running + [w.queued[0]] && Outstanding(w') == Outstanding(w)
  {
    hide RingsOk, Tabled, Distinct, Links;
    FetchKeeps(w.d.rings, w.seen, w.queued, |w.running|, w.finished);
    var w' := Apply(w, Fetch);
    assert w.queued == [w.queued[0]] + w.queued[1..];
    assert Outstanding(w') == Outstanding(w);
    SameLinks(w, w');
  }

  /** Links do not depend on the rings, nor on a request's status byte. */
  lemma {:induction false} SameLinks(w: World, w': World)
    requires Links(w) && w'.chains == w.chains && w'.d.byHead == w.d.byHead && w'.d.pool == w.d.pool
    requires |w'.d.requests| == |w.d.requests|
    requires forall r: nat :: r < |w.d.requests| ==> w'.d.requests[r].(status := w.d.requests[r].status) == w.d.requests[r]
    ensures Links(w')
  {
    forall h: nat | h < |w'.d.byHead| && w'.d.byHead[h].Some? ensures Paired(w', h, w'.d.byHead[h].value) {
      var r := w.d.byHead[h].value;
      assert Paired(w, h, r);
      assert w'.d.requests[r].(status := w.d.requests[r].status) == w.d.requests[r];
    }
    forall r: nat | r < |w'.d.requests| && w'.d.requests[r].state.PENDING?
      ensures w'.d.requests[r].head < |w'.d.byHead| && w'.d.byHead[w'.d.requests[r].head] == Some(r)
    {
      assert w'.d.requests[r].(status := w.d.requests[r].status) == w.d.requests[r];
    }
  }

  lemma {:induction false} TakeHas(l: seq<nat>, j: nat)
    requires j < |l|
    ensures |Take(l, j)| == |l| - 1 && multiset(Take(l, j)) + multiset{l[j]} == multiset(l)
  {
    assert l == l[..j] + [l[j]] + l[j + 1..];
  }

  lemma {:induction false} SameElements(a: seq<nat>, b: seq<nat>)
    requires multiset(a) == multiset(b) && Distinct(a)
    ensures Distinct(b) && |a| == |b| && forall x :: x in a <==> x in b
  {
    forall x ensures x in a <==> x in b { assert x in a <==> x in multiset(a); assert x in b <==> x in multiset(b); }
    assert |multiset(a)| == |a| && |multiset(b)| == |b|;
    forall i, j | 0 <= i < j < |b| ensures b[i] != b[j] {
      OnceEach(a, b[i]);
      if b[i] == b[j] { TwiceThere(b, i, j); }
    }
  }

  lemma {:induction false} OnceEach(a: seq<nat>, x: nat)
    requires Distinct(a)
    ensures multiset(a)[x] <= 1
  {
    if a != [] {
      assert a == a[..|a| - 1] + [a[|a| - 1]];
      OnceEach(a[..|a| - 1], x);
    }
  }

  lemma {:induction false} TwiceThere(b: seq<nat>, i: nat, j: nat)
    requires i < j < |b| && b[i] == b[j]
    ensures multiset(b)[b[i]] >= 2
  {
    assert b == b[..i] + [b[i]] + b[i + 1..j] + [b[j]] + b[j + 1..];
  }

  /** A report turns a running head into a finished one and sets the status byte of exactly its request. */
  lemma {:induction false} ReportMeaning(w: World, j: nat, length: nat, status: nat)
    requires Inv(w) && Named(w.d) && j < |w.running|
    ensures var w' := Apply(w, Report(j, length, status)); var h := w.running[j];
            && Inv(w') && w'.finished == w.finished + [(h, length)]
            && h < |w.d.byHead| && w.d.byHead[h].Some? && Paired(w, h, w.d.byHead[h].value)
            && w'.d.requests == w.d.requests[w.d.byHead[h].value := w.d.requests[w.d.byHead[h].value].(status := status)]
  {
    hide RingsOk, Tabled, Distinct;
    var h := w.running[j];
    assert h in w.running && h in Outstanding(w);
    HeadBelow(w.d.table, w.chains, h);
    assert Paired(w, h, w.d.byHead[h].value);
    CompleteKeeps(w.d.rings, w.seen, w.queued, |w.running|, w.finished, h, length);
    var w' := Apply(w, Report(j, length, status));
    hide Links, Paired;
    SameLinks(w, w');
    ReportOutstanding(w, w', j, length);
  }

  lemma {:induction false} ReportOutstanding(w: World, w': World, j: nat, length: nat)
    requires j < |w.running| && w'.running == Take(w.running, j) && w'.queued == w.queued
    requires w'.finished == w.finished + [(w.running[j], length)]
    requires Distinct(Outstanding(w))
    ensures Distinct(Outstanding(w')) && forall x :: x in Outstanding(w') <==> x in Outstanding(w)
  {
    TakeHas(w.running, j);
    assert Heads(w'.finished) == Heads(w.finished) + [w.running[j]];
    SameElements(Outstanding(w), Outstanding(w'));
  }

  // ---- Completing and releasing ----

  lemma {:induction false} LinksServiced(w: World, w': World, h: nat, r: nat)
    requires Links(w) && h < |w.d.byHead| && w.d.byHead[h] == Some(r) && Paired(w, h, r)
    requires w'.chains == w.chains - {h} && w'.d.byHead == w.d.byHead[h := None] && w'.d.pool == w.d.pool
    requires |w'.d.requests| == |w.d.requests| && w'.d.requests == w.d.requests[r := w'.d.requests[r]]
    requires !w'.d.requests[r].state.PENDING?
    ensures Links(w')
  {
    hide Layout;
    forall g: nat | g < |w'.d.byHead| && w'.d.byHead[g].Some? ensures Paired(w', g, w'.d.byHead[g].value) {
      assert Paired(w, g, w.d.byHead[g].value);
    }
  }

  /** A turn of the interrupt loop finishes exactly the request of the oldest report: completed if the device
      said so and failed otherwise, its descriptors free again. It stops exactly when nothing is reported. */
  lemma {:induction false} ServiceMeaning(w: World)
    requires Inv(w) && Named(w.d)
    ensures var w' := Apply(w, Service);
            && Inv(w') && (Serviced(w.d).1 <==> w.finished != [])
            && (w.finished == [] ==> w' == w)
            && (w.finished != [] ==>
                  var h := w.finished[0].0;
                  && h < |w.d.byHead| && w.d.byHead[h].Some? && Paired(w, h, w.d.byHead[h].value)
                  && (var r := w.d.byHead[h].value; var q := w.d.requests[r];
                      w'.d.requests == w.d.requests[r := q.(usedLength := w.finished[0].1,
                                                           state := if q.status == STATUS_OK then COMPLETED else FAILED)])
                  && w'.d.table.freeCount == w.d.table.freeCount + |w.chains[h].ids|)
  {
    PopKeeps(w.d.rings, w.seen, w.queued, |w.running|, w.finished);
    if w.finished != [] {
      hide RingsOk, Distinct, Pop, FreeChain;
      var h := w.finished[0].0;
      assert Heads(w.finished)[0] == h && h in Heads(w.finished) && h in Outstanding(w);
      HeadBelow(w.d.table, w.chains, h);
      var r := w.d.byHead[h].value;
      assert Paired(w, h, r);
      var free :| TableOk(w.d.table, free, w.chains);
      ChainReleased(w.d.table, free, w.chains, h);
      var w' := Apply(w, Service);
      LinksServiced(w, w', h, r);
      hide Links, TableOk;
      OutstandingPopped(w, w');
    }
  }

  /** Whatever a device reports, conforming or not, one turn settles no request but the one the table of heads names for
      the reported head, and takes it out of that table; a head that names none is passed over, and one that is no
      descriptor ends the loop. */
  lemma {:induction false} AnyReport(d: Driver)
    requires Named(d)
    ensures var (d', more) := Serviced(d); var slot := d.rings.usedIndex % |d.rings.used|;
            && Named(d') && d'.pool == d.pool && d'.rings.available == d.rings.available && d'.rings.availIndex == d.rings.availIndex
            && (d.rings.deviceIndex == d.rings.usedIndex ==> d' == d && !more)
            && (d.rings.deviceIndex != d.rings.usedIndex ==>
                  var h := d.rings.used[slot].0;
                  && d'.rings.usedIndex == (d.rings.usedIndex + 1) % 0x1_0000 && (more <==> h < |d.byHead|)
                  && (h < |d.byHead| && d.byHead[h].Some? ==>
                        && d'.byHead == d.byHead[h := None]
                        && forall k :: 0 <= k < |d.requests| && k != d.byHead[h].value ==> d'.requests[k] == d.requests[k])
                  && (h >= |d.byHead| || d.byHead[h].None? ==> d'.byHead == d.byHead && d'.requests == d.requests && d'.table == d.table))
  {
  }

  lemma {:induction false} ChainReleased(t: Table, free: seq<nat>, chains: map<nat, Chain>, h: nat)
    requires TableOk(t, free, chains) && h in chains
    ensures var r := FreeChain(t, h);
            Tabled(r, chains - {h}) && r.freeCount == t.freeCount + |chains[h].ids|
  {
    ReleaseMeaning(t, free, chains, h);
    ReversedHas(chains[h].ids);
  }

  lemma {:induction false} OutstandingPopped(w: World, w': World)
    requires w.finished != [] && Distinct(Outstanding(w)) && w'.queued == w.queued && w'.running == w.running
    requires w'.finished == w.finished[1..] && (forall h :: h in Outstanding(w) <==> h in w.chains)
    requires w'.chains == w.chains - {w.finished[0].0}
    ensures Distinct(Outstanding(w')) && forall h :: h in Outstanding(w') <==> h in w'.chains
  {
    assert Heads(w'.finished) == Heads(w.finished)[1..];
    assert Outstanding(w') == Take(Outstanding(w), 0);
    TakeDistinct(Outstanding(w), 0);
  }

  lemma {:induction false} TakeDistinct(l: seq<nat>, j: nat)
    requires Distinct(l) && j < |l|
    ensures Distinct(Take(l, j)) && forall x :: x in Take(l, j) <==> x in l && x != l[j]
  {
    var t := Take(l, j);
    forall x ensures x in t <==> x in l && x != l[j] {
      if x in l && x != l[j] { var i :| 0 <= i < |l| && l[i] == x; assert t[if i < j then i else i - 1] == x; }
    }
  }

  /** Only a finished request can be released, and then its slot is free. */
  lemma {:induction false} ReleaseRequestMeaning(w: World, r: nat)
    requires Inv(w) && Named(w.d)
    ensures var w' := Apply(w, Release(r));
            && Inv(w')
            && (Released(w.d, r).1 <==> r < |w.d.requests| && (w.d.requests[r].state.COMPLETED? || w.d.requests[r].state.FAILED?))
            && (Released(w.d, r).1 ==> w'.d.requests == w.d.requests[r := w.d.requests[r].(buffer := 0, state := FREE)])
            && (!Released(w.d, r).1 ==> w' == w)
  {
    hide RingsOk, Tabled, Distinct, Layout;
    var w' := Apply(w, Release(r));
    assert Outstanding(w') == Outstanding(w);
    forall h: nat | h < |w'.d.byHead| && w'.d.byHead[h].Some? ensures Paired(w', h, w'.d.byHead[h].value) {
      assert Paired(w, h, w.d.byHead[h].value);
    }
  }

  // ---- Runs ----

  lemma {:induction false} ApplyKeeps(w: World, e: Event)
    requires Inv(w) && Enabled(w, e)
    ensures Named(w.d) && Inv(Apply(w, e))
  {
    InvNamed(w);
    hide Inv, Named, Apply;
    match e {
      case Issue(kind, sector, count, buffer) => IssueMeaning(w, kind, sector, count, buffer);
      case Fetch => FetchMeaning(w);
      case Report(j, length, status) => ReportMeaning(w, j, length, status);
      case Service => ServiceMeaning(w);
      case Release(r) => ReleaseRequestMeaning(w, r);
    }
  }

  /** The driver after VirtQueueInit and AllocateRequestPool on a queue of `n` descriptors. */
  function Fresh(n: nat, pool: nat, capacity: nat, flush: bool): World
    requires n > 0
  {
    var table := Table(seq(n, i requires 0 <= i < n => BLANK.(next := if i + 1 < n then i + 1 else NONE)), seq(n, _ => false), 0, n);
    World(Driver(table, Rings(seq(n, _ => 0), 0, seq(n, _ => (0, 0)), 0, 0),
                 seq(REQUESTS, _ => Request(FREE, Flush, 0, 0, 0, 0, 0, 0)), seq(n, _ => None), pool, capacity, flush),
          0, [], [], [], map[])
  }

  lemma {:induction false} FreshInv(n: nat, pool: nat, capacity: nat, flush: bool)
    requires PowerSize(n) && n <= MAX_SIZE && pool > 0
    ensures Inv(Fresh(n, pool, capacity, flush))
  {
    var w := Fresh(n, pool, capacity, flush);
    var free := seq(n, i requires 0 <= i < n => i);
    forall k: nat | k < n ensures FreeAt(w.d.table, free, k) {}
    forall i | 0 <= i < n && !w.d.table.inUse[i] ensures i in free { assert free[i] == i; }
    assert TableOk(w.d.table, free, map[]);
  }

  lemma {:induction false} FreshPool(n: nat, pool: nat, capacity: nat, flush: bool)
    requires n > 0
    ensures Fresh(n, pool, capacity, flush).d.pool == pool
  {
  }

  lemma {:induction false} SamePool(w: World, e: Event)
    requires Named(w.d) && Enabled(w, e)
    ensures Apply(w, e).d.pool == w.d.pool
  {
  }

  /** The world after the events; one that is not enabled is not taken. */
  ghost function Run(w: World, es: seq<Event>): World {
    if es == [] then w else
    var v := Run(w, es[..|es| - 1]);
    if Named(v.d) && Enabled(v, es[|es| - 1]) then Apply(v, es[|es| - 1]) else v
  }

  /** Over every run: descriptors are partitioned into the free list and the chains of pending requests, each
      chain describes its request, no report or ring slot is lost, and the indexes count the pending requests. */
  lemma {:induction false} RunInv(n: nat, pool: nat, capacity: nat, flush: bool, es: seq<Event>)
    requires PowerSize(n) && n <= MAX_SIZE && pool > 0
    ensures var w := Run(Fresh(n, pool, capacity, flush), es);
            && Inv(w)
            && CountSet(Pendings(w.d.requests)) == (w.d.rings.availIndex - w.d.rings.usedIndex) % INDEX == |Outstanding(w)|
            && |Outstanding(w)| <= |w.d.table.desc|
            && w.d.pool == pool
            && forall r: nat :: r < |w.d.requests| && w.d.requests[r].state.PENDING? ==> Described(w.d.table.desc, pool, r, w.d.requests[r])
    decreases |es|
  {
    hide Inv, Named, Apply, Fresh, Described;
    if es == [] { FreshInv(n, pool, capacity, flush); FreshPool(n, pool, capacity, flush); }
    else {
      var v := Run(Fresh(n, pool, capacity, flush), es[..|es| - 1]);
      RunInv(n, pool, capacity, flush, es[..|es| - 1]);
      if Enabled(v, es[|es| - 1]) { ApplyKeeps(v, es[|es| - 1]); SamePool(v, es[|es| - 1]); }
    }
    var w := Run(Fresh(n, pool, capacity, flush), es);
    PendingCount(w);
    forall r: nat | r < |w.d.requests| && w.d.requests[r].state.PENDING? ensures Described(w.d.table.desc, w.d.pool, r, w.d.requests[r]) {
      PendingDescribed(w, r);
    }
  }
}
