/** Every operation on the socket tables as a step, and what holds after any number of them. */
module PortRuns {
  import opened Prelude
  import opened PortSpec

  /** The first index at or after `i` whose flag is clear. */
  function FirstClear(s: seq<bool>, i: nat): Option<nat>
    requires i <= |s|
    ensures var r := FirstClear(s, i);
            && (r.Some? ==> i <= r.value < |s| && !s[r.value] && forall k :: i <= k < r.value ==> s[k])
            && (r.None? ==> forall k :: i <= k < |s| ==> s[k])
    decreases |s| - i
  {
    if i == |s| then None else if !s[i] then Some(i) else FirstClear(s, i + 1)
  }

  function InUse(s: seq<Socket>): seq<bool> { seq(|s|, i requires 0 <= i < |s| => s[i].active || s[i].busy) }

  function Opens(s: seq<Udp>): seq<bool> { seq(|s|, i requires 0 <= i < |s| => s[i].open) }

  function NextGeneration(g: nat): nat { if (g + 1) % GENERATIONS == 0 then 1 else (g + 1) % GENERATIONS }

  /** Why NetworkTCPConnect could not reserve a socket. */
  datatype Reservation = Capacity | TableFull | PortsExhausted | Reserved(index: nat)

  /** The locked section of NetworkTCPConnect that takes a socket and a port. */
  function Connect(t: Tables, address: nat, port: nat, clock: nat): (Tables, Reservation) {
    if Claimed(t) >= TIME_WAITS then (t, Capacity) else
    var slot := FirstClear(InUse(t.tcp), 0);
    if slot.None? then (t, TableFull) else
    var i := slot.value;
    var generation := NextGeneration(t.tcp[i].generation);
    var opening := t.(tcp := t.tcp[i := Socket(true, true, generation, 0, Peer(address, port, 0, 0))]);
    var (next, local) := Scan(opening, t.nextPort, EPHEMERAL);
    var entry := Socket(local != 0, local != 0, generation, local, Peer(address, port, clock, 0));
    (t.(tcp := t.tcp[i := entry], nextPort := next), if local == 0 then PortsExhausted else Reserved(i))
  }

  function Deactivated(t: Tables, i: nat): Tables
    requires i < |t.tcp|
  {
    t.(tcp := t.tcp[i := t.tcp[i].(active := false)])
  }

  /** FinishClose: the connection moves to the first TIME_WAIT slot that has run out. */
  function FinishClose(t: Tables, i: nat): Option<Tables>
    requires i < |t.tcp|
  {
    var slot := FirstClear(Holding(t.waits, t.now), 0);
    if slot.None? then None else
    Some(Deactivated(t.(waits := t.waits[slot.value := Wait(t.tcp[i].localPort, t.tcp[i].peer, t.now + HOLD)]), i))
  }

  /** HandleTimeWait restarts the wait of an entry a repeated FIN belongs to. */
  function Refresh(t: Tables, k: nat): Tables
    requires k < |t.waits|
  {
    if Unexpired(t, t.waits[k]) then t.(waits := t.waits[k := t.waits[k].(expires := t.now + HOLD)]) else t
  }

  function UdpOpen(t: Tables, port: nat): (Tables, Option<nat>) {
    var (next, local) := if port == 0 then Scan(t, t.nextPort, EPHEMERAL) else (t.nextPort, port);
    var t1 := t.(nextPort := next);
    if local == 0 || UdpInUse(t1, local) then (t1, None) else
    var slot := FirstClear(Opens(t.udp), 0);
    if slot.None? then (t1, None) else
    var entry := Udp(true, local, NextGeneration(t.udp[slot.value].generation));
    (t1.(udp := t.udp[slot.value := entry]), slot)
  }

  datatype Step =
    | Open(address: nat, port: nat, clock: nat)
    | Advance(index: nat, peer: Peer)
    | Busy(index: nat, busy: bool)
    | Drop(index: nat)
    | Finish(index: nat)
    | Again(slot: nat)
    | Bind(port: nat)
    | Unbind(index: nat)
    | Pass(to: nat)
    | ResetAll

  /** A close finishes only on a connection that is still active; the clock does not run backwards. */
  predicate Enabled(t: Tables, e: Step) {
    match e
    case Advance(i, _) => i < |t.tcp|
    case Busy(i, _) => i < |t.tcp|
    case Drop(i) => i < |t.tcp|
    case Finish(i) => i < |t.tcp| && t.tcp[i].active
    case Again(k) => k < |t.waits|
    case Unbind(i) => i < |t.udp|
    case Pass(to) => t.now <= to
    case _ => true
  }

  function Apply(t: Tables, e: Step): Tables
    requires Enabled(t, e)
  {
    match e
    case Open(address, port, clock) => Connect(t, address, port, clock).0
    case Advance(i, peer) => t.(tcp := t.tcp[i := t.tcp[i].(peer := peer)])
    case Busy(i, busy) => t.(tcp := t.tcp[i := t.tcp[i].(busy := busy)])
    case Drop(i) => Deactivated(t, i)
    case Finish(i) => (match FinishClose(t, i) case Some(r) => r case None => t)
    case Again(k) => Refresh(t, k)
    case Bind(port) => UdpOpen(t, port).0
    case Unbind(i) => t.(udp := t.udp[i := t.udp[i].(open := false)])
    case Pass(to) => t.(now := to)
    case ResetAll =>
      t.(tcp := seq(|t.tcp|, i requires 0 <= i < |t.tcp| => t.tcp[i].(active := false)),
         waits := seq(|t.waits|, _ => Wait(0, NOBODY, 0)))
  }

  /** The port holder number `i`: the sockets first, then the waits. */
  predicate Holds(t: Tables, i: nat, port: nat) {
    if i < |t.tcp| then t.tcp[i].active && t.tcp[i].localPort == port
    else i < |t.tcp| + |t.waits| && Unexpired(t, t.waits[i - |t.tcp|]) && t.waits[i - |t.tcp|].localPort == port
  }

  /** No port is held twice by connections and waits, nor bound twice by datagram sockets. */
  ghost predicate PortsDistinct(t: Tables) {
    && (forall i: nat, j: nat, p: nat :: Holds(t, i, p) && Holds(t, j, p) ==> i == j)
    && (forall i: nat, j: nat :: i < j < |t.udp| && t.udp[i].open && t.udp[j].open ==> t.udp[i].port != t.udp[j].port)
  }

  /** Each open socket still has a TIME_WAIT slot to go to. */
  ghost predicate Inv(t: Tables) {
    && Sized(t)
    && Claimed(t) <= TIME_WAITS
    && PortsDistinct(t)
  }

  lemma {:induction false} ReservedSocket(t: Tables, i: nat, x: Socket)
    requires i < |t.tcp|
    ensures Claimed(t.(tcp := t.tcp[i := x]))
            == Claimed(t) - (if t.tcp[i].active then 1 else 0) + (if x.active then 1 else 0)
  {
    CountUpdate(Actives(t.tcp), i, x.active);
    assert Actives(t.tcp[i := x]) == Actives(t.tcp)[i := x.active];
  }

  lemma {:induction false} ReservedWait(t: Tables, k: nat, x: Wait)
    requires k < |t.waits|
    ensures Claimed(t.(waits := t.waits[k := x]))
            == Claimed(t) - (if Unexpired(t, t.waits[k]) then 1 else 0) + (if Unexpired(t, x) then 1 else 0)
  {
    CountUpdate(Holding(t.waits, t.now), k, Unexpired(t, x));
    assert Holding(t.waits[k := x], t.now) == Holding(t.waits, t.now)[k := Unexpired(t, x)];
  }

  lemma {:induction false} HoldsTaken(t: Tables, i: nat, p: nat)
    requires Holds(t, i, p)
    ensures TcpInUse(t, p)
  {
    if i >= |t.tcp| { assert t.waits[i - |t.tcp|].localPort == p; }
  }

  /** A connection gets the first unused socket and the first free port after the last one given out, exactly when a
      TIME_WAIT slot would be left for it and a socket is unused; ports never run out. Nothing else changes. */
  lemma {:induction false} ConnectMeaning(t: Tables, address: nat, port: nat, clock: nat)
    requires Inv(t)
    ensures var (t', r) := Connect(t, address, port, clock);
            && Inv(t') && !r.PortsExhausted?
            && (r.Capacity? <==> Claimed(t) >= 64)
            && (r.TableFull? <==> Claimed(t) < 64 && forall i :: 0 <= i < |t.tcp| ==> t.tcp[i].active || t.tcp[i].busy)
            && (r.Reserved? ==>
                  && r.index < TCP_SOCKETS && !t.tcp[r.index].active && !t.tcp[r.index].busy
                  && (forall i :: 0 <= i < r.index ==> t.tcp[i].active || t.tcp[i].busy)
                  && var local := t'.nextPort;
                     && Ephemeral(local) && !Taken(t, local) && (exists k: nat :: FirstFree(t, t.nextPort, k, EPHEMERAL, local))
                     && t' == t.(tcp := t.tcp[r.index := Socket(true, true, NextGeneration(t.tcp[r.index].generation), local, Peer(address, port, clock, 0))],
                                 nextPort := local))
            && (!r.Reserved? ==> t' == t)
  {
    hide Scan, NextGeneration, Taken;
    var slot := FirstClear(InUse(t.tcp), 0);
    forall i | 0 <= i < |t.tcp| ensures InUse(t.tcp)[i] == (t.tcp[i].active || t.tcp[i].busy) {}
    if Claimed(t) < TIME_WAITS && slot.Some? {
      var i := slot.value;
      assert !InUse(t.tcp)[i];
      var opening := t.(tcp := t.tcp[i := Socket(true, true, NextGeneration(t.tcp[i].generation), 0, Peer(address, port, 0, 0))]);
      ScanSucceeds(opening);
      var local := Scan(opening, t.nextPort, EPHEMERAL).1;
      var t' := Connect(t, address, port, clock).0;
      ScanMeaning(opening, t.nextPort, EPHEMERAL);
      TakenOpening(t, i, opening, local);
      FirstFreeOpening(t, i, opening, local);
      ReservedSocket(t, i, t'.tcp[i]);
      NewHolder(t, t', i, local);
    }
  }

  lemma {:induction false} TakenOpening(t: Tables, i: nat, opening: Tables, port: nat)
    requires i < |t.tcp| && !t.tcp[i].active && port != 0 && !Taken(opening, port)
    requires |opening.tcp| == |t.tcp| && opening == t.(tcp := t.tcp[i := opening.tcp[i]])
    ensures !Taken(t, port) && !TcpInUse(t, port)
  {
    forall j | 0 <= j < |t.tcp| && t.tcp[j].active ensures t.tcp[j].localPort != port {
      assert opening.tcp[j] == t.tcp[j];
    }
  }

  /** A socket that has no port yet keeps none from being free. */
  lemma {:induction false} FirstFreeOpening(t: Tables, i: nat, opening: Tables, port: nat)
    requires i < |t.tcp| && Ephemeral(t.nextPort) && exists k: nat :: FirstFree(opening, t.nextPort, k, EPHEMERAL, port)
    requires |opening.tcp| == |t.tcp| && opening == t.(tcp := t.tcp[i := opening.tcp[i]]) && opening.tcp[i].localPort == 0
    ensures exists k: nat :: FirstFree(t, t.nextPort, k, EPHEMERAL, port)
  {
    var k: nat :| FirstFree(opening, t.nextPort, k, EPHEMERAL, port);
    forall j | 1 <= j < k ensures Taken(t, PortAt(t.nextPort, j)) {
      var p := PortAt(t.nextPort, j);
      assert Taken(opening, p);
      if x :| 0 <= x < |opening.tcp| && opening.tcp[x].active && opening.tcp[x].localPort == p { assert t.tcp[x] == opening.tcp[x]; }
    }
    assert FirstFree(t, t.nextPort, k, EPHEMERAL, port);
  }

  lemma {:induction false} NewHolder(t: Tables, t': Tables, i: nat, port: nat)
    requires PortsDistinct(t) && i < |t.tcp| && !t.tcp[i].active && !TcpInUse(t, port)
    requires |t'.tcp| == |t.tcp| && t'.tcp == t.tcp[i := t'.tcp[i]] && t'.tcp[i].localPort == port
    requires t'.waits == t.waits && t'.now == t.now && t'.udp == t.udp
    ensures PortsDistinct(t')
  {
    forall j: nat, p: nat | Holds(t', j, p) && j != i ensures Holds(t, j, p) && p != port {
      assert Holds(t, j, p);
      HoldsTaken(t, j, p);
    }
  }

  /** Holders that only disappear, or move from one number to another, stay distinct. */
  lemma {:induction false} Moved(t: Tables, t': Tables, from: nat, to: nat)
    requires PortsDistinct(t)
    requires forall j: nat, p: nat :: Holds(t', j, p) ==> Holds(t, if j == to then from else j, p)
    requires from == to || forall p: nat :: !Holds(t', from, p)
    requires forall i: nat :: i < |t'.udp| && t'.udp[i].open ==> i < |t.udp| && t.udp[i] == t'.udp[i]
    ensures PortsDistinct(t')
  {
    forall j: nat, k: nat, p: nat | Holds(t', j, p) && Holds(t', k, p) ensures j == k {
      assert Holds(t, if j == to then from else j, p) && Holds(t, if k == to then from else k, p);
    }
  }

  lemma {:induction false} DropKeeps(t: Tables, i: nat)
    requires Inv(t) && i < |t.tcp|
    ensures Inv(Deactivated(t, i))
  {
    var t' := Deactivated(t, i);
    ReservedSocket(t, i, t'.tcp[i]);
    forall j: nat, p: nat | Holds(t', j, p) ensures Holds(t, j, p) { assert j < |t.tcp| && j != i ==> t'.tcp[j] == t.tcp[j]; }
    Moved(t, t', 0, 0);
  }

  /** An active connection leaves a slot free, so FinishClose succeeds; the port stays held, now by the wait,
      for the whole hold time. */
  lemma {:induction false} FinishMeaning(t: Tables, i: nat)
    requires Inv(t) && i < |t.tcp| && t.tcp[i].active
    ensures var r := FinishClose(t, i);
            && r.Some? && Inv(r.value) && !r.value.tcp[i].active && r.value.tcp[i].localPort == t.tcp[i].localPort
            && exists k: nat :: k < TIME_WAITS && !Unexpired(t, t.waits[k])
                                && r.value.waits == t.waits[k := Wait(t.tcp[i].localPort, t.tcp[i].peer, t.now + HOLD)]
  {
    var slot := FirstClear(Holding(t.waits, t.now), 0);
    CountSome(Actives(t.tcp), i);
    if slot.None? { CountFull(Holding(t.waits, t.now)); assert false; }
    else {
      var k := slot.value;
      assert !Holding(t.waits, t.now)[k];
      var w := Wait(t.tcp[i].localPort, t.tcp[i].peer, t.now + HOLD);
      var t1 := t.(waits := t.waits[k := w]);
      var t' := Deactivated(t1, i);
      ReservedWait(t, k, w);
      ReservedSocket(t1, i, t'.tcp[i]);
      forall j: nat, p: nat | Holds(t', j, p) ensures Holds(t, if j == |t.tcp| + k then i else j, p) {}
      Moved(t, t', i, |t.tcp| + k);
    }
  }

  lemma {:induction false} CountSome(s: seq<bool>, i: nat)
    requires i < |s| && s[i]
    ensures CountSet(s) >= 1
  {
    if i < |s| - 1 { CountSome(s[..|s| - 1], i); }
  }

  /** A wait that has not run out starts again; one that has stays over. */
  lemma {:induction false} RefreshKeeps(t: Tables, k: nat)
    requires Inv(t) && k < |t.waits|
    ensures Inv(Refresh(t, k))
    ensures Refresh(t, k) == if t.now < t.waits[k].expires then t.(waits := t.waits[k := t.waits[k].(expires := t.now + 120000)]) else t
  {
    var t' := Refresh(t, k);
    ReservedWait(t, k, t'.waits[k]);
    forall j: nat, p: nat | Holds(t', j, p) ensures Holds(t, j, p) {}
    Moved(t, t', 0, 0);
  }

  /** A datagram socket gets the port asked for, or a free one, unless the port is bound or the table full. */
  lemma {:induction false} UdpOpenMeaning(t: Tables, port: nat)
    requires Inv(t)
    ensures var (t', r) := UdpOpen(t, port);
            && Inv(t') && t' == t.(udp := t'.udp, nextPort := t'.nextPort)
            && (r.Some? ==> && r.value < |t.udp| && !t.udp[r.value].open && (forall i :: 0 <= i < r.value ==> t.udp[i].open)
                            && var local := if port != 0 then port else t'.nextPort;
                               && !UdpInUse(t, local) && t'.udp == t.udp[r.value := Udp(true, local, NextGeneration(t.udp[r.value].generation))])
            && (if port != 0 then t'.nextPort == t.nextPort
                else !Taken(t, t'.nextPort) && exists k: nat :: FirstFree(t, t.nextPort, k, EPHEMERAL, t'.nextPort))
            && (r.None? ==> t'.udp == t.udp && ((port != 0 && UdpInUse(t, port)) || forall i :: 0 <= i < |t.udp| ==> t.udp[i].open))
  {
    hide Scan, NextGeneration;
    ScanSucceeds(t);
    ScanMeaning(t, t.nextPort, EPHEMERAL);
    forall i | 0 <= i < |t.udp| ensures Opens(t.udp)[i] == t.udp[i].open {}
    var (t', r) := UdpOpen(t, port);
    var open := Opens(t.udp);
    if r.Some? { assert !open[r.value]; }
    else if !(port != 0 && UdpInUse(t, port)) {
      forall i | 0 <= i < |t.udp| ensures t.udp[i].open { assert open[i]; }
    }
    forall j: nat, k: nat, p: nat | Holds(t', j, p) && Holds(t', k, p) ensures j == k {
      assert Holds(t, j, p) && Holds(t, k, p);
    }
  }

  lemma {:induction false} PassKeeps(t: Tables, to: nat)
    requires Inv(t) && t.now <= to
    ensures Inv(t.(now := to))
  {
    var t' := t.(now := to);
    CountOrder(Holding(t.waits, to), Holding(t.waits, t.now));
    forall j: nat, p: nat | Holds(t', j, p) ensures Holds(t, j, p) {}
    Moved(t, t', 0, 0);
  }

  lemma {:induction false} ResetKeeps(t: Tables)
    requires Inv(t)
    ensures Inv(Apply(t, ResetAll))
  {
    var t' := Apply(t, ResetAll);
    CountEmpty(Actives(t'.tcp));
    CountEmpty(Holding(t'.waits, t'.now));
    forall j: nat, p: nat | Holds(t', j, p) ensures false {}
  }

  lemma {:induction false} ApplyKeeps(t: Tables, e: Step)
    requires Inv(t) && Enabled(t, e)
    ensures Inv(Apply(t, e))
  {
    hide Inv;
    match e {
      case Open(address, port, clock) => ConnectMeaning(t, address, port, clock);
      case Advance(i, peer) => SameHolders(t, Apply(t, e), i);
      case Busy(i, busy) => SameHolders(t, Apply(t, e), i);
      case Drop(i) => DropKeeps(t, i);
      case Finish(i) => FinishMeaning(t, i);
      case Again(k) => RefreshKeeps(t, k);
      case Bind(port) => UdpOpenMeaning(t, port);
      case Unbind(i) => UnbindKeeps(t, i);
      case Pass(to) => PassKeeps(t, to);
      case ResetAll => ResetKeeps(t);
    }
  }

  lemma {:induction false} SameHolders(t: Tables, t': Tables, i: nat)
    requires Inv(t) && i < |t.tcp| && |t'.tcp| == |t.tcp| && t' == t.(tcp := t.tcp[i := t'.tcp[i]])
    requires t'.tcp[i].active == t.tcp[i].active && t'.tcp[i].localPort == t.tcp[i].localPort
    ensures Inv(t')
  {
    ReservedSocket(t, i, t'.tcp[i]);
    forall j: nat, p: nat | Holds(t', j, p) ensures Holds(t, j, p) {}
    Moved(t, t', 0, 0);
  }

  lemma {:induction false} UnbindKeeps(t: Tables, i: nat)
    requires Inv(t) && i < |t.udp|
    ensures Inv(Apply(t, Unbind(i)))
  {
    var t' := Apply(t, Unbind(i));
    forall j: nat, p: nat | Holds(t', j, p) ensures Holds(t, j, p) {}
    Moved(t, t', 0, 0);
  }

  function Cold(port: nat, now: nat): Tables {
    Tables(seq(TCP_SOCKETS, _ => Socket(false, false, 0, 0, NOBODY)), seq(TIME_WAITS, _ => Wait(0, NOBODY, 0)),
           seq(UDP_SOCKETS, _ => Udp(false, 0, 0)), port, now)
  }

  ghost predicate AllEnabled(t: Tables, es: seq<Step>)
    decreases |es|
  {
    es != [] ==> Enabled(t, es[0]) && AllEnabled(Apply(t, es[0]), es[1..])
  }

  function Run(t: Tables, es: seq<Step>): Tables
    requires AllEnabled(t, es)
    decreases |es|
  {
    if es == [] then t else Run(Apply(t, es[0]), es[1..])
  }

  lemma {:induction false} RunKeeps(t: Tables, es: seq<Step>)
    requires Inv(t) && AllEnabled(t, es)
    ensures Inv(Run(t, es))
    decreases |es|
  {
    if es != [] {
      ApplyKeeps(t, es[0]);
      RunKeeps(Apply(t, es[0]), es[1..]);
    }
  }

  /** Wait `k` keeps port `p` until the given time. */
  predicate Kept(t: Tables, k: nat, p: nat, until: nat) {
    k < |t.waits| && t.waits[k].localPort == p && t.waits[k].expires >= until
  }

  lemma {:induction false} StepKept(t: Tables, e: Step, k: nat, p: nat, until: nat)
    requires Inv(t) && Enabled(t, e) && !e.ResetAll? && Kept(t, k, p, until) && t.now < until <= t.now + HOLD
    ensures Kept(Apply(t, e), k, p, until)
  {
    hide Scan, Claimed, Taken, NextGeneration, Inv, UdpOpen, Connect;
    match e {
      case Open(address, port, clock) => ConnectMeaning(t, address, port, clock);
      case Finish(i) => FinishMeaning(t, i); assert FinishClose(t, i).Some?;
      case Bind(port) => UdpOpenMeaning(t, port);
      case _ =>
    }
  }

  lemma {:induction false} RunKept(t: Tables, es: seq<Step>, k: nat, p: nat, until: nat)
    requires Inv(t) && AllEnabled(t, es) && (forall e :: e in es ==> !e.ResetAll?) && Kept(t, k, p, until)
    requires Run(t, es).now < until <= t.now + HOLD
    ensures TcpInUse(Run(t, es), p) && t.now <= Run(t, es).now
    decreases |es|
  {
    if es == [] { assert Unexpired(t, t.waits[k]); }
    else {
      RunClock(Apply(t, es[0]), es[1..]);
      ApplyKeeps(t, es[0]);
      StepClock(t, es[0]);
      StepKept(t, es[0], k, p, until);
      RunKept(Apply(t, es[0]), es[1..], k, p, until);
    }
  }

  lemma {:induction false} StepClock(t: Tables, e: Step)
    requires Enabled(t, e)
    ensures t.now <= Apply(t, e).now
  {
    hide Scan;
  }

  lemma {:induction false} RunClock(t: Tables, es: seq<Step>)
    requires AllEnabled(t, es)
    ensures t.now <= Run(t, es).now
    decreases |es|
  {
    if es != [] { StepClock(t, es[0]); RunClock(Apply(t, es[0]), es[1..]); }
  }

  /** After a close its local port stays taken for two minutes, whatever happens but a reset of the network: no other
      connection is given it. */
  lemma {:induction false} PortStaysTaken(t: Tables, i: nat, es: seq<Step>, address: nat, port: nat, clock: nat)
    requires Inv(t) && i < |t.tcp| && t.tcp[i].active && AllEnabled(t, [Finish(i)] + es) && forall e :: e in es ==> !e.ResetAll?
    requires Run(t, [Finish(i)] + es).now < t.now + 120000
    ensures var u := Run(t, [Finish(i)] + es); var (v, r) := Connect(u, address, port, clock);
            Inv(u) && TcpInUse(u, t.tcp[i].localPort) && (r.Reserved? && r.index < |v.tcp| ==> v.tcp[r.index].localPort != t.tcp[i].localPort)
  {
    assert ([Finish(i)] + es)[1..] == es;
    FinishMeaning(t, i);
    var t1 := Apply(t, Finish(i));
    var k: nat :| k < TIME_WAITS && t1.waits == t.waits[k := Wait(t.tcp[i].localPort, t.tcp[i].peer, t.now + HOLD)];
    RunKept(t1, es, k, t.tcp[i].localPort, t.now + HOLD);
    RunKeeps(t1, es);
    ConnectMeaning(Run(t1, es), address, port, clock);
  }

  /** After any operations since boot: open connections and running waits are at most 64, no two share a local
      port, every close finds its slot and no connection attempt runs out of ports. */
  lemma {:induction false} NeverExhausted(port: nat, now: nat, es: seq<Step>, i: nat, address: nat, remote: nat, clock: nat)
    requires Ephemeral(port) && AllEnabled(Cold(port, now), es)
    ensures var t := Run(Cold(port, now), es);
            && Claimed(t) <= TIME_WAITS && PortsDistinct(t)
            && (i < |t.tcp| && t.tcp[i].active ==> FinishClose(t, i).Some?)
            && !Connect(t, address, remote, clock).1.PortsExhausted?
  {
    var cold := Cold(port, now);
    ColdInv(port, now);
    RunKeeps(cold, es);
    var t := Run(cold, es);
    ConnectMeaning(t, address, remote, clock);
    if i < |t.tcp| && t.tcp[i].active { FinishMeaning(t, i); }
  }

  // ---- Handles ----

  /** The handle of slot `i`, and FindConnection. */
  function Handle(t: Tables, i: nat): nat
    requires i < |t.tcp|
  {
    t.tcp[i].generation * 256 + i
  }

  function Find(t: Tables, handle: nat): Option<nat> {
    var i := handle % 256;
    if i >= |t.tcp| || !t.tcp[i].active || t.tcp[i].generation != handle / 256 then None else Some(i)
  }

  /** The generation of a slot after it was taken `n` more times. */
  function Later(g: nat, n: nat): nat { if n == 0 then g else NextGeneration(Later(g, n - 1)) }

  lemma {:induction false} GenerationStep(y: nat)
    ensures NextGeneration(1 + y % (GENERATIONS - 1)) == 1 + (y + 1) % (GENERATIONS - 1)
  {
    if y % (GENERATIONS - 1) == GENERATIONS - 2 { assert (y + 1) % (GENERATIONS - 1) == 0; }
    else { assert (y + 1) % (GENERATIONS - 1) == y % (GENERATIONS - 1) + 1; }
  }

  lemma {:induction false} LaterIs(g: nat, n: nat)
    requires 1 <= g < GENERATIONS
    ensures Later(g, n) == 1 + (g - 1 + n) % (GENERATIONS - 1)
  {
    if n != 0 {
      LaterIs(g, n - 1);
      GenerationStep(g - 1 + (n - 1));
    }
  }

  lemma {:induction false} LaterMore(g: nat, n: nat)
    ensures Later(NextGeneration(g), n) == Later(g, n + 1)
  {
    if n != 0 { LaterMore(g, n - 1); }
  }

  /** How many steps of the run reserved slot `i` for a new connection. */
  function Reused(t: Tables, es: seq<Step>, i: nat): nat
    requires AllEnabled(t, es)
    decreases |es|
  {
    if es == [] then 0 else
    (if Reserves(t, es[0], i) then 1 else 0) + Reused(Apply(t, es[0]), es[1..], i)
  }

  predicate Reserves(t: Tables, e: Step, i: nat) { e.Open? && Connect(t, e.address, e.port, e.clock).1 == Reserved(i) }

  /** Open connections have a generation other than 0, and every generation fits its 24 bits. */
  ghost predicate Generations(t: Tables) {
    forall i :: 0 <= i < |t.tcp| ==> t.tcp[i].generation < GENERATIONS && (t.tcp[i].active ==> t.tcp[i].generation > 0)
  }

  /** Only reserving a slot moves its generation, and by one. */
  lemma {:induction false} StepGeneration(t: Tables, e: Step, i: nat)
    requires Inv(t) && Enabled(t, e) && i < |t.tcp|
    ensures var u := Apply(t, e);
            && |u.tcp| == |t.tcp|
            && u.tcp[i].generation == (if Reserves(t, e, i) then NextGeneration(t.tcp[i].generation) else t.tcp[i].generation)
            && (u.tcp[i].active ==> t.tcp[i].active || Reserves(t, e, i))
  {
    hide Scan, Claimed, UdpOpen;
    if e.Open? { ConnectMeaning(t, e.address, e.port, e.clock); }
    if e.Bind? { UdpOpenMeaning(t, e.port); }
  }

  lemma {:induction false} StepGenerations(t: Tables, e: Step)
    requires Inv(t) && Generations(t) && Enabled(t, e)
    ensures Inv(Apply(t, e)) && Generations(Apply(t, e))
  {
    ApplyKeeps(t, e);
    hide Apply, Inv, Reserves;
    var u := Apply(t, e);
    assert |u.tcp| == |t.tcp| by { if |t.tcp| > 0 { StepGeneration(t, e, 0); } SizesKept(t, e); }
    forall i | 0 <= i < |u.tcp| ensures u.tcp[i].generation < GENERATIONS && (u.tcp[i].active ==> u.tcp[i].generation > 0) {
      StepGeneration(t, e, i);
    }
  }

  lemma {:induction false} SizesKept(t: Tables, e: Step)
    requires Inv(t) && Enabled(t, e)
    ensures |Apply(t, e).tcp| == |t.tcp| == TCP_SOCKETS
  {
    ApplyKeeps(t, e);
  }

  /** Over a run the generation of a slot counts how often it was reserved. */
  lemma {:induction false} RunGeneration(t: Tables, es: seq<Step>, i: nat)
    requires Inv(t) && Generations(t) && AllEnabled(t, es) && i < |t.tcp|
    ensures var u := Run(t, es);
            && Inv(u) && Generations(u) && |u.tcp| == |t.tcp| == TCP_SOCKETS
            && u.tcp[i].generation == Later(t.tcp[i].generation, Reused(t, es, i))
    decreases |es|
  {
    if es != [] {
      hide Apply, Inv, Later, NextGeneration, Enabled, Generations;
      StepGeneration(t, es[0], i);
      StepGenerations(t, es[0]);
      SizesKept(t, es[0]);
      RunGeneration(Apply(t, es[0]), es[1..], i);
      LaterMore(t.tcp[i].generation, Reused(Apply(t, es[0]), es[1..], i));
    } else { assert Later(t.tcp[i].generation, 0) == t.tcp[i].generation; }
  }

  /** A handle finds its own connection while that is open. After any further run it finds a connection exactly when its
      slot holds one and was reserved a multiple of 2^24 - 1 times in between: none, or so often that the generation
      came round. */
  lemma {:induction false} HandleMeaning(t: Tables, es: seq<Step>, i: nat)
    requires Inv(t) && Generations(t) && AllEnabled(t, es) && i < |t.tcp| && t.tcp[i].active
    ensures Find(t, Handle(t, i)) == Some(i)
    ensures var u := Run(t, es);
            && |u.tcp| == |t.tcp|
            && Find(u, Handle(t, i)) == if u.tcp[i].active && Reused(t, es, i) % (GENERATIONS - 1) == 0 then Some(i) else None
  {
    RunGeneration(t, es, i);
    LaterIs(t.tcp[i].generation, Reused(t, es, i));
    assert |t.tcp| == TCP_SOCKETS;
  }

  /** Every state reached from boot is one that `HandleMeaning` speaks of. */
  lemma {:induction false} BootGenerations(port: nat, now: nat, es: seq<Step>)
    requires Ephemeral(port) && AllEnabled(Cold(port, now), es)
    ensures Inv(Run(Cold(port, now), es)) && Generations(Run(Cold(port, now), es))
  {
    ColdInv(port, now);
    RunGeneration(Cold(port, now), es, 0);
  }

  lemma {:induction false} ColdInv(port: nat, now: nat)
    requires Ephemeral(port)
    ensures Inv(Cold(port, now)) && Generations(Cold(port, now))
  {
    var cold := Cold(port, now);
    CountEmpty(Actives(cold.tcp));
    CountEmpty(Holding(cold.waits, now));
    forall j: nat, p: nat | Holds(cold, j, p) ensures false {}
  }

  /** Slot 0 closed and taken again, `n` times. */
  function Cycle(n: nat, address: nat, port: nat): seq<Step> {
    if n == 0 then [] else [Drop(0), Busy(0, false), Open(address, port, 0)] + Cycle(n - 1, address, port)
  }

  /** The slot just closed is the one taken next. */
  lemma {:induction false} Retaken(t: Tables, address: nat, port: nat)
    requires Inv(t) && t.tcp[0].active
    ensures var t2 := Apply(Apply(t, Drop(0)), Busy(0, false));
            && Inv(t2) && Reserves(t2, Open(address, port, 0), 0) && !Reserves(t, Drop(0), 0)
            && var t3 := Apply(t2, Open(address, port, 0)); Inv(t3) && t3.tcp[0].active
  {
    hide Scan, UdpOpen, PortsDistinct;
    ApplyKeeps(t, Drop(0));
    var t1 := Apply(t, Drop(0));
    ReservedSocket(t, 0, t1.tcp[0]);
    ApplyKeeps(t1, Busy(0, false));
    var t2 := Apply(t1, Busy(0, false));
    ReservedSocket(t1, 0, t2.tcp[0]);
    assert Claimed(t2) < TIME_WAITS;
    assert !InUse(t2.tcp)[0];
    ConnectMeaning(t2, address, port, 0);
    ApplyKeeps(t2, Open(address, port, 0));
  }

  lemma {:induction false} CycleRuns(t: Tables, n: nat, address: nat, port: nat)
    requires Inv(t) && t.tcp[0].active
    ensures var es := Cycle(n, address, port);
            AllEnabled(t, es) && Reused(t, es, 0) == n && |Run(t, es).tcp| == TCP_SOCKETS && Run(t, es).tcp[0].active
    decreases n
  {
    if n != 0 {
      Retaken(t, address, port);
      var t2 := Apply(Apply(t, Drop(0)), Busy(0, false));
      var t3 := Apply(t2, Open(address, port, 0));
      CycleRuns(t3, n - 1, address, port);
      var rest := Cycle(n - 1, address, port);
      hide Apply, Inv, Cycle, Enabled, Reserves;
      OneMore(t2, Open(address, port, 0), rest, 0);
      OneMore(Apply(t, Drop(0)), Busy(0, false), [Open(address, port, 0)] + rest, 0);
      OneMore(t, Drop(0), [Busy(0, false)] + ([Open(address, port, 0)] + rest), 0);
      CycleUnfolds(n, address, port);
    }
  }

  lemma {:induction false} CycleUnfolds(n: nat, address: nat, port: nat)
    requires n > 0
    ensures Cycle(n, address, port) == [Drop(0)] + ([Busy(0, false)] + ([Open(address, port, 0)] + Cycle(n - 1, address, port)))
  {
  }

  /** A run that begins with one more step. */
  lemma {:induction false} OneMore(t: Tables, e: Step, rest: seq<Step>, i: nat)
    requires Enabled(t, e) && AllEnabled(Apply(t, e), rest)
    ensures var es := [e] + rest;
            && AllEnabled(t, es) && Run(t, es) == Run(Apply(t, e), rest)
            && Reused(t, es, i) == (if Reserves(t, e, i) then 1 else 0) + Reused(Apply(t, e), rest, i)
  {
    hide Apply, Enabled, Reserves;
    var es := [e] + rest;
    assert es[0] == e && es[1..] == rest;
  }

  /** Such a run exists: after 2^24 - 1 more connections on its slot the handle of the first one finds the last. */
  lemma {:induction false} StaleHandle(port: nat, now: nat, address: nat, remote: nat)
    requires Ephemeral(port)
    ensures var cold := Cold(port, now);
            && AllEnabled(cold, [Open(address, remote, 0)])
            && var t, es := Run(cold, [Open(address, remote, 0)]), Cycle(GENERATIONS - 1, address, remote);
               && |t.tcp| > 0 && t.tcp[0].active && AllEnabled(t, es) && Reused(t, es, 0) == GENERATIONS - 1
               && Find(Run(t, es), Handle(t, 0)) == Some(0)
  {
    var cold := Cold(port, now);
    var first := [Open(address, remote, 0)];
    ColdInv(port, now);
    CountEmpty(Actives(cold.tcp));
    CountEmpty(Holding(cold.waits, now));
    assert !InUse(cold.tcp)[0];
    ConnectMeaning(cold, address, remote, 0);
    OneMore(cold, first[0], [], 0);
    assert first == [first[0]] + [];
    BootGenerations(port, now, first);
    var t := Run(cold, first);
    hide Apply, Cycle, Inv, Generations;
    CycleRuns(t, GENERATIONS - 1, address, remote);
    HandleMeaning(t, Cycle(GENERATIONS - 1, address, remote), 0);
  }
}
