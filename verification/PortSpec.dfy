/** The socket tables of TCP.c and UDP.c: which ports are taken, how long a closed connection keeps its port,
    and why a close never runs out of TIME_WAIT slots. */
module PortSpec {
  import opened Prelude

  const FIRST := 49152
  const LAST := 65535
  const EPHEMERAL := 16384
  const TCP_SOCKETS := 16
  const TIME_WAITS := 64
  const UDP_SOCKETS := 8
  const DHCP_PORT := 68
  const HOLD := 120000
  const GENERATIONS := 0x100_0000

  datatype Peer = Peer(address: nat, port: nat, sendNext: nat, receiveNext: nat)
  datatype Socket = Socket(active: bool, busy: bool, generation: nat, localPort: nat, peer: Peer)
  datatype Wait = Wait(localPort: nat, peer: Peer, expires: nat)
  datatype Udp = Udp(open: bool, port: nat, generation: nat)

  /** `now` is the clock as the locked section reads it. */
  datatype Tables = Tables(tcp: seq<Socket>, waits: seq<Wait>, udp: seq<Udp>, nextPort: nat, now: nat)

  const NOBODY := Peer(0, 0, 0, 0)

  predicate Unexpired(t: Tables, w: Wait) { t.now < w.expires }

  predicate UdpInUse(t: Tables, port: nat) {
    port == DHCP_PORT || exists i :: 0 <= i < |t.udp| && t.udp[i].open && t.udp[i].port == port
  }

  predicate TcpInUse(t: Tables, port: nat) {
    || (exists i :: 0 <= i < |t.tcp| && t.tcp[i].active && t.tcp[i].localPort == port)
    || (exists i :: 0 <= i < |t.waits| && t.waits[i].localPort == port && Unexpired(t, t.waits[i]))
  }

  predicate Taken(t: Tables, port: nat) { UdpInUse(t, port) || TcpInUse(t, port) }

  function PortAfter(port: nat): nat { if port == LAST then FIRST else port + 1 }

  /** The scan of NetworkAllocatePortLocked with `attempts` tries left: where it stops, and the port or 0. */
  function Scan(t: Tables, port: nat, attempts: nat): (nat, nat)
    decreases attempts
  {
    if attempts == 0 then (port, 0)
    else if !Taken(t, PortAfter(port)) then (PortAfter(port), PortAfter(port))
    else Scan(t, PortAfter(port), attempts - 1)
  }

  // ---- Counting ----

  function Actives(s: seq<Socket>): seq<bool> { seq(|s|, i requires 0 <= i < |s| => s[i].active) }
  function Holding(s: seq<Wait>, now: nat): seq<bool> { seq(|s|, i requires 0 <= i < |s| => now < s[i].expires) }

  /** Slots a close may still need plus slots in use. */
  function Claimed(t: Tables): nat { CountSet(Actives(t.tcp)) + CountSet(Holding(t.waits, t.now)) }

  // ---- The port scan ----

  predicate Ephemeral(port: nat) { FIRST <= port <= LAST }

  /** The port `k` steps after `port` in cyclic order. */
  function PortAt(port: nat, k: nat): nat
    requires Ephemeral(port)
  {
    FIRST + (port - FIRST + k) % EPHEMERAL
  }

  /** `r` is the `k`-th port and all before it are taken. */
  ghost predicate FirstFree(t: Tables, port: nat, k: nat, attempts: nat, r: nat)
    requires Ephemeral(port)
  {
    1 <= k <= attempts && r == PortAt(port, k) && forall j :: 1 <= j < k ==> Taken(t, PortAt(port, j))
  }

  lemma {:induction false} PortAtStep(port: nat, k: nat)
    requires Ephemeral(port)
    ensures Ephemeral(PortAfter(port)) && PortAt(PortAfter(port), k) == PortAt(port, k + 1)
  {
  }

  /** The scan yields the first free port after the last one given out, in cyclic order, and nothing only
      when every port it looked at is taken. */
  lemma {:induction false} ScanMeaning(t: Tables, port: nat, attempts: nat)
    requires Ephemeral(port)
    ensures var (next, r) := Scan(t, port, attempts);
            && Ephemeral(next)
            && (r != 0 ==> r == next && !Taken(t, r) && exists k: nat :: FirstFree(t, port, k, attempts, r))
            && (r == 0 ==> forall j :: 1 <= j <= attempts ==> Taken(t, PortAt(port, j)))
    decreases attempts
  {
    if attempts != 0 {
      PortAtStep(port, 0);
      var after := PortAfter(port);
      assert PortAt(port, 1) == after;
      if Taken(t, after) {
        hide Taken, PortAt, PortAfter;
        ScanMeaning(t, after, attempts - 1);
        var r := Scan(t, after, attempts - 1).1;
        if r != 0 {
          var k: nat :| FirstFree(t, after, k, attempts - 1, r);
          PortAtStep(port, k);
          forall j | 1 <= j < k + 1 ensures Taken(t, PortAt(port, j)) { if j > 1 { PortAtStep(port, j - 1); } }
          assert FirstFree(t, port, k + 1, attempts, r);
        } else {
          forall j | 1 <= j <= attempts ensures Taken(t, PortAt(port, j)) { if j > 1 { PortAtStep(port, j - 1); } }
        }
      } else { assert FirstFree(t, port, 1, attempts, after); }
    }
  }

  lemma {:induction false} ScanEnd(t: Tables, port: nat)
    ensures Scan(t, port, 0) == (port, 0)
  {
  }

  lemma {:induction false} ScanStep(t: Tables, port: nat, attempts: nat)
    requires attempts != 0
    ensures Scan(t, port, attempts)
            == if Taken(t, PortAfter(port)) then Scan(t, PortAfter(port), attempts - 1) else (PortAfter(port), PortAfter(port))
  {
  }

  /** Which ports are taken does not depend on where the scan stands. */
  lemma {:induction false} TakenSame(t: Tables, next: nat, port: nat)
    ensures Taken(t.(nextPort := next), port) <==> Taken(t, port)
  {
  }

  /** Every port some table names. */
  function Named(t: Tables): seq<nat> {
    seq(|t.tcp|, i requires 0 <= i < |t.tcp| => t.tcp[i].localPort)
    + seq(|t.waits|, i requires 0 <= i < |t.waits| => t.waits[i].localPort)
    + seq(|t.udp|, i requires 0 <= i < |t.udp| => t.udp[i].port)
  }

  lemma {:induction false} TakenNamed(t: Tables, port: nat)
    requires Taken(t, port) && port != DHCP_PORT
    ensures port in Named(t)
  {
    var a := seq(|t.tcp|, i requires 0 <= i < |t.tcp| => t.tcp[i].localPort);
    var b := seq(|t.waits|, i requires 0 <= i < |t.waits| => t.waits[i].localPort);
    var c := seq(|t.udp|, i requires 0 <= i < |t.udp| => t.udp[i].port);
    assert Named(t) == a + b + c;
    if UdpInUse(t, port) {
      var i :| 0 <= i < |t.udp| && t.udp[i].open && t.udp[i].port == port;
      assert c[i] == port;
    } else if i :| 0 <= i < |t.tcp| && t.tcp[i].active && t.tcp[i].localPort == port {
      assert a[i] == port;
    } else {
      var i :| 0 <= i < |t.waits| && t.waits[i].localPort == port && Unexpired(t, t.waits[i]);
      assert b[i] == port;
    }
  }

  ghost predicate Sized(t: Tables) {
    |t.tcp| == TCP_SOCKETS && |t.waits| == TIME_WAITS && |t.udp| == UDP_SOCKETS && Ephemeral(t.nextPort)
  }

  /** The number of steps after which the scan looks at `p`. */
  function StepsTo(port: nat, p: nat): nat
    requires Ephemeral(port) && Ephemeral(p)
  {
    if port < p then p - port else EPHEMERAL - (port - p)
  }

  lemma {:induction false} StepsReach(port: nat, p: nat)
    requires Ephemeral(port) && Ephemeral(p)
    ensures 1 <= StepsTo(port, p) <= EPHEMERAL && PortAt(port, StepsTo(port, p)) == p
  {
  }

  /** 16384 steps of the scan see every ephemeral port, and the tables name at most 88: it always succeeds. */
  lemma {:induction false} ScanSucceeds(t: Tables)
    requires Sized(t)
    ensures var (next, r) := Scan(t, t.nextPort, EPHEMERAL);
            r != 0 && Ephemeral(r) && next == r && !Taken(t, r)
  {
    hide Scan, Taken, Named, PortAt, StepsTo, Members;
    ScanMeaning(t, t.nextPort, EPHEMERAL);
    if Scan(t, t.nextPort, EPHEMERAL).1 == 0 {
      AllNamed(t);
      NamedFew(t);
      Subset(Interval(FIRST, EPHEMERAL), Members(Named(t)));
      assert false;
    }
  }

  lemma {:induction false} AllNamed(t: Tables)
    requires Ephemeral(t.nextPort)
    requires forall j :: 1 <= j <= EPHEMERAL ==> Taken(t, PortAt(t.nextPort, j))
    ensures Interval(FIRST, EPHEMERAL) <= Members(Named(t))
  {
    hide Taken, Named, PortAt, StepsTo, Interval;
    forall p | p in Interval(FIRST, EPHEMERAL) ensures p in Members(Named(t)) {
      StepsReach(t.nextPort, p);
      TakenNamed(t, p);
    }
  }

  lemma {:induction false} NamedFew(t: Tables)
    requires Sized(t)
    ensures |Members(Named(t))| <= TCP_SOCKETS + TIME_WAITS + UDP_SOCKETS
  {
    MembersFew(Named(t));
  }
}
