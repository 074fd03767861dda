/** The socket tables as TCP.c and UDP.c update them: each method is one locked section and yields the tables
    its step function gives. */
module PortTables {
  import opened Prelude
  import opened PortSpec
  import opened PortRuns

  class Network {
    var tcp: seq<Socket>
    var waits: seq<Wait>
    var udp: seq<Udp>
    var nextPort: nat
    var now: nat

    ghost function View(): Tables reads this { Tables(tcp, waits, udp, nextPort, now) }

    /** The cleared tables of NetworkInit; the clock register picks the first port. */
    constructor (clock: nat, time: nat)
      ensures View() == Cold(FIRST + clock % 10000, time) && Ephemeral(nextPort)
    {
      tcp := seq(TCP_SOCKETS, _ => Socket(false, false, 0, 0, NOBODY));
      waits := seq(TIME_WAITS, _ => Wait(0, NOBODY, 0));
      udp := seq(UDP_SOCKETS, _ => Udp(false, 0, 0));
      nextPort, now := FIRST + clock % 10000, time;
    }

    method UDPPortInUse(port: nat) returns (used: bool)
      ensures used == UdpInUse(View(), port)
    {
      if port == DHCP_PORT { return true; }
      var index := 0;
      while index < |udp|
        invariant 0 <= index <= |udp|
        invariant forall k :: 0 <= k < index ==> !(udp[k].open && udp[k].port == port)
      {
        if udp[index].open && udp[index].port == port { return true; }
        index := index + 1;
      }
      return false;
    }

    method TCPPortInUse(port: nat) returns (used: bool)
      ensures used == TcpInUse(View(), port)
    {
      var index := 0;
      while index < |tcp|
        invariant 0 <= index <= |tcp|
        invariant forall k :: 0 <= k < index ==> !(tcp[k].active && tcp[k].localPort == port)
      {
        if tcp[index].active && tcp[index].localPort == port { return true; }
        index := index + 1;
      }
      index := 0;
      while index < |waits|
        invariant 0 <= index <= |waits|
        invariant forall k :: 0 <= k < index ==> !(waits[k].localPort == port && now < waits[k].expires)
      {
        if waits[index].localPort == port && now < waits[index].expires {
          assert Unexpired(View(), waits[index]);
          return true;
        }
        index := index + 1;
      }
      return false;
    }

    method AllocatePort() returns (port: nat)
      modifies this`nextPort
      ensures (nextPort, port) == Scan(old(View()), old(nextPort), EPHEMERAL)
    {
      hide Scan, UdpInUse, TcpInUse;
      ghost var t := View();
      var attempt := 0;
      while attempt < EPHEMERAL
        invariant 0 <= attempt <= EPHEMERAL
        invariant Scan(t, old(nextPort), EPHEMERAL) == Scan(t, nextPort, EPHEMERAL - attempt)
      {
        ScanStep(t, nextPort, EPHEMERAL - attempt);
        nextPort := if nextPort == LAST then FIRST else nextPort + 1;
        TakenSame(t, nextPort, nextPort);
        assert View() == t.(nextPort := nextPort);
        var bound := UDPPortInUse(nextPort);
        if !bound {
          var used := TCPPortInUse(nextPort);
          if !used { return nextPort; }
        }
        attempt := attempt + 1;
      }
      ScanEnd(t, nextPort);
      return 0;
    }
  
    /** The loops of NetworkTCPConnect that count what is reserved. */
    method CountReserved() returns (n: nat)
      ensures n == Claimed(View())
    {
      n := 0;
      var index := 0;
      while index < |waits|
        invariant 0 <= index <= |waits| && n == CountSet(Holding(waits, now)[..index])
      {
        assert Holding(waits, now)[..index + 1][..index] == Holding(waits, now)[..index];
        n := n + if waits[index].expires > now then 1 else 0;
        index := index + 1;
      }
      ghost var held := n;
      assert Holding(waits, now)[..|waits|] == Holding(waits, now);
      index := 0;
      while index < |tcp|
        invariant 0 <= index <= |tcp| && n == held + CountSet(Actives(tcp)[..index])
      {
        assert Actives(tcp)[..index + 1][..index] == Actives(tcp)[..index];
        n := n + if tcp[index].active then 1 else 0;
        index := index + 1;
      }
      assert Actives(tcp)[..|tcp|] == Actives(tcp);
    }

    /** The index of the first clear flag, or the length. */
    static method FindClear(s: seq<bool>) returns (index: nat)
      ensures FirstClear(s, 0) == if index == |s| then None else Some(index)
      ensures index <= |s|
    {
      index := 0;
      while index < |s|
        invariant 0 <= index <= |s| && FirstClear(s, 0) == FirstClear(s, index)
      {
        if !s[index] { return; }
        index := index + 1;
      }
    }

    method ConnectLocked(address: nat, port: nat, clock: nat) returns (r: Reservation)
      requires Sized(View())
      modifies this
      ensures (View(), r) == Connect(old(View()), address, port, clock)
    {
      hide Scan, FirstClear, Claimed, NextGeneration;
      var reserved := CountReserved();
      if reserved >= TIME_WAITS { return Capacity; }
      var index := FindClear(InUse(tcp));
      if index == |tcp| { return TableFull; }
      var generation := NextGeneration(tcp[index].generation);
      var cleared := Socket(true, true, generation, 0, Peer(address, port, 0, 0));
      tcp := tcp[index := cleared];
      var local := AllocatePort();
      var active := local != 0;
      assert (nextPort, local) == Scan(old(View()).(tcp := old(tcp)[index := cleared]), old(nextPort), EPHEMERAL);
      tcp := tcp[index := Socket(active, active, generation, local, Peer(address, port, clock, 0))];
      assert tcp == old(tcp)[index := tcp[index]];
      return if active then Reservation.Reserved(index) else PortsExhausted;
    }

    method ResetConnection(index: nat)
      requires index < |tcp|
      modifies this`tcp
      ensures View() == Deactivated(old(View()), index)
    {
      tcp := tcp[index := tcp[index].(active := false)];
    }

    method FinishCloseLocked(index: nat) returns (ok: bool)
      requires index < |tcp|
      modifies this`tcp, this`waits
      ensures var r := FinishClose(old(View()), index);
              ok == r.Some? && View() == if ok then r.value else old(View())
    {
      hide FirstClear;
      var slot := FindClear(Holding(waits, now));
      if slot == |waits| { return false; }
      waits := waits[slot := Wait(tcp[index].localPort, tcp[index].peer, now + HOLD)];
      ResetConnection(index);
      return true;
    }

    /** HandleTimeWait on a segment from `address` and its ports: `acknowledgment` is what it acknowledges, `end`
        the sequence number after its FIN. The repeated FIN of a waiting connection restarts the wait. */
    method HandleTimeWait(address: nat, remote: nat, local: nat, finAck: bool, acknowledgment: nat, end: nat)
      returns (answered: Option<nat>)
      modifies this`waits
      ensures |waits| == |old(waits)|
      ensures answered.Some? ==> answered.value < |waits| && waits == old(waits)[answered.value := old(waits)[answered.value].(expires := now + 120000)]
                                 && Unexpired(old(View()), old(waits)[answered.value])
      ensures answered.Some? ==> finAck && old(waits)[answered.value].localPort == local
                                 && old(waits)[answered.value].peer == Peer(address, remote, acknowledgment, end)
      ensures answered.None? ==> View() == old(View())
      ensures answered.None? && finAck ==>
                forall k :: 0 <= k < |waits| && waits[k].localPort == local && now < waits[k].expires ==>
                  waits[k].peer != Peer(address, remote, acknowledgment, end)
    {
      var index := 0;
      while index < |waits|
        invariant 0 <= index <= |waits| && waits == old(waits)
        invariant finAck ==>
                    forall k :: 0 <= k < index && waits[k].localPort == local && now < waits[k].expires ==>
                      waits[k].peer != Peer(address, remote, acknowledgment, end)
      {
        var w := waits[index];
        if now < w.expires && w.peer.address == address && w.peer.port == remote && w.localPort == local && finAck
          && acknowledgment == w.peer.sendNext && end == w.peer.receiveNext {
          assert w.peer == Peer(address, remote, acknowledgment, end);
          waits := waits[index := w.(expires := now + HOLD)];
          return Some(index);
        }
        index := index + 1;
      }
      return None;
    }

    method UDPOpen(port: nat) returns (r: Option<nat>)
      modifies this
      ensures (View(), r) == UdpOpen(old(View()), port)
    {
      hide Scan, FirstClear, NextGeneration;
      var local := port;
      if port == 0 { local := AllocatePort(); }
      if local == 0 { return None; }
      var used := UDPPortInUse(local);
      if used { return None; }
      var slot := FindClear(Opens(udp));
      if slot == |udp| { return None; }
      udp := udp[slot := Udp(true, local, NextGeneration(udp[slot].generation))];
      return Some(slot);
    }

    method UDPClose(index: nat)
      requires index < |udp|
      modifies this`udp
      ensures View() == Apply(old(View()), Unbind(index))
    {
      udp := udp[index := udp[index].(open := false)];
    }
  }
}
