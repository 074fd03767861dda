/** One TCP connection of TCP.c as a value: what a received segment, a read and a send do to it. Sequence
    numbers are 32-bit words; the theorems relate them to unbounded stream positions. */
module TcpSpec {
  import opened Prelude

  const WORD := 0x1_0000_0000
  const HALF := 0x8000_0000
  const BUFFER := 8192
  const MSS := 536
  const MAX_PACKET := 65535

  type Byte = bv8
  type Word = x: int | 0 <= x < WORD

  function Wrap(x: int): Word { x % WORD }
  function Minus(a: Word, b: Word): Word { Wrap(a - b) }
  predicate SequenceBefore(a: Word, b: Word) { Minus(a, b) >= HALF }

  /** A segment whose header and checksum were accepted; `mss` is what its option list parses to, None when the
      list is malformed. */
  datatype Segment = Segment(sequence: Word, acknowledgment: Word, fin: bool, syn: bool, rst: bool, ack: bool,
                             window: nat, mss: Option<nat>, data: seq<Byte>)

  /** `ring` is what the receive buffer holds, oldest byte first. */
  datatype Conn = Conn(active: bool, connected: bool, reset: bool, peerFIN: bool, receiveNext: Word, ring: seq<Byte>,
                       sendNext: Word, unacknowledged: Word, peerWindow: nat, peerMSS: nat,
                       windowSequence: Word, windowACK: Word, lastByte: Byte)

  /** Sequence space a segment takes after its data. */
  function FinLength(s: Segment): nat { if s.fin then 1 else 0 }

  function Handshake(c: Conn, s: Segment): (Conn, bool) {
    if !s.ack || s.acknowledgment != c.sendNext then (c, false)
    else if s.rst then (c.(reset := true), false)
    else if !s.syn || s.fin || |s.data| != 0 || s.mss.None? then (c, false)
    else (c.(receiveNext := Wrap(s.sequence + 1), unacknowledged := s.acknowledgment, peerWindow := s.window,
             peerMSS := s.mss.value, windowSequence := s.sequence, windowACK := s.acknowledgment, connected := true), true)
  }

  function Acknowledged(c: Conn, s: Segment): Conn {
    if SequenceBefore(s.acknowledgment, c.unacknowledged) then c
    else if SequenceBefore(c.windowSequence, s.sequence)
         || (c.windowSequence == s.sequence && !SequenceBefore(s.acknowledgment, c.windowACK)) then
      c.(unacknowledged := s.acknowledgment, peerWindow := s.window, windowSequence := s.sequence,
         windowACK := s.acknowledgment)
    else c.(unacknowledged := s.acknowledgment)
  }

  function Min(a: int, b: int): int { if a < b then a else b }

  /** The bytes of the segment from `skip` on, as far as the buffer has room. */
  function Stored(c: Conn, s: Segment, skip: nat): Conn
    requires skip < |s.data| && |c.ring| <= BUFFER
  {
    var taken := Min(|s.data| - skip, BUFFER - |c.ring|);
    c.(ring := c.ring + s.data[skip..skip + taken], receiveNext := Wrap(c.receiveNext + taken))
  }

  function Finished(c: Conn, s: Segment): Conn {
    if s.fin && Wrap(s.sequence + |s.data|) == c.receiveNext
    then c.(receiveNext := Wrap(c.receiveNext + 1), peerFIN := true) else c
  }

  /** Accepts what is new of an overlapping segment, then its FIN if nothing before it is missing. */
  function Accepted(c: Conn, s: Segment): Conn {
    var skip := Minus(c.receiveNext, s.sequence);
    if skip >= |s.data| then Finished(c, s)
    else if c.peerFIN || |c.ring| >= BUFFER then c
    else Finished(Stored(c, s, skip), s)
  }

  predicate OutsideWindow(c: Conn, s: Segment) {
    || SequenceBefore(c.receiveNext, s.sequence)
    || (SequenceBefore(s.sequence, c.receiveNext) && Minus(c.receiveNext, s.sequence) > |s.data| + FinLength(s))
  }

  /** A segment arrives for an active connection. Also whether it is answered with an acknowledgment. */
  function Input(c: Conn, s: Segment): (Conn, bool) {
    if !c.connected then Handshake(c, s)
    else if s.rst then if s.sequence == c.receiveNext then (c.(reset := true), false) else (c, true)
    else if s.syn then (c, true)
    else if !s.ack || SequenceBefore(c.sendNext, s.acknowledgment) then (c, false)
    else if OutsideWindow(c, s) then (c, true)
    else if |s.data| != 0 || s.fin then (Accepted(Acknowledged(c, s), s), true)
    else (Acknowledged(c, s), false)
  }

  datatype Read = Closed | Data(bytes: seq<Byte>) | EndOfStream | Nothing

  /** One locked pass of Receive. */
  function Receive(c: Conn, capacity: nat): (Conn, Read) {
    if !c.active || !c.connected || c.reset then (c, Closed)
    else if |c.ring| != 0 then
      var n := Min(|c.ring|, capacity);
      (c.(ring := c.ring[n..]), Data(c.ring[..n]))
    else if c.peerFIN then (c, EndOfStream)
    else (c, Nothing)
  }

  // ---- Receiving one peer stream ----

  lemma {:induction false} WrapMinus(x: int, y: int)
    ensures Minus(Wrap(x), Wrap(y)) == Wrap(x - y)
    ensures -HALF <= x - y < HALF ==> (SequenceBefore(Wrap(x), Wrap(y)) <==> x < y)
    ensures 0 <= x - y < WORD ==> Minus(Wrap(x), Wrap(y)) == x - y
    ensures -WORD < x - y < WORD ==> (Wrap(x) == Wrap(y) <==> x == y)
  {
  }

  lemma {:induction false} WrapPlus(x: int, k: int)
    ensures Wrap(Wrap(x) + k) == Wrap(x + k)
  {
  }

  /** The peer's initial sequence number and every byte it ever sends. */
  datatype Stream = Stream(isn: Word, bytes: seq<Byte>)

  /** The sequence number of a stream position; the FIN comes after the last byte. */
  function At(p: Stream, position: int): Word { Wrap(p.isn + 1 + position) }

  /** The segment starts at stream position `at` and carries that part of the stream, whatever it overlaps. A
      probe may start before the first byte; its bytes there say nothing. */
  ghost predicate Carries(p: Stream, s: Segment, at: int) {
    && s.sequence == At(p, at) && at + |s.data| <= |p.bytes| && |s.data| <= MAX_PACKET
    && (forall i :: 0 <= i < |s.data| && at + i >= 0 ==> s.data[i] == p.bytes[at + i])
    && (s.fin ==> at + |s.data| == |p.bytes|)
  }

  /** Bytes accepted so far, counting the FIN. */
  function Position(c: Conn, delivered: seq<Byte>): nat {
    |delivered| + |c.ring| + if c.peerFIN then 1 else 0
  }

  /** What was read, followed by the buffer, is a prefix of the peer's stream and the next expected sequence
      number is its end; FIN was consumed only after every byte. */
  ghost predicate Tracks(c: Conn, p: Stream, delivered: seq<Byte>) {
    && |c.ring| <= BUFFER
    && delivered + c.ring <= p.bytes
    && c.receiveNext == At(p, Position(c, delivered))
    && (c.peerFIN ==> delivered + c.ring == p.bytes)
  }

  /** A segment the connection may see: a reset or SYN, a bare acknowledgment, or a part of the stream close to
      the next expected byte. */
  ghost predicate FromPeer(c: Conn, p: Stream, delivered: seq<Byte>, s: Segment, at: int) {
    c.connected && !s.rst && !s.syn && (|s.data| != 0 || s.fin) ==>
      Carries(p, s, at) && -HALF <= Position(c, delivered) - at < HALF
  }

  /** The number of stream bytes accepted after the segment: up to its end, or as far as the buffer has room,
      if it covers the next byte; no change otherwise. */
  function Reach(c: Conn, s: Segment, n: nat, at: int): int {
    if at <= n < at + |s.data| then Min(at + |s.data|, n + BUFFER - |c.ring|) else n
  }

  /** The segment gets past the reset, SYN and acknowledgment checks. */
  predicate Processed(c: Conn, s: Segment) {
    c.connected && !s.rst && !s.syn && s.ack && !SequenceBefore(c.sendNext, s.acknowledgment)
  }

  lemma {:induction false} InOrder(p: Stream, s: Segment, c: Conn, d: seq<Byte>, at: int)
    requires c.receiveNext == At(p, Position(c, d)) && s.sequence == At(p, at) && |s.data| <= MAX_PACKET
    requires -HALF <= Position(c, d) - at < HALF
    ensures OutsideWindow(c, s) <==> !(at <= Position(c, d) <= at + |s.data| + FinLength(s))
    ensures at <= Position(c, d) ==> Minus(c.receiveNext, s.sequence) == Position(c, d) - at
    ensures Wrap(s.sequence + |s.data|) == c.receiveNext <==> at + |s.data| == Position(c, d)
  {
    hide Wrap, Minus, SequenceBefore, Position;
    var x, y := p.isn + 1 + Position(c, d), p.isn + 1 + at;
    WrapPlus(y, |s.data|);
    WrapMinus(x, y + |s.data|);
    if x == y { WrapMinus(x, y); } else { WrapMinus(x, y); WrapMinus(y, x); }
  }

  lemma {:induction false} StoredMeaning(c: Conn, p: Stream, d: seq<Byte>, s: Segment, at: int, skip: nat)
    requires Tracks(c, p, d) && Carries(p, s, at)
    requires skip == Position(c, d) - at < |s.data| && !c.peerFIN
    ensures var c' := Stored(c, s, skip);
            && Tracks(c', p, d) && !c'.peerFIN && Position(c', d) == Reach(c, s, Position(c, d), at)
  {
    var n := Position(c, d);
    var taken := Min(|s.data| - skip, BUFFER - |c.ring|);
    WrapPlus(p.isn + 1 + n, taken);
    assert d + (c.ring + s.data[skip..skip + taken]) == p.bytes[..n + taken] by {
      assert d + c.ring == p.bytes[..n];
      assert s.data[skip..skip + taken] == p.bytes[n..n + taken];
    }
  }

  lemma {:induction false} FinishedMeaning(c: Conn, p: Stream, d: seq<Byte>, s: Segment, at: int)
    requires Tracks(c, p, d) && Carries(p, s, at) && -HALF <= Position(c, d) - at < HALF
    ensures var c' := Finished(c, s);
            && Tracks(c', p, d) && c'.ring == c.ring
            && (c'.peerFIN <==> c.peerFIN || (s.fin && |d| + |c.ring| == |p.bytes|))
  {
    InOrder(p, s, c, d, at);
    WrapPlus(p.isn + 1 + Position(c, d), 1);
    hide Minus, SequenceBefore, OutsideWindow;
    if d + c.ring <= p.bytes && |d| + |c.ring| == |p.bytes| { assert d + c.ring == p.bytes; }
  }

  lemma {:induction false} AcceptedMeaning(c: Conn, p: Stream, d: seq<Byte>, s: Segment, at: int)
    requires Tracks(c, p, d) && Carries(p, s, at) && -HALF <= Position(c, d) - at < HALF
    requires |s.data| != 0 || s.fin
    requires !OutsideWindow(c, s)
    ensures var n := |d| + |c.ring|; var c' := Accepted(c, s);
            && Tracks(c', p, d)
            && |d| + |c'.ring| == Reach(c, s, n, at)
            && (c'.peerFIN <==> c.peerFIN || (s.fin && Reach(c, s, n, at) == |p.bytes|))
            && c'.connected == c.connected
  {
    AcceptedConnected(c, s);
    hide Stored, Finished, OutsideWindow, Minus, Wrap;
    InOrder(p, s, c, d, at);
    var skip := Position(c, d) - at;
    if skip >= |s.data| { FinishedMeaning(c, p, d, s, at); }
    else if |c.ring| < BUFFER {
      StoredMeaning(c, p, d, s, at, skip);
      FinishedMeaning(Stored(c, s, skip), p, d, s, at);
    }
  }

  lemma {:induction false} AcceptedConnected(c: Conn, s: Segment)
    requires |c.ring| <= BUFFER
    ensures Accepted(c, s).connected == c.connected
  {
  }

  /** Any segment of the peer leaves the connection on the stream. One that is processed moves it forward
      exactly as far as it reaches; the FIN counts only once every byte is in. */
  lemma {:induction false} InputTracks(c: Conn, p: Stream, d: seq<Byte>, s: Segment, at: int)
    requires c.connected && Tracks(c, p, d) && FromPeer(c, p, d, s, at)
    ensures var n := |d| + |c.ring|; var c' := Input(c, s).0;
            && Tracks(c', p, d) && c'.connected
            && (if Processed(c, s) && (|s.data| != 0 || s.fin)
                then && |d| + |c'.ring| == Reach(c, s, n, at)
                     && (c'.peerFIN <==> c.peerFIN || (s.fin && Reach(c, s, n, at) == |p.bytes|))
                else c'.ring == c.ring && c'.peerFIN == c.peerFIN)
  {
    hide Carries, OutsideWindow, Accepted, Reach, At;
    if Processed(c, s) && (|s.data| != 0 || s.fin) {
      AcknowledgedKeeps(c, p, d, s);
      if OutsideWindow(c, s) { IgnoredReach(c, p, d, s, at); }
      else { AcceptedMeaning(Acknowledged(c, s), p, d, s, at); ReachSame(c, Acknowledged(c, s), s, |d| + |c.ring|, at); }
    } else { AcknowledgedKeeps(c, p, d, s); }
  }

  lemma {:induction false} ReachSame(c: Conn, c1: Conn, s: Segment, n: nat, at: int)
    requires c1.ring == c.ring
    ensures Reach(c1, s, n, at) == Reach(c, s, n, at)
  {
  }

  lemma {:induction false} AcknowledgedKeeps(c: Conn, p: Stream, d: seq<Byte>, s: Segment)
    requires Tracks(c, p, d)
    ensures var c1 := Acknowledged(c, s);
            && Tracks(c1, p, d) && c1.ring == c.ring && c1.peerFIN == c.peerFIN && c1.receiveNext == c.receiveNext
            && c1.connected == c.connected && (OutsideWindow(c1, s) <==> OutsideWindow(c, s))
            && Position(c1, d) == Position(c, d)
  {
  }

  lemma {:induction false} IgnoredReach(c: Conn, p: Stream, d: seq<Byte>, s: Segment, at: int)
    requires Tracks(c, p, d) && Carries(p, s, at) && -HALF <= Position(c, d) - at < HALF && OutsideWindow(c, s)
    ensures var n := |d| + |c.ring|; Reach(c, s, n, at) == n && (s.fin && n == |p.bytes| ==> c.peerFIN)
  {
    InOrder(p, s, c, d, at);
  }

  /** Reading hands out the buffer from its front and reports the end only when all of the stream was read. */
  lemma {:induction false} ReceiveTracks(c: Conn, p: Stream, d: seq<Byte>, capacity: nat)
    requires Tracks(c, p, d)
    ensures var (c', r) := Receive(c, capacity);
            && (r.Data? <==> c.active && c.connected && !c.reset && c.ring != [])
            && (r.Closed? <==> !c.active || !c.connected || c.reset)
            && (r.EndOfStream? <==> c.active && c.connected && !c.reset && c.ring == [] && c.peerFIN)
            && (r.Data? ==> Tracks(c', p, d + r.bytes) && (|r.bytes| == capacity < |c.ring| || (c'.ring == [] && |r.bytes| <= capacity)))
            && c' == c.(ring := c'.ring) && (!r.Data? ==> c' == c)
            && (r.EndOfStream? ==> d == p.bytes)
  {
    var (c', r) := Receive(c, capacity);
    if r.Data? {
      assert r.bytes + c'.ring == c.ring;
      assert (d + r.bytes) + c'.ring == d + c.ring;
    }
  }

  /** After any successful read, a processed segment that covers the next byte makes the stream advance. */
  lemma {:induction false} RetryAdvances(c: Conn, p: Stream, d: seq<Byte>, capacity: nat, s: Segment, at: int)
    requires c.connected && Tracks(c, p, d) && capacity > 0 && Receive(c, capacity).1.Data?
    requires var (c1, r) := Receive(c, capacity); Processed(c1, s) && FromPeer(c1, p, d + r.bytes, s, at)
    requires at <= |d| + |c.ring| < at + |s.data|
    ensures var (c1, r) := Receive(c, capacity); |d + r.bytes| + |Input(c1, s).0.ring| > |d| + |c.ring|
  {
    hide FromPeer, Input, Processed;
    ReceiveTracks(c, p, d, capacity);
    var (c1, r) := Receive(c, capacity);
    InputTracks(c1, p, d + r.bytes, s, at);
  }

  datatype Event = Arrive(segment: Segment, at: int) | Read(capacity: nat)

  /** The connection and everything read from it, after the events. */
  function Run(c: Conn, d: seq<Byte>, es: seq<Event>): (Conn, seq<Byte>)
    decreases |es|
  {
    if es == [] then (c, d) else
    var (c0, d0) := Run(c, d, es[..|es| - 1]);
    match es[|es| - 1]
    case Arrive(s, _) => (Input(c0, s).0, d0)
    case Read(capacity) =>
      var (c1, r) := Receive(c0, capacity);
      (c1, if r.Data? then d0 + r.bytes else d0)
  }

  /** Every segment of the run comes from the peer: lost, repeated, overlapping and reordered as it may be. */
  ghost predicate AllFromPeer(c: Conn, d: seq<Byte>, p: Stream, es: seq<Event>)
    decreases |es|
  {
    es != [] ==>
      && AllFromPeer(c, d, p, es[..|es| - 1])
      && (var (c0, d0) := Run(c, d, es[..|es| - 1]); var e := es[|es| - 1];
          e.Arrive? ==> FromPeer(c0, p, d0, e.segment, e.at))
  }

  /** The connection right after the peer's SYN was accepted. */
  lemma {:induction false} HandshakeTracks(c: Conn, s: Segment, bytes: seq<Byte>)
    requires !c.connected && c.ring == [] && !c.peerFIN && Input(c, s).0.connected
    ensures Tracks(Input(c, s).0, Stream(s.sequence, bytes), [])
  {
  }

  /** Over every run: what was read and what is buffered is a prefix of the stream, and the end of the stream
      is reported only when everything was read. */
  lemma {:induction false} RunTracks(c: Conn, d: seq<Byte>, p: Stream, es: seq<Event>, capacity: nat)
    requires c.connected && Tracks(c, p, d) && AllFromPeer(c, d, p, es)
    ensures var (c', d') := Run(c, d, es);
            && c'.connected && Tracks(c', p, d') && d' + c'.ring <= p.bytes
            && (Receive(c', capacity).1.EndOfStream? ==> d' == p.bytes)
    decreases |es|
  {
    if es != [] {
      var before, e := es[..|es| - 1], es[|es| - 1];
      RunTracks(c, d, p, before, capacity);
      var (c0, d0) := Run(c, d, before);
      hide Tracks, FromPeer, Input, Receive;
      match e {
        case Arrive(s, at) => InputTracks(c0, p, d0, s, at);
        case Read(n) => ReceiveTracks(c0, p, d0, n); ReceiveKeeps(c0, n);
      }
    }
    var (c', d') := Run(c, d, es);
    ReceiveTracks(c', p, d', capacity);
    assert d' + c'.ring <= p.bytes by { assert Tracks(c', p, d'); }
  }

  lemma {:induction false} ReceiveKeeps(c: Conn, capacity: nat)
    ensures Receive(c, capacity).0.connected == c.connected
  {
  }

  /** A connection opens on exactly one kind of segment: one that acknowledges the SYN, is a SYN itself, and carries
      neither data nor FIN nor broken options. It starts with the peer's window and segment size. */
  lemma {:induction false} HandshakeMeaning(c: Conn, s: Segment)
    requires !c.connected
    ensures var (c', answered) := Input(c, s);
            var good := s.syn && s.ack && !s.rst && s.acknowledgment == c.sendNext;
            && (c'.connected <==> good && !s.fin && s.data == [] && s.mss.Some?) && (answered <==> c'.connected)
            && (c'.connected ==> c' == c.(connected := true, receiveNext := Wrap(s.sequence + 1), unacknowledged := c.sendNext,
                                          peerWindow := s.window, peerMSS := s.mss.value, windowSequence := s.sequence, windowACK := c.sendNext))
            && (!c'.connected ==> c' == c.(reset := c.reset || (s.rst && s.ack && s.acknowledgment == c.sendNext)))
  {
  }

  /** What is known of the peer's window, in unbounded positions: it came with the segment at position `at` of the peer's
      stream that acknowledged position `ack` of this end's, of which `una` is acknowledged. */
  datatype Window = Window(at: int, ack: int, una: int)

  predicate WindowIs(c: Conn, own: Stream, peer: Stream, w: Window) {
    c.windowSequence == At(peer, w.at) && c.windowACK == At(own, w.ack) && c.unacknowledged == At(own, w.una)
  }

  predicate Close(x: int, y: int) { -HALF < x - y < HALF }

  /** A segment at `at` acknowledging `ack`: the acknowledged position only grows, and the window is that of the newest
      segment that does not acknowledge less (RFC 9293, section 3.10.7.4): later in the stream, or at the same place and
      acknowledging no less. */
  lemma {:induction false} AcknowledgedMeaning(c: Conn, own: Stream, peer: Stream, w: Window, s: Segment, at: int, ack: int)
    requires WindowIs(c, own, peer, w) && s.sequence == At(peer, at) && s.acknowledgment == At(own, ack)
    requires Close(at, w.at) && Close(ack, w.ack) && Close(ack, w.una)
    ensures var c' := Acknowledged(c, s);
            var newer := ack >= w.una && (at > w.at || (at == w.at && ack >= w.ack));
            && WindowIs(c', own, peer, if newer then Window(at, ack, ack) else w.(una := if ack > w.una then ack else w.una))
            && c'.peerWindow == (if newer then s.window else c.peerWindow)
            && c' == c.(unacknowledged := c'.unacknowledged, peerWindow := c'.peerWindow, windowSequence := c'.windowSequence, windowACK := c'.windowACK)
  {
    WrapMinus(own.isn + 1 + ack, own.isn + 1 + w.una);
    WrapMinus(own.isn + 1 + ack, own.isn + 1 + w.ack);
    WrapMinus(peer.isn + 1 + w.at, peer.isn + 1 + at);
    hide Wrap, Minus, SequenceBefore;
  }

  /** A connection is reset by exactly two kinds of segment: before the handshake one that acknowledges the SYN,
      afterwards one that names the very next byte (RFC 9293, section 3.10.7.4). */
  lemma {:induction false} ResetMeaning(c: Conn, s: Segment)
    requires |c.ring| <= BUFFER
    ensures Input(c, s).0.reset <==>
              c.reset || (s.rst && if c.connected then s.sequence == c.receiveNext else s.ack && s.acknowledgment == c.sendNext)
  {
    AcceptedFlags(Acknowledged(c, s), s);
  }

  lemma {:induction false} AcceptedFlags(c: Conn, s: Segment)
    requires |c.ring| <= BUFFER
    ensures var c' := Accepted(c, s); c'.reset == c.reset && c'.active == c.active && c'.peerWindow == c.peerWindow
  {
  }

  /** Whatever takes sequence space is answered, and so is an empty segment that is not at the next byte; a bare
      acknowledgment in its place is not, and no reset is ever answered when it takes effect. */
  lemma {:induction false} AnswerMeaning(c: Conn, s: Segment)
    requires c.connected
    ensures Processed(c, s) ==> (Input(c, s).1 <==> |s.data| + FinLength(s) > 0 || s.sequence != c.receiveNext)
    ensures s.rst ==> (Input(c, s).1 <==> Input(c, s).0 == c && s.sequence != c.receiveNext)
    ensures s.syn && !s.rst ==> Input(c, s) == (c, true)
    ensures !s.rst && !s.syn && !Processed(c, s) ==> Input(c, s) == (c, false)
  {
  }
}
