/** The connection record of TCP.c, with its receive buffer as a ring in an array. Each method is one locked
    section and leaves the value its function gives. */
module TcpConnection {
  import opened Prelude
  import opened TcpSpec
  import opened TcpSend

  /** The bytes a ring holds, oldest first. */
  ghost function Ring(a: seq<Byte>, head: nat, count: nat): (r: seq<Byte>)
    requires |a| == BUFFER
    ensures |r| == count
  {
    seq(count, i requires 0 <= i < count => a[(head + i) % BUFFER])
  }

  lemma {:induction false} SlotsDiffer(head: nat, i: nat, j: nat)
    requires i < j < i + BUFFER
    ensures (head + i) % BUFFER != (head + j) % BUFFER
  {
  }

  lemma {:induction false} SlotAfter(head: nat, n: nat, i: nat)
    ensures ((head + n) % BUFFER + i) % BUFFER == (head + (n + i)) % BUFFER
  {
  }

  lemma {:induction false} RingAt(a: seq<Byte>, head: nat, count: nat, i: nat)
    requires |a| == BUFFER && i < count
    ensures Ring(a, head, count)[i] == a[(head + i) % BUFFER]
  {
  }

  lemma {:induction false} CopyStep(ring: seq<Byte>, was: seq<Byte>, i: nat)
    requires i < |ring| && i < |was|
    ensures (ring[..i] + was[i..])[i := ring[i]] == ring[..i + 1] + was[i + 1..]
  {
  }

  /** Writing the slot after the last byte appends to the ring. */
  lemma {:induction false} RingAppend(a: seq<Byte>, head: nat, count: nat, x: Byte)
    requires |a| == BUFFER && count < BUFFER
    ensures Ring(a[(head + count) % BUFFER := x], head, count + 1) == Ring(a, head, count) + [x]
  {
    var k := (head + count) % BUFFER;
    var r := Ring(a[k := x], head, count + 1);
    forall i | 0 <= i < count ensures r[i] == Ring(a, head, count)[i] { SlotsDiffer(head, i, count); }
  }

  lemma {:induction false} RingDrop(a: seq<Byte>, head: nat, count: nat, n: nat)
    requires |a| == BUFFER && n <= count
    ensures Ring(a, (head + n) % BUFFER, count - n) == Ring(a, head, count)[n..]
  {
    var dropped, kept := Ring(a, (head + n) % BUFFER, count - n), Ring(a, head, count)[n..];
    forall i | 0 <= i < count - n ensures dropped[i] == kept[i] { SlotAfter(head, n, i); }
  }

  class Connection {
    const buffer: array<Byte>
    var head: nat
    var count: nat
    var active: bool
    var connected: bool
    var reset: bool
    var peerFIN: bool
    var receiveNext: Word
    var sendNext: Word
    var unacknowledged: Word
    var peerWindow: nat
    var peerMSS: nat
    var windowSequence: Word
    var windowACK: Word
    var lastByte: Byte

    ghost predicate Valid() reads this, buffer { buffer.Length == BUFFER && head < BUFFER && count <= BUFFER }

    ghost function View(): Conn
      reads this, buffer
      requires Valid()
    {
      Conn(active, connected, reset, peerFIN, receiveNext, Ring(buffer[..], head, count), sendNext, unacknowledged,
           peerWindow, peerMSS, windowSequence, windowACK, lastByte)
    }

    /** The record of a new connection in NetworkTCPConnect; the clock register gives the sequence number. */
    constructor (clock: Word)
      ensures Valid() && View() == Conn(true, false, false, false, 0, [], clock, clock, 0, 0, 0, 0, 0)
      ensures Fresh(View())
    {
      buffer := new Byte[BUFFER];
      head, count, active, connected, reset, peerFIN := 0, 0, true, false, false, false;
      receiveNext, sendNext, unacknowledged := 0, clock, clock;
      peerWindow, peerMSS, windowSequence, windowACK, lastByte := 0, 0, 0, 0, 0;
    }

    method SendSegment(sequence: Word, syn: bool, fin: bool, data: seq<Byte>) returns (g: Segment)
      requires Valid()
      ensures g == Emit(View(), sequence, syn, fin, data)
    {
      g := Segment(sequence, if syn then 0 else receiveNext, fin, syn, false, !syn, BUFFER - count,
                   if syn then Some(MSS) else None, data);
    }

    /** Copies `n` bytes of the segment in behind the last byte. */
    method Append(data: seq<Byte>, skip: nat, n: nat)
      requires Valid() && skip + n <= |data| && count + n <= BUFFER
      modifies this`count, buffer
      ensures Valid() && count == old(count) + n
      ensures Ring(buffer[..], head, count) == old(Ring(buffer[..], head, count)) + data[skip..skip + n]
    {
      ghost var before := Ring(buffer[..], head, count);
      var index := 0;
      while index < n
        invariant 0 <= index <= n && count == old(count)
        invariant Ring(buffer[..], head, count + index) == before + data[skip..skip + index]
      {
        ghost var a := buffer[..];
        RingAppend(a, head, count + index, data[skip + index]);
        buffer[(head + count + index) % BUFFER] := data[skip + index];
        assert buffer[..] == a[(head + (count + index)) % BUFFER := data[skip + index]];
        assert data[skip..skip + index] + [data[skip + index]] == data[skip..skip + index + 1];
        index := index + 1;
      }
      count := count + n;
    }

    method Accept(s: Segment)
      requires Valid()
      modifies this, buffer
      ensures Valid() && View() == Accepted(old(View()), s)
    {
      hide Wrap, Minus, Ring;
      var skip := Minus(receiveNext, s.sequence);
      if skip < |s.data| {
        if peerFIN || count == BUFFER { return; }
        var taken := Min(|s.data| - skip, BUFFER - count);
        Append(s.data, skip, taken);
        receiveNext := Wrap(receiveNext + taken);
      }
      if s.fin && Wrap(s.sequence + |s.data|) == receiveNext {
        receiveNext := Wrap(receiveNext + 1);
        peerFIN := true;
      }
    }

    method Acknowledge(s: Segment)
      requires Valid()
      modifies this
      ensures Valid() && View() == Acknowledged(old(View()), s)
    {
      if !SequenceBefore(s.acknowledgment, unacknowledged) {
        unacknowledged := s.acknowledgment;
        if SequenceBefore(windowSequence, s.sequence)
          || (windowSequence == s.sequence && !SequenceBefore(s.acknowledgment, windowACK)) {
          peerWindow, windowSequence, windowACK := s.window, s.sequence, s.acknowledgment;
        }
      }
    }

    method AcceptSYN(s: Segment) returns (answer: bool)
      requires Valid() && !connected
      modifies this
      ensures Valid() && View() == Handshake(old(View()), s).0 && answer == Handshake(old(View()), s).1
    {
      hide Wrap, Ring;
      if !s.ack || s.acknowledgment != sendNext { return false; }
      if s.rst { reset := true; return false; }
      if !s.syn || s.fin || |s.data| != 0 || s.mss.None? { return false; }
      receiveNext, unacknowledged, peerWindow, peerMSS := Wrap(s.sequence + 1), s.acknowledgment, s.window, s.mss.value;
      windowSequence, windowACK, connected := s.sequence, s.acknowledgment, true;
      return true;
    }

    /** The checks of a connected socket, in the order the code makes them. */
    method AcceptData(s: Segment) returns (answer: bool)
      requires Valid() && connected
      modifies this, buffer
      ensures Valid() && View() == Input(old(View()), s).0 && answer == Input(old(View()), s).1
    {
      hide Wrap, Minus, SequenceBefore, Accepted, Acknowledged, Ring;
      if s.rst {
        if s.sequence == receiveNext { reset := true; return false; }
        return true;
      }
      if s.syn { return true; }
      if !s.ack || SequenceBefore(sendNext, s.acknowledgment) { return false; }
      if SequenceBefore(receiveNext, s.sequence)
        || (SequenceBefore(s.sequence, receiveNext) && Minus(receiveNext, s.sequence) > |s.data| + FinLength(s)) {
        return true;
      }
      Acknowledge(s);
      if |s.data| == 0 && !s.fin { return false; }
      Accept(s);
      return true;
    }

    /** NetworkTCPInputLocked for this connection; the answer, if any, acknowledges what is then stored. */
    method InputLocked(s: Segment) returns (reply: Option<Segment>)
      requires Valid()
      modifies this, buffer
      ensures Valid() && View() == Input(old(View()), s).0
      ensures reply == if Input(old(View()), s).1 then Some(Emit(View(), View().sendNext, false, false, [])) else None
    {
      hide Accepted, Acknowledged, Ring, Emit, Handshake, SequenceBefore, Minus, Wrap;
      var answer;
      if connected { answer := AcceptData(s); } else { answer := AcceptSYN(s); }
      if !answer { return None; }
      var g := SendSegment(sendNext, false, false, []);
      return Some(g);
    }

    /** Copies the first `n` bytes of the ring to the start of the caller's buffer. */
    method CopyOut(into: array<Byte>, n: nat)
      requires Valid() && into != buffer && n <= count && n <= into.Length
      modifies into
      ensures into[..] == Ring(buffer[..], head, count)[..n] + old(into[..])[n..]
    {
      hide Ring;
      ghost var ring := Ring(buffer[..], head, count);
      ghost var was := into[..];
      var index := 0;
      while index < n
        modifies into
        invariant 0 <= index <= n
        invariant into[..] == ring[..index] + was[index..]
      {
        RingAt(buffer[..], head, count, index);
        CopyStep(ring, was, index);
        ghost var before := into[..];
        into[index] := buffer[(head + index) % BUFFER];
        assert into[..] == before[index := ring[index]];
        index := index + 1;
      }
    }

    /** One locked pass of Receive: bytes go to the caller's buffer from its start. */
    method ReceivePass(into: array<Byte>) returns (r: Read)
      requires Valid() && into != buffer
      modifies this, into
      ensures Valid() && View() == Receive(old(View()), into.Length).0 && r == Receive(old(View()), into.Length).1
      ensures r.Data? ==> |r.bytes| <= into.Length && into[..] == r.bytes + old(into[..])[|r.bytes|..]
      ensures !r.Data? ==> into[..] == old(into[..])
    {
      hide Ring;
      if !active || !connected || reset { return Closed; }
      if count != 0 {
        var n := if count < into.Length then count else into.Length;
        CopyOut(into, n);
        RingDrop(buffer[..], head, count, n);
        r := Data(into[..n]);
        head := (head + n) % BUFFER;
        count := count - n;
        return;
      }
      if peerFIN { return EndOfStream; }
      return Nothing;
    }

    /** The first locked section of SendReliable; SendNext is put back when the link refuses the packet. */
    method BeginBlock(syn: bool, fin: bool, data: seq<Byte>, transmitted: bool) returns (b: Option<Block>, g: Option<Segment>)
      requires Valid()
      modifies this`sendNext
      ensures Valid()
      ensures var r := Begin(old(View()), syn, fin, data, transmitted);
              if r.None? then b.None? && View() == old(View())
              else View() == r.value.0 && b == Some(r.value.1)
                   && g == Some(Emit(View(), b.value.sequence, syn, fin, data))
    {
      hide Wrap, Ring;
      b, g := None, None;
      if !active || reset { return; }
      var sequence := sendNext;
      var end := Wrap(sequence + |data| + Bit(syn || fin));
      sendNext := end;
      var packet := SendSegment(sequence, syn, fin, data);
      if !transmitted { sendNext := sequence; return; }
      b, g := Some(Block(sequence, end, syn, fin, data)), Some(packet);
    }

    /** A pass of SendReliable's loop; after success the caller notes the block's last byte. */
    method PollBlock(b: Block, retry: bool) returns (p: Progress)
      requires Valid()
      ensures p == Poll(View(), b, retry)
    {
      hide Wrap, Ring, Minus, SequenceBefore;
      if !active || reset { return Failed; }
      if unacknowledged == b.end { return Acked; }
      if !retry { return Waiting; }
      var skip := 0;
      if |b.data| != 0 && SequenceBefore(b.sequence, unacknowledged) {
        skip := Minus(unacknowledged, b.sequence);
        if skip > |b.data| { skip := |b.data|; }
      }
      var length := |b.data| - skip;
      if peerWindow == 0 && length != 0 { length := 1; }
      var g := SendSegment(Wrap(b.sequence + skip), b.syn, b.fin, b.data[skip..skip + length]);
      return Resend(g);
    }

    method ResetConnection()
      requires Valid()
      modifies this
      ensures Valid()
      ensures View() == old(View()).(active := false, connected := false, reset := true, ring := [])
    {
      active, connected, reset, count := false, false, true, 0;
    }
  }
}
