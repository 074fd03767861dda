/** The sending half of a connection: SendReliable transmits one block and repeats what is unacknowledged of
    it, Send probes a closed window with the last byte. */
module TcpSend {
  import opened Prelude
  import opened TcpSpec

  function Bit(b: bool): nat { if b then 1 else 0 }

  /** SendSegment: the header fields of a segment of this end. */
  function Emit(c: Conn, sequence: Word, syn: bool, fin: bool, data: seq<Byte>): Segment {
    Segment(sequence, if syn then 0 else c.receiveNext, fin, syn, false, !syn, BUFFER - Min(|c.ring|, BUFFER),
            if syn then Some(MSS) else None, data)
  }

  /** The block a running SendReliable waits for: its first sequence number and the one after its end. */
  datatype Block = Block(sequence: Word, end: Word, syn: bool, fin: bool, data: seq<Byte>)

  /** The first locked section of SendReliable; `transmitted` is whether the link took the packet. */
  function Begin(c: Conn, syn: bool, fin: bool, data: seq<Byte>, transmitted: bool): Option<(Conn, Block)> {
    if !c.active || c.reset || !transmitted then None else
    var end := Wrap(c.sendNext + |data| + Bit(syn || fin));
    Some((c.(sendNext := end), Block(c.sendNext, end, syn, fin, data)))
  }

  /** What a pass of SendReliable's waiting loop does. */
  datatype Progress = Failed | Acked | Resend(segment: Segment) | Waiting

  function Unsent(c: Conn, b: Block): nat
    ensures Unsent(c, b) <= |b.data|
  {
    if |b.data| != 0 && SequenceBefore(b.sequence, c.unacknowledged)
    then Min(Minus(c.unacknowledged, b.sequence), |b.data|) else 0
  }

  function RetryLength(c: Conn, b: Block): nat
    ensures Unsent(c, b) + RetryLength(c, b) <= |b.data|
  {
    var n := |b.data| - Unsent(c, b);
    if c.peerWindow == 0 && n != 0 then 1 else n
  }

  function Poll(c: Conn, b: Block, retry: bool): Progress {
    if !c.active || c.reset then Failed
    else if c.unacknowledged == b.end then Acked
    else if retry then
      var skip := Unsent(c, b);
      Resend(Emit(c, Wrap(b.sequence + skip), b.syn, b.fin, b.data[skip..skip + RetryLength(c, b)]))
    else Waiting
  }

  /** Send's window probe repeats the byte before SendNext. */
  function Probe(c: Conn): Segment { Emit(c, Wrap(c.sendNext - 1), false, false, [c.lastByte]) }

  // ---- One whole conversation ----

  /** The connection with what this end has sent: `iss` its initial sequence number, `sent` every byte handed
      to SendReliable, `next` and `una` the stream positions of SendNext and SendUnacknowledged, `packets` every
      segment put on the link with the position it starts at. */
  datatype Sender = Sender(c: Conn, iss: Word, sent: seq<Byte>, next: int, una: int, block: Option<Block>,
                           packets: seq<(Segment, int)>)

  datatype Event =
    | Start(syn: bool, fin: bool, data: seq<Byte>, transmitted: bool)
    | Pass(retry: bool)
    | Persist
    | Arrive(segment: Segment, ack: int)

  function Aborted(s: Sender): Sender {
    s.(c := s.c.(active := false, connected := false, reset := true, ring := []), block := None)
  }

  /** When the callers take the step. Connect sends the SYN first, Send only data and Close only the FIN, each
      when the one before has been acknowledged; Send cuts blocks to the peer's segment size. An arriving
      acknowledgment names a position not half the sequence space away. */
  ghost predicate Enabled(s: Sender, e: Event) {
    match e
    case Start(syn, fin, data, _) =>
      && s.block.None? && s.c.active
      && (if syn then s.next == -1 && !fin && data == []
          else s.c.connected && 0 <= s.next <= |s.sent| && (if fin then data == [] else 0 < |data| <= MSS))
    case Pass(_) => s.block.Some?
    case Persist => s.block.None? && s.c.active && s.c.connected && !s.c.reset && 0 <= s.next <= |s.sent|
    case Arrive(segment, ack) =>
      && s.c.active && segment.acknowledgment == At(Peer(s), ack)
      && -HALF <= s.next - ack < HALF && -HALF <= ack - s.una < HALF
  }

  /** This end's stream as its peer sees it. */
  function Peer(s: Sender): Stream { Stream(s.iss, s.sent) }

  /** SendUnacknowledged took the acknowledgment over. */
  predicate TakesAck(s: Sender, segment: Segment) {
    var c' := Input(s.c, segment).0;
    if s.c.connected then Processed(s.c, segment) && !OutsideWindow(s.c, segment)
                          && !SequenceBefore(segment.acknowledgment, s.c.unacknowledged)
    else c'.connected
  }

  function Apply(s: Sender, e: Event): Sender {
    match e
    case Start(syn, fin, data, transmitted) =>
      var r := Begin(s.c, syn, fin, data, transmitted);
      if r.None? then Aborted(s) else
      var (c, b) := r.value;
      s.(c := c, sent := s.sent + data, next := s.next + |data| + Bit(syn || fin), block := Some(b),
         packets := s.packets + [(Emit(c, b.sequence, syn, fin, data), s.next)])
    case Pass(retry) =>
      if s.block.None? then s else
      var b := s.block.value;
      (match Poll(s.c, b, retry)
       case Failed => Aborted(s)
       case Acked => s.(c := if b.data == [] then s.c else s.c.(lastByte := b.data[|b.data| - 1]), block := None)
       case Resend(segment) =>
         s.(packets := s.packets + [(segment, s.next - |b.data| - Bit(b.syn || b.fin) + Unsent(s.c, b))])
       case Waiting => s)
    case Persist => s.(packets := s.packets + [(Probe(s.c), s.next - 1)])
    case Arrive(segment, ack) =>
      s.(c := Input(s.c, segment).0, una := if TakesAck(s, segment) then ack else s.una)
  }

  function Opened(c: Conn): Sender
  { Sender(c, c.sendNext, [], -1, -1, None, []) }

  /** A connection as NetworkTCPConnect fills it in. */
  predicate Fresh(c: Conn) {
    c.active && !c.connected && !c.reset && !c.peerFIN && c.ring == [] && c.unacknowledged == c.sendNext
  }

  /** Stream position of the first byte, SYN or FIN of the outstanding block. */
  function Base(s: Sender, b: Block): int { s.next - |b.data| - Bit(b.syn || b.fin) }

  predicate BlockOk(s: Sender, b: Block) {
    var base := Base(s, b);
    && b.end == s.c.sendNext && b.sequence == At(Peer(s), base) && base <= s.una && |b.data| <= MSS
    && !(b.syn && b.fin) && (b.syn || b.fin <==> b.data == [])
    && (if b.syn then base == -1 else 0 <= base <= |s.sent| && s.sent[base..] == b.data)
  }

  predicate IdleOk(s: Sender) {
    && s.una == s.next
    && (s.sent != [] && s.next == |s.sent| ==> s.c.lastByte == s.sent[|s.sent| - 1])
  }

  ghost predicate PacketOk(s: Sender, x: (Segment, int)) {
    -1 <= x.1 && Carries(Peer(s), x.0, x.1) && (x.0.fin ==> s.next == |s.sent| + 1)
  }

  /** Everything ever put on the link is part of this end's stream at its own position, and the acknowledged
      position stays between the outstanding block's start and its end. */
  ghost predicate SenderOk(s: Sender) {
    && -1 <= s.una <= s.next <= |s.sent| + 1 && s.next <= s.una + MSS
    && s.c.sendNext == At(Peer(s), s.next) && s.c.unacknowledged == At(Peer(s), s.una)
    && (s.next == -1 || s.next == |s.sent| || s.next == |s.sent| + 1) && (s.next == -1 ==> s.sent == [])
    && (s.block.Some? ==> BlockOk(s, s.block.value))
    && (s.block.None? && s.c.active ==> IdleOk(s))
    && (forall x :: x in s.packets ==> PacketOk(s, x))
  }

  lemma {:induction false} OpenedOk(c: Conn)
    requires Fresh(c)
    ensures SenderOk(Opened(c))
  {
    WrapPlus(c.sendNext, 0);
  }

  lemma {:induction false} PacketsGrow(s: Sender, s': Sender)
    requires forall x :: x in s.packets ==> PacketOk(s, x)
    requires s'.iss == s.iss && s.sent <= s'.sent
    requires s.sent == s'.sent || s.next != |s.sent| + 1
    requires s.next == |s.sent| + 1 ==> s'.next == s.next
    ensures forall x :: x in s.packets ==> PacketOk(s', x)
  {
    forall x | x in s.packets ensures PacketOk(s', x) { assert PacketOk(s, x); }
  }

  lemma {:induction false} StartOk(s: Sender, e: Event)
    requires SenderOk(s) && Enabled(s, e) && e.Start?
    ensures SenderOk(Apply(s, e))
  {
    var s' := Apply(s, e);
    PacketsGrow(s, s');
    if Begin(s.c, e.syn, e.fin, e.data, e.transmitted).Some? {
      hide Carries, SequenceBefore, Minus, Wrap;
      NextAt(s.iss, s.next, |e.data| + Bit(e.syn || e.fin));
      CarriesBlock(s', s'.packets[|s.packets|].0, s.next);
      assert s'.sent[s.next + if e.syn then 1 else 0..] == e.data;
    }
  }

  lemma {:induction false} NextAt(iss: Word, x: int, k: int)
    ensures Wrap(Wrap(iss + 1 + x) + k) == Wrap(iss + 1 + (x + k))
  {
    WrapPlus(iss + 1 + x, k);
  }

  /** A segment cut out of the sent bytes carries the stream. */
  lemma {:induction false} CarriesBlock(s: Sender, g: Segment, at: int)
    requires -1 <= at && g.sequence == At(Peer(s), at) && at + |g.data| <= |s.sent| && |g.data| <= MSS
    requires g.data != [] ==> 0 <= at && s.sent[at..at + |g.data|] == g.data
    requires g.fin ==> at + |g.data| == |s.sent|
    ensures Carries(Peer(s), g, at)
  {
  }

  /** How far into the outstanding block the acknowledged position is, and when it is all acknowledged. */
  lemma {:induction false} UnsentIs(s: Sender)
    requires SenderOk(s) && s.block.Some?
    ensures var b := s.block.value;
            && Unsent(s.c, b) == Min(s.una - Base(s, b), |b.data|)
            && (s.c.unacknowledged == b.end <==> s.una == s.next)
  {
    var b := s.block.value;
    WrapMinus(s.iss + 1 + s.una, s.iss + 1 + Base(s, b));
    WrapMinus(s.iss + 1 + Base(s, b), s.iss + 1 + s.una);
    WrapMinus(s.iss + 1 + s.una, s.iss + 1 + s.next);
  }

  lemma {:induction false} ResendCarries(s: Sender)
    requires SenderOk(s) && s.block.Some?
    ensures var b := s.block.value; var at := Base(s, b) + Unsent(s.c, b);
            && Poll(s.c, b, true).Resend? ==> PacketOk(s, (Poll(s.c, b, true).segment, at))
  {
    hide Unsent, RetryLength, Carries, SequenceBefore, Minus, Wrap;
    var b := s.block.value;
    var at := Base(s, b) + Unsent(s.c, b);
    if Poll(s.c, b, true).Resend? {
      NextAt(s.iss, Base(s, b), Unsent(s.c, b));
      var g := Poll(s.c, b, true).segment;
      if b.data != [] { SliceOf(s.sent, Base(s, b), b.data, Unsent(s.c, b), RetryLength(s.c, b)); }
      CarriesBlock(s, g, at);
    }
  }

  lemma {:induction false} SliceOf(sent: seq<Byte>, base: nat, data: seq<Byte>, skip: nat, n: nat)
    requires base <= |sent| && sent[base..] == data && skip + n <= |data|
    ensures data[skip..skip + n] == sent[base + skip..base + skip + n]
  {
  }

  lemma {:induction false} PassOk(s: Sender, e: Event)
    requires SenderOk(s) && Enabled(s, e) && e.Pass?
    ensures SenderOk(Apply(s, e))
  {
    UnsentIs(s);
    ResendCarries(s);
    var s', b := Apply(s, e), s.block.value;
    PacketsGrow(s, s');
    hide Unsent, RetryLength, Carries, SequenceBefore, Minus, Wrap;
    match Poll(s.c, b, e.retry) {
      case Acked =>
        if b.data != [] { assert s.sent[Base(s, b)..][|b.data| - 1] == s.sent[|s.sent| - 1]; }
      case _ =>
    }
  }

  lemma {:induction false} PersistOk(s: Sender)
    requires SenderOk(s) && Enabled(s, Persist)
    ensures SenderOk(Apply(s, Persist))
  {
    hide Wrap;
    PacketsGrow(s, Apply(s, Persist));
    NextAt(s.iss, s.next, -1);
    assert Carries(Peer(s), Probe(s.c), s.next - 1);
  }

  lemma {:induction false} AckOrder(s: Sender, ack: int)
    requires SenderOk(s) && -HALF <= s.next - ack < HALF && -HALF <= ack - s.una < HALF
    ensures var a := At(Peer(s), ack);
            && (SequenceBefore(s.c.sendNext, a) <==> s.next < ack)
            && (SequenceBefore(a, s.c.unacknowledged) <==> ack < s.una)
            && (a == s.c.sendNext <==> ack == s.next)
  {
    WrapMinus(s.iss + 1 + s.next, s.iss + 1 + ack);
    WrapMinus(s.iss + 1 + ack, s.iss + 1 + s.una);
  }

  /** What an arriving segment can do to the sending fields. */
  lemma {:induction false} InputSends(s: Sender, g: Segment)
    ensures var c' := Input(s.c, g).0;
            && c'.sendNext == s.c.sendNext && c'.lastByte == s.c.lastByte && c'.active == s.c.active
            && c'.unacknowledged == (if TakesAck(s, g) then g.acknowledgment else s.c.unacknowledged)
            && (TakesAck(s, g) && !s.c.connected ==> g.acknowledgment == s.c.sendNext)
  {
    AcceptedSends(Acknowledged(s.c, g), g);
    hide Accepted, Minus, SequenceBefore, OutsideWindow;
  }

  lemma {:induction false} AcceptedSends(c: Conn, g: Segment)
    ensures var c' := Accepted(c, g);
            && c'.sendNext == c.sendNext && c'.lastByte == c.lastByte && c'.active == c.active
            && c'.unacknowledged == c.unacknowledged && c'.connected == c.connected
  {
  }

  lemma {:induction false} ArriveOk(s: Sender, e: Event)
    requires SenderOk(s) && Enabled(s, e) && e.Arrive?
    ensures SenderOk(Apply(s, e)) && Apply(s, e).una >= s.una
  {
    hide Input, SequenceBefore, Wrap, Carries, OutsideWindow, TakesAck, Processed, PacketOk;
    AckOrder(s, e.ack);
    InputSends(s, e.segment);
    AckWithin(s, e.segment, e.ack);
    PacketsGrow(s, Apply(s, e));
  }

  /** An acknowledgment that is taken over is of something sent and not of less than before. */
  lemma {:induction false} AckWithin(s: Sender, g: Segment, ack: int)
    requires SenderOk(s) && g.acknowledgment == At(Peer(s), ack)
    requires -HALF <= s.next - ack < HALF && -HALF <= ack - s.una < HALF
    ensures TakesAck(s, g) ==> s.una <= ack <= s.next
  {
    AckOrder(s, ack);
    InputSends(s, g);
    hide Input, SequenceBefore, Wrap, OutsideWindow, Carries;
  }

  lemma {:induction false} ApplyOk(s: Sender, e: Event)
    requires SenderOk(s) && Enabled(s, e)
    ensures SenderOk(Apply(s, e))
  {
    hide Enabled, Apply, SenderOk;
    match e {
      case Start(_, _, _, _) => StartOk(s, e);
      case Pass(_) => PassOk(s, e);
      case Persist => PersistOk(s);
      case Arrive(_, _) => ArriveOk(s, e);
    }
  }

  /** SendReliable reports success exactly when the peer has acknowledged all that was ever sent. */
  lemma {:induction false} SuccessMeansAcknowledged(s: Sender, retry: bool)
    requires SenderOk(s) && s.block.Some?
    ensures Poll(s.c, s.block.value, retry).Acked? <==> s.c.active && !s.c.reset && s.una == s.next
  {
    UnsentIs(s);
  }

  /** The SYN offers a segment size and acknowledges nothing; every later segment acknowledges and none resets. */
  predicate Flags(g: Segment, syn: bool, fin: bool) {
    g.syn == syn && g.fin == fin && !g.rst && g.ack == !syn && g.mss == if syn then Some(536) else None
  }

  /** A block is put on the link whole, behind everything sent before it, or the connection is given up. */
  lemma {:induction false} StartMeaning(s: Sender, e: Event)
    requires SenderOk(s) && Enabled(s, e) && e.Start?
    ensures var s' := Apply(s, e); var end := s.next + |e.data| + Bit(e.syn || e.fin);
            if s.c.active && !s.c.reset && e.transmitted then
              && s'.sent == s.sent + e.data && s'.next == end && s'.una == s.una && s'.c == s.c.(sendNext := At(Peer(s), end))
              && s'.block == Some(Block(At(Peer(s), s.next), At(Peer(s), end), e.syn, e.fin, e.data))
              && |s'.packets| == |s.packets| + 1 && s'.packets[..|s.packets|] == s.packets
              && var (g, at) := s'.packets[|s.packets|];
                 at == s.next && g.data == e.data && g.sequence == At(Peer(s), s.next) && Flags(g, e.syn, e.fin)
            else s' == Aborted(s)
  {
    NextAt(s.iss, s.next, |e.data| + Bit(e.syn || e.fin));
  }

  /** A pass of the waiting loop fails on a reset, ends when all is acknowledged, and otherwise, once the timer has run
      out, repeats what is not acknowledged: all of it, or the one byte a closed window lets through. */
  lemma {:induction false} PassMeaning(s: Sender, retry: bool)
    requires SenderOk(s) && s.block.Some?
    ensures var b, s' := s.block.value, Apply(s, Pass(retry));
            if !s.c.active || s.c.reset then s' == Aborted(s)
            else if s.una == s.next then s' == s.(c := s'.c, block := None) && s'.c == s.c.(lastByte := s'.c.lastByte)
            else if !retry then s' == s
            else
              && |s'.packets| == |s.packets| + 1 && s' == s.(packets := s.packets + [s'.packets[|s.packets|]])
              && var (g, at) := s'.packets[|s.packets|];
                 && at == s.una && g.sequence == At(Peer(s), s.una) && Flags(g, b.syn, b.fin)
                 && (b.data == [] ==> g.data == [] && s.una + 1 == s.next)
                 && (b.data != [] ==> 0 <= s.una < |s.sent| == s.next)
                 && (b.data != [] && s.c.peerWindow != 0 ==> g.data == s.sent[s.una..])
                 && (b.data != [] && s.c.peerWindow == 0 ==> g.data == [s.sent[s.una]])
  {
    UnsentIs(s);
    if s.una != s.next { ResendMeaning(s); }
    hide Wrap, Minus, SequenceBefore, Carries, Unsent, RetryLength, Emit, SenderOk;
  }

  /** The segment that is repeated. */
  lemma {:induction false} ResendMeaning(s: Sender)
    requires SenderOk(s) && s.block.Some? && s.una != s.next
    ensures var b := s.block.value; var skip := Unsent(s.c, b); var g := Emit(s.c, Wrap(b.sequence + skip), b.syn, b.fin, b.data[skip..skip + RetryLength(s.c, b)]);
            && Base(s, b) + skip == s.una && g.sequence == At(Peer(s), s.una) && Flags(g, b.syn, b.fin)
            && (b.data == [] ==> g.data == [] && s.una + 1 == s.next)
            && (b.data != [] ==> 0 <= s.una < |s.sent| == s.next)
            && (b.data != [] && s.c.peerWindow != 0 ==> g.data == s.sent[s.una..])
            && (b.data != [] && s.c.peerWindow == 0 ==> g.data == [s.sent[s.una]])
  {
    UnsentIs(s);
    var b := s.block.value;
    NextAt(s.iss, Base(s, b), Unsent(s.c, b));
    hide Wrap, Minus, SequenceBefore, Carries, PacketOk;
    var skip := Unsent(s.c, b);
    if b.data != [] {
      assert s.sent[Base(s, b)..] == b.data;
      assert b.data[skip..] == s.sent[s.una..];
      assert b.data[skip..skip + 1] == [s.sent[s.una]];
    }
  }

  /** One repeated segment that gets through is enough: a receiver that has all that was acknowledged, and room for
      the rest, then has everything sent, and its answer acknowledges it. */
  lemma {:induction false} RetryDelivers(s: Sender, r: Conn, d: seq<Byte>)
    requires SenderOk(s) && s.block.Some? && s.c.active && !s.c.reset && s.una != s.next
    requires !s.block.value.syn && s.c.peerWindow != 0
    requires r.connected && Tracks(r, Peer(s), d) && s.una <= Position(r, d) <= s.next
    requires |s.sent| - |d| <= BUFFER && !SequenceBefore(r.sendNext, s.c.receiveNext)
    ensures var p := Poll(s.c, s.block.value, true);
            && p.Resend? && var (r', answered) := Input(r, p.segment);
            && d + r'.ring == s.sent && Position(r', d) == s.next && answered
            && Emit(r', r'.sendNext, false, false, []).acknowledgment == s.block.value.end
  {
    PassMeaning(s, true);
    PassOk(s, Pass(true));
    var s' := Apply(s, Pass(true));
    var (g, at) := s'.packets[|s.packets|];
    assert (g, at) in s'.packets && PacketOk(s', (g, at));
    InputTracks(r, Peer(s), d, g, at);
    AnswerMeaning(r, g);
    var r' := Input(r, g).0;
    assert d + r'.ring <= s.sent && |d + r'.ring| == |s.sent|;
  }

  /** The probe of a closed window is the last byte sent, once more: a receiver that has it answers with its window. */
  lemma {:induction false} ProbeMeaning(s: Sender, r: Conn, d: seq<Byte>)
    requires SenderOk(s) && Enabled(s, Persist)
    ensures var s' := Apply(s, Persist);
            && |s'.packets| == |s.packets| + 1 && s' == s.(packets := s.packets + [s'.packets[|s.packets|]])
            && var (g, at) := s'.packets[|s.packets|];
               && at == s.next - 1 && |g.data| == 1 && Flags(g, false, false)
               && (s.next > 0 ==> g.data == [s.sent[s.next - 1]])
               && (r.connected && Tracks(r, Peer(s), d) && Position(r, d) == s.next && !SequenceBefore(r.sendNext, s.c.receiveNext) ==>
                     Input(r, g).1 && Input(r, g).0.ring == r.ring)
  {
    PersistOk(s);
    var s' := Apply(s, Persist);
    var (g, at) := s'.packets[|s.packets|];
    assert (g, at) in s'.packets && PacketOk(s', (g, at));
    if r.connected && Tracks(r, Peer(s), d) && Position(r, d) == s.next && !SequenceBefore(r.sendNext, s.c.receiveNext) {
      InputTracks(r, Peer(s), d, g, at);
      AnswerMeaning(r, g);
    }
  }

  function Send(s: Sender, es: seq<Event>): Sender
    decreases |es|
  {
    if es == [] then s else Apply(Send(s, es[..|es| - 1]), es[|es| - 1])
  }

  ghost predicate AllEnabled(s: Sender, es: seq<Event>)
    decreases |es|
  {
    es != [] ==> AllEnabled(s, es[..|es| - 1]) && Enabled(Send(s, es[..|es| - 1]), es[|es| - 1])
  }

  lemma {:induction false} SendOk(s: Sender, es: seq<Event>)
    requires SenderOk(s) && AllEnabled(s, es)
    ensures SenderOk(Send(s, es)) && Send(s, es).iss == s.iss
    decreases |es|
  {
    if es != [] {
      SendOk(s, es[..|es| - 1]);
      ApplyOk(Send(s, es[..|es| - 1]), es[|es| - 1]);
    }
  }

  /** The link may lose, repeat and reorder, but hands over only what was put on it; old segments are not half
      the sequence space away. */
  ghost predicate Delivers(s: Sender, c: Conn, d: seq<Byte>, es: seq<TcpSpec.Event>)
    decreases |es|
  {
    es != [] ==>
      && Delivers(s, c, d, es[..|es| - 1])
      && (var (c0, d0) := Run(c, d, es[..|es| - 1]); var e := es[|es| - 1];
          e.Arrive? ==> (e.segment, e.at) in s.packets && -HALF <= Position(c0, d0) - e.at < HALF)
  }

  lemma {:induction false} DeliveredFromPeer(s: Sender, c: Conn, d: seq<Byte>, es: seq<TcpSpec.Event>)
    requires SenderOk(s) && Delivers(s, c, d, es)
    ensures AllFromPeer(c, d, Peer(s), es)
    decreases |es|
  {
    if es != [] {
      DeliveredFromPeer(s, c, d, es[..|es| - 1]);
      var e := es[|es| - 1];
      if e.Arrive? { assert PacketOk(s, (e.segment, e.at)); }
    }
  }

  lemma {:induction false} StartsTracking(s: Sender, r: Conn)
    requires r.ring == [] && !r.peerFIN && r.receiveNext == Wrap(s.iss + 1)
    ensures Tracks(r, Peer(s), [])
  {
  }

  /** End to end: whatever the sender did and the link did to its segments, a receiver that opened with the
      sender's initial sequence number reads a prefix of the bytes sent, and all of them once it sees the end. */
  lemma {:induction false} EndToEnd(c0: Conn, ses: seq<Event>, r: Conn, res: seq<TcpSpec.Event>, capacity: nat)
    requires Fresh(c0) && AllEnabled(Opened(c0), ses)
    requires r.connected && r.ring == [] && !r.peerFIN && r.receiveNext == Wrap(c0.sendNext + 1)
    requires Delivers(Send(Opened(c0), ses), r, [], res)
    ensures var s := Send(Opened(c0), ses); var (r', read) := Run(r, [], res);
            && read + r'.ring <= s.sent
            && (Receive(r', capacity).1.EndOfStream? ==> read == s.sent && s.next == |s.sent| + 1)
  {
    hide Carries, Input, Delivers, AllEnabled, AllFromPeer, Run, PacketOk;
    var s := Send(Opened(c0), ses);
    OpenedOk(c0);
    SendOk(Opened(c0), ses);
    StartsTracking(s, r);
    DeliveredFromPeer(s, r, [], res);
    RunTracks(r, [], Peer(s), res, capacity);
    FinSent(s, r, [], res);
  }

  /** The receiver has a FIN only if the sender sent one. */
  lemma {:induction false} FinSent(s: Sender, c: Conn, d: seq<Byte>, es: seq<TcpSpec.Event>)
    requires SenderOk(s) && Delivers(s, c, d, es) && !c.peerFIN
    ensures Run(c, d, es).0.peerFIN ==> s.next == |s.sent| + 1
    decreases |es|
  {
    if es != [] {
      var before, e := es[..|es| - 1], es[|es| - 1];
      FinSent(s, c, d, before);
      var c1 := Run(c, d, before).0;
      if e.Arrive? {
        FinNeedsFin(c1, e.segment);
        assert PacketOk(s, (e.segment, e.at));
      }
    }
  }

  lemma {:induction false} FinNeedsFin(c: Conn, g: Segment)
    ensures Input(c, g).0.peerFIN ==> c.peerFIN || g.fin
  {
    hide Stored, Minus, SequenceBefore;
    if c.connected { AcceptedFin(Acknowledged(c, g), g); }
  }

  lemma {:induction false} AcceptedFin(c: Conn, g: Segment)
    ensures Accepted(c, g).peerFIN ==> c.peerFIN || g.fin
  {
  }

  /** A peer that stays inside the window announced to it loses nothing: its segment is stored whole, and what is
      announced next accounts for it. */
  lemma {:induction false} WindowHonoured(c: Conn, p: Stream, d: seq<Byte>, g: Segment, at: int, sequence: Word)
    requires c.connected && Tracks(c, p, d) && FromPeer(c, p, d, g, at) && Processed(c, g)
    requires at <= |d| + |c.ring| < at + |g.data| <= |d| + |c.ring| + Emit(c, sequence, false, false, []).window
    ensures var c' := Input(c, g).0;
            && d + c'.ring == p.bytes[..at + |g.data|]
            && Emit(c', sequence, false, false, []).window == BUFFER - (at + |g.data| - |d|)
            && Emit(c', sequence, false, false, []).acknowledgment == At(p, at + |g.data| + Bit(c'.peerFIN))
  {
    InputTracks(c, p, d, g, at);
    var c' := Input(c, g).0;
    assert |d + c'.ring| == at + |g.data|;
  }
}
