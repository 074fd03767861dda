/** The TLB shootdown of VMM.c as a state machine over sequentially consistent steps: one initiator under the
    map lock, a handler on every processor. */
module Shootdown {

  /** The initiator between its page-table store and its return. `next` is its loop index, `sent` whether
      every interrupt so far could be sent. */
  datatype Initiator =
    | Idle
    | Stored(self: nat, page: nat)
    | Sending(self: nat, page: nat, next: nat, sent: bool)
    | Waiting(self: nat, page: nat, next: nat, sent: bool)

  /** A handler between loading the generation and acknowledging it. */
  datatype Handler = Ready | Loaded(generation: nat) | Flushed(generation: nat, page: nat)

  /** `stale` holds the (processor, page) pairs whose TLB may still show what the page table said before the
      last store; `pageOf` is the page each generation was started for. */
  datatype State = State(generation: nat, address: nat, request: seq<nat>, ack: seq<nat>, failed: bool,
                         online: seq<bool>, initiator: Initiator, handlers: seq<Handler>,
                         stale: set<(nat, nat)>, pageOf: map<nat, nat>)

  const WORD: nat := 0x1_0000_0000_0000_0000

  datatype Event =
    | Store(self: nat, page: nat)
    | Announce(possible: bool)
    | Send(reached: bool)
    | AllSent
    | Observe
    | TimeOut
    | Return
    | Load(cpu: nat)
    | Flush(cpu: nat)
    | Acknowledge(cpu: nat)
    | Evict(cpu: nat, page: nat)

  /** Whether the step can happen now. Nobody stores while the map lock is held or a shootdown has failed; the
      initiator has interrupts off, so its own handler does not run. */
  predicate Enabled(s: State, e: Event) {
    match e
    case Store(self, _) =>
      s.initiator.Idle? && !s.failed && self < |s.online| && s.online[self] && self < |s.handlers| && s.handlers[self].Ready?
    case Announce(_) => s.initiator.Stored?
    case Send(_) => s.initiator.Sending? && s.initiator.next < |s.request|
    case AllSent => s.initiator.Sending? && s.initiator.next == |s.request|
    case Observe =>
      && s.initiator.Waiting? && s.initiator.next < |s.request| && s.initiator.next < |s.ack|
      && (s.request[s.initiator.next] != s.generation || s.ack[s.initiator.next] == s.generation)
    case TimeOut =>
      && s.initiator.Waiting? && s.initiator.next < |s.request| && s.initiator.next < |s.ack|
      && s.request[s.initiator.next] == s.generation && s.ack[s.initiator.next] != s.generation
    case Return => s.initiator.Waiting? && s.initiator.next == |s.request|
    case Load(c) =>
      && c < |s.handlers| && c < |s.request| && c < |s.ack| && s.handlers[c].Ready? && s.request[c] != s.ack[c]
      && (s.initiator.Idle? || c != s.initiator.self)
    case Flush(c) => c < |s.handlers| && s.handlers[c].Loaded?
    case Acknowledge(c) => c < |s.handlers| && c < |s.ack| && s.handlers[c].Flushed?
    case Evict(_, _) => true
  }

  /** Every processor paired with the page. */
  function Everyone(n: nat, page: nat): set<(nat, nat)> {
    set c | 0 <= c < n :: (c, page)
  }

  function Announced(s: State, possible: bool): State
    requires s.initiator.Stored?
  {
    var self, page, generation := s.initiator.self, s.initiator.page, (s.generation + 1) % WORD;
    var s1 := s.(stale := s.stale - {(self, page)}, address := page, generation := generation);
    if !possible || generation == 0 then s1.(failed := true, initiator := Idle)
    else s1.(initiator := Sending(self, page, 0, true), pageOf := s.pageOf[generation := page])
  }

  function Sent(s: State, reached: bool): State
    requires s.initiator.Sending? && s.initiator.next < |s.request|
  {
    var self, page, i, sent := s.initiator.self, s.initiator.page, s.initiator.next, s.initiator.sent;
    if i == self || i >= |s.online| || !s.online[i] then s.(initiator := Sending(self, page, i + 1, sent))
    else s.(request := s.request[i := s.generation], initiator := Sending(self, page, i + 1, sent && reached))
  }

  /** One step. An interrupt that cannot be sent is remembered but the request stays posted; the page is taken
      from the shared address, whatever generation the handler loaded. */
  function Apply(s: State, e: Event): State
    requires Enabled(s, e)
  {
    match e
    case Store(self, page) => s.(initiator := Stored(self, page), stale := s.stale + Everyone(|s.online|, page))
    case Announce(possible) => Announced(s, possible)
    case Send(reached) => Sent(s, reached)
    case AllSent => s.(initiator := Waiting(s.initiator.self, s.initiator.page, 0, s.initiator.sent))
    case Observe =>
      s.(initiator := Waiting(s.initiator.self, s.initiator.page, s.initiator.next + 1, s.initiator.sent))
    case TimeOut => s.(failed := true, initiator := Idle)
    case Return => s.(failed := !s.initiator.sent, initiator := Idle)
    case Load(c) => s.(handlers := s.handlers[c := Loaded(s.request[c])])
    case Flush(c) =>
      s.(handlers := s.handlers[c := Flushed(s.handlers[c].generation, s.address)], stale := s.stale - {(c, s.address)})
    case Acknowledge(c) => s.(ack := s.ack[c := s.handlers[c].generation], handlers := s.handlers[c := Ready])
    case Evict(c, p) => s.(stale := s.stale - {(c, p)})
  }

  /** VMMShootdown returns TRUE on this event. */
  predicate Succeeds(s: State, e: Event) { Enabled(s, e) && e.Return? && s.initiator.sent }

  function Start(n: nat, online: seq<bool>): State {
    State(0, 0, seq(n, _ => 0), seq(n, _ => 0), false, online, Idle, seq(n, _ => Ready), {}, map[])
  }

  predicate Active(s: State) { s.initiator.Sending? || s.initiator.Waiting? }

  /** Where the running shootdown is with processor `c`. */
  predicate ProgressOk(s: State, c: nat)
    requires Active(s) && c < |s.request| && c < |s.ack| && c < |s.online|
  {
    var asked := c != s.initiator.self && s.online[c] && (s.initiator.Waiting? || c < s.initiator.next);
    && (if asked then s.request[c] == s.generation else s.request[c] == s.ack[c] < s.generation)
    && (s.ack[c] == s.generation ==> (c, s.address) !in s.stale)
    && (asked && s.initiator.Waiting? && c < s.initiator.next ==> s.ack[c] == s.generation)
  }

  /** What holds of processor `c` in every reachable state. */
  predicate CPUOk(s: State, c: nat)
    requires c < |s.request| && c < |s.ack| && c < |s.handlers| && c < |s.online|
  {
    var h, r, a := s.handlers[c], s.request[c], s.ack[c];
    && (r != a ==> r == s.generation && (Active(s) || s.failed) && r in s.pageOf && s.pageOf[r] == s.address)
    && (!s.failed ==> a <= s.generation && r <= s.generation)
    && (!h.Ready? ==> h.generation == r != a && (s.initiator.Idle? || c != s.initiator.self))
    && (h.Flushed? ==> h.page == s.address && (Active(s) ==> (c, s.address) !in s.stale))
    && (Active(s) ==> ProgressOk(s, c))
  }

  /** Without a failure, the page being changed is the only one an online processor can be behind on. */
  ghost predicate OnlyOwnPage(s: State) {
    forall x :: x in s.stale && x.0 < |s.online| && s.online[x.0] ==> !s.initiator.Idle? && x.1 == s.initiator.page
  }

  ghost predicate Steps(s: State) {
    && |s.request| == |s.ack| == |s.handlers| == |s.online|
    && s.generation < WORD
    && (forall c :: 0 <= c < |s.request| ==> CPUOk(s, c))
    && (!s.initiator.Idle? ==> !s.failed && s.initiator.self < |s.online|)
    && (Active(s) ==> s.address == s.initiator.page && s.initiator.next <= |s.request|
                      && (s.initiator.self, s.address) !in s.stale
                      && s.generation in s.pageOf && s.pageOf[s.generation] == s.address)
  }

  ghost predicate Inv(s: State) {
    Steps(s) && (!s.failed ==> OnlyOwnPage(s))
  }

  lemma {:induction false} StartInv(n: nat, online: seq<bool>)
    requires |online| == n
    ensures Inv(Start(n, online))
  {
  }

  lemma {:induction false} ApplySteps(s: State, e: Event)
    requires Steps(s) && Enabled(s, e)
    ensures Steps(Apply(s, e))
  {
    var s' := Apply(s, e);
    forall c | 0 <= c < |s'.request| ensures CPUOk(s', c) {
      assert CPUOk(s, c);
    }
  }

  lemma {:induction false} ApplyInv(s: State, e: Event)
    requires Inv(s) && Enabled(s, e)
    ensures Inv(Apply(s, e))
  {
    ApplySteps(s, e);
    hide Steps, CPUOk, ProgressOk;
    if e.Return? {
      forall c | 0 <= c < |s.online| && s.online[c] ensures (c, s.initiator.page) !in s.stale { AllFlushed(s, c); }
    }
  }

  lemma {:induction false} AllFlushed(s: State, c: nat)
    requires Steps(s) && Enabled(s, Return) && c < |s.online| && s.online[c]
    ensures (c, s.initiator.page) !in s.stale
  {
    assert CPUOk(s, c);
  }

  /** When the shootdown reports success, no online processor can still use the old translation. */
  lemma {:induction false} SuccessMeansFlushed(s: State, e: Event, c: nat)
    requires Inv(s) && Succeeds(s, e) && c < |s.online| && s.online[c]
    ensures (c, s.initiator.page) !in s.stale
  {
    AllFlushed(s, c);
  }

  /** A generation is only ever acknowledged after flushing the page it was started for. */
  lemma {:induction false} AckUsesOwnPage(s: State, e: Event)
    requires Inv(s) && Enabled(s, e) && e.Acknowledge?
    ensures var h := s.handlers[e.cpu]; h.generation in s.pageOf && s.pageOf[h.generation] == h.page
  {
    assert CPUOk(s, e.cpu);
  }

  function Run(s: State, es: seq<Event>): State {
    if es == [] then s else
    var r := Run(s, es[..|es| - 1]);
    if Enabled(r, es[|es| - 1]) then Apply(r, es[|es| - 1]) else r
  }

  lemma {:induction false} RunInv(s: State, es: seq<Event>)
    requires Inv(s)
    ensures Inv(Run(s, es))
    decreases |es|
  {
    if es != [] {
      RunInv(s, es[..|es| - 1]);
      var r := Run(s, es[..|es| - 1]);
      if Enabled(r, es[|es| - 1]) { ApplyInv(r, es[|es| - 1]); }
    }
  }

  /** The guarantees, over every interleaving from boot. */
  lemma {:induction false} ShootdownSafe(n: nat, online: seq<bool>, es: seq<Event>, e: Event)
    requires |online| == n
    ensures var s := Run(Start(n, online), es);
            && s.online == online
            && (Succeeds(s, e) ==> forall c :: 0 <= c < n && online[c] ==> (c, s.initiator.page) !in s.stale)
            && (s.initiator.Idle? && !s.failed ==> forall x :: x in s.stale && x.0 < n ==> !online[x.0])
            && (Enabled(s, e) && e.Acknowledge? ==>
                  var h := s.handlers[e.cpu];
                  h.generation in s.pageOf && s.pageOf[h.generation] == h.page)
  {
    var s := Run(Start(n, online), es);
    StartInv(n, online);
    RunInv(Start(n, online), es);
    RunSize(Start(n, online), es);
    if Succeeds(s, e) {
      forall c | 0 <= c < n && online[c] ensures (c, s.initiator.page) !in s.stale { SuccessMeansFlushed(s, e, c); }
    }
    if Enabled(s, e) && e.Acknowledge? { AckUsesOwnPage(s, e); }
  }

  lemma {:induction false} RunSize(s: State, es: seq<Event>)
    ensures Run(s, es).online == s.online
    decreases |es|
  {
    if es != [] { RunSize(s, es[..|es| - 1]); }
  }

  /** A shootdown that fails blocks every later one. */
  lemma {:induction false} FailureIsFinal(s: State, es: seq<Event>)
    requires Inv(s) && s.failed
    ensures Run(s, es).failed && Run(s, es).initiator.Idle? && Run(s, es).generation == s.generation
    decreases |es|
  {
    if es != [] { FailureIsFinal(s, es[..|es| - 1]); }
  }

  // ---- When a shootdown succeeds ----

  /** In the running shootdown an interrupt for an online processor could not be sent. */
  ghost predicate Unreached(s: State, es: seq<Event>)
    decreases |es|
  {
    es != [] &&
    var r, e := Run(s, es[..|es| - 1]), es[|es| - 1];
    if Enabled(r, e) && e.Announce? then false
    else if Enabled(r, e) && e == Send(false) && r.initiator.next != r.initiator.self && r.initiator.next < |r.online| && r.online[r.initiator.next] then true
    else Unreached(s, es[..|es| - 1])
  }

  lemma {:induction false} SentMeaning(s: State, es: seq<Event>)
    requires Inv(s) && s.initiator.Idle?
    ensures Active(Run(s, es)) ==> (Run(s, es).initiator.sent <==> !Unreached(s, es))
    decreases |es|
  {
    if es != [] {
      SentMeaning(s, es[..|es| - 1]);
      RunInv(s, es[..|es| - 1]);
    }
  }

  /** A shootdown fails exactly when it cannot start, the generation wraps, an interrupt cannot be sent or a processor
      does not answer in time; it returns success exactly when all its interrupts were sent. */
  lemma {:induction false} FailureCause(n: nat, online: seq<bool>, es: seq<Event>, e: Event)
    requires |online| == n && Enabled(Run(Start(n, online), es), e) && !Run(Start(n, online), es).failed
    ensures var s := Run(Start(n, online), es);
            && (Apply(s, e).failed <==>
                  || e == Announce(false) || (e.Announce? && s.generation == 0xFFFF_FFFF_FFFF_FFFF)
                  || e.TimeOut? || (e.Return? && Unreached(Start(n, online), es)))
            && (Succeeds(s, e) <==> e.Return? && !Unreached(Start(n, online), es))
  {
    StartInv(n, online);
    RunInv(Start(n, online), es);
    SentMeaning(Start(n, online), es);
  }

  lemma {:induction false} RunConcat(s: State, a: seq<Event>, b: seq<Event>)
    ensures Run(s, a + b) == Run(Run(s, a), b)
    decreases |b|
  {
    if b == [] { assert a + b == a; }
    else {
      RunConcat(s, a, b[..|b| - 1]);
      assert (a + b)[..|a + b| - 1] == a + b[..|b| - 1];
    }
  }

  lemma {:induction false} RunOne(s: State, e: Event)
    requires Enabled(s, e)
    ensures Run(s, [e]) == Apply(s, e)
  {
    assert [e][..0] == [];
  }

  /** No handler is between its load and its acknowledgment, and every interrupt so far could be sent. */
  ghost predicate Smooth(s: State, self: nat, page: nat, generation: nat) {
    && Inv(s) && !s.failed && Active(s) && s.initiator.self == self && s.initiator.page == page && s.initiator.sent
    && s.generation == generation && forall c :: 0 <= c < |s.handlers| ==> s.handlers[c].Ready?
  }

  lemma {:induction false} SendRest(s: State, self: nat, page: nat, g: nat) returns (es: seq<Event>)
    requires Smooth(s, self, page, g) && s.initiator.Sending?
    ensures Smooth(Run(s, es), self, page, g) && Run(s, es).initiator == Waiting(self, page, 0, true)
    decreases |s.request| - s.initiator.next
  {
    var e := if s.initiator.next < |s.request| then Send(true) else AllSent;
    ApplyInv(s, e);
    RunOne(s, e);
    if e.AllSent? { return [e]; }
    var rest := SendRest(Apply(s, e), self, page, g);
    RunConcat(s, [e], rest);
    es := [e] + rest;
  }

  /** Processor `c` handles its interrupt. */
  lemma {:induction false} Handled(s: State, c: nat, self: nat, page: nat, g: nat)
    requires Smooth(s, self, page, g) && s.initiator.Waiting? && c < |s.request| && s.request[c] != s.ack[c]
    ensures var v := Run(s, [Load(c), Flush(c), Acknowledge(c)]);
            Smooth(v, self, page, g) && v.initiator == s.initiator && v.request == s.request && v.ack[c] == v.request[c]
  {
    assert CPUOk(s, c);
    ApplyInv(s, Load(c));
    var a := Apply(s, Load(c));
    ApplyInv(a, Flush(c));
    var b := Apply(a, Flush(c));
    ApplyInv(b, Acknowledge(c));
    RunOne(s, Load(c));
    RunOne(a, Flush(c));
    RunOne(b, Acknowledge(c));
    RunConcat(a, [Flush(c)], [Acknowledge(c)]);
    RunConcat(s, [Load(c)], [Flush(c), Acknowledge(c)]);
    assert [Flush(c)] + [Acknowledge(c)] == [Flush(c), Acknowledge(c)];
    assert [Load(c)] + [Flush(c), Acknowledge(c)] == [Load(c), Flush(c), Acknowledge(c)];
  }

  lemma {:induction false} WaitRest(s: State, self: nat, page: nat, g: nat) returns (es: seq<Event>)
    requires Smooth(s, self, page, g) && s.initiator.Waiting?
    ensures var v := Run(s, es); Smooth(v, self, page, g) && v.initiator == Waiting(self, page, |v.request|, true)
    decreases |s.request| - s.initiator.next
  {
    if s.initiator.next == |s.request| { return []; }
    var c := s.initiator.next;
    assert CPUOk(s, c);
    es := if s.request[c] != s.ack[c] then [Load(c), Flush(c), Acknowledge(c)] else [];
    if s.request[c] != s.ack[c] { Handled(s, c, self, page, g); }
    var v := Run(s, es);
    ApplyInv(v, Observe);
    RunOne(v, Observe);
    RunConcat(s, es, [Observe]);
    var rest := WaitRest(Apply(v, Observe), self, page, g);
    RunConcat(s, es + [Observe], rest);
    es := es + [Observe] + rest;
  }

  /** Whenever no shootdown runs and none has failed, there is a run in which the next one succeeds: every processor
      takes its interrupt and answers. */
  lemma {:induction false} CanSucceed(s: State, self: nat, page: nat) returns (es: seq<Event>)
    requires Inv(s) && s.initiator.Idle? && !s.failed && s.generation + 1 < WORD
    requires self < |s.online| && s.online[self]
    ensures var v := Run(s, es); Succeeds(v, Return) && v.initiator.page == page && v.generation == s.generation + 1
  {
    forall c | 0 <= c < |s.handlers| ensures s.handlers[c].Ready? { assert CPUOk(s, c); }
    ApplyInv(s, Store(self, page));
    RunOne(s, Store(self, page));
    var a := Apply(s, Store(self, page));
    ApplyInv(a, Announce(true));
    RunOne(a, Announce(true));
    var b := Apply(a, Announce(true));
    var sends := SendRest(b, self, page, s.generation + 1);
    var waits := WaitRest(Run(b, sends), self, page, s.generation + 1);
    RunConcat(b, sends, waits);
    RunConcat(a, [Announce(true)], sends + waits);
    RunConcat(s, [Store(self, page)], [Announce(true)] + (sends + waits));
    es := [Store(self, page)] + ([Announce(true)] + (sends + waits));
  }
}
