/** Every step of the scheduler keeps its invariants. */
module SchedulerProofs {
  import opened Prelude
  import opened ChunkSpec
  import opened SchedulerSpec

  lemma {:induction false} ModifyCounts(c: Chunk, t: Task, p: nat)
    requires Modify(c, t, p).Some?
    ensures var d := Modify(c, t, p).value;
            CursorOk(d) && Count(d.tasks, t) == p && forall u: Task :: u != t ==> Count(d.tasks, u) == Count(c.tasks, u)
  {
    ModifyMeaning(c, t, p);
    var d := Modify(c, t, p).value;
    forall u: Task | u != t ensures Count(d.tasks, u) == Count(c.tasks, u) {
      WithoutAll(d.tasks, t, u);
      WithoutAll(c.tasks, t, u);
    }
  }

  lemma {:induction false} SwapRemoveSet(r: seq<Task>, i: nat)
    requires i < |r| && NoDuplicates(r)
    ensures NoDuplicates(SwapRemove(r, i)) && |SwapRemove(r, i)| == |r| - 1
    ensures forall t: Task :: t in SwapRemove(r, i) <==> t in r && t != r[i]
  {
    var x := SwapRemove(r, i);
    forall t: Task ensures t in x <==> t in r && t != r[i] {
      if t in r && t != r[i] {
        var j :| 0 <= j < |r| && r[j] == t;
        assert x[if j == |r| - 1 then i else j] == t;
      }
      if t in x {
        var j :| 0 <= j < |x| && x[j] == t;
        assert x[j] == if j == i then r[|r| - 1] else r[j];
      }
    }
  }

  lemma {:induction false} CreateKeeps(s: State, t: Task, idle: bool)
    requires Inv(s) && Create(s, t, idle).Some?
    ensures Inv(Create(s, t, idle).value)
  {
    hide Count, NoDuplicates, CursorOk;
    var s' := Create(s, t, idle).value;
    forall c, u: Task | 0 <= c < |s.queues| ensures MemberOk(s', c, u) && SlotOk(s', c, u) {
      assert MemberOk(s, c, u) && SlotOk(s, c, u);
    }
    forall u | u in s'.tasks ensures TaskOk(s', u) { if u != t { assert TaskOk(s, u); } }
    forall c | 0 <= c < |s.queues| ensures QueueOk(s', c) && SeatOk(s', c) { assert QueueOk(s, c) && SeatOk(s, c); }
  }

  lemma {:induction false} AddKeeps(s: State, t: Task, c0: nat)
    requires Inv(s) && AddTask(s, t, c0).Some?
    ensures Inv(AddTask(s, t, c0).value)
  {
    hide Count, NoDuplicates, CursorOk, Modify;
    var s' := AddTask(s, t, c0).value;
    ModifyCounts(s.queues[c0].chunk, t, s.tasks[t].weight);
    assert TaskOk(s, t);
    forall c, u: Task | 0 <= c < |s.queues| ensures MemberOk(s', c, u) && SlotOk(s', c, u) {
      assert MemberOk(s, c, u) && SlotOk(s, c, u);
    }
    forall u | u in s'.tasks ensures TaskOk(s', u) { assert TaskOk(s, u); }
    forall c | 0 <= c < |s.queues| ensures QueueOk(s', c) && SeatOk(s', c) {
      assert QueueOk(s, c) && SeatOk(s, c) && MemberOk(s, c, t);
      if c == c0 { AppendNew(s.queues[c].runnable, t); }
    }
  }

  lemma {:induction false} AppendNew(r: seq<Task>, t: Task)
    requires NoDuplicates(r) && t !in r
    ensures NoDuplicates(r + [t])
  {
  }

  lemma {:induction false} RemoveKeeps(s: State, t: Task)
    requires Inv(s) && RemoveTask(s, t).Some?
    ensures Inv(RemoveTask(s, t).value)
    ensures !s.tasks[t].onCPU && forall c :: !Occupies(s, c, t)
  {
    hide Count, NoDuplicates, CursorOk, Modify, SwapRemove;
    var s' := RemoveTask(s, t).value;
    var c0 := s.tasks[t].cpu;
    var q := s.queues[c0];
    assert TaskOk(s, t) && QueueOk(s, c0);
    ModifyCounts(q.chunk, t, 0);
    SwapRemoveSet(q.runnable, Find(q.runnable, t));
    forall c, u: Task | 0 <= c < |s.queues| ensures MemberOk(s', c, u) && SlotOk(s', c, u) {
      assert MemberOk(s, c, u) && SlotOk(s, c, u);
    }
    forall u | u in s'.tasks ensures TaskOk(s', u) { assert TaskOk(s, u); }
    forall c | 0 <= c < |s.queues| ensures QueueOk(s', c) && SeatOk(s', c) && !Occupies(s, c, t) {
      assert QueueOk(s, c) && SeatOk(s, c);
    }
  }

  lemma {:induction false} MoveKeeps(s: State, t: Task, target: nat)
    requires Inv(s) && MoveTask(s, t, target).Some?
    ensures Inv(MoveTask(s, t, target).value)
  {
    hide Count, NoDuplicates, CursorOk, Modify, SwapRemove;
    var s' := MoveTask(s, t, target).value;
    var source := s.tasks[t].cpu;
    var q, p := s.queues[source], s.queues[target];
    assert TaskOk(s, t) && QueueOk(s, source);
    ModifyCounts(p.chunk, t, s.tasks[t].weight);
    ModifyCounts(q.chunk, t, 0);
    SwapRemoveSet(q.runnable, Find(q.runnable, t));
    forall c, u: Task | 0 <= c < |s.queues| ensures MemberOk(s', c, u) && SlotOk(s', c, u) {
      assert MemberOk(s, c, u) && SlotOk(s, c, u);
    }
    forall u | u in s'.tasks ensures TaskOk(s', u) { assert TaskOk(s, u); }
    forall c | 0 <= c < |s.queues| ensures QueueOk(s', c) && SeatOk(s', c) {
      assert QueueOk(s, c) && SeatOk(s, c) && MemberOk(s, c, t);
      if c == target { AppendNew(p.runnable, t); }
    }
  }

  /** A task's record changes, but neither its place nor whether it is on a processor. */
  lemma {:induction false} RecordKeeps(s: State, t: Task, r: TaskRec)
    requires Inv(s) && t in s.tasks
    requires r.scheduled == s.tasks[t].scheduled && r.cpu == s.tasks[t].cpu && r.onCPU == s.tasks[t].onCPU
    requires TaskOk(PutTask(s, t, r), t)
    ensures Inv(PutTask(s, t, r))
  {
    hide Count, NoDuplicates, CursorOk;
    var s' := PutTask(s, t, r);
    forall c, u: Task | 0 <= c < |s.queues| ensures MemberOk(s', c, u) && SlotOk(s', c, u) {
      assert MemberOk(s, c, u) && SlotOk(s, c, u);
    }
    forall u | u in s'.tasks ensures TaskOk(s', u) { if u != t { assert TaskOk(s, u); } }
    forall c | 0 <= c < |s.queues| ensures QueueOk(s', c) && SeatOk(s', c) { assert QueueOk(s, c) && SeatOk(s, c); }
  }

  /** The same when the task's slots in its own chunk change with it. */
  lemma {:induction false} ChunkKeeps(s: State, t: Task, p: nat, r: TaskRec)
    requires Inv(s) && t in s.tasks && s.tasks[t].scheduled && s.tasks[t].cpu < |s.queues|
    requires r.scheduled && r.cpu == s.tasks[t].cpu && r.onCPU == s.tasks[t].onCPU
    requires Modify(s.queues[r.cpu].chunk, t, p).Some?
    requires 1 <= r.weight <= MAX_WEIGHT && r.waiting == r.state.BLOCKED? && (HoldsSlots(r) ==> p == r.weight)
    requires r.state.RUNNING? ==> s.current[r.cpu] == t
    ensures Inv(PutTask(PutQueue(s, r.cpu, s.queues[r.cpu].(chunk := Modify(s.queues[r.cpu].chunk, t, p).value)), t, r))
  {
    hide Count, NoDuplicates, CursorOk, Modify;
    ModifyCounts(s.queues[r.cpu].chunk, t, p);
    var s' := PutTask(PutQueue(s, r.cpu, s.queues[r.cpu].(chunk := Modify(s.queues[r.cpu].chunk, t, p).value)), t, r);
    assert TaskOk(s, t);
    forall c, u: Task | 0 <= c < |s.queues| ensures MemberOk(s', c, u) && SlotOk(s', c, u) {
      assert MemberOk(s, c, u) && SlotOk(s, c, u);
    }
    forall u | u in s'.tasks ensures TaskOk(s', u) { if u != t { assert TaskOk(s, u); } }
    forall c | 0 <= c < |s.queues| ensures QueueOk(s', c) && SeatOk(s', c) { assert QueueOk(s, c) && SeatOk(s, c); }
  }

  /** The weight the chunk should show is the one it shows: nothing can go wrong for a task that may run. */
  lemma {:induction false} NotifyKeeps(s: State, t: Task)
    requires Inv(s) && Notify(s, t).Some?
    ensures Inv(Notify(s, t).value)
  {
    var r := s.tasks[t];
    assert TaskOk(s, t);
    var p := if r.state.READY? || r.state.RUNNING? || (r.state.BLOCKED? && r.waiting) then r.weight else 0;
    ChunkKeeps(s, t, p, r);
    assert s.tasks[t := r] == s.tasks;
  }

  lemma {:induction false} SetPriorityKeeps(s: State, t: Task, p: nat)
    requires Inv(s) && SetPriority(s, t, p).Some?
    ensures Inv(SetPriority(s, t, p).value)
  {
    hide Modify, Count;
    var r := s.tasks[t];
    assert TaskOk(s, t);
    if r.scheduled {
      ChunkKeeps(s, t, if r.state.READY? || r.state.RUNNING? || (r.state.BLOCKED? && r.waiting) then p else 0, r.(weight := p));
    } else {
      RecordKeeps(s, t, r.(weight := p));
    }
  }

  lemma {:induction false} SleepMarkKeeps(s: State, c: nat, deadline: nat)
    requires Inv(s) && SleepMark(s, c, deadline).Some?
    ensures Inv(SleepMark(s, c, deadline).value)
  {
    assert TaskOk(s, s.current[c]);
    RecordKeeps(s, s.current[c], s.tasks[s.current[c]].(state := SLEEPING, deadline := deadline));
  }

  lemma {:induction false} WaitSleepKeeps(s: State, c: nat)
    requires Inv(s) && WaitSleep(s, c).Some?
    ensures Inv(WaitSleep(s, c).value)
  {
    assert TaskOk(s, s.current[c]);
    RecordKeeps(s, s.current[c], s.tasks[s.current[c]].(state := BLOCKED, waiting := true));
  }

  lemma {:induction false} WakeKeeps(s: State, t: Task)
    requires Inv(s) && Wake(s, t).Some?
    ensures Inv(Wake(s, t).value)
  {
    assert TaskOk(s, t);
    RecordKeeps(s, t, Wake(s, t).value.tasks[t]);
  }

  lemma {:induction false} RemovalWorks(s: State, t: Task)
    requires Inv(s) && t in s.tasks && s.tasks[t].scheduled
    ensures s.tasks[t].cpu < |s.queues| && Modify(s.queues[s.tasks[t].cpu].chunk, t, 0).Some?
  {
    assert TaskOk(s, t) && QueueOk(s, s.tasks[t].cpu);
    ModifyMeaning(s.queues[s.tasks[t].cpu].chunk, t, 0);
  }

  lemma {:induction false} FinishKeeps(s: State, t: Task, killed: bool)
    requires Inv(s) && Finish(s, t, killed).Some?
    ensures Inv(Finish(s, t, killed).value)
    ensures s.tasks[t].scheduled ==> Slots(Finish(s, t, killed).value, s.tasks[t].cpu, t) == 0
  {
    hide Modify, Count;
    var r := s.tasks[t].(waiting := false, state := if killed then KILLED else TERMINATED);
    assert TaskOk(s, t);
    if r.scheduled {
      RemovalWorks(s, t);
      ChunkKeeps(s, t, 0, r);
      ModifyCounts(s.queues[r.cpu].chunk, t, 0);
    } else {
      RecordKeeps(s, t, r);
    }
  }

  /** A destroyed task is on no processor, so its stacks are not in use. */
  lemma {:induction false} DestroyKeeps(s: State, t: Task)
    requires Inv(s) && Destroy(s, t).Some?
    ensures Inv(Destroy(s, t).value)
    ensures !s.tasks[t].onCPU && forall c :: !Occupies(s, c, t)
  {
    hide Count, NoDuplicates, CursorOk, Modify;
    if s.tasks[t].scheduled { RemoveKeeps(s, t); }
    var s1 := if s.tasks[t].scheduled then RemoveTask(s, t).value else s;
    var s' := Destroy(s, t).value;
    assert TaskOk(s, t);
    forall c, u: Task | 0 <= c < |s1.queues| ensures MemberOk(s', c, u) && SlotOk(s', c, u) {
      assert MemberOk(s1, c, u) && SlotOk(s1, c, u);
    }
    forall u | u in s'.tasks ensures TaskOk(s', u) { assert TaskOk(s1, u); }
    forall c | 0 <= c < |s1.queues| ensures QueueOk(s', c) && SeatOk(s', c) && !Occupies(s, c, t) {
      assert QueueOk(s1, c) && SeatOk(s1, c) && SeatOk(s, c);
    }
  }

  lemma {:induction false} CompleteSwitchKeeps(s: State, c0: nat)
    requires Inv(s) && CompleteSwitch(s, c0).Some?
    ensures Inv(CompleteSwitch(s, c0).value)
  {
    hide Count, NoDuplicates, CursorOk;
    var s' := CompleteSwitch(s, c0).value;
    var t := s.switching[c0];
    assert SeatOk(s, c0) && TaskOk(s, t);
    forall c, u: Task | 0 <= c < |s.queues| ensures MemberOk(s', c, u) && SlotOk(s', c, u) {
      assert MemberOk(s, c, u) && SlotOk(s, c, u);
    }
    forall u | u in s'.tasks ensures TaskOk(s', u) { assert TaskOk(s, u); }
    forall c | 0 <= c < |s.queues| ensures QueueOk(s', c) && SeatOk(s', c) { assert QueueOk(s, c) && SeatOk(s, c); }
  }

  lemma {:induction false} WakeOneKeeps(s: State, c: nat, t: Task, now: nat)
    requires Inv(s) && c < |s.queues| && t in s.queues[c].runnable
    ensures Inv(WakeOne(s, c, t, now))
  {
    hide Modify, Count;
    assert MemberOk(s, c, t) && TaskOk(s, t);
    var r := s.tasks[t];
    if r.state.SLEEPING? && Due(now, r.deadline) && Modify(s.queues[c].chunk, t, r.weight).Some? {
      ChunkKeeps(s, t, r.weight, r.(state := READY, deadline := 0));
    }
  }

  lemma {:induction false} WakeSomeKeeps(s: State, c: nat, now: nat, n: nat)
    requires Inv(s) && c < |s.queues| && n <= |s.queues[c].runnable|
    ensures Inv(WakeSome(s, c, now, n))
    decreases n
  {
    if n > 0 {
      WakeSomeKeeps(s, c, now, n - 1);
      WakeOneKeeps(WakeSome(s, c, now, n - 1), c, s.queues[c].runnable[n - 1], now);
    }
  }

  predicate NotRunning(s: State, c: nat)
    requires c < |s.current|
  {
    s.current[c] in s.tasks ==> !s.tasks[s.current[c]].state.RUNNING?
  }

  /** Between pausing the current task and dispatching the next, nothing runs on processor `c`. */
  lemma {:induction false} PausedKeeps(s: State, c: nat)
    requires Inv(s) && c < |s.current|
    ensures Inv(Paused(s, c))
    ensures NotRunning(Paused(s, c), c)
  {
    var t := s.current[c];
    assert SeatOk(s, c);
    if t != NULL {
      assert TaskOk(s, t);
      RecordKeeps(s, t, Paused(s, c).tasks[t]);
      assert s.tasks[t := s.tasks[t]] == s.tasks;
    }
  }

  lemma {:induction false} DispatchKeeps(s: State, c0: nat, slot: nat)
    requires Inv(s) && c0 < |s.queues| && slot < |s.queues[c0].chunk.tasks| && s.switching[c0] == NULL
    requires s.queues[c0].chunk.tasks[slot] in s.tasks && s.tasks[s.queues[c0].chunk.tasks[slot]].state.READY?
    requires NotRunning(s, c0)
    ensures Inv(Dispatch(s, c0, slot))
  {
    var a := s.queues[c0].chunk.tasks;
    var t := a[slot];
    CountIn(a, t);
    assert SlotOk(s, c0, t) && TaskOk(s, t) && SeatOk(s, c0);
    hide Count, NoDuplicates;
    var s' := Dispatch(s, c0, slot);
    forall c, u: Task | 0 <= c < |s.queues| ensures MemberOk(s', c, u) && SlotOk(s', c, u) {
      assert MemberOk(s, c, u) && SlotOk(s, c, u);
    }
    forall u | u in s'.tasks ensures TaskOk(s', u) { assert TaskOk(s, u); }
    forall c | 0 <= c < |s.queues| ensures QueueOk(s', c) && SeatOk(s', c) { assert QueueOk(s, c) && SeatOk(s, c); }
  }

  lemma {:induction false} TickKeeps(s: State, c: nat, now: nat)
    requires Inv(s)
    ensures Tick(s, c, now).Ticked? ==> Inv(Tick(s, c, now).s)
  {
    if c < |s.queues| && s.switching[c] == NULL {
      var s0 := WakeSome(s, c, now, |s.queues[c].runnable|);
      WakeSomeKeeps(s, c, now, |s.queues[c].runnable|);
      PausedKeeps(s0, c);
      var s1 := Paused(s0, c);
      hide Inv, WakeSome, Paused, FirstSlot;
      var slot := Pick(s1, c);
      if slot.Some? {
        DispatchKeeps(s1, c, slot.value);
      } else if s1.current[c] in s1.tasks && s1.tasks[s1.current[c]].state.READY? {
        ResumeKeeps(s1, c);
      }
    }
  }

  lemma {:induction false} ResumeKeeps(s: State, c: nat)
    requires Inv(s) && c < |s.current| && s.current[c] in s.tasks && s.tasks[s.current[c]].state.READY?
    ensures Inv(PutTask(s, s.current[c], s.tasks[s.current[c]].(state := RUNNING)))
  {
    assert SeatOk(s, c) && TaskOk(s, s.current[c]);
    RecordKeeps(s, s.current[c], s.tasks[s.current[c]].(state := RUNNING));
  }

  lemma {:induction false} StartKeeps(s: State, c: nat)
    requires Inv(s) && Start(s, c).Some?
    ensures Inv(Start(s, c).value)
  {
    var a := s.queues[c].chunk.tasks;
    var first := FirstSlot(s, a, 0, false, 0);
    var slot := if first.Some? then first else FirstSlot(s, a, 0, true, 0);
    DispatchKeeps(s, c, slot.value);
  }
}
