/** What each scheduler step does and exactly when it is refused, beyond keeping the invariants. */
module SchedulerEffects {
  import opened Prelude
  import opened ChunkSpec
  import opened SchedulerSpec
  import opened SchedulerProofs
  import opened SchedulerRuns

  /** Nothing changed for any task but `t`: neither its record nor its slots on any processor, nor what runs. */
  ghost predicate OthersSame(s: State, s': State, t: Task) {
    && s'.current == s.current && s'.switching == s.switching && |s'.queues| == |s.queues|
    && (forall u :: u != t ==> (u in s'.tasks <==> u in s.tasks) && (u in s.tasks ==> s'.tasks[u] == s.tasks[u]))
    && (forall c: nat, u: Task :: c < |s.queues| && u != t ==>
          Slots(s', c, u) == Slots(s, c, u) && (u in s'.queues[c].runnable <==> u in s.queues[c].runnable))
  }

  /** Task `t` belongs to processor `home` with `w` slots, and to no other. */
  ghost predicate LivesOn(s: State, t: Task, home: nat, w: nat) {
    forall c: nat :: c < |s.queues| ==>
      (t in s.queues[c].runnable <==> c == home) && Slots(s, c, t) == if c == home then w else 0
  }

  /** The queue `r` without `t`, whose place its last entry takes. */
  predicate Unlisted(r: seq<Task>, r': seq<Task>, t: Task) {
    |r'| + 1 == |r| && forall j :: 0 <= j < |r'| ==> r'[j] == if r[j] == t then r[|r| - 1] else r[j]
  }

  lemma {:induction false} SwapRemoveUnlists(r: seq<Task>, i: nat)
    requires i < |r| && NoDuplicates(r)
    ensures Unlisted(r, SwapRemove(r, i), r[i])
  {
  }

  predicate Room(s: State, c: nat, t: Task, w: nat)
    requires c < |s.queues|
  {
    |s.queues[c].chunk.tasks| - Slots(s, c, t) + Max(w, Slots(s, c, t)) <= CHUNK_MAX
  }

  lemma {:induction false} ModifyRoom(s: State, c: nat, t: Task, w: nat)
    requires Inv(s) && c < |s.queues| && t != NULL && 1 <= w <= MAX_WEIGHT
    ensures Modify(s.queues[c].chunk, t, w).Some? <==> Room(s, c, t, w)
  {
    assert QueueOk(s, c);
    ModifyMeaning(s.queues[c].chunk, t, w);
  }

  lemma {:induction false} Unscheduled(s: State, t: Task)
    requires Inv(s) && t in s.tasks && !s.tasks[t].scheduled
    ensures t != NULL && forall c: nat :: c < |s.queues| ==> t !in s.queues[c].runnable && Slots(s, c, t) == 0
  {
    assert TaskOk(s, t);
    forall c: nat | c < |s.queues| ensures t !in s.queues[c].runnable && Slots(s, c, t) == 0 {
      assert MemberOk(s, c, t) && SlotOk(s, c, t);
    }
  }

  lemma {:induction false} Scheduled(s: State, t: Task)
    requires Inv(s) && t in s.tasks && s.tasks[t].scheduled
    ensures t != NULL && s.tasks[t].cpu < |s.queues| && s.tasks[t].cpu < |s.current|
    ensures LivesOn(s, t, s.tasks[t].cpu, Slots(s, s.tasks[t].cpu, t))
    ensures HoldsSlots(s.tasks[t]) ==> Slots(s, s.tasks[t].cpu, t) == s.tasks[t].weight
    ensures s.current[s.tasks[t].cpu] == t ==> s.tasks[t].onCPU
  {
    assert TaskOk(s, t) && SeatOk(s, s.tasks[t].cpu);
    forall c: nat | c < |s.queues|
      ensures (t in s.queues[c].runnable <==> c == s.tasks[t].cpu) && (c != s.tasks[t].cpu ==> Slots(s, c, t) == 0)
    {
      assert MemberOk(s, c, t) && SlotOk(s, c, t);
    }
  }

  /** A task can be added exactly when it exists, is in no queue, and the processor's queue and chunk have room. */
  lemma {:induction false} AddMeaning(s: State, t: Task, c: nat)
    requires Inv(s)
    ensures AddTask(s, t, c).Some? <==>
              && t in s.tasks && !s.tasks[t].scheduled && c < |s.queues|
              && |s.queues[c].runnable| < MAX_TASKS && |s.queues[c].chunk.tasks| + s.tasks[t].weight <= CHUNK_MAX
    ensures AddTask(s, t, c).Some? ==> var s' := AddTask(s, t, c).value;
              && OthersSame(s, s', t) && LivesOn(s', t, c, s.tasks[t].weight)
              && s'.tasks[t] == s.tasks[t].(cpu := c, state := READY, scheduled := true)
              && s'.queues[c].runnable == s.queues[c].runnable + [t]
  {
    hide Modify, Count;
    if t in s.tasks && !s.tasks[t].scheduled && c < |s.queues| {
      assert TaskOk(s, t);
      Unscheduled(s, t);
      ModifyRoom(s, c, t, s.tasks[t].weight);
      if AddTask(s, t, c).Some? { ModifyCounts(s.queues[c].chunk, t, s.tasks[t].weight); }
    }
  }

  /** A task can be removed exactly when it is scheduled, has finished and has left its processor. */
  lemma {:induction false} RemoveMeaning(s: State, t: Task)
    requires Inv(s)
    ensures RemoveTask(s, t).Some? <==>
              t in s.tasks && s.tasks[t].scheduled && !s.tasks[t].onCPU && (s.tasks[t].state.TERMINATED? || s.tasks[t].state.KILLED?)
    ensures RemoveTask(s, t).Some? ==> var s' := RemoveTask(s, t).value;
              && OthersSame(s, s', t) && LivesOn(s', t, |s.queues|, 0) && s'.tasks[t] == s.tasks[t].(scheduled := false)
              && s.tasks[t].cpu < |s.queues| && Unlisted(s.queues[s.tasks[t].cpu].runnable, s'.queues[s.tasks[t].cpu].runnable, t)
  {
    hide Modify, Count, SwapRemove;
    if t in s.tasks && s.tasks[t].scheduled {
      Scheduled(s, t);
      RemovalWorks(s, t);
      var q := s.queues[s.tasks[t].cpu];
      assert QueueOk(s, s.tasks[t].cpu);
      ModifyCounts(q.chunk, t, 0);
      SwapRemoveSet(q.runnable, Find(q.runnable, t));
      SwapRemoveUnlists(q.runnable, Find(q.runnable, t));
    }
  }

  /** A task can be moved exactly when it is ready, not idle, on no processor, and the other processor has room. */
  lemma {:induction false} MoveMeaning(s: State, t: Task, target: nat)
    requires Inv(s)
    ensures MoveTask(s, t, target).Some? <==>
              && t in s.tasks && s.tasks[t].scheduled && s.tasks[t].state.READY? && !s.tasks[t].idle && !s.tasks[t].onCPU
              && target < |s.queues| && target != s.tasks[t].cpu
              && |s.queues[target].runnable| < MAX_TASKS
              && |s.queues[target].chunk.tasks| + s.tasks[t].weight <= CHUNK_MAX
    ensures MoveTask(s, t, target).Some? ==> var s' := MoveTask(s, t, target).value;
              && OthersSame(s, s', t) && LivesOn(s', t, target, s.tasks[t].weight) && s'.tasks[t] == s.tasks[t].(cpu := target)
              && s.tasks[t].cpu < |s.queues| && Unlisted(s.queues[s.tasks[t].cpu].runnable, s'.queues[s.tasks[t].cpu].runnable, t)
              && s'.queues[target].runnable == s.queues[target].runnable + [t]
  {
    hide Modify, Count, SwapRemove;
    if t in s.tasks && s.tasks[t].scheduled && target < |s.queues| && target != s.tasks[t].cpu {
      assert TaskOk(s, t);
      Scheduled(s, t);
      RemovalWorks(s, t);
      ModifyRoom(s, target, t, s.tasks[t].weight);
      var q := s.queues[s.tasks[t].cpu];
      assert QueueOk(s, s.tasks[t].cpu);
      ModifyCounts(q.chunk, t, 0);
      SwapRemoveSet(q.runnable, Find(q.runnable, t));
      SwapRemoveUnlists(q.runnable, Find(q.runnable, t));
      if MoveTask(s, t, target).Some? { ModifyCounts(s.queues[target].chunk, t, s.tasks[t].weight); }
    }
  }

  /** A weight is changed exactly when it is one of the six and, for a task that may run, the chunk has room. */
  lemma {:induction false} SetPriorityMeaning(s: State, t: Task, p: nat)
    requires Inv(s)
    ensures SetPriority(s, t, p).Some? <==>
              && t in s.tasks && 1 <= p <= 6
              && (s.tasks[t].scheduled && HoldsSlots(s.tasks[t]) ==> s.tasks[t].cpu < |s.queues| && Room(s, s.tasks[t].cpu, t, p))
    ensures SetPriority(s, t, p).Some? ==> var s' := SetPriority(s, t, p).value;
              && OthersSame(s, s', t) && s'.tasks[t] == s.tasks[t].(weight := p)
              && (s.tasks[t].scheduled && HoldsSlots(s.tasks[t]) ==> LivesOn(s', t, s.tasks[t].cpu, p))
  {
    hide Modify, Count;
    if t in s.tasks && 1 <= p <= 6 && s.tasks[t].scheduled {
      assert TaskOk(s, t);
      Scheduled(s, t);
      RemovalWorks(s, t);
      ModifyRoom(s, s.tasks[t].cpu, t, p);
      ModifyCounts(s.queues[s.tasks[t].cpu].chunk, t, 0);
      if HoldsSlots(s.tasks[t]) && Room(s, s.tasks[t].cpu, t, p) { ModifyCounts(s.queues[s.tasks[t].cpu].chunk, t, p); }
    }
  }

  /** A new task is ready, has weight 3 and is in no queue; a name in use is refused. */
  lemma {:induction false} CreateMeaning(s: State, t: Task, idle: bool)
    requires Inv(s)
    ensures Create(s, t, idle).Some? <==> t != NULL && t !in s.tasks
    ensures Create(s, t, idle).Some? ==> var s' := Create(s, t, idle).value;
              && OthersSame(s, s', t) && LivesOn(s', t, |s.queues|, 0)
              && s'.tasks[t] == TaskRec(READY, 0, 3, 0, idle, false, false, false)
  {
    forall c: nat | c < |s.queues| ensures t in s.queues[c].runnable || Slots(s, c, t) > 0 ==> t in s.tasks {
      assert MemberOk(s, c, t) && SlotOk(s, c, t);
    }
  }

  /** Telling the scheduler of a changed task takes the slots of one that sleeps or has finished, and leaves any other
      task as many as it had. */
  lemma {:induction false} NotifyMeaning(s: State, t: Task)
    requires Inv(s)
    ensures Notify(s, t).Some? <==> t in s.tasks && s.tasks[t].scheduled
    ensures Notify(s, t).Some? ==> var s' := Notify(s, t).value;
              && OthersSame(s, s', t) && s'.tasks == s.tasks
              && LivesOn(s', t, s.tasks[t].cpu, if s.tasks[t].state.SLEEPING? || s.tasks[t].state.TERMINATED? || s.tasks[t].state.KILLED? then 0 else s.tasks[t].weight)
  {
    hide Modify, Count;
    if t in s.tasks && s.tasks[t].scheduled {
      Scheduled(s, t);
      assert TaskOk(s, t) && MemberOk(s, s.tasks[t].cpu, t) && QueueOk(s, s.tasks[t].cpu);
      var a := s.queues[s.tasks[t].cpu].chunk;
      RemovalWorks(s, t);
      ModifyRoom(s, s.tasks[t].cpu, t, s.tasks[t].weight);
      ModifyCounts(a, t, 0);
      if Modify(a, t, s.tasks[t].weight).Some? { ModifyCounts(a, t, s.tasks[t].weight); }
    }
  }

  /** A task that puts itself to sleep keeps its slots until the scheduler is told. */
  lemma {:induction false} SleepMarkMeaning(s: State, c: nat, deadline: nat)
    requires Inv(s) && c < |s.current| && c < |s.switching|
    ensures SleepMark(s, c, deadline).Some? <==>
              && s.switching[c] == NULL && s.current[c] != NULL
              && s.current[c] in s.tasks && !s.tasks[s.current[c]].idle && !s.tasks[s.current[c]].state.BLOCKED?
    ensures SleepMark(s, c, deadline).Some? ==> var s' := SleepMark(s, c, deadline).value; var t := s.current[c];
              && s'.queues == s.queues && OthersSame(s, s', t) && s'.tasks[t] == s.tasks[t].(state := SLEEPING, deadline := deadline)
  {
    assert SeatOk(s, c);
  }

  /** A woken task runs on if it still is the current one of its processor and is ready otherwise; waking a task that
      has just gone to sleep on a queue puts everything back as it was. */
  lemma {:induction false} WakeTaskMeaning(s: State, t: Task)
    requires Inv(s)
    ensures Wake(s, t).Some? <==> t in s.tasks && s.tasks[t].state.BLOCKED?
    ensures Wake(s, t).Some? ==> var s' := Wake(s, t).value; var c := s.tasks[t].cpu;
              && c < |s.current| && s'.queues == s.queues && OthersSame(s, s', t) && LivesOn(s', t, c, s.tasks[t].weight)
              && s'.tasks[t] == s.tasks[t].(waiting := false, state := if s.current[c] == t then RUNNING else READY)
    ensures forall c :: 0 <= c < |s.current| && s.current[c] == t && WaitSleep(s, c).Some? ==> Wake(WaitSleep(s, c).value, t) == Some(s)
  {
    if t in s.tasks {
      assert TaskOk(s, t);
      if s.tasks[t].scheduled { Scheduled(s, t); }
      forall c | 0 <= c < |s.current| && s.current[c] == t && WaitSleep(s, c).Some? ensures Wake(WaitSleep(s, c).value, t) == Some(s) {
        assert SeatOk(s, c);
        var s1 := WaitSleep(s, c).value;
        assert s1.tasks[t := s.tasks[t]] == s.tasks;
      }
    }
  }

  /** Only a running task that is not idle can go to sleep on a queue, and it keeps its slots and its processor. */
  lemma {:induction false} WaitSleepMeaning(s: State, c: nat)
    requires Inv(s) && c < |s.current| && c < |s.switching|
    ensures WaitSleep(s, c).Some? <==>
              && s.switching[c] == NULL && s.current[c] != NULL
              && s.current[c] in s.tasks && s.tasks[s.current[c]].state.RUNNING? && !s.tasks[s.current[c]].idle
    ensures WaitSleep(s, c).Some? ==> var s' := WaitSleep(s, c).value; var t := s.current[c];
              && s'.queues == s.queues && OthersSame(s, s', t) && s'.tasks[t] == s.tasks[t].(state := BLOCKED, waiting := true)
  {
    assert SeatOk(s, c);
    if s.current[c] in s.tasks { assert TaskOk(s, s.current[c]); }
  }

  /** A finished task has no slot on any processor and waits for nothing; it stays in its queue until it is removed. */
  lemma {:induction false} FinishMeaning(s: State, t: Task, killed: bool)
    requires Inv(s)
    ensures Finish(s, t, killed).Some? <==> t in s.tasks
    ensures Finish(s, t, killed).Some? ==> var s' := Finish(s, t, killed).value;
              && OthersSame(s, s', t) && LivesOn(s', t, if s.tasks[t].scheduled then s.tasks[t].cpu else |s.queues|, 0)
              && s'.tasks[t] == s.tasks[t].(waiting := false, state := if killed then KILLED else TERMINATED)
  {
    hide Modify, Count;
    if t in s.tasks {
      if s.tasks[t].scheduled {
        Scheduled(s, t);
        assert QueueOk(s, s.tasks[t].cpu);
        RemovalWorks(s, t);
        ModifyCounts(s.queues[s.tasks[t].cpu].chunk, t, 0);
      } else { Unscheduled(s, t); }
    }
  }

  /** A task is destroyed exactly when it has finished and left its processor; nothing of it remains. */
  lemma {:induction false} DestroyMeaning(s: State, t: Task)
    requires Inv(s)
    ensures Destroy(s, t).Some? <==>
              t in s.tasks && (s.tasks[t].state.TERMINATED? || s.tasks[t].state.KILLED?) && !s.tasks[t].onCPU
    ensures Destroy(s, t).Some? ==> var s' := Destroy(s, t).value;
              OthersSame(s, s', t) && LivesOn(s', t, |s.queues|, 0) && t !in s'.tasks
  {
    if t in s.tasks {
      assert TaskOk(s, t);
      RemoveMeaning(s, t);
      if !s.tasks[t].scheduled { Unscheduled(s, t); }
    }
  }

  /** Completing a switch frees the task that was left, and nothing else changes. */
  lemma {:induction false} CompleteSwitchMeaning(s: State, c: nat)
    requires Inv(s) && c < |s.switching|
    ensures CompleteSwitch(s, c).Some? <==> s.switching[c] != NULL
    ensures CompleteSwitch(s, c).Some? ==> var s' := CompleteSwitch(s, c).value; var t := s.switching[c];
              && t in s.tasks && s'.tasks == s.tasks[t := s.tasks[t].(onCPU := false)]
              && s'.queues == s.queues && s'.current == s.current && s'.switching == s.switching[c := NULL]
  {
    assert SeatOk(s, c);
  }

  /** The first task of a processor without one: an idle task only if no other of the chunk is ready, and none exactly
      if no task of the chunk is ready. */
  lemma {:induction false} StartMeaning(s: State, c: nat)
    requires Inv(s) && c < |s.queues| && c < |s.current| && c < |s.switching| && s.current[c] == NULL
    ensures var a := s.queues[c].chunk.tasks;
            && (Start(s, c).Some? <==> exists j :: 0 <= j < |a| && (Eligible(s, a[j], false) || Eligible(s, a[j], true)))
            && (Start(s, c).Some? ==>
                  var v := Start(s, c).value;
                  && c < |v.current| && v.current[c] in a && v.current[c] in s.tasks && s.tasks[v.current[c]].state.READY?
                  && v.tasks == s.tasks[v.current[c] := s.tasks[v.current[c]].(state := RUNNING, onCPU := true)]
                  && v.current == s.current[c := v.current[c]] && v.switching == s.switching
                  && (s.tasks[v.current[c]].idle ==> forall j :: 0 <= j < |a| ==> !Eligible(s, a[j], false))
                  && var q := v.queues[c].chunk.current;
                     && q < |a| && a[q] == v.current[c] && v.queues == s.queues[c := s.queues[c].(chunk := Chunk(a, q))]
                     && forall j :: 0 <= j < q ==> !Eligible(s, a[j], s.tasks[v.current[c]].idle))
  {
    var a := s.queues[c].chunk.tasks;
    assert SeatOk(s, c);
    forall j, idle | 0 <= j < |a| && FirstSlot(s, a, 0, idle, 0).None? ensures !Eligible(s, a[j], idle) { SearchAll(s, a, 0, idle, j); }
    forall idle: bool, j: nat | FirstSlot(s, a, 0, idle, 0).Some? && j < FirstSlot(s, a, 0, idle, 0).value ensures !Eligible(s, a[j], idle) {
      SearchEarliest(s, a, idle, 0, j);
    }
  }

  /** Searching from the first slot finds the earliest one. */
  lemma {:induction false} SearchEarliest(s: State, a: seq<Task>, idle: bool, k: nat, j: nat)
    requires k <= j && k <= |a| && FirstSlot(s, a, 0, idle, k).Some? && j < FirstSlot(s, a, 0, idle, k).value
    ensures !Eligible(s, a[j], idle)
    decreases |a| - k
  {
    WrapMod(k, |a|);
    if k < j { SearchEarliest(s, a, idle, k + 1, j); }
  }

  /** The processor a new task goes to has the fewest tasks, and is the first one that does. */
  lemma {:induction false} LeastLoadedMeaning(s: State)
    requires s.queues != []
    ensures var r := LeastLoaded(s);
            && (forall c :: 0 <= c < |s.queues| ==> |s.queues[r].runnable| <= |s.queues[c].runnable|)
            && (forall c :: 0 <= c < r ==> |s.queues[r].runnable| < |s.queues[c].runnable|)
  {
    LeastFromMeaning(s.queues, 1, 0);
  }

  lemma {:induction false} LeastFromMeaning(queues: seq<Queue>, c: nat, best: nat)
    requires best < |queues| && best < c <= |queues|
    requires forall i :: 0 <= i < c ==> |queues[best].runnable| <= |queues[i].runnable|
    requires forall i :: 0 <= i < best ==> |queues[best].runnable| < |queues[i].runnable|
    ensures var r := LeastFrom(queues, c, best);
            && (forall i :: 0 <= i < |queues| ==> |queues[r].runnable| <= |queues[i].runnable|)
            && (forall i :: 0 <= i < r ==> |queues[r].runnable| < |queues[i].runnable|)
    decreases |queues| - c
  {
    if c < |queues| {
      LeastFromMeaning(queues, c + 1, if |queues[c].runnable| < |queues[best].runnable| then c else best);
    }
  }

  /** Reading the wrapping clock at time `x`, a deadline set for time `d` has passed exactly when `d` is not later, as
      long as the two are not half the clock's range apart. */
  lemma {:induction false} DueMeaning(x: nat, d: nat)
    requires -0x8000_0000_0000_0000 <= x - d < 0x8000_0000_0000_0000
    ensures Due(x % WORD, d % WORD) <==> d <= x
  {
  }

  predicate Sleeper(s: State, t: Task, now: nat) { t in s.tasks && s.tasks[t].state.SLEEPING? && Due(now, s.tasks[t].deadline) }

  /** Of the first `n` tasks of the queue exactly the sleepers that are due wake up, unless the chunk had no room when
      their turn came; every other task keeps its record. */
  lemma {:induction false} WakeMeaning(s: State, c: nat, now: nat, n: nat, t: Task)
    requires Inv(s) && c < |s.queues| && n <= |s.queues[c].runnable| && t in s.tasks
    ensures var r := WakeSome(s, c, now, n);
            && t in r.tasks
            && (!(Sleeper(s, t, now) && t in s.queues[c].runnable[..n]) ==> r.tasks[t] == s.tasks[t])
            && (Sleeper(s, t, now) && t in s.queues[c].runnable[..n] ==>
                  || r.tasks[t] == s.tasks[t].(state := READY, deadline := 0)
                  || (r.tasks[t] == s.tasks[t] && exists m: nat :: m < n && !Room(WakeSome(s, c, now, m), c, t, s.tasks[t].weight)))
    decreases n
  {
    hide Modify, Count;
    if n > 0 {
      WakeMeaning(s, c, now, n - 1, t);
      WakeSomeKeeps(s, c, now, n - 1);
      var s1 := WakeSome(s, c, now, n - 1);
      var u := s.queues[c].runnable[n - 1];
      assert s.queues[c].runnable[..n] == s.queues[c].runnable[..n - 1] + [u];
      WokenOne(s1, c, u, now);
      NotYet(s, c, n - 1);
    }
  }

  /** No task comes twice. */
  lemma {:induction false} NotYet(s: State, c: nat, n: nat)
    requires Inv(s) && c < |s.queues| && n < |s.queues[c].runnable|
    ensures s.queues[c].runnable[n] !in s.queues[c].runnable[..n]
  {
    assert QueueOk(s, c);
  }

  /** A due sleeper becomes ready, unless the chunk has no room for it. */
  lemma {:induction false} WokenOne(s: State, c: nat, u: Task, now: nat)
    requires Inv(s) && c < |s.queues| && u in s.queues[c].runnable
    ensures u in s.tasks && var r := WakeOne(s, c, u, now);
            if !Sleeper(s, u, now) || !Room(s, c, u, s.tasks[u].weight) then r == s
            else r.tasks == s.tasks[u := s.tasks[u].(state := READY, deadline := 0)]
  {
    hide Modify, Count;
    assert MemberOk(s, c, u) && TaskOk(s, u);
    ModifyRoom(s, c, u, s.tasks[u].weight);
  }

  /** After a tick whatever is current runs; it is an idle task only if no other task of the chunk was ready; and the
      task that was current before is still on the processor, being switched out. */
  lemma {:induction false} TickMeaning(s: State, c: nat, now: nat)
    requires Inv(s) && Tick(s, c, now).Ticked?
    requires c < |s.queues| && c < |s.current| && c < |s.switching| && s.switching[c] == NULL
    ensures var v := Tick(s, c, now).s; var s1 := Paused(WakeSome(s, c, now, |s.queues[c].runnable|), c);
            && c < |v.current| && c < |v.switching| && (v.current[c] == NULL ==> s.current[c] == NULL)
            && (v.current[c] != NULL ==> v.current[c] in v.tasks && v.tasks[v.current[c]].state.RUNNING?)
            && (v.current[c] != NULL && v.tasks[v.current[c]].idle && v.current[c] != s.current[c] ==>
                  forall j :: 0 <= j < |s1.queues[c].chunk.tasks| ==> !Eligible(s1, s1.queues[c].chunk.tasks[j], false))
            && (if v.current[c] == s.current[c] then v.switching[c] == NULL
                else v.switching[c] == s.current[c] && (s.current[c] != NULL ==> s.current[c] in v.tasks && v.tasks[s.current[c]].onCPU))
  {
    var s1 := Paused(WakeSome(s, c, now, |s.queues[c].runnable|), c);
    WakeSomeKeeps(s, c, now, |s.queues[c].runnable|);
    PausedKeeps(WakeSome(s, c, now, |s.queues[c].runnable|), c);
    assert SeatOk(s1, c);
    hide WakeSome, Count, Due;
    PickPrefers(s1, c);
    if Pick(s1, c).Some? {
      assert Eligible(s1, s1.queues[c].chunk.tasks[Pick(s1, c).value], true) || Eligible(s1, s1.queues[c].chunk.tasks[Pick(s1, c).value], false);
      assert QueueOk(s1, c);
    }
  }

  /** On a clock that never wraps, sleeping task `t` is to wake at time `due[t]`, less than half the range of the real
      clock away from time `x`. */
  ghost predicate Alarms(s: State, due: map<Task, nat>, x: nat) {
    forall t :: t in s.tasks && s.tasks[t].state.SLEEPING? ==>
      && t in due && s.tasks[t].deadline == due[t] % WORD
      && -0x8000_0000_0000_0000 <= x - due[t] < 0x8000_0000_0000_0000
  }

  /** A tick at time `x` makes exactly those sleepers of its processor ready whose time has come, if the chunk has room
      at their turn; it touches no other task but the one it stops and the one it starts. */
  lemma {:induction false} TickWakes(s: State, c: nat, x: nat, due: map<Task, nat>, t: Task)
    requires Inv(s) && Alarms(s, due, x) && Tick(s, c, x % WORD).Ticked? && t in s.tasks
    requires c < |s.queues| && c < |s.current| && c < |s.switching| && s.switching[c] == NULL
    ensures var v := Tick(s, c, x % WORD).s; var r := s.tasks[t];
            var wakes := r.state.SLEEPING? && t in s.queues[c].runnable && due[t] <= x;
            && t in v.tasks && c < |v.current|
            && (wakes ==>
                  || ((v.tasks[t].state.READY? || v.tasks[t].state.RUNNING?) && v.tasks[t].deadline == 0)
                  || (v.tasks[t] == r && exists m: nat :: m < |s.queues[c].runnable| && !Room(WakeSome(s, c, x % WORD, m), c, t, r.weight)))
            && (r.state.SLEEPING? && !wakes ==> v.tasks[t] == r)
            && (!wakes && t != s.current[c] && t != v.current[c] ==> v.tasks[t] == r)
  {
    var n := |s.queues[c].runnable|;
    assert s.queues[c].runnable[..n] == s.queues[c].runnable;
    WakeMeaning(s, c, x % WORD, n, t);
    if s.tasks[t].state.SLEEPING? { DueMeaning(x, due[t]); }
    WakeSomeKeeps(s, c, x % WORD, n);
    PausedKeeps(WakeSome(s, c, x % WORD, n), c);
    hide WakeSome, Count, Due, Room;
    PickPrefers(Paused(WakeSome(s, c, x % WORD, n), c), c);
  }

  lemma {:induction false} PickPrefers(s: State, c: nat)
    requires Inv(s) && c < |s.queues| && c < |s.current|
    ensures var a := s.queues[c].chunk.tasks;
            Pick(s, c).Some? ==>
              var t := a[Pick(s, c).value];
              && t in s.tasks && s.tasks[t].state.READY?
              && (s.tasks[t].idle ==> forall j :: 0 <= j < |a| ==> !Eligible(s, a[j], false))
  {
    var a := s.queues[c].chunk.tasks;
    var start := if s.queues[c].chunk.current >= |a| then 0 else s.queues[c].chunk.current;
    var from := if s.current[c] == NULL then start else start + 1;
    if Pick(s, c).Some? && FirstSlot(s, a, from, false, 0).None? {
      forall j | 0 <= j < |a| ensures !Eligible(s, a[j], false) { SearchAll(s, a, from, false, j); }
    }
  }

  lemma {:induction false} SearchAll(s: State, a: seq<Task>, start: nat, idle: bool, j: nat)
    requires start <= |a| && j < |a| && FirstSlot(s, a, start, idle, 0).None?
    ensures !Eligible(s, a[j], idle)
  {
    GapReaches(start, j, |a|);
    if Eligible(s, a[j], idle) { SearchFinds(s, a, start, idle, 0, j); }
  }
}
