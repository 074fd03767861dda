/** The scheduler's tables as the C code updates them: each method is one locked section and yields the
    state its step function gives. */
module SchedulerTables {
  import opened Prelude
  import opened ChunkSpec
  import opened SchedulerSpec
  import opened SchedulerProofs
  import opened SchedulerRuns

  class Scheduler {
    var queues: seq<Queue>
    var current: seq<Task>
    var switching: seq<Task>
    var tasks: map<Task, TaskRec>

    ghost function View(): State reads this { State(queues, current, switching, tasks) }

    /** FALSE leaves everything as it was. */
    twostate predicate Stepped(ok: bool, r: Option<State>) reads this {
      ok == r.Some? && View() == OrElse(r, old(View()))
    }

    /** LBPWRRInit: one idle task per processor. */
    constructor (cpuCount: nat)
      requires cpuCount > 0
      ensures Boot(cpuCount, cpuCount).Some? && View() == Boot(cpuCount, cpuCount).value
      ensures Inv(View()) && IdleOk(View(), IdleIds(cpuCount))
    {
      queues := seq(cpuCount, _ => EMPTY_QUEUE);
      current := seq(cpuCount, _ => NULL);
      switching := seq(cpuCount, _ => NULL);
      tasks := map[];
      new;
      hide Boot, Booted, AddTask, Create, Inv;
      BootEmptyIs(cpuCount);
      var cpu := 0;
      while cpu < cpuCount
        invariant 0 <= cpu <= cpuCount
        invariant Boot(cpuCount, cpu).Some? && View() == Boot(cpuCount, cpu).value
      {
        BootWorks(cpuCount, cpu);
        BootStepIs(cpuCount, cpu);
        var created := TaskCreate(IdleId(cpu), true);
        var added := LBPWRRAddTask(IdleId(cpu));
        cpu := cpu + 1;
      }
      BootWorks(cpuCount, cpuCount);
      BootedMeaning(View(), cpuCount);
    }

    method TaskCreate(t: Task, idle: bool) returns (ok: bool)
      modifies this
      ensures Stepped(ok, Create(old(View()), t, idle))
    {
      if t == NULL || t in tasks { return false; }
      tasks := tasks[t := TaskRec(READY, 0, 3, 0, idle, false, false, false)];
      ok := true;
    }

    method LBPWRRAddTask(t: Task) returns (ok: bool)
      requires queues != []
      modifies this
      ensures Stepped(ok, AddTask(old(View()), t, LeastLoaded(old(View()))))
    {
      hide Modify;
      if t !in tasks || tasks[t].scheduled { return false; }
      if tasks[t].weight == 0 || tasks[t].weight > MAX_WEIGHT { return false; }
      var target := 0;
      var cpu := 1;
      while cpu < |queues|
        invariant 1 <= cpu <= |queues| && target < |queues| && View() == old(View())
        invariant LeastFrom(queues, cpu, target) == LeastLoaded(View())
      {
        if |queues[cpu].runnable| < |queues[target].runnable| { target := cpu; }
        cpu := cpu + 1;
      }
      var q := queues[target];
      if |q.runnable| >= MAX_TASKS { return false; }
      var present := Contains(q.runnable, t);
      if present < |q.runnable| { return false; }
      var d := Modify(q.chunk, t, tasks[t].weight);
      if d.None? { return false; }
      queues := queues[target := Queue(q.runnable + [t], d.value)];
      tasks := tasks[t := tasks[t].(cpu := target, state := READY, scheduled := true)];
      ok := true;
    }

    /** The index of the first entry equal to `t`, or the length. */
    method Contains(r: seq<Task>, t: Task) returns (i: nat)
      ensures i == Find(r, t) && (i < |r| <==> t in r)
    {
      i := 0;
      while i < |r|
        invariant 0 <= i <= |r| && t !in r[..i]
      {
        if r[i] == t { break; }
        i := i + 1;
      }
      FindIs(r, t, i);
    }

    method LBPWRRRemoveTask(t: Task) returns (ok: bool)
      modifies this
      ensures Stepped(ok, RemoveTask(old(View()), t))
    {
      hide Modify;
      if t !in tasks || !tasks[t].scheduled { return false; }
      var r := tasks[t];
      var cpu := r.cpu;
      if cpu >= |queues| || cpu >= |current| { return false; }
      if current[cpu] == t || r.onCPU || (!r.state.TERMINATED? && !r.state.KILLED?) { return false; }
      var q := queues[cpu];
      var index := Contains(q.runnable, t);
      if index == |q.runnable| { return false; }
      var d := Modify(q.chunk, t, 0);
      if d.None? { return false; }
      queues := queues[cpu := Queue(SwapRemove(q.runnable, index), d.value)];
      tasks := tasks[t := r.(scheduled := false)];
      ok := true;
    }

    method LBPWRRMoveTask(t: Task, target: nat) returns (ok: bool)
      modifies this
      ensures Stepped(ok, MoveTask(old(View()), t, target))
    {
      hide Modify;
      if t !in tasks || !tasks[t].scheduled { return false; }
      var r := tasks[t];
      var source := r.cpu;
      if source >= |queues| || source >= |current| || target >= |queues| || source == target { return false; }
      var q, p := queues[source], queues[target];
      if !r.state.READY? || r.idle || r.onCPU || current[source] == t || |p.runnable| >= MAX_TASKS || r.weight == 0 || r.weight > MAX_WEIGHT { return false; }
      var index := Contains(q.runnable, t);
      if index == |q.runnable| { return false; }
      var there := Contains(p.runnable, t);
      if there < |p.runnable| { return false; }
      var d := Modify(p.chunk, t, r.weight);
      if d.None? { return false; }
      var e := Modify(q.chunk, t, 0);
      if e.None? { return false; }
      queues := queues[source := Queue(SwapRemove(q.runnable, index), e.value)];
      queues := queues[target := Queue(p.runnable + [t], d.value)];
      tasks := tasks[t := r.(cpu := target)];
      ok := true;
    }

    method LBPWRRNotifyTaskChanged(t: Task) returns (ok: bool)
      modifies this
      ensures Stepped(ok, Notify(old(View()), t))
    {
      hide Modify;
      if t !in tasks || !tasks[t].scheduled || tasks[t].cpu >= |queues| { return false; }
      var r := tasks[t];
      var q := queues[r.cpu];
      var index := Contains(q.runnable, t);
      if index == |q.runnable| { return false; }
      var weight := 0;
      if r.state.READY? || r.state.RUNNING? || (r.state.BLOCKED? && r.waiting) { weight := r.weight; }
      var d := Modify(q.chunk, t, weight);
      if d.None? { return false; }
      queues := queues[r.cpu := q.(chunk := d.value)];
      ok := true;
    }

    method TaskSetPriority(t: Task, priority: nat) returns (ok: bool)
      modifies this
      ensures Stepped(ok, SetPriority(old(View()), t, priority))
    {
      hide Modify;
      if t !in tasks || priority < 1 || priority > 6 { return false; }
      var r := tasks[t];
      if !r.scheduled {
        tasks := tasks[t := r.(weight := priority)];
        return true;
      }
      if r.cpu >= |queues| { return false; }
      var weight := 0;
      if r.state.READY? || r.state.RUNNING? || (r.state.BLOCKED? && r.waiting) { weight := priority; }
      var q := queues[r.cpu];
      var d := Modify(q.chunk, t, weight);
      if d.None? { return false; }
      queues := queues[r.cpu := q.(chunk := d.value)];
      tasks := tasks[t := r.(weight := priority)];
      ok := true;
    }

    method WaitQueueFinishTask(t: Task, killed: bool) returns (ok: bool)
      modifies this
      ensures Stepped(ok, Finish(old(View()), t, killed))
    {
      hide Modify;
      if t !in tasks { return false; }
      var r := tasks[t].(waiting := false, state := if killed then KILLED else TERMINATED);
      if r.scheduled && r.cpu < |queues| {
        var q := queues[r.cpu];
        var d := Modify(q.chunk, t, 0);
        if d.Some? { queues := queues[r.cpu := q.(chunk := d.value)]; }
      }
      tasks := tasks[t := r];
      ok := true;
    }

    method LBPWRRCompleteSwitch(cpu: nat) returns (ok: bool)
      modifies this
      ensures Stepped(ok, CompleteSwitch(old(View()), cpu))
    {
      if cpu >= |switching| || switching[cpu] == NULL || switching[cpu] !in tasks { return false; }
      var t := switching[cpu];
      tasks := tasks[t := tasks[t].(onCPU := false)];
      switching := switching[cpu := NULL];
      ok := true;
    }

    method WakeIfDue(cpu: nat, t: Task, now: nat)
      requires cpu < |queues|
      modifies this
      ensures View() == WakeOne(old(View()), cpu, t, now)
    {
      hide Modify;
      if t !in tasks || !tasks[t].state.SLEEPING? || (now - tasks[t].deadline) % WORD >= WORD / 2 { return; }
      var q := queues[cpu];
      var d := Modify(q.chunk, t, tasks[t].weight);
      if d.None? { return; }
      queues := queues[cpu := q.(chunk := d.value)];
      tasks := tasks[t := tasks[t].(state := READY, deadline := 0)];
    }

    method LBPWRRWakeSleepingTasks(cpu: nat, now: nat)
      requires cpu < |queues|
      modifies this
      ensures View() == WakeSome(old(View()), cpu, now, |old(queues)[cpu].runnable|)
    {
      hide WakeOne;
      ghost var s := View();
      var index := 0;
      while index < |queues[cpu].runnable|
        invariant cpu < |queues| && 0 <= index <= |s.queues[cpu].runnable|
        invariant View() == WakeSome(s, cpu, now, index)
        decreases |s.queues[cpu].runnable| - index
      {
        WakeIfDue(cpu, queues[cpu].runnable[index], now);
        assert View() == WakeSome(s, cpu, now, index + 1);
        index := index + 1;
      }
    }

    /** One round of the slot search; the length of the chunk when nothing is eligible. */
    method FindSlot(a: seq<Task>, start: nat, idle: bool) returns (slot: nat)
      ensures if slot < |a| then FirstSlot(View(), a, start, idle, 0) == Some(slot) else FirstSlot(View(), a, start, idle, 0) == None
    {
      var index := 0;
      while index < |a|
        invariant 0 <= index <= |a| && FirstSlot(View(), a, start, idle, 0) == FirstSlot(View(), a, start, idle, index)
      {
        slot := (start + index) % |a|;
        var candidate := a[slot];
        if candidate in tasks && tasks[candidate].state.READY? && tasks[candidate].idle == idle { return; }
        index := index + 1;
      }
      slot := |a|;
    }

    /** The ready task after the cursor, else a ready idle task. */
    method PickSlot(cpu: nat) returns (slot: nat)
      requires cpu < |queues| && cpu < |current|
      ensures var a := queues[cpu].chunk.tasks;
              if slot < |a| then Pick(View(), cpu) == Some(slot) else Pick(View(), cpu) == None
    {
      hide FirstSlot, Eligible;
      var a := queues[cpu].chunk.tasks;
      var start := queues[cpu].chunk.current;
      if start >= |a| { start := 0; }
      slot := FindSlot(a, if current[cpu] == NULL then start else start + 1, false);
      if slot >= |a| { slot := FindSlot(a, start, true); }
    }

    method DispatchSlot(cpu: nat, slot: nat)
      requires cpu < |queues| && cpu < |current| && cpu < |switching| && slot < |queues[cpu].chunk.tasks|
      requires queues[cpu].chunk.tasks[slot] in tasks
      modifies this
      ensures View() == Dispatch(old(View()), cpu, slot)
    {
      var t, next := current[cpu], queues[cpu].chunk.tasks[slot];
      queues := queues[cpu := queues[cpu].(chunk := queues[cpu].chunk.(current := slot))];
      current := current[cpu := next];
      tasks := tasks[next := tasks[next].(state := RUNNING, onCPU := true)];
      if t != NULL && next != t { switching := switching[cpu := t]; }
    }

    /** Returns false where the C code panics. */
    method LBPWRRTick(cpu: nat, now: nat) returns (ok: bool)
      requires cpu < |queues| && cpu < |current| && cpu < |switching| && switching[cpu] == NULL
      modifies this
      ensures ok == Tick(old(View()), cpu, now).Ticked?
      ensures ok ==> View() == Tick(old(View()), cpu, now).s
    {
      hide WakeSome, FirstSlot, Dispatch, Pick;
      ghost var s := View();
      var t := current[cpu];
      LBPWRRWakeSleepingTasks(cpu, now);
      if t in tasks && tasks[t].state.RUNNING? { tasks := tasks[t := tasks[t].(state := READY)]; }
      ghost var s1 := Paused(WakeSome(s, cpu, now, |s.queues[cpu].runnable|), cpu);
      assert View() == s1;
      var slot := PickSlot(cpu);
      PickIn(s1, cpu);
      if slot < |queues[cpu].chunk.tasks| {
        DispatchSlot(cpu, slot);
        return true;
      }
      ok := t == NULL;
      if t in tasks && tasks[t].state.READY? {
        if t != NULL {
          tasks := tasks[t := tasks[t].(state := RUNNING)];
          ok := true;
        }
      }
    }
  }

  lemma {:induction false} PickIn(s: State, c: nat)
    requires c < |s.queues| && c < |s.current|
    ensures Pick(s, c).Some? ==> s.queues[c].chunk.tasks[Pick(s, c).value] in s.tasks
  {
  }

  lemma {:induction false} NotBefore(r: seq<Task>, t: Task, i: nat, j: nat)
    requires j < i <= |r| && t !in r[..i]
    ensures r[j] != t
  {
    assert r[..i][j] == r[j];
  }

  lemma {:induction false} FindIs(r: seq<Task>, t: Task, i: nat)
    requires i <= |r| && t !in r[..i] && (i < |r| ==> r[i] == t)
    ensures i == Find(r, t) && (i < |r| <==> t in r)
  {
    if i < Find(r, t) { NotBefore(r, t, Find(r, t), i); }
    if Find(r, t) < i { NotBefore(r, t, i, Find(r, t)); }
    if i == |r| { assert r[..i] == r; }
  }

  lemma {:induction false} BootEmptyIs(n: nat)
    ensures Boot(n, 0) == Some(State(seq(n, _ => EMPTY_QUEUE), seq(n, _ => NULL), seq(n, _ => NULL), map[]))
  {
  }

  lemma {:induction false} BootStepIs(n: nat, k: nat)
    requires k < n && Boot(n, k).Some? && Booted(Boot(n, k).value, n, k)
    ensures var s := Boot(n, k).value;
            && Create(s, k + 1, true).Some? && Create(s, k + 1, true).value.queues != []
            && Boot(n, k + 1) == AddTask(Create(s, k + 1, true).value, k + 1, LeastLoaded(Create(s, k + 1, true).value))
            && Boot(n, k + 1).Some?
  {
    ShapeOf(Boot(n, k).value, n, k);
    BootWorks(n, k + 1);
  }

  lemma {:induction false} BootedMeaning(s: State, n: nat)
    requires Booted(s, n, n)
    ensures Inv(s) && IdleOk(s, IdleIds(n))
  {
    forall c | 0 <= c < n ensures IsIdleTask(s, IdleIds(n)[c], c) { assert IsIdleTask(s, IdleId(c), c); }
  }
}
