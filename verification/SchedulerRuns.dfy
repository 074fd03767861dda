/** Whole runs of the scheduler: safety over every interleaving, and how soon and how often a ready task runs. */
module SchedulerRuns {
  import opened Prelude
  import opened ChunkSpec
  import opened SchedulerSpec
  import opened SchedulerProofs

  datatype Step =
    | DoCreate(t: Task, isIdle: bool)
    | DoAdd(t: Task, c: nat)
    | DoRemove(t: Task)
    | DoMove(t: Task, c: nat)
    | DoNotify(t: Task)
    | DoSetPriority(t: Task, priority: nat)
    | DoSleepMark(c: nat, deadline: nat)
    | DoWaitSleep(c: nat)
    | DoWake(t: Task)
    | DoFinish(t: Task, killed: bool)
    | DoDestroy(t: Task)
    | DoStart(c: nat)
    | DoTick(c: nat, now: nat)
    | DoCompleteSwitch(c: nat)

  function OrElse(r: Option<State>, s: State): State { if r.Some? then r.value else s }

  function Next(s: State, step: Step): State {
    match step
    case DoCreate(t, idle) => OrElse(Create(s, t, idle), s)
    case DoAdd(t, c) => OrElse(AddTask(s, t, c), s)
    case DoRemove(t) => OrElse(RemoveTask(s, t), s)
    case DoMove(t, c) => OrElse(MoveTask(s, t, c), s)
    case DoNotify(t) => OrElse(Notify(s, t), s)
    case DoSetPriority(t, p) => OrElse(SetPriority(s, t, p), s)
    case DoSleepMark(c, d) => OrElse(SleepMark(s, c, d), s)
    case DoWaitSleep(c) => OrElse(WaitSleep(s, c), s)
    case DoWake(t) => OrElse(Wake(s, t), s)
    case DoFinish(t, killed) => OrElse(Finish(s, t, killed), s)
    case DoDestroy(t) => OrElse(Destroy(s, t), s)
    case DoStart(c) => OrElse(Start(s, c), s)
    case DoTick(c, now) => (match Tick(s, c, now) case Panic => s case Ticked(s') => s')
    case DoCompleteSwitch(c) => OrElse(CompleteSwitch(s, c), s)
  }

  function Run(s: State, steps: seq<Step>): State {
    if steps == [] then s else Next(Run(s, steps[..|steps| - 1]), steps[|steps| - 1])
  }

  lemma {:induction false} NextKeeps(s: State, step: Step)
    requires Inv(s)
    ensures Inv(Next(s, step))
  {
    match step
    case DoCreate(t, idle) => if Create(s, t, idle).Some? { CreateKeeps(s, t, idle); }
    case DoAdd(t, c) => if AddTask(s, t, c).Some? { AddKeeps(s, t, c); }
    case DoRemove(t) => if RemoveTask(s, t).Some? { RemoveKeeps(s, t); }
    case DoMove(t, c) => if MoveTask(s, t, c).Some? { MoveKeeps(s, t, c); }
    case DoNotify(t) => if Notify(s, t).Some? { NotifyKeeps(s, t); }
    case DoSetPriority(t, p) => if SetPriority(s, t, p).Some? { SetPriorityKeeps(s, t, p); }
    case DoSleepMark(c, d) => if SleepMark(s, c, d).Some? { SleepMarkKeeps(s, c, d); }
    case DoWaitSleep(c) => if WaitSleep(s, c).Some? { WaitSleepKeeps(s, c); }
    case DoWake(t) => if Wake(s, t).Some? { WakeKeeps(s, t); }
    case DoFinish(t, killed) => if Finish(s, t, killed).Some? { FinishKeeps(s, t, killed); }
    case DoDestroy(t) => if Destroy(s, t).Some? { DestroyKeeps(s, t); }
    case DoStart(c) => if Start(s, c).Some? { StartKeeps(s, c); }
    case DoTick(c, now) => TickKeeps(s, c, now);
    case DoCompleteSwitch(c) => if CompleteSwitch(s, c).Some? { CompleteSwitchKeeps(s, c); }
  }

  /** The step does not kill or terminate an idle task. */
  predicate SparesIdle(step: Step, idle: seq<Task>) { step.DoFinish? ==> step.t !in idle }

  lemma {:induction false} IdleWakeSome(s: State, c: nat, now: nat, n: nat, t: Task, c0: nat)
    requires c < |s.queues| && n <= |s.queues[c].runnable| && IsIdleTask(s, t, c0)
    ensures IsIdleTask(WakeSome(s, c, now, n), t, c0)
    decreases n
  {
    hide Modify;
    if n > 0 { IdleWakeSome(s, c, now, n - 1, t, c0); }
  }

  lemma {:induction false} IdleTick(s: State, c: nat, now: nat, t: Task, c0: nat)
    requires IsIdleTask(s, t, c0) && Tick(s, c, now).Ticked?
    ensures IsIdleTask(Tick(s, c, now).s, t, c0)
  {
    if c < |s.queues| { IdleWakeSome(s, c, now, |s.queues[c].runnable|, t, c0); }
    hide WakeSome, FirstSlot;
  }

  lemma {:induction false} IdleStep(s: State, step: Step, t: Task, c: nat)
    requires Inv(s) && IsIdleTask(s, t, c) && (step.DoFinish? ==> step.t != t)
    ensures IsIdleTask(Next(s, step), t, c)
  {
    hide Modify, Count, FirstSlot, Tick, Find;
    assert TaskOk(s, t);
    match step
    case DoTick(d, now) => if Tick(s, d, now).Ticked? { IdleTick(s, d, now, t, c); }
    case DoMove(u, d) =>
    case DoRemove(u) =>
    case DoFinish(u, killed) =>
    case DoDestroy(u) =>
    case _ =>
  }

  lemma {:induction false} QueueCount(s: State, step: Step)
    requires Shaped(s)
    ensures |Next(s, step).queues| == |s.queues|
  {
    hide Modify, FirstSlot, Find;
  }

  lemma {:induction false} IdleNext(s: State, step: Step, idle: seq<Task>)
    requires Inv(s) && IdleOk(s, idle) && SparesIdle(step, idle)
    ensures IdleOk(Next(s, step), idle)
  {
    hide Next;
    QueueCount(s, step);
    forall c | 0 <= c < |idle|
      ensures IsIdleTask(Next(s, step), idle[c], c)
    {
      IdleStep(s, step, idle[c], c);
    }
  }

  // The "No runnable task" panic.

  lemma {:induction false} WrapMod(x: nat, n: nat)
    requires 0 < n && x < 2 * n
    ensures x % n == if x < n then x else x - n
  {
    var q := if x < n then 0 else 1;
    DivIs(x, q, x - q * n, n);
    assert x == x / n * n + x % n;
  }

  /** The slot search looks at every slot. */
  lemma {:induction false} SearchFinds(s: State, a: seq<Task>, start: nat, idle: bool, k: nat, j: nat)
    requires start <= |a| && k <= |a| && j < |a| && Eligible(s, a[j], idle)
    requires j == (start + Gap(start, j, |a|)) % |a| && k <= Gap(start, j, |a|) < |a|
    ensures FirstSlot(s, a, start, idle, k).Some?
    decreases |a| - k
  {
    if !Eligible(s, a[(start + k) % |a|], idle) { SearchFinds(s, a, start, idle, k + 1, j); }
  }

  /** How many slots the search passes from `start` before it looks at slot `j`. */
  function Gap(start: nat, j: nat, n: nat): nat
    requires start <= n && j < n
  {
    if j >= start then j - start else j + n - start
  }

  lemma {:induction false} GapReaches(start: nat, j: nat, n: nat)
    requires start <= n && j < n
    ensures Gap(start, j, n) < n && (start + Gap(start, j, n)) % n == j
  {
    WrapMod(start + Gap(start, j, n), n);
  }

  lemma {:induction false} FindsIdle(s: State, c: nat, t: Task)
    requires Inv(s) && c < |s.queues| && IsIdleTask(s, t, c) && s.tasks[t].state.READY?
    ensures Pick(s, c).Some?
  {
    var a := s.queues[c].chunk.tasks;
    assert TaskOk(s, t) && QueueOk(s, c);
    CountIn(a, t);
    var j :| 0 <= j < |a| && a[j] == t;
    GapReaches(s.queues[c].chunk.current, j, |a|);
    SearchFinds(s, a, s.queues[c].chunk.current, true, 0, j);
  }

  /** While every processor keeps its idle task, a tick always finds a task to run. */
  lemma {:induction false} NoPanic(s: State, idle: seq<Task>, c: nat, now: nat)
    requires Inv(s) && IdleOk(s, idle)
    ensures Tick(s, c, now).Ticked?
  {
    if c < |s.queues| && s.switching[c] == NULL {
      var n := |s.queues[c].runnable|;
      var s0 := WakeSome(s, c, now, n);
      WakeSomeKeeps(s, c, now, n);
      assert IsIdleTask(s, idle[c], c);
      IdleWakeSome(s, c, now, n, idle[c], c);
      PausedKeeps(s0, c);
      hide WakeSome, FirstSlot;
      assert TaskOk(s0, idle[c]);
      FindsIdle(Paused(s0, c), c, idle[c]);
    }
  }

  /** Over every run that spares the idle tasks the invariants hold and no tick panics. */
  lemma {:induction false} RunSafe(s: State, idle: seq<Task>, steps: seq<Step>)
    requires Inv(s) && IdleOk(s, idle) && forall i :: 0 <= i < |steps| ==> SparesIdle(steps[i], idle)
    ensures Inv(Run(s, steps)) && IdleOk(Run(s, steps), idle)
    ensures forall c: nat, now: nat :: Tick(Run(s, steps), c, now).Ticked?
    decreases |steps|
  {
    if steps != [] {
      RunSafe(s, idle, steps[..|steps| - 1]);
      var before := Run(s, steps[..|steps| - 1]);
      NextKeeps(before, steps[|steps| - 1]);
      IdleNext(before, steps[|steps| - 1], idle);
    }
    var r := Run(s, steps);
    forall c: nat, now: nat ensures Tick(r, c, now).Ticked? { NoPanic(r, idle, c, now); }
  }

  /** What the invariants say of any reachable state, in the scheduler's own terms. */
  lemma {:induction false} InvMeaning(s: State)
    requires Inv(s)
    ensures forall t :: t in s.tasks && s.tasks[t].scheduled ==>
              s.tasks[t].cpu < |s.queues| && forall c: nat :: c < |s.queues| ==> (t in s.queues[c].runnable <==> c == s.tasks[t].cpu)
    ensures forall c: nat, d: nat :: c < d < |s.current| && s.current[c] != NULL ==> s.current[c] != s.current[d]
    ensures forall t :: t in s.tasks && s.tasks[t].onCPU ==> Occupies(s, s.tasks[t].cpu, t)
    ensures forall t, c: nat :: t in s.tasks && s.tasks[t].scheduled && HoldsSlots(s.tasks[t]) && c < |s.queues| ==>
              Slots(s, c, t) == if c == s.tasks[t].cpu then s.tasks[t].weight else 0
  {
    forall t | t in s.tasks && s.tasks[t].scheduled
      ensures s.tasks[t].cpu < |s.queues| && forall c: nat :: c < |s.queues| ==> (t in s.queues[c].runnable <==> c == s.tasks[t].cpu)
    {
      assert TaskOk(s, t);
      forall c: nat | c < |s.queues| ensures t in s.queues[c].runnable <==> c == s.tasks[t].cpu { assert MemberOk(s, c, t); }
    }
    forall c: nat, d: nat | c < d < |s.current| && s.current[c] != NULL ensures s.current[c] != s.current[d] {
      assert SeatOk(s, c) && SeatOk(s, d);
    }
    forall t | t in s.tasks && s.tasks[t].onCPU ensures Occupies(s, s.tasks[t].cpu, t) { assert TaskOk(s, t); }
    forall t, c: nat | t in s.tasks && s.tasks[t].scheduled && HoldsSlots(s.tasks[t]) && c < |s.queues|
      ensures Slots(s, c, t) == if c == s.tasks[t].cpu then s.tasks[t].weight else 0
    {
      assert TaskOk(s, t) && SlotOk(s, c, t);
    }
  }

  // Boot: one idle task per processor, each added to the least loaded run queue.

  function LeastFrom(queues: seq<Queue>, c: nat, best: nat): (r: nat)
    requires best < |queues| && c <= |queues|
    ensures r < |queues|
    decreases |queues| - c
  {
    if c == |queues| then best
    else LeastFrom(queues, c + 1, if |queues[c].runnable| < |queues[best].runnable| then c else best)
  }

  function LeastLoaded(s: State): (r: nat)
    requires |s.queues| > 0
    ensures r < |s.queues|
  {
    LeastFrom(s.queues, 1, 0)
  }

  const EMPTY_QUEUE := Queue([], Chunk([], 0))

  function Boot(n: nat, k: nat): Option<State> {
    if k == 0 then Some(State(seq(n, _ => EMPTY_QUEUE), seq(n, _ => NULL), seq(n, _ => NULL), map[])) else
    var s := Boot(n, k - 1);
    if s.None? then None else
    var s1 := Create(s.value, k, true);
    if s1.None? || s1.value.queues == [] then None else AddTask(s1.value, k, LeastLoaded(s1.value))
  }

  /** The idle task made for processor `c`. */
  function IdleId(c: nat): Task { c + 1 }

  function IdleIds(n: nat): seq<Task> { seq(n, c requires 0 <= c < n => IdleId(c)) }

  ghost predicate Booted(s: State, n: nat, k: nat) {
    && k <= n && Inv(s) && |s.queues| == n && (forall t :: t in s.tasks ==> t <= k)
    && (forall c :: 0 <= c < n ==> s.current[c] == s.switching[c] == NULL)
    && (forall c :: 0 <= c < n ==> if c < k then |s.queues[c].runnable| == 1 else s.queues[c] == EMPTY_QUEUE)
    && forall c :: 0 <= c < k ==> IsIdleTask(s, IdleId(c), c)
  }

  lemma {:induction false} LeastIs(queues: seq<Queue>, k: nat, c: nat, best: nat)
    requires k < |queues| && c <= |queues| && best < |queues|
    requires forall i :: 0 <= i < |queues| ==> |queues[i].runnable| == if i < k then 1 else 0
    requires if c <= k then best < c || (best == 0 && c == 1) else best == k
    requires c <= k ==> best < k || best == k
    ensures LeastFrom(queues, c, best) == k
    decreases |queues| - c
  {
    if c < |queues| { LeastIs(queues, k, c + 1, if |queues[c].runnable| < |queues[best].runnable| then c else best); }
  }

  lemma {:induction false} BootTarget(s: State, n: nat, k: nat)
    requires k < n && Booted(s, n, k)
    ensures Create(s, k + 1, true).Some?
    ensures LeastLoaded(Create(s, k + 1, true).value) == k
    ensures AddTask(Create(s, k + 1, true).value, k + 1, k).Some?
  {
    hide Modify, Inv;
    LeastIs(s.queues, k, 1, 0);
    ModifyMeaning(EMPTY_QUEUE.chunk, k + 1, 3);
    assert s.queues[k] == EMPTY_QUEUE && CountIn0(k + 1) == 0;
  }

  function CountIn0(t: Task): nat { Count([], t) }

  lemma {:induction false} BootStep(s: State, n: nat, k: nat)
    requires k < n && Booted(s, n, k)
    ensures Create(s, k + 1, true).Some?
    ensures var s1 := Create(s, k + 1, true).value;
            AddTask(s1, k + 1, k).Some? && Booted(AddTask(s1, k + 1, k).value, n, k + 1)
  {
    BootTarget(s, n, k);
    CreateKeeps(s, k + 1, true);
    var s1 := Create(s, k + 1, true).value;
    AddKeeps(s1, k + 1, k);
    hide Modify, Inv;
    var s2 := AddTask(s1, k + 1, k).value;
    forall c | 0 <= c < k + 1 ensures IsIdleTask(s2, IdleId(c), c) { if c < k { assert IsIdleTask(s, IdleId(c), c); } }
  }

  lemma {:induction false} BootWorks(n: nat, k: nat)
    requires 0 < n && k <= n
    ensures Boot(n, k).Some? && Booted(Boot(n, k).value, n, k)
    decreases k
  {
    hide Booted, Inv, AddTask, Create, LeastLoaded;
    if k > 0 {
      BootWorks(n, k - 1);
      BootStep(Boot(n, k - 1).value, n, k - 1);
      BootTarget(Boot(n, k - 1).value, n, k - 1);
      ShapeOf(Boot(n, k - 1).value, n, k - 1);
    } else {
      BootEmpty(n);
    }
  }

  lemma {:induction false} ShapeOf(s: State, n: nat, k: nat)
    requires k < n && Booted(s, n, k)
    ensures Create(s, k + 1, true).Some? && Create(s, k + 1, true).value.queues == s.queues != []
  {
  }

  lemma {:induction false} BootEmpty(n: nat)
    ensures Boot(n, 0).Some? && Booted(Boot(n, 0).value, n, 0)
  {
    var s := Boot(n, 0).value;
    forall c, t: Task | 0 <= c < n ensures MemberOk(s, c, t) && SlotOk(s, c, t) {}
  }

  /** After initialisation every run that spares the idle tasks is safe. */
  lemma {:induction false} BootSafe(n: nat, steps: seq<Step>)
    requires 0 < n && forall i :: 0 <= i < |steps| ==> SparesIdle(steps[i], IdleIds(n))
    ensures Boot(n, n).Some? && Inv(Run(Boot(n, n).value, steps))
    ensures forall c: nat, now: nat :: Tick(Run(Boot(n, n).value, steps), c, now).Ticked?
  {
    hide Boot, Inv, Run, Tick;
    BootWorks(n, n);
    var s := Boot(n, n).value;
    forall c | 0 <= c < n ensures IsIdleTask(s, IdleIds(n)[c], c) { assert IsIdleTask(s, IdleId(c), c); }
    RunSafe(s, IdleIds(n), steps);
  }
}
