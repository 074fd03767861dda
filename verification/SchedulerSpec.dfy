/** The multi-processor scheduler as a state machine: each locked section of the C code is one step. */
module SchedulerSpec {
  import opened Prelude
  import opened ChunkSpec

  datatype TaskState = READY | RUNNING | BLOCKED | SLEEPING | TERMINATED | KILLED

  datatype TaskRec = TaskRec(state: TaskState, cpu: nat, weight: nat, deadline: nat,
                             idle: bool, scheduled: bool, onCPU: bool, waiting: bool)

  datatype Queue = Queue(runnable: seq<Task>, chunk: Chunk)

  /** Per processor a run queue, the current task and the task being switched out; NULL where there is none. */
  datatype State = State(queues: seq<Queue>, current: seq<Task>, switching: seq<Task>, tasks: map<Task, TaskRec>)

  const MAX_TASKS: nat := 1024
  const WORD: nat := 0x1_0000_0000_0000_0000

  ghost predicate Shaped(s: State) {
    |s.queues| == |s.current| == |s.switching| && NULL !in s.tasks
  }

  function Slots(s: State, c: nat, t: Task): nat
    requires c < |s.queues|
  {
    Count(s.queues[c].chunk.tasks, t)
  }

  // Invariants, one per concern.

  ghost predicate NoDuplicates(r: seq<Task>) {
    forall i, j :: 0 <= i < j < |r| ==> r[i] != r[j]
  }

  ghost predicate QueueOk(s: State, c: nat)
    requires c < |s.queues|
  {
    CursorOk(s.queues[c].chunk) && |s.queues[c].runnable| <= MAX_TASKS && NoDuplicates(s.queues[c].runnable)
  }

  /** A task is in a run queue exactly when it is scheduled on that processor. */
  predicate MemberOk(s: State, c: nat, t: Task)
    requires c < |s.queues|
  {
    t in s.queues[c].runnable <==> t in s.tasks && s.tasks[t].scheduled && s.tasks[t].cpu == c
  }

  /** Only a processor's own tasks have slots in its chunk. */
  predicate SlotOk(s: State, c: nat, t: Task)
    requires c < |s.queues|
  {
    Slots(s, c, t) > 0 ==> t in s.tasks && s.tasks[t].scheduled && s.tasks[t].cpu == c
  }

  predicate HoldsSlots(r: TaskRec) { r.state.READY? || r.state.RUNNING? || r.state.BLOCKED? }

  /** Task `t` occupies processor `c`: it is current there or still being switched out. */
  predicate Occupies(s: State, c: nat, t: Task) {
    c < |s.current| && c < |s.switching| && t != NULL && (s.current[c] == t || s.switching[c] == t)
  }

  /** A task that may run has exactly its weight in slots; a running one is current on its own processor; one
      marked as on a processor occupies its own; one waits on a queue exactly when it is blocked. */
  predicate TaskOk(s: State, t: Task)
    requires t in s.tasks
  {
    var r := s.tasks[t];
    && 1 <= r.weight <= MAX_WEIGHT
    && (r.scheduled ==> r.cpu < |s.queues|)
    && (r.scheduled && HoldsSlots(r) && r.cpu < |s.queues| ==> Slots(s, r.cpu, t) == r.weight)
    && (r.onCPU ==> r.scheduled && Occupies(s, r.cpu, t))
    && (r.state.RUNNING? ==> r.cpu < |s.current| && s.current[r.cpu] == t)
    && (r.waiting == r.state.BLOCKED?) && (r.waiting ==> r.scheduled)
  }

  predicate Seated(s: State, c: nat, t: Task) {
    t in s.tasks && s.tasks[t].scheduled && s.tasks[t].cpu == c && s.tasks[t].onCPU
  }

  /** Whoever occupies processor `c` is scheduled there and marked as on a processor. */
  predicate SeatOk(s: State, c: nat)
    requires c < |s.current| && c < |s.switching|
  {
    && (s.current[c] != NULL ==> Seated(s, c, s.current[c]))
    && (s.switching[c] != NULL ==> Seated(s, c, s.switching[c]) && s.current[c] != NULL && s.current[c] != s.switching[c])
  }

  ghost predicate Inv(s: State) {
    && Shaped(s)
    && (forall c :: 0 <= c < |s.queues| ==> QueueOk(s, c) && SeatOk(s, c))
    && (forall c, t: Task :: 0 <= c < |s.queues| ==> MemberOk(s, c, t) && SlotOk(s, c, t))
    && (forall t :: t in s.tasks ==> TaskOk(s, t))
  }

  predicate IsIdleTask(s: State, t: Task, c: nat) {
    t in s.tasks && s.tasks[t].idle && s.tasks[t].scheduled && s.tasks[t].cpu == c && (s.tasks[t].state.READY? || s.tasks[t].state.RUNNING?)
  }

  /** Processor `c` has idle task `idle[c]`, ready or running. */
  ghost predicate IdleOk(s: State, idle: seq<Task>) {
    && |idle| == |s.queues|
    && forall c :: 0 <= c < |idle| ==> IsIdleTask(s, idle[c], c)
  }

  // Steps. None is the C code's FALSE, and leaves the state alone.

  function PutTask(s: State, t: Task, r: TaskRec): State { s.(tasks := s.tasks[t := r]) }

  function PutQueue(s: State, c: nat, q: Queue): State
    requires c < |s.queues|
  {
    s.(queues := s.queues[c := q])
  }

  function Create(s: State, t: Task, idle: bool): Option<State> {
    if t == NULL || t in s.tasks then None
    else Some(PutTask(s, t, TaskRec(READY, 0, 3, 0, idle, false, false, false)))
  }

  function AddTask(s: State, t: Task, c: nat): Option<State> {
    if t !in s.tasks || s.tasks[t].scheduled || s.tasks[t].weight == 0 || s.tasks[t].weight > MAX_WEIGHT || c >= |s.queues| then None else
    var q := s.queues[c];
    if |q.runnable| >= MAX_TASKS || t in q.runnable then None else
    var d := Modify(q.chunk, t, s.tasks[t].weight);
    if d.None? then None else
    Some(PutTask(PutQueue(s, c, Queue(q.runnable + [t], d.value)), t, s.tasks[t].(cpu := c, state := READY, scheduled := true)))
  }

  /** The last entry takes the place of the one removed. */
  function SwapRemove(r: seq<Task>, i: nat): seq<Task>
    requires i < |r|
  {
    r[i := r[|r| - 1]][..|r| - 1]
  }

  function Find(r: seq<Task>, t: Task): (i: nat)
    ensures i <= |r| && t !in r[..i] && (i < |r| ==> r[i] == t)
  {
    if r == [] || r[0] == t then 0 else
    var i := 1 + Find(r[1..], t);
    assert r[..i] == [r[0]] + r[1..][..i - 1];
    i
  }

  function RemoveTask(s: State, t: Task): Option<State> {
    if t !in s.tasks || !s.tasks[t].scheduled || s.tasks[t].cpu >= |s.queues| || s.tasks[t].cpu >= |s.current| then None else
    var c := s.tasks[t].cpu;
    var r := s.tasks[t];
    if s.current[c] == t || r.onCPU || !(r.state.TERMINATED? || r.state.KILLED?) then None else
    var q := s.queues[c];
    var i := Find(q.runnable, t);
    if i == |q.runnable| then None else
    var d := Modify(q.chunk, t, 0);
    if d.None? then None else
    Some(PutTask(PutQueue(s, c, Queue(SwapRemove(q.runnable, i), d.value)), t, r.(scheduled := false)))
  }

  function MoveTask(s: State, t: Task, target: nat): Option<State> {
    if t !in s.tasks || !s.tasks[t].scheduled then None else
    var r := s.tasks[t];
    var source := r.cpu;
    if source >= |s.queues| || source >= |s.current| || target >= |s.queues| || source == target then None else
    var q, p := s.queues[source], s.queues[target];
    if !r.state.READY? || r.idle || r.onCPU || s.current[source] == t || |p.runnable| >= MAX_TASKS || r.weight == 0 || r.weight > MAX_WEIGHT then None else
    var i := Find(q.runnable, t);
    if i == |q.runnable| || t in p.runnable then None else
    var d := Modify(p.chunk, t, r.weight);
    if d.None? then None else
    var e := Modify(q.chunk, t, 0);
    if e.None? then None else
    Some(PutTask(PutQueue(PutQueue(s, source, Queue(SwapRemove(q.runnable, i), e.value)), target, Queue(p.runnable + [t], d.value)),
                 t, r.(cpu := target)))
  }

  function Notify(s: State, t: Task): Option<State> {
    if t !in s.tasks || !s.tasks[t].scheduled || s.tasks[t].cpu >= |s.queues| then None else
    var q := s.queues[s.tasks[t].cpu];
    if t !in q.runnable then None else
    var d := Modify(q.chunk, t, if s.tasks[t].state.READY? || s.tasks[t].state.RUNNING? || (s.tasks[t].state.BLOCKED? && s.tasks[t].waiting) then s.tasks[t].weight else 0);
    if d.None? then None else Some(PutQueue(s, s.tasks[t].cpu, q.(chunk := d.value)))
  }

  function SetPriority(s: State, t: Task, priority: nat): Option<State> {
    if t !in s.tasks || priority < 1 || priority > 6 then None else
    var r := s.tasks[t];
    if !r.scheduled then Some(PutTask(s, t, r.(weight := priority)))
    else if r.cpu >= |s.queues| then None else
    var q := s.queues[r.cpu];
    var d := Modify(q.chunk, t, if r.state.READY? || r.state.RUNNING? || (r.state.BLOCKED? && r.waiting) then priority else 0);
    if d.None? then None else
    Some(PutTask(PutQueue(s, r.cpu, q.(chunk := d.value)), t, r.(weight := priority)))
  }

  /** The current task of `c` puts itself to sleep; the write is not under the queue's lock and overwrites any state. */
  function SleepMark(s: State, c: nat, deadline: nat): Option<State> {
    if c >= |s.current| || c >= |s.switching| || s.switching[c] != NULL || s.current[c] !in s.tasks then None else
    var r := s.tasks[s.current[c]];
    if r.idle || r.state.BLOCKED? then None
    else Some(PutTask(s, s.current[c], r.(state := SLEEPING, deadline := deadline)))
  }

  function WaitSleep(s: State, c: nat): Option<State> {
    if c >= |s.current| || c >= |s.switching| || s.switching[c] != NULL || s.current[c] !in s.tasks then None else
    var r := s.tasks[s.current[c]];
    if r.idle || !r.scheduled || !r.state.RUNNING? || r.waiting then None
    else Some(PutTask(s, s.current[c], r.(state := BLOCKED, waiting := true)))
  }

  function Wake(s: State, t: Task): Option<State> {
    if t !in s.tasks || !s.tasks[t].waiting then None else
    var r := s.tasks[t].(waiting := false);
    if r.scheduled && r.state.BLOCKED? && r.cpu < |s.current|
    then Some(PutTask(s, t, r.(state := if s.current[r.cpu] == t then RUNNING else READY)))
    else Some(PutTask(s, t, r))
  }

  function Finish(s: State, t: Task, killed: bool): Option<State> {
    if t !in s.tasks then None else
    var r := s.tasks[t].(waiting := false, state := if killed then KILLED else TERMINATED);
    if !r.scheduled || r.cpu >= |s.queues| then Some(PutTask(s, t, r)) else
    var q := s.queues[r.cpu];
    var d := Modify(q.chunk, t, 0);
    Some(PutTask(if d.None? then s else PutQueue(s, r.cpu, q.(chunk := d.value)), t, r))
  }

  function Destroy(s: State, t: Task): Option<State> {
    if t !in s.tasks || !(s.tasks[t].state.TERMINATED? || s.tasks[t].state.KILLED?) then None else
    if s.tasks[t].scheduled && RemoveTask(s, t).None? then None else
    var s1 := if s.tasks[t].scheduled then RemoveTask(s, t).value else s;
    Some(s1.(tasks := s1.tasks - {t}))
  }

  function CompleteSwitch(s: State, c: nat): Option<State> {
    if c >= |s.switching| || s.switching[c] == NULL || s.switching[c] !in s.tasks then None else
    var t := s.switching[c];
    Some(PutTask(s, t, s.tasks[t].(onCPU := false)).(switching := s.switching[c := NULL]))
  }

  // The tick.

  predicate Due(now: nat, deadline: nat) { (now - deadline) % WORD < WORD / 2 }

  function WakeOne(s: State, c: nat, t: Task, now: nat): State
    requires c < |s.queues|
  {
    if t !in s.tasks || !s.tasks[t].state.SLEEPING? || !Due(now, s.tasks[t].deadline) then s else
    var q := s.queues[c];
    var d := Modify(q.chunk, t, s.tasks[t].weight);
    if d.None? then s else PutTask(PutQueue(s, c, q.(chunk := d.value)), t, s.tasks[t].(state := READY, deadline := 0))
  }

  /** The first `n` entries of the run queue whose deadline has passed wake up, where there is room. */
  function WakeSome(s: State, c: nat, now: nat, n: nat): (r: State)
    requires c < |s.queues| && n <= |s.queues[c].runnable|
    ensures |r.queues| == |s.queues| && r.queues[c].runnable == s.queues[c].runnable && r.current == s.current && r.switching == s.switching
  {
    if n == 0 then s else WakeOne(WakeSome(s, c, now, n - 1), c, s.queues[c].runnable[n - 1], now)
  }

  predicate Eligible(s: State, t: Task, idle: bool) {
    t in s.tasks && s.tasks[t].state.READY? && s.tasks[t].idle == idle
  }

  /** The first slot from `start`, going round, whose task is ready and idle or not as asked. */
  function FirstSlot(s: State, a: seq<Task>, start: nat, idle: bool, k: nat): (r: Option<nat>)
    requires k <= |a|
    ensures r.Some? ==> r.value < |a| && Eligible(s, a[r.value], idle)
    decreases |a| - k
  {
    if k == |a| then None
    else if Eligible(s, a[(start + k) % |a|], idle) then Some((start + k) % |a|)
    else FirstSlot(s, a, start, idle, k + 1)
  }

  function Pick(s: State, c: nat): (r: Option<nat>)
    requires c < |s.queues| && c < |s.current|
    ensures r.Some? ==> r.value < |s.queues[c].chunk.tasks|
  {
    var a := s.queues[c].chunk.tasks;
    var start := if s.queues[c].chunk.current >= |a| then 0 else s.queues[c].chunk.current;
    var first := FirstSlot(s, a, if s.current[c] == NULL then start else start + 1, false, 0);
    if first.Some? then first else FirstSlot(s, a, start, true, 0)
  }

  datatype TickResult = Panic | Ticked(s: State)

  /** The current task stops running before the next one is looked for. */
  function Paused(s: State, c: nat): State
    requires c < |s.current|
  {
    var t := s.current[c];
    if t in s.tasks && s.tasks[t].state.RUNNING? then PutTask(s, t, s.tasks[t].(state := READY)) else s
  }

  function Dispatch(s: State, c: nat, slot: nat): State
    requires c < |s.queues| && c < |s.current| && c < |s.switching| && slot < |s.queues[c].chunk.tasks|
    requires s.queues[c].chunk.tasks[slot] in s.tasks
  {
    var q := s.queues[c];
    var t := q.chunk.tasks[slot];
    var old_ := s.current[c];
    State(s.queues[c := q.(chunk := q.chunk.(current := slot))],
          s.current[c := t],
          if old_ != NULL && t != old_ then s.switching[c := old_] else s.switching,
          s.tasks[t := s.tasks[t].(state := RUNNING, onCPU := true)])
  }

  function Tick(s: State, c: nat, now: nat): TickResult {
    if c >= |s.queues| || c >= |s.current| || c >= |s.switching| || s.switching[c] != NULL then Ticked(s) else
    var s1 := Paused(WakeSome(s, c, now, |s.queues[c].runnable|), c);
    var slot := Pick(s1, c);
    if slot.Some? then Ticked(Dispatch(s1, c, slot.value))
    else
      var t := s1.current[c];
      if t == NULL then Ticked(s1)
      else if t in s1.tasks && s1.tasks[t].state.READY? then Ticked(PutTask(s1, t, s1.tasks[t].(state := RUNNING)))
      else Panic
  }

  /** The first task of a processor that has none: the first ready slot from the start of the chunk. */
  function Start(s: State, c: nat): Option<State> {
    if c >= |s.queues| || c >= |s.current| || c >= |s.switching| || s.current[c] != NULL || s.switching[c] != NULL then None else
    var a := s.queues[c].chunk.tasks;
    var first := FirstSlot(s, a, 0, false, 0);
    var slot := if first.Some? then first else FirstSlot(s, a, 0, true, 0);
    if slot.None? then None else Some(Dispatch(s, c, slot.value))
  }
}
