/** Wait queues of WaitQueue.c as lists of tasks, and the key ring of VirtIOInput.c whose readers sleep on one. */
module WaitSpec {
  import opened Prelude
  import opened ChunkSpec
  import opened SchedulerSpec

  /** The task fields the wait queues read and write. */
  datatype Info = Info(state: TaskState, scheduled: bool, idle: bool, queue: Option<nat>)

  /** `lists` are the tasks of each queue from Head to Tail; `running` the tasks that are current on a processor. */
  datatype Waits = Waits(lists: seq<seq<Task>>, tasks: map<Task, Info>, running: set<Task>)

  function Dropped(l: seq<Task>, t: Task): seq<Task> {
    if l == [] then [] else if l[0] == t then l[1..] else [l[0]] + Dropped(l[1..], t)
  }

  /** WaitQueueDetach. */
  function Detach(w: Waits, t: Task): Waits
    requires t in w.tasks
  {
    match w.tasks[t].queue
    case None => w
    case Some(q) =>
      if q >= |w.lists| then w
      else w.(lists := w.lists[q := Dropped(w.lists[q], t)], tasks := w.tasks[t := w.tasks[t].(queue := None)])
  }

  /** The locked part of WaitQueueSleep for the calling task. */
  function Sleep(w: Waits, q: nat, t: Task): Option<Waits>
    requires q < |w.lists|
  {
    if t !in w.tasks || w.tasks[t].idle || !w.tasks[t].scheduled || !w.tasks[t].state.RUNNING? || w.tasks[t].queue.Some?
    then None
    else Some(w.(lists := w.lists[q := w.lists[q] + [t]],
                 tasks := w.tasks[t := w.tasks[t].(state := BLOCKED, queue := Some(q))]))
  }

  /** Takes the first task off a queue and lets it run again. */
  function WakeFirst(w: Waits, q: nat): Waits
    requires q < |w.lists| && w.lists[q] != [] && w.lists[q][0] in w.tasks
  {
    var t := w.lists[q][0];
    var w1 := Detach(w, t);
    if t in w1.tasks && w1.tasks[t].scheduled && w1.tasks[t].state.BLOCKED? then
      w1.(tasks := w1.tasks[t := w1.tasks[t].(state := if t in w.running then RUNNING else READY)])
    else w1
  }

  /** WaitQueueFinishTask. */
  function Finish(w: Waits, t: Task, state: TaskState): Waits
    requires t in w.tasks
  {
    var w1 := Detach(w, t);
    if t in w1.tasks then w1.(tasks := w1.tasks[t := w1.tasks[t].(state := state)]) else w1
  }

  // ---- Invariant ----

  ghost predicate QueuedOk(w: Waits, q: nat, t: Task)
    requires q < |w.lists|
  {
    t != NULL && t in w.tasks && w.tasks[t].queue == Some(q) && w.tasks[t].state.BLOCKED? && w.tasks[t].scheduled
  }

  /** Each list holds different tasks, all blocked and naming that queue; a task that names a queue is on it. */
  ghost predicate WaitsOk(w: Waits) {
    && (forall q :: 0 <= q < |w.lists| ==> NoDuplicates(w.lists[q]))
    && (forall q, t :: 0 <= q < |w.lists| && t in w.lists[q] ==> QueuedOk(w, q, t))
    && (forall t :: t in w.tasks && w.tasks[t].queue.Some? ==>
          w.tasks[t].queue.value < |w.lists| && t in w.lists[w.tasks[t].queue.value])
    && NULL !in w.tasks
  }

  lemma {:induction false} DroppedIs(l: seq<Task>, t: Task)
    requires NoDuplicates(l)
    ensures NoDuplicates(Dropped(l, t)) && forall x :: x in Dropped(l, t) <==> x in l && x != t
  {
    if l != [] && l[0] != t {
      DroppedIs(l[1..], t);
      var r := Dropped(l[1..], t);
      forall j | 0 <= j < |r| ensures r[j] != l[0] { assert r[j] in l[1..]; }
    }
  }

  /** The others keep their order. */
  lemma {:induction false} DroppedOrder(l: seq<Task>, i: nat)
    requires NoDuplicates(l) && i < |l|
    ensures Dropped(l, l[i]) == l[..i] + l[i + 1..]
  {
    if i > 0 {
      DroppedOrder(l[1..], i - 1);
      assert l[1..][i - 1] == l[i] && l[1..][..i - 1] == l[1..i] && l[1..][i..] == l[i + 1..];
    }
  }

  lemma {:induction false} DetachOk(w: Waits, t: Task)
    requires WaitsOk(w) && t in w.tasks
    ensures var r := Detach(w, t);
            && r.tasks.Keys == w.tasks.Keys && r.tasks[t] == w.tasks[t].(queue := None) && r.running == w.running
            && |r.lists| == |w.lists| && (forall q :: 0 <= q < |r.lists| ==> t !in r.lists[q])
            && (forall x :: x in w.tasks && x != t ==> r.tasks[x] == w.tasks[x])
            && (forall q, x :: 0 <= q < |r.lists| ==> (x in r.lists[q] <==> x in w.lists[q] && x != t))
            && (forall q, i :: 0 <= q < |r.lists| && 0 <= i < |w.lists[q]| && w.lists[q][i] == t ==> r.lists[q] == w.lists[q][..i] + w.lists[q][i + 1..])
            && (forall q :: 0 <= q < |r.lists| && t !in w.lists[q] ==> r.lists[q] == w.lists[q])
            && WaitsOk(r)
  {
    if w.tasks[t].queue.Some? {
      var l := w.lists[w.tasks[t].queue.value];
      DroppedIs(l, t);
      var i :| 0 <= i < |l| && l[i] == t;
      DroppedOrder(l, i);
    }
    var r := Detach(w, t);
    forall q | 0 <= q < |w.lists| && t in w.lists[q] ensures w.tasks[t].queue == Some(q) { assert QueuedOk(w, q, t); }
    forall q, x | 0 <= q < |r.lists| && x in r.lists[q] ensures QueuedOk(r, q, x) { assert QueuedOk(w, q, x); }
  }

  /** A task goes to sleep exactly when it runs, is scheduled and is not idle; it comes last on its queue. */
  lemma {:induction false} SleepOk(w: Waits, q: nat, t: Task)
    requires WaitsOk(w) && q < |w.lists|
    ensures Sleep(w, q, t).Some? <==> t in w.tasks && w.tasks[t].state.RUNNING? && w.tasks[t].scheduled && !w.tasks[t].idle
    ensures Sleep(w, q, t).Some? ==> var r := Sleep(w, q, t).value;
              && WaitsOk(r) && r.lists == w.lists[q := w.lists[q] + [t]] && r.running == w.running
              && r.tasks == w.tasks[t := Info(BLOCKED, true, false, Some(q))]
  {
    forall p | 0 <= p < |w.lists| && t in w.lists[p] ensures t in w.tasks && w.tasks[t].state.BLOCKED? { assert QueuedOk(w, p, t); }
    if t in w.tasks && w.tasks[t].queue.Some? { assert QueuedOk(w, w.tasks[t].queue.value, t); }
    if Sleep(w, q, t).None? { return; }
    var r := Sleep(w, q, t).value;
    forall p | 0 <= p < |w.lists| ensures t !in w.lists[p] {}
    forall p, x | 0 <= p < |r.lists| && x in r.lists[p] ensures QueuedOk(r, p, x) { if x != t { assert QueuedOk(w, p, x); } }
  }

  /** Waking takes the task that slept first, makes it runnable and touches no other. */
  lemma {:induction false} WakeFirstOk(w: Waits, q: nat)
    requires WaitsOk(w) && q < |w.lists| && w.lists[q] != []
    ensures var t := w.lists[q][0];
            && t in w.tasks
            && (var r := WakeFirst(w, q);
                && WaitsOk(r) && r.lists == w.lists[q := w.lists[q][1..]] && r.running == w.running
                && r.tasks == w.tasks[t := w.tasks[t].(queue := None, state := if t in w.running then RUNNING else READY)])
  {
    var t := w.lists[q][0];
    assert QueuedOk(w, q, t);
    DetachOk(w, t);
    var r := WakeFirst(w, q);
    assert Detach(w, t).lists == w.lists[q := w.lists[q][1..]];
    forall p, x | 0 <= p < |r.lists| && x in r.lists[p] ensures QueuedOk(r, p, x) { assert QueuedOk(Detach(w, t), p, x); }
  }

  lemma {:induction false} FinishOk(w: Waits, t: Task, state: TaskState)
    requires WaitsOk(w) && t in w.tasks
    ensures var r := Finish(w, t, state);
            && WaitsOk(r) && |r.lists| == |w.lists| && (forall q :: 0 <= q < |r.lists| ==> t !in r.lists[q])
            && r.tasks == w.tasks[t := w.tasks[t].(queue := None, state := state)] && r.running == w.running
            && forall q :: 0 <= q < |w.lists| && t !in w.lists[q] ==> r.lists[q] == w.lists[q]
  {
    DetachOk(w, t);
    var d, r := Detach(w, t), Finish(w, t, state);
    forall p, x | 0 <= p < |r.lists| && x in r.lists[p] ensures QueuedOk(r, p, x) { assert QueuedOk(d, p, x); }
  }

  // ---- The key ring ----

  const RING := 64
  const KEY_QUEUE := 0

  datatype Key = Key(code: nat, pressed: bool)

  /** The ring and the tasks; readers of the ring sleep on queue 0. */
  datatype Input = Input(keys: seq<Key>, waits: Waits)

  function WakeAll(w: Waits, q: nat): Waits
    requires q < |w.lists| && WaitsCloser(w, q)
    decreases if q < |w.lists| then |w.lists[q]| else 0
  {
    if w.lists[q] == [] then w else
    WakeShrinks(w, q);
    WakeAll(WakeFirst(w, q), q)
  }

  /** Every task on the queue exists and names it. */
  predicate WaitsCloser(w: Waits, q: nat)
    requires q < |w.lists|
  {
    && NoDuplicatesIn(w.lists[q])
    && forall i :: 0 <= i < |w.lists[q]| ==> w.lists[q][i] in w.tasks && w.tasks[w.lists[q][i]].queue == Some(q)
  }

  predicate NoDuplicatesIn(l: seq<Task>) { forall i, j :: 0 <= i < j < |l| ==> l[i] != l[j] }

  lemma {:induction false} WakeShrinks(w: Waits, q: nat)
    requires q < |w.lists| && w.lists[q] != [] && WaitsCloser(w, q)
    ensures var r := WakeFirst(w, q); |r.lists| == |w.lists| && r.lists[q] == w.lists[q][1..] && WaitsCloser(r, q)
  {
  }

  /** PushKeyEvent: a full ring drops the key; otherwise every sleeping reader is woken. */
  function Push(i: Input, k: Key): Input
    requires KEY_QUEUE < |i.waits.lists| && WaitsCloser(i.waits, KEY_QUEUE)
  {
    if |i.keys| == RING - 1 then i else Input(i.keys + [k], WakeAll(i.waits, KEY_QUEUE))
  }

  /** VirtIOInputGetKeyEvent. */
  function Get(i: Input): (Input, Option<Key>) {
    if i.keys == [] then (i, None) else (i.(keys := i.keys[1..]), Some(i.keys[0]))
  }

  /** One turn of VirtIOInputWaitKeyEvent: whether the task went to sleep. The key lock is held from the test to
      the moment the task is on the queue. */
  function Wait(i: Input, t: Task): (Input, bool)
    requires KEY_QUEUE < |i.waits.lists|
  {
    if i.keys != [] then (i, false) else
    match Sleep(i.waits, KEY_QUEUE, t)
    case None => (i, false)
    case Some(w) => (i.(waits := w), true)
  }

  /** No key waits while a reader sleeps. */
  ghost predicate Inv(i: Input) {
    && WaitsOk(i.waits) && KEY_QUEUE < |i.waits.lists| && |i.keys| < RING
    && (i.keys != [] ==> i.waits.lists[KEY_QUEUE] == [])
  }

  lemma {:induction false} Closer(w: Waits, q: nat)
    requires WaitsOk(w) && q < |w.lists|
    ensures WaitsCloser(w, q)
  {
    forall i | 0 <= i < |w.lists[q]| ensures w.lists[q][i] in w.tasks && w.tasks[w.lists[q][i]].queue == Some(q) {
      assert QueuedOk(w, q, w.lists[q][i]);
    }
  }

  /** Waking all empties the queue, makes each of its tasks runnable and leaves every other task and queue alone. */
  lemma {:induction false} WakeAllOk(w: Waits, q: nat)
    requires WaitsOk(w) && q < |w.lists|
    ensures WaitsCloser(w, q)
    ensures var r := WakeAll(w, q);
            && WaitsOk(r) && r.lists == w.lists[q := []] && r.running == w.running && r.tasks.Keys == w.tasks.Keys
            && (forall t :: t in w.tasks ==>
                  r.tasks[t] == if t in w.lists[q] then w.tasks[t].(queue := None, state := if t in w.running then RUNNING else READY)
                                else w.tasks[t])
    decreases |w.lists[q]|
  {
    Closer(w, q);
    if w.lists[q] != [] {
      WakeFirstOk(w, q);
      var r := WakeFirst(w, q);
      assert NoDuplicates(w.lists[q]);
      WakeAllOk(r, q);
      assert w.lists[q] == [w.lists[q][0]] + w.lists[q][1..];
    }
  }

  datatype Event =
    | PushKey(key: Key)
    | GetKey
    | WaitKey(task: Task)
    | SleepOn(queue: nat, task: Task)
    | WakeOne(queue: nat)
    | WakeEach(queue: nat)
    | FinishTask(task: Task, state: TaskState)
    | Dispatch(task: Task)
    | Preempt(task: Task)

  /** The scheduler makes a ready task current and running, and a running one ready; anyone may sleep on or wake
      any other queue. */
  predicate Enabled(i: Input, e: Event) {
    match e
    case SleepOn(q, _) => q < |i.waits.lists| && q != KEY_QUEUE
    case WakeOne(q) => q < |i.waits.lists| && i.waits.lists[q] != []
    case WakeEach(q) => q < |i.waits.lists|
    case FinishTask(t, state) => t in i.waits.tasks && (state.KILLED? || state.TERMINATED?)
    case Dispatch(t) => t in i.waits.tasks && i.waits.tasks[t].state.READY?
    case Preempt(t) => t in i.waits.tasks
    case _ => true
  }

  function Step(i: Input, e: Event): Input
    requires Enabled(i, e) && KEY_QUEUE < |i.waits.lists| && forall q :: 0 <= q < |i.waits.lists| ==> WaitsCloser(i.waits, q)
  {
    match e
    case PushKey(k) => Push(i, k)
    case GetKey => Get(i).0
    case WaitKey(t) => Wait(i, t).0
    case SleepOn(q, t) => (match Sleep(i.waits, q, t) case None => i case Some(w) => i.(waits := w))
    case WakeOne(q) =>
      assert WaitsCloser(i.waits, q);
      i.(waits := WakeFirst(i.waits, q))
    case WakeEach(q) => i.(waits := WakeAll(i.waits, q))
    case FinishTask(t, state) => i.(waits := Finish(i.waits, t, state))
    case Dispatch(t) =>
      i.(waits := i.waits.(running := i.waits.running + {t}, tasks := i.waits.tasks[t := i.waits.tasks[t].(state := RUNNING)]))
    case Preempt(t) =>
      i.(waits := i.waits.(running := i.waits.running - {t},
                           tasks := if i.waits.tasks[t].state.RUNNING? then i.waits.tasks[t := i.waits.tasks[t].(state := READY)]
                                    else i.waits.tasks))
  }

  /** A key that is taken wakes every task that slept for one. */
  lemma {:induction false} PushMeaning(i: Input, k: Key)
    requires Inv(i)
    ensures WaitsCloser(i.waits, KEY_QUEUE)
    ensures var r := Push(i, k);
            && Inv(r) && r.waits.lists[KEY_QUEUE] == []
            && r.keys == (if |i.keys| == RING - 1 then i.keys else i.keys + [k])
            && (forall t :: t in i.waits.lists[KEY_QUEUE] ==>
                  t in r.waits.tasks && r.waits.tasks[t].queue.None? && (r.waits.tasks[t].state.READY? || r.waits.tasks[t].state.RUNNING?))
  {
    WakeAllOk(i.waits, KEY_QUEUE);
    forall t | t in i.waits.lists[KEY_QUEUE] ensures t in i.waits.tasks { assert QueuedOk(i.waits, KEY_QUEUE, t); }
  }

  lemma {:induction false} StateChange(w: Waits, w': Waits, t: Task)
    requires WaitsOk(w) && t in w.tasks && !w.tasks[t].state.BLOCKED? && w'.lists == w.lists
    requires w'.tasks.Keys == w.tasks.Keys && w'.tasks[t].queue == w.tasks[t].queue
    requires forall x :: x in w.tasks && x != t ==> w'.tasks[x] == w.tasks[x]
    ensures WaitsOk(w')
  {
    forall p, x | 0 <= p < |w'.lists| && x in w'.lists[p] ensures QueuedOk(w', p, x) { assert QueuedOk(w, p, x); }
  }

  lemma {:induction false} StepKeeps(i: Input, e: Event)
    requires Inv(i) && Enabled(i, e)
    ensures forall q :: 0 <= q < |i.waits.lists| ==> WaitsCloser(i.waits, q)
    ensures Inv(Step(i, e))
  {
    forall q | 0 <= q < |i.waits.lists| ensures WaitsCloser(i.waits, q) { Closer(i.waits, q); }
    hide WaitsOk, WaitsCloser;
    match e {
      case PushKey(k) => PushMeaning(i, k);
      case GetKey =>
      case WaitKey(t) => if Sleep(i.waits, KEY_QUEUE, t).Some? { SleepOk(i.waits, KEY_QUEUE, t); }
      case SleepOn(q, t) => if Sleep(i.waits, q, t).Some? { SleepOk(i.waits, q, t); }
      case WakeOne(q) => WakeFirstOk(i.waits, q);
      case WakeEach(q) => WakeAllOk(i.waits, q);
      case FinishTask(t, state) => FinishOk(i.waits, t, state); FinishLists(i.waits, t, state);
      case Dispatch(t) => StateChange(i.waits, Step(i, e).waits, t);
      case Preempt(t) =>
        if i.waits.tasks[t].state.RUNNING? { StateChange(i.waits, Step(i, e).waits, t); } else { RunningFree(i.waits, i.waits.running - {t}); }
    }
  }

  lemma {:induction false} RunningFree(w: Waits, running: set<Task>)
    requires WaitsOk(w)
    ensures WaitsOk(w.(running := running))
  {
    forall p, x | 0 <= p < |w.lists| && x in w.lists[p] ensures QueuedOk(w.(running := running), p, x) { assert QueuedOk(w, p, x); }
  }

  lemma {:induction false} FinishLists(w: Waits, t: Task, state: TaskState)
    requires t in w.tasks
    ensures var r := Finish(w, t, state);
            |r.lists| == |w.lists| && forall q :: 0 <= q < |w.lists| && w.lists[q] == [] ==> r.lists[q] == []
  {
  }

  /** A reader sleeps exactly when no key is there; it finds the key otherwise. */
  lemma {:induction false} WaitMeaning(i: Input, t: Task)
    requires Inv(i) && t in i.waits.tasks && i.waits.tasks[t].state.RUNNING? && i.waits.tasks[t].scheduled && !i.waits.tasks[t].idle
    ensures var (r, slept) := Wait(i, t);
            && r.keys == i.keys && (slept <==> i.keys == []) && (!slept ==> r == i && Get(i).1 == Some(i.keys[0]))
            && (slept ==> r.waits.lists == i.waits.lists[KEY_QUEUE := i.waits.lists[KEY_QUEUE] + [t]])
  {
    SleepOk(i.waits, KEY_QUEUE, t);
  }

  /** The keys the run hands out, and those it takes in. */
  ghost function KeysOut(i: Input, es: seq<Event>): seq<Key>
    requires Inv(i) && AllEnabled(i, es)
    decreases |es|
  {
    if es == [] then [] else
    StepKeeps(i, es[0]);
    (if es[0].GetKey? && Get(i).1.Some? then [Get(i).1.value] else []) + KeysOut(Step(i, es[0]), es[1..])
  }

  ghost function KeysIn(i: Input, es: seq<Event>): seq<Key>
    requires Inv(i) && AllEnabled(i, es)
    decreases |es|
  {
    if es == [] then [] else
    StepKeeps(i, es[0]);
    (if es[0].PushKey? && |i.keys| < RING - 1 then [es[0].key] else []) + KeysIn(Step(i, es[0]), es[1..])
  }

  /** Over every run keys come out in the order they went in; only a full ring drops one. */
  lemma {:induction false} KeysInOrder(i: Input, es: seq<Event>)
    requires Inv(i) && AllEnabled(i, es)
    ensures i.keys + KeysIn(i, es) == KeysOut(i, es) + Run(i, es).keys
    decreases |es|
  {
    if es != [] {
      StepKeeps(i, es[0]);
      var s := Step(i, es[0]);
      KeysInOrder(s, es[1..]);
      StepKeys(i, es[0]);
      var taken := if es[0].PushKey? && |i.keys| < RING - 1 then [es[0].key] else [];
      var given := if es[0].GetKey? && Get(i).1.Some? then [Get(i).1.value] else [];
      assert KeysIn(i, es) == taken + KeysIn(s, es[1..]) && KeysOut(i, es) == given + KeysOut(s, es[1..]);
      assert Run(i, es) == Run(s, es[1..]);
      Regroup(i.keys, taken, given, s.keys, KeysIn(s, es[1..]), KeysOut(s, es[1..]), Run(s, es[1..]).keys);
    }
  }

  lemma {:induction false} Regroup(before: seq<Key>, taken: seq<Key>, given: seq<Key>, after: seq<Key>, more: seq<Key>, out: seq<Key>, left: seq<Key>)
    requires before + taken == given + after && after + more == out + left
    ensures before + (taken + more) == (given + out) + left
  {
    assert before + (taken + more) == (before + taken) + more == given + (after + more);
  }

  lemma {:induction false} StepKeys(i: Input, e: Event)
    requires Inv(i) && Enabled(i, e)
    ensures forall q :: 0 <= q < |i.waits.lists| ==> WaitsCloser(i.waits, q)
    ensures i.keys + (if e.PushKey? && |i.keys| < RING - 1 then [e.key] else [])
            == (if e.GetKey? && Get(i).1.Some? then [Get(i).1.value] else []) + Step(i, e).keys
  {
    StepKeeps(i, e);
  }

  ghost predicate AllEnabled(i: Input, es: seq<Event>)
    requires Inv(i)
    decreases |es|
  {
    es != [] ==> Enabled(i, es[0]) && (StepKeeps(i, es[0]); AllEnabled(Step(i, es[0]), es[1..]))
  }

  ghost function Run(i: Input, es: seq<Event>): Input
    requires Inv(i) && AllEnabled(i, es)
    decreases |es|
  {
    if es == [] then i else
    StepKeeps(i, es[0]);
    Run(Step(i, es[0]), es[1..])
  }

  /** Over every run no task sleeps for keys while one is there, and every sleeper is blocked on one queue that
      lists it. */
  lemma {:induction false} NoLostWakeup(i: Input, es: seq<Event>, t: Task)
    requires Inv(i) && AllEnabled(i, es)
    ensures var r := Run(i, es);
            && Inv(r)
            && (r.keys != [] ==> t !in r.waits.lists[KEY_QUEUE])
            && (t in r.waits.tasks && r.waits.tasks[t].queue.Some? ==>
                  r.waits.tasks[t].state.BLOCKED? && forall q :: 0 <= q < |r.waits.lists| ==>
                    (t in r.waits.lists[q] <==> r.waits.tasks[t].queue == Some(q)))
    decreases |es|
  {
    if es != [] {
      StepKeeps(i, es[0]);
      NoLostWakeup(Step(i, es[0]), es[1..], t);
    } else {
      forall q | 0 <= q < |i.waits.lists| && t in i.waits.lists[q] ensures i.waits.tasks[t].queue == Some(q) { assert QueuedOk(i.waits, q, t); }
      if t in i.waits.tasks && i.waits.tasks[t].queue.Some? { assert QueuedOk(i.waits, i.waits.tasks[t].queue.value, t); }
    }
  }
}
