/** WaitQueue.c in place: each queue is a chain through the tasks' WaitNext fields, and VirtIOInput.c's key ring
    sleeps and wakes on the first of them. */
module WaitQueues {
  import opened Prelude
  import opened ChunkSpec
  import opened SchedulerSpec
  import opened WaitSpec

  function Link(next: map<Task, Task>, t: Task): Task { if t in next then next[t] else NULL }

  ghost predicate LinkAt(next: map<Task, Task>, l: seq<Task>, i: nat)
    requires i < |l|
  {
    l[i] != NULL && Link(next, l[i]) == if i + 1 < |l| then l[i + 1] else NULL
  }

  /** `l` is the chain between Head and Tail. */
  ghost predicate Chained(next: map<Task, Task>, head: Task, tail: Task, l: seq<Task>) {
    && head == (if l == [] then NULL else l[0]) && tail == (if l == [] then NULL else l[|l| - 1])
    && forall i: nat :: i < |l| ==> LinkAt(next, l, i)
  }

  lemma {:induction false} ChainFrame(next: map<Task, Task>, head: Task, tail: Task, l: seq<Task>, t: Task, v: Task)
    requires Chained(next, head, tail, l) && t !in l
    ensures Chained(next[t := v], head, tail, l)
  {
    var after := next[t := v];
    forall i: nat | i < |l| ensures LinkAt(after, l, i) { assert LinkAt(next, l, i) && l[i] in l; }
  }

  /** Appending behind the tail; on an empty queue the head is the new task. */
  lemma {:induction false} ChainAppend(next: map<Task, Task>, head: Task, tail: Task, l: seq<Task>, t: Task)
    requires Chained(next, head, tail, l) && t !in l && t != NULL && NoDuplicates(l)
    ensures var after := next[t := NULL];
            Chained(if l == [] then after else after[tail := t], if l == [] then t else head, t, l + [t])
  {
    var after := if l == [] then next[t := NULL] else next[t := NULL][tail := t];
    var more := l + [t];
    forall i: nat | i < |more| ensures LinkAt(after, more, i) {
      if i < |l| {
        assert LinkAt(next, l, i) && l[i] in l;
        if i < |l| - 1 { assert l[i] != l[|l| - 1]; }
      }
    }
  }

  /** Unlinking position `i`, as WaitQueueDetach writes it. */
  lemma {:induction false} ChainCut(next: map<Task, Task>, head: Task, tail: Task, l: seq<Task>, i: nat)
    requires Chained(next, head, tail, l) && NoDuplicates(l) && i < |l|
    ensures var cut := l[..i] + l[i + 1..]; var t := l[i];
            && Dropped(l, t) == cut
            && Chained((if i == 0 then next else next[l[i - 1] := Link(next, t)])[t := NULL],
                       if i == 0 then Link(next, t) else head,
                       if tail == t then (if i == 0 then NULL else l[i - 1]) else tail, cut)
  {
    var cut, t := l[..i] + l[i + 1..], l[i];
    var after := (if i == 0 then next else next[l[i - 1] := Link(next, t)])[t := NULL];
    DroppedOrder(l, i);
    assert LinkAt(next, l, i);
    forall k: nat | k < |cut| ensures LinkAt(after, cut, k) {
      var j := if k < i then k else k + 1;
      assert cut[k] == l[j] && l[j] != t && LinkAt(next, l, j);
      if k + 1 == i { assert l[j] == l[i - 1]; }
      else { assert i > 0 ==> l[j] != l[i - 1]; assert k + 1 < |cut| ==> cut[k + 1] == l[j + 1]; }
    }
    if i + 1 < |l| { assert LinkAt(next, l, i + 1) && l[i] != l[|l| - 1]; }
  }

  /** A task on one queue is on no other. */
  lemma {:induction false} Elsewhere(w: Waits, q: nat, p: nat, t: Task)
    requires WaitsOk(w) && q < |w.lists| && p < |w.lists| && p != q && t in w.lists[q]
    ensures t !in w.lists[p]
  {
    assert QueuedOk(w, q, t);
  }

  class WaitLists {
    const heads: array<Task>
    const tails: array<Task>
    var next: map<Task, Task>
    var tasks: map<Task, Info>
    var running: set<Task>
    ghost var lists: seq<seq<Task>>

    ghost function View(): Waits reads this { Waits(lists, tasks, running) }

    ghost predicate Valid() reads this, heads, tails {
      && heads != tails && heads.Length == tails.Length == |lists|
      && (forall q :: 0 <= q < |lists| ==> Chained(next, heads[q], tails[q], lists[q]))
      && WaitsOk(View())
    }

    /** Unlinking position `i` of one queue leaves the chains of the others. */
    lemma Frames(q: nat, i: nat)
      requires Valid() && q < |lists| && i < |lists[q]|
      ensures var l := lists[q];
              var after := (if i == 0 then next else next[l[i - 1] := Link(next, l[i])])[l[i] := NULL];
              forall p :: 0 <= p < |lists| && p != q ==> Chained(after, heads[p], tails[p], lists[p])
    {
      hide Chained;
      var l := lists[q];
      forall p | 0 <= p < |lists| && p != q
        ensures Chained((if i == 0 then next else next[l[i - 1] := Link(next, l[i])])[l[i] := NULL], heads[p], tails[p], lists[p])
      {
        Elsewhere(View(), q, p, l[i]);
        if i == 0 { ChainFrame(next, heads[p], tails[p], lists[p], l[i], NULL); }
        else {
          Elsewhere(View(), q, p, l[i - 1]);
          ChainFrame(next, heads[p], tails[p], lists[p], l[i - 1], Link(next, l[i]));
          ChainFrame(next[l[i - 1] := Link(next, l[i])], heads[p], tails[p], lists[p], l[i], NULL);
        }
      }
    }

    method Detach(t: Task)
      requires Valid() && t in tasks
      modifies this`next, this`tasks, this`lists, heads, tails
      ensures Valid() && View() == WaitSpec.Detach(old(View()), t)
    {
      hide Chained, LinkAt;
      if tasks[t].queue.None? { return; }
      var q := tasks[t].queue.value;
      ghost var l, i := lists[q], 0;
      var previous, current := NULL, heads[q];
      ChainStart(next, heads[q], tails[q], l);
      while current != NULL && current != t
        invariant Valid() && View() == old(View()) && next == old(next)
        invariant 0 <= i <= |l| && t !in l[..i]
        invariant current == (if i < |l| then l[i] else NULL) && (current == NULL <==> i == |l|)
        invariant previous == (if i > 0 then l[i - 1] else NULL) && (previous == NULL <==> i == 0)
        decreases |l| - i
      {
        ChainStep(next, heads[q], tails[q], l, i);
        previous := current;
        current := Link(next, current);
        i := i + 1;
      }
      Unlink(t, q, i, previous);
    }

    /** The writes of WaitQueueDetach once the task is found at position `i`. */
    method Unlink(t: Task, q: nat, ghost i: nat, previous: Task)
      requires Valid() && t in tasks && tasks[t].queue == Some(q) && q < |lists| && i < |lists[q]| && lists[q][i] == t
      requires previous == (if i > 0 then lists[q][i - 1] else NULL) && (previous == NULL <==> i == 0)
      modifies this`next, this`tasks, this`lists, heads, tails
      ensures Valid() && View() == WaitSpec.Detach(old(View()), t)
    {
      hide Chained, LinkAt, Link, Dropped;
      DetachOk(View(), t);
      ChainCut(next, heads[q], tails[q], lists[q], i);
      Frames(q, i);
      ghost var cut := lists[q][..i] + lists[q][i + 1..];
      var link := Link(next, t);
      if previous == NULL { heads[q] := link; } else { next := next[previous := link]; }
      if tails[q] == t { tails[q] := previous; }
      tasks := tasks[t := tasks[t].(queue := None)];
      next := next[t := NULL];
      lists := lists[q := cut];
    }

    constructor (queues: nat)
      ensures Valid() && |lists| == queues && tasks == map[] && running == {} && forall q :: 0 <= q < queues ==> lists[q] == []
      ensures fresh(heads) && fresh(tails)
    {
      heads := new Task[queues](_ => NULL);
      tails := new Task[queues](_ => NULL);
      next, tasks, running := map[], map[], {};
      lists := seq(queues, _ => []);
    }

    /** The locked part of WaitQueueSleep for the calling task. */
    method SleepOn(q: nat, t: Task) returns (ok: bool)
      requires Valid() && q < |lists|
      modifies this`next, this`tasks, this`lists, heads, tails
      ensures Valid() && ok == Sleep(old(View()), q, t).Some?
      ensures View() == if ok then Sleep(old(View()), q, t).value else old(View())
    {
      if t !in tasks || tasks[t].idle { return false; }
      if !tasks[t].scheduled || !tasks[t].state.RUNNING? || tasks[t].queue.Some? { return false; }
      SleepOk(View(), q, t);
      AppendFrames(q, t);
      hide Chained, WaitsOk;
      next := next[t := NULL];
      if tails[q] == NULL { heads[q] := t; } else { next := next[tails[q] := t]; }
      tails[q] := t;
      tasks := tasks[t := tasks[t].(queue := Some(q), state := BLOCKED)];
      lists := lists[q := lists[q] + [t]];
      return true;
    }

    /** Every chain after a task was put behind the tail of one. */
    lemma AppendFrames(q: nat, t: Task)
      requires Valid() && q < |lists| && t in tasks && tasks[t].queue.None?
      ensures (tails[q] == NULL <==> lists[q] == []) && t !in lists[q]
      ensures var after := if lists[q] == [] then next[t := NULL] else next[t := NULL][tails[q] := t];
              && Chained(after, if lists[q] == [] then t else heads[q], t, lists[q] + [t])
              && forall p :: 0 <= p < |lists| && p != q ==> Chained(after, heads[p], tails[p], lists[p])
    {
      var w := View();
      hide Chained;
      NotQueued(w, t);
      ChainTail(next, heads[q], tails[q], lists[q]);
      ChainAppend(next, heads[q], tails[q], lists[q], t);
      forall p | 0 <= p < |lists| && p != q
        ensures Chained(if lists[q] == [] then next[t := NULL] else next[t := NULL][tails[q] := t], heads[p], tails[p], lists[p])
      {
        ChainFrame(next, heads[p], tails[p], lists[p], t, NULL);
        if lists[q] != [] {
          Elsewhere(w, q, p, tails[q]);
          ChainFrame(next[t := NULL], heads[p], tails[p], lists[p], tails[q], t);
        }
      }
    }

    /** One turn of WaitQueueWake: the first task, which may not have left its processor yet, can run again. */
    method WakeHead(q: nat)
      requires Valid() && q < |lists| && lists[q] != []
      modifies this`next, this`tasks, this`lists, heads, tails
      ensures Valid() && old(lists)[q][0] in old(tasks) && View() == WakeFirst(old(View()), q)
    {
      WakeFirstOk(View(), q);
      ghost var w := View();
      ChainStart(next, heads[q], tails[q], lists[q]);
      var t := heads[q];
      Detach(t);
      hide Chained;
      if tasks[t].scheduled && tasks[t].state.BLOCKED? {
        tasks := tasks[t := tasks[t].(state := if t in running then RUNNING else READY)];
      }
      assert View() == WakeFirst(w, q);
    }

    /** WaitQueueWake: one task or all of them, the longest sleeper first. */
    method Wake(q: nat, all: bool)
      requires Valid() && q < |lists|
      modifies this`next, this`tasks, this`lists, heads, tails
      ensures Valid() && WaitsCloser(old(View()), q)
      ensures all ==> View() == WakeAll(old(View()), q)
      ensures !all && old(lists)[q] == [] ==> View() == old(View())
      ensures !all && old(lists)[q] != [] ==> old(lists)[q][0] in old(tasks) && View() == WakeFirst(old(View()), q)
    {
      hide Chained, WaitsOk, WakeFirst, WaitsCloser;
      Closer(View(), q);
      ChainStart(next, heads[q], tails[q], lists[q]);
      while heads[q] != NULL
        invariant Valid() && |lists| == |old(lists)| && WaitsCloser(View(), q)
        invariant heads[q] == NULL <==> lists[q] == []
        invariant if all then WakeAll(View(), q) == WakeAll(old(View()), q) else View() == old(View())
        decreases |lists[q]|
      {
        ghost var w := View();
        WakeFirstOk(w, q);
        WakeHead(q);
        Closer(View(), q);
        ChainStart(next, heads[q], tails[q], lists[q]);
        if !all { return; }
      }
    }

    /** WaitQueueFinishTask without the run queue. */
    method FinishTask(t: Task, state: TaskState)
      requires Valid() && t in tasks
      modifies this`next, this`tasks, this`lists, heads, tails
      ensures Valid() && View() == WaitSpec.Finish(old(View()), t, state)
    {
      FinishOk(View(), t, state);
      ghost var w := View();
      Detach(t);
      hide Chained;
      tasks := tasks[t := tasks[t].(state := state)];
      assert View() == WaitSpec.Finish(w, t, state);
    }
  }

  // ---- The key ring ----

  /** The keys between the two indices, oldest first. */
  ghost function Keys(a: seq<Key>, read: nat, write: nat): seq<Key>
    requires |a| == RING && read < RING && write < RING
  {
    seq((write - read) % RING, i requires 0 <= i < (write - read) % RING => a[(read + i) % RING])
  }

  lemma {:induction false} KeysPush(a: seq<Key>, read: nat, write: nat, k: Key)
    requires |a| == RING && read < RING && write < RING && (write + 1) % RING != read
    ensures Keys(a[write := k], read, (write + 1) % RING) == Keys(a, read, write) + [k]
  {
    var n := (write - read) % RING;
    OneMoreKey(read, write);
    var more, keys := Keys(a[write := k], read, (write + 1) % RING), Keys(a, read, write);
    forall i | 0 <= i < n ensures more[i] == keys[i] { KeySlot(read, write, i); }
    assert more == keys + [k];
  }

  lemma {:induction false} OneMoreKey(read: nat, write: nat)
    requires read < RING && write < RING && (write + 1) % RING != read
    ensures ((write + 1) % RING - read) % RING == (write - read) % RING + 1 && (read + (write - read) % RING) % RING == write
  {
  }

  lemma {:induction false} KeySlot(read: nat, write: nat, i: nat)
    requires read < RING && write < RING && i < (write - read) % RING
    ensures (read + i) % RING != write
  {
  }

  lemma {:induction false} KeysPop(a: seq<Key>, read: nat, write: nat)
    requires |a| == RING && read < RING && write < RING && read != write
    ensures Keys(a, read, write) == [a[read]] + Keys(a, (read + 1) % RING, write)
  {
    var n := (write - read) % RING;
    var r := (read + 1) % RING;
    assert (write - r) % RING == n - 1 && n > 0;
    forall i | 0 <= i < n - 1 ensures Keys(a, read, write)[i + 1] == Keys(a, r, write)[i] {
      assert (r + i) % RING == (read + (i + 1)) % RING;
    }
  }

  class KeyRing {
    const events: array<Key>
    var readIndex: nat
    var writeIndex: nat
    const waits: WaitLists

    ghost predicate Valid()
      reads this, waits, waits.heads, waits.tails
    {
      events.Length == RING && readIndex < RING && writeIndex < RING && waits.Valid() && KEY_QUEUE < |waits.lists|
    }

    ghost function View(): Input
      reads this, events, waits
      requires events.Length == RING && readIndex < RING && writeIndex < RING
    {
      Input(Keys(events[..], readIndex, writeIndex), waits.View())
    }

    method PushKeyEvent(code: nat, pressed: bool)
      requires Valid() && WaitSpec.Inv(View())
      modifies this`writeIndex, events, waits`next, waits`tasks, waits`lists, waits.heads, waits.tails
      ensures Valid() && WaitSpec.Inv(View())
      ensures WaitsCloser(old(View()).waits, KEY_QUEUE) && View() == Push(old(View()), Key(code, pressed))
    {
      hide WaitsOk, WakeAll, WaitsCloser;
      PushMeaning(View(), Key(code, pressed));
      var nextIndex := (writeIndex + 1) % RING;
      FullIs(readIndex, writeIndex);
      if nextIndex == readIndex { return; }
      KeysPush(events[..], readIndex, writeIndex, Key(code, pressed));
      events[writeIndex] := Key(code, pressed);
      writeIndex := nextIndex;
      waits.Wake(KEY_QUEUE, true);
    }

    method GetKeyEvent() returns (k: Option<Key>)
      requires Valid()
      modifies this`readIndex
      ensures Valid() && (View(), k) == Get(old(View()))
    {
      FullIs(readIndex, writeIndex);
      if readIndex == writeIndex { return None; }
      KeysPop(events[..], readIndex, writeIndex);
      k := Some(events[readIndex]);
      readIndex := (readIndex + 1) % RING;
    }

    /** One turn of VirtIOInputWaitKeyEvent for the calling task. */
    method WaitKeyEvent(t: Task) returns (slept: bool)
      requires Valid() && WaitSpec.Inv(View())
      modifies waits`next, waits`tasks, waits`lists, waits.heads, waits.tails
      ensures Valid() && WaitSpec.Inv(View()) && (View(), slept) == Wait(old(View()), t)
    {
      hide WaitsOk;
      FullIs(readIndex, writeIndex);
      if readIndex != writeIndex { return false; }
      slept := waits.SleepOn(KEY_QUEUE, t);
    }

    constructor (lists: WaitLists)
      requires lists.Valid() && KEY_QUEUE < |lists.lists|
      ensures Valid() && waits == lists && View().keys == []
    {
      events := new Key[RING](_ => Key(0, false));
      readIndex, writeIndex, waits := 0, 0, lists;
    }
  }

  lemma {:induction false} FullIs(read: nat, write: nat)
    requires read < RING && write < RING
    ensures (write + 1) % RING == read <==> (write - read) % RING == RING - 1
    ensures write == read <==> (write - read) % RING == 0
  {
  }

  lemma {:induction false} ChainTail(next: map<Task, Task>, head: Task, tail: Task, l: seq<Task>)
    requires Chained(next, head, tail, l)
    ensures tail == (if l == [] then NULL else l[|l| - 1]) && (tail == NULL <==> l == [])
  {
    if l != [] { assert LinkAt(next, l, |l| - 1); }
  }

  lemma {:induction false} NotQueued(w: Waits, t: Task)
    requires WaitsOk(w) && t in w.tasks && w.tasks[t].queue.None?
    ensures t != NULL && forall p :: 0 <= p < |w.lists| ==> t !in w.lists[p]
  {
    forall p | 0 <= p < |w.lists| ensures t !in w.lists[p] {}
  }

  lemma {:induction false} ChainStart(next: map<Task, Task>, head: Task, tail: Task, l: seq<Task>)
    requires Chained(next, head, tail, l)
    ensures head == (if l == [] then NULL else l[0]) && (head == NULL <==> l == [])
  {
    if l != [] { assert LinkAt(next, l, 0); }
  }

  lemma {:induction false} ChainStep(next: map<Task, Task>, head: Task, tail: Task, l: seq<Task>, i: nat)
    requires Chained(next, head, tail, l) && i < |l|
    ensures l[i] != NULL && Link(next, l[i]) == (if i + 1 < |l| then l[i + 1] else NULL)
    ensures i + 1 < |l| ==> l[i + 1] != NULL
  {
    assert LinkAt(next, l, i);
    if i + 1 < |l| { assert LinkAt(next, l, i + 1); }
  }
}
