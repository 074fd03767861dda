/** How soon, and how often, the ticks of one processor run a task while its chunk stays the same. */
module SchedulerFairness {
  import opened Prelude
  import opened ChunkSpec
  import opened SchedulerSpec
  import opened SchedulerProofs
  import opened SchedulerRuns

  lemma {:induction false} GapOf(start: nat, k: nat, n: nat)
    requires start <= n && k < n
    ensures Gap(start, (start + k) % n, n) == k
  {
    WrapMod(start + k, n);
  }

  /** The search stops no later than at any slot it could stop at. */
  lemma {:induction false} SearchFirst(s: State, a: seq<Task>, start: nat, idle: bool, k: nat, j: nat)
    requires start <= |a| && j < |a| && Eligible(s, a[j], idle) && k <= Gap(start, j, |a|)
    ensures FirstSlot(s, a, start, idle, k).Some?
    ensures Gap(start, FirstSlot(s, a, start, idle, k).value, |a|) <= Gap(start, j, |a|)
    decreases |a| - k
  {
    GapReaches(start, j, |a|);
    GapOf(start, k, |a|);
    if !Eligible(s, a[(start + k) % |a|], idle) { SearchFirst(s, a, start, idle, k + 1, j); }
  }

  /** What tick `k` finds: processor `c` busy, its chunk `a` not changed by any sleeper that wakes. */
  ghost predicate Steady(s: State, c: nat, now: nat, a: seq<Task>) {
    && Inv(s) && c < |s.queues| && s.switching[c] == NULL && s.current[c] != NULL && a != []
    && s.queues[c].chunk.tasks == a
    && WakeSome(s, c, now, |s.queues[c].runnable|).queues[c].chunk == s.queues[c].chunk
  }

  /** The state in which tick looks for the next task. */
  function Looking(s: State, c: nat, now: nat): State
    requires c < |s.queues| && c < |s.current|
  {
    Paused(WakeSome(s, c, now, |s.queues[c].runnable|), c)
  }

  lemma {:induction false} LookingSame(s: State, c: nat, now: nat, a: seq<Task>)
    requires Steady(s, c, now, a)
    ensures Looking(s, c, now).queues[c].chunk == s.queues[c].chunk && Looking(s, c, now).current == s.current
    ensures s.queues[c].chunk.current < |a|
  {
    assert QueueOk(s, c);
  }

  /** Each tick moves the cursor forward, and never past a slot whose task is ready. */
  lemma {:induction false} TickMoves(s: State, c: nat, now: nat, a: seq<Task>, p: nat)
    requires Steady(s, c, now, a) && p < |a| && Eligible(Looking(s, c, now), a[p], false)
    ensures Tick(s, c, now).Ticked? && s.queues[c].chunk.current < |a|
    ensures var v := Tick(s, c, now).s; var q := v.queues[c].chunk.current; var start := s.queues[c].chunk.current + 1;
            && v.queues[c].chunk.tasks == a && q < |a| && v.current[c] == a[q]
            && Gap(start, q, |a|) <= Gap(start, p, |a|)
            && FirstSlot(Looking(s, c, now), a, start, false, 0) == Some(q)
  {
    LookingSame(s, c, now, a);
    SearchFirst(Looking(s, c, now), a, s.queues[c].chunk.current + 1, false, 0, p);
  }

  /** A tick takes the first ready slot after the cursor, or from it when nothing was current; an idle task's slot only
      if no other task is ready, and then the first from the cursor. */
  lemma {:induction false} TickOrder(s: State, c: nat, now: nat, p: nat)
    requires Inv(s) && c < |s.queues| && c < |s.current| && c < |s.switching| && s.switching[c] == NULL
    requires Tick(s, c, now).Ticked? && p < |Looking(s, c, now).queues[c].chunk.tasks|
    ensures var s1 := Looking(s, c, now); var a := s1.queues[c].chunk.tasks; var v := Tick(s, c, now).s;
            var cursor := s1.queues[c].chunk.current; var q := v.queues[c].chunk.current;
            var from := if s.current[c] == NULL then cursor else cursor + 1;
            && cursor < |a| == |v.queues[c].chunk.tasks|
            && (Eligible(s1, a[p], false) ==> q < |a| && v.current[c] == a[q] && Eligible(s1, a[q], false) && Gap(from, q, |a|) <= Gap(from, p, |a|))
            && (Eligible(s1, a[p], true) && (forall j :: 0 <= j < |a| ==> !Eligible(s1, a[j], false)) ==>
                  q < |a| && v.current[c] == a[q] && Eligible(s1, a[q], true) && Gap(cursor, q, |a|) <= Gap(cursor, p, |a|))
  {
    WakeSomeKeeps(s, c, now, |s.queues[c].runnable|);
    PausedKeeps(WakeSome(s, c, now, |s.queues[c].runnable|), c);
    var s1 := Looking(s, c, now);
    assert QueueOk(s1, c);
    var a, cursor := s1.queues[c].chunk.tasks, s1.queues[c].chunk.current;
    hide WakeSome, Inv;
    if Eligible(s1, a[p], false) { SearchFirst(s1, a, if s.current[c] == NULL then cursor else cursor + 1, false, 0, p); }
    if Eligible(s1, a[p], true) { SearchFirst(s1, a, cursor, true, 0, p); }
  }

  /** A run of ticks on one processor, with whatever happens elsewhere in between. */
  ghost predicate Ticks(us: seq<State>, nows: seq<nat>, c: nat, a: seq<Task>) {
    && |nows| == |us|
    && (forall k :: 0 <= k < |us| ==> Steady(us[k], c, nows[k], a) && Tick(us[k], c, nows[k]).Ticked?)
    && forall k :: 1 <= k < |us| ==> Tick(us[k - 1], c, nows[k - 1]).s.queues[c].chunk == us[k].queues[c].chunk
  }

  function Ran(us: seq<State>, nows: seq<nat>, c: nat, k: nat): Task
    requires k < |us| == |nows| && Tick(us[k], c, nows[k]).Ticked? && c < |Tick(us[k], c, nows[k]).s.current|
  {
    Tick(us[k], c, nows[k]).s.current[c]
  }

  lemma {:induction false} DispatchedFrom(us: seq<State>, nows: seq<nat>, c: nat, a: seq<Task>, p: nat, k: nat) returns (m: nat)
    requires Ticks(us, nows, c, a) && p < |a| && k < |us|
    requires forall i :: 0 <= i < |us| ==> Eligible(Looking(us[i], c, nows[i]), a[p], false)
    requires us[k].queues[c].chunk.current < |a| && Gap(us[k].queues[c].chunk.current + 1, p, |a|) < |us| - k
    ensures k <= m < |us| && c < |Tick(us[m], c, nows[m]).s.current| && Ran(us, nows, c, m) == a[p]
    decreases |us| - k
  {
    assert Steady(us[k], c, nows[k], a);
    TickMoves(us[k], c, nows[k], a, p);
    var q := Tick(us[k], c, nows[k]).s.queues[c].chunk.current;
    if a[q] == a[p] {
      m := k;
    } else {
      m := DispatchedFrom(us, nows, c, a, p, k + 1);
    }
  }

  /** A task that is ready at every tick runs within as many ticks as the chunk has slots. */
  lemma {:induction false} DispatchedInTime(us: seq<State>, nows: seq<nat>, c: nat, a: seq<Task>, t: Task) returns (m: nat)
    requires Ticks(us, nows, c, a) && |us| == |a| && t in a
    requires forall i :: 0 <= i < |us| ==> Eligible(Looking(us[i], c, nows[i]), t, false)
    ensures m < |us| && c < |Tick(us[m], c, nows[m]).s.current| && Ran(us, nows, c, m) == t
  {
    var p :| 0 <= p < |a| && a[p] == t;
    assert Steady(us[0], c, nows[0], a);
    LookingSame(us[0], c, nows[0], a);
    m := DispatchedFrom(us, nows, c, a, p, 0);
  }

  // Every non-idle slot ready at every tick: the cursor visits them in turn.

  ghost predicate AllReady(us: seq<State>, nows: seq<nat>, c: nat, a: seq<Task>, keep: seq<bool>)
    requires Ticks(us, nows, c, a) && |keep| == |a|
  {
    forall k, j :: 0 <= k < |us| && 0 <= j < |a| ==> keep[j] == Eligible(Looking(us[k], c, nows[k]), a[j], false)
  }

  lemma {:induction false} FirstIsNext(s: State, a: seq<Task>, keep: seq<bool>, cursor: nat)
    requires cursor < |a| == |keep| && Rank(keep, |keep|) > 0
    requires forall j :: 0 <= j < |a| ==> keep[j] == Eligible(s, a[j], false)
    ensures FirstSlot(s, a, cursor + 1, false, 0) == Some(NextKept(keep, cursor))
  {
    CursorRank(keep, cursor);
    var q := NextKept(keep, cursor);
    var start := cursor + 1;
    SearchFirst(s, a, start, false, 0, q);
    var r := FirstSlot(s, a, start, false, 0).value;
    NothingBefore(keep, start);
    NothingBefore(keep, 0);
  }

  lemma {:induction false} NothingBefore(keep: seq<bool>, i: nat)
    requires i <= |keep|
    ensures forall j :: i <= j < FirstKept(keep, i) ==> !keep[j]
    decreases |keep| - i
  {
    if i < |keep| && !keep[i] { NothingBefore(keep, i + 1); }
  }

  /** One tick: the next kept slot after the cursor. */
  lemma {:induction false} RanNext(s: State, c: nat, now: nat, a: seq<Task>, keep: seq<bool>)
    requires Steady(s, c, now, a) && |keep| == |a| && Rank(keep, |keep|) > 0
    requires forall j :: 0 <= j < |a| ==> keep[j] == Eligible(Looking(s, c, now), a[j], false)
    ensures c < |s.queues| && s.queues[c].chunk.current < |a| && Tick(s, c, now).Ticked?
    ensures var v := Tick(s, c, now).s; var m := Rank(keep, |keep|);
            && c < |v.current| && c < |v.queues| && v.queues[c].chunk.current < |a| && keep[v.queues[c].chunk.current]
            && Rank(keep, v.queues[c].chunk.current) == (KeptCursor(keep, s.queues[c].chunk.current) + 1) % m < m
            && v.current[c] == Kept(a, keep, |a|)[Rank(keep, v.queues[c].chunk.current)]
  {
    LookingSame(s, c, now, a);
    CursorRank(keep, s.queues[c].chunk.current);
    FirstIsNext(Looking(s, c, now), a, keep, s.queues[c].chunk.current);
    var q := NextKept(keep, s.queues[c].chunk.current);
    TickMoves(s, c, now, a, q);
    KeptAt(a, keep, q, |a|);
  }

  /** Tick `k` runs the task `k` places further round the ready slots. */
  lemma {:induction false} RanAt(us: seq<State>, nows: seq<nat>, c: nat, a: seq<Task>, keep: seq<bool>, k: nat)
    requires Ticks(us, nows, c, a) && |keep| == |a| && AllReady(us, nows, c, a, keep) && k < |us|
    requires Rank(keep, |keep|) > 0 && c < |us[0].queues| && us[0].queues[c].chunk.current < |a|
    ensures var m := Rank(keep, |keep|); var first := KeptCursor(keep, us[0].queues[c].chunk.current) + 1;
            var v := Tick(us[k], c, nows[k]).s;
            && c < |v.current| && c < |v.queues| && v.queues[c].chunk.current < |a| && keep[v.queues[c].chunk.current]
            && Rank(keep, v.queues[c].chunk.current) == (first + k) % m < m
            && v.current[c] == Kept(a, keep, |a|)[(first + k) % m]
    decreases k
  {
    hide Tick, Kept, Rank, KeptCursor, Looking, Steady, Eligible;
    assert Steady(us[k], c, nows[k], a);
    RanNext(us[k], c, nows[k], a, keep);
    if k > 0 {
      RanAt(us, nows, c, a, keep, k - 1);
      var before := us[k].queues[c].chunk.current;
      CursorRank(keep, before);
      ModAdd(KeptCursor(keep, us[0].queues[c].chunk.current) + k, 1, Rank(keep, |keep|));
    }
  }

  lemma {:induction false} ModIs(x: nat, q: nat, r: nat, n: nat)
    requires n > 0 && r < n && x == q * n + r
    ensures x % n == r
  {
    DivIs(x, q, r, n);
    assert x == x / n * n + x % n;
  }

  lemma {:induction false} ModAdd(x: nat, k: nat, m: nat)
    requires m > 0
    ensures (x % m + k) % m == (x + k) % m
  {
    var q, y := x / m, x % m + k;
    assert x == q * m + x % m && y == y / m * m + y % m;
    assert (q + y / m) * m == q * m + y / m * m;
    ModIs(x + k, q + y / m, y % m, m);
  }

  function RanSeq(us: seq<State>, nows: seq<nat>, c: nat, a: seq<Task>, n: nat): (r: seq<Task>)
    requires Ticks(us, nows, c, a) && n <= |us|
    requires forall k :: 0 <= k < |us| ==> c < |Tick(us[k], c, nows[k]).s.current|
    ensures |r| == n
  {
    seq(n, k requires 0 <= k < n => Ran(us, nows, c, k))
  }

  lemma {:induction false} CountAppend(x: seq<Task>, y: seq<Task>, t: Task)
    ensures Count(x + y, t) == Count(x, t) + Count(y, t)
  {
    if y == [] { assert x + y == x; }
    else {
      var z := y[..|y| - 1];
      assert (x + y)[..|x + y| - 1] == x + z;
      CountAppend(x, z, t);
    }
  }

  /** A rotation holds each task as often as the original. */
  lemma {:induction false} CountRotated(x: seq<Task>, y: seq<Task>, r: nat, t: Task)
    requires |x| == |y| && r < |x| && forall k :: 0 <= k < |x| ==> y[k] == x[(r + k) % |x|]
    ensures Count(y, t) == Count(x, t)
  {
    forall k | 0 <= k < |x| ensures y[k] == (x[r..] + x[..r])[k] { WrapMod(r + k, |x|); }
    assert y == x[r..] + x[..r] && x == x[..r] + x[r..];
    CountAppend(x[r..], x[..r], t);
    CountAppend(x[..r], x[r..], t);
  }

  lemma {:induction false} CountKept(a: seq<Task>, keep: seq<bool>, t: Task, i: nat)
    requires |a| == |keep| && i <= |a| && forall j :: 0 <= j < |a| && a[j] == t ==> keep[j]
    ensures Count(Kept(a, keep, i), t) == Count(a[..i], t)
    decreases i
  {
    assert a[..0] == [];
    if i > 0 {
      CountKept(a, keep, t, i - 1);
      Snoc(a, i, t);
      Append(Kept(a, keep, i - 1), a[i - 1], t);
    }
  }

  /** While every non-idle slot stays ready, as many ticks as there are such slots run each task exactly as
      often as it has slots in the chunk, which is its weight. */
  lemma {:induction false} WeightedShare(us: seq<State>, nows: seq<nat>, c: nat, a: seq<Task>, keep: seq<bool>, t: Task)
    requires Ticks(us, nows, c, a) && |keep| == |a| && AllReady(us, nows, c, a, keep)
    requires |us| == Rank(keep, |keep|) > 0 && forall j :: 0 <= j < |a| && a[j] == t ==> keep[j]
    ensures forall k :: 0 <= k < |us| ==> c < |Tick(us[k], c, nows[k]).s.current|
    ensures Count(RanSeq(us, nows, c, a, |us|), t) == Count(a, t)
  {
    var m := Rank(keep, |keep|);
    assert Steady(us[0], c, nows[0], a);
    LookingSame(us[0], c, nows[0], a);
    var first := KeptCursor(keep, us[0].queues[c].chunk.current) + 1;
    var x := Kept(a, keep, |a|);
    var r := first % m;
    forall k | 0 <= k < |us|
      ensures c < |Tick(us[k], c, nows[k]).s.current| && Ran(us, nows, c, k) == x[(r + k) % m]
    {
      RanAt(us, nows, c, a, keep, k);
      ModAdd(first, k, m);
    }
    CountRotated(x, RanSeq(us, nows, c, a, |us|), r, t);
    CountKept(a, keep, t, |a|);
    assert a[..|a|] == a;
  }
}
