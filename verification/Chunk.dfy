/** The chunk of a run queue as LBPWRRChunk.c keeps it: an array rewritten in place under a live cursor. */
module ChunkArray {
  import opened Prelude
  import opened ChunkSpec

  class RunQueue {
    const tasks: array<Task>
    var count: nat
    var current: nat

    ghost predicate Valid() reads this, tasks { tasks.Length == CHUNK_MAX && count <= CHUNK_MAX }

    ghost function State(): Chunk
      reads this, tasks
      requires Valid()
    {
      Chunk(tasks[..count], current)
    }

    constructor ()
      ensures Valid() && State() == Chunk([], 0)
    {
      tasks := new Task[CHUNK_MAX];
      count, current := 0, 0;
    }

    /** The new state is `r`, or the old one when there is none. */
    twostate predicate Became(ok: bool, r: Option<Chunk>)
      reads this, tasks
      requires old(Valid())
    {
      && Valid() && ok == r.Some?
      && State() == if ok then r.value else old(State())
    }

    method ChunkInsert(task: Task, weight: nat) returns (ok: bool)
      requires Valid()
      modifies this, tasks
      ensures Became(ok, Insert(old(State()), task, weight))
    {
      hide Inserting, Inserted, NewCursor, Share;
      if task == NULL || weight == 0 || weight > MAX_WEIGHT { return false; }
      var oldCount := count;
      if weight > CHUNK_MAX - oldCount { return false; }
      if oldCount != 0 && current >= oldCount { return false; }
      ghost var s := tasks[..count];
      var newCount := oldCount + weight;
      var read := oldCount;
      var newCurrent := 0;
      var index := newCount;
      assert tasks[..newCount][..|s|] == s;
      InsertingStart(s, task, weight, current, tasks[..newCount]);
      while index > 0
        invariant 0 <= index <= newCount && 0 <= read <= oldCount
        invariant count == oldCount && current == old(current)
        invariant Inserting(s, task, weight, current, tasks[..newCount], index, read, newCurrent)
      {
        ghost var a := tasks[..newCount];
        InsertingStep(s, task, weight, current, a, index, read, newCurrent);
        var position := index - 1;
        var target := (position + 1) * weight / newCount;
        var previous := position * weight / newCount;
        if target != previous {
          tasks[position] := task;
          assert tasks[..newCount] == a[position := task];
        } else {
          read := read - 1;
          tasks[position] := tasks[read];
          if read == current { newCurrent := position; }
          assert tasks[..newCount] == a[position := a[read]];
        }
        index := index - 1;
      }
      InsertingEnd(s, task, weight, current, tasks[..newCount], read, newCurrent);
      count := newCount;
      current := newCurrent;
      ok := true;
    }

    /** The tail of both compacting loops: blanks the slots given up and places the cursor. */
    method Settle(write: nat, foundBefore: bool, newCurrent: nat)
      requires Valid() && write <= count && (foundBefore ==> newCurrent < write)
      modifies this, tasks
      ensures Valid() && count == write && tasks[..write] == old(tasks[..write])
      ensures current == if write == 0 then 0 else if foundBefore then newCurrent else write - 1
    {
      var read := write;
      while read < count
        invariant write <= read <= count == old(count) && tasks[..write] == old(tasks[..write])
      {
        tasks[read] := NULL;
        read := read + 1;
      }
      count := write;
      if write == 0 { current := 0; }
      else if foundBefore { current := newCurrent; }
      else { current := write - 1; }
    }

    method ChunkRemove(task: Task) returns (ok: bool)
      requires Valid()
      modifies this, tasks
      ensures Became(ok, Remove(old(State()), task))
    {
      hide Rank, Kept, Compacting, KeptCursor;
      if task == NULL { return false; }
      if count != 0 && current >= count { return false; }
      ghost var s := tasks[..count];
      ghost var keep := KeepOthers(s, task);
      var read, write, newCurrent, foundBefore := 0, 0, 0, false;
      CompactStart(s, keep, current);
      while read < count
        invariant 0 <= write <= read <= count == |s| && current == old(current)
        invariant Compacting(s, keep, current, tasks[..count], read, write, foundBefore, newCurrent)
      {
        CompactStep(s, keep, current, tasks[..count], read, write, foundBefore, newCurrent);
        ghost var a := tasks[..count];
        if tasks[read] != task {
          if read <= current { newCurrent, foundBefore := write, true; }
          tasks[write] := tasks[read];
          assert tasks[..count] == a[write := a[read]];
          write := write + 1;
        }
        read := read + 1;
      }
      CompactEnd(s, keep, current, tasks[..count], write, foundBefore, newCurrent);
      assert tasks[..count][..write] == tasks[..write];
      Settle(write, foundBefore, newCurrent);
      ok := true;
    }

    method ChunkUpdate(task: Task, weight: nat) returns (ok: bool)
      requires Valid()
      modifies this, tasks
      ensures Became(ok, Update(old(State()), task, weight))
    {
      if task == NULL || weight == 0 || weight > MAX_WEIGHT { return false; }
      if count != 0 && current >= count { return false; }
      var oldWeight := CountCopies(task);
      if oldWeight == weight { return true; }
      if oldWeight < weight { ok := ChunkInsert(task, weight - oldWeight); return; }
      ShrinkCopies(task, weight, oldWeight);
      ok := true;
    }

    method CountCopies(task: Task) returns (n: nat)
      requires Valid()
      ensures n == Count(tasks[..count], task)
    {
      ghost var s := tasks[..count];
      n := 0;
      var read := 0;
      assert s[..0] == [] && s[..count] == s;
      while read < count
        invariant 0 <= read <= count && n == Count(s[..read], task)
      {
        Snoc(s, read + 1, task);
        if tasks[read] == task { n := n + 1; }
        read := read + 1;
      }
    }

    /** Drops copies of `task` evenly until `weight` of its `oldWeight` remain. */
    method ShrinkCopies(task: Task, weight: nat, oldWeight: nat)
      requires Valid() && CursorOk(State()) && oldWeight == Count(tasks[..count], task) && 1 <= weight < oldWeight
      modifies this, tasks
      ensures Valid() && State() == Compact(old(State()), KeepShare(old(tasks[..count]), task, weight))
    {
      hide Rank, Kept, Compacting, Count, KeptCursor, KeepShare;
      ghost var s := tasks[..count];
      ghost var keep := KeepShare(s, task, weight);
      var read, write, seen, newCurrent, foundBefore := 0, 0, 0, 0, false;
      CompactStart(s, keep, current);
      NoneSeen(task);
      while read < count
        invariant 0 <= write <= read <= count == |s| && current == old(current)
        invariant seen == Count(s[..read], task)
        invariant Compacting(s, keep, current, tasks[..count], read, write, foundBefore, newCurrent)
      {
        CompactStep(s, keep, current, tasks[..count], read, write, foundBefore, newCurrent);
        ShareKept(s, task, weight, read);
        ghost var a := tasks[..count];
        var skip := false;
        if tasks[read] == task {
          var target := (seen + 1) * weight / oldWeight;
          var previous := seen * weight / oldWeight;
          seen := seen + 1;
          skip := target == previous;
        }
        if !skip {
          if read <= current { newCurrent, foundBefore := write, true; }
          tasks[write] := tasks[read];
          assert tasks[..count] == a[write := a[read]];
          write := write + 1;
        }
        read := read + 1;
      }
      CompactEnd(s, keep, current, tasks[..count], write, foundBefore, newCurrent);
      assert tasks[..count][..write] == tasks[..write];
      Settle(write, foundBefore, newCurrent);
    }

    method LBPWRRModifyChunk(task: Task, priority: nat) returns (ok: bool)
      requires Valid()
      modifies this, tasks
      ensures Became(ok, Modify(old(State()), task, priority))
    {
      if task == NULL || priority > MAX_WEIGHT { return false; }
      if priority == 0 { ok := ChunkRemove(task); return; }
      var exists_ := false;
      var index := 0;
      while index < count
        invariant 0 <= index <= count && task !in tasks[..index] && !exists_
      {
        if tasks[index] == task { exists_ := true; break; }
        index := index + 1;
      }
      assert exists_ == (task in tasks[..count]);
      if !exists_ { ok := ChunkInsert(task, priority); } else { ok := ChunkUpdate(task, priority); }
    }
  }
}
