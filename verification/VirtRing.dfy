/** The available and used rings of a split virtqueue: 16-bit indices that wrap over a power-of-two ring. */
module VirtRing {
  import opened Prelude

  const INDEX := 0x1_0000

  /** `available` and `availIndex` are the driver's, `used` and `deviceIndex` the device's; `usedIndex` is how far
      the driver has read. */
  datatype Rings = Rings(available: seq<nat>, availIndex: nat, used: seq<(nat, nat)>, deviceIndex: nat, usedIndex: nat)

  function Next(i: nat): nat { (i + 1) % INDEX }

  predicate Sized(r: Rings) { |r.available| == |r.used| > 0 }

  /** VirtQueueSubmit on a valid head. */
  function Submit(r: Rings, head: nat): Rings
    requires Sized(r)
  {
    r.(available := r.available[r.availIndex % |r.available| := head], availIndex := Next(r.availIndex))
  }

  /** VirtQueuePopUsed: the entry, before its head is checked. */
  function Pop(r: Rings): (Rings, Option<(nat, nat)>)
    requires Sized(r)
  {
    if r.deviceIndex == r.usedIndex then (r, None)
    else (r.(usedIndex := Next(r.usedIndex)), Some(r.used[r.usedIndex % |r.used|]))
  }

  /** The device reports a finished chain. */
  function Complete(r: Rings, head: nat, length: nat): Rings
    requires Sized(r)
  {
    r.(used := r.used[r.deviceIndex % |r.used| := (head, length)], deviceIndex := Next(r.deviceIndex))
  }

  /** Ring slot of the `k`-th entry from index `i` on. */
  function Slot(i: nat, k: nat, n: nat): (s: nat)
    requires n > 0
    ensures s < n
  {
    (i + k) % INDEX % n
  }

  predicate PowerSize(n: nat) { n > 0 && INDEX % n == 0 }

  /** The entries a ring holds from index `i` on. */
  ghost predicate Holds<T>(ring: seq<T>, i: nat, entries: seq<T>) {
    |entries| <= |ring| && forall k: nat :: k < |entries| ==> ring[Slot(i, k, |ring|)] == entries[k]
  }

  /** `queued` heads are not fetched, `running` ones are with the device, `finished` ones are not popped. */
  ghost predicate IndexesOk(r: Rings, seen: nat, queued: nat, running: nat, finished: nat) {
    && r.availIndex < INDEX && r.deviceIndex < INDEX && r.usedIndex < INDEX && seen < INDEX
    && queued + running + finished <= |r.available| <= 32768
    && r.availIndex == (seen + queued) % INDEX
    && r.deviceIndex == (r.usedIndex + finished) % INDEX
    && (r.availIndex - r.usedIndex) % INDEX == queued + running + finished
  }

  /** The rings between driver and device; `seen` is the device's available index. */
  ghost predicate RingsOk(r: Rings, seen: nat, queued: seq<nat>, running: nat, finished: seq<(nat, nat)>) {
    && Sized(r) && PowerSize(|r.available|)
    && IndexesOk(r, seen, |queued|, running, |finished|)
    && Holds(r.available, seen, queued)
    && Holds(r.used, r.usedIndex, finished)
  }

  /** The two lengths a ring index reduces by agree because the size divides 2^16. */
  lemma {:induction false} TwiceReduced(x: nat, n: nat)
    requires PowerSize(n)
    ensures x % INDEX % n == x % n
  {
    var k := INDEX / n;
    assert INDEX == k * n;
    var q := x / INDEX;
    assert x == q * INDEX + x % INDEX;
    AddMultiple(x % INDEX, q * k, n);
    assert q * INDEX == (q * k) * n;
  }

  lemma {:induction false} AddMultiple(x: nat, q: nat, n: nat)
    requires n > 0
    ensures (x + q * n) % n == x % n
  {
    var r := x % n;
    assert x == x / n * n + r;
    assert x + q * n == (x / n + q) * n + r;
    RemainderIs(x + q * n, x / n + q, r, n);
  }

  lemma {:induction false} RemainderIs(x: nat, q: nat, r: nat, n: nat)
    requires r < n && x == q * n + r
    ensures x % n == r
  {
    DivIs(x, q, r, n);
    assert x == x / n * n + x % n;
  }

  /** Fewer than a ring apart, two entries have different slots. */
  lemma {:induction false} SlotsDiffer(i: nat, a: nat, b: nat, n: nat)
    requires PowerSize(n) && a < b < a + n
    ensures Slot(i, a, n) != Slot(i, b, n)
  {
    TwiceReduced(i + a, n);
    TwiceReduced(i + b, n);
    ResiduesDiffer(i + a, i + b, n);
  }

  lemma {:induction false} ResiduesDiffer(x: nat, y: nat, n: nat)
    requires x < y < x + n
    ensures x % n != y % n
  {
    var p, q := x / n, y / n;
    assert x == p * n + x % n && y == q * n + y % n;
    MulSign(q - p, n);
    Difference(p, q, n);
  }

  lemma {:induction false} Difference(p: nat, q: nat, n: nat)
    ensures q * n - p * n == (q - p) * n
  {
  }

  lemma {:induction false} NextIndex(i: nat, k: nat)
    ensures (Next(i) + k) % INDEX == (i + (k + 1)) % INDEX
  {
  }

  lemma {:induction false} Behind(i: nat, k: nat)
    ensures Next((i + k) % INDEX) == (i + (k + 1)) % INDEX
  {
  }

  /** The wrapped distance of two indices grows and shrinks by one. */
  lemma {:induction false} Distance(a: nat, u: nat)
    requires a < INDEX && u < INDEX
    ensures (a - u) % INDEX < INDEX - 1 ==> (Next(a) - u) % INDEX == (a - u) % INDEX + 1
    ensures (a - u) % INDEX > 0 ==> (a - Next(u)) % INDEX == (a - u) % INDEX - 1
  {
  }

  /** Writing the slot behind the last entry appends it and keeps the others. */
  lemma {:induction false} HoldsAppend<T>(ring: seq<T>, i: nat, entries: seq<T>, x: T)
    requires PowerSize(|ring|) && Holds(ring, i, entries) && |entries| < |ring|
    ensures Holds(ring[Slot(i, |entries|, |ring|) := x], i, entries + [x])
  {
    hide Slot;
    var n, m := |ring|, |entries|;
    var after, more := ring[Slot(i, m, n) := x], entries + [x];
    forall k: nat | k < |more| ensures after[Slot(i, k, n)] == more[k] {
      if k < m { SlotsDiffer(i, k, m, n); }
    }
  }

  lemma {:induction false} HoldsDrop<T>(ring: seq<T>, i: nat, entries: seq<T>)
    requires PowerSize(|ring|) && Holds(ring, i, entries) && entries != [] && i < INDEX
    ensures ring[i % |ring|] == entries[0] && Holds(ring, Next(i), entries[1..])
  {
    var n := |ring|;
    assert Slot(i, 0, n) == i % n;
    forall k: nat | k < |entries| - 1 ensures ring[Slot(Next(i), k, n)] == entries[1..][k] {
      NextIndex(i, k);
      assert Slot(Next(i), k, n) == Slot(i, k + 1, n);
    }
  }

  lemma {:induction false} NextBelow(i: nat)
    ensures Next(i) < INDEX
  {
  }

  lemma {:induction false} NotEmpty(u: nat, k: nat)
    requires u < INDEX && 0 < k < INDEX
    ensures (u + k) % INDEX != u
  {
  }

  lemma {:induction false} IndexPop(r: Rings, seen: nat, queued: nat, running: nat, finished: nat)
    requires IndexesOk(r, seen, queued, running, finished)
    ensures r.usedIndex < INDEX && (r.deviceIndex == r.usedIndex <==> finished == 0)
    ensures finished > 0 ==> IndexesOk(r.(usedIndex := Next(r.usedIndex)), seen, queued, running, finished - 1)
  {
    hide Next;
    if finished > 0 {
      NotEmpty(r.usedIndex, finished);
      NextIndex(r.usedIndex, finished - 1);
      NextBelow(r.usedIndex);
      Distance(r.availIndex, r.usedIndex);
    }
  }

  // ---- Steps ----

  /** Submitting writes a slot no unread entry uses. */
  lemma {:induction false} SubmitKeeps(r: Rings, seen: nat, queued: seq<nat>, running: nat, finished: seq<(nat, nat)>, head: nat)
    requires RingsOk(r, seen, queued, running, finished) && |queued| + running + |finished| < |r.available|
    ensures RingsOk(Submit(r, head), seen, queued + [head], running, finished)
  {
    hide Holds, Next, PowerSize;
    HoldsAppend(r.available, seen, queued, head);
    Behind(seen, |queued|);
    Distance(r.availIndex, r.usedIndex);
    assert r.availIndex % |r.available| == Slot(seen, |queued|, |r.available|);
    NextBelow(r.availIndex);
  }

  /** The device fetches the oldest unread entry. */
  lemma {:induction false} FetchKeeps(r: Rings, seen: nat, queued: seq<nat>, running: nat, finished: seq<(nat, nat)>)
    requires RingsOk(r, seen, queued, running, finished) && queued != []
    ensures r.available[seen % |r.available|] == queued[0]
    ensures RingsOk(r, Next(seen), queued[1..], running + 1, finished)
  {
    hide Holds, Next, PowerSize, Slot;
    HoldsDrop(r.available, seen, queued);
    NextIndex(seen, |queued| - 1);
    NextBelow(seen);
  }

  /** The device's report overwrites no entry the driver has not popped. */
  lemma {:induction false} CompleteKeeps(r: Rings, seen: nat, queued: seq<nat>, running: nat, finished: seq<(nat, nat)>,
                                         head: nat, length: nat)
    requires RingsOk(r, seen, queued, running, finished) && running > 0
    ensures RingsOk(Complete(r, head, length), seen, queued, running - 1, finished + [(head, length)])
  {
    hide Holds, Next, PowerSize;
    HoldsAppend(r.used, r.usedIndex, finished, (head, length));
    Behind(r.usedIndex, |finished|);
    assert r.deviceIndex % |r.used| == Slot(r.usedIndex, |finished|, |r.used|);
    NextBelow(r.deviceIndex);
  }

  /** Popping yields the oldest unpopped report, and nothing exactly when there is none. */
  lemma {:induction false} PopKeeps(r: Rings, seen: nat, queued: seq<nat>, running: nat, finished: seq<(nat, nat)>)
    requires RingsOk(r, seen, queued, running, finished)
    ensures var (r', e) := Pop(r);
            if finished == [] then e.None? && r' == r
            else e == Some(finished[0]) && RingsOk(r', seen, queued, running, finished[1..])
  {
    hide Holds, Next, PowerSize, Slot, IndexesOk;
    IndexPop(r, seen, |queued|, running, |finished|);
    if finished != [] {
      HoldsDrop(r.used, r.usedIndex, finished);
    }
  }
}
