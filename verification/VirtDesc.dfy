/** The descriptor table of VirtQueue.c on values: a free list threaded through the unused descriptors and the
    chains the driver builds out of them. */
module VirtDesc {
  import opened Prelude

  const NONE := 0xFFFF
  const MAX_SIZE := 32768

  /** One descriptor; `more` and `write` are its two flags. */
  datatype Desc = Desc(address: nat, length: nat, write: bool, more: bool, next: nat)

  /** A buffer to describe; address 0 is the null pointer. */
  datatype Buffer = Buffer(address: nat, length: nat, write: bool)

  datatype Table = Table(desc: seq<Desc>, inUse: seq<bool>, freeHead: nat, freeCount: nat)

  const BLANK := Desc(0, 0, false, false, 0)

  predicate Shape(t: Table) { |t.inUse| == |t.desc| && 0 < |t.desc| <= MAX_SIZE }

  function Alloc(t: Table): Option<(Table, nat)>
    requires Shape(t)
  {
    var i := t.freeHead;
    if t.freeCount == 0 || i == NONE then None
    else if t.freeCount > |t.desc| || i >= |t.desc| || t.inUse[i] then None
    else Some((Table(t.desc[i := BLANK], t.inUse[i := true], t.desc[i].next, t.freeCount - 1), i))
  }

  function Free(t: Table, i: nat): (r: Table)
    requires Shape(t)
    ensures Shape(r) && |r.desc| == |t.desc|
  {
    if i >= |t.desc| || !t.inUse[i] then t
    else Table(t.desc[i := BLANK.(next := t.freeHead)], t.inUse[i := false], i, t.freeCount + 1)
  }

  /** Frees descriptors along the links from `i` until one has no successor or is not in use. */
  function FreeChain(t: Table, i: nat): (r: Table)
    requires Shape(t)
    ensures Shape(r) && |r.desc| == |t.desc|
    decreases CountSet(t.inUse)
  {
    if i >= |t.desc| || !t.inUse[i] then t else
    CountUpdate(t.inUse, i, false);
    if t.desc[i].more then FreeChain(Free(t, i), t.desc[i].next) else Free(t, i)
  }

  predicate Usable(b: Buffer) { b.address != 0 && b.length != 0 }

  /** Fills descriptor `i` for the buffer and links the last one of `ids` to it. */
  function Link(t: Table, i: nat, b: Buffer, ids: seq<nat>): (r: Table)
    requires Shape(t) && i < |t.desc| && forall k :: 0 <= k < |ids| ==> ids[k] < |t.desc|
    ensures Shape(r) && |r.desc| == |t.desc|
  {
    var filled := t.desc[i := Desc(b.address, b.length, b.write, false, 0)];
    if ids == [] then t.(desc := filled) else
    var last := ids[|ids| - 1];
    t.(desc := filled[last := filled[last].(more := true, next := i)])
  }

  /** The rest of VirtQueueBuildChain once the first buffers have the descriptors `ids`. */
  function Build(t: Table, bufs: seq<Buffer>, ids: seq<nat>): (r: (Table, Option<seq<nat>>))
    requires Shape(t) && forall k :: 0 <= k < |ids| ==> ids[k] < |t.desc|
    ensures Shape(r.0) && |r.0.desc| == |t.desc|
    ensures r.1.Some? ==> |r.1.value| >= |bufs| && forall k :: 0 <= k < |r.1.value| ==> r.1.value[k] < |t.desc|
    decreases |bufs| - |ids|
  {
    if |ids| >= |bufs| then (t, Some(ids)) else
    var undone := if ids == [] then t else FreeChain(t, ids[0]);
    if !Usable(bufs[|ids|]) then (undone, None) else
    var a := Alloc(t);
    if a.None? then (undone, None) else
    Build(Link(a.value.0, a.value.1, bufs[|ids|], ids), bufs, ids + [a.value.1])
  }

  /** VirtQueueBuildChain: the descriptors of the new chain, its head first. */
  function BuildChain(t: Table, bufs: seq<Buffer>): (r: (Table, Option<seq<nat>>))
    requires Shape(t)
    ensures Shape(r.0) && |r.0.desc| == |t.desc|
    ensures r.1.Some? ==> |r.1.value| >= |bufs| > 0 && r.1.value[0] < |t.desc|
  {
    if bufs == [] then (t, None) else Build(t, bufs, [])
  }

  /** The descriptors of a new chain are in use. */
  lemma {:induction false} BuiltInUse(t: Table, bufs: seq<Buffer>, ids: seq<nat>)
    requires Shape(t) && forall k :: 0 <= k < |ids| ==> ids[k] < |t.desc| && t.inUse[ids[k]]
    ensures var r := Build(t, bufs, ids);
            r.1.Some? ==> forall k :: 0 <= k < |r.1.value| ==> r.0.inUse[r.1.value[k]]
    decreases |bufs| - |ids|
  {
    if |ids| < |bufs| && Usable(bufs[|ids|]) && Alloc(t).Some? {
      var (t1, i) := Alloc(t).value;
      BuiltInUse(Link(t1, i, bufs[|ids|], ids), bufs, ids + [i]);
    }
  }

  // ---- What the table holds ----

  datatype Chain = Chain(ids: seq<nat>, bufs: seq<Buffer>)

  predicate FreeAt(t: Table, free: seq<nat>, k: nat)
    requires Shape(t) && k < |free|
  {
    && free[k] < |t.desc| && !t.inUse[free[k]]
    && t.desc[free[k]].next == if k + 1 < |free| then free[k + 1] else NONE
  }

  /** `free` is the list from FreeHead, has every unused descriptor, and FreeCount is its length. */
  ghost predicate FreeOk(t: Table, free: seq<nat>) {
    && Shape(t) && Distinct(free) && t.freeCount == |free|
    && t.freeHead == (if free == [] then NONE else free[0])
    && (forall k: nat :: k < |free| ==> FreeAt(t, free, k))
    && (forall i :: 0 <= i < |t.desc| && !t.inUse[i] ==> i in free)
  }

  /** Link `k` of a chain: the buffer, and the next descriptor unless it is the last. */
  predicate LinkOk(t: Table, c: Chain, k: nat)
    requires Shape(t) && k < |c.ids| == |c.bufs|
  {
    var more := k + 1 < |c.ids|;
    && c.ids[k] < |t.desc| && t.inUse[c.ids[k]]
    && t.desc[c.ids[k]]
       == Desc(c.bufs[k].address, c.bufs[k].length, c.bufs[k].write, more, if more then c.ids[k + 1] else 0)
  }

  ghost predicate ChainOk(t: Table, c: Chain) {
    && Shape(t) && |c.ids| == |c.bufs| > 0 && Distinct(c.ids)
    && forall k: nat :: k < |c.ids| ==> LinkOk(t, c, k)
  }

  predicate Owns(chains: map<nat, Chain>, h: nat, i: nat) { h in chains && i in chains[h].ids }

  /** The used descriptors are partitioned into the chains, the unused ones are the free list. */
  ghost predicate TableOk(t: Table, free: seq<nat>, chains: map<nat, Chain>) {
    && FreeOk(t, free)
    && (forall h :: h in chains ==> ChainOk(t, chains[h]) && chains[h].ids[0] == h)
    && (forall h, g, i :: Owns(chains, h, i) && Owns(chains, g, i) ==> h == g)
    && (forall i :: 0 <= i < |t.desc| && t.inUse[i] ==> exists h :: Owns(chains, h, i))
  }

  /** Descriptor `i` is as before. */
  predicate Same(t: Table, r: Table, i: nat)
    requires Shape(t) && Shape(r) && |t.desc| == |r.desc|
  {
    i < |t.desc| ==> r.desc[i] == t.desc[i] && r.inUse[i] == t.inUse[i]
  }

  lemma {:induction false} AllocMeaning(t: Table, free: seq<nat>)
    requires FreeOk(t, free)
    ensures free == [] <==> Alloc(t).None?
    ensures free != [] ==>
              var (r, i) := Alloc(t).value;
              && i == free[0] && i < |t.desc| && |r.desc| == |t.desc| && FreeOk(r, free[1..]) && r.inUse[i]
              && forall j: nat :: j != i ==> Same(t, r, j)
  {
    if free != [] {
      assert FreeAt(t, free, 0);
      forall k | 0 <= k < |free| ensures free[k] < |t.desc| { assert FreeAt(t, free, k); }
      DistinctBound(free, |t.desc|);
      var (r, i) := Alloc(t).value;
      var rest := free[1..];
      forall k: nat | k < |rest| ensures FreeAt(r, rest, k) { assert FreeAt(t, free, k + 1); assert free[k + 1] != free[0]; }
      if rest != [] { assert free[1] == rest[0]; }
      forall j | 0 <= j < |r.desc| && !r.inUse[j] ensures j in rest { assert j in free; }
    }
  }

  lemma {:induction false} FreeMeaning(t: Table, free: seq<nat>, i: nat)
    requires FreeOk(t, free) && i < |t.desc| && t.inUse[i]
    ensures var r := Free(t, i);
            && FreeOk(r, [i] + free) && (forall j: nat :: j != i ==> Same(t, r, j))
            && i < |r.desc| && r.desc[i] == Desc(0, 0, false, false, t.freeHead)
  {
    var r, more := Free(t, i), [i] + free;
    forall k: nat | k < |more| ensures FreeAt(r, more, k) {
      if k > 0 { assert FreeAt(t, free, k - 1); }
    }
    forall k: nat | k < |free| ensures free[k] != i { assert FreeAt(t, free, k); }
    forall j | 0 <= j < |r.desc| && !r.inUse[j] ensures j in more {}
  }

  function Reversed(l: seq<nat>): seq<nat> { if l == [] then [] else Reversed(l[1..]) + [l[0]] }

  /** Freeing a chain puts its descriptors on the free list, last on top, and touches no other. */
  lemma {:induction false} FreeChainMeaning(t: Table, free: seq<nat>, c: Chain, k: nat)
    requires FreeOk(t, free) && |c.ids| == |c.bufs| && Distinct(c.ids) && k < |c.ids|
    requires forall j: nat :: k <= j < |c.ids| ==> LinkOk(t, c, j)
    ensures var r := FreeChain(t, c.ids[k]);
            && FreeOk(r, Reversed(c.ids[k..]) + free)
            && forall i: nat :: i !in c.ids[k..] ==> Same(t, r, i)
    decreases |c.ids| - k
  {
    var i := c.ids[k];
    assert LinkOk(t, c, k);
    FreeMeaning(t, free, i);
    var t1 := Free(t, i);
    var tail := c.ids[k..];
    assert tail[1..] == c.ids[k + 1..];
    if k + 1 < |c.ids| {
      forall j: nat | k + 1 <= j < |c.ids| ensures LinkOk(t1, c, j) {
        assert LinkOk(t, c, j) && c.ids[j] != i;
        assert Same(t, t1, c.ids[j]);
      }
      FreeChainMeaning(t1, [i] + free, c, k + 1);
      assert Reversed(tail) + free == Reversed(tail[1..]) + ([i] + free);
      var r := FreeChain(t, i);
      forall x: nat | x !in tail ensures Same(t, r, x) { assert x !in tail[1..]; assert Same(t, t1, x); assert x != i; }
    } else {
      assert tail == [i] && tail[1..] == [];
      assert Reversed(tail) + free == [i] + free;
    }
  }

  // ---- Building a chain ----

  /** The chains, with the one under construction. */
  function With(chains: map<nat, Chain>, ids: seq<nat>, bufs: seq<Buffer>): map<nat, Chain> {
    if ids == [] then chains else chains[ids[0] := Chain(ids, bufs)]
  }

  lemma {:induction false} OwnedInUse(t: Table, free: seq<nat>, chains: map<nat, Chain>, h: nat, i: nat)
    requires TableOk(t, free, chains) && Owns(chains, h, i)
    ensures i < |t.desc| && t.inUse[i] && i !in free
  {
    var c := chains[h];
    var k :| 0 <= k < |c.ids| && c.ids[k] == i;
    assert LinkOk(t, c, k);
    forall j: nat | j < |free| ensures free[j] != i { assert FreeAt(t, free, j); }
  }

  /** A chain stays as it is when none of its descriptors changes. */
  lemma {:induction false} ChainStays(t: Table, r: Table, c: Chain)
    requires ChainOk(t, c) && Shape(r) && |r.desc| == |t.desc|
    requires forall k: nat :: k < |c.ids| ==> Same(t, r, c.ids[k])
    ensures ChainOk(r, c)
  {
    forall k: nat | k < |c.ids| ensures LinkOk(r, c, k) { assert LinkOk(t, c, k); }
  }

  /** Freeing chain `h` gives back the table without it. */
  lemma {:induction false} ReleaseMeaning(t: Table, free: seq<nat>, chains: map<nat, Chain>, h: nat)
    requires TableOk(t, free, chains) && h in chains
    ensures TableOk(FreeChain(t, h), Reversed(chains[h].ids) + free, chains - {h})
  {
    var c, rest, r := chains[h], chains - {h}, FreeChain(t, h);
    assert c.ids[0..] == c.ids;
    FreeChainMeaning(t, free, c, 0);
    forall g | g in rest ensures ChainOk(r, rest[g]) && rest[g].ids[0] == g {
      forall k: nat | k < |rest[g].ids| ensures Same(t, r, rest[g].ids[k]) {
        assert Owns(chains, g, rest[g].ids[k]);
        if rest[g].ids[k] in c.ids { assert Owns(chains, h, rest[g].ids[k]); }
      }
      ChainStays(t, r, rest[g]);
    }
    forall g, g', i | Owns(rest, g, i) && Owns(rest, g', i) ensures g == g' { assert Owns(chains, g, i) && Owns(chains, g', i); }
    ReversedHas(c.ids);
    forall i | 0 <= i < |r.desc| && r.inUse[i] ensures exists g :: Owns(rest, g, i) {
      if i in c.ids { InFree(r, Reversed(c.ids) + free, i); }
      assert Same(t, r, i);
      var g :| Owns(chains, g, i);
      assert Owns(rest, g, i);
    }
  }

  lemma {:induction false} InFree(t: Table, free: seq<nat>, i: nat)
    requires FreeOk(t, free) && i in free
    ensures i < |t.desc| && !t.inUse[i]
  {
    var k :| 0 <= k < |free| && free[k] == i;
    assert FreeAt(t, free, k);
  }

  lemma {:induction false} ReversedHas(l: seq<nat>)
    ensures |Reversed(l)| == |l| && forall x :: x in Reversed(l) <==> x in l
  {
    if l != [] { ReversedHas(l[1..]); }
  }

  /** The chain under construction after it got descriptor `i`. */
  lemma {:induction false} GrownChain(t: Table, ids: seq<nat>, i: nat, bufs: seq<Buffer>, r: Table)
    requires Shape(t) && |ids| < |bufs| && i < |t.desc| && i !in ids && t.inUse[i]
    requires ids != [] ==> ChainOk(t, Chain(ids, bufs[..|ids|]))
    requires (forall k :: 0 <= k < |ids| ==> ids[k] < |t.desc|) && r == Link(t, i, bufs[|ids|], ids)
    ensures ChainOk(r, Chain(ids + [i], bufs[..|ids| + 1]))
    ensures forall j: nat :: j != i && j !in ids ==> Same(t, r, j)
  {
    var n := |ids|;
    var c, old0 := Chain(ids + [i], bufs[..n + 1]), Chain(ids, bufs[..n]);
    forall a, b | 0 <= a < b < |c.ids| ensures c.ids[a] != c.ids[b] {
      if b == n { assert c.ids[a] in ids; }
    }
    forall k: nat | k <= n ensures LinkOk(r, c, k) {
      if k < n {
        assert LinkOk(t, old0, k) && ids[k] in ids && ids[k] != i;
        if k < n - 1 { assert ids[k] != ids[n - 1]; }
      }
    }
  }

  lemma {:induction false} ExtendMeaning(t: Table, free: seq<nat>, chains: map<nat, Chain>, ids: seq<nat>, bufs: seq<Buffer>)
    requires |ids| < |bufs| && (ids != [] ==> ids[0] !in chains)
    requires TableOk(t, free, With(chains, ids, bufs[..|ids|])) && free != []
    ensures Alloc(t).Some?
    ensures var (t1, i) := Alloc(t).value;
            && i == free[0] && i !in chains && Shape(t1) && i < |t1.desc| && (forall k :: 0 <= k < |ids| ==> ids[k] < |t1.desc|)
            && TableOk(Link(t1, i, bufs[|ids|], ids), free[1..], With(chains, ids + [i], bufs[..|ids| + 1]))
  {
    var now, then0 := With(chains, ids, bufs[..|ids|]), With(chains, ids + [free[0]], bufs[..|ids| + 1]);
    AllocMeaning(t, free);
    var (t1, i) := Alloc(t).value;
    assert i in free;
    if i in chains { assert Owns(now, i, i); OwnedInUse(t, free, now, i, i); }
    forall k | 0 <= k < |ids| ensures ids[k] < |t1.desc| && ids[k] != i {
      assert Owns(now, ids[0], ids[k]);
      OwnedInUse(t, free, now, ids[0], ids[k]);
    }
    if ids != [] {
      assert now[ids[0]] == Chain(ids, bufs[..|ids|]);
      forall k: nat | k < |ids| ensures Same(t, t1, ids[k]) {}
      ChainStays(t, t1, now[ids[0]]);
    }
    var r := Link(t1, i, bufs[|ids|], ids);
    GrownChain(t1, ids, i, bufs, r);
    Rebuilt(t, t1, r, free, now, then0, ids, i, Chain(ids + [i], bufs[..|ids| + 1]));
  }

  lemma {:induction false} Rebuilt(t: Table, t1: Table, r: Table, free: seq<nat>, now: map<nat, Chain>, then0: map<nat, Chain>,
                                   ids: seq<nat>, i: nat, c: Chain)
    requires TableOk(t, free, now) && free != [] && i == free[0] < |t.desc| && c.ids == ids + [i]
    requires FreeOk(t1, free[1..]) && |t1.desc| == |t.desc| && t1.inUse == t.inUse[i := true]
    requires Shape(r) && |r.desc| == |t.desc| && r.inUse == t1.inUse && r.freeHead == t1.freeHead && r.freeCount == t1.freeCount
    requires forall j: nat :: j != i ==> Same(t, t1, j)
    requires ChainOk(r, c) && forall j: nat :: j != i && j !in ids ==> Same(t1, r, j)
    requires then0 == now[c.ids[0] := c] && (ids != [] ==> ids[0] in now && now[ids[0]].ids == ids)
    requires ids == [] ==> i !in now
    ensures TableOk(r, free[1..], then0)
  {
    var h := c.ids[0];
    forall k: nat | k < |free[1..]| ensures FreeAt(r, free[1..], k) {
      assert FreeAt(t1, free[1..], k);
      var j := free[1..][k];
      assert j == free[k + 1];
      if j in ids { assert Owns(now, h, j); OwnedInUse(t, free, now, h, j); }
      assert free[k + 1] != free[0];
      assert Same(t1, r, j);
    }
    forall g | g in then0 && g != h ensures ChainOk(r, then0[g]) && then0[g].ids[0] == g {
      forall k: nat | k < |then0[g].ids| ensures Same(t, r, then0[g].ids[k]) {
        var j := then0[g].ids[k];
        assert Owns(now, g, j);
        OwnedInUse(t, free, now, g, j);
        assert j in ids ==> Owns(now, h, j);
        assert Same(t, t1, j) && Same(t1, r, j);
      }
      ChainStays(t, r, then0[g]);
    }
    forall g, g', j | Owns(then0, g, j) && Owns(then0, g', j) ensures g == g' {
      NewOwner(t, free, now, then0, c, ids, i, g, j);
      NewOwner(t, free, now, then0, c, ids, i, g', j);
    }
    forall j | 0 <= j < |r.desc| && r.inUse[j] ensures exists g :: Owns(then0, g, j) {
      if j == i { assert c.ids[|ids|] == i; assert Owns(then0, h, j); }
      else {
        var g :| Owns(now, g, j);
        if g == h && ids != [] { var k :| 0 <= k < |ids| && ids[k] == j; assert c.ids[k] == j; }
        assert Owns(then0, g, j);
      }
    }
  }

  lemma {:induction false} NewOwner(t: Table, free: seq<nat>, now: map<nat, Chain>, then0: map<nat, Chain>, c: Chain,
                                    ids: seq<nat>, i: nat, g: nat, j: nat)
    requires TableOk(t, free, now) && i in free && c.ids == ids + [i]
    requires then0 == now[c.ids[0] := c] && (ids != [] ==> ids[0] in now && now[ids[0]].ids == ids)
    requires (ids == [] ==> i !in now) && Owns(then0, g, j)
    ensures if j == i then g == c.ids[0] else Owns(now, g, j)
  {
    if j == i {
      if g != c.ids[0] { assert Owns(now, g, j); OwnedInUse(t, free, now, g, j); }
    } else if g == c.ids[0] {
      var k :| 0 <= k < |c.ids| && c.ids[k] == j;
      assert ids[k] == j;
    }
  }

  predicate AllUsable(bufs: seq<Buffer>) { forall k :: 0 <= k < |bufs| ==> Usable(bufs[k]) }

  /** The same descriptors, in whatever order. */
  ghost predicate SameSet(a: seq<nat>, b: seq<nat>) { |a| == |b| && forall x :: x in a <==> x in b }

  /** What is left of a chain that could not be completed: its descriptors are free again, every other chain is
      untouched. */
  lemma {:induction false} UndoneMeaning(t: Table, free: seq<nat>, chains: map<nat, Chain>, ids: seq<nat>, bufs: seq<Buffer>)
    requires |ids| == |bufs| && (ids != [] ==> ids[0] !in chains) && TableOk(t, free, With(chains, ids, bufs))
    ensures var r := if ids == [] then t else FreeChain(t, ids[0]);
            TableOk(r, if ids == [] then free else Reversed(ids) + free, chains)
  {
    if ids != [] {
      var now := With(chains, ids, bufs);
      assert now[ids[0]] == Chain(ids, bufs);
      ReleaseMeaning(t, free, now, ids[0]);
      assert now - {ids[0]} == chains;
    }
  }

  ghost predicate BuildOutcome(r: (Table, Option<seq<nat>>), free: seq<nat>, chains: map<nat, Chain>, ids: seq<nat>,
                               bufs: seq<Buffer>, from: nat)
    requires from <= |bufs|
  {
    if (forall k :: from <= k < |bufs| ==> Usable(bufs[k])) && |bufs| - from <= |free| then
      && r.1 == Some(ids + free[..|bufs| - from])
      && TableOk(r.0, free[|bufs| - from..], With(chains, r.1.value, bufs))
    else r.1.None? && exists rest :: TableOk(r.0, rest, chains) && SameSet(rest, ids + free)
  }

  lemma {:induction false} BuildMeans(t: Table, free: seq<nat>, chains: map<nat, Chain>, ids: seq<nat>, bufs: seq<Buffer>)
    requires |ids| <= |bufs| && (ids != [] ==> ids[0] !in chains)
    requires TableOk(t, free, With(chains, ids, bufs[..|ids|])) && forall k :: 0 <= k < |ids| ==> ids[k] < |t.desc|
    ensures BuildOutcome(Build(t, bufs, ids), free, chains, ids, bufs, |ids|)
    decreases |bufs| - |ids|
  {
    hide TableOk, ChainOk, FreeOk, Alloc, Link;
    var k := |ids|;
    if k == |bufs| {
      assert bufs[..k] == bufs && ids + free[..0] == ids && free[0..] == free;
    } else {
      assert Shape(t) by { TableShape(t, free, With(chains, ids, bufs[..k])); }
      UndoneMeaning(t, free, chains, ids, bufs[..k]);
      ReversedHas(ids);
      var rest := if ids == [] then free else Reversed(ids) + free;
      assert SameSet(rest, ids + free);
      if Usable(bufs[k]) {
        AllocNeeds(t, free, With(chains, ids, bufs[..k]));
        if free != [] {
          ExtendMeaning(t, free, chains, ids, bufs);
          var (t1, i) := Alloc(t).value;
          var grown := ids + [i];
          BuildMeans(Link(t1, i, bufs[k], ids), free[1..], chains, grown, bufs);
          BuildShift(Build(t, bufs, ids), free, chains, ids, bufs, k);
        }
      }
    }
  }

  lemma {:induction false} TableShape(t: Table, free: seq<nat>, chains: map<nat, Chain>)
    requires TableOk(t, free, chains)
    ensures Shape(t)
  {
  }

  lemma {:induction false} AllocNeeds(t: Table, free: seq<nat>, chains: map<nat, Chain>)
    requires TableOk(t, free, chains)
    ensures Shape(t) && (Alloc(t).None? <==> free == [])
  {
    AllocMeaning(t, free);
  }

  lemma {:induction false} BuildShift(r: (Table, Option<seq<nat>>), free: seq<nat>, chains: map<nat, Chain>, ids: seq<nat>,
                                      bufs: seq<Buffer>, k: nat)
    requires k < |bufs| && free != [] && Usable(bufs[k])
    requires BuildOutcome(r, free[1..], chains, ids + [free[0]], bufs, k + 1)
    ensures BuildOutcome(r, free, chains, ids, bufs, k)
  {
    hide TableOk, Usable;
    var n := |bufs| - k;
    assert (forall j :: k <= j < |bufs| ==> Usable(bufs[j])) <==> (forall j :: k + 1 <= j < |bufs| ==> Usable(bufs[j])) by {
      if forall j :: k + 1 <= j < |bufs| ==> Usable(bufs[j]) { forall j | k <= j < |bufs| ensures Usable(bufs[j]) {} }
    }
    if n <= |free| {
      assert (ids + [free[0]]) + free[1..][..n - 1] == ids + free[..n];
      assert free[1..][n - 1..] == free[n..];
    }
    assert (ids + [free[0]]) + free[1..] == ids + free;
  }

  /** VirtQueueBuildChain succeeds exactly when every buffer is usable and enough descriptors are free. Then the
      chain describes the buffers in order; otherwise every chain is as before and the same descriptors are
      free. */
  lemma {:induction false} BuildChainMeaning(t: Table, free: seq<nat>, chains: map<nat, Chain>, bufs: seq<Buffer>)
    requires TableOk(t, free, chains)
    ensures var r := BuildChain(t, bufs);
            if bufs != [] && AllUsable(bufs) && |bufs| <= |free| then
              && r.1 == Some(free[..|bufs|]) && free[0] !in chains
              && TableOk(r.0, free[|bufs|..], chains[free[0] := Chain(free[..|bufs|], bufs)])
            else r.1.None? && exists rest :: TableOk(r.0, rest, chains) && SameSet(rest, free)
  {
    if bufs == [] { assert SameSet(free, free); }
    else {
      assert bufs[..0] == [] && [] + free == free && [] + free[..Min(|bufs|, |free|)] == free[..Min(|bufs|, |free|)];
      hide ChainOk;
      BuildMeans(t, free, chains, [], bufs);
      if AllUsable(bufs) && |bufs| <= |free| {
        assert FreeAt(t, free, 0);
        if free[0] in chains { assert Owns(chains, free[0], free[0]) by { HeadOwned(t, free, chains, free[0]); } OwnedInUse(t, free, chains, free[0], free[0]); }
      }
    }
  }

  function Min(a: nat, b: nat): nat { if a < b then a else b }

  lemma {:induction false} HeadOwned(t: Table, free: seq<nat>, chains: map<nat, Chain>, h: nat)
    requires TableOk(t, free, chains) && h in chains
    ensures Owns(chains, h, h) && |chains[h].ids| == |chains[h].bufs| > 0
  {
    assert chains[h].ids[0] in chains[h].ids;
  }
}
