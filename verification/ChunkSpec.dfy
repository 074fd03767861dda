/** What the weighted round-robin chunk operations compute, on sequences of tasks. */
module ChunkSpec {
  import opened Prelude

  type Task = nat
  const NULL: Task := 0
  const CHUNK_MAX: nat := 1024
  const MAX_WEIGHT: nat := 6

  /** How many of the first `p` of `n` slots go to a task that takes `w` of them. */
  function Share(p: nat, w: nat, n: nat): (r: nat)
    requires n > 0
  {
    p * w / n
  }

  predicate Marked(p: nat, w: nat, n: nat)
    requires n > 0
  {
    Share(p + 1, w, n) != Share(p, w, n)
  }

  function Count(s: seq<Task>, t: Task): (r: nat)
    ensures r <= |s|
  {
    if s == [] then 0 else Count(s[..|s| - 1], t) + if s[|s| - 1] == t then 1 else 0
  }

  /** The entries other than `t`, in order. */
  function Without(s: seq<Task>, t: Task): seq<Task> {
    if s == [] then [] else
    Without(s[..|s| - 1], t) + if s[|s| - 1] == t then [] else [s[|s| - 1]]
  }

  /** `s` with `w` more slots for `t`, spread evenly; the other slots hold `s` in order. */
  function Inserted(s: seq<Task>, t: Task, w: nat): (r: seq<Task>)
    requires 1 <= w
    ensures |r| == |s| + w
  {
    var n := |s| + w;
    seq(n, p requires 0 <= p < n =>
      if Marked(p, w, n) then t else OldAt(s, p, w))
  }

  /** The old entry that lands on the unmarked slot `p`. */
  function OldAt(s: seq<Task>, p: nat, w: nat): Task
    requires p < |s| + w
  {
    var k := p - Share(p, w, |s| + w);
    if 0 <= k < |s| then s[k] else NULL
  }

  lemma {:induction false} NextMultiple(p: nat, w: nat)
    ensures (p + 1) * w == p * w + w
  {
  }

  lemma {:induction false} DivStep(a: nat, w: nat, n: nat)
    requires 0 < n && w <= n
    ensures a / n <= (a + w) / n <= a / n + 1
  {
    var q, r := a / n, a % n;
    assert a == q * n + r;
    NextMultiple(q, n);
    if r + w < n { DivIs(a + w, q, r + w, n); } else { DivIs(a + w, q + 1, r + w - n, n); }
  }

  lemma {:induction false} ShareEnds(w: nat, n: nat)
    requires 0 < n
    ensures Share(0, w, n) == 0 && Share(n, w, n) == w
  {
    DivIs(n * w, w, 0, n);
    DivIs(0, 0, 0, n);
    assert 0 * w == 0;
  }

  lemma {:induction false} ShareStep(p: nat, w: nat, n: nat)
    requires 0 < n && w <= n
    ensures Share(p, w, n) <= Share(p + 1, w, n) <= Share(p, w, n) + 1
    ensures Share(0, w, n) == 0 && Share(n, w, n) == w
  {
    ShareEnds(w, n);
    NextMultiple(p, w);
    DivStep(p * w, w, n);
  }

  /** A slot never takes more than its own share of what lies before it. */
  lemma {:induction false} ShareBelow(p: nat, w: nat, n: nat)
    requires 0 < n && w <= n && p <= n
    ensures Share(p, w, n) <= p && p - Share(p, w, n) <= n - w
    ensures p < n && !Marked(p, w, n) ==> p - Share(p, w, n) < n - w
  {
    ShareFrom0(p, w, n);
    ShareFrom(p, w, n);
    if p < n { ShareFrom(p + 1, w, n); }
  }

  lemma {:induction false} ShareFrom0(p: nat, w: nat, n: nat)
    requires 0 < n && w <= n
    ensures Share(p, w, n) <= p
    decreases p
  {
    if p > 0 { ShareFrom0(p - 1, w, n); ShareStep(p - 1, w, n); } else { ShareStep(0, w, n); }
  }

  lemma {:induction false} ShareFrom(p: nat, w: nat, n: nat)
    requires 0 < n && w <= n && p <= n
    ensures p - Share(p, w, n) <= n - w
    decreases n - p
  {
    ShareStep(p, w, n);
    if p < n { ShareFrom(p + 1, w, n); }
  }

  lemma {:induction false} Snoc(s: seq<Task>, p: nat, t: Task)
    requires 0 < p <= |s|
    ensures Count(s[..p], t) == Count(s[..p - 1], t) + if s[p - 1] == t then 1 else 0
    ensures Without(s[..p], t) == Without(s[..p - 1], t) + if s[p - 1] == t then [] else [s[p - 1]]
  {
    assert s[..p][..p - 1] == s[..p - 1];
  }

  lemma {:induction false} InsertedPrefix(s: seq<Task>, t: Task, w: nat, p: nat)
    requires 1 <= w && p <= |s| + w
    ensures var k := p - Share(p, w, |s| + w);
            && 0 <= k <= |s|
            && Without(Inserted(s, t, w)[..p], t) == Without(s[..k], t)
            && Count(Inserted(s, t, w)[..p], t) == Count(s[..k], t) + Share(p, w, |s| + w)
    decreases p
  {
    hide Without, Count, Share;
    var n := |s| + w;
    ShareBelow(p, w, n);
    if p == 0 {
      ShareStep(0, w, n);
    } else {
      InsertedPrefix(s, t, w, p - 1);
      ShareStep(p - 1, w, n);
      ShareBelow(p - 1, w, n);
      Snoc(Inserted(s, t, w), p, t);
      var k := p - Share(p, w, n);
      if !Marked(p - 1, w, n) { Snoc(s, k, t); }
    }
  }

  /** Exactly `w` more copies, and every other entry in its old order. */
  lemma {:induction false} InsertedMeaning(s: seq<Task>, t: Task, w: nat)
    requires 1 <= w
    ensures Count(Inserted(s, t, w), t) == Count(s, t) + w
    ensures Without(Inserted(s, t, w), t) == Without(s, t)
  {
    var n := |s| + w;
    InsertedPrefix(s, t, w, n);
    ShareStep(n, w, n);
    assert Inserted(s, t, w)[..n] == Inserted(s, t, w) && s[..|s|] == s;
  }

  /** Slot `p` after an insertion holds the very entry that was at `c` before it. */
  predicate StaysOn(len: nat, w: nat, c: nat, p: nat)
    requires 1 <= w
  {
    p < len + w && !Marked(p, w, len + w) && p - Share(p, w, len + w) == c
  }

  lemma {:induction false} StaysOnMeaning(s: seq<Task>, t: Task, w: nat, c: nat, p: nat, q: nat)
    requires 1 <= w && c < |s| && StaysOn(|s|, w, c, p)
    ensures Inserted(s, t, w)[p] == s[c]
    ensures StaysOn(|s|, w, c, q) ==> q == p
    ensures Without(Inserted(s, t, w)[..p], t) == Without(s[..c], t)
  {
    InsertedPrefix(s, t, w, p);
    if StaysOn(|s|, w, c, q) {
      if p < q { ShareGap(p, q, w, |s| + w); }
      if q < p { ShareGap(q, p, w, |s| + w); }
    }
  }

  lemma {:induction false} ShareGap(p: nat, q: nat, w: nat, n: nat)
    requires 0 < n && w <= n && p < q && !Marked(p, w, n)
    ensures Share(q, w, n) < Share(p, w, n) + (q - p)
    decreases q
  {
    ShareStep(q - 1, w, n);
    if p < q - 1 { ShareGap(p, q - 1, w, n); }
  }

  lemma {:induction false} SmallMod(x: nat, n: nat)
    requires x < n
    ensures x % n == x && n % n == 0
  {
    DivIs(n, 1, 0, n);
  }

  function CeilDiv(a: nat, b: nat): (r: nat)
    requires b > 0
  {
    (a + b - 1) / b
  }

  lemma {:induction false} CeilBounds(a: nat, b: nat)
    requires b > 0
    ensures a <= CeilDiv(a, b) * b < a + b
  {
  }

  lemma {:induction false} ShareBounds(p: nat, w: nat, n: nat, j: nat)
    requires 0 < n
    ensures p * w >= j * n ==> Share(p, w, n) >= j
    ensures p * w < j * n ==> Share(p, w, n) < j
  {
    var x := p * w;
    var d := x / n - j;
    assert x == x / n * n + x % n;
    assert (j + d) * n == j * n + d * n;
    MulSign(d, n);
  }

  lemma {:induction false} ShareMonotone(p: nat, q: nat, w: nat, n: nat)
    requires 0 < n && w <= n && p <= q
    ensures Share(p, w, n) <= Share(q, w, n)
    decreases q
  {
    if p < q { ShareMonotone(p, q - 1, w, n); ShareStep(q - 1, w, n); }
  }

  /** Copy `j` of `w` lands on slot ceil(j * n / w) - 1. */
  lemma {:induction false} CopyPlace(j: nat, w: nat, n: nat)
    requires 1 <= j <= w <= n
    ensures 1 <= CeilDiv(j * n, w) <= n
    ensures Marked(CeilDiv(j * n, w) - 1, w, n) && Share(CeilDiv(j * n, w), w, n) == j
  {
    var x := CeilDiv(j * n, w);
    CeilBounds(j * n, w);
    MulSign(j, n);
    assert (w - j) * n == w * n - j * n;
    assert (w - j) * n >= 0;
    assert (x - 1) * w == x * w - w;
    MulLess(0, x, w);
    MulLess(x - 1, n, w);
    ShareBounds(x, w, n, j);
    ShareBounds(x - 1, w, n, j);
    ShareStep(x - 1, w, n);
  }

  lemma {:induction false} MulLess(a: int, b: int, w: nat)
    requires a * w < b * w
    ensures a < b
  {
    MulSign(a - b, w);
    assert (a - b) * w == a * w - b * w;
  }

  /** Every cyclic window of ceil(n / w) slots holds a copy. */
  lemma {:induction false} CopyInWindow(a: nat, w: nat, n: nat) returns (k: nat)
    requires 1 <= w <= n && a < n
    ensures k < CeilDiv(n, w) && Marked((a + k) % n, w, n)
  {
    var j, g := Share(a, w, n) + 1, CeilDiv(n, w);
    ShareOfSlot(a, w, n);
    CopyPlace(j, w, n);
    var x := CeilDiv(j * n, w);
    if x <= a { ShareMonotone(x, a, w, n); }
    CeilBounds(n, w);
    CeilBounds(j * n, w);
    assert (x - 1) * w == x * w - w;
    assert (a + g) * w == a * w + g * w;
    MulLess(x - 1, a + g, w);
    SmallMod(x - 1, n);
    k := x - 1 - a;
  }

  lemma {:induction false} ShareOfSlot(a: nat, w: nat, n: nat)
    requires 1 <= w <= n && a < n
    ensures Share(a, w, n) < w && (Share(a, w, n) + 1) * n <= a * w + n
  {
    MulSign(n - a, w);
    assert (n - a) * w == n * w - a * w;
    ShareBounds(a, w, n, w);
    Quotient(a * w, n);
    assert (Share(a, w, n) + 1) * n == Share(a, w, n) * n + n;
  }

  lemma {:induction false} Quotient(x: nat, n: nat)
    requires n > 0
    ensures x / n * n <= x < x / n * n + n
  {
  }

  // Compaction: the entries whose flag is set move down and keep their order.

  function Rank(keep: seq<bool>, i: nat): (r: nat)
    requires i <= |keep|
    ensures r <= i
  {
    if i == 0 then 0 else Rank(keep, i - 1) + if keep[i - 1] then 1 else 0
  }

  function Kept(s: seq<Task>, keep: seq<bool>, i: nat): (r: seq<Task>)
    requires i <= |s| == |keep|
    ensures |r| == Rank(keep, i)
  {
    if i == 0 then [] else if keep[i - 1] then Kept(s, keep, i - 1) + [s[i - 1]] else Kept(s, keep, i - 1)
  }

  /** Where the cursor goes: its own entry, else the last survivor before it, cyclically. */
  function KeptCursor(keep: seq<bool>, c: nat): nat
    requires c <= |keep|
  {
    var before := Rank(keep, if c < |keep| then c + 1 else c);
    if before > 0 then before - 1
    else if Rank(keep, |keep|) == 0 then 0 else Rank(keep, |keep|) - 1
  }

  function FirstKept(keep: seq<bool>, i: nat): (r: nat)
    requires i <= |keep|
    ensures i <= r <= |keep| && (r < |keep| ==> keep[r]) && Rank(keep, r) == Rank(keep, i)
    decreases |keep| - i
  {
    if i == |keep| || keep[i] then i else FirstKept(keep, i + 1)
  }

  /** The first survivor after `c`, going round. */
  function NextKept(keep: seq<bool>, c: nat): nat
    requires c < |keep|
  {
    var a := FirstKept(keep, c + 1);
    if a < |keep| then a else FirstKept(keep, 0)
  }

  lemma {:induction false} KeptAt(s: seq<Task>, keep: seq<bool>, i: nat, n: nat)
    requires i < n <= |s| == |keep| && keep[i]
    ensures Rank(keep, i) < Rank(keep, n) && Kept(s, keep, n)[Rank(keep, i)] == s[i]
    decreases n
  {
    if i < n - 1 { KeptAt(s, keep, i, n - 1); }
  }

  lemma {:induction false} RankMonotone(keep: seq<bool>, i: nat, j: nat)
    requires i <= j <= |keep|
    ensures Rank(keep, i) <= Rank(keep, j)
    decreases j
  {
    if i < j { RankMonotone(keep, i, j - 1); }
  }

  lemma {:induction false} CursorRank(keep: seq<bool>, c: nat)
    requires c < |keep| && Rank(keep, |keep|) > 0
    ensures NextKept(keep, c) < |keep| && keep[NextKept(keep, c)]
    ensures KeptCursor(keep, c) < Rank(keep, |keep|)
    ensures (KeptCursor(keep, c) + 1) % Rank(keep, |keep|) == Rank(keep, NextKept(keep, c))
    ensures keep[c] ==> KeptCursor(keep, c) == Rank(keep, c)
  {
    RankMonotone(keep, c + 1, |keep|);
    var a := FirstKept(keep, c + 1);
    var n := Rank(keep, |keep|);
    if a < |keep| {
      RankMonotone(keep, a + 1, |keep|);
      SmallMod(Rank(keep, a), n);
    } else {
      SmallMod(0, n);
    }
    SmallMod(0, n);
  }

  /** A surviving entry keeps the cursor; otherwise the slot after the cursor is the first survivor after it. */
  lemma {:induction false} KeptCursorMeaning(s: seq<Task>, keep: seq<bool>, c: nat)
    requires c < |s| == |keep| && Rank(keep, |keep|) > 0
    ensures var r := Kept(s, keep, |s|); var k := KeptCursor(keep, c);
            && k < |r|
            && (keep[c] ==> r[k] == s[c] && k == Rank(keep, c))
            && NextKept(keep, c) < |s| && keep[NextKept(keep, c)]
            && r[(k + 1) % |r|] == s[NextKept(keep, c)]
  {
    hide KeptCursor, NextKept, Kept, Rank;
    CursorRank(keep, c);
    if keep[c] { KeptAt(s, keep, c, |s|); }
    KeptAt(s, keep, NextKept(keep, c), |s|);
  }

  /** The array `a` after the first `read` entries of `s` were kept or dropped: `write` of them survived. */
  ghost predicate Compacting(s: seq<Task>, keep: seq<bool>, c: nat, a: seq<Task>, read: nat, write: nat, found: bool, cursor: nat) {
    && |a| == |s| == |keep| && write <= read <= |s|
    && write == Rank(keep, read) && a[..write] == Kept(s, keep, read) && a[read..] == s[read..]
    && var b := Rank(keep, if read <= c then read else c + 1);
       found == (b > 0) && cursor == if b > 0 then b - 1 else 0
  }

  lemma {:induction false} CompactStart(s: seq<Task>, keep: seq<bool>, c: nat)
    requires |s| == |keep|
    ensures Compacting(s, keep, c, s, 0, 0, false, 0)
  {
  }

  lemma {:induction false} NoneSeen(t: Task)
    ensures Count([], t) == 0
  {
  }

  lemma {:induction false} CompactStep(s: seq<Task>, keep: seq<bool>, c: nat, a: seq<Task>, read: nat, write: nat, found: bool, cursor: nat)
    requires Compacting(s, keep, c, a, read, write, found, cursor) && read < |s|
    ensures a[read] == s[read]
    ensures if keep[read] then Compacting(s, keep, c, a[write := a[read]], read + 1, write + 1, read <= c || found, if read <= c then write else cursor)
            else Compacting(s, keep, c, a, read + 1, write, found, cursor)
  {
    assert a[read] == a[read..][0] == s[read..][0];
    assert a[read + 1..] == a[read..][1..] && s[read + 1..] == s[read..][1..];
    var a' := a[write := a[read]];
    assert a'[..write + 1] == a[..write] + [a[read]] && a'[read + 1..] == a[read + 1..];
  }

  lemma {:induction false} CompactEnd(s: seq<Task>, keep: seq<bool>, c: nat, a: seq<Task>, write: nat, found: bool, cursor: nat)
    requires Compacting(s, keep, c, a, |s|, write, found, cursor) && (s == [] || c < |s|)
    ensures a[..write] == Kept(s, keep, |s|) && (found ==> cursor < write)
    ensures write > 0 ==> s != [] && KeptCursor(keep, c) == if found then cursor else write - 1
    ensures write == 0 && s != [] ==> KeptCursor(keep, c) == 0
  {
    if s != [] { RankMonotone(keep, c + 1, |s|); }
  }

  function KeepOthers(s: seq<Task>, t: Task): (r: seq<bool>)
    ensures |r| == |s|
  {
    seq(|s|, i requires 0 <= i < |s| => s[i] != t)
  }

  /** Which entries survive when the copies of `t` shrink to `w`: an even share of them. */
  function KeepShare(s: seq<Task>, t: Task, w: nat): (r: seq<bool>)
    ensures |r| == |s|
  {
    seq(|s|, i requires 0 <= i < |s| => s[i] != t || (Count(s, t) > 0 && Marked(Count(s[..i], t), w, Count(s, t))))
  }

  lemma {:induction false} Append(r: seq<Task>, x: Task, t: Task)
    ensures Count(r + [x], t) == Count(r, t) + if x == t then 1 else 0
    ensures Without(r + [x], t) == Without(r, t) + if x == t then [] else [x]
  {
    assert (r + [x])[..|r|] == r;
  }

  lemma {:induction false} RemovedMeaning(s: seq<Task>, t: Task, i: nat)
    requires i <= |s|
    ensures Kept(s, KeepOthers(s, t), i) == Without(s[..i], t) && Count(Kept(s, KeepOthers(s, t), i), t) == 0
    decreases i
  {
    assert s[..0] == [];
    if i > 0 {
      RemovedMeaning(s, t, i - 1);
      Snoc(s, i, t);
      Append(Kept(s, KeepOthers(s, t), i - 1), s[i - 1], t);
    }
  }

  /** Whether entry `i` survives a shrink, as the compacting loop computes it. */
  lemma {:induction false} ShareKept(s: seq<Task>, t: Task, w: nat, i: nat)
    requires i < |s| && Count(s, t) > 0
    ensures Count(s[..i + 1], t) == Count(s[..i], t) + if s[i] == t then 1 else 0
    ensures var seen := Count(s[..i], t); var all := Count(s, t);
            KeepShare(s, t, w)[i] == (s[i] != t || (seen + 1) * w / all != seen * w / all)
  {
    Snoc(s, i + 1, t);
  }

  lemma {:induction false} ShrunkPrefix(s: seq<Task>, t: Task, w: nat, i: nat)
    requires i <= |s| && 1 <= w <= Count(s, t)
    ensures Without(Kept(s, KeepShare(s, t, w), i), t) == Without(s[..i], t)
    ensures Count(Kept(s, KeepShare(s, t, w), i), t) == Share(Count(s[..i], t), w, Count(s, t))
    decreases i
  {
    hide Share, Count, Without, KeepShare, Kept, Marked;
    KeptStep(s, KeepShare(s, t, w), i);
    if i > 0 {
      ShrunkPrefix(s, t, w, i - 1);
      Snoc(s, i, t);
      ShareStep(Count(s[..i - 1], t), w, Count(s, t));
      ShareKeeps(s, t, w, i - 1);
      Append(Kept(s, KeepShare(s, t, w), i - 1), s[i - 1], t);
      assert Without(s[..i - 1], t) + [] == Without(s[..i - 1], t);
    } else {
      CountNothing(s, t);
      ShareStep(0, w, Count(s, t));
    }
  }

  lemma {:induction false} CountNothing(s: seq<Task>, t: Task)
    ensures s[..0] == [] && Count(s[..0], t) == 0 && Count([], t) == 0 && Without(s[..0], t) == [] && Without([], t) == []
  {
  }

  lemma {:induction false} KeptStep(s: seq<Task>, keep: seq<bool>, i: nat)
    requires |keep| == |s| && i <= |s|
    ensures Kept(s, keep, i)
            == if i == 0 then [] else if keep[i - 1] then Kept(s, keep, i - 1) + [s[i - 1]] else Kept(s, keep, i - 1)
  {
  }

  lemma {:induction false} ShareKeeps(s: seq<Task>, t: Task, w: nat, i: nat)
    requires i < |s| && Count(s, t) > 0
    ensures var seen := Count(s[..i], t); var all := Count(s, t);
            KeepShare(s, t, w)[i] == (s[i] != t || Share(seen + 1, w, all) != Share(seen, w, all))
  {
    ShareKept(s, t, w, i);
  }

  /** Exactly `w` copies remain, and every other entry in its old order. */
  lemma {:induction false} ShrunkMeaning(s: seq<Task>, t: Task, w: nat)
    requires 1 <= w <= Count(s, t)
    ensures Without(Kept(s, KeepShare(s, t, w), |s|), t) == Without(s, t)
    ensures Count(Kept(s, KeepShare(s, t, w), |s|), t) == w
  {
    ShrunkPrefix(s, t, w, |s|);
    assert s[..|s|] == s;
    ShareStep(0, w, Count(s, t));
  }

  // The four operations on a chunk and its cursor; None is the C code's FALSE.

  datatype Chunk = Chunk(tasks: seq<Task>, current: nat)

  predicate CursorOk(c: Chunk) { |c.tasks| <= CHUNK_MAX && (c.tasks == [] || c.current < |c.tasks|) }

  /** The slot that receives old entry `c`, searched for from slot `p` down. */
  function OldSlot(len: nat, w: nat, c: nat, p: nat): (r: nat)
    requires 1 <= w && p <= len + w && c < p - Share(p, w, len + w)
    ensures r < p && StaysOn(len, w, c, r)
  {
    ShareStep(p - 1, w, len + w);
    if StaysOn(len, w, c, p - 1) then p - 1 else OldSlot(len, w, c, p - 1)
  }

  /** One step of the backward rewrite: what slot `index - 1` receives and which old entry that is. */
  lemma {:induction false} InsertStep(s: seq<Task>, t: Task, w: nat, c: nat, index: nat)
    requires 1 <= w && 0 < index <= |s| + w
    ensures var n := |s| + w; var p := index - 1; var read := index - Share(index, w, n);
            && 0 <= read <= |s|
            && Share(index, w, n) == index * w / n && Share(p, w, n) == p * w / n
            && Marked(p, w, n) == (Share(index, w, n) != Share(p, w, n))
            && (Marked(p, w, n) ==> p - Share(p, w, n) == read && Inserted(s, t, w)[p] == t)
            && (!Marked(p, w, n) ==> p - Share(p, w, n) == read - 1 && 0 < read <= index && Inserted(s, t, w)[p] == s[read - 1])
            && (c < |s| && c < read ==> OldSlot(|s|, w, c, index) == if !Marked(p, w, n) && read - 1 == c then p else OldSlot(|s|, w, c, p))
  {
    var n := |s| + w;
    ShareStep(index - 1, w, n);
    ShareBelow(index - 1, w, n);
    ShareBelow(index, w, n);
  }

  /** The array `a` once slots from `index` up hold the new chunk; `read` old entries are still to be placed. */
  ghost predicate Inserting(s: seq<Task>, t: Task, w: nat, c: nat, a: seq<Task>, index: nat, read: nat, cursor: nat)
    requires 1 <= w
  {
    && |a| == |s| + w && index <= |a| && read <= |s| && read == index - Share(index, w, |a|)
    && (forall j :: 0 <= j < index && j < |s| ==> a[j] == s[j])
    && (forall j :: index <= j < |a| ==> a[j] == Inserted(s, t, w)[j])
    && cursor == (if c < |s| && read <= c then NewCursor(|s|, w, c) else 0)
    && (c < |s| && c < read ==> NewCursor(|s|, w, c) == OldSlot(|s|, w, c, index))
  }

  lemma {:induction false} InsertingStart(s: seq<Task>, t: Task, w: nat, c: nat, a: seq<Task>)
    requires 1 <= w && |a| == |s| + w && a[..|s|] == s
    ensures Inserting(s, t, w, c, a, |a|, |s|, 0)
  {
    ShareStep(0, w, |a|);
    forall j | 0 <= j < |s| ensures a[j] == s[j] { assert a[j] == a[..|s|][j]; }
  }

  lemma {:induction false} InsertingStep(s: seq<Task>, t: Task, w: nat, c: nat, a: seq<Task>, index: nat, read: nat, cursor: nat)
    requires 1 <= w && Inserting(s, t, w, c, a, index, read, cursor) && index > 0
    ensures var p := index - 1;
            if index * w / |a| != p * w / |a| then Inserting(s, t, w, c, a[p := t], p, read, cursor)
            else 0 < read <= index && Inserting(s, t, w, c, a[p := a[read - 1]], p, read - 1, if read - 1 == c then p else cursor)
  {
    hide OldSlot, NewCursor, Share, Marked, Inserted;
    InsertStep(s, t, w, c, index);
  }

  lemma {:induction false} InsertingEnd(s: seq<Task>, t: Task, w: nat, c: nat, a: seq<Task>, read: nat, cursor: nat)
    requires 1 <= w && Inserting(s, t, w, c, a, 0, read, cursor)
    ensures a == Inserted(s, t, w) && cursor == NewCursor(|s|, w, c)
  {
    ShareStep(0, w, |a|);
  }

  function NewCursor(len: nat, w: nat, c: nat): (r: nat)
    requires 1 <= w
    ensures r < len + w && (c < len ==> StaysOn(len, w, c, r))
  {
    ShareStep(0, w, len + w);
    if c < len then OldSlot(len, w, c, len + w) else 0
  }

  function Insert(c: Chunk, t: Task, w: nat): Option<Chunk> {
    if t == NULL || w == 0 || w > MAX_WEIGHT || !CursorOk(c) || w > CHUNK_MAX - |c.tasks| then None
    else Some(Chunk(Inserted(c.tasks, t, w), NewCursor(|c.tasks|, w, c.current)))
  }

  function Compact(c: Chunk, keep: seq<bool>): Chunk
    requires |keep| == |c.tasks| && CursorOk(c)
  {
    Chunk(Kept(c.tasks, keep, |keep|), if c.tasks == [] then 0 else KeptCursor(keep, c.current))
  }

  function Remove(c: Chunk, t: Task): Option<Chunk> {
    if t == NULL || !CursorOk(c) then None else Some(Compact(c, KeepOthers(c.tasks, t)))
  }

  function Update(c: Chunk, t: Task, w: nat): Option<Chunk> {
    if t == NULL || w == 0 || w > MAX_WEIGHT || !CursorOk(c) then None
    else if Count(c.tasks, t) == w then Some(c)
    else if Count(c.tasks, t) < w then Insert(c, t, w - Count(c.tasks, t))
    else Some(Compact(c, KeepShare(c.tasks, t, w)))
  }

  function Modify(c: Chunk, t: Task, priority: nat): Option<Chunk> {
    if t == NULL || priority > MAX_WEIGHT || |c.tasks| > CHUNK_MAX then None
    else if priority == 0 then Remove(c, t)
    else if t !in c.tasks then Insert(c, t, priority)
    else Update(c, t, priority)
  }

  lemma {:induction false} CountIn(s: seq<Task>, t: Task)
    ensures Count(s, t) > 0 <==> t in s
  {
    if s != [] { CountIn(s[..|s| - 1], t); }
  }

  lemma {:induction false} WithoutAll(s: seq<Task>, t: Task, u: Task)
    requires u != t
    ensures Count(Without(s, t), u) == Count(s, u) && Count(Without(s, t), t) == 0
  {
    if s != [] {
      WithoutAll(s[..|s| - 1], t, u);
      var r := Without(s[..|s| - 1], t);
      Append(r, s[|s| - 1], u);
      Append(r, s[|s| - 1], t);
      assert r + [] == r;
    }
  }

  /** Which entries survive when `t` is given `w` slots. */
  function Survivors(s: seq<Task>, t: Task, w: nat): (r: seq<bool>)
    ensures |r| == |s|
  {
    if w >= Count(s, t) then seq(|s|, _ => true) else if w == 0 then KeepOthers(s, t) else KeepShare(s, t, w)
  }

  /** The entry that was at the cursor, or the first survivor after it when it goes, is found at the cursor, or right
      after it: the same task with the same entries of other tasks before it, and of the survivors just as many. */
  ghost predicate CursorFollows(c: Chunk, t: Task, w: nat, d: Chunk)
    requires CursorOk(c) && CursorOk(d)
  {
    c.tasks != [] && d.tasks != [] ==>
      var keep := Survivors(c.tasks, t, w);
      var stays := keep[c.current];
      var i := if stays then c.current else NextKept(keep, c.current);
      var k := if stays then d.current else (d.current + 1) % |d.tasks|;
      && i < |c.tasks| && keep[i] && d.tasks[k] == c.tasks[i]
      && Without(d.tasks[..k], t) == Without(c.tasks[..i], t)
      && (w < Count(c.tasks, t) ==> k == Rank(keep, i))
  }

  lemma {:induction false} KeptPrefix(s: seq<Task>, keep: seq<bool>, i: nat, n: nat)
    requires i <= n <= |s| == |keep|
    ensures Rank(keep, i) <= Rank(keep, n) && Kept(s, keep, n)[..Rank(keep, i)] == Kept(s, keep, i)
    decreases n
  {
    if i < n { KeptPrefix(s, keep, i, n - 1); }
  }

  lemma {:induction false} CompactFollows(c: Chunk, t: Task, w: nat)
    requires CursorOk(c) && w < Count(c.tasks, t) && CursorOk(Compact(c, Survivors(c.tasks, t, w)))
    ensures CursorFollows(c, t, w, Compact(c, Survivors(c.tasks, t, w)))
  {
    var s := c.tasks;
    var keep := Survivors(s, t, w);
    var d := Compact(c, keep);
    if s != [] && d.tasks != [] {
      hide Kept, KeptCursor, NextKept, Survivors, Without, Rank;
      KeptCursorMeaning(s, keep, c.current);
      CursorRank(keep, c.current);
      var i := if keep[c.current] then c.current else NextKept(keep, c.current);
      KeptPrefix(s, keep, i, |s|);
      SurvivorsPrefix(s, t, w, i);
    }
  }

  /** Of the entries before `i` all those of other tasks survive. */
  lemma {:induction false} SurvivorsPrefix(s: seq<Task>, t: Task, w: nat, i: nat)
    requires i <= |s| && w < Count(s, t)
    ensures Without(Kept(s, Survivors(s, t, w), i), t) == Without(s[..i], t)
  {
    if w == 0 {
      RemovedMeaning(s, t, i);
      WithoutSelf(s[..i], t);
    } else {
      ShrunkPrefix(s, t, w, i);
    }
  }

  lemma {:induction false} InsertFollows(c: Chunk, t: Task, w: nat, more: nat)
    requires CursorOk(c) && w == Count(c.tasks, t) + more && more > 0 && Insert(c, t, more).Some?
    ensures CursorOk(Insert(c, t, more).value) && CursorFollows(c, t, w, Insert(c, t, more).value)
  {
    hide Without, OldSlot, Marked, Share, StaysOn, NewCursor;
    if c.tasks != [] { StaysOnMeaning(c.tasks, t, more, c.current, NewCursor(|c.tasks|, more, c.current), 0); }
  }

  /** One of the first `g` slots from `a` on, going round, holds `t`. */
  ghost predicate Within(d: seq<Task>, t: Task, a: nat, g: nat) { exists k: nat :: k < g && HoldsAt(d, t, a, k) }

  predicate HoldsAt(d: seq<Task>, t: Task, a: nat, k: nat) { |d| > 0 && d[(a + k) % |d|] == t }

  /** New copies are spread evenly: every window of ceil(n / more) slots, going round, holds `t`. */
  ghost predicate SpreadOut(d: seq<Task>, t: Task, more: nat)
    requires more > 0
  {
    forall a: nat :: a < |d| ==> Within(d, t, a, CeilDiv(|d|, more))
  }

  /** Copies are dropped evenly: of the first m of `all` old copies m * w / all are left, and every other entry. */
  ghost predicate ThinnedOut(s: seq<Task>, t: Task, w: nat, d: seq<Task>)
    requires Count(s, t) > 0
  {
    forall i: nat :: i <= |s| ==> ThinnedAt(s, t, w, d, i)
  }

  ghost predicate ThinnedAt(s: seq<Task>, t: Task, w: nat, d: seq<Task>, i: nat)
    requires Count(s, t) > 0 && i <= |s|
  {
    exists j: nat :: j <= |d| && ThinnedTo(s[..i], t, w, Count(s, t), d[..j])
  }

  predicate ThinnedTo(s: seq<Task>, t: Task, w: nat, all: nat, d: seq<Task>)
    requires all > 0
  {
    Without(d, t) == Without(s, t) && Count(d, t) == Count(s, t) * w / all
  }

  lemma {:induction false} InsertedSpread(s: seq<Task>, t: Task, w: nat)
    requires 1 <= w
    ensures SpreadOut(Inserted(s, t, w), t, w)
  {
    hide CeilDiv, Marked, Within;
    var d := Inserted(s, t, w);
    forall a: nat | a < |d| ensures Within(d, t, a, CeilDiv(|d|, w)) {
      var k := CopyInWindow(a, w, |d|);
      WindowHas(s, t, w, a, k, CeilDiv(|d|, w));
    }
  }

  lemma {:induction false} WindowHas(s: seq<Task>, t: Task, w: nat, a: nat, k: nat, g: nat)
    requires 1 <= w && k < g && Marked((a + k) % (|s| + w), w, |s| + w)
    ensures Within(Inserted(s, t, w), t, a, g)
  {
    assert HoldsAt(Inserted(s, t, w), t, a, k);
  }

  lemma {:induction false} ShrunkThin(s: seq<Task>, t: Task, w: nat)
    requires 1 <= w <= Count(s, t)
    ensures ThinnedOut(s, t, w, Kept(s, KeepShare(s, t, w), |s|))
  {
    var keep := KeepShare(s, t, w);
    var d := Kept(s, keep, |s|);
    forall i: nat | i <= |s| ensures ThinnedAt(s, t, w, d, i) {
      KeptPrefix(s, keep, i, |s|);
      ShrunkPrefix(s, t, w, i);
      assert ThinnedTo(s[..i], t, w, Count(s, t), d[..Rank(keep, i)]);
    }
  }

  /** A changed weight is spread evenly over the chunk: the copies added, or the copies left. */
  lemma {:induction false} ModifyEven(c: Chunk, t: Task, priority: nat)
    requires Modify(c, t, priority).Some?
    ensures var d := Modify(c, t, priority).value; var had := Count(c.tasks, t);
            && (priority > had ==> SpreadOut(d.tasks, t, priority - had))
            && (0 < priority <= had ==> ThinnedOut(c.tasks, t, priority, d.tasks))
            && (d.tasks == [] || c.tasks == [] ==> d.current == 0 || d == c)
  {
    hide SpreadOut, ThinnedOut, KeepShare, Inserted, NewCursor, KeepOthers;
    var s := c.tasks;
    CountIn(s, t);
    if priority > Count(s, t) { InsertedSpread(s, t, priority - Count(s, t)); EmptyCursor(c, priority - Count(s, t)); }
    else if 0 < priority < Count(s, t) { ShrunkThin(s, t, priority); }
    else if priority > 0 { AllLeft(s, t); }
    if priority < Count(s, t) || priority == 0 {
      var keep := if priority == 0 then KeepOthers(s, t) else KeepShare(s, t, priority);
      if Kept(s, keep, |s|) == [] && s != [] { NoneLeft(s, keep); RankMonotone(keep, c.current + 1, |s|); }
    }
  }

  lemma {:induction false} EmptyCursor(c: Chunk, w: nat)
    requires 1 <= w && CursorOk(c)
    ensures c.tasks == [] ==> NewCursor(0, w, c.current) == 0
  {
  }

  lemma {:induction false} AllLeft(s: seq<Task>, t: Task)
    requires Count(s, t) > 0
    ensures ThinnedOut(s, t, Count(s, t), s)
  {
    forall i: nat | i <= |s| ensures Count(s[..i], t) * Count(s, t) / Count(s, t) == Count(s[..i], t) {
      DivIs(Count(s[..i], t) * Count(s, t), Count(s[..i], t), 0, Count(s, t));
    }
  }

  lemma {:induction false} NoneLeft(s: seq<Task>, keep: seq<bool>)
    requires |keep| == |s| && Kept(s, keep, |s|) == []
    ensures Rank(keep, |s|) == 0
  {
  }

  /** A successful change leaves exactly `priority` copies of `t`, every other entry in its old order, and a cursor that
      stays on its occurrence or stands before the first survivor after it; it fails for a cursor out of range, a bad
      task or priority, or lack of room. */
  lemma {:induction false} ModifyMeaning(c: Chunk, t: Task, priority: nat)
    ensures Modify(c, t, priority).Some? <==>
              t != NULL && priority <= MAX_WEIGHT && CursorOk(c) && |c.tasks| - Count(c.tasks, t) + (if priority == 0 then 0 else Max(priority, Count(c.tasks, t))) <= CHUNK_MAX
    ensures Modify(c, t, priority).Some? ==>
              var d := Modify(c, t, priority).value;
              && Count(d.tasks, t) == priority && Without(d.tasks, t) == Without(c.tasks, t)
              && CursorOk(d) && CursorFollows(c, t, priority, d)
  {
    hide Without, KeepOthers, KeepShare, Kept, Inserted, KeptCursor, NewCursor, CursorFollows;
    var s := c.tasks;
    CountIn(s, t);
    if 1 <= priority < Count(s, t) {
      ShrunkMeaning(s, t, priority);
      CompactOk(c, KeepShare(s, t, priority));
      if CursorOk(c) { CompactFollows(c, t, priority); }
    } else if priority > Count(s, t) {
      InsertedMeaning(s, t, priority - Count(s, t));
      if Modify(c, t, priority).Some? { InsertFollows(c, t, priority, priority - Count(s, t)); }
    } else if priority == 0 {
      RemoveMeaning(c, t);
      if CursorOk(c) && Count(s, t) > 0 { CompactOk(c, KeepOthers(s, t)); CompactFollows(c, t, 0); }
      if Count(s, t) == 0 { NothingRemoved(c, t); }
    } else if CursorOk(c) { SameFollows(c, t, priority); }
  }

  lemma {:induction false} SameFollows(c: Chunk, t: Task, w: nat)
    requires CursorOk(c) && w >= Count(c.tasks, t)
    ensures CursorFollows(c, t, w, c)
  {
  }

  lemma {:induction false} RankTrue(keep: seq<bool>, i: nat)
    requires i <= |keep| && forall j :: 0 <= j < |keep| ==> keep[j]
    ensures Rank(keep, i) == i
  {
    if i > 0 { RankTrue(keep, i - 1); }
  }

  /** Removing a task that has no slot changes nothing. */
  lemma {:induction false} NothingRemoved(c: Chunk, t: Task)
    requires Count(c.tasks, t) == 0
    ensures CursorOk(c) && t != NULL ==>
              Remove(c, t).Some? && CursorOk(Remove(c, t).value) && CursorFollows(c, t, 0, Remove(c, t).value)
  {
    if CursorOk(c) && c.tasks != [] {
      AllSurvive(c, t);
      hide CursorFollows, Compact, KeepOthers;
      SameFollows(c, t, 0);
    } else if CursorOk(c) { CompactOk(c, KeepOthers(c.tasks, t)); }
  }

  lemma {:induction false} AllSurvive(c: Chunk, t: Task)
    requires Count(c.tasks, t) == 0 && CursorOk(c) && c.tasks != []
    ensures Compact(c, KeepOthers(c.tasks, t)) == c
  {
    var s, keep := c.tasks, KeepOthers(c.tasks, t);
    CountIn(s, t);
    RankTrue(keep, c.current + 1);
    RankTrue(keep, |s|);
    KeptAll(s, keep, |s|);
    assert s[..|s|] == s;
  }

  lemma {:induction false} KeptAll(s: seq<Task>, keep: seq<bool>, i: nat)
    requires i <= |s| == |keep| && forall j :: 0 <= j < |keep| ==> keep[j]
    ensures Kept(s, keep, i) == s[..i]
  {
    if i > 0 { KeptAll(s, keep, i - 1); assert s[..i] == s[..i - 1] + [s[i - 1]]; }
  }

  lemma {:induction false} RemoveMeaning(c: Chunk, t: Task)
    ensures Remove(c, t).Some? ==>
              var d := Remove(c, t).value;
              Count(d.tasks, t) == 0 && d.tasks == Without(c.tasks, t) == Without(d.tasks, t) && CursorOk(d)
  {
    var s := c.tasks;
    RemovedMeaning(s, t, |s|);
    assert s[..|s|] == s;
    WithoutSelf(s, t);
    CompactOk(c, KeepOthers(s, t));
  }

  lemma {:induction false} CompactOk(c: Chunk, keep: seq<bool>)
    requires |keep| == |c.tasks|
    ensures CursorOk(c) ==> CursorOk(Compact(c, keep))
  {
    if CursorOk(c) && c.tasks != [] { RankAll(keep, c.current); }
  }

  function Max(a: nat, b: nat): nat { if a < b then b else a }

  lemma {:induction false} WithoutSelf(s: seq<Task>, t: Task)
    ensures Without(Without(s, t), t) == Without(s, t)
  {
    if s != [] {
      WithoutSelf(s[..|s| - 1], t);
      Append(Without(s[..|s| - 1], t), s[|s| - 1], t);
      var r := Without(s[..|s| - 1], t);
      assert r + [] == r;
    }
  }

  lemma {:induction false} RankAll(keep: seq<bool>, c: nat)
    requires c <= |keep|
    ensures Rank(keep, |keep|) <= |keep|
    ensures KeptCursor(keep, c) < Rank(keep, |keep|) || (Rank(keep, |keep|) == 0 == KeptCursor(keep, c))
  {
    RankMonotone(keep, if c < |keep| then c + 1 else c, |keep|);
  }
}
