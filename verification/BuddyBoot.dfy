/** For which firmware maps initialisation leaves two free buddies apart. */
module BuddyBoot {
  import opened Prelude
  import opened BuddySpec
  import opened BuddyProofs
  import opened BuddyRuns

  // ---- The map as the runs of pages that are filed ----

  /** What BuddyAddUsableRange files of a run: nothing below 1 MiB. */
  function Clip(start: nat, count: nat): seq<Range> {
    if count == 0 || start + count <= RESERVED then []
    else [Range(Higher(start, RESERVED), start + count - Higher(start, RESERVED))]
  }

  /** What is left of a descriptor outside the kernel image. */
  function PiecesOf(d: Range, from: nat, to: nat): seq<Range> {
    var end := d.start + d.count;
    if d.count == 0 then []
    else if to <= from || end <= from || d.start >= to then Clip(d.start, d.count)
    else (if d.start < from then Clip(d.start, from - d.start) else []) + (if end > to then Clip(to, end - to) else [])
  }

  /** The usable pieces of the map, in the order they are filed. */
  function Pieces(ds: seq<Range>, from: nat, to: nat): seq<Range> {
    if ds == [] then [] else Pieces(ds[..|ds| - 1], from, to) + PiecesOf(ds[|ds| - 1], from, to)
  }

  function Fill(ps: seq<Range>): (t: Buddy)
    ensures |t.lists| == TOP + 1
  {
    if ps == [] then Empty() else AddRange(Fill(ps[..|ps| - 1]), ps[|ps| - 1].start, ps[|ps| - 1].count)
  }

  function EndOf(d: Range): nat { d.start + d.count }

  /** Pieces are not empty, do not hold page 0 and do not overlap. */
  predicate PiecesOk(ps: seq<Range>) {
    && (forall i :: 0 <= i < |ps| ==> ps[i].start > 0 && ps[i].count > 0)
    && forall i, j :: 0 <= i < j < |ps| ==> EndOf(ps[i]) <= ps[j].start || EndOf(ps[j]) <= ps[i].start
  }

  /** Piece `b` begins where `a` ends, and both are at least as long as the largest block, short of the top order,
      that is aligned at their common border. */
  predicate Meets(a: Range, b: Range) {
    EndOf(a) == b.start && exists o: nat :: o < TOP && BorderOrder(b.start, o) && Pow2(o) <= a.count && Pow2(o) <= b.count
  }

  /** 2^o is the largest power of two that divides the page number. */
  predicate BorderOrder(e: nat, o: nat) { Aligned(e, o) && !Aligned(e, o + 1) }

  ghost predicate NoneMeet(ps: seq<Range>) {
    forall i, j :: 0 <= i < |ps| && 0 <= j < |ps| ==> !Meets(ps[i], ps[j])
  }

  lemma {:induction false} FillAppend(ps: seq<Range>, qs: seq<Range>)
    ensures |qs| == 0 ==> Fill(ps + qs) == Fill(ps)
    ensures |qs| == 1 ==> Fill(ps + qs) == AddRange(Fill(ps), qs[0].start, qs[0].count)
  {
    if |qs| == 0 { assert ps + qs == ps; }
    if |qs| == 1 { assert (ps + qs)[..|ps + qs| - 1] == ps; }
  }

  /** Filing a run is filing its clipped piece. */
  lemma {:induction false} FillClip(ps: seq<Range>, start: nat, count: nat)
    ensures AddUsable(Fill(ps), start, count) == Fill(ps + Clip(start, count))
  {
    FillAppend(ps, Clip(start, count));
  }

  lemma {:induction false} FillPieces(ps: seq<Range>, d: Range, from: nat, to: nat)
    ensures AddExcept(Fill(ps), d, from, to) == Fill(ps + PiecesOf(d, from, to))
  {
    hide AddUsable, Clip, Fill;
    var end := d.start + d.count;
    assert ps + [] == ps;
    if d.count == 0 {}
    else if to <= from || end <= from || d.start >= to { FillClip(ps, d.start, d.count); }
    else {
      var first := if d.start < from then Clip(d.start, from - d.start) else [];
      var second := if end > to then Clip(to, end - to) else [];
      if d.start < from { FillClip(ps, d.start, from - d.start); }
      if end > to { FillClip(ps + first, to, end - to); }
      assert ps + first + second == ps + (first + second);
      assert ps + first + [] == ps + first;
    }
  }

  lemma {:induction false} InitIsFill(ds: seq<Range>, from: nat, to: nat)
    ensures Init(ds, from, to) == Fill(Pieces(ds, from, to))
  {
    if ds != [] {
      InitIsFill(ds[..|ds| - 1], from, to);
      FillPieces(Pieces(ds[..|ds| - 1], from, to), ds[|ds| - 1], from, to);
    }
  }

  /** A piece of a descriptor lies in it. */
  predicate InsideOf(p: Range, d: Range) { p.start >= RESERVED && p.count > 0 && d.start <= p.start && EndOf(p) <= EndOf(d) }

  lemma {:induction false} PiecesInside(d: Range, from: nat, to: nat)
    ensures var ps := PiecesOf(d, from, to);
            |ps| <= 2 && (forall i :: 0 <= i < |ps| ==> InsideOf(ps[i], d)) && (|ps| == 2 ==> EndOf(ps[0]) <= ps[1].start)
  {
  }

  ghost predicate AllInside(ps: seq<Range>, ds: seq<Range>) {
    forall i :: 0 <= i < |ps| ==> exists k :: 0 <= k < |ds| && InsideOf(ps[i], ds[k])
  }

  /** Descriptors that do not overlap give pieces that do not. */
  lemma {:induction false} PiecesApart(ds: seq<Range>, from: nat, to: nat)
    requires RangesApart(ds)
    ensures PiecesOk(Pieces(ds, from, to)) && AllInside(Pieces(ds, from, to), ds)
  {
    if ds != [] {
      var n := |ds| - 1;
      PiecesApart(ds[..n], from, to);
      PiecesInside(ds[n], from, to);
      MorePieces(Pieces(ds[..n], from, to), PiecesOf(ds[n], from, to), ds);
    }
  }

  lemma {:induction false} MorePieces(qs: seq<Range>, rs: seq<Range>, ds: seq<Range>)
    requires ds != [] && RangesApart(ds) && PiecesOk(qs) && AllInside(qs, ds[..|ds| - 1])
    requires |rs| <= 2 && (forall i :: 0 <= i < |rs| ==> InsideOf(rs[i], ds[|ds| - 1])) && (|rs| == 2 ==> EndOf(rs[0]) <= rs[1].start)
    ensures PiecesOk(qs + rs) && AllInside(qs + rs, ds)
  {
    var n, ps := |ds| - 1, qs + rs;
    forall i | 0 <= i < |ps| ensures ps[i].start > 0 && ps[i].count > 0 && exists k :: 0 <= k < |ds| && InsideOf(ps[i], ds[k]) {
      if i < |qs| { var k :| 0 <= k < n && InsideOf(qs[i], ds[..n][k]); assert InsideOf(ps[i], ds[k]); }
      else { assert InsideOf(ps[i], ds[n]); }
    }
    forall i, j | 0 <= i < |qs| && 0 <= j < |rs| ensures EndOf(qs[i]) <= rs[j].start || EndOf(rs[j]) <= qs[i].start {
      var k :| 0 <= k < n && InsideOf(qs[i], ds[..n][k]);
    }
    forall i, j | 0 <= i < j < |ps| ensures EndOf(ps[i]) <= ps[j].start || EndOf(ps[j]) <= ps[i].start {
      if i < |qs| <= j { assert ps[i] == qs[i] && ps[j] == rs[j - |qs|]; }
    }
  }

  // ---- What filing the pieces leaves ----

  /** The block lies in piece `i`. */
  predicate LiesIn(d: Range, r: nat, q: nat) { d.start <= q && q + Pow2(r) <= EndOf(d) }

  ghost predicate Holds(ps: seq<Range>, x: nat) { exists i :: 0 <= i < |ps| && ps[i].start <= x < EndOf(ps[i]) }

  /** Exactly the pages of the pieces are free, and no block crosses from one piece to another. */
  ghost predicate Filled(t: Buddy, ps: seq<Range>) {
    && WF(t) && (forall x: nat :: FreeAt(t, x) <==> Holds(ps, x))
    && forall r: nat, q: nat :: In(t, r, q) ==> exists i :: 0 <= i < |ps| && LiesIn(ps[i], r, q)
  }

  lemma {:induction false} FilledNone()
    ensures Filled(Empty(), []) && NoBuddies(Empty())
  {
    EmptyOk();
  }

  /** The next piece is clear of what was filed. */
  lemma {:induction false} NextClear(s: Buddy, ps: seq<Range>, n: nat)
    requires PiecesOk(ps) && n < |ps| && Filled(s, ps[..n])
    ensures Clear(s, ps[n].start, ps[n].count)
  {
    forall x: nat | ps[n].start <= x < EndOf(ps[n]) ensures !FreeAt(s, x) {
      assert forall i :: 0 <= i < n ==> ps[..n][i] == ps[i];
    }
    NotFreeClear(s, ps[n].start, ps[n].count);
  }

  lemma {:induction false} FilledStep(s: Buddy, ps: seq<Range>, t: Buddy)
    requires ps != [] && Filled(s, ps[..|ps| - 1]) && WF(t) && Added(s, t, ps[|ps| - 1].start, ps[|ps| - 1].count)
    ensures Filled(t, ps)
  {
    var n := |ps| - 1;
    hide WF, FreeAt, In, Pow2;
    forall x: nat ensures Holds(ps, x) <==> Holds(ps[..n], x) || ps[n].start <= x < EndOf(ps[n]) {
      if Holds(ps[..n], x) { var i :| 0 <= i < n && ps[..n][i].start <= x < EndOf(ps[..n][i]); assert ps[i] == ps[..n][i]; }
      if Holds(ps, x) && !(ps[n].start <= x < EndOf(ps[n])) {
        var i :| 0 <= i < |ps| && ps[i].start <= x < EndOf(ps[i]);
        assert ps[i] == ps[..n][i];
      }
    }
    forall r: nat, q: nat | In(t, r, q) ensures exists i :: 0 <= i < |ps| && LiesIn(ps[i], r, q) {
      if In(s, r, q) { var i :| 0 <= i < n && LiesIn(ps[..n][i], r, q); assert LiesIn(ps[i], r, q); }
      else { assert LiesIn(ps[n], r, q); }
    }
  }

  /** Two free buddies in different pieces: the pieces meet between them. */
  lemma {:induction false} BuddiesMeet(ps: seq<Range>, i: nat, j: nat, o: nat, p: nat)
    requires PiecesOk(ps) && i < |ps| && j < |ps| && i != j && o < TOP && Aligned(p, o)
    requires LiesIn(ps[i], o, p) && LiesIn(ps[j], o, BuddyOf(p, o))
    ensures Meets(ps[i], ps[j]) || Meets(ps[j], ps[i])
  {
    hide *;
    JoinAligned(p, o);
    var low := Lower(p, BuddyOf(p, o));
    if low == p { HalvesMeet(ps, i, j, o, low); } else { HalvesMeet(ps, j, i, o, low); }
  }

  lemma {:induction false} HalvesMeet(ps: seq<Range>, i: nat, j: nat, o: nat, low: nat)
    requires PiecesOk(ps) && i < |ps| && j < |ps| && i != j && o < TOP && Aligned(low, o + 1)
    requires LiesIn(ps[i], o, low) && LiesIn(ps[j], o, low + Pow2(o))
    ensures Meets(ps[i], ps[j])
  {
    hide Aligned, BorderOrder, Pow2;
    MiddleOrder(low, o);
    OneBefore(ps, i, j);
  }

  lemma {:induction false} OneBefore(ps: seq<Range>, i: nat, j: nat)
    requires PiecesOk(ps) && i < |ps| && j < |ps| && i != j
    ensures EndOf(ps[i]) <= ps[j].start || EndOf(ps[j]) <= ps[i].start
  {
  }

  /** The middle of a block of order `o + 1` is a border of order `o`, and only the middle of one is. */
  lemma {:induction false} MiddleOrder(low: nat, o: nat)
    ensures Aligned(low, o + 1) ==> BorderOrder(low + Pow2(o), o)
    ensures BorderOrder(low + Pow2(o), o) ==> Aligned(low, o + 1)
  {
    var m := Pow2(o);
    PowStep(o);
    if Aligned(low, o + 1) {
      var k := Units(low, o + 1);
      MultipleIs(k, m, 2 * m);
      SplitAligned(low, o);
    }
    if BorderOrder(low + m, o) {
      var k := Units(low + m, o);
      DoubleUnits(k, m);
      if k % 2 == 0 { UnitsAligned(k / 2, o + 1); }
      else { UnitsAligned(k / 2, o + 1); }
    }
  }

  /** Filing pieces none of which meet leaves no free buddies. */
  lemma {:induction false} FillOk(ps: seq<Range>)
    requires PiecesOk(ps)
    ensures Filled(Fill(ps), ps) && (NoneMeet(ps) ==> NoBuddies(Fill(ps)))
  {
    if ps == [] { FilledNone(); }
    else {
      var n := |ps| - 1;
      FillOk(ps[..n]);
      var s, t := Fill(ps[..n]), Fill(ps);
      assert ps[..n] + [ps[n]] == ps;
      NextClear(s, ps, n);
      AddRangeMeaning(s, ps[n].start, ps[n].count);
      RangeNoBuddies(s, ps[n].start, ps[n].count);
      FilledStep(s, ps, t);
      if NoneMeet(ps) {
        assert NoneMeet(ps[..n]);
        NextNoBuddies(s, ps, t);
      }
    }
  }

  lemma {:induction false} NextNoBuddies(s: Buddy, ps: seq<Range>, t: Buddy)
    requires PiecesOk(ps) && ps != [] && NoneMeet(ps) && NoBuddies(s) && Filled(s, ps[..|ps| - 1]) && WF(t)
    requires Added(s, t, ps[|ps| - 1].start, ps[|ps| - 1].count) && NoNewBuddies(s, t)
    ensures NoBuddies(t)
  {
    var n := |ps| - 1;
    forall r: nat, q: nat | r < TOP && In(t, r, q) ensures !In(t, r, BuddyOf(q, r)) {
      InOk(t, r, q);
      JoinAligned(q, r);
      var b := BuddyOf(q, r);
      if In(t, r, b) {
        InOk(t, r, b);
        JoinAligned(b, r);
        if In(s, r, q) { CrossPair(s, ps, t, r, q); } else { CrossPair(s, ps, t, r, b); }
      }
    }
  }

  /** An old block and a new one are in different pieces. */
  lemma {:induction false} CrossPair(s: Buddy, ps: seq<Range>, t: Buddy, r: nat, q: nat)
    requires PiecesOk(ps) && ps != [] && NoneMeet(ps) && NoBuddies(s) && Filled(s, ps[..|ps| - 1])
    requires Added(s, t, ps[|ps| - 1].start, ps[|ps| - 1].count)
    requires r < TOP && In(s, r, q) && Aligned(q, r)
    ensures !In(t, r, BuddyOf(q, r))
  {
    var n := |ps| - 1;
    var b := BuddyOf(q, r);
    if In(t, r, b) {
      var i :| 0 <= i < n && LiesIn(ps[..n][i], r, q);
      assert LiesIn(ps[i], r, q) && LiesIn(ps[n], r, b);
      BuddiesMeet(ps, i, n, r, q);
    }
  }

  /** No piece reaches over the border of two others. */
  lemma {:induction false} Border(ps: seq<Range>, i: nat, j: nat, k: nat)
    requires PiecesOk(ps) && i < |ps| && j < |ps| && k < |ps| && EndOf(ps[i]) == ps[j].start
    ensures EndOf(ps[k]) <= ps[j].start || ps[j].start <= ps[k].start
  {
  }

  /** Two pieces that meet leave free buddies apart at their border. */
  lemma {:induction false} MeetingLeaves(t: Buddy, ps: seq<Range>, i: nat, j: nat)
    requires PiecesOk(ps) && Filled(t, ps) && i < |ps| && j < |ps| && Meets(ps[i], ps[j])
    ensures !NoBuddies(t)
  {
    var e := ps[j].start;
    var o: nat :| o < TOP && BorderOrder(e, o) && Pow2(o) <= ps[i].count && Pow2(o) <= ps[j].count;
    var low: nat := e - Pow2(o);
    MiddleOrder(low, o);
    hide WF, In, FreeAt, Aligned, BorderOrder, NoBuddies;
    assert FreeRun(t, o + 1, low) by {
      forall x: nat | Covers(o + 1, low, x) ensures FreeAt(t, x) {
        assert if x < e then ps[i].start <= x < EndOf(ps[i]) else ps[j].start <= x < EndOf(ps[j]);
      }
    }
    forall r: nat, b: nat | In(t, r, b) && o + 1 <= r ensures !(b <= low && low + Pow2(o + 1) <= b + Pow2(r)) {
      var k :| 0 <= k < |ps| && LiesIn(ps[k], r, b);
      Border(ps, i, j, k);
    }
    assert !InOneBlock(t, o + 1, low);
    RunsInBlocks(t);
  }

  /** Initialisation leaves no two free buddies apart exactly when no two usable pieces of the map meet: one ends at a
      page where the other begins, and both are at least 2^o pages long, where 2^o below 2^20 is the largest power of
      two that divides that page number. */
  lemma {:induction false} BootNoBuddies(ds: seq<Range>, from: nat, to: nat)
    requires RangesApart(ds)
    ensures NoBuddies(Init(ds, from, to)) <==> NoneMeet(Pieces(ds, from, to))
  {
    var ps := Pieces(ds, from, to);
    InitIsFill(ds, from, to);
    PiecesApart(ds, from, to);
    FillOk(ps);
    hide Pieces, Init, Fill, Filled, Meets, NoBuddies;
    if !NoneMeet(ps) {
      var i, j :| 0 <= i < |ps| && 0 <= j < |ps| && Meets(ps[i], ps[j]);
      MeetingLeaves(Fill(ps), ps, i, j);
    }
  }

  /** A map whose usable pieces do not touch boots without free buddies, whatever their lengths. */
  lemma {:induction false} ApartBoots(ds: seq<Range>, from: nat, to: nat)
    requires RangesApart(ds)
    requires var ps := Pieces(ds, from, to); forall i, j :: 0 <= i < |ps| && 0 <= j < |ps| ==> EndOf(ps[i]) != ps[j].start
    ensures NoBuddies(Init(ds, from, to))
  {
    BootNoBuddies(ds, from, to);
  }
}
