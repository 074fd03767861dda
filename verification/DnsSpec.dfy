/** Domain names of DNS.c: reading one out of a message that may use compression, and the encoding of the query. */
module DnsSpec {
  import opened Prelude

  type Byte = x: int | 0 <= x < 256

  const STEPS := 128
  const NAME_LIMIT := 254
  const INPUT_LIMIT := 253
  const LABEL_MAX := 63
  const DOT: Byte := 46
  const DASH: Byte := 45

  function Lower(b: Byte): Byte { if 65 <= b <= 90 then b + 32 else b }

  function LowerAll(s: seq<Byte>): seq<Byte> { seq(|s|, i requires 0 <= i < |s| => Lower(s[i])) }

  /** What one step of ReadName finds at a position. */
  datatype Item = Bad | Pointer(target: nat) | End | Label(bytes: seq<Byte>)

  function ItemAt(packet: seq<Byte>, p: nat): Item {
    if p >= |packet| then Bad else
    var count := packet[p];
    if count >= 192 then
      if p + 1 >= |packet| then Bad else
      var target := (count - 192) * 256 + packet[p + 1];
      if target >= p then Bad else Pointer(target)
    else if count >= 64 || count > |packet| - (p + 1) then Bad
    else if count == 0 then End
    else Label(packet[p + 1..p + 1 + count])
  }

  /** The items of section 4.1.4 of RFC 1035, told apart by their bytes: a length of 1 to 63 and as many bytes, a zero,
      or a pointer to somewhere before it in the message; everything else is bad. */
  lemma {:induction false} ItemMeaning(packet: seq<Byte>, p: nat, l: seq<Byte>, t: nat)
    ensures ItemAt(packet, p) == Label(l) <==> 1 <= |l| <= 63 && p + 1 + |l| <= |packet| && packet[p..p + 1 + |l|] == [|l|] + l
    ensures ItemAt(packet, p) == Pointer(t) <==> t < p && t < 16384 && p + 2 <= |packet| && packet[p..p + 2] == [192 + t / 256, t % 256]
    ensures ItemAt(packet, p) == End <==> p < |packet| && packet[p] == 0
  {
    if p < |packet| && 1 <= packet[p] <= 63 && p + 1 + packet[p] <= |packet| {
      assert packet[p..p + 1 + packet[p]] == [packet[p]] + packet[p + 1..p + 1 + packet[p]];
    }
    if 1 <= |l| <= 63 && p + 1 + |l| <= |packet| && packet[p..p + 1 + |l|] == [|l|] + l {
      assert packet[p] == ([|l|] + l)[0] && packet[p + 1..p + 1 + |l|] == ([|l|] + l)[1..] == l;
    }
    if t < p && t < 16384 && p + 2 <= |packet| && packet[p..p + 2] == [192 + t / 256, t % 256] {
      assert packet[p] == packet[p..p + 2][0] && packet[p + 1] == packet[p..p + 2][1];
    }
  }

  /** A label may hold neither a zero byte nor a dot. */
  predicate Clean(l: seq<Byte>) { forall i :: 0 <= i < |l| ==> l[i] != 0 && l[i] != DOT }

  /** The name with one more label. */
  function Joined(name: seq<Byte>, l: seq<Byte>): seq<Byte> {
    (if name == [] then [] else name + [DOT]) + LowerAll(l)
  }

  /** ReadName with `steps` steps left: the name, and where the message goes on; `after` is that place once a
      pointer was followed. */
  function Read(packet: seq<Byte>, p: nat, steps: nat, name: seq<Byte>, after: Option<nat>): Option<(seq<Byte>, nat)>
    decreases steps
  {
    if steps == 0 then None else
    match ItemAt(packet, p)
    case Bad => None
    case Pointer(target) => Read(packet, target, steps - 1, name, if after.Some? then after else Some(p + 2))
    case End =>
      if |name| + 1 > NAME_LIMIT then None else Some((name, if after.Some? then after.value else p + 1))
    case Label(l) =>
      if |name| + |l| + 1 > NAME_LIMIT || !Clean(l) then None
      else Read(packet, p + 1 + |l|, steps - 1, Joined(name, l), after)
  }

  function ReadName(packet: seq<Byte>, p: nat): Option<(seq<Byte>, nat)> { Read(packet, p, STEPS, [], None) }

  /** No zero byte and no upper-case letter. */
  predicate Text(name: seq<Byte>) { forall i :: 0 <= i < |name| ==> name[i] != 0 && !(65 <= name[i] <= 90) }

  lemma {:induction false} ReadBounds(packet: seq<Byte>, p: nat, steps: nat, name: seq<Byte>, after: Option<nat>)
    requires (after.Some? ==> after.value <= |packet|) && Text(name)
    ensures var r := Read(packet, p, steps, name, after);
            r.Some? ==> && |r.value.0| < NAME_LIMIT && name <= r.value.0 && Text(r.value.0)
                        && (if after.Some? then r.value.1 == after.value else p < r.value.1 <= |packet|)
    decreases steps
  {
    if steps > 0 {
      match ItemAt(packet, p) {
        case Bad =>
        case End =>
        case Pointer(target) => ReadBounds(packet, target, steps - 1, name, if after.Some? then after else Some(p + 2));
        case Label(l) => if Clean(l) { ReadBounds(packet, p + 1 + |l|, steps - 1, Joined(name, l), after); }
      }
    }
  }

  /** On any packet, looping pointers included, a name that is read is at most 253 bytes, none of them zero or upper-case,
      and the message goes on behind where the name began. */
  lemma {:induction false} AnyPacket(packet: seq<Byte>, p: nat)
    ensures var r := ReadName(packet, p); r.Some? ==> |r.value.0| <= 253 && Text(r.value.0) && p < r.value.1 <= |packet|
  {
    ReadBounds(packet, p, STEPS, [], None);
  }

  /** The name does not depend on where the message goes on. */
  lemma {:induction false} ReadAfter(packet: seq<Byte>, p: nat, steps: nat, name: seq<Byte>, after: nat)
    ensures var r, q := Read(packet, p, steps, name, None), Read(packet, p, steps, name, Some(after));
            (r.Some? <==> q.Some?) && (r.Some? ==> q.value == (r.value.0, after))
    decreases steps
  {
    if steps > 0 {
      match ItemAt(packet, p) {
        case Pointer(target) => ReadAfterBoth(packet, target, steps - 1, name, p + 2, after);
        case Label(l) => ReadAfter(packet, p + 1 + |l|, steps - 1, Joined(name, l), after);
        case _ =>
      }
    }
  }

  lemma {:induction false} ReadAfterBoth(packet: seq<Byte>, p: nat, steps: nat, name: seq<Byte>, a: nat, b: nat)
    ensures var r, q := Read(packet, p, steps, name, Some(a)), Read(packet, p, steps, name, Some(b));
            (r.Some? <==> q.Some?) && (r.Some? ==> r.value.1 == a && q.value == (r.value.0, b))
    decreases steps
  {
    if steps > 0 {
      match ItemAt(packet, p) {
        case Pointer(target) => ReadAfterBoth(packet, target, steps - 1, name, a, b);
        case Label(l) => ReadAfterBoth(packet, p + 1 + |l|, steps - 1, Joined(name, l), a, b);
        case _ =>
      }
    }
  }

  /** A pointer reads as the name it points to and takes two bytes. */
  lemma {:induction false} PointerReads(packet: seq<Byte>, p: nat, target: nat, steps: nat)
    requires ItemAt(packet, p) == Pointer(target) && steps > 0
    ensures var r, q := Read(packet, target, steps - 1, [], None), Read(packet, p, steps, [], None);
            (r.Some? <==> q.Some?) && (r.Some? ==> q.value == (r.value.0, p + 2))
  {
    ReadAfter(packet, target, steps - 1, [], p + 2);
  }

  // ---- The query ----

  predicate LabelByte(b: Byte) { 97 <= b <= 122 || 65 <= b <= 90 || 48 <= b <= 57 || b == DASH }

  /** Where the label that starts at `i` ends. */
  function LabelEnd(name: seq<Byte>, i: nat): (e: nat)
    requires i <= |name|
    ensures i <= e <= |name| && (forall k :: i <= k < e ==> name[k] != DOT)
    ensures e == |name| || name[e] == DOT || e >= INPUT_LIMIT
    ensures i <= INPUT_LIMIT ==> e <= INPUT_LIMIT
    decreases |name| - i
  {
    if i == |name| || i >= INPUT_LIMIT || name[i] == DOT then i else LabelEnd(name, i + 1)
  }

  predicate GoodLabel(l: seq<Byte>) {
    0 < |l| <= LABEL_MAX && (forall k :: 0 <= k < |l| ==> LabelByte(l[k])) && l[0] != DASH && l[|l| - 1] != DASH
  }

  /** The labels from input position `i` on, each behind its length, and the closing zero. */
  function Encode(name: seq<Byte>, i: nat): Option<seq<Byte>>
    requires i <= |name|
    decreases |name| - i
  {
    if i >= INPUT_LIMIT then None
    else if i == |name| then if i == 0 then None else Some([0])
    else
      var e := LabelEnd(name, i);
      var l := name[i..e];
      if !GoodLabel(l) then None else
      var rest := Encode(name, if e < |name| && name[e] == DOT then e + 1 else e);
      if rest.None? then None else Some([|l|] + l + rest.value)
  }

  /** The name without the dot that may close it. */
  function Bare(name: seq<Byte>): seq<Byte> { if name != [] && name[|name| - 1] == DOT then name[..|name| - 1] else name }

  /** What was read when the encoder stands at input position `i`. */
  function SoFar(name: seq<Byte>, i: nat): seq<Byte>
    requires i <= |name|
  {
    LowerAll(Bare(name[..i]))
  }

  predicate AtLabel(name: seq<Byte>, i: nat)
    requires i <= |name|
  {
    i == 0 || i == |name| || name[i - 1] == DOT
  }

  lemma {:induction false} LabelRead(before: seq<Byte>, l: seq<Byte>, rest: seq<Byte>)
    requires GoodLabel(l)
    ensures ItemAt(before + ([|l|] + l + rest), |before|) == Label(l) && Clean(l) && |l| <= LABEL_MAX
  {
    var packet := before + ([|l|] + l + rest);
    assert packet[|before|] == |l|;
    assert packet[|before| + 1..|before| + 1 + |l|] == l;
  }

  lemma {:induction false} LowerJoin(a: seq<Byte>, l: seq<Byte>)
    requires a != []
    ensures LowerAll(a + [DOT] + l) == Joined(LowerAll(a), l)
  {
  }

  lemma {:induction false} NextSoFar(name: seq<Byte>, i: nat, e: nat)
    requires i < e <= |name| && AtLabel(name, i) && i < |name| && (forall k :: i <= k < e ==> name[k] != DOT)
    requires e == |name| || name[e] == DOT
    requires i > 0 ==> Bare(name[..i]) != []
    ensures var next := if e < |name| then e + 1 else e;
            && SoFar(name, next) == Joined(SoFar(name, i), name[i..e]) && AtLabel(name, next) && Bare(name[..next]) != []
  {
    var next := if e < |name| then e + 1 else e;
    assert Bare(name[..next]) == name[..e];
    if i == 0 { assert name[..0] == [] && LowerAll([]) == [] && name[..e] == name[0..e]; }
    else {
      assert Bare(name[..i]) == name[..i - 1] && name[..e] == name[..i - 1] + [DOT] + name[i..e];
      LowerJoin(name[..i - 1], name[i..e]);
    }
  }

  /** One turn of the encoder. */
  lemma {:induction false} EncodeStep(name: seq<Byte>, i: nat) returns (e: nat, next: nat)
    requires i < |name| && Encode(name, i).Some?
    ensures i < e <= next <= |name| && GoodLabel(name[i..e]) && (forall k :: i <= k < e ==> name[k] != DOT)
    ensures if e < |name| then name[e] == DOT && next == e + 1 else next == e
    ensures Encode(name, next).Some? && Encode(name, i).value == [|name[i..e]|] + name[i..e] + Encode(name, next).value
    ensures e < INPUT_LIMIT
  {
    e := LabelEnd(name, i);
    next := if e < |name| && name[e] == DOT then e + 1 else e;
  }

  lemma {:induction false} ReadLabel(packet: seq<Byte>, p: nat, steps: nat, name: seq<Byte>, l: seq<Byte>)
    requires ItemAt(packet, p) == Label(l) && Clean(l) && steps > 0 && |name| + |l| + 1 <= NAME_LIMIT
    ensures Read(packet, p, steps, name, None) == Read(packet, p + 1 + |l|, steps - 1, Joined(name, l), None)
  {
  }

  lemma {:induction false} ReadEnd(packet: seq<Byte>, p: nat, steps: nat, name: seq<Byte>)
    requires p < |packet| && packet[p] == 0 && steps > 0 && |name| + 1 <= NAME_LIMIT
    ensures Read(packet, p, steps, name, None) == Some((name, p + 1))
  {
  }

  lemma {:induction false} SoFarShort(name: seq<Byte>, i: nat)
    requires i <= |name|
    ensures |SoFar(name, i)| <= i && (i > 0 && AtLabel(name, i) && i < |name| ==> |SoFar(name, i)| == i - 1)
  {
  }

  lemma {:induction false} EncodeShort(name: seq<Byte>, i: nat)
    requires i <= |name| && Encode(name, i).Some?
    ensures i < INPUT_LIMIT && (i == |name| ==> Encode(name, i) == Some([0])) && Encode(name, i).value != []
  {
  }

  /** Reading the encoding of the rest of a name, in the middle of any message, gives the rest of the name. */
  lemma {:induction false} RestReads(name: seq<Byte>, i: nat, before: seq<Byte>, tail: seq<Byte>, steps: nat)
    requires i <= |name| && AtLabel(name, i) && (i > 0 ==> Bare(name[..i]) != []) && Encode(name, i).Some?
    requires 2 * steps + i + (if i == |name| then 1 else 0) >= 2 * STEPS - 2
    ensures Read(before + Encode(name, i).value + tail, |before|, steps, SoFar(name, i), None)
            == Some((LowerAll(Bare(name)), |before| + |Encode(name, i).value|))
    decreases |name| - i
  {
    hide Encode, LabelEnd, GoodLabel, Read, ItemAt, SoFar, Bare, LowerAll, Joined, Clean;
    var enc := Encode(name, i).value;
    var packet := before + enc + tail;
    EncodeShort(name, i);
    SoFarShort(name, i);
    if i == |name| {
      assert name[..i] == name;
      SoFarWhole(name);
      ReadEnd(packet, |before|, steps, SoFar(name, i));
    } else {
      var e, next := EncodeStep(name, i);
      var l, rest := name[i..e], Encode(name, next).value;
      LabelRead(before, l, rest + tail);
      assert packet == before + ([|l|] + l + (rest + tail));
      var more: seq<Byte> := before + ([|l|] + l);
      assert packet == more + rest + tail;
      ReadLabel(packet, |before|, steps, SoFar(name, i), l);
      NextSoFar(name, i, e);
      RestReads(name, next, more, tail, steps - 1);
    }
  }

  lemma {:induction false} SoFarWhole(name: seq<Byte>)
    ensures SoFar(name, |name|) == LowerAll(Bare(name))
  {
    assert name[..|name|] == name;
  }

  /** Reading back the query gives the name asked for, lower-cased and without a closing dot, and stops right behind
      it. */
  lemma {:induction false} RoundTrip(name: seq<Byte>, before: seq<Byte>, tail: seq<Byte>)
    requires Encode(name, 0).Some?
    ensures var enc := Encode(name, 0).value;
            ReadName(before + enc + tail, |before|) == Some((LowerAll(Bare(name)), |before| + |enc|))
    ensures forall i :: 0 <= i < |Bare(name)| ==> LowerAll(Bare(name))[i] == if 65 <= name[i] <= 90 then name[i] + 32 else name[i]
  {
    hide Encode, Read, Bare, LowerAll, SoFar;
    SoFarStart(name);
    RestReads(name, 0, before, tail, STEPS);
    LowerIs(name);
  }

  lemma {:induction false} SoFarStart(name: seq<Byte>)
    ensures SoFar(name, 0) == [] && AtLabel(name, 0)
  {
    assert name[..0] == [] && LowerAll([]) == [];
  }

  lemma {:induction false} LowerIs(name: seq<Byte>)
    ensures |LowerAll(Bare(name))| == |Bare(name)| <= |name|
    ensures forall i :: 0 <= i < |Bare(name)| ==> LowerAll(Bare(name))[i] == if 65 <= name[i] <= 90 then name[i] + 32 else name[i]
  {
  }

  lemma {:induction false} EarlierReads(name: seq<Byte>, before: seq<Byte>, tail: seq<Byte>)
    requires Encode(name, 0).Some?
    ensures var enc := Encode(name, 0).value;
            Read(before + enc + tail, |before|, STEPS - 1, [], None) == Some((LowerAll(Bare(name)), |before| + |enc|))
  {
    SoFarStart(name);
    EncodeShort(name, 0);
    hide Encode, Read;
    RestReads(name, 0, before, tail, STEPS - 1);
  }

  /** The two bytes of a pointer to position `t`. */
  function PointerTo(t: nat): seq<Byte>
    requires t < 16384
  {
    [192 + t / 256, t % 256]
  }

  /** A pointer to a name earlier in the message reads as that name and takes two bytes. */
  lemma {:induction false} CompressedReads(name: seq<Byte>, before: seq<Byte>, between: seq<Byte>, tail: seq<Byte>)
    requires Encode(name, 0).Some? && |before| < 16384
    ensures var enc := Encode(name, 0).value; var at := |before| + |enc| + |between|;
            ReadName(before + enc + between + PointerTo(|before|) + tail, at) == Some((LowerAll(Bare(name)), at + 2))
  {
    hide Encode, Read, ReadName, Bare, LowerAll, ItemAt;
    var enc, pointer := Encode(name, 0).value, PointerTo(|before|);
    var packet, at := before + enc + between + pointer + tail, |before| + |enc| + |between|;
    EncodeShort(name, 0);
    Regroup(before, enc, between, pointer, tail);
    EarlierReads(name, before, between + pointer + tail);
    PointerAt(packet, at, |before|);
    Jump(packet, at, |before|);
  }

  lemma {:induction false} PointerAt(packet: seq<Byte>, p: nat, t: nat)
    requires t < p && t < 16384 && p + 2 <= |packet| && packet[p..p + 2] == PointerTo(t)
    ensures ItemAt(packet, p) == Pointer(t)
  {
    ItemMeaning(packet, p, [], t);
  }

  lemma {:induction false} Jump(packet: seq<Byte>, p: nat, t: nat)
    requires ItemAt(packet, p) == Pointer(t) && Read(packet, t, STEPS - 1, [], None).Some?
    ensures ReadName(packet, p) == Some((Read(packet, t, STEPS - 1, [], None).value.0, p + 2))
  {
    PointerReads(packet, p, t, STEPS);
  }

  lemma {:induction false} Regroup(a: seq<Byte>, b: seq<Byte>, c: seq<Byte>, d: seq<Byte>, e: seq<Byte>)
    ensures a + b + c + d + e == a + b + (c + d + e) && (a + b + c + d + e)[|a| + |b| + |c|..|a| + |b| + |c| + |d|] == d
  {
  }

  /** `name[a..b]` lies between dots or the ends of the name and holds none. */
  predicate Between(name: seq<Byte>, a: nat, b: nat) {
    && a <= b <= |name| && (a == 0 || name[a - 1] == DOT) && (b == |name| || name[b] == DOT)
    && forall k :: a <= k < b ==> name[k] != DOT
  }

  /** Every label that starts at or after `i` is good; only behind a closing dot may nothing follow. */
  ghost predicate GoodFrom(name: seq<Byte>, i: nat) {
    forall a: nat, b: nat {:trigger Between(name, a, b)} :: i <= a < |name| && Between(name, a, b) ==> GoodLabel(name[a..b])
  }

  /** The encoder accepts exactly the names of 1 to 252 bytes whose labels between dots are all good. */
  lemma {:induction false} EncodeMeaning(name: seq<Byte>)
    ensures Encode(name, 0).Some? <==> 0 < |name| < INPUT_LIMIT && GoodFrom(name, 0)
  {
    if name != [] { EncodeFrom(name, 0); }
  }

  lemma {:induction false} EncodeFrom(name: seq<Byte>, i: nat)
    requires i <= |name| && AtLabel(name, i) && name != []
    ensures Encode(name, i).Some? <==> |name| < INPUT_LIMIT && GoodFrom(name, i)
    decreases |name| - i
  {
    if i < |name| && i < INPUT_LIMIT {
      var e := LabelEnd(name, i);
      if e == |name| || name[e] == DOT {
        assert Between(name, i, e);
        forall a: nat, b: nat | a == i && Between(name, a, b) ensures b == e {}
        if GoodLabel(name[i..e]) {
          var next := if e < |name| then e + 1 else e;
          EncodeFrom(name, next);
          forall a: nat, b: nat | i <= a < |name| && Between(name, a, b) && GoodFrom(name, next) ensures GoodLabel(name[a..b]) {
            if a > i { assert name[a - 1] == DOT && a >= next; }
          }
        }
      }
    }
  }
}
