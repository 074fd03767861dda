/** The loops of DNS.c over their byte buffers. */
module Dns {
  import opened Prelude
  import opened DnsSpec

  const NAME_SIZE := 255
  const QUERY_SIZE := 512

  lemma {:induction false} ReadStep(packet: seq<Byte>, p: nat, steps: nat, name: seq<Byte>, after: Option<nat>)
    requires steps > 0
    ensures Read(packet, p, steps, name, after)
            == match ItemAt(packet, p)
               case Bad => None
               case Pointer(target) => Read(packet, target, steps - 1, name, if after.Some? then after else Some(p + 2))
               case End =>
                 if |name| + 1 > NAME_LIMIT then None else Some((name, if after.Some? then after.value else p + 1))
               case Label(l) =>
                 if |name| + |l| + 1 > NAME_LIMIT || !Clean(l) then None
                 else Read(packet, p + 1 + |l|, steps - 1, Joined(name, l), after)
  {
  }

  lemma {:induction false} ReadNothing(packet: seq<Byte>, p: nat, name: seq<Byte>, after: Option<nat>)
    ensures Read(packet, p, 0, name, after).None?
  {
  }

  /** Copies a label behind the name, a dot between them; false on a zero byte or a dot in the label. */
  method AppendLabel(text: seq<Byte>, name: array<Byte>, from: nat) returns (ok: bool, output: nat)
    requires |text| > 0 && from + |text| + 1 <= NAME_LIMIT < name.Length
    modifies name
    ensures ok == Clean(text)
    ensures ok ==> output <= NAME_LIMIT && name[..output] == Joined(old(name[..from]), text)
  {
    output := from;
    ghost var before := name[..from];
    if output != 0 {
      name[output] := DOT;
      output := output + 1;
    }
    ghost var start := output;
    assert name[..start] == if from == 0 then [] else before + [DOT];
    var index := 0;
    while index < |text|
      invariant 0 <= index <= |text| && output == start + index
      invariant Clean(text[..index]) && name[..output] == (if from == 0 then [] else before + [DOT]) + LowerAll(text[..index])
    {
      var value := text[index];
      if value == 0 || value == DOT { return false, output; }
      name[output] := Lower(value);
      assert text[..index + 1] == text[..index] + [value];
      index := index + 1;
      output := output + 1;
    }
    assert text[..|text|] == text;
    ok := true;
  }

  /** ReadName: the name goes to `name`, closed by a zero byte; the buffer of 255 bytes is never left. */
  method ReadNameInto(packet: seq<Byte>, offset: nat, name: array<Byte>) returns (ok: bool, next: nat, length: nat)
    requires name.Length == NAME_SIZE
    modifies name
    ensures ok == ReadName(packet, offset).Some?
    ensures ok ==> length < NAME_LIMIT && ReadName(packet, offset) == Some((name[..length], next)) && name[length] == 0
  {
    hide Read, Joined, Clean;
    var position: nat, output: nat, step := offset, 0, 0;
    var after: Option<nat> := None;
    assert name[..0] == [];
    while step < STEPS
      invariant 0 <= step <= STEPS && output <= NAME_LIMIT
      invariant ReadName(packet, offset) == Read(packet, position, STEPS - step, name[..output], after)
    {
      ReadStep(packet, position, STEPS - step, name[..output], after);
      if position >= |packet| { return false, 0, 0; }
      var start := position;
      var count := packet[position];
      position := position + 1;
      if count >= 192 {
        if position >= |packet| { return false, 0, 0; }
        var target := (count - 192) * 256 + packet[position];
        position := position + 1;
        if target >= position - 2 { return false, 0, 0; }
        if after.None? { after := Some(position); }
        position := target;
      } else {
        if count >= 64 || count > |packet| - position || output + count + 1 > NAME_LIMIT { return false, 0, 0; }
        if count == 0 {
          ghost var read := name[..output];
          name[output] := 0;
          assert name[..output] == read;
          return true, if after.Some? then after.value else position, output;
        }
        ok, output := AppendLabel(packet[position..position + count], name, output);
        if !ok { return false, 0, 0; }
        position := position + count;
      }
      step := step + 1;
    }
    ReadNothing(packet, position, name[..output], after);
    return false, 0, 0;
  }

  lemma {:induction false} EncodeIs(name: seq<Byte>, i: nat)
    requires i <= |name|
    ensures Encode(name, i)
            == if i >= INPUT_LIMIT then None
               else if i == |name| then if i == 0 then None else Some([0])
               else
                 var e := LabelEnd(name, i);
                 if !GoodLabel(name[i..e]) then None else
                 var rest := Encode(name, if e < |name| && name[e] == DOT then e + 1 else e);
                 if rest.None? then None else Some([e - i] + name[i..e] + rest.value)
  {
  }

  /** The inner loop of NetworkDNSResolveInternal: copies a label's bytes and stops at one that may not be there or
      that is one too many. */
  method CopyLabel(name: seq<Byte>, from: nat, query: array<Byte>, at: nat) returns (ok: bool, input: nat)
    requires from < |name| && from < INPUT_LIMIT && at + LABEL_MAX <= query.Length
    modifies query
    ensures var end := LabelEnd(name, from);
            && (ok <==> end - from <= LABEL_MAX && forall k :: from <= k < end ==> LabelByte(name[k]))
            && (ok ==> input == end && query[at..at + (end - from)] == name[from..end])
    ensures query[..at] == old(query[..at])
  {
    hide LabelByte;
    ghost var before, end := query[..at], LabelEnd(name, from);
    input := from;
    var count: nat := 0;
    while input < INPUT_LIMIT && input < |name| && name[input] != DOT
      invariant from <= input <= end && LabelEnd(name, from) == LabelEnd(name, input)
      invariant count == input - from <= LABEL_MAX
      invariant query[..at] == before && query[at..at + count] == name[from..input]
      invariant forall k :: from <= k < input ==> LabelByte(name[k])
    {
      var value := name[input];
      assert input < end;
      if !LabelByte(value) || count == LABEL_MAX { return false, input; }
      ghost var written := query[at..at + count];
      query[at + count] := value;
      assert query[at..at + count] == written && query[at..at + count + 1] == written + [value];
      assert name[from..input + 1] == name[from..input] + [value];
      input, count := input + 1, count + 1;
    }
    assert input == end;
    return true, input;
  }

  /** One turn of the encoder: the label behind its length, unless it is empty or a dash stands at its rim. */
  method WriteLabel(name: seq<Byte>, from: nat, query: array<Byte>, at: nat) returns (ok: bool, input: nat, length: nat)
    requires from < |name| && from < INPUT_LIMIT && at + 1 + LABEL_MAX <= query.Length
    modifies query
    ensures ok == GoodLabel(name[from..LabelEnd(name, from)])
    ensures ok ==> input == LabelEnd(name, from) && length == at + 1 + (input - from) <= query.Length
                   && query[..length] == old(query[..at]) + [input - from] + name[from..input]
  {
    hide LabelByte, LabelEnd;
    ghost var before, l := query[..at], name[from..LabelEnd(name, from)];
    ok, input := CopyLabel(name, from, query, at + 1);
    length := at + 1;
    assert forall k :: 0 <= k < |l| ==> l[k] == name[from + k];
    assert query[..at] == query[..at + 1][..at];
    if !ok {
      NotAllBytes(name, from, LabelEnd(name, from));
      return false, input, length;
    }
    var count := input - from;
    length := at + 1 + count;
    assert query[at + 1..length] == l;
    if count == 0 || query[at + 1] == DASH || query[length - 1] == DASH {
      assert count > 0 ==> l[0] == query[at + 1] && l[count - 1] == query[length - 1];
      return false, input, length;
    }
    assert l[0] == query[at + 1] && l[count - 1] == query[length - 1];
    query[at] := count;
    assert query[..length] == query[..at] + [query[at]] + query[at + 1..length];
  }

  lemma {:induction false} NotAllBytes(name: seq<Byte>, from: nat, end: nat)
    requires from <= end <= |name| && !(end - from <= LABEL_MAX && forall k :: from <= k < end ==> LabelByte(name[k]))
    ensures !GoodLabel(name[from..end])
  {
    var l := name[from..end];
    if k :| from <= k < end && !LabelByte(name[k]) { assert l[k - from] == name[k]; }
  }

  /** The encoder of NetworkDNSResolveInternal, from byte `at` of the query on. */
  method WriteName(name: seq<Byte>, query: array<Byte>, at: nat) returns (ok: bool, length: nat)
    requires query.Length == QUERY_SIZE && at == 12
    modifies query
    ensures ok == Encode(name, 0).Some?
    ensures ok ==> length <= query.Length && query[..length] == old(query[..at]) + Encode(name, 0).value
  {
    hide Encode, LabelEnd, GoodLabel;
    ghost var before := query[..at];
    ghost var done: seq<Byte> := [];
    var input: nat := 0;
    length := at;
    while input < INPUT_LIMIT && input < |name|
      invariant input <= |name| && input <= INPUT_LIMIT + 1
      invariant length == at + input || (length == at + input + 1 && (input >= INPUT_LIMIT || input == |name|))
      invariant query[..length] == before + done
      invariant Encode(name, 0).Some? <==> Encode(name, input).Some?
      invariant Encode(name, 0).Some? ==> Encode(name, 0).value == done + Encode(name, input).value
      decreases |name| - input
    {
      EncodeIs(name, input);
      ghost var from := input;
      var good;
      good, input, length := WriteLabel(name, input, query, length);
      if !good { return false, length; }
      done := done + ([input - from] + name[from..input]);
      if input < |name| && name[input] == DOT { input := input + 1; }
    }
    EncodeIs(name, input);
    if input == 0 || input >= INPUT_LIMIT || input != |name| { return false, length; }
    query[length] := 0;
    length := length + 1;
    return true, length;
  }
}
