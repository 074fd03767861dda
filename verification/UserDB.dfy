/** The account library of UserDB.c over its static buffers; the file is the text it last read or wrote. */
module UserDatabase {
  import opened Prelude
  import opened UserDBSpec

  datatype Record = Record(start: nat, end: nat, uid: nat, gid: nat, name: string)

  /** Record `i` of the text: where its line lies and what its first fields say. */
  ghost predicate RecordOk(t: string, ls: seq<string>, r: Record, i: nat) {
    && i < |ls| && r.start <= r.end <= |t|
    && Closed(t[..r.start]) && Lines(t[..r.start]) == ls[..i] && Lines(t[..r.end]) == ls[..i + 1]
    && (Closed(t[..r.end]) || r.end == |t|)
    && (t[r.start..r.end] == ls[i] + "\n" || (t[r.start..r.end] == ls[i] && r.end == |t|))
    && ParseLine(ls[i]).Some? && var e := ParseLine(ls[i]).value; r.name == e.name && r.uid == e.uid && r.gid == e.gid
  }

  /** A record spans its line in the text. */
  lemma {:induction false} RecordSpans(t: string, r: Record, i: nat)
    requires RecordOk(t, Lines(t), r, i)
    ensures Spans(t, r.start, r.end, Lines(t), i)
  {
    hide Lines, ParseLine;
    assert t == t[..r.end] + t[r.end..];
    if Closed(t[..r.end]) {
      LinesConcat(t[..r.end], t[r.end..]);
    } else {
      assert t[..r.end] == t && t[r.end..] == "";
      EmptyLines();
    }
  }

  /** The accounts of the lines read so far: each parses and no two clash. */
  ghost predicate Prefix(ls: seq<string>, es: seq<Entry>, root: bool) {
    && |es| <= |ls| && |es| <= MAX_USERS
    && (forall i :: 0 <= i < |es| ==> ParseLine(ls[i]) == Some(es[i]))
    && (forall i, j :: 0 <= i < j < |es| ==> !Clash(es[i], es[j]))
    && (root <==> exists i :: 0 <= i < |es| && es[i].name == "root")
  }

  lemma {:induction false} PrefixWhole(ls: seq<string>, es: seq<Entry>, root: bool)
    requires Prefix(ls, es, root) && |es| == |ls|
    ensures (exists all :: ValidDatabase(ls, all)) <==> ls != [] && root
    ensures ls != [] && root ==> ValidDatabase(ls, es)
  {
    hide ParseLine, Clash;
    if ls != [] && root { assert ValidDatabase(ls, es); }
    if all: seq<Entry> :| ValidDatabase(ls, all) {
      forall i | 0 <= i < |ls| ensures all[i] == es[i] { assert ParseLine(ls[i]) == Some(all[i]); }
      var i :| 0 <= i < |all| && all[i].name == "root";
      assert es[i].name == "root";
    }
  }

  lemma {:induction false} PrefixStops(ls: seq<string>, es: seq<Entry>, root: bool, k: nat)
    requires Prefix(ls, es, root) && |es| < |ls|
    requires |es| == MAX_USERS || ParseLine(ls[|es|]).None?
             || (k < |es| && ParseLine(ls[|es|]).Some? && Clash(es[k], ParseLine(ls[|es|]).value))
    ensures !exists all :: ValidDatabase(ls, all)
  {
    hide ParseLine, Clash;
    forall all: seq<Entry> ensures !ValidDatabase(ls, all) {}
  }

  lemma {:induction false} PrefixGrows(ls: seq<string>, es: seq<Entry>, root: bool, e: Entry)
    requires Prefix(ls, es, root) && |es| < |ls| && |es| < MAX_USERS && ParseLine(ls[|es|]) == Some(e)
    requires forall k :: 0 <= k < |es| ==> !Clash(es[k], e)
    ensures Prefix(ls, es + [e], root || e.name == "root")
  {
    hide ParseLine, Clash;
    var more := es + [e];
    if root { var i :| 0 <= i < |es| && es[i].name == "root"; assert more[i].name == "root"; }
    if e.name == "root" { assert more[|es|].name == "root"; }
    if i :| 0 <= i < |more| && more[i].name == "root" && i < |es| { assert es[i].name == "root"; }
  }

  /** The next line of text whose lines before `p` are closed. */
  lemma {:induction false} NextLine(t: string, p: nat)
    requires p < |t| && Closed(t[..p])
    ensures var k := Find(t[p..], '\n'); var stop := p + k; var next := if stop < |t| then stop + 1 else stop;
            var n := |Lines(t[..p])|;
            && stop <= |t| && n < |Lines(t)| && Lines(t)[n] == t[p..stop] && Lines(t[..p]) == Lines(t)[..n]
            && Lines(t[..next]) == Lines(t)[..n + 1] && (Closed(t[..next]) || next == |t|)
            && (t[p..next] == t[p..stop] + "\n" || (t[p..next] == t[p..stop] && next == |t|))
            && (next == |t| ==> n + 1 == |Lines(t)|)
  {
    hide Lines, Find;
    var rest := t[p..];
    var k := LineHere(rest);
    var stop := p + k;
    var line := rest[..k];
    assert line == t[p..stop] && t == t[..p] + rest;
    LinesConcat(t[..p], rest);
    LinesStep(rest);
    if stop < |t| {
      assert t[..stop + 1] == t[..p] + (line + "\n");
      LinesConcat(t[..p], line + "\n");
      OneLine(line);
      assert Lines(t) == Lines(t[..p]) + ([line] + Lines(rest[k + 1..]));
      if stop + 1 == |t| { assert rest[k + 1..] == ""; EmptyLines(); }
    } else {
      assert t[..stop] == t && rest == line;
    }
  }

  lemma {:induction false} LineHere(rest: string) returns (k: nat)
    ensures k == Find(rest, '\n') <= |rest| && Find(rest[..k], '\n') == k
    ensures k < |rest| ==> rest[k] == '\n' && rest[..k + 1] == rest[..k] + "\n"
  {
    k := Find(rest, '\n');
    NotFound(rest[..k], '\n');
  }

  class UserDB {
    const database: array<char>
    var databaseLength: nat
    const records: array<Record>
    var recordCount: nat

    ghost predicate Valid() reads this {
      database.Length == CAPACITY + 1 && databaseLength <= CAPACITY + 1 && records.Length == MAX_USERS && recordCount <= MAX_USERS
    }

    ghost function Text(): string
      reads this, database
      requires Valid()
    {
      database[..databaseLength]
    }

    /** The records are those of the text's lines. */
    ghost predicate Parsed()
      reads this, database, records
      requires Valid()
    {
      && recordCount == |Lines(Text())|
      && forall i :: 0 <= i < recordCount ==> RecordOk(Text(), Lines(Text()), records[i], i)
    }

    constructor ()
      ensures Valid() && databaseLength == 0 && recordCount == 0
    {
      database := new char[CAPACITY + 1](_ => '\0');
      records := new Record[MAX_USERS](_ => Record(0, 0, 0, 0, ""));
      databaseLength, recordCount := 0, 0;
    }

    static method ValidateName(name: string) returns (ok: bool)
      ensures ok == ValidName(name)
      ensures ok <==>
                && 1 <= |name| <= 32 && !('0' <= name[0] <= '9')
                && forall i :: 0 <= i < |name| ==>
                     'a' <= name[i] <= 'z' || 'A' <= name[i] <= 'Z' || '0' <= name[i] <= '9' || name[i] == '_' || name[i] == '-'
    {
      if name != "" && Digit(name[0]) { return false; }
      var length := 0;
      while length < |name|
        invariant 0 <= length <= |name| && length <= NAME_MAX
        invariant forall i :: 0 <= i < length ==> NameChar(name[i])
      {
        if length == NAME_MAX || !NameChar(name[length]) { return false; }
        length := length + 1;
      }
      return length != 0;
    }

    /** UserDBNumber: the running value never leaves 32 bits. */
    static method ParseNumber(text: string) returns (number: Option<nat>)
      ensures number == Number(text)
      ensures number.Some? ==> number.value <= MAX32
    {
      if text == "" { return None; }
      var value: nat := 0;
      var index := 0;
      assert text[0..] == text;
      while index < |text|
        invariant 0 <= index <= |text| && value <= MAX32
        invariant NumberFrom(text, 0) == NumberFrom(text[index..], value)
      {
        var c := text[index];
        assert text[index..][0] == c && text[index..][1..] == text[index + 1..];
        if !Digit(c) || value > (MAX32 - DigitValue(c)) / 10 { return None; }
        value := value * 10 + DigitValue(c);
        index := index + 1;
      }
      return Some(value);
    }

    /** The digits of UserDBDecimal, low end first. */
    static method CollectDigits(number: nat) returns (digits: string)
      ensures Decimal(number) == Backwards(digits)
    {
      digits := [DigitChar(number % 10)];
      var value: nat := number / 10;
      assert Backwards(digits) == digits by { assert digits[1..] == ""; }
      while value != 0
        invariant Decimal(number) == (if value == 0 then "" else Decimal(value)) + Backwards(digits)
      {
        var d := DigitChar(value % 10);
        BackwardsAppend(digits, d);
        assert Decimal(value) == (if value < 10 then "" else Decimal(value / 10)) + [d];
        assert Decimal(number) == (if value < 10 then "" else Decimal(value / 10)) + ([d] + Backwards(digits));
        digits := digits + [d];
        value := value / 10;
      }
    }

    /** UserDBDecimal: the collected digits, turned around. */
    static method WriteDecimal(number: nat) returns (text: string)
      ensures text == Decimal(number)
    {
      var digits := CollectDigits(number);
      text := "";
      var index := 0;
      while index < |digits|
        invariant 0 <= index <= |digits| && text == Backwards(digits[|digits| - index..])
      {
        text := text + [digits[|digits| - index - 1]];
        index := index + 1;
      }
      assert digits[0..] == digits;
    }

    static method CheckHex(text: string, length: nat) returns (ok: bool)
      ensures ok == Hex(text, length)
      ensures ok <==> |text| == length && forall i :: 0 <= i < |text| ==> '0' <= text[i] <= '9' || 'a' <= text[i] <= 'f'
    {
      if |text| != length { return false; }
      var index := 0;
      while index < length
        invariant 0 <= index <= length && forall i :: 0 <= i < index ==> HexChar(text[i])
      {
        if !HexChar(text[index]) { return false; }
        index := index + 1;
      }
      return true;
    }

    static method ValidatePasswordFields(salt: string, hash: string) returns (ok: bool)
      ensures ok == ValidPassword(salt, hash)
    {
      if !(HASH_PREFIX <= hash) { return false; }
      ok := CheckHex(salt, SALT_LENGTH);
      if !ok { return; }
      ok := CheckHex(hash[|HASH_PREFIX|..], DIGEST_LENGTH);
    }

    /** The inner loop of UserDBParse: the line at `from` and the position after its newline. */
    method ReadLine(from: nat) returns (line: Option<string>, position: nat)
      requires Valid() && from < databaseLength
      ensures var k := Find(Text()[from..], '\n'); var stop := from + k;
              && stop <= databaseLength
              && (line.Some? <==> k < 512 && forall i :: from <= i < stop ==> ' ' <= Text()[i] <= '~')
              && (line.Some? ==> line.value == Text()[from..stop] && position == if stop < databaseLength then stop + 1 else stop)
    {
      hide Find;
      position := from;
      ghost var t := Text();
      var text: string := "";
      while position < databaseLength && database[position] != '\n'
        invariant from <= position <= databaseLength && text == t[from..position] && |text| < LINE_SIZE
        invariant forall i :: from <= i < position ==> Printable(t[i]) && t[i] != '\n'
      {
        var c := database[position];
        if !Printable(c) || |text| + 1 >= LINE_SIZE {
          LineEnds(t, from, position);
          return None, position;
        }
        text := text + [c];
        position := position + 1;
      }
      LineEnds(t, from, position);
      if position < databaseLength { position := position + 1; }
      line := Some(text);
    }

    /** Cuts a line at its colons; more than five fields is as bad as any other number but five. */
    static method SplitFields(line: string) returns (fields: Option<seq<string>>)
      ensures fields == if |Fields(line)| <= 5 then Some(Fields(line)) else None
    {
      hide Find, Fields;
      var done: seq<string> := [];
      var start: nat, index: nat := 0, 0;
      assert line[0..] == line;
      while index < |line|
        invariant start <= index <= |line| && |done| <= 4
        invariant Fields(line) == done + Fields(line[start..])
        invariant forall i :: start <= i < index ==> line[i] != ':'
      {
        if line[index] == ':' {
          FieldEnds(line, start, index);
          var rest := Fields(line[index + 1..]);
          if |done| == 4 { FieldsSome(line[index + 1..]); return None; }
          done := done + [line[start..index]];
          start := index + 1;
        }
        index := index + 1;
      }
      FieldEnds(line, start, index);
      assert line[start..index] == line[start..];
      return Some(done + [line[start..]]);
    }

    /** One line's fields, checked in turn. */
    static method ReadEntry(line: string) returns (e: Option<Entry>)
      requires |line| < LINE_SIZE && forall i :: 0 <= i < |line| ==> Printable(line[i])
      ensures e == ParseLine(line)
    {
      hide Fields, Number, ValidName, ValidPassword;
      if line == "" { return None; }
      var fields := SplitFields(line);
      if fields.None? || |fields.value| != 5 { return None; }
      var f := fields.value;
      var ok := ValidateName(f[0]);
      if !ok { return None; }
      var uid := ParseNumber(f[1]);
      if uid.None? { return None; }
      var gid := ParseNumber(f[2]);
      if gid.None? { return None; }
      ok := ValidatePasswordFields(f[3], f[4]);
      if !ok { return None; }
      var root := f[0] == "root";
      if (root && (uid.value != 0 || gid.value != 0)) || (!root && uid.value == 0) { return None; }
      return Some(Entry(f[0], uid.value, gid.value, f[3], f[4]));
    }

    /** The search UserDBParse makes for an earlier account of the same name or user id. */
    method FindClash(e: Entry, ghost es: seq<Entry>) returns (index: nat)
      requires Valid() && recordCount == |es| && forall i :: 0 <= i < recordCount ==> Describes(records[i], es[i])
      ensures index <= recordCount && (index < recordCount ==> Clash(es[index], e))
      ensures index == recordCount ==> forall k :: 0 <= k < |es| ==> !Clash(es[k], e)
    {
      index := 0;
      while index < recordCount
        invariant 0 <= index <= recordCount && forall k :: 0 <= k < index ==> !Clash(es[k], e)
      {
        if records[index].name == e.name || records[index].uid == e.uid { return; }
        index := index + 1;
      }
    }

    /** How far UserDBParse got: `es` are the accounts before `position`. */
    ghost predicate ParsedTo(position: nat, rootFound: bool, es: seq<Entry>)
      reads this, database, records
      requires Valid()
    {
      var t, ls := Text(), Lines(Text());
      && position <= databaseLength && recordCount == |es| && Prefix(ls, es, rootFound)
      && Lines(t[..position]) == ls[..recordCount]
      && (if position < databaseLength then Closed(t[..position]) else |es| == |ls|)
      && (forall i :: 0 <= i < recordCount ==> RecordOk(t, ls, records[i], i))
      && (forall i :: 0 <= i < recordCount ==> Describes(records[i], es[i]))
    }

    /** Reads one more account; None when the text is no valid database. */
    method ParseOne(from: nat, rootFound: bool, ghost es: seq<Entry>) returns (e: Option<Entry>, position: nat)
      requires Valid() && ParsedTo(from, rootFound, es) && from < databaseLength
      modifies this`recordCount, records
      ensures Valid() && (e.None? ==> !Loadable(Text()))
      ensures e.Some? ==> from < position && ParsedTo(position, rootFound || e.value.name == "root", es + [e.value])
    {
      hide Lines, ParseLine, Find, Prefix, RecordOk, Clash;
      ghost var t, ls := Text(), Lines(Text());
      NextLine(t, from);
      PrefixBelow(ls, es, rootFound);
      position := from;
      if recordCount == MAX_USERS { PrefixStops(ls, es, rootFound, 0); return None, position; }
      var line;
      line, position := ReadLine(from);
      if line.None? { BadLine(t, from); PrefixStops(ls, es, rootFound, 0); return None, position; }
      e := ReadEntry(line.value);
      if e.None? { PrefixStops(ls, es, rootFound, 0); return; }
      if e.value.name == "root" && rootFound { RootTwice(ls, es, e.value); return None, position; }
      var index := FindClash(e.value, es);
      if index < recordCount { PrefixStops(ls, es, rootFound, index); return None, position; }
      PrefixGrows(ls, es, rootFound, e.value);
      NewRecord(t, from, position, recordCount, e.value);
      records[recordCount] := Record(from, position, e.value.uid, e.value.gid, e.value.name);
      recordCount := recordCount + 1;
    }

    /** UserDBParse accepts exactly the valid databases, and then the records describe the accounts in order. */
    method Parse() returns (ok: bool)
      requires Valid()
      modifies this`recordCount, records
      ensures Valid() && (ok <==> Loadable(Text()))
      ensures ok ==> Parsed()
    {
      hide Lines, ParseLine, Find, Prefix, RecordOk;
      ghost var t := Text();
      ghost var es: seq<Entry> := [];
      var position: nat, rootFound := 0, false;
      recordCount := 0;
      assert t[..0] == "";
      EmptyLines();
      PrefixEmpty(Lines(t));
      if databaseLength == 0 { assert t == ""; }
      while position < databaseLength
        invariant Valid() && Text() == t && ParsedTo(position, rootFound, es)
        decreases databaseLength - position
      {
        var e, next := ParseOne(position, rootFound, es);
        if e.None? { return false; }
        rootFound := rootFound || e.value.name == "root";
        es := es + [e.value];
        position := next;
      }
      PrefixWhole(Lines(t), es, rootFound);
      ok := recordCount != 0 && rootFound;
      assert recordCount == |Lines(t)|;
    }

    /** UserDBLoad. */
    method Load(file: Option<File>) returns (r: Result)
      requires Valid()
      modifies this, database, records
      ensures Valid() && r == LoadResult(file)
      ensures r.OK? ==> Text() == file.value.text && Parsed()
    {
      hide Loadable;
      databaseLength, recordCount := 0, 0;
      if file.None? { return UNAVAILABLE; }
      var text, failsAt := file.value.text, file.value.failsAt;
      r := OK;
      while databaseLength <= CAPACITY
        invariant Valid() && databaseLength <= |text| && Text() == text[..databaseLength] && r.OK?
        invariant databaseLength > 0 && failsAt.Some? ==> failsAt.value >= databaseLength
        decreases |text| - databaseLength
      {
        if failsAt == Some(databaseLength) { r := IO; break; }
        if databaseLength == |text| { break; }
        database[databaseLength] := text[databaseLength];
        databaseLength := databaseLength + 1;
      }
      if r.OK? && databaseLength > CAPACITY { r := LIMIT; }
      if !file.value.closes { r := IO; }
      if !r.OK? { return; }
      assert Text() == text;
      var ok := Parse();
      assert Text() == text;
      if !ok { r := INVALID; }
    }

    /** The record of a name, or the number of records. */
    method FindName(name: string) returns (index: nat)
      requires Valid()
      ensures index <= recordCount && forall k :: 0 <= k < index ==> records[k].name != name
      ensures index < recordCount ==> records[index].name == name
    {
      index := 0;
      while index < recordCount
        invariant 0 <= index <= recordCount && forall k :: 0 <= k < index ==> records[k].name != name
      {
        if records[index].name == name { return; }
        index := index + 1;
      }
    }

    /** The id search of UserDBAdd: the least id from 1000 up that no account uses as user or group. */
    method FindId(ghost es: seq<Entry>) returns (id: nat)
      requires Valid() && recordCount == |es| && forall i :: 0 <= i < recordCount ==> Describes(records[i], es[i])
      ensures FIRST_UID <= id <= FIRST_UID + 2 * |es| && !IdUsed(es, id)
      ensures forall k: nat :: FIRST_UID <= k < id ==> IdUsed(es, k)
    {
      id := FIRST_UID;
      while true
        invariant id >= FIRST_UID && forall k: nat :: FIRST_UID <= k < id ==> IdUsed(es, k)
        decreases FIRST_UID + 2 * |es| + 1 - id
      {
        FreeIdSoon(es, id);
        var used, index := false, 0;
        while index < recordCount
          invariant 0 <= index <= recordCount
          invariant used <==> exists k :: 0 <= k < index && (es[k].uid == id || es[k].gid == id)
        {
          used := used || records[index].uid == id || records[index].gid == id;
          index := index + 1;
        }
        if !used { return; }
        assert IdUsed(es, id);
        id := id + 1;
      }
    }

    /** The line UserDBAdd appends, field by field. */
    static method WriteLine(before: string, name: string, uid: nat, salt: string, hash: string) returns (text: string)
      ensures text == Added(before, name, uid, salt, hash)
    {
      text := before;
      if text != "" && text[|text| - 1] != '\n' { text := text + "\n"; }
      var digits := WriteDecimal(uid);
      FiveJoined(text, name, digits, digits, salt, hash);
      text := text + name + ":" + digits + ":" + digits + ":" + salt + ":" + hash + "\n";
    }

    /** UserDBAdd; `locked` and `saved` are whether the lock could be taken and the new text written. A valid
        database has a root account, so the check against adding root to one never decides. */
    method Add(name: string, salt: string, hash: string, file: Option<File>, locked: bool, saved: bool)
      returns (r: Result, text: Option<string>, ghost uid: nat)
      requires Valid()
      modifies this, database, records
      ensures Valid() && r == AddResult(name, salt, hash, file, locked, saved)
      ensures !r.OK? ==> text == TextOf(file)
      ensures r.OK? ==> text.Some? && Appended(if file.Some? then file.value.text else "", Loaded(file), Entry(name, uid, uid, salt, hash), text.value)
      ensures r.OK? ==> if file.None? then name == "root" && uid == 0 else LeastFreeId(Loaded(file), uid)
    {
      hide Lines, ParseLine, ValidName, ValidPassword, Added, ValidDatabase, Closing, Loadable, LeastFreeId;
      uid, text := 0, TextOf(file);
      var ok := ValidateName(name);
      if !ok { return INVALID_NAME, text, uid; }
      ok := ValidatePasswordFields(salt, hash);
      if !ok { return INVALID, text, uid; }
      if !locked { return LOCKED, text, uid; }
      var loaded := Load(file);
      if file.None? {
        if name != "root" { return ROOT_REQUIRED, text, uid; }
        InitialAppends(salt, hash);
        var line := WriteLine("", name, 0, salt, hash);
        if saved { return OK, Some(line), uid; }
        return IO, text, uid;
      }
      if !loaded.OK? { return loaded, text, uid; }
      ghost var es := EntriesOf();
      var before := file.value.text;
      var found := FindName(name);
      FoundName(records[..recordCount], es, name, found);
      if found < recordCount { return EXISTS, text, uid; }
      if recordCount == MAX_USERS { return LIMIT, text, uid; }
      var id := FindId(es);
      uid := id;
      assert LeastFreeId(es, id) by { LeastIs(es, id); }
      var closed := if before != "" && before[|before| - 1] != '\n' then before + "\n" else before;
      assert closed == Closing(before) by { ClosingIs(before); }
      var required := |name| + |salt| + |hash| + 25;
      if |closed| > CAPACITY || required > CAPACITY - |closed| { return LIMIT, text, uid; }
      AddAppends(before, es, name, uid, salt, hash);
      var added := WriteLine(before, name, id, salt, hash);
      if saved { return OK, Some(added), uid; }
      return IO, text, uid;
    }

    /** The text without what lies between two positions. */
    method WithoutSpan(start: nat, end: nat) returns (text: string)
      requires Valid() && start <= end <= databaseLength
      ensures text == Text()[..start] + Text()[end..]
    {
      text := database[..start] + database[end..databaseLength];
      assert text == Text()[..start] + Text()[end..];
    }

    /** UserDBDelete. */
    method Delete(name: string, file: Option<File>, locked: bool, saved: bool)
      returns (r: Result, text: Option<string>, ghost i: nat)
      requires Valid()
      modifies this, database, records
      ensures Valid() && r == DeleteResult(name, file, locked, saved)
      ensures !r.OK? ==> text == TextOf(file)
      ensures r.OK? ==>
                && file.Some? && text.Some? && i < |Loaded(file)| && Loaded(file)[i].name == name
                && Cut(file.value.text, Loaded(file), i, text.value)
    {
      hide Lines, ParseLine, ValidName, ValidDatabase, Spans, Cut, Loadable;
      i, text := 0, TextOf(file);
      var ok := ValidateName(name);
      if !ok { return INVALID_NAME, text, i; }
      if name == "root" { return ROOT_PROTECTED, text, i; }
      if !locked { return LOCKED, text, i; }
      var loaded := Load(file);
      if !loaded.OK? { return loaded, text, i; }
      ghost var es := EntriesOf();
      var index := FindName(name);
      i := index;
      FoundName(records[..recordCount], es, name, index);
      if index == recordCount { return NOT_FOUND, text, i; }
      var start, end := records[index].start, records[index].end;
      RecordSpans(Text(), records[index], index);
      SpanInside(Text(), start, end, index);
      SpanCut(file.value.text, es, index, start, end);
      var replacement := WithoutSpan(start, end);
      if saved { return OK, Some(replacement), i; }
      return IO, text, i;
    }

    /** Skips to the position behind the third colon of the line `l` that starts at `start`. */
    method SkipFields(start: nat, end: nat, ghost l: string) returns (position: nat)
      requires Valid() && start + |l| <= end <= databaseLength && |Fields(l)| == 5 && |Fields(l)[3]| == SALT_LENGTH
      requires database[start..start + |l|] == l
      ensures position == start + FieldStart(Fields(l), 3)
    {
      hide Fields, FieldStart;
      ghost var fs := Fields(l);
      var separators: nat := 0;
      position := start;
      StartZero(fs);
      while position < end && separators < 3
        invariant start <= position <= end && separators <= 3
        invariant FieldStart(fs, separators) <= position - start <= FieldStart(fs, separators) + |fs[separators]|
        invariant separators == 3 ==> position - start == FieldStart(fs, 3)
        decreases end - position
      {
        FieldStep(l, separators, position - start);
        assert database[position] == database[start..start + |l|][position - start];
        if database[position] == ':' { separators := separators + 1; }
        position := position + 1;
      }
      FieldsEnd(l, separators, position - start);
    }

    /** Copies the last two fields of the line `l` that lies at `start`, up to `end` and without its newline. */
    method CopyFields(start: nat, end: nat, ghost l: string) returns (salt: string, hash: string)
      requires Valid() && start + |l| <= end <= databaseLength && |Fields(l)| == 5 && |Fields(l)[3]| == SALT_LENGTH
      requires database[start..start + |l|] == l && forall k :: 0 <= k < |l| ==> Printable(l[k])
      requires end == start + |l| || (end == start + |l| + 1 && database[end - 1] == '\n')
      ensures salt == Fields(l)[3] && hash == Fields(l)[4]
    {
      hide Fields, FieldStart, Printable;
      var position := SkipFields(start, end, l);
      ghost var x := position - start;
      FieldsEnd(l, 3, x);
      salt := database[position..position + SALT_LENGTH];
      assert salt == database[start..start + |l|][x..x + SALT_LENGTH];
      position := position + SALT_LENGTH + 1;
      var length := end - position;
      if length != 0 && database[end - 1] == '\n' { length := length - 1; }
      EndsAt(database[..], l, start, end, position, length);
      hash := database[position..position + length];
      assert hash == database[start..start + |l|][x + SALT_LENGTH + 1..];
    }

    /** UserDBCopyAccount finds salt and hash behind the third colon of the record's line. */
    method CopyAccount(record: Record, ghost index: nat, ghost e: Entry) returns (salt: string, hash: string)
      requires Valid() && RecordOk(Text(), Lines(Text()), record, index)
      requires index < |Lines(Text())| && ParseLine(Lines(Text())[index]) == Some(e)
      ensures salt == e.salt && hash == e.hash
    {
      hide Lines, ParseLine, Fields, Closed, Printable, RecordOk;
      ghost var l := Lines(Text())[index];
      ParsedFields(l, e);
      LineAt(Text(), record, index);
      assert database[record.start..record.start + |l|] == Text()[record.start..record.start + |l|];
      salt, hash := CopyFields(record.start, record.end, l);
    }

    /** UserDBLookup: the account of the name, exactly as its line gives it. */
    method Lookup(name: string, file: Option<File>) returns (r: Result, account: Option<Entry>)
      requires Valid()
      modifies this, database, records
      ensures Valid() && r == LookupResult(name, file)
      ensures r.OK? <==> account.Some?
      ensures r.OK? ==> forall e :: e in Loaded(file) && e.name == name <==> account == Some(e)
    {
      hide Lines, ParseLine, ValidName, ValidDatabase, RecordOk, Loadable;
      account := None;
      var ok := ValidateName(name);
      if !ok { return INVALID_NAME, None; }
      r := Load(file);
      if !r.OK? { return; }
      ghost var es := EntriesOf();
      var index := FindName(name);
      FoundName(records[..recordCount], es, name, index);
      if index == recordCount { return NOT_FOUND, None; }
      var record := records[index];
      RecordLine(Text(), record, index, es);
      var salt, hash := CopyAccount(record, index, es[index]);
      forall e ensures e in es && e.name == name <==> e == es[index] { NamedOnce(Lines(Text()), es, index, e); }
      assert es[index] == Entry(name, record.uid, record.gid, salt, hash);
      return OK, Some(Entry(name, record.uid, record.gid, salt, hash));
    }

    /** The accounts the records stand for. */
    ghost method EntriesOf() returns (es: seq<Entry>)
      requires Valid() && Parsed() && Loadable(Text())
      ensures es == Accounts(Text()) && ValidDatabase(Lines(Text()), es) && |es| == recordCount > 0
      ensures forall i :: 0 <= i < recordCount ==> Describes(records[i], es[i])
    {
      hide Lines, ParseLine;
      es := Accounts(Text());
      forall i | 0 <= i < recordCount ensures Describes(records[i], es[i]) {
        assert RecordOk(Text(), Lines(Text()), records[i], i);
        assert ParseLine(Lines(Text())[i]) == Some(es[i]);
      }
    }
  }

  /** The search over the records is one over the accounts. */
  lemma {:induction false} FoundName(rs: seq<Record>, es: seq<Entry>, name: string, index: nat)
    requires |rs| == |es| && (forall i :: 0 <= i < |rs| ==> Describes(rs[i], es[i]))
    requires index <= |rs| && (forall k :: 0 <= k < index ==> rs[k].name != name) && (index < |rs| ==> rs[index].name == name)
    ensures Named(es, name) <==> index < |rs|
    ensures index < |rs| ==> es[index].name == name
    ensures index == |rs| ==> forall i :: 0 <= i < |es| ==> es[i].name != name
  {
    if index < |rs| { assert es[index].name == name; }
    forall i | 0 <= i < |es| && index == |rs| ensures es[i].name != name { assert Describes(rs[i], es[i]); }
  }

  lemma {:induction false} LeastIs(es: seq<Entry>, id: nat)
    requires FIRST_UID <= id <= FIRST_UID + 2 * |es| && !IdUsed(es, id) && forall k: nat :: FIRST_UID <= k < id ==> IdUsed(es, k)
    ensures LeastFreeId(es, id)
  {
  }

  /** Dropping a final newline leaves the end of the line. */
  lemma {:induction false} EndsAt(t: string, l: string, start: nat, end: nat, position: nat, length: nat)
    requires start + |l| <= end <= |t| && t[start..start + |l|] == l && start <= position <= start + |l|
    requires forall k :: 0 <= k < |l| ==> Printable(l[k])
    requires end == start + |l| || (end == start + |l| + 1 && t[end - 1] == '\n')
    requires length == end - position - if end != position && t[end - 1] == '\n' then 1 else 0
    ensures position + length == start + |l|
  {
    if end == start + |l| && end != position { assert l[|l| - 1] == t[end - 1] && Printable(l[|l| - 1]); }
  }

  lemma {:induction false} StartZero(fs: seq<string>)
    ensures FieldStart(fs, 0) == 0
  {
  }

  lemma {:induction false} RecordLine(t: string, r: Record, i: nat, es: seq<Entry>)
    requires RecordOk(t, Lines(t), r, i) && ValidDatabase(Lines(t), es)
    ensures i < |Lines(t)| == |es| && ParseLine(Lines(t)[i]) == Some(es[i])
    ensures r.name == es[i].name && r.uid == es[i].uid && r.gid == es[i].gid
  {
  }

  lemma {:induction false} SpanInside(t: string, start: nat, end: nat, i: nat)
    requires Spans(t, start, end, Lines(t), i)
    ensures start <= end <= |t|
  {
  }

  /** The text between a record's bounds is its line, then perhaps a newline; the line itself has none. */
  lemma {:induction false} LineAt(t: string, r: Record, i: nat)
    requires RecordOk(t, Lines(t), r, i)
    ensures i < |Lines(t)| && var l := Lines(t)[i];
            && r.start + |l| <= r.end <= |t| && t[r.start..r.start + |l|] == l
            && (forall k :: 0 <= k < |l| ==> t[r.start + k] == l[k] && Printable(l[k]))
            && (r.end == r.start + |l| || (r.end == r.start + |l| + 1 && t[r.end - 1] == '\n'))
  {
    hide Lines;
    var l := Lines(t)[i];
    var whole := t[r.start..r.end];
    assert whole[..|l|] == l;
    forall k | 0 <= k < |l| ensures t[r.start + k] == l[k] { assert whole[k] == l[k]; }
    if |whole| == |l| + 1 { assert whole[|l|] == '\n'; }
  }

  /** Reading one character of field `k`: a colon stands exactly at its end. */
  lemma {:induction false} FieldStep(l: string, k: nat, x: nat)
    requires k < 3 && |Fields(l)| == 5
    requires var fs := Fields(l); FieldStart(fs, k) <= x <= FieldStart(fs, k) + |fs[k]|
    ensures var fs := Fields(l);
            && x < |l| && (l[x] == ':' <==> x == FieldStart(fs, k) + |fs[k]|)
            && FieldStart(fs, k + 1) == FieldStart(fs, k) + |fs[k]| + 1
  {
    var fs := Fields(l);
    FieldAt(l, k);
    hide Fields;
    var p := FieldStart(fs, k);
    if x < p + |fs[k]| { assert fs[k][x - p] == l[p..p + |fs[k]|][x - p] == l[x]; }
  }

  /** Past the third colon come the salt, one colon and the hash to the end of the line. */
  lemma {:induction false} FieldsEnd(l: string, k: nat, x: nat)
    requires k <= 3 && |Fields(l)| == 5 && |Fields(l)[3]| == SALT_LENGTH
    requires var fs := Fields(l); FieldStart(fs, k) <= x <= FieldStart(fs, k) + |fs[k]|
    requires k == 3 ==> x == FieldStart(Fields(l), 3)
    ensures x <= |l| && (k < 3 ==> x < |l|)
    ensures k == 3 ==> x + SALT_LENGTH + 1 <= |l| && l[x..x + SALT_LENGTH] == Fields(l)[3] && l[x + SALT_LENGTH + 1..] == Fields(l)[4]
  {
    var fs := Fields(l);
    FieldAt(l, k);
    if k == 3 { FieldAt(l, 4); }
    hide Fields;
  }

  lemma {:induction false} ClosingIs(t: string)
    ensures Closing(t) == if t != "" && t[|t| - 1] != '\n' then t + "\n" else t
  {
  }

  lemma {:induction false} PrefixBelow(ls: seq<string>, es: seq<Entry>, root: bool)
    requires Prefix(ls, es, root)
    ensures |es| <= |ls| && |es| <= MAX_USERS
  {
  }

  lemma {:induction false} PrefixEmpty(ls: seq<string>)
    ensures Prefix(ls, [], false)
  {
  }

  /** The record UserDBParse fills in for the line at `p`. */
  lemma {:induction false} NewRecord(t: string, p: nat, next: nat, n: nat, e: Entry)
    requires p < |t| && Closed(t[..p]) && n == |Lines(t[..p])|
    requires var stop := p + Find(t[p..], '\n'); next == if stop < |t| then stop + 1 else stop
    requires n < |Lines(t)| && ParseLine(Lines(t)[n]) == Some(e)
    ensures RecordOk(t, Lines(t), Record(p, next, e.uid, e.gid, e.name), n)
    ensures Lines(t[..next]) == Lines(t)[..n + 1] && (if next < |t| then Closed(t[..next]) else |Lines(t)| == n + 1)
  {
    hide Lines, ParseLine, Find;
    NextLine(t, p);
  }

  predicate Describes(r: Record, e: Entry) { r.name == e.name && r.uid == e.uid && r.gid == e.gid }

  lemma {:induction false} LineEnds(t: string, from: nat, stop: nat)
    requires from <= stop <= |t| && forall i :: from <= i < stop ==> t[i] != '\n'
    ensures var k := Find(t[from..], '\n'); k >= stop - from && (stop == |t| || t[stop] == '\n' ==> k == stop - from)
  {
    var k := Find(t[from..], '\n');
    if k < |t| - from { assert t[from..][k] == t[from + k]; }
    if stop < |t| { assert t[from..][stop - from] == t[stop]; }
  }

  lemma {:induction false} FieldEnds(l: string, start: nat, stop: nat)
    requires start <= stop <= |l| && (forall i :: start <= i < stop ==> l[i] != ':') && (stop < |l| ==> l[stop] == ':')
    ensures Fields(l[start..]) == if stop < |l| then [l[start..stop]] + Fields(l[stop + 1..]) else [l[start..]]
  {
    var rest := l[start..];
    var k := Find(rest, ':');
    if stop < |l| { assert rest[stop - start] == ':'; }
    assert k == stop - start by {
      assert forall i :: 0 <= i < stop - start ==> rest[i] == l[start + i];
    }
    assert rest[..k] == l[start..stop];
    if stop < |l| { assert rest[k + 1..] == l[stop + 1..]; }
  }

  lemma {:induction false} FieldsSome(l: string)
    ensures |Fields(l)| >= 1
  {
  }

  /** A line that could not be read does not parse. */
  lemma {:induction false} BadLine(t: string, p: nat)
    requires p < |t| && Closed(t[..p])
    requires var k := Find(t[p..], '\n'); !(k < LINE_SIZE && forall i :: p <= i < p + k ==> Printable(t[i]))
    ensures var n := |Lines(t[..p])|; n < |Lines(t)| && ParseLine(Lines(t)[n]).None?
  {
    hide Lines, ParseLine, Find;
    NextLine(t, p);
    var k := Find(t[p..], '\n');
    var line := t[p..p + k];
    if k < LINE_SIZE {
      var i :| p <= i < p + k && !Printable(t[i]);
      assert line[i - p] == t[i];
    }
    BadParse(line);
  }

  lemma {:induction false} BadParse(l: string)
    requires !(|l| < LINE_SIZE && forall i :: 0 <= i < |l| ==> Printable(l[i]))
    ensures ParseLine(l).None?
  {
  }

  lemma {:induction false} RootTwice(ls: seq<string>, es: seq<Entry>, e: Entry)
    requires Prefix(ls, es, true) && |es| < |ls| && ParseLine(ls[|es|]) == Some(e) && e.name == "root"
    ensures !exists all :: ValidDatabase(ls, all)
  {
    var k :| 0 <= k < |es| && es[k].name == "root";
    PrefixStops(ls, es, true, k);
  }

  function Backwards(s: string): string { if s == "" then "" else Backwards(s[1..]) + [s[0]] }

  lemma {:induction false} BackwardsAppend(s: string, c: char)
    ensures Backwards(s + [c]) == [c] + Backwards(s)
  {
    if s == "" { assert (s + [c])[1..] == ""; }
    else {
      BackwardsAppend(s[1..], c);
      assert (s + [c])[1..] == s[1..] + [c];
    }
  }
}
