/** The account database format of UserDB.c: what a line means, what a valid database is, and what adding and
    deleting an account do to its text. */
module UserDBSpec {
  import opened Prelude

  const CAPACITY := 65536
  const MAX_USERS := 128
  const LINE_SIZE := 512
  const NAME_MAX := 32
  const SALT_LENGTH := 32
  const DIGEST_LENGTH := 64
  const HASH_PREFIX := "argon2id$v=19$m=65536,t=3,p=1$"
  const FIRST_UID := 1000
  const MAX32 := 0xFFFF_FFFF

  // ---- Fields ----

  predicate Digit(c: char) { '0' <= c <= '9' }
  predicate NameChar(c: char) { 'a' <= c <= 'z' || 'A' <= c <= 'Z' || Digit(c) || c == '_' || c == '-' }
  predicate HexChar(c: char) { Digit(c) || 'a' <= c <= 'f' }
  predicate Printable(c: char) { ' ' <= c <= '~' }

  predicate ValidName(s: string) {
    0 < |s| <= NAME_MAX && !Digit(s[0]) && forall i :: 0 <= i < |s| ==> NameChar(s[i])
  }

  predicate Hex(s: string, n: nat) { |s| == n && forall i :: 0 <= i < |s| ==> HexChar(s[i]) }

  predicate ValidPassword(salt: string, hash: string) {
    && |hash| >= |HASH_PREFIX| && hash[..|HASH_PREFIX|] == HASH_PREFIX
    && Hex(salt, SALT_LENGTH) && Hex(hash[|HASH_PREFIX|..], DIGEST_LENGTH)
  }

  function DigitValue(c: char): nat
    requires Digit(c)
  {
    c as int - '0' as int
  }

  function DigitChar(n: nat): char
    requires n < 10
  {
    ('0' as int + n) as char
  }

  /** UserDBNumber from the value read so far; the check is made before the value could pass 32 bits. */
  function NumberFrom(s: string, v: nat): Option<nat> {
    if s == "" then Some(v)
    else if !Digit(s[0]) || v > (MAX32 - DigitValue(s[0])) / 10 then None
    else NumberFrom(s[1..], v * 10 + DigitValue(s[0]))
  }

  function Number(s: string): Option<nat> { if s == "" then None else NumberFrom(s, 0) }

  /** The number a string of digits denotes. */
  function Value(s: string): nat
    requires forall i :: 0 <= i < |s| ==> Digit(s[i])
  {
    if s == "" then 0 else Value(s[..|s| - 1]) * 10 + DigitValue(s[|s| - 1])
  }

  function Decimal(n: nat): string {
    if n < 10 then [DigitChar(n)] else Decimal(n / 10) + [DigitChar(n % 10)]
  }

  lemma {:induction false} DecimalDigits(n: nat)
    ensures var s := Decimal(n);
            s != "" && (forall i :: 0 <= i < |s| ==> Digit(s[i])) && Value(s) == n
            && (n >= 10 ==> |s| == 1 + |Decimal(n / 10)|)
  {
    if n >= 10 {
      DecimalDigits(n / 10);
      var s := Decimal(n);
      assert s[..|s| - 1] == Decimal(n / 10);
    } else { assert Decimal(n)[..0] == ""; }
  }

  lemma {:induction false} DecimalShort(n: nat)
    requires n <= MAX32
    ensures |Decimal(n)| <= 10
  {
    DecimalLength(n, 9, 4294967295);
  }

  /** A number with at most `k + 1` digits: dividing the bound `k` times by ten leaves one digit. */
  lemma {:induction false} DecimalLength(n: nat, k: nat, bound: nat)
    requires n <= bound && Shrinks(bound, k)
    ensures |Decimal(n)| <= k + 1
    decreases k
  {
    if n >= 10 { DecimalLength(n / 10, k - 1, bound / 10); }
  }

  predicate Shrinks(bound: nat, k: nat) { if k == 0 then bound < 10 else Shrinks(bound / 10, k - 1) }

  /** UserDBNumber accepts exactly the non-empty digit strings whose value fits 32 bits, and yields that value. */
  lemma {:induction false} NumberMeaning(s: string)
    ensures Number(s).Some? <==> s != "" && (forall i :: 0 <= i < |s| ==> Digit(s[i])) && Value(s) <= MAX32
    ensures Number(s).Some? ==> Number(s).value == Value(s)
  {
    if s != "" {
      NumberFromMeaning("", s);
      assert "" + s == s;
    }
  }

  lemma {:induction false} NumberFromMeaning(done: string, rest: string)
    requires (forall i :: 0 <= i < |done| ==> Digit(done[i])) && Value(done) <= MAX32
    ensures var r := NumberFrom(rest, Value(done)); var s := done + rest;
            && (r.Some? <==> (forall i :: 0 <= i < |s| ==> Digit(s[i])) && Value(s) <= MAX32)
            && (r.Some? ==> r.value == Value(s))
    decreases |rest|
  {
    var s := done + rest;
    if rest == "" { assert s == done; }
    else if Digit(rest[0]) {
      var more := done + [rest[0]];
      assert more[..|done|] == done && Value(more) == Value(done) * 10 + DigitValue(rest[0]);
      assert more + rest[1..] == s;
      if Value(more) <= MAX32 { NumberFromMeaning(more, rest[1..]); }
      else if forall i :: 0 <= i < |s| ==> Digit(s[i]) { ValueGrows(more, rest[1..]); }
    } else { assert s[|done|] == rest[0]; }
  }

  lemma {:induction false} ValueGrows(a: string, b: string)
    requires forall i :: 0 <= i < |a + b| ==> Digit((a + b)[i])
    ensures (forall i :: 0 <= i < |a| ==> Digit(a[i])) && Value(a + b) >= Value(a)
  {
    forall i | 0 <= i < |a| ensures Digit(a[i]) { assert (a + b)[i] == a[i]; }
    if b == "" { assert a + b == a; }
    else {
      var n := |b| - 1;
      assert (a + b)[..|a| + n] == a + b[..n];
      ValueGrows(a, b[..n]);
    }
  }

  lemma {:induction false} NumberDecimal(n: nat)
    requires n <= MAX32
    ensures Number(Decimal(n)) == Some(n)
  {
    DecimalDigits(n);
    NumberMeaning(Decimal(n));
  }

  // ---- Lines ----

  function Find(t: string, c: char): (k: nat)
    ensures k <= |t| && (k < |t| ==> t[k] == c) && forall i :: 0 <= i < k ==> t[i] != c
  {
    if t == "" || t[0] == c then 0 else 1 + Find(t[1..], c)
  }

  /** The text cut at newlines; one at the very end closes the last line. */
  function Lines(t: string): seq<string> {
    if t == "" then [] else
    var k := Find(t, '\n');
    [t[..k]] + if k < |t| then Lines(t[k + 1..]) else []
  }

  function Fields(l: string): seq<string> {
    var k := Find(l, ':');
    if k == |l| then [l] else [l[..k]] + Fields(l[k + 1..])
  }

  datatype Entry = Entry(name: string, uid: nat, gid: nat, salt: string, hash: string)

  /** What a line says, if it is well-formed: only root has user 0, and root has both ids 0. */
  function ParseLine(l: string): Option<Entry> {
    var f := Fields(l);
    if !(0 < |l| < LINE_SIZE) || !(forall i :: 0 <= i < |l| ==> Printable(l[i])) || |f| != 5 then None
    else if !ValidName(f[0]) || Number(f[1]).None? || Number(f[2]).None? || !ValidPassword(f[3], f[4]) then None
    else
      var e := Entry(f[0], Number(f[1]).value, Number(f[2]).value, f[3], f[4]);
      if (e.name == "root" && (e.uid != 0 || e.gid != 0)) || (e.name != "root" && e.uid == 0) then None else Some(e)
  }

  predicate Clash(a: Entry, b: Entry) { a.name == b.name || a.uid == b.uid }

  /** A database is up to 128 well-formed lines, names and user ids distinct, root among them. */
  ghost predicate ValidDatabase(ls: seq<string>, es: seq<Entry>) {
    && 0 < |ls| <= MAX_USERS && |es| == |ls|
    && (forall i :: 0 <= i < |ls| ==> ParseLine(ls[i]) == Some(es[i]))
    && (forall i, j :: 0 <= i < j < |es| ==> !Clash(es[i], es[j]))
    && (exists i :: 0 <= i < |es| && es[i].name == "root")
  }

  lemma {:induction false} EntriesUnique(ls: seq<string>, a: seq<Entry>, b: seq<Entry>)
    requires ValidDatabase(ls, a) && ValidDatabase(ls, b)
    ensures a == b
  {
    forall i | 0 <= i < |ls| ensures a[i] == b[i] { assert ParseLine(ls[i]) == Some(a[i]); }
  }

  predicate Closed(t: string) { t == "" || t[|t| - 1] == '\n' }

  lemma {:induction false} FindIn(a: string, b: string, c: char)
    ensures Find(a + b, c) == if Find(a, c) < |a| then Find(a, c) else |a| + Find(b, c)
  {
    if a == "" { assert a + b == b; }
    else if a[0] != c {
      FindIn(a[1..], b, c);
      assert (a + b)[1..] == a[1..] + b;
    }
  }

  lemma {:induction false} LinesStep(t: string)
    requires t != ""
    ensures var k := Find(t, '\n');
            && (k < |t| ==> Lines(t) == [t[..k]] + Lines(t[k + 1..]))
            && (k == |t| ==> Lines(t) == [t])
  {
    assert t[..|t|] == t;
  }

  /** Closed text followed by more text has the lines of both. */
  lemma {:induction false} LinesConcat(a: string, b: string)
    requires Closed(a)
    ensures Lines(a + b) == Lines(a) + Lines(b)
    decreases |a|
  {
    hide Find, Lines;
    if a == "" { assert a + b == b; EmptyLines(); }
    else {
      var k := LineBreak(a, b);
      LinesConcat(a[k + 1..], b);
      LinesStep(a);
      LinesStep(a + b);
      assert Lines(a + b) == [a[..k]] + (Lines(a[k + 1..]) + Lines(b));
    }
  }

  lemma {:induction false} EmptyLines()
    ensures Lines("") == []
  {
  }

  lemma {:induction false} LineBreak(a: string, b: string) returns (k: nat)
    requires a != "" && Closed(a)
    ensures k == Find(a, '\n') == Find(a + b, '\n') < |a| && Closed(a[k + 1..])
    ensures (a + b)[..k] == a[..k] && (a + b)[k + 1..] == a[k + 1..] + b
  {
    k := Find(a, '\n');
    FindIn(a, b, '\n');
    assert a[|a| - 1] == '\n';
    var rest := a[k + 1..];
    assert rest != "" ==> rest[|rest| - 1] == a[|a| - 1];
  }

  lemma {:induction false} OneLine(l: string)
    requires Find(l, '\n') == |l|
    ensures Lines(l + "\n") == [l] && (l != "" ==> Lines(l) == [l])
  {
    FindIn(l, "\n", '\n');
    assert (l + "\n")[..|l|] == l && (l + "\n")[|l| + 1..] == "" && l[..|l|] == l;
  }

  /** The newline a last line may lack changes no line. */
  lemma {:induction false} LinesClose(t: string)
    requires t != "" && !Closed(t)
    ensures Lines(t + "\n") == Lines(t)
    decreases |t|
  {
    hide Find, Lines;
    FindIn(t, "\n", '\n');
    LinesStep(t);
    LinesStep(t + "\n");
    var k := Find(t, '\n');
    if k == |t| { OneLine(t); }
    else {
      var rest := t[k + 1..];
      assert (t + "\n")[..k] == t[..k] && (t + "\n")[k + 1..] == rest + "\n";
      OpenRest(t, k);
      LinesClose(rest);
    }
  }

  lemma {:induction false} OpenRest(t: string, k: nat)
    requires k < |t| && t[k] == '\n' && !Closed(t)
    ensures t[k + 1..] != "" && !Closed(t[k + 1..])
  {
    assert t[|t| - 1] != '\n';
    assert t[k + 1..][|t| - k - 2] == t[|t| - 1];
  }

  // ---- Writing a line ----

  function Closing(t: string): string { if Closed(t) then t else t + "\n" }

  function Join(fs: seq<string>): string
    requires fs != []
  {
    if |fs| == 1 then fs[0] else fs[0] + ":" + Join(fs[1..])
  }

  function NewLine(name: string, uid: nat, salt: string, hash: string): string {
    Join([name, Decimal(uid), Decimal(uid), salt, hash])
  }

  /** The text UserDBAdd writes. */
  function Added(t: string, name: string, uid: nat, salt: string, hash: string): string {
    Closing(t) + NewLine(name, uid, salt, hash) + "\n"
  }

  lemma {:induction false} FieldsJoin(a: string, b: string)
    requires Find(a, ':') == |a|
    ensures Fields(a + ":" + b) == [a] + Fields(b)
  {
    var l := a + ":" + b;
    assert l == a + (":" + b) && (":" + b)[0] == ':';
    FindIn(a, ":" + b, ':');
    assert l[..|a|] == a && l[|a| + 1..] == b;
  }

  lemma {:induction false} NotFound(s: string, c: char)
    requires forall i :: 0 <= i < |s| ==> s[i] != c
    ensures Find(s, c) == |s|
  {
  }

  lemma {:induction false} PrefixPlain(i: nat)
    requires i < |HASH_PREFIX|
    ensures HASH_PREFIX[i] != ':' && Printable(HASH_PREFIX[i]) && |HASH_PREFIX| == 30
  {
  }

  /** No field holds a separator or an unprintable character. */
  lemma {:induction false} PasswordPlain(salt: string, hash: string)
    requires ValidPassword(salt, hash)
    ensures (forall i :: 0 <= i < |salt| ==> salt[i] != ':' && Printable(salt[i])) && |salt| == 32
    ensures (forall i :: 0 <= i < |hash| ==> hash[i] != ':' && Printable(hash[i])) && |hash| == 94
  {
    PrefixPlain(0);
    forall i | 0 <= i < |hash| ensures hash[i] != ':' && Printable(hash[i]) {
      if i < 30 { assert hash[i] == HASH_PREFIX[i]; PrefixPlain(i); }
      else { assert hash[i] == hash[|HASH_PREFIX|..][i - 30]; }
    }
  }

  lemma {:induction false} NamePlain(name: string)
    requires ValidName(name)
    ensures forall i :: 0 <= i < |name| ==> name[i] != ':' && Printable(name[i])
  {
  }

  lemma {:induction false} DecimalPlain(n: nat)
    ensures forall i :: 0 <= i < |Decimal(n)| ==> Decimal(n)[i] != ':' && Printable(Decimal(n)[i])
  {
    DecimalDigits(n);
    forall i | 0 <= i < |Decimal(n)| ensures Decimal(n)[i] != ':' && Printable(Decimal(n)[i]) { assert Digit(Decimal(n)[i]); }
  }

  predicate Plain(s: string) { forall i :: 0 <= i < |s| ==> s[i] != ':' && Printable(s[i]) }

  /** Fields without separators are what joining them gives back. */
  lemma {:induction false} FieldsOfJoin(fs: seq<string>)
    requires fs != [] && forall i :: 0 <= i < |fs| ==> Plain(fs[i])
    ensures Fields(Join(fs)) == fs
    decreases |fs|
  {
    NotFound(fs[0], ':');
    hide Find;
    if |fs| == 1 { OneField(fs[0]); }
    else {
      FieldsOfJoin(fs[1..]);
      FieldsJoin(fs[0], Join(fs[1..]));
    }
  }

  function TotalLength(fs: seq<string>): nat { if fs == [] then 0 else |fs[0]| + TotalLength(fs[1..]) }

  lemma {:induction false} JoinPlain(fs: seq<string>)
    requires fs != [] && forall i :: 0 <= i < |fs| ==> Plain(fs[i])
    ensures var l := Join(fs); |l| == TotalLength(fs) + |fs| - 1 && forall i :: 0 <= i < |l| ==> Printable(l[i])
    decreases |fs|
  {
    if |fs| > 1 { JoinPlain(fs[1..]); }
  }

  lemma {:induction false} OneField(e: string)
    requires Find(e, ':') == |e|
    ensures Fields(e) == [e]
  {
  }

  lemma {:induction false} LengthOfFive(a: string, b: string, c: string, d: string, e: string)
    ensures TotalLength([a, b, c, d, e]) == |a| + |b| + |c| + |d| + |e|
  {
    assert [e][1..] == [] && TotalLength([e]) == |e|;
    assert [d, e][1..] == [e] && TotalLength([d, e]) == |d| + |e|;
    assert [c, d, e][1..] == [d, e] && TotalLength([c, d, e]) == |c| + |d| + |e|;
    assert [b, c, d, e][1..] == [c, d, e] && TotalLength([b, c, d, e]) == |b| + |c| + |d| + |e|;
    assert [a, b, c, d, e][1..] == [b, c, d, e];
  }

  /** The line says name, user id, group id, salt and hash in this order, colons between them. */
  ghost predicate Spells(l: string, e: Entry, user: string, group: string) {
    && l == Join([e.name, user, group, e.salt, e.hash]) && |l| <= 511
    && ValidName(e.name) && ValidPassword(e.salt, e.hash)
    && Denotes(user, e.uid) && Denotes(group, e.gid)
    && if e.name == "root" then e.uid == e.gid == 0 else e.uid != 0
  }

  /** The string is a decimal numeral of a 32-bit number, leading zeros allowed. */
  ghost predicate Denotes(s: string, n: nat) {
    s != "" && (forall i :: 0 <= i < |s| ==> '0' <= s[i] <= '9') && Value(s) == n && n < 0x1_0000_0000
  }

  lemma {:induction false} DenotesNumber(s: string, n: nat)
    ensures Number(s) == Some(n) <==> Denotes(s, n)
  {
    NumberMeaning(s);
  }

  lemma {:induction false} JoinOfFields(l: string)
    ensures Fields(l) != [] && Join(Fields(l)) == l
  {
    var k := Find(l, ':');
    if k < |l| {
      JoinOfFields(l[k + 1..]);
      JoinMore(l[..k], Fields(l[k + 1..]));
      assert l == l[..k] + ":" + l[k + 1..];
    }
  }

  /** A line parses to an account exactly when it spells it. */
  lemma {:induction false} ParseMeaning(l: string, e: Entry)
    ensures ParseLine(l) == Some(e) <==> exists user, group :: Spells(l, e, user, group)
  {
    if ParseLine(l) == Some(e) { ParseForward(l, e); }
    if user, group :| Spells(l, e, user, group) { ParseBackward(l, e, user, group); }
  }

  lemma {:induction false} ParseForward(l: string, e: Entry)
    requires ParseLine(l) == Some(e)
    ensures exists user, group :: Spells(l, e, user, group)
  {
    var f := Fields(l);
    JoinOfFields(l);
    DenotesNumber(f[1], e.uid);
    DenotesNumber(f[2], e.gid);
    assert f == [e.name, f[1], f[2], e.salt, e.hash];
    hide Fields, Find, Join, ValidName, ValidPassword, Number, Denotes;
    assert Spells(l, e, f[1], f[2]);
  }

  lemma {:induction false} ParseBackward(l: string, e: Entry, user: string, group: string)
    requires Spells(l, e, user, group)
    ensures ParseLine(l) == Some(e)
  {
    NamePlain(e.name);
    PasswordPlain(e.salt, e.hash);
    DenotesNumber(user, e.uid);
    DenotesNumber(group, e.gid);
    assert Plain(user) && Plain(group);
    var fs := [e.name, user, group, e.salt, e.hash];
    FieldsOfJoin(fs);
    JoinPlain(fs);
    LengthOfFive(e.name, user, group, e.salt, e.hash);
    hide Fields, Find, Number, ValidPassword, Join, TotalLength, Denotes;
  }

  /** The line with both numbers in decimal parses to its account. */
  lemma {:induction false} LineParses(e: Entry)
    requires ValidName(e.name) && ValidPassword(e.salt, e.hash) && e.uid <= 0xFFFF_FFFF && e.gid <= 0xFFFF_FFFF
    requires if e.name == "root" then e.uid == e.gid == 0 else e.uid != 0
    ensures var l := Join([e.name, Decimal(e.uid), Decimal(e.gid), e.salt, e.hash]);
            ParseLine(l) == Some(e) && |l| <= |e.name| + |e.salt| + |e.hash| + 24
  {
    var user, group := Decimal(e.uid), Decimal(e.gid);
    NamePlain(e.name);
    PasswordPlain(e.salt, e.hash);
    DecimalShort(e.uid);
    DecimalShort(e.gid);
    DecimalDigits(e.uid);
    DecimalDigits(e.gid);
    var fs := [e.name, user, group, e.salt, e.hash];
    DecimalPlain(e.uid);
    DecimalPlain(e.gid);
    JoinPlain(fs);
    LengthOfFive(e.name, user, group, e.salt, e.hash);
    var l := Join(fs);
    hide Fields, Find, Number, ValidPassword, Join, TotalLength, Decimal, ParseLine;
    assert Spells(l, e, user, group);
    ParseBackward(l, e, user, group);
  }

  /** The text of a database is one line an account: at most 128 of them, one of them root's, and no name and no user
      id given twice. */
  lemma {:induction false} DatabaseMeaning(ls: seq<string>, es: seq<Entry>)
    ensures ValidDatabase(ls, es) <==>
              && |ls| == |es| <= 128
              && (forall i :: 0 <= i < |es| ==> ParseLine(ls[i]) == Some(es[i]))
              && (forall i, j :: 0 <= i < |es| && 0 <= j < |es| && i != j ==> es[i].name != es[j].name && es[i].uid != es[j].uid)
              && (exists i :: 0 <= i < |es| && es[i].uid == 0)
    ensures ValidDatabase(ls, es) ==>
              forall i :: 0 <= i < |es| ==> (es[i].uid == 0 <==> es[i].name == "root") && (es[i].name == "root" ==> es[i].gid == 0)
  {
    forall i | 0 <= i < |es| && i < |ls| && ParseLine(ls[i]) == Some(es[i])
      ensures (es[i].uid == 0 <==> es[i].name == "root") && (es[i].name == "root" ==> es[i].gid == 0)
    {
      ParseRoot(ls[i], es[i]);
    }
    hide ParseLine;
    if i :| 0 <= i < |es| && es[i].name == "root" && ValidDatabase(ls, es) { assert es[i].uid == 0; }
    if ValidDatabase(ls, es) {
      forall i, j | 0 <= i < |es| && 0 <= j < |es| && i != j ensures es[i].name != es[j].name && es[i].uid != es[j].uid {
        assert !Clash(es[if i < j then i else j], es[if i < j then j else i]);
      }
    }
  }

  lemma {:induction false} ParseRoot(l: string, e: Entry)
    requires ParseLine(l) == Some(e)
    ensures (e.uid == 0 <==> e.name == "root") && (e.name == "root" ==> e.gid == 0)
  {
  }

  /** The line UserDBAdd writes parses to the account it is written for. */
  lemma {:induction false} NewLineParses(name: string, uid: nat, salt: string, hash: string)
    requires ValidName(name) && ValidPassword(salt, hash) && uid <= MAX32 && (name == "root" <==> uid == 0)
    ensures var l := NewLine(name, uid, salt, hash);
            && ParseLine(l) == Some(Entry(name, uid, uid, salt, hash)) && Find(l, '\n') == |l|
            && 0 < |l| && |l| + 1 <= |name| + |salt| + |hash| + 25
  {
    var l, e := NewLine(name, uid, salt, hash), Entry(name, uid, uid, salt, hash);
    LineParses(e);
    forall i | 0 <= i < |l| ensures l[i] != '\n' { ParsedPrintable(l, e, i); }
    NotFound(l, '\n');
  }

  lemma {:induction false} ParsedPrintable(l: string, e: Entry, i: nat)
    requires ParseLine(l) == Some(e)
    ensures l != "" && (i < |l| ==> Printable(l[i]))
  {
  }

  // ---- Adding ----

  predicate IdUsed(es: seq<Entry>, id: nat) { exists i :: 0 <= i < |es| && (es[i].uid == id || es[i].gid == id) }

  function Ids(es: seq<Entry>): seq<nat> {
    seq(|es|, i requires 0 <= i < |es| => es[i].uid) + seq(|es|, i requires 0 <= i < |es| => es[i].gid)
  }

  /** The search for a free id passes at most two ids an account. */
  lemma {:induction false} FreeIdSoon(es: seq<Entry>, id: nat)
    requires id >= FIRST_UID && forall k: nat :: FIRST_UID <= k < id ==> IdUsed(es, k)
    ensures id <= FIRST_UID + 2 * |es|
  {
    var a := seq(|es|, i requires 0 <= i < |es| => es[i].uid);
    var b := seq(|es|, i requires 0 <= i < |es| => es[i].gid);
    forall k | k in Interval(FIRST_UID, id - FIRST_UID) ensures k in Members(Ids(es)) {
      assert IdUsed(es, k);
      var i :| 0 <= i < |es| && (es[i].uid == k || es[i].gid == k);
      assert Ids(es) == a + b && a[i] == es[i].uid && b[i] == es[i].gid;
    }
    MembersFew(Ids(es));
    Subset(Interval(FIRST_UID, id - FIRST_UID), Members(Ids(es)));
  }

  /** The text UserDBAdd writes holds the old accounts and one more, with its own id. */
  lemma {:induction false} AddMeaning(t: string, es: seq<Entry>, name: string, uid: nat, salt: string, hash: string)
    requires ValidDatabase(Lines(t), es) && |es| < MAX_USERS
    requires ValidName(name) && name != "root" && ValidPassword(salt, hash)
    requires (forall i :: 0 <= i < |es| ==> es[i].name != name) && uid > 0 && uid <= MAX32 && !IdUsed(es, uid)
    ensures var line := NewLine(name, uid, salt, hash);
            && Lines(Added(t, name, uid, salt, hash)) == Lines(t) + [line]
            && ValidDatabase(Lines(t) + [line], es + [Entry(name, uid, uid, salt, hash)])
  {
    var line := NewLine(name, uid, salt, hash);
    NewLineParses(name, uid, salt, hash);
    AddedLines(t, line);
    assert Added(t, name, uid, salt, hash) == Closing(t) + (line + "\n");
    hide NewLine, Closing, ParseLine, Lines, ValidPassword, Added;
    OneMore(Lines(t), es, line, Entry(name, uid, uid, salt, hash));
  }

  lemma {:induction false} OneMore(ls: seq<string>, es: seq<Entry>, line: string, e: Entry)
    requires ValidDatabase(ls, es) && |es| < MAX_USERS && ParseLine(line) == Some(e)
    requires forall i :: 0 <= i < |es| ==> !Clash(es[i], e)
    ensures ValidDatabase(ls + [line], es + [e])
  {
    hide ParseLine, Clash;
    var more := es + [e];
    var i :| 0 <= i < |es| && es[i].name == "root";
    assert more[i].name == "root";
  }

  lemma {:induction false} AddedLines(t: string, line: string)
    requires Find(line, '\n') == |line|
    ensures Lines(Closing(t) + (line + "\n")) == Lines(t) + [line]
  {
    hide Lines, Find;
    if !Closed(t) { LinesClose(t); }
    assert Closed(Closing(t));
    LinesConcat(Closing(t), line + "\n");
    OneLine(line);
  }

  /** The first account is root's. */
  lemma {:induction false} InitialMeaning(salt: string, hash: string)
    requires ValidPassword(salt, hash)
    ensures var line := NewLine("root", 0, salt, hash);
            && Lines(Added("", "root", 0, salt, hash)) == [line]
            && ValidDatabase([line], [Entry("root", 0, 0, salt, hash)])
  {
    var line := NewLine("root", 0, salt, hash);
    assert ValidName("root");
    NewLineParses("root", 0, salt, hash);
    AddedLines("", line);
    assert Added("", "root", 0, salt, hash) == Closing("") + (line + "\n");
    assert [] + [line] == [line];
    assert [Entry("root", 0, 0, salt, hash)][0].name == "root";
  }

  // ---- Deleting ----

  /** Where a record lies in the text: its line starts at `start`, and `end` is past its newline if it has one. */
  ghost predicate Spans(t: string, start: nat, end: nat, ls: seq<string>, i: nat) {
    && start <= end <= |t| && i < |ls| && Closed(t[..start])
    && Lines(t[..start]) == ls[..i] && Lines(t[end..]) == ls[i + 1..]
    && (t[start..end] == ls[i] + "\n" || (t[start..end] == ls[i] && end == |t|))
  }

  function Without<T>(s: seq<T>, i: nat): seq<T>
    requires i < |s|
  {
    s[..i] + s[i + 1..]
  }

  /** Cutting a record out of the text takes exactly its account away. */
  lemma {:induction false} DeleteMeaning(t: string, es: seq<Entry>, start: nat, end: nat, i: nat)
    requires ValidDatabase(Lines(t), es) && Spans(t, start, end, Lines(t), i) && es[i].name != "root"
    ensures Lines(t[..start] + t[end..]) == Without(Lines(t), i)
    ensures ValidDatabase(Without(Lines(t), i), Without(es, i))
  {
    hide Lines, ParseLine;
    LinesConcat(t[..start], t[end..]);
    var k :| 0 <= k < |es| && es[k].name == "root";
    var rest := Without(es, i);
    assert rest[if k < i then k else k - 1] == es[k];
    forall a, b | 0 <= a < b < |rest| ensures !Clash(rest[a], rest[b]) {
      assert rest[a] == es[if a < i then a else a + 1] && rest[b] == es[if b < i then b else b + 1];
    }
    forall a | 0 <= a < |rest| ensures ParseLine(Without(Lines(t), i)[a]) == Some(rest[a]) {
      assert ParseLine(Lines(t)[if a < i then a else a + 1]) == Some(es[if a < i then a else a + 1]);
    }
  }

  /** Deleting what was just added leaves the original text, with its last newline if that was missing. */
  lemma {:induction false} DeleteAfterAdd(t: string, name: string, uid: nat, salt: string, hash: string, start: nat, end: nat)
    requires ValidName(name) && ValidPassword(salt, hash) && uid <= MAX32 && (name == "root" <==> uid == 0)
    requires var u := Added(t, name, uid, salt, hash); Spans(u, start, end, Lines(u), |Lines(t)|)
    ensures var u := Added(t, name, uid, salt, hash); u[..start] + u[end..] == Closing(t)
  {
    hide Lines, ParseLine, Find, NewLine, Closing, ValidPassword, ValidName, Added;
    var u, line := Added(t, name, uid, salt, hash), NewLine(name, uid, salt, hash);
    NewLineParses(name, uid, salt, hash);
    AddedIs(t, name, uid, salt, hash);
    AddedLines(t, line);
    assert Lines(u)[|Lines(t)| + 1..] == [];
    LinesNone(u[end..]);
    assert end == |u| && u[start..end] == u[start..];
    LastSpan(u, start, line, Closing(t));
    assert Lines(u)[|Lines(t)|] == line;
  }

  lemma {:induction false} AddedIs(t: string, name: string, uid: nat, salt: string, hash: string)
    ensures Added(t, name, uid, salt, hash) == Closing(t) + (NewLine(name, uid, salt, hash) + "\n")
  {
  }

  lemma {:induction false} LinesNone(t: string)
    requires Lines(t) == []
    ensures t == ""
  {
  }

  lemma {:induction false} LastSpan(u: string, start: nat, line: string, before: string)
    requires u == before + (line + "\n") && start <= |u| && Find(line, '\n') == |line| > 0
    requires u[start..] == line + "\n" || u[start..] == line
    ensures u[..start] + u[|u|..] == before
  {
    NotBare(u, start, line);
    assert |u| - start == |line| + 1;
    assert u[..start] == before && u[|u|..] == "";
  }

  lemma {:induction false} NotBare(u: string, start: nat, line: string)
    requires u != "" && u[|u| - 1] == '\n' && start <= |u| && Find(line, '\n') == |line| > 0
    ensures u[start..] != line
  {
    if start < |u| { assert u[start..][|u| - start - 1] == u[|u| - 1]; }
  }

  // ---- Where fields lie ----

  /** Position of field `k` in the line. */
  function FieldStart(fs: seq<string>, k: nat): nat
    requires k <= |fs|
  {
    if k == 0 then 0 else FieldStart(fs, k - 1) + |fs[k - 1]| + 1
  }

  lemma {:induction false} FieldStartShift(fs: seq<string>, k: nat)
    requires 1 <= k <= |fs|
    ensures FieldStart(fs, k) == |fs[0]| + 1 + FieldStart(fs[1..], k - 1)
  {
    if k > 1 { FieldStartShift(fs, k - 1); }
  }

  /** Field `k` is found at its position, has no colon and is followed by one unless it is the last. */
  ghost predicate FieldHere(l: string, fs: seq<string>, k: nat)
    requires k < |fs|
  {
    var p := FieldStart(fs, k);
    && p + |fs[k]| <= |l| && l[p..p + |fs[k]|] == fs[k]
    && (forall i :: 0 <= i < |fs[k]| ==> fs[k][i] != ':')
    && (if k + 1 < |fs| then p + |fs[k]| < |l| && l[p + |fs[k]|] == ':' else p + |fs[k]| == |l|)
  }

  lemma {:induction false} FieldAt(l: string, k: nat)
    requires k < |Fields(l)|
    ensures FieldHere(l, Fields(l), k)
    decreases k
  {
    var fs, c := Fields(l), Find(l, ':');
    if k > 0 {
      var rest := l[c + 1..];
      assert fs[1..] == Fields(rest) && |fs[0]| == c;
      FieldAt(rest, k - 1);
      hide Find, Fields, FieldHere;
      FieldShift(l, fs, rest, c, k);
    } else { assert l[..|l|] == l && l[0..c] == l[..c]; }
  }

  lemma {:induction false} FieldShift(l: string, fs: seq<string>, rest: string, c: nat, k: nat)
    requires 0 < k < |fs| && c < |l| && rest == l[c + 1..] && |fs[0]| == c && FieldHere(rest, fs[1..], k - 1)
    ensures FieldHere(l, fs, k)
  {
    FieldStartShift(fs, k);
    var q := FieldStart(fs[1..], k - 1);
    hide FieldStart;
    assert fs[1..][k - 1] == fs[k];
    assert l[c + 1 + q..c + 1 + q + |fs[k]|] == rest[q..q + |fs[k]|];
  }

  /** Five fields written in turn are the joined line. */
  lemma {:induction false} FiveJoined(before: string, a: string, b: string, c: string, d: string, e: string)
    ensures before + a + ":" + b + ":" + c + ":" + d + ":" + e + "\n" == before + Join([a, b, c, d, e]) + "\n"
  {
    assert [a, b, c, d, e][1..] == [b, c, d, e] && [b, c, d, e][1..] == [c, d, e];
    assert [c, d, e][1..] == [d, e] && [d, e][1..] == [e];
    var r3 := Join([d, e]);
    var r2 := Join([c, d, e]);
    var r1 := Join([b, c, d, e]);
    var r0 := Join([a, b, c, d, e]);
    hide Join;
    assert r3 == d + ":" + e by { JoinTwo(d, e); }
    assert r2 == c + ":" + r3 by { JoinMore(c, [d, e]); }
    assert r1 == b + ":" + r2 by { JoinMore(b, [c, d, e]); }
    assert r0 == a + ":" + r1 by { JoinMore(a, [b, c, d, e]); }
    assert before + a + ":" + b + ":" + c + ":" + d + ":" + e == before + a + ":" + b + ":" + c + ":" + r3;
    assert before + a + ":" + b + ":" + c + ":" + r3 == before + a + ":" + b + ":" + r2;
    assert before + a + ":" + b + ":" + r2 == before + a + ":" + r1;
    assert before + a + ":" + r1 == before + r0;
  }

  lemma {:induction false} JoinTwo(a: string, b: string)
    ensures Join([a, b]) == a + ":" + b
  {
    assert [a, b][1..] == [b];
  }

  lemma {:induction false} JoinMore(a: string, fs: seq<string>)
    requires fs != []
    ensures Join([a] + fs) == a + ":" + Join(fs)
  {
    assert ([a] + fs)[1..] == fs;
  }

  // ---- Outcomes ----

  datatype Result =
    | OK | INVALID_NAME | UNAVAILABLE | INVALID | EXISTS | NOT_FOUND | ROOT_REQUIRED | ROOT_PROTECTED | LIMIT | LOCKED | IO

  ghost predicate Loadable(t: string) { exists es :: ValidDatabase(Lines(t), es) }

  /** The accounts of a text; `EntriesUnique` says that there is only one such list. */
  ghost function Accounts(t: string): (es: seq<Entry>)
    requires Loadable(t)
    ensures ValidDatabase(Lines(t), es)
  {
    var es :| ValidDatabase(Lines(t), es);
    es
  }

  lemma {:induction false} AccountsAre(t: string, es: seq<Entry>)
    requires ValidDatabase(Lines(t), es)
    ensures Loadable(t) && es == Accounts(t)
  {
    EntriesUnique(Lines(t), es, Accounts(t));
  }

  /** A file that can be opened: its text, the position at which a read fails, if one does, and whether it closes. */
  datatype File = File(text: string, failsAt: Option<nat>, closes: bool)

  predicate ReadFails(f: File) { f.failsAt.Some? && f.failsAt.value <= |f.text| && f.failsAt.value <= CAPACITY }

  /** What UserDBLoad finds in the file, None when it cannot be opened. */
  ghost function LoadResult(file: Option<File>): Result {
    if file.None? then UNAVAILABLE
    else if !file.value.closes || ReadFails(file.value) then IO
    else if |file.value.text| > CAPACITY then LIMIT
    else if Loadable(file.value.text) then OK else INVALID
  }

  /** The accounts UserDBLoad reads; none when it fails. */
  ghost function Loaded(file: Option<File>): seq<Entry> { if LoadResult(file).OK? then Accounts(file.value.text) else [] }

  /** Line `i` of the text spells the account. */
  ghost predicate SpelledAt(t: string, i: nat, e: Entry) {
    i < |Lines(t)| && exists user, group :: Spells(Lines(t)[i], e, user, group)
  }

  /** The accounts read are exactly those that the lines of the text spell. */
  lemma {:induction false} LoadedMeaning(file: Option<File>, e: Entry)
    requires LoadResult(file).OK?
    ensures file.Some? && (e in Loaded(file) <==> exists i: nat :: SpelledAt(file.value.text, i, e))
  {
    hide ParseLine, Spells;
    var t, es := file.value.text, Loaded(file);
    forall i: nat | i < |Lines(t)| ensures SpelledAt(t, i, e) <==> es[i] == e { ParseMeaning(Lines(t)[i], e); }
    if e in es { var i: nat :| i < |es| && es[i] == e; assert SpelledAt(t, i, e); }
    if i: nat :| SpelledAt(t, i, e) { assert es[i] == e; }
  }

  lemma {:induction false} NamedOnce(ls: seq<string>, es: seq<Entry>, i: nat, e: Entry)
    requires ValidDatabase(ls, es) && i < |es|
    ensures e in es && e.name == es[i].name <==> e == es[i]
  {
    DatabaseMeaning(ls, es);
  }

  function TextOf(file: Option<File>): Option<string> { if file.None? then None else Some(file.value.text) }

  ghost predicate Named(es: seq<Entry>, name: string) { exists i :: 0 <= i < |es| && es[i].name == name }

  function Required(name: string, salt: string, hash: string): nat { |name| + |salt| + |hash| + 25 }

  /** The space asked for is that of the longest line an account of this name can have, newline included. */
  lemma {:induction false} RequiredTight(name: string, salt: string, hash: string, uid: nat)
    requires ValidName(name) && name != "root" && ValidPassword(salt, hash) && 0 < uid <= MAX32
    ensures |NewLine(name, uid, salt, hash)| + 1 <= Required(name, salt, hash)
    ensures uid >= 1_000_000_000 ==> |NewLine(name, uid, salt, hash)| + 1 == Required(name, salt, hash)
  {
    NewLineParses(name, uid, salt, hash);
    NamePlain(name);
    PasswordPlain(salt, hash);
    DecimalPlain(uid);
    var fs := [name, Decimal(uid), Decimal(uid), salt, hash];
    hide Decimal, ValidPassword;
    JoinPlain(fs);
    LengthOfFive(name, Decimal(uid), Decimal(uid), salt, hash);
    DecimalShort(uid);
    if uid >= 1_000_000_000 { DecimalLong(uid, 9, 1_000_000_000); }
  }

  /** A number from `bound` up has more than `k` digits, when `bound` is ten to the `k`. */
  lemma {:induction false} DecimalLong(n: nat, k: nat, bound: nat)
    requires n >= bound && TenTo(k) == bound
    ensures |Decimal(n)| >= k + 1
    decreases k
  {
    if k > 0 { DecimalLong(n / 10, k - 1, bound / 10); }
  }

  function TenTo(k: nat): nat { if k == 0 then 1 else 10 * TenTo(k - 1) }

  /** What UserDBAdd answers. */
  ghost function AddResult(name: string, salt: string, hash: string, file: Option<File>, locked: bool, saved: bool): Result {
    if !ValidName(name) then INVALID_NAME
    else if !ValidPassword(salt, hash) then INVALID
    else if !locked then LOCKED
    else if file.None? then if name != "root" then ROOT_REQUIRED else if saved then OK else IO
    else if !LoadResult(file).OK? then LoadResult(file)
    else if Named(Loaded(file), name) then EXISTS
    else if |Loaded(file)| == MAX_USERS then LIMIT
    else if |Closing(file.value.text)| > CAPACITY || Required(name, salt, hash) > CAPACITY - |Closing(file.value.text)| then LIMIT
    else if saved then OK else IO
  }

  /** The least id from 1000 up that is neither a user nor a group. */
  ghost predicate LeastFreeId(es: seq<Entry>, uid: nat) {
    && 1000 <= uid <= 1000 + 2 * |es| && (forall i :: 0 <= i < |es| ==> es[i].uid != uid && es[i].gid != uid)
    && forall k: nat :: 1000 <= k < uid ==> IdUsed(es, k)
  }

  /** `after` is `before` with one more account, and small enough to be read again. */
  ghost predicate Appended(before: string, es: seq<Entry>, e: Entry, after: string) {
    && e.uid == e.gid && after == Added(before, e.name, e.uid, e.salt, e.hash) && |after| <= CAPACITY
    && ValidDatabase(Lines(after), es + [e])
  }

  lemma {:induction false} AddAppends(t: string, es: seq<Entry>, name: string, uid: nat, salt: string, hash: string)
    requires ValidDatabase(Lines(t), es) && |es| < MAX_USERS && LeastFreeId(es, uid)
    requires ValidName(name) && ValidPassword(salt, hash) && forall i :: 0 <= i < |es| ==> es[i].name != name
    requires |Closing(t)| + Required(name, salt, hash) <= CAPACITY
    ensures Appended(t, es, Entry(name, uid, uid, salt, hash), Added(t, name, uid, salt, hash)) && name != "root"
  {
    hide Lines, ParseLine, ValidName, ValidPassword, NewLine, Closing, Clash;
    AddMeaning(t, es, name, uid, salt, hash);
    NewLineParses(name, uid, salt, hash);
  }

  lemma {:induction false} InitialAppends(salt: string, hash: string)
    requires ValidPassword(salt, hash)
    ensures Appended("", [], Entry("root", 0, 0, salt, hash), Added("", "root", 0, salt, hash))
  {
    InitialMeaning(salt, hash);
    PasswordPlain(salt, hash);
    assert ValidName("root");
    NewLineParses("root", 0, salt, hash);
    hide Lines, ParseLine, NewLine, ValidPassword;
    assert [] + [Entry("root", 0, 0, salt, hash)] == [Entry("root", 0, 0, salt, hash)];
  }

  /** What UserDBDelete answers. */
  ghost function DeleteResult(name: string, file: Option<File>, locked: bool, saved: bool): Result {
    if !ValidName(name) then INVALID_NAME
    else if name == "root" then ROOT_PROTECTED
    else if !locked then LOCKED
    else if !LoadResult(file).OK? then LoadResult(file)
    else if !Named(Loaded(file), name) then NOT_FOUND
    else if saved then OK else IO
  }

  /** What UserDBLookup answers. */
  ghost function LookupResult(name: string, file: Option<File>): Result {
    if !ValidName(name) then INVALID_NAME
    else if !LoadResult(file).OK? then LoadResult(file)
    else if Named(Loaded(file), name) then OK else NOT_FOUND
  }

  /** `after` is `before` without account `i`. */
  ghost predicate Cut(before: string, es: seq<Entry>, i: nat, after: string) {
    && i < |es| && ValidDatabase(Lines(after), Without(es, i))
    && exists start: nat, end: nat :: Spans(before, start, end, Lines(before), i) && after == before[..start] + before[end..]
  }

  lemma {:induction false} SpanCut(before: string, es: seq<Entry>, i: nat, start: nat, end: nat)
    requires ValidDatabase(Lines(before), es) && i < |es| && es[i].name != "root" && Spans(before, start, end, Lines(before), i)
    ensures Cut(before, es, i, before[..start] + before[end..])
  {
    DeleteMeaning(before, es, start, end, i);
  }

  /** Adding an account and cutting it out again leaves the text, with its last newline if that was missing. */
  lemma {:induction false} AddThenCut(t: string, es: seq<Entry>, e: Entry, added: string, cut: string)
    requires ValidDatabase(Lines(t), es) && Appended(t, es, e, added) && Cut(added, es + [e], |es|, cut)
    ensures cut == Closing(t)
  {
    hide Lines, ParseLine, Added, Closing;
    assert ParseLine(Lines(added)[|es|]) == Some(e) by { assert (es + [e])[|es|] == e; }
    ParsedFields(Lines(added)[|es|], e);
    var start: nat, end: nat :| Spans(added, start, end, Lines(added), |es|) && cut == added[..start] + added[end..];
    DeleteAfterAdd(t, e.name, e.uid, e.salt, e.hash, start, end);
  }

  /** Reading the text back after an account was added finds the old accounts and the new one. */
  lemma {:induction false} AddedLoads(before: string, es: seq<Entry>, e: Entry, after: string)
    requires Appended(before, es, e, after)
    ensures var f := Some(File(after, None, true)); LoadResult(f).OK? && Loaded(f) == es + [e] && LookupResult(e.name, f).OK?
  {
    hide Lines, ParseLine, Added;
    AccountsAre(after, es + [e]);
    assert (es + [e])[|es|] == e;
    assert ParseLine(Lines(after)[|es|]) == Some(e);
    ParsedFields(Lines(after)[|es|], e);
  }

  /** Reading it back after one was deleted finds the others, and its name no more. */
  lemma {:induction false} CutLoads(before: string, es: seq<Entry>, i: nat, after: string)
    requires ValidDatabase(Lines(before), es) && Cut(before, es, i, after) && |before| <= CAPACITY
    ensures var f := Some(File(after, None, true));
            LoadResult(f).OK? && Loaded(f) == Without(es, i) && LookupResult(es[i].name, f) == NOT_FOUND
  {
    hide Lines, ParseLine;
    AccountsAre(after, Without(es, i));
    DatabaseMeaning(Lines(before), es);
    assert ParseLine(Lines(before)[i]) == Some(es[i]);
    ParsedFields(Lines(before)[i], es[i]);
  }

  lemma {:induction false} ParsedFields(l: string, e: Entry)
    requires ParseLine(l) == Some(e)
    ensures ValidName(e.name) && ValidPassword(e.salt, e.hash) && e.uid <= MAX32 && (e.name == "root" <==> e.uid == 0)
    ensures |Fields(l)| == 5 && Fields(l)[3] == e.salt && Fields(l)[4] == e.hash && |e.salt| == SALT_LENGTH
  {
    NumberMeaning(Fields(l)[1]);
  }
}
