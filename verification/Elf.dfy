/** ELF64.c's loader over decoded headers: which files are accepted and what the user image holds afterwards. */
module Elf {
  import opened Prelude

  type Byte = x: int | 0 <= x < 256

  const PAGE := 4096
  const WORD := 0x1_0000_0000_0000_0000
  const USER_END := 0x8000_0000_0000
  const STACK_PAGES := 16
  const STACK := USER_END - 17 * PAGE
  const MAX_PAGES := 262144

  datatype Kind = Load | Interpreter | Dynamic | Tls | Other

  /** A program header; the permission bits beyond R, W and X are lumped together. */
  datatype Segment = Segment(kind: Kind, vaddr: nat, offset: nat, fileSize: nat, memSize: nat, align: nat,
                             readable: bool, writable: bool, executable: bool, unknownFlags: bool)

  datatype FileType = Executable | SharedObject | OtherType

  /** The file header; `identified` is whether magic, class, machine, versions and sizes are the expected ones and the
      table of program headers lies in the file. */
  datatype Header = Header(identified: bool, fileType: FileType, entry: nat, segments: seq<Segment>)

  const DYNAMIC_SIZE := 16

  function FirstPage(s: Segment): nat { s.vaddr / PAGE }
  function EndPage(s: Segment): nat { (s.vaddr + s.memSize + PAGE - 1) / PAGE }

  predicate InFile(offset: nat, length: nat, size: nat) { offset <= size && length <= size - offset }

  /** ELF64ValidateLoadSegment. */
  predicate ValidSegment(s: Segment, size: nat) {
    && s.fileSize <= s.memSize && s.memSize != 0 && InFile(s.offset, s.fileSize, size)
    && s.vaddr <= WORD - 1 - s.memSize
    && (s.align > 1 ==> PowerOfTwo(s.align) && s.vaddr % s.align == s.offset % s.align)
  }

  /** The user range, alignment and permission checks of ELF64Load. */
  predicate UserSegment(s: Segment) {
    && PAGE <= s.vaddr < STACK - PAGE && s.memSize <= STACK - PAGE - s.vaddr
    && !s.unknownFlags && s.readable && !(s.writable && s.executable) && s.vaddr % PAGE == s.offset % PAGE
  }

  predicate Overlap(a: Segment, b: Segment) { FirstPage(a) < EndPage(b) && FirstPage(b) < EndPage(a) }

  predicate Enters(s: Segment, entry: nat) { s.kind.Load? && s.executable && s.vaddr <= entry < s.vaddr + s.memSize }

  /** Pages of the loadable ones among the first `k` segments. */
  function PagesUpto(ss: seq<Segment>, k: nat): nat
    requires k <= |ss|
  {
    if k == 0 then 0
    else PagesUpto(ss, k - 1) + if ss[k - 1].kind.Load? then EndPage(ss[k - 1]) - FirstPage(ss[k - 1]) else 0
  }

  /** ELF64Validate: what an executable or a shared object must be, interpreter and dynamic entries included. */
  ghost predicate ValidFile(h: Header, file: seq<Byte>) {
    && h.identified && !h.fileType.OtherType?
    && (forall i :: 0 <= i < |h.segments| ==> ValidEntry(h.segments[i], file))
    && (forall i, j :: 0 <= i < j < |h.segments| ==> !(SameSpecial(h.segments[i], h.segments[j])))
    && (exists i :: 0 <= i < |h.segments| && h.segments[i].kind.Load?)
    && (h.fileType.Executable? || h.entry != 0 ==> Entered(h))
  }

  predicate ValidEntry(s: Segment, file: seq<Byte>) {
    match s.kind
    case Load => ValidSegment(s, |file|)
    case Interpreter => s.fileSize >= 2 && InFile(s.offset, s.fileSize, |file|) && file[s.offset + s.fileSize - 1] == 0
    case Dynamic => s.fileSize != 0 && s.fileSize % DYNAMIC_SIZE == 0 && InFile(s.offset, s.fileSize, |file|)
    case _ => true
  }

  /** Both name the interpreter, or both the dynamic section; a file may have one of each. */
  predicate SameSpecial(a: Segment, b: Segment) { a.kind == b.kind && (a.kind.Interpreter? || a.kind.Dynamic?) }

  /** Everything ELF64Validate and the first loop of ELF64Load ask. */
  ghost predicate Loadable(h: Header, file: seq<Byte>) {
    && ValidFile(h, file) && h.fileType.Executable?
    && AllAccepted(h.segments, |file|)
    && PagesUpto(h.segments, |h.segments|) + STACK_PAGES <= MAX_PAGES
  }

  ghost predicate Entered(h: Header) { exists i :: 0 <= i < |h.segments| && Enters(h.segments[i], h.entry) }

  ghost predicate AllAccepted(ss: seq<Segment>, size: nat) {
    && (forall i :: 0 <= i < |ss| ==> Accepted(ss[i], size))
    && (forall i, j :: 0 <= i < j < |ss| && ss[i].kind.Load? && ss[j].kind.Load? ==> !Overlap(ss[i], ss[j]))
  }

  predicate Accepted(s: Segment, size: nat) {
    match s.kind
    case Load => ValidSegment(s, size) && UserSegment(s)
    case Other => true
    case _ => false
  }

  /** A segment that can be loaded: its file part lies in the file, its memory part between the first page and the page
      below the stack, both at the same place in a page; it can be read, and not both written and executed. */
  predicate Fits(s: Segment, size: nat) {
    && s.fileSize <= s.memSize && s.memSize > 0 && s.offset + s.fileSize <= size
    && 0x1000 <= s.vaddr && s.vaddr + s.memSize <= 0x7FFF_FFFE_E000 && (s.vaddr - s.offset) % 0x1000 == 0
    && s.readable && !s.unknownFlags && !(s.writable && s.executable)
    && (s.align > 1 ==> PowerOfTwo(s.align) && s.vaddr % s.align == s.offset % s.align)
  }

  /** A file is loaded exactly when it is an executable that enters an executable segment, has no interpreter, dynamic
      section or thread-local storage, all its segments fit, no page is in two of them, and there are pages enough. */
  lemma {:induction false} LoadableMeaning(h: Header, file: seq<Byte>)
    ensures var ss := h.segments;
            Loadable(h, file) <==>
              && h.identified && h.fileType.Executable?
              && (forall i :: 0 <= i < |ss| ==> ss[i].kind.Other? || (ss[i].kind.Load? && Fits(ss[i], |file|)))
              && (forall i: nat, j: nat, p: nat :: i < |ss| && j < |ss| && Within(ss[i], p) && Within(ss[j], p) ==> i == j)
              && (exists i :: 0 <= i < |ss| && ss[i].kind.Load? && ss[i].executable && ss[i].vaddr <= h.entry < ss[i].vaddr + ss[i].memSize)
              && PagesUpto(ss, |ss|) <= 0x3_FFF0
  {
    var ss := h.segments;
    forall i | 0 <= i < |ss| ensures Accepted(ss[i], |file|) <==> ss[i].kind.Other? || (ss[i].kind.Load? && Fits(ss[i], |file|)) {
      FitsIs(ss[i], |file|);
    }
    if Loadable(h, file) {
      forall i: nat, j: nat, p: nat | i < |ss| && j < |ss| && Within(ss[i], p) && Within(ss[j], p) ensures i == j {
        OneSegment(ss, |file|, i, j, p);
      }
      var i :| 0 <= i < |ss| && Enters(ss[i], h.entry);
      assert ss[i].kind.Load?;
    }
    if i :| 0 <= i < |ss| && ss[i].kind.Load? && ss[i].executable && ss[i].vaddr <= h.entry < ss[i].vaddr + ss[i].memSize {
      assert Enters(ss[i], h.entry);
    }
    forall i, j | 0 <= i < j < |ss| && ss[i].kind.Load? && ss[j].kind.Load? && Overlap(ss[i], ss[j]) && Fits(ss[i], |file|) && Fits(ss[j], |file|)
      ensures exists p: nat :: Within(ss[i], p) && Within(ss[j], p)
    {
      SharedPage(ss[i], ss[j], |file|);
    }
  }

  lemma {:induction false} FitsIs(s: Segment, size: nat)
    ensures s.kind.Load? ==> (Accepted(s, size) <==> Fits(s, size))
  {
  }

  /** Segments that overlap share a page. */
  lemma {:induction false} SharedPage(a: Segment, b: Segment, size: nat)
    requires a.kind.Load? && b.kind.Load? && Fits(a, size) && Fits(b, size) && Overlap(a, b)
    ensures exists p: nat :: Within(a, p) && Within(b, p)
  {
    EndBelow(a);
    EndBelow(b);
    var p := if FirstPage(a) < FirstPage(b) then FirstPage(b) else FirstPage(a);
    assert Within(a, p) && Within(b, p);
  }

  datatype Page = Page(bytes: seq<Byte>, writable: bool)

  /** What address `x` of a loaded segment must hold: the file's byte, or zero past the file's part and in the rest of
      the segment's pages. */
  function ByteAt(file: seq<Byte>, s: Segment, x: nat): Byte {
    if s.vaddr <= x < s.vaddr + s.fileSize && s.offset + (x - s.vaddr) < |file| then file[s.offset + (x - s.vaddr)] else 0
  }

  function PageOf(file: seq<Byte>, s: Segment, p: nat): Page {
    var bytes := seq<Byte>(PAGE, i requires 0 <= i < PAGE => ByteAt(file, s, p * PAGE + i));
    Page(bytes, s.writable)
  }

  function Zeros(): seq<Byte> {
    seq<Byte>(PAGE, i => 0)
  }

  predicate Within(s: Segment, p: nat) { s.kind.Load? && FirstPage(s) <= p < EndPage(s) }

  /** Page `p` of segment `i` comes before page `until` of segment `k`. */
  predicate PageBefore(i: nat, p: nat, k: nat, until: nat) { i < k || (i == k && p < until) }

  /** The image holds the pages of the first `k` segments and of segment `k` below `until`, and no others. */
  ghost predicate Filled(image: map<nat, Page>, file: seq<Byte>, ss: seq<Segment>, k: nat, until: nat) {
    && (forall i: nat, p: nat :: i < |ss| && Within(ss[i], p) && PageBefore(i, p, k, until) ==>
          p in image && image[p] == PageOf(file, ss[i], p))
    && (forall p :: p in image ==> exists i: nat :: i < |ss| && Within(ss[i], p) && PageBefore(i, p, k, until))
  }

  /** The whole image: every page of every loadable segment, the stack's zero pages, and nothing else. */
  ghost predicate Loaded(image: map<nat, Page>, file: seq<Byte>, ss: seq<Segment>) {
    && (forall i: nat, p: nat :: i < |ss| && Within(ss[i], p) ==> p in image && image[p] == PageOf(file, ss[i], p))
    && (forall p :: STACK / PAGE <= p < STACK / PAGE + STACK_PAGES ==> p in image && image[p] == Page(Zeros(), true))
    && (forall p :: p in image ==> StackPage(p) || Owned(ss, p))
  }

  ghost predicate Owned(ss: seq<Segment>, p: nat) { exists i: nat :: i < |ss| && Within(ss[i], p) }

  predicate StackPage(p: nat) { STACK / PAGE <= p < STACK / PAGE + STACK_PAGES }

  /** A page belongs to one segment only, and no segment reaches the stack. */
  lemma {:induction false} OneSegment(ss: seq<Segment>, size: nat, i: nat, j: nat, p: nat)
    requires AllAccepted(ss, size) && i < |ss| && j < |ss| && Within(ss[i], p) && Within(ss[j], p)
    ensures i == j && !StackPage(p)
  {
    assert Accepted(ss[i], size);
    assert i != j ==> Overlap(ss[i], ss[j]) && Overlap(ss[j], ss[i]);
    EndBelow(ss[i]);
  }

  lemma {:induction false} EndBelow(s: Segment)
    requires UserSegment(s) && s.memSize > 0
    ensures FirstPage(s) < EndPage(s) <= STACK / PAGE - 1
  {
  }

  lemma {:induction false} NextPage(image: map<nat, Page>, file: seq<Byte>, ss: seq<Segment>, size: nat, k: nat, p: nat)
    requires AllAccepted(ss, size) && k < |ss| && Within(ss[k], p) && Filled(image, file, ss, k, p)
    ensures p !in image && Filled(image[p := PageOf(file, ss[k], p)], file, ss, k, p + 1)
  {
    var after := image[p := PageOf(file, ss[k], p)];
    forall i: nat | i < |ss| && Within(ss[i], p) ensures !PageBefore(i, p, k, p) { OneSegment(ss, size, i, k, p); }
    forall i: nat, q: nat | i < |ss| && Within(ss[i], q) && PageBefore(i, q, k, p + 1) ensures q in after && after[q] == PageOf(file, ss[i], q) {
      if q == p { OneSegment(ss, size, i, k, p); } else { assert PageBefore(i, q, k, p); }
    }
    forall q | q in after ensures exists i: nat :: i < |ss| && Within(ss[i], q) && PageBefore(i, q, k, p + 1) {
      if q == p { assert PageBefore(k, q, k, p + 1); }
      else { var i: nat :| i < |ss| && Within(ss[i], q) && PageBefore(i, q, k, p); assert PageBefore(i, q, k, p + 1); }
    }
  }

  function From(ss: seq<Segment>, k: nat): nat { if k < |ss| then FirstPage(ss[k]) else 0 }

  /** Done with segment `k`, or with one that is not loaded. */
  lemma {:induction false} NextSegment(image: map<nat, Page>, file: seq<Byte>, ss: seq<Segment>, k: nat, p: nat)
    requires k < |ss| && Filled(image, file, ss, k, p)
    requires ss[k].kind.Load? ==> p >= EndPage(ss[k])
    ensures Filled(image, file, ss, k + 1, From(ss, k + 1))
  {
    var from := From(ss, k + 1);
    forall i: nat, q: nat | i < |ss| && Within(ss[i], q) && PageBefore(i, q, k + 1, from) ensures q in image && image[q] == PageOf(file, ss[i], q) {
      assert PageBefore(i, q, k, p);
    }
    forall q | q in image ensures exists i: nat :: i < |ss| && Within(ss[i], q) && PageBefore(i, q, k + 1, from) {
      var i: nat :| i < |ss| && Within(ss[i], q) && PageBefore(i, q, k, p);
      assert PageBefore(i, q, k + 1, from);
    }
  }

  lemma {:induction false} PagesGrow(ss: seq<Segment>, a: nat, b: nat)
    requires a <= b <= |ss|
    ensures PagesUpto(ss, a) <= PagesUpto(ss, b)
  {
    if a < b { PagesGrow(ss, a, b - 1); }
  }

  /** The segments' pages and the first `n` pages of the stack, and nothing else. */
  ghost predicate Stacked(image: map<nat, Page>, file: seq<Byte>, ss: seq<Segment>, n: nat) {
    && (forall i: nat, p: nat :: i < |ss| && Within(ss[i], p) ==> p in image && image[p] == PageOf(file, ss[i], p))
    && (forall p :: STACK / PAGE <= p < STACK / PAGE + n ==> p in image && image[p] == Page(Zeros(), true))
    && (forall p :: p in image ==> STACK / PAGE <= p < STACK / PAGE + n || Owned(ss, p))
  }

  lemma {:induction false} FilledNone(image: map<nat, Page>, file: seq<Byte>, ss: seq<Segment>)
    requires image == map[]
    ensures Filled(image, file, ss, 0, From(ss, 0))
  {
  }

  lemma {:induction false} StackedLoaded(image: map<nat, Page>, file: seq<Byte>, ss: seq<Segment>)
    requires Stacked(image, file, ss, STACK_PAGES)
    ensures Loaded(image, file, ss)
  {
  }

  lemma {:induction false} FilledStacked(image: map<nat, Page>, file: seq<Byte>, ss: seq<Segment>)
    requires Filled(image, file, ss, |ss|, 0)
    ensures Stacked(image, file, ss, 0)
  {
    forall i: nat, p: nat | i < |ss| && Within(ss[i], p) ensures p in image && image[p] == PageOf(file, ss[i], p) {
      assert PageBefore(i, p, |ss|, 0);
    }
  }

  lemma {:induction false} NextStackPage(image: map<nat, Page>, file: seq<Byte>, ss: seq<Segment>, size: nat, n: nat)
    requires AllAccepted(ss, size) && n < STACK_PAGES && Stacked(image, file, ss, n)
    ensures STACK / PAGE + n !in image
    ensures Stacked(image[STACK / PAGE + n := Page(Zeros(), true)], file, ss, n + 1)
  {
    forall i: nat, p: nat | i < |ss| && Within(ss[i], p) ensures !StackPage(p) { OneSegment(ss, size, i, i, p); }
  }

  /** What a loaded program sees at an address of one of its segments: the file's byte, or zero from the end of the
      file's part to the end of the memory part, in a page writable exactly when the segment is. */
  lemma {:induction false} LoadedBytes(image: map<nat, Page>, file: seq<Byte>, ss: seq<Segment>, i: nat, x: nat)
    requires Loaded(image, file, ss) && AllAccepted(ss, |file|)
    requires i < |ss| && ss[i].kind.Load? && ss[i].vaddr <= x < ss[i].vaddr + ss[i].memSize
    ensures x / PAGE in image && image[x / PAGE].writable == ss[i].writable && |image[x / PAGE].bytes| == PAGE
    ensures image[x / PAGE].bytes[x % PAGE]
         == if x < ss[i].vaddr + ss[i].fileSize then file[ss[i].offset + (x - ss[i].vaddr)] else 0
  {
    assert Accepted(ss[i], |file|);
    assert Within(ss[i], x / PAGE);
    assert image[x / PAGE].bytes[x % PAGE] == ByteAt(file, ss[i], x / PAGE * PAGE + x % PAGE);
    assert x / PAGE * PAGE + x % PAGE == x;
  }

  datatype Outcome = Done | Busy | NotExecutable | NoMemory

  /** ELF64Validate. */
  method Validate(h: Header, file: seq<Byte>) returns (ok: bool)
    ensures ok <==> ValidFile(h, file)
  {
    hide ValidEntry;
    if !h.identified || h.fileType.OtherType? { return false; }
    var entered, k := false, 0;
    var loads: nat, interpreters: nat, dynamics: nat := 0, 0, 0;
    while k < |h.segments|
      invariant k <= |h.segments| && interpreters <= 1 && dynamics <= 1
      invariant entered <==> exists i :: 0 <= i < k && Enters(h.segments[i], h.entry)
      invariant loads > 0 <==> exists i :: 0 <= i < k && h.segments[i].kind.Load?
      invariant interpreters > 0 <==> exists i :: 0 <= i < k && h.segments[i].kind.Interpreter?
      invariant dynamics > 0 <==> exists i :: 0 <= i < k && h.segments[i].kind.Dynamic?
      invariant forall i :: 0 <= i < k ==> ValidEntry(h.segments[i], file)
      invariant forall i, j :: 0 <= i < j < k ==> !SameSpecial(h.segments[i], h.segments[j])
    {
      var s := h.segments[k];
      if !Unique(s.kind, interpreters, dynamics) { Repeated(h, file, k); return false; }
      if !ValidEntry(s, file) { Spoiled(h, file, k); return false; }
      if s.kind.Load? {
        loads := loads + 1;
        if Enters(s, h.entry) { entered := true; }
      } else if s.kind.Interpreter? {
        interpreters := interpreters + 1;
      } else if s.kind.Dynamic? {
        dynamics := dynamics + 1;
      }
      k := k + 1;
    }
    if loads == 0 { return false; }
    if h.fileType.Executable? && !entered { return false; }
    if h.fileType.SharedObject? && h.entry != 0 && !entered { return false; }
    ok := true;
  }

  /** A file has at most one interpreter and one dynamic section. */
  predicate Unique(kind: Kind, interpreters: nat, dynamics: nat) {
    (kind.Interpreter? ==> interpreters == 0) && (kind.Dynamic? ==> dynamics == 0)
  }

  lemma {:induction false} Spoiled(h: Header, file: seq<Byte>, k: nat)
    requires k < |h.segments| && !ValidEntry(h.segments[k], file)
    ensures !ValidFile(h, file)
  {
  }

  /** A second interpreter or dynamic entry spoils the file. */
  lemma {:induction false} Repeated(h: Header, file: seq<Byte>, k: nat)
    requires k < |h.segments| && (h.segments[k].kind.Interpreter? || h.segments[k].kind.Dynamic?)
    requires exists i :: 0 <= i < k && h.segments[i].kind == h.segments[k].kind
    ensures !ValidFile(h, file)
  {
    var i :| 0 <= i < k && h.segments[i].kind == h.segments[k].kind;
    assert SameSpecial(h.segments[i], h.segments[k]);
  }

  /** The checks of ELF64Load. */
  method Check(h: Header, file: seq<Byte>) returns (ok: bool)
    ensures ok <==> Loadable(h, file)
  {
    hide ValidFile;
    var size := |file|;
    ok := Validate(h, file);
    if !ok || !h.fileType.Executable? { return false; }
    var ss := h.segments;
    AllValid(h, file);
    var k, pages := 0, STACK_PAGES;
    while k < |ss|
      invariant k <= |ss| && pages == PagesUpto(ss, k) + STACK_PAGES <= MAX_PAGES
      invariant forall i :: 0 <= i < k ==> Accepted(ss[i], size)
      invariant forall i, j :: 0 <= i < j < k && ss[i].kind.Load? && ss[j].kind.Load? ==> !Overlap(ss[i], ss[j])
    {
      var s := ss[k];
      if s.kind.Interpreter? || s.kind.Dynamic? || s.kind.Tls? { assert !Accepted(ss[k], size); return false; }
      if s.kind.Load? {
        if !UserSegment(s) { assert !Accepted(ss[k], size); return false; }
        pages := pages + (EndPage(s) - FirstPage(s));
        if pages > MAX_PAGES { PagesGrow(ss, k + 1, |ss|); return false; }
        var j := 0;
        while j < k
          invariant j <= k
          invariant forall i :: 0 <= i < j && ss[i].kind.Load? ==> !Overlap(ss[i], s)
        {
          if ss[j].kind.Load? && FirstPage(s) < EndPage(ss[j]) && FirstPage(ss[j]) < EndPage(s) {
            assert Overlap(ss[j], ss[k]);
            return false;
          }
          j := j + 1;
        }
      }
      k := k + 1;
    }
    ok := true;
  }

  lemma {:induction false} AllValid(h: Header, file: seq<Byte>)
    requires ValidFile(h, file)
    ensures forall i :: 0 <= i < |h.segments| && h.segments[i].kind.Load? ==> ValidSegment(h.segments[i], |file|)
  {
    assert forall i :: 0 <= i < |h.segments| ==> ValidEntry(h.segments[i], file);
  }

  /** The task of an image, as ELF64Release looks at it. */
  datatype Process = Process(onCPU: bool, scheduled: bool, finished: bool)

  predicate MayRelease(p: Process) { !p.onCPU && !p.scheduled && p.finished }

  class Execution {
    var image: map<nat, Page>
    var pageCount: nat
    var space: bool
    var task: Option<Process>
    /** Pages the allocator can still give, and pages that can still be mapped before the mapping is refused. */
    var memory: nat
    var mappings: nat

    constructor (pages: nat, mappings: nat)
      ensures image == map[] && pageCount == 0 && !space && task.None? && memory == pages && this.mappings == mappings
    {
      image, pageCount, space, task, memory, this.mappings := map[], 0, false, None, pages, mappings;
    }

    /** How many more pages can be obtained and mapped. */
    ghost function Supply(): nat reads this { if memory < mappings then memory else mappings }

    /** ELF64MapOwnedPage: a zeroed page at `p`. A page that cannot be mapped goes back. */
    method MapOwnedPage(p: nat, writable: bool) returns (ok: bool)
      modifies this`image, this`pageCount, this`memory, this`mappings
      ensures ok <==> old(pageCount) != MAX_PAGES && old(memory) != 0 && old(mappings) != 0
      ensures ok ==> image == old(image)[p := Page(Zeros(), writable)] && pageCount == old(pageCount) + 1
                     && memory == old(memory) - 1 && mappings == old(mappings) - 1
      ensures !ok ==> image == old(image) && pageCount == old(pageCount) && memory == old(memory) && mappings == old(mappings)
    {
      if pageCount == MAX_PAGES || memory == 0 { return false; }
      memory := memory - 1;
      if mappings == 0 { memory := memory + 1; return false; }
      mappings := mappings - 1;
      image := image[p := Page(Zeros(), writable)];
      pageCount := pageCount + 1;
      ok := true;
    }

    /** One page of a segment: mapped, then the part of the file that falls into it copied over the zeros. */
    method LoadPage(file: seq<Byte>, s: Segment, p: nat) returns (ok: bool)
      requires ValidSegment(s, |file|) && UserSegment(s) && Within(s, p)
      modifies this`image, this`pageCount, this`memory, this`mappings
      ensures ok <==> old(pageCount) != MAX_PAGES && old(Supply()) != 0
      ensures ok ==> image == old(image)[p := PageOf(file, s, p)] && pageCount == old(pageCount) + 1
                     && memory == old(memory) - 1 && mappings == old(mappings) - 1
      ensures !ok ==> image == old(image) && pageCount == old(pageCount) && memory == old(memory) && mappings == old(mappings)
    {
      ok := MapOwnedPage(p, s.writable);
      if !ok { return; }
      var address := p * PAGE;
      var start := if address < s.vaddr then s.vaddr else address;
      var copyEnd := if address + PAGE > s.vaddr + s.fileSize then s.vaddr + s.fileSize else address + PAGE;
      var bytes := Zeros();
      if start < copyEnd {
        bytes := Zeros()[..start - address] + file[s.offset + start - s.vaddr..s.offset + copyEnd - s.vaddr]
                 + Zeros()[copyEnd - address..];
      }
      assert forall i :: 0 <= i < PAGE ==> bytes[i] == ByteAt(file, s, address + i);
      assert bytes == PageOf(file, s, p).bytes;
      image := image[p := Page(bytes, s.writable)];
    }

    /** Pages are only moved between the allocator and the image. */
    twostate predicate Kept()
      reads this
    {
      |image| == pageCount && memory + pageCount == old(memory + pageCount) && mappings + pageCount == old(mappings + pageCount)
    }

    /** One loadable segment's pages. */
    method LoadSegment(file: seq<Byte>, ghost ss: seq<Segment>, ghost k: nat, s: Segment) returns (ok: bool)
      requires AllAccepted(ss, |file|) && k < |ss| && s == ss[k] && s.kind.Load? && Accepted(s, |file|)
      requires Filled(image, file, ss, k, FirstPage(s)) && |image| == pageCount
      requires pageCount + EndPage(s) - FirstPage(s) <= MAX_PAGES
      modifies this`image, this`pageCount, this`memory, this`mappings
      ensures ok <==> old(Supply()) >= EndPage(s) - FirstPage(s)
      ensures ok ==> Filled(image, file, ss, k, EndPage(s)) && pageCount == old(pageCount) + EndPage(s) - FirstPage(s)
      ensures Kept()
    {
      hide Filled, PageOf, AllAccepted;
      var p := FirstPage(s);
      while p < EndPage(s)
        invariant FirstPage(s) <= p <= EndPage(s) && Filled(image, file, ss, k, p)
        invariant pageCount == old(pageCount) + p - FirstPage(s) && Kept()
      {
        NextPage(image, file, ss, |file|, k, p);
        ok := LoadPage(file, s, p);
        if !ok { return; }
        p := p + 1;
      }
      ok := true;
    }

    /** Every page of every loadable segment, one after another; the limit on the image's pages is never met. */
    method LoadSegments(file: seq<Byte>, ss: seq<Segment>) returns (ok: bool)
      requires AllAccepted(ss, |file|) && PagesUpto(ss, |ss|) <= MAX_PAGES
      requires image == map[] && pageCount == 0
      modifies this`image, this`pageCount, this`memory, this`mappings
      ensures ok <==> old(Supply()) >= PagesUpto(ss, |ss|)
      ensures ok ==> Filled(image, file, ss, |ss|, 0) && pageCount == PagesUpto(ss, |ss|)
      ensures Kept()
    {
      hide Filled, EndPage, FirstPage, Overlap, ValidSegment, UserSegment;
      var k := 0;
      FilledNone(image, file, ss);
      while k < |ss|
        invariant k <= |ss| && Filled(image, file, ss, k, From(ss, k))
        invariant pageCount == PagesUpto(ss, k) && Kept()
      {
        PagesGrow(ss, k + 1, |ss|);
        if ss[k].kind.Load? {
          ok := LoadSegment(file, ss, k, ss[k]);
          if !ok { return; }
        }
        NextSegment(image, file, ss, k, if ss[k].kind.Load? then EndPage(ss[k]) else From(ss, k));
        k := k + 1;
      }
      ok := true;
    }

    /** The sixteen writable zero pages of the stack. */
    method LoadStack(ghost file: seq<Byte>, ghost ss: seq<Segment>) returns (ok: bool)
      requires AllAccepted(ss, |file|) && Filled(image, file, ss, |ss|, 0)
      requires |image| == pageCount && pageCount + STACK_PAGES <= MAX_PAGES
      modifies this`image, this`pageCount, this`memory, this`mappings
      ensures ok <==> old(Supply()) >= STACK_PAGES
      ensures ok ==> Loaded(image, file, ss) && pageCount == old(pageCount) + STACK_PAGES
      ensures Kept()
    {
      hide Filled, Stacked, Loaded, AllAccepted;
      var n := 0;
      FilledStacked(image, file, ss);
      while n < STACK_PAGES
        invariant n <= STACK_PAGES && Stacked(image, file, ss, n)
        invariant pageCount == old(pageCount) + n && Kept()
      {
        NextStackPage(image, file, ss, |file|, n);
        ok := MapOwnedPage(STACK / PAGE + n, true);
        if !ok { return; }
        n := n + 1;
      }
      StackedLoaded(image, file, ss);
      ok := true;
    }

    /** ELF64Release: the address space first, then the task, then the pages one at a time. `unmap` and `destroy` are
        whether VMMDestroyAddressSpace and TaskDestroy succeed; where they do not, the rest stays. */
    method Release(unmap: bool, destroy: bool) returns (ok: bool)
      modifies this
      ensures ok <==>
                && old(task.Some? ==> !task.value.onCPU && !task.value.scheduled && task.value.finished)
                && (old(space) ==> unmap) && (old(task.Some?) ==> destroy)
      ensures ok ==> image == map[] && pageCount == 0 && !space && task.None? && memory == old(memory) + old(pageCount)
      ensures !ok ==> pageCount == old(pageCount) && memory == old(memory) && task == old(task)
      ensures !ok ==> image == if old(space) && !space then map[] else old(image)
      ensures space <==> old(space) && !(unmap && old(task.Some? ==> MayRelease(task.value)))
      ensures mappings == old(mappings)
    {
      if task.Some? && !MayRelease(task.value) { return false; }
      if space {
        if !unmap { return false; }
        space, image := false, map[];
      }
      if task.Some? {
        if !destroy { return false; }
        task := None;
      }
      image := map[];
      while pageCount != 0
        invariant image == map[] && memory + pageCount == old(memory) + old(pageCount)
        invariant task.None? && !space && mappings == old(mappings)
      {
        pageCount, memory := pageCount - 1, memory + 1;
      }
      ok := true;
    }

    /** The segments and the stack of an acceptable file. */
    method FillImage(file: seq<Byte>, h: Header) returns (ok: bool)
      requires Loadable(h, file) && image == map[] && pageCount == 0
      modifies this`image, this`pageCount, this`memory, this`mappings
      ensures ok <==> old(Supply()) >= PagesUpto(h.segments, |h.segments|) + STACK_PAGES
      ensures ok ==> Loaded(image, file, h.segments) && pageCount == PagesUpto(h.segments, |h.segments|) + STACK_PAGES
      ensures Kept()
    {
      hide Loadable, ValidFile, Loaded, Filled, AllAccepted;
      SupplyEnough(h, file);
      ok := LoadSegments(file, h.segments);
      if ok { ok := LoadStack(file, h.segments); }
    }

    ghost predicate Fresh() reads this { pageCount == 0 && !space && task.None? }

    /** ELF64Load. `spaceMade`, `taskMade` and `copied` are whether an address space, a task and its arguments could be
        made; `unmap` and `destroy` are as in `Release`, which the failure path calls on a task that was killed. */
    method LoadImage(file: seq<Byte>, h: Header, spaceMade: bool, taskMade: bool, copied: bool, unmap: bool, destroy: bool)
      returns (outcome: Outcome)
      requires !space ==> image == map[]
      modifies this
      ensures outcome == Busy <==> !old(Fresh())
      ensures outcome == NotExecutable <==> old(Fresh()) && !Loadable(h, file)
      ensures outcome == Done <==>
                && old(Fresh()) && Loadable(h, file) && spaceMade && taskMade && copied
                && old(Supply()) >= PagesUpto(h.segments, |h.segments|) + STACK_PAGES
      ensures outcome == Done ==>
                && Loaded(image, file, h.segments) && Kept() && space && task.Some?
                && pageCount == PagesUpto(h.segments, |h.segments|) + STACK_PAGES
      ensures outcome == Busy || outcome == NotExecutable ==>
                image == old(image) && pageCount == old(pageCount) && memory == old(memory) && space == old(space) && task == old(task)
      // A failed load keeps nothing, as long as what it made can be taken apart again.
      ensures outcome == NoMemory && unmap && destroy ==> image == map[] && Fresh() && memory == old(memory)
      ensures outcome == NoMemory ==> memory + pageCount == old(memory)
    {
      hide Loadable, Loaded;
      if pageCount != 0 || space || task.Some? { return Busy; }
      var ok := Check(h, file);
      if !ok { return NotExecutable; }
      if !spaceMade { return NoMemory; }
      space := true;
      ok := FillImage(file, h);
      if ok && taskMade {
        task := Some(Process(false, false, false));
        if copied { return Done; }
        task := Some(Process(false, false, true));
      }
      ok := Release(unmap, destroy);
      outcome := NoMemory;
    }
  }

  lemma {:induction false} SupplyEnough(h: Header, file: seq<Byte>)
    requires Loadable(h, file)
    ensures AllAccepted(h.segments, |file|) && PagesUpto(h.segments, |h.segments|) + STACK_PAGES <= MAX_PAGES
  {
  }
}
