/** Whole runs of the paging code: every process reads back what it last wrote. */
module MmuRuns {
  import opened Paging
  import opened MmuFrames
  import opened Images
  import opened Mmus

  datatype Op =
    | Load(a: nat)
    | Store(a: nat, v: int)
    | CopyIn(a: nat, n: nat)
    | CopyOut(a: nat, data: seq<int>)
    | Switch(slot: nat)
    | Enter(slot: nat)
    | New(slot: nat, exec: Exec)
    | End(slot: nat)
    | BeginLoad(page: nat)
    | EndLoad

  /** NotReady: the machine is not in a state for the operation, and nothing is done. Leaked: a new process
      runs while pages of the one before it are mapped. */
  datatype Answer = NotReady | Leaked | Answer(outcome: Outcome, data: seq<int>)

  /** An address space as its process knows it: the executable, the bytes written so far, the pages
      touched so far, and the page that is being loaded, or a negative number. */
  datatype Space = Space(exec: Exec, bytes: map<nat, int>, held: set<nat>, loading: int)

  /** The machine's slots, pages and page size; the frames left; the slot that runs, the pages the
      kernel has written there since it was switched to; the address spaces of live processes; and
      whether the process that runs has touched no page since it was switched to. */
  datatype Spaces = Spaces(slots: nat, npages: nat, size: nat, free: int, current: nat, forced: set<nat>,
                           of: map<nat, Space>, quiet: bool)

  /** The byte a process should read: the last it wrote, or else that of its executable. */
  function Shown(p: Space, x: nat, size: nat): int
    requires size > 0
  {
    if x in p.bytes then p.bytes[x]
    else
      var page := Initial(p.exec, x / size, size);
      if x % size < |page| then page[x % size] else 0
  }

  /** A byte never written is that of the file, in the order of its segments, or 0. */
  lemma FirstBytes(p: Space, at: seq<seq<nat>>, x: nat, size: nat)
    requires size > 0 && x !in p.bytes && Loadable(p.exec, size) && Separate(p.exec.segments)
    requires InFileOrder(at, p.exec.segments, p.exec.offset)
    ensures forall i: nat :: i < |p.exec.segments| && Covers(p.exec.segments[i], x / size) ==>
      var k: nat := x / size - p.exec.segments[i].first;
      Shown(p, x, size) ==
        if k < p.exec.segments[i].nblocks && at[i][k] < |p.exec.file| then p.exec.file[at[i][k]][x % size] else 0
    ensures (forall i :: 0 <= i < |p.exec.segments| ==> !Covers(p.exec.segments[i], x / size)) ==> Shown(p, x, size) == 0
  {
    ImageInOrder(p.exec, at, x / size, size);
    hide InFileOrder, Initial, Separate;
    assert x % size < size;
  }

  function Overlay(bytes: map<nat, int>, a: nat, data: seq<int>): map<nat, int> {
    if data == [] then bytes
    else
      var n := |data| - 1;
      Overlay(bytes, a, data[..n])[a + n := data[n]]
  }

  lemma {:induction false} OverlayAt(bytes: map<nat, int>, a: nat, data: seq<int>, x: nat)
    ensures x in Overlay(bytes, a, data) <==> x in bytes || a <= x < a + |data|
    ensures x in Overlay(bytes, a, data) ==> Overlay(bytes, a, data)[x] == if a <= x < a + |data| then data[x - a] else bytes[x]
  {
    if data != [] { OverlayAt(bytes, a, data[..|data| - 1], x); }
  }

  /** Whether the machine is in a state for the operation: user code runs in a live process that is
      not in the middle of a fault. */
  ghost predicate Ready(s: Spaces, op: Op) {
    var running := s.current in s.of && s.of[s.current].loading < 0;
    match op
    case Switch(slot) => slot < s.slots
    case Enter(slot) => slot in s.of && slot != s.current && s.of[slot].held == {}
    case New(slot, exec) => slot < s.slots && slot !in s.of && slot != s.current && Loadable(exec, s.size)
    case End(slot) => slot in s.of
    case BeginLoad(page) => running && page < s.npages && page !in s.of[s.current].held
    case EndLoad => s.current in s.of && s.of[s.current].loading >= 0
    case _ => running
  }

  /** Pages in range of n bytes from address a on that the current process has not touched. */
  function Lacks(s: Spaces, a: nat, n: nat): set<nat>
    requires s.size > 0 && s.current in s.of
  {
    set g | g in Touched(a, n, s.size) && g < s.npages && g !in s.of[s.current].held
  }

  /** How an access to n bytes from address a on ends if its pages may be accessed: memory runs out
      exactly if the process lacks more pages than frames are left; else it is killed exactly if the
      last byte is out of range. */
  function AccessEnds(s: Spaces, a: nat, n: nat): Outcome
    requires s.size > 0 && s.current in s.of
  {
    if |Lacks(s, a, n)| > s.free then Panic
    else if n > 0 && (a + n - 1) / s.size >= s.npages then Killed
    else Done
  }

  /** Reads give what the process should see, and everything ends as it should. A store to a segment
      that may not be written kills the process, unless the kernel has just written to the page. A new
      process starts in order if the one before it has touched no page since it was switched to. */
  ghost predicate AnswerOk(s: Spaces, op: Op, r: Answer)
    requires s.size > 0
  {
    if !Ready(s, op) then r == NotReady
    else if r == Leaked then op.Enter? && !s.quiet
    else
      && r.Answer?
      && match op
         case Load(a) => r.outcome == AccessEnds(s, a, 1) && (r.outcome == Done ==> r.data == [Shown(s.of[s.current], a, s.size)])
         case Store(a, v) =>
           if AccessEnds(s, a, 1) == Done && ReadOnlyIn(s.of[s.current].exec, a / s.size)
             then r.outcome == Killed || (r.outcome == Done && a / s.size in s.forced)
             else r.outcome == AccessEnds(s, a, 1)
         case CopyIn(a, n) =>
           && r.outcome == AccessEnds(s, a, n)
           && (r.outcome == Done ==> |r.data| == n && forall i :: 0 <= i < n ==> r.data[i] == Shown(s.of[s.current], a + i, s.size))
         case CopyOut(a, data) => r.outcome == AccessEnds(s, a, |data|)
         case BeginLoad(page) => r.outcome == if s.free == 0 then Panic else Done
         case _ => r.outcome == Done
  }

  /** What the processes know after an operation. */
  ghost function After(s: Spaces, op: Op, r: Answer): Spaces {
    if !r.Answer? || r.outcome == Panic || !Ready(s, op) || s.size == 0 then s
    else if r.outcome == Killed && UserOp(op) then Without(s, s.current)
    else
      match op
      case Load(a) => Touch(s, Touched(a, 1, s.size), {})
      case Store(a, v) => Write(Touch(s, Touched(a, 1, s.size), {}), a, [v])
      case CopyIn(a, n) => Touch(s, Touched(a, n, s.size), {})
      case CopyOut(a, data) =>
        var pages := Touched(a, |data|, s.size);
        Write(Touch(s, pages, pages), a, data)
      case Switch(slot) => Turned(s, slot)
      case Enter(slot) => Turned(s, slot)
      case New(slot, exec) => s.(of := s.of[slot := Space(exec, map[], {}, -1)])
      case End(slot) => Without(s, slot)
      case BeginLoad(page) => Wait(Touch(s, {page}, {}), page)
      case EndLoad => Wait(s, -1)
  }

  /** Another process runs. */
  function Turned(s: Spaces, slot: nat): Spaces {
    s.(current := slot, forced := {}, quiet := true)
  }

  /** A process ends: its frames are free. */
  function Without(s: Spaces, p: nat): Spaces
    requires p in s.of
  {
    s.(of := s.of - {p}, free := s.free + |s.of[p].held|, quiet := s.quiet && p != s.current)
  }

  /** The current process touches pages; into some, the kernel has written. */
  function Touch(s: Spaces, pages: set<nat>, forced: set<nat>): (s': Spaces)
    requires s.current in s.of
    ensures s'.current in s'.of
  {
    var p := s.of[s.current];
    s.(of := s.of[s.current := p.(held := p.held + pages)], free := s.free - |pages - p.held|,
      forced := s.forced + forced, quiet := false)
  }

  /** The current process waits for a page, or no more. */
  function Wait(s: Spaces, page: int): Spaces
    requires s.current in s.of
  {
    s.(of := s.of[s.current := s.of[s.current].(loading := page)])
  }

  function Write(s: Spaces, a: nat, data: seq<int>): Spaces
    requires s.current in s.of
  {
    s.(of := s.of[s.current := s.of[s.current].(bytes := Overlay(s.of[s.current].bytes, a, data))])
  }

  predicate UserOp(op: Op) {
    op.Load? || op.Store? || op.CopyIn? || op.CopyOut?
  }

  // ---- what the memory shows ----

  /** The memory shows every live process what it should see, and each has a frame for exactly the
      pages it has touched. */
  ghost predicate Shows(s: Spaces, m: Mem)
    requires Sizes(m)
  {
    s.of.Keys == m.live && BytesShown(s, m) && TablesShown(s, m)
  }

  ghost predicate BytesShown(s: Spaces, m: Mem)
    requires Sizes(m)
  {
    forall p, x: nat :: p in m.live && p in s.of ==> Byte(m, p, x) == Shown(s.of[p], x, m.size)
  }

  ghost predicate TablesShown(s: Spaces, m: Mem)
    requires Sizes(m)
  {
    && s.current == m.current && s.slots == |m.pages| && s.npages == |m.vm| && s.size == m.size && s.free == |m.freeframes|
    && (forall p :: p in m.live && p in s.of ==> SpaceShown(s.of[p], m, p))
    && (s.current in s.of ==> ForcedOnly(s, m))
    && (s.quiet ==> NothingMapped(m))
  }

  ghost predicate SpaceShown(sp: Space, m: Mem, p: nat)
    requires Sizes(m) && p < |m.pages|
  {
    && sp.exec == m.execs[p] && sp.held == PagesOf(m, p)
    && (sp.loading == m.loading[p] || (sp.loading < 0 && m.loading[p] < 0))
    && (sp.loading >= 0 ==> sp.loading in sp.held)
  }

  /** Pages of segments that may not be written are writable only where the kernel has written. */
  ghost predicate ForcedOnly(s: Spaces, m: Mem)
    requires Sizes(m) && s.current in s.of
  {
    forall g: nat :: g < |m.access| && m.access[g].w && ReadOnlyIn(s.of[s.current].exec, g) ==> g in s.forced
  }

  ghost predicate NothingMapped(m: Mem) {
    forall g :: 0 <= g < |m.access| ==> m.access[g] == NONE
  }

  // ---- bytes ----

  lemma BytesSame(s: Spaces, s': Spaces, m: Mem, m': Mem)
    requires Sizes(m) && Sizes(m') && BytesShown(s, m) && SameView(m, m') && s.of.Keys == s'.of.Keys
    requires forall p :: p in s.of ==> s'.of[p].exec == s.of[p].exec && s'.of[p].bytes == s.of[p].bytes
    ensures BytesShown(s', m')
  {
    hide Initial;
    forall p, x: nat | p in m'.live && p in s'.of ensures Byte(m', p, x) == Shown(s'.of[p], x, m'.size) {
      SameBytes(m, m', p, x);
    }
  }

  lemma BytesWrote(s: Spaces, s': Spaces, m: Mem, m': Mem, a: nat, data: seq<int>)
    requires Sizes(m) && Sizes(m') && BytesShown(s, m) && s.current in s.of && s.current == m.current
    requires Wrote(m, m', m.current, a, data)
    requires s.of.Keys == s'.of.Keys && forall p :: p in s.of ==> s'.of[p].exec == s.of[p].exec
    requires forall p :: p in s.of ==> s'.of[p].bytes == if p == s.current then Overlay(s.of[p].bytes, a, data) else s.of[p].bytes
    ensures BytesShown(s', m')
  {
    hide Initial, Byte;
    forall p, x: nat | p in m'.live && p in s'.of ensures Byte(m', p, x) == Shown(s'.of[p], x, m'.size) {
      assert Byte(m, p, x) == Shown(s.of[p], x, m.size);
      OverlayAt(s.of[s.current].bytes, a, data, x);
    }
  }

  lemma BytesEnded(s: Spaces, m: Mem, m': Mem, p: nat)
    requires Sizes(m) && Sizes(m') && BytesShown(s, m) && BytesKept(m, m') && m'.size == m.size && p in s.of
    ensures BytesShown(Without(s, p), m')
  {
  }

  lemma EndedBytes(m: Mem, m': Mem)
    requires Sizes(m) && Sizes(m') && EndedLike(m, m')
    ensures BytesKept(m, m')
  {
    hide Logical;
    forall p, x: nat | p in m'.live ensures p in m.live && Byte(m', p, x) == Byte(m, p, x) {
      assert Logical(m', p, x / m.size) == Logical(m, p, x / m.size);
    }
  }

  lemma OthersBytes(m: Mem, m': Mem, p: nat)
    requires Sizes(m) && Sizes(m') && OthersSame(m, m', p)
    ensures BytesKept(m, m')
  {
    hide Logical;
    forall q, x: nat | q in m'.live ensures q in m.live && Byte(m', q, x) == Byte(m, q, x) {
      assert Logical(m', q, x / m.size) == Logical(m, q, x / m.size);
    }
  }

  lemma BytesNew(s: Spaces, m: Mem, p: nat, e: Exec)
    requires Sizes(m) && BytesShown(s, m) && p !in m.live && p < |m.pages|
    requires Sizes(NewSpace(m, p, e)) && forall g :: Logical(NewSpace(m, p, e), p, g) == Initial(e, g, m.size)
    requires forall p', g :: p' in m.live ==> Logical(NewSpace(m, p, e), p', g) == Logical(m, p', g)
    ensures BytesShown(s.(of := s.of[p := Space(e, map[], {}, -1)]), NewSpace(m, p, e))
  {
    var m' := NewSpace(m, p, e);
    hide Logical;
    forall p', x: nat | p' in m.live ensures Byte(m', p', x) == Byte(m, p', x) {
    }
  }

  // ---- page tables ----

  lemma TablesTook(s: Spaces, m: Mem, m': Mem, pages: set<nat>, forced: set<nat>)
    requires Sizes(m) && Sizes(m') && TablesShown(s, m) && s.of.Keys == m.live && s.current in s.of
    requires Took(m, m', pages) && Opened(m, m', forced)
    ensures TablesShown(Touch(s, pages, forced), m')
  {
    hide ReadOnlyIn;
    assert SpaceShown(s.of[s.current], m, s.current);
  }

  lemma TablesWrite(s: Spaces, m: Mem, a: nat, data: seq<int>)
    requires Sizes(m) && TablesShown(s, m) && s.current in s.of
    ensures TablesShown(Write(s, a, data), m)
  {
    hide ReadOnlyIn;
  }

  lemma TablesGave(s: Spaces, m: Mem, m': Mem, p: nat)
    requires Sizes(m) && Sizes(m') && TablesShown(s, m) && s.of.Keys == m.live && p in s.of
    requires GaveBack(m, m', p) && (p == m.current || (NoMoreWritable(m, m') && NoMoreMapped(m, m')))
    ensures TablesShown(Without(s, p), m')
  {
    hide ReadOnlyIn;
    assert SpaceShown(s.of[p], m, p);
    forall q | q in m'.live && q in s.of ensures SpaceShown(s.of[q], m', q) {
      assert SpaceShown(s.of[q], m, q);
    }
  }

  /** What the access decides, in terms of the memory. */
  lemma LacksIs(s: Spaces, m: Mem, a: nat, n: nat)
    requires Sizes(m) && TablesShown(s, m) && s.of.Keys == m.live && s.current in s.of
    ensures Lacks(s, a, n) == Fetched(m, a, n)
    ensures s.size == m.size > 0
    ensures AccessEnds(s, a, n) == if |Fetched(m, a, n)| > |m.freeframes| then Panic else if Beyond(m, a, n) then Killed else Done
  {
    assert SpaceShown(s.of[s.current], m, s.current);
  }

  lemma ShowsParts(s: Spaces, m: Mem)
    requires Sizes(m) && Shows(s, m)
    ensures s.of.Keys == m.live && BytesShown(s, m) && TablesShown(s, m)
    ensures s.current == m.current && s.slots == |m.pages| && s.npages == |m.vm| && s.size == m.size > 0
    ensures s.free == |m.freeframes|
    ensures forall p :: p in s.of ==> p < |m.pages| && (s.of[p].loading == m.loading[p] || (s.of[p].loading < 0 && m.loading[p] < 0))
    ensures forall p :: p in s.of ==> s.of[p].held == m.pages[p].Keys && s.of[p].exec == m.execs[p]
    ensures forall p :: p in s.of && s.of[p].loading >= 0 ==> s.of[p].loading in s.of[p].held
  {
    forall p | p in s.of
      ensures p < |m.pages| && (s.of[p].loading == m.loading[p] || (s.of[p].loading < 0 && m.loading[p] < 0))
      ensures s.of[p].held == m.pages[p].Keys && s.of[p].exec == m.execs[p]
      ensures s.of[p].loading >= 0 ==> s.of[p].loading in s.of[p].held {
      assert SpaceShown(s.of[p], m, p);
    }
  }

  lemma ByteShown(s: Spaces, m: Mem, x: nat)
    requires Sizes(m) && Shows(s, m) && m.current in m.live
    ensures s.current in s.of && Byte(m, m.current, x) == Shown(s.of[s.current], x, m.size)
  {
  }

  lemma CopyShown(s: Spaces, m: Mem, a: nat, data: seq<int>)
    requires Sizes(m) && Shows(s, m) && m.current in m.live
    requires forall i :: 0 <= i < |data| ==> data[i] == Byte(m, m.current, a + i)
    ensures s.current in s.of && forall i :: 0 <= i < |data| ==> data[i] == Shown(s.of[s.current], a + i, m.size)
  {
    forall i | 0 <= i < |data| ensures data[i] == Shown(s.of[s.current], a + i, m.size) {
      ByteShown(s, m, a + i);
    }
  }

  // ---- one operation ----

  /** An access that is done: the process has touched its pages, and perhaps written. */
  lemma AccessShown(s: Spaces, s': Spaces, m: Mem, m': Mem, pages: set<nat>, forced: set<nat>)
    requires Sizes(m) && Sizes(m') && Shows(s, m) && s.current in s.of && SameView(m, m')
    requires Took(m, m', pages) && Opened(m, m', forced) && s' == Touch(s, pages, forced)
    ensures Shows(s', m')
  {
    hide Took, Opened, SameView, BytesShown, TablesShown, Touch;
    ShowsParts(s, m);
    TouchParts(s, pages, forced);
    ViewParts(m, m');
    TablesTook(s, m, m', pages, forced);
    BytesSame(s, s', m, m');
  }

  lemma ViewParts(m: Mem, m': Mem)
    requires Sizes(m) && Sizes(m') && SameView(m, m')
    ensures m'.live == m.live && m'.size == m.size
  {
  }

  lemma TouchParts(s: Spaces, pages: set<nat>, forced: set<nat>)
    requires s.current in s.of
    ensures Touch(s, pages, forced).of.Keys == s.of.Keys && Touch(s, pages, forced).current == s.current
    ensures forall p :: p in s.of ==>
      Touch(s, pages, forced).of[p].exec == s.of[p].exec && Touch(s, pages, forced).of[p].bytes == s.of[p].bytes
  {
  }

  lemma WriteShown(s: Spaces, s': Spaces, m: Mem, m': Mem, pages: set<nat>, forced: set<nat>, a: nat, data: seq<int>)
    requires Sizes(m) && Sizes(m') && Shows(s, m) && s.current in s.of && Wrote(m, m', m.current, a, data)
    requires Took(m, m', pages) && Opened(m, m', forced)
    requires s' == Write(Touch(s, pages, forced), a, data)
    ensures Shows(s', m')
  {
    hide Took, Opened, Wrote, BytesShown, TablesShown, Touch;
    ShowsParts(s, m);
    TouchParts(s, pages, forced);
    WroteParts(m, m', m.current, a, data);
    TablesTook(s, m, m', pages, forced);
    TablesWrite(Touch(s, pages, forced), m', a, data);
    BytesWrote(s, s', m, m', a, data);
  }

  lemma WroteParts(m: Mem, m': Mem, p: nat, a: nat, data: seq<int>)
    requires Sizes(m) && Sizes(m') && Wrote(m, m', p, a, data)
    ensures m'.live == m.live && m'.size == m.size
  {
  }

  lemma EndShown(s: Spaces, m: Mem, m': Mem, p: nat)
    requires Sizes(m) && Sizes(m') && Shows(s, m) && p in s.of && BytesKept(m, m')
    requires GaveBack(m, m', p) && (p == m.current || (NoMoreWritable(m, m') && NoMoreMapped(m, m')))
    ensures Shows(Without(s, p), m')
  {
    hide BytesKept, GaveBack, NoMoreWritable, NoMoreMapped, BytesShown, TablesShown;
    ShowsParts(s, m);
    GaveParts(m, m', p);
    TablesGave(s, m, m', p);
    BytesEnded(s, m, m', p);
  }

  lemma GaveParts(m: Mem, m': Mem, p: nat)
    requires GaveBack(m, m', p)
    ensures m'.live == m.live - {p} && m'.size == m.size
  {
  }

  /** A store to a page that may be accessed ends the process exactly if it is in a segment that may
      not be written and not mapped for writing. */
  lemma StoreEnds(s: Spaces, m: Mem, a: nat, o: Outcome)
    requires Sizes(m) && Shows(s, m) && s.current in s.of
    requires o == Killed ==> NotForWriting(m, a / m.size)
    requires o == Done ==> !NotForWriting(m, a / m.size)
    requires o == Panic <==> |Fetched(m, a, 1)| > |m.freeframes|
    ensures s.size > 0
    ensures if AccessEnds(s, a, 1) == Done && ReadOnlyIn(s.of[s.current].exec, a / s.size)
            then o == Killed || (o == Done && a / s.size in s.forced) else o == AccessEnds(s, a, 1)
  {
    hide Fetched, AccessEnds, ReadOnlyIn, BytesShown;
    ShowsParts(s, m);
    LacksIs(s, m, a, 1);
    OneByte(m, a);
  }

  /** The current process, or the kernel on its behalf, reads. */
  method ServeRead(u: Mmu, op: Op, ghost s: Spaces) returns (r: Answer)
    requires u.Valid() && Sizes(u.View()) && Shows(s, u.View()) && Ready(s, op) && (op.Load? || op.CopyIn?)
    modifies u
    ensures u.Valid() && Sizes(u.View()) && s.size > 0 && AnswerOk(s, op, r)
    ensures r.Answer? && (r.outcome != Panic ==> Shows(After(s, op, r), u.View()))
  {
    hide MemOk, SameView, Byte, Wrote, OthersSame, EndedLike, BytesKept, Logical, Shown, Past, NotForWriting, Shows,
         Took, Opened, GaveBack, Fetched, Beyond, AccessEnds, ReadOnlyIn, Touched, NoMoreWritable, Touch, Write, Without;
    ghost var m := u.View();
    ShowsParts(s, m);
    match op {
      case Load(a) =>
        LacksIs(s, m, a, 1);
        var o, v := u.Load(a);
        r := Answer(o, [v]);
        if o == Done {
          AccessShown(s, After(s, op, r), m, u.View(), Touched(a, 1, m.size), {});
          ByteShown(s, m, a);
        } else if o == Killed {
          EndedBytes(m, u.View());
          EndShown(s, m, u.View(), m.current);
        }
      case CopyIn(a, n) =>
        LacksIs(s, m, a, n);
        var o, data := u.CopyFromUser(a, n);
        r := Answer(o, data);
        if o == Done {
          AccessShown(s, After(s, op, r), m, u.View(), Touched(a, n, m.size), {});
          CopyShown(s, m, a, data);
        } else if o == Killed {
          EndShown(s, m, u.View(), m.current);
        }
    }
  }

  /** They write. */
  method ServeWrite(u: Mmu, op: Op, ghost s: Spaces) returns (r: Answer)
    requires u.Valid() && Sizes(u.View()) && Shows(s, u.View()) && Ready(s, op) && (op.Store? || op.CopyOut?)
    modifies u
    ensures u.Valid() && Sizes(u.View()) && s.size > 0 && AnswerOk(s, op, r)
    ensures r.Answer? && (r.outcome != Panic ==> Shows(After(s, op, r), u.View()))
  {
    hide MemOk, SameView, Byte, Wrote, OthersSame, EndedLike, BytesKept, Logical, Shown, Past, NotForWriting, Shows,
         Took, Opened, GaveBack, Fetched, Beyond, AccessEnds, ReadOnlyIn, Touched, NoMoreWritable, Touch, Write, Without;
    ghost var m := u.View();
    ShowsParts(s, m);
    match op {
      case Store(a, v) =>
        LacksIs(s, m, a, 1);
        var o := u.Store(a, v);
        r := Answer(o, []);
        StoreEnds(s, m, a, o);
        if o == Done {
          WriteShown(s, After(s, op, r), m, u.View(), Touched(a, 1, m.size), {}, a, [v]);
        } else if o == Killed {
          EndedBytes(m, u.View());
          EndShown(s, m, u.View(), m.current);
        }
      case CopyOut(a, data) =>
        LacksIs(s, m, a, |data|);
        var o := u.CopyToUser(a, data);
        r := Answer(o, []);
        if o == Done {
          WriteShown(s, After(s, op, r), m, u.View(), Touched(a, |data|, m.size), Touched(a, |data|, m.size), a, data);
        } else if o == Killed {
          EndShown(s, m, u.View(), m.current);
        }
    }
  }

  /** What the machine's own state says about whether it is ready. */
  predicate ReadyFor(u: Mmu, op: Op)
    reads u
    requires u.current < |u.loading| == |u.pages|
  {
    var running := u.current in u.live && u.loading[u.current] < 0;
    match op
    case Switch(slot) => slot < |u.pages|
    case Enter(slot) => slot in u.live && slot < |u.pages| && slot != u.current && u.pages[slot] == map[]
    case New(slot, exec) => slot < |u.pages| && slot !in u.live && slot != u.current && Loadable(exec, u.size)
    case End(slot) => slot in u.live
    case BeginLoad(page) => running && page < |u.vm| && page !in u.pages[u.current]
    case EndLoad => u.current in u.live && u.loading[u.current] >= 0
    case _ => running
  }

  lemma ReadyIs(u: Mmu, s: Spaces, op: Op)
    requires Sizes(u.View()) && Shows(s, u.View())
    ensures ReadyFor(u, op) <==> Ready(s, op)
  {
    hide Shows;
    ShowsParts(s, u.View());
  }

  lemma SwitchShown(s: Spaces, m: Mem, m': Mem, slot: nat)
    requires Sizes(m) && Sizes(m') && Shows(s, m) && SameView(m, m') && m'.current == slot
    requires m'.pages == m.pages && |m'.freeframes| == |m.freeframes| && m'.loading == m.loading
    requires m'.execs == m.execs && m'.live == m.live
    requires |m'.vm| == |m.vm| && NothingMapped(m')
    ensures Shows(Turned(s, slot), m')
  {
    hide SameView, BytesShown, ReadOnlyIn;
    ViewParts(m, m');
    BytesSame(s, Turned(s, slot), m, m');
    forall p | p in m'.live && p in s.of ensures SpaceShown(s.of[p], m', p) {
      assert SpaceShown(s.of[p], m, p);
    }
  }

  lemma NewShown(s: Spaces, m: Mem, slot: nat, e: Exec)
    requires Sizes(m) && Shows(s, m) && slot < |m.pages| && slot !in m.live && slot != m.current
    requires Sizes(NewSpace(m, slot, e)) && forall g :: Logical(NewSpace(m, slot, e), slot, g) == Initial(e, g, m.size)
    requires forall p', g :: p' in m.live ==> Logical(NewSpace(m, slot, e), p', g) == Logical(m, p', g)
    ensures Shows(s.(of := s.of[slot := Space(e, map[], {}, -1)]), NewSpace(m, slot, e))
  {
    hide Logical, BytesShown, ReadOnlyIn;
    BytesNew(s, m, slot, e);
    var m', s' := NewSpace(m, slot, e), s.(of := s.of[slot := Space(e, map[], {}, -1)]);
    forall p | p in m'.live && p in s'.of ensures SpaceShown(s'.of[p], m', p) {
      if p != slot { assert SpaceShown(s.of[p], m, p); }
    }
  }

  lemma BeginShown(s: Spaces, m: Mem, g: nat)
    requires Sizes(m) && Shows(s, m) && Ready(s, BeginLoad(g)) && m.freeframes != []
    requires Sizes(AllocFrame(m, g)) && SameView(m, AllocFrame(m, g))
    ensures s.current in s.of && Shows(Wait(Touch(s, {g}, {}), g), AllocFrame(m, g))
  {
    hide SameView, BytesShown, TablesShown, AllocFrame;
    ShowsParts(s, m);
    ViewParts(m, AllocFrame(m, g));
    BytesSame(s, Wait(Touch(s, {g}, {}), g), m, AllocFrame(m, g));
    BeginTables(s, m, g);
  }

  lemma BeginTables(s: Spaces, m: Mem, g: nat)
    requires Sizes(m) && TablesShown(s, m) && s.of.Keys == m.live && s.current in s.of && g !in PagesOf(m, m.current)
    requires m.freeframes != [] && Sizes(AllocFrame(m, g))
    ensures TablesShown(Wait(Touch(s, {g}, {}), g), AllocFrame(m, g))
  {
    hide ReadOnlyIn, Loadable;
    assert SpaceShown(s.of[s.current], m, s.current);
    assert {g} - s.of[s.current].held == {g};
    BeginSpaces(s, m, g);
  }

  lemma BeginSpaces(s: Spaces, m: Mem, g: nat)
    requires Sizes(m) && TablesShown(s, m) && s.of.Keys == m.live && s.current in s.of
    requires m.freeframes != [] && Sizes(AllocFrame(m, g))
    ensures var m', s' := AllocFrame(m, g), Wait(Touch(s, {g}, {}), g);
      forall p :: p in m'.live && p in s'.of ==> SpaceShown(s'.of[p], m', p)
  {
    hide ReadOnlyIn, ForcedOnly, Loadable;
    var m', s' := AllocFrame(m, g), Wait(Touch(s, {g}, {}), g);
    forall p | p in m'.live && p in s'.of ensures SpaceShown(s'.of[p], m', p) {
      assert SpaceShown(s.of[p], m, p);
    }
  }

  lemma FinishShown(s: Spaces, m: Mem)
    requires Sizes(m) && Shows(s, m) && Ready(s, EndLoad)
    requires Sizes(FillFrame(m)) && SameView(m, FillFrame(m))
    ensures s.current in s.of && Shows(Wait(s, -1), FillFrame(m))
  {
    hide SameView, BytesShown, TablesShown, FillFrame;
    ShowsParts(s, m);
    ViewParts(m, FillFrame(m));
    BytesSame(s, Wait(s, -1), m, FillFrame(m));
    FinishTables(s, m);
  }

  lemma FinishTables(s: Spaces, m: Mem)
    requires Sizes(m) && TablesShown(s, m) && s.of.Keys == m.live && s.current in s.of && s.of[s.current].loading >= 0
    requires Sizes(FillFrame(m))
    ensures TablesShown(Wait(s, -1), FillFrame(m))
  {
    hide ReadOnlyIn, Initial, Loadable;
    assert SpaceShown(s.of[s.current], m, s.current);
    forall p | p in m.live && p in s.of ensures SpaceShown(Wait(s, -1).of[p], FillFrame(m), p) {
      assert SpaceShown(s.of[p], m, p);
    }
  }

  /** Everything but accesses: switching, starting and ending a process, and the two halves of a
      page fault. */
  method ServeControl(u: Mmu, op: Op, ghost s: Spaces) returns (r: Answer)
    requires u.Valid() && Sizes(u.View()) && Shows(s, u.View()) && Ready(s, op) && !UserOp(op) && !op.Enter?
    modifies u
    ensures u.Valid() && Sizes(u.View()) && s.size > 0 && AnswerOk(s, op, r)
    ensures r.Answer? && (r.outcome != Panic ==> Shows(After(s, op, r), u.View()))
  {
    hide MemOk, SameView, Byte, OthersSame, BytesKept, Logical, Shown, Shows, GaveBack, NoMoreWritable, AllocFrame,
         FillFrame, NewSpace,
         Touch, Write, Wait, Without, AccessEnds, ReadOnlyIn, Touched, Opened, Took, Loadable;
    ghost var m := u.View();
    ShowsParts(s, m);
    match op {
      case Switch(slot) =>
        u.SwitchTo(slot);
        r := Answer(Done, []);
        SizesOf(u.View(), u.own);
        SwitchShown(s, m, u.View(), slot);
      case New(slot, exec) =>
        u.NewProcess(slot, exec);
        r := Answer(Done, []);
        NewShown(s, m, slot, exec);
      case End(slot) =>
        u.EndProcess(slot);
        r := Answer(Done, []);
        OthersBytes(m, u.View(), slot);
        EndShown(s, m, u.View(), slot);
      case BeginLoad(page) =>
        var o := u.StartLoad(page);
        r := Answer(o, []);
        SizesOf(u.View(), u.own);
        if o == Done { BeginShown(s, m, page); }
      case EndLoad =>
        u.FinishLoad();
        r := Answer(Done, []);
        SizesOf(u.View(), u.own);
        FinishShown(s, m);
    }
  }

  /** A new process starts without a flush, which leaks exactly if it can then read a page it has not touched. */
  method ServeEnter(u: Mmu, slot: nat, ghost s: Spaces) returns (r: Answer)
    requires u.Valid() && Sizes(u.View()) && Shows(s, u.View()) && Ready(s, Enter(slot)) && slot < |u.pages|
    modifies u
    ensures s.size > 0 && AnswerOk(s, Enter(slot), r) && old(Sizes(u.View())) && Sizes(u.View())
    ensures r == Leaked <==> exists g: nat :: Leaks(old(u.View()), slot, g)
    ensures r == Leaked ==> u.View() == old(u.View()).(current := slot)
    ensures r != Leaked ==> r == Answer(Done, []) && u.Valid() && Shows(After(s, Enter(slot), r), u.View())
  {
    hide MemOk, SameView, Shows, Leaks, NothingMapped;
    ghost var m := u.View();
    ShowsParts(s, m);
    QuietShown(s, m, slot);
    var leaked := u.EnterProcess(slot);
    if leaked { return Leaked; }
    NothingNow(u.View());
    SwitchShown(s, m, u.View(), slot);
    r := Answer(Done, []);
  }

  lemma QuietShown(s: Spaces, m: Mem, slot: nat)
    requires Sizes(m) && Shows(s, m) && slot < |m.pages|
    ensures s.quiet ==> forall g: nat :: !Leaks(m, slot, g)
  {
  }

  lemma NothingNow(m: Mem)
    requires forall g :: 0 <= g < |m.access| ==> m.access[g] == NONE
    ensures NothingMapped(m)
  {
  }

  /** The process that runs can read a page that it has not touched. */
  ghost predicate Exposed(m: Mem) {
    m.current < |m.pages| && exists g: nat :: g < |m.access| && g !in m.pages[m.current] && m.access[g].r
  }

  lemma LeaksExpose(m: Mem, slot: nat)
    requires Sizes(m) && slot < |m.pages| && exists g: nat :: Leaks(m, slot, g)
    ensures Exposed(m.(current := slot))
  {
    var g: nat :| Leaks(m, slot, g);
    assert g < |m.access| && g !in m.pages[slot] && m.access[g].r;
  }

  /** One operation, if the machine is in a state for it. */
  method Serve(u: Mmu, op: Op, ghost s: Spaces) returns (r: Answer)
    requires u.Valid() && Sizes(u.View()) && Shows(s, u.View())
    modifies u
    ensures Sizes(u.View()) && s.size > 0 && AnswerOk(s, op, r)
    ensures if r == Leaked then Exposed(u.View()) else u.Valid()
    ensures !Stops(r) ==> Shows(After(s, op, r), u.View())
  {
    hide MemOk, Shows;
    ShowsParts(s, u.View());
    ReadyIs(u, s, op);
    if !ReadyFor(u, op) {
      r := NotReady;
    } else if op.Load? || op.CopyIn? {
      r := ServeRead(u, op, s);
    } else if op.Store? || op.CopyOut? {
      r := ServeWrite(u, op, s);
    } else if op.Enter? {
      ghost var m := u.View();
      r := ServeEnter(u, op.slot, s);
      if r == Leaked { LeaksExpose(m, op.slot); }
    } else {
      r := ServeControl(u, op, s);
    }
  }

  // ---- runs ----

  /** What the processes know after a run. */
  ghost function Final(s: Spaces, ops: seq<Op>, answers: seq<Answer>): (s': Spaces)
    requires |ops| == |answers|
    ensures s'.size == s.size
  {
    if ops == [] then s
    else
      var n := |ops| - 1;
      After(Final(s, ops[..n], answers[..n]), ops[n], answers[n])
  }

  /** All answers are as they should be at their point of the run, and only the last may be that
      memory has run out, or that a process has started out of order. */
  ghost predicate AllOk(s: Spaces, ops: seq<Op>, answers: seq<Answer>)
    requires |answers| <= |ops| && s.size > 0
  {
    && (forall j: nat :: j < |answers| ==> OkAt(s, ops, answers, j))
    && forall j: nat :: j < |answers| - 1 ==> !Stops(answers[j])
  }

  ghost predicate OkAt(s: Spaces, ops: seq<Op>, answers: seq<Answer>, j: nat)
    requires j < |answers| <= |ops| && s.size > 0
  {
    AnswerOk(Final(s, ops[..j], answers[..j]), ops[j], answers[j])
  }

  predicate OutOfFrames(r: Answer) {
    r.Answer? && r.outcome == Panic
  }

  predicate Stops(r: Answer) {
    r == Leaked || OutOfFrames(r)
  }

  predicate Stopped(answers: seq<Answer>) {
    answers != [] && Stops(answers[|answers| - 1])
  }

  lemma FinalStep(s: Spaces, ops: seq<Op>, answers: seq<Answer>, r: Answer)
    requires |answers| < |ops|
    ensures Final(s, ops[..|answers| + 1], answers + [r]) == After(Final(s, ops[..|answers|], answers), ops[|answers|], r)
  {
    hide After;
    var a, n := answers + [r], |answers|;
    assert ops[..n + 1][..n] == ops[..n] && a[..n] == answers;
  }

  lemma OneMoreOk(s: Spaces, ops: seq<Op>, answers: seq<Answer>, r: Answer)
    requires |answers| < |ops| && s.size > 0 && AllOk(s, ops, answers) && !Stopped(answers)
    requires AnswerOk(Final(s, ops[..|answers|], answers), ops[|answers|], r)
    ensures AllOk(s, ops, answers + [r])
    ensures Final(s, ops[..|answers| + 1], answers + [r]) == After(Final(s, ops[..|answers|], answers), ops[|answers|], r)
  {
    hide OkAt, After, Final;
    var a, n := answers + [r], |answers|;
    FinalStep(s, ops, answers, r);
    forall j: nat | j < |a| ensures OkAt(s, ops, a, j) {
      StillOkAt(s, ops, answers, r, j);
    }
    forall j: nat | j < |a| - 1 ensures !Stops(a[j]) {
      assert a[j] == answers[j];
    }
  }

  lemma StillOkAt(s: Spaces, ops: seq<Op>, answers: seq<Answer>, r: Answer, j: nat)
    requires j <= |answers| < |ops| && s.size > 0
    requires if j < |answers| then OkAt(s, ops, answers, j) else AnswerOk(Final(s, ops[..j], answers), ops[j], r)
    ensures OkAt(s, ops, answers + [r], j)
  {
    hide AnswerOk, Final;
    assert (answers + [r])[..j] == answers[..j];
    assert answers[..|answers|] == answers;
  }

  /** Every operation of a run is answered, until memory runs out, or a new process starts that can read a page
      of the one before it. Every read, by any process, at any point, gives what that process last wrote there,
      or else what its executable holds; and a process is killed, or memory runs out, exactly when the pages
      touched so far say so. */
  method Run(u: Mmu, ops: seq<Op>, ghost s0: Spaces) returns (answers: seq<Answer>)
    requires u.Valid() && Sizes(u.View()) && Shows(s0, u.View())
    modifies u
    ensures Sizes(u.View()) && s0.size > 0 && |answers| <= |ops| && AllOk(s0, ops, answers)
    ensures if answers != [] && answers[|answers| - 1] == Leaked then Exposed(u.View()) else u.Valid()
    ensures !Stopped(answers) ==> |answers| == |ops| && Shows(Final(s0, ops, answers), u.View())
  {
    hide MemOk, Shows, After, AnswerOk, Ready, Final, AllOk;
    answers := [];
    ShowsParts(s0, u.View());
    StartOk(s0);
    assert ops[..0] == [];
    while |answers| < |ops|
      invariant |answers| <= |ops| && u.Valid() && Sizes(u.View())
      invariant AllOk(s0, ops, answers) && !Stopped(answers) && Shows(Final(s0, ops[..|answers|], answers), u.View())
    {
      var n := |answers|;
      var r := Serve(u, ops[n], Final(s0, ops[..n], answers));
      OneMoreOk(s0, ops, answers, r);
      answers := answers + [r];
      if Stops(r) { return; }
    }
    assert ops[..|answers|] == ops;
  }

  lemma StartOk(s: Spaces)
    requires s.size > 0
    ensures AllOk(s, [], []) && Final(s, [], []) == s && forall ops: seq<Op> :: AllOk(s, ops, [])
  {
  }

  /** The first process, whose memory is all zeros, and all frames free. */
  function AtBoot(frames: nat, npages: nat, slots: nat, size: nat): Spaces {
    Spaces(slots, npages, size, frames, 0, {}, map[0 := Space(Exec([], 0, []), map[], {}, -1)], true)
  }

  /** The same from the start. */
  method Boot(frames: seq<Page>, vm: seq<Page>, slots: nat, entries: nat, size: nat, ops: seq<Op>)
    returns (u: Mmu, answers: seq<Answer>)
    requires slots > 0 && entries > 0 && size > 0
    requires (forall f :: 0 <= f < |frames| ==> |frames[f]| == size) && (forall g :: 0 <= g < |vm| ==> |vm[g]| == size)
    ensures Sizes(u.View()) && |answers| <= |ops|
    ensures if answers != [] && answers[|answers| - 1] == Leaked then Exposed(u.View()) else u.Valid()
    ensures AllOk(AtBoot(|frames|, |vm|, slots, size), ops, answers)
    ensures !Stopped(answers) ==> |answers| == |ops| && Shows(Final(AtBoot(|frames|, |vm|, slots, size), ops, answers), u.View())
  {
    hide MemOk, Shows, Logical, AllOk, Sizes, Final;
    u := new Mmu(frames, vm, slots, entries, size);
    ShowsStart(u.View(), |frames|, size);
    answers := Run(u, ops, AtBoot(|frames|, |vm|, slots, size));
  }

  lemma ShowsStart(m: Mem, frames: nat, size: nat)
    requires Sizes(m) && m.live == {0} && m.current == 0 && m.size == size > 0 && |m.freeframes| == frames
    requires m.loading[0] < 0
    requires m.pages[0] == map[] && m.execs[0] == Exec([], 0, [])
    requires forall g :: 0 <= g < |m.access| ==> m.access[g] == NONE
    requires forall g :: Logical(m, 0, g) == Zeros(size)
    ensures Shows(AtBoot(frames, |m.vm|, |m.pages|, size), m)
  {
  }

  /** What ctx_entry does with a page still mapped: the first process has written 7 to its only page;
      the second, which has touched no page and should see zeros, reads 7. */
  method StartExample() returns (u: Mmu)
    ensures Sizes(u.View()) && |u.vm| == 1 && |u.vm[0]| == 1
    ensures u.current == 1 && 1 in u.live && u.pages[1] == map[] && Logical(u.View(), 1, 0) == [0]
    ensures u.access[0].r && u.vm[0][0] == 7
  {
    hide MemOk, SameView, OthersSame, Took, Opened, GaveBack, Wrote;
    u := new Mmu([[0]], [[0]], 2, 1, 1);
    ghost var m0 := u.View();
    var o := u.PageFault(0, Writing);
    ghost var m1 := u.View();
    ViewItself(m1);
    u.StoreHere(m1, 0, 7);
    WroteByte(m1, u.View(), 0, 0, 7);
    LoadByte(u.View(), u.own, 0);
    u.NewProcess(1, Exec([], 0, []));
    var leaked := u.EnterProcess(1);
  }

  lemma WroteByte(m: Mem, m': Mem, s: nat, a: nat, v: int)
    requires Sizes(m) && Sizes(m') && Wrote(m, m', s, a, [v]) && s in m.live
    ensures Byte(m', s, a) == v
  {
  }
}
