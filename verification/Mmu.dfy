/** The paging code as it runs, and what a process reads after any number of faults, evictions,
    context switches and deaths. */
module Mmus {
  import opened Paging
  import opened MmuFrames
  import opened Images

  datatype Access = Unknown | Reading | Writing

  /** How a fault or an access ends: it is done, the process was killed, or memory ran out. */
  datatype Outcome = Done | Killed | Panic

  const READ: Prot := Prot(true, false, false)
  const READ_EXEC: Prot := Prot(true, false, true)
  const READ_WRITE: Prot := Prot(true, true, false)

  /** First entry that maps the page, from index i on, or -1. */
  function EntryFor(m: Mem, g: nat, i: nat): (r: int)
    requires i <= |m.tlb|
    ensures -1 <= r < |m.tlb|
    decreases |m.tlb| - i
  {
    if i == |m.tlb| then -1
    else if m.tlb[i].virt == g && m.tlb[i].phys >= 0 then i
    else EntryFor(m, g, i + 1)
  }

  lemma {:induction false} EntryForIs(m: Mem, g: nat, i: nat)
    requires i <= |m.tlb|
    ensures var r := EntryFor(m, g, i);
      && (r >= 0 ==> m.tlb[r].phys >= 0 && m.tlb[r].virt == g)
      && (r < 0 ==> forall j :: i <= j < |m.tlb| && m.tlb[j].phys >= 0 ==> m.tlb[j].virt != g)
    decreases |m.tlb| - i
  {
    if i < |m.tlb| && !(m.tlb[i].virt == g && m.tlb[i].phys >= 0) { EntryForIs(m, g, i + 1); }
  }

  /** What the index of a page says about the access the process has to it. */
  lemma EntryAccess(m: Mem, own: seq<Holder>, g: nat)
    requires MemOk(m, own) && g < |m.vm|
    ensures var r := EntryFor(m, g, 0);
      && (r >= 0 ==> m.access[g] == m.tlb[r].prot && m.access[g].r && g in m.pages[m.current] && m.current in m.live)
      && (r < 0 ==> m.access[g] == NONE)
      && (r >= 0 ==> forall j :: 0 <= j < |m.tlb| && j != r && m.tlb[j].phys >= 0 ==> m.tlb[j].virt != g)
      && (r < 0 ==> forall j :: 0 <= j < |m.tlb| && m.tlb[j].phys >= 0 ==> m.tlb[j].virt != g)
  {
    EntryForIs(m, g, 0);
    var r := EntryFor(m, g, 0);
    if r >= 0 {
      assert EntryOk(m, r);
    } else {
      assert !Mapped(m, g);
    }
  }

  /** Used entries name pages and frames that exist. */
  ghost predicate InRange(m: Mem) {
    |m.vm| == |m.access| && forall i :: 0 <= i < |m.tlb| && m.tlb[i].phys >= 0 ==> m.tlb[i].virt < |m.vm| && m.tlb[i].phys < |m.frames|
  }

  lemma OkInRange(m: Mem, own: seq<Holder>)
    requires MemOk(m, own)
    ensures InRange(m)
  {
    forall i: nat | i < |m.tlb| && m.tlb[i].phys >= 0 ensures m.tlb[i].virt < |m.vm| && m.tlb[i].phys < |m.frames| {
      assert EntryOk(m, i);
    }
  }

  lemma FlushNothing(m: Mem, i: nat)
    requires i < |m.tlb| && m.tlb[i].phys < 0
    ensures FlushEntry(m, i) == m
  {
  }

  // ---- what others see when a process ends ----

  ghost predicate OthersSame(m: Mem, m': Mem, s: nat)
    requires Sizes(m) && Sizes(m')
  {
    && |m'.pages| == |m.pages| && m'.current == m.current && |m'.vm| == |m.vm| && m'.size == m.size && m'.execs == m.execs
    && m'.pages == m.pages && m'.loading == m.loading && m'.live <= m.live
    && forall s', g :: s' in m'.live ==> Logical(m', s', g) == Logical(m, s', g)
  }

  ghost predicate SameConsts(m: Mem, m': Mem) {
    m'.loading == m.loading && m'.execs == m.execs && m'.next == m.next && m'.size == m.size && |m'.frames| == |m.frames| && |m'.tlb| == |m.tlb|
  }

  ghost predicate OthersKept(m: Mem, m': Mem, s: nat)
    requires s < |m.pages|
  {
    && |m.pages| == |m.loading| == |m.execs| && |m.vm| == |m.access|
    && |m'.pages| == |m'.loading| == |m'.execs| == |m.pages| && |m'.vm| == |m'.access|
    && forall s', g :: s' in m.live && s' != s && s' < |m.pages| ==> Logical(m', s', g) == Logical(m, s', g)
  }

  lemma StartRelease(m: Mem, own: seq<Holder>, s: nat)
    requires MemOk(m, own) && s in m.live
    ensures s < |m.pages| && Trimmed(m, s, 0) == m && MemOk(Trimmed(m, s, 0), own) && InRange(m)
    ensures OthersKept(m, Trimmed(m, s, 0), s)
    ensures SameConsts(m, m)
  {
    assert From(m.pages[s], 0) == m.pages[s];
    assert m.pages[s := m.pages[s]] == m.pages;
    OkInRange(m, own);
  }

  lemma TrimmedInRange(m: Mem, own: seq<Holder>, s: nat, k: nat)
    requires s < |m.pages| && MemOk(Trimmed(m, s, k), own)
    ensures InRange(m)
  {
    OkInRange(Trimmed(m, s, k), own);
  }

  lemma ReleasedPage(m: Mem, s: nat, k: nat)
    requires s < |m.pages|
    ensures ReleasePage(m, s, k) == if k in m.pages[s] then Unmap(m, k, 0).(freeframes := Unmap(m, k, 0).freeframes + [m.pages[s][k]]) else m
    ensures SameConsts(m, ReleasePage(m, s, k)) && ReleasePage(m, s, k).vm == m.vm
  {
    UnmapKeeps(m, k, 0);
  }

  lemma KeptOn(m0: Mem, m1: Mem, own1: seq<Holder>, m2: Mem, own2: seq<Holder>, s: nat, k: nat)
    requires s < |m0.pages| && s < |m1.pages| && OthersKept(m0, Trimmed(m1, s, k), s)
    requires s < |m2.pages| && m2.live == m1.live == m0.live && |m2.pages| == |m0.pages|
    requires MemOk(Trimmed(m2, s, k + 1), own2) && MemOk(Trimmed(m1, s, k), own1)
    requires forall s', g :: s' in m1.live && s' != s ==> Logical(Trimmed(m2, s, k + 1), s', g) == Logical(Trimmed(m1, s, k), s', g)
    ensures OthersKept(m0, Trimmed(m2, s, k + 1), s)
  {
  }

  lemma DeadView(m0: Mem, m: Mem, own: seq<Holder>, s: nat)
    requires Sizes(m0) && s < |m0.pages| && s < |m.pages| && m.live == m0.live && m.pages == m0.pages
    requires m.current == m0.current && m.vm == m0.vm
    requires SameConsts(m0, m) && MemOk(Dead(m, s), own) && OthersKept(m0, Trimmed(m, s, |m.vm|), s)
    requires forall s', g :: s' in Dead(m, s).live ==> Logical(Dead(m, s), s', g) == Logical(Trimmed(m, s, |m.vm|), s', g)
    ensures Sizes(Dead(m, s)) && OthersSame(m0, Dead(m, s), s)
  {
  }

  lemma TwoSteps(m0: Mem, m1: Mem, m2: Mem, own: seq<Holder>)
    requires Sizes(m0) && MemOk(m1, own) && MemOk(m2, own) && SameView(m0, m1) && SameView(m1, m2)
    ensures Sizes(m0) && Sizes(m2) && SameView(m0, m2)
  {
  }

  lemma EndedParts(m: Mem, m': Mem, s: nat)
    requires Sizes(m) && Sizes(m') && OthersSame(m, m', s)
    ensures |m'.vm| == |m.vm| && |m'.access| == |m.access|
  {
  }

  lemma Joined(m0: Mem, m1: Mem, m2: Mem, own: seq<Holder>)
    requires Sizes(m0) && Sizes(m1) && MemOk(m2, own) && SameView(m0, m1) && SameView(m1, m2)
    ensures Sizes(m2) && SameView(m0, m2)
  {
  }

  lemma SizesOf(m: Mem, own: seq<Holder>)
    requires MemOk(m, own)
    ensures Sizes(m)
  {
  }

  // ---- what a fault decides ----

  /** Whether page g of the current process lies in a segment that may not be written. */
  predicate ReadOnly(m: Mem, g: nat)
    requires m.current < |m.execs|
  {
    ReadOnlyIn(m.execs[m.current], g)
  }

  predicate Executable(m: Mem, g: nat)
    requires m.current < |m.execs|
  {
    var segments := m.execs[m.current].segments;
    var es := SegmentOf(segments, g, 0);
    es >= 0 && segments[es].prot.x
  }

  /** A fault ends the process: outside its range, or, if the kind of access is not known and the
      page is mapped already, when a write is not allowed or cannot be the reason. */
  ghost predicate Refused(m: Mem, g: nat, kind: Access)
    requires m.current < |m.execs| && |m.vm| == |m.access|
  {
    g >= |m.vm| || (kind == Unknown && m.access[g] != NONE && (ReadOnly(m, g) || m.access[g].w))
  }

  /** What a process may do with the page after a fault: an unknown access to a page not mapped is
      taken for a read, and to one mapped for reading for a write. */
  function Granted(m: Mem, g: nat, kind: Access): Prot
    requires m.current < |m.execs| && g < |m.access|
  {
    if kind == Reading || (kind == Unknown && m.access[g] == NONE) then (if Executable(m, g) then READ_EXEC else READ) else READ_WRITE
  }

  /** A page is granted for reading always, for writing if that is what is wanted or a page mapped already is not
      enough, and for execution if it is not for writing and a segment says so. */
  lemma Rights(m: Mem, g: nat, kind: Access)
    requires m.current < |m.execs| && g < |m.access| && Separate(m.execs[m.current].segments)
    ensures var q, segments := Granted(m, g, kind), m.execs[m.current].segments;
      && q.r && (q.w <==> kind == Writing || (kind == Unknown && m.access[g] != NONE))
      && (q.x <==> !q.w && exists i :: 0 <= i < |segments| && Covers(segments[i], g) && segments[i].prot.x)
  {
    var segments := m.execs[m.current].segments;
    if i: nat :| i < |segments| && Covers(segments[i], g) {
      SegmentIs(segments, g, i, 0);
    } else {
      NoSegment(segments, g, 0);
    }
  }

  lemma LoadStarted(m: Mem, g: nat)
    requires m.freeframes != [] && m.current < |m.pages| && m.current < |m.loading|
    ensures var m' := AllocFrame(m, g);
      && m'.loading[m.current] == g && g in m'.pages[m.current] && m'.tlb == m.tlb && m'.vm == m.vm && m'.access == m.access
      && m'.next == m.next && m'.execs == m.execs && m'.live == m.live && |m'.pages| == |m.pages| && |m'.loading| == |m.loading|
      && m'.current == m.current && m'.size == m.size
  {
  }

  lemma LoadDone(m: Mem, g: nat)
    requires m.freeframes != [] && m.current < |m.pages| == |m.loading| == |m.execs|
    ensures var m1 := AllocFrame(m, g); var m' := FillFrame(m1);
      && m'.pages == m1.pages && m'.tlb == m.tlb && m'.vm == m.vm && m'.access == m.access
      && m'.next == m.next && m'.execs == m.execs && m'.live == m.live && m'.current == m.current && m'.size == m.size
  {
  }

  lemma LoadedParts(m: Mem, own: seq<Holder>, g: nat)
    requires MemOk(m, own) && m.current in m.live && g in m.pages[m.current]
    ensures m.pages[m.current][g] < |m.frames| && |m.tlb| > 0 && m.next < |m.tlb|
  {
  }

  lemma NextMoved(m: Mem, m': Mem, own: seq<Holder>)
    requires MemOk(m, own) && m' == m.(next := m'.next) && m'.next < |m'.tlb|
    ensures MemOk(m', own) && Sizes(m) && SameView(m, m')
  {
    forall j: nat ensures EntryOk(m', j) { assert EntryOk(m, j); }
    forall h: nat | h < |m'.access| && !Mapped(m', h) ensures m'.access[h] == NONE {
      assert Mapped(m', h) == Mapped(m, h);
    }
  }

  /** What loading a page costs. */
  lemma LoadTook(m: Mem, g: nat)
    requires m.freeframes != [] && m.current < |m.pages| == |m.loading| == |m.execs| && g !in m.pages[m.current]
    requires m.loading[m.current] < 0
    ensures Took(m, FillFrame(AllocFrame(m, g)), {g})
  {
    assert {g} - PagesOf(m, m.current) == {g};
  }

  lemma MapParts(m: Mem, i: nat, g: nat, f: nat, prot: Prot)
    requires i < |m.tlb| && g < |m.vm| == |m.access| && f < |m.frames|
    ensures var m' := Map(m, i, g, f, prot);
      && m'.freeframes == m.freeframes && m'.pages == m.pages && m'.loading == m.loading && m'.execs == m.execs && m'.live == m.live
      && |m'.vm| == |m.vm| && |m'.access| == |m.access| && m'.next == m.next && m'.current == m.current && m'.size == m.size
      && forall h :: 0 <= h < |m.access| && h != g && m'.access[h].w ==> m.access[h].w
  {
    FlushEntryTables(m, i);
    FlushAccess(m, i);
  }

  lemma FlushAccess(m: Mem, i: nat)
    requires i < |m.tlb|
    ensures NoMoreWritable(m, FlushEntry(m, i)) && NoMoreWritable(m, Sync(m, i)) && NoMoreMapped(m, FlushEntry(m, i))
  {
  }

  /** A store is refused: out of range, or in a segment that may not be written, unless the page
      is mapped for writing already. */
  ghost predicate NotForWriting(m: Mem, g: nat)
    requires m.current < |m.execs| && |m.vm| == |m.access|
  {
    g >= |m.vm| || (ReadOnly(m, g) && !m.access[g].w)
  }

  /** Mapping a page makes no other page writable. */
  lemma MapOpened(m: Mem, m': Mem, g: nat, prot: Prot)
    requires m.current < |m.execs| && g < |m.access| == |m'.access| && m'.access[g] == prot
    requires forall h :: 0 <= h < |m.access| && h != g && m'.access[h].w ==> m.access[h].w
    ensures Opened(m, m', if prot.w then {g} else {})
  {
    hide ReadOnlyIn;
  }

  lemma SameAccess(m: Mem, m1: Mem, m2: Mem, pages: set<nat>)
    requires m.current < |m.execs| && m1.access == m.access && m1.execs == m.execs && m1.current == m.current
    requires Opened(m1, m2, pages)
    ensures Opened(m, m2, pages)
  {
    hide ReadOnlyIn;
  }

  /** A store changes contents only. */
  ghost predicate SameStored(m: Mem, m': Mem) {
    m' == m.(vm := m'.vm) && |m'.vm| == |m.vm|
  }

  lemma StoredPages(m: Mem, m1: Mem, m2: Mem, pages: set<nat>, writable: set<nat>)
    requires m.current < |m.execs| && Took(m, m1, pages) && Opened(m, m1, writable) && SameStored(m1, m2)
    ensures Took(m, m2, pages) && Opened(m, m2, writable)
  {
    hide ReadOnlyIn;
    TookThenSame(m, m1, m2, pages);
  }

  lemma MoreOpened(m: Mem, m': Mem, pages: set<nat>, more: set<nat>)
    requires m.current < |m.execs| && Opened(m, m', pages) && pages <= more
    ensures Opened(m, m', more)
  {
    hide ReadOnlyIn;
  }

  lemma NoneUsedNoAccess(m: Mem, own: seq<Holder>)
    requires MemOk(m, own) && NoneUsed(m, |m.tlb|)
    ensures forall g :: 0 <= g < |m.access| ==> m.access[g] == NONE
  {
    forall g: nat | g < |m.access| ensures m.access[g] == NONE {
      assert !Mapped(m, g);
    }
  }

  lemma {:induction false} EntriesSame(m: Mem, m': Mem, g: nat, i: nat)
    requires m'.tlb == m.tlb && i <= |m.tlb|
    ensures EntryFor(m', g, i) == EntryFor(m, g, i)
    decreases |m.tlb| - i
  {
    if i < |m.tlb| { EntriesSame(m, m', g, i + 1); }
  }

  lemma SamePagesParts(m: Mem, m': Mem)
    requires SamePages(m, m')
    ensures m'.pages == m.pages && SameRest(m, m')
    ensures (m.current < |m.loading| && m.loading[m.current] < 0 ==> m'.loading[m.current] < 0)
  {
  }

  lemma TookParts(m: Mem, m': Mem, g: nat)
    requires Took(m, m', {g}) && m.current < |m.pages|
    ensures SameRest(m, m') && m'.live == m.live && g in m'.pages[m.current]
  {
  }

  lemma {:induction false} SyncAllKeeps(m: Mem, i: nat)
    requires i <= |m.tlb|
    ensures SameTables(m, SyncAll(m, i)) && NoMoreWritable(m, SyncAll(m, i))
    decreases |m.tlb| - i
  {
    if i < |m.tlb| {
      FlushEntryTables(m, i);
      FlushAccess(m, i);
      SyncAllKeeps(if m.tlb[i].phys >= 0 then Sync(m, i) else m, i + 1);
    }
  }

  lemma {:induction false} UnmapWritable(m: Mem, g: nat, i: nat)
    requires i <= |m.tlb|
    ensures NoMoreWritable(m, Unmap(m, g, i)) && NoMoreMapped(m, Unmap(m, g, i))
    decreases |m.tlb| - i
  {
    hide FlushEntry;
    if i < |m.tlb| {
      FlushEntryTables(m, i);
      FlushAccess(m, i);
      UnmapWritable(if m.tlb[i].virt == g then FlushEntry(m, i) else m, g, i + 1);
    }
  }

  lemma HeldPages(m: Mem, own: seq<Holder>, s: nat)
    requires MemOk(m, own) && s in m.live
    ensures s < |m.pages| && forall g :: g in m.pages[s] ==> g < |m.vm|
  {
  }

  /** Pages of a page table below k. */
  function Below(pt: map<nat, nat>, k: nat): set<nat> {
    set g | g in pt && g < k
  }

  lemma OneMoreBelow(pt: map<nat, nat>, k: nat)
    ensures |Below(pt, k + 1)| == |Below(pt, k)| + if k in pt then 1 else 0
  {
    if k in pt {
      assert Below(pt, k + 1) == Below(pt, k) + {k};
    } else {
      assert Below(pt, k + 1) == Below(pt, k);
    }
  }

  lemma NoneBelow(pt: map<nat, nat>)
    ensures Below(pt, 0) == {}
  {
  }

  lemma AllBelow(pt: map<nat, nat>, k: nat)
    requires forall g :: g in pt ==> g < k
    ensures Below(pt, k) == pt.Keys
  {
  }

  lemma AllGivenBack(m0: Mem, m: Mem, s: nat)
    requires Sizes(m0) && Sizes(m) && s < |m0.pages| && OthersSame(m0, m, s) && m.live == m0.live - {s}
    requires |m.freeframes| == |m0.freeframes| + |m0.pages[s].Keys|
    ensures GaveBack(m0, m, s)
  {
  }

  // ---- bytes ----

  /** The byte at address x (from the start of the virtual range) of process s. */
  ghost function Byte(m: Mem, s: nat, x: nat): int
    requires Sizes(m) && s < |m.pages|
  {
    var p := Logical(m, s, x / m.size);
    if x % m.size < |p| then p[x % m.size] else 0
  }

  /** Process s has written data from address a on; nobody sees anything else change. */
  ghost predicate Wrote(m: Mem, m': Mem, s: nat, a: nat, data: seq<int>)
    requires Sizes(m) && Sizes(m')
  {
    && m'.live == m.live && |m'.pages| == |m.pages| && m'.size == m.size
    && forall s', x: nat :: s' in m.live ==>
      Byte(m', s', x) == if s' == s && a <= x < a + |data| then data[x - a] else Byte(m, s', x)
  }

  lemma WroteNothing(m: Mem, m': Mem, s: nat, a: nat)
    requires Sizes(m) && Sizes(m') && SameView(m, m')
    ensures Wrote(m, m', s, a, [])
  {
  }

  lemma WroteMore(m: Mem, m1: Mem, m2: Mem, own: seq<Holder>, s: nat, a: nat, data: seq<int>)
    requires Sizes(m) && Sizes(m1) && MemOk(m2, own) && Wrote(m, m1, s, a, data) && SameView(m1, m2)
    ensures Sizes(m2) && Wrote(m, m2, s, a, data)
  {
    forall s', x: nat | s' in m.live
      ensures Byte(m2, s', x) == if s' == s && a <= x < a + |data| then data[x - a] else Byte(m, s', x) {
      assert Byte(m2, s', x) == Byte(m1, s', x);
    }
  }

  lemma SameByte(x: nat, y: nat, n: nat)
    requires n > 0 && x / n == y / n && x % n == y % n
    ensures x == y
  {
    assert x == n * (x / n) + x % n && y == n * (y / n) + y % n;
  }

  lemma PageIndex(x: nat, n: nat)
    requires n > 0
    ensures x % n < n
  {
  }

  /** A store through a writable mapping writes one byte. */
  lemma StoreByte(m: Mem, own: seq<Holder>, a: nat, v: int)
    requires MemOk(m, own) && a / m.size < |m.vm| && m.access[a / m.size].w
    ensures a % m.size < |m.vm[a / m.size]|
    ensures var m' := StoreAt(m, a / m.size, a % m.size, v); MemOk(m', own) && Wrote(m, m', m.current, a, [v])
  {
    var g, off := a / m.size, a % m.size;
    PageIndex(a, m.size);
    StoreOk(m, own, g, off, v);
    var m' := StoreAt(m, g, off, v);
    forall s, x: nat | s in m.live ensures Byte(m', s, x) == if s == m.current && a <= x < a + 1 then v else Byte(m, s, x) {
      if s == m.current && x / m.size == g && x % m.size == off { SameByte(x, a, m.size); }
    }
  }

  lemma OneMore(m: Mem, m1: Mem, m2: Mem, s: nat, a: nat, data: seq<int>, v: int)
    requires Sizes(m) && Sizes(m1) && Sizes(m2) && Wrote(m, m1, s, a, data) && Wrote(m1, m2, s, a + |data|, [v])
    ensures Wrote(m, m2, s, a, data + [v])
  {
    forall s', x: nat | s' in m.live
      ensures Byte(m2, s', x) == if s' == s && a <= x < a + |data| + 1 then (data + [v])[x - a] else Byte(m, s', x) {
    }
  }

  /** What is read through a mapping is the process's byte. */
  lemma LoadByte(m: Mem, own: seq<Holder>, a: nat)
    requires MemOk(m, own) && a / m.size < |m.vm| && m.access[a / m.size].r
    ensures a % m.size < |m.vm[a / m.size]| && m.current in m.live
    ensures m.vm[a / m.size][a % m.size] == Byte(m, m.current, a)
  {
    PageIndex(a, m.size);
    LoadOk(m, own, a / m.size);
  }

  lemma SameBytes(m: Mem, m': Mem, s: nat, a: nat)
    requires Sizes(m) && Sizes(m') && SameView(m, m') && s in m.live
    ensures Byte(m', s, a) == Byte(m, s, a)
  {
  }

  /** A first fault on a page in range maps it for reading. */
  lemma FirstFault(m: Mem, g: nat)
    requires m.current < |m.execs| && |m.vm| == |m.access| && (g < |m.vm| ==> m.access[g] == NONE)
    ensures Refused(m, g, Unknown) <==> g >= |m.vm|
    ensures g < |m.vm| ==> Granted(m, g, Unknown).r && !Granted(m, g, Unknown).w
  {
  }

  /** A fault on a page mapped for reading is taken for a write. */
  lemma SecondFault(m: Mem, g: nat)
    requires m.current < |m.execs| && |m.vm| == |m.access| && g < |m.vm| && m.access[g].r && !m.access[g].w
    ensures Refused(m, g, Unknown) <==> ReadOnly(m, g)
    ensures Granted(m, g, Unknown) == READ_WRITE
  {
  }

  lemma EndedLater(m0: Mem, m1: Mem, m2: Mem, s: nat)
    requires Sizes(m0) && Sizes(m1) && Sizes(m2) && SameView(m0, m1) && OthersSame(m1, m2, s)
    requires m2.live == m1.live - {s}
    requires m1.current == m0.current && |m1.vm| == |m0.vm| && m1.execs == m0.execs
    ensures m2.live == m0.live - {s} && EndedLike(m0, m2)
  {
  }

  /** What others see when the current process ends in the middle of an access. */
  ghost predicate EndedLike(m: Mem, m': Mem)
    requires Sizes(m) && Sizes(m')
  {
    m'.current == m.current && m'.size == m.size && |m'.vm| == |m.vm| && m'.live <= m.live
    && forall s', g :: s' in m'.live ==> Logical(m', s', g) == Logical(m, s', g)
  }

  lemma EndedOnce(m: Mem, m': Mem, s: nat)
    requires Sizes(m) && Sizes(m') && OthersSame(m, m', s)
    ensures EndedLike(m, m')
  {
  }

  /** Without an entry a page cannot be accessed at all; with one, it can be read. */
  lemma AccessKinds(m: Mem, own: seq<Holder>, g: nat)
    requires MemOk(m, own) && g < |m.vm|
    ensures m.access[g] == NONE || m.access[g].r
  {
    EntryAccess(m, own, g);
  }

  lemma NoEntry(m: Mem, own: seq<Holder>, g: nat)
    requires MemOk(m, own) && g >= |m.vm|
    ensures EntryFor(m, g, 0) < 0
  {
    EntryForIs(m, g, 0);
    forall i: nat | i < |m.tlb| && m.tlb[i].phys >= 0 ensures m.tlb[i].virt != g {
      assert EntryOk(m, i);
    }
  }

  /** The i-th byte from address a on is beyond the last page. */
  predicate Past(a: nat, i: nat, pages: nat, size: nat)
    requires size > 0
  {
    (a + i) / size >= pages
  }

  /** With the access known, only an address out of range ends the process. */
  lemma PastEnd(m: Mem, kind: Access, a: nat, i: nat, pages: nat, size: nat)
    requires m.current < |m.execs| && |m.vm| == |m.access| == pages && size > 0 && kind != Unknown
    requires Refused(m, (a + i) / size, kind)
    ensures Past(a, i, pages, size)
  {
  }

  /** The processes still alive see what they saw. */
  ghost predicate BytesKept(m: Mem, m': Mem)
    requires Sizes(m) && Sizes(m')
  {
    forall s, x: nat :: s in m'.live ==> s in m.live && s < |m.pages| && Byte(m', s, x) == Byte(m, s, x)
  }

  lemma WroteThenEnded(m0: Mem, m1: Mem, m2: Mem, a: nat, data: seq<int>)
    requires Sizes(m0) && Sizes(m1) && Sizes(m2) && Wrote(m0, m1, m1.current, a, data) && OthersSame(m1, m2, m1.current)
    requires m2.live == m1.live - {m1.current}
    ensures m2.live == m0.live - {m1.current} && BytesKept(m0, m2)
  {
    forall s, x: nat | s in m2.live ensures s in m0.live && Byte(m2, s, x) == Byte(m0, s, x) {
      assert Byte(m2, s, x) == Byte(m1, s, x);
    }
  }

  lemma PastShift(a: nat, i: nat, pages: nat, size: nat)
    requires size > 0 && Past(a + i, 0, pages, size)
    ensures Past(a, i, pages, size)
  {
  }

  lemma FreshOk(m: Mem, own: seq<Holder>)
    requires |m.pages| == |m.loading| == |m.execs| > 0 && |m.vm| == |m.access| && m.current == 0 && m.next == 0
    requires |m.tlb| > 0 && m.size > 0
    requires m.live == {0} && |own| == |m.frames| == |m.freeframes|
    requires forall f :: 0 <= f < |m.frames| ==> |m.frames[f]| == m.size && own[f] == Unheld && m.freeframes[f] == f
    requires forall g :: 0 <= g < |m.vm| ==> |m.vm[g]| == m.size && m.access[g] == NONE
    requires forall s :: 0 <= s < |m.pages| ==> m.pages[s] == map[] && m.execs[s] == Exec([], 0, [])
    requires forall i :: 0 <= i < |m.tlb| ==> m.tlb[i] == UNUSED
    ensures MemOk(m, own)
    ensures forall g :: Logical(m, 0, g) == Zeros(m.size)
  {
    forall j: nat ensures EntryOk(m, j) { }
    forall f: nat ensures f in m.freeframes <==> f < |own| && own[f] == Unheld {
      if f < |own| { assert m.freeframes[f] == f; }
    }
  }

  class Mmu {
    var frames: seq<Page>
    var freeframes: seq<nat>
    var pages: seq<map<nat, nat>>
    var loading: seq<int>
    var execs: seq<Exec>
    var live: set<nat>
    var vm: seq<Page>
    var access: seq<Prot>
    var tlb: seq<Entry>
    var next: nat
    var current: nat
    var size: nat
    ghost var own: seq<Holder>

    ghost function View(): Mem
      reads this
    {
      Mem(frames, freeframes, pages, loading, execs, live, vm, access, tlb, next, current, size)
    }

    ghost predicate Valid()
      reads this
    {
      MemOk(View(), own)
    }

    /** tlb_initialize and proc_initialize: all frames are free, nothing is mapped, and the first
        process, in slot 0, has touched no page. */
    constructor (frames0: seq<Page>, vm0: seq<Page>, slots: nat, entries: nat, size0: nat)
      requires slots > 0 && entries > 0 && size0 > 0
      requires (forall f :: 0 <= f < |frames0| ==> |frames0[f]| == size0)
      requires (forall g :: 0 <= g < |vm0| ==> |vm0[g]| == size0)
      ensures Valid() && live == {0} && current == 0 && size == size0 && |vm| == |vm0| && |pages| == slots
      ensures Sizes(View()) && |freeframes| == |frames0| && loading[0] < 0 && pages[0] == map[]
      ensures execs[0] == Exec([], 0, [])
      ensures forall g :: 0 <= g < |access| ==> access[g] == NONE
      ensures forall g :: Logical(View(), 0, g) == Zeros(size0)
    {
      frames, vm, size := frames0, vm0, size0;
      freeframes := seq(|frames0|, (i: nat) => i);
      pages := seq(slots, (i: nat) => map[]);
      loading := seq(slots, (i: nat) => -1);
      execs := seq(slots, (i: nat) => Exec([], 0, []));
      access := seq(|vm0|, (i: nat) => NONE);
      tlb := seq(entries, (i: nat) => UNUSED);
      live, next, current := {0}, 0, 0;
      own := seq(|frames0|, (i: nat) => Unheld);
      new;
      FreshOk(View(), own);
    }

    /** tlb_get_entry */
    method GetEntry(g: nat) returns (r: int)
      ensures r == EntryFor(View(), g, 0)
    {
      var i := 0;
      while i < |tlb|
        invariant i <= |tlb| && EntryFor(View(), g, 0) == EntryFor(View(), g, i)
      {
        if tlb[i].virt == g && tlb[i].phys >= 0 { return i; }
        i := i + 1;
      }
      r := -1;
    }

    /** tlb_sync_entry */
    method SyncEntry(i: nat)
      requires InRange(View()) && i < |tlb| && tlb[i].phys >= 0
      modifies `frames, `access
      ensures View() == Sync(old(View()), i) && InRange(View())
    {
      if tlb[i].prot.w {
        if !tlb[i].prot.r {
          access := access[tlb[i].virt := Prot(true, false, false)];
        }
        frames := frames[tlb[i].phys := vm[tlb[i].virt]];
      }
    }

    /** tlb_flush_entry */
    method FlushAt(i: nat)
      requires InRange(View()) && i < |tlb|
      modifies `frames, `access, `tlb
      ensures View() == FlushEntry(old(View()), i) && InRange(View())
    {
      if tlb[i].phys < 0 { return; }
      hide Sync;
      SyncMapped(View(), i);
      SyncEntry(i);
      access := access[tlb[i].virt := NONE];
      tlb := tlb[i := UNUSED];
    }

    /** tlb_flush */
    method FlushTlb()
      requires InRange(View())
      modifies `frames, `access, `tlb
      ensures View() == Flush(old(View()), 0) && InRange(View())
    {
      hide FlushEntry, InRange;
      ghost var m0 := View();
      var i := 0;
      while i < |tlb|
        invariant i <= |tlb| && InRange(View()) && Flush(View(), i) == Flush(m0, 0)
      {
        FlushEntryTables(View(), i);
        FlushAt(i);
        i := i + 1;
      }
    }

    /** tlb_sync */
    method SyncTlb()
      requires InRange(View())
      modifies `frames, `access
      ensures View() == SyncAll(old(View()), 0) && InRange(View())
    {
      hide Sync, InRange;
      ghost var m0 := View();
      var i := 0;
      while i < |tlb|
        invariant i <= |tlb| && InRange(View()) && SyncAll(View(), i) == SyncAll(m0, 0)
      {
        if tlb[i].phys >= 0 { SyncEntry(i); }
        i := i + 1;
      }
    }

    /** tlb_unmap */
    method UnmapPage(g: nat)
      requires InRange(View())
      modifies `frames, `access, `tlb
      ensures View() == Unmap(old(View()), g, 0) && InRange(View())
    {
      hide FlushEntry, InRange;
      ghost var m0 := View();
      var i := 0;
      while i < |tlb|
        invariant i <= |tlb| && InRange(View()) && Unmap(View(), g, i) == Unmap(m0, g, 0)
      {
        FlushEntryTables(View(), i);
        if tlb[i].virt == g { FlushAt(i); }
        i := i + 1;
      }
    }

    /** tlb_map */
    method MapEntry(i: nat, g: nat, f: nat, prot: Prot)
      requires InRange(View()) && i < |tlb| && g < |vm| && f < |frames|
      modifies `frames, `access, `tlb, `vm
      ensures |old(vm)| == |old(access)| && View() == Map(old(View()), i, g, f, prot)
    {
      hide FlushEntry;
      FlushEntryTables(View(), i);
      if tlb[i].phys >= 0 { FlushAt(i); } else { FlushNothing(View(), i); }
      tlb := tlb[i := Entry(g, f, prot)];
      if !prot.w { access := access[g := Prot(false, true, false)]; } else { access := access[g := prot]; }
      vm := vm[g := frames[f]];
      if !prot.w { access := access[g := prot]; }
    }

    /** frame_init: the first contents of a page of the current process */
    method FrameInit(page: nat) returns (p: Page)
      requires current < |execs|
      ensures p == Initial(execs[current], page, size)
      ensures forall at :: InFileOrder(at, execs[current].segments, execs[current].offset) ==> ImagePage(execs[current], at, page, size, p)
    {
      ghost var image := Initial(execs[current], page, size);
      forall at | InFileOrder(at, execs[current].segments, execs[current].offset)
        ensures ImagePage(execs[current], at, page, size, image)
      {
        ImageInOrder(execs[current], at, page, size);
      }
      hide InFileOrder, ImagePage;
      var e := execs[current];
      var offset := e.offset;
      var i := 0;
      while i < |e.segments|
        invariant i <= |e.segments| && offset == e.offset + BlocksBefore(e.segments, i)
        invariant SegmentOf(e.segments, page, 0) == SegmentOf(e.segments, page, i)
      {
        var s := e.segments[i];
        if s.first <= page && page < s.first + s.npages {
          if page < s.first + s.nblocks {
            var b := offset + (page - s.first);
            return if b < |e.file| then e.file[b] else Zeros(size);
          } else {
            break;
          }
        }
        offset := offset + s.nblocks;
        i := i + 1;
      }
      p := Zeros(size);
    }

    /** proc_term's loop over the pages of a process: it gives back its frames */
    method EndProcess(s: nat)
      requires Valid() && s in live
      modifies `frames, `access, `tlb, `freeframes, `live, `own
      ensures Valid() && live == old(live) - {s}
      ensures old(Sizes(View())) && Sizes(View()) && OthersSame(old(View()), View(), s)
      ensures GaveBack(old(View()), View(), s) && NoMoreWritable(old(View()), View()) && NoMoreMapped(old(View()), View())
    {
      hide MemOk, Logical, Unmap, ReleasePage, InRange, Trimmed, OthersSame, GaveBack, Below;
      ghost var m0 := View();
      StartRelease(m0, own, s);
      SizesOf(m0, own);
      HeldPages(m0, own, s);
      NoneBelow(pages[s]);
      var k := 0;
      while k < |vm|
        invariant k <= |vm| && s < |pages| && s in live && MemOk(Trimmed(View(), s, k), own)
        invariant pages == m0.pages && live == m0.live && current == m0.current && vm == m0.vm
        invariant SameConsts(m0, View())
        invariant OthersKept(m0, Trimmed(View(), s, k), s)
        invariant |freeframes| == |m0.freeframes| + |Below(m0.pages[s], k)|
        invariant NoMoreWritable(m0, View()) && NoMoreMapped(m0, View())
      {
        ghost var m1 := View();
        ghost var own' := ReleasePageOk(m1, own, s, k);
        UnmapKeeps(m1, k, 0);
        UnmapWritable(m1, k, 0);
        TrimmedInRange(m1, own, s, k);
        if k in pages[s] {
          UnmapPage(k);
          freeframes := freeframes + [pages[s][k]];
        }
        ReleasedPage(m1, s, k);
        KeptOn(m0, m1, own, View(), own', s, k);
        OneMoreBelow(m0.pages[s], k);
        own := own';
        k := k + 1;
      }
      DeadOk(View(), own, s);
      DeadView(m0, View(), own, s);
      AllBelow(m0.pages[s], |vm|);
      live := live - {s};
      AllGivenBack(m0, View(), s);
    }

    /** proc_frame_alloc, in the middle of a fault on page g; Panic if there are no free frames. */
    method StartLoad(g: nat) returns (o: Outcome)
      requires Valid() && current in live && g < |vm| && g !in pages[current] && loading[current] < 0
      modifies `freeframes, `pages, `loading, `own
      ensures o == Panic <==> old(freeframes) == []
      ensures o != Killed && (o == Panic ==> View() == old(View()) && own == old(own))
      ensures Valid() && old(Sizes(View())) && SameView(old(View()), View())
      ensures o == Done ==> old(freeframes) != [] && View() == AllocFrame(old(View()), g)
    {
      ViewItself(View());
      if freeframes == [] { return Panic; }
      AllocFrameOk(View(), own, g);
      hide Valid, MemOk, SameView;
      var f := freeframes[0];
      own := own[f := Held(current, g)];
      freeframes := freeframes[1..];
      pages := pages[current := WithPage(pages[current], g, f)];
      loading := loading[current := g];
      o := Done;
    }

    /** frame_init for the page being loaded, after the file server has answered */
    method FinishLoad()
      requires Valid() && current in live && loading[current] >= 0 && loading[current] in pages[current]
      modifies `frames, `loading
      ensures Valid() && old(Sizes(View())) && SameView(old(View()), View()) && View() == FillFrame(old(View()))
      ensures loading[current] < 0
    {
      FillFrameOk(View(), own);
      var g: nat := loading[current];
      assert own[pages[current][g]] == Held(current, g);
      hide MemOk, SameView, Initial;
      var p := FrameInit(g);
      frames := frames[pages[current][g] := p];
      loading := loading[current := -1];
    }

    /** The segment of the current process that page g is in, or -1 */
    method FindSegment(g: nat) returns (r: int)
      requires current < |execs|
      ensures r == SegmentOf(execs[current].segments, g, 0)
    {
      var segments := execs[current].segments;
      var i := 0;
      while i < |segments|
        invariant i <= |segments| && SegmentOf(segments, g, 0) == SegmentOf(segments, g, i)
      {
        if segments[i].first <= g && g < segments[i].first + segments[i].npages { return i; }
        i := i + 1;
      }
      r := -1;
    }

    /** proc_after_switch: the TLB is flushed before another process runs */
    method SwitchTo(s: nat)
      requires Valid() && s < |pages|
      modifies `frames, `access, `tlb, `current
      ensures Valid() && old(Sizes(View())) && SameView(old(View()), View()) && current == s
      ensures pages == old(pages) && |freeframes| == |old(freeframes)| && loading == old(loading) && execs == old(execs)
      ensures live == old(live) && |vm| == |old(vm)| && forall g :: 0 <= g < |access| ==> access[g] == NONE
    {
      hide MemOk, SameView, InRange, Flush;
      ghost var m0 := View();
      OkInRange(m0, own);
      SizesOf(m0, own);
      FlushOk(m0, own, 0);
      FlushTlb();
      ghost var m1 := View();
      NoneUsedNoAccess(m1, own);
      SwitchOk(m1, own, s);
      current := s;
      TwoSteps(m0, m1, View(), own);
    }

    /** ctx_entry: a new process runs, and the TLB stays as it is. The result tells whether an entry is in use;
        the code does not look. */
    method EnterProcess(s: nat) returns (leaked: bool)
      requires Valid() && s in live && s < |pages| && pages[s] == map[] && s != current
      modifies `current
      ensures old(Sizes(View())) && Sizes(View()) && View() == old(View()).(current := s) && own == old(own)
      ensures leaked <==> exists g: nat :: Leaks(old(View()), s, g)
      ensures leaked <==> !Valid()
      ensures !leaked ==> SameView(old(View()), View()) && forall g :: 0 <= g < |access| ==> access[g] == NONE
    {
      hide MemOk, SameView, Leaks;
      ghost var m0 := View();
      SizesOf(m0, own);
      StartExactly(m0, own, s);
      leaked := false;
      var i := 0;
      while i < |tlb|
        invariant i <= |tlb| && (leaked ==> !NoneUsed(m0, |tlb|)) && (!leaked ==> NoneUsed(m0, i))
      {
        if tlb[i].phys >= 0 { leaked := true; }
        i := i + 1;
      }
      if !leaked {
        NoneUsedNoAccess(m0, own);
        SwitchOk(m0, own, s);
      }
      current := s;
    }

    /** proc_alloc, for the address space: a slot not in use gets an empty page table */
    method NewProcess(s: nat, e: Exec)
      requires Valid() && s < |pages| && s !in live && s != current && Loadable(e, size)
      modifies `pages, `loading, `execs, `live
      ensures Valid() && old(Sizes(View())) && Sizes(View()) && View() == NewSpace(old(View()), s, e)
      ensures forall g :: Logical(View(), s, g) == Initial(e, g, size)
      ensures forall s', g :: s' in old(live) ==> Logical(View(), s', g) == Logical(old(View()), s', g)
    {
      NewSpaceOk(View(), own, s, e);
      pages := pages[s := map[]];
      loading := loading[s := -1];
      execs := execs[s := e];
      live := live + {s};
    }

    /** The first half of proc_pagefault: the page gets a frame if it has none. */
    method GetFrame(g: nat) returns (o: Outcome)
      requires Valid() && current in live && current < |loading| && loading[current] < 0 && g < |vm|
      requires current < |pages|
      modifies `frames, `freeframes, `pages, `loading, `own
      ensures Valid() && old(Sizes(View())) && Sizes(View()) && SameView(old(View()), View())
      ensures o != Killed && (o == Panic <==> old(freeframes) == [] && g !in old(pages)[current])
      ensures o == Panic ==> View() == old(View())
      ensures o == Done ==> Took(old(View()), View(), {g}) && loading[current] < 0 && g in pages[current]
    {
      hide MemOk, SameView, Logical, AllocFrame, FillFrame, Took;
      ghost var m0 := View();
      SizesOf(m0, own);
      ViewItself(m0);
      o := Done;
      if g in pages[current] {
        TookPresent(m0, m0, g);
      } else {
        o := StartLoad(g);
        if o == Panic { return; }
        LoadStarted(m0, g);
        LoadTook(m0, g);
        ghost var m1 := View();
        FinishLoad();
        LoadDone(m0, g);
        Joined(m0, m1, View(), own);
      }
    }

    /** The second half: the page gets an entry. */
    method MapPage(g: nat, index0: int, es: int, a: Access)
      requires Valid() && current in live && current < |loading| && loading[current] < 0 && g < |vm|
      requires |vm| == |access| && a != Unknown
      requires index0 == EntryFor(View(), g, 0) && current < |execs| && es == SegmentOf(execs[current].segments, g, 0)
      requires current < |pages| && g in pages[current]
      modifies `frames, `vm, `access, `tlb, `next
      ensures Valid() && old(Sizes(View())) && Sizes(View()) && SameView(old(View()), View())
      ensures SamePages(old(View()), View())
      ensures |access| == |old(access)| && access[g] == Granted(old(View()), g, a)
      ensures Opened(old(View()), View(), if Granted(old(View()), g, a).w then {g} else {})
    {
      hide MemOk, SameView, Logical, InRange, Map, SegmentOf, EntryFor, Opened;
      ghost var m1 := View();
      SizesOf(m1, own);
      EntryAccess(m1, own, g);
      LoadedParts(m1, own, g);
      var index := index0;
      if index < 0 {
        index := next;
        next := (next + 1) % |tlb|;
      }
      NextMoved(m1, View(), own);
      var prot := if a == Reading then (if es >= 0 && execs[current].segments[es].prot.x then READ_EXEC else READ) else READ_WRITE;
      MapOk(View(), own, index, g, prot);
      OkInRange(View(), own);
      MapParts(View(), index, g, pages[current][g], prot);
      ghost var m2 := View();
      MapEntry(index, g, pages[current][g], prot);
      TwoSteps(m1, m2, View(), own);
      MapOpened(m2, View(), g, prot);
      SameAccess(m1, m2, View(), if prot.w then {g} else {});
    }

    /** proc_pagefault, once the access is known to be a read or a write. */
    method PageIn(g: nat, index0: int, es: int, a: Access) returns (o: Outcome)
      requires Valid() && current in live && current < |loading| && loading[current] < 0 && g < |vm|
      requires |vm| == |access| && a != Unknown
      requires index0 == EntryFor(View(), g, 0) && current < |execs| && es == SegmentOf(execs[current].segments, g, 0)
      modifies `frames, `freeframes, `pages, `loading, `vm, `access, `tlb, `next, `own
      ensures Valid() && old(Sizes(View())) && Sizes(View()) && |vm| == |old(vm)| && |access| == |old(access)|
      ensures SameView(old(View()), View())
      ensures o == Done ==> loading[current] < 0 && access[g] == Granted(old(View()), g, a) && g in pages[current]
      ensures execs == old(execs)
      ensures o != Killed && (o == Panic <==> old(freeframes) == [] && g !in old(pages)[current])
      ensures o == Panic ==> View() == old(View())
      ensures o == Done ==> Took(old(View()), View(), {g}) && Opened(old(View()), View(), if Granted(old(View()), g, a).w then {g} else {})
    {
      hide MemOk, SameView, Logical, SegmentOf, EntryFor, Took, Opened, SamePages, ReadOnlyIn;
      ghost var m0 := View();
      SizesOf(m0, own);
      o := GetFrame(g);
      if o == Panic { return; }
      ghost var m1 := View();
      EntriesSame(m0, m1, g, 0);
      MapPage(g, index0, es, a);
      SizesOf(View(), own);
      SameViewTwice(m0, m1, View());
      SamePagesParts(m1, View());
      TookThenSame(m0, m1, View(), {g});
      SameAccess(m0, m1, View(), if Granted(m0, g, a).w then {g} else {});
    }

    /** proc_pagefault, for page g of the current process */
    method PageFault(g: nat, kind: Access) returns (o: Outcome)
      requires Valid() && current in live && current < |loading| && loading[current] < 0
      modifies `frames, `freeframes, `pages, `loading, `vm, `access, `tlb, `next, `live, `own
      ensures Valid() && old(Sizes(View())) && Sizes(View()) && |vm| == |old(vm)| && |access| == |old(access)|
      ensures o == Killed ==> live == old(live) - {current} && OthersSame(old(View()), View(), current)
      ensures o != Killed ==> SameView(old(View()), View()) && live == old(live)
      ensures o == Done ==> g < |access| && loading[current] < 0 && access[g] == Granted(old(View()), g, kind) && g in pages[current]
      ensures o != Killed ==> execs == old(execs)
      ensures o == Killed <==> Refused(old(View()), g, kind)
      ensures o == Panic <==> !Refused(old(View()), g, kind) && old(freeframes) == [] && g !in old(pages)[current]
      ensures o == Panic ==> View() == old(View())
      ensures o == Killed ==> GaveBack(old(View()), View(), current)
      ensures o == Done ==> Took(old(View()), View(), {g}) && Opened(old(View()), View(), if Granted(old(View()), g, kind).w then {g} else {})
    {
      hide MemOk, SameView, OthersSame, Logical, SegmentOf, EntryFor, Took, Opened, GaveBack;
      ghost var m0 := View();
      SizesOf(m0, own);
      if g >= |vm| {
        EndProcess(current);
        EndedParts(m0, View(), current);
        return Killed;
      }
      var es := FindSegment(g);
      var index := GetEntry(g);
      EntryAccess(m0, own, g);
      var a := kind;
      if a == Unknown {
        if index >= 0 {
          if es >= 0 && !execs[current].segments[es].prot.w {
            EndProcess(current);
            EndedParts(m0, View(), current);
            return Killed;
          }
          if tlb[index].prot.w {
            EndProcess(current);
            EndedParts(m0, View(), current);
            return Killed;
          }
          a := Writing;
        } else {
          a := Reading;
        }
      }
      o := PageIn(g, index, es, a);
    }

    /** A process reads a byte: the access faults until the page can be read. */
    method Load(a: nat) returns (o: Outcome, v: int)
      requires Valid() && current in live && current < |loading| && loading[current] < 0 && size > 0
      modifies `frames, `freeframes, `pages, `loading, `vm, `access, `tlb, `next, `live, `own
      ensures Valid() && old(Sizes(View())) && Sizes(View())
      ensures o == Done ==> SameView(old(View()), View()) && v == Byte(old(View()), current, a) && loading[current] < 0
      ensures o == Killed ==> live == old(live) - {current} && EndedLike(old(View()), View())
      ensures o == Killed <==> Beyond(old(View()), a, 1)
      ensures o == Killed ==> GaveBack(old(View()), View(), current)
      ensures o == Panic <==> |Fetched(old(View()), a, 1)| > |old(freeframes)|
      ensures o == Done ==> Took(old(View()), View(), Touched(a, 1, size)) && Opened(old(View()), View(), {})
    {
      hide MemOk, SameView, OthersSame, Logical, Byte, SegmentOf, Refused, Granted, EndedLike, Took, Opened,
           GaveBack, Fetched, Touched, Beyond;
      OneByte(View(), a);
      ghost var m0 := View();
      SizesOf(m0, own);
      ViewItself(m0);
      var g, off := a / size, a % size;
      v := 0;
      if !(g < |vm| && access[g].r) {
        if g < |vm| { AccessKinds(m0, own, g); }
        FirstFault(m0, g);
        o := PageFault(g, Unknown);
        if o == Killed { EndedOnce(m0, View(), current); }
        if o != Done { return; }
      } else {
        EntryAccess(m0, own, g);
        TookPresent(m0, m0, g);
        NoneWritable(m0, m0);
      }
      LoadByte(View(), own, a);
      SameBytes(m0, View(), current, a);
      v := vm[g][off];
      o := Done;
    }

    /** The faults of a store to page g: a first one may map the page for reading only, a second
        one for writing, unless its segment forbids it. */
    method FaultToWrite(g: nat) returns (o: Outcome)
      requires Valid() && current in live && current < |loading| && loading[current] < 0
      requires |vm| == |access| && (g < |vm| ==> !access[g].w)
      modifies `frames, `freeframes, `pages, `loading, `vm, `access, `tlb, `next, `live, `own
      ensures Valid() && old(Sizes(View())) && Sizes(View())
      ensures o == Done ==> SameView(old(View()), View()) && loading[current] < 0 && g < |vm| == |access| && access[g].w
      ensures o == Killed ==> live == old(live) - {current} && EndedLike(old(View()), View()) && NotForWriting(old(View()), g)
      ensures o == Done ==> !NotForWriting(old(View()), g)
      ensures o == Panic <==> g < |old(vm)| && old(freeframes) == [] && g !in old(pages)[current]
      ensures o == Killed ==> GaveBack(old(View()), View(), current)
      ensures o == Done ==> Took(old(View()), View(), {g}) && Opened(old(View()), View(), {})
    {
      hide MemOk, SameView, OthersSame, Logical, SegmentOf, Refused, Granted, EndedLike, Took, Opened, GaveBack,
           ReadOnlyIn;
      ghost var m0 := View();
      SizesOf(m0, own);
      ViewItself(m0);
      if g >= |vm| || access[g] == NONE {
        FirstFault(m0, g);
        o := PageFault(g, Unknown);
        if o == Killed { EndedOnce(m0, View(), current); }
        if o != Done { return; }
      } else {
        AccessKinds(m0, own, g);
        EntryAccess(m0, own, g);
        TookPresent(m0, m0, g);
        NoneWritable(m0, m0);
      }
      ghost var m1 := View();
      SecondFault(m1, g);
      TookParts(m0, m1, g);
      o := PageFault(g, Unknown);
      if o == Killed {
        EndedLater(m0, m1, View(), current);
        TookThenGave(m0, m1, View(), {g});
      } else {
        SameViewTwice(m0, m1, View());
        TookMore(m0, m1, View(), {g}, g);
        assert {g} + {g} == {g};
        NoneOpened(m1, View(), {g});
        NoneOpenedTwice(m0, m1, View());
      }
    }

    /** A process writes a byte. */
    method Store(a: nat, v: int) returns (o: Outcome)
      requires Valid() && current in live && current < |loading| && loading[current] < 0 && size > 0
      modifies `frames, `freeframes, `pages, `loading, `vm, `access, `tlb, `next, `live, `own
      ensures Valid() && old(Sizes(View())) && Sizes(View())
      ensures o == Done ==> Wrote(old(View()), View(), current, a, [v]) && loading[current] < 0
      ensures o == Killed ==> live == old(live) - {current} && EndedLike(old(View()), View())
      ensures o == Killed ==> NotForWriting(old(View()), a / size)
      ensures o == Done ==> !NotForWriting(old(View()), a / size)
      ensures o == Killed ==> GaveBack(old(View()), View(), current)
      ensures o == Panic <==> |Fetched(old(View()), a, 1)| > |old(freeframes)|
      ensures o == Done ==> Took(old(View()), View(), Touched(a, 1, size)) && Opened(old(View()), View(), {})
    {
      hide MemOk, SameView, Logical, Byte, Wrote, ReadOnly, EndedLike, Took, Opened, GaveBack, Fetched, Touched, Beyond;
      OneByte(View(), a);
      ghost var m0 := View();
      SizesOf(m0, own);
      ViewItself(m0);
      var g, off := a / size, a % size;
      if !(g < |vm| && access[g].w) {
        o := FaultToWrite(g);
        if o != Done { return; }
      } else {
        EntryAccess(m0, own, g);
        TookPresent(m0, m0, g);
        NoneWritable(m0, m0);
      }
      o := Done;
      ghost var m1 := View();
      StoreHere(m0, a, v);
      StoredPages(m0, m1, View(), {g}, {});
    }

    /** The store itself, through a writable mapping */
    method StoreHere(ghost m0: Mem, a: nat, v: int)
      requires Valid() && Sizes(m0) && Sizes(View()) && SameView(m0, View()) && size > 0
      requires a / size < |vm| == |access| && access[a / size].w
      modifies `vm
      ensures SameStored(old(View()), View())
      ensures Valid() && Sizes(View()) && Wrote(m0, View(), current, a, [v])
    {
      hide MemOk, SameView, Logical, Byte, Wrote;
      ghost var m2 := View();
      StoreByte(m2, own, a, v);
      vm := vm[a / size := vm[a / size][a % size := v]];
      WroteNothing(m0, m2, current, a);
      SizesOf(View(), own);
      OneMore(m0, m2, View(), current, a, [], v);
      assert [] + [v] == [v];
    }

    /** One byte of copy_user towards a process: its page is made writable, whatever its segment. */
    method WriteByte(a: nat, v: int) returns (o: Outcome)
      requires Valid() && current in live && current < |loading| && loading[current] < 0 && size > 0
      modifies `frames, `freeframes, `pages, `loading, `vm, `access, `tlb, `next, `live, `own
      ensures Valid() && old(Sizes(View())) && Sizes(View()) && |vm| == |old(vm)|
      ensures o == Done ==> Wrote(old(View()), View(), current, a, [v]) && loading[current] < 0
      ensures o == Killed ==> live == old(live) - {current} && OthersSame(old(View()), View(), current) && Past(a, 0, |vm|, size)
      ensures o == Killed ==> GaveBack(old(View()), View(), current)
      ensures o != Killed ==> a / size < |old(vm)|
      ensures o == Panic ==> old(freeframes) == [] && a / size !in PagesOf(old(View()), current)
      ensures o == Done ==> Took(old(View()), View(), {a / size}) && Opened(old(View()), View(), {a / size})
    {
      hide MemOk, SameView, Logical, Byte, Wrote, OthersSame, EntryFor, Took, Opened, GaveBack;
      ghost var m1 := View();
      SizesOf(m1, own);
      var g := a / size;
      var index := GetEntry(g);
      if g < |vm| { EntryAccess(m1, own, g); } else { NoEntry(m1, own, g); }
      ViewItself(m1);
      if index < 0 || !tlb[index].prot.w {
        o := PageFault(g, Writing);
        if o == Killed { PastEnd(m1, Writing, a, 0, |vm|, size); }
        if o != Done { return; }
      } else {
        TookPresent(m1, m1, g);
        NoneWritable(m1, m1);
        MoreOpened(m1, m1, {}, {g});
      }
      o := Done;
      ghost var m2 := View();
      StoreHere(m1, a, v);
      StoredPages(m1, m2, View(), {g}, {g});
    }

    /** copy_user, from the kernel to the current process; afterwards the TLB is synced. */
    method CopyToUser(a: nat, data: seq<int>) returns (o: Outcome)
      requires Valid() && current in live && current < |loading| && loading[current] < 0 && size > 0
      modifies `frames, `freeframes, `pages, `loading, `vm, `access, `tlb, `next, `live, `own
      ensures Valid() && old(Sizes(View())) && Sizes(View())
      ensures o == Done ==> Wrote(old(View()), View(), current, a, data) && loading[current] < 0
      ensures o == Killed ==> live == old(live) - {current} && BytesKept(old(View()), View())
      ensures o == Panic <==> |Fetched(old(View()), a, |data|)| > |old(freeframes)|
      ensures o == Killed <==> |Fetched(old(View()), a, |data|)| <= |old(freeframes)| && Beyond(old(View()), a, |data|)
      ensures o == Killed ==> GaveBack(old(View()), View(), current)
      ensures o == Done ==> Took(old(View()), View(), Touched(a, |data|, size)) && Opened(old(View()), View(), Writable(Touched(a, |data|, size), true))
    {
      hide MemOk, SameView, Logical, Byte, Wrote, OthersSame, BytesKept, Past, Took, Opened, GaveBack, Fetched,
           Beyond, Accessed;
      ghost var m0 := View();
      SizesOf(m0, own);
      ViewItself(m0);
      NoneAccessed(m0, a, true);
      WroteNothing(m0, m0, current, a);
      var i := 0;
      while i < |data|
        invariant i <= |data| && Valid() && current in live && current < |loading| && loading[current] < 0
        invariant Sizes(View()) && Wrote(m0, View(), current, a, data[..i])
        invariant |vm| == |m0.vm| && size == m0.size && current == m0.current
        invariant Accessed(m0, View(), a, i, true)
      {
        ghost var m1 := View();
        o := WriteByte(a + i, data[i]);
        if o == Killed {
          PastShift(a, i, |m0.vm|, size);
          WroteThenEnded(m0, m1, View(), a, data[..i]);
          AccessedPast(m0, m1, View(), a, i, |data|, true);
        }
        if o == Panic { AccessedNoMore(m0, m1, a, i, |data|, true); }
        if o != Done { return; }
        AccessedRest(m0, m1, a, i, true);
        OneMoreAccessed(m0, m1, View(), a, i, (a + i) / size, true);
        assert data[..i + 1] == data[..i] + [data[i]];
        assert |data[..i]| == i;
        OneMore(m0, m1, View(), current, a, data[..i], data[i]);
        i := i + 1;
      }
      assert data[..i] == data;
      ghost var m2 := View();
      AccessedRest(m0, m2, a, |data|, true);
      Synced(m0, a, data);
      AllAccessed(m0, m2, View(), a, |data|, true);
      o := Done;
    }

    method Synced(ghost m0: Mem, a: nat, data: seq<int>)
      requires Valid() && Sizes(m0) && Sizes(View()) && Wrote(m0, View(), current, a, data) && current < |loading|
      requires loading[current] < 0
      modifies `frames, `access
      ensures Valid() && Sizes(View()) && Wrote(m0, View(), current, a, data)
      ensures SamePages(old(View()), View()) && NoMoreWritable(old(View()), View())
    {
      hide MemOk, SameView, Logical, Byte, Wrote, InRange;
      ghost var m2 := View();
      OkInRange(m2, own);
      SyncAllOk(m2, own, 0);
      SyncAllKeeps(m2, 0);
      SyncTlb();
      WroteMore(m0, m2, View(), own, current, a, data);
    }

    /** One byte of copy_user from a process: its page is made readable. */
    method ReadByte(a: nat) returns (o: Outcome, v: int)
      requires Valid() && current in live && current < |loading| && loading[current] < 0 && size > 0
      modifies `frames, `freeframes, `pages, `loading, `vm, `access, `tlb, `next, `live, `own
      ensures Valid() && old(Sizes(View())) && Sizes(View()) && |vm| == |old(vm)|
      ensures o == Done ==> SameView(old(View()), View()) && v == Byte(old(View()), current, a) && loading[current] < 0
      ensures o == Killed ==> live == old(live) - {current} && OthersSame(old(View()), View(), current) && Past(a, 0, |vm|, size)
      ensures o == Killed ==> GaveBack(old(View()), View(), current)
      ensures o != Killed ==> a / size < |old(vm)|
      ensures o == Panic ==> old(freeframes) == [] && a / size !in PagesOf(old(View()), current)
      ensures o == Done ==> Took(old(View()), View(), {a / size}) && Opened(old(View()), View(), {})
    {
      hide MemOk, SameView, Logical, Byte, OthersSame, EntryFor, Took, Opened, GaveBack;
      ghost var m1 := View();
      SizesOf(m1, own);
      v := 0;
      var g := a / size;
      var index := GetEntry(g);
      if g < |vm| { EntryAccess(m1, own, g); } else { NoEntry(m1, own, g); }
      ViewItself(m1);
      if index < 0 {
        o := PageFault(g, Reading);
        if o == Killed { PastEnd(m1, Reading, a, 0, |vm|, size); }
        if o != Done { return; }
      } else {
        TookPresent(m1, m1, g);
        NoneWritable(m1, m1);
      }
      LoadByte(View(), own, a);
      SameBytes(m1, View(), current, a);
      v := vm[g][a % size];
      o := Done;
    }

    /** copy_user, from the current process to the kernel */
    method CopyFromUser(a: nat, n: nat) returns (o: Outcome, data: seq<int>)
      requires Valid() && current in live && current < |loading| && loading[current] < 0 && size > 0
      modifies `frames, `freeframes, `pages, `loading, `vm, `access, `tlb, `next, `live, `own
      ensures Valid() && old(Sizes(View())) && Sizes(View())
      ensures o == Done ==> SameView(old(View()), View()) && loading[current] < 0
      ensures o == Done ==> |data| == n && forall i :: 0 <= i < n ==> data[i] == Byte(old(View()), current, a + i)
      ensures o == Killed ==> live == old(live) - {current} && BytesKept(old(View()), View())
      ensures o == Panic <==> |Fetched(old(View()), a, n)| > |old(freeframes)|
      ensures o == Killed <==> |Fetched(old(View()), a, n)| <= |old(freeframes)| && Beyond(old(View()), a, n)
      ensures o == Killed ==> GaveBack(old(View()), View(), current)
      ensures o == Done ==> Took(old(View()), View(), Touched(a, n, size)) && Opened(old(View()), View(), {})
    {
      hide MemOk, SameView, Logical, Byte, OthersSame, BytesKept, Past, Wrote, Took, Opened, GaveBack, Fetched,
           Beyond, Accessed;
      ghost var m0 := View();
      SizesOf(m0, own);
      ViewItself(m0);
      NoneAccessed(m0, a, false);
      data := [];
      var i := 0;
      while i < n
        invariant i <= n && |data| == i && Valid() && current in live && current < |loading| && loading[current] < 0
        invariant Sizes(View()) && SameView(m0, View()) && |vm| == |m0.vm| && size == m0.size && current == m0.current
        invariant Accessed(m0, View(), a, i, false)
        invariant forall j :: 0 <= j < i ==> data[j] == Byte(m0, current, a + j)
      {
        ghost var m1 := View();
        var v;
        o, v := ReadByte(a + i);
        if o == Killed {
          PastShift(a, i, |m0.vm|, size);
          WroteNothing(m0, m1, current, a);
          WroteThenEnded(m0, m1, View(), a, []);
          AccessedPast(m0, m1, View(), a, i, n, false);
        }
        if o == Panic { AccessedNoMore(m0, m1, a, i, n, false); }
        if o != Done { return; }
        SameViewTwice(m0, m1, View());
        AccessedRest(m0, m1, a, i, false);
        OneMoreAccessed(m0, m1, View(), a, i, (a + i) / size, false);
        SameBytes(m0, m1, current, a + i);
        data := data + [v];
        i := i + 1;
      }
      AllAccessed(m0, View(), View(), a, n, false);
      o := Done;
    }
  }
}
