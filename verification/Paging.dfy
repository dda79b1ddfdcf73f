/** Paging: frames, page tables, and the software TLB, which copies frames in and out of the
    virtual address space. */
module Paging {
  /** Contents of a page. */
  type Page = seq<int>

  datatype Prot = Prot(r: bool, w: bool, x: bool)

  const NONE: Prot := Prot(false, false, false)

  /** A TLB entry; unused if phys is negative. Pages count from the start of the virtual range. */
  datatype Entry = Entry(virt: nat, phys: int, prot: Prot)

  const UNUSED: Entry := Entry(0, -1, NONE)

  /** A segment of an executable: its first page, its pages, how many of them are in the file. */
  datatype Segment = Segment(first: nat, npages: nat, nblocks: nat, prot: Prot)

  /** An executable: segments, the page of the file where they start, and the file's pages. */
  datatype Exec = Exec(segments: seq<Segment>, offset: nat, file: seq<Page>)

  /** Page tables by process slot; loading says which page's frame is still being filled, or -1. */
  datatype Mem = Mem(frames: seq<Page>, freeframes: seq<nat>, pages: seq<map<nat, nat>>, loading: seq<int>,
                     execs: seq<Exec>, live: set<nat>, vm: seq<Page>, access: seq<Prot>, tlb: seq<Entry>,
                     next: nat, current: nat, size: nat)

  /** Who holds a frame. */
  datatype Holder = Unheld | Held(slot: nat, page: nat)

  // ---- what a process sees ----

  function Zeros(n: nat): (z: Page)
    ensures |z| == n && forall i :: 0 <= i < n ==> z[i] == 0
  {
    seq(n, (i: nat) => 0)
  }

  function InSegment(s: Segment, page: nat): bool {
    s.first <= page < s.first + s.npages
  }

  /** The first segment with the page, from index i on, or -1. */
  function SegmentOf(segments: seq<Segment>, page: nat, i: nat): (r: int)
    requires i <= |segments|
    ensures -1 <= r < |segments| && (r >= 0 ==> InSegment(segments[r], page))
    decreases |segments| - i
  {
    if i == |segments| then -1 else if InSegment(segments[i], page) then i else SegmentOf(segments, page, i + 1)
  }

  /** Pages of the file before segment i. */
  function BlocksBefore(segments: seq<Segment>, i: nat): nat
    requires i <= |segments|
  {
    if i == 0 then 0 else BlocksBefore(segments, i - 1) + segments[i - 1].nblocks
  }

  /** What a page holds at first: its part of the executable, or zeros. */
  function Initial(e: Exec, page: nat, size: nat): Page {
    var i := SegmentOf(e.segments, page, 0);
    if i < 0 || page >= e.segments[i].first + e.segments[i].nblocks then Zeros(size)
    else
      var b := e.offset + BlocksBefore(e.segments, i) + (page - e.segments[i].first);
      if b < |e.file| then e.file[b] else Zeros(size)
  }

  /** The contents of page g of process s, wherever they are: not yet loaded, in the frame, or, if
      the page is mapped writable, in the virtual address space. */
  function Logical(m: Mem, s: nat, g: nat): Page
    requires s < |m.pages| == |m.loading| == |m.execs| && |m.vm| == |m.access|
  {
    if g !in m.pages[s] || m.loading[s] == g then Initial(m.execs[s], g, m.size)
    else if s == m.current && g < |m.access| && m.access[g].w then m.vm[g]
    else if m.pages[s][g] < |m.frames| then m.frames[m.pages[s][g]]
    else []
  }

  // ---- the invariant ----

  ghost predicate Sizes(m: Mem) {
    && |m.pages| == |m.loading| == |m.execs| && |m.vm| == |m.access| && m.current < |m.pages|
    && 0 < |m.tlb| && m.next < |m.tlb| && m.size > 0
    && (forall s :: s in m.live ==> s < |m.pages|)
    && (forall f :: 0 <= f < |m.frames| ==> |m.frames[f]| == m.size)
    && (forall g :: 0 <= g < |m.vm| ==> |m.vm[g]| == m.size)
    && (forall s :: 0 <= s < |m.execs| ==> Loadable(m.execs[s], m.size))
  }

  /** The file of an executable consists of whole pages. */
  predicate Loadable(e: Exec, size: nat) {
    forall b :: 0 <= b < |e.file| ==> |e.file[b]| == size
  }

  lemma InitialSize(e: Exec, page: nat, size: nat)
    requires Loadable(e, size)
    ensures |Initial(e, page, size)| == size
  {
  }

  /** A used entry maps a page of the current process to its frame; the page can be accessed as the
      entry says; unless it can be written, its contents are those of the frame. */
  ghost predicate EntryOk(m: Mem, i: nat)
    requires Sizes(m)
  {
    i < |m.tlb| && m.tlb[i].phys >= 0 ==>
      var e := m.tlb[i];
      && e.virt < |m.vm| && m.current in m.live && e.virt in m.pages[m.current] && m.pages[m.current][e.virt] == e.phys
      && e.phys < |m.frames| && m.loading[m.current] != e.virt
      && m.access[e.virt] == e.prot && e.prot.r
      && (!e.prot.w ==> m.vm[e.virt] == m.frames[e.phys])
  }

  /** Some entry maps the page. */
  ghost predicate Mapped(m: Mem, g: nat) {
    exists i :: 0 <= i < |m.tlb| && m.tlb[i].phys >= 0 && m.tlb[i].virt == g
  }

  ghost predicate TlbOk(m: Mem)
    requires Sizes(m)
  {
    && (forall i: nat :: EntryOk(m, i))
    && (forall i, j :: 0 <= i < j < |m.tlb| && m.tlb[i].phys >= 0 && m.tlb[j].phys >= 0 ==> m.tlb[i].virt != m.tlb[j].virt)
    && (forall g: nat :: g < |m.access| && !Mapped(m, g) ==> m.access[g] == NONE)
  }

  /** Every frame is free, once, or held by exactly one page of one live process. */
  ghost predicate FramesOk(m: Mem, own: seq<Holder>)
    requires Sizes(m)
  {
    && |own| == |m.frames|
    && (forall i, j :: 0 <= i < j < |m.freeframes| ==> m.freeframes[i] != m.freeframes[j])
    && (forall f: nat :: f in m.freeframes <==> f < |own| && own[f] == Unheld)
    && (forall s, g :: s in m.live && g in m.pages[s] ==> g < |m.vm| && m.pages[s][g] < |own| && own[m.pages[s][g]] == Held(s, g))
    && (forall f :: 0 <= f < |own| && own[f].Held? ==>
          own[f].slot in m.live && own[f].page in m.pages[own[f].slot] && m.pages[own[f].slot][own[f].page] == f)
  }

  ghost predicate MemOk(m: Mem, own: seq<Holder>) {
    Sizes(m) && TlbOk(m) && FramesOk(m, own)
  }

  /** All live processes see what they saw. */
  ghost predicate SameView(m: Mem, m': Mem)
    requires Sizes(m) && Sizes(m')
  {
    && m'.live == m.live && |m'.pages| == |m.pages| && m'.size == m.size
    && forall s, g :: s in m.live ==> Logical(m', s, g) == Logical(m, s, g)
  }

  // ---- writing back and dropping entries ----

  /** tlb_sync_entry */
  function Sync(m: Mem, i: nat): Mem
    requires i < |m.tlb|
  {
    var e := m.tlb[i];
    if !e.prot.w || e.virt >= |m.vm| || !(0 <= e.phys < |m.frames|) then m
    else
      var m1 := if !e.prot.r && e.virt < |m.access| then m.(access := m.access[e.virt := Prot(true, false, false)]) else m;
      m1.(frames := m1.frames[e.phys := m1.vm[e.virt]])
  }

  /** tlb_flush_entry */
  function FlushEntry(m: Mem, i: nat): Mem
    requires i < |m.tlb|
  {
    if m.tlb[i].phys < 0 then m
    else
      var m1 := Sync(m, i);
      var m2 := if m.tlb[i].virt < |m1.access| then m1.(access := m1.access[m.tlb[i].virt := NONE]) else m1;
      m2.(tlb := m2.tlb[i := UNUSED])
  }

  /** Frames depend on the page tables and the free list only. */
  lemma FramesSame(m: Mem, m': Mem, own: seq<Holder>)
    requires Sizes(m) && Sizes(m') && FramesOk(m, own)
    requires m'.freeframes == m.freeframes && m'.pages == m.pages && m'.live == m.live && |m'.vm| == |m.vm|
    requires |m'.frames| == |m.frames|
    ensures FramesOk(m', own)
  {
  }

  /** The frame written back belongs to the page only. */
  lemma HolderOf(m: Mem, own: seq<Holder>, i: nat, s: nat, g: nat)
    requires MemOk(m, own) && i < |m.tlb| && m.tlb[i].phys >= 0 && s in m.live && g in m.pages[s]
    ensures m.pages[s][g] == m.tlb[i].phys <==> s == m.current && g == m.tlb[i].virt
  {
    assert EntryOk(m, i);
  }

  lemma SyncOk(m: Mem, own: seq<Holder>, i: nat)
    requires MemOk(m, own) && i < |m.tlb| && m.tlb[i].phys >= 0
    ensures MemOk(Sync(m, i), own) && SameView(m, Sync(m, i))
    ensures var m', e := Sync(m, i), m.tlb[i];
      e.phys < |m'.frames| && e.virt < |m.vm| && (e.prot.w ==> m'.frames[e.phys] == m.vm[e.virt])
  {
    var m', e := Sync(m, i), m.tlb[i];
    assert EntryOk(m, i);
    forall j: nat ensures EntryOk(m', j) {
      assert EntryOk(m, j);
      if j < |m.tlb| && m.tlb[j].phys >= 0 && j != i { HolderOf(m, own, i, m.current, m.tlb[j].virt); }
    }
    SyncMapped(m, i);
    forall s, g | s in m.live ensures Logical(m', s, g) == Logical(m, s, g) {
      if g in m.pages[s] { HolderOf(m, own, i, s, g); }
    }
  }

  lemma SyncMapped(m: Mem, i: nat)
    requires i < |m.tlb|
    ensures Sync(m, i).tlb == m.tlb && forall g: nat :: Mapped(Sync(m, i), g) == Mapped(m, g)
  {
  }

  /** Dropping an entry loses nothing. */
  lemma FlushEntryOk(m: Mem, own: seq<Holder>, i: nat)
    requires MemOk(m, own) && i < |m.tlb|
    ensures MemOk(FlushEntry(m, i), own) && SameView(m, FlushEntry(m, i))
    ensures FlushEntry(m, i).tlb[i].phys < 0
    ensures forall j :: 0 <= j < |m.tlb| && j != i ==> FlushEntry(m, i).tlb[j] == m.tlb[j]
  {
    if m.tlb[i].phys >= 0 {
      assert EntryOk(m, i);
      SyncOk(m, own, i);
      SyncMapped(m, i);
      hide TlbOk, FramesOk, EntryOk, Logical, Sync;
      DropOk(Sync(m, i), own, i);
      SameViewTwice(m, Sync(m, i), FlushEntry(m, i));
    }
  }

  lemma MappedStill(m: Mem, m': Mem, i: nat, g: nat)
    requires i < |m.tlb| == |m'.tlb| && m.tlb[i].virt != g
    requires forall j :: 0 <= j < |m.tlb| && j != i ==> m'.tlb[j] == m.tlb[j]
    ensures Mapped(m, g) ==> Mapped(m', g)
  {
    if Mapped(m, g) {
      var j :| 0 <= j < |m.tlb| && m.tlb[j].phys >= 0 && m.tlb[j].virt == g;
      assert m'.tlb[j] == m.tlb[j];
    }
  }

  /** An entry whose page, if writable, has been written back can go. */
  lemma DropOk(m: Mem, own: seq<Holder>, i: nat)
    requires MemOk(m, own) && i < |m.tlb| && m.tlb[i].phys >= 0
    requires m.tlb[i].virt < |m.access| && m.tlb[i].phys < |m.frames|
    requires m.tlb[i].prot.w ==> m.frames[m.tlb[i].phys] == m.vm[m.tlb[i].virt]
    ensures var m' := m.(access := m.access[m.tlb[i].virt := NONE], tlb := m.tlb[i := UNUSED]);
      MemOk(m', own) && SameView(m, m')
  {
    var e := m.tlb[i];
    var m' := m.(access := m.access[e.virt := NONE], tlb := m.tlb[i := UNUSED]);
    assert EntryOk(m, i);
    FramesSame(m, m', own);
    hide FramesOk, Initial;
    DropEntry(m, m', i);
    forall s, g | s in m.live ensures Logical(m', s, g) == Logical(m, s, g) {
    }
  }

  lemma DropEntry(m: Mem, m': Mem, i: nat)
    requires Sizes(m) && TlbOk(m) && i < |m.tlb| && m.tlb[i].phys >= 0 && m.tlb[i].virt < |m.access|
    requires m' == m.(access := m.access[m.tlb[i].virt := NONE], tlb := m.tlb[i := UNUSED])
    ensures Sizes(m') && TlbOk(m')
  {
    assert EntryOk(m, i);
    forall j: nat ensures EntryOk(m', j) {
      assert EntryOk(m, j);
    }
    forall g: nat | g < |m'.access| && !Mapped(m', g) ensures m'.access[g] == NONE {
      if g != m.tlb[i].virt { MappedStill(m, m', i, g); }
    }
  }

  /** tlb_flush, from entry i on */
  function Flush(m: Mem, i: nat): (m': Mem)
    requires i <= |m.tlb|
    ensures |m'.tlb| == |m.tlb|
    decreases |m.tlb| - i
  {
    if i == |m.tlb| then m else Flush(FlushEntry(m, i), i + 1)
  }

  /** tlb_sync, from entry i on */
  function SyncAll(m: Mem, i: nat): (m': Mem)
    requires i <= |m.tlb|
    ensures |m'.tlb| == |m.tlb|
    decreases |m.tlb| - i
  {
    if i == |m.tlb| then m else SyncAll(if m.tlb[i].phys >= 0 then Sync(m, i) else m, i + 1)
  }

  /** tlb_unmap, from entry i on */
  function Unmap(m: Mem, g: nat, i: nat): (m': Mem)
    requires i <= |m.tlb|
    ensures |m'.tlb| == |m.tlb|
    decreases |m.tlb| - i
  {
    if i == |m.tlb| then m else Unmap(if m.tlb[i].virt == g then FlushEntry(m, i) else m, g, i + 1)
  }

  ghost predicate NoneUsed(m: Mem, i: nat) {
    forall j :: 0 <= j < i && j < |m.tlb| ==> m.tlb[j].phys < 0
  }

  ghost predicate NoneOf(m: Mem, g: nat, i: nat) {
    forall j :: 0 <= j < i && j < |m.tlb| && m.tlb[j].phys >= 0 ==> m.tlb[j].virt != g
  }

  /** Parts of the memory that TLB operations leave alone. */
  ghost predicate SameTables(m: Mem, m': Mem) {
    && m'.freeframes == m.freeframes && m'.pages == m.pages && m'.loading == m.loading && m'.execs == m.execs
    && m'.live == m.live && |m'.vm| == |m.vm| && m'.vm == m.vm && m'.next == m.next && m'.current == m.current && |m'.frames| == |m.frames|
    && m'.size == m.size
  }

  lemma FlushEntryTables(m: Mem, i: nat)
    requires i < |m.tlb|
    ensures SameTables(m, FlushEntry(m, i)) && SameTables(m, Sync(m, i))
    ensures |FlushEntry(m, i).tlb| == |Sync(m, i).tlb| == |m.tlb|
  {
  }

  lemma SameViewTwice(m: Mem, m1: Mem, m2: Mem)
    requires Sizes(m) && Sizes(m1) && Sizes(m2) && SameView(m, m1) && SameView(m1, m2)
    ensures SameView(m, m2)
  {
  }

  /** Flushing the TLB loses nothing, and leaves nothing mapped. */
  lemma {:induction false} FlushOk(m: Mem, own: seq<Holder>, i: nat)
    requires MemOk(m, own) && i <= |m.tlb| && NoneUsed(m, i)
    ensures MemOk(Flush(m, i), own) && SameView(m, Flush(m, i))
    ensures NoneUsed(Flush(m, i), |m.tlb|) && SameTables(m, Flush(m, i))
    decreases |m.tlb| - i
  {
    hide TlbOk, FramesOk, FlushEntry, SameView;
    if i < |m.tlb| {
      FlushEntryOk(m, own, i);
      FlushEntryTables(m, i);
      FlushOk(FlushEntry(m, i), own, i + 1);
      SameViewTwice(m, FlushEntry(m, i), Flush(m, i));
    } else {
      ViewItself(m);
    }
  }

  lemma ViewItself(m: Mem)
    requires Sizes(m)
    ensures SameView(m, m)
  {
  }

  lemma {:induction false} SyncAllOk(m: Mem, own: seq<Holder>, i: nat)
    requires MemOk(m, own) && i <= |m.tlb|
    ensures MemOk(SyncAll(m, i), own) && SameView(m, SyncAll(m, i))
    decreases |m.tlb| - i
  {
    hide TlbOk, FramesOk, Sync, SameView;
    ViewItself(m);
    if i < |m.tlb| {
      if m.tlb[i].phys >= 0 { SyncOk(m, own, i); }
      var m1 := if m.tlb[i].phys >= 0 then Sync(m, i) else m;
      FlushEntryTables(m, i);
      SyncMapped(m, i);
      SyncAllOk(m1, own, i + 1);
      SameViewTwice(m, m1, SyncAll(m, i));
    }
  }

  lemma {:induction false} UnmapOk(m: Mem, own: seq<Holder>, g: nat, i: nat)
    requires MemOk(m, own) && i <= |m.tlb| && NoneOf(m, g, i)
    ensures MemOk(Unmap(m, g, i), own) && SameView(m, Unmap(m, g, i))
    ensures NoneOf(Unmap(m, g, i), g, |m.tlb|) && SameTables(m, Unmap(m, g, i))
    decreases |m.tlb| - i
  {
    hide TlbOk, FramesOk, FlushEntry, SameView;
    ViewItself(m);
    if i < |m.tlb| {
      if m.tlb[i].virt == g {
        FlushEntryOk(m, own, i);
        FlushEntryTables(m, i);
      }
      var m1 := if m.tlb[i].virt == g then FlushEntry(m, i) else m;
      UnmapOk(m1, own, g, i + 1);
      SameViewTwice(m, m1, Unmap(m, g, i));
    }
  }

  // ---- mapping ----

  /** tlb_map */
  function Map(m: Mem, i: nat, g: nat, f: nat, prot: Prot): Mem
    requires i < |m.tlb| && g < |m.vm| == |m.access| && f < |m.frames|
  {
    var m1 := FlushEntry(m, i);
    if f >= |m1.frames| || g >= |m1.vm| || g >= |m1.access| || i >= |m1.tlb| then m1
    else m1.(tlb := m1.tlb[i := Entry(g, f, prot)], vm := m1.vm[g := m1.frames[f]], access := m1.access[g := prot])
  }

  /** Mapping a page that no other entry maps shows the process what it saw. */
  lemma MapOk(m: Mem, own: seq<Holder>, i: nat, g: nat, prot: Prot)
    requires MemOk(m, own) && i < |m.tlb| && m.current in m.live && g in m.pages[m.current] && g < |m.vm|
    requires m.loading[m.current] != g && prot.r
    requires forall j :: 0 <= j < |m.tlb| && j != i && m.tlb[j].phys >= 0 ==> m.tlb[j].virt != g
    ensures m.pages[m.current][g] < |m.frames|
    ensures var m' := Map(m, i, g, m.pages[m.current][g], prot);
      MemOk(m', own) && SameView(m, m') && m'.access[g] == prot && |m'.tlb| == |m.tlb|
  {
    FlushEntryOk(m, own, i);
    FlushEntryTables(m, i);
    MapRest(m, FlushEntry(m, i), own, i, g, prot);
  }

  lemma MapRest(m0: Mem, m: Mem, own: seq<Holder>, i: nat, g: nat, prot: Prot)
    requires Sizes(m0) && MemOk(m, own) && SameView(m0, m) && i < |m.tlb| && m.tlb[i].phys < 0
    requires m.current in m.live && g in m.pages[m.current] && g < |m.vm| && m.loading[m.current] != g && prot.r
    requires forall j :: 0 <= j < |m.tlb| && m.tlb[j].phys >= 0 ==> m.tlb[j].virt != g
    requires m.pages[m.current][g] < |m.frames|
    ensures var f := m.pages[m.current][g];
      var m' := m.(tlb := m.tlb[i := Entry(g, f, prot)], vm := m.vm[g := m.frames[f]], access := m.access[g := prot]);
      MemOk(m', own) && SameView(m0, m')
  {
    var f := m.pages[m.current][g];
    var m' := m.(tlb := m.tlb[i := Entry(g, f, prot)], vm := m.vm[g := m.frames[f]], access := m.access[g := prot]);
    assert !Mapped(m, g);
    FramesSame(m, m', own);
    hide FramesOk, Initial;
    forall j: nat ensures EntryOk(m', j) {
      assert EntryOk(m, j);
    }
    forall h: nat | h < |m'.access| && !Mapped(m', h) ensures m'.access[h] == NONE {
      assert m'.tlb[i].virt == g;
      MappedOther(m, m', i, h);
    }
    forall s, h | s in m.live ensures Logical(m', s, h) == Logical(m, s, h) {
    }
  }

  lemma MappedOther(m: Mem, m': Mem, i: nat, h: nat)
    requires i < |m.tlb| == |m'.tlb| && m.tlb[i].phys < 0
    requires forall j :: 0 <= j < |m.tlb| && j != i ==> m'.tlb[j] == m.tlb[j]
    ensures Mapped(m, h) ==> Mapped(m', h)
  {
    if Mapped(m, h) {
      var j :| 0 <= j < |m.tlb| && m.tlb[j].phys >= 0 && m.tlb[j].virt == h;
      assert m'.tlb[j] == m.tlb[j];
    }
  }

  // ---- a store ----

  function StoreAt(m: Mem, g: nat, off: nat, v: int): Mem
    requires g < |m.vm| && off < |m.vm[g]|
  {
    m.(vm := m.vm[g := m.vm[g][off := v]])
  }

  /** A store through a writable mapping changes that byte of that page of the process, and nothing
      else that any process sees. */
  lemma StoreOk(m: Mem, own: seq<Holder>, g: nat, off: nat, v: int)
    requires MemOk(m, own) && g < |m.vm| && m.access[g].w && off < |m.vm[g]|
    ensures m.current in m.live && Logical(m, m.current, g) == m.vm[g]
    ensures var m' := StoreAt(m, g, off, v);
      && MemOk(m', own) && m'.live == m.live
      && Logical(m', m.current, g) == Logical(m, m.current, g)[off := v]
      && forall s, h :: s in m.live && (s != m.current || h != g) ==> Logical(m', s, h) == Logical(m, s, h)
  {
    var m' := StoreAt(m, g, off, v);
    var i :| 0 <= i < |m.tlb| && m.tlb[i].phys >= 0 && m.tlb[i].virt == g;
    assert EntryOk(m, i);
    FramesSame(m, m', own);
    hide FramesOk, Initial;
    forall j: nat ensures EntryOk(m', j) {
      assert EntryOk(m, j);
    }
    forall h: nat | h < |m'.access| && !Mapped(m', h) ensures m'.access[h] == NONE {
      assert Mapped(m', h) == Mapped(m, h);
    }
  }

  /** What a mapped page holds is what the process should see. */
  lemma LoadOk(m: Mem, own: seq<Holder>, g: nat)
    requires MemOk(m, own) && g < |m.vm| && m.access[g].r
    ensures m.current in m.live && m.vm[g] == Logical(m, m.current, g)
  {
    var i :| 0 <= i < |m.tlb| && m.tlb[i].phys >= 0 && m.tlb[i].virt == g;
    assert EntryOk(m, i);
  }

  // ---- switching, and starting a new process ----

  /** proc_after_switch: with the TLB flushed, the CPU may go to any process. */
  lemma SwitchOk(m: Mem, own: seq<Holder>, s: nat)
    requires MemOk(m, own) && NoneUsed(m, |m.tlb|) && s < |m.pages|
    ensures MemOk(m.(current := s), own) && SameView(m, m.(current := s))
  {
    var m' := m.(current := s);
    forall j: nat ensures EntryOk(m', j) { }
    forall h: nat | h < |m'.access| && !Mapped(m', h) ensures m'.access[h] == NONE {
      assert Mapped(m', h) == Mapped(m, h);
    }
    forall s', g: nat | s' in m.live ensures Logical(m', s', g) == Logical(m, s', g) {
      if g < |m.access| { assert !Mapped(m, g); }
    }
  }

  /** A page that process s has never touched shows what the process before it holds there. */
  ghost predicate Leaks(m: Mem, s: nat, g: nat)
    requires Sizes(m) && s < |m.pages|
  {
    g < |m.vm| && g !in m.pages[s] && m.access[g].r && m.current in m.live && m.vm[g] == Logical(m, m.current, g)
  }

  /** ctx_entry starts a new process without flushing the TLB. That is in order exactly if nothing
      was mapped; otherwise the new process can read a page of the one before it. */
  lemma StartExactly(m: Mem, own: seq<Holder>, s: nat)
    requires MemOk(m, own) && s in m.live && m.pages[s] == map[] && s != m.current
    ensures MemOk(m.(current := s), own) <==> NoneUsed(m, |m.tlb|)
    ensures NoneUsed(m, |m.tlb|) <==> !exists g: nat :: Leaks(m, s, g)
  {
    var m' := m.(current := s);
    if NoneUsed(m, |m.tlb|) {
      SwitchOk(m, own, s);
      forall g: nat | g < |m.access| ensures !Leaks(m, s, g) {
        assert !Mapped(m, g);
      }
    } else {
      var i :| 0 <= i < |m.tlb| && m.tlb[i].phys >= 0;
      assert EntryOk(m, i);
      assert !EntryOk(m', i);
      LoadOk(m, own, m.tlb[i].virt);
      assert Leaks(m, s, m.tlb[i].virt);
    }
  }

  // ---- frames ----

  function WithPage(pt: map<nat, nat>, g: nat, f: nat): map<nat, nat> {
    pt[g := f]
  }

  /** proc_frame_alloc, for a page of the current process; its frame is yet to be filled. */
  function AllocFrame(m: Mem, g: nat): Mem
    requires m.freeframes != [] && m.current < |m.pages| && m.current < |m.loading|
  {
    m.(freeframes := m.freeframes[1..], pages := m.pages[m.current := WithPage(m.pages[m.current], g, m.freeframes[0])],
       loading := m.loading[m.current := g])
  }

  lemma AllocFrameOk(m: Mem, own: seq<Holder>, g: nat)
    requires MemOk(m, own) && m.freeframes != [] && m.current in m.live && g !in m.pages[m.current] && g < |m.vm|
    requires m.loading[m.current] < 0
    ensures m.freeframes[0] < |own|
    ensures var m' := AllocFrame(m, g);
      MemOk(m', own[m.freeframes[0] := Held(m.current, g)]) && SameView(m, m')
  {
    var m', f := AllocFrame(m, g), m.freeframes[0];
    assert f in m.freeframes;
    forall j: nat ensures EntryOk(m', j) {
      assert EntryOk(m, j);
    }
    forall h: nat | h < |m'.access| && !Mapped(m', h) ensures m'.access[h] == NONE {
      assert Mapped(m', h) == Mapped(m, h);
    }
    AllocOwned(m, own, g);
  }

  lemma AllocOwned(m: Mem, own: seq<Holder>, g: nat)
    requires Sizes(m) && FramesOk(m, own) && m.freeframes != [] && m.current in m.live && g !in m.pages[m.current]
    requires g < |m.vm|
    requires m.freeframes[0] < |own|
    ensures Sizes(AllocFrame(m, g)) && FramesOk(AllocFrame(m, g), own[m.freeframes[0] := Held(m.current, g)])
  {
    var m', f := AllocFrame(m, g), m.freeframes[0];
    var own' := own[f := Held(m.current, g)];
    forall e: nat ensures e in m'.freeframes <==> e < |own'| && own'[e] == Unheld {
      assert e in m.freeframes <==> e == f || e in m.freeframes[1..];
    }
  }

  /** frame_init: the frame gets the page's first contents. */
  function FillFrame(m: Mem): Mem
    requires m.current < |m.pages| == |m.loading| == |m.execs|
  {
    if m.loading[m.current] < 0 || m.loading[m.current] !in m.pages[m.current] then m
    else
      var g: nat := m.loading[m.current];
      var f := m.pages[m.current][g];
      var m1 := m.(loading := m.loading[m.current := -1]);
      if f < |m.frames| then m1.(frames := m.frames[f := Initial(m.execs[m.current], g, m.size)]) else m1
  }

  lemma FillFrameOk(m: Mem, own: seq<Holder>)
    requires MemOk(m, own) && m.current in m.live && m.loading[m.current] >= 0
    requires m.loading[m.current] in m.pages[m.current]
    ensures var m' := FillFrame(m);
      && MemOk(m', own) && SameView(m, m') && m'.loading[m.current] < 0 && m'.pages == m.pages && m'.current == m.current
      && m'.tlb == m.tlb && |m'.vm| == |m.vm| && m'.next == m.next && m'.execs == m.execs
  {
    var m' := FillFrame(m);
    var g: nat := m.loading[m.current];
    InitialSize(m.execs[m.current], g, m.size);
    var f := m.pages[m.current][g];
    assert own[f] == Held(m.current, g);
    forall j: nat ensures EntryOk(m', j) {
      assert EntryOk(m, j);
      if j < |m.tlb| && m.tlb[j].phys >= 0 { assert own[m.tlb[j].phys] == Held(m.current, m.tlb[j].virt); }
    }
    forall h: nat | h < |m'.access| && !Mapped(m', h) ensures m'.access[h] == NONE {
      assert Mapped(m', h) == Mapped(m, h);
    }
    NotMappedWhileLoading(m, own, g);
    forall s, h | s in m.live ensures Logical(m', s, h) == Logical(m, s, h) {
      if h in m.pages[s] { assert own[m.pages[s][h]] == Held(s, h); }
    }
  }

  lemma NotMappedWhileLoading(m: Mem, own: seq<Holder>, g: nat)
    requires MemOk(m, own) && m.loading[m.current] == g
    ensures g < |m.access| ==> m.access[g] == NONE
  {
    forall i: nat | i < |m.tlb| && m.tlb[i].phys >= 0 ensures m.tlb[i].virt != g {
      assert EntryOk(m, i);
    }
    assert !Mapped(m, g);
  }

  /** A new process: an empty page table (proc_alloc). */
  function NewSpace(m: Mem, s: nat, e: Exec): Mem
    requires s < |m.pages| == |m.loading| == |m.execs|
  {
    m.(pages := m.pages[s := map[]], loading := m.loading[s := -1], execs := m.execs[s := e], live := m.live + {s})
  }

  lemma NewSpaceOk(m: Mem, own: seq<Holder>, s: nat, e: Exec)
    requires MemOk(m, own) && s < |m.pages| && s !in m.live && s != m.current && Loadable(e, m.size)
    ensures var m' := NewSpace(m, s, e);
      && MemOk(m', own)
      && (forall g :: Logical(m', s, g) == Initial(e, g, m.size))
      && forall s', g :: s' in m.live ==> Logical(m', s', g) == Logical(m, s', g)
  {
    var m' := NewSpace(m, s, e);
    forall j: nat ensures EntryOk(m', j) {
      assert EntryOk(m, j);
    }
    forall h: nat | h < |m'.access| && !Mapped(m', h) ensures m'.access[h] == NONE {
      assert Mapped(m', h) == Mapped(m, h);
    }
    NewSpaceOwned(m, own, s, e);
  }

  lemma NewSpaceOwned(m: Mem, own: seq<Holder>, s: nat, e: Exec)
    requires Sizes(m) && FramesOk(m, own) && s < |m.pages| && s !in m.live && Loadable(e, m.size)
    ensures Sizes(NewSpace(m, s, e)) && FramesOk(NewSpace(m, s, e), own)
  {
  }

  // ---- the end of an address space ----

  function From(pt: map<nat, nat>, k: nat): map<nat, nat> {
    map g | g in pt && g >= k :: pt[g]
  }

  /** The memory, with the pages of process s below k regarded as gone. */
  ghost function Trimmed(m: Mem, s: nat, k: nat): Mem
    requires s < |m.pages|
  {
    m.(pages := m.pages[s := From(m.pages[s], k)])
  }

  /** One page of proc_term's loop: it is unmapped, and its frame given back. */
  function ReleasePage(m: Mem, s: nat, k: nat): (m': Mem)
    requires s < |m.pages|
    ensures |m'.tlb| == |m.tlb|
  {
    if k !in m.pages[s] then m
    else
      var m1 := Unmap(m, k, 0);
      m1.(freeframes := m1.freeframes + [m.pages[s][k]])
  }

  lemma {:induction false} UnmapPages(m: Mem, g: nat, i: nat, pages: seq<map<nat, nat>>)
    requires i <= |m.tlb|
    ensures Unmap(m.(pages := pages), g, i) == Unmap(m, g, i).(pages := pages)
    decreases |m.tlb| - i
  {
    if i < |m.tlb| { UnmapPages(if m.tlb[i].virt == g then FlushEntry(m, i) else m, g, i + 1, pages); }
  }

  lemma ReleasePageOk(m: Mem, own: seq<Holder>, s: nat, k: nat) returns (own': seq<Holder>)
    requires s < |m.pages| && MemOk(Trimmed(m, s, k), own) && s in m.live
    ensures var m' := ReleasePage(m, s, k);
      && m'.pages == m.pages && MemOk(Trimmed(m', s, k + 1), own') && m'.live == m.live && m'.current == m.current && |m'.vm| == |m.vm|
      && forall s', g :: s' in m.live && s' != s ==> Logical(Trimmed(m', s, k + 1), s', g) == Logical(Trimmed(m, s, k), s', g)
  {
    own' := own;
    var t := Trimmed(m, s, k);
    if k !in m.pages[s] {
      assert From(m.pages[s], k + 1) == From(m.pages[s], k);
    } else {
      UnmapPages(m, k, 0, t.pages);
      UnmapOk(t, own, k, 0);
      var t1 := Unmap(t, k, 0);
      var f := m.pages[s][k];
      assert t.pages[s][k] == f;
      own' := own[f := Unheld];
      UnmapKeeps(m, k, 0);
      var m' := ReleasePage(m, s, k);
      assert Trimmed(m', s, k + 1) == Dropped(t1, s, k) by { assert From(m.pages[s], k + 1) == From(m.pages[s], k) - {k}; }
      DropPage(t1, own, s, k);
    }
  }

  lemma {:induction false} UnmapKeeps(m: Mem, g: nat, i: nat)
    requires i <= |m.tlb|
    ensures SameTables(m, Unmap(m, g, i))
    decreases |m.tlb| - i
  {
    if i < |m.tlb| {
      FlushEntryTables(m, i);
      UnmapKeeps(if m.tlb[i].virt == g then FlushEntry(m, i) else m, g, i + 1);
    }
  }

  ghost function Dropped(m: Mem, s: nat, k: nat): Mem
    requires s < |m.pages| && k in m.pages[s]
  {
    m.(pages := m.pages[s := m.pages[s] - {k}], freeframes := m.freeframes + [m.pages[s][k]])
  }

  /** A page that is not mapped can go; its frame becomes free. */
  lemma DropPage(m: Mem, own: seq<Holder>, s: nat, k: nat)
    requires MemOk(m, own) && s in m.live && k in m.pages[s] && NoneOf(m, k, |m.tlb|)
    ensures m.pages[s][k] < |own|
    ensures var m' := Dropped(m, s, k);
      && MemOk(m', own[m.pages[s][k] := Unheld])
      && forall s', g :: s' in m.live && s' != s ==> Logical(m', s', g) == Logical(m, s', g)
  {
    var m', f := Dropped(m, s, k), m.pages[s][k];
    var own' := own[f := Unheld];
    forall j: nat ensures EntryOk(m', j) {
      assert EntryOk(m, j);
    }
    forall h: nat | h < |m'.access| && !Mapped(m', h) ensures m'.access[h] == NONE {
      assert Mapped(m', h) == Mapped(m, h);
    }
    assert f !in m.freeframes;
    forall e: nat ensures e in m'.freeframes <==> e < |own'| && own'[e] == Unheld {
      assert e in m'.freeframes <==> e == f || e in m.freeframes;
    }
  }

  function Dead(m: Mem, s: nat): Mem {
    m.(live := m.live - {s})
  }

  lemma DeadOk(m: Mem, own: seq<Holder>, s: nat)
    requires s < |m.pages| && MemOk(Trimmed(m, s, |m.vm|), own) && s in m.live
    ensures MemOk(Dead(m, s), own)
    ensures forall s', g :: s' in Dead(m, s).live ==> Logical(Dead(m, s), s', g) == Logical(Trimmed(m, s, |m.vm|), s', g)
  {
    var m', t := Dead(m, s), Trimmed(m, s, |m.vm|);
    forall g ensures g !in t.pages[s] {
      assert g in t.pages[s] ==> g < |m.vm|;
    }
    forall j: nat ensures EntryOk(m', j) {
      assert EntryOk(t, j);
    }
    forall h: nat | h < |m'.access| && !Mapped(m', h) ensures m'.access[h] == NONE {
      assert Mapped(m', h) == Mapped(t, h);
    }
    forall s', g | s' in m'.live && g in m'.pages[s']
      ensures g < |m'.vm| && m'.pages[s'][g] < |own| && own[m'.pages[s'][g]] == Held(s', g) {
      assert t.pages[s'] == m.pages[s'];
    }
  }
}
