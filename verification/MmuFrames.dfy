/** Which pages a process has touched, and how many frames that takes. */
module MmuFrames {
  import opened Radix
  import opened Paging

  /** Pages of process s that have a frame. */
  function PagesOf(m: Mem, s: nat): set<nat> {
    if s < |m.pages| then m.pages[s].Keys else {}
  }

  /** What an access to memory leaves alone. */
  ghost predicate SameRest(m: Mem, m': Mem) {
    && SameLoading(m, m') && m'.execs == m.execs && |m'.pages| == |m.pages|
    && |m'.vm| == |m.vm| && |m'.access| == |m.access| && m'.current == m.current && m'.size == m.size
  }

  /** The same processes are waiting for the same pages. */
  ghost predicate SameLoading(m: Mem, m': Mem) {
    && |m'.loading| == |m.loading|
    && forall s :: 0 <= s < |m.loading| ==> m'.loading[s] == m.loading[s] || (m'.loading[s] < 0 && m.loading[s] < 0)
  }

  ghost predicate SamePages(m: Mem, m': Mem) {
    SameRest(m, m') && m'.live == m.live && m'.pages == m.pages && |m'.freeframes| == |m.freeframes|
  }

  /** The current process now has the given pages, too; each that it did not have has cost a frame. */
  ghost predicate Took(m: Mem, m': Mem, pages: set<nat>) {
    && SameRest(m, m') && m'.live == m.live
    && (forall s: nat :: s != m.current ==> PagesOf(m', s) == PagesOf(m, s))
    && PagesOf(m', m.current) == PagesOf(m, m.current) + pages
    && |m'.freeframes| + |pages - PagesOf(m, m.current)| == |m.freeframes|
  }

  /** Process s has ended, and all its frames are free. */
  ghost predicate GaveBack(m: Mem, m': Mem, s: nat) {
    && SameRest(m, m') && m'.live == m.live - {s}
    && (forall s': nat :: s' != s ==> PagesOf(m', s') == PagesOf(m, s'))
    && |m'.freeframes| == |m.freeframes| + |PagesOf(m, s)|
  }

  lemma TookPresent(m: Mem, m': Mem, g: nat)
    requires SamePages(m, m') && g in PagesOf(m, m.current)
    ensures Took(m, m', {g})
  {
    assert {g} - PagesOf(m, m.current) == {};
  }

  lemma TookThenSame(m: Mem, m1: Mem, m2: Mem, pages: set<nat>)
    requires Took(m, m1, pages) && SamePages(m1, m2)
    ensures Took(m, m2, pages)
  {
  }

  lemma TookMore(m: Mem, m1: Mem, m2: Mem, pages: set<nat>, g: nat)
    requires Took(m, m1, pages) && Took(m1, m2, {g})
    ensures Took(m, m2, pages + {g})
  {
    OneMoreFetched(PagesOf(m, m.current), pages, g);
  }

  lemma OneMoreFetched(had: set<nat>, pages: set<nat>, g: nat)
    ensures |(pages + {g}) - had| == |pages - had| + |{g} - (had + pages)|
    ensures had + pages + {g} == had + (pages + {g})
  {
    if g in had + pages {
      assert {g} - (had + pages) == {};
      assert (pages + {g}) - had == pages - had;
    } else {
      assert {g} - (had + pages) == {g};
      assert (pages + {g}) - had == (pages - had) + {g};
    }
  }

  /** What was taken before the end is given back with the rest. */
  lemma TookThenGave(m: Mem, m1: Mem, m2: Mem, pages: set<nat>)
    requires Took(m, m1, pages) && GaveBack(m1, m2, m.current)
    ensures GaveBack(m, m2, m.current)
  {
    var had := PagesOf(m, m.current);
    assert had + pages == had + (pages - had);
    assert |had + pages| == |had| + |pages - had|;
  }

  // ---- pages of a range of addresses ----

  /** Pages of the n bytes from address a on. */
  function Touched(a: nat, n: nat, size: nat): set<nat>
    requires size > 0
  {
    if n == 0 then {} else Touched(a, n - 1, size) + {(a + n - 1) / size}
  }

  /** Pages of the range that exist and have no frame yet. */
  function Fetched(m: Mem, a: nat, n: nat): set<nat>
    requires m.size > 0
  {
    set g | g in Touched(a, n, m.size) && g < |m.vm| && g !in PagesOf(m, m.current)
  }

  /** Whether the range reaches beyond the last page. */
  predicate Beyond(m: Mem, a: nat, n: nat)
    requires m.size > 0
  {
    n > 0 && (a + n - 1) / m.size >= |m.vm|
  }

  lemma {:induction false} TouchedGrows(a: nat, k: nat, n: nat, size: nat)
    requires size > 0 && k <= n
    ensures Touched(a, k, size) <= Touched(a, n, size)
  {
    if k < n { TouchedGrows(a, k, n - 1, size); }
  }

  /** Pages touched after byte k are at least its page. */
  lemma {:induction false} TouchedLater(a: nat, k: nat, n: nat, size: nat, g: nat)
    requires size > 0 && k < n && g in Touched(a, n, size) && g !in Touched(a, k, size)
    ensures g >= (a + k) / size
  {
    DivMonotone(a + k, a + n - 1, size);
    if g != (a + n - 1) / size { TouchedLater(a, k, n - 1, size, g); }
  }

  lemma Subset(a: set<nat>, b: set<nat>)
    requires a <= b
    ensures |a| <= |b|
  {
    assert b == a + (b - a);
  }

  /** At byte k no frame was left. */
  lemma RanOut(m: Mem, m1: Mem, a: nat, k: nat, n: nat)
    requires m.size > 0 && k < n && Took(m, m1, Touched(a, k, m.size)) && m1.freeframes == []
    requires (a + k) / m.size < |m.vm| && (a + k) / m.size !in PagesOf(m1, m.current)
    requires forall g :: g in Touched(a, k, m.size) ==> g < |m.vm|
    ensures |Fetched(m, a, n)| > |m.freeframes|
  {
    var had, before, g := PagesOf(m, m.current), Touched(a, k, m.size), (a + k) / m.size;
    TouchedGrows(a, k + 1, n, m.size);
    assert Touched(a, k + 1, m.size) == before + {g};
    Subset((before - had) + {g}, Fetched(m, a, n));
  }

  /** Byte k was beyond the last page, and all before it had been fetched. */
  lemma RanPast(m: Mem, m1: Mem, a: nat, k: nat, n: nat)
    requires m.size > 0 && k < n && Took(m, m1, Touched(a, k, m.size))
    requires (a + k) / m.size >= |m.vm|
    requires forall g :: g in Touched(a, k, m.size) ==> g < |m.vm|
    ensures |Fetched(m, a, n)| <= |m.freeframes| && Beyond(m, a, n)
  {
    var had, before := PagesOf(m, m.current), Touched(a, k, m.size);
    forall g | g in Fetched(m, a, n) ensures g in before - had {
      if g !in before { TouchedLater(a, k, n, m.size, g); }
    }
    Subset(Fetched(m, a, n), before - had);
    DivMonotone(a + k, a + n - 1, m.size);
  }

  /** All bytes were in range, and their pages have frames now. */
  lemma RanThrough(m: Mem, m1: Mem, a: nat, n: nat)
    requires m.size > 0 && Took(m, m1, Touched(a, n, m.size))
    requires forall g :: g in Touched(a, n, m.size) ==> g < |m.vm|
    ensures |Fetched(m, a, n)| <= |m.freeframes| && !Beyond(m, a, n)
  {
    assert Fetched(m, a, n) == Touched(a, n, m.size) - PagesOf(m, m.current);
  }

  /** For one byte. */
  lemma OneByte(m: Mem, a: nat)
    requires m.size > 0
    ensures Touched(a, 1, m.size) == {a / m.size} && (Beyond(m, a, 1) <==> a / m.size >= |m.vm|)
    ensures |Fetched(m, a, 1)| > |m.freeframes| <==> a / m.size < |m.vm| && a / m.size !in PagesOf(m, m.current) && m.freeframes == []
  {
    var g := a / m.size;
    assert Touched(a, 1, m.size) == Touched(a, 0, m.size) + {g};
    if g < |m.vm| && g !in PagesOf(m, m.current) {
      assert Fetched(m, a, 1) == {g};
    } else {
      assert Fetched(m, a, 1) == {};
    }
  }

  // ---- pages of segments that may not be written ----

  /** Whether page g of an executable lies in a segment that may not be written. */
  predicate ReadOnlyIn(e: Exec, g: nat) {
    var es := SegmentOf(e.segments, g, 0);
    es >= 0 && !e.segments[es].prot.w
  }

  /** Such pages are mapped for writing only if they were, or are among the given ones. */
  ghost predicate Opened(m: Mem, m': Mem, pages: set<nat>)
    requires m.current < |m.execs|
  {
    && |m'.access| == |m.access|
    && forall g: nat :: g < |m.access| && m'.access[g].w && ReadOnlyIn(m.execs[m.current], g) ==> m.access[g].w || g in pages
  }

  lemma OpenedMore(m: Mem, m1: Mem, m2: Mem, pages: set<nat>, more: set<nat>)
    requires m.current < |m.execs| && SameRest(m, m1) && Opened(m, m1, pages) && Opened(m1, m2, more)
    ensures Opened(m, m2, pages + more)
  {
    hide ReadOnlyIn;
  }

  lemma NoneOpenedTwice(m: Mem, m1: Mem, m2: Mem)
    requires m.current < |m.execs| && SameRest(m, m1) && Opened(m, m1, {}) && Opened(m1, m2, {})
    ensures Opened(m, m2, {})
  {
    hide ReadOnlyIn;
  }

  lemma NoneOpened(m: Mem, m': Mem, pages: set<nat>)
    requires m.current < |m.execs| && Opened(m, m', pages)
    requires forall g :: g in pages ==> !ReadOnlyIn(m.execs[m.current], g)
    ensures Opened(m, m', {})
  {
    hide ReadOnlyIn;
  }

  /** No page has become writable. */
  ghost predicate NoMoreWritable(m: Mem, m': Mem) {
    |m'.access| == |m.access| && forall g :: 0 <= g < |m.access| && m'.access[g].w ==> m.access[g].w
  }

  /** No page has become accessible. */
  ghost predicate NoMoreMapped(m: Mem, m': Mem) {
    |m'.access| == |m.access| && forall g :: 0 <= g < |m.access| && m.access[g] == NONE ==> m'.access[g] == NONE
  }

  lemma NoneWritable(m: Mem, m': Mem)
    requires m.current < |m.execs| && NoMoreWritable(m, m')
    ensures Opened(m, m', {})
  {
    hide ReadOnlyIn;
  }

  // ---- the bytes of a range, one after the other ----

  /** The pages an access makes writable. */
  function Writable(pages: set<nat>, writing: bool): set<nat> {
    if writing then pages else {}
  }

  /** The first k bytes from address a on have been accessed. */
  ghost predicate Accessed(m: Mem, m': Mem, a: nat, k: nat, writing: bool)
    requires m.size > 0 && m.current < |m.execs|
  {
    && Took(m, m', Touched(a, k, m.size)) && Opened(m, m', Writable(Touched(a, k, m.size), writing))
    && forall g :: g in Touched(a, k, m.size) ==> g < |m.vm|
  }

  lemma NoneAccessed(m: Mem, a: nat, writing: bool)
    requires m.size > 0 && m.current < |m.execs|
    ensures Accessed(m, m, a, 0, writing)
  {
  }

  lemma OneMoreAccessed(m: Mem, m1: Mem, m2: Mem, a: nat, k: nat, g: nat, writing: bool)
    requires m.size > 0 && m.current < |m.execs| && Accessed(m, m1, a, k, writing) && (a + k) / m.size == g < |m.vm|
    requires m1.current < |m1.execs| && Took(m1, m2, {g}) && Opened(m1, m2, Writable({g}, writing))
    ensures Accessed(m, m2, a, k + 1, writing)
  {
    hide Opened;
    TookMore(m, m1, m2, Touched(a, k, m.size), g);
    OpenedMore(m, m1, m2, Writable(Touched(a, k, m.size), writing), Writable({g}, writing));
    assert Writable(Touched(a, k, m.size), writing) + Writable({g}, writing) == Writable(Touched(a, k + 1, m.size), writing);
  }

  lemma AccessedPast(m: Mem, m1: Mem, m2: Mem, a: nat, k: nat, n: nat, writing: bool)
    requires m.size > 0 && m.current < |m.execs| && Accessed(m, m1, a, k, writing) && (a + k) / m.size >= |m.vm|
    requires k < n
    requires GaveBack(m1, m2, m.current)
    ensures GaveBack(m, m2, m.current) && |Fetched(m, a, n)| <= |m.freeframes| && Beyond(m, a, n)
  {
    hide Opened, Fetched, Beyond, GaveBack;
    TookThenGave(m, m1, m2, Touched(a, k, m.size));
    RanPast(m, m1, a, k, n);
  }

  lemma AccessedNoMore(m: Mem, m1: Mem, a: nat, k: nat, n: nat, writing: bool)
    requires m.size > 0 && m.current < |m.execs| && Accessed(m, m1, a, k, writing) && (a + k) / m.size < |m.vm| && k < n
    requires m1.freeframes == [] && (a + k) / m.size !in PagesOf(m1, m.current)
    ensures |Fetched(m, a, n)| > |m.freeframes|
  {
    hide Opened, Fetched;
    RanOut(m, m1, a, k, n);
  }

  lemma AllAccessed(m: Mem, m1: Mem, m2: Mem, a: nat, n: nat, writing: bool)
    requires m.size > 0 && m.current < |m.execs| && Accessed(m, m1, a, n, writing) && SamePages(m1, m2)
    requires NoMoreWritable(m1, m2)
    ensures |Fetched(m, a, n)| <= |m.freeframes| && !Beyond(m, a, n)
    ensures Took(m, m2, Touched(a, n, m.size)) && Opened(m, m2, Writable(Touched(a, n, m.size), writing))
  {
    hide Fetched, Beyond, ReadOnlyIn;
    RanThrough(m, m1, a, n);
    TookThenSame(m, m1, m2, Touched(a, n, m.size));
  }

  lemma AccessedRest(m: Mem, m': Mem, a: nat, k: nat, writing: bool)
    requires m.size > 0 && m.current < |m.execs| && Accessed(m, m', a, k, writing)
    ensures SameRest(m, m') && m'.live == m.live
  {
  }
}
