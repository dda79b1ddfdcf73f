/** Whole runs of the allocator: what users stored is there until they free it. */
module TlsfRuns {
  import opened Radix
  import opened TlsfMap
  import opened TlsfLists
  import opened TlsfHeap
  import opened TlsfAreas
  import opened TlsfAllocator

  /** Users' blocks do not overlap, headers included. */
  lemma UsersDisjoint(m: Mem, x: Index, h: Heap, rank: Ranks, lo: nat, hi: nat, areas: seq<Area>, b: nat, c: nat)
    requires HeapInv(m, x, h, rank, lo, hi) && b in Users(h, areas) && c in Users(h, areas) && b < c
    ensures b + HDR + Users(h, areas)[b] <= c
  {
  }

  // ---- a new area between two old ones ----

  /** Two areas, each with one free block, and room for a third right between them. */
  function TwoAreas(): (r: (Heap, seq<Area>)) {
    (map[64 := Blk(16, false, 0), 96 := Blk(16, true, 64), 128 := Blk(0, false, 96),
         224 := Blk(16, false, 0), 256 := Blk(16, true, 224), 288 := Blk(0, false, 256)],
     [Area(64, 128), Area(224, 288)])
  }

  /** Their headers. */
  function TwoHeaders(): Mem {
    map[72 := 16, 104 := 17, 128 := 96, 136 := 2, 232 := 16, 264 := 17, 288 := 256, 296 := 2]
  }

  /** A heap in order for which add_new_area forgets that the block to the left is free, and leaves
      two free blocks side by side. */
  lemma ClobberExample() returns (m: Mem, x: Index, rank: Ranks)
    ensures var (h, areas) := TwoAreas();
      && HeapInv(m, x, h, rank, 64, 304) && AreasOk(h, areas)
      && Outside(h, 144, 80) && AreaFits(64, 304, 64, 304, 144, 80)
      && Clobbers(h, areas, AreaAt(144, 80))
  {
    var (h, areas) := TwoAreas();
    ExampleBlocks(h);
    m, x, rank := ExampleLists();
    ExampleHeaders(h, m);
    ExampleFree(h);
    hide *;
    ExampleAreas(h, areas);
    ExampleInv(m, x, h, rank);
  }

  lemma ExampleInv(m: Mem, x: Index, h: Heap, rank: Ranks)
    requires Tiled(h, 64, 304) && AllMerged(h) && Headers(m, h) && ListInv(m, x, FreeOf(h), rank)
    ensures HeapInv(m, x, h, rank, 64, 304)
  {
  }

  lemma ExampleAreas(h: Heap, areas: seq<Area>)
    requires (h, areas) == TwoAreas()
    ensures AreasOk(h, areas) && Outside(h, 144, 80) && AreaFits(64, 304, 64, 304, 144, 80)
    ensures Clobbers(h, areas, AreaAt(144, 80))
  {
    var n := AreaAt(144, 80);
    assert n == Area(144, 208);
    assert areas[0].end + HDR == n.start && areas[1].start == n.end + HDR && LeftFree(h, areas[0].end);
    forall i | 0 <= i < |areas| ensures AreaOk(h, areas[i]) {
      assert i == 0 || i == 1;
    }
  }

  /** Putting a block on a list, word by word. */
  lemma Listed(m: Mem, x: Index, f: Members, rank: Ranks, c: Class, b: nat)
    requires ListInv(m, x, f, rank) && InMatrix(c) && b !in f && b > 0 && Apart(f[b := c])
    ensures Shaped(x) && ListInv(InsertMem(m, x, c, b), InsertIndex(x, c, b), f[b := c], InsertRank(x, rank, c, b))
    ensures Shaped(InsertIndex(x, c, b)) && Head(InsertIndex(x, c, b), c) == b
    ensures forall a: nat :: a != b + 16 && a != b + 24 && a != Head(x, c) + 16 ==> Rd(InsertMem(m, x, c, b), a) == Rd(m, a)
  {
    InsertInv(m, x, f, rank, c, b);
    UsedExact(x, c, b);
  }

  lemma NoneListed(m: Mem)
    ensures ListInv(m, NoLists(), map[], map[]) && InMatrix(Class(0, 4)) && Head(NoLists(), Class(0, 4)) == 0
  {
    NoBlocks(m, 64, 304);
    assert FreeOf(map[]) == map[];
  }

  /** Both free blocks are on the list for 16 bytes. */
  lemma ExampleLists() returns (m: Mem, x: Index, rank: Ranks)
    ensures ListInv(m, x, map[96 := Class(0, 4), 256 := Class(0, 4)], rank)
    ensures forall a: nat :: a in TwoHeaders() ==> Rd(m, a) == TwoHeaders()[a]
  {
    hide ListInv, InsertMem, InsertIndex, InsertRank, NoLists, Shaped, InMatrix;
    var m0, x0, c := TwoHeaders(), NoLists(), Class(0, 4);
    var f0: Members, f1: Members := map[], map[96 := c];
    assert f0[96 := c] == f1 && f1[256 := c] == map[96 := Class(0, 4), 256 := Class(0, 4)];
    NoneListed(m0);
    Listed(m0, x0, f0, map[], c, 96);
    var m1, x1, r1 := InsertMem(m0, x0, c, 96), InsertIndex(x0, c, 96), InsertRank(x0, map[], c, 96);
    Listed(m1, x1, f1, r1, c, 256);
    m, x, rank := InsertMem(m1, x1, c, 256), InsertIndex(x1, c, 256), InsertRank(x1, r1, c, 256);
  }

  lemma ExampleFree(h: Heap)
    requires Example(h)
    ensures FreeOf(h) == map[96 := Class(0, 4), 256 := Class(0, 4)]
  {
    assert Insert(16) == Class(0, 4);
  }

  lemma ExampleHeaders(h: Heap, m: Mem)
    requires Example(h) && forall a: nat :: a in TwoHeaders() ==> Rd(m, a) == TwoHeaders()[a]
    ensures Headers(m, h)
  {
    assert Rd(m, 72) == 16 && Rd(m, 104) == 17 && Rd(m, 128) == 96 && Rd(m, 136) == 2;
    assert Rd(m, 232) == 16 && Rd(m, 264) == 17 && Rd(m, 288) == 256 && Rd(m, 296) == 2;
    forall b: nat ensures HeaderOk(m, h, b) {
    }
  }

  ghost predicate Example(h: Heap) {
    && (forall b :: b in h <==> b == 64 || b == 96 || b == 128 || b == 224 || b == 256 || b == 288)
    && h[64] == Blk(16, false, 0) && h[96] == Blk(16, true, 64) && h[128] == Blk(0, false, 96)
    && h[224] == Blk(16, false, 0) && h[256] == Blk(16, true, 224) && h[288] == Blk(0, false, 256)
  }

  lemma ExampleBlocks(h: Heap)
    requires h == TwoAreas().0
    ensures Tiled(h, 64, 304) && AllMerged(h) && Example(h)
  {
    assert Example(h);
    hide TwoAreas;
    ExampleInOrder(h);
  }

  lemma ExampleInOrder(h: Heap)
    requires Example(h)
    ensures Tiled(h, 64, 304) && AllMerged(h)
  {
    forall b: nat ensures BlkOk(h, 64, 304, b) {
    }
    forall b: nat ensures Merged(h, b) {
    }
  }

  // ---- runs ----

  datatype Call = Alloc(size: nat) | Release(ptr: nat) | Resize(ptr: nat, size: nat) | Store(ptr: nat, off: nat, v: nat)

  /** A user's block: the size asked for, and the words stored in it, by offset. */
  datatype Owned = Owned(size: nat, words: map<nat, nat>)

  /** The blocks users hold, by pointer. */
  type Stored = map<nat, Owned>

  /** All memory the calls could take, were no block ever used again. */
  function Costs(calls: seq<Call>): nat
    requires forall i :: 0 <= i < |calls| ==> Servable(calls[i])
  {
    if calls == [] then 0 else
      assert Servable(calls[|calls| - 1]);
      Costs(calls[..|calls| - 1]) + CostOf(calls[|calls| - 1])
  }

  predicate Servable(c: Call) {
    match c
    case Alloc(size) => InRange(size)
    case Resize(_, size) => InRange(size)
    case _ => true
  }

  function CostOf(c: Call): nat
    requires Servable(c)
  {
    match c
    case Alloc(size) => Taken(size)
    case Resize(_, size) => Taken(size)
    case _ => 0
  }

  /** A block's contents when it is made size bytes. */
  function Cropped(o: Owned, size: nat): Owned {
    Owned(size, map off | off in o.words && off + 8 <= size :: o.words[off])
  }

  /** Whether users may make the call: frees, resizes and stores need a pointer they hold. */
  predicate Allowed(s: Stored, c: Call) {
    match c
    case Alloc(_) => true
    case Release(ptr) => ptr == 0 || ptr in s
    case Resize(ptr, _) => ptr == 0 || ptr in s
    case Store(ptr, off, _) => ptr in s && off % 8 == 0 && off + 8 <= s[ptr].size
  }

  /** What users hold after an allowed call that returned q; other calls are not made. A null
      pointer means that no memory was found, and that nothing has changed. */
  function After(s: Stored, c: Call, q: nat): Stored {
    if !Allowed(s, c) then s else
      match c
      case Alloc(size) => if q == 0 then s else s[q := Owned(size, map[])]
      case Release(ptr) => s - {ptr}
      case Resize(ptr, size) =>
        if size == 0 then s - {ptr}
        else if q == 0 then s
        else (s - {ptr})[q := if ptr in s then Cropped(s[ptr], size) else Owned(size, map[])]
      case Store(ptr, off, v) =>
        var words: map<nat, nat> := s[ptr].words[off := v];
        s[ptr := s[ptr].(words := words)]
  }

  function Final(calls: seq<Call>, answers: seq<nat>): Stored
    requires |calls| == |answers|
  {
    if calls == [] then map[]
    else
      var n := |calls| - 1;
      After(Final(calls[..n], answers[..n]), calls[n], answers[n])
  }

  ghost predicate Holds(o: Owned, m: Mem, p: nat, size: nat) {
    && o.size <= size
    && forall off :: off in o.words ==> off % 8 == 0 && off + 8 <= o.size && WordAt(m, p, off) == o.words[off]
  }

  /** The users' blocks are those the allocator has handed out, and hold what was stored. */
  ghost predicate Agrees(s: Stored, m: Mem, u: map<nat, nat>) {
    && (forall p: nat :: Held(s, m, u, p))
    && (forall b: nat :: Known(s, u, b))
  }

  ghost predicate Held(s: Stored, m: Mem, u: map<nat, nat>, p: nat) {
    p in s ==> p >= HDR && p - HDR in u && Holds(s[p], m, p, u[p - HDR])
  }

  ghost predicate Known(s: Stored, u: map<nat, nat>, b: nat) {
    b in u ==> b + HDR in s
  }

  lemma HoldsStill(o: Owned, m: Mem, m': Mem, p: nat, size: nat, u: map<nat, nat>, b: nat)
    requires Holds(o, m, p, size) && p >= HDR && p - HDR in u && u[p - HDR] == size && p - HDR != b
    requires UserDataKept(u, m, m', b, 0)
    ensures Holds(o, m', p, size)
  {
    var c := p - HDR;
    forall off | off in o.words ensures WordAt(m', p, off) == o.words[off] {
      assert WordAt(m, p, off) == o.words[off];
      assert c in u && c + HDR <= p + off < c + HDR + u[c];
    }
  }

  /** Blocks other than b and c keep their contents. */
  lemma OtherHolds(s: Stored, m: Mem, m': Mem, u: map<nat, nat>, u': map<nat, nat>, b: nat, c: nat, p: nat)
    requires Agrees(s, m, u) && UserDataKept(u, m, m', b, 0) && p in s && p != b + HDR && p != c + HDR
    requires forall d :: d != b && d != c ==> (d in u <==> d in u') && (d in u ==> u'[d] == u[d])
    ensures p >= HDR && p - HDR in u' && Holds(s[p], m', p, u'[p - HDR])
  {
    assert Held(s, m, u, p);
    HoldsStill(s[p], m, m', p, u[p - HDR], u, b);
  }

  /** The contract of a call that takes block b and gives block c, in terms of what users hold. */
  lemma Agreed(s: Stored, s': Stored, m: Mem, m': Mem, u: map<nat, nat>, u': map<nat, nat>, b: nat, c: nat)
    requires Agrees(s, m, u) && UserDataKept(u, m, m', b, 0)
    requires forall d :: d != b && d != c ==> (d in u <==> d in u') && (d in u ==> u'[d] == u[d])
    requires forall p :: p != b + HDR && p != c + HDR ==> (p in s' <==> p in s) && (p in s ==> s'[p] == s[p])
    requires Held(s', m', u', b + HDR) && Held(s', m', u', c + HDR) && Known(s', u', b) && Known(s', u', c)
    ensures Agrees(s', m', u')
  {
    forall p: nat ensures Held(s', m', u', p) {
      if p in s' && p != b + HDR && p != c + HDR { OtherHolds(s, m, m', u, u', b, c, p); }
    }
    forall d: nat ensures Known(s', u', d) {
      assert Known(s, u, d);
    }
  }

  lemma AllocAgrees(s: Stored, m: Mem, m': Mem, u: map<nat, nat>, u': map<nat, nat>, size: nat, c: nat)
    requires Agrees(s, m, u) && 0 !in u && UserDataKept(u, m, m', 0, 0)
    requires c !in u && c in u' && u' == u[c := u'[c]] && u'[c] >= size
    ensures Agrees(After(s, Alloc(size), c + HDR), m', u') && c + HDR !in s
  {
    assert Held(s, m, u, c + HDR) && Held(s, m, u, HDR);
    Agreed(s, After(s, Alloc(size), c + HDR), m, m', u, u', 0, c);
  }

  lemma ReleaseAgrees(s: Stored, m: Mem, m': Mem, u: map<nat, nat>, u': map<nat, nat>, ptr: nat)
    requires Agrees(s, m, u) && ptr in s && ptr >= HDR && UserDataKept(u, m, m', ptr - HDR, 0) && u' == u - {ptr - HDR}
    ensures Agrees(s - {ptr}, m', u')
  {
    Agreed(s, s - {ptr}, m, m', u, u', ptr - HDR, ptr - HDR);
  }

  lemma ResizeAgrees(s: Stored, m: Mem, m': Mem, u: map<nat, nat>, u': map<nat, nat>, ptr: nat, size: nat, c: nat)
    requires Agrees(s, m, u) && ptr in s && ptr >= HDR && ptr - HDR in u && UserDataKept(u, m, m', ptr - HDR, 0)
    requires size > 0
    requires Reallocated(u, u', ptr - HDR, c, size)
    requires SameWords(m, ptr, m', c + HDR, Min(u[ptr - HDR], size))
    ensures Agrees(After(s, Resize(ptr, size), c + HDR), m', u')
    ensures c + HDR == ptr || c + HDR !in s
  {
    var s', b := After(s, Resize(ptr, size), c + HDR), ptr - HDR;
    assert Held(s, m, u, ptr) && Held(s, m, u, c + HDR);
    CroppedHolds(s[ptr], m, m', ptr, c + HDR, u[b], u'[c], size);
    Agreed(s, s', m, m', u, u', b, c);
  }

  lemma CroppedHolds(o: Owned, m: Mem, m': Mem, p: nat, q: nat, t: nat, t': nat, size: nat)
    requires Holds(o, m, p, t) && SameWords(m, p, m', q, Min(t, size)) && size <= t'
    ensures Holds(Cropped(o, size), m', q, t')
  {
    var k := Cropped(o, size);
    forall off | off in k.words ensures off % 8 == 0 && off + 8 <= k.size && WordAt(m', q, off) == k.words[off] {
      assert WordAt(m, p, off) == o.words[off];
    }
  }

  lemma StoreAgrees(s: Stored, m: Mem, m': Mem, u: map<nat, nat>, ptr: nat, off: nat, v: nat)
    requires Agrees(s, m, u) && Allowed(s, Store(ptr, off, v)) && m' == m[ptr + off := v]
    requires ptr >= HDR && UserDataKept(u, m, m', ptr - HDR, 0)
    ensures Agrees(After(s, Store(ptr, off, v), 0), m', u)
  {
    assert Held(s, m, u, ptr);
    var words: map<nat, nat> := s[ptr].words[off := v];
    forall x | x in words ensures x % 8 == 0 && x + 8 <= s[ptr].size && WordAt(m', ptr, x) == words[x] {
      assert x != off ==> x in s[ptr].words && WordAt(m, ptr, x) == s[ptr].words[x];
    }
    Agreed(s, After(s, Store(ptr, off, v), 0), m, m', u, u, ptr - HDR, ptr - HDR);
  }

  lemma FreshAgrees(s: Stored, m: Mem, m': Mem, u: map<nat, nat>, u': map<nat, nat>, size: nat, c: nat)
    requires Agrees(s, m, u) && 0 !in u && UserDataKept(u, m, m', 0, 0) && Reallocated(u, u', 0, c, size) && size > 0
    requires c != 0
    ensures Agrees(After(s, Resize(0, size), c + HDR), m', u') && c + HDR !in s
  {
    assert u - {0} == u;
    assert Held(s, m, u, 0) && Held(s, m, u, HDR) && Held(s, m, u, c + HDR);
    assert s - {0} == s;
    AllocAgrees(s, m, m', u, u', size, c);
  }

  /** The call asks for memory. */
  predicate Asks(s: Stored, c: Call) {
    Allowed(s, c) && (c.Alloc? || (c.Resize? && c.size > 0))
  }

  /** A block handed out is none that users hold, except that a resized block may stay put. */
  predicate GoodAnswer(s: Stored, c: Call, q: nat) {
    Asks(s, c) && q != 0 ==> q >= HDR && (q !in s || (c.Resize? && q == c.ptr))
  }

  /** Answers so far are good, and none is null unless the calls up to it could have used up all
      memory from pool to limit. */
  ghost predicate AllGood(calls: seq<Call>, answers: seq<nat>, pool: nat, limit: nat)
    requires |answers| <= |calls| && forall i :: 0 <= i < |calls| ==> Servable(calls[i])
  {
    forall j :: 0 <= j < |answers| ==> AnswerGood(calls, answers, pool, limit, j)
  }

  ghost predicate AnswerGood(calls: seq<Call>, answers: seq<nat>, pool: nat, limit: nat, j: nat)
    requires j < |answers| <= |calls| && forall i :: 0 <= i < |calls| ==> Servable(calls[i])
  {
    var s := Final(calls[..j], answers[..j]);
    && GoodAnswer(s, calls[j], answers[j])
    && (Asks(s, calls[j]) && answers[j] == 0 ==> pool + 10240 + Costs(calls[..j + 1]) > limit)
  }

  lemma OneMoreGood(calls: seq<Call>, answers: seq<nat>, pool: nat, limit: nat, q: nat)
    requires |answers| < |calls| && forall i :: 0 <= i < |calls| ==> Servable(calls[i])
    requires AllGood(calls, answers, pool, limit)
    requires var s, n := Final(calls[..|answers|], answers), |answers|;
      GoodAnswer(s, calls[n], q) && (Asks(s, calls[n]) && q == 0 ==> pool + 10240 + Costs(calls[..n + 1]) > limit)
    ensures AllGood(calls, answers + [q], pool, limit)
  {
    hide Final, GoodAnswer, Asks, Costs, Servable;
    var a := answers + [q];
    forall j | 0 <= j < |a| ensures AnswerGood(calls, a, pool, limit, j) {
      assert a[..j] == answers[..j];
      if j == |answers| { assert answers[..j] == answers; } else { assert AnswerGood(calls, answers, pool, limit, j); }
    }
  }

  /** The heap between two calls: its blocks, its areas, and the break */
  datatype Moment = Moment(h: Heap, areas: seq<Area>, brk: nat)

  ghost function MomentOf(t: Tlsf): Moment
    reads t
  {
    Moment(t.h, t.areas, t.brk)
  }

  /** The users' blocks are those of the heap. */
  ghost predicate Owns(s: Stored, m: Moment) {
    forall p: nat :: p in s <==> p >= HDR && p - HDR in Users(m.h, m.areas)
  }

  /** A resized block stays where it is: it, or it with the free block after it, is large enough. */
  ghost predicate Settles(m: Moment, c: Call) {
    c.Resize? && c.ptr >= HDR && c.ptr - HDR in m.h && InPlace(m.h, c.ptr - HDR, Request(c.size))
  }

  /** No free block is large enough for the request, and the memory up to limit is too little for a new area. */
  ghost predicate NoneLeft(m: Moment, c: Call, limit: nat)
    requires Servable(c) && (c.Alloc? || c.Resize?)
  {
    !Settles(m, c) && NoMemory(m.h, c.size, m.brk, limit)
  }

  ghost function BrkAfter(s: Stored, m: Moment, c: Call, q: nat): nat
    requires Servable(c)
  {
    if Asks(s, c) && q != 0 && !Settles(m, c) && !Fits(m.h, c.size) then m.brk + Taken(c.size) else m.brk
  }

  /** A request is refused exactly if there is no memory left for it. */
  ghost predicate Exact(s: Stored, m: Moment, c: Call, q: nat, m': Moment, limit: nat)
    requires Servable(c)
  {
    (if Asks(s, c) then q == 0 <==> NoneLeft(m, c, limit) else q == 0) && m'.brk == BrkAfter(s, m, c, q)
  }

  ghost predicate TraceExact(calls: seq<Call>, answers: seq<nat>, trace: seq<Moment>, limit: nat)
    requires forall i :: 0 <= i < |calls| ==> Servable(calls[i])
  {
    && |trace| == |answers| + 1 && |answers| <= |calls|
    && (forall j :: 0 <= j <= |answers| ==> Owns(Final(calls[..j], answers[..j]), trace[j]))
    && forall j :: 0 <= j < |answers| ==> ExactAt(calls, answers, trace, limit, j)
  }

  ghost predicate ExactAt(calls: seq<Call>, answers: seq<nat>, trace: seq<Moment>, limit: nat, j: nat)
    requires j < |answers| <= |calls| && j + 1 < |trace| && forall i :: 0 <= i < |calls| ==> Servable(calls[i])
  {
    Exact(Final(calls[..j], answers[..j]), trace[j], calls[j], answers[j], trace[j + 1], limit)
  }

  lemma OneMoreExact(calls: seq<Call>, answers: seq<nat>, trace: seq<Moment>, limit: nat, q: nat, m: Moment)
    requires |answers| < |calls| && forall i :: 0 <= i < |calls| ==> Servable(calls[i])
    requires TraceExact(calls, answers, trace, limit)
    requires var s, n := Final(calls[..|answers|], answers), |answers|;
      Exact(s, trace[n], calls[n], q, m, limit) && Owns(After(s, calls[n], q), m)
    ensures TraceExact(calls, answers + [q], trace + [m], limit)
  {
    hide Exact, Owns, Final, After;
    var a, n := answers + [q], |answers|;
    FinalStep(calls, answers, q, n);
    assert a[..n + 1] == a && answers[..n] == answers;
    forall j | 0 <= j < |a| ensures ExactAt(calls, a, trace + [m], limit, j) {
      assert a[..j] == answers[..j];
      if j < n { assert ExactAt(calls, answers, trace, limit, j); }
    }
    forall j | 0 <= j <= |a| ensures Owns(Final(calls[..j], a[..j]), (trace + [m])[j]) {
      if j <= n { assert a[..j] == answers[..j]; }
    }
  }

  lemma AgreesOwns(s: Stored, m: Mem, h: Heap, areas: seq<Area>, brk: nat)
    requires Agrees(s, m, Users(h, areas))
    ensures Owns(s, Moment(h, areas, brk))
  {
    hide Users;
    forall p: nat ensures p in s <==> p >= HDR && p - HDR in Users(h, areas) {
      assert Held(s, m, Users(h, areas), p);
      if p >= HDR { assert Known(s, Users(h, areas), p - HDR); }
    }
  }

  lemma Refused(s: Stored, c: Call)
    requires !Allowed(s, c)
    ensures After(s, c, 0) == s
  {
  }

  lemma Released(s: Stored, ptr: nat)
    requires 0 !in s && Allowed(s, Release(ptr))
    ensures After(s, Release(ptr), 0) == if ptr == 0 then s else s - {ptr}
  {
    assert s - {0} == s;
  }

  lemma ResizedAway(s: Stored, ptr: nat)
    requires 0 !in s && Allowed(s, Resize(ptr, 0))
    ensures After(s, Resize(ptr, 0), 0) == if ptr == 0 then s else s - {ptr}
  {
    assert s - {0} == s;
  }

  lemma StillAgrees(s: Stored, m: Mem, m': Mem, u: map<nat, nat>, u': map<nat, nat>)
    requires Agrees(s, m, u) && UserDataKept(u, m, m', 0, 0) && 0 !in u && u' == u - {}
    ensures Agrees(s, m', u')
  {
    assert Held(s, m, u, HDR);
    Agreed(s, s, m, m', u, u', 0, 0);
  }

  lemma ReallocatedParts(u: map<nat, nat>, u': map<nat, nat>, b: nat, c: nat, size: nat)
    requires Reallocated(u, u', b, c, size)
    ensures c in u' && (c == b || c !in u)
  {
  }

  lemma HeldPtr(s: Stored, m: Mem, u: map<nat, nat>, p: nat)
    requires Agrees(s, m, u)
    ensures 0 !in s && (p in s ==> p >= HDR && p - HDR in u && u[p - HDR] >= s[p].size)
  {
    assert Held(s, m, u, 0) && Held(s, m, u, p);
  }

  lemma NothingNew(s: Stored, c: Call)
    requires Asks(s, c)
    ensures After(s, c, 0) == s
  {
  }

  /** One call: any allowed one is served, but a request for memory exactly if some is left for it. */
  method Serve(t: Tlsf, c: Call, s: Stored) returns (q: nat)
    requires t.Valid() && Servable(c)
    requires Agrees(s, t.mem, Users(t.h, t.areas))
    modifies t
    ensures t.Valid() && t.lo == old(t.lo) && t.brk <= old(t.brk) + CostOf(c)
    ensures Agrees(After(s, c, q), t.mem, Users(t.h, t.areas))
    ensures GoodAnswer(s, c, q)
    ensures Exact(s, old(MomentOf(t)), c, q, MomentOf(t), t.limit)
    ensures Asks(s, c) && q == 0 ==> old(t.brk) + CostOf(c) > t.limit
  {
    hide Agrees, Users, HeapInv, AreasOk, UserDataKept, Reallocated, SameWords, Rounded, After, Fits, Taken, InRange,
         InPlace, Request;
    ghost var m0, u0 := t.mem, Users(t.h, t.areas);
    UsersNotZero(t.mem, t.x, t.h, t.rank, t.lo, t.hi, t.areas);
    q := 0;
    if !Allowed(s, c) {
      Refused(s, c);
      return;
    }
    match c {
      case Alloc(size) =>
        q := t.Malloc(size);
        if q != 0 {
          UserParts(t.h, t.areas, q - HDR);
          AllocAgrees(s, m0, t.mem, u0, Users(t.h, t.areas), size, q - HDR);
        } else {
          NothingNew(s, c);
        }
      case Release(ptr) =>
        HeldPtr(s, m0, u0, ptr);
        t.Free(ptr);
        if ptr != 0 { ReleaseAgrees(s, m0, t.mem, u0, Users(t.h, t.areas), ptr); }
        Released(s, ptr);
      case Resize(ptr, size) =>
        HeldPtr(s, m0, u0, ptr);
        q := t.Realloc(ptr, size);
        UsersNotZero(t.mem, t.x, t.h, t.rank, t.lo, t.hi, t.areas);
        ResizedAgrees(s, m0, t.mem, u0, Users(t.h, t.areas), ptr, size, q);
      case Store(ptr, off, v) =>
        HeldPtr(s, m0, u0, ptr);
        t.Store(ptr - HDR, off, v);
        StoreAgrees(s, m0, t.mem, u0, ptr, off, v);
    }
  }

  /** The contract of realloc in terms of what users hold. */
  lemma ResizedAgrees(s: Stored, m: Mem, m': Mem, u: map<nat, nat>, u': map<nat, nat>, ptr: nat, size: nat, q: nat)
    requires Agrees(s, m, u) && Allowed(s, Resize(ptr, size)) && 0 !in u && 0 !in s && 0 !in u'
    requires ptr != 0 ==> ptr >= HDR && ptr - HDR in u
    requires size == 0 ==> q == 0 && u' == u - (if ptr == 0 then {} else {ptr - HDR})
    requires size != 0 && q == 0 ==> m' == m && u' == u
    requires q != 0 ==> q >= HDR && Reallocated(u, u', if ptr == 0 then 0 else ptr - HDR, q - HDR, size)
    requires UserDataKept(u, m, m', if ptr == 0 then 0 else ptr - HDR, 0)
    requires ptr != 0 && q != 0 ==> SameWords(m, ptr, m', q, Min(u[ptr - HDR], size))
    ensures Agrees(After(s, Resize(ptr, size), q), m', u') && GoodAnswer(s, Resize(ptr, size), q)
  {
    hide Agrees, UserDataKept, Reallocated, SameWords, After;
    if size > 0 && q == 0 {
      NothingNew(s, Resize(ptr, size));
    } else if ptr == 0 && size > 0 {
      ReallocatedParts(u, u', 0, q - HDR, size);
      FreshAgrees(s, m, m', u, u', size, q - HDR);
    } else if size > 0 {
      ResizeAgrees(s, m, m', u, u', ptr, size, q - HDR);
    } else {
      if ptr != 0 { ReleaseAgrees(s, m, m', u, u', ptr); } else { StillAgrees(s, m, m', u, u'); }
      ResizedAway(s, ptr);
    }
  }

  lemma FinalStep(calls: seq<Call>, answers: seq<nat>, q: nat, i: nat)
    requires |answers| == i < |calls|
    ensures Final(calls[..i + 1], answers + [q]) == After(Final(calls[..i], answers), calls[i], q)
  {
    assert calls[..i + 1][..i] == calls[..i] && (answers + [q])[..i] == answers;
  }

  lemma {:induction false} CostsStep(calls: seq<Call>, i: nat)
    requires i < |calls| && forall j :: 0 <= j < |calls| ==> Servable(calls[j])
    ensures Costs(calls[..i]) + CostOf(calls[i]) == Costs(calls[..i + 1]) <= Costs(calls)
    decreases |calls| - i
  {
    assert calls[..i + 1][..i] == calls[..i];
    if i + 1 < |calls| { CostsStep(calls, i + 1); } else { assert calls[..i + 1] == calls; }
  }

  /** What holds between the calls of a run */
  ghost predicate Going(t: Tlsf, calls: seq<Call>, answers: seq<nat>, trace: seq<Moment>, s: Stored, pool: nat, limit: nat)
    requires forall i :: 0 <= i < |calls| ==> Servable(calls[i])
    reads t
  {
    && |answers| <= |calls| && s == Final(calls[..|answers|], answers) && AllGood(calls, answers, pool, limit)
    && t.Valid() && t.limit == limit && Agrees(s, t.mem, Users(t.h, t.areas))
    && t.brk <= pool + 10240 + Costs(calls[..|answers|])
    && TraceExact(calls, answers, trace, limit) && trace[|answers|] == MomentOf(t)
  }

  lemma TraceLength(calls: seq<Call>, answers: seq<nat>, trace: seq<Moment>, limit: nat)
    requires (forall i :: 0 <= i < |calls| ==> Servable(calls[i])) && TraceExact(calls, answers, trace, limit)
    ensures |trace| == |answers| + 1
  {
  }

  method Step(t: Tlsf, calls: seq<Call>, answers: seq<nat>, ghost trace: seq<Moment>, s: Stored, pool: nat, limit: nat)
    returns (q: nat)
    requires forall i :: 0 <= i < |calls| ==> Servable(calls[i])
    requires |answers| < |calls| && Going(t, calls, answers, trace, s, pool, limit)
    modifies t
    ensures Going(t, calls, answers + [q], trace + [MomentOf(t)], After(s, calls[|answers|], q), pool, limit)
  {
    hide Agrees, Users, Costs, CostOf, Final, After, Asks, Allowed, GoodAnswer, AllGood, HeapInv, AreasOk,
         Servable, InRange, NoMemory, Exact, Owns, TraceExact;
    var i := |answers|;
    TraceLength(calls, answers, trace, limit);
    CostsStep(calls, i);
    q := Serve(t, calls[i], s);
    FinalStep(calls, answers, q, i);
    OneMoreGood(calls, answers, pool, limit, q);
    AgreesOwns(After(s, calls[i], q), t.mem, t.h, t.areas, t.brk);
    OneMoreExact(calls, answers, trace, limit, q, MomentOf(t));
  }

  /** Any calls at all, from a fresh allocator with any amount of memory: in the end users hold
      exactly the blocks they were given and have not freed, with the contents they stored in them,
      through all splitting, merging and moving in between; and each request is refused exactly if no free block
      is large enough then, and the memory that is left too little. */
  method Run(pool: nat, limit: nat, m: Mem, calls: seq<Call>)
    returns (t: Tlsf, answers: seq<nat>, ghost trace: seq<Moment>)
    requires pool > 0 && pool % 16 == 0 && pool + 10240 <= limit <= pool + MAX_SIZE
    requires forall i :: 0 <= i < |calls| ==> Servable(calls[i])
    ensures fresh(t) && t.Valid() && |answers| == |calls|
    ensures Agrees(Final(calls, answers), t.mem, Users(t.h, t.areas)) && AllGood(calls, answers, pool, limit)
    ensures TraceExact(calls, answers, trace, limit) && trace[|calls|] == MomentOf(t)
  {
    hide After;
    t := new Tlsf(pool, limit, m);
    answers, trace := [], [MomentOf(t)];
    var s: Stored := map[];
    Beginning(t, calls, pool, limit);
    while |answers| < |calls|
      invariant |answers| <= |calls| && fresh(t) && Going(t, calls, answers, trace, s, pool, limit)
      decreases |calls| - |answers|
    {
      hide Going;
      var q := Step(t, calls, answers, trace, s, pool, limit);
      s := After(s, calls[|answers|], q);
      answers, trace := answers + [q], trace + [MomentOf(t)];
      assert |answers| <= |calls|;
    }
    assert calls[..|answers|] == calls;
  }

  lemma Beginning(t: Tlsf, calls: seq<Call>, pool: nat, limit: nat)
    requires forall i :: 0 <= i < |calls| ==> Servable(calls[i])
    requires t.Valid() && t.limit == limit && t.brk <= pool + 10240 && Users(t.h, t.areas) == map[]
    ensures Going(t, calls, [], [MomentOf(t)], map[], pool, limit)
  {
    hide HeapInv, AreasOk, Users;
    assert calls[..0] == [];
    CostsBegin(calls);
    AgreesOwns(map[], t.mem, t.h, t.areas, t.brk);
  }

  lemma CostsBegin(calls: seq<Call>)
    requires forall j :: 0 <= j < |calls| ==> Servable(calls[j])
    ensures Costs(calls[..0]) == 0
  {
  }
}
