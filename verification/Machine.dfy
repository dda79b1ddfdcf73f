/** The process table and the paging code together: whoever is alive in the one has an address space in the
    other, and it stays that process's. */
module Machines {
  import opened Processes
  import opened Messaging
  import opened Killing
  import opened Scheduling
  import opened Calls
  import opened Kernels
  import KernelRuns
  import KernelSteps
  import opened Ledgers
  import opened Accounts
  import Paging
  import opened Mmus
  import M = MmuRuns

  // ---- who is who ----

  /** The same process, or its remains: nobody comes to life. */
  predicate StaysAt(p: Proc, q: Proc) {
    q.pid == p.pid && (Alive(q) ==> Alive(p))
  }

  ghost predicate Stays(k: Table, k': Table) {
    |k'.procs| == |k.procs| && forall i :: 0 <= i < |k.procs| ==> StaysAt(k.procs[i], k'.procs[i])
  }

  lemma StaysOn(k: Table, k': Table, k'': Table)
    requires Stays(k, k') && Stays(k', k'')
    ensures Stays(k, k'')
  {
    forall i | 0 <= i < |k.procs| ensures StaysAt(k.procs[i], k''.procs[i]) {
      assert StaysAt(k.procs[i], k'.procs[i]) && StaysAt(k'.procs[i], k''.procs[i]);
    }
  }

  lemma StaysItself(k: Table)
    ensures Stays(k, k)
  {
  }

  lemma FatesStay(k: Table, k': Table, log: seq<Note>, times: set<nat>)
    requires Fates(k, k', log, times)
    ensures Stays(k, k')
  {
    forall i | 0 <= i < |k.procs| ensures StaysAt(k.procs[i], k'.procs[i]) {
      assert Fate(k', k.procs[i], k'.procs[i], log, times);
    }
  }

  /** The slot of a new process: it was free, and it runs. */
  predicate Born(k: Table, k': Table) {
    && |k'.procs| == |k.procs| && k'.current < |k.procs|
    && k.procs[k'.current].state == Free && Alive(k'.procs[k'.current]) && k'.procs[k'.current].pid == k.nextPid
    && forall i :: 0 <= i < |k.procs| && i != k'.current ==> k'.procs[i] == k.procs[i]
  }

  /** What the caller does itself leaves everybody in place, but for a new process. */
  lemma DoesStay(k: Table, c: Call, r: Result, a: Account)
    requires AtWork(k) && k.nextPid > 0 && Does(k, c, r, a)
    ensures if c.SysCreate? && r.value != 0 then Born(k, a.begun) && a.handled == 0 else Stays(k, a.begun)
  {
    StaysItself(k);
    hide Stays, Fates;
    match c {
      case SysSend(dst, box, contents) => FatesStay(k, a.begun, a.did, {});
      case SysRecv(box, max, now) =>
        OthersStay(k, a.begun, []);
        OnlyStays(k, a.begun, box, r.receipt);
      case SysRpc(dst, contents) => OthersStay(k, a.begun, a.did);
      case SysExit(status) => FatesStay(k, a.begun, a.did, {});
      case SysKill(killer, pid, status) =>
        if exists s: nat :: InUseAs(k, killer, s) {
          var s: nat :| InUseAs(k, killer, s) && Kills(k, s, pid, status, a.did, a.begun);
          FatesStay(k, a.begun, a.did, {});
        }
      case SysYield =>
      case SysCreate(owner, uid) =>
      case Shutdown(now) => StillStay(k, a.begun);
    }
  }

  lemma OthersStay(k: Table, k': Table, log: seq<Note>)
    requires k.current < |k.procs| && Alive(k.procs[k.current])
    ensures OthersWent(k, k', log) && k'.procs[k.current].pid == k.procs[k.current].pid ==> Stays(k, k')
  {
  }

  lemma OnlyStays(k: Table, k': Table, box: nat, r: Option<Receipt>)
    requires k.current < |k.procs|
    ensures OnlyCurrent(k, k') && Got(k.procs[k.current], k'.procs[k.current], box, 0, r) ==> Stays(k, k')
  {
  }

  lemma StillStay(k: Table, k': Table)
    requires k'.procs == k.procs
    ensures Stays(k, k')
  {
  }

  lemma GoesStay(curfew: nat, rounds: seq<Round>, r: Result, a: Account)
    requires Goes(curfew, rounds, r, a)
    ensures Stays(a.begun, r.table)
  {
    StaysItself(a.begun);
    hide Fates, Stays;
    if a.handled > 0 {
      FatesStay(a.begun, a.woken, a.went, a.times);
      if r.outcome == Resumed {
        GotStays(a.woken, r.table, r.receipt);
        StaysOn(a.begun, a.woken, r.table);
      }
    }
  }

  lemma GotStays(k: Table, k': Table, r: Option<Receipt>)
    requires WentOnWith(k, k', r)
    ensures Stays(k, k')
  {
  }

  /** Any call: the processes alive were so before, in their slots, but for one that was created. */
  lemma CallStays(k: Table, curfew: nat, i: KernelSteps.Input)
    requires TableOk(k, {}, {}) && AtWork(k) && k.nextPid > 0 && KernelSteps.InputOk(i)
    ensures var r := KernelSteps.After(k, curfew, i);
      if i.call.SysCreate? && r.value != 0 then Born(k, r.table) && r.outcome == Resumed else Stays(k, r.table)
  {
    hide TableOk, KernelSteps.After, Stays, Born, Does;
    var r := KernelSteps.After(k, curfew, i);
    var a := CallAccount(k, curfew, i);
    DoesStay(k, i.call, r, a);
    GoesStay(curfew, i.rounds, r, a);
    if !(i.call.SysCreate? && r.value != 0) { StaysOn(k, a.begun, r.table); }
  }

  lemma ExitStays(k: Table, curfew: nat, status: int, rounds: seq<Round>)
    requires TableOk(k, {}, {}) && AtWork(k) && RoundsOk(rounds) && |rounds| > 0
    ensures Stays(k, ExitCall(k, curfew, status, rounds).table)
  {
    hide TableOk, ExitCall, Goes, Fates, Stays;
    var a := ExitAccount(k, curfew, status, rounds);
    FatesStay(k, a.begun, a.did, {});
    GoesStay(curfew, rounds, ExitCall(k, curfew, status, rounds), a);
    StaysOn(k, a.begun, ExitCall(k, curfew, status, rounds).table);
  }


  // ---- address spaces follow processes ----

  const STAT_ILLMEM: int := -1

  /** The live processes are those with an address space. */
  ghost predicate Paired(t: Table, s: M.Spaces) {
    s.slots == |t.procs| && s.size > 0 && forall i: nat :: i in s.of <==> i < |t.procs| && Alive(t.procs[i])
  }

  /** The spaces of slots below i end if their processes are dead. */
  function Trim(s: M.Spaces, procs: seq<Proc>, i: nat): M.Spaces
    requires i <= |procs|
  {
    if i == 0 then s
    else
      var s1 := Trim(s, procs, i - 1);
      if i - 1 in s1.of && !Alive(procs[i - 1]) then M.Without(s1, i - 1) else s1
  }

  lemma {:induction false} TrimIs(s: M.Spaces, procs: seq<Proc>, i: nat)
    requires i <= |procs|
    ensures var s1 := Trim(s, procs, i);
      && s1.slots == s.slots && s1.size == s.size && s1.npages == s.npages && s1.current == s.current && s1.forced == s.forced
      && (forall p: nat :: p in s1.of <==> p in s.of && (p < i ==> Alive(procs[p])))
      && ((forall p: nat :: p in s.of && p < i ==> Alive(procs[p])) ==> s1 == s)
      && forall p: nat :: p in s1.of ==> s1.of[p] == s.of[p]
  {
    if i > 0 { TrimIs(s, procs, i - 1); }
  }

  /** A process that was born has a new space, and the memory is switched to the process that goes on. */
  function Switched(s: M.Spaces, current: nat, born: bool, exec: Paging.Exec, resumed: bool): M.Spaces {
    var s1 := if born then s.(of := s.of[current := M.Space(exec, map[], {}, -1)]) else s;
    if resumed && current != s.current then M.Turned(s1, current) else s1
  }

  /** After a call, the dead have no space either. */
  function Settled(s: M.Spaces, t: Table, born: bool, exec: Paging.Exec, resumed: bool): M.Spaces {
    Switched(Trim(s, t.procs, |t.procs|), t.current, born, exec, resumed)
  }

  lemma SettledPaired(t: Table, t': Table, s: M.Spaces, s0: M.Spaces, born: bool, exec: Paging.Exec, resumed: bool)
    requires Paired(t, s0) && s.slots == s0.slots && s.size == s0.size
    requires forall i: nat :: i in s.of ==> i in s0.of
    requires forall i: nat :: i in s0.of && i !in s.of && i < |t'.procs| ==> !Alive(t'.procs[i])
    requires if born then Born(t, t') else Stays(t, t')
    ensures Paired(t', Settled(s, t', born, exec, resumed))
    ensures resumed ==> Settled(s, t', born, exec, resumed).current == t'.current
  {
    TrimIs(s, t'.procs, |t'.procs|);
    forall i: nat ensures i in Settled(s, t', born, exec, resumed).of <==> i < |t'.procs| && Alive(t'.procs[i]) {
      if i < |t.procs| && !born { assert StaysAt(t.procs[i], t'.procs[i]); }
    }
  }

  /** flushes tells whether the TLB is flushed when a new process starts. It is not in the code. */
  class Machine {
    const k: Kernel
    const u: Mmu
    const flushes: bool

    constructor (slots: nat, frames: seq<Paging.Page>, vm: seq<Paging.Page>, entries: nat, size: nat, flushes0: bool)
      requires slots > 0 && entries > 0 && size > 0
      requires forall f :: 0 <= f < |frames| ==> |frames[f]| == size
      requires forall g :: 0 <= g < |vm| ==> |vm[g]| == size
      ensures fresh(k) && fresh(u) && k.View() == Start(slots) && flushes == flushes0
      ensures Valid(M.AtBoot(|frames|, |vm|, slots, size)) && Works(M.AtBoot(|frames|, |vm|, slots, size))
    {
      k := new Kernel(slots);
      u := new Mmu(frames, vm, slots, entries, size);
      flushes := flushes0;
      new;
      KernelRuns.StartOk(slots);
      M.ShowsStart(u.View(), |frames|, size);
    }

    ghost predicate Valid(s: M.Spaces)
      reads this, k, u
    {
      && k.Valid() && k.nextPid > 0 && u.Valid() && Paging.Sizes(u.View()) && M.Shows(s, u.View())
      && Paired(k.View(), s)
    }

    /** A process goes on, in its own memory. */
    ghost predicate Works(s: M.Spaces)
      reads this, k
    {
      AtWork(k.View()) && s.current == k.current
    }

    /** The spaces of dead processes end. */
    method EndDead(ghost s: M.Spaces) returns (ghost s': M.Spaces)
      requires u.Valid() && Paging.Sizes(u.View()) && M.Shows(s, u.View())
      modifies u
      ensures u.Valid() && Paging.Sizes(u.View()) && s' == Trim(s, k.procs, |k.procs|) && M.Shows(s', u.View())
    {
      hide M.Shows, M.AnswerOk, M.After, M.Without, M.Exposed, Mmu.Valid, Paging.Sizes;
      s' := s;
      var i := 0;
      while i < |k.procs|
        invariant i <= |k.procs| && u.Valid() && Paging.Sizes(u.View()) && M.Shows(s', u.View())
        invariant s' == Trim(s, k.procs, i)
      {
        M.ShowsParts(s', u.View());
        if i in u.live && !Alive(k.procs[i]) {
          var r := M.Serve(u, M.End(i), s');
          EndIs(s', i, r);
          s' := M.Without(s', i);
        }
        i := i + 1;
      }
    }

    /** The process that was born gets a space, and the one that goes on its memory. */
    method SwitchTo(ghost s: M.Spaces, born: bool, exec: Paging.Exec, resumed: bool)
      returns (leaked: bool, ghost s': M.Spaces)
      requires u.Valid() && Paging.Sizes(u.View()) && M.Shows(s, u.View()) && k.current < s.slots
      requires born ==> k.current !in s.of && k.current != s.current && Paging.Loadable(exec, s.size)
      modifies u
      ensures s' == Switched(s, k.current, born, exec, resumed)
      ensures leaked ==> born && !flushes && !s.quiet && M.Exposed(u.View())
      ensures !leaked ==> u.Valid() && Paging.Sizes(u.View()) && M.Shows(s', u.View())
    {
      hide M.Shows, M.AnswerOk, M.After, M.Exposed, Mmu.Valid, Paging.Sizes;
      s', leaked := s, false;
      M.ShowsParts(s', u.View());
      if born {
        var r := M.Serve(u, M.New(k.current, exec), s');
        NewIs(s', k.current, exec, r);
        s' := s'.(of := s'.of[k.current := M.Space(exec, map[], {}, -1)]);
        M.ShowsParts(s', u.View());
      }
      if resumed && k.current != u.current {
        var op := if born && !flushes then M.Enter(k.current) else M.Switch(k.current);
        var r := M.Serve(u, op, s');
        SwitchIs(s', k.current, op, r);
        leaked := r == M.Leaked;
        s' := M.Turned(s', k.current);
      }
    }

    /** The memory after a call of the kernel */
    method Settle(ghost s: M.Spaces, ghost t: Table, ghost s0: M.Spaces, born: bool, exec: Paging.Exec, resumed: bool)
      returns (leaked: bool, ghost s': M.Spaces)
      requires u.Valid() && Paging.Sizes(u.View()) && M.Shows(s, u.View())
      requires Paired(t, s0) && s.slots == s0.slots && s.size == s0.size && s.current == s0.current
      requires forall i: nat :: i in s.of ==> i in s0.of
      requires forall i: nat :: i in s0.of && i !in s.of && i < |k.procs| ==> !Alive(k.procs[i])
      requires if born then Born(t, k.View()) && t.current == s.current && resumed else Stays(t, k.View())
      requires k.current < |k.procs| && (born ==> t.current != k.current && Paging.Loadable(exec, s.size))
      modifies u
      ensures s' == Settled(s, k.View(), born, exec, resumed) && Paired(k.View(), s')
      ensures leaked ==> born && !flushes && !s.quiet && M.Exposed(u.View())
      ensures !leaked ==> u.Valid() && Paging.Sizes(u.View()) && M.Shows(s', u.View())
      ensures resumed ==> s'.current == k.current
    {
      hide M.Shows, M.Exposed, Paired, Stays, Born, Trim, Mmu.Valid, Paging.Sizes;
      TrimIs(s, k.procs, |k.procs|);
      SettledPaired(t, k.View(), s, s0, born, exec, resumed);
      InSlots(t, k.View(), s0, born);
      if born { BornNew(t, k.View(), s, s0); }
      s' := EndDead(s);
      leaked, s' := SwitchTo(s', born, exec, resumed);
    }

    /** A system call of the process that runs. If it makes a process that starts out of order, that process
        can read a page of the one that made it. */
    method Call(i: KernelSteps.Input, exec: Paging.Exec, ghost s: M.Spaces)
      returns (res: Result, leaked: bool, ghost s': M.Spaces)
      requires Valid(s) && Works(s) && KernelSteps.InputOk(i) && (i.call.SysCreate? ==> Paging.Loadable(exec, s.size))
      modifies k, u
      ensures res == KernelSteps.After(old(k.View()), old(k.curfew), i) && k.View() == res.table
      ensures k.curfew == KernelSteps.CurfewAfter(old(k.curfew), i)
      ensures s' == Settled(s, res.table, Bears(i, res), exec, res.outcome == Resumed) && Paired(res.table, s')
      ensures leaked ==> Bears(i, res) && !flushes && !s.quiet && M.Exposed(u.View())
      ensures !leaked ==> Valid(s')
      ensures res.outcome == Resumed ==> Works(s')
      ensures if Bears(i, res) then Born(old(k.View()), res.table) else Stays(old(k.View()), res.table)
    {
      hide M.Shows, M.Exposed, Paired, Stays, Born, KernelSteps.After, TableOk, AtWork, Mmu.Valid, Paging.Sizes, Settled;
      ghost var t := k.View();
      CallStays(t, k.curfew, i);
      res := KernelRuns.Serve(k, i);
      Placed(k.View());
      SizeIs(t, s);
      if Bears(i, res) { BornElsewhere(t, k.View()); }
      leaked, s' := Settle(s, t, s, Bears(i, res), exec, res.outcome == Resumed);
    }

    /** An access to memory by the process that runs; if that is not allowed, the process ends. */
    method Access(op: M.Op, rounds: seq<Round>, ghost s: M.Spaces)
      returns (r: M.Answer, ended: Option<Result>, ghost s': M.Spaces)
      requires Valid(s) && Works(s) && InProcess(op) && RoundsOk(rounds) && |rounds| > 0
      modifies k, u
      ensures s.size > 0 && M.AnswerOk(s, op, r) && k.curfew == old(k.curfew)
      ensures ended.Some? <==> Fatal(op, r)
      ensures ended == None ==> k.View() == old(k.View()) && s' == M.After(s, op, r)
      ensures ended == None && !M.OutOfFrames(r) ==> Valid(s') && Works(s')
      ensures ended.Some? ==>
        && ended.value == ExitCall(old(k.View()), k.curfew, STAT_ILLMEM, rounds) && k.View() == ended.value.table
        && Valid(s') && (ended.value.outcome == Resumed ==> Works(s'))
        && s' == Settled(M.After(s, op, r), ended.value.table, false, NO_EXEC, ended.value.outcome == Resumed)
        && Stays(old(k.View()), ended.value.table)
    {
      hide M.Shows, M.Exposed, Paired, Stays, M.AnswerOk, M.After, ExitCall, TableOk, AtWork, Mmu.Valid, Paging.Sizes,
           Settled;
      ghost var t := k.View();
      SizeIs(t, s);
      r := M.Serve(u, op, s);
      s', ended := M.After(s, op, r), None;
      AccessKeeps(t, s, op, r);
      if Fatal(op, r) {
        ExitStays(t, k.curfew, STAT_ILLMEM, rounds);
        Ending(t, s, op, r, k.curfew, rounds);
        var res := k.SysExitCall(STAT_ILLMEM, rounds);
        ended := Some(res);
        Placed(k.View());
        var leaked;
        leaked, s' := Settle(s', t, s, false, NO_EXEC, res.outcome == Resumed);
      }
    }
  }

  const NO_EXEC: Paging.Exec := Paging.Exec([], 0, [])

  /** Whether a call made a process */
  predicate Bears(i: KernelSteps.Input, res: Result) {
    i.call.SysCreate? && res.value != 0
  }

  /** What a process does with its memory, and the two halves of a page fault */
  predicate InProcess(op: M.Op) {
    M.UserOp(op) || op.BeginLoad? || op.EndLoad?
  }

  predicate Fatal(op: M.Op, r: M.Answer) {
    M.UserOp(op) && r.Answer? && r.outcome == Mmus.Killed
  }

  lemma Placed(t: Table)
    requires TableOk(t, {}, {})
    ensures t.current < |t.procs|
  {
  }

  lemma SizeIs(t: Table, s: M.Spaces)
    requires Paired(t, s)
    ensures s.size > 0
  {
  }

  lemma BornElsewhere(t: Table, t': Table)
    requires AtWork(t) && Born(t, t')
    ensures t.current != t'.current
  {
  }

  /** An access leaves all spaces but that of a process that is to end. */
  lemma AccessKeeps(t: Table, s: M.Spaces, op: M.Op, r: M.Answer)
    requires Paired(t, s) && AtWork(t) && s.current == t.current && InProcess(op) && M.AnswerOk(s, op, r)
    ensures r != M.Leaked
    ensures var s' := M.After(s, op, r);
      && s'.slots == s.slots && s'.size == s.size && s'.current == s.current
      && s'.of.Keys == if Fatal(op, r) then s.of.Keys - {s.current} else s.of.Keys
    ensures Fatal(op, r) ==> !M.OutOfFrames(r)
    ensures !Fatal(op, r) ==> Paired(t, M.After(s, op, r))
  {
  }

  lemma Ending(t: Table, s: M.Spaces, op: M.Op, r: M.Answer, curfew: nat, rounds: seq<Round>)
    requires TableOk(t, {}, {}) && AtWork(t) && RoundsOk(rounds) && |rounds| > 0 && s.current == t.current
    ensures !Alive(ExitCall(t, curfew, STAT_ILLMEM, rounds).table.procs[t.current])
  {
    ExitStays(t, curfew, STAT_ILLMEM, rounds);
    var t' := ExitCall(t, curfew, STAT_ILLMEM, rounds).table;
    assert StaysAt(t.procs[t.current], t'.procs[t.current]);
    AliveMember(t'.procs, t.current);
  }

  lemma EndIs(s: M.Spaces, slot: nat, r: M.Answer)
    requires s.size > 0 && slot in s.of && M.AnswerOk(s, M.End(slot), r)
    ensures !M.Stops(r) && M.After(s, M.End(slot), r) == M.Without(s, slot)
  {
  }

  lemma NewIs(s: M.Spaces, slot: nat, e: Paging.Exec, r: M.Answer)
    requires s.size > 0 && slot < s.slots && slot !in s.of && slot != s.current && Paging.Loadable(e, s.size)
    requires M.AnswerOk(s, M.New(slot, e), r)
    ensures !M.Stops(r)
    ensures M.After(s, M.New(slot, e), r) == s.(of := s.of[slot := M.Space(e, map[], {}, -1)])
  {
  }

  lemma SwitchIs(s: M.Spaces, slot: nat, op: M.Op, r: M.Answer)
    requires s.size > 0 && slot < s.slots && M.AnswerOk(s, op, r)
    requires op == M.Switch(slot) || (op == M.Enter(slot) && slot in s.of && slot != s.current && s.of[slot].held == {})
    ensures r == M.Leaked ==> op.Enter? && !s.quiet
    ensures r != M.Leaked ==> !M.Stops(r) && M.After(s, op, r) == M.Turned(s, slot)
  {
  }

  lemma BornNew(t: Table, t': Table, s: M.Spaces, s0: M.Spaces)
    requires Paired(t, s0) && Born(t, t') && forall i: nat :: i in s.of ==> i in s0.of
    ensures t'.current < s0.slots && t'.current !in s.of
    ensures forall p: nat :: p in s.of && p < |t'.procs| ==> Alive(t'.procs[p])
  {
  }

  lemma InSlots(t: Table, t': Table, s0: M.Spaces, born: bool)
    requires Paired(t, s0) && (if born then Born(t, t') else Stays(t, t')) && t'.current < |t'.procs|
    ensures t'.current < s0.slots
  {
  }

  // ---- what both say about frames ----

  /** Page g of slot i, whose process is alive, is in frame f. */
  ghost predicate In(c: Machine, i: nat, g: nat, f: nat)
    reads c, c.k, c.u
  {
    i < |c.k.procs| && Alive(c.k.procs[i]) && i < |c.u.pages| && g in c.u.pages[i] && c.u.pages[i][g] == f
  }

  /** Every frame is on the free list, once, or has exactly one page of one process that is alive in the
      process table. */
  lemma OneHolder(c: Machine, s: M.Spaces, f: nat)
    requires c.Valid(s) && f < |c.u.frames|
    ensures multiset(c.u.freeframes)[f] <= 1
    ensures f in c.u.freeframes <==> forall i: nat, g: nat :: !In(c, i, g, f)
    ensures forall i: nat, g: nat, j: nat, h: nat :: In(c, i, g, f) && In(c, j, h, f) ==> i == j && g == h
  {
    hide M.BytesShown, M.TablesShown, Paging.TlbOk;
    M.ShowsParts(s, c.u.View());
    KernelRuns.NoDupCount(c.u.freeframes, f);
    assert Paging.FramesOk(c.u.View(), c.u.own);
    if c.u.own[f].Held? { assert In(c, c.u.own[f].slot, c.u.own[f].page, f); }
  }

  // ---- runs ----

  datatype Act = Sys(input: KernelSteps.Input, exec: Paging.Exec) | Mem(op: M.Op, rounds: seq<Round>)

  datatype Reply = Called(res: Result, leaked: bool) | Accessed(r: M.Answer, ended: Option<Result>)

  predicate ActOk(a: Act, size: nat)
    requires size > 0
  {
    match a
    case Sys(i, exec) => KernelSteps.InputOk(i) && (i.call.SysCreate? ==> Paging.Loadable(exec, size))
    case Mem(op, rounds) => InProcess(op) && RoundsOk(rounds) && |rounds| > 0
  }

  /** The machine at some moment: its process table, and its memory as the processes know it */
  datatype Moment = Moment(table: Table, curfew: nat, spaces: M.Spaces)

  /** Somebody goes on. */
  ghost predicate Going(a: Moment) {
    && TableOk(a.table, {}, {}) && AtWork(a.table) && a.table.nextPid > 0
    && Paired(a.table, a.spaces) && a.spaces.current == a.table.current
  }

  predicate Halts(y: Reply) {
    match y
    case Called(res, leaked) => res.outcome != Resumed || leaked
    case Accessed(r, ended) => M.OutOfFrames(r) || (ended.Some? && ended.value.outcome != Resumed)
  }

  predicate Leaks(y: Reply) {
    y.Called? && y.leaked
  }

  /** Slot by slot, processes keep their spaces, and those of others do not change. */
  ghost predicate Faithful(a: Moment, b: Moment) {
    forall i: nat :: i in a.spaces.of && i in b.spaces.of && i < |a.table.procs| && i < |b.table.procs| ==>
      && b.table.procs[i].pid == a.table.procs[i].pid
      && (i != a.table.current ==> b.spaces.of[i] == a.spaces.of[i])
  }

  /** A process that starts out of order was made by one that has touched memory since it was switched to. */
  ghost predicate StepOk(a: Moment, act: Act, y: Reply, b: Moment) {
    && Going(a) && ActOk(act, a.spaces.size)
    && Paired(b.table, b.spaces) && Faithful(a, b) && (!Halts(y) ==> Going(b))
    && match act
       case Sys(i, exec) =>
         && y.Called? && y.res == KernelSteps.After(a.table, a.curfew, i)
         && (y.leaked ==> Bears(i, y.res) && !a.spaces.quiet)
         && b == Moment(y.res.table, KernelSteps.CurfewAfter(a.curfew, i),
                        Settled(a.spaces, y.res.table, Bears(i, y.res), exec, y.res.outcome == Resumed))
       case Mem(op, rounds) =>
         && y.Accessed? && M.AnswerOk(a.spaces, op, y.r) && (y.ended.Some? <==> Fatal(op, y.r))
         && b.curfew == a.curfew
         && if y.ended == None then b.table == a.table && b.spaces == M.After(a.spaces, op, y.r)
            else
              && y.ended.value == ExitCall(a.table, a.curfew, STAT_ILLMEM, rounds) && b.table == y.ended.value.table
              && b.spaces == Settled(M.After(a.spaces, op, y.r), b.table, false, NO_EXEC, y.ended.value.outcome == Resumed)
  }

  lemma SettledKeeps(s: M.Spaces, t: Table, born: bool, exec: Paging.Exec, resumed: bool, i: nat)
    requires i in s.of && i in Settled(s, t, born, exec, resumed).of && (born ==> i != t.current)
    ensures Settled(s, t, born, exec, resumed).of[i] == s.of[i]
  {
    TrimIs(s, t.procs, |t.procs|);
  }

  lemma FaithfulCall(a: Moment, b: Moment, born: bool, exec: Paging.Exec, resumed: bool)
    requires Paired(a.table, a.spaces) && b.spaces == Settled(a.spaces, b.table, born, exec, resumed)
    requires if born then Born(a.table, b.table) else Stays(a.table, b.table)
    ensures Faithful(a, b)
  {
    hide Settled;
    forall i: nat | i in a.spaces.of && i in b.spaces.of && i < |a.table.procs| && i < |b.table.procs|
      ensures b.table.procs[i].pid == a.table.procs[i].pid && b.spaces.of[i] == a.spaces.of[i]
    {
      if !born { assert StaysAt(a.table.procs[i], b.table.procs[i]); }
      SettledKeeps(a.spaces, b.table, born, exec, resumed, i);
    }
  }

  lemma FaithfulAccess(a: Moment, op: M.Op, r: M.Answer)
    requires AtWork(a.table) && a.spaces.current == a.table.current && Paired(a.table, a.spaces) && InProcess(op)
    requires M.AnswerOk(a.spaces, op, r)
    ensures Faithful(a, a.(spaces := M.After(a.spaces, op, r)))
  {
  }

  lemma FaithfulEnd(a: Moment, b: Moment, op: M.Op, r: M.Answer, resumed: bool)
    requires AtWork(a.table) && a.spaces.current == a.table.current && Paired(a.table, a.spaces) && Fatal(op, r)
    requires M.AnswerOk(a.spaces, op, r) && Stays(a.table, b.table)
    requires b.spaces == Settled(M.After(a.spaces, op, r), b.table, false, NO_EXEC, resumed)
    ensures Faithful(a, b)
  {
    hide Settled;
    AccessKeeps(a.table, a.spaces, op, r);
    EndedSpaces(a.spaces, op, r);
    var s1 := M.After(a.spaces, op, r);
    TrimIs(s1, b.table.procs, |b.table.procs|);
    forall i: nat | i in a.spaces.of && i in b.spaces.of && i < |a.table.procs| && i < |b.table.procs|
      ensures b.table.procs[i].pid == a.table.procs[i].pid && (i != a.table.current ==> b.spaces.of[i] == a.spaces.of[i])
    {
      assert StaysAt(a.table.procs[i], b.table.procs[i]);
      if i != a.table.current { SettledKeeps(s1, b.table, false, NO_EXEC, resumed, i); }
    }
  }

  lemma EndedSpaces(s: M.Spaces, op: M.Op, r: M.Answer)
    requires s.size > 0 && s.current in s.of && Fatal(op, r) && M.AnswerOk(s, op, r)
    ensures forall i :: i in s.of && i != s.current ==> i in M.After(s, op, r).of && M.After(s, op, r).of[i] == s.of[i]
  {
  }

  ghost function MomentOf(c: Machine, s: M.Spaces): Moment
    reads c, c.k
  {
    Moment(c.k.View(), c.k.curfew, s)
  }

  lemma GoingIs(c: Machine, s: M.Spaces)
    requires c.Valid(s) && c.Works(s)
    ensures Going(MomentOf(c, s)) && s.size > 0
  {
  }

  /** One call or access of the process that runs */
  method Step(c: Machine, act: Act, ghost s: M.Spaces) returns (y: Reply, ghost s': M.Spaces)
    requires c.Valid(s) && c.Works(s) && s.size > 0 && ActOk(act, s.size)
    modifies c.k, c.u
    ensures StepOk(old(MomentOf(c, s)), act, y, MomentOf(c, s'))
    ensures Leaks(y) ==> !c.flushes && M.Exposed(c.u.View())
    ensures !Halts(y) ==> c.Valid(s') && c.Works(s')
  {
    hide M.Shows, M.AnswerOk, M.After, M.Exposed, KernelSteps.After, ExitCall, TableOk, AtWork, Mmu.Valid, Paging.Sizes,
         Settled, Paired, Stays, Born, Faithful;
    ghost var a := MomentOf(c, s);
    GoingIs(c, s);
    match act
    case Sys(i, exec) =>
      var res, leaked;
      res, leaked, s' := c.Call(i, exec, s);
      y := Called(res, leaked);
      FaithfulCall(a, MomentOf(c, s'), Bears(i, res), exec, res.outcome == Resumed);
      if !Halts(y) { GoingIs(c, s'); }
    case Mem(op, rounds) =>
      var r, ended;
      r, ended, s' := c.Access(op, rounds, s);
      y := Accessed(r, ended);
      AccessKeeps(a.table, s, op, r);
      if ended == None {
        FaithfulAccess(a, op, r);
      } else {
        FaithfulEnd(a, MomentOf(c, s'), op, r, ended.value.outcome == Resumed);
      }
      if !Halts(y) { GoingIs(c, s'); }
  }

  ghost predicate StepAt(trace: seq<Moment>, acts: seq<Act>, replies: seq<Reply>, j: nat)
    requires j < |replies| && j < |acts| && j + 1 < |trace|
  {
    StepOk(trace[j], acts[j], replies[j], trace[j + 1])
  }

  ghost predicate TraceOk(trace: seq<Moment>, acts: seq<Act>, replies: seq<Reply>) {
    && |trace| == |replies| + 1 && |replies| <= |acts|
    && forall j: nat :: j < |replies| ==> StepAt(trace, acts, replies, j)
  }

  /** Any calls and accesses, until nobody goes on, or a new process can read a page of another */
  method Run(c: Machine, acts: seq<Act>, ghost s: M.Spaces) returns (replies: seq<Reply>, ghost trace: seq<Moment>)
    requires c.Valid(s) && c.Works(s) && s.size > 0
    requires forall j :: 0 <= j < |acts| ==> ActOk(acts[j], s.size)
    modifies c.k, c.u
    ensures TraceOk(trace, acts, replies) && trace[0] == old(MomentOf(c, s))
    ensures trace[|replies|].table == c.k.View()
    ensures |replies| < |acts| ==> replies != [] && Halts(replies[|replies| - 1])
    ensures |replies| == 0 || !Halts(replies[|replies| - 1]) ==> c.Valid(trace[|replies|].spaces)
    ensures forall j :: 0 <= j < |replies| && Leaks(replies[j]) ==> !c.flushes && j == |replies| - 1 && M.Exposed(c.u.View())
  {
    hide M.Exposed, StepOk, ActOk, AtWork, M.Shows, Mmu.Valid, Paging.Sizes, TableOk, Paired;
    ghost var now := s;
    replies, trace := [], [MomentOf(c, s)];
    while |replies| < |acts|
      invariant c.Valid(now) && c.Works(now) && now.size == s.size
      invariant TraceOk(trace, acts, replies) && trace[0] == old(MomentOf(c, s))
      invariant trace[|replies|] == MomentOf(c, now)
      invariant (replies != [] ==> !Halts(replies[|replies| - 1])) && forall j :: 0 <= j < |replies| ==> !Leaks(replies[j])
      decreases |acts| - |replies|
    {
      ghost var was := now;
      var act := acts[|replies|];
      var y;
      y, now := Step(c, act, was);
      TraceLonger(trace, acts, replies, y, MomentOf(c, now));
      SameSize(trace[|replies|], act, y, MomentOf(c, now));
      replies, trace := replies + [y], trace + [MomentOf(c, now)];
      if Halts(y) { return; }
    }
  }

  lemma TraceLonger(trace: seq<Moment>, acts: seq<Act>, replies: seq<Reply>, y: Reply, b: Moment)
    requires TraceOk(trace, acts, replies) && |replies| < |acts|
    requires StepOk(trace[|replies|], acts[|replies|], y, b)
    ensures TraceOk(trace + [b], acts, replies + [y])
  {
    hide StepOk;
    forall j: nat | j < |replies + [y]| ensures StepAt(trace + [b], acts, replies + [y], j) {
      if j < |replies| { assert StepAt(trace, acts, replies, j); }
    }
  }

  lemma SameSize(a: Moment, act: Act, y: Reply, b: Moment)
    requires StepOk(a, act, y, b)
    ensures b.spaces.size == a.spaces.size
  {
    hide Faithful, Going, M.AnswerOk, KernelSteps.After, ExitCall;
    match act
    case Sys(i, exec) => TrimIs(a.spaces, b.table.procs, |b.table.procs|);
    case Mem(op, rounds) =>
      if y.ended.Some? { TrimIs(M.After(a.spaces, op, y.r), b.table.procs, |b.table.procs|); }
  }

  /** The machine from its start */
  method Boot(slots: nat, frames: seq<Paging.Page>, vm: seq<Paging.Page>, entries: nat, size: nat, flushes: bool,
          acts: seq<Act>)
    returns (c: Machine, replies: seq<Reply>, ghost trace: seq<Moment>)
    requires slots > 0 && entries > 0 && size > 0
    requires forall f :: 0 <= f < |frames| ==> |frames[f]| == size
    requires forall g :: 0 <= g < |vm| ==> |vm[g]| == size
    requires forall j :: 0 <= j < |acts| ==> ActOk(acts[j], size)
    ensures TraceOk(trace, acts, replies)
    ensures trace[0].table == Start(slots) && trace[0].spaces == M.AtBoot(|frames|, |vm|, slots, size)
    ensures |replies| < |acts| ==> replies != [] && Halts(replies[|replies| - 1])
    ensures |replies| == 0 || !Halts(replies[|replies| - 1]) ==> c.Valid(trace[|replies|].spaces)
    ensures forall j :: 0 <= j < |replies| && Leaks(replies[j]) ==> !flushes && j == |replies| - 1 && M.Exposed(c.u.View())
  {
    hide TraceOk, StepOk, Halts, M.Exposed;
    c := new Machine(slots, frames, vm, entries, size, flushes);
    replies, trace := Run(c, acts, M.AtBoot(|frames|, |vm|, slots, size));
  }
}
