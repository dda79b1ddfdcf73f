/** The kernel as it runs: global tables changed in place, step by step. Every assertion that the
    code makes about them is proved where it is made. */
module Kernels {
  import opened Processes
  import opened Messaging
  import opened Killing
  import opened Scheduling
  import opened Calls

  /** Only a process that waits has a mailbox that waits. */
  lemma SendReads(k: Table, limbo: set<nat>, dying: set<nat>, dst: nat, t: nat)
    requires TableOk(k, limbo, dying) && BoxesOk(k) && t < NTYPES
    ensures var d := Find(k, dst);
      d >= 0 && k.procs[d].state != Zombie && k.procs[d].boxes[t].waiting ==> k.procs[d].state == Waiting
  {
    FindIs(k, dst);
    var d := Find(k, dst);
    if d >= 0 { assert ProcOk(k.procs[d], AlivePids(k.procs), dying, k.nextPid); }
  }

  /** The current process is in use, so that there always is one. */
  lemma SomeProc(k: Table)
    requires TableOk(k, {}, {})
    ensures k.nprocs > 0
  {
    assert k.current in InUse(k.procs);
  }

  lemma BoxesAt(k: Table, j: nat)
    requires BoxesOk(k) && j < |k.procs|
    ensures |k.procs[j].boxes| == NTYPES
  {
  }

  lemma FailClientsStep(k: Table, pid: nat, j: nat)
    requires BoxesOk(k) && j < |k.procs|
    ensures |k.procs[j].boxes| == NTYPES
    ensures BoxesOk(if Stranded(k.procs[j], pid) then WakeUp(k, j) else k)
    ensures FailClients(k, pid, j) == FailClients(if Stranded(k.procs[j], pid) then WakeUp(k, j) else k, pid, j + 1)
    ensures WakeUp(k, j) == k.(procs := WakeUp(k, j).procs, runq := WakeUp(k, j).runq, nrunnable := WakeUp(k, j).nrunnable)
  {
  }

  lemma FailClientsEnd(k: Table, pid: nat)
    requires BoxesOk(k)
    ensures FailClients(k, pid, |k.procs|) == k
  {
  }

  lemma KillAllStep(k: Table, killer: int, status: int, i: nat)
    requires BoxesOk(k) && i < |k.procs| && killer < |k.procs|
    ensures KillAll(k, killer, status, i) ==
      KillAll(if k.procs[i].state != Free && k.procs[i].interruptable then Zap(k, killer, i, status) else k, killer, status, i + 1)
  {
  }

  lemma KillAllEnd(k: Table, killer: int, status: int)
    requires BoxesOk(k) && killer < |k.procs|
    ensures KillAll(k, killer, status, |k.procs|) == k
  {
  }

  lemma ScanStep(k: Table, now: nat, i: nat)
    requires BoxesOk(k) && i < |k.procs|
    ensures Scan(k, now, i) == Scan(ScanOne(k, now, i), now, i + 1)
  {
  }

  lemma ScanEnd(k: Table, now: nat)
    requires BoxesOk(k)
    ensures Scan(k, now, |k.procs|) == k
  {
  }

  lemma NoneNegative(k: Table)
    requires TableOk(k, {}, {})
    ensures k.nrunnable >= 0
  {
  }

  lemma WakeCount(k: Table, i: nat)
    requires i < |k.procs|
    ensures var k' := WakeUp(k, i);
      k'.nrunnable == k.nrunnable + 1 && k'.shutting == k.shutting && k'.current == k.current && k'.nextPid == k.nextPid
      && k'.free == k.free && k'.nprocs == k.nprocs && |k'.procs| == |k.procs|
  {
  }

  lemma OtherPid(k: Table, n: nat)
    requires TableOk(k, {n}, {}) && n < |k.procs| && k.current < |k.procs| && n != k.current
    requires k.procs[n].state == Runnable
    ensures k.procs[n].pid != k.procs[k.current].pid
  {
  }

  /** No mailbox of a process that runs is marked as waiting. */
  lemma NoneWaits(k: Table)
    requires TableOk(k, {}, {}) && k.current < |k.procs| && k.procs[k.current].state == Runnable
    ensures |k.procs[k.current].boxes| == NTYPES
    ensures forall t: nat :: t < NTYPES ==> !k.procs[k.current].boxes[t].waiting
  {
    assert ProcOk(k.procs[k.current], AlivePids(k.procs), {}, k.nextPid);
  }

  lemma PidInRange(k: Table, pid: nat)
    requires TableOk(k, {}, {}) && pid in AlivePids(k.procs)
    ensures 0 < pid < k.nextPid
  {
    AliveBelow(k, pid);
  }

  lemma FoundInUse(k: Table, pid: nat)
    requires TableOk(k, {}, {})
    ensures Find(k, pid) >= 0 ==> k.procs[Find(k, pid)].state != Free
  {
    FindIs(k, pid);
  }

  /** The slot given out is not that of the current process. */
  lemma StillAtWork(k: Table, owner: nat, uid: nat)
    requires TableOk(k, {}, {}) && AtWork(k) && k.free != [] && k.free[0] < |k.procs|
    ensures Alloc(k, owner, uid).procs[k.current] == k.procs[k.current]
  {
    FreeInTable(k);
  }

  function EmptySlot(i: nat): Proc {
    Proc(i, 0, 0, Free, [Box(false, []), Box(false, []), Box(false, [])], 0, false, 0, false, Running)
  }

  /** The tables before the first process is allocated. */
  function NoProcesses(n: nat): Table {
    Table(seq(n, (i: nat) => EmptySlot(i)), 0, [], seq(n, (i: nat) => i), 0, 0, 1, false)
  }

  /** The first process, which owns itself. */
  function Start(n: nat): Table
    requires n > 0
  {
    Alloc(NoProcesses(n), 1, 0)
  }

  class Kernel {
    var procs: seq<Proc>
    var current: nat
    var runq: seq<nat>
    var free: seq<nat>
    var nprocs: int
    var nrunnable: int
    var nextPid: nat
    var shutting: bool
    var curfew: nat

    ghost function View(): Table
      reads this
    {
      Table(procs, current, runq, free, nprocs, nrunnable, nextPid, shutting)
    }

    ghost predicate Valid()
      reads this
    {
      TableOk(View(), {}, {})
    }

    /** proc_initialize */
    constructor (n: nat)
      requires n > 0
      ensures View() == Start(n) && curfew == 0
    {
      procs, free, runq := [], [], [];
      current, nprocs, nrunnable, nextPid, shutting, curfew := 0, 0, 0, 1, false, 0;
      new;
      var i := 0;
      while i < n
        invariant i <= n && procs == seq(i, (j: nat) => EmptySlot(j)) && free == seq(i, (j: nat) => j)
        invariant runq == [] && current == 0 && nprocs == 0 && nrunnable == 0 && nextPid == 1 && !shutting
        invariant curfew == 0
      {
        procs := procs + [EmptySlot(i)];
        free := free + [i];
        i := i + 1;
      }
      var main := free[0];
      free := free[1..];
      var box := Box(false, []);
      procs := procs[main := Proc(nextPid, 0, 1, Runnable, [box, box, box], 0, false, 0, false, Running)];
      nextPid := nextPid + 1;
      nprocs := nprocs + 1;
      nrunnable := nrunnable + 1;
      current := main;
    }

    /** proc_find */
    method FindProc(pid: nat) returns (r: int)
      ensures r == Find(View(), pid)
    {
      var i := 0;
      while i < |procs|
        invariant i <= |procs| && Find(View(), pid) == FindFrom(procs, pid, i)
      {
        if procs[i].state != Free && procs[i].pid == pid { return i; }
        i := i + 1;
      }
      r := -1;
    }

    /** proc_to_runqueue */
    method ToRunQueue(i: nat)
      requires i < |procs| && procs[i].state == Runnable
      modifies `runq
      ensures runq == old(runq) + [i]
    {
      runq := runq + [i];
    }

    /** proc_send */
    method ProcSend(m: Message, dst: nat, t: nat, ghost limbo: set<nat>, ghost dying: set<nat>) returns (ok: bool)
      requires TableOk(View(), limbo, dying) && BoxesOk(View()) && t < NTYPES
      modifies `procs, `runq, `nrunnable
      ensures (View(), ok) == Send(old(View()), m, dst, t)
    {
      hide TableOk, AlivePids, Find;
      SendReads(View(), limbo, dying, dst, t);
      var d := FindProc(dst);
      if d < 0 { return false; }
      if procs[d].state == Zombie { return false; }
      if t == REPLY {
        if procs[d].state != Waiting || !procs[d].boxes[t].waiting || procs[d].server != m.src { return false; }
      }
      var p := procs[d];
      p := p.(boxes := p.boxes[t := p.boxes[t].(messages := p.boxes[t].messages + [m])]);
      if p.boxes[t].waiting {
        assert p.state == Waiting;
        p := p.(state := Runnable);
        nrunnable := nrunnable + 1;
        p := p.(alarm := false);
        procs := procs[d := p];
        if d != current { ToRunQueue(d); }
        p := p.(boxes := p.boxes[t := p.boxes[t].(waiting := false)]);
        assert p.boxes == Delivered(old(procs)[d], t, m);
      }
      procs := procs[d := p];
      assert procs == old(procs)[d := p];
      ok := true;
    }

    /** proc_wakeup */
    method ProcWakeup(i: nat)
      requires i < |procs| && procs[i].state == Waiting
      modifies `procs, `runq, `nrunnable
      ensures View() == WakeUp(old(View()), i)
    {
      ghost var p := procs[i];
      procs := procs[i := procs[i].(state := Runnable)];
      nrunnable := nrunnable + 1;
      procs := procs[i := procs[i].(alarm := false)];
      if i != current { ToRunQueue(i); }
      var boxes, t := procs[i].boxes, 0;
      while t < |boxes|
        invariant t <= |boxes| == |p.boxes|
        invariant forall j :: 0 <= j < t ==> boxes[j] == p.boxes[j].(waiting := false)
        invariant forall j :: t <= j < |boxes| ==> boxes[j] == p.boxes[j]
      {
        boxes := boxes[t := boxes[t].(waiting := false)];
        t := t + 1;
      }
      assert boxes == NoneWaiting(p.boxes);
      procs := procs[i := procs[i].(boxes := boxes)];
      assert procs == old(procs)[i := Woken(p, boxes)];
    }

    /** proc_release */
    method ProcRelease(i: nat)
      requires i < |procs| && procs[i].state == Zombie
      modifies `procs, `nprocs, `free
      ensures View() == Release(old(View()), i)
    {
      nprocs := nprocs - 1;
      procs := procs[i := procs[i].(state := Free)];
      free := free + [i];
    }

    /** proc_term, for a process that is alive */
    method ProcTerm(i: nat, status: int)
      requires Valid() && i < |procs| && Alive(procs[i])
      modifies `procs, `runq, `nrunnable
      ensures BoxesOk(old(View())) && View() == Term(old(View()), i, status)
    {
      hide TableOk, AlivePids, Send, FailClients, LimboOf, BoxesOk, WakeUp;
      ghost var k0 := View();
      TableBoxes(k0, {}, {});
      SomeProc(k0);
      assert nprocs > 0;
      MarkOk(k0, i);
      TableBoxes(Mark(k0, i), LimboOf(k0, i), {k0.procs[i].pid});
      if procs[i].state == Runnable { nrunnable := nrunnable - 1; }
      procs := procs[i := procs[i].(state := Zombie)];
      var pid := procs[i].pid;
      var owner := FindProc(procs[i].owner);
      if owner >= 0 {
        var ok := ProcSend(Obituary(procs[i], status), procs[owner].pid, EVENT, LimboOf(k0, i), {pid});
      }
      ghost var k2 := View();
      var j := 0;
      while j < |procs|
        invariant j <= |procs| && BoxesOk(View()) && FailClients(View(), pid, j) == FailClients(k2, pid, 0)
        invariant View() == k2.(procs := procs, runq := runq, nrunnable := nrunnable)
      {
        FailClientsStep(View(), pid, j);
        BoxesAt(View(), j);
        if procs[j].state == Waiting && procs[j].boxes[REPLY].waiting && procs[j].server == pid {
          ProcWakeup(j);
        }
        j := j + 1;
      }
      FailClientsEnd(View(), pid);
    }

    /** proc_zap */
    method ProcZap(killer: int, i: nat, status: int)
      requires Valid() && killer < |procs| && i < |procs| && procs[i].state != Free
      modifies `procs, `runq, `nrunnable, `nprocs, `free
      ensures Valid() && BoxesOk(old(View())) && View() == Zap(old(View()), killer, i, status)
    {
      ghost var k0 := View();
      hide TableOk, AlivePids, Term, Release, BoxesOk, Fewer;
      ZapOk(k0, killer, i, status);
      if killer >= 0 && procs[killer].uid != 0 && procs[killer].uid != procs[i].uid { return; }
      SomeProc(k0);
      assert nprocs > 0;
      match procs[i].state {
        case Runnable => ProcTerm(i, status);
        case Waiting =>
          TermOk(k0, i, status);
          ProcTerm(i, status);
          if i != current { ProcRelease(i); }
        case Zombie =>
        case Free => assert false;
      }
    }

    /** proc_kill, of all interruptable processes */
    method KillInterruptable(killer: int, status: int)
      requires Valid() && killer < |procs|
      modifies `procs, `runq, `nrunnable, `nprocs, `free
      ensures Valid() && BoxesOk(old(View())) && View() == KillAll(old(View()), killer, status, 0)
    {
      hide TableOk, AlivePids, Zap, KillAll, BoxesOk;
      ghost var k0 := View();
      TableBoxes(k0, {}, {});
      var i := 0;
      while i < |procs|
        invariant i <= |procs| == |k0.procs| && Valid() && BoxesOk(View())
        invariant KillAll(View(), killer, status, i) == KillAll(k0, killer, status, 0)
        invariant current == k0.current && nextPid == k0.nextPid && shutting == k0.shutting
      {
        KillAllStep(View(), killer, status, i);
        if procs[i].state != Free && procs[i].interruptable {
          ZapOk(View(), killer, i, status);
          ProcZap(killer, i, status);
          TableBoxes(View(), {}, {});
        }
        i := i + 1;
      }
      KillAllEnd(View(), killer, status);
    }

    /** What interrupt handlers do during earth.intr.suspend */
    method Suspend(events: seq<Event>)
      requires Valid() && EventsOk(events)
      modifies `procs, `runq, `nrunnable, `nprocs, `free
      ensures Valid() && BoxesOk(old(View())) && View() == HandleAll(old(View()), events)
    {
      hide TableOk, AlivePids, KillAll, Send, BoxesOk;
      ghost var k0 := View();
      TableBoxes(k0, {}, {});
      var j := 0;
      while j < |events|
        invariant j <= |events| && Valid() && BoxesOk(View()) && |procs| == |k0.procs|
        invariant HandleAll(View(), events[j..]) == HandleAll(k0, events)
        invariant current == k0.current && nextPid == k0.nextPid && shutting == k0.shutting
      {
        HandleOk(View(), events[j]);
        assert events[j..][0] == events[j] && events[j..][1..] == events[j + 1..];
        match events[j] {
          case Device(m, dst, box) =>
            var ok := ProcSend(m, dst, box, {}, {});
          case Interrupt(killer, status) =>
            var s := FindProc(killer);
            if s >= 0 { KillInterruptable(s, status); }
        }
        TableBoxes(View(), {}, {});
        j := j + 1;
      }
    }

    /** proc_yield: the scan for timeouts; also the time of the next one. */
    method ScanTimeouts(now: nat) returns (next: nat)
      requires Valid()
      modifies `procs, `runq, `nrunnable, `nprocs, `free
      ensures Valid() && BoxesOk(old(View())) && View() == Scan(old(View()), now, 0)
      ensures nrunnable == 0 ==> next >= now
    {
      hide TableOk, AlivePids, Zap, Scan, BoxesOk, WakeUp;
      ghost var k0 := View();
      TableBoxes(k0, {}, {});
      next := now + 1000;
      var i := 0;
      while i < |procs|
        invariant i <= |procs| == |k0.procs| && Valid() && BoxesOk(View())
        invariant Scan(View(), now, i) == Scan(k0, now, 0)
        invariant current == k0.current && nextPid == k0.nextPid && shutting == k0.shutting
        invariant next < now ==> !shutting && nrunnable > 0
      {
        ScanStep(View(), now, i);
        ScanOneOk(View(), now, i);
        NoneNegative(View());
        if shutting && procs[i].state != Free {
          ProcZap(-1, i, STAT_SHUTDOWN);
        } else if procs[i].state == Waiting && procs[i].alarm {
          var exptime := procs[i].exptime;
          if exptime <= now {
            WakeCount(View(), i);
            ProcWakeup(i);
          }
          if exptime < next { next := exptime; }
        }
        TableBoxes(View(), {}, {});
        i := i + 1;
      }
      ScanEnd(View(), now);
    }

    /** proc_yield: the first runnable process of the run queue, or -1; zombies found on the way are
        released. */
    method PopRunnable() returns (n: int)
      requires Valid()
      modifies `procs, `runq, `nprocs, `free
      ensures forall j :: 0 <= j < |old(runq)| ==> old(runq)[j] < |old(procs)|
      ensures (View(), n) == Pop(old(View()))
    {
      hide AlivePids, Counts, Pids, Procs, Fewer, Release;
      ghost var k0 := View();
      PopOk(k0);
      while runq != []
        invariant Valid() && current == k0.current && |procs| == |k0.procs|
        invariant forall j :: 0 <= j < |runq| ==> runq[j] < |procs|
        invariant Pop(View()) == Pop(k0)
        invariant nextPid == k0.nextPid && shutting == k0.shutting && nrunnable == k0.nrunnable
        decreases |runq|
      {
        QueueInTable(View(), {});
        HeadTaken(View());
        n := runq[0];
        runq := runq[1..];
        if procs[n].state == Runnable { return; }
        assert procs[n].state == Zombie;
        ReleaseOk(View(), {n}, {}, n);
        assert {n} - {n} == {};
        ReleaseParts(View(), n);
        ProcRelease(n);
        QueueInTable(View(), {});
      }
      n := -1;
    }

    /** The context switch to slot n, and proc_after_switch as run by the process there. */
    method SwitchTo(n: nat)
      requires TableOk(View(), {n}, {}) && n < |procs| && n != current && procs[n].state == Runnable
      requires current < |procs|
      modifies `procs, `runq, `nprocs, `free, `current
      ensures View() == Switch(old(View()), n)
    {
      OtherPid(View(), n);
      assert procs[n].pid != procs[current].pid;
      assert procs[n].state == Runnable;
      if procs[current].state == Runnable { ToRunQueue(current); }
      assert n != current;
      if procs[current].state == Zombie { ProcRelease(current); }
      current := n;
    }

    /** proc_yield */
    method ProcYield(rounds: seq<Round>) returns (o: Outcome)
      requires Valid() && RoundsOk(rounds) && |rounds| > 0
      modifies `procs, `runq, `nrunnable, `nprocs, `free, `current
      ensures Valid() && (View(), o) == Yield(old(View()), curfew, rounds)
    {
      hide TableOk, AlivePids, Scan, HandleAll, Pop, Switch, BoxesOk;
      HandleAllOk(View(), rounds[0].events);
      ghost var y := Yield(View(), curfew, rounds);
      Suspend(rounds[0].events);
      var now: nat, rest := rounds[0].now, rounds[1..];
      SomeProc(View());
      assert nprocs > 0;
      while true
        invariant Valid() && RoundsOk(rest) && YieldLoop(View(), curfew, now, rest) == y
        decreases |rest|
      {
        if curfew != 0 && now > curfew { return Stopped; }
        ScanOk(View(), now, 0);
        var next := ScanTimeouts(now);
        ghost var k1 := View();
        PopOk(k1);
        var n := PopRunnable();
        CurrentIn(View(), if n < 0 then {} else {n});
        if n >= 0 {
          SwitchOk(View(), n);
          SwitchTo(n);
          return Resumed;
        }
        SomeProc(View());
        assert nprocs > 0;
        if procs[current].state == Runnable { return Resumed; }
        if nprocs == 1 && shutting { return Stopped; }
        NobodyElse(View());
        assert next >= now;
        if rest == [] { return Idle; }
        HandleAllOk(View(), rest[0].events);
        Suspend(rest[0].events);
        now, rest := rest[0].now, rest[1..];
      }
    }

    /** A process that gets the CPU goes on where it was: in proc_recv, it takes its message. */
    method GoOn() returns (r: Option<Receipt>)
      requires Valid() && current < |procs| && procs[current].state == Runnable
      modifies `procs
      ensures Valid() && AtWork(View()) && current < |old(procs)|
      ensures old(procs)[current].cont.Receiving? ==> old(procs)[current].cont.box < |old(procs)[current].boxes|
      ensures (View(), r) == Take(old(View()))
    {
      hide TableOk, AlivePids;
      TakeOk(View());
      var p := procs[current];
      if p.cont.Receiving? {
        var t := p.cont.box;
        NoneWaits(View());
        assert !p.boxes[t].waiting;
        r := Some(Receipt(p.pid, t, p.cont.named, None));
        if p.boxes[t].messages != [] {
          r := Some(Receipt(p.pid, t, p.cont.named, Some(p.boxes[t].messages[0])));
          p := p.(boxes := p.boxes[t := p.boxes[t].(messages := p.boxes[t].messages[1..])]);
        }
        assert p.boxes == Taken(procs[current], t).boxes;
        procs := procs[current := p.(cont := Running)];
      } else {
        r := None;
      }
    }

    method YieldAndGoOn(rounds: seq<Round>) returns (o: Outcome, r: Option<Receipt>)
      requires Valid() && RoundsOk(rounds) && |rounds| > 0
      modifies `procs, `runq, `nrunnable, `nprocs, `free, `current
      ensures Valid() && (View(), o, r) == Resume(old(View()), curfew, rounds)
    {
      hide TableOk, AlivePids, Yield, Take;
      o := ProcYield(rounds);
      r := None;
      if o == Resumed { r := GoOn(); }
    }

    /** proc_recv up to the point where the process gives up the CPU */
    method StartWaiting(t: nat, named: nat, max: nat, now: nat)
      requires AtWork(View()) && t < |procs[current].boxes| && !procs[current].boxes[t].waiting
      modifies `procs, `nrunnable
      ensures current < |old(procs)| && t < |old(procs)[current].boxes|
      ensures View() == Block(old(View()), t, named, max, now)
    {
      var p := procs[current];
      p := p.(boxes := p.boxes[t := p.boxes[t].(waiting := true)]);
      p := p.(state := Waiting);
      nrunnable := nrunnable - 1;
      if max != 0 {
        p := p.(exptime := now + max);
        p := p.(alarm := true);
      }
      procs := procs[current := p.(cont := Receiving(t, named))];
    }

    /** sys_send */
    method SysSendCall(dst: nat, box: nat, contents: seq<int>) returns (res: Result)
      requires Valid() && AtWork(View())
      modifies `procs, `runq, `nrunnable
      ensures res == SendCall(old(View()), dst, box, contents) && View() == res.table
    {
      hide TableOk, AlivePids, Send;
      TableBoxes(View(), {}, {});
      if box != REPLY && box != EVENT {
        return Result(Copy(), Resumed, None, -1);
      }
      var ok := ProcSend(Message(procs[current].pid, procs[current].uid, contents), dst, box, {}, {});
      res := Result(Copy(), Resumed, None, if ok then 0 else -1);
    }

    function Copy(): (t: Table)
      reads this
      ensures t == View()
    {
      Table(procs, current, runq, free, nprocs, nrunnable, nextPid, shutting)
    }

    /** sys_recv */
    method SysRecvCall(box: nat, max: nat, now: nat, rounds: seq<Round>) returns (res: Result)
      requires Valid() && AtWork(View()) && RoundsOk(rounds) && |rounds| > 0
      modifies `procs, `runq, `nrunnable, `nprocs, `free, `current
      ensures res == RecvCall(old(View()), curfew, box, max, now, rounds) && View() == res.table
    {
      hide TableOk, AlivePids, Resume;
      TableBoxes(View(), {}, {});
      NoneWaits(View());
      if box != REQUEST && box != EVENT {
        return Result(Copy(), Resumed, None, -1);
      }
      var p := procs[current];
      if p.boxes[box].messages != [] {
        assert box != REPLY;
        procs := procs[current := Taken(p, box)];
        return Result(Copy(), Resumed, Some(Receipt(p.pid, box, 0, Some(p.boxes[box].messages[0]))), 0);
      }
      BlockOk(View(), box, 0, max, now);
      StartWaiting(box, 0, max, now);
      var o, r := YieldAndGoOn(rounds);
      res := Result(Copy(), o, r, 0);
    }

    /** sys_rpc */
    method SysRpcCall(dst: nat, contents: seq<int>, rounds: seq<Round>) returns (res: Result)
      requires Valid() && AtWork(View()) && RoundsOk(rounds) && |rounds| > 0
      modifies `procs, `runq, `nrunnable, `nprocs, `free, `current
      ensures res == RpcCall(old(View()), curfew, dst, contents, rounds) && View() == res.table
    {
      hide TableOk, AlivePids, Resume, Send;
      ghost var k0 := View();
      TableBoxes(k0, {}, {});
      if dst == procs[current].pid {
        return Result(Copy(), Resumed, None, -1);
      }
      var m := Message(procs[current].pid, procs[current].uid, contents);
      SendOk(k0, {}, {}, m, dst, REQUEST);
      SendFrame(k0, m, dst, REQUEST);
      SendWorks(k0, m, dst, REQUEST);
      var ok := ProcSend(m, dst, REQUEST, {}, {});
      if !ok {
        return Result(Copy(), Resumed, None, -1);
      }
      NameOk(View(), dst);
      procs := procs[current := procs[current].(server := dst)];
      NoReplyYet(View());
      NoneWaits(View());
      PidInRange(k0, dst);
      BlockOk(View(), REPLY, dst, 0, 0);
      StartWaiting(REPLY, dst, 0, 0);
      var o, r := YieldAndGoOn(rounds);
      res := Result(Copy(), o, r, 0);
    }

    /** sys_exit */
    method SysExitCall(status: int, rounds: seq<Round>) returns (res: Result)
      requires Valid() && AtWork(View()) && RoundsOk(rounds) && |rounds| > 0
      modifies `procs, `runq, `nrunnable, `nprocs, `free, `current
      ensures res == ExitCall(old(View()), curfew, status, rounds) && View() == res.table
    {
      hide TableOk, AlivePids, Resume, Term;
      TermOk(View(), current, status);
      ProcTerm(current, status);
      var o, r := YieldAndGoOn(rounds);
      res := Result(Copy(), o, r, 0);
    }

    /** proc_kill */
    method ProcKill(killer: nat, pid: nat, status: int, rounds: seq<Round>) returns (res: Result)
      requires Valid() && AtWork(View()) && RoundsOk(rounds) && |rounds| > 0
      modifies `procs, `runq, `nrunnable, `nprocs, `free, `current
      ensures res == KillCall(old(View()), curfew, killer, pid, status, rounds) && View() == res.table
    {
      hide TableOk, AlivePids, Resume, Zap, KillAll;
      ghost var k0 := View();
      TableBoxes(k0, {}, {});
      FoundInUse(k0, pid);
      var s := FindProc(killer);
      if s < 0 {
        return Result(Copy(), Resumed, None, 0);
      }
      if pid == 0 {
        KillAllOk(k0, s, status, 0);
        KillInterruptable(s, status);
        CurrentIn(View(), {});
        if procs[current].state == Zombie {
          var o, r := YieldAndGoOn(rounds);
          return Result(Copy(), o, r, 0);
        }
        return Result(Copy(), Resumed, None, 0);
      }
      var i := FindProc(pid);
      if i < 0 {
        return Result(Copy(), Resumed, None, 0);
      }
      ZapOk(k0, s, i, status);
      ProcZap(s, i, status);
      if procs[i].state == Zombie {
        var o, r := YieldAndGoOn(rounds);
        return Result(Copy(), o, r, 0);
      }
      res := Result(Copy(), Resumed, None, 0);
    }

    /** proc_create_uid, up to the first instruction of the new process */
    method ProcCreate(owner: nat, uid: nat) returns (pid: nat)
      requires Valid() && AtWork(View()) && nextPid > 0
      modifies `procs, `runq, `nrunnable, `nprocs, `free, `current, `nextPid
      ensures forall j :: 0 <= j < |old(free)| ==> old(free)[j] < |old(procs)|
      ensures (View(), pid) == Create(old(View()), owner, uid)
    {
      hide TableOk, AlivePids;
      CreateOk(View(), owner, uid);
      if shutting { return 0; }
      var parent := FindProc(owner);
      if parent < 0 { return 0; }
      var u := uid;
      if procs[parent].uid != 0 { u := procs[parent].uid; }
      if free == [] { return 0; }
      var i := free[0];
      free := free[1..];
      pid := nextPid;
      var box := Box(false, []);
      procs := procs[i := Proc(pid, u, owner, Runnable, [box, box, box], 0, false, 0, false, Running)];
      nextPid := nextPid + 1;
      nprocs := nprocs + 1;
      nrunnable := nrunnable + 1;
      StillAtWork(old(View()), owner, u);
      ToRunQueue(current);
      current := i;
    }
  }
}
