/** The scheduler: killing, timeouts, and choosing the process to run next. */
module Scheduling {
  import opened Processes
  import opened Messaging
  import opened Killing

  const STAT_SHUTDOWN: int := -4

  // ---- killing ----

  /** Only the superuser may kill processes of others (killer is a slot, or -1 for the kernel). */
  predicate MayKill(k: Table, killer: int, i: nat)
    requires i < |k.procs| && killer < |k.procs|
  {
    killer < 0 || k.procs[killer].uid == 0 || k.procs[killer].uid == k.procs[i].uid
  }

  /** proc_zap */
  function Zap(k: Table, killer: int, i: nat, status: int): (k': Table)
    requires i < |k.procs| && killer < |k.procs| && BoxesOk(k)
    ensures |k'.procs| == |k.procs| && BoxesOk(k')
  {
    if !MayKill(k, killer, i) || !Alive(k.procs[i]) then k
    else
      var k1 := Term(k, i, status);
      if k.procs[i].state == Waiting && i != k.current then Release(k1, i) else k1
  }

  /** What one or more deaths may change: nobody comes to life, and the CPU stays where it is. */
  ghost predicate Fewer(k: Table, k': Table) {
    && |k'.procs| == |k.procs| && k'.current == k.current && k'.nextPid == k.nextPid && k'.shutting == k.shutting
    && AlivePids(k'.procs) <= AlivePids(k.procs)
  }

  lemma ZapOk(k: Table, killer: int, i: nat, status: int)
    requires TableOk(k, {}, {}) && i < |k.procs| && killer < |k.procs|
    ensures BoxesOk(k)
    ensures var k' := Zap(k, killer, i, status);
      && TableOk(k', {}, {}) && Fewer(k, k')
      && AlivePids(k'.procs) == (if MayKill(k, killer, i) && Alive(k.procs[i]) then AlivePids(k.procs) - {k.procs[i].pid} else AlivePids(k.procs))
  {
    hide TableOk, Term, AlivePids, Release;
    TableBoxes(k, {}, {});
    if MayKill(k, killer, i) && Alive(k.procs[i]) {
      TermOk(k, i, status);
      TermShutting(k, i, status);
      var k1 := Term(k, i, status);
      if k.procs[i].state == Waiting && i != k.current {
        ReleaseOk(k1, {i}, {}, i);
        ReleaseParts(k1, i);
        assert {i} - {i} == {};
      }
    }
  }

  lemma TermShutting(k: Table, i: nat, status: int)
    requires i < |k.procs| && BoxesOk(k)
    ensures Term(k, i, status).shutting == k.shutting
  {
    var k1 := Mark(k, i);
    var owner := Find(k1, k.procs[i].owner);
    if owner >= 0 { SendFrame(k1, Obituary(k.procs[i], status), k1.procs[owner].pid, EVENT); }
    var k2 := if owner >= 0 then Send(k1, Obituary(k.procs[i], status), k1.procs[owner].pid, EVENT).0 else k1;
    FailShutting(k2, k.procs[i].pid, 0);
  }

  lemma {:induction false} FailShutting(k: Table, pid: nat, i: nat)
    requires i <= |k.procs| && BoxesOk(k)
    ensures FailClients(k, pid, i).shutting == k.shutting
    decreases |k.procs| - i
  {
    if i < |k.procs| { FailShutting(if Stranded(k.procs[i], pid) then WakeUp(k, i) else k, pid, i + 1); }
  }

  lemma ReleaseParts(k: Table, i: nat)
    requires i < |k.procs|
    ensures var k' := Release(k, i);
      |k'.procs| == |k.procs| && k'.current == k.current && k'.nextPid == k.nextPid && k'.shutting == k.shutting
  {
  }

  /** The loop of proc_kill over all interruptable processes, from slot i on. */
  function KillAll(k: Table, killer: int, status: int, i: nat): (k': Table)
    requires i <= |k.procs| && killer < |k.procs| && BoxesOk(k)
    ensures |k'.procs| == |k.procs| && BoxesOk(k')
    decreases |k.procs| - i
  {
    if i == |k.procs| then k
    else KillAll(if k.procs[i].state != Free && k.procs[i].interruptable then Zap(k, killer, i, status) else k, killer, status, i + 1)
  }

  lemma {:induction false} KillAllOk(k: Table, killer: int, status: int, i: nat)
    requires TableOk(k, {}, {}) && i <= |k.procs| && killer < |k.procs|
    ensures BoxesOk(k)
    ensures TableOk(KillAll(k, killer, status, i), {}, {}) && Fewer(k, KillAll(k, killer, status, i))
    decreases |k.procs| - i
  {
    hide TableOk, Zap, AlivePids;
    TableBoxes(k, {}, {});
    if i < |k.procs| {
      ZapOk(k, killer, i, status);
      var k1 := if k.procs[i].state != Free && k.procs[i].interruptable then Zap(k, killer, i, status) else k;
      KillAllOk(k1, killer, status, i + 1);
    }
  }

  // ---- the scan for timeouts ----

  /** One slot of proc_yield's scan. */
  function ScanOne(k: Table, now: nat, i: nat): (k': Table)
    requires i < |k.procs| && BoxesOk(k)
    ensures |k'.procs| == |k.procs| && BoxesOk(k')
  {
    var p := k.procs[i];
    if k.shutting && p.state != Free then Zap(k, -1, i, STAT_SHUTDOWN)
    else if p.state == Waiting && p.alarm && p.exptime <= now then WakeUp(k, i)
    else k
  }

  function Scan(k: Table, now: nat, i: nat): (k': Table)
    requires i <= |k.procs| && BoxesOk(k)
    ensures |k'.procs| == |k.procs| && BoxesOk(k')
    decreases |k.procs| - i
  {
    if i == |k.procs| then k else Scan(ScanOne(k, now, i), now, i + 1)
  }

  lemma ScanOneOk(k: Table, now: nat, i: nat)
    requires TableOk(k, {}, {}) && i < |k.procs|
    ensures BoxesOk(k)
    ensures TableOk(ScanOne(k, now, i), {}, {}) && Fewer(k, ScanOne(k, now, i))
  {
    hide Zap, Slots, Counts, Pids;
    TableBoxes(k, {}, {});
    ZapOk(k, -1, i, STAT_SHUTDOWN);
    var p := k.procs[i];
    if !k.shutting && p.state == Waiting && p.alarm {
      TimeoutOk(k, i);
    }
  }

  /** A process that waits for a reply has no alarm: a timeout never ends an RPC. */
  lemma TimeoutOk(k: Table, i: nat)
    requires TableOk(k, {}, {}) && i < |k.procs| && k.procs[i].state == Waiting && k.procs[i].alarm
    ensures TableOk(WakeUp(k, i), {}, {}) && AlivePids(WakeUp(k, i).procs) == AlivePids(k.procs)
    ensures k.procs[i].cont.Receiving? && k.procs[i].cont.box != REPLY
  {
    assert ProcOk(k.procs[i], AlivePids(k.procs), {}, k.nextPid);
    var boxes := NoneWaiting(k.procs[i].boxes);
    assert RunnableOk(Woken(k.procs[i], boxes), AlivePids(k.procs), k.nextPid);
    WakeOk(k, {}, {}, i, boxes);
  }

  lemma {:induction false} ScanOk(k: Table, now: nat, i: nat)
    requires TableOk(k, {}, {}) && i <= |k.procs|
    ensures BoxesOk(k)
    ensures TableOk(Scan(k, now, i), {}, {}) && Fewer(k, Scan(k, now, i))
    decreases |k.procs| - i
  {
    hide TableOk, ScanOne, AlivePids;
    TableBoxes(k, {}, {});
    if i < |k.procs| {
      ScanOneOk(k, now, i);
      ScanOk(ScanOne(k, now, i), now, i + 1);
    }
  }

  // ---- choosing the next process ----

  /** Takes processes off the run queue until one is runnable; zombies are released. */
  function Pop(k: Table): (r: (Table, int))
    requires forall j :: 0 <= j < |k.runq| ==> k.runq[j] < |k.procs|
    ensures |r.0.procs| == |k.procs| && -1 <= r.1 < |k.procs|
    decreases |k.runq|
  {
    if k.runq == [] then (k, -1)
    else
      var n, rest := k.runq[0], k.(runq := k.runq[1..]);
      if k.procs[n].state == Runnable then (rest, n) else Pop(Release(rest, n))
  }

  lemma QueueInTable(k: Table, limbo: set<nat>)
    requires Slots(k, limbo)
    ensures forall j :: 0 <= j < |k.runq| ==> k.runq[j] < |k.procs| && Queued(k.procs[k.runq[j]]) && k.runq[j] != k.current
  {
    forall j | 0 <= j < |k.runq| ensures k.runq[j] < |k.procs| && Queued(k.procs[k.runq[j]]) && k.runq[j] != k.current {
      assert SlotOk(k, limbo, k.runq[j]);
    }
  }

  lemma HeadTaken(k: Table)
    requires TableOk(k, {}, {}) && k.runq != []
    ensures TableOk(k.(runq := k.runq[1..]), {k.runq[0]}, {}) && k.runq[0] < |k.procs| && k.runq[0] != k.current
  {
    var k', n := k.(runq := k.runq[1..]), k.runq[0];
    assert SlotOk(k, {}, n);
    forall j: nat ensures SlotOk(k', {n}, j) {
      assert SlotOk(k, {}, j);
      assert j in k.runq <==> j == n || j in k.runq[1..];
    }
  }

  lemma {:induction false} PopOk(k: Table)
    requires TableOk(k, {}, {})
    ensures forall j :: 0 <= j < |k.runq| ==> k.runq[j] < |k.procs|
    ensures var (k', n) := Pop(k);
      && TableOk(k', if n < 0 then {} else {n}, {}) && Fewer(k, k') && AlivePids(k'.procs) == AlivePids(k.procs)
      && (n < 0 ==> k'.runq == [] && k'.nrunnable == k.nrunnable)
      && (n >= 0 ==> k'.procs[n].state == Runnable && n != k'.current)
      && k'.procs[k.current] == k.procs[k.current]
    decreases |k.runq|
  {
    QueueInTable(k, {});
    if k.runq != [] {
      var n, rest := k.runq[0], k.(runq := k.runq[1..]);
      HeadTaken(k);
      if k.procs[n].state != Runnable {
        ReleaseOk(rest, {n}, {}, n);
        assert {n} - {n} == {};
        hide TableOk, AlivePids;
        PopOk(Release(rest, n));
      }
    }
  }

  /** An empty run queue means that only the current process can be runnable. */
  lemma NobodyElse(k: Table)
    requires TableOk(k, {}, {}) && k.runq == []
    ensures forall i: nat :: i < |k.procs| && i != k.current ==> k.procs[i].state != Runnable
    ensures k.procs[k.current].state != Runnable ==> k.nrunnable == 0
  {
    forall i: nat | i < |k.procs| && i != k.current ensures k.procs[i].state != Runnable {
      assert SlotOk(k, {}, i);
    }
    if k.procs[k.current].state != Runnable { assert InState(k.procs, Runnable) == {}; }
  }

  // ---- the switch ----

  /** proc_to_runqueue, for the current process if it is runnable */
  function Requeued(k: Table): Table
    requires k.current < |k.procs|
  {
    if k.procs[k.current].state == Runnable then k.(runq := k.runq + [k.current]) else k
  }

  /** The switch to slot n, up to and including proc_after_switch: a dead process is released by
      its successor. */
  function Switch(k: Table, n: nat): Table
    requires k.current < |k.procs|
  {
    var k1 := Requeued(k);
    var k2 := if k1.procs[k1.current].state == Zombie then Release(k1, k1.current) else k1;
    k2.(current := n)
  }

  lemma SwitchOk(k: Table, n: nat)
    requires TableOk(k, {n}, {}) && n < |k.procs| && n != k.current && k.procs[n].state == Runnable
    ensures TableOk(Switch(k, n), {}, {}) && AlivePids(Switch(k, n).procs) == AlivePids(k.procs)
    ensures Switch(k, n).current == n && Switch(k, n).procs[n] == k.procs[n] && |Switch(k, n).procs| == |k.procs|
  {
    var c := k.current;
    if k.procs[c].state == Zombie {
      var p := k.procs[c].(state := Free);
      CountsAfter(k, c, p, k.nprocs - 1, k.nrunnable);
      PidsAfter(k, c, p);
      ProcsAfter(k, c, p, {});
    }
    SwitchSlots(k, n);
  }

  lemma SwitchSlots(k: Table, n: nat)
    requires Slots(k, {n}) && n < |k.procs| && n != k.current && k.procs[n].state == Runnable
    ensures Slots(Switch(k, n), {})
  {
    var c, k' := k.current, Switch(k, n);
    assert SlotOk(k, {n}, c) && SlotOk(k, {n}, n);
    forall j: nat ensures SlotOk(k', {}, j) {
      assert SlotOk(k, {n}, j);
    }
  }

  // ---- proc_yield ----

  /** What interrupt handlers do while the kernel is suspended: devices send messages on behalf of
      a server, and an interrupt from the keyboard kills all interruptable processes. */
  datatype Event = Device(m: Message, dst: nat, box: nat) | Interrupt(killer: nat, status: int)

  /** One suspension: what happened, and the time at its end. */
  datatype Round = Round(events: seq<Event>, now: nat)

  predicate EventsOk(events: seq<Event>) {
    forall j :: 0 <= j < |events| ==> events[j].Device? ==> events[j].box < NTYPES
  }

  predicate RoundsOk(rounds: seq<Round>) {
    forall j :: 0 <= j < |rounds| ==> EventsOk(rounds[j].events)
  }

  function Handle(k: Table, e: Event): (k': Table)
    requires BoxesOk(k) && (e.Device? ==> e.box < NTYPES)
    ensures |k'.procs| == |k.procs| && BoxesOk(k')
  {
    match e
    case Device(m, dst, box) => Send(k, m, dst, box).0
    case Interrupt(killer, status) =>
      var s := Find(k, killer);
      if s < 0 then k else KillAll(k, s, status, 0)
  }

  function HandleAll(k: Table, events: seq<Event>): (k': Table)
    requires BoxesOk(k) && EventsOk(events)
    ensures |k'.procs| == |k.procs| && BoxesOk(k')
    decreases |events|
  {
    if events == [] then k else HandleAll(Handle(k, events[0]), events[1..])
  }

  lemma HandleOk(k: Table, e: Event)
    requires TableOk(k, {}, {}) && (e.Device? ==> e.box < NTYPES)
    ensures BoxesOk(k) && TableOk(Handle(k, e), {}, {}) && Fewer(k, Handle(k, e))
  {
    hide TableOk, Send, KillAll, AlivePids;
    TableBoxes(k, {}, {});
    match e {
      case Device(m, dst, box) =>
        SendOk(k, {}, {}, m, dst, box);
        SendFrame(k, m, dst, box);
      case Interrupt(killer, status) =>
        if Find(k, killer) >= 0 { KillAllOk(k, Find(k, killer), status, 0); }
    }
  }

  lemma {:induction false} HandleAllOk(k: Table, events: seq<Event>)
    requires TableOk(k, {}, {}) && EventsOk(events)
    ensures BoxesOk(k) && TableOk(HandleAll(k, events), {}, {}) && Fewer(k, HandleAll(k, events))
    decreases |events|
  {
    hide TableOk, Handle, AlivePids;
    TableBoxes(k, {}, {});
    if events != [] {
      HandleOk(k, events[0]);
      HandleAllOk(Handle(k, events[0]), events[1..]);
    }
  }

  /** How proc_yield ends: some process goes on (a new one, or the same), the machine stops, or it
      waits for an event that never comes. */
  datatype Outcome = Resumed | Stopped | Idle

  /** The loop of proc_yield, from the end of a suspension at the given time; the kernel gives up
      when the curfew set by a shutdown has passed. */
  ghost function YieldLoop(k: Table, curfew: nat, now: nat, rounds: seq<Round>): (r: (Table, Outcome))
    requires TableOk(k, {}, {}) && RoundsOk(rounds)
    ensures TableOk(r.0, {}, {}) && |r.0.procs| == |k.procs| && r.0.nextPid == k.nextPid && r.0.shutting == k.shutting
    ensures AlivePids(r.0.procs) <= AlivePids(k.procs)
    ensures r.1 == Resumed ==> r.0.current < |r.0.procs| && r.0.procs[r.0.current].state == Runnable
    ensures r.1 == Idle ==> r.0.nrunnable == 0
    decreases |rounds|
  {
    if curfew != 0 && now > curfew then (k, Stopped)
    else
      ScanOk(k, now, 0);
      var k1 := Scan(k, now, 0);
      PopOk(k1);
      var (k2, n) := Pop(k1);
      CurrentIn(k2, if n < 0 then {} else {n});
      if n >= 0 then
        SwitchOk(k2, n);
        SwitchParts(k2, n);
        (Switch(k2, n), Resumed)
      else if k2.procs[k2.current].state == Runnable then (k2, Resumed)
      else if k2.nprocs == 1 && k2.shutting then (k2, Stopped)
      else
        NobodyElse(k2);
        if rounds == [] then (k2, Idle)
        else
          HandleAllOk(k2, rounds[0].events);
          YieldLoop(HandleAll(k2, rounds[0].events), curfew, rounds[0].now, rounds[1..])
  }

  lemma CurrentIn(k: Table, limbo: set<nat>)
    requires TableOk(k, limbo, {})
    ensures k.current < |k.procs| && k.procs[k.current].state != Free
  {
  }

  lemma SwitchParts(k: Table, n: nat)
    requires k.current < |k.procs|
    ensures Switch(k, n).nextPid == k.nextPid && Switch(k, n).shutting == k.shutting
  {
  }

  /** proc_yield: the first suspension comes before anything else. */
  ghost function Yield(k: Table, curfew: nat, rounds: seq<Round>): (r: (Table, Outcome))
    requires TableOk(k, {}, {}) && RoundsOk(rounds) && |rounds| > 0
    ensures TableOk(r.0, {}, {}) && |r.0.procs| == |k.procs| && r.0.nextPid == k.nextPid && r.0.shutting == k.shutting
    ensures AlivePids(r.0.procs) <= AlivePids(k.procs)
    ensures r.1 == Resumed ==> r.0.current < |r.0.procs| && r.0.procs[r.0.current].state == Runnable
    ensures r.1 == Idle ==> r.0.nrunnable == 0
  {
    HandleAllOk(k, rounds[0].events);
    YieldLoop(HandleAll(k, rounds[0].events), curfew, rounds[0].now, rounds[1..])
  }
}
