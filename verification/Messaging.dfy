/** Sending messages, waking, killing and releasing processes, and what they keep. */
module Messaging {
  import opened Processes

  // ---- finding a process ----

  function FindFrom(procs: seq<Proc>, pid: nat, i: nat): (r: int)
    requires i <= |procs|
    ensures -1 <= r < |procs|
    decreases |procs| - i
  {
    if i == |procs| then -1
    else if procs[i].state != Free && procs[i].pid == pid then i
    else FindFrom(procs, pid, i + 1)
  }

  /** Slot of a process by pid, or -1 (proc_find). */
  function Find(k: Table, pid: nat): (r: int)
    ensures -1 <= r < |k.procs|
  {
    FindFrom(k.procs, pid, 0)
  }

  lemma {:induction false} FindFromIs(procs: seq<Proc>, pid: nat, i: nat)
    requires i <= |procs|
    ensures var r := FindFrom(procs, pid, i);
      && (r >= 0 ==> procs[r].state != Free && procs[r].pid == pid)
      && (r < 0 ==> forall j :: i <= j < |procs| && procs[j].state != Free ==> procs[j].pid != pid)
    decreases |procs| - i
  {
    if i < |procs| && !(procs[i].state != Free && procs[i].pid == pid) { FindFromIs(procs, pid, i + 1); }
  }

  /** The process found is the one with that pid. */
  lemma FindIs(k: Table, pid: nat)
    requires Pids(k)
    ensures Find(k, pid) >= 0 ==> k.procs[Find(k, pid)].state != Free && k.procs[Find(k, pid)].pid == pid
    ensures forall i :: 0 <= i < |k.procs| && k.procs[i].state != Free && k.procs[i].pid == pid ==> Find(k, pid) == i
  {
    FindFromIs(k.procs, pid, 0);
  }

  // ---- waking ----

  function Woken(p: Proc, boxes: seq<Box>): Proc {
    p.(state := Runnable, alarm := false, boxes := boxes)
  }

  /** Slot i becomes runnable, with the given mailboxes. */
  function Wake(k: Table, i: nat, boxes: seq<Box>): Table
    requires i < |k.procs|
  {
    var k1 := Put(k, i, Woken(k.procs[i], boxes)).(nrunnable := k.nrunnable + 1);
    if i == k.current then k1 else k1.(runq := k.runq + [i])
  }

  function NoneWaiting(boxes: seq<Box>): (r: seq<Box>)
    ensures |r| == |boxes|
    ensures forall t :: 0 <= t < |boxes| ==> r[t] == boxes[t].(waiting := false)
  {
    if boxes == [] then [] else [boxes[0].(waiting := false)] + NoneWaiting(boxes[1..])
  }

  /** proc_wakeup */
  function WakeUp(k: Table, i: nat): Table
    requires i < |k.procs|
  {
    Wake(k, i, NoneWaiting(k.procs[i].boxes))
  }

  lemma WakeSlots(k: Table, limbo: set<nat>, i: nat, boxes: seq<Box>)
    requires Slots(k, limbo) && i < |k.procs| && k.procs[i].state == Waiting && i !in limbo
    ensures Slots(Wake(k, i, boxes), limbo)
  {
    var k' := Wake(k, i, boxes);
    assert SlotOk(k, limbo, i) && SlotOk(k, limbo, k.current);
    forall j: nat ensures SlotOk(k', limbo, j) {
      assert SlotOk(k, limbo, j);
    }
  }

  lemma WakeOk(k: Table, limbo: set<nat>, dying: set<nat>, i: nat, boxes: seq<Box>)
    requires TableOk(k, limbo, dying) && i < |k.procs| && k.procs[i].state == Waiting && i !in limbo
    requires |boxes| == NTYPES && RunnableOk(Woken(k.procs[i], boxes), AlivePids(k.procs), k.nextPid)
    ensures TableOk(Wake(k, i, boxes), limbo, dying) && AlivePids(Wake(k, i, boxes).procs) == AlivePids(k.procs)
  {
    var p := Woken(k.procs[i], boxes);
    WakeSlots(k, limbo, i, boxes);
    assert ProcOk(k.procs[i], AlivePids(k.procs), dying, k.nextPid);
    hide Slots, RunnableOk, WaitingOk;
    CountsAfter(k, i, p, k.nprocs, k.nrunnable + 1);
    PidsAfter(k, i, p);
    ProcsAfter(k, i, p, dying);
  }

  // ---- sending ----

  /** Whether a message may be put in mailbox t of process p: a reply needs p to wait for it. */
  predicate Accepts(p: Proc, src: nat, t: nat)
    requires t < |p.boxes|
  {
    p.state != Zombie && (t == REPLY ==> p.state == Waiting && p.boxes[t].waiting && p.server == src)
  }

  function Delivered(p: Proc, t: nat, m: Message): seq<Box>
    requires t < |p.boxes|
  {
    p.boxes[t := Box(false, p.boxes[t].messages + [m])]
  }

  predicate BoxesOk(k: Table) {
    forall i :: 0 <= i < |k.procs| ==> |k.procs[i].boxes| == NTYPES
  }

  /** Slot d with the message in its mailbox, where it does not wait for it. */
  function Queue(k: Table, d: nat, m: Message, t: nat): Table
    requires d < |k.procs| && t < |k.procs[d].boxes|
  {
    var b := k.procs[d].boxes;
    Put(k, d, k.procs[d].(boxes := b[t := b[t].(messages := b[t].messages + [m])]))
  }

  /** proc_send */
  function Send(k: Table, m: Message, dst: nat, t: nat): (r: (Table, bool))
    requires t < NTYPES && BoxesOk(k)
    ensures |r.0.procs| == |k.procs| && BoxesOk(r.0)
  {
    var d := Find(k, dst);
    if d < 0 || !Accepts(k.procs[d], m.src, t) then (k, false)
    else if k.procs[d].boxes[t].waiting then (Wake(k, d, Delivered(k.procs[d], t, m)), true)
    else (Queue(k, d, m, t), true)
  }

  lemma TableBoxes(k: Table, limbo: set<nat>, dying: set<nat>)
    requires TableOk(k, limbo, dying)
    ensures BoxesOk(k)
  {
    forall i: nat | i < |k.procs| ensures |k.procs[i].boxes| == NTYPES {
      assert ProcOk(k.procs[i], AlivePids(k.procs), dying, k.nextPid);
    }
  }

  /** Sending keeps the tables in order, wakes a process exactly when it waits for the message,
      and succeeds unless the destination is gone or does not wait for this reply. */
  lemma SendOk(k: Table, limbo: set<nat>, dying: set<nat>, m: Message, dst: nat, t: nat)
    requires TableOk(k, limbo, dying) && t < NTYPES
    requires forall i :: i in limbo ==> i < |k.procs| && k.procs[i].state == Zombie
    ensures BoxesOk(k)
    ensures var (k', ok) := Send(k, m, dst, t);
      && TableOk(k', limbo, dying) && AlivePids(k'.procs) == AlivePids(k.procs)
      && (ok ==> dst in AlivePids(k.procs)) && (t != REPLY ==> (ok <==> dst in AlivePids(k.procs)))
  {
    TableBoxes(k, limbo, dying);
    FindIs(k, dst);
    SendAlive(k, dst);
    var d := Find(k, dst);
    if d >= 0 && Accepts(k.procs[d], m.src, t) {
      DeliverOk(k, limbo, dying, d, m, t);
    }
  }

  lemma DeliverOk(k: Table, limbo: set<nat>, dying: set<nat>, d: nat, m: Message, t: nat)
    requires TableOk(k, limbo, dying) && t < NTYPES && d < |k.procs| && k.procs[d].state != Free
    requires |k.procs[d].boxes| == NTYPES
    requires Accepts(k.procs[d], m.src, t)
    requires forall i :: i in limbo ==> i < |k.procs| && k.procs[i].state == Zombie
    ensures var p := k.procs[d]; var k' := if p.boxes[t].waiting then Wake(k, d, Delivered(p, t, m)) else Queue(k, d, m, t);
      && TableOk(k', limbo, dying) && AlivePids(k'.procs) == AlivePids(k.procs)
    ensures Alive(k.procs[d])
  {
    var p := k.procs[d];
    assert ProcOk(p, AlivePids(k.procs), dying, k.nextPid);
    hide Slots, Counts, Pids, Procs, AlivePids;
    if p.boxes[t].waiting {
      WakeOk(k, limbo, dying, d, Delivered(p, t, m));
    } else {
      var p' := Queue(k, d, m, t).procs[d];
      SlotsAfter(k, limbo, d, p');
      CountsAfter(k, d, p', k.nprocs, k.nrunnable);
      PidsAfter(k, d, p');
      ProcsAfter(k, d, p', dying);
    }
  }

  lemma SendAlive(k: Table, dst: nat)
    requires Pids(k)
    ensures dst in AlivePids(k.procs) <==> Find(k, dst) >= 0 && Alive(k.procs[Find(k, dst)])
  {
    FindIs(k, dst);
    if Find(k, dst) >= 0 { AliveMember(k.procs, Find(k, dst)); }
    if dst in AlivePids(k.procs) {
      var j: nat :| j < |k.procs| && Alive(k.procs[j]) && k.procs[j].pid == dst;
      assert Find(k, dst) == j;
    }
  }

  /** What a process is, apart from its state and mailboxes. */
  ghost predicate SameProc(p: Proc, q: Proc) {
    q.pid == p.pid && q.uid == p.uid && q.owner == p.owner && q.server == p.server && q.cont == p.cont
  }

  /** Sending changes only the destination: its mailbox, and that it runs if it waited. */
  lemma SendFrame(k: Table, m: Message, dst: nat, t: nat)
    requires t < NTYPES && BoxesOk(k)
    ensures var (k', ok) := Send(k, m, dst, t); var d := Find(k, dst);
      && k'.current == k.current && k'.nextPid == k.nextPid && k'.free == k.free && k'.shutting == k.shutting
      && (forall i :: 0 <= i < |k.procs| ==> SameProc(k.procs[i], k'.procs[i]))
      && (forall i :: 0 <= i < |k.procs| && i != d ==> k'.procs[i] == k.procs[i])
      && (!ok ==> k' == k)
      && (ok ==> d >= 0 && k'.procs[d].boxes[t].messages == k.procs[d].boxes[t].messages + [m]
                 && (k'.procs[d].state == k.procs[d].state || k'.procs[d].state == Runnable))
  {
  }

  /** Slots do not change when a process keeps its state. */
  lemma SlotsAfter(k: Table, limbo: set<nat>, i: nat, p: Proc)
    requires Slots(k, limbo) && i < |k.procs| && p.state == k.procs[i].state
    ensures Slots(Put(k, i, p), limbo)
  {
    forall j: nat ensures SlotOk(Put(k, i, p), limbo, j) {
      assert SlotOk(k, limbo, j);
    }
  }
}
