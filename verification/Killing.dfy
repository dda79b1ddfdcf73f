/** How processes die: the owner is told, clients waiting for a reply are failed, and the slot is
    freed once nothing refers to it. */
module Killing {
  import opened Processes
  import opened Messaging

  // ---- releasing a slot ----

  /** proc_release */
  function Release(k: Table, i: nat): Table
    requires i < |k.procs|
  {
    Put(k, i, k.procs[i].(state := Free)).(nprocs := k.nprocs - 1, free := k.free + [i])
  }

  lemma ReleaseOk(k: Table, limbo: set<nat>, dying: set<nat>, i: nat)
    requires TableOk(k, limbo, dying) && i < |k.procs| && k.procs[i].state == Zombie && i in limbo && i != k.current
    ensures TableOk(Release(k, i), limbo - {i}, dying) && AlivePids(Release(k, i).procs) == AlivePids(k.procs)
  {
    var k', p := Release(k, i), k.procs[i].(state := Free);
    CountsAfter(k, i, p, k.nprocs - 1, k.nrunnable);
    PidsAfter(k, i, p);
    ProcsAfter(k, i, p, dying);
    assert SlotOk(k, limbo, i);
    forall j: nat ensures SlotOk(k', limbo - {i}, j) {
      assert SlotOk(k, limbo, j);
    }
  }

  // ---- death ----

  /** The process becomes a zombie. */
  function Mark(k: Table, i: nat): Table
    requires i < |k.procs|
  {
    Put(k, i, k.procs[i].(state := Zombie)).(nrunnable := k.nrunnable - (if k.procs[i].state == Runnable then 1 else 0))
  }

  /** Slots that are on no list when a process dies. */
  ghost function LimboOf(k: Table, i: nat): set<nat>
    requires i < |k.procs|
  {
    if k.procs[i].state == Waiting && i != k.current then {i} else {}
  }

  lemma MarkOk(k: Table, i: nat)
    requires TableOk(k, {}, {}) && i < |k.procs| && Alive(k.procs[i])
    ensures TableOk(Mark(k, i), LimboOf(k, i), {k.procs[i].pid})
    ensures AlivePids(Mark(k, i).procs) == AlivePids(k.procs) - {k.procs[i].pid}
    ensures var k' := Mark(k, i);
      && k'.procs[i].state == Zombie && k'.procs[i].pid == k.procs[i].pid && |k'.procs| == |k.procs|
      && k'.current == k.current && k'.nextPid == k.nextPid && LimboOf(k, i) <= {i}
  {
    var k', p := Mark(k, i), k.procs[i].(state := Zombie);
    CountsAfter(k, i, p, k.nprocs, k'.nrunnable);
    PidsAfter(k, i, p);
    AliveAfter(k.procs, i, p);
    AliveMember(k.procs, i);
    forall j: nat ensures SlotOk(k', LimboOf(k, i), j) {
      assert SlotOk(k, {}, j) && SlotOk(k, {}, i);
    }
    forall j: nat | j < |k'.procs| ensures ProcOk(k'.procs[j], AlivePids(k'.procs), {p.pid}, k'.nextPid) {
      assert ProcOk(k.procs[j], AlivePids(k.procs), {}, k.nextPid);
      assert AlivePids(k'.procs) + {p.pid} == AlivePids(k.procs) + {};
    }
  }

  /** A client whose server is gone. */
  predicate Stranded(p: Proc, pid: nat)
    requires |p.boxes| == NTYPES
  {
    p.state == Waiting && p.boxes[REPLY].waiting && p.server == pid
  }

  /** The loop of proc_term over the clients of a dead server, from slot i on. */
  function FailClients(k: Table, pid: nat, i: nat): (k': Table)
    requires i <= |k.procs| && BoxesOk(k)
    ensures |k'.procs| == |k.procs| && BoxesOk(k')
    decreases |k.procs| - i
  {
    if i == |k.procs| then k
    else FailClients(if Stranded(k.procs[i], pid) then WakeUp(k, i) else k, pid, i + 1)
  }

  ghost predicate NoneStranded(k: Table, pid: nat, i: nat)
    requires BoxesOk(k)
  {
    forall j :: 0 <= j < i && j < |k.procs| ==> !Stranded(k.procs[j], pid)
  }

  /** One client: it runs again, without a reply, and its server is indeed dead. */
  lemma FailOne(k: Table, limbo: set<nat>, pid: nat, i: nat)
    requires TableOk(k, limbo, {pid}) && i < |k.procs| && |k.procs[i].boxes| == NTYPES && Stranded(k.procs[i], pid)
    requires pid !in AlivePids(k.procs) && forall j :: j in limbo ==> j < |k.procs| && k.procs[j].state == Zombie
    ensures TableOk(WakeUp(k, i), limbo, {pid}) && AlivePids(WakeUp(k, i).procs) == AlivePids(k.procs)
  {
    assert ProcOk(k.procs[i], AlivePids(k.procs), {pid}, k.nextPid);
    var boxes := NoneWaiting(k.procs[i].boxes);
    assert RunnableOk(Woken(k.procs[i], boxes), AlivePids(k.procs), k.nextPid);
    WakeOk(k, limbo, {pid}, i, boxes);
  }

  lemma {:induction false} FailClientsOk(k: Table, limbo: set<nat>, pid: nat, i: nat)
    requires TableOk(k, limbo, {pid}) && i <= |k.procs| && pid !in AlivePids(k.procs)
    requires forall j :: j in limbo ==> j < |k.procs| && k.procs[j].state == Zombie
    requires BoxesOk(k) && NoneStranded(k, pid, i)
    ensures var k' := FailClients(k, pid, i);
      && TableOk(k', limbo, {pid}) && AlivePids(k'.procs) == AlivePids(k.procs)
      && NoneStranded(k', pid, |k'.procs|)
      && k'.current == k.current && k'.nextPid == k.nextPid
      && forall j :: 0 <= j < |k.procs| && !Alive(k.procs[j]) ==> k'.procs[j] == k.procs[j]
    decreases |k.procs| - i
  {
    hide TableOk, AlivePids, WakeUp, NoneStranded;
    if i < |k.procs| {
      if Stranded(k.procs[i], pid) {
        FailOne(k, limbo, pid, i);
        FailFrame(k, pid, i);
        FailClientsOk(WakeUp(k, i), limbo, pid, i + 1);
      } else {
        OneMore(k, pid, i);
        FailClientsOk(k, limbo, pid, i + 1);
      }
    } else {
      AllChecked(k, pid);
    }
  }

  lemma FailFrame(k: Table, pid: nat, i: nat)
    requires BoxesOk(k) && i < |k.procs| && NoneStranded(k, pid, i) && k.procs[i].state == Waiting
    ensures var k' := WakeUp(k, i);
      && BoxesOk(k') && NoneStranded(k', pid, i + 1) && k'.current == k.current && k'.nextPid == k.nextPid
      && |k'.procs| == |k.procs| && forall j :: 0 <= j < |k.procs| && j != i ==> k'.procs[j] == k.procs[j]
  {
  }

  lemma OneMore(k: Table, pid: nat, i: nat)
    requires BoxesOk(k) && i < |k.procs| && NoneStranded(k, pid, i) && !Stranded(k.procs[i], pid)
    ensures NoneStranded(k, pid, i + 1)
  {
  }

  lemma AllChecked(k: Table, pid: nat)
    requires BoxesOk(k) && NoneStranded(k, pid, |k.procs|)
    ensures FailClients(k, pid, |k.procs|) == k
  {
  }

  /** Once no client waits for the dead server, all is in order again. */
  lemma NobodyDying(k: Table, limbo: set<nat>, pid: nat)
    requires TableOk(k, limbo, {pid}) && BoxesOk(k) && NoneStranded(k, pid, |k.procs|)
    ensures TableOk(k, limbo, {})
  {
    forall j: nat | j < |k.procs| ensures ProcOk(k.procs[j], AlivePids(k.procs), {}, k.nextPid) {
      assert ProcOk(k.procs[j], AlivePids(k.procs), {pid}, k.nextPid);
      assert !Stranded(k.procs[j], pid);
    }
  }

  /** The message that tells an owner of a death. */
  function Obituary(p: Proc, status: int): Message {
    Message(p.pid, p.uid, [1, p.pid, status])
  }

  /** proc_term, for a process that is not yet a zombie, up to the frames it gives back */
  function Term(k: Table, i: nat, status: int): (k': Table)
    requires i < |k.procs| && BoxesOk(k)
    ensures |k'.procs| == |k.procs| && BoxesOk(k')
  {
    var k1 := Mark(k, i);
    var owner := Find(k1, k.procs[i].owner);
    var k2 := if owner >= 0 then Send(k1, Obituary(k.procs[i], status), k1.procs[owner].pid, EVENT).0 else k1;
    FailClients(k2, k.procs[i].pid, 0)
  }

  /** A death leaves the tables in order; nobody waits for a reply from the dead. */
  lemma TermOk(k: Table, i: nat, status: int)
    requires TableOk(k, {}, {}) && i < |k.procs| && Alive(k.procs[i])
    ensures BoxesOk(k)
    ensures var k' := Term(k, i, status);
      && TableOk(k', LimboOf(k, i), {}) && AlivePids(k'.procs) == AlivePids(k.procs) - {k.procs[i].pid}
      && k'.procs[i].state == Zombie && k'.current == k.current && k'.nextPid == k.nextPid
  {
    hide TableOk, Send, FailClients, AlivePids, Mark, LimboOf, Obituary;
    TableBoxes(k, {}, {});
    var k1, pid, limbo := Mark(k, i), k.procs[i].pid, LimboOf(k, i);
    MarkOk(k, i);
    TableBoxes(k1, limbo, {pid});
    var owner := Find(k1, k.procs[i].owner);
    var m := Obituary(k.procs[i], status);
    var k2 := if owner >= 0 then Send(k1, m, k1.procs[owner].pid, EVENT).0 else k1;
    if owner >= 0 {
      SendOk(k1, limbo, {pid}, m, k1.procs[owner].pid, EVENT);
      ZombieStays(k1, m, k1.procs[owner].pid, EVENT, i);
    }
    FailClientsOk(k2, limbo, pid, 0);
    NobodyDying(FailClients(k2, pid, 0), limbo, pid);
  }

  lemma ZombieStays(k: Table, m: Message, dst: nat, t: nat, i: nat)
    requires t < NTYPES && BoxesOk(k) && i < |k.procs| && k.procs[i].state == Zombie
    ensures Send(k, m, dst, t).0.procs[i] == k.procs[i]
    ensures Send(k, m, dst, t).0.current == k.current && Send(k, m, dst, t).0.nextPid == k.nextPid
  {
    SendFrame(k, m, dst, t);
  }
}
