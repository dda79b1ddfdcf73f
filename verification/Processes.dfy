/** The process table: scheduling state, mailboxes and the run queue. */
module Processes {
  datatype State = Free | Runnable | Waiting | Zombie

  /** Mailboxes of a process. */
  const REQUEST: nat := 0
  const REPLY: nat := 1
  const EVENT: nat := 2
  const NTYPES: nat := 3

  datatype Message = Message(src: nat, uid: nat, contents: seq<int>)

  datatype Box = Box(waiting: bool, messages: seq<Message>)

  /** Where a process goes on when it gets the CPU: where it was, or in proc_recv for a mailbox
      (for a reply, from the named process). */
  datatype Cont = Running | Receiving(box: nat, named: nat)

  datatype Proc = Proc(pid: nat, uid: nat, owner: nat, state: State, boxes: seq<Box>, server: nat,
                       alarm: bool, exptime: nat, interruptable: bool, cont: Cont)

  /** The kernel's tables; processes are named by their slot. */
  datatype Table = Table(procs: seq<Proc>, current: nat, runq: seq<nat>, free: seq<nat>, nprocs: int,
                         nrunnable: int, nextPid: nat, shutting: bool)

  predicate Alive(p: Proc) {
    p.state == Runnable || p.state == Waiting
  }

  predicate Queued(p: Proc) {
    p.state == Runnable || p.state == Zombie
  }

  ghost function AlivePids(procs: seq<Proc>): set<nat> {
    set i: nat | i < |procs| && Alive(procs[i]) :: procs[i].pid
  }

  ghost function InState(procs: seq<Proc>, s: State): set<nat> {
    set i: nat | i < |procs| && procs[i].state == s
  }

  ghost function InUse(procs: seq<Proc>): set<nat> {
    set i: nat | i < |procs| && procs[i].state != Free
  }

  ghost predicate NoDup(s: seq<nat>) {
    forall i, j :: 0 <= i < j < |s| ==> s[i] != s[j]
  }

  // ---- the invariant ----

  /** Whether a slot is on the run queue and on the free list; slots in limbo are about to be
      released or run. */
  ghost predicate SlotOk(k: Table, limbo: set<nat>, i: nat) {
    && (i in k.runq <==> i < |k.procs| && i != k.current && i !in limbo && Queued(k.procs[i]))
    && (i in k.free <==> i < |k.procs| && k.procs[i].state == Free)
  }

  ghost predicate Slots(k: Table, limbo: set<nat>) {
    && k.current < |k.procs| && k.procs[k.current].state != Free
    && NoDup(k.runq) && NoDup(k.free)
    && forall i: nat :: SlotOk(k, limbo, i)
  }

  ghost predicate Counts(k: Table) {
    k.nrunnable == |InState(k.procs, Runnable)| && k.nprocs == |InUse(k.procs)|
  }

  ghost predicate Pids(k: Table) {
    && (forall i, j :: 0 <= i < j < |k.procs| && k.procs[i].state != Free && k.procs[j].state != Free
          ==> k.procs[i].pid != k.procs[j].pid)
    && forall i :: 0 <= i < |k.procs| && k.procs[i].state != Free ==> 0 < k.procs[i].pid < k.nextPid
  }

  /** A process that is running or may run: no mailbox waits; a reply is there only if it is about
      to be taken, comes from the server named, and is missing only if that server died. */
  ghost predicate RunnableOk(p: Proc, alive: set<nat>, nextPid: nat)
    requires |p.boxes| == NTYPES
  {
    && (forall t: nat :: t < NTYPES ==> !p.boxes[t].waiting)
    && !p.alarm
    && (p.cont == Running ==> p.boxes[REPLY].messages == [])
    && (p.cont.Receiving? && p.cont.box != REPLY ==> p.boxes[REPLY].messages == [])
    && (p.cont.Receiving? && p.cont.box == REPLY ==>
          && p.server == p.cont.named < nextPid && |p.boxes[REPLY].messages| <= 1
          && (p.boxes[REPLY].messages != [] ==> p.boxes[REPLY].messages[0].src == p.server)
          && (p.boxes[REPLY].messages == [] ==> p.server !in alive))
  }

  /** A process that waits does so for one empty mailbox; if for a reply, without time limit and
      for a live server other than itself. */
  ghost predicate WaitingOk(p: Proc, alive: set<nat>, nextPid: nat)
    requires |p.boxes| == NTYPES
  {
    && p.cont.Receiving? && p.cont.box < NTYPES
    && (forall t: nat :: t < NTYPES ==> (p.boxes[t].waiting <==> t == p.cont.box))
    && p.boxes[p.cont.box].messages == [] && p.boxes[REPLY].messages == []
    && (p.cont.box == REPLY ==> p.server == p.cont.named < nextPid && p.server in alive && p.server != p.pid && !p.alarm)
  }

  ghost predicate ProcOk(p: Proc, alive: set<nat>, dying: set<nat>, nextPid: nat)
  {
    && |p.boxes| == NTYPES
    && (p.cont.Receiving? ==> p.cont.box < NTYPES)
    && (p.state == Runnable ==> RunnableOk(p, alive, nextPid))
    && (p.state == Waiting ==> WaitingOk(p, alive + dying, nextPid))
  }

  ghost predicate Procs(k: Table, dying: set<nat>) {
    forall i: nat :: i < |k.procs| ==> ProcOk(k.procs[i], AlivePids(k.procs), dying, k.nextPid)
  }

  ghost predicate TableOk(k: Table, limbo: set<nat>, dying: set<nat>) {
    Slots(k, limbo) && Counts(k) && Pids(k) && Procs(k, dying)
  }

  // ---- updating one process ----

  function Put(k: Table, i: nat, p: Proc): Table
    requires i < |k.procs|
  {
    k.(procs := k.procs[i := p])
  }

  lemma AliveAfter(procs: seq<Proc>, i: nat, p: Proc)
    requires i < |procs| && p.pid == procs[i].pid && procs[i].state != Free
    requires forall j :: 0 <= j < |procs| && j != i && procs[j].state != Free ==> procs[j].pid != p.pid
    ensures AlivePids(procs[i := p]) == if Alive(p) then AlivePids(procs) + {p.pid} else AlivePids(procs) - {p.pid}
  {
    var procs' := procs[i := p];
    var a, b := AlivePids(procs'), if Alive(p) then AlivePids(procs) + {p.pid} else AlivePids(procs) - {p.pid};
    forall x ensures x in a <==> x in b {
      if x in a {
        var j: nat :| j < |procs'| && Alive(procs'[j]) && procs'[j].pid == x;
        assert j != i ==> procs[j] == procs'[j];
      }
      if Alive(p) && x == p.pid {
        assert procs'[i] == p;
      } else if x in b {
        var j: nat :| j < |procs| && Alive(procs[j]) && procs[j].pid == x;
        assert j != i && procs'[j] == procs[j];
      }
    }
  }

  lemma AliveMember(procs: seq<Proc>, i: nat)
    requires i < |procs|
    ensures Alive(procs[i]) ==> procs[i].pid in AlivePids(procs)
  {
  }

  lemma StateAfter(procs: seq<Proc>, i: nat, p: Proc)
    requires i < |procs|
    ensures InState(procs[i := p], Runnable) ==
      if p.state == Runnable then InState(procs, Runnable) + {i} else InState(procs, Runnable) - {i}
    ensures InUse(procs[i := p]) == if p.state != Free then InUse(procs) + {i} else InUse(procs) - {i}
    ensures i in InState(procs, Runnable) <==> procs[i].state == Runnable
    ensures i in InUse(procs) <==> procs[i].state != Free
  {
  }

  lemma SizeWith(s: set<nat>, i: nat)
    ensures |s + {i}| == |s| + (if i in s then 0 else 1)
    ensures |s - {i}| == |s| - (if i in s then 1 else 0)
  {
    if i in s { assert s + {i} == s; }
  }

  /** The counters after slot i got process p. */
  lemma CountsAfter(k: Table, i: nat, p: Proc, nprocs: int, nrunnable: int)
    requires Counts(k) && i < |k.procs|
    requires nrunnable == k.nrunnable + (if p.state == Runnable then 1 else 0) - (if k.procs[i].state == Runnable then 1 else 0)
    requires nprocs == k.nprocs + (if p.state != Free then 1 else 0) - (if k.procs[i].state != Free then 1 else 0)
    ensures Counts(Put(k, i, p).(nprocs := nprocs, nrunnable := nrunnable))
  {
    hide InState, InUse;
    StateAfter(k.procs, i, p);
    SizeWith(InState(k.procs, Runnable), i);
    SizeWith(InUse(k.procs), i);
  }

  lemma PidsAfter(k: Table, i: nat, p: Proc)
    requires Pids(k) && i < |k.procs| && (p.state != Free ==> p.pid == k.procs[i].pid && k.procs[i].state != Free)
    ensures Pids(Put(k, i, p))
  {
  }

  lemma DeadNotAlive(k: Table, i: nat)
    requires Pids(k) && i < |k.procs| && k.procs[i].state != Free && !Alive(k.procs[i])
    ensures k.procs[i].pid !in AlivePids(k.procs)
  {
  }

  /** A process may change as long as it keeps its pid, and its life. */
  lemma ProcsAfter(k: Table, i: nat, p: Proc, dying: set<nat>)
    requires Procs(k, dying) && Pids(k) && i < |k.procs| && k.procs[i].state != Free
    requires p.pid == k.procs[i].pid && Alive(p) == Alive(k.procs[i])
    requires ProcOk(p, AlivePids(k.procs), dying, k.nextPid)
    ensures Procs(Put(k, i, p), dying) && AlivePids(Put(k, i, p).procs) == AlivePids(k.procs)
  {
    AliveAfter(k.procs, i, p);
    AliveMember(k.procs, i);
    if !Alive(p) { DeadNotAlive(k, i); }
    assert AlivePids(Put(k, i, p).procs) == AlivePids(k.procs);
  }
}
