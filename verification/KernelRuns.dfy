/** Whole runs of the kernel, from its start, under any calls and any interrupts. */
module KernelRuns {
  import opened Processes
  import opened Messaging
  import opened Killing
  import opened Scheduling
  import opened Calls
  import opened Kernels
  import opened Ledgers
  import opened KernelSteps
  import opened Accounts
  import opened Histories

  // ---- what the invariant says ----

  /** Every runnable process but the current one is on the run queue exactly once; otherwise the
      queue holds only zombies, each once; the current process is never on it. */
  lemma RunQueueExact(k: Table, i: nat)
    requires TableOk(k, {}, {}) && i < |k.procs|
    ensures multiset(k.runq)[i] == if i != k.current && Queued(k.procs[i]) then 1 else 0
  {
    assert SlotOk(k, {}, i);
    NoDupCount(k.runq, i);
  }

  lemma {:induction false} NoDupCount(s: seq<nat>, x: nat)
    requires NoDup(s)
    ensures multiset(s)[x] == if x in s then 1 else 0
  {
    if s != [] {
      assert s == [s[0]] + s[1..];
      NoDupCount(s[1..], x);
    }
  }

  /** Nobody waits for a reply from a process that is dead, or from itself, and at most one reply
      is ever there. */
  lemma RpcSafe(k: Table, i: nat) returns (server: nat)
    requires TableOk(k, {}, {}) && i < |k.procs| && k.procs[i].state == Waiting && k.procs[i].cont.Receiving?
    requires k.procs[i].cont.box == REPLY
    ensures server < |k.procs| && server != i && Alive(k.procs[server])
    ensures k.procs[server].pid == k.procs[i].server == k.procs[i].cont.named
  {
    assert ProcOk(k.procs[i], AlivePids(k.procs), {}, k.nextPid);
    server :| server < |k.procs| && Alive(k.procs[server]) && k.procs[server].pid == k.procs[i].server;
  }

  lemma OneReply(k: Table, i: nat)
    requires TableOk(k, {}, {}) && i < |k.procs| && Alive(k.procs[i])
    ensures |k.procs[i].boxes| == NTYPES && |k.procs[i].boxes[REPLY].messages| <= 1
    ensures k.procs[i].boxes[REPLY].messages != [] ==>
      k.procs[i].state == Runnable && k.procs[i].cont == Receiving(REPLY, k.procs[i].boxes[REPLY].messages[0].src)
  {
    assert ProcOk(k.procs[i], AlivePids(k.procs), {}, k.nextPid);
  }

  // ---- the start ----

  lemma StartOk(n: nat)
    requires n > 0
    ensures TableOk(Start(n), {}, {}) && AtWork(Start(n)) && Start(n).nextPid == 2
  {
    var k0, k := NoProcesses(n), Start(n);
    assert InState(k0.procs, Runnable) == {} && InUse(k0.procs) == {};
    CountsAfter(k0, 0, NewProc(k0, 1, 0), 1, 1);
    forall j: nat ensures SlotOk(k, {}, j) {
      if j in k.free {
        var a :| 0 <= a < |k.free| && k.free[a] == j;
        assert k.free[a] == a + 1;
      }
      if 0 < j < n { assert k.free[j - 1] == j; }
    }
    assert NoDup(k.free);
  }

  // ---- runs ----

  /** What holds after each step of any run: the tables are in order, and every RPC that ends gets
      a reply from the process it named, or finds it dead. */
  ghost predicate StepOk(r: Result) {
    && TableOk(r.table, {}, {})
    && (r.outcome == Resumed ==> AtWork(r.table))
    && (r.outcome == Idle ==> InState(r.table.procs, Runnable) == {})
    && (r.receipt.Some? ==> Proper(r.table, r.receipt.value))
  }

  lemma {:induction false} TraceOk(k: Table, curfew: nat, inputs: seq<Input>)
    requires TableOk(k, {}, {}) && AtWork(k) && k.nextPid > 0
    requires forall j :: 0 <= j < |inputs| ==> InputOk(inputs[j])
    ensures forall r :: r in Trace(k, curfew, inputs) ==> StepOk(r)
    decreases |inputs|
  {
    hide After;
    if inputs != [] {
      var r := After(k, curfew, inputs[0]);
      assert StepOk(r);
      hide TableOk, Proper, AtWork;
      if r.outcome == Resumed { TraceOk(r.table, CurfewAfter(curfew, inputs[0]), inputs[1..]); }
    }
  }

  /** The machine: any number of calls, from any state in order. Every step is accounted for, and each process has
      got the messages of each mailbox in the order in which they came. */
  method Run(k: Kernel, inputs: seq<Input>) returns (results: seq<Result>, ghost accounts: seq<Account>)
    requires k.Valid() && AtWork(k.View()) && k.nextPid > 0
    requires forall j :: 0 <= j < |inputs| ==> InputOk(inputs[j])
    modifies k
    ensures results == Trace(old(k.View()), old(k.curfew), inputs)
    ensures forall r :: r in results ==> StepOk(r)
    ensures Recorded(old(k.View()), old(k.curfew), inputs, results, accounts)
    ensures k.Valid() && k.View() == Last(old(k.View()), results)
    ensures InOrder(old(k.View()), k.View(), LogOf(accounts), ReceiptsOf(results))
  {
    hide After, TableOk, AtWork, StepOk, Trace, Recorded, InOrder, LogOf, ReceiptsOf;
    TraceOk(k.View(), k.curfew, inputs);
    accounts := TraceRecorded(k.View(), k.curfew, inputs);
    RunInOrder(k.View(), k.curfew, inputs, accounts);
    ghost var all := Trace(k.View(), k.curfew, inputs);
    results := [];
    var i := 0;
    assert inputs[0..] == inputs;
    while i < |inputs|
      invariant i <= |inputs| && k.Valid() && AtWork(k.View()) && k.nextPid > 0
      invariant all == results + Trace(k.View(), k.curfew, inputs[i..])
      invariant k.View() == Last(old(k.View()), results)
    {
      TraceStep(k.View(), k.curfew, inputs[i..], After(k.View(), k.curfew, inputs[i]));
      var res := Serve(k, inputs[i]);
      assert inputs[i..][1..] == inputs[i + 1..];
      results := results + [res];
      i := i + 1;
      if res.outcome != Resumed { return; }
    }
    TraceEnd(k.View(), k.curfew);
  }

  lemma TraceEnd(k: Table, curfew: nat)
    requires TableOk(k, {}, {}) && AtWork(k) && k.nextPid > 0
    ensures Trace(k, curfew, []) == []
  {
  }

  /** The machine from its start: no message but those that have come since, and all of them, have been got or are
      still there, in order. */
  method Boot(n: nat, inputs: seq<Input>) returns (k: Kernel, results: seq<Result>, ghost accounts: seq<Account>)
    requires n > 0 && forall j :: 0 <= j < |inputs| ==> InputOk(inputs[j])
    ensures TableOk(Start(n), {}, {}) && AtWork(Start(n)) && Start(n).nextPid > 0
    ensures results == Trace(Start(n), 0, inputs) && forall r :: r in results ==> StepOk(r)
    ensures Recorded(Start(n), 0, inputs, results, accounts)
    ensures k.Valid() && k.View() == Last(Start(n), results)
    ensures forall i, t: nat :: 0 <= i < |k.View().procs| && Alive(k.View().procs[i]) && t < NTYPES ==>
      && |k.View().procs[i].boxes| == NTYPES
      && Arrived(LogOf(accounts), k.View().procs[i].pid, t)
        == Received(ReceiptsOf(results), k.View().procs[i].pid, t) + k.View().procs[i].boxes[t].messages
  {
    StartOk(n);
    k := new Kernel(n);
    results, accounts := Run(k, inputs);
    FromTheStart(n, k.View(), LogOf(accounts), ReceiptsOf(results));
  }

  lemma FromTheStart(n: nat, k: Table, log: seq<Note>, got: seq<Receipt>)
    requires n > 0 && InOrder(Start(n), k, log, got)
    ensures forall i, t: nat :: 0 <= i < |k.procs| && Alive(k.procs[i]) && t < NTYPES ==>
      |k.procs[i].boxes| == NTYPES && Arrived(log, k.procs[i].pid, t) == Received(got, k.procs[i].pid, t) + k.procs[i].boxes[t].messages
  {
    forall i, t: nat | 0 <= i < |k.procs| && Alive(k.procs[i]) && t < NTYPES
      ensures |k.procs[i].boxes| == NTYPES
      ensures Arrived(log, k.procs[i].pid, t) == Received(got, k.procs[i].pid, t) + k.procs[i].boxes[t].messages
    {
      var p := Start(n).procs[i];
      assert Squared(Start(n).nextPid, p, k.procs[i], log, got);
      assert Held(p, k.procs[i].pid, t) == [];
    }
  }

  lemma TraceStep(k: Table, curfew: nat, inputs: seq<Input>, r: Result)
    requires TableOk(k, {}, {}) && AtWork(k) && k.nextPid > 0 && inputs != []
    requires forall j :: 0 <= j < |inputs| ==> InputOk(inputs[j])
    requires r == After(k, curfew, inputs[0])
    ensures r.outcome != Resumed ==> Trace(k, curfew, inputs) == [r]
    ensures r.outcome == Resumed ==> TableOk(r.table, {}, {}) && AtWork(r.table) && r.table.nextPid > 0
    ensures r.outcome == Resumed ==> Trace(k, curfew, inputs) == [r] + Trace(r.table, CurfewAfter(curfew, inputs[0]), inputs[1..])
  {
  }

  /** One call of the process that runs. */
  method Serve(k: Kernel, i: Input) returns (res: Result)
    requires k.Valid() && AtWork(k.View()) && k.nextPid > 0 && InputOk(i)
    modifies k
    ensures res == After(old(k.View()), old(k.curfew), i) && k.View() == res.table
    ensures k.curfew == CurfewAfter(old(k.curfew), i)
    ensures k.Valid() && k.nextPid > 0 && (res.outcome == Resumed ==> AtWork(k.View()))
  {
    hide TableOk, AtWork, Proper, SendCall, RecvCall, RpcCall, ExitCall, KillCall, Yielding, Resume, Create;
    match i.call {
      case SysSend(dst, box, contents) => res := k.SysSendCall(dst, box, contents);
      case SysRecv(box, max, now) => res := k.SysRecvCall(box, max, now, i.rounds);
      case SysRpc(dst, contents) => res := k.SysRpcCall(dst, contents, i.rounds);
      case SysExit(status) => res := k.SysExitCall(status, i.rounds);
      case SysKill(killer, pid, status) => res := k.ProcKill(killer, pid, status, i.rounds);
      case SysYield =>
        YieldingIs(k.View(), k.curfew, i.rounds);
        var o, r := k.YieldAndGoOn(i.rounds);
        res := Result(k.Copy(), o, r, 0);
      case SysCreate(owner, uid) =>
        CreateOk(k.View(), owner, uid);
        var pid := k.ProcCreate(owner, uid);
        res := Result(k.Copy(), Resumed, None, pid);
      case Shutdown(now) =>
        ShutdownOk(k.View());
        k.shutting := true;
        k.curfew := now + 3000;
        res := Result(k.Copy(), Resumed, None, 0);
    }
  }

  lemma YieldingIs(k: Table, curfew: nat, rounds: seq<Round>)
    requires TableOk(k, {}, {}) && RoundsOk(rounds) && |rounds| > 0
    ensures Yielding(k, curfew, rounds) == var (k', o, r) := Resume(k, curfew, rounds); Result(k', o, r, 0)
  {
  }
}
