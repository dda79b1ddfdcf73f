/** The calls of the kernel as steps from one state of its tables to the next. */
module KernelSteps {
  import opened Processes
  import opened Messaging
  import opened Scheduling
  import opened Calls

  /** One call, with the suspensions that end it. */
  datatype Input = Input(call: Call, rounds: seq<Round>)

  predicate InputOk(i: Input) {
    RoundsOk(i.rounds) && |i.rounds| > 0
  }

  ghost function CreateCall(k: Table, owner: nat, uid: nat): (r: Result)
    requires TableOk(k, {}, {}) && AtWork(k) && k.nextPid > 0
    ensures ResultOk(k, r)
  {
    CreateOk(k, owner, uid);
    var (k', pid) := Create(k, owner, uid);
    Result(k', Resumed, None, pid)
  }

  lemma ShutdownOk(k: Table)
    requires TableOk(k, {}, {}) && AtWork(k)
    ensures TableOk(k.(shutting := true), {}, {}) && AtWork(k.(shutting := true))
  {
    var k' := k.(shutting := true);
    forall j: nat ensures SlotOk(k', {}, j) { assert SlotOk(k, {}, j); }
  }

  ghost function After(k: Table, curfew: nat, i: Input): (r: Result)
    requires TableOk(k, {}, {}) && AtWork(k) && k.nextPid > 0 && InputOk(i)
    ensures ResultOk(k, r)
  {
    match i.call
    case SysSend(dst, box, contents) => SendCall(k, dst, box, contents)
    case SysRecv(box, max, now) => RecvCall(k, curfew, box, max, now, i.rounds)
    case SysRpc(dst, contents) => RpcCall(k, curfew, dst, contents, i.rounds)
    case SysExit(status) => ExitCall(k, curfew, status, i.rounds)
    case SysKill(killer, pid, status) => KillCall(k, curfew, killer, pid, status, i.rounds)
    case SysYield => Yielding(k, curfew, i.rounds)
    case SysCreate(owner, uid) => CreateCall(k, owner, uid)
    case Shutdown(now) =>
      ShutdownOk(k);
      Result(k.(shutting := true), Resumed, None, 0)
  }

  function CurfewAfter(curfew: nat, i: Input): nat {
    if i.call.Shutdown? then i.call.now + 3000 else curfew
  }

  /** The results of a run, as long as there is a process to go on. */
  ghost function Trace(k: Table, curfew: nat, inputs: seq<Input>): seq<Result>
    requires TableOk(k, {}, {}) && AtWork(k) && k.nextPid > 0
    requires forall j :: 0 <= j < |inputs| ==> InputOk(inputs[j])
    decreases |inputs|
  {
    if inputs == [] then [] else
      var r := After(k, curfew, inputs[0]);
      if r.outcome != Resumed then [r] else [r] + Trace(r.table, CurfewAfter(curfew, inputs[0]), inputs[1..])
  }
}
