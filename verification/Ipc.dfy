/**
 IPC as a one-slot rendezvous over whole runs of the machine (kern/syscall.c,
 lib/ipc.c).
 */
module Ipc {
  import opened Layout
  import opened Trapframes
  import opened PageState
  import opened PageInv
  import opened Envs
  import opened Syscalls
  import opened Sched
  import opened KernelEntry
  import opened Smp

  /** The fields of struct Env through which a message travels. */
  datatype Mailbox = Mailbox(recving: bool, from: int, value: nat, perm: Perm)

  function BoxOf(e: Env): Mailbox { Mailbox(e.recving, e.from, e.value, e.perm) }

  const WAITING: Mailbox := Mailbox(true, 0, 0, NO_PERM)

  /** What a step means for mailboxes: a completed call, a slot given to a new environment, or nothing. */
  datatype Happening =
    | Nothing
    | Received(e: nat)
    | Delivery(e: nat, box: Mailbox)
    | Allocated(e: nat)

  function PermSent(k: Kernel, t: nat, srcva: nat, perm: Perm): Perm
    requires k.Shape() && t < NENV
  {
    if srcva < UTOP && k.envs[t].dstva < UTOP then perm else NO_PERM
  }

  function CallHappening(k: Kernel, c: nat, call: Call): Happening
    requires Spaces(k) && Live(k, c) && CallDefined(k, c, call)
  {
    var r := Dispatch(k, c, call).1;
    match call
    case Exofork => if r > 0 then Allocated(EnvX(r)) else Nothing
    case IpcRecv(_) => if r == 0 then Received(c) else Nothing
    case IpcTrySend(envid, value, srcva, perm) =>
      var t := Envid2Env(k, c, envid, false);
      if r == 0 && t.Some?
      then Delivery(t.value, Mailbox(false, k.envs[c].id, value, PermSent(k, t.value, srcva, perm)))
      else Nothing
    case _ => Nothing
  }

  /** `box` before, `box'` after: the slot's mailbox moves only as the happening says. */
  ghost predicate BoxMoves(box: Mailbox, box': Mailbox, e: nat, h: Happening) {
    match h
    case Received(x) => box' == if x == e then WAITING else box
    case Delivery(x, new_) => (x == e ==> box.recving && box' == new_ && !new_.recving) && (x != e ==> box' == box)
    case Allocated(x) => x != e ==> box' == box
    case Nothing => box' == box
  }

  ghost predicate SameBoxes(k: Kernel, k': Kernel)
    requires k.Shape() && k'.Shape()
  {
    forall e :: 0 <= e < NENV ==> BoxOf(k'.envs[e]) == BoxOf(k.envs[e])
  }

  lemma CallMovesBoxes(k: Kernel, c: nat, call: Call, e: nat)
    requires KInv(k) && RecvOk(k) && Live(k, c) && CountsGuard(k, c, call) && !DestroysSelf(k, c, call) && e < NENV
    ensures Spaces(k)
    ensures BoxMoves(BoxOf(k.envs[e]), BoxOf(Dispatch(k, c, call).0.envs[e]), e, CallHappening(k, c, call))
  {
    KInvSpaces(k);
    match call
    case Exofork => ExoforkKeeps(k, c);
    case IpcTrySend(_, _, _, _) => SendMovesBoxes(k, c, call, e);
    case IpcRecv(dstva) =>
    case SetStatus(_, _) =>
    case SetUpcall(_, _) =>
    case Destroy(_) =>
    case GetEnvId =>
    case Console(_) =>
    case Unknown =>
    case _ => PageCallEffect(k, c, call);
  }

  lemma SendMovesBoxes(k: Kernel, c: nat, call: Call, e: nat)
    requires KInv(k) && RecvOk(k) && Live(k, c) && CountsGuard(k, c, call) && call.IpcTrySend? && e < NENV
    ensures Spaces(k)
    ensures BoxMoves(BoxOf(k.envs[e]), BoxOf(Dispatch(k, c, call).0.envs[e]), e, CallHappening(k, c, call))
  {
    KInvSpaces(k);
    IpcSendCall(k, c, call.envid, call.value, call.srcva, call.perm);
  }

  lemma YieldKeepsBoxes(k: Kernel, cur: Option<nat>)
    requires k.Shape() && (cur.Some? ==> cur.value < NENV)
    ensures SameBoxes(k, AfterYield(k, cur).0)
  {
  }

  /** What a whole stay in the kernel means for mailboxes. */
  function ServeHappening(k: Kernel, c: nat, ev: Event): Happening
    requires Spaces(k) && Live(k, c) && EventDefined(k, c, ev)
  {
    if ev.Syscall? && !DestroysSelf(k, c, ev.call) then CallHappening(k, c, ev.call) else Nothing
  }

  lemma FinishCallKeepsBoxes(k: Kernel, c: nat, call: Call, ret: int)
    requires k.Shape() && c < NENV
    ensures SameBoxes(k, FinishCall(k, c, call, ret).0)
  {
    YieldKeepsBoxes(k, Some(c));
    YieldKeepsBoxes(SetTf(k, c, WithEax(k.envs[c].tf, ret % 0x1_0000_0000)), Some(c));
  }

  lemma OtherEventsKeepBoxes(k: Kernel, c: nat, ev: Event)
    requires Spaces(k) && Live(k, c) && (ev.Syscall? ==> DestroysSelf(k, c, ev.call))
    ensures SameBoxes(k, Serve(k, c, ev).0)
  {
    match ev
    case Syscall(_) => YieldKeepsBoxes(EnvFree(k, c), None);
    case FaultFatal => YieldKeepsBoxes(EnvFree(k, c), None);
    case FaultPushed(_) =>
    case _ => YieldKeepsBoxes(k, Some(c));
  }

  lemma ServeMovesBoxes(k: Kernel, c: nat, ev: Event, e: nat)
    requires KInv(k) && RecvOk(k) && Live(k, c) && EventGuard(k, c, ev) && e < NENV
    ensures Spaces(k)
    ensures BoxMoves(BoxOf(k.envs[e]), BoxOf(Serve(k, c, ev).0.envs[e]), e, ServeHappening(k, c, ev))
  {
    KInvSpaces(k);
    if ev.Syscall? && !DestroysSelf(k, c, ev.call) {
      ServeCallMovesBoxes(k, c, ev.call, e);
    } else {
      OtherEventsKeepBoxes(k, c, ev);
    }
  }

  lemma ServeCallMovesBoxes(k: Kernel, c: nat, call: Call, e: nat)
    requires KInv(k) && RecvOk(k) && Live(k, c) && CountsGuard(k, c, call) && !DestroysSelf(k, c, call) && e < NENV
    ensures Spaces(k)
    ensures BoxMoves(
      BoxOf(k.envs[e]), BoxOf(Serve(k, c, Syscall(call)).0.envs[e]), e, CallHappening(k, c, call))
  {
    KInvSpaces(k);
    var (k1, ret) := Dispatch(k, c, call);
    CallMovesBoxes(k, c, call, e);
    FinishCallKeepsBoxes(k1, c, call, ret);
    assert Serve(k, c, Syscall(call)) == FinishCall(k1, c, call, ret);
  }

  function BodyHappening(k: Kernel, cur: Option<nat>, tf: Trapframe, ev: Event): Happening
    requires Spaces(k) && (cur.Some? ==> Live(k, cur.value)) && BodyDefined(k, cur, tf, ev)
  {
    if cur.None? || k.envs[cur.value].status == DYING then Nothing
    else
      KeepsSpaces(k, cur.value, tf);
      ServeHappening(SetTf(k, cur.value, tf), cur.value, ev)
  }

  /** The happening of one machine step. */
  ghost function StepHappening(s: Machine, in_: Input): Happening
    requires in_.c < |s.cpus|
  {
    var me := s.cpus[in_.c];
    if !me.pc.Work? || !Spaces(s.k) then Nothing
    else if in_.create then Allocated(EnvAlloc(s.k, 0).2)
    else if me.env.Some? && !Live(s.k, me.env.value) then Nothing
    else if !BodyDefined(s.k, me.env, in_.tf, in_.ev) then Nothing
    else BodyHappening(s.k, me.env, in_.tf, in_.ev)
  }

  lemma BodyMovesBoxes(k: Kernel, cur: Option<nat>, tf: Trapframe, ev: Event, e: nat)
    requires KInv(k) && RecvOk(k) && e < NENV
    requires cur.Some? ==> Live(k, cur.value)
    requires cur.Some? && k.envs[cur.value].status != DYING ==> EventGuard(SetTf(k, cur.value, tf), cur.value, ev)
    ensures Spaces(k)
    ensures BoxMoves(BoxOf(k.envs[e]), BoxOf(Body(k, cur, tf, ev).0.envs[e]), e, BodyHappening(k, cur, tf, ev))
  {
    KInvSpaces(k);
    match cur
    case None => YieldKeepsBoxes(k, None);
    case Some(x) =>
      if k.envs[x].status == DYING {
        YieldKeepsBoxes(EnvFree(k, x), None);
      } else {
        SetTfKeeps(k, x, tf);
        ServeMovesBoxes(SetTf(k, x, tf), x, ev, e);
      }
  }

  /** A step that does the work of a stay: its state, its guards, and what it means. */
  lemma StayFacts(s: Machine, s': Machine, in_: Input)
    requires MachineInv(s) && Step(s, s', in_) && s.cpus[in_.c].pc.Work? && !in_.create
    ensures Spaces(s.k)
    ensures var env := s.cpus[in_.c].env;
      && (env.Some? ==> Live(s.k, env.value) && Held(s.k, env.value))
      && (env.Some? && s.k.envs[env.value].status != DYING ==>
            EventGuard(SetTf(s.k, env.value, in_.tf), env.value, in_.ev))
      && BodyDefined(s.k, env, in_.tf, in_.ev)
      && s'.k == Body(s.k, env, in_.tf, in_.ev).0
      && StepHappening(s, in_) == BodyHappening(s.k, env, in_.tf, in_.ev)
  {
    KInvSpaces(s.k);
    var env := s.cpus[in_.c].env;
    if env.Some? {
      assert env.value in HeldBut(s, -1);
      assert Held(s.k, env.value);
    }
  }

  lemma CreateMovesBoxes(s: Machine, s': Machine, in_: Input, e: nat)
    requires MachineInv(s) && Step(s, s', in_) && e < NENV && s.cpus[in_.c].pc.Work? && in_.create
    ensures s'.k.Shape()
    ensures BoxMoves(BoxOf(s.k.envs[e]), BoxOf(s'.k.envs[e]), e, StepHappening(s, in_))
  {
    KInvSpaces(s.k);
    EnvAllocKeeps(s.k, 0);
  }

  lemma StepMovesBoxes(s: Machine, s': Machine, in_: Input, e: nat)
    requires MachineInv(s) && Step(s, s', in_) && e < NENV
    ensures s'.k.Shape()
    ensures BoxMoves(BoxOf(s.k.envs[e]), BoxOf(s'.k.envs[e]), e, StepHappening(s, in_))
  {
    if s.cpus[in_.c].pc.Work? {
      if in_.create {
        CreateMovesBoxes(s, s', in_, e);
      } else {
        StayFacts(s, s', in_);
        BodyMovesBoxes(s.k, s.cpus[in_.c].env, in_.tf, in_.ev, e);
      }
    } else {
      StepMovesOneCpu(s, s', in_);
    }
  }

  // ---- A mailbox over time

  /** The mailbox of slot `e` after each step, and what each step meant. */
  ghost predicate BoxTrace(boxes: seq<Mailbox>, haps: seq<Happening>, e: nat) {
    |boxes| == |haps| + 1 && forall n :: 0 <= n < |haps| ==> BoxMoves(boxes[n], boxes[n + 1], e, haps[n])
  }

  ghost predicate DeliversTo(h: Happening, e: nat) {
    h.Delivery? && h.e == e
  }

  /** Between steps `i` and `j` the slot neither starts a new receive nor changes hands. */
  ghost predicate NoNewReceive(haps: seq<Happening>, i: nat, j: nat, e: nat)
    requires j <= |haps|
  {
    forall n :: i <= n < j ==> haps[n] != Received(e) && haps[n] != Allocated(e)
  }

  /** A mailbox that is not waiting accepts nothing and keeps what it holds. */
  lemma {:induction false} FullBoxIsKept(boxes: seq<Mailbox>, haps: seq<Happening>, i: nat, j: nat, e: nat)
    requires BoxTrace(boxes, haps, e) && i <= j <= |haps|
    requires NoNewReceive(haps, i, j, e) && !boxes[i].recving
    ensures boxes[j] == boxes[i]
    ensures forall n :: i <= n < j ==> !DeliversTo(haps[n], e)
    decreases j - i
  {
    if i < j {
      FullBoxIsKept(boxes, haps, i, j - 1, e);
      assert BoxMoves(boxes[j - 1], boxes[j], e, haps[j - 1]);
    }
  }

  lemma {:induction false} TraceRendezvous(boxes: seq<Mailbox>, haps: seq<Happening>, i: nat, j: nat, e: nat)
    returns (sent: Option<nat>)
    requires BoxTrace(boxes, haps, e) && i < j <= |haps|
    requires haps[i] == Received(e) && NoNewReceive(haps, i + 1, j, e)
    ensures sent == None ==> (forall n :: i < n < j ==> !DeliversTo(haps[n], e)) && boxes[j] == WAITING
    ensures sent.Some? ==>
      && i < sent.value < j && DeliversTo(haps[sent.value], e)
      && (forall n :: i < n < j && n != sent.value ==> !DeliversTo(haps[n], e))
      && boxes[j] == haps[sent.value].box && !boxes[j].recving
    decreases j - i
  {
    assert BoxMoves(boxes[j - 1], boxes[j], e, haps[j - 1]);
    sent := None;
    if j > i + 1 {
      sent := TraceRendezvous(boxes, haps, i, j - 1, e);
      if sent.None? && DeliversTo(haps[j - 1], e) {
        sent := Some(j - 1);
      }
    }
  }

  // ---- Whole runs

  ghost function Happenings(run: seq<Machine>, inputs: seq<Input>): (haps: seq<Happening>)
    requires |run| == |inputs| + 1
    ensures |haps| == |inputs|
  {
    seq(|inputs|, n requires 0 <= n < |inputs| =>
      if inputs[n].c < |run[n].cpus| then StepHappening(run[n], inputs[n]) else Nothing)
  }

  ghost function Boxes(run: seq<Machine>, e: nat): (boxes: seq<Mailbox>)
    requires e < NENV
    ensures |boxes| == |run|
  {
    seq(|run|, n requires 0 <= n < |run| => if e < |run[n].k.envs| then BoxOf(run[n].k.envs[e]) else WAITING)
  }

  lemma RunTraces(run: seq<Machine>, inputs: seq<Input>, e: nat)
    requires Execution(run, inputs) && e < NENV
    ensures BoxTrace(Boxes(run, e), Happenings(run, inputs), e)
  {
    var boxes, haps := Boxes(run, e), Happenings(run, inputs);
    forall n | 0 <= n < |haps| ensures BoxMoves(boxes[n], boxes[n + 1], e, haps[n]) {
      RunMovesBoxes(run, inputs, n, e);
    }
  }

  lemma RunMovesBoxes(run: seq<Machine>, inputs: seq<Input>, n: nat, e: nat)
    requires Execution(run, inputs) && n < |inputs| && e < NENV
    ensures run[n].k.Shape() && run[n + 1].k.Shape() && inputs[n].c < |run[n].cpus|
    ensures BoxMoves(BoxOf(run[n].k.envs[e]), BoxOf(run[n + 1].k.envs[e]), e, StepHappening(run[n], inputs[n]))
  {
    RunKeeps(run, inputs, n);
    assert Step(run[n], run[n + 1], inputs[n]);
    StepMovesBoxes(run[n], run[n + 1], inputs[n], e);
  }

  /**
   IPC is a one-slot rendezvous. After a completed sys_ipc_recv call at step `i`, and until
   the slot's next receive, at most one send succeeds. Before it the receiver is blocked with
   from, value and perm all zero; from it on, they are that send's and never overwritten.
   */
  lemma Rendezvous(run: seq<Machine>, inputs: seq<Input>, i: nat, j: nat, e: nat) returns (sent: Option<nat>)
    requires Execution(run, inputs) && i < j <= |inputs| && e < NENV
    requires Happenings(run, inputs)[i] == Received(e) && NoNewReceive(Happenings(run, inputs), i + 1, j, e)
    ensures run[j].k.Shape()
    ensures var haps := Happenings(run, inputs);
      && (sent == None ==>
            && (forall n :: i < n < j ==> !DeliversTo(haps[n], e))
            && BoxOf(run[j].k.envs[e]) == WAITING && run[j].k.envs[e].status in {FREE, NOT_RUNNABLE})
      && (sent.Some? ==>
            && i < sent.value < j && DeliversTo(haps[sent.value], e)
            && (forall n :: i < n < j && n != sent.value ==> !DeliversTo(haps[n], e))
            && BoxOf(run[j].k.envs[e]) == haps[sent.value].box && !run[j].k.envs[e].recving)
  {
    RunTraces(run, inputs, e);
    RunKeeps(run, inputs, j);
    sent := TraceRendezvous(Boxes(run, e), Happenings(run, inputs), i, j, e);
    var k := run[j].k;
    assert Live(k, e) && k.envs[e].recving ==> Blocked(k.envs[e]);
  }

  /** ipc_recv after its system call returned `r`: the value, the sender and the permission it reports. */
  function IpcRecvResult(r: int, self: Env): (int, int, Perm) {
    if r < 0 then (r, 0, NO_PERM) else (self.value, self.from, self.perm)
  }

  /** A variable of the caller that a pointer argument names. */
  class Cell<T> {
    var value: T

    constructor (v: T)
      ensures value == v
    {
      value := v;
    }
  }

  /** ipc_recv once sys_ipc_recv has returned `r`; a null pointer argument is None. */
  method IpcRecv(r: int, self: Env, fromStore: Option<Cell<int>>, permStore: Option<Cell<Perm>>) returns (v: int)
    modifies if fromStore.Some? then {fromStore.value} else {}, if permStore.Some? then {permStore.value} else {}
    ensures v == if r < 0 then r else self.value
    ensures fromStore.Some? ==> fromStore.value.value == if r < 0 then 0 else self.from
    ensures permStore.Some? ==> permStore.value.value == if r < 0 then NO_PERM else self.perm
  {
    if r < 0 {
      if fromStore.Some? { fromStore.value.value := 0; }
      if permStore.Some? { permStore.value.value := NO_PERM; }
      return r;
    }
    if fromStore.Some? { fromStore.value.value := self.from; }
    if permStore.Some? { permStore.value.value := self.perm; }
    v := self.value;
  }

  // ---- ipc_send

  datatype SendEnd = SentOnce | Panicked(error: int) | StillTrying

  /** The replies an ipc_send loop consumes: refusals up to the last one. */
  ghost predicate Refused(replies: seq<int>, n: nat) {
    n <= |replies| && forall x :: 0 <= x < n ==> replies[x] == -E_IPC_NOT_RECV
  }

  /**
   The loop of ipc_send over the kernel's replies to its successive calls; `pauses` counts
   its calls of sys_yield. It stops at the first reply that is not -E_IPC_NOT_RECV.
   */
  method IpcSend(replies: seq<int>) returns (calls: nat, pauses: nat, end: SendEnd)
    requires forall x :: 0 <= x < |replies| ==> replies[x] <= 0
    ensures calls <= |replies| && pauses == (if end == StillTrying then calls else calls - 1)
    ensures Refused(replies, pauses)
    ensures match end
      case SentOnce => calls > 0 && replies[calls - 1] == 0
      case Panicked(error) => calls > 0 && replies[calls - 1] == error && error !in {0, -E_IPC_NOT_RECV}
      case StillTrying => calls == |replies|
  {
    calls, pauses := 0, 0;
    while calls < |replies|
      invariant calls <= |replies| && pauses == calls && Refused(replies, pauses)
    {
      var r := replies[calls];
      calls := calls + 1;
      if r == 0 { return calls, pauses, SentOnce; }
      if r != -E_IPC_NOT_RECV { return calls, pauses, Panicked(r); }
      pauses := pauses + 1;
    }
    end := StillTrying;
  }

  // ---- ipc_send in a run

  /** At step `n` a CPU does the kernel work of system call `call` of environment `c`. */
  ghost predicate Issues(run: seq<Machine>, inputs: seq<Input>, n: nat, c: nat, call: Call) {
    && n < |inputs| < |run| && inputs[n].c < |run[n].cpus| && !inputs[n].create && inputs[n].ev == Syscall(call)
    && run[n].cpus[inputs[n].c].pc.Work? && run[n].cpus[inputs[n].c].env == Some(c)
    && c < |run[n].k.envs| && run[n].k.envs[c].status == RUNNING
  }

  /** At step `n` a CPU does kernel work on behalf of environment `c`. */
  ghost predicate WorksFor(run: seq<Machine>, inputs: seq<Input>, n: nat, c: nat) {
    && n < |inputs| < |run| && inputs[n].c < |run[n].cpus| && !inputs[n].create
    && run[n].cpus[inputs[n].c].pc.Work? && run[n].cpus[inputs[n].c].env == Some(c)
  }

  /** What environment `c` finds in eax after step `n`. */
  ghost function Reply(run: seq<Machine>, n: nat, c: nat): nat
    requires n + 1 < |run| && c < |run[n + 1].k.envs|
  {
    run[n + 1].k.envs[c].tf.regs.eax
  }

  /** -E_IPC_NOT_RECV as it comes back in eax. */
  const REFUSAL: nat := 0x1_0000_0000 - 7

  /**
   The loop of ipc_send in a run: at `steps` environment `c` makes its calls of
   sys_ipc_try_send, all but the last are refused, and in between it sends nothing else.
   */
  ghost predicate SendLoop(run: seq<Machine>, inputs: seq<Input>, c: nat, call: Call, steps: seq<nat>) {
    && call.IpcTrySend? && |steps| > 0 && |run| == |inputs| + 1
    && (forall x, y :: 0 <= x < y < |steps| ==> steps[x] < steps[y])
    && (forall x :: 0 <= x < |steps| ==> Issues(run, inputs, steps[x], c, call))
    && (forall x :: 0 <= x < |steps| - 1 ==> c < |run[steps[x] + 1].k.envs| && Reply(run, steps[x], c) == REFUSAL)
    && (forall n, other: Call :: steps[0] <= n <= steps[|steps| - 1] && other.IpcTrySend? ==>
          (Issues(run, inputs, n, c, other) ==> n in steps))
  }

  lemma SendReplies(k: Kernel, c: nat, call: Call)
    requires Spaces(k) && Live(k, c) && call.IpcTrySend? && CallDefined(k, c, call)
    ensures Dispatch(k, c, call).1 in {0, -E_BAD_ENV, -E_IPC_NOT_RECV, -E_INVAL, -E_NO_MEM}
  {
  }

  /** A running environment that sends keeps running, with the reply in eax. */
  lemma SendReturns(k: Kernel, c: nat, call: Call)
    requires KInv(k) && RecvOk(k) && Live(k, c) && k.envs[c].status == RUNNING
    requires call.IpcTrySend? && CountsGuard(k, c, call)
    ensures Spaces(k)
    ensures var (k', out) := Serve(k, c, Syscall(call));
      out == Leave(Some(c)) && k'.envs[c].tf.regs.eax == Dispatch(k, c, call).1 % 0x1_0000_0000
  {
    KInvSpaces(k);
    IpcSendCall(k, c, call.envid, call.value, call.srcva, call.perm);
    var (k1, r) := Dispatch(k, c, call);
    var t := Envid2Env(k, c, call.envid, false);
    assert r == 0 ==> t.value != c;
    assert k1.envs[c] == k.envs[c];
  }

  /** The kernel work of one such call, in one step of the machine. */
  lemma SendWork(s: Machine, s': Machine, in_: Input, c: nat, call: Call)
    requires MachineInv(s) && Step(s, s', in_) && in_.c < |s.cpus|
    requires !in_.create && in_.ev == Syscall(call) && call.IpcTrySend?
    requires s.cpus[in_.c].pc.Work? && s.cpus[in_.c].env == Some(c) && c < NENV && s.k.envs[c].status == RUNNING
    ensures Spaces(SetTf(s.k, c, in_.tf)) && c < |s'.k.envs| && CallDefined(SetTf(s.k, c, in_.tf), c, call)
    ensures StepHappening(s, in_) == CallHappening(SetTf(s.k, c, in_.tf), c, call)
    ensures s'.k.envs[c].tf.regs.eax == Dispatch(SetTf(s.k, c, in_.tf), c, call).1 % 0x1_0000_0000
  {
    KInvSpaces(s.k);
    assert Live(s.k, c);
    SetTfKeeps(s.k, c, in_.tf);
    KeepsSpaces(s.k, c, in_.tf);
    SendReturns(SetTf(s.k, c, in_.tf), c, call);
    assert Body(s.k, Some(c), in_.tf, in_.ev) == Serve(SetTf(s.k, c, in_.tf), c, in_.ev);
  }

  lemma SendDelivers(s: Machine, s': Machine, in_: Input, c: nat, call: Call, h: Happening)
    requires MachineInv(s) && Step(s, s', in_) && c < NENV
    requires call.IpcTrySend? && h.Delivery? && h == StepHappening(s, in_)
    requires Spaces(SetTf(s.k, c, in_.tf)) && Live(SetTf(s.k, c, in_.tf), c)
    requires CallDefined(SetTf(s.k, c, in_.tf), c, call)
    requires h == CallHappening(SetTf(s.k, c, in_.tf), c, call)
    ensures s'.k.Shape() && h.e < NENV && Envid2Env(s.k, c, call.envid, false) == Some(h.e) && s.k.envs[h.e].recving
    ensures h.box.value == call.value && h.box.from == s.k.envs[c].id && BoxOf(s'.k.envs[h.e]) == h.box
  {
    StepMovesBoxes(s, s', in_, h.e);
  }

  /** The delivery went to the environment named, which was waiting, and is in its mailbox. */
  ghost predicate DeliveredBy(s: Machine, s': Machine, h: Happening, c: nat, call: Call) {
    && h.Delivery? && call.IpcTrySend? && h.e < NENV && c < NENV && s.k.Shape() && s'.k.Shape()
    && Envid2Env(s.k, c, call.envid, false) == Some(h.e) && s.k.envs[h.e].recving
    && h.box.value == call.value && h.box.from == s.k.envs[c].id
    && BoxOf(s'.k.envs[h.e]) == h.box
  }

  /** One call: it delivers exactly when its reply is 0, and then to a waiting receiver. */
  lemma SendAnswered(s: Machine, s': Machine, in_: Input, c: nat, call: Call)
    requires MachineInv(s) && Step(s, s', in_) && !in_.create && in_.ev == Syscall(call) && call.IpcTrySend?
    requires s.cpus[in_.c].pc.Work? && s.cpus[in_.c].env == Some(c) && c < NENV && s.k.envs[c].status == RUNNING
    ensures c < |s'.k.envs|
    ensures StepHappening(s, in_).Delivery? <==> s'.k.envs[c].tf.regs.eax == 0
    ensures StepHappening(s, in_).Delivery? ==> DeliveredBy(s, s', StepHappening(s, in_), c, call)
  {
    SendWork(s, s', in_, c, call);
    var k := SetTf(s.k, c, in_.tf);
    SendReplies(k, c, call);
    SmallReply(Dispatch(k, c, call).1);
    if StepHappening(s, in_).Delivery? { SendDelivers(s, s', in_, c, call, StepHappening(s, in_)); }
  }

  lemma SmallReply(r: int)
    requires -16 < r <= 0
    ensures r % 0x1_0000_0000 == 0 <==> r == 0
  {
  }

  lemma SendStep(run: seq<Machine>, inputs: seq<Input>, n: nat, c: nat, call: Call)
    requires Execution(run, inputs) && Issues(run, inputs, n, c, call) && call.IpcTrySend?
    ensures c < |run[n + 1].k.envs|
    ensures Happenings(run, inputs)[n].Delivery? <==> Reply(run, n, c) == 0
    ensures Happenings(run, inputs)[n].Delivery? ==>
      DeliveredBy(run[n], run[n + 1], Happenings(run, inputs)[n], c, call)
  {
    RunKeeps(run, inputs, n);
    assert Step(run[n], run[n + 1], inputs[n]);
    SendAnswered(run[n], run[n + 1], inputs[n], c, call);
  }

  /** Work for `c` that delivers is a call of sys_ipc_try_send. */
  lemma DeliveryIsASend(run: seq<Machine>, inputs: seq<Input>, n: nat, c: nat)
    requires Execution(run, inputs) && WorksFor(run, inputs, n, c) && Happenings(run, inputs)[n].Delivery?
    ensures inputs[n].ev.Syscall? && inputs[n].ev.call.IpcTrySend? && Issues(run, inputs, n, c, inputs[n].ev.call)
  {
    RunKeeps(run, inputs, n);
    var s := run[n];
    assert s.cpus[inputs[n].c].env.value in HeldBut(s, -1);
    assert Held(s.k, c);
  }

  /**
   ipc_send delivers once: over any run, whatever the other environments do between its
   calls, an ipc_send that has returned delivered its message, to the environment it named,
   with its last call and with no other step it took; one that was refused for another
   reason delivered nothing.
   */
  lemma IpcSendDeliversOnce(run: seq<Machine>, inputs: seq<Input>, c: nat, call: Call, steps: seq<nat>)
    requires Execution(run, inputs) && SendLoop(run, inputs, c, call, steps)
    ensures var last := steps[|steps| - 1]; var haps := Happenings(run, inputs);
      && c < |run[last + 1].k.envs|
      && (forall n :: steps[0] <= n < last && WorksFor(run, inputs, n, c) ==> !haps[n].Delivery?)
      && (haps[last].Delivery? <==> Reply(run, last, c) == 0)
      && (Reply(run, last, c) == 0 ==> DeliveredBy(run[last], run[last + 1], haps[last], c, call))
  {
    var last := steps[|steps| - 1];
    assert Issues(run, inputs, last, c, call);
    SendStep(run, inputs, last, c, call);
    forall n | steps[0] <= n < last && WorksFor(run, inputs, n, c) ensures !Happenings(run, inputs)[n].Delivery? {
      EarlierStepDeliversNothing(run, inputs, c, call, steps, n);
    }
  }

  lemma EarlierStepDeliversNothing(
    run: seq<Machine>, inputs: seq<Input>, c: nat, call: Call, steps: seq<nat>, n: nat)
    requires Execution(run, inputs) && SendLoop(run, inputs, c, call, steps)
    requires steps[0] <= n < steps[|steps| - 1] && WorksFor(run, inputs, n, c)
    ensures !Happenings(run, inputs)[n].Delivery?
  {
    if Happenings(run, inputs)[n].Delivery? {
      DeliveryIsASend(run, inputs, n, c);
      EarlierCallIsRefused(run, inputs, c, call, steps, n);
      RefusedDeliversNothing(run, inputs, n, c, call);
    }
  }

  lemma EarlierCallIsRefused(run: seq<Machine>, inputs: seq<Input>, c: nat, call: Call, steps: seq<nat>, n: nat)
    requires SendLoop(run, inputs, c, call, steps) && steps[0] <= n < steps[|steps| - 1]
    requires n < |inputs| && inputs[n].ev.Syscall? && inputs[n].ev.call.IpcTrySend?
    requires Issues(run, inputs, n, c, inputs[n].ev.call)
    ensures Issues(run, inputs, n, c, call) && c < |run[n + 1].k.envs| && Reply(run, n, c) == REFUSAL
  {
    var x :| 0 <= x < |steps| && steps[x] == n;
  }

  lemma RefusedDeliversNothing(run: seq<Machine>, inputs: seq<Input>, n: nat, c: nat, call: Call)
    requires Execution(run, inputs) && Issues(run, inputs, n, c, call) && call.IpcTrySend?
    requires c < |run[n + 1].k.envs| && Reply(run, n, c) == REFUSAL
    ensures !Happenings(run, inputs)[n].Delivery?
  {
    SendStep(run, inputs, n, c, call);
  }
}
