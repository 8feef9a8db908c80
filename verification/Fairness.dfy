/**
 Over whole runs of the machine: how long an environment that wants to run can be passed over,
 what the end of an environment leaves behind, and that a delivery wakes its receiver
 (kern/trap.c, kern/sched.c, kern/syscall.c).
 */
module Fairness {
  import opened Layout
  import opened Trapframes
  import opened PageState
  import opened PageInv
  import opened Envs
  import opened Syscalls
  import opened Sched
  import opened KernelEntry
  import opened Smp
  import opened Ipc
  import opened Replies
  import opened StayOutcomes

  // ---- Steps of a run

  /** Step `n` is the kernel work of CPU `x` for the environment it was running. */
  ghost predicate Serves(run: seq<Machine>, inputs: seq<Input>, n: nat, x: nat) {
    && n < |inputs| < |run| && inputs[n].c == x < |run[n].cpus| && !inputs[n].create
    && run[n].cpus[x].pc.Work? && run[n].cpus[x].env.Some?
    && run[n].cpus[x].env.value < |run[n].k.envs| == |run[n + 1].k.envs|
  }

  /** A timer interrupt or sys_yield is served: the environment of CPU `x` is to give way. */
  ghost predicate GivesWay(run: seq<Machine>, inputs: seq<Input>, n: nat, x: nat) {
    && Serves(run, inputs, n, x) && run[n].k.envs[run[n].cpus[x].env.value].status == RUNNING
    && (inputs[n].ev.Timer? || inputs[n].ev.Yield?)
  }

  /** The environment of CPU `x` is gone after the step. */
  ghost predicate Loses(run: seq<Machine>, inputs: seq<Input>, n: nat, x: nat) {
    Serves(run, inputs, n, x) && run[n + 1].k.envs[run[n].cpus[x].env.value].status == FREE
  }

  /** How many of the flags [i, j) are set. */
  ghost function Count(flags: seq<bool>, i: nat, j: nat): nat
    requires j <= |flags|
    decreases j
  {
    if j <= i then 0 else Count(flags, i, j - 1) + if flags[j - 1] then 1 else 0
  }

  ghost function GivingWay(run: seq<Machine>, inputs: seq<Input>, x: nat): (flags: seq<bool>)
    ensures |flags| == |inputs|
  {
    seq(|inputs|, n requires 0 <= n < |inputs| => GivesWay(run, inputs, n, x))
  }

  ghost function Losing(run: seq<Machine>, inputs: seq<Input>, x: nat): (flags: seq<bool>)
    ensures |flags| == |inputs|
  {
    seq(|inputs|, n requires 0 <= n < |inputs| => Loses(run, inputs, n, x))
  }

  /** How many slots CPU `x` would look at before slot `e`. */
  function Ahead(s: Machine, x: nat, e: nat): (d: nat)
    requires x < |s.cpus|
  {
    if s.cpus[x].env.Some? then (e + 1023 - s.cpus[x].env.value % 1024) % 1024 else 1023
  }

  lemma Nearer(c: nat, p: nat, e: nat)
    requires c < NENV && p < NENV && e < NENV && p != e
    requires (p + 1023 - c) % 1024 <= (e + 1023 - c) % 1024
    ensures (e + 1023 - p) % 1024 < (e + 1023 - c) % 1024
  {
    var a, b := (p + 1023 - c) % 1024, (e + 1023 - c) % 1024;
    assert p == (c + 1 + a) % 1024 && e == (c + 1 + b) % 1024;
    assert a != b;
    assert (e + 1023 - p) % 1024 == b - a - 1;
  }

  // ---- One stay

  /** Slot `e` waits RUNNABLE throughout. */
  ghost predicate Waiting(k: Kernel, k': Kernel, e: nat)
    requires k.Shape() && k'.Shape()
  {
    e < NENV && k.envs[e].status == RUNNABLE && k'.envs[e].status == RUNNABLE
  }

  /** The CPU that ran `c` now runs someone from whom `e` is no farther. */
  ghost predicate NoFarther(c: nat, out: Outcome, e: nat, less: nat) {
    && out.Leave? && out.cur.Some? && out.cur.value < NENV
    && (e + 1023 - out.cur.value) % 1024 + less <= (e + 1023 - c) % 1024
  }

  lemma SearchComesNearer(k: Kernel, c: nat, k': Kernel, out: Outcome, e: nat)
    requires k.Shape() && k'.Shape() && c < NENV && GoesOnFrom(k, c, k', out) && Waiting(k, k', e)
    ensures NoFarther(c, out, e, 1)
  {
    var p := out.cur.value;
    assert p != e;
    Nearer(c, p, e);
  }

  lemma GivingWayComesNearer(k: Kernel, c: nat, tf: Trapframe, ev: Event, e: nat)
    requires KInv(k) && Live(k, c) && k.envs[c].status == RUNNING && (ev.Timer? || ev.Yield?)
    requires Spaces(k) && Waiting(k, Body(k, Some(c), tf, ev).0, e)
    ensures NoFarther(c, Body(k, Some(c), tf, ev).1, e, 1)
  {
    TimesliceEnds(k, c, tf, ev);
    GaveWayNearer(k, c, Body(k, Some(c), tf, ev).0, Body(k, Some(c), tf, ev).1, e, tf);
  }

  lemma GaveWayNearer(k: Kernel, c: nat, k': Kernel, out: Outcome, e: nat, tf: Trapframe)
    requires k.Shape() && k'.Shape() && c < NENV && Waiting(k, k', e) && !NoneIsRunnable(k)
    requires out.Leave? && out.cur.Some? && NextAfter(k, c, out.cur.value) && Switched(k, k', c, out.cur.value, tf)
    ensures NoFarther(c, out, e, 1)
  {
    SwitchComesNearer(k, c, k', out.cur.value, e, tf);
  }

  lemma SwitchComesNearer(k: Kernel, c: nat, k': Kernel, p: nat, e: nat, tf: Trapframe)
    requires k.Shape() && k'.Shape() && c < NENV && Waiting(k, k', e)
    requires NextAfter(k, c, p) && Switched(k, k', c, p, tf)
    ensures (e + 1023 - p) % 1024 + 1 <= (e + 1023 - c) % 1024
  {
    assert p != e;
    Nearer(c, p, e);
  }

  lemma CallComesNearer(k: Kernel, c: nat, tf: Trapframe, call: Call, e: nat)
    requires KInv(k) && RecvOk(k) && Live(k, c) && k.envs[c].status == RUNNING
    requires !Ends(k, c, Syscall(call)) && CountsGuard(SetTf(k, c, tf), c, call)
    requires Spaces(k) && BodyDefined(k, Some(c), tf, Syscall(call))
    requires Waiting(k, Body(k, Some(c), tf, Syscall(call)).0, e)
    ensures NoFarther(c, Body(k, Some(c), tf, Syscall(call)).1, e, 0)
  {
    CallEnds(k, c, tf, call);
    var (k1, r) := Dispatch(SetTf(k, c, tf), c, call);
    AnswerComesNearer(k1, c, call, r, Body(k, Some(c), tf, Syscall(call)).0, Body(k, Some(c), tf, Syscall(call)).1, e);
  }

  lemma AnswerComesNearer(k: Kernel, c: nat, call: Call, r: int, k': Kernel, out: Outcome, e: nat)
    requires k.Shape() && k'.Shape() && c < NENV && Answered(k, c, call, r, k', out)
    requires e < NENV && k'.envs[e].status == RUNNABLE
    ensures NoFarther(c, out, e, 0)
  {
    if call.IpcRecv? && r == 0 {
      SearchWaits(k, c, k', out, e);
    } else if k.envs[c].status != RUNNING {
      var a := k.envs[c];
      var k2 := k.(envs := k.envs[c := a.(tf := a.tf.(regs := a.tf.regs.(eax := r % 0x1_0000_0000)))]);
      SearchWaits(k2, c, k', out, e);
    }
  }

  lemma SearchWaits(k: Kernel, c: nat, k': Kernel, out: Outcome, e: nat)
    requires k.Shape() && k'.Shape() && c < NENV && GoesOnFrom(k, c, k', out)
    requires e < NENV && k'.envs[e].status == RUNNABLE
    ensures NoFarther(c, out, e, 0)
  {
    if out.Leave? && out.cur.Some? { assert out.cur.value != e; }
    assert k.envs[e].status == RUNNABLE;
    SearchComesNearer(k, c, k', out, e);
  }

  lemma StayComesNearer(k: Kernel, c: nat, tf: Trapframe, ev: Event, e: nat)
    requires KInv(k) && RecvOk(k) && Live(k, c) && k.envs[c].status == RUNNING && !Ends(k, c, ev)
    requires Spaces(k) && EventGuard(SetTf(k, c, tf), c, ev) && BodyDefined(k, Some(c), tf, ev)
    requires Waiting(k, Body(k, Some(c), tf, ev).0, e)
    ensures NoFarther(c, Body(k, Some(c), tf, ev).1, e, if ev.Timer? || ev.Yield? then 1 else 0)
  {
    match ev
    case Timer => GivingWayComesNearer(k, c, tf, ev, e);
    case Yield => GivingWayComesNearer(k, c, tf, ev, e);
    case Syscall(call) => CallComesNearer(k, c, tf, call, e);
    case _ => TrapReturns(k, c, tf, ev);
  }

  lemma EndingFrees(k: Kernel, c: nat, tf: Trapframe, ev: Event)
    requires KInv(k) && Live(k, c) && (k.envs[c].status == RUNNING || k.envs[c].status == DYING) && Ends(k, c, ev)
    ensures Spaces(k) && BodyDefined(k, Some(c), tf, ev)
    ensures var k' := Body(k, Some(c), tf, ev).0;
      k'.envs[c].status == FREE && forall i, j :: At(k'.mem, Key(k.envs[c].pgdir, i, j)) == None
  {
    var k1 := EnvironmentEnds(k, c, tf, ev);
    FreedStaysFree(k, k1, c, Body(k, Some(c), tf, ev).0, Body(k, Some(c), tf, ev).1);
  }

  lemma FreedStaysFree(k: Kernel, k1: Kernel, c: nat, k': Kernel, out: Outcome)
    requires k.Shape() && k1.Shape() && k'.Shape() && c < NENV && Freed(k, k1, c) && GoesOnFromZero(k1, k', out)
    ensures k'.envs[c].status == FREE && forall i, j :: At(k'.mem, Key(k.envs[c].pgdir, i, j)) == None
  {
    if !NoneIsRunnable(k1) { assert k1.envs[out.cur.value].status == RUNNABLE; }
  }

  // ---- One step of the machine

  lemma OtherCpuStays(s: Machine, s': Machine, in_: Input, x: nat)
    requires MachineInv(s) && Step(s, s', in_) && x < |s.cpus|
    ensures |s'.cpus| == |s.cpus|
    ensures in_.c != x || !s.cpus[x].pc.Work? || in_.create ==> s'.cpus[x].env == s.cpus[x].env
  {
    if s.cpus[in_.c].pc.Work? {
      if !in_.create { StayKeeps(s, s', in_); }
    } else {
      StepMovesOneCpu(s, s', in_);
    }
  }

  /** The CPU's environment after its stay. */
  lemma StayLeavesEnv(s: Machine, s': Machine, in_: Input)
    requires MachineInv(s) && Step(s, s', in_) && s.cpus[in_.c].pc.Work? && !in_.create
    ensures Spaces(s.k) && |s'.cpus| == |s.cpus|
    ensures var env := s.cpus[in_.c].env;
      && (env.Some? ==> Live(s.k, env.value)) && BodyDefined(s.k, env, in_.tf, in_.ev)
      && s'.cpus[in_.c].env == Taken(Body(s.k, env, in_.tf, in_.ev).1)
  {
    StayFacts(s, s', in_);
  }

  /** CPU `x` comes nearer to `e` when it gives way, and may lose ground only with its environment. */
  ghost predicate Progress(s: Machine, s': Machine, x: nat, e: nat, gives: bool, loses: bool)
    requires x < |s.cpus| && x < |s'.cpus|
  {
    Ahead(s', x, e) + (if gives then 1 else 0) <= Ahead(s, x, e) + (if loses then 1023 else 0)
  }

  /** What a stay that began with `env` means for slot `e`. */
  ghost predicate Served(k: Kernel, env: Option<nat>, ev: Event, k': Kernel, out: Outcome, e: nat)
    requires k.Shape() && k'.Shape()
  {
    env.Some? ==>
      && env.value < NENV
      && var gives := k.envs[env.value].status == RUNNING && (ev.Timer? || ev.Yield?);
      || (k'.envs[env.value].status == FREE && !gives)
      || NoFarther(env.value, out, e, if gives then 1 else 0)
  }

  lemma BodyServes(k: Kernel, env: Option<nat>, tf: Trapframe, ev: Event, e: nat)
    requires KInv(k) && RecvOk(k) && (env.Some? ==> Live(k, env.value) && Held(k, env.value))
    requires env.Some? && k.envs[env.value].status != DYING ==> EventGuard(SetTf(k, env.value, tf), env.value, ev)
    requires Spaces(k) && BodyDefined(k, env, tf, ev) && Waiting(k, Body(k, env, tf, ev).0, e)
    ensures Served(k, env, ev, Body(k, env, tf, ev).0, Body(k, env, tf, ev).1, e)
  {
    if env.Some? {
      if Ends(k, env.value, ev) {
        EndingFrees(k, env.value, tf, ev);
      } else {
        StayComesNearer(k, env.value, tf, ev, e);
      }
    }
  }

  lemma StayServes(s: Machine, s': Machine, in_: Input, e: nat)
    requires MachineInv(s) && Step(s, s', in_) && s.cpus[in_.c].pc.Work? && !in_.create && s'.k.Shape()
    requires Waiting(s.k, s'.k, e)
    ensures |s'.cpus| == |s.cpus|
    ensures exists out: Outcome ::
      s'.cpus[in_.c].env == Taken(out) && Served(s.k, s.cpus[in_.c].env, in_.ev, s'.k, out, e)
  {
    StayFacts(s, s', in_);
    StayLeavesEnv(s, s', in_);
    BodyServes(s.k, s.cpus[in_.c].env, in_.tf, in_.ev, e);
    assert s'.cpus[in_.c].env == Taken(Body(s.k, s.cpus[in_.c].env, in_.tf, in_.ev).1);
  }

  lemma StepOf(run: seq<Machine>, inputs: seq<Input>, n: nat)
    requires Execution(run, inputs) && n < |inputs|
    ensures n + 1 < |run| && MachineInv(run[n]) && Step(run[n], run[n + 1], inputs[n])
  {
    RunKeeps(run, inputs, n);
  }

  lemma StepProgress(run: seq<Machine>, inputs: seq<Input>, n: nat, x: nat, e: nat)
    requires Execution(run, inputs) && n < |inputs| && x < |run[n].cpus| && e < NENV
    requires run[n].k.Shape() && run[n + 1].k.Shape() && Waiting(run[n].k, run[n + 1].k, e)
    ensures x < |run[n + 1].cpus|
    ensures Progress(run[n], run[n + 1], x, e, GivesWay(run, inputs, n, x), Loses(run, inputs, n, x))
  {
    StepOf(run, inputs, n);
    var s, s', in_ := run[n], run[n + 1], inputs[n];
    OtherCpuStays(s, s', in_, x);
    if in_.c == x && s.cpus[x].pc.Work? && !in_.create {
      StayServes(s, s', in_, e);
      var out: Outcome :| s'.cpus[x].env == Taken(out) && Served(s.k, s.cpus[x].env, in_.ev, s'.k, out, e);
      ServedIsProgress(run, inputs, n, x, e, out);
    }
  }

  lemma ServedIsProgress(run: seq<Machine>, inputs: seq<Input>, n: nat, x: nat, e: nat, out: Outcome)
    requires n < |inputs| < |run| && x < |run[n].cpus| && x < |run[n + 1].cpus|
    requires run[n].k.Shape() && run[n + 1].k.Shape() && inputs[n].c == x
    requires run[n].cpus[x].pc.Work? && !inputs[n].create
    requires run[n + 1].cpus[x].env == Taken(out)
    requires Served(run[n].k, run[n].cpus[x].env, inputs[n].ev, run[n + 1].k, out, e)
    ensures Progress(run[n], run[n + 1], x, e, GivesWay(run, inputs, n, x), Loses(run, inputs, n, x))
  {
    assert run[n].cpus[x].env.Some? ==> Serves(run, inputs, n, x);
  }

  // ---- Whole runs

  /** Distances along a run, and what each step meant. */
  ghost predicate Nearing(ahead: seq<nat>, gives: seq<bool>, loses: seq<bool>, i: nat, j: nat) {
    && j < |ahead| && j <= |gives| == |loses|
    && forall n :: i <= n < j ==>
         ahead[n + 1] + (if gives[n] then 1 else 0) <= ahead[n] + (if loses[n] then 1023 else 0)
  }

  lemma {:induction false} Approach(ahead: seq<nat>, gives: seq<bool>, loses: seq<bool>, i: nat, j: nat)
    requires i <= j && Nearing(ahead, gives, loses, i, j)
    ensures Count(gives, i, j) + ahead[j] <= ahead[i] + 1023 * Count(loses, i, j)
    decreases j
  {
    if i < j { Approach(ahead, gives, loses, i, j - 1); }
  }

  /** Slot `e` is RUNNABLE from state `i` to state `j`. */
  ghost predicate StaysRunnable(run: seq<Machine>, i: nat, j: nat, e: nat) {
    j < |run| && e < NENV && forall n :: i <= n <= j ==> run[n].k.Shape() && run[n].k.envs[e].status == RUNNABLE
  }

  ghost function Distances(run: seq<Machine>, x: nat, e: nat): (ahead: seq<nat>)
    ensures |ahead| == |run|
  {
    seq(|run|, n requires 0 <= n < |run| => if x < |run[n].cpus| then Ahead(run[n], x, e) else 0)
  }

  lemma {:induction false} SameCpus(run: seq<Machine>, inputs: seq<Input>, n: nat)
    requires Execution(run, inputs) && n < |run|
    ensures |run[n].cpus| == |run[0].cpus|
  {
    if n > 0 {
      SameCpus(run, inputs, n - 1);
      StepOf(run, inputs, n - 1);
      OtherCpuStays(run[n - 1], run[n], inputs[n - 1], inputs[n - 1].c);
    }
  }

  lemma RunNears(run: seq<Machine>, inputs: seq<Input>, i: nat, j: nat, x: nat, e: nat)
    requires Execution(run, inputs) && i <= j && StaysRunnable(run, i, j, e) && x < |run[0].cpus|
    ensures Nearing(Distances(run, x, e), GivingWay(run, inputs, x), Losing(run, inputs, x), i, j)
  {
    var ahead, gives, loses := Distances(run, x, e), GivingWay(run, inputs, x), Losing(run, inputs, x);
    forall n | i <= n < j
      ensures ahead[n + 1] + (if gives[n] then 1 else 0) <= ahead[n] + (if loses[n] then 1023 else 0)
    {
      NearsAt(run, inputs, n, x, e);
    }
  }

  lemma NearsAt(run: seq<Machine>, inputs: seq<Input>, n: nat, x: nat, e: nat)
    requires Execution(run, inputs) && StaysRunnable(run, n, n + 1, e) && x < |run[0].cpus|
    ensures n < |inputs|
    ensures Distances(run, x, e)[n + 1] + (if GivingWay(run, inputs, x)[n] then 1 else 0) <=
      Distances(run, x, e)[n] + (if Losing(run, inputs, x)[n] then 1023 else 0)
  {
    SameCpus(run, inputs, n);
    assert run[n].k.Shape() && run[n + 1].k.Shape();
    StepProgress(run, inputs, n, x, e);
  }

  /** At most `d` times, and 1023 times more for each loss. */
  predicate Bounded(times: nat, losses: nat, d: nat) { times <= d + 1023 * losses }

  /**
   Round robin is fair: while an environment stays RUNNABLE, a CPU that loses no environment of its
   own gives way fewer than NENV times, and no more often than there are slots from the one it
   runs to the waiting one; each environment it loses starts its search again, and allows as many
   times more.
   */
  lemma WaitIsBounded(run: seq<Machine>, inputs: seq<Input>, i: nat, j: nat, x: nat, e: nat)
    requires Execution(run, inputs) && i <= j && StaysRunnable(run, i, j, e) && x < |run[0].cpus|
    ensures x < |run[i].cpus|
    ensures Bounded(Count(GivingWay(run, inputs, x), i, j), Count(Losing(run, inputs, x), i, j),
      if run[i].cpus[x].env.Some? then (e + 1023 - run[i].cpus[x].env.value % 1024) % 1024 else 1023)
  {
    SameCpus(run, inputs, i);
    RunNears(run, inputs, i, j, x, e);
    var ahead := Distances(run, x, e);
    assert ahead[i] == Ahead(run[i], x, e);
    NearingBounds(ahead, GivingWay(run, inputs, x), Losing(run, inputs, x), i, j, ahead[i]);
  }

  lemma NearingBounds(ahead: seq<nat>, gives: seq<bool>, loses: seq<bool>, i: nat, j: nat, d: nat)
    requires i <= j && Nearing(ahead, gives, loses, i, j) && ahead[i] == d <= 1023
    ensures Bounded(Count(gives, i, j), Count(loses, i, j), d)
  {
    Approach(ahead, gives, loses, i, j);
  }

  // ---- Messages

  /** The receiver's record, before and after the send that wakes it. */
  ghost predicate WokenBy(a: Env, b: Env, box: Mailbox) {
    && a.status == NOT_RUNNABLE && a.recving && b.status == RUNNABLE && !b.recving
    && b.from == box.from && b.value == box.value && b.perm == box.perm
    && b.tf == a.tf.(regs := a.tf.regs.(eax := 0))
    && b.id == a.id && b.parent == a.parent && b.pgdir == a.pgdir && b.upcall == a.upcall && b.dstva == a.dstva
  }

  /** A send that succeeds, up to the sender's return. */
  lemma SendWakes(k: Kernel, c: nat, tf: Trapframe, call: Call, e: nat)
    requires KInv(k) && RecvOk(k) && Live(k, c) && k.envs[c].status == RUNNING && call.IpcTrySend?
    requires CountsGuard(SetTf(k, c, tf), c, call) && Envid2Env(SetTf(k, c, tf), c, call.envid, false) == Some(e)
    requires Spaces(SetTf(k, c, tf)) && Live(SetTf(k, c, tf), c) && Dispatch(SetTf(k, c, tf), c, call).1 == 0
    requires Spaces(k) && BodyDefined(k, Some(c), tf, Syscall(call))
    ensures e < NENV
    ensures WokenBy(k.envs[e], Body(k, Some(c), tf, Syscall(call)).0.envs[e],
      Mailbox(false, k.envs[c].id, call.value, PermSent(SetTf(k, c, tf), e, call.srcva, call.perm)))
  {
    SetTfKeeps(k, c, tf);
    DispatchWakes(SetTf(k, c, tf), c, call, e);
    CallEnds(k, c, tf, call);
  }

  lemma DispatchWakes(k: Kernel, c: nat, call: Call, e: nat)
    requires KInv(k) && RecvOk(k) && Live(k, c) && k.envs[c].status == RUNNING && call.IpcTrySend?
    requires CountsGuard(k, c, call) && Envid2Env(k, c, call.envid, false) == Some(e)
    requires Spaces(k) && Dispatch(k, c, call).1 == 0
    ensures e < NENV && e != c
    ensures var k1 := Dispatch(k, c, call).0;
      && k1.envs[c] == k.envs[c]
      && WokenBy(k.envs[e], k1.envs[e], Mailbox(false, k.envs[c].id, call.value, PermSent(k, e, call.srcva, call.perm)))
  {
    SendReply(k, c, call.envid, call.value, call.srcva, call.perm);
    Envid2EnvFinds(k, c, call.envid, false, e);
    assert Names(k, c, call.envid, false, e);
    assert Blocked(k.envs[e]);
  }

  lemma DeliveryIsASendTo(k: Kernel, env: Option<nat>, tf: Trapframe, ev: Event, h: Happening)
    requires Spaces(k) && (env.Some? ==> Live(k, env.value) && Held(k, env.value)) && BodyDefined(k, env, tf, ev)
    requires h == BodyHappening(k, env, tf, ev) && h.Delivery?
    ensures env.Some? && k.envs[env.value].status == RUNNING && ev.Syscall? && ev.call.IpcTrySend?
    ensures var c := env.value; var k0 := SetTf(k, c, tf);
      && Spaces(k0) && Live(k0, c) && CallDefined(k0, c, ev.call) && Dispatch(k0, c, ev.call).1 == 0
      && Envid2Env(k0, c, ev.call.envid, false) == Some(h.e)
      && h.box == Mailbox(false, k.envs[c].id, ev.call.value, PermSent(k0, h.e, ev.call.srcva, ev.call.perm))
  {
    KeepsSpaces(k, env.value, tf);
  }

  lemma StepWakes(s: Machine, s': Machine, in_: Input, h: Happening)
    requires MachineInv(s) && Step(s, s', in_) && h == StepHappening(s, in_) && h.Delivery?
    ensures s.k.Shape() && s'.k.Shape() && h.e < NENV && WokenBy(s.k.envs[h.e], s'.k.envs[h.e], h.box)
    ensures s.cpus[in_.c].env.Some? && s.cpus[in_.c].env.value < NENV
    ensures h.box.from == s.k.envs[s.cpus[in_.c].env.value].id
  {
    StayFacts(s, s', in_);
    var env := s.cpus[in_.c].env;
    DeliveryIsASendTo(s.k, env, in_.tf, in_.ev, h);
    SendWakes(s.k, env.value, in_.tf, in_.ev.call, h.e);
  }

  /**
   A send that succeeds at step `n` of a run wakes its receiver: the slot was blocked waiting, and
   is RUNNABLE after the step, its system call returning 0, with the message and the sender's id in
   its record and everything else as it was.
   */
  lemma DeliveryWakes(run: seq<Machine>, inputs: seq<Input>, n: nat)
    requires Execution(run, inputs) && n < |inputs| && Happenings(run, inputs)[n].Delivery?
    ensures var h := Happenings(run, inputs)[n];
      && run[n].k.Shape() && run[n + 1].k.Shape() && h.e < NENV
      && WokenBy(run[n].k.envs[h.e], run[n + 1].k.envs[h.e], h.box)
      && inputs[n].c < |run[n].cpus| && run[n].cpus[inputs[n].c].env.Some?
      && run[n].cpus[inputs[n].c].env.value < NENV
      && h.box.from == run[n].k.envs[run[n].cpus[inputs[n].c].env.value].id
  {
    StepOf(run, inputs, n);
    StepWakes(run[n], run[n + 1], inputs[n], Happenings(run, inputs)[n]);
  }

  // ---- Endings

  /**
   A step that serves an environment marked DYING, one whose fault has no handler, or one that
   destroys itself leaves that slot FREE, and nothing of its address space.
   */
  lemma EndedIsFree(run: seq<Machine>, inputs: seq<Input>, n: nat, x: nat)
    requires Execution(run, inputs) && Serves(run, inputs, n, x)
    requires run[n].k.Shape() && run[n].cpus[x].env.value < NENV
    requires Ends(run[n].k, run[n].cpus[x].env.value, inputs[n].ev)
    ensures var c := run[n].cpus[x].env.value;
      && run[n + 1].k.Shape() && run[n + 1].k.envs[c].status == FREE
      && forall i, j :: At(run[n + 1].k.mem, Key(run[n].k.envs[c].pgdir, i, j)) == None
  {
    StepOf(run, inputs, n);
    StayFacts(run[n], run[n + 1], inputs[n]);
    EndingFrees(run[n].k, run[n].cpus[x].env.value, inputs[n].tf, inputs[n].ev);
  }
}
