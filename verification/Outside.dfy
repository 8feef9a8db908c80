/**
 Runs that leave the domain of the theorems: two environments on two CPUs, the second a child
 of the first, come to system calls that the guards exclude (kern/syscall.c, kern/env.c).
 */
module OutsideDomain {
  import opened Layout
  import opened Trapframes
  import opened PageState
  import opened PageInv
  import opened AddressSpace
  import opened Envs
  import opened Syscalls
  import opened Sched
  import opened KernelEntry
  import opened Smp
  import opened Runs
  import opened InsertLimits

  // ---- What the scheduler does with few environments

  lemma YieldPicks(k: Kernel, cur: Option<nat>, e: nat)
    requires k.Shape() && (cur.Some? ==> cur.value < NENV) && e < NENV && k.envs[e].status == RUNNABLE
    requires forall x :: 0 <= x < NENV && k.envs[x].status == RUNNABLE ==> x == e
    ensures AfterYield(k, cur) == (EnvRun(k, cur, e), Leave(Some(e)))
  {
    RunnableIsFound(k, Begin(k, cur), e);
  }

  lemma YieldHalts(k: Kernel, cur: Option<nat>, a: nat)
    requires k.Shape() && (cur.Some? ==> cur.value < NENV && k.envs[cur.value].status != RUNNING)
    requires forall x :: 0 <= x < NENV ==> k.envs[x].status != RUNNABLE
    requires a < NENV && k.envs[a].status == RUNNING
    ensures AfterYield(k, cur) == (k, Leave(None))
  {
    assert Wakeable(k, a);
  }

  lemma SetSameTf(k: Kernel, c: nat)
    requires k.Shape() && c < NENV
    ensures SetTf(k, c, k.envs[c].tf) == k
  {
    assert k.envs[c := k.envs[c].(tf := k.envs[c].tf)] == k.envs;
  }

  /** A call that leaves its caller RUNNING returns to it. */
  lemma CallComesBack(k: Kernel, c: nat, call: Call)
    requires Spaces(k) && Live(k, c) && CallDefined(k, c, call) && !call.IpcRecv? && !DestroysSelf(k, c, call)
    requires Dispatch(k, c, call).0.envs[c].status == RUNNING
    ensures Serve(k, c, Syscall(call)) == (Returned(k, c, call), Leave(Some(c)))
  {
    var (k1, ret) := Dispatch(k, c, call);
    var k2 := SetTf(k1, c, WithEax(k1.envs[c].tf, ret % 0x1_0000_0000));
    assert k2.envs[c := k2.envs[c].(status := RUNNABLE)][c := k2.envs[c].(status := RUNNING)] == k2.envs;
  }

  /** The kernel after the call, with its result in the caller's eax. */
  function Returned(k: Kernel, c: nat, call: Call): Kernel
    requires Spaces(k) && Live(k, c) && CallDefined(k, c, call)
  {
    var (k1, ret) := Dispatch(k, c, call);
    SetTf(k1, c, WithEax(k1.envs[c].tf, ret % 0x1_0000_0000))
  }

  // ---- The scene

  /** Environment `e` maps nothing. */
  ghost predicate Empty(k: Kernel, e: nat)
    requires k.Shape() && e < NENV
  {
    forall i, j :: At(k.mem, Key(k.envs[e].pgdir, i, j)) == None
  }

  /** Nothing is live but `a` and perhaps `b`, whose spaces are empty; `a` runs, `b` is its child. */
  ghost predicate Cast(k: Kernel, a: nat, b: Option<nat>) {
    && KInv(k) && a < NENV && b != Some(a) && (b.Some? ==> b.value < NENV)
    && (forall e :: 0 <= e < NENV ==> (k.envs[e].status != FREE <==> e == a || b == Some(e)))
    && k.envs[a].status == RUNNING && !k.envs[a].recving && Empty(k, a)
    && (b.Some? ==> !k.envs[b.value].recving && k.envs[b.value].parent == k.envs[a].id)
  }

  lemma CastCarries(k: Kernel, k': Kernel, a: nat, b: Option<nat>)
    requires Cast(k, a, b) && KInv(k') && SameFlat(k.mem, k'.mem)
    requires forall e :: 0 <= e < NENV ==>
      (k'.envs[e].status != FREE <==> k.envs[e].status != FREE) && k'.envs[e].recving == k.envs[e].recving
      && k'.envs[e].parent == k.envs[e].parent && k'.envs[e].id == k.envs[e].id && k'.envs[e].pgdir == k.envs[e].pgdir
    requires k'.envs[a].status == RUNNING
    ensures Cast(k', a, b)
  {
  }

  lemma CastTouched(k: Kernel, k': Kernel, a: nat, b: Option<nat>, e: nat)
    requires Cast(k, a, b) && KInv(k') && k'.mem == k.mem && e < NENV && k'.envs == k.envs[e := k'.envs[e]]
    requires var old_, new_ := k.envs[e], k'.envs[e];
      && (new_.status != FREE <==> old_.status != FREE) && new_.recving == old_.recving
      && new_.parent == old_.parent && new_.id == old_.id && new_.pgdir == old_.pgdir
    requires k'.envs[a].status == RUNNING
    ensures Cast(k', a, b)
  {
    CastCarries(k, k', a, b);
  }

  /** `a` is in user mode on CPU 0, and the lock is free. */
  ghost predicate OnFirst(s: Machine, a: nat) {
    Reachable(s) && Open(s) && |s.cpus| >= 2 && s.cpus[0] == Cpu(User, Some(a), false, 1, 1)
  }

  lemma AllocTakesOne(k: Kernel, parent: int)
    requires KInv(k) && EnvAlloc(k, parent).1 == 0
    ensures k.mem.free != [] && EnvAlloc(k, parent).0.mem.free == k.mem.free[1..]
  {
    EnvSetupVmKeeps(k.mem);
    EnvAllocKeeps(k, parent);
  }

  /** The first environment, created and chosen. */
  lemma FirstIsCast(k0: Kernel, k: Kernel, a: nat)
    requires KInv(k0) && (forall e :: 0 <= e < NENV ==> k0.envs[e].status == FREE)
    requires EnvAlloc(k0, 0).1 == 0 && a == EnvAlloc(k0, 0).2
    requires k == EnvRun(EnvAlloc(k0, 0).0, None, a) && KInv(k)
    ensures Cast(k, a, None) && k.mem.free == k0.mem.free[1..] && k.envFree == k0.envFree[1..]
    ensures YieldsTo(EnvAlloc(k0, 0).0, k, a)
  {
    EnvAllocKeeps(k0, 0);
    AllocTakesOne(k0, 0);
    YieldPicks(EnvAlloc(k0, 0).0, None, a);
  }

  /** A CPU without an environment takes `e`. */
  ghost predicate YieldsTo(k: Kernel, k': Kernel, e: nat) {
    k.Shape() && AfterYield(k, None) == (k', Leave(Some(e)))
  }

  lemma FirstKeeps(k0: Kernel)
    requires KInv(k0) && EnvAlloc(k0, 0).1 == 0
    ensures KInv(EnvRun(EnvAlloc(k0, 0).0, None, EnvAlloc(k0, 0).2))
  {
    EnvAllocKeeps(k0, 0);
    var (k1, _, a) := EnvAlloc(k0, 0);
    TouchEnvKeeps(k1, EnvRun(k1, None, a), a);
  }

  /** The same with the way there. */
  lemma FirstWorks(w: Machine) returns (s: Machine, a: nat)
    requires Reachable(w) && |w.cpus| >= 2 && w.cpus[0] == Cpu(Work, None, false, 1, 0)
    requires w.locked && w.holder == Some(0)
    requires KInv(w.k) && (forall e :: 0 <= e < NENV ==> w.k.envs[e].status == FREE) && w.booting
    requires w.k.envFree != [] && w.k.mem.free != []
    ensures OnFirst(s, a) && Cast(s.k, a, None) && s.cpus[1..] == w.cpus[1..]
    ensures s.k.envFree == w.k.envFree[1..] && s.k.mem.free == w.k.mem.free[1..]
  {
    EnvAllocKeeps(w.k, 0);
    a := EnvAlloc(w.k, 0).2;
    var w1 := w.(k := EnvAlloc(w.k, 0).0);
    StepReaches(w, w1, Input(0, NEW_ENV_TF, Quiet, true));
    KInvSpaces(w1.k);
    var k := EnvRun(w1.k, None, a);
    FirstKeeps(w.k);
    FirstIsCast(w.k, k, a);
    Works(w1, 0, NEW_ENV_TF, Quiet, k, Some(a));
    s := Gone(w1, 0, k, Some(a));
  }

  /** CPU 0 boots, creates the first environment and runs it. */
  lemma FirstRuns(s0: Machine) returns (s: Machine, a: nat)
    requires Init(s0) && |s0.cpus| >= 2 && |s0.k.envFree| >= 2 && |s0.k.mem.free| >= 2
    ensures OnFirst(s, a) && Cast(s.k, a, None)
    ensures s.cpus[1] == Cpu(TestLocked(ToWork), None, false, 0, 0)
    ensures |s.k.envFree| >= 1 && |s.k.mem.free| == |s0.k.mem.free| - 1
  {
    InitIsReachable(s0);
    Enters(s0, 0);
    var w := Entered(s0, 0);
    s, a := FirstWorks(w);
    assert s.cpus[1] == s.cpus[1..][0] == w.cpus[1..][0] == s0.cpus[1];
  }

  /** The environment on CPU 0 makes a call that returns to it. */
  lemma FirstCalls(s: Machine, a: nat, call: Call) returns (t: Machine)
    requires OnFirst(s, a) && KInv(s.k) && Live(s.k, a) && s.k.envs[a].status == RUNNING
    requires !call.IpcRecv? && !DestroysSelf(s.k, a, call) && CountsGuard(s.k, a, call) && CallGuard(s.k, a, call)
    requires Spaces(s.k) && Dispatch(s.k, a, call).0.envs[a].status == RUNNING
    ensures OnFirst(t, a) && t.k == Returned(s.k, a, call) && KInv(t.k) && t.cpus[1..] == s.cpus[1..]
  {
    var tf := s.k.envs[a].tf;
    SetSameTf(s.k, a);
    CallComesBack(s.k, a, call);
    Stays(s, 0, tf, Syscall(call), Returned(s.k, a, call), Some(a));
    t := Gone(s, 0, Returned(s.k, a, call), Some(a));
    ReachableKeeps(t);
  }

  lemma ForkIsCast(k: Kernel, k': Kernel, a: nat, b: nat)
    requires Cast(k, a, None) && k.envFree != [] && k.mem.free != [] && Spaces(k) && Live(k, a)
    requires b == EnvX(SysExofork(k, a).1) && k' == Returned(k, a, Exofork) && KInv(k')
    ensures Cast(k', a, Some(b)) && k'.envs[b].status == NOT_RUNNABLE && k'.mem.free == k.mem.free[1..]
  {
    ExoforkKeeps(k, a);
    AllocTakesOne(k, k.envs[a].id);
    var k1 := SysExofork(k, a).0;
    ChildJoins(k, k1, a, b);
    CastTouched(k1, k', a, Some(b), a);
  }

  lemma ChildJoins(k: Kernel, k': Kernel, a: nat, b: nat)
    requires Cast(k, a, None) && KInv(k') && SameFlat(k.mem, k'.mem) && b < NENV && k.envs[b].status == FREE
    requires k'.envs == k.envs[b := k'.envs[b]] && k'.envs[b].status != FREE && !k'.envs[b].recving
    requires k'.envs[b].parent == k.envs[a].id
    ensures Cast(k', a, Some(b))
  {
  }

  /** It forks ... */
  lemma FirstForks(s: Machine, a: nat) returns (t: Machine, b: nat)
    requires OnFirst(s, a) && Cast(s.k, a, None) && s.k.envFree != [] && s.k.mem.free != []
    ensures OnFirst(t, a) && Cast(t.k, a, Some(b)) && t.k.envs[b].status == NOT_RUNNABLE && t.cpus[1..] == s.cpus[1..]
    ensures t.k.mem.free == s.k.mem.free[1..]
  {
    KInvSpaces(s.k);
    ForkStaysOn(s.k, a);
    t := FirstCalls(s, a, Exofork);
    b := EnvX(SysExofork(s.k, a).1);
    ForkIsCast(s.k, t.k, a, b);
  }

  lemma ForkStaysOn(k: Kernel, a: nat)
    requires Cast(k, a, None) && Spaces(k) && Live(k, a)
    ensures SysExofork(k, a).0.envs[a].status == RUNNING
  {
    ExoforkKeeps(k, a);
  }

  /** ... and makes its child runnable. */
  lemma FirstWakes(s: Machine, a: nat, b: nat) returns (t: Machine)
    requires OnFirst(s, a) && Cast(s.k, a, Some(b)) && s.k.envs[b].status == NOT_RUNNABLE
    ensures OnFirst(t, a) && Cast(t.k, a, Some(b)) && t.k.envs[b].status == RUNNABLE && t.cpus[1..] == s.cpus[1..]
    ensures t.k.mem == s.k.mem
  {
    KInvSpaces(s.k);
    ChildIsNamed(s.k, a, b);
    var call := SetStatus(s.k.envs[b].id, RUNNABLE);
    t := FirstCalls(s, a, call);
    CastCarries(s.k, t.k, a, Some(b));
  }

  lemma ChildIsNamed(k: Kernel, a: nat, b: nat)
    requires Cast(k, a, Some(b))
    ensures Live(k, a) && Live(k, b)
    ensures Envid2Env(k, a, k.envs[b].id, true) == Some(b) && Envid2Env(k, a, k.envs[b].id, false) == Some(b)
  {
    Envid2EnvFinds(k, a, k.envs[b].id, false, b);
    assert IdOk(k.envs[b].id, b);
  }

  /** The second CPU takes the child. */
  lemma SecondRuns(s: Machine, a: nat, b: nat) returns (t: Machine)
    requires OnFirst(s, a) && Cast(s.k, a, Some(b)) && s.k.envs[b].status == RUNNABLE
    requires s.cpus[1] == Cpu(TestLocked(ToWork), None, false, 0, 0)
    ensures OnBoth(t, a, b) && t.k.mem == s.k.mem
  {
    KInvSpaces(s.k);
    YieldPicks(s.k, None, b);
    var k := EnvRun(s.k, None, b);
    PickedIsCast(s.k, k, a, b);
    Stays(s, 1, NEW_ENV_TF, Quiet, k, Some(b));
    t := Gone(s, 1, k, Some(b));
  }

  lemma PickedIsCast(k: Kernel, k': Kernel, a: nat, b: nat)
    requires Cast(k, a, Some(b)) && k.envs[b].status == RUNNABLE && k' == EnvRun(k, None, b)
    ensures Cast(k', a, Some(b)) && k'.envs[b].status == RUNNING && k'.mem == k.mem
  {
    TouchEnvKeeps(k, k', b);
    CastTouched(k, k', a, Some(b), b);
  }

  /** Parent and child in user mode on two CPUs. */
  ghost predicate OnBoth(s: Machine, a: nat, b: nat) {
    && OnFirst(s, a) && Cast(s.k, a, Some(b)) && s.k.envs[b].status == RUNNING
    && s.cpus[1] == Cpu(User, Some(b), false, 1, 1)
  }

  lemma BothRun(s0: Machine) returns (s: Machine, a: nat, b: nat)
    requires Init(s0) && |s0.cpus| >= 2 && |s0.k.envFree| >= 2 && |s0.k.mem.free| >= 2
    ensures OnBoth(s, a, b) && |s.k.mem.free| == |s0.k.mem.free| - 2
  {
    var s1, s2, s3;
    s1, a := FirstRuns(s0);
    s2, b := FirstForks(s1, a);
    assert s2.cpus[1] == s2.cpus[1..][0] == s1.cpus[1..][0];
    s3 := FirstWakes(s2, a, b);
    assert s3.cpus[1] == s3.cpus[1..][0] == s2.cpus[1..][0];
    s := SecondRuns(s3, a, b);
  }

  // ---- Calls outside the domain

  /** On CPU `x` of a machine that can come about, the kernel is about to serve `call` for `c`. */
  ghost predicate ComesTo(s: Machine, x: nat, c: nat, call: Call) {
    && Reachable(s) && x < |s.cpus| && s.cpus[x].pc == Work && s.cpus[x].env == Some(c)
    && Spaces(s.k) && Live(s.k, c) && Serving(s.k, HeldBut(s, x), c)
    && Brought(s.k, c, call)
  }

  /** The trap has saved the registers that env_tf still holds. */
  ghost predicate Brought(k: Kernel, c: nat, call: Call)
    requires k.Shape() && c < NENV
  {
    SetTf(k, c, k.envs[c].tf) == k && !DestroysSelf(k, c, call)
  }

  /** It serves the call, and the scheduler's bookkeeping is no longer true. */
  ghost predicate BreaksBookkeeping(s: Machine, x: nat, c: nat, call: Call) {
    && ComesTo(s, x, c, call) && CountsGuard(s.k, c, call) && !CallGuard(s.k, c, call)
    && var k' := Dispatch(s.k, c, call).0; !(MidOk(k', HeldBut(s, x), Some(c)) && RecvOk(k'))
  }

  lemma FirstComesTo(s: Machine, a: nat, call: Call) returns (w: Machine)
    requires OnFirst(s, a) && s.k.Shape() && a < NENV && s.k.envs[a].status == RUNNING && !DestroysSelf(s.k, a, call)
    ensures w.k == s.k && ComesTo(w, 0, a, call)
  {
    Enters(s, 0);
    w := Entered(s, 0);
    ReachableKeeps(w);
    HeldSplits(w, 0);
    KInvSpaces(w.k);
    SetSameTf(w.k, a);
  }

  lemma UnguardedBreaks(w: Machine, a: nat, call: Call)
    requires ComesTo(w, 0, a, call) && CountsGuard(w.k, a, call) && !CallGuard(w.k, a, call)
    ensures BreaksBookkeeping(w, 0, a, call)
  {
    CallGuardIsExact(w.k, HeldBut(w, 0), a, call);
  }

  /** A parent sets the status of a child that runs on another CPU ... */
  lemma ParentSetsStatus(s: Machine, a: nat, b: nat) returns (w: Machine)
    requires OnBoth(s, a, b)
    ensures BreaksBookkeeping(w, 0, a, SetStatus(s.k.envs[b].id, RUNNABLE))
  {
    ChildIsNamed(s.k, a, b);
    assert Held(s.k, b);
    w := FirstComesTo(s, a, SetStatus(s.k.envs[b].id, RUNNABLE));
    UnguardedBreaks(w, a, SetStatus(s.k.envs[b].id, RUNNABLE));
  }

  /** ... or destroys it, and then again while it is still DYING there. */
  lemma ParentDestroysTwice(s: Machine, a: nat, b: nat) returns (w: Machine)
    requires OnBoth(s, a, b)
    ensures BreaksBookkeeping(w, 0, a, Destroy(s.k.envs[b].id))
  {
    var call := Destroy(s.k.envs[b].id);
    KInvSpaces(s.k);
    DestroyMarks(s.k, a, b);
    var t := FirstCalls(s, a, call);
    DestroyedIsCast(s.k, t.k, a, b);
    ChildIsNamed(t.k, a, b);
    w := FirstComesTo(t, a, call);
    UnguardedBreaks(w, a, call);
  }

  lemma DestroyedIsCast(k: Kernel, k': Kernel, a: nat, b: nat)
    requires Cast(k, a, Some(b)) && k.envs[b].status == RUNNING && Spaces(k) && Live(k, a)
    requires k' == Returned(k, a, Destroy(k.envs[b].id)) && KInv(k')
    ensures Cast(k', a, Some(b)) && k'.envs[b].status == DYING && k'.envs[b].id == k.envs[b].id
  {
    DestroyMarks(k, a, b);
    var k1 := k.(envs := k.envs[b := k.envs[b].(status := DYING)]);
    TouchEnvKeeps(k, k1, b);
    CastTouched(k, k1, a, Some(b), b);
    CastTouched(k1, k', a, Some(b), a);
  }

  /** The first time a child that runs on another CPU becomes DYING. */
  lemma DestroyMarks(k: Kernel, a: nat, b: nat)
    requires Cast(k, a, Some(b)) && k.envs[b].status == RUNNING && Spaces(k)
    ensures Live(k, a) && Live(k, b)
    ensures var call := Destroy(k.envs[b].id);
      && CallGuard(k, a, call) && !DestroysSelf(k, a, call)
      && Dispatch(k, a, call) == (k.(envs := k.envs[b := k.envs[b].(status := DYING)]), 0)
  {
    ChildIsNamed(k, a, b);
  }

  /**
   The guard is not idle. From any power-up with two CPUs and two pages and slots to spare,
   runs within the domain come to a system call of a parent that breaks the scheduler's
   bookkeeping: it sets the status of a child that runs on another CPU, or it destroys a
   child that is DYING there.
   */
  lemma UnguardedCallsExist(s0: Machine)
    requires Init(s0) && |s0.cpus| >= 2 && |s0.k.envFree| >= 2 && |s0.k.mem.free| >= 2
    ensures exists s, x, c, id :: BreaksBookkeeping(s, x, c, SetStatus(id, RUNNABLE))
    ensures exists s, x, c, id :: BreaksBookkeeping(s, x, c, Destroy(id))
  {
    var s, a, b := BothRun(s0);
    var w := ParentSetsStatus(s, a, b);
    var w' := ParentDestroysTwice(s, a, b);
  }

  /** The child blocks in sys_ipc_recv, and its CPU halts. */
  lemma ChildReceives(s: Machine, a: nat, b: nat, dstva: nat) returns (t: Machine)
    requires OnBoth(s, a, b) && (dstva < UTOP ==> PgOff(dstva) == 0)
    ensures OnFirst(t, a) && Receiving(s.k, t.k, a, b, dstva)
  {
    KInvSpaces(s.k);
    ChildIsNamed(s.k, a, b);
    ReceiveHalts(s.k, a, b, dstva);
    SetSameTf(s.k, b);
    var k := SysIpcRecv(s.k, b, dstva).0;
    Stays(s, 1, s.k.envs[b].tf, Syscall(IpcRecv(dstva)), k, None);
    t := Gone(s, 1, k, None);
    ReachableKeeps(t);
    ReceiverIsNamed(s.k, k, a, b);
  }

  lemma ReceiveHalts(k: Kernel, a: nat, b: nat, dstva: nat)
    requires Cast(k, a, Some(b)) && k.envs[b].status == RUNNING && Spaces(k) && Live(k, b)
    requires dstva < UTOP ==> PgOff(dstva) == 0
    ensures Serve(k, b, Syscall(IpcRecv(dstva))) == (SysIpcRecv(k, b, dstva).0, Leave(None))
  {
    YieldHalts(SysIpcRecv(k, b, dstva).0, Some(b), a);
  }

  /** The child waits for a message; nothing else has changed. */
  ghost predicate Receiving(k: Kernel, k': Kernel, a: nat, b: nat, dstva: nat) {
    && KInv(k') && k.Shape() && k'.mem == k.mem && Live(k', a) && Live(k', b) && a != b
    && k'.envs[a] == k.envs[a] && k'.envs[b].id == k.envs[b].id && k'.envs[b].pgdir == k.envs[b].pgdir
    && k'.envs[a].status == RUNNING && k'.envs[b].recving && k'.envs[b].dstva == dstva
    && Envid2Env(k', a, k'.envs[b].id, false) == Some(b)
  }

  lemma ReceiverIsNamed(k: Kernel, k': Kernel, a: nat, b: nat)
    requires Cast(k, a, Some(b)) && KInv(k') && k'.envs == k.envs[b := k'.envs[b]]
    requires k'.envs[b].id == k.envs[b].id && k'.envs[b].status != FREE
    ensures Envid2Env(k', a, k'.envs[b].id, false) == Some(b)
  {
    Envid2EnvFinds(k', a, k'.envs[b].id, false, b);
  }

  /** The kernel is about to read a pointer that page_lookup has not set. */
  ghost predicate ReadsWild(s: Machine, x: nat, c: nat, call: Call) {
    ComesTo(s, x, c, call) && call.IpcTrySend? && !SendDefined(s.k, c, call.envid, call.srcva)
  }

  /** From any such power-up a run comes to a send of a page the sender has not mapped. */
  lemma WildReadExists(s0: Machine)
    requires Init(s0) && |s0.cpus| >= 2 && |s0.k.envFree| >= 2 && |s0.k.mem.free| >= 2
    ensures exists s, x, c, id :: ReadsWild(s, x, c, IpcTrySend(id, 0, 0, NO_PERM))
  {
    var s, a, b := BothRun(s0);
    var t := ChildReceives(s, a, b, UTOP);
    var call := IpcTrySend(t.k.envs[b].id, 0, 0, NO_PERM);
    var w := FirstComesTo(t, a, call);
    assert At(w.k.mem, KeyOf(w.k, a, 0)) == None;
    WildReadIff(w.k, a, call.envid, 0);
    assert ReadsWild(w, 0, a, call);
  }

  // ---- A permission bit on the frame number

  lemma {:induction false} BitOrGrows(a: nat, b: nat)
    ensures BitOr(a, b) >= b
  {
    if a != 0 && b != 0 { BitOrGrows(a / 2, b / 2); }
  }

  /** Permission bits that turn frame `f` into another one. */
  function Stray(f: nat): Perm { PTE_PU.(other := 4096 * (f + 1)) }

  lemma StrayMoves(f: nat)
    ensures PteFor(f, Stray(f)).frame != f
  {
    BitOrGrows(f, f + 1);
  }

  /** A page for address 0 of an empty space takes two pages, itself and a table. */
  lemma AllocUsesTwo(k: Kernel, a: nat)
    requires KInv(k) && Live(k, a) && Empty(k, a) && |k.mem.free| >= 3
    ensures Spaces(k)
    ensures var (k', r) := SysPageAlloc(k, a, 0, 0, PTE_PWU);
      && r == 0 && k'.envs == k.envs && k'.mem.free != []
      && At(k'.mem, KeyOf(k, a, 0)).Some? && At(k'.mem, KeyOf(k, a, 0)).value.perm == PTE_PWU
  {
    KInvSpaces(k);
    PageAllocCall(k, a, 0, 0, PTE_PWU);
    PageAllocFailsWithoutPages(k, a, 0, 0, PTE_PWU);
    AllocLeavesPages(k.mem, KeyOf(k, a, 0));
  }

  lemma AllocLeavesPages(m: Mem, key: Key)
    requires Inv(m, NO_PAGE) && UserKey(m, key) && At(m, key) == None && |m.free| >= 3
    ensures var (m1, page) := PageAlloc(m, true);
      PageInsert(m1, key.d, page.value, key.i, key.j, PTE_PWU).0.free != []
  {
    PageAllocKeeps(m, true, NO_PAGE);
    var (m1, page) := PageAlloc(m, true);
    PageInsertKeeps(m1, key, page.value, PTE_PWU);
    assert At(m1, key) == None;
  }

  /** The sender maps a page, and is about to send it with such bits. */
  lemma SenderIsReady(s: Machine, a: nat, b: nat) returns (w: Machine, f: nat)
    requires OnFirst(s, a) && KInv(s.k) && Live(s.k, a) && Live(s.k, b) && a != b && Empty(s.k, a)
    requires s.k.envs[a].status == RUNNING && s.k.envs[b].recving && s.k.envs[b].dstva == 0
    requires Envid2Env(s.k, a, s.k.envs[b].id, false) == Some(b) && |s.k.mem.free| >= 3
    ensures ComesTo(w, 0, a, IpcTrySend(s.k.envs[b].id, 0, 0, Stray(f))) && w.k.mem.free != []
    ensures At(w.k.mem, KeyOf(w.k, a, 0)) == Some(Word(f, PTE_PWU))
    ensures w.k.envs[b] == s.k.envs[b] && Envid2Env(w.k, a, s.k.envs[b].id, false) == Some(b)
  {
    KInvSpaces(s.k);
    AllocUsesTwo(s.k, a);
    var t := FirstCalls(s, a, PageAllocate(0, 0, PTE_PWU));
    f := At(t.k.mem, KeyOf(t.k, a, 0)).value.frame;
    w := FirstComesTo(t, a, IpcTrySend(s.k.envs[b].id, 0, 0, Stray(f)));
  }

  /** The kernel serves the call, which succeeds, and its page-table words and counts no longer agree. */
  ghost predicate BreaksCounts(s: Machine, x: nat, c: nat, call: Call) {
    ComesTo(s, x, c, call) && LosesCounts(s.k, c, call)
  }

  ghost predicate LosesCounts(k: Kernel, c: nat, call: Call)
    requires Spaces(k) && Live(k, c)
  {
    KInv(k) && CallDefined(k, c, call) && Dispatch(k, c, call).1 == 0 && !KInv(Dispatch(k, c, call).0)
  }

  /** The send goes through. */
  lemma StraySendSucceeds(k: Kernel, a: nat, b: nat, id: int, f: nat) returns (k': Kernel)
    requires KInv(k) && Live(k, a) && Live(k, b) && Envid2Env(k, a, id, false) == Some(b) && k.mem.free != []
    requires k.envs[b].recving && k.envs[b].dstva == 0 && At(k.mem, KeyOf(k, a, 0)) == Some(Word(f, PTE_PWU))
    ensures Spaces(k) && SendDefined(k, a, id, 0) && SysIpcTrySend(k, a, id, 0, 0, Stray(f)) == (k', 0)
    ensures Dispatch(k, a, IpcTrySend(id, 0, 0, Stray(f))) == (k', 0)
  {
    k' := StraySent(k, a, b, id, f);
    SendIsDispatched(k, a, id, Stray(f));
  }

  lemma SendIsDispatched(k: Kernel, a: nat, id: int, perm: Perm)
    requires Spaces(k) && Live(k, a) && SendDefined(k, a, id, 0)
    ensures Dispatch(k, a, IpcTrySend(id, 0, 0, perm)) == SysIpcTrySend(k, a, id, 0, 0, perm)
  {
  }

  lemma StraySent(k: Kernel, a: nat, b: nat, id: int, f: nat) returns (k': Kernel)
    requires KInv(k) && Live(k, a) && Live(k, b) && Envid2Env(k, a, id, false) == Some(b) && k.mem.free != []
    requires k.envs[b].recving && k.envs[b].dstva == 0 && At(k.mem, KeyOf(k, a, 0)) == Some(Word(f, PTE_PWU))
    ensures Spaces(k) && SendDefined(k, a, id, 0) && SysIpcTrySend(k, a, id, 0, 0, Stray(f)) == (k', 0)
  {
    KInvSpaces(k);
    LookupIsAt(k, a, 0);
    AtIsUnique(k.mem, KeyOf(k, a, 0), Word(f, PTE_PWU));
    k' := SysIpcTrySend(k, a, id, 0, 0, Stray(f)).0;
  }

  lemma StraySendBreaks(w: Machine, a: nat, b: nat, id: int, f: nat)
    requires ComesTo(w, 0, a, IpcTrySend(id, 0, 0, Stray(f))) && Live(w.k, b)
    requires Envid2Env(w.k, a, id, false) == Some(b) && w.k.mem.free != [] && w.k.envs[b].recving
    requires w.k.envs[b].dstva == 0 && At(w.k.mem, KeyOf(w.k, a, 0)) == Some(Word(f, PTE_PWU))
    ensures BreaksCounts(w, 0, a, IpcTrySend(id, 0, 0, Stray(f)))
  {
    StrayKernel(w.k, a, b, id, f);
  }

  lemma StrayKernel(k: Kernel, a: nat, b: nat, id: int, f: nat)
    requires KInv(k) && Live(k, a) && Live(k, b) && Envid2Env(k, a, id, false) == Some(b) && k.mem.free != []
    requires k.envs[b].recving && k.envs[b].dstva == 0 && At(k.mem, KeyOf(k, a, 0)) == Some(Word(f, PTE_PWU))
    ensures Spaces(k) && LosesCounts(k, a, IpcTrySend(id, 0, 0, Stray(f)))
  {
    var k' := StraySendSucceeds(k, a, b, id, f);
    StraySendLoses(k, a, b, id, f, k');
  }

  lemma StraySendLoses(k: Kernel, a: nat, b: nat, id: int, f: nat, k': Kernel)
    requires KInv(k) && Live(k, a) && Live(k, b) && Envid2Env(k, a, id, false) == Some(b)
    requires k.envs[b].recving && k.envs[b].dstva == 0 && At(k.mem, KeyOf(k, a, 0)) == Some(Word(f, PTE_PWU))
    requires Spaces(k) && SendDefined(k, a, id, 0) && SysIpcTrySend(k, a, id, 0, 0, Stray(f)) == (k', 0)
    ensures !KInv(k')
  {
    SendKeepsIff(k, a, id, 0, 0, Stray(f));
    StrayMoves(f);
  }

  /**
   Permission bits are not checked on a send: from any power-up with two CPUs and five pages
   and two slots to spare, a run within the domain comes to a sys_ipc_try_send that succeeds
   and maps another page than the one sent.
   */
  lemma StraySendExists(s0: Machine)
    requires Init(s0) && |s0.cpus| >= 2 && |s0.k.envFree| >= 2 && |s0.k.mem.free| >= 5
    ensures exists s, x, c, id, perm :: BreaksCounts(s, x, c, IpcTrySend(id, 0, 0, perm))
  {
    var s, a, b := BothRun(s0);
    var t := ChildReceives(s, a, b, 0);
    assert Empty(s.k, a);
    var w, f := SenderIsReady(t, a, b);
    StraySendBreaks(w, a, b, t.k.envs[b].id, f);
  }
}
