/**
 One stay in the kernel: what happens between taking the big kernel lock in trap() and
 giving it back in env_run or sched_halt (kern/trap.c, kern/sched.c, kern/env.c).
 */
module KernelEntry {
  import opened Layout
  import opened Trapframes
  import opened PageState
  import opened PageInv
  import opened Envs
  import opened Syscalls
  import opened Sched

  /** Why the CPU trapped from user mode. `Quiet` is a breakpoint, which comes back as it was. */
  datatype Event =
    | Timer
    | Yield
    | Quiet
    | Syscall(call: Call)
    | FaultPushed(frame: Trapframe)
    | FaultFatal

  /** How the CPU leaves: running `cur`, halted when None, or stuck in the monitor. */
  datatype Outcome = Leave(cur: Option<nat>) | Stuck

  /** What the CPU runs afterwards. */
  function Taken(out: Outcome): Option<nat> { if out.Leave? then out.cur else None }

  function AfterYield(k: Kernel, cur: Option<nat>): (r: (Kernel, Outcome))
    requires k.Shape() && (cur.Some? ==> cur.value < NENV)
    ensures r.0.Shape()
  {
    match SchedYield(k, cur)
    case Run(e) => (EnvRun(k, cur, e), Leave(Some(e)))
    case Halt => (k, Leave(None))
    case NoneRunnable => (k, Stuck)
  }

  /** The end of trap(): return to the current environment if it still runs. */
  function Finish(k: Kernel, c: nat): (r: (Kernel, Outcome))
    requires k.Shape() && c < NENV
    ensures r.0.Shape()
  {
    if k.envs[c].status == RUNNING then (EnvRun(k, Some(c), c), Leave(Some(c)))
    else AfterYield(k, Some(c))
  }

  function SetTf(k: Kernel, c: nat, tf: Trapframe): (r: Kernel)
    requires k.Shape() && c < NENV
    ensures r.Shape()
  {
    k.(envs := k.envs[c := k.envs[c].(tf := tf)])
  }

  function DestroysSelf(k: Kernel, c: nat, call: Call): bool
    requires k.Shape() && c < NENV
  {
    call.Destroy? && Envid2Env(k, c, call.envid, true) == Some(c)
  }

  ghost predicate EventDefined(k: Kernel, c: nat, ev: Event)
    requires k.Shape() && c < NENV
  {
    ev.Syscall? ==> CallDefined(k, c, ev.call)
  }

  /** A trap from user mode, after the zombie check and with the registers saved. */
  function Serve(k: Kernel, c: nat, ev: Event): (r: (Kernel, Outcome))
    requires Spaces(k) && Live(k, c) && EventDefined(k, c, ev)
    ensures r.0.Shape()
  {
    match ev
    case Timer => AfterYield(k, Some(c))
    case Yield => AfterYield(k, Some(c))
    case Quiet => Finish(k, c)
    case FaultPushed(frame) => (EnvRun(SetTf(k, c, frame), Some(c), c), Leave(Some(c)))
    case FaultFatal => AfterYield(EnvDestroy(k, c, c), None)
    case Syscall(call) =>
      if DestroysSelf(k, c, call) then AfterYield(EnvDestroy(k, c, c), None)
      else
        var (k1, ret) := Dispatch(k, c, call);
        FinishCall(k1, c, call, ret)
  }

  /** The return value goes to eax, unless the call has blocked its caller. */
  function FinishCall(k: Kernel, c: nat, call: Call, ret: int): (r: (Kernel, Outcome))
    requires k.Shape() && c < NENV
    ensures r.0.Shape()
  {
    if call.IpcRecv? && ret == 0 then AfterYield(k, Some(c))
    else Finish(SetTf(k, c, WithEax(k.envs[c].tf, ret % 0x1_0000_0000)), c)
  }

  ghost predicate BodyDefined(k: Kernel, cur: Option<nat>, tf: Trapframe, ev: Event)
    requires k.Shape() && (cur.Some? ==> cur.value < NENV)
  {
    cur.Some? && k.envs[cur.value].status != DYING ==> EventDefined(SetTf(k, cur.value, tf), cur.value, ev)
  }

  /** The whole stay. A CPU without an environment came from boot or from a timer while halted. */
  function Body(k: Kernel, cur: Option<nat>, tf: Trapframe, ev: Event): (r: (Kernel, Outcome))
    requires Spaces(k) && (cur.Some? ==> Live(k, cur.value)) && BodyDefined(k, cur, tf, ev)
    ensures r.0.Shape()
  {
    if cur.None? then AfterYield(k, None)
    else if k.envs[cur.value].status == DYING then AfterYield(EnvFree(k, cur.value), None)
    else
      KeepsSpaces(k, cur.value, tf);
      Serve(SetTf(k, cur.value, tf), cur.value, ev)
  }

  lemma KeepsSpaces(k: Kernel, c: nat, tf: Trapframe)
    requires Spaces(k) && Live(k, c)
    ensures Spaces(SetTf(k, c, tf)) && Live(SetTf(k, c, tf), c)
  {
    var k' := SetTf(k, c, tf);
    forall e: nat | e < NENV && k'.envs[e].status != FREE ensures HasSpace(k', e) {
      assert HasSpace(k, e);
    }
  }

  // ---- Receivers

  /** A receiver is blocked, with its result fields cleared and a usable page address. */
  ghost predicate Blocked(e: Env) {
    && e.status == NOT_RUNNABLE && e.from == 0 && e.value == 0 && e.perm == NO_PERM
    && (e.dstva < UTOP ==> PgOff(e.dstva) == 0)
  }

  ghost predicate RecvOk(k: Kernel)
    requires k.Shape()
  {
    forall e: nat :: Live(k, e) && k.envs[e].recving ==> Blocked(k.envs[e])
  }

  // ---- The domain of the scheduling theorems

  /**
   sys_env_set_status does not look at its target, and env_destroy does not look for a
   target that is already DYING: these are the arguments on which they are sound.
   */
  ghost predicate CallGuard(k: Kernel, c: nat, call: Call)
    requires k.Shape() && c < NENV
  {
    match call
    case SetStatus(envid, status) =>
      var t := Envid2Env(k, c, envid, true);
      status in {RUNNABLE, NOT_RUNNABLE} && t.Some? && t.value != c ==>
        !Held(k, t.value) && (k.envs[t.value].recving ==> status == NOT_RUNNABLE)
    case Destroy(envid) =>
      var t := Envid2Env(k, c, envid, true);
      t.Some? && t.value != c ==> k.envs[t.value].status != DYING
    case _ => true
  }

  ghost predicate EventGuard(k: Kernel, c: nat, ev: Event)
    requires k.Shape() && c < NENV
  {
    ev.Syscall? ==> CountsGuard(k, c, ev.call) && CallGuard(k, c, ev.call)
  }

  // ---- What one call does to the environments

  /** Only slot `e` differs. */
  ghost predicate OneEnv(k: Kernel, k': Kernel, e: nat)
    requires k.Shape() && k'.Shape()
  {
    e < NENV && k'.envs == k.envs[e := k'.envs[e]]
  }

  /** What a call that returned `r` did to the one slot `t` it may touch. */
  ghost predicate EnvEffect(k: Kernel, k': Kernel, r: int, c: nat, call: Call, t: nat)
    requires k.Shape() && k'.Shape() && c < NENV
  {
    && OneEnv(k, k', t)
    && if r < 0 then k'.envs == k.envs
       else match call
         case Exofork =>
           && k.envs[t].status == FREE && IsDir(k'.mem, k'.envs[t].pgdir) && !IsDir(k.mem, k'.envs[t].pgdir)
           && k'.envs[t] == NewEnv(k.envs[t], t, k.envs[c].id, k'.envs[t].pgdir).(
                              status := NOT_RUNNABLE, tf := WithEax(k.envs[c].tf, 0))
         case SetStatus(envid, status) =>
           && status in {RUNNABLE, NOT_RUNNABLE} && Envid2Env(k, c, envid, true) == Some(t)
           && k'.envs[t] == k.envs[t].(status := status)
         case SetUpcall(envid, upcall) =>
           Live(k, t) && k'.envs[t] == k.envs[t].(upcall := upcall)
         case IpcTrySend(envid, value, srcva, perm) =>
           && Live(k, t) && k.envs[t].recving
           && k'.envs[t] == Delivered(k.envs[t], k.envs[c].id, value, if Carried(k, t, srcva) then Some(perm) else None)
         case IpcRecv(dstva) =>
           && t == c && (dstva < UTOP ==> PgOff(dstva) == 0)
           && k'.envs[t] == k.envs[t].(recving := true, dstva := dstva, value := 0, from := 0,
                                       perm := NO_PERM, status := NOT_RUNNABLE)
         case Destroy(envid) =>
           && Envid2Env(k, c, envid, true) == Some(t)
           && k'.envs[t] == if k.envs[t].status == RUNNING && t != c then k.envs[t].(status := DYING)
                            else k.envs[t].(pgdir := 0, status := FREE)
         case _ => k'.envs == k.envs
  }

  lemma ExoforkEffect(k: Kernel, c: nat) returns (t: nat)
    requires KInv(k) && Live(k, c)
    ensures Spaces(k)
    ensures EnvEffect(k, Dispatch(k, c, Exofork).0, Dispatch(k, c, Exofork).1, c, Exofork, t)
  {
    KInvSpaces(k);
    ExoforkKeeps(k, c);
    t := if SysExofork(k, c).1 > 0 then EnvX(SysExofork(k, c).1) else c;
  }

  lemma SendEffect(k: Kernel, c: nat, call: Call) returns (t: nat)
    requires KInv(k) && Live(k, c) && call.IpcTrySend? && CountsGuard(k, c, call)
    ensures Spaces(k)
    ensures EnvEffect(k, Dispatch(k, c, call).0, Dispatch(k, c, call).1, c, call, t)
  {
    KInvSpaces(k);
    IpcSendCall(k, c, call.envid, call.value, call.srcva, call.perm);
    t := if Dispatch(k, c, call).1 == 0 then Envid2Env(k, c, call.envid, false).value else c;
  }

  lemma PageCallEffect(k: Kernel, c: nat, call: Call)
    requires KInv(k) && Live(k, c) && (call.PageAllocate? || call.PageMap? || call.PageUnmap?)
    requires CountsGuard(k, c, call)
    ensures Spaces(k)
    ensures EnvEffect(k, Dispatch(k, c, call).0, Dispatch(k, c, call).1, c, call, c)
  {
    KInvSpaces(k);
    match call
    case PageAllocate(envid, va, perm) => PageAllocCall(k, c, envid, va, perm);
    case PageMap(srcid, srcva, dstid, dstva, perm) => PageMapCall(k, c, srcid, srcva, dstid, dstva, perm);
    case PageUnmap(envid, va) => PageUnmapCall(k, c, envid, va);
  }

  lemma FieldCallEffect(k: Kernel, c: nat, call: Call) returns (t: nat)
    requires KInv(k) && Live(k, c) && (call.SetStatus? || call.SetUpcall? || call.IpcRecv? || call.Destroy?)
    ensures Spaces(k)
    ensures EnvEffect(k, Dispatch(k, c, call).0, Dispatch(k, c, call).1, c, call, t)
  {
    KInvSpaces(k);
    var e := if call.IpcRecv? then Some(c) else Envid2Env(k, c, call.envid, true);
    t := if e.Some? then e.value else c;
  }

  /** Every call touches at most one slot of envs[]. */
  lemma CallTouchesOneEnv(k: Kernel, c: nat, call: Call) returns (t: nat)
    requires KInv(k) && Live(k, c) && CountsGuard(k, c, call)
    ensures Spaces(k)
    ensures EnvEffect(k, Dispatch(k, c, call).0, Dispatch(k, c, call).1, c, call, t)
  {
    KInvSpaces(k);
    match call
    case Exofork => t := ExoforkEffect(k, c);
    case IpcTrySend(_, _, _, _) => t := SendEffect(k, c, call);
    case PageAllocate(_, _, _) => PageCallEffect(k, c, call); t := c;
    case PageMap(_, _, _, _, _) => PageCallEffect(k, c, call); t := c;
    case PageUnmap(_, _) => PageCallEffect(k, c, call); t := c;
    case GetEnvId => t := c;
    case Console(_) => t := c;
    case Unknown => t := c;
    case _ => t := FieldCallEffect(k, c, call);
  }

  /** The state before a call: this CPU runs `c`, the others hold `others`. */
  ghost predicate Serving(k: Kernel, others: set<nat>, c: nat) {
    && KInv(k) && RecvOk(k) && HeldOk(k, others + {c}) && c !in others
    && c < NENV && k.envs[c].status == RUNNING
  }

  lemma GuardedEffectIsSafe(k: Kernel, k': Kernel, r: int, others: set<nat>, c: nat, call: Call, t: nat)
    requires Serving(k, others, c) && k'.Shape() && EnvEffect(k, k', r, c, call, t)
    requires CallGuard(k, c, call) && !DestroysSelf(k, c, call)
    ensures MidOk(k', others, Some(c)) && RecvOk(k')
  {
    forall e: nat | e !in Opt(Some(c)) ensures e in others <==> Held(k', e) {
      assert e in others + {c} <==> Held(k, e);
    }
    forall e: nat | Live(k', e) && k'.envs[e].recving ensures Blocked(k'.envs[e]) {
      if e != t { assert Live(k, e); }
    }
    assert Held(k, c);
  }

  lemma UnguardedEffectBreaks(k: Kernel, k': Kernel, r: int, others: set<nat>, c: nat, call: Call, t: nat)
    requires Serving(k, others, c) && k'.Shape() && EnvEffect(k, k', r, c, call, t) && r >= 0
    requires !CallGuard(k, c, call) && !DestroysSelf(k, c, call)
    ensures !(MidOk(k', others, Some(c)) && RecvOk(k'))
  {
    assert t !in Opt(Some(c));
    assert t in others + {c} <==> Held(k, t);
    if !Held(k, t) {
      assert Live(k', t) && k'.envs[t].recving && !Blocked(k'.envs[t]);
    }
  }

  /**
   The scheduler's bookkeeping survives a call exactly on the guard: for every call and every
   argument, the held environments stay exactly the RUNNING and DYING ones and every receiver
   stays blocked, if and only if the target passes the test the code leaves out.
   */
  lemma CallGuardIsExact(k: Kernel, others: set<nat>, c: nat, call: Call)
    requires Serving(k, others, c) && CountsGuard(k, c, call) && !DestroysSelf(k, c, call)
    ensures Spaces(k) && Live(k, c)
    ensures var k' := Dispatch(k, c, call).0;
      MidOk(k', others, Some(c)) && RecvOk(k') <==> CallGuard(k, c, call)
  {
    KInvSpaces(k);
    var (k', r) := Dispatch(k, c, call);
    var t := CallTouchesOneEnv(k, c, call);
    if CallGuard(k, c, call) {
      GuardedEffectIsSafe(k, k', r, others, c, call, t);
    } else {
      UnguardedEffectBreaks(k, k', r, others, c, call, t);
    }
  }

  // ---- The whole stay keeps the invariants

  ghost predicate Settled(k: Kernel, held: set<nat>) {
    KInv(k) && RecvOk(k) && HeldOk(k, held)
  }

  lemma EnvRunKeepsRecv(k: Kernel, cur: Option<nat>, e: nat)
    requires k.Shape() && RecvOk(k) && Live(k, e) && (cur.Some? ==> Live(k, cur.value))
    requires k.envs[e].status in {RUNNABLE, RUNNING}
    ensures RecvOk(EnvRun(k, cur, e))
  {
    var k' := EnvRun(k, cur, e);
    forall x: nat | Live(k', x) && k'.envs[x].recving ensures Blocked(k'.envs[x]) {
      assert Live(k, x) && (x == e ==> Live(k, e));
    }
  }

  /** The stay ends with the bookkeeping in step and with a CPU that runs what it took, if anything. */
  ghost predicate LeavesSettled(r: (Kernel, Outcome), others: set<nat>) {
    var (k, cur) := (r.0, Taken(r.1));
    && Settled(k, others + Opt(cur)) && Opt(cur) !! others
    && (cur.Some? ==> Live(k, cur.value) && k.envs[cur.value].status == RUNNING)
  }

  /** Entering the scheduler with the bookkeeping in step ends with it in step. */
  lemma AfterYieldSettles(k: Kernel, others: set<nat>, cur: Option<nat>)
    requires KInv(k) && RecvOk(k) && MidOk(k, others, cur)
    ensures LeavesSettled(AfterYield(k, cur), others)
  {
    YieldKeepsHeld(k, others, cur);
    match SchedYield(k, cur)
    case Run(e) =>
      EnvRunKeepsRecv(k, cur, e);
      RunSettles(EnvRun(k, cur, e), others, e);
    case _ =>
      assert others + Opt(None) == others;
  }

  lemma RunSettles(k: Kernel, others: set<nat>, e: nat)
    requires KInv(k) && RecvOk(k) && HeldOk(k, others + {e})
    requires e !in others && Live(k, e) && k.envs[e].status == RUNNING
    ensures LeavesSettled((k, Leave(Some(e))), others)
  {
    assert Opt(Some(e)) == {e};
  }

  lemma FinishSettles(k: Kernel, others: set<nat>, c: nat)
    requires KInv(k) && RecvOk(k) && MidOk(k, others, Some(c))
    ensures LeavesSettled(Finish(k, c), others)
  {
    if k.envs[c].status == RUNNING {
      EnvRunKeepsHeld(k, others, Some(c), c);
      EnvRunKeepsRecv(k, Some(c), c);
      assert Opt(Some(c)) == {c};
    } else {
      AfterYieldSettles(k, others, Some(c));
    }
  }

  lemma SetTfKeeps(k: Kernel, c: nat, tf: Trapframe)
    requires KInv(k) && RecvOk(k) && Live(k, c)
    ensures KInv(SetTf(k, c, tf)) && RecvOk(SetTf(k, c, tf))
    ensures forall held :: HeldOk(k, held) ==> HeldOk(SetTf(k, c, tf), held)
    ensures forall others, cur :: MidOk(k, others, cur) ==> MidOk(SetTf(k, c, tf), others, cur)
  {
    var k' := SetTf(k, c, tf);
    TouchEnvKeeps(k, k', c);
    forall e: nat | Live(k', e) && k'.envs[e].recving ensures Blocked(k'.envs[e]) {
      assert Live(k, e);
    }
    forall e: nat ensures Held(k', e) <==> Held(k, e) && (Live(k', e) <==> Live(k, e)) {
    }
    forall others, cur | MidOk(k, others, cur) ensures MidOk(k', others, cur) {
      forall e: nat | e !in Opt(cur) ensures e in others <==> Held(k', e) {
        assert e in others <==> Held(k, e);
      }
    }
  }

  /** Freeing an environment that only this CPU could hold leaves the others in step. */
  lemma FreeOwnSettles(k: Kernel, others: set<nat>, c: nat)
    requires KInv(k) && RecvOk(k) && HeldOk(k, others + {c}) && c !in others && Live(k, c)
    ensures var k' := EnvFree(k, c); KInv(k') && RecvOk(k') && MidOk(k', others, None)
  {
    EnvFreeKeeps(k, c);
    var k' := EnvFree(k, c);
    forall e: nat ensures e in others <==> Held(k', e) {
      assert e in others + {c} <==> Held(k, e);
    }
    forall e: nat | Live(k', e) && k'.envs[e].recving ensures Blocked(k'.envs[e]) {
      assert Live(k, e);
    }
  }

  /** The return from a call: its result goes to eax, unless it has blocked its caller. */
  lemma FinishCallSettles(k: Kernel, others: set<nat>, c: nat, call: Call, ret: int)
    requires KInv(k) && RecvOk(k) && MidOk(k, others, Some(c)) && Live(k, c)
    ensures LeavesSettled(FinishCall(k, c, call, ret), others)
  {
    if call.IpcRecv? && ret == 0 {
      AfterYieldSettles(k, others, Some(c));
    } else {
      ReturnSettles(k, others, c, ret);
    }
  }

  lemma ReturnSettles(k: Kernel, others: set<nat>, c: nat, ret: int)
    requires KInv(k) && RecvOk(k) && MidOk(k, others, Some(c)) && Live(k, c)
    ensures LeavesSettled(Finish(SetTf(k, c, WithEax(k.envs[c].tf, ret % 0x1_0000_0000)), c), others)
  {
    var tf := WithEax(k.envs[c].tf, ret % 0x1_0000_0000);
    SetTfKeeps(k, c, tf);
    FinishSettles(SetTf(k, c, tf), others, c);
  }

  /** A guarded call leaves the caller where the return to user mode expects it. */
  lemma DispatchIsMid(k: Kernel, others: set<nat>, c: nat, call: Call)
    requires Serving(k, others, c) && CountsGuard(k, c, call) && CallGuard(k, c, call) && !DestroysSelf(k, c, call)
    ensures Spaces(k) && Live(k, c)
    ensures var k1 := Dispatch(k, c, call).0; KInv(k1) && RecvOk(k1) && MidOk(k1, others, Some(c)) && Live(k1, c)
  {
    KInvSpaces(k);
    CallGuardIsExact(k, others, c, call);
    DispatchKeeps(k, c, call);
    var t := CallTouchesOneEnv(k, c, call);
  }

  lemma SyscallSettles(k: Kernel, others: set<nat>, c: nat, call: Call)
    requires Serving(k, others, c) && CountsGuard(k, c, call) && CallGuard(k, c, call)
    ensures Spaces(k) && Live(k, c)
    ensures LeavesSettled(Serve(k, c, Syscall(call)), others)
  {
    KInvSpaces(k);
    if DestroysSelf(k, c, call) {
      SelfDestructionSettles(k, others, c, call);
    } else {
      ServedCallSettles(k, others, c, call);
    }
  }

  lemma SelfDestructionSettles(k: Kernel, others: set<nat>, c: nat, call: Call)
    requires Serving(k, others, c) && DestroysSelf(k, c, call)
    ensures Spaces(k) && Live(k, c)
    ensures LeavesSettled(Serve(k, c, Syscall(call)), others)
  {
    KInvSpaces(k);
    FreeOwnSettles(k, others, c);
    AfterYieldSettles(EnvFree(k, c), others, None);
    ServesSelfDestruction(k, c, call);
  }

  lemma ServesSelfDestruction(k: Kernel, c: nat, call: Call)
    requires Spaces(k) && Live(k, c) && DestroysSelf(k, c, call)
    ensures HasSpace(k, c) && Serve(k, c, Syscall(call)) == AfterYield(EnvFree(k, c), None)
  {
  }

  lemma ServesCall(k: Kernel, c: nat, call: Call)
    requires Spaces(k) && Live(k, c) && CallDefined(k, c, call) && !DestroysSelf(k, c, call)
    ensures var (k1, ret) := Dispatch(k, c, call); Serve(k, c, Syscall(call)) == FinishCall(k1, c, call, ret)
  {
  }

  lemma ServedCallSettles(k: Kernel, others: set<nat>, c: nat, call: Call)
    requires Serving(k, others, c) && CountsGuard(k, c, call) && CallGuard(k, c, call) && !DestroysSelf(k, c, call)
    ensures Spaces(k) && Live(k, c)
    ensures LeavesSettled(Serve(k, c, Syscall(call)), others)
  {
    DispatchIsMid(k, others, c, call);
    var (k1, ret) := Dispatch(k, c, call);
    FinishCallSettles(k1, others, c, call, ret);
    ServesCall(k, c, call);
  }

  lemma ServingIsMid(k: Kernel, others: set<nat>, c: nat)
    requires Serving(k, others, c)
    ensures MidOk(k, others, Some(c)) && Live(k, c)
  {
    forall e: nat | e !in Opt(Some(c)) ensures e in others <==> Held(k, e) {
      assert e in others + {c} <==> Held(k, e);
    }
  }

  lemma ServeSettles(k: Kernel, others: set<nat>, c: nat, ev: Event)
    requires Serving(k, others, c) && EventGuard(k, c, ev)
    ensures Spaces(k) && Live(k, c)
    ensures LeavesSettled(Serve(k, c, ev), others)
  {
    KInvSpaces(k);
    ServingIsMid(k, others, c);
    match ev
    case Timer => AfterYieldSettles(k, others, Some(c));
    case Yield => AfterYieldSettles(k, others, Some(c));
    case Quiet => FinishSettles(k, others, c);
    case FaultPushed(frame) =>
      SetTfKeeps(k, c, frame);
      FinishSettles(SetTf(k, c, frame), others, c);
    case FaultFatal =>
      FreeOwnSettles(k, others, c);
      AfterYieldSettles(EnvFree(k, c), others, None);
    case Syscall(call) => SyscallSettles(k, others, c, call);
  }

  /** One whole stay in the kernel, whatever brought the CPU in. */
  lemma BodySettles(k: Kernel, others: set<nat>, cur: Option<nat>, tf: Trapframe, ev: Event)
    requires Settled(k, others + Opt(cur)) && Opt(cur) !! others
    requires cur.Some? && k.envs[cur.value].status == RUNNING ==> EventGuard(SetTf(k, cur.value, tf), cur.value, ev)
    ensures Spaces(k) && (cur.Some? ==> Live(k, cur.value))
    ensures LeavesSettled(Body(k, cur, tf, ev), others)
  {
    KInvSpaces(k);
    match cur
    case None =>
      assert others + Opt(None) == others;
      AfterYieldSettles(k, others, None);
    case Some(c) =>
      assert Opt(cur) == {c};
      assert Held(k, c);
      if k.envs[c].status == DYING {
        FreeOwnSettles(k, others, c);
        AfterYieldSettles(EnvFree(k, c), others, None);
      } else {
        SetTfKeeps(k, c, tf);
        ServeSettles(SetTf(k, c, tf), others, c, ev);
      }
  }
}
