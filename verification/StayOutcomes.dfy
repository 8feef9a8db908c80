/**
 How each stay in the kernel ends, in terms of slots and fields: whom the CPU runs next, and what
 becomes of the environment that trapped (kern/trap.c, kern/sched.c, kern/env.c).
 */
module StayOutcomes {
  import opened Layout
  import opened Trapframes
  import opened PageState
  import opened PageInv
  import opened Envs
  import opened Syscalls
  import opened Sched
  import opened KernelEntry

  // ---- The scheduler's choice

  ghost predicate NoneIsRunnable(k: Kernel)
    requires k.Shape()
  {
    forall x: nat :: x < NENV ==> k.envs[x].status != RUNNABLE
  }

  /** `p` is the first RUNNABLE slot after slot `c`, going round; `c` itself would come last. */
  ghost predicate NextAfter(k: Kernel, c: nat, p: nat)
    requires k.Shape()
  {
    && p < NENV && k.envs[p].status == RUNNABLE
    && forall x: nat :: x < NENV && k.envs[x].status == RUNNABLE ==> (p + 1023 - c) % 1024 <= (x + 1023 - c) % 1024
  }

  /** `p` is the lowest RUNNABLE slot. */
  ghost predicate LowestRunnable(k: Kernel, p: nat)
    requires k.Shape()
  {
    p < NENV && k.envs[p].status == RUNNABLE && forall x: nat :: x < p ==> k.envs[x].status != RUNNABLE
  }

  /** Nothing left to run or to wait for: some slot may still be RUNNING or DYING on another CPU. */
  ghost predicate SomeoneHeld(k: Kernel)
    requires k.Shape()
  {
    exists x: nat :: x < NENV && (k.envs[x].status == RUNNING || k.envs[x].status == DYING)
  }

  /** Slot `p` is RUNNING in `k'`, and nothing else has changed. */
  ghost predicate Started(k: Kernel, k': Kernel, p: nat)
    requires k.Shape() && p < NENV
  {
    k' == k.(envs := k.envs[p := k.envs[p].(status := RUNNING)])
  }

  /** A CPU with nobody to run: it waits for a timer while any other CPU has an environment. */
  ghost predicate Idles(k: Kernel, k': Kernel, out: Outcome)
    requires k.Shape()
  {
    k' == k && out == if SomeoneHeld(k) then Leave(None) else Stuck
  }

  /** The search from just after `c`, which has stopped RUNNING, in state `k`. */
  ghost predicate GoesOnFrom(k: Kernel, c: nat, k': Kernel, out: Outcome)
    requires k.Shape()
  {
    if NoneIsRunnable(k) then Idles(k, k', out)
    else out.Leave? && out.cur.Some? && NextAfter(k, c, out.cur.value) && Started(k, k', out.cur.value)
  }

  /** The search of a CPU without an environment. */
  ghost predicate GoesOnFromZero(k: Kernel, k': Kernel, out: Outcome)
    requires k.Shape()
  {
    if NoneIsRunnable(k) then Idles(k, k', out)
    else out.Leave? && out.cur.Some? && LowestRunnable(k, out.cur.value) && Started(k, k', out.cur.value)
  }

  lemma ScanIsNext(k: Kernel, c: nat)
    requires k.Shape() && c < NENV
    ensures Scan(k, c + 1, 0) == None ==> NoneIsRunnable(k)
    ensures Scan(k, c + 1, 0).Some? ==> NextAfter(k, c, Scan(k, c + 1, 0).value)
  {
    var at := ScanFindsFirst(k, c + 1, 0);
    forall x: nat | x < NENV && k.envs[x].status == RUNNABLE
      ensures Scan(k, c + 1, 0).Some? && Distance(c, Scan(k, c + 1, 0).value) <= Distance(c, x)
    {
      var j := OffsetOf(c + 1, x);
      DistanceOf(c, j);
      assert Runnable(k, Slot(c + 1, j));
      DistanceOf(c, at);
    }
  }

  lemma ScanIsLowest(k: Kernel)
    requires k.Shape()
    ensures Scan(k, 0, 0) == None ==> NoneIsRunnable(k)
    ensures Scan(k, 0, 0).Some? ==> LowestRunnable(k, Scan(k, 0, 0).value)
  {
    var at := ScanFindsFirst(k, 0, 0);
    forall x: nat | x < NENV && k.envs[x].status == RUNNABLE
      ensures Scan(k, 0, 0).Some? && Scan(k, 0, 0).value <= x
    {
      assert Runnable(k, Slot(0, x));
    }
  }

  lemma HaltIsIdle(k: Kernel)
    requires k.Shape() && NoneIsRunnable(k)
    ensures SchedHalt(k) == Halt <==> SomeoneHeld(k)
    ensures SchedHalt(k) == Halt || SchedHalt(k) == NoneRunnable
  {
    if SomeoneHeld(k) {
      var x: nat :| x < NENV && (k.envs[x].status == RUNNING || k.envs[x].status == DYING);
      assert Wakeable(k, x);
    }
    if exists i: nat :: i < NENV && Wakeable(k, i) {
      var i: nat :| i < NENV && Wakeable(k, i);
      assert k.envs[i].status == RUNNING || k.envs[i].status == DYING;
    }
  }

  lemma SearchStartsAfter(k: Kernel, c: nat)
    requires KInv(k) && Live(k, c)
    ensures Begin(k, Some(c)) == c + 1
  {
    IdNamesSlot(k, c);
  }

  lemma YieldGoesOn(k: Kernel, c: nat)
    requires KInv(k) && Live(k, c) && k.envs[c].status != RUNNING
    ensures GoesOnFrom(k, c, AfterYield(k, Some(c)).0, AfterYield(k, Some(c)).1)
  {
    SearchStartsAfter(k, c);
    ScanIsNext(k, c);
    if NoneIsRunnable(k) { HaltIsIdle(k); }
  }

  lemma YieldGoesOnFromZero(k: Kernel)
    requires k.Shape()
    ensures GoesOnFromZero(k, AfterYield(k, None).0, AfterYield(k, None).1)
  {
    ScanIsLowest(k);
    if NoneIsRunnable(k) { HaltIsIdle(k); }
  }

  // ---- Timer and sys_yield

  /** `c` is put aside with the trapped registers and `p` runs; every other slot is as it was. */
  ghost predicate Switched(k: Kernel, k': Kernel, c: nat, p: nat, tf: Trapframe)
    requires k.Shape() && k'.Shape() && c < NENV && p < NENV
  {
    && k'.mem == k.mem && k'.envFree == k.envFree
    && k'.envs[c] == k.envs[c].(status := RUNNABLE, tf := tf)
    && k'.envs[p] == k.envs[p].(status := RUNNING)
    && forall x: nat :: x < NENV && x != c && x != p ==> k'.envs[x] == k.envs[x]
  }

  /** The environment's registers are `tf`, and nothing else has changed. */
  ghost predicate Resumed(k: Kernel, k': Kernel, c: nat, tf: Trapframe)
    requires k.Shape() && c < NENV
  {
    k' == k.(envs := k.envs[c := k.envs[c].(tf := tf)])
  }

  /**
   A timer interrupt or a sys_yield takes the CPU from its environment: if any other is RUNNABLE,
   the first such slot after it, going round, runs next, and it is put aside RUNNABLE with its
   registers; if none is, it goes on itself.
   */
  lemma TimesliceEnds(k: Kernel, c: nat, tf: Trapframe, ev: Event)
    requires KInv(k) && Live(k, c) && k.envs[c].status == RUNNING && (ev.Timer? || ev.Yield?)
    ensures Spaces(k)
    ensures var (k', out) := Body(k, Some(c), tf, ev);
      if NoneIsRunnable(k) then out == Leave(Some(c)) && Resumed(k, k', c, tf)
      else
        && out.Leave? && out.cur.Some? && out.cur.value != c && NextAfter(k, c, out.cur.value)
        && Switched(k, k', c, out.cur.value, tf)
  {
    KInvSpaces(k);
    var k1 := SetTf(k, c, tf);
    TouchEnvKeeps(k, k1, c);
    YieldSwitches(k1, c);
    var (k', out) := Body(k, Some(c), tf, ev);
    SameStatuses(k, k1, c);
    if !NoneIsRunnable(k) { SwitchCarries(k, k1, k', c, out.cur.value, tf); }
  }

  lemma SameStatuses(k: Kernel, k1: Kernel, c: nat)
    requires k.Shape() && k1.Shape() && c < NENV
    requires forall x: nat :: x < NENV ==> k1.envs[x].status == k.envs[x].status
    ensures NoneIsRunnable(k1) <==> NoneIsRunnable(k)
    ensures forall p :: NextAfter(k1, c, p) <==> NextAfter(k, c, p)
  {
  }

  lemma SwitchCarries(k: Kernel, k1: Kernel, k': Kernel, c: nat, p: nat, tf: Trapframe)
    requires k.Shape() && k1.Shape() && k'.Shape() && c < NENV && p < NENV && p != c
    requires k1 == k.(envs := k.envs[c := k.envs[c].(tf := tf)]) && Switched(k1, k', c, p, tf)
    ensures Switched(k, k', c, p, tf)
  {
  }

  lemma YieldSwitches(k: Kernel, c: nat)
    requires KInv(k) && Live(k, c) && k.envs[c].status == RUNNING
    ensures var (k', out) := AfterYield(k, Some(c));
      if NoneIsRunnable(k) then out == Leave(Some(c)) && k' == k
      else
        && out.Leave? && out.cur.Some? && out.cur.value != c && NextAfter(k, c, out.cur.value)
        && Switched(k, k', c, out.cur.value, k.envs[c].tf)
  {
    SearchStartsAfter(k, c);
    ScanIsNext(k, c);
    if NoneIsRunnable(k) { RunsOn(k, c); }
  }

  lemma RunsOn(k: Kernel, c: nat)
    requires k.Shape() && c < NENV && k.envs[c].status == RUNNING
    ensures EnvRun(k, Some(c), c) == k
  {
    var aside := k.envs[c].(status := RUNNABLE);
    assert k.envs[c := aside][c := aside.(status := RUNNING)] == k.envs;
  }

  // ---- Stays that come back, and stays that block

  /** The environment is marked DYING, has faulted without a handler, or has destroyed itself. */
  ghost predicate Ends(k: Kernel, c: nat, ev: Event)
    requires k.Shape() && c < NENV
  {
    || k.envs[c].status == DYING
    || ev.FaultFatal?
    || (ev.Syscall? && ev.call.Destroy? && (ev.call.envid == 0 || ev.call.envid == k.envs[c].id))
  }

  lemma SelfDestructionEnds(k: Kernel, c: nat, call: Call)
    requires KInv(k) && Live(k, c) && k.envs[c].status == RUNNING
    ensures DestroysSelf(k, c, call) <==> Ends(k, c, Syscall(call))
  {
    if call.Destroy? { Envid2EnvFinds(k, c, call.envid, true, c); }
  }

  /** A breakpoint, or a fault whose frame was pushed: the environment goes on with those registers. */
  lemma TrapReturns(k: Kernel, c: nat, tf: Trapframe, ev: Event)
    requires KInv(k) && Live(k, c) && k.envs[c].status == RUNNING && (ev.Quiet? || ev.FaultPushed?)
    ensures Spaces(k)
    ensures var (k', out) := Body(k, Some(c), tf, ev);
      out == Leave(Some(c)) && Resumed(k, k', c, if ev.FaultPushed? then ev.frame else tf)
  {
    KInvSpaces(k);
    RunsOn(SetTf(k, c, tf), c);
    if ev.FaultPushed? {
      RunsOn(SetTf(SetTf(k, c, tf), c, ev.frame), c);
      assert k.envs[c := k.envs[c].(tf := tf)][c := k.envs[c].(tf := tf).(tf := ev.frame)] ==
        k.envs[c := k.envs[c].(tf := ev.frame)];
    }
  }

  /** After a call that left `k` and returned `r`. */
  ghost predicate Answered(k: Kernel, c: nat, call: Call, r: int, k': Kernel, out: Outcome)
    requires k.Shape() && c < NENV
  {
    if call.IpcRecv? && r == 0 then GoesOnFrom(k, c, k', out)
    else
      var a := k.envs[c];
      var k2 := k.(envs := k.envs[c := a.(tf := a.tf.(regs := a.tf.regs.(eax := r % 0x1_0000_0000)))]);
      if a.status == RUNNING then out == Leave(Some(c)) && k' == k2 else GoesOnFrom(k2, c, k', out)
  }

  /**
   A system call that does not destroy its caller. A receive that has begun leaves its caller
   blocked with the registers of the trap, and the search goes on from there. Every other call
   puts its result in eax, as 32 bits, and returns to its caller if that still runs; it no longer
   does when it has set its own status.
   */
  lemma CallEnds(k: Kernel, c: nat, tf: Trapframe, call: Call)
    requires KInv(k) && RecvOk(k) && Live(k, c) && k.envs[c].status == RUNNING
    requires !Ends(k, c, Syscall(call)) && CountsGuard(SetTf(k, c, tf), c, call)
    ensures Spaces(k) && Spaces(SetTf(k, c, tf)) && Live(SetTf(k, c, tf), c)
    ensures var (k1, r) := Dispatch(SetTf(k, c, tf), c, call);
      var (k', out) := Body(k, Some(c), tf, Syscall(call));
      k1.envs[c].tf == tf && Answered(k1, c, call, r, k', out)
  {
    KInvSpaces(k);
    SetTfKeeps(k, c, tf);
    var k0 := SetTf(k, c, tf);
    KInvSpaces(k0);
    SelfDestructionEnds(k0, c, call);
    CallKeepsCaller(k0, c, call);
    var (k1, r) := Dispatch(k0, c, call);
    ServesCall(k0, c, call);
    FinishCallEnds(k1, c, call, r);
  }

  lemma FinishCallEnds(k: Kernel, c: nat, call: Call, r: int)
    requires KInv(k) && Live(k, c) && (call.IpcRecv? && r == 0 ==> k.envs[c].status != RUNNING)
    ensures Answered(k, c, call, r, FinishCall(k, c, call, r).0, FinishCall(k, c, call, r).1)
  {
    if call.IpcRecv? && r == 0 {
      YieldGoesOn(k, c);
    } else {
      var k2 := SetTf(k, c, WithEax(k.envs[c].tf, r % 0x1_0000_0000));
      TouchEnvKeeps(k, k2, c);
      if k.envs[c].status == RUNNING { RunsOn(k2, c); } else { YieldGoesOn(k2, c); }
    }
  }

  /** The caller lives on and its saved registers are not touched; only a receive stops it by itself. */
  lemma CallKeepsCaller(k: Kernel, c: nat, call: Call)
    requires KInv(k) && RecvOk(k) && Live(k, c) && k.envs[c].status == RUNNING
    requires CountsGuard(k, c, call) && !DestroysSelf(k, c, call)
    ensures Spaces(k)
    ensures var (k1, r) := Dispatch(k, c, call);
      && KInv(k1) && Live(k1, c) && k1.envs[c].tf == k.envs[c].tf
      && (call.IpcRecv? && r == 0 ==> k1.envs[c].status == NOT_RUNNABLE)
  {
    DispatchKeeps(k, c, call);
    var t := CallTouchesOneEnv(k, c, call);
    assert k.envs[c].recving ==> Blocked(k.envs[c]);
  }

  // ---- Stays that end an environment

  /** Slot `c` is FREE, first on the list, and its address space is gone; nothing else has changed. */
  ghost predicate Freed(k: Kernel, k': Kernel, c: nat)
    requires k.Shape() && k'.Shape() && c < NENV
  {
    && k'.envs[c].status == FREE && k'.envs[c].pgdir == 0 && k'.envFree == [c] + k.envFree
    && (forall x: nat :: x < NENV && x != c ==> k'.envs[x] == k.envs[x])
    && (forall key :: At(k'.mem, key) == if key.d == k.envs[c].pgdir then None else At(k.mem, key))
    && k'.mem.Size() == k.mem.Size()
    && (forall f :: 0 <= f < k.mem.Size() && k'.mem.role[f] == Data ==> k'.mem.words[f] == k.mem.words[f])
  }

  lemma FreeingFrees(k: Kernel, k0: Kernel, c: nat)
    requires KInv(k0) && Live(k0, c) && k.Shape() && k0.mem == k.mem && k0.envFree == k.envFree
    requires k0.envs == k.envs[c := k0.envs[c]] && c < NENV && k0.envs[c].pgdir == k.envs[c].pgdir
    ensures HasSpace(k0, c) && Freed(k, EnvFree(k0, c), c)
  {
    KInvSpaces(k0);
    EnvFreeKeeps(k0, c);
  }

  /**
   The end of an environment: whatever else runs next, its slot is FREE and its memory is given
   back, and the search starts again at slot 0.
   */
  lemma EnvironmentEnds(k: Kernel, c: nat, tf: Trapframe, ev: Event) returns (k1: Kernel)
    requires KInv(k) && Live(k, c) && (k.envs[c].status == RUNNING || k.envs[c].status == DYING) && Ends(k, c, ev)
    ensures Spaces(k) && BodyDefined(k, Some(c), tf, ev)
    ensures k1.Shape() && Freed(k, k1, c)
    ensures GoesOnFromZero(k1, Body(k, Some(c), tf, ev).0, Body(k, Some(c), tf, ev).1)
  {
    KInvSpaces(k);
    var k0 := SetTf(k, c, tf);
    if k.envs[c].status == DYING {
      FreeingFrees(k, k, c);
      k1 := EnvFree(k, c);
    } else {
      TouchEnvKeeps(k, k0, c);
      KInvSpaces(k0);
      FreeingFrees(k, k0, c);
      if ev.Syscall? { SelfDestructionEnds(k0, c, ev.call); }
      k1 := EnvFree(k0, c);
      assert Body(k, Some(c), tf, ev) == AfterYield(k1, None);
    }
    YieldGoesOnFromZero(k1);
  }

  /** A CPU that ran nothing, at boot or woken by its timer. */
  lemma IdleCpuGoesOn(k: Kernel, tf: Trapframe, ev: Event)
    requires KInv(k)
    ensures Spaces(k) && GoesOnFromZero(k, Body(k, None, tf, ev).0, Body(k, None, tf, ev).1)
  {
    KInvSpaces(k);
    YieldGoesOnFromZero(k);
  }
}
