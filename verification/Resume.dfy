/**
 What a blocked receiver finds when it runs again: its saved registers over whole runs of the
 machine, and what ipc_recv therefore returns (lib/ipc.c, kern/syscall.c).
 */
module Resume {
  import opened Layout
  import opened Trapframes
  import opened PageState
  import opened PageInv
  import opened Envs
  import opened Syscalls
  import opened Sched
  import opened KernelEntry
  import opened Smp
  import opened Ipc

  /** On no CPU: neither RUNNING nor DYING. */
  predicate Asleep(e: Env) { e.status != RUNNING && e.status != DYING }

  /** An environment asleep keeps its saved registers, and does not die in its sleep. */
  predicate SleepsOn(a: Env, b: Env) {
    Asleep(a) ==> b.tf == a.tf && b.status != DYING
  }

  /** What a happening means for slot `e`: asleep, its registers are written by a delivery only. */
  ghost predicate ResumeMoves(a: Env, b: Env, e: nat, h: Happening) {
    && (h == Received(e) ==> b.status != DYING)
    && (Asleep(a) && h != Allocated(e) ==>
          && h != Received(e) && b.status != DYING
          && (if DeliversTo(h, e) then b.tf.regs.eax == 0 else b.tf == a.tf))
  }

  lemma YieldSleeps(k: Kernel, cur: Option<nat>, e: nat)
    requires k.Shape() && (cur.Some? ==> cur.value < NENV) && e < NENV
    ensures var b := AfterYield(k, cur).0.envs[e];
      b.tf == k.envs[e].tf && (k.envs[e].status != DYING ==> b.status != DYING)
  {
  }

  lemma FinishSleeps(k: Kernel, c: nat, e: nat)
    requires k.Shape() && c < NENV && e < NENV
    ensures var b := Finish(k, c).0.envs[e];
      b.tf == k.envs[e].tf && (k.envs[e].status != DYING ==> b.status != DYING)
  {
    YieldSleeps(k, Some(c), e);
  }

  lemma FinishCallSleeps(k: Kernel, c: nat, call: Call, ret: int, e: nat)
    requires k.Shape() && c < NENV && e < NENV
    ensures var b := FinishCall(k, c, call, ret).0.envs[e];
      (e != c ==> b.tf == k.envs[e].tf) && (k.envs[e].status != DYING ==> b.status != DYING)
  {
    YieldSleeps(k, Some(c), e);
    FinishSleeps(SetTf(k, c, WithEax(k.envs[c].tf, ret % 0x1_0000_0000)), c, e);
  }

  /** A call of another environment, up to its return. */
  lemma CallMovesResume(k: Kernel, c: nat, call: Call, e: nat)
    requires KInv(k) && Live(k, c) && k.envs[c].status == RUNNING && CountsGuard(k, c, call) && e < NENV
    ensures Spaces(k)
    ensures ResumeMoves(k.envs[e], Dispatch(k, c, call).0.envs[e], e, CallHappening(k, c, call))
  {
    KInvSpaces(k);
    if call.Exofork? {
      ExoforkKeeps(k, c);
    } else {
      var t := CallTouchesOneEnv(k, c, call);
    }
  }

  lemma ServeCallMovesResume(k: Kernel, c: nat, call: Call, e: nat)
    requires KInv(k) && Live(k, c) && k.envs[c].status == RUNNING && CountsGuard(k, c, call) && e < NENV
    requires !DestroysSelf(k, c, call)
    ensures Spaces(k)
    ensures ResumeMoves(k.envs[e], Serve(k, c, Syscall(call)).0.envs[e], e, CallHappening(k, c, call))
  {
    KInvSpaces(k);
    CallMovesResume(k, c, call, e);
    var (k1, ret) := Dispatch(k, c, call);
    FinishCallSleeps(k1, c, call, ret, e);
    assert Serve(k, c, Syscall(call)) == FinishCall(k1, c, call, ret);
  }

  lemma OtherEventsSleep(k: Kernel, c: nat, ev: Event, e: nat)
    requires Spaces(k) && Live(k, c) && k.envs[c].status == RUNNING && e < NENV
    requires ev.Syscall? ==> DestroysSelf(k, c, ev.call)
    ensures SleepsOn(k.envs[e], Serve(k, c, ev).0.envs[e])
  {
    match ev
    case Syscall(_) => YieldSleeps(EnvFree(k, c), None, e);
    case FaultFatal => YieldSleeps(EnvFree(k, c), None, e);
    case FaultPushed(frame) =>
    case Quiet => FinishSleeps(k, c, e);
    case _ => YieldSleeps(k, Some(c), e);
  }

  lemma ServeMovesResume(k: Kernel, c: nat, ev: Event, e: nat)
    requires KInv(k) && Live(k, c) && k.envs[c].status == RUNNING && EventGuard(k, c, ev) && e < NENV
    ensures Spaces(k)
    ensures ResumeMoves(k.envs[e], Serve(k, c, ev).0.envs[e], e, ServeHappening(k, c, ev))
  {
    KInvSpaces(k);
    if ev.Syscall? && !DestroysSelf(k, c, ev.call) {
      ServeCallMovesResume(k, c, ev.call, e);
    } else {
      OtherEventsSleep(k, c, ev, e);
    }
  }

  lemma BodyMovesResume(k: Kernel, cur: Option<nat>, tf: Trapframe, ev: Event, e: nat)
    requires KInv(k) && RecvOk(k) && e < NENV && (cur.Some? ==> cur.value < NENV && Held(k, cur.value))
    requires cur.Some? && k.envs[cur.value].status == RUNNING ==> EventGuard(SetTf(k, cur.value, tf), cur.value, ev)
    ensures Spaces(k) && (cur.Some? ==> Live(k, cur.value))
    ensures ResumeMoves(k.envs[e], Body(k, cur, tf, ev).0.envs[e], e, BodyHappening(k, cur, tf, ev))
  {
    KInvSpaces(k);
    match cur
    case None => YieldSleeps(k, None, e);
    case Some(c) =>
      if k.envs[c].status == DYING {
        YieldSleeps(EnvFree(k, c), None, e);
      } else {
        SetTfKeeps(k, c, tf);
        ServeMovesResume(SetTf(k, c, tf), c, ev, e);
      }
  }

  /** Every step of the machine. */
  lemma StepMovesResume(s: Machine, s': Machine, in_: Input, e: nat)
    requires MachineInv(s) && Step(s, s', in_) && e < NENV
    ensures s'.k.Shape()
    ensures ResumeMoves(s.k.envs[e], s'.k.envs[e], e, StepHappening(s, in_))
  {
    if s.cpus[in_.c].pc.Work? {
      WorkMovesResume(s, s', in_, e);
    } else {
      StepMovesOneCpu(s, s', in_);
    }
  }

  lemma WorkMovesResume(s: Machine, s': Machine, in_: Input, e: nat)
    requires MachineInv(s) && Step(s, s', in_) && e < NENV && s.cpus[in_.c].pc.Work?
    ensures s'.k.Shape()
    ensures ResumeMoves(s.k.envs[e], s'.k.envs[e], e, StepHappening(s, in_))
  {
    if in_.create {
      KInvSpaces(s.k);
      EnvAllocKeeps(s.k, 0);
    } else {
      StayFacts(s, s', in_);
      BodyMovesResume(s.k, s.cpus[in_.c].env, in_.tf, in_.ev, e);
    }
  }

  // ---- Over time

  /** One slot after each step, and what each step meant. */
  ghost predicate ResumeTrace(envs: seq<Env>, haps: seq<Happening>, e: nat) {
    |envs| == |haps| + 1 && forall n :: 0 <= n < |haps| ==> ResumeMoves(envs[n], envs[n + 1], e, haps[n])
  }

  /** From the receive at step `i` to `j` the slot does not run and does not change hands. */
  ghost predicate Waits(envs: seq<Env>, haps: seq<Happening>, i: nat, j: nat, e: nat)
    requires |envs| == |haps| + 1 && j <= |haps|
  {
    forall n :: i < n < j ==> envs[n].status != RUNNING && haps[n] != Allocated(e)
  }

  lemma {:induction false} WaitingSleeps(envs: seq<Env>, haps: seq<Happening>, i: nat, j: nat, e: nat)
    requires ResumeTrace(envs, haps, e) && i < j <= |haps| && haps[i] == Received(e) && Waits(envs, haps, i, j, e)
    ensures envs[j].status != DYING && NoNewReceive(haps, i + 1, j, e)
    decreases j - i
  {
    assert ResumeMoves(envs[j - 1], envs[j], e, haps[j - 1]);
    if j > i + 1 { WaitingSleeps(envs, haps, i, j - 1, e); }
  }

  /** The zero a delivery leaves in eax is there when the receiver runs. */
  lemma {:induction false} ZeroStays(envs: seq<Env>, haps: seq<Happening>, i: nat, n: nat, j: nat, e: nat)
    requires ResumeTrace(envs, haps, e) && i < n < j <= |haps| && haps[i] == Received(e) && Waits(envs, haps, i, j, e)
    requires DeliversTo(haps[n], e)
    ensures envs[j].tf.regs.eax == 0
    decreases j - n
  {
    WaitingSleeps(envs, haps, i, j - 1, e);
    assert ResumeMoves(envs[j - 1], envs[j], e, haps[j - 1]);
    if j > n + 1 { ZeroStays(envs, haps, i, n, j - 1, e); }
  }

  ghost function Slot(run: seq<Machine>, e: nat): (envs: seq<Env>)
    requires e < NENV && forall n :: 0 <= n < |run| ==> run[n].k.Shape()
    ensures |envs| == |run|
  {
    seq(|run|, n requires 0 <= n < |run| && run[n].k.Shape() => run[n].k.envs[e])
  }

  lemma RunShapes(run: seq<Machine>, inputs: seq<Input>)
    requires Execution(run, inputs)
    ensures forall n :: 0 <= n < |run| ==> run[n].k.Shape()
  {
    forall n | 0 <= n < |run| ensures run[n].k.Shape() {
      RunKeeps(run, inputs, n);
    }
  }

  lemma RunTracesResume(run: seq<Machine>, inputs: seq<Input>, e: nat)
    requires Execution(run, inputs) && e < NENV
    ensures forall n :: 0 <= n < |run| ==> run[n].k.Shape()
    ensures ResumeTrace(Slot(run, e), Happenings(run, inputs), e)
  {
    RunShapes(run, inputs);
    var envs, haps := Slot(run, e), Happenings(run, inputs);
    forall n | 0 <= n < |haps| ensures ResumeMoves(envs[n], envs[n + 1], e, haps[n]) {
      RunKeeps(run, inputs, n);
      assert Step(run[n], run[n + 1], inputs[n]);
      StepMovesResume(run[n], run[n + 1], inputs[n], e);
    }
  }

  /** What the system call returned to the environment that is about to run. */
  function Returned(self: Env): int { ToInt32(self.tf.regs.eax) }

  /** Environment `e` blocks in sys_ipc_recv at step `i`, and runs again for the first time after step `j - 1`. */
  ghost predicate Receives(run: seq<Machine>, inputs: seq<Input>, i: nat, j: nat, e: nat)
    requires Execution(run, inputs) && e < NENV
  {
    && i < j <= |inputs| && Happenings(run, inputs)[i] == Received(e)
    && (forall n :: i < n < j ==> Happenings(run, inputs)[n] != Allocated(e))
    && (forall n :: i < n < j && run[n].k.Shape() ==> run[n].k.envs[e].status != RUNNING)
    && run[j].k.Shape() && run[j].k.envs[e].status == RUNNING
  }

  /**
   When the receiver first runs again, exactly one send has completed its receive, its system
   call has returned 0, and what ipc_recv makes of that return is precisely that send's value,
   sender and permission.
   */
  lemma IpcRecvReturnsTheSend(run: seq<Machine>, inputs: seq<Input>, i: nat, j: nat, e: nat) returns (n: nat)
    requires Execution(run, inputs) && e < NENV && Receives(run, inputs, i, j, e)
    ensures var haps := Happenings(run, inputs); var self := run[j].k.envs[e];
      && i < n < j && DeliversTo(haps[n], e)
      && (forall x :: i < x < j && x != n ==> !DeliversTo(haps[x], e))
      && self.tf.regs.eax == 0
      && IpcRecvResult(Returned(self), self) == (haps[n].box.value, haps[n].box.from, haps[n].box.perm)
  {
    RunTracesResume(run, inputs, e);
    var envs, haps := Slot(run, e), Happenings(run, inputs);
    WaitingSleeps(envs, haps, i, j, e);
    var sent := Rendezvous(run, inputs, i, j, e);
    n := sent.value;
    ZeroStays(envs, haps, i, n, j, e);
  }
}
