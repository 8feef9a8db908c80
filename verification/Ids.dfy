/**
 Environment ids over whole runs of the machine (kern/env.c): which steps give a slot a new
 id, and how long the id of a dead environment names nothing.
 */
module Ids {
  import opened Layout
  import opened Trapframes
  import opened PageState
  import opened PageInv
  import opened Envs
  import opened Syscalls
  import opened Sched
  import opened KernelEntry
  import opened Smp
  import opened Ipc

  /** The slot keeps its id, and stays free if it was. */
  ghost predicate SlotKept(k: Kernel, k': Kernel, slot: nat)
    requires k.Shape() && k'.Shape() && slot < NENV
  {
    && k'.envs[slot].id == k.envs[slot].id
    && (k.envs[slot].status == FREE ==> k'.envs[slot].status == FREE)
  }

  /** What a happening means for the slot: a new id when it is allocated, else none. */
  ghost predicate SlotMoves(k: Kernel, k': Kernel, slot: nat, h: Happening)
    requires k.Shape() && k'.Shape() && slot < NENV
  {
    if h == Allocated(slot) then k'.envs[slot].id == NextId(k.envs[slot].id, slot) else SlotKept(k, k', slot)
  }

  lemma YieldKeepsSlot(k: Kernel, cur: Option<nat>, slot: nat)
    requires k.Shape() && (cur.Some? ==> cur.value < NENV) && slot < NENV
    ensures SlotKept(k, AfterYield(k, cur).0, slot)
  {
  }

  lemma FinishKeepsSlot(k: Kernel, c: nat, slot: nat)
    requires k.Shape() && c < NENV && slot < NENV
    ensures SlotKept(k, Finish(k, c).0, slot)
  {
    YieldKeepsSlot(k, Some(c), slot);
  }

  lemma FinishCallKeepsSlot(k: Kernel, c: nat, call: Call, ret: int, slot: nat)
    requires k.Shape() && c < NENV && slot < NENV
    ensures SlotKept(k, FinishCall(k, c, call, ret).0, slot)
  {
    YieldKeepsSlot(k, Some(c), slot);
    FinishKeepsSlot(SetTf(k, c, WithEax(k.envs[c].tf, ret % 0x1_0000_0000)), c, slot);
  }

  lemma CallMovesSlot(k: Kernel, c: nat, call: Call, slot: nat)
    requires KInv(k) && Live(k, c) && CountsGuard(k, c, call) && slot < NENV
    ensures Spaces(k)
    ensures SlotMoves(k, Dispatch(k, c, call).0, slot, CallHappening(k, c, call))
  {
    KInvSpaces(k);
    if call.Exofork? {
      ForkMovesSlot(k, c, slot);
    } else {
      var t := CallTouchesOneEnv(k, c, call);
      EffectKeepsSlot(k, Dispatch(k, c, call).0, Dispatch(k, c, call).1, c, call, t, slot);
    }
  }

  lemma ForkMovesSlot(k: Kernel, c: nat, slot: nat)
    requires KInv(k) && Live(k, c) && Spaces(k) && slot < NENV
    ensures SlotMoves(k, SysExofork(k, c).0, slot, CallHappening(k, c, Exofork))
  {
    ExoforkKeeps(k, c);
    ForkIsAllocation(k, c);
  }

  lemma ForkIsAllocation(k: Kernel, c: nat)
    requires Spaces(k) && Live(k, c)
    ensures var r := SysExofork(k, c).1; CallHappening(k, c, Exofork) == if r > 0 then Allocated(EnvX(r)) else Nothing
  {
  }

  lemma EffectKeepsSlot(k: Kernel, k': Kernel, r: int, c: nat, call: Call, t: nat, slot: nat)
    requires k.Shape() && k'.Shape() && Live(k, c) && EnvEffect(k, k', r, c, call, t) && !call.Exofork? && slot < NENV
    ensures SlotKept(k, k', slot)
  {
  }

  lemma ServeMovesSlot(k: Kernel, c: nat, ev: Event, slot: nat)
    requires KInv(k) && Live(k, c) && k.envs[c].status == RUNNING && EventGuard(k, c, ev) && slot < NENV
    ensures Spaces(k)
    ensures SlotMoves(k, Serve(k, c, ev).0, slot, ServeHappening(k, c, ev))
  {
    KInvSpaces(k);
    match ev
    case Syscall(call) =>
      if DestroysSelf(k, c, call) {
        YieldKeepsSlot(EnvFree(k, c), None, slot);
      } else {
        CallMovesSlot(k, c, call, slot);
        var r := Dispatch(k, c, call);
        FinishCallKeepsSlot(r.0, c, call, r.1, slot);
      }
    case FaultFatal => YieldKeepsSlot(EnvFree(k, c), None, slot);
    case FaultPushed(frame) => FinishKeepsSlot(SetTf(k, c, frame), c, slot);
    case Quiet => FinishKeepsSlot(k, c, slot);
    case _ => YieldKeepsSlot(k, Some(c), slot);
  }

  lemma BodyMovesSlot(k: Kernel, cur: Option<nat>, tf: Trapframe, ev: Event, slot: nat)
    requires KInv(k) && RecvOk(k) && slot < NENV && (cur.Some? ==> cur.value < NENV && Held(k, cur.value))
    requires cur.Some? && k.envs[cur.value].status == RUNNING ==> EventGuard(SetTf(k, cur.value, tf), cur.value, ev)
    ensures Spaces(k) && (cur.Some? ==> Live(k, cur.value))
    ensures SlotMoves(k, Body(k, cur, tf, ev).0, slot, BodyHappening(k, cur, tf, ev))
  {
    KInvSpaces(k);
    match cur
    case None => YieldKeepsSlot(k, None, slot);
    case Some(c) =>
      if k.envs[c].status == DYING {
        YieldKeepsSlot(EnvFree(k, c), None, slot);
      } else {
        SetTfKeeps(k, c, tf);
        ServeMovesSlot(SetTf(k, c, tf), c, ev, slot);
      }
  }

  /** Every step of the machine. */
  lemma StepMovesSlot(s: Machine, s': Machine, in_: Input, slot: nat)
    requires MachineInv(s) && Step(s, s', in_) && slot < NENV
    ensures s'.k.Shape()
    ensures SlotMoves(s.k, s'.k, slot, StepHappening(s, in_))
  {
    if s.cpus[in_.c].pc.Work? {
      WorkMovesSlot(s, s', in_, slot);
    } else {
      StepMovesOneCpu(s, s', in_);
    }
  }

  /** The step that does the stay's work. */
  lemma WorkMovesSlot(s: Machine, s': Machine, in_: Input, slot: nat)
    requires MachineInv(s) && Step(s, s', in_) && slot < NENV && s.cpus[in_.c].pc.Work?
    ensures s'.k.Shape()
    ensures SlotMoves(s.k, s'.k, slot, StepHappening(s, in_))
  {
    if in_.create {
      KInvSpaces(s.k);
      EnvAllocKeeps(s.k, 0);
    } else {
      StayFacts(s, s', in_);
      BodyMovesSlot(s.k, s.cpus[in_.c].env, in_.tf, in_.ev, slot);
    }
  }

  /** How often the slot is allocated in steps [i, j). */
  ghost function Allocations(haps: seq<Happening>, i: nat, j: nat, slot: nat): nat
    requires j <= |haps|
  {
    if j <= i then 0 else Allocations(haps, i, j - 1, slot) + if haps[j - 1] == Allocated(slot) then 1 else 0
  }

  /** A slot after each step, and what each step meant. */
  datatype SlotState = SlotState(id: int, free: bool)

  ghost predicate SlotTrace(slots: seq<SlotState>, haps: seq<Happening>, slot: nat) {
    && |slots| == |haps| + 1
    && forall n :: 0 <= n < |haps| ==> TraceStep(slots[n], slots[n + 1], haps[n], slot)
  }

  ghost predicate TraceStep(a: SlotState, b: SlotState, h: Happening, slot: nat) {
    if h == Allocated(slot) then b.id == NextId(a.id, slot) else b.id == a.id && (a.free ==> b.free)
  }

  lemma {:induction false} TraceIds(slots: seq<SlotState>, haps: seq<Happening>, i: nat, j: nat, slot: nat)
    requires SlotTrace(slots, haps, slot) && i <= j < |slots|
    ensures slots[j].id == IdAfter(slots[i].id, slot, Allocations(haps, i, j, slot))
    ensures Allocations(haps, i, j, slot) == 0 && slots[i].free ==> slots[j].free
    decreases j
  {
    if i < j { TraceIds(slots, haps, i, j - 1, slot); }
  }

  lemma RunMovesSlot(run: seq<Machine>, inputs: seq<Input>, n: nat, slot: nat)
    requires Execution(run, inputs) && n < |inputs| && slot < NENV
    ensures run[n].k.Shape() && run[n + 1].k.Shape()
    ensures SlotMoves(run[n].k, run[n + 1].k, slot, Happenings(run, inputs)[n])
  {
    RunKeeps(run, inputs, n);
    assert Step(run[n], run[n + 1], inputs[n]);
    StepMovesSlot(run[n], run[n + 1], inputs[n], slot);
  }

  ghost function Slots(run: seq<Machine>, slot: nat): (slots: seq<SlotState>)
    requires slot < NENV
    ensures |slots| == |run|
  {
    seq(|run|, n requires 0 <= n < |run| =>
      if slot < |run[n].k.envs| then SlotState(run[n].k.envs[slot].id, run[n].k.envs[slot].status == FREE)
      else SlotState(0, true))
  }

  lemma RunTracesSlot(run: seq<Machine>, inputs: seq<Input>, slot: nat)
    requires Execution(run, inputs) && slot < NENV
    ensures SlotTrace(Slots(run, slot), Happenings(run, inputs), slot)
  {
    var slots, haps := Slots(run, slot), Happenings(run, inputs);
    forall n | 0 <= n < |haps| ensures TraceStep(slots[n], slots[n + 1], haps[n], slot) {
      RunMovesSlot(run, inputs, n, slot);
    }
  }

  /** A slot's id goes through one generation per allocation, and through nothing else. */
  lemma IdsOverRun(run: seq<Machine>, inputs: seq<Input>, i: nat, j: nat, slot: nat)
    requires Execution(run, inputs) && i <= j < |run| && slot < NENV
    ensures run[i].k.Shape() && run[j].k.Shape()
    ensures var n := Allocations(Happenings(run, inputs), i, j, slot);
      && run[j].k.envs[slot].id == IdAfter(run[i].k.envs[slot].id, slot, n)
      && (n == 0 && run[i].k.envs[slot].status == FREE ==> run[j].k.envs[slot].status == FREE)
  {
    RunKeeps(run, inputs, i);
    RunKeeps(run, inputs, j);
    RunTracesSlot(run, inputs, slot);
    TraceIds(Slots(run, slot), Happenings(run, inputs), i, j, slot);
  }

  /**
   The id of a dead environment names nothing: over any run, from the moment its slot is free
   until the slot has been allocated 2^19-1 times, envid2env rejects the id, whoever asks.
   */
  lemma DeadIdIsRejected(run: seq<Machine>, inputs: seq<Input>, i: nat, j: nat, slot: nat, cur: nat, checkperm: bool)
    requires Execution(run, inputs) && i <= j < |run| && slot < NENV && cur < NENV
    requires run[i].k.Shape() && run[i].k.envs[slot].status == FREE && run[i].k.envs[slot].id > 0
    requires Allocations(Happenings(run, inputs), i, j, slot) < GENERATIONS
    ensures run[j].k.Shape() && Envid2Env(run[j].k, cur, run[i].k.envs[slot].id, checkperm) == None
  {
    IdsOverRun(run, inputs, i, j, slot);
    RunKeeps(run, inputs, i);
    assert IdOk(run[i].k.envs[slot].id, slot);
    StaleIdIsRejected(run[j].k, cur, slot, run[i].k.envs[slot].id,
      Allocations(Happenings(run, inputs), i, j, slot), checkperm);
  }
}
