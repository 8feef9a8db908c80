/**
 All CPUs together: entering and leaving the kernel through the big kernel lock, one
 machine instruction of spin_lock and spin_unlock at a time (kern/spinlock.c,
 kern/trap.c, kern/sched.c, kern/init.c).
 */
module Smp {
  import opened Layout
  import opened Trapframes
  import opened PageState
  import opened PageInv
  import opened Envs
  import opened Syscalls
  import opened Sched
  import opened KernelEntry

  /** Where spin_lock returns to: the mode test of trap(), or kernel work. */
  datatype Next = ToMode(fromUser: bool) | ToWork

  /** The next instruction of a CPU that touches shared state. */
  datatype Pc =
    | User                       // running its environment
    | Halted                     // the hlt loop of sched_halt
    | TrapStatus(fromUser: bool) // trap(): xchg of cpu_status
    | TrapMode(fromUser: bool)   // trap(): the tf_cs test
    | TestLocked(next: Next)     // spin_lock: holding() reads lk->locked
    | TestCpu(next: Next)        // spin_lock: holding() reads lk->cpu
    | Spin(next: Next)           // spin_lock: xchg(&lk->locked, 1)
    | Record(next: Next)         // spin_lock: lk->cpu = thiscpu
    | Work                       // kernel code that owns the lock
    | RelLocked                  // spin_unlock: holding() reads lk->locked
    | RelCpu                     // spin_unlock: holding() reads lk->cpu
    | RelClear                   // spin_unlock: lk->cpu = 0
    | RelSwap                    // spin_unlock: xchg(&lk->locked, 0)
    | Monitor                    // nothing runnable: the kernel monitor, lock held, no environment
    | PanicAlreadyHolding
    | PanicNotHolding
    | PanicNoEnv                 // assert(curenv)

  /**
   `halted` is cpu_status == CPU_HALTED, `env` is cpu_env. `acquired` and `released`
   count lock operations since the CPU last left user or halted mode.
   */
  datatype Cpu = Cpu(pc: Pc, env: Option<nat>, halted: bool, acquired: nat, released: nat)

  /** `booting` until CPU 0 has finished i386_init. */
  datatype Machine = Machine(k: Kernel, cpus: seq<Cpu>, locked: bool, holder: Option<nat>, booting: bool)

  /** What the environment of a step supplies: the CPU, the trapped registers and the reason. */
  datatype Input = Input(c: nat, tf: Trapframe, ev: Event, create: bool)

  function Goto(s: Machine, c: nat, pc: Pc): Machine
    requires c < |s.cpus|
  {
    s.(cpus := s.cpus[c := s.cpus[c].(pc := pc)])
  }

  function After(next: Next): Pc {
    if next.ToWork? then Work else TrapMode(next.fromUser)
  }

  /** The kernel work of CPU `c`: one environment created while booting, or one whole stay. */
  ghost predicate WorkStep(s: Machine, s': Machine, in_: Input)
    requires in_.c < |s.cpus|
  {
    var c := in_.c;
    var me := s.cpus[c];
    && s.k.Shape()
    && if in_.create then
         && s.booting && c == 0 && me.env.None?
         && EnvAlloc(s.k, 0).1 == 0
         && s' == s.(k := EnvAlloc(s.k, 0).0)
       else
         && Spaces(s.k) && (me.env.Some? ==> Live(s.k, me.env.value))
         && (me.env.Some? && s.k.envs[me.env.value].status != DYING ==>
               EventGuard(SetTf(s.k, me.env.value, in_.tf), me.env.value, in_.ev))
         && var (k', out) := Body(s.k, me.env, in_.tf, in_.ev);
         && match out
            case Stuck => s' == s.(k := k', cpus := s.cpus[c := me.(pc := Monitor, env := None)])
            case Leave(cur) =>
              s' == s.(k := k', booting := s.booting && c != 0,
                       cpus := s.cpus[c := me.(pc := RelLocked, env := cur, halted := cur.None?)])
  }

  ghost predicate Step(s: Machine, s': Machine, in_: Input) {
    && in_.c < |s.cpus|
    && var c := in_.c;
    var me := s.cpus[c];
    match me.pc
    case User => s' == s.(cpus := s.cpus[c := me.(pc := TrapStatus(true), acquired := 0, released := 0)])
    case Halted => s' == s.(cpus := s.cpus[c := me.(pc := TrapStatus(false), acquired := 0, released := 0)])
    case TrapStatus(fromUser) =>
      s' == s.(cpus := s.cpus[c := me.(halted := false,
                 pc := if me.halted then TestLocked(ToMode(fromUser)) else TrapMode(fromUser))])
    case TrapMode(fromUser) =>
      s' == Goto(s, c, if !fromUser then Work else if me.env.None? then PanicNoEnv else TestLocked(ToWork))
    case TestLocked(next) => s' == Goto(s, c, if s.locked then TestCpu(next) else Spin(next))
    case TestCpu(next) => s' == Goto(s, c, if s.holder == Some(c) then PanicAlreadyHolding else Spin(next))
    case Spin(next) =>
      if s.locked then s' == s
      else s' == s.(locked := true, cpus := s.cpus[c := me.(pc := Record(next), acquired := me.acquired + 1)])
    case Record(next) => s' == Goto(s, c, After(next)).(holder := Some(c))
    case Work => WorkStep(s, s', in_)
    case RelLocked => s' == Goto(s, c, if s.locked then RelCpu else PanicNotHolding)
    case RelCpu => s' == Goto(s, c, if s.holder == Some(c) then RelClear else PanicNotHolding)
    case RelClear => s' == Goto(s, c, RelSwap).(holder := None)
    case RelSwap =>
      s' == s.(locked := false,
               cpus := s.cpus[c := me.(pc := if me.halted then Halted else User, released := me.released + 1)])
    case Monitor => s' == s
    case PanicAlreadyHolding => s' == s
    case PanicNotHolding => s' == s
    case PanicNoEnv => s' == s
  }

  // ---- The invariant

  /** Between the successful xchg of spin_lock and the xchg of spin_unlock. */
  predicate Owns(pc: Pc) {
    pc.Record? || pc == TrapMode(false) || pc.Work? || pc.RelLocked? || pc.RelCpu? || pc.RelClear?
    || pc.RelSwap? || pc.Monitor?
  }

  /** Between the write of lk->cpu and its clearing. */
  predicate Recorded(pc: Pc) {
    Owns(pc) && !pc.Record? && !pc.RelSwap?
  }

  /** What one CPU's registers say about its own state. */
  ghost predicate CpuOk(me: Cpu) {
    && (Owns(me.pc) ==> me.acquired == 1 && me.released == 0)
    && (me.pc.User? || me.pc.Halted? ==> me.acquired == 1 && me.released == 1)
    && (!Owns(me.pc) && !me.pc.User? && !me.pc.Halted? ==> me.acquired == 0 && me.released == 0)
    && match me.pc
       case User => !me.halted && me.env.Some?
       case Halted => me.halted && me.env.None?
       case TrapStatus(fromUser) => me.halted == !fromUser && me.env.Some? == fromUser
       case TrapMode(fromUser) => !me.halted && me.env.Some? == fromUser
       case TestLocked(next) => NextOk(me, next)
       case TestCpu(next) => NextOk(me, next)
       case Spin(next) => NextOk(me, next)
       case Record(next) => NextOk(me, next)
       case Work => !me.halted
       case RelLocked => me.halted == me.env.None?
       case RelCpu => me.halted == me.env.None?
       case RelClear => me.halted == me.env.None?
       case RelSwap => me.halted == me.env.None?
       case Monitor => true
       case _ => false
  }

  ghost predicate NextOk(me: Cpu, next: Next) {
    !me.halted && (next.ToMode? ==> !next.fromUser && me.env.None?)
  }

  ghost predicate LockOk(s: Machine) {
    && (forall a, b :: 0 <= a < b < |s.cpus| ==> !(Owns(s.cpus[a].pc) && Owns(s.cpus[b].pc)))
    && (forall c :: 0 <= c < |s.cpus| && Owns(s.cpus[c].pc) ==> s.locked)
    && (s.locked ==> exists c :: 0 <= c < |s.cpus| && Owns(s.cpus[c].pc))
    && (forall c: nat :: c < |s.cpus| ==> (s.holder == Some(c) <==> Recorded(s.cpus[c].pc)))
    && (forall c :: 0 <= c < |s.cpus| ==> CpuOk(s.cpus[c]))
  }

  /** The environments held by CPUs other than `c` (by all of them when `c` names no CPU). */
  ghost function HeldBut(s: Machine, c: int): set<nat> {
    set x | 0 <= x < |s.cpus| && x != c && s.cpus[x].env.Some? :: s.cpus[x].env.value
  }

  ghost predicate Distinct(s: Machine) {
    forall a, b :: 0 <= a < b < |s.cpus| && s.cpus[a].env.Some? ==> s.cpus[a].env != s.cpus[b].env
  }

  ghost predicate MachineInv(s: Machine) {
    LockOk(s) && Distinct(s) && Settled(s.k, HeldBut(s, -1))
  }

  // ---- Steps that only move one CPU's program counter

  lemma HeldSplits(s: Machine, c: nat)
    requires c < |s.cpus| && Distinct(s)
    ensures HeldBut(s, -1) == HeldBut(s, c) + Opt(s.cpus[c].env)
    ensures Opt(s.cpus[c].env) !! HeldBut(s, c)
  {
    forall e ensures e in HeldBut(s, -1) <==> e in HeldBut(s, c) + Opt(s.cpus[c].env) {
      if e in HeldBut(s, -1) {
        var x :| 0 <= x < |s.cpus| && s.cpus[x].env == Some(e);
      }
    }
    forall e | e in HeldBut(s, c) ensures e !in Opt(s.cpus[c].env) {
      var x :| 0 <= x < |s.cpus| && x != c && s.cpus[x].env == Some(e);
    }
  }

  lemma SameHeld(s: Machine, s': Machine, c: int)
    requires |s'.cpus| == |s.cpus| && forall x :: 0 <= x < |s.cpus| && x != c ==> s'.cpus[x].env == s.cpus[x].env
    ensures HeldBut(s', c) == HeldBut(s, c)
  {
    forall e ensures e in HeldBut(s', c) <==> e in HeldBut(s, c) {
      if e in HeldBut(s', c) {
        var x :| 0 <= x < |s.cpus| && x != c && s'.cpus[x].env == Some(e);
        assert s.cpus[x].env == Some(e);
      }
      if e in HeldBut(s, c) {
        var x :| 0 <= x < |s.cpus| && x != c && s.cpus[x].env == Some(e);
        assert s'.cpus[x].env == Some(e);
      }
    }
  }

  ghost predicate OnlyCpu(s: Machine, s': Machine, c: nat) {
    && c < |s.cpus| == |s'.cpus| && s'.k == s.k && s'.cpus[c].env == s.cpus[c].env
    && forall x :: 0 <= x < |s.cpus| && x != c ==> s'.cpus[x] == s.cpus[x]
  }

  lemma StepMovesOneCpu(s: Machine, s': Machine, in_: Input)
    requires Step(s, s', in_) && !s.cpus[in_.c].pc.Work?
    ensures OnlyCpu(s, s', in_.c)
  {
  }

  lemma TrapCpuOk(s: Machine, s': Machine, in_: Input)
    requires Step(s, s', in_) && CpuOk(s.cpus[in_.c])
    requires s.holder == Some(in_.c) <==> Recorded(s.cpus[in_.c].pc)
    requires Owns(s.cpus[in_.c].pc) ==> s.locked
    requires var pc := s.cpus[in_.c].pc; pc.User? || pc.Halted? || pc.TrapStatus? || pc.TrapMode?
    ensures CpuOk(s'.cpus[in_.c])
  {
  }

  lemma TestCpuOk(s: Machine, s': Machine, in_: Input)
    requires Step(s, s', in_) && CpuOk(s.cpus[in_.c])
    requires s.holder == Some(in_.c) <==> Recorded(s.cpus[in_.c].pc)
    requires Owns(s.cpus[in_.c].pc) ==> s.locked
    requires var pc := s.cpus[in_.c].pc; pc.TestLocked? || pc.TestCpu?
    ensures CpuOk(s'.cpus[in_.c])
  {
  }

  lemma AcquireCpuOk(s: Machine, s': Machine, in_: Input)
    requires Step(s, s', in_) && CpuOk(s.cpus[in_.c])
    requires s.holder == Some(in_.c) <==> Recorded(s.cpus[in_.c].pc)
    requires Owns(s.cpus[in_.c].pc) ==> s.locked
    requires var pc := s.cpus[in_.c].pc; pc.Spin? || pc.Record?
    ensures CpuOk(s'.cpus[in_.c])
  {
  }

  lemma ReleaseCpuOk(s: Machine, s': Machine, in_: Input)
    requires Step(s, s', in_) && CpuOk(s.cpus[in_.c])
    requires s.holder == Some(in_.c) <==> Recorded(s.cpus[in_.c].pc)
    requires Owns(s.cpus[in_.c].pc) ==> s.locked
    requires var pc := s.cpus[in_.c].pc; pc.RelLocked? || pc.RelCpu? || pc.RelClear? || pc.RelSwap? || pc.Monitor?
    ensures CpuOk(s'.cpus[in_.c])
  {
  }

  lemma StepKeepsCpuOk(s: Machine, s': Machine, in_: Input)
    requires in_.c < |s.cpus| && !s.cpus[in_.c].pc.Work?
    requires Step(s, s', in_) && CpuOk(s.cpus[in_.c])
    requires s.holder == Some(in_.c) <==> Recorded(s.cpus[in_.c].pc)
    requires Owns(s.cpus[in_.c].pc) ==> s.locked
    ensures CpuOk(s'.cpus[in_.c])
  {
    var pc := s.cpus[in_.c].pc;
    if pc.User? || pc.Halted? || pc.TrapStatus? || pc.TrapMode? { TrapCpuOk(s, s', in_); }
    else if pc.TestLocked? || pc.TestCpu? { TestCpuOk(s, s', in_); }
    else if pc.Spin? || pc.Record? { AcquireCpuOk(s, s', in_); }
    else { ReleaseCpuOk(s, s', in_); }
  }

  lemma StepKeepsHolder(s: Machine, s': Machine, in_: Input)
    requires Step(s, s', in_) && !s.cpus[in_.c].pc.Work? && LockOk(s)
    ensures forall x: nat :: x < |s.cpus| && |s'.cpus| == |s.cpus| ==>
      (s'.holder == Some(x) <==> Recorded(s'.cpus[x].pc))
  {
    var c := in_.c;
    StepMovesOneCpu(s, s', in_);
    assert CpuOk(s.cpus[c]);
    HolderMoves(s, s', in_);
    forall x: nat | x < |s.cpus| ensures s'.holder == Some(x) <==> Recorded(s'.cpus[x].pc) {
      assert s.holder == Some(x) <==> Recorded(s.cpus[x].pc);
      if s.cpus[c].pc.Record? && x != c {
        assert Owns(s.cpus[c].pc) && !Owns(s.cpus[x].pc);
      }
    }
  }

  /** lk->cpu is written by its new owner, cleared by its old one, and else left alone. */
  lemma HolderMoves(s: Machine, s': Machine, in_: Input)
    requires Step(s, s', in_) && !s.cpus[in_.c].pc.Work? && CpuOk(s.cpus[in_.c])
    requires s.holder == Some(in_.c) <==> Recorded(s.cpus[in_.c].pc)
    requires Owns(s.cpus[in_.c].pc) ==> s.locked
    ensures var a, b := s.cpus[in_.c].pc, s'.cpus[in_.c].pc;
      && (a.Record? ==> Recorded(b) && s'.holder == Some(in_.c))
      && (a.RelClear? ==> !Recorded(b) && s'.holder == None)
      && (!a.Record? && !a.RelClear? ==> (Recorded(b) <==> Recorded(a)) && s'.holder == s.holder)
  {
  }

  /** A step of CPU `c` outside kernel work keeps the lock facts, cpu_env and the kernel state. */
  lemma LockStepKeeps(s: Machine, s': Machine, in_: Input)
    requires LockOk(s) && Step(s, s', in_) && !s.cpus[in_.c].pc.Work?
    ensures LockOk(s') && OnlyCpu(s, s', in_.c)
  {
    StepMovesOneCpu(s, s', in_);
    StepKeepsCpuOk(s, s', in_);
    StepKeepsHolder(s, s', in_);
    LockWordMoves(s, s', in_);
    OwnerMoves(s, s', in_.c);
  }

  lemma LockWordMoves(s: Machine, s': Machine, in_: Input)
    requires Step(s, s', in_) && !s.cpus[in_.c].pc.Work? && CpuOk(s.cpus[in_.c]) && OnlyCpu(s, s', in_.c)
    requires s.holder == Some(in_.c) <==> Recorded(s.cpus[in_.c].pc)
    requires Owns(s.cpus[in_.c].pc) ==> s.locked
    ensures var c := in_.c;
      || (Owns(s'.cpus[c].pc) == Owns(s.cpus[c].pc) && s'.locked == s.locked)
      || (Owns(s'.cpus[c].pc) && !s.locked && s'.locked)
      || (!Owns(s'.cpus[c].pc) && Owns(s.cpus[c].pc) && !s'.locked)
  {
  }

  /** The owner of the lock after a step: the stepping CPU, or whoever it was. */
  lemma OwnerMoves(s: Machine, s': Machine, c: nat)
    requires LockOk(s) && c < |s.cpus| && |s'.cpus| == |s.cpus|
    requires forall x :: 0 <= x < |s.cpus| && x != c ==> s'.cpus[x] == s.cpus[x]
    requires
      || (Owns(s'.cpus[c].pc) == Owns(s.cpus[c].pc) && s'.locked == s.locked)
      || (Owns(s'.cpus[c].pc) && !s.locked && s'.locked)
      || (!Owns(s'.cpus[c].pc) && Owns(s.cpus[c].pc) && !s'.locked)
    ensures forall a, b :: 0 <= a < b < |s'.cpus| ==> !(Owns(s'.cpus[a].pc) && Owns(s'.cpus[b].pc))
    ensures s'.locked ==> exists x :: 0 <= x < |s'.cpus| && Owns(s'.cpus[x].pc)
    ensures forall x :: 0 <= x < |s'.cpus| && Owns(s'.cpus[x].pc) ==> s'.locked
  {
    if s'.locked {
      if Owns(s'.cpus[c].pc) {
      } else {
        var x :| 0 <= x < |s.cpus| && Owns(s.cpus[x].pc);
        assert Owns(s'.cpus[x].pc);
      }
    }
  }

  // ---- Kernel work

  lemma CreateSettles(k: Kernel, held: set<nat>)
    requires Settled(k, held) && EnvAlloc(k, 0).1 == 0
    ensures Settled(EnvAlloc(k, 0).0, held)
  {
    EnvAllocKeeps(k, 0);
    var (k', r, x) := EnvAlloc(k, 0);
    forall e: nat ensures e in held <==> Held(k', e) {
      assert e in held <==> Held(k, e);
    }
    forall e: nat | Live(k', e) && k'.envs[e].recving ensures Blocked(k'.envs[e]) {
      if e != x { assert Live(k, e); }
    }
  }

  /** Leaving the kernel with `cur` in place of the old environment keeps cpu_env distinct. */
  lemma NewEnvDistinct(s: Machine, s': Machine, c: nat)
    requires c < |s.cpus| == |s'.cpus| && Distinct(s)
    requires forall x :: 0 <= x < |s.cpus| && x != c ==> s'.cpus[x] == s.cpus[x]
    requires Opt(s'.cpus[c].env) !! HeldBut(s, c)
    ensures Distinct(s')
  {
    forall a, b | 0 <= a < b < |s'.cpus| && s'.cpus[a].env.Some? ensures s'.cpus[a].env != s'.cpus[b].env {
      if a == c && s.cpus[b].env.Some? {
        assert s.cpus[b].env.value in HeldBut(s, c);
      }
      if b == c {
        assert s.cpus[a].env.value in HeldBut(s, c);
      }
    }
  }

  lemma WorkLockOk(s: Machine, s': Machine, c: nat)
    requires LockOk(s) && c < |s.cpus| == |s'.cpus| && s.cpus[c].pc.Work?
    requires s'.locked == s.locked && s'.holder == s.holder
    requires forall x :: 0 <= x < |s.cpus| && x != c ==> s'.cpus[x] == s.cpus[x]
    requires Recorded(s'.cpus[c].pc) && CpuOk(s'.cpus[c])
    ensures LockOk(s')
  {
    assert CpuOk(s.cpus[c]);
    OwnerMoves(s, s', c);
  }

  lemma CreateStepKeeps(s: Machine, s': Machine, in_: Input)
    requires MachineInv(s) && Step(s, s', in_) && s.cpus[in_.c].pc.Work? && in_.create
    ensures MachineInv(s')
  {
    CreateSettles(s.k, HeldBut(s, -1));
    SameHeld(s, s', -1);
    assert CpuOk(s.cpus[in_.c]);
    WorkLockOk(s, s', in_.c);
  }

  /** What a whole stay leaves behind, seen from the other CPUs. */
  lemma StayKeeps(s: Machine, s': Machine, in_: Input)
    requires MachineInv(s) && Step(s, s', in_) && s.cpus[in_.c].pc.Work? && !in_.create
    ensures s'.locked == s.locked && s'.holder == s.holder && |s'.cpus| == |s.cpus|
    ensures forall x :: 0 <= x < |s.cpus| && x != in_.c ==> s'.cpus[x] == s.cpus[x]
    ensures Recorded(s'.cpus[in_.c].pc) && CpuOk(s'.cpus[in_.c])
    ensures Opt(s'.cpus[in_.c].env) !! HeldBut(s, in_.c)
    ensures Settled(s'.k, HeldBut(s, in_.c) + Opt(s'.cpus[in_.c].env))
  {
    var c := in_.c;
    HeldSplits(s, c);
    assert CpuOk(s.cpus[c]);
    BodySettles(s.k, HeldBut(s, c), s.cpus[c].env, in_.tf, in_.ev);
    StayMoves(s, s', in_);
  }

  /** What a stay does to the CPUs. */
  lemma StayMoves(s: Machine, s': Machine, in_: Input)
    requires in_.c < |s.cpus| && s.cpus[in_.c].pc.Work? && WorkStep(s, s', in_) && !in_.create
    requires CpuOk(s.cpus[in_.c])
    ensures s'.locked == s.locked && s'.holder == s.holder && |s'.cpus| == |s.cpus|
    ensures forall x :: 0 <= x < |s.cpus| && x != in_.c ==> s'.cpus[x] == s.cpus[x]
    ensures Recorded(s'.cpus[in_.c].pc) && CpuOk(s'.cpus[in_.c])
  {
  }

  lemma WorkStepKeeps(s: Machine, s': Machine, in_: Input)
    requires MachineInv(s) && Step(s, s', in_) && s.cpus[in_.c].pc.Work? && !in_.create
    ensures MachineInv(s')
  {
    var c := in_.c;
    StayKeeps(s, s', in_);
    WorkLockOk(s, s', c);
    NewEnvDistinct(s, s', c);
    SameHeld(s, s', c);
    HeldSplits(s', c);
  }

  /** Every step of every CPU keeps everything. */
  lemma StepKeeps(s: Machine, s': Machine, in_: Input)
    requires MachineInv(s) && Step(s, s', in_)
    ensures MachineInv(s')
  {
    if s.cpus[in_.c].pc.Work? {
      if in_.create { CreateStepKeeps(s, s', in_); } else { WorkStepKeeps(s, s', in_); }
    } else {
      LockStepKeeps(s, s', in_);
      SameHeld(s, s', -1);
    }
  }

  // ---- Whole runs

  /** Power-up: every CPU is about to take the lock for the first time, nothing has run. */
  ghost predicate Init(s: Machine) {
    && KInv(s.k) && (forall e :: 0 <= e < NENV ==> s.k.envs[e].status == FREE)
    && !s.locked && s.holder == None && s.booting
    && forall c :: 0 <= c < |s.cpus| ==> s.cpus[c] == Cpu(TestLocked(ToWork), None, false, 0, 0)
  }

  ghost predicate Execution(run: seq<Machine>, inputs: seq<Input>) {
    && |run| == |inputs| + 1 && Init(run[0])
    && forall n :: 0 <= n < |inputs| ==> Step(run[n], run[n + 1], inputs[n])
  }

  lemma InitKeeps(s: Machine)
    requires Init(s)
    ensures MachineInv(s)
  {
    assert HeldBut(s, -1) == {};
  }

  lemma {:induction false} RunKeeps(run: seq<Machine>, inputs: seq<Input>, n: nat)
    requires Execution(run, inputs) && n < |run|
    ensures MachineInv(run[n])
  {
    if n == 0 {
      InitKeeps(run[0]);
    } else {
      RunKeeps(run, inputs, n - 1);
      StepKeeps(run[n - 1], run[n], inputs[n - 1]);
    }
  }

  /**
   Over every interleaving: at most one CPU is in kernel work, no lock panic and no
   assert(curenv) failure is reachable, and a CPU in user mode or halted has acquired and
   released the lock exactly once since it last left those modes.
   */
  lemma BigKernelLockIsSafe(run: seq<Machine>, inputs: seq<Input>, n: nat)
    requires Execution(run, inputs) && n < |run|
    ensures var cpus := run[n].cpus;
      forall a, b :: 0 <= a < |cpus| && 0 <= b < |cpus| && cpus[a].pc.Work? && cpus[b].pc.Work? ==> a == b
    ensures forall c :: 0 <= c < |run[n].cpus| ==> var me := run[n].cpus[c];
      && !me.pc.PanicAlreadyHolding? && !me.pc.PanicNotHolding? && !me.pc.PanicNoEnv?
      && (me.pc.Work? ==> me.acquired == 1 && me.released == 0 && run[n].locked && run[n].holder == Some(c))
      && (me.pc.User? || me.pc.Halted? ==> me.acquired == 1 && me.released == 1)
  {
    RunKeeps(run, inputs, n);
    var s := run[n];
    forall c: nat | c < |s.cpus| ensures CpuOk(s.cpus[c]) && (s.holder == Some(c) <==> Recorded(s.cpus[c].pc)) {
    }
    forall a, b | 0 <= a < |s.cpus| && 0 <= b < |s.cpus| && s.cpus[a].pc.Work? && s.cpus[b].pc.Work? ensures a == b {
      assert Owns(s.cpus[a].pc) && Owns(s.cpus[b].pc);
    }
  }

  ghost predicate OnSomeCpu(s: Machine, e: nat) {
    exists c :: 0 <= c < |s.cpus| && s.cpus[c].env == Some(e)
  }

  /**
   Over every interleaving: no environment is on two CPUs, an environment is RUNNING or
   DYING exactly when a CPU holds it, and it is on env_free_list exactly when it is FREE.
   */
  lemma NoEnvironmentOnTwoCpus(run: seq<Machine>, inputs: seq<Input>, n: nat)
    requires Execution(run, inputs) && n < |run|
    ensures var s := run[n];
      && s.k.Shape()
      && (forall a, b :: 0 <= a < b < |s.cpus| && s.cpus[a].env.Some? ==> s.cpus[a].env != s.cpus[b].env)
      && (forall e: nat :: e < NENV ==>
            (OnSomeCpu(s, e) <==> s.k.envs[e].status == RUNNING || s.k.envs[e].status == DYING))
      && (forall e :: 0 <= e < NENV ==> (e in s.k.envFree <==> s.k.envs[e].status == FREE))
  {
    RunKeeps(run, inputs, n);
    var s := run[n];
    forall e: nat | e < NENV
      ensures OnSomeCpu(s, e) <==> Held(s.k, e)
    {
      assert e in HeldBut(s, -1) <==> Held(s.k, e);
      if OnSomeCpu(s, e) {
        var c :| 0 <= c < |s.cpus| && s.cpus[c].env == Some(e);
        assert s.cpus[c].env.value in HeldBut(s, -1);
      }
      if e in HeldBut(s, -1) {
        var c :| 0 <= c < |s.cpus| && c != -1 && s.cpus[c].env == Some(e);
      }
    }
  }

  /**
   Reference counts are exact in every reachable state of the whole machine: a data page
   counts the user-half entries that map it over all directories, a table or a directory
   counts one and is mapped by no user-half entry, and the free list holds, once each,
   exactly the pages that nothing counts.
   */
  lemma CountsAreExact(run: seq<Machine>, inputs: seq<Input>, n: nat, f: nat)
    requires Execution(run, inputs) && n < |run| && f < run[n].k.mem.Size()
    ensures var m := run[n].k.mem;
      && m.Shape()
      && (m.role[f] != Reserved ==> (m.refs[f] == 0 <==> f in m.free))
      && (m.role[f] != Data ==> Mappers(m, f) == {})
      && (m.role[f] == Data ==> f !in m.free && m.refs[f] == |Mappers(m, f)| && m.refs[f] > 0)
      && (m.role[f].Table? || m.role[f] == Dir ==> f !in m.free && m.refs[f] == 1)
      && (forall a, b :: 0 <= a < b < |m.free| ==> m.free[a] != m.free[b])
  {
    RunKeeps(run, inputs, n);
    assert RefOk(run[n].k.mem, f, NO_PAGE);
    assert f in run[n].k.mem.free <==> run[n].k.mem.role[f] == Free;
    if run[n].k.mem.role[f] != Data { LooseIsUnmapped(run[n].k.mem, f, NO_PAGE); }
  }
}
