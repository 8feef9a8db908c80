/**
 Building runs of the machine: states it can come to, one stay in the kernel after another,
 each from the trap through the lock and back (kern/trap.c, kern/spinlock.c).
 */
module Runs {
  import opened Layout
  import opened Trapframes
  import opened PageState
  import opened PageInv
  import opened Envs
  import opened Syscalls
  import opened Sched
  import opened KernelEntry
  import opened Smp

  ghost predicate EndsIn(run: seq<Machine>, inputs: seq<Input>, s: Machine) {
    Execution(run, inputs) && run[|run| - 1] == s
  }

  /** Some run from power-up comes to `s`. */
  ghost predicate Reachable(s: Machine) {
    exists run, inputs :: EndsIn(run, inputs, s)
  }

  lemma InitIsReachable(s: Machine)
    requires Init(s)
    ensures Reachable(s)
  {
    assert EndsIn([s], [], s);
  }

  lemma ReachableKeeps(s: Machine)
    requires Reachable(s)
    ensures MachineInv(s)
  {
    var run, inputs :| EndsIn(run, inputs, s);
    RunKeeps(run, inputs, |run| - 1);
  }

  lemma StepReaches(s: Machine, t: Machine, in_: Input)
    requires Reachable(s) && Step(s, t, in_)
    ensures Reachable(t)
  {
    var run, inputs :| EndsIn(run, inputs, s);
    var run', inputs' := run + [t], inputs + [in_];
    forall n | 0 <= n < |inputs'| ensures Step(run'[n], run'[n + 1], inputs'[n]) {
      if n < |inputs| { assert Step(run[n], run[n + 1], inputs[n]); }
    }
    assert EndsIn(run', inputs', t);
  }

  // ---- One stay

  function Put(s: Machine, c: nat, me: Cpu): Machine
    requires c < |s.cpus|
  {
    s.(cpus := s.cpus[c := me])
  }

  lemma PutTwice(s: Machine, c: nat, a: Cpu, b: Cpu)
    requires c < |s.cpus|
    ensures Put(Put(s, c, a), c, b) == Put(s, c, b)
  {
    assert s.cpus[c := a][c := b] == s.cpus[c := b];
  }

  /** What the step of CPU `c` is given when it does no kernel work. */
  function Idle(c: nat): Input { Input(c, NEW_ENV_TF, Quiet, false) }

  /** Nobody has the lock. */
  predicate Open(s: Machine) { !s.locked && s.holder == None }

  /** CPU `c` is in user mode, halted, or about to take the lock for the first time. */
  predicate Outside(me: Cpu) {
    || (me.pc == User && me.env.Some? && !me.halted)
    || (me.pc == Halted && me.env.None? && me.halted)
    || me == Cpu(TestLocked(ToWork), None, false, 0, 0)
  }

  /** CPU `c` has come into the kernel. */
  function Entered(s: Machine, c: nat): Machine
    requires c < |s.cpus|
  {
    Put(s, c, Cpu(Work, s.cpus[c].env, false, 1, 0)).(locked := true, holder := Some(c))
  }

  /** One step that only moves CPU `c`. */
  lemma Moves(s: Machine, c: nat, a: Cpu, b: Cpu)
    requires c < |s.cpus| && Reachable(Put(s, c, a)) && Step(Put(s, c, a), Put(s, c, b), Idle(c))
    ensures Reachable(Put(s, c, b))
  {
    StepReaches(Put(s, c, a), Put(s, c, b), Idle(c));
  }

  /** From user mode to the lock. */
  lemma Traps(s: Machine, c: nat)
    requires c < |s.cpus| && Reachable(s) && s.cpus[c].pc == User && s.cpus[c].env.Some? && !s.cpus[c].halted
    ensures Reachable(Put(s, c, Cpu(TestLocked(ToWork), s.cpus[c].env, false, 0, 0)))
  {
    var me := s.cpus[c];
    var a := Cpu(TrapStatus(true), me.env, false, 0, 0);
    var b := a.(pc := TrapMode(true));
    var d := a.(pc := TestLocked(ToWork));
    assert Put(s, c, me) == s;
    PutTwice(s, c, a, b);
    PutTwice(s, c, b, d);
    Moves(s, c, me, a);
    Moves(s, c, a, b);
    Moves(s, c, b, d);
  }

  /** The lock is free: the test of holding() and the successful xchg. */
  lemma Swaps(s: Machine, c: nat, env: Option<nat>, next: Next)
    requires c < |s.cpus| && Open(s) && Reachable(Put(s, c, Cpu(TestLocked(next), env, false, 0, 0)))
    ensures Reachable(Put(s, c, Cpu(Record(next), env, false, 1, 0)).(locked := true))
  {
    var a := Cpu(TestLocked(next), env, false, 0, 0);
    var b := a.(pc := Spin(next));
    var d := Cpu(Record(next), env, false, 1, 0);
    PutTwice(s, c, a, b);
    PutTwice(s, c, b, d);
    Moves(s, c, a, b);
    StepReaches(Put(s, c, b), Put(s, c, d).(locked := true), Idle(c));
  }

  /** lk->cpu is written, and spin_lock returns. */
  lemma Records(s: Machine, c: nat, env: Option<nat>, next: Next)
    requires c < |s.cpus| && Reachable(Put(s, c, Cpu(Record(next), env, false, 1, 0)).(locked := true))
    ensures Reachable(Put(s, c, Cpu(After(next), env, false, 1, 0)).(locked := true, holder := Some(c)))
  {
    var a := Cpu(Record(next), env, false, 1, 0);
    var b := a.(pc := After(next));
    PutTwice(s, c, a, b);
    var t := Put(s, c, b).(locked := true, holder := Some(c));
    StepReaches(Put(s, c, a).(locked := true), t, Idle(c));
  }

  lemma Locks(s: Machine, c: nat, env: Option<nat>, next: Next)
    requires c < |s.cpus| && Open(s) && Reachable(Put(s, c, Cpu(TestLocked(next), env, false, 0, 0)))
    ensures Reachable(Put(s, c, Cpu(After(next), env, false, 1, 0)).(locked := true, holder := Some(c)))
  {
    Swaps(s, c, env, next);
    Records(s, c, env, next);
  }

  /** A timer interrupt wakes a halted CPU, which takes the lock before it goes on. */
  lemma Wakes(s: Machine, c: nat)
    requires c < |s.cpus| && Reachable(s) && Open(s)
    requires s.cpus[c].pc == Halted && s.cpus[c].env.None? && s.cpus[c].halted
    ensures Reachable(Entered(s, c))
  {
    var me := s.cpus[c];
    var a := Cpu(TrapStatus(false), None, true, 0, 0);
    var b := Cpu(TestLocked(ToMode(false)), None, false, 0, 0);
    assert Put(s, c, me) == s;
    PutTwice(s, c, a, b);
    Moves(s, c, me, a);
    Moves(s, c, a, b);
    Locks(s, c, None, ToMode(false));
    GoesToWork(s, c);
  }

  /** trap() was not entered from user mode. */
  lemma GoesToWork(s: Machine, c: nat)
    requires c < |s.cpus| && s.cpus[c].env.None?
    requires Reachable(Put(s, c, Cpu(TrapMode(false), None, false, 1, 0)).(locked := true, holder := Some(c)))
    ensures Reachable(Entered(s, c))
  {
    var a := Cpu(TrapMode(false), None, false, 1, 0);
    PutTwice(s, c, a, Cpu(Work, None, false, 1, 0));
    StepReaches(Put(s, c, a).(locked := true, holder := Some(c)), Entered(s, c), Idle(c));
  }

  lemma Enters(s: Machine, c: nat)
    requires c < |s.cpus| && Reachable(s) && Open(s) && Outside(s.cpus[c])
    ensures Reachable(Entered(s, c))
  {
    if s.cpus[c].pc == Halted {
      Wakes(s, c);
    } else {
      if s.cpus[c].pc == User { Traps(s, c); } else { assert Put(s, c, s.cpus[c]) == s; }
      Locks(s, c, s.cpus[c].env, ToWork);
    }
  }

  /** CPU `c` back outside after its stay, running `cur`. */
  function Gone(s: Machine, c: nat, k: Kernel, cur: Option<nat>): Machine
    requires c < |s.cpus|
  {
    Put(s, c, Cpu(if cur.None? then Halted else User, cur, cur.None?, 1, 1)).(
      k := k, booting := s.booting && c != 0, locked := false, holder := None)
  }

  /** The lock given back. */
  lemma Leaves(s: Machine, c: nat, me: Cpu)
    requires c < |s.cpus| && me == s.cpus[c] && me.pc == RelLocked
    requires me.released == 0 && s.locked && s.holder == Some(c)
    requires Reachable(s)
    ensures Reachable(Put(s, c, me.(pc := if me.halted then Halted else User, released := 1)).(
      locked := false, holder := None))
  {
    Clears(s, c, me);
    var s3 := Put(s, c, me.(pc := RelSwap)).(holder := None);
    var out := me.(pc := if me.halted then Halted else User, released := 1);
    PutTwice(s, c, me.(pc := RelSwap), out);
    StepReaches(s3, Put(s, c, out).(locked := false, holder := None), Idle(c));
  }

  /** Up to the clearing of lk->cpu. */
  lemma Clears(s: Machine, c: nat, me: Cpu)
    requires c < |s.cpus| && me == s.cpus[c] && me.pc == RelLocked && s.locked && s.holder == Some(c)
    requires Reachable(s)
    ensures Reachable(Put(s, c, me.(pc := RelSwap)).(holder := None))
  {
    var s1 := Put(s, c, me.(pc := RelCpu));
    StepReaches(s, s1, Idle(c));
    var s2 := Put(s, c, me.(pc := RelClear));
    PutTwice(s, c, me.(pc := RelCpu), me.(pc := RelClear));
    StepReaches(s1, s2, Idle(c));
    PutTwice(s, c, me.(pc := RelClear), me.(pc := RelSwap));
    StepReaches(s2, Put(s, c, me.(pc := RelSwap)).(holder := None), Idle(c));
  }

  /** What a CPU may bring into the kernel. */
  ghost predicate Brings(k: Kernel, cur: Option<nat>, tf: Trapframe, ev: Event) {
    && Spaces(k) && (cur.Some? ==> Live(k, cur.value))
    && (cur.Some? && k.envs[cur.value].status != DYING ==>
          EventGuard(SetTf(k, cur.value, tf), cur.value, ev))
  }

  /** The kernel work of a stay, and the way out. */
  lemma Works(s: Machine, c: nat, tf: Trapframe, ev: Event, k: Kernel, cur: Option<nat>)
    requires c < |s.cpus| && Reachable(s) && s.cpus[c] == Cpu(Work, s.cpus[c].env, false, 1, 0)
    requires s.locked && s.holder == Some(c) && Brings(s.k, s.cpus[c].env, tf, ev)
    requires Body(s.k, s.cpus[c].env, tf, ev) == (k, Leave(cur))
    ensures Reachable(Gone(s, c, k, cur))
  {
    var me := s.cpus[c];
    var me' := me.(pc := RelLocked, env := cur, halted := cur.None?);
    var t := Put(s, c, me').(k := k, booting := s.booting && c != 0);
    StepReaches(s, t, Input(c, tf, ev, false));
    Leaves(t, c, me');
    PutTwice(s, c, me', Cpu(if cur.None? then Halted else User, cur, cur.None?, 1, 1));
  }

  /** One whole stay of CPU `c`. */
  lemma Stays(s: Machine, c: nat, tf: Trapframe, ev: Event, k: Kernel, cur: Option<nat>)
    requires c < |s.cpus| && Reachable(s) && Open(s) && Outside(s.cpus[c]) && Brings(s.k, s.cpus[c].env, tf, ev)
    requires Body(s.k, s.cpus[c].env, tf, ev) == (k, Leave(cur))
    ensures Reachable(Gone(s, c, k, cur))
  {
    Enters(s, c);
    var w := Entered(s, c);
    Works(w, c, tf, ev, k, cur);
    PutTwice(s, c, w.cpus[c], Cpu(if cur.None? then Halted else User, cur, cur.None?, 1, 1));
  }
}
