/** Round-robin scheduling (kern/sched.c) and the status changes of env_run (kern/env.c). */
module Sched {
  import opened Layout
  import opened PageState
  import opened PageInv
  import opened Envs
  import opened Syscalls

  /** The slot at offset `i` of the circular search. */
  function Slot(begin: nat, i: nat): (x: nat)
    ensures x < NENV
  {
    (begin + i) % 1024
  }

  predicate Runnable(k: Kernel, e: nat)
    requires k.Shape()
  {
    e < NENV && k.envs[e].status == RUNNABLE
  }

  /** The first RUNNABLE slot at or after offset `i` of the circular search from `begin`. */
  function Scan(k: Kernel, begin: nat, i: nat): (r: Option<nat>)
    requires k.Shape() && i <= NENV
    ensures r.Some? ==> r.value < NENV && k.envs[r.value].status == RUNNABLE
    decreases NENV - i, k
  {
    if i == NENV then None
    else if Runnable(k, Slot(begin, i)) then Some(Slot(begin, i))
    else Scan(k, begin, i + 1)
  }

  /** Where the search starts: just after the environment this CPU last ran. */
  function Begin(k: Kernel, cur: Option<nat>): nat
    requires k.Shape() && (cur.Some? ==> cur.value < NENV)
  {
    if cur.Some? then EnvX(k.envs[cur.value].id) + 1 else 0
  }

  datatype Choice = Run(e: nat) | Halt | NoneRunnable

  /** Something for sched_halt to wait for. */
  predicate Wakeable(k: Kernel, i: nat)
    requires k.Shape()
  {
    i < NENV && k.envs[i].status in {RUNNABLE, RUNNING, DYING}
  }

  /** sched_yield's decision; `NoneRunnable` is sched_halt's fall into the monitor. */
  function SchedYield(k: Kernel, cur: Option<nat>): (r: Choice)
    requires k.Shape() && (cur.Some? ==> cur.value < NENV)
    ensures r.Run? ==> r.e < NENV
  {
    match Scan(k, Begin(k, cur), 0)
    case Some(e) => Run(e)
    case None =>
      if cur.Some? && k.envs[cur.value].status == RUNNING then Run(cur.value)
      else SchedHalt(k)
  }

  /** sched_halt waits for a timer while anything can still run, else it drops into the monitor. */
  function SchedHalt(k: Kernel): Choice
    requires k.Shape()
  {
    if exists i: nat :: i < NENV && Wakeable(k, i) then Halt else NoneRunnable
  }

  /** env_run up to the release of the kernel lock. */
  function EnvRun(k: Kernel, cur: Option<nat>, e: nat): (r: Kernel)
    requires k.Shape() && e < NENV && (cur.Some? ==> cur.value < NENV)
    ensures r.Shape()
  {
    var envs1 := if cur.Some? && k.envs[cur.value].status == RUNNING
                 then k.envs[cur.value := k.envs[cur.value].(status := RUNNABLE)] else k.envs;
    k.(envs := envs1[e := envs1[e].(status := RUNNING)])
  }

  // ---- The search is complete and fair

  /** The search returns the RUNNABLE slot nearest to `begin` in circular order, if there is one. */
  lemma {:induction false} ScanFindsFirst(k: Kernel, begin: nat, i: nat) returns (at: nat)
    requires k.Shape() && i <= NENV
    ensures Scan(k, begin, i) == None ==> forall j: nat :: i <= j < NENV ==> !Runnable(k, Slot(begin, j))
    ensures Scan(k, begin, i).Some? ==> i <= at < NENV && FirstAt(k, begin, i, at, Scan(k, begin, i).value)
    decreases NENV - i
  {
    at := i;
    if i < NENV && !Runnable(k, Slot(begin, i)) {
      at := ScanFindsFirst(k, begin, i + 1);
      assert Scan(k, begin, i) == Scan(k, begin, i + 1);
    }
  }

  ghost predicate FirstAt(k: Kernel, begin: nat, i: nat, j: nat, e: nat)
    requires k.Shape()
  {
    e == Slot(begin, j) && Runnable(k, e) && forall h: nat :: i <= h < j ==> !Runnable(k, Slot(begin, h))
  }

  /** How many slots the search from just after `c` looks at before it reaches `e`. */
  function Distance(c: nat, e: nat): (d: nat)
    ensures d < NENV
  {
    (e + 1023 - c) % 1024
  }

  lemma OffsetOf(begin: nat, e: nat) returns (j: nat)
    requires e < NENV
    ensures j < NENV && Slot(begin, j) == e
  {
    j := (e - begin) % 1024;
  }

  lemma DistanceOf(c: nat, j: nat)
    requires c < NENV && j < NENV
    ensures Distance(c, Slot(c + 1, j)) == j
  {
    var e := Slot(c + 1, j);
    if c + 1 + j < 1024 {
      assert e == c + 1 + j;
    } else {
      assert e == c + 1 + j - 1024;
    }
  }

  /** With a RUNNABLE environment anywhere, sched_yield neither halts nor stays. */
  lemma RunnableIsFound(k: Kernel, begin: nat, e: nat)
    requires k.Shape() && Runnable(k, e)
    ensures Scan(k, begin, 0).Some?
  {
    var at := ScanFindsFirst(k, begin, 0);
    var j := OffsetOf(begin, e);
  }

  /**
   One decision: a RUNNABLE environment that is not chosen is strictly nearer to the
   chosen one than it was to the environment the CPU ran before.
   */
  lemma BypassBringsCloser(k: Kernel, c: nat, e: nat)
    requires k.Shape() && IdsOk(k) && Live(k, c) && Runnable(k, e)
    ensures SchedYield(k, Some(c)).Run?
    ensures var p := SchedYield(k, Some(c)).e; p != e ==> p < NENV && Distance(p, e) < Distance(c, e)
  {
    assert IdOk(k.envs[c].id, c);
    SplitId(k.envs[c].id / 4096, c);
    assert Begin(k, Some(c)) == c + 1;
    RunnableIsFound(k, c + 1, e);
    var j := ScanFindsFirst(k, c + 1, 0);
    var p := SchedYield(k, Some(c)).e;
    var je := OffsetOf(c + 1, e);
    DistanceOf(c, je);
    if p != e {
      assert j < je;
      NearerTarget(c, j, je);
    }
  }

  lemma NearerTarget(c: nat, j: nat, je: nat)
    requires c < NENV && j < je < NENV
    ensures Distance(Slot(c + 1, j), Slot(c + 1, je)) == je - j - 1
  {
    var p := Slot(c + 1, j);
    assert Slot(p + 1, je - j - 1) == Slot(c + 1, je);
    DistanceOf(p, je - j - 1);
  }

  /** The decisions one CPU takes: it runs `choices[n]`, then chooses `choices[n+1]` in state `states[n]`. */
  ghost predicate Decisions(states: seq<Kernel>, choices: seq<nat>) {
    && |choices| == |states| + 1
    && (forall n :: 0 <= n < |states| ==> states[n].Shape() && IdsOk(states[n]))
    && (forall n :: 0 <= n < |states| ==>
        Live(states[n], choices[n]) && SchedYield(states[n], Some(choices[n])) == Run(choices[n + 1]))
  }

  /** An environment that stays RUNNABLE is passed over fewer than NENV times. */
  lemma {:induction false} BoundedBypass(states: seq<Kernel>, choices: seq<nat>, e: nat)
    requires Decisions(states, choices) && e < NENV
    requires forall n :: 0 <= n < |states| ==> Runnable(states[n], e)
    requires forall n :: 1 <= n < |choices| ==> choices[n] != e
    ensures |states| <= Distance(choices[0], e)
  {
    if |states| > 0 {
      BypassBringsCloser(states[0], choices[0], e);
      BoundedBypass(states[1..], choices[1..], e);
    }
  }

  // ---- Who runs where

  ghost predicate Held(k: Kernel, e: nat)
    requires k.Shape()
  {
    e < NENV && (k.envs[e].status == RUNNING || k.envs[e].status == DYING)
  }

  /** The environments that are RUNNING or DYING are exactly those that some CPU holds. */
  ghost predicate HeldOk(k: Kernel, held: set<nat>)
    requires k.Shape()
  {
    forall e: nat :: e in held <==> Held(k, e)
  }

  ghost function Opt(cur: Option<nat>): set<nat> {
    if cur.Some? then {cur.value} else {}
  }

  /** In the middle of kernel work: only the working CPU's own environment may be out of step. */
  ghost predicate MidOk(k: Kernel, others: set<nat>, cur: Option<nat>)
    requires k.Shape()
  {
    && (forall e: nat :: e !in Opt(cur) ==> (e in others <==> Held(k, e)))
    && (cur.Some? ==> cur.value !in others && Live(k, cur.value) && k.envs[cur.value].status != DYING)
  }

  /** sched_yield hands this CPU an environment no other CPU holds, or none. */
  lemma YieldKeepsHeld(k: Kernel, others: set<nat>, cur: Option<nat>)
    requires KInv(k) && MidOk(k, others, cur)
    ensures match SchedYield(k, cur)
      case Run(e) => KInv(EnvRun(k, cur, e)) && e !in others && Live(k, e)
                     && HeldOk(EnvRun(k, cur, e), others + {e}) && EnvRun(k, cur, e).envs[e].status == RUNNING
      case _ => HeldOk(k, others)
  {
    match SchedYield(k, cur)
    case Run(e) => EnvRunKeepsHeld(k, others, cur, e);
    case _ =>
  }

  lemma EnvRunKeepsHeld(k: Kernel, others: set<nat>, cur: Option<nat>, e: nat)
    requires KInv(k) && MidOk(k, others, cur) && e < NENV
    requires k.envs[e].status == RUNNABLE || (cur == Some(e) && k.envs[e].status == RUNNING)
    ensures KInv(EnvRun(k, cur, e)) && e !in others && Live(k, e)
    ensures HeldOk(EnvRun(k, cur, e), others + {e}) && EnvRun(k, cur, e).envs[e].status == RUNNING
  {
    EnvRunKeeps(k, cur, e);
    EnvRunHolds(k, others, cur, e);
  }

  lemma EnvRunKeeps(k: Kernel, cur: Option<nat>, e: nat)
    requires KInv(k) && Live(k, e) && (cur.Some? ==> Live(k, cur.value))
    ensures KInv(EnvRun(k, cur, e))
  {
    var k1 := if cur.Some? && k.envs[cur.value].status == RUNNING
              then k.(envs := k.envs[cur.value := k.envs[cur.value].(status := RUNNABLE)]) else k;
    if cur.Some? && k.envs[cur.value].status == RUNNING { TouchEnvKeeps(k, k1, cur.value); }
    TouchEnvKeeps(k1, EnvRun(k, cur, e), e);
  }

  lemma EnvRunHolds(k: Kernel, others: set<nat>, cur: Option<nat>, e: nat)
    requires k.Shape() && MidOk(k, others, cur) && e < NENV
    requires k.envs[e].status == RUNNABLE || (cur == Some(e) && k.envs[e].status == RUNNING)
    ensures e !in others && HeldOk(EnvRun(k, cur, e), others + {e}) && EnvRun(k, cur, e).envs[e].status == RUNNING
  {
    assert e in others ==> Held(k, e) || e in Opt(cur);
    forall x: nat ensures x in others + {e} <==> Held(EnvRun(k, cur, e), x) {
      assert x !in Opt(cur) ==> (x in others <==> Held(k, x));
    }
  }
}
