/** Environments and their table: struct Env, env ids, env_alloc and env_free (kern/env.c). */
module Envs {
  import opened Layout
  import opened Trapframes
  import opened PageState
  import opened PageInv
  import opened AddressSpace

  datatype Status = FREE | DYING | RUNNABLE | RUNNING | NOT_RUNNABLE

  /** The `pgdir` of a free environment is 0, the null pointer of env_free. */
  datatype Env = Env(
    id: int, parent: int, status: Status, pgdir: nat, upcall: nat, tf: Trapframe,
    recving: bool, dstva: nat, value: nat, from: int, perm: Perm)

  /** `envFree` is env_free_list in list order, as indices into envs[]. */
  datatype Kernel = Kernel(mem: Mem, envs: seq<Env>, envFree: seq<nat>)
  {
    predicate Shape() {
      mem.Shape() && |envs| == NENV && forall a :: 0 <= a < |envFree| ==> envFree[a] < NENV
    }
  }

  // ---- Environment ids

  /** ENVX(id) */
  function EnvX(id: int): (x: nat)
    ensures x < NENV
  {
    id % 1024
  }

  /** The id env_alloc gives slot `slot` when the slot's previous id was `id`. */
  function NextId(id: int, slot: nat): int {
    var g := ToInt32(id + 4096);
    var generation := g - g % 1024;
    (if generation <= 0 then 4096 else generation) + slot
  }

  /** Ids of slot `slot`: never used, or positive with the slot number in the low bits. */
  ghost predicate IdOk(id: int, slot: nat) {
    0 <= id < 0x8000_0000 && (id == 0 || (id >= 4096 && id % 4096 == slot))
  }

  const GENERATIONS: nat := 524287

  lemma SplitId(q: int, slot: nat)
    requires slot < NENV
    ensures (4096 * q + slot) / 4096 == q && (4096 * q + slot) % 4096 == slot && (4096 * q + slot) % 1024 == slot
  {
    assert 4096 * q + slot == 1024 * (4 * q) + slot;
  }

  lemma NextIdIsFresh(id: int, slot: nat)
    requires IdOk(id, slot) && slot < NENV
    ensures IdOk(NextId(id, slot), slot) && NextId(id, slot) > 0 && EnvX(NextId(id, slot)) == slot
    ensures NextId(id, slot) / 4096 == id / 4096 % GENERATIONS + 1
  {
    var q := id / 4096;
    SplitId(1, slot);
    if id == 0 {
      assert NextId(id, slot) == 4096 + slot;
    } else if q == 524287 {
      assert id + 4096 - 0x1_0000_0000 == 4096 * -524288 + slot;
      assert ToInt32(id + 4096) == 4096 * -524288 + slot;
      SplitId(-524288, slot);
    } else {
      assert id == 4096 * q + slot;
      assert id + 4096 == 4096 * (q + 1) + slot;
      SplitId(q + 1, slot);
      assert ToInt32(id + 4096) == 4096 * (q + 1) + slot;
      assert NextId(id, slot) == 4096 * (q + 1) + slot;
    }
  }

  /** The id of a slot after `n` more allocations. */
  function IdAfter(id: int, slot: nat, n: nat): int {
    if n == 0 then id else NextId(IdAfter(id, slot, n - 1), slot)
  }

  lemma {:induction false} IdAfterCounts(id: int, slot: nat, n: nat)
    requires IdOk(id, slot) && slot < NENV && n > 0
    ensures IdOk(IdAfter(id, slot, n), slot) && IdAfter(id, slot, n) > 0
    ensures IdAfter(id, slot, n) / 4096 == (id / 4096 + n - 1) % GENERATIONS + 1
  {
    var p := IdAfter(id, slot, n - 1);
    if n > 1 {
      IdAfterCounts(id, slot, n - 1);
      ModSucc(id / 4096 + n - 2);
    }
    NextIsOneOn(p, id / 4096 + n - 1, slot);
  }

  lemma NextIsOneOn(p: int, a: int, slot: nat)
    requires IdOk(p, slot) && slot < NENV && p / 4096 % GENERATIONS == a % GENERATIONS
    ensures IdOk(NextId(p, slot), slot) && NextId(p, slot) > 0 && NextId(p, slot) / 4096 == a % GENERATIONS + 1
  {
    NextIdIsFresh(p, slot);
  }

  lemma ModSucc(a: nat)
    ensures (a % GENERATIONS + 1) % GENERATIONS == (a + 1) % GENERATIONS
  {
  }

  /**
   Two ids of one slot that are fewer than 2^19-1 allocations apart differ, across the
   signed wrap; after exactly 2^19-1 allocations an id comes back.
   */
  lemma IdsRepeatOnlyAfterAllGenerations(id: int, slot: nat, n: nat)
    requires IdOk(id, slot) && slot < NENV && id > 0 && 0 < n <= GENERATIONS
    ensures IdAfter(id, slot, n) == id <==> n == GENERATIONS
  {
    IdAfterCounts(id, slot, n);
    var q, r := id / 4096, IdAfter(id, slot, n);
    assert id == 4096 * q + slot && 1 <= q <= 524287;
    assert r == 4096 * (r / 4096) + slot;
    WrapsAround(q, n);
  }

  lemma WrapsAround(q: nat, n: nat)
    requires 1 <= q <= GENERATIONS && 0 < n <= GENERATIONS
    ensures (q + n - 1) % GENERATIONS + 1 == q <==> n == GENERATIONS
  {
    if q + n - 1 >= GENERATIONS {
      assert (q + n - 1) % GENERATIONS == q + n - 1 - GENERATIONS;
    } else {
      assert (q + n - 1) % GENERATIONS == q + n - 1;
    }
  }

  // ---- envid2env

  /** envid2env: `None` stands for -E_BAD_ENV. */
  function Envid2Env(k: Kernel, cur: nat, envid: int, checkperm: bool): (r: Option<nat>)
    requires k.Shape() && cur < NENV
    ensures r.Some? ==> r.value < NENV
  {
    if envid == 0 then Some(cur)
    else
      var e := EnvX(envid);
      if k.envs[e].status == FREE || k.envs[e].id != envid then None
      else if checkperm && e != cur && k.envs[e].parent != k.envs[cur].id then None
      else Some(e)
  }

  // ---- env_alloc and env_free

  function NewEnv(e: Env, slot: nat, parent: int, pgdir: nat): Env {
    e.(id := NextId(e.id, slot), parent := parent, status := RUNNABLE, pgdir := pgdir,
       upcall := 0, tf := NEW_ENV_TF, recving := false)
  }

  /** env_alloc: the new slot, or the negative error code. */
  function EnvAlloc(k: Kernel, parent: int): (r: (Kernel, int, nat))
    requires k.Shape()
    ensures r.0.Shape() && r.2 < NENV
  {
    if k.envFree == [] then (k, -E_NO_FREE_ENV, 0)
    else
      var e := k.envFree[0];
      var (mem, dir) := EnvSetupVm(k.mem);
      if dir.None? then (k.(mem := mem), -E_NO_MEM, 0)
      else (Kernel(mem, k.envs[e := NewEnv(k.envs[e], e, parent, dir.value)], k.envFree[1..]), 0, e)
  }

  function EnvFree(k: Kernel, e: nat): (r: Kernel)
    requires k.Shape() && e < NENV && k.envs[e].pgdir < k.mem.Size()
    ensures r.Shape()
  {
    Kernel(FreeSpace(k.mem, k.envs[e].pgdir),
           k.envs[e := k.envs[e].(pgdir := 0, status := FREE)],
           [e] + k.envFree)
  }

  // ---- The kernel invariant

  ghost predicate Live(k: Kernel, e: nat) {
    e < |k.envs| && k.envs[e].status != FREE
  }

  /** The environment free list is duplicate-free and holds exactly the FREE slots. */
  ghost predicate EnvListOk(k: Kernel)
    requires k.Shape()
  {
    && (forall a, b :: 0 <= a < b < |k.envFree| ==> k.envFree[a] != k.envFree[b])
    && (forall e :: 0 <= e < NENV ==> (e in k.envFree <==> k.envs[e].status == FREE))
  }

  /** Live environments and page directories correspond one to one. */
  ghost predicate SpacesOk(k: Kernel)
    requires k.Shape()
  {
    && (forall e: nat :: Live(k, e) ==> IsDir(k.mem, k.envs[e].pgdir))
    && (forall e: nat, e': nat :: Live(k, e) && Live(k, e') && k.envs[e].pgdir == k.envs[e'].pgdir ==> e == e')
    && (forall d: nat :: IsDir(k.mem, d) ==> exists e: nat :: Live(k, e) && k.envs[e].pgdir == d)
  }

  ghost predicate IdsOk(k: Kernel)
    requires k.Shape()
  {
    forall e :: 0 <= e < NENV ==> IdOk(k.envs[e].id, e) && (Live(k, e) ==> k.envs[e].id > 0)
  }

  ghost predicate KInv(k: Kernel) {
    k.Shape() && Inv(k.mem, NO_PAGE) && NoLoose(k.mem) && EnvListOk(k) && SpacesOk(k) && IdsOk(k)
  }

  lemma IdNamesSlot(k: Kernel, e: nat)
    requires KInv(k) && Live(k, e)
    ensures EnvX(k.envs[e].id) == e && k.envs[e].id != 0
  {
    assert IdOk(k.envs[e].id, e);
    SplitId(k.envs[e].id / 4096, e);
  }

  /**
   Whom an id names: 0 the caller; any other number the live environment with that id, whom, when
   permission is asked for, only the environment itself and its parent may name.
   */
  lemma Envid2EnvFinds(k: Kernel, cur: nat, envid: int, checkperm: bool, e: nat)
    requires KInv(k) && Live(k, cur)
    ensures Envid2Env(k, cur, envid, checkperm) == Some(e) <==>
      && e < NENV
      && if envid == 0 then e == cur
         else k.envs[e].status != FREE && k.envs[e].id == envid
              && (checkperm ==> e == cur || k.envs[e].parent == k.envs[cur].id)
  {
    if e < NENV && k.envs[e].status != FREE { IdNamesSlot(k, e); }
  }

  /** `envid2env` rejects the id of a dead environment until its slot has gone through every generation. */
  lemma StaleIdIsRejected(k: Kernel, cur: nat, slot: nat, dead: int, n: nat, checkperm: bool)
    requires k.Shape() && cur < NENV && slot < NENV && dead > 0 && IdOk(dead, slot) && n < GENERATIONS
    requires k.envs[slot].id == IdAfter(dead, slot, n)
    requires n == 0 ==> k.envs[slot].status == FREE
    ensures Envid2Env(k, cur, dead, checkperm) == None
  {
    SplitId(dead / 4096, slot);
    assert EnvX(dead) == slot;
    if n > 0 { IdsRepeatOnlyAfterAllGenerations(dead, slot, n); }
  }

  /** Error returns change nothing; success makes exactly one FREE slot live with an empty space. */
  lemma EnvAllocKeeps(k: Kernel, parent: int)
    requires KInv(k)
    ensures var (k', r, e) := EnvAlloc(k, parent);
      && KInv(k')
      && (r == 0 || r == -E_NO_FREE_ENV || r == -E_NO_MEM)
      && (r != 0 ==> k' == k)
      && (r == -E_NO_FREE_ENV <==> k.envFree == [])
      && (r == -E_NO_MEM <==> k.envFree != [] && k.mem.free == [])
      && (r == 0 ==>
            && k.envs[e].status == FREE && SameFlat(k.mem, k'.mem)
            && k'.envs == k.envs[e := NewEnv(k.envs[e], e, parent, k'.envs[e].pgdir)]
            && k'.envFree == k.envFree[1..]
            && (forall i, j :: At(k'.mem, Key(k'.envs[e].pgdir, i, j)) == None)
            && (forall f :: 0 <= f < k.mem.Size() && k.mem.role[f] in {Data, Loose} ==>
                k'.mem.words[f] == k.mem.words[f]))
  {
    EnvSetupVmKeeps(k.mem);
    var (k', r, e) := EnvAlloc(k, parent);
    if r == 0 {
      assert e in k.envFree;
      assert k.envFree == [e] + k'.envFree;
      NextIdIsFresh(k.envs[e].id, e);
      NewSpaceOk(k, k', e);
    }
  }

  /** The new environment's record: the first free slot, its next id, clean registers, no upcall, not receiving. */
  lemma EnvAllocStores(k: Kernel, parent: int)
    requires KInv(k) && EnvAlloc(k, parent).1 == 0
    ensures var (k', _, e) := EnvAlloc(k, parent);
      && k.envFree != [] && e == k.envFree[0]
      && k'.envs[e] == k.envs[e].(
           id := k'.envs[e].id, parent := parent, status := RUNNABLE, pgdir := k'.envs[e].pgdir, upcall := 0,
           tf := Trapframe(Regs(0, 0, 0, 0, 0, 0, 0, 0), 0, 0, 0x200, 0xEEBF_E000), recving := false)
      && k'.envs[e].id % 1024 == e && k'.envs[e].id / 4096 == k.envs[e].id / 4096 % 524287 + 1
  {
    var e := EnvAlloc(k, parent).2;
    assert e in k.envFree;
    NextIdIsFresh(k.envs[e].id, e);
  }

  lemma NewSpaceOk(k: Kernel, k': Kernel, e: nat)
    requires k.Shape() && k'.Shape() && SpacesOk(k) && e < NENV && k.envs[e].status == FREE
    requires k'.envs == k.envs[e := k'.envs[e]] && k'.envs[e].status != FREE
    requires forall d: nat :: IsDir(k'.mem, d) <==> d == k'.envs[e].pgdir || IsDir(k.mem, d)
    requires !IsDir(k.mem, k'.envs[e].pgdir)
    ensures SpacesOk(k')
  {
    forall d: nat | IsDir(k'.mem, d) ensures exists x: nat :: Live(k', x) && k'.envs[x].pgdir == d {
      if d == k'.envs[e].pgdir {
        assert Live(k', e);
      } else {
        var x: nat :| Live(k, x) && k.envs[x].pgdir == d;
        assert Live(k', x);
      }
    }
    forall x: nat, y: nat | Live(k', x) && Live(k', y) && k'.envs[x].pgdir == k'.envs[y].pgdir ensures x == y {
      if x != e { assert Live(k, x); }
      if y != e { assert Live(k, y); }
    }
  }

  /** Teardown of a live environment: its slot becomes FREE, its space disappears. */
  lemma EnvFreeKeeps(k: Kernel, e: nat)
    requires KInv(k) && Live(k, e)
    ensures var k' := EnvFree(k, e); var d := k.envs[e].pgdir;
      && KInv(k') && k'.envs == k.envs[e := k.envs[e].(pgdir := 0, status := FREE)] && k'.envFree == [e] + k.envFree
      && !Live(k', e) && (forall x: nat :: x != e ==> (Live(k', x) <==> Live(k, x)))
      && (forall key :: At(k'.mem, key) == if key.d == d then None else At(k.mem, key))
      && (forall f :: 0 <= f < k.mem.Size() && k'.mem.role[f] == Data ==> k'.mem.words[f] == k.mem.words[f])
  {
    var d := k.envs[e].pgdir;
    FreeSpaceKeeps(k.mem, d);
    FreeSpaceBytes(k.mem, d);
    FreedRoles(k.mem, FreeSpace(k.mem, d), d);
    FreedEnvOk(k, EnvFree(k, e), e);
  }

  lemma FreedRoles(m: Mem, m': Mem, d: nat)
    requires m.Shape() && m'.Shape() && NoLoose(m) && OnlyFreed(m, m', d)
    ensures NoLoose(m')
  {
    forall f | 0 <= f < m.Size() ensures m'.role[f] != Loose {
      assert RoleFreed(m, m', d, f);
    }
  }

  lemma FreedEnvOk(k: Kernel, k': Kernel, e: nat)
    requires k.Shape() && k'.Shape() && EnvListOk(k) && SpacesOk(k) && IdsOk(k) && Live(k, e)
    requires k'.envs == k.envs[e := k.envs[e].(pgdir := 0, status := FREE)] && k'.envFree == [e] + k.envFree
    requires forall d: nat :: IsDir(k'.mem, d) <==> IsDir(k.mem, d) && d != k.envs[e].pgdir
    ensures EnvListOk(k') && SpacesOk(k') && IdsOk(k')
    ensures !Live(k', e) && forall x: nat :: x != e ==> (Live(k', x) <==> Live(k, x))
  {
    assert EnvListOk(k') by {
      assert forall x :: 0 <= x < NENV ==> (x in k'.envFree <==> x == e || x in k.envFree);
    }
    FreedSpaceOk(k, k', e);
  }

  lemma FreedSpaceOk(k: Kernel, k': Kernel, e: nat)
    requires k.Shape() && k'.Shape() && SpacesOk(k) && Live(k, e)
    requires k'.envs == k.envs[e := k.envs[e].(pgdir := 0, status := FREE)]
    requires forall d: nat :: IsDir(k'.mem, d) <==> IsDir(k.mem, d) && d != k.envs[e].pgdir
    ensures SpacesOk(k')
  {
    forall x: nat | IsDir(k'.mem, x) ensures exists y: nat :: Live(k', y) && k'.envs[y].pgdir == x {
      var y: nat :| Live(k, y) && k.envs[y].pgdir == x;
      assert Live(k', y);
    }
    forall x: nat, y: nat | Live(k', x) && Live(k', y) && k'.envs[x].pgdir == k'.envs[y].pgdir ensures x == y {
      assert Live(k, x) && Live(k, y);
    }
    forall x: nat | Live(k', x) ensures IsDir(k'.mem, k'.envs[x].pgdir) {
      assert Live(k, x) && Live(k, e);
    }
  }
}
