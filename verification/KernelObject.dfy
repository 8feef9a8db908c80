/**
 The kernel's tables as kern/env.c, kern/syscall.c and kern/sched.c keep and change them:
 the envs[] array with its intrusive free list, over the page arrays of PhysMem.dfy. Every
 method is proved against the function on Kernel values that the invariants are stated about.
 */
module KernelObject {
  import opened Layout
  import opened Trapframes
  import opened PageState
  import opened PageInv
  import opened FreeList
  import opened Boot
  import opened PhysMem
  import opened Envs
  import opened Syscalls
  import opened Sched

  /** An entry of envs[] after env_init; envs[] was zeroed when mem_init allocated it. */
  const FIRST_ENV: Env :=
    Env(0, 0, FREE, 0, 0, Trapframe(Regs(0, 0, 0, 0, 0, 0, 0, 0), 0, 0, 0, 0), false, 0, 0, 0, NO_PERM)

  /** Slots `i` up to the last, in order. */
  function SlotsFrom(i: nat): (s: seq<nat>)
    requires i <= NENV
    ensures |s| == NENV - i && forall a :: 0 <= a < |s| ==> s[a] == i + a
  {
    seq(1024 - i, a requires 0 <= a => i + a)
  }

  lemma SlotPushed(link: seq<int>, head: int, i: nat)
    requires i < NENV == |link| && Segment(link, head, SlotsFrom(i + 1), NULL)
    ensures Segment(link[i := head], i, SlotsFrom(i), NULL)
  {
    var s, t, link' := SlotsFrom(i), SlotsFrom(i + 1), link[i := head];
    assert forall a :: 0 <= a < |t| ==> t[a] == s[a + 1] && t[a] != i;
    forall a | 0 <= a < |s| - 1 ensures link'[s[a]] == s[a + 1] {
      if a > 0 { assert link[t[a - 1]] == t[a]; }
    }
  }

  ghost function BootKernel(m: Mem): Kernel {
    Kernel(m, seq(1024, _ => FIRST_ENV), SlotsFrom(0))
  }

  /** After page_init and env_init the kernel invariant holds and every slot is free. */
  lemma BootKernelOk(m: Mem)
    requires Inv(m, NO_PAGE) && NoDirs(m) && NoLoose(m)
    ensures KInv(BootKernel(m)) && BootKernel(m).mem == m && |BootKernel(m).envFree| == 1024
    ensures forall e :: 0 <= e < 1024 ==>
      BootKernel(m).envs[e].status == FREE && BootKernel(m).envs[e].id == 0 && BootKernel(m).envFree[e] == e
  {
    var k := BootKernel(m);
    forall e | 0 <= e < NENV ensures e in k.envFree {
      assert k.envFree[e] == e;
    }
  }

  /** A live slot goes to the front of the environment free list. */
  lemma FreeSlotPushed(k: Kernel, link: seq<int>, head: int, e: nat)
    requires KInv(k) && Live(k, e) && |link| == NENV && Segment(link, head, k.envFree, NULL)
    ensures Segment(link[e := head], e, [e] + k.envFree, NULL) && NoDuplicates([e] + k.envFree)
  {
    var s, t, link' := [e] + k.envFree, k.envFree, link[e := head];
    assert e !in t;
    forall a | 0 <= a < |s| - 1 ensures link'[s[a]] == s[a + 1] {
      if a > 0 { assert link[t[a - 1]] == t[a] && t[a - 1] != e; }
    }
    if t != [] { assert t[|t| - 1] != e; }
  }

  lemma UserKeyOk(k: Kernel, e: nat, va: nat)
    requires KInv(k) && Live(k, e) && va < UTOP
    ensures UserKey(k.mem, KeyOf(k, e, va))
  {
    UserVa(va);
  }

  /** What sys_page_alloc needs: the fresh page can be inserted, and given back when that fails. */
  lemma FreshPageInserts(k: Kernel, e: nat, va: nat, perm: Perm)
    requires KInv(k) && Live(k, e) && va < UTOP && perm.other < PGSIZE
    ensures var (m1, page) := PageState.PageAlloc(k.mem, true);
      page.Some? ==>
        && InsertOk(m1, k.envs[e].pgdir, page.value, Pdx(va), Ptx(va))
        && var (m2, ok) := PageState.PageInsert(m1, k.envs[e].pgdir, page.value, Pdx(va), Ptx(va), perm);
        !ok ==> m2.refs[page.value] == 0 && page.value !in m2.free
  {
    UserKeyOk(k, e, va);
    PageAllocKeeps(k.mem, true, NO_PAGE);
    var (m1, page) := PageState.PageAlloc(k.mem, true);
    if page.Some? {
      assert RefOk(m1, page.value, NO_PAGE);
      InvInsertOk(m1, KeyOf(k, e, va), page.value);
      PageInsertKeeps(m1, KeyOf(k, e, va), page.value, perm);
    }
  }

  /** What sys_page_map and sys_ipc_try_send need: the source entry can be read and its page inserted. */
  lemma MappedPageInserts(k: Kernel, src: nat, srcva: nat, dst: nat, dstva: nat)
    requires KInv(k) && Live(k, src) && Live(k, dst) && srcva < UTOP && dstva < UTOP && SourceRoom(k, src, srcva)
    ensures LookupOk(k.mem, k.envs[src].pgdir, Pdx(srcva), Ptx(srcva))
    ensures var w := PageState.PageLookup(k.mem, k.envs[src].pgdir, Pdx(srcva), Ptx(srcva));
      w.Some? ==>
        w.value.frame < k.mem.Size()
        && InsertOk(k.mem, k.envs[dst].pgdir, w.value.frame, Pdx(dstva), Ptx(dstva))
  {
    UserKeyOk(k, src, srcva);
    UserKeyOk(k, dst, dstva);
    InvRemoveOk(k.mem, KeyOf(k, src, srcva), NO_PAGE);
    var w := PageState.PageLookup(k.mem, k.envs[src].pgdir, Pdx(srcva), Ptx(srcva));
    if w.Some? {
      AtIsUnique(k.mem, KeyOf(k, src, srcva), w.value);
      assert RefRoom(k.mem, w.value.frame);
      InvInsertOk(k.mem, KeyOf(k, dst, dstva), w.value.frame);
    }
  }

  /** A pointer to an environment as an option. */
  function Current(cur: int): Option<nat> { if cur < 0 then None else Some(cur) }

  class Tables {
    const mem: PhysicalMemory
    const envs: array<Env>
    /** env_link */
    const links: array<int>
    /** env_free_list */
    var freeHead: int

    ghost var k: Kernel

    ghost predicate Valid()
      reads this, mem, mem.link, mem.refs, mem.pages, envs, links
    {
      && mem.Valid() && links != mem.link && links != mem.refs
      && envs.Length == links.Length == NENV
      && k.Shape() && k.mem == mem.m && k.envs == envs[..]
      && Segment(links[..], freeHead, k.envFree, NULL) && NoDuplicates(k.envFree)
    }

    /** env_init */
    constructor (memory: PhysicalMemory)
      requires memory.Valid()
      ensures Valid() && k == BootKernel(memory.m) && mem == memory && fresh(envs) && fresh(links)
    {
      mem := memory;
      envs := new Env[1024](_ => FIRST_ENV);
      links := new int[1024](_ => NULL);
      freeHead := NULL;
      k := BootKernel(memory.m);
      new;
      EnvInit();
      assert envs[..] == k.envs;
    }

    method EnvInit()
      requires envs.Length == links.Length == NENV
      modifies this`freeHead, envs, links
      ensures forall e :: 0 <= e < NENV ==> envs[e] == old(envs[e]).(id := 0, status := FREE)
      ensures Segment(links[..], freeHead, SlotsFrom(0), NULL)
    {
      freeHead := NULL;
      var i := NENV - 1;
      while i >= 0
        invariant -1 <= i < NENV
        invariant forall e :: 0 <= e <= i ==> envs[e] == old(envs[e])
        invariant forall e :: i < e < NENV ==> envs[e] == old(envs[e]).(id := 0, status := FREE)
        invariant Segment(links[..], freeHead, SlotsFrom(i + 1), NULL)
      {
        SlotPushed(links[..], freeHead, i);
        envs[i] := envs[i].(id := 0, status := FREE);
        links[i] := freeHead;
        freeHead := i;
        i := i - 1;
      }
    }

    /** Replace one record of envs[]. */
    method PutEnv(e: nat, env: Env)
      requires Valid() && e < NENV
      modifies this`k, envs
      ensures Valid() && k == old(k).(envs := old(k).envs[e := env])
    {
      envs[e] := env;
      k := k.(envs := k.envs[e := env]);
    }

    method Envid2Env(cur: nat, envid: int, checkperm: bool) returns (e: int)
      requires Valid() && cur < NENV
      ensures e == match Envs.Envid2Env(k, cur, envid, checkperm) case None => NULL case Some(x) => x
    {
      if envid == 0 { return cur; }
      e := EnvX(envid);
      if envs[e].status == FREE || envs[e].id != envid { return NULL; }
      if checkperm && e != cur && envs[e].parent != envs[cur].id { return NULL; }
    }

    // ---- env.c

    /** 0 and the new slot, or the error. */
    method EnvAlloc(parent: int) returns (r: int, e: nat)
      requires Valid()
      modifies this`k, this`freeHead, mem`freeHead, mem`m, mem.link, mem.refs, mem.pages, envs
      ensures Valid() && (k, r, e) == Envs.EnvAlloc(old(k), parent)
    {
      if freeHead == NULL { return -E_NO_FREE_ENV, 0; }
      e := freeHead;
      var d := mem.EnvSetupVm();
      k := k.(mem := mem.m);
      if d == NULL { return -E_NO_MEM, 0; }
      CommitEnv(e, parent, d);
      r := 0;
    }

    /** The fields of the new environment, and its slot off the list. */
    method CommitEnv(e: nat, parent: int, d: nat)
      requires Valid() && freeHead == e && e < NENV
      modifies this`k, this`freeHead, envs
      ensures Valid() && mem.m == old(mem.m) && freeHead == old(links[e])
      ensures old(k).envFree != []
      ensures k == Kernel(old(k).mem, old(k).envs[e := NewEnv(old(k).envs[e], e, parent, d)], old(k).envFree[1..])
    {
      PutEnv(e, NewEnv(envs[e], e, parent, d));
      TakeSlot();
    }

    /** Commit the allocation: the first free slot leaves the list. */
    method TakeSlot()
      requires Valid() && k.envFree != []
      modifies this`k, this`freeHead
      ensures Valid() && k == old(k).(envFree := old(k).envFree[1..])
    {
      freeHead := links[freeHead];
      k := k.(envFree := k.envFree[1..]);
    }

    method EnvFree(e: nat)
      requires Valid() && KInv(k) && Live(k, e)
      modifies this`k, this`freeHead, mem`freeHead, mem`m, mem.link, mem.refs, mem.pages, envs, links
      ensures Valid() && k == Envs.EnvFree(old(k), e)
    {
      FreeSlotPushed(k, links[..], freeHead, e);
      mem.FreeSpace(envs[e].pgdir);
      k := k.(mem := mem.m);
      PutEnv(e, envs[e].(pgdir := 0, status := FREE));
      links[e] := freeHead;
      freeHead := e;
      k := k.(envFree := [e] + k.envFree);
    }

    /** Up to the point where an environment that destroyed itself enters the scheduler. */
    method EnvDestroy(cur: nat, e: nat)
      requires Valid() && KInv(k) && Live(k, cur) && Live(k, e)
      modifies this`k, this`freeHead, mem`freeHead, mem`m, mem.link, mem.refs, mem.pages, envs, links
      ensures Spaces(old(k))
      ensures Valid() && k == Syscalls.EnvDestroy(old(k), cur, e)
    {
      KInvSpaces(k);
      if envs[e].status == RUNNING && cur != e {
        PutEnv(e, envs[e].(status := DYING));
      } else {
        EnvFree(e);
      }
    }

    // ---- Page operations on an environment's directory

    method AllocPage() returns (page: int)
      requires Valid()
      modifies this`k, mem`freeHead, mem`m, mem.link, mem.pages
      ensures Valid() && k == old(k).(mem := PageState.PageAlloc(old(k.mem), true).0)
      ensures page == match PageState.PageAlloc(old(k.mem), true).1 case None => NULL case Some(f) => f
    {
      page := mem.PageAlloc(true);
      k := k.(mem := mem.m);
    }

    method FreePage(page: nat)
      requires Valid() && page < k.mem.Size() && k.mem.refs[page] == 0 && page !in k.mem.free
      modifies this`k, mem`freeHead, mem`m, mem.link
      ensures Valid() && k == old(k).(mem := PageState.PageFree(old(k.mem), page))
    {
      mem.PageFree(page);
      k := k.(mem := mem.m);
    }

    method InsertPage(d: nat, page: nat, va: nat, perm: Perm) returns (r: int)
      requires Valid() && InsertOk(k.mem, d, page, Pdx(va), Ptx(va))
      modifies this`k, mem`freeHead, mem`m, mem.link, mem.refs, mem.pages
      ensures Valid() && k == old(k).(mem := PageState.PageInsert(old(k.mem), d, page, Pdx(va), Ptx(va), perm).0)
      ensures r == if PageState.PageInsert(old(k.mem), d, page, Pdx(va), Ptx(va), perm).1 then 0 else -E_NO_MEM
    {
      r := mem.PageInsert(d, page, Pdx(va), Ptx(va), perm);
      k := k.(mem := mem.m);
    }

    /** The looked-up entry itself, or None when no page is mapped. */
    method LookUp(d: nat, va: nat) returns (pte: Option<Word>)
      requires Valid() && LookupOk(k.mem, d, Pdx(va), Ptx(va))
      modifies mem`freeHead, mem`m, mem.link, mem.refs, mem.pages
      ensures Valid() && pte == PageState.PageLookup(k.mem, d, Pdx(va), Ptx(va))
    {
      var pp, t := mem.PageLookup(d, Pdx(va), Ptx(va));
      pte := if pp == NULL then None else Some(mem.pages[t][Ptx(va)]);
    }

    method RemovePage(d: nat, va: nat)
      requires Valid() && RemoveOk(k.mem, d, Pdx(va), Ptx(va))
      modifies this`k, mem`freeHead, mem`m, mem.link, mem.refs, mem.pages
      ensures Valid() && k == old(k).(mem := PageState.PageRemove(old(k.mem), d, Pdx(va), Ptx(va)))
    {
      mem.PageRemove(d, Pdx(va), Ptx(va));
      k := k.(mem := mem.m);
    }

    // ---- syscall.c

    method SysExofork(cur: nat) returns (r: int)
      requires Valid() && KInv(k) && Live(k, cur)
      modifies this`k, this`freeHead, mem`freeHead, mem`m, mem.link, mem.refs, mem.pages, envs
      ensures Valid() && (k, r) == Syscalls.SysExofork(old(k), cur)
    {
      var iret, e := EnvAlloc(envs[cur].id);
      if iret < 0 { return iret; }
      assert e in old(k.envFree) && e != cur;
      PutEnv(e, envs[e].(status := NOT_RUNNABLE, tf := WithEax(envs[cur].tf, 0)));
      r := envs[e].id;
    }

    method SysEnvSetStatus(cur: nat, envid: int, status: Status) returns (r: int)
      requires Valid() && cur < NENV
      modifies this`k, envs
      ensures Valid() && (k, r) == Syscalls.SysEnvSetStatus(old(k), cur, envid, status)
    {
      if status != RUNNABLE && status != NOT_RUNNABLE { return -E_INVAL; }
      var e := Envid2Env(cur, envid, true);
      if e == NULL { return -E_BAD_ENV; }
      PutEnv(e, envs[e].(status := status));
      r := 0;
    }

    method SysEnvSetPgfaultUpcall(cur: nat, envid: int, upcall: nat) returns (r: int)
      requires Valid() && cur < NENV
      modifies this`k, envs
      ensures Valid() && (k, r) == Syscalls.SysEnvSetPgfaultUpcall(old(k), cur, envid, upcall)
    {
      var e := Envid2Env(cur, envid, true);
      if e == NULL { return -E_BAD_ENV; }
      PutEnv(e, envs[e].(upcall := upcall));
      r := 0;
    }

    method SysPageAlloc(cur: nat, envid: int, va: nat, perm: Perm) returns (r: int)
      requires Valid() && KInv(k) && Live(k, cur)
      modifies this`k, mem`freeHead, mem`m, mem.link, mem.refs, mem.pages
      ensures Spaces(old(k))
      ensures Valid() && (k, r) == Syscalls.SysPageAlloc(old(k), cur, envid, va, perm)
    {
      KInvSpaces(k);
      var e := Envid2Env(cur, envid, true);
      if e == NULL { return -E_BAD_ENV; }
      if BadVa(va) || BadPerm(perm) { return -E_INVAL; }
      r := AllocPageAt(e, va, perm);
    }

    /** With the environment and all arguments looked at. */
    method AllocPageAt(e: nat, va: nat, perm: Perm) returns (r: int)
      requires Valid() && KInv(k) && Live(k, e) && !BadVa(va) && !BadPerm(perm)
      modifies this`k, mem`freeHead, mem`m, mem.link, mem.refs, mem.pages
      ensures Spaces(old(k))
      ensures Valid() && (k, r) == Syscalls.AllocPage(old(k), e, va, perm)
    {
      KInvSpaces(k);
      FreshPageInserts(k, e, va, perm);
      var page := AllocPage();
      if page == NULL { return -E_INVAL; }
      r := InsertPage(envs[e].pgdir, page, va, perm);
      if r < 0 {
        FreePage(page);
        r := -E_NO_MEM;
      }
    }

    method SysPageMap(cur: nat, srcid: int, srcva: nat, dstid: int, dstva: nat, perm: Perm) returns (r: int)
      requires Valid() && KInv(k) && Live(k, cur) && MapRoom(k, cur, srcid, srcva)
      modifies this`k, mem`freeHead, mem`m, mem.link, mem.refs, mem.pages
      ensures Spaces(old(k))
      ensures Valid() && (k, r) == Syscalls.SysPageMap(old(k), cur, srcid, srcva, dstid, dstva, perm)
    {
      KInvSpaces(k);
      var src := Envid2Env(cur, srcid, true);
      if src == NULL { return -E_BAD_ENV; }
      var dst := Envid2Env(cur, dstid, true);
      if dst == NULL { return -E_BAD_ENV; }
      if BadVa(srcva) || BadVa(dstva) { return -E_INVAL; }
      if BadPerm(perm) { return -E_INVAL; }
      r := MapPage(src, srcva, dst, dstva, perm);
    }

    /** With both environments and all arguments looked at. */
    method MapPage(src: nat, srcva: nat, dst: nat, dstva: nat, perm: Perm) returns (r: int)
      requires Valid() && KInv(k) && Live(k, src) && Live(k, dst) && !BadVa(srcva) && !BadVa(dstva) && !BadPerm(perm)
      requires SourceRoom(k, src, srcva)
      modifies this`k, mem`freeHead, mem`m, mem.link, mem.refs, mem.pages
      ensures Spaces(old(k))
      ensures Valid() && (k, r) == Syscalls.MapPage(old(k), src, srcva, dst, dstva, perm)
    {
      KInvSpaces(k);
      MappedPageInserts(k, src, srcva, dst, dstva);
      var pte := LookUp(envs[src].pgdir, srcva);
      if pte.None? || (!pte.value.perm.w && perm.w) { return -E_INVAL; }
      r := InsertPage(envs[dst].pgdir, pte.value.frame, dstva, perm);
      if r < 0 { r := -E_INVAL; }
    }

    method SysPageUnmap(cur: nat, envid: int, va: nat) returns (r: int)
      requires Valid() && KInv(k) && Live(k, cur)
      modifies this`k, mem`freeHead, mem`m, mem.link, mem.refs, mem.pages
      ensures Spaces(old(k))
      ensures Valid() && (k, r) == Syscalls.SysPageUnmap(old(k), cur, envid, va)
    {
      KInvSpaces(k);
      var e := Envid2Env(cur, envid, true);
      if e == NULL { return -E_BAD_ENV; }
      if BadVa(va) { return -E_INVAL; }
      UserKeyOk(k, e, va);
      InvRemoveOk(k.mem, KeyOf(k, e, va), NO_PAGE);
      RemovePage(envs[e].pgdir, va);
      r := 0;
    }

    method SysIpcTrySend(cur: nat, envid: int, value: nat, srcva: nat, perm: Perm) returns (r: int)
      requires Valid() && KInv(k) && Live(k, cur) && SendGuard(k, cur, envid, srcva, perm)
      modifies this`k, mem`freeHead, mem`m, mem.link, mem.refs, mem.pages, envs
      ensures Spaces(old(k))
      ensures Valid() && (k, r) == Syscalls.SysIpcTrySend(old(k), cur, envid, value, srcva, perm)
    {
      KInvSpaces(k);
      var e := Envid2Env(cur, envid, false);
      if e == NULL { return -E_BAD_ENV; }
      if !envs[e].recving { return -E_IPC_NOT_RECV; }
      var sent: Option<Perm> := None;
      if srcva < UTOP {
        r, sent := SendPage(cur, e, srcva, perm);
        if r < 0 { return; }
      }
      PutEnv(e, Delivered(envs[e], envs[cur].id, value, sent));
      r := 0;
    }

    /** The page half of a send: the checks on the sender's page, and its mapping if the receiver wants it. */
    method SendPage(cur: nat, e: nat, srcva: nat, perm: Perm) returns (r: int, sent: Option<Perm>)
      requires Valid() && KInv(k) && Live(k, cur) && Live(k, e) && srcva < UTOP
      requires k.envs[e].dstva < UTOP ==> SourceRoom(k, cur, srcva)
      requires PgOff(srcva) == 0 ==> HasSpace(k, cur) && PteSet(k, cur, srcva)
      modifies this`k, mem`freeHead, mem`m, mem.link, mem.refs, mem.pages
      ensures Valid() && k == old(k).(mem := k.mem)
      ensures Spaces(old(k)) && (k.mem, r, sent) == PageSend(old(k), cur, e, srcva, perm)
    {
      KInvSpaces(k);
      UserKeyOk(k, cur, srcva);
      InvRemoveOk(k.mem, KeyOf(k, cur, srcva), NO_PAGE);
      var pte := LookUp(envs[cur].pgdir, srcva);
      if PgOff(srcva) != 0 { return -E_INVAL, None; }
      if !Covers(pte.value.perm, perm) { return -E_INVAL, None; }
      if perm.w && !pte.value.perm.w { return -E_INVAL, None; }
      var dstva := envs[e].dstva;
      if dstva >= UTOP { return 0, None; }
      MappedPageInserts(k, cur, srcva, e, dstva);
      r := InsertPage(envs[e].pgdir, pte.value.frame, dstva, perm);
      sent := if r < 0 then None else Some(perm);
    }

    /** Up to the call of sched_yield. */
    method SysIpcRecv(cur: nat, dstva: nat) returns (r: int)
      requires Valid() && cur < NENV
      modifies this`k, envs
      ensures Valid() && (k, r) == Syscalls.SysIpcRecv(old(k), cur, dstva)
    {
      if dstva < UTOP && PgOff(dstva) != 0 { return -E_INVAL; }
      PutEnv(cur, envs[cur].(recving := true, dstva := dstva, value := 0,
        from := 0, perm := NO_PERM, status := NOT_RUNNABLE));
      r := 0;
    }

    // ---- sched.c

    /** The choice of sched_yield, with sched_halt's test; `cur` is null on a CPU that runs nothing. */
    method SchedYield(cur: int) returns (c: Choice)
      requires Valid() && (cur == NULL || 0 <= cur < NENV)
      ensures c == Sched.SchedYield(k, Current(cur))
    {
      var begin := FirstLooked(cur);
      var e := NextRunnable(begin);
      if e != NULL { return Run(e); }
      if cur != NULL && envs[cur].status == RUNNING { return Run(cur); }
      c := SchedHalt();
    }

    /** Where the search starts. */
    method FirstLooked(cur: int) returns (begin: nat)
      requires Valid() && (cur == NULL || 0 <= cur < NENV)
      ensures begin == Begin(k, Current(cur))
    {
      begin := 0;
      if cur != NULL { begin := EnvX(envs[cur].id) + 1; }
    }

    /** Its loop over the slots, circularly from `begin`. */
    method NextRunnable(begin: nat) returns (e: int)
      requires Valid()
      ensures Scan(k, begin, 0) == Current(e) && (e == NULL || 0 <= e < NENV)
    {
      ghost var goal := Scan(k, begin, 0);
      var i := 0;
      while i < NENV
        invariant 0 <= i <= NENV && Scan(k, begin, i) == goal
      {
        var index := (begin + i) % 1024;
        if envs[index].status == RUNNABLE { return index; }
        i := i + 1;
      }
      e := NULL;
    }

    method SchedHalt() returns (c: Choice)
      requires Valid()
      ensures c == Sched.SchedHalt(k)
    {
      var i := 0;
      while i < NENV
        invariant 0 <= i <= NENV && forall x: nat :: x < i ==> !Wakeable(k, x)
      {
        if envs[i].status in {RUNNABLE, RUNNING, DYING} {
          assert Wakeable(k, i);
          return Halt;
        }
        i := i + 1;
      }
      c := NoneRunnable;
    }

    /** Up to the release of the kernel lock. */
    method EnvRun(cur: int, e: nat)
      requires Valid() && e < NENV && (cur == NULL || 0 <= cur < NENV)
      modifies this`k, envs
      ensures Valid() && k == Sched.EnvRun(old(k), Current(cur), e)
    {
      if cur != NULL && envs[cur].status == RUNNING {
        PutEnv(cur, envs[cur].(status := RUNNABLE));
      }
      PutEnv(e, envs[e].(status := RUNNING));
    }
  }
}
