/** The environment, page and IPC system calls of kern/syscall.c, on kernel values. */
module Syscalls {
  import opened Layout
  import opened Trapframes
  import opened PageState
  import opened PageInv
  import opened AddressSpace
  import opened Envs

  // ---- The calls

  /** Returns the new environment's id or a negative error. */
  function SysExofork(k: Kernel, cur: nat): (r: (Kernel, int))
    requires k.Shape() && cur < NENV
    ensures r.0.Shape()
  {
    var (k1, r, e) := EnvAlloc(k, k.envs[cur].id);
    if r < 0 then (k1, r)
    else
      var child := k1.envs[e].(status := NOT_RUNNABLE, tf := WithEax(k.envs[cur].tf, 0));
      (k1.(envs := k1.envs[e := child]), child.id)
  }

  function SysEnvSetStatus(k: Kernel, cur: nat, envid: int, status: Status): (r: (Kernel, int))
    requires k.Shape() && cur < NENV
    ensures r.0.Shape()
  {
    if status != RUNNABLE && status != NOT_RUNNABLE then (k, -E_INVAL)
    else
      match Envid2Env(k, cur, envid, true)
      case None => (k, -E_BAD_ENV)
      case Some(e) => (k.(envs := k.envs[e := k.envs[e].(status := status)]), 0)
  }

  function SysEnvSetPgfaultUpcall(k: Kernel, cur: nat, envid: int, upcall: nat): (r: (Kernel, int))
    requires k.Shape() && cur < NENV
    ensures r.0.Shape()
  {
    match Envid2Env(k, cur, envid, true)
    case None => (k, -E_BAD_ENV)
    case Some(e) => (k.(envs := k.envs[e := k.envs[e].(upcall := upcall)]), 0)
  }

  predicate BadVa(va: nat) { va >= UTOP || PgOff(va) != 0 }

  predicate BadPerm(perm: Perm) { !perm.u || !perm.p || perm.other != 0 }

  ghost predicate HasSpace(k: Kernel, e: nat) {
    k.Shape() && e < NENV && k.envs[e].pgdir < k.mem.Size()
  }

  /** Every environment that an id can name has a directory; so says the kernel invariant. */
  ghost predicate Spaces(k: Kernel) {
    k.Shape() && forall e: nat :: e < NENV && (k.envs[e].status != FREE) ==> HasSpace(k, e)
  }

  function SysPageAlloc(k: Kernel, cur: nat, envid: int, va: nat, perm: Perm): (r: (Kernel, int))
    requires Spaces(k) && Live(k, cur)
    ensures r.0.Shape()
  {
    match Envid2Env(k, cur, envid, true)
    case None => (k, -E_BAD_ENV)
    case Some(e) =>
      if BadVa(va) || BadPerm(perm) then (k, -E_INVAL) else AllocPage(k, e, va, perm)
  }

  /** sys_page_alloc with the environment and all arguments looked at. */
  function AllocPage(k: Kernel, e: nat, va: nat, perm: Perm): (r: (Kernel, int))
    requires Spaces(k) && Live(k, e)
    ensures r.0.Shape()
  {
    var (m1, page) := PageAlloc(k.mem, true);
    if page.None? then (k.(mem := m1), -E_INVAL)
    else
      var (m2, ok) := PageInsert(m1, k.envs[e].pgdir, page.value, Pdx(va), Ptx(va), perm);
      if ok then (k.(mem := m2), 0)
      else (k.(mem := PageFree(m2, page.value)), -E_NO_MEM)
  }

  function SysPageMap(
    k: Kernel, cur: nat, srcid: int, srcva: nat, dstid: int, dstva: nat, perm: Perm): (r: (Kernel, int))
    requires Spaces(k) && Live(k, cur)
    ensures r.0.Shape()
  {
    var src := Envid2Env(k, cur, srcid, true);
    var dst := Envid2Env(k, cur, dstid, true);
    if src.None? || dst.None? then (k, -E_BAD_ENV)
    else if BadVa(srcva) || BadVa(dstva) || BadPerm(perm) then (k, -E_INVAL)
    else MapPage(k, src.value, srcva, dst.value, dstva, perm)
  }

  /** sys_page_map with both environments and all arguments looked at. */
  function MapPage(k: Kernel, src: nat, srcva: nat, dst: nat, dstva: nat, perm: Perm): (r: (Kernel, int))
    requires Spaces(k) && Live(k, src) && Live(k, dst)
    ensures r.0.Shape()
  {
    match PageLookup(k.mem, k.envs[src].pgdir, Pdx(srcva), Ptx(srcva))
    case None => (k, -E_INVAL)
    case Some(pte) =>
      if !pte.perm.w && perm.w then (k, -E_INVAL)
      else
        var (m1, ok) := PageInsert(k.mem, k.envs[dst].pgdir, PteFrame(k, pte), Pdx(dstva), Ptx(dstva), perm);
        (k.(mem := m1), if ok then 0 else -E_INVAL)
  }

  /** pa2page: a looked-up frame is always inside the page array. */
  function PteFrame(k: Kernel, pte: Word): (f: nat)
    requires k.Shape() && pte.frame < k.mem.Size()
    ensures f < k.mem.Size()
  {
    pte.frame
  }

  function SysPageUnmap(k: Kernel, cur: nat, envid: int, va: nat): (r: (Kernel, int))
    requires Spaces(k) && Live(k, cur)
    ensures r.0.Shape()
  {
    match Envid2Env(k, cur, envid, true)
    case None => (k, -E_BAD_ENV)
    case Some(e) =>
      if BadVa(va) then (k, -E_INVAL)
      else (k.(mem := PageRemove(k.mem, k.envs[e].pgdir, Pdx(va), Ptx(va))), 0)
  }

  /** The receiver's fields after a send from `from`; `perm` is None when no page went along. */
  function Delivered(e: Env, from: int, value: nat, perm: Option<Perm>): Env {
    e.(recving := false, from := from, value := value,
       perm := if perm.Some? then perm.value else e.perm,
       status := RUNNABLE, tf := WithEax(e.tf, 0))
  }

  /** sys_ipc_try_send comes to its read of `*pte`. */
  predicate ReadsPte(k: Kernel, cur: nat, envid: int, srcva: nat)
    requires k.Shape() && cur < NENV
  {
    var e := Envid2Env(k, cur, envid, false);
    e.Some? && k.envs[e.value].recving && srcva < UTOP && PgOff(srcva) == 0
  }

  /** page_lookup has stored through its third argument: it does so for a mapped page only. */
  predicate PteSet(k: Kernel, cur: nat, srcva: nat)
    requires HasSpace(k, cur)
  {
    PageLookup(k.mem, k.envs[cur].pgdir, Pdx(srcva), Ptx(srcva)).Some?
  }

  /** The calls of sys_ipc_try_send that read no pointer before it is set; C gives the others no meaning. */
  ghost predicate SendDefined(k: Kernel, cur: nat, envid: int, srcva: nat)
    requires k.Shape() && cur < NENV
  {
    ReadsPte(k, cur, envid, srcva) ==> HasSpace(k, cur) && PteSet(k, cur, srcva)
  }

  /**
   The page half of sys_ipc_try_send: the new page state, the error or 0, and the permissions
   sent. The code's own null test comes after its read of `*pte`, and can no longer fail there.
   */
  function PageSend(k: Kernel, cur: nat, e: nat, srcva: nat, perm: Perm): (r: (Mem, int, Option<Perm>))
    requires Spaces(k) && Live(k, cur) && Live(k, e)
    requires PgOff(srcva) == 0 ==> HasSpace(k, cur) && PteSet(k, cur, srcva)
    ensures r.0.Shape()
  {
    var pte := PageLookup(k.mem, k.envs[cur].pgdir, Pdx(srcva), Ptx(srcva));
    if PgOff(srcva) != 0 then (k.mem, -E_INVAL, None)
    else if !Covers(pte.value.perm, perm) then (k.mem, -E_INVAL, None)
    else if perm.w && !pte.value.perm.w then (k.mem, -E_INVAL, None)
    else if k.envs[e].dstva >= UTOP then (k.mem, 0, None)
    else
      var (m1, ok) := PageInsert(k.mem, k.envs[e].pgdir,
        PteFrame(k, pte.value), Pdx(k.envs[e].dstva), Ptx(k.envs[e].dstva), perm);
      if ok then (m1, 0, Some(perm)) else (m1, -E_NO_MEM, None)
  }

  function SysIpcTrySend(k: Kernel, cur: nat, envid: int, value: nat, srcva: nat, perm: Perm): (r: (Kernel, int))
    requires Spaces(k) && Live(k, cur) && SendDefined(k, cur, envid, srcva)
    ensures r.0.Shape()
  {
    match Envid2Env(k, cur, envid, false)
    case None => (k, -E_BAD_ENV)
    case Some(e) =>
      if !k.envs[e].recving then (k, -E_IPC_NOT_RECV)
      else
        var (m1, err, sent) := if srcva < UTOP then PageSend(k, cur, e, srcva, perm) else (k.mem, 0, None);
        if err < 0 then (k.(mem := m1), err)
        else (Kernel(m1, k.envs[e := Delivered(k.envs[e], k.envs[cur].id, value, sent)], k.envFree), 0)
  }

  /** On success the caller is left blocked; control passes to the scheduler. */
  function SysIpcRecv(k: Kernel, cur: nat, dstva: nat): (r: (Kernel, int))
    requires k.Shape() && cur < NENV
    ensures r.0.Shape()
  {
    if dstva < UTOP && PgOff(dstva) != 0 then (k, -E_INVAL)
    else
      (k.(envs := k.envs[cur := k.envs[cur].(recving := true, dstva := dstva, value := 0, from := 0,
                                             perm := NO_PERM, status := NOT_RUNNABLE)]), 0)
  }

  /** env_destroy up to the point where a caller that destroyed itself enters the scheduler. */
  function EnvDestroy(k: Kernel, cur: nat, e: nat): (r: Kernel)
    requires Spaces(k) && cur < NENV && Live(k, e)
    ensures r.Shape()
  {
    if k.envs[e].status == RUNNING && cur != e
    then k.(envs := k.envs[e := k.envs[e].(status := DYING)])
    else EnvFree(k, e)
  }

  function SysEnvDestroy(k: Kernel, cur: nat, envid: int): (r: (Kernel, int))
    requires Spaces(k) && Live(k, cur)
    ensures r.0.Shape()
  {
    match Envid2Env(k, cur, envid, true)
    case None => (k, -E_BAD_ENV)
    case Some(e) => (EnvDestroy(k, cur, e), 0)
  }

  // ---- What they keep

  lemma KInvSpaces(k: Kernel)
    requires KInv(k)
    ensures Spaces(k)
  {
    forall e: nat | e < NENV && k.envs[e].status != FREE ensures HasSpace(k, e) {
      assert Live(k, e);
    }
  }

  /** Changing fields of a live environment other than its directory and liveness keeps the invariant. */
  lemma TouchEnvKeeps(k: Kernel, k': Kernel, e: nat)
    requires KInv(k) && Live(k, e) && k'.mem == k.mem && k'.envFree == k.envFree
    requires |k'.envs| == NENV && k'.envs == k.envs[e := k'.envs[e]]
    requires k'.envs[e].status != FREE && k'.envs[e].pgdir == k.envs[e].pgdir && k'.envs[e].id == k.envs[e].id
    ensures KInv(k')
  {
    SpacesCarry(k, k');
  }

  /** Directories and live environments still correspond when neither has changed. */
  lemma SpacesCarry(k: Kernel, k': Kernel)
    requires k.Shape() && k'.Shape() && SpacesOk(k) && forall d: nat :: IsDir(k'.mem, d) <==> IsDir(k.mem, d)
    requires forall x: nat :: (Live(k', x) <==> Live(k, x)) && (Live(k, x) ==> k'.envs[x].pgdir == k.envs[x].pgdir)
    ensures SpacesOk(k')
  {
    forall d: nat | IsDir(k'.mem, d) ensures exists x: nat :: Live(k', x) && k'.envs[x].pgdir == d {
      var x: nat :| Live(k, x) && k.envs[x].pgdir == d;
      assert Live(k', x);
    }
  }

  /** A new page state with the same directories keeps the invariant. */
  lemma TouchMemKeeps(k: Kernel, m: Mem)
    requires KInv(k) && Inv(m, NO_PAGE) && NoLoose(m) && forall d: nat :: IsDir(m, d) <==> IsDir(k.mem, d)
    ensures KInv(k.(mem := m))
  {
    SpacesCarry(k, k.(mem := m));
  }

  function KeyOf(k: Kernel, e: nat, va: nat): Key
    requires k.Shape() && e < NENV
  {
    Key(k.envs[e].pgdir, Pdx(va), Ptx(va))
  }

  lemma UserVa(va: nat)
    requires va < UTOP
    ensures Pdx(va) < PDX_UTOP
  {
    assert va / 4194304 < 955;
  }

  /** Every free-list order, count, mapping and environment field is unchanged; only bytes of free pages may differ. */
  ghost predicate Atomic(k: Kernel, k': Kernel)
    requires k.Shape() && k'.Shape()
  {
    && k'.envs == k.envs && k'.envFree == k.envFree
    && k'.mem.free == k.mem.free && k'.mem.refs == k.mem.refs && k'.mem.role == k.mem.role && k'.mem.kdir == k.mem.kdir
    && (forall f :: 0 <= f < k.mem.Size() && k.mem.role[f] != Free ==> k'.mem.words[f] == k.mem.words[f])
    && SameFlat(k.mem, k'.mem)
  }

  lemma ExoforkKeeps(k: Kernel, cur: nat)
    requires KInv(k) && Live(k, cur)
    ensures var (k', r) := SysExofork(k, cur);
      && KInv(k') && SameFlat(k.mem, k'.mem)
      && (r < 0 ==> k' == k) && r != 0
      && (r < 0 <==> k.envFree == [] || k.mem.free == [])
      && (r > 0 ==>
            var e := EnvX(r);
            && k.envs[e].status == FREE && k'.envs == k.envs[e := k'.envs[e]] && Envid2Env(k', cur, r, true) == Some(e)
            && IsDir(k'.mem, k'.envs[e].pgdir) && !IsDir(k.mem, k'.envs[e].pgdir)
            && k'.envs[e] == NewEnv(k.envs[e], e, k.envs[cur].id, k'.envs[e].pgdir).(
                               status := NOT_RUNNABLE, tf := WithEax(k.envs[cur].tf, 0))
            && k'.envs[e].id == r
            && (forall va: nat :: At(k'.mem, KeyOf(k', e, va)) == None))
      && (forall f :: 0 <= f < k.mem.Size() && k.mem.role[f] in {Data, Loose} ==> k'.mem.words[f] == k.mem.words[f])
  {
    EnvAllocKeeps(k, k.envs[cur].id);
    var (k1, r1, e) := EnvAlloc(k, k.envs[cur].id);
    if r1 == 0 {
      TouchEnvKeeps(k1, SysExofork(k, cur).0, e);
      ChildIsNamed(k, cur);
    }
  }

  /** The id returned names the child, for whom the caller may act. */
  lemma ChildIsNamed(k: Kernel, cur: nat)
    requires KInv(k) && Live(k, cur) && EnvAlloc(k, k.envs[cur].id).1 == 0
    ensures var e := EnvAlloc(k, k.envs[cur].id).2; var (k', r) := SysExofork(k, cur);
      r > 0 && EnvX(r) == e && Envid2Env(k', cur, r, true) == Some(e)
  {
    EnvAllocKeeps(k, k.envs[cur].id);
    NextIdIsFresh(k.envs[EnvAlloc(k, k.envs[cur].id).2].id, EnvAlloc(k, k.envs[cur].id).2);
  }

  lemma PageAllocFailsAtomically(m: Mem, k: Key, perm: Perm)
    requires Inv(m, NO_PAGE) && UserKey(m, k) && perm.other < PGSIZE && m.free != []
    ensures var (m1, page) := PageAlloc(m, true);
      var (m2, ok) := PageInsert(m1, k.d, page.value, k.i, k.j, perm);
      var m3 := PageFree(m2, page.value);
      !ok ==>
        && Inv(m3, NO_PAGE) && SameFlat(m, m3)
        && m3.free == m.free && m3.refs == m.refs && m3.role == m.role && m3.kdir == m.kdir
        && forall f :: 0 <= f < m.Size() && m.role[f] != Free ==> m3.words[f] == m.words[f]
  {
    PageAllocKeeps(m, true, NO_PAGE);
    var (m1, page) := PageAlloc(m, true);
    PageInsertKeeps(m1, k, page.value, perm);
    var (m2, ok) := PageInsert(m1, k.d, page.value, k.i, k.j, perm);
    if !ok {
      PageFreeKeeps(m1, page.value, NO_PAGE);
      assert [m.free[0]] + m.free[1..] == m.free;
    }
  }

  /** A page that no space maps yet. */
  ghost predicate Unmapped(m: Mem, f: nat)
    requires m.Shape()
  {
    f < m.Size() && forall x :: !Maps(m, x, f)
  }

  lemma FreePageIsUnmapped(m: Mem, f: nat)
    requires Inv(m, NO_PAGE) && f < m.Size() && m.role[f] != Data
    ensures Unmapped(m, f)
  {
    LooseIsUnmapped(m, f, NO_PAGE);
    forall x ensures !Maps(m, x, f) { InMappers(m, f, x); }
  }

  /** No mapped page changed its bytes. */
  ghost predicate SameData(m: Mem, m': Mem)
    requires m.Shape() && m'.Shape()
  {
    m'.Size() == m.Size() && forall f :: 0 <= f < m.Size() && m.role[f] == Data ==> m'.words[f] == m.words[f]
  }

  lemma PageAllocAt(m: Mem, k: Key, perm: Perm)
    requires Inv(m, NO_PAGE) && UserKey(m, k) && perm.other < PGSIZE && m.free != []
    ensures var (m1, page) := PageAlloc(m, true);
      var (m2, ok) := PageInsert(m1, k.d, page.value, k.i, k.j, perm);
      ok ==>
        && Inv(m2, NO_PAGE) && SameFlatBut(m, m2, k) && At(m2, k) == Some(Word(page.value, perm.(p := true)))
        && Unmapped(m, page.value) && m2.words[page.value] == ZeroPage()
        && (forall d: nat :: IsDir(m2, d) <==> IsDir(m, d))
        && SameData(m, m2)
  {
    PageAllocKeeps(m, true, NO_PAGE);
    var (m1, page) := PageAlloc(m, true);
    PageInsertKeeps(m1, k, page.value, perm);
    FreePageIsUnmapped(m, page.value);
  }

  lemma AllocInsertRoles(m: Mem, k: Key, perm: Perm)
    requires m.Shape() && k.d < m.Size() && k.i < NPDENTRIES && k.j < NPTENTRIES && m.free != []
    ensures var (m1, page) := PageAlloc(m, true);
      var (m2, ok) := PageInsert(m1, k.d, page.value, k.i, k.j, perm);
      NoNewLoose(m, if ok then m2 else PageFree(m2, page.value), NO_PAGE)
  {
    var (m1, page) := PageAlloc(m, true);
    PageInsertRoles(m1, k.d, page.value, k.i, k.j, perm);
  }

  /** sys_page_alloc: an error changes nothing; success maps one fresh zeroed page at one key. */
  lemma PageAllocCall(k: Kernel, cur: nat, envid: int, va: nat, perm: Perm)
    requires KInv(k) && Live(k, cur)
    ensures Spaces(k)
    ensures var (k', r) := SysPageAlloc(k, cur, envid, va, perm);
      && KInv(k') && k'.envs == k.envs && k'.envFree == k.envFree
      && (r != 0 ==> r < 0 && Atomic(k, k'))
      && (r == 0 ==>
            var e := Envid2Env(k, cur, envid, true); var key := KeyOf(k, e.value, va);
            && e.Some? && !BadVa(va) && !BadPerm(perm)
            && SameFlatBut(k.mem, k'.mem, key) && At(k'.mem, key).Some? && At(k'.mem, key).value.perm == perm
            && Unmapped(k.mem, At(k'.mem, key).value.frame)
            && k'.mem.words[At(k'.mem, key).value.frame] == ZeroPage()
            && SameData(k.mem, k'.mem))
  {
    KInvSpaces(k);
    var (k', r) := SysPageAlloc(k, cur, envid, va, perm);
    var e := Envid2Env(k, cur, envid, true);
    if e.Some? && !BadVa(va) && !BadPerm(perm) {
      assert Live(k, e.value);
      UserVa(va);
      if k.mem.free != [] {
        PageAllocAt(k.mem, KeyOf(k, e.value, va), perm);
        AllocMemKeeps(k, KeyOf(k, e.value, va), perm);
      }
    }
  }

  /** Either way the page state is one the kernel invariant allows, and a failure shows nowhere but in free pages. */
  lemma AllocMemKeeps(k: Kernel, key: Key, perm: Perm)
    requires KInv(k) && UserKey(k.mem, key) && perm.other < PGSIZE && k.mem.free != []
    ensures var (m1, page) := PageAlloc(k.mem, true);
      var (m2, ok) := PageInsert(m1, key.d, page.value, key.i, key.j, perm);
      && (ok ==> KInv(k.(mem := m2)))
      && (!ok ==> KInv(k.(mem := PageFree(m2, page.value))) && Atomic(k, k.(mem := PageFree(m2, page.value))))
  {
    AllocInsertRoles(k.mem, key, perm);
    var (m1, page) := PageAlloc(k.mem, true);
    if PageInsert(m1, key.d, page.value, key.i, key.j, perm).1 {
      AllocInsertKeeps(k, key, perm);
    } else {
      AllocFailureKeeps(k, key, perm);
    }
  }

  lemma AllocInsertKeeps(k: Kernel, key: Key, perm: Perm)
    requires KInv(k) && UserKey(k.mem, key) && perm.other < PGSIZE && k.mem.free != []
    ensures var (m1, page) := PageAlloc(k.mem, true);
      var (m2, ok) := PageInsert(m1, key.d, page.value, key.i, key.j, perm);
      ok ==> KInv(k.(mem := m2))
  {
    AllocInsertInv(k.mem, key, perm);
    AllocInsertRoles(k.mem, key, perm);
    var (m1, page) := PageAlloc(k.mem, true);
    var (m2, ok) := PageInsert(m1, key.d, page.value, key.i, key.j, perm);
    if ok { TouchMemKeeps(k, m2); }
  }

  lemma AllocInsertInv(m: Mem, k: Key, perm: Perm)
    requires Inv(m, NO_PAGE) && UserKey(m, k) && perm.other < PGSIZE && m.free != []
    ensures var (m1, page) := PageAlloc(m, true);
      var (m2, ok) := PageInsert(m1, k.d, page.value, k.i, k.j, perm);
      ok ==> Inv(m2, NO_PAGE) && forall d: nat :: IsDir(m2, d) <==> IsDir(m, d)
  {
    PageAllocAt(m, k, perm);
  }

  lemma AllocFailureKeeps(k: Kernel, key: Key, perm: Perm)
    requires KInv(k) && UserKey(k.mem, key) && perm.other < PGSIZE && k.mem.free != []
    ensures var (m1, page) := PageAlloc(k.mem, true);
      var (m2, ok) := PageInsert(m1, key.d, page.value, key.i, key.j, perm);
      !ok ==> KInv(k.(mem := PageFree(m2, page.value))) && Atomic(k, k.(mem := PageFree(m2, page.value)))
  {
    AllocInsertRoles(k.mem, key, perm);
    PageAllocFailsAtomically(k.mem, key, perm);
    var (m1, page) := PageAlloc(k.mem, true);
    var (m2, ok) := PageInsert(m1, key.d, page.value, key.i, key.j, perm);
    if !ok { TouchMemKeeps(k, PageFree(m2, page.value)); }
  }

  /** Below the limit of the 16-bit pp_ref. */
  ghost predicate RefRoom(m: Mem, f: nat)
    requires m.Shape()
  {
    f < m.Size() && m.role[f] == Data ==> m.refs[f] < 65535
  }

  /** Room for one more reference to the page at `va` of environment `e`, if there is one. */
  ghost predicate SourceRoom(k: Kernel, e: nat, va: nat)
    requires k.Shape() && e < NENV
  {
    At(k.mem, KeyOf(k, e, va)).Some? ==> RefRoom(k.mem, At(k.mem, KeyOf(k, e, va)).value.frame)
  }

  /** The page sys_page_map is to map has room for it. */
  ghost predicate MapRoom(k: Kernel, cur: nat, srcid: int, srcva: nat)
    requires k.Shape() && cur < NENV
  {
    Envid2Env(k, cur, srcid, true).Some? ==> SourceRoom(k, Envid2Env(k, cur, srcid, true).value, srcva)
  }

  /** With good arguments sys_page_alloc fails only when at most one page is free. */
  lemma PageAllocFailsWithoutPages(k: Kernel, cur: nat, envid: int, va: nat, perm: Perm)
    requires KInv(k) && Live(k, cur) && Envid2Env(k, cur, envid, true).Some? && !BadVa(va) && !BadPerm(perm)
    ensures Spaces(k)
    ensures SysPageAlloc(k, cur, envid, va, perm).1 < 0 ==> |k.mem.free| <= 1
  {
    KInvSpaces(k);
    var e := Envid2Env(k, cur, envid, true).value;
    assert Live(k, e);
    UserVa(va);
    PageAllocKeeps(k.mem, true, NO_PAGE);
    var (m1, page) := PageAlloc(k.mem, true);
    if page.Some? {
      PageInsertKeeps(m1, KeyOf(k, e, va), page.value, perm);
    }
  }

  /** sys_page_map: an error changes nothing; success makes one key an alias of another. */
  lemma PageMapCall(k: Kernel, cur: nat, srcid: int, srcva: nat, dstid: int, dstva: nat, perm: Perm)
    requires KInv(k) && Live(k, cur) && MapRoom(k, cur, srcid, srcva)
    ensures Spaces(k)
    ensures var (k', r) := SysPageMap(k, cur, srcid, srcva, dstid, dstva, perm);
      && KInv(k') && k'.envs == k.envs && k'.envFree == k.envFree
      && (r != 0 ==> r < 0 && k' == k)
      && (r == 0 ==>
            var src := Envid2Env(k, cur, srcid, true); var dst := Envid2Env(k, cur, dstid, true);
            && src.Some? && dst.Some? && !BadVa(srcva) && !BadVa(dstva) && !BadPerm(perm)
            && var from := At(k.mem, KeyOf(k, src.value, srcva)); var key := KeyOf(k, dst.value, dstva);
            && from.Some? && (perm.w ==> from.value.perm.w)
            && SameFlatBut(k.mem, k'.mem, key) && At(k'.mem, key) == Some(Word(from.value.frame, perm))
            && SameData(k.mem, k'.mem))
  {
    KInvSpaces(k);
    var (k', r) := SysPageMap(k, cur, srcid, srcva, dstid, dstva, perm);
    var src, dst := Envid2Env(k, cur, srcid, true), Envid2Env(k, cur, dstid, true);
    if src.Some? && dst.Some? && !BadVa(srcva) && !BadVa(dstva) && !BadPerm(perm) {
      assert Live(k, src.value) && Live(k, dst.value);
      UserVa(srcva);
      UserVa(dstva);
      var key := KeyOf(k, dst.value, dstva);
      var from := At(k.mem, KeyOf(k, src.value, srcva));
      if from.Some? {
        assert RefRoom(k.mem, from.value.frame);
        AliasKeeps(k, KeyOf(k, src.value, srcva), key, from.value.frame, perm);
      }
    }
  }

  /** Mapping a page a second time. */
  lemma AliasKeeps(k: Kernel, from: Key, key: Key, pp: nat, perm: Perm)
    requires KInv(k) && UserKey(k.mem, from) && UserKey(k.mem, key) && pp < k.mem.Size()
    requires At(k.mem, from).Some? && At(k.mem, from).value.frame == pp && RefRoom(k.mem, pp) && perm.other < PGSIZE
    ensures var (m', ok) := PageInsert(k.mem, key.d, pp, key.i, key.j, perm);
      && (!ok ==> m' == k.mem)
      && (ok ==> KInv(k.(mem := m')) && SameFlatBut(k.mem, m', key) && SameData(k.mem, m')
                 && At(m', key) == Some(Word(pp, perm.(p := true))))
  {
    AtIsUnique(k.mem, from, At(k.mem, from).value);
    PageInsertKeeps(k.mem, key, pp, perm);
    PageInsertRoles(k.mem, key.d, pp, key.i, key.j, perm);
    var (m', ok) := PageInsert(k.mem, key.d, pp, key.i, key.j, perm);
    if ok { TouchMemKeeps(k, m'); }
  }

  /** With good arguments sys_page_map fails only when no page is free. */
  lemma PageMapFailsWithoutPages(k: Kernel, cur: nat, srcid: int, srcva: nat, dstid: int, dstva: nat, perm: Perm)
    requires KInv(k) && Live(k, cur) && MapRoom(k, cur, srcid, srcva)
    requires Envid2Env(k, cur, srcid, true).Some? && Envid2Env(k, cur, dstid, true).Some?
    requires !BadVa(srcva) && !BadVa(dstva) && !BadPerm(perm)
    requires var from := At(k.mem, KeyOf(k, Envid2Env(k, cur, srcid, true).value, srcva));
      from.Some? && (perm.w ==> from.value.perm.w)
    ensures Spaces(k)
    ensures SysPageMap(k, cur, srcid, srcva, dstid, dstva, perm).1 < 0 ==> k.mem.free == []
  {
    KInvSpaces(k);
    var src, dst := Envid2Env(k, cur, srcid, true).value, Envid2Env(k, cur, dstid, true).value;
    assert Live(k, src) && Live(k, dst);
    MapPageFails(k, src, srcva, dst, dstva, perm);
  }

  lemma MapPageFails(k: Kernel, src: nat, srcva: nat, dst: nat, dstva: nat, perm: Perm)
    requires KInv(k) && Live(k, src) && Live(k, dst) && Spaces(k) && SourceRoom(k, src, srcva)
    requires !BadVa(srcva) && !BadVa(dstva) && !BadPerm(perm)
    requires At(k.mem, KeyOf(k, src, srcva)).Some? && (perm.w ==> At(k.mem, KeyOf(k, src, srcva)).value.perm.w)
    ensures MapPage(k, src, srcva, dst, dstva, perm).1 < 0 ==> k.mem.free == []
  {
    UserVa(srcva);
    UserVa(dstva);
    var from := At(k.mem, KeyOf(k, src, srcva)).value;
    AtIsUnique(k.mem, KeyOf(k, src, srcva), from);
    assert RefRoom(k.mem, from.frame);
    InsertFailsWithoutPages(k.mem, KeyOf(k, dst, dstva), from.frame, perm);
  }

  lemma InsertFailsWithoutPages(m: Mem, key: Key, pp: nat, perm: Perm)
    requires Inv(m, NO_PAGE) && UserKey(m, key) && pp < m.Size()
    requires m.role[pp] == Data && m.refs[pp] < 65535 && perm.other < PGSIZE
    ensures PageInsert(m, key.d, pp, key.i, key.j, perm).1 ||
      (m.free == [] && PageInsert(m, key.d, pp, key.i, key.j, perm).0 == m)
  {
    PageInsertKeeps(m, key, pp, perm);
  }

  /** sys_page_unmap: one key is deleted; no other translation and no mapped byte changes. */
  lemma PageUnmapCall(k: Kernel, cur: nat, envid: int, va: nat)
    requires KInv(k) && Live(k, cur)
    ensures Spaces(k)
    ensures var (k', r) := SysPageUnmap(k, cur, envid, va);
      && KInv(k') && k'.envs == k.envs && k'.envFree == k.envFree
      && (r != 0 ==> r < 0 && k' == k)
      && (r == 0 ==>
            var e := Envid2Env(k, cur, envid, true);
            && e.Some? && !BadVa(va)
            && SameFlatBut(k.mem, k'.mem, KeyOf(k, e.value, va)) && At(k'.mem, KeyOf(k, e.value, va)) == None
            && SameData(k.mem, k'.mem))
  {
    KInvSpaces(k);
    var (k', r) := SysPageUnmap(k, cur, envid, va);
    var e := Envid2Env(k, cur, envid, true);
    if e.Some? && !BadVa(va) {
      assert Live(k, e.value);
      UserVa(va);
      RemoveKeeps(k, KeyOf(k, e.value, va));
    }
  }

  lemma RemoveKeeps(k: Kernel, key: Key)
    requires KInv(k) && UserKey(k.mem, key)
    ensures var m := PageRemove(k.mem, key.d, key.i, key.j);
      KInv(k.(mem := m)) && SameFlatBut(k.mem, m, key) && At(m, key) == None && SameData(k.mem, m)
  {
    PageRemoveKeeps(k.mem, key, NO_PAGE);
    RemoveRoles(k.mem, key.d, key.i, key.j);
    TouchMemKeeps(k, PageRemove(k.mem, key.d, key.i, key.j));
  }

  /** A page goes along exactly when both sides name an address below UTOP. */
  ghost predicate Carried(k: Kernel, e: nat, srcva: nat)
    requires k.Shape() && e < NENV
  {
    srcva < UTOP && k.envs[e].dstva < UTOP
  }

  /** The effect of a successful send from `cur` to `e`. */
  ghost predicate Sent(k: Kernel, k': Kernel, cur: nat, e: nat, value: nat, srcva: nat, perm: Perm)
    requires k.Shape() && k'.Shape() && cur < NENV && e < NENV
  {
    && k.envs[e].recving
    && k'.envs == k.envs[e := Delivered(k.envs[e], k.envs[cur].id,
        value, if Carried(k, e, srcva) then Some(perm) else None)]
    && (if Carried(k, e, srcva) then PageSent(k, k'.mem, cur, e, srcva, perm) else k'.mem == k.mem)
  }

  ghost predicate PageSent(k: Kernel, m: Mem, cur: nat, e: nat, srcva: nat, perm: Perm)
    requires k.Shape() && m.Shape() && cur < NENV && e < NENV
  {
    var from := At(k.mem, KeyOf(k, cur, srcva));
    var key := KeyOf(k, e, k.envs[e].dstva);
    && from.Some? && Covers(from.value.perm, perm)
    && SameFlatBut(k.mem, m, key) && At(m, key) == Some(Word(from.value.frame, perm.(p := true)))
    && SameData(k.mem, m)
  }

  lemma IpcPageInsert(k: Kernel, cur: nat, e: nat, srcva: nat, perm: Perm)
    requires KInv(k) && Live(k, cur) && Live(k, e) && SourceRoom(k, cur, srcva)
    requires srcva < UTOP && k.envs[e].dstva < UTOP && perm.other < PGSIZE
    ensures HasSpace(k, e)
    ensures var from := At(k.mem, KeyOf(k, cur, srcva));
      from.Some? ==>
        var key := KeyOf(k, e, k.envs[e].dstva);
        && from.value.frame < k.mem.Size()
        && var (m1, ok) := PageInsert(k.mem, k.envs[e].pgdir, from.value.frame, key.i, key.j, perm);
        && (!ok ==> m1 == k.mem)
        && (ok ==> Inv(m1, NO_PAGE) && (forall d: nat :: IsDir(m1, d) <==> IsDir(k.mem, d))
                   && SameFlatBut(k.mem, m1, key) && At(m1, key) == Some(Word(from.value.frame, perm.(p := true)))
                   && SameData(k.mem, m1) && NoNewLoose(k.mem, m1, NO_PAGE))
  {
    UserVa(srcva);
    UserVa(k.envs[e].dstva);
    var from := At(k.mem, KeyOf(k, cur, srcva));
    if from.Some? {
      AtIsUnique(k.mem, KeyOf(k, cur, srcva), from.value);
      assert RefRoom(k.mem, from.value.frame);
      var key := KeyOf(k, e, k.envs[e].dstva);
      PageInsertKeeps(k.mem, key, from.value.frame, perm);
      PageInsertRoles(k.mem, key.d, from.value.frame, key.i, key.j, perm);
    }
  }

  lemma IpcSendPlain(k: Kernel, cur: nat, e: nat, value: nat)
    requires KInv(k) && Live(k, cur) && Live(k, e)
    ensures KInv(k.(envs := k.envs[e := Delivered(k.envs[e], k.envs[cur].id, value, None)]))
  {
    TouchEnvKeeps(k, k.(envs := k.envs[e := Delivered(k.envs[e], k.envs[cur].id, value, None)]), e);
  }

  lemma IpcSendPage(k: Kernel, cur: nat, envid: int, e: nat, value: nat, srcva: nat, perm: Perm)
    requires KInv(k) && Live(k, cur) && Envid2Env(k, cur, envid, false) == Some(e)
    requires k.envs[e].recving && Carried(k, e, srcva) && SourceRoom(k, cur, srcva) && perm.other < PGSIZE
    requires SendDefined(k, cur, envid, srcva)
    ensures Spaces(k)
    ensures var (k', r) := SysIpcTrySend(k, cur, envid, value, srcva, perm);
      && KInv(k') && k'.envFree == k.envFree
      && (r != 0 ==> r < 0 && k' == k)
      && (r == 0 ==> Sent(k, k', cur, e, value, srcva, perm))
  {
    KInvSpaces(k);
    assert Live(k, e);
    var (k', r) := SysIpcTrySend(k, cur, envid, value, srcva, perm);
    IpcPageInsert(k, cur, e, srcva, perm);
    LookupIsAt(k, cur, srcva);
    if r == 0 {
      TouchBothKeeps(k, k', e);
    }
  }

  lemma LookupIsAt(k: Kernel, cur: nat, va: nat)
    requires KInv(k) && Live(k, cur) && va < UTOP
    ensures HasSpace(k, cur)
    ensures At(k.mem, KeyOf(k, cur, va)) == PageLookup(k.mem, k.envs[cur].pgdir, Pdx(va), Ptx(va))
  {
    UserVa(va);
  }

  /** New pages with the same directories, and new fields for one live environment. */
  lemma TouchBothKeeps(k: Kernel, k': Kernel, e: nat)
    requires KInv(k) && Live(k, e) && Inv(k'.mem, NO_PAGE) && k'.envFree == k.envFree
    requires NoNewLoose(k.mem, k'.mem, NO_PAGE) && forall d: nat :: IsDir(k'.mem, d) <==> IsDir(k.mem, d)
    requires |k'.envs| == NENV && k'.envs == k.envs[e := k'.envs[e]]
    requires k'.envs[e].status != FREE && k'.envs[e].pgdir == k.envs[e].pgdir && k'.envs[e].id == k.envs[e].id
    ensures KInv(k')
  {
    TouchMemKeeps(k, k'.mem);
    TouchEnvKeeps(k.(mem := k'.mem), k', e);
  }

  /**
   No pointer is read before it is set; and a page that goes along has room for one more
   reference, and no permission bit falls on its frame number.
   */
  ghost predicate SendGuard(k: Kernel, cur: nat, envid: int, srcva: nat, perm: Perm)
    requires k.Shape() && cur < NENV
  {
    var e := Envid2Env(k, cur, envid, false);
    && SendDefined(k, cur, envid, srcva)
    && (e.Some? && k.envs[e.value].recving && Carried(k, e.value, srcva) ==>
          SourceRoom(k, cur, srcva) && perm.other < PGSIZE)
  }

  /** The read is wild exactly when the target is receiving and an aligned user page to be sent is not mapped. */
  lemma WildReadIff(k: Kernel, cur: nat, envid: int, srcva: nat)
    requires KInv(k) && Live(k, cur)
    ensures !SendDefined(k, cur, envid, srcva) <==>
      && ReadsPte(k, cur, envid, srcva)
      && At(k.mem, KeyOf(k, cur, srcva)) == None
  {
    KInvSpaces(k);
    if srcva < UTOP { LookupIsAt(k, cur, srcva); }
  }

  /**
   sys_ipc_try_send: an error changes nothing; success delivers to exactly one receiving
   environment.
   */
  lemma IpcSendCall(k: Kernel, cur: nat, envid: int, value: nat, srcva: nat, perm: Perm)
    requires KInv(k) && Live(k, cur) && SendGuard(k, cur, envid, srcva, perm)
    ensures Spaces(k)
    ensures var (k', r) := SysIpcTrySend(k, cur, envid, value, srcva, perm);
      && KInv(k') && k'.envFree == k.envFree
      && (r != 0 ==> r < 0 && k' == k)
      && (r == 0 ==> Envid2Env(k, cur, envid, false).Some?
                     && Sent(k, k', cur, Envid2Env(k, cur, envid, false).value, value, srcva, perm))
  {
    KInvSpaces(k);
    var e := Envid2Env(k, cur, envid, false);
    if e.Some? && k.envs[e.value].recving {
      if Carried(k, e.value, srcva) {
        IpcSendPage(k, cur, envid, e.value, value, srcva, perm);
      } else {
        IpcSendPlain(k, cur, e.value, value);
      }
    }
  }

  lemma EnvDestroyKeeps(k: Kernel, cur: nat, e: nat)
    requires KInv(k) && Live(k, cur) && Live(k, e)
    ensures Spaces(k)
    ensures var k' := EnvDestroy(k, cur, e);
      && KInv(k')
      && (if k.envs[e].status == RUNNING && cur != e
          then k' == k.(envs := k.envs[e := k.envs[e].(status := DYING)])
          else !Live(k', e) && forall key ::
            At(k'.mem, key) == if key.d == k.envs[e].pgdir then None else At(k.mem, key))
  {
    KInvSpaces(k);
    if k.envs[e].status == RUNNING && cur != e {
      TouchEnvKeeps(k, EnvDestroy(k, cur, e), e);
    } else {
      EnvFreeKeeps(k, e);
    }
  }

  // ---- A run of system calls

  /**
   The system calls with the caller's arguments. `Console` stands for sys_cputs and sys_cgetc
   with the value they return, `Unknown` for a number that names no call.
   */
  datatype Call =
    | GetEnvId
    | Console(ret: nat)
    | Unknown
    | Exofork
    | SetStatus(envid: int, status: Status)
    | SetUpcall(envid: int, upcall: nat)
    | PageAllocate(envid: int, va: nat, perm: Perm)
    | PageMap(srcid: int, srcva: nat, dstid: int, dstva: nat, perm: Perm)
    | PageUnmap(envid: int, va: nat)
    | IpcTrySend(envid: int, value: nat, srcva: nat, perm: Perm)
    | IpcRecv(dstva: nat)
    | Destroy(envid: int)

  /** C gives the call a meaning. */
  ghost predicate CallDefined(k: Kernel, cur: nat, call: Call)
    requires k.Shape() && cur < NENV
  {
    call.IpcTrySend? ==> SendDefined(k, cur, call.envid, call.srcva)
  }

  /** The switch of syscall(): the new state and the value returned in eax. */
  function Dispatch(k: Kernel, cur: nat, call: Call): (r: (Kernel, int))
    requires Spaces(k) && Live(k, cur) && CallDefined(k, cur, call)
    ensures r.0.Shape()
  {
    match call
    case GetEnvId => (k, k.envs[cur].id)
    case Console(ret) => (k, ret)
    case Unknown => (k, -E_INVAL)
    case Exofork => SysExofork(k, cur)
    case SetStatus(envid, status) => SysEnvSetStatus(k, cur, envid, status)
    case SetUpcall(envid, upcall) => SysEnvSetPgfaultUpcall(k, cur, envid, upcall)
    case PageAllocate(envid, va, perm) => SysPageAlloc(k, cur, envid, va, perm)
    case PageMap(srcid, srcva, dstid, dstva, perm) => SysPageMap(k, cur, srcid, srcva, dstid, dstva, perm)
    case PageUnmap(envid, va) => SysPageUnmap(k, cur, envid, va)
    case IpcTrySend(envid, value, srcva, perm) => SysIpcTrySend(k, cur, envid, value, srcva, perm)
    case IpcRecv(dstva) => SysIpcRecv(k, cur, dstva)
    case Destroy(envid) => SysEnvDestroy(k, cur, envid)
  }

  /**
   The domain of the memory theorems: no wild read, and the page a call maps again has room
   for it, so that the reference counts can be kept.
   */
  ghost predicate CountsGuard(k: Kernel, cur: nat, call: Call)
    requires k.Shape() && cur < NENV
  {
    match call
    case PageMap(srcid, srcva, _, _, _) => MapRoom(k, cur, srcid, srcva)
    case IpcTrySend(envid, _, srcva, perm) => SendGuard(k, cur, envid, srcva, perm)
    case _ => true
  }

  /** Every call keeps the whole kernel invariant; every failing call is atomic. */
  lemma DispatchKeeps(k: Kernel, cur: nat, call: Call)
    requires KInv(k) && Live(k, cur) && CountsGuard(k, cur, call)
    ensures Spaces(k)
    ensures KInv(Dispatch(k, cur, call).0)
    ensures Dispatch(k, cur, call).1 < 0 ==> Atomic(k, Dispatch(k, cur, call).0)
  {
    KInvSpaces(k);
    match call
    case Exofork => ExoforkKeeps(k, cur);
    case SetStatus(envid, status) => FieldCallKeeps(k, cur, call);
    case SetUpcall(envid, upcall) => FieldCallKeeps(k, cur, call);
    case PageAllocate(envid, va, perm) => PageAllocCall(k, cur, envid, va, perm);
    case PageMap(srcid, srcva, dstid, dstva, perm) => PageMapCall(k, cur, srcid, srcva, dstid, dstva, perm);
    case PageUnmap(envid, va) => PageUnmapCall(k, cur, envid, va);
    case IpcTrySend(envid, value, srcva, perm) => IpcSendCall(k, cur, envid, value, srcva, perm);
    case IpcRecv(dstva) => FieldCallKeeps(k, cur, call);
    case Destroy(envid) =>
      var e := Envid2Env(k, cur, envid, true);
      if e.Some? { EnvDestroyKeeps(k, cur, e.value); }
    case _ =>
  }

  lemma FieldCallKeeps(k: Kernel, cur: nat, call: Call)
    requires KInv(k) && Live(k, cur) && (call.SetStatus? || call.SetUpcall? || call.IpcRecv?)
    ensures Spaces(k)
    ensures KInv(Dispatch(k, cur, call).0)
    ensures Dispatch(k, cur, call).1 < 0 ==> Dispatch(k, cur, call).0 == k
  {
    KInvSpaces(k);
    var (k', r) := Dispatch(k, cur, call);
    var e := if call.IpcRecv? then Some(cur) else Envid2Env(k, cur, call.envid, true);
    if r == 0 && e.Some? { TouchEnvKeeps(k, k', e.value); }
  }
}
