/**
 What each system call returns, test by test in the order of kern/syscall.c, and what it stores,
 field by field.
 */
module Replies {
  import opened Layout
  import opened Trapframes
  import opened PageState
  import opened PageInv
  import opened AddressSpace
  import opened Envs
  import opened Syscalls

  // ---- Whom an id names

  /** 0 names the caller, any other number the live environment with that id; with `checkperm` only self or child. */
  ghost predicate Names(k: Kernel, cur: nat, envid: int, checkperm: bool, e: nat)
    requires k.Shape() && cur < NENV
  {
    && e < NENV
    && if envid == 0 then e == cur
       else k.envs[e].status != FREE && k.envs[e].id == envid
            && (checkperm ==> e == cur || k.envs[e].parent == k.envs[cur].id)
  }

  ghost predicate NamesNobody(k: Kernel, cur: nat, envid: int, checkperm: bool)
    requires k.Shape() && cur < NENV
  {
    forall e: nat :: !Names(k, cur, envid, checkperm, e)
  }

  lemma NobodyIsNamed(k: Kernel, cur: nat, envid: int, checkperm: bool)
    requires KInv(k) && Live(k, cur)
    ensures NamesNobody(k, cur, envid, checkperm) <==> Envid2Env(k, cur, envid, checkperm) == None
  {
    var r := Envid2Env(k, cur, envid, checkperm);
    if r.Some? {
      Envid2EnvFinds(k, cur, envid, checkperm, r.value);
      assert Names(k, cur, envid, checkperm, r.value);
    } else {
      forall e: nat ensures !Names(k, cur, envid, checkperm, e) {
        Envid2EnvFinds(k, cur, envid, checkperm, e);
      }
    }
  }

  lemma NamedIsFound(k: Kernel, cur: nat, envid: int, checkperm: bool, e: nat)
    requires KInv(k) && Live(k, cur) && Names(k, cur, envid, checkperm, e)
    ensures Envid2Env(k, cur, envid, checkperm) == Some(e) && Live(k, e)
  {
    Envid2EnvFinds(k, cur, envid, checkperm, e);
  }

  // ---- Arguments

  ghost predicate BadAddress(va: nat) { va >= 0xEEC0_0000 || va % 4096 != 0 }

  /** PTE_P and PTE_U must be set, and nothing outside PTE_SYSCALL. */
  ghost predicate BadRights(perm: Perm) { !(perm.p && perm.u && perm.other == 0) }

  /** The directory of `e` has no page table for `va`. */
  ghost predicate NoTable(k: Kernel, e: nat, va: nat)
    requires HasSpace(k, e) && va < 0xEEC0_0000
  {
    !k.mem.words[k.envs[e].pgdir][va / 4194304].perm.p
  }

  lemma SlotOfVa(va: nat)
    requires va < 0xEEC0_0000
    ensures Pdx(va) == va / 4194304 < 955
  {
  }

  // ---- sys_env_set_status, sys_env_set_pgfault_upcall

  lemma SetStatusReply(k: Kernel, cur: nat, envid: int, status: Status)
    requires KInv(k) && Live(k, cur)
    ensures Spaces(k)
    ensures var r := Dispatch(k, cur, SetStatus(envid, status));
      if status != RUNNABLE && status != NOT_RUNNABLE then r == (k, -3)
      else
        && (NamesNobody(k, cur, envid, true) ==> r == (k, -2))
        && (forall e: nat :: Names(k, cur, envid, true, e) ==>
              r == (k.(envs := k.envs[e := k.envs[e].(status := status)]), 0))
  {
    KInvSpaces(k);
    NobodyIsNamed(k, cur, envid, true);
    forall e: nat | Names(k, cur, envid, true, e) ensures Envid2Env(k, cur, envid, true) == Some(e) {
      NamedIsFound(k, cur, envid, true, e);
    }
  }

  lemma SetUpcallReply(k: Kernel, cur: nat, envid: int, upcall: nat)
    requires KInv(k) && Live(k, cur)
    ensures Spaces(k)
    ensures var r := Dispatch(k, cur, SetUpcall(envid, upcall));
      && (NamesNobody(k, cur, envid, true) ==> r == (k, -2))
      && (forall e: nat :: Names(k, cur, envid, true, e) ==>
            r == (k.(envs := k.envs[e := k.envs[e].(upcall := upcall)]), 0))
  {
    KInvSpaces(k);
    NobodyIsNamed(k, cur, envid, true);
    forall e: nat | Names(k, cur, envid, true, e) ensures Envid2Env(k, cur, envid, true) == Some(e) {
      NamedIsFound(k, cur, envid, true, e);
    }
  }

  // ---- sys_page_alloc

  /** Environment `e` has the first free page, zeroed, at `va`; nobody else's memory has changed. */
  ghost predicate PageGiven(k: Kernel, k': Kernel, e: nat, va: nat, perm: Perm)
    requires k.Shape() && k'.Shape() && e < NENV && k.mem.free != []
  {
    var f := k.mem.free[0];
    && k'.envs == k.envs && k'.envFree == k.envFree && k'.mem.Size() == k.mem.Size()
    && At(k'.mem, KeyOf(k, e, va)) == Some(Word(f, perm)) && SameFlatBut(k.mem, k'.mem, KeyOf(k, e, va))
    && (forall j :: 0 <= j < 1024 ==> k'.mem.words[f][j] == Word(0, Perm(false, false, false, false, false, false, 0)))
    && SameData(k.mem, k'.mem)
  }

  /** What sys_page_alloc does for `e`, test by test; with no page at all the code says -E_INVAL. */
  ghost predicate AllocOutcome(k: Kernel, k': Kernel, r: int, e: nat, va: nat, perm: Perm)
    requires k.Shape() && k'.Shape() && HasSpace(k, e)
  {
    if BadAddress(va) || BadRights(perm) || k.mem.free == [] then k' == k && r == -3
    else if |k.mem.free| == 1 && NoTable(k, e, va) then r == -4 && Atomic(k, k')
    else r == 0 && PageGiven(k, k', e, va, perm)
  }

  lemma AllocPageReply(k: Kernel, e: nat, va: nat, perm: Perm)
    requires KInv(k) && Live(k, e) && !BadAddress(va) && !BadRights(perm)
    ensures Spaces(k) && HasSpace(k, e)
    ensures var (k', r) := AllocPage(k, e, va, perm); AllocOutcome(k, k', r, e, va, perm)
  {
    KInvSpaces(k);
    SlotOfVa(va);
    if k.mem.free != [] {
      var key := KeyOf(k, e, va);
      PageAllocKeeps(k.mem, true, NO_PAGE);
      var (m1, page) := PageAlloc(k.mem, true);
      PageInsertKeeps(m1, key, page.value, perm);
      assert m1.words[key.d] == k.mem.words[key.d];
      PageAllocAt(k.mem, key, perm);
      AllocMemKeeps(k, key, perm);
    }
  }

  lemma PageAllocReply(k: Kernel, cur: nat, envid: int, va: nat, perm: Perm)
    requires KInv(k) && Live(k, cur)
    ensures Spaces(k)
    ensures var (k', r) := Dispatch(k, cur, PageAllocate(envid, va, perm));
      && (NamesNobody(k, cur, envid, true) ==> k' == k && r == -2)
      && (forall e: nat :: Names(k, cur, envid, true, e) ==> HasSpace(k, e) && AllocOutcome(k, k', r, e, va, perm))
  {
    KInvSpaces(k);
    NobodyIsNamed(k, cur, envid, true);
    var (k', r) := SysPageAlloc(k, cur, envid, va, perm);
    forall e: nat | Names(k, cur, envid, true, e) ensures HasSpace(k, e) && AllocOutcome(k, k', r, e, va, perm) {
      NamedIsFound(k, cur, envid, true, e);
      if !BadAddress(va) && !BadRights(perm) { AllocPageReply(k, e, va, perm); }
    }
  }

  // ---- sys_page_map

  /** `dst` now has at `dstva` the page that `src` has at `srcva`; nothing else has changed. */
  ghost predicate PageShared(k: Kernel, k': Kernel, src: nat, srcva: nat, dst: nat, dstva: nat, perm: Perm)
    requires k.Shape() && k'.Shape() && src < NENV && dst < NENV
  {
    && k'.envs == k.envs && k'.envFree == k.envFree
    && At(k.mem, KeyOf(k, src, srcva)).Some?
    && At(k'.mem, KeyOf(k, dst, dstva)) == Some(Word(At(k.mem, KeyOf(k, src, srcva)).value.frame, perm))
    && SameFlatBut(k.mem, k'.mem, KeyOf(k, dst, dstva)) && SameData(k.mem, k'.mem)
  }

  /** What sys_page_map does for `src` and `dst`; without a page for a table the code says -E_INVAL. */
  ghost predicate MapOutcome(
    k: Kernel, k': Kernel, r: int, src: nat, srcva: nat, dst: nat, dstva: nat, perm: Perm)
    requires k.Shape() && k'.Shape() && src < NENV && HasSpace(k, dst)
  {
    var from := At(k.mem, KeyOf(k, src, srcva));
    if BadAddress(srcva) || BadAddress(dstva) || BadRights(perm) then k' == k && r == -3
    else if from.None? || (perm.w && !from.value.perm.w) then k' == k && r == -3
    else if NoTable(k, dst, dstva) && k.mem.free == [] then k' == k && r == -3
    else r == 0 && PageShared(k, k', src, srcva, dst, dstva, perm)
  }

  /** The insertion itself. */
  lemma InsertFor(k: Kernel, src: nat, srcva: nat, dst: nat, dstva: nat, perm: Perm)
    requires KInv(k) && Live(k, src) && Live(k, dst) && SourceRoom(k, src, srcva) && perm.other < PGSIZE
    requires srcva < 0xEEC0_0000 && dstva < 0xEEC0_0000 && At(k.mem, KeyOf(k, src, srcva)).Some?
    ensures HasSpace(k, dst) && At(k.mem, KeyOf(k, src, srcva)).value.frame < k.mem.Size()
    ensures var key := KeyOf(k, dst, dstva); var f := At(k.mem, KeyOf(k, src, srcva)).value.frame;
      var (m', ok) := PageInsert(k.mem, key.d, f, key.i, key.j, perm);
      && (!ok <==> NoTable(k, dst, dstva) && k.mem.free == [])
      && (!ok ==> m' == k.mem)
      && (ok ==> At(m', key) == Some(Word(f, perm.(p := true))) && SameFlatBut(k.mem, m', key) && SameData(k.mem, m'))
  {
    KInvSpaces(k);
    SlotOfVa(dstva);
    var from := At(k.mem, KeyOf(k, src, srcva));
    AtIsUnique(k.mem, KeyOf(k, src, srcva), from.value);
    assert RefRoom(k.mem, from.value.frame);
    PageInsertKeeps(k.mem, KeyOf(k, dst, dstva), from.value.frame, perm);
  }

  lemma MapPageReply(k: Kernel, src: nat, srcva: nat, dst: nat, dstva: nat, perm: Perm)
    requires KInv(k) && Live(k, src) && Live(k, dst) && SourceRoom(k, src, srcva)
    requires !BadAddress(srcva) && !BadAddress(dstva) && !BadRights(perm)
    ensures Spaces(k) && HasSpace(k, dst)
    ensures var (k', r) := MapPage(k, src, srcva, dst, dstva, perm); MapOutcome(k, k', r, src, srcva, dst, dstva, perm)
  {
    KInvSpaces(k);
    SlotOfVa(srcva);
    SlotOfVa(dstva);
    if At(k.mem, KeyOf(k, src, srcva)).Some? { InsertFor(k, src, srcva, dst, dstva, perm); }
  }

  lemma MapBetween(
    k: Kernel, cur: nat, srcid: int, src: nat, srcva: nat, dstid: int, dst: nat, dstva: nat, perm: Perm)
    requires KInv(k) && Live(k, cur) && MapRoom(k, cur, srcid, srcva)
    requires Envid2Env(k, cur, srcid, true) == Some(src) && Envid2Env(k, cur, dstid, true) == Some(dst)
    ensures Spaces(k) && HasSpace(k, dst)
    ensures var (k', r) := SysPageMap(k, cur, srcid, srcva, dstid, dstva, perm);
      MapOutcome(k, k', r, src, srcva, dst, dstva, perm)
  {
    KInvSpaces(k);
    assert Live(k, src) && Live(k, dst);
    if !BadAddress(srcva) && !BadAddress(dstva) && !BadRights(perm) {
      MapPageReply(k, src, srcva, dst, dstva, perm);
    }
  }

  lemma PageMapReply(k: Kernel, cur: nat, srcid: int, srcva: nat, dstid: int, dstva: nat, perm: Perm)
    requires KInv(k) && Live(k, cur) && MapRoom(k, cur, srcid, srcva)
    ensures Spaces(k)
    ensures var (k', r) := Dispatch(k, cur, PageMap(srcid, srcva, dstid, dstva, perm));
      && (NamesNobody(k, cur, srcid, true) || NamesNobody(k, cur, dstid, true) ==> k' == k && r == -2)
      && (forall src: nat, dst: nat :: Names(k, cur, srcid, true, src) && Names(k, cur, dstid, true, dst) ==>
            HasSpace(k, dst) && MapOutcome(k, k', r, src, srcva, dst, dstva, perm))
  {
    KInvSpaces(k);
    NobodyIsNamed(k, cur, srcid, true);
    NobodyIsNamed(k, cur, dstid, true);
    var (k', r) := SysPageMap(k, cur, srcid, srcva, dstid, dstva, perm);
    forall src: nat, dst: nat | Names(k, cur, srcid, true, src) && Names(k, cur, dstid, true, dst)
      ensures HasSpace(k, dst) && MapOutcome(k, k', r, src, srcva, dst, dstva, perm)
    {
      NamedIsFound(k, cur, srcid, true, src);
      NamedIsFound(k, cur, dstid, true, dst);
      MapBetween(k, cur, srcid, src, srcva, dstid, dst, dstva, perm);
    }
  }

  // ---- sys_page_unmap

  lemma PageUnmapReply(k: Kernel, cur: nat, envid: int, va: nat)
    requires KInv(k) && Live(k, cur)
    ensures Spaces(k)
    ensures NamesNobody(k, cur, envid, true) ==> Dispatch(k, cur, PageUnmap(envid, va)) == (k, -2)
    ensures forall e: nat :: Names(k, cur, envid, true, e) ==>
      var (k', r) := Dispatch(k, cur, PageUnmap(envid, va));
      if BadAddress(va) then (k', r) == (k, -3)
      else
        && r == 0 && k'.envs == k.envs && k'.envFree == k.envFree
        && At(k'.mem, KeyOf(k, e, va)) == None && SameFlatBut(k.mem, k'.mem, KeyOf(k, e, va))
        && SameData(k.mem, k'.mem)
  {
    PageUnmapCall(k, cur, envid, va);
    NobodyIsNamed(k, cur, envid, true);
    forall e: nat | Names(k, cur, envid, true, e) ensures Envid2Env(k, cur, envid, true) == Some(e) {
      NamedIsFound(k, cur, envid, true, e);
    }
  }

  // ---- sys_ipc_try_send

  /** The receiver's record after a send, `perm` being what it finds in env_ipc_perm. */
  ghost predicate Woken(a: Env, b: Env, from: int, value: nat, perm: Perm) {
    && b.status == RUNNABLE && !b.recving && b.from == from && b.value == value && b.perm == perm
    && b.tf.regs.eax == 0 && b.tf == a.tf.(regs := a.tf.regs.(eax := 0))
    && b.id == a.id && b.parent == a.parent && b.pgdir == a.pgdir && b.upcall == a.upcall && b.dstva == a.dstva
  }

  /** Every PTE_SYSCALL bit asked for is set in the sender's entry. */
  ghost predicate MayGrant(have: Perm, perm: Perm) {
    && (perm.p ==> have.p) && (perm.w ==> have.w) && (perm.u ==> have.u)
    && (perm.avail ==> have.avail) && (perm.share ==> have.share) && (perm.cow ==> have.cow)
  }

  /** The page goes along too, with PTE_P added to the permissions. */
  ghost predicate PageAlong(k: Kernel, k': Kernel, cur: nat, e: nat, srcva: nat, perm: Perm)
    requires k.Shape() && k'.Shape() && cur < NENV && e < NENV
  {
    var key := KeyOf(k, e, k.envs[e].dstva);
    && At(k.mem, KeyOf(k, cur, srcva)).Some?
    && At(k'.mem, key) == Some(Word(At(k.mem, KeyOf(k, cur, srcva)).value.frame, perm.(p := true)))
    && SameFlatBut(k.mem, k'.mem, key) && SameData(k.mem, k'.mem)
  }

  /** What a send to `e` does, test by test. */
  ghost predicate SendOutcome(
    k: Kernel, k': Kernel, r: int, cur: nat, e: nat, value: nat, srcva: nat, perm: Perm)
    requires k.Shape() && k'.Shape() && cur < NENV && HasSpace(k, e)
  {
    var from := At(k.mem, KeyOf(k, cur, srcva));
    var dstva := k.envs[e].dstva;
    if !k.envs[e].recving then k' == k && r == -7
    else if srcva < 0xEEC0_0000 && (srcva % 4096 != 0 || from.None? || !MayGrant(from.value.perm, perm)) then
      k' == k && r == -3
    else if srcva < 0xEEC0_0000 && dstva < 0xEEC0_0000 && NoTable(k, e, dstva) && k.mem.free == [] then
      k' == k && r == -4
    else
      && r == 0 && k'.envFree == k.envFree && k'.envs == k.envs[e := k'.envs[e]]
      && if srcva < 0xEEC0_0000 && dstva < 0xEEC0_0000
         then Woken(k.envs[e], k'.envs[e], k.envs[cur].id, value, perm) && PageAlong(k, k', cur, e, srcva, perm)
         else Woken(k.envs[e], k'.envs[e], k.envs[cur].id, value, k.envs[e].perm) && k'.mem == k.mem
  }

  /** With the receiver waiting and the sender's page looked at and found good. */
  lemma CarryReply(k: Kernel, cur: nat, e: nat, srcva: nat, perm: Perm)
    requires KInv(k) && Live(k, cur) && Live(k, e) && SourceRoom(k, cur, srcva) && perm.other < PGSIZE
    requires srcva < 0xEEC0_0000 && srcva % 4096 == 0 && k.envs[e].dstva < 0xEEC0_0000
    requires At(k.mem, KeyOf(k, cur, srcva)).Some? && MayGrant(At(k.mem, KeyOf(k, cur, srcva)).value.perm, perm)
    ensures Spaces(k) && HasSpace(k, cur) && HasSpace(k, e) && PteSet(k, cur, srcva)
    ensures var (m', r, sent) := PageSend(k, cur, e, srcva, perm);
      if NoTable(k, e, k.envs[e].dstva) && k.mem.free == [] then m' == k.mem && r == -4
      else r == 0 && sent == Some(perm) && PageAlong(k, k.(mem := m'), cur, e, srcva, perm)
  {
    KInvSpaces(k);
    LookupIsAt(k, cur, srcva);
    SlotOfVa(srcva);
    InsertFor(k, cur, srcva, e, k.envs[e].dstva, perm);
  }

  lemma SendPageReply(k: Kernel, cur: nat, envid: int, value: nat, srcva: nat, perm: Perm, e: nat)
    requires KInv(k) && Live(k, cur) && SendGuard(k, cur, envid, srcva, perm)
    requires Envid2Env(k, cur, envid, false) == Some(e) && Live(k, e) && k.envs[e].recving && srcva < 0xEEC0_0000
    ensures Spaces(k) && HasSpace(k, e)
    ensures var (k', r) := SysIpcTrySend(k, cur, envid, value, srcva, perm);
      SendOutcome(k, k', r, cur, e, value, srcva, perm)
  {
    KInvSpaces(k);
    if srcva % 4096 == 0 {
      LookupIsAt(k, cur, srcva);
      var from := At(k.mem, KeyOf(k, cur, srcva));
      if MayGrant(from.value.perm, perm) && k.envs[e].dstva < 0xEEC0_0000 {
        CarryReply(k, cur, e, srcva, perm);
      }
    }
  }

  lemma SendReply(k: Kernel, cur: nat, envid: int, value: nat, srcva: nat, perm: Perm)
    requires KInv(k) && Live(k, cur) && SendGuard(k, cur, envid, srcva, perm)
    ensures Spaces(k)
    ensures var (k', r) := Dispatch(k, cur, IpcTrySend(envid, value, srcva, perm));
      && (NamesNobody(k, cur, envid, false) ==> k' == k && r == -2)
      && (forall e: nat :: Names(k, cur, envid, false, e) ==>
            HasSpace(k, e) && SendOutcome(k, k', r, cur, e, value, srcva, perm))
      && (r == -7 <==> exists e: nat :: Names(k, cur, envid, false, e) && !k.envs[e].recving)
  {
    KInvSpaces(k);
    NobodyIsNamed(k, cur, envid, false);
    var (k', r) := SysIpcTrySend(k, cur, envid, value, srcva, perm);
    forall e: nat | Names(k, cur, envid, false, e)
      ensures HasSpace(k, e) && SendOutcome(k, k', r, cur, e, value, srcva, perm)
      ensures Envid2Env(k, cur, envid, false) == Some(e)
    {
      NamedIsFound(k, cur, envid, false, e);
      if k.envs[e].recving && srcva < 0xEEC0_0000 { SendPageReply(k, cur, envid, value, srcva, perm, e); }
    }
    if r == -7 {
      var e := Envid2Env(k, cur, envid, false).value;
      Envid2EnvFinds(k, cur, envid, false, e);
      assert Names(k, cur, envid, false, e) && !k.envs[e].recving;
    }
  }

  // ---- sys_ipc_recv

  lemma RecvReply(k: Kernel, cur: nat, dstva: nat)
    requires KInv(k) && Live(k, cur)
    ensures Spaces(k)
    ensures var (k', r) := Dispatch(k, cur, IpcRecv(dstva));
      if dstva < 0xEEC0_0000 && dstva % 4096 != 0 then (k', r) == (k, -3)
      else
        && r == 0 && k'.mem == k.mem && k'.envFree == k.envFree && k'.envs == k.envs[cur := k'.envs[cur]]
        && var a, b := k.envs[cur], k'.envs[cur];
        && b.status == NOT_RUNNABLE && b.recving && b.dstva == dstva && b.from == 0 && b.value == 0
        && b.perm == Perm(false, false, false, false, false, false, 0)
        && b.id == a.id && b.parent == a.parent && b.pgdir == a.pgdir && b.upcall == a.upcall && b.tf == a.tf
  {
    KInvSpaces(k);
  }

  // ---- sys_exofork, sys_env_destroy, and the calls that change nothing

  lemma ExoforkReply(k: Kernel, cur: nat)
    requires KInv(k) && Live(k, cur)
    ensures Spaces(k)
    ensures var (k', r) := Dispatch(k, cur, Exofork);
      if k.envFree == [] then (k', r) == (k, -5)
      else if k.mem.free == [] then (k', r) == (k, -4)
      else
        var e := k.envFree[0];
        && e < NENV && k'.envFree == k.envFree[1..] && k'.envs == k.envs[e := k'.envs[e]]
        && var a, b := k.envs[e], k'.envs[e];
        && b.status == NOT_RUNNABLE && b.parent == k.envs[cur].id && b.upcall == 0 && !b.recving
        && b.tf == k.envs[cur].tf.(regs := k.envs[cur].tf.regs.(eax := 0))
        && r == b.id && r % 1024 == e && r / 4096 == a.id / 4096 % 524287 + 1
        && b.dstva == a.dstva && b.value == a.value && b.from == a.from && b.perm == a.perm
        && IsDir(k'.mem, b.pgdir) && !IsDir(k.mem, b.pgdir)
        && (forall va: nat :: At(k'.mem, KeyOf(k', e, va)) == None)
  {
    KInvSpaces(k);
    EnvAllocKeeps(k, k.envs[cur].id);
    ExoforkKeeps(k, cur);
    if k.envFree != [] && k.mem.free != [] { EnvAllocStores(k, k.envs[cur].id); }
  }

  lemma DestroyReply(k: Kernel, cur: nat, envid: int)
    requires KInv(k) && Live(k, cur)
    ensures Spaces(k)
    ensures NamesNobody(k, cur, envid, true) ==> Dispatch(k, cur, Destroy(envid)) == (k, -2)
    ensures forall e: nat :: Names(k, cur, envid, true, e) ==>
      var (k', r) := Dispatch(k, cur, Destroy(envid));
      && r == 0
      && if k.envs[e].status == RUNNING && e != cur
         then k' == k.(envs := k.envs[e := k.envs[e].(status := DYING)])
         else
           && k'.envs == k.envs[e := k.envs[e].(pgdir := 0, status := FREE)] && k'.envFree == [e] + k.envFree
           && (forall key :: At(k'.mem, key) == if key.d == k.envs[e].pgdir then None else At(k.mem, key))
  {
    KInvSpaces(k);
    NobodyIsNamed(k, cur, envid, true);
    forall e: nat | Names(k, cur, envid, true, e)
      ensures Envid2Env(k, cur, envid, true) == Some(e)
      ensures Live(k, e) && HasSpace(k, e) && var k1 := EnvFree(k, e);
        && k1.envs == k.envs[e := k.envs[e].(pgdir := 0, status := FREE)] && k1.envFree == [e] + k.envFree
        && (forall key :: At(k1.mem, key) == if key.d == k.envs[e].pgdir then None else At(k.mem, key))
    {
      NamedIsFound(k, cur, envid, true, e);
      EnvFreeKeeps(k, e);
    }
  }

  lemma OtherReplies(k: Kernel, cur: nat, ret: nat)
    requires KInv(k) && Live(k, cur)
    ensures Spaces(k)
    ensures Dispatch(k, cur, GetEnvId) == (k, k.envs[cur].id)
    ensures Dispatch(k, cur, Console(ret)) == (k, ret)
    ensures Dispatch(k, cur, Unknown) == (k, -3)
  {
    KInvSpaces(k);
  }

  // ---- Who is refused

  /** The id of `e` stands where the call asks for permission. */
  ghost predicate ActsOn(call: Call, id: int) {
    match call
    case SetStatus(envid, _) => envid == id
    case SetUpcall(envid, _) => envid == id
    case PageAllocate(envid, _, _) => envid == id
    case PageMap(srcid, _, dstid, _, _) => srcid == id || dstid == id
    case PageUnmap(envid, _) => envid == id
    case Destroy(envid) => envid == id
    case _ => false
  }

  /**
   Every call that would act on a live environment that is neither the caller nor a child of the
   caller is refused and changes nothing; sys_env_set_status looks at the status first.
   */
  lemma StrangersAreSafe(k: Kernel, cur: nat, e: nat, call: Call)
    requires KInv(k) && Live(k, cur) && CountsGuard(k, cur, call)
    requires Live(k, e) && e != cur && k.envs[e].parent != k.envs[cur].id && ActsOn(call, k.envs[e].id)
    ensures Spaces(k)
    ensures Dispatch(k, cur, call) ==
      (k, if call.SetStatus? && call.status != RUNNABLE && call.status != NOT_RUNNABLE then -3 else -2)
  {
    KInvSpaces(k);
    IdNamesSlot(k, e);
    forall x: nat ensures Envid2Env(k, cur, k.envs[e].id, true) != Some(x) {
      Envid2EnvFinds(k, cur, k.envs[e].id, true, x);
      if x < NENV && x != e && k.envs[x].status != FREE { IdNamesSlot(k, x); }
    }
    assert Envid2Env(k, cur, k.envs[e].id, true) == None;
  }
}
