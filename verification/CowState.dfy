/** User stores, page faults and private memories, before they are put together to runs (lib/fork.c, kern/trap.c). */
module CowState {
  import opened Layout
  import opened PageState
  import opened PageInv
  import opened AddressSpace
  import opened Envs
  import opened Syscalls
  import opened UserMemory
  import opened CowFork

  // ---- Stores and faults

  /** A user store through a writable entry. */
  function WriteWord(k: Kernel, e: nat, va: nat, idx: nat, word: Word): (r: Kernel)
    requires Spaces(k) && Live(k, e) && idx < NPTENTRIES
    ensures Spaces(r) && r.envs == k.envs
  {
    match PageLookup(k.mem, k.envs[e].pgdir, Pdx(va), Ptx(va))
    case None => k
    case Some(w) => Stored(k, w.frame, k.mem.words[w.frame][idx := word])
  }

  const EXCEPTION_STACK: nat := UXSTACKTOP - PGSIZE

  /** page_fault_handler's check: the exception stack is mapped writable. */
  predicate CanFault(k: Kernel, e: nat)
    requires Spaces(k) && Live(k, e)
  {
    Uvpt(k, e, EXCEPTION_STACK).perm.w
  }

  /** The frame push and the handler's own pushes. */
  function PushFrame(k: Kernel, e: nat, stack: seq<Word>): (r: Kernel)
    requires Spaces(k) && Live(k, e) && |stack| == NPTENTRIES
    ensures Spaces(r) && r.envs == k.envs
  {
    match PageLookup(k.mem, k.envs[e].pgdir, Pdx(EXCEPTION_STACK), Ptx(EXCEPTION_STACK))
    case None => k
    case Some(w) => Stored(k, w.frame, stack)
  }

  /** The private memories without those of directory `d`. */
  function ExitPages(p: Private, d: nat): Private {
    map key | key in p && key.d != d :: p[key]
  }

  /** Between system calls of duppage and pgfault: nothing at PFTEMP, each writable frame mapped once. */
  ghost predicate Related(k: Kernel, p: Private) {
    KInv(k) && Refines(k.mem, p) && forall key :: key in p ==> !IsTemp(key) && |p[key].content| == NPTENTRIES
  }

  lemma UvptIsAt(k: Kernel, cur: nat, va: nat)
    requires KInv(k) && Live(k, cur) && va < UTOP
    ensures Spaces(k)
    ensures var w := Uvpt(k, cur, va); var at := At(k.mem, KeyOf(k, cur, va));
      (at.Some? ==> w == at.value && w.perm.p) && (at.None? ==> w == ZERO)
  {
    KInvSpaces(k);
    UserVa(va);
    var key := KeyOf(k, cur, va);
    if At(k.mem, key).Some? { AtIsUnique(k.mem, key, At(k.mem, key).value); }
  }

  lemma NotTemp(va: nat)
    requires va < UTOP && PgOff(va) == 0 && va != PFTEMP
    ensures !(Pdx(va) == 1 && Ptx(va) == 1023)
  {
    PageAddressSplits(va);
  }

  /** Private memories notice neither new tables and directories nor bytes of free pages. */
  lemma SameFlatRelated(k: Kernel, k': Kernel, p: Private)
    requires Related(k, p) && KInv(k') && SameFlat(k.mem, k'.mem) && k'.mem.Size() == k.mem.Size()
    requires forall f :: 0 <= f < k.mem.Size() && k.mem.role[f] in {Data, Loose} ==> k'.mem.words[f] == k.mem.words[f]
    ensures Related(k', p)
  {
    forall key ensures Shows(k'.mem, p, key) {
      assert Shows(k.mem, p, key) && At(k'.mem, key) == At(k.mem, key);
      if Mapped(k.mem, key) { AtIsUnique(k.mem, key, At(k.mem, key).value); }
    }
    SameFlatSingle(k.mem, k'.mem);
  }

  /** The private memories that a state with unshared writable frames starts from. */
  ghost function PrivateView(m: Mem): Private
    requires m.Shape()
  {
    map d: nat, i: nat, j: nat | d < m.Size() && i < 955 && j < 1024 && Mapped(m, Key(d, i, j)) ::
      Key(d, i, j) := Page(Content(m, Key(d, i, j)), Owned(At(m, Key(d, i, j)).value.perm))
  }

  lemma ViewIsRelated(k: Kernel)
    requires KInv(k) && SingleWriter(k.mem) && PlainPages(k.mem) && TempFree(k.mem)
    ensures Related(k, PrivateView(k.mem))
  {
    var p := PrivateView(k.mem);
    forall key ensures Shows(k.mem, p, key) {
      if Mapped(k.mem, key) { assert key == Key(key.d, key.i, key.j); }
    }
  }
}
