/**
 Copy-on-write fork (lib/fork.c) over the page system calls, and its refinement of the
 eager copy of user/dumbfork.c.
 */
module CowFork {
  import opened Layout
  import opened PageState
  import opened PageInv
  import opened Envs
  import opened Syscalls
  import opened Replies
  import opened UserMemory

  // ---- The library code

  const PTE_SHARED: Perm := Perm(true, true, true, true, true, true, 0)

  /** Room for `n` more references to every mapped page (the 16-bit pp_ref). */
  ghost predicate Room(m: Mem, n: nat)
    requires m.Shape()
  {
    forall f :: 0 <= f < m.Size() && m.role[f] == Data ==> m.refs[f] + n < 65536
  }

  lemma RoomMaps(k: Kernel, cur: nat, srcid: int, va: nat)
    requires KInv(k) && Live(k, cur) && Room(k.mem, 1)
    ensures MapRoom(k, cur, srcid, va)
  {
  }

  /** One changed mapping costs at most one reference. */
  lemma RoomShrinksByOne(m: Mem, m': Mem, key: Key, n: nat)
    requires Inv(m, NO_PAGE) && Inv(m', NO_PAGE) && m'.Size() == m.Size()
    requires SameFlatBut(m, m', key) && Room(m, n + 1) && n < 65535
    ensures Room(m', n)
  {
    forall f | 0 <= f < m.Size() && m'.role[f] == Data ensures m'.refs[f] + n < 65536 {
      assert RefOk(m, f, NO_PAGE) && RefOk(m', f, NO_PAGE);
      AtMostOneMore(m, m', key, f);
      if m.role[f] != Data { LooseIsUnmapped(m, f, NO_PAGE); }
    }
  }

  lemma AtMostOneMore(m: Mem, m': Mem, key: Key, f: nat)
    requires m.Shape() && m'.Shape() && SameFlatBut(m, m', key)
    ensures |Mappers(m', f)| <= |Mappers(m, f)| + 1
  {
    forall x | x in Mappers(m', f) ensures x in Mappers(m, f) + {key} {
      InMappers(m, f, x);
      InMappers(m', f, x);
    }
    SubsetSize(Mappers(m', f), Mappers(m, f) + {key});
  }

  lemma {:induction false} SubsetSize<T>(a: set<T>, b: set<T>)
    requires a <= b
    ensures |a| <= |b|
  {
    assert b == a + (b - a);
  }

  /** The effect of a successful sys_page_map of the caller's own page, with fixed permissions. */
  lemma MapOwnPage(k: Kernel, cur: nat, va: nat, dstid: int, dstva: nat, perm: Perm)
    requires KInv(k) && Live(k, cur) && Room(k.mem, 1) && !perm.w
    ensures Spaces(k)
    ensures var (k', r) := SysPageMap(k, cur, 0, va, dstid, dstva, perm);
      && KInv(k') && k'.envs == k.envs && k'.envFree == k.envFree
      && (r != 0 ==> r < 0 && k' == k)
      && (r == 0 ==>
            && Envid2Env(k, cur, dstid, true).Some? && !BadVa(va) && !BadVa(dstva)
            && var key := KeyOf(k, Envid2Env(k, cur, dstid, true).value, dstva);
            && Mapped(k.mem, KeyOf(k, cur, va)) && SameFlatBut(k.mem, k'.mem, key)
            && At(k'.mem, key) == Some(Word(At(k.mem, KeyOf(k, cur, va)).value.frame, perm))
            && SameData(k.mem, k'.mem))
  {
    RoomMaps(k, cur, 0, va);
    PageMapCall(k, cur, 0, va, dstid, dstva, perm);
  }

  /** uvpt[PGNUM(va)] of environment `e`; the zero word when nothing is mapped. */
  function Uvpt(k: Kernel, e: nat, va: nat): Word
    requires Spaces(k) && Live(k, e)
  {
    match PageLookup(k.mem, k.envs[e].pgdir, Pdx(va), Ptx(va))
    case None => ZERO
    case Some(w) => w
  }

  /**
   duppage: map the caller's page at `va` into environment `child`. `false` is a failed map:
   the library panics, or ignores the error for a page it need not mark copy-on-write.
   */
  function DupPage(k: Kernel, cur: nat, child: int, va: nat): (r: (Kernel, bool))
    requires KInv(k) && Live(k, cur) && Room(k.mem, 2)
    ensures r.0.Shape()
  {
    KInvSpaces(k);
    var perm := Uvpt(k, cur, va).perm;
    if perm.share then
      var (k1, r1) := SysPageMap(k, cur, 0, va, child, va, PTE_SHARED);
      (k1, r1 >= 0)
    else if perm.w || perm.cow then
      MapOwnPage(k, cur, va, child, va, PTE_COW_PU);
      var (k1, r1) := SysPageMap(k, cur, 0, va, child, va, PTE_COW_PU);
      if r1 < 0 then (k1, false)
      else
        KInvSpaces(k1);
        var (k2, r2) := SysPageMap(k1, cur, 0, va, 0, va, PTE_COW_PU);
        (k2, r2 >= 0)
    else
      var (k1, r1) := SysPageMap(k, cur, 0, va, child, va, PTE_PU);
      (k1, r1 >= 0)
  }

  // ---- duppage refines an eager copy

  /** Between the two maps of duppage: the child has the frame read-only, the parent is as before. */
  ghost predicate HalfDup(m: Mem, m': Mem, from: Key, to: Key, perm: Perm)
    requires m.Shape() && m'.Shape()
  {
    && Mapped(m, from) && SameFlatBut(m, m', to) && SameData(m, m')
    && At(m', to) == Some(Word(At(m, from).value.frame, perm))
  }

  lemma HalfDupShows(m: Mem, m': Mem, p: Private, from: Key, to: Key, perm: Perm)
    requires Inv(m, NO_PAGE) && m'.Shape() && Refines(m, p) && HalfDup(m, m', from, to, perm)
    requires !IsExceptionStack(from) && perm.u && !perm.share
    ensures from in p && PlainPages(m') && AllShow(m', p[to := Page(p[from].content, Owned(perm))])
  {
    assert Shows(m, p, from);
    AtIsUnique(m, from, At(m, from).value);
    OneKeyShows(m, m', p, p[to := Page(p[from].content, Owned(perm))], to);
  }

  /** A read-only page may be shared as it is. */
  lemma ReadOnlyDupSingle(m: Mem, m': Mem, from: Key, to: Key, perm: Perm)
    requires m.Shape() && m'.Shape() && SingleWriter(m) && HalfDup(m, m', from, to, perm)
    requires !At(m, from).value.perm.w && !perm.w
    ensures SingleWriter(m')
  {
    forall x, y | Mapped(m', x) && Mapped(m', y) && x != y && At(m', x).value.frame == At(m', y).value.frame
      ensures !At(m', x).value.perm.w
    {
      if x != to {
        assert At(m', x) == At(m, x);
        if y == to && x != from { assert At(m, x).value.frame == At(m, from).value.frame; }
        if y != to { assert At(m', y) == At(m, y); }
      }
    }
  }

  /** Marking the parent copy-on-write as well makes a writable page shareable. */
  lemma CowDupSingle(m: Mem, m1: Mem, m2: Mem, from: Key, to: Key)
    requires m.Shape() && m1.Shape() && m2.Shape() && SingleWriter(m) && from != to
    requires HalfDup(m, m1, from, to, PTE_COW_PU) && SameFlatBut(m1, m2, from)
    requires At(m2, from) == Some(Word(At(m, from).value.frame, PTE_COW_PU))
    ensures SingleWriter(m2)
  {
    forall x, y | Mapped(m2, x) && Mapped(m2, y) && x != y && At(m2, x).value.frame == At(m2, y).value.frame
      ensures !At(m2, x).value.perm.w
    {
      if x != to && x != from {
        assert At(m2, x) == At(m1, x) == At(m, x);
        if y == to || y == from {
          assert At(m, x).value.frame == At(m, from).value.frame;
        } else {
          assert At(m2, y) == At(m1, y) == At(m, y);
        }
      }
    }
  }

  /** What duppage starts from: a page of the parent that shows as it is. */
  lemma DupStart(k: Kernel, p: Private, cur: nat, child: nat, childId: int, va: nat)
    requires KInv(k) && Live(k, cur) && Refines(k.mem, p) && Envid2Env(k, cur, childId, true) == Some(child)
    requires va < USTACKTOP && PgOff(va) == 0 && Mapped(k.mem, KeyOf(k, cur, va))
    ensures Spaces(k) && Live(k, child) && Pdx(va) < PDX_UTOP && !IsExceptionStack(KeyOf(k, cur, va))
    ensures Some(Uvpt(k, cur, va)) == At(k.mem, KeyOf(k, cur, va)) && !Uvpt(k, cur, va).perm.share
    ensures KeyOf(k, cur, va) in p && p[KeyOf(k, cur, va)].writable == Owned(Uvpt(k, cur, va).perm)
  {
    KInvSpaces(k);
    UserVa(va);
    StackIsNotExceptionStack(k, cur, va);
    assert Shows(k.mem, p, KeyOf(k, cur, va));
  }

  /** A page the parent may write, or shares copy-on-write: both maps of duppage. */
  lemma DupOwned(k: Kernel, p: Private, cur: nat, childId: int, child: nat, va: nat)
    requires KInv(k) && Live(k, cur) && Room(k.mem, 2) && Refines(k.mem, p) && Spaces(k)
    requires Envid2Env(k, cur, childId, true) == Some(child) && child != cur
    requires va < USTACKTOP && PgOff(va) == 0 && Mapped(k.mem, KeyOf(k, cur, va))
    requires Uvpt(k, cur, va).perm.w || Uvpt(k, cur, va).perm.cow
    ensures KeyOf(k, cur, va) in p
    ensures var (k', ok) := DupPage(k, cur, childId, va);
      ok ==> KInv(k') && k'.envs == k.envs && k'.envFree == k.envFree
             && Refines(k'.mem, p[KeyOf(k, child, va) := p[KeyOf(k, cur, va)]])
  {
    DupStart(k, p, cur, child, childId, va);
    var from, to := KeyOf(k, cur, va), KeyOf(k, child, va);
    MapOwnPage(k, cur, va, childId, va, PTE_COW_PU);
    var (k1, r1) := SysPageMap(k, cur, 0, va, childId, va, PTE_COW_PU);
    assert p[from] == Page(p[from].content, Owned(PTE_COW_PU));
    if r1 == 0 {
      HalfDupShows(k.mem, k1.mem, p, from, to, PTE_COW_PU);
      CowSecondHalf(k, k1, p[to := p[from]], cur, va, to);
    }
  }

  /** A page nobody may write: one map. */
  lemma DupReadOnly(k: Kernel, p: Private, cur: nat, childId: int, child: nat, va: nat)
    requires KInv(k) && Live(k, cur) && Room(k.mem, 2) && Refines(k.mem, p) && Spaces(k)
    requires Envid2Env(k, cur, childId, true) == Some(child) && child != cur
    requires va < USTACKTOP && PgOff(va) == 0 && Mapped(k.mem, KeyOf(k, cur, va))
    requires !Uvpt(k, cur, va).perm.w && !Uvpt(k, cur, va).perm.cow
    ensures KeyOf(k, cur, va) in p
    ensures var (k', ok) := DupPage(k, cur, childId, va);
      ok ==> KInv(k') && k'.envs == k.envs && k'.envFree == k.envFree
             && Refines(k'.mem, p[KeyOf(k, child, va) := p[KeyOf(k, cur, va)]])
  {
    DupStart(k, p, cur, child, childId, va);
    var from, to := KeyOf(k, cur, va), KeyOf(k, child, va);
    MapOwnPage(k, cur, va, childId, va, PTE_PU);
    var (k1, r1) := SysPageMap(k, cur, 0, va, childId, va, PTE_PU);
    assert p[from] == Page(p[from].content, Owned(PTE_PU));
    if r1 == 0 {
      HalfDupShows(k.mem, k1.mem, p, from, to, PTE_PU);
      ReadOnlyDupSingle(k.mem, k1.mem, from, to, PTE_PU);
    }
  }

  /**
   duppage looks exactly like copying the page: afterwards the child's private memory has
   the parent's contents at `va`, with the same right to write, and nothing else changed
   for anyone. Every frame mapped writable anywhere is again mapped once.
   */
  lemma DupPageRefines(k: Kernel, p: Private, cur: nat, childId: int, child: nat, va: nat)
    requires KInv(k) && Live(k, cur) && Room(k.mem, 2) && Refines(k.mem, p)
    requires Envid2Env(k, cur, childId, true) == Some(child) && child != cur
    requires va < USTACKTOP && PgOff(va) == 0 && Mapped(k.mem, KeyOf(k, cur, va))
    ensures var (k', ok) := DupPage(k, cur, childId, va);
      && (ok ==>
            && KInv(k') && k'.envs == k.envs && k'.envFree == k.envFree
            && KeyOf(k, cur, va) in p
            && Refines(k'.mem, p[KeyOf(k, child, va) := p[KeyOf(k, cur, va)]]))
  {
    DupStart(k, p, cur, child, childId, va);
    var perm := Uvpt(k, cur, va).perm;
    if perm.w || perm.cow {
      DupOwned(k, p, cur, childId, child, va);
    } else {
      DupReadOnly(k, p, cur, childId, child, va);
    }
  }

  /** duppage fails only when no page is left for a table. */
  lemma DupPageFails(k: Kernel, cur: nat, childId: int, child: nat, va: nat)
    requires KInv(k) && Live(k, cur) && Room(k.mem, 2) && PlainPages(k.mem)
    requires Envid2Env(k, cur, childId, true) == Some(child) && child != cur
    requires va < USTACKTOP && PgOff(va) == 0 && Mapped(k.mem, KeyOf(k, cur, va))
    ensures var (k', ok) := DupPage(k, cur, childId, va); !ok ==> k'.mem.free == []
  {
    KInvSpaces(k);
    RoomMaps(k, cur, 0, va);
    UserVa(va);
    assert Live(k, child);
    var from, to := KeyOf(k, cur, va), KeyOf(k, child, va);
    var perm := Uvpt(k, cur, va).perm;
    assert At(k.mem, from) == PageLookup(k.mem, from.d, from.i, from.j);
    var shared := if perm.w || perm.cow then PTE_COW_PU else PTE_PU;
    PageMapFailsWithoutPages(k, cur, 0, va, childId, va, shared);
    MapOwnPage(k, cur, va, childId, va, shared);
    var (k1, r1) := SysPageMap(k, cur, 0, va, childId, va, shared);
    if r1 == 0 && (perm.w || perm.cow) {
      RoomShrinksByOne(k.mem, k1.mem, to, 1);
      assert At(k1.mem, from) == At(k.mem, from);
      RemapFails(k1, cur, va);
    }
  }

  /**
   A page marked PTE_SHARE goes to the child as the same frame, with every PTE_SYSCALL bit, exactly
   when the parent can write it and there is a page for a table if one is needed: duppage asks for
   write access, and ignores the refusal that a read-only page then gets.
   */
  lemma DupPageShares(k: Kernel, cur: nat, childId: int, child: nat, va: nat)
    requires KInv(k) && Live(k, cur) && Room(k.mem, 2) && Envid2Env(k, cur, childId, true) == Some(child)
    requires va < USTACKTOP && PgOff(va) == 0
    requires Mapped(k.mem, KeyOf(k, cur, va)) && At(k.mem, KeyOf(k, cur, va)).value.perm.share
    ensures HasSpace(k, child)
    ensures var (k', ok) := DupPage(k, cur, childId, va); var from := At(k.mem, KeyOf(k, cur, va)).value;
      && (ok <==> from.perm.w && (NoTable(k, child, va) ==> k.mem.free != []))
      && (!ok ==> k' == k)
      && (ok ==>
            && k'.envs == k.envs && SameFlatBut(k.mem, k'.mem, KeyOf(k, child, va)) && SameData(k.mem, k'.mem)
            && At(k'.mem, KeyOf(k, child, va)) == Some(Word(from.frame, Perm(true, true, true, true, true, true, 0))))
  {
    MapShared(k, cur, childId, child, va);
    SharedIsMapped(k, cur, childId, va);
    UserVa(va);
  }

  lemma MapShared(k: Kernel, cur: nat, childId: int, child: nat, va: nat)
    requires KInv(k) && Live(k, cur) && Room(k.mem, 2) && Envid2Env(k, cur, childId, true) == Some(child)
    ensures Spaces(k) && HasSpace(k, child)
    ensures var (k', r) := SysPageMap(k, cur, 0, va, childId, va, PTE_SHARED);
      MapOutcome(k, k', r, cur, va, child, va, PTE_SHARED)
  {
    RoomMaps(k, cur, 0, va);
    MapBetween(k, cur, 0, cur, va, childId, child, va, PTE_SHARED);
  }

  lemma SharedIsMapped(k: Kernel, cur: nat, childId: int, va: nat)
    requires KInv(k) && Live(k, cur) && Room(k.mem, 2) && va < UTOP
    requires Mapped(k.mem, KeyOf(k, cur, va)) && At(k.mem, KeyOf(k, cur, va)).value.perm.share
    ensures Spaces(k)
    ensures var (k1, r1) := SysPageMap(k, cur, 0, va, childId, va, PTE_SHARED);
      DupPage(k, cur, childId, va) == (k1, r1 >= 0)
  {
    KInvSpaces(k);
    UserVa(va);
  }

  lemma RemapFails(k1: Kernel, cur: nat, va: nat)
    requires KInv(k1) && Live(k1, cur) && Room(k1.mem, 1) && va < USTACKTOP
    requires PgOff(va) == 0 && Mapped(k1.mem, KeyOf(k1, cur, va))
    ensures Spaces(k1)
    ensures var (k2, r2) := SysPageMap(k1, cur, 0, va, 0, va, PTE_COW_PU);
      (r2 == 0 || r2 < 0) && (r2 < 0 ==> k2.mem.free == [])
  {
    KInvSpaces(k1);
    RoomMaps(k1, cur, 0, va);
    PageMapFailsWithoutPages(k1, cur, 0, va, 0, va, PTE_COW_PU);
    MapOwnPage(k1, cur, va, 0, va, PTE_COW_PU);
  }

  lemma StackIsNotExceptionStack(k: Kernel, e: nat, va: nat)
    requires k.Shape() && e < NENV && va < USTACKTOP && PgOff(va) == 0
    ensures !IsExceptionStack(KeyOf(k, e, va))
  {
    if Pdx(va) == 954 && Ptx(va) == 1023 {
      PageAddressSplits(va);
      assert false;
    }
  }

  /** The second map of duppage turns the parent's own entry copy-on-write, frame unchanged. */
  lemma RemapOwnCow(k1: Kernel, k2: Kernel, p1: Private, from: Key)
    requires KInv(k1) && k2.Shape() && AllShow(k1.mem, p1) && PlainPages(k1.mem) && Mapped(k1.mem, from)
    requires Owned(At(k1.mem, from).value.perm) && SameFlatBut(k1.mem, k2.mem, from) && SameData(k1.mem, k2.mem)
    requires At(k2.mem, from) == Some(Word(At(k1.mem, from).value.frame, PTE_COW_PU))
    ensures AllShow(k2.mem, p1) && PlainPages(k2.mem)
  {
    assert Shows(k1.mem, p1, from);
    AtIsUnique(k1.mem, from, At(k1.mem, from).value);
    OneKeyShows(k1.mem, k2.mem, p1, p1, from);
  }

  lemma CowSecondHalf(k: Kernel, k1: Kernel, p1: Private, cur: nat, va: nat, to: Key)
    requires KInv(k) && KInv(k1) && k1.envs == k.envs && Live(k, cur) && Room(k.mem, 2)
    requires SingleWriter(k.mem) && HalfDup(k.mem, k1.mem, KeyOf(k, cur, va), to, PTE_COW_PU) && KeyOf(k, cur, va) != to
    requires Owned(At(k.mem, KeyOf(k, cur, va)).value.perm) && PlainPages(k1.mem)
    requires AllShow(k1.mem, p1)
    ensures Spaces(k1)
    ensures var (k2, r2) := SysPageMap(k1, cur, 0, va, 0, va, PTE_COW_PU);
      r2 == 0 ==> KInv(k2) && k2.envs == k1.envs && k2.envFree == k1.envFree && Refines(k2.mem, p1)
  {
    KInvSpaces(k1);
    var from := KeyOf(k, cur, va);
    var (k2, r2) := SysPageMap(k1, cur, 0, va, 0, va, PTE_COW_PU);
    RoomShrinksByOne(k.mem, k1.mem, to, 1);
    MapOwnPage(k1, cur, va, 0, va, PTE_COW_PU);
    if r2 == 0 {
      RemapOwnCow(k1, k2, p1, from);
      CowDupSingle(k.mem, k1.mem, k2.mem, from, to);
    }
  }

  // ---- pgfault

  /** The page the fault handler maps for a moment at PFTEMP. */
  predicate IsTemp(key: Key) {
    key.i == 1 && key.j == 1023
  }

  ghost predicate TempFree(m: Mem)
    requires m.Shape()
  {
    forall key :: IsTemp(key) ==> !Mapped(m, key)
  }

  /** memmove(dst, src, PGSIZE) between two pages the environment maps. */
  function CopyPage(k: Kernel, e: nat, dst: nat, src: nat): (r: Kernel)
    requires Spaces(k) && Live(k, e)
    ensures Spaces(r) && r.envs == k.envs
  {
    var d := k.envs[e].pgdir;
    match (PageLookup(k.mem, d, Pdx(dst), Ptx(dst)), PageLookup(k.mem, d, Pdx(src), Ptx(src)))
    case (Some(to), Some(from)) => Stored(k, to.frame, k.mem.words[from.frame])
    case _ => k
  }

  function Stored(k: Kernel, f: nat, page: seq<Word>): (r: Kernel)
    requires Spaces(k) && f < k.mem.Size() && |page| == NPTENTRIES
    ensures Spaces(r) && r.envs == k.envs
  {
    assert forall e: nat :: e < NENV && k.envs[e].status != FREE ==> HasSpace(k, e);
    k.(mem := StorePage(k.mem, f, page))
  }

  /** pgfault for a fault at `va`; `false` is a panic. */
  function PgFault(k: Kernel, cur: nat, va: nat, write: bool): (r: (Kernel, bool))
    requires KInv(k) && Live(k, cur) && Room(k.mem, 1)
    ensures r.0.Shape()
  {
    KInvSpaces(k);
    var addr := RoundDown(va);
    if !write || !Uvpt(k, cur, va).perm.cow then (k, false)
    else
      MapOwnPage(k, cur, addr, 0, PFTEMP, PTE_PU);
      var (k1, r1) := SysPageMap(k, cur, 0, addr, 0, PFTEMP, PTE_PU);
      if r1 < 0 then (k1, false)
      else
        PageAllocCall(k1, cur, 0, addr, PTE_PWU);
        var (k2, r2) := SysPageAlloc(k1, cur, 0, addr, PTE_PWU);
        if r2 < 0 then (k2, false)
        else
          KInvSpaces(k2);
          var (k3, r3) := SysPageUnmap(CopyPage(k2, cur, addr, PFTEMP), cur, 0, PFTEMP);
          (k3, r3 >= 0)
  }

  lemma RoundDownIndices(va: nat)
    ensures Pdx(RoundDown(va)) == Pdx(va) && Ptx(RoundDown(va)) == Ptx(va) && PgOff(RoundDown(va)) == 0
  {
    assert RoundDown(va) == 4096 * (va / 4096);
    assert RoundDown(va) / 4096 == va / 4096;
    assert RoundDown(va) / 4194304 == va / 4194304;
  }

  lemma TempKey(k: Kernel, e: nat)
    requires k.Shape() && e < NENV
    ensures IsTemp(KeyOf(k, e, PFTEMP)) && PgOff(PFTEMP) == 0
  {
  }

  /** Steps one and two of pgfault: the old frame at PFTEMP, a zeroed private frame in its place. */
  lemma PgFaultMaps(k: Kernel, p: Private, cur: nat, addr: nat)
    requires KInv(k) && Live(k, cur) && Room(k.mem, 1) && Refines(k.mem, p) && TempFree(k.mem)
    requires PgOff(addr) == 0 && addr < UTOP && Mapped(k.mem, KeyOf(k, cur, addr))
    requires !IsExceptionStack(KeyOf(k, cur, addr))
    requires !At(k.mem, KeyOf(k, cur, addr)).value.perm.w
    ensures Spaces(k)
    ensures var (k1, r1) := SysPageMap(k, cur, 0, addr, 0, PFTEMP, PTE_PU);
      var key, temp := KeyOf(k, cur, addr), KeyOf(k, cur, PFTEMP);
      && key in p && temp !in p && key != temp
      && (r1 == 0 ==> KInv(k1) && k1.envs == k.envs && k1.envFree == k.envFree
                      && Refines(k1.mem, p[temp := Page(p[key].content, false)]))
  {
    var key, temp := KeyOf(k, cur, addr), KeyOf(k, cur, PFTEMP);
    TempKey(k, cur);
    assert Shows(k.mem, p, key) && Shows(k.mem, p, temp);
    MapOwnPage(k, cur, addr, 0, PFTEMP, PTE_PU);
    var (k1, r1) := SysPageMap(k, cur, 0, addr, 0, PFTEMP, PTE_PU);
    if r1 == 0 {
      HalfDupShows(k.mem, k1.mem, p, key, temp, PTE_PU);
      ReadOnlyDupSingle(k.mem, k1.mem, key, temp, PTE_PU);
    }
  }

  /** memmove between two mapped pages is a store of the one's contents into the other's frame. */
  lemma CopyIsStore(k: Kernel, cur: nat, dst: nat, src: nat)
    requires KInv(k) && Live(k, cur) && dst < UTOP && src < UTOP
    requires Mapped(k.mem, KeyOf(k, cur, dst)) && Mapped(k.mem, KeyOf(k, cur, src))
    ensures Spaces(k) && At(k.mem, KeyOf(k, cur, dst)).value.frame < k.mem.Size()
    ensures var f := At(k.mem, KeyOf(k, cur, dst)).value.frame; var content := Content(k.mem, KeyOf(k, cur, src));
      CopyPage(k, cur, dst, src) == k.(mem := StorePage(k.mem, f, content)) && KInv(CopyPage(k, cur, dst, src))
  {
    KInvSpaces(k);
    UserVa(dst);
    UserVa(src);
    var key := KeyOf(k, cur, dst);
    AtIsUnique(k.mem, key, At(k.mem, key).value);
    StoreKeepsDirs(k, At(k.mem, key).value.frame, Content(k.mem, KeyOf(k, cur, src)));
  }

  /** Steps three and four: the contents move over, PFTEMP is empty again. */
  lemma PgFaultCopies(k2: Kernel, p: Private, cur: nat, addr: nat)
    requires KInv(k2) && Live(k2, cur) && PgOff(addr) == 0 && addr < UTOP
    requires var key, temp := KeyOf(k2, cur, addr), KeyOf(k2, cur, PFTEMP);
      && key in p && temp !in p && key != temp && !IsExceptionStack(key) && p[key].writable
      && Refines(k2.mem, p[temp := Page(p[key].content, false)][key := Page(ZeroPage(), true)])
      && At(k2.mem, key).Some? && At(k2.mem, key).value.perm.w
    ensures Spaces(k2)
    ensures var k3 := CopyPage(k2, cur, addr, PFTEMP);
      && Live(k3, cur)
      && var (k4, r4) := SysPageUnmap(k3, cur, 0, PFTEMP);
      && r4 == 0 && KInv(k4) && k4.envs == k2.envs && k4.envFree == k2.envFree
      && Refines(k4.mem, p) && At(k4.mem, KeyOf(k2, cur, addr)) == At(k2.mem, KeyOf(k2, cur, addr))
  {
    var key, temp := KeyOf(k2, cur, addr), KeyOf(k2, cur, PFTEMP);
    TempKey(k2, cur);
    var p2 := p[temp := Page(p[key].content, false)][key := Page(ZeroPage(), true)];
    assert Shows(k2.mem, p2, key) && Shows(k2.mem, p2, temp);
    CopyIsStore(k2, cur, addr, PFTEMP);
    var content := Content(k2.mem, temp);
    StoreRefines(k2.mem, p2, key, content);
    var k3 := CopyPage(k2, cur, addr, PFTEMP);
    var p3 := p2[key := p2[key].(content := content)];
    assert p3 - {temp} == p;
    DropTemp(k3, p3, cur, key, temp);
  }

  lemma DropTemp(k3: Kernel, p3: Private, cur: nat, key: Key, temp: Key)
    requires KInv(k3) && Live(k3, cur) && Refines(k3.mem, p3) && temp == KeyOf(k3, cur, PFTEMP) && key != temp
    ensures Spaces(k3)
    ensures var (k4, r4) := SysPageUnmap(k3, cur, 0, PFTEMP);
      && r4 == 0 && KInv(k4) && k4.envs == k3.envs && k4.envFree == k3.envFree
      && Refines(k4.mem, p3 - {temp}) && At(k4.mem, key) == At(k3.mem, key)
  {
    UnmapRefines(k3, p3, cur, 0, PFTEMP);
    PageUnmapCall(k3, cur, 0, PFTEMP);
  }

  lemma StoreKeepsDirs(k: Kernel, f: nat, page: seq<Word>)
    requires KInv(k) && f < k.mem.Size() && k.mem.role[f] == Data && |page| == NPTENTRIES
    ensures KInv(k.(mem := StorePage(k.mem, f, page))) && Spaces(k.(mem := StorePage(k.mem, f, page)))
  {
    StorePageKeeps(k.mem, f, page, NO_PAGE);
    TouchMemKeeps(k, StorePage(k.mem, f, page));
    KInvSpaces(k.(mem := StorePage(k.mem, f, page)));
  }

  /**
   A completed pgfault is invisible: every environment still sees the same contents, and the
   faulting environment now has its page in a writable frame of its own.
   */
  lemma PgFaultRefines(k: Kernel, p: Private, cur: nat, va: nat)
    requires KInv(k) && Live(k, cur) && Room(k.mem, 1) && Refines(k.mem, p) && TempFree(k.mem)
    requires RoundDown(va) < UTOP && Mapped(k.mem, KeyOf(k, cur, RoundDown(va)))
    requires !IsExceptionStack(KeyOf(k, cur, RoundDown(va)))
    requires !At(k.mem, KeyOf(k, cur, RoundDown(va))).value.perm.w
    ensures var (k', ok) := PgFault(k, cur, va, true); var key := KeyOf(k, cur, RoundDown(va));
      ok ==> KInv(k') && k'.envs == k.envs && k'.envFree == k.envFree && Refines(k'.mem, p)
             && At(k'.mem, key).Some? && At(k'.mem, key).value.perm == PTE_PWU
  {
    KInvSpaces(k);
    var addr := RoundDown(va);
    var key, temp := KeyOf(k, cur, addr), KeyOf(k, cur, PFTEMP);
    RoundDownIndices(va);
    UserVa(addr);
    PgFaultMaps(k, p, cur, addr);
    var (k1, r1) := SysPageMap(k, cur, 0, addr, 0, PFTEMP, PTE_PU);
    if r1 == 0 && Uvpt(k, cur, va).perm.cow {
      assert Shows(k.mem, p, key);
      var p1 := p[temp := Page(p[key].content, false)];
      AllocRefines(k1, p1, cur, 0, addr, PTE_PWU);
      PageAllocCall(k1, cur, 0, addr, PTE_PWU);
      var (k2, r2) := SysPageAlloc(k1, cur, 0, addr, PTE_PWU);
      if r2 == 0 {
        PgFaultCopies(k2, p, cur, addr);
      }
    }
  }

  /** pgfault on a copy-on-write page fails only when at most one page is free. */
  lemma PgFaultFails(k: Kernel, cur: nat, va: nat)
    requires KInv(k) && Live(k, cur) && Room(k.mem, 1) && va < UTOP
    requires Mapped(k.mem, KeyOf(k, cur, va)) && At(k.mem, KeyOf(k, cur, va)).value.perm.cow
    ensures var (k', ok) := PgFault(k, cur, va, true); !ok ==> |k'.mem.free| <= 1
  {
    KInvSpaces(k);
    RoundDownIndices(va);
    var addr := RoundDown(va);
    RoomMaps(k, cur, 0, addr);
    UserVa(addr);
    assert At(k.mem, KeyOf(k, cur, va)) == PageLookup(k.mem, k.envs[cur].pgdir, Pdx(va), Ptx(va));
    PageMapFailsWithoutPages(k, cur, 0, addr, 0, PFTEMP, PTE_PU);
    MapOwnPage(k, cur, addr, 0, PFTEMP, PTE_PU);
    var (k1, r1) := SysPageMap(k, cur, 0, addr, 0, PFTEMP, PTE_PU);
    if r1 == 0 {
      PageAllocFailsWithoutPages(k1, cur, 0, addr, PTE_PWU);
      PageAllocCall(k1, cur, 0, addr, PTE_PWU);
    }
  }

  /** pgfault handles nothing but writes to copy-on-write pages. */
  lemma PgFaultRefuses(k: Kernel, cur: nat, va: nat, write: bool)
    requires KInv(k) && Live(k, cur) && Room(k.mem, 1) && va < UTOP
    requires !write || !Mapped(k.mem, KeyOf(k, cur, va)) || !At(k.mem, KeyOf(k, cur, va)).value.perm.cow
    ensures PgFault(k, cur, va, write) == (k, false)
  {
    KInvSpaces(k);
    UserVa(va);
    assert At(k.mem, KeyOf(k, cur, va)) == PageLookup(k.mem, k.envs[cur].pgdir, Pdx(va), Ptx(va));
  }
}
