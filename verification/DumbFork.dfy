/** The eager fork of user/dumbfork.c, and how copy-on-write compares with it. */
module DumbFork {
  import opened Layout
  import opened Trapframes
  import opened PageState
  import opened PageInv
  import opened Envs
  import opened Syscalls
  import opened UserMemory
  import opened CowFork
  import opened CowState
  import opened Fork

  const UTEMP: nat := 0x0040_0000

  /** duppage of dumbfork: a new page for the child, filled through UTEMP; `false` is a panic. */
  function EagerDupPage(k: Kernel, cur: nat, child: int, va: nat): (r: (Kernel, bool))
    requires KInv(k) && Live(k, cur) && Room(k.mem, 2)
    ensures r.0.Shape()
  {
    PageAllocCall(k, cur, child, va, PTE_PWU);
    var (k1, r1) := SysPageAlloc(k, cur, child, va, PTE_PWU);
    if r1 < 0 then (k1, false)
    else
      AllocLeavesRoom(k, cur, child, va);
      CopyViaTemp(k1, cur, child, va)
  }

  /** Its second half, with the new page in the child at `va`. */
  function CopyViaTemp(k1: Kernel, cur: nat, child: int, va: nat): (r: (Kernel, bool))
    requires KInv(k1) && Live(k1, cur) && Room(k1.mem, 1)
    ensures r.0.Shape()
  {
    RoomMaps(k1, cur, child, va);
    PageMapCall(k1, cur, child, va, 0, UTEMP, PTE_PWU);
    var (k2, r2) := SysPageMap(k1, cur, child, va, 0, UTEMP, PTE_PWU);
    if r2 < 0 then (k2, false)
    else
      KInvSpaces(k2);
      var (k3, r3) := SysPageUnmap(CopyPage(k2, cur, UTEMP, va), cur, 0, UTEMP);
      (k3, r3 >= 0)
  }

  lemma AllocLeavesRoom(k: Kernel, cur: nat, child: int, va: nat)
    requires KInv(k) && Live(k, cur) && Room(k.mem, 2)
    ensures Spaces(k)
    ensures SysPageAlloc(k, cur, child, va, PTE_PWU).1 == 0 ==> Room(SysPageAlloc(k, cur, child, va, PTE_PWU).0.mem, 1)
  {
    PageAllocCall(k, cur, child, va, PTE_PWU);
    var (k1, r1) := SysPageAlloc(k, cur, child, va, PTE_PWU);
    if r1 == 0 {
      RoomShrinksByOne(k.mem, k1.mem, KeyOf(k, Envid2Env(k, cur, child, true).value, va), 1);
    }
  }

  /** The new frame after the copy: only the child maps it, and it holds the parent's contents. */
  ghost predicate Filled(m: Mem, m': Mem, from: Key, to: Key)
    requires m.Shape() && m'.Shape()
  {
    && SameFlatBut(m, m', to) && SameContents(m, m', to) && Mapped(m, from)
    && Mapped(m', to) && At(m', to).value.perm == PTE_PWU
    && Unmapped(m, At(m', to).value.frame) && Content(m', to) == Content(m, from)
  }

  /** Every page but `k0` reads as before. */
  ghost predicate SameContents(m: Mem, m': Mem, k0: Key)
    requires m.Shape() && m'.Shape() && SameFlatBut(m, m', k0)
  {
    forall key :: key != k0 && Mapped(m, key) ==> Content(m', key) == Content(m, key)
  }

  lemma FilledRefines(m: Mem, m': Mem, p: Private, from: Key, to: Key)
    requires Inv(m, NO_PAGE) && m'.Shape() && Refines(m, p) && Filled(m, m', from, to) && !IsExceptionStack(from)
    ensures from in p && Refines(m', p[to := Page(p[from].content, true)])
  {
    assert Shows(m, p, from);
    var p' := p[to := Page(p[from].content, true)];
    forall key ensures Shows(m', p', key) {
      assert Shows(m, p, key);
    }
    FreshKeySingle(m, m', to);
  }

  /** The memmove through UTEMP writes the one frame it maps. */
  lemma StoresThroughTemp(k1: Kernel, k2: Kernel, cur: nat, from: Key, to: Key, va: nat)
    requires KInv(k1) && k2.Shape() && Live(k1, cur) && va < UTOP
    requires from == KeyOf(k1, cur, va) && Mapped(k1.mem, from) && Mapped(k1.mem, to)
    requires !Mapped(k1.mem, KeyOf(k1, cur, UTEMP)) && TempHolds(k1, k2, cur, At(k1.mem, to).value.frame)
    ensures Spaces(k2) && Live(k2, cur)
    ensures var k3 := CopyPage(k2, cur, UTEMP, va); var f := At(k1.mem, to).value.frame;
      && KInv(k3) && k3.envs == k1.envs && SameFlat(k2.mem, k3.mem)
      && f < k1.mem.Size() && k3.mem.Size() == k1.mem.Size() && k3.mem.role[f] == Data
      && k3.mem.words[f] == Content(k1.mem, from)
      && forall x :: 0 <= x < k1.mem.Size() && k1.mem.role[x] == Data ==>
           k3.mem.role[x] == Data && (x != f ==> k3.mem.words[x] == k1.mem.words[x])
  {
    AtIsUnique(k1.mem, from, At(k1.mem, from).value);
    AtIsUnique(k1.mem, to, At(k1.mem, to).value);
    CopyIsStore(k2, cur, UTEMP, va);
    MappedIsData(k1, k2, KeyOf(k1, cur, UTEMP));
    StorePageKeeps(k2.mem, At(k1.mem, to).value.frame, Content(k2.mem, from), NO_PAGE);
  }

  /** Copying through UTEMP and dropping UTEMP again changes the bytes of one frame only. */
  lemma FillThroughTemp(k1: Kernel, k2: Kernel, cur: nat, from: Key, to: Key, va: nat)
    requires KInv(k1) && k2.Shape() && Live(k1, cur) && va < UTOP
    requires from == KeyOf(k1, cur, va) && Mapped(k1.mem, from) && Mapped(k1.mem, to)
    requires !Mapped(k1.mem, KeyOf(k1, cur, UTEMP)) && TempHolds(k1, k2, cur, At(k1.mem, to).value.frame)
    requires At(k1.mem, from).value.frame != At(k1.mem, to).value.frame
    ensures Spaces(k2)
    ensures var k3 := CopyPage(k2, cur, UTEMP, va);
      && Live(k3, cur)
      && var (k4, r4) := SysPageUnmap(k3, cur, 0, UTEMP); var f := At(k1.mem, to).value.frame;
      && r4 == 0 && KInv(k4) && k4.envs == k1.envs && SameFlat(k1.mem, k4.mem)
      && f < k1.mem.Size() && k4.mem.Size() == k1.mem.Size()
      && k4.mem.words[f] == Content(k1.mem, from)
      && forall x :: 0 <= x < k1.mem.Size() && k1.mem.role[x] == Data && x != f ==> k4.mem.words[x] == k1.mem.words[x]
  {
    var temp := KeyOf(k1, cur, UTEMP);
    StoresThroughTemp(k1, k2, cur, from, to, va);
    var k3 := CopyPage(k2, cur, UTEMP, va);
    PageUnmapCall(k3, cur, 0, UTEMP);
    var (k4, r4) := SysPageUnmap(k3, cur, 0, UTEMP);
    TempComesAndGoes(k1.mem, k2.mem, k3.mem, k4.mem, temp);
  }

  lemma TempComesAndGoes(m1: Mem, m2: Mem, m3: Mem, m4: Mem, temp: Key)
    requires m1.Shape() && m2.Shape() && m3.Shape() && m4.Shape() && At(m1, temp) == None && At(m4, temp) == None
    requires SameFlatBut(m1, m2, temp) && SameFlat(m2, m3) && SameFlatBut(m3, m4, temp)
    ensures SameFlat(m1, m4)
  {
    forall key ensures At(m4, key) == At(m1, key) {
      if key != temp { assert At(m4, key) == At(m3, key) == At(m2, key); }
    }
  }

  /** A page mapped before and after keeps its role. */
  lemma MappedIsData(k1: Kernel, k2: Kernel, temp: Key)
    requires KInv(k1) && KInv(k2) && SameFlatBut(k1.mem, k2.mem, temp)
    requires !Mapped(k1.mem, temp) && k2.mem.Size() == k1.mem.Size()
    requires Mapped(k2.mem, temp)
    ensures k2.mem.role[At(k2.mem, temp).value.frame] == Data
    ensures forall x :: 0 <= x < k1.mem.Size() && k1.mem.role[x] == Data ==> k2.mem.role[x] == Data
  {
    AtIsUnique(k2.mem, temp, At(k2.mem, temp).value);
    forall x | 0 <= x < k1.mem.Size() && k1.mem.role[x] == Data ensures k2.mem.role[x] == Data {
      assert RefOk(k1.mem, x, NO_PAGE);
      var key :| key in Mappers(k1.mem, x);
      InMappers(k1.mem, x, key);
      assert At(k2.mem, key) == At(k1.mem, key);
      AtIsUnique(k2.mem, key, At(k2.mem, key).value);
    }
  }

  /**
   dumbfork's duppage copies the page: the child gets the parent's contents in a writable
   page of its own, nothing else changes for anyone, and UTEMP is unmapped again.
   */
  lemma EagerDupPageCopies(k: Kernel, p: Private, cur: nat, childId: int, child: nat, va: nat)
    requires KInv(k) && Live(k, cur) && Room(k.mem, 2) && Refines(k.mem, p)
    requires Envid2Env(k, cur, childId, true) == Some(child) && child != cur
    requires va < USTACKTOP && PgOff(va) == 0 && Mapped(k.mem, KeyOf(k, cur, va))
    requires !Mapped(k.mem, KeyOf(k, cur, UTEMP))
    ensures var (k', ok) := EagerDupPage(k, cur, childId, va);
      ok ==> KInv(k') && k'.envs == k.envs && KeyOf(k, cur, va) in p
             && Refines(k'.mem, p[KeyOf(k, child, va) := Page(p[KeyOf(k, cur, va)].content, true)])
             && Filled(k.mem, k'.mem, KeyOf(k, cur, va), KeyOf(k, child, va))
  {
    assert Live(k, child);
    StackIsNotExceptionStack(k, cur, va);
    PageAllocCall(k, cur, childId, va, PTE_PWU);
    var (k1, r1) := SysPageAlloc(k, cur, childId, va, PTE_PWU);
    if r1 == 0 {
      AllocLeavesRoom(k, cur, childId, va);
      SecondHalfCopies(k, k1, p, cur, childId, child, va);
    }
  }

  /** UTEMP, unused before, maps frame `f` and nothing else has changed. */
  ghost predicate TempHolds(k1: Kernel, k2: Kernel, cur: nat, f: nat)
    requires k1.Shape() && k2.Shape() && cur < NENV
  {
    && KInv(k2) && k2.envs == k1.envs
    && SameFlatBut(k1.mem, k2.mem, KeyOf(k1, cur, UTEMP)) && SameData(k1.mem, k2.mem)
    && At(k2.mem, KeyOf(k1, cur, UTEMP)) == Some(Word(f, PTE_PWU))
  }

  lemma MapsTemp(k1: Kernel, cur: nat, childId: int, child: nat, va: nat)
    requires KInv(k1) && Live(k1, cur) && Room(k1.mem, 1)
    requires Envid2Env(k1, cur, childId, true) == Some(child) && Mapped(k1.mem, KeyOf(k1, child, va))
    ensures Spaces(k1) && MapRoom(k1, cur, childId, va)
    ensures var (k2, r2) := SysPageMap(k1, cur, childId, va, 0, UTEMP, PTE_PWU);
      (r2 == 0 || r2 < 0) && (r2 == 0 ==> TempHolds(k1, k2, cur, At(k1.mem, KeyOf(k1, child, va)).value.frame))
  {
    RoomMaps(k1, cur, childId, va);
    PageMapCall(k1, cur, childId, va, 0, UTEMP, PTE_PWU);
  }

  lemma SecondHalfCopies(k: Kernel, k1: Kernel, p: Private, cur: nat, childId: int, child: nat, va: nat)
    requires KInv(k) && KInv(k1) && k1.envs == k.envs && Live(k, cur) && Room(k1.mem, 1) && Refines(k.mem, p)
    requires Envid2Env(k, cur, childId, true) == Some(child) && child != cur
    requires va < USTACKTOP && PgOff(va) == 0 && !IsExceptionStack(KeyOf(k, cur, va))
    requires Mapped(k.mem, KeyOf(k, cur, va)) && !Mapped(k.mem, KeyOf(k, cur, UTEMP))
    requires var from, to := KeyOf(k, cur, va), KeyOf(k, child, va);
      && from != to && KeyOf(k, cur, UTEMP) != to && SameFlatBut(k.mem, k1.mem, to) && SameData(k.mem, k1.mem)
      && Mapped(k1.mem, to) && At(k1.mem, to).value.perm == PTE_PWU && Unmapped(k.mem, At(k1.mem, to).value.frame)
    ensures KeyOf(k, cur, va) in p
    ensures var (k', ok) := CopyViaTemp(k1, cur, childId, va);
      ok ==> KInv(k') && k'.envs == k.envs
             && Refines(k'.mem, p[KeyOf(k, child, va) := Page(p[KeyOf(k, cur, va)].content, true)])
             && Filled(k.mem, k'.mem, KeyOf(k, cur, va), KeyOf(k, child, va))
  {
    var from, to := KeyOf(k, cur, va), KeyOf(k, child, va);
    assert Shows(k.mem, p, from);
    MapsTemp(k1, cur, childId, child, va);
    var (k2, r2) := SysPageMap(k1, cur, childId, va, 0, UTEMP, PTE_PWU);
    if r2 == 0 { CopiesThroughTemp(k, k1, k2, p, cur, from, to, va); }
  }

  /** The copy through UTEMP, from the fresh page at `to` on. */
  lemma CopiesThroughTemp(k: Kernel, k1: Kernel, k2: Kernel, p: Private, cur: nat, from: Key, to: Key, va: nat)
    requires KInv(k) && KInv(k1) && k2.Shape() && k1.envs == k.envs && Live(k, cur) && va < UTOP
    requires Refines(k.mem, p) && from == KeyOf(k, cur, va) && from != to && Mapped(k.mem, from)
    requires !IsExceptionStack(from)
    requires SameFlatBut(k.mem, k1.mem, to) && SameData(k.mem, k1.mem) && Mapped(k1.mem, to)
    requires At(k1.mem, to).value.perm == PTE_PWU && Unmapped(k.mem, At(k1.mem, to).value.frame)
    requires !Mapped(k1.mem, KeyOf(k, cur, UTEMP)) && TempHolds(k1, k2, cur, At(k1.mem, to).value.frame)
    ensures Spaces(k2) && from in p
    ensures var (k4, r4) := SysPageUnmap(CopyPage(k2, cur, UTEMP, va), cur, 0, UTEMP);
      && r4 == 0 && KInv(k4) && k4.envs == k.envs
      && Refines(k4.mem, p[to := Page(p[from].content, true)]) && Filled(k.mem, k4.mem, from, to)
  {
    assert !Maps(k.mem, from, At(k1.mem, to).value.frame);
    FillThroughTemp(k1, k2, cur, from, to, va);
    var k4 := SysPageUnmap(CopyPage(k2, cur, UTEMP, va), cur, 0, UTEMP).0;
    FinishFill(k, k1, k4, from, to);
    FilledRefines(k.mem, k4.mem, p, from, to);
  }

  /** dumbfork's duppage of a mapped page fails only when at most one page is free. */
  lemma EagerDupPageFails(k: Kernel, cur: nat, childId: int, child: nat, va: nat)
    requires KInv(k) && Live(k, cur) && Room(k.mem, 2)
    requires Envid2Env(k, cur, childId, true) == Some(child) && va < USTACKTOP && PgOff(va) == 0
    ensures var (k', ok) := EagerDupPage(k, cur, childId, va); !ok ==> |k'.mem.free| <= 1
  {
    AllocForDup(k, cur, childId, child, va);
    var (k1, r1) := SysPageAlloc(k, cur, childId, va, PTE_PWU);
    if r1 == 0 { SecondHalfFails(k1, cur, childId, child, va); }
  }

  lemma AllocForDup(k: Kernel, cur: nat, childId: int, child: nat, va: nat)
    requires KInv(k) && Live(k, cur) && Room(k.mem, 2)
    requires Envid2Env(k, cur, childId, true) == Some(child) && va < USTACKTOP && PgOff(va) == 0
    ensures Spaces(k)
    ensures var (k1, r1) := SysPageAlloc(k, cur, childId, va, PTE_PWU);
      && (r1 == 0 || r1 < 0) && (r1 < 0 ==> |k1.mem.free| <= 1)
      && (r1 == 0 ==>
            && KInv(k1) && k1.envs == k.envs && Room(k1.mem, 1)
            && At(k1.mem, KeyOf(k1, child, va)).Some? && At(k1.mem, KeyOf(k1, child, va)).value.perm == PTE_PWU)
  {
    PageAllocFailsWithoutPages(k, cur, childId, va, PTE_PWU);
    PageAllocCall(k, cur, childId, va, PTE_PWU);
    AllocLeavesRoom(k, cur, childId, va);
  }

  lemma SecondHalfFails(k1: Kernel, cur: nat, childId: int, child: nat, va: nat)
    requires KInv(k1) && Live(k1, cur) && Room(k1.mem, 1)
    requires Envid2Env(k1, cur, childId, true) == Some(child) && va < USTACKTOP && PgOff(va) == 0
    requires At(k1.mem, KeyOf(k1, child, va)).Some? && At(k1.mem, KeyOf(k1, child, va)).value.perm == PTE_PWU
    ensures var (k', ok) := CopyViaTemp(k1, cur, childId, va); !ok ==> |k'.mem.free| <= 1
  {
    RoomMaps(k1, cur, childId, va);
    PageMapFailsWithoutPages(k1, cur, childId, va, 0, UTEMP, PTE_PWU);
    PageMapCall(k1, cur, childId, va, 0, UTEMP, PTE_PWU);
  }

  lemma FinishFill(k: Kernel, k1: Kernel, k4: Kernel, from: Key, to: Key)
    requires KInv(k) && KInv(k1) && k4.Shape() && SameFlatBut(k.mem, k1.mem, to)
    requires SameData(k.mem, k1.mem) && from != to
    requires Mapped(k.mem, from) && Mapped(k1.mem, to) && At(k1.mem, to).value.perm == PTE_PWU
    requires Unmapped(k.mem, At(k1.mem, to).value.frame) && SameFlat(k1.mem, k4.mem)
    requires var f := At(k1.mem, to).value.frame;
      && f < k1.mem.Size() && k4.mem.Size() == k1.mem.Size() && k4.mem.words[f] == Content(k1.mem, from)
      && forall x :: 0 <= x < k1.mem.Size() && k1.mem.role[x] == Data && x != f ==> k4.mem.words[x] == k1.mem.words[x]
    ensures Filled(k.mem, k4.mem, from, to)
  {
    var f := At(k1.mem, to).value.frame;
    forall key | key != to && Mapped(k.mem, key) ensures Content(k4.mem, key) == Content(k.mem, key) {
      UntouchedByFill(k, k1, k4, to, f, key);
    }
    UntouchedByFill(k, k1, k4, to, f, from);
  }

  /** Every other page keeps its words while page `f` is filled. */
  lemma UntouchedByFill(k: Kernel, k1: Kernel, k4: Kernel, to: Key, f: nat, key: Key)
    requires KInv(k) && KInv(k1) && k4.Shape() && SameFlatBut(k.mem, k1.mem, to) && SameData(k.mem, k1.mem)
    requires SameFlat(k1.mem, k4.mem) && k4.mem.Size() == k1.mem.Size() && Unmapped(k.mem, f)
    requires forall x :: 0 <= x < k1.mem.Size() && k1.mem.role[x] == Data && x != f ==>
      k4.mem.words[x] == k1.mem.words[x]
    requires key != to && Mapped(k.mem, key)
    ensures Mapped(k1.mem, key) && Mapped(k4.mem, key)
    ensures Content(k4.mem, key) == Content(k1.mem, key) == Content(k.mem, key)
  {
    assert At(k4.mem, key) == At(k1.mem, key) == At(k.mem, key);
    assert !Maps(k.mem, key, f);
    AtIsUnique(k.mem, key, At(k.mem, key).value);
    AtIsUnique(k1.mem, key, At(k1.mem, key).value);
  }

  /**
   The two forks compared page by page: for the same private memories, copy-on-write's
   duppage and dumbfork's leave exactly the same private memories if and only if the parent
   may write the page; on a read-only page only the child's right to write differs.
   */
  lemma CowAgreesWithEager(k: Kernel, p: Private, cur: nat, childId: int, child: nat, va: nat)
    requires KInv(k) && Live(k, cur) && Room(k.mem, 2) && Refines(k.mem, p)
    requires Envid2Env(k, cur, childId, true) == Some(child) && child != cur
    requires va < USTACKTOP && PgOff(va) == 0 && Mapped(k.mem, KeyOf(k, cur, va))
    requires !Mapped(k.mem, KeyOf(k, cur, UTEMP))
    requires DupPage(k, cur, childId, va).1 && EagerDupPage(k, cur, childId, va).1
    ensures KeyOf(k, cur, va) in p
    ensures var from, to := KeyOf(k, cur, va), KeyOf(k, child, va);
      var cow, eager := p[to := p[from]], p[to := Page(p[from].content, true)];
      && Refines(DupPage(k, cur, childId, va).0.mem, cow)
      && Refines(EagerDupPage(k, cur, childId, va).0.mem, eager)
      && (cow == eager <==> Owned(At(k.mem, from).value.perm))
      && (forall key :: key in cow ==> key in eager && cow[key].content == eager[key].content)
  {
    DupPageRefines(k, p, cur, childId, child, va);
    EagerDupPageCopies(k, p, cur, childId, child, va);
    var from, to := KeyOf(k, cur, va), KeyOf(k, child, va);
    assert Shows(k.mem, p, from);
    CopiesCompare(p, from, to);
  }

  /** Two copies of a page differ only in the right to write, and only if the original had none. */
  lemma CopiesCompare(p: Private, from: Key, to: Key)
    requires from in p
    ensures var cow, eager := p[to := p[from]], p[to := Page(p[from].content, true)];
      && (cow == eager <==> p[from].writable)
      && forall key :: key in cow ==> key in eager && cow[key].content == eager[key].content
  {
    var cow, eager := p[to := p[from]], p[to := Page(p[from].content, true)];
    assert cow[to] == p[from] && eager[to] == Page(p[from].content, true);
  }

  // ---- dumbfork

  const UTEXT_PAGE: nat := 0x0080_0000 / PGSIZE

  /** A filled page is mapped once and adds no reference to any other. */
  lemma FilledKeepsRoom(m: Mem, m': Mem, from: Key, to: Key)
    requires Inv(m, NO_PAGE) && Inv(m', NO_PAGE) && Filled(m, m', from, to) && Room(m, 2)
    ensures Room(m', 2)
  {
    forall f | 0 <= f < m'.Size() && m'.role[f] == Data ensures m'.refs[f] + 2 < 65536 {
      assert RefOk(m', f, NO_PAGE);
      forall x | x in Mappers(m', f) ensures x == to || x in Mappers(m, f) {
        InMappers(m', f, x);
        InMappers(m, f, x);
      }
      SubsetSize(Mappers(m', f), Mappers(m, f) + {to});
      assert RefOk(m, f, NO_PAGE);
      if m.role[f] != Data { LooseIsUnmapped(m, f, NO_PAGE); }
      if f != At(m', to).value.frame {
        InMappers(m', f, to);
        SubsetSize(Mappers(m', f), Mappers(m, f));
      } else {
        assert forall x :: !Maps(m, x, f);
        forall x ensures x !in Mappers(m, f) { InMappers(m, f, x); }
        assert Mappers(m, f) == {};
      }
    }
  }

  /** `q` is `p` with the numbered pages of directory `d` copied, writable, into directory `d'`. */
  ghost predicate EagerCopied(p: Private, q: Private, d: nat, d': nat, pages: set<nat>) {
    forall key: Key :: key.j < NPTENTRIES ==> EagerAt(p, q, d, d', pages, key)
  }

  ghost predicate EagerAt(p: Private, q: Private, d: nat, d': nat, pages: set<nat>, key: Key) {
    if key.d == d' && PageNo(key) in pages
    then Twin(key, d) in p && key in q && q[key] == Page(p[Twin(key, d)].content, true)
    else (key in q <==> key in p) && (key in p ==> q[key] == p[key])
  }

  lemma EagerCopiedPage(p0: Private, p: Private, d: nat, d': nat, pages: set<nat>, n: nat)
    requires EagerCopied(p0, p, d, d', pages) && d != d' && Key(d, n / 1024, n % 1024) in p
    ensures EagerCopied(p0, p[Key(d', n / 1024, n % 1024) := Page(p[Key(d, n / 1024, n % 1024)].content, true)],
      d, d', pages + {n})
  {
    var from, to := Key(d, n / 1024, n % 1024), Key(d', n / 1024, n % 1024);
    var q := p[to := Page(p[from].content, true)];
    assert EagerAt(p0, p, d, d', pages, from);
    forall key: Key | key.j < NPTENTRIES ensures EagerAt(p0, q, d, d', pages + {n}, key) {
      assert EagerAt(p0, p, d, d', pages, key);
      if key.d == d' && PageNo(key) == n {
        PageNoIsUnique(key, n);
        assert key == to && Twin(key, d) == from;
      }
    }
  }

  /** What holds between two turns: the pages in `pages` have been copied. */
  ghost predicate EagerInv(k0: Kernel, p0: Private, k: Kernel, p: Private, cur: nat, child: nat, pages: set<nat>)
    requires KInv(k0) && cur < NENV && child < NENV
  {
    && KInv(k) && k.envs == k0.envs && Refines(k.mem, p) && Room(k.mem, 2)
    && EagerCopied(p0, p, k0.envs[cur].pgdir, k0.envs[child].pgdir, pages)
  }

  /** The parent maps page `n` and does not use UTEMP. */
  ghost predicate Copyable(k0: Kernel, p0: Private, cur: nat, n: nat)
    requires k0.Shape() && cur < NENV
  {
    n < STACK_PAGES && Key(k0.envs[cur].pgdir, n / 1024, n % 1024) in p0 && KeyOf(k0, cur, UTEMP) !in p0
  }

  lemma EagerStep(
    k0: Kernel, p0: Private, k: Kernel, p: Private, cur: nat, childId: int, child: nat, pages: set<nat>, n: nat)
    requires KInv(k0) && Live(k0, cur) && Envid2Env(k0, cur, childId, true) == Some(child) && child != cur
    requires EagerInv(k0, p0, k, p, cur, child, pages) && Copyable(k0, p0, cur, n)
    ensures Live(k, cur) && KeyOf(k, cur, VaOf(n)) in p
    ensures var (k', ok) := EagerDupPage(k, cur, childId, VaOf(n));
      ok ==> EagerInv(k0, p0, k', p[KeyOf(k, child, VaOf(n)) := Page(p[KeyOf(k, cur, VaOf(n))].content, true)],
        cur, child, pages + {n})
  {
    VaOfIndices(n);
    assert Live(k0, child) && Live(k, cur) && Live(k, child);
    var from, to, temp := KeyOf(k, cur, VaOf(n)), KeyOf(k, child, VaOf(n)), KeyOf(k, cur, UTEMP);
    assert from.d != to.d;
    var d, d' := k0.envs[cur].pgdir, k0.envs[child].pgdir;
    assert EagerAt(p0, p, d, d', pages, from) && EagerAt(p0, p, d, d', pages, temp);
    assert Shows(k.mem, p, from) && Shows(k.mem, p, temp);
    EagerDupPageCopies(k, p, cur, childId, child, VaOf(n));
    EagerCopiedPage(p0, p, d, d', pages, n);
    if EagerDupPage(k, cur, childId, VaOf(n)).1 {
      FilledKeepsRoom(k.mem, EagerDupPage(k, cur, childId, VaOf(n)).0.mem, from, to);
    }
  }

  /** The child has a writable copy of each of the pages, and everyone else sees what they saw. */
  ghost predicate EagerSees(m0: Mem, m: Mem, d: nat, d': nat, pages: set<nat>)
    requires m0.Shape() && m.Shape()
  {
    && (forall n :: n in pages ==> ReadsCopy(m0, m, Key(d, n / 1024, n % 1024), Key(d', n / 1024, n % 1024)))
    && (forall key: Key :: key.d != d' && !IsExceptionStack(key) ==> SeesAs(m0, m, key, key))
  }

  ghost predicate ReadsCopy(m0: Mem, m: Mem, key0: Key, key: Key)
    requires m0.Shape() && m.Shape()
  {
    Mapped(m0, key0) && Mapped(m, key) && Content(m, key) == Content(m0, key0) && Owned(At(m, key).value.perm)
  }

  lemma EagerSeen(m0: Mem, p0: Private, m: Mem, p: Private, d: nat, d': nat, pages: set<nat>)
    requires m0.Shape() && m.Shape() && Refines(m0, p0) && Refines(m, p) && EagerCopied(p0, p, d, d', pages)
    requires forall n :: n in pages ==> n < STACK_PAGES
    ensures EagerSees(m0, m, d, d', pages)
  {
    forall n | n in pages ensures ReadsCopy(m0, m, Key(d, n / 1024, n % 1024), Key(d', n / 1024, n % 1024)) {
      var from, to := Key(d, n / 1024, n % 1024), Key(d', n / 1024, n % 1024);
      assert PageNo(to) == n && Twin(to, d) == from && !IsExceptionStack(to);
      assert EagerAt(p0, p, d, d', pages, to) && Shows(m0, p0, from) && Shows(m, p, to);
    }
    forall key: Key | key.d != d' && !IsExceptionStack(key) ensures SeesAs(m0, m, key, key) {
      assert Shows(m0, p0, key) && Shows(m, p, key);
      if key.j < NPTENTRIES { assert EagerAt(p0, p, d, d', pages, key); }
    }
  }

  ghost function PagesBetween(a: nat, b: nat): set<nat> {
    if b <= a then {} else PagesBetween(a, b - 1) + {b - 1}
  }

  /** The pages dumbfork copies: its text and data up to page number `end`, and the page of its stack. */
  ghost function CopiedPages(end: nat, stackPage: nat): set<nat> { PagesBetween(UTEXT_PAGE, end) + {stackPage} }

  ghost predicate AllCopyable(k0: Kernel, p0: Private, cur: nat, end: nat, stackPage: nat)
    requires k0.Shape() && cur < NENV
  {
    Copyable(k0, p0, cur, stackPage) && forall n :: UTEXT_PAGE <= n < end ==> Copyable(k0, p0, cur, n)
  }

  /** dumbfork's loop and the copy of its own stack. */
  method EagerPages(k0: Kernel, cur: nat, childId: int, ghost child: nat, end: nat, stackPage: nat, ghost p0: Private)
    returns (k: Kernel, ok: bool, ghost p: Private)
    requires KInv(k0) && Live(k0, cur) && Envid2Env(k0, cur, childId, true) == Some(child) && child != cur
    requires Refines(k0.mem, p0) && Room(k0.mem, 2) && AllCopyable(k0, p0, cur, end, stackPage)
    ensures ok ==> EagerInv(k0, p0, k, p, cur, child, CopiedPages(end, stackPage))
    ensures ok ==> EagerSees(k0.mem, k.mem, k0.envs[cur].pgdir, k0.envs[child].pgdir, CopiedPages(end, stackPage))
    ensures !ok ==> |k.mem.free| <= 1
  {
    k, ok, p := EagerText(k0, cur, childId, child, end, p0);
    if !ok { return; }
    k, ok, p := EagerPage(k0, p0, k, p, cur, childId, child, PagesBetween(UTEXT_PAGE, end), stackPage);
    if ok {
      PagesAreUser(k0, p0, cur, end, stackPage);
      EagerSeen(k0.mem, p0, k.mem, p, k0.envs[cur].pgdir, k0.envs[child].pgdir, CopiedPages(end, stackPage));
    }
  }

  lemma PagesAreUser(k0: Kernel, p0: Private, cur: nat, end: nat, stackPage: nat)
    requires k0.Shape() && cur < NENV && AllCopyable(k0, p0, cur, end, stackPage)
    ensures forall n :: n in CopiedPages(end, stackPage) ==> n < STACK_PAGES
  {
    assert UTEXT_PAGE < end ==> Copyable(k0, p0, cur, end - 1);
    BetweenBound(UTEXT_PAGE, end, STACK_PAGES);
  }

  lemma BetweenBound(a: nat, b: nat, bound: nat)
    requires a < b ==> b <= bound
    ensures forall x :: x in PagesBetween(a, b) ==> x < bound
  {
  }

  /** The loop itself. */
  method EagerText(k0: Kernel, cur: nat, childId: int, ghost child: nat, end: nat, ghost p0: Private)
    returns (k: Kernel, ok: bool, ghost p: Private)
    requires KInv(k0) && Live(k0, cur) && Envid2Env(k0, cur, childId, true) == Some(child) && child != cur
    requires Refines(k0.mem, p0) && Room(k0.mem, 2) && forall n :: UTEXT_PAGE <= n < end ==> Copyable(k0, p0, cur, n)
    ensures ok ==> EagerInv(k0, p0, k, p, cur, child, PagesBetween(UTEXT_PAGE, end))
    ensures !ok ==> |k.mem.free| <= 1
  {
    k, ok, p := k0, true, p0;
    var n := UTEXT_PAGE;
    ghost var pages: set<nat> := {};
    while n < end
      invariant UTEXT_PAGE <= n && (n <= end || n == UTEXT_PAGE) && pages == PagesBetween(UTEXT_PAGE, n)
      invariant ok && EagerInv(k0, p0, k, p, cur, child, pages)
    {
      k, ok, p := EagerPage(k0, p0, k, p, cur, childId, child, pages, n);
      if !ok { return; }
      pages := pages + {n};
      n := n + 1;
    }
    assert pages == PagesBetween(UTEXT_PAGE, end);
  }

  method EagerPage(
    ghost k0: Kernel, ghost p0: Private, k: Kernel, ghost p: Private, cur: nat, childId: int, ghost child: nat,
                   ghost pages: set<nat>, n: nat)
    returns (k': Kernel, ok: bool, ghost p': Private)
    requires KInv(k0) && Live(k0, cur) && Envid2Env(k0, cur, childId, true) == Some(child) && child != cur
    requires EagerInv(k0, p0, k, p, cur, child, pages) && Copyable(k0, p0, cur, n)
    ensures ok ==> EagerInv(k0, p0, k', p', cur, child, pages + {n})
    ensures !ok ==> |k'.mem.free| <= 1
  {
    EagerStep(k0, p0, k, p, cur, childId, child, pages, n);
    VaOfIndices(n);
    EagerDupPageFails(k, cur, childId, child, VaOf(n));
    p' := p[KeyOf(k, child, VaOf(n)) := Page(p[KeyOf(k, cur, VaOf(n))].content, true)];
    var copied := EagerDupPage(k, cur, childId, VaOf(n));
    k', ok := copied.0, copied.1;
  }

  /** The child maps nothing but the pages copied. */
  ghost predicate NothingElse(m: Mem, d': nat, pages: set<nat>)
    requires m.Shape()
  {
    forall key: Key :: key.d == d' && Mapped(m, key) ==> PageNo(key) in pages
  }

  /**
   dumbfork as a whole. When it returns the child's id: the child is RUNNABLE with 0 in eax
   and has writable copies of exactly the pages copied, and nothing changed for the parent or
   for anyone else. It fails only when at most one page or no environment is free.
   */
  method DumbForkCall(k0: Kernel, cur: nat, end: nat, stackPage: nat, ghost p0: Private)
    returns (k: Kernel, id: int, ok: bool)
    requires Related(k0, p0) && Live(k0, cur) && Room(k0.mem, 2) && AllCopyable(k0, p0, cur, end, stackPage)
    ensures ok ==>
      && id > 0 && KInv(k) && Live(k, EnvX(id)) && EnvX(id) != cur
      && k.envs[EnvX(id)].id == id && k.envs[EnvX(id)].status == RUNNABLE
      && k.envs[EnvX(id)].tf == WithEax(k0.envs[cur].tf, 0) && k.envs[cur] == k0.envs[cur]
      && EagerSees(k0.mem, k.mem, k0.envs[cur].pgdir, k.envs[EnvX(id)].pgdir, CopiedPages(end, stackPage))
      && NothingElse(k.mem, k.envs[EnvX(id)].pgdir, CopiedPages(end, stackPage))
    ensures !ok ==> |k.mem.free| <= 1 || k.envFree == []
  {
    ExoforkKeeps(k0, cur);
    ExoforkStart(k0, p0, cur);
    var forked := SysExofork(k0, cur);
    k, id, ok := forked.0, forked.1, false;
    if id < 0 { return; }
    CopyableCarries(k0, k, p0, cur, end, stackPage);
    k, ok := FillEagerChild(k0, k, cur, id, end, stackPage, p0);
  }

  lemma CopyableCarries(k0: Kernel, k1: Kernel, p0: Private, cur: nat, end: nat, stackPage: nat)
    requires k0.Shape() && k1.Shape() && cur < NENV && k1.envs[cur].pgdir == k0.envs[cur].pgdir
    requires AllCopyable(k0, p0, cur, end, stackPage)
    ensures AllCopyable(k1, p0, cur, end, stackPage)
  {
    forall n | UTEXT_PAGE <= n < end ensures Copyable(k1, p0, cur, n) {
      assert Copyable(k0, p0, cur, n);
    }
  }

  /** dumbfork after sys_exofork. */
  method FillEagerChild(ghost k0: Kernel, k1: Kernel, cur: nat, id: int, end: nat, stackPage: nat, ghost p0: Private)
    returns (k: Kernel, ok: bool)
    requires Related(k0, p0) && Related(k1, p0) && Room(k1.mem, 2) && Live(k1, cur) && Live(k1, EnvX(id))
    requires Envid2Env(k1, cur, id, true) == Some(EnvX(id)) && EnvX(id) != cur
    requires k1.envs[cur].pgdir == k0.envs[cur].pgdir
    requires AllCopyable(k0, p0, cur, end, stackPage) && AllCopyable(k1, p0, cur, end, stackPage)
    requires forall key :: key in p0 ==> key.d != k1.envs[EnvX(id)].pgdir
    ensures ok ==>
      && KInv(k) && k.envs == k1.envs[EnvX(id) := k1.envs[EnvX(id)].(status := RUNNABLE)]
      && EagerSees(k0.mem, k.mem, k0.envs[cur].pgdir, k.envs[EnvX(id)].pgdir, CopiedPages(end, stackPage))
      && NothingElse(k.mem, k.envs[EnvX(id)].pgdir, CopiedPages(end, stackPage))
    ensures !ok ==> |k.mem.free| <= 1
  {
    ghost var p: Private;
    k, ok, p := EagerPages(k1, cur, id, EnvX(id), end, stackPage, p0);
    if !ok { return; }
    DumbForkSeen(k0, p0, k1, k, p, cur, EnvX(id), end, stackPage);
    k := StartChild(k1, k, cur, id);
  }

  /** The last call of dumbfork. */
  method StartChild(ghost k1: Kernel, k0: Kernel, cur: nat, id: int) returns (k: Kernel)
    requires KInv(k0) && KInv(k1) && k0.envs == k1.envs && Live(k1, cur) && Live(k1, EnvX(id))
    requires Envid2Env(k1, cur, id, true) == Some(EnvX(id)) && EnvX(id) != cur
    ensures KInv(k) && k.mem == k0.mem && k.envs == k1.envs[EnvX(id) := k1.envs[EnvX(id)].(status := RUNNABLE)]
  {
    var started := SysEnvSetStatus(k0, cur, id, RUNNABLE);
    TouchEnvKeeps(k0, started.0, EnvX(id));
    k := started.0;
  }

  lemma DumbForkSeen(
    k0: Kernel, p0: Private, k1: Kernel, k: Kernel, p: Private, cur: nat, child: nat, end: nat, stackPage: nat)
    requires Related(k0, p0) && KInv(k1) && cur < NENV && child < NENV && k1.envs[cur].pgdir == k0.envs[cur].pgdir
    requires EagerInv(k1, p0, k, p, cur, child, CopiedPages(end, stackPage)) && AllCopyable(k0, p0, cur, end, stackPage)
    requires forall key :: key in p0 ==> key.d != k1.envs[child].pgdir
    ensures EagerSees(k0.mem, k.mem, k0.envs[cur].pgdir, k1.envs[child].pgdir, CopiedPages(end, stackPage))
    ensures NothingElse(k.mem, k1.envs[child].pgdir, CopiedPages(end, stackPage))
  {
    var d, d', pages := k0.envs[cur].pgdir, k1.envs[child].pgdir, CopiedPages(end, stackPage);
    PagesAreUser(k0, p0, cur, end, stackPage);
    EagerSeen(k0.mem, p0, k.mem, p, d, d', pages);
    forall key: Key | key.d == d' && Mapped(k.mem, key) ensures PageNo(key) in pages {
      assert Shows(k.mem, p, key) && EagerAt(p0, p, d, d', pages, key);
    }
  }

  /**
   The two forks of one parent agree: run from the same state, and both successful, they
   leave children that read the same words on every page dumbfork copies, which are the
   words the parent had there; on those pages fork's child may write exactly where the
   parent may, dumbfork's everywhere.
   */
  method ForkBothWays(k0: Kernel, cur: nat, upcall: nat, installed: bool, end: nat, stackPage: nat, ghost p0: Private)
    returns (cow: Kernel, cowId: int, eager: Kernel, eagerId: int, ok: bool)
    requires Related(k0, p0) && Live(k0, cur) && Room(k0.mem, 2) && ForkRoom(k0.mem, k0.envs[cur].pgdir)
    requires AllCopyable(k0, p0, cur, end, stackPage)
    ensures ok ==>
      && KInv(cow) && KInv(eager) && Live(cow, EnvX(cowId)) && Live(eager, EnvX(eagerId))
      && forall n :: n in CopiedPages(end, stackPage) ==>
           Agree(k0, cow, eager, cur, EnvX(cowId), EnvX(eagerId), n)
    ensures !ok ==> |cow.mem.free| <= 1 || cow.envFree == [] || |eager.mem.free| <= 1 || eager.envFree == []
  {
    var cowOk, eagerOk;
    ghost var p: Private;
    cow, cowId, cowOk, p := ForkCow(k0, cur, upcall, installed, p0);
    eager, eagerId, eagerOk := DumbForkCall(k0, cur, end, stackPage, p0);
    ok := cowOk && eagerOk;
    if ok {
      PagesAreUser(k0, p0, cur, end, stackPage);
      forall n | n in CopiedPages(end, stackPage) ensures Agree(k0, cow, eager, cur, EnvX(cowId), EnvX(eagerId), n) {
        ChildrenAgree(k0, cow, eager, cur, EnvX(cowId), EnvX(eagerId), CopiedPages(end, stackPage), n);
      }
    }
  }

  /** Page `n` of the parent before, and of the two children after. */
  ghost predicate Agree(k0: Kernel, cow: Kernel, eager: Kernel, cur: nat, cowChild: nat, eagerChild: nat, n: nat)
    requires k0.Shape() && cow.Shape() && eager.Shape() && cur < NENV && cowChild < NENV && eagerChild < NENV
  {
    var i, j := n / 1024, n % 1024;
    var x := Key(k0.envs[cur].pgdir, i, j);
    var y := Key(cow.envs[cowChild].pgdir, i, j);
    var z := Key(eager.envs[eagerChild].pgdir, i, j);
    && Mapped(k0.mem, x) && Mapped(cow.mem, y) && Mapped(eager.mem, z)
    && Content(cow.mem, y) == Content(eager.mem, z) == Content(k0.mem, x)
    && Owned(At(cow.mem, y).value.perm) == Owned(At(k0.mem, x).value.perm) && Owned(At(eager.mem, z).value.perm)
  }

  lemma ChildrenAgree(k0: Kernel, cow: Kernel, eager: Kernel, cur: nat, cowChild: nat, eagerChild: nat,
                      pages: set<nat>, n: nat)
    requires k0.Shape() && cow.Shape() && eager.Shape() && cur < NENV && cowChild < NENV && eagerChild < NENV
    requires ForkSees(k0.mem, cow.mem, k0.envs[cur].pgdir, cow.envs[cowChild].pgdir)
    requires EagerSees(k0.mem, eager.mem, k0.envs[cur].pgdir, eager.envs[eagerChild].pgdir, pages)
    requires n in pages && n < STACK_PAGES
    ensures Agree(k0, cow, eager, cur, cowChild, eagerChild, n)
  {
    var parent := Key(k0.envs[cur].pgdir, n / 1024, n % 1024);
    assert PageNo(parent) == n;
    assert SeesAs(k0.mem, cow.mem, parent, Twin(parent, cow.envs[cowChild].pgdir));
  }
}
