/** fork and its loop (lib/fork.c:105-147): what the child sees when it returns. */
module Fork {
  import opened Layout
  import opened Trapframes
  import opened PageState
  import opened PageInv
  import opened AddressSpace
  import opened Envs
  import opened Syscalls
  import opened UserMemory
  import opened CowFork
  import opened CowState

  /** PGNUM of the page a key names. */
  function PageNo(key: Key): nat { key.i * 1024 + key.j }

  const STACK_PAGES: nat := USTACKTOP / PGSIZE

  /** The same page in another address space. */
  function Twin(key: Key, d: nat): Key { key.(d := d) }

  /** `q` is `p` with pages below page number `n` of directory `d` copied into directory `d'`. */
  ghost predicate CopiedUpTo(p: Private, q: Private, d: nat, d': nat, n: nat) {
    forall key: Key :: key.j < NPTENTRIES ==> CopiedAt(p, q, d, d', n, key)
  }

  ghost predicate CopiedAt(p: Private, q: Private, d: nat, d': nat, n: nat, key: Key) {
    if key.d == d' && PageNo(key) < n && Twin(key, d) in p
    then key in q && q[key] == p[Twin(key, d)]
    else (key in q <==> key in p) && (key in p ==> q[key] == p[key])
  }

  // ---- How far reference counts can grow

  /** Every mapping is an old one, or the child's twin of an old one of the parent. */
  ghost predicate Inherited(m0: Mem, m: Mem, d: nat, d': nat)
    requires m0.Shape() && m.Shape()
  {
    m.Size() == m0.Size() && forall key :: Mapped(m, key) ==> InheritedAt(m0, m, d, d', key)
  }

  ghost predicate InheritedAt(m0: Mem, m: Mem, d: nat, d': nat, key: Key)
    requires m0.Shape() && m.Shape() && Mapped(m, key)
  {
    var f := At(m, key).value.frame;
    Maps(m0, key, f) || (key.d == d' && Maps(m0, Twin(key, d), f))
  }

  lemma {:induction false} TwinsAreNoMore(a: set<Key>, d': nat)
    ensures |set x | x in a :: Twin(x, d')| <= |a|
  {
    var b := set x | x in a :: Twin(x, d');
    if a != {} {
      var x :| x in a;
      var a1 := a - {x};
      TwinsAreNoMore(a1, d');
      var b1 := set y | y in a1 :: Twin(y, d');
      assert a == a1 + {x};
      assert b == b1 + {Twin(x, d')};
    } else {
      assert b == {};
    }
  }

  /** Room for one more reference to every page per mapping that space `d` has of it, and two to spare. */
  ghost predicate ForkRoom(m: Mem, d: nat)
    requires m.Shape()
  {
    forall f :: 0 <= f < m.Size() && m.role[f] == Data ==> m.refs[f] + |OwnMappers(m, f, d)| < 65534
  }

  /** A fork adds at most one reference per mapping of the parent. */
  lemma CountsGrow(m0: Mem, m: Mem, d: nat, d': nat, f: nat)
    requires Inv(m0, NO_PAGE) && Inv(m, NO_PAGE) && Inherited(m0, m, d, d') && f < m.Size() && m.role[f] == Data
    ensures m.refs[f] <= |Mappers(m0, f)| + |OwnMappers(m0, f, d)|
  {
    var own := OwnMappers(m0, f, d);
    var twins := set x | x in own :: Twin(x, d');
    forall x | x in Mappers(m, f) ensures x in Mappers(m0, f) + twins {
      InMappers(m, f, x);
      InMappers(m0, f, x);
      InMappers(m0, f, Twin(x, d));
      assert InheritedAt(m0, m, d, d', x);
      if x !in Mappers(m0, f) { assert x == Twin(Twin(x, d), d'); }
    }
    SubsetSize(Mappers(m, f), Mappers(m0, f) + twins);
    TwinsAreNoMore(own, d');
    assert RefOk(m, f, NO_PAGE);
  }

  lemma RoomForTwo(m0: Mem, m: Mem, d: nat, d': nat)
    requires Inv(m0, NO_PAGE) && Inv(m, NO_PAGE) && Inherited(m0, m, d, d') && ForkRoom(m0, d)
    ensures Room(m, 2)
  {
    forall f | 0 <= f < m.Size() && m.role[f] == Data ensures m.refs[f] + 2 < 65536 {
      CountsGrow(m0, m, d, d', f);
      assert RefOk(m0, f, NO_PAGE);
      if m0.role[f] != Data {
        LooseIsUnmapped(m0, f, NO_PAGE);
        SubsetSize(OwnMappers(m0, f, d), Mappers(m0, f));
      }
    }
  }

  /** Only `to` may translate to another frame, and it translates to `f`. */
  ghost predicate FrameAdded(m: Mem, m': Mem, to: Key, f: nat)
    requires m.Shape() && m'.Shape()
  {
    && m'.Size() == m.Size() && Mapped(m', to) && At(m', to).value.frame == f
    && forall key :: key != to ==>
         (Mapped(m', key) <==> Mapped(m, key))
         && (Mapped(m, key) ==> At(m', key).value.frame == At(m, key).value.frame)
  }

  lemma FrameKept(m: Mem, m1: Mem, m2: Mem, to: Key, from: Key, f: nat)
    requires m.Shape() && m1.Shape() && m2.Shape() && FrameAdded(m, m1, to, f) && from != to
    requires Mapped(m1, from) && FrameAdded(m1, m2, from, At(m1, from).value.frame)
    ensures FrameAdded(m, m2, to, f)
  {
  }

  lemma MapAddsFrame(k: Kernel, cur: nat, va: nat, dstid: int, perm: Perm)
    requires KInv(k) && Live(k, cur) && Room(k.mem, 1) && !perm.w
    ensures Spaces(k)
    ensures var (k', r) := SysPageMap(k, cur, 0, va, dstid, va, perm);
      r == 0 ==> KInv(k') && k'.envs == k.envs
                 && Envid2Env(k, cur, dstid, true).Some? && Mapped(k.mem, KeyOf(k, cur, va))
                 && FrameAdded(k.mem, k'.mem, KeyOf(k, Envid2Env(k, cur, dstid, true).value, va),
                      At(k.mem, KeyOf(k, cur, va)).value.frame)
  {
    MapOwnPage(k, cur, va, dstid, va, perm);
  }

  /** duppage moves no frame: it only gives the child the parent's frame. */
  lemma DupPageFrames(k: Kernel, cur: nat, childId: int, child: nat, va: nat)
    requires KInv(k) && Live(k, cur) && Room(k.mem, 2) && PlainPages(k.mem)
    requires Envid2Env(k, cur, childId, true) == Some(child) && child != cur && va < UTOP
    requires Mapped(k.mem, KeyOf(k, cur, va))
    ensures var (k', ok) := DupPage(k, cur, childId, va);
      ok ==> FrameAdded(k.mem, k'.mem, KeyOf(k, child, va), At(k.mem, KeyOf(k, cur, va)).value.frame)
  {
    KInvSpaces(k);
    assert Live(k, child);
    UvptIsAt(k, cur, va);
    var perm := Uvpt(k, cur, va).perm;
    if perm.w || perm.cow {
      CowFrames(k, cur, childId, child, va);
    } else {
      MapAddsFrame(k, cur, va, childId, PTE_PU);
    }
  }

  lemma CowFrames(k: Kernel, cur: nat, childId: int, child: nat, va: nat)
    requires KInv(k) && Live(k, cur) && Room(k.mem, 2)
    requires Envid2Env(k, cur, childId, true) == Some(child) && child != cur && Live(k, child)
    requires Mapped(k.mem, KeyOf(k, cur, va))
    ensures Spaces(k)
    ensures var (k1, r1) := SysPageMap(k, cur, 0, va, childId, va, PTE_COW_PU);
      r1 == 0 ==>
        && KInv(k1) && Live(k1, cur) && Spaces(k1)
        && var (k2, r2) := SysPageMap(k1, cur, 0, va, 0, va, PTE_COW_PU);
        r2 == 0 ==> FrameAdded(k.mem, k2.mem, KeyOf(k, child, va), At(k.mem, KeyOf(k, cur, va)).value.frame)
  {
    MapOwnPage(k, cur, va, childId, va, PTE_COW_PU);
    MapAddsFrame(k, cur, va, childId, PTE_COW_PU);
    var (k1, r1) := SysPageMap(k, cur, 0, va, childId, va, PTE_COW_PU);
    if r1 == 0 {
      RoomShrinksByOne(k.mem, k1.mem, KeyOf(k, child, va), 1);
      MapAddsFrame(k1, cur, va, 0, PTE_COW_PU);
      var (k2, r2) := SysPageMap(k1, cur, 0, va, 0, va, PTE_COW_PU);
      if r2 == 0 {
        FrameKept(k.mem, k1.mem, k2.mem, KeyOf(k, child, va), KeyOf(k, cur, va),
          At(k.mem, KeyOf(k, cur, va)).value.frame);
      }
    }
  }

  lemma InheritedStep(m0: Mem, m: Mem, m': Mem, d: nat, d': nat, from: Key)
    requires m0.Shape() && m.Shape() && m'.Shape() && Inherited(m0, m, d, d') && d != d' && from.d == d
    requires Mapped(m, from) && FrameAdded(m, m', Twin(from, d'), At(m, from).value.frame)
    ensures Inherited(m0, m', d, d')
  {
    forall key | Mapped(m', key) ensures InheritedAt(m0, m', d, d', key) {
      if key == Twin(from, d') {
        assert InheritedAt(m0, m, d, d', from);
        assert from == Twin(key, d);
      } else {
        assert InheritedAt(m0, m, d, d', key);
      }
    }
  }

  // ---- The loop of fork

  /** The page at page number `n`. */
  function VaOf(n: nat): nat { n * 4096 }

  lemma VaOfIndices(n: nat)
    requires n < STACK_PAGES
    ensures VaOf(n) < USTACKTOP && PgOff(VaOf(n)) == 0
    ensures Pdx(VaOf(n)) == n / 1024 && Ptx(VaOf(n)) == n % 1024
  {
    assert VaOf(n) / 4096 == n;
    assert VaOf(n) / 4194304 == n / 1024;
  }

  lemma PageNoIsUnique(key: Key, n: nat)
    requires key.j < NPTENTRIES && PageNo(key) == n
    ensures key.i == n / 1024 && key.j == n % 1024
  {
  }

  /** The state after `n` turns of the loop. */
  ghost predicate LoopInv(k0: Kernel, p0: Private, k: Kernel, p: Private, cur: nat, child: nat, n: nat)
    requires KInv(k0) && cur < NENV && child < NENV
  {
    && Related(k, p) && k.envs == k0.envs && k.envFree == k0.envFree
    && CopiedUpTo(p0, p, k0.envs[cur].pgdir, k0.envs[child].pgdir, n)
    && Inherited(k0.mem, k.mem, k0.envs[cur].pgdir, k0.envs[child].pgdir)
  }

  lemma SkippedPage(p0: Private, p: Private, d: nat, d': nat, n: nat)
    requires CopiedUpTo(p0, p, d, d', n) && d != d' && Key(d, n / 1024, n % 1024) !in p
    ensures CopiedUpTo(p0, p, d, d', n + 1)
  {
    forall key: Key | key.j < NPTENTRIES ensures CopiedAt(p0, p, d, d', n + 1, key) {
      assert CopiedAt(p0, p, d, d', n, key);
      if key.d == d' && PageNo(key) == n {
        PageNoIsUnique(key, n);
        assert CopiedAt(p0, p, d, d', n, Twin(key, d));
      }
    }
  }

  lemma CopiedPage(p0: Private, p: Private, d: nat, d': nat, n: nat)
    requires CopiedUpTo(p0, p, d, d', n) && d != d' && Key(d, n / 1024, n % 1024) in p
    ensures CopiedUpTo(p0, p[Key(d', n / 1024, n % 1024) := p[Key(d, n / 1024, n % 1024)]], d, d', n + 1)
  {
    var q := p[Key(d', n / 1024, n % 1024) := p[Key(d, n / 1024, n % 1024)]];
    assert CopiedAt(p0, p, d, d', n, Key(d, n / 1024, n % 1024));
    forall key: Key | key.j < NPTENTRIES ensures CopiedAt(p0, q, d, d', n + 1, key) {
      assert CopiedAt(p0, p, d, d', n, key);
      if key.d == d' && PageNo(key) == n {
        PageNoIsUnique(key, n);
        assert key == Key(d', n / 1024, n % 1024);
      }
    }
  }

  /** One turn of the loop at a page the parent maps. */
  lemma LoopStep(k0: Kernel, p0: Private, k: Kernel, p: Private, cur: nat, childId: int, child: nat, n: nat)
    requires KInv(k0) && Live(k0, cur) && child < NENV && child != cur && n < STACK_PAGES
    requires LoopInv(k0, p0, k, p, cur, child, n) && Room(k.mem, 2)
    requires Envid2Env(k, cur, childId, true) == Some(child)
    requires Mapped(k.mem, KeyOf(k, cur, VaOf(n)))
    ensures KInv(k) && Live(k, cur) && KeyOf(k, cur, VaOf(n)) in p
    ensures var (k', ok) := DupPage(k, cur, childId, VaOf(n));
      ok ==> LoopInv(k0, p0, k', p[KeyOf(k, child, VaOf(n)) := p[KeyOf(k, cur, VaOf(n))]], cur, child, n + 1)
  {
    VaOfIndices(n);
    assert Live(k, cur) && Live(k, child);
    var from, to := KeyOf(k, cur, VaOf(n)), KeyOf(k, child, VaOf(n));
    assert Shows(k.mem, p, from);
    assert from.d != to.d;
    DupPageRefines(k, p, cur, childId, child, VaOf(n));
    var (k', ok) := DupPage(k, cur, childId, VaOf(n));
    if ok {
      CopiedPage(p0, p, from.d, to.d, n);
      LoopInherits(k0, k, k', cur, childId, child, n);
      RelatedCopy(k, k', p, from, to, p[to := p[from]]);
    }
  }

  lemma RelatedCopy(k: Kernel, k': Kernel, p: Private, from: Key, to: Key, q: Private)
    requires Related(k, p) && from in p && q == p[to := p[from]] && to.i == from.i && to.j == from.j
    requires KInv(k') && Refines(k'.mem, q)
    ensures Related(k', q)
  {
    forall key | key in q ensures !IsTemp(key) && |q[key].content| == NPTENTRIES {
      if key != to { assert key in p; }
    }
  }

  /** The page just copied is inherited from the same page of the parent. */
  lemma LoopInherits(k0: Kernel, k: Kernel, k': Kernel, cur: nat, childId: int, child: nat, n: nat)
    requires KInv(k0) && KInv(k) && Live(k, cur) && child < NENV && child != cur && n < STACK_PAGES
    requires Room(k.mem, 2) && PlainPages(k.mem) && Envid2Env(k, cur, childId, true) == Some(child)
    requires Mapped(k.mem, KeyOf(k, cur, VaOf(n)))
    requires k.envs == k0.envs && Inherited(k0.mem, k.mem, k0.envs[cur].pgdir, k0.envs[child].pgdir)
    requires VaOf(n) < UTOP && DupPage(k, cur, childId, VaOf(n)) == (k', true)
    ensures Inherited(k0.mem, k'.mem, k0.envs[cur].pgdir, k0.envs[child].pgdir)
  {
    var from, to := KeyOf(k, cur, VaOf(n)), KeyOf(k, child, VaOf(n));
    DupPageFrames(k, cur, childId, child, VaOf(n));
    assert Live(k, child) && from.d != to.d && to == Twin(from, to.d);
    InheritedStep(k0.mem, k.mem, k'.mem, from.d, to.d, from);
  }

  /** fork's loop over the parent's pages below USTACKTOP; `ok` is false when memory runs out. */
  method CopyPages(k0: Kernel, cur: nat, childId: int, ghost child: nat, ghost p0: Private)
    returns (k: Kernel, ok: bool, ghost p: Private)
    requires Related(k0, p0) && Live(k0, cur)
    requires Envid2Env(k0, cur, childId, true) == Some(child) && child != cur
    requires ForkRoom(k0.mem, k0.envs[cur].pgdir)
    ensures ok ==> LoopInv(k0, p0, k, p, cur, child, STACK_PAGES)
    ensures !ok ==> k.mem.free == []
  {
    k, ok, p := k0, true, p0;
    var addr := 0;
    ghost var n := 0;
    while addr < USTACKTOP
      invariant n <= STACK_PAGES && addr == VaOf(n) && ok
      invariant LoopInv(k0, p0, k, p, cur, child, n)
    {
      k, ok, p := CopyOnePage(k0, p0, k, p, cur, childId, child, addr, n);
      if !ok { return; }
      addr := addr + PGSIZE;
      n := n + 1;
    }
  }

  /** One turn. */
  method CopyOnePage(
    ghost k0: Kernel, ghost p0: Private, k: Kernel, ghost p: Private, cur: nat, childId: int, ghost child: nat,
                  addr: nat, ghost n: nat)
    returns (k': Kernel, ok: bool, ghost p': Private)
    requires KInv(k0) && Live(k0, cur) && Envid2Env(k0, cur, childId, true) == Some(child) && child != cur
    requires ForkRoom(k0.mem, k0.envs[cur].pgdir)
    requires n < STACK_PAGES && addr == VaOf(n) && LoopInv(k0, p0, k, p, cur, child, n)
    ensures ok ==> LoopInv(k0, p0, k', p', cur, child, n + 1)
    ensures !ok ==> k'.mem.free == []
  {
    k', ok, p' := k, true, p;
    LoopLive(k0, p0, k, p, cur, childId, child, n);
    var pte := Uvpt(k, cur, addr);
    UvptIsAt(k, cur, addr);
    VaOfIndices(n);
    RoomForTwo(k0.mem, k.mem, k0.envs[cur].pgdir, k0.envs[child].pgdir);
    if pte.perm.p && pte.perm.u {
      LoopStep(k0, p0, k, p, cur, childId, child, n);
      DupPageFails(k, cur, childId, child, addr);
      p' := p[KeyOf(k, child, addr) := p[KeyOf(k, cur, addr)]];
      var copied := DupPage(k, cur, childId, addr);
      k', ok := copied.0, copied.1;
    } else {
      assert Shows(k.mem, p, KeyOf(k, cur, addr));
      SkippedPage(p0, p, k0.envs[cur].pgdir, k0.envs[child].pgdir, n);
    }
  }

  lemma LoopLive(k0: Kernel, p0: Private, k: Kernel, p: Private, cur: nat, childId: int, child: nat, n: nat)
    requires KInv(k0) && Live(k0, cur) && Envid2Env(k0, cur, childId, true) == Some(child) && child != cur
    requires LoopInv(k0, p0, k, p, cur, child, n)
    ensures Live(k, cur) && Live(k, child) && Envid2Env(k, cur, childId, true) == Some(child) && Spaces(k)
    ensures k0.envs[cur].pgdir != k0.envs[child].pgdir
  {
    KInvSpaces(k);
    assert Live(k0, child);
  }

  // ---- fork

  /** What a finished fork shows: the child has the parent's pages, the parent and everyone else are as before. */
  ghost predicate ForkedView(p0: Private, p: Private, d: nat, d': nat) {
    forall key: Key :: key.i < PDX_UTOP && key.j < NPTENTRIES ==> ForkedAt(p0, p, d, d', key)
  }

  ghost predicate ForkedAt(p0: Private, p: Private, d: nat, d': nat, key: Key) {
    if key.d != d' then (key in p <==> key in p0) && (key in p ==> p[key] == p0[key])
    else if PageNo(key) < STACK_PAGES then
      (key in p <==> Twin(key, d) in p0) && (key in p ==> p[key] == p0[Twin(key, d)])
    else (key in p <==> IsExceptionStack(key)) && (key in p ==> p[key].writable)
  }

  /** In `m` page `key` reads as `key0` did in `m0`, with the same right to write. */
  ghost predicate SeesAs(m0: Mem, m: Mem, key0: Key, key: Key)
    requires m0.Shape() && m.Shape()
  {
    && (Mapped(m, key) <==> Mapped(m0, key0))
    && (Mapped(m0, key0) ==>
          Content(m, key) == Content(m0, key0) && Owned(At(m, key).value.perm) == Owned(At(m0, key0).value.perm))
  }

  /**
   The same in terms of page tables and frames: the child has the parent's pages below
   USTACKTOP and an exception stack; all but exception stacks is as it was for everyone else.
   */
  ghost predicate ForkSees(m0: Mem, m: Mem, d: nat, d': nat)
    requires m0.Shape() && m.Shape()
  {
    && (forall key: Key :: key.d == d && key.j < NPTENTRIES && PageNo(key) < STACK_PAGES ==>
          SeesAs(m0, m, key, Twin(key, d')))
    && (forall key: Key :: key.d != d' && !IsExceptionStack(key) ==> SeesAs(m0, m, key, key))
    && (forall key: Key :: key.d == d' && key.i < PDX_UTOP && key.j < NPTENTRIES && PageNo(key) >= STACK_PAGES ==>
          (Mapped(m, key) <==> IsExceptionStack(key)) && (Mapped(m, key) ==> Owned(At(m, key).value.perm)))
  }

  lemma ForkSeen(k0: Kernel, p0: Private, p1: Private, k: Kernel, p: Private, d: nat, d': nat)
    requires Related(k0, p0) && Related(k, p) && ForkedView(p1, p, d, d')
    requires forall key :: !IsExceptionStack(key) ==> (key in p1 <==> key in p0) && (key in p0 ==> p1[key] == p0[key])
    ensures ForkSees(k0.mem, k.mem, d, d')
  {
    forall key: Key | key.d == d && key.j < NPTENTRIES && PageNo(key) < STACK_PAGES
      ensures SeesAs(k0.mem, k.mem, key, Twin(key, d'))
    {
      assert ForkedAt(p1, p, d, d', Twin(key, d')) && Twin(Twin(key, d'), d) == key;
      assert Shows(k0.mem, p0, key) && Shows(k.mem, p, Twin(key, d'));
    }
    forall key: Key | key.d != d' && !IsExceptionStack(key) ensures SeesAs(k0.mem, k.mem, key, key) {
      assert Shows(k0.mem, p0, key) && Shows(k.mem, p, key);
      if key.i < PDX_UTOP && key.j < NPTENTRIES { assert ForkedAt(p1, p, d, d', key); }
    }
    forall key: Key | key.d == d' && key.i < PDX_UTOP && key.j < NPTENTRIES && PageNo(key) >= STACK_PAGES
      ensures Mapped(k.mem, key) <==> IsExceptionStack(key)
      ensures Mapped(k.mem, key) ==> Owned(At(k.mem, key).value.perm)
    {
      assert ForkedAt(p1, p, d, d', key) && Shows(k.mem, p, key);
    }
  }

  /** Counts follow the translations, and so does the room for more. */
  lemma SameFlatSameRoom(m: Mem, m': Mem, d: nat)
    requires Inv(m, NO_PAGE) && Inv(m', NO_PAGE) && SameFlat(m, m') && m'.Size() == m.Size()
    ensures ForkRoom(m, d) ==> ForkRoom(m', d)
    ensures Room(m, 2) ==> Room(m', 2)
  {
    forall f | 0 <= f < m.Size() && m'.role[f] == Data
      ensures m.role[f] == Data && m'.refs[f] == m.refs[f] && OwnMappers(m', f, d) == OwnMappers(m, f, d)
    {
      assert RefOk(m', f, NO_PAGE) && RefOk(m, f, NO_PAGE);
      SameMappers(m, m', f);
      if m.role[f] != Data { LooseIsUnmapped(m, f, NO_PAGE); }
    }
  }

  /** The child starts with nothing mapped. */
  lemma ExoforkStart(k: Kernel, p: Private, cur: nat)
    requires Related(k, p) && Live(k, cur)
    ensures var (k', id) := SysExofork(k, cur);
      id > 0 ==>
        && Related(k', p) && Live(k', cur) && EnvX(id) != cur && Envid2Env(k', cur, id, true) == Some(EnvX(id))
        && k'.envs[cur].pgdir == k.envs[cur].pgdir
        && k'.mem.Size() == k.mem.Size()
        && (forall key :: key in p ==> key.d != k'.envs[EnvX(id)].pgdir)
        && (ForkRoom(k.mem, k.envs[cur].pgdir) ==> ForkRoom(k'.mem, k.envs[cur].pgdir))
        && (Room(k.mem, 2) ==> Room(k'.mem, 2))
  {
    ExoforkKeeps(k, cur);
    var (k', id) := SysExofork(k, cur);
    if id > 0 {
      SameFlatRelated(k, k', p);
      var e := EnvX(id);
      EmptySpace(k', e);
      forall key | key in p ensures key.d != k'.envs[e].pgdir {
        assert Shows(k'.mem, p, key);
      }
      SameFlatSameRoom(k.mem, k'.mem, k.envs[cur].pgdir);
    }
  }

  lemma EmptySpace(k: Kernel, e: nat)
    requires k.Shape() && e < NENV && forall va: nat :: At(k.mem, KeyOf(k, e, va)) == None
    ensures forall key: Key :: key.d == k.envs[e].pgdir ==> At(k.mem, key) == None
  {
    forall key: Key | key.d == k.envs[e].pgdir ensures At(k.mem, key) == None {
      if key.i < PDX_UTOP && key.j < NPTENTRIES {
        PageAddressJoins(key.i, key.j);
        assert key == KeyOf(k, e, PgAddr(key.i, key.j));
      }
    }
  }

  /** The child's exception stack, and the end of fork. */
  lemma ForkViewDone(k1: Kernel, p0: Private, k2: Kernel, p2: Private, cur: nat, child: nat, page: Page)
    requires KInv(k1) && Live(k1, cur) && Live(k1, child) && cur != child
    requires LoopInv(k1, p0, k2, p2, cur, child, STACK_PAGES) && page.writable
    requires forall key :: key in p0 ==> key.d != k1.envs[child].pgdir
    ensures ForkedView(p0, p2[KeyOf(k2, child, EXCEPTION_STACK) := page], k1.envs[cur].pgdir, k1.envs[child].pgdir)
  {
    var d, d' := k1.envs[cur].pgdir, k1.envs[child].pgdir;
    var ux := KeyOf(k2, child, EXCEPTION_STACK);
    assert ux == Key(d', 954, 1023);
    forall key: Key | key.i < PDX_UTOP && key.j < NPTENTRIES ensures ForkedAt(p0, p2[ux := page], d, d', key) {
      assert CopiedAt(p0, p2, d, d', STACK_PAGES, key);
    }
  }

  /**
   set_pgfault_handler: the first time, an exception stack for the caller and the upcall.
   `ok` is false when there is no memory for the stack.
   */
  method SetHandler(k0: Kernel, cur: nat, upcall: nat, installed: bool, ghost p0: Private)
    returns (k: Kernel, ok: bool, ghost p: Private)
    requires Related(k0, p0) && Live(k0, cur) && ForkRoom(k0.mem, k0.envs[cur].pgdir)
    ensures ok ==>
      && Related(k, p) && Live(k, cur) && ForkRoom(k.mem, k.envs[cur].pgdir)
      && k.envs == (if installed then k0.envs else k0.envs[cur := k0.envs[cur].(upcall := upcall)])
      && (if installed then k == k0 else StackGiven(k, cur))
      && forall key :: !IsExceptionStack(key) ==> (key in p <==> key in p0) && (key in p0 ==> p[key] == p0[key])
    ensures !ok ==> |k.mem.free| <= 1
  {
    if installed { return k0, true, p0; }
    k, ok, p := FirstHandler(k0, cur, upcall, p0);
  }

  method FirstHandler(k0: Kernel, cur: nat, upcall: nat, ghost p0: Private)
    returns (k: Kernel, ok: bool, ghost p: Private)
    requires Related(k0, p0) && Live(k0, cur) && ForkRoom(k0.mem, k0.envs[cur].pgdir)
    ensures p == p0[KeyOf(k0, cur, EXCEPTION_STACK) := Page(ZeroPage(), true)]
    ensures ok ==>
      && Related(k, p) && Live(k, cur) && ForkRoom(k.mem, k.envs[cur].pgdir) && StackGiven(k, cur)
      && k.envs == k0.envs[cur := k0.envs[cur].(upcall := upcall)]
    ensures !ok ==> |k.mem.free| <= 1
  {
    StackAllocated(k0, p0, cur, 0, cur);
    StackRefused(k0, cur, 0, cur);
    StackKeepsRoom(k0, cur);
    PageAllocCall(k0, cur, 0, EXCEPTION_STACK, PTE_PWU);
    p := p0[KeyOf(k0, cur, EXCEPTION_STACK) := Page(ZeroPage(), true)];
    var stack := SysPageAlloc(k0, cur, 0, EXCEPTION_STACK, PTE_PWU);
    k, ok := stack.0, stack.1 >= 0;
    if ok { k := SetUpcall(k, cur, upcall, p); }
  }

  method SetUpcall(k0: Kernel, cur: nat, upcall: nat, ghost p: Private) returns (k: Kernel)
    requires Related(k0, p) && Live(k0, cur)
    ensures Related(k, p) && Live(k, cur) && k.mem == k0.mem
    ensures k.envs == k0.envs[cur := k0.envs[cur].(upcall := upcall)]
  {
    var set_ := SysEnvSetPgfaultUpcall(k0, cur, 0, upcall);
    TouchEnvKeeps(k0, set_.0, cur);
    k := set_.0;
  }

  /** The page just below UXSTACKTOP is mapped, for the environment to read and write. */
  ghost predicate StackGiven(k: Kernel, e: nat)
    requires k.Shape() && e < NENV
  {
    var w := At(k.mem, KeyOf(k, e, 0xEEBF_F000));
    w.Some? && w.value.perm.p && w.value.perm.u && w.value.perm.w
  }

  /** A fresh stack page adds no reference to any page that had one. */
  lemma StackKeepsRoom(k: Kernel, cur: nat)
    requires KInv(k) && Live(k, cur) && ForkRoom(k.mem, k.envs[cur].pgdir)
    ensures Spaces(k)
    ensures var (k', r) := SysPageAlloc(k, cur, 0, EXCEPTION_STACK, PTE_PWU);
      r == 0 ==> ForkRoom(k'.mem, k.envs[cur].pgdir)
  {
    PageAllocCall(k, cur, 0, EXCEPTION_STACK, PTE_PWU);
    var (k', r) := SysPageAlloc(k, cur, 0, EXCEPTION_STACK, PTE_PWU);
    if r == 0 {
      forall f | 0 <= f < k'.mem.Size() && k'.mem.role[f] == Data
        ensures k'.mem.refs[f] + |OwnMappers(k'.mem, f, k.envs[cur].pgdir)| < 65534
      {
        FreshKeyRoom(k.mem, k'.mem, KeyOf(k, cur, EXCEPTION_STACK), k.envs[cur].pgdir, f);
      }
    }
  }

  lemma FreshKeyRoom(m: Mem, m': Mem, to: Key, d: nat, f: nat)
    requires Inv(m, NO_PAGE) && Inv(m', NO_PAGE) && m'.Size() == m.Size() && ForkRoom(m, d)
    requires SameFlatBut(m, m', to) && Mapped(m', to) && Unmapped(m, At(m', to).value.frame)
    requires f < m.Size() && m'.role[f] == Data
    ensures m'.refs[f] + |OwnMappers(m', f, d)| < 65534
  {
    assert RefOk(m', f, NO_PAGE) && RefOk(m, f, NO_PAGE);
    SubsetSize(OwnMappers(m', f, d), Mappers(m', f));
    if f == At(m', to).value.frame {
      forall x | x in Mappers(m', f) ensures x in {to} {
        InMappers(m', f, x);
        assert !Maps(m, x, f);
      }
      SubsetSize(Mappers(m', f), {to});
    } else {
      forall x | x in Mappers(m', f) ensures x in Mappers(m, f) {
        InMappers(m', f, x);
        InMappers(m, f, x);
      }
      SubsetSize(Mappers(m', f), Mappers(m, f));
      SubsetSize(OwnMappers(m', f, d), OwnMappers(m, f, d));
      if m.role[f] != Data { LooseIsUnmapped(m, f, NO_PAGE); }
    }
  }

  /**
   fork. When it returns the child's id: the child is RUNNABLE with the handler installed and
   0 in eax; on every page below USTACKTOP it reads what the parent read when fork was called,
   with the same right to write; it has an exception stack of its own and nothing else; and
   nothing changed for the parent or for anyone else, except that a parent without a handler
   now has one. It fails only when at most one page or no environment is free.
   */
  method ForkCow(k0: Kernel, cur: nat, upcall: nat, installed: bool, ghost p0: Private)
    returns (k: Kernel, id: int, ok: bool, ghost p: Private)
    requires Related(k0, p0) && Live(k0, cur) && ForkRoom(k0.mem, k0.envs[cur].pgdir)
    ensures ok ==>
      && id > 0 && Related(k, p) && Live(k, EnvX(id)) && EnvX(id) != cur
      && k.envs[EnvX(id)].id == id && k.envs[EnvX(id)].status == RUNNABLE
      && k.envs[EnvX(id)].upcall == upcall && k.envs[EnvX(id)].tf == WithEax(k0.envs[cur].tf, 0)
      && k.envs[cur] == (if installed then k0.envs[cur] else k0.envs[cur].(upcall := upcall))
      && ForkSees(k0.mem, k.mem, k0.envs[cur].pgdir, k.envs[EnvX(id)].pgdir)
    ensures !ok ==> |k.mem.free| <= 1 || k.envFree == []
  {
    ghost var p1: Private;
    k, ok, p1 := SetHandler(k0, cur, upcall, installed, p0);
    id, p := 0, p1;
    if !ok { return; }
    k, id, ok, p := ForkChild(k, cur, upcall, p1);
    if ok { ForkSeen(k0, p0, p1, k, p, k0.envs[cur].pgdir, k.envs[EnvX(id)].pgdir); }
  }

  /** fork from sys_exofork on. */
  method ForkChild(k0: Kernel, cur: nat, upcall: nat, ghost p0: Private)
    returns (k: Kernel, id: int, ok: bool, ghost p: Private)
    requires Related(k0, p0) && Live(k0, cur) && ForkRoom(k0.mem, k0.envs[cur].pgdir)
    ensures ok ==>
      && id > 0 && Related(k, p) && Live(k, EnvX(id)) && EnvX(id) != cur
      && k.envs[EnvX(id)].id == id && k.envs[EnvX(id)].status == RUNNABLE
      && k.envs[EnvX(id)].upcall == upcall && k.envs[EnvX(id)].tf == WithEax(k0.envs[cur].tf, 0)
      && k.envs[cur] == k0.envs[cur]
      && ForkedView(p0, p, k0.envs[cur].pgdir, k.envs[EnvX(id)].pgdir)
    ensures !ok ==> |k.mem.free| <= 1 || k.envFree == []
  {
    ExoforkKeeps(k0, cur);
    ExoforkStart(k0, p0, cur);
    var forked := SysExofork(k0, cur);
    k, id, ok, p := forked.0, forked.1, false, p0;
    if id < 0 { return; }
    k, ok, p := FillChild(k, cur, id, EnvX(id), upcall, p0);
  }

  /** What fork does to a child that sys_exofork has just made. */
  method FillChild(k1: Kernel, cur: nat, id: int, ghost child: nat, upcall: nat, ghost p0: Private)
    returns (k: Kernel, ok: bool, ghost p: Private)
    requires Related(k1, p0) && Live(k1, cur) && Live(k1, child)
    requires Envid2Env(k1, cur, id, true) == Some(child) && child != cur
    requires ForkRoom(k1.mem, k1.envs[cur].pgdir)
    requires forall key :: key in p0 ==> key.d != k1.envs[child].pgdir
    ensures ok ==> Related(k, p) && ForkedView(p0, p, k1.envs[cur].pgdir, k1.envs[child].pgdir)
    ensures ok ==> k.envs == k1.envs[child := k1.envs[child].(upcall := upcall, status := RUNNABLE)]
    ensures !ok ==> |k.mem.free| <= 1
  {
    ghost var p1: Private;
    k, ok, p1 := CopyPages(k1, cur, id, child, p0);
    p := p1;
    if !ok { return; }
    LoopLive(k1, p0, k, p1, cur, id, child, STACK_PAGES);
    k, ok, p := GiveStack(k1, p0, k, p1, cur, id, child);
    if !ok { return; }
    k, ok := Launch(k, cur, id, child, upcall, p);
  }

  lemma StackAllocated(k: Kernel, p: Private, cur: nat, id: int, child: nat)
    requires Related(k, p) && Live(k, cur) && Envid2Env(k, cur, id, true) == Some(child)
    ensures Spaces(k)
    ensures var (k', r) := SysPageAlloc(k, cur, id, EXCEPTION_STACK, PTE_PWU);
      r == 0 ==> Related(k', p[KeyOf(k, child, EXCEPTION_STACK) := Page(ZeroPage(), true)])
  {
    AllocRefines(k, p, cur, id, EXCEPTION_STACK, PTE_PWU);
    StackIsNotTemp(k, p, KeyOf(k, child, EXCEPTION_STACK));
  }

  lemma StackIsNotTemp(k: Kernel, p: Private, key: Key)
    requires Related(k, p) && key.i == Pdx(EXCEPTION_STACK) && key.j == Ptx(EXCEPTION_STACK)
    ensures forall x :: x in p[key := Page(ZeroPage(), true)] ==>
      !IsTemp(x) && |p[key := Page(ZeroPage(), true)][x].content| == NPTENTRIES
  {
    assert Pdx(EXCEPTION_STACK) == 954;
    forall x | x in p[key := Page(ZeroPage(), true)]
      ensures !IsTemp(x) && |p[key := Page(ZeroPage(), true)][x].content| == NPTENTRIES
    {
      if x != key { assert x in p; }
    }
  }

  lemma StackRefused(k: Kernel, cur: nat, id: int, child: nat)
    requires KInv(k) && Live(k, cur) && Envid2Env(k, cur, id, true) == Some(child)
    ensures Spaces(k)
    ensures var (k', r) := SysPageAlloc(k, cur, id, EXCEPTION_STACK, PTE_PWU);
      (r == 0 || r < 0) && k'.envs == k.envs && (r < 0 ==> |k'.mem.free| <= 1)
  {
    PageAllocCall(k, cur, id, EXCEPTION_STACK, PTE_PWU);
    PageAllocFailsWithoutPages(k, cur, id, EXCEPTION_STACK, PTE_PWU);
  }

  /** The child's exception stack. */
  method GiveStack(
    ghost k1: Kernel, ghost p0: Private, k2: Kernel, ghost p2: Private, cur: nat, id: int, ghost child: nat)
    returns (k: Kernel, ok: bool, ghost p: Private)
    requires KInv(k1) && Live(k1, cur) && Live(k1, child) && child != cur
    requires LoopInv(k1, p0, k2, p2, cur, child, STACK_PAGES)
    requires Live(k2, cur) && Envid2Env(k2, cur, id, true) == Some(child)
    requires forall key :: key in p0 ==> key.d != k1.envs[child].pgdir
    ensures ok ==> Related(k, p) && k.envs == k1.envs && ForkedView(p0, p, k1.envs[cur].pgdir, k1.envs[child].pgdir)
    ensures !ok ==> |k.mem.free| <= 1
  {
    StackAllocated(k2, p2, cur, id, child);
    StackRefused(k2, cur, id, child);
    ForkViewDone(k1, p0, k2, p2, cur, child, Page(ZeroPage(), true));
    p := p2[KeyOf(k2, child, EXCEPTION_STACK) := Page(ZeroPage(), true)];
    var stack := SysPageAlloc(k2, cur, id, EXCEPTION_STACK, PTE_PWU);
    k, ok := stack.0, stack.1 >= 0;
  }

  /** The last two calls of fork. */
  method Launch(k0: Kernel, cur: nat, id: int, ghost child: nat, upcall: nat, ghost p: Private)
    returns (k: Kernel, ok: bool)
    requires Related(k0, p) && Live(k0, cur) && Live(k0, child)
    requires child != cur && Envid2Env(k0, cur, id, true) == Some(child)
    ensures ok && Related(k, p) && k.mem == k0.mem
    ensures k.envs == k0.envs[child := k0.envs[child].(upcall := upcall, status := RUNNABLE)]
  {
    var installed := SysEnvSetPgfaultUpcall(k0, cur, id, upcall);
    TouchEnvKeeps(k0, installed.0, child);
    var started := SysEnvSetStatus(installed.0, cur, id, RUNNABLE);
    TouchEnvKeeps(installed.0, started.0, child);
    k, ok := started.0, started.1 >= 0;
  }
}
