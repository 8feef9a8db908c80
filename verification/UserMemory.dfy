/**
 User memory as environments see it: reading and writing through the page tables, and
 the private memories that copy-on-write is to be indistinguishable from.
 */
module UserMemory {
  import opened Layout
  import opened PageState
  import opened PageInv
  import opened AddressSpace
  import opened Envs
  import opened Syscalls

  // ---- Stores into mapped pages

  /** Overwrite the contents of data page `f`. */
  function StorePage(m: Mem, f: nat, page: seq<Word>): (r: Mem)
    requires m.Shape() && f < m.Size() && |page| == NPTENTRIES
    ensures r.Shape() && r.Size() == m.Size()
  {
    m.(words := m.words[f := page])
  }

  /** User stores reach data pages only, so they change no translation and no count. */
  lemma StorePageKeeps(m: Mem, f: nat, page: seq<Word>, held: int)
    requires Inv(m, held) && f < m.Size() && m.role[f] == Data && |page| == NPTENTRIES
    ensures Inv(StorePage(m, f, page), held) && SameFlat(m, StorePage(m, f, page))
  {
    var m' := StorePage(m, f, page);
    forall k ensures At(m', k) == At(m, k) {
      if UserKey(m, k) && m.words[k.d][k.i].perm.p { assert SlotOk(m, k.d, k.i); }
    }
    StoreTree(m, m', f);
    KernelHalfCarry(m, m');
    forall x | 0 <= x < m.Size() ensures RefOk(m', x, held) {
      assert RefOk(m, x, held);
      SameMappers(m, m', x);
    }
  }

  lemma StoreTree(m: Mem, m': Mem, f: nat)
    requires m.Shape() && m'.Shape() && TreeOk(m) && f < m.Size() && m.role[f] == Data && m.role[m.kdir] == Reserved
    requires m' == m.(words := m'.words) && forall x :: 0 <= x < m.Size() && x != f ==> m'.words[x] == m.words[x]
    ensures TreeOk(m')
  {
    forall a: nat, b | IsDir(m', a) && 0 <= b < 955 && m'.words[a][b].perm.p ensures SlotOk(m', a, b) {
      assert SlotOk(m, a, b);
    }
    forall x | 0 <= x < m.Size() && m'.role[x].Table? ensures ParentOk(m', x) {
      assert ParentOk(m, x);
    }
    forall x, j | UserTable(m', x) && 0 <= j < 1024 && m'.words[x][j].perm.p ensures EntryOk(m', m'.words[x][j]) {
      assert UserTable(m, x) && EntryOk(m, m.words[x][j]);
    }
  }

  // ---- What environments see

  ghost predicate Mapped(m: Mem, key: Key)
    requires m.Shape()
  {
    At(m, key).Some?
  }

  /** The 1024 words an environment reads at page `key`. */
  ghost function Content(m: Mem, key: Key): (page: seq<Word>)
    requires m.Shape() && Mapped(m, key)
    ensures |page| == NPTENTRIES
  {
    m.words[At(m, key).value.frame]
  }

  /** The environment's own page: it may store there now, or after a copy-on-write fault. */
  predicate Owned(perm: Perm) { perm.w || perm.cow }

  /** A frame that is mapped writable anywhere is mapped once. */
  ghost predicate SingleWriter(m: Mem)
    requires m.Shape()
  {
    forall x, y :: Mapped(m, x) && Mapped(m, y) && x != y && At(m, x).value.frame == At(m, y).value.frame ==>
      !At(m, x).value.perm.w
  }

  /** Every mapped page is a user page, and none is marked PTE_SHARE. */
  ghost predicate PlainPages(m: Mem)
    requires m.Shape()
  {
    forall x :: Mapped(m, x) ==> At(m, x).value.perm.u && !At(m, x).value.perm.share
  }

  /** The page of the user exception stack; the kernel and the fault handler write there. */
  predicate IsExceptionStack(key: Key) {
    key.i == 954 && key.j == 1023
  }

  // ---- Private memories

  datatype Page = Page(content: seq<Word>, writable: bool)

  /** Every environment's pages, each with its own copy of its contents. */
  type Private = map<Key, Page>

  ghost predicate Shows(m: Mem, p: Private, key: Key)
    requires m.Shape()
  {
    && (key in p <==> Mapped(m, key))
    && (Mapped(m, key) ==>
          && p[key].writable == Owned(At(m, key).value.perm)
          && (!IsExceptionStack(key) ==> p[key].content == Content(m, key)))
  }

  ghost predicate AllShow(m: Mem, p: Private)
    requires m.Shape()
  {
    forall key :: Shows(m, p, key)
  }

  /** Shared frames look like private memories, exception stacks aside. */
  ghost predicate Refines(m: Mem, p: Private)
    requires m.Shape()
  {
    SingleWriter(m) && PlainPages(m) && AllShow(m, p)
  }

  /** Changing one mapping, and no mapped byte, shows as changing one private page. */
  lemma OneKeyShows(m: Mem, m': Mem, p: Private, p': Private, k0: Key)
    requires Inv(m, NO_PAGE) && m'.Shape() && SameFlatBut(m, m', k0) && SameData(m, m')
    requires AllShow(m, p)
    requires forall key :: key != k0 ==> (key in p' <==> key in p) && (key in p ==> p'[key] == p[key])
    requires Shows(m', p', k0)
    ensures AllShow(m', p')
  {
    forall key ensures Shows(m', p', key) {
      assert Shows(m, p, key);
      if key != k0 && Mapped(m, key) { AtIsUnique(m, key, At(m, key).value); }
    }
  }

  /** A fresh page is its own only mapping. */
  lemma FreshKeySingle(m: Mem, m': Mem, k0: Key)
    requires m.Shape() && m'.Shape() && SingleWriter(m) && SameFlatBut(m, m', k0)
    requires Mapped(m', k0) ==> Unmapped(m, At(m', k0).value.frame)
    ensures SingleWriter(m')
  {
    forall x | x != k0 && Mapped(m', x)
      ensures At(m', x) == At(m, x) && (Mapped(m', k0) ==> At(m, x).value.frame != At(m', k0).value.frame)
    {
      if Mapped(m', k0) { assert !Maps(m, x, At(m', k0).value.frame); }
    }
  }

  // ---- The steps a program takes on its own pages

  /** sys_page_alloc without PTE_SHARE gives the environment a zeroed private page. */
  lemma AllocRefines(k: Kernel, p: Private, cur: nat, envid: int, va: nat, perm: Perm)
    requires KInv(k) && Live(k, cur) && Refines(k.mem, p) && !perm.share
    ensures Spaces(k)
    ensures var (k', r) := SysPageAlloc(k, cur, envid, va, perm);
      && KInv(k')
      && (r != 0 ==> Refines(k'.mem, p))
      && (r == 0 ==>
            && Envid2Env(k, cur, envid, true).Some?
            && var key := KeyOf(k, Envid2Env(k, cur, envid, true).value, va);
            Refines(k'.mem, p[key := Page(ZeroPage(), Owned(perm))]))
  {
    PageAllocCall(k, cur, envid, va, perm);
    var (k', r) := SysPageAlloc(k, cur, envid, va, perm);
    if r == 0 {
      FreshRefines(k.mem, k'.mem, p, KeyOf(k, Envid2Env(k, cur, envid, true).value, va), perm);
    } else {
      AtomicRefines(k, k', p);
    }
  }

  lemma FreshRefines(m: Mem, m': Mem, p: Private, key: Key, perm: Perm)
    requires Inv(m, NO_PAGE) && Inv(m', NO_PAGE) && Refines(m, p) && SameFlatBut(m, m', key) && SameData(m, m')
    requires Mapped(m', key) && At(m', key).value.perm == perm && perm.u && !perm.share
    requires Unmapped(m, At(m', key).value.frame) && m'.words[At(m', key).value.frame] == ZeroPage()
    ensures Refines(m', p[key := Page(ZeroPage(), Owned(perm))])
  {
    OneKeyShows(m, m', p, p[key := Page(ZeroPage(), Owned(perm))], key);
    FreshKeySingle(m, m', key);
  }

  lemma AtomicRefines(k: Kernel, k': Kernel, p: Private)
    requires KInv(k) && k'.Shape() && Refines(k.mem, p) && Atomic(k, k')
    ensures Refines(k'.mem, p)
  {
    forall key ensures Shows(k'.mem, p, key) {
      assert Shows(k.mem, p, key) && At(k'.mem, key) == At(k.mem, key);
      if Mapped(k.mem, key) { AtIsUnique(k.mem, key, At(k.mem, key).value); }
    }
    forall x, y | Mapped(k'.mem, x) && Mapped(k'.mem, y) && x != y
         && At(k'.mem, x).value.frame == At(k'.mem, y).value.frame
      ensures !At(k'.mem, x).value.perm.w
    {
      assert At(k'.mem, x) == At(k.mem, x) && At(k'.mem, y) == At(k.mem, y);
    }
    forall x | Mapped(k'.mem, x) ensures At(k'.mem, x).value.perm.u && !At(k'.mem, x).value.perm.share {
      assert At(k'.mem, x) == At(k.mem, x);
    }
  }

  /** sys_page_unmap takes one page away from one environment. */
  lemma UnmapRefines(k: Kernel, p: Private, cur: nat, envid: int, va: nat)
    requires KInv(k) && Live(k, cur) && Refines(k.mem, p)
    ensures Spaces(k)
    ensures var (k', r) := SysPageUnmap(k, cur, envid, va);
      && KInv(k')
      && (r != 0 ==> k' == k)
      && (r == 0 ==>
            && Envid2Env(k, cur, envid, true).Some?
            && Refines(k'.mem, p - {KeyOf(k, Envid2Env(k, cur, envid, true).value, va)}))
  {
    PageUnmapCall(k, cur, envid, va);
    var (k', r) := SysPageUnmap(k, cur, envid, va);
    if r == 0 {
      var key := KeyOf(k, Envid2Env(k, cur, envid, true).value, va);
      OneKeyShows(k.mem, k'.mem, p, p - {key}, key);
      FreshKeySingle(k.mem, k'.mem, key);
    }
  }

  /** An exit takes every page of one directory away and leaves all others alone. */
  lemma ExitRefines(k: Kernel, p: Private, e: nat)
    requires KInv(k) && Live(k, e) && Refines(k.mem, p)
    ensures k.envs[e].pgdir < k.mem.Size()
    ensures KInv(EnvFree(k, e))
    ensures Refines(EnvFree(k, e).mem, map key | key in p && key.d != k.envs[e].pgdir :: p[key])
  {
    EnvFreeKeeps(k, e);
    var k' := EnvFree(k, e);
    var p' := map key | key in p && key.d != k.envs[e].pgdir :: p[key];
    forall key ensures Shows(k'.mem, p', key) {
      ExitShows(k, k', p, p', e, key);
    }
    FewerIsSingle(k.mem, k'.mem);
  }

  lemma FewerIsSingle(m: Mem, m': Mem)
    requires m.Shape() && m'.Shape() && SingleWriter(m) && forall key :: Mapped(m', key) ==> At(m', key) == At(m, key)
    ensures SingleWriter(m')
  {
  }

  lemma ExitShows(k: Kernel, k': Kernel, p: Private, p': Private, e: nat, key: Key)
    requires KInv(k) && KInv(k') && Live(k, e) && AllShow(k.mem, p) && k'.mem.Size() == k.mem.Size()
    requires p' == map x | x in p && x.d != k.envs[e].pgdir :: p[x]
    requires At(k'.mem, key) == if key.d == k.envs[e].pgdir then None else At(k.mem, key)
    requires forall f :: 0 <= f < k.mem.Size() && k'.mem.role[f] == Data ==> k'.mem.words[f] == k.mem.words[f]
    ensures Shows(k'.mem, p', key)
  {
    assert Shows(k.mem, p, key);
    if Mapped(k'.mem, key) { AtIsUnique(k'.mem, key, At(k'.mem, key).value); }
  }

  /** A store by the environment that maps `key` writable. */
  lemma StoreRefines(m: Mem, p: Private, key: Key, page: seq<Word>)
    requires Inv(m, NO_PAGE) && Refines(m, p) && Mapped(m, key) && At(m, key).value.perm.w && |page| == NPTENTRIES
    ensures key in p && At(m, key).value.frame < m.Size()
    ensures var m' := StorePage(m, At(m, key).value.frame, page);
      Inv(m', NO_PAGE) && SameFlat(m, m') && Refines(m', p[key := p[key].(content := page)])
  {
    StoreShows(m, p, key, page);
    SameFlatSingle(m, StorePage(m, At(m, key).value.frame, page));
  }

  /** A store to a frame that `key` alone maps. */
  lemma StoreShows(m: Mem, p: Private, key: Key, page: seq<Word>)
    requires Inv(m, NO_PAGE) && AllShow(m, p) && Mapped(m, key) && |page| == NPTENTRIES
    requires forall x :: x != key && Mapped(m, x) ==> At(m, x).value.frame != At(m, key).value.frame
    ensures key in p && At(m, key).value.frame < m.Size() && m.role[At(m, key).value.frame] == Data
    ensures var m' := StorePage(m, At(m, key).value.frame, page);
      Inv(m', NO_PAGE) && SameFlat(m, m') && AllShow(m', p[key := p[key].(content := page)])
  {
    assert Shows(m, p, key);
    var f := At(m, key).value.frame;
    AtIsUnique(m, key, At(m, key).value);
    StorePageKeeps(m, f, page, NO_PAGE);
    var m' := StorePage(m, f, page);
    var p' := p[key := p[key].(content := page)];
    forall x ensures Shows(m', p', x) {
      assert Shows(m, p, x) && At(m', x) == At(m, x);
    }
  }

  lemma SameFlatSingle(m: Mem, m': Mem)
    requires m.Shape() && m'.Shape() && SameFlat(m, m') && SingleWriter(m) && PlainPages(m)
    ensures SingleWriter(m') && PlainPages(m')
  {
    forall x, y | Mapped(m', x) && Mapped(m', y) && x != y && At(m', x).value.frame == At(m', y).value.frame
      ensures !At(m', x).value.perm.w
    {
      assert At(m', x) == At(m, x) && At(m', y) == At(m, y);
    }
    forall x | Mapped(m', x) ensures At(m', x).value.perm.u && !At(m', x).value.perm.share {
      assert At(m', x) == At(m, x);
    }
  }
}
