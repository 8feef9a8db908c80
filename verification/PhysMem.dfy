/**
 The page allocator and page tables of kern/pmap.c as the kernel keeps them: arrays of
 pp_link and pp_ref fields and of page contents, changed in place. Every method is tied to
 the function of PageState.dfy that says what it does; `m` is the abstract page state.
 */
module PhysMem {
  import opened Layout
  import opened PageState
  import opened PageInv
  import opened AddressSpace
  import opened FreeList
  import opened Boot

  // ---- When the C code does not trip over a page-table word

  /** pgdir_walk finds a table inside physical memory, or none. */
  ghost predicate WalkOk(m: Mem, d: nat, i: nat) {
    && m.Shape() && d < m.Size() && i < NPDENTRIES
    && (m.words[d][i].perm.p ==> m.words[d][i].frame < m.Size())
  }

  ghost predicate SlotsOk(m: Mem, d: nat) { forall i :: 0 <= i < NPDENTRIES ==> WalkOk(m, d, i) }

  /** pa2page does not panic on a present entry. */
  ghost predicate LookupOk(m: Mem, d: nat, i: nat, j: nat) {
    && WalkOk(m, d, i) && j < NPTENTRIES
    && (TableOf(m, d, i).Some? && m.words[TableOf(m, d, i).value][j].perm.p ==>
        m.words[TableOf(m, d, i).value][j].frame < m.Size())
  }

  /** page_free's assertions hold when a removal frees its page. */
  ghost predicate RemoveOk(m: Mem, d: nat, i: nat, j: nat) {
    && LookupOk(m, d, i, j)
    && (PageLookup(m, d, i, j).Some? && m.refs[PageLookup(m, d, i, j).value.frame] == 1 ==>
          PageLookup(m, d, i, j).value.frame !in m.free)
  }

  ghost predicate InsertOk(m: Mem, d: nat, pp: nat, i: nat, j: nat) {
    && WalkOk(m, d, i) && j < NPTENTRIES && pp < m.Size()
    && var (m1, t) := PgdirWalk(m, d, i, true);
    t.Some? ==> TableOf(m1, d, i) == t && RemoveOk(Hold(m1, pp), d, i, j)
  }

  /** The invariant rules out every panic of the page operations. */
  lemma InvRemoveOk(m: Mem, k: Key, held: int)
    requires Inv(m, held) && UserKey(m, k)
    ensures RemoveOk(m, k.d, k.i, k.j)
  {
    if m.words[k.d][k.i].perm.p {
      assert SlotOk(m, k.d, k.i);
      var t := m.words[k.d][k.i].frame;
      assert UserTable(m, t);
      if m.words[t][k.j].perm.p { assert EntryOk(m, m.words[t][k.j]); }
    }
  }

  lemma InvInsertOk(m: Mem, k: Key, pp: nat)
    requires Inv(m, NO_PAGE) && UserKey(m, k)
    requires pp < m.Size() && m.role[pp] in {Data, Loose} && m.refs[pp] < 65535
    ensures InsertOk(m, k.d, pp, k.i, k.j)
  {
    PgdirWalkKeeps(m, k.d, k.i, true, NO_PAGE);
    InvRemoveOk(m, k, NO_PAGE);
    var (m1, t) := PgdirWalk(m, k.d, k.i, true);
    if t.Some? {
      HoldKeeps(m1, pp);
      InvRemoveOk(Hold(m1, pp), k, pp);
    }
  }

  // ---- user_mem_check

  const WORD: nat := 0x1_0000_0000

  /** ROUNDUP on 32-bit values: it wraps to 0 above the last page boundary. */
  function RoundUp(a: nat): nat { RoundDown((a + 4095) % WORD) }

  /** (*cur & perm) == perm, on all 32 bits. */
  predicate SetsAll(w: Word, perm: Perm) {
    && Covers(w.perm, perm)
    && BitOr(w.perm.other, perm.other % PGSIZE) == w.perm.other && BitOr(w.frame, perm.other / PGSIZE) == w.frame
  }

  /**
   The page at `start` is below ULIM, has a table, and its entry has every bit of `perm`: each
   flag, and the bits beside them, which no caller in the kernel sets.
   */
  ghost predicate Grants(m: Mem, d: nat, start: nat, perm: Perm)
    requires m.Shape() && d < m.Size()
  {
    && start < 0xEF80_0000 && TableOf(m, d, Pdx(start)).Some?
    && var w := m.words[TableOf(m, d, Pdx(start)).value][Ptx(start)];
    && (perm.p ==> w.perm.p) && (perm.w ==> w.perm.w) && (perm.u ==> w.perm.u)
    && (perm.avail ==> w.perm.avail) && (perm.share ==> w.perm.share) && (perm.cow ==> w.perm.cow)
    && (perm.other != 0 ==>
          BitOr(w.perm.other, perm.other % 4096) == w.perm.other && BitOr(w.frame, perm.other / 4096) == w.frame)
  }

  function FirstPage(va: nat): nat { RoundDown(va) }

  lemma FirstPageIsAligned(va: nat)
    ensures FirstPage(va) % 4096 == 0
  {
  }

  function EndOfRange(va: nat, len: nat): nat { RoundUp((va + len) % WORD) }

  /** The pages user_mem_check looks at between its two page boundaries. */
  ghost predicate Tested(start: nat, end: nat, x: nat) {
    x % 4096 == 0 && start <= x < end
  }

  /**
   Every byte of the range lies in a page that is tested, except when the range reaches
   into the last page of the address space or past its end: that page is never tested.
   */
  lemma RangeIsTested(va: nat, len: nat)
    requires va < WORD && 0 < len < WORD
    ensures (forall a :: va <= a < va + len ==> ByteTested(va, len, a)) <==> va + len <= WORD - 4096
  {
    if va + len <= WORD - 4096 {
      forall a | va <= a < va + len ensures ByteTested(va, len, a) { LowByteIsTested(va, len, a); }
    } else {
      LastByteIsNot(va, len, if va + len <= WORD then va + len - 1 else WORD - 1);
    }
  }

  /** The page of byte `a` of the range, whose address wraps at 2^32, is tested. */
  ghost predicate ByteTested(va: nat, len: nat, a: nat) {
    Tested(FirstPage(va), EndOfRange(va, len), RoundDown(a % WORD))
  }

  lemma LowByteIsTested(va: nat, len: nat, a: nat)
    requires va <= a < va + len <= WORD - 4096
    ensures ByteTested(va, len, a)
  {
    EndOfLowRange(va, len);
    FirstPageBelow(va);
    PageHolds(a);
    if RoundDown(a % WORD) < FirstPage(va) { AlignedBelow(RoundDown(a % WORD), FirstPage(va)); }
  }

  lemma PageHolds(a: nat)
    requires a < WORD
    ensures var x := RoundDown(a % WORD); x % 4096 == 0 && x <= a < x + 4096
  {
    assert a % WORD == a;
  }

  lemma LastByteIsNot(va: nat, len: nat, a: nat)
    requires va < WORD && 0 < len < WORD && va + len > WORD - 4096
    requires a == if va + len <= WORD then va + len - 1 else WORD - 1
    ensures va <= a < va + len && !ByteTested(va, len, a)
  {
    assert a % WORD == a;
    assert RoundDown(a) == WORD - 4096 >= EndOfRange(va, len);
  }

  ghost predicate GrantedBelow(m: Mem, d: nat, start: nat, end: nat, perm: Perm, x: nat)
    requires m.Shape() && d < m.Size()
  {
    forall y: nat :: Tested(start, end, y) && y < x ==> Grants(m, d, y, perm)
  }

  /** `x` is the lowest tested page that does not grant `perm`, or the end if there is none. */
  ghost predicate RefusedAt(m: Mem, d: nat, start: nat, end: nat, perm: Perm, x: nat)
    requires m.Shape() && d < m.Size()
  {
    GrantedBelow(m, d, start, end, perm, x) && (x < end ==> Tested(start, end, x) && !Grants(m, d, x, perm))
  }

  /** `addr` is the first address of the range that the caller may not use. */
  ghost predicate FaultAddress(m: Mem, d: nat, va: nat, start: nat, end: nat, perm: Perm, addr: nat)
    requires m.Shape() && d < m.Size()
  {
    exists x: nat :: x < end && RefusedAt(m, d, start, end, perm, x) && addr == if x == start then va else x
  }

  /** 0 if every tested page grants `perm`, otherwise -E_FAULT and the first bad address in user_mem_check_addr. */
  ghost predicate CheckResult(m: Mem, d: nat, va: nat, start: nat, end: nat, perm: Perm, r: int, addr: nat, addr': nat)
    requires m.Shape() && d < m.Size()
  {
    if r == 0 then addr' == addr && GrantedBelow(m, d, start, end, perm, end)
    else r == -6 && FaultAddress(m, d, va, start, end, perm, addr')
  }

  /** The page of every byte of the range, whose addresses wrap at 2^32, grants `perm`. */
  ghost predicate AllGranted(m: Mem, d: nat, va: nat, len: nat, perm: Perm)
    requires m.Shape() && d < m.Size()
  {
    forall a :: va <= a < va + len ==> ByteGranted(m, d, perm, a)
  }

  ghost predicate ByteGranted(m: Mem, d: nat, perm: Perm, a: nat)
    requires m.Shape() && d < m.Size()
  {
    Grants(m, d, RoundDown(a % WORD), perm)
  }

  /** A tested page holds a byte of the range. */
  lemma TestedHoldsByte(va: nat, len: nat, x: nat) returns (a: nat)
    requires va < WORD && 0 < len && va + len <= WORD - 4096 && Tested(FirstPage(va), EndOfRange(va, len), x)
    ensures va <= a < va + len && RoundDown(a % WORD) == x
  {
    EndOfLowRange(va, len);
    FirstPageBelow(va);
    a := if x < va then va else x;
    AlignedBelow(x, EndOfRange(va, len));
    PageOf(a, x);
  }

  lemma EndOfLowRange(va: nat, len: nat)
    requires 0 < len && va + len <= WORD - 4096
    ensures var e := EndOfRange(va, len); e % 4096 == 0 && va + len <= e < va + len + 4096
  {
    assert (va + len) % WORD == va + len && (va + len + 4095) % WORD == va + len + 4095;
  }

  lemma FirstPageBelow(va: nat)
    ensures FirstPage(va) % 4096 == 0 && FirstPage(va) <= va < FirstPage(va) + 4096
  {
  }

  lemma AlignedBelow(x: nat, y: nat)
    requires x % 4096 == 0 && y % 4096 == 0 && x < y
    ensures x + 4096 <= y
  {
  }

  lemma PageOf(a: nat, x: nat)
    requires x % 4096 == 0 && x <= a < x + 4096 && a < WORD
    ensures RoundDown(a % WORD) == x
  {
    assert a % WORD == a;
  }

  lemma GrantedByCheck(m: Mem, d: nat, va: nat, len: nat, perm: Perm)
    requires m.Shape() && d < m.Size() && 0 < len && va + len <= WORD - 4096
    ensures AllGranted(m, d, va, len, perm) <==>
      GrantedBelow(m, d, FirstPage(va), EndOfRange(va, len), perm, EndOfRange(va, len))
  {
    var start, end := FirstPage(va), EndOfRange(va, len);
    if AllGranted(m, d, va, len, perm) {
      forall y: nat | Tested(start, end, y) && y < end ensures Grants(m, d, y, perm) {
        var a := TestedHoldsByte(va, len, y);
        assert ByteGranted(m, d, perm, a);
      }
    }
    if GrantedBelow(m, d, start, end, perm, end) {
      forall a | va <= a < va + len ensures ByteGranted(m, d, perm, a) {
        LowByteIsTested(va, len, a);
      }
    }
  }

  /**
   What a result of user_mem_check means: every byte of a non-empty range may be used if and
   only if the result is 0 and the range stays out of the last page. A range into that page
   or past it may never be used, but is not refused for it.
   */
  lemma CheckIsExact(m: Mem, d: nat, va: nat, len: nat, perm: Perm, r: int, addr: nat, addr': nat)
    requires m.Shape() && d < m.Size() && va < WORD && 0 < len < WORD
    requires CheckResult(m, d, va, FirstPage(va), EndOfRange(va, len), perm, r, addr, addr')
    ensures AllGranted(m, d, va, len, perm) <==> r == 0 && va + len <= WORD - 4096
  {
    if va + len <= WORD - 4096 {
      GrantedByCheck(m, d, va, len, perm);
    } else {
      LastPageIsNotGranted(m, d, perm, if va + len <= WORD then va + len - 1 else WORD - 1);
    }
  }

  /**
   A refusal names the first byte that may not be used: user_mem_check_addr is in the range, may not
   be used, and every byte of the range before it may.
   */
  lemma FaultIsFirstByte(m: Mem, d: nat, va: nat, len: nat, perm: Perm, r: int, addr: nat, addr': nat)
    requires m.Shape() && d < m.Size() && va < WORD && 0 < len < WORD && r != 0
    requires CheckResult(m, d, va, FirstPage(va), EndOfRange(va, len), perm, r, addr, addr')
    ensures va <= addr' < va + len && addr' < WORD && !ByteGranted(m, d, perm, addr')
    ensures forall a :: va <= a < addr' ==> ByteGranted(m, d, perm, a)
  {
    var start, end := FirstPage(va), EndOfRange(va, len);
    var x: nat :| x < end && RefusedAt(m, d, start, end, perm, x) && addr' == if x == start then va else x;
    FirstPageBelow(va);
    RefusalInRange(va, len, x);
    PageOf(addr', x);
    forall a | va <= a < addr' ensures ByteGranted(m, d, perm, a) {
      assert a < WORD;
      PageHolds(a);
      var y := RoundDown(a % WORD);
      if y < start { AlignedBelow(y, start); }
      assert Tested(start, end, y);
    }
  }

  /** A tested page other than the first begins inside the range. */
  lemma RefusalInRange(va: nat, len: nat, x: nat)
    requires va < WORD && 0 < len < WORD && Tested(FirstPage(va), EndOfRange(va, len), x)
    ensures x < WORD && (x == FirstPage(va) || va <= x < va + len)
  {
    FirstPageBelow(va);
    if x != FirstPage(va) {
      AlignedBelow(FirstPage(va), x);
      EndIsNear(va, len);
      AlignedBelow(x, EndOfRange(va, len));
    }
  }

  lemma EndIsNear(va: nat, len: nat)
    requires va < WORD && 0 < len < WORD
    ensures var e := EndOfRange(va, len); e % 4096 == 0 && e < va + len + 4096 && e < WORD
  {
    RoundUpIsNear((va + len) % WORD);
  }

  lemma RoundUpIsNear(a: nat)
    requires a < WORD
    ensures RoundUp(a) % 4096 == 0 && RoundUp(a) < a + 4096 && RoundUp(a) < WORD
  {
  }

  /** No byte of the last page is granted. */
  lemma LastPageIsNotGranted(m: Mem, d: nat, perm: Perm, a: nat)
    requires m.Shape() && d < m.Size() && WORD - 4096 <= a < WORD
    ensures !ByteGranted(m, d, perm, a)
  {
    PageOf(a, WORD - 4096);
  }

  /** Such a range: sixteen bytes of the last page pass in every address space, and none may be used. */
  lemma LastPagePasses(m: Mem, d: nat, perm: Perm, r: int, addr: nat, addr': nat)
    requires m.Shape() && d < m.Size()
    requires CheckResult(m, d, WORD - 4096, FirstPage(WORD - 4096), EndOfRange(WORD - 4096, 16), perm, r, addr, addr')
    ensures r == 0 && forall a :: WORD - 4096 <= a < WORD - 4080 ==> !ByteGranted(m, d, perm, a)
  {
    assert EndOfRange(WORD - 4096, 16) == 0;
    forall a | WORD - 4096 <= a < WORD - 4080 ensures !ByteGranted(m, d, perm, a) {
      LastPageIsNotGranted(m, d, perm, a);
    }
  }

  ghost predicate Reached(start: nat, x: nat) { x % 4096 == 0 && start <= x }

  lemma GrantedNext(m: Mem, d: nat, start: nat, end: nat, perm: Perm, x: nat)
    requires m.Shape() && d < m.Size() && Reached(start, x)
    requires GrantedBelow(m, d, start, end, perm, x) && Grants(m, d, x, perm)
    ensures GrantedBelow(m, d, start, end, perm, x + 4096) && Reached(start, x + 4096)
  {
    forall y: nat | Tested(start, end, y) && y < x + 4096 ensures Grants(m, d, y, perm) {
      assert y <= x;
    }
  }

  lemma RefusedHere(m: Mem, d: nat, start: nat, end: nat, perm: Perm, x: nat)
    requires m.Shape() && d < m.Size() && Reached(start, x) && x < end
    requires GrantedBelow(m, d, start, end, perm, x) && !Grants(m, d, x, perm)
    ensures RefusedAt(m, d, start, end, perm, x)
  {
  }

  lemma NoneRefused(m: Mem, d: nat, start: nat, end: nat, perm: Perm, x: nat)
    requires m.Shape() && d < m.Size() && x >= end && GrantedBelow(m, d, start, end, perm, x)
    ensures RefusedAt(m, d, start, end, perm, x)
  {
  }

  /** page_init's list with one page more. */
  lemma ChainNext(head: int, link: seq<int>, i: nat, kernelEnd: nat)
    requires |link| == i && Chain(head, link, FreeBelow(i, kernelEnd))
    ensures if InUse(i, kernelEnd) then Chain(head, link + [NULL], FreeBelow(i + 1, kernelEnd))
            else Chain(i, link + [head], FreeBelow(i + 1, kernelEnd))
  {
    FreeBelowElements(i, kernelEnd);
    ChainExtends(head, link, FreeBelow(i, kernelEnd));
    if !InUse(i, kernelEnd) {
      ChainPush(head, link + [NULL], FreeBelow(i, kernelEnd), i);
      assert (link + [NULL])[i := head] == link + [head];
    }
  }

  lemma PartitionInRange(free: seq<nat>, free': seq<nat>, n: nat)
    requires free' == Partitioned(free) && forall k :: 0 <= k < |free| ==> free[k] < n
    ensures forall k :: 0 <= k < |free'| ==> free'[k] < n
  {
    PartitionIsStable(free);
    forall k | 0 <= k < |free'| ensures free'[k] < n {
      assert free'[k] in multiset(free');
    }
  }

  lemma DirRefIsOne(m: Mem, d: nat)
    requires Inv(m, NO_PAGE) && IsDir(m, d)
    ensures m.refs[d] == 1 && d !in m.free
  {
    assert RefOk(m, d, NO_PAGE);
  }

  lemma TableRefIsOne(m: Mem, d: nat, i: nat)
    requires Inv(m, NO_PAGE) && IsDir(m, d) && i < PDX_UTOP && m.words[d][i].perm.p
    ensures TableOf(m, d, i) == Some(m.words[d][i].frame)
    ensures m.refs[m.words[d][i].frame] == 1 && m.words[d][i].frame !in m.free && m.words[d][i].frame != d
  {
    assert SlotOk(m, d, i);
    assert RefOk(m, m.words[d][i].frame, NO_PAGE);
  }

  /** Slot `i` of `d` holds table `t`. */
  ghost predicate TableHere(m: Mem, d: nat, i: nat, t: nat) {
    Inv(m, NO_PAGE) && IsDir(m, d) && i < PDX_UTOP && m.words[d][i].perm.p && m.words[d][i].frame == t && t < m.Size()
  }

  /** From entry `j` on the table is still to be emptied, which ends in `end`. */
  ghost predicate Emptying(m: Mem, d: nat, i: nat, t: nat, j: nat, end: Mem) {
    TableHere(m, d, i, t) && j <= NPTENTRIES && FreeTable(m, d, i, j) == end
  }

  /** One turn of env_free's inner loop. */
  lemma EntryStep(m: Mem, d: nat, i: nat, j: nat)
    requires Inv(m, NO_PAGE) && IsDir(m, d) && i < PDX_UTOP && j < NPTENTRIES && m.words[d][i].perm.p
    ensures RemoveOk(m, d, i, j)
    ensures TableHere(m, d, i, m.words[d][i].frame)
    ensures var m1 := PageState.PageRemove(m, d, i, j);
      && TableHere(m1, d, i, m.words[d][i].frame) && FreeTable(m, d, i, j) == FreeTable(m1, d, i, j + 1)
      && (!m.words[m.words[d][i].frame][j].perm.p ==> m1 == m)
  {
    assert SlotOk(m, d, i);
    InvRemoveOk(m, Key(d, i, j), NO_PAGE);
    PageRemoveKeeps(m, Key(d, i, j), NO_PAGE);
  }

  /** One turn of env_free's outer loop. */
  lemma SlotStep(m: Mem, d: nat, i: nat)
    requires Inv(m, NO_PAGE) && IsDir(m, d) && i < PDX_UTOP
    ensures Inv(FreeSlot(m, d, i), NO_PAGE) && IsDir(FreeSlot(m, d, i), d)
    ensures FreeTables(m, d, i) == FreeTables(FreeSlot(m, d, i), d, i + 1)
  {
    FreeSlotStep(m, d, i);
    FreeTablesUnfold(m, d, i);
  }

  lemma DropToZero(x: nat)
    requires x < REF_LIMIT
    ensures Drop(x) < REF_LIMIT && (Drop(x) == 0 <==> x == 1)
  {
  }

  class PhysicalMemory {
    /** pp_link, pp_ref and the pages themselves. */
    const link: array<int>
    const refs: array<int>
    const pages: array<seq<Word>>
    const kdir: nat

    /** page_free_list */
    var freeHead: int
    /** user_mem_check_addr */
    var checkAddr: nat

    ghost var m: Mem

    ghost predicate Valid()
      reads this, link, refs, pages
    {
      && link != refs && m.Shape() && m.kdir == kdir
      && link.Length == refs.Length == pages.Length == m.Size()
      && m.refs == refs[..] && m.words == pages[..]
      && Chain(freeHead, link[..], m.free)
    }

    /** mem_init's arrays and the loop of page_init. */
    constructor (contents: seq<seq<Word>>, kernelEnd: nat, kernDir: nat)
      requires BootContents(contents, kernelEnd, kernDir)
      ensures Valid() && m == BootMem(contents, kernelEnd, kernDir)
      ensures fresh(link) && fresh(refs) && fresh(pages)
    {
      var npages := |contents|;
      link := new int[npages];
      refs := new int[npages];
      pages := new seq<Word>[npages](i requires 0 <= i < npages => contents[i]);
      kdir := kernDir;
      freeHead := NULL;
      checkAddr := 0;
      m := BootMem(contents, kernelEnd, kernDir);
      new;
      PageInit(kernelEnd);
      assert pages[..] == contents;
      assert refs[..] == m.refs;
    }

    method PageInit(kernelEnd: nat)
      requires link != refs && link.Length == refs.Length && freeHead == NULL
      modifies this`freeHead, link, refs
      ensures Chain(freeHead, link[..], FreeBelow(link.Length, kernelEnd))
      ensures forall k :: 0 <= k < refs.Length ==> refs[k] == FirstRef(k, kernelEnd)
    {
      var i: nat := 0;
      NoPageYet(kernelEnd);
      while i != link.Length
        invariant i <= link.Length && PagesInited(i, kernelEnd)
        decreases link.Length - i
      {
        InitPage(i, kernelEnd);
        i := i + 1;
      }
      assert link[..i] == link[..];
    }

    lemma NoPageYet(kernelEnd: nat)
      requires link.Length == refs.Length && freeHead == NULL
      ensures PagesInited(0, kernelEnd)
    {
    }

    /** The first `i` pages are set up. */
    ghost predicate PagesInited(i: nat, kernelEnd: nat)
      requires i <= link.Length == refs.Length
      reads this, link, refs
    {
      && Chain(freeHead, link[..i], FreeBelow(i, kernelEnd))
      && forall k :: 0 <= k < i ==> refs[k] == FirstRef(k, kernelEnd)
    }

    method InitPage(i: nat, kernelEnd: nat)
      requires link != refs && i < link.Length == refs.Length
      requires PagesInited(i, kernelEnd)
      modifies this`freeHead, link, refs
      ensures PagesInited(i + 1, kernelEnd)
    {
      CountPage(i, kernelEnd);
      LinkPage(i, kernelEnd);
    }

    method CountPage(i: nat, kernelEnd: nat)
      requires i < refs.Length && link != refs && forall k :: 0 <= k < i ==> refs[k] == FirstRef(k, kernelEnd)
      modifies refs
      ensures link[..] == old(link[..]) && forall k :: 0 <= k < i + 1 ==> refs[k] == FirstRef(k, kernelEnd)
    {
      refs[i] := FirstRef(i, kernelEnd);
    }

    method LinkPage(i: nat, kernelEnd: nat)
      requires i < link.Length && Chain(freeHead, link[..i], FreeBelow(i, kernelEnd))
      modifies this`freeHead, link
      ensures Chain(freeHead, link[..i + 1], FreeBelow(i + 1, kernelEnd))
    {
      ChainNext(freeHead, link[..i], i, kernelEnd);
      if InUse(i, kernelEnd) {
        WriteLink(i, NULL);
      } else {
        WriteLink(i, freeHead);
        freeHead := i;
      }
    }

    /** pages[i].pp_link = v */
    method WriteLink(i: nat, v: int)
      requires i < link.Length
      modifies link
      ensures link[..i + 1] == old(link[..i]) + [v]
    {
      link[i] := v;
    }

    method PageAlloc(zero: bool) returns (page: int)
      requires Valid()
      modifies this`freeHead, this`m, link, pages
      ensures Valid()
      ensures m == PageState.PageAlloc(old(m), zero).0
      ensures page == match PageState.PageAlloc(old(m), zero).1 case None => NULL case Some(f) => f
    {
      if freeHead == NULL { return NULL; }
      page := freeHead;
      ChainPop(freeHead, link[..], m.free);
      freeHead := link[page];
      link[page] := NULL;
      if zero { pages[page] := ZeroPage(); }
      m := PageState.PageAlloc(m, zero).0;
    }

    method PageFree(f: nat)
      requires Valid() && f < m.Size() && m.refs[f] == 0 && f !in m.free
      modifies this`freeHead, this`m, link
      ensures Valid() && m == PageState.PageFree(old(m), f)
    {
      assert refs[f] == 0 && link[f] == NULL;
      ChainPush(freeHead, link[..], m.free, f);
      link[f] := freeHead;
      freeHead := f;
      m := PageState.PageFree(m, f);
    }

    /** Store one pp_ref field. */
    method PutRef(f: nat, v: nat)
      requires Valid() && f < m.Size() && v < REF_LIMIT
      modifies this`m, refs
      ensures Valid() && m == SetRef(old(m), f, v)
    {
      refs[f] := v;
      m := SetRef(m, f, v);
    }

    method PageDecref(f: nat)
      requires Valid() && f < m.Size() && (m.refs[f] == 1 ==> f !in m.free)
      modifies this`freeHead, this`m, link, refs
      ensures Valid() && m == PageState.PageDecref(old(m), f)
    {
      DropToZero(m.refs[f]);
      assert refs[f] == m.refs[f];
      PutRef(f, Drop(refs[f]));
      if refs[f] == 0 { PageFree(f); }
    }

    /** Store one page-table word. */
    method Put(f: nat, j: nat, w: Word)
      requires Valid() && f < m.Size() && j < NPTENTRIES
      modifies this`m, pages
      ensures Valid() && m == SetWord(old(m), f, j, w)
    {
      pages[f] := pages[f][j := w];
      m := SetWord(m, f, j, w);
    }

    /** The table's frame stands for the pointer into it. */
    method PgdirWalk(d: nat, i: nat, create: bool) returns (t: int)
      requires Valid() && WalkOk(m, d, i)
      modifies this`freeHead, this`m, link, refs, pages
      ensures Valid()
      ensures m == PageState.PgdirWalk(old(m), d, i, create).0
      ensures t == match PageState.PgdirWalk(old(m), d, i, create).1 case None => NULL case Some(f) => f
    {
      if !pages[d][i].perm.p {
        if !create { return NULL; }
        var page := PageAlloc(true);
        if page == NULL { return NULL; }
        InstallTable(d, i, page);
      }
      t := pages[d][i].frame;
    }

    /** One reference to the new table, from slot `i`. */
    method InstallTable(d: nat, i: nat, page: nat)
      requires Valid() && d < m.Size() && i < NPDENTRIES && page < m.Size()
      modifies this`m, refs, pages
      ensures Valid()
      ensures m == SetWord(SetRole(SetRef(old(m), page, Bump(old(m).refs[page])), page, Table(d, i)),
                           d, i, Word(page, PTE_PWU))
    {
      PutRef(page, Bump(refs[page]));
      m := SetRole(m, page, Table(d, i));
      Put(d, i, Word(page, PTE_PWU));
    }

    /** The page's frame, or null; `t` is the table that holds its entry. */
    method PageLookup(d: nat, i: nat, j: nat) returns (page: int, t: int)
      requires Valid() && LookupOk(m, d, i, j)
      modifies this`freeHead, this`m, link, refs, pages
      ensures Valid() && m == old(m)
      ensures page == match PageState.PageLookup(m, d, i, j) case None => NULL case Some(w) => w.frame
      ensures page != NULL ==> TableOf(m, d, i) == Some(t)
    {
      t := PgdirWalk(d, i, false);
      if t == NULL || !pages[t][j].perm.p { return NULL, t; }
      page := pages[t][j].frame;
    }

    method PageRemove(d: nat, i: nat, j: nat)
      requires Valid() && RemoveOk(m, d, i, j)
      modifies this`freeHead, this`m, link, refs, pages
      ensures Valid() && m == PageState.PageRemove(old(m), d, i, j)
    {
      var page, t := PageLookup(d, i, j);
      if page == NULL { return; }
      PageDecref(page);
      Put(t, j, ZERO);
    }

    /** 0 or -E_NO_MEM */
    method PageInsert(d: nat, pp: nat, i: nat, j: nat, perm: Perm) returns (r: int)
      requires Valid() && InsertOk(m, d, pp, i, j)
      modifies this`freeHead, this`m, link, refs, pages
      ensures Valid()
      ensures m == PageState.PageInsert(old(m), d, pp, i, j, perm).0
      ensures r == if PageState.PageInsert(old(m), d, pp, i, j, perm).1 then 0 else -E_NO_MEM
    {
      var t := PgdirWalk(d, i, true);
      if t == NULL { return -E_NO_MEM; }
      PutRef(pp, Bump(refs[pp]));
      m := SetRole(m, pp, Data);
      if pages[t][j].perm.p {
        PageRemove(d, i, j);
      }
      Put(t, j, PteFor(pp, perm));
      r := 0;
    }

    /** *tp = v, where `tp` points to a page's link or, when null, to the local variable `first`. */
    method StoreThrough(tp: int, first: int, v: int) returns (first': int)
      requires tp == NULL || 0 <= tp < link.Length
      modifies link
      ensures link[..] == Relinked(old(link[..]), tp, v) && first' == Ended(first, tp, v)
    {
      first' := first;
      if tp == NULL { first' := v; } else { link[tp] := v; }
    }

    /** The partition of check_page_free_list. */
    method PartitionFreeList()
      requires Valid()
      modifies this`freeHead, this`m, link
      ensures Valid() && m == old(m).(free := Partitioned(old(m.free)))
    {
      var pp1, tp0, pp2, tp1 := RelinkByType(m.free);
      PartingEnds(m.free, link[..], pp1, tp0, pp2, tp1);
      pp2 := StoreThrough(tp1, pp2, NULL);
      pp1 := StoreThrough(tp0, pp1, pp2);
      freeHead := pp1;
      m := m.(free := Partitioned(m.free));
      PartitionInRange(old(m.free), m.free, m.Size());
    }

    /** Its loop; NULL as a tail stands for the local first pointer. */
    method RelinkByType(ghost free: seq<nat>) returns (pp1: int, tp0: int, pp2: int, tp1: int)
      requires Chain(freeHead, link[..], free)
      modifies link
      ensures Parting(free, link[..], |free|, NULL, pp1, tp0, pp2, tp1)
    {
      pp1, pp2, tp0, tp1 := NULL, NULL, NULL, NULL;
      var pp := freeHead;
      ghost var n := 0;
      PartingStarts(freeHead, link[..], free);
      while pp != NULL
        invariant n <= |free| && Parting(free, link[..], n, pp, pp1, tp0, pp2, tp1)
        decreases |free| - n
      {
        pp1, tp0, pp2, tp1 := RelinkOne(free, n, pp, pp1, tp0, pp2, tp1);
        pp := link[pp];
        n := n + 1;
      }
    }

    /** One page goes to the end of the strand of its type. */
    method RelinkOne(ghost free: seq<nat>, ghost n: nat, pp: nat, h0: int, t0: int, h1: int, t1: int)
      returns (pp1: int, tp0: int, pp2: int, tp1: int)
      requires n < |free| && Parting(free, link[..], n, pp, h0, t0, h1, t1)
      modifies link
      ensures pp < link.Length && Parting(free, link[..], n + 1, link[pp], pp1, tp0, pp2, tp1)
    {
      PartingStep(free, link[..], n, h0, t0, h1, t1);
      pp1, tp0, pp2, tp1 := h0, t0, h1, t1;
      if High(pp) {
        pp2 := StoreThrough(t1, h1, pp);
        tp1 := pp;
      } else {
        pp1 := StoreThrough(t0, h0, pp);
        tp0 := pp;
      }
    }

    /**
     boot_map_region: map `count` pages from page number `n` of kern_pgdir to consecutive
     frames. `ok` is false when a table was needed and no page was free; C then stores
     through the null pointer.
     */
    method BootMapRegion(n: nat, count: nat, frame: nat, perm: Perm) returns (ok: bool)
      requires Valid() && Inv(m, NO_PAGE) && NoDirs(m) && NoLoose(m) && StaticRange(n, count)
      modifies this`freeHead, this`m, link, refs, pages
      ensures Valid() && BootedTo(old(m), m)
      ensures ok ==> RegionMapped(old(m), m, n, count, frame, perm)
    {
      var i := 0;
      ok := true;
      EmptyRegion(m, n, frame, perm);
      while i < count
        invariant i <= count
        invariant Valid() && BootedTo(old(m), m) && RegionMapped(old(m), m, n, i, frame, perm)
      {
        ok := MapNextPage(old(m), n, i, frame, perm);
        if !ok { return; }
        i := i + 1;
      }
    }

    /** The turn for page `n + i`. */
    method MapNextPage(ghost m0: Mem, n: nat, i: nat, frame: nat, perm: Perm) returns (ok: bool)
      requires Valid() && BootedTo(m0, m) && StaticPage(n + i)
      requires m0.Shape() && RegionMapped(m0, m, n, i, frame, perm)
      modifies this`freeHead, this`m, link, refs, pages
      ensures Valid() && BootedTo(m0, m)
      ensures ok ==> RegionMapped(m0, m, n, i + 1, frame, perm)
    {
      ghost var m1 := m;
      ok := MapStaticPage(n + i, frame + i, perm);
      BootedNext(m0, m1, m, ok, n, i, frame, perm);
    }

    method MapStaticPage(n: nat, frame: nat, perm: Perm) returns (ok: bool)
      requires Valid() && Inv(m, NO_PAGE) && StaticPage(n)
      modifies this`freeHead, this`m, link, refs, pages
      ensures Valid() && (m, ok) == BootMapPage(old(m), n, frame, perm)
    {
      StaticSlots(n);
      assert KernelSlotOk(m, n / 1024);
      var t := PgdirWalk(kdir, n / 1024, true);
      if t == NULL { return false; }
      Put(t, n % 1024, Word(frame, perm.(p := true)));
      ok := true;
    }

    /**
     user_mem_check: 0 when every tested page grants `perm`; otherwise -E_FAULT, and
     user_mem_check_addr is the first erroneous address.
     */
    method UserMemCheck(d: nat, va: nat, len: nat, perm: Perm) returns (r: int)
      requires Valid() && d < m.Size() && va < WORD && len < WORD && SlotsOk(m, d)
      modifies this`checkAddr, this`freeHead, this`m, link, refs, pages
      ensures Valid() && m == old(m)
      ensures CheckResult(m, d, va, FirstPage(va), EndOfRange(va, len), perm, r, old(checkAddr), checkAddr)
    {
      FirstPageIsAligned(va);
      r := CheckRange(d, va, FirstPage(va), EndOfRange(va, len), perm);
    }

    method CheckRange(d: nat, va: nat, start: nat, end: nat, perm: Perm) returns (r: int)
      requires Valid() && d < m.Size() && SlotsOk(m, d) && start % 4096 == 0
      modifies this`checkAddr, this`freeHead, this`m, link, refs, pages
      ensures Valid() && m == old(m) && CheckResult(m, d, va, start, end, perm, r, old(checkAddr), checkAddr)
    {
      var x := FirstRefused(d, start, end, perm);
      if x >= end { return 0; }
      checkAddr := if x == start then va else x;
      r := -E_FAULT;
    }

    /** Its loop: the first page that does not grant `perm`, or the end of the range. */
    method FirstRefused(d: nat, start: nat, end: nat, perm: Perm) returns (x: nat)
      requires Valid() && d < m.Size() && SlotsOk(m, d) && start % 4096 == 0
      modifies this`freeHead, this`m, link, refs, pages
      ensures Valid() && m == old(m) && RefusedAt(m, d, start, end, perm, x)
    {
      ghost var m0 := m;
      x := start;
      while x < end
        invariant Reached(start, x) && Valid() && m == m0
        invariant GrantedBelow(m0, d, start, end, perm, x)
      {
        var ok := CheckPage(d, x, perm);
        if !ok {
          RefusedHere(m0, d, start, end, perm, x);
          return;
        }
        GrantedNext(m0, d, start, end, perm, x);
        x := x + PGSIZE;
      }
      NoneRefused(m0, d, start, end, perm, x);
    }

    method CheckPage(d: nat, start: nat, perm: Perm) returns (ok: bool)
      requires Valid() && d < m.Size() && WalkOk(m, d, Pdx(start))
      modifies this`freeHead, this`m, link, refs, pages
      ensures Valid() && m == old(m) && (ok <==> Grants(m, d, start, perm))
    {
      var t := PgdirWalk(d, Pdx(start), false);
      ok := !(t == NULL || start >= ULIM || !SetsAll(pages[t][Ptx(start)], perm));
    }

    /** env_setup_vm: the new directory's frame, or null for -E_NO_MEM. */
    method EnvSetupVm() returns (d: int)
      requires Valid()
      modifies this`freeHead, this`m, link, refs, pages
      ensures Valid()
      ensures m == AddressSpace.EnvSetupVm(old(m)).0
      ensures d == match AddressSpace.EnvSetupVm(old(m)).1 case None => NULL case Some(f) => f
    {
      d := PageAlloc(true);
      if d == NULL { return; }
      PutRef(d, Bump(refs[d]));
      m := SetRole(m, d, Dir);
      CopyKernelHalf(d);
    }

    /** The two loops over the new directory and the UVPT slot. */
    method CopyKernelHalf(d: nat)
      requires Valid() && d < m.Size()
      modifies this`m, pages
      ensures Valid() && m == old(m).(words := old(m).words[d := NewDirPage(old(m), d)])
    {
      var page, kern := pages[d], pages[kdir];
      var i := 0;
      while i < PDX_UTOP
        invariant i <= PDX_UTOP && |page| == NPDENTRIES
        invariant forall x :: 0 <= x < i ==> page[x] == ZERO
      {
        page := page[i := ZERO];
        i := i + 1;
      }
      while i < NPDENTRIES
        invariant PDX_UTOP <= i <= NPDENTRIES && |page| == NPDENTRIES
        invariant forall x :: 0 <= x < PDX_UTOP ==> page[x] == ZERO
        invariant forall x :: PDX_UTOP <= x < i ==> page[x] == kern[x]
      {
        page := page[i := kern[i]];
        i := i + 1;
      }
      page := page[PDX_UVPT := Word(d, PTE_PU)];
      assert page == NewDirPage(m, d);
      pages[d] := page;
      m := m.(words := m.words[d := page]);
    }

    /** The page half of env_free: the user half of the directory, then the directory itself. */
    method FreeSpace(d: nat)
      requires Valid() && Inv(m, NO_PAGE) && IsDir(m, d)
      modifies this`freeHead, this`m, link, refs, pages
      ensures Valid() && m == AddressSpace.FreeSpace(old(m), d)
    {
      FreeTablesKeeps(m, d, 0);
      DirRefIsOne(FreeTables(m, d, 0), d);
      FreeUserHalf(d);
      PageDecref(d);
    }

    method FreeUserHalf(d: nat)
      requires Valid() && Inv(m, NO_PAGE) && IsDir(m, d)
      modifies this`freeHead, this`m, link, refs, pages
      ensures Valid() && m == FreeTables(old(m), d, 0)
    {
      var i := 0;
      ghost var end := FreeTables(m, d, 0);
      while i < PDX_UTOP
        invariant i <= PDX_UTOP && Valid() && Inv(m, NO_PAGE) && IsDir(m, d)
        invariant FreeTables(m, d, i) == end
      {
        SlotStep(m, d, i);
        FreeOneSlot(d, i);
        i := i + 1;
      }
    }

    method FreeOneSlot(d: nat, i: nat)
      requires Valid() && Inv(m, NO_PAGE) && IsDir(m, d) && i < PDX_UTOP
      modifies this`freeHead, this`m, link, refs, pages
      ensures Valid() && m == FreeSlot(old(m), d, i)
    {
      if pages[d][i].perm.p { FreeOneTable(d, i); }
    }

    /** One present slot: unmap its pages, then drop the table. */
    method FreeOneTable(d: nat, i: nat)
      requires Valid() && Inv(m, NO_PAGE) && IsDir(m, d) && i < PDX_UTOP && m.words[d][i].perm.p
      modifies this`freeHead, this`m, link, refs, pages
      ensures Valid() && m == FreeSlot(old(m), d, i)
    {
      var t := pages[d][i].frame;
      assert TableHere(m, d, i, t) by { assert SlotOk(m, d, i); }
      FreeEntries(d, i, t, FreeTable(m, d, i, 0));
      DropOneTable(d, i, t);
    }

    /** Its inner loop. */
    method FreeEntries(d: nat, i: nat, t: nat, ghost end: Mem)
      requires Valid() && Emptying(m, d, i, t, 0, end)
      modifies this`freeHead, this`m, link, refs, pages
      ensures Valid() && Emptying(m, d, i, t, NPTENTRIES, end)
    {
      var j: nat := 0;
      while j != NPTENTRIES
        invariant Valid() && TableHere(m, d, i, t)
        invariant Emptying(m, d, i, t, j, end)
        decreases NPTENTRIES - j
      {
        FreeEntry(d, i, j, t, end);
        j := j + 1;
      }
    }

    method FreeEntry(d: nat, i: nat, j: nat, t: nat, ghost end: Mem)
      requires Valid() && j < NPTENTRIES && Emptying(m, d, i, t, j, end)
      modifies this`freeHead, this`m, link, refs, pages
      ensures Valid() && Emptying(m, d, i, t, j + 1, end)
    {
      EntryStep(m, d, i, j);
      if pages[t][j].perm.p { PageRemove(d, i, j); }
    }

    method DropOneTable(d: nat, i: nat, t: nat)
      requires Valid() && i < PDX_UTOP && TableHere(m, d, i, t)
      modifies this`freeHead, this`m, link, refs, pages
      ensures Valid() && m == DropTable(old(m), d, i)
    {
      TableRefIsOne(m, d, i);
      Put(d, i, ZERO);
      PageDecref(t);
    }
  }
}
