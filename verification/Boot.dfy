/**
 Memory at boot (kern/pmap.c): the free list page_init builds, and the static mappings
 boot_map_region adds to kern_pgdir before any environment exists.
 */
module Boot {
  import opened Layout
  import opened PageState
  import opened PageInv
  import opened FreeList

  const IO_HOLE_PAGE: nat := 160
  const MPENTRY_PAGE: nat := 7

  /** Pages page_init keeps off the free list: page 0, the IO hole and the kernel, the AP boot code. */
  predicate InUse(i: nat, kernelEnd: nat) {
    i == 0 || IO_HOLE_PAGE <= i < kernelEnd || i == MPENTRY_PAGE
  }

  /** pp_ref after page_init. */
  function FirstRef(i: nat, kernelEnd: nat): nat { if InUse(i, kernelEnd) then 1 else 0 }

  /** The free pages below `n`, highest first. */
  function FreeBelow(n: nat, kernelEnd: nat): (free: seq<nat>) {
    if n == 0 then []
    else if InUse(n - 1, kernelEnd) then FreeBelow(n - 1, kernelEnd)
    else [n - 1] + FreeBelow(n - 1, kernelEnd)
  }

  lemma {:induction false} FreeBelowElements(n: nat, kernelEnd: nat)
    ensures forall x :: x in FreeBelow(n, kernelEnd) <==> 0 <= x < n && !InUse(x, kernelEnd)
    ensures forall a, b :: 0 <= a < b < |FreeBelow(n, kernelEnd)| ==>
      FreeBelow(n, kernelEnd)[a] > FreeBelow(n, kernelEnd)[b]
  {
    if n > 0 {
      FreeBelowElements(n - 1, kernelEnd);
      var rest := FreeBelow(n - 1, kernelEnd);
      forall a, b | 0 <= a < b < |FreeBelow(n, kernelEnd)|
        ensures FreeBelow(n, kernelEnd)[a] > FreeBelow(n, kernelEnd)[b]
      {
        if !InUse(n - 1, kernelEnd) {
          assert rest[b - 1] in rest;
          if a > 0 { assert rest[a - 1] > rest[b - 1]; }
        }
      }
    }
  }

  /** kern_pgdir before any mapping: only the slot that maps it into itself. */
  function KernDirPage(kdir: nat): (page: seq<Word>)
    ensures |page| == NPDENTRIES
  {
    ZeroPage()[PDX_UVPT := Word(kdir, PTE_PU)]
  }

  /** Physical memory as the boot loader leaves it, with kern_pgdir made by boot_alloc. */
  ghost predicate BootContents(contents: seq<seq<Word>>, kernelEnd: nat, kdir: nat) {
    && IO_HOLE_PAGE <= kdir < kernelEnd <= |contents|
    && contents[kdir] == KernDirPage(kdir)
    && forall f :: 0 <= f < |contents| ==> |contents[f]| == NPTENTRIES
  }

  /** The page state after page_init. */
  ghost function BootMem(contents: seq<seq<Word>>, kernelEnd: nat, kdir: nat): (m: Mem)
    requires BootContents(contents, kernelEnd, kdir)
    ensures m.Shape() && m.Size() == |contents|
  {
    FreeBelowElements(|contents|, kernelEnd);
    assert forall k :: 0 <= k < |FreeBelow(|contents|, kernelEnd)| ==>
      FreeBelow(|contents|, kernelEnd)[k] in FreeBelow(|contents|, kernelEnd);
    Mem(FreeBelow(|contents|, kernelEnd),
        seq(|contents|, i => if i >= 0 then FirstRef(i, kernelEnd) else 0),
        contents,
        seq(|contents|, i => if i >= 0 && InUse(i, kernelEnd) then Reserved else Free),
        kdir)
  }

  /** page_init establishes the invariant: every page is on the free list, once, unless it is in use. */
  lemma BootMemOk(contents: seq<seq<Word>>, kernelEnd: nat, kdir: nat)
    requires BootContents(contents, kernelEnd, kdir)
    ensures var m := BootMem(contents, kernelEnd, kdir);
      && Inv(m, NO_PAGE) && NoDirs(m) && NoLoose(m)
      && (forall f :: 0 <= f < m.Size() ==> (f in m.free <==> f != 0 && f != 7 && !(160 <= f < kernelEnd)))
      && (forall f :: 0 <= f < m.Size() ==> m.refs[f] == if f in m.free then 0 else 1)
      && (forall a, b :: 0 <= a < b < |m.free| ==> m.free[a] > m.free[b])
      && m.words == contents && m.kdir == kdir
  {
    FreeBelowElements(|contents|, kernelEnd);
  }

  // ---- boot_map_region

  /** The kernel-half entry (i, j) of kern_pgdir. */
  function KernEntry(m: Mem, i: nat, j: nat): (w: Option<Word>)
    requires m.Shape() && i < NPDENTRIES && j < NPTENTRIES
  {
    var t := TableOf(m, m.kdir, i);
    if t.None? then None else Some(m.words[t.value][j])
  }

  /** Page numbers boot_map_region is used for: from UTOP up, but not in the slot at UVPT. */
  predicate StaticPage(n: nat) {
    977920 <= n < 979968 || 980992 <= n < 1048576
  }

  predicate StaticRange(n: nat, count: nat) {
    count == 0 || (StaticPage(n) && StaticPage(n + count - 1) && (n < 979968 <==> n + count <= 979968))
  }

  lemma StaticSlots(n: nat)
    ensures StaticPage(n) <==> PDX_UTOP <= n / 1024 < NPDENTRIES && n / 1024 != PDX_UVPT
  {
  }

  /** One turn: `false` is a store through the null pointer pgdir_walk returned. */
  function BootMapPage(m: Mem, n: nat, frame: nat, perm: Perm): (r: (Mem, bool))
    requires m.Shape() && StaticPage(n)
    ensures r.0.Shape() && r.0.Size() == m.Size() && r.0.kdir == m.kdir
  {
    StaticSlots(n);
    var (m1, t) := PgdirWalk(m, m.kdir, n / 1024, true);
    if t.None? then (m1, false) else (SetWord(m1, t.value, n % 1024, Word(frame, perm.(p := true))), true)
  }

  /** Pages in use keep their count and their use. */
  ghost predicate UsedKept(m: Mem, m': Mem)
    requires m.Shape() && m'.Shape()
  {
    m'.Size() == m.Size()
    && forall f :: 0 <= f < m.Size() && m.role[f] != Free ==> m'.refs[f] == m.refs[f] && m'.role[f] == m.role[f]
  }

  ghost predicate NoDirs(m: Mem) { forall d :: 0 <= d < |m.role| ==> m.role[d] != Dir }

  ghost function InstallKernelTable(m: Mem, i: nat, t: nat): (r: Mem)
    requires m.Shape() && i < NPDENTRIES && t < m.Size()
    ensures r.Shape()
  {
    SetWord(SetRole(SetRef(m, t, 1), t, Table(m.kdir, i)), m.kdir, i, Word(t, PTE_PWU))
  }

  lemma NoUserTables(m: Mem)
    requires m.Shape() && TreeOk(m) && NoDirs(m)
    ensures forall x: nat :: !UserTable(m, x)
  {
    forall x | 0 <= x < m.Size() && m.role[x].Table? ensures m.role[x].pdx >= PDX_UTOP {
      assert ParentOk(m, x);
    }
  }

  lemma InstallKernelTableKeeps(m: Mem, i: nat, t: nat)
    requires Inv(m, NO_PAGE) && NoDirs(m) && PDX_UTOP <= i < NPDENTRIES && i != PDX_UVPT && !m.words[m.kdir][i].perm.p
    requires t < m.Size() && m.role[t] == Loose
    ensures Inv(InstallKernelTable(m, i, t), NO_PAGE)
  {
    var m' := InstallKernelTable(m, i, t);
    assert RefOk(m, t, NO_PAGE);
    forall x | 0 <= x < m.Size() && m'.role[x].Table? ensures ParentOk(m', x) {
      if x != t { assert ParentOk(m, x); }
    }
    NoUserTables(m);
    assert forall x: nat :: UserTable(m', x) ==> UserTable(m, x);
    forall b | 955 <= b < 1024 ensures KernelSlotOk(m', b) {
      assert KernelSlotOk(m, b);
    }
    forall x | 0 <= x < m.Size() ensures RefOk(m', x, NO_PAGE) {
      assert RefOk(m, x, NO_PAGE);
      NoDirsNoMappers(m, x);
      NoDirsNoMappers(m', x);
    }
  }

  lemma NoDirsNoMappers(m: Mem, f: nat)
    requires m.Shape() && NoDirs(m)
    ensures Mappers(m, f) == {}
  {
    forall k ensures k !in Mappers(m, f) {
      InMappers(m, f, k);
    }
  }

  lemma KernelWalkKeeps(m: Mem, i: nat)
    requires Inv(m, NO_PAGE) && NoDirs(m) && PDX_UTOP <= i < NPDENTRIES && i != PDX_UVPT
    ensures var (m', t) := PgdirWalk(m, m.kdir, i, true);
      && Inv(m', NO_PAGE) && NoDirs(m')
      && (t.None? <==> !m.words[m.kdir][i].perm.p && m.free == [])
      && (t.Some? ==> m'.role[t.value] == Table(m.kdir, i) && TableOf(m', m.kdir, i) == t)
      && (forall b, j :: 955 <= b < 1024 && 0 <= j < 1024 && b != PDX_UVPT && (b != i || m.words[m.kdir][i].perm.p) ==>
            KernEntry(m', b, j) == KernEntry(m, b, j))
      && (forall j :: 0 <= j < 1024 ==> SameEntry(KernEntry(m, i, j), KernEntry(m', i, j)))
      && UsedKept(m, m')
  {
    assert KernelSlotOk(m, i);
    if !m.words[m.kdir][i].perm.p && m.free != [] {
      PageAllocKeeps(m, true, NO_PAGE);
      var (m1, page) := PageAlloc(m, true);
      InstallKernelTableKeeps(m1, i, page.value);
      assert RefOk(m1, page.value, NO_PAGE);
      forall b, j | 955 <= b < 1024 && 0 <= j < 1024 && b != PDX_UVPT && b != i
        ensures KernEntry(InstallKernelTable(m1, i, page.value), b, j) == KernEntry(m, b, j)
      {
        assert KernelSlotOk(m, b);
      }
    }
  }

  lemma KernelStoreKeeps(m: Mem, i: nat, j: nat, w: Word)
    requires Inv(m, NO_PAGE) && NoDirs(m) && PDX_UTOP <= i < NPDENTRIES && i != PDX_UVPT && j < NPTENTRIES
    requires TableOf(m, m.kdir, i).Some? && m.role[TableOf(m, m.kdir, i).value] == Table(m.kdir, i)
    ensures var m' := SetWord(m, TableOf(m, m.kdir, i).value, j, w);
      && Inv(m', NO_PAGE) && NoDirs(m') && KernEntry(m', i, j) == Some(w)
      && (forall b, c :: 955 <= b < 1024 && 0 <= c < 1024 && b != PDX_UVPT && (b, c) != (i, j) ==>
          KernEntry(m', b, c) == KernEntry(m, b, c))
  {
    var t := TableOf(m, m.kdir, i).value;
    var m' := SetWord(m, t, j, w);
    forall x | 0 <= x < m.Size() && m'.role[x].Table? ensures ParentOk(m', x) {
      assert ParentOk(m, x);
    }
    NoUserTables(m);
    assert forall x: nat :: UserTable(m', x) ==> UserTable(m, x);
    forall b | 955 <= b < 1024 ensures KernelSlotOk(m', b) {
      assert KernelSlotOk(m, b);
    }
    forall x | 0 <= x < m.Size() ensures RefOk(m', x, NO_PAGE) {
      assert RefOk(m, x, NO_PAGE);
      NoDirsNoMappers(m, x);
      NoDirsNoMappers(m', x);
    }
    forall b, c | 955 <= b < 1024 && 0 <= c < 1024 && b != PDX_UVPT && (b, c) != (i, j)
      ensures KernEntry(m', b, c) == KernEntry(m, b, c)
    {
      assert KernelSlotOk(m, b);
    }
  }

  /** The entry is as it was; where there was no table there may be an empty one. */
  predicate SameEntry(was: Option<Word>, now: Option<Word>) {
    now == was || (was == None && now == Some(ZERO))
  }

  /** Page numbers [n, n + count) map to consecutive frames, every other static page as before. */
  ghost predicate RegionMapped(m: Mem, m': Mem, n: nat, count: nat, frame: nat, perm: Perm)
    requires m.Shape() && m'.Shape()
  {
    forall x :: StaticPage(x) ==> PageMapped(m, m', n, count, frame, perm, x)
  }

  ghost predicate PageMapped(m: Mem, m': Mem, n: nat, count: nat, frame: nat, perm: Perm, x: nat)
    requires m.Shape() && m'.Shape() && StaticPage(x)
  {
    StaticSlots(x);
    if n <= x < n + count then KernEntry(m', x / 1024, x % 1024) == Some(Word(frame + (x - n), perm.(p := true)))
    else SameEntry(KernEntry(m, x / 1024, x % 1024), KernEntry(m', x / 1024, x % 1024))
  }

  lemma BootMapPageMaps(m: Mem, n: nat, frame: nat, perm: Perm)
    requires Inv(m, NO_PAGE) && NoDirs(m) && StaticPage(n)
    ensures var (m', ok) := BootMapPage(m, n, frame, perm);
      && Inv(m', NO_PAGE) && NoDirs(m')
      && (ok ==> RegionMapped(m, m', n, 1, frame, perm))
      && UsedKept(m, m')
  {
    var i, j := n / 1024, n % 1024;
    StaticSlots(n);
    KernelWalkKeeps(m, i);
    var (m1, t) := PgdirWalk(m, m.kdir, i, true);
    if t.Some? {
      var w := Word(frame, perm.(p := true));
      KernelStoreKeeps(m1, i, j, w);
      var m' := SetWord(m1, t.value, j, w);
      forall x | StaticPage(x) ensures PageMapped(m, m', n, 1, frame, perm, x) {
        StaticSlots(x);
        if x != n { assert (x / 1024, x % 1024) != (i, j); }
      }
    }
  }

  /**
   Where boot can have got to from `m0`: the invariant holds, no space exists, no page is lost
   and nothing in use was disturbed.
   */
  ghost predicate BootedTo(m0: Mem, m: Mem) {
    m0.Shape() && Inv(m, NO_PAGE) && NoDirs(m) && NoLoose(m) && UsedKept(m0, m)
  }

  lemma EmptyRegion(m: Mem, n: nat, frame: nat, perm: Perm)
    requires m.Shape()
    ensures RegionMapped(m, m, n, 0, frame, perm) && UsedKept(m, m)
  {
    forall x | StaticPage(x) ensures PageMapped(m, m, n, 0, frame, perm, x) {
    }
  }

  lemma UsedKeptTrans(a: Mem, b: Mem, c: Mem)
    requires a.Shape() && b.Shape() && c.Shape() && UsedKept(a, b) && UsedKept(b, c)
    ensures UsedKept(a, c)
  {
  }

  /** The region so far and the page after it. */
  lemma RegionGrows(m: Mem, m1: Mem, m': Mem, n: nat, count: nat, frame: nat, perm: Perm)
    requires m.Shape() && m1.Shape() && m'.Shape()
    requires RegionMapped(m, m1, n, count, frame, perm) && RegionMapped(m1, m', n + count, 1, frame + count, perm)
    ensures RegionMapped(m, m', n, count + 1, frame, perm)
  {
    forall x | StaticPage(x) ensures PageMapped(m, m', n, count + 1, frame, perm, x) {
      assert PageMapped(m, m1, n, count, frame, perm, x) && PageMapped(m1, m', n + count, 1, frame + count, perm, x);
    }
  }

  /** One turn of boot_map_region. */
  lemma BootedNext(m0: Mem, m: Mem, m': Mem, ok: bool, n: nat, i: nat, frame: nat, perm: Perm)
    requires BootedTo(m0, m) && StaticPage(n + i) && RegionMapped(m0, m, n, i, frame, perm)
    requires (m', ok) == BootMapPage(m, n + i, frame + i, perm)
    ensures BootedTo(m0, m')
    ensures ok ==> RegionMapped(m0, m', n, i + 1, frame, perm)
  {
    BootedKept(m0, m, m', ok, n, i, frame, perm);
    BootMapPageMaps(m, n + i, frame + i, perm);
    if ok { RegionGrows(m0, m, m', n, i, frame, perm); }
  }

  lemma BootedKept(m0: Mem, m: Mem, m': Mem, ok: bool, n: nat, i: nat, frame: nat, perm: Perm)
    requires BootedTo(m0, m) && StaticPage(n + i) && (m', ok) == BootMapPage(m, n + i, frame + i, perm)
    ensures BootedTo(m0, m')
  {
    BootMapPageMaps(m, n + i, frame + i, perm);
    UsedKeptTrans(m0, m, m');
  }
}
