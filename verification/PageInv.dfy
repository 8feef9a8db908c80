/**
 The invariant that ties pp_ref, the free list and every page-table word together,
 and what each page operation of kern/pmap.c does to the flat map (directory, page)
 -> (frame, permission) that the two-level tables stand for.
 */
module PageInv {
  import opened Layout
  import opened PageState

  /** A user-half virtual page of one address space. */
  datatype Key = Key(d: nat, i: nat, j: nat)

  ghost predicate IsDir(m: Mem, d: nat) {
    d < |m.role| && m.role[d] == Dir
  }

  ghost predicate UserKey(m: Mem, k: Key) {
    IsDir(m, k.d) && k.i < PDX_UTOP && k.j < NPTENTRIES
  }

  /** The flat map: what `k` translates to. */
  ghost function At(m: Mem, k: Key): (w: Option<Word>)
    requires m.Shape()
  {
    if UserKey(m, k) then PageLookup(m, k.d, k.i, k.j) else None
  }

  ghost predicate Maps(m: Mem, k: Key, f: nat)
    requires m.Shape()
  {
    At(m, k).Some? && At(m, k).value.frame == f
  }

  /** All user-half pages, over all directories, that map frame `f`. */
  ghost function Mappers(m: Mem, f: nat): set<Key>
    requires m.Shape()
  {
    set d: nat, i: nat, j: nat | d < m.Size() && i < 955 && j < 1024 && Maps(m, Key(d, i, j), f) :: Key(d, i, j)
  }

  lemma InMappers(m: Mem, f: nat, k: Key)
    requires m.Shape()
    ensures k in Mappers(m, f) <==> Maps(m, k, f)
  {
    if Maps(m, k, f) {
      assert k == Key(k.d, k.i, k.j);
    }
  }

  /** The free list is duplicate-free and holds exactly the pages marked free. */
  ghost predicate FreeOk(m: Mem)
    requires m.Shape()
  {
    && (forall a, b :: 0 <= a < b < |m.free| ==> m.free[a] != m.free[b])
    && (forall f :: 0 <= f < m.Size() ==> (f in m.free <==> m.role[f] == Free))
  }

  /** Every table hangs off one slot of one directory, and tables map only data pages. */
  ghost predicate TreeOk(m: Mem)
    requires m.Shape()
  {
    && (forall d: nat, i :: IsDir(m, d) && 0 <= i < 955 && m.words[d][i].perm.p ==> SlotOk(m, d, i))
    && (forall t :: 0 <= t < m.Size() && m.role[t].Table? ==> ParentOk(m, t))
    && (forall t, j :: UserTable(m, t) && 0 <= j < 1024 && m.words[t][j].perm.p ==> EntryOk(m, m.words[t][j]))
  }

  ghost predicate UserTable(m: Mem, t: int) {
    0 <= t < |m.role| && m.role[t].Table? && m.role[t].pdx < PDX_UTOP
  }

  ghost predicate SlotOk(m: Mem, d: nat, i: nat)
    requires m.Shape() && d < m.Size() && i < NPDENTRIES
  {
    var t := m.words[d][i].frame;
    t < m.Size() && m.role[t] == Table(d, i)
  }

  ghost predicate ParentOk(m: Mem, t: nat)
    requires m.Shape() && t < m.Size() && m.role[t].Table?
  {
    var r := m.role[t];
    && r.pdx < NPDENTRIES
    && (if r.pdx < PDX_UTOP then IsDir(m, r.dir) else r.dir == m.kdir)
    && m.words[r.dir][r.pdx] == Word(t, PTE_PWU)
  }

  ghost predicate EntryOk(m: Mem, w: Word)
    requires m.Shape()
  {
    w.frame < m.Size() && m.role[w.frame] == Data
  }

  /** Above UTOP every directory repeats kern_pgdir, except for its own UVPT slot. */
  ghost predicate KernelHalfOk(m: Mem)
    requires m.Shape()
  {
    && m.role[m.kdir] == Reserved
    && (forall i :: 955 <= i < 1024 ==> KernelSlotOk(m, i))
    && (forall d: nat, i :: IsDir(m, d) && 955 <= i < 1024 ==> UpperOk(m, d, i))
  }

  ghost predicate KernelSlotOk(m: Mem, i: nat)
    requires m.Shape() && i < NPDENTRIES
  {
    i != PDX_UVPT && m.words[m.kdir][i].perm.p ==> SlotOk(m, m.kdir, i)
  }

  ghost predicate UpperOk(m: Mem, d: nat, i: nat)
    requires m.Shape() && d < m.Size() && i < NPDENTRIES
  {
    m.words[d][i] == if i == PDX_UVPT then Word(d, PTE_PU) else m.words[m.kdir][i]
  }

  /**
   Reference counts are exact: a data page counts the user-half entries that map it,
   a table or a directory counts one. `held` is a page with one reference not yet
   stored in an entry; `NO_PAGE` when there is none.
   */
  ghost predicate RefOk(m: Mem, f: nat, held: int)
    requires m.Shape() && f < m.Size()
  {
    match m.role[f]
    case Free => m.refs[f] == 0
    case Loose => m.refs[f] == 0
    case Dir => m.refs[f] == 1
    case Table(_, _) => m.refs[f] == 1
    case Data => m.refs[f] == |Mappers(m, f)| + (if f == held then 1 else 0) && m.refs[f] > 0
    case Reserved => true
  }

  const NO_PAGE: int := -1

  ghost predicate RefsOk(m: Mem, held: int)
    requires m.Shape()
  {
    forall f :: 0 <= f < m.Size() ==> RefOk(m, f, held)
  }

  /** No page is between page_alloc and its first reference. */
  ghost predicate NoLoose(m: Mem) {
    forall f :: 0 <= f < |m.role| ==> m.role[f] != Loose
  }

  ghost predicate Inv(m: Mem, held: int) {
    m.Shape() && FreeOk(m) && TreeOk(m) && KernelHalfOk(m) && RefsOk(m, held)
  }

  // ---- What lookups depend on

  lemma AtIsUnique(m: Mem, k: Key, w: Word)
    requires m.Shape() && TreeOk(m) && At(m, k) == Some(w)
    ensures EntryOk(m, w) && w.perm.p
    ensures TableOf(m, k.d, k.i).Some?
    ensures m.role[TableOf(m, k.d, k.i).value] == Table(k.d, k.i)
    ensures m.words[TableOf(m, k.d, k.i).value][k.j] == w
  {
    assert SlotOk(m, k.d, k.i);
  }

  lemma SameMappers(m: Mem, m': Mem, f: nat)
    requires m.Shape() && m'.Shape()
    requires forall k :: Maps(m, k, f) <==> Maps(m', k, f)
    ensures Mappers(m, f) == Mappers(m', f)
  {
    forall k ensures k in Mappers(m, f) <==> k in Mappers(m', f) {
      InMappers(m, f, k);
      InMappers(m', f, k);
    }
  }

  lemma MoreMappers(m: Mem, m': Mem, f: nat, k0: Key)
    requires m.Shape() && m'.Shape()
    requires !Maps(m, k0, f)
    requires forall k :: Maps(m', k, f) <==> k == k0 || Maps(m, k, f)
    ensures Mappers(m', f) == Mappers(m, f) + {k0} && |Mappers(m', f)| == |Mappers(m, f)| + 1
  {
    forall k ensures k in Mappers(m', f) <==> k in Mappers(m, f) + {k0} {
      InMappers(m, f, k);
      InMappers(m', f, k);
    }
    InMappers(m, f, k0);
  }

  lemma FewerMappers(m: Mem, m': Mem, f: nat, k0: Key)
    requires m.Shape() && m'.Shape()
    requires Maps(m, k0, f)
    requires forall k :: Maps(m', k, f) <==> k != k0 && Maps(m, k, f)
    ensures Mappers(m', f) == Mappers(m, f) - {k0} && |Mappers(m', f)| == |Mappers(m, f)| - 1
    ensures |Mappers(m, f)| > 0
  {
    forall k ensures k in Mappers(m', f) <==> k in Mappers(m, f) - {k0} {
      InMappers(m, f, k);
      InMappers(m', f, k);
    }
    InMappers(m, f, k0);
  }

  /** Nothing outside the listed words changes what any key translates to. */
  ghost predicate SameFlat(m: Mem, m': Mem)
    requires m.Shape() && m'.Shape()
  {
    forall k :: At(m', k) == At(m, k)
  }

  /** Only `k0` translates differently. */
  ghost predicate SameFlatBut(m: Mem, m': Mem, k0: Key)
    requires m.Shape() && m'.Shape()
  {
    forall k :: k != k0 ==> At(m', k) == At(m, k)
  }

  /** The same directories exist, and no allocated page other than a table changed its bytes. */
  ghost predicate Frame(m: Mem, m': Mem)
    requires m.Shape() && m'.Shape()
  {
    && m'.Size() == m.Size() && m'.kdir == m.kdir
    && (forall d: nat :: IsDir(m', d) <==> IsDir(m, d))
    && (forall f :: 0 <= f < m.Size() && m.role[f] in {Data, Loose} ==> m'.words[f] == m.words[f])
  }

  lemma KernelHalfCarry(m: Mem, m': Mem)
    requires m.Shape() && m'.Shape() && m.Size() == m'.Size() && m.kdir == m'.kdir && KernelHalfOk(m)
    requires m'.role[m.kdir] == Reserved && m'.words[m.kdir] == m.words[m.kdir]
    requires forall d: nat :: IsDir(m', d) ==> IsDir(m, d)
    requires forall d: nat, i :: IsDir(m', d) && 955 <= i < 1024 ==> m'.words[d][i] == m.words[d][i]
    requires forall t :: 0 <= t < m.Size() && m.role[t].Table? && m.role[t].dir == m.kdir ==> m'.role[t] == m.role[t]
    ensures KernelHalfOk(m')
  {
    forall i | 955 <= i < 1024 ensures KernelSlotOk(m', i) {
      assert KernelSlotOk(m, i);
    }
    forall d: nat, i | IsDir(m', d) && 955 <= i < 1024 ensures UpperOk(m', d, i) {
      assert UpperOk(m, d, i);
    }
  }

  /** Counts stay exact when nothing is mapped differently and only unreferenced pages change use. */
  lemma RefsCarry(m: Mem, m': Mem, held: int)
    requires m.Shape() && m'.Shape() && m'.Size() == m.Size() && RefsOk(m, held) && SameFlat(m, m') && m'.refs == m.refs
    requires forall x :: 0 <= x < m.Size() ==>
      m'.role[x] == m.role[x] || (m'.role[x] in {Free, Loose} && m.refs[x] == 0)
    ensures RefsOk(m', held)
  {
    forall x | 0 <= x < m.Size() ensures RefOk(m', x, held) {
      assert RefOk(m, x, held);
      SameMappers(m, m', x);
    }
  }

  // ---- page_alloc and page_free

  lemma PageAllocKeeps(m: Mem, zero: bool, held: int)
    requires Inv(m, held)
    ensures var (m', page) := PageAlloc(m, zero);
      && Inv(m', held) && SameFlat(m, m') && Frame(m, m')
      && (page.None? <==> m.free == [])
      && (page.None? ==> m' == m)
      && (page.Some? ==> m.role[page.value] == Free && m'.role == m.role[page.value := Loose]
                         && m'.refs == m.refs && m'.refs[page.value] == 0
                         && page.value == m.free[0] && m'.free == m.free[1..])
      && (!zero ==> m'.words == m.words)
      && (page.Some? && zero ==> forall j :: 0 <= j < 1024 ==> m'.words[page.value][j] == ZERO)
      && (forall f :: 0 <= f < m.Size() && page != Some(f) ==> m'.words[f] == m.words[f])
  {
    var (m', page) := PageAlloc(m, zero);
    if page.Some? {
      var f := page.value;
      assert f in m.free && RefOk(m, f, held);
      PageAllocFlat(m, m', f);
      assert m.free == [f] + m.free[1..];
      RefsCarry(m, m', held);
      KernelHalfCarry(m, m');
    }
  }

  /** A page without a role in the tables can change its role and its bytes unseen. */
  lemma PageAllocFlat(m: Mem, m': Mem, f: nat)
    requires m.Shape() && m'.Shape() && TreeOk(m) && f < m.Size() && m.role[f] == Free && m.role[m.kdir] == Reserved
    requires m'.Size() == m.Size() && m'.kdir == m.kdir && m'.role == m.role[f := Loose]
    requires forall x :: 0 <= x < m.Size() && x != f ==> m'.words[x] == m.words[x]
    ensures SameFlat(m, m') && TreeOk(m')
  {
    forall k ensures At(m', k) == At(m, k) {
      if UserKey(m, k) && m.words[k.d][k.i].perm.p {
        assert SlotOk(m, k.d, k.i);
      }
    }
    forall a: nat, b | IsDir(m', a) && 0 <= b < 955 && m'.words[a][b].perm.p ensures SlotOk(m', a, b) {
      assert SlotOk(m, a, b);
    }
    forall x | 0 <= x < m.Size() && m'.role[x].Table? ensures ParentOk(m', x) {
      assert ParentOk(m, x);
    }
    forall x, j | UserTable(m', x) && 0 <= j < 1024 && m'.words[x][j].perm.p ensures EntryOk(m', m'.words[x][j]) {
      assert UserTable(m, x) && EntryOk(m, m.words[x][j]);
    }
  }

  lemma PageFreeKeeps(m: Mem, f: nat, held: int)
    requires Inv(m, held) && f < m.Size() && m.role[f] == Loose
    ensures var m' := PageFree(m, f);
      Inv(m', held) && SameFlat(m, m') && m'.free == [f] + m.free && m'.refs == m.refs && m'.words == m.words
  {
    var m' := PageFree(m, f);
    assert RefOk(m, f, held);
    RefsCarry(m, m', held);
    assert forall x :: 0 <= x < m.Size() ==> (x in m'.free <==> x == f || x in m.free);
    KernelHalfCarry(m, m');
  }

  // ---- pgdir_walk

  ghost function InstallTable(m: Mem, d: nat, i: nat, t: nat): (r: Mem)
    requires m.Shape() && d < m.Size() && t < m.Size() && i < NPDENTRIES
    ensures r.Shape()
  {
    SetWord(SetRole(SetRef(m, t, Bump(m.refs[t])), t, Table(d, i)), d, i, Word(t, PTE_PWU))
  }

  lemma InstallTableTree(m: Mem, d: nat, i: nat, t: nat)
    requires m.Shape() && TreeOk(m) && IsDir(m, d) && d != m.kdir && i < PDX_UTOP && !m.words[d][i].perm.p
    requires t < m.Size() && m.role[t] == Loose && forall j :: 0 <= j < 1024 ==> m.words[t][j] == ZERO
    ensures TreeOk(InstallTable(m, d, i, t))
  {
    var m' := InstallTable(m, d, i, t);
    forall a: nat, b | IsDir(m', a) && 0 <= b < 955 && m'.words[a][b].perm.p ensures SlotOk(m', a, b) {
      assert IsDir(m, a);
      if (a, b) != (d, i) { assert SlotOk(m, a, b); }
    }
    forall x | 0 <= x < m.Size() && m'.role[x].Table? ensures ParentOk(m', x) {
      if x != t { assert ParentOk(m, x); }
    }
    forall x, j | UserTable(m', x) && 0 <= j < 1024 && m'.words[x][j].perm.p ensures EntryOk(m', m'.words[x][j]) {
      if x != t { assert UserTable(m, x) && EntryOk(m, m.words[x][j]); }
    }
  }

  lemma InstallTableFlat(m: Mem, d: nat, i: nat, t: nat)
    requires m.Shape() && TreeOk(m) && IsDir(m, d) && i < PDX_UTOP && !m.words[d][i].perm.p
    requires t < m.Size() && m.role[t] == Loose && forall j :: 0 <= j < 1024 ==> m.words[t][j] == ZERO
    ensures SameFlat(m, InstallTable(m, d, i, t))
  {
    var m' := InstallTable(m, d, i, t);
    forall k ensures At(m', k) == At(m, k) {
      if UserKey(m, k) && (k.d, k.i) != (d, i) && m.words[k.d][k.i].perm.p {
        assert SlotOk(m, k.d, k.i);
      }
    }
  }

  lemma InstallTableKeeps(m: Mem, d: nat, i: nat, t: nat, held: int)
    requires Inv(m, held) && IsDir(m, d) && i < PDX_UTOP && !m.words[d][i].perm.p
    requires t < m.Size() && m.role[t] == Loose && forall j :: 0 <= j < 1024 ==> m.words[t][j] == ZERO
    ensures Inv(InstallTable(m, d, i, t), held) && SameFlat(m, InstallTable(m, d, i, t))
  {
    var m' := InstallTable(m, d, i, t);
    assert RefOk(m, t, held);
    InstallTableTree(m, d, i, t);
    InstallTableFlat(m, d, i, t);
    KernelHalfCarry(m, m');
    forall x | 0 <= x < m.Size() ensures RefOk(m', x, held) {
      assert RefOk(m, x, held);
      SameMappers(m, m', x);
    }
  }

  /** The walk never changes a translation, even when it takes a fresh table page. */
  lemma PgdirWalkKeeps(m: Mem, d: nat, i: nat, create: bool, held: int)
    requires Inv(m, held) && IsDir(m, d) && i < PDX_UTOP
    ensures var (m', t) := PgdirWalk(m, d, i, create);
      && Inv(m', held) && SameFlat(m, m') && Frame(m, m')
      && (t.None? <==> !m.words[d][i].perm.p && (!create || m.free == []))
      && (t.None? ==> m' == m)
      && (t.Some? ==> m'.role[t.value] == Table(d, i) && TableOf(m', d, i) == t)
      && (m.words[d][i].perm.p ==> m' == m)
      && (t.Some? && !m.words[d][i].perm.p ==>
            && m'.free == m.free[1..] && m.role[t.value] == Free
            && m'.role == m.role[t.value := Table(d, i)] && m'.refs == m.refs[t.value := 1])
      && (forall f :: 0 <= f < m.Size() && m.role[f] in {Data, Loose, Dir} ==>
          m'.role[f] == m.role[f] && m'.refs[f] == m.refs[f])
  {
    if m.words[d][i].perm.p {
      assert SlotOk(m, d, i);
    } else if create && m.free != [] {
      PageAllocKeeps(m, true, held);
      var (m1, page) := PageAlloc(m, true);
      InstallTableKeeps(m1, d, i, page.value, held);
    }
  }

  // ---- page_decref through page_remove

  /** pp_ref++ for a reference about to be stored. */
  ghost function Hold(m: Mem, f: nat): (r: Mem)
    requires m.Shape() && f < m.Size()
    ensures r.Shape()
  {
    SetRole(SetRef(m, f, Bump(m.refs[f])), f, Data)
  }

  lemma HoldTree(m: Mem, f: nat)
    requires m.Shape() && TreeOk(m) && KernelHalfOk(m) && f < m.Size() && m.role[f] in {Data, Loose}
    ensures TreeOk(Hold(m, f)) && KernelHalfOk(Hold(m, f)) && SameFlat(m, Hold(m, f))
  {
    var m' := Hold(m, f);
    forall x | 0 <= x < m.Size() && m'.role[x].Table? ensures ParentOk(m', x) {
      assert ParentOk(m, x);
    }
    KernelHalfCarry(m, m');
  }

  lemma HoldKeeps(m: Mem, f: nat)
    requires Inv(m, NO_PAGE) && f < m.Size() && m.role[f] in {Data, Loose} && m.refs[f] < 65535
    ensures Inv(Hold(m, f), f) && SameFlat(m, Hold(m, f))
  {
    var m' := Hold(m, f);
    if m.role[f] == Loose {
      LooseIsUnmapped(m, f, NO_PAGE);
    }
    HoldTree(m, f);
    forall x | 0 <= x < m.Size() ensures RefOk(m', x, f) {
      assert RefOk(m, x, NO_PAGE);
      SameMappers(m, m', x);
    }
  }

  lemma LooseIsUnmapped(m: Mem, f: nat, held: int)
    requires Inv(m, held) && f < m.Size() && m.role[f] != Data
    ensures Mappers(m, f) == {}
  {
    forall k ensures k !in Mappers(m, f) {
      InMappers(m, f, k);
      if Maps(m, k, f) { AtIsUnique(m, k, At(m, k).value); }
    }
  }

  /** Writing entry `j` of table `t` affects the translation of one key only. */
  lemma SetEntryFlat(m: Mem, m': Mem, k: Key, w: Word)
    requires m.Shape() && m'.Shape() && TreeOk(m) && UserKey(m, k) && TableOf(m, k.d, k.i).Some?
    requires m'.words == SetWord(m, TableOf(m, k.d, k.i).value, k.j, w).words && m'.Size() == m.Size()
    requires forall d: nat :: IsDir(m', d) <==> IsDir(m, d)
    requires w.perm.p ==> w.frame < m.Size()
    ensures SameFlatBut(m, m', k)
    ensures At(m', k) == if w.perm.p then Some(w) else None
    ensures forall d: nat :: IsDir(m, d) ==> m'.words[d] == m.words[d]
  {
    var t := TableOf(m, k.d, k.i).value;
    assert SlotOk(m, k.d, k.i);
    forall x | x != k ensures At(m', x) == At(m, x) {
      if UserKey(m, x) && m.words[x.d][x.i].perm.p {
        assert SlotOk(m, x.d, x.i);
      }
    }
  }

  /** Tables and directories stand where they stood; entry `j` of `t` holds `w`. */
  lemma SetEntryTree(m: Mem, m': Mem, k: Key, w: Word)
    requires m.Shape() && m'.Shape() && TreeOk(m) && UserKey(m, k) && TableOf(m, k.d, k.i).Some? && m'.kdir == m.kdir
    requires m'.words == SetWord(m, TableOf(m, k.d, k.i).value, k.j, w).words && m'.Size() == m.Size()
    requires !m.role[m.kdir].Table?
    requires forall f :: 0 <= f < m.Size() && m'.role[f] != m.role[f] ==> m.role[f] == Data && m'.role[f] == Free
    requires forall x, j :: UserTable(m, x) && 0 <= j < 1024 && m'.words[x][j].perm.p ==> EntryOk(m', m'.words[x][j])
    ensures TreeOk(m')
  {
    var t := TableOf(m, k.d, k.i).value;
    assert SlotOk(m, k.d, k.i);
    forall a: nat, b | IsDir(m', a) && 0 <= b < 955 && m'.words[a][b].perm.p ensures SlotOk(m', a, b) {
      assert IsDir(m, a) && a != t && SlotOk(m, a, b);
    }
    forall x | 0 <= x < m.Size() && m'.role[x].Table? ensures ParentOk(m', x) {
      assert ParentOk(m, x);
    }
  }

  /** The only reference to `f` is the one from `k`. */
  lemma LastMapper(m: Mem, k: Key, f: nat, held: int)
    requires Inv(m, held) && f < m.Size() && Maps(m, k, f) && m.refs[f] == 1
    ensures m.role[f] == Data && f != held
    ensures forall x :: Maps(m, x, f) ==> x == k
  {
    AtIsUnique(m, k, At(m, k).value);
    assert RefOk(m, f, held);
    InMappers(m, f, k);
    assert {k} <= Mappers(m, f);
    OneElement(Mappers(m, f), k);
    forall x | Maps(m, x, f) ensures x == k { InMappers(m, f, x); }
  }

  lemma OneElement(s: set<Key>, k: Key)
    requires k in s
    ensures |s| >= 1 && (|s| == 1 ==> s == {k})
  {
    assert s == (s - {k}) + {k};
  }

  lemma RemovedEntryStaysOk(m: Mem, m': Mem, k: Key, f: nat, held: int)
    requires Inv(m, held) && m'.Shape() && m'.Size() == m.Size() && f < m.Size()
    requires SameFlatBut(m, m', k) && Maps(m, k, f) && At(m', k) == None
    requires m.refs[f] > 0 && m'.refs == m.refs[f := m.refs[f] - 1]
    requires m'.role == if m.refs[f] == 1 then m.role[f := Free] else m.role
    ensures RefsOk(m', held)
  {
    AtIsUnique(m, k, At(m, k).value);
    FewerMappers(m, m', f, k);
    if m.refs[f] == 1 { LastMapper(m, k, f, held); }
    forall x | 0 <= x < m.Size() ensures RefOk(m', x, held) {
      assert RefOk(m, x, held);
      if x != f { SameMappers(m, m', x); }
    }
  }

  /** What page_remove does to the fields when `k` is mapped. */
  lemma PageRemoveEffect(m: Mem, k: Key, held: int)
    requires Inv(m, held) && At(m, k).Some?
    ensures TableOf(m, k.d, k.i).Some?
    ensures var m' := PageRemove(m, k.d, k.i, k.j); var f := At(m, k).value.frame;
      && f < m.Size() && m.role[f] == Data && m.refs[f] > 0
      && m'.refs == m.refs[f := m.refs[f] - 1]
      && (if m.refs[f] == 1 then m'.free == [f] + m.free && m'.role == m.role[f := Free]
          else m'.free == m.free && m'.role == m.role)
      && m'.words == SetWord(m, TableOf(m, k.d, k.i).value, k.j, ZERO).words
  {
    var f := At(m, k).value.frame;
    AtIsUnique(m, k, At(m, k).value);
    assert RefOk(m, f, held);
    InMappers(m, f, k);
  }

  /**
   page_remove deletes one key of the flat map, drops one reference of the page it
   mapped and frees that page exactly when the reference was its last.
   */
  lemma PageRemoveKeeps(m: Mem, k: Key, held: int)
    requires Inv(m, held) && UserKey(m, k)
    ensures var m' := PageRemove(m, k.d, k.i, k.j);
      && Inv(m', held) && SameFlatBut(m, m', k) && Frame(m, m') && At(m', k) == None
      && (At(m, k) == None ==> m' == m)
      && (At(m, k).Some? ==>
            var f := At(m, k).value.frame;
            && f < m.Size() && m.role[f] == Data && m.refs[f] > 0
            && m'.refs == m.refs[f := m.refs[f] - 1]
            && (if m.refs[f] == 1 then m'.free == [f] + m.free && m'.role == m.role[f := Free]
                else m'.free == m.free && m'.role == m.role)
            && m'.words == SetWord(m, TableOf(m, k.d, k.i).value, k.j, ZERO).words)
  {
    if At(m, k).Some? {
      PageRemoveEffect(m, k, held);
      RemovalKeepsInv(m, k, held);
    }
  }

  lemma RemovalKeepsInv(m: Mem, k: Key, held: int)
    requires Inv(m, held) && At(m, k).Some?
    ensures var m' := PageRemove(m, k.d, k.i, k.j);
      Inv(m', held) && SameFlatBut(m, m', k) && Frame(m, m') && At(m', k) == None
  {
    var f := At(m, k).value.frame;
    var m' := PageRemove(m, k.d, k.i, k.j);
    PageRemoveEffect(m, k, held);
    AtIsUnique(m, k, At(m, k).value);
    SetEntryFlat(m, m', k, ZERO);
    RemovedEntryStaysOk(m, m', k, f, held);
    if m.refs[f] == 1 { LastMapper(m, k, f, held); }
    RemoveTree(m, m', k, f);
    KernelHalfCarry(m, m');
    RemovedIsFree(m, m', f);
  }

  lemma RemovedIsFree(m: Mem, m': Mem, f: nat)
    requires m.Shape() && m'.Shape() && m'.Size() == m.Size() && FreeOk(m) && f < m.Size() && m.role[f] == Data
    requires (m'.free == [f] + m.free && m'.role == m.role[f := Free]) || (m'.free == m.free && m'.role == m.role)
    ensures FreeOk(m')
  {
    assert forall x :: 0 <= x < m.Size() ==> (x in ([f] + m.free) <==> x == f || x in m.free);
  }

  lemma RemoveTree(m: Mem, m': Mem, k: Key, f: nat)
    requires m.Shape() && m'.Shape() && TreeOk(m) && Maps(m, k, f) && m'.kdir == m.kdir && m'.Size() == m.Size()
    requires f < m.Size() && m.role[f] == Data && !m.role[m.kdir].Table?
    requires m'.words == SetWord(m, TableOf(m, k.d, k.i).value, k.j, ZERO).words
    requires m'.role == m.role || (m'.role == m.role[f := Free] && forall x :: Maps(m, x, f) ==> x == k)
    ensures TreeOk(m')
  {
    forall x, j | UserTable(m, x) && 0 <= j < 1024 && m'.words[x][j].perm.p ensures EntryOk(m', m'.words[x][j]) {
      var r := m.role[x];
      assert ParentOk(m, x) && EntryOk(m, m.words[x][j]);
      var key := Key(r.dir, r.pdx, j);
      assert At(m, key) == Some(m.words[x][j]);
      if m'.words[x][j].frame == f { assert Maps(m, key, f); }
    }
    SetEntryTree(m, m', k, ZERO);
  }

  // ---- page_insert

  /** The held reference to `pp` becomes entry `k`, which was not present. */
  lemma StoreKeeps(m: Mem, k: Key, pp: nat, perm: Perm)
    requires Inv(m, pp) && UserKey(m, k) && TableOf(m, k.d, k.i).Some? && At(m, k) == None
    requires pp < m.Size() && m.role[pp] == Data && perm.p
    ensures var m' := SetWord(m, TableOf(m, k.d, k.i).value, k.j, Word(pp, perm));
      Inv(m', NO_PAGE) && SameFlatBut(m, m', k) && At(m', k) == Some(Word(pp, perm))
  {
    var t := TableOf(m, k.d, k.i).value;
    var m' := SetWord(m, t, k.j, Word(pp, perm));
    assert SlotOk(m, k.d, k.i);
    SetEntryFlat(m, m', k, Word(pp, perm));
    forall x, j | UserTable(m, x) && 0 <= j < 1024 && m'.words[x][j].perm.p ensures EntryOk(m', m'.words[x][j]) {
      if (x, j) != (t, k.j) { assert EntryOk(m, m.words[x][j]); }
    }
    SetEntryTree(m, m', k, Word(pp, perm));
    KernelHalfCarry(m, m');
    MoreMappers(m, m', pp, k);
    forall x | 0 <= x < m.Size() ensures RefOk(m', x, NO_PAGE) {
      assert RefOk(m, x, pp);
      if x != pp { SameMappers(m, m', x); }
    }
  }

  /** What page_insert did to the free list: a table page taken, an old page given back. */
  ghost function FreeAfterInsert(m: Mem, k: Key, pp: nat): (free: seq<nat>)
    requires m.Shape() && UserKey(m, k)
  {
    var rest := if m.words[k.d][k.i].perm.p || m.free == [] then m.free else m.free[1..];
    match At(m, k)
    case None => rest
    case Some(w) => if w.frame != pp && w.frame < m.Size() && m.refs[w.frame] == 1 then [w.frame] + rest else rest
  }

  /** ReplaceEntry up to its final store: `pp` is held and the slot is empty. */
  ghost function Vacate(m: Mem, k: Key, pp: nat): (r: Mem)
    requires m.Shape() && UserKey(m, k) && pp < m.Size()
    ensures r.Shape() && r.Size() == m.Size() && r.kdir == m.kdir
  {
    PageRemove(Hold(m, pp), k.d, k.i, k.j)
  }

  ghost function FreeAfterVacate(m: Mem, k: Key, pp: nat): (free: seq<nat>)
    requires m.Shape() && UserKey(m, k)
  {
    match At(m, k)
    case None => m.free
    case Some(w) => if w.frame != pp && w.frame < m.Size() && m.refs[w.frame] == 1 then [w.frame] + m.free else m.free
  }

  lemma VacateKeeps(m: Mem, k: Key, pp: nat)
    requires Inv(m, NO_PAGE) && UserKey(m, k) && TableOf(m, k.d, k.i).Some?
    requires pp < m.Size() && m.role[pp] in {Data, Loose} && m.refs[pp] < 65535
    ensures var m3 := Vacate(m, k, pp);
      && Inv(m3, pp) && SameFlatBut(m, m3, k) && Frame(m, m3) && At(m3, k) == None
      && m3.role[pp] == Data && m3.free == FreeAfterVacate(m, k, pp)
      && TableOf(m3, k.d, k.i) == TableOf(m, k.d, k.i)
  {
    VacateInv(m, k, pp);
    VacateFree(m, k, pp);
    VacateTable(m, k, pp);
  }

  lemma VacateInv(m: Mem, k: Key, pp: nat)
    requires Inv(m, NO_PAGE) && UserKey(m, k) && TableOf(m, k.d, k.i).Some?
    requires pp < m.Size() && m.role[pp] in {Data, Loose} && m.refs[pp] < 65535
    ensures var m3 := Vacate(m, k, pp); Inv(m3, pp) && SameFlatBut(m, m3, k) && Frame(m, m3) && At(m3, k) == None
  {
    var m2, m3 := Hold(m, pp), Vacate(m, k, pp);
    HoldKeeps(m, pp);
    assert At(m2, k) == At(m, k);
    HoldFrame(m, pp);
    if At(m, k).Some? {
      RemovalKeepsInv(m2, k, pp);
      FrameTrans(m, m2, m3, k);
    }
  }

  lemma HoldFrame(m: Mem, f: nat)
    requires m.Shape() && f < m.Size() && m.role[f] in {Data, Loose}
    ensures Frame(m, Hold(m, f)) && forall x :: 0 <= x < m.Size() && m.role[x] in {Data, Loose} ==>
      Hold(m, f).role[x] in {Data, Loose}
  {
  }

  lemma FrameTrans(a: Mem, b: Mem, c: Mem, k: Key)
    requires a.Shape() && b.Shape() && c.Shape() && SameFlat(a, b) && Frame(a, b) && SameFlatBut(b, c, k) && Frame(b, c)
    requires forall x :: 0 <= x < a.Size() && a.role[x] in {Data, Loose} ==> b.role[x] in {Data, Loose}
    ensures SameFlatBut(a, c, k) && Frame(a, c)
  {
  }

  lemma VacateTable(m: Mem, k: Key, pp: nat)
    requires Inv(m, NO_PAGE) && UserKey(m, k) && TableOf(m, k.d, k.i).Some?
    requires pp < m.Size() && m.role[pp] in {Data, Loose} && m.refs[pp] < 65535
    ensures TableOf(Vacate(m, k, pp), k.d, k.i) == TableOf(m, k.d, k.i)
  {
    assert SlotOk(m, k.d, k.i);
  }

  /** What the removal frees: never `pp`, which is held. */
  lemma VacateFree(m: Mem, k: Key, pp: nat)
    requires Inv(m, NO_PAGE) && UserKey(m, k) && TableOf(m, k.d, k.i).Some?
    requires pp < m.Size() && m.role[pp] in {Data, Loose} && m.refs[pp] < 65535
    ensures Vacate(m, k, pp).role[pp] == Data && Vacate(m, k, pp).free == FreeAfterVacate(m, k, pp)
  {
    HoldKeeps(m, pp);
    assert At(Hold(m, pp), k) == At(m, k);
    if At(m, k).Some? {
      PageRemoveEffect(Hold(m, pp), k, pp);
      AtIsUnique(m, k, At(m, k).value);
      HeldHasTwo(m, k, pp);
    }
  }

  /** If `k` maps `pp`, the held reference is one more. */
  lemma HeldHasTwo(m: Mem, k: Key, pp: nat)
    requires Inv(m, NO_PAGE) && pp < m.Size() && m.refs[pp] < 65535
    ensures Maps(m, k, pp) ==> Hold(m, pp).refs[pp] >= 2
  {
    if Maps(m, k, pp) {
      AtIsUnique(m, k, At(m, k).value);
      assert RefOk(m, pp, NO_PAGE);
    }
  }

  lemma ReplaceIsVacateAndStore(m: Mem, k: Key, pp: nat, perm: Perm)
    requires Inv(m, NO_PAGE) && UserKey(m, k) && TableOf(m, k.d, k.i).Some?
    requires pp < m.Size() && m.role[pp] in {Data, Loose} && perm.other < PGSIZE
    ensures var t := TableOf(m, k.d, k.i).value;
      ReplaceEntry(m, k.d, t, pp, k.i, k.j, perm) == SetWord(Vacate(m, k, pp), t, k.j, Word(pp, perm.(p := true)))
  {
    var t := TableOf(m, k.d, k.i).value;
    assert SlotOk(m, k.d, k.i) && UserTable(m, t);
    if m.words[t][k.j].perm.p {
      assert EntryOk(m, m.words[t][k.j]);
    } else {
      assert PageLookup(Hold(m, pp), k.d, k.i, k.j) == None;
    }
  }

  lemma ReplaceEntryKeeps(m: Mem, k: Key, pp: nat, perm: Perm)
    requires Inv(m, NO_PAGE) && UserKey(m, k) && TableOf(m, k.d, k.i).Some?
    requires pp < m.Size() && m.role[pp] in {Data, Loose} && m.refs[pp] < 65535 && perm.other < PGSIZE
    ensures var m' := ReplaceEntry(m, k.d, TableOf(m, k.d, k.i).value, pp, k.i, k.j, perm);
      && Inv(m', NO_PAGE) && SameFlatBut(m, m', k) && Frame(m, m') && At(m', k) == Some(Word(pp, perm.(p := true)))
      && m'.role[pp] == Data && m'.free == FreeAfterVacate(m, k, pp)
  {
    VacateKeeps(m, k, pp);
    ReplaceIsVacateAndStore(m, k, pp, perm);
    StoreKeeps(Vacate(m, k, pp), k, pp, perm.(p := true));
    assert SlotOk(m, k.d, k.i);
  }

  /**
   page_insert fails exactly when it needs a table and no page is free, and then
   changes nothing. Otherwise it sets one key of one directory and preserves every
   other translation in every directory, with all counts exact again.
   */
  lemma PageInsertKeeps(m: Mem, k: Key, pp: nat, perm: Perm)
    requires Inv(m, NO_PAGE) && UserKey(m, k)
    requires pp < m.Size() && m.role[pp] in {Data, Loose} && m.refs[pp] < 65535 && perm.other < PGSIZE
    ensures var (m', ok) := PageInsert(m, k.d, pp, k.i, k.j, perm);
      && (!ok <==> !m.words[k.d][k.i].perm.p && m.free == [])
      && (!ok ==> m' == m)
      && (ok ==> Inv(m', NO_PAGE) && SameFlatBut(m, m', k) && Frame(m, m')
                 && At(m', k) == Some(Word(pp, perm.(p := true)))
                 && m'.free == FreeAfterInsert(m, k, pp) && m'.role[pp] == Data)
  {
    var (m1, table) := PgdirWalk(m, k.d, k.i, true);
    PgdirWalkKeeps(m, k.d, k.i, true, NO_PAGE);
    if table.Some? {
      ReplaceEntryKeeps(m1, k, pp, perm);
      FreeAfterWalk(m, k, pp);
    }
  }

  /** The free list after the walk and the replacement, in terms of the one before. */
  lemma FreeAfterWalk(m: Mem, k: Key, pp: nat)
    requires Inv(m, NO_PAGE) && UserKey(m, k) && PgdirWalk(m, k.d, k.i, true).1.Some?
    ensures UserKey(PgdirWalk(m, k.d, k.i, true).0, k)
    ensures FreeAfterVacate(PgdirWalk(m, k.d, k.i, true).0, k, pp) == FreeAfterInsert(m, k, pp)
  {
    PgdirWalkKeeps(m, k.d, k.i, true, NO_PAGE);
    assert At(PgdirWalk(m, k.d, k.i, true).0, k) == At(m, k);
    if At(m, k).Some? { AtIsUnique(m, k, At(m, k).value); }
  }

  /** On the way from `m` to `m'` no page has become loose, and `pp` is not. */
  ghost predicate NoNewLoose(m: Mem, m': Mem, pp: int) {
    |m'.role| == |m.role| && forall f :: 0 <= f < |m.role| && m'.role[f] == Loose ==> m.role[f] == Loose && f != pp
  }

  /** page_insert gives every page it takes from the free list its use. */
  lemma PageInsertRoles(m: Mem, d: nat, pp: nat, i: nat, j: nat, perm: Perm)
    requires m.Shape() && d < m.Size() && pp < m.Size() && i < NPDENTRIES && j < NPTENTRIES
    ensures PageInsert(m, d, pp, i, j, perm).1 ==> NoNewLoose(m, PageInsert(m, d, pp, i, j, perm).0, pp)
  {
    var (m1, table) := PgdirWalk(m, d, i, true);
    if table.Some? { ReplaceRoles(m1, d, table.value, pp, i, j, perm); }
  }

  lemma ReplaceRoles(m: Mem, d: nat, t: nat, pp: nat, i: nat, j: nat, perm: Perm)
    requires m.Shape() && d < m.Size() && t < m.Size() && pp < m.Size() && i < NPDENTRIES && j < NPTENTRIES
    ensures NoNewLoose(m, ReplaceEntry(m, d, t, pp, i, j, perm), pp)
  {
    RemoveRoles(Hold(m, pp), d, i, j);
  }

  lemma RemoveRoles(m: Mem, d: nat, i: nat, j: nat)
    requires m.Shape() && d < m.Size() && i < NPDENTRIES && j < NPTENTRIES
    ensures NoNewLoose(m, PageRemove(m, d, i, j), -1)
    ensures forall f :: 0 <= f < m.Size() && PageRemove(m, d, i, j).role[f] != m.role[f] ==>
      PageRemove(m, d, i, j).role[f] == Free
  {
  }

  /** Re-inserting a page where it already is leaves its count alone and never frees it. */
  lemma ReinsertKeepsCount(m: Mem, k: Key, perm: Perm)
    requires Inv(m, NO_PAGE) && At(m, k).Some? && perm.other < PGSIZE
    requires m.refs[At(m, k).value.frame] < 65535
    ensures var pp := At(m, k).value.frame; var (m', ok) := PageInsert(m, k.d, pp, k.i, k.j, perm);
      && ok && m'.refs[pp] == m.refs[pp] && m'.role[pp] == Data && m'.free == m.free
      && At(m', k) == Some(Word(pp, perm.(p := true)))
  {
    var pp := At(m, k).value.frame;
    var (m', ok) := PageInsert(m, k.d, pp, k.i, k.j, perm);
    AtIsUnique(m, k, At(m, k).value);
    PageInsertKeeps(m, k, pp, perm);
    SameMappers(m, m', pp);
    assert RefOk(m, pp, NO_PAGE) && RefOk(m', pp, NO_PAGE);
  }
}
