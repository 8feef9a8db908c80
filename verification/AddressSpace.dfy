/**
 Building and tearing down a whole address space: env_setup_vm and the page half of
 env_free (kern/env.c).
 */
module AddressSpace {
  import opened Layout
  import opened PageState
  import opened PageInv

  /** env_setup_vm: a zeroed user half under a copy of kern_pgdir's upper half. */
  function EnvSetupVm(m: Mem): (r: (Mem, Option<nat>))
    requires m.Shape()
    ensures r.0.Shape() && r.0.Size() == m.Size() && r.0.kdir == m.kdir
    ensures r.1.Some? ==> r.1.value < m.Size()
  {
    var (m1, page) := PageAlloc(m, true);
    if page.None? then (m1, None)
    else
      var d := page.value;
      var m2 := SetRole(SetRef(m1, d, Bump(m1.refs[d])), d, Dir);
      (m2.(words := m2.words[d := NewDirPage(m1, d)]), Some(d))
  }

  function NewDirPage(m: Mem, d: nat): (page: seq<Word>)
    requires m.Shape()
    ensures |page| == NPDENTRIES
  {
    seq(1024, i requires 0 <= i < 1024 =>
      if i < 955 then ZERO else if i == 957 then Word(d, PTE_PU) else m.words[m.kdir][i])
  }

  /**
   Unmap every entry from `j` up of the table in slot `i`. The measure names `m` so that the
   verifier does not unfold a call at a literal `j` a thousand times.
   */
  function FreeTable(m: Mem, d: nat, i: nat, j: nat): (r: Mem)
    requires m.Shape() && d < m.Size() && i < PDX_UTOP && j <= NPTENTRIES
    ensures r.Shape() && r.Size() == m.Size() && r.kdir == m.kdir
    decreases NPTENTRIES - j, m
  {
    if j == NPTENTRIES then m
    else FreeTable(PageRemove(m, d, i, j), d, i, j + 1)
  }

  /** Clear slot `i` and drop the reference to the table it held. */
  function DropTable(m: Mem, d: nat, i: nat): (r: Mem)
    requires m.Shape() && d < m.Size() && i < PDX_UTOP
    ensures r.Shape() && r.Size() == m.Size() && r.kdir == m.kdir
  {
    var t := TableOf(m, d, i);
    var m1 := SetWord(m, d, i, ZERO);
    if t.None? then m1 else PageDecref(m1, t.value)
  }

  function FreeTables(m: Mem, d: nat, i: nat): (r: Mem)
    requires m.Shape() && d < m.Size() && i <= PDX_UTOP
    ensures r.Shape() && r.Size() == m.Size() && r.kdir == m.kdir
    decreases PDX_UTOP - i, m
  {
    if i == PDX_UTOP then m
    else if !m.words[d][i].perm.p then FreeTables(m, d, i + 1)
    else FreeTables(DropTable(FreeTable(m, d, i, 0), d, i), d, i + 1)
  }

  /** The page half of env_free. */
  function FreeSpace(m: Mem, d: nat): (r: Mem)
    requires m.Shape() && d < m.Size()
    ensures r.Shape() && r.Size() == m.Size() && r.kdir == m.kdir
  {
    PageDecref(FreeTables(m, d, 0), d)
  }

  // ---- env_setup_vm

  /** A new space is empty; it fails exactly when no page is free, and then changes nothing. */
  lemma EnvSetupVmKeeps(m: Mem)
    requires Inv(m, NO_PAGE)
    ensures var (m', dir) := EnvSetupVm(m);
      && Inv(m', NO_PAGE) && SameFlat(m, m')
      && (dir.None? <==> m.free == []) && (dir.None? ==> m' == m)
      && (dir.Some? ==>
            && m.role[dir.value] == Free && m'.free == m.free[1..] && m'.role == m.role[dir.value := Dir]
            && (forall d: nat :: IsDir(m', d) <==> d == dir.value || IsDir(m, d))
            && (forall i, j :: At(m', Key(dir.value, i, j)) == None)
            && (forall f :: 0 <= f < m.Size() && m.role[f] in {Data, Loose} ==> m'.words[f] == m.words[f]))
  {
    PageAllocKeeps(m, true, NO_PAGE);
    var (m1, page) := PageAlloc(m, true);
    if page.Some? {
      var d := page.value;
      var m' := EnvSetupVm(m).0;
      NewDirFlat(m1, m', d);
      NewDirTree(m1, m', d);
      NewDirKernelHalf(m1, m', d);
      forall x | 0 <= x < m.Size() ensures RefOk(m', x, NO_PAGE) {
        assert RefOk(m1, x, NO_PAGE);
        SameMappers(m1, m', x);
      }
    }
  }

  /** The new directory maps nothing, and nothing else has moved. */
  lemma NewDirFlat(m: Mem, m': Mem, d: nat)
    requires m.Shape() && m'.Shape() && TreeOk(m) && d < m.Size() && m.role[d] == Loose && d != m.kdir
    requires m' == SetRole(SetRef(m, d, 1), d, Dir).(words := m.words[d := NewDirPage(m, d)])
    ensures SameFlat(m, m') && forall i, j :: At(m', Key(d, i, j)) == None
  {
    assert forall i :: 0 <= i < 955 ==> m'.words[d][i] == ZERO;
    forall k ensures At(m', k) == At(m, k) {
      if UserKey(m, k) && m.words[k.d][k.i].perm.p {
        assert SlotOk(m, k.d, k.i);
      }
    }
  }

  lemma NewDirTree(m: Mem, m': Mem, d: nat)
    requires m.Shape() && m'.Shape() && TreeOk(m) && d < m.Size() && m.role[d] == Loose && d != m.kdir
    requires m' == SetRole(SetRef(m, d, 1), d, Dir).(words := m.words[d := NewDirPage(m, d)])
    ensures TreeOk(m')
  {
    forall a: nat, b | IsDir(m', a) && 0 <= b < 955 && m'.words[a][b].perm.p ensures SlotOk(m', a, b) {
      assert SlotOk(m, a, b);
    }
    forall x | 0 <= x < m.Size() && m'.role[x].Table? ensures ParentOk(m', x) {
      assert ParentOk(m, x);
    }
    forall x, j | UserTable(m', x) && 0 <= j < 1024 && m'.words[x][j].perm.p ensures EntryOk(m', m'.words[x][j]) {
      assert UserTable(m, x) && EntryOk(m, m.words[x][j]);
    }
  }

  lemma NewDirKernelHalf(m: Mem, m': Mem, d: nat)
    requires m.Shape() && m'.Shape() && KernelHalfOk(m) && d < m.Size() && m.role[d] == Loose
    requires m' == SetRole(SetRef(m, d, 1), d, Dir).(words := m.words[d := NewDirPage(m, d)])
    ensures KernelHalfOk(m')
  {
    forall i | 955 <= i < 1024 ensures KernelSlotOk(m', i) {
      assert KernelSlotOk(m, i);
    }
    forall a: nat, i | IsDir(m', a) && 955 <= i < 1024 ensures UpperOk(m', a, i) {
      if a != d { assert UpperOk(m, a, i); }
    }
  }

  // ---- env_free

  /** Pages only moved to the free list, and only pages that space `d` could have kept alive. */
  ghost predicate OnlyFreed(m: Mem, m': Mem, d: nat)
    requires m.Shape() && m'.Shape()
  {
    && m'.Size() == m.Size() && m'.kdir == m.kdir
    && forall x :: 0 <= x < m.Size() ==> RoleFreed(m, m', d, x)
  }

  ghost predicate RoleFreed(m: Mem, m': Mem, d: nat, x: nat)
    requires m.Shape() && m'.Shape() && m'.Size() == m.Size() && x < m.Size()
  {
    || m'.role[x] == m.role[x]
    || (m'.role[x] == Free && (x == d || m.role[x] == Data || (m.role[x].Table? && m.role[x].dir == d)))
  }

  lemma OnlyFreedTrans(a: Mem, b: Mem, c: Mem, d: nat)
    requires a.Shape() && b.Shape() && c.Shape() && OnlyFreed(a, b, d) && OnlyFreed(b, c, d)
    ensures OnlyFreed(a, c, d)
  {
    forall x | 0 <= x < a.Size() ensures RoleFreed(a, c, d, x) {
      assert RoleFreed(a, b, d, x) && RoleFreed(b, c, d, x);
    }
  }

  /** Every key of slot `i` from entry `j` up is unmapped, nothing else moves. */
  lemma {:induction false} FreeTableKeeps(m: Mem, d: nat, i: nat, j: nat)
    requires Inv(m, NO_PAGE) && IsDir(m, d) && i < PDX_UTOP && j <= NPTENTRIES
    ensures var m' := FreeTable(m, d, i, j);
      && Inv(m', NO_PAGE) && OnlyFreed(m, m', d) && m'.words[d] == m.words[d] && IsDir(m', d)
      && (forall k :: At(m', k) == if k.d == d && k.i == i && k.j >= j then None else At(m, k))
    decreases NPTENTRIES - j
  {
    if j < NPTENTRIES {
      var m1 := PageRemove(m, d, i, j);
      FreeEntryKeeps(m, d, i, j);
      FreeTableKeeps(m1, d, i, j + 1);
      assert FreeTable(m, d, i, j) == FreeTable(m1, d, i, j + 1);
      OnlyFreedTrans(m, m1, FreeTable(m1, d, i, j + 1), d);
    }
  }

  /** One turn of the inner loop. */
  lemma FreeEntryKeeps(m: Mem, d: nat, i: nat, j: nat)
    requires Inv(m, NO_PAGE) && IsDir(m, d) && i < PDX_UTOP && j < NPTENTRIES
    ensures var m1 := PageRemove(m, d, i, j);
      && Inv(m1, NO_PAGE) && OnlyFreed(m, m1, d) && m1.words[d] == m.words[d] && IsDir(m1, d)
      && (forall k :: At(m1, k) == if k == Key(d, i, j) then None else At(m, k))
  {
    var k := Key(d, i, j);
    PageRemoveKeeps(m, k, NO_PAGE);
    if At(m, k).Some? { AtIsUnique(m, k, At(m, k).value); }
  }

  /** A directory or table whose one reference is dropped. */
  lemma FreedCounts(m: Mem, m': Mem, x: nat)
    requires Inv(m, NO_PAGE) && m'.Shape() && m'.Size() == m.Size() && x < m.Size() && SameFlat(m, m')
    requires m.role[x] == Dir || m.role[x].Table?
    requires m'.role == m.role[x := Free] && m'.free == [x] + m.free && m'.refs == m.refs[x := 0]
    ensures FreeOk(m') && RefsOk(m', NO_PAGE)
  {
    assert RefOk(m, x, NO_PAGE);
    assert forall y :: 0 <= y < m.Size() ==> (y in m'.free <==> y == x || y in m.free);
    forall y | 0 <= y < m.Size() ensures RefOk(m', y, NO_PAGE) {
      assert RefOk(m, y, NO_PAGE);
      SameMappers(m, m', y);
    }
  }

  lemma DropTableTree(m: Mem, d: nat, i: nat, t: nat)
    requires m.Shape() && TreeOk(m) && IsDir(m, d) && i < PDX_UTOP && t < m.Size() && m.role[t] == Table(d, i)
    requires m.words[d][i].perm.p && m.words[d][i].frame == t
    ensures TreeOk(SetRole(SetWord(m, d, i, ZERO), t, Free))
  {
    var m' := SetRole(SetWord(m, d, i, ZERO), t, Free);
    forall a: nat, b | IsDir(m', a) && 0 <= b < 955 && m'.words[a][b].perm.p ensures SlotOk(m', a, b) {
      assert IsDir(m, a) && SlotOk(m, a, b);
    }
    forall x | 0 <= x < m.Size() && m'.role[x].Table? ensures ParentOk(m', x) {
      assert ParentOk(m, x);
    }
    forall x, j | UserTable(m', x) && 0 <= j < 1024 && m'.words[x][j].perm.p ensures EntryOk(m', m'.words[x][j]) {
      assert UserTable(m, x) && EntryOk(m, m.words[x][j]);
    }
  }

  lemma DropTableFlat(m: Mem, m': Mem, d: nat, i: nat, t: nat)
    requires m.Shape() && m'.Shape() && TreeOk(m) && IsDir(m, d)
    requires i < PDX_UTOP && t < m.Size() && m.role[t] == Table(d, i)
    requires m'.words == SetWord(m, d, i, ZERO).words && m'.role == m.role[t := Free] && m'.Size() == m.Size()
    requires forall j :: At(m, Key(d, i, j)) == None
    ensures SameFlat(m, m')
  {
    forall k ensures At(m', k) == At(m, k) {
      DropTableAt(m, m', d, i, t, k);
    }
  }

  lemma DropTableAt(m: Mem, m': Mem, d: nat, i: nat, t: nat, k: Key)
    requires m.Shape() && m'.Shape() && TreeOk(m) && IsDir(m, d)
    requires i < PDX_UTOP && t < m.Size() && m.role[t] == Table(d, i)
    requires m'.words == SetWord(m, d, i, ZERO).words && m'.role == m.role[t := Free] && m'.Size() == m.Size()
    requires At(m, Key(d, i, k.j)) == None
    ensures At(m', k) == At(m, k)
  {
    if UserKey(m, k) {
      if k.d == d && k.i == i {
        assert k == Key(d, i, k.j);
      } else if m.words[k.d][k.i].perm.p {
        assert SlotOk(m, k.d, k.i);
      }
    }
  }

  /** An emptied table goes back to the free list when its slot is cleared. */
  lemma DropTableKeeps(m: Mem, d: nat, i: nat)
    requires Inv(m, NO_PAGE) && IsDir(m, d) && i < PDX_UTOP && m.words[d][i].perm.p
    requires forall j :: At(m, Key(d, i, j)) == None
    ensures var m' := DropTable(m, d, i);
      && Inv(m', NO_PAGE) && OnlyFreed(m, m', d) && SameFlat(m, m') && IsDir(m', d)
      && m'.words[d] == m.words[d][i := ZERO]
      && m'.free == [m.words[d][i].frame] + m.free
  {
    assert SlotOk(m, d, i);
    var t := m.words[d][i].frame;
    var m' := DropTable(m, d, i);
    assert RefOk(m, t, NO_PAGE);
    DropTableTree(m, d, i, t);
    DropTableFlat(m, m', d, i, t);
    KernelHalfCarry(m, m');
    FreedCounts(m, m', t);
  }

  lemma FreeSlotKeeps(m: Mem, d: nat, i: nat)
    requires Inv(m, NO_PAGE) && IsDir(m, d) && i < PDX_UTOP && m.words[d][i].perm.p
    ensures var m' := DropTable(FreeTable(m, d, i, 0), d, i);
      && Inv(m', NO_PAGE) && OnlyFreed(m, m', d) && IsDir(m', d)
      && m'.words[d] == m.words[d][i := ZERO]
      && (forall k :: At(m', k) == if k.d == d && k.i == i then None else At(m, k))
  {
    var m1 := FreeTable(m, d, i, 0);
    FreeTableKeeps(m, d, i, 0);
    DropTableKeeps(m1, d, i);
    OnlyFreedTrans(m, m1, DropTable(m1, d, i), d);
  }

  /** Everything space `d` maps from slot `i` up is gone, in the flat map and in the directory. */
  ghost predicate Cleared(m: Mem, m': Mem, d: nat, i: nat)
    requires m.Shape() && m'.Shape()
  {
    && OnlyFreed(m, m', d) && IsDir(m', d)
    && (forall b :: i <= b < 955 ==> !m'.words[d][b].perm.p)
    && (forall k :: At(m', k) == if k.d == d && k.i >= i then None else At(m, k))
  }

  lemma ClearedStep(m: Mem, m1: Mem, m2: Mem, d: nat, i: nat)
    requires m.Shape() && m1.Shape() && m2.Shape() && i < PDX_UTOP
    requires OnlyFreed(m, m1, d) && forall k :: At(m1, k) == if k.d == d && k.i == i then None else At(m, k)
    requires Cleared(m1, m2, d, i + 1) && !m2.words[d][i].perm.p
    ensures Cleared(m, m2, d, i)
  {
    OnlyFreedTrans(m, m1, m2, d);
  }

  /** What one turn of env_free's outer loop leaves behind. */
  ghost function FreeSlot(m: Mem, d: nat, i: nat): (r: Mem)
    requires m.Shape() && d < m.Size() && i < PDX_UTOP
    ensures r.Shape() && r.Size() == m.Size()
  {
    if m.words[d][i].perm.p then DropTable(FreeTable(m, d, i, 0), d, i) else m
  }

  lemma FreeSlotStep(m: Mem, d: nat, i: nat)
    requires Inv(m, NO_PAGE) && IsDir(m, d) && i < PDX_UTOP
    ensures var m1 := FreeSlot(m, d, i);
      && Inv(m1, NO_PAGE) && OnlyFreed(m, m1, d) && IsDir(m1, d)
      && !m1.words[d][i].perm.p && (forall b :: 0 <= b < 1024 && b != i ==> m1.words[d][b] == m.words[d][b])
      && (forall k :: At(m1, k) == if k.d == d && k.i == i then None else At(m, k))
  {
    if m.words[d][i].perm.p { FreeSlotKeeps(m, d, i); }
  }

  lemma {:induction false} FreeTablesKeeps(m: Mem, d: nat, i: nat)
    requires Inv(m, NO_PAGE) && IsDir(m, d) && i <= PDX_UTOP
    ensures Inv(FreeTables(m, d, i), NO_PAGE)
    ensures Cleared(m, FreeTables(m, d, i), d, i)
    ensures forall b :: 0 <= b < i ==> FreeTables(m, d, i).words[d][b] == m.words[d][b]
    decreases PDX_UTOP - i
  {
    if i < PDX_UTOP {
      var m1 := FreeSlot(m, d, i);
      FreeSlotStep(m, d, i);
      FreeTablesKeeps(m1, d, i + 1);
      var m2 := FreeTables(m1, d, i + 1);
      FreeTablesUnfold(m, d, i);
      assert m2.words[d][i] == m1.words[d][i];
      ClearedStep(m, m1, m2, d, i);
    }
  }

  lemma FreeTablesUnfold(m: Mem, d: nat, i: nat)
    requires m.Shape() && d < m.Size() && i < PDX_UTOP
    ensures FreeTables(m, d, i) == FreeTables(FreeSlot(m, d, i), d, i + 1)
  {
  }

  /** The directory of an emptied space goes back to the free list. */
  lemma DropDirTree(m: Mem, m': Mem, d: nat)
    requires m.Shape() && m'.Shape() && TreeOk(m) && IsDir(m, d) && m'.Size() == m.Size() && m'.kdir == m.kdir
    requires forall b :: 0 <= b < 955 ==> !m.words[d][b].perm.p
    requires m'.words == m.words && m'.role == m.role[d := Free]
    ensures TreeOk(m')
  {
    forall a: nat, b | IsDir(m', a) && 0 <= b < 955 && m'.words[a][b].perm.p ensures SlotOk(m', a, b) {
      assert IsDir(m, a) && SlotOk(m, a, b);
    }
    forall x | 0 <= x < m.Size() && m'.role[x].Table? ensures ParentOk(m', x) {
      assert ParentOk(m, x);
    }
    forall x, j | UserTable(m', x) && 0 <= j < 1024 && m'.words[x][j].perm.p ensures EntryOk(m', m'.words[x][j]) {
      assert UserTable(m, x) && EntryOk(m, m.words[x][j]);
    }
  }

  lemma DropDirKeeps(m: Mem, d: nat)
    requires Inv(m, NO_PAGE) && IsDir(m, d) && forall b :: 0 <= b < 955 ==> !m.words[d][b].perm.p
    ensures var m' := PageDecref(m, d);
      && Inv(m', NO_PAGE) && OnlyFreed(m, m', d) && SameFlat(m, m')
      && m'.role == m.role[d := Free] && m'.free == [d] + m.free
  {
    var m' := PageDecref(m, d);
    assert RefOk(m, d, NO_PAGE);
    DropDirTree(m, m', d);
    KernelHalfCarry(m, m');
    FreedCounts(m, m', d);
  }

  /** After env_free the space is gone and every other translation is as it was. */
  lemma FreeSpaceKeeps(m: Mem, d: nat)
    requires Inv(m, NO_PAGE) && IsDir(m, d)
    ensures var m' := FreeSpace(m, d);
      && Inv(m', NO_PAGE) && OnlyFreed(m, m', d)
      && (forall x: nat :: IsDir(m', x) <==> IsDir(m, x) && x != d)
      && (forall k :: At(m', k) == if k.d == d then None else At(m, k))
  {
    var m1 := FreeTables(m, d, 0);
    FreeTablesKeeps(m, d, 0);
    DropDirKeeps(m1, d);
    OnlyFreedTrans(m, m1, FreeSpace(m, d), d);
    forall x: nat ensures IsDir(FreeSpace(m, d), x) <==> IsDir(m, x) && x != d {
      if x < m.Size() { assert RoleFreed(m, m1, d, x); }
    }
  }

  /** The mappings of `f` that belong to space `d`, and the ones that do not. */
  ghost function OwnMappers(m: Mem, f: nat, d: nat): set<Key>
    requires m.Shape()
  {
    set k | k in Mappers(m, f) && k.d == d
  }

  lemma FreeSpaceMappers(m: Mem, d: nat, f: nat)
    requires Inv(m, NO_PAGE) && IsDir(m, d)
    ensures Mappers(FreeSpace(m, d), f) == Mappers(m, f) - OwnMappers(m, f, d)
    ensures |Mappers(FreeSpace(m, d), f)| == |Mappers(m, f)| - |OwnMappers(m, f, d)|
  {
    FreeSpaceKeeps(m, d);
    var m' := FreeSpace(m, d);
    forall k ensures k in Mappers(m', f) <==> k in Mappers(m, f) - OwnMappers(m, f, d) {
      InMappers(m, f, k);
      InMappers(m', f, k);
    }
  }

  /** The pages that exist for space `d` alone: its directory, its tables, and data only it maps. */
  ghost predicate BelongsTo(m: Mem, d: nat, f: nat)
    requires m.Shape() && f < m.Size()
  {
    || f == d
    || (m.role[f].Table? && m.role[f].dir == d)
    || (m.role[f] == Data && Mappers(m, f) == OwnMappers(m, f, d))
  }

  /** Of the data pages, exactly those mapped nowhere else. */
  lemma DataFreed(m: Mem, m': Mem, d: nat, f: nat)
    requires Inv(m, NO_PAGE) && Inv(m', NO_PAGE) && m'.Size() == m.Size() && f < m.Size() && m.role[f] == Data
    requires RoleFreed(m, m', d, f) && IsDir(m, d) && Mappers(m', f) == Mappers(m, f) - OwnMappers(m, f, d)
    requires |Mappers(m', f)| == |Mappers(m, f)| - |OwnMappers(m, f, d)|
    ensures m'.role[f] == Free <==> Mappers(m, f) == OwnMappers(m, f, d)
    ensures m'.role[f] != Free ==> m'.role[f] == Data && m'.refs[f] == m.refs[f] - |OwnMappers(m, f, d)|
  {
    assert RefOk(m, f, NO_PAGE) && RefOk(m', f, NO_PAGE);
    if m'.role[f] == Free { NotDataIsUnmapped(m', f); }
  }

  /** Of the tables, exactly those of the space are freed. */
  lemma TableFreed(m: Mem, m': Mem, d: nat, f: nat)
    requires Inv(m, NO_PAGE) && Inv(m', NO_PAGE) && m'.Size() == m.Size() && f < m.Size() && m.role[f].Table?
    requires RoleFreed(m, m', d, f) && !IsDir(m', d) && IsDir(m, d)
    ensures m'.role[f] == Free <==> m.role[f].dir == d
  {
    assert ParentOk(m, f);
    if m'.role[f].Table? { assert ParentOk(m', f); }
  }

  /**
   Teardown neither leaks nor over-frees: the free list afterwards holds, once each, the
   pages that were free and the pages that belonged to the space alone; every other data
   page loses exactly one reference per mapping the space had of it.
   */
  lemma TeardownIsExact(m: Mem, d: nat, f: nat)
    requires Inv(m, NO_PAGE) && IsDir(m, d) && f < m.Size()
    ensures var m' := FreeSpace(m, d);
      && (f in m'.free <==> m.role[f] == Free || BelongsTo(m, d, f))
      && (m.role[f] == Data && !BelongsTo(m, d, f) ==>
            m'.role[f] == Data && m'.refs[f] == m.refs[f] - |OwnMappers(m, f, d)|)
      && (forall a, b :: 0 <= a < b < |m'.free| ==> m'.free[a] != m'.free[b])
  {
    var m' := FreeSpace(m, d);
    FreeSpaceKeeps(m, d);
    FreeSpaceMappers(m, d, f);
    assert RoleFreed(m, m', d, f) && RefOk(m, f, NO_PAGE) && RefOk(m', f, NO_PAGE);
    assert f in m'.free <==> m'.role[f] == Free;
    if m.role[f].Table? {
      TableFreed(m, m', d, f);
    } else if m.role[f] == Data {
      DataFreed(m, m', d, f);
    }
  }

  lemma NotDataIsUnmapped(m: Mem, f: nat)
    requires Inv(m, NO_PAGE) && f < m.Size() && m.role[f] != Data
    ensures Mappers(m, f) == {}
  {
    LooseIsUnmapped(m, f, NO_PAGE);
  }

  /** Teardown writes only into directories and tables: surviving data pages keep their bytes. */
  lemma FreeSpaceBytes(m: Mem, d: nat)
    requires Inv(m, NO_PAGE) && IsDir(m, d)
    ensures var m' := FreeSpace(m, d);
      forall f :: 0 <= f < m.Size() && m'.role[f] == Data ==> m.role[f] == Data && m'.words[f] == m.words[f]
  {
    FreeTablesKeeps(m, d, 0);
    FreeTablesBytes(m, d, 0);
    DropDirKeeps(FreeTables(m, d, 0), d);
  }

  ghost predicate SurvivingBytes(m: Mem, m': Mem)
    requires m.Shape() && m'.Shape()
  {
    m'.Size() == m.Size()
    && forall f :: 0 <= f < m.Size() && m'.role[f] == Data ==> m.role[f] == Data && m'.words[f] == m.words[f]
  }

  lemma {:induction false} FreeTableBytes(m: Mem, d: nat, i: nat, j: nat)
    requires Inv(m, NO_PAGE) && IsDir(m, d) && i < PDX_UTOP && j <= NPTENTRIES
    ensures SurvivingBytes(m, FreeTable(m, d, i, j))
    decreases NPTENTRIES - j
  {
    if j < NPTENTRIES {
      FreeEntryKeeps(m, d, i, j);
      FreeEntryBytes(m, d, i, j);
      FreeTableBytes(PageRemove(m, d, i, j), d, i, j + 1);
    }
  }

  lemma FreeEntryBytes(m: Mem, d: nat, i: nat, j: nat)
    requires Inv(m, NO_PAGE) && IsDir(m, d) && i < PDX_UTOP && j < NPTENTRIES
    ensures SurvivingBytes(m, PageRemove(m, d, i, j))
  {
    PageRemoveKeeps(m, Key(d, i, j), NO_PAGE);
  }

  lemma DropTableBytes(m: Mem, d: nat, i: nat)
    requires Inv(m, NO_PAGE) && IsDir(m, d) && i < PDX_UTOP && m.words[d][i].perm.p
    ensures SurvivingBytes(m, DropTable(m, d, i))
  {
    assert SlotOk(m, d, i);
  }

  lemma FreeSlotBytes(m: Mem, d: nat, i: nat)
    requires Inv(m, NO_PAGE) && IsDir(m, d) && i < PDX_UTOP
    ensures SurvivingBytes(m, FreeSlot(m, d, i))
  {
    if m.words[d][i].perm.p {
      FreeTableKeeps(m, d, i, 0);
      FreeTableBytes(m, d, i, 0);
      DropTableBytes(FreeTable(m, d, i, 0), d, i);
    }
  }

  lemma {:induction false} FreeTablesBytes(m: Mem, d: nat, i: nat)
    requires Inv(m, NO_PAGE) && IsDir(m, d) && i <= PDX_UTOP
    ensures SurvivingBytes(m, FreeTables(m, d, i))
    decreases PDX_UTOP - i
  {
    if i < PDX_UTOP {
      FreeSlotStep(m, d, i);
      FreeSlotBytes(m, d, i);
      FreeTablesBytes(FreeSlot(m, d, i), d, i + 1);
      FreeTablesUnfold(m, d, i);
    }
  }
}
