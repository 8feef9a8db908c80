/**
 The physical pages and two-level page tables of kern/pmap.c as a value, and what
 each of its functions does to that value. The class in PhysMem.dfy works on arrays
 and is proved against these functions; PageInv.dfy proves what they keep.
 */
module PageState {
  import opened Layout

  /**
   What a physical page is used for. The kernel stores no such tag; it is the
   bookkeeping that says which pointer keeps a page alive. `Loose` is a page just
   taken from the free list and not yet referenced.
   */
  datatype Role =
    | Free
    | Reserved
    | Loose
    | Dir
    | Table(dir: nat, pdx: nat)
    | Data

  /**
   `free` is page_free_list in list order, `refs` the pp_ref fields, `words` the
   contents of every page, `kdir` the frame of kern_pgdir.
   */
  datatype Mem = Mem(free: seq<nat>, refs: seq<nat>, words: seq<seq<Word>>, role: seq<Role>, kdir: nat)
  {
    function Size(): nat { |refs| }

    predicate Shape() {
      && |words| == |refs| && |role| == |refs|
      && kdir < |refs|
      && (forall f :: 0 <= f < |words| ==> |words[f]| == NPTENTRIES)
      && (forall f :: 0 <= f < |refs| ==> refs[f] < REF_LIMIT)
      && (forall k :: 0 <= k < |free| ==> free[k] < |refs|)
    }
  }

  function SetWord(m: Mem, f: nat, j: nat, w: Word): (r: Mem)
    requires m.Shape() && f < m.Size() && j < NPTENTRIES
    ensures r.Shape()
  {
    m.(words := m.words[f := m.words[f][j := w]])
  }

  function SetRef(m: Mem, f: nat, v: nat): (r: Mem)
    requires m.Shape() && f < m.Size() && v < REF_LIMIT
    ensures r.Shape()
  {
    m.(refs := m.refs[f := v])
  }

  function SetRole(m: Mem, f: nat, role: Role): (r: Mem)
    requires m.Shape() && f < m.Size()
    ensures r.Shape()
  {
    m.(role := m.role[f := role])
  }

  function Bump(x: nat): nat { (x + 1) % 65536 }

  function Drop(x: nat): nat { (x + 65535) % 65536 }

  function PageAlloc(m: Mem, zero: bool): (r: (Mem, Option<nat>))
    requires m.Shape()
    ensures r.0.Shape() && r.0.Size() == m.Size() && r.0.kdir == m.kdir
    ensures r.1.Some? ==> r.1.value < m.Size()
  {
    if m.free == [] then (m, None) else
    var f := m.free[0];
    (m.(free := m.free[1..],
        role := m.role[f := Loose],
        words := if zero then m.words[f := ZeroPage()] else m.words), Some(f))
  }

  function PageFree(m: Mem, f: nat): (r: Mem)
    requires m.Shape() && f < m.Size()
    ensures r.Shape() && r.Size() == m.Size()
  {
    m.(free := [f] + m.free, role := m.role[f := Free])
  }

  function PageDecref(m: Mem, f: nat): (r: Mem)
    requires m.Shape() && f < m.Size()
    ensures r.Shape() && r.Size() == m.Size()
  {
    var m1 := SetRef(m, f, Drop(m.refs[f]));
    if m1.refs[f] == 0 then PageFree(m1, f) else m1
  }

  /** The page table that directory `d` holds in slot `i`, if the slot is present. */
  function TableOf(m: Mem, d: nat, i: nat): (t: Option<nat>)
    requires m.Shape() && d < m.Size() && i < NPDENTRIES
    ensures t.Some? ==> t.value < m.Size()
  {
    var e := m.words[d][i];
    if e.perm.p && e.frame < m.Size() then Some(e.frame) else None
  }

  /** pgdir_walk: the frame of the page table that holds the entry for (i, j). */
  function PgdirWalk(m: Mem, d: nat, i: nat, create: bool): (r: (Mem, Option<nat>))
    requires m.Shape() && d < m.Size() && i < NPDENTRIES
    ensures r.0.Shape() && r.0.Size() == m.Size() && r.0.kdir == m.kdir
    ensures r.1.Some? ==> r.1.value < m.Size()
  {
    if m.words[d][i].perm.p then (m, TableOf(m, d, i))
    else if !create then (m, None)
    else
      var (m1, page) := PageAlloc(m, true);
      if page.None? then (m1, None)
      else
        var t := page.value;
        var m2 := SetRole(SetRef(m1, t, Bump(m1.refs[t])), t, Table(d, i));
        (SetWord(m2, d, i, Word(t, PTE_PWU)), Some(t))
  }

  /** page_lookup: the present entry for (i, j) in directory `d`. */
  function PageLookup(m: Mem, d: nat, i: nat, j: nat): (r: Option<Word>)
    requires m.Shape() && d < m.Size() && i < NPDENTRIES && j < NPTENTRIES
  {
    var t := TableOf(m, d, i);
    if t.None? then None
    else
      var w := m.words[t.value][j];
      if w.perm.p && w.frame < m.Size() then Some(w) else None
  }

  function PageRemove(m: Mem, d: nat, i: nat, j: nat): (r: Mem)
    requires m.Shape() && d < m.Size() && i < NPDENTRIES && j < NPTENTRIES
    ensures r.Shape() && r.Size() == m.Size() && r.kdir == m.kdir
  {
    var w := PageLookup(m, d, i, j);
    if w.None? then m
    else SetWord(PageDecref(m, w.value.frame), TableOf(m, d, i).value, j, ZERO)
  }

  function BitOr(a: nat, b: nat): nat {
    if a == 0 then b else if b == 0 then a
    else (if a % 2 == 1 || b % 2 == 1 then 1 else 0) + 2 * BitOr(a / 2, b / 2)
  }

  /**
   page2pa(pp)|perm|PTE_P. Permission bits from 12 up fall on the frame number; a
   caller that stays within the low 12 bits gets the frame it asked for.
   */
  function PteFor(pp: nat, perm: Perm): (w: Word)
    ensures perm.other < PGSIZE ==> w == Word(pp, perm.(p := true))
  {
    Word(if perm.other < 4096 then pp else BitOr(pp, perm.other / 4096), perm.(p := true, other := perm.other % 4096))
  }

  /** The part of page_insert that follows the walk: take a reference, drop the old entry, store. */
  function ReplaceEntry(m: Mem, d: nat, t: nat, pp: nat, i: nat, j: nat, perm: Perm): (r: Mem)
    requires m.Shape() && d < m.Size() && t < m.Size() && pp < m.Size() && i < NPDENTRIES && j < NPTENTRIES
    ensures r.Shape() && r.Size() == m.Size() && r.kdir == m.kdir
  {
    var m2 := SetRole(SetRef(m, pp, Bump(m.refs[pp])), pp, Data);
    var m3 := if m2.words[t][j].perm.p then PageRemove(m2, d, i, j) else m2;
    SetWord(m3, t, j, PteFor(pp, perm))
  }

  /** page_insert: `false` stands for -E_NO_MEM. */
  function PageInsert(m: Mem, d: nat, pp: nat, i: nat, j: nat, perm: Perm): (r: (Mem, bool))
    requires m.Shape() && d < m.Size() && pp < m.Size() && i < NPDENTRIES && j < NPTENTRIES
    ensures r.0.Shape() && r.0.Size() == m.Size() && r.0.kdir == m.kdir
  {
    var (m1, table) := PgdirWalk(m, d, i, true);
    if table.None? then (m1, false)
    else (ReplaceEntry(m1, d, table.value, pp, i, j, perm), true)
  }
}
