/**
 What the processor makes of the page tables: the two-level walk of a user access with the rights
 of both levels, and the view of the tables through the slot at UVPT (inc/memlayout.h,
 kern/env.c, lib/entry.S).
 */
module Mmu {
  import opened Layout
  import opened PageState
  import opened PageInv
  import opened Envs
  import opened Syscalls
  import opened UserMemory
  import opened CowFork

  /** An entry lets a user access pass. */
  predicate Passes(w: Word, write: bool) { w.perm.p && w.perm.u && (write ==> w.perm.w) }

  /**
   The frame a user access to `va` reaches under page directory `d`, or a fault. Both entries must
   be present and user, and for a store both writable.
   */
  function Translate(m: Mem, d: nat, va: nat, write: bool): (f: Option<nat>)
    requires m.Shape() && d < m.Size()
    ensures f.Some? ==> f.value < m.Size()
  {
    var pde := m.words[d][va / 4194304 % 1024];
    if !Passes(pde, write) || pde.frame >= m.Size() then None
    else
      var pte := m.words[pde.frame][va / 4096 % 1024];
      if !Passes(pte, write) || pte.frame >= m.Size() then None else Some(pte.frame)
  }

  /** The word a user load finds at the word-aligned address `va`. */
  function LoadWord(m: Mem, d: nat, va: nat): Option<Word>
    requires m.Shape() && d < m.Size()
  {
    match Translate(m, d, va, false)
    case None => None
    case Some(f) => Some(m.words[f][va % 4096 / 4])
  }

  /**
   The flat map of the theorems is what the processor sees: below UTOP a user access reaches a
   frame exactly when the map has an entry for its page that is a user entry, and writable for a
   store. The directory's own entries stand in nobody's way.
   */
  lemma AtIsTranslation(m: Mem, d: nat, va: nat, write: bool, f: nat)
    requires Inv(m, NO_PAGE) && IsDir(m, d) && va < 0xEEC0_0000
    ensures Translate(m, d, va, write) == Some(f) <==>
      var w := At(m, Key(d, va / 4194304, va / 4096 % 1024));
      w.Some? && w.value.frame == f && w.value.perm.u && (write ==> w.value.perm.w)
  {
    var i, j := va / 4194304, va / 4096 % 1024;
    UserSlot(va);
    if m.words[d][i].perm.p {
      assert SlotOk(m, d, i);
      var t := m.words[d][i].frame;
      assert ParentOk(m, t) && UserTable(m, t);
      if m.words[t][j].perm.p { assert EntryOk(m, m.words[t][j]); }
    }
  }

  lemma UserSlot(va: nat)
    requires va < 0xEEC0_0000
    ensures va / 4194304 < 955 && va / 4194304 % 1024 == va / 4194304
  {
  }

  // ---- uvpt and uvpd

  const UVPT: nat := 0xEF40_0000

  /** uvpt[n] for page number `n`, and uvpd[i], as user addresses. */
  function UvptAddr(n: nat): nat { UVPT + 4 * n }

  function UvpdAddr(i: nat): nat { UVPT + UVPT / 1024 + 4 * i }

  lemma UvptAddress(i: nat, j: nat)
    requires i < 1024 && j < 1024
    ensures var va := UvptAddr(i * 1024 + j);
      va / 4194304 % 1024 == 957 && va / 4096 % 1024 == i && va % 4096 / 4 == j
    ensures var va := UvpdAddr(i); va / 4194304 % 1024 == 957 && va / 4096 % 1024 == 957 && va % 4096 / 4 == i
  {
    assert UvptAddr(i * 1024 + j) == 957 * 4194304 + i * 4096 + 4 * j;
    assert UvpdAddr(i) == 957 * 4194304 + 957 * 4096 + 4 * i;
  }

  /**
   The tables through the slot at UVPT: uvpd[i] is the directory's entry i, and uvpt[n] is the
   entry for page n, a fault when its table is missing; and no user store to either goes through.
   */
  lemma UvptShowsTables(m: Mem, d: nat, i: nat, j: nat)
    requires Inv(m, NO_PAGE) && IsDir(m, d) && i < 955 && j < 1024
    ensures LoadWord(m, d, UvpdAddr(i)) == Some(m.words[d][i])
    ensures m.words[d][i].perm.p ==> m.words[d][i].frame < m.Size()
    ensures LoadWord(m, d, UvptAddr(i * 1024 + j)) ==
      if m.words[d][i].perm.p then Some(m.words[m.words[d][i].frame][j]) else None
    ensures Translate(m, d, UvptAddr(i * 1024 + j), true) == None && Translate(m, d, UvpdAddr(i), true) == None
  {
    UvptAddress(i, j);
    assert UpperOk(m, d, 957);
    if m.words[d][i].perm.p {
      assert SlotOk(m, d, i);
      assert ParentOk(m, m.words[d][i].frame);
    }
  }

  /**
   What the library reads before it copies a page: uvpd and uvpt have PTE_P both set exactly when
   the page is mapped, and uvpt then is its entry.
   */
  lemma UvptIsUvpt(k: Kernel, e: nat, va: nat)
    requires KInv(k) && Live(k, e) && va < 0xEEC0_0000
    ensures Spaces(k)
    ensures var d, n := k.envs[e].pgdir, va / 4096;
      var pde := LoadWord(k.mem, d, UvpdAddr(va / 4194304));
      && pde.Some?
      && if pde.value.perm.p then
           var pte := LoadWord(k.mem, d, UvptAddr(n));
           && pte.Some? && (pte.value.perm.p <==> Uvpt(k, e, va).perm.p)
           && (pte.value.perm.p ==> pte.value == Uvpt(k, e, va))
         else Uvpt(k, e, va) == ZERO
  {
    KInvSpaces(k);
    UserSlot(va);
    var i, j := va / 4194304, va / 4096 % 1024;
    assert va / 4096 == i * 1024 + j;
    UvptShowsTables(k.mem, k.envs[e].pgdir, i, j);
    var m, d := k.mem, k.envs[e].pgdir;
    if m.words[d][i].perm.p {
      assert SlotOk(m, d, i);
      assert UserTable(m, m.words[d][i].frame);
      if m.words[m.words[d][i].frame][j].perm.p { assert EntryOk(m, m.words[m.words[d][i].frame][j]); }
    }
  }
}
