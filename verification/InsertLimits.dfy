/**
 Where page_insert (kern/pmap.c:496-511) stops keeping reference counts exact: a 16-bit
 count at its limit, and permission bits that fall on the frame number.
 */
module InsertLimits {
  import opened Layout
  import opened PageState
  import opened PageInv
  import opened Envs
  import opened Syscalls

  // ---- The word page_insert stores

  /** Bit `n` of `x`. */
  function Bit(x: nat, n: nat): bool {
    if n == 0 then x % 2 == 1 else Bit(x / 2, n - 1)
  }

  lemma {:induction false} NoBits(n: nat)
    ensures !Bit(0, n)
  {
    if n > 0 { NoBits(n - 1); }
  }

  lemma {:induction false} OrBits(a: nat, b: nat, n: nat)
    ensures Bit(BitOr(a, b), n) <==> Bit(a, n) || Bit(b, n)
    decreases n
  {
    if a == 0 || b == 0 {
      NoBits(n);
    } else {
      var low := if a % 2 == 1 || b % 2 == 1 then 1 else 0;
      HalfOf(low, BitOr(a / 2, b / 2));
      if n > 0 { OrBits(a / 2, b / 2, n - 1); }
    }
  }

  lemma HalfOf(low: nat, rest: nat)
    requires low < 2
    ensures (low + 2 * rest) / 2 == rest && (low + 2 * rest) % 2 == low
  {
  }

  /**
   page2pa(pp)|perm|PTE_P, bit by bit: the flags asked for and PTE_P, and a frame number in which
   the bits of the page's own number and the permission bits from 12 up run together.
   */
  lemma StoredWord(pp: nat, perm: Perm, n: nat)
    ensures var w := PteFor(pp, perm);
      && w.perm.p && w.perm.w == perm.w && w.perm.u == perm.u
      && w.perm.avail == perm.avail && w.perm.share == perm.share && w.perm.cow == perm.cow
      && w.perm.other == perm.other % 4096
      && (Bit(w.frame, n) <==> Bit(pp, n) || Bit(perm.other / 4096, n))
  {
    OrBits(pp, perm.other / 4096, n);
    NoBits(n);
  }

  /** ReplaceEntry seen from outside: one word of one table, and the count of the page inserted. */
  lemma Replaced(m: Mem, k: Key, pp: nat, perm: Perm)
    requires Inv(m, NO_PAGE) && UserKey(m, k) && TableOf(m, k.d, k.i).Some?
    requires pp < m.Size() && m.role[pp] in {Data, Loose}
    ensures var t := TableOf(m, k.d, k.i).value; var m' := ReplaceEntry(m, k.d, t, pp, k.i, k.j, perm);
      && m'.words == SetWord(m, t, k.j, PteFor(pp, perm)).words
      && m'.refs[pp] == (if Maps(m, k, pp) then m.refs[pp] else Bump(m.refs[pp])) && m'.role[pp] == Data
      && (forall d: nat :: IsDir(m', d) <==> IsDir(m, d))
      && (Maps(m, k, pp) ==> m' == SetWord(m, t, k.j, PteFor(pp, perm)))
  {
    var t := TableOf(m, k.d, k.i).value;
    assert SlotOk(m, k.d, k.i) && UserTable(m, t);
    var w := m.words[t][k.j];
    if w.perm.p {
      assert EntryOk(m, w) && At(m, k) == Some(w);
      SetWordTwice(m, t, k.j, ZERO, PteFor(pp, perm));
      if w.frame == pp { RemoveSame(m, k, pp); } else { RemoveOther(m, k, pp); }
    }
  }

  lemma SetWordTwice(m: Mem, f: nat, j: nat, a: Word, b: Word)
    requires m.Shape() && f < m.Size() && j < NPTENTRIES
    ensures SetWord(SetWord(m, f, j, a), f, j, b) == SetWord(m, f, j, b)
  {
    assert m.words[f][j := a][j := b] == m.words[f][j := b];
    assert m.words[f := m.words[f][j := a]][f := m.words[f][j := b]] == m.words[f := m.words[f][j := b]];
  }

  /** The new reference and the old one to the same page cancel out, even at the limit. */
  lemma RemoveSame(m: Mem, k: Key, pp: nat)
    requires Inv(m, NO_PAGE) && Maps(m, k, pp) && pp < m.Size()
    ensures TableOf(m, k.d, k.i).Some?
    ensures PageRemove(Hold(m, pp), k.d, k.i, k.j) == SetWord(m, TableOf(m, k.d, k.i).value, k.j, ZERO)
  {
    AtIsUnique(m, k, At(m, k).value);
    assert RefOk(m, pp, NO_PAGE);
    BumpAndDrop(m.refs[pp]);
    assert PageLookup(Hold(m, pp), k.d, k.i, k.j) == At(m, k);
    assert m.role[pp := Data] == m.role;
    assert m.refs[pp := Bump(m.refs[pp])][pp := m.refs[pp]] == m.refs;
    assert PageDecref(Hold(m, pp), pp) == m;
  }

  /** Dropping another page does not touch the reference to `pp`. */
  lemma RemoveOther(m: Mem, k: Key, pp: nat)
    requires Inv(m, NO_PAGE) && At(m, k).Some? && At(m, k).value.frame != pp
    requires pp < m.Size() && m.role[pp] in {Data, Loose}
    ensures TableOf(m, k.d, k.i).Some?
    ensures var m' := PageRemove(Hold(m, pp), k.d, k.i, k.j);
      && m'.words == SetWord(m, TableOf(m, k.d, k.i).value, k.j, ZERO).words
      && m'.refs[pp] == Bump(m.refs[pp]) && m'.role[pp] == Data
      && (forall d: nat :: IsDir(m', d) <==> IsDir(m, d))
  {
    AtIsUnique(m, k, At(m, k).value);
    assert PageLookup(Hold(m, pp), k.d, k.i, k.j) == At(m, k);
  }

  lemma BumpAndDrop(x: nat)
    requires x < REF_LIMIT
    ensures Drop(Bump(x)) == x && (Bump(x) == 0 <==> x == 65535) && (x < 65535 ==> Bump(x) == x + 1)
  {
  }

  /** Keys other than `k` map `pp` as before; `k` maps it exactly when the stored frame is `pp`. */
  lemma MappersAfter(m: Mem, m': Mem, k: Key, w: Word, pp: nat)
    requires Inv(m, NO_PAGE) && m'.Shape() && UserKey(m, k) && TableOf(m, k.d, k.i).Some? && w.perm.p && pp < m.Size()
    requires m'.words == SetWord(m, TableOf(m, k.d, k.i).value, k.j, w).words
    requires forall d: nat :: IsDir(m', d) <==> IsDir(m, d)
    ensures forall x :: Maps(m', x, pp) <==> if x == k then w.frame == pp else Maps(m, x, pp)
  {
    assert SlotOk(m, k.d, k.i);
    forall x ensures Maps(m', x, pp) <==> if x == k then w.frame == pp else Maps(m, x, pp) {
      if UserKey(m, x) && m.words[x.d][x.i].perm.p {
        assert SlotOk(m, x.d, x.i);
      }
    }
  }

  /** The count of `pp` no longer fits its mappings. */
  lemma CountBreaks(m: Mem, m': Mem, k: Key, w: Word, pp: nat)
    requires Inv(m, NO_PAGE) && m'.Shape() && m'.Size() == m.Size()
    requires pp < m.Size() && m.role[pp] in {Data, Loose} && m'.role[pp] == Data
    requires forall x :: Maps(m', x, pp) <==> if x == k then w.frame == pp else Maps(m, x, pp)
    requires m'.refs[pp] == if Maps(m, k, pp) then m.refs[pp] else Bump(m.refs[pp])
    requires w.frame != pp || (m.refs[pp] == 65535 && !Maps(m, k, pp))
    ensures !RefOk(m', pp, NO_PAGE)
  {
    assert RefOk(m, pp, NO_PAGE);
    if m.role[pp] == Loose { LooseIsUnmapped(m, pp, NO_PAGE); }
    BumpAndDrop(m.refs[pp]);
    if w.frame != pp {
      if Maps(m, k, pp) { FewerMappers(m, m', pp, k); } else { SameMappers(m, m', pp); }
    }
  }

  /** Changing only the permissions of an entry keeps everything, whatever the count. */
  lemma ChangePermKeeps(m: Mem, k: Key, w: Word)
    requires Inv(m, NO_PAGE) && At(m, k).Some? && w.perm.p && w.frame == At(m, k).value.frame
    ensures TableOf(m, k.d, k.i).Some?
    ensures Inv(SetWord(m, TableOf(m, k.d, k.i).value, k.j, w), NO_PAGE)
  {
    AtIsUnique(m, k, At(m, k).value);
    var t := TableOf(m, k.d, k.i).value;
    var m' := SetWord(m, t, k.j, w);
    SetEntryFlat(m, m', k, w);
    forall x, j | UserTable(m, x) && 0 <= j < 1024 && m'.words[x][j].perm.p ensures EntryOk(m', m'.words[x][j]) {
      if (x, j) != (t, k.j) { assert EntryOk(m, m.words[x][j]); }
    }
    SetEntryTree(m, m', k, w);
    KernelHalfCarry(m, m');
    forall x | 0 <= x < m.Size() ensures RefOk(m', x, NO_PAGE) {
      assert RefOk(m, x, NO_PAGE);
      SameMappers(m, m', x);
    }
  }

  /** The condition: the count has room or is not needed, and no permission bit changes the frame. */
  predicate Insertable(m: Mem, k: Key, pp: nat, perm: Perm)
    requires m.Shape() && pp < m.Size() && k.d < m.Size() && k.i < NPDENTRIES && k.j < NPTENTRIES
  {
    var w := PageLookup(m, k.d, k.i, k.j);
    PteFor(pp, perm).frame == pp && (m.refs[pp] < 65535 || (w.Some? && w.value.frame == pp))
  }

  lemma ReplaceKeepsIff(m: Mem, k: Key, pp: nat, perm: Perm)
    requires Inv(m, NO_PAGE) && UserKey(m, k) && TableOf(m, k.d, k.i).Some?
    requires pp < m.Size() && m.role[pp] in {Data, Loose}
    ensures Inv(ReplaceEntry(m, k.d, TableOf(m, k.d, k.i).value, pp, k.i, k.j, perm), NO_PAGE) <==>
      Insertable(m, k, pp, perm)
  {
    var t := TableOf(m, k.d, k.i).value;
    var m' := ReplaceEntry(m, k.d, t, pp, k.i, k.j, perm);
    Replaced(m, k, pp, perm);
    if !Insertable(m, k, pp, perm) {
      MappersAfter(m, m', k, PteFor(pp, perm), pp);
      CountBreaks(m, m', k, PteFor(pp, perm), pp);
    } else if Maps(m, k, pp) {
      ChangePermKeeps(m, k, PteFor(pp, perm));
    } else {
      SameWord(m, k, pp, perm);
      ReplaceEntryKeeps(m, k, pp, perm.(other := perm.other % 4096));
    }
  }

  /** Bits that do not change the frame might as well not be there. */
  lemma SameWord(m: Mem, k: Key, pp: nat, perm: Perm)
    requires m.Shape() && UserKey(m, k) && TableOf(m, k.d, k.i).Some? && pp < m.Size() && PteFor(pp, perm).frame == pp
    ensures var t := TableOf(m, k.d, k.i).value;
      ReplaceEntry(m, k.d, t, pp, k.i, k.j, perm) ==
        ReplaceEntry(m, k.d, t, pp, k.i, k.j, perm.(other := perm.other % 4096))
  {
    assert PteFor(pp, perm) == PteFor(pp, perm.(other := perm.other % 4096));
  }

  /**
   page_insert keeps the counts exact if and only if no permission bit from 12 up changes
   the frame number, and the count is below its 16-bit limit or the page is already there.
   */
  lemma InsertKeepsIff(m: Mem, k: Key, pp: nat, perm: Perm)
    requires Inv(m, NO_PAGE) && UserKey(m, k) && pp < m.Size() && m.role[pp] in {Data, Loose}
    requires PageInsert(m, k.d, pp, k.i, k.j, perm).1
    ensures Inv(PageInsert(m, k.d, pp, k.i, k.j, perm).0, NO_PAGE) <==> Insertable(m, k, pp, perm)
  {
    var (m1, table) := PgdirWalk(m, k.d, k.i, true);
    PgdirWalkKeeps(m, k.d, k.i, true, NO_PAGE);
    assert At(m1, k) == At(m, k);
    ReplaceKeepsIff(m1, k, pp, perm);
  }

  /** page_insert makes and unmakes no directory, whatever the permission bits. */
  lemma InsertKeepsDirs(m: Mem, k: Key, pp: nat, perm: Perm)
    requires Inv(m, NO_PAGE) && UserKey(m, k) && pp < m.Size() && m.role[pp] in {Data, Loose}
    requires PageInsert(m, k.d, pp, k.i, k.j, perm).1
    ensures forall d: nat :: IsDir(PageInsert(m, k.d, pp, k.i, k.j, perm).0, d) <==> IsDir(m, d)
  {
    var (m1, table) := PgdirWalk(m, k.d, k.i, true);
    PgdirWalkKeeps(m, k.d, k.i, true, NO_PAGE);
    Replaced(m1, k, pp, perm);
  }

  /**
   sys_ipc_try_send passes its permission word on unchecked: a send of a page that succeeds
   keeps the kernel invariant if and only if no bit of the word falls on the frame number and
   the page's count has room, or the page is already there.
   */
  lemma SendKeepsIff(k: Kernel, cur: nat, envid: int, value: nat, srcva: nat, perm: Perm)
    requires KInv(k) && Live(k, cur) && Spaces(k) && SendDefined(k, cur, envid, srcva)
    requires var e := Envid2Env(k, cur, envid, false);
      e.Some? && k.envs[e.value].recving && Carried(k, e.value, srcva)
    requires SysIpcTrySend(k, cur, envid, value, srcva, perm).1 == 0
    ensures var e := Envid2Env(k, cur, envid, false).value; var from := At(k.mem, KeyOf(k, cur, srcva));
      && from.Some? && from.value.frame < k.mem.Size() && HasSpace(k, e)
      && (KInv(SysIpcTrySend(k, cur, envid, value, srcva, perm).0) <==>
            Insertable(k.mem, KeyOf(k, e, k.envs[e].dstva), from.value.frame, perm))
  {
    var e := Envid2Env(k, cur, envid, false).value;
    assert Live(k, e);
    var k' := SysIpcTrySend(k, cur, envid, value, srcva, perm).0;
    UserVa(srcva);
    UserVa(k.envs[e].dstva);
    LookupIsAt(k, cur, srcva);
    var from := At(k.mem, KeyOf(k, cur, srcva)).value;
    AtIsUnique(k.mem, KeyOf(k, cur, srcva), from);
    var key := KeyOf(k, e, k.envs[e].dstva);
    assert (k'.mem, true) == PageInsert(k.mem, key.d, from.frame, key.i, key.j, perm);
    InsertKeepsIff(k.mem, key, from.frame, perm);
    if Insertable(k.mem, key, from.frame, perm) {
      InsertKeepsDirs(k.mem, key, from.frame, perm);
      PageInsertRoles(k.mem, key.d, from.frame, key.i, key.j, perm);
      TouchBothKeeps(k, k', e);
    }
  }

  /** A page sent with a permission bit on its frame number: page 1 goes out, page 3 is mapped. */
  lemma StrayPermissionBits()
    ensures PteFor(1, PTE_PU.(other := 0x2000)) == Word(3, PTE_PU)
  {
    assert BitOr(1, 2) == 1 + 2 * BitOr(0, 1);
  }
}
