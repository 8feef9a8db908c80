/**
 Copy-on-write programs running side by side: every system call of duppage and pgfault, and
 every word the handler copies, is a step of its own, and the steps of different environments
 come in any order (lib/fork.c, kern/syscall.c).
 */
module CowRun {
  import opened Layout
  import opened PageState
  import opened PageInv
  import opened AddressSpace
  import opened Envs
  import opened Syscalls
  import opened UserMemory
  import opened CowFork
  import opened CowState

  // ---- What environments are in the middle of

  /**
   `Dupping`: duppage has mapped the page at `va` into the child, at `to`, and not yet again
   for itself. `Viewing`: pgfault has the old page at PFTEMP; `Replacing`: and a fresh one at
   `va`, with `n` words copied.
   */
  datatype Busy = Dupping(va: nat, to: Key) | Viewing(va: nat) | Replacing(va: nat, n: nat)

  /** The kernel, and by directory what the environments in the middle of something are doing. */
  datatype World = World(k: Kernel, busy: map<nat, Busy>)

  function KeyAt(d: nat, va: nat): Key { Key(d, Pdx(va), Ptx(va)) }

  function TempOf(d: nat): Key { KeyAt(d, PFTEMP) }

  /** No environment is in the middle of giving space `d` a page. */
  ghost predicate NotInFlight(busy: map<nat, Busy>, d: nat) {
    forall x :: x in busy && busy[x].Dupping? ==> busy[x].to.d != d
  }

  /** Nothing is going on in space `d`. */
  ghost predicate Still(busy: map<nat, Busy>, d: nat) { d !in busy && NotInFlight(busy, d) }

  // ---- Steps

  datatype Act =
    | Store(va: nat, idx: nat, word: Word)
    | Push(stack: seq<Word>)
    | Alloc(envid: int, va: nat, perm: Perm)
    | Unmap(envid: int, va: nat)
    | Fork
    | Exit
    | Other(next: Kernel)
    | DupMap(childId: int, va: nat)
    | DupRemap
    | FaultView(va: nat)
    | FaultAlloc
    | FaultCopy
    | FaultUnmap

  /** Calls on an environment in the middle of something are left out, but for its own. */
  ghost predicate StillTarget(w: World, cur: nat, envid: int)
    requires w.k.Shape() && cur < NENV
  {
    var t := Envid2Env(w.k, cur, envid, true);
    t.Some? ==> Still(w.busy, w.k.envs[t.value].pgdir)
  }

  /** The word the handler's memmove copies next. */
  function TempWord(k: Kernel, cur: nat, n: nat): Word
    requires Spaces(k) && Live(k, cur) && n < NPTENTRIES
  {
    match PageLookup(k.mem, k.envs[cur].pgdir, Pdx(PFTEMP), Ptx(PFTEMP))
    case None => ZERO
    case Some(w) => k.mem.words[w.frame][n]
  }

  /** The permissions duppage gives the child's mapping of a page it shares. */
  function DupPerm(perm: Perm): Perm { if perm.w || perm.cow then PTE_COW_PU else PTE_PU }

  ghost predicate Step(w: World, w': World, cur: nat, act: Act) {
    && KInv(w.k) && Live(w.k, cur) && Room(w.k.mem, 2) && Spaces(w.k)
    && var k, d := w.k, w.k.envs[cur].pgdir;
    match act
    case Store(va, idx, word) =>
      && Still(w.busy, d) && va < UTOP && idx < NPTENTRIES && Uvpt(k, cur, va).perm.w
      && w' == w.(k := WriteWord(k, cur, va, idx, word))
    case Push(stack) =>
      |stack| == NPTENTRIES && CanFault(k, cur) && w' == w.(k := PushFrame(k, cur, stack))
    case Alloc(envid, va, perm) =>
      && Still(w.busy, d) && StillTarget(w, cur, envid) && !perm.share && va != PFTEMP
      && w' == w.(k := SysPageAlloc(k, cur, envid, va, perm).0)
    case Unmap(envid, va) =>
      Still(w.busy, d) && StillTarget(w, cur, envid) && w' == w.(k := SysPageUnmap(k, cur, envid, va).0)
    case Fork => Still(w.busy, d) && w' == w.(k := SysExofork(k, cur).0)
    case Exit => NotInFlight(w.busy, d) && w' == World(EnvFree(k, cur), w.busy - {d})
    case Other(next) => KInv(next) && next.mem == k.mem && w' == w.(k := next)
    case DupMap(childId, va) =>
      && Still(w.busy, d) && StillTarget(w, cur, childId) && Envid2Env(k, cur, childId, true).Some?
      && Envid2Env(k, cur, childId, true) != Some(cur)
      && va < USTACKTOP && PgOff(va) == 0 && Uvpt(k, cur, va).perm.p
      && var perm := Uvpt(k, cur, va).perm;
      var (k1, r) := SysPageMap(k, cur, 0, va, childId, va, DupPerm(perm));
      var child := Envid2Env(k, cur, childId, true).value;
      w' == World(k1, if r == 0 && (perm.w || perm.cow) then w.busy[d := Dupping(va, KeyOf(k, child, va))] else w.busy)
    case DupRemap =>
      && d in w.busy && w.busy[d].Dupping?
      && var (k1, r) := SysPageMap(k, cur, 0, w.busy[d].va, 0, w.busy[d].va, PTE_COW_PU);
      w' == World(k1, if r == 0 then w.busy - {d} else w.busy)
    case FaultView(va) =>
      && Still(w.busy, d) && va < UTOP && Uvpt(k, cur, va).perm.cow && !Uvpt(k, cur, va).perm.w && CanFault(k, cur)
      && var (k1, r) := SysPageMap(k, cur, 0, RoundDown(va), 0, PFTEMP, PTE_PU);
      w' == World(k1, if r == 0 then w.busy[d := Viewing(RoundDown(va))] else w.busy)
    case FaultAlloc =>
      && d in w.busy && w.busy[d].Viewing?
      && var (k1, r) := SysPageAlloc(k, cur, 0, w.busy[d].va, PTE_PWU);
      w' == World(k1, if r == 0 then w.busy[d := Replacing(w.busy[d].va, 0)] else w.busy)
    case FaultCopy =>
      && d in w.busy && w.busy[d].Replacing? && w.busy[d].n < NPTENTRIES
      && w' == World(WriteWord(k, cur, w.busy[d].va, w.busy[d].n, TempWord(k, cur, w.busy[d].n)),
                     w.busy[d := Replacing(w.busy[d].va, w.busy[d].n + 1)])
    case FaultUnmap =>
      && d in w.busy && w.busy[d].Replacing? && w.busy[d].n == NPTENTRIES
      && w' == World(SysPageUnmap(k, cur, 0, PFTEMP).0, w.busy - {d})
  }

  // ---- Frames shared for a moment

  /** `x` is the parent's page, `y` the child's, between the two maps of one duppage. */
  ghost predicate Excused(busy: map<nat, Busy>, x: Key, y: Key) {
    x.d in busy && busy[x.d].Dupping? && KeyAt(x.d, busy[x.d].va) == x && busy[x.d].to == y
  }

  /** A frame mapped writable anywhere is mapped once, or a second time between the two maps of a duppage. */
  ghost predicate SharesOk(m: Mem, busy: map<nat, Busy>)
    requires m.Shape()
  {
    forall x, y :: Mapped(m, x) && Mapped(m, y) && x != y && At(m, x).value.frame == At(m, y).value.frame ==>
      !At(m, x).value.perm.w || Excused(busy, x, y)
  }

  /** The excuses of `busy` are still made. */
  ghost predicate KeepsExcuses(busy: map<nat, Busy>, busy': map<nat, Busy>) {
    forall x, y :: Excused(busy, x, y) ==> Excused(busy', x, y)
  }

  /** A new mapping of a fresh frame, or none. */
  lemma FreshShares(m: Mem, m': Mem, busy: map<nat, Busy>, busy': map<nat, Busy>, k0: Key)
    requires m.Shape() && m'.Shape() && SharesOk(m, busy) && SameFlatBut(m, m', k0) && KeepsExcuses(busy, busy')
    requires Mapped(m', k0) ==> Unmapped(m, At(m', k0).value.frame)
    ensures SharesOk(m', busy')
  {
    forall x | x != k0 && Mapped(m', x)
      ensures At(m', x) == At(m, x) && (Mapped(m', k0) ==> At(m, x).value.frame != At(m', k0).value.frame)
    {
      if Mapped(m', k0) { assert !Maps(m, x, At(m', k0).value.frame); }
    }
  }

  /** A second mapping, read-only or copy-on-write, of the page at `from`. */
  lemma AliasShares(m: Mem, m': Mem, busy: map<nat, Busy>, busy': map<nat, Busy>, from: Key, to: Key, perm: Perm)
    requires m.Shape() && m'.Shape() && SharesOk(m, busy) && HalfDup(m, m', from, to, perm) && from != to && !perm.w
    requires KeepsExcuses(busy, busy') && (At(m, from).value.perm.w ==> Excused(busy', from, to))
    requires from.d !in busy && NotInFlight(busy, from.d)
    ensures SharesOk(m', busy')
  {
    forall x, y | Mapped(m', x) && Mapped(m', y) && x != y && At(m', x).value.frame == At(m', y).value.frame
      ensures !At(m', x).value.perm.w || Excused(busy', x, y)
    {
      if x != to {
        assert At(m', x) == At(m, x);
        if y != to {
          assert At(m', y) == At(m, y);
        } else if x != from {
          assert !At(m, x).value.perm.w || Excused(busy, x, from);
        }
      }
    }
  }

  /** The second map of duppage ends the excuse. */
  lemma RemapShares(m: Mem, m': Mem, busy: map<nat, Busy>, from: Key)
    requires m.Shape() && m'.Shape() && SharesOk(m, busy) && SameFlatBut(m, m', from) && Mapped(m, from)
    requires At(m', from) == Some(Word(At(m, from).value.frame, PTE_COW_PU))
    requires from.d in busy && busy[from.d].Dupping? && KeyAt(from.d, busy[from.d].va) == from
    ensures SharesOk(m', busy - {from.d})
  {
    forall x, y | Mapped(m', x) && Mapped(m', y) && x != y && At(m', x).value.frame == At(m', y).value.frame
      ensures !At(m', x).value.perm.w || Excused(busy - {from.d}, x, y)
    {
      if x != from {
        assert At(m', x) == At(m, x) && Mapped(m, y) && At(m, y).value.frame == At(m', y).value.frame;
        assert !At(m, x).value.perm.w || Excused(busy, x, y);
      }
    }
  }

  lemma ExitShares(m: Mem, m': Mem, busy: map<nat, Busy>, d: nat)
    requires m.Shape() && m'.Shape() && SharesOk(m, busy)
    requires forall key :: At(m', key) == if key.d == d then None else At(m, key)
    ensures SharesOk(m', busy - {d})
  {
    forall x, y | Mapped(m', x) && Mapped(m', y) && x != y && At(m', x).value.frame == At(m', y).value.frame
      ensures !At(m', x).value.perm.w || Excused(busy - {d}, x, y)
    {
      assert At(m', x) == At(m, x) && At(m', y) == At(m, y);
      assert !At(m, x).value.perm.w || Excused(busy, x, y);
    }
  }

  /** A page its environment may write, and is not just giving away, is mapped once. */
  lemma SoleMapper(m: Mem, busy: map<nat, Busy>, key: Key, x: Key)
    requires m.Shape() && SharesOk(m, busy) && Mapped(m, key) && At(m, key).value.perm.w
    requires key.d in busy && busy[key.d].Dupping? ==> KeyAt(key.d, busy[key.d].va) != key
    requires x != key && Mapped(m, x)
    ensures At(m, x).value.frame != At(m, key).value.frame
  {
    assert !Excused(busy, key, x);
  }

  // ---- The relation

  /** What space `d` is in the middle of, in terms of its private pages. */
  ghost predicate BusyAt(m: Mem, busy: map<nat, Busy>, q: Private, d: nat)
    requires m.Shape()
  {
    if d !in busy then TempOf(d) !in q
    else
      var key, temp := KeyAt(d, busy[d].va), TempOf(d);
      && busy[d].va < UTOP && PgOff(busy[d].va) == 0 && key != temp && !IsExceptionStack(key)
      && key in q && q[key].writable
      && match busy[d]
         case Dupping(_, to) => temp !in q && to.d != d
         case Viewing(_) => temp in q && q[temp].content == q[key].content
         case Replacing(_, n) =>
           && temp in q && n <= NPTENTRIES && At(m, key).Some? && At(m, key).value.perm.w
           && |q[key].content| == NPTENTRIES && |q[temp].content| == NPTENTRIES
           && q[key].content[..n] == q[temp].content[..n]
  }

  /** Every mapped page shows as a private one, what is going on included. */
  ghost predicate Raw(w: World, q: Private) {
    && KInv(w.k) && SharesOk(w.k.mem, w.busy) && PlainPages(w.k.mem) && AllShow(w.k.mem, q)
    && (forall key :: key in q ==> |q[key].content| == NPTENTRIES)
    && (forall d :: BusyAt(w.k.mem, w.busy, q, d))
  }

  ghost predicate SameBusy(busy: map<nat, Busy>, busy': map<nat, Busy>, d: nat) {
    (d in busy' <==> d in busy) && (d in busy ==> busy'[d] == busy[d])
  }

  lemma BusyCarries(m: Mem, m': Mem, busy: map<nat, Busy>, busy': map<nat, Busy>, q: Private, q': Private, d: nat)
    requires m.Shape() && m'.Shape() && BusyAt(m, busy, q, d) && SameBusy(busy, busy', d)
    requires forall key: Key :: key.d == d ==> (key in q' <==> key in q) && (key in q ==> q'[key] == q[key])
    requires forall key: Key :: key.d == d ==> At(m', key) == At(m, key)
    ensures BusyAt(m', busy', q', d)
  {
  }

  /** One key changed, no mapped byte, and nothing but what `d` and that key's space are doing. */
  lemma RawOneKey(w: World, w': World, q: Private, q': Private, k0: Key, d: nat)
    requires Raw(w, q) && KInv(w'.k) && SameFlatBut(w.k.mem, w'.k.mem, k0) && SameData(w.k.mem, w'.k.mem)
    requires forall key :: key != k0 ==> (key in q' <==> key in q) && (key in q ==> q'[key] == q[key])
    requires Shows(w'.k.mem, q', k0) && (k0 in q' ==> |q'[k0].content| == NPTENTRIES)
    requires Mapped(w'.k.mem, k0) ==> At(w'.k.mem, k0).value.perm.u && !At(w'.k.mem, k0).value.perm.share
    requires SharesOk(w'.k.mem, w'.busy) && forall x :: x != d && x != k0.d ==> SameBusy(w.busy, w'.busy, x)
    requires BusyAt(w'.k.mem, w'.busy, q', d) && BusyAt(w'.k.mem, w'.busy, q', k0.d)
    ensures Raw(w', q')
  {
    OneKeyShows(w.k.mem, w'.k.mem, q, q', k0);
    forall x ensures BusyAt(w'.k.mem, w'.busy, q', x) {
      if x != d && x != k0.d { BusyCarries(w.k.mem, w'.k.mem, w.busy, w'.busy, q, q', x); }
    }
  }

  /** Nothing that anyone maps has changed. */
  lemma RawSameFlat(w: World, w': World, q: Private)
    requires Raw(w, q) && KInv(w'.k) && w'.busy == w.busy && SameFlat(w.k.mem, w'.k.mem)
    requires w'.k.mem.Size() == w.k.mem.Size()
    requires forall f :: 0 <= f < w.k.mem.Size() && w.k.mem.role[f] == Data ==> w'.k.mem.words[f] == w.k.mem.words[f]
    ensures Raw(w', q)
  {
    var m, m' := w.k.mem, w'.k.mem;
    forall key ensures Shows(m', q, key) {
      assert Shows(m, q, key) && At(m', key) == At(m, key);
      if Mapped(m, key) { AtIsUnique(m, key, At(m, key).value); }
    }
    forall x, y | Mapped(m', x) && Mapped(m', y) && x != y && At(m', x).value.frame == At(m', y).value.frame
      ensures !At(m', x).value.perm.w || Excused(w'.busy, x, y)
    {
      assert At(m', x) == At(m, x) && At(m', y) == At(m, y);
    }
    forall x | Mapped(m', x) ensures At(m', x).value.perm.u && !At(m', x).value.perm.share {
      assert At(m', x) == At(m, x);
    }
    forall d ensures BusyAt(m', w'.busy, q, d) {
      BusyCarries(m, m', w.busy, w'.busy, q, q, d);
    }
  }

  // ---- Every step, one private page at a time

  /** What the step does to the private pages, PFTEMP and half-copied pages included. */
  function RawStep(w: World, q: Private, cur: nat, act: Act): Private
    requires KInv(w.k) && Live(w.k, cur)
  {
    KInvSpaces(w.k);
    var k, d := w.k, w.k.envs[cur].pgdir;
    match act
    case Store(va, idx, word) =>
      var key := KeyAt(d, va);
      if key in q && idx < |q[key].content| then q[key := q[key].(content := q[key].content[idx := word])] else q
    case Alloc(envid, va, perm) =>
      var e := Envid2Env(k, cur, envid, true);
      if SysPageAlloc(k, cur, envid, va, perm).1 == 0 && e.Some?
      then q[KeyOf(k, e.value, va) := Page(ZeroPage(), Owned(perm))] else q
    case Unmap(envid, va) =>
      var e := Envid2Env(k, cur, envid, true);
      if SysPageUnmap(k, cur, envid, va).1 == 0 && e.Some? then q - {KeyOf(k, e.value, va)} else q
    case Exit => ExitPages(q, d)
    case DupMap(childId, va) =>
      var e := Envid2Env(k, cur, childId, true);
      var from := KeyAt(d, va);
      if SysPageMap(k, cur, 0, va, childId, va, DupPerm(Uvpt(k, cur, va).perm)).1 == 0 && e.Some? && from in q
      then q[KeyOf(k, e.value, va) := q[from]] else q
    case FaultView(va) =>
      var from := KeyAt(d, RoundDown(va));
      if SysPageMap(k, cur, 0, RoundDown(va), 0, PFTEMP, PTE_PU).1 == 0 && from in q
      then q[TempOf(d) := Page(q[from].content, false)] else q
    case FaultAlloc =>
      if d in w.busy && SysPageAlloc(k, cur, 0, w.busy[d].va, PTE_PWU).1 == 0
      then q[KeyAt(d, w.busy[d].va) := Page(ZeroPage(), true)] else q
    case FaultCopy =>
      if d in w.busy && w.busy[d].Replacing? then Copied(q, KeyAt(d, w.busy[d].va), TempOf(d), w.busy[d].n) else q
    case FaultUnmap => q - {TempOf(d)}
    case _ => q
  }

  /** Word `n` of page `key` taken over from page `temp`. */
  function Copied(q: Private, key: Key, temp: Key, n: nat): Private {
    if key in q && temp in q && n < |q[key].content| && n < |q[temp].content|
    then q[key := q[key].(content := q[key].content[n := q[temp].content[n]])] else q
  }

  /** A store to a page its environment may write, not on its exception stack. */
  lemma StoreKeepsRaw(w: World, w': World, q: Private, cur: nat, va: nat, idx: nat, word: Word)
    requires Raw(w, q) && Live(w.k, cur) && Spaces(w.k) && va < UTOP && idx < NPTENTRIES
    requires var key := KeyOf(w.k, cur, va);
      && Mapped(w.k.mem, key) && At(w.k.mem, key).value.perm.w
      && (key.d in w.busy && w.busy[key.d].Dupping? ==> KeyAt(key.d, w.busy[key.d].va) != key)
    requires w'.k == WriteWord(w.k, cur, va, idx, word)
    requires KeepsExcuses(w.busy, w'.busy) && forall x :: x != w.k.envs[cur].pgdir ==> SameBusy(w.busy, w'.busy, x)
    requires var key := KeyOf(w.k, cur, va); key in q ==>
      BusyAt(w.k.mem, w'.busy, q[key := q[key].(content := q[key].content[idx := word])], key.d)
    ensures var key := KeyOf(w.k, cur, va);
      key in q && Raw(w', q[key := q[key].(content := q[key].content[idx := word])])
  {
    var key := KeyOf(w.k, cur, va);
    UserVa(va);
    assert Shows(w.k.mem, q, key);
    var m, f := w.k.mem, At(w.k.mem, key).value.frame;
    var page := m.words[f][idx := word];
    AtIsUnique(m, key, At(m, key).value);
    forall x | x != key && Mapped(m, x) ensures At(m, x).value.frame != f {
      SoleMapper(m, w.busy, key, x);
    }
    StoreShows(m, q, key, page);
    StoreKeepsDirs(w.k, f, page);
    StoredRaw(w, w', q, key, page, idx, word);
  }

  lemma StoredRaw(w: World, w': World, q: Private, key: Key, page: seq<Word>, idx: nat, word: Word)
    requires Raw(w, q) && KInv(w'.k) && key in q && Mapped(w.k.mem, key) && idx < NPTENTRIES
    requires At(w.k.mem, key).value.frame < w.k.mem.Size() && page == Content(w.k.mem, key)[idx := word]
    requires w'.k == w.k.(mem := StorePage(w.k.mem, At(w.k.mem, key).value.frame, page)) && SameFlat(w.k.mem, w'.k.mem)
    requires AllShow(w'.k.mem, q[key := q[key].(content := page)])
    requires KeepsExcuses(w.busy, w'.busy) && forall x :: x != key.d ==> SameBusy(w.busy, w'.busy, x)
    requires BusyAt(w.k.mem, w'.busy, q[key := q[key].(content := q[key].content[idx := word])], key.d)
    ensures Raw(w', q[key := q[key].(content := q[key].content[idx := word])])
  {
    var m, m' := w.k.mem, w'.k.mem;
    var q1, q2 := q[key := q[key].(content := page)], q[key := q[key].(content := q[key].content[idx := word])];
    assert Shows(m, q, key);
    forall x ensures Shows(m', q2, x) {
      assert Shows(m', q1, x);
    }
    SharesCarry(m, m', w.busy, w'.busy);
    forall d ensures BusyAt(m', w'.busy, q2, d) {
      if d != key.d {
        BusyCarries(m, m', w.busy, w'.busy, q, q2, d);
      } else {
        BusyCarries(m, m', w'.busy, w'.busy, q2, q2, d);
      }
    }
  }

  lemma SharesCarry(m: Mem, m': Mem, busy: map<nat, Busy>, busy': map<nat, Busy>)
    requires m.Shape() && m'.Shape() && SharesOk(m, busy) && PlainPages(m)
    requires SameFlat(m, m') && KeepsExcuses(busy, busy')
    ensures SharesOk(m', busy') && PlainPages(m')
  {
    forall x, y | Mapped(m', x) && Mapped(m', y) && x != y && At(m', x).value.frame == At(m', y).value.frame
      ensures !At(m', x).value.perm.w || Excused(busy', x, y)
    {
      assert At(m', x) == At(m, x) && At(m', y) == At(m, y);
      assert !At(m, x).value.perm.w || Excused(busy, x, y);
    }
    forall x | Mapped(m', x) ensures At(m', x).value.perm.u && !At(m', x).value.perm.share {
      assert At(m', x) == At(m, x);
    }
  }

  lemma StoreStep(w: World, w': World, q: Private, cur: nat, va: nat, idx: nat, word: Word)
    requires Raw(w, q) && Step(w, w', cur, Act.Store(va, idx, word))
    ensures Raw(w', RawStep(w, q, cur, Act.Store(va, idx, word)))
  {
    UvptIsAt(w.k, cur, va);
    var key := KeyOf(w.k, cur, va);
    assert Shows(w.k.mem, q, key);
    assert BusyAt(w.k.mem, w.busy, q, key.d);
    StoreKeepsRaw(w, w', q, cur, va, idx, word);
  }

  /** The kernel's frame push and the handler's own. */
  lemma PushStep(w: World, w': World, q: Private, cur: nat, stack: seq<Word>)
    requires Raw(w, q) && Step(w, w', cur, Push(stack))
    ensures Raw(w', q)
  {
    var k, m, m' := w.k, w.k.mem, w'.k.mem;
    UvptIsAt(k, cur, EXCEPTION_STACK);
    var key := KeyOf(k, cur, EXCEPTION_STACK);
    assert IsExceptionStack(key) && Shows(m, q, key);
    assert BusyAt(m, w.busy, q, key.d);
    var f := At(m, key).value.frame;
    AtIsUnique(m, key, At(m, key).value);
    forall x | x != key && Mapped(m, x) ensures At(m, x).value.frame != f {
      SoleMapper(m, w.busy, key, x);
    }
    StoreShows(m, q, key, stack);
    StoreKeepsDirs(k, f, stack);
    PushedRaw(w, w', q, key, stack);
  }

  lemma PushedRaw(w: World, w': World, q: Private, key: Key, stack: seq<Word>)
    requires Raw(w, q) && KInv(w'.k) && key in q && Mapped(w.k.mem, key) && IsExceptionStack(key) && w'.busy == w.busy
    requires At(w.k.mem, key).value.frame < w.k.mem.Size() && |stack| == NPTENTRIES
    requires w'.k == w.k.(mem := StorePage(w.k.mem, At(w.k.mem, key).value.frame, stack)) && SameFlat(w.k.mem, w'.k.mem)
    requires AllShow(w'.k.mem, q[key := q[key].(content := stack)])
    ensures Raw(w', q)
  {
    var m, m' := w.k.mem, w'.k.mem;
    forall x ensures Shows(m', q, x) {
      assert Shows(m', q[key := q[key].(content := stack)], x);
    }
    SharesCarry(m, m', w.busy, w'.busy);
    forall d ensures BusyAt(m', w'.busy, q, d) {
      BusyCarries(m, m', w.busy, w'.busy, q, q, d);
    }
  }

  lemma AllocStep(w: World, w': World, q: Private, cur: nat, envid: int, va: nat, perm: Perm)
    requires Raw(w, q) && Step(w, w', cur, Act.Alloc(envid, va, perm))
    ensures Raw(w', RawStep(w, q, cur, Act.Alloc(envid, va, perm)))
  {
    PageAllocCall(w.k, cur, envid, va, perm);
    if SysPageAlloc(w.k, cur, envid, va, perm).1 == 0 {
      AllocSucceeds(w, w', q, cur, envid, va, perm);
    } else {
      RawSameFlat(w, w', q);
    }
  }

  lemma AllocSucceeds(w: World, w': World, q: Private, cur: nat, envid: int, va: nat, perm: Perm)
    requires Raw(w, q) && Live(w.k, cur) && Spaces(w.k) && StillTarget(w, cur, envid) && !perm.share && va != PFTEMP
    requires w'.busy == w.busy && SysPageAlloc(w.k, cur, envid, va, perm) == (w'.k, 0)
    ensures var e := Envid2Env(w.k, cur, envid, true);
      e.Some? && Raw(w', q[KeyOf(w.k, e.value, va) := Page(ZeroPage(), Owned(perm))])
  {
    PageAllocCall(w.k, cur, envid, va, perm);
    var key := KeyOf(w.k, Envid2Env(w.k, cur, envid, true).value, va);
    NotTempKey(key.d, va);
    AllocRaw(w, w', q, key, perm);
  }

  lemma NotTempKey(d: nat, va: nat)
    requires va < UTOP && PgOff(va) == 0 && va != PFTEMP
    ensures KeyAt(d, va) != TempOf(d)
  {
    NotTemp(va);
  }

  /** A fresh zeroed page at `key`, in a space that may have got into something else by it. */
  lemma AllocRaw(w: World, w': World, q: Private, key: Key, perm: Perm)
    requires Raw(w, q) && KInv(w'.k) && SameFlatBut(w.k.mem, w'.k.mem, key) && SameData(w.k.mem, w'.k.mem)
    requires At(w'.k.mem, key).Some? && At(w'.k.mem, key).value.perm == perm && perm.u && !perm.share
    requires Unmapped(w.k.mem, At(w'.k.mem, key).value.frame)
    requires w'.k.mem.words[At(w'.k.mem, key).value.frame] == ZeroPage()
    requires KeepsExcuses(w.busy, w'.busy) && forall x :: x != key.d ==> SameBusy(w.busy, w'.busy, x)
    requires key.d !in w'.busy ==> key.d !in w.busy && key != TempOf(key.d)
    requires key.d in w'.busy ==> BusyAt(w'.k.mem, w'.busy, q[key := Page(ZeroPage(), Owned(perm))], key.d)
    ensures Raw(w', q[key := Page(ZeroPage(), Owned(perm))])
  {
    var q' := q[key := Page(ZeroPage(), Owned(perm))];
    FreshShares(w.k.mem, w'.k.mem, w.busy, w'.busy, key);
    assert BusyAt(w.k.mem, w.busy, q, key.d);
    RawOneKey(w, w', q, q', key, key.d);
  }

  lemma UnmapStep(w: World, w': World, q: Private, cur: nat, envid: int, va: nat)
    requires Raw(w, q) && Step(w, w', cur, Act.Unmap(envid, va))
    ensures Raw(w', RawStep(w, q, cur, Act.Unmap(envid, va)))
  {
    var k := w.k;
    PageUnmapCall(k, cur, envid, va);
    var (k', r) := SysPageUnmap(k, cur, envid, va);
    if r == 0 {
      var key := KeyOf(k, Envid2Env(k, cur, envid, true).value, va);
      FreshShares(k.mem, k'.mem, w.busy, w'.busy, key);
      assert BusyAt(k.mem, w.busy, q, key.d);
      RawOneKey(w, w', q, q - {key}, key, key.d);
    }
  }

  lemma ForkStep(w: World, w': World, q: Private, cur: nat)
    requires Raw(w, q) && Step(w, w', cur, Act.Fork)
    ensures Raw(w', q)
  {
    ExoforkKeeps(w.k, cur);
    RawSameFlat(w, w', q);
  }

  lemma ExitStep(w: World, w': World, q: Private, cur: nat)
    requires Raw(w, q) && Step(w, w', cur, Act.Exit)
    ensures Raw(w', ExitPages(q, w.k.envs[cur].pgdir))
  {
    var k, d := w.k, w.k.envs[cur].pgdir;
    EnvFreeKeeps(k, cur);
    var k' := EnvFree(k, cur);
    var q' := ExitPages(q, d);
    forall key ensures Shows(k'.mem, q', key) {
      ExitShows(k, k', q, q', cur, key);
    }
    ExitShares(k.mem, k'.mem, w.busy, d);
    forall x ensures BusyAt(k'.mem, w'.busy, q', x) {
      if x != d { BusyCarries(k.mem, k'.mem, w.busy, w'.busy, q, q', x); }
    }
  }

  // ---- The steps of duppage and pgfault

  /** The page at `from` mapped a second time, at `to`. */
  lemma AliasRaw(w: World, w': World, q: Private, from: Key, to: Key, perm: Perm)
    requires Raw(w, q) && KInv(w'.k) && HalfDup(w.k.mem, w'.k.mem, from, to, perm) && from != to
    requires !perm.w && perm.u && !perm.share && !IsExceptionStack(from)
    requires from.d !in w.busy && NotInFlight(w.busy, from.d) && KeepsExcuses(w.busy, w'.busy)
    requires At(w.k.mem, from).value.perm.w ==> Excused(w'.busy, from, to)
    requires forall x :: x != from.d && x != to.d ==> SameBusy(w.busy, w'.busy, x)
    requires from in q ==> BusyAt(w'.k.mem, w'.busy, q[to := Page(q[from].content, Owned(perm))], from.d)
    requires from in q ==> BusyAt(w'.k.mem, w'.busy, q[to := Page(q[from].content, Owned(perm))], to.d)
    ensures from in q && Raw(w', q[to := Page(q[from].content, Owned(perm))])
  {
    var m, m' := w.k.mem, w'.k.mem;
    assert Shows(m, q, from);
    AtIsUnique(m, from, At(m, from).value);
    AliasShares(m, m', w.busy, w'.busy, from, to, perm);
    AliasShown(m, m', q, from, to, perm);
    RawOneKey(w, w', q, q[to := Page(q[from].content, Owned(perm))], to, from.d);
  }

  lemma AliasShown(m: Mem, m': Mem, q: Private, from: Key, to: Key, perm: Perm)
    requires Inv(m, NO_PAGE) && m'.Shape() && AllShow(m, q) && HalfDup(m, m', from, to, perm) && !IsExceptionStack(from)
    ensures from in q && Shows(m', q[to := Page(q[from].content, Owned(perm))], to)
  {
    assert Shows(m, q, from);
    AtIsUnique(m, from, At(m, from).value);
  }

  lemma DupMapStep(w: World, w': World, q: Private, cur: nat, childId: int, va: nat)
    requires Raw(w, q) && Step(w, w', cur, DupMap(childId, va))
    ensures Raw(w', RawStep(w, q, cur, DupMap(childId, va)))
  {
    var k := w.k;
    UvptIsAt(k, cur, va);
    StackIsNotExceptionStack(k, cur, va);
    var perm := Uvpt(k, cur, va).perm;
    var child := Envid2Env(k, cur, childId, true).value;
    assert Live(k, child);
    MapOwnPage(k, cur, va, childId, va, DupPerm(perm));
    if SysPageMap(k, cur, 0, va, childId, va, DupPerm(perm)).1 == 0 {
      DupMapped(w, w', q, KeyOf(k, cur, va), KeyOf(k, child, va), va, perm);
    }
  }

  lemma DupMapped(w: World, w': World, q: Private, from: Key, to: Key, va: nat, perm: Perm)
    requires Raw(w, q) && KInv(w'.k) && HalfDup(w.k.mem, w'.k.mem, from, to, DupPerm(perm))
    requires from == KeyAt(from.d, va) && to == KeyAt(to.d, va) && from.d != to.d && va < UTOP && PgOff(va) == 0
    requires At(w.k.mem, from).value.perm == perm && !IsExceptionStack(from)
    requires Still(w.busy, from.d) && Still(w.busy, to.d)
    requires w'.busy == if perm.w || perm.cow then w.busy[from.d := Dupping(va, to)] else w.busy
    ensures from in q && Raw(w', q[to := q[from]])
  {
    assert Shows(w.k.mem, q, from);
    assert BusyAt(w.k.mem, w.busy, q, from.d) && BusyAt(w.k.mem, w.busy, q, to.d);
    assert q[from] == Page(q[from].content, Owned(DupPerm(perm)));
    assert from != TempOf(from.d);
    AliasRaw(w, w', q, from, to, DupPerm(perm));
  }

  lemma DupRemapStep(w: World, w': World, q: Private, cur: nat)
    requires Raw(w, q) && Step(w, w', cur, DupRemap)
    ensures Raw(w', q)
  {
    var k, d := w.k, w.k.envs[cur].pgdir;
    assert BusyAt(k.mem, w.busy, q, d);
    var va := w.busy[d].va;
    MapOwnPage(k, cur, va, 0, va, PTE_COW_PU);
    if SysPageMap(k, cur, 0, va, 0, va, PTE_COW_PU).1 == 0 {
      Remapped(w, w', q, KeyOf(k, cur, va), va);
    }
  }

  lemma Remapped(w: World, w': World, q: Private, from: Key, va: nat)
    requires Raw(w, q) && KInv(w'.k) && from == KeyAt(from.d, va) && from.d in w.busy
    requires w.busy[from.d].Dupping? && w.busy[from.d].va == va && w'.busy == w.busy - {from.d}
    requires Mapped(w.k.mem, from) && SameFlatBut(w.k.mem, w'.k.mem, from) && SameData(w.k.mem, w'.k.mem)
    requires At(w'.k.mem, from) == Some(Word(At(w.k.mem, from).value.frame, PTE_COW_PU))
    ensures Raw(w', q)
  {
    assert BusyAt(w.k.mem, w.busy, q, from.d);
    assert Shows(w.k.mem, q, from);
    AtIsUnique(w.k.mem, from, At(w.k.mem, from).value);
    RemapShares(w.k.mem, w'.k.mem, w.busy, from);
    RawOneKey(w, w', q, q, from, from.d);
  }

  lemma FaultViewStep(w: World, w': World, q: Private, cur: nat, va: nat)
    requires Raw(w, q) && Step(w, w', cur, FaultView(va))
    ensures Raw(w', RawStep(w, q, cur, FaultView(va)))
  {
    var k, addr := w.k, RoundDown(va);
    FaultingPage(k, cur, va);
    MapOwnPage(k, cur, addr, 0, PFTEMP, PTE_PU);
    if SysPageMap(k, cur, 0, addr, 0, PFTEMP, PTE_PU).1 == 0 {
      Viewed(w, w', q, KeyOf(k, cur, addr), addr);
    }
  }

  /** The page pgfault copies. */
  lemma FaultingPage(k: Kernel, cur: nat, va: nat)
    requires KInv(k) && Live(k, cur) && Spaces(k) && va < UTOP
    requires Uvpt(k, cur, va).perm.cow && !Uvpt(k, cur, va).perm.w && CanFault(k, cur)
    ensures var addr := RoundDown(va); var key := KeyOf(k, cur, addr);
      && addr < UTOP && PgOff(addr) == 0 && key == KeyOf(k, cur, va) && !IsExceptionStack(key)
      && At(k.mem, key).Some? && At(k.mem, key).value.perm.cow && !At(k.mem, key).value.perm.w
  {
    UvptIsAt(k, cur, va);
    UvptIsAt(k, cur, EXCEPTION_STACK);
    PageOfFault(va);
    OffStack(k, cur, KeyOf(k, cur, va));
  }

  lemma PageOfFault(va: nat)
    requires va < UTOP
    ensures RoundDown(va) < UTOP && PgOff(RoundDown(va)) == 0
    ensures Pdx(RoundDown(va)) == Pdx(va) && Ptx(RoundDown(va)) == Ptx(va)
  {
    RoundDownIndices(va);
  }

  /** A read-only page is not the writable exception stack. */
  lemma OffStack(k: Kernel, cur: nat, key: Key)
    requires k.Shape() && cur < NENV && key.d == k.envs[cur].pgdir && Mapped(k.mem, key) && !At(k.mem, key).value.perm.w
    requires Mapped(k.mem, KeyOf(k, cur, EXCEPTION_STACK)) && At(k.mem, KeyOf(k, cur, EXCEPTION_STACK)).value.perm.w
    ensures !IsExceptionStack(key)
  {
    assert IsExceptionStack(KeyOf(k, cur, EXCEPTION_STACK));
  }

  lemma Viewed(w: World, w': World, q: Private, from: Key, addr: nat)
    requires Raw(w, q) && KInv(w'.k) && HalfDup(w.k.mem, w'.k.mem, from, TempOf(from.d), PTE_PU)
    requires from == KeyAt(from.d, addr) && addr < UTOP && PgOff(addr) == 0 && !IsExceptionStack(from)
    requires At(w.k.mem, from).value.perm.cow && !At(w.k.mem, from).value.perm.w && Still(w.busy, from.d)
    requires w'.busy == w.busy[from.d := Viewing(addr)]
    ensures from in q && Raw(w', q[TempOf(from.d) := Page(q[from].content, false)])
  {
    assert Shows(w.k.mem, q, from);
    assert BusyAt(w.k.mem, w.busy, q, from.d);
    assert from != TempOf(from.d);
    AliasRaw(w, w', q, from, TempOf(from.d), PTE_PU);
  }

  lemma FaultAllocStep(w: World, w': World, q: Private, cur: nat)
    requires Raw(w, q) && Step(w, w', cur, FaultAlloc)
    ensures Raw(w', RawStep(w, q, cur, FaultAlloc))
  {
    var k, d := w.k, w.k.envs[cur].pgdir;
    assert BusyAt(k.mem, w.busy, q, d);
    var va := w.busy[d].va;
    PageAllocCall(k, cur, 0, va, PTE_PWU);
    if SysPageAlloc(k, cur, 0, va, PTE_PWU).1 == 0 {
      Allocated(w, w', q, KeyOf(k, cur, va), va);
    } else {
      RawSameFlat(w, w', q);
    }
  }

  lemma Allocated(w: World, w': World, q: Private, key: Key, va: nat)
    requires Raw(w, q) && KInv(w'.k) && SameFlatBut(w.k.mem, w'.k.mem, key) && SameData(w.k.mem, w'.k.mem)
    requires key.d in w.busy && w.busy[key.d] == Viewing(va) && key == KeyAt(key.d, va)
    requires w'.busy == w.busy[key.d := Replacing(va, 0)]
    requires At(w'.k.mem, key).Some? && At(w'.k.mem, key).value.perm == PTE_PWU
    requires Unmapped(w.k.mem, At(w'.k.mem, key).value.frame)
    requires w'.k.mem.words[At(w'.k.mem, key).value.frame] == ZeroPage()
    ensures Raw(w', q[key := Page(ZeroPage(), true)])
  {
    assert BusyAt(w.k.mem, w.busy, q, key.d);
    AllocRaw(w, w', q, key, PTE_PWU);
  }

  lemma FaultCopyStep(w: World, w': World, q: Private, cur: nat)
    requires Raw(w, q) && Step(w, w', cur, FaultCopy)
    ensures Raw(w', RawStep(w, q, cur, FaultCopy))
  {
    var k, d := w.k, w.k.envs[cur].pgdir;
    assert BusyAt(k.mem, w.busy, q, d);
    var va, n := w.busy[d].va, w.busy[d].n;
    TempShows(w, q, cur, n);
    OneMoreWord(w, w', q, d, va, n);
    StoreKeepsRaw(w, w', q, cur, va, n, TempWord(k, cur, n));
  }

  /** The handler reads the word of the old page. */
  lemma TempShows(w: World, q: Private, cur: nat, n: nat)
    requires Raw(w, q) && Live(w.k, cur) && Spaces(w.k) && n < NPTENTRIES && TempOf(w.k.envs[cur].pgdir) in q
    ensures |q[TempOf(w.k.envs[cur].pgdir)].content| == NPTENTRIES
    ensures TempWord(w.k, cur, n) == q[TempOf(w.k.envs[cur].pgdir)].content[n]
  {
    UserVa(PFTEMP);
    assert Shows(w.k.mem, q, TempOf(w.k.envs[cur].pgdir));
  }

  lemma OneMoreWord(w: World, w': World, q: Private, d: nat, va: nat, n: nat)
    requires w.k.Shape() && d in w.busy && w.busy[d] == Replacing(va, n)
    requires n < NPTENTRIES && BusyAt(w.k.mem, w.busy, q, d)
    requires w'.busy == w.busy[d := Replacing(va, n + 1)]
    ensures BusyAt(w.k.mem, w'.busy, Copied(q, KeyAt(d, va), TempOf(d), n), d)
  {
    var key, temp := KeyAt(d, va), TempOf(d);
    var q' := Copied(q, key, temp, n);
    assert q'[key].content[..n + 1] == q[key].content[..n] + [q[temp].content[n]];
    assert q[temp].content[..n + 1] == q[temp].content[..n] + [q[temp].content[n]];
  }

  lemma FaultUnmapStep(w: World, w': World, q: Private, cur: nat)
    requires Raw(w, q) && Step(w, w', cur, FaultUnmap)
    ensures Raw(w', q - {TempOf(w.k.envs[cur].pgdir)})
  {
    var k, d := w.k, w.k.envs[cur].pgdir;
    assert BusyAt(k.mem, w.busy, q, d);
    PageUnmapCall(k, cur, 0, PFTEMP);
    Unviewed(w, w', q, d);
  }

  lemma Unviewed(w: World, w': World, q: Private, d: nat)
    requires Raw(w, q) && KInv(w'.k) && d in w.busy && w.busy[d].Replacing? && w'.busy == w.busy - {d}
    requires SameFlatBut(w.k.mem, w'.k.mem, TempOf(d)) && SameData(w.k.mem, w'.k.mem) && At(w'.k.mem, TempOf(d)) == None
    ensures Raw(w', q - {TempOf(d)})
  {
    FreshShares(w.k.mem, w'.k.mem, w.busy, w'.busy, TempOf(d));
    RawOneKey(w, w', q, q - {TempOf(d)}, TempOf(d), d);
  }

  /** Every step, of whichever environment, keeps the relation with the private pages. */
  lemma StepKeepsRaw(w: World, w': World, q: Private, cur: nat, act: Act)
    requires Raw(w, q) && Step(w, w', cur, act)
    ensures Raw(w', RawStep(w, q, cur, act))
  {
    match act
    case Store(va, idx, word) => StoreStep(w, w', q, cur, va, idx, word);
    case Push(stack) => PushStep(w, w', q, cur, stack);
    case Alloc(envid, va, perm) => AllocStep(w, w', q, cur, envid, va, perm);
    case Unmap(envid, va) => UnmapStep(w, w', q, cur, envid, va);
    case Fork => ForkStep(w, w', q, cur);
    case Exit => ExitStep(w, w', q, cur);
    case Other(next) => RawSameFlat(w, w', q);
    case DupMap(childId, va) => DupMapStep(w, w', q, cur, childId, va);
    case DupRemap => DupRemapStep(w, w', q, cur);
    case FaultView(va) => FaultViewStep(w, w', q, cur, va);
    case FaultAlloc => FaultAllocStep(w, w', q, cur);
    case FaultCopy => FaultCopyStep(w, w', q, cur);
    case FaultUnmap => FaultUnmapStep(w, w', q, cur);
  }

  // ---- What programs see: the steps of duppage and pgfault seen from outside

  /** PFTEMP, while the handler uses it. */
  predicate Hidden(busy: map<nat, Busy>, key: Key) {
    key.d in busy && !busy[key.d].Dupping? && key == TempOf(key.d)
  }

  /** The page the handler is replacing. */
  predicate Underway(busy: map<nat, Busy>, key: Key) {
    key.d in busy && busy[key.d].Replacing? && key == KeyAt(key.d, busy[key.d].va)
  }

  function SettledPage(q: Private, busy: map<nat, Busy>, key: Key): Page
    requires key in q
  {
    if Underway(busy, key) && TempOf(key.d) in q then Page(q[TempOf(key.d)].content, true) else q[key]
  }

  /** The private memories as they stand for the programs: a page being replaced still reads as the old one. */
  function Settle(q: Private, busy: map<nat, Busy>): Private {
    map key | key in q && !Hidden(busy, key) :: SettledPage(q, busy, key)
  }

  /** The second map of duppage, and all of pgfault. */
  predicate Unseen(act: Act) {
    act.DupRemap? || act.FaultView? || act.FaultAlloc? || act.FaultCopy? || act.FaultUnmap?
  }

  /** The step on private memories: duppage copies the page at once, pgfault does nothing. */
  function PrivateStep(w: World, p: Private, cur: nat, act: Act): Private
    requires KInv(w.k) && Live(w.k, cur)
  {
    if Unseen(act) then p
    else RawStep(w, p, cur, act)
  }

  lemma SettlePut(q: Private, busy: map<nat, Busy>, key: Key, page: Page)
    requires key.d !in busy
    ensures Settle(q[key := page], busy) == Settle(q, busy)[key := page]
  {
  }

  lemma SettleDrop(q: Private, busy: map<nat, Busy>, key: Key)
    requires key.d !in busy
    ensures Settle(q - {key}, busy) == Settle(q, busy) - {key}
  {
  }

  /** Nothing hides or replaces a page of a space where nothing is going on. */
  lemma SettledStill(q: Private, busy: map<nat, Busy>, key: Key)
    requires key.d !in busy
    ensures key in Settle(q, busy) <==> key in q
    ensures key in q ==> Settle(q, busy)[key] == q[key]
  {
  }

  lemma SettleExit(q: Private, busy: map<nat, Busy>, d: nat)
    ensures Settle(ExitPages(q, d), busy - {d}) == ExitPages(Settle(q, busy), d)
  {
  }

  /** A duppage under way hides nothing. */
  lemma SettleDupping(q: Private, busy: map<nat, Busy>, busy': map<nat, Busy>, d: nat)
    requires forall x :: x != d ==> SameBusy(busy, busy', x)
    requires (d in busy ==> busy[d].Dupping?) && (d in busy' ==> busy'[d].Dupping?)
    ensures Settle(q, busy') == Settle(q, busy)
  {
    forall key ensures Hidden(busy', key) == Hidden(busy, key) && Underway(busy', key) == Underway(busy, key) {
      assert key.d != d ==> SameBusy(busy, busy', key.d);
    }
  }

  lemma SettleViewing(m: Mem, q: Private, busy: map<nat, Busy>, d: nat, va: nat, page: Page)
    requires m.Shape() && d !in busy && BusyAt(m, busy, q, d)
    ensures Settle(q[TempOf(d) := page], busy[d := Viewing(va)]) == Settle(q, busy)
  {
    var q', busy' := q[TempOf(d) := page], busy[d := Viewing(va)];
    forall key | key in q && key.d != d
      ensures Hidden(busy', key) == Hidden(busy, key) && SettledPage(q', busy', key) == SettledPage(q, busy, key)
    {
    }
  }

  lemma SettleAllocated(m: Mem, q: Private, busy: map<nat, Busy>, d: nat, va: nat)
    requires m.Shape() && d in busy && busy[d] == Viewing(va) && BusyAt(m, busy, q, d)
    ensures Settle(q[KeyAt(d, va) := Page(ZeroPage(), true)], busy[d := Replacing(va, 0)]) == Settle(q, busy)
  {
    var key, q', busy' := KeyAt(d, va), q[KeyAt(d, va) := Page(ZeroPage(), true)], busy[d := Replacing(va, 0)];
    assert SettledPage(q', busy', key) == q[key];
    forall x | x in q && x != key
      ensures Hidden(busy', x) == Hidden(busy, x) && SettledPage(q', busy', x) == SettledPage(q, busy, x)
    {
    }
  }

  lemma SettleCopied(m: Mem, q: Private, busy: map<nat, Busy>, d: nat, va: nat, n: nat)
    requires m.Shape() && d in busy && busy[d] == Replacing(va, n) && n < NPTENTRIES && BusyAt(m, busy, q, d)
    ensures Settle(Copied(q, KeyAt(d, va), TempOf(d), n), busy[d := Replacing(va, n + 1)]) == Settle(q, busy)
  {
    var key, q', busy' := KeyAt(d, va), Copied(q, KeyAt(d, va), TempOf(d), n), busy[d := Replacing(va, n + 1)];
    forall x | x in q
      ensures Hidden(busy', x) == Hidden(busy, x) && SettledPage(q', busy', x) == SettledPage(q, busy, x)
    {
    }
  }

  lemma SettleUnmapped(m: Mem, q: Private, busy: map<nat, Busy>, d: nat, va: nat)
    requires m.Shape() && d in busy && busy[d] == Replacing(va, NPTENTRIES) && BusyAt(m, busy, q, d)
    ensures Settle(q - {TempOf(d)}, busy - {d}) == Settle(q, busy)
  {
    var key, temp, q', busy' := KeyAt(d, va), TempOf(d), q - {TempOf(d)}, busy - {d};
    assert q[key].content == q[key].content[..NPTENTRIES] == q[temp].content[..NPTENTRIES] == q[temp].content;
    assert SettledPage(q, busy, key) == q[key];
    forall x | x in q && x != temp
      ensures Hidden(busy', x) == Hidden(busy, x) && SettledPage(q', busy', x) == SettledPage(q, busy, x)
    {
    }
  }

  lemma ViewingIsHidden(w: World, w': World, q: Private, cur: nat, va: nat)
    requires Raw(w, q) && Step(w, w', cur, FaultView(va))
    ensures Settle(RawStep(w, q, cur, FaultView(va)), w'.busy) == Settle(q, w.busy)
  {
    var d := w.k.envs[cur].pgdir;
    assert BusyAt(w.k.mem, w.busy, q, d);
    FaultingPage(w.k, cur, va);
    var from := KeyAt(d, RoundDown(va));
    assert Shows(w.k.mem, q, from);
    if w'.busy != w.busy { SettleViewing(w.k.mem, q, w.busy, d, RoundDown(va), Page(q[from].content, false)); }
  }

  lemma AllocatingIsHidden(w: World, w': World, q: Private, cur: nat)
    requires Raw(w, q) && Step(w, w', cur, FaultAlloc)
    ensures Settle(RawStep(w, q, cur, FaultAlloc), w'.busy) == Settle(q, w.busy)
  {
    var d := w.k.envs[cur].pgdir;
    if w'.busy != w.busy { SettleAllocated(w.k.mem, q, w.busy, d, w.busy[d].va); }
  }

  lemma CopyingIsHidden(w: World, w': World, q: Private, cur: nat)
    requires Raw(w, q) && Step(w, w', cur, FaultCopy)
    ensures Settle(RawStep(w, q, cur, FaultCopy), w'.busy) == Settle(q, w.busy)
  {
    var d := w.k.envs[cur].pgdir;
    SettleCopied(w.k.mem, q, w.busy, d, w.busy[d].va, w.busy[d].n);
  }

  lemma UnmappingIsHidden(w: World, w': World, q: Private, cur: nat)
    requires Raw(w, q) && Step(w, w', cur, FaultUnmap)
    ensures Settle(RawStep(w, q, cur, FaultUnmap), w'.busy) == Settle(q, w.busy)
  {
    var d := w.k.envs[cur].pgdir;
    SettleUnmapped(w.k.mem, q, w.busy, d, w.busy[d].va);
  }

  lemma RemapIsHidden(w: World, w': World, q: Private, cur: nat)
    requires Raw(w, q) && Step(w, w', cur, DupRemap)
    ensures Settle(RawStep(w, q, cur, DupRemap), w'.busy) == Settle(q, w.busy)
  {
    SettleDupping(q, w.busy, w'.busy, w.k.envs[cur].pgdir);
  }

  lemma StoreIsSeen(w: World, w': World, q: Private, cur: nat, va: nat, idx: nat, word: Word)
    requires Raw(w, q) && Step(w, w', cur, Act.Store(va, idx, word))
    ensures Settle(RawStep(w, q, cur, Act.Store(va, idx, word)), w'.busy) ==
      RawStep(w, Settle(q, w.busy), cur, Act.Store(va, idx, word))
  {
    var key := KeyAt(w.k.envs[cur].pgdir, va);
    SettledStill(q, w.busy, key);
    if key in q && idx < |q[key].content| {
      SettlePut(q, w.busy, key, q[key].(content := q[key].content[idx := word]));
    }
  }

  lemma AllocIsSeen(w: World, w': World, q: Private, cur: nat, envid: int, va: nat, perm: Perm)
    requires Raw(w, q) && Step(w, w', cur, Act.Alloc(envid, va, perm))
    ensures Settle(RawStep(w, q, cur, Act.Alloc(envid, va, perm)), w'.busy) ==
      RawStep(w, Settle(q, w.busy), cur, Act.Alloc(envid, va, perm))
  {
    var e := Envid2Env(w.k, cur, envid, true);
    if e.Some? { SettlePut(q, w.busy, KeyOf(w.k, e.value, va), Page(ZeroPage(), Owned(perm))); }
  }

  lemma UnmapIsSeen(w: World, w': World, q: Private, cur: nat, envid: int, va: nat)
    requires Raw(w, q) && Step(w, w', cur, Act.Unmap(envid, va))
    ensures Settle(RawStep(w, q, cur, Act.Unmap(envid, va)), w'.busy) ==
      RawStep(w, Settle(q, w.busy), cur, Act.Unmap(envid, va))
  {
    var e := Envid2Env(w.k, cur, envid, true);
    if e.Some? { SettleDrop(q, w.busy, KeyOf(w.k, e.value, va)); }
  }

  lemma DupMapIsSeen(w: World, w': World, q: Private, cur: nat, childId: int, va: nat)
    requires Raw(w, q) && Step(w, w', cur, DupMap(childId, va))
    ensures Settle(RawStep(w, q, cur, DupMap(childId, va)), w'.busy) ==
      RawStep(w, Settle(q, w.busy), cur, DupMap(childId, va))
  {
    var d := w.k.envs[cur].pgdir;
    var from, to := KeyAt(d, va), KeyOf(w.k, Envid2Env(w.k, cur, childId, true).value, va);
    SettledStill(q, w.busy, from);
    if from in q { SettlePut(q, w.busy, to, q[from]); }
    SettleDupping(RawStep(w, q, cur, DupMap(childId, va)), w.busy, w'.busy, d);
  }

  /** The steps of pgfault and the second map of duppage are invisible ... */
  lemma HiddenStep(w: World, w': World, q: Private, cur: nat, act: Act)
    requires Raw(w, q) && Step(w, w', cur, act)
    requires Unseen(act)
    ensures Settle(RawStep(w, q, cur, act), w'.busy) == Settle(q, w.busy)
  {
    match act
    case DupRemap => RemapIsHidden(w, w', q, cur);
    case FaultView(va) => ViewingIsHidden(w, w', q, cur, va);
    case FaultAlloc => AllocatingIsHidden(w, w', q, cur);
    case FaultCopy => CopyingIsHidden(w, w', q, cur);
    case FaultUnmap => UnmappingIsHidden(w, w', q, cur);
  }

  /** ... and the others are what they would be on private memories. */
  lemma SeenStep(w: World, w': World, q: Private, cur: nat, act: Act)
    requires Raw(w, q) && Step(w, w', cur, act)
    requires !Unseen(act)
    ensures Settle(RawStep(w, q, cur, act), w'.busy) == RawStep(w, Settle(q, w.busy), cur, act)
  {
    match act
    case Store(va, idx, word) => StoreIsSeen(w, w', q, cur, va, idx, word);
    case Alloc(envid, va, perm) => AllocIsSeen(w, w', q, cur, envid, va, perm);
    case Unmap(envid, va) => UnmapIsSeen(w, w', q, cur, envid, va);
    case Exit => SettleExit(q, w.busy, w.k.envs[cur].pgdir);
    case DupMap(childId, va) => DupMapIsSeen(w, w', q, cur, childId, va);
    case _ => PageStateStays(w, w', q, cur, act);
  }

  lemma PageStateStays(w: World, w': World, q: Private, cur: nat, act: Act)
    requires Raw(w, q) && Step(w, w', cur, act) && (act.Push? || act.Fork? || act.Other?)
    ensures Settle(RawStep(w, q, cur, act), w'.busy) == RawStep(w, Settle(q, w.busy), cur, act)
  {
  }

  // ---- Whole runs

  /** `p` is what the programs of `w` see: each page a copy of its own. */
  ghost predicate Shown(w: World, p: Private) {
    exists q :: Raw(w, q) && p == Settle(q, w.busy)
  }

  /** Every single step of any environment is that step on private memories, or nothing. */
  lemma StepRefines(w: World, w': World, p: Private, cur: nat, act: Act)
    requires Shown(w, p) && Step(w, w', cur, act)
    ensures Shown(w', PrivateStep(w, p, cur, act))
  {
    var q :| Raw(w, q) && p == Settle(q, w.busy);
    StepKeepsRaw(w, w', q, cur, act);
    if Unseen(act) {
      HiddenStep(w, w', q, cur, act);
    } else {
      SeenStep(w, w', q, cur, act);
    }
  }

  datatype Turn = Turn(cur: nat, act: Act)

  ghost predicate ThreadRun(ws: seq<World>, turns: seq<Turn>) {
    |ws| == |turns| + 1 && forall n :: 0 <= n < |turns| ==> Step(ws[n], ws[n + 1], turns[n].cur, turns[n].act)
  }

  /** `ps` is the run that the same turns make on private memories. */
  ghost predicate PrivateRun(ws: seq<World>, turns: seq<Turn>, ps: seq<Private>) {
    && |ps| == |turns| + 1 && |ws| == |turns| + 1
    && forall n :: 0 <= n < |turns| ==> PrivateTurn(ws[n], ps[n], ps[n + 1], turns[n])
  }

  ghost predicate PrivateTurn(w: World, p: Private, p': Private, turn: Turn) {
    KInv(w.k) && Live(w.k, turn.cur) && p' == PrivateStep(w, p, turn.cur, turn.act)
  }

  /**
   Copy-on-write refines eager copying under every interleaving of system calls: over any run
   in which environments store, fault, allocate, unmap, fork and exit, each call of duppage
   and pgfault a step of its own and the steps of different environments in any order, every
   environment sees on every page what it would see had fork copied each page at once and
   were all memories private.
   */
  lemma {:induction false} CowRefinesPrivate(ws: seq<World>, turns: seq<Turn>, ps: seq<Private>, n: nat)
    requires ThreadRun(ws, turns) && PrivateRun(ws, turns, ps) && Shown(ws[0], ps[0]) && n < |ws|
    ensures Shown(ws[n], ps[n])
  {
    if n > 0 {
      CowRefinesPrivate(ws, turns, ps, n - 1);
      TurnRefines(ws, turns, ps, n - 1);
    }
  }

  lemma TurnRefines(ws: seq<World>, turns: seq<Turn>, ps: seq<Private>, n: nat)
    requires ThreadRun(ws, turns) && PrivateRun(ws, turns, ps) && n < |turns| && Shown(ws[n], ps[n])
    ensures Shown(ws[n + 1], ps[n + 1])
  {
    assert Step(ws[n], ws[n + 1], turns[n].cur, turns[n].act);
    assert PrivateTurn(ws[n], ps[n], ps[n + 1], turns[n]);
    StepRefines(ws[n], ws[n + 1], ps[n], turns[n].cur, turns[n].act);
  }

  /** At every point of such a run a writable frame is mapped once, or twice within one duppage. */
  lemma WritersAreAlone(ws: seq<World>, turns: seq<Turn>, ps: seq<Private>, n: nat, x: Key, y: Key)
    requires ThreadRun(ws, turns) && PrivateRun(ws, turns, ps) && Shown(ws[0], ps[0]) && n < |ws|
    ensures ws[n].k.Shape() && Alone(ws[n], x, y)
  {
    CowRefinesPrivate(ws, turns, ps, n);
    var q :| Raw(ws[n], q) && ps[n] == Settle(q, ws[n].busy);
  }

  /** If `x` may be written, `y` maps another frame, or is the copy that a duppage of `x` has just made. */
  ghost predicate Alone(w: World, x: Key, y: Key)
    requires w.k.Shape()
  {
    var m := w.k.mem;
    Mapped(m, x) && Mapped(m, y) && x != y && At(m, x).value.perm.w ==>
      At(m, x).value.frame != At(m, y).value.frame || Excused(w.busy, x, y)
  }

  /** What a load returns after any such run, in a space whose handler is not at work. */
  lemma ReadsAgree(ws: seq<World>, turns: seq<Turn>, ps: seq<Private>, n: nat, key: Key, idx: nat)
    requires ThreadRun(ws, turns) && PrivateRun(ws, turns, ps) && Shown(ws[0], ps[0])
    requires n < |ws| && idx < NPTENTRIES && !IsExceptionStack(key)
    requires key.d in ws[n].busy ==> ws[n].busy[key.d].Dupping?
    ensures var m, p := ws[n].k.mem, ps[n];
      && m.Shape() && (Mapped(m, key) <==> key in p)
      && (key in p ==> |p[key].content| == NPTENTRIES && Content(m, key)[idx] == p[key].content[idx]
                       && p[key].writable == Owned(At(m, key).value.perm))
  {
    CowRefinesPrivate(ws, turns, ps, n);
    var q :| Raw(ws[n], q) && ps[n] == Settle(q, ws[n].busy);
    assert Shows(ws[n].k.mem, q, key);
  }

  /** The state that such runs start from: ordinary user pages, each writable frame mapped once, PFTEMP unused. */
  lemma ViewIsShown(k: Kernel)
    requires KInv(k) && SingleWriter(k.mem) && PlainPages(k.mem) && TempFree(k.mem)
    ensures Shown(World(k, map[]), PrivateView(k.mem))
  {
    var p := PrivateView(k.mem);
    ViewIsRelated(k);
    forall d ensures BusyAt(k.mem, map[], p, d) {
      assert IsTemp(TempOf(d)) && Shows(k.mem, p, TempOf(d));
    }
    assert Raw(World(k, map[]), p);
    SettleNothing(p);
  }

  lemma SettleNothing(p: Private)
    ensures Settle(p, map[]) == p
  {
  }
}
