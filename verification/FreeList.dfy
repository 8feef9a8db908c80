/**
 The intrusive free list of kern/pmap.c, a chain of pp_link fields, and the partition of it
 in check_page_free_list (kern/pmap.c:698-711): pages of the first 4MB to the front, by
 relinking through two tail pointers.
 */
module FreeList {
  import opened Layout

  /** The null pointer of a pp_link field. */
  const NULL: int := -1

  // ---- The intrusive free list

  /** Following pp_link from `head` visits `free` in order; pages off the list have a null link. */
  ghost predicate Chain(head: int, link: seq<int>, free: seq<nat>) {
    && (forall a :: 0 <= a < |free| ==> free[a] < |link|)
    && (forall a, b :: 0 <= a < b < |free| ==> free[a] != free[b])
    && head == At0(free, 0)
    && (forall a :: 0 <= a < |free| ==> link[free[a]] == At0(free, a + 1))
    && (forall f :: 0 <= f < |link| && f !in free ==> link[f] == NULL)
  }

  /** Element `a`, or null past the end. */
  ghost function At0(free: seq<nat>, a: nat): int {
    if a < |free| then free[a] else NULL
  }

  lemma ChainPop(head: int, link: seq<int>, free: seq<nat>)
    requires Chain(head, link, free) && free != []
    ensures head == free[0] && head < |link| && Chain(link[head], link[head := NULL], free[1..])
  {
    var rest := free[1..];
    var link' := link[head := NULL];
    forall a | 0 <= a < |rest| ensures link'[rest[a]] == At0(rest, a + 1) {
      PopKeepsLink(head, link, free, a);
    }
    forall f | 0 <= f < |link| && f !in rest ensures link'[f] == NULL {
      PopClears(head, link, free, f);
    }
    forall a, b | 0 <= a < b < |rest| ensures rest[a] != rest[b] {
      assert rest[a] == free[a + 1] && rest[b] == free[b + 1];
    }
  }

  lemma PopKeepsLink(head: int, link: seq<int>, free: seq<nat>, a: nat)
    requires Chain(head, link, free) && free != [] && a < |free| - 1
    ensures 0 <= head < |link| && link[head := NULL][free[1..][a]] == At0(free[1..], a + 1)
  {
    assert free[1..][a] == free[a + 1] && free[a + 1] != free[0];
  }

  lemma PopClears(head: int, link: seq<int>, free: seq<nat>, f: nat)
    requires Chain(head, link, free) && free != [] && f < |link| && f !in free[1..]
    ensures 0 <= head < |link| && link[head := NULL][f] == NULL
  {
    if f != head { NotInTail(free, f); }
  }

  lemma NotInTail(free: seq<nat>, f: nat)
    requires free != [] && f != free[0] && f !in free[1..]
    ensures f !in free
  {
    assert free == [free[0]] + free[1..];
  }

  /** Element by element of the longer list. */
  lemma PushedAt(head: int, link: seq<int>, free: seq<nat>, f: nat, a: nat)
    requires Chain(head, link, free) && f < |link| && f !in free && a <= |free|
    ensures ([f] + free)[a] < |link| && link[f := head][([f] + free)[a]] == At0([f] + free, a + 1)
  {
    var more := [f] + free;
    if a == 0 {
      assert more[0] == f && At0(more, 1) == At0(free, 0);
    } else {
      assert more[a] == free[a - 1] && At0(more, a + 1) == At0(free, a);
    }
  }

  lemma ChainPush(head: int, link: seq<int>, free: seq<nat>, f: nat)
    requires Chain(head, link, free) && f < |link| && f !in free
    ensures Chain(f, link[f := head], [f] + free)
  {
    var more := [f] + free;
    var link' := link[f := head];
    forall a | 0 <= a < |more| ensures more[a] < |link'| && link'[more[a]] == At0(more, a + 1) {
      PushedAt(head, link, free, f, a);
    }
    forall g | 0 <= g < |link| && g !in more ensures link'[g] == NULL {
      NotPushed(free, f, g);
    }
    forall a, b | 0 <= a < b < |more| ensures more[a] != more[b] {
      assert more[b] == free[b - 1] && (a > 0 ==> more[a] == free[a - 1]);
    }
  }

  lemma NotPushed(free: seq<nat>, f: nat, g: nat)
    requires g !in [f] + free
    ensures g != f && g !in free
  {
    assert ([f] + free)[0] == f;
  }

  /** One more page, not on the list. */
  lemma ChainExtends(head: int, link: seq<int>, free: seq<nat>)
    requires Chain(head, link, free)
    ensures Chain(head, link + [NULL], free)
  {
  }

  // ---- The order after the partition

  /** pagetype: is the page beyond what entry_pgdir maps? */
  predicate High(f: nat) { Pdx(f * PGSIZE) >= 1 }

  /** The pages of one type, in list order. */
  ghost function Select(free: seq<nat>, high: bool): (r: seq<nat>) {
    if free == [] then []
    else
      var last := free[|free| - 1];
      Select(free[..|free| - 1], high) + if High(last) == high then [last] else []
  }

  ghost function Partitioned(free: seq<nat>): seq<nat> { Select(free, false) + Select(free, true) }

  ghost predicate NoDuplicates(s: seq<nat>) {
    forall a, b :: 0 <= a < b < |s| ==> s[a] != s[b]
  }

  lemma SelectNext(free: seq<nat>, n: nat, high: bool)
    requires n < |free|
    ensures Select(free[..n + 1], high) ==
      if High(free[n]) == high then Select(free[..n], high) + [free[n]] else Select(free[..n], high)
  {
    assert free[..n + 1][..n] == free[..n];
    assert Select(free[..n], high) + [] == Select(free[..n], high);
  }

  lemma {:induction false} SelectElements(free: seq<nat>, high: bool)
    ensures forall x :: x in Select(free, high) <==> x in free && High(x) == high
    ensures NoDuplicates(free) ==> NoDuplicates(Select(free, high))
    decreases |free|
  {
    if free != [] {
      var n := |free| - 1;
      SelectElements(free[..n], high);
      assert free == free[..n] + [free[n]];
      assert NoDuplicates(free) ==> free[n] !in free[..n];
    }
  }

  lemma {:induction false} SelectAppend(a: seq<nat>, b: seq<nat>, high: bool)
    ensures Select(a + b, high) == Select(a, high) + Select(b, high)
    decreases |b|
  {
    if b == [] {
      assert a + b == a;
    } else {
      var n := |b| - 1;
      SelectAppend(a, b[..n], high);
      SelectLast(a + b, a + b[..n], b[n], high);
      SelectLast(b, b[..n], b[n], high);
    }
  }

  lemma SelectLast(all: seq<nat>, init: seq<nat>, last: nat, high: bool)
    requires all == init + [last]
    ensures Select(all, high) == Select(init, high) + if High(last) == high then [last] else []
  {
    assert all[..|all| - 1] == init;
  }

  lemma {:induction false} SelectTwice(free: seq<nat>, high: bool, again: bool)
    ensures Select(Select(free, high), again) == if again == high then Select(free, high) else []
    decreases |free|
  {
    if free != [] {
      var n := |free| - 1;
      SelectTwice(free[..n], high, again);
      if High(free[n]) == high {
        SelectAppend(Select(free[..n], high), [free[n]], again);
        assert [free[n]][..0] == [];
      } else {
        assert Select(free, high) == Select(free[..n], high);
      }
    }
  }

  lemma {:induction false} SelectCounts(free: seq<nat>)
    ensures multiset(Partitioned(free)) == multiset(free)
    decreases |free|
  {
    if free != [] {
      var n := |free| - 1;
      SelectCounts(free[..n]);
      assert free == free[..n] + [free[n]];
      assert multiset(Partitioned(free)) == multiset(Partitioned(free[..n])) + multiset{free[n]};
    }
  }

  lemma HighIsBeyond4M(f: nat)
    ensures High(f) <==> f / 1024 % 1024 != 0
  {
    assert f * 4096 / 4194304 == f / 1024;
  }

  /**
   The partition is a stable permutation: the same pages, those of the first 4MB before all
   others, and each of the two groups in its old order.
   */
  lemma PartitionIsStable(free: seq<nat>)
    ensures multiset(Partitioned(free)) == multiset(free)
    ensures forall a, b :: 0 <= a < b < |Partitioned(free)| && Partitioned(free)[a] / 1024 % 1024 != 0 ==>
      Partitioned(free)[b] / 1024 % 1024 != 0
    ensures forall high :: Select(Partitioned(free), high) == Select(free, high)
  {
    SelectCounts(free);
    SelectElements(free, false);
    SelectElements(free, true);
    var low, high := Select(free, false), Select(free, true);
    forall a | 0 <= a < |low| ensures (low + high)[a] / 1024 % 1024 == 0 {
      assert low[a] in low;
      HighIsBeyond4M(low[a]);
    }
    forall b | |low| <= b < |low + high| ensures (low + high)[b] / 1024 % 1024 != 0 {
      assert high[b - |low|] in high;
      HighIsBeyond4M(high[b - |low|]);
    }
    forall h: bool ensures Select(Partitioned(free), h) == Select(free, h) {
      SelectAppend(low, high, h);
      SelectTwice(free, false, h);
      SelectTwice(free, true, h);
    }
  }

  // ---- The two strands being built

  /** From `head` the links run through `xs` to `tail`, whose own link is not yet set. */
  ghost predicate Strand(link: seq<int>, head: int, tail: int, xs: seq<nat>) {
    && (forall a :: 0 <= a < |xs| ==> xs[a] < |link|)
    && (if xs == [] then tail == NULL else head == xs[0] && tail == xs[|xs| - 1])
    && (forall a :: 0 <= a < |xs| - 1 ==> link[xs[a]] == xs[a + 1])
  }

  lemma StrandGrows(link: seq<int>, head: int, tail: int, xs: seq<nat>, f: nat)
    requires Strand(link, head, tail, xs) && NoDuplicates(xs) && f < |link|
    ensures if tail == NULL then Strand(link, f, f, xs + [f])
            else 0 <= tail < |link| && Strand(link[tail := f], head, f, xs + [f])
  {
    if tail != NULL {
      var link', ys := link[tail := f], xs + [f];
      forall a | 0 <= a < |ys| - 1 ensures link'[ys[a]] == ys[a + 1] {
        if a < |xs| - 1 { assert xs[a] != xs[|xs| - 1]; }
      }
    }
  }

  lemma StrandKept(link: seq<int>, head: int, tail: int, xs: seq<nat>, f: nat, v: int)
    requires Strand(link, head, tail, xs) && f < |link| && f !in xs
    ensures Strand(link[f := v], head, tail, xs)
  {
  }

  /** From `head` the links run through `xs` and on to `end`. */
  ghost predicate Segment(link: seq<int>, head: int, xs: seq<nat>, end: int) {
    && (forall a :: 0 <= a < |xs| ==> xs[a] < |link|)
    && head == (if xs == [] then end else xs[0])
    && (forall a :: 0 <= a < |xs| - 1 ==> link[xs[a]] == xs[a + 1])
    && (xs != [] ==> link[xs[|xs| - 1]] == end)
  }

  /** *tp = v at the end of a strand, whose first pointer is `head` or, if the strand is empty, the tail itself. */
  function Ended(head: int, tail: int, v: int): int { if tail == NULL then v else head }

  function Relinked(link: seq<int>, tail: int, v: int): seq<int>
    requires tail == NULL || 0 <= tail < |link|
  {
    if tail == NULL then link else link[tail := v]
  }

  lemma StrandEnds(link: seq<int>, head: int, tail: int, xs: seq<nat>, v: int)
    requires Strand(link, head, tail, xs) && NoDuplicates(xs)
    ensures tail == NULL || 0 <= tail < |link|
    ensures Segment(Relinked(link, tail, v), Ended(head, tail, v), xs, v)
  {
    if tail != NULL {
      forall a | 0 <= a < |xs| - 1 ensures link[tail := v][xs[a]] == xs[a + 1] {
        assert xs[a] != xs[|xs| - 1];
      }
    }
  }

  lemma SegmentsJoin(link: seq<int>, head: int, xs: seq<nat>, mid: int, ys: seq<nat>)
    requires Segment(link, head, xs, mid) && Segment(link, mid, ys, NULL) && NoDuplicates(xs + ys)
    requires forall f :: 0 <= f < |link| && f !in xs + ys ==> link[f] == NULL
    ensures Chain(head, link, xs + ys)
  {
    var all := xs + ys;
    forall a | 0 <= a < |all| ensures link[all[a]] == At0(all, a + 1) {
      if |xs| <= a < |all| - 1 { assert link[ys[a - |xs|]] == ys[a - |xs| + 1]; }
    }
  }

  /** Closing the two strands writes only links of pages on them. */
  lemma OffListStaysNull(link: seq<int>, t0: int, t1: int, first: int, all: seq<nat>, f: nat)
    requires (t1 == NULL || 0 <= t1 < |link|) && (t0 == NULL || 0 <= t0 < |link|)
    requires (t1 != NULL ==> t1 in all) && (t0 != NULL ==> t0 in all)
    requires f < |link| && f !in all && link[f] == NULL
    ensures Relinked(Relinked(link, t1, NULL), t0, first)[f] == NULL
  {
  }

  /** Tying both strands together gives a chain. */
  lemma StrandsJoin(link: seq<int>, h0: int, t0: int, xs: seq<nat>, h1: int, t1: int, ys: seq<nat>)
    requires Strand(link, h0, t0, xs) && Strand(link, h1, t1, ys) && NoDuplicates(xs + ys)
    requires forall f :: 0 <= f < |link| && f !in xs + ys ==> link[f] == NULL
    ensures t1 == NULL || 0 <= t1 < |link|
    ensures t0 == NULL || 0 <= t0 < |link|
    ensures var first := Ended(h1, t1, NULL);
      Chain(Ended(h0, t0, first), Relinked(Relinked(link, t1, NULL), t0, first), xs + ys)
  {
    var first := Ended(h1, t1, NULL);
    SplitNoDuplicates(xs, ys);
    StrandEnds(link, h1, t1, ys, NULL);
    var link1 := Relinked(link, t1, NULL);
    if t1 != NULL { StrandKept(link, h0, t0, xs, t1, NULL); }
    StrandEnds(link1, h0, t0, xs, first);
    var link2 := Relinked(link1, t0, first);
    assert xs != [] ==> xs[|xs| - 1] !in ys;
    SegmentKept(link1, first, ys, NULL, t0, first);
    assert (t1 != NULL ==> t1 in xs + ys) && (t0 != NULL ==> t0 in xs + ys);
    forall f | 0 <= f < |link| && f !in xs + ys ensures link2[f] == NULL {
      OffListStaysNull(link, t0, t1, first, xs + ys, f);
    }
    SegmentsJoin(link2, Ended(h0, t0, first), xs, first, ys);
  }

  lemma SegmentKept(link: seq<int>, head: int, ys: seq<nat>, end: int, f: int, v: int)
    requires Segment(link, head, ys, end) && f !in ys && (f == NULL || 0 <= f < |link|)
    ensures Segment(Relinked(link, f, v), head, ys, end)
  {
  }

  lemma SplitNoDuplicates(xs: seq<nat>, ys: seq<nat>)
    requires NoDuplicates(xs + ys)
    ensures NoDuplicates(xs) && NoDuplicates(ys) && forall x :: x in xs ==> x !in ys
  {
    forall a, b | 0 <= a < |xs| && 0 <= b < |ys| ensures xs[a] != ys[b] { assert (xs + ys)[a] != (xs + ys)[|xs| + b]; }
    forall a, b | 0 <= a < b < |xs| ensures xs[a] != xs[b] { assert (xs + ys)[a] != (xs + ys)[b]; }
    forall a, b | 0 <= a < b < |ys| ensures ys[a] != ys[b] { assert (xs + ys)[|xs| + a] != (xs + ys)[|xs| + b]; }
  }

  // ---- The loop of the partition

  /** After `n` pages: two strands, `pp` next, the rest of the list and the pages off it untouched. */
  ghost predicate Parting(free: seq<nat>, link: seq<int>, n: nat, pp: int, h0: int, t0: int, h1: int, t1: int) {
    && n <= |free| && NoDuplicates(free) && pp == At0(free, n)
    && Strand(link, h0, t0, Select(free[..n], false)) && Strand(link, h1, t1, Select(free[..n], true))
    && RestOf(free, link, n)
  }

  ghost predicate RestOf(free: seq<nat>, link: seq<int>, n: nat) {
    && (forall a :: 0 <= a < |free| ==> free[a] < |link|)
    && (forall a :: n <= a < |free| ==> link[free[a]] == At0(free, a + 1))
    && (forall f :: 0 <= f < |link| && f !in free ==> link[f] == NULL)
  }

  lemma PartingStarts(head: int, link: seq<int>, free: seq<nat>)
    requires Chain(head, link, free)
    ensures Parting(free, link, 0, head, NULL, NULL, NULL, NULL)
  {
  }

  /** The tail of a strand is a page already passed. */
  lemma TailIsPassed(free: seq<nat>, link: seq<int>, n: nat, head: int, tail: int, high: bool)
    requires NoDuplicates(free) && n <= |free| && Strand(link, head, tail, Select(free[..n], high)) && tail != NULL
    ensures tail in free[..n] && 0 <= tail && High(tail) == high
  {
    SelectElements(free[..n], high);
    var xs := Select(free[..n], high);
    assert xs[|xs| - 1] in xs;
  }

  lemma RestKept(free: seq<nat>, link: seq<int>, n: nat, tail: int, v: int)
    requires RestOf(free, link, n) && NoDuplicates(free) && n < |free|
    requires (tail == NULL || (0 <= tail && tail in free[..n]))
    ensures RestOf(free, Relinked(link, tail, v), n + 1)
    ensures Relinked(link, tail, v)[free[n]] == At0(free, n + 1)
  {
    if tail != NULL {
      var k :| 0 <= k < n && free[k] == tail;
    }
  }

  /** Page `free[n]` goes to the end of its own strand. */
  lemma PartingStep(free: seq<nat>, link: seq<int>, n: nat, h0: int, t0: int, h1: int, t1: int)
    requires n < |free| && Parting(free, link, n, free[n], h0, t0, h1, t1)
    ensures t0 == NULL || 0 <= t0 < |link|
    ensures t1 == NULL || 0 <= t1 < |link|
    ensures var f := free[n];
      if High(f) then var link' := Relinked(link, t1, f);
        Parting(free, link', n + 1, link'[f], h0, t0, Ended(h1, t1, f), f)
      else var link' := Relinked(link, t0, f); Parting(free, link', n + 1, link'[f], Ended(h0, t0, f), f, h1, t1)
  {
    var f := free[n];
    if t0 != NULL { TailIsPassed(free, link, n, h0, t0, false); }
    if t1 != NULL { TailIsPassed(free, link, n, h1, t1, true); }
    if High(f) {
      StepStrand(free, link, n, h1, t1, h0, t0, true);
      RestKept(free, link, n, t1, f);
    } else {
      StepStrand(free, link, n, h0, t0, h1, t1, false);
      RestKept(free, link, n, t0, f);
    }
  }

  /** The strand of type `high` takes the page; the other one stays. */
  lemma StepStrand(free: seq<nat>, link: seq<int>, n: nat, head: int, tail: int, head': int, tail': int, high: bool)
    requires n < |free| && NoDuplicates(free) && free[n] < |link| && High(free[n]) == high
    requires Strand(link, head, tail, Select(free[..n], high)) && Strand(link, head', tail', Select(free[..n], !high))
    requires tail == NULL || 0 <= tail < |link|
    ensures var link' := Relinked(link, tail, free[n]);
      && Strand(link', Ended(head, tail, free[n]), free[n], Select(free[..n + 1], high))
      && Strand(link', head', tail', Select(free[..n + 1], !high))
  {
    SelectNext(free, n, high);
    SelectNext(free, n, !high);
    var xs, ys := Select(free[..n], high), Select(free[..n], !high);
    StrandFacts(free, link, n, head, tail, high);
    StrandGrows(link, head, tail, xs, free[n]);
    if tail != NULL { StrandKept(link, head', tail', ys, tail, free[n]); }
  }

  lemma StrandFacts(free: seq<nat>, link: seq<int>, n: nat, head: int, tail: int, high: bool)
    requires NoDuplicates(free) && n < |free| && Strand(link, head, tail, Select(free[..n], high))
    ensures NoDuplicates(Select(free[..n], high))
    ensures tail != NULL ==> 0 <= tail && tail !in Select(free[..n], !high)
  {
    SelectElements(free[..n], high);
    SelectElements(free[..n], !high);
    if tail != NULL { TailIsPassed(free, link, n, head, tail, high); }
  }

  /** The two closing stores. */
  lemma PartingEnds(free: seq<nat>, link: seq<int>, h0: int, t0: int, h1: int, t1: int)
    requires Parting(free, link, |free|, NULL, h0, t0, h1, t1)
    ensures t1 == NULL || 0 <= t1 < |link|
    ensures t0 == NULL || 0 <= t0 < |link|
    ensures var first := Ended(h1, t1, NULL);
      Chain(Ended(h0, t0, first), Relinked(Relinked(link, t1, NULL), t0, first), Partitioned(free))
  {
    assert free[..|free|] == free;
    SelectElements(free, false);
    SelectElements(free, true);
    var xs, ys := Select(free, false), Select(free, true);
    forall a, b | 0 <= a < b < |xs + ys| ensures (xs + ys)[a] != (xs + ys)[b] {
      if a < |xs| <= b { assert xs[a] in xs && ys[b - |xs|] in ys; }
    }
    StrandsJoin(link, h0, t0, xs, h1, t1, ys);
  }
}
