/** The debug-symbol search stab_binsearch (kern/kdebug.c:59-103). */
module Stab {
  import opened Layout

  /** n_type and n_value of struct Stab. */
  datatype Entry = Entry(kind: nat, value: nat)

  const MAX_ADDR: nat := 0xFFFF_FFFF

  /** addr++ on a uintptr_t. */
  function Next(addr: nat): nat { if addr == MAX_ADDR then 0 else addr + 1 }

  /** Loop state: the range left to search, the address, and the caller's two variables. */
  datatype State = State(l: int, r: int, addr: nat, left: int, right: int, matched: bool)

  predicate StateOk(stabs: seq<Entry>, s: State) {
    0 <= s.l && s.r < |stabs| && 0 <= s.left && s.right < |stabs|
  }

  /**
   One turn of the search, `m` being the last entry of the kind in [l, mid] if there is one;
   an exact match moves `l` to it and goes on with the next address.
   */
  function TurnAt(stabs: seq<Entry>, s: State, mid: int, m: int): (r: State)
    requires StateOk(stabs, s) && s.l <= mid <= s.r && m <= mid
    ensures StateOk(stabs, r)
  {
    if m < s.l then s.(l := mid + 1)
    else if stabs[m].value < s.addr then s.(left := m, l := mid + 1, matched := true)
    else if stabs[m].value > s.addr then s.(right := m - 1, r := m - 1, matched := true)
    else s.(left := m, l := m, addr := Next(s.addr), matched := true)
  }

  /** Does the entry at `l` match exactly? The one turn that may leave the range as it is. */
  function Hit(stabs: seq<Entry>, kind: nat, s: State): nat
    requires StateOk(stabs, s)
  {
    if s.l < |stabs| && stabs[s.l] == Entry(kind, s.addr) then 1 else 0
  }

  function Width(s: State): nat { if s.l <= s.r then s.r - s.l + 1 else 0 }

  /** The range shrinks, or stays and stops matching at its left end. */
  lemma TurnShrinks(stabs: seq<Entry>, kind: nat, s: State, mid: int, m: int)
    requires StateOk(stabs, s) && s.l <= mid <= s.r && m <= mid && (s.l <= m ==> stabs[m].kind == kind)
    ensures var t := TurnAt(stabs, s, mid, m);
      Width(t) < Width(s) || (Width(t) == Width(s) && Hit(stabs, kind, t) < Hit(stabs, kind, s))
  {
  }

  // ---- What the search finds

  /** Entries of the kind stand in address order between `left` and `right`. */
  ghost predicate Sorted(stabs: seq<Entry>, kind: nat, left: int, right: int)
    requires 0 <= left && right < |stabs|
  {
    forall a, b :: left <= a < b <= right && stabs[a].kind == kind && stabs[b].kind == kind ==>
      stabs[a].value <= stabs[b].value
  }

  ghost predicate Occurs(stabs: seq<Entry>, kind: nat, left: int, right: int, addr: nat)
    requires 0 <= left && right < |stabs|
  {
    exists k :: left <= k <= right && stabs[k] == Entry(kind, addr)
  }

  /** A sufficient condition for success: no exact match, or the next address exists and is nobody's. */
  ghost predicate NoClash(stabs: seq<Entry>, kind: nat, left: int, right: int, addr: nat)
    requires 0 <= left && right < |stabs|
  {
    Occurs(stabs, kind, left, right, addr) ==> addr < MAX_ADDR && !Occurs(stabs, kind, left, right, addr + 1)
  }

  /** Entries of the kind left of `l` are at or below `addr0`, those right of `r` above it. */
  ghost predicate Bracket(stabs: seq<Entry>, kind: nat, left0: int, right0: int, addr0: nat, s: State)
    requires StateOk(stabs, s) && 0 <= left0 && right0 < |stabs|
  {
    && left0 <= s.l && s.r <= right0 && s.l <= s.r + 1 && s.right == s.r && left0 <= s.left <= s.l
    && (s.addr == addr0 || (s.addr == addr0 + 1 && Occurs(stabs, kind, left0, right0, addr0)))
    && (forall k :: left0 <= k < s.l && stabs[k].kind == kind ==> stabs[k].value <= addr0)
    && (s.r < right0 ==> stabs[s.r + 1].kind == kind && stabs[s.r + 1].value > addr0)
    && (s.left > left0 ==> s.left <= s.r && stabs[s.left].kind == kind && stabs[s.left].value <= addr0)
    && (s.matched && s.r == right0 ==>
        left0 <= s.left <= s.r && stabs[s.left].kind == kind && stabs[s.left].value <= addr0)
    && (!s.matched ==> s.left == left0 && s.r == right0 && forall k :: left0 <= k < s.l ==> stabs[k].kind != kind)
  }

  lemma NothingFound(stabs: seq<Entry>, kind: nat, left0: int, right0: int, addr0: nat, s: State, mid: int)
    requires StateOk(stabs, s) && s.l <= mid <= s.r && 0 <= left0 && right0 < |stabs|
    requires Bracket(stabs, kind, left0, right0, addr0, s)
    requires forall k :: s.l <= k <= mid ==> stabs[k].kind != kind
    ensures Bracket(stabs, kind, left0, right0, addr0, s.(l := mid + 1))
  {
  }

  lemma FoundBelow(stabs: seq<Entry>, kind: nat, left0: int, right0: int, addr0: nat, s: State, m: int, mid: int)
    requires StateOk(stabs, s) && s.l <= m <= mid <= s.r && 0 <= left0 && right0 < |stabs|
    requires Sorted(stabs, kind, left0, right0) && Bracket(stabs, kind, left0, right0, addr0, s)
    requires stabs[m].kind == kind && stabs[m].value <= addr0 && forall k :: m < k <= mid ==> stabs[k].kind != kind
    ensures Bracket(stabs, kind, left0, right0, addr0, s.(left := m, l := mid + 1, matched := true))
  {
  }

  lemma FoundAbove(stabs: seq<Entry>, kind: nat, left0: int, right0: int, addr0: nat, s: State, m: int)
    requires StateOk(stabs, s) && s.l <= m <= s.r && 0 <= left0 && right0 < |stabs|
    requires Bracket(stabs, kind, left0, right0, addr0, s)
    requires stabs[m].kind == kind && stabs[m].value > addr0
    ensures Bracket(stabs, kind, left0, right0, addr0, s.(right := m - 1, r := m - 1, matched := true))
  {
  }

  lemma FoundExactly(stabs: seq<Entry>, kind: nat, left0: int, right0: int, addr0: nat, s: State, m: int)
    requires StateOk(stabs, s) && s.l <= m <= s.r && 0 <= left0 && right0 < |stabs|
    requires Sorted(stabs, kind, left0, right0) && Bracket(stabs, kind, left0, right0, addr0, s)
    requires stabs[m] == Entry(kind, addr0) && s.addr == addr0
    ensures Bracket(stabs, kind, left0, right0, addr0, s.(left := m, l := m, addr := addr0 + 1, matched := true))
  {
    assert Occurs(stabs, kind, left0, right0, addr0);
  }

  /** `m` is the last entry of the kind in [l, mid], or l - 1. */
  ghost predicate Found(stabs: seq<Entry>, kind: nat, l: int, mid: int, m: int)
    requires 0 <= l && mid < |stabs|
  {
    && l - 1 <= m <= mid && (l <= m ==> stabs[m].kind == kind)
    && forall k :: m < k <= mid ==> stabs[k].kind != kind
  }

  /** One turn whose exact match, if it is one, is on the address asked for. */
  lemma TurnKeepsBracket(stabs: seq<Entry>, kind: nat, left0: int, right0: int, addr0: nat, s: State, mid: int, m: int)
    requires StateOk(stabs, s) && s.l <= mid <= s.r && Found(stabs, kind, s.l, mid, m) && 0 <= left0 && right0 < |stabs|
    requires Sorted(stabs, kind, left0, right0) && Bracket(stabs, kind, left0, right0, addr0, s)
    requires s.l <= m && stabs[m].value == s.addr ==> s.addr == addr0 < MAX_ADDR
    ensures Bracket(stabs, kind, left0, right0, addr0, TurnAt(stabs, s, mid, m))
  {
    if m < s.l {
      NothingFound(stabs, kind, left0, right0, addr0, s, mid);
    } else if stabs[m].value < s.addr {
      FoundBelow(stabs, kind, left0, right0, addr0, s, m, mid);
    } else if stabs[m].value > s.addr {
      FoundAbove(stabs, kind, left0, right0, addr0, s, m);
    } else {
      FoundExactly(stabs, kind, left0, right0, addr0, s, m);
    }
  }

  // ---- The first exact match

  /** The last entry of the kind in [l, m], or l - 1. */
  function LastOf(stabs: seq<Entry>, kind: nat, l: int, m: int): (k: int)
    requires 0 <= l <= m + 1 && m < |stabs|
    ensures l - 1 <= k <= m && (l <= k ==> stabs[k].kind == kind)
    decreases m - l + 1
  {
    if m < l || stabs[m].kind == kind then m else LastOf(stabs, kind, l, m - 1)
  }

  /** The half of [l, r] that plain binary search goes on with when `m` is not an exact match. */
  function Half(stabs: seq<Entry>, l: int, r: int, addr: nat, m: int): (h: (int, int))
    requires 0 <= l <= r < |stabs| && m <= (l + r) / 2 && !(l <= m && stabs[m].value == addr)
    ensures l <= h.0 && h.1 <= r && h.1 - h.0 < r - l
  {
    if m < l || stabs[m].value < addr then ((l + r) / 2 + 1, r) else (l, m - 1)
  }

  /**
   Plain binary search of [l, r]: the entry at which the search for `addr` first matches
   exactly, and the right end of its range at that moment.
   */
  function FirstMatch(stabs: seq<Entry>, kind: nat, l: int, r: int, addr: nat): (f: Option<(int, int)>)
    requires 0 <= l && r < |stabs|
    ensures f.Some? ==> l <= f.value.0 <= f.value.1 <= r && stabs[f.value.0] == Entry(kind, addr)
    decreases if l <= r then r - l + 1 else 0
  {
    if l > r then None
    else
      var m := LastOf(stabs, kind, l, (l + r) / 2);
      if l <= m && stabs[m].value == addr then Some((m, r))
      else
        var h := Half(stabs, l, r, addr, m);
        FirstMatch(stabs, kind, h.0, h.1, addr)
  }

  lemma {:induction false} LastIsFound(stabs: seq<Entry>, kind: nat, l: int, m: int)
    requires 0 <= l <= m + 1 && m < |stabs|
    ensures Found(stabs, kind, l, m, LastOf(stabs, kind, l, m))
    decreases m - l + 1
  {
    if l <= m && stabs[m].kind != kind { LastIsFound(stabs, kind, l, m - 1); }
  }

  lemma {:induction false} FoundIsLast(stabs: seq<Entry>, kind: nat, l: int, mid: int, m: int)
    requires 0 <= l <= mid + 1 && mid < |stabs| && Found(stabs, kind, l, mid, m)
    ensures LastOf(stabs, kind, l, mid) == m
    decreases mid - l + 1
  {
    if l <= mid && m < mid { FoundIsLast(stabs, kind, l, mid - 1, m); }
  }

  lemma MatchHere(stabs: seq<Entry>, kind: nat, l: int, r: int, addr: nat, m: int)
    requires 0 <= l <= r < |stabs| && Found(stabs, kind, l, (l + r) / 2, m)
    requires l <= m && stabs[m].value == addr
    ensures FirstMatch(stabs, kind, l, r, addr) == Some((m, r))
  {
    FoundIsLast(stabs, kind, l, (l + r) / 2, m);
  }

  /** The first match of a range is that of the half gone on with. */
  lemma MatchInHalf(stabs: seq<Entry>, kind: nat, l: int, r: int, addr: nat, m: int, h: (int, int))
    requires 0 <= l <= r < |stabs| && Found(stabs, kind, l, (l + r) / 2, m)
    requires !(l <= m && stabs[m].value == addr) && h == Half(stabs, l, r, addr, m)
    ensures FirstMatch(stabs, kind, l, r, addr) == FirstMatch(stabs, kind, h.0, h.1, addr)
  {
    FoundIsLast(stabs, kind, l, (l + r) / 2, m);
  }

  /** With sorted entries every exact match stands in that half. */
  lemma HalfHoldsMatch(stabs: seq<Entry>, kind: nat, l: int, r: int, addr: nat, m: int, k: int)
    requires 0 <= l <= k <= r < |stabs| && Sorted(stabs, kind, l, r) && stabs[k] == Entry(kind, addr)
    requires Found(stabs, kind, l, (l + r) / 2, m) && !(l <= m && stabs[m].value == addr)
    ensures var h := Half(stabs, l, r, addr, m); h.0 <= k <= h.1
  {
  }

  /** Plain binary search finds an address that occurs. */
  lemma {:induction false} FirstMatchFinds(stabs: seq<Entry>, kind: nat, l: int, r: int, addr: nat, k: int)
    requires 0 <= l <= k <= r < |stabs| && Sorted(stabs, kind, l, r) && stabs[k] == Entry(kind, addr)
    ensures FirstMatch(stabs, kind, l, r, addr).Some?
    decreases r - l
  {
    var m := LastOf(stabs, kind, l, (l + r) / 2);
    LastIsFound(stabs, kind, l, (l + r) / 2);
    if m < l || stabs[m].value != addr {
      var h := Half(stabs, l, r, addr, m);
      HalfHoldsMatch(stabs, kind, l, r, addr, m, k);
      FirstMatchFinds(stabs, kind, h.0, h.1, addr, k);
      MatchInHalf(stabs, kind, l, r, addr, m, h);
    }
  }

  /** There is a first match exactly when the address occurs. */
  lemma FirstMatchIff(stabs: seq<Entry>, kind: nat, l: int, r: int, addr: nat)
    requires 0 <= l && r < |stabs| && Sorted(stabs, kind, l, r)
    ensures FirstMatch(stabs, kind, l, r, addr).Some? <==> Occurs(stabs, kind, l, r, addr)
  {
    if Occurs(stabs, kind, l, r, addr) {
      var k :| l <= k <= r && stabs[k] == Entry(kind, addr);
      FirstMatchFinds(stabs, kind, l, r, addr, k);
    }
  }

  // ---- The turns of a search, one after the other

  /** One turn of the search. */
  function Turn(stabs: seq<Entry>, kind: nat, s: State): (r: State)
    requires StateOk(stabs, s) && s.l <= s.r
    ensures StateOk(stabs, r)
  {
    var mid := (s.l + s.r) / 2;
    TurnAt(stabs, s, mid, LastOf(stabs, kind, s.l, mid))
  }

  /** The state in which the search stops. */
  function Search(stabs: seq<Entry>, kind: nat, s: State): (r: State)
    requires StateOk(stabs, s)
    ensures StateOk(stabs, r) && r.l > r.r
    decreases Width(s), Hit(stabs, kind, s)
  {
    if s.l > s.r then s
    else
      TurnShrinks(stabs, kind, s, (s.l + s.r) / 2, LastOf(stabs, kind, s.l, (s.l + s.r) / 2));
      Search(stabs, kind, Turn(stabs, kind, s))
  }

  /** `t` follows `s` by the turn in which the inner loop stops at `m`. */
  ghost predicate IsTurn(stabs: seq<Entry>, kind: nat, s: State, m: int, t: State) {
    && StateOk(stabs, s) && s.l <= s.r
    && Found(stabs, kind, s.l, (s.l + s.r) / 2, m) && t == TurnAt(stabs, s, (s.l + s.r) / 2, m)
  }

  lemma TurnIs(stabs: seq<Entry>, kind: nat, s: State, m: int, t: State)
    requires IsTurn(stabs, kind, s, m, t)
    ensures t == Turn(stabs, kind, s) && Search(stabs, kind, s) == Search(stabs, kind, t)
    ensures Width(t) < Width(s) || (Width(t) == Width(s) && Hit(stabs, kind, t) < Hit(stabs, kind, s))
  {
    FoundIsLast(stabs, kind, s.l, (s.l + s.r) / 2, m);
    TurnShrinks(stabs, kind, s, (s.l + s.r) / 2, m);
  }

  lemma TurnFacts(stabs: seq<Entry>, kind: nat, s: State) returns (mid: int, m: int)
    requires StateOk(stabs, s) && s.l <= s.r
    ensures mid == (s.l + s.r) / 2 && IsTurn(stabs, kind, s, m, Turn(stabs, kind, s))
    ensures var t := Turn(stabs, kind, s);
      && Search(stabs, kind, s) == Search(stabs, kind, t)
      && (Width(t) < Width(s) || (Width(t) == Width(s) && Hit(stabs, kind, t) < Hit(stabs, kind, s)))
  {
    mid := (s.l + s.r) / 2;
    m := LastOf(stabs, kind, s.l, mid);
    LastIsFound(stabs, kind, s.l, mid);
    TurnIs(stabs, kind, s, m, Turn(stabs, kind, s));
  }

  predicate Exact(stabs: seq<Entry>, s: State, m: int)
    requires StateOk(stabs, s) && m <= s.r
  {
    s.l <= m && stabs[m].value == s.addr
  }

  /** Until the first exact match a turn leaves that match where it is. */
  ghost predicate KeepsFirstMatch(stabs: seq<Entry>, kind: nat, s: State, t: State)
    requires StateOk(stabs, s) && StateOk(stabs, t)
  {
    FirstMatch(stabs, kind, s.l, s.r, s.addr) == FirstMatch(stabs, kind, t.l, t.r, t.addr)
  }

  lemma TurnHalves(stabs: seq<Entry>, kind: nat, s: State, m: int, t: State)
    requires IsTurn(stabs, kind, s, m, t) && !Exact(stabs, s, m)
    ensures Half(stabs, s.l, s.r, s.addr, m) == (t.l, t.r) && t.addr == s.addr
  {
  }

  lemma TurnKeepsFirstMatch(stabs: seq<Entry>, kind: nat, s: State, m: int, t: State)
    requires IsTurn(stabs, kind, s, m, t) && !Exact(stabs, s, m)
    ensures KeepsFirstMatch(stabs, kind, s, t)
  {
    TurnHalves(stabs, kind, s, m, t);
    MatchInHalf(stabs, kind, s.l, s.r, s.addr, m, (t.l, t.r));
  }

  /** The state right after an exact match at `m` with the range ending at `r`. */
  function AfterMatch(addr: nat, m: int, r: int): State { State(m, r, Next(addr), m, r, true) }

  /** Every search with a first match comes to it. */
  lemma {:induction false} SearchMeetsMatch(stabs: seq<Entry>, kind: nat, s: State)
    requires StateOk(stabs, s) && s.right == s.r && FirstMatch(stabs, kind, s.l, s.r, s.addr).Some?
    ensures var (m, r) := FirstMatch(stabs, kind, s.l, s.r, s.addr).value;
      Search(stabs, kind, s) == Search(stabs, kind, AfterMatch(s.addr, m, r))
    decreases Width(s), Hit(stabs, kind, s)
  {
    var mid, m := TurnFacts(stabs, kind, s);
    if Exact(stabs, s, m) {
      MatchHere(stabs, kind, s.l, s.r, s.addr, m);
    } else {
      TurnKeepsFirstMatch(stabs, kind, s, m, Turn(stabs, kind, s));
      SearchMeetsMatch(stabs, kind, Turn(stabs, kind, s));
    }
  }

  /** Up to its first match the search keeps the bracket. */
  lemma {:induction false} BracketAtMatch(
    stabs: seq<Entry>, kind: nat, left0: int, right0: int, addr0: nat, s: State)
    requires StateOk(stabs, s) && 0 <= left0 && right0 < |stabs| && Sorted(stabs, kind, left0, right0)
    requires Bracket(stabs, kind, left0, right0, addr0, s) && s.addr == addr0 < MAX_ADDR
    requires FirstMatch(stabs, kind, s.l, s.r, s.addr).Some?
    ensures var (m, r) := FirstMatch(stabs, kind, s.l, s.r, s.addr).value;
      Bracket(stabs, kind, left0, right0, addr0, AfterMatch(addr0, m, r))
    decreases Width(s), Hit(stabs, kind, s)
  {
    var mid, m := TurnFacts(stabs, kind, s);
    TurnKeepsBracket(stabs, kind, left0, right0, addr0, s, mid, m);
    if Exact(stabs, s, m) {
      MatchHere(stabs, kind, s.l, s.r, s.addr, m);
    } else {
      TurnKeepsFirstMatch(stabs, kind, s, m, Turn(stabs, kind, s));
      BracketAtMatch(stabs, kind, left0, right0, addr0, Turn(stabs, kind, s));
    }
  }

  /** A search without a match to come keeps the bracket to its end. */
  lemma {:induction false} BracketAtEnd(
    stabs: seq<Entry>, kind: nat, left0: int, right0: int, addr0: nat, s: State)
    requires StateOk(stabs, s) && 0 <= left0 && right0 < |stabs| && Sorted(stabs, kind, left0, right0)
    requires Bracket(stabs, kind, left0, right0, addr0, s) && FirstMatch(stabs, kind, s.l, s.r, s.addr) == None
    ensures Bracket(stabs, kind, left0, right0, addr0, Search(stabs, kind, s))
    decreases Width(s), Hit(stabs, kind, s)
  {
    if s.l <= s.r {
      var mid, m := TurnFacts(stabs, kind, s);
      if Exact(stabs, s, m) { MatchHere(stabs, kind, s.l, s.r, s.addr, m); }
      TurnKeepsFirstMatch(stabs, kind, s, m, Turn(stabs, kind, s));
      TurnKeepsBracket(stabs, kind, left0, right0, addr0, s, mid, m);
      BracketAtEnd(stabs, kind, left0, right0, addr0, Turn(stabs, kind, s));
    }
  }

  /** After the address has wrapped to 0 the range closes to just before the entry matched last. */
  lemma {:induction false} WrapEnds(stabs: seq<Entry>, kind: nat, s: State)
    requires StateOk(stabs, s) && s.addr == 0 && s.left == s.l <= s.r == s.right
    requires forall k :: s.l <= k <= s.r && stabs[k].kind == kind ==> stabs[k].value > 0
    requires stabs[s.l].kind == kind && s.matched
    ensures var e := Search(stabs, kind, s); e.left == s.l && e.right == s.l - 1 && e.matched
    decreases Width(s), Hit(stabs, kind, s)
  {
    var mid, m := TurnFacts(stabs, kind, s);
    assert s.l <= m;
    assert Turn(stabs, kind, s) == s.(right := m - 1, r := m - 1);
    if s.l < m { WrapEnds(stabs, kind, Turn(stabs, kind, s)); }
  }

  /** A match on the last address ends just before it, whatever was asked for. */
  lemma MatchAtTop(stabs: seq<Entry>, kind: nat, m: int, r: int)
    requires 0 <= m <= r < |stabs| && Sorted(stabs, kind, m, r) && stabs[m] == Entry(kind, MAX_ADDR)
    ensures var e := Search(stabs, kind, AfterMatch(MAX_ADDR, m, r)); e.left == m && e.right == m - 1 && e.matched
  {
    forall k | m <= k <= r && stabs[k].kind == kind ensures stabs[k].value > 0 {
      if m < k { assert stabs[m].value <= stabs[k].value; }
    }
    WrapEnds(stabs, kind, AfterMatch(MAX_ADDR, m, r));
  }

  /** A search for more than the entry `j` at its left end never leaves `j` out of its range. */
  lemma {:induction false} StaysAbove(stabs: seq<Entry>, kind: nat, s: State, j: int)
    requires StateOk(stabs, s) && s.right == s.r && 0 <= j <= s.r && j <= s.l && j <= s.left && s.matched
    requires Sorted(stabs, kind, j, s.r) && stabs[j].kind == kind && stabs[j].value < s.addr <= MAX_ADDR
    ensures var e := Search(stabs, kind, s); j <= e.right <= s.r && j <= e.left && e.matched
    decreases Width(s), Hit(stabs, kind, s)
  {
    if s.l <= s.r {
      var mid, m := TurnFacts(stabs, kind, s);
      if Exact(stabs, s, m) && s.addr == MAX_ADDR {
        assert Turn(stabs, kind, s) == AfterMatch(MAX_ADDR, m, s.r);
        MatchAtTop(stabs, kind, m, s.r);
      } else {
        var t := Turn(stabs, kind, s);
        TurnStaysAbove(stabs, kind, s, m, t, j);
        StaysAbove(stabs, kind, t, j);
      }
    }
  }

  lemma TurnStaysAbove(stabs: seq<Entry>, kind: nat, s: State, m: int, t: State, j: int)
    requires IsTurn(stabs, kind, s, m, t) && !(Exact(stabs, s, m) && s.addr == MAX_ADDR)
    requires s.right == s.r && 0 <= j <= s.r && j <= s.l && j <= s.left && s.matched
    requires stabs[j].kind == kind && stabs[j].value < s.addr <= MAX_ADDR
    ensures t.right == t.r && j <= t.r <= s.r && j <= t.l && j <= t.left && t.matched
    ensures stabs[j].value < t.addr <= MAX_ADDR
  {
  }

  // ---- The whole search

  /** Some entry of the kind at or below `addr`. */
  ghost predicate Covered(stabs: seq<Entry>, kind: nat, left0: int, right0: int, addr: nat)
    requires 0 <= left0 && right0 < |stabs|
  {
    exists k :: left0 <= k <= right0 && stabs[k].kind == kind && stabs[k].value <= addr
  }

  /** No entry of the kind in [a, b]. */
  ghost predicate Absent(stabs: seq<Entry>, kind: nat, a: int, b: int)
    requires 0 <= a && b < |stabs|
  {
    forall k :: a <= k <= b ==> stabs[k].kind != kind
  }

  /** `left` is the last entry of the kind at or below `addr`, `right` stands just before the next one. */
  ghost predicate Encloses(stabs: seq<Entry>, kind: nat, left0: int, right0: int, addr: nat, left: int, right: int)
    requires 0 <= left0 && right0 < |stabs|
  {
    && left0 <= left <= right <= right0
    && stabs[left].kind == kind && stabs[left].value <= addr && Absent(stabs, kind, left + 1, right)
    && (right < right0 ==> stabs[right + 1].kind == kind && stabs[right + 1].value > addr)
  }

  /** No entry is at or below `addr`: `right` stands before the first entry and `left` is not an entry. */
  ghost predicate Misses(stabs: seq<Entry>, kind: nat, left0: int, right0: int, left: int, right: int)
    requires 0 <= left0 && right0 < |stabs|
  {
    && left0 - 1 <= right < right0 && stabs[right + 1].kind == kind && Absent(stabs, kind, left0, right)
    && left == if right < left0 then right else left0
  }

  /** The search ends with a bracket as narrow as one entry. */
  lemma BracketEnds(stabs: seq<Entry>, kind: nat, left0: int, right0: int, addr0: nat, s: State, l: int)
    requires StateOk(stabs, s) && 0 <= left0 && right0 < |stabs| && Bracket(stabs, kind, left0, right0, addr0, s)
    requires s.l > s.r && Sorted(stabs, kind, left0, right0) && s.matched
    requires l <= s.right && (s.left <= s.right ==> s.left <= l) && (s.left > s.right ==> l == s.right)
    requires forall k :: l < k <= s.right ==> stabs[k].kind != kind
    requires l > s.left ==> stabs[l].kind == kind
    ensures if Covered(stabs, kind, left0, right0, addr0) then Encloses(stabs, kind, left0, right0, addr0, l, s.right)
            else Misses(stabs, kind, left0, right0, l, s.right)
  {
    if Covered(stabs, kind, left0, right0, addr0) {
      var k :| left0 <= k <= right0 && stabs[k].kind == kind && stabs[k].value <= addr0;
      assert k <= s.r;
    } else {
      assert s.left == left0;
    }
  }

  /** The last loop: down from `l` to an entry of the kind, but not below `left`. */
  function ScanDown(stabs: seq<Entry>, kind: nat, left: int, l: int): (d: int)
    requires 0 <= left && l < |stabs|
    ensures d <= l && (left <= l ==> left <= d) && (left > l ==> d == l)
    ensures (forall k :: d < k <= l ==> stabs[k].kind != kind) && (d > left ==> stabs[d].kind == kind)
    decreases l - left
  {
    if l > left && stabs[l].kind != kind then ScanDown(stabs, kind, left, l - 1) else l
  }

  function Start(left0: int, right0: int, addr0: nat): State { State(left0, right0, addr0, left0, right0, false) }

  /** The caller's two variables once the search that is in state `s` has ended. */
  function Finish(stabs: seq<Entry>, kind: nat, s: State): (p: (int, int))
    requires StateOk(stabs, s)
  {
    var e := Search(stabs, kind, s);
    if e.matched then (ScanDown(stabs, kind, e.left, e.right), e.right) else (e.left, e.left - 1)
  }

  /** The caller's two variables after stab_binsearch. */
  function Result(stabs: seq<Entry>, left0: int, right0: int, kind: nat, addr0: nat): (p: (int, int))
    requires 0 <= left0 && right0 < |stabs|
  {
    Finish(stabs, kind, Start(left0, right0, addr0))
  }

  /** The search has come to the entry `j` or beyond, though its address is above `addr`. */
  ghost predicate Misled(stabs: seq<Entry>, kind: nat, right0: int, addr: nat, j: int, left: int, right: int)
    requires 0 <= j && right0 < |stabs|
  {
    j <= left <= right <= right0 && stabs[j].kind == kind && stabs[j].value > addr
  }

  /**
   How stab_binsearch ends, in terms of plain binary search: a first match (m, r) for the address
   makes it go on in [m, r] with the next address, and a match m2 there with the one after that.
   */
  ghost predicate Outcome(
    stabs: seq<Entry>, kind: nat, left0: int, right0: int, addr: nat, left: int, right: int)
    requires 0 <= left0 && right0 < |stabs| && addr <= MAX_ADDR
  {
    if Absent(stabs, kind, left0, right0) then left == left0 && right == left0 - 1
    else match FirstMatch(stabs, kind, left0, right0, addr)
      case None =>
        if Covered(stabs, kind, left0, right0, addr) then Encloses(stabs, kind, left0, right0, addr, left, right)
        else Misses(stabs, kind, left0, right0, left, right)
      case Some((m, r)) =>
        if addr == MAX_ADDR then left == right == m - 1
        else match FirstMatch(stabs, kind, m, r, addr + 1)
          case None => Encloses(stabs, kind, left0, right0, addr, left, right)
          case Some((m2, _)) =>
            if addr + 1 == MAX_ADDR then left == right == m2 - 1
            else Misled(stabs, kind, right0, addr, m2, left, right)
  }

  lemma StartIsBracketed(stabs: seq<Entry>, kind: nat, left0: int, right0: int, addr0: nat)
    requires 0 <= left0 <= right0 + 1 && right0 < |stabs|
    ensures Bracket(stabs, kind, left0, right0, addr0, Start(left0, right0, addr0))
  {
  }

  lemma EndsUnmatched(stabs: seq<Entry>, kind: nat, left0: int, right0: int, addr0: nat)
    requires 0 <= left0 <= right0 + 1 && right0 < |stabs| && Sorted(stabs, kind, left0, right0) && addr0 <= MAX_ADDR
    requires FirstMatch(stabs, kind, left0, right0, addr0) == None
    ensures var (left, right) := Result(stabs, left0, right0, kind, addr0);
      Outcome(stabs, kind, left0, right0, addr0, left, right)
  {
    StartIsBracketed(stabs, kind, left0, right0, addr0);
    BracketAtEnd(stabs, kind, left0, right0, addr0, Start(left0, right0, addr0));
    var e := Search(stabs, kind, Start(left0, right0, addr0));
    if e.matched {
      assert !Absent(stabs, kind, left0, right0);
      BracketEnds(stabs, kind, left0, right0, addr0, e, ScanDown(stabs, kind, e.left, e.right));
    } else {
      assert Absent(stabs, kind, left0, right0);
    }
  }

  lemma EndsAtTop(stabs: seq<Entry>, kind: nat, left0: int, right0: int)
    requires 0 <= left0 <= right0 + 1 && right0 < |stabs| && Sorted(stabs, kind, left0, right0)
    requires FirstMatch(stabs, kind, left0, right0, MAX_ADDR).Some?
    ensures var (left, right) := Result(stabs, left0, right0, kind, MAX_ADDR);
      left == right == FirstMatch(stabs, kind, left0, right0, MAX_ADDR).value.0 - 1
  {
    SearchMeetsMatch(stabs, kind, Start(left0, right0, MAX_ADDR));
    var (m, r) := FirstMatch(stabs, kind, left0, right0, MAX_ADDR).value;
    MatchAtTop(stabs, kind, m, r);
  }

  lemma EndsAtMatch(stabs: seq<Entry>, kind: nat, left0: int, right0: int, addr0: nat)
    requires 0 <= left0 <= right0 + 1 && right0 < |stabs| && Sorted(stabs, kind, left0, right0) && addr0 < MAX_ADDR
    requires FirstMatch(stabs, kind, left0, right0, addr0).Some?
    requires var (m, r) := FirstMatch(stabs, kind, left0, right0, addr0).value;
      FirstMatch(stabs, kind, m, r, addr0 + 1) == None
    ensures var (left, right) := Result(stabs, left0, right0, kind, addr0);
      Encloses(stabs, kind, left0, right0, addr0, left, right)
  {
    var (m, r) := FirstMatch(stabs, kind, left0, right0, addr0).value;
    StartIsBracketed(stabs, kind, left0, right0, addr0);
    SearchMeetsMatch(stabs, kind, Start(left0, right0, addr0));
    BracketAtMatch(stabs, kind, left0, right0, addr0, Start(left0, right0, addr0));
    BracketAtEnd(stabs, kind, left0, right0, addr0, AfterMatch(addr0, m, r));
    var e := Search(stabs, kind, AfterMatch(addr0, m, r));
    assert stabs[m].value <= addr0 && Covered(stabs, kind, left0, right0, addr0);
    assert e.matched by { MatchedStays(stabs, kind, AfterMatch(addr0, m, r)); }
    BracketEnds(stabs, kind, left0, right0, addr0, e, ScanDown(stabs, kind, e.left, e.right));
  }

  lemma {:induction false} MatchedStays(stabs: seq<Entry>, kind: nat, s: State)
    requires StateOk(stabs, s) && s.matched
    ensures Search(stabs, kind, s).matched
    decreases Width(s), Hit(stabs, kind, s)
  {
    if s.l <= s.r {
      var mid, m := TurnFacts(stabs, kind, s);
      MatchedStays(stabs, kind, Turn(stabs, kind, s));
    }
  }

  /** A second match below the last address leaves the search at that entry or beyond it. */
  lemma EndsMisled(stabs: seq<Entry>, kind: nat, left0: int, right0: int, addr0: nat, m2: int, r2: int)
    requires 0 <= left0 <= m2 <= r2 <= right0 < |stabs| && Sorted(stabs, kind, left0, right0) && addr0 + 1 < MAX_ADDR
    requires stabs[m2] == Entry(kind, addr0 + 1)
    requires Result(stabs, left0, right0, kind, addr0) == Finish(stabs, kind, AfterMatch(addr0 + 1, m2, r2))
    ensures var (left, right) := Result(stabs, left0, right0, kind, addr0);
      Misled(stabs, kind, right0, addr0, m2, left, right)
  {
    StaysAbove(stabs, kind, AfterMatch(addr0 + 1, m2, r2), m2);
  }

  /** The first match decides where a search goes on. */
  lemma FinishFromMatch(stabs: seq<Entry>, kind: nat, s: State, m: int, r: int)
    requires StateOk(stabs, s) && s.right == s.r && FirstMatch(stabs, kind, s.l, s.r, s.addr) == Some((m, r))
    ensures Finish(stabs, kind, s) == Finish(stabs, kind, AfterMatch(s.addr, m, r))
  {
    SearchMeetsMatch(stabs, kind, s);
  }

  lemma TwoMatches(stabs: seq<Entry>, kind: nat, left0: int, right0: int, addr0: nat, m: int, r: int, m2: int, r2: int)
    requires 0 <= left0 && right0 < |stabs| && addr0 < MAX_ADDR
    requires FirstMatch(stabs, kind, left0, right0, addr0) == Some((m, r))
    requires FirstMatch(stabs, kind, m, r, addr0 + 1) == Some((m2, r2))
    ensures Result(stabs, left0, right0, kind, addr0) == Finish(stabs, kind, AfterMatch(addr0 + 1, m2, r2))
  {
    FinishFromMatch(stabs, kind, Start(left0, right0, addr0), m, r);
    FinishFromMatch(stabs, kind, AfterMatch(addr0, m, r), m2, r2);
  }

  lemma EndsAfterSecondMatch(stabs: seq<Entry>, kind: nat, left0: int, right0: int, addr0: nat, m: int, r: int)
    requires 0 <= left0 && right0 < |stabs| && Sorted(stabs, kind, left0, right0) && addr0 < MAX_ADDR
    requires FirstMatch(stabs, kind, left0, right0, addr0) == Some((m, r))
    requires FirstMatch(stabs, kind, m, r, addr0 + 1).Some?
    ensures var (left, right) := Result(stabs, left0, right0, kind, addr0);
      var m2 := FirstMatch(stabs, kind, m, r, addr0 + 1).value.0;
      if addr0 + 1 == MAX_ADDR then left == right == m2 - 1 else Misled(stabs, kind, right0, addr0, m2, left, right)
  {
    var (m2, r2) := FirstMatch(stabs, kind, m, r, addr0 + 1).value;
    TwoMatches(stabs, kind, left0, right0, addr0, m, r, m2, r2);
    if addr0 + 1 == MAX_ADDR {
      MatchAtTop(stabs, kind, m2, r2);
    } else {
      EndsMisled(stabs, kind, left0, right0, addr0, m2, r2);
    }
  }

  /** Every search of a sorted table ends as `Outcome` says. */
  lemma SearchOutcome(stabs: seq<Entry>, kind: nat, left0: int, right0: int, addr0: nat)
    requires 0 <= left0 <= right0 + 1 && right0 < |stabs| && Sorted(stabs, kind, left0, right0) && addr0 <= MAX_ADDR
    ensures var (left, right) := Result(stabs, left0, right0, kind, addr0);
      Outcome(stabs, kind, left0, right0, addr0, left, right)
  {
    match FirstMatch(stabs, kind, left0, right0, addr0)
    case None => EndsUnmatched(stabs, kind, left0, right0, addr0);
    case Some((m, r)) =>
      assert !Absent(stabs, kind, left0, right0);
      if addr0 == MAX_ADDR {
        EndsAtTop(stabs, kind, left0, right0);
      } else if FirstMatch(stabs, kind, m, r, addr0 + 1) == None {
        EndsAtMatch(stabs, kind, left0, right0, addr0);
      } else {
        EndsAfterSecondMatch(stabs, kind, left0, right0, addr0, m, r);
      }
  }

  // ---- When the search keeps its promise

  /**
   Does asking for the next address after a match do no harm? Only without a match, with no entry
   for the next address left in the range, or where the last address wraps and the entry just
   before it is one for `addr`.
   */
  predicate Harmless(stabs: seq<Entry>, kind: nat, left0: int, right0: int, addr: nat)
    requires 0 <= left0 && right0 < |stabs|
  {
    match FirstMatch(stabs, kind, left0, right0, addr)
    case None => true
    case Some((m, r)) => addr < MAX_ADDR && NextIsHarmless(stabs, kind, m, r, addr)
  }

  predicate NextIsHarmless(stabs: seq<Entry>, kind: nat, m: int, r: int, addr: nat)
    requires 0 <= m && r < |stabs|
  {
    match FirstMatch(stabs, kind, m, r, addr + 1)
    case None => true
    case Some((m2, _)) => addr + 1 == MAX_ADDR && m2 > m && stabs[m2 - 1] == Entry(kind, addr)
  }

  /** On sorted entries one of which covers the address, the search brackets it exactly then. */
  lemma SearchSucceedsIff(stabs: seq<Entry>, kind: nat, left0: int, right0: int, addr: nat)
    requires 0 <= left0 <= right0 + 1 && right0 < |stabs| && addr <= MAX_ADDR
    requires Sorted(stabs, kind, left0, right0) && Covered(stabs, kind, left0, right0, addr)
    ensures var (left, right) := Result(stabs, left0, right0, kind, addr);
      Encloses(stabs, kind, left0, right0, addr, left, right) <==> Harmless(stabs, kind, left0, right0, addr)
  {
    SearchOutcome(stabs, kind, left0, right0, addr);
    assert !Absent(stabs, kind, left0, right0);
    var (left, right) := Result(stabs, left0, right0, kind, addr);
    match FirstMatch(stabs, kind, left0, right0, addr)
    case None =>
    case Some((m, r)) =>
      if addr < MAX_ADDR { OutcomeDecides(stabs, kind, left0, right0, addr, m, r, left, right); }
  }

  lemma OutcomeDecides(
    stabs: seq<Entry>, kind: nat, left0: int, right0: int, addr: nat, m: int, r: int, left: int, right: int)
    requires 0 <= left0 && right0 < |stabs| && addr < MAX_ADDR && Sorted(stabs, kind, left0, right0)
    requires FirstMatch(stabs, kind, left0, right0, addr) == Some((m, r))
    requires match FirstMatch(stabs, kind, m, r, addr + 1)
      case None => Encloses(stabs, kind, left0, right0, addr, left, right)
      case Some((m2, _)) =>
        if addr + 1 == MAX_ADDR then left == right == m2 - 1 else Misled(stabs, kind, right0, addr, m2, left, right)
    ensures Encloses(stabs, kind, left0, right0, addr, left, right) <==> NextIsHarmless(stabs, kind, m, r, addr)
  {
    match FirstMatch(stabs, kind, m, r, addr + 1)
    case None =>
    case Some((m2, _)) =>
      if addr + 1 == MAX_ADDR {
        WrapDecides(stabs, kind, left0, right0, addr, m, m2);
      } else {
        MisledFails(stabs, kind, left0, right0, addr, m2, left, right);
      }
  }

  lemma WrapDecides(stabs: seq<Entry>, kind: nat, left0: int, right0: int, addr: nat, m: int, m2: int)
    requires 0 <= left0 <= m <= m2 <= right0 < |stabs| && Sorted(stabs, kind, left0, right0)
    requires stabs[m] == Entry(kind, addr) && stabs[m2] == Entry(kind, addr + 1)
    ensures Encloses(stabs, kind, left0, right0, addr, m2 - 1, m2 - 1) <==>
      m2 > m && stabs[m2 - 1] == Entry(kind, addr)
  {
  }

  lemma MisledFails(
    stabs: seq<Entry>, kind: nat, left0: int, right0: int, addr: nat, j: int, left: int, right: int)
    requires 0 <= left0 <= j && right0 < |stabs| && Sorted(stabs, kind, left0, right0)
    requires Misled(stabs, kind, right0, addr, j, left, right)
    ensures !Encloses(stabs, kind, left0, right0, addr, left, right)
  {
  }

  /** No clash is harmless ... */
  lemma NoClashIsHarmless(stabs: seq<Entry>, kind: nat, left0: int, right0: int, addr: nat)
    requires 0 <= left0 && right0 < |stabs| && NoClash(stabs, kind, left0, right0, addr)
    ensures Harmless(stabs, kind, left0, right0, addr)
  {
  }

  /** ... and a match on the last address never is. */
  lemma LastAddressMisleads(stabs: seq<Entry>, kind: nat, left0: int, right0: int)
    requires 0 <= left0 <= right0 < |stabs|
    requires Sorted(stabs, kind, left0, right0) && Occurs(stabs, kind, left0, right0, MAX_ADDR)
    ensures var (left, right) := Result(stabs, left0, right0, kind, MAX_ADDR);
      !Encloses(stabs, kind, left0, right0, MAX_ADDR, left, right)
  {
    FirstMatchIff(stabs, kind, left0, right0, MAX_ADDR);
    var k :| left0 <= k <= right0 && stabs[k] == Entry(kind, MAX_ADDR);
    assert Covered(stabs, kind, left0, right0, MAX_ADDR);
    SearchSucceedsIff(stabs, kind, left0, right0, MAX_ADDR);
  }

  lemma SearchOfFiveSix(stabs: seq<Entry>)
    requires |stabs| == 2 && stabs[0] == Entry(36, 5) && stabs[1] == Entry(36, 6)
    ensures Search(stabs, 36, Start(0, 1, 5)) == State(2, 1, 7, 1, 1, true)
  {
    TurnIs(stabs, 36, Start(0, 1, 5), 0, State(0, 1, 6, 0, 1, true));
    TurnIs(stabs, 36, State(0, 1, 6, 0, 1, true), 0, State(1, 1, 6, 0, 1, true));
    TurnIs(stabs, 36, State(1, 1, 6, 0, 1, true), 1, State(1, 1, 7, 1, 1, true));
    TurnIs(stabs, 36, State(1, 1, 7, 1, 1, true), 1, State(2, 1, 7, 1, 1, true));
  }

  lemma SearchOfFiveSixNine(stabs: seq<Entry>)
    requires |stabs| == 3 && stabs[0] == Entry(36, 5) && stabs[1] == Entry(36, 6) && stabs[2] == Entry(36, 9)
    ensures Search(stabs, 36, Start(0, 2, 5)) == State(1, 0, 6, 0, 0, true)
  {
    TurnIs(stabs, 36, Start(0, 2, 5), 1, State(0, 0, 5, 0, 0, true));
    TurnIs(stabs, 36, State(0, 0, 5, 0, 0, true), 0, State(0, 0, 6, 0, 0, true));
    TurnIs(stabs, 36, State(0, 0, 6, 0, 0, true), 0, State(1, 0, 6, 0, 0, true));
  }

  /** The result that a known final state gives. */
  lemma ResultFrom(stabs: seq<Entry>, kind: nat, left0: int, right0: int, addr: nat, e: State)
    requires 0 <= left0 && right0 < |stabs|
    requires Search(stabs, kind, Start(left0, right0, addr)) == e && e.matched && e.left == e.right
    ensures Result(stabs, left0, right0, kind, addr) == (e.right, e.right)
  {
  }

  /**
   Entries at addr and addr + 1 may mislead: the search for 5 goes on as one for 7 and ends at
   the entry for 6.
   */
  lemma ClashMisleads(stabs: seq<Entry>)
    requires stabs == [Entry(36, 5), Entry(36, 6)]
    ensures Sorted(stabs, 36, 0, 1) && !NoClash(stabs, 36, 0, 1, 5)
    ensures Result(stabs, 0, 1, 36, 5) == (1, 1) && !Encloses(stabs, 36, 0, 1, 5, 1, 1)
  {
    assert stabs[0] == Entry(36, 5) && stabs[1] == Entry(36, 6);
    SearchOfFiveSix(stabs);
    ResultFrom(stabs, 36, 0, 1, 5, State(2, 1, 7, 1, 1, true));
  }

  /** They need not: with 6 at the first middle the range is cut before 5 is matched. */
  lemma ClashMayBeHarmless(stabs: seq<Entry>)
    requires stabs == [Entry(36, 5), Entry(36, 6), Entry(36, 9)]
    ensures Sorted(stabs, 36, 0, 2) && !NoClash(stabs, 36, 0, 2, 5)
    ensures Result(stabs, 0, 2, 36, 5) == (0, 0) && Encloses(stabs, 36, 0, 2, 5, 0, 0)
  {
    assert stabs[0] == Entry(36, 5) && stabs[1] == Entry(36, 6) && stabs[2] == Entry(36, 9);
    SearchOfFiveSixNine(stabs);
    ResultFrom(stabs, 36, 0, 2, 5, State(1, 0, 6, 0, 0, true));
  }

  // ---- The loops

  /** The inner loop: from the middle down to an entry of the kind. */
  method LastEntry(stabs: seq<Entry>, kind: nat, l: int, mid: int) returns (m: int)
    requires 0 <= l <= mid < |stabs|
    ensures Found(stabs, kind, l, mid, m)
  {
    m := mid;
    while m >= l && stabs[m].kind != kind
      invariant l - 1 <= m <= mid
      invariant forall k :: m < k <= mid ==> stabs[k].kind != kind
    {
      m := m - 1;
    }
  }

  ghost predicate Follows(stabs: seq<Entry>, kind: nat, s: State, t: State) {
    exists m :: IsTurn(stabs, kind, s, m, t)
  }

  ghost predicate Turns(stabs: seq<Entry>, kind: nat, trace: seq<State>) {
    |trace| > 0 && forall i :: 0 <= i < |trace| - 1 ==> Follows(stabs, kind, trace[i], trace[i + 1])
  }

  /** Turn after turn until the range is empty is the search. */
  lemma {:induction false} TurnsSearch(stabs: seq<Entry>, kind: nat, trace: seq<State>)
    requires Turns(stabs, kind, trace) && StateOk(stabs, trace[0]) && trace[|trace| - 1].l > trace[|trace| - 1].r
    ensures Search(stabs, kind, trace[0]) == trace[|trace| - 1]
    decreases |trace|
  {
    if |trace| > 1 {
      var s, t := trace[0], trace[1];
      assert Follows(stabs, kind, s, t);
      var m :| IsTurn(stabs, kind, s, m, t);
      TurnIs(stabs, kind, s, m, t);
      assert Turns(stabs, kind, trace[1..]) by {
        forall i | 0 <= i < |trace| - 2 ensures Follows(stabs, kind, trace[1..][i], trace[1..][i + 1]) {
          assert Follows(stabs, kind, trace[i + 1], trace[i + 2]);
        }
      }
      TurnsSearch(stabs, kind, trace[1..]);
    }
  }

  lemma OneMoreTurn(stabs: seq<Entry>, kind: nat, trace: seq<State>, m: int, t: State)
    requires Turns(stabs, kind, trace) && IsTurn(stabs, kind, trace[|trace| - 1], m, t)
    ensures Turns(stabs, kind, trace + [t])
  {
    assert Follows(stabs, kind, trace[|trace| - 1], t);
  }

  /** The binary search, turn by turn. */
  method Narrow(stabs: seq<Entry>, left0: int, right0: int, kind: nat, addr0: nat)
    returns (left: int, right: int, matched: bool)
    requires 0 <= left0 && right0 < |stabs|
    ensures var e := Search(stabs, kind, Start(left0, right0, addr0));
      left == e.left && right == e.right && matched == e.matched
  {
    var l, r, addr := left0, right0, addr0;
    left, right, matched := left0, right0, false;
    ghost var s := Start(left0, right0, addr0);
    ghost var trace := [s];
    while l <= r
      invariant s == State(l, r, addr, left, right, matched) && StateOk(stabs, s)
      invariant Turns(stabs, kind, trace)
      invariant trace[0] == Start(left0, right0, addr0) && trace[|trace| - 1] == s
      decreases Width(s), Hit(stabs, kind, s)
    {
      var mid := (l + r) / 2;
      var m := LastEntry(stabs, kind, l, mid);
      TurnShrinks(stabs, kind, s, mid, m);
      OneMoreTurn(stabs, kind, trace, m, TurnAt(stabs, s, mid, m));
      s := TurnAt(stabs, s, mid, m);
      trace := trace + [s];
      if m < l {
        l := mid + 1;
        continue;
      }
      matched := true;
      if stabs[m].value < addr {
        left := m;
        l := mid + 1;
      } else if stabs[m].value > addr {
        right := m - 1;
        r := m - 1;
      } else {
        left := m;
        l := m;
        addr := Next(addr);
      }
    }
    TurnsSearch(stabs, kind, trace);
  }

  /** stab_binsearch stops on every table; on sorted entries it ends as `Outcome` says. */
  method StabBinsearch(stabs: seq<Entry>, left0: int, right0: int, kind: nat, addr0: nat)
    returns (left: int, right: int)
    requires 0 <= left0 <= right0 + 1 && right0 < |stabs| && addr0 <= MAX_ADDR
    ensures (left, right) == Result(stabs, left0, right0, kind, addr0)
    ensures Sorted(stabs, kind, left0, right0) ==> Outcome(stabs, kind, left0, right0, addr0, left, right)
  {
    var matched;
    left, right, matched := Narrow(stabs, left0, right0, kind, addr0);
    if !matched {
      right := left - 1;
    } else {
      var l := right;
      while l > left && stabs[l].kind != kind
        invariant l <= right && ScanDown(stabs, kind, left, l) == ScanDown(stabs, kind, left, right)
      {
        l := l - 1;
      }
      left := l;
    }
    if Sorted(stabs, kind, left0, right0) { SearchOutcome(stabs, kind, left0, right0, addr0); }
  }
}
