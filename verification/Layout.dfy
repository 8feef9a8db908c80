/**
 Constants of the JOS memory layout and the shape of page-table words
 (inc/memlayout.h, inc/mmu.h, inc/error.h).
 */
module Layout {

  datatype Option<+T> = None | Some(value: T)

  type byte = x: nat | x < 256

  /** A 32-bit result read as a signed int32_t. */
  function ToInt32(x: int): (r: int)
    ensures -0x8000_0000 <= r < 0x8000_0000
    ensures -0x8000_0000 <= x < 0x8000_0000 ==> r == x
  {
    var u := x % 0x1_0000_0000;
    if u < 0x8000_0000 then u else u - 0x1_0000_0000
  }

  const PGSIZE: nat := 4096
  const NPDENTRIES: nat := 1024
  const NPTENTRIES: nat := 1024
  const NENV: nat := 1024

  const UTOP: nat := 0xEEC0_0000
  const ULIM: nat := 0xEF80_0000
  const UXSTACKTOP: nat := 0xEEC0_0000
  const USTACKTOP: nat := 0xEEBF_E000
  const PFTEMP: nat := 0x007F_F000

  /** PDX(UTOP) and PDX(UVPT): directory slots below PDX_UTOP are the user half. */
  const PDX_UTOP: nat := 955
  const PDX_UVPT: nat := 957

  const E_BAD_ENV: int := 2
  const E_INVAL: int := 3
  const E_NO_MEM: int := 4
  const E_NO_FREE_ENV: int := 5
  const E_FAULT: int := 6
  const E_IPC_NOT_RECV: int := 7

  /** pp_ref is a uint16_t: increments and decrements wrap at 65536. */
  const REF_LIMIT: nat := 65536

  function Pdx(va: nat): (i: nat)
    ensures i < NPDENTRIES
  {
    va / 4194304 % 1024
  }

  function Ptx(va: nat): (j: nat)
    ensures j < NPTENTRIES
  {
    va / 4096 % 1024
  }

  function PgOff(va: nat): nat { va % 4096 }

  /** ROUNDDOWN(va, PGSIZE) */
  function RoundDown(va: nat): nat { va - va % 4096 }

  /** PGADDR(d, t, 0) */
  function PgAddr(i: nat, j: nat): nat { i * 4194304 + j * 4096 }

  /**
   The permission word of a page-table entry, bit by bit. `avail`, `share` and
   `cow` are the three PTE_AVAIL bits 0x200, 0x400 and 0x800; `other` holds every
   bit outside PTE_SYSCALL.
   */
  datatype Perm = Perm(p: bool, w: bool, u: bool, avail: bool, share: bool, cow: bool, other: nat)

  const NO_PERM: Perm := Perm(false, false, false, false, false, false, 0)
  const PTE_PU: Perm := Perm(true, false, true, false, false, false, 0)
  const PTE_PWU: Perm := Perm(true, true, true, false, false, false, 0)
  const PTE_COW_PU: Perm := Perm(true, false, true, false, false, true, 0)

  /** Every PTE_SYSCALL bit of `perm` is set in `have`. */
  predicate Covers(have: Perm, perm: Perm) {
    && (perm.p ==> have.p) && (perm.w ==> have.w) && (perm.u ==> have.u)
    && (perm.avail ==> have.avail) && (perm.share ==> have.share) && (perm.cow ==> have.cow)
  }

  /** A 32-bit page-table or page-directory word: frame number and flag bits. */
  datatype Word = Word(frame: nat, perm: Perm)

  const ZERO: Word := Word(0, NO_PERM)

  function ZeroPage(): (page: seq<Word>)
    ensures |page| == NPTENTRIES
    ensures forall j :: 0 <= j < NPTENTRIES ==> page[j] == ZERO
  {
    seq(1024, _ => ZERO)
  }

  /** A page-aligned user address and its pair of table indices name the same page. */
  lemma PageAddressSplits(va: nat)
    requires va < UTOP && PgOff(va) == 0
    ensures Pdx(va) < PDX_UTOP && va == PgAddr(Pdx(va), Ptx(va))
  {
    assert va / 4194304 < 1024;
    assert va / 4096 == va / 4194304 * 1024 + va / 4096 % 1024;
  }

  lemma PageAddressJoins(i: nat, j: nat)
    requires i < PDX_UTOP && j < NPTENTRIES
    ensures PgAddr(i, j) < UTOP && PgOff(PgAddr(i, j)) == 0
    ensures Pdx(PgAddr(i, j)) == i && Ptx(PgAddr(i, j)) == j
  {
    assert PgAddr(i, j) == (i * 1024 + j) * 4096;
    assert PgAddr(i, j) / 4096 == i * 1024 + j;
    assert PgAddr(i, j) / 4194304 == i;
  }
}
