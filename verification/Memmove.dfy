/**
 memmove (lib/string.c:141-169 with string instructions, lib/string.c:187-205 without).
 Memory is an array of bytes indexed by address; neither range wraps around its end.
 `rep movsb` and `rep movsl` are written out as the loops over edi, esi and ecx they are.
 */
module Memmove {
  import opened Layout

  /** Memory after the move: the `n` bytes at `dst` are the old bytes at `src`. */
  ghost function Moved(mem: seq<byte>, dst: nat, src: nat, n: nat): (r: seq<byte>)
    requires dst + n <= |mem| && src + n <= |mem|
    ensures |r| == |mem|
  {
    mem[..dst] + mem[src..src + n] + mem[dst + n..]
  }

  /** Byte `a` when the part [lo, hi) of the destination has been moved. */
  ghost function ByteAfter(was: seq<byte>, dst: nat, src: nat, lo: int, hi: int, a: int): byte
    requires 0 <= a < |was| && dst <= lo && src + (hi - dst) <= |was|
  {
    if lo <= a < hi then was[src + (a - dst)] else was[a]
  }

  /** Only the bytes in [lo, hi) have been moved so far. */
  ghost predicate PartlyMoved(was: seq<byte>, mem: array<byte>, dst: nat, src: nat, lo: int, hi: int)
    reads mem
  {
    && mem.Length == |was| && dst <= lo <= hi <= |was| && src + (hi - dst) <= |was|
    && forall a :: 0 <= a < mem.Length ==> mem[a] == ByteAfter(was, dst, src, lo, hi, a)
  }

  lemma AllMoved(was: seq<byte>, mem: array<byte>, dst: nat, src: nat, n: nat)
    requires dst + n <= |was| && src + n <= |was| && PartlyMoved(was, mem, dst, src, dst, dst + n)
    ensures mem[..] == Moved(was, dst, src, n)
  {
    MovedBytes(was, mem[..], dst, src, n);
  }

  /** cld; rep movsb */
  method RepMovsb(mem: array<byte>, dst: nat, src: nat, n: nat)
    requires dst + n <= mem.Length && src + n <= mem.Length
    requires dst <= src || src + n <= dst
    modifies mem
    ensures mem[..] == Moved(old(mem[..]), dst, src, n)
  {
    ghost var was := mem[..];
    var edi, esi, ecx := dst, src, n;
    while ecx > 0
      invariant 0 <= ecx <= n && edi == dst + (n - ecx) && esi == src + (n - ecx)
      invariant PartlyMoved(was, mem, dst, src, dst, edi)
    {
      mem[edi] := mem[esi];
      edi, esi, ecx := edi + 1, esi + 1, ecx - 1;
    }
    AllMoved(was, mem, dst, src, n);
  }

  /** std; rep movsb, from the last bytes of both ranges */
  method RepMovsbDown(mem: array<byte>, dst: nat, src: nat, n: nat)
    requires dst + n <= mem.Length && src + n <= mem.Length
    requires src <= dst
    modifies mem
    ensures mem[..] == Moved(old(mem[..]), dst, src, n)
  {
    ghost var was := mem[..];
    var edi, esi, ecx := dst + n - 1, src + n - 1, n;
    while ecx > 0
      invariant 0 <= ecx <= n && edi == dst + ecx - 1 && esi == src + ecx - 1
      invariant PartlyMoved(was, mem, dst, src, dst + ecx, dst + n)
    {
      mem[edi] := mem[esi];
      edi, esi, ecx := edi - 1, esi - 1, ecx - 1;
    }
    AllMoved(was, mem, dst, src, n);
  }

  /** One word more of an upward move. */
  lemma WordUp(was: seq<byte>, before: seq<byte>, after: seq<byte>, dst: nat, src: nat, edi: nat, esi: nat)
    requires |before| == |after| == |was| && dst <= edi && edi + 4 <= |was|
    requires esi + 4 <= |was| && esi - src == edi - dst
    requires dst <= src || esi + 4 <= dst
    requires forall a :: 0 <= a < |was| ==> before[a] == ByteAfter(was, dst, src, dst, edi, a)
    requires forall a :: 0 <= a < |was| ==> after[a] == ByteAfter(before, edi, esi, edi, edi + 4, a)
    ensures forall a :: 0 <= a < |was| ==> after[a] == ByteAfter(was, dst, src, dst, edi + 4, a)
  {
    forall a | 0 <= a < |was| ensures after[a] == ByteAfter(was, dst, src, dst, edi + 4, a) {
      if edi <= a < edi + 4 {
        var x := esi + (a - edi);
        assert x == src + (a - dst) && !(dst <= x < edi);
        assert before[x] == ByteAfter(was, dst, src, dst, edi, x) == was[x];
      } else {
        assert before[a] == ByteAfter(was, dst, src, dst, edi, a);
      }
    }
  }

  /** One word more of a downward move. */
  lemma WordDown(was: seq<byte>, before: seq<byte>, after: seq<byte>, dst: nat, src: nat, hi: nat, edi: nat, esi: nat)
    requires |before| == |after| == |was| && dst <= edi && edi + 4 <= hi <= |was|
    requires esi + 4 <= |was| && esi - src == edi - dst
    requires src <= dst && src + (hi - dst) <= |was|
    requires forall a :: 0 <= a < |was| ==> before[a] == ByteAfter(was, dst, src, edi + 4, hi, a)
    requires forall a :: 0 <= a < |was| ==> after[a] == ByteAfter(before, edi, esi, edi, edi + 4, a)
    ensures forall a :: 0 <= a < |was| ==> after[a] == ByteAfter(was, dst, src, edi, hi, a)
  {
    forall a | 0 <= a < |was| ensures after[a] == ByteAfter(was, dst, src, edi, hi, a) {
      if edi <= a < edi + 4 {
        var x := esi + (a - edi);
        assert before[x] == ByteAfter(was, dst, src, edi + 4, hi, x) == was[x];
      } else {
        assert before[a] == ByteAfter(was, dst, src, edi + 4, hi, a);
      }
    }
  }

  /** One movsl: four bytes are read before any is written. */
  method Movsl(mem: array<byte>, edi: nat, esi: nat)
    requires edi + 4 <= mem.Length && esi + 4 <= mem.Length
    modifies mem
    ensures forall a :: 0 <= a < mem.Length ==> mem[a] == ByteAfter(old(mem[..]), edi, esi, edi, edi + 4, a)
  {
    var b0, b1, b2, b3 := mem[esi], mem[esi + 1], mem[esi + 2], mem[esi + 3];
    mem[edi], mem[edi + 1], mem[edi + 2], mem[edi + 3] := b0, b1, b2, b3;
  }

  /** cld; rep movsl over n/4 words */
  method RepMovsl(mem: array<byte>, dst: nat, src: nat, n: nat)
    requires dst + n <= mem.Length && src + n <= mem.Length
    requires n % 4 == 0 && (dst <= src || src + n <= dst)
    modifies mem
    ensures mem[..] == Moved(old(mem[..]), dst, src, n)
  {
    ghost var was := mem[..];
    var edi, esi, ecx := dst, src, n / 4;
    assert 4 * ecx == n;
    while ecx > 0
      invariant 0 <= ecx && edi + 4 * ecx == dst + n && esi - src == edi - dst
      invariant PartlyMoved(was, mem, dst, src, dst, edi)
    {
      ghost var before := mem[..];
      Movsl(mem, edi, esi);
      WordUp(was, before, mem[..], dst, src, edi, esi);
      edi, esi, ecx := edi + 4, esi + 4, ecx - 1;
    }
    AllMoved(was, mem, dst, src, n);
  }

  /** std; rep movsl, from the last words of both ranges */
  method RepMovslDown(mem: array<byte>, dst: nat, src: nat, n: nat)
    requires dst + n <= mem.Length && src + n <= mem.Length
    requires n % 4 == 0 && src <= dst
    modifies mem
    ensures mem[..] == Moved(old(mem[..]), dst, src, n)
  {
    ghost var was := mem[..];
    var edi, esi, ecx := dst + n - 4, src + n - 4, n / 4;
    assert 4 * ecx == n;
    while ecx > 0
      invariant 0 <= ecx && edi + 4 == dst + 4 * ecx && esi - src == edi - dst
      invariant PartlyMoved(was, mem, dst, src, edi + 4, dst + n)
    {
      ghost var before := mem[..];
      Movsl(mem, edi, esi);
      WordDown(was, before, mem[..], dst, src, dst + n, edi, esi);
      edi, esi, ecx := edi - 4, esi - 4, ecx - 1;
    }
    AllMoved(was, mem, dst, src, n);
  }

  /** memmove with string instructions: the destination gets the source's original bytes under every overlap. */
  method MemmoveFast(mem: array<byte>, dst: nat, src: nat, n: nat)
    requires dst + n <= mem.Length && src + n <= mem.Length
    modifies mem
    ensures mem[..] == Moved(old(mem[..]), dst, src, n)
  {
    if src < dst && src + n > dst {
      if (src + n) % 4 == 0 && (dst + n) % 4 == 0 && n % 4 == 0 {
        RepMovslDown(mem, dst, src, n);
      } else {
        RepMovsbDown(mem, dst, src, n);
      }
    } else if src % 4 == 0 && dst % 4 == 0 && n % 4 == 0 {
      RepMovsl(mem, dst, src, n);
    } else {
      RepMovsb(mem, dst, src, n);
    }
  }

  /** memmove in plain C: two byte loops over moving pointers. */
  method MemmovePlain(mem: array<byte>, dst: nat, src: nat, n: nat)
    requires dst + n <= mem.Length && src + n <= mem.Length
    modifies mem
    ensures mem[..] == Moved(old(mem[..]), dst, src, n)
  {
    ghost var was := mem[..];
    var s, d, left := src, dst, n;
    if s < d && s + n > d {
      s, d := s + n, d + n;
      while left > 0
        invariant 0 <= left <= n && d == dst + left && s == src + left
        invariant PartlyMoved(was, mem, dst, src, d, dst + n)
      {
        left, d, s := left - 1, d - 1, s - 1;
        mem[d] := mem[s];
      }
    } else {
      while left > 0
        invariant 0 <= left <= n && d == dst + (n - left) && s == src + (n - left)
        invariant PartlyMoved(was, mem, dst, src, dst, d)
      {
        mem[d] := mem[s];
        left, d, s := left - 1, d + 1, s + 1;
      }
    }
    AllMoved(was, mem, dst, src, n);
  }

  /** What a move means, byte by byte: the new bytes at `dst`, every other byte where it was. */
  lemma MovedBytes(mem: seq<byte>, r: seq<byte>, dst: nat, src: nat, n: nat)
    requires dst + n <= |mem| && src + n <= |mem| && |r| == |mem|
    ensures r == Moved(mem, dst, src, n) <==>
              forall a :: 0 <= a < |mem| ==> r[a] == ByteAfter(mem, dst, src, dst, dst + n, a)
  {
    var to := Moved(mem, dst, src, n);
    assert forall a :: 0 <= a < |mem| ==> to[a] == ByteAfter(mem, dst, src, dst, dst + n, a);
    if forall a :: 0 <= a < |mem| ==> r[a] == ByteAfter(mem, dst, src, dst, dst + n, a) {
      assert forall a :: 0 <= a < |mem| ==> r[a] == to[a];
    }
  }
}
