// Machine integers: 32-bit words, their signed reading, and shifts.

module Arith {
  const TWO31: int := 0x8000_0000
  const TWO32: int := 0x1_0000_0000

  type Byte = x: int | 0 <= x < 256
  type Word32 = x: int | 0 <= x < 0x1_0000_0000
  type Int32 = x: int | -0x8000_0000 <= x < 0x8000_0000

  /** Truncation to 32 bits, as a C cast to uint32_t. */
  function U32(x: int): Word32 { x % TWO32 }

  /** Truncation to 32 bits read in two's complement, as a C# cast to int. */
  function I32(x: int): Int32 {
    var w := x % TWO32;
    if w < TWO31 then w else w - TWO32
  }

  lemma WordOfSigned(x: int)
    ensures U32(I32(x)) == U32(x) && I32(U32(x)) == I32(x)
  {}

  /** Multiples of 2^32 do not show. */
  lemma WholeTurns(x: int, k: int)
    ensures U32(x + k * TWO32) == U32(x)
  {}

  /** Arithmetic shift right; on a non-negative value it is also the logical shift. */
  function Shr(v: int, k: nat): int {
    if k == 0 then v else Shr(v, k - 1) / 2
  }

  lemma {:induction false} ShrCompose(v: int, a: nat, b: nat)
    ensures Shr(Shr(v, a), b) == Shr(v, a + b)
  {
    if b > 0 { ShrCompose(v, a, b - 1); }
  }

  lemma ShrSeven(v: int, k: nat)
    ensures Shr(v, k + 7) == Shr(v, k) / 128
  {
    assert Shr(v, k + 7) == Shr(v, k + 6) / 2;
    assert Shr(v, k + 6) == Shr(v, k + 5) / 2;
    assert Shr(v, k + 5) == Shr(v, k + 4) / 2;
    assert Shr(v, k + 4) == Shr(v, k + 3) / 2;
    assert Shr(v, k + 3) == Shr(v, k + 2) / 2;
    assert Shr(v, k + 2) == Shr(v, k + 1) / 2;
  }

  lemma ShrAfterSeven(v: int, k: nat)
    ensures Shr(v / 128, k) == Shr(v, k + 7)
  {
    ShrSeven(v, 0);
    ShrCompose(v, 7, k);
  }

  function Min(a: int, b: int): int { if a <= b then a else b }

  function Max(a: int, b: int): int { if a <= b then b else a }
}
