// C expressions as constants: the number of bytes reserved for them, and whether the bytes of
// the T0_INTn macros decode to the value.

module Expressions {
  import opened Wrappers
  import opened Arith
  import opened Codec
  import opened Layout

  function Pow2(n: nat): (p: int)
    ensures p > 0
  {
    if n == 0 then 1 else 2 * Pow2(n - 1)
  }

  /** v has a two's complement representation of n bits. */
  predicate FitsIn(v: int, n: int) { n >= 1 && -Pow2(n - 1) <= v < Pow2(n - 1) }

  /** The bits that the shift loop counts. */
  function Bits(v: int): (n: nat)
    ensures n >= 1
    decreases if v < 0 then -v else v
  {
    if v == 0 || v == -1 then 1 else 1 + Bits(v / 2)
  }

  /** Bits is the least length that fits. */
  lemma {:induction false} BitsLeast(v: int, n: nat)
    requires n >= 1
    ensures FitsIn(v, n) <==> Bits(v) <= n
    decreases n
  {
    if n > 1 {
      BitsLeast(v / 2, n - 1);
    }
  }

  method BitLength(v: int) returns (num: nat)
    ensures num == Bits(v) && FitsIn(v, num) && (num > 1 ==> !FitsIn(v, num - 1))
  {
    num := 1;
    var w := v;
    if w < 0 {
      while w != -1
        invariant w < 0 && num >= 1 && num - 1 + Bits(w) == Bits(v)
      {
        num := num + 1;
        w := w / 2;
      }
    } else {
      while w != 0
        invariant w >= 0 && num >= 1 && num - 1 + Bits(w) == Bits(v)
      {
        num := num + 1;
        w := w / 2;
      }
    }
    BitsLeast(v, num);
    if num > 1 { BitsLeast(v, num - 1); }
  }

  function MaxBits(min: int, max: int, off: int): (n: nat)
    ensures 1 <= n <= 32
  {
    var low := if min + off < 0 then Bits(min + off) else 1;
    var high := if max + off > 0 then Bits(max + off) else 1;
    Min(Max(low, high), 32)
  }

  method GetMaxBitLength(min: int, max: int, off: int) returns (numBits: nat)
    ensures numBits == MaxBits(min, max, off)
  {
    var rmin, rmax := min + off, max + off;
    numBits := 1;
    if rmin < 0 {
      var n := BitLength(rmin);
      numBits := Max(numBits, n);
    }
    if rmax > 0 {
      var n := BitLength(rmax);
      numBits := Max(numBits, n);
    }
    numBits := Min(numBits, 32);
  }

  lemma {:induction false} Pow2Grows(a: nat, b: nat)
    requires a <= b
    ensures Pow2(a) <= Pow2(b)
    decreases b
  {
    if a < b { Pow2Grows(a, b - 1); }
  }

  /** The reserved length is the least one that fits every value of the shifted range; 32 also
      stands for anything longer. */
  lemma MaxBitsLeast(min: int, max: int, off: int, n: nat)
    requires min <= max && 1 <= n < 32
    ensures MaxBits(min, max, off) <= n <==> forall v {:trigger FitsIn(v, n)} :: min + off <= v <= max + off ==>
        FitsIn(v, n)
  {
    hide Bits, FitsIn;
    var rmin, rmax := min + off, max + off;
    BitsLeast(rmin, n);
    BitsLeast(rmax, n);
    Pow2Grows(0, n - 1);
    FitsBetween(rmin, rmax, n);
  }

  lemma FitsBetween(rmin: int, rmax: int, n: nat)
    requires rmin <= rmax && n >= 1
    ensures (forall v {:trigger FitsIn(v, n)} :: rmin <= v <= rmax ==> FitsIn(v, n))
            <==> (rmin < 0 ==> FitsIn(rmin, n)) && (rmax > 0 ==> FitsIn(rmax, n))
  {
    Pow2Grows(0, n - 1);
    if (rmin < 0 ==> FitsIn(rmin, n)) && (rmax > 0 ==> FitsIn(rmax, n)) {
      assert forall v {:trigger FitsIn(v, n)} :: rmin <= v <= rmax ==> FitsIn(v, n);
    } else {
      assert !FitsIn(rmin, n) || !FitsIn(rmax, n);
    }
  }

  // ----- decoding the macro bytes -----

  lemma ShrHalf(v: int, k: nat)
    ensures Shr(v / 2, k) == Shr(v, k + 1)
  {
    assert Shr(v, 1) == v / 2;
    ShrCompose(v, 1, k);
  }

  lemma {:induction false} FitsShr(v: int, n: nat)
    requires n >= 1
    ensures FitsIn(v, n) <==> (Shr(v, n - 1) == 0 || Shr(v, n - 1) == -1)
    decreases n
  {
    if n > 1 {
      FitsShr(v / 2, n - 1);
      ShrHalf(v, n - 2);
    }
  }

  lemma {:induction false} FitsLonger(v: int, n: nat, m: nat)
    requires FitsIn(v, n) && n <= m
    ensures FitsIn(v, m)
  {
    Pow2Grows(n - 1, m - 1);
  }

  /** A value of 7w bits has a top group that is a signed one. */
  lemma TopGroupSigned(v: int, w: nat)
    requires w >= 1 && FitsIn(v, 7 * w)
    ensures -64 <= Shr(v, 7 * (w - 1)) < 64
  {
    FitsShr(v, 7 * w);
    var g := Shr(v, 7 * (w - 1));
    ShrCompose(v, 7 * (w - 1), 6);
    FitsShr(g, 7);
    assert Pow2(6) == 64;
  }

  lemma ShrGroups(v: int)
    ensures Shr(v, 7) == v / 128 && Shr(v, 14) == v / 128 / 128 && Shr(v, 21) == v / 128 / 128 / 128
    ensures Shr(v, 28) == v / 128 / 128 / 128 / 128
  {
    ShrSeven(v, 0);
    ShrSeven(v, 7);
    ShrSeven(v, 14);
    ShrSeven(v, 21);
  }

  lemma LowGroups(v: Int32)
    ensures var x := U32(v);
            && x % 128 == v % 128
            && Shr(x, 7) % 128 == Shr(v, 7) % 128
            && Shr(x, 14) % 128 == Shr(v, 14) % 128
            && Shr(x, 21) % 128 == Shr(v, 21) % 128
            && Shr(x, 28) == Shr(v, 28) + (if v < 0 then 16 else 0)
  {
    hide Shr, U32;
    WordImage(v);
    ShrGroups(U32(v));
    ShrGroups(v);
    if v < 0 {
      Shifted(v);
      GroupsKept(v / 128, 0x200_0000);
      GroupsKept(v / 128 / 128, 0x4_0000);
      GroupsKept(v / 128 / 128 / 128, 0x800);
    }
  }

  lemma WordImage(v: Int32)
    ensures U32(v) == if v < 0 then v + TWO32 else v
  {}

  lemma GroupsKept(g: int, k: nat)
    requires k % 128 == 0
    ensures (g + k) % 128 == g % 128
  {}

  lemma Shifted(v: int)
    ensures var x := v + 0x1_0000_0000;
            && x % 128 == v % 128
            && x / 128 == v / 128 + 0x200_0000
            && x / 128 / 128 == v / 128 / 128 + 0x4_0000
            && x / 128 / 128 / 128 == v / 128 / 128 / 128 + 0x800
            && x / 128 / 128 / 128 / 128 == v / 128 / 128 / 128 / 128 + 16
  {}

  lemma TopNibble(v: Int32)
    ensures -8 <= Shr(v, 28) < 8 && (Shr(v, 28) < 0 <==> v < 0)
  {
    ShrGroups(v);
    ShrSign(v, 28);
  }

  /** T0_INT1 to T0_INT4, and T0_INT5 of a negative value, are the groups of the value. */
  lemma T0IntIsGroups(v: Int32, w: nat)
    requires 1 <= w <= 5 && (w == 5 ==> v < 0)
    ensures T0Int(w, U32(v)) == Groups(v, w)
  {
    hide Shr;
    LowGroups(v);
    TopNibble(v);
    GroupsUnfold(v, 2);
    GroupsUnfold(v, 3);
    GroupsUnfold(v, 4);
    GroupsUnfold(v, 5);
  }

  lemma GroupsUnfold(v: int, n: nat)
    requires n >= 2
    ensures Groups(v, n) == [128 + Shr(v, 7 * (n - 1)) % 128] + Groups(v, n - 1)
    ensures Groups(v, 1) == [v % 128]
  {}

  /** T0_INT5 of a value that is not negative: its first byte already ends the number. */
  lemma FirstByteEnds(b: seq<Byte>, pos: nat, v: Int32)
    requires v >= 0 && pos + 5 <= |b| && b[pos..pos + 5] == T0Int(5, U32(v))
    ensures ParseSigned(b, pos).Some? && ParseSigned(b, pos).value.next == pos + 1
  {
    LowGroups(v);
    TopNibble(v);
    assert b[pos] == b[pos..pos + 5][0] == SByte(U32(v)) < 8;
  }

  /** For a value in the range, the bytes chosen by GetMaxBitLength decode to it exactly when
      fewer than five are reserved or the value is negative. */
  lemma ExpressionRoundTrip(b: seq<Byte>, pos: nat, min: int, max: int, off: int, v: Int32)
    requires min + off <= v <= max + off
    requires var w := (MaxBits(min, max, off) + 6) / 7;
             pos + w <= |b| && b[pos..pos + w] == T0Int(w, U32(v))
    ensures var w := (MaxBits(min, max, off) + 6) / 7;
            ParseSigned(b, pos) == Some(Parsed(v, pos + w)) <==> w <= 4 || v < 0
  {
    hide MaxBits, Groups, T0Int, ParseSigned, FitsIn;
    var n := MaxBits(min, max, off);
    var w := (n + 6) / 7;
    if w <= 4 || v < 0 {
      ValueFits(min, max, off, v);
      FitsLonger(v, n, 7 * w);
      TopGroupSigned(v, w);
      T0IntIsGroups(v, w);
      SignedGroupsRoundTrip(b, pos, v, w);
    } else {
      FirstByteEnds(b, pos, v);
    }
  }

  lemma ValueFits(min: int, max: int, off: int, v: Int32)
    requires min + off <= v <= max + off
    ensures FitsIn(v, MaxBits(min, max, off))
  {
    var n := MaxBits(min, max, off);
    if n < 32 {
      MaxBitsLeast(min, max, off, n);
    } else {
      assert Pow2(31) == TWO31 by { Pow2Value(); }
    }
  }

  lemma Pow2Value()
    ensures Pow2(31) == TWO31
  {
    assert Pow2(8) == 256;
    assert Pow2(16) == 65536;
    assert Pow2(24) == 0x100_0000;
  }
}
