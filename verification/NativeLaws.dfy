// What the arithmetic words compute, said without the functions that define them: the laws of
// division, and results bit by bit.

module NativeLaws {
  import opened Wrappers
  import opened Arith
  import opened Programs
  import opened Expressions
  import opened Rotation
  import opened Natives

  // ----- division -----

  /** Division toward zero. */
  predicate DividesTo(a: int, b: int, q: int, r: int) {
    && a == b * q + r
    && (r == 0 || (r < 0 <==> a < 0))
    && (if b < 0 then b < r < -b else -b < r < b)
  }

  lemma QuotientLaw(a: int, b: int)
    requires b != 0
    ensures DividesTo(a, b, Quotient(a, b), Remainder(a, b))
  {
    var m: int, d: int := Magnitude(a), Magnitude(b);
    DivisionBounds(m, d);
    var k := m / d;
    assert m == d * k + m % d;
    Signs(d, k);
    assert b == d || b == -d;
  }

  lemma Signs(x: int, y: int)
    ensures (-x) * y == -(x * y) && x * (-y) == -(x * y) && (-x) * (-y) == x * y
  {}

  lemma QuotientFits(a: Int32, b: Int32)
    requires b != 0 && !(a == -0x8000_0000 && b == -1)
    ensures -0x8000_0000 <= Quotient(a, b) < 0x8000_0000
    ensures -0x8000_0000 <= Remainder(a, b) < 0x8000_0000
  {
    hide Quotient, Remainder;
    QuotientLaw(a, b);
    QuotientSmall(a, b);
  }

  lemma QuotientSmall(a: Int32, b: Int32)
    requires b != 0 && !(a == -0x8000_0000 && b == -1)
    ensures -0x8000_0000 <= Quotient(a, b) < 0x8000_0000
  {
    var m: nat, d: nat := Magnitude(a), Magnitude(b);
    DivisionBounds(m, d);
    if d >= 2 { Halved(m, d); }
  }

  lemma Halved(m: nat, d: nat)
    requires d >= 2
    ensures 2 * (m / d) <= m
  {
    var k := m / d;
    assert m == d * k + m % d;
    AtLeast(d - 1, k);
    assert d * k == (d - 1) * k + k;
  }

  lemma Fits(x: int)
    requires -0x8000_0000 <= x < 0x8000_0000
    ensures I32(x) == x && I32(U32(x)) == x
  {}

  /** / and % succeed exactly on divisors other than 0, but for the one overflow, and then give the
      quotient toward zero and the remainder with the sign of the dividend. */
  lemma DivisionLaw(a: Int32, b: Int32)
    ensures var q, r := Compiled(Div, [IntV(a), IntV(b)]), Compiled(Mod, [IntV(a), IntV(b)]);
            && (q.Some? <==> b != 0 && !(a == -0x8000_0000 && b == -1)) && (q.Some? <==> r.Some?)
            && (q.Some? ==>
                  && |q.value| == |r.value| == 1 && q.value[0].IntV? && r.value[0].IntV?
                  && DividesTo(a, b, q.value[0].x, r.value[0].x))
  {
    hide Quotient, Remainder, I32, DividesTo;
    if b != 0 && !(a == -0x8000_0000 && b == -1) {
      QuotientLaw(a, b);
      QuotientFits(a, b);
      Fits(Quotient(a, b));
      Fits(Remainder(a, b));
    }
  }

  /** The same of the C code, on words read as signed numbers. */
  lemma CDivisionLaw(x: Word32, y: Word32)
    ensures var q, r := CCode(Div, [x, y]), CCode(Mod, [x, y]);
            && (q.Some? <==> y != 0 && !(x == 0x8000_0000 && y == 0xFFFF_FFFF)) && (q.Some? <==> r.Some?)
            && (q.Some? ==> |q.value| == |r.value| == 1 && DividesTo(I32(x), I32(y), I32(q.value[0]), I32(r.value[0])))
  {
    hide Quotient, Remainder, DividesTo;
    var a, b := I32(x), I32(y);
    if b != 0 && !(a == -0x8000_0000 && b == -1) {
      QuotientLaw(a, b);
      QuotientFits(a, b);
      Fits(Quotient(a, b));
      Fits(Remainder(a, b));
    }
  }

  /** u/ and u%. */
  lemma UnsignedDivisionLaw(x: Word32, y: Word32)
    ensures var q, r := CCode(UDiv, [x, y]), CCode(UMod, [x, y]);
            && (q.Some? <==> y != 0) && (q.Some? <==> r.Some?)
            && (q.Some? ==> |q.value| == |r.value| == 1 && x == y * q.value[0] + r.value[0] && r.value[0] < y)
    ensures var q, r := Compiled(UDiv, [OfInt(x), OfInt(y)]), Compiled(UMod, [OfInt(x), OfInt(y)]);
            && (q.Some? <==> y != 0) && (q.Some? <==> r.Some?)
            && (q.Some? ==>
                  && |q.value| == |r.value| == 1 && q.value[0].IntV? && r.value[0].IntV?
                  && x == y * U32(q.value[0].x) + U32(r.value[0].x) && U32(r.value[0].x) < y)
  {
    hide UnsignedQuotient, UnsignedRemainder, U32, I32;
    BackAndForth(x);
    BackAndForth(y);
    if y != 0 {
      UnsignedLaw(x, y);
      BackAndForth(UnsignedQuotient(x, y));
      BackAndForth(UnsignedRemainder(x, y));
    }
  }

  lemma UnsignedLaw(x: Word32, y: Word32)
    requires y != 0
    ensures x == y * UnsignedQuotient(x, y) + UnsignedRemainder(x, y) && 0 <= UnsignedRemainder(x, y) < y
  {}

  lemma BackAndForth(w: Word32)
    ensures U32(I32(w)) == w
  {}

  // ----- bits -----

  /** Bit k of a number in two's complement, of any length. */
  predicate Bit(x: int, k: nat)
    decreases k
  {
    if k == 0 then x % 2 == 1 else Bit(x / 2, k - 1)
  }

  lemma {:induction false} BitTurns(x: int, m: int, n: nat, k: nat)
    requires k < n
    ensures Bit(x + m * Pow2(n), k) <==> Bit(x, k)
    decreases n
  {
    var t := m * Pow2(n - 1);
    assert m * Pow2(n) == 2 * t;
    if k > 0 {
      assert (x + 2 * t) / 2 == x / 2 + t;
      BitTurns(x / 2, m, n - 1, k - 1);
    }
  }

  /** Truncation keeps the 32 low bits, read either way. */
  lemma BitKept(x: int, k: nat)
    requires k < 32
    ensures (Bit(U32(x), k) <==> Bit(x, k)) && (Bit(I32(x), k) <==> Bit(x, k))
  {
    Pow2Word();
    var m := x / TWO32;
    BitTurns(x, -m, 32, k);
    BitTurns(x, -m - 1, 32, k);
    assert U32(x) == x + (-m) * TWO32;
  }

  lemma {:induction false} BitSign(x: int, n: nat, k: nat)
    requires -Pow2(n) <= x < Pow2(n) && k >= n
    ensures Bit(x, k) <==> x < 0
    decreases k
  {
    if k > 0 {
      if n > 0 { BitSign(x / 2, n - 1, k - 1); } else { BitSign(x / 2, 0, k - 1); }
    }
  }

  lemma {:induction false} BitCombined(g: Gate, a: int, b: int, n: nat, k: nat)
    requires k < n
    ensures Bit(Combined(g, a, b, n), k) <==> Gated(g, Bit(a, k), Bit(b, k))
    decreases n
  {
    if k > 0 { BitCombined(g, a / 2, b / 2, n - 1, k - 1); }
  }

  lemma {:induction false} BitShifted(x: int, s: nat, k: nat)
    ensures Bit(Shr(x, s), k) <==> Bit(x, k + s)
    decreases s
  {
    if s > 0 { BitShifted(x, s - 1, k + 1); }
  }

  lemma {:induction false} BitScaled(x: int, s: nat, k: nat)
    ensures Bit(x * Pow2(s), k) <==> k >= s && Bit(x, k - s)
    decreases s
  {
    if s > 0 {
      var t := x * Pow2(s - 1);
      assert x * Pow2(s) == 2 * t;
      if k > 0 { BitScaled(x, s - 1, k - 1); }
    }
  }

  lemma {:induction false} BitNegated(x: int, k: nat)
    ensures Bit(-1 - x, k) <==> !Bit(x, k)
    decreases k
  {
    if k > 0 {
      assert (-1 - x) / 2 == -1 - x / 2;
      BitNegated(x / 2, k - 1);
    }
  }

  /** A word is nothing but its bits. */
  lemma {:induction false} BitsDetermine(x: int, y: int, n: nat)
    requires 0 <= x < Pow2(n) && 0 <= y < Pow2(n)
    requires forall k: nat {:trigger Bit(x, k)} :: k < n ==> (Bit(x, k) <==> Bit(y, k))
    ensures x == y
    decreases n
  {
    if n > 0 {
      assert Bit(x, 0) <==> Bit(y, 0);
      forall k: nat | k < n - 1
        ensures Bit(x / 2, k) <==> Bit(y / 2, k)
      {
        assert Bit(x, k + 1) <==> Bit(y, k + 1);
      }
      BitsDetermine(x / 2, y / 2, n - 1);
    }
  }

  /** One result, a number in the compiler. */
  predicate Gives(r: Option<seq<Value>>) { r.Some? && |r.value| == 1 && r.value[0].IntV? }

  predicate CGives(r: Option<seq<Word32>>) { r.Some? && |r.value| == 1 }

  /** What and, or and xor do to a pair of bits. */
  predicate OnBits(op: Op, x: bool, y: bool)
    requires op == And || op == Or || op == Xor
  {
    if op == And then x && y else if op == Or then x || y else x != y
  }

  function Word(op: Op, x: Word32, y: Word32): Word32
    requires op == And || op == Or || op == Xor
  {
    if op == And then AndBits(x, y) else if op == Or then OrBits(x, y) else XorBits(x, y)
  }

  lemma WordBits(op: Op, x: Word32, y: Word32, k: nat)
    requires (op == And || op == Or || op == Xor) && k < 32
    ensures Bit(Word(op, x, y), k) <==> OnBits(op, Bit(x, k), Bit(y, k))
  {
    hide Bit, Combined;
    BitCombined(if op == And then AndGate else if op == Or then OrGate else XorGate, x, y, 32, k);
  }

  lemma BitwiseLaw(op: Op, a: Int32, b: Int32, k: nat)
    requires (op == And || op == Or || op == Xor) && k < 32
    ensures var r := Compiled(op, [IntV(a), IntV(b)]);
            Gives(r) && (Bit(r.value[0].x, k) <==> OnBits(op, Bit(a, k), Bit(b, k)))
  {
    hide Bit, U32, I32, AndBits, OrBits, XorBits;
    var w := Word(op, U32(a), U32(b));
    assert Compiled(op, [IntV(a), IntV(b)]) == Some([OfInt(w)]);
    WordBits(op, U32(a), U32(b), k);
    BitKept(a, k);
    BitKept(b, k);
    BitKept(w, k);
  }

  lemma CBitwiseLaw(op: Op, x: Word32, y: Word32, k: nat)
    requires (op == And || op == Or || op == Xor) && k < 32
    ensures var r := CCode(op, [x, y]);
            CGives(r) && (Bit(r.value[0], k) <==> OnBits(op, Bit(x, k), Bit(y, k)))
  {
    hide Bit, AndBits, OrBits, XorBits;
    assert CCode(op, [x, y]) == Some([Word(op, x, y)]);
    WordBits(op, x, y, k);
  }

  lemma NotLaw(a: Int32, x: Word32, k: nat)
    requires k < 32
    ensures var r := Compiled(Not, [IntV(a)]); Gives(r) && (Bit(r.value[0].x, k) <==> !Bit(a, k))
    ensures var r := CCode(Not, [x]); CGives(r) && (Bit(r.value[0], k) <==> !Bit(x, k))
  {
    hide Bit, I32;
    NotWord(U32(a), k);
    NotWord(x, k);
    BitKept(a, k);
    BitKept(0xFFFF_FFFF - U32(a), k);
  }

  lemma NotWord(x: Word32, k: nat)
    requires k < 32
    ensures Bit(0xFFFF_FFFF - x, k) <==> !Bit(x, k)
  {
    hide Bit;
    BitNegated(x, k);
    BitKept(-1 - x, k);
    assert U32(-1 - x) == 0xFFFF_FFFF - x;
  }

  /** Bit k of a number shifted by s: to the left, to the right with the sign, and without. */
  predicate Shifted(op: Op, bits: int, s: nat, k: nat)
    requires (op == Shl || op == Sar || op == UShr) && s < 32 && k < 32
  {
    if op == Shl then k >= s && Bit(bits, k - s)
    else if op == Sar then Bit(bits, if k + s < 32 then k + s else 31)
    else k + s < 32 && Bit(bits, k + s)
  }

  /** Shifts succeed exactly by 0 to 31 places. */
  lemma ShiftLaw(op: Op, a: Int32, b: Int32, k: nat)
    requires (op == Shl || op == Sar || op == UShr) && k < 32
    ensures var r := Compiled(op, [IntV(a), IntV(b)]);
            && (r.Some? <==> 0 <= b < 32)
            && (r.Some? ==> Gives(r) && (Bit(r.value[0].x, k) <==> Shifted(op, a, b, k)))
  {
    hide Bit, U32, I32, Shr, Pow2;
    if 0 <= b < 32 {
      ShiftedWord(op, a, b, k);
      BitKept(if op == Shl then (U32(a) as int) * Pow2(b) else if op == Sar then Shr(a, b) else Shr(U32(a), b), k);
    }
  }

  /** The same of the C code. */
  lemma CShiftLaw(op: Op, x: Word32, y: Word32, k: nat)
    requires (op == Shl || op == Sar || op == UShr) && k < 32
    ensures var r := CCode(op, [x, y]);
            && (r.Some? <==> y < 32)
            && (r.Some? ==> CGives(r) && (Bit(r.value[0], k) <==> Shifted(op, x, y, k)))
  {
    hide Bit, U32, Shr, Pow2;
    if y < 32 {
      BackAndForth(x);
      assert I32(y) == y;
      ShiftedWord(op, I32(x), y, k);
      SameShift(op, I32(x), x, y, k);
      BitKept(if op == Shl then (x as int) * Pow2(y) else if op == Sar then Shr(I32(x), y) else Shr(x, y), k);
    }
  }

  lemma SameShift(op: Op, a: Int32, x: Word32, s: nat, k: nat)
    requires (op == Shl || op == Sar || op == UShr) && s < 32 && k < 32 && a == I32(x)
    ensures Shifted(op, a, s, k) <==> Shifted(op, x, s, k)
  {
    hide Bit, I32;
    if op == Shl { if k >= s { BitKept(x, k - s); } }
    else { BitKept(x, if k + s < 32 then k + s else 31); }
  }

  lemma ShiftedWord(op: Op, a: Int32, s: nat, k: nat)
    requires (op == Shl || op == Sar || op == UShr) && s < 32 && k < 32
    ensures op == Shl ==> (Bit((U32(a) as int) * Pow2(s), k) <==> Shifted(op, a, s, k))
    ensures op == Sar ==> (Bit(Shr(a, s), k) <==> Shifted(op, a, s, k))
    ensures op == UShr ==> (Bit(Shr(U32(a), s), k) <==> Shifted(op, a, s, k))
  {
    hide Bit, U32, Shr, Pow2;
    match op
    case Shl =>
      BitScaled(U32(a), s, k);
      if k >= s { BitKept(a, k - s); }
    case Sar =>
      BitShifted(a, s, k);
      if k + s >= 32 { SignBits(a, k + s); }
    case UShr =>
      BitShifted(U32(a), s, k);
      if k + s < 32 { BitKept(a, k + s); } else { NoBits(U32(a), k + s); }
  }

  lemma SignBits(a: Int32, k: nat)
    requires k >= 31
    ensures Bit(a, k) <==> Bit(a, 31)
  {
    hide Bit;
    Pow2Value();
    BitSign(a, 31, k);
    BitSign(a, 31, 31);
  }

  lemma NoBits(w: Word32, k: nat)
    requires k >= 32
    ensures !Bit(w, k)
  {
    hide Bit;
    Pow2Word();
    BitSign(w, 32, k);
  }

  // ----- the words that move operands -----

  /** The words that move operands, with all their operands, top last. */
  lemma ShuffleLaw(a: Value, b: Value, c: Value, x: Word32, y: Word32, z: Word32)
    ensures Compiled(Drop, [a]) == Some([]) && CCode(Drop, [x]) == Some([])
    ensures Compiled(Dup, [a]) == Some([a, a]) && CCode(Dup, [x]) == Some([x, x])
    ensures Compiled(Over, [a, b]) == Some([a, b, a]) && CCode(Over, [x, y]) == Some([x, y, x])
    ensures Compiled(Swap, [a, b]) == Some([b, a]) && CCode(Swap, [x, y]) == Some([y, x])
    ensures Compiled(Rot, [a, b, c]) == Some([b, c, a]) && CCode(Rot, [x, y, z]) == Some([y, z, x])
    ensures Compiled(NRot, [a, b, c]) == Some([c, a, b]) && CCode(NRot, [x, y, z]) == Some([z, x, y])
  {
    assert Rotated([a, b], 1) == [b, a] && Rotated([x, y], 1) == [y, x];
    assert Rotated([a, b, c], 2) == [b, c, a] && Rotated([x, y, z], 2) == [y, z, x];
    assert Unrotated([a, b, c], 2) == [c, a, b] && Unrotated([x, y, z], 2) == [z, x, y];
  }
}
