// The native words that have C code in the core file: what each does to compile-time values, what
// its C code does to 32-bit words, and when the two agree.

module Natives {
  import opened Wrappers
  import opened Arith
  import opened StackEffect
  import opened Programs
  import opened Expressions
  import opened Linking
  import opened Rotation
  import opened ByteMachine
  import opened Simulation
  import Slots

  datatype Op =
    | Drop | Dup | Swap | Over | Rot | NRot
    | Add | Sub | Neg | Mul | Div | UDiv | Mod | UMod
    | Lt | Le | Gt | Ge | Eq | Ne | ULt | ULe | UGt | UGe
    | And | Or | Xor | Not | Shl | Sar | UShr

  /** The declared stack effect. */
  function Effect(op: Op): SType {
    match op
    case Drop => Pair(1, 0)
    case Dup => Pair(1, 2)
    case Swap => Pair(2, 2)
    case Over => Pair(2, 3)
    case Rot => Pair(3, 3)
    case NRot => Pair(3, 3)
    case Neg => Pair(1, 1)
    case Not => Pair(1, 1)
    case _ => Pair(2, 1)
  }

  // ----- arithmetic that both sides share -----

  function Magnitude(x: int): nat { if x < 0 then -x else x }

  /** Division toward zero, as in C and C#. */
  function Quotient(a: int, b: int): int
    requires b != 0
  {
    var q: int := Magnitude(a) / Magnitude(b);
    if (a < 0) != (b < 0) then -q else q
  }

  function Remainder(a: int, b: int): int
    requires b != 0
  {
    a - b * Quotient(a, b)
  }

  /** Division by zero and the one overflow are exceptions in C# and undefined in C. */
  predicate Divides(a: int, b: int) { b != 0 && !(a == -TWO31 && b == -1) }

  lemma {:induction false} AtLeast(b: nat, q: nat)
    requires b > 0
    ensures b * q >= q
  {
    if b > 1 {
      AtLeast(b - 1, q);
      assert b * q == (b - 1) * q + q;
    }
  }

  lemma DivisionBounds(a: nat, b: nat)
    requires b > 0
    ensures 0 <= a / b <= a && 0 <= a % b < b
  {
    var q := a / b;
    assert a == b * q + a % b;
    AtLeast(b, q);
  }

  function UnsignedQuotient(a: Word32, b: Word32): Word32
    requires b != 0
  {
    DivisionBounds(a, b);
    a / b
  }

  function UnsignedRemainder(a: Word32, b: Word32): Word32
    requires b != 0
  {
    DivisionBounds(a, b);
    a % b
  }

  datatype Gate = AndGate | OrGate | XorGate

  function Gated(g: Gate, x: bool, y: bool): bool {
    match g
    case AndGate => x && y
    case OrGate => x || y
    case XorGate => x != y
  }

  /** The n low bits of a and b combined, from the lowest up. */
  function Combined(g: Gate, a: int, b: int, n: nat): (r: int)
    ensures 0 <= r < Pow2(n)
    decreases n
  {
    if n == 0 then 0
    else Combined(g, a / 2, b / 2, n - 1) * 2 + if Gated(g, a % 2 == 1, b % 2 == 1) then 1 else 0
  }

  function BitsOf(g: Gate, a: Word32, b: Word32): Word32 {
    Pow2Word();
    Combined(g, a, b, 32)
  }

  lemma Pow2Word()
    ensures Pow2(32) == TWO32
  {
    Pow2Value();
  }

  function AndBits(a: Word32, b: Word32): Word32 { BitsOf(AndGate, a, b) }

  function OrBits(a: Word32, b: Word32): Word32 { BitsOf(OrGate, a, b) }

  function XorBits(a: Word32, b: Word32): Word32 { BitsOf(XorGate, a, b) }

  // ----- in the compiler -----

  /** TValue of a boolean. */
  function Flag(b: bool): Value { IntV(if b then -1 else 0) }

  function OfInt(x: int): Value { IntV(I32(x)) }

  /** The two-operand words that need integers; None is an exception. */
  function OnInts(op: Op, a: Int32, b: Int32): Option<Value> {
    var ua, ub := U32(a), U32(b);
    match op
    case Mul => Some(OfInt((a as int) * b))
    case Div => if Divides(a, b) then Some(OfInt(Quotient(a, b))) else None
    case UDiv => if ub == 0 then None else Some(OfInt(UnsignedQuotient(ua, ub)))
    case Mod => if Divides(a, b) then Some(OfInt(Remainder(a, b))) else None
    case UMod => if ub == 0 then None else Some(OfInt(UnsignedRemainder(ua, ub)))
    case Lt => Some(Flag(a < b))
    case Le => Some(Flag(a <= b))
    case Gt => Some(Flag(a > b))
    case Ge => Some(Flag(a >= b))
    case ULt => Some(Flag(ua < ub))
    case ULe => Some(Flag(ua <= ub))
    case UGt => Some(Flag(ua > ub))
    case UGe => Some(Flag(ua >= ub))
    case And => Some(OfInt(AndBits(ua, ub)))
    case Or => Some(OfInt(OrBits(ua, ub)))
    case Xor => Some(OfInt(XorBits(ua, ub)))
    case Shl => if 0 <= b <= 31 then Some(OfInt((ua as int) * Pow2(b))) else None
    case Sar => if 0 <= b <= 31 then Some(OfInt(Shr(a, b))) else None
    case UShr => if 0 <= b <= 31 then Some(OfInt(Shr(ua, b))) else None
    case _ => None
  }

  /** + and - also move a pointer inside its block, and - subtracts two pointers into one block.
      Joining two strings makes a new block and is left out. */
  function AddValues(a: Value, b: Value): Option<Value> {
    match (a, b)
    case (IntV(x), IntV(y)) => Some(OfInt((x as int) + y))
    case (Blob(block, off), IntV(y)) => Some(Blob(block, I32((off as int) + y)))
    case _ => None
  }

  function SubValues(a: Value, b: Value): Option<Value> {
    match (a, b)
    case (IntV(x), IntV(y)) => Some(OfInt((x as int) - y))
    case (Blob(block, off), IntV(y)) => Some(Blob(block, I32((off as int) - y)))
    case (Blob(block, off), Blob(other, off')) => if block == other then Some(OfInt((off as int) - off')) else None
    case _ => None
  }

  /** The arguments, top last, and the results; None is an exception. */
  function Compiled(op: Op, s: seq<Value>): (r: Option<seq<Value>>)
    requires |s| == Effect(op).din
    ensures r.Some? ==> |r.value| == Effect(op).dout
  {
    match op
    case Drop => Some([])
    case Dup => Some([s[0], s[0]])
    case Swap => Some(Rotated(s, 1))
    case Over => Some([s[0], s[1], s[0]])
    case Rot => Some(Rotated(s, 2))
    case NRot => Some(Unrotated(s, 2))
    case Neg => if s[0].IntV? then Some([OfInt(-(s[0].x as int))]) else None
    case Not => if s[0].IntV? then Some([OfInt(0xFFFF_FFFF - U32(s[0].x))]) else None
    case Add => One(AddValues(s[0], s[1]))
    case Sub => One(SubValues(s[0], s[1]))
    case Eq => Some([Flag(s[0] == s[1])])
    case Ne => Some([Flag(s[0] != s[1])])
    case _ => if s[0].IntV? && s[1].IntV? then One(OnInts(op, s[0].x, s[1].x)) else None
  }

  function One(v: Option<Value>): Option<seq<Value>> { if v.Some? then Some([v.value]) else None }

  // ----- in C -----

  /** -(uint32_t)(condition). */
  function CFlag(b: bool): Word32 { if b then 0xFFFF_FFFF else 0 }

  /** The two-operand snippets; None where C leaves the result undefined. */
  function CBinary(op: Op, a: Word32, b: Word32): Option<Word32> {
    var ia, ib := I32(a), I32(b);
    match op
    case Add => Some(U32((a as int) + b))
    case Sub => Some(U32((a as int) - b))
    case Mul => Some(U32((a as int) * b))
    case Div => if Divides(ia, ib) then Some(U32(Quotient(ia, ib))) else None
    case UDiv => if b == 0 then None else Some(UnsignedQuotient(a, b))
    case Mod => if Divides(ia, ib) then Some(U32(Remainder(ia, ib))) else None
    case UMod => if b == 0 then None else Some(UnsignedRemainder(a, b))
    case Lt => Some(CFlag(ia < ib))
    case Le => Some(CFlag(ia <= ib))
    case Gt => Some(CFlag(ia > ib))
    case Ge => Some(CFlag(ia >= ib))
    case Eq => Some(CFlag(a == b))
    case Ne => Some(CFlag(a != b))
    case ULt => Some(CFlag(a < b))
    case ULe => Some(CFlag(a <= b))
    case UGt => Some(CFlag(a > b))
    case UGe => Some(CFlag(a >= b))
    case And => Some(AndBits(a, b))
    case Or => Some(OrBits(a, b))
    case Xor => Some(XorBits(a, b))
    case Shl => if 0 <= ib <= 31 then Some(U32((a as int) * Pow2(ib))) else None
    case Sar => if 0 <= ib <= 31 then Some(U32(Shr(ia, ib))) else None
    case UShr => if 0 <= ib <= 31 then Some(U32(Shr(a, ib))) else None
    case _ => None
  }

  function CCode(op: Op, s: seq<Word32>): Option<seq<Word32>>
    requires |s| == Effect(op).din
  {
    match op
    case Drop => Some([])
    case Dup => Some([s[0], s[0]])
    case Swap => Some(Rotated(s, 1))
    case Over => Some([s[0], s[1], s[0]])
    case Rot => Some(Rotated(s, 2))
    case NRot => Some(Unrotated(s, 2))
    case Neg => Some([U32(-(s[0] as int))])
    case Not => Some([0xFFFF_FFFF - s[0]])
    case _ =>
      match CBinary(op, s[0], s[1])
      case None => None
      case Some(x) => Some([x])
  }

  // ----- agreement -----

  /** The end of one block is the start of a later one. */
  predicate Meet(blocks: seq<seq<Byte>>, i: nat, off: int, j: nat, off': int) {
    && i < j < |blocks| && off == |blocks[i]| && off' == 0
    && forall k :: i < k < j ==> blocks[k] == []
  }

  /** Values that differ but that C cannot tell apart, in one order. */
  predicate Shadows(L: Link, ccode: Slots.Texts, blocks: seq<seq<Byte>>, a: Value, b: Value) {
    match (a, b)
    case (Blob(i, off), Blob(j, off')) => Meet(blocks, i, off, j, off')
    case (XT(v), XT(w)) => v != w && v < |ccode| && w < |ccode| && ccode[v].Some? && ccode[v] == ccode[w]
    case (IntV(x), XT(w)) => x == L.SlotOf(w)
    case (IntV(x), Blob(i, off)) => x == L.AddressOf(i) + off
    case (XT(w), Blob(i, off)) => L.SlotOf(w) == L.AddressOf(i) + off
    case _ => false
  }

  predicate Clash(L: Link, ccode: Slots.Texts, blocks: seq<seq<Byte>>, a: Value, b: Value) {
    Shadows(L, ccode, blocks, a, b) || Shadows(L, ccode, blocks, b, a)
  }

  /** A linked program with a data block of less than 2^31 bytes, and two of its values. */
  ghost predicate Comparable(P: Program, L: Link, ccode: Slots.Texts, blocks: seq<seq<Byte>>, a: Value, b: Value) {
    && Slots.Linked(P, ccode, blocks, L.slots, L.base, L.blocks)
    && |Slots.DataBytes(blocks, |blocks|)| < 0x8000_0000
    && Slots.Resolved(P, blocks, a) && Slots.Resolved(P, blocks, b)
  }

  lemma {:induction false} MulWraps(a: int, b: int)
    ensures U32(a * b) == U32((U32(a) as int) * U32(b))
  {
    var i, j := a / TWO32, b / TWO32;
    var x: int, y: int := U32(a), U32(b);
    assert a == i * TWO32 + x && b == j * TWO32 + y;
    Expand(i, j, x, y);
    WholeTurns(x * y, i * j * TWO32 + i * y + j * x);
  }

  lemma Expand(i: int, j: int, x: int, y: int)
    ensures (i * TWO32 + x) * (j * TWO32 + y) == x * y + (i * j * TWO32 + i * y + j * x) * TWO32
  {}

  lemma SumWraps(a: int, b: int)
    ensures U32(a + b) == U32((U32(a) as int) + U32(b)) && U32(a - b) == U32((U32(a) as int) - U32(b))
    ensures U32(-a) == U32(-(U32(a) as int))
  {
    WholeTurns((U32(a) as int) + U32(b), a / TWO32 + b / TWO32);
    WholeTurns((U32(a) as int) - U32(b), a / TWO32 - b / TWO32);
    WholeTurns(-(U32(a) as int), -(a / TWO32));
  }

  lemma ImageOfInt(L: Link, x: int)
    ensures L.Lower(OfInt(x)) == U32(x)
  {
    WordOfSigned(x);
  }

  lemma ReadBack(x: Int32)
    ensures I32(U32(x)) == x
  {
    WordOfSigned(x);
  }

  lemma IntsAgree(L: Link, op: Op, a: Int32, b: Int32)
    requires OnInts(op, a, b).Some?
    ensures CBinary(op, U32(a), U32(b)) == Some(L.Lower(OnInts(op, a, b).value))
  {
    hide AndBits, OrBits, XorBits, Quotient, Remainder, Shr, Pow2, UnsignedQuotient, UnsignedRemainder;
    ReadBack(a);
    ReadBack(b);
    match op
    case Mul =>
      MulWraps(a, b);
      ImageOfInt(L, (a as int) * b);
    case Div => ImageOfInt(L, Quotient(a, b));
    case UDiv => ImageOfWord(L, UnsignedQuotient(U32(a), U32(b)));
    case Mod => ImageOfInt(L, Remainder(a, b));
    case UMod => ImageOfWord(L, UnsignedRemainder(U32(a), U32(b)));
    case And => ImageOfWord(L, AndBits(U32(a), U32(b)));
    case Or => ImageOfWord(L, OrBits(U32(a), U32(b)));
    case Xor => ImageOfWord(L, XorBits(U32(a), U32(b)));
    case Shl => ImageOfInt(L, (U32(a) as int) * Pow2(b));
    case Sar => ImageOfInt(L, Shr(a, b));
    case UShr => ImageOfInt(L, Shr(U32(a), b));
    case _ =>
  }

  lemma LowerInt(L: Link, x: Int32)
    ensures L.Lower(IntV(x)) == U32(x)
  {}

  lemma ImageOfWord(L: Link, w: Word32)
    ensures L.Lower(OfInt(w)) == w
  {
    ImageOfInt(L, w);
  }

  lemma PointersAgree(L: Link, block: nat, off: Int32, y: int)
    ensures L.Lower(Blob(block, I32((off as int) + y))) == U32((L.Lower(Blob(block, off)) as int) + U32(y))
    ensures L.Lower(Blob(block, I32((off as int) - y))) == U32((L.Lower(Blob(block, off)) as int) - U32(y))
  {
    hide U32, I32;
    var base := L.AddressOf(block);
    Absorb(base, (off as int) + y);
    Absorb(base, (off as int) - y);
    SumWraps(base + off, y);
  }

  /** Wrapping an offset does not change the address. */
  lemma Absorb(base: int, off: int)
    ensures U32(base + I32(off)) == U32(base + off)
  {
    SumWraps(base, I32(off));
    SumWraps(base, off);
    WordOfSigned(off);
  }

  lemma DistanceAgrees(L: Link, block: nat, off: Int32, off': Int32)
    ensures U32((off as int) - off') == U32((L.Lower(Blob(block, off)) as int) - L.Lower(Blob(block, off')))
  {
    var base := L.AddressOf(block);
    SumWraps(base + off, base + off');
  }

  lemma AddAgrees(L: Link, a: Value, b: Value)
    ensures AddValues(a, b).Some? ==> CBinary(Add, L.Lower(a), L.Lower(b)) == Some(L.Lower(AddValues(a, b).value))
    ensures SubValues(a, b).Some? ==> CBinary(Sub, L.Lower(a), L.Lower(b)) == Some(L.Lower(SubValues(a, b).value))
  {
    hide U32, I32;
    if a.IntV? && b.IntV? {
      SumWraps(a.x, b.x);
      ImageOfInt(L, (a.x as int) + b.x);
      ImageOfInt(L, (a.x as int) - b.x);
    }
    if a.Blob? && b.IntV? { PointersAgree(L, a.block, a.off, b.x); }
    if a.Blob? && b.Blob? && a.block == b.block {
      DistanceAgrees(L, a.block, a.off, b.off);
      ImageOfInt(L, (a.off as int) - b.off);
    }
  }

  lemma FlagAgrees(L: Link, b: bool)
    ensures L.Lower(Flag(b)) == CFlag(b)
  {}

  lemma ShufflesAgree(L: Link, s: seq<Value>, d: nat)
    requires d < |s|
    ensures L.LowerAll(Rotated(s, d)) == Rotated(L.LowerAll(s), d)
    ensures L.LowerAll(Unrotated(s, d)) == Unrotated(L.LowerAll(s), d)
  {}

  lemma NegAgrees(L: Link, x: Int32)
    ensures L.Lower(OfInt(-(x as int))) == U32(-(U32(x) as int))
    ensures L.Lower(OfInt(0xFFFF_FFFF - U32(x))) == 0xFFFF_FFFF - U32(x)
  {
    SumWraps(x, 0);
    ImageOfInt(L, -(x as int));
    ImageOfInt(L, 0xFFFF_FFFF - U32(x));
  }

  lemma LowerOne(L: Link, v: Value)
    ensures L.LowerAll([v]) == [L.Lower(v)]
  {}

  /** Whenever the word succeeds in the compiler, its C code gives the images of its results; only
      the comparisons for equality fail to, and exactly on values that clash. */
  lemma NativeAgrees(P: Program, L: Link, ccode: Slots.Texts, blocks: seq<seq<Byte>>, op: Op, s: seq<Value>)
    requires |s| == Effect(op).din && Compiled(op, s).Some?
    requires op == Eq || op == Ne ==> Comparable(P, L, ccode, blocks, s[0], s[1])
    ensures CCode(op, L.LowerAll(s)) == Some(L.LowerAll(Compiled(op, s).value))
            <==> ((op == Eq || op == Ne) ==> !Clash(L, ccode, blocks, s[0], s[1]))
  {
    hide Rotated, Unrotated, OnInts, CBinary, AddValues, SubValues, U32, I32, Link.Lower, Clash, Comparable;
    match op
    case Drop =>
    case Dup => assert L.LowerAll([s[0], s[0]]) == [L.Lower(s[0]), L.Lower(s[0])];
    case Swap => ShufflesAgree(L, s, 1);
    case Over => assert L.LowerAll([s[0], s[1], s[0]]) == [L.Lower(s[0]), L.Lower(s[1]), L.Lower(s[0])];
    case Rot => ShufflesAgree(L, s, 2);
    case NRot => ShufflesAgree(L, s, 2);
    case Neg => UnaryAgrees(L, op, s);
    case Not => UnaryAgrees(L, op, s);
    case Eq => ComparisonAgrees(P, L, ccode, blocks, op, s);
    case Ne => ComparisonAgrees(P, L, ccode, blocks, op, s);
    case _ => BinaryAgrees(L, op, s);
  }

  lemma UnaryAgrees(L: Link, op: Op, s: seq<Value>)
    requires (op == Neg || op == Not) && |s| == 1 && s[0].IntV?
    ensures CCode(op, L.LowerAll(s)) == Some(L.LowerAll(Compiled(op, s).value))
  {
    NegAgrees(L, s[0].x);
    LowerOne(L, OfInt(-(s[0].x as int)));
    LowerOne(L, OfInt(0xFFFF_FFFF - U32(s[0].x)));
  }

  lemma BinaryAgrees(L: Link, op: Op, s: seq<Value>)
    requires Effect(op) == Pair(2, 1) && op != Eq && op != Ne && |s| == 2 && Compiled(op, s).Some?
    ensures CCode(op, L.LowerAll(s)) == Some(L.LowerAll(Compiled(op, s).value))
  {
    hide OnInts, AddValues, SubValues, U32, I32, CBinary, Link.Lower;
    LowerOne(L, Compiled(op, s).value[0]);
    if op == Add || op == Sub {
      AddAgrees(L, s[0], s[1]);
    } else {
      LowerInt(L, s[0].x);
      LowerInt(L, s[1].x);
      IntsAgree(L, op, s[0].x, s[1].x);
    }
  }

  lemma ComparisonAgrees(P: Program, L: Link, ccode: Slots.Texts, blocks: seq<seq<Byte>>, op: Op, s: seq<Value>)
    requires (op == Eq || op == Ne) && |s| == 2 && Comparable(P, L, ccode, blocks, s[0], s[1])
    ensures CCode(op, L.LowerAll(s)) == Some(L.LowerAll(Compiled(op, s).value))
            <==> !Clash(L, ccode, blocks, s[0], s[1])
  {
    hide Link.Lower, Clash, Comparable, CBinary;
    LowerOne(L, Compiled(op, s).value[0]);
    EqualityAgrees(P, L, ccode, blocks, s[0], s[1]);
    CBinarySome(op, L.Lower(s[0]), L.Lower(s[1]));
  }

  lemma CBinarySome(op: Op, a: Word32, b: Word32)
    requires op == Eq || op == Ne
    ensures CBinary(op, a, b).Some?
  {}

  /** The C comparisons agree with the compiler's exactly on values that do not clash. */
  lemma EqualityAgrees(P: Program, L: Link, ccode: Slots.Texts, blocks: seq<seq<Byte>>, a: Value, b: Value)
    requires Comparable(P, L, ccode, blocks, a, b)
    ensures CBinary(Eq, L.Lower(a), L.Lower(b)) == Some(L.Lower(Flag(a == b))) <==> !Clash(L, ccode, blocks, a, b)
    ensures CBinary(Ne, L.Lower(a), L.Lower(b)) == Some(L.Lower(Flag(a != b))) <==> !Clash(L, ccode, blocks, a, b)
  {
    hide Link.Lower, Clash, Comparable;
    FlagAgrees(L, a == b);
    FlagAgrees(L, a != b);
    SameImage(P, L, ccode, blocks, a, b);
  }

  /** Which values have the same image: none but equal ones, but for the end of a block and the
      start of a later one with nothing between, tokens of words with the same C text, and a
      number that is a slot or an address. */
  lemma SameImage(P: Program, L: Link, ccode: Slots.Texts, blocks: seq<seq<Byte>>, a: Value, b: Value)
    requires Comparable(P, L, ccode, blocks, a, b)
    ensures Clash(L, ccode, blocks, a, b) ==> a != b
    ensures L.Lower(a) == L.Lower(b) <==> a == b || Clash(L, ccode, blocks, a, b)
  {
    hide U32, Meet, Slots.Linked, Slots.DataBytes;
    ImageValue(P, L, ccode, blocks, a);
    ImageValue(P, L, ccode, blocks, b);
    match (a, b)
    case (Blob(i, off), Blob(j, off')) =>
      if i < j { PointersMeet(P, L, ccode, blocks, a, b); }
      if j < i { PointersMeet(P, L, ccode, blocks, b, a); }
      MeetOrder(blocks, i, off, j, off');
      MeetOrder(blocks, j, off', i, off);
    case (XT(v), XT(w)) =>
      if v < w { TokensShare(P, L, ccode, blocks, v, w); }
      if w < v { TokensShare(P, L, ccode, blocks, w, v); }
    case (IntV(x), IntV(y)) =>
      ReadBack(x);
      ReadBack(y);
    case _ =>
  }

  /** The image as a number: a signed one is itself, and slots and addresses are below 2^31. */
  lemma ImageValue(P: Program, L: Link, ccode: Slots.Texts, blocks: seq<seq<Byte>>, v: Value)
    requires Comparable(P, L, ccode, blocks, v, v)
    ensures v.XT? ==> L.Lower(v) == L.SlotOf(v.word) < 0x8000_0000
    ensures v.Blob? ==> L.Lower(v) == L.AddressOf(v.block) + v.off < 0x8000_0000
    ensures v.IntV? ==> L.Lower(v) == if v.x < 0 then v.x + TWO32 else v.x
  {
    hide Slots.Covers, Slots.Assigned, Slots.Rank;
    if v.XT? { SlotBelow(P, L, ccode, blocks, v.word); }
    if v.Blob? { AddressBelow(L, blocks, v.block, v.off); }
  }

  lemma AddressBelow(L: Link, blocks: seq<seq<Byte>>, i: nat, off: int)
    requires L.blocks == Slots.Addresses(blocks) && |Slots.DataBytes(blocks, |blocks|)| < 0x8000_0000
    requires i < |blocks| && 0 <= off <= |blocks[i]|
    ensures 0 <= L.AddressOf(i) + off < 0x8000_0000
  {
    hide Slots.DataBytes;
    Slots.BlocksPlaced(blocks, |blocks|, i);
    assert L.AddressOf(i) == Slots.Addresses(blocks)[i];
  }

  lemma SlotBelow(P: Program, L: Link, ccode: Slots.Texts, blocks: seq<seq<Byte>>, w: nat)
    requires Slots.Linked(P, ccode, blocks, L.slots, L.base, L.blocks) && P.IsWord(w)
    ensures w < |L.slots| && L.SlotOf(w) == L.slots[w] < 0x8000_0000
  {
    assert P.words[w].Native? <==> ccode[w].Some?;
    Slots.RankOrder(P, w, |P.words|);
  }

  lemma TokensShare(P: Program, L: Link, ccode: Slots.Texts, blocks: seq<seq<Byte>>, v: nat, w: nat)
    requires Slots.Linked(P, ccode, blocks, L.slots, L.base, L.blocks) && v < w && P.IsWord(w)
    ensures |ccode| == |P.words| && (L.SlotOf(v) == L.SlotOf(w) <==> ccode[v].Some? && ccode[v] == ccode[w])
  {
    hide Slots.Covers, Slots.Assigned, Slots.Rank;
    Slots.SlotsDistinct(P, ccode, L.slots, L.base, Slots.Rank(P, |P.words|), v, w);
    SlotBelow(P, L, ccode, blocks, v);
    SlotBelow(P, L, ccode, blocks, w);
    TextsCount(P, ccode);
  }

  lemma TextsCount(P: Program, ccode: Slots.Texts)
    requires Slots.Covers(P, ccode)
    ensures |ccode| == |P.words|
  {}

  lemma PointersMeet(P: Program, L: Link, ccode: Slots.Texts, blocks: seq<seq<Byte>>, a: Value, b: Value)
    requires Comparable(P, L, ccode, blocks, a, b) && a.Blob? && b.Blob? && a.block < b.block
    ensures L.AddressOf(a.block) + a.off == L.AddressOf(b.block) + b.off
            <==> Meet(blocks, a.block, a.off, b.block, b.off)
  {
    hide Slots.Covers, Slots.Assigned, Slots.Rank, Slots.DataBytes;
    Slots.BlocksInOrder(blocks, a.block, b.block);
  }

  lemma MeetOrder(blocks: seq<seq<Byte>>, i: nat, off: int, j: nat, off': int)
    ensures Meet(blocks, i, off, j, off') ==> i < j
  {}

  /** Integers, and pointers into one block, never clash, wherever the pointers point. */
  lemma UsuallySeparate(L: Link, a: Value, b: Value)
    requires (a.IntV? && b.IntV?) || (a.Blob? && b.Blob? && a.block == b.block)
    ensures L.Lower(a) == L.Lower(b) <==> a == b
  {
    if a.IntV? {
      ReadBack(a.x);
      ReadBack(b.x);
    } else {
      DistanceAgrees(L, a.block, a.off, b.off);
    }
  }

  /** The end of a block and the start of the next one are one address: = tells them apart in the
      compiler but not in C. */
  lemma AdjacentBlocks(L: Link, block: nat, len: Int32)
    requires block + 1 < |L.blocks| && L.blocks[block + 1] == L.blocks[block] + len
    ensures Compiled(Eq, [Blob(block, len), Blob(block + 1, 0)]) == Some([Flag(false)])
    ensures CCode(Eq, L.LowerAll([Blob(block, len), Blob(block + 1, 0)])) == Some([CFlag(true)])
  {}

  /** data-get8: the byte at the image of a pointer in the data block is the byte that the
      pointer's block holds at its offset. */
  lemma DataGetAgrees(L: Link, blocks: seq<seq<Byte>>, block: nat, off: Int32)
    requires L.blocks == Slots.Addresses(blocks) && |Slots.DataBytes(blocks, |blocks|)| < 0x8000_0000
    requires block < |blocks| && 0 <= off < |blocks[block]|
    ensures var data := Slots.DataBytes(blocks, |blocks|);
            var at := L.Lower(Blob(block, off));
            at < |data| && data[at] == blocks[block][off]
  {
    hide Slots.DataBytes;
    var data := Slots.DataBytes(blocks, |blocks|);
    Slots.BlocksPlaced(blocks, |blocks|, block);
    var a := Slots.Addresses(blocks)[block];
    assert data[a..a + |blocks[block]|][off] == data[a + off];
  }

  /** Word w is the native op, in the compiler and in the emitted interpreter. */
  ghost predicate Implements(B: Build, C: Snippets, w: nat, op: Op) {
    && B.P.IsWord(w) && B.P.words[w] == Native(Effect(op))
    && (forall s: seq<Value> {:trigger B.P.native(w, s)} ::
          |s| == Effect(op).din && Compiled(op, s).Some? ==> B.P.native(w, s) == Compiled(op, s).value)
    && (forall ds: seq<Word32> {:trigger C(B.L.SlotOf(w), ds)} :: |ds| >= Effect(op).din ==>
          var floor := |ds| - Effect(op).din;
          match CCode(op, ds[floor..])
          case None => true
          case Some(r) => C(B.L.SlotOf(w), ds) == Some(ds[..floor] + r))
  }

  /** For these natives the emitted code is faithful wherever the compiler raises no exception and
      does not compare values that clash. */
  lemma NativeFaithful(B: Build, C: Snippets, ccode: Slots.Texts, blocks: seq<seq<Byte>>, w: nat, op: Op,
                       stack: seq<Value>)
    requires Implements(B, C, w, op) && |stack| >= Effect(op).din
    requires var s := stack[|stack| - Effect(op).din..];
             Compiled(op, s).Some?
             && (op == Eq || op == Ne ==>
                   Comparable(B.P, B.L, ccode, blocks, s[0], s[1]) && !Clash(B.L, ccode, blocks, s[0], s[1]))
    ensures SnippetAgrees(B, C, w, stack)
  {
    hide Compiled, CCode, Link.Lower, Clash, Comparable;
    var floor := |stack| - Effect(op).din;
    var s := stack[floor..];
    var ds := B.L.LowerAll(stack);
    NativeAgrees(B.P, B.L, ccode, blocks, op, s);
    assert ds[floor..] == B.L.LowerAll(s);
    var r := Compiled(op, s).value;
    assert B.L.LowerAll(stack[..floor] + r) == ds[..floor] + B.L.LowerAll(r);
    assert B.P.native(w, s) == r;
    assert C(B.L.SlotOf(w), ds) == Some(ds[..floor] + B.L.LowerAll(r));
  }
}
