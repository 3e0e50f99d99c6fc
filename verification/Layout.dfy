// Code elements, their encodings, and the layouts the relaxation loop steps through.

module Layout {
  import opened Arith
  import opened Codec
  import opened Wrappers

  /** The CodeElement subclasses. A jump names its target by index in the element list; an
      expression carries the byte width and the value its C text evaluates to. */
  datatype Elem =
    | EUInt(val: Word32)
    | EUIntInt(val: Word32, arg: Int32)
    | EUIntUInt(val: Word32, uarg: Word32)
    | EUIntExpr(val: Word32, width: nat, value: Word32)
    | EJump(val: Word32, target: nat)

  predicate WellFormed(code: seq<Elem>) {
    forall i {:trigger code[i]} :: 0 <= i < |code| ==>
      && (code[i].EJump? ==> code[i].target < |code|)
      && (code[i].EUIntExpr? ==> 1 <= code[i].width <= 5)
  }

  /** Length of the opcode part. */
  function OpLen(val: Word32, one: bool): (n: nat)
    ensures n >= 1
  {
    if one then 1 else ULen(val)
  }

  /** Sum of the first i lengths: the address of element i. */
  function Sum(lens: seq<nat>, i: nat): nat
    requires i <= |lens|
  {
    if i == 0 then 0 else Sum(lens, i - 1) + lens[i - 1]
  }

  /** Distance from the end of element i to the first byte of element t. */
  function JumpOff(lens: seq<nat>, i: nat, t: nat): int
    requires i < |lens| && t < |lens|
  {
    Sum(lens, t) - Sum(lens, i + 1)
  }

  /** Length of the argument; a jump whose offset is not known yet counts for one byte. */
  function ArgLen(e: Elem, joff: Option<int>): nat {
    match e
    case EUInt(_) => 0
    case EUIntInt(_, x) => SLen(x)
    case EUIntUInt(_, x) => ULen(x)
    case EUIntExpr(_, w, _) => w
    case EJump(_, _) => if joff.None? then 1 else SLen(joff.value)
  }

  /** The offset of element i when it is a jump. */
  function OffsetIn(e: Elem, i: nat, lens: seq<nat>): Option<int>
    requires i < |lens| && (e.EJump? ==> e.target < |lens|)
  {
    if e.EJump? then Some(JumpOff(lens, i, e.target)) else None
  }

  /** GetLength of element i under the current layout. */
  function ElemLen(e: Elem, i: nat, lens: seq<nat>, one: bool): (n: nat)
    requires i < |lens| && (e.EJump? ==> e.target < |lens|)
    ensures n >= 1
  {
    OpLen(e.val, one) + ArgLen(e, OffsetIn(e, i, lens))
  }

  /** GetLength before any address is known. */
  function FirstLen(e: Elem, one: bool): (n: nat)
    ensures n >= 1
  {
    OpLen(e.val, one) + ArgLen(e, None)
  }

  function First(code: seq<Elem>, one: bool): (lens: seq<nat>)
    ensures |lens| == |code|
  {
    seq(|code|, i requires 0 <= i < |code| => FirstLen(code[i], one))
  }

  /** One pass of the loop. */
  function Pass(code: seq<Elem>, one: bool, lens: seq<nat>): (r: seq<nat>)
    requires WellFormed(code) && |lens| == |code|
    ensures |r| == |code|
  {
    seq(|code|, i requires 0 <= i < |code| => ElemLen(code[i], i, lens, one))
  }

  /** A layout in which every element has the length its own addresses call for. */
  ghost predicate SelfConsistent(code: seq<Elem>, one: bool, lens: seq<nat>) {
    WellFormed(code) && |lens| == |code| && Pass(code, one, lens) == lens
  }

  ghost predicate Below(a: seq<nat>, b: seq<nat>) {
    |a| == |b| && forall i :: 0 <= i < |a| ==> a[i] <= b[i]
  }

  ghost predicate Positive(a: seq<nat>) { forall i :: 0 <= i < |a| ==> a[i] >= 1 }

  // ----- sums -----

  lemma {:induction false} SumOrder(lens: seq<nat>, i: nat, j: nat)
    requires i <= j <= |lens|
    ensures Sum(lens, i) <= Sum(lens, j)
    ensures Positive(lens) && i < j ==> Sum(lens, i) < Sum(lens, j)
    decreases j
  {
    if i < j { SumOrder(lens, i, j - 1); }
  }

  lemma {:induction false} GapGrows(a: seq<nat>, b: seq<nat>, i: nat, j: nat)
    requires Below(a, b) && i <= j <= |a|
    ensures Sum(a, j) - Sum(a, i) <= Sum(b, j) - Sum(b, i)
    decreases j
  {
    if i < j { GapGrows(a, b, i, j - 1); }
  }

  /** Equal totals of ordered layouts mean equal layouts. */
  lemma {:induction false} SameTotal(a: seq<nat>, b: seq<nat>, n: nat)
    requires Below(a, b) && n <= |a| && Sum(a, n) == Sum(b, n)
    ensures a[..n] == b[..n]
  {
    if n > 0 {
      GapGrows(a, b, 0, n - 1);
      SameTotal(a, b, n - 1);
      assert a[..n] == a[..n - 1] + [a[n - 1]];
      assert b[..n] == b[..n - 1] + [b[n - 1]];
    }
  }

  // ----- lengths never shrink -----

  lemma JumpLenGrows(a: seq<nat>, b: seq<nat>, i: nat, t: nat)
    requires Below(a, b) && Positive(a) && i < |a| && t < |a|
    ensures SLen(JumpOff(a, i, t)) <= SLen(JumpOff(b, i, t))
  {
    if t <= i {
      GapGrows(a, b, t, i + 1);
      SumOrder(a, t, i + 1);
    } else {
      GapGrows(a, b, i + 1, t);
      SumOrder(a, i + 1, t);
    }
    SLenMonotone(JumpOff(a, i, t), JumpOff(b, i, t));
  }

  lemma PassGrows(code: seq<Elem>, one: bool, a: seq<nat>, b: seq<nat>)
    requires WellFormed(code) && |a| == |code| && Below(a, b) && Positive(a)
    ensures Below(Pass(code, one, a), Pass(code, one, b))
  {
    forall i | 0 <= i < |code|
      ensures Pass(code, one, a)[i] <= Pass(code, one, b)[i]
    {
      if code[i].EJump? { JumpLenGrows(a, b, i, code[i].target); }
    }
  }

  lemma FirstIsLeast(code: seq<Elem>, one: bool, lens: seq<nat>)
    requires WellFormed(code) && |lens| == |code|
    ensures Below(First(code, one), Pass(code, one, lens)) && Positive(First(code, one))
  {}

  lemma BelowPositive(a: seq<nat>, b: seq<nat>)
    requires Below(a, b) && Positive(a)
    ensures Positive(b)
  {}

  // ----- bounds -----

  function JumpCount(code: seq<Elem>): nat {
    if code == [] then 0
    else JumpCount(code[..|code| - 1]) + (if code[|code| - 1].EJump? then 1 else 0)
  }

  /** Small enough for every offset to be a 32-bit integer. */
  predicate Fits(code: seq<Elem>) { 10 * |code| < 0x8000_0000 }

  lemma {:induction false} SumBound(lens: seq<nat>, i: nat, k: nat)
    requires i <= |lens| && forall j :: 0 <= j < |lens| ==> lens[j] <= k
    ensures Sum(lens, i) <= k * i
  {
    if i > 0 { SumBound(lens, i - 1, k); }
  }

  ghost predicate AtMostTen(lens: seq<nat>) { forall i :: 0 <= i < |lens| ==> lens[i] <= 10 }

  lemma OffsetFits(code: seq<Elem>, lens: seq<nat>, i: nat, t: nat)
    requires |lens| == |code| && Fits(code) && AtMostTen(lens) && i < |lens| && t < |lens|
    ensures -0x8000_0000 <= JumpOff(lens, i, t) < 0x8000_0000
    ensures Sum(lens, t) < 0x8000_0000
  {
    SumBound(lens, t, 10);
    SumBound(lens, i + 1, 10);
  }

  lemma PassAtMostTen(code: seq<Elem>, one: bool, lens: seq<nat>)
    requires WellFormed(code) && |lens| == |code| && Fits(code) && AtMostTen(lens)
    ensures AtMostTen(Pass(code, one, lens))
    ensures forall i :: 0 <= i < |code| ==>
              Pass(code, one, lens)[i] <= FirstLen(code[i], one) + (if code[i].EJump? then 4 else 0)
  {
    forall i | 0 <= i < |code|
      ensures Pass(code, one, lens)[i] <= 10
      ensures Pass(code, one, lens)[i] <= FirstLen(code[i], one) + (if code[i].EJump? then 4 else 0)
    {
      ElemAtMostTen(code, one, lens, i);
    }
  }

  lemma ElemAtMostTen(code: seq<Elem>, one: bool, lens: seq<nat>, i: nat)
    requires WellFormed(code) && |lens| == |code| && Fits(code) && AtMostTen(lens) && i < |code|
    ensures ElemLen(code[i], i, lens, one) <= 10
    ensures ElemLen(code[i], i, lens, one) <= FirstLen(code[i], one) + (if code[i].EJump? then 4 else 0)
  {
    var e := code[i];
    ULenBound(e.val);
    match e
    case EUIntInt(_, x) => SLenBound(x);
    case EUIntUInt(_, x) => ULenBound(x);
    case EJump(_, t) =>
      OffsetFits(code, lens, i, t);
      SLenBound(JumpOff(lens, i, t));
    case _ =>
  }

  lemma FirstAtMostTen(code: seq<Elem>, one: bool)
    requires WellFormed(code)
    ensures AtMostTen(First(code, one))
  {
    forall i | 0 <= i < |code|
      ensures First(code, one)[i] <= 10
    {
      ULenBound(code[i].val);
      match code[i]
      case EUIntInt(_, x) => SLenBound(x);
      case EUIntUInt(_, x) => ULenBound(x);
      case _ =>
    }
  }

  lemma {:induction false} TotalBound(code: seq<Elem>, one: bool, lens: seq<nat>, n: nat)
    requires |lens| == |code| && n <= |code|
    requires forall i :: 0 <= i < |code| ==>
               lens[i] <= FirstLen(code[i], one) + (if code[i].EJump? then 4 else 0)
    ensures Sum(lens, n) <= Sum(First(code, one), n) + 4 * JumpCount(code[..n])
  {
    if n > 0 {
      TotalBound(code, one, lens, n - 1);
      assert code[..n][..n - 1] == code[..n - 1];
    } else {
      assert code[..0] == [];
    }
  }

  // ----- encoding -----

  /** T0_VBYTE and T0_FBYTE. */
  function VByte(x: Word32, n: nat): Byte { Shr(x, n) % 128 + 128 }

  function FByte(x: Word32): Byte { x % 128 }

  /** T0_SBYTE. */
  function SByte(x: Word32): Byte
  {
    ShrRange(x);
    var y := Shr(x, 28);
    // (y + 0xF8) ^ 0xF8 truncated to a byte: the carry out of y + 0xF8 flips the upper bits back
    if y < 8 then y else 0xF8 + (y - 8)
  }

  lemma ShrRange(x: Word32)
    ensures 0 <= Shr(x, 28) < 16
  {
    ShrSeven(x, 0);
    ShrSeven(x, 7);
    ShrSeven(x, 14);
    ShrSeven(x, 21);
  }

  /** T0_INT1 to T0_INT5. */
  function T0Int(width: nat, x: Word32): (b: seq<Byte>)
    requires 1 <= width <= 5
    ensures |b| == width
  {
    match width
    case 1 => [FByte(x)]
    case 2 => [VByte(x, 7), FByte(x)]
    case 3 => [VByte(x, 14), VByte(x, 7), FByte(x)]
    case 4 => [VByte(x, 21), VByte(x, 14), VByte(x, 7), FByte(x)]
    case 5 => [SByte(x), VByte(x, 21), VByte(x, 14), VByte(x, 7), FByte(x)]
  }

  /** The opcode part; over one byte the encoder refuses values above 255. */
  function OpBytes(val: Word32, one: bool): (b: seq<Byte>)
    ensures |b| == OpLen(val, one)
  {
    if one then [val % 256] else EncodeU(val)
  }

  /** The argument bytes, given the jump offset. */
  function ArgOf(e: Elem, joff: Option<int>): (b: seq<Byte>)
    requires e.EUIntExpr? ==> 1 <= e.width <= 5
    requires e.EJump? ==> joff.Some?
    ensures |b| == ArgLen(e, joff)
  {
    match e
    case EUInt(_) => []
    case EUIntInt(_, x) => EncodeS(x)
    case EUIntUInt(_, x) => EncodeU(x)
    case EUIntExpr(_, w, x) => T0Int(w, x)
    case EJump(_, _) => EncodeS(joff.value)
  }

  /** The argument bytes of element i once the layout is final. */
  function ArgBytes(e: Elem, i: nat, lens: seq<nat>): seq<Byte>
    requires i < |lens| && (e.EJump? ==> e.target < |lens|) && (e.EUIntExpr? ==> 1 <= e.width <= 5)
  {
    ArgOf(e, OffsetIn(e, i, lens))
  }

  function Encoded(e: Elem, i: nat, lens: seq<nat>, one: bool): (b: seq<Byte>)
    requires i < |lens| && (e.EJump? ==> e.target < |lens|) && (e.EUIntExpr? ==> 1 <= e.width <= 5)
    ensures |b| == ElemLen(e, i, lens, one)
  {
    OpBytes(e.val, one) + ArgBytes(e, i, lens)
  }

  predicate OneByteFits(code: seq<Elem>, one: bool) {
    one ==> forall i {:trigger code[i]} :: 0 <= i < |code| ==> code[i].val <= 255
  }

  /** The code block: all elements in order. */
  function CodeBytes(code: seq<Elem>, lens: seq<nat>, one: bool, n: nat): seq<Byte>
    requires WellFormed(code) && |lens| == |code| && n <= |code|
  {
    if n == 0 then [] else CodeBytes(code, lens, one, n - 1) + Encoded(code[n - 1], n - 1, lens, one)
  }

  lemma LengthHeld(code: seq<Elem>, lens: seq<nat>, one: bool, i: nat)
    requires SelfConsistent(code, one, lens) && i < |code|
    ensures lens[i] == ElemLen(code[i], i, lens, one)
  {
    assert Pass(code, one, lens)[i] == lens[i];
  }

  lemma {:induction false} CodeLength(code: seq<Elem>, lens: seq<nat>, one: bool, n: nat)
    requires SelfConsistent(code, one, lens) && WellFormed(code) && n <= |code| == |lens|
    ensures |CodeBytes(code, lens, one, n)| == Sum(lens, n)
  {
    hide Encoded, ElemLen, SelfConsistent, Pass;
    if n > 0 {
      CodeLength(code, lens, one, n - 1);
      LengthHeld(code, lens, one, n - 1);
    }
  }

  /** In a self-consistent layout the bytes at the address of an element are its encoding. */
  lemma {:induction false} BytesAt(code: seq<Elem>, lens: seq<nat>, one: bool, n: nat, i: nat)
    requires SelfConsistent(code, one, lens) && i < n <= |code| == |lens| && WellFormed(code)
    ensures Sum(lens, i) + lens[i] == Sum(lens, i + 1) <= |CodeBytes(code, lens, one, n)|
    ensures CodeBytes(code, lens, one, n)[Sum(lens, i)..Sum(lens, i + 1)] == Encoded(code[i], i, lens, one)
  {
    hide Encoded, ElemLen, SelfConsistent;
    CodeLength(code, lens, one, n - 1);
    CodeLength(code, lens, one, n);
    SumOrder(lens, i + 1, n);
    var front := CodeBytes(code, lens, one, n - 1);
    var back := Encoded(code[n - 1], n - 1, lens, one);
    if i == n - 1 {
      SliceBack(front, back);
    } else {
      BytesAt(code, lens, one, n - 1, i);
      SliceFront(front, back, Sum(lens, i), Sum(lens, i + 1));
    }
  }

  lemma SliceBack(a: seq<Byte>, b: seq<Byte>)
    ensures (a + b)[|a|..|a| + |b|] == b
  {}

  lemma SliceFront(a: seq<Byte>, b: seq<Byte>, i: nat, j: nat)
    requires i <= j <= |a|
    ensures (a + b)[i..j] == a[i..j]
  {}
}
