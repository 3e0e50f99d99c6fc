// From words to code elements: slots, word order and GenerateCodeElements.

module Linking {
  import opened Arith
  import opened Wrappers
  import opened Programs
  import opened Layout

  /** What Generate assigned: a slot for each word, the first slot of the words without C code,
      and the address of each data block. */
  datatype Link = Link(slots: seq<nat>, base: nat, blocks: seq<nat>) {
    function SlotOf(w: nat): nat { if w < |slots| then slots[w] else 0 }

    function AddressOf(block: nat): nat { if block < |blocks| then blocks[block] else 0 }

    /** A constant as the C code sees it; int arithmetic wraps. */
    function Lower(v: Value): Word32 {
      match v
      case IntV(x) => U32(x)
      case XT(w) => U32(SlotOf(w))
      case Blob(b, o) => U32(AddressOf(b) + o)
    }

    function LowerAll(s: seq<Value>): (r: seq<Word32>)
      ensures |r| == |s|
    {
      seq(|s|, i requires 0 <= i < |s| => Lower(s[i]))
    }
  }

  /** ToCodeElement with FixUp: opcode p of a word whose elements start at index start. */
  function ElemOf(L: Link, op: Opcode, start: nat, p: nat): Elem {
    match op
    case Const(v) => EUIntInt(1, I32(L.Lower(v)))
    case GetLocal(n) => EUIntUInt(2, U32(n))
    case PutLocal(n) => EUIntUInt(3, U32(n))
    case Call(w) => EUInt(U32(L.SlotOf(w)))
    case Ret => EUInt(0)
    case Jump(d) => EJump(4, TargetIndex(start, p, d))
    case JumpIf(d) => EJump(5, TargetIndex(start, p, d))
    case JumpIfNot(d) => EJump(6, TargetIndex(start, p, d))
  }

  function TargetIndex(start: nat, p: nat, disp: int): nat {
    Max(0, start + 1 + p + 1 + disp)
  }

  /** GenerateCodeElements: a header with the number of locals, then the opcodes; native words
      have none; a data word pushes its address and returns. */
  function WordElems(P: Program, L: Link, w: nat, start: nat): seq<Elem>
    requires P.IsWord(w)
  {
    match P.words[w]
    case Native(_) => []
    case Data(b, o) => [EUInt(0), EUIntInt(1, I32(L.AddressOf(b) + o)), EUInt(0)]
    case Interpreted(nl, code, _) =>
      [EUInt(U32(nl))] + seq(|code|, p requires 0 <= p < |code| => ElemOf(L, code[p], start, p))
  }

  /** The elements of the first n words. */
  function Gcode(P: Program, L: Link, n: nat): seq<Elem>
    requires n <= |P.words|
  {
    if n == 0 then []
    else
      var front := Gcode(P, L, n - 1);
      front + WordElems(P, L, n - 1, |front|)
  }

  function StartOf(P: Program, L: Link, w: nat): nat
    requires w <= |P.words|
  {
    |Gcode(P, L, w)|
  }

  lemma {:induction false} GcodeAt(P: Program, L: Link, n: nat, w: nat, k: nat)
    requires w < n <= |P.words| && k < |WordElems(P, L, w, StartOf(P, L, w))|
    ensures StartOf(P, L, w) + k < |Gcode(P, L, n)|
    ensures Gcode(P, L, n)[StartOf(P, L, w) + k] == WordElems(P, L, w, StartOf(P, L, w))[k]
  {
    hide WordElems;
    if w < n - 1 { GcodeAt(P, L, n - 1, w, k); }
  }

  lemma {:induction false} StartOrder(P: Program, L: Link, v: nat, w: nat)
    requires v <= w <= |P.words|
    ensures StartOf(P, L, v) <= StartOf(P, L, w)
    ensures v < w ==> StartOf(P, L, v) + |WordElems(P, L, v, StartOf(P, L, v))| <= StartOf(P, L, w)
  {
    hide WordElems;
    if v < w - 1 { StartOrder(P, L, v, w - 1); }
  }

  /** Elements generated for the first n words, whatever the slots. */
  function ElemTotal(P: Program, n: nat): nat
    requires n <= |P.words|
  {
    if n == 0 then 0
    else ElemTotal(P, n - 1) + match P.words[n - 1]
                               case Native(_) => 0
                               case Data(_, _) => 3
                               case Interpreted(_, code, _) => 1 + |code|
  }

  lemma {:induction false} GcodeLength(P: Program, L: Link, n: nat)
    requires n <= |P.words|
    ensures |Gcode(P, L, n)| == ElemTotal(P, n)
  {
    if n > 0 { GcodeLength(P, L, n - 1); }
  }
}
