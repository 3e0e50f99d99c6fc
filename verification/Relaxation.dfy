// CodeElement objects and the loop of T0Comp.Generate that computes their addresses.

module Relaxation {
  import opened Arith
  import opened Wrappers
  import opened Codec
  import opened Layout

  class CodeElement {
    const elem: Elem
    var target: CodeElement?
    var address: int
    var lastLength: int

    constructor (elem: Elem)
      ensures this.elem == elem && target == null && address == -1 && lastLength == 0
    {
      this.elem := elem;
      target := null;
      address := -1;
      lastLength := 0;
    }

    method SetJumpTarget(t: CodeElement)
      requires elem.EJump?
      modifies this`target
      ensures target == t
    {
      target := t;
    }

    /** The jump offset in bytes; None while an address is missing. */
    function JumpOffset(): Option<int>
      reads this, target
    {
      if target == null || address < 0 || target.address < 0 then None
      else Some(target.address - (address + lastLength))
    }

    predicate OffsetIs32()
      reads this, target
    {
      JumpOffset().Some? ==> -0x8000_0000 <= JumpOffset().value < 0x8000_0000
    }

    method GetLength(one: bool) returns (len: nat)
      requires OffsetIs32()
      ensures len == OpLen(elem.val, one) + ArgLen(elem, JumpOffset())
    {
      if one {
        len := 1;
      } else {
        len := Encode7EUnsigned(elem.val, null);
      }
      var rest := 0;
      match elem {
        case EUInt(_) =>
        case EUIntInt(_, x) => rest := Encode7ESigned(x, null);
        case EUIntUInt(_, x) => rest := Encode7EUnsigned(x, null);
        case EUIntExpr(_, w, _) => rest := w;
        case EJump(_, _) =>
          var joff := JumpOffset();
          if joff.None? {
            rest := 1;
          } else {
            rest := Encode7ESigned(joff.value, null);
          }
      }
      len := len + rest;
    }

    /** Append the final encoding; fails on an opcode over one byte or an unknown address. */
    method Encode(bw: BlobWriter, one: bool) returns (ok: bool)
      requires OffsetIs32() && (elem.EUIntExpr? ==> 1 <= elem.width <= 5)
      modifies bw
      ensures ok <==> (one ==> elem.val <= 255) && (elem.EJump? ==> JumpOffset().Some?)
      ensures ok ==> bw.out == old(bw.out) + OpBytes(elem.val, one) + ArgOf(elem, JumpOffset())
    {
      ok := true;
      if one {
        var n;
        ok, n := EncodeOneByte(elem.val, bw);
        if !ok {
          return;
        }
      } else {
        var _ := Encode7EUnsigned(elem.val, bw);
      }
      match elem
      case EUInt(_) =>
      case EUIntInt(_, x) => var _ := Encode7ESigned(x, bw);
      case EUIntUInt(_, x) => var _ := Encode7EUnsigned(x, bw);
      case EUIntExpr(_, w, x) => bw.out := bw.out + T0Int(w, x);
      case EJump(_, _) =>
        var joff := JumpOffset();
        if joff.None? {
          return false;
        }
        var _ := Encode7ESigned(joff.value, bw);
    }
  }

  // ----- the objects and the layout they hold -----

  ghost predicate Distinct(gcode: seq<CodeElement>) {
    forall i, j :: 0 <= i < j < |gcode| ==> gcode[i] != gcode[j]
  }

  /** gcode are the elements of code, their jump targets set. */
  ghost predicate Represents(gcode: seq<CodeElement>, code: seq<Elem>)
    reads gcode
  {
    && WellFormed(code) && |gcode| == |code| && Distinct(gcode)
    && (forall i {:trigger gcode[i]} :: 0 <= i < |gcode| ==>
          && gcode[i].elem == code[i]
          && (code[i].EJump? ==> gcode[i].target == gcode[code[i].target])
          && (!code[i].EJump? ==> gcode[i].target == null))
  }

  ghost predicate Blank(gcode: seq<CodeElement>)
    reads gcode
  {
    forall i {:trigger gcode[i]} :: 0 <= i < |gcode| ==> gcode[i].address == -1
  }

  ghost predicate LaidOut(gcode: seq<CodeElement>, lens: seq<nat>)
    reads gcode
  {
    && |gcode| == |lens|
    && (forall i {:trigger gcode[i]} :: 0 <= i < |gcode| ==>
          gcode[i].address == Sum(lens, i) && gcode[i].lastLength == lens[i])
  }

  lemma OffsetOf(gcode: seq<CodeElement>, code: seq<Elem>, lens: seq<nat>, i: nat)
    requires Represents(gcode, code) && LaidOut(gcode, lens) && i < |code|
    ensures gcode[i].JumpOffset() == OffsetIn(code[i], i, lens)
  {
    if code[i].EJump? {
      assert gcode[code[i].target] == gcode[i].target;
    }
  }

  // ----- what the passes keep -----

  ghost predicate Least(code: seq<Elem>, one: bool, lens: seq<nat>) {
    forall other {:trigger SelfConsistent(code, one, other)} ::
      SelfConsistent(code, one, other) ==> Below(lens, other)
  }

  ghost predicate Growing(code: seq<Elem>, one: bool, lens: seq<nat>) {
    && WellFormed(code) && |lens| == |code|
    && Below(First(code, one), lens) && Below(lens, Pass(code, one, lens)) && Positive(lens)
    && AtMostTen(lens) && Least(code, one, lens)
    && (forall i :: 0 <= i < |code| ==> lens[i] <= FirstLen(code[i], one) + (if code[i].EJump? then 4 else 0))
  }

  lemma GrowingFirst(code: seq<Elem>, one: bool)
    requires WellFormed(code)
    ensures Growing(code, one, First(code, one))
  {
    var lens := First(code, one);
    FirstAtMostTen(code, one);
    FirstIsLeast(code, one, lens);
    forall other | SelfConsistent(code, one, other)
      ensures Below(lens, other)
    {
      FirstIsLeast(code, one, other);
    }
  }

  lemma GrowingNext(code: seq<Elem>, one: bool, lens: seq<nat>)
    requires Growing(code, one, lens) && Fits(code)
    ensures Growing(code, one, Pass(code, one, lens))
  {
    var next := Pass(code, one, lens);
    PassAtMostTen(code, one, lens);
    PassGrows(code, one, lens, next);
    FirstIsLeast(code, one, lens);
    LeastNext(code, one, lens);
    BelowPositive(lens, next);
  }

  lemma LeastNext(code: seq<Elem>, one: bool, lens: seq<nat>)
    requires WellFormed(code) && |lens| == |code| && Positive(lens) && Least(code, one, lens)
    ensures Least(code, one, Pass(code, one, lens))
  {
    forall other | SelfConsistent(code, one, other)
      ensures Below(Pass(code, one, lens), other)
    {
      PassGrows(code, one, lens, other);
    }
  }

  lemma StableTotal(code: seq<Elem>, one: bool, lens: seq<nat>)
    requires Growing(code, one, lens)
    ensures Sum(lens, |lens|) <= Sum(Pass(code, one, lens), |lens|)
    ensures Sum(lens, |lens|) == Sum(Pass(code, one, lens), |lens|) ==> SelfConsistent(code, one, lens)
  {
    var next := Pass(code, one, lens);
    GapGrows(lens, next, 0, |lens|);
    if Sum(lens, |lens|) == Sum(next, |lens|) {
      SameTotal(lens, next, |lens|);
      assert lens[..|lens|] == lens && next[..|lens|] == next;
    }
  }

  // ----- the loop -----

  /** The next layout: the first one, or one pass from the last. */
  function NextLayout(code: seq<Elem>, one: bool, started: bool, lens: seq<nat>): (r: seq<nat>)
    requires WellFormed(code) && (started ==> |lens| == |code|)
    ensures |r| == |code|
  {
    if started then Pass(code, one, lens) else First(code, one)
  }

  ghost predicate Current(gcode: seq<CodeElement>, started: bool, lens: seq<nat>)
    reads gcode
  {
    if started then LaidOut(gcode, lens) else Blank(gcode)
  }

  method Measure(gcode: seq<CodeElement>, one: bool, ghost code: seq<Elem>, ghost started: bool, ghost lens: seq<nat>)
    returns (gcodeLen: array<nat>)
    requires Represents(gcode, code) && Fits(code) && Current(gcode, started, lens)
    requires started ==> |lens| == |code| && AtMostTen(lens)
    ensures gcodeLen[..] == NextLayout(code, one, started, lens)
    ensures fresh(gcodeLen)
  {
    gcodeLen := new nat[|gcode|];
    for i := 0 to |gcode|
      invariant forall k :: 0 <= k < i ==> gcodeLen[k] == NextLayout(code, one, started, lens)[k]
    {
      if started {
        OffsetOf(gcode, code, lens, i);
        if code[i].EJump? { OffsetFits(code, lens, i, code[i].target); }
      }
      assert started || gcode[i].JumpOffset() == None;
      gcodeLen[i] := gcode[i].GetLength(one);
    }
  }

  method Place(gcode: seq<CodeElement>, gcodeLen: array<nat>, ghost code: seq<Elem>) returns (off: nat)
    requires Represents(gcode, code) && gcodeLen.Length == |gcode|
    modifies gcode
    ensures Represents(gcode, code) && LaidOut(gcode, gcodeLen[..]) && off == Sum(gcodeLen[..], |gcode|)
  {
    off := 0;
    for i := 0 to |gcode|
      invariant Represents(gcode, code)
      invariant off == Sum(gcodeLen[..], i)
      invariant forall k {:trigger gcode[k]} :: 0 <= k < i ==>
                  gcode[k].address == Sum(gcodeLen[..], k) && gcode[k].lastLength == gcodeLen[k]
    {
      gcode[i].address := off;
      gcode[i].lastLength := gcodeLen[i];
      off := off + gcodeLen[i];
    }
  }

  /** Compute all addresses. The loop stops when the total length repeats; then every element
      has exactly the length its addresses call for, no self-consistent layout is shorter
      anywhere, and at most four passes per jump, plus two, were made. */
  method Relax(gcode: seq<CodeElement>, one: bool, ghost code: seq<Elem>)
    returns (totalLen: nat, ghost lens: seq<nat>, ghost passes: nat)
    requires Represents(gcode, code) && Fits(code) && Blank(gcode)
    modifies gcode
    ensures Represents(gcode, code)
    ensures LaidOut(gcode, lens) && totalLen == Sum(lens, |code|)
    ensures SelfConsistent(code, one, lens)
    ensures Least(code, one, lens) && AtMostTen(lens)
    ensures passes <= 4 * JumpCount(code) + 2
  {
    lens, passes := [], 0;
    var total: int := -1;
    while true
      invariant Represents(gcode, code)
      invariant total >= -1 && Current(gcode, total >= 0, lens)
      invariant total < 0 ==> passes == 0
      invariant total >= 0 ==> Growing(code, one, lens) && total == Sum(lens, |code|)
                               && 1 <= passes && Sum(First(code, one), |code|) + passes - 1 <= total
      decreases if total < 0 then 4 * JumpCount(code) + 2
                else Sum(First(code, one), |code|) + 4 * JumpCount(code) - total
    {
      ghost var prev := lens;
      var gcodeLen := Measure(gcode, one, code, total >= 0, lens);
      var off := Place(gcode, gcodeLen, code);
      lens := gcodeLen[..];
      passes := passes + 1;
      if total >= 0 {
        StableTotal(code, one, prev);
        GrowingNext(code, one, prev);
      } else {
        GrowingFirst(code, one);
      }
      TotalBound(code, one, lens, |code|);
      assert code[..|code|] == code;
      if off == total {
        totalLen := off;
        assert lens == prev;
        break;
      }
      total := off;
    }
  }
}
