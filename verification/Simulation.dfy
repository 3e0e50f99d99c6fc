// The byte machine, run on the generated code block, does what the opcode machine does.

module Simulation {
  import opened Arith
  import opened Wrappers
  import opened StackEffect
  import opened Programs
  import opened OpMachine
  import opened Codec
  import opened Layout
  import opened Linking
  import opened ByteMachine
  import FlowSound

  /** The outcome of Generate: the program, its linking, and the final layout. */
  datatype Build = Build(P: Program, L: Link, one: bool, lens: seq<nat>, caddr: seq<nat>) {
    function Elems(): seq<Elem> { Gcode(P, L, |P.words|) }

    function Code(): seq<Byte> {
      if WellFormed(Elems()) && |lens| == |Elems()|
      then CodeBytes(Elems(), lens, one, |Elems()|) else []
    }

    function Img(): Image { Image(Code(), caddr, L.base, one) }
  }

  /** Every jump of every word stays inside the word. */
  ghost predicate ClosedJumps(P: Program) {
    forall w: nat, p: nat {:trigger P.Code(w)[p]} ::
      P.IsInterpreted(w) && p < |P.Code(w)| && P.Code(w)[p].IsJump() ==>
        0 <= p + 1 + P.Code(w)[p].disp < |P.Code(w)|
  }

  /** Slots: C snippets from 7 up, all other words from L.base up with their table entry, a
      16-bit number. */
  ghost predicate SlotsLinked(B: Build) {
    && 7 <= B.L.base
    && |B.L.slots| == |B.P.words|
    && (forall w: nat {:trigger B.L.slots[w]} :: w < |B.P.words| ==>
          && B.L.slots[w] < 0x8000_0000
          && (if B.P.words[w].Native? then 7 <= B.L.slots[w] < B.L.base
              else
                && B.L.base <= B.L.slots[w] < B.L.base + |B.caddr|
                && StartOf(B.P, B.L, w) <= |B.lens|
                && B.caddr[B.L.slots[w] - B.L.base] == Sum(B.lens, StartOf(B.P, B.L, w)) % 0x1_0000))
  }

  /** The number of locals survives the header: one raw byte read back as 7E, or a 16-bit field. */
  ghost predicate LocalsFit(P: Program, one: bool) {
    forall w: nat {:trigger P.words[w]} :: P.IsInterpreted(w) ==>
      P.words[w].numLocals <= if one then 127 else 0xFFFF
  }

  /** A code block with its tables. */
  ghost predicate Coded(B: Build) {
    && WellFormed(B.Elems()) && SelfConsistent(B.Elems(), B.one, B.lens)
    && OneByteFits(B.Elems(), B.one)
    && Sum(B.lens, |B.lens|) < 0x8000_0000
    && SlotsLinked(B) && ClosedJumps(B.P) && LocalsFit(B.P, B.one) && WellScoped(B.P)
  }

  function HeaderAddress(B: Build, w: nat): nat
    requires B.P.IsWord(w)
  {
    if StartOf(B.P, B.L, w) <= |B.lens| then Sum(B.lens, StartOf(B.P, B.L, w)) else 0
  }

  /** A word with bytecode, whose header can be named in the 16-bit table. */
  predicate HeaderFits(B: Build, w: nat) {
    B.P.IsWord(w) && !B.P.words[w].Native? ==> HeaderAddress(B, w) < 0x1_0000
  }

  /** If the opcode at ip enters bytecode, the header of the word called and the place to return
      to can be named in 16 bits. */
  predicate CallFits(B: Build, ip: Ip) {
    InCode(B.P, ip) && B.P.Code(ip.word)[ip.off].Call? ==>
      var w := B.P.Code(ip.word)[ip.off].target;
      B.P.IsWord(w) && !B.P.words[w].Native? ==>
        HeaderFits(B, w) && AddressOf(B, Ip(ip.word, ip.off + 1)) < 0x1_0000
  }

  /** All addresses that the emitted code keeps in 16 bits fit there. */
  ghost predicate AddressesFit(B: Build) {
    && (forall w: nat {:trigger HeaderFits(B, w)} :: HeaderFits(B, w))
    && (forall ip: Ip {:trigger CallFits(B, ip)} :: CallFits(B, ip))
  }

  ghost predicate WellBuilt(B: Build) { Coded(B) && AddressesFit(B) }

  lemma Shape(B: Build)
    requires Coded(B)
    ensures |B.lens| == |B.Elems()| && 7 <= B.L.base
  {
    hide Gcode, Pass, Sum;
  }

  // ----- reading one element -----

  /** Between from and to stand an opcode and its argument. */
  predicate At(b: seq<Byte>, from: nat, to: nat, val: Word32, one: bool, arg: seq<Byte>) {
    && (one ==> val <= 255)
    && from <= to <= |b| && b[from..to] == OpBytes(val, one) + arg
  }

  lemma AtParts(b: seq<Byte>, from: nat, to: nat, val: Word32, one: bool, arg: seq<Byte>)
    requires At(b, from, to, val, one, arg)
    ensures var mid := from + OpLen(val, one);
            mid + |arg| == to && b[from..mid] == OpBytes(val, one) && b[mid..to] == arg
  {
    var n := OpLen(val, one);
    var all := b[from..to];
    assert b[from..from + n] == all[..n] == OpBytes(val, one);
    assert b[from + n..to] == all[n..] == arg;
  }

  /** T0_NEXT reads the opcode. */
  lemma ReadOp(img: Image, from: nat, to: nat, val: Word32, arg: seq<Byte>)
    requires At(img.code, from, to, val, img.one, arg)
    ensures Next(img, from) == Some(Parsed(val, from + OpLen(val, img.one)))
  {
    AtParts(img.code, from, to, val, img.one, arg);
    if img.one {
      assert img.code[from] == img.code[from..from + 1][0];
    } else {
      UnsignedRoundTrip(img.code, from, val);
    }
  }

  lemma ReadSigned(img: Image, from: nat, to: nat, val: Word32, x: Int32)
    requires At(img.code, from, to, val, img.one, EncodeS(x))
    ensures ParseSigned(img.code, from + OpLen(val, img.one)) == Some(Parsed(x, to))
  {
    AtParts(img.code, from, to, val, img.one, EncodeS(x));
    SignedRoundTrip(img.code, from + OpLen(val, img.one), x);
  }

  lemma ReadUnsigned(img: Image, from: nat, to: nat, val: Word32, x: Word32)
    requires At(img.code, from, to, val, img.one, EncodeU(x))
    ensures ParseUnsigned(img.code, from + OpLen(val, img.one)) == Some(Parsed(x, to))
  {
    AtParts(img.code, from, to, val, img.one, EncodeU(x));
    UnsignedRoundTrip(img.code, from + OpLen(val, img.one), x);
  }

  /** The header of a word is read as 7E: exact for one raw byte below 128. */
  lemma ReadHeader(img: Image, from: nat, to: nat, n: Word32)
    requires At(img.code, from, to, n, img.one, [])
    requires img.one ==> n <= 127
    ensures ParseUnsigned(img.code, from) == Some(Parsed(n, to))
  {
    AtParts(img.code, from, to, n, img.one, []);
    if img.one {
      assert img.code[from] == img.code[from..from + 1][0];
    } else {
      UnsignedRoundTrip(img.code, from, n);
    }
  }

  /** Every element of a well-built image stands at its address. */
  lemma ElemAt(B: Build, i: nat)
    requires Coded(B) && i < |B.Elems()|
    ensures var e := B.Elems()[i];
            At(B.Img().code, Sum(B.lens, i), Sum(B.lens, i + 1), e.val, B.one, ArgBytes(e, i, B.lens))
    ensures Sum(B.lens, i) < Sum(B.lens, i + 1) < 0x8000_0000
  {
    hide SlotsLinked, LocalsFit, ClosedJumps, WellScoped, ElemLen, ArgBytes, OpBytes;
    var e := B.Elems()[i];
    BytesAt(B.Elems(), B.lens, B.one, |B.Elems()|, i);
    CodeLength(B.Elems(), B.lens, B.one, |B.Elems()|);
    assert Pass(B.Elems(), B.one, B.lens)[i] == ElemLen(e, i, B.lens, B.one);
  }

  // ----- addresses -----

  /** The index of the element of opcode ip.off of word ip.word. */
  function IndexOf(B: Build, ip: Ip): int
    requires B.P.IsWord(ip.word)
  {
    StartOf(B.P, B.L, ip.word) + 1 + ip.off
  }

  function AddressOf(B: Build, ip: Ip): nat
    requires B.P.IsWord(ip.word)
  {
    if 0 <= IndexOf(B, ip) <= |B.lens| then Sum(B.lens, IndexOf(B, ip)) else 0
  }

  lemma CodeElem(B: Build, ip: Ip)
    requires Coded(B) && InCode(B.P, ip)
    ensures 0 < IndexOf(B, ip) < |B.Elems()| == |B.lens|
    ensures B.Elems()[IndexOf(B, ip)]
         == ElemOf(B.L, B.P.Code(ip.word)[ip.off], StartOf(B.P, B.L, ip.word), ip.off)
  {
    hide Coded, ElemOf, Gcode, StartOf;
    Shape(B);
    GcodeAt(B.P, B.L, |B.P.words|, ip.word, 1 + ip.off);
  }

  /** An opcode's element stands between its address and the next one, and no opcode is at 0. */
  lemma OpcodeAt(B: Build, ip: Ip)
    requires Coded(B) && InCode(B.P, ip)
    ensures 0 < IndexOf(B, ip) < |B.Elems()| == |B.lens|
    ensures var i := IndexOf(B, ip);
            var e := ElemOf(B.L, B.P.Code(ip.word)[ip.off], StartOf(B.P, B.L, ip.word), ip.off);
            && B.Elems()[i] == e
            && At(B.Img().code, AddressOf(B, ip), AddressOf(B, Ip(ip.word, ip.off + 1)),
                  e.val, B.one, ArgBytes(e, i, B.lens))
    ensures 0 < AddressOf(B, ip) < AddressOf(B, Ip(ip.word, ip.off + 1)) < 0x8000_0000
  {
    hide SlotsLinked, LocalsFit, ClosedJumps, WellScoped, WellFormed, ElemOf, OneByteFits, SelfConsistent, ArgBytes,
        At, Gcode, CodeBytes, OpBytes, ElemLen, WordElems;
    CodeElem(B, ip);
    var i := IndexOf(B, ip);
    ElemAt(B, i);
    ElemAt(B, 0);
    SumOrder(B.lens, 1, i);
  }

  // ----- turns of the byte machine, opcode by opcode -----

  lemma TurnConst(img: Image, C: Snippets, m: Machine, to: nat, x: Int32)
    requires m.Active? && 7 <= img.interpreted && At(img.code, m.ip, to, 1, img.one, EncodeS(x))
    ensures Turn(img, C, m) == Active(to, m.ds + [U32(x)], m.rmem, m.rp)
  {
    ReadOp(img, m.ip, to, 1, EncodeS(x));
    ReadSigned(img, m.ip, to, 1, x);
  }

  lemma TurnGet(img: Image, C: Snippets, m: Machine, to: nat, n: Word32)
    requires m.Active? && 7 <= img.interpreted && At(img.code, m.ip, to, 2, img.one, EncodeU(n))
    requires 0 <= m.rp - 2 - n < |m.rmem|
    ensures Turn(img, C, m) == Active(to, m.ds + [m.rmem[m.rp - 2 - n]], m.rmem, m.rp)
  {
    ReadOp(img, m.ip, to, 2, EncodeU(n));
    ReadUnsigned(img, m.ip, to, 2, n);
  }

  lemma TurnPut(img: Image, C: Snippets, m: Machine, to: nat, n: Word32)
    requires m.Active? && 7 <= img.interpreted && At(img.code, m.ip, to, 3, img.one, EncodeU(n))
    requires 0 <= m.rp - 2 - n < |m.rmem| && |m.ds| > 0
    ensures Turn(img, C, m)
         == Active(to, m.ds[..|m.ds| - 1], m.rmem[m.rp - 2 - n := m.ds[|m.ds| - 1]], m.rp)
  {
    ReadOp(img, m.ip, to, 3, EncodeU(n));
    ReadUnsigned(img, m.ip, to, 3, n);
  }

  /** Slots 4, 5 and 6. */
  lemma TurnJump(img: Image, C: Snippets, m: Machine, to: nat, op: Word32, x: Int32)
    requires m.Active? && 7 <= img.interpreted && 4 <= op <= 6
    requires At(img.code, m.ip, to, op, img.one, EncodeS(x)) && to + x >= 0
    requires op != 4 ==> |m.ds| > 0
    ensures var top := |m.ds| - 1;
            Turn(img, C, m) ==
            if op == 4 then Active(to + x, m.ds, m.rmem, m.rp)
            else if (m.ds[top] != 0) == (op == 5) then Active(to + x, m.ds[..top], m.rmem, m.rp)
            else Active(to, m.ds[..top], m.rmem, m.rp)
  {
    ReadOp(img, m.ip, to, op, EncodeS(x));
    ReadSigned(img, m.ip, to, op, x);
  }

  lemma TurnRet(img: Image, C: Snippets, m: Machine, to: nat)
    requires m.Active? && 7 <= img.interpreted && At(img.code, m.ip, to, 0, img.one, [])
    ensures Turn(img, C, m) == Return(m.ds, m.rmem, m.rp)
  {
    ReadOp(img, m.ip, to, 0, []);
  }

  lemma TurnSnippet(img: Image, C: Snippets, m: Machine, to: nat, slot: Word32)
    requires m.Active? && 7 <= slot < img.interpreted && At(img.code, m.ip, to, slot, img.one, [])
    ensures Turn(img, C, m) ==
            match C(slot, m.ds)
            case None => Away
            case Some(ds) => Active(to, ds, m.rmem, m.rp)
  {
    ReadOp(img, m.ip, to, slot, []);
    AtParts(img.code, m.ip, to, slot, img.one, []);
  }

  lemma TurnCall(img: Image, C: Snippets, m: Machine, to: nat, slot: Word32)
    requires m.Active? && At(img.code, m.ip, to, slot, img.one, []) && img.interpreted <= slot
    ensures Turn(img, C, m) == EnterSlot(img, slot, to, m.ds, m.rmem, m.rp)
  {
    ReadOp(img, m.ip, to, slot, []);
    AtParts(img.code, m.ip, to, slot, img.one, []);
  }

  /** T0_ENTER of a word whose header stands between head and body. */
  lemma Entered(img: Image, slot: nat, ip: nat, ds: seq<Word32>, rmem: seq<Word32>, rp: nat, head: nat, body: nat,
                nl: Word32)
    requires img.interpreted <= slot < img.interpreted + |img.caddr|
    requires img.caddr[slot - img.interpreted] == head && At(img.code, head, body, nl, img.one, [])
    requires (img.one ==> nl <= 127) && rp + nl < |rmem|
    ensures EnterSlot(img, slot, ip, ds, rmem, rp)
         == Active(body, ds, rmem[rp + nl := U32(ip + nl * 0x1_0000)], rp + nl + 1)
  {
    ReadHeader(img, head, body, nl);
  }

  // ----- the relation -----

  function ReturnAddress(B: Build, saved: Option<Ip>): nat {
    if saved.Some? && B.P.IsWord(saved.value.word) then AddressOf(B, saved.value) else 0
  }

  /** One frame in the buffer: the locals written so far, then the packed saved position. */
  ghost predicate FrameHeld(B: Build, f: Frame, rmem: seq<Word32>, rp: nat) {
    var nl := |f.locals|;
    && nl + 1 <= rp <= |rmem| && nl <= 0xFFFF
    && ReturnAddress(B, f.saved) < 0x1_0000
    && (f.saved.Some? ==> B.P.IsWord(f.saved.value.word) && ReturnAddress(B, f.saved) > 0)
    && rmem[rp - 1] == ReturnAddress(B, f.saved) + nl * 0x1_0000
    && (forall n :: n in f.written ==> n < nl && rmem[rp - 2 - n] == B.L.Lower(f.locals[n]))
  }

  ghost predicate FramesHeld(B: Build, frames: seq<Frame>, rmem: seq<Word32>, rp: nat, rp0: nat) {
    var top := |frames| - 1;
    if top < 0 then rp == rp0 && rp <= |rmem|
    else
      && FrameHeld(B, frames[top], rmem, rp)
      && (frames[top].saved.None? <==> top == 0)
      && FramesHeld(B, frames[..top], rmem, rp - 1 - |frames[top].locals|, rp0)
  }

  /** The part of the return-stack buffer below the entry point is left alone. */
  predicate Outside(rmem: seq<Word32>, rmem0: seq<Word32>, rp0: nat) {
    |rmem| == |rmem0| && rp0 <= |rmem0| && rmem[..rp0] == rmem0[..rp0]
  }

  ghost predicate Matches(B: Build, s: State, m: Machine, rmem0: seq<Word32>, rp0: nat) {
    match s
    case Running(ip, stack, frames) =>
      && m.Active? && B.P.IsWord(ip.word)
      && m.ip == AddressOf(B, ip) && m.ds == B.L.LowerAll(stack)
      && |frames| > 0 && FramesHeld(B, frames, m.rmem, m.rp, rp0) && Outside(m.rmem, rmem0, rp0)
    case Exited(stack) =>
      m.Stopped? && m.ds == B.L.LowerAll(stack) && m.rp == rp0 && Outside(m.rmem, rmem0, rp0)
    case Halted => m.Away?
    case Fault => false
  }

  lemma {:induction false} FramesKept(B: Build, frames: seq<Frame>, rmem: seq<Word32>, rmem': seq<Word32>, rp: nat,
                                      rp0: nat)
    requires FramesHeld(B, frames, rmem, rp, rp0)
    requires |rmem'| == |rmem| && rmem'[..rp] == rmem[..rp]
    ensures rp0 <= rp <= |rmem| && FramesHeld(B, frames, rmem', rp, rp0)
    decreases |frames|
  {
    var top := |frames| - 1;
    if top >= 0 {
      var lower := rp - 1 - |frames[top].locals|;
      FrameKept(B, frames[top], rmem, rmem', rp);
      assert rmem'[..lower] == rmem'[..rp][..lower] == rmem[..rp][..lower] == rmem[..lower];
      FramesKept(B, frames[..top], rmem, rmem', lower, rp0);
    }
  }

  lemma FrameKept(B: Build, f: Frame, rmem: seq<Word32>, rmem': seq<Word32>, rp: nat)
    requires FrameHeld(B, f, rmem, rp)
    requires |rmem'| == |rmem| && rmem'[..rp] == rmem[..rp]
    ensures FrameHeld(B, f, rmem', rp)
  {
    assert forall k :: 0 <= k < rp ==> rmem'[k] == rmem'[..rp][k] == rmem[..rp][k] == rmem[k];
  }

  /** rp counts exactly the cells of the open frames. */
  lemma {:induction false} SlotsInUse(B: Build, frames: seq<Frame>, rmem: seq<Word32>, rp: nat, rp0: nat)
    requires FramesHeld(B, frames, rmem, rp, rp0)
    ensures rp == rp0 + FlowSound.ReturnSlots(frames)
    decreases |frames|
  {
    var top := |frames| - 1;
    if top >= 0 {
      SlotsInUse(B, frames[..top], rmem, rp - 1 - |frames[top].locals|, rp0);
    }
  }

  // ----- stacks -----

  lemma LowerPush(L: Link, s: seq<Value>, v: Value)
    ensures L.LowerAll(s + [v]) == L.LowerAll(s) + [L.Lower(v)]
  {}

  lemma LowerPop(L: Link, s: seq<Value>)
    requires |s| > 0
    ensures L.LowerAll(s[..|s| - 1]) == L.LowerAll(s)[..|s| - 1]
    ensures L.LowerAll(s)[|s| - 1] == L.Lower(s[|s| - 1])
  {}

  // ----- one step -----

  /** What the byte machine cannot reproduce is kept out of the run: reading a local before it
      was written (its cell holds junk), branching on a pointer whose image is null, and a C
      snippet that differs from the native word on the present stack. */
  ghost predicate Faithful(B: Build, C: Snippets, s: State) {
    s.Running? && InCode(B.P, s.ip) ==>
      var top := |s.stack| - 1;
      match B.P.Code(s.ip.word)[s.ip.off]
      case GetLocal(n) => |s.frames| > 0 ==> n in s.frames[|s.frames| - 1].written
      case JumpIf(_) => top >= 0 ==> (s.stack[top].ToBool() <==> B.L.Lower(s.stack[top]) != 0)
      case JumpIfNot(_) => top >= 0 ==> (s.stack[top].ToBool() <==> B.L.Lower(s.stack[top]) != 0)
      case Call(w) => SnippetAgrees(B, C, w, s.stack)
      case _ => true
  }

  ghost predicate SnippetAgrees(B: Build, C: Snippets, w: nat, stack: seq<Value>) {
    B.P.IsWord(w) && B.P.words[w].Native? ==>
      var e := B.P.words[w].effect;
      e.IsKnown() && e.din <= |stack| ==>
        var floor := |stack| - e.din;
        C(B.L.SlotOf(w), B.L.LowerAll(stack))
        == if e.NoExit() then None else Some(B.L.LowerAll(stack[..floor] + B.P.native(w, stack[floor..])))
  }

  /** The state before a step, with the element of its opcode. */
  ghost predicate Facing(B: Build, ip: Ip, stack: seq<Value>, frames: seq<Frame>, m: Machine, rmem0: seq<Word32>,
                         rp0: nat, to: nat, val: Word32, arg: seq<Byte>)
  {
    && B.P.IsWord(ip.word)
    && Matches(B, Running(ip, stack, frames), m, rmem0, rp0)
    && to == AddressOf(B, Ip(ip.word, ip.off + 1)) && to > 0
    && 7 <= B.L.base && B.one == B.Img().one && B.L.base == B.Img().interpreted
    && At(B.Img().code, m.ip, to, val, B.one, arg)
  }

  lemma StepConst(B: Build, C: Snippets, ip: Ip, stack: seq<Value>, frames: seq<Frame>, m: Machine,
                  rmem0: seq<Word32>, rp0: nat, to: nat, v: Value)
    requires Facing(B, ip, stack, frames, m, rmem0, rp0, to, 1, EncodeS(I32(B.L.Lower(v))))
    ensures Matches(B, Running(Ip(ip.word, ip.off + 1), stack + [v], frames), Turn(B.Img(), C, m), rmem0, rp0)
  {
    hide At, Turn, FramesHeld, Gcode, CodeBytes, EncodeS;
    TurnConst(B.Img(), C, m, to, I32(B.L.Lower(v)));
    WordOfSigned(B.L.Lower(v));
    LowerPush(B.L, stack, v);
  }

  lemma StepGet(B: Build, C: Snippets, ip: Ip, stack: seq<Value>, frames: seq<Frame>, m: Machine, rmem0: seq<Word32>,
                rp0: nat, to: nat, n: nat)
    requires n < 0x1_0000 && Facing(B, ip, stack, frames, m, rmem0, rp0, to, 2, EncodeU(n))
    requires n in frames[|frames| - 1].written
    ensures n < |frames[|frames| - 1].locals|
    ensures Matches(B, Running(Ip(ip.word, ip.off + 1), stack + [frames[|frames| - 1].locals[n]], frames),
                    Turn(B.Img(), C, m), rmem0, rp0)
  {
    var f := frames[|frames| - 1];
    assert FrameHeld(B, f, m.rmem, m.rp);
    TurnGet(B.Img(), C, m, to, n);
    LowerPush(B.L, stack, f.locals[n]);
  }

  lemma StoreHeld(B: Build, f: Frame, rmem: seq<Word32>, rp: nat, n: nat, v: Value)
    requires FrameHeld(B, f, rmem, rp) && n < |f.locals|
    ensures 0 <= rp - 2 - n < |rmem|
    ensures FrameHeld(B, Frame(f.saved, f.locals[n := v], f.written + {n}), rmem[rp - 2 - n := B.L.Lower(v)], rp)
  {}

  lemma StorePreserves(B: Build, frames: seq<Frame>, rmem: seq<Word32>, rp: nat, rp0: nat, n: nat, v: Value,
                       rmem0: seq<Word32>)
    requires |frames| > 0 && FramesHeld(B, frames, rmem, rp, rp0) && n < |frames[|frames| - 1].locals|
    requires Outside(rmem, rmem0, rp0)
    ensures 0 <= rp - 2 - n < |rmem|
    ensures var rmem' := rmem[rp - 2 - n := B.L.Lower(v)];
            FramesHeld(B, StoreLocal(frames, n, v), rmem', rp, rp0) && Outside(rmem', rmem0, rp0)
  {
    hide FramesHeld, Outside, FrameHeld, Gcode, CodeBytes;
    var top := |frames| - 1;
    var f := frames[top];
    var f' := Frame(f.saved, f.locals[n := v], f.written + {n});
    FramesSplit(B, frames, rmem, rp, rp0);
    StoreHeld(B, f, rmem, rp, n, v);
    var lower := rp - 1 - |f.locals|;
    var rmem' := rmem[rp - 2 - n := B.L.Lower(v)];
    PrefixKept(rmem, rp - 2 - n, B.L.Lower(v), lower);
    FramesKept(B, frames[..top], rmem, rmem', lower, rp0);
    OutsideKept(rmem, rmem0, rp0, rp - 2 - n, B.L.Lower(v));
    FramesJoin(B, frames[..top], f', rmem', rp, rp0);
  }

  lemma FramesSplit(B: Build, frames: seq<Frame>, rmem: seq<Word32>, rp: nat, rp0: nat)
    requires |frames| > 0 && FramesHeld(B, frames, rmem, rp, rp0)
    ensures var top := |frames| - 1;
            && FrameHeld(B, frames[top], rmem, rp) && (frames[top].saved.None? <==> top == 0)
            && 0 <= rp - 1 - |frames[top].locals| && rp <= |rmem|
            && FramesHeld(B, frames[..top], rmem, rp - 1 - |frames[top].locals|, rp0)
  {}

  lemma FramesJoin(B: Build, front: seq<Frame>, f: Frame, rmem: seq<Word32>, rp: nat, rp0: nat)
    requires FrameHeld(B, f, rmem, rp) && (f.saved.None? <==> |front| == 0)
    requires rp - 1 - |f.locals| >= 0 && FramesHeld(B, front, rmem, rp - 1 - |f.locals|, rp0)
    ensures FramesHeld(B, front + [f], rmem, rp, rp0)
  {
    assert (front + [f])[..|front|] == front;
  }

  lemma PrefixKept(rmem: seq<Word32>, cell: nat, v: Word32, k: nat)
    requires k <= cell < |rmem|
    ensures rmem[cell := v][..k] == rmem[..k]
  {}

  lemma OutsideKept(rmem: seq<Word32>, rmem0: seq<Word32>, rp0: nat, cell: nat, v: Word32)
    requires Outside(rmem, rmem0, rp0) && rp0 <= cell < |rmem|
    ensures Outside(rmem[cell := v], rmem0, rp0)
  {
    assert rmem[cell := v][..rp0] == rmem[..rp0];
  }

  lemma StepPut(B: Build, C: Snippets, ip: Ip, stack: seq<Value>, frames: seq<Frame>, m: Machine, rmem0: seq<Word32>,
                rp0: nat, to: nat, n: nat)
    requires n < 0x1_0000 && Facing(B, ip, stack, frames, m, rmem0, rp0, to, 3, EncodeU(n))
    requires n < |frames[|frames| - 1].locals| && |stack| > 0
    ensures Matches(B, Running(Ip(ip.word, ip.off + 1), stack[..|stack| - 1],
            StoreLocal(frames, n, stack[|stack| - 1])),
                    Turn(B.Img(), C, m), rmem0, rp0)
  {
    hide At, Turn, FramesHeld, Gcode, CodeBytes, EncodeU;
    StorePreserves(B, frames, m.rmem, m.rp, rp0, n, stack[|stack| - 1], rmem0);
    TurnPut(B.Img(), C, m, to, n);
    LowerPop(B.L, stack);
  }

  /** Slots 4 to 6; the argument is the byte distance from the next opcode to the target. */
  lemma StepJump(B: Build, C: Snippets, ip: Ip, stack: seq<Value>, frames: seq<Frame>, m: Machine, rmem0: seq<Word32>,
                 rp0: nat, to: nat, op: Word32, x: Int32, d: int, taken: bool)
    requires 4 <= op <= 6 && Facing(B, ip, stack, frames, m, rmem0, rp0, to, op, EncodeS(x))
    requires to + x == AddressOf(B, Ip(ip.word, ip.off + 1 + d))
    requires op != 4 ==> |stack| > 0 && (taken <==> ((B.L.Lower(stack[|stack| - 1]) != 0) == (op == 5)))
    requires op == 4 ==> taken
    ensures Matches(B, Branch(ip, d, taken, if op == 4 then stack else stack[..|stack| - 1], frames),
                    Turn(B.Img(), C, m), rmem0, rp0)
  {
    hide At, Turn, FramesHeld, Gcode, CodeBytes, EncodeS;
    TurnJump(B.Img(), C, m, to, op, x);
    if op != 4 { LowerPop(B.L, stack); }
  }

  lemma StepNative(B: Build, C: Snippets, ip: Ip, stack: seq<Value>, frames: seq<Frame>, m: Machine,
                   rmem0: seq<Word32>, rp0: nat, to: nat, w: nat)
    requires B.P.IsWord(w) && B.P.words[w].Native? && 7 <= B.L.SlotOf(w) < B.L.base && B.L.SlotOf(w) < 0x8000_0000
    requires Facing(B, ip, stack, frames, m, rmem0, rp0, to, B.L.SlotOf(w), [])
    requires SnippetAgrees(B, C, w, stack) && !RunWord(B.P, w, Ip(ip.word, ip.off + 1), stack, frames).Fault?
    ensures Matches(B, RunWord(B.P, w, Ip(ip.word, ip.off + 1), stack, frames), Turn(B.Img(), C, m), rmem0, rp0)
  {
    hide At, Turn, FramesHeld, Gcode, CodeBytes;
    TurnSnippet(B.Img(), C, m, to, B.L.SlotOf(w));
  }

  /** The two turns inside a call of a data word: entered, then its address pushed. */
  ghost predicate ThroughData(img: Image, C: Snippets, m: Machine) {
    && m.Active? && Turns(img, C, m, 1).Active? && Turns(img, C, m, 2).Active?
    && |Turns(img, C, m, 1).ds| == |m.ds| && |Turns(img, C, m, 2).ds| == |m.ds| + 1
  }

  /** A data word runs as three turns: enter, push its address, return. */
  lemma TurnsData(img: Image, C: Snippets, m: Machine, to: nat, slot: Word32, head: nat, body: nat, mid: nat,
                  end: nat, x: Int32)
    requires m.Active? && 7 <= img.interpreted && 0 < to < 0x1_0000 && m.rp < |m.rmem|
    requires At(img.code, m.ip, to, slot, img.one, [])
    requires img.interpreted <= slot < img.interpreted + |img.caddr| && img.caddr[slot - img.interpreted] == head
    requires At(img.code, head, body, 0, img.one, [])
    requires At(img.code, body, mid, 1, img.one, EncodeS(x))
    requires At(img.code, mid, end, 0, img.one, [])
    ensures Turns(img, C, m, 3) == Active(to, m.ds + [U32(x)], m.rmem[m.rp := to], m.rp)
    ensures ThroughData(img, C, m)
  {
    hide At, Turn, EncodeS;
    TurnCall(img, C, m, to, slot);
    Entered(img, slot, to, m.ds, m.rmem, m.rp, head, body, 0);
    var m1 := Active(body, m.ds, m.rmem[m.rp := to], m.rp + 1);
    TurnConst(img, C, m1, mid, x);
    var m2 := Active(mid, m.ds + [U32(x)], m.rmem[m.rp := to], m.rp + 1);
    TurnRet(img, C, m2, end);
    ThreeTurns(img, C, m, m1, m2);
  }

  lemma StepData(B: Build, C: Snippets, ip: Ip, stack: seq<Value>, frames: seq<Frame>, m: Machine, rmem0: seq<Word32>,
                 rp0: nat, to: nat, slot: Word32, head: nat, body: nat, mid: nat, end: nat, v: Value)
    requires Facing(B, ip, stack, frames, m, rmem0, rp0, to, slot, [])
    requires B.L.base <= slot < B.L.base + |B.caddr| && B.caddr[slot - B.L.base] == head
    requires At(B.Img().code, head, body, 0, B.one, [])
    requires At(B.Img().code, body, mid, 1, B.one, EncodeS(I32(B.L.Lower(v))))
    requires At(B.Img().code, mid, end, 0, B.one, [])
    requires m.rp < |m.rmem| && to < 0x1_0000
    ensures Matches(B, Running(Ip(ip.word, ip.off + 1), stack + [v], frames), Turns(B.Img(), C, m, 3), rmem0, rp0)
    ensures ThroughData(B.Img(), C, m)
  {
    hide ThroughData, At, Turns, FramesHeld, Gcode, CodeBytes, EncodeS;
    TurnsData(B.Img(), C, m, to, slot, head, body, mid, end, I32(B.L.Lower(v)));
    var rmem' := m.rmem[m.rp := to];
    assert rmem'[..m.rp] == m.rmem[..m.rp];
    FramesKept(B, frames, m.rmem, rmem', m.rp, rp0);
    WordOfSigned(B.L.Lower(v));
    LowerPush(B.L, stack, v);
    assert rmem'[..rp0] == m.rmem[..rp0];
  }

  lemma ThreeTurns(img: Image, C: Snippets, m: Machine, m1: Machine, m2: Machine)
    requires Turn(img, C, m) == m1 && Turn(img, C, m1) == m2
    ensures Turns(img, C, m, 1) == m1 && Turns(img, C, m, 2) == m2
    ensures Turns(img, C, m, 3) == Turn(img, C, m2)
  {
    hide Turn;
    assert Turns(img, C, m, 1) == Turn(img, C, Turns(img, C, m, 0));
    assert Turns(img, C, m, 2) == Turn(img, C, Turns(img, C, m, 1));
    assert Turns(img, C, m, 3) == Turn(img, C, Turns(img, C, m, 2));
  }

  lemma StepEnter(B: Build, C: Snippets, ip: Ip, stack: seq<Value>, frames: seq<Frame>, m: Machine,
                  rmem0: seq<Word32>, rp0: nat, to: nat, w: nat, slot: Word32, head: nat)
    requires Facing(B, ip, stack, frames, m, rmem0, rp0, to, slot, [])
    requires B.P.IsInterpreted(w)
    requires B.L.base <= slot < B.L.base + |B.caddr| && B.caddr[slot - B.L.base] == head
    requires B.P.words[w].numLocals <= if B.one then 127 else 0xFFFF
    requires At(B.Img().code, head, AddressOf(B, Ip(w, 0)), B.P.words[w].numLocals, B.one, [])
    requires m.rp + B.P.words[w].numLocals < |m.rmem| && to < 0x1_0000
    ensures Matches(B, Enter(B.P, w, Some(Ip(ip.word, ip.off + 1)), stack, frames), Turn(B.Img(), C, m), rmem0, rp0)
  {
    hide At, Turn, FramesHeld, Gcode, CodeBytes;
    var nl := B.P.words[w].numLocals;
    TurnCall(B.Img(), C, m, to, slot);
    Entered(B.Img(), slot, to, m.ds, m.rmem, m.rp, head, AddressOf(B, Ip(w, 0)), nl);
    FramePushed(B, frames, m.rmem, m.rp, rp0, Ip(ip.word, ip.off + 1), nl, rmem0);
  }

  lemma FramePushed(B: Build, frames: seq<Frame>, rmem: seq<Word32>, rp: nat, rp0: nat, next: Ip, nl: nat,
                    rmem0: seq<Word32>)
    requires FramesHeld(B, frames, rmem, rp, rp0) && |frames| > 0 && Outside(rmem, rmem0, rp0)
    requires B.P.IsWord(next.word) && 0 < AddressOf(B, next) < 0x1_0000 && nl <= 0xFFFF && rp + nl < |rmem|
    ensures var rmem' := rmem[rp + nl := U32(AddressOf(B, next) + nl * 0x1_0000)];
            && FramesHeld(B, frames + [Frame(Some(next), Zeros(nl), {})], rmem', rp + nl + 1, rp0)
            && Outside(rmem', rmem0, rp0)
  {
    hide FramesHeld, Outside, FrameHeld, AddressOf, Gcode;
    var v := U32(AddressOf(B, next) + nl * 0x1_0000);
    var rmem' := rmem[rp + nl := v];
    PrefixKept(rmem, rp + nl, v, rp);
    FramesKept(B, frames, rmem, rmem', rp, rp0);
    OutsideKept(rmem, rmem0, rp0, rp + nl, v);
    PushedHeld(B, next, nl, rmem', rp + nl + 1);
    FramesJoin(B, frames, Frame(Some(next), Zeros(nl), {}), rmem', rp + nl + 1, rp0);
  }

  lemma PushedHeld(B: Build, next: Ip, nl: nat, rmem: seq<Word32>, rp: nat)
    requires B.P.IsWord(next.word) && 0 < AddressOf(B, next) < 0x1_0000 && nl <= 0xFFFF && nl + 1 <= rp <= |rmem|
    requires rmem[rp - 1] == U32(AddressOf(B, next) + nl * 0x1_0000)
    ensures FrameHeld(B, Frame(Some(next), Zeros(nl), {}), rmem, rp)
  {}

  lemma StepRet(B: Build, C: Snippets, ip: Ip, stack: seq<Value>, frames: seq<Frame>, m: Machine, rmem0: seq<Word32>,
                rp0: nat, to: nat)
    requires Facing(B, ip, stack, frames, m, rmem0, rp0, to, 0, [])
    ensures Matches(B, Leave(stack, frames), Turn(B.Img(), C, m), rmem0, rp0)
  {
    TurnRet(B.Img(), C, m, to);
    ReturnMatches(B, stack, frames, m, rmem0, rp0);
  }

  lemma ReturnMatches(B: Build, stack: seq<Value>, frames: seq<Frame>, m: Machine, rmem0: seq<Word32>, rp0: nat)
    requires m.Active? && m.ds == B.L.LowerAll(stack) && |frames| > 0
    requires FramesHeld(B, frames, m.rmem, m.rp, rp0) && Outside(m.rmem, rmem0, rp0)
    ensures Matches(B, Leave(stack, frames), Return(m.ds, m.rmem, m.rp), rmem0, rp0)
  {
    hide FramesHeld, FrameHeld, Gcode, Outside;
    var top := |frames| - 1;
    var nl := |frames[top].locals|;
    FramesSplit(B, frames, m.rmem, m.rp, rp0);
    FrameUnpack(B, frames[top], m.rmem, m.rp);
    if top == 0 { assert frames[..top] == []; FramesEmpty(B, m.rmem, m.rp - 1 - nl, rp0); }
  }

  lemma FramesEmpty(B: Build, rmem: seq<Word32>, rp: nat, rp0: nat)
    ensures FramesHeld(B, [], rmem, rp, rp0) ==> rp == rp0
  {}

  lemma FrameUnpack(B: Build, f: Frame, rmem: seq<Word32>, rp: nat)
    requires FrameHeld(B, f, rmem, rp)
    ensures 1 <= rp <= |rmem|
    ensures rmem[rp - 1] / 0x1_0000 == |f.locals| && rmem[rp - 1] % 0x1_0000 == ReturnAddress(B, f.saved)
    ensures f.saved.Some? ==>
            B.P.IsWord(f.saved.value.word) && AddressOf(B, f.saved.value) == ReturnAddress(B, f.saved) > 0
    ensures f.saved.None? ==> ReturnAddress(B, f.saved) == 0
  {
    Unpack(ReturnAddress(B, f.saved), |f.locals|);
  }

  /** A return address and a number of locals come apart again exactly when the address has 16
      bits. */
  lemma Unpack(addr: nat, nl: nat)
    ensures (addr + nl * 0x1_0000) / 0x1_0000 == nl && (addr + nl * 0x1_0000) % 0x1_0000 == addr
            <==> addr < 0x1_0000
  {}

  // ----- every opcode -----

  /** Turns of the byte machine for one step: a call of a data word takes three. */
  function Cost(P: Program, s: State): nat {
    if s.Running? && InCode(P, s.ip) && P.Code(s.ip.word)[s.ip.off].Call?
       && P.IsWord(P.Code(s.ip.word)[s.ip.off].target) && P.words[P.Code(s.ip.word)[s.ip.off].target].Data?
    then 3 else 1
  }

  /** Cells the step needs above rp. */
  function Need(P: Program, s: State): nat {
    if s.Running? && InCode(P, s.ip) && P.Code(s.ip.word)[s.ip.off].Call?
       && P.IsWord(P.Code(s.ip.word)[s.ip.off].target)
    then
      match P.words[P.Code(s.ip.word)[s.ip.off].target]
      case Data(_, _) => 1
      case Interpreted(nl, _, _) => nl + 1
      case Native(_) => 0
    else 0
  }

  lemma FacingOpcode(B: Build, ip: Ip, stack: seq<Value>, frames: seq<Frame>, m: Machine, rmem0: seq<Word32>, rp0: nat)
    requires Coded(B) && InCode(B.P, ip) && Matches(B, Running(ip, stack, frames), m, rmem0, rp0)
    ensures 0 < IndexOf(B, ip) < |B.Elems()| == |B.lens|
    ensures var i := IndexOf(B, ip);
            var e := ElemOf(B.L, B.P.Code(ip.word)[ip.off], StartOf(B.P, B.L, ip.word), ip.off);
            && B.Elems()[i] == e
            && Facing(B, ip, stack, frames, m, rmem0, rp0, AddressOf(B, Ip(ip.word, ip.off + 1)),
                      e.val, ArgBytes(e, i, B.lens))
  {
    hide SlotsLinked, LocalsFit, ClosedJumps, WellScoped, WellFormed, ElemOf, OneByteFits, SelfConsistent, ArgBytes,
        At, Gcode, CodeBytes, FramesHeld;
    Shape(B);
    OpcodeAt(B, ip);
  }

  lemma JumpLands(B: Build, ip: Ip, d: int)
    requires Coded(B) && InCode(B.P, ip) && B.P.Code(ip.word)[ip.off].IsJump() && B.P.Code(ip.word)[ip.off].disp == d
    ensures InCode(B.P, Ip(ip.word, ip.off + 1 + d))
    ensures var t := TargetIndex(StartOf(B.P, B.L, ip.word), ip.off, d);
            && t < |B.lens| && 0 <= IndexOf(B, ip) < |B.lens|
            && -0x8000_0000 <= JumpOff(B.lens, IndexOf(B, ip), t) < 0x8000_0000
            && AddressOf(B, Ip(ip.word, ip.off + 1)) + JumpOff(B.lens, IndexOf(B, ip), t)
               == AddressOf(B, Ip(ip.word, ip.off + 1 + d))
  {
    hide SlotsLinked, LocalsFit, WellScoped, WellFormed, ElemOf, OneByteFits, SelfConsistent, ArgBytes, At, Gcode,
        CodeBytes;
    var target := Ip(ip.word, ip.off + 1 + d);
    OpcodeAt(B, ip);
    OpcodeAt(B, target);
  }

  /** Element k of the code generated for word w. */
  lemma HeaderElem(B: Build, w: nat, k: nat, e: Elem)
    requires Coded(B) && B.P.IsWord(w) && k < |WordElems(B.P, B.L, w, StartOf(B.P, B.L, w))|
    requires WordElems(B.P, B.L, w, StartOf(B.P, B.L, w))[k] == e
    ensures var i := StartOf(B.P, B.L, w) + k;
            && i < |B.Elems()| == |B.lens|
            && (e.EJump? ==> e.target < |B.lens|) && (e.EUIntExpr? ==> 1 <= e.width <= 5)
            && At(B.Img().code, Sum(B.lens, i), Sum(B.lens, i + 1), e.val, B.one, ArgBytes(e, i, B.lens))
  {
    hide WordElems, SlotsLinked, LocalsFit, ClosedJumps, WellScoped, OneByteFits, SelfConsistent, ArgBytes, At, Gcode,
        CodeBytes;
    Shape(B);
    GcodeAt(B.P, B.L, |B.P.words|, w, k);
    assert B.Elems()[StartOf(B.P, B.L, w) + k] == e;
    ElemAt(B, StartOf(B.P, B.L, w) + k);
  }

  lemma WordElemsOf(P: Program, L: Link, w: nat, start: nat)
    requires P.IsWord(w)
    ensures P.words[w].Interpreted? ==>
              |WordElems(P, L, w, start)| > 0 && WordElems(P, L, w, start)[0] == EUInt(U32(P.words[w].numLocals))
    ensures P.words[w].Data? ==>
              WordElems(P, L, w, start)
              == [EUInt(0), EUIntInt(1, I32(L.Lower(Blob(P.words[w].block, P.words[w].offset)))), EUInt(0)]
  {
    if P.words[w].Data? { LowerBlob(L, Blob(P.words[w].block, P.words[w].offset)); }
  }

  lemma SlotFacts(B: Build, w: nat)
    requires Coded(B) && B.P.IsWord(w)
    ensures B.L.SlotOf(w) < 0x8000_0000
    ensures B.P.words[w].Native? ==> 7 <= B.L.SlotOf(w) < B.L.base
    ensures !B.P.words[w].Native? ==>
              && B.L.base <= B.L.SlotOf(w) < B.L.base + |B.caddr|
              && StartOf(B.P, B.L, w) <= |B.lens|
              && B.caddr[B.L.SlotOf(w) - B.L.base] == HeaderAddress(B, w) % 0x1_0000
              && HeaderAddress(B, w) == Sum(B.lens, StartOf(B.P, B.L, w))
    ensures B.P.words[w].Interpreted? ==> B.P.words[w].numLocals <= if B.one then 127 else 0xFFFF
  {
    hide ClosedJumps, WellScoped, WellFormed, OneByteFits, SelfConsistent, Gcode, CodeBytes;
    assert B.L.slots[w] == B.L.SlotOf(w);
  }

  /** The header of an interpreted word, as T0_ENTER reads it. */
  lemma HeaderAt(B: Build, w: nat)
    requires Coded(B) && B.P.IsInterpreted(w) && B.P.words[w].numLocals <= 0xFFFF
    ensures StartOf(B.P, B.L, w) < |B.lens|
    ensures At(B.Img().code, Sum(B.lens, StartOf(B.P, B.L, w)), AddressOf(B, Ip(w, 0)), B.P.words[w].numLocals,
            B.one, [])
  {
    hide SlotsLinked, LocalsFit, ClosedJumps, WellScoped, WellFormed, OneByteFits, SelfConsistent, At, Gcode,
        CodeBytes, WordElems;
    WordElemsOf(B.P, B.L, w, StartOf(B.P, B.L, w));
    HeaderElem(B, w, 0, EUInt(B.P.words[w].numLocals));
  }

  lemma SimulateEnter(B: Build, C: Snippets, ip: Ip, stack: seq<Value>, frames: seq<Frame>, m: Machine,
                      rmem0: seq<Word32>, rp0: nat, to: nat, w: nat)
    requires Coded(B) && B.P.IsInterpreted(w)
    requires Facing(B, ip, stack, frames, m, rmem0, rp0, to, U32(B.L.SlotOf(w)), [])
    requires m.rp + B.P.words[w].numLocals < |m.rmem| && to < 0x1_0000 && HeaderFits(B, w)
    ensures Matches(B, RunWord(B.P, w, Ip(ip.word, ip.off + 1), stack, frames), Turn(B.Img(), C, m), rmem0, rp0)
  {
    hide SlotsLinked, LocalsFit, ClosedJumps, WellScoped, WellFormed, OneByteFits, SelfConsistent, At, Gcode,
        CodeBytes, Facing, Matches, Turn, StartOf, AddressOf;
    SlotFacts(B, w);
    HeaderAt(B, w);
    StepEnter(B, C, ip, stack, frames, m, rmem0, rp0, to, w, B.L.SlotOf(w), Sum(B.lens, StartOf(B.P, B.L, w)));
  }

  lemma SimulateData(B: Build, C: Snippets, ip: Ip, stack: seq<Value>, frames: seq<Frame>, m: Machine,
                     rmem0: seq<Word32>, rp0: nat, to: nat, w: nat)
    requires Coded(B) && B.P.IsWord(w) && B.P.words[w].Data?
    requires Facing(B, ip, stack, frames, m, rmem0, rp0, to, U32(B.L.SlotOf(w)), []) && m.Active? && m.rp < |m.rmem|
    requires to < 0x1_0000 && HeaderFits(B, w)
    ensures Matches(B, RunWord(B.P, w, Ip(ip.word, ip.off + 1), stack, frames), Turns(B.Img(), C, m, 3), rmem0, rp0)
    ensures ThroughData(B.Img(), C, m)
  {
    hide ThroughData, SlotsLinked, LocalsFit, ClosedJumps, WellScoped, WellFormed, OneByteFits, SelfConsistent, At,
         Gcode,
        CodeBytes, Facing, Matches, Turns, EncodeS, StartOf, WordElems;
    var v := Blob(B.P.words[w].block, B.P.words[w].offset);
    var start := StartOf(B.P, B.L, w);
    SlotFacts(B, w);
    WordElemsOf(B.P, B.L, w, start);
    HeaderElem(B, w, 0, EUInt(0));
    HeaderElem(B, w, 1, EUIntInt(1, I32(B.L.Lower(v))));
    HeaderElem(B, w, 2, EUInt(0));
    StepData(B, C, ip, stack, frames, m, rmem0, rp0, to, B.L.SlotOf(w), Sum(B.lens, start), Sum(B.lens, start + 1),
             Sum(B.lens, start + 2), Sum(B.lens, start + 3), v);
  }

  lemma DataHeader(B: Build, w: nat)
    requires Coded(B) && B.P.IsWord(w) && B.P.words[w].Data?
    ensures StartOf(B.P, B.L, w) < |B.lens|
    ensures At(B.Img().code, HeaderAddress(B, w), Sum(B.lens, StartOf(B.P, B.L, w) + 1), 0, B.one, [])
  {
    hide SlotsLinked, LocalsFit, ClosedJumps, WellScoped, WellFormed, OneByteFits, SelfConsistent, At, Gcode,
        CodeBytes, StartOf, WordElems;
    WordElemsOf(B.P, B.L, w, StartOf(B.P, B.L, w));
    HeaderElem(B, w, 0, EUInt(0));
  }

  /** The first turn of a call of a data word. */
  lemma DataTurn(img: Image, C: Snippets, m: Machine, to: nat, slot: Word32, head: nat, body: nat)
    requires m.Active? && At(img.code, m.ip, to, slot, img.one, [])
    requires img.interpreted <= slot < img.interpreted + |img.caddr| && img.caddr[slot - img.interpreted] == head
    requires At(img.code, head, body, 0, img.one, [])
    ensures Turn(img, C, m) == Crash <==> m.rp >= |m.rmem|
  {
    hide At;
    TurnCall(img, C, m, to, slot);
    ReadHeader(img, head, body, 0);
  }

  lemma LowerBlob(L: Link, v: Value)
    requires v.Blob?
    ensures I32(L.AddressOf(v.block) + v.off) == I32(L.Lower(v))
  {
    WordOfSigned(L.AddressOf(v.block) + v.off);
  }

  lemma SimulateCall(B: Build, C: Snippets, ip: Ip, stack: seq<Value>, frames: seq<Frame>, m: Machine,
                     rmem0: seq<Word32>, rp0: nat, to: nat, w: nat)
    requires Coded(B) && B.P.IsWord(w)
    requires Facing(B, ip, stack, frames, m, rmem0, rp0, to, U32(B.L.SlotOf(w)), []) && m.Active?
    requires !B.P.words[w].Native? ==> to < 0x1_0000 && HeaderFits(B, w)
    requires B.P.words[w].Data? ==> m.rp < |m.rmem|
    requires B.P.words[w].Interpreted? ==> m.rp + B.P.words[w].numLocals < |m.rmem|
    requires SnippetAgrees(B, C, w, stack) && !RunWord(B.P, w, Ip(ip.word, ip.off + 1), stack, frames).Fault?
    ensures Matches(B, RunWord(B.P, w, Ip(ip.word, ip.off + 1), stack, frames),
                    Turns(B.Img(), C, m, if B.P.words[w].Data? then 3 else 1), rmem0, rp0)
    ensures B.P.words[w].Data? ==> ThroughData(B.Img(), C, m)
  {
    hide ThroughData, SlotsLinked, LocalsFit, ClosedJumps, WellScoped, WellFormed, OneByteFits, SelfConsistent, At,
         Gcode,
        CodeBytes, Facing, Matches, Turn, SnippetAgrees, StartOf, RunWord;
    SlotFacts(B, w);
    OneTurn(B.Img(), C, m);
    match B.P.words[w] {
      case Native(_) => StepNative(B, C, ip, stack, frames, m, rmem0, rp0, to, w);
      case Interpreted(_, _, _) => SimulateEnter(B, C, ip, stack, frames, m, rmem0, rp0, to, w);
      case Data(_, _) => SimulateData(B, C, ip, stack, frames, m, rmem0, rp0, to, w);
    }
  }

  lemma OneTurn(img: Image, C: Snippets, m: Machine)
    ensures Turns(img, C, m, 1) == Turn(img, C, m)
  {
    assert Turns(img, C, m, 1) == Turn(img, C, Turns(img, C, m, 0));
  }

  lemma SimulateGet(B: Build, C: Snippets, ip: Ip, stack: seq<Value>, frames: seq<Frame>, m: Machine,
                    rmem0: seq<Word32>, rp0: nat, to: nat, n: nat)
    requires Facing(B, ip, stack, frames, m, rmem0, rp0, to, 2, EncodeU(U32(n)))
    requires n in frames[|frames| - 1].written
    ensures n < |frames[|frames| - 1].locals|
    ensures Matches(B, Running(Ip(ip.word, ip.off + 1), stack + [frames[|frames| - 1].locals[n]], frames),
                    Turn(B.Img(), C, m), rmem0, rp0)
  {
    hide At, Turn, Gcode, CodeBytes, EncodeU;
    assert FrameHeld(B, frames[|frames| - 1], m.rmem, m.rp);
    StepGet(B, C, ip, stack, frames, m, rmem0, rp0, to, n);
  }

  lemma SimulatePut(B: Build, C: Snippets, ip: Ip, stack: seq<Value>, frames: seq<Frame>, m: Machine,
                    rmem0: seq<Word32>, rp0: nat, to: nat, n: nat)
    requires Facing(B, ip, stack, frames, m, rmem0, rp0, to, 3, EncodeU(U32(n)))
    requires n < |frames[|frames| - 1].locals| && |stack| > 0
    ensures Matches(B, Running(Ip(ip.word, ip.off + 1), stack[..|stack| - 1],
            StoreLocal(frames, n, stack[|stack| - 1])),
                    Turn(B.Img(), C, m), rmem0, rp0)
  {
    hide At, Turn, Gcode, CodeBytes, EncodeU;
    assert FrameHeld(B, frames[|frames| - 1], m.rmem, m.rp);
    StepPut(B, C, ip, stack, frames, m, rmem0, rp0, to, n);
  }

  lemma SimulateJump(B: Build, C: Snippets, ip: Ip, stack: seq<Value>, frames: seq<Frame>, m: Machine,
                     rmem0: seq<Word32>, rp0: nat, to: nat, op: Word32, d: int, taken: bool)
    requires Coded(B) && InCode(B.P, ip) && 4 <= op <= 6
    requires B.P.Code(ip.word)[ip.off] == if op == 4 then Jump(d) else if op == 5 then JumpIf(d) else JumpIfNot(d)
    requires var t := TargetIndex(StartOf(B.P, B.L, ip.word), ip.off, d);
             && t < |B.lens| && 0 <= IndexOf(B, ip) < |B.lens|
             && Facing(B, ip, stack, frames, m, rmem0, rp0, to, op, EncodeS(JumpOff(B.lens, IndexOf(B, ip), t)))
    requires to == AddressOf(B, Ip(ip.word, ip.off + 1))
    requires op == 4 ==> taken
    requires op != 4 ==> |stack| > 0 && (taken <==> ((B.L.Lower(stack[|stack| - 1]) != 0) == (op == 5)))
    ensures Matches(B, Branch(ip, d, taken, if op == 4 then stack else stack[..|stack| - 1], frames),
                    Turn(B.Img(), C, m), rmem0, rp0)
  {
    hide At, Turn, Gcode, CodeBytes, EncodeS, Coded, Facing, Matches, JumpOff, StartOf, AddressOf;
    JumpLands(B, ip, d);
    var t := TargetIndex(StartOf(B.P, B.L, ip.word), ip.off, d);
    StepJump(B, C, ip, stack, frames, m, rmem0, rp0, to, op, JumpOff(B.lens, IndexOf(B, ip), t), d, taken);
  }

  lemma MatchesActive(B: Build, s: State, m: Machine, rmem0: seq<Word32>, rp0: nat)
    requires Matches(B, s, m, rmem0, rp0)
    ensures s.Running? ==> m.Active? && |s.frames| > 0
  {}

  lemma RunWordKnown(P: Program, w: nat, next: Ip, stack: seq<Value>, frames: seq<Frame>)
    requires !RunWord(P, w, next, stack, frames).Fault?
    ensures P.IsWord(w)
  {}

  /** One step of the opcode machine is matched by one turn, or three for a data word. */
  lemma StepSimulated(B: Build, C: Snippets, s: State, m: Machine, rmem0: seq<Word32>, rp0: nat)
    requires Coded(B) && s.Running? && InCode(B.P, s.ip)
    requires Matches(B, s, m, rmem0, rp0) && m.rp + Need(B.P, s) <= |m.rmem| && CallFits(B, s.ip)
    requires Faithful(B, C, s) && !Step(B.P, s).Fault?
    ensures Matches(B, Step(B.P, s), Turns(B.Img(), C, m, Cost(B.P, s)), rmem0, rp0)
    ensures Cost(B.P, s) == 3 ==> ThroughData(B.Img(), C, m)
  {
    hide ThroughData, SlotsLinked, LocalsFit, ClosedJumps, WellScoped, WellFormed, OneByteFits, SelfConsistent, At,
         Gcode, CodeBytes,
         Facing, Matches, Turn, SnippetAgrees, StartOf, RunWord, Turns, EncodeS, EncodeU, Coded, FramesHeld, Leave,
             StoreLocal;
    var Running(ip, stack, frames) := s;
    var to := AddressOf(B, Ip(ip.word, ip.off + 1));
    var op := B.P.Code(ip.word)[ip.off];
    FacingOpcode(B, ip, stack, frames, m, rmem0, rp0);
    OneTurn(B.Img(), C, m);
    MatchesActive(B, s, m, rmem0, rp0);
    if op.Call? { RunWordKnown(B.P, op.target, Ip(ip.word, ip.off + 1), stack, frames); }
    if op.IsJump() { JumpLands(B, ip, op.disp); }
    match op {
      case Const(v) => StepConst(B, C, ip, stack, frames, m, rmem0, rp0, to, v);
      case GetLocal(n) => SimulateGet(B, C, ip, stack, frames, m, rmem0, rp0, to, n);
      case PutLocal(n) => SimulatePut(B, C, ip, stack, frames, m, rmem0, rp0, to, n);
      case Call(w) => SimulateCall(B, C, ip, stack, frames, m, rmem0, rp0, to, w);
      case Ret => StepRet(B, C, ip, stack, frames, m, rmem0, rp0, to);
      case Jump(d) => SimulateJump(B, C, ip, stack, frames, m, rmem0, rp0, to, 4, d, true);
      case JumpIf(d) => SimulateJump(B, C, ip, stack, frames, m, rmem0, rp0, to, 5, d, stack[|stack| - 1].ToBool());
      case JumpIfNot(d) => SimulateJump(B, C, ip, stack, frames, m, rmem0, rp0, to, 6, d, !stack[|stack| - 1].ToBool());
    }
  }
}
