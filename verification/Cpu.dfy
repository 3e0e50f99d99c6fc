// The compile-time virtual machine as it is stored: a growable stack array and linked frames.

module Cpu {
  import opened Wrappers
  import opened Programs
  import opened OpMachine
  import opened Rotation

  class FrameNode {
    const upper: FrameNode?
    const saved: Option<Ip>
    const locals: array<Value>
    ghost var written: set<nat>

    constructor (upper: FrameNode?, saved: Option<Ip>, numLocals: nat)
      ensures this.upper == upper && this.saved == saved && fresh(locals)
      ensures locals[..] == Zeros(numLocals) && written == {}
    {
      this.upper := upper;
      this.saved := saved;
      locals := new Value[numLocals](_ => ZERO);
      written := {};
    }

    ghost function View(): Frame
      reads this, locals
    {
      Frame(saved, locals[..], written)
    }
  }

  /** The arrays of the frames of a chain. */
  ghost function Cells(chain: seq<FrameNode>): set<object> { set n | n in chain :: n.locals }

  /** Frames from the outermost in: each has the one before it as its upper frame. */
  ghost predicate Linked(chain: seq<FrameNode>, top: FrameNode?) {
    && (top == null <==> chain == [])
    && (chain != [] ==> chain[0].upper == null && top == chain[|chain| - 1])
    && (forall i {:trigger chain[i]} :: 0 < i < |chain| ==> chain[i].upper == chain[i - 1])
    && (forall i, j {:trigger chain[i], chain[j]} :: 0 <= i < j < |chain| ==> chain[i].locals != chain[j].locals)
  }

  lemma LinkedPush(chain: seq<FrameNode>, top: FrameNode?, f: FrameNode)
    requires Linked(chain, top) && f.upper == top && f.locals !in Cells(chain)
    ensures Linked(chain + [f], f) && Cells(chain + [f]) == Cells(chain) + {f.locals}
  {
    forall i | 0 <= i < |chain| ensures chain[i].locals != f.locals { assert chain[i] in chain; }
  }

  lemma LinkedPop(chain: seq<FrameNode>, top: FrameNode)
    requires Linked(chain, top)
    ensures chain != [] && Linked(chain[..|chain| - 1], top.upper) && Cells(chain[..|chain| - 1]) <= Cells(chain)
  {}

  /** The top frame shares nothing with the frames below it. */
  lemma Apart(chain: seq<FrameNode>, top: FrameNode)
    requires Linked(chain, top)
    ensures top !in chain[..|chain| - 1] && top.locals !in Cells(chain[..|chain| - 1])
  {}

  ghost function Views(chain: seq<FrameNode>): (r: seq<Frame>)
    reads chain, Cells(chain)
    ensures |r| == |chain|
  {
    if chain == [] then [] else Views(chain[..|chain| - 1]) + [chain[|chain| - 1].View()]
  }

  lemma ViewsPush(chain: seq<FrameNode>, f: FrameNode)
    ensures Views(chain + [f]) == Views(chain) + [f.View()]
  {
    assert (chain + [f])[..|chain|] == chain;
  }

  lemma StepIsExecute(P: Program, at: Ip, stack: seq<Value>, frames: seq<Frame>)
    ensures OpMachine.Step(P, Running(at, stack, frames)) ==
            if !InCode(P, at) then Fault
            else
              var op := P.Code(at.word)[at.off];
              if op.Call? then RunWord(P, op.target, Ip(at.word, at.off + 1), stack, frames)
              else Execute(P, op, at, stack, frames)
  {}

  lemma ExecuteConst(P: Program, v: Value, at: Ip, stack: seq<Value>, frames: seq<Frame>)
    ensures Execute(P, Const(v), at, stack, frames) == Running(Ip(at.word, at.off + 1), stack + [v], frames)
  {}

  lemma ExecuteGet(P: Program, n: nat, at: Ip, stack: seq<Value>, frames: seq<Frame>)
    ensures Execute(P, GetLocal(n), at, stack, frames) ==
            if frames == [] || n >= |frames[|frames| - 1].locals| then Fault
            else Running(Ip(at.word, at.off + 1), stack + [frames[|frames| - 1].locals[n]], frames)
  {}

  lemma ExecutePut(P: Program, n: nat, at: Ip, stack: seq<Value>, frames: seq<Frame>)
    ensures Execute(P, PutLocal(n), at, stack, frames) ==
            if stack == [] || frames == [] || n >= |frames[|frames| - 1].locals| then Fault
            else Running(Ip(at.word, at.off + 1), stack[..|stack| - 1], StoreLocal(frames, n, stack[|stack| - 1]))
  {}

  lemma ExecuteRet(P: Program, at: Ip, stack: seq<Value>, frames: seq<Frame>)
    ensures Execute(P, Ret, at, stack, frames) ==
            if frames == [] then Fault
            else
              match frames[|frames| - 1].saved
              case None => Exited(stack)
              case Some(ip) => Running(ip, stack, frames[..|frames| - 1])
  {}

  datatype Ending = Going | Halting | Raised

  class CPU {
    /** ipBuf and ipOff; None stands for a null ipBuf. */
    var ip: Option<Ip>
    var stackBuf: array<Value>
    var stackPtr: int
    var rsp: FrameNode?
    ghost var chain: seq<FrameNode>

    ghost predicate Valid()
      reads this
    {
      && -1 <= stackPtr < stackBuf.Length && stackBuf.Length > 0
      && Linked(chain, rsp)
      && stackBuf !in Cells(chain)
    }

    ghost function Stack(): (s: seq<Value>)
      reads this, stackBuf
      requires -1 <= stackPtr < stackBuf.Length
      ensures |s| == stackPtr + 1
    {
      stackBuf[..stackPtr + 1]
    }

    /** The machine state that the fields stand for. */
    ghost function View(): State
      requires Valid()
      reads this, stackBuf, chain, Cells(chain)
    {
      match ip
      case None => Exited(Stack())
      case Some(i) => Running(i, Stack(), Views(chain))
    }

    constructor ()
      ensures Valid() && fresh(stackBuf) && Stack() == [] && chain == [] && ip == None
    {
      ip := None;
      stackBuf := new Value[16](_ => ZERO);
      stackPtr := -1;
      rsp := null;
      chain := [];
    }

    method Push(v: Value)
      requires Valid()
      modifies this`stackBuf, this`stackPtr, stackBuf
      ensures Valid() && Stack() == old(Stack()) + [v]
      ensures stackBuf == old(stackBuf) || fresh(stackBuf)
    {
      var len := stackBuf.Length;
      stackPtr := stackPtr + 1;
      if stackPtr == len {
        var nbuf := new Value[2 * len](_ => ZERO);
        forall i | 0 <= i < len { nbuf[i] := stackBuf[i]; }
        stackBuf := nbuf;
      }
      stackBuf[stackPtr] := v;
      assert Stack() == old(Stack()) + [v];
    }

    /** Fails, by an array exception, on an empty stack. */
    method Pop() returns (ok: bool, v: Value)
      requires Valid()
      modifies this`stackPtr
      ensures ok <==> old(stackPtr) >= 0
      ensures ok ==> Valid() && v == old(stackBuf[stackPtr]) && Stack() == old(Stack())[..|old(Stack())| - 1]
      ensures !ok ==> stackPtr == old(stackPtr)
    {
      if stackPtr < 0 {
        return false, ZERO;
      }
      v := stackBuf[stackPtr];
      stackPtr := stackPtr - 1;
      ok := true;
    }

    /** A depth out of range may still hit a cell of the buffer above the top. */
    method Peek(depth: int) returns (ok: bool, v: Value)
      requires Valid()
      ensures ok <==> 0 <= stackPtr - depth < stackBuf.Length
      ensures ok && depth >= 0 ==> v == Stack()[|Stack()| - 1 - depth]
    {
      if !(0 <= stackPtr - depth < stackBuf.Length) {
        return false, ZERO;
      }
      return true, stackBuf[stackPtr - depth];
    }

    method Rot(depth: int) returns (ok: bool)
      requires Valid()
      modifies stackBuf
      ensures ok <==> 0 <= depth <= stackPtr
      ensures Valid() && Stack() == if ok then Rotated(old(Stack()), depth) else old(Stack())
    {
      hide Linked, Rotated;
      if !(0 <= depth <= stackPtr) {
        return false;
      }
      var v := stackBuf[stackPtr - depth];
      forall i | stackPtr - depth <= i < stackPtr { stackBuf[i] := stackBuf[i + 1]; }
      stackBuf[stackPtr] := v;
      RotatedCells(old(Stack()), depth, Stack());
      return true;
    }

    method NRot(depth: int) returns (ok: bool)
      requires Valid()
      modifies stackBuf
      ensures ok <==> 0 <= depth <= stackPtr
      ensures Valid() && Stack() == if ok then Unrotated(old(Stack()), depth) else old(Stack())
    {
      hide Linked, Unrotated;
      if !(0 <= depth <= stackPtr) {
        return false;
      }
      var v := stackBuf[stackPtr];
      forall i | stackPtr - depth < i <= stackPtr { stackBuf[i] := stackBuf[i - 1]; }
      stackBuf[stackPtr - depth] := v;
      UnrotatedCells(old(Stack()), depth, Stack());
      return true;
    }

    /** Open a frame for a word called at the current position. */
    method Enter(w: nat, numLocals: nat)
      requires Valid()
      modifies this`ip, this`rsp, this`chain
      ensures Valid() && ip == Some(Ip(w, 0))
      ensures Stack() == old(Stack()) && Views(chain) == old(Views(chain)) + [Frame(old(ip), Zeros(numLocals), {})]
      ensures |chain| == |old(chain)| + 1 && chain[..|old(chain)|] == old(chain) && fresh(chain[|old(chain)|])
          && fresh(chain[|old(chain)|].locals)
    {
      hide Linked, Views;
      var f := new FrameNode(rsp, ip, numLocals);
      LinkedPush(chain, rsp, f);
      ViewsPush(chain, f);
      rsp := f;
      ip := Some(Ip(w, 0));
      chain := chain + [f];
    }

    /** Close the top frame. */
    method Exit()
      requires Valid() && rsp != null
      modifies this`ip, this`rsp, this`chain
      ensures Valid() && ip == old(rsp.saved) && Stack() == old(Stack())
      ensures chain == old(chain)[..|old(chain)| - 1] && Views(chain) == old(Views(chain))[..|old(chain)| - 1]
    {
      hide Linked;
      LinkedPop(chain, rsp);
      ghost var below := chain[..|chain| - 1];
      ip := rsp.saved;
      rsp := rsp.upper;
      chain := below;
    }

    method GetLocal(num: nat) returns (ok: bool, v: Value)
      requires Valid()
      ensures ok <==> chain != [] && num < |Views(chain)[|chain| - 1].locals|
      ensures ok ==> v == Views(chain)[|chain| - 1].locals[num]
    {
      if rsp == null || num >= rsp.locals.Length {
        return false, ZERO;
      }
      return true, rsp.locals[num];
    }

    method PutLocal(num: nat, v: Value) returns (ok: bool)
      requires Valid()
      modifies rsp, if rsp == null then {} else {rsp.locals}
      ensures ok <==> chain != [] && num < |old(Views(chain))[|chain| - 1].locals|
      ensures Valid() && Stack() == old(Stack())
      ensures Views(chain) == if ok then StoreLocal(old(Views(chain)), num, v) else old(Views(chain))
    {
      hide Linked;
      LinkedEmpty(chain, rsp);
      if rsp == null || num >= rsp.locals.Length {
        return false;
      }
      ghost var below := chain[..|chain| - 1];
      Apart(chain, rsp);
      rsp.locals[num] := v;
      rsp.written := rsp.written + {num};
      return true;
    }

    // ----- running opcodes -----

    ghost function Repr(): set<object>
      reads this
    {
      {this, stackBuf} + (set n | n in chain) + Cells(chain)
    }

    /** How a step ended, and the machine state it must have ended in. */
    ghost predicate Shows(how: Ending, s: State)
      reads Repr()
    {
      match how
      case Going => Valid() && View() == s
      case Halting => s == Halted
      case Raised => s == Fault
    }

    method PopAll(n: nat) returns (args: seq<Value>)
      requires Valid() && n <= stackPtr + 1
      modifies this`stackPtr
      ensures Valid() && args == old(Stack())[|old(Stack())| - n..] && Stack() == old(Stack())[..|old(Stack())| - n]
    {
      hide Linked;
      args := [];
      for i := 0 to n
        invariant Valid() && stackPtr == old(stackPtr) - i
        invariant Stack() == old(Stack())[..|old(Stack())| - i] && args == old(Stack())[|old(Stack())| - i..]
      {
        var ok, v := Pop();
        args := [v] + args;
      }
    }

    method PushAll(results: seq<Value>)
      requires Valid()
      modifies this`stackBuf, this`stackPtr, stackBuf
      ensures Valid() && Stack() == old(Stack()) + results
      ensures stackBuf == old(stackBuf) || fresh(stackBuf)
    {
      hide Linked;
      for i := 0 to |results|
        invariant Valid() && Stack() == old(Stack()) + results[..i]
        invariant stackBuf == old(stackBuf) || fresh(stackBuf)
      {
        Push(results[i]);
        assert old(Stack()) + results[..i] + [results[i]] == old(Stack()) + results[..i + 1];
      }
      assert results[..|results|] == results;
    }

    /** A native word takes its arguments off the stack and pushes its results. */
    method RunNative(P: Program, w: nat) returns (how: Ending)
      requires Valid() && P.IsWord(w) && P.words[w].Native? && ip.Some?
      modifies this`stackBuf, this`stackPtr, stackBuf
      ensures Valid() && (stackBuf == old(stackBuf) || fresh(stackBuf))
      ensures Shows(how, RunWord(P, w, old(ip.value), old(Stack()), old(Views(chain))))
    {
      hide Linked, Views;
      var effect := P.words[w].effect;
      if !effect.IsKnown() || stackPtr + 1 < effect.din {
        return Raised;
      }
      if effect.NoExit() {
        return Halting;
      }
      var args := PopAll(effect.din);
      PushAll(P.native(w, args));
      return Going;
    }

    /** Word.Run. */
    method Call(P: Program, w: nat) returns (how: Ending)
      requires Valid() && ip.Some?
      modifies this, stackBuf
      ensures Valid() && fresh(Repr() - old(Repr()))
      ensures Shows(how, RunWord(P, w, old(ip.value), old(Stack()), old(Views(chain))))
    {
      hide Linked;
      if w >= |P.words| {
        return Raised;
      }
      match P.words[w] {
        case Native(_) => how := RunNative(P, w);
        case Data(block, offset) =>
          Push(Blob(block, offset));
          how := Going;
        case Interpreted(n, _, _) =>
          Enter(w, n);
          how := Going;
      }
    }

    /** The run loop's body: fetch the opcode at the instruction pointer, step over it and run
        it. What the fields then stand for is what the machine's step function says. */
    method Step(P: Program) returns (how: Ending)
      requires Valid() && ip.Some?
      modifies this, stackBuf, rsp, if rsp == null then {} else {rsp.locals}
      ensures Valid() && fresh(Repr() - old(Repr()))
      ensures Shows(how, OpMachine.Step(P, old(View())))
    {
      hide Linked, Views, Execute, RunWord;
      var at := ip.value;
      StepIsExecute(P, at, Stack(), Views(chain));
      if at.word >= |P.words| || !P.words[at.word].Interpreted? || !(0 <= at.off < |P.words[at.word].code|) {
        return Raised;
      }
      var op := P.words[at.word].code[at.off];
      ip := Some(Ip(at.word, at.off + 1));
      if op.Call? {
        how := Call(P, op.target);
      } else {
        how := RunOpcode(P, op, at);
      }
    }

    method RunOpcode(P: Program, op: Opcode, ghost at: Ip) returns (how: Ending)
      requires Valid() && ip == Some(Ip(at.word, at.off + 1)) && !op.Call?
      modifies this, stackBuf, rsp, if rsp == null then {} else {rsp.locals}
      ensures Valid() && fresh(Repr() - old(Repr()))
      ensures Shows(how, Execute(P, op, at, old(Stack()), old(Views(chain))))
    {
      hide Linked, Views, Execute, Shows, Stack;
      match op {
        case Const(v) => how := RunConst(P, v, at);
        case GetLocal(n) => how := GetOpcode(P, n, at);
        case PutLocal(n) => how := PutOpcode(P, n, at);
        case Ret => how := RetOpcode(P, at);
        case Jump(_) => how := RunJump(P, op, at);
        case JumpIf(_) => how := RunJump(P, op, at);
        case JumpIfNot(_) => how := RunJump(P, op, at);
      }
    }

    method RunConst(P: Program, v: Value, ghost at: Ip) returns (how: Ending)
      requires Valid() && ip == Some(Ip(at.word, at.off + 1))
      modifies this`stackBuf, this`stackPtr, stackBuf
      ensures Valid() && fresh(Repr() - old(Repr()))
      ensures Shows(how, Execute(P, Const(v), at, old(Stack()), old(Views(chain))))
    {
      hide Linked, Views, Execute;
      ExecuteConst(P, v, at, Stack(), Views(chain));
      Push(v);
      return Going;
    }

    method GetOpcode(P: Program, n: nat, ghost at: Ip) returns (how: Ending)
      requires Valid() && ip == Some(Ip(at.word, at.off + 1))
      modifies this`stackBuf, this`stackPtr, stackBuf
      ensures Valid() && fresh(Repr() - old(Repr()))
      ensures Shows(how, Execute(P, Opcode.GetLocal(n), at, old(Stack()), old(Views(chain))))
    {
      hide Linked, Views, Execute;
      ExecuteGet(P, n, at, Stack(), Views(chain));
      how := RunGetLocal(n);
    }

    method PutOpcode(P: Program, n: nat, ghost at: Ip) returns (how: Ending)
      requires Valid() && ip == Some(Ip(at.word, at.off + 1))
      modifies this`stackPtr, rsp, if rsp == null then {} else {rsp.locals}
      ensures Valid() && fresh(Repr() - old(Repr()))
      ensures Shows(how, Execute(P, Opcode.PutLocal(n), at, old(Stack()), old(Views(chain))))
    {
      hide Linked, Views, StoreLocal, Execute;
      ExecutePut(P, n, at, Stack(), Views(chain));
      how := RunPutLocal(n);
    }

    method RetOpcode(P: Program, ghost at: Ip) returns (how: Ending)
      requires Valid() && ip == Some(Ip(at.word, at.off + 1))
      modifies this`ip, this`rsp, this`chain
      ensures Valid() && fresh(Repr() - old(Repr()))
      ensures Shows(how, Execute(P, Ret, at, old(Stack()), old(Views(chain))))
    {
      hide Linked, Views, Execute;
      ExecuteRet(P, at, Stack(), Views(chain));
      how := RunRet();
    }

    method RunJump(P: Program, op: Opcode, ghost at: Ip) returns (how: Ending)
      requires Valid() && ip == Some(Ip(at.word, at.off + 1)) && op.IsJump()
      modifies this`stackPtr, this`ip
      ensures Valid()
      ensures Shows(how, Execute(P, op, at, old(Stack()), old(Views(chain))))
    {
      hide Linked, Views;
      match op {
        case Jump(d) =>
          Jump(d);
          how := Going;
        case JumpIf(d) => how := JumpOn(true, d);
        case JumpIfNot(d) => how := JumpOn(false, d);
      }
    }

    method RunGetLocal(n: nat) returns (how: Ending)
      requires Valid() && ip.Some?
      modifies this`stackBuf, this`stackPtr, stackBuf
      ensures Valid() && (stackBuf == old(stackBuf) || fresh(stackBuf)) && Views(chain) == old(Views(chain))
      ensures |Views(chain)| == |chain|
      ensures how == (if chain != [] && n < |Views(chain)[|chain| - 1].locals| then Going else Raised)
      ensures how == Going ==> Stack() == old(Stack()) + [Views(chain)[|chain| - 1].locals[n]]
    {
      hide Linked;
      var ok, v := GetLocal(n);
      if !ok {
        return Raised;
      }
      Push(v);
      return Going;
    }

    method RunPutLocal(n: nat) returns (how: Ending)
      requires Valid() && ip.Some?
      modifies this`stackPtr, rsp, if rsp == null then {} else {rsp.locals}
      ensures Valid() && |Views(chain)| == |chain|
      ensures how == (if old(|Stack()|) > 0 && chain != []
          && n < |old(Views(chain))[|chain| - 1].locals| then Going else Raised)
      ensures how == Going ==>
                && Stack() == old(Stack())[..old(|Stack()|) - 1]
                && Views(chain) == StoreLocal(old(Views(chain)), n, old(Stack())[old(|Stack()|) - 1])
    {
      hide Linked, Views, StoreLocal;
      var some, v := Pop();
      if !some {
        return Raised;
      }
      var ok := PutLocal(n, v);
      return if ok then Going else Raised;
    }

    method RunRet() returns (how: Ending)
      requires Valid() && ip.Some?
      modifies this`ip, this`rsp, this`chain
      ensures Valid() && Repr() <= old(Repr()) && Stack() == old(Stack())
      ensures how == if old(chain) == [] then Raised else Going
      ensures how == Going ==>
                && old(|Views(chain)|) > 0 && ip == old(Views(chain))[old(|Views(chain)|) - 1].saved
                && Views(chain) == old(Views(chain))[..old(|Views(chain)|) - 1]
    {
      hide Linked;
      LinkedEmpty(chain, rsp);
      if rsp == null {
        return Raised;
      }
      Exit();
      return Going;
    }

    method Jump(disp: int)
      requires Valid() && ip.Some?
      modifies this`ip
      ensures Valid() && ip == Some(Ip(old(ip.value.word), old(ip.value.off) + disp))
    {
      ip := Some(Ip(ip.value.word, ip.value.off + disp));
    }

    method JumpOn(when: bool, disp: int) returns (how: Ending)
      requires Valid() && ip.Some?
      modifies this`stackPtr, this`ip
      ensures Valid() && how == if old(stackPtr) >= 0 then Going else Raised
      ensures how == Going ==>
                var top := old(|Stack()|) - 1;
                && Stack() == old(Stack())[..top]
                && ip == Some(Ip(old(ip.value.word),
                     old(ip.value.off) + (if old(Stack())[top].ToBool() == when then disp else 0)))
    {
      hide Linked;
      var some, v := Pop();
      if !some {
        return Raised;
      }
      if v.ToBool() == when {
        Jump(disp);
      }
      return Going;
    }

    /** n turns of the run loop, or fewer if it stops before. */
    method Loop(P: Program, n: nat) returns (how: Ending)
      requires Valid() && ip.Some?
      modifies Repr()
      ensures Valid() && Shows(how, OpMachine.Run(P, old(View()), n))
    {
      hide Linked, Views, OpMachine.Step;
      how := Going;
      ghost var start := View();
      for i := 0 to n
        invariant Valid() && fresh(Repr() - old(Repr()))
        invariant Shows(how, OpMachine.Run(P, start, i))
      {
        if ip.None? || how != Going {
          Stopped(P, start, i, n);
          return;
        }
        LinkedEmpty(chain, rsp);
        assert rsp != null ==> rsp in Repr() && rsp.locals in Repr();
        how := Step(P);
      }
    }
  }

  lemma LinkedEmpty(chain: seq<FrameNode>, top: FrameNode?)
    requires Linked(chain, top)
    ensures top == null <==> chain == []
    ensures top != null ==> top == chain[|chain| - 1] && top in chain && top.locals in Cells(chain)
  {}
}
