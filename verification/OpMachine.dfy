// The opcode-level machine: CPU.cs driven by the Run methods of the opcodes.

module OpMachine {
  import opened Arith
  import opened Wrappers
  import opened Programs

  /** ipBuf and ipOff. */
  datatype Ip = Ip(word: nat, off: int)

  /** A frame holds the caller's position (None under the entry word) and the locals. The set
      of locals written so far only observes the run; no step depends on it. */
  datatype Frame = Frame(saved: Option<Ip>, locals: seq<Value>, written: set<nat>)

  datatype State =
    | Running(ip: Ip, stack: seq<Value>, frames: seq<Frame>)
    | Exited(stack: seq<Value>)
    | Halted  // inside a native word that never returns
    | Fault   // the compiler's runtime raised an exception

  function Zeros(n: nat): (s: seq<Value>)
    ensures |s| == n
  {
    seq(n, _ => ZERO)
  }

  function Enter(P: Program, w: nat, saved: Option<Ip>, stack: seq<Value>, frames: seq<Frame>): State
    requires P.IsInterpreted(w)
  {
    Running(Ip(w, 0), stack, frames + [Frame(saved, Zeros(P.words[w].numLocals), {})])
  }

  /** Word.Run: native words act at once, data words push, interpreted words open a frame. */
  function RunWord(P: Program, w: nat, next: Ip, stack: seq<Value>, frames: seq<Frame>): State {
    if !P.IsWord(w) then Fault
    else
      match P.words[w]
      case Data(block, offset) => Running(next, stack + [Blob(block, offset)], frames)
      case Interpreted(_, _, _) => Enter(P, w, Some(next), stack, frames)
      case Native(effect) =>
        if !effect.IsKnown() || |stack| < effect.din then Fault
        else if effect.NoExit() then Halted
        else
          var floor := |stack| - effect.din;
          Running(next, stack[..floor] + P.native(w, stack[floor..]), frames)
  }

  /** CPU.Exit. */
  function Leave(stack: seq<Value>, frames: seq<Frame>): State
    requires |frames| > 0
  {
    var top := |frames| - 1;
    match frames[top].saved
    case None => Exited(stack)
    case Some(ip) => Running(ip, stack, frames[..top])
  }

  function StoreLocal(frames: seq<Frame>, n: nat, v: Value): (r: seq<Frame>)
    requires |frames| > 0 && n < |frames[|frames| - 1].locals|
  {
    var top := |frames| - 1;
    var f := frames[top];
    frames[..top] + [Frame(f.saved, f.locals[n := v], f.written + {n})]
  }

  function Branch(ip: Ip, disp: int, taken: bool, stack: seq<Value>, frames: seq<Frame>): State {
    Running(Ip(ip.word, ip.off + 1 + (if taken then disp else 0)), stack, frames)
  }

  function Execute(P: Program, op: Opcode, ip: Ip, stack: seq<Value>, frames: seq<Frame>): State {
    var next := Ip(ip.word, ip.off + 1);
    var top := |frames| - 1;
    var depth := |stack|;
    match op
    case Const(v) => Running(next, stack + [v], frames)
    case GetLocal(n) =>
      if top < 0 || n >= |frames[top].locals| then Fault
      else Running(next, stack + [frames[top].locals[n]], frames)
    case PutLocal(n) =>
      if depth == 0 || top < 0 || n >= |frames[top].locals| then Fault
      else Running(next, stack[..depth - 1], StoreLocal(frames, n, stack[depth - 1]))
    case Call(w) => RunWord(P, w, next, stack, frames)
    case Ret => if top < 0 then Fault else Leave(stack, frames)
    case Jump(d) => Branch(ip, d, true, stack, frames)
    case JumpIf(d) =>
      if depth == 0 then Fault
      else Branch(ip, d, stack[depth - 1].ToBool(), stack[..depth - 1], frames)
    case JumpIfNot(d) =>
      if depth == 0 then Fault
      else Branch(ip, d, !stack[depth - 1].ToBool(), stack[..depth - 1], frames)
  }

  predicate InCode(P: Program, ip: Ip) {
    P.IsInterpreted(ip.word) && 0 <= ip.off < |P.Code(ip.word)|
  }

  function Step(P: Program, s: State): State {
    if !s.Running? then s
    else if !InCode(P, s.ip) then Fault
    else Execute(P, P.Code(s.ip.word)[s.ip.off], s.ip, s.stack, s.frames)
  }

  function Run(P: Program, s: State, n: nat): State {
    if n == 0 then s else Step(P, Run(P, s, n - 1))
  }

  /** A machine that has stopped stays as it is. */
  lemma {:induction false} Stopped(P: Program, s: State, n: nat, m: nat)
    requires !Run(P, s, n).Running? && n <= m
    ensures Run(P, s, m) == Run(P, s, n)
    decreases m
  {
    if n < m { Stopped(P, s, n, m - 1); }
  }

  /** A word called from outside, as by an entry-point initialiser. */
  function Start(P: Program, w: nat, stack: seq<Value>): State
    requires P.IsInterpreted(w)
  {
    Enter(P, w, None, stack, [])
  }
}
