// Values, opcodes and words: the compiler's input to flow analysis and code generation.

module Programs {
  import opened Arith
  import opened StackEffect

  /** TValue: an integer, the execution token of a word, or an offset into a data block. */
  datatype Value =
    | IntV(x: Int32)
    | XT(word: nat)
    | Blob(block: nat, off: Int32)
  {
    /** TValue.Bool: only the integer 0 is false; these pointers are always true. */
    predicate ToBool() { IntV? ==> x != 0 }
  }

  const ZERO: Value := IntV(0)

  /** Displacement of a jump whose target is not yet known. */
  const UNRESOLVED: int := -0x8000_0000

  datatype Opcode =
    | Const(val: Value)
    | GetLocal(num: nat)
    | PutLocal(num: nat)
    | Call(target: nat)
    | Ret
    | Jump(disp: int)
    | JumpIf(disp: int)
    | JumpIfNot(disp: int)
  {
    predicate IsJump() { Jump? || JumpIf? || JumpIfNot? }

    function JumpDisp(): int { if IsJump() then disp else 0 }

    predicate MayFallThrough() { !Ret? && (Jump? ==> disp == 0) }

    function StackAction(): int {
      match this
      case Const(_) => 1
      case GetLocal(_) => 1
      case PutLocal(_) => -1
      case JumpIf(_) => -1
      case JumpIfNot(_) => -1
      case _ => 0
    }
  }

  /** A word refers to other words by their index in the program. */
  datatype Word =
    | Interpreted(numLocals: nat, code: seq<Opcode>, declared: SType)
    | Native(effect: SType)
    | Data(block: nat, offset: Int32)

  /** Code no run can leave: every jump lands inside and the last opcode does not fall through. */
  ghost predicate ClosedCode(code: seq<Opcode>) {
    && |code| > 0 && !code[|code| - 1].MayFallThrough()
    && (forall p {:trigger code[p]} :: 0 <= p < |code| && code[p].IsJump() ==> 0 <= p + 1 + code[p].disp < |code|)
  }

  /** Local variables are numbered below the number of locals. */
  ghost predicate LocalsBelow(code: seq<Opcode>, numLocals: nat) {
    forall p {:trigger code[p]} :: 0 <= p < |code| && (code[p].GetLocal? || code[p].PutLocal?) ==>
        code[p].num < numLocals
  }

  /** The word table, with the meaning of native words as functions of their arguments. */
  datatype Program = Program(words: seq<Word>, native: (nat, seq<Value>) -> seq<Value>)
  {
    predicate IsWord(w: nat) { w < |words| }

    predicate IsInterpreted(w: nat) { w < |words| && words[w].Interpreted? }

    function Code(w: nat): seq<Opcode>
      requires IsInterpreted(w)
    {
      words[w].code
    }
  }

  /** A native word that exits replaces its arguments by as many results as it declares. */
  ghost predicate NativesConform(P: Program) {
    forall w: nat, args ::
      P.IsWord(w) && P.words[w].Native? && P.words[w].effect.IsKnown()
      && !P.words[w].effect.NoExit() && |args| == P.words[w].effect.din
      ==> |P.native(w, args)| == P.words[w].effect.dout
  }

  /** Local numbers stay below the number of locals of their word, as WordBuilder assigns them. */
  ghost predicate WellScoped(P: Program) {
    forall w: nat, p: nat {:trigger P.Code(w)[p]} ::
      P.IsInterpreted(w) && p < |P.Code(w)| ==>
        var op := P.Code(w)[p];
        (op.GetLocal? || op.PutLocal?) ==> op.num < P.words[w].numLocals
  }
}
