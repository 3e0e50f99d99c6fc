// Programs on integers: nothing has to be known of their runs.

module IntegerCode {
  import opened Wrappers
  import opened Arith
  import opened StackEffect
  import opened Programs
  import opened FlowSpec
  import opened Linking
  import opened Rotation
  import opened Expressions
  import opened ByteMachine
  import opened Simulation
  import opened Correctness
  import opened Natives
  import opened Discipline
  import opened Compiler
  import FlowSound
  import Slots

  /** The words of the core file that raise no exception on integers. */
  predicate Total(op: Op) {
    !op.Div? && !op.UDiv? && !op.Mod? && !op.UMod? && !op.Shl? && !op.Sar? && !op.UShr?
  }

  /** Which word of the core file each native word is. */
  type Catalogue = map<nat, Op>

  const INTEGERS: Domain := (v: Value) => v.IntV?

  /** All natives are such words, constants are integers, there are no data words, and locals are
      written before they are read. */
  ghost predicate IntegerProgram(B: Build, C: Snippets, ops: Catalogue, D: Written) {
    && DefinitelyAssigned(B.P, D)
    && (forall w: nat {:trigger B.P.words[w]} :: B.P.IsWord(w) ==>
          && !B.P.words[w].Data?
          && (B.P.words[w].Native? ==> w in ops && Total(ops[w]) && Implements(B, C, w, ops[w])))
    && (forall w: nat, p: nat {:trigger B.P.Code(w)[p]} ::
          B.P.IsInterpreted(w) && p < |B.P.Code(w)| && B.P.Code(w)[p].Const? ==> B.P.Code(w)[p].val.IntV?)
  }

  lemma ShufflesStay(s: seq<Value>, d: nat)
    requires d < |s| && AllIn(INTEGERS, s)
    ensures AllIn(INTEGERS, Rotated(s, d)) && AllIn(INTEGERS, Unrotated(s, d))
  {}

  /** On integers such a word succeeds, and gives integers. */
  lemma TotalOnIntegers(op: Op, s: seq<Value>)
    requires Total(op) && |s| == Effect(op).din && AllIn(INTEGERS, s)
    ensures Compiled(op, s).Some? && AllIn(INTEGERS, Compiled(op, s).value)
  {
    hide Rotated, Unrotated, U32, I32, AndBits, OrBits, XorBits, Shr, Pow2, UnsignedQuotient, UnsignedRemainder;
    match op
    case Swap => ShufflesStay(s, 1);
    case Rot => ShufflesStay(s, 2);
    case NRot => ShufflesStay(s, 2);
    case _ =>
  }

  lemma IntegersDisciplined(B: Build, C: Snippets, ops: Catalogue, D: Written, blocks: seq<seq<Byte>>)
    requires IntegerProgram(B, C, ops, D)
    ensures Disciplined(B.P, blocks, INTEGERS, D)
  {
    hide DefinitelyAssigned, Compiled, CCode;
    forall w: nat, args |
        B.P.IsWord(w) && B.P.words[w].Native? && |args| == B.P.words[w].effect.din && AllIn(INTEGERS, args)
      ensures AllIn(INTEGERS, B.P.native(w, args))
    {
      TotalOnIntegers(ops[w], args);
    }
  }

  /** The linking and the data of a compiled program. */
  ghost predicate Placed(B: Build, ccode: Slots.Texts, blocks: seq<seq<Byte>>) {
    && Slots.Linked(B.P, ccode, blocks, B.L.slots, B.L.base, B.L.blocks)
    && |Slots.DataBytes(blocks, |blocks|)| < 0x8000_0000
  }

  lemma IntegersFollow(B: Build, C: Snippets, ops: Catalogue, D: Written, ccode: Slots.Texts, blocks: seq<seq<Byte>>)
    requires IntegerProgram(B, C, ops, D) && Placed(B, ccode, blocks)
    ensures SnippetsFollow(B, C, INTEGERS)
  {
    hide DefinitelyAssigned, Compiled, CCode, Implements, SnippetAgrees, Placed;
    forall w: nat, stack | AllIn(INTEGERS, stack)
      ensures SnippetAgrees(B, C, w, stack)
    {
      if B.P.IsWord(w) && B.P.words[w].Native? {
        IntegersAgree(B, C, ops[w], w, stack, ccode, blocks);
      } else {
        NothingToFollow(B, C, w, stack);
      }
    }
  }

  lemma NothingToFollow(B: Build, C: Snippets, w: nat, stack: seq<Value>)
    requires !(B.P.IsWord(w) && B.P.words[w].Native?)
    ensures SnippetAgrees(B, C, w, stack)
  {}

  lemma IntegersAgree(B: Build, C: Snippets, op: Op, w: nat, stack: seq<Value>, ccode: Slots.Texts,
                      blocks: seq<seq<Byte>>)
    requires Total(op) && Implements(B, C, w, op) && AllIn(INTEGERS, stack) && Placed(B, ccode, blocks)
    ensures SnippetAgrees(B, C, w, stack)
  {
    hide Compiled, CCode, Slots.Linked, Slots.DataBytes;
    if |stack| >= Effect(op).din {
      var s := stack[|stack| - Effect(op).din..];
      TotalOnIntegers(op, s);
      NativeFaithful(B, C, ccode, blocks, w, op, stack);
    }
  }

  /** Compiler correctness for programs on integers: whatever their arguments, all runs of all
      approved entry points are those of the emitted code. */
  lemma IntegerCodeCorrect(B: Build, C: Snippets, M: Summaries, ops: Catalogue, D: Written, ccode: Slots.Texts,
                           blocks: seq<seq<Byte>>, env: FlowSound.Entry, rmem0: seq<Word32>, rp0: nat, dsLimit: int,
                           rsLimit: int, t: nat)
    requires WellBuilt(B) && Coherent(B.P, M) && NativesConform(B.P)
    requires B.P.IsInterpreted(env.word) && Approved(B.P, M, env.word, dsLimit, rsLimit)
    requires M[env.word].effect.din <= |env.stack| && rp0 + rsLimit + 1 <= |rmem0|
    requires IntegerProgram(B, C, ops, D) && Placed(B, ccode, blocks) && AllIn(INTEGERS, env.stack)
    ensures EndedLike(B, Steps(B, env, t), Turns(B.Img(), C, Launch(B, env, rmem0, rp0), t), rmem0, rp0)
    ensures !Steps(B, env, t).Running? ==>
              var m := Turns(B.Img(), C, Launch(B, env, rmem0, rp0), Time(B, env, t));
              !m.Active? && EndedLike(B, Steps(B, env, t), m, rmem0, rp0)
  {
    hide *;
    IntegersDisciplined(B, C, ops, D, blocks);
    IntegersFollow(B, C, ops, D, ccode, blocks);
    PlacedData(B, ccode, blocks);
    CompiledCodeCorrect(B, C, M, blocks, INTEGERS, D, env, rmem0, rp0, dsLimit, rsLimit, t);
  }

  lemma PlacedData(B: Build, ccode: Slots.Texts, blocks: seq<seq<Byte>>)
    requires Placed(B, ccode, blocks)
    ensures B.L.blocks == Slots.Addresses(blocks) && |Slots.DataBytes(blocks, |blocks|)| < 0x8000_0000
  {}
}
