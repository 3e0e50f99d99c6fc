// Where the compiler's promises stop: inputs on which a guarantee fails, and the exact line
// between those and the rest.

module Edges {
  import opened Wrappers
  import opened Arith
  import opened StackEffect
  import opened Programs
  import opened OpMachine
  import opened FlowSpec
  import opened FlowPaths
  import opened FlowQueue
  import opened FlowSound
  import opened Codec
  import opened Layout
  import opened ByteMachine
  import opened Simulation

  // ----- jumps to jumps exhaust the worklist -----

  /** Each offset of the path holds a jump to the next one. */
  ghost predicate JumpPath(code: seq<Opcode>, path: seq<nat>) {
    && |path| > 0
    && forall i {:trigger path[i]} :: 0 <= i < |path| - 1 ==>
        Jumps(code, path[i]) && JumpTarget(code, path[i]) == path[i + 1]
  }

  lemma {:induction false} RankRises(P: Program, M: Summaries, code: seq<Opcode>, sa: Annotation, rank: seq<nat>,
                                     path: seq<nat>)
    requires Consistent(P, M, code, sa) && JumpsRise(code, sa, rank) && JumpPath(code, path) && Live(sa, path[0])
    ensures Live(sa, path[|path| - 1]) && rank[path[0]] + |path| - 1 <= rank[path[|path| - 1]]
    decreases |path|
  {
    var last := |path| - 1;
    if last > 0 {
      assert JumpPath(code, path[..last]);
      RankRises(P, M, code, sa, rank, path[..last]);
      var p := path[last - 1];
      assert Live(sa, p) && Flows(P, M, code, sa, p) && Jumps(code, p);
    }
  }

  /** Control that reaches a circle of jumps: the analysis never accepts the word, although a
      run of it may be harmless. */
  lemma CircleNeverAccepted(P: Program, M: Summaries, w: nat, path: seq<nat>, c: int)
    requires P.IsInterpreted(w) && JumpPath(P.Code(w), path) && |path| > 1 && path[0] == path[|path| - 1]
    requires Reached(P, M, P.Code(w), path[0], c)
    ensures !DrainedAt(P, M, w)
  {
    if DrainedAt(P, M, w) {
      var sa, rank :| Consistent(P, M, P.Code(w), sa) && JumpsRise(P.Code(w), sa, rank);
      ReachedMarked(P, M, P.Code(w), sa, path[0], c);
      RankRises(P, M, P.Code(w), sa, rank, path);
    }
  }

  /** begin again has a justified summary, that of a word that never exits, but it is a jump to
      itself and so never accepted. */
  lemma BeginAgainRejected(P: Program, M: Summaries, w: nat)
    requires P.IsInterpreted(w) && P.Code(w) == [Jump(-1)] && !P.words[w].declared.IsKnown()
    ensures Describes(P, M, w, [Some(0)], Extremes(0, 0, 0, None), Summary(Pair(0, -1), 0, 1 + P.words[w].numLocals))
    ensures !DrainedAt(P, M, w)
  {
    ReachedStart(P, M, P.Code(w));
    ReachedIsLeast(P, M, P.Code(w), [Some(0)]);
    CircleNeverAccepted(P, M, w, [0, 0], 0);
  }

  /** while-repeat with an if at the end of its body: the jump of the if lands on that of the
      repeat, and still all chains fit in the queue. */
  lemma BranchInLoopRoomy(a: Opcode, b: Opcode, c: Opcode)
    requires !a.IsJump() && !b.IsJump() && !c.IsJump()
    ensures var code := [a, JumpIfNot(4), b, JumpIfNot(1), c, Jump(-6), Ret];
            Jumps(code, 3) && Jumps(code, JumpTarget(code, 3)) && Roomy(code)
  {
    var code := [a, JumpIfNot(4), b, JumpIfNot(1), c, Jump(-6), Ret];
    assert Chain(code, 0, 6) == 0 && Chain(code, 0, 7) == 0 && Chain(code, 6, 7) == 0;
    assert Chain(code, 5, 7) == 1 && Chain(code, 5, 8) == 1;
    assert ChainLength(code, 1) == 1 && ChainLength(code, 3) == 2 && ChainLength(code, 5) == 1;
    assert ChainLength(code, 0) == 0 && ChainLength(code, 2) == 0 && ChainLength(code, 4) == 0;
    assert Budget(code, 1) == 0 && Budget(code, 2) <= 1;
    assert Budget(code, 3) <= 1 && Budget(code, 4) <= 3;
    assert Budget(code, 5) <= 3 && Budget(code, 6) <= 4;
    assert ChainLength(code, 6) == 0;
  }

  // ----- growing natives and the data-stack bound -----

  /** A native word that exits, or a data word. */
  predicate AtOnce(w: Word) { !w.Interpreted? && (w.Native? ==> w.effect.IsKnown() && !w.effect.NoExit()) }

  /** Word 0 is a native or data word, and word 1 calls it. */
  predicate CallsFirst(P: Program, callee: Word) {
    P.words == [callee, Interpreted(0, [Call(0), Ret], UNKNOWN)]
  }

  /** The annotation and the extremes of a word that calls a word of effect e. */
  function CallerDepths(e: SType): Annotation { [Some(0), Some(e.dout - e.din)] }

  function CallerExtremes(e: SType): Extremes { Extremes(-e.din, 0, 0, Some(e.dout - e.din)) }

  lemma CallerConsistent(P: Program, callee: Word)
    requires CallsFirst(P, callee) && AtOnce(callee)
    ensures Consistent(P, map[], P.Code(1), CallerDepths(EffectOf(P, map[], 0)))
    ensures LiveIsReached(P, map[], P.Code(1), CallerDepths(EffectOf(P, map[], 0)))
  {
    hide Reached, LiveIsReached;
    var code := P.Code(1);
    ReachedStart(P, map[], code);
    ReachedSucc(P, map[], code, 0, 0, 1);
    ReachedIsLeast(P, map[], code, CallerDepths(EffectOf(P, map[], 0)));
  }

  ghost predicate Extreme(P: Program, code: seq<Opcode>, sa: Annotation, x: Extremes) {
    && |sa| == |code| && Attains(P, map[], code, sa, x)
    && forall p: nat {:trigger Live(sa, p)} :: Live(sa, p) ==>
         Ready(P, map[], code[p]) && Bounds(P, map[], code, sa, x, p)
  }

  lemma CallerOpcodes(P: Program, callee: Word, e: SType)
    requires CallsFirst(P, callee) && AtOnce(callee) && e == EffectOf(P, map[], 0)
    ensures var op := Call(0);
            && Ready(P, map[], op) && Lowest(P, map[], op, 0) == -e.din
            && Highest(P, map[], op, 0) <= 0 && ReturnUse(P, map[], op) == 0 && e.dout >= 0
    ensures forall c {:trigger Lowest(P, map[], Ret, c)} :: Lowest(P, map[], Ret, c) == c
    ensures forall c {:trigger Highest(P, map[], Ret, c)} :: Highest(P, map[], Ret, c) == 0
    ensures ReturnUse(P, map[], Ret) == 0
  {}

  lemma CallerBounded(P: Program, callee: Word, e: SType)
    requires CallsFirst(P, callee) && AtOnce(callee) && e == EffectOf(P, map[], 0)
    ensures Extreme(P, P.Code(1), CallerDepths(e), CallerExtremes(e))
  {
    hide Lowest, Highest, ReturnUse, EffectOf;
    CallerOpcodes(P, callee, e);
    var sa := CallerDepths(e);
    assert P.Code(1) == [Call(0), Ret];
    assert Live(sa, 0) && Live(sa, 1);
  }

  lemma CalleeEffect(P: Program, callee: Word, e: SType)
    requires CallsFirst(P, callee) && AtOnce(callee) && e == EffectOf(P, map[], 0)
    ensures e.din >= 0 && e.dout >= 0 && Growth(P, 0) == e.dout - e.din
    ensures callee.Data? ==> Growth(P, 0) == 1
    ensures P.IsInterpreted(1) && P.words[1] == Interpreted(0, P.Code(1), UNKNOWN)
  {}

  lemma EffectBack(e: SType)
    requires e.din >= 0 && e.dout >= 0
    ensures Computed(CallerExtremes(e)) == e
  {}

  /** The analysis gives the calling word the callee's effect and the bound 0. */
  lemma CallerDescribed(P: Program, callee: Word)
    requires CallsFirst(P, callee) && AtOnce(callee)
    ensures var e := EffectOf(P, map[], 0);
            Describes(P, map[], 1, CallerDepths(e), CallerExtremes(e), Summary(e, 0, 1))
  {
    hide Consistent, LiveIsReached, Bounds, Attains, EffectOf, Computed;
    CallerConsistent(P, callee);
    CalleeEffect(P, callee, EffectOf(P, map[], 0));
    EffectBack(EffectOf(P, map[], 0));
    CallerBounded(P, callee, EffectOf(P, map[], 0));
  }

  /** Its run: one step for the call, one to return. */
  lemma CallerRun(P: Program, callee: Word, stack: seq<Value>, n: nat)
    requires CallsFirst(P, callee) && AtOnce(callee) && NativesConform(P) && |stack| >= EffectOf(P, map[], 0).din
    ensures Depth(Run(P, Start(P, 1, stack), n)) == |stack| + if n == 0 then 0 else Growth(P, 0)
  {
    hide NativesConform;
    var s := Start(P, 1, stack);
    CallerSteps(P, callee, stack);
    if n == 0 {
      assert Run(P, s, 0) == s;
    } else if n >= 2 {
      assert Run(P, s, 2) == Step(P, Run(P, s, 1));
      OpMachine.Stopped(P, s, 2, n);
    }
  }

  lemma CallerSteps(P: Program, callee: Word, stack: seq<Value>)
    requires CallsFirst(P, callee) && AtOnce(callee) && NativesConform(P) && |stack| >= EffectOf(P, map[], 0).din
    ensures var r := Run(P, Start(P, 1, stack), 1);
            && r.Running? && r.ip == Ip(1, 1) && |r.frames| == 1 && r.frames[0].saved.None?
            && |r.stack| == |stack| + Growth(P, 0)
  {
    var s := Start(P, 1, stack);
    assert Run(P, s, 0) == s;
    assert P.Code(1)[0] == Call(0);
    if callee.Native? {
      var args := stack[|stack| - callee.effect.din..];
      assert |P.native(0, args)| == callee.effect.dout;
    }
  }

  /** No run of word 1 on at least din elements grows the stack by more than the bound. */
  ghost predicate KeepsWithin(P: Program, din: int, bound: int)
    requires P.IsInterpreted(1)
  {
    forall stack: seq<Value>, n: nat {:trigger Run(P, Start(P, 1, stack), n)} :: |stack| >= din ==>
      Depth(Run(P, Start(P, 1, stack), n)) <= |stack| + bound
  }

  lemma CallerGrows(P: Program, callee: Word, din: nat)
    requires CallsFirst(P, callee) && AtOnce(callee) && NativesConform(P) && din == EffectOf(P, map[], 0).din
    ensures P.IsInterpreted(1) && (KeepsWithin(P, din, 0) <==> Growth(P, 0) <= 0)
  {
    hide Run, Start, NativesConform, Depth, Growth, EffectOf;
    assert P.IsInterpreted(1);
    forall stack: seq<Value>, n: nat | |stack| >= din
      ensures Depth(Run(P, Start(P, 1, stack), n)) == |stack| + if n == 0 then 0 else Growth(P, 0)
    {
      CallerRun(P, callee, stack, n);
    }
    assert Depth(Run(P, Start(P, 1, Zeros(din)), 1)) == |Zeros(din)| + Growth(P, 0);
  }

  /** The bound that the analysis gives the calling word holds in all runs exactly when the
      callee does not grow the stack. */
  lemma CallerPeak(P: Program, callee: Word)
    requires CallsFirst(P, callee) && AtOnce(callee) && NativesConform(P)
    ensures var e := EffectOf(P, map[], 0);
            var sum := Summary(e, 0, 1);
            && Describes(P, map[], 1, CallerDepths(e), CallerExtremes(e), sum)
            && (KeepsWithin(P, e.din, sum.maxData) <==> callee.Native? && e.dout <= e.din)
  {
    hide Describes, KeepsWithin, NativesConform, EffectOf, Growth;
    CallerDescribed(P, callee);
    CalleeEffect(P, callee, EffectOf(P, map[], 0));
    CallerGrows(P, callee, EffectOf(P, map[], 0).din);
  }

  // ----- the number of locals over one byte -----

  /** The header is written as one byte but read as a 7E number: it is read back exactly when
      it is at most 127. */
  lemma HeaderReadBack(b: seq<Byte>, pos: nat, n: nat)
    requires pos < |b| && n <= 255 && [b[pos]] == OpBytes(n, true)
    ensures ParseUnsigned(b, pos) == Some(Parsed(n, pos + 1)) <==> n <= 127
  {
    assert b[pos] == n;
    if n > 127 { assert ParseUnsigned(b, pos).Some? ==> ParseUnsigned(b, pos).value.next > pos + 1; }
  }

  // ----- a local read before it is written -----

  /** One word: getlocal 0, ret. */
  function Reader(): Program { Program([Interpreted(1, [GetLocal(0), Ret], UNKNOWN)], (w, args) => []) }

  function ReaderImage(): Image { Image([1, 2, 0, 0], [0], 7, true) }

  /** In the opcode machine the local is 0; in the generated code it is whatever the buffer
      held. They agree exactly when that was 0. */
  lemma FreshLocal(C: Snippets, v: Word32)
    ensures Run(Reader(), Start(Reader(), 0, []), 1).Running?
    ensures Run(Reader(), Start(Reader(), 0, []), 1).stack == [ZERO]
    ensures Turns(ReaderImage(), C, Init(ReaderImage(), 7, [], [v, 0], 0), 1).Active?
    ensures Turns(ReaderImage(), C, Init(ReaderImage(), 7, [], [v, 0], 0), 1).ds == [v]
  {
    var s := Start(Reader(), 0, []);
    assert Run(Reader(), s, 0) == s;
    assert s == Running(Ip(0, 0), [], [Frame(None, Zeros(1), {})]) by {
      assert [] + [Frame(None, Zeros(1), {})] == [Frame(None, Zeros(1), {})];
    }
    assert Run(Reader(), s, 1) == Step(Reader(), s);
    var img := ReaderImage();
    assert ParseUnsigned(img.code, 0) == Some(Parsed(1, 1));
    assert ParseUnsigned(img.code, 2) == Some(Parsed(0, 3));
    var m := Init(img, 7, [], [v, 0], 0);
    assert m == Active(1, [], [v, U32(0x1_0000)], 2);
    assert Turns(img, C, m, 0) == m;
    assert Turn(img, C, m) == Active(3, [] + [v], [v, U32(0x1_0000)], 2);
  }
}
