// What WordInterpreted.AnalyseFlow computes, stated without its worklist.

module FlowSpec {
  import opened Wrappers
  import opened StackEffect
  import opened Programs
  import opened Arith

  /** What a finished analysis leaves in a word: StackEffect, maxDataStack, maxReturnStack. */
  datatype Summary = Summary(effect: SType, maxData: int, maxReturn: int)

  /** The interpreted words analysed so far. */
  type Summaries = map<nat, Summary>

  // ----- what a caller sees of a word -----

  predicate Analysed(P: Program, M: Summaries, w: nat) {
    P.IsWord(w) && (P.words[w].Interpreted? ==> w in M)
  }

  function EffectOf(P: Program, M: Summaries, w: nat): SType
    requires Analysed(P, M, w)
  {
    match P.words[w]
    case Interpreted(_, _, _) => M[w].effect
    case Native(effect) => effect
    case Data(_, _) => Pair(0, 1)
  }

  /** Word.MaxDataStack. */
  function DefaultMaxData(effect: SType): int {
    if !effect.IsKnown() then -1
    else if effect.NoExit() then 0
    else Min(0, effect.dout - effect.din)
  }

  function MaxDataOf(P: Program, M: Summaries, w: nat): int
    requires Analysed(P, M, w)
  {
    if P.words[w].Interpreted? then M[w].maxData else DefaultMaxData(EffectOf(P, M, w))
  }

  function MaxReturnOf(P: Program, M: Summaries, w: nat): int
    requires Analysed(P, M, w)
  {
    if P.words[w].Interpreted? then M[w].maxReturn else 0
  }

  // ----- one opcode -----

  predicate Ready(P: Program, M: Summaries, op: Opcode) {
    op.Call? ==> Analysed(P, M, op.target) && EffectOf(P, M, op.target).IsKnown()
  }

  /** Net change of depth when control goes on to a successor. */
  function Action(P: Program, M: Summaries, op: Opcode): int
    requires Ready(P, M, op)
  {
    if op.Call? then
      var e := EffectOf(P, M, op.target);
      if e.NoExit() then 0 else e.dout - e.din
    else op.StackAction()
  }

  predicate Continues(P: Program, M: Summaries, op: Opcode)
    requires Ready(P, M, op)
  {
    op.MayFallThrough() && (op.Call? ==> !EffectOf(P, M, op.target).NoExit())
  }

  /** The lowest depth an opcode executed at depth c reaches. */
  function Lowest(P: Program, M: Summaries, op: Opcode, c: int): int
    requires Ready(P, M, op)
  {
    var after := c + Action(P, M, op);
    if op.Call? then Min(c - EffectOf(P, M, op.target).din, after) else after
  }

  /** The highest depth accounted for an opcode executed at depth c. */
  function Highest(P: Program, M: Summaries, op: Opcode, c: int): int
    requires Ready(P, M, op)
  {
    match op
    case Call(w) => c + MaxDataOf(P, M, w)
    case Ret => 0
    case _ => c + Action(P, M, op)
  }

  function ReturnUse(P: Program, M: Summaries, op: Opcode): int
    requires Ready(P, M, op)
  {
    if op.Call? then MaxReturnOf(P, M, op.target) else 0
  }

  // ----- one word -----

  /** Depth relative to the word's entry at each offset; None where control never arrives. */
  type Annotation = seq<Option<int>>

  predicate Marked(sa: Annotation, q: int, c: int) { 0 <= q < |sa| && sa[q] == Some(c) }

  predicate Live(sa: Annotation, p: nat) { p < |sa| && sa[p].Some? }

  /** Control passes from offset p to offset q. */
  predicate Succ(P: Program, M: Summaries, code: seq<Opcode>, p: nat, q: int)
    requires p < |code| && Ready(P, M, code[p])
  {
    || (q == p + 1 && Continues(P, M, code[p]))
    || (code[p].JumpDisp() != 0 && q == p + 1 + code[p].JumpDisp())
  }

  predicate Flows(P: Program, M: Summaries, code: seq<Opcode>, sa: Annotation, p: nat)
    requires |sa| == |code| && Live(sa, p)
  {
    && Ready(P, M, code[p])
    && var c := sa[p].value + Action(P, M, code[p]);
       && (Continues(P, M, code[p]) ==> Marked(sa, p + 1, c))
       && (code[p].JumpDisp() != 0 ==> Marked(sa, p + 1 + code[p].JumpDisp(), c))
  }

  /** Every offset control can reach carries one depth, and no edge leaves the code. */
  ghost predicate Consistent(P: Program, M: Summaries, code: seq<Opcode>, sa: Annotation) {
    && |sa| == |code|
    && Marked(sa, 0, 0)
    && (forall p: nat {:trigger Live(sa, p)} :: Live(sa, p) ==> Flows(P, M, code, sa, p))
  }

  /** A path of offsets from 0 along control flow; c is the depth its actions add up to. */
  ghost predicate Walk(P: Program, M: Summaries, code: seq<Opcode>, path: seq<int>, c: int) {
    && |path| > 0
    && var last := |path| - 1;
       if last == 0 then path[0] == 0 && c == 0
       else
         var p := path[last - 1];
         && 0 <= p < |code| && Ready(P, M, code[p]) && Succ(P, M, code, p, path[last])
         && Walk(P, M, code, path[..last], c - Action(P, M, code[p]))
  }

  /** Control can arrive at offset q with depth c. */
  ghost predicate Reached(P: Program, M: Summaries, code: seq<Opcode>, q: int, c: int) {
    exists path :: Walk(P, M, code, path, c) && path[|path| - 1] == q
  }

  /** The finished annotation is the least one: exactly the reached offsets are live. */
  ghost predicate LiveIsReached(P: Program, M: Summaries, code: seq<Opcode>, sa: Annotation) {
    && |sa| == |code|
    && (forall p: nat {:trigger Live(sa, p)} :: Live(sa, p) ==> Reached(P, M, code, p, sa[p].value))
    && (forall p, c :: Reached(P, M, code, p, c) ==> Marked(sa, p, c))
  }

  /** The running extremes of the analysis. */
  datatype Extremes = Extremes(low: int, high: int, ret: int, exit: Option<int>)

  /** x bounds what opcode p of a word contributes. */
  predicate Bounds(P: Program, M: Summaries, code: seq<Opcode>, sa: Annotation, x: Extremes, p: nat)
    requires |sa| == |code| && Live(sa, p) && Ready(P, M, code[p])
  {
    && x.low <= Lowest(P, M, code[p], sa[p].value)
    && Highest(P, M, code[p], sa[p].value) <= x.high
    && ReturnUse(P, M, code[p]) <= x.ret
    && (code[p].Ret? ==> x.exit == sa[p])
  }

  ghost predicate Attains(P: Program, M: Summaries, code: seq<Opcode>, sa: Annotation, x: Extremes)
    requires |sa| == |code|
  {
    && (x.low == 0 || exists p: nat :: Live(sa, p) && Ready(P, M, code[p])
                                  && Lowest(P, M, code[p], sa[p].value) == x.low)
    && (x.high == 0 || exists p: nat :: Live(sa, p) && Ready(P, M, code[p])
                                   && Highest(P, M, code[p], sa[p].value) == x.high)
    && (x.ret == 0 || exists p: nat :: Live(sa, p) && Ready(P, M, code[p])
                                  && ReturnUse(P, M, code[p]) == x.ret)
    && (x.exit.Some? ==> exists p: nat :: Live(sa, p) && code[p].Ret?)
  }

  function Computed(x: Extremes): SType {
    if x.exit.None? then MakeSType(-x.low, -1) else MakeSType(-x.low, -x.low + x.exit.value)
  }

  /** sa and x justify the summary sum of the interpreted word w. */
  ghost predicate Describes(P: Program, M: Summaries, w: nat, sa: Annotation, x: Extremes, sum: Summary)
  {
    && P.IsInterpreted(w)
    && var code := P.Code(w);
       && Consistent(P, M, code, sa) && LiveIsReached(P, M, code, sa)
       && x.low <= 0 <= x.high && 0 <= x.ret
       && (forall p: nat {:trigger Live(sa, p)} :: Live(sa, p) ==> Bounds(P, M, code, sa, x, p))
       && Attains(P, M, code, sa, x)
       && sum.maxData == x.high
       && sum.maxReturn == 1 + P.words[w].numLocals + x.ret
       && var declared := P.words[w].declared;
          if declared.IsKnown() then Computed(x).IsSubOf(declared) && sum.effect == declared
          else sum.effect == Computed(x)
  }

  ghost predicate Justified(P: Program, M: Summaries, w: nat)
    requires w in M
  {
    exists sa, x :: Describes(P, M, w, sa, x, M[w])
  }

  ghost predicate Coherent(P: Program, M: Summaries) {
    forall w {:trigger Justified(P, M, w)} :: w in M ==> Justified(P, M, w)
  }
}
