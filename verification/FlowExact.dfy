// The results of the flow analysis are exact: what is announced of a word is what some chain of
// live calls amounts to, and no chain amounts to more. Chains are followed in the code itself.

module FlowExact {
  import opened Wrappers
  import opened Arith
  import opened StackEffect
  import opened Programs
  import opened OpMachine
  import opened FlowSpec
  import opened FlowPaths

  /** What a coherent table says of an offset that control reaches. */
  lemma AtReached(P: Program, M: Summaries, w: nat, p: nat, c: int) returns (sa: Annotation, x: Extremes)
    requires Coherent(P, M) && w in M && P.IsInterpreted(w) && p < |P.Code(w)| && Reached(P, M, P.Code(w), p, c)
    ensures Describes(P, M, w, sa, x, M[w]) && Marked(sa, p, c)
    ensures Ready(P, M, P.Code(w)[p]) && Bounds(P, M, P.Code(w), sa, x, p)
  {
    sa, x := ReachedInCoherent(P, M, M, w, p, c);
    assert Live(sa, p) && Flows(P, M, P.Code(w), sa, p);
  }

  lemma DescriptionOf(P: Program, M: Summaries, w: nat) returns (sa: Annotation, x: Extremes)
    requires Coherent(P, M) && w in M
    ensures P.IsInterpreted(w) && Describes(P, M, w, sa, x, M[w]) && |sa| == |P.Code(w)|
    ensures M[w].maxReturn == 1 + P.words[w].numLocals + x.ret && x.ret >= 0
  {
    assert Justified(P, M, w);
    sa, x :| Describes(P, M, w, sa, x, M[w]);
  }

  lemma LiveReaches(P: Program, M: Summaries, w: nat, sa: Annotation, x: Extremes, sum: Summary, p: nat)
    requires Describes(P, M, w, sa, x, sum) && Live(sa, p)
    ensures p < |P.Code(w)| && Reached(P, M, P.Code(w), p, sa[p].value) && Ready(P, M, P.Code(w)[p])
  {
    assert Flows(P, M, P.Code(w), sa, p);
  }

  // ----- return stack -----

  /** The cells of one frame for each word of a chain. */
  function FrameCells(P: Program, path: seq<nat>): nat {
    if path == [] then 0
    else (if P.IsInterpreted(path[0]) then 1 + P.words[path[0]].numLocals else 0) + FrameCells(P, path[1..])
  }

  /** Interpreted words from w on, each calling the next at an offset that control reaches. */
  ghost predicate CallsFrom(P: Program, M: Summaries, w: nat, path: seq<nat>)
    decreases |path|
  {
    && |path| > 0 && path[0] == w && P.IsInterpreted(w)
    && (|path| > 1 ==> ReachesCall(P, M, w, path[1]) && CallsFrom(P, M, path[1], path[1..]))
  }

  lemma CalleeCells(P: Program, M: Summaries, w: nat, v: nat)
    requires Coherent(P, M) && w in M && ReachesCall(P, M, w, v) && P.IsInterpreted(v)
    ensures v in M && 1 + P.words[w].numLocals + M[v].maxReturn <= M[w].maxReturn
  {
    var p: nat, c :| p < |P.Code(w)| && P.Code(w)[p] == Call(v) && Reached(P, M, P.Code(w), p, c);
    var sa, x := AtReached(P, M, w, p, c);
  }

  lemma {:induction false} ChainCells(P: Program, M: Summaries, w: nat, path: seq<nat>)
    requires Coherent(P, M) && w in M && CallsFrom(P, M, w, path)
    ensures FrameCells(P, path) <= M[w].maxReturn
    decreases |path|
  {
    hide Coherent, Describes;
    if |path| > 1 {
      CalleeCells(P, M, w, path[1]);
      ChainCells(P, M, path[1], path[1..]);
    } else {
      var sa, x := DescriptionOf(P, M, w);
      assert path[1..] == [];
    }
  }

  lemma {:induction false} LongestChain(P: Program, M: Summaries, w: nat) returns (path: seq<nat>)
    requires Coherent(P, M) && w in M
    ensures CallsFrom(P, M, w, path) && FrameCells(P, path) == M[w].maxReturn
    decreases M[w].maxReturn
  {
    hide Coherent, Reached, Bounds, Consistent, LiveIsReached;
    var sa, x := DescriptionOf(P, M, w);
    if x.ret == 0 {
      path := [w];
      assert path[1..] == [];
    } else {
      var p: nat :| Live(sa, p) && Ready(P, M, P.Code(w)[p]) && ReturnUse(P, M, P.Code(w)[p]) == x.ret;
      LiveReaches(P, M, w, sa, x, M[w], p);
      var v := P.Code(w)[p].target;
      assert ReachesCall(P, M, w, v);
      var rest := LongestChain(P, M, v);
      path := [w] + rest;
      assert path[1..] == rest;
    }
  }

  /** MaxReturnStack is the most cells that a chain of live calls opens. */
  lemma ReturnStackExact(P: Program, M: Summaries, w: nat)
    requires Coherent(P, M) && w in M
    ensures exists path :: CallsFrom(P, M, w, path) && FrameCells(P, path) == M[w].maxReturn
    ensures forall path :: CallsFrom(P, M, w, path) ==> FrameCells(P, path) <= M[w].maxReturn
  {
    hide Coherent;
    var path := LongestChain(P, M, w);
    forall path | CallsFrom(P, M, w, path)
      ensures FrameCells(P, path) <= M[w].maxReturn
    {
      ChainCells(P, M, w, path);
    }
  }

  // ----- data stack -----

  /** An offset that control reaches, with its depth above the entry of its word. */
  datatype Site = Site(off: nat, depth: int)

  predicate EntersCode(P: Program, op: Opcode) { op.Call? && P.IsInterpreted(op.target) }

  /** Calls from w into interpreted words, down to an entry or to an opcode of the last word. */
  ghost predicate Climbs(P: Program, M: Summaries, w: nat, sites: seq<Site>)
    decreases |sites|
  {
    sites != [] ==>
    && P.IsInterpreted(w) && sites[0].off < |P.Code(w)|
    && Reached(P, M, P.Code(w), sites[0].off, sites[0].depth)
    && var op := P.Code(w)[sites[0].off];
       if EntersCode(P, op) then Climbs(P, M, op.target, sites[1..]) else |sites| == 1 && !op.Ret?
  }

  /** What the source adds to the depth for an opcode: its own action, or what Word.MaxDataStack
      reports of a native or data word. */
  function Peak(P: Program, op: Opcode): int {
    match op
    case Const(_) => 1
    case GetLocal(_) => 1
    case PutLocal(_) => -1
    case JumpIf(_) => -1
    case JumpIfNot(_) => -1
    case Jump(_) => 0
    case Ret => 0
    case Call(v) =>
      if P.IsWord(v) && P.words[v].Native? && P.words[v].effect.dout >= 0
          && P.words[v].effect.dout < P.words[v].effect.din
      then P.words[v].effect.dout - P.words[v].effect.din
      else 0
  }

  /** The height above the entry of w where the sites lead. */
  function Height(P: Program, w: nat, sites: seq<Site>): int
    decreases |sites|
  {
    if sites == [] || !P.IsInterpreted(w) || sites[0].off >= |P.Code(w)| then 0
    else
      var op := P.Code(w)[sites[0].off];
      sites[0].depth + if EntersCode(P, op) then Height(P, op.target, sites[1..]) else Peak(P, op)
  }

  lemma HighestIs(P: Program, M: Summaries, op: Opcode, c: int)
    requires Ready(P, M, op) && !op.Ret?
    ensures EntersCode(P, op) ==> op.target in M && Highest(P, M, op, c) == c + M[op.target].maxData
    ensures !EntersCode(P, op) ==> Highest(P, M, op, c) == c + Peak(P, op)
  {}

  lemma {:induction false} ClimbBounded(P: Program, M: Summaries, w: nat, sites: seq<Site>)
    requires Coherent(P, M) && w in M && Climbs(P, M, w, sites)
    ensures Height(P, w, sites) <= M[w].maxData
    decreases |sites|
  {
    hide Coherent, Reached, Peak, Highest;
    if sites == [] {
      var sa, x := DescriptionOf(P, M, w);
    } else {
      var Site(p, c) := sites[0];
      var op := P.Code(w)[p];
      var sa, x := AtReached(P, M, w, p, c);
      HighestIs(P, M, op, c);
      if EntersCode(P, op) { ClimbBounded(P, M, op.target, sites[1..]); }
    }
  }

  lemma {:induction false} HighestClimb(P: Program, M: Summaries, w: nat) returns (sites: seq<Site>)
    requires Coherent(P, M) && w in M
    ensures Climbs(P, M, w, sites) && Height(P, w, sites) == M[w].maxData
    decreases M[w].maxReturn
  {
    hide Coherent, Reached, Bounds, Consistent, LiveIsReached, Peak, Highest;
    var sa, x := DescriptionOf(P, M, w);
    if x.high == 0 {
      sites := [];
    } else {
      var p: nat :| Live(sa, p) && Ready(P, M, P.Code(w)[p]) && Highest(P, M, P.Code(w)[p], sa[p].value) == x.high;
      LiveReaches(P, M, w, sa, x, M[w], p);
      var op, site := P.Code(w)[p], Site(p, sa[p].value);
      RetIsNothing(P, M, op, sa[p].value);
      HighestIs(P, M, op, sa[p].value);
      if EntersCode(P, op) {
        assert ReachesCall(P, M, w, op.target);
        CalleeCells(P, M, w, op.target);
        var rest := HighestClimb(P, M, op.target);
        sites := [site] + rest;
        assert sites[1..] == rest;
      } else {
        sites := [site];
      }
    }
  }

  lemma RetIsNothing(P: Program, M: Summaries, op: Opcode, c: int)
    requires Ready(P, M, op)
    ensures op.Ret? ==> Highest(P, M, op, c) == 0
  {}

  /** MaxDataStack is the greatest height, as the source counts it, that live calls and a live
      opcode lead to. */
  lemma DataStackExact(P: Program, M: Summaries, w: nat)
    requires Coherent(P, M) && w in M
    ensures exists sites :: Climbs(P, M, w, sites) && Height(P, w, sites) == M[w].maxData
    ensures forall sites :: Climbs(P, M, w, sites) ==> Height(P, w, sites) <= M[w].maxData
  {
    hide Coherent;
    var sites := HighestClimb(P, M, w);
    forall sites | Climbs(P, M, w, sites)
      ensures Height(P, w, sites) <= M[w].maxData
    {
      ClimbBounded(P, M, w, sites);
    }
  }

  // ----- stack effect -----

  predicate Undeclared(P: Program, w: nat) { P.IsInterpreted(w) && !P.words[w].declared.IsKnown() }

  /** A call whose effect has to be looked for in the code of the word called. */
  predicate EntersUndeclared(P: Program, op: Opcode) { op.Call? && Undeclared(P, op.target) }

  ghost predicate Dives(P: Program, M: Summaries, w: nat, sites: seq<Site>)
    decreases |sites|
  {
    sites != [] ==>
    && P.IsInterpreted(w) && sites[0].off < |P.Code(w)|
    && Reached(P, M, P.Code(w), sites[0].off, sites[0].depth)
    && var op := P.Code(w)[sites[0].off];
       if EntersUndeclared(P, op) then Dives(P, M, op.target, sites[1..]) else |sites| == 1
  }

  /** How an opcode changes the depth at its lowest: a call takes the arguments that the word
      declares. */
  function Dip(P: Program, op: Opcode): int {
    match op
    case Const(_) => 1
    case GetLocal(_) => 1
    case PutLocal(_) => -1
    case JumpIf(_) => -1
    case JumpIfNot(_) => -1
    case Jump(_) => 0
    case Ret => 0
    case Call(v) =>
      if !P.IsWord(v) then 0
      else
        match P.words[v]
        case Native(e) => -e.din
        case Data(_, _) => 0
        case Interpreted(_, _, declared) => -declared.din
  }

  function Floor(P: Program, w: nat, sites: seq<Site>): int
    decreases |sites|
  {
    if sites == [] || !P.IsInterpreted(w) || sites[0].off >= |P.Code(w)| then 0
    else
      var op := P.Code(w)[sites[0].off];
      sites[0].depth + if EntersUndeclared(P, op) then Floor(P, op.target, sites[1..]) else Dip(P, op)
  }

  lemma EffectFacts(P: Program, M: Summaries, w: nat)
    requires Coherent(P, M) && w in M
    ensures P.IsInterpreted(w) && M[w].effect.IsKnown()
    ensures P.words[w].declared.IsKnown() ==> M[w].effect == P.words[w].declared
  {
    var sa, x := DescriptionOf(P, M, w);
  }

  lemma LowestIs(P: Program, M: Summaries, op: Opcode, c: int)
    requires Coherent(P, M) && Ready(P, M, op)
    ensures EntersUndeclared(P, op) ==> op.target in M && Lowest(P, M, op, c) == c - M[op.target].effect.din
    ensures !EntersUndeclared(P, op) ==> Lowest(P, M, op, c) == c + Dip(P, op)
  {
    hide Coherent;
    if op.Call? && P.IsInterpreted(op.target) { EffectFacts(P, M, op.target); }
  }

  lemma {:induction false} DiveBounded(P: Program, M: Summaries, w: nat, sites: seq<Site>)
    requires Coherent(P, M) && w in M && Dives(P, M, w, sites)
    ensures Floor(P, w, sites) >= -M[w].effect.din
    decreases |sites|
  {
    hide Coherent, Reached, Dip, Lowest;
    EffectFacts(P, M, w);
    if sites != [] {
      var Site(p, c) := sites[0];
      var op := P.Code(w)[p];
      var sa, x := AtReached(P, M, w, p, c);
      LowestIs(P, M, op, c);
      LowCovered(P, M, w, sa, x);
      if EntersUndeclared(P, op) { DiveBounded(P, M, op.target, sites[1..]); }
    }
  }

  lemma LowCovered(P: Program, M: Summaries, w: nat, sa: Annotation, x: Extremes)
    requires w in M && Describes(P, M, w, sa, x, M[w])
    ensures -M[w].effect.din <= x.low
    ensures Undeclared(P, w) ==> -M[w].effect.din == x.low
  {}

  lemma {:induction false} DeepestDive(P: Program, M: Summaries, w: nat) returns (sites: seq<Site>)
    requires Coherent(P, M) && w in M && Undeclared(P, w)
    ensures Dives(P, M, w, sites) && Floor(P, w, sites) == -M[w].effect.din
    decreases M[w].maxReturn
  {
    hide Coherent, Reached, Bounds, Consistent, LiveIsReached, Dip, Lowest;
    var sa, x := DescriptionOf(P, M, w);
    LowCovered(P, M, w, sa, x);
    if x.low == 0 {
      sites := [];
    } else {
      var p: nat :| Live(sa, p) && Ready(P, M, P.Code(w)[p]) && Lowest(P, M, P.Code(w)[p], sa[p].value) == x.low;
      LiveReaches(P, M, w, sa, x, M[w], p);
      var op, site := P.Code(w)[p], Site(p, sa[p].value);
      LowestIs(P, M, op, sa[p].value);
      if EntersUndeclared(P, op) {
        assert ReachesCall(P, M, w, op.target);
        CalleeCells(P, M, w, op.target);
        var rest := DeepestDive(P, M, op.target);
        sites := [site] + rest;
        assert sites[1..] == rest;
      } else {
        sites := [site];
      }
    }
  }

  /** The published effect. A declared one is kept; otherwise DataIn is the greatest depth that live
      calls and a live opcode reach below the entry. No path goes deeper in either case. Every return
      is at the promised depth, and an undeclared word is said not to exit exactly when control
      reaches no return. */
  lemma EffectExact(P: Program, M: Summaries, w: nat)
    requires Coherent(P, M) && w in M
    ensures P.IsInterpreted(w) && M[w].effect.IsKnown()
    ensures P.words[w].declared.IsKnown() ==> M[w].effect == P.words[w].declared
    ensures forall sites :: Dives(P, M, w, sites) ==> Floor(P, w, sites) >= -M[w].effect.din
    ensures Undeclared(P, w) ==> exists sites :: Dives(P, M, w, sites) && Floor(P, w, sites) == -M[w].effect.din
    ensures forall p: nat, c :: ReturnsAt(P, M, w, p, c) ==>
              !M[w].effect.NoExit() && c == M[w].effect.dout - M[w].effect.din
    ensures Undeclared(P, w) && M[w].effect.NoExit()
            <==> Undeclared(P, w) && forall p: nat, c :: !ReturnsAt(P, M, w, p, c)
  {
    hide Coherent, Reached;
    EffectFacts(P, M, w);
    forall sites | Dives(P, M, w, sites)
      ensures Floor(P, w, sites) >= -M[w].effect.din
    {
      DiveBounded(P, M, w, sites);
    }
    if Undeclared(P, w) { var sites := DeepestDive(P, M, w); }
    forall p: nat, c | ReturnsAt(P, M, w, p, c)
      ensures !M[w].effect.NoExit() && c == M[w].effect.dout - M[w].effect.din
    {
      ReturnPromised(P, M, w, p, c);
    }
    if Undeclared(P, w) && !M[w].effect.NoExit() { SomeReturn(P, M, w); }
  }

  ghost predicate ReturnsAt(P: Program, M: Summaries, w: nat, p: nat, c: int) {
    P.IsInterpreted(w) && p < |P.Code(w)| && P.Code(w)[p].Ret? && Reached(P, M, P.Code(w), p, c)
  }

  lemma ReturnPromised(P: Program, M: Summaries, w: nat, p: nat, c: int)
    requires Coherent(P, M) && w in M && ReturnsAt(P, M, w, p, c)
    ensures !M[w].effect.NoExit() && c == M[w].effect.dout - M[w].effect.din
  {
    hide Coherent, Reached;
    var sa, x := AtReached(P, M, w, p, c);
    assert x.exit == Some(c);
    assert Lowest(P, M, P.Code(w)[p], c) == c;
  }

  lemma SomeReturn(P: Program, M: Summaries, w: nat)
    requires Coherent(P, M) && w in M && Undeclared(P, w) && !M[w].effect.NoExit()
    ensures exists p: nat, c :: ReturnsAt(P, M, w, p, c)
  {
    hide Coherent, Reached;
    var sa, x := DescriptionOf(P, M, w);
    var p: nat :| Live(sa, p) && P.Code(w)[p].Ret?;
    LiveReaches(P, M, w, sa, x, M[w], p);
    assert ReturnsAt(P, M, w, p, sa[p].value);
  }

  // ----- edges are steps -----

  /** Some step of the machine goes from offset p of word w to offset q in the same frame. */
  ghost predicate StepsTo(P: Program, w: nat, p: nat, q: int) {
    exists stack, frames :: StepFrom(P, w, p, q, stack, frames)
  }

  predicate StepFrom(P: Program, w: nat, p: nat, q: int, stack: seq<Value>, frames: seq<Frame>) {
    var s := Step(P, Running(Ip(w, p), stack, frames));
    s.Running? && s.ip == Ip(w, q) && |s.frames| == |frames| && |frames| > 0
  }

  /** The edges that the analysis follows are the steps that the machine can make; a call of an
      interpreted word comes back exactly if its effect lets it. */
  lemma EdgesAreSteps(P: Program, M: Summaries, w: nat, p: nat, q: int)
    requires P.IsInterpreted(w) && p < |P.Code(w)| && Ready(P, M, P.Code(w)[p]) && WellScoped(P)
    requires !EntersCode(P, P.Code(w)[p])
    ensures Succ(P, M, P.Code(w), p, q) <==> StepsTo(P, w, p, q)
  {
    var op := P.Code(w)[p];
    if Succ(P, M, P.Code(w), p, q) {
      var nl := P.words[w].numLocals;
      var frames := [Frame(None, Zeros(nl), {})];
      var yes, no := [IntV(1)], [IntV(0)];
      match op
      case Const(_) => assert StepFrom(P, w, p, q, [], frames);
      case GetLocal(_) => assert StepFrom(P, w, p, q, [], frames);
      case PutLocal(_) => assert StepFrom(P, w, p, q, yes, frames);
      case Jump(_) => assert StepFrom(P, w, p, q, [], frames);
      case JumpIf(d) => assert StepFrom(P, w, p, q, if q == p + 1 then no else yes, frames);
      case JumpIfNot(d) => assert StepFrom(P, w, p, q, if q == p + 1 then yes else no, frames);
      case Call(v) => assert StepFrom(P, w, p, q, if P.words[v].Native? then Zeros(P.words[v].effect.din)
          else [], frames);
      case Ret =>
    }
    if stack, frames :| StepFrom(P, w, p, q, stack, frames) {
      assert op.Ret? ==> |frames| > 0;
    }
  }
}
