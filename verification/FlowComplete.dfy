// Which words the analysis can accept, said of the paths through their code.

module FlowComplete {
  import opened Wrappers
  import opened Arith
  import opened StackEffect
  import opened Programs
  import opened FlowSpec
  import opened FlowPaths
  import opened FlowWork
  import opened FlowExact

  /** Control stays in the code and comes to each offset with one depth. */
  ghost predicate OneDepth(P: Program, M: Summaries, code: seq<Opcode>) {
    && (forall q, c :: Reached(P, M, code, q, c) ==> 0 <= q < |code|)
    && (forall q, c, d :: Reached(P, M, code, q, c) && Reached(P, M, code, q, d) ==> c == d)
  }

  /** The words called are known and finished, and so are their effects. */
  ghost predicate CallsReady(P: Program, M: Summaries, code: seq<Opcode>) {
    forall p: nat, c :: p < |code| && Reached(P, M, code, p, c) ==> Ready(P, M, code[p])
  }

  /** All returns are at one depth. */
  ghost predicate OneExit(P: Program, M: Summaries, w: nat) {
    forall p: nat, q: nat, c, d :: ReturnsAt(P, M, w, p, c) && ReturnsAt(P, M, w, q, d) ==> c == d
  }

  /** A declared effect covers how deep each reached opcode goes, and every return. */
  ghost predicate DeclaredCovers(P: Program, M: Summaries, w: nat)
    requires P.IsInterpreted(w)
  {
    var e := P.words[w].declared;
    e.IsKnown() ==>
      && (forall p: nat, c :: p < |P.Code(w)| && Reached(P, M, P.Code(w), p, c) && Ready(P, M, P.Code(w)[p]) ==>
            -e.din <= DepthUnder(P, M, P.Code(w)[p], c))
      && (forall p: nat, c :: ReturnsAt(P, M, w, p, c) ==> !e.NoExit() && c == e.dout - e.din)
  }

  /** The lowest depth during an opcode at depth c: a call first takes its arguments. */
  function DepthUnder(P: Program, M: Summaries, op: Opcode, c: int): int
    requires Ready(P, M, op)
  {
    if op.Call? then c - EffectOf(P, M, op.target).din
    else c + (if op.PutLocal? || op.JumpIf? || op.JumpIfNot? then -1 else if op.Const? || op.GetLocal? then 1 else 0)
  }

  ghost predicate Sane(P: Program, M: Summaries, w: nat) {
    && P.IsInterpreted(w)
    && OneDepth(P, M, P.Code(w)) && CallsReady(P, M, P.Code(w)) && OneExit(P, M, w) && DeclaredCovers(P, M, w)
  }

  ghost predicate Extended(P: Program, M: Summaries, w: nat, sum: Summary) { Coherent(P, M[w := sum]) }

  /** Some summary of w fits into the table. */
  ghost predicate Joinable(P: Program, M: Summaries, w: nat) { exists sum :: Extended(P, M, w, sum) }

  // ----- an accepted word is sane -----

  lemma LowestIsUnder(P: Program, M: Summaries, op: Opcode, c: int)
    requires Ready(P, M, op)
    ensures op.Call? && EffectOf(P, M, op.target).dout < 0 ==> EffectOf(P, M, op.target).NoExit()
    ensures Lowest(P, M, op, c) == DepthUnder(P, M, op, c)
  {}

  lemma AcceptedSane(P: Program, M: Summaries, w: nat, sum: Summary)
    requires Coherent(P, M) && w !in M && Coherent(P, M[w := sum])
    ensures Sane(P, M, w)
  {
    hide Coherent, Reached, OneDepth, CallsReady, OneExit, DeclaredCovers;
    var M' := M[w := sum];
    var sa, x := DescriptionOf(P, M', w);
    assert Extends(M, M');
    AcceptedOneDepth(P, M, M', w, sa, x);
    AcceptedReady(P, M, M', w);
    AcceptedExits(P, M, M', w);
    AcceptedCovered(P, M, M', w);
  }

  lemma AcceptedOneDepth(P: Program, M: Summaries, M': Summaries, w: nat, sa: Annotation, x: Extremes)
    requires Extends(M, M') && w in M' && Describes(P, M', w, sa, x, M'[w])
    ensures OneDepth(P, M, P.Code(w))
  {
    hide Reached, Bounds, Attains, Extends;
    var code := P.Code(w);
    forall q, c | Reached(P, M, code, q, c)
      ensures Marked(sa, q, c)
    {
      ReachedExtends(P, M, M', code, q, c);
      ReachedMarked(P, M', code, sa, q, c);
    }
  }

  lemma AcceptedReady(P: Program, M: Summaries, M': Summaries, w: nat)
    requires Extends(M, M') && Coherent(P, M') && w in M' && w !in M && M'.Keys == M.Keys + {w} && P.IsInterpreted(w)
    ensures CallsReady(P, M, P.Code(w))
  {
    hide Coherent, Reached;
    forall p: nat, c | p < |P.Code(w)| && Reached(P, M, P.Code(w), p, c)
      ensures Ready(P, M, P.Code(w)[p])
    {
      var op := P.Code(w)[p];
      if op.Call? {
        assert ReachesCall(P, M, w, op.target);
        CalleeCoherent(P, M, M', w, op.target);
        assert op.target != w;
      }
    }
  }

  lemma ReturnsExtend(P: Program, M: Summaries, M': Summaries, w: nat, p: nat, c: int)
    requires Extends(M, M') && ReturnsAt(P, M, w, p, c)
    ensures ReturnsAt(P, M', w, p, c)
  {
    ReachedExtends(P, M, M', P.Code(w), p, c);
  }

  lemma AcceptedExits(P: Program, M: Summaries, M': Summaries, w: nat)
    requires Extends(M, M') && Coherent(P, M') && w in M' && P.IsInterpreted(w)
    ensures OneExit(P, M, w)
  {
    hide Coherent, ReturnsAt;
    forall p: nat, q: nat, c, d | ReturnsAt(P, M, w, p, c) && ReturnsAt(P, M, w, q, d)
      ensures c == d
    {
      ReturnsExtend(P, M, M', w, p, c);
      ReturnsExtend(P, M, M', w, q, d);
      ReturnPromised(P, M', w, p, c);
      ReturnPromised(P, M', w, q, d);
    }
  }

  lemma AcceptedCovered(P: Program, M: Summaries, M': Summaries, w: nat)
    requires Extends(M, M') && Coherent(P, M') && w in M' && P.IsInterpreted(w)
    ensures DeclaredCovers(P, M, w)
  {
    hide Coherent, Reached, ReturnsAt, DepthUnder, Lowest;
    var code := P.Code(w);
    EffectFacts(P, M', w);
    forall p: nat, c | p < |code| && Reached(P, M, code, p, c) && Ready(P, M, code[p])
      ensures -M'[w].effect.din <= DepthUnder(P, M, code[p], c)
    {
      ReachedExtends(P, M, M', code, p, c);
      var sa, x := AtReached(P, M', w, p, c);
      LowCovered(P, M', w, sa, x);
      LowestIsUnder(P, M, code[p], c);
      ReadyExtends(P, M, M', code[p]);
    }
    forall p: nat, c | ReturnsAt(P, M, w, p, c)
      ensures !M'[w].effect.NoExit() && c == M'[w].effect.dout - M'[w].effect.din
    {
      ReturnsExtend(P, M, M', w, p, c);
      ReturnPromised(P, M', w, p, c);
    }
  }

  // ----- a sane word can be accepted -----

  /** The depth with which control comes to each offset. */
  ghost function Depths(P: Program, M: Summaries, code: seq<Opcode>): (sa: Annotation)
    ensures |sa| == |code|
  {
    seq(|code|, p requires 0 <= p < |code| =>
      if exists c :: Reached(P, M, code, p, c) then (var c :| Reached(P, M, code, p, c); Some(c)) else None)
  }

  lemma DepthsAre(P: Program, M: Summaries, code: seq<Opcode>)
    requires OneDepth(P, M, code)
    ensures forall p: nat {:trigger Live(Depths(P, M, code), p)} :: Live(Depths(P, M, code), p) ==>
              Reached(P, M, code, p, Depths(P, M, code)[p].value)
    ensures forall q, c :: Reached(P, M, code, q, c) ==> Marked(Depths(P, M, code), q, c)
  {
    hide Reached;
  }

  lemma DepthsConsistent(P: Program, M: Summaries, code: seq<Opcode>)
    requires OneDepth(P, M, code) && CallsReady(P, M, code)
    ensures Consistent(P, M, code, Depths(P, M, code)) && LiveIsReached(P, M, code, Depths(P, M, code))
  {
    hide Reached, Depths, OneDepth;
    var sa := Depths(P, M, code);
    DepthsAre(P, M, code);
    ReachedStart(P, M, code);
    forall p: nat | Live(sa, p)
      ensures Flows(P, M, code, sa, p)
    {
      var c := sa[p].value;
      assert Reached(P, M, code, p, c) && Ready(P, M, code[p]);
      if Continues(P, M, code[p]) { ReachedSucc(P, M, code, p, c, p + 1); }
      if code[p].JumpDisp() != 0 { ReachedSucc(P, M, code, p, c, p + 1 + code[p].JumpDisp()); }
    }
  }

  /** The extremes of the first n offsets. */
  ghost function Swept(P: Program, M: Summaries, code: seq<Opcode>, sa: Annotation, n: nat): Extremes
    requires |sa| == |code| && n <= |code|
    requires forall p: nat {:trigger Live(sa, p)} :: Live(sa, p) ==> Ready(P, M, code[p])
  {
    if n == 0 then Extremes(0, 0, 0, None)
    else
      var x := Swept(P, M, code, sa, n - 1);
      if Live(sa, n - 1) then Widen(P, M, code[n - 1], sa[n - 1].value, x) else x
  }

  ghost predicate Readied(P: Program, M: Summaries, code: seq<Opcode>, sa: Annotation) {
    && |sa| == |code| && Consistent(P, M, code, sa)
    && (forall p: nat {:trigger Live(sa, p)} :: Live(sa, p) ==> Ready(P, M, code[p]))
    && (forall p: nat, q: nat {:trigger Live(sa, p), Live(sa, q)} ::
          Live(sa, p) && Live(sa, q) && code[p].Ret? && code[q].Ret? ==> sa[p] == sa[q])
  }

  ghost function LiveBelow(sa: Annotation, n: nat): set<nat> { set p: nat | p < n && Live(sa, p) }

  lemma {:induction false} SweptWell(P: Program, M: Summaries, code: seq<Opcode>, sa: Annotation, n: nat)
    requires Readied(P, M, code, sa) && n <= |code|
    ensures Seen(P, M, code, sa, Swept(P, M, code, sa, n))
    ensures AllExplored(P, M, code, sa, Swept(P, M, code, sa, n), LiveBelow(sa, n))
  {
    hide Seen, AllExplored, Widen, Consistent;
    if n == 0 {
      NothingSeen(P, M, code, sa);
    } else {
      SweptWell(P, M, code, sa, n - 1);
      var x := Swept(P, M, code, sa, n - 1);
      if Live(sa, n - 1) {
        FlowsAt(P, M, code, sa, n - 1);
        ExitAgrees(P, M, code, sa, x, n - 1);
        SeenWiden(P, M, code, sa, x, n - 1);
        AllExploredWiden(P, M, code, sa, x, LiveBelow(sa, n - 1), n - 1);
        assert LiveBelow(sa, n) == LiveBelow(sa, n - 1) + {n - 1};
      } else {
        assert LiveBelow(sa, n) == LiveBelow(sa, n - 1);
      }
    }
  }

  lemma FlowsAt(P: Program, M: Summaries, code: seq<Opcode>, sa: Annotation, p: nat)
    requires Consistent(P, M, code, sa) && Live(sa, p)
    ensures |sa| == |code| && Flows(P, M, code, sa, p)
  {}

  lemma NothingSeen(P: Program, M: Summaries, code: seq<Opcode>, sa: Annotation)
    ensures Seen(P, M, code, sa, Extremes(0, 0, 0, None))
    ensures AllExplored(P, M, code, sa, Extremes(0, 0, 0, None), LiveBelow(sa, 0))
  {}

  lemma ExitAgrees(P: Program, M: Summaries, code: seq<Opcode>, sa: Annotation, x: Extremes, p: nat)
    requires Readied(P, M, code, sa) && Seen(P, M, code, sa, x) && Live(sa, p)
    ensures code[p].Ret? ==> x.exit.None? || x.exit == sa[p]
  {
    hide Consistent;
  }

  lemma SaneReadied(P: Program, M: Summaries, w: nat)
    requires Sane(P, M, w)
    ensures Readied(P, M, P.Code(w), Depths(P, M, P.Code(w)))
    ensures LiveIsReached(P, M, P.Code(w), Depths(P, M, P.Code(w)))
  {
    hide Reached, Depths, OneDepth, Consistent, DeclaredCovers;
    var code, sa := P.Code(w), Depths(P, M, P.Code(w));
    DepthsConsistent(P, M, code);
    forall p: nat | Live(sa, p)
      ensures Ready(P, M, code[p]) && (code[p].Ret? ==> ReturnsAt(P, M, w, p, sa[p].value))
    {
      assert Reached(P, M, code, p, sa[p].value);
    }
  }

  lemma CoveredDepths(P: Program, M: Summaries, code: seq<Opcode>, sa: Annotation)
    requires Consistent(P, M, code, sa) && LiveIsReached(P, M, code, sa)
    ensures Covered(P, M, code, sa, LiveBelow(sa, |code|), {})
  {
    hide Reached;
  }

  /** The declared effect covers the extremes. */
  lemma EffectCovered(P: Program, M: Summaries, w: nat, sa: Annotation, x: Extremes)
    requires P.IsInterpreted(w) && DeclaredCovers(P, M, w) && |sa| == |P.Code(w)|
    requires LiveIsReached(P, M, P.Code(w), sa) && Seen(P, M, P.Code(w), sa, x)
    requires P.words[w].declared.IsKnown() && (x.exit.Some? ==> x.low <= x.exit.value)
    ensures Computed(x).IsSubOf(P.words[w].declared)
  {
    hide Reached, DepthUnder, Lowest;
    var code, e := P.Code(w), P.words[w].declared;
    if x.low != 0 {
      var p: nat :| Live(sa, p) && p < |code| && Ready(P, M, code[p]) && Lowest(P, M, code[p], sa[p].value) == x.low;
      LowestIsUnder(P, M, code[p], sa[p].value);
    }
    if x.exit.Some? {
      var p: nat :| Live(sa, p) && p < |code| && code[p].Ret? && sa[p] == x.exit;
      assert ReturnsAt(P, M, w, p, sa[p].value);
    }
  }

  lemma ExitAboveLow(P: Program, M: Summaries, code: seq<Opcode>, sa: Annotation, x: Extremes)
    requires |sa| == |code| && Seen(P, M, code, sa, x)
    requires forall p: nat {:trigger Live(sa, p)} :: Live(sa, p) ==>
             Ready(P, M, code[p]) && Bounds(P, M, code, sa, x, p)
    ensures x.exit.Some? ==> x.low <= x.exit.value
  {
    if x.exit.Some? {
      var p: nat :| Live(sa, p) && p < |code| && code[p].Ret? && sa[p] == x.exit;
      assert Lowest(P, M, code[p], sa[p].value) == sa[p].value;
    }
  }

  lemma SaneDescribed(P: Program, M: Summaries, w: nat) returns (sa: Annotation, x: Extremes, sum: Summary)
    requires Sane(P, M, w)
    ensures Describes(P, M, w, sa, x, sum)
  {
    hide Reached, Depths, OneDepth, CallsReady, OneExit, Consistent, DeclaredCovers, LiveIsReached, Seen, AllExplored,
         Covered, Swept, Computed, Bounds, Attains;
    var code := P.Code(w);
    sa := Depths(P, M, code);
    SaneReadied(P, M, w);
    x := Swept(P, M, code, sa, |code|);
    SweptWell(P, M, code, sa, |code|);
    CoveredDepths(P, M, code, sa);
    WorkDone(P, M, code, sa, x, LiveBelow(sa, |code|));
    ExitAboveLow(P, M, code, sa, x);
    var declared := P.words[w].declared;
    if declared.IsKnown() { EffectCovered(P, M, w, sa, x); }
    sum := Summary(if declared.IsKnown() then declared else Computed(x), x.high, 1 + P.words[w].numLocals + x.ret);
  }

  lemma SaneAccepted(P: Program, M: Summaries, w: nat)
    requires Coherent(P, M) && w !in M && Sane(P, M, w)
    ensures Joinable(P, M, w)
  {
    hide Describes, Sane;
    var sa, x, sum := SaneDescribed(P, M, w);
    var M' := M[w := sum];
    forall u | u in M'
      ensures Justified(P, M', u)
    {
      if u == w {
        DescribesExtends(P, M, M', w, sa, x, sum);
      } else {
        assert Justified(P, M, u);
        var sa', x' :| Describes(P, M, u, sa', x', M[u]);
        DescribesExtends(P, M, M', u, sa', x', M[u]);
      }
    }
    assert Extended(P, M, w, sum);
  }

  /** A word can be added to a coherent table if and only if control stays in its code with one depth
      at each offset and at all returns, every word it calls is finished with a known effect, and a
      declared effect covers what it does. */
  lemma AcceptedExactly(P: Program, M: Summaries, w: nat)
    requires Coherent(P, M) && w !in M
    ensures Joinable(P, M, w) <==> Sane(P, M, w)
  {
    hide Sane, Coherent;
    if sum :| Extended(P, M, w, sum) { AcceptedSane(P, M, w, sum); }
    if Sane(P, M, w) { SaneAccepted(P, M, w); }
  }
}
