// The result of the flow analysis of a word is unique: it depends on the program only, not on
// the order of analysis nor on what else was analysed.

module FlowUnique {
  import opened Wrappers
  import opened StackEffect
  import opened Programs
  import opened FlowSpec
  import opened FlowPaths
  import opened Arith

  /** The two tables say the same of an opcode. */
  predicate OpAgrees(P: Program, M: Summaries, M': Summaries, op: Opcode) {
    && Ready(P, M, op) && Ready(P, M', op)
    && (op.Call? ==>
          && EffectOf(P, M, op.target) == EffectOf(P, M', op.target)
          && MaxDataOf(P, M, op.target) == MaxDataOf(P, M', op.target)
          && MaxReturnOf(P, M, op.target) == MaxReturnOf(P, M', op.target))
  }

  lemma SameOp(P: Program, M: Summaries, M': Summaries, op: Opcode)
    requires OpAgrees(P, M, M', op)
    ensures Action(P, M, op) == Action(P, M', op) && (Continues(P, M, op) <==> Continues(P, M', op))
    ensures forall c :: Lowest(P, M, op, c) == Lowest(P, M', op, c) && Highest(P, M, op, c) == Highest(P, M', op, c)
    ensures ReturnUse(P, M, op) == ReturnUse(P, M', op)
  {}

  /** Opcodes live in both annotations of a word mean the same. */
  ghost predicate BothAgree(P: Program, M: Summaries, M': Summaries, code: seq<Opcode>, sa: Annotation,
                            sa': Annotation) {
    forall p: nat {:trigger Live(sa, p), Live(sa', p)} :: Live(sa, p) && Live(sa', p) && p < |code| ==>
        OpAgrees(P, M, M', code[p])
  }

  /** A path of one table is a path of the other. */
  lemma {:induction false} WalkTransfers(P: Program, M: Summaries, M': Summaries, code: seq<Opcode>, sa: Annotation,
                                         sa': Annotation, path: seq<int>, c: int)
    requires Consistent(P, M, code, sa) && Consistent(P, M', code, sa') && BothAgree(P, M, M', code, sa, sa')
    requires Walk(P, M, code, path, c)
    ensures Walk(P, M', code, path, c)
    decreases |path|
  {
    hide Consistent;
    var last := |path| - 1;
    if last > 0 {
      var p := path[last - 1];
      var c0 := c - Action(P, M, code[p]);
      WalkTransfers(P, M, M', code, sa, sa', path[..last], c0);
      WalkMarked(P, M, code, sa, path[..last], c0);
      WalkMarked(P, M', code, sa', path[..last], c0);
      assert Live(sa, p) && Live(sa', p);
      SameOp(P, M, M', code[p]);
    }
  }

  lemma LiveTransfers(P: Program, M: Summaries, M': Summaries, code: seq<Opcode>, sa: Annotation, sa': Annotation,
                      p: nat)
    requires Consistent(P, M, code, sa) && Consistent(P, M', code, sa') && BothAgree(P, M, M', code, sa, sa')
    requires LiveIsReached(P, M, code, sa) && Live(sa, p)
    ensures p < |sa'| && sa'[p] == sa[p]
  {
    hide Consistent, BothAgree;
    var path :| Walk(P, M, code, path, sa[p].value) && path[|path| - 1] == p;
    WalkTransfers(P, M, M', code, sa, sa', path, sa[p].value);
    WalkMarked(P, M', code, sa', path, sa[p].value);
  }

  lemma BothAgreeBack(P: Program, M: Summaries, M': Summaries, code: seq<Opcode>, sa: Annotation, sa': Annotation)
    requires BothAgree(P, M, M', code, sa, sa')
    ensures BothAgree(P, M', M, code, sa', sa)
  {}

  lemma SameDepths(P: Program, M: Summaries, M': Summaries, code: seq<Opcode>, sa: Annotation, sa': Annotation)
    requires Consistent(P, M, code, sa) && Consistent(P, M', code, sa') && BothAgree(P, M, M', code, sa, sa')
    requires LiveIsReached(P, M, code, sa) && LiveIsReached(P, M', code, sa')
    ensures sa == sa'
  {
    hide BothAgree, LiveIsReached;
    BothAgreeBack(P, M, M', code, sa, sa');
    forall p: nat | p < |sa|
      ensures sa[p] == sa'[p]
    {
      if Live(sa, p) { LiveTransfers(P, M, M', code, sa, sa', p); }
      if Live(sa', p) { LiveTransfers(P, M', M, code, sa', sa, p); }
    }
  }

  /** One set of extremes is within any other that bounds the same opcodes. */
  lemma ExtremesWithin(P: Program, M: Summaries, M': Summaries, code: seq<Opcode>, sa: Annotation, x: Extremes,
                       x': Extremes)
    requires |sa| == |code| && Attains(P, M, code, sa, x) && x'.low <= 0 <= x'.high && 0 <= x'.ret
    requires forall p: nat {:trigger Live(sa, p)} :: Live(sa, p) ==>
               OpAgrees(P, M, M', code[p]) && Bounds(P, M, code, sa, x, p) && Bounds(P, M', code, sa, x', p)
    ensures x'.low <= x.low && x.high <= x'.high && x.ret <= x'.ret
    ensures x.exit.Some? ==> x'.exit == x.exit
  {
    hide Lowest, Highest, ReturnUse, Ready, OpAgrees;
    forall p: nat | Live(sa, p)
      ensures Ready(P, M, code[p]) && Ready(P, M', code[p])
      ensures Lowest(P, M, code[p], sa[p].value) == Lowest(P, M', code[p], sa[p].value)
      ensures Highest(P, M, code[p], sa[p].value) == Highest(P, M', code[p], sa[p].value)
      ensures ReturnUse(P, M, code[p]) == ReturnUse(P, M', code[p])
    {
      AgreesReady(P, M, M', code[p]);
      SameOp(P, M, M', code[p]);
    }
  }

  lemma AgreesReady(P: Program, M: Summaries, M': Summaries, op: Opcode)
    requires OpAgrees(P, M, M', op)
    ensures Ready(P, M, op) && Ready(P, M', op)
  {}

  /** Tables that agree on the callees of w describe w alike. */
  lemma SameSummary(P: Program, M: Summaries, M': Summaries, w: nat, sa: Annotation, x: Extremes, sa': Annotation,
                    x': Extremes)
    requires w in M && w in M' && Describes(P, M, w, sa, x, M[w]) && Describes(P, M', w, sa', x', M'[w])
    requires BothAgree(P, M, M', P.Code(w), sa, sa')
    ensures M[w] == M'[w]
  {
    hide Consistent, LiveIsReached, Bounds, Attains, BothAgree, OpAgrees;
    var code := P.Code(w);
    SameDepths(P, M, M', code, sa, sa');
    LengthHolds(P, M, code, sa);
    LiveAgree(P, M, M', code, sa);
    ExtremesWithin(P, M, M', code, sa, x, x');
    ExtremesWithin(P, M', M, code, sa, x', x);
    assert x == x';
  }

  lemma LengthHolds(P: Program, M: Summaries, code: seq<Opcode>, sa: Annotation)
    requires Consistent(P, M, code, sa)
    ensures |sa| == |code|
  {}

  lemma LiveAgree(P: Program, M: Summaries, M': Summaries, code: seq<Opcode>, sa: Annotation)
    requires |sa| == |code| && BothAgree(P, M, M', code, sa, sa)
    ensures forall p: nat {:trigger Live(sa, p)} :: Live(sa, p) ==>
                  OpAgrees(P, M, M', code[p]) && OpAgrees(P, M', M, code[p])
  {}

  /** Two coherent tables agree on every word they share. */
  lemma {:induction false} SummaryUnique(P: Program, M: Summaries, M': Summaries, w: nat)
    requires Coherent(P, M) && Coherent(P, M') && w in M && w in M'
    ensures M[w] == M'[w]
    decreases M[w].maxReturn
  {
    hide Describes, Coherent;
    var sa, x := Description(P, M, w);
    var sa', x' := Description(P, M', w);
    DescribesCalls(P, M, w, sa, x);
    DescribesCalls(P, M', w, sa', x');
    var code := P.Code(w);
    forall p: nat | Live(sa, p) && Live(sa', p) && p < |code|
      ensures OpAgrees(P, M, M', code[p])
    {
      if code[p].Call? && P.IsInterpreted(code[p].target) {
        SummaryUnique(P, M, M', code[p].target);
      }
    }
    SameSummary(P, M, M', w, sa, x, sa', x');
  }

  lemma Description(P: Program, M: Summaries, w: nat) returns (sa: Annotation, x: Extremes)
    requires Coherent(P, M) && w in M
    ensures P.IsInterpreted(w) && Describes(P, M, w, sa, x, M[w])
  {
    assert Justified(P, M, w);
    sa, x :| Describes(P, M, w, sa, x, M[w]);
  }

  /** Live calls of w are of analysed words with a smaller return-stack need. */
  lemma DescribesCalls(P: Program, M: Summaries, w: nat, sa: Annotation, x: Extremes)
    requires w in M && P.IsInterpreted(w) && Describes(P, M, w, sa, x, M[w])
    ensures M[w].maxReturn >= 1
    ensures forall p: nat {:trigger Live(sa, p)} :: Live(sa, p) && p < |P.Code(w)| ==>
              && Ready(P, M, P.Code(w)[p])
              && (P.Code(w)[p].Call? && P.IsInterpreted(P.Code(w)[p].target) ==>
                    P.Code(w)[p].target in M && M[P.Code(w)[p].target].maxReturn < M[w].maxReturn)
  {
    hide Attains, LiveIsReached;
    forall p: nat | Live(sa, p) && p < |P.Code(w)|
      ensures Ready(P, M, P.Code(w)[p])
      ensures P.Code(w)[p].Call? && P.IsInterpreted(P.Code(w)[p].target) ==>
                P.Code(w)[p].target in M && M[P.Code(w)[p].target].maxReturn < M[w].maxReturn
    {
      assert Flows(P, M, P.Code(w), sa, p);
      assert Bounds(P, M, P.Code(w), sa, x, p);
    }
  }

  // ----- joining tables -----

  function Union(M: Summaries, M': Summaries): Summaries { M + M' }

  /** Coherent tables can be joined. */
  lemma CoherentUnion(P: Program, M: Summaries, M': Summaries)
    requires Coherent(P, M) && Coherent(P, M')
    ensures Extends(M, Union(M, M')) && Extends(M', Union(M, M')) && Coherent(P, Union(M, M'))
  {
    hide Describes;
    var U := Union(M, M');
    forall w | w in M && w in M'
      ensures M[w] == M'[w]
    {
      SummaryUnique(P, M, M', w);
    }
    forall w | w in U
      ensures Justified(P, U, w)
    {
      if w in M' { JustifiedExtends(P, M', U, w); } else { JustifiedExtends(P, M, U, w); }
    }
  }

  lemma JustifiedExtends(P: Program, M: Summaries, U: Summaries, w: nat)
    requires Coherent(P, M) && w in M && Extends(M, U)
    ensures w in U && Justified(P, U, w)
  {
    hide Describes;
    assert Justified(P, M, w);
    var sa, x :| Describes(P, M, w, sa, x, M[w]);
    DescribesExtends(P, M, U, w, sa, x, M[w]);
  }

  /** A word that cannot join a coherent table is in none. */
  lemma HopelessNowhere(P: Program, M: Summaries, M': Summaries, w: nat)
    requires Coherent(P, M) && Hopeless(P, M, w) && Coherent(P, M')
    ensures w !in M'
  {
    hide Coherent;
    CoherentUnion(P, M, M');
    assert w !in Union(M, M');
  }
}
