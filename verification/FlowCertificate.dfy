// From the summaries AnalyseFlow leaves behind to the annotations the soundness proof uses.

module FlowCertificate {
  import opened Wrappers
  import opened StackEffect
  import opened Programs
  import opened FlowSpec
  import opened FlowSound
  import opened Arith

  ghost function DepthsOf(P: Program, M: Summaries, w: nat): (sa: Annotation)
    requires w in M && Justified(P, M, w)
    ensures exists x :: Describes(P, M, w, sa, x, M[w])
  {
    var sa :| exists x :: Describes(P, M, w, sa, x, M[w]);
    sa
  }

  ghost function AnnotationsOf(P: Program, M: Summaries): (A: Annotations)
    requires Coherent(P, M)
    ensures A.Keys == M.Keys
    ensures forall w :: w in M ==> exists x :: Describes(P, M, w, A[w], x, M[w])
  {
    map w | w in M :: DepthsOf(P, M, w)
  }

  lemma SummaryFacts(P: Program, M: Summaries, w: nat, sa: Annotation, x: Extremes, sum: Summary)
    requires Describes(P, M, w, sa, x, sum)
    ensures sum.effect.IsKnown() && -sum.effect.din <= x.low
    ensures 0 <= sum.maxData == x.high && sum.maxReturn == 1 + P.words[w].numLocals + x.ret && 0 <= x.ret
    ensures x.exit.Some? && x.low <= x.exit.value ==>
              !sum.effect.NoExit() && x.exit.value == sum.effect.dout - sum.effect.din
  {}

  lemma LiveIsChecked(P: Program, M: Summaries, A: Annotations, w: nat, p: nat, c: int, x: Extremes)
    requires w in M && w in A && Describes(P, M, w, A[w], x, M[w])
    requires AtDepth(A, w, p, c)
    ensures Checked(P, M, A, w, p, c)
  {
    var sa := A[w];
    assert Live(sa, p);
    assert Flows(P, M, P.Code(w), sa, p);
    assert Bounds(P, M, P.Code(w), sa, x, p);
    SummaryFacts(P, M, w, sa, x, M[w]);
    if P.Code(w)[p].Ret? {
      assert Lowest(P, M, P.Code(w)[p], c) == c;
    }
  }

  /** Justified summaries certify every word they cover. */
  lemma CoherentCertified(P: Program, M: Summaries)
    requires Coherent(P, M)
    ensures Certified(P, M, AnnotationsOf(P, M))
  {
    var A := AnnotationsOf(P, M);
    forall w | w in M
      ensures P.IsInterpreted(w) && M[w].effect.IsKnown() && AtDepth(A, w, 0, 0)
      ensures 0 <= M[w].maxData && 1 + P.words[w].numLocals <= M[w].maxReturn
    {
      var x :| Describes(P, M, w, A[w], x, M[w]);
      SummaryFacts(P, M, w, A[w], x, M[w]);
    }
    forall w, p: nat, c | AtDepth(A, w, p, c)
      ensures Checked(P, M, A, w, p, c)
    {
      var x :| Describes(P, M, w, A[w], x, M[w]);
      LiveIsChecked(P, M, A, w, p, c, x);
    }
  }
}
