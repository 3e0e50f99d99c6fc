// The whole of T0Comp.Generate after the words are gathered, and what the emitted code does.

module Compiler {
  import opened Wrappers
  import opened Arith
  import opened StackEffect
  import opened Programs
  import opened OpMachine
  import opened ClosedRuns
  import opened FlowSpec
  import opened FlowPaths
  import opened FlowQueue
  import opened FlowUnique
  import opened FlowSound
  import opened FlowCertificate
  import opened FlowAnalysis
  import opened Layout
  import opened Linking
  import opened ByteMachine
  import opened Simulation
  import opened Correctness
  import opened Relaxation
  import opened Slots
  import opened Generation
  import opened Discipline

  /** An entry point that passed the analysis with bounds inside the limits. */
  predicate Approved(P: Program, M: Summaries, e: nat, dsLimit: int, rsLimit: int) {
    Analysed(P, M, e) && MaxDataOf(P, M, e) <= dsLimit && MaxReturnOf(P, M, e) <= rsLimit
  }

  /** Some consistent set of summaries approves the entry point. By FlowUnique.SummaryUnique they
      all say the same of it. */
  ghost predicate Acceptable(P: Program, e: nat, dsLimit: int, rsLimit: int) {
    exists M :: Coherent(P, M) && Approved(P, M, e, dsLimit, rsLimit)
  }

  /** In some word the chains of jumps may overflow the queue of the analysis. */
  ghost predicate Crowded(P: Program) { exists u :: P.IsInterpreted(u) && !Roomy(P.Code(u)) }

  lemma HopelessUnacceptable(P: Program, M: Summaries, e: nat, dsLimit: int, rsLimit: int)
    requires Coherent(P, M) && P.IsInterpreted(e) && Hopeless(P, M, e)
    ensures !Acceptable(P, e, dsLimit, rsLimit)
  {
    hide Coherent, Hopeless;
    forall M' | Coherent(P, M')
      ensures !Approved(P, M', e, dsLimit, rsLimit)
    {
      HopelessNowhere(P, M, M', e);
    }
  }

  lemma OverLimitUnacceptable(P: Program, M: Summaries, e: nat, dsLimit: int, rsLimit: int)
    requires Coherent(P, M) && Analysed(P, M, e)
    requires MaxDataOf(P, M, e) > dsLimit || MaxReturnOf(P, M, e) > rsLimit
    ensures !Acceptable(P, e, dsLimit, rsLimit)
  {
    hide Coherent;
    forall M' | Coherent(P, M')
      ensures !Approved(P, M', e, dsLimit, rsLimit)
    {
      if P.words[e].Interpreted? && e in M' { SummaryUnique(P, M, M', e); }
    }
  }

  lemma ApprovedStays(P: Program, M: Summaries, M': Summaries, e: nat, dsLimit: int, rsLimit: int)
    requires Extends(M, M') && Approved(P, M, e, dsLimit, rsLimit)
    ensures Approved(P, M', e, dsLimit, rsLimit)
  {}

  lemma OneOnTheStack(P: Program, M: Summaries, w: nat)
    ensures CallStack(P, M, [] + [w])
  {}

  lemma GoodFacts(P: Program, status: map<nat, Status>, active: seq<nat>)
    requires Good(P, status, active)
    ensures Coherent(P, Finished(status)) && Drained(P, Finished(status))
  {}

  /** The flow-analysis step: every entry point is analysed and held against the limits. Where
      the chains of jumps of each word fit in the queue it succeeds exactly when every entry point
      is acceptable. */
  method CheckEntryPoints(P: Program, entries: seq<nat>, dsLimit: int, rsLimit: int)
    returns (ok: bool, ghost M: Summaries)
    requires forall i {:trigger entries[i]} :: 0 <= i < |entries| ==> P.IsWord(entries[i])
    ensures ok ==> forall i {:trigger entries[i]} :: 0 <= i < |entries| ==> Acceptable(P, entries[i], dsLimit, rsLimit)
    ensures !ok && !Crowded(P) ==>
              exists i {:trigger entries[i]} :: 0 <= i < |entries| && !Acceptable(P, entries[i], dsLimit, rsLimit)
    ensures ok ==> Coherent(P, M) && Drained(P, M)
    ensures ok ==> forall i {:trigger entries[i]} :: 0 <= i < |entries| ==> Approved(P, M, entries[i], dsLimit, rsLimit)
  {
    hide Coherent, Good, Hopeless, Drained, Roomy;
    var a := new Analyser(P);
    for i := 0 to |entries|
      invariant fresh(a) && a.P == P && a.Valid() && a.active == []
      invariant forall k {:trigger entries[k]} :: 0 <= k < i ==>
          Approved(P, Finished(a.status), entries[k], dsLimit, rsLimit)
    {
      var w := entries[i];
      ghost var before := Finished(a.status);
      OneOnTheStack(P, before, w);
      var v := a.AnalyseFlow(w);
      ghost var now := Finished(a.status);
      if v.Rejected? {
        if v.reason != WorklistFull { HopelessUnacceptable(P, now, w, dsLimit, rsLimit); }
        assert Crowded(P) || !Acceptable(P, entries[i], dsLimit, rsLimit);
        return false, now;
      }
      if MaxDataOf(P, Finished(a.status), w) > dsLimit || MaxReturnOf(P, Finished(a.status), w) > rsLimit {
        OverLimitUnacceptable(P, now, w, dsLimit, rsLimit);
        assert !Acceptable(P, entries[i], dsLimit, rsLimit);
        return false, now;
      }
      forall k | 0 <= k < i
        ensures Approved(P, now, entries[k], dsLimit, rsLimit)
      {
        ApprovedStays(P, before, now, entries[k], dsLimit, rsLimit);
      }
    }
    GoodFacts(P, a.status, []);
    return true, Finished(a.status);
  }

  /** What WordBuilder.Build guarantees of every interpreted word. */
  ghost predicate Built(P: Program) {
    forall w: nat {:trigger P.words[w]} :: P.IsInterpreted(w) ==>
      ClosedCode(P.words[w].code) && LocalsBelow(P.words[w].code, P.words[w].numLocals)
  }

  lemma BuiltFacts(P: Program)
    requires Built(P)
    ensures ClosedJumps(P) && WellScoped(P)
  {
    forall w: nat, p: nat {:trigger P.Code(w)[p]} | P.IsInterpreted(w) && p < |P.Code(w)|
      ensures P.Code(w)[p].IsJump() ==> 0 <= p + 1 + P.Code(w)[p].disp < |P.Code(w)|
      ensures P.Code(w)[p].GetLocal? || P.Code(w)[p].PutLocal? ==> P.Code(w)[p].num < P.words[w].numLocals
    {
      assert ClosedCode(P.words[w].code) && LocalsBelow(P.words[w].code, P.words[w].numLocals);
      assert P.Code(w)[p] == P.words[w].code[p];
    }
  }

  /** From the gathered words to the tables of the C program. It succeeds on acceptable entry
      points without C code, when the natives and only they have C code and the numbers of locals
      are bytes, unless a word has too long chains of jumps. */
  method Compile(P: Program, ccode: Texts, blocks: seq<seq<Byte>>, entries: seq<nat>, dsLimit: int, rsLimit: int)
    returns (ok: bool, img: Image, ghost B: Build, ghost M: Summaries)
    requires |ccode| == |P.words| < 0x3000_0000 && 10 * ElemTotal(P, |P.words|) < 0x8000_0000
    requires forall w: nat {:trigger P.words[w]} :: w < |ccode| && ccode[w].Some? ==> P.words[w].Native?
    requires Built(P) && forall i {:trigger entries[i]} :: 0 <= i < |entries| ==> P.IsWord(entries[i])
    ensures ok ==> Slots.Covers(P, ccode)
    ensures ok ==> forall i {:trigger entries[i]} :: 0 <= i < |entries| ==>
                     Acceptable(P, entries[i], dsLimit, rsLimit) && !P.words[entries[i]].Native?
    ensures !ok ==> !Slots.Covers(P, ccode) || !LocalsAreBytes(P) || Crowded(P)
                    || exists i {:trigger entries[i]} :: 0 <= i < |entries|
                         && (!Acceptable(P, entries[i], dsLimit, rsLimit) || P.words[entries[i]].Native?)
    ensures ok ==> Coherent(P, M) && forall i {:trigger entries[i]} :: 0 <= i < |entries| ==>
                     Approved(P, M, entries[i], dsLimit, rsLimit)
    ensures ok ==> B.P == P && img == B.Img() && B.L.blocks == Addresses(blocks) && Least(B.Elems(), B.one, B.lens)
    ensures ok ==> Linked(P, ccode, blocks, B.L.slots, B.L.base, B.L.blocks)
    ensures ok ==> (Coded(B) <==> LocalsFit(P, B.one)) && (WellBuilt(B) <==> Coded(B) && AddressesFit(B))
  {
    hide Linked, Coherent, Drained, Built, WellBuilt, Coded, AddressesFit, Least, ClosedJumps, WellScoped, Gcode,
         LocalsAreBytes, Slots.Covers,
        Addresses,
         LocalsFit, Acceptable, Crowded;
    BuiltFacts(P);
    img := Image([], [], 0, false);
    B := Build(P, Link([], 0, []), false, [], []);
    ok, M := CheckEntryPoints(P, entries, dsLimit, rsLimit);
    if !ok {
      return;
    }
    for i := 0 to |entries|
      invariant forall k {:trigger entries[k]} :: 0 <= k < i ==> ccode[entries[k]].None?
    {
      if ccode[entries[i]].Some? {
        assert P.words[entries[i]].Native?;
        return false, img, B, M;
      }
    }
    ok, img, B := Generate(P, ccode, blocks);
    if ok { NoneIsNative(P, ccode, entries); }
  }

  lemma NoneIsNative(P: Program, ccode: Texts, entries: seq<nat>)
    requires Slots.Covers(P, ccode)
    requires forall k {:trigger entries[k]} :: 0 <= k < |entries| ==> entries[k] < |ccode| && ccode[entries[k]].None?
    ensures forall k {:trigger entries[k]} :: 0 <= k < |entries| ==>
            entries[k] < |P.words| && !P.words[entries[k]].Native?
  {}

  lemma ReadyToLaunch(B: Build, M: Summaries, env: Entry, rmem0: seq<Word32>, rp0: nat, dsLimit: int, rsLimit: int)
    requires WellBuilt(B) && Coherent(B.P, M) && NativesConform(B.P)
    requires B.P.IsInterpreted(env.word) && Approved(B.P, M, env.word, dsLimit, rsLimit)
    requires M[env.word].effect.din <= |env.stack| && rp0 + rsLimit + 1 <= |rmem0|
    ensures Launchable(B, M, AnnotationsOf(B.P, M), env, rmem0, rp0)
  {
    hide *;
    CoherentCertified(B.P, M);
    ScopedWhenBuilt(B);
    LaunchParts(B, M, AnnotationsOf(B.P, M), env, rmem0, rp0, dsLimit, rsLimit);
  }

  lemma ScopedWhenBuilt(B: Build)
    requires WellBuilt(B)
    ensures WellScoped(B.P)
  {
    hide WellFormed, SelfConsistent, OneByteFits, Sum, SlotsLinked, ClosedJumps, LocalsFit, WellScoped, AddressesFit;
  }

  lemma LaunchParts(B: Build, M: Summaries, A: Annotations, env: Entry, rmem0: seq<Word32>, rp0: nat, dsLimit: int,
                    rsLimit: int)
    requires WellBuilt(B) && NativesConform(B.P) && WellScoped(B.P) && Certified(B.P, M, A)
    requires B.P.IsInterpreted(env.word) && Approved(B.P, M, env.word, dsLimit, rsLimit)
    requires M[env.word].effect.din <= |env.stack| && rp0 + rsLimit + 1 <= |rmem0|
    ensures Launchable(B, M, A, env, rmem0, rp0)
  {
    hide WellBuilt, NativesConform, WellScoped, Certified, FillsUp;
  }

  /** Compiler correctness for an approved entry point and any run that the byte machine can
      follow. With the natives as declared, the arguments on the data stack and rsLimit + 1 free
      cells on the return stack, the emitted code never crashes; whenever it has ended, the opcode
      machine has ended in the same way, and once the opcode machine has ended, so has the emitted
      code. */
  lemma FaithfulCodeCorrect(B: Build, C: Snippets, M: Summaries, env: Entry, rmem0: seq<Word32>, rp0: nat,
                            dsLimit: int, rsLimit: int, t: nat)
    requires WellBuilt(B) && Coherent(B.P, M) && NativesConform(B.P)
    requires B.P.IsInterpreted(env.word) && Approved(B.P, M, env.word, dsLimit, rsLimit)
    requires M[env.word].effect.din <= |env.stack| && rp0 + rsLimit + 1 <= |rmem0|
    requires AllFaithful(B, C, env, t)
    ensures EndedLike(B, Steps(B, env, t), Turns(B.Img(), C, Launch(B, env, rmem0, rp0), t), rmem0, rp0)
    ensures !Steps(B, env, t).Running? ==>
              var m := Turns(B.Img(), C, Launch(B, env, rmem0, rp0), Time(B, env, t));
              !m.Active? && EndedLike(B, Steps(B, env, t), m, rmem0, rp0)
  {
    hide *;
    ReadyToLaunch(B, M, env, rmem0, rp0, dsLimit, rsLimit);
    LaunchableFits(B, M, AnnotationsOf(B.P, M), env, rmem0, rp0, t);
    CompilerCorrect(B, C, M, AnnotationsOf(B.P, M), env, rmem0, rp0, t);
  }

  /** Compiler correctness for disciplined programs: every run of an approved entry point, from
      arguments that the program may work with, is the run of the emitted code. */
  lemma CompiledCodeCorrect(B: Build, C: Snippets, M: Summaries, blocks: seq<seq<Byte>>, dom: Domain, D: Written,
                            env: Entry, rmem0: seq<Word32>, rp0: nat, dsLimit: int, rsLimit: int, t: nat)
    requires WellBuilt(B) && Coherent(B.P, M) && NativesConform(B.P)
    requires B.P.IsInterpreted(env.word) && Approved(B.P, M, env.word, dsLimit, rsLimit)
    requires M[env.word].effect.din <= |env.stack| && rp0 + rsLimit + 1 <= |rmem0|
    requires B.L.blocks == Addresses(blocks) && |DataBytes(blocks, |blocks|)| < 0x8000_0000
    requires Disciplined(B.P, blocks, dom, D) && SnippetsFollow(B, C, dom) && AllIn(dom, env.stack)
    ensures EndedLike(B, Steps(B, env, t), Turns(B.Img(), C, Launch(B, env, rmem0, rp0), t), rmem0, rp0)
    ensures !Steps(B, env, t).Running? ==>
              var m := Turns(B.Img(), C, Launch(B, env, rmem0, rp0), Time(B, env, t));
              !m.Active? && EndedLike(B, Steps(B, env, t), m, rmem0, rp0)
  {
    hide *;
    SlotsOfBuilt(B);
    DisciplinedRuns(B, C, blocks, dom, D, env, t);
    FaithfulCodeCorrect(B, C, M, env, rmem0, rp0, dsLimit, rsLimit, t);
  }

  lemma SlotsOfBuilt(B: Build)
    requires WellBuilt(B)
    ensures SlotsLinked(B) && Coded(B) && forall w: nat {:trigger HeaderFits(B, w)} :: HeaderFits(B, w)
  {
    hide WellFormed, SelfConsistent, OneByteFits, Sum, SlotsLinked, ClosedJumps, LocalsFit, WellScoped, HeaderFits,
         CallFits;
  }
}
