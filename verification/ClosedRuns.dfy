// No run of words made by the builder leaves its code.

module ClosedRuns {
  import opened Wrappers
  import opened Programs
  import opened OpMachine

  ghost predicate ClosedProgram(P: Program) {
    forall w: nat {:trigger P.words[w]} :: P.IsInterpreted(w) ==> ClosedCode(P.words[w].code)
  }

  /** The instruction pointer and every saved one are at opcodes. */
  ghost predicate Inside(P: Program, s: State) {
    s.Running? ==>
      && InCode(P, s.ip)
      && forall i {:trigger s.frames[i]} :: 0 <= i < |s.frames| && s.frames[i].saved.Some? ==>
          InCode(P, s.frames[i].saved.value)
  }

  lemma NextInside(P: Program, ip: Ip)
    requires ClosedProgram(P) && InCode(P, ip)
    ensures P.Code(ip.word)[ip.off].MayFallThrough() ==> InCode(P, Ip(ip.word, ip.off + 1))
    ensures P.Code(ip.word)[ip.off].IsJump() ==> InCode(P, Ip(ip.word, ip.off + 1 + P.Code(ip.word)[ip.off].disp))
  {
    assert ClosedCode(P.words[ip.word].code);
    assert P.words[ip.word].code[ip.off] == P.Code(ip.word)[ip.off];
  }

  lemma WordInside(P: Program, w: nat)
    requires ClosedProgram(P) && P.IsInterpreted(w)
    ensures InCode(P, Ip(w, 0))
  {
    assert ClosedCode(P.words[w].code);
  }

  lemma StepInside(P: Program, s: State)
    requires ClosedProgram(P) && Inside(P, s)
    ensures Inside(P, Step(P, s))
  {
    if s.Running? {
      NextInside(P, s.ip);
      match P.Code(s.ip.word)[s.ip.off]
      case Call(w) =>
        if P.IsInterpreted(w) { WordInside(P, w); }
      case _ =>
    }
  }

  /** In a program of closed words, the instruction fetch never leaves a code array, whatever
      the data stack does. */
  lemma {:induction false} RunInside(P: Program, w: nat, stack: seq<Value>, n: nat)
    requires ClosedProgram(P) && P.IsInterpreted(w)
    ensures Inside(P, Run(P, Start(P, w, stack), n))
  {
    if n == 0 {
      WordInside(P, w);
    } else {
      RunInside(P, w, stack, n - 1);
      StepInside(P, Run(P, Start(P, w, stack), n - 1));
    }
  }
}
