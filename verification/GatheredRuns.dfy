// The gathered words are those that runs come to: what a reference is in terms of the code, and no
// run from the entry points leaves the gathered set.

module GatheredRuns {
  import opened Wrappers
  import opened Programs
  import opened OpMachine
  import opened Reachability

  /** The code of u calls v or pushes its execution token. */
  ghost predicate Mentions(P: Program, u: nat, v: nat) {
    P.IsInterpreted(u) && exists p: nat :: p < |P.Code(u)| && (P.Code(u)[p] == Call(v) || P.Code(u)[p] == Const(XT(v)))
  }

  lemma {:induction false} RefsAre(code: seq<Opcode>, v: nat)
    ensures v in RefsOf(code) <==> exists p: nat :: p < |code| && (code[p] == Call(v) || code[p] == Const(XT(v)))
  {
    if code != [] {
      RefsAre(code[1..], v);
      assert forall p: nat :: p + 1 < |code| ==> code[1..][p] == code[p + 1];
      if v in RefsOf(code[1..]) {
        var p: nat :| p < |code[1..]| && (code[1..][p] == Call(v) || code[1..][p] == Const(XT(v)));
        assert code[p + 1] == Call(v) || code[p + 1] == Const(XT(v));
      }
      if p: nat :| p < |code| && (code[p] == Call(v) || code[p] == Const(XT(v))) {
        if p > 0 { assert code[1..][p - 1] == code[p]; }
      }
    }
  }

  /** The references of a word are exactly the words its code mentions. */
  lemma ReferencesAre(P: Program, u: nat, v: nat)
    ensures v in References(P, u) <==> Mentions(P, u, v)
  {
    if P.IsInterpreted(u) { RefsAre(P.Code(u), v); }
  }

  /** A chain of words from an entry point, each mentioned by the one before. */
  ghost predicate MentionChain(P: Program, entries: seq<nat>, path: seq<nat>) {
    && |path| > 0 && path[0] in entries
    && forall i {:trigger path[i]} :: 0 < i < |path| ==> Mentions(P, path[i - 1], path[i])
  }

  /** A word is needed exactly when a chain of mentions leads to it. */
  lemma NeededIsMentioned(P: Program, entries: seq<nat>, w: nat)
    ensures Needed(P, entries, w) <==> exists path :: MentionChain(P, entries, path) && path[|path| - 1] == w
  {
    hide Mentions, References;
    if Needed(P, entries, w) {
      var path :| Leads(P, entries, path) && path[|path| - 1] == w;
      forall i | 0 < i < |path|
        ensures Mentions(P, path[i - 1], path[i])
      {
        ReferencesAre(P, path[i - 1], path[i]);
      }
      assert MentionChain(P, entries, path);
    }
    if path :| MentionChain(P, entries, path) && path[|path| - 1] == w {
      forall i | 0 < i < |path|
        ensures path[i] in References(P, path[i - 1])
      {
        ReferencesAre(P, path[i - 1], path[i]);
      }
      assert Leads(P, entries, path);
    }
  }

  // ----- runs -----

  /** The execution tokens among some values are of words in the set. */
  predicate TokensIn(words: set<nat>, s: seq<Value>) {
    forall i {:trigger s[i]} :: 0 <= i < |s| && s[i].XT? ==> s[i].word in words
  }

  predicate FrameIn(words: set<nat>, f: Frame) { f.saved.Some? ==> f.saved.value.word in words }

  /** Where the run is, where it goes back to and what it is about to call. */
  ghost predicate PlacesIn(P: Program, words: set<nat>, s: State) {
    s.Running? ==>
      && s.ip.word in words
      && (forall i {:trigger s.frames[i]} :: 0 <= i < |s.frames| ==> FrameIn(words, s.frames[i]))
      && (InCode(P, s.ip) && P.Code(s.ip.word)[s.ip.off].Call? ==> P.Code(s.ip.word)[s.ip.off].target in words)
  }

  /** The tokens on the stack and in locals. */
  ghost predicate ValuesIn(words: set<nat>, s: State) {
    s.Running? ==>
      && TokensIn(words, s.stack)
      && forall i {:trigger s.frames[i]} :: 0 <= i < |s.frames| ==> TokensIn(words, s.frames[i].locals)
  }

  /** Natives make tokens only of tokens. */
  ghost predicate NativesBringNone(P: Program, words: set<nat>) {
    forall w: nat, args {:trigger P.native(w, args)} ::
      P.IsWord(w) && P.words[w].Native? && TokensIn(words, args) ==> TokensIn(words, P.native(w, args))
  }

  /** With every word of the set, those that its code mentions. */
  ghost predicate Closed(P: Program, words: set<nat>) {
    forall u, v {:trigger Mentions(P, u, v)} :: u in words && Mentions(P, u, v) ==> v in words
  }

  lemma GatheredIsClosed(P: Program, entries: seq<nat>, words: set<nat>)
    requires ClosedUnder(P, entries, words)
    ensures Closed(P, words)
  {
    hide Mentions, References;
    forall u, v | u in words && Mentions(P, u, v)
      ensures v in words
    {
      ReferencesAre(P, u, v);
    }
  }

  lemma CallIn(P: Program, words: set<nat>, ip: Ip)
    requires Closed(P, words) && ip.word in words && InCode(P, ip)
    ensures P.Code(ip.word)[ip.off].Call? ==> P.Code(ip.word)[ip.off].target in words
    ensures P.Code(ip.word)[ip.off].Const? && P.Code(ip.word)[ip.off].val.XT? ==>
              P.Code(ip.word)[ip.off].val.word in words
  {
    var op := P.Code(ip.word)[ip.off];
    if op.Call? { assert Mentions(P, ip.word, op.target); }
    if op.Const? && op.val.XT? { assert Mentions(P, ip.word, op.val.word); }
  }

  /** Position and frames, before the call that comes next. */
  ghost predicate FramesIn(words: set<nat>, s: State) {
    s.Running? ==>
      && s.ip.word in words
      && forall i {:trigger s.frames[i]} :: 0 <= i < |s.frames| ==> FrameIn(words, s.frames[i])
  }

  lemma StepFramesIn(P: Program, words: set<nat>, s: State)
    requires Closed(P, words) && FramesIn(words, s)
    ensures FramesIn(words, Step(P, s))
  {
    hide Closed;
    if s.Running? && InCode(P, s.ip) { CallIn(P, words, s.ip); }
  }

  lemma StepValuesIn(P: Program, words: set<nat>, s: State)
    requires Closed(P, words) && NativesBringNone(P, words) && FramesIn(words, s) && ValuesIn(words, s)
    ensures ValuesIn(words, Step(P, s))
  {
    hide Closed, NativesBringNone, TokensIn;
    if s.Running? && InCode(P, s.ip) {
      CallIn(P, words, s.ip);
      var op := P.Code(s.ip.word)[s.ip.off];
      var depth := |s.stack|;
      Pieces(words, s.stack);
      match op {
        case Const(v) => PushIn(words, s.stack, v);
        case GetLocal(n) =>
          if |s.frames| > 0 && n < |s.frames[|s.frames| - 1].locals| {
            LocalIn(words, s.stack, s.frames[|s.frames| - 1].locals, n);
          }
        case PutLocal(n) =>
          if depth > 0 && |s.frames| > 0 && n < |s.frames[|s.frames| - 1].locals| {
            StoreIn(words, s.stack, s.frames[|s.frames| - 1].locals, n);
          }
        case Call(w) => WordIn(P, words, w, Ip(s.ip.word, s.ip.off + 1), s.stack, s.frames);
        case _ =>
      }
    }
  }

  lemma Pieces(words: set<nat>, s: seq<Value>)
    requires TokensIn(words, s)
    ensures forall k: nat {:trigger s[..k]} {:trigger s[k..]} :: k <= |s| ==>
              TokensIn(words, s[..k]) && TokensIn(words, s[k..])
  {}

  lemma PushIn(words: set<nat>, s: seq<Value>, v: Value)
    requires TokensIn(words, s) && (v.XT? ==> v.word in words)
    ensures TokensIn(words, s + [v])
  {}

  lemma LocalIn(words: set<nat>, s: seq<Value>, locals: seq<Value>, n: nat)
    requires TokensIn(words, s) && TokensIn(words, locals) && n < |locals|
    ensures TokensIn(words, s + [locals[n]])
  {}

  lemma StoreIn(words: set<nat>, s: seq<Value>, locals: seq<Value>, n: nat)
    requires TokensIn(words, s) && |s| > 0 && TokensIn(words, locals) && n < |locals|
    ensures TokensIn(words, locals[n := s[|s| - 1]])
  {}

  lemma WordIn(P: Program, words: set<nat>, w: nat, next: Ip, stack: seq<Value>, frames: seq<Frame>)
    requires NativesBringNone(P, words) && TokensIn(words, stack)
    requires forall i {:trigger frames[i]} :: 0 <= i < |frames| ==> TokensIn(words, frames[i].locals)
    ensures ValuesIn(words, RunWord(P, w, next, stack, frames))
  {
    hide TokensIn;
    Pieces(words, stack);
    if P.IsWord(w) {
      match P.words[w] {
        case Data(block, offset) => PushIn(words, stack, Blob(block, offset));
        case Interpreted(nl, _, _) => ZerosIn(words, nl);
        case Native(e) =>
          if e.IsKnown() && |stack| >= e.din {
            var floor := |stack| - e.din;
            Joined(words, stack[..floor], P.native(w, stack[floor..]));
          }
      }
    }
  }

  lemma ZerosIn(words: set<nat>, n: nat)
    ensures TokensIn(words, Zeros(n))
  {}

  lemma Joined(words: set<nat>, s: seq<Value>, t: seq<Value>)
    requires TokensIn(words, s) && TokensIn(words, t)
    ensures TokensIn(words, s + t)
  {}

  /** From an entry point with any arguments, a run is always inside gathered words: at the present
      opcode, in every open frame, and at the call it makes next. */
  lemma {:induction false} RunsInGathered(P: Program, entries: seq<nat>, words: set<nat>, w: nat, stack: seq<Value>,
                                          n: nat)
    requires ClosedUnder(P, entries, words) && w in entries && P.IsInterpreted(w)
    ensures PlacesIn(P, words, Run(P, Start(P, w, stack), n))
  {
    hide ClosedUnder, Closed, Step, Start, PlacesIn, FramesIn;
    GatheredIsClosed(P, entries, words);
    RunFramesIn(P, entries, words, w, stack, n);
    PlacesFollow(P, words, Run(P, Start(P, w, stack), n));
  }

  lemma PlacesFollow(P: Program, words: set<nat>, s: State)
    requires Closed(P, words) && FramesIn(words, s)
    ensures PlacesIn(P, words, s)
  {
    hide Closed;
    if s.Running? && InCode(P, s.ip) { CallIn(P, words, s.ip); }
  }

  lemma {:induction false} RunFramesIn(P: Program, entries: seq<nat>, words: set<nat>, w: nat, stack: seq<Value>,
                                       n: nat)
    requires ClosedUnder(P, entries, words) && w in entries && P.IsInterpreted(w)
    ensures FramesIn(words, Run(P, Start(P, w, stack), n))
  {
    hide Closed, Step;
    if n > 0 {
      GatheredIsClosed(P, entries, words);
      RunFramesIn(P, entries, words, w, stack, n - 1);
      StepFramesIn(P, words, Run(P, Start(P, w, stack), n - 1));
    }
  }

  /** If neither the arguments nor the natives bring in others, all tokens are of gathered words. */
  lemma {:induction false} TokensInGathered(P: Program, entries: seq<nat>, words: set<nat>, w: nat, stack: seq<Value>,
                                            n: nat)
    requires ClosedUnder(P, entries, words) && w in entries && P.IsInterpreted(w)
    requires TokensIn(words, stack) && NativesBringNone(P, words)
    ensures ValuesIn(words, Run(P, Start(P, w, stack), n))
  {
    hide ClosedUnder, Closed, Step, FramesIn, NativesBringNone, TokensIn;
    if n == 0 {
      ZerosIn(words, P.words[w].numLocals);
    } else {
      GatheredIsClosed(P, entries, words);
      RunFramesIn(P, entries, words, w, stack, n - 1);
      TokensInGathered(P, entries, words, w, stack, n - 1);
      StepValuesIn(P, words, Run(P, Start(P, w, stack), n - 1));
    }
  }
}
