// Soundness of the flow analysis over whole runs of the opcode machine.

module FlowSound {
  import opened Wrappers
  import opened StackEffect
  import opened Programs
  import opened OpMachine
  import opened FlowSpec
  import opened Arith

  /** A word entered from outside on a given data stack. */
  datatype Entry = Entry(word: nat, stack: seq<Value>)

  /** One annotation for each analysed word. */
  type Annotations = map<nat, Annotation>

  /** Offset p of word w is live and was given depth c. */
  predicate AtDepth(A: Annotations, w: nat, p: int, c: int) { w in A && Marked(A[w], p, c) }

  /** What the analysis guarantees of offset p of word w, executed at depth c. */
  predicate Checked(P: Program, M: Summaries, A: Annotations, w: nat, p: nat, c: int) {
    && P.IsInterpreted(w) && p < |P.Code(w)| && w in M
    && var op := P.Code(w)[p];
       var sum := M[w];
       && Ready(P, M, op)
       && (Continues(P, M, op) ==> AtDepth(A, w, p + 1, c + Action(P, M, op)))
       && (op.JumpDisp() != 0 ==> AtDepth(A, w, p + 1 + op.JumpDisp(), c + Action(P, M, op)))
       && -sum.effect.din <= Lowest(P, M, op, c)
       && Highest(P, M, op, c) <= sum.maxData
       && 1 + P.words[w].numLocals + ReturnUse(P, M, op) <= sum.maxReturn
       && (op.Ret? ==> !sum.effect.NoExit() && c == sum.effect.dout - sum.effect.din)
  }

  ghost predicate Certified(P: Program, M: Summaries, A: Annotations) {
    && A.Keys == M.Keys
    && (forall w :: w in M ==>
          && P.IsInterpreted(w) && M[w].effect.IsKnown() && AtDepth(A, w, 0, 0)
          && 0 <= M[w].maxData && 1 + P.words[w].numLocals <= M[w].maxReturn)
    && (forall w, p: nat, c {:trigger AtDepth(A, w, p, c)} ::
          AtDepth(A, w, p, c) ==> Checked(P, M, A, w, p, c))
  }

  // ----- the invariant -----

  /** frames ends with the frame of callee, entered when the data stack had depth base, and
      every frame below waits behind a live call at the depth its annotation records. */
  ghost predicate Suspended(P: Program, A: Annotations, env: Entry, frames: seq<Frame>, callee: nat, base: int)
    decreases |frames|
  {
    && |frames| > 0
    && P.IsInterpreted(callee)
    && var top := |frames| - 1;
       && |frames[top].locals| == P.words[callee].numLocals
       && if top == 0 then
            frames[0].saved.None? && callee == env.word && base == |env.stack|
          else
            && frames[top].saved.Some?
            && var Ip(w, r) := frames[top].saved.value;
               && 1 <= r
               && P.IsInterpreted(w) && r <= |P.Code(w)| && P.Code(w)[r - 1] == Call(callee)
               && w in A && Live(A[w], r - 1)
               && Suspended(P, A, env, frames[..top], w, base - A[w][r - 1].value)
  }

  ghost predicate Preserved(P: Program, M: Summaries, env: Entry, stack: seq<Value>)
    requires env.word in M
  {
    var floor := |env.stack| - M[env.word].effect.din;
    0 <= floor <= |stack| && floor <= |env.stack| && stack[..floor] == env.stack[..floor]
  }

  ghost predicate Sound(P: Program, M: Summaries, A: Annotations, env: Entry, s: State)
    requires env.word in M
  {
    match s
    case Running(ip, stack, frames) =>
      && Preserved(P, M, env, stack)
      && ip.off >= 0 && ip.word in A && Live(A[ip.word], ip.off)
      && Suspended(P, A, env, frames, ip.word, |stack| - A[ip.word][ip.off].value)
    case Exited(stack) =>
      && Preserved(P, M, env, stack)
      && !M[env.word].effect.NoExit()
      && |stack| == |env.stack| - M[env.word].effect.din + M[env.word].effect.dout
    case Halted => true
    case Fault => false
  }

  ghost predicate Admissible(P: Program, M: Summaries, A: Annotations, env: Entry) {
    && Certified(P, M, A) && NativesConform(P) && WellScoped(P)
    && env.word in M
    && M[env.word].effect.din <= |env.stack|
  }

  // ----- bounds carried up the chain of frames -----

  function ReturnSlots(frames: seq<Frame>): nat {
    if frames == [] then 0
    else ReturnSlots(frames[..|frames| - 1]) + 1 + |frames[|frames| - 1].locals|
  }

  /** What the summary of a word says of a live call in it. */
  lemma CallerCovers(P: Program, M: Summaries, A: Annotations, v: nat, q: nat, w: nat)
    requires Certified(P, M, A) && v in A && Live(A[v], q)
    requires P.IsInterpreted(v) && q < |P.Code(v)| && P.Code(v)[q] == Call(w) && P.IsInterpreted(w)
    ensures v in M && w in M && M[w].effect.IsKnown()
    ensures -M[v].effect.din <= A[v][q].value - M[w].effect.din
    ensures A[v][q].value + M[w].maxData <= M[v].maxData
    ensures 1 + P.words[v].numLocals + M[w].maxReturn <= M[v].maxReturn
  {
    assert AtDepth(A, v, q, A[v][q].value);
    assert Checked(P, M, A, v, q, A[v][q].value);
  }

  /** An activation never reaches below what its entry word may, nor uses more of either
      stack than was accounted to the entry word. */
  lemma {:induction false} ChainBounds(P: Program, M: Summaries, A: Annotations, env: Entry, frames: seq<Frame>,
                                       w: nat, base: int)
    requires Certified(P, M, A) && env.word in M
    requires Suspended(P, A, env, frames, w, base) && w in M
    ensures base - M[w].effect.din >= |env.stack| - M[env.word].effect.din
    ensures base + M[w].maxData <= |env.stack| + M[env.word].maxData
    ensures ReturnSlots(frames) - 1 - P.words[w].numLocals + M[w].maxReturn <= M[env.word].maxReturn
    decreases |frames|
  {
    hide Certified;
    var top := |frames| - 1;
    if top == 0 {
      assert frames[..0] == [];
    } else {
      var Ip(v, r) := frames[top].saved.value;
      CallerCovers(P, M, A, v, r - 1, w);
      ChainBounds(P, M, A, env, frames[..top], v, base - A[v][r - 1].value);
    }
  }

  // ----- preservation -----

  lemma KeepPrefix(P: Program, M: Summaries, env: Entry, stack: seq<Value>, stack': seq<Value>, k: nat)
    requires env.word in M && Preserved(P, M, env, stack)
    requires |env.stack| - M[env.word].effect.din <= k <= |stack| && k <= |stack'|
    requires stack'[..k] == stack[..k]
    ensures Preserved(P, M, env, stack')
  {
    var floor := |env.stack| - M[env.word].effect.din;
    assert stack'[..floor] == stack'[..k][..floor] == stack[..k][..floor] == stack[..floor];
  }

  lemma SuspendedStore(P: Program, A: Annotations, env: Entry, frames: seq<Frame>, w: nat, base: int, n: nat, v: Value)
    requires Suspended(P, A, env, frames, w, base)
    requires n < |frames[|frames| - 1].locals|
    ensures Suspended(P, A, env, StoreLocal(frames, n, v), w, base)
  {
    var top := |frames| - 1;
    var frames' := StoreLocal(frames, n, v);
    assert frames'[..top] == frames[..top];
  }

  lemma SuspendedPush(P: Program, A: Annotations, env: Entry, frames: seq<Frame>, w: nat, base: int, r: nat,
                      callee: nat, f: Frame, c: int)
    requires Suspended(P, A, env, frames, w, base)
    requires AtDepth(A, w, r, c) && r < |P.Code(w)| && P.Code(w)[r] == Call(callee)
    requires P.IsInterpreted(callee) && |f.locals| == P.words[callee].numLocals
    requires f.saved == Some(Ip(w, r + 1))
    ensures Suspended(P, A, env, frames + [f], callee, base + c)
  {
    var frames' := frames + [f];
    assert frames'[..|frames|] == frames;
  }

  /** Running at an offset of known depth: the form in which each case is re-established. */
  lemma SoundAt(P: Program, M: Summaries, A: Annotations, env: Entry, ip: Ip, stack: seq<Value>, frames: seq<Frame>,
                c: int)
    requires env.word in M && Preserved(P, M, env, stack)
    requires AtDepth(A, ip.word, ip.off, c)
    requires Suspended(P, A, env, frames, ip.word, |stack| - c)
    ensures Sound(P, M, A, env, Running(ip, stack, frames))
  {}

  /** The situation at a live offset: what every case of a step starts from. */
  ghost predicate Poised(P: Program, M: Summaries, A: Annotations, env: Entry, ip: Ip, stack: seq<Value>,
                         frames: seq<Frame>, c: int)
    requires env.word in M
  {
    && Preserved(P, M, env, stack)
    && InCode(P, ip) && AtDepth(A, ip.word, ip.off, c)
    && Checked(P, M, A, ip.word, ip.off, c)
    && Suspended(P, A, env, frames, ip.word, |stack| - c)
    && |stack| - c - M[ip.word].effect.din >= |env.stack| - M[env.word].effect.din
  }

  lemma SoundIsPoised(P: Program, M: Summaries, A: Annotations, env: Entry, ip: Ip, stack: seq<Value>,
                      frames: seq<Frame>)
    requires Admissible(P, M, A, env) && Sound(P, M, A, env, Running(ip, stack, frames))
    ensures Poised(P, M, A, env, ip, stack, frames, A[ip.word][ip.off].value)
  {
    hide NativesConform, WellScoped, Suspended, Preserved;
    var c := A[ip.word][ip.off].value;
    assert AtDepth(A, ip.word, ip.off, c);
    ChainBounds(P, M, A, env, frames, ip.word, |stack| - c);
  }

  lemma FramesOpen(P: Program, A: Annotations, env: Entry, frames: seq<Frame>, w: nat, base: int)
    requires Suspended(P, A, env, frames, w, base)
    ensures |frames| > 0
  {}

  lemma EntryLive(P: Program, M: Summaries, A: Annotations, w: nat)
    requires Certified(P, M, A) && w in M
    ensures AtDepth(A, w, 0, 0)
  {}

  lemma StepData(P: Program, M: Summaries, A: Annotations, env: Entry, ip: Ip, stack: seq<Value>, frames: seq<Frame>,
                 c: int, w: nat)
    requires env.word in M && Poised(P, M, A, env, ip, stack, frames, c)
    requires P.Code(ip.word)[ip.off] == Call(w) && P.IsWord(w) && P.words[w].Data?
    ensures Sound(P, M, A, env, RunWord(P, w, Ip(ip.word, ip.off + 1), stack, frames))
  {
    var v := Blob(P.words[w].block, P.words[w].offset);
    KeepPrefix(P, M, env, stack, stack + [v], |stack|);
    SoundAt(P, M, A, env, Ip(ip.word, ip.off + 1), stack + [v], frames, c + 1);
  }

  lemma StepNative(P: Program, M: Summaries, A: Annotations, env: Entry, ip: Ip, stack: seq<Value>,
                   frames: seq<Frame>, c: int, w: nat)
    requires env.word in M && NativesConform(P) && Poised(P, M, A, env, ip, stack, frames, c)
    requires P.Code(ip.word)[ip.off] == Call(w) && P.IsWord(w) && P.words[w].Native?
    ensures Sound(P, M, A, env, RunWord(P, w, Ip(ip.word, ip.off + 1), stack, frames))
  {
    var e := P.words[w].effect;
    assert e == EffectOf(P, M, w);
    assert |stack| - e.din >= |env.stack| - M[env.word].effect.din;
    if !e.NoExit() {
      NativeReturns(P, M, A, env, ip, stack, frames, c, w, e);
    }
  }

  lemma NativeReturns(P: Program, M: Summaries, A: Annotations, env: Entry, ip: Ip, stack: seq<Value>,
                      frames: seq<Frame>, c: int, w: nat, e: SType)
    requires env.word in M && NativesConform(P) && Preserved(P, M, env, stack)
    requires P.IsWord(w) && P.words[w] == Native(e) && e.IsKnown() && !e.NoExit()
    requires |stack| - e.din >= |env.stack| - M[env.word].effect.din
    requires AtDepth(A, ip.word, ip.off + 1, c + e.dout - e.din) && ip.off >= 0
    requires Suspended(P, A, env, frames, ip.word, |stack| - c)
    ensures Sound(P, M, A, env, RunWord(P, w, Ip(ip.word, ip.off + 1), stack, frames))
  {
    var floor := |stack| - e.din;
    var args := stack[floor..];
    assert |P.native(w, args)| == e.dout;
    var stack' := stack[..floor] + P.native(w, args);
    KeepPrefix(P, M, env, stack, stack', floor);
    SoundAt(P, M, A, env, Ip(ip.word, ip.off + 1), stack', frames, c + e.dout - e.din);
  }

  lemma StepEnter(P: Program, M: Summaries, A: Annotations, env: Entry, ip: Ip, stack: seq<Value>, frames: seq<Frame>,
                  c: int, w: nat)
    requires env.word in M && Certified(P, M, A) && Poised(P, M, A, env, ip, stack, frames, c)
    requires P.Code(ip.word)[ip.off] == Call(w) && P.IsInterpreted(w)
    ensures Sound(P, M, A, env, RunWord(P, w, Ip(ip.word, ip.off + 1), stack, frames))
  {
    hide Certified, Suspended, Preserved, Sound;
    var f := Frame(Some(Ip(ip.word, ip.off + 1)), Zeros(P.words[w].numLocals), {});
    SuspendedPush(P, A, env, frames, ip.word, |stack| - c, ip.off, w, f, c);
    EntryLive(P, M, A, w);
    SoundAt(P, M, A, env, Ip(w, 0), stack, frames + [f], 0);
  }

  lemma StepRet(P: Program, M: Summaries, A: Annotations, env: Entry, ip: Ip, stack: seq<Value>, frames: seq<Frame>,
                c: int)
    requires env.word in M && Certified(P, M, A) && Poised(P, M, A, env, ip, stack, frames, c)
    requires P.Code(ip.word)[ip.off] == Ret
    ensures Sound(P, M, A, env, Leave(stack, frames))
  {
    hide Certified, Preserved;
    if |frames| > 1 {
      ReturnIntoCaller(P, M, A, env, ip.word, stack, frames, c);
    }
  }

  /** A callee that returns with the depth its effect promises continues its caller. */
  lemma ReturnIntoCaller(P: Program, M: Summaries, A: Annotations, env: Entry, w: nat, stack: seq<Value>,
                         frames: seq<Frame>, c: int)
    requires env.word in M && Certified(P, M, A) && Preserved(P, M, env, stack) && w in M
    requires |frames| > 1 && Suspended(P, A, env, frames, w, |stack| - c)
    requires !M[w].effect.NoExit() && c == M[w].effect.dout - M[w].effect.din
    ensures Sound(P, M, A, env, Leave(stack, frames))
  {
    hide Certified, Preserved, Sound;
    var top := |frames| - 1;
    var Ip(v, r) := frames[top].saved.value;
    var d := A[v][r - 1].value;
    CallerContinues(P, M, A, v, r - 1, w);
    SoundAt(P, M, A, env, Ip(v, r), stack, frames[..top], d + c);
  }

  lemma CallerContinues(P: Program, M: Summaries, A: Annotations, v: nat, q: nat, w: nat)
    requires Certified(P, M, A) && v in A && Live(A[v], q) && w in M && !M[w].effect.NoExit()
    requires P.IsInterpreted(v) && q < |P.Code(v)| && P.Code(v)[q] == Call(w) && P.IsInterpreted(w)
    ensures AtDepth(A, v, q + 1, A[v][q].value + M[w].effect.dout - M[w].effect.din)
  {
    hide Lowest, Highest, ReturnUse;
    assert AtDepth(A, v, q, A[v][q].value);
    assert Checked(P, M, A, v, q, A[v][q].value);
  }

  lemma StepPush(P: Program, M: Summaries, A: Annotations, env: Entry, ip: Ip, stack: seq<Value>, frames: seq<Frame>,
                 c: int, v: Value)
    requires env.word in M && Preserved(P, M, env, stack) && ip.off >= 0
    requires AtDepth(A, ip.word, ip.off + 1, c + 1)
    requires Suspended(P, A, env, frames, ip.word, |stack| - c)
    ensures Sound(P, M, A, env, Running(Ip(ip.word, ip.off + 1), stack + [v], frames))
  {
    KeepPrefix(P, M, env, stack, stack + [v], |stack|);
    SoundAt(P, M, A, env, Ip(ip.word, ip.off + 1), stack + [v], frames, c + 1);
  }

  lemma StepStore(P: Program, M: Summaries, A: Annotations, env: Entry, ip: Ip, stack: seq<Value>, frames: seq<Frame>,
                  c: int, n: nat)
    requires env.word in M && Preserved(P, M, env, stack) && ip.off >= 0
    requires AtDepth(A, ip.word, ip.off + 1, c - 1)
    requires Suspended(P, A, env, frames, ip.word, |stack| - c) && n < P.words[ip.word].numLocals
    requires |env.stack| - M[env.word].effect.din <= |stack| - 1
    ensures Sound(P, M, A, env, Execute(P, PutLocal(n), ip, stack, frames))
  {
    var depth := |stack|;
    var v := stack[depth - 1];
    KeepPrefix(P, M, env, stack, stack[..depth - 1], depth - 1);
    SuspendedStore(P, A, env, frames, ip.word, depth - c, n, v);
    SoundAt(P, M, A, env, Ip(ip.word, ip.off + 1), stack[..depth - 1], StoreLocal(frames, n, v), c - 1);
  }

  lemma StepBranch(P: Program, M: Summaries, A: Annotations, env: Entry, ip: Ip, stack: seq<Value>,
                   frames: seq<Frame>, c: int, d: int, taken: bool)
    requires env.word in M && Preserved(P, M, env, stack)
    requires |env.stack| - M[env.word].effect.din <= |stack| - 1
    requires Suspended(P, A, env, frames, ip.word, |stack| - c)
    requires AtDepth(A, ip.word, ip.off + 1, c - 1)
    requires d != 0 ==> AtDepth(A, ip.word, ip.off + 1 + d, c - 1)
    ensures |stack| > 0
    ensures Sound(P, M, A, env, Branch(ip, d, taken, stack[..|stack| - 1], frames))
  {
    var stack' := stack[..|stack| - 1];
    KeepPrefix(P, M, env, stack, stack', |stack| - 1);
    SoundAt(P, M, A, env, Ip(ip.word, ip.off + 1 + (if taken then d else 0)), stack', frames, c - 1);
  }

  lemma StepPlain(P: Program, M: Summaries, A: Annotations, env: Entry, ip: Ip, stack: seq<Value>, frames: seq<Frame>,
                  c: int)
    requires env.word in M && WellScoped(P) && Poised(P, M, A, env, ip, stack, frames, c)
    requires !P.Code(ip.word)[ip.off].Call? && !P.Code(ip.word)[ip.off].Ret?
    ensures Sound(P, M, A, env, Execute(P, P.Code(ip.word)[ip.off], ip, stack, frames))
  {
    var op := P.Code(ip.word)[ip.off];
    var depth := |stack|;
    match op
    case Const(v) => StepPush(P, M, A, env, ip, stack, frames, c, v);
    case GetLocal(n) => StepPush(P, M, A, env, ip, stack, frames, c, frames[|frames| - 1].locals[n]);
    case PutLocal(n) => StepStore(P, M, A, env, ip, stack, frames, c, n);
    case Jump(d) => SoundAt(P, M, A, env, Ip(ip.word, ip.off + 1 + d), stack, frames, c);
    case JumpIf(d) =>
      StepBranch(P, M, A, env, ip, stack, frames, c, d, stack[depth - 1].ToBool());
    case JumpIfNot(d) =>
      StepBranch(P, M, A, env, ip, stack, frames, c, d, !stack[depth - 1].ToBool());
  }

  lemma StepSound(P: Program, M: Summaries, A: Annotations, env: Entry, s: State)
    requires Admissible(P, M, A, env) && Sound(P, M, A, env, s)
    ensures Sound(P, M, A, env, Step(P, s))
  {
    hide Certified, Suspended, Preserved, NativesConform, WellScoped, RunWord, Leave;
    if s.Running? {
      var Running(ip, stack, frames) := s;
      var c := A[ip.word][ip.off].value;
      SoundIsPoised(P, M, A, env, ip, stack, frames);
      FramesOpen(P, A, env, frames, ip.word, |stack| - c);
      var op := P.Code(ip.word)[ip.off];
      match op
      case Ret => StepRet(P, M, A, env, ip, stack, frames, c);
      case Call(w) =>
        if P.words[w].Data? { StepData(P, M, A, env, ip, stack, frames, c, w); }
        else if P.words[w].Native? { StepNative(P, M, A, env, ip, stack, frames, c, w); }
        else { StepEnter(P, M, A, env, ip, stack, frames, c, w); }
      case _ => StepPlain(P, M, A, env, ip, stack, frames, c);
    }
  }

  // ----- whole runs -----

  lemma StartSound(P: Program, M: Summaries, A: Annotations, env: Entry)
    requires Admissible(P, M, A, env)
    ensures P.IsInterpreted(env.word) && Sound(P, M, A, env, Start(P, env.word, env.stack))
  {
    SoundAt(P, M, A, env, Ip(env.word, 0), env.stack,
            [] + [Frame(None, Zeros(P.words[env.word].numLocals), {})], 0);
  }

  lemma {:induction false} RunSound(P: Program, M: Summaries, A: Annotations, env: Entry, n: nat)
    requires Admissible(P, M, A, env) && P.IsInterpreted(env.word)
    ensures Sound(P, M, A, env, Run(P, Start(P, env.word, env.stack), n))
  {
    hide Certified, NativesConform, WellScoped, Sound, Step;
    if n == 0 {
      StartSound(P, M, A, env);
    } else {
      RunSound(P, M, A, env, n - 1);
      StepSound(P, M, A, env, Run(P, Start(P, env.word, env.stack), n - 1));
    }
  }

  /** What a stack effect promises of a state reached from entry depth |entry|: nothing below
      the arguments is touched, and a return changes the depth by exactly dout - din. */
  predicate Honours(effect: SType, entry: seq<Value>, s: State) {
    var floor := |entry| - effect.din;
    match s
    case Running(_, stack, _) => 0 <= floor <= |stack| && floor <= |entry| && stack[..floor] == entry[..floor]
    case Exited(stack) =>
      && !effect.NoExit() && 0 <= floor <= |entry|
      && |stack| == floor + effect.dout && stack[..floor] == entry[..floor]
    case Halted => true
    case Fault => false
  }

  lemma SoundHonours(P: Program, M: Summaries, A: Annotations, env: Entry, s: State)
    requires env.word in M && M[env.word].effect.IsKnown() && Sound(P, M, A, env, s)
    ensures Honours(M[env.word].effect, env.stack, s)
  {}

  /** Soundness of the analysis: a run entered with at least DataIn elements never faults and
      honours the published effect at every step. */
  lemma FlowAnalysisSound(P: Program, M: Summaries, A: Annotations, env: Entry, n: nat)
    requires Admissible(P, M, A, env)
    ensures P.IsInterpreted(env.word)
    ensures Honours(M[env.word].effect, env.stack, Run(P, Start(P, env.word, env.stack), n))
  {
    RunSound(P, M, A, env, n);
    SoundHonours(P, M, A, env, Run(P, Start(P, env.word, env.stack), n));
  }

  // ----- return stack -----

  /** The frames open at any moment of a run, each with its locals and its saved position,
      fit in the entry word's MaxReturnStack. */
  lemma ReturnStackBound(P: Program, M: Summaries, A: Annotations, env: Entry, n: nat)
    requires Admissible(P, M, A, env) && P.IsInterpreted(env.word)
    requires Run(P, Start(P, env.word, env.stack), n).Running?
    ensures ReturnSlots(Run(P, Start(P, env.word, env.stack), n).frames) <= M[env.word].maxReturn
  {
    RunSound(P, M, A, env, n);
    var Running(ip, stack, frames) := Run(P, Start(P, env.word, env.stack), n);
    SlotsFit(P, M, A, env, ip, stack, frames);
  }

  lemma InSummaries(P: Program, M: Summaries, A: Annotations, env: Entry, ip: Ip, stack: seq<Value>, frames: seq<Frame>)
    requires Admissible(P, M, A, env) && Sound(P, M, A, env, Running(ip, stack, frames))
    ensures ip.word in M && 1 + P.words[ip.word].numLocals <= M[ip.word].maxReturn
    ensures Suspended(P, A, env, frames, ip.word, |stack| - A[ip.word][ip.off].value)
  {
    hide NativesConform, WellScoped, Preserved, Suspended;
  }

  lemma SlotsFit(P: Program, M: Summaries, A: Annotations, env: Entry, ip: Ip, stack: seq<Value>, frames: seq<Frame>)
    requires Admissible(P, M, A, env) && Sound(P, M, A, env, Running(ip, stack, frames))
    ensures ReturnSlots(frames) <= M[env.word].maxReturn
  {
    hide NativesConform, WellScoped, Preserved, Suspended;
    InSummaries(P, M, A, env, ip, stack, frames);
    ChainBounds(P, M, A, env, frames, ip.word, |stack| - A[ip.word][ip.off].value);
  }

  /** A chain of words, each calling the next from a live offset. */
  ghost predicate CallChain(P: Program, A: Annotations, path: seq<nat>) {
    forall i {:trigger path[i]} :: 0 <= i < |path| - 1 ==> CallsLive(P, A, path[i], path[i + 1])
  }

  ghost predicate CallsLive(P: Program, A: Annotations, w: nat, callee: nat) {
    && w in A && P.IsInterpreted(w) && P.IsInterpreted(callee)
    && exists p: nat :: Live(A[w], p) && p < |P.Code(w)| && P.Code(w)[p] == Call(callee)
  }

  lemma CallDescends(P: Program, M: Summaries, A: Annotations, w: nat, callee: nat)
    requires Certified(P, M, A) && CallsLive(P, A, w, callee)
    ensures callee in M && M[callee].maxReturn < M[w].maxReturn
  {
    var p: nat :| Live(A[w], p) && p < |P.Code(w)| && P.Code(w)[p] == Call(callee);
    assert AtDepth(A, w, p, A[w][p].value);
    assert Checked(P, M, A, w, p, A[w][p].value);
  }

  /** Acceptance makes the live call graph acyclic: no word occurs twice on a call chain, and
      no chain is longer than the first word's MaxReturnStack. */
  lemma {:induction false} CallGraphAcyclic(P: Program, M: Summaries, A: Annotations, path: seq<nat>)
    requires Certified(P, M, A) && CallChain(P, A, path) && |path| > 0 && path[0] in M
    ensures |path| <= M[path[0]].maxReturn
    ensures forall i, j :: 0 <= i < j < |path| ==> path[i] != path[j]
    ensures forall i :: 0 < i < |path| ==> path[i] in M && M[path[i]].maxReturn < M[path[0]].maxReturn
    decreases |path|
  {
    if |path| > 1 {
      CallDescends(P, M, A, path[0], path[1]);
      var rest := path[1..];
      forall i | 0 <= i < |rest| - 1
        ensures CallsLive(P, A, rest[i], rest[i + 1])
      {
        assert rest[i] == path[i + 1];
      }
      CallGraphAcyclic(P, M, A, rest);
      forall i | 0 < i < |path|
        ensures path[i] in M && M[path[i]].maxReturn < M[path[0]].maxReturn
      {
        assert path[i] == rest[i - 1];
      }
      forall i, j | 0 <= i < j < |path|
        ensures path[i] != path[j]
      {
        if i > 0 {
          assert path[i] == rest[i - 1] && path[j] == rest[j - 1];
        }
      }
    }
  }

  // ----- data stack -----

  function Depth(s: State): nat {
    match s
    case Running(_, stack, _) => |stack|
    case Exited(stack) => |stack|
    case _ => 0
  }

  /** No call that completes in one step leaves more than g elements above its entry depth. */
  ghost predicate GrowsAtMost(P: Program, g: nat) {
    forall w: nat :: P.IsWord(w) ==>
      match P.words[w]
      case Native(e) => e.IsKnown() && !e.NoExit() ==> e.dout - e.din <= g
      case Data(_, _) => 1 <= g
      case Interpreted(_, _, _) => true
  }

  /** What one call of a native or data word adds to the data stack. */
  function Growth(P: Program, w: nat): int
    requires P.IsWord(w)
  {
    match P.words[w]
    case Native(e) => if e.IsKnown() && !e.NoExit() then e.dout - e.din else 0
    case Data(_, _) => 1
    case Interpreted(_, _, _) => 0
  }

  /** A live call at depth c of word w, held against the bound of w. */
  predicate CallWithin(P: Program, M: Summaries, w: nat, p: nat, c: int, g: nat) {
    w in M && P.IsInterpreted(w) && p < |P.Code(w)| && P.Code(w)[p].Call? && P.IsWord(P.Code(w)[p].target) ==>
      c + Growth(P, P.Code(w)[p].target) <= M[w].maxData + g
  }

  /** Every live call of a native or data word ends within its caller's maxDataStack plus g. */
  ghost predicate CallsWithin(P: Program, M: Summaries, A: Annotations, g: nat) {
    forall w, p: nat, c {:trigger AtDepth(A, w, p, c)} :: AtDepth(A, w, p, c) ==> CallWithin(P, M, w, p, c, g)
  }

  /** The growth of the words themselves is always enough for g. */
  lemma GrowthCovers(P: Program, M: Summaries, A: Annotations, g: nat)
    requires Certified(P, M, A) && GrowsAtMost(P, g)
    ensures CallsWithin(P, M, A, g)
  {
    forall w, p: nat, c | AtDepth(A, w, p, c)
      ensures CallWithin(P, M, w, p, c, g)
    {
      assert Checked(P, M, A, w, p, c);
    }
  }

  /** Within the accounted growth, whatever the opcode reaches; for a call, from its growth. */
  lemma DepthFits(P: Program, M: Summaries, A: Annotations, env: Entry, ip: Ip, stack: seq<Value>, frames: seq<Frame>,
                  g: nat)
    requires Admissible(P, M, A, env) && Sound(P, M, A, env, Running(ip, stack, frames)) && CallsWithin(P, M, A, g)
    ensures InCode(P, ip) && Ready(P, M, P.Code(ip.word)[ip.off])
    ensures var op := P.Code(ip.word)[ip.off];
            |stack| + (if op.Call? then Growth(P, op.target) else Action(P, M, op))
              <= |env.stack| + M[env.word].maxData + (if op.Call? then g else 0)
            || op.Ret?
  {
    hide NativesConform, WellScoped, Suspended, Preserved, Certified, Growth;
    var c := A[ip.word][ip.off].value;
    SoundIsPoised(P, M, A, env, ip, stack, frames);
    ChainBounds(P, M, A, env, frames, ip.word, |stack| - c);
    assert CallWithin(P, M, ip.word, ip.off, c, g);
  }

  lemma StepDepth(P: Program, M: Summaries, A: Annotations, env: Entry, s: State, g: nat)
    requires Admissible(P, M, A, env) && Sound(P, M, A, env, s) && CallsWithin(P, M, A, g)
    requires Depth(s) <= |env.stack| + M[env.word].maxData + g
    ensures Depth(Step(P, s)) <= |env.stack| + M[env.word].maxData + g
  {
    hide NativesConform, WellScoped, Suspended, Preserved, Certified, Checked, CallsWithin, RunWord, Growth;
    if s.Running? {
      var Running(ip, stack, frames) := s;
      DepthFits(P, M, A, env, ip, stack, frames, g);
      if P.Code(ip.word)[ip.off].Call? {
        CallDepth(P, P.Code(ip.word)[ip.off].target, Ip(ip.word, ip.off + 1), stack, frames);
      }
    }
  }

  lemma CallDepth(P: Program, w: nat, next: Ip, stack: seq<Value>, frames: seq<Frame>)
    requires NativesConform(P) && P.IsWord(w)
    ensures Depth(RunWord(P, w, next, stack, frames)) <= Max(0, |stack| + Growth(P, w))
  {
    if P.words[w].Native? {
      var e := P.words[w].effect;
      if e.IsKnown() && !e.NoExit() && |stack| >= e.din {
        assert |P.native(w, stack[|stack| - e.din..])| == e.dout;
      }
    }
  }

  lemma MaxDataPositive(P: Program, M: Summaries, A: Annotations, env: Entry)
    requires Admissible(P, M, A, env)
    ensures M[env.word].maxData >= 0
  {
    hide NativesConform, WellScoped;
  }

  /** Data-stack bound. At every step of every run, callees included, the growth above entry
      depth is at most maxDataStack plus g, when no live call of a native or data word ends more
      than g above the maxDataStack of its caller; with g = 0 it is at most maxDataStack. */
  lemma {:induction false} DataStackBound(P: Program, M: Summaries, A: Annotations, env: Entry, n: nat, g: nat)
    requires Admissible(P, M, A, env) && P.IsInterpreted(env.word) && CallsWithin(P, M, A, g)
    ensures Depth(Run(P, Start(P, env.word, env.stack), n)) <= |env.stack| + M[env.word].maxData + g
  {
    hide Certified, NativesConform, WellScoped, Sound, CallsWithin, Step;
    if n == 0 {
      MaxDataPositive(P, M, A, env);
    } else {
      DataStackBound(P, M, A, env, n - 1, g);
      RunSound(P, M, A, env, n - 1);
      StepDepth(P, M, A, env, Run(P, Start(P, env.word, env.stack), n - 1), g);
    }
  }
}
