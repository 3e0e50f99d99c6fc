// Compiler correctness: whole runs of the byte machine against whole runs of the opcode machine.

module Correctness {
  import opened Arith
  import opened Wrappers
  import opened StackEffect
  import opened Programs
  import opened OpMachine
  import opened FlowSpec
  import opened FlowSound
  import opened Codec
  import opened Layout
  import opened Linking
  import opened ByteMachine
  import opened Simulation

  /** A live call of a data word in a word whose bound leaves no cell above its own frame: that
      call opens a cell which MaxReturnStack does not announce. */
  ghost predicate FillsUp(P: Program, M: Summaries, A: Annotations) {
    exists w, p: nat, c {:trigger AtDepth(A, w, p, c)} :: AtDepth(A, w, p, c) && w in M && FullCall(P, M, w, p)
  }

  predicate FullCall(P: Program, M: Summaries, w: nat, p: nat)
    requires w in M
  {
    && P.IsInterpreted(w) && p < |P.Code(w)| && P.Code(w)[p].Call?
    && P.IsWord(P.Code(w)[p].target) && P.words[P.Code(w)[p].target].Data?
    && M[w].maxReturn <= 1 + P.words[w].numLocals
  }

  /** Cells the generated code may use above the entry point. */
  ghost function Room(P: Program, M: Summaries, A: Annotations, w: nat): int
    requires w in M
  {
    M[w].maxReturn + if FillsUp(P, M, A) then 1 else 0
  }

  function Steps(B: Build, env: Entry, n: nat): State
    requires B.P.IsInterpreted(env.word)
  {
    Run(B.P, Start(B.P, env.word, env.stack), n)
  }

  /** Turns of the byte machine spent on the first n steps. */
  function Time(B: Build, env: Entry, n: nat): (t: nat)
    requires B.P.IsInterpreted(env.word)
    ensures t >= n
  {
    if n == 0 then 0 else Time(B, env, n - 1) + Cost(B.P, Steps(B, env, n - 1))
  }

  /** The machine set up by T0_DEFENTRY for the entry word. */
  function Launch(B: Build, env: Entry, rmem0: seq<Word32>, rp0: nat): Machine {
    Init(B.Img(), B.L.SlotOf(env.word), B.L.LowerAll(env.stack), rmem0, rp0)
  }

  /** A coded program whose words were accepted, entered on a deep enough data stack, with the
      announced cells of the return-stack buffer. */
  ghost predicate Startable(B: Build, M: Summaries, A: Annotations, env: Entry, rmem0: seq<Word32>, rp0: nat) {
    && Coded(B) && Admissible(B.P, M, A, env) && HeaderFits(B, env.word)
    && rp0 + M[env.word].maxReturn <= |rmem0|
  }

  /** The same with addresses that fit and a cell for data words. */
  ghost predicate Launchable(B: Build, M: Summaries, A: Annotations, env: Entry, rmem0: seq<Word32>, rp0: nat) {
    && WellBuilt(B) && Admissible(B.P, M, A, env)
    && rp0 + Room(B.P, M, A, env.word) <= |rmem0|
  }

  /** The next step is a call of a data word. */
  predicate CallsData(P: Program, s: State) { Cost(P, s) == 3 }

  /** The next step finds a cell for a data word, and addresses of 16 bits. */
  predicate StepFits(B: Build, s: State, cells: int) {
    s.Running? ==> CallFits(B, s.ip) && (CallsData(B.P, s) ==> ReturnSlots(s.frames) < cells)
  }

  ghost predicate AllFit(B: Build, env: Entry, cells: int, n: nat)
    requires B.P.IsInterpreted(env.word)
  {
    forall k: nat {:trigger Steps(B, env, k)} :: k < n ==> StepFits(B, Steps(B, env, k), cells)
  }

  /** No step of the first n leaves what the byte machine can reproduce. */
  ghost predicate AllFaithful(B: Build, C: Snippets, env: Entry, n: nat)
    requires B.P.IsInterpreted(env.word)
  {
    forall k: nat {:trigger Steps(B, env, k)} :: k < n ==> Faithful(B, C, Steps(B, env, k))
  }

  lemma LaunchMatches(B: Build, env: Entry, rmem0: seq<Word32>, rp0: nat)
    requires Coded(B) && B.P.IsInterpreted(env.word) && HeaderFits(B, env.word)
    requires rp0 + B.P.words[env.word].numLocals < |rmem0|
    ensures Matches(B, Start(B.P, env.word, env.stack), Launch(B, env, rmem0, rp0), rmem0, rp0)
  {
    hide Coded, At, Gcode, CodeBytes, AddressOf, FramesHeld, Outside;
    var w := env.word;
    var nl := B.P.words[w].numLocals;
    SlotFacts(B, w);
    HeaderAt(B, w);
    Entered(B.Img(), B.L.SlotOf(w), 0, B.L.LowerAll(env.stack), rmem0, rp0,
            Sum(B.lens, StartOf(B.P, B.L, w)), AddressOf(B, Ip(w, 0)), nl);
    FirstFrame(B, rmem0, rp0, nl);
    assert [] + [Frame(None, Zeros(nl), {})] == [Frame(None, Zeros(nl), {})];
  }

  lemma CellsForEntry(B: Build, M: Summaries, A: Annotations, env: Entry, rmem0: seq<Word32>, rp0: nat)
    requires Startable(B, M, A, env, rmem0, rp0) && B.P.IsInterpreted(env.word)
    ensures rp0 + B.P.words[env.word].numLocals < |rmem0|
  {
    hide Coded, NativesConform, WellScoped;
  }

  lemma FirstFrame(B: Build, rmem0: seq<Word32>, rp0: nat, nl: nat)
    requires rp0 + nl < |rmem0| && nl <= 0xFFFF
    ensures var rmem := rmem0[rp0 + nl := U32(0 + nl * 0x1_0000)];
            && FramesHeld(B, [Frame(None, Zeros(nl), {})], rmem, rp0 + nl + 1, rp0)
            && Outside(rmem, rmem0, rp0)
  {
    hide Gcode;
    var v := U32(0 + nl * 0x1_0000);
    var f := Frame(None, Zeros(nl), {});
    var rmem := rmem0[rp0 + nl := v];
    PrefixKept(rmem0, rp0 + nl, v, rp0);
    assert FrameHeld(B, f, rmem, rp0 + nl + 1);
    assert [f][..0] == [];
  }

  /** The buffer has the cells the next step needs, but perhaps for the call of a data word. */
  lemma NeedFits(P: Program, M: Summaries, A: Annotations, env: Entry, s: State)
    requires Admissible(P, M, A, env) && Sound(P, M, A, env, s) && s.Running?
    requires Sound(P, M, A, env, Step(P, s))
    ensures InCode(P, s.ip) && ReturnSlots(s.frames) <= M[env.word].maxReturn
    ensures !CallsData(P, s) ==> ReturnSlots(s.frames) + Need(P, s) <= M[env.word].maxReturn
    ensures CallsData(P, s) ==> Need(P, s) == 1
  {
    hide NativesConform, WellScoped, Certified, Checked, Preserved, Suspended;
    SlotsFit(P, M, A, env, s.ip, s.stack, s.frames);
    InCodeWhenSound(P, M, A, env, s.ip, s.stack, s.frames);
    var op := P.Code(s.ip.word)[s.ip.off];
    if op.Call? && P.IsInterpreted(op.target) {
      var Running(ip, stack, frames) := Step(P, s);
      SlotsFit(P, M, A, env, ip, stack, frames);
      SlotsPushed(s.frames, frames[|frames| - 1]);
    }
  }

  /** Where every word that calls a data word announces a cell above its own frame, that cell is
      free; otherwise one more makes it so. */
  lemma DataFits(P: Program, M: Summaries, A: Annotations, env: Entry, s: State)
    requires Admissible(P, M, A, env) && Sound(P, M, A, env, s) && s.Running? && CallsData(P, s)
    ensures ReturnSlots(s.frames) < Room(P, M, A, env.word)
  {
    hide NativesConform, WellScoped, Certified, Preserved, Suspended;
    var Running(ip, stack, frames) := s;
    var c := A[ip.word][ip.off].value;
    SoundIsPoised(P, M, A, env, ip, stack, frames);
    ChainBounds(P, M, A, env, frames, ip.word, |stack| - c);
    assert AtDepth(A, ip.word, ip.off, c);
  }

  lemma LaunchableFits(B: Build, M: Summaries, A: Annotations, env: Entry, rmem0: seq<Word32>, rp0: nat, n: nat)
    requires Launchable(B, M, A, env, rmem0, rp0) && B.P.IsInterpreted(env.word)
    ensures Startable(B, M, A, env, rmem0, rp0) && AllFit(B, env, |rmem0| - rp0, n)
  {
    hide Coded, Certified, NativesConform, WellScoped, Sound, Start, FillsUp, CallsData;
    forall k: nat | k < n
      ensures StepFits(B, Steps(B, env, k), |rmem0| - rp0)
    {
      var s := Steps(B, env, k);
      RunSound(B.P, M, A, env, k);
      if s.Running? && CallsData(B.P, s) { DataFits(B.P, M, A, env, s); }
    }
  }

  lemma InCodeWhenSound(P: Program, M: Summaries, A: Annotations, env: Entry, ip: Ip, stack: seq<Value>,
                        frames: seq<Frame>)
    requires Admissible(P, M, A, env) && Sound(P, M, A, env, Running(ip, stack, frames))
    ensures InCode(P, ip)
  {
    assert AtDepth(A, ip.word, ip.off, A[ip.word][ip.off].value);
    assert Checked(P, M, A, ip.word, ip.off, A[ip.word][ip.off].value);
  }

  lemma SlotsPushed(frames: seq<Frame>, f: Frame)
    ensures ReturnSlots(frames + [f]) == ReturnSlots(frames) + 1 + |f.locals|
  {
    assert (frames + [f])[..|frames|] == frames;
  }

  /** Simulation. After every step of the opcode machine the byte machine, some turns later,
      stands at the same opcode with the same data stack, written locals and open frames, and
      has left the return-stack buffer below its entry point alone. */
  lemma {:induction false} RunsMatch(B: Build, C: Snippets, M: Summaries, A: Annotations, env: Entry,
                                     rmem0: seq<Word32>, rp0: nat, n: nat)
    requires Startable(B, M, A, env, rmem0, rp0) && B.P.IsInterpreted(env.word)
    requires AllFaithful(B, C, env, n) && AllFit(B, env, |rmem0| - rp0, n)
    ensures Matches(B, Steps(B, env, n), Turns(B.Img(), C, Launch(B, env, rmem0, rp0), Time(B, env, n)), rmem0, rp0)
  {
    hide Coded, Matches, Faithful, Turn, Step, Sound, Certified, NativesConform, WellScoped, Gcode, CodeBytes, Launch,
         Cost, Start, StepFits, HeaderFits;
    var m0 := Launch(B, env, rmem0, rp0);
    if n == 0 {
      CellsForEntry(B, M, A, env, rmem0, rp0);
      LaunchMatches(B, env, rmem0, rp0);
      assert Turns(B.Img(), C, m0, 0) == m0;
    } else {
      RunsMatch(B, C, M, A, env, rmem0, rp0, n - 1);
      var s := Steps(B, env, n - 1);
      var t := Time(B, env, n - 1);
      RunSound(B.P, M, A, env, n - 1);
      RunSound(B.P, M, A, env, n);
      assert Steps(B, env, n) == Step(B.P, s);
      StepOrStay(B, C, M, A, env, s, Turns(B.Img(), C, m0, t), rmem0, rp0);
      TurnsCompose(B.Img(), C, m0, t, Cost(B.P, s));
    }
  }

  lemma StepOrStay(B: Build, C: Snippets, M: Summaries, A: Annotations, env: Entry, s: State, m: Machine,
                   rmem0: seq<Word32>, rp0: nat)
    requires Startable(B, M, A, env, rmem0, rp0) && StepFits(B, s, |rmem0| - rp0)
    requires Sound(B.P, M, A, env, s) && Sound(B.P, M, A, env, Step(B.P, s))
    requires Matches(B, s, m, rmem0, rp0) && Faithful(B, C, s)
    ensures Matches(B, Step(B.P, s), Turns(B.Img(), C, m, Cost(B.P, s)), rmem0, rp0)
    ensures s.Running? && Cost(B.P, s) == 3 ==> ThroughData(B.Img(), C, m)
  {
    hide ThroughData, Coded, Matches, Faithful, Turn, Certified, NativesConform, WellScoped, Gcode, CodeBytes,
         Suspended, Preserved, Need, Execute, CallFits, Cost;
    if s.Running? {
      NeedFits(B.P, M, A, env, s);
      RpInUse(B, s, m, rmem0, rp0);
      StepSimulated(B, C, s, m, rmem0, rp0);
    } else {
      MatchesEnded(B, s, m, rmem0, rp0);
      TurnsStay(B.Img(), C, m, Cost(B.P, s));
    }
  }

  lemma RpInUse(B: Build, s: State, m: Machine, rmem0: seq<Word32>, rp0: nat)
    requires Matches(B, s, m, rmem0, rp0) && s.Running?
    ensures m.Active? && m.rp == rp0 + ReturnSlots(s.frames) && |m.rmem| == |rmem0|
  {
    SlotsInUse(B, s.frames, m.rmem, m.rp, rp0);
  }

  lemma {:induction false} EndsForGood(img: Image, C: Snippets, m: Machine, t: nat, u: nat)
    requires t <= u && !Turns(img, C, m, t).Active?
    ensures Turns(img, C, m, u) == Turns(img, C, m, t)
  {
    TurnsStay(img, C, Turns(img, C, m, t), u - t);
    TurnsCompose(img, C, m, t, u - t);
  }

  /** The byte machine ended as the opcode machine did: returned to its caller with the same
      data stack, the return-stack pointer back and nothing below it changed, or inside a
      word that never returns. */
  predicate EndedLike(B: Build, s: State, m: Machine, rmem0: seq<Word32>, rp0: nat) {
    match m
    case Active(_, _, _, _) => true
    case Stopped(ds, rmem, rp) =>
      s.Exited? && ds == B.L.LowerAll(s.stack) && rp == rp0 && Outside(rmem, rmem0, rp0)
    case Away => s.Halted?
    case Crash => false
  }

  lemma MatchesEnded(B: Build, s: State, m: Machine, rmem0: seq<Word32>, rp0: nat)
    requires Matches(B, s, m, rmem0, rp0)
    ensures EndedLike(B, s, m, rmem0, rp0) && (m.Active? <==> s.Running?)
  {
    hide FramesHeld;
  }

  /** The generated code never crashes. Whenever it has ended, the opcode machine has ended in
      the same way; and once the opcode machine has ended, so has the generated code after the
      turns its steps cost. */
  lemma CompilerCorrect(B: Build, C: Snippets, M: Summaries, A: Annotations, env: Entry, rmem0: seq<Word32>, rp0: nat,
                        t: nat)
    requires Startable(B, M, A, env, rmem0, rp0) && B.P.IsInterpreted(env.word)
    requires AllFaithful(B, C, env, t) && AllFit(B, env, |rmem0| - rp0, t)
    ensures EndedLike(B, Steps(B, env, t), Turns(B.Img(), C, Launch(B, env, rmem0, rp0), t), rmem0, rp0)
    ensures !Steps(B, env, t).Running? ==>
              var m := Turns(B.Img(), C, Launch(B, env, rmem0, rp0), Time(B, env, t));
              !m.Active? && EndedLike(B, Steps(B, env, t), m, rmem0, rp0)
  {
    hide Coded, Faithful, Turns, Certified, NativesConform, WellScoped, Gcode, CodeBytes, Launch,
         Startable, AllFit, Steps, FramesHeld, Matches, EndedLike;
    var m0 := Launch(B, env, rmem0, rp0);
    RunsMatch(B, C, M, A, env, rmem0, rp0, t);
    MatchesEnded(B, Steps(B, env, t), Turns(B.Img(), C, m0, Time(B, env, t)), rmem0, rp0);
    if Turns(B.Img(), C, m0, t).Active? {
      ActiveIsFine(B, Steps(B, env, t), Turns(B.Img(), C, m0, t), rmem0, rp0);
    } else {
      EndsForGood(B.Img(), C, m0, t, Time(B, env, t));
    }
  }

  lemma ActiveIsFine(B: Build, s: State, m: Machine, rmem0: seq<Word32>, rp0: nat)
    requires m.Active?
    ensures EndedLike(B, s, m, rmem0, rp0)
  {}

  // ----- a data word as entry point -----

  /** A data word as entry point: the emitted code is entered, pushes the address and returns, as
      the word does in the compiler. */
  lemma DataEntryCorrect(B: Build, C: Snippets, env: Entry, rmem0: seq<Word32>, rp0: nat, t: nat)
    requires Coded(B) && B.P.IsWord(env.word) && B.P.words[env.word].Data? && HeaderFits(B, env.word) && rp0 < |rmem0|
    ensures var m := Turns(B.Img(), C, Launch(B, env, rmem0, rp0), t);
            if t < 2 then m.Active?
            else
              var v := Blob(B.P.words[env.word].block, B.P.words[env.word].offset);
              && m.Stopped? && m.ds == B.L.LowerAll(env.stack + [v]) && m.rp == rp0
              && Outside(m.rmem, rmem0, rp0)
  {
    hide Coded, Turn, Gcode, CodeBytes, StartOf, EnterSlot;
    var w := env.word;
    var img := B.Img();
    var m0 := Launch(B, env, rmem0, rp0);
    var v := Blob(B.P.words[w].block, B.P.words[w].offset);
    var m1, m2 := DataEntryTurns(B, C, env, rmem0, rp0);
    LowerPush(B.L, env.stack, v);
    assert Turns(img, C, m0, 0) == m0;
    OneTurn(img, C, m0);
    assert Turns(img, C, m0, 2) == Turn(img, C, Turns(img, C, m0, 1));
    if t >= 2 { EndsForGood(img, C, m0, 2, t); }
    OutsideKept(rmem0, rmem0, rp0, rp0, 0);
  }

  lemma DataEntryTurns(B: Build, C: Snippets, env: Entry, rmem0: seq<Word32>, rp0: nat)
    returns (m1: Machine, m2: Machine)
    requires Coded(B) && B.P.IsWord(env.word) && B.P.words[env.word].Data? && rp0 < |rmem0| && HeaderFits(B, env.word)
    ensures var v := Blob(B.P.words[env.word].block, B.P.words[env.word].offset);
            && Launch(B, env, rmem0, rp0).Active?
            && m1 == Turn(B.Img(), C, Launch(B, env, rmem0, rp0)) && m1.Active?
            && m2 == Turn(B.Img(), C, m1)
            && m2 == Stopped(B.L.LowerAll(env.stack) + [B.L.Lower(v)], rmem0[rp0 := 0], rp0)
  {
    hide Coded, Turn, Gcode, CodeBytes, StartOf, EnterSlot, At, WordElems, EncodeS;
    var w := env.word;
    var v := Blob(B.P.words[w].block, B.P.words[w].offset);
    var start := StartOf(B.P, B.L, w);
    Shape(B);
    SlotFacts(B, w);
    WordElemsOf(B.P, B.L, w, start);
    HeaderElem(B, w, 0, EUInt(0));
    HeaderElem(B, w, 1, EUIntInt(1, I32(B.L.Lower(v))));
    HeaderElem(B, w, 2, EUInt(0));
    WordOfSigned(B.L.Lower(v));
    m1, m2 := DataEntryOn(B.Img(), C, B.L.SlotOf(w), B.L.LowerAll(env.stack), rmem0, rp0, Sum(B.lens, start),
                          Sum(B.lens, start + 1), Sum(B.lens, start + 2), Sum(B.lens, start + 3), I32(B.L.Lower(v)));
  }

  lemma DataEntryOn(img: Image, C: Snippets, slot: nat, ds: seq<Word32>, rmem0: seq<Word32>, rp0: nat, head: nat,
                    body: nat, mid: nat, end: nat, x: Int32) returns (m1: Machine, m2: Machine)
    requires 7 <= img.interpreted <= slot < img.interpreted + |img.caddr| && rp0 < |rmem0|
    requires img.caddr[slot - img.interpreted] == head && At(img.code, head, body, 0, img.one, [])
    requires At(img.code, body, mid, 1, img.one, EncodeS(x)) && At(img.code, mid, end, 0, img.one, [])
    ensures var m0 := Init(img, slot, ds, rmem0, rp0);
            m0.Active? && m1 == Turn(img, C, m0) && m1.Active? && m2 == Turn(img, C, m1)
    ensures m2 == Stopped(ds + [U32(x)], rmem0[rp0 := 0], rp0)
  {
    hide Turn, EnterSlot, At, EncodeS;
    Entered(img, slot, 0, ds, rmem0, rp0, head, body, 0);
    var m0 := Active(body, ds, rmem0[rp0 := 0], rp0 + 1);
    TurnConst(img, C, m0, mid, x);
    m1 := Active(mid, ds + [U32(x)], rmem0[rp0 := 0], rp0 + 1);
    TurnRet(img, C, m1, end);
    m2 := Turn(img, C, m1);
  }

  // ----- the cell of a data word -----

  /** The next step calls a data word while the open frames fill the buffer. */
  predicate DataOnFull(B: Build, s: State, cells: int) {
    s.Running? && CallsData(B.P, s) && ReturnSlots(s.frames) >= cells
  }

  lemma FullCrashes(B: Build, C: Snippets, s: State, m: Machine, rmem0: seq<Word32>, rp0: nat)
    requires Coded(B) && Matches(B, s, m, rmem0, rp0) && DataOnFull(B, s, |rmem0| - rp0) && CallFits(B, s.ip)
    ensures Turn(B.Img(), C, m) == Crash
  {
    hide Coded, Turn, At, FramesHeld, Gcode, CodeBytes, StartOf;
    RpInUse(B, s, m, rmem0, rp0);
    var w := B.P.Code(s.ip.word)[s.ip.off].target;
    FacingOpcode(B, s.ip, s.stack, s.frames, m, rmem0, rp0);
    SlotFacts(B, w);
    DataHeader(B, w);
    DataTurn(B.Img(), C, m, AddressOf(B, Ip(s.ip.word, s.ip.off + 1)), B.L.SlotOf(w), HeaderAddress(B, w),
             Sum(B.lens, StartOf(B.P, B.L, w) + 1));
  }

  /** The first step at which a data word finds the buffer full. */
  lemma {:induction false} FirstFull(B: Build, env: Entry, cells: int, n: nat) returns (k: nat)
    requires B.P.IsInterpreted(env.word) && DataOnFull(B, Steps(B, env, n), cells)
    ensures DataOnFull(B, Steps(B, env, k), cells)
    ensures forall i: nat {:trigger Steps(B, env, i)} :: i < k ==> !DataOnFull(B, Steps(B, env, i), cells)
    decreases n
  {
    hide DataOnFull, Steps;
    if i: nat :| i < n && DataOnFull(B, Steps(B, env, i), cells) {
      k := FirstFull(B, env, cells, i);
    } else {
      k := n;
    }
  }

  lemma FitsUnlessFull(B: Build, s: State, cells: int)
    requires WellBuilt(B) && !DataOnFull(B, s, cells)
    ensures StepFits(B, s, cells)
  {
    hide Coded, CallFits, HeaderFits, CallsData;
  }

  lemma AllFitUnlessFull(B: Build, env: Entry, cells: int, n: nat)
    requires WellBuilt(B) && B.P.IsInterpreted(env.word)
    requires forall i: nat {:trigger Steps(B, env, i)} :: i < n ==> !DataOnFull(B, Steps(B, env, i), cells)
    ensures AllFit(B, env, cells, n)
  {
    hide WellBuilt, StepFits, DataOnFull, Steps;
    forall k: nat | k < n
      ensures StepFits(B, Steps(B, env, k), cells)
    {
      FitsUnlessFull(B, Steps(B, env, k), cells);
    }
  }

  /** In a buffer with just the announced cells, the emitted code goes wrong exactly when the run
      of the opcode machine calls a data word while its frames fill all of them. */
  lemma OverrunExactly(B: Build, C: Snippets, M: Summaries, A: Annotations, env: Entry, rmem0: seq<Word32>, rp0: nat)
    requires WellBuilt(B) && Startable(B, M, A, env, rmem0, rp0) && B.P.IsInterpreted(env.word)
    requires forall n: nat {:trigger AllFaithful(B, C, env, n)} :: AllFaithful(B, C, env, n)
    ensures (exists t: nat {:trigger Turns(B.Img(), C, Launch(B, env, rmem0, rp0), t)} ::
               Turns(B.Img(), C, Launch(B, env, rmem0, rp0), t) == Crash)
            <==> exists n: nat {:trigger Steps(B, env, n)} :: DataOnFull(B, Steps(B, env, n), |rmem0| - rp0)
  {
    hide WellBuilt, Startable, AllFaithful, Turns, Turn, Launch, DataOnFull, Steps, Matches, EndedLike, AllFit,
         StepFits;
    var cells := |rmem0| - rp0;
    var m0 := Launch(B, env, rmem0, rp0);
    if n: nat :| DataOnFull(B, Steps(B, env, n), cells) {
      var k := FirstFull(B, env, cells, n);
      FullRunCrashes(B, C, M, A, env, rmem0, rp0, k);
    } else {
      forall t: nat
        ensures Turns(B.Img(), C, m0, t) != Crash
      {
        AllFitUnlessFull(B, env, cells, t);
        assert AllFaithful(B, C, env, t);
        CompilerCorrect(B, C, M, A, env, rmem0, rp0, t);
        CrashIsNoEnd(B, Steps(B, env, t), Turns(B.Img(), C, m0, t), rmem0, rp0);
      }
    }
  }

  lemma CrashIsNoEnd(B: Build, s: State, m: Machine, rmem0: seq<Word32>, rp0: nat)
    requires EndedLike(B, s, m, rmem0, rp0)
    ensures m != Crash
  {}

  lemma FullRunCrashes(B: Build, C: Snippets, M: Summaries, A: Annotations, env: Entry, rmem0: seq<Word32>, rp0: nat,
                       k: nat)
    requires WellBuilt(B) && Startable(B, M, A, env, rmem0, rp0) && B.P.IsInterpreted(env.word)
    requires AllFaithful(B, C, env, k) && DataOnFull(B, Steps(B, env, k), |rmem0| - rp0)
    requires forall i: nat {:trigger Steps(B, env, i)} :: i < k ==> !DataOnFull(B, Steps(B, env, i), |rmem0| - rp0)
    ensures Turns(B.Img(), C, Launch(B, env, rmem0, rp0), Time(B, env, k) + 1) == Crash
  {
    hide Startable, Coded, AllFaithful, Turn, Launch, CallsData, Steps, Matches, StepFits, HeaderFits, CallFits, Time;
    AllFitUnlessFull(B, env, |rmem0| - rp0, k);
    RunsMatch(B, C, M, A, env, rmem0, rp0, k);
    var s := Steps(B, env, k);
    assert CallFits(B, s.ip);
    FullCrashes(B, C, s, Turns(B.Img(), C, Launch(B, env, rmem0, rp0), Time(B, env, k)), rmem0, rp0);
  }
}
