// Buffers and address fields that are too small: programs that exceed them, and exactly when a run
// does.

module Limits {
  import opened Wrappers
  import opened Arith
  import opened StackEffect
  import opened Programs
  import opened OpMachine
  import opened FlowSpec
  import opened FlowSound
  import opened Codec
  import opened Layout
  import opened Linking
  import opened ByteMachine
  import opened Simulation
  import opened Correctness
  import Edges

  // ----- a call of a data word in a full buffer -----

  /** Word 0 is a data word, and word 1 calls it. */
  function DataCaller(): Program {
    Program([Data(0, 0), Interpreted(0, [Call(0), Ret], UNKNOWN)], (w, args) => [])
  }

  /** What Generate makes of it: the bytes 0, 1 1, 0 and 0, 7, 0. */
  function DataBuild(): Build {
    Build(DataCaller(), Link([7, 8], 7, [1]), true, [1, 2, 1, 1, 1, 1], [0, 4])
  }

  lemma DataElems()
    ensures DataBuild().Elems() == [EUInt(0), EUIntInt(1, 1), EUInt(0), EUInt(0), EUInt(7), EUInt(0)]
    ensures StartOf(DataCaller(), DataBuild().L, 0) == 0 && StartOf(DataCaller(), DataBuild().L, 1) == 3
  {
    var P, L := DataCaller(), DataBuild().L;
    assert Gcode(P, L, 0) == [];
    assert WordElems(P, L, 0, 0) == [EUInt(0), EUIntInt(1, 1), EUInt(0)];
    assert Gcode(P, L, 1) == [EUInt(0), EUIntInt(1, 1), EUInt(0)];
    assert WordElems(P, L, 1, 3) == [EUInt(0), EUInt(7), EUInt(0)];
    assert Gcode(P, L, 2) == Gcode(P, L, 1) + WordElems(P, L, 1, 3);
  }

  lemma DataSums()
    ensures var lens := DataBuild().lens;
            && Sum(lens, 0) == 0 && Sum(lens, 1) == 1 && Sum(lens, 2) == 3 && Sum(lens, 3) == 4
            && Sum(lens, 4) == 5 && Sum(lens, 5) == 6 && Sum(lens, 6) == 7
  {}

  lemma DataLayout()
    ensures SelfConsistent(DataBuild().Elems(), true, DataBuild().lens)
  {
    hide Gcode;
    DataElems();
    var code, lens := DataBuild().Elems(), DataBuild().lens;
    assert SLen(1) == 1;
    assert Pass(code, true, lens) == lens;
  }

  lemma DataBuildWell()
    ensures WellBuilt(DataBuild())
  {
    hide Gcode, SelfConsistent, Sum;
    var B := DataBuild();
    DataElems();
    DataSums();
    DataLayout();
    assert |B.Elems()| == 6;
    assert SlotsLinked(B);
    forall ip: Ip
      ensures CallFits(B, ip)
    {
      if InCode(B.P, ip) { assert ip.word == 1 && 0 <= ip.off <= 1; }
    }
  }

  /** The analysis announces one cell for word 1, and its run ends after two steps. With one cell
      the emitted code writes outside the buffer at its first turn. */
  lemma DataWordNeedsCell(C: Snippets, v: Word32)
    ensures WellBuilt(DataBuild())
    ensures Describes(DataCaller(), map[], 1, Edges.CallerDepths(Pair(0, 1)), Edges.CallerExtremes(Pair(0, 1)),
                      Summary(Pair(0, 1), 0, 1))
    ensures Run(DataCaller(), Start(DataCaller(), 1, []), 2) == Exited([Blob(0, 0)])
    ensures Turns(DataBuild().Img(), C, Launch(DataBuild(), Entry(1, []), [v], 0), 1) == Crash
  {
    hide *;
    DataBuildWell();
    DataDescribed();
    DataRun();
    DataCrash(DataBuild(), C, v);
  }

  lemma DataDescribed()
    ensures Describes(DataCaller(), map[], 1, Edges.CallerDepths(Pair(0, 1)), Edges.CallerExtremes(Pair(0, 1)),
                      Summary(Pair(0, 1), 0, 1))
  {
    hide Describes;
    Edges.CallerDescribed(DataCaller(), Data(0, 0));
  }

  lemma DataCrash(B: Build, C: Snippets, v: Word32)
    requires WellBuilt(B) && B.P.IsInterpreted(1) && B.P.words[1].numLocals == 0
    requires var s := Start(B.P, 1, []); s.Running? && s.ip == Ip(1, 0) && DataOnFull(B, s, 1)
    ensures Turns(B.Img(), C, Launch(B, Entry(1, []), [v], 0), 1) == Crash
  {
    hide WellBuilt, Matches, Turn, Launch, Start, DataOnFull, HeaderFits, CallFits;
    DataBuildParts(B);
    LaunchMatches(B, Entry(1, []), [v], 0);
    FullCrashes(B, C, Start(B.P, 1, []), Launch(B, Entry(1, []), [v], 0), [v], 0);
    OneTurn(B.Img(), C, Launch(B, Entry(1, []), [v], 0));
  }

  lemma DataRun()
    ensures DataBuild().P == DataCaller() && DataCaller().IsInterpreted(1) && DataCaller().words[1].numLocals == 0
    ensures var s := Start(DataCaller(), 1, []);
            && s.Running? && DataOnFull(DataBuild(), s, 1) && s.ip == Ip(1, 0)
            && Run(DataCaller(), s, 2) == Exited([Blob(0, 0)])
  {
    hide Step, ReturnSlots, Run, Start, Cost;
    var P := DataCaller();
    var s := Running(Ip(1, 0), [], [Frame(None, [], {})]);
    DataSteps();
    DataRunSteps(P, s);
  }

  lemma DataRunSteps(P: Program, s: State)
    ensures Run(P, s, 2) == Step(P, Step(P, s))
  {
    hide Step;
    assert Run(P, s, 1) == Step(P, Run(P, s, 0));
  }

  lemma DataSteps()
    ensures var P, s := DataCaller(), Running(Ip(1, 0), [], [Frame(None, [], {})]);
            && Start(P, 1, []) == s && Cost(P, s) == 3 && ReturnSlots(s.frames) == 1
            && Step(P, Step(P, s)) == Exited([Blob(0, 0)])
  {
    hide Step, ReturnSlots, Cost;
    var P, frames := DataCaller(), [Frame(None, [], {})];
    assert [] + [Frame(None, Zeros(0), {})] == frames;
    OneFrame(frames);
    DataFirst(P, frames);
    DataSecond(P, frames);
  }

  lemma OneFrame(frames: seq<Frame>)
    requires frames == [Frame(None, [], {})]
    ensures ReturnSlots(frames) == 1
  {
    assert frames[..0] == [];
  }

  lemma DataFirst(P: Program, frames: seq<Frame>)
    requires |P.words| == 2 && P.words[0] == Data(0, 0) && P.words[1] == Interpreted(0, [Call(0), Ret], UNKNOWN)
    ensures var s := Running(Ip(1, 0), [], frames);
            Cost(P, s) == 3 && Step(P, s) == Running(Ip(1, 1), [Blob(0, 0)], frames)
  {
    assert P.Code(1)[0] == Call(0);
  }

  lemma DataSecond(P: Program, frames: seq<Frame>)
    requires |P.words| == 2 && P.words[1] == Interpreted(0, [Call(0), Ret], UNKNOWN)
    requires |frames| == 1 && frames[0].saved.None?
    ensures Step(P, Running(Ip(1, 1), [Blob(0, 0)], frames)) == Exited([Blob(0, 0)])
  {
    assert P.Code(1)[1] == Ret;
  }

  lemma DataBuildParts(B: Build)
    requires WellBuilt(B)
    ensures Coded(B) && HeaderFits(B, 1) && CallFits(B, Ip(1, 0))
  {
    hide Coded, HeaderFits, CallFits;
  }

  // ----- return addresses over 16 bits -----

  /** A table entry is the address of the header exactly when that address has 16 bits. */
  lemma TableEntry(B: Build, w: nat)
    requires Coded(B) && B.P.IsWord(w) && !B.P.words[w].Native?
    ensures B.L.base <= B.L.SlotOf(w) < B.L.base + |B.caddr|
    ensures B.caddr[B.L.SlotOf(w) - B.L.base] == HeaderAddress(B, w) <==> HeaderFits(B, w)
  {
    hide Coded;
    SlotFacts(B, w);
  }

  /** After a return the position has 16 bits. */
  lemma ReturnIsShort(ds: seq<Word32>, rmem: seq<Word32>, rp: nat)
    ensures Return(ds, rmem, rp).Active? ==> Return(ds, rmem, rp).ip < 0x1_0000
  {}

  lemma RpInside(B: Build, s: State, m: Machine, rmem0: seq<Word32>, rp0: nat)
    requires Matches(B, s, m, rmem0, rp0) && s.Running?
    ensures m.Active? && m.rp <= |m.rmem|
  {
    hide FramesHeld;
    FramesKept(B, s.frames, m.rmem, m.rmem, m.rp, rp0);
  }

  /** A call of a word that returns at once comes back, to the same place and with the same
      return stack, exactly when the address behind the call has 16 bits. */
  lemma CallReturns(B: Build, C: Snippets, s: State, m: Machine, rmem0: seq<Word32>, rp0: nat, w: nat)
    requires Coded(B) && s.Running? && Matches(B, s, m, rmem0, rp0) && InCode(B.P, s.ip)
    requires B.P.Code(s.ip.word)[s.ip.off] == Call(w) && B.P.IsInterpreted(w) && B.P.Code(w) == [Ret]
    requires HeaderFits(B, w) && m.Active? && m.rp + B.P.words[w].numLocals < |m.rmem|
    ensures Matches(B, Step(B.P, Step(B.P, s)), Turns(B.Img(), C, m, 2), rmem0, rp0)
            <==> AddressOf(B, Ip(s.ip.word, s.ip.off + 1)) < 0x1_0000
  {
    hide Coded, Turn, Gcode, CodeBytes, AddressOf, StartOf, HeaderAddress, FramesHeld, At;
    var Running(ip, stack, frames) := s;
    var next := Ip(ip.word, ip.off + 1);
    var s1 := Step(B.P, s);
    assert s1 == Enter(B.P, w, Some(next), stack, frames);
    assert Step(B.P, s1) == Running(next, stack, frames) by {
      assert (frames + [Frame(Some(next), Zeros(B.P.words[w].numLocals), {})])[..|frames|] == frames;
    }
    CallThenRet(B, C, s, m, rmem0, rp0, w);
    if AddressOf(B, next) < 0x1_0000 {
      StepSimulated(B, C, s, m, rmem0, rp0);
      RpInside(B, s1, Turns(B.Img(), C, m, 1), rmem0, rp0);
      StepSimulated(B, C, s1, Turns(B.Img(), C, m, 1), rmem0, rp0);
      TurnsCompose(B.Img(), C, m, 1, 1);
    }
  }

  lemma CallThenRet(B: Build, C: Snippets, s: State, m: Machine, rmem0: seq<Word32>, rp0: nat, w: nat)
    requires Coded(B) && s.Running? && Matches(B, s, m, rmem0, rp0) && InCode(B.P, s.ip)
    requires B.P.Code(s.ip.word)[s.ip.off] == Call(w) && B.P.IsInterpreted(w) && B.P.Code(w) == [Ret]
    requires HeaderFits(B, w) && m.Active? && m.rp + B.P.words[w].numLocals < |m.rmem|
    ensures Turns(B.Img(), C, m, 2).Active? ==> Turns(B.Img(), C, m, 2).ip < 0x1_0000
  {
    hide Coded, Turn, Gcode, CodeBytes, StartOf, FramesHeld, At, HeaderAddress;
    var img := B.Img();
    var nl := B.P.words[w].numLocals;
    var to := AddressOf(B, Ip(s.ip.word, s.ip.off + 1));
    var body := AddressOf(B, Ip(w, 0));
    FacingOpcode(B, s.ip, s.stack, s.frames, m, rmem0, rp0);
    SlotFacts(B, w);
    HeaderAt(B, w);
    TurnCall(img, C, m, to, B.L.SlotOf(w));
    Entered(img, B.L.SlotOf(w), to, m.ds, m.rmem, m.rp, HeaderAddress(B, w), body, nl);
    var m1 := Turn(img, C, m);
    OpcodeAt(B, Ip(w, 0));
    TurnRet(img, C, m1, AddressOf(B, Ip(w, 1)));
    ReturnIsShort(m1.ds, m1.rmem, m1.rp);
    OneTurn(img, C, m);
    assert Turns(img, C, m, 2) == Turn(img, C, Turns(img, C, m, 1));
  }

  /** Word 1 pushes n constants, calls word 0, which returns at once, and returns. */
  function LongCaller(n: nat): Program {
    Program([Interpreted(0, [Ret], UNKNOWN), Interpreted(0, seq(n, _ => Const(ZERO)) + [Call(0), Ret], UNKNOWN)],
            (w, args) => [])
  }

  function Caller(): Entry { Entry(1, []) }

  function Pushing(k: nat): State { Running(Ip(1, k), Zeros(k), [Frame(None, [], {})]) }

  lemma LongStart(n: nat)
    ensures LongCaller(n).IsInterpreted(1) && Start(LongCaller(n), 1, []) == Pushing(0)
  {
    assert [] + [Frame(None, Zeros(0), {})] == [Frame(None, [], {})];
  }

  lemma LongStep(n: nat, k: nat)
    requires k < n
    ensures InCode(LongCaller(n), Ip(1, k)) && LongCaller(n).Code(1)[k] == Const(ZERO)
    ensures Step(LongCaller(n), Pushing(k)) == Pushing(k + 1)
  {
    assert Zeros(k) + [ZERO] == Zeros(k + 1);
  }

  lemma LongHeaders(B: Build, n: nat)
    requires Coded(B) && B.P == LongCaller(n)
    ensures HeaderFits(B, 0) && HeaderFits(B, 1)
  {
    hide SlotsLinked, ClosedJumps, LocalsFit, WellScoped, OneByteFits, CodeBytes;
    var word := [EUInt(0), EUInt(0)];
    assert Gcode(B.P, B.L, 0) == [];
    assert WordElems(B.P, B.L, 0, 0) == word;
    assert Gcode(B.P, B.L, 1) == word;
    FirstTwo(B, word, n);
  }

  lemma FirstTwo(B: Build, word: seq<Elem>, n: nat)
    requires Coded(B) && B.P == LongCaller(n) && Gcode(B.P, B.L, 1) == word == [EUInt(0), EUInt(0)]
    ensures Sum(B.lens, 2) == 2
  {
    hide SlotsLinked, ClosedJumps, LocalsFit, WellScoped, OneByteFits, CodeBytes, SelfConsistent, WordElems;
    assert |B.lens| == |B.Elems()| by { Shape(B); }
    assert B.Elems()[..2] == word;
    assert B.Elems()[0] == B.Elems()[..2][0] && B.Elems()[1] == B.Elems()[..2][1];
    LengthHeld(B.Elems(), B.lens, B.one, 0);
    LengthHeld(B.Elems(), B.lens, B.one, 1);
    assert ULen(0) == 1;
    assert Sum(B.lens, 1) == Sum(B.lens, 0) + B.lens[0] && Sum(B.lens, 2) == Sum(B.lens, 1) + B.lens[1];
  }

  /** The emitted code follows the run through all constants. */
  lemma {:induction false} LongFollowed(B: Build, C: Snippets, n: nat, rmem0: seq<Word32>, rp0: nat, k: nat)
    requires Coded(B) && B.P == LongCaller(n) && rp0 < |rmem0| && k <= n
    ensures Steps(B, Caller(), k) == Pushing(k)
    ensures Matches(B, Pushing(k), Turns(B.Img(), C, Launch(B, Caller(), rmem0, rp0), k), rmem0, rp0)
  {
    hide Coded, Matches, Turn, Launch, LongCaller, Step, Start, HeaderFits;
    LongStart(n);
    var m0 := Launch(B, Caller(), rmem0, rp0);
    if k == 0 {
      LongNoLocals(n);
      LongHeaders(B, n);
      LaunchMatches(B, Caller(), rmem0, rp0);
      assert Turns(B.Img(), C, m0, 0) == m0;
    } else {
      LongFollowed(B, C, n, rmem0, rp0, k - 1);
      LongStep(n, k - 1);
      var m := Turns(B.Img(), C, m0, k - 1);
      RpInside(B, Pushing(k - 1), m, rmem0, rp0);
      StepSimulated(B, C, Pushing(k - 1), m, rmem0, rp0);
      OneTurn(B.Img(), C, m);
    }
  }

  lemma LongNoLocals(n: nat)
    ensures LongCaller(n).IsInterpreted(1) && LongCaller(n).words[1].numLocals == 0
  {}

  lemma {:induction false} SumAtLeast(lens: seq<nat>, i: nat)
    requires i <= |lens| && Positive(lens)
    ensures Sum(lens, i) >= i
  {
    if i > 0 { SumAtLeast(lens, i - 1); }
  }

  lemma LongAddress(B: Build, n: nat)
    requires Coded(B) && B.P == LongCaller(n)
    ensures AddressOf(B, Ip(1, n + 1)) > n
  {
    hide SlotsLinked, ClosedJumps, LocalsFit, WellScoped, OneByteFits, CodeBytes, Gcode, StartOf;
    var ip := Ip(1, n + 1);
    assert InCode(B.P, ip);
    CodeElem(B, ip);
    assert Positive(Pass(B.Elems(), B.one, B.lens));
    SumAtLeast(B.lens, IndexOf(B, ip));
  }

  /** However the program is linked: after its call the opcode machine goes on behind the call, and
      the emitted code does so exactly when that address has 16 bits. From 65536 constants on it
      never has. */
  lemma LongReturn(B: Build, C: Snippets, n: nat, rmem0: seq<Word32>, rp0: nat)
    requires Coded(B) && B.P == LongCaller(n) && rp0 + 2 <= |rmem0| && B.P.IsInterpreted(1)
    ensures Steps(B, Caller(), n + 2) == Running(Ip(1, n + 1), Zeros(n), [Frame(None, [], {})])
    ensures Matches(B, Steps(B, Caller(), n + 2), Turns(B.Img(), C, Launch(B, Caller(), rmem0, rp0), n + 2), rmem0, rp0)
            <==> AddressOf(B, Ip(1, n + 1)) < 0x1_0000
    ensures n >= 0x1_0000 ==> AddressOf(B, Ip(1, n + 1)) >= 0x1_0000
  {
    hide *;
    LongFollowed(B, C, n, rmem0, rp0, n);
    LongAddress(B, n);
    var m0 := Launch(B, Caller(), rmem0, rp0);
    LongBack(B, C, n, Turns(B.Img(), C, m0, n), rmem0, rp0);
    TurnsCompose(B.Img(), C, m0, n, 2);
    LongCallAndBack(n);
    TwoSteps(B, n);
  }

  lemma TwoSteps(B: Build, n: nat)
    requires B.P.IsInterpreted(1)
    ensures Steps(B, Caller(), n + 2) == Step(B.P, Step(B.P, Steps(B, Caller(), n)))
  {
    hide Step, Start;
    assert Steps(B, Caller(), n + 1) == Step(B.P, Steps(B, Caller(), n));
  }

  lemma LongBack(B: Build, C: Snippets, n: nat, m: Machine, rmem0: seq<Word32>, rp0: nat)
    requires Coded(B) && B.P == LongCaller(n) && rp0 + 2 <= |rmem0| && Matches(B, Pushing(n), m, rmem0, rp0)
    ensures Matches(B, Step(B.P, Step(B.P, Pushing(n))), Turns(B.Img(), C, m, 2), rmem0, rp0)
            <==> AddressOf(B, Ip(1, n + 1)) < 0x1_0000
  {
    hide Coded, Matches, Turn, HeaderFits, AddressOf, Step;
    LongHeaders(B, n);
    RpInUse(B, Pushing(n), m, rmem0, rp0);
    assert ReturnSlots([Frame(None, [], {})]) == 1 by { assert [Frame(None, [], {})][..0] == []; }
    CallReturns(B, C, Pushing(n), m, rmem0, rp0, 0);
  }

  lemma LongCallAndBack(n: nat)
    ensures Step(LongCaller(n), Step(LongCaller(n), Pushing(n)))
            == Running(Ip(1, n + 1), Zeros(n), [Frame(None, [], {})])
  {
    var f := Frame(Some(Ip(1, n + 1)), Zeros(0), {});
    assert ([Frame(None, [], {})] + [f])[..1] == [Frame(None, [], {})];
  }

  /** Code of less than 65536 bytes has only such addresses. */
  lemma ShortCodeFits(B: Build)
    requires Coded(B) && Sum(B.lens, |B.lens|) < 0x1_0000
    ensures WellBuilt(B)
  {
    hide Coded, Gcode, StartOf;
    forall w: nat
      ensures HeaderFits(B, w)
    {
      if B.P.IsWord(w) && StartOf(B.P, B.L, w) <= |B.lens| { SumOrder(B.lens, StartOf(B.P, B.L, w), |B.lens|); }
    }
    forall ip: Ip
      ensures CallFits(B, ip)
    {
      if InCode(B.P, ip) {
        var next := Ip(ip.word, ip.off + 1);
        if 0 <= IndexOf(B, next) <= |B.lens| { SumOrder(B.lens, IndexOf(B, next), |B.lens|); }
      }
    }
  }

  // ----- a local read before it is written -----

  ghost predicate FrameFresh(f: Frame) {
    forall n: nat {:trigger f.locals[n]} :: n < |f.locals| && n !in f.written ==> f.locals[n] == ZERO
  }

  /** Locals never written are 0. */
  ghost predicate FreshAreZero(s: State) {
    s.Running? ==> forall f {:trigger FrameFresh(f)} :: f in s.frames ==> FrameFresh(f)
  }

  lemma StepFresh(P: Program, s: State)
    requires FreshAreZero(s)
    ensures FreshAreZero(Step(P, s))
  {
    if s.Running? && InCode(P, s.ip) && |s.frames| > 0 {
      var top := |s.frames| - 1;
      assert s.frames[top] in s.frames && FrameFresh(s.frames[top]);
    }
  }

  lemma {:induction false} RunFresh(P: Program, w: nat, stack: seq<Value>, n: nat)
    requires P.IsInterpreted(w)
    ensures FreshAreZero(Run(P, Start(P, w, stack), n))
  {
    hide FreshAreZero, Step;
    if n == 0 {
      StartFresh(P, w, stack);
    } else {
      RunFresh(P, w, stack, n - 1);
      StepFresh(P, Run(P, Start(P, w, stack), n - 1));
    }
  }

  lemma StartFresh(P: Program, w: nat, stack: seq<Value>)
    requires P.IsInterpreted(w)
    ensures FreshAreZero(Start(P, w, stack))
  {}

  /** At any moment of a run: when a local is read that was not written, the emitted code goes on
      like the opcode machine exactly when the cell happens to hold 0. */
  lemma UnwrittenRead(B: Build, C: Snippets, env: Entry, k: nat, m: Machine, rmem0: seq<Word32>, rp0: nat, n: nat)
    requires Coded(B) && B.P.IsInterpreted(env.word) && Matches(B, Steps(B, env, k), m, rmem0, rp0)
    requires var s := Steps(B, env, k);
             && s.Running? && InCode(B.P, s.ip) && B.P.Code(s.ip.word)[s.ip.off] == GetLocal(n)
             && |s.frames| > 0 && n < |s.frames[|s.frames| - 1].locals| && n !in s.frames[|s.frames| - 1].written
    ensures m.Active? && 0 <= m.rp - 2 - n < |m.rmem|
    ensures Matches(B, Steps(B, env, k + 1), Turn(B.Img(), C, m), rmem0, rp0) <==> m.rmem[m.rp - 2 - n] == 0
  {
    hide Coded, Turn, At, FramesHeld, Gcode, CodeBytes, StartOf, Run, Start;
    var s := Steps(B, env, k);
    var top := |s.frames| - 1;
    RunFresh(B.P, env.word, env.stack, k);
    assert s.frames[top] in s.frames && FrameFresh(s.frames[top]);
    assert s.frames[top].locals[n] == ZERO;
    NextStep(B, env, k);
    ReadCell(B, C, s, m, rmem0, rp0, n);
  }

  lemma NextStep(B: Build, env: Entry, k: nat)
    requires B.P.IsInterpreted(env.word)
    ensures Steps(B, env, k + 1) == Step(B.P, Steps(B, env, k))
  {}

  /** Reading a local pushes the word in its cell. */
  lemma ReadCell(B: Build, C: Snippets, s: State, m: Machine, rmem0: seq<Word32>, rp0: nat, n: nat)
    requires Coded(B) && Matches(B, s, m, rmem0, rp0) && s.Running? && InCode(B.P, s.ip)
    requires B.P.Code(s.ip.word)[s.ip.off] == GetLocal(n)
    requires |s.frames| > 0 && n < |s.frames[|s.frames| - 1].locals|
    ensures m.Active? && 0 <= m.rp - 2 - n < |m.rmem|
    ensures Matches(B, Step(B.P, s), Turn(B.Img(), C, m), rmem0, rp0)
            <==> m.rmem[m.rp - 2 - n] == B.L.Lower(s.frames[|s.frames| - 1].locals[n])
  {
    hide Coded, Turn, At, FramesHeld, Gcode, CodeBytes, StartOf, Link.Lower;
    var top := |s.frames| - 1;
    FacingOpcode(B, s.ip, s.stack, s.frames, m, rmem0, rp0);
    FramesSplit(B, s.frames, m.rmem, m.rp, rp0);
    assert FrameHeld(B, s.frames[top], m.rmem, m.rp);
    TurnGet(B.Img(), C, m, AddressOf(B, Ip(s.ip.word, s.ip.off + 1)), n);
    LowerPush(B.L, s.stack, s.frames[top].locals[n]);
    var cell := m.rmem[m.rp - 2 - n];
    assert (m.ds + [cell])[|m.ds|] == cell;
  }
}
