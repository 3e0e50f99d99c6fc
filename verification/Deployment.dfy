// The emitted interpreter in buffers of the announced sizes.

module Deployment {
  import opened Arith
  import opened Wrappers
  import opened StackEffect
  import opened Programs
  import opened OpMachine
  import opened FlowSpec
  import opened FlowSound
  import opened Linking
  import opened ByteMachine
  import opened Simulation
  import opened Correctness
  import opened Interpreter
  import opened Discipline
  import Slots

  /** The step during which turn t happens. */
  lemma {:induction false} Locate(B: Build, env: Entry, t: nat) returns (n: nat)
    requires B.P.IsInterpreted(env.word)
    ensures n <= t && Time(B, env, n) <= t < Time(B, env, n + 1)
  {
    hide Steps, Cost;
    CostPositive(B.P, Steps(B, env, 0));
    if t == 0 {
      n := 0;
    } else {
      n := Locate(B, env, t - 1);
      if t >= Time(B, env, n + 1) {
        CostPositive(B.P, Steps(B, env, n + 1));
        n := n + 1;
      }
    }
  }

  lemma CostPositive(P: Program, s: State)
    ensures Cost(P, s) == 1 || Cost(P, s) == 3
  {}

  lemma DataPushes(P: Program, s: State)
    requires Cost(P, s) == 3
    ensures s.Running? && Depth(Step(P, s)) == Depth(s) + 1
  {}

  lemma SameDepth(B: Build, s: State, m: Machine, rmem0: seq<Word32>, rp0: nat)
    requires Matches(B, s, m, rmem0, rp0) && s.Running?
    ensures m.Active? && |m.ds| == Depth(s)
  {
    hide FramesHeld;
  }

  lemma StepsFit(B: Build, M: Summaries, A: FlowSound.Annotations, env: Entry, rmem0: seq<Word32>, rp0: nat, n: nat,
                 g: nat)
    requires Launchable(B, M, A, env, rmem0, rp0) && B.P.IsInterpreted(env.word) && CallsWithin(B.P, M, A, g)
    ensures Depth(Steps(B, env, n)) <= |env.stack| + M[env.word].maxData + g
    ensures Steps(B, env, n + 1) == Step(B.P, Steps(B, env, n))
    ensures Sound(B.P, M, A, env, Steps(B, env, n)) && Sound(B.P, M, A, env, Steps(B, env, n + 1))
  {
    hide WellBuilt, Certified, NativesConform, WellScoped, Sound, CallsWithin, Depth, Step;
    DataStackBound(B.P, M, A, env, n, g);
    RunSound(B.P, M, A, env, n);
    RunSound(B.P, M, A, env, n + 1);
  }

  /** At every turn, inside calls of data words too, the data stack of the byte machine is within
      the bound that the flow analysis gives. */
  lemma DepthAtTurn(B: Build, C: Snippets, M: Summaries, A: FlowSound.Annotations, env: Entry, rmem0: seq<Word32>,
                    rp0: nat, t: nat, g: nat)
    requires Launchable(B, M, A, env, rmem0, rp0) && B.P.IsInterpreted(env.word) && CallsWithin(B.P, M, A, g)
    requires AllFaithful(B, C, env, t + 1)
    ensures var m := Turns(B.Img(), C, Launch(B, env, rmem0, rp0), t);
            m.Active? ==> |m.ds| <= |env.stack| + M[env.word].maxData + g
  {
    hide Launchable, Startable, StepFits, CallsWithin, Launch, Turns, Steps, Matches, Sound, ThroughData, Cost,
         Depth, Faithful, Step;
    var m0 := Launch(B, env, rmem0, rp0);
    var n := Locate(B, env, t);
    var at := Time(B, env, n);
    var s := Steps(B, env, n);
    var m := Turns(B.Img(), C, m0, at);
    RunsMatchHere(B, C, M, A, env, rmem0, rp0, n);
    if s.Running? {
      StepsFit(B, M, A, env, rmem0, rp0, n, g);
      StepsFit(B, M, A, env, rmem0, rp0, n + 1, g);
      SameDepth(B, s, m, rmem0, rp0);
      if t > at {
        CostPositive(B.P, s);
        StepHere(B, C, M, A, env, s, m, rmem0, rp0);
        DataPushes(B.P, s);
        Between(B.Img(), C, m0, at, t);
      }
    } else {
      MatchesEnded(B, s, m, rmem0, rp0);
      EndsForGood(B.Img(), C, m0, at, t);
    }
  }

  lemma RunsMatchHere(B: Build, C: Snippets, M: Summaries, A: FlowSound.Annotations, env: Entry, rmem0: seq<Word32>,
                      rp0: nat, n: nat)
    requires Launchable(B, M, A, env, rmem0, rp0) && B.P.IsInterpreted(env.word) && AllFaithful(B, C, env, n + 1)
    ensures Matches(B, Steps(B, env, n), Turns(B.Img(), C, Launch(B, env, rmem0, rp0), Time(B, env, n)), rmem0, rp0)
    ensures Faithful(B, C, Steps(B, env, n))
    ensures Startable(B, M, A, env, rmem0, rp0) && StepFits(B, Steps(B, env, n), |rmem0| - rp0)
  {
    hide Launchable, Startable, StepFits, Launch, Turns, Steps, Matches, Faithful, Time;
    LaunchableFits(B, M, A, env, rmem0, rp0, n + 1);
    RunsMatch(B, C, M, A, env, rmem0, rp0, n);
  }

  lemma StepHere(B: Build, C: Snippets, M: Summaries, A: FlowSound.Annotations, env: Entry, s: State, m: Machine,
                 rmem0: seq<Word32>, rp0: nat)
    requires Startable(B, M, A, env, rmem0, rp0) && StepFits(B, s, |rmem0| - rp0)
    requires Matches(B, s, m, rmem0, rp0) && Faithful(B, C, s)
    requires Sound(B.P, M, A, env, s) && Sound(B.P, M, A, env, Step(B.P, s))
    ensures s.Running? && Cost(B.P, s) == 3 ==> ThroughData(B.Img(), C, m)
  {
    hide *;
    StepOrStay(B, C, M, A, env, s, m, rmem0, rp0);
  }

  /** Turn t, one or two turns into the call of a data word. */
  lemma Between(img: Image, C: Snippets, m0: Machine, at: nat, t: nat)
    requires at < t <= at + 2 && ThroughData(img, C, Turns(img, C, m0, at))
    ensures Turns(img, C, m0, t).Active? && |Turns(img, C, m0, t).ds| <= |Turns(img, C, m0, at).ds| + 1
  {
    hide Turns;
    TurnsCompose(img, C, m0, at, t - at);
  }

  /** T0_DEFENTRY and then n turns of the run function, for a disciplined program. With a data-stack
      buffer for the arguments, maxDataStack and what calls of native and data words end above it,
      and a return-stack buffer for MaxReturnStack and a data word's cell where one is needed, no
      buffer is overrun and no access goes astray; and when the run function returns, the opcode
      machine has returned with the same data stack, the return stack is back where it was and the
      cells below it are untouched. */
  method RunEntry(c: Context, slot: nat, ghost B: Build, ghost M: Summaries, ghost A: FlowSound.Annotations,
                  ghost env: Entry, ghost blocks: seq<seq<Byte>>, ghost dom: Domain, ghost D: Written, ghost g: nat,
                  n: nat)
    returns (how: Ending)
    requires c.Valid() && c.img == B.Img() && B.P.IsInterpreted(env.word) && slot == B.L.SlotOf(env.word)
    requires c.Stack() == B.L.LowerAll(env.stack) && Launchable(B, M, A, env, c.rmem[..], c.rp)
    requires |env.stack| + M[env.word].maxData + g <= c.dmem.Length && CallsWithin(B.P, M, A, g)
    requires B.L.blocks == Slots.Addresses(blocks) && |Slots.DataBytes(blocks, |blocks|)| < 0x8000_0000
    requires Disciplined(B.P, blocks, dom, D) && SnippetsFollow(B, c.C, dom) && AllIn(dom, env.stack)
    modifies c`ip, c`rp, c`dp, c.dmem, c.rmem
    ensures c.Valid() && how != Wild && how != Overflow
    ensures how == Returned ==>
              && Steps(B, env, n).Exited? && c.Stack() == B.L.LowerAll(Steps(B, env, n).stack)
              && c.rp == old(c.rp) && c.rmem[..c.rp] == old(c.rmem[..c.rp])
    ensures how == Elsewhere ==> Steps(B, env, n).Halted?
  {
    hide Launchable, Startable, CallsWithin, AllFaithful, AllFit, EndedLike, Turns, Steps, EnterSlot, Disciplined,
         SnippetsFollow, Slots.DataBytes, Slots.Addresses;
    ghost var rmem0, rp0 := c.rmem[..], c.rp;
    ghost var m0 := Launch(B, env, rmem0, rp0);
    LaunchFollows(B, c.C, M, A, env, rmem0, rp0, blocks, dom, D, n + 1);
    c.ip := 0;
    EntryActive(B, M, A, env, rmem0, rp0);
    how := c.Enter(slot);
    assert c.View() == m0;
    forall k: nat | k <= n && Turns(c.img, c.C, m0, k).Active?
      ensures |Turns(c.img, c.C, m0, k).ds| <= c.dmem.Length
    {
      FewerFaithful(B, c.C, env, k + 1, n + 1);
      DepthAtTurn(B, c.C, M, A, env, rmem0, rp0, k, g);
    }
    how := c.Run(n);
    FewerFaithful(B, c.C, env, n, n + 1);
    LaunchableFits(B, M, A, env, rmem0, rp0, n);
    CompilerCorrect(B, c.C, M, A, env, rmem0, rp0, n);
    NeverDeeper(B, c.C, M, A, env, rmem0, rp0, n, g, c.dmem.Length);
    Ends(B, Steps(B, env, n), Turns(c.img, c.C, m0, n), rmem0, rp0);
  }

  lemma LaunchFollows(B: Build, C: Snippets, M: Summaries, A: FlowSound.Annotations, env: Entry, rmem0: seq<Word32>,
                      rp0: nat, blocks: seq<seq<Byte>>, dom: Domain, D: Written, n: nat)
    requires Launchable(B, M, A, env, rmem0, rp0) && B.P.IsInterpreted(env.word)
    requires B.L.blocks == Slots.Addresses(blocks) && |Slots.DataBytes(blocks, |blocks|)| < 0x8000_0000
    requires Disciplined(B.P, blocks, dom, D) && SnippetsFollow(B, C, dom) && AllIn(dom, env.stack)
    ensures AllFaithful(B, C, env, n)
  {
    hide Admissible, SlotsLinked, AddressesFit, Disciplined, SnippetsFollow, AllFaithful, Slots.DataBytes,
         Slots.Addresses;
    DisciplinedRuns(B, C, blocks, dom, D, env, n);
  }

  lemma EntryActive(B: Build, M: Summaries, A: FlowSound.Annotations, env: Entry, rmem0: seq<Word32>, rp0: nat)
    requires Launchable(B, M, A, env, rmem0, rp0) && B.P.IsInterpreted(env.word)
    ensures Launch(B, env, rmem0, rp0)
            == EnterSlot(B.Img(), B.L.SlotOf(env.word), 0, B.L.LowerAll(env.stack), rmem0, rp0)
    ensures Launch(B, env, rmem0, rp0).Active?
  {
    hide Launchable, Coded, Admissible, FramesHeld, EnterSlot;
    LaunchableFits(B, M, A, env, rmem0, rp0, 0);
    CellsForEntry(B, M, A, env, rmem0, rp0);
    LaunchMatches(B, env, rmem0, rp0);
  }

  lemma FewerFaithful(B: Build, C: Snippets, env: Entry, k: nat, n: nat)
    requires B.P.IsInterpreted(env.word) && AllFaithful(B, C, env, n) && k <= n
    ensures AllFaithful(B, C, env, k)
  {}

  lemma NeverDeeper(B: Build, C: Snippets, M: Summaries, A: FlowSound.Annotations, env: Entry, rmem0: seq<Word32>,
                    rp0: nat, n: nat, g: nat, room: nat)
    requires Launchable(B, M, A, env, rmem0, rp0) && B.P.IsInterpreted(env.word) && CallsWithin(B.P, M, A, g)
    requires AllFaithful(B, C, env, n + 1) && |env.stack| + M[env.word].maxData + g <= room
    ensures var m := Turns(B.Img(), C, Launch(B, env, rmem0, rp0), n);
            m.Active? ==> |m.ds| <= room
  {
    hide *;
    DepthAtTurn(B, C, M, A, env, rmem0, rp0, n, g);
  }

  /** What EndedLike says of each way to end. */
  lemma Ends(B: Build, s: State, m: Machine, rmem0: seq<Word32>, rp0: nat)
    requires EndedLike(B, s, m, rmem0, rp0)
    ensures m != Crash && (m == Away ==> s.Halted?)
    ensures m.Stopped? ==>
              && s.Exited? && m.ds == B.L.LowerAll(s.stack) && m.rp == rp0
              && |m.rmem| == |rmem0| && rp0 <= |rmem0| && m.rmem[..rp0] == rmem0[..rp0]
  {}
}
