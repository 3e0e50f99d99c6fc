// WordInterpreted.AnalyseFlow: the worklist over the opcodes of a word, recursing into the
// words it calls.

module FlowAnalysis {
  import opened Wrappers
  import opened StackEffect
  import opened Programs
  import opened FlowSpec
  import opened FlowPaths
  import opened FlowWork
  import opened FlowQueue
  import opened Arith

  /** The field flowAnalysis of a word (absent: 0) with what the analysis stored beside it. */
  datatype Status = InProgress | Done(sum: Summary)

  datatype Reason =
    | Recursion | NoSuchWord | UnknownEffect | StackMismatch | ExitMismatch
    | OutsideCode | WorklistFull | EffectMismatch

  /** An analysis ends normally or with an exception. */
  datatype Verdict = Accepted | Rejected(reason: Reason)

  function Untouched(P: Program, status: map<nat, Status>): set<int> {
    (set w {:trigger w in status} | 0 <= w < |P.words| && w !in status)
  }

  /** What the worklist loop establishes when it ends normally. */
  ghost predicate Analysis(P: Program, M: Summaries, w: nat, x: Extremes, sa: Annotation, rank: seq<nat>) {
    && P.IsInterpreted(w)
    && LiveIsReached(P, M, P.Code(w), sa)
    && Consistent(P, M, P.Code(w), sa)
    && Seen(P, M, P.Code(w), sa, x)
    && (forall p: nat {:trigger Live(sa, p)} :: Live(sa, p) ==> Bounds(P, M, P.Code(w), sa, x, p))
    && (x.exit.Some? ==> x.low <= x.exit.value)
    && JumpsRise(P.Code(w), sa, rank)
  }

  datatype Merge = Fresh | Same | Conflict | Outside

  function Finished(status: map<nat, Status>): Summaries {
    map w | w in status && status[w].Done? :: status[w].sum
  }

  /** The analysis fields are consistent: finished words are justified, the words in progress
      are those on the stack of active analyses. */
  ghost predicate Good(P: Program, status: map<nat, Status>, active: seq<nat>) {
    && Coherent(P, Finished(status)) && Drained(P, Finished(status))
    && (forall w {:trigger P.IsInterpreted(w)} :: w in status ==> P.IsInterpreted(w))
    && (forall w {:trigger w in active} :: w in active <==> w in status && status[w].InProgress?)
    && CallStack(P, Finished(status), active)
  }

  lemma GoodCoherent(P: Program, status: map<nat, Status>, active: seq<nat>)
    requires Good(P, status, active)
    ensures Coherent(P, Finished(status))
  {}

  lemma GoodStart(P: Program)
    ensures Good(P, map[], [])
  {}

  lemma GoodBegin(P: Program, status: map<nat, Status>, active: seq<nat>, w: nat)
    requires Good(P, status, active) && w !in status && P.IsInterpreted(w)
    requires CallStack(P, Finished(status), active + [w])
    ensures Finished(status[w := InProgress]) == Finished(status)
    ensures Good(P, status[w := InProgress], active + [w])
  {
    assert Finished(status[w := InProgress]) == Finished(status);
  }

  lemma GoodRecursion(P: Program, status: map<nat, Status>, active: seq<nat>, w: nat)
    requires Good(P, status, active) && w in status && status[w].InProgress?
    requires CallStack(P, Finished(status), active + [w])
    ensures Hopeless(P, Finished(status), w)
  {
    assert w in active;
    forall k | 0 <= k < |active|
      ensures P.IsInterpreted(active[k])
    {
      assert active[k] in active;
    }
    HopelessRecursion(P, Finished(status), active, w);
  }

  function SummaryOf(P: Program, w: nat, x: Extremes): Summary
    requires P.IsInterpreted(w)
  {
    var declared := P.words[w].declared;
    Summary(if declared.IsKnown() then declared else Computed(x), x.high, 1 + P.words[w].numLocals + x.ret)
  }

  lemma AnalysisDescribes(P: Program, M: Summaries, w: nat, x: Extremes, sa: Annotation, rank: seq<nat>)
    requires Analysis(P, M, w, x, sa, rank)
    requires P.words[w].declared.IsKnown() ==> Computed(x).IsSubOf(P.words[w].declared)
    ensures P.IsInterpreted(w) && Describes(P, M, w, sa, x, SummaryOf(P, w, x))
  {
    hide Consistent, Bounds, JumpsRise, LiveIsReached;
  }

  lemma CoherentPublish(P: Program, M: Summaries, w: nat, x: Extremes, sa: Annotation, rank: seq<nat>)
    requires Coherent(P, M) && w !in M && Analysis(P, M, w, x, sa, rank)
    requires P.words[w].declared.IsKnown() ==> Computed(x).IsSubOf(P.words[w].declared)
    ensures Coherent(P, M[w := SummaryOf(P, w, x)])
  {
    hide Describes, Computed, Analysis;
    AnalysisDescribes(P, M, w, x, sa, rank);
    var sum := SummaryOf(P, w, x);
    var M' := M[w := sum];
    forall u | u in M'
      ensures Justified(P, M', u)
    {
      if u == w {
        DescribesExtends(P, M, M', w, sa, x, sum);
      } else {
        assert Justified(P, M, u);
        var sa', x' :| Describes(P, M, u, sa', x', M[u]);
        DescribesExtends(P, M, M', u, sa', x', M[u]);
      }
    }
  }

  lemma DrainedPublish(P: Program, M: Summaries, w: nat, x: Extremes, sa: Annotation, rank: seq<nat>, sum: Summary)
    requires Drained(P, M) && w !in M && Analysis(P, M, w, x, sa, rank)
    ensures Drained(P, M[w := sum])
  {
    var M' := M[w := sum];
    forall u | u in M'
      ensures DrainedAt(P, M', u)
    {
      if u == w {
        ConsistentExtends(P, M, M', P.Code(w), sa);
      } else {
        assert DrainedAt(P, M, u);
        var sa', rank' :| Consistent(P, M, P.Code(u), sa') && JumpsRise(P.Code(u), sa', rank');
        ConsistentExtends(P, M, M', P.Code(u), sa');
      }
    }
  }

  lemma GoodPublish(P: Program, status: map<nat, Status>, active: seq<nat>, w: nat, x: Extremes, sa: Annotation,
                    rank: seq<nat>)
    requires Good(P, status, active + [w]) && w !in active
    requires Analysis(P, Finished(status), w, x, sa, rank)
    requires P.words[w].declared.IsKnown() ==> Computed(x).IsSubOf(P.words[w].declared)
    ensures var status' := status[w := Done(SummaryOf(P, w, x))];
            && Good(P, status', active)
            && Extends(Finished(status), Finished(status'))
            && w in Finished(status')
  {
    var sum := SummaryOf(P, w, x);
    var M := Finished(status);
    var status' := status[w := Done(sum)];
    assert w in active + [w];
    assert Finished(status') == M[w := sum];
    CoherentPublish(P, M, w, x, sa, rank);
    DrainedPublish(P, M, w, x, sa, rank, sum);
    forall i | 0 <= i < |active| - 1
      ensures ReachesCall(P, M, active[i], active[i + 1])
    {
      assert (active + [w])[i] == active[i] && (active + [w])[i + 1] == active[i + 1];
    }
    CallStackExtends(P, M, M[w := sum], active);
    forall u
      ensures u in active <==> u in status' && status'[u].InProgress?
    {
      assert u in active + [w] <==> u in active || u == w;
    }
  }

  lemma MarkedCount(sa: Annotation, sa': Annotation, j: int, c: int)
    requires MarkedFrom(sa, sa', j, c)
    ensures Unmarked(sa') == Unmarked(sa) - (if sa[j].None? then 1 else 0)
    ensures forall p: nat {:trigger Live(sa, p)} :: Live(sa, p) ==> Live(sa', p) && sa'[p] == sa[p]
    ensures Marked(sa', j, c)
  {
    if sa[j].None? { UnmarkedUpdate(sa, j, c); }
  }

  /** What annotating the successors of off leaves behind. */
  ghost predicate Advanced(P: Program, M: Summaries, code: seq<Opcode>, sa: Annotation, sa': Annotation, off: nat,
                           newly: bool) {
    && |sa'| == |sa| == |code| && Live(sa, off) && Live(sa', off) && sa'[off] == sa[off]
    && Flows(P, M, code, sa', off)
    && (newly ==> off + 1 < |sa| && sa[off + 1].None? && code[off].MayFallThrough())
    && Unmarked(sa') + (if newly then 1 else 0) <= Unmarked(sa)
  }

  lemma AfterJump(P: Program, M: Summaries, code: seq<Opcode>, sa: Annotation, sa1: Annotation, off: nat, c: int)
    requires |sa| == |code| && Live(sa, off)
    requires if Jumps(code, off) then MarkedFrom(sa, sa1, JumpTarget(code, off), c) else sa1 == sa
    ensures Live(sa1, off) && sa1[off] == sa[off] && Unmarked(sa1) <= Unmarked(sa)
    ensures forall q: nat :: q < |sa| && sa1[q].None? ==> sa[q].None?
  {
    if Jumps(code, off) { MarkedCount(sa, sa1, JumpTarget(code, off), c); }
  }

  lemma AfterBoth(P: Program, M: Summaries, code: seq<Opcode>, sa: Annotation, sa1: Annotation, sa': Annotation,
                  off: nat, c: int, newly: bool)
    requires |sa| == |code| && Live(sa, off) && Ready(P, M, code[off])
    requires c == sa[off].value + Action(P, M, code[off])
    requires if Jumps(code, off) then MarkedFrom(sa, sa1, JumpTarget(code, off), c) else sa1 == sa
    requires if Continues(P, M, code[off]) then MarkedFrom(sa1, sa', off + 1, c) else sa' == sa1
    requires newly <==> Continues(P, M, code[off]) && sa1[off + 1].None?
    ensures Advanced(P, M, code, sa, sa', off, newly)
  {
    AfterJump(P, M, code, sa, sa1, off, c);
    if Jumps(code, off) { MarkedCount(sa, sa1, JumpTarget(code, off), c); }
    if Continues(P, M, code[off]) { MarkedCount(sa1, sa', off + 1, c); }
  }

  lemma LiveReached(P: Program, M: Summaries, code: seq<Opcode>, sa: Annotation, x: Extremes, done: set<nat>,
                    todo: set<int>, p: nat)
    requires Exploring(P, M, code, sa, x, done, todo) && p < |sa| && sa[p].Some?
    ensures Reached(P, M, code, p, sa[p].value)
  {
    assert Live(sa, p);
  }

  lemma SuccReached(P: Program, M: Summaries, code: seq<Opcode>, sa: Annotation, x: Extremes, done: set<nat>,
                    todo: set<int>, off: nat, q: int)
    requires Exploring(P, M, code, sa, x, done, todo) && Live(sa, off)
    requires Ready(P, M, code[off]) && Succ(P, M, code, off, q)
    ensures |sa| == |code| && Reached(P, M, code, q, sa[off].value + Action(P, M, code[off]))
  {
    LiveReached(P, M, code, sa, x, done, todo, off);
    ReachedSucc(P, M, code, off, sa[off].value, q);
  }

  /** The offsets entered from above, after the loop went on to off. */
  ghost function Entered(entered: set<nat>, above: bool, off: nat): set<nat> {
    if above then entered + {off} else entered
  }

  /** The loop invariant at offset off with the given queue of jump targets. */
  ghost predicate Looping(P: Program, M: Summaries, code: seq<Opcode>, sa: Annotation, x: Extremes, done: set<nat>,
                          off: nat, queue: seq<int>, rank: seq<nat>, clock: nat, entered: set<nat>, count: nat)
  {
    && |sa| == |code| == |rank| && Live(sa, off)
    && Exploring(P, M, code, sa, x, done, Waiting(off, queue))
    && Rising(code, rank, done, Waiting(off, queue), clock)
    && QueueFits(code, entered, done, off, queue, count)
  }

  lemma LoopStart(P: Program, M: Summaries, code: seq<Opcode>, sa: Annotation, rank: seq<nat>, queue: seq<int>)
    requires |sa| == |code| > 0 && sa[0] == Some(0) && forall p :: 0 < p < |sa| ==> sa[p] == None
    requires |rank| == |code| && (forall p :: 0 <= p < |rank| ==> rank[p] == 0) && queue == []
    ensures Looping(P, M, code, sa, Extremes(0, 0, 0, None), {}, 0, queue, rank, 1, {0}, 0)
    ensures Unmarked(sa) < |sa|
  {
    ExploringStart(P, M, code, sa);
    UnmarkedBound(sa);
    QueueFitsStart(code);
    assert Waiting(0, queue) == {0};
  }

  /** The next offset is the one after off, marked just now. */
  lemma NextFallsThrough(P: Program, M: Summaries, code: seq<Opcode>, sa: Annotation, sa': Annotation, x: Extremes,
                         done: set<nat>, off: nat, queue: seq<int>, queue': seq<int>, rank: seq<nat>, clock: nat,
                         entered: set<nat>, count: nat)
    requires Exploring(P, M, code, sa, x, done, Waiting(off, queue)) && |rank| == |code|
    requires Exploring(P, M, code, sa', x, done, Waiting(off, queue') + {off + 1})
    requires Advanced(P, M, code, sa, sa', off, true) && Appended(code, off, queue, queue')
    requires Rising(code, rank, done, Waiting(off, queue), clock)
    requires QueueFits(code, entered, done, off, queue, count)
    ensures Unmarked(sa') < Unmarked(sa) && sa'[off] == sa[off]
    ensures Looping(P, M, code, sa', Widen(P, M, code[off], sa[off].value, x), done + {off}, off + 1, queue',
                    rank[off := clock], clock + 1, entered + {off + 1}, count + |queue'| - |queue|)
  {
    assert off + 1 in Waiting(off, queue') + {off + 1};
    ExploringFinish(P, M, code, sa', x, done, Waiting(off, queue') + {off + 1}, off, Waiting(off + 1, queue'));
    JumpsHome(P, M, code, sa', off);
    AppendedElems(code, off, queue, queue');
    RisingVisit(code, rank, done, Waiting(off, queue), clock, off, Waiting(off + 1, queue'));
    assert !Live(sa, off + 1);
    NotDone(P, M, code, sa, x, done, Waiting(off, queue), off + 1);
    QueueFitsNext(code, entered, done, off, queue, count, queue');
  }

  lemma NotDone(P: Program, M: Summaries, code: seq<Opcode>, sa: Annotation, x: Extremes, done: set<nat>,
                todo: set<int>, q: nat)
    requires Exploring(P, M, code, sa, x, done, todo)
    ensures q in done ==> Live(sa, q)
  {
    if q in done { assert Explored(P, M, code, sa, x, q); }
  }

  lemma JumpsHome(P: Program, M: Summaries, code: seq<Opcode>, sa: Annotation, off: nat)
    requires |sa| == |code| && Live(sa, off) && Flows(P, M, code, sa, off)
    ensures Jumps(code, off) ==> 0 <= JumpTarget(code, off) < |code|
  {}

  lemma AppendedElems(code: seq<Opcode>, off: nat, queue: seq<int>, queue': seq<int>)
    requires off < |code| && Appended(code, off, queue, queue')
    ensures Elems(queue) <= Elems(queue')
    ensures Jumps(code, off) ==> JumpTarget(code, off) in Elems(queue')
  {
    if Jumps(code, off) { ElemsPush(queue, JumpTarget(code, off)); }
  }

  /** The next offset comes from the head of the queue. */
  lemma NextFromQueue(P: Program, M: Summaries, code: seq<Opcode>, sa0: Annotation, sa: Annotation, x: Extremes,
                      done: set<nat>, off: nat, queue: seq<int>, queue': seq<int>, rank: seq<nat>, clock: nat,
                      entered: set<nat>, count: nat)
    requires Exploring(P, M, code, sa, x, done, Waiting(off, queue')) && |queue'| > 0 && |rank| == |code|
    requires Advanced(P, M, code, sa0, sa, off, false) && Appended(code, off, queue, queue')
    requires code[off].Ret? ==> x.exit.None? || x.exit == sa0[off]
    requires Rising(code, rank, done, Waiting(off, queue), clock)
    requires QueueFits(code, entered, done, off, queue, count)
    ensures queue'[0] >= 0 && Unmarked(sa) <= Unmarked(sa0) && sa[off] == sa0[off]
    ensures Looping(P, M, code, sa, Widen(P, M, code[off], sa[off].value, x), done + {off}, queue'[0], queue'[1..],
                    rank[off := clock], clock + 1, entered, count + |queue'| - |queue|)
  {
    var todo' := Waiting(queue'[0], queue'[1..]);
    ElemsPop(queue');
    HeadIsLive(P, M, code, sa, x, done, off, queue');
    hide Exploring, Rising, QueueFits;
    ExploringFinish(P, M, code, sa, x, done, Waiting(off, queue'), off, todo');
    JumpsHome(P, M, code, sa, off);
    AppendedElems(code, off, queue, queue');
    RisingVisit(code, rank, done, Waiting(off, queue), clock, off, todo');
    QueueFitsPop(code, entered, done, off, queue, count, queue');
  }

  lemma HeadIsLive(P: Program, M: Summaries, code: seq<Opcode>, sa: Annotation, x: Extremes, done: set<nat>, off: nat,
                   queue: seq<int>)
    requires Exploring(P, M, code, sa, x, done, Waiting(off, queue)) && |queue| > 0
    ensures queue[0] >= 0 && Live(sa, queue[0])
  {
    assert queue[0] in Waiting(off, queue);
  }

  /** Nothing is left to visit. */
  lemma LoopEnd(P: Program, M: Summaries, w: nat, sa0: Annotation, sa: Annotation, x: Extremes, done: set<nat>,
                off: nat, queue: seq<int>, queue': seq<int>, rank: seq<nat>, clock: nat)
    requires P.IsInterpreted(w) && off < |P.Code(w)| && queue' == [] && Appended(P.Code(w), off, queue, queue')
    requires Exploring(P, M, P.Code(w), sa, x, done, Waiting(off, queue'))
    requires Advanced(P, M, P.Code(w), sa0, sa, off, false)
    requires P.Code(w)[off].Ret? ==> x.exit.None? || x.exit == sa0[off]
    requires Rising(P.Code(w), rank, done, Waiting(off, queue), clock)
    ensures sa[off] == sa0[off]
    ensures Analysis(P, M, w, Widen(P, M, P.Code(w)[off], sa[off].value, x), sa, rank[off := clock])
  {
    var code := P.Code(w);
    var x' := Widen(P, M, code[off], sa[off].value, x);
    assert Waiting(off, queue') == {off} == Waiting(off, queue);
    ExploringFinish(P, M, code, sa, x, done, {off}, off, {});
    WorkDone(P, M, code, sa, x', done + {off});
    CoveredLeast(P, M, code, sa, done + {off});
    RisingVisit(code, rank, done, {off}, clock, off, {});
    RisingDone(P, M, code, sa, rank[off := clock], done + {off}, clock + 1);
    ExitNotLower(P, M, code, sa, x');
  }

  lemma RisingDone(P: Program, M: Summaries, code: seq<Opcode>, sa: Annotation, rank: seq<nat>, done: set<nat>,
                   clock: nat)
    requires Rising(code, rank, done, {}, clock) && Covered(P, M, code, sa, done, {})
    ensures JumpsRise(code, sa, rank)
  {}

  lemma ExitNotLower(P: Program, M: Summaries, code: seq<Opcode>, sa: Annotation, x: Extremes)
    requires Consistent(P, M, code, sa) && Seen(P, M, code, sa, x)
    requires forall p: nat {:trigger Live(sa, p)} :: Live(sa, p) ==> Bounds(P, M, code, sa, x, p)
    ensures x.exit.Some? ==> x.low <= x.exit.value
  {
    if x.exit.Some? {
      var p: nat :| Live(sa, p) && p < |code| && code[p].Ret? && sa[p] == x.exit;
      assert Bounds(P, M, code, sa, x, p);
      assert Lowest(P, M, code[p], sa[p].value) == sa[p].value;
    }
  }

  lemma UntouchedShrinks(P: Program, status: map<nat, Status>, w: nat)
    requires w < |P.words| && w !in status
    ensures Untouched(P, status[w := InProgress]) < Untouched(P, status)
  {
    assert w in Untouched(P, status);
  }

  lemma CallStackPush(P: Program, M: Summaries, active: seq<nat>, w: nat, target: nat)
    requires CallStack(P, M, active) && |active| > 0 && active[|active| - 1] == w
    requires ReachesCall(P, M, w, target)
    ensures CallStack(P, M, active + [target])
  {
    var path := active + [target];
    forall i | 0 <= i < |path| - 1
      ensures ReachesCall(P, M, path[i], path[i + 1])
    {
      if i < |active| - 1 {
        assert active[i] == path[i] && active[i + 1] == path[i + 1];
      }
    }
  }

  lemma KnownIfInterpreted(P: Program, M: Summaries, w: nat)
    requires Coherent(P, M) && Analysed(P, M, w)
    ensures P.words[w].Interpreted? ==> M[w].effect.IsKnown()
  {
    if P.words[w].Interpreted? {
      assert Justified(P, M, w);
      var sa, x :| Describes(P, M, w, sa, x, M[w]);
    }
  }

  /** The analysis fields of all words of a program. */
  class Analyser {
    const P: Program
    var status: map<nat, Status>
    ghost var active: seq<nat>

    ghost predicate Valid()
      reads this
    {
      Good(P, status, active)
    }

    constructor (P: Program)
      ensures this.P == P && Valid() && active == [] && status == map[]
    {
      this.P := P;
      status := map[];
      active := [];
      GoodStart(P);
    }

    method MergeSA(sa: array<Option<int>>, j: int, c: int) returns (r: Merge)
      modifies sa
      ensures r.Outside? <==> !(0 <= j < sa.Length)
      ensures r.Fresh? ==> old(sa[j]).None? && sa[..] == old(sa[..])[j := Some(c)]
      ensures !r.Fresh? ==> sa[..] == old(sa[..])
      ensures r.Same? ==> sa[j] == Some(c)
      ensures r.Conflict? ==> sa[j].Some? && sa[j].value != c
    {
      if !(0 <= j < sa.Length) {
        return Outside;
      }
      match sa[j]
      case None =>
        sa[j] := Some(c);
        return Fresh;
      case Some(d) =>
        return if d == c then Same else Conflict;
    }


    method AnalyseFlow(w: nat) returns (v: Verdict)
      requires Valid() && P.IsWord(w) && CallStack(P, Finished(status), active + [w])
      modifies this
      ensures Extends(old(Finished(status)), Finished(status)) && old(status.Keys) <= status.Keys
      ensures Coherent(P, Finished(status))
      ensures v.Accepted? ==> Valid() && active == old(active) && Analysed(P, Finished(status), w)
      ensures v.Rejected? && v.reason != WorklistFull ==> P.IsInterpreted(w) && Hopeless(P, Finished(status), w)
      ensures v == Rejected(WorklistFull) ==> exists u :: P.IsInterpreted(u) && !Roomy(P.Code(u))
      decreases Untouched(P, status), 0
    {
      if !P.words[w].Interpreted? {
        return Accepted;
      }
      if w in status {
        match status[w]
        case Done(_) =>
          return Accepted;
        case InProgress =>
          GoodRecursion(P, status, active, w);
          return Rejected(Recursion);
      }
      GoodBegin(P, status, active, w);
      ghost var before := active;
      UntouchedShrinks(P, status, w);
      status := status[w := InProgress];
      active := active + [w];
      var x;
      ghost var sa, rank, rounds;
      v, x, sa, rank, rounds := Explore(w);
      if v.Accepted? {
        v := Publish(w, x, sa, rank);
      }
    }

    /** The end of AnalyseFlow: compare with the declared effect and record the results. */
    method Publish(w: nat, x: Extremes, ghost sa: Annotation, ghost rank: seq<nat>) returns (v: Verdict)
      requires Valid() && |active| > 0 && active[|active| - 1] == w && w !in active[..|active| - 1]
      requires Analysis(P, Finished(status), w, x, sa, rank)
      modifies this
      ensures Extends(old(Finished(status)), Finished(status)) && old(status.Keys) <= status.Keys
      ensures Coherent(P, Finished(status))
      ensures v.Accepted? ==>
                Valid() && active == old(active)[..|old(active)| - 1] && w in Finished(status)
                && status == old(status)[w := Done(SummaryOf(P, w, x))]
      ensures v.Rejected? ==> v.reason == EffectMismatch && Hopeless(P, Finished(status), w)
    {
      hide Good, Hopeless, Computed, Coherent, Drained, CallStack, Consistent, Seen, Bounds, JumpsRise, LiveIsReached;
      GoodCoherent(P, status, active);
      var computed := Computed(x);
      var effect := computed;
      if P.words[w].declared.IsKnown() {
        if !computed.IsSubOf(P.words[w].declared) {
          HopelessEffect(P, Finished(status), w, sa, x);
          return Rejected(EffectMismatch);
        }
        effect := P.words[w].declared;
      }
      ghost var rest := active[..|active| - 1];
      assert active == rest + [w];
      GoodPublish(P, status, rest, w, x, sa, rank);
      status := status[w := Done(Summary(effect, x.high, 1 + P.words[w].numLocals + x.ret))];
      active := active[..|active| - 1];
      return Accepted;
    }

    /** A call opcode: analyse the callee, whose stack effect must be known. */
    method VisitCall(w: nat, off: nat, ghost c: int) returns (v: Verdict)
      requires Valid() && |active| > 0 && active[|active| - 1] == w
      requires P.IsInterpreted(w) && off < |P.Code(w)| && P.Code(w)[off].Call?
      requires Reached(P, Finished(status), P.Code(w), off, c)
      modifies this
      ensures Extends(old(Finished(status)), Finished(status)) && old(status.Keys) <= status.Keys
      ensures Coherent(P, Finished(status))
      ensures v.Accepted? ==>
                Valid() && active == old(active) && Ready(P, Finished(status), P.Code(w)[off])
      ensures v.Rejected? && v.reason != WorklistFull ==> Hopeless(P, Finished(status), w)
      ensures v == Rejected(WorklistFull) ==> exists u :: P.IsInterpreted(u) && !Roomy(P.Code(u))
      decreases Untouched(P, status), 1
    {
      var target := P.Code(w)[off].target;
      assert ReachesCall(P, Finished(status), w, target);
      if !P.IsWord(target) {
        HopelessNoWord(P, Finished(status), w, target);
        return Rejected(NoSuchWord);
      }
      CallStackPush(P, Finished(status), active, w, target);
      ghost var before := Finished(status);
      v := AnalyseFlow(target);
      ReachesCallExtends(P, before, Finished(status), w, target);
      if v.Rejected? {
        if v.reason != WorklistFull {
          HopelessCallee(P, Finished(status), w, target);
        }
        return v;
      }
      if !EffectOf(P, Finished(status), target).IsKnown() {
        KnownIfInterpreted(P, Finished(status), target);
        HopelessUnknown(P, Finished(status), w, target);
        return Rejected(UnknownEffect);
      }
    }

    /** The running extremes after one opcode. */
    method Account(op: Opcode, c: int, x: Extremes) returns (agree: bool, x': Extremes, a: int, mft: bool)
      requires Ready(P, Finished(status), op) && x.high >= 0 && x.ret >= 0
      ensures a == Action(P, Finished(status), op) && (mft <==> Continues(P, Finished(status), op))
      ensures agree <==> (op.Ret? ==> x.exit.None? || x.exit == Some(c))
      ensures agree ==> x' == Widen(P, Finished(status), op, c, x)
    {
      var Extremes(maxDepth, mds, mrs, exitSA) := x;
      mft := op.MayFallThrough();
      a := 0;
      agree := true;
      if op.Call? {
        var se := EffectOf(P, Finished(status), op.target);
        if se.NoExit() {
          mft := false;
        } else {
          a := se.dout - se.din;
        }
        mds := Max(mds, c + MaxDataOf(P, Finished(status), op.target));
        mrs := Max(mrs, MaxReturnOf(P, Finished(status), op.target));
        maxDepth := Min(maxDepth, c - se.din);
      } else if op.Ret? {
        if exitSA.None? {
          exitSA := Some(c);
        } else if exitSA != Some(c) {
          agree := false;
        }
      } else {
        a := op.StackAction();
        mds := Max(mds, c + a);
      }
      maxDepth := Min(maxDepth, c + a);
      x' := Extremes(maxDepth, mds, mrs, exitSA);
    }

    /** Annotate a successor q of offset off. */
    method MarkSucc(w: nat, sa: array<Option<int>>, off: nat, q: int, ghost x: Extremes, ghost done: set<nat>,
                    ghost todo: set<int>) returns (r: Merge)
      requires P.IsInterpreted(w) && Exploring(P, Finished(status), P.Code(w), sa[..], x, done, todo)
      requires Live(sa[..], off) && Ready(P, Finished(status), P.Code(w)[off])
      requires Succ(P, Finished(status), P.Code(w), off, q)
      modifies sa
      ensures (r.Outside? || r.Conflict?) ==> Hopeless(P, Finished(status), w)
      ensures r.Same? || r.Fresh? ==>
                && MarkedFrom(old(sa[..]), sa[..], q,
                     old(sa[..])[off].value + Action(P, Finished(status), P.Code(w)[off]))
                && Exploring(P, Finished(status), P.Code(w), sa[..], x, done, todo + {q})
                && (r.Same? ==> sa[..] == old(sa[..]))
                && (r.Fresh? ==> old(sa[..])[q].None?)
    {
      hide Exploring, Reached, Hopeless, Succ, Finished;
      ghost var M := Finished(status);
      ghost var code := P.Code(w);
      ghost var sa0 := sa[..];
      SuccReached(P, M, code, sa0, x, done, todo, off, q);
      var op := P.Code(w)[off];
      var c := sa[off].value + Action(P, Finished(status), op);
      r := MergeSA(sa, q, c);
      match r
      case Outside => HopelessOutside(P, M, w, q, c);
      case Conflict =>
        LiveReached(P, M, code, sa0, x, done, todo, q);
        HopelessMismatch(P, M, w, q, c, sa0[q].value);
      case _ => ExploringMark(P, M, code, sa0, sa[..], x, done, todo, q, c);
    }

    /** The first half of the loop body: the opcode's own effect. */
    method VisitOpcode(w: nat, off: nat, sa: array<Option<int>>, x: Extremes, ghost done: set<nat>,
                       ghost todo: set<int>)
      returns (v: Verdict, x': Extremes, mft: bool)
      requires Valid() && |active| > 0 && active[|active| - 1] == w && P.IsInterpreted(w)
      requires Exploring(P, Finished(status), P.Code(w), sa[..], x, done, todo) && Live(sa[..], off)
      modifies this
      ensures Extends(old(Finished(status)), Finished(status)) && old(status.Keys) <= status.Keys
      ensures Coherent(P, Finished(status))
      ensures v.Accepted? ==>
                && Valid() && active == old(active)
                && Ready(P, Finished(status), P.Code(w)[off])
                && Exploring(P, Finished(status), P.Code(w), sa[..], x, done, todo)
                && (mft <==> Continues(P, Finished(status), P.Code(w)[off]))
                && x' == Widen(P, Finished(status), P.Code(w)[off], sa[off].value, x)
                && (P.Code(w)[off].Ret? ==> x.exit.None? || x.exit == sa[off])
      ensures v.Rejected? && v.reason != WorklistFull ==> Hopeless(P, Finished(status), w)
      ensures v == Rejected(WorklistFull) ==> exists u :: P.IsInterpreted(u) && !Roomy(P.Code(u))
      decreases Untouched(P, status), 2
    {
      ghost var before := Finished(status);
      var op := P.Code(w)[off];
      var c := sa[off].value;
      x', mft := x, false;
      if op.Call? {
        v := VisitCall(w, off, c);
        if v.Rejected? {
          return v, x', mft;
        }
        ExploringExtends(P, before, Finished(status), P.Code(w), sa[..], x, done, todo);
      }
      var agree, a;
      agree, x', a, mft := Account(op, c, x);
      if !agree {
        ExitConflict(P, Finished(status), w, sa[..], x, done, todo, off);
        return Rejected(ExitMismatch), x', mft;
      }
      return Accepted, x', mft;
    }

    /** A jump: its target goes to the queue and is annotated. */
    method QueueJump(w: nat, off: nat, sa: array<Option<int>>, toExplore: array<int>, tX: nat, tY: nat,
                     ghost x: Extremes, ghost done: set<nat>)
      returns (v: Verdict, tY': nat)
      requires P.IsInterpreted(w) && sa.Length == toExplore.Length && tX <= tY <= sa.Length
      requires Exploring(P, Finished(status), P.Code(w), sa[..], x, done, Waiting(off, toExplore[tX..tY]))
      requires Live(sa[..], off) && Ready(P, Finished(status), P.Code(w)[off]) && Jumps(P.Code(w), off)
      modifies sa, toExplore
      ensures v.Rejected? && v.reason != WorklistFull ==> Hopeless(P, Finished(status), w)
      ensures v == Rejected(WorklistFull) ==> tY == sa.Length
      ensures v.Accepted? ==>
                && tX <= tY' == tY + 1 <= sa.Length
                && toExplore[tX..tY'] == old(toExplore[tX..tY]) + [JumpTarget(P.Code(w), off)]
                && MarkedFrom(old(sa[..]), sa[..], JumpTarget(P.Code(w), off),
                              old(sa[..])[off].value + Action(P, Finished(status), P.Code(w)[off]))
                && Exploring(P, Finished(status), P.Code(w), sa[..], x, done, Waiting(off, toExplore[tX..tY']))
    {
      hide Exploring, Hopeless, Reached, Finished, MarkedFrom, Unmarked;
      ghost var queue := toExplore[tX..tY];
      tY' := tY;
      var j := off + 1 + P.Code(w)[off].JumpDisp();
      if tY == toExplore.Length {
        return Rejected(WorklistFull), tY';
      }
      toExplore[tY] := j;
      tY' := tY + 1;
      assert toExplore[tX..tY'] == queue + [j];
      ElemsPush(queue, j);
      assert Waiting(off, queue) + {j} == Waiting(off, toExplore[tX..tY']);
      var r := MarkSucc(w, sa, off, j, x, done, Waiting(off, queue));
      if r.Outside? { return Rejected(OutsideCode), tY'; }
      if r.Conflict? { return Rejected(StackMismatch), tY'; }
      return Accepted, tY';
    }

    /** The second half of the loop body: annotate the successors. */
    method VisitSuccessors(w: nat, off: nat, mft: bool, sa: array<Option<int>>, toExplore: array<int>, tX: nat,
                           tY: nat, ghost x: Extremes, ghost done: set<nat>)
      returns (v: Verdict, tY': nat, newly: bool)
      requires P.IsInterpreted(w) && |P.Code(w)| == sa.Length == toExplore.Length && tX <= tY <= sa.Length
      requires Exploring(P, Finished(status), P.Code(w), sa[..], x, done, Waiting(off, toExplore[tX..tY]))
      requires Live(sa[..], off) && Ready(P, Finished(status), P.Code(w)[off])
      requires mft <==> Continues(P, Finished(status), P.Code(w)[off])
      modifies sa, toExplore
      ensures v.Rejected? && v.reason != WorklistFull ==> Hopeless(P, Finished(status), w)
      ensures v == Rejected(WorklistFull) ==> tY == sa.Length && Jumps(P.Code(w), off)
      ensures v.Accepted? ==>
                && tX <= tY' <= sa.Length
                && Appended(P.Code(w), off, old(toExplore[tX..tY]), toExplore[tX..tY'])
                && Exploring(P, Finished(status), P.Code(w), sa[..], x, done,
                             Waiting(off, toExplore[tX..tY']) + (if newly then {off + 1} else {}))
                && Advanced(P, Finished(status), P.Code(w), old(sa[..]), sa[..], off, newly)
    {
      hide Exploring, Hopeless, Reached, Advanced, Roomy, Finished, Unmarked;
      ghost var M := Finished(status);
      var code := P.Code(w);
      ghost var sa0 := sa[..];
      v, tY', newly := Accepted, tY, false;
      if code[off].JumpDisp() != 0 {
        v, tY' := QueueJump(w, off, sa, toExplore, tX, tY, x, done);
        if v.Rejected? {
          return;
        }
      }
      ghost var sa1 := sa[..];
      ghost var c := sa0[off].value + Action(P, M, code[off]);
      if mft {
        AfterJump(P, M, code, sa0, sa1, off, c);
        var r := MarkSucc(w, sa, off, off + 1, x, done, Waiting(off, toExplore[tX..tY']));
        if r.Outside? { return Rejected(OutsideCode), tY', newly; }
        if r.Conflict? { return Rejected(StackMismatch), tY', newly; }
        newly := r.Fresh?;
      }
      assert Waiting(off, toExplore[tX..tY']) + {} == Waiting(off, toExplore[tX..tY']);
      AfterBoth(P, M, code, sa0, sa1, sa[..], off, c, newly);
    }

    /** The loop body: visit one opcode, then go on to the next offset, the one behind it if it
        was not seen before, else the next one in the queue, or end with an empty queue. */
    method Round(w: nat, off: nat, sa: array<Option<int>>, toExplore: array<int>, tX: nat, tY: nat, x: Extremes,
                 ghost done: set<nat>, ghost rank: seq<nat>, ghost clock: nat, ghost entered: set<nat>)
      returns (v: Verdict, more: bool, off': nat, tX': nat, tY': nat, x': Extremes)
      requires Valid() && |active| > 0 && active[|active| - 1] == w && P.IsInterpreted(w)
      requires sa.Length == toExplore.Length == |P.Code(w)| && tX <= tY <= sa.Length
      requires Looping(P, Finished(status), P.Code(w), sa[..], x, done, off, toExplore[tX..tY], rank, clock, entered,
               tY)
      modifies this, sa, toExplore
      ensures Extends(old(Finished(status)), Finished(status)) && old(status.Keys) <= status.Keys
      ensures Coherent(P, Finished(status))
      ensures v.Accepted? ==> Valid() && active == old(active) && tX' <= tY' <= sa.Length
      ensures v.Accepted? && more ==>
                && off' < sa.Length
                    && Looping(P, Finished(status), P.Code(w), sa[..], x', done + {off}, off', toExplore[tX'..tY'],
                           rank[off := clock], clock + 1, Entered(entered, tX' == tX, off'), tY')
                && Unmarked(sa[..]) + (sa.Length - tX') < Unmarked(old(sa[..])) + (sa.Length - tX)
      ensures v.Accepted? && !more ==> Analysis(P, Finished(status), w, x', sa[..], rank[off := clock])
      ensures v.Rejected? && v.reason != WorklistFull ==> Hopeless(P, Finished(status), w)
      ensures v == Rejected(WorklistFull) ==> exists u :: P.IsInterpreted(u) && !Roomy(P.Code(u))
      decreases Untouched(P, status), 3
    {
      hide Good, Exploring, Hopeless, Reached, Rising, QueueFits, Analysis, Widen, Unmarked, CallStack, Advanced,
          Appended, Coherent;
      var code := P.Code(w);
      ghost var before := Finished(status);
      ghost var queue := toExplore[tX..tY];
      ghost var sa0 := sa[..];
      var mft, newly;
      more, off', tX', tY' := false, off, tX, tY;
      v, x', mft := VisitOpcode(w, off, sa, x, done, Waiting(off, queue));
      if v.Rejected? {
        return;
      }
      GoodCoherent(P, status, active);
      v, tY', newly := VisitSuccessors(w, off, mft, sa, toExplore, tX, tY, x, done);
      if v.Rejected? {
        if v.reason == WorklistFull && Roomy(code) {
          QueueRoom(code, entered, done, off, queue, tY);
        }
        return;
      }
      ghost var queue' := toExplore[tX..tY'];
      assert Waiting(off, queue') + {} == Waiting(off, queue');
      if newly {
        NextFallsThrough(P, Finished(status), code, sa0, sa[..], x, done, off, queue, queue', rank, clock, entered, tY);
        more, off' := true, off + 1;
      } else if tX < tY' {
        NextFromQueue(P, Finished(status), code, sa0, sa[..], x, done, off, queue, queue', rank, clock, entered, tY);
        assert toExplore[tX + 1..tY'] == queue'[1..];
        more, off', tX' := true, toExplore[tX], tX + 1;
      } else {
        LoopEnd(P, Finished(status), w, sa0, sa[..], x, done, off, queue, queue', rank, clock);
      }
    }

    /** The worklist loop. Its body runs at most twice as often as the word has opcodes. */
    method Explore(w: nat)
      returns (v: Verdict, x: Extremes, ghost marks: Annotation, ghost rank: seq<nat>, ghost rounds: nat)
      requires Valid() && |active| > 0 && active[|active| - 1] == w && P.IsInterpreted(w)
      modifies this
      ensures Extends(old(Finished(status)), Finished(status)) && old(status.Keys) <= status.Keys
      ensures Coherent(P, Finished(status)) && rounds <= 2 * |P.Code(w)|
      ensures v.Accepted? ==> Valid() && active == old(active) && Analysis(P, Finished(status), w, x, marks, rank)
      ensures v.Rejected? && v.reason != WorklistFull ==> Hopeless(P, Finished(status), w)
      ensures v == Rejected(WorklistFull) ==> exists u :: P.IsInterpreted(u) && !Roomy(P.Code(u))
      decreases Untouched(P, status), 4
    {
      hide Good, Looping, Hopeless, Reached, Analysis, Unmarked, CallStack, Coherent;
      var code := P.Code(w);
      var n := |code|;
      x, marks, rank, rounds := Extremes(0, 0, 0, None), [], [], 0;
      GoodCoherent(P, status, active);
      if n == 0 {
        ReachedStart(P, Finished(status), code);
        HopelessOutside(P, Finished(status), w, 0, 0);
        return Rejected(OutsideCode), x, marks, rank, rounds;
      }
      var sa := new Option<int>[n](_ => None);
      sa[0] := Some(0);
      var toExplore := new int[n](_ => 0);
      var tX: nat, tY: nat, off: nat, more := 0, 0, 0, true;
      ghost var done: set<nat> := {};
      ghost var entered: set<nat> := {0};
      ghost var clock := 1;
      rank := seq(n, _ => 0);
      LoopStart(P, Finished(status), code, sa[..], rank, toExplore[..0]);
      assert toExplore[..0] == toExplore[0..0];
      while more
        invariant sa.Length == n && toExplore.Length == n
        invariant Valid() && active == old(active) && Coherent(P, Finished(status))
        invariant Extends(old(Finished(status)), Finished(status)) && old(status.Keys) <= status.Keys
        invariant 0 <= tX <= tY <= n && |rank| == n && (more ==> off < n)
        invariant if more then Looping(P, Finished(status), code, sa[..], x, done, off, toExplore[tX..tY], rank, clock,
            entered, tY)
                  else Analysis(P, Finished(status), w, x, sa[..], rank)
        invariant more ==> rounds + Unmarked(sa[..]) + (n - tX) < 2 * n
        invariant rounds <= 2 * n
        decreases if more then 1 + Unmarked(sa[..]) + (n - tX) else 0
      {
        ghost var off0, tX0 := off, tX;
        rounds := rounds + 1;
        v, more, off, tX, tY, x := Round(w, off, sa, toExplore, tX, tY, x, done, rank, clock, entered);
        if v.Rejected? {
          return v, x, marks, rank, rounds;
        }
        entered := Entered(entered, tX == tX0, off);
        done := done + {off0};
        rank := rank[off0 := clock];
        clock := clock + 1;
      }
      return Accepted, x, sa[..], rank, rounds;
    }
  }
}
