// The state of the worklist loop of AnalyseFlow, and how each part of an iteration keeps it.

module FlowWork {
  import opened Wrappers
  import opened StackEffect
  import opened Programs
  import opened FlowSpec
  import opened FlowPaths
  import opened Arith

  /** Every live offset was reached by control flow and is explored or waiting. */
  ghost predicate Covered(P: Program, M: Summaries, code: seq<Opcode>, sa: Annotation, done: set<nat>, todo: set<int>) {
    && |sa| == |code| && Marked(sa, 0, 0)
    && (forall p: nat {:trigger Live(sa, p)} :: Live(sa, p) ==>
          (p in done || p in todo) && Reached(P, M, code, p, sa[p].value))
    && (forall q: int :: q in todo ==> 0 <= q && Live(sa, q))
  }

  ghost predicate Explored(P: Program, M: Summaries, code: seq<Opcode>, sa: Annotation, x: Extremes, p: nat) {
    |sa| == |code| && Live(sa, p) && Flows(P, M, code, sa, p) && Bounds(P, M, code, sa, x, p)
  }

  ghost predicate AllExplored(P: Program, M: Summaries, code: seq<Opcode>, sa: Annotation, x: Extremes, done: set<nat>)
  {
    forall p :: p in done ==> Explored(P, M, code, sa, x, p)
  }

  ghost predicate LowSeen(P: Program, M: Summaries, code: seq<Opcode>, sa: Annotation, low: int) {
    || low == 0
    || exists p: nat ::
         Live(sa, p) && p < |code| && Ready(P, M, code[p]) && Lowest(P, M, code[p], sa[p].value) == low
  }

  ghost predicate HighSeen(P: Program, M: Summaries, code: seq<Opcode>, sa: Annotation, high: int) {
    || high == 0
    || exists p: nat ::
         Live(sa, p) && p < |code| && Ready(P, M, code[p]) && Highest(P, M, code[p], sa[p].value) == high
  }

  ghost predicate ReturnSeen(P: Program, M: Summaries, code: seq<Opcode>, sa: Annotation, ret: int) {
    ret == 0 || exists p: nat :: Live(sa, p) && p < |code| && Ready(P, M, code[p]) && ReturnUse(P, M, code[p]) == ret
  }

  ghost predicate ExitSeen(code: seq<Opcode>, sa: Annotation, exit: Option<int>) {
    exit.Some? ==> exists p: nat :: Live(sa, p) && p < |code| && code[p].Ret? && sa[p] == exit
  }

  ghost predicate Seen(P: Program, M: Summaries, code: seq<Opcode>, sa: Annotation, x: Extremes) {
    && x.low <= 0 <= x.high && 0 <= x.ret
    && LowSeen(P, M, code, sa, x.low) && HighSeen(P, M, code, sa, x.high)
    && ReturnSeen(P, M, code, sa, x.ret) && ExitSeen(code, sa, x.exit)
  }

  // ----- analysing a callee -----

  lemma CoveredExtends(P: Program, M: Summaries, M': Summaries, code: seq<Opcode>, sa: Annotation, done: set<nat>,
                       todo: set<int>)
    requires Extends(M, M') && Covered(P, M, code, sa, done, todo)
    ensures Covered(P, M', code, sa, done, todo)
  {
    forall p: nat | Live(sa, p)
      ensures Reached(P, M', code, p, sa[p].value)
    {
      ReachedExtends(P, M, M', code, p, sa[p].value);
    }
  }

  lemma ExploredExtends(P: Program, M: Summaries, M': Summaries, code: seq<Opcode>, sa: Annotation, x: Extremes, p: nat)
    requires Extends(M, M') && Explored(P, M, code, sa, x, p)
    ensures Explored(P, M', code, sa, x, p)
  {
    ReadyExtends(P, M, M', code[p]);
  }

  lemma AllExploredExtends(P: Program, M: Summaries, M': Summaries, code: seq<Opcode>, sa: Annotation, x: Extremes,
                           done: set<nat>)
    requires Extends(M, M') && AllExplored(P, M, code, sa, x, done)
    ensures AllExplored(P, M', code, sa, x, done)
  {
    forall p | p in done
      ensures Explored(P, M', code, sa, x, p)
    {
      ExploredExtends(P, M, M', code, sa, x, p);
    }
  }

  lemma SeenExtends(P: Program, M: Summaries, M': Summaries, code: seq<Opcode>, sa: Annotation, x: Extremes)
    requires Extends(M, M') && Seen(P, M, code, sa, x)
    ensures Seen(P, M', code, sa, x)
  {
    if x.low != 0 {
      var p: nat :| Live(sa, p) && p < |code| && Ready(P, M, code[p]) && Lowest(P, M, code[p], sa[p].value) == x.low;
      ReadyExtends(P, M, M', code[p]);
    }
    if x.high != 0 {
      var p: nat :| Live(sa, p) && p < |code| && Ready(P, M, code[p]) && Highest(P, M, code[p], sa[p].value) == x.high;
      ReadyExtends(P, M, M', code[p]);
    }
    if x.ret != 0 {
      var p: nat :| Live(sa, p) && p < |code| && Ready(P, M, code[p]) && ReturnUse(P, M, code[p]) == x.ret;
      ReadyExtends(P, M, M', code[p]);
    }
  }

  // ----- marking an offset -----

  /** sa' is sa with offset j marked for the first time, or unchanged with j already at c. */
  predicate MarkedFrom(sa: Annotation, sa': Annotation, j: int, c: int) {
    && 0 <= j < |sa|
    && ((sa[j].None? && sa' == sa[j := Some(c)]) || (sa[j] == Some(c) && sa' == sa))
  }

  lemma CoveredMark(P: Program, M: Summaries, code: seq<Opcode>, sa: Annotation, sa': Annotation, done: set<nat>,
                    todo: set<int>, j: int, c: int)
    requires Covered(P, M, code, sa, done, todo) && MarkedFrom(sa, sa', j, c) && Reached(P, M, code, j, c)
    ensures Covered(P, M, code, sa', done, todo + {j})
  {
    forall p: nat | Live(sa', p)
      ensures (p in done || p in todo + {j}) && Reached(P, M, code, p, sa'[p].value)
    {
      if p != j { assert Live(sa, p); }
    }
    forall q: int | q in todo + {j}
      ensures 0 <= q && Live(sa', q)
    {
      if q != j { assert Live(sa, q); }
    }
  }

  lemma AllExploredMark(P: Program, M: Summaries, code: seq<Opcode>, sa: Annotation, sa': Annotation, x: Extremes,
                        done: set<nat>, j: int, c: int)
    requires AllExplored(P, M, code, sa, x, done) && MarkedFrom(sa, sa', j, c)
    ensures AllExplored(P, M, code, sa', x, done)
  {
    forall p | p in done
      ensures Explored(P, M, code, sa', x, p)
    {
      assert Explored(P, M, code, sa, x, p);
    }
  }

  lemma SeenMark(P: Program, M: Summaries, code: seq<Opcode>, sa: Annotation, sa': Annotation, x: Extremes, j: int,
                 c: int)
    requires Seen(P, M, code, sa, x) && MarkedFrom(sa, sa', j, c)
    ensures Seen(P, M, code, sa', x)
  {
    assert forall p: nat {:trigger Live(sa, p)} :: Live(sa, p) ==> Live(sa', p) && sa'[p] == sa[p];
    SeenMore(P, M, code, sa, sa', x);
  }

  lemma SeenMore(P: Program, M: Summaries, code: seq<Opcode>, sa: Annotation, sa': Annotation, x: Extremes)
    requires Seen(P, M, code, sa, x)
    requires forall p: nat {:trigger Live(sa, p)} :: Live(sa, p) ==> Live(sa', p) && sa'[p] == sa[p]
    ensures Seen(P, M, code, sa', x)
  {
    if x.low != 0 {
      var p: nat :| Live(sa, p) && p < |code| && Ready(P, M, code[p]) && Lowest(P, M, code[p], sa[p].value) == x.low;
      assert Live(sa', p);
    }
    if x.high != 0 {
      var p: nat :| Live(sa, p) && p < |code| && Ready(P, M, code[p]) && Highest(P, M, code[p], sa[p].value) == x.high;
      assert Live(sa', p);
    }
    if x.ret != 0 {
      var p: nat :| Live(sa, p) && p < |code| && Ready(P, M, code[p]) && ReturnUse(P, M, code[p]) == x.ret;
      assert Live(sa', p);
    }
    if x.exit.Some? {
      var p: nat :| Live(sa, p) && p < |code| && code[p].Ret? && sa[p] == x.exit;
      assert Live(sa', p);
    }
  }

  // ----- finishing an offset -----

  /** The extremes after opcode op was met at depth c. */
  function Widen(P: Program, M: Summaries, op: Opcode, c: int, x: Extremes): Extremes
    requires Ready(P, M, op)
  {
    Extremes(Min(x.low, Lowest(P, M, op, c)), Max(x.high, Highest(P, M, op, c)),
             Max(x.ret, ReturnUse(P, M, op)), if op.Ret? then Some(c) else x.exit)
  }

  lemma SeenWiden(P: Program, M: Summaries, code: seq<Opcode>, sa: Annotation, x: Extremes, off: nat)
    requires Seen(P, M, code, sa, x) && |sa| == |code| && Live(sa, off) && Ready(P, M, code[off])
    ensures Seen(P, M, code, sa, Widen(P, M, code[off], sa[off].value, x))
  {}

  lemma AllExploredWiden(P: Program, M: Summaries, code: seq<Opcode>, sa: Annotation, x: Extremes, done: set<nat>,
                         off: nat)
    requires AllExplored(P, M, code, sa, x, done)
    requires |sa| == |code| && Live(sa, off) && Flows(P, M, code, sa, off)
    requires code[off].Ret? ==> x.exit.None? || x.exit == sa[off]
    ensures AllExplored(P, M, code, sa, Widen(P, M, code[off], sa[off].value, x), done + {off})
  {
    var x' := Widen(P, M, code[off], sa[off].value, x);
    forall p | p in done + {off}
      ensures Explored(P, M, code, sa, x', p)
    {
      if p in done { assert Explored(P, M, code, sa, x, p); }
    }
  }

  lemma CoveredFinish(P: Program, M: Summaries, code: seq<Opcode>, sa: Annotation, done: set<nat>, todo: set<int>,
                      off: nat, todo': set<int>)
    requires Covered(P, M, code, sa, done, todo)
    requires todo <= todo' + {off} && todo' <= todo
    ensures Covered(P, M, code, sa, done + {off}, todo')
  {}

  // ----- the whole loop state -----

  ghost predicate Exploring(P: Program, M: Summaries, code: seq<Opcode>, sa: Annotation, x: Extremes, done: set<nat>,
                            todo: set<int>)
  {
    && Covered(P, M, code, sa, done, todo)
    && AllExplored(P, M, code, sa, x, done)
    && Seen(P, M, code, sa, x)
  }

  lemma ExploringStart(P: Program, M: Summaries, code: seq<Opcode>, sa: Annotation)
    requires |sa| == |code| > 0 && sa[0] == Some(0) && forall p :: 0 < p < |sa| ==> sa[p] == None
    ensures Exploring(P, M, code, sa, Extremes(0, 0, 0, None), {}, {0})
  {
    ReachedStart(P, M, code);
  }

  lemma ExploringExtends(P: Program, M: Summaries, M': Summaries, code: seq<Opcode>, sa: Annotation, x: Extremes,
                         done: set<nat>, todo: set<int>)
    requires Extends(M, M') && Exploring(P, M, code, sa, x, done, todo)
    ensures Exploring(P, M', code, sa, x, done, todo)
  {
    CoveredExtends(P, M, M', code, sa, done, todo);
    AllExploredExtends(P, M, M', code, sa, x, done);
    SeenExtends(P, M, M', code, sa, x);
  }

  lemma ExploringMark(P: Program, M: Summaries, code: seq<Opcode>, sa: Annotation, sa': Annotation, x: Extremes,
                      done: set<nat>, todo: set<int>, j: int, c: int)
    requires Exploring(P, M, code, sa, x, done, todo) && MarkedFrom(sa, sa', j, c) && Reached(P, M, code, j, c)
    ensures Exploring(P, M, code, sa', x, done, todo + {j})
  {
    CoveredMark(P, M, code, sa, sa', done, todo, j, c);
    AllExploredMark(P, M, code, sa, sa', x, done, j, c);
    SeenMark(P, M, code, sa, sa', x, j, c);
  }

  lemma ExploringFinish(P: Program, M: Summaries, code: seq<Opcode>, sa: Annotation, x: Extremes, done: set<nat>,
                        todo: set<int>, off: nat, todo': set<int>)
    requires Exploring(P, M, code, sa, x, done, todo)
    requires |sa| == |code| && Live(sa, off) && Flows(P, M, code, sa, off)
    requires code[off].Ret? ==> x.exit.None? || x.exit == sa[off]
    requires todo <= todo' + {off} && todo' <= todo
    ensures Exploring(P, M, code, sa, Widen(P, M, code[off], sa[off].value, x), done + {off}, todo')
  {
    CoveredFinish(P, M, code, sa, done, todo, off, todo');
    AllExploredWiden(P, M, code, sa, x, done, off);
    SeenWiden(P, M, code, sa, x, off);
  }

  /** Two returns at different depths: the second one has just been met. */
  lemma ExitConflict(P: Program, M: Summaries, w: nat, sa: Annotation, x: Extremes, done: set<nat>, todo: set<int>,
                     off: nat)
    requires P.IsInterpreted(w) && Exploring(P, M, P.Code(w), sa, x, done, todo)
    requires Live(sa, off) && P.Code(w)[off].Ret? && x.exit.Some? && x.exit != sa[off]
    ensures Hopeless(P, M, w)
  {
    var p: nat :| Live(sa, p) && p < |P.Code(w)| && P.Code(w)[p].Ret? && sa[p] == x.exit;
    HopelessExits(P, M, w, p, sa[p].value, off, sa[off].value);
  }

  // ----- the end of the loop -----

  lemma WorkDone(P: Program, M: Summaries, code: seq<Opcode>, sa: Annotation, x: Extremes, done: set<nat>)
    requires Covered(P, M, code, sa, done, {}) && AllExplored(P, M, code, sa, x, done) && Seen(P, M, code, sa, x)
    ensures Consistent(P, M, code, sa)
    ensures x.low <= 0 <= x.high && 0 <= x.ret
    ensures forall p: nat {:trigger Live(sa, p)} :: Live(sa, p) ==> Bounds(P, M, code, sa, x, p)
    ensures Attains(P, M, code, sa, x)
  {
    forall p: nat | Live(sa, p)
      ensures Flows(P, M, code, sa, p) && Bounds(P, M, code, sa, x, p)
    {
      assert Explored(P, M, code, sa, x, p);
    }
  }

  lemma CoveredLeast(P: Program, M: Summaries, code: seq<Opcode>, sa: Annotation, done: set<nat>)
    requires Covered(P, M, code, sa, done, {}) && Consistent(P, M, code, sa)
    ensures LiveIsReached(P, M, code, sa)
  {
    ReachedIsLeast(P, M, code, sa);
  }

  /** If the declared effect does not cover what was computed, it covers no other annotation. */
  lemma HopelessEffect(P: Program, M: Summaries, w: nat, sa: Annotation, x: Extremes)
    requires P.IsInterpreted(w) && LiveIsReached(P, M, P.Code(w), sa)
    requires Seen(P, M, P.Code(w), sa, x)
    requires x.exit.Some? ==> x.low <= x.exit.value
    requires P.words[w].declared.IsKnown() && !Computed(x).IsSubOf(P.words[w].declared)
    ensures Hopeless(P, M, w)
  {
    forall M' | Extends(M, M') && Coherent(P, M')
      ensures w !in M'
    {
      if w in M' {
        assert Justified(P, M', w);
        var sa', x' :| Describes(P, M', w, sa', x', M'[w]);
        EffectWithin(P, M, M', w, sa, x, sa', x');
      }
    }
  }

  lemma EffectWithin(P: Program, M: Summaries, M': Summaries, w: nat, sa: Annotation, x: Extremes, sa': Annotation,
                     x': Extremes)
    requires Extends(M, M') && w in M' && Describes(P, M', w, sa', x', M'[w])
    requires LiveIsReached(P, M, P.Code(w), sa) && Seen(P, M, P.Code(w), sa, x)
    requires P.words[w].declared.IsKnown() && (x.exit.Some? ==> x.low <= x.exit.value)
    ensures Computed(x).IsSubOf(P.words[w].declared)
  {
    var code := P.Code(w);
    if x.low != 0 {
      var p: nat :| Live(sa, p) && p < |code| && Ready(P, M, code[p]) && Lowest(P, M, code[p], sa[p].value) == x.low;
      LiveInBoth(P, M, M', code, sa, sa', p);
      assert Bounds(P, M', code, sa', x', p);
      ReadyExtends(P, M, M', code[p]);
    }
    assert x'.low <= x.low;
    if x.exit.Some? {
      var p: nat :| Live(sa, p) && p < |code| && code[p].Ret? && sa[p] == x.exit;
      LiveInBoth(P, M, M', code, sa, sa', p);
      assert Bounds(P, M', code, sa', x', p);
      assert Lowest(P, M', code[p], sa'[p].value) == x.exit.value;
      assert x'.exit == x.exit;
    }
    NarrowerEffect(x, x', P.words[w].declared);
  }

  lemma LiveInBoth(P: Program, M: Summaries, M': Summaries, code: seq<Opcode>, sa: Annotation, sa': Annotation, p: nat)
    requires Extends(M, M') && LiveIsReached(P, M, code, sa) && Consistent(P, M', code, sa') && Live(sa, p)
    ensures Live(sa', p) && sa'[p] == sa[p]
  {
    ReachedExtends(P, M, M', code, p, sa[p].value);
    ReachedMarked(P, M', code, sa', p, sa[p].value);
  }

  lemma NarrowerEffect(x: Extremes, x': Extremes, declared: SType)
    requires x'.low <= x.low <= 0
    requires x.exit.Some? ==> x'.exit == x.exit && x.low <= x.exit.value
    requires Computed(x').IsSubOf(declared)
    ensures Computed(x).IsSubOf(declared)
  {}
}
