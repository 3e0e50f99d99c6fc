// What structured control flow means, and that its flat code does exactly that.

module StructuredRuns {
  import opened Wrappers
  import opened Programs
  import opened OpMachine
  import opened Builder
  import opened Structured

  /** What a statement acts on: the data stack and the open frames. */
  datatype Store = Store(stack: seq<Value>, frames: seq<Frame>)

  /** A statement ends normally, or control goes elsewhere: the word returned, a native word
      never came back, or the runtime raised an exception. */
  datatype Outcome = Normal(store: Store) | Gone(state: State)

  const ANYWHERE: Ip := Ip(0, 0)

  /** The meaning of an opcode, wherever it stands. A call of an interpreted word is a run of
      that word on its own; None says that fuel steps were not enough for it. */
  function Act(P: Program, op: Opcode, s: Store, fuel: nat): Option<Outcome> {
    if op.Call? && P.IsInterpreted(op.target) then
      match Run(P, Start(P, op.target, s.stack), fuel)
      case Running(_, _, _) => None
      case Exited(stack) => Some(Normal(Store(stack, s.frames)))
      case other => Some(Gone(other))
    else if op.Ret? then Some(Gone(Execute(P, op, ANYWHERE, s.stack, s.frames)))
    else
      match Execute(P, op, ANYWHERE, s.stack, s.frames)
      case Running(_, stack, frames) => Some(Normal(Store(stack, frames)))
      case other => Some(Gone(other))
  }

  function Popped(s: Store): Store
    requires |s.stack| > 0
  {
    Store(s.stack[..|s.stack| - 1], s.frames)
  }

  function Tested(s: Store): Value
    requires |s.stack| > 0
  {
    s.stack[|s.stack| - 1]
  }

  /** The structured meaning, without program counter or displacement: fuel bounds the loop
      iterations and the steps of each called word, and None says that it ran out. */
  function Eval(P: Program, st: Stmt, s: Store, fuel: nat): Option<Outcome>
    decreases fuel, st
  {
    match st
    case Skip => Some(Normal(s))
    case Plain(op) => Act(P, op, s, fuel)
    case Seq(a, b) =>
      var r := Eval(P, a, s, fuel);
      if r.Some? && r.value.Normal? then Eval(P, b, r.value.store, fuel) else r
    case If(neg, b) =>
      if s.stack == [] then Some(Gone(Fault))
      else if Skips(neg, Tested(s)) then Some(Normal(Popped(s)))
      else Eval(P, b, Popped(s), fuel)
    case IfElse(neg, a, b) =>
      if s.stack == [] then Some(Gone(Fault))
      else Eval(P, if Skips(neg, Tested(s)) then b else a, Popped(s), fuel)
    case Forever(b) =>
      if fuel == 0 then None else
      var r := Eval(P, b, s, fuel);
      if r.Some? && r.value.Normal? then Eval(P, st, r.value.store, fuel - 1) else r
    case Until(neg, b) =>
      if fuel == 0 then None else
      var r := Eval(P, b, s, fuel);
      if r.Some? && r.value.Normal? then
        var s1 := r.value.store;
        if s1.stack == [] then Some(Gone(Fault))
        else if Skips(neg, Tested(s1)) then Eval(P, st, Popped(s1), fuel - 1)
        else Some(Normal(Popped(s1)))
      else r
    case While(c, b) =>
      if fuel == 0 then None else
      var r := Eval(P, c, s, fuel);
      if r.Some? && r.value.Normal? then
        var s1 := r.value.store;
        if s1.stack == [] then Some(Gone(Fault))
        else if Skips(false, Tested(s1)) then Some(Normal(Popped(s1)))
        else
          var r2 := Eval(P, b, Popped(s1), fuel);
          if r2.Some? && r2.value.Normal? then Eval(P, st, r2.value.store, fuel - 1) else r2
      else r
  }

  /** Which way each test goes: if and while run their body on everything but the number 0, ifnot on
      that alone; until ends the loop on everything but 0, untilnot on 0. */
  lemma TestsAre(P: Program, a: Stmt, b: Stmt, s: Store, fuel: nat)
    requires |s.stack| > 0
    ensures var rest := Store(s.stack[..|s.stack| - 1], s.frames);
            var zero := s.stack[|s.stack| - 1] == IntV(0);
            && Eval(P, If(false, b), s, fuel) == (if zero then Some(Normal(rest)) else Eval(P, b, rest, fuel))
            && Eval(P, If(true, b), s, fuel) == (if zero then Eval(P, b, rest, fuel) else Some(Normal(rest)))
            && Eval(P, IfElse(false, a, b), s, fuel) == Eval(P, if zero then b else a, rest, fuel)
            && Eval(P, IfElse(true, a, b), s, fuel) == Eval(P, if zero then a else b, rest, fuel)
            && (fuel > 0 && zero ==> Eval(P, While(Skip, b), s, fuel) == Some(Normal(rest)))
            && (fuel > 0 && zero ==> Eval(P, Until(true, Skip), s, fuel) == Some(Normal(rest)))
            && (fuel > 0 && !zero ==> Eval(P, Until(false, Skip), s, fuel) == Some(Normal(rest)))
  {
    if fuel > 0 {
      assert Eval(P, Skip, s, fuel) == Some(Normal(s));
    }
  }

  // ----- runs inside a stretch of code -----

  /** A stretch of a word's code, seen from one activation of the word. */
  datatype Region = Region(word: nat, lo: int, hi: int, depth: nat)
  {
    /** Still in the stretch, or in a word called from it. */
    predicate Has(s: State) {
      s.Running? && (|s.frames| > depth || (|s.frames| == depth && s.ip.word == word && lo <= s.ip.off < hi))
    }
  }

  function At(w: nat, off: int, s: Store): State { Running(Ip(w, off), s.stack, s.frames) }

  /** The first n states of the run are in the region. */
  ghost predicate Stays(P: Program, s: State, n: nat, g: Region) {
    forall m: nat {:trigger Run(P, s, m)} :: m < n ==> g.Has(Run(P, s, m))
  }

  /** Step n of the run is the first outside the region, and its state is s'. */
  ghost predicate FirstExit(P: Program, s: State, n: nat, g: Region, s': State) {
    Stays(P, s, n, g) && Run(P, s, n) == s' && !g.Has(s')
  }

  lemma ExitUnique(P: Program, s: State, n: nat, s1: State, m: nat, s2: State, g: Region)
    requires FirstExit(P, s, n, g, s1) && FirstExit(P, s, m, g, s2)
    ensures n == m && s1 == s2
  {}

  lemma {:induction false} RunOn(P: Program, s: State, n: nat, m: nat)
    ensures Run(P, Run(P, s, n), m) == Run(P, s, n + m)
  {
    hide Step;
    if m > 0 { RunOn(P, s, n, m - 1); }
  }

  lemma StaysOn(P: Program, s: State, n: nat, m: nat, g: Region)
    requires Stays(P, s, n, g) && Stays(P, Run(P, s, n), m, g)
    ensures Stays(P, s, n + m, g)
  {
    forall q: nat | q < n + m
      ensures g.Has(Run(P, s, q))
    {
      if q >= n { RunOn(P, s, n, q - n); }
    }
  }

  lemma ExitOn(P: Program, s: State, n: nat, s1: State, m: nat, s2: State, g: Region)
    requires Stays(P, s, n, g) && Run(P, s, n) == s1 && FirstExit(P, s1, m, g, s2)
    ensures FirstExit(P, s, n + m, g, s2)
  {
    StaysOn(P, s, n, m, g);
    RunOn(P, s, n, m);
  }

  ghost predicate Within(small: Region, g: Region) {
    small.word == g.word && small.depth == g.depth && g.lo <= small.lo && small.hi <= g.hi
  }

  lemma Widen(P: Program, s: State, n: nat, small: Region, g: Region)
    requires Stays(P, s, n, small) && Within(small, g)
    ensures Stays(P, s, n, g)
  {}

  /** One step from a state in the region. */
  lemma OneStep(P: Program, s: State, g: Region)
    requires g.Has(s)
    ensures Stays(P, s, 1, g) && Run(P, s, 1) == Step(P, s)
  {
    assert Run(P, s, 0) == s;
  }

  // ----- a call is a run of the callee on its own -----

  /** The frames of a word running on its own, on top of those of a caller to come back to. */
  function Rebased(fs: seq<Frame>, next: Ip, frames: seq<Frame>): (r: seq<Frame>)
    requires |fs| > 0
    ensures |r| == |frames| + |fs|
  {
    frames + [Frame(Some(next), fs[0].locals, fs[0].written)] + fs[1..]
  }

  /** A run of a word on its own, seen as a call made from frames to come back at next. */
  function Lift(s: State, next: Ip, frames: seq<Frame>): State {
    match s
    case Running(ip, stack, fs) =>
      if fs == [] then s else Running(ip, stack, Rebased(fs, next, frames))
    case Exited(stack) => Running(next, stack, frames)
    case other => other
  }

  /** Only the bottom frame was opened from outside. */
  ghost predicate OnItsOwn(s: State) {
    s.Running? ==>
      && |s.frames| > 0 && s.frames[0].saved == None
      && forall i {:trigger s.frames[i]} :: 0 < i < |s.frames| ==> s.frames[i].saved.Some?
  }

  lemma RebasedTop(fs: seq<Frame>, next: Ip, frames: seq<Frame>)
    requires |fs| > 0
    ensures var r := Rebased(fs, next, frames);
            && r[|r| - 1].locals == fs[|fs| - 1].locals && r[|r| - 1].written == fs[|fs| - 1].written
            && (|fs| > 1 ==>
                r[|r| - 1].saved == fs[|fs| - 1].saved && r[..|r| - 1] == Rebased(fs[..|fs| - 1], next, frames))
            && (|fs| == 1 ==> r[|r| - 1].saved == Some(next) && r[..|r| - 1] == frames)
  {
    var r := Rebased(fs, next, frames);
    if |fs| > 1 {
      assert fs[..|fs| - 1][1..] == fs[1..][..|fs| - 2];
      assert r[..|r| - 1] == Rebased(fs[..|fs| - 1], next, frames);
    } else {
      assert r[..|r| - 1] == frames;
    }
  }

  lemma RebasedPush(fs: seq<Frame>, f: Frame, next: Ip, frames: seq<Frame>)
    requires |fs| > 0
    ensures Rebased(fs + [f], next, frames) == Rebased(fs, next, frames) + [f]
  {
    assert (fs + [f])[1..] == fs[1..] + [f];
  }

  lemma RebasedStore(fs: seq<Frame>, n: nat, v: Value, next: Ip, frames: seq<Frame>)
    requires |fs| > 0 && n < |fs[|fs| - 1].locals|
    ensures n < |Rebased(fs, next, frames)[|frames| + |fs| - 1].locals|
    ensures StoreLocal(Rebased(fs, next, frames), n, v) == Rebased(StoreLocal(fs, n, v), next, frames)
  {
    RebasedTop(fs, next, frames);
    RebasedTop(StoreLocal(fs, n, v), next, frames);
    var r := StoreLocal(Rebased(fs, next, frames), n, v);
    var q := Rebased(StoreLocal(fs, n, v), next, frames);
    assert StoreLocal(fs, n, v)[..|fs| - 1] == fs[..|fs| - 1];
    assert r[..|r| - 1] == q[..|q| - 1];
    assert r[|r| - 1] == q[|q| - 1];
    assert r == r[..|r| - 1] + [r[|r| - 1]] && q == q[..|q| - 1] + [q[|q| - 1]];
  }

  lemma LiftExecute(P: Program, op: Opcode, ip: Ip, stack: seq<Value>, fs: seq<Frame>, next: Ip, frames: seq<Frame>)
    requires OnItsOwn(Running(ip, stack, fs))
    ensures Execute(P, op, ip, stack, Rebased(fs, next, frames)) == Lift(Execute(P, op, ip, stack, fs), next, frames)
    ensures OnItsOwn(Execute(P, op, ip, stack, fs))
  {
    hide Rebased;
    LiftRunning(ip, stack, fs, next, frames);
    RebasedTop(fs, next, frames);
    match op
    case Call(w) =>
      if P.IsInterpreted(w) {
        RebasedPush(fs, Frame(Some(Ip(ip.word, ip.off + 1)), Zeros(P.words[w].numLocals), {}), next, frames);
        LiftRunning(Ip(w, 0), stack, fs + [Frame(Some(Ip(ip.word, ip.off + 1)), Zeros(P.words[w].numLocals), {})],
            next, frames);
      } else {
        LiftSame(fs, next, frames);
      }
    case PutLocal(n) =>
      if |stack| > 0 && n < |fs[|fs| - 1].locals| {
        RebasedStore(fs, n, stack[|stack| - 1], next, frames);
        LiftRunning(Ip(ip.word, ip.off + 1), stack[..|stack| - 1], StoreLocal(fs, n, stack[|stack| - 1]), next, frames);
      }
    case Ret =>
      if |fs| > 1 {
        LiftRunning(fs[|fs| - 1].saved.value, stack, fs[..|fs| - 1], next, frames);
      }
    case _ => LiftSame(fs, next, frames);
  }

  lemma LiftRunning(ip: Ip, stack: seq<Value>, fs: seq<Frame>, next: Ip, frames: seq<Frame>)
    requires |fs| > 0
    ensures Lift(Running(ip, stack, fs), next, frames) == Running(ip, stack, Rebased(fs, next, frames))
  {}

  lemma LiftSame(fs: seq<Frame>, next: Ip, frames: seq<Frame>)
    requires |fs| > 0
    ensures forall ip, stack ::
            Lift(Running(ip, stack, fs), next, frames) == Running(ip, stack, Rebased(fs, next, frames))
  {}

  lemma LiftStep(P: Program, s: State, next: Ip, frames: seq<Frame>)
    requires OnItsOwn(s) && s.Running?
    ensures Step(P, Lift(s, next, frames)) == Lift(Step(P, s), next, frames)
    ensures OnItsOwn(Step(P, s))
  {
    hide Execute, Rebased, Lift;
    LiftRunning(s.ip, s.stack, s.frames, next, frames);
    if InCode(P, s.ip) {
      LiftExecute(P, P.Code(s.ip.word)[s.ip.off], s.ip, s.stack, s.frames, next, frames);
    } else {
      LiftFault(next, frames);
    }
  }

  lemma LiftFault(next: Ip, frames: seq<Frame>)
    ensures Lift(Fault, next, frames) == Fault
  {}

  lemma StopsForGood(P: Program, s: State, n: nat)
    requires n > 0 && Run(P, s, n).Running?
    ensures Run(P, s, n - 1).Running?
  {}

  /** As long as the callee has not stopped, its run on its own and its run as a callee
      agree step by step. */
  lemma {:induction false} LiftRun(P: Program, s: State, next: Ip, frames: seq<Frame>, n: nat)
    requires OnItsOwn(s)
    requires n > 0 ==> Run(P, s, n - 1).Running?
    ensures Run(P, Lift(s, next, frames), n) == Lift(Run(P, s, n), next, frames)
    ensures OnItsOwn(Run(P, s, n))
  {
    hide Lift, OnItsOwn;
    if n > 0 {
      if n > 1 { StopsForGood(P, s, n - 1); }
      LiftRun(P, s, next, frames, n - 1);
      LiftStep(P, Run(P, s, n - 1), next, frames);
    }
  }

  lemma {:induction false} RunsUntil(P: Program, s: State, n: nat, q: nat)
    requires q <= n && Run(P, s, n).Running?
    ensures Run(P, s, q).Running?
    decreases n
  {
    if q < n {
      StopsForGood(P, s, n);
      RunsUntil(P, s, n - 1, q);
    }
  }

  lemma {:induction false} FirstStop(P: Program, s: State, n: nat) returns (m: nat)
    requires !Run(P, s, n).Running?
    ensures m <= n && Run(P, s, m) == Run(P, s, n)
    ensures m > 0 ==> Run(P, s, m - 1).Running?
  {
    if n == 0 || Run(P, s, n - 1).Running? {
      m := n;
    } else {
      m := FirstStop(P, s, n - 1);
    }
  }

  /** A run still in the callee is in every region at the caller's depth. */
  lemma CalleeStays(P: Program, s: State, next: Ip, frames: seq<Frame>, n: nat, g: Region)
    requires OnItsOwn(s) && g.depth == |frames|
    requires n > 0 ==> Run(P, s, n - 1).Running?
    ensures Stays(P, Lift(s, next, frames), n, g)
  {
    hide Lift, Region.Has, OnItsOwn;
    forall q: nat | q < n
      ensures g.Has(Run(P, Lift(s, next, frames), q))
    {
      CalleeHas(P, s, next, frames, n, q, g);
    }
  }

  lemma CalleeHas(P: Program, s: State, next: Ip, frames: seq<Frame>, n: nat, q: nat, g: Region)
    requires OnItsOwn(s) && g.depth == |frames|
    requires q < n && Run(P, s, n - 1).Running?
    ensures g.Has(Run(P, Lift(s, next, frames), q))
  {
    RunsUntil(P, s, n - 1, q);
    if q > 0 { RunsUntil(P, s, n - 1, q - 1); }
    LiftRun(P, s, next, frames, q);
  }

  // ----- one opcode -----

  ghost predicate Occurs(P: Program, w: nat, lo: nat, ops: seq<Opcode>) {
    && P.IsInterpreted(w) && lo + |ops| <= |P.Code(w)|
    && forall i {:trigger ops[i]} :: 0 <= i < |ops| ==> P.Code(w)[lo + i] == ops[i]
  }

  lemma OccursSplit(P: Program, w: nat, lo: nat, x: seq<Opcode>, y: seq<Opcode>)
    requires Occurs(P, w, lo, x + y)
    ensures Occurs(P, w, lo, x) && Occurs(P, w, lo + |x|, y)
  {
    forall i | 0 <= i < |x| ensures P.Code(w)[lo + i] == x[i] { assert (x + y)[i] == x[i]; }
    forall i | 0 <= i < |y| ensures P.Code(w)[lo + |x| + i] == y[i] { assert (x + y)[|x| + i] == y[i]; }
  }

  /** Where an outcome leaves the machine, when normal means reaching hi. */
  function Landing(out: Outcome, w: nat, hi: int): State {
    match out
    case Normal(s) => At(w, hi, s)
    case Gone(s) => s
  }

  /** A normal outcome keeps the frames open; any other has closed one, or is no longer running. */
  predicate Fits(out: Outcome, depth: nat) {
    match out
    case Normal(s) => |s.frames| == depth
    case Gone(s) => s.Running? ==> |s.frames| < depth
  }

  lemma ActMoves(P: Program, op: Opcode, w: nat, p: nat, s: Store, fuel: nat)
    requires !op.IsJump() && !(op.Call? && P.IsInterpreted(op.target))
    ensures Act(P, op, s, fuel).Some? && Fits(Act(P, op, s, fuel).value, |s.frames|)
    ensures Execute(P, op, Ip(w, p), s.stack, s.frames) == Landing(Act(P, op, s, fuel).value, w, p + 1)
  {
  }

  lemma ActExits(P: Program, op: Opcode, w: nat, p: nat, s: Store, fuel: nat) returns (n: nat)
    requires Occurs(P, w, p, [op]) && !op.IsJump() && Act(P, op, s, fuel).Some?
    ensures var out := Act(P, op, s, fuel).value;
            Fits(out, |s.frames|)
                && FirstExit(P, At(w, p, s), n, Region(w, p, p + 1, |s.frames|), Landing(out, w, p + 1))
  {
    var g := Region(w, p, p + 1, |s.frames|);
    assert P.Code(w)[p] == [op][0];
    OneStep(P, At(w, p, s), g);
    if op.Call? && P.IsInterpreted(op.target) {
      n := CallExits(P, op.target, w, p, s, fuel);
    } else {
      ActMoves(P, op, w, p, s, fuel);
      n := 1;
    }
  }

  lemma CallEnters(P: Program, t: nat, w: nat, p: nat, s: Store)
    requires Occurs(P, w, p, [Call(t)]) && P.IsInterpreted(t)
    ensures Step(P, At(w, p, s)) == Lift(Start(P, t, s.stack), Ip(w, p + 1), s.frames)
    ensures OnItsOwn(Start(P, t, s.stack))
  {
    assert P.Code(w)[p] == [Call(t)][0];
  }

  /** What the call leaves is what the callee, run on its own, leaves. */
  lemma CallLands(P: Program, t: nat, w: nat, p: nat, s: Store, fuel: nat)
    requires P.IsInterpreted(t) && !Run(P, Start(P, t, s.stack), fuel).Running?
    ensures var out := Act(P, Call(t), s, fuel).value;
            && Fits(out, |s.frames|)
            && Landing(out, w, p + 1) == Lift(Run(P, Start(P, t, s.stack), fuel), Ip(w, p + 1), s.frames)
            && !Region(w, p, p + 1, |s.frames|).Has(Landing(out, w, p + 1))
  {
    hide Run, Start;
  }

  lemma CallExits(P: Program, t: nat, w: nat, p: nat, s: Store, fuel: nat) returns (n: nat)
    requires Occurs(P, w, p, [Call(t)]) && P.IsInterpreted(t) && !Run(P, Start(P, t, s.stack), fuel).Running?
    ensures var out := Act(P, Call(t), s, fuel).value;
            Fits(out, |s.frames|)
                && FirstExit(P, At(w, p, s), n, Region(w, p, p + 1, |s.frames|), Landing(out, w, p + 1))
  {
    hide Run, Start, Step, Act, Fits, Landing, Lift, OnItsOwn, Stays, Occurs, Region.Has;
    var g := Region(w, p, p + 1, |s.frames|);
    var own := Start(P, t, s.stack);
    var next := Ip(w, p + 1);
    InRegion(P, w, p, s);
    OneStep(P, At(w, p, s), g);
    CallEnters(P, t, w, p, s);
    var m := FirstStop(P, own, fuel);
    CalleeStays(P, own, next, s.frames, m, g);
    LiftRun(P, own, next, s.frames, m);
    CallLands(P, t, w, p, s, fuel);
    ExitOn(P, At(w, p, s), 1, Lift(own, next, s.frames), m, Lift(Run(P, own, fuel), next, s.frames), g);
    n := 1 + m;
  }

  lemma InRegion(P: Program, w: nat, p: nat, s: Store)
    ensures Region(w, p, p + 1, |s.frames|).Has(At(w, p, s))
  {}

  lemma CallStays(P: Program, t: nat, w: nat, p: nat, s: Store, fuel: nat)
    requires Occurs(P, w, p, [Call(t)]) && P.IsInterpreted(t) && Run(P, Start(P, t, s.stack), fuel).Running?
    ensures Stays(P, At(w, p, s), fuel, Region(w, p, p + 1, |s.frames|))
  {
    var g := Region(w, p, p + 1, |s.frames|);
    var own := Start(P, t, s.stack);
    OneStep(P, At(w, p, s), g);
    CallEnters(P, t, w, p, s);
    if fuel > 0 { StopsForGood(P, own, fuel); }
    CalleeStays(P, own, Ip(w, p + 1), s.frames, fuel, g);
    StaysOn(P, At(w, p, s), 1, fuel, g);
  }

  /** The jump that skips, as the machine runs it. */
  lemma SkipStep(P: Program, neg: bool, disp: int, w: nat, p: nat, s: Store, g: Region)
    requires Occurs(P, w, p, [Skipping(neg, disp)]) && g.Has(At(w, p, s))
    ensures Stays(P, At(w, p, s), 1, g)
    ensures Run(P, At(w, p, s), 1) ==
              if s.stack == [] then Fault
              else At(w, if Skips(neg, Tested(s)) then p + 1 + disp else p + 1, Popped(s))
  {
    assert P.Code(w)[p] == [Skipping(neg, disp)][0];
    OneStep(P, At(w, p, s), g);
  }

  lemma JumpStep(P: Program, disp: int, w: nat, p: nat, s: Store, g: Region)
    requires Occurs(P, w, p, [Jump(disp)]) && g.Has(At(w, p, s))
    ensures Stays(P, At(w, p, s), 1, g) && Run(P, At(w, p, s), 1) == At(w, p + 1 + disp, s)
  {
    assert P.Code(w)[p] == [Jump(disp)][0];
    OneStep(P, At(w, p, s), g);
  }

  // ----- joining runs -----

  lemma WiderExit(P: Program, s: State, n: nat, small: Region, s1: State, g: Region)
    requires FirstExit(P, s, n, small, s1) && Within(small, g) && !g.Has(s1)
    ensures FirstExit(P, s, n, g, s1)
  {
    Widen(P, s, n, small, g);
  }

  lemma NoSteps(P: Program, s: State, g: Region)
    requires !g.Has(s)
    ensures FirstExit(P, s, 0, g, s)
  {}

  /** The state in which a statement ends is outside its code, and outside any larger stretch
      it leaves. */
  lemma LandsOutside(out: Outcome, w: nat, hi: int, g: Region)
    requires Fits(out, g.depth) && (out.Normal? ==> !(g.lo <= hi < g.hi))
    ensures !g.Has(Landing(out, w, hi))
  {}

  /** The run from offset at of the region leaves it after n steps with the given outcome. */
  ghost predicate Exits(P: Program, g: Region, at: int, s: Store, n: nat, out: Outcome) {
    Fits(out, g.depth) && FirstExit(P, At(g.word, at, s), n, g, Landing(out, g.word, g.hi))
  }

  /** The machine, started at offset at of the region, does what result r says: with None it
      is still in the region after fuel steps. */
  ghost predicate Follows(P: Program, g: Region, at: int, s: Store, fuel: nat, r: Option<Outcome>) {
    && |s.frames| == g.depth
    && match r
       case None => Stays(P, At(g.word, at, s), fuel, g)
       case Some(out) => exists n: nat :: Exits(P, g, at, s, n, out)
  }

  lemma Arrive(P: Program, g: Region, s: Store, fuel: nat)
    requires |s.frames| == g.depth
    ensures Follows(P, g, g.hi, s, fuel, Some(Normal(s)))
  {
    NoSteps(P, At(g.word, g.hi, s), g);
    assert Exits(P, g, g.hi, s, 0, Normal(s));
  }

  lemma Faults(P: Program, g: Region, at: int, s: Store, fuel: nat)
    requires Stays(P, At(g.word, at, s), 1, g) && Run(P, At(g.word, at, s), 1) == Fault && |s.frames| == g.depth
    ensures Follows(P, g, at, s, fuel, Some(Gone(Fault)))
  {
    assert Exits(P, g, at, s, 1, Gone(Fault));
  }

  lemma FewerSteps(P: Program, g: Region, at: int, s: Store, fuel: nat, r: Option<Outcome>)
    requires Follows(P, g, at, s, fuel + 1, r)
    ensures Follows(P, g, at, s, fuel, r)
  {
    if r.Some? {
      var n: nat :| Exits(P, g, at, s, n, r.value);
    }
  }

  lemma AfterStep(P: Program, g: Region, at: int, s: Store, at1: int, s1: Store, fuel: nat, r: Option<Outcome>)
    requires |s.frames| == g.depth
    requires Stays(P, At(g.word, at, s), 1, g) && Run(P, At(g.word, at, s), 1) == At(g.word, at1, s1)
    requires Follows(P, g, at1, s1, fuel, r)
    ensures Follows(P, g, at, s, fuel + 1, r)
  {
    hide Stays, FirstExit, Region.Has, At, Run;
    match r {
      case None => StaysOn(P, At(g.word, at, s), 1, fuel, g);
      case Some(out) =>
        var n: nat :| Exits(P, g, at1, s1, n, out);
        ExitOn(P, At(g.word, at, s), 1, At(g.word, at1, s1), n, Landing(out, g.word, g.hi), g);
        assert Exits(P, g, at, s, 1 + n, out);
    }
  }

  /** A part of the region, and then the rest if the part ends normally. */
  lemma PartThenRest(P: Program, small: Region, g: Region, at: int, s: Store, fuel: nat, r: Option<Outcome>,
                     r2: Option<Outcome>)
    requires Within(small, g) && Follows(P, small, at, s, fuel, r)
    requires if r.Some? && r.value.Normal? then Follows(P, g, small.hi, r.value.store, fuel, r2) else r2 == r
    ensures Follows(P, g, at, s, fuel, r2)
  {
    hide Stays, FirstExit, Region.Has, At, Run;
    var from := At(g.word, at, s);
    match r {
      case None => Widen(P, from, fuel, small, g);
      case Some(out) =>
        var n: nat :| Exits(P, small, at, s, n, out);
        if out.Gone? {
          LandsOutside(out, g.word, g.hi, g);
          WiderExit(P, from, n, small, out.state, g);
          assert Exits(P, g, at, s, n, out);
        } else {
          ThenNormal(P, small, g, at, s, fuel, n, out.store, r2);
        }
    }
  }

  lemma ThenNormal(P: Program, small: Region, g: Region, at: int, s: Store, fuel: nat, n: nat, s1: Store,
                   r2: Option<Outcome>)
    requires Within(small, g) && |s.frames| == g.depth && Exits(P, small, at, s, n, Normal(s1))
    requires Follows(P, g, small.hi, s1, fuel, r2)
    ensures Follows(P, g, at, s, fuel, r2)
  {
    hide Stays, FirstExit, Region.Has, At, Run;
    var from := At(g.word, at, s);
    var mid := At(g.word, small.hi, s1);
    ExitParts(P, from, n, small, mid);
    Widen(P, from, n, small, g);
    match r2 {
      case None =>
        StaysOn(P, from, n, fuel, g);
        StaysFewer(P, from, n + fuel, fuel, g);
      case Some(out) =>
        var m: nat :| Exits(P, g, small.hi, s1, m, out);
        ExitOn(P, from, n, mid, m, Landing(out, g.word, g.hi), g);
        assert Exits(P, g, at, s, n + m, out);
    }
  }

  lemma ExitParts(P: Program, s: State, n: nat, g: Region, x: State)
    requires FirstExit(P, s, n, g, x)
    ensures Stays(P, s, n, g) && Run(P, s, n) == x
  {}

  lemma StaysFewer(P: Program, s: State, n: nat, m: nat, g: Region)
    requires Stays(P, s, n, g) && m <= n
    ensures Stays(P, s, m, g)
  {}

  /** The last part of the region decides. */
  lemma Last(P: Program, small: Region, g: Region, at: int, s: Store, fuel: nat, r: Option<Outcome>)
    requires Within(small, g) && small.hi == g.hi && Follows(P, small, at, s, fuel, r)
    ensures Follows(P, g, at, s, fuel, r)
  {
    hide Stays, FirstExit, Region.Has, At, Run;
    if r.Some? && r.value.Normal? {
      var n: nat :| Exits(P, small, at, s, n, r.value);
      Arrive(P, g, r.value.store, fuel);
    }
    PartThenRest(P, small, g, at, s, fuel, r, r);
  }

  // ----- statement by statement -----

  function Span(w: nat, lo: int, len: nat, s: Store): Region { Region(w, lo, lo + len, |s.frames|) }

  /** The flat code, wherever it stands in a word, follows the structured meaning. */
  lemma {:induction false} Follow(P: Program, st: Stmt, s: Store, fuel: nat, w: nat, lo: nat)
    requires Occurs(P, w, lo, Flat(st)) && st.NoJumps()
    ensures Follows(P, Span(w, lo, |Flat(st)|, s), lo, s, fuel, Eval(P, st, s, fuel))
    decreases fuel, st, 1
  {
    hide Follows, Occurs, Flat, Eval, Skipping;
    FlatUnfold(st);
    match st
    case Skip => FollowSkip(P, s, fuel, w, lo);
    case Plain(op) => FollowPlain(P, op, s, fuel, w, lo);
    case Seq(a, b) => FollowSeq(P, a, b, s, fuel, w, lo);
    case If(neg, b) => FollowIf(P, neg, b, s, fuel, w, lo);
    case IfElse(neg, a, b) => FollowElse(P, neg, a, b, s, fuel, w, lo);
    case Forever(b) => FollowForever(P, b, s, fuel, w, lo);
    case Until(neg, b) => FollowUntil(P, neg, b, s, fuel, w, lo);
    case While(c, b) => FollowWhile(P, c, b, s, fuel, w, lo);
  }

  lemma FollowSkip(P: Program, s: Store, fuel: nat, w: nat, lo: nat)
    ensures Follows(P, Span(w, lo, 0, s), lo, s, fuel, Eval(P, Skip, s, fuel))
  {
    Arrive(P, Span(w, lo, 0, s), s, fuel);
  }

  lemma FollowPlain(P: Program, op: Opcode, s: Store, fuel: nat, w: nat, p: nat)
    requires Occurs(P, w, p, [op]) && !op.IsJump()
    ensures Follows(P, Span(w, p, 1, s), p, s, fuel, Eval(P, Stmt.Plain(op), s, fuel))
  {
    FollowAct(P, op, s, fuel, w, p);
  }

  lemma FollowAct(P: Program, op: Opcode, s: Store, fuel: nat, w: nat, p: nat)
    requires Occurs(P, w, p, [op]) && !op.IsJump()
    ensures Follows(P, Span(w, p, 1, s), p, s, fuel, Act(P, op, s, fuel))
  {
    if Act(P, op, s, fuel).Some? {
      var n := ActExits(P, op, w, p, s, fuel);
      assert Exits(P, Span(w, p, 1, s), p, s, n, Act(P, op, s, fuel).value);
    } else {
      CallStays(P, op.target, w, p, s, fuel);
    }
  }

  lemma FollowsDepth(P: Program, g: Region, at: int, s: Store, fuel: nat, r: Option<Outcome>)
    requires Follows(P, g, at, s, fuel, r)
    ensures r.Some? && r.value.Normal? ==> |r.value.store.frames| == g.depth
  {}

  lemma FollowSeq(P: Program, a: Stmt, b: Stmt, s: Store, fuel: nat, w: nat, lo: nat)
    requires Occurs(P, w, lo, Flat(a) + Flat(b)) && a.NoJumps() && b.NoJumps()
    ensures Follows(P, Span(w, lo, |Flat(a)| + |Flat(b)|, s), lo, s, fuel, Eval(P, Seq(a, b), s, fuel))
    decreases fuel, Seq(a, b), 0
  {
    hide Follows, Occurs, Flat;
    OccursSplit(P, w, lo, Flat(a), Flat(b));
    var g := Span(w, lo, |Flat(a)| + |Flat(b)|, s);
    var small := Span(w, lo, |Flat(a)|, s);
    var r := Eval(P, a, s, fuel);
    Follow(P, a, s, fuel, w, lo);
    FollowsDepth(P, small, lo, s, fuel, r);
    if r.Some? && r.value.Normal? {
      var s1 := r.value.store;
      Follow(P, b, s1, fuel, w, lo + |Flat(a)|);
      Last(P, Span(w, lo + |Flat(a)|, |Flat(b)|, s1), g, lo + |Flat(a)|, s1, fuel, Eval(P, b, s1, fuel));
    }
    PartThenRest(P, small, g, lo, s, fuel, r, Eval(P, Seq(a, b), s, fuel));
  }

  /** After the test: to the code behind it, or over it. */
  lemma FollowTest(P: Program, neg: bool, disp: int, s: Store, fuel: nat, p: nat, g: Region, r: Option<Outcome>)
    requires Occurs(P, g.word, p, [Skipping(neg, disp)]) && g.lo <= p < g.hi && |s.frames| == g.depth
    requires if s.stack == [] then r == Some(Gone(Fault))
             else Follows(P, g, if Skips(neg, Tested(s)) then p + 1 + disp else p + 1, Popped(s), fuel, r)
    ensures Follows(P, g, p, s, fuel + 1, r)
  {
    SkipStep(P, neg, disp, g.word, p, s, g);
    if s.stack == [] {
      Faults(P, g, p, s, fuel + 1);
    } else {
      AfterStep(P, g, p, s, if Skips(neg, Tested(s)) then p + 1 + disp else p + 1, Popped(s), fuel, r);
    }
  }

  lemma FollowIf(P: Program, neg: bool, b: Stmt, s: Store, fuel: nat, w: nat, lo: nat)
    requires Occurs(P, w, lo, IfCode(neg, Flat(b))) && b.NoJumps()
    ensures Follows(P, Span(w, lo, 1 + |Flat(b)|, s), lo, s, fuel, Eval(P, If(neg, b), s, fuel))
    decreases fuel, If(neg, b), 0
  {
    hide Follows, Occurs, Flat;
    OccursSplit(P, w, lo, [Skipping(neg, |Flat(b)|)], Flat(b));
    var g := Span(w, lo, 1 + |Flat(b)|, s);
    if s.stack != [] {
      if Skips(neg, Tested(s)) {
        Arrive(P, g, Popped(s), fuel);
      } else {
        Follow(P, b, Popped(s), fuel, w, lo + 1);
        Last(P, Span(w, lo + 1, |Flat(b)|, s), g, lo + 1, Popped(s), fuel, Eval(P, b, Popped(s), fuel));
      }
    }
    FollowTest(P, neg, |Flat(b)|, s, fuel, lo, g, Eval(P, If(neg, b), s, fuel));
    FewerSteps(P, g, lo, s, fuel, Eval(P, If(neg, b), s, fuel));
  }

  /** The first branch of an else, and the jump over the second. */
  lemma FollowYes(P: Program, a: Stmt, over: nat, s: Store, fuel: nat, w: nat, lo: nat, g: Region, r: Option<Outcome>)
    requires Occurs(P, w, lo + |Flat(a)|, [Jump(over)])
    requires g == Region(w, g.lo, lo + |Flat(a)| + 1 + over, |s.frames|) && g.lo <= lo
    requires Follows(P, Span(w, lo, |Flat(a)|, s), lo, s, fuel, r)
    ensures Follows(P, g, lo, s, fuel, r)
  {
    hide Follows, Occurs, Flat;
    var at := lo + |Flat(a)|;
    FollowsDepth(P, Span(w, lo, |Flat(a)|, s), lo, s, fuel, r);
    if r.Some? && r.value.Normal? {
      Arrive(P, g, r.value.store, fuel);
      JumpStep(P, over, w, at, r.value.store, g);
      AfterStep(P, g, at, r.value.store, g.hi, r.value.store, fuel, r);
      FewerSteps(P, g, at, r.value.store, fuel, r);
    }
    PartThenRest(P, Span(w, lo, |Flat(a)|, s), g, lo, s, fuel, r, r);
  }

  lemma FollowElse(P: Program, neg: bool, a: Stmt, b: Stmt, s: Store, fuel: nat, w: nat, lo: nat)
    requires Occurs(P, w, lo, ElseCode(neg, Flat(a), Flat(b))) && a.NoJumps() && b.NoJumps()
    ensures Follows(P, Span(w, lo, 2 + |Flat(a)| + |Flat(b)|, s), lo, s, fuel, Eval(P, IfElse(neg, a, b), s, fuel))
    decreases fuel, IfElse(neg, a, b), 0
  {
    hide Follows, Occurs, Flat;
    OccursSplit(P, w, lo, [Skipping(neg, |Flat(a)| + 1)] + Flat(a) + [Jump(|Flat(b)|)], Flat(b));
    OccursSplit(P, w, lo, [Skipping(neg, |Flat(a)| + 1)] + Flat(a), [Jump(|Flat(b)|)]);
    OccursSplit(P, w, lo, [Skipping(neg, |Flat(a)| + 1)], Flat(a));
    var g := Span(w, lo, 2 + |Flat(a)| + |Flat(b)|, s);
    var no := lo + 2 + |Flat(a)|;
    var r := Eval(P, IfElse(neg, a, b), s, fuel);
    if s.stack != [] {
      if Skips(neg, Tested(s)) {
        Follow(P, b, Popped(s), fuel, w, no);
        Last(P, Span(w, no, |Flat(b)|, s), g, no, Popped(s), fuel, r);
      } else {
        Follow(P, a, Popped(s), fuel, w, lo + 1);
        FollowYes(P, a, |Flat(b)|, Popped(s), fuel, w, lo + 1, g, r);
      }
    }
    FollowTest(P, neg, |Flat(a)| + 1, s, fuel, lo, g, r);
    FewerSteps(P, g, lo, s, fuel, r);
  }

  lemma FollowForever(P: Program, b: Stmt, s: Store, fuel: nat, w: nat, lo: nat)
    requires Occurs(P, w, lo, LoopCode(Flat(b), Jump(0))) && b.NoJumps()
    ensures Follows(P, Span(w, lo, |Flat(b)| + 1, s), lo, s, fuel, Eval(P, Forever(b), s, fuel))
    decreases fuel, Forever(b), 0
  {
    hide Follows, Occurs, Flat;
    OccursSplit(P, w, lo, Flat(b), [Jump(-|Flat(b)| - 1)]);
    var g := Span(w, lo, |Flat(b)| + 1, s);
    var r := Eval(P, b, s, fuel);
    var end := Eval(P, Forever(b), s, fuel);
    if fuel == 0 {
      NoTime(P, g, lo, s);
    } else {
      Follow(P, b, s, fuel, w, lo);
      FollowsDepth(P, Span(w, lo, |Flat(b)|, s), lo, s, fuel, r);
      if r.Some? && r.value.Normal? {
        var s1 := r.value.store;
        FollowForever(P, b, s1, fuel - 1, w, lo);
        JumpStep(P, -|Flat(b)| - 1, w, lo + |Flat(b)|, s1, g);
        AfterStep(P, g, lo + |Flat(b)|, s1, lo, s1, fuel - 1, end);
      }
      PartThenRest(P, Span(w, lo, |Flat(b)|, s), g, lo, s, fuel, r, end);
    }
  }

  lemma NoTime(P: Program, g: Region, at: int, s: Store)
    requires |s.frames| == g.depth
    ensures Follows(P, g, at, s, 0, None)
  {}

  lemma FollowUntil(P: Program, neg: bool, b: Stmt, s: Store, fuel: nat, w: nat, lo: nat)
    requires Occurs(P, w, lo, LoopCode(Flat(b), Skipping(neg, 0))) && b.NoJumps()
    ensures Follows(P, Span(w, lo, |Flat(b)| + 1, s), lo, s, fuel, Eval(P, Until(neg, b), s, fuel))
    decreases fuel, Until(neg, b), 0
  {
    hide Follows, Occurs, Flat;
    OccursSplit(P, w, lo, Flat(b), [Skipping(neg, -|Flat(b)| - 1)]);
    var g := Span(w, lo, |Flat(b)| + 1, s);
    var r := Eval(P, b, s, fuel);
    var end := Eval(P, Until(neg, b), s, fuel);
    if fuel == 0 {
      NoTime(P, g, lo, s);
    } else {
      Follow(P, b, s, fuel, w, lo);
      FollowsDepth(P, Span(w, lo, |Flat(b)|, s), lo, s, fuel, r);
      if r.Some? && r.value.Normal? {
        var s1 := r.value.store;
        if s1.stack != [] {
          if Skips(neg, Tested(s1)) {
            FollowUntil(P, neg, b, Popped(s1), fuel - 1, w, lo);
          } else {
            Arrive(P, g, Popped(s1), fuel - 1);
          }
        }
        FollowTest(P, neg, -|Flat(b)| - 1, s1, fuel - 1, lo + |Flat(b)|, g, end);
      }
      PartThenRest(P, Span(w, lo, |Flat(b)|, s), g, lo, s, fuel, r, end);
    }
  }

  lemma FollowWhile(P: Program, c: Stmt, b: Stmt, s: Store, fuel: nat, w: nat, lo: nat)
    requires Occurs(P, w, lo, WhileCode(Flat(c), Flat(b))) && c.NoJumps() && b.NoJumps()
    ensures Follows(P, Span(w, lo, |Flat(c)| + |Flat(b)| + 2, s), lo, s, fuel, Eval(P, While(c, b), s, fuel))
    decreases fuel, While(c, b), 0
  {
    hide Follows, Occurs, Flat;
    var g := Span(w, lo, |Flat(c)| + |Flat(b)| + 2, s);
    var r := Eval(P, c, s, fuel);
    var end := Eval(P, While(c, b), s, fuel);
    WhileParts(P, Flat(c), Flat(b), w, lo);
    if fuel == 0 {
      NoTime(P, g, lo, s);
    } else {
      Follow(P, c, s, fuel, w, lo);
      FollowsDepth(P, Span(w, lo, |Flat(c)|, s), lo, s, fuel, r);
      if r.Some? && r.value.Normal? {
        FollowBody(P, c, b, r.value.store, fuel, w, lo, end);
      }
      PartThenRest(P, Span(w, lo, |Flat(c)|, s), g, lo, s, fuel, r, end);
    }
  }

  lemma WhileParts(P: Program, fc: seq<Opcode>, fb: seq<Opcode>, w: nat, lo: nat)
    requires Occurs(P, w, lo, WhileCode(fc, fb))
    ensures Occurs(P, w, lo, fc) && Occurs(P, w, lo + |fc|, [JumpIfNot(|fb| + 1)])
    ensures Occurs(P, w, lo + |fc| + 1, fb) && Occurs(P, w, lo + |fc| + 1 + |fb|, [Jump(-|fc| - |fb| - 2)])
  {
    hide Occurs;
    OccursSplit(P, w, lo, fc + [JumpIfNot(|fb| + 1)] + fb, [Jump(-|fc| - |fb| - 2)]);
    OccursSplit(P, w, lo, fc + [JumpIfNot(|fb| + 1)], fb);
    OccursSplit(P, w, lo, fc, [JumpIfNot(|fb| + 1)]);
  }

  lemma JumpBack(P: Program, len: int, s: Store, fuel: nat, at: nat, lo: nat, g: Region, r: Option<Outcome>)
    requires len >= 0 && Occurs(P, g.word, at, [Jump(-len - 1)]) && at == lo + len && g.lo <= at < g.hi
    requires Follows(P, g, lo, s, fuel, r)
    ensures Follows(P, g, at, s, fuel + 1, r)
  {
    JumpStep(P, -len - 1, g.word, at, s, g);
    AfterStep(P, g, at, s, lo, s, fuel, r);
  }

  /** From the test of a while loop on, with the condition's value on the stack. */
  lemma FollowBody(P: Program, c: Stmt, b: Stmt, s1: Store, fuel: nat, w: nat, lo: nat, end: Option<Outcome>)
    requires Occurs(P, w, lo, WhileCode(Flat(c), Flat(b))) && c.NoJumps() && b.NoJumps() && fuel > 0
    requires end == (
      if s1.stack == [] then Some(Gone(Fault))
      else if Skips(false, Tested(s1)) then Some(Normal(Popped(s1)))
      else
        var r2 := Eval(P, b, Popped(s1), fuel);
        if r2.Some? && r2.value.Normal? then Eval(P, While(c, b), r2.value.store, fuel - 1) else r2)
    ensures Follows(P, Span(w, lo, |Flat(c)| + |Flat(b)| + 2, s1), lo + |Flat(c)|, s1, fuel, end)
    decreases fuel, b, 2
  {
    hide Follows, Occurs, Flat, Eval;
    WhileParts(P, Flat(c), Flat(b), w, lo);
    var g := Span(w, lo, |Flat(c)| + |Flat(b)| + 2, s1);
    var body := lo + |Flat(c)| + 1;
    if s1.stack != [] {
      if Skips(false, Tested(s1)) {
        Arrive(P, g, Popped(s1), fuel);
      } else {
        var r2 := Eval(P, b, Popped(s1), fuel);
        Follow(P, b, Popped(s1), fuel, w, body);
        FollowsDepth(P, Span(w, body, |Flat(b)|, s1), body, Popped(s1), fuel, r2);
        if r2.Some? && r2.value.Normal? {
          FollowWhile(P, c, b, r2.value.store, fuel - 1, w, lo);
          JumpBack(P, |Flat(c)| + |Flat(b)| + 1, r2.value.store, fuel - 1, body + |Flat(b)|, lo, g, end);
        }
        PartThenRest(P, Span(w, body, |Flat(b)|, s1), g, body, Popped(s1), fuel, r2, end);
      }
    }
    FollowTest(P, false, |Flat(b)| + 1, s1, fuel, lo + |Flat(c)|, g, end);
    FewerSteps(P, g, lo + |Flat(c)|, s1, fuel, end);
  }

  /** Running the flat code is the structured meaning: the machine first leaves the code with
      an outcome exactly when the structured evaluation gives that outcome with enough fuel. */
  lemma StructuredMeaning(P: Program, st: Stmt, s: Store, w: nat, lo: nat, out: Outcome)
    requires Occurs(P, w, lo, Flat(st)) && st.NoJumps()
    ensures (exists fuel: nat :: Eval(P, st, s, fuel) == Some(out))
            <==> (exists n: nat :: Exits(P, Span(w, lo, |Flat(st)|, s), lo, s, n, out))
  {
    hide Eval, Flat, Exits, Follows;
    var g := Span(w, lo, |Flat(st)|, s);
    if fuel: nat :| Eval(P, st, s, fuel) == Some(out) {
      Follow(P, st, s, fuel, w, lo);
      FollowsExit(P, g, lo, s, fuel, out);
    }
    if n: nat :| Exits(P, g, lo, s, n, out) {
      Follow(P, st, s, n + 1, w, lo);
      OnlyExit(P, g, lo, s, n, out, Eval(P, st, s, n + 1));
    }
  }

  lemma FollowsExit(P: Program, g: Region, at: int, s: Store, fuel: nat, out: Outcome)
    requires Follows(P, g, at, s, fuel, Some(out))
    ensures exists n: nat :: Exits(P, g, at, s, n, out)
  {}

  lemma OnlyExit(P: Program, g: Region, at: int, s: Store, n: nat, out: Outcome, r: Option<Outcome>)
    requires Exits(P, g, at, s, n, out) && Follows(P, g, at, s, n + 1, r)
    ensures r == Some(out)
  {
    var from := At(g.word, at, s);
    if r == None {
      assert false;
    } else {
      var m: nat :| Exits(P, g, at, s, m, r.value);
      ExitUnique(P, from, n, Landing(out, g.word, g.hi), m, Landing(r.value, g.word, g.hi), g);
    }
  }

  // ----- a word built from a statement -----

  lemma {:induction false} StartOnItsOwn(P: Program, w: nat, stack: seq<Value>, n: nat)
    requires P.IsInterpreted(w)
    ensures OnItsOwn(Run(P, Start(P, w, stack), n))
  {
    if n > 0 {
      StartOnItsOwn(P, w, stack, n - 1);
      var s := Run(P, Start(P, w, stack), n - 1);
      if s.Running? { LiftStep(P, s, ANYWHERE, []); }
    }
  }

  lemma StoppedTwice(P: Program, s: State, n: nat, m: nat)
    requires !Run(P, s, n).Running? && !Run(P, s, m).Running?
    ensures Run(P, s, n) == Run(P, s, m)
  {
    if n <= m { Stopped(P, s, n, m); } else { Stopped(P, s, m, n); }
  }

  lemma EntryStore(P: Program, w: nat, stack: seq<Value>) returns (s: Store)
    requires P.IsInterpreted(w)
    ensures Start(P, w, stack) == At(w, 0, s) && s == Store(stack, [Frame(None, Zeros(P.words[w].numLocals), {})])
  {
    s := Store(stack, [Frame(None, Zeros(P.words[w].numLocals), {})]);
    assert [] + [Frame(None, Zeros(P.words[w].numLocals), {})] == s.frames;
  }

  lemma RunsOff(P: Program, s: State, m: nat, n: nat)
    requires Run(P, s, m).Running? && !InCode(P, Run(P, s, m).ip) && !Run(P, s, n).Running?
    ensures Run(P, s, n) == Fault
  {
    StoppedTwice(P, s, m + 1, n);
  }

  /** When the machine stops running a word whose code is the flat code of a statement, the
      structured evaluation says how. */
  lemma WholeWord(P: Program, st: Stmt, w: nat, stack: seq<Value>, s: Store, n: nat, r: Option<Outcome>)
    requires P.IsInterpreted(w) && P.Code(w) == Flat(st)
    requires Start(P, w, stack) == At(w, 0, s) && |s.frames| == 1
    requires Follows(P, Span(w, 0, |Flat(st)|, s), 0, s, n + 1, r)
    requires !Run(P, Start(P, w, stack), n).Running? && Run(P, Start(P, w, stack), n) != Fault
    ensures r == Some(Gone(Run(P, Start(P, w, stack), n)))
  {
    hide Flat, Step, Run;
    var from := Start(P, w, stack);
    var g := Span(w, 0, |Flat(st)|, s);
    if r == None {
      assert false;
    } else {
      var m: nat :| Exits(P, g, 0, s, m, r.value);
      StartOnItsOwn(P, w, stack, m);
      if r.value.Normal? {
        RunsOff(P, from, m, n);
      } else {
        StoppedTwice(P, from, m, n);
      }
    }
  }

  lemma OccursAll(P: Program, w: nat)
    requires P.IsInterpreted(w)
    ensures Occurs(P, w, 0, P.Code(w))
  {}

  /** A word made by the builder calls of a statement: called from outside, it returns with
      stack result exactly when the structured meaning of the statement, and a return after
      it, does. */
  lemma WordMeaning(P: Program, st: Stmt, w: nat, stack: seq<Value>, result: seq<Value>)
    requires st.NoJumps() && P.IsInterpreted(w)
    requires BuiltCode(Calls(st)) == Some(P.Code(w))
    ensures var body := if P.Code(w) == Flat(st) then st else Seq(st, Stmt.Plain(Ret));
            var s := Store(stack, [Frame(None, Zeros(P.words[w].numLocals), {})]);
            (exists n: nat :: Run(P, Start(P, w, stack), n) == Exited(result))
            <==> (exists fuel: nat :: Eval(P, body, s, fuel) == Some(Gone(Exited(result))))
  {
    hide Eval, Flat, Exits, Follows, Run;
    var body := if P.Code(w) == Flat(st) then st else Seq(st, Stmt.Plain(Ret));
    BuiltBody(P, st, w);
    var s := EntryStore(P, w, stack);
    var from := Start(P, w, stack);
    OccursAll(P, w);
    var out := Gone(Exited(result));
    if n: nat :| Run(P, from, n) == Exited(result) {
      Follow(P, body, s, n + 1, w, 0);
      WholeWord(P, body, w, stack, s, n, Eval(P, body, s, n + 1));
    }
    if fuel: nat :| Eval(P, body, s, fuel) == Some(out) {
      Follow(P, body, s, fuel, w, 0);
      FollowsExit(P, Span(w, 0, |Flat(body)|, s), 0, s, fuel, out);
      var m: nat :| Exits(P, Span(w, 0, |Flat(body)|, s), 0, s, m, out);
      ExitedAt(P, Span(w, 0, |Flat(body)|, s), 0, s, m, result);
    }
  }

  lemma ExitedAt(P: Program, g: Region, at: int, s: Store, m: nat, result: seq<Value>)
    requires Exits(P, g, at, s, m, Gone(Exited(result)))
    ensures Run(P, At(g.word, at, s), m) == Exited(result)
  {}

  lemma BuiltBody(P: Program, st: Stmt, w: nat)
    requires st.NoJumps() && P.IsInterpreted(w)
    requires BuiltCode(Calls(st)) == Some(P.Code(w))
    ensures var body := if P.Code(w) == Flat(st) then st else Seq(st, Stmt.Plain(Ret));
            body.NoJumps() && P.Code(w) == Flat(body)
  {
    CallsBuild(st, [], []);
    assert Leaves(Draft([], [], true), Calls(st), [] + Flat(st), []);
    assert [] + Flat(st) == Flat(st);
  }
}
