// Structured control flow: the words if, else, then, begin, again, until, while and repeat, the
// builder calls they make, and the flat code those calls leave.

module Structured {
  import opened Wrappers
  import opened Programs
  import opened OpMachine
  import opened Builder
  import Rotation

  /** Source text between a word's colon and semicolon. A statement with neg set uses ifnot or
      untilnot. Plain holds any opcode but a jump. */
  datatype Stmt =
    | Skip
    | Plain(op: Opcode)
    | Seq(first: Stmt, second: Stmt)
    | If(neg: bool, body: Stmt)
    | IfElse(neg: bool, yes: Stmt, no: Stmt)
    | Forever(body: Stmt)                  // begin body again
    | Until(neg: bool, body: Stmt)         // begin body until
    | While(cond: Stmt, body: Stmt)        // begin cond while body repeat
  {
    predicate NoJumps() {
      match this
      case Skip => true
      case Plain(op) => !op.IsJump()
      case Seq(a, b) => a.NoJumps() && b.NoJumps()
      case If(_, b) => b.NoJumps()
      case IfElse(_, a, b) => a.NoJumps() && b.NoJumps()
      case Forever(b) => b.NoJumps()
      case Until(_, b) => b.NoJumps()
      case While(c, b) => c.NoJumps() && b.NoJumps()
    }
  }

  /** The jump that skips when the tested value is false, or, with neg, when it is true. */
  function Skipping(neg: bool, disp: int): Opcode { if neg then JumpIf(disp) else JumpIfNot(disp) }

  predicate Skips(neg: bool, v: Value) { v.ToBool() == neg }

  /** The builder calls. else is ahead, 1 cs-roll, then; while is if, 1 cs-roll; repeat is
      again, then. */
  function Calls(st: Stmt): seq<Action> {
    match st
    case Skip => []
    case Plain(op) => [Action.Plain(op)]
    case Seq(a, b) => Calls(a) + Calls(b)
    case If(neg, b) => [DoAhead(Skipping(neg, 0))] + Calls(b) + [DoThen]
    case IfElse(neg, a, b) =>
      [DoAhead(Skipping(neg, 0))] + Calls(a) + [DoAhead(Jump(0)), DoRoll(1), DoThen] + Calls(b) + [DoThen]
    case Forever(b) => [DoBegin] + Calls(b) + [DoAgain(Jump(0))]
    case Until(neg, b) => [DoBegin] + Calls(b) + [DoAgain(Skipping(neg, 0))]
    case While(c, b) =>
      [DoBegin] + Calls(c) + [DoAhead(JumpIfNot(0)), DoRoll(1)] + Calls(b) + [DoAgain(Jump(0)), DoThen]
  }

  function IfCode(neg: bool, body: seq<Opcode>): seq<Opcode> { [Skipping(neg, |body|)] + body }

  function ElseCode(neg: bool, yes: seq<Opcode>, no: seq<Opcode>): seq<Opcode> {
    [Skipping(neg, |yes| + 1)] + yes + [Jump(|no|)] + no
  }

  /** A body and a jump back to its start. */
  function LoopCode(body: seq<Opcode>, op: Opcode): seq<Opcode>
    requires op.IsJump()
  {
    body + [Resolved(op, -|body| - 1)]
  }

  function WhileCode(cond: seq<Opcode>, body: seq<Opcode>): seq<Opcode> {
    cond + [JumpIfNot(|body| + 1)] + body + [Jump(-|cond| - |body| - 2)]
  }

  /** The opcodes, with relative displacements. */
  function Flat(st: Stmt): seq<Opcode> {
    match st
    case Skip => []
    case Plain(op) => [op]
    case Seq(a, b) => Flat(a) + Flat(b)
    case If(neg, b) => IfCode(neg, Flat(b))
    case IfElse(neg, a, b) => ElseCode(neg, Flat(a), Flat(b))
    case Forever(b) => LoopCode(Flat(b), Jump(0))
    case Until(neg, b) => LoopCode(Flat(b), Skipping(neg, 0))
    case While(c, b) => WhileCode(Flat(c), Flat(b))
  }

  // ----- the calls build the flat code -----

  lemma {:induction false} PerformAppend(b: Draft, x: seq<Action>, y: seq<Action>)
    ensures PerformAll(b, x + y) ==
            match PerformAll(b, x)
            case None => None
            case Some(b') => PerformAll(b', y)
    decreases |y|
  {
    if y == [] {
      assert x + y == x;
    } else {
      assert (x + y)[..|x + y| - 1] == x + y[..|y| - 1];
      PerformAppend(b, x, y[..|y| - 1]);
    }
  }

  ghost predicate Leaves(b: Draft, calls: seq<Action>, code: seq<Opcode>, cf: seq<int>) {
    var r := PerformAll(b, calls);
    r.Some? && r.value.code == code && r.value.cf == cf
  }

  /** From code and control-flow stack cf, the calls succeed and leave code' and cf'. */
  ghost predicate Makes(calls: seq<Action>, code: seq<Opcode>, cf: seq<int>, code': seq<Opcode>, cf': seq<int>) {
    forall j: bool :: Leaves(Draft(code, cf, j), calls, code', cf')
  }

  lemma MakesAppend(x: seq<Action>, y: seq<Action>, code: seq<Opcode>, cf: seq<int>, code1: seq<Opcode>,
                    cf1: seq<int>, code2: seq<Opcode>, cf2: seq<int>)
    requires Makes(x, code, cf, code1, cf1) && Makes(y, code1, cf1, code2, cf2)
    ensures Makes(x + y, code, cf, code2, cf2)
  {
    forall j: bool
      ensures Leaves(Draft(code, cf, j), x + y, code2, cf2)
    {
      var b := Draft(code, cf, j);
      assert Leaves(b, x, code1, cf1);
      PerformAppend(b, x, y);
      assert Leaves(Draft(code1, cf1, PerformAll(b, x).value.jumpToLast), y, code2, cf2);
    }
  }

  lemma MakesNone(code: seq<Opcode>, cf: seq<int>)
    ensures Makes([], code, cf, code, cf)
  {}

  lemma LeavesOne(b: Draft, a: Action)
    requires Perform(b, a).Some?
    ensures Leaves(b, [a], Perform(b, a).value.code, Perform(b, a).value.cf)
  {
    assert [a][..0] == [];
    assert PerformAll(b, []) == Some(b);
  }

  lemma MakesPlain(code: seq<Opcode>, cf: seq<int>, op: Opcode)
    requires !op.IsJump()
    ensures Makes([Action.Plain(op)], code, cf, code + [op], cf)
  {
    forall j: bool
      ensures Leaves(Draft(code, cf, j), [Action.Plain(op)], code + [op], cf)
    {
      LeavesOne(Draft(code, cf, j), Action.Plain(op));
    }
  }

  lemma MakesBegin(code: seq<Opcode>, cf: seq<int>)
    ensures Makes([DoBegin], code, cf, code, cf + [-|code| - 1])
  {
    forall j: bool
      ensures Leaves(Draft(code, cf, j), [DoBegin], code, cf + [-|code| - 1])
    {
      LeavesOne(Draft(code, cf, j), DoBegin);
    }
  }

  lemma MakesAhead(code: seq<Opcode>, cf: seq<int>, op: Opcode)
    requires op.IsJump()
    ensures Makes([DoAhead(op)], code, cf, code + [Resolved(op, UNRESOLVED)], cf + [|code|])
  {
    forall j: bool
      ensures Leaves(Draft(code, cf, j), [DoAhead(op)], code + [Resolved(op, UNRESOLVED)], cf + [|code|])
    {
      LeavesOne(Draft(code, cf, j), DoAhead(op));
    }
  }

  /** then: the open jump after pre now skips post. */
  lemma MakesThen(pre: seq<Opcode>, op: Opcode, post: seq<Opcode>, cf: seq<int>)
    requires op.IsJump()
    ensures Makes([DoThen], pre + [Resolved(op, UNRESOLVED)] + post, cf + [|pre|],
            pre + [Resolved(op, |post|)] + post, cf)
  {
    forall j: bool
      ensures Leaves(Draft(pre + [Resolved(op, UNRESOLVED)] + post, cf + [|pre|], j), [DoThen],
                     pre + [Resolved(op, |post|)] + post, cf)
    {
      var b := Draft(pre + [Resolved(op, UNRESOLVED)] + post, cf + [|pre|], j);
      assert b.cf[|b.cf| - 1] == |pre| && b.code[|pre|] == Resolved(op, UNRESOLVED);
      LeavesOne(b, DoThen);
      assert b.code[|pre| := Resolved(op, |post|)] == pre + [Resolved(op, |post|)] + post;
      assert b.cf[..|b.cf| - 1] == cf;
    }
  }

  lemma MakesAgain(code: seq<Opcode>, cf: seq<int>, op: Opcode, at: int)
    requires op.IsJump() && 0 <= at <= |code|
    ensures Makes([DoAgain(op)], code, cf + [-at - 1], code + [Resolved(op, at - |code| - 1)], cf)
  {
    var cf1 := cf + [-at - 1];
    var code1 := code + [Resolved(op, at - |code| - 1)];
    forall j: bool
      ensures Leaves(Draft(code, cf1, j), [DoAgain(op)], code1, cf)
    {
      var b := Draft(code, cf1, j);
      LeavesOne(b, DoAgain(op));
      assert b.cf[..|b.cf| - 1] == cf;
    }
  }

  lemma MakesRoll(code: seq<Opcode>, cf: seq<int>, x: int, y: int)
    ensures Makes([DoRoll(1)], code, cf + [x] + [y], code, cf + [y] + [x])
  {
    forall j: bool
      ensures Leaves(Draft(code, cf + [x] + [y], j), [DoRoll(1)], code, cf + [y] + [x])
    {
      var b := Draft(code, cf + [x] + [y], j);
      LeavesOne(b, DoRoll(1));
      assert Rotation.Rotated(b.cf, 1) == cf + [y] + [x];
    }
  }

  lemma FlatUnfold(st: Stmt)
    ensures match st
            case Skip => Flat(st) == []
            case Plain(op) => Flat(st) == [op]
            case Seq(a, b) => Flat(st) == Flat(a) + Flat(b)
            case If(neg, b) => Flat(st) == IfCode(neg, Flat(b))
            case IfElse(neg, a, b) => Flat(st) == ElseCode(neg, Flat(a), Flat(b))
            case Forever(b) => Flat(st) == LoopCode(Flat(b), Jump(0))
            case Until(neg, b) => Flat(st) == LoopCode(Flat(b), Skipping(neg, 0))
            case While(c, b) => Flat(st) == WhileCode(Flat(c), Flat(b))
  {
    hide IfCode, ElseCode, LoopCode, WhileCode, Skipping;
  }

  lemma UnfoldIf(neg: bool, b: Stmt, code: seq<Opcode>)
    ensures Calls(If(neg, b)) == [DoAhead(Skipping(neg, 0))] + Calls(b) + [DoThen]
    ensures code + Flat(If(neg, b)) == code + [Skipping(neg, |Flat(b)|)] + Flat(b)
  {
    hide IfCode, Skipping;
    FlatUnfold(If(neg, b));
    IfAssoc(code, neg, Flat(b));
  }

  lemma IfAssoc(code: seq<Opcode>, neg: bool, body: seq<Opcode>)
    ensures code + IfCode(neg, body) == code + [Skipping(neg, |body|)] + body
  {}

  lemma ElseAssoc(code: seq<Opcode>, neg: bool, yes: seq<Opcode>, no: seq<Opcode>)
    ensures code + ElseCode(neg, yes, no) == code + [Skipping(neg, |yes| + 1)] + yes + [Jump(|no|)] + no
  {}

  lemma WhileAssoc(code: seq<Opcode>, cond: seq<Opcode>, body: seq<Opcode>)
    ensures code + WhileCode(cond, body) ==
            code + cond + [JumpIfNot(|body| + 1)] + (body + [Jump(-|cond| - |body| - 2)])
  {}

  lemma UnfoldElse(neg: bool, a: Stmt, b: Stmt, code: seq<Opcode>)
    ensures Calls(IfElse(neg, a, b)) ==
            [DoAhead(Skipping(neg, 0))] + Calls(a) + [DoAhead(Jump(0)), DoRoll(1), DoThen] + Calls(b) + [DoThen]
    ensures code + Flat(IfElse(neg, a, b))
            == code + [Skipping(neg, |Flat(a)| + 1)] + Flat(a) + [Jump(|Flat(b)|)] + Flat(b)
  {
    hide ElseCode, Skipping;
    FlatUnfold(IfElse(neg, a, b));
    ElseAssoc(code, neg, Flat(a), Flat(b));
  }

  lemma UnfoldWhile(c: Stmt, b: Stmt, code: seq<Opcode>)
    ensures Calls(While(c, b)) ==
            [DoBegin] + Calls(c) + [DoAhead(JumpIfNot(0)), DoRoll(1)] + Calls(b) + [DoAgain(Jump(0)), DoThen]
    ensures code + Flat(While(c, b)) ==
            code + Flat(c) + [JumpIfNot(|Flat(b)| + 1)] + (Flat(b) + [Jump(-|Flat(c)| - |Flat(b)| - 2)])
  {
    hide WhileCode, Calls, Flat;
    FlatUnfold(While(c, b));
    WhileAssoc(code, Flat(c), Flat(b));
    WhileCalls(c, b);
  }

  lemma WhileCalls(c: Stmt, b: Stmt)
    ensures Calls(While(c, b)) ==
            [DoBegin] + Calls(c) + [DoAhead(JumpIfNot(0)), DoRoll(1)] + Calls(b) + [DoAgain(Jump(0)), DoThen]
  {}

  lemma UnfoldSeq(a: Stmt, b: Stmt, code: seq<Opcode>)
    ensures Calls(Stmt.Seq(a, b)) == Calls(a) + Calls(b)
    ensures code + Flat(Stmt.Seq(a, b)) == code + Flat(a) + Flat(b)
  {}

  lemma UnfoldLoops(neg: bool, b: Stmt)
    ensures Calls(Forever(b)) == [DoBegin] + Calls(b) + [DoAgain(Jump(0))]
    ensures Flat(Forever(b)) == LoopCode(Flat(b), Jump(0))
    ensures Calls(Until(neg, b)) == [DoBegin] + Calls(b) + [DoAgain(Skipping(neg, 0))]
    ensures Flat(Until(neg, b)) == LoopCode(Flat(b), Skipping(neg, 0))
  {}

  lemma UnfoldLeaf(op: Opcode, code: seq<Opcode>)
    ensures Calls(Skip) == [] && code + Flat(Skip) == code
    ensures Calls(Stmt.Plain(op)) == [Action.Plain(op)] && Flat(Stmt.Plain(op)) == [op]
  {}

  /** Performing the calls of a statement appends its flat code and gives the control-flow
      stack back as it was. */
  lemma {:induction false} CallsBuild(st: Stmt, code: seq<Opcode>, cf: seq<int>)
    requires st.NoJumps()
    ensures Makes(Calls(st), code, cf, code + Flat(st), cf)
    decreases st, 2
  {
    hide Makes, Calls, Flat;
    match st
    case Skip =>
      UnfoldLeaf(Ret, code);
      MakesNone(code, cf);
    case Plain(op) =>
      UnfoldLeaf(op, code);
      MakesPlain(code, cf, op);
    case Seq(a, b) => SeqBuild(a, b, code, cf);
    case If(neg, b) => IfBuild(neg, b, code, cf);
    case IfElse(neg, a, b) => ElseBuild(neg, a, b, code, cf);
    case Forever(b) =>
      UnfoldLoops(false, b);
      LoopBuild(b, Jump(0), code, cf);
    case Until(neg, b) =>
      UnfoldLoops(neg, b);
      LoopBuild(b, Skipping(neg, 0), code, cf);
    case While(c, b) => WhileBuild(c, b, code, cf);
  }

  lemma SeqBuild(a: Stmt, b: Stmt, code: seq<Opcode>, cf: seq<int>)
    requires a.NoJumps() && b.NoJumps()
    ensures Makes(Calls(Stmt.Seq(a, b)), code, cf, code + Flat(Stmt.Seq(a, b)), cf)
    decreases Stmt.Seq(a, b), 1
  {
    hide *;
    UnfoldSeq(a, b, code);
    CallsBuild(a, code, cf);
    CallsBuild(b, code + Flat(a), cf);
    MakesAppend(Calls(a), Calls(b), code, cf, code + Flat(a), cf, code + Flat(a) + Flat(b), cf);
  }

  lemma IfBuild(neg: bool, b: Stmt, code: seq<Opcode>, cf: seq<int>)
    requires b.NoJumps()
    ensures Makes(Calls(If(neg, b)), code, cf, code + Flat(If(neg, b)), cf)
    decreases b, 3
  {
    hide *;
    UnfoldIf(neg, b, code);
    SkippingResolved(neg);
    var op := Skipping(neg, 0);
    var c1 := code + [Resolved(op, UNRESOLVED)];
    var cf1 := cf + [|code|];
    MakesAhead(code, cf, op);
    CallsBuild(b, c1, cf1);
    MakesAppend([DoAhead(op)], Calls(b), code, cf, c1, cf1, c1 + Flat(b), cf1);
    MakesThen(code, op, Flat(b), cf);
    var c3 := code + [Skipping(neg, |Flat(b)|)] + Flat(b);
    MakesAppend([DoAhead(op)] + Calls(b), [DoThen], code, cf, c1 + Flat(b), cf1, c3, cf);
  }

  /** begin body again, begin body until, begin body untilnot. */
  lemma LoopBuild(b: Stmt, op: Opcode, code: seq<Opcode>, cf: seq<int>)
    requires b.NoJumps() && op.IsJump()
    ensures Makes([DoBegin] + Calls(b) + [DoAgain(op)], code, cf, code + LoopCode(Flat(b), op), cf)
    decreases b, 3
  {
    hide Makes, Calls, Flat;
    var cf1 := cf + [-|code| - 1];
    MakesBegin(code, cf);
    CallsBuild(b, code, cf1);
    MakesAppend([DoBegin], Calls(b), code, cf, code, cf1, code + Flat(b), cf1);
    MakesAgain(code + Flat(b), cf, op, |code|);
    var c3 := code + Flat(b) + [Resolved(op, -|Flat(b)| - 1)];
    MakesAppend([DoBegin] + Calls(b), [DoAgain(op)], code, cf, code + Flat(b), cf1, c3, cf);
    assert c3 == code + LoopCode(Flat(b), op);
  }

  /** else: an open jump over the second branch, then the first jump lands behind it. */
  lemma ElseWordBuild(pre: seq<Opcode>, op: Opcode, fa: seq<Opcode>, cf: seq<int>)
    requires op.IsJump()
    ensures var c2 := pre + [Resolved(op, UNRESOLVED)] + fa;
            Makes([DoAhead(Jump(0)), DoRoll(1), DoThen], c2, cf + [|pre|],
                  pre + [Resolved(op, |fa| + 1)] + fa + [Jump(UNRESOLVED)], cf + [|c2|])
  {
    hide Makes;
    var c2 := pre + [Resolved(op, UNRESOLVED)] + fa;
    var c3 := c2 + [Jump(UNRESOLVED)];
    MakesAhead(c2, cf + [|pre|], Jump(0));
    MakesRoll(c3, cf, |pre|, |c2|);
    MakesAppend([DoAhead(Jump(0))], [DoRoll(1)], c2, cf + [|pre|], c3, cf + [|pre|] + [|c2|], c3,
        cf + [|c2|] + [|pre|]);
    MakesThen(pre, op, fa + [Jump(UNRESOLVED)], cf + [|c2|]);
    assert pre + [Resolved(op, UNRESOLVED)] + (fa + [Jump(UNRESOLVED)]) == c3;
    var c4 := pre + [Resolved(op, |fa| + 1)] + (fa + [Jump(UNRESOLVED)]);
    assert c4 == pre + [Resolved(op, |fa| + 1)] + fa + [Jump(UNRESOLVED)];
    MakesAppend([DoAhead(Jump(0))] + [DoRoll(1)], [DoThen], c2, cf + [|pre|], c3, cf + [|c2|] + [|pre|], c4,
        cf + [|c2|]);
    assert [DoAhead(Jump(0))] + [DoRoll(1)] + [DoThen] == [DoAhead(Jump(0)), DoRoll(1), DoThen];
  }

  /** The calls ca and cb stand for the two branches, which append fa and fb. */
  lemma ElseJoin(op: Opcode, ca: seq<Action>, cb: seq<Action>, fa: seq<Opcode>, fb: seq<Opcode>, code: seq<Opcode>,
                 cf: seq<int>)
    requires op.IsJump()
    requires var c1 := code + [Resolved(op, UNRESOLVED)];
             Makes(ca, c1, cf + [|code|], c1 + fa, cf + [|code|])
    requires var c3 := code + [Resolved(op, |fa| + 1)] + fa + [Jump(UNRESOLVED)];
             Makes(cb, c3, cf + [|code| + 1 + |fa|], c3 + fb, cf + [|code| + 1 + |fa|])
    ensures Makes([DoAhead(op)] + ca + [DoAhead(Jump(0)), DoRoll(1), DoThen] + cb + [DoThen], code, cf,
                  code + [Resolved(op, |fa| + 1)] + fa + [Jump(|fb|)] + fb, cf)
  {
    hide Makes;
    var mid := [DoAhead(Jump(0)), DoRoll(1), DoThen];
    var c1 := code + [Resolved(op, UNRESOLVED)];
    var c2 := c1 + fa;
    var pre := code + [Resolved(op, |fa| + 1)] + fa;
    var c3 := pre + [Jump(UNRESOLVED)];
    MakesAhead(code, cf, op);
    MakesAppend([DoAhead(op)], ca, code, cf, c1, cf + [|code|], c2, cf + [|code|]);
    ElseWordBuild(code, op, fa, cf);
    MakesAppend([DoAhead(op)] + ca, mid, code, cf, c2, cf + [|code|], c3, cf + [|c2|]);
    MakesAppend([DoAhead(op)] + ca + mid, cb, code, cf, c3, cf + [|c2|], c3 + fb, cf + [|c2|]);
    MakesThen(pre, Jump(0), fb, cf);
    MakesAppend([DoAhead(op)] + ca + mid + cb, [DoThen], code, cf, c3 + fb, cf + [|c2|], pre + [Jump(|fb|)] + fb, cf);
  }

  lemma SkippingResolved(neg: bool)
    ensures Skipping(neg, 0).IsJump()
    ensures forall d: int {:trigger Skipping(neg, d)} :: Resolved(Skipping(neg, 0), d) == Skipping(neg, d)
  {}

  lemma ElseBuild(neg: bool, a: Stmt, b: Stmt, code: seq<Opcode>, cf: seq<int>)
    requires a.NoJumps() && b.NoJumps()
    ensures Makes(Calls(IfElse(neg, a, b)), code, cf, code + Flat(IfElse(neg, a, b)), cf)
    decreases IfElse(neg, a, b), 1
  {
    hide *;
    var op := Skipping(neg, 0);
    SkippingResolved(neg);
    UnfoldElse(neg, a, b, code);
    assert Resolved(op, |Flat(a)| + 1) == Skipping(neg, |Flat(a)| + 1);
    CallsBuild(a, code + [Resolved(op, UNRESOLVED)], cf + [|code|]);
    CallsBuild(b, code + [Resolved(op, |Flat(a)| + 1)] + Flat(a) + [Jump(UNRESOLVED)], cf + [|code| + 1 + |Flat(a)|]);
    ElseJoin(op, Calls(a), Calls(b), Flat(a), Flat(b), code, cf);
  }

  lemma WhileHeadBuild(c: Stmt, code: seq<Opcode>, cf: seq<int>)
    requires c.NoJumps()
    ensures Makes([DoBegin] + Calls(c) + [DoAhead(JumpIfNot(0)), DoRoll(1)], code, cf,
                  code + Flat(c) + [JumpIfNot(UNRESOLVED)], cf + [|code + Flat(c)|] + [-|code| - 1])
    decreases c, 3
  {
    hide *;
    var dest := -|code| - 1;
    var c1 := code + Flat(c);
    MakesBegin(code, cf);
    CallsBuild(c, code, cf + [dest]);
    MakesAppend([DoBegin], Calls(c), code, cf, code, cf + [dest], c1, cf + [dest]);
    WhileWordBuild(c1, cf, dest);
    MakesAppend([DoBegin] + Calls(c), [DoAhead(JumpIfNot(0)), DoRoll(1)], code, cf, c1, cf + [dest],
                c1 + [JumpIfNot(UNRESOLVED)], cf + [|c1|] + [dest]);
  }

  lemma WhileJoin(head: seq<Action>, cb: seq<Action>, fc: seq<Opcode>, fb: seq<Opcode>, code: seq<Opcode>, cf: seq<int>)
    requires var c2 := code + fc + [JumpIfNot(UNRESOLVED)];
             var cf2 := cf + [|code + fc|] + [-|code| - 1];
             Makes(head, code, cf, c2, cf2) && Makes(cb, c2, cf2, c2 + fb, cf2)
    ensures Makes(head + cb + [DoAgain(Jump(0)), DoThen], code, cf,
                  code + fc + [JumpIfNot(|fb| + 1)] + (fb + [Jump(-|fc| - |fb| - 2)]), cf)
  {
    hide Makes;
    var cf2 := cf + [|code + fc|] + [-|code| - 1];
    var c2 := code + fc + [JumpIfNot(UNRESOLVED)];
    var end := code + fc + [JumpIfNot(|fb| + 1)] + (fb + [Jump(-|fc| - |fb| - 2)]);
    MakesAppend(head, cb, code, cf, c2, cf2, c2 + fb, cf2);
    RepeatBuild(code, fc, fb, cf);
    MakesAppend(head + cb, [DoAgain(Jump(0)), DoThen], code, cf, c2 + fb, cf2, end, cf);
  }

  lemma WhileBuild(c: Stmt, b: Stmt, code: seq<Opcode>, cf: seq<int>)
    requires c.NoJumps() && b.NoJumps()
    ensures Makes(Calls(While(c, b)), code, cf, code + Flat(While(c, b)), cf)
    decreases While(c, b), 1
  {
    hide *;
    UnfoldWhile(c, b, code);
    var head := [DoBegin] + Calls(c) + [DoAhead(JumpIfNot(0)), DoRoll(1)];
    WhileHeadBuild(c, code, cf);
    CallsBuild(b, code + Flat(c) + [JumpIfNot(UNRESOLVED)], cf + [|code + Flat(c)|] + [-|code| - 1]);
    WhileJoin(head, Calls(b), Flat(c), Flat(b), code, cf);
  }

  lemma WhileWordBuild(code: seq<Opcode>, cf: seq<int>, dest: int)
    ensures Makes([DoAhead(JumpIfNot(0)), DoRoll(1)], code, cf + [dest], code + [JumpIfNot(UNRESOLVED)],
        cf + [|code|] + [dest])
  {
    hide Makes;
    var c2 := code + [JumpIfNot(UNRESOLVED)];
    MakesAhead(code, cf + [dest], JumpIfNot(0));
    MakesRoll(c2, cf, dest, |code|);
    MakesAppend([DoAhead(JumpIfNot(0))], [DoRoll(1)], code, cf + [dest], c2, cf + [dest] + [|code|], c2,
        cf + [|code|] + [dest]);
    assert [DoAhead(JumpIfNot(0))] + [DoRoll(1)] == [DoAhead(JumpIfNot(0)), DoRoll(1)];
  }

  lemma RepeatBuild(code: seq<Opcode>, fc: seq<Opcode>, fb: seq<Opcode>, cf: seq<int>)
    ensures var c1 := code + fc;
            var c3 := c1 + [JumpIfNot(UNRESOLVED)] + fb;
            var back := Jump(-|fc| - |fb| - 2);
            Makes([DoAgain(Jump(0)), DoThen], c3, cf + [|c1|] + [-|code| - 1],
                c1 + [JumpIfNot(|fb| + 1)] + (fb + [back]), cf)
  {
    hide Makes;
    var c1 := code + fc;
    var c3 := c1 + [JumpIfNot(UNRESOLVED)] + fb;
    var back := Jump(-|fc| - |fb| - 2);
    MakesAgain(c3, cf + [|c1|], Jump(0), |code|);
    MakesThen(c1, JumpIfNot(0), fb + [back], cf);
    assert c3 + [back] == c1 + [JumpIfNot(UNRESOLVED)] + (fb + [back]);
    MakesAppend([DoAgain(Jump(0))], [DoThen], c3, cf + [|c1|] + [-|code| - 1], c3 + [back], cf + [|c1|],
                c1 + [JumpIfNot(|fb| + 1)] + (fb + [back]), cf);
    assert [DoAgain(Jump(0))] + [DoThen] == [DoAgain(Jump(0)), DoThen];
  }
}
