// What can be checked of a program before it runs, so that the emitted code can follow every run:
// locals are written before they are read, and all values are ones that C represents.

module Discipline {
  import opened Wrappers
  import opened Arith
  import opened StackEffect
  import opened Programs
  import opened OpMachine
  import opened FlowSound
  import opened Linking
  import opened ByteMachine
  import opened Simulation
  import opened Correctness
  import opened Slots

  // ----- locals -----

  /** For the offsets of each word, locals that are surely written when control arrives. */
  type Written = map<nat, seq<set<nat>>>

  function Known(D: Written, w: nat, off: int): set<nat> {
    if w in D && 0 <= off < |D[w]| then D[w][off] else {}
  }

  function After(op: Opcode, known: set<nat>): set<nat> {
    if op.PutLocal? then known + {op.num} else known
  }

  /** What is known at p is enough for p and is passed on to the opcodes that may follow. */
  predicate AssignsAt(D: Written, w: nat, code: seq<Opcode>, p: nat)
    requires p < |code|
  {
    var known := Known(D, w, p);
    && (code[p].GetLocal? ==> code[p].num in known)
    && (code[p].MayFallThrough() ==> Known(D, w, p + 1) <= After(code[p], known))
    && (code[p].IsJump() ==> Known(D, w, p + 1 + code[p].disp) <= After(code[p], known))
  }

  /** D shows that a word writes each local before it reads it; nothing is known at its start. */
  ghost predicate AssignsFirst(D: Written, w: nat, code: seq<Opcode>) {
    Known(D, w, 0) == {} && forall p: nat {:trigger code[p]} :: p < |code| ==> AssignsAt(D, w, code, p)
  }

  ghost predicate DefinitelyAssigned(P: Program, D: Written) {
    forall w: nat {:trigger P.Code(w)} :: P.IsInterpreted(w) ==> AssignsFirst(D, w, P.Code(w))
  }

  /** One opcode may come after another, as far as the opcodes themselves tell. */
  predicate Follows(code: seq<Opcode>, p: nat, q: nat) {
    && p < |code| && q < |code|
    && ((q == p + 1 && code[p].MayFallThrough()) || (code[p].IsJump() && q == p + 1 + code[p].disp))
  }

  ghost predicate Path(code: seq<Opcode>, path: seq<nat>) {
    && |path| > 0 && path[0] == 0 < |code|
    && forall i {:trigger path[i]} :: 0 <= i < |path| - 1 ==> Follows(code, path[i], path[i + 1])
  }

  /** The locals written on a path, its last opcode not counted. */
  function WrittenOn(code: seq<Opcode>, path: seq<nat>): set<nat> {
    if |path| < 2 then {}
    else
      var p := path[|path| - 2];
      var before := WrittenOn(code, path[..|path| - 1]);
      if p < |code| then After(code[p], before) else before
  }

  /** Somewhere on the path, before its end, local n is written. */
  ghost predicate WrittenBefore(code: seq<Opcode>, path: seq<nat>, n: nat) {
    exists i {:trigger path[i]} :: 0 <= i < |path| - 1 && path[i] < |code| && code[path[i]] == PutLocal(n)
  }

  /** No path reads a local that was not written on it. */
  ghost predicate PathsWriteFirst(code: seq<Opcode>) {
    forall path {:trigger Path(code, path)} :: Path(code, path) ==>
      var p := path[|path| - 1];
      p < |code| && code[p].GetLocal? ==> WrittenBefore(code, path, code[p].num)
  }

  lemma {:induction false} WrittenOnIs(code: seq<Opcode>, path: seq<nat>, n: nat)
    ensures n in WrittenOn(code, path) <==> WrittenBefore(code, path, n)
    decreases |path|
  {
    if |path| >= 2 {
      var front := path[..|path| - 1];
      WrittenOnIs(code, front, n);
      if i :| 0 <= i < |path| - 1 && path[i] < |code| && code[path[i]] == PutLocal(n) {
        if i < |front| - 1 { assert front[i] == path[i]; }
      }
      if i :| 0 <= i < |front| - 1 && front[i] < |code| && code[front[i]] == PutLocal(n) {
        assert path[i] == front[i];
      }
    }
  }

  lemma PathFront(code: seq<Opcode>, path: seq<nat>)
    requires Path(code, path) && |path| > 1
    ensures Path(code, path[..|path| - 1]) && Follows(code, path[|path| - 2], path[|path| - 1])
  {
    var front := path[..|path| - 1];
    forall i | 0 <= i < |front| - 1
      ensures Follows(code, front[i], front[i + 1])
    {
      assert Follows(code, path[i], path[i + 1]);
    }
    assert path[|path| - 2 + 1] == path[|path| - 1];
  }

  lemma KnownFollows(D: Written, w: nat, code: seq<Opcode>, p: nat, q: nat)
    requires AssignsFirst(D, w, code) && Follows(code, p, q)
    ensures Known(D, w, q) <= After(code[p], Known(D, w, p))
  {
    hide Known, After;
    assert AssignsAt(D, w, code, p);
  }

  lemma {:induction false} KnownIsWritten(D: Written, w: nat, code: seq<Opcode>, path: seq<nat>)
    requires AssignsFirst(D, w, code) && Path(code, path)
    ensures Known(D, w, path[|path| - 1]) <= WrittenOn(code, path)
    decreases |path|
  {
    hide AssignsFirst, Follows, Path, Known;
    if |path| > 1 {
      var p := path[|path| - 2];
      PathFront(code, path);
      PathInside(code, path);
      KnownIsWritten(D, w, code, path[..|path| - 1]);
      KnownFollows(D, w, code, p, path[|path| - 1]);
    } else {
      NothingKnown(D, w, code, path);
    }
  }

  lemma PathInside(code: seq<Opcode>, path: seq<nat>)
    requires Path(code, path) && |path| > 1
    ensures path[|path| - 2] < |code|
  {
    PathFront(code, path);
  }

  lemma NothingKnown(D: Written, w: nat, code: seq<Opcode>, path: seq<nat>)
    requires AssignsFirst(D, w, code) && Path(code, path) && |path| <= 1
    ensures |path| == 1 && Known(D, w, path[0]) == {}
  {}

  function Locals(code: seq<Opcode>): set<nat> {
    set p: nat | p < |code| && (code[p].GetLocal? || code[p].PutLocal?) :: code[p].num
  }

  /** The locals that every path to p writes. */
  ghost function SurelyWritten(code: seq<Opcode>, p: nat): set<nat> {
    set n | n in Locals(code)
            && forall path {:trigger Path(code, path)} :: Path(code, path) && path[|path| - 1] == p ==>
                 n in WrittenOn(code, path)
  }

  lemma SurelyPassedOn(code: seq<Opcode>, p: nat, q: nat)
    requires Follows(code, p, q)
    ensures SurelyWritten(code, q) <= After(code[p], SurelyWritten(code, p))
  {
    forall n | n in SurelyWritten(code, q) && !(code[p].PutLocal? && code[p].num == n)
      ensures n in SurelyWritten(code, p)
    {
      forall path | Path(code, path) && path[|path| - 1] == p
        ensures n in WrittenOn(code, path)
      {
        var path' := path + [q];
        assert path'[..|path|] == path;
        assert Path(code, path') by {
          forall i | 0 <= i < |path'| - 1
            ensures Follows(code, path'[i], path'[i + 1])
          {
            if i < |path| - 1 { assert path'[i] == path[i] && path'[i + 1] == path[i + 1]; }
          }
        }
      }
    }
  }

  /** There is a proof that locals are written before they are read exactly when it is so on all
      paths through the code. */
  lemma AssignedOnAllPaths(w: nat, code: seq<Opcode>)
    requires ClosedCode(code)
    ensures (exists D: Written {:trigger AssignsFirst(D, w, code)} :: AssignsFirst(D, w, code))
            <==> PathsWriteFirst(code)
  {
    if D: Written :| AssignsFirst(D, w, code) {
      forall path | Path(code, path)
        ensures var p := path[|path| - 1];
                p < |code| && code[p].GetLocal? ==> WrittenBefore(code, path, code[p].num)
      {
        KnownIsWritten(D, w, code, path);
        var p := path[|path| - 1];
        if p < |code| && code[p].GetLocal? {
          assert AssignsAt(D, w, code, p);
          WrittenOnIs(code, path, code[p].num);
        }
      }
    }
    if PathsWriteFirst(code) {
      var D: Written := map[w := seq(|code|, p requires 0 <= p < |code| => SurelyWritten(code, p))];
      SurelyAssigns(D, w, code);
    }
  }

  lemma SurelyAssigns(D: Written, w: nat, code: seq<Opcode>)
    requires ClosedCode(code) && PathsWriteFirst(code)
    requires forall p: nat {:trigger Known(D, w, p)} :: p < |code| ==> Known(D, w, p) == SurelyWritten(code, p)
    ensures AssignsFirst(D, w, code)
  {
    hide SurelyWritten, Known;
    assert Path(code, [0]) && WrittenOn(code, [0]) == {};
    NothingAtStart(code);
    forall p: nat | p < |code|
      ensures AssignsAt(D, w, code, p)
    {
      if code[p].GetLocal? { ReadsSurely(code, p); }
      if code[p].MayFallThrough() { SurelyPassedOn(code, p, p + 1); }
      if code[p].IsJump() { SurelyPassedOn(code, p, p + 1 + code[p].disp); }
    }
  }

  lemma NothingAtStart(code: seq<Opcode>)
    requires |code| > 0
    ensures SurelyWritten(code, 0) == {}
  {
    assert Path(code, [0]) && WrittenOn(code, [0]) == {};
  }

  lemma ReadsSurely(code: seq<Opcode>, p: nat)
    requires PathsWriteFirst(code) && p < |code| && code[p].GetLocal?
    ensures code[p].num in SurelyWritten(code, p)
  {
    forall path | Path(code, path) && path[|path| - 1] == p
      ensures code[p].num in WrittenOn(code, path)
    {
      WrittenOnIs(code, path, code[p].num);
    }
  }

  // ----- values -----

  /** The values that a program works with. */
  type Domain = Value -> bool

  predicate AllIn(dom: Domain, s: seq<Value>) { forall i {:trigger s[i]} :: 0 <= i < |s| ==> dom(s[i]) }

  /** Constants, data words and natives do not leave the domain, all of it is resolved, and locals
      are written before they are read. */
  ghost predicate Disciplined(P: Program, blocks: seq<seq<Byte>>, dom: Domain, D: Written) {
    && DefinitelyAssigned(P, D)
    && (forall v {:trigger dom(v)} :: dom(v) ==> Resolved(P, blocks, v))
    && (forall w: nat, p: nat {:trigger P.Code(w)[p]} ::
          P.IsInterpreted(w) && p < |P.Code(w)| && P.Code(w)[p].Const? ==> dom(P.Code(w)[p].val))
    && (forall w: nat {:trigger P.words[w]} ::
          P.IsWord(w) && P.words[w].Data? ==> dom(Blob(P.words[w].block, P.words[w].offset)))
    && (forall w: nat, args {:trigger P.native(w, args)} ::
          P.IsWord(w) && P.words[w].Native? && |args| == P.words[w].effect.din && AllIn(dom, args) ==>
            AllIn(dom, P.native(w, args)))
  }

  /** The C snippets do what the native words do, on all stacks of such values. */
  ghost predicate SnippetsFollow(B: Build, C: Snippets, dom: Domain) {
    forall w: nat, stack {:trigger SnippetAgrees(B, C, w, stack)} :: AllIn(dom, stack) ==> SnippetAgrees(B, C, w, stack)
  }

  // ----- what every run keeps -----

  /** Each open frame has written what is known where it goes on, and only such values. */
  ghost predicate FramesTame(dom: Domain, D: Written, frames: seq<Frame>, ip: Ip)
    decreases |frames|
  {
    |frames| > 0 ==>
      var top := frames[|frames| - 1];
      && Known(D, ip.word, ip.off) <= top.written
      && (forall n {:trigger n in top.written} :: n in top.written && n < |top.locals| ==> dom(top.locals[n]))
      && (top.saved.Some? ==> FramesTame(dom, D, frames[..|frames| - 1], top.saved.value))
  }

  ghost predicate Tame(dom: Domain, D: Written, s: State) {
    s.Running? ==> AllIn(dom, s.stack) && FramesTame(dom, D, s.frames, s.ip)
  }

  lemma TameNext(dom: Domain, D: Written, frames: seq<Frame>, ip: Ip, ip': Ip)
    requires FramesTame(dom, D, frames, ip) && Known(D, ip'.word, ip'.off) <= Known(D, ip.word, ip.off)
    ensures FramesTame(dom, D, frames, ip')
  {}

  lemma TameStore(dom: Domain, D: Written, frames: seq<Frame>, ip: Ip, ip': Ip, n: nat, v: Value)
    requires |frames| > 0 && n < |frames[|frames| - 1].locals| && dom(v) && FramesTame(dom, D, frames, ip)
    requires Known(D, ip'.word, ip'.off) <= Known(D, ip.word, ip.off) + {n}
    ensures FramesTame(dom, D, StoreLocal(frames, n, v), ip')
  {
    assert StoreLocal(frames, n, v)[..|frames| - 1] == frames[..|frames| - 1];
  }

  lemma TamePush(dom: Domain, D: Written, frames: seq<Frame>, next: Ip, ip': Ip, nl: nat)
    requires FramesTame(dom, D, frames, next) && Known(D, ip'.word, ip'.off) == {}
    ensures FramesTame(dom, D, frames + [Frame(Some(next), Zeros(nl), {})], ip')
  {
    assert (frames + [Frame(Some(next), Zeros(nl), {})])[..|frames|] == frames;
  }

  lemma AllInParts(dom: Domain, s: seq<Value>, t: seq<Value>, k: nat)
    requires AllIn(dom, s) && k <= |s|
    ensures AllIn(dom, s[..k]) && AllIn(dom, s[k..])
    ensures AllIn(dom, t) ==> AllIn(dom, s[..k] + t) && AllIn(dom, s + t)
  {}

  lemma CallTame(P: Program, blocks: seq<seq<Byte>>, dom: Domain, D: Written, w: nat, next: Ip, stack: seq<Value>,
                 frames: seq<Frame>)
    requires Disciplined(P, blocks, dom, D) && AllIn(dom, stack) && FramesTame(dom, D, frames, next)
    ensures Tame(dom, D, RunWord(P, w, next, stack, frames))
  {
    hide FramesTame, Resolved, AllIn;
    if P.IsWord(w) {
      match P.words[w]
      case Data(block, offset) => AllInOne(dom, stack, Blob(block, offset));
      case Interpreted(nl, _, _) =>
        assert AssignsFirst(D, w, P.Code(w));
        TamePush(dom, D, frames, next, Ip(w, 0), nl);
      case Native(e) =>
        if e.IsKnown() && |stack| >= e.din {
          var floor := |stack| - e.din;
          AllInParts(dom, stack, P.native(w, stack[floor..]), floor);
        }
    }
  }

  lemma AllInOne(dom: Domain, s: seq<Value>, v: Value)
    requires AllIn(dom, s) && dom(v)
    ensures AllIn(dom, s + [v])
  {}

  lemma AssignsHere(P: Program, D: Written, ip: Ip)
    requires DefinitelyAssigned(P, D) && InCode(P, ip)
    ensures AssignsAt(D, ip.word, P.Code(ip.word), ip.off)
  {
    assert AssignsFirst(D, ip.word, P.Code(ip.word));
    assert P.Code(ip.word)[ip.off] == P.Code(ip.word)[ip.off];
  }

  lemma StepTame(P: Program, blocks: seq<seq<Byte>>, dom: Domain, D: Written, s: State)
    requires Disciplined(P, blocks, dom, D) && Tame(dom, D, s)
    ensures Tame(dom, D, Step(P, s))
  {
    hide Known, Resolved, DefinitelyAssigned, RunWord, StoreLocal, AllIn;
    if s.Running? && InCode(P, s.ip) {
      var Running(ip, stack, frames) := s;
      AssignsHere(P, D, ip);
      OpcodeTame(P, blocks, dom, D, P.Code(ip.word)[ip.off], ip, stack, frames);
    }
  }

  lemma OpcodeTame(P: Program, blocks: seq<seq<Byte>>, dom: Domain, D: Written, op: Opcode, ip: Ip, stack: seq<Value>,
                   frames: seq<Frame>)
    requires Disciplined(P, blocks, dom, D) && AllIn(dom, stack) && FramesTame(dom, D, frames, ip)
    requires InCode(P, ip) && op == P.Code(ip.word)[ip.off] && AssignsAt(D, ip.word, P.Code(ip.word), ip.off)
    ensures Tame(dom, D, Execute(P, op, ip, stack, frames))
  {
    hide Known, Resolved, DefinitelyAssigned, RunWord, StoreLocal, FramesTame, AllIn;
    var next := Ip(ip.word, ip.off + 1);
    var depth := |stack|;
    if !op.Ret? && !op.Jump? && !op.PutLocal? { TameNext(dom, D, frames, ip, next); }
    if depth > 0 { AllInParts(dom, stack, [], depth - 1); }
    match op
    case Const(v) => AllInOne(dom, stack, v);
    case GetLocal(n) => if |frames| > 0 && n < |frames[|frames| - 1].locals| { GetTame(dom, D, stack, frames, ip, n); }
    case PutLocal(n) =>
      if depth > 0 && |frames| > 0 && n < |frames[|frames| - 1].locals| {
        TopIn(dom, stack);
        TameStore(dom, D, frames, ip, next, n, stack[depth - 1]);
      }
    case Call(w) => CallTame(P, blocks, dom, D, w, next, stack, frames);
    case Ret => if |frames| > 0 { LeaveTame(dom, D, stack, frames, ip); }
    case Jump(d) => TameNext(dom, D, frames, ip, Ip(ip.word, ip.off + 1 + d));
    case JumpIf(d) => TameNext(dom, D, frames, ip, Ip(ip.word, ip.off + 1 + d));
    case JumpIfNot(d) => TameNext(dom, D, frames, ip, Ip(ip.word, ip.off + 1 + d));
  }

  lemma TopIn(dom: Domain, s: seq<Value>)
    requires AllIn(dom, s) && |s| > 0
    ensures dom(s[|s| - 1])
  {}

  lemma GetTame(dom: Domain, D: Written, stack: seq<Value>, frames: seq<Frame>, ip: Ip, n: nat)
    requires AllIn(dom, stack) && FramesTame(dom, D, frames, ip) && |frames| > 0
    requires n < |frames[|frames| - 1].locals| && n in Known(D, ip.word, ip.off)
    ensures n in frames[|frames| - 1].written
    ensures AllIn(dom, stack + [frames[|frames| - 1].locals[n]])
  {}

  lemma LeaveTame(dom: Domain, D: Written, stack: seq<Value>, frames: seq<Frame>, ip: Ip)
    requires AllIn(dom, stack) && FramesTame(dom, D, frames, ip) && |frames| > 0
    ensures Tame(dom, D, Leave(stack, frames))
  {}

  lemma {:induction false} RunTame(P: Program, blocks: seq<seq<Byte>>, dom: Domain, D: Written, w: nat,
                                   stack: seq<Value>, n: nat)
    requires Disciplined(P, blocks, dom, D) && AllIn(dom, stack) && P.IsInterpreted(w)
    ensures Tame(dom, D, Run(P, Start(P, w, stack), n))
  {
    hide Disciplined, Known, Step;
    if n == 0 {
      StartTame(P, blocks, dom, D, w, stack);
    } else {
      RunTame(P, blocks, dom, D, w, stack, n - 1);
      StepTame(P, blocks, dom, D, Run(P, Start(P, w, stack), n - 1));
    }
  }

  lemma StartTame(P: Program, blocks: seq<seq<Byte>>, dom: Domain, D: Written, w: nat, stack: seq<Value>)
    requires Disciplined(P, blocks, dom, D) && AllIn(dom, stack) && P.IsInterpreted(w)
    ensures Tame(dom, D, Start(P, w, stack))
  {
    hide Resolved;
    assert AssignsFirst(D, w, P.Code(w));
    var f := Frame(None, Zeros(P.words[w].numLocals), {});
    assert [] + [f] == [f];
  }

  // ----- the emitted code follows -----

  /** Integers, execution tokens of gathered words and pointers into a data block are true in
      the opcode machine exactly when their 32-bit images are not 0. */
  lemma TruthKept(B: Build, blocks: seq<seq<Byte>>, v: Value)
    requires SlotsLinked(B) && B.L.blocks == Addresses(blocks) && |DataBytes(blocks, |blocks|)| < 0x8000_0000
    requires Resolved(B.P, blocks, v)
    ensures v.ToBool() <==> B.L.Lower(v) != 0
  {
    if v.XT? {
      assert B.L.slots[v.word] >= 7;
    }
    if v.Blob? {
      PointersTrue(blocks, v.block, v.off);
      assert Addresses(blocks)[v.block] == B.L.AddressOf(v.block);
    }
  }

  lemma TameFaithful(B: Build, C: Snippets, blocks: seq<seq<Byte>>, dom: Domain, D: Written, s: State)
    requires SlotsLinked(B) && B.L.blocks == Addresses(blocks) && |DataBytes(blocks, |blocks|)| < 0x8000_0000
    requires Disciplined(B.P, blocks, dom, D) && SnippetsFollow(B, C, dom) && Tame(dom, D, s)
    ensures Faithful(B, C, s)
  {
    hide SlotsLinked, Known, Resolved, DefinitelyAssigned, SnippetAgrees, DataBytes, Addresses;
    if s.Running? && InCode(B.P, s.ip) {
      AssignsHere(B.P, D, s.ip);
      var top := |s.stack| - 1;
      if top >= 0 {
        assert dom(s.stack[top]);
        TruthKept(B, blocks, s.stack[top]);
      }
      var op := B.P.Code(s.ip.word)[s.ip.off];
      if op.Call? { assert SnippetAgrees(B, C, op.target, s.stack); }
    }
  }

  /** The run-level hypothesis of compiler correctness, from conditions on the program alone. */
  lemma DisciplinedRuns(B: Build, C: Snippets, blocks: seq<seq<Byte>>, dom: Domain, D: Written, env: Entry, n: nat)
    requires SlotsLinked(B) && B.L.blocks == Addresses(blocks) && |DataBytes(blocks, |blocks|)| < 0x8000_0000
    requires Disciplined(B.P, blocks, dom, D) && SnippetsFollow(B, C, dom)
    requires B.P.IsInterpreted(env.word) && AllIn(dom, env.stack)
    ensures AllFaithful(B, C, env, n)
  {
    hide SlotsLinked, Disciplined, SnippetsFollow, Faithful, Tame, DataBytes, Addresses, Start;
    forall k: nat | k < n
      ensures Faithful(B, C, Steps(B, env, k))
    {
      RunTame(B.P, blocks, dom, D, env.word, env.stack, k);
      TameFaithful(B, C, blocks, dom, D, Steps(B, env, k));
    }
  }
}
