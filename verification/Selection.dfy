// From the whole word table to the table that is compiled: the gathered words in name order, their
// references renumbered. Runs of entry points are the same in both.

module Selection {
  import opened Wrappers
  import opened Arith
  import opened Programs
  import opened OpMachine
  import opened Reachability
  import opened GatheredRuns
  import opened Simulation
  import opened Compiler
  import opened Linking
  import opened ByteMachine
  import Generation
  import Relaxation
  import FlowSpec
  import Slots

  // ----- the gathered words in order -----

  ghost predicate Increasing(order: seq<nat>) { forall i, j :: 0 <= i < j < |order| ==> order[i] < order[j] }

  predicate Inside(order: seq<nat>, n: nat) { forall i {:trigger order[i]} :: 0 <= i < |order| ==> order[i] < n }

  ghost predicate Lists(order: seq<nat>, words: set<nat>) {
    Increasing(order) && forall w: nat :: w in words <==> w in order
  }

  /** wordSet.Values of a dictionary sorted by name. */
  method Sorted(P: Program, words: set<nat>) returns (order: seq<nat>)
    requires forall w :: w in words ==> w < |P.words|
    ensures Lists(order, words)
  {
    order := [];
    for w := 0 to |P.words|
      invariant Increasing(order) && Inside(order, w) && forall v: nat :: v in order <==> v in words && v < w
    {
      if w in words {
        order := order + [w];
      }
    }
  }

  /** The place of a word in the new table; words left out have none and are given 0. */
  function Place(order: seq<nat>, w: nat): (i: nat)
    ensures w in order ==> i < |order| && order[i] == w
  {
    if order == [] then 0
    else if order[|order| - 1] == w then |order| - 1
    else Place(order[..|order| - 1], w)
  }

  lemma PlaceIs(order: seq<nat>, i: nat)
    requires Increasing(order) && i < |order|
    ensures Place(order, order[i]) == i
  {
    assert order[Place(order, order[i])] == order[i];
  }

  // ----- renumbering -----

  function RenumberedValue(order: seq<nat>, v: Value): Value { if v.XT? then XT(Place(order, v.word)) else v }

  function Renumbered(order: seq<nat>, s: seq<Value>): (r: seq<Value>)
    ensures |r| == |s|
  {
    seq(|s|, i requires 0 <= i < |s| => RenumberedValue(order, s[i]))
  }

  function OriginalValue(order: seq<nat>, v: Value): Value {
    if v.XT? && v.word < |order| then XT(order[v.word]) else v
  }

  function Original(order: seq<nat>, s: seq<Value>): (r: seq<Value>)
    ensures |r| == |s|
  {
    seq(|s|, i requires 0 <= i < |s| => OriginalValue(order, s[i]))
  }

  lemma OriginalBack(order: seq<nat>, s: seq<Value>, words: set<nat>)
    requires Lists(order, words) && TokensIn(words, s)
    ensures Original(order, Renumbered(order, s)) == s
  {
    forall i | 0 <= i < |s|
      ensures OriginalValue(order, RenumberedValue(order, s[i])) == s[i]
    {
      if s[i].XT? { assert s[i].word in order; }
    }
  }

  function RenumberedOp(order: seq<nat>, op: Opcode): Opcode {
    match op
    case Const(v) => Const(RenumberedValue(order, v))
    case Call(w) => Call(Place(order, w))
    case _ => op
  }

  function RenumberedWord(order: seq<nat>, w: Word): Word {
    match w
    case Interpreted(nl, code, declared) =>
      Interpreted(nl, seq(|code|, p requires 0 <= p < |code| => RenumberedOp(order, code[p])), declared)
    case _ => w
  }

  function Table(P: Program, order: seq<nat>): (r: seq<Word>)
    requires Inside(order, |P.words|)
    ensures |r| == |order|
  {
    seq(|order|, i requires 0 <= i < |order| => RenumberedWord(order, P.words[order[i]]))
  }

  /** The program that is compiled. */
  function Selected(P: Program, order: seq<nat>): Program
    requires Inside(order, |P.words|)
  {
    Program(Table(P, order),
            (i: nat, args: seq<Value>) =>
              if i < |order| then Renumbered(order, P.native(order[i], Original(order, args))) else [])
  }

  // ----- the same runs -----

  function RenumberedIp(order: seq<nat>, ip: Ip): Ip { Ip(Place(order, ip.word), ip.off) }

  function RenumberedFrame(order: seq<nat>, f: Frame): Frame {
    Frame(if f.saved.None? then None else Some(RenumberedIp(order, f.saved.value)), Renumbered(order, f.locals),
          f.written)
  }

  function RenumberedFrames(order: seq<nat>, frames: seq<Frame>): (r: seq<Frame>)
    ensures |r| == |frames|
  {
    seq(|frames|, i requires 0 <= i < |frames| => RenumberedFrame(order, frames[i]))
  }

  function RenumberedState(order: seq<nat>, s: State): State {
    match s
    case Running(ip, stack, frames) =>
      Running(RenumberedIp(order, ip), Renumbered(order, stack), RenumberedFrames(order, frames))
    case Exited(stack) => Exited(Renumbered(order, stack))
    case _ => s
  }

  /** The word that stands for w, and its code. */
  lemma SelectedWord(P: Program, order: seq<nat>, words: set<nat>, w: nat)
    requires Lists(order, words) && w in words && Inside(order, |P.words|)
    ensures var P' := Selected(P, order);
            && P'.IsWord(Place(order, w)) && w < |P.words| && order[Place(order, w)] == w
            && P'.words[Place(order, w)] == RenumberedWord(order, P.words[w])
  {
    assert w in order;
  }

  lemma SelectedCode(P: Program, order: seq<nat>, words: set<nat>, ip: Ip)
    requires Lists(order, words) && ip.word in words && Inside(order, |P.words|)
    ensures InCode(Selected(P, order), RenumberedIp(order, ip)) <==> InCode(P, ip)
    ensures InCode(P, ip) ==>
              Selected(P, order).Code(Place(order, ip.word))[ip.off] == RenumberedOp(order, P.Code(ip.word)[ip.off])
  {
    hide Selected, Lists;
    SelectedWord(P, order, words, ip.word);
  }

  lemma RenumberedParts(order: seq<nat>, s: seq<Value>, t: seq<Value>, v: Value, k: nat)
    requires k <= |s|
    ensures Renumbered(order, s[..k]) == Renumbered(order, s)[..k]
    ensures Renumbered(order, s[k..]) == Renumbered(order, s)[k..]
    ensures Renumbered(order, s + [v]) == Renumbered(order, s) + [RenumberedValue(order, v)]
    ensures Renumbered(order, s[..k] + t) == Renumbered(order, s)[..k] + Renumbered(order, t)
  {}

  lemma FramesParts(order: seq<nat>, frames: seq<Frame>, f: Frame, k: nat)
    requires k <= |frames|
    ensures RenumberedFrames(order, frames[..k]) == RenumberedFrames(order, frames)[..k]
    ensures RenumberedFrames(order, frames[..k] + [f])
            == RenumberedFrames(order, frames)[..k] + [RenumberedFrame(order, f)]
    ensures RenumberedFrames(order, frames + [f]) == RenumberedFrames(order, frames) + [RenumberedFrame(order, f)]
  {}

  lemma ZerosStay(order: seq<nat>, n: nat)
    ensures Renumbered(order, Zeros(n)) == Zeros(n)
  {}

  lemma SameStore(order: seq<nat>, frames: seq<Frame>, n: nat, v: Value)
    requires |frames| > 0 && n < |frames[|frames| - 1].locals|
    ensures RenumberedFrames(order, StoreLocal(frames, n, v))
         == StoreLocal(RenumberedFrames(order, frames), n, RenumberedValue(order, v))
  {
    var top := |frames| - 1;
    var f := frames[top];
    FramesParts(order, frames, Frame(f.saved, f.locals[n := v], f.written + {n}), top);
    assert Renumbered(order, f.locals[n := v]) == Renumbered(order, f.locals)[n := RenumberedValue(order, v)];
  }

  lemma SameWord(P: Program, order: seq<nat>, words: set<nat>, w: nat, next: Ip, stack: seq<Value>, frames: seq<Frame>)
    requires Lists(order, words) && w in words && TokensIn(words, stack) && Inside(order, |P.words|)
    ensures RunWord(Selected(P, order), Place(order, w), RenumberedIp(order, next), Renumbered(order, stack),
                    RenumberedFrames(order, frames))
         == RenumberedState(order, RunWord(P, w, next, stack, frames))
  {
    hide Lists, TokensIn, Place, Renumbered, RenumberedFrames, Original;
    SelectedWord(P, order, words, w);
    match P.words[w]
    case Data(block, offset) => RenumberedParts(order, stack, [], Blob(block, offset), 0);
    case Interpreted(nl, _, _) =>
      FramesParts(order, frames, Frame(Some(next), Zeros(nl), {}), 0);
      ZerosStay(order, nl);
    case Native(e) =>
      if e.IsKnown() && |stack| >= e.din {
        var floor := |stack| - e.din;
        Pieces(words, stack);
        OriginalBack(order, stack[floor..], words);
        RenumberedParts(order, stack, P.native(w, stack[floor..]), ZERO, floor);
        RenumberedParts(order, stack, [], ZERO, floor);
      }
  }

  lemma SameBool(order: seq<nat>, v: Value)
    ensures RenumberedValue(order, v).ToBool() == v.ToBool()
  {}

  lemma SameStep(P: Program, order: seq<nat>, words: set<nat>, s: State)
    requires Lists(order, words) && Inside(order, |P.words|)
    requires PlacesIn(P, words, s) && ValuesIn(words, s)
    ensures Step(Selected(P, order), RenumberedState(order, s)) == RenumberedState(order, Step(P, s))
  {
    hide Lists, TokensIn, Place, Renumbered, RenumberedFrames, Selected, RunWord, StoreLocal, FrameIn;
    if s.Running? {
      var Running(ip, stack, frames) := s;
      SelectedCode(P, order, words, ip);
      if InCode(P, ip) {
        SameExecute(P, order, words, P.Code(ip.word)[ip.off], ip, stack, frames);
      }
    }
  }

  lemma SameExecute(P: Program, order: seq<nat>, words: set<nat>, op: Opcode, ip: Ip, stack: seq<Value>,
                    frames: seq<Frame>)
    requires Lists(order, words) && TokensIn(words, stack) && Inside(order, |P.words|)
    requires op.Call? ==> op.target in words
    ensures Execute(Selected(P, order), RenumberedOp(order, op), RenumberedIp(order, ip), Renumbered(order, stack),
                    RenumberedFrames(order, frames))
         == RenumberedState(order, Execute(P, op, ip, stack, frames))
  {
    hide Lists, TokensIn, Place, Selected, RunWord, StoreLocal;
    var depth, top := |stack|, |frames| - 1;
    if depth > 0 {
      RenumberedParts(order, stack, [], ZERO, depth - 1);
      SameBool(order, stack[depth - 1]);
    }
    match op
    case Const(v) => RenumberedParts(order, stack, [], v, 0);
    case GetLocal(n) =>
      if top >= 0 && n < |frames[top].locals| { RenumberedParts(order, stack, [], frames[top].locals[n], 0); }
    case PutLocal(n) =>
      if depth > 0 && top >= 0 && n < |frames[top].locals| { SameStore(order, frames, n, stack[depth - 1]); }
    case Call(w) => SameWord(P, order, words, w, Ip(ip.word, ip.off + 1), stack, frames);
    case Ret => if top >= 0 { FramesParts(order, frames, frames[top], top); }
    case _ =>
  }

  lemma SameStart(P: Program, order: seq<nat>, words: set<nat>, w: nat, stack: seq<Value>)
    requires Lists(order, words) && Inside(order, |P.words|)
    requires w in words && P.IsInterpreted(w)
    ensures Selected(P, order).IsInterpreted(Place(order, w))
    ensures Start(Selected(P, order), Place(order, w), Renumbered(order, stack))
         == RenumberedState(order, Start(P, w, stack))
  {
    hide Lists, Selected, Place, Renumbered;
    SelectedWord(P, order, words, w);
    ZerosStay(order, P.words[w].numLocals);
    FramesParts(order, [], Frame(None, Zeros(P.words[w].numLocals), {}), 0);
  }

  /** From an entry point the compiled table runs as the whole one, step for step. */
  lemma {:induction false} SameRuns(P: Program, entries: seq<nat>, words: set<nat>, order: seq<nat>, w: nat,
                                    stack: seq<Value>, n: nat)
    requires ClosedUnder(P, entries, words) && w in entries && P.IsInterpreted(w)
    requires Lists(order, words) && Inside(order, |P.words|)
    requires TokensIn(words, stack) && NativesBringNone(P, words)
    ensures Selected(P, order).IsInterpreted(Place(order, w))
    ensures Run(Selected(P, order), Start(Selected(P, order), Place(order, w), Renumbered(order, stack)), n)
         == RenumberedState(order, Run(P, Start(P, w, stack), n))
  {
    hide Step, Lists, Selected, Place, Renumbered, TokensIn, NativesBringNone, PlacesIn, ValuesIn, Start,
         RenumberedState;
    SameStart(P, order, words, w, stack);
    if n > 0 {
      SameRuns(P, entries, words, order, w, stack, n - 1);
      RunsInGathered(P, entries, words, w, stack, n - 1);
      TokensInGathered(P, entries, words, w, stack, n - 1);
      SameStep(P, order, words, Run(P, Start(P, w, stack), n - 1));
    }
  }

  // ----- gather, select, compile -----

  lemma RenumberedClosed(order: seq<nat>, code: seq<Opcode>, code': seq<Opcode>, nl: nat)
    requires |code'| == |code| && forall p {:trigger code'[p]} :: 0 <= p < |code| ==>
             code'[p] == RenumberedOp(order, code[p])
    requires ClosedCode(code) && LocalsBelow(code, nl)
    ensures ClosedCode(code') && LocalsBelow(code', nl)
  {
    hide Place;
    assert forall p {:trigger code'[p]} :: 0 <= p < |code| ==>
        code'[p].IsJump() == code[p].IsJump() && code'[p].MayFallThrough() == code[p].MayFallThrough();
  }

  lemma SelectedBuilt(P: Program, order: seq<nat>)
    requires Built(P) && Inside(order, |P.words|)
    ensures Built(Selected(P, order))
  {
    hide ClosedCode, LocalsBelow, RenumberedOp;
    var P' := Selected(P, order);
    forall i: nat | P'.IsInterpreted(i)
      ensures ClosedCode(P'.words[i].code) && LocalsBelow(P'.words[i].code, P'.words[i].numLocals)
    {
      var w := order[i];
      assert P.IsInterpreted(w) && ClosedCode(P.words[w].code);
      RenumberedClosed(order, P.words[w].code, P'.words[i].code, P.words[w].numLocals);
    }
  }

  lemma {:induction false} TotalOrder(P: Program, m: nat, n: nat)
    requires m <= n <= |P.words|
    ensures ElemTotal(P, m) <= ElemTotal(P, n)
    decreases n
  {
    if m < n { TotalOrder(P, m, n - 1); }
  }

  lemma {:induction false} SelectedTotal(P: Program, order: seq<nat>, k: nat)
    requires Increasing(order) && Inside(order, |P.words|) && k <= |order|
    ensures ElemTotal(Selected(P, order), k) <= ElemTotal(P, if k < |order| then order[k] else |P.words|)
    decreases k
  {
    hide RenumberedOp;
    if k > 0 {
      SelectedTotal(P, order, k - 1);
      var w := order[k - 1];
      assert w in order;
      assert Selected(P, order).words[k - 1] == RenumberedWord(order, P.words[w]);
      var end := if k < |order| then order[k] else |P.words|;
      if k < |order| { assert order[k] in order; }
      TotalOrder(P, w + 1, end);
    }
  }

  function ChosenTexts(ccode: Slots.Texts, order: seq<nat>): (r: Slots.Texts)
    requires Inside(order, |ccode|)
    ensures |r| == |order|
  {
    seq(|order|, i requires 0 <= i < |order| => ccode[order[i]])
  }

  lemma FewWords(order: seq<nat>, n: nat)
    requires Increasing(order) && Inside(order, n)
    ensures |order| <= n
  {
    if |order| > 0 {
      LastAtLeast(order, |order| - 1);
      assert order[|order| - 1] in order;
    }
  }

  lemma {:induction false} LastAtLeast(order: seq<nat>, k: nat)
    requires Increasing(order) && k < |order|
    ensures order[k] >= k
  {
    if k > 0 { LastAtLeast(order, k - 1); }
  }

  function Places(order: seq<nat>, entries: seq<nat>): (r: seq<nat>)
    ensures |r| == |entries|
  {
    seq(|entries|, i requires 0 <= i < |entries| => Place(order, entries[i]))
  }

  /** T0Comp.Generate from its first step on: the words needed from the entry points, in name order,
      are what is compiled. */
  method GatherAndCompile(P: Program, ccode: Slots.Texts, blocks: seq<seq<Byte>>, entries: seq<nat>, dsLimit: int,
                          rsLimit: int)
    returns (ok: bool, img: Image, order: seq<nat>, ghost words: set<nat>, ghost B: Build, ghost M: FlowSpec.Summaries)
    requires |ccode| == |P.words| < 0x3000_0000 && 10 * ElemTotal(P, |P.words|) < 0x8000_0000
    requires forall w: nat {:trigger P.words[w]} :: w < |ccode| && ccode[w].Some? ==> P.words[w].Native?
    requires Built(P)
    ensures ok ==> ClosedUnder(P, entries, words) && (forall w: nat :: w in words <==> Needed(P, entries, w))
    ensures ok ==> Lists(order, words) && Inside(order, |P.words|) && B.P == Selected(P, order)
    ensures ok ==> img == B.Img() && B.L.blocks == Slots.Addresses(blocks)
                   && (Coded(B) <==> LocalsFit(B.P, B.one)) && (WellBuilt(B) <==> Coded(B) && AddressesFit(B))
    ensures ok ==> FlowSpec.Coherent(B.P, M) && forall i {:trigger entries[i]} :: 0 <= i < |entries| ==>
                     Approved(B.P, M, Place(order, entries[i]), dsLimit, rsLimit)
  {
    hide Built, ClosedUnder, Needed, Lists, Increasing, Selected, WellBuilt, Coded, AddressesFit, LocalsFit, Place,
         Slots.Covers, Slots.Linked, FlowSpec.Coherent, Acceptable, Crowded, Generation.LocalsAreBytes,
             Relaxation.Least,
         ElemTotal, Slots.Addresses;
    img := Image([], [], 0, false);
    B := Build(P, Link([], 0, []), false, [], []);
    order, M := [], map[];
    var wordSet;
    ok, wordSet := Gather(P, entries);
    words := wordSet;
    if !ok {
      return;
    }
    order := Sorted(P, wordSet);
    Ready(P, ccode, entries, wordSet, order);
    ok, img, B, M := Compile(Selected(P, order), ChosenTexts(ccode, order), blocks, Places(order, entries), dsLimit,
        rsLimit);
    assert ok ==> forall i {:trigger entries[i]} :: 0 <= i < |entries| ==>
        Places(order, entries)[i] == Place(order, entries[i]);
  }

  /** What Compile asks of the selected table. */
  lemma Ready(P: Program, ccode: Slots.Texts, entries: seq<nat>, words: set<nat>, order: seq<nat>)
    requires |ccode| == |P.words| < 0x3000_0000 && 10 * ElemTotal(P, |P.words|) < 0x8000_0000
    requires forall w: nat {:trigger P.words[w]} :: w < |ccode| && ccode[w].Some? ==> P.words[w].Native?
    requires Built(P) && ClosedUnder(P, entries, words) && Lists(order, words)
    requires forall w :: w in words ==> w < |P.words|
    ensures Inside(order, |P.words|)
    ensures var P' := Selected(P, order);
            && |P'.words| == |order| < 0x3000_0000 && 10 * ElemTotal(P', |order|) < 0x8000_0000 && Built(P')
            && forall i: nat {:trigger P'.words[i]} :: i < |order| && ChosenTexts(ccode, order)[i].Some? ==>
                 P'.words[i].Native?
    ensures forall i {:trigger Places(order, entries)[i]} :: 0 <= i < |entries| ==>
              Places(order, entries)[i] < |order|
  {
    hide Built, ElemTotal, Increasing, RenumberedOp;
    forall i | 0 <= i < |order|
      ensures order[i] < |P.words|
    {
      assert order[i] in order;
    }
    FewWords(order, |P.words|);
    SelectedBuilt(P, order);
    SelectedTotal(P, order, |order|);
    forall i | 0 <= i < |entries|
      ensures Places(order, entries)[i] < |order|
    {
      assert entries[i] in entries && entries[i] in order;
    }
  }
}
