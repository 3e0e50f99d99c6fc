// WordBuilder: opcodes accumulate while a control-flow stack remembers open jumps.

module Builder {
  import opened Wrappers
  import opened StackEffect
  import opened Programs
  import Rotation

  // ----- the builder on values -----

  /** The code so far, the control-flow stack (bottom first) and the jumpToLast flag. An entry
      x >= 0 is the offset of a forward jump to resolve, x < 0 the destination -x - 1. */
  datatype Draft = Draft(code: seq<Opcode>, cf: seq<int>, jumpToLast: bool)

  function Resolved(op: Opcode, disp: int): Opcode
    requires op.IsJump()
  {
    match op
    case Jump(_) => Jump(disp)
    case JumpIf(_) => JumpIf(disp)
    case JumpIfNot(_) => JumpIfNot(disp)
  }

  function Added(b: Draft, op: Opcode): Draft { Draft(b.code + [op], b.cf, false) }

  /** Ahead, AheadIf, AheadIfNot. */
  function Forward(b: Draft, op: Opcode): Draft
    requires op.IsJump()
  {
    Draft(b.code + [Resolved(op, UNRESOLVED)], b.cf + [|b.code|], false)
  }

  predicate CanThen(b: Draft) {
    && |b.cf| > 0
    && var x := b.cf[|b.cf| - 1];
       0 <= x < |b.code| && b.code[x].IsJump() && b.code[x].disp == UNRESOLVED
  }

  function Landed(b: Draft): Draft
    requires CanThen(b)
  {
    var top := |b.cf| - 1;
    var x := b.cf[top];
    Draft(b.code[x := Resolved(b.code[x], |b.code| - x - 1)], b.cf[..top], true)
  }

  function Begun(b: Draft): Draft { b.(cf := b.cf + [-|b.code| - 1]) }

  predicate CanAgain(b: Draft) { |b.cf| > 0 && b.cf[|b.cf| - 1] < 0 }

  /** Again, AgainIf, AgainIfNot. */
  function Backward(b: Draft, op: Opcode): Draft
    requires op.IsJump() && CanAgain(b)
  {
    var top := |b.cf| - 1;
    Draft(b.code + [Resolved(op, -b.cf[top] - 1 - |b.code| - 1)], b.cf[..top], false)
  }

  function Roll(b: Draft, d: nat): Draft
    requires d < |b.cf|
  {
    b.(cf := Rotation.Rotated(b.cf, d))
  }

  function Pick(b: Draft, d: nat): Draft
    requires d < |b.cf|
  {
    b.(cf := b.cf + [b.cf[|b.cf| - 1 - d]])
  }

  /** What Build returns: a Ret is added when control may reach the end. */
  function Finished(code: seq<Opcode>, jumpToLast: bool): seq<Opcode>
    requires code == [] ==> jumpToLast
  {
    if jumpToLast || code[|code| - 1].MayFallThrough() then code + [Ret] else code
  }

  // ----- what every call keeps -----

  /** Displacements of resolved jumps; only a Then since the last opcode may aim at the end. */
  ghost predicate JumpsSound(code: seq<Opcode>, cf: set<int>, jumpToLast: bool) {
    forall p {:trigger code[p]} :: 0 <= p < |code| && code[p].IsJump() ==>
      if code[p].disp == UNRESOLVED then p in cf
      else 0 <= p + 1 + code[p].disp <= |code| && (p + 1 + code[p].disp == |code| ==> jumpToLast)
  }

  /** A control-flow entry refers to an opcode of the code or to its end. */
  predicate EntrySound(x: int, count: nat) {
    if x >= 0 then x <= count else -x - 1 <= count
  }

  function Entries(s: seq<int>): set<int> { set x | x in s }

  /** More opcodes than a List can hold are never added. */
  const MAX_CODE: int := 0x7FF0_0000

  lemma AddSound(code: seq<Opcode>, cf: set<int>, jumpToLast: bool, op: Opcode)
    requires JumpsSound(code, cf, jumpToLast)
    requires op.IsJump() ==>
               if op.disp == UNRESOLVED then |code| in cf else 0 <= |code| + 1 + op.disp <= |code|
    ensures JumpsSound(code + [op], cf, false)
  {}

  lemma ThenSound(code: seq<Opcode>, cf: set<int>, jumpToLast: bool, x: nat)
    requires |code| < MAX_CODE && JumpsSound(code, cf + {x}, jumpToLast)
    requires x < |code| && code[x].IsJump() && code[x].disp == UNRESOLVED
    ensures JumpsSound(code[x := Resolved(code[x], |code| - x - 1)], cf, true)
    ensures forall n: nat :: LocalsBelow(code, n) ==> LocalsBelow(code[x := Resolved(code[x], |code| - x - 1)], n)
  {}

  lemma EntriesPush(s: seq<int>, x: int)
    ensures Entries(s + [x]) == Entries(s) + {x}
  {}

  lemma EntriesPop(s: seq<int>)
    requires |s| > 0
    ensures Entries(s) == Entries(s[..|s| - 1]) + {s[|s| - 1]}
  {
    assert s == s[..|s| - 1] + [s[|s| - 1]];
    EntriesPush(s[..|s| - 1], s[|s| - 1]);
  }

  lemma EntriesRoll(s: seq<int>, d: nat)
    requires d < |s|
    ensures Entries(Rotation.Rotated(s, d)) == Entries(s)
  {
    var k := |s| - 1 - d;
    assert s == s[..k] + [s[k]] + s[k + 1..];
  }

  lemma FewerEntries(code: seq<Opcode>, cf: set<int>, cf': set<int>, jumpToLast: bool, x: int)
    requires JumpsSound(code, cf, jumpToLast) && cf <= cf' + {x} && !(0 <= x < |code|)
    ensures JumpsSound(code, cf', jumpToLast)
  {}

  lemma MoreEntries(code: seq<Opcode>, cf: set<int>, cf': set<int>, jumpToLast: bool)
    requires JumpsSound(code, cf, jumpToLast) && cf <= cf'
    ensures JumpsSound(code, cf', jumpToLast)
  {}

  /** With every jump resolved and a last opcode that does not fall through, or a Ret added
      where it might, the code is closed. */
  lemma ClosedAtBuild(code: seq<Opcode>, jumpToLast: bool)
    requires JumpsSound(code, {}, jumpToLast) && (code == [] ==> jumpToLast)
    ensures var final := Finished(code, jumpToLast);
            ClosedCode(final) && (forall p {:trigger final[p]} :: 0 <= p < |final| && final[p].IsJump() ==>
                final[p].disp != UNRESOLVED)
  {}

  // ----- every sequence of calls -----

  /** The builder calls; Plain stands for Literal, Ret and the calls that add no jump. */
  datatype Action =
    | Plain(op: Opcode)
    | DoAhead(op: Opcode)
    | DoThen
    | DoBegin
    | DoAgain(op: Opcode)
    | DoPick(depth: nat)
    | DoRoll(depth: nat)

  /** One call; None when it throws. */
  function Perform(b: Draft, a: Action): Option<Draft> {
    match a
    case Plain(op) => if op.IsJump() then None else Some(Added(b, op))
    case DoAhead(op) => if op.IsJump() then Some(Forward(b, op)) else None
    case DoThen => if CanThen(b) then Some(Landed(b)) else None
    case DoBegin => Some(Begun(b))
    case DoAgain(op) => if op.IsJump() && CanAgain(b) then Some(Backward(b, op)) else None
    case DoPick(d) => if d < |b.cf| then Some(Pick(b, d)) else None
    case DoRoll(d) => if d < |b.cf| then Some(Roll(b, d)) else None
  }

  function PerformAll(b: Draft, actions: seq<Action>): Option<Draft> {
    if actions == [] then Some(b)
    else
      match PerformAll(b, actions[..|actions| - 1])
      case None => None
      case Some(b') => Perform(b', actions[|actions| - 1])
  }

  ghost predicate DraftSound(b: Draft) {
    && JumpsSound(b.code, Entries(b.cf), b.jumpToLast)
    && (b.code == [] ==> b.jumpToLast)
    && (forall i {:trigger b.cf[i]} :: 0 <= i < |b.cf| ==> EntrySound(b.cf[i], |b.code|))
  }

  lemma PerformSound(b: Draft, a: Action)
    requires DraftSound(b) && |b.code| < MAX_CODE && Perform(b, a).Some?
    ensures DraftSound(Perform(b, a).value) && |b.code| <= |Perform(b, a).value.code| <= |b.code| + 1
  {
    hide JumpsSound, Entries, Rotation.Rotated;
    var top := |b.cf| - 1;
    match a
    case Plain(op) => AddSound(b.code, Entries(b.cf), b.jumpToLast, op);
    case DoAhead(op) =>
      EntriesPush(b.cf, |b.code|);
      MoreEntries(b.code, Entries(b.cf), Entries(b.cf + [|b.code|]), b.jumpToLast);
      AddSound(b.code, Entries(b.cf + [|b.code|]), b.jumpToLast, Resolved(op, UNRESOLVED));
    case DoThen =>
      EntriesPop(b.cf);
      ThenSound(b.code, Entries(b.cf[..top]), b.jumpToLast, b.cf[top]);
    case DoBegin =>
      EntriesPush(b.cf, -|b.code| - 1);
      MoreEntries(b.code, Entries(b.cf), Entries(b.cf + [-|b.code| - 1]), b.jumpToLast);
    case DoAgain(op) =>
      EntriesPop(b.cf);
      FewerEntries(b.code, Entries(b.cf), Entries(b.cf[..top]), b.jumpToLast, b.cf[top]);
      AddSound(b.code, Entries(b.cf[..top]), b.jumpToLast, Resolved(op, -b.cf[top] - 1 - |b.code| - 1));
    case DoPick(d) =>
      EntriesPush(b.cf, b.cf[top - d]);
      MoreEntries(b.code, Entries(b.cf), Entries(b.cf + [b.cf[top - d]]), b.jumpToLast);
    case DoRoll(d) =>
      EntriesRoll(b.cf, d);
      RollSound(b.cf, d, |b.code|);
  }

  lemma RollSound(s: seq<int>, d: nat, count: nat)
    requires d < |s| && forall i {:trigger s[i]} :: 0 <= i < |s| ==> EntrySound(s[i], count)
    ensures forall i {:trigger Rotation.Rotated(s, d)[i]} :: 0 <= i < |s| ==>
            EntrySound(Rotation.Rotated(s, d)[i], count)
  {
    var k := |s| - 1 - d;
    forall i | 0 <= i < |s|
      ensures EntrySound(Rotation.Rotated(s, d)[i], count)
    {
      assert Rotation.Rotated(s, d)[i] == if i < k then s[i] else if i < |s| - 1 then s[i + 1] else s[k];
    }
  }

  /** As long as there is no opcode, jumpToLast is set, so Build never looks at a missing one. */
  lemma {:induction false} EmptyMayEnd(actions: seq<Action>)
    requires PerformAll(Draft([], [], true), actions).Some?
    ensures var b := PerformAll(Draft([], [], true), actions).value;
            b.code == [] ==> b.jumpToLast
    decreases |actions|
  {
    if actions != [] { EmptyMayEnd(actions[..|actions| - 1]); }
  }

  /** The code that Build returns after the given calls; None when a call or Build itself fails. */
  function BuiltCode(actions: seq<Action>): Option<seq<Opcode>> {
    match PerformAll(Draft([], [], true), actions)
    case None => None
    case Some(b) =>
      if b.cf != [] then None
      else
        EmptyMayEnd(actions);
        Some(Finished(b.code, b.jumpToLast))
  }

  /** Builder closedness: after any sequence of calls that ends with an empty control-flow
      stack, the code Build returns has every jump resolved and inside it, and a last opcode
      that does not fall through. */
  lemma {:induction false} BuiltCodeClosed(actions: seq<Action>)
    requires |actions| < MAX_CODE && PerformAll(Draft([], [], true), actions).Some?
    ensures var b := PerformAll(Draft([], [], true), actions).value;
            && DraftSound(b) && |b.code| <= |actions|
            && (b.cf == [] ==>
                  var final := Finished(b.code, b.jumpToLast);
                  ClosedCode(final)
                  && forall p {:trigger final[p]} :: 0 <= p < |final| && final[p].IsJump() ==>
                       final[p].disp != UNRESOLVED)
    decreases |actions|
  {
    if actions != [] {
      var front := actions[..|actions| - 1];
      BuiltCodeClosed(front);
      PerformSound(PerformAll(Draft([], [], true), front).value, actions[|actions| - 1]);
    }
    var b := PerformAll(Draft([], [], true), actions).value;
    if b.cf == [] {
      assert Entries(b.cf) == {};
      ClosedAtBuild(b.code, b.jumpToLast);
    }
  }

  // ----- the class -----

  /** The cells k to top, with the first moved last. */
  method RotateCells(a: array<int>, k: nat, top: nat)
    requires k <= top < a.Length
    modifies a
    ensures forall i {:trigger a[i]} :: 0 <= i < a.Length ==>
              a[i] == old(if i < k || i > top then a[i] else if i < top then a[i + 1] else a[k])
  {
    var x := a[k];
    forall i | k <= i < top { a[i] := a[i + 1]; }
    a[top] := x;
  }

  lemma BackwardJump(op: Opcode, x: int, count: nat)
    requires op.IsJump() && x < 0 && EntrySound(x, count) && count < MAX_CODE
    ensures var to := Resolved(op, -x - 1 - count - 1);
            to.IsJump() && to.disp != UNRESOLVED && 0 <= count + 1 + to.disp <= count
  {}

  class WordBuilder {
    var cfStack: array<int>
    var cfPtr: int
    var code: seq<Opcode>
    var locals: map<string, nat>
    var jumpToLast: bool
    var stackEffect: SType

    ghost predicate Valid()
      reads this, cfStack
    {
      && cfStack.Length > 0 && -1 <= cfPtr < cfStack.Length
      && (forall i {:trigger cfStack[i]} :: 0 <= i < cfStack.Length ==> EntrySound(cfStack[i], |code|))
      && JumpsSound(code, Entries(cfStack[..cfPtr + 1]), jumpToLast)
      && (code == [] ==> jumpToLast)
      && (forall s {:trigger locals[s]} :: s in locals ==> locals[s] < |locals|)
      && LocalsBelow(code, |locals|)
    }

    ghost function View(): Draft
      requires Valid()
      reads this, cfStack
    {
      Draft(code, cfStack[..cfPtr + 1], jumpToLast)
    }

    constructor ()
      ensures Valid() && fresh(cfStack) && View() == Draft([], [], true) && locals == map[] && stackEffect == UNKNOWN
    {
      cfStack := new int[16](_ => 0);
      cfPtr := -1;
      code := [];
      locals := map[];
      jumpToLast := true;
      stackEffect := UNKNOWN;
    }

    /** Double a full control-flow stack. */
    method MakeRoom()
      requires Valid()
      modifies this`cfStack
      ensures cfStack == old(cfStack) || fresh(cfStack)
      ensures Valid() && cfPtr + 1 < cfStack.Length && cfStack[..cfPtr + 1] == old(cfStack[..cfPtr + 1])
    {
      hide JumpsSound, Entries, LocalsBelow;
      var len := cfStack.Length;
      if cfPtr + 1 == len {
        var ncf := new int[2 * len](_ => 0);
        forall i | 0 <= i < len { ncf[i] := cfStack[i]; }
        ghost var cf := old(cfStack[..cfPtr + 1]);
        assert JumpsSound(code, Entries(cf), jumpToLast);
        assert ncf[..cfPtr + 1] == cf;
        cfStack := ncf;
      }
    }

    method CSPush(x: int)
      requires Valid() && EntrySound(x, |code|)
      modifies this`cfStack, this`cfPtr, cfStack
      ensures cfStack == old(cfStack) || fresh(cfStack)
      ensures Valid() && View() == old(View()).(cf := old(View()).cf + [x])
    {
      hide JumpsSound, Entries, LocalsBelow;
      ghost var cf := cfStack[..cfPtr + 1];
      MakeRoom();
      cfPtr := cfPtr + 1;
      cfStack[cfPtr] := x;
      assert cfStack[..cfPtr + 1] == cf + [x];
      EntriesPush(cf, x);
      MoreEntries(code, Entries(cf), Entries(cf + [x]), jumpToLast);
    }

    /** Append an opcode; a jump must go backward or be on the control-flow stack already. */
    method Add(op: Opcode)
      requires Valid() && |code| < MAX_CODE
      requires op.IsJump() ==>
                 if op.disp == UNRESOLVED then |code| in Entries(cfStack[..cfPtr + 1])
                 else 0 <= |code| + 1 + op.disp <= |code|
      requires op.GetLocal? || op.PutLocal? ==> op.num < |locals|
      modifies this`code, this`jumpToLast
      ensures Valid() && View() == Added(old(View()), op)
    {
      hide JumpsSound, Entries;
      AddSound(code, Entries(cfStack[..cfPtr + 1]), jumpToLast, op);
      code := code + [op];
      jumpToLast := false;
    }

    method Literal(v: Value)
      requires Valid() && |code| < MAX_CODE
      modifies this`code, this`jumpToLast
      ensures Valid() && View() == Added(old(View()), Const(v))
    {
      Add(Const(v));
    }

    method Ret()
      requires Valid() && |code| < MAX_CODE
      modifies this`code, this`jumpToLast
      ensures Valid() && View() == Added(old(View()), Opcode.Ret)
    {
      Add(Opcode.Ret);
    }

    /** A call by name: ">x" writes and "x" reads a local x; any other name is the word it
        resolves to. */
    method Call(target: string, word: nat)
      requires Valid() && |code| < MAX_CODE
      modifies this`code, this`jumpToLast
      ensures Valid()
      ensures var write := |target| > 0 && target[0] == '>';
              var lname := if write then target[1..] else target;
              View() == Added(old(View()),
                              if lname !in locals then Opcode.Call(word)
                              else if write then PutLocal(locals[lname]) else GetLocal(locals[lname]))
    {
      var lname := target;
      var write := false;
      if |target| > 0 && target[0] == '>' {
        lname := target[1..];
        write := true;
      }
      if lname in locals {
        if write {
          Add(PutLocal(locals[lname]));
        } else {
          Add(GetLocal(locals[lname]));
        }
      } else {
        Add(Opcode.Call(word));
      }
    }

    /** Define a local; locals are numbered in order of definition. */
    method DefLocal(lname: string) returns (ok: bool)
      requires Valid()
      modifies this`locals
      ensures Valid() && View() == old(View())
      ensures ok <==> lname !in old(locals)
      ensures locals == if ok then old(locals)[lname := |old(locals)|] else old(locals)
    {
      if lname in locals {
        return false;
      }
      assert |locals[lname := |locals|]| == |locals| + 1;
      locals := locals[lname := |locals|];
      return true;
    }

    method CSPushOrig()
      requires Valid()
      modifies this`cfStack, this`cfPtr, cfStack
      ensures cfStack == old(cfStack) || fresh(cfStack)
      ensures Valid() && View() == old(View()).(cf := old(View()).cf + [|code|])
    {
      CSPush(|code|);
    }

    method CSPushDest()
      requires Valid()
      modifies this`cfStack, this`cfPtr, cfStack
      ensures cfStack == old(cfStack) || fresh(cfStack)
      ensures Valid() && View() == Begun(old(View()))
    {
      CSPush(-|code| - 1);
    }

    /** Ahead, AheadIf and AheadIfNot: an origin is pushed and an unresolved jump added. */
    method Ahead(op: Opcode)
      requires Valid() && |code| < MAX_CODE && op.IsJump()
      modifies this, cfStack
      ensures cfStack == old(cfStack) || fresh(cfStack)
      ensures Valid() && View() == Forward(old(View()), op) && locals == old(locals) && stackEffect == old(stackEffect)
    {
      hide JumpsSound, Entries, LocalsBelow;
      ghost var cf := cfStack[..cfPtr + 1];
      CSPushOrig();
      EntriesPush(cf, |code|);
      Add(Resolved(op, UNRESOLVED));
    }

    method Begin()
      requires Valid()
      modifies this`cfStack, this`cfPtr, cfStack
      ensures cfStack == old(cfStack) || fresh(cfStack)
      ensures Valid() && View() == Begun(old(View()))
    {
      CSPushDest();
    }

    /** Resolve a forward jump to the current end; fails when the top of the control-flow stack
        is missing, not an origin, or not that of an unresolved jump. */
    method Then() returns (ok: bool)
      requires Valid() && |code| < MAX_CODE
      modifies this`cfPtr, this`code, this`jumpToLast
      ensures ok <==> CanThen(old(View()))
      ensures ok ==> Valid() && View() == Landed(old(View()))
    {
      hide JumpsSound, Entries, LocalsBelow;
      if cfPtr < 0 {
        return false;
      }
      ghost var cf := cfStack[..cfPtr + 1];
      var x := cfStack[cfPtr];
      cfPtr := cfPtr - 1;
      if x < 0 || x >= |code| || !code[x].IsJump() || code[x].disp != UNRESOLVED {
        return false;
      }
      EntriesPop(cf);
      assert cf[..|cf| - 1] == cfStack[..cfPtr + 1];
      ThenSound(code, Entries(cfStack[..cfPtr + 1]), jumpToLast, x);
      code := code[x := Resolved(code[x], |code| - x - 1)];
      jumpToLast := true;
      return true;
    }

    /** Again, AgainIf and AgainIfNot: a jump back to the destination popped. */
    method Again(op: Opcode) returns (ok: bool)
      requires Valid() && |code| < MAX_CODE && op.IsJump()
      modifies this`cfPtr, this`code, this`jumpToLast
      ensures ok <==> CanAgain(old(View()))
      ensures ok ==> Valid() && View() == Backward(old(View()), op)
    {
      hide JumpsSound, Entries, LocalsBelow;
      if cfPtr < 0 {
        return false;
      }
      ghost var cf := cfStack[..cfPtr + 1];
      var x := cfStack[cfPtr];
      if x >= 0 {
        return false;
      }
      assert EntrySound(x, |code|);
      EntriesPop(cf);
      assert cf[..|cf| - 1] == cfStack[..cfPtr];
      FewerEntries(code, Entries(cf), Entries(cfStack[..cfPtr]), jumpToLast, x);
      cfPtr := cfPtr - 1;
      BackwardJump(op, x, |code|);
      Add(Resolved(op, -x - 1 - |code| - 1));
      return true;
    }

    /** A negative depth reads a cell above the top, which may hold any earlier entry. */
    method CSPick(depth: int) returns (ok: bool)
      requires Valid()
      modifies this`cfStack, this`cfPtr, cfStack
      ensures ok <==> 0 <= old(cfPtr) - depth < old(cfStack.Length)
      ensures ok ==> Valid() && (cfStack == old(cfStack) || fresh(cfStack))
      ensures ok && depth >= 0 ==> View() == Pick(old(View()), depth)
    {
      if !(0 <= cfPtr - depth < cfStack.Length) {
        return false;
      }
      var x := cfStack[cfPtr - depth];
      CSPush(x);
      return true;
    }

    method CSRoll(depth: int) returns (ok: bool)
      requires Valid()
      modifies cfStack
      ensures ok <==> 0 <= depth <= cfPtr
      ensures ok ==> Valid() && View() == Roll(old(View()), depth)
    {
      hide JumpsSound, Entries, LocalsBelow, Rotation.Rotated;
      if !(0 <= depth <= cfPtr) {
        return false;
      }
      ghost var cf := cfStack[..cfPtr + 1];
      RotateCells(cfStack, cfPtr - depth, cfPtr);
      Rotation.RotatedCells(cf, depth, cfStack[..cfPtr + 1]);
      EntriesRoll(cf, depth);
      return true;
    }

    /** The finished word: every jump resolved and inside the code, and no way to run off its
        end. Fails when the control-flow stack is not empty. */
    method Build() returns (ok: bool, w: Word)
      requires Valid() && |code| < MAX_CODE
      modifies this`code, this`jumpToLast
      ensures ok <==> old(cfPtr) == -1
      ensures ok ==>
                && w.Interpreted? && w.numLocals == |locals| && w.declared == stackEffect
                && w.code == Finished(old(code), old(jumpToLast))
                && ClosedCode(w.code) && LocalsBelow(w.code, w.numLocals)
                && (forall p {:trigger w.code[p]} :: 0 <= p < |w.code| && w.code[p].IsJump() ==>
                    w.code[p].disp != UNRESOLVED)
    {
      w := Data(0, 0);
      if cfPtr != -1 {
        return false, w;
      }
      assert Entries(cfStack[..cfPtr + 1]) == {};
      ClosedAtBuild(code, jumpToLast);
      if jumpToLast || code[|code| - 1].MayFallThrough() {
        Ret();
      }
      w := Interpreted(|locals|, code, stackEffect);
      return true, w;
    }
  }
}
