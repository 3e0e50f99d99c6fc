// The emitted interpreter as it keeps its state: two stack buffers with their pointers dp and rp,
// and the instruction pointer, all updated in place.

module Interpreter {
  import opened Arith
  import opened Wrappers
  import opened Codec
  import opened Decoders
  import opened ByteMachine

  /** Going on, returned to the caller, inside a snippet that never comes back, an access outside
      the code, the tables or the return stack, or a full data stack. */
  datatype Ending = Going | Returned | Elsewhere | Wild | Overflow

  class Context {
    const img: Image
    const C: Snippets
    const dmem: array<Word32>
    const rmem: array<Word32>
    var dp: nat
    var rp: nat
    var ip: nat

    ghost predicate Valid()
      reads this
    {
      dmem != rmem && dp <= dmem.Length
    }

    ghost function Stack(): (s: seq<Word32>)
      requires dp <= dmem.Length
      reads this, dmem
      ensures |s| == dp
    {
      dmem[..dp]
    }

    ghost function View(): Machine
      requires Valid()
      reads this, dmem, rmem
    {
      Active(ip, Stack(), rmem[..], rp)
    }

    /** How a turn ended against what the step function says. */
    ghost predicate Shows(how: Ending, m: Machine)
      requires Valid()
      reads this, dmem, rmem
    {
      match how
      case Going => m == View()
      case Returned => m == Stopped(Stack(), rmem[..], rp)
      case Elsewhere => m == Away
      case Wild => m == Crash
      case Overflow => m.Active? && |m.ds| > dmem.Length
    }

    constructor (img: Image, C: Snippets, dsize: nat, rsize: nat)
      ensures Valid() && this.img == img && this.C == C && fresh(dmem) && fresh(rmem)
      ensures dmem.Length == dsize && rmem.Length == rsize && dp == 0 && rp == 0
    {
      this.img := img;
      this.C := C;
      dmem := new Word32[dsize](_ => 0);
      rmem := new Word32[rsize](_ => 0);
      dp, rp, ip := 0, 0, 0;
    }

    /** T0_PUSH. */
    method Push(v: Word32) returns (ok: bool)
      requires Valid()
      modifies this`dp, dmem
      ensures Valid() && ok == (old(dp) < dmem.Length)
      ensures Stack() == if ok then old(Stack()) + [v] else old(Stack())
      ensures rmem[..] == old(rmem[..])
    {
      ok := dp < dmem.Length;
      if ok {
        dmem[dp] := v;
        dp := dp + 1;
      }
    }

    /** T0_ENTER. */
    method Enter(slot: nat) returns (how: Ending)
      requires Valid()
      modifies this`ip, this`rp, rmem
      ensures how == Going || how == Wild
      ensures Valid() && Shows(how, EnterSlot(img, slot, old(ip), old(Stack()), old(rmem[..]), old(rp)))
    {
      if slot < img.interpreted || slot - img.interpreted >= |img.caddr| {
        return Wild;
      }
      var r := Parse7EUnsigned(img.code, img.caddr[slot - img.interpreted]);
      if r.None? {
        return Wild;
      }
      var lnum: nat := r.value.value;
      if rp + lnum >= rmem.Length {
        return Wild;
      }
      ghost var cells := rmem[..];
      rp := rp + lnum;
      rmem[rp] := U32(ip + lnum * 0x1_0000);
      assert rmem[..] == cells[rp := U32(ip + lnum * 0x1_0000)];
      rp := rp + 1;
      ip := r.value.next;
      return Going;
    }

    /** Slot 0. */
    method Ret() returns (how: Ending)
      requires Valid()
      modifies this`ip, this`rp
      ensures Valid() && Shows(how, Return(old(Stack()), old(rmem[..]), old(rp)))
    {
      if rp == 0 || rp > rmem.Length {
        return Wild;
      }
      var x := rmem[rp - 1];
      if rp - 1 - x / 0x1_0000 < 0 {
        return Wild;
      }
      rp := rp - 1 - x / 0x1_0000;
      if x % 0x1_0000 == 0 {
        return Returned;
      }
      ip := x % 0x1_0000;
      return Going;
    }

    /** Slots 2 and 3. */
    method Local(op: nat) returns (how: Ending)
      requires Valid() && (op == 2 || op == 3)
      modifies this`ip, this`dp, dmem, rmem
      ensures Valid() && Shows(how, WithArgument(img, op, old(ip), old(Stack()), old(rmem[..]), old(rp)))
    {
      var r := Parse7EUnsigned(img.code, ip);
      if r.None? {
        return Wild;
      }
      var cell := rp - 2 - r.value.value;
      if !(0 <= cell < rmem.Length) || (op == 3 && dp == 0) {
        return Wild;
      }
      ip := r.value.next;
      if op == 2 {
        var ok := Push(rmem[cell]);
        return if ok then Going else Overflow;
      }
      ghost var cells := rmem[..];
      dp := dp - 1;
      rmem[cell] := dmem[dp];
      assert rmem[..] == cells[cell := dmem[dp]];
      return Going;
    }

    /** Slots 1, 4, 5 and 6. */
    method Signed(op: nat) returns (how: Ending)
      requires Valid() && op <= 6 && op != 0 && op != 2 && op != 3
      modifies this`ip, this`dp, dmem
      ensures Valid() && Shows(how, WithArgument(img, op, old(ip), old(Stack()), old(rmem[..]), old(rp)))
    {
      var r := Parse7ESigned(img.code, ip);
      if r.None? || (op > 4 && dp == 0) {
        return Wild;
      }
      ip := r.value.next;
      if op == 1 {
        var ok := Push(U32(r.value.value));
        return if ok then Going else Overflow;
      }
      var taken := true;
      if op > 4 {
        dp := dp - 1;
        taken := (dmem[dp] != 0) == (op == 5);
      }
      if taken {
        if ip + r.value.value < 0 {
          return Wild;
        }
        ip := ip + r.value.value;
      }
      return Going;
    }

    /** A C snippet on the data stack. */
    method Snippet(op: nat) returns (how: Ending)
      requires Valid()
      modifies this`dp, dmem
      ensures Valid() && Shows(how,
              match C(op, old(Stack())) case None => Away case Some(ds) => Active(ip, ds, old(rmem[..]), rp))
    {
      var r := C(op, dmem[..dp]);
      if r.None? {
        return Elsewhere;
      }
      if |r.value| > dmem.Length {
        return Overflow;
      }
      forall i | 0 <= i < |r.value| { dmem[i] := r.value[i]; }
      dp := |r.value|;
      assert dmem[..dp] == r.value;
      return Going;
    }

    /** One turn of the loop. */
    method Turn() returns (how: Ending)
      requires Valid()
      modifies this`ip, this`rp, this`dp, dmem, rmem
      ensures Valid() && Shows(how, ByteMachine.Turn(img, C, old(View())))
    {
      hide EnterSlot, Return, WithArgument, ParseUnsigned;
      var op: nat;
      if img.one {
        if ip >= |img.code| {
          return Wild;
        }
        op, ip := img.code[ip], ip + 1;
      } else {
        var r := Parse7EUnsigned(img.code, ip);
        if r.None? {
          return Wild;
        }
        op, ip := r.value.value, r.value.next;
      }
      if op >= img.interpreted {
        how := Enter(op);
      } else if op == 0 {
        how := Ret();
      } else if op == 2 || op == 3 {
        how := Local(op);
      } else if op <= 6 {
        how := Signed(op);
      } else {
        how := Snippet(op);
      }
    }

    /** n turns, or fewer if the loop ends before. As long as no state of the run has more cells
        than the data-stack buffer, the buffers hold what the step function says. */
    method Run(n: nat) returns (how: Ending)
      requires Valid()
      requires forall k: nat {:trigger Turns(img, C, View(), k)} ::
                 k <= n && Turns(img, C, View(), k).Active? ==> |Turns(img, C, View(), k).ds| <= dmem.Length
      modifies this`ip, this`rp, this`dp, dmem, rmem
      ensures Valid() && Shows(how, Turns(img, C, old(View()), n))
    {
      hide ByteMachine.Turn;
      how := Going;
      ghost var m := View();
      for i := 0 to n
        invariant Valid() && how == Going && Turns(img, C, m, i) == View()
      {
        how := Turn();
        assert Turns(img, C, m, i + 1) == ByteMachine.Turn(img, C, Turns(img, C, m, i));
        if how != Going {
          Ended(img, C, m, i + 1, n);
          return;
        }
      }
    }
  }

  lemma Ended(img: Image, C: Snippets, m: Machine, i: nat, n: nat)
    requires i <= n && !Turns(img, C, m, i).Active?
    ensures Turns(img, C, m, n) == Turns(img, C, m, i)
  {
    TurnsStay(img, C, Turns(img, C, m, i), n - i);
    TurnsCompose(img, C, m, i, n - i);
  }
}
