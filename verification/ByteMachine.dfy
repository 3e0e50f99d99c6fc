// The C interpreter printed by T0Comp.Generate, as a step function on the code block.

module ByteMachine {
  import opened Arith
  import opened Wrappers
  import opened Codec

  /** t0_codeblock, t0_caddr, T0_INTERPRETED, and whether T0_NEXT reads a single byte. */
  datatype Image = Image(code: seq<Byte>, caddr: seq<nat>, interpreted: nat, one: bool)

  /** The C snippets by slot, on the whole data stack; None when the snippet never comes back. */
  type Snippets = (nat, seq<Word32>) -> Option<seq<Word32>>

  /** rmem is the return-stack buffer and rp the index of its first free cell. */
  datatype Machine =
    | Active(ip: nat, ds: seq<Word32>, rmem: seq<Word32>, rp: nat)
    | Stopped(ds: seq<Word32>, rmem: seq<Word32>, rp: nat)
    | Away   // inside a snippet that never comes back
    | Crash  // an access outside the code, the tables or a stack

  /** T0_NEXT. */
  function Next(img: Image, ip: nat): (r: Option<Parsed>)
    ensures r.Some? ==> r.value.value >= 0
  {
    if img.one then
      if ip < |img.code| then Some(Parsed(img.code[ip], ip + 1)) else None
    else ParseUnsigned(img.code, ip)
  }

  /** T0_ENTER. The cells of the new locals keep whatever the buffer held. */
  function EnterSlot(img: Image, slot: nat, ip: nat, ds: seq<Word32>, rmem: seq<Word32>, rp: nat): Machine {
    if slot < img.interpreted || slot - img.interpreted >= |img.caddr| then Crash
    else
      match ParseUnsigned(img.code, img.caddr[slot - img.interpreted])
      case None => Crash
      case Some(Parsed(lnum, newip)) =>
        if rp + lnum >= |rmem| then Crash
        else Active(newip, ds, rmem[rp + lnum := U32(ip + lnum * 0x1_0000)], rp + lnum + 1)
  }

  function Return(ds: seq<Word32>, rmem: seq<Word32>, rp: nat): Machine {
    if rp == 0 || rp > |rmem| then Crash
    else
      var x := rmem[rp - 1];
      var rp' := rp - 1 - x / 0x1_0000;
      if rp' < 0 then Crash
      else if x % 0x1_0000 == 0 then Stopped(ds, rmem, rp')
      else Active(x % 0x1_0000, ds, rmem, rp')
  }

  function Goto(ip: int, ds: seq<Word32>, rmem: seq<Word32>, rp: nat): Machine {
    if ip < 0 then Crash else Active(ip, ds, rmem, rp)
  }

  /** Slots 2 and 3: T0_LOCAL(x) is the cell x below the saved position. */
  function Local(rmem: seq<Word32>, rp: nat, x: int): Option<nat> {
    if 0 <= rp - 2 - x < |rmem| then Some(rp - 2 - x) else None
  }

  /** The opcodes with an argument, after T0_NEXT returned op and left ip behind it. */
  function WithArgument(img: Image, op: nat, ip: nat, ds: seq<Word32>, rmem: seq<Word32>, rp: nat): Machine {
    var top := |ds| - 1;
    if op == 2 || op == 3 then
      match ParseUnsigned(img.code, ip)
      case None => Crash
      case Some(Parsed(x, ip')) =>
        var cell := Local(rmem, rp, x);
        if cell.None? then Crash
        else if op == 2 then Active(ip', ds + [rmem[cell.value]], rmem, rp)
        else if top < 0 then Crash
        else Active(ip', ds[..top], rmem[cell.value := ds[top]], rp)
    else
      match ParseSigned(img.code, ip)
      case None => Crash
      case Some(Parsed(x, ip')) =>
        if op == 1 then Active(ip', ds + [U32(x)], rmem, rp)
        else if op == 4 then Goto(ip' + x, ds, rmem, rp)
        else if top < 0 then Crash
        else if (ds[top] != 0) == (op == 5) then Goto(ip' + x, ds[..top], rmem, rp)
        else Active(ip', ds[..top], rmem, rp)
  }

  /** One turn of the interpreter loop. */
  function Turn(img: Image, C: Snippets, m: Machine): Machine {
    if !m.Active? then m
    else
      match Next(img, m.ip)
      case None => Crash
      case Some(Parsed(op, ip)) =>
        if op >= img.interpreted then EnterSlot(img, op, ip, m.ds, m.rmem, m.rp)
        else if op == 0 then Return(m.ds, m.rmem, m.rp)
        else if op <= 6 then WithArgument(img, op, ip, m.ds, m.rmem, m.rp)
        else
          match C(op, m.ds)
          case None => Away
          case Some(ds) => Active(ip, ds, m.rmem, m.rp)
  }

  function Turns(img: Image, C: Snippets, m: Machine, n: nat): Machine {
    if n == 0 then m else Turn(img, C, Turns(img, C, m, n - 1))
  }

  lemma {:induction false} TurnsCompose(img: Image, C: Snippets, m: Machine, a: nat, b: nat)
    ensures Turns(img, C, Turns(img, C, m, a), b) == Turns(img, C, m, a + b)
  {
    hide Turn;
    if b > 0 { TurnsCompose(img, C, m, a, b - 1); }
  }

  lemma {:induction false} TurnsStay(img: Image, C: Snippets, m: Machine, n: nat)
    requires !m.Active?
    ensures Turns(img, C, m, n) == m
  {
    hide EnterSlot, Return, WithArgument, Next;
    if n > 0 { TurnsStay(img, C, m, n - 1); }
  }

  /** T0_DEFENTRY: entered from position 0, which marks the outermost frame. */
  function Init(img: Image, slot: nat, ds: seq<Word32>, rmem: seq<Word32>, rp: nat): Machine {
    EnterSlot(img, slot, 0, ds, rmem, rp)
  }
}
