// The parsing loops of the C text emitted by T0Comp.Generate.

module Decoders {
  import opened Arith
  import opened Wrappers
  import opened Codec

  /** t0_parse7E_unsigned: the loop over the bytes at the moving pointer. */
  method Parse7EUnsigned(b: seq<Byte>, p: nat) returns (r: Option<Parsed>)
    ensures r == ParseUnsigned(b, p)
  {
    var x: Word32 := 0;
    var at := p;
    while at < |b|
      invariant ParseLoop(b, p, 0) == ParseLoop(b, at, x)
    {
      var y := b[at];
      at := at + 1;
      x := U32(x * 128 + y % 128);
      if y < 128 {
        return Some(Parsed(x, at));
      }
    }
    return None;
  }

  /** t0_parse7E_signed: the same loop, started with all ones for a negative number, whose
      value is then rebuilt from the complement. */
  method Parse7ESigned(b: seq<Byte>, p: nat) returns (r: Option<Parsed>)
    ensures r == ParseSigned(b, p)
  {
    if p >= |b| {
      return None;
    }
    var neg := SignBit(b[p]);
    var x: Word32 := 0;
    if neg {
      x := TWO32 - 1;
    }
    ghost var start := x;
    var at := p;
    while at < |b|
      invariant ParseLoop(b, p, start) == ParseLoop(b, at, x)
    {
      var y := b[at];
      at := at + 1;
      x := U32(x * 128 + y % 128);
      if y < 128 {
        if neg {
          return Some(Parsed(I32(-(I32(TWO32 - 1 - x) as int) - 1), at));
        }
        return Some(Parsed(I32(x), at));
      }
    }
    return None;
  }
}
