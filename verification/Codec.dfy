// The "7E" format: big-endian 7-bit groups, the upper bit set on all bytes but the last.
// Encoders follow CodeElement.cs, decoders the C text emitted by T0Comp.Generate.

module Codec {
  import opened Arith
  import opened Wrappers

  /** Append-only output, standing for BlobWriter. */
  class BlobWriter {
    var out: seq<Byte>

    constructor ()
      ensures out == []
    {
      out := [];
    }

    method Append(b: Byte)
      modifies this
      ensures out == old(out) + [b]
    {
      out := out + [b];
    }
  }

  // ----- the format -----

  /** The n low 7-bit groups of v, most significant first. */
  function Groups(v: int, n: nat): (b: seq<Byte>)
    requires n >= 1
    ensures |b| == n
  {
    if n == 1 then [v % 128] else [128 + Shr(v, 7 * (n - 1)) % 128] + Groups(v, n - 1)
  }

  function ULen(v: nat): (n: nat)
    ensures n >= 1
  {
    if v < 128 then 1 else 1 + ULen(v / 128)
  }

  function SLen(v: int): (n: nat)
    ensures n >= 1
    decreases if v < 0 then -v else v
  {
    if -64 <= v < 64 then 1 else 1 + SLen(v / 128)
  }

  function EncodeU(v: nat): seq<Byte> { Groups(v, ULen(v)) }

  function EncodeS(v: int): seq<Byte> { Groups(v, SLen(v)) }

  // ----- encoders -----

  method EncodeOneByte(val: Word32, bw: BlobWriter) returns (ok: bool, len: nat)
    modifies bw
    ensures ok <==> val <= 255
    ensures ok ==> len == 1 && bw.out == old(bw.out) + [val]
    ensures !ok ==> bw.out == old(bw.out)
  {
    if val > 255 {
      return false, 0;
    }
    bw.Append(val);
    return true, 1;
  }

  /** Groups still to be written when the shift count is k. */
  function Pending(v: int, k: int): seq<Byte>
    requires k % 7 == 0
  {
    if k < 0 then [] else Groups(v, k / 7 + 1)
  }

  lemma PendingStep(v: int, k: nat, done: seq<Byte>)
    requires k % 7 == 0
    ensures done + Pending(v, k)
         == done + [Shr(v, k) % 128 + (if k > 0 then 0x80 else 0)] + Pending(v, k - 7)
  {
    var x := Shr(v, k) % 128 + (if k > 0 then 0x80 else 0);
    assert 7 * (k / 7) == k;
    assert Pending(v, k) == [x] + Pending(v, k - 7);
  }

  /** The second loop of both encoders: the len groups of val, from the top. */
  method AppendGroups(val: int, len: nat, bw: BlobWriter)
    requires len >= 1
    modifies bw
    ensures bw.out == old(bw.out) + Groups(val, len)
  {
    var k := (len - 1) * 7;
    while k >= 0
      invariant k >= -7 && k % 7 == 0
      invariant old(bw.out) + Groups(val, len) == bw.out + Pending(val, k)
    {
      PendingStep(val, k, bw.out);
      var x := Shr(val, k) % 128;
      if k > 0 {
        x := x + 0x80;
      }
      bw.Append(x);
      k := k - 7;
    }
  }

  method Encode7EUnsigned(val: Word32, bw: BlobWriter?) returns (len: nat)
    modifies bw
    ensures len == ULen(val)
    ensures bw != null ==> bw.out == old(bw.out) + EncodeU(val)
  {
    len := 1;
    var w: int := val;
    while w >= 0x80
      invariant w >= 0 && len >= 1
      invariant len - 1 + ULen(w) == ULen(val)
    {
      len := len + 1;
      w := w / 128;
    }
    if bw != null {
      AppendGroups(val, len, bw);
    }
  }

  method Encode7ESigned(val: Int32, bw: BlobWriter?) returns (len: nat)
    modifies bw
    ensures len == SLen(val)
    ensures bw != null ==> bw.out == old(bw.out) + EncodeS(val)
  {
    len := 1;
    var w: int := val;
    if val < 0 {
      while w < -0x40
        invariant w < 0 && len >= 1
        invariant len - 1 + SLen(w) == SLen(val)
        decreases -w
      {
        len := len + 1;
        w := w / 128;
      }
    } else {
      while w >= 0x40
        invariant w >= 0 && len >= 1
        invariant len - 1 + SLen(w) == SLen(val)
      {
        len := len + 1;
        w := w / 128;
      }
    }
    if bw != null {
      AppendGroups(val, len, bw);
    }
  }

  // ----- decoders -----

  /** A decoded value with the position after it; None when the bytes run out. */
  datatype Parsed = Parsed(value: int, next: nat)

  function ParseLoop(b: seq<Byte>, pos: nat, x: Word32): (r: Option<Parsed>)
    ensures r.Some? ==> pos < r.value.next <= |b| && 0 <= r.value.value < TWO32
    decreases |b| - pos
  {
    if pos >= |b| then None
    else
      var y := b[pos];
      var x' := U32(x * 128 + y % 128);
      if y < 128 then Some(Parsed(x', pos + 1)) else ParseLoop(b, pos + 1, x')
  }

  function ParseUnsigned(b: seq<Byte>, pos: nat): (r: Option<Parsed>)
    ensures r.Some? ==> pos < r.value.next <= |b| && 0 <= r.value.value < TWO32
  {
    ParseLoop(b, pos, 0)
  }

  predicate SignBit(y: Byte) { (y / 64) % 2 == 1 }

  function ParseSigned(b: seq<Byte>, pos: nat): (r: Option<Parsed>)
    ensures r.Some? ==> pos < r.value.next <= |b| && -TWO31 <= r.value.value < TWO31
  {
    if pos >= |b| then None
    else
      var neg := SignBit(b[pos]);
      match ParseLoop(b, pos, if neg then TWO32 - 1 else 0)
      case None => None
      case Some(Parsed(x, next)) =>
        Some(Parsed(if neg then I32(-(I32(TWO32 - 1 - x) as int) - 1) else I32(x), next))
  }

  // ----- round trip -----

  lemma {:induction false} ParseGroups(b: seq<Byte>, pos: nat, v: int, n: nat, acc: Word32)
    requires n >= 1 && pos + n <= |b| && b[pos..pos + n] == Groups(v, n)
    requires acc == U32(Shr(v, 7 * n))
    ensures ParseLoop(b, pos, acc) == Some(Parsed(U32(v), pos + n))
    decreases n
  {
    var y := b[pos];
    assert y == Groups(v, n)[0] by { assert y == b[pos..pos + n][0]; }
    var g := Shr(v, 7 * (n - 1));
    ShrSeven(v, 7 * (n - 1));
    if n == 1 {
      AccumulateGroup(v, y);
    } else {
      AccumulateGroup(g, y);
      assert b[pos + 1..pos + n] == Groups(v, n - 1) by {
        assert b[pos + 1..pos + n] == b[pos..pos + n][1..];
      }
      ParseGroups(b, pos + 1, v, n - 1, U32(g));
    }
  }

  lemma AccumulateGroup(g: int, y: Byte)
    requires y % 128 == g % 128
    ensures U32(U32(g / 128) * 128 + y % 128) == U32(g)
  {
    var q := g / 128;
    assert g == q * 128 + y % 128;
    WholeTurns(U32(q) * 128 + y % 128, q / TWO32 * 128);
  }

  lemma {:induction false} ULenExhausts(v: nat)
    ensures Shr(v, 7 * ULen(v)) == 0
  {
    ShrAfterSeven(v, 7 * (ULen(v) - 1));
    if v >= 128 {
      ULenExhausts(v / 128);
    }
  }

  lemma {:induction false} SLenExhausts(v: int)
    ensures -64 <= Shr(v, 7 * (SLen(v) - 1)) < 64
    ensures Shr(v, 7 * SLen(v)) == if v < 0 then -1 else 0
    ensures Shr(v, 7 * (SLen(v) - 1)) < 0 <==> v < 0
    decreases if v < 0 then -v else v
  {
    ShrAfterSeven(v, 7 * (SLen(v) - 1));
    if !(-64 <= v < 64) {
      SLenExhausts(v / 128);
      ShrAfterSeven(v, 7 * (SLen(v) - 2));
    }
  }

  lemma InRange(v: Word32)
    ensures U32(v) == v && U32(0) == 0
  {}

  /** Wherever the encoding of v stands in b, the C parser reads v and consumes exactly it. */
  lemma UnsignedRoundTrip(b: seq<Byte>, pos: nat, v: Word32)
    requires pos + ULen(v) <= |b| && b[pos..pos + ULen(v)] == EncodeU(v)
    ensures ParseUnsigned(b, pos) == Some(Parsed(v, pos + ULen(v)))
  {
    hide Groups, ParseLoop, Shr, ULen;
    ULenExhausts(v);
    InRange(v);
    ParseGroups(b, pos, v, ULen(v), 0);
  }

  lemma SignedGroupsRoundTrip(b: seq<Byte>, pos: nat, v: Int32, n: nat)
    requires n >= 1 && pos + n <= |b| && b[pos..pos + n] == Groups(v, n)
    requires -64 <= Shr(v, 7 * (n - 1)) < 64
    ensures ParseSigned(b, pos) == Some(Parsed(v, pos + n))
  {
    FirstGroup(v, n);
    assert b[pos] == b[pos..pos + n][0];
    ParseGroups(b, pos, v, n, if v < 0 then TWO32 - 1 else 0);
    ComplementReads(v);
  }

  /** The sign bit of the first byte is the sign of the value. */
  lemma FirstGroup(v: int, n: nat)
    requires n >= 1 && -64 <= Shr(v, 7 * (n - 1)) < 64
    ensures SignBit(Groups(v, n)[0]) <==> v < 0
    ensures Shr(v, 7 * n) == if v < 0 then -1 else 0
  {
    var g := Shr(v, 7 * (n - 1));
    ShrSeven(v, 7 * (n - 1));
    ShrSign(v, 7 * (n - 1));
    if n == 1 { assert g == v; }
    assert Groups(v, n)[0] % 128 == g % 128;
    TopBit(g, Groups(v, n)[0]);
  }

  lemma TopBit(g: int, y: Byte)
    requires -64 <= g < 64 && y % 128 == g % 128
    ensures SignBit(y) <==> g < 0
  {}

  lemma ComplementReads(v: Int32)
    ensures v < 0 ==> I32(-(I32(TWO32 - 1 - U32(v)) as int) - 1) == v
    ensures v >= 0 ==> I32(U32(v)) == v
  {}

  lemma {:induction false} ShrSign(v: int, k: nat)
    ensures Shr(v, k) < 0 <==> v < 0
  {
    if k > 0 { ShrSign(v, k - 1); }
  }

  lemma SignedRoundTrip(b: seq<Byte>, pos: nat, v: Int32)
    requires pos + SLen(v) <= |b| && b[pos..pos + SLen(v)] == EncodeS(v)
    ensures ParseSigned(b, pos) == Some(Parsed(v, pos + SLen(v)))
  {
    SLenExhausts(v);
    SignedGroupsRoundTrip(b, pos, v, SLen(v));
  }

  // ----- shortest, monotone, bounded -----

  lemma {:induction false} ULenMonotone(a: nat, b: nat)
    requires a <= b
    ensures ULen(a) <= ULen(b)
  {
    if b >= 128 && a >= 128 { ULenMonotone(a / 128, b / 128); }
  }

  /** Signed lengths grow with the magnitude, for each sign. */
  lemma {:induction false} SLenMonotone(a: int, b: int)
    requires 0 <= a <= b || b <= a < 0
    ensures SLen(a) <= SLen(b)
    decreases if b < 0 then -b else b
  {
    if !(-64 <= b < 64) && !(-64 <= a < 64) { SLenMonotone(a / 128, b / 128); }
  }

  lemma ULenBound(v: Word32)
    ensures ULen(v) <= 5
  {
    ULenMonotone(v, TWO32 - 1);
    assert ULen(TWO32 - 1) == 5 by {
      assert ULen(0xF) == 1 && ULen(0x7FF) == 2 && ULen(0x3FFFF) == 3 && ULen(0x1FFFFFF) == 4;
    }
  }

  lemma SLenBound(v: Int32)
    ensures SLen(v) <= 5
  {
    if v < 0 {
      SLenMonotone(v, -TWO31);
      assert SLen(-8) == 1 && SLen(-1024) == 2 && SLen(-0x20000) == 3 && SLen(-0x1000000) == 4;
    } else {
      SLenMonotone(v, TWO31 - 1);
      assert SLen(7) == 1 && SLen(1023) == 2 && SLen(0x1FFFF) == 3 && SLen(0xFFFFFF) == 4;
    }
  }

  function Width(x: nat): nat { if x == 0 then 0 else ULen(x) }

  /** No byte string that parses to an unsigned value is shorter than its encoding. */
  lemma UnsignedShortest(b: seq<Byte>, pos: nat)
    requires ParseUnsigned(b, pos).Some?
    ensures var r := ParseUnsigned(b, pos).value; ULen(r.value) <= r.next - pos
  {
    ParseLoopWidth(b, pos, 0);
  }

  lemma {:induction false} ParseLoopWidth(b: seq<Byte>, pos: nat, x: Word32)
    requires ParseLoop(b, pos, x).Some?
    ensures var r := ParseLoop(b, pos, x).value; Width(r.value) <= Width(x) + (r.next - pos)
    decreases |b| - pos
  {
    var v := x * 128 + b[pos] % 128;
    assert v / 128 == x;
    ULenMonotone(U32(v), v);
    if b[pos] >= 128 {
      ParseLoopWidth(b, pos + 1, U32(v));
    }
  }

  /** The same for signed values. */
  lemma SignedShortest(b: seq<Byte>, pos: nat)
    requires ParseSigned(b, pos).Some?
    ensures var r := ParseSigned(b, pos).value; SLen(r.value) <= r.next - pos
  {
    var r := ParseSigned(b, pos).value;
    if r.next - pos >= 5 {
      SLenBound(r.value);
    } else {
      var neg := SignBit(b[pos]);
      var y: int := b[pos];
      var v := (if neg then -128 else 0) + y % 128;
      FirstStep(b[pos]);
      var w := v;
      if b[pos] >= 128 {
        w := ParseLoopSigned(b, pos + 1, U32(v), v, 1);
      }
      FourGroups(w);
      ComplementReads(w);
    }
  }

  lemma FirstStep(y: Byte)
    ensures var v: int := (if SignBit(y) then -128 else 0) + y % 128;
            -64 <= v < 64 && (v < 0 <==> SignBit(y))
            && U32((if SignBit(y) then TWO32 - 1 else 0) * 128 + y % 128) == U32(v)
  {}

  lemma GroupAppended(v: int, y: nat)
    requires y < 128
    ensures U32(U32(v) * 128 + y) == U32(v * 128 + y)
    ensures SLen(v * 128 + y) <= SLen(v) + 1 && (v * 128 + y < 0 <==> v < 0)
  {
    WholeTurns(U32(v) * 128 + y, v / TWO32 * 128);
    assert (v * 128 + y) / 128 == v;
  }

  lemma {:induction false} ParseLoopSigned(b: seq<Byte>, pos: nat, x: Word32, v: int, n: nat)
    returns (w: int)
    requires ParseLoop(b, pos, x).Some? && x == U32(v) && SLen(v) <= n
    ensures var r := ParseLoop(b, pos, x).value;
            r.value == U32(w) && SLen(w) <= n + (r.next - pos) && (w < 0 <==> v < 0)
    decreases |b| - pos
  {
    hide U32, SLen;
    var y := b[pos] % 128;
    w := v * 128 + y;
    GroupAppended(v, y);
    if b[pos] >= 128 {
      w := ParseLoopSigned(b, pos + 1, U32(w), w, n + 1);
    }
  }

  lemma FourGroups(w: int)
    requires SLen(w) <= 4
    ensures -0x800_0000 <= w < 0x800_0000
  {
    assert -64 <= w / 128 / 128 / 128 < 64 by {
      if !(-64 <= w < 64) && !(-64 <= w / 128 < 64) && !(-64 <= w / 128 / 128 < 64) {
        assert SLen(w) == 1 + SLen(w / 128);
        assert SLen(w / 128) == 1 + SLen(w / 128 / 128);
        assert SLen(w / 128 / 128) == 1 + SLen(w / 128 / 128 / 128);
      }
    }
  }
}
