// UTF-16 strings, their UTF-8 bytes (section 3 of RFC 3629), and reading them back as
// ConstData.DecodeUTF8 does.

module Utf8 {
  import opened Wrappers
  import opened Arith

  /** A UTF-16 code unit, a C# char. */
  type Unit = x: int | 0 <= x < 0x1_0000

  type CodePoint = x: int | 0 <= x < 0x11_0000

  const REPLACEMENT: CodePoint := 0xFFFD

  // ----- encoding -----

  predicate IsHigh(u: Unit) { 0xD800 <= u < 0xDC00 }

  predicate IsLow(u: Unit) { 0xDC00 <= u < 0xE000 }

  predicate StartsPair(s: seq<Unit>) { |s| >= 2 && IsHigh(s[0]) && IsLow(s[1]) }

  /** The code points of a string; a surrogate without its partner counts as U+FFFD. */
  function CodePoints(s: seq<Unit>): seq<CodePoint> {
    if s == [] then []
    else if StartsPair(s) then [0x1_0000 + (s[0] - 0xD800) * 0x400 + (s[1] - 0xDC00)] + CodePoints(s[2..])
    else [if IsHigh(s[0]) || IsLow(s[0]) then REPLACEMENT else s[0]] + CodePoints(s[1..])
  }

  function EncodePoint(c: CodePoint): (b: seq<Byte>)
    ensures 1 <= |b| <= 4
  {
    if c < 0x80 then [c]
    else if c < 0x800 then [0xC0 + c / 64, 0x80 + c % 64]
    else if c < 0x1_0000 then [0xE0 + c / 4096, 0x80 + c / 64 % 64, 0x80 + c % 64]
    else [0xF0 + c / 262144, 0x80 + c / 4096 % 64, 0x80 + c / 64 % 64, 0x80 + c % 64]
  }

  function EncodePoints(cs: seq<CodePoint>): seq<Byte> {
    if cs == [] then [] else EncodePoint(cs[0]) + EncodePoints(cs[1..])
  }

  /** Encoding.UTF8.GetBytes. */
  function GetBytes(s: seq<Unit>): seq<Byte> { EncodePoints(CodePoints(s)) }

  // ----- decoding -----

  /** Six bits from each continuation byte, or None at a byte that is none. */
  function Tail(b: seq<Byte>, off: nat, count: nat, acc: nat): Option<nat>
    requires off + count <= |b|
    decreases count
  {
    if count == 0 then Some(acc)
    else if b[off] < 0x80 || b[off] >= 0xC0 then None
    else Tail(b, off + 1, count - 1, acc * 64 + b[off] % 64)
  }

  function ExtraLength(lead: Byte): nat { if lead >= 0xF0 then 3 else if lead >= 0xE0 then 2 else 1 }

  function LeadBits(lead: Byte): nat {
    if lead >= 0xF0 then lead % 8 else if lead >= 0xE0 then lead % 16 else lead % 32
  }

  /** The value at off and the offset after it; a byte that starts no sequence stands for itself. */
  function DecodeAt(b: seq<Byte>, off: nat): (r: (nat, nat))
    requires off < |b|
    ensures off < r.1 <= |b| && r.0 < 0x11_0000
  {
    var lead := b[off];
    var n := ExtraLength(lead);
    if lead < 0xC0 || lead > 0xF7 || off + 1 + n > |b| then (lead, off + 1)
    else
      match Tail(b, off + 1, n, LeadBits(lead))
      case None => (lead, off + 1)
      case Some(acc) => if acc > 0x10_FFFF then (lead, off + 1) else (acc, off + 1 + n)
  }

  /** A code point as one unit or as a surrogate pair. */
  function Units(c: CodePoint): (u: seq<Unit>)
    ensures |u| == if c < 0x1_0000 then 1 else 2
  {
    if c < 0x1_0000 then [c]
    else [0xD800 + (c - 0x1_0000) / 0x400, 0xDC00 + (c - 0x1_0000) % 0x400]
  }

  /** The string at off, up to a zero; None when the block ends first. */
  function ReadString(b: seq<Byte>, off: nat): Option<seq<Unit>>
    decreases |b| - off
  {
    if off >= |b| then None
    else
      var (c, next) := DecodeAt(b, off);
      if c == 0 then Some([])
      else
        match ReadString(b, next)
        case None => None
        case Some(rest) => Some(Units(c) + rest)
  }

  // ----- a code point comes back -----

  /** pre and post stand for the rest of the block. */
  lemma PointRoundTrip(pre: seq<Byte>, c: CodePoint, post: seq<Byte>)
    ensures DecodeAt(pre + EncodePoint(c) + post, |pre|) == (c, |pre| + |EncodePoint(c)|)
  {
    var e := EncodePoint(c);
    var b := pre + e + post;
    assert forall i {:trigger e[i]} :: 0 <= i < |e| ==> b[|pre| + i] == e[i];
    var o := |pre|;
    assert b[o] == e[0];
    if c < 0x80 {
    } else if c < 0x800 {
      assert b[o + 1] == e[1];
      TailTwo(b, o, c);
    } else if c < 0x1_0000 {
      assert b[o + 1] == e[1] && b[o + 2] == e[2];
      TailThree(b, o, c);
    } else {
      assert b[o + 1] == e[1] && b[o + 2] == e[2] && b[o + 3] == e[3];
      TailFour(b, o, c);
    }
  }

  lemma TailTwo(b: seq<Byte>, o: nat, c: nat)
    requires 0x80 <= c < 0x800 && o + 2 <= |b| && b[o] == 0xC0 + c / 64 && b[o + 1] == 0x80 + c % 64
    ensures Tail(b, o + 1, 1, LeadBits(b[o])) == Some(c)
  {
    assert Tail(b, o + 2, 0, c) == Some(c);
    assert LeadBits(b[o]) * 64 + b[o + 1] % 64 == c;
  }

  lemma TailThree(b: seq<Byte>, o: nat, c: nat)
    requires 0x800 <= c < 0x1_0000 && o + 3 <= |b|
    requires b[o] == 0xE0 + c / 4096 && b[o + 1] == 0x80 + c / 64 % 64 && b[o + 2] == 0x80 + c % 64
    ensures Tail(b, o + 1, 2, LeadBits(b[o])) == Some(c)
  {
    assert LeadBits(b[o]) * 64 + b[o + 1] % 64 == c / 64;
    assert c / 64 * 64 + b[o + 2] % 64 == c;
    assert Tail(b, o + 3, 0, c) == Some(c);
    assert Tail(b, o + 2, 1, c / 64) == Some(c);
  }

  lemma Sixes(c: nat)
    ensures c / 262144 * 64 + (0x80 + c / 4096 % 64) % 64 == c / 4096
    ensures c / 4096 * 64 + (0x80 + c / 64 % 64) % 64 == c / 64
    ensures c / 64 * 64 + (0x80 + c % 64) % 64 == c
  {
    var x := c / 64;
    var y := x / 64;
    assert c / 4096 == y && c / 262144 == y / 64;
  }

  lemma TailFour(b: seq<Byte>, o: nat, c: nat)
    requires 0x1_0000 <= c < 0x11_0000 && o + 4 <= |b| && b[o] == 0xF0 + c / 262144
    requires b[o + 1] == 0x80 + c / 4096 % 64 && b[o + 2] == 0x80 + c / 64 % 64 && b[o + 3] == 0x80 + c % 64
    ensures Tail(b, o + 1, 3, LeadBits(b[o])) == Some(c)
  {
    Sixes(c);
    assert LeadBits(b[o]) == c / 262144;
    assert Tail(b, o + 4, 0, c) == Some(c);
    assert Tail(b, o + 3, 1, c / 64) == Some(c);
    assert Tail(b, o + 2, 2, c / 4096) == Some(c);
  }

  // ----- shortest form -----

  /** At off stands a single byte below 0x80 or a complete sequence. */
  predicate Complete(b: seq<Byte>, off: nat)
    requires off < |b|
  {
    b[off] < 0x80 || DecodeAt(b, off).1 > off + 1
  }

  lemma TailBound(b: seq<Byte>, off: nat, count: nat, acc: nat)
    requires off + count <= |b| && count <= 2 && Tail(b, off, count, acc).Some?
    ensures Tail(b, off, count, acc).value < if count == 0 then acc + 1 else if count == 1 then (acc + 1) * 64
                                             else (acc + 1) * 4096
  {
    if count > 0 {
      var acc' := acc * 64 + b[off] % 64;
      if count == 2 { assert Tail(b, off + 1, 1, acc') == Tail(b, off + 2, 0, acc' * 64 + b[off + 1] % 64); }
    }
  }

  /** No complete sequence for a code point is shorter than its encoding, so none of the encodings
      is overlong. */
  lemma ShortestEncoding(b: seq<Byte>, off: nat)
    requires off < |b| && Complete(b, off)
    ensures var (c, next) := DecodeAt(b, off); |EncodePoint(c)| <= next - off
  {
    var lead := b[off];
    var n := ExtraLength(lead);
    if DecodeAt(b, off).1 > off + 1 {
      if n < 3 { TailBound(b, off + 1, n, LeadBits(lead)); }
    }
  }

  /** What is below 0x80 is stored as it is. */
  lemma {:induction false} AsciiBytes(s: seq<Unit>)
    requires forall i {:trigger s[i]} :: 0 <= i < |s| ==> s[i] < 0x80
    ensures GetBytes(s) == s
  {
    if s != [] {
      AsciiBytes(s[1..]);
      assert CodePoints(s) == [s[0]] + CodePoints(s[1..]);
      assert CodePoints(s)[1..] == CodePoints(s[1..]);
      assert EncodePoint(s[0]) == [s[0]];
      assert s == [s[0]] + s[1..];
    }
  }

  /** A surrogate without its partner is stored as the three bytes of U+FFFD. */
  lemma LoneSurrogate(s: seq<Unit>)
    requires |s| > 0 && 0xD800 <= s[0] < 0xE000 && !StartsPair(s)
    ensures GetBytes(s) == [0xEF, 0xBF, 0xBD] + GetBytes(s[1..])
  {
    assert CodePoints(s)[1..] == CodePoints(s[1..]);
    assert EncodePoint(REPLACEMENT) == [0xEF, 0xBF, 0xBD];
  }

  // ----- a string comes back -----

  /** The code points before the first zero. */
  function BeforeNul(cs: seq<CodePoint>): seq<CodePoint> {
    if cs == [] || cs[0] == 0 then [] else [cs[0]] + BeforeNul(cs[1..])
  }

  function AllUnits(cs: seq<CodePoint>): seq<Unit> {
    if cs == [] then [] else Units(cs[0]) + AllUnits(cs[1..])
  }

  lemma {:induction false} PointsRead(pre: seq<Byte>, cs: seq<CodePoint>, post: seq<Byte>)
    ensures ReadString(pre + EncodePoints(cs) + [0] + post, |pre|) == Some(AllUnits(BeforeNul(cs)))
    decreases |cs|
  {
    hide DecodeAt, EncodePoint;
    var b := pre + EncodePoints(cs) + [0] + post;
    if cs == [] {
      PointRoundTrip(pre, 0, post);
      ZeroByte();
      assert b == pre + EncodePoint(0) + post;
    } else {
      var e := EncodePoint(cs[0]);
      var rest := EncodePoints(cs[1..]) + [0] + post;
      assert b == pre + e + rest;
      PointRoundTrip(pre, cs[0], rest);
      PointsRead(pre + e, cs[1..], post);
      assert (pre + e) + EncodePoints(cs[1..]) + [0] + post == b;
    }
  }

  lemma ZeroByte()
    ensures EncodePoint(0) == [0]
  {}

  /** Every surrogate has its partner. */
  predicate WellFormed(s: seq<Unit>) {
    s == [] || (if StartsPair(s) then WellFormed(s[2..]) else !IsHigh(s[0]) && !IsLow(s[0]) && WellFormed(s[1..]))
  }

  lemma {:induction false} UnitsBack(s: seq<Unit>)
    ensures |AllUnits(CodePoints(s))| == |s|
    ensures AllUnits(CodePoints(s)) == s <==> WellFormed(s)
    ensures 0 in CodePoints(s) <==> 0 in s
    decreases |s|
  {
    if s == [] {
    } else if StartsPair(s) {
      UnitsBack(s[2..]);
      assert s == s[..2] + s[2..];
      assert Units(CodePoints(s)[0]) == s[..2];
      assert CodePoints(s)[1..] == CodePoints(s[2..]);
    } else {
      UnitsBack(s[1..]);
      assert s == [s[0]] + s[1..];
      assert CodePoints(s)[1..] == CodePoints(s[1..]);
      assert AllUnits(CodePoints(s))[0] == CodePoints(s)[0];
      assert AllUnits(CodePoints(s))[1..] == AllUnits(CodePoints(s[1..]));
    }
  }

  lemma {:induction false} NulCuts(cs: seq<CodePoint>)
    ensures 0 !in cs ==> BeforeNul(cs) == cs
    ensures 0 in cs ==> |AllUnits(BeforeNul(cs))| < |AllUnits(cs)|
  {
    if cs != [] && cs[0] != 0 {
      NulCuts(cs[1..]);
      assert cs == [cs[0]] + cs[1..];
      assert BeforeNul(cs)[1..] == BeforeNul(cs[1..]);
    }
  }

  /** What comes back from a string written with a zero after it, wherever it stands in the
      block: the string itself exactly when its surrogates are paired and it holds no NUL. */
  lemma StringRoundTrip(pre: seq<Byte>, s: seq<Unit>, post: seq<Byte>)
    ensures ReadString(pre + GetBytes(s) + [0] + post, |pre|).Some?
    ensures ReadString(pre + GetBytes(s) + [0] + post, |pre|) == Some(s) <==> WellFormed(s) && 0 !in s
  {
    hide ReadString, CodePoints, WellFormed, EncodePoints, BeforeNul, AllUnits;
    var cs := CodePoints(s);
    PointsRead(pre, cs, post);
    UnitsBack(s);
    NulCuts(cs);
  }
}
