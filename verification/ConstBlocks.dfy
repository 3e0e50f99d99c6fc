// Data blocks (ConstData.cs): a growable array of bytes.

module ConstBlocks {
  import opened Wrappers
  import opened Arith
  import opened Utf8

  /** The n low bytes of x, most significant first. */
  function BigEndian(x: int, n: nat): (b: seq<Byte>)
    ensures |b| == n
    decreases n
  {
    if n == 0 then [] else BigEndian(Shr(x, 8), n - 1) + [x % 256]
  }

  function FromBig(b: seq<Byte>): nat {
    if b == [] then 0 else FromBig(b[..|b| - 1]) * 256 + b[|b| - 1]
  }

  function Pow256(n: nat): (p: nat)
    ensures p > 0
  {
    if n == 0 then 1 else 256 * Pow256(n - 1)
  }

  lemma ShrEight(x: int)
    ensures Shr(x, 8) == x / 256
  {
    assert Shr(x, 8) == Shr(x, 7) / 2;
    ShrSeven(x, 0);
  }

  lemma ModSplit(x: int, p: int)
    requires p > 0
    ensures x % (256 * p) == x / 256 % p * 256 + x % 256
  {
    var q, r := x / 256 / p, x / 256 % p;
    assert x / 256 == p * q + r;
    Scaled(p, q);
    Remainder(q, 256 * p, r * 256 + x % 256);
  }

  lemma Scaled(p: int, q: int)
    ensures 256 * (p * q) == q * (256 * p)
  {}

  lemma Remainder(q: int, m: int, r: int)
    requires 0 <= r < m
    ensures (q * m + r) % m == r
  {
    var x := q * m + r;
    OneQuotient(q, r, x / m, x % m, m);
  }

  lemma OneQuotient(q: int, r: int, q': int, r': int, m: int)
    requires q * m + r == q' * m + r' && 0 <= r < m && 0 <= r' < m
    ensures q == q' && r == r'
  {
    if q > q' { assert (q - q') * m == q * m - q' * m; Multiple(q - q', m); }
    if q < q' { assert (q' - q) * m == q' * m - q * m; Multiple(q' - q, m); }
  }

  lemma Multiple(d: int, m: int)
    requires d > 0 && m > 0
    ensures d * m >= m
  {}

  /** The bytes hold x modulo 256^n. */
  lemma {:induction false} BigEndianValue(x: int, n: nat)
    ensures FromBig(BigEndian(x, n)) == x % Pow256(n)
    decreases n
  {
    if n > 0 {
      ShrEight(x);
      BigEndianValue(x / 256, n - 1);
      ModSplit(x, Pow256(n - 1));
      assert BigEndian(x, n)[..n - 1] == BigEndian(x / 256, n - 1);
    }
  }

  /** A 32-bit value written with Add32 is read back by Read32; the narrower forms keep the
      low 24 and 16 bits. */
  lemma WordsRoundTrip(x: Int32)
    ensures I32(FromBig(BigEndian(x, 4))) == x
    ensures FromBig(BigEndian(x, 3)) == x % 0x100_0000 && FromBig(BigEndian(x, 2)) == x % 0x1_0000
  {
    hide BigEndian, FromBig;
    BigEndianValue(x, 4);
    BigEndianValue(x, 3);
    BigEndianValue(x, 2);
    assert Pow256(2) == 0x1_0000;
    assert Pow256(3) == 0x100_0000 && Pow256(4) == TWO32;
  }

  lemma BigEndianBytes(x: int)
    ensures BigEndian(x, 2) == [Shr(x, 8) % 256, x % 256]
    ensures BigEndian(x, 3) == [Shr(x, 16) % 256, Shr(x, 8) % 256, x % 256]
    ensures BigEndian(x, 4) == [Shr(x, 24) % 256, Shr(x, 16) % 256, Shr(x, 8) % 256, x % 256]
  {
    ShrCompose(x, 8, 8);
    ShrCompose(x, 16, 8);
    var y := Shr(x, 8);
    assert BigEndian(Shr(x, 24), 1) == [Shr(x, 24) % 256];
    assert BigEndian(Shr(x, 16), 2) == [Shr(x, 24) % 256, Shr(x, 16) % 256];
    assert BigEndian(Shr(x, 16), 1) == [Shr(x, 16) % 256];
    assert BigEndian(y, 3) == [Shr(x, 24) % 256, Shr(x, 16) % 256, y % 256];
    assert BigEndian(y, 2) == [Shr(x, 16) % 256, y % 256];
    assert BigEndian(y, 1) == [y % 256];
  }

  lemma FromTwo(a: Byte, b: Byte)
    ensures FromBig([a, b]) == (a as int) * 256 + b
  {
    assert [a, b][..1] == [a] && [a][..0] == [];
    assert FromBig([a]) == a;
  }

  lemma FromThree(a: Byte, b: Byte, c: Byte)
    ensures FromBig([a, b, c]) == (a as int) * 65536 + (b as int) * 256 + c
  {
    assert [a, b, c][..2] == [a, b];
    FromTwo(a, b);
  }

  lemma FromFour(a: Byte, b: Byte, c: Byte, d: Byte)
    ensures FromBig([a, b, c, d]) == (a as int) * 16777216 + (b as int) * 65536 + (c as int) * 256 + d
  {
    assert [a, b, c, d][..3] == [a, b, c];
    FromThree(a, b, c);
  }

  class ConstData {
    var buf: array<Byte>
    var len: nat

    ghost predicate Valid()
      reads this
    {
      len <= buf.Length && buf.Length > 0
    }

    ghost function Contents(): (b: seq<Byte>)
      requires Valid()
      reads this, buf
      ensures |b| == len
    {
      buf[..len]
    }

    constructor ()
      ensures Valid() && fresh(buf) && Contents() == []
    {
      buf := new Byte[4](_ => 0);
      len := 0;
    }

    method Expand(elen: nat)
      requires Valid()
      modifies this`buf
      ensures Valid() && Contents() == old(Contents()) && len + elen <= buf.Length
      ensures buf == old(buf) || fresh(buf)
    {
      var tlen := len + elen;
      if tlen > buf.Length {
        var nbuf := new Byte[Max(2 * buf.Length, tlen)](_ => 0);
        forall i | 0 <= i < len { nbuf[i] := buf[i]; }
        buf := nbuf;
      }
    }

    method Add8(b: Byte)
      requires Valid()
      modifies this, buf
      ensures Valid() && Contents() == old(Contents()) + [b]
      ensures buf == old(buf) || fresh(buf)
    {
      Expand(1);
      buf[len] := b;
      len := len + 1;
    }

    method Add16(x: Int32)
      requires Valid()
      modifies this, buf
      ensures Valid() && Contents() == old(Contents()) + BigEndian(x, 2)
      ensures buf == old(buf) || fresh(buf)
    {
      Expand(2);
      BigEndianBytes(x);
      buf[len], buf[len + 1] := Shr(x, 8) % 256, x % 256;
      len := len + 2;
    }

    method Add24(x: Int32)
      requires Valid()
      modifies this, buf
      ensures Valid() && Contents() == old(Contents()) + BigEndian(x, 3)
      ensures buf == old(buf) || fresh(buf)
    {
      Expand(3);
      BigEndianBytes(x);
      buf[len], buf[len + 1], buf[len + 2] := Shr(x, 16) % 256, Shr(x, 8) % 256, x % 256;
      len := len + 3;
    }

    method Add32(x: Int32)
      requires Valid()
      modifies this, buf
      ensures Valid() && Contents() == old(Contents()) + BigEndian(x, 4)
      ensures buf == old(buf) || fresh(buf)
    {
      Expand(4);
      BigEndianBytes(x);
      buf[len], buf[len + 1], buf[len + 2], buf[len + 3] := Shr(x, 24) % 256, Shr(x, 16) % 256, Shr(x, 8) % 256,
          x % 256;
      len := len + 4;
    }

    /** The bytes of the string, then a zero; what was in the block before stays. */
    method AddString(s: seq<Unit>)
      requires Valid()
      modifies this, buf
      ensures Valid() && Contents() == old(Contents()) + GetBytes(s) + [0]
      ensures buf == old(buf) || fresh(buf)
    {
      var sd := GetBytes(s);
      Expand(|sd| + 1);
      forall i | 0 <= i < |sd| { buf[len + i] := sd[i]; }
      buf[len + |sd|] := 0;
      len := len + |sd| + 1;
      assert Contents() == old(Contents()) + sd + [0];
    }

    predicate InRange(off: int, dlen: nat)
      reads this
    {
      0 <= off <= len - dlen
    }

    method Set8(off: int, v: Byte) returns (ok: bool)
      requires Valid()
      modifies buf
      ensures Valid() && ok == InRange(off, 1)
      ensures Contents() == if ok then old(Contents())[off := v] else old(Contents())
    {
      ok := InRange(off, 1);
      if ok {
        buf[off] := v;
      }
    }

    method Read8(off: int) returns (ok: bool, v: Byte)
      requires Valid()
      ensures ok == InRange(off, 1) && (ok ==> v == Contents()[off])
    {
      ok := InRange(off, 1);
      v := if ok then buf[off] else 0;
    }

    method Read16(off: int) returns (ok: bool, v: Int32)
      requires Valid()
      ensures ok == InRange(off, 2) && (ok ==> v == FromBig(Contents()[off..off + 2]))
    {
      ok, v := InRange(off, 2), 0;
      if ok {
        FromTwo(buf[off], buf[off + 1]);
        assert Contents()[off..off + 2] == [buf[off], buf[off + 1]];
        var hi: int := buf[off];
        v := hi * 256 + buf[off + 1];
      }
    }

    method Read24(off: int) returns (ok: bool, v: Int32)
      requires Valid()
      ensures ok == InRange(off, 3) && (ok ==> v == FromBig(Contents()[off..off + 3]))
    {
      ok, v := InRange(off, 3), 0;
      if ok {
        FromThree(buf[off], buf[off + 1], buf[off + 2]);
        assert Contents()[off..off + 3] == [buf[off], buf[off + 1], buf[off + 2]];
        var b0: int, b1: int := buf[off], buf[off + 1];
        v := b0 * 65536 + b1 * 256 + buf[off + 2];
      }
    }

    method Read32(off: int) returns (ok: bool, v: Int32)
      requires Valid()
      ensures ok == InRange(off, 4) && (ok ==> v == I32(FromBig(Contents()[off..off + 4])))
    {
      ok, v := InRange(off, 4), 0;
      if ok {
        FromFour(buf[off], buf[off + 1], buf[off + 2], buf[off + 3]);
        assert Contents()[off..off + 4] == [buf[off], buf[off + 1], buf[off + 2], buf[off + 3]];
        var b0: int, b1: int, b2: int := buf[off], buf[off + 1], buf[off + 2];
        v := I32(b0 * 16777216 + b1 * 65536 + b2 * 256 + buf[off + 3]);
      }
    }

    /** Fails outside the block. */
    method DecodeUTF8(off: int) returns (ok: bool, x: nat, next: int)
      requires Valid()
      ensures ok <==> 0 <= off < len
      ensures ok ==> (x, next) == DecodeAt(Contents(), off)
    {
      if off < 0 || off >= len {
        return false, 0, off;
      }
      x, next := buf[off], off + 1;
      if x < 0xC0 || x > 0xF7 {
        return true, x, next;
      }
      var elen: nat, acc: nat;
      if x >= 0xF0 {
        elen, acc := 3, x % 8;
      } else if x >= 0xE0 {
        elen, acc := 2, x % 16;
      } else {
        elen, acc := 1, x % 32;
      }
      if next + elen > len {
        return true, x, next;
      }
      for i := 0 to elen
        invariant acc >= 0 && Tail(Contents(), next, elen, LeadBits(x)) == Tail(Contents(), next + i, elen - i, acc)
      {
        var y := buf[next + i];
        if y < 0x80 || y >= 0xC0 {
          return true, x, next;
        }
        acc := acc * 64 + y % 64;
      }
      if acc > 0x10_FFFF {
        return true, x, next;
      }
      return true, acc, next + elen;
    }

    method ToString(off: int) returns (r: Option<seq<Unit>>)
      requires Valid()
      ensures r == if off < 0 then None else ReadString(Contents(), off)
    {
      hide DecodeAt;
      var at, sb: seq<Unit> := off, [];
      if off < 0 {
        return None;
      }
      PrependNothing(ReadString(Contents(), off));
      while true
        invariant at >= 0 && ReadString(Contents(), off) == Prepended(sb, ReadString(Contents(), at))
        decreases len - at
      {
        ghost var rest := ReadString(Contents(), at);
        var ok, x, next := DecodeUTF8(at);
        if !ok {
          return None;
        }
        if x == 0 {
          assert sb + [] == sb;
          return Some(sb);
        }
        ghost var sb0 := sb;
        if x < 0x1_0000 {
          sb := sb + [x];
        } else {
          var y := x - 0x1_0000;
          sb := sb + [0xD800 + y / 0x400, 0xDC00 + y % 0x400];
        }
        PrependMore(sb0, Units(x), ReadString(Contents(), next));
        at := next;
      }
    }
  }

  function Prepended(s: seq<Unit>, r: Option<seq<Unit>>): Option<seq<Unit>> {
    if r.Some? then Some(s + r.value) else None
  }

  lemma PrependNothing(r: Option<seq<Unit>>)
    ensures Prepended([], r) == r
  {
    if r.Some? { assert [] + r.value == r.value; }
  }

  lemma PrependMore(s: seq<Unit>, u: seq<Unit>, r: Option<seq<Unit>>)
    ensures Prepended(s, Prepended(u, r)) == Prepended(s + u, r)
  {
    if r.Some? { assert s + (u + r.value) == (s + u) + r.value; }
  }
}
