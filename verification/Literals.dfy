// Integer literals (T0Comp.TryParseLiteral).

module Literals {
  import opened Arith
  import opened Wrappers

  /** A string, the code of a character, a number, or no literal; BadCharacter and Overflow are
      exceptions. */
  datatype Parsed = Text(body: string) | Character(code: int) | Number(x: Int32) | NotLiteral | BadCharacter | Overflow

  /** T0Comp.HexVal. */
  function HexVal(c: char): (d: int)
    ensures -1 <= d < 16
  {
    if '0' <= c <= '9' then c as int - '0' as int
    else if 'A' <= c <= 'F' then c as int - ('A' as int - 10)
    else if 'a' <= c <= 'f' then c as int - ('a' as int - 10)
    else -1
  }

  // ----- what a literal means -----

  predicate IsDigit(c: char, radix: nat) { 0 <= HexVal(c) < radix }

  predicate AllDigits(s: string, radix: nat) { forall i :: 0 <= i < |s| ==> IsDigit(s[i], radix) }

  /** The number that a string of digits denotes. */
  function Value(s: string, radix: nat): nat
    requires AllDigits(s, radix)
  {
    if s == "" then 0 else Value(s[..|s| - 1], radix) * radix + HexVal(s[|s| - 1])
  }

  predicate Prefixed(s: string, lower: char, upper: char) {
    |s| >= 2 && s[0] == '0' && (s[1] == lower || s[1] == upper)
  }

  function Unsigned(tt: string): string { if |tt| > 0 && (tt[0] == '-' || tt[0] == '+') then tt[1..] else tt }

  predicate Negative(tt: string) { |tt| > 0 && tt[0] == '-' }

  function Radix(s: string): (r: nat)
    ensures r == 2 || r == 10 || r == 16
  {
    if Prefixed(s, 'x', 'X') then 16 else if Prefixed(s, 'b', 'B') then 2 else 10
  }

  function DigitsOf(s: string): string { if Radix(s) == 10 then s else s[2..] }

  predicate IsQuoted(tt: string) { |tt| > 0 && (tt[0] == '"' || tt[0] == '`') }

  /** A sign, a radix prefix and at least one digit. */
  predicate IsNumeral(tt: string) {
    var s := Unsigned(tt);
    !IsQuoted(tt) && |DigitsOf(s)| > 0 && AllDigits(DigitsOf(s), Radix(s))
  }

  function Magnitude(tt: string): nat
    requires IsNumeral(tt)
  {
    Value(DigitsOf(Unsigned(tt)), Radix(Unsigned(tt)))
  }

  function Negated(neg: bool, v: int): int { if neg then -v else v }

  /** The number that a numeral denotes. */
  function Denoted(tt: string): int
    requires IsNumeral(tt)
  {
    Negated(Negative(tt), Magnitude(tt))
  }

  /** The largest magnitude that fits: of an unsigned word, or of a negative signed one. */
  function Limit(neg: bool): int { if neg then TWO31 else TWO32 - 1 }

  predicate IsText(tt: string) { |tt| > 0 && tt[0] == '"' }

  predicate IsBackquoted(tt: string) { |tt| > 0 && tt[0] == '`' }

  /** The characters with an escape of their own; any other stands for itself. */
  function EscapeCode(c: char): int {
    match c
    case 'n' => 10
    case 'r' => 13
    case 't' => 9
    case 's' => 32
    case _ => c as int
  }

  /** \xHH or \uHHHH. */
  predicate IsHexEscape(t: string) {
    && |t| > 2 && t[0] == '\\' && AllDigits(t[2..], 16)
    && ((t[1] == 'x' && |t| == 4) || (t[1] == 'u' && |t| == 6))
  }

  /** What is behind a backquote, as a character code. */
  function CharacterOf(t: string): Option<int> {
    if |t| == 1 && t[0] != '\\' then Some(t[0] as int)
    else if IsHexEscape(t) then Some(Value(t[2..], 16))
    else if |t| == 2 && t[0] == '\\' && t[1] != 'x' && t[1] != 'u' then Some(EscapeCode(t[1]))
    else None
  }

  // ----- the parser -----

  /** T0Comp.DecHex, for up to four digits. */
  method DecHex(s: string) returns (r: int)
    requires |s| <= 4
    ensures r == if AllDigits(s, 16) then Value(s, 16) else -1
  {
    var acc := 0;
    for i := 0 to |s|
      invariant AllDigits(s[..i], 16) && acc == Value(s[..i], 16)
    {
      var d := HexVal(s[i]);
      if d < 0 {
        assert !IsDigit(s[i], 16);
        return -1;
      }
      assert s[..i + 1][..i] == s[..i];
      acc := acc * 16 + d;
    }
    assert s[..|s|] == s;
    return acc;
  }

  method SingleCharEscape(c: char) returns (r: int)
    ensures r == EscapeCode(c)
  {
    match c
    case 'n' => return 10;
    case 'r' => return 13;
    case 't' => return 9;
    case 's' => return 32;
    case _ => return c as int;
  }

  method DecodeCharConst(t: string) returns (r: Option<int>)
    ensures r == CharacterOf(t)
  {
    if |t| == 1 && t[0] != '\\' {
      return Some(t[0] as int);
    }
    if |t| >= 2 && t[0] == '\\' {
      if (t[1] == 'x' && |t| == 4) || (t[1] == 'u' && |t| == 6) {
        var x := DecHex(t[2..]);
        if x >= 0 {
          return Some(x);
        }
      } else if t[1] != 'x' && t[1] != 'u' && |t| == 2 {
        var c := SingleCharEscape(t[1]);
        return Some(c);
      }
    }
    return None;
  }

  /** One digit, in wrapping arithmetic: the flag says whether the true value has left 32 bits. */
  method Accumulate(acc: Word32, d: nat, radix: nat, overflow: bool, ghost value: nat)
    returns (acc': Word32, overflow': bool)
    requires radix == 2 || radix == 10 || radix == 16
    requires d < radix && acc == value % TWO32 && (overflow <==> value >= TWO32)
    ensures acc' == (value * radix + d) % TWO32 && (overflow' <==> value * radix + d >= TWO32)
  {
    WrapsAlong(value, radix, d);
    if value < TWO32 { OverflowSeen(value, radix, d); }
    overflow' := overflow;
    var maxV := (TWO32 - 1) / radix;
    if acc > maxV {
      overflow' := true;
    }
    acc' := acc * radix % TWO32;
    if d > TWO32 - 1 - acc' {
      overflow' := true;
    }
    acc' := (acc' + d) % TWO32;
  }

  /** The two tests find every overflow of one step. */
  lemma OverflowSeen(value: Word32, radix: nat, d: nat)
    requires radix == 2 || radix == 10 || radix == 16
    ensures value > (TWO32 - 1) / radix || d > TWO32 - 1 - value * radix % TWO32 <==> value * radix + d >= TWO32
  {}

  lemma WrapsAlong(value: nat, radix: nat, d: nat)
    requires radix == 2 || radix == 10 || radix == 16
    ensures (value % TWO32 * radix % TWO32 + d) % TWO32 == (value * radix + d) % TWO32
    ensures value >= TWO32 ==> value * radix + d >= TWO32
  {
    var q, r := value / TWO32, value % TWO32;
    assert value * radix + d == (q * radix) * TWO32 + (r * radix + d);
    Mod32(r * radix + d, q * radix);
    Mod32(r * radix % TWO32 + d, r * radix / TWO32);
  }

  lemma Mod32(x: int, k: int)
    ensures (k * TWO32 + x) % TWO32 == x % TWO32
  {}

  method ParseDigits(s: string, radix: nat) returns (ok: bool, acc: Word32, overflow: bool)
    requires radix == 2 || radix == 10 || radix == 16
    ensures ok <==> AllDigits(s, radix)
    ensures ok ==> acc == Value(s, radix) % TWO32 && (overflow <==> Value(s, radix) >= TWO32)
  {
    acc, overflow := 0, false;
    for i := 0 to |s|
      invariant AllDigits(s[..i], radix)
      invariant acc == Value(s[..i], radix) % TWO32 && (overflow <==> Value(s[..i], radix) >= TWO32)
    {
      var d := HexVal(s[i]);
      if d < 0 || d >= radix {
        assert !IsDigit(s[i], radix);
        return false, acc, overflow;
      }
      assert s[..i + 1][..i] == s[..i];
      acc, overflow := Accumulate(acc, d, radix, overflow, Value(s[..i], radix));
    }
    assert s[..|s|] == s;
    ok := true;
  }

  /** Strings and characters first. Else it succeeds exactly on numerals whose value fits, gives
      that value modulo 2^32, and reports overflow on all other numerals, whatever their length. */
  method TryParseLiteral(text: string) returns (r: Parsed)
    ensures IsText(text) ==> r == Text(text[1..])
    ensures IsBackquoted(text) ==>
              r == match CharacterOf(text[1..]) { case None => BadCharacter case Some(c) => Character(c) }
    ensures r == NotLiteral <==> !IsQuoted(text) && !IsNumeral(text)
    ensures r == Overflow <==> IsNumeral(text) && Magnitude(text) > Limit(Negative(text))
    ensures r.Number? <==> IsNumeral(text) && Magnitude(text) <= Limit(Negative(text))
    ensures r.Number? ==> r.x == I32(Denoted(text))
  {
    hide Value, AllDigits;
    var tt := text;
    if |tt| > 0 && tt[0] == '"' {
      return Text(tt[1..]);
    }
    if |tt| > 0 && tt[0] == '`' {
      var c := DecodeCharConst(tt[1..]);
      return match c { case None => BadCharacter case Some(code) => Character(code) };
    }
    var neg := false;
    if |tt| > 0 && tt[0] == '-' {
      neg := true;
      tt := tt[1..];
    } else if |tt| > 0 && tt[0] == '+' {
      tt := tt[1..];
    }
    var radix := 10;
    if Prefixed(tt, 'x', 'X') {
      radix := 16;
      tt := tt[2..];
    } else if Prefixed(tt, 'b', 'B') {
      radix := 2;
      tt := tt[2..];
    }
    if |tt| == 0 {
      return NotLiteral;
    }
    var ok, acc, overflow := ParseDigits(tt, radix);
    if !ok {
      return NotLiteral;
    }
    r := Converted(neg, acc, overflow, Value(tt, radix));
  }

  /** The accumulated word as a signed value, negated when there was a minus sign. */
  method Converted(neg: bool, acc: Word32, overflow: bool, ghost value: nat) returns (r: Parsed)
    requires acc == value % TWO32 && (overflow <==> value >= TWO32)
    ensures r == if value > Limit(neg) then Overflow else Number(I32(Negated(neg, value)))
  {
    var over := overflow;
    var x := I32(acc);
    if neg {
      if acc > TWO31 {
        over := true;
      }
      x := I32(Negated(true, x));
    }
    if over {
      return Overflow;
    }
    return Number(x);
  }

  // ----- every value has a literal -----

  const LOWER: string := "0123456789abcdef"
  const UPPER: string := "0123456789ABCDEF"

  /** The digits, one by one. */
  lemma DigitsAre(c: char, d: nat)
    requires d < 16
    ensures HexVal(c) == d <==> c == LOWER[d] || c == UPPER[d]
    ensures HexVal(c) == -1 <==> c !in LOWER && c !in UPPER
  {
    assert HexVal(c) >= 0 ==> c == LOWER[HexVal(c)] || c == UPPER[HexVal(c)];
    assert forall k: nat {:trigger LOWER[k]} :: k < 16 ==> HexVal(LOWER[k]) == k;
    assert forall k: nat {:trigger UPPER[k]} :: k < 16 ==> HexVal(UPPER[k]) == k;
  }

  lemma DigitReads(digits: string, d: nat)
    requires d < 16 && (digits == LOWER || digits == UPPER)
    ensures HexVal(digits[d]) == d
  {
    DigitsAre(digits[d], d);
  }

  type Base = r: nat | r == 2 || r == 10 || r == 16 witness 2

  /** Quotient and remainder by a radix. */
  function Divided(v: nat, radix: Base): (r: (nat, nat))
    ensures r.0 * radix + r.1 == v && r.1 < radix && r.0 <= v && (v >= radix ==> r.0 < v)
  {
    if radix == 2 then (v / 2, v % 2) else if radix == 10 then (v / 10, v % 10) else (v / 16, v % 16)
  }

  /** A number in the given digits. */
  function Render(v: nat, digits: string, radix: Base): (s: string)
    requires |digits| == 16
    ensures |s| > 0
  {
    var (q, r) := Divided(v, radix);
    if v < radix then [digits[v]] else Render(q, digits, radix) + [digits[r]]
  }

  lemma {:induction false} RenderValue(v: nat, digits: string, radix: Base)
    requires digits == LOWER || digits == UPPER
    ensures AllDigits(Render(v, digits, radix), radix) && Value(Render(v, digits, radix), radix) == v
  {
    hide HexVal, Divided;
    var (q, r) := Divided(v, radix);
    var s := Render(v, digits, radix);
    if v < radix {
      DigitReads(digits, v);
      assert s[..0] == "";
    } else {
      DigitReads(digits, r);
      RenderValue(q, digits, radix);
      assert s[..|s| - 1] == Render(q, digits, radix);
    }
  }

  function Zeroes(n: nat): string { seq(n, _ => '0') }

  lemma {:induction false} LeadingZeroes(n: nat, s: string, radix: Base)
    requires AllDigits(s, radix)
    ensures AllDigits(Zeroes(n) + s, radix) && Value(Zeroes(n) + s, radix) == Value(s, radix)
    decreases |s|, n
  {
    var t := Zeroes(n) + s;
    if s != "" {
      LeadingZeroes(n, s[..|s| - 1], radix);
      assert t[..|t| - 1] == Zeroes(n) + s[..|s| - 1];
    } else if n > 0 {
      LeadingZeroes(n - 1, "", radix);
      assert t[..|t| - 1] == Zeroes(n - 1) + "";
    }
  }

  predicate Announces(prefix: string, radix: nat) {
    || (prefix == "" && radix == 10)
    || ((prefix == "0x" || prefix == "0X") && radix == 16)
    || ((prefix == "0b" || prefix == "0B") && radix == 2)
  }

  lemma PrefixRead(prefix: string, radix: Base, s: string)
    requires Announces(prefix, radix) && |s| > 0 && AllDigits(s, radix)
    ensures Radix(prefix + s) == radix && DigitsOf(prefix + s) == s
    ensures HexVal((prefix + s)[0]) >= 0
  {
    assert IsDigit(s[0], radix);
    if radix == 10 {
      assert prefix + s == s;
      if |s| > 1 { assert IsDigit(s[1], 10); }
    } else {
      assert (prefix + s)[2..] == s;
    }
  }

  /** Every number is denoted by its digits, small or capital, behind any sign, any prefix of the
      radix and any zeroes; it fits up to 2^32 - 1, or up to 2^31 behind a minus sign. */
  lemma NumeralRoundTrip(sign: string, prefix: string, radix: Base, zeroes: nat, digits: string, v: nat)
    requires (sign == "" || sign == "+" || sign == "-") && Announces(prefix, radix)
    requires digits == LOWER || digits == UPPER
    ensures var tt := sign + (prefix + (Zeroes(zeroes) + Render(v, digits, radix)));
            && IsNumeral(tt) && Denoted(tt) == (if sign == "-" then 0 - v else v)
            && (Magnitude(tt) <= Limit(Negative(tt)) <==> v <= (if sign == "-" then 0x8000_0000 else 0xFFFF_FFFF))
  {
    hide Value, AllDigits, HexVal, Render, Zeroes;
    var s := Zeroes(zeroes) + Render(v, digits, radix);
    RenderValue(v, digits, radix);
    LeadingZeroes(zeroes, Render(v, digits, radix), radix);
    PrefixRead(prefix, radix, s);
    SignRead(sign, prefix + s);
  }

  lemma SignRead(sign: string, s: string)
    requires sign == "" || sign == "+" || sign == "-"
    requires |s| > 0 && HexVal(s[0]) >= 0
    ensures Unsigned(sign + s) == s && !IsQuoted(sign + s) && (Negative(sign + s) <==> sign == "-")
  {
    if sign == "" {
      assert sign + s == s;
    } else {
      assert (sign + s)[1..] == s;
    }
  }

  function Rendered(x: int): string {
    if x < 0 then "-" + Render(Negated(true, x), LOWER, 10) else Render(x, LOWER, 10)
  }

  /** The decimal rendering of a signed 32-bit value is a numeral that fits and denotes it. */
  lemma LiteralRoundTrip(x: Int32)
    ensures var tt := Rendered(x);
            IsNumeral(tt) && Magnitude(tt) <= Limit(Negative(tt)) && Denoted(tt) == x && I32(Denoted(tt)) == x
  {
    hide IsNumeral, Denoted, Magnitude, Limit, Render;
    var v: int := Negated(x < 0, x);
    var sign := if x < 0 then "-" else "";
    NumeralRoundTrip(sign, "", 10, 0, LOWER, v);
    assert sign + ("" + (Zeroes(0) + Render(v, LOWER, 10))) == Rendered(x);
  }

  // ----- every character has a literal -----

  function Pow16(n: nat): nat { if n == 0 then 1 else 16 * Pow16(n - 1) }

  /** The last n hexadecimal digits. */
  function Fixed(c: nat, n: nat, digits: string): (s: string)
    requires |digits| == 16
    ensures |s| == n
  {
    if n == 0 then "" else Fixed(c / 16, n - 1, digits) + [digits[c % 16]]
  }

  lemma {:induction false} FixedValue(c: nat, n: nat, digits: string)
    requires c < Pow16(n) && (digits == LOWER || digits == UPPER)
    ensures AllDigits(Fixed(c, n, digits), 16) && Value(Fixed(c, n, digits), 16) == c
  {
    hide HexVal;
    if n > 0 {
      DigitReads(digits, c % 16);
      FixedValue(c / 16, n - 1, digits);
      assert Fixed(c, n, digits)[..n - 1] == Fixed(c / 16, n - 1, digits);
    }
  }

  /** Every 16-bit character code has a literal of four digits, and up to 255 one of two. */
  lemma CharacterRoundTrip(c: nat, digits: string)
    requires digits == LOWER || digits == UPPER
    ensures c < 0x1_0000 ==> CharacterOf("\\u" + Fixed(c, 4, digits)) == Some(c)
    ensures c < 0x100 ==> CharacterOf("\\x" + Fixed(c, 2, digits)) == Some(c)
  {
    hide Value, AllDigits;
    assert Pow16(2) == 0x100 && Pow16(4) == 0x1_0000;
    if c < 0x1_0000 {
      FixedValue(c, 4, digits);
      assert ("\\u" + Fixed(c, 4, digits))[2..] == Fixed(c, 4, digits);
    }
    if c < 0x100 {
      FixedValue(c, 2, digits);
      assert ("\\x" + Fixed(c, 2, digits))[2..] == Fixed(c, 2, digits);
    }
  }

  /** Line feed, carriage return, tab and space have letters; other characters are themselves,
      behind a backslash too. */
  lemma EscapesAre(c: char)
    ensures CharacterOf("\\n") == Some(0x0A) && CharacterOf("\\r") == Some(0x0D)
    ensures CharacterOf("\\t") == Some(0x09) && CharacterOf("\\s") == Some(0x20)
    ensures c !in "nrtsxu" ==> CharacterOf(['\\', c]) == Some(c as int)
    ensures c != '\\' ==> CharacterOf([c]) == Some(c as int)
    ensures CharacterOf("") == None && CharacterOf("\\") == None
  {
    assert c !in "nrtsxu" ==> c != 'n' && c != 'r' && c != 't' && c != 's' && c != 'x' && c != 'u' by {
      assert "nrtsxu"[0] == 'n' && "nrtsxu"[1] == 'r' && "nrtsxu"[2] == 't';
      assert "nrtsxu"[3] == 's' && "nrtsxu"[4] == 'x' && "nrtsxu"[5] == 'u';
    }
  }
}
