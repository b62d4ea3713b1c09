/**
 * The JavaScript number operations `adjustBrightness` uses: `parseInt(s, 16)`,
 * addition, `Math.min` / `Math.max` against an integer bound, `toString(16)`
 * and `padStart`. A number is an integer or NaN; the inputs here never reach
 * fractions, infinities or the precision limit of a double.
 */
module JsNumber {
  import opened JsString

  datatype Num = Finite(value: int) | NaN

  predicate IsHexDigit(c: char) {
    '0' <= c <= '9' || 'a' <= c <= 'f' || 'A' <= c <= 'F'
  }

  predicate IsLowerHexDigit(c: char) {
    '0' <= c <= '9' || 'a' <= c <= 'f'
  }

  function HexDigitValue(c: char): (d: nat)
    requires IsHexDigit(c)
    ensures d < 16
  {
    if '0' <= c <= '9' then c as int - '0' as int
    else if 'a' <= c <= 'f' then c as int - 'a' as int + 10
    else c as int - 'A' as int + 10
  }

  /** The lower-case digit `toString(16)` writes for `d`. */
  function HexChar(d: nat): (c: char)
    requires d < 16
    ensures IsLowerHexDigit(c) && IsHexDigit(c)
    ensures HexDigitValue(c) == d
  {
    if d < 10 then ('0' as int + d) as char else ('a' as int + d - 10) as char
  }

  lemma HexCharOfValue(c: char)
    requires IsLowerHexDigit(c)
    ensures HexChar(HexDigitValue(c)) == c
  {
  }

  /** The longest prefix of `s` whose characters satisfy `p`. */
  function TakeWhile(p: char -> bool, s: string): (r: string)
    ensures |r| <= |s| && r == s[..|r|]
    ensures forall i :: 0 <= i < |r| ==> p(r[i])
    ensures |r| < |s| ==> !p(s[|r|])
  {
    if s != [] && p(s[0]) then [s[0]] + TakeWhile(p, s[1..]) else []
  }

  /** The value of a string of hexadecimal digits, most significant first. */
  function HexValue(ds: string): nat
    requires forall i :: 0 <= i < |ds| ==> IsHexDigit(ds[i])
  {
    if ds == [] then 0 else 16 * HexValue(ds[..|ds| - 1]) + HexDigitValue(ds[|ds| - 1])
  }

  /** `parseInt(s, 16)`: skip leading whitespace, read an optional sign, drop a
      `0x` / `0X` prefix, then read the longest run of hexadecimal digits;
      none at all gives NaN. */
  function ParseIntHex(s: string): Num {
    var t := TrimStart(s);
    var negative := t != [] && t[0] == '-';
    var u := if t != [] && (t[0] == '-' || t[0] == '+') then t[1..] else t;
    var v := if |u| >= 2 && u[0] == '0' && (u[1] == 'x' || u[1] == 'X') then u[2..] else u;
    var digits := TakeWhile(IsHexDigit, v);
    var magnitude: int := HexValue(digits);
    if digits == [] then NaN
    else Finite(if negative then -magnitude else magnitude)
  }

  /** `x + amount`. */
  function Add(x: Num, amount: int): Num {
    if x.NaN? then NaN else Finite(x.value + amount)
  }

  /** `Math.min(bound, x)`. */
  function Min(bound: int, x: Num): Num {
    if x.NaN? then NaN else Finite(if x.value < bound then x.value else bound)
  }

  /** `Math.max(bound, x)`. */
  function Max(bound: int, x: Num): Num {
    if x.NaN? then NaN else Finite(if x.value > bound then x.value else bound)
  }

  /** The digits `toString(16)` writes for a non-negative integer. */
  function HexDigits(n: nat): (s: string)
    ensures s != []
    ensures forall i :: 0 <= i < |s| ==> IsLowerHexDigit(s[i])
  {
    if n < 16 then [HexChar(n)] else HexDigits(n / 16) + [HexChar(n % 16)]
  }

  /** `x.toString(16)`. */
  function ToHexString(x: Num): string {
    if x.NaN? then "NaN"
    else if x.value < 0 then "-" + HexDigits(-x.value)
    else HexDigits(x.value)
  }

  /** `s.padStart(len, fill)` for a one-character fill. */
  function PadStart(s: string, len: nat, fill: char): (r: string)
    ensures |r| == if |s| >= len then |s| else len
    ensures r[|r| - |s|..] == s
    ensures forall i :: 0 <= i < |r| - |s| ==> r[i] == fill
    decreases len - |s|
  {
    if |s| >= len then s else PadStart([fill] + s, len, fill)
  }

  /** A byte as two lower-case hex digits: `n.toString(16).padStart(2, '0')`. */
  lemma HexByte(n: int)
    requires 0 <= n < 256
    ensures PadStart(ToHexString(Finite(n)), 2, '0') == [HexChar(n / 16), HexChar(n % 16)]
  {
    if n < 16 {
      var s := [HexChar(n)];
      assert ToHexString(Finite(n)) == s;
      assert PadStart(s, 2, '0') == PadStart(['0'] + s, 2, '0');
      assert n / 16 == 0 && n % 16 == n;
      assert ['0'] + s == [HexChar(n / 16), HexChar(n % 16)];
    } else {
      assert HexDigits(n / 16) == [HexChar(n / 16)];
      assert ToHexString(Finite(n)) == [HexChar(n / 16), HexChar(n % 16)];
    }
  }

  /** `parseInt` of two hex digits is their value. */
  lemma ParseTwoHexDigits(s: string)
    requires |s| == 2 && IsHexDigit(s[0]) && IsHexDigit(s[1])
    ensures ParseIntHex(s) == Finite(16 * HexDigitValue(s[0]) + HexDigitValue(s[1]))
  {
    assert !IsWhite(s[0]);
    assert TrimStart(s) == s;
    assert s[1..][1..] == [];
    assert TakeWhile(IsHexDigit, s[1..]) == s[1..];
    assert TakeWhile(IsHexDigit, s) == s;
    assert s[..1] == [s[0]];
    assert HexValue(s[..1]) == HexDigitValue(s[0]);
    assert HexValue(s) == 16 * HexDigitValue(s[0]) + HexDigitValue(s[1]);
  }

  /** Encoding a byte and parsing it back returns the byte. */
  lemma ByteRoundTrip(n: int)
    requires 0 <= n < 256
    ensures ParseIntHex(PadStart(ToHexString(Finite(n)), 2, '0')) == Finite(n)
  {
    var c0, c1 := HexChar(n / 16), HexChar(n % 16);
    assert PadStart(ToHexString(Finite(n)), 2, '0') == [c0, c1] by { HexByte(n); }
    ParseByteDigits(n, c0, c1);
  }

  lemma ParseByteDigits(n: int, c0: char, c1: char)
    requires 0 <= n < 256 && IsHexDigit(c0) && IsHexDigit(c1)
    requires HexDigitValue(c0) == n / 16 && HexDigitValue(c1) == n % 16
    ensures ParseIntHex([c0, c1]) == Finite(n)
  {
    ParseTwoHexDigits([c0, c1]);
    ByteOfDigits(n, HexDigitValue(c0), HexDigitValue(c1));
  }

  lemma DivMod16(n: int)
    requires 0 <= n
    ensures 16 * (n / 16) + n % 16 == n
  {
  }

  lemma ByteOfDigits(n: int, hi: int, lo: int)
    requires 0 <= n && hi == n / 16 && lo == n % 16
    ensures 16 * hi + lo == n
  {
    DivMod16(n);
  }

  /** Two lower-case hex digits are the encoding of their value. */
  lemma HexPairEncoding(c0: char, c1: char)
    requires IsLowerHexDigit(c0) && IsLowerHexDigit(c1)
    ensures PadStart(ToHexString(Finite(16 * HexDigitValue(c0) + HexDigitValue(c1))), 2, '0') == [c0, c1]
  {
    var hi, lo := HexDigitValue(c0), HexDigitValue(c1);
    DigitsOfByte(hi, lo);
    HexByte(16 * hi + lo);
    HexCharOfValue(c0);
    HexCharOfValue(c1);
  }

  /** Parsing two lower-case hex digits and encoding the value gives them back. */
  lemma HexPairRoundTrip(c0: char, c1: char)
    requires IsLowerHexDigit(c0) && IsLowerHexDigit(c1)
    ensures ParseIntHex([c0, c1]).Finite?
    ensures PadStart(ToHexString(ParseIntHex([c0, c1])), 2, '0') == [c0, c1]
  {
    ParseTwoHexDigits([c0, c1]);
    EncodeParsedPair(c0, c1, ParseIntHex([c0, c1]));
  }

  lemma EncodeParsedPair(c0: char, c1: char, x: Num)
    requires IsLowerHexDigit(c0) && IsLowerHexDigit(c1)
    requires x == Finite(16 * HexDigitValue(c0) + HexDigitValue(c1))
    ensures PadStart(ToHexString(x), 2, '0') == [c0, c1]
  {
    HexPairEncoding(c0, c1);
  }

  lemma DigitsOfByte(hi: nat, lo: nat)
    requires hi < 16 && lo < 16
    ensures (16 * hi + lo) / 16 == hi && (16 * hi + lo) % 16 == lo
  {
  }
}
