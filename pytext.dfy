/**
 * Python's text conversions that the two clipboard scripts rely on:
 * `str()` of an integer (used in f-strings) and `str.encode('utf-8')`.
 */
module PyText {

  /** A Python `bytes` element. */
  type byte = x: int | 0 <= x < 256

  datatype Option<+T> = None | Some(value: T)

  predicate IsDigit(c: char) {
    '0' <= c <= '9'
  }

  predicate AllDigits(s: string) {
    forall i | 0 <= i < |s| :: IsDigit(s[i])
  }

  function DigitChar(d: nat): (c: char)
    requires d < 10
    ensures IsDigit(c) && c as int - '0' as int == d
  {
    ('0' as int + d) as char
  }

  /** `str(n)` for a non-negative Python int: its decimal digits, most significant first. */
  function Decimal(n: nat): (s: string)
    ensures |s| >= 1 && AllDigits(s)
    ensures n < 10 <==> |s| == 1
    decreases n
  {
    if n < 10 then [DigitChar(n)] else Decimal(n / 10) + [DigitChar(n % 10)]
  }

  /** The value of a string of decimal digits: the inverse of `Decimal`. */
  function DigitsValue(s: string): nat
    requires AllDigits(s)
  {
    if s == [] then 0
    else DigitsValue(s[..|s| - 1]) * 10 + (s[|s| - 1] as int - '0' as int)
  }

  lemma {:induction false} DecimalRoundTrip(n: nat)
    ensures DigitsValue(Decimal(n)) == n
    decreases n
  {
    if n >= 10 {
      var s := Decimal(n);
      assert s[..|s| - 1] == Decimal(n / 10);
      DecimalRoundTrip(n / 10);
    }
  }

  /** Distinct numbers never render to the same decimal text. */
  lemma DecimalInjective(a: nat, b: nat)
    ensures Decimal(a) == Decimal(b) <==> a == b
  {
    DecimalRoundTrip(a);
    DecimalRoundTrip(b);
  }

  /** `str(n)` for any Python int: a minus sign before the digits of a negative number. */
  function IntStr(n: int): (s: string)
    ensures n < 0 ==> s == "-" + Decimal(-n)
    ensures n >= 0 ==> s == Decimal(n)
  {
    if n < 0 then "-" + Decimal(-n) else Decimal(n)
  }

  /** Whether `s` is what `str()` gives for some int: digits, or a minus sign and digits. */
  predicate IsIntText(s: string) {
    AllDigits(s) || (|s| > 0 && s[0] == '-' && AllDigits(s[1..]))
  }

  /** Python's `int(s)` on such a string: the inverse of `IntStr`. */
  function IntValue(s: string): int
    requires IsIntText(s)
  {
    if |s| > 0 && s[0] == '-' then -(DigitsValue(s[1..]) as int) else DigitsValue(s)
  }

  /** Reading `str(n)` back as an int gives n, for negative numbers too. */
  lemma IntStrRoundTrip(n: int)
    ensures IsIntText(IntStr(n)) && IntValue(IntStr(n)) == n
  {
    var s := IntStr(n);
    if n < 0 {
      assert s[1..] == Decimal(-n);
      DecimalRoundTrip(-n);
    } else {
      assert IsDigit(s[0]);
      DecimalRoundTrip(n);
    }
  }

  /** Distinct ints never render to the same text. */
  lemma IntStrInjective(a: int, b: int)
    ensures IntStr(a) == IntStr(b) <==> a == b
  {
    IntStrRoundTrip(a);
    IntStrRoundTrip(b);
  }

  /** Code points a Dafny `char` can hold: the Unicode scalar values. */
  predicate IsScalarValue(n: int) {
    0 <= n < 0xD800 || 0xE000 <= n < 0x11_0000
  }

  predicate IsContinuation(b: byte) {
    0x80 <= b < 0xC0
  }

  /** The UTF-8 encoding of one character (RFC 3629, section 3). */
  function EncodeChar(c: char): (b: seq<byte>)
    ensures 1 <= |b| <= 4
    ensures |b| == 1 <==> c as int < 0x80
    ensures |b| == 1 ==> b[0] == c as int
    ensures forall i | 1 <= i < |b| :: IsContinuation(b[i])
  {
    var n := c as int;
    if n < 0x80 then [n]
    else if n < 0x800 then [0xC0 + n / 0x40, 0x80 + n % 0x40]
    else if n < 0x1_0000 then [0xE0 + n / 0x1000, 0x80 + (n / 0x40) % 0x40, 0x80 + n % 0x40]
    else [0xF0 + n / 0x4_0000, 0x80 + (n / 0x1000) % 0x40, 0x80 + (n / 0x40) % 0x40, 0x80 + n % 0x40]
  }

  /** `s.encode('utf-8')`. */
  function Utf8Encode(s: string): (b: seq<byte>)
    ensures |s| <= |b| <= 4 * |s|
  {
    if s == [] then [] else EncodeChar(s[0]) + Utf8Encode(s[1..])
  }

  /** The low six bits a continuation byte carries. */
  function Bits(b: byte): int
    requires IsContinuation(b)
  {
    b - 0x80
  }

  /**
   * Decodes the first character of a strict UTF-8 byte string: the lead byte fixes
   * the length, continuation bytes must follow, and overlong forms, surrogates and
   * values above U+10FFFF are refused. Returns the character and the bytes it used.
   */
  function DecodeChar(b: seq<byte>): (r: Option<(char, nat)>)
    ensures r.Some? ==> 1 <= r.value.1 <= |b|
  {
    if b == [] then None
    else if b[0] < 0x80 then Some((b[0] as char, 1))
    else if 0xC2 <= b[0] < 0xE0 then
      if |b| < 2 || !IsContinuation(b[1]) then None
      else Some((((b[0] - 0xC0) * 0x40 + Bits(b[1])) as char, 2))
    else if 0xE0 <= b[0] < 0xF0 then
      if |b| < 3 || !IsContinuation(b[1]) || !IsContinuation(b[2]) then None
      else
        var n := (b[0] - 0xE0) * 0x1000 + Bits(b[1]) * 0x40 + Bits(b[2]);
        if n < 0x800 || !IsScalarValue(n) then None else Some((n as char, 3))
    else if 0xF0 <= b[0] < 0xF5 then
      if |b| < 4 || !IsContinuation(b[1]) || !IsContinuation(b[2]) || !IsContinuation(b[3]) then None
      else
        var n := (b[0] - 0xF0) * 0x4_0000 + Bits(b[1]) * 0x1000 + Bits(b[2]) * 0x40 + Bits(b[3]);
        if n < 0x1_0000 || !IsScalarValue(n) then None else Some((n as char, 4))
    else None
  }

  /** Strict UTF-8 decoding: `b.decode('utf-8')`, with `None` where Python would raise. */
  function Utf8Decode(b: seq<byte>): Option<string>
    decreases |b|
  {
    if b == [] then Some([])
    else match DecodeChar(b)
      case None => None
      case Some((c, k)) =>
        match Utf8Decode(b[k..])
        case None => None
        case Some(rest) => Some([c] + rest)
  }

  /** Splitting a number into its low six bits and the rest. */
  lemma SixBits(n: nat)
    ensures n == (n / 0x40) * 0x40 + n % 0x40 && 0 <= n % 0x40 < 0x40
    ensures n / 0x1000 == (n / 0x40) / 0x40 && n / 0x4_0000 == (n / 0x1000) / 0x40
  {
  }

  lemma DecodeTwoBytes(c: char, rest: seq<byte>)
    requires 0x80 <= c as int < 0x800
    ensures DecodeChar(EncodeChar(c) + rest) == Some((c, 2))
  {
    var n := c as int;
    var b := EncodeChar(c) + rest;
    SixBits(n);
    assert b[0] == 0xC0 + n / 0x40 && b[1] == 0x80 + n % 0x40;
    assert (b[0] - 0xC0) * 0x40 + Bits(b[1]) == n;
  }

  lemma DecodeThreeBytes(c: char, rest: seq<byte>)
    requires 0x800 <= c as int < 0x1_0000
    ensures DecodeChar(EncodeChar(c) + rest) == Some((c, 3))
  {
    var n := c as int;
    var b := EncodeChar(c) + rest;
    var q := n / 0x40;
    SixBits(n);
    SixBits(q);
    assert b[0] == 0xE0 + q / 0x40 && b[1] == 0x80 + q % 0x40 && b[2] == 0x80 + n % 0x40;
    assert (b[0] - 0xE0) * 0x1000 + Bits(b[1]) * 0x40 + Bits(b[2]) == (q / 0x40 * 0x40 + q % 0x40) * 0x40 + n % 0x40;
  }

  lemma DecodeFourBytes(c: char, rest: seq<byte>)
    requires 0x1_0000 <= c as int
    ensures DecodeChar(EncodeChar(c) + rest) == Some((c, 4))
  {
    var n := c as int;
    var b := EncodeChar(c) + rest;
    var q := n / 0x40;
    var r := q / 0x40;
    SixBits(n);
    SixBits(q);
    SixBits(r);
    assert n / 0x1000 == r && n / 0x4_0000 == r / 0x40;
    assert b[0] == 0xF0 + r / 0x40 && b[1] == 0x80 + r % 0x40;
    assert b[2] == 0x80 + q % 0x40 && b[3] == 0x80 + n % 0x40;
    assert (b[0] - 0xF0) * 0x4_0000 + Bits(b[1]) * 0x1000 + Bits(b[2]) * 0x40 + Bits(b[3])
        == ((r / 0x40 * 0x40 + r % 0x40) * 0x40 + q % 0x40) * 0x40 + n % 0x40;
  }

  /** The decoder reads back exactly the character the encoder wrote, and no more bytes. */
  lemma DecodeEncodedChar(c: char, rest: seq<byte>)
    ensures DecodeChar(EncodeChar(c) + rest) == Some((c, |EncodeChar(c)|))
  {
    var n := c as int;
    if n < 0x80 {
    } else if n < 0x800 {
      DecodeTwoBytes(c, rest);
    } else if n < 0x1_0000 {
      DecodeThreeBytes(c, rest);
    } else {
      DecodeFourBytes(c, rest);
    }
  }

  /** Decoding undoes encoding: the UTF-8 text written for a non-byte payload is exactly its text. */
  lemma {:induction false} Utf8RoundTrip(s: string)
    ensures Utf8Decode(Utf8Encode(s)) == Some(s)
  {
    if s != [] {
      var head := EncodeChar(s[0]);
      var tail := Utf8Encode(s[1..]);
      assert Utf8Encode(s) == head + tail;
      DecodeEncodedChar(s[0], tail);
      assert (head + tail)[|head|..] == tail;
      Utf8RoundTrip(s[1..]);
      assert Utf8Decode(head + tail) == Some([s[0]] + s[1..]);
      assert [s[0]] + s[1..] == s;
    }
  }

  predicate IsAscii(s: string) {
    forall i | 0 <= i < |s| :: s[i] as int < 0x80
  }

  /** ASCII text encodes to its own code points, one byte per character. */
  lemma {:induction false} AsciiEncoding(s: string)
    requires IsAscii(s)
    ensures |Utf8Encode(s)| == |s|
    ensures forall i | 0 <= i < |s| :: Utf8Encode(s)[i] == s[i] as int
  {
    if s != [] {
      AsciiEncoding(s[1..]);
    }
  }
}
