/** Which byte sequences are text: exactly those that a writer of Unicode scalar values puts down
    (section 3 of RFC 3629). */
module Utf8 {
  import opened Types

  /** A Unicode scalar value: no surrogates. */
  type Scalar = c: int | 0 <= c < 0x11_0000 && !(0xD800 <= c < 0xE000)

  function Write(c: Scalar): (s: Bytes)
    ensures |s| >= 1
  {
    if c < 0x80 then [c]
    else if c < 0x800 then [0xC0 + c / 64, 0x80 + c % 64]
    else if c < 0x1_0000 then [0xE0 + c / 4096, 0x80 + c / 64 % 64, 0x80 + c % 64]
    else [0xF0 + c / 262144, 0x80 + c / 4096 % 64, 0x80 + c / 64 % 64, 0x80 + c % 64]
  }

  function WriteAll(text: seq<Scalar>): Bytes {
    if text == [] then [] else Write(text[0]) + WriteAll(text[1..])
  }

  lemma WrittenIsValid(c: Scalar, later: Bytes)
    ensures ValidUtf8(Write(c) + later) <==> ValidUtf8(later)
  {
    var s := Write(c) + later;
    assert s[..|Write(c)|] == Write(c) && s[|Write(c)|..] == later;
  }

  /** The digits of a number written in base 64. */
  lemma Digits(a: int, b: int, c: int, d: int)
    requires 0 <= a && 0 <= b < 64 && 0 <= c < 64 && 0 <= d < 64
    ensures var v := 262144 * a + 4096 * b + 64 * c + d;
      v / 262144 == a && v / 4096 % 64 == b && v / 64 % 64 == c && v % 64 == d
    ensures a == 0 ==> (4096 * b + 64 * c + d) / 4096 == b
    ensures a == b == 0 ==> (64 * c + d) / 64 == c
  {
    var v := 262144 * a + 4096 * b + 64 * c + d;
    assert v / 64 == 4096 * a + 64 * b + c;
    assert v / 4096 == 64 * a + b;
  }

  lemma TwoBytes(a: int, b: int) returns (c: Scalar)
    requires 2 <= a < 32 && 0 <= b < 64
    ensures Write(c) == [0xC0 + a, 0x80 + b]
  {
    Digits(0, 0, a, b);
    c := 64 * a + b;
  }

  lemma ThreeBytes(a: int, b: int, d: int) returns (c: Scalar)
    requires 0 <= a < 16 && 0 <= b < 64 && 0 <= d < 64
    requires (a == 0 ==> b >= 32) && (a == 13 ==> b < 32)
    ensures Write(c) == [0xE0 + a, 0x80 + b, 0x80 + d]
  {
    Digits(0, a, b, d);
    c := 4096 * a + 64 * b + d;
  }

  lemma FourBytes(a: int, b: int, d: int, e: int) returns (c: Scalar)
    requires 0 <= a <= 4 && 0 <= b < 64 && 0 <= d < 64 && 0 <= e < 64
    requires (a == 0 ==> b >= 16) && (a == 4 ==> b < 16)
    ensures Write(c) == [0xF0 + a, 0x80 + b, 0x80 + d, 0x80 + e]
  {
    Digits(a, b, d, e);
    c := 262144 * a + 4096 * b + 64 * d + e;
  }

  /** A marker taken off a byte. */
  function Bits(b: Byte, marker: int): int {
    b - marker
  }

  /** A text starts with what is written for some scalar value. */
  lemma FirstWasWritten(s: Bytes) returns (c: Scalar, n: nat)
    requires s != [] && ValidUtf8(s)
    ensures 1 <= n <= |s| && s[..n] == Write(c) && ValidUtf8(s[n..])
  {
    if s[0] < 0x80 {
      c, n := s[0], 1;
    } else if s[0] < 0xE0 {
      c := TwoBytes(Bits(s[0], 0xC0), Bits(s[1], 0x80));
      n := 2;
    } else if s[0] < 0xF0 {
      c := ThreeBytes(Bits(s[0], 0xE0), Bits(s[1], 0x80), Bits(s[2], 0x80));
      n := 3;
    } else {
      c := FourBytes(Bits(s[0], 0xF0), Bits(s[1], 0x80), Bits(s[2], 0x80), Bits(s[3], 0x80));
      n := 4;
    }
  }

  lemma {:induction false} WrittenTextIsValid(text: seq<Scalar>)
    ensures ValidUtf8(WriteAll(text))
  {
    if text != [] {
      WrittenTextIsValid(text[1..]);
      WrittenIsValid(text[0], WriteAll(text[1..]));
    }
  }

  lemma {:induction false} ValidTextWasWritten(s: Bytes) returns (text: seq<Scalar>)
    requires ValidUtf8(s)
    ensures s == WriteAll(text)
    decreases |s|
  {
    text := [];
    if s != [] {
      var c, n := FirstWasWritten(s);
      var rest := ValidTextWasWritten(s[n..]);
      text := [c] + rest;
      assert text[1..] == rest && s == s[..n] + s[n..];
    }
  }

  lemma ValidIffWritten(s: Bytes)
    ensures ValidUtf8(s) <==> exists text :: s == WriteAll(text)
  {
    if ValidUtf8(s) {
      var text := ValidTextWasWritten(s);
    }
    if text: seq<Scalar> :| s == WriteAll(text) {
      WrittenTextIsValid(text);
    }
  }
}
