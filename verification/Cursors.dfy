/** A read position in a byte slice, and the primitive readers that advance it. */
module Cursors {
  import opened Types
  import opened RemainingLength

  function ReadU8(s: Bytes): Result<(Byte, Bytes)> {
    if s == [] then Err(Decode(BufferExhausted)) else Ok((s[0], s[1..]))
  }

  function BigEndian(high: Byte, low: Byte): U16 {
    256 * high + low
  }

  function ReadU16(s: Bytes): Result<(U16, Bytes)> {
    if |s| < 2 then Err(Decode(BufferTooShort)) else Ok((BigEndian(s[0], s[1]), s[2..]))
  }

  function ReadExact(s: Bytes, n: nat): Result<(Bytes, Bytes)> {
    if |s| < n then Err(Decode(BufferTooShort)) else Ok((s[..n], s[n..]))
  }

  /** A two-byte length and that many bytes. */
  function ReadBinary(s: Bytes): Result<(Bytes, Bytes)> {
    var (n, s) :- ReadU16(s);
    ReadExact(s, n)
  }

  function ReadString(s: Bytes): Result<(Bytes, Bytes)> {
    var (text, s) :- ReadBinary(s);
    if ValidUtf8(text) then Ok((text, s)) else Err(Decode(InvalidUtf8))
  }

  /** `r` and the new read position are what `parse` says; after an error nobody reads on. */
  ghost predicate Did<T(!new)>(r: Result<T>, rest: Bytes, parse: Result<(T, Bytes)>) {
    match parse
    case Ok((v, s)) => r == Ok(v) && rest == s
    case Err(e) => r == Err(e)
  }

  /** What a whole length field comes to when `rest` is what its remaining bytes say. */
  ghost predicate Resumes(whole: Result<Field>, value: nat, multiplier: nat, consumed: nat, rest: Result<Field>) {
    match rest
    case Ok(f) => whole == Ok(Field(value + multiplier * f.value, consumed + f.consumed, f.rest))
    case Err(e) => whole == Err(e)
  }

  lemma ResumesNext(whole: Result<Field>, value: nat, m: nat, consumed: nat, s: Bytes)
    requires consumed < 4 && s != []
    requires Resumes(whole, value, m, consumed, LengthFrom(s, consumed))
    ensures s[0] < 128 ==> whole == Ok(Field(value + m * s[0], consumed + 1, s[1..]))
    ensures s[0] >= 128 && consumed == 3 ==> whole == Err(Decode(LengthFieldMalformed))
    ensures s[0] >= 128 && consumed < 3 ==>
      Resumes(whole, value + m * (s[0] - 128), m * 128, consumed + 1, LengthFrom(s[1..], consumed + 1))
  {
    if s[0] >= 128 && consumed < 3 && LengthFrom(s[1..], consumed + 1).Ok? {
      var v := LengthFrom(s[1..], consumed + 1).value.value;
      assert m * (s[0] - 128 + 128 * v) == m * (s[0] - 128) + m * 128 * v;
    }
  }

  class Cursor {
    var rest: Bytes

    constructor (s: Bytes)
      ensures rest == s
    {
      rest := s;
    }

    method U8() returns (r: Result<Byte>)
      modifies this
      ensures Did(r, rest, ReadU8(old(rest)))
      ensures r.Err? ==> rest == old(rest)
    {
      if rest == [] {
        return Err(Decode(BufferExhausted));
      }
      r := Ok(rest[0]);
      rest := rest[1..];
    }

    method U16() returns (r: Result<U16>)
      modifies this
      ensures Did(r, rest, ReadU16(old(rest)))
      ensures r.Err? ==> rest == old(rest)
    {
      if |rest| < 2 {
        return Err(Decode(BufferTooShort));
      }
      r := Ok(BigEndian(rest[0], rest[1]));
      rest := rest[2..];
    }

    method Exact(n: nat) returns (r: Result<Bytes>)
      modifies this
      ensures Did(r, rest, ReadExact(old(rest), n))
      ensures r.Err? ==> rest == old(rest)
    {
      if |rest| < n {
        return Err(Decode(BufferTooShort));
      }
      r := Ok(rest[..n]);
      rest := rest[n..];
    }

    method Binary() returns (r: Result<Bytes>)
      modifies this
      ensures Did(r, rest, ReadBinary(old(rest)))
    {
      var n :- U16();
      r := Exact(n);
    }

    method Utf8String() returns (r: Result<Bytes>)
      modifies this
      ensures Did(r, rest, ReadString(old(rest)))
    {
      var text :- Binary();
      if !ValidUtf8(text) {
        return Err(Decode(InvalidUtf8));
      }
      r := Ok(text);
    }

    /** The value and the number of bytes read. The last test in the loop never succeeds. */
    method RemainingLengthField() returns (r: Result<(nat, nat)>)
      modifies this
      ensures match DecodeLength(old(rest))
              case Ok(f) => r == Ok((f.value, f.consumed)) && rest == f.rest
              case Err(e) => r == Err(e)
      ensures r != Err(Decode(LengthTooLarge))
    {
      var multiplier: nat, value: nat, consumed: nat := 1, 0, 0;
      while true
        invariant consumed < 4 && multiplier == Pow128(consumed)
        invariant Resumes(DecodeLength(old(rest)), value, multiplier, consumed, LengthFrom(rest, consumed))
        decreases |rest|
      {
        if rest == [] {
          return Err(Decode(LengthFieldCut));
        }
        ResumesNext(DecodeLength(old(rest)), value, multiplier, consumed, rest);
        var first := U8();
        var byte := first.value;
        value := value + multiplier * (byte % 128);
        multiplier := multiplier * 128;
        consumed := consumed + 1;
        if byte < 128 {
          break;
        }
        if consumed >= 4 {
          return Err(Decode(LengthFieldMalformed));
        }
        Pow128Values();
        if multiplier > 128 * 128 * 128 {
          return Err(Decode(LengthTooLarge));
        }
      }
      return Ok((value, consumed));
    }
  }
}
