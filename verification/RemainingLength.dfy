/** The variable-length integer of a packet's fixed header (section 2.2.3 of MQTT 3.1.1). */
module RemainingLength {
  import opened Types

  /** The largest length four bytes can hold. */
  const MAX_LENGTH: nat := 268435455

  function EncodeLength(n: nat): (s: Bytes)
    ensures |s| >= 1
  {
    if n < 128 then [n] else [128 + n % 128] + EncodeLength(n / 128)
  }

  /** A length field: its value, the bytes it takes, and what follows it. */
  datatype Field = Field(value: nat, consumed: nat, rest: Bytes)

  /** Reads on when `used` bytes of the field have been read already. */
  function LengthFrom(s: Bytes, used: nat): Result<Field>
    requires used < 4
    decreases 4 - used
  {
    if s == [] then Err(Decode(LengthFieldCut))
    else if s[0] < 128 then Ok(Field(s[0], 1, s[1..]))
    else if used + 1 >= 4 then Err(Decode(LengthFieldMalformed))
    else
      var f :- LengthFrom(s[1..], used + 1);
      Ok(Field(s[0] - 128 + 128 * f.value, 1 + f.consumed, f.rest))
  }

  function DecodeLength(s: Bytes): Result<Field> {
    LengthFrom(s, 0)
  }

  function Pow128(k: nat): nat {
    if k == 0 then 1 else 128 * Pow128(k - 1)
  }

  method EncodeRemainingLength(length: nat) returns (encoded: Bytes)
    ensures encoded == EncodeLength(length)
  {
    encoded := [];
    var left := length;
    while true
      invariant encoded + EncodeLength(left) == EncodeLength(length)
      decreases left
    {
      var byte: Byte := left % 128;
      ghost var was := left;
      left := left / 128;
      if left > 0 {
        byte := byte + 128;
      }
      ghost var before := encoded;
      encoded := encoded + [byte];
      if left == 0 {
        return;
      }
      assert before + EncodeLength(was) == encoded + EncodeLength(left);
    }
  }

  // ----- Decoding undoes encoding -----

  lemma {:induction false} FromUndoesEncode(n: nat, suffix: Bytes, used: nat)
    requires used < 4
    ensures LengthFrom(EncodeLength(n) + suffix, used) ==
            if n < Pow128(4 - used) then Ok(Field(n, |EncodeLength(n)|, suffix))
            else Err(Decode(LengthFieldMalformed))
    decreases 4 - used
  {
    var s := EncodeLength(n) + suffix;
    var rest := Pow128(3 - used);
    assert Pow128(4 - used) == 128 * rest;
    if n < 128 {
      Pow128Positive(3 - used);
      assert s[1..] == suffix;
    } else {
      assert s[1..] == EncodeLength(n / 128) + suffix;
      assert n < 128 * rest <==> n / 128 < rest;
      if used < 3 {
        FromUndoesEncode(n / 128, suffix, used + 1);
      }
    }
  }

  lemma {:induction false} Pow128Positive(k: nat)
    ensures Pow128(k) >= 1
  {
    if k > 0 {
      Pow128Positive(k - 1);
    }
  }

  /** Every length up to the maximum comes back, whatever follows it; every larger one is refused. */
  lemma DecodeUndoesEncode(n: nat, suffix: Bytes)
    ensures DecodeLength(EncodeLength(n) + suffix) ==
            if n <= MAX_LENGTH then Ok(Field(n, |EncodeLength(n)|, suffix))
            else Err(Decode(LengthFieldMalformed))
  {
    FromUndoesEncode(n, suffix, 0);
    Pow128Values();
  }

  lemma Pow128Values()
    ensures Pow128(1) == 128 && Pow128(2) == 16384 && Pow128(3) == 2097152 && Pow128(4) == MAX_LENGTH + 1
  {
    assert Pow128(1) == 128 * Pow128(0);
    assert Pow128(2) == 128 * Pow128(1);
    assert Pow128(3) == 128 * Pow128(2);
  }

  // ----- What an accepted field looks like -----

  lemma {:induction false} FromAccepts(s: Bytes, used: nat)
    requires used < 4 && LengthFrom(s, used).Ok?
    ensures var f := LengthFrom(s, used).value;
      && 1 <= f.consumed <= 4 - used && f.consumed <= |s|
      && f.rest == s[f.consumed..]
      && f.value < Pow128(f.consumed)
      && |EncodeLength(f.value)| <= f.consumed
      && (EncodeLength(f.value) == s[..f.consumed] <==> f.consumed == 1 || s[f.consumed - 1] != 0)
    decreases 4 - used
  {
    var f := LengthFrom(s, used).value;
    if s[0] < 128 {
      assert Pow128(1) == 128 * Pow128(0);
      assert s[..1] == [s[0]];
    } else {
      FromAccepts(s[1..], used + 1);
      var g := LengthFrom(s[1..], used + 1).value;
      assert s[..f.consumed] == [s[0]] + s[1..][..g.consumed];
      assert f.value / 128 == g.value;
      if f.value < 128 {
        assert g.value == 0 && EncodeLength(g.value) == [0];
        assert |EncodeLength(f.value)| == 1;
        assert g.consumed == 1 ==> s[1..][..1] == [s[1]] && s[1] == 0;
      } else {
        assert EncodeLength(f.value) == [s[0]] + EncodeLength(g.value);
      }
    }
  }

  /** An accepted k-byte field has a value below 128^k, and re-encoding it gives those k bytes back
      exactly when the field has no superfluous last byte; otherwise it gets no longer. */
  lemma AcceptedField(s: Bytes)
    requires DecodeLength(s).Ok?
    ensures var f := DecodeLength(s).value;
      && 1 <= f.consumed <= 4 && f.consumed <= |s|
      && s == s[..f.consumed] + f.rest
      && f.value < Pow128(f.consumed)
      && |EncodeLength(f.value)| <= f.consumed
      && (EncodeLength(f.value) == s[..f.consumed] <==> f.consumed == 1 || s[f.consumed - 1] != 0)
  {
    FromAccepts(s, 0);
  }
}
