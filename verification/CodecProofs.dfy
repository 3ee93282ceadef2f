/**
 Decoders against writers: a decoder accepts exactly what a writer following MQTT 3.1.1 puts down,
 and what the broker encodes decodes back.
 */
module CodecProofs {
  import opened Types
  import opened RemainingLength
  import opened Cursors
  import opened DecodeSpec
  import opened EncodeSpec

  // ----- Each reader accepts exactly what its writer wrote -----

  predicate Fits(text: Bytes) {
    |text| < 0x1_0000
  }

  predicate Text(text: Bytes) {
    Fits(text) && ValidUtf8(text)
  }

  lemma U8Iff(s: Bytes, b: Byte, rest: Bytes)
    ensures ReadU8(s) == Ok((b, rest)) <==> s == [b] + rest
  {
    assert s != [] ==> s == [s[0]] + s[1..];
    assert ([b] + rest)[1..] == rest;
  }

  lemma U16Iff(s: Bytes, n: U16, rest: Bytes)
    ensures ReadU16(s) == Ok((n, rest)) <==> s == PutU16(n) + rest
  {
    assert |s| >= 2 ==> s == [s[0], s[1]] + s[2..];
    assert (PutU16(n) + rest)[2..] == rest;
    if |s| >= 2 && BigEndian(s[0], s[1]) == n {
      assert PutU16(n) == [s[0], s[1]];
    }
  }

  lemma WrittenBinary(text: Bytes, rest: Bytes)
    requires Fits(text)
    ensures ReadBinary(PutString(text) + rest) == Ok((text, rest))
  {
    var tail := text + rest;
    assert PutString(text) + rest == PutU16(|text|) + tail;
    U16Iff(PutU16(|text|) + tail, |text|, tail);
    assert tail[..|text|] == text && tail[|text|..] == rest;
  }

  lemma BinaryWasWritten(s: Bytes)
    requires ReadBinary(s).Ok?
    ensures var (text, rest) := ReadBinary(s).value;
      Fits(text) && s == PutString(text) + rest
  {
    var (n, tail) := ReadU16(s).value;
    U16Iff(s, n, tail);
    assert s == PutU16(n) + tail[..n] + tail[n..];
  }

  lemma BinaryIff(s: Bytes, text: Bytes, rest: Bytes)
    ensures ReadBinary(s) == Ok((text, rest)) <==> Fits(text) && s == PutString(text) + rest
  {
    if Fits(text) {
      WrittenBinary(text, rest);
    }
    if ReadBinary(s).Ok? {
      BinaryWasWritten(s);
    }
  }

  lemma StringIff(s: Bytes, text: Bytes, rest: Bytes)
    ensures ReadString(s) == Ok((text, rest)) <==> Text(text) && s == PutString(text) + rest
  {
    BinaryIff(s, text, rest);
  }

  /** An optional field is there exactly when its flag says so. */
  function PutOptional(text: Option<Bytes>): Bytes {
    match text
    case None => []
    case Some(t) => PutString(t)
  }

  lemma OptionalStringIff(present: bool, s: Bytes, text: Option<Bytes>, rest: Bytes)
    ensures ReadOptionalString(present, s) == Ok((text, rest)) <==>
            present == text.Some? && (text.Some? ==> Text(text.value)) && s == PutOptional(text) + rest
  {
    assert [] + rest == rest;
    match ReadString(s) {
      case Ok((t, tail)) => StringIff(s, t, tail);
      case Err(_) =>
    }
    if text.Some? {
      StringIff(s, text.value, rest);
    }
  }

  lemma OptionalBinaryIff(present: bool, s: Bytes, data: Option<Bytes>, rest: Bytes)
    ensures ReadOptionalBinary(present, s) == Ok((data, rest)) <==>
            present == data.Some? && (data.Some? ==> Fits(data.value)) && s == PutOptional(data) + rest
  {
    assert [] + rest == rest;
    match ReadBinary(s) {
      case Ok((t, tail)) => BinaryIff(s, t, tail);
      case Err(_) =>
    }
    if data.Some? {
      BinaryIff(s, data.value, rest);
    }
  }

  // ----- CONNECT, section 3.1 -----

  function WillQosBits(q: Option<QoS>): (b: Byte)
    ensures b < 4
  {
    if q.Some? then QoSByte(q.value) else 3
  }

  function ConnectFlags(c: ConnectPacket): Byte {
    128 * One(c.usernameFlag) + 64 * One(c.passwordFlag) + 32 * One(c.willRetain) +
    8 * WillQosBits(c.willQos) + 4 * One(c.willFlag) + 2 * One(c.cleanSession)
  }

  /** The flags and the optional fields agree, and the texts can be written. */
  predicate ConsistentConnect(c: ConnectPacket) {
    && Text(c.protocolName) && Text(c.clientId)
    && c.willFlag == c.willTopic.Some? == c.willMessage.Some?
    && (c.willFlag ==> c.willQos.Some? && Text(c.willTopic.value) && Fits(c.willMessage.value))
    && c.usernameFlag == c.username.Some? && (c.usernameFlag ==> Text(c.username.value))
    && c.passwordFlag == c.password.Some? && (c.passwordFlag ==> Fits(c.password.value))
  }

  /** The variable header and payload of a CONNECT, with `rest` after them. */
  function WriteConnect(c: ConnectPacket, rest: Bytes): Bytes {
    PutString(c.protocolName) + ([c.protocolLevel] + ([ConnectFlags(c)] + (PutU16(c.keepAlive) +
      (PutString(c.clientId) + (PutOptional(c.willTopic) + (PutOptional(c.willMessage) +
        (PutOptional(c.username) + (PutOptional(c.password) + rest))))))))
  }

  /** A byte from its bits, and its bits from the byte. */
  lemma FlagBits(b7: nat, b6: nat, b5: nat, q: nat, b2: nat, b1: nat, b0: nat)
    requires b7 < 2 && b6 < 2 && b5 < 2 && q < 4 && b2 < 2 && b1 < 2 && b0 < 2
    ensures var f := 128 * b7 + 64 * b6 + 32 * b5 + 8 * q + 4 * b2 + 2 * b1 + b0;
      && f / 128 % 2 == b7 && f / 64 % 2 == b6 && f / 32 % 2 == b5 && f / 8 % 4 == q
      && f / 4 % 2 == b2 && f / 2 % 2 == b1 && f % 2 == b0
  {
    var f := 128 * b7 + 64 * b6 + 32 * b5 + 8 * q + 4 * b2 + 2 * b1 + b0;
    assert f / 128 == b7;
    assert f / 64 == 2 * b7 + b6;
    assert f / 32 == 4 * b7 + 2 * b6 + b5;
    assert f / 8 == 16 * b7 + 8 * b6 + 4 * b5 + q;
    assert f / 4 == 32 * b7 + 16 * b6 + 8 * b5 + 2 * q + b2;
    assert f / 2 == 64 * b7 + 32 * b6 + 16 * b5 + 4 * q + 2 * b2 + b1;
  }

  lemma FlagsFromBits(f: Byte)
    ensures f == 128 * (f / 128 % 2) + 64 * (f / 64 % 2) + 32 * (f / 32 % 2) + 8 * (f / 8 % 4) +
                 4 * (f / 4 % 2) + 2 * (f / 2 % 2) + f % 2
  {
    assert f / 64 / 2 == f / 128 && f / 32 / 2 == f / 64 && f / 8 / 4 == f / 32;
    assert f / 4 / 2 == f / 8 && f / 2 / 2 == f / 4;
  }

  lemma WrittenFlags(c: ConnectPacket)
    ensures var f := ConnectFlags(c);
      && f / 128 % 2 == One(c.usernameFlag) && f / 64 % 2 == One(c.passwordFlag) && f / 32 % 2 == One(c.willRetain)
      && f / 8 % 4 == WillQosBits(c.willQos) && f / 4 % 2 == One(c.willFlag) && f / 2 % 2 == One(c.cleanSession)
      && f % 2 == 0
  {
    var u, p, r, q := One(c.usernameFlag), One(c.passwordFlag), One(c.willRetain), WillQosBits(c.willQos);
    var w, x := One(c.willFlag), One(c.cleanSession);
    assert ConnectFlags(c) == 128 * u + 64 * p + 32 * r + 8 * q + 4 * w + 2 * x + 0;
    FlagBits(u, p, r, q, w, x, 0);
  }

  ghost predicate FlagsSay(f: Byte, c: ConnectPacket) {
    && !Bit(f, 1) && Bit(f, 2) == c.cleanSession && Bit(f, 4) == c.willFlag
    && QoSFromByte(f / 8 % 4) == c.willQos && Bit(f, 32) == c.willRetain
    && Bit(f, 64) == c.passwordFlag && Bit(f, 128) == c.usernameFlag
  }

  lemma FlagsSayBits(f: Byte, c: ConnectPacket)
    ensures FlagsSay(f, c) <==>
      && f / 128 % 2 == One(c.usernameFlag) && f / 64 % 2 == One(c.passwordFlag) && f / 32 % 2 == One(c.willRetain)
      && f / 8 % 4 == WillQosBits(c.willQos) && f / 4 % 2 == One(c.willFlag) && f / 2 % 2 == One(c.cleanSession)
      && f % 2 == 0
  {
    var b7, b6, b5, q, b2, b1, b0 := f / 128 % 2, f / 64 % 2, f / 32 % 2, f / 8 % 4, f / 4 % 2, f / 2 % 2, f % 2;
    assert 0 <= b7 < 2 && 0 <= b6 < 2 && 0 <= b5 < 2 && 0 <= q < 4 && 0 <= b2 < 2 && 0 <= b1 < 2 && 0 <= b0 < 2;
    assert f / 1 % 2 == b0;
    assert QoSFromByte(q) == c.willQos <==> q == WillQosBits(c.willQos);
  }

  lemma ConnectFlagsIff(flags: Byte, c: ConnectPacket)
    ensures flags == ConnectFlags(c) <==> FlagsSay(flags, c)
  {
    FlagsSayBits(flags, c);
    WrittenFlags(c);
    FlagsFromBits(flags);
  }

  lemma WrittenConnectDecodes(c: ConnectPacket, rest: Bytes)
    requires ConsistentConnect(c)
    ensures DecodeConnect(WriteConnect(c, rest)) == Ok((c, rest))
  {
    var s9 := PutOptional(c.password) + rest;
    var s8 := PutOptional(c.username) + s9;
    var s7 := PutOptional(c.willMessage) + s8;
    var s6 := PutOptional(c.willTopic) + s7;
    var s5 := PutString(c.clientId) + s6;
    var s4 := PutU16(c.keepAlive) + s5;
    var s3 := [ConnectFlags(c)] + s4;
    var s2 := [c.protocolLevel] + s3;
    StringIff(WriteConnect(c, rest), c.protocolName, s2);
    U8Iff(s2, c.protocolLevel, s3);
    U8Iff(s3, ConnectFlags(c), s4);
    ConnectFlagsIff(ConnectFlags(c), c);
    U16Iff(s4, c.keepAlive, s5);
    StringIff(s5, c.clientId, s6);
    OptionalStringIff(c.willFlag, s6, c.willTopic, s7);
    OptionalBinaryIff(c.willFlag, s7, c.willMessage, s8);
    OptionalStringIff(c.usernameFlag, s8, c.username, s9);
    OptionalBinaryIff(c.passwordFlag, s9, c.password, rest);
  }

  lemma DecodedConnectWasWritten(s: Bytes)
    requires DecodeConnect(s).Ok?
    ensures var (c, rest) := DecodeConnect(s).value;
      ConsistentConnect(c) && s == WriteConnect(c, rest)
  {
    var (c, rest) := DecodeConnect(s).value;
    var s2 := ReadString(s).value.1;
    var s3 := ReadU8(s2).value.1;
    var (flags, s4) := ReadU8(s3).value;
    var s5 := ReadU16(s4).value.1;
    var s6 := ReadString(s5).value.1;
    var s7 := ReadOptionalString(c.willFlag, s6).value.1;
    var s8 := ReadOptionalBinary(c.willFlag, s7).value.1;
    var s9 := ReadOptionalString(c.usernameFlag, s8).value.1;
    assert flags == ConnectFlags(c) by { ConnectFlagsIff(flags, c); }
    assert Text(c.protocolName) && s == PutString(c.protocolName) + s2 by { StringIff(s, c.protocolName, s2); }
    assert s2 == [c.protocolLevel] + s3 by { U8Iff(s2, c.protocolLevel, s3); }
    assert s3 == [flags] + s4 by { U8Iff(s3, flags, s4); }
    assert s4 == PutU16(c.keepAlive) + s5 by { U16Iff(s4, c.keepAlive, s5); }
    assert Text(c.clientId) && s5 == PutString(c.clientId) + s6 by { StringIff(s5, c.clientId, s6); }
    OptionalStringIff(c.willFlag, s6, c.willTopic, s7);
    OptionalBinaryIff(c.willFlag, s7, c.willMessage, s8);
    OptionalStringIff(c.usernameFlag, s8, c.username, s9);
    OptionalBinaryIff(c.passwordFlag, s9, c.password, rest);
  }

  /** The decoder accepts exactly the consistent packets as written, and leaves what follows. */
  lemma ConnectIff(s: Bytes, c: ConnectPacket, rest: Bytes)
    ensures DecodeConnect(s) == Ok((c, rest)) <==> ConsistentConnect(c) && s == WriteConnect(c, rest)
  {
    if ConsistentConnect(c) {
      WrittenConnectDecodes(c, rest);
    }
    if DecodeConnect(s).Ok? {
      DecodedConnectWasWritten(s);
    }
  }

  // ----- SUBSCRIBE and UNSUBSCRIBE, sections 3.8.3 and 3.10.3 -----

  /** The decoder looks at the two low bits of a QoS byte only, so any byte with those bits will do. */
  predicate QoSBytesOf(list: seq<(Bytes, QoS)>, bytes: Bytes) {
    |bytes| == |list| && forall i | 0 <= i < |list| :: bytes[i] % 4 == QoSByte(list[i].1)
  }

  function WriteRequests(list: seq<(Bytes, QoS)>, bytes: Bytes): Bytes
    requires |bytes| == |list|
  {
    if list == [] then [] else PutString(list[0].0) + ([bytes[0]] + WriteRequests(list[1..], bytes[1..]))
  }

  lemma SubscriptionReads(filter: Bytes, qos: QoS, b: Byte, later: Bytes)
    requires Text(filter) && b % 4 == QoSByte(qos)
    ensures var s := PutString(filter) + ([b] + later);
      ReadSubscriptions(s) == match ReadSubscriptions(later)
                              case Ok(list) => Ok([(filter, qos)] + list)
                              case Err(e) => Err(e)
  {
    var tail := [b] + later;
    var s := PutString(filter) + tail;
    StringIff(s, filter, tail);
    U8Iff(tail, b, later);
    assert ReadString(s).value == (filter, tail) && ReadU8(tail).value == (b, later);
    assert |s| >= 2;
  }

  lemma {:induction false} WrittenRequestsRead(list: seq<(Bytes, QoS)>, bytes: Bytes)
    requires QoSBytesOf(list, bytes) && forall e | e in list :: Text(e.0)
    ensures ReadSubscriptions(WriteRequests(list, bytes)) == Ok(list)
  {
    if list != [] {
      assert list == [(list[0].0, list[0].1)] + list[1..];
      WrittenRequestsRead(list[1..], bytes[1..]);
      SubscriptionReads(list[0].0, list[0].1, bytes[0], WriteRequests(list[1..], bytes[1..]));
    }
  }

  lemma {:induction false} ReadRequestsWereWritten(s: Bytes) returns (bytes: Bytes)
    requires ReadSubscriptions(s).Ok?
    ensures var list := ReadSubscriptions(s).value;
      && (forall e | e in list :: Text(e.0))
      && QoSBytesOf(list, bytes) && s == WriteRequests(list, bytes)
    decreases |s|
  {
    bytes := [];
    if s != [] {
      var (filter, s1) := ReadString(s).value;
      var (b, s2) := ReadU8(s1).value;
      StringIff(s, filter, s1);
      U8Iff(s1, b, s2);
      var later := ReadSubscriptions(s2).value;
      var rest := ReadRequestsWereWritten(s2);
      bytes := [b] + rest;
      var list := ReadSubscriptions(s).value;
      assert list[1..] == later && bytes[1..] == rest && list[0].0 == filter;
      assert QoSByte(list[0].1) == b % 4;
    }
  }

  /** The accepted SUBSCRIBE bodies: the id and a non-empty list, every QoS byte free in its upper bits. */
  lemma SubscribeIff(s: Bytes, p: SubscribePacket)
    ensures DecodeSubscribe(s) == Ok((p, [])) <==>
            && p.subscriptions != [] && (forall e | e in p.subscriptions :: Text(e.0))
            && exists bytes :: QoSBytesOf(p.subscriptions, bytes) &&
                               s == PutU16(p.packetId) + WriteRequests(p.subscriptions, bytes)
  {
    if DecodeSubscribe(s) == Ok((p, [])) {
      U16Iff(s, p.packetId, s[2..]);
      var bytes := ReadRequestsWereWritten(s[2..]);
      assert QoSBytesOf(p.subscriptions, bytes);
    }
    if p.subscriptions != [] && forall e | e in p.subscriptions :: Text(e.0) {
      forall bytes |
        QoSBytesOf(p.subscriptions, bytes) && s == PutU16(p.packetId) + WriteRequests(p.subscriptions, bytes)
        ensures DecodeSubscribe(s) == Ok((p, []))
      {
        U16Iff(s, p.packetId, WriteRequests(p.subscriptions, bytes));
        WrittenRequestsRead(p.subscriptions, bytes);
      }
    }
  }

  /** As section 3.8.3 has it: the upper bits zero. */
  function WriteSubscribe(p: SubscribePacket): Bytes {
    var list := p.subscriptions;
    PutU16(p.packetId) + WriteRequests(list, seq(|list|, i requires 0 <= i < |list| => QoSByte(list[i].1)))
  }

  lemma WrittenSubscribeDecodes(p: SubscribePacket)
    requires p.subscriptions != [] && forall e | e in p.subscriptions :: Text(e.0)
    ensures DecodeSubscribe(WriteSubscribe(p)) == Ok((p, []))
  {
    var list := p.subscriptions;
    var bytes := seq(|list|, i requires 0 <= i < |list| => QoSByte(list[i].1));
    assert QoSBytesOf(list, bytes);
    SubscribeIff(WriteSubscribe(p), p);
  }

  function WriteFilters(list: seq<Bytes>): Bytes {
    if list == [] then [] else PutString(list[0]) + WriteFilters(list[1..])
  }

  function WriteUnsubscribe(p: UnsubscribePacket): Bytes {
    PutU16(p.packetId) + WriteFilters(p.topicFilters)
  }

  lemma {:induction false} FiltersIff(s: Bytes, list: seq<Bytes>)
    ensures ReadFilters(s) == Ok(list) <==> (forall f | f in list :: Text(f)) && s == WriteFilters(list)
    decreases |s|, |list|
  {
    if list != [] {
      StringIff(s, list[0], WriteFilters(list[1..]));
      assert list == [list[0]] + list[1..];
    }
    if s != [] && ReadString(s).Ok? {
      var (f, rest) := ReadString(s).value;
      StringIff(s, f, rest);
      if list != [] {
        FiltersIff(rest, list[1..]);
        if ReadFilters(rest).Ok? {
          var later := ReadFilters(rest).value;
          assert ([f] + later)[1..] == later;
        }
      }
    }
  }

  lemma UnsubscribeIff(s: Bytes, p: UnsubscribePacket)
    ensures DecodeUnsubscribe(s) == Ok((p, [])) <==>
            p.topicFilters != [] && (forall f | f in p.topicFilters :: Text(f)) && s == WriteUnsubscribe(p)
  {
    U16Iff(s, p.packetId, WriteFilters(p.topicFilters));
    match ReadU16(s)
    case Ok((id, tail)) =>
      U16Iff(s, id, tail);
      FiltersIff(tail, p.topicFilters);
    case Err(_) =>
  }

  // ----- PUBLISH, section 3.3 -----

  /** What the decoder can give back: the topic fits its two-byte length and the packet id is there
      exactly when the QoS calls for one. */
  predicate CanonicalPublish(p: PublishPacket) {
    Text(p.topicName) && (p.packetId.Some? <==> p.qos != AtMostOnce)
  }

  lemma PublishFlagsIff(flags: Byte, p: PublishPacket)
    requires flags < 16
    ensures flags == PublishFlags(p) <==>
            Bit(flags, 8) == p.dup && QoSFromByte(flags / 2 % 4) == Some(p.qos) && Bit(flags, 1) == p.retain
  {
  }

  lemma WrittenPublishDecodes(p: PublishPacket)
    requires CanonicalPublish(p)
    ensures DecodePublish(PublishFlags(p), PublishBody(p)) == Ok((p, []))
  {
    PublishFlagsIff(PublishFlags(p), p);
    var tail := (if p.qos != AtMostOnce then PutU16(p.packetId.value) else []) + p.payload;
    assert PublishBody(p) == PutString(p.topicName) + tail;
    StringIff(PublishBody(p), p.topicName, tail);
    if p.qos == AtMostOnce {
      assert tail == p.payload;
    } else {
      U16Iff(tail, p.packetId.value, p.payload);
    }
  }

  lemma DecodedPublishWasWritten(flags: Byte, s: Bytes)
    requires flags < 16 && DecodePublish(flags, s).Ok?
    ensures var (p, rest) := DecodePublish(flags, s).value;
      rest == [] && CanonicalPublish(p) && flags == PublishFlags(p) && s == PublishBody(p)
  {
    var p := DecodePublish(flags, s).value.0;
    var tail := ReadString(s).value.1;
    assert flags == PublishFlags(p) by { PublishFlagsIff(flags, p); }
    assert Text(p.topicName) && s == PutString(p.topicName) + tail by { StringIff(s, p.topicName, tail); }
    if p.qos != AtMostOnce {
      assert tail == PutU16(p.packetId.value) + p.payload by { U16Iff(tail, p.packetId.value, p.payload); }
      assert PublishBody(p) == PutString(p.topicName) + (PutU16(p.packetId.value) + p.payload);
    } else {
      assert PublishBody(p) == PutString(p.topicName) + p.payload;
    }
  }

  lemma PublishBodyIff(flags: Byte, s: Bytes, p: PublishPacket)
    requires flags < 16
    ensures DecodePublish(flags, s) == Ok((p, [])) <==>
            CanonicalPublish(p) && flags == PublishFlags(p) && s == PublishBody(p)
  {
    if CanonicalPublish(p) {
      WrittenPublishDecodes(p);
    }
    if DecodePublish(flags, s).Ok? {
      DecodedPublishWasWritten(flags, s);
    }
  }

  /** The fixed header comes back from its bytes unless the length is over the limit. */
  lemma HeaderDecodes(packetType: Byte, flags: Byte, remaining: nat, rest: Bytes)
    requires packetType < 16 && flags < 16 && PacketTypeFromByte(packetType).Some?
    ensures DecodeFixedHeader(Header(packetType, flags, remaining) + rest) ==
            if remaining <= MAX_LENGTH
            then Ok((FixedHeader(PacketTypeFromByte(packetType).value, flags, remaining), rest))
            else Err(Decode(LengthFieldMalformed))
  {
    var s := Header(packetType, flags, remaining) + rest;
    assert s == [16 * packetType + flags] + (EncodeLength(remaining) + rest);
    U8Iff(s, 16 * packetType + flags, EncodeLength(remaining) + rest);
    DecodeUndoesEncode(remaining, rest);
  }

  lemma PublishBodyLength(p: PublishPacket)
    requires p.qos != AtMostOnce ==> p.packetId.Some?
    ensures |PublishBody(p)| == PublishRemaining(p)
  {
  }

  /** Encoding then decoding gives the same PUBLISH exactly when the topic fits its length field, the
      packet id is there iff QoS > 0, and the remaining length can be written. */
  lemma PublishRoundTripIff(p: PublishPacket)
    ensures (EncodePacket(Publish(p)).Ok? && DecodePacket(EncodePacket(Publish(p)).value) == Ok((Publish(p), [])))
       <==> CanonicalPublish(p) && PublishRemaining(p) <= MAX_LENGTH
  {
    if EncodePublish(p).Ok? {
      HeaderDecodes(3, PublishFlags(p), PublishRemaining(p), PublishBody(p));
      PublishBodyLength(p);
      PublishBodyIff(PublishFlags(p), PublishBody(p), p);
    }
  }

  // ----- Acknowledgements and the other replies -----

  lemma IdDecodes(packetType: Byte, flags: Byte, id: U16)
    requires packetType in {4, 5, 6, 7} && flags < 16
    ensures var s := Header(packetType, flags, 2) + PutU16(id);
      DecodePacket(s) == DecodeBody(FixedHeader(PacketTypeFromByte(packetType).value, flags, 2), PutU16(id))
    ensures ReadU16(PutU16(id)) == Ok((id, []))
  {
    HeaderDecodes(packetType, flags, 2, PutU16(id));
    assert PutU16(id) == PutU16(id) + [];
    U16Iff(PutU16(id), id, []);
  }

  /** The four acknowledgements come back from their bytes. */
  lemma AckRoundTrip(packet: Packet)
    requires packet.Puback? || packet.Pubrec? || packet.Pubrel? || packet.Pubcomp?
    ensures EncodePacket(packet).Ok? && DecodePacket(EncodePacket(packet).value) == Ok((packet, []))
  {
    match packet
    case Puback(id) => IdDecodes(4, 0, id);
    case Pubrec(id) => IdDecodes(5, 0, id);
    case Pubrel(id) => IdDecodes(6, 2, id);
    case Pubcomp(id) => IdDecodes(7, 0, id);
  }

  lemma {:induction false} CodesInjective(a: seq<SubscribeReturnCode>, b: seq<SubscribeReturnCode>)
    requires ReturnCodeBytes(a) == ReturnCodeBytes(b)
    ensures a == b
  {
    if a != [] {
      assert ReturnCodeBytes(a)[0] == ReturnCodeByte(a[0]) && ReturnCodeBytes(b)[0] == ReturnCodeByte(b[0]);
      assert ReturnCodeBytes(a)[1..] == ReturnCodeBytes(a[1..]) && ReturnCodeBytes(b)[1..] == ReturnCodeBytes(b[1..]);
      CodesInjective(a[1..], b[1..]);
      assert a == [a[0]] + a[1..] && b == [b[0]] + b[1..];
    }
  }

  /** The kind, flags and body of a reply can be told from its bytes. */
  lemma HeaderTells(t: Byte, f: Byte, body: Bytes, u: Byte, g: Byte, other: Bytes)
    requires t < 16 && f < 16 && u < 16 && g < 16
    requires PacketTypeFromByte(t).Some? && PacketTypeFromByte(u).Some?
    requires |body| <= MAX_LENGTH && |other| <= MAX_LENGTH
    requires Header(t, f, |body|) + body == Header(u, g, |other|) + other
    ensures t == u && f == g && body == other
  {
    HeaderDecodes(t, f, |body|, body);
    HeaderDecodes(u, g, |other|, other);
    var s := Header(t, f, |body|) + body;
    assert s[0] == 16 * t + f && (Header(u, g, |other|) + other)[0] == 16 * u + g;
  }

  /** Type, flags and body of everything but a PUBLISH that the broker sends. */
  function ReplyParts(packet: Packet): (Byte, Byte, Bytes) {
    match packet
    case Connack(p) => (2, 0, [if p.sessionPresent then 1 else 0, ConnackCodeByte(p.returnCode)])
    case Puback(id) => (4, 0, PutU16(id))
    case Pubrec(id) => (5, 0, PutU16(id))
    case Pubrel(id) => (6, 2, PutU16(id))
    case Pubcomp(id) => (7, 0, PutU16(id))
    case Suback(p) => (9, 0, PutU16(p.packetId) + ReturnCodeBytes(p.returnCodes))
    case Unsuback(id) => (11, 0, PutU16(id))
    case _ => (13, 0, [])
  }

  lemma ReplyIsParts(packet: Packet)
    requires EncodePacket(packet).Ok? && !packet.Publish?
    ensures var (t, f, body) := ReplyParts(packet);
      && t < 16 && f < 16 && PacketTypeFromByte(t).Some?
      && EncodePacket(packet).value == Header(t, f, |body|) + body
  {
    match packet
    case Suback(p) =>
      var header, body := Header(9, 0, 2 + |p.returnCodes|), PutU16(p.packetId) + ReturnCodeBytes(p.returnCodes);
      assert header + PutU16(p.packetId) + ReturnCodeBytes(p.returnCodes) == header + body;
    case Pingresp => assert Header(13, 0, 0) + [] == Header(13, 0, 0);
    case _ =>
  }

  lemma IdInjective(a: U16, b: U16)
    requires PutU16(a) == PutU16(b)
    ensures a == b
  {
    assert PutU16(a)[0] == PutU16(b)[0] && PutU16(a)[1] == PutU16(b)[1];
  }

  lemma PartsTell(p: Packet, q: Packet)
    requires EncodePacket(p).Ok? && !p.Publish? && EncodePacket(q).Ok? && !q.Publish?
    requires ReplyParts(p) == ReplyParts(q)
    ensures p == q
  {
    match p
    case Connack(c) =>
      var x, y := ReplyParts(p).2, ReplyParts(q).2;
      assert x[0] == y[0] && x[1] == y[1];
    case Puback(id) => IdInjective(id, q.id);
    case Pubrec(id) => IdInjective(id, q.id);
    case Pubrel(id) => IdInjective(id, q.id);
    case Pubcomp(id) => IdInjective(id, q.id);
    case Unsuback(id) => IdInjective(id, q.id);
    case Suback(c) =>
      var x, y := ReplyParts(p).2, ReplyParts(q).2;
      assert x[..2] == PutU16(c.packetId) && y[..2] == PutU16(q.suback.packetId);
      assert x[2..] == ReturnCodeBytes(c.returnCodes) && y[2..] == ReturnCodeBytes(q.suback.returnCodes);
      IdInjective(c.packetId, q.suback.packetId);
      CodesInjective(c.returnCodes, q.suback.returnCodes);
    case _ =>
  }

  /** Two replies with the same bytes are the same reply, so the order of replies on a channel can be
      read off the wire. */
  lemma RepliesAreTold(p: Packet, q: Packet)
    requires EncodePacket(p).Ok? && !p.Publish? && EncodePacket(q).Ok? && !q.Publish?
    requires |ReplyParts(p).2| <= MAX_LENGTH && |ReplyParts(q).2| <= MAX_LENGTH
    ensures EncodePacket(p) == EncodePacket(q) <==> p == q
  {
    if EncodePacket(p) == EncodePacket(q) {
      ReplyIsParts(p);
      ReplyIsParts(q);
      var (t, f, body) := ReplyParts(p);
      var (u, g, other) := ReplyParts(q);
      HeaderTells(t, f, body, u, g, other);
      PartsTell(p, q);
    }
  }

  // ----- The written length field -----

  /** The length field of `s` counts the bytes after it, or is too long for the standard. */
  ghost predicate LengthCounts(s: Bytes) {
    match DecodeFixedHeader(s)
    case Ok((header, rest)) => header.remainingLength == |rest| < |s| && s[|s| - |rest|..] == rest
    case Err(e) => e == Decode(LengthFieldMalformed) && |s| > MAX_LENGTH
  }

  lemma HeaderCounts(packetType: Byte, flags: Byte, body: Bytes)
    requires packetType < 16 && flags < 16 && PacketTypeFromByte(packetType).Some?
    ensures LengthCounts(Header(packetType, flags, |body|) + body)
  {
    HeaderDecodes(packetType, flags, |body|, body);
  }

  lemma PublishCounts(p: PublishPacket)
    requires p.qos != AtMostOnce ==> p.packetId.Some?
    ensures LengthCounts(Header(3, PublishFlags(p), PublishRemaining(p)) + PublishBody(p))
  {
    PublishBodyLength(p);
    HeaderCounts(3, PublishFlags(p), PublishBody(p));
  }

  /** For every packet the broker can send, the length field counts the bytes after it. */
  lemma LengthFieldCountsTheRest(packet: Packet)
    requires EncodePacket(packet).Ok?
    ensures LengthCounts(EncodePacket(packet).value)
  {
    if packet.Publish? {
      PublishCounts(packet.publish);
    } else {
      ReplyIsParts(packet);
      var (t, f, body) := ReplyParts(packet);
      HeaderCounts(t, f, body);
    }
  }
}
