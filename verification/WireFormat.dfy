/**
 The protocol in plain bytes. Numbers, kinds, flags and codes are written out here once more as the
 tables of MQTT 3.1.1 give them, and the codec is held against them.
 */
module WireFormat {
  import opened Types
  import opened Levels
  import opened RemainingLength
  import opened Cursors
  import opened DecodeSpec
  import opened EncodeSpec
  import opened CodecProofs
  import opened Framing
  import opened PacketFrames
  import opened BrokerInvariants
  import opened BrokerDelivery
  import opened Connections
  import Spec = BrokerSpec

  // ----- Numbers -----

  /** Section 1.5.2: the high byte first. */
  function Number(high: Byte, low: Byte): U16 {
    256 * high + low
  }

  lemma NumberBytes(high: Byte, low: Byte)
    ensures Number(high, low) / 256 == high && Number(high, low) % 256 == low
  {
  }

  lemma U16InBytes(high: Byte, low: Byte, rest: Bytes)
    ensures ReadU16([high, low] + rest) == Ok((Number(high, low), rest))
    ensures PutU16(Number(high, low)) == [high, low]
  {
    NumberBytes(high, low);
    var s := [high, low] + rest;
    assert s[0] == high && s[1] == low && s[2..] == rest;
  }

  /** Table 3.2, and the lower of an inbound and the granted level. */
  lemma QoSInBytes(b: Byte)
    ensures MinQoS(AtMostOnce, AtLeastOnce) == AtMostOnce
    ensures MinQoS(AtLeastOnce, AtLeastOnce) == MinQoS(ExactlyOnce, AtLeastOnce) == AtLeastOnce
    ensures QoSByte(AtMostOnce) == 0 && QoSByte(AtLeastOnce) == 1 && QoSByte(ExactlyOnce) == 2
    ensures QoSFromByte(0) == Some(AtMostOnce) && QoSFromByte(1) == Some(AtLeastOnce)
    ensures QoSFromByte(2) == Some(ExactlyOnce) && (b >= 3 ==> QoSFromByte(b) == None)
  {
  }

  lemma LengthStep(n: nat, m: nat)
    requires n >= 128 && m == n / 128
    ensures EncodeLength(n) == [128 + n % 128] + EncodeLength(m)
  {
  }

  /** Table 2.4: seven bits a byte, the low ones first, the top bit set on all but the last. */
  lemma LengthInBytes(n: nat, m: nat, l: nat, k: nat)
    requires n <= 268435455 && m == n / 128 && l == m / 128 && k == l / 128
    ensures k < 128
    ensures EncodeLength(n) ==
            if n < 128 then [n]
            else if n < 16384 then [128 + n % 128, m]
            else if n < 2097152 then [128 + n % 128, 128 + m % 128, l]
            else [128 + n % 128, 128 + m % 128, 128 + l % 128, k]
  {
    if n >= 128 {
      LengthStep(n, m);
      if m >= 128 {
        LengthStep(m, l);
        if l >= 128 {
          LengthStep(l, k);
        }
      }
    }
  }

  /** Section 1.5.3: a text under its length. */
  lemma TextInBytes(text: Bytes)
    requires Text(text)
    ensures PutString(text) == [|text| / 256, |text| % 256] + text
    ensures forall rest: Bytes :: ReadString([|text| / 256, |text| % 256] + text + rest) == Ok((text, rest))
  {
    forall rest: Bytes
      ensures ReadString([|text| / 256, |text| % 256] + text + rest) == Ok((text, rest))
    {
      StringIff(PutString(text) + rest, text, rest);
    }
  }

  // ----- When a buffer is a frame, needs more, or ends the connection -----

  /** Where the length field that starts at byte 1 ends, if it does within its four bytes. */
  function FieldEnd(s: Bytes): Option<nat> {
    if |s| > 1 && s[1] < 128 then Some(1)
    else if |s| > 2 && s[2] < 128 then Some(2)
    else if |s| > 3 && s[3] < 128 then Some(3)
    else if |s| > 4 && s[4] < 128 then Some(4)
    else None
  }

  function FieldValue(s: Bytes, k: nat): nat
    requires 1 <= k <= 4 && k < |s|
  {
    if k == 1 then s[1]
    else
      var first: nat, second: nat := s[1] % 128, s[2];
      if k == 2 then first + 128 * second
      else
        var third: nat := s[3];
        if k == 3 then first + 128 * (second % 128) + 16384 * third
        else
          var fourth: nat := s[4];
          first + 128 * (second % 128) + 16384 * (third % 128) + 2097152 * fourth
  }

  lemma FieldStep(s: Bytes, i: nat)
    requires 1 <= i <= 4 && i <= |s|
    ensures LengthFrom(s[i..], i - 1) ==
            if |s| == i then Err(Decode(LengthFieldCut))
            else if s[i] < 128 then Ok(Field(s[i], 1, s[i + 1..]))
            else if i == 4 then Err(Decode(LengthFieldMalformed))
            else match LengthFrom(s[i + 1..], i)
                 case Ok(f) => Ok(Field(128 * f.value + s[i] % 128, 1 + f.consumed, f.rest))
                 case Err(e) => Err(e)
  {
    if i < |s| {
      assert s[i..][1..] == s[i + 1..];
    }
  }

  lemma FieldInBytes(s: Bytes)
    requires |s| >= 1
    ensures var k := FieldEnd(s);
      DecodeLength(s[1..]) ==
      if k.Some? then Ok(Field(FieldValue(s, k.value), k.value, s[k.value + 1..]))
      else if |s| >= 5 then Err(Decode(LengthFieldMalformed))
      else Err(Decode(LengthFieldCut))
  {
    FieldStep(s, 1);
    if |s| > 1 && s[1] >= 128 {
      FieldStep(s, 2);
      if |s| > 2 && s[2] >= 128 {
        FieldStep(s, 3);
        if |s| > 3 && s[3] >= 128 {
          FieldStep(s, 4);
        }
      }
    }
  }

  /** Kinds 0 and 15 are reserved (table 2.1). */
  predicate ReservedKind(first: Byte) {
    first < 0x10 || first >= 0xF0
  }

  /** For every buffer and decoder: two bytes are waited for; a reserved kind is an error; so is a length
      field that does not end; otherwise the frame is the announced bytes, waited for if they are not
      all there. */
  lemma ExtractInBytes(decode: FrameDecoder, s: Bytes)
    ensures Extract(decode, s) ==
            if |s| < 2 then NeedMore
            else if ReservedKind(s[0]) then BadHeader(Decode(UnknownPacketType))
            else if FieldEnd(s).None? then
              BadHeader(Decode(if |s| >= 5 then LengthFieldMalformed else LengthFieldCut))
            else
              var total := 1 + FieldEnd(s).value + FieldValue(s, FieldEnd(s).value);
              if |s| < total then NeedMore else Frame(s[..total], decode(s[..total]))
  {
    if |s| >= 2 {
      FieldInBytes(s);
      assert PacketTypeFromByte(s[0] / 16).None? <==> ReservedKind(s[0]);
    }
  }

  /** A buffer that can never become a frame. */
  predicate Hopeless(s: Bytes) {
    |s| >= 2 && (ReservedKind(s[0]) || (|s| >= 5 && s[1] >= 128 && s[2] >= 128 && s[3] >= 128 && s[4] >= 128))
  }

  /** A reserved kind, and four length bytes that all ask for another, end the connection at once: no
      packet, everything still buffered, the session let go. */
  lemma HopelessEnds(b: Spec.BrokerState, held: Option<nat>, s: Bytes)
    requires Hopeless(s)
    ensures Drain(PacketIn, s).packets == [] && Drain(PacketIn, s).error.Some?
    ensures AfterRead(b, held, s).error.Some?
    ensures AfterRead(b, held, s) == ReadDone(Spec.Release(b, held), None, s, AfterRead(b, held, s).error)
  {
    ExtractInBytes(PacketIn, s);
    TurnOfRead(b, held, s);
  }

  /** A buffer of two bytes or more is waited on exactly when its kind is not reserved and its length
      field ends and announces more than there is. */
  lemma WaitsIff(decode: FrameDecoder, s: Bytes)
    requires |s| >= 2
    ensures Extract(decode, s) == NeedMore <==>
            && !ReservedKind(s[0]) && FieldEnd(s).Some?
            && |s| < 1 + FieldEnd(s).value + FieldValue(s, FieldEnd(s).value)
  {
    ExtractInBytes(decode, s);
  }

  // ----- Kinds -----

  /** First byte and length field of a frame around `body`. */
  function Framed(first: Byte, body: Bytes): Bytes {
    [first] + EncodeLength(|body|) + body
  }

  lemma FramedIsHeader(first: Byte, body: Bytes)
    ensures Framed(first, body) == Header(first / 16, first % 16, |body|) + body
  {
    assert 16 * (first / 16) + first % 16 == first;
  }

  lemma FramedDecodes(first: Byte, body: Bytes)
    requires !ReservedKind(first) && |body| <= MAX_LENGTH
    ensures PacketTypeFromByte(first / 16).Some?
    ensures DecodePacket(Framed(first, body)) ==
            DecodeBody(FixedHeader(PacketTypeFromByte(first / 16).value, first % 16, |body|), body)
  {
    FramedIsHeader(first, body);
    HeaderDecodes(first / 16, first % 16, |body|, body);
  }

  /** A reader's result as a packet. */
  ghost predicate As<T(!new)>(r: Result<(Packet, Bytes)>, body: Result<(T, Bytes)>, packet: T -> Packet) {
    r == match body
         case Ok((v, rest)) => Ok((packet(v), rest))
         case Err(e) => Err(e)
  }

  /** What a frame is decoded as is settled by the high half of its first byte (table 2.1): bodies of
      kinds 1, 3, 8 and 10 go to the CONNECT, PUBLISH, SUBSCRIBE and UNSUBSCRIBE readers, kinds 4 to 7
      carry a packet id, 12 and 14 nothing, and 2, 9, 11 and 13 are never accepted. */
  lemma KindsInBytes(first: Byte, body: Bytes)
    requires !ReservedKind(first) && |body| <= MAX_LENGTH
    ensures var r, kind := DecodePacket(Framed(first, body)), first / 16;
      && (kind == 1 ==> As(r, DecodeConnect(body), c => Connect(c)))
      && (kind == 3 ==> As(r, DecodePublish(first % 16, body), p => Publish(p)))
      && (kind == 8 ==> As(r, DecodeSubscribe(body), p => Subscribe(p)))
      && (kind == 10 ==> As(r, DecodeUnsubscribe(body), p => Unsubscribe(p)))
      && (kind == 4 ==> As(r, ReadU16(body), id => Puback(id)))
      && (kind == 5 ==> As(r, ReadU16(body), id => Pubrec(id)))
      && (kind == 6 ==> As(r, ReadU16(body), id => Pubrel(id)))
      && (kind == 7 ==> As(r, ReadU16(body), id => Pubcomp(id)))
      && (kind == 12 ==> r == Ok((Pingreq, body)))
      && (kind == 14 ==> r == Ok((Disconnect, body)))
      && (kind in {2, 9, 11, 13} ==> r.Err?)
  {
    FramedDecodes(first, body);
  }

  // ----- Packets from clients -----

  lemma ConnectFromWire(c: ConnectPacket)
    requires ConsistentConnect(c) && |WriteConnect(c, [])| <= MAX_LENGTH
    ensures DecodePacket(Framed(0x10, WriteConnect(c, []))) == Ok((Connect(c), []))
  {
    KindsInBytes(0x10, WriteConnect(c, []));
    ConnectIff(WriteConnect(c, []), c, []);
  }

  lemma SubscribeBody(body: Bytes, p: SubscribePacket)
    requires DecodeSubscribe(body) == Ok((p, [])) && |body| <= MAX_LENGTH
    ensures DecodePacket(Framed(0x82, body)) == Ok((Subscribe(p), []))
  {
    KindsInBytes(0x82, body);
  }

  lemma SubscribeFromWire(p: SubscribePacket)
    requires p.subscriptions != [] && (forall e | e in p.subscriptions :: Text(e.0)) && |WriteSubscribe(p)| <= MAX_LENGTH
    ensures DecodePacket(Framed(0x82, WriteSubscribe(p))) == Ok((Subscribe(p), []))
  {
    WrittenSubscribeDecodes(p);
    SubscribeBody(WriteSubscribe(p), p);
  }

  lemma UnsubscribeBody(body: Bytes, p: UnsubscribePacket)
    requires DecodeUnsubscribe(body) == Ok((p, [])) && |body| <= MAX_LENGTH
    ensures DecodePacket(Framed(0xA2, body)) == Ok((Unsubscribe(p), []))
  {
    KindsInBytes(0xA2, body);
  }

  lemma UnsubscribeFromWire(p: UnsubscribePacket)
    requires p.topicFilters != [] && (forall f | f in p.topicFilters :: Text(f)) && |WriteUnsubscribe(p)| <= MAX_LENGTH
    ensures DecodePacket(Framed(0xA2, WriteUnsubscribe(p))) == Ok((Unsubscribe(p), []))
  {
    UnsubscribeIff(WriteUnsubscribe(p), p);
    UnsubscribeBody(WriteUnsubscribe(p), p);
  }

  /** Section 3.3.1: 8 for DUP, 0, 2 or 4 for the QoS, 1 for RETAIN. */
  function PublishFirst(p: PublishPacket): Byte {
    0x30 + (if p.dup then 8 else 0) + (if p.retain then 1 else 0) +
    match p.qos
    case AtMostOnce => 0
    case AtLeastOnce => 2
    case ExactlyOnce => 4
  }

  /** Sections 3.3.2 and 3.3.3: the topic under its length, the id if there is one, the payload. */
  lemma PublishBodyInBytes(p: PublishPacket)
    requires CanonicalPublish(p)
    ensures PublishBody(p) ==
            [|p.topicName| / 256, |p.topicName| % 256] + p.topicName +
            (if p.packetId.Some? then [p.packetId.value / 256, p.packetId.value % 256] else []) + p.payload
  {
  }

  lemma PublishFirstFlags(p: PublishPacket)
    ensures PublishFirst(p) / 16 == 3 && PublishFirst(p) % 16 == PublishFlags(p)
  {
  }

  /** A PUBLISH has the same bytes both ways. */
  lemma PublishOnWire(p: PublishPacket)
    requires CanonicalPublish(p) && |PublishBody(p)| <= MAX_LENGTH
    ensures EncodePacket(Publish(p)) == Ok(Framed(PublishFirst(p), PublishBody(p)))
    ensures DecodePacket(Framed(PublishFirst(p), PublishBody(p))) == Ok((Publish(p), []))
  {
    PublishBodyLength(p);
    PublishFirstFlags(p);
    FramedIsHeader(PublishFirst(p), PublishBody(p));
    PublishRoundTripIff(p);
  }

  /** A frame that only carries a packet id. */
  lemma IdFrame(first: Byte, high: Byte, low: Byte)
    requires first / 16 in {4, 5, 6, 7}
    ensures var id := Number(high, low);
      DecodePacket([first, 2, high, low]) ==
      Ok((if first / 16 == 4 then Puback(id)
          else if first / 16 == 5 then Pubrec(id)
          else if first / 16 == 6 then Pubrel(id)
          else Pubcomp(id), []))
  {
    assert Framed(first, [high, low]) == [first, 2, high, low];
    KindsInBytes(first, [high, low]);
    assert [high, low] + [] == [high, low];
    U16InBytes(high, low, []);
  }

  lemma EmptyFrames()
    ensures DecodePacket([0xC0, 0]) == Ok((Pingreq, [])) && DecodePacket([0xE0, 0]) == Ok((Disconnect, []))
  {
    assert Framed(0xC0, []) == [0xC0, 0] && Framed(0xE0, []) == [0xE0, 0];
    KindsInBytes(0xC0, []);
    KindsInBytes(0xE0, []);
  }

  // ----- Replies of the broker -----

  /** Table 3.1. */
  function ConnackCode(code: ConnackReturnCode): Byte {
    if code == Accepted then 0
    else if code == UnacceptableProtocolVersion then 1
    else if code == IdentifierRejected then 2
    else if code == ServerUnavailable then 3
    else if code == BadUsernameOrPassword then 4
    else 5
  }

  lemma ConnackInBytes(p: ConnackPacket)
    ensures EncodePacket(Connack(p)) == Ok([0x20, 0x02, if p.sessionPresent then 1 else 0, ConnackCode(p.returnCode)])
  {
    var flag: Byte := if p.sessionPresent then 1 else 0;
    assert Header(2, 0, 2) == [0x20, 0x02];
    assert [0x20, 0x02] + [flag, ConnackCodeByte(p.returnCode)] == [0x20, 0x02, flag, ConnackCodeByte(p.returnCode)];
  }

  /** Section 3.2: the bytes every CONNECT is answered with. */
  lemma ConnectAnswerInBytes(c: ConnectPacket)
    ensures |ReplyTo(Connect(c))| == 1
    ensures EncodePacket(ReplyTo(Connect(c))[0]) == Ok([0x20, 0x02, if c.cleanSession then 0 else 1, 0x00])
  {
    ConnackInBytes(ConnackPacket(!c.cleanSession, Accepted));
  }

  /** Section 3.9.3. */
  function SubackCode(code: SubscribeReturnCode): Byte {
    if code == SuccessQoS0 then 0x00
    else if code == SuccessQoS1 then 0x01
    else if code == SuccessQoS2 then 0x02
    else 0x80
  }

  lemma {:induction false} CodesInBytes(codes: seq<SubscribeReturnCode>)
    ensures forall i | 0 <= i < |codes| :: ReturnCodeBytes(codes)[i] == SubackCode(codes[i])
  {
    if codes != [] {
      CodesInBytes(codes[1..]);
    }
  }

  lemma SubackInBytes(p: SubackPacket, bytes: Bytes)
    requires |bytes| == |p.returnCodes| && forall i | 0 <= i < |bytes| :: bytes[i] == SubackCode(p.returnCodes[i])
    ensures EncodePacket(Suback(p)) == Ok(Framed(0x90, [p.packetId / 256, p.packetId % 256] + bytes))
  {
    var id := [p.packetId / 256, p.packetId % 256];
    CodesInBytes(p.returnCodes);
    assert ReturnCodeBytes(p.returnCodes) == bytes;
    FramedIsHeader(0x90, id + bytes);
    var header := Header(9, 0, 2 + |bytes|);
    assert header + id + bytes == header + (id + bytes);
  }

  /** What a SUBSCRIBE is answered with: after the id one byte per filter, 0x01 where section 4.7.1 allows
      the filter and 0x80 where it does not. */
  lemma SubscribeAnswerInBytes(id: U16, list: seq<(Bytes, QoS)>, bytes: Bytes)
    requires |bytes| == |list|
    requires forall i | 0 <= i < |bytes| :: bytes[i] == if StandardFilter(list[i].0) then 0x01 else 0x80
    ensures EncodePacket(Suback(SubackPacket(id, Spec.ReturnCodes(list)))) ==
            Ok(Framed(0x90, [id / 256, id % 256] + bytes))
  {
    CodesAnswerFilters(list);
    SubackInBytes(SubackPacket(id, Spec.ReturnCodes(list)), bytes);
  }

  lemma IdReply(first: Byte, high: Byte, low: Byte)
    ensures Header(first / 16, first % 16, 2) + PutU16(Number(high, low)) == [first, 2, high, low]
  {
    U16InBytes(high, low, []);
    FramedIsHeader(first, [high, low]);
  }

  /** The replies that carry an id or nothing. */
  lemma ShortRepliesInBytes(high: Byte, low: Byte)
    ensures EncodePacket(Puback(Number(high, low))) == Ok([0x40, 2, high, low])
    ensures EncodePacket(Pubrec(Number(high, low))) == Ok([0x50, 2, high, low])
    ensures EncodePacket(Pubrel(Number(high, low))) == Ok([0x62, 2, high, low])
    ensures EncodePacket(Pubcomp(Number(high, low))) == Ok([0x70, 2, high, low])
    ensures EncodePacket(Unsuback(Number(high, low))) == Ok([0xB0, 2, high, low])
    ensures EncodePacket(Pingresp) == Ok([0xD0, 0])
  {
    IdReply(0x40, high, low);
    IdReply(0x50, high, low);
    IdReply(0x62, high, low);
    IdReply(0x70, high, low);
    IdReply(0xB0, high, low);
    assert Header(13, 0, 0) == [0xD0, 0];
  }

  // ----- Literal exchanges -----

  /** SUBSCRIBE to "a" at QoS 1, and its answer. */
  lemma SubscribeExchange()
    ensures var p := SubscribePacket(1, [([0x61], AtLeastOnce)]);
      && DecodePacket([0x82, 0x06, 0x00, 0x01, 0x00, 0x01, 0x61, 0x01]) == Ok((Subscribe(p), []))
      && EncodePacket(Suback(SubackPacket(1, Spec.ReturnCodes(p.subscriptions)))) == Ok([0x90, 0x03, 0x00, 0x01, 0x01])
  {
    var p := SubscribePacket(1, [([0x61], AtLeastOnce)]);
    LiteralSubscribe(p);
    assert DecodePacket(Framed(0x82, WriteSubscribe(p))) == Ok((Subscribe(p), [])) by { SubscribeFromWire(p); }
    LiteralAnswer(p.subscriptions);
  }

  lemma LiteralAnswer(list: seq<(Bytes, QoS)>)
    requires list == [([0x61], AtLeastOnce)]
    ensures EncodePacket(Suback(SubackPacket(1, Spec.ReturnCodes(list)))) == Ok([0x90, 0x03, 0x00, 0x01, 0x01])
  {
    assert StandardFilter([0x61]) by { assert Split([0x61]) == [[0x61]]; }
    SubscribeAnswerInBytes(1, list, [0x01]);
    assert [1 / 256, 1 % 256] + [0x01] == [0x00, 0x01, 0x01];
    assert Framed(0x90, [0x00, 0x01, 0x01]) == [0x90, 0x03, 0x00, 0x01, 0x01];
  }

  lemma LiteralSubscribe(p: SubscribePacket)
    requires p == SubscribePacket(1, [([0x61], AtLeastOnce)])
    ensures Framed(0x82, WriteSubscribe(p)) == [0x82, 0x06, 0x00, 0x01, 0x00, 0x01, 0x61, 0x01]
    ensures |WriteSubscribe(p)| <= MAX_LENGTH && Text([0x61])
  {
    var list := p.subscriptions;
    var bytes := seq(|list|, i requires 0 <= i < |list| => QoSByte(list[i].1));
    assert bytes == [0x01] && list[1..] == [] && bytes[1..] == [];
    assert WriteRequests([], []) == [];
    assert WriteRequests(list, bytes) == [0x00, 0x01, 0x61] + ([0x01] + []);
    assert WriteSubscribe(p) == [0x00, 0x01, 0x00, 0x01, 0x61, 0x01];
    assert Framed(0x82, WriteSubscribe(p)) == [0x82, 0x06] + WriteSubscribe(p);
  }
}
