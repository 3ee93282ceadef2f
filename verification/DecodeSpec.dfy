/** What each packet decoder makes of a byte sequence: the packet and what is left, or the error. */
module DecodeSpec {
  import opened Types
  import opened RemainingLength
  import opened Cursors

  /** Bit `k` of a flags byte, given as its weight. */
  predicate Bit(flags: Byte, weight: nat)
    requires weight > 0
  {
    flags / weight % 2 == 1
  }

  function DecodeFixedHeader(s: Bytes): Result<(FixedHeader, Bytes)> {
    var (first, s) :- ReadU8(s);
    match PacketTypeFromByte(first / 16)
    case None => Err(Decode(UnknownPacketType))
    case Some(packetType) =>
      var field :- DecodeLength(s);
      Ok((FixedHeader(packetType, first % 16, field.value), field.rest))
  }

  /** The optional fields follow each other only when their flag is set. */
  function ReadOptionalString(present: bool, s: Bytes): Result<(Option<Bytes>, Bytes)> {
    if !present then Ok((None, s))
    else
      var (text, s) :- ReadString(s);
      Ok((Some(text), s))
  }

  function ReadOptionalBinary(present: bool, s: Bytes): Result<(Option<Bytes>, Bytes)> {
    if !present then Ok((None, s))
    else
      var (data, s) :- ReadBinary(s);
      Ok((Some(data), s))
  }

  function DecodeConnect(s: Bytes): Result<(ConnectPacket, Bytes)> {
    var (protocolName, s) :- ReadString(s);
    var (protocolLevel, s) :- ReadU8(s);
    var (flags, s) :- ReadU8(s);
    var willQos := QoSFromByte(flags / 8 % 4);
    var willFlag := Bit(flags, 4);
    if Bit(flags, 1) then Err(Decode(ReservedFlagSet))
    else if willFlag && willQos.None? then Err(Decode(InvalidQoS))
    else
      var (keepAlive, s) :- ReadU16(s);
      var (clientId, s) :- ReadString(s);
      var (willTopic, s) :- ReadOptionalString(willFlag, s);
      var (willMessage, s) :- ReadOptionalBinary(willFlag, s);
      var (username, s) :- ReadOptionalString(Bit(flags, 128), s);
      var (password, s) :- ReadOptionalBinary(Bit(flags, 64), s);
      Ok((ConnectPacket(protocolName, protocolLevel, Bit(flags, 2), willFlag, willQos, Bit(flags, 32),
                        Bit(flags, 128), Bit(flags, 64), keepAlive, clientId, willTopic, willMessage,
                        username, password), s))
  }

  /** Everything after the topic and the packet id is payload. */
  function DecodePublish(flags: Byte, s: Bytes): Result<(PublishPacket, Bytes)> {
    match QoSFromByte(flags / 2 % 4)
    case None => Err(Decode(InvalidQoS))
    case Some(qos) =>
      var (topicName, s) :- ReadString(s);
      if qos == AtMostOnce then
        Ok((PublishPacket(Bit(flags, 8), qos, Bit(flags, 1), topicName, None, s), []))
      else
        var (id, s) :- ReadU16(s);
        Ok((PublishPacket(Bit(flags, 8), qos, Bit(flags, 1), topicName, Some(id), s), []))
  }

  /** Topic filters with their requested QoS, to the end of the input. */
  function ReadSubscriptions(s: Bytes): Result<seq<(Bytes, QoS)>>
    decreases |s|
  {
    if s == [] then Ok([])
    else
      var (filter, s1) :- ReadString(s);
      var (qosByte, s2) :- ReadU8(s1);
      match QoSFromByte(qosByte % 4)
      case None => Err(Decode(InvalidQoS))
      case Some(qos) =>
        var later :- ReadSubscriptions(s2);
        Ok([(filter, qos)] + later)
  }

  function DecodeSubscribe(s: Bytes): Result<(SubscribePacket, Bytes)> {
    var (id, s) :- ReadU16(s);
    var subscriptions :- ReadSubscriptions(s);
    if subscriptions == [] then Err(Decode(EmptyTopicList))
    else Ok((SubscribePacket(id, subscriptions), []))
  }

  function ReadFilters(s: Bytes): Result<seq<Bytes>>
    decreases |s|
  {
    if s == [] then Ok([])
    else
      var (filter, s1) :- ReadString(s);
      var later :- ReadFilters(s1);
      Ok([filter] + later)
  }

  function DecodeUnsubscribe(s: Bytes): Result<(UnsubscribePacket, Bytes)> {
    var (id, s) :- ReadU16(s);
    var filters :- ReadFilters(s);
    if filters == [] then Err(Decode(EmptyTopicList))
    else Ok((UnsubscribePacket(id, filters), []))
  }

  function DecodeBody(header: FixedHeader, s: Bytes): Result<(Packet, Bytes)> {
    match header.packetType
    case ConnectType =>
      var (p, s) :- DecodeConnect(s);
      Ok((Connect(p), s))
    case ConnackType =>
      var (_, _) :- ReadU8(s);
      Err(Decode(NotForServer))
    case PublishType =>
      var (p, s) :- DecodePublish(header.flags, s);
      Ok((Publish(p), s))
    case PubackType =>
      var (id, s) :- ReadU16(s);
      Ok((Puback(id), s))
    case PubrecType =>
      var (id, s) :- ReadU16(s);
      Ok((Pubrec(id), s))
    case PubrelType =>
      var (id, s) :- ReadU16(s);
      Ok((Pubrel(id), s))
    case PubcompType =>
      var (id, s) :- ReadU16(s);
      Ok((Pubcomp(id), s))
    case SubscribeType =>
      var (p, s) :- DecodeSubscribe(s);
      Ok((Subscribe(p), s))
    case SubackType => Err(Decode(NotForServer))
    case UnsubscribeType =>
      var (p, s) :- DecodeUnsubscribe(s);
      Ok((Unsubscribe(p), s))
    case UnsubackType => Err(Decode(NotForServer))
    case PingreqType => Ok((Pingreq, s))
    case PingrespType => Err(Decode(NotForServer))
    case DisconnectType => Ok((Disconnect, s))
  }

  function DecodePacket(s: Bytes): Result<(Packet, Bytes)> {
    var (header, s) :- DecodeFixedHeader(s);
    if |s| < header.remainingLength then Err(Decode(IncompletePacket))
    else DecodeBody(header, s)
  }
}
