/** The protocol's data: bytes, results, QoS levels and the control packets of MQTT 3.1.1. */
module Types {
  type Byte = x: int | 0 <= x < 0x100
  type U16 = x: int | 0 <= x < 0x1_0000
  type Bytes = seq<Byte>

  datatype Option<+T> = None | Some(value: T)

  /** Why a decoder gave up; the message texts are not modelled. */
  datatype DecodeReason =
    | LengthFieldCut          // "Unexpected end of remaining length"
    | LengthFieldMalformed    // "Malformed remaining length"
    | LengthTooLarge          // "Remaining length too large"
    | BufferExhausted
    | BufferTooShort
    | InvalidUtf8
    | UnknownPacketType
    | ReservedFlagSet
    | InvalidQoS
    | EmptyTopicList
    | IncompletePacket
    | NotForServer

  datatype BrokerError = Protocol | Decode(reason: DecodeReason) | Encode

  datatype Result<+T> = Ok(value: T) | Err(error: BrokerError) {
    predicate IsFailure() {
      Err?
    }

    function PropagateFailure<U>(): Result<U>
      requires Err?
    {
      Err(error)
    }

    function Extract(): T
      requires Ok?
    {
      value
    }
  }

  datatype QoS = AtMostOnce | AtLeastOnce | ExactlyOnce

  function QoSByte(q: QoS): (b: Byte)
  {
    match q
    case AtMostOnce => 0
    case AtLeastOnce => 1
    case ExactlyOnce => 2
  }

  function QoSFromByte(b: Byte): Option<QoS> {
    if b == 0 then Some(AtMostOnce)
    else if b == 1 then Some(AtLeastOnce)
    else if b == 2 then Some(ExactlyOnce)
    else None
  }

  function MinQoS(a: QoS, b: QoS): QoS {
    if QoSByte(a) <= QoSByte(b) then a else b
  }

  datatype PacketType =
    | ConnectType | ConnackType | PublishType | PubackType | PubrecType | PubrelType | PubcompType
    | SubscribeType | SubackType | UnsubscribeType | UnsubackType | PingreqType | PingrespType
    | DisconnectType

  function PacketTypeFromByte(b: Byte): Option<PacketType> {
    match b
    case 1 => Some(ConnectType)
    case 2 => Some(ConnackType)
    case 3 => Some(PublishType)
    case 4 => Some(PubackType)
    case 5 => Some(PubrecType)
    case 6 => Some(PubrelType)
    case 7 => Some(PubcompType)
    case 8 => Some(SubscribeType)
    case 9 => Some(SubackType)
    case 10 => Some(UnsubscribeType)
    case 11 => Some(UnsubackType)
    case 12 => Some(PingreqType)
    case 13 => Some(PingrespType)
    case 14 => Some(DisconnectType)
    case _ => None
  }

  datatype FixedHeader = FixedHeader(packetType: PacketType, flags: Byte, remainingLength: nat)

  datatype ConnackReturnCode =
    | Accepted | UnacceptableProtocolVersion | IdentifierRejected | ServerUnavailable
    | BadUsernameOrPassword | NotAuthorized

  datatype SubscribeReturnCode = SuccessQoS0 | SuccessQoS1 | SuccessQoS2 | Failure

  datatype ConnectPacket = ConnectPacket(
    protocolName: Bytes,
    protocolLevel: Byte,
    cleanSession: bool,
    willFlag: bool,
    willQos: Option<QoS>,
    willRetain: bool,
    usernameFlag: bool,
    passwordFlag: bool,
    keepAlive: U16,
    clientId: Bytes,
    willTopic: Option<Bytes>,
    willMessage: Option<Bytes>,
    username: Option<Bytes>,
    password: Option<Bytes>)

  datatype ConnackPacket = ConnackPacket(sessionPresent: bool, returnCode: ConnackReturnCode)

  datatype PublishPacket = PublishPacket(
    dup: bool,
    qos: QoS,
    retain: bool,
    topicName: Bytes,
    packetId: Option<U16>,
    payload: Bytes)

  datatype SubscribePacket = SubscribePacket(packetId: U16, subscriptions: seq<(Bytes, QoS)>)

  datatype SubackPacket = SubackPacket(packetId: U16, returnCodes: seq<SubscribeReturnCode>)

  datatype UnsubscribePacket = UnsubscribePacket(packetId: U16, topicFilters: seq<Bytes>)

  datatype Packet =
    | Connect(connect: ConnectPacket)
    | Connack(connack: ConnackPacket)
    | Publish(publish: PublishPacket)
    | Puback(id: U16)
    | Pubrec(id: U16)
    | Pubrel(id: U16)
    | Pubcomp(id: U16)
    | Subscribe(subscribe: SubscribePacket)
    | Suback(suback: SubackPacket)
    | Unsubscribe(unsubscribe: UnsubscribePacket)
    | Unsuback(id: U16)
    | Pingreq
    | Pingresp
    | Disconnect

  /** Well-formed UTF-8 (RFC 3629), the test behind every string a decoder accepts. */
  predicate ValidUtf8(s: Bytes) {
    if s == [] then true
    else if s[0] < 0x80 then ValidUtf8(s[1..])
    else if 0xC2 <= s[0] <= 0xDF then
      |s| >= 2 && Continuation(s[1]) && ValidUtf8(s[2..])
    else if 0xE0 <= s[0] <= 0xEF then
      && |s| >= 3 && Continuation(s[1]) && Continuation(s[2])
      && (s[0] == 0xE0 ==> s[1] >= 0xA0)
      && (s[0] == 0xED ==> s[1] < 0xA0)
      && ValidUtf8(s[3..])
    else if 0xF0 <= s[0] <= 0xF4 then
      && |s| >= 4 && Continuation(s[1]) && Continuation(s[2]) && Continuation(s[3])
      && (s[0] == 0xF0 ==> s[1] >= 0x90)
      && (s[0] == 0xF4 ==> s[1] < 0x90)
      && ValidUtf8(s[4..])
    else false
  }

  predicate Continuation(b: Byte) {
    0x80 <= b < 0xC0
  }
}
