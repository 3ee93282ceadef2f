/** The bytes of each packet the broker sends, and of the packets clients send it. */
module EncodeSpec {
  import opened Types
  import opened RemainingLength

  function PutU16(n: U16): (s: Bytes)
    ensures |s| == 2
  {
    [n / 256, n % 256]
  }

  /** The length is cut to two bytes, the text is not. */
  function PutString(text: Bytes): Bytes {
    PutU16(|text| % 0x1_0000) + text
  }

  function Header(packetType: Byte, flags: Byte, remaining: nat): Bytes
    requires packetType < 16 && flags < 16
  {
    [16 * packetType + flags] + EncodeLength(remaining)
  }

  function One(flag: bool): nat {
    if flag then 1 else 0
  }

  function PublishFlags(p: PublishPacket): (flags: Byte)
    ensures flags < 16
  {
    8 * One(p.dup) + 2 * QoSByte(p.qos) + One(p.retain)
  }

  function PublishRemaining(p: PublishPacket): nat {
    2 + |p.topicName| + (if p.qos != AtMostOnce then 2 else 0) + |p.payload|
  }

  function PublishBody(p: PublishPacket): Bytes
    requires p.qos != AtMostOnce ==> p.packetId.Some?
  {
    PutString(p.topicName) + (if p.qos != AtMostOnce then PutU16(p.packetId.value) else []) + p.payload
  }

  function EncodePublish(p: PublishPacket): Result<Bytes> {
    if p.qos != AtMostOnce && p.packetId.None? then Err(Encode)
    else Ok(Header(3, PublishFlags(p), PublishRemaining(p)) + PublishBody(p))
  }

  function ReturnCodeByte(code: SubscribeReturnCode): Byte {
    match code
    case SuccessQoS0 => 0
    case SuccessQoS1 => 1
    case SuccessQoS2 => 2
    case Failure => 0x80
  }

  function ReturnCodeBytes(codes: seq<SubscribeReturnCode>): (s: Bytes)
    ensures |s| == |codes|
  {
    if codes == [] then [] else [ReturnCodeByte(codes[0])] + ReturnCodeBytes(codes[1..])
  }

  function ConnackCodeByte(code: ConnackReturnCode): Byte {
    match code
    case Accepted => 0
    case UnacceptableProtocolVersion => 1
    case IdentifierRejected => 2
    case ServerUnavailable => 3
    case BadUsernameOrPassword => 4
    case NotAuthorized => 5
  }

  function EncodePacket(packet: Packet): Result<Bytes> {
    match packet
    case Connack(p) =>
      Ok(Header(2, 0, 2) + [if p.sessionPresent then 1 else 0, ConnackCodeByte(p.returnCode)])
    case Publish(p) => EncodePublish(p)
    case Puback(id) => Ok(Header(4, 0, 2) + PutU16(id))
    case Pubrec(id) => Ok(Header(5, 0, 2) + PutU16(id))
    case Pubrel(id) => Ok(Header(6, 2, 2) + PutU16(id))
    case Pubcomp(id) => Ok(Header(7, 0, 2) + PutU16(id))
    case Suback(p) => Ok(Header(9, 0, 2 + |p.returnCodes|) + PutU16(p.packetId) + ReturnCodeBytes(p.returnCodes))
    case Unsuback(id) => Ok(Header(11, 0, 2) + PutU16(id))
    case Pingresp => Ok(Header(13, 0, 0))
    case Connect(_) => Err(Encode)
    case Subscribe(_) => Err(Encode)
    case Unsubscribe(_) => Err(Encode)
    case Pingreq => Err(Encode)
    case Disconnect => Err(Encode)
  }
}
