/** The encoders as they run: each fills a byte buffer. */
module Encoder {
  import opened Types
  import opened RemainingLength
  import opened EncodeSpec

  /** A growable byte buffer; reading takes bytes off its front. */
  class BytesMut {
    var data: Bytes

    constructor ()
      ensures data == []
    {
      data := [];
    }

    method U8(b: Byte)
      modifies this
      ensures data == old(data) + [b]
    {
      data := data + [b];
    }

    method U16(n: U16)
      modifies this
      ensures data == old(data) + PutU16(n)
    {
      data := data + [n / 256, n % 256];
    }

    method Put(s: Bytes)
      modifies this
      ensures data == old(data) + s
    {
      data := data + s;
    }

    method SplitTo(n: nat) returns (front: Bytes)
      requires n <= |data|
      modifies this
      ensures front == old(data[..n]) && data == old(data[n..])
    {
      front, data := data[..n], data[n..];
    }

    method Utf8String(text: Bytes)
      modifies this
      ensures data == old(data) + PutString(text)
    {
      U16(|text| % 0x1_0000);
      Put(text);
    }

    method FixedHeader(packetType: Byte, flags: Byte, remaining: nat)
      requires packetType < 16 && flags < 16
      modifies this
      ensures data == old(data) + Header(packetType, flags, remaining)
    {
      U8(16 * packetType + flags);
      var field := EncodeRemainingLength(remaining);
      Put(field);
    }
  }

  /** The length the encoders announce; 0 for packets only clients send. */
  function RemainingLengthForPacket(packet: Packet): nat {
    match packet
    case Connack(_) => 2
    case Publish(p) => PublishRemaining(p)
    case Puback(_) => 2
    case Pubrec(_) => 2
    case Pubrel(_) => 2
    case Pubcomp(_) => 2
    case Unsuback(_) => 2
    case Suback(p) => 2 + |p.returnCodes|
    case _ => 0
  }

  method ConnackBytes(p: ConnackPacket) returns (buf: BytesMut)
    ensures fresh(buf) && EncodePacket(Connack(p)) == Ok(buf.data)
  {
    buf := new BytesMut();
    buf.FixedHeader(2, 0, 2);
    buf.U8(if p.sessionPresent then 1 else 0);
    buf.U8(ConnackCodeByte(p.returnCode));
    assert buf.data == Header(2, 0, 2) + [if p.sessionPresent then 1 else 0, ConnackCodeByte(p.returnCode)];
  }

  method SubackBytes(p: SubackPacket) returns (buf: BytesMut)
    ensures fresh(buf) && EncodePacket(Suback(p)) == Ok(buf.data)
  {
    buf := new BytesMut();
    buf.FixedHeader(9, 0, 2 + |p.returnCodes|);
    buf.U16(p.packetId);
    ghost var head := buf.data;
    assert head == Header(9, 0, 2 + |p.returnCodes|) + PutU16(p.packetId);
    assert p.returnCodes[0..] == p.returnCodes && p.returnCodes[|p.returnCodes|..] == [];
    for i := 0 to |p.returnCodes|
      invariant buf.data + ReturnCodeBytes(p.returnCodes[i..]) == head + ReturnCodeBytes(p.returnCodes)
    {
      ghost var before := buf.data;
      buf.U8(ReturnCodeByte(p.returnCodes[i]));
      assert p.returnCodes[i..][1..] == p.returnCodes[i + 1..];
      assert before + ReturnCodeBytes(p.returnCodes[i..]) == buf.data + ReturnCodeBytes(p.returnCodes[i + 1..]);
    }
    assert buf.data + [] == buf.data;
  }

  method SimplePacketWithFlags(packetType: Byte, flags: Byte, id: U16) returns (buf: BytesMut)
    requires packetType < 16 && flags < 16
    ensures fresh(buf) && buf.data == Header(packetType, flags, 2) + PutU16(id)
  {
    buf := new BytesMut();
    buf.FixedHeader(packetType, flags, 2);
    buf.U16(id);
  }

  method PublishBytes(p: PublishPacket) returns (r: Result<BytesMut>)
    ensures match EncodePacket(Publish(p))
            case Ok(s) => r.Ok? && fresh(r.value) && r.value.data == s
            case Err(e) => r == Err(e)
  {
    var buf := new BytesMut();
    buf.FixedHeader(3, PublishFlags(p), RemainingLengthForPacket(Publish(p)));
    ghost var head := buf.data;
    buf.Utf8String(p.topicName);
    if p.qos != AtMostOnce {
      if p.packetId.None? {
        return Err(Encode);
      }
      buf.U16(p.packetId.value);
    }
    buf.Put(p.payload);
    assert buf.data == head + PublishBody(p);
    r := Ok(buf);
  }

  method PacketBytes(packet: Packet) returns (r: Result<BytesMut>)
    ensures match EncodePacket(packet)
            case Ok(s) => r.Ok? && fresh(r.value) && r.value.data == s
            case Err(e) => r == Err(e)
  {
    var buf: BytesMut;
    match packet {
      case Connack(p) => buf := ConnackBytes(p);
      case Publish(p) =>
        r := PublishBytes(p);
        return;
      case Puback(id) => buf := SimplePacketWithFlags(4, 0, id);
      case Pubrec(id) => buf := SimplePacketWithFlags(5, 0, id);
      case Pubrel(id) => buf := SimplePacketWithFlags(6, 2, id);
      case Pubcomp(id) => buf := SimplePacketWithFlags(7, 0, id);
      case Suback(p) => buf := SubackBytes(p);
      case Unsuback(id) => buf := SimplePacketWithFlags(11, 0, id);
      case Pingresp =>
        buf := new BytesMut();
        buf.FixedHeader(13, 0, 0);
      case _ => return Err(Encode);
    }
    r := Ok(buf);
  }
}
