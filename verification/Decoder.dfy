/** The decoders as they run: each advances a cursor through the packet. */
module Decoder {
  import opened Types
  import opened Cursors
  import opened DecodeSpec

  method FixedHeaderOf(src: Cursor) returns (r: Result<FixedHeader>)
    modifies src
    ensures Did(r, src.rest, DecodeFixedHeader(old(src.rest)))
  {
    var first :- src.U8();
    var packetType := PacketTypeFromByte(first / 16);
    if packetType.None? {
      return Err(Decode(UnknownPacketType));
    }
    var length :- src.RemainingLengthField();
    r := Ok(FixedHeader(packetType.value, first % 16, length.0));
  }

  method ConnectOf(src: Cursor) returns (r: Result<ConnectPacket>)
    modifies src
    ensures Did(r, src.rest, DecodeConnect(old(src.rest)))
  {
    var protocolName :- src.Utf8String();
    var protocolLevel :- src.U8();
    var flags :- src.U8();
    var usernameFlag, passwordFlag := Bit(flags, 128), Bit(flags, 64);
    var willQos, willFlag := QoSFromByte(flags / 8 % 4), Bit(flags, 4);
    if Bit(flags, 1) {
      return Err(Decode(ReservedFlagSet));
    }
    if willFlag && willQos.None? {
      return Err(Decode(InvalidQoS));
    }
    var keepAlive :- src.U16();
    var clientId :- src.Utf8String();
    var willTopic, willMessage := None, None;
    if willFlag {
      var topic :- src.Utf8String();
      var message :- src.Binary();
      willTopic, willMessage := Some(topic), Some(message);
    }
    var username := None;
    if usernameFlag {
      var name :- src.Utf8String();
      username := Some(name);
    }
    var password := None;
    if passwordFlag {
      var secret :- src.Binary();
      password := Some(secret);
    }
    r := Ok(ConnectPacket(protocolName, protocolLevel, Bit(flags, 2), willFlag, willQos, Bit(flags, 32),
                          usernameFlag, passwordFlag, keepAlive, clientId, willTopic, willMessage,
                          username, password));
  }

  method PublishOf(header: FixedHeader, src: Cursor) returns (r: Result<PublishPacket>)
    modifies src
    ensures Did(r, src.rest, DecodePublish(header.flags, old(src.rest)))
  {
    var qos := QoSFromByte(header.flags / 2 % 4);
    if qos.None? {
      return Err(Decode(InvalidQoS));
    }
    var topicName :- src.Utf8String();
    var packetId := None;
    if qos.value != AtMostOnce {
      var id :- src.U16();
      packetId := Some(id);
    }
    var payload := src.rest;
    src.rest := [];
    r := Ok(PublishPacket(Bit(header.flags, 8), qos.value, Bit(header.flags, 1), topicName, packetId, payload));
  }

  /** A list read so far, followed by what the rest reads as. */
  ghost function Prepend<T>(items: seq<T>, later: Result<seq<T>>): Result<seq<T>> {
    match later
    case Ok(more) => Ok(items + more)
    case Err(e) => Err(e)
  }

  lemma PrependMore<T>(items: seq<T>, item: T, later: Result<seq<T>>)
    ensures Prepend(items, Prepend([item], later)) == Prepend(items + [item], later)
    ensures Prepend([], later) == later
  {
    if later.Ok? {
      assert items + ([item] + later.value) == items + [item] + later.value;
      assert [] + later.value == later.value;
    }
  }

  method SubscribeOf(src: Cursor) returns (r: Result<SubscribePacket>)
    modifies src
    ensures Did(r, src.rest, DecodeSubscribe(old(src.rest)))
  {
    var id :- src.U16();
    var subscriptions := [];
    ghost var all := ReadSubscriptions(src.rest);
    PrependMore([], ([], AtMostOnce), all);
    while src.rest != []
      invariant all == Prepend(subscriptions, ReadSubscriptions(src.rest))
      decreases |src.rest|
    {
      var filter :- src.Utf8String();
      var qosByte :- src.U8();
      var qos := QoSFromByte(qosByte % 4);
      if qos.None? {
        return Err(Decode(InvalidQoS));
      }
      PrependMore(subscriptions, (filter, qos.value), ReadSubscriptions(src.rest));
      subscriptions := subscriptions + [(filter, qos.value)];
    }
    assert subscriptions + [] == subscriptions;
    if subscriptions == [] {
      return Err(Decode(EmptyTopicList));
    }
    r := Ok(SubscribePacket(id, subscriptions));
  }

  method UnsubscribeOf(src: Cursor) returns (r: Result<UnsubscribePacket>)
    modifies src
    ensures Did(r, src.rest, DecodeUnsubscribe(old(src.rest)))
  {
    var id :- src.U16();
    var filters := [];
    ghost var all := ReadFilters(src.rest);
    PrependMore([], [], all);
    while src.rest != []
      invariant all == Prepend(filters, ReadFilters(src.rest))
      decreases |src.rest|
    {
      var filter :- src.Utf8String();
      PrependMore(filters, filter, ReadFilters(src.rest));
      filters := filters + [filter];
    }
    assert filters + [] == filters;
    if filters == [] {
      return Err(Decode(EmptyTopicList));
    }
    r := Ok(UnsubscribePacket(id, filters));
  }

  method PacketOf(src: Cursor) returns (r: Result<Packet>)
    modifies src
    ensures Did(r, src.rest, DecodePacket(old(src.rest)))
  {
    var header :- FixedHeaderOf(src);
    if |src.rest| < header.remainingLength {
      return Err(Decode(IncompletePacket));
    }
    match header.packetType {
      case ConnectType =>
        var p :- ConnectOf(src);
        r := Ok(Connect(p));
      case ConnackType =>
        var _ :- src.U8();
        r := Err(Decode(NotForServer));
      case PublishType =>
        var p :- PublishOf(header, src);
        r := Ok(Publish(p));
      case PubackType =>
        var id :- src.U16();
        r := Ok(Puback(id));
      case PubrecType =>
        var id :- src.U16();
        r := Ok(Pubrec(id));
      case PubrelType =>
        var id :- src.U16();
        r := Ok(Pubrel(id));
      case PubcompType =>
        var id :- src.U16();
        r := Ok(Pubcomp(id));
      case SubscribeType =>
        var p :- SubscribeOf(src);
        r := Ok(Subscribe(p));
      case UnsubscribeType =>
        var p :- UnsubscribeOf(src);
        r := Ok(Unsubscribe(p));
      case PingreqType => r := Ok(Pingreq);
      case DisconnectType => r := Ok(Disconnect);
      case _ => r := Err(Decode(NotForServer));
    }
  }
}
