/** A client's session and outgoing channel as values, and what each session operation does to them. */
module SessionSpec {
  import opened Types

  datatype QoS2State = WaitingPubrec | WaitingPubcomp

  datatype PendingQoS2 = PendingQoS2(packet: PublishPacket, state: QoS2State)

  datatype SessionState = SessionState(
    clientId: Bytes,
    cleanSession: bool,
    keepAlive: U16,
    nextPacketId: U16,
    pendingQos1: map<U16, PublishPacket>,
    pendingQos2: map<U16, PendingQoS2>)

  /** The packets a channel has taken, oldest first, and whether its receiver still exists. */
  datatype Channel = Channel(sent: seq<Packet>, open: bool)

  function Fresh(clientId: Bytes, cleanSession: bool, keepAlive: U16): SessionState {
    SessionState(clientId, cleanSession, keepAlive, 1, map[], map[])
  }

  function SendOn(c: Channel, packet: Packet): Channel {
    if c.open then c.(sent := c.sent + [packet]) else c
  }

  /** Addition on a 16-bit counter. */
  function WrappingIncrement(n: U16): U16 {
    if n == 0xFFFF then 0 else n + 1
  }

  /** The id handed out and the counter afterwards; zero is skipped. */
  function NewPacketId(next: U16): (U16, U16) {
    if next == 0 then (1, 1) else (next, WrappingIncrement(next))
  }

  function Enqueue(s: SessionState, c: Channel, p: PublishPacket): (SessionState, Channel) {
    if p.qos == AtMostOnce then
      (s, SendOn(c, Publish(p)))
    else
      var (id, next) := NewPacketId(s.nextPacketId);
      var q := p.(packetId := Some(id));
      var t := s.(nextPacketId := next);
      if !c.open then (t, c)
      else if p.qos == AtLeastOnce then
        (t.(pendingQos1 := t.pendingQos1[id := q]), SendOn(c, Publish(q)))
      else
        (t.(pendingQos2 := t.pendingQos2[id := PendingQoS2(q, WaitingPubrec)]), SendOn(c, Publish(q)))
  }

  function OnPuback(s: SessionState, id: U16): SessionState {
    s.(pendingQos1 := s.pendingQos1 - {id})
  }

  function OnPubrec(s: SessionState, id: U16): SessionState {
    if id in s.pendingQos2
    then s.(pendingQos2 := s.pendingQos2[id := s.pendingQos2[id].(state := WaitingPubcomp)])
    else s
  }

  function OnPubcomp(s: SessionState, id: U16): SessionState {
    s.(pendingQos2 := s.pendingQos2 - {id})
  }
}
