/**
 The broker as one value, and each handler as one step on it. A session is named by the handle of its
 channel; a connection is the handle of the session it holds, if any.
 */
module BrokerSpec {
  import opened Types
  import opened Levels
  import opened Subscriptions
  import opened SessionSpec

  datatype BrokerState = BrokerState(
    registry: map<Bytes, nat>,
    sessions: seq<SessionState>,
    channels: seq<Channel>,
    table: Table)

  const EMPTY_BROKER := BrokerState(map[], [], [], map[])

  function Send(b: BrokerState, h: nat, packet: Packet): BrokerState {
    if h < |b.channels| then b.(channels := b.channels[h := SendOn(b.channels[h], packet)]) else b
  }

  function DropReceiver(b: BrokerState, h: nat): BrokerState {
    if h < |b.channels| then b.(channels := b.channels[h := b.channels[h].(open := false)]) else b
  }

  function EnqueueAt(b: BrokerState, h: nat, p: PublishPacket): BrokerState {
    if h < |b.sessions| && h < |b.channels| then
      var (s, c) := Enqueue(b.sessions[h], b.channels[h], p);
      b.(sessions := b.sessions[h := s], channels := b.channels[h := c])
    else b
  }

  /** One matched subscriber: QoS 0 goes to the subscriber's own channel, the rest through the session
      registered under its client id. */
  function Deliver(b: BrokerState, p: PublishPacket, sub: Subscriber): BrokerState {
    var q := p.(qos := MinQoS(p.qos, sub.qos));
    if q.qos == AtMostOnce then Send(b, sub.sender, Publish(q))
    else if sub.clientId in b.registry then EnqueueAt(b, b.registry[sub.clientId], q)
    else b
  }

  function DeliverAll(b: BrokerState, p: PublishPacket, subs: seq<Subscriber>): BrokerState {
    if subs == [] then b
    else Deliver(DeliverAll(b, p, subs[..|subs| - 1]), p, subs[|subs| - 1])
  }

  function HandlePublish(b: BrokerState, p: PublishPacket): BrokerState {
    DeliverAll(b, p, Matches(b.table, p.topicName))
  }

  function ReturnCode(filter: Bytes): SubscribeReturnCode {
    if IsValidTopicFilter(filter) then SuccessQoS1 else Failure
  }

  function ReturnCodes(list: seq<(Bytes, QoS)>): seq<SubscribeReturnCode> {
    if list == [] then []
    else ReturnCodes(list[..|list| - 1]) + [ReturnCode(list[|list| - 1].0)]
  }

  /** The requested QoS plays no part: every valid filter is granted QoS 1. */
  function SubscribeTable(table: Table, clientId: Bytes, h: nat, list: seq<(Bytes, QoS)>): Table {
    if list == [] then table
    else
      var before := SubscribeTable(table, clientId, h, list[..|list| - 1]);
      var filter := list[|list| - 1].0;
      if IsValidTopicFilter(filter) then Add(before, SlotOf(filter), Subscriber(clientId, h, AtLeastOnce))
      else before
  }

  function UnsubscribeTable(table: Table, clientId: Bytes, filters: seq<Bytes>): Table {
    if filters == [] then table
    else
      Remove(UnsubscribeTable(table, clientId, filters[..|filters| - 1]), SlotOf(filters[|filters| - 1]), clientId)
  }

  function HandleDisconnect(b: BrokerState, clientId: Bytes): BrokerState {
    b.(registry := b.registry - {clientId}, table := RemoveAll(b.table, clientId))
  }

  function Register(b: BrokerState, c: ConnectPacket): BrokerState {
    BrokerState(
      b.registry[c.clientId := |b.sessions|],
      b.sessions + [Fresh(c.clientId, c.cleanSession, c.keepAlive)],
      b.channels + [Channel([], true)],
      b.table)
  }

  /** What a packet leaves behind: the broker, the session the connection now holds, and whether the
      connection goes on. */
  datatype Handled = Handled(broker: BrokerState, held: Option<nat>, ok: bool)

  function Release(b: BrokerState, held: Option<nat>): BrokerState {
    if held.Some? then DropReceiver(b, held.value) else b
  }

  function Reply(b: BrokerState, held: Option<nat>, packet: Packet): BrokerState {
    if held.Some? then Send(b, held.value, packet) else b
  }

  function UpdateSession(b: BrokerState, held: Option<nat>, f: SessionState -> SessionState): BrokerState {
    if held.Some? && held.value < |b.sessions|
    then b.(sessions := b.sessions[held.value := f(b.sessions[held.value])])
    else b
  }

  function HandlePacket(b: BrokerState, held: Option<nat>, packet: Packet): Handled {
    match packet
    case Connect(c) =>
      var h := |b.sessions|;
      var b1 := Send(Register(b, c), h, Connack(ConnackPacket(!c.cleanSession, Accepted)));
      Handled(Release(b1, held), Some(h), true)
    case Publish(p) =>
      var b1 := HandlePublish(b, p);
      Handled(
        match (p.qos, p.packetId)
        case (AtLeastOnce, Some(id)) => Reply(b1, held, Puback(id))
        case (ExactlyOnce, Some(id)) => Reply(b1, held, Pubrec(id))
        case _ => b1,
        held, true)
    case Puback(id) => Handled(UpdateSession(b, held, s => OnPuback(s, id)), held, true)
    case Pubrec(id) => Handled(Reply(UpdateSession(b, held, s => OnPubrec(s, id)), held, Pubrel(id)), held, true)
    case Pubrel(id) => Handled(Reply(b, held, Pubcomp(id)), held, true)
    case Pubcomp(id) => Handled(UpdateSession(b, held, s => OnPubcomp(s, id)), held, true)
    case Subscribe(p) =>
      if held.Some? && held.value < |b.sessions| then
        var clientId := b.sessions[held.value].clientId;
        var b1 := b.(table := SubscribeTable(b.table, clientId, held.value, p.subscriptions));
        Handled(Reply(b1, held, Suback(SubackPacket(p.packetId, ReturnCodes(p.subscriptions)))), held, true)
      else Handled(b, held, true)
    case Unsubscribe(p) =>
      if held.Some? && held.value < |b.sessions| then
        var clientId := b.sessions[held.value].clientId;
        var b1 := b.(table := UnsubscribeTable(b.table, clientId, p.topicFilters));
        Handled(Reply(b1, held, Unsuback(p.packetId)), held, true)
      else Handled(b, held, true)
    case Pingreq => Handled(Reply(b, held, Pingresp), held, true)
    case Disconnect =>
      if held.Some? && held.value < |b.sessions| then
        Handled(Release(HandleDisconnect(b, b.sessions[held.value].clientId), held), None, true)
      else Handled(b, None, true)
    case Connack(_) => Handled(Release(b, held), None, false)
    case Suback(_) => Handled(Release(b, held), None, false)
    case Unsuback(_) => Handled(Release(b, held), None, false)
    case Pingresp => Handled(Release(b, held), None, false)
  }

  // ----- Whole runs: many connections -----

  /** `conns` says which session each connection holds; `received` keeps, for every session, the
      packets its connection has handled from its CONNECT on. */
  datatype Net = Net(broker: BrokerState, conns: map<nat, nat>, received: seq<seq<Packet>>)

  datatype Event =
    | Recv(conn: nat, packet: Packet)
    | Eof(conn: nat)
    | Abort(conn: nat)  // a decode, encode, read or write error

  const EMPTY_NET := Net(EMPTY_BROKER, map[], [])

  function HeldBy(net: Net, conn: nat): Option<nat> {
    if conn in net.conns then Some(net.conns[conn]) else None
  }

  function SetHeld(conns: map<nat, nat>, conn: nat, held: Option<nat>): map<nat, nat> {
    if held.Some? then conns[conn := held.value] else conns - {conn}
  }

  function Note(received: seq<seq<Packet>>, held: Option<nat>, packet: Packet): seq<seq<Packet>> {
    if packet.Connect? then received + [[packet]]
    else if held.Some? && held.value < |received|
    then received[held.value := received[held.value] + [packet]]
    else received
  }

  function Next(net: Net, e: Event): Net {
    var held := HeldBy(net, e.conn);
    match e
    case Recv(conn, packet) =>
      var done := HandlePacket(net.broker, held, packet);
      Net(done.broker, SetHeld(net.conns, conn, done.held), Note(net.received, held, packet))
    case Eof(conn) =>
      var b :=
        if held.Some? && held.value < |net.broker.sessions|
        then HandleDisconnect(net.broker, net.broker.sessions[held.value].clientId)
        else net.broker;
      net.(broker := Release(b, held), conns := net.conns - {conn})
    case Abort(conn) =>
      net.(broker := Release(net.broker, held), conns := net.conns - {conn})
  }

  function Run(events: seq<Event>): Net {
    if events == [] then EMPTY_NET
    else Next(Run(events[..|events| - 1]), events[|events| - 1])
  }
}
