/**
 What every reachable broker state satisfies, whatever the clients do: replies come in order, every
 queued packet can be encoded, and a channel is open exactly while a connection holds its session.
 */
module BrokerInvariants {
  import opened Types
  import Levels
  import opened Subscriptions
  import opened SessionSpec
  import opened EncodeSpec
  import opened BrokerSpec

  // ----- Replies -----

  function NonPublish(packets: seq<Packet>): seq<Packet> {
    if packets == [] then []
    else
      var last := packets[|packets| - 1];
      NonPublish(packets[..|packets| - 1]) + if last.Publish? then [] else [last]
  }

  /** The answer MQTT 3.1.1 asks for, with the request's packet id. */
  function ReplyTo(packet: Packet): seq<Packet> {
    match packet
    case Connect(c) => [Connack(ConnackPacket(!c.cleanSession, Accepted))]
    case Publish(p) =>
      if p.qos == AtLeastOnce && p.packetId.Some? then [Puback(p.packetId.value)]
      else if p.qos == ExactlyOnce && p.packetId.Some? then [Pubrec(p.packetId.value)]
      else []
    case Pubrec(id) => [Pubrel(id)]
    case Pubrel(id) => [Pubcomp(id)]
    case Subscribe(p) => [Suback(SubackPacket(p.packetId, ReturnCodes(p.subscriptions)))]
    case Unsubscribe(p) => [Unsuback(p.packetId)]
    case Pingreq => [Pingresp]
    case _ => []
  }

  function Replies(received: seq<Packet>): seq<Packet> {
    if received == [] then []
    else Replies(received[..|received| - 1]) + ReplyTo(received[|received| - 1])
  }

  lemma NonPublishSnoc(packets: seq<Packet>, packet: Packet)
    ensures NonPublish(packets + [packet]) == NonPublish(packets) + if packet.Publish? then [] else [packet]
  {
    assert (packets + [packet])[..|packets|] == packets;
  }

  lemma RepliesSnoc(received: seq<Packet>, packet: Packet)
    ensures Replies(received + [packet]) == Replies(received) + ReplyTo(packet)
  {
    assert (received + [packet])[..|received|] == received;
  }

  // ----- One broker state -----

  /** A packet the broker may queue: one that servers send, and a publish at QoS > 0 only with a
      nonzero id. */
  predicate Sendable(packet: Packet) {
    match packet
    case Publish(p) => p.qos != AtMostOnce ==> p.packetId.Some? && p.packetId.value != 0
    case Connect(_) => false
    case Subscribe(_) => false
    case Unsubscribe(_) => false
    case Pingreq => false
    case Disconnect => false
    case _ => true
  }

  lemma SendableEncodes(packet: Packet)
    requires Sendable(packet)
    ensures EncodePacket(packet).Ok?
  {
    match packet
    case Publish(p) => assert EncodePublish(p).Ok?;
    case _ =>
  }

  ghost predicate AllSendable(packets: seq<Packet>) {
    forall i | 0 <= i < |packets| :: Sendable(packets[i])
  }

  ghost predicate GoodSubscriber(b: BrokerState, x: Subscriber) {
    x.qos == AtLeastOnce && x.sender < |b.sessions| && x.clientId == b.sessions[x.sender].clientId
  }

  ghost predicate GoodTable(b: BrokerState, table: Table) {
    forall slot, x | slot in table && x in table[slot] :: GoodSubscriber(b, x)
  }

  ghost predicate GoodRegistry(b: BrokerState) {
    forall k | k in b.registry :: b.registry[k] < |b.sessions| && b.sessions[b.registry[k]].clientId == k
  }

  ghost predicate Good(b: BrokerState) {
    && |b.sessions| == |b.channels|
    && GoodRegistry(b) && GoodTable(b, b.table)
    && (forall h | 0 <= h < |b.sessions| :: b.sessions[h].pendingQos2 == map[])
    && (forall h | 0 <= h < |b.channels| :: AllSendable(b.channels[h].sent))
  }

  // ----- Publishing adds publishes to channels and nothing else that others look at -----

  ghost predicate OnlyPublished(b: BrokerState, c: BrokerState) {
    && c.registry == b.registry && c.table == b.table
    && |c.sessions| == |b.sessions| && |c.channels| == |b.channels|
    && (forall h | 0 <= h < |b.sessions| :: c.sessions[h].clientId == b.sessions[h].clientId)
    && (forall h | 0 <= h < |b.channels| ::
          c.channels[h].open == b.channels[h].open &&
          NonPublish(c.channels[h].sent) == NonPublish(b.channels[h].sent))
  }

  lemma SendableSnoc(packets: seq<Packet>, packet: Packet)
    requires AllSendable(packets) && Sendable(packet)
    ensures AllSendable(packets + [packet])
  {
  }

  /** Client ids, registry and table are all that the first two conditions look at. */
  lemma SameClients(b: BrokerState, c: BrokerState)
    requires GoodRegistry(b) && GoodTable(b, b.table)
    requires c.registry == b.registry && c.table == b.table && |c.sessions| == |b.sessions|
    requires forall h | 0 <= h < |b.sessions| :: c.sessions[h].clientId == b.sessions[h].clientId
    ensures GoodRegistry(c) && GoodTable(c, c.table)
  {
    forall slot, x | slot in c.table && x in c.table[slot] ensures GoodSubscriber(c, x) {
      assert x in b.table[slot] && GoodSubscriber(b, x);
    }
  }

  /** One publish more on one channel, one session changed in its ids and QoS 1 map. */
  lemma AddsPublish(b: BrokerState, h: nat, s: SessionState, packet: Packet)
    requires Good(b) && h < |b.sessions| && packet.Publish? && Sendable(packet)
    requires s.clientId == b.sessions[h].clientId && s.pendingQos2 == map[]
    ensures var c := b.(sessions := b.sessions[h := s], channels := b.channels[h := SendOn(b.channels[h], packet)]);
      Good(c) && OnlyPublished(b, c)
  {
    var sent := b.channels[h].sent;
    NonPublishSnoc(sent, packet);
    SendableSnoc(sent, packet);
    assert NonPublish(sent) + [] == NonPublish(sent);
    SameClients(b, b.(sessions := b.sessions[h := s], channels := b.channels[h := SendOn(b.channels[h], packet)]));
  }

  lemma SendPublish(b: BrokerState, h: nat, p: PublishPacket)
    requires Good(b) && p.qos == AtMostOnce
    ensures var c := Send(b, h, Publish(p)); Good(c) && OnlyPublished(b, c)
  {
    if h < |b.channels| {
      AddsPublish(b, h, b.sessions[h], Publish(p));
      assert b.sessions[h := b.sessions[h]] == b.sessions;
    }
  }

  lemma EnqueuePublish(b: BrokerState, h: nat, p: PublishPacket)
    requires Good(b) && p.qos == AtLeastOnce
    ensures var c := EnqueueAt(b, h, p); Good(c) && OnlyPublished(b, c)
  {
    if h < |b.sessions| {
      var id := NewPacketId(b.sessions[h].nextPacketId).0;
      var (s, c) := Enqueue(b.sessions[h], b.channels[h], p);
      AddsPublish(b, h, s, Publish(p.(packetId := Some(id))));
      assert c == SendOn(b.channels[h], Publish(p.(packetId := Some(id))));
    }
  }

  lemma {:induction false} DeliverAllPublishes(b: BrokerState, p: PublishPacket, subs: seq<Subscriber>)
    requires Good(b) && forall x | x in subs :: x.qos == AtLeastOnce
    ensures var c := DeliverAll(b, p, subs); Good(c) && OnlyPublished(b, c)
  {
    if subs != [] {
      var init, x := subs[..|subs| - 1], subs[|subs| - 1];
      assert x in subs;
      DeliverAllPublishes(b, p, init);
      var c := DeliverAll(b, p, init);
      var q := p.(qos := MinQoS(p.qos, x.qos));
      if q.qos == AtMostOnce {
        SendPublish(c, x.sender, q);
      } else if x.clientId in c.registry {
        EnqueuePublish(c, c.registry[x.clientId], q);
      }
    }
  }

  lemma {:induction false} GatherMember(table: Table, slots: seq<Slot>, x: Subscriber)
    requires x in Gather(table, slots)
    ensures exists slot :: slot in table && x in table[slot]
  {
    if x !in Get(table, slots[0]) {
      GatherMember(table, slots[1..], x);
    }
  }

  lemma MatchesAreGood(b: BrokerState, topic: Bytes)
    requires GoodTable(b, b.table)
    ensures forall x | x in Matches(b.table, topic) :: GoodSubscriber(b, x)
  {
    forall x | x in Matches(b.table, topic) ensures GoodSubscriber(b, x) {
      GatherMember(b.table, SlotsRead([], Levels.Split(topic), 0), x);
    }
  }

  lemma PublishIsGood(b: BrokerState, p: PublishPacket)
    requires Good(b)
    ensures var c := HandlePublish(b, p); Good(c) && OnlyPublished(b, c)
  {
    MatchesAreGood(b, p.topicName);
    DeliverAllPublishes(b, p, Matches(b.table, p.topicName));
  }

  // ----- The table under SUBSCRIBE, UNSUBSCRIBE and disconnect -----

  lemma {:induction false} SubscribeKeepsTable(b: BrokerState, table: Table, h: nat, list: seq<(Bytes, QoS)>)
    requires h < |b.sessions| && GoodTable(b, table)
    ensures GoodTable(b, SubscribeTable(table, b.sessions[h].clientId, h, list))
  {
    if list != [] {
      SubscribeKeepsTable(b, table, h, list[..|list| - 1]);
    }
  }

  lemma {:induction false} WithoutKeeps(subs: seq<Subscriber>, clientId: Bytes)
    ensures forall x :: x in Without(subs, clientId) <==> x in subs && x.clientId != clientId
  {
    if subs != [] {
      WithoutKeeps(subs[1..], clientId);
      assert subs == [subs[0]] + subs[1..];
    }
  }

  lemma RemoveKeepsTable(b: BrokerState, table: Table, slot: Slot, clientId: Bytes)
    requires GoodTable(b, table)
    ensures GoodTable(b, Remove(table, slot, clientId))
  {
    if slot in table {
      WithoutKeeps(table[slot], clientId);
    }
  }

  lemma {:induction false} UnsubscribeKeepsTable(b: BrokerState, table: Table, clientId: Bytes, filters: seq<Bytes>)
    requires GoodTable(b, table)
    ensures GoodTable(b, UnsubscribeTable(table, clientId, filters))
  {
    if filters != [] {
      var init := filters[..|filters| - 1];
      UnsubscribeKeepsTable(b, table, clientId, init);
      RemoveKeepsTable(b, UnsubscribeTable(table, clientId, init),
                       SlotOf(filters[|filters| - 1]), clientId);
    }
  }

  lemma GetRemovedAll(table: Table, slot: Slot, clientId: Bytes, x: Subscriber)
    requires slot in RemoveAll(table, clientId) && x in RemoveAll(table, clientId)[slot]
    ensures slot in table && x in table[slot] && x.clientId != clientId
  {
    WithoutKeeps(table[slot], clientId);
  }

  lemma DisconnectIsGood(b: BrokerState, clientId: Bytes)
    requires Good(b)
    ensures Good(HandleDisconnect(b, clientId))
  {
    var c := HandleDisconnect(b, clientId);
    forall slot, x | slot in c.table && x in c.table[slot] ensures GoodSubscriber(c, x) {
      GetRemovedAll(b.table, slot, clientId, x);
      assert GoodSubscriber(b, x);
    }
  }

  // ----- Whole runs -----

  /** No two connections hold one session. */
  ghost predicate ConnsOk(conns: map<nat, nat>, n: nat) {
    && (forall c | c in conns :: conns[c] < n)
    && (forall c, d | c in conns && d in conns && c != d :: conns[c] != conns[d])
  }

  ghost predicate Held(conns: map<nat, nat>, h: nat) {
    exists c :: c in conns && conns[c] == h
  }

  /** A channel is open exactly while a connection holds its session. */
  ghost predicate OpenOk(channels: seq<Channel>, conns: map<nat, nat>) {
    forall h | 0 <= h < |channels| :: channels[h].open <==> Held(conns, h)
  }

  /** What a channel has taken besides publishes are the replies to what its connection received. */
  ghost predicate RepliesOk(channels: seq<Channel>, received: seq<seq<Packet>>) {
    && |received| == |channels|
    && forall h | 0 <= h < |channels| :: NonPublish(channels[h].sent) == Replies(received[h])
  }

  ghost predicate Inv(net: Net) {
    && Good(net.broker)
    && ConnsOk(net.conns, |net.broker.channels|)
    && OpenOk(net.broker.channels, net.conns)
    && RepliesOk(net.broker.channels, net.received)
  }

  /** The channels look the same to everyone but publishers. */
  ghost predicate Quiet(b: BrokerState, c: BrokerState) {
    && |c.channels| == |b.channels|
    && forall h | 0 <= h < |b.channels| ::
         c.channels[h].open == b.channels[h].open &&
         NonPublish(c.channels[h].sent) == NonPublish(b.channels[h].sent)
  }

  lemma SendIsGood(b: BrokerState, h: nat, packet: Packet)
    requires Good(b) && Sendable(packet)
    ensures Good(Send(b, h, packet))
  {
    if h < |b.channels| {
      SendableSnoc(b.channels[h].sent, packet);
      SameClients(b, Send(b, h, packet));
    }
  }

  lemma ReleaseIsGood(b: BrokerState, held: Option<nat>)
    requires Good(b)
    ensures Good(Release(b, held))
  {
    SameClients(b, Release(b, held));
  }

  lemma QuietReplies(b: BrokerState, c: BrokerState, received: seq<seq<Packet>>)
    requires Quiet(b, c) && RepliesOk(b.channels, received)
    ensures RepliesOk(c.channels, received)
  {
  }

  lemma QuietOpen(b: BrokerState, c: BrokerState, conns: map<nat, nat>)
    requires Quiet(b, c) && OpenOk(b.channels, conns)
    ensures OpenOk(c.channels, conns)
  {
  }

  /** One packet more on an open channel; the receiver's list grows by the packet it answers. */
  lemma RepliesAfter(channels: seq<Channel>, received: seq<seq<Packet>>, h: nat, packet: Packet, reply: Packet)
    requires RepliesOk(channels, received) && h < |channels| && channels[h].open
    requires ReplyTo(packet) == [reply] && !reply.Publish?
    ensures RepliesOk(channels[h := SendOn(channels[h], reply)], received[h := received[h] + [packet]])
  {
    RepliesSnoc(received[h], packet);
    NonPublishSnoc(channels[h].sent, reply);
  }

  lemma NoReplyAfter(channels: seq<Channel>, received: seq<seq<Packet>>, h: nat, packet: Packet)
    requires RepliesOk(channels, received) && h < |channels| && ReplyTo(packet) == []
    ensures RepliesOk(channels, received[h := received[h] + [packet]])
  {
    RepliesSnoc(received[h], packet);
    assert Replies(received[h]) + [] == Replies(received[h]);
  }

  /** A connection that holds a session handled `packet`; `c` is the broker before the reply. */
  lemma ReplyStep(net: Net, conn: nat, packet: Packet, c: BrokerState)
    requires Inv(net) && conn in net.conns && !packet.Connect?
    requires Good(c) && Quiet(net.broker, c)
    requires |ReplyTo(packet)| <= 1 && forall r | r in ReplyTo(packet) :: Sendable(r) && !r.Publish?
    ensures var h := net.conns[conn];
      var d := if ReplyTo(packet) == [] then c else Send(c, h, ReplyTo(packet)[0]);
      Inv(Net(d, SetHeld(net.conns, conn, Some(h)), Note(net.received, Some(h), packet)))
  {
    var h := net.conns[conn];
    assert net.conns[conn := h] == net.conns;
    QuietReplies(net.broker, c, net.received);
    QuietOpen(net.broker, c, net.conns);
    if ReplyTo(packet) == [] {
      NoReplyAfter(c.channels, net.received, h, packet);
    } else {
      var r := ReplyTo(packet)[0];
      assert r in ReplyTo(packet) && ReplyTo(packet) == [r];
      SendIsGood(c, h, r);
      assert Held(net.conns, h);
      RepliesAfter(c.channels, net.received, h, packet, r);
    }
  }

  lemma Unchanged(net: Net, conn: nat, packet: Packet, c: BrokerState)
    requires Inv(net) && conn !in net.conns && !packet.Connect?
    requires Good(c) && Quiet(net.broker, c)
    ensures Inv(Net(c, SetHeld(net.conns, conn, None), Note(net.received, None, packet)))
  {
    assert net.conns - {conn} == net.conns;
  }

  /** A connection lets go of its session and its channel closes. */
  lemma ReleaseStep(net: Net, conn: nat, c: BrokerState)
    requires Inv(net) && Good(c) && Quiet(net.broker, c)
    ensures Inv(Net(Release(c, HeldBy(net, conn)), net.conns - {conn}, net.received))
  {
    var d := Release(c, HeldBy(net, conn));
    ReleaseIsGood(c, HeldBy(net, conn));
    forall h | 0 <= h < |d.channels| ensures d.channels[h].open <==> Held(net.conns - {conn}, h) {
      if Held(net.conns, h) {
        var k :| k in net.conns && net.conns[k] == h;
        assert k != conn ==> k in net.conns - {conn};
      }
    }
  }

  lemma NoteWithoutReply(net: Net, held: Option<nat>, packet: Packet)
    requires Inv(net) && ReplyTo(packet) == [] && !packet.Connect?
    ensures Inv(net.(received := Note(net.received, held, packet)))
  {
    if held.Some? && held.value < |net.received| {
      RepliesSnoc(net.received[held.value], packet);
      assert Replies(net.received[held.value]) + [] == Replies(net.received[held.value]);
    }
  }

  lemma RegisterIsGood(b: BrokerState, c: ConnectPacket)
    requires Good(b)
    ensures Good(Register(b, c))
  {
    var d := Register(b, c);
    forall slot, x | slot in d.table && x in d.table[slot] ensures GoodSubscriber(d, x) {
      assert x in b.table[slot] && GoodSubscriber(b, x);
    }
  }

  /** The connection's new channel is the last one; the one it held before closes. */
  lemma OpenAfterConnect(channels: seq<Channel>, conns: map<nat, nat>, conn: nat, added: Channel)
    requires OpenOk(channels, conns) && ConnsOk(conns, |channels|) && added.open
    ensures var grown := channels + [added];
      var now := if conn in conns then grown[conns[conn] := grown[conns[conn]].(open := false)] else grown;
      OpenOk(now, conns[conn := |channels|]) && ConnsOk(conns[conn := |channels|], |channels| + 1)
  {
    var grown := channels + [added];
    var now := if conn in conns then grown[conns[conn] := grown[conns[conn]].(open := false)] else grown;
    var later := conns[conn := |channels|];
    forall k | 0 <= k < |now| ensures now[k].open <==> Held(later, k) {
      if k == |channels| {
        assert conn in later && later[conn] == k;
      } else {
        HeldLater(conns, conn, |channels|, k);
      }
    }
  }

  lemma HeldLater(conns: map<nat, nat>, conn: nat, h: nat, k: nat)
    requires ConnsOk(conns, h) && k < h
    ensures Held(conns[conn := h], k) <==> Held(conns, k) && !(conn in conns && conns[conn] == k)
  {
    var later := conns[conn := h];
    if d :| d in conns && conns[d] == k {
      assert d != conn ==> d in later && later[d] == k;
    }
    if d :| d in later && later[d] == k {
      assert d in conns && conns[d] == k && d != conn;
    }
  }

  /** The new channel holds the CONNACK, which answers the CONNECT. */
  lemma RepliesAfterConnect(channels: seq<Channel>, received: seq<seq<Packet>>, c: ConnectPacket, ack: Packet)
    requires RepliesOk(channels, received) && ReplyTo(Connect(c)) == [ack] && !ack.Publish?
    ensures RepliesOk(channels + [Channel([ack], true)], received + [[Connect(c)]])
  {
    NonPublishSnoc([], ack);
    RepliesSnoc([], Connect(c));
    assert [] + [ack] == [ack] && [] + [Connect(c)] == [Connect(c)];
  }

  lemma ReleaseReplies(b: BrokerState, held: Option<nat>, received: seq<seq<Packet>>)
    requires RepliesOk(b.channels, received)
    ensures RepliesOk(Release(b, held).channels, received)
  {
    var c := Release(b, held);
    assert forall h | 0 <= h < |b.channels| :: c.channels[h].sent == b.channels[h].sent;
  }

  lemma ConnectIsGood(b: BrokerState, c: ConnectPacket, ack: Packet)
    requires Good(b) && Sendable(ack)
    ensures var b2 := Send(Register(b, c), |b.sessions|, ack);
      Good(b2) && b2.channels == b.channels + [Channel([ack], true)]
  {
    RegisterIsGood(b, c);
    SendIsGood(Register(b, c), |b.sessions|, ack);
    assert [] + [ack] == [ack];
    assert Send(Register(b, c), |b.sessions|, ack).channels == b.channels + [Channel([ack], true)];
  }

  lemma ConnectStep(net: Net, conn: nat, c: ConnectPacket)
    requires Inv(net)
    ensures Inv(Next(net, Recv(conn, Connect(c))))
  {
    var ack := Connack(ConnackPacket(!c.cleanSession, Accepted));
    var b2 := Send(Register(net.broker, c), |net.broker.sessions|, ack);
    var held, received := HeldBy(net, conn), net.received + [[Connect(c)]];
    ConnectIsGood(net.broker, c, ack);
    var next := Next(net, Recv(conn, Connect(c)));
    assert next.broker == Release(b2, held) && next.received == received;
    assert Good(next.broker) by { ReleaseIsGood(b2, held); }
    assert RepliesOk(next.broker.channels, next.received) by {
      RepliesAfterConnect(net.broker.channels, net.received, c, ack);
      ReleaseReplies(b2, held, received);
    }
    OpenAfterConnect(net.broker.channels, net.conns, conn, Channel([ack], true));
  }

  lemma UpdateIsGood(b: BrokerState, held: Option<nat>, f: SessionState -> SessionState)
    requires Good(b)
    requires forall s: SessionState ::
      f(s).clientId == s.clientId && (s.pendingQos2 == map[] ==> f(s).pendingQos2 == map[])
    ensures Good(UpdateSession(b, held, f)) && Quiet(b, UpdateSession(b, held, f))
  {
    SameClients(b, UpdateSession(b, held, f));
  }

  lemma AcksKeepQos2Empty(s: SessionState, id: U16)
    requires s.pendingQos2 == map[]
    ensures OnPubrec(s, id).pendingQos2 == map[] && OnPubcomp(s, id).pendingQos2 == map[]
  {
    assert OnPubcomp(s, id).pendingQos2 == map[];
  }

  /** What the broker is when a packet other than CONNECT and DISCONNECT has been acted on and not
      yet answered. */
  function BeforeReply(b: BrokerState, held: Option<nat>, packet: Packet): BrokerState {
    match packet
    case Publish(p) => HandlePublish(b, p)
    case Puback(id) => UpdateSession(b, held, s => OnPuback(s, id))
    case Pubrec(id) => UpdateSession(b, held, s => OnPubrec(s, id))
    case Pubcomp(id) => UpdateSession(b, held, s => OnPubcomp(s, id))
    case Subscribe(p) =>
      if held.Some? && held.value < |b.sessions|
      then b.(table := SubscribeTable(b.table, b.sessions[held.value].clientId, held.value, p.subscriptions))
      else b
    case Unsubscribe(p) =>
      if held.Some? && held.value < |b.sessions|
      then b.(table := UnsubscribeTable(b.table, b.sessions[held.value].clientId, p.topicFilters))
      else b
    case _ => b
  }

  lemma BeforeReplyIsGood(b: BrokerState, held: Option<nat>, packet: Packet)
    requires Good(b)
    ensures Good(BeforeReply(b, held, packet)) && Quiet(b, BeforeReply(b, held, packet))
  {
    match packet
    case Publish(p) => PublishIsGood(b, p);
    case Puback(id) => UpdateIsGood(b, held, s => OnPuback(s, id));
    case Pubrec(id) =>
      forall s: SessionState | s.pendingQos2 == map[] { AcksKeepQos2Empty(s, id); }
      UpdateIsGood(b, held, s => OnPubrec(s, id));
    case Pubcomp(id) =>
      forall s: SessionState | s.pendingQos2 == map[] { AcksKeepQos2Empty(s, id); }
      UpdateIsGood(b, held, s => OnPubcomp(s, id));
    case Subscribe(p) =>
      if held.Some? && held.value < |b.sessions| {
        SubscribeKeepsTable(b, b.table, held.value, p.subscriptions);
        TableIsGood(b, BeforeReply(b, held, packet).table);
      }
    case Unsubscribe(p) =>
      if held.Some? && held.value < |b.sessions| {
        UnsubscribeKeepsTable(b, b.table, b.sessions[held.value].clientId, p.topicFilters);
        TableIsGood(b, BeforeReply(b, held, packet).table);
      }
    case _ =>
  }

  lemma TableIsGood(b: BrokerState, table: Table)
    requires Good(b) && GoodTable(b, table)
    ensures Good(b.(table := table))
  {
    var c := b.(table := table);
    forall slot, x | slot in c.table && x in c.table[slot] ensures GoodSubscriber(c, x) {
      assert GoodSubscriber(b, x);
    }
  }

  predicate Answered(packet: Packet) {
    match packet
    case Connect(_) => false
    case Disconnect => false
    case Connack(_) => false
    case Suback(_) => false
    case Unsuback(_) => false
    case Pingresp => false
    case _ => true
  }

  /** Every packet with an answer is handled as: act, then send the answer if a session is held. */
  lemma HandledAsReply(b: BrokerState, held: Option<nat>, packet: Packet)
    requires Answered(packet) && (held.Some? ==> held.value < |b.sessions|)
    ensures var c := BeforeReply(b, held, packet);
      HandlePacket(b, held, packet) ==
      Handled(if held.Some? && ReplyTo(packet) != [] then Send(c, held.value, ReplyTo(packet)[0]) else c, held, true)
  {
  }

  lemma InvStep(net: Net, e: Event)
    requires Inv(net)
    ensures Inv(Next(net, e))
  {
    var b, held := net.broker, HeldBy(net, e.conn);
    match e
    case Recv(conn, packet) =>
      if packet.Connect? {
        ConnectStep(net, conn, packet.connect);
      } else if Answered(packet) {
        HandledAsReply(b, held, packet);
        BeforeReplyIsGood(b, held, packet);
        if held.Some? {
          ReplyStep(net, conn, packet, BeforeReply(b, held, packet));
        } else {
          Unchanged(net, conn, packet, BeforeReply(b, held, packet));
        }
      } else {
        NoteWithoutReply(net, held, packet);
        if packet.Disconnect? && held.Some? {
          DisconnectIsGood(b, b.sessions[held.value].clientId);
          ReleaseStep(net.(received := Note(net.received, held, packet)), conn,
                      HandleDisconnect(b, b.sessions[held.value].clientId));
        } else {
          ReleaseStep(net.(received := Note(net.received, held, packet)), conn, b);
        }
      }
    case Eof(conn) =>
      if held.Some? {
        DisconnectIsGood(b, b.sessions[held.value].clientId);
        ReleaseStep(net, conn, HandleDisconnect(b, b.sessions[held.value].clientId));
      } else {
        ReleaseStep(net, conn, b);
      }
    case Abort(conn) => ReleaseStep(net, conn, b);
  }

  lemma {:induction false} RunInv(events: seq<Event>)
    ensures Inv(Run(events))
  {
    if events != [] {
      RunInv(events[..|events| - 1]);
      InvStep(Run(events[..|events| - 1]), events[|events| - 1]);
    }
  }

  /** For every run and every session: the non-publish packets ever sent on its channel are, in order,
      the replies to what its connection received from its CONNECT on. */
  lemma RepliesInOrder(events: seq<Event>, h: nat)
    requires h < |Run(events).broker.sessions|
    ensures var net := Run(events);
      && h < |net.broker.channels| && h < |net.received|
      && NonPublish(net.broker.channels[h].sent) == Replies(net.received[h])
  {
    RunInv(events);
  }

  /** In every reachable state: every subscription has QoS 1, nothing waits at QoS 2, every queued
      packet encodes, and a queued publish at QoS > 0 carries a nonzero id. */
  lemma QueuedPacketsEncode(events: seq<Event>)
    ensures var b := Run(events).broker;
      && (forall slot, x | slot in b.table && x in b.table[slot] :: x.qos == AtLeastOnce)
      && (forall h | 0 <= h < |b.sessions| :: b.sessions[h].pendingQos2 == map[])
      && (forall h, i | 0 <= h < |b.channels| && 0 <= i < |b.channels[h].sent| ::
            var packet := b.channels[h].sent[i];
            && EncodePacket(packet).Ok?
            && (packet.Publish? && packet.publish.qos != AtMostOnce ==>
                  packet.publish.packetId.Some? && packet.publish.packetId.value != 0))
  {
    RunInv(events);
    var b := Run(events).broker;
    forall slot, x | slot in b.table && x in b.table[slot] ensures x.qos == AtLeastOnce {
      assert GoodSubscriber(b, x);
    }
    forall h, i | 0 <= h < |b.channels| && 0 <= i < |b.channels[h].sent|
      ensures Sendable(b.channels[h].sent[i]) && EncodePacket(b.channels[h].sent[i]).Ok?
    {
      SendableEncodes(b.channels[h].sent[i]);
    }
  }

  /** In every reachable state a session's channel is open exactly while a connection holds it. */
  lemma OpenWhileHeld(events: seq<Event>, h: nat)
    requires h < |Run(events).broker.channels|
    ensures var net := Run(events);
      net.broker.channels[h].open <==> exists c :: c in net.conns && net.conns[c] == h
  {
    RunInv(events);
  }
}
