/**
 Who a publish reaches, and what a SUBACK tells. In every run a publish puts on every open channel
 exactly one copy per match routed there: at QoS 0 to the subscriber's own channel, otherwise to the
 session registered under its client id.
 */
module BrokerDelivery {
  import opened Types
  import opened Levels
  import opened Subscriptions
  import opened SessionSpec
  import opened BrokerSpec
  import opened BrokerInvariants
  import opened BrokerOwnership

  // ----- Exactly one copy per matching subscription -----

  /** A copy of `p` as a subscriber granted QoS 1 gets it; only at QoS > 0 is the packet id replaced. */
  predicate IsCopy(p: PublishPacket, packet: Packet) {
    && packet.Publish?
    && packet.publish == p.(qos := MinQoS(p.qos, AtLeastOnce), packetId := packet.publish.packetId)
    && (if packet.publish.qos == AtMostOnce then packet.publish.packetId == p.packetId
        else packet.publish.packetId.Some? && packet.publish.packetId.value != 0)
  }

  /** `n` copies of `p` came after what the channel had taken, or nothing when it is closed. */
  ghost predicate GotCopies(p: PublishPacket, before: Channel, after: Channel, n: nat) {
    && after.open == before.open
    && before.sent <= after.sent
    && |after.sent| == |before.sent| + (if before.open then n else 0)
    && forall i | |before.sent| <= i < |after.sent| :: IsCopy(p, after.sent[i])
  }

  /** Where a copy for `x` goes. */
  function RouteOf(registry: map<Bytes, nat>, p: PublishPacket, x: Subscriber): Option<nat> {
    if MinQoS(p.qos, x.qos) == AtMostOnce then Some(x.sender)
    else if x.clientId in registry then Some(registry[x.clientId])
    else None
  }

  function CountRouted(registry: map<Bytes, nat>, p: PublishPacket, subs: seq<Subscriber>, h: nat): nat {
    if subs == [] then 0
    else
      var last := |subs| - 1;
      CountRouted(registry, p, subs[..last], h) + if RouteOf(registry, p, subs[last]) == Some(h) then 1 else 0
  }

  function CountFor(subs: seq<Subscriber>, h: nat): nat {
    if subs == [] then 0
    else CountFor(subs[..|subs| - 1], h) + if subs[|subs| - 1].sender == h then 1 else 0
  }

  /** Every handle a copy can be routed to exists. */
  ghost predicate Routable(b: BrokerState, x: Subscriber) {
    && x.qos == AtLeastOnce && x.sender < |b.channels|
    && (x.clientId in b.registry ==> b.registry[x.clientId] < |b.channels|)
  }

  lemma OneCopy(b: BrokerState, p: PublishPacket, x: Subscriber)
    requires |b.sessions| == |b.channels| && Routable(b, x)
    ensures var c := Deliver(b, p, x);
      && |c.channels| == |b.channels| && |c.sessions| == |b.sessions| && c.registry == b.registry
      && forall h | 0 <= h < |b.channels| ::
           if RouteOf(b.registry, p, x) == Some(h) then GotCopies(p, b.channels[h], c.channels[h], 1)
           else c.channels[h] == b.channels[h]
  {
    var q := p.(qos := MinQoS(p.qos, x.qos));
    var c := Deliver(b, p, x);
    if q.qos == AtMostOnce {
      assert c.channels[x.sender] == SendOn(b.channels[x.sender], Publish(q));
    } else if x.clientId in b.registry {
      var to := b.registry[x.clientId];
      var id := NewPacketId(b.sessions[to].nextPacketId).0;
      assert c.channels[to] == SendOn(b.channels[to], Publish(q.(packetId := Some(id))));
    }
  }

  lemma GotMore(p: PublishPacket, a: Channel, b: Channel, c: Channel, n: nat, m: nat)
    requires GotCopies(p, a, b, n) && GotCopies(p, b, c, m)
    ensures GotCopies(p, a, c, n + m)
  {
    forall i | |a.sent| <= i < |c.sent| ensures IsCopy(p, c.sent[i]) {
      assert i < |b.sent| ==> c.sent[i] == b.sent[i];
    }
  }

  lemma {:induction false} DeliverAllCopies(b: BrokerState, p: PublishPacket, subs: seq<Subscriber>)
    requires |b.sessions| == |b.channels| && forall x | x in subs :: Routable(b, x)
    ensures var c := DeliverAll(b, p, subs);
      && |c.channels| == |b.channels| == |c.sessions| && c.registry == b.registry
      && forall h | 0 <= h < |b.channels| ::
           GotCopies(p, b.channels[h], c.channels[h], CountRouted(b.registry, p, subs, h))
  {
    if subs != [] {
      var init, x := subs[..|subs| - 1], subs[|subs| - 1];
      assert x in subs && Routable(b, x);
      DeliverAllCopies(b, p, init);
      var c := DeliverAll(b, p, init);
      OneCopy(c, p, x);
      var d := Deliver(c, p, x);
      forall h | 0 <= h < |b.channels|
        ensures GotCopies(p, b.channels[h], d.channels[h], CountRouted(b.registry, p, subs, h))
      {
        GotMore(p, b.channels[h], c.channels[h], d.channels[h], CountRouted(b.registry, p, init, h),
                if RouteOf(b.registry, p, x) == Some(h) then 1 else 0);
      }
    }
  }

  lemma MatchesAreRoutable(b: BrokerState, topic: Bytes)
    requires Good(b)
    ensures forall x | x in Matches(b.table, topic) :: Routable(b, x)
  {
    MatchesAreGood(b, topic);
    forall x | x in Matches(b.table, topic) ensures Routable(b, x) {
      assert GoodSubscriber(b, x);
    }
  }

  /** In every run a publish leaves on every open channel exactly one copy per match routed to it, and
      nothing on a closed one. */
  lemma PublishReachesEachRoute(events: seq<Event>, p: PublishPacket)
    ensures var b := Run(events).broker;
      var c := HandlePublish(b, p);
      && |c.channels| == |b.channels|
      && forall h | 0 <= h < |b.channels| ::
           GotCopies(p, b.channels[h], c.channels[h], CountRouted(b.registry, p, Matches(b.table, p.topicName), h))
  {
    RunInv(events);
    var b := Run(events).broker;
    MatchesAreRoutable(b, p.topicName);
    DeliverAllCopies(b, p, Matches(b.table, p.topicName));
  }

  lemma {:induction false} OwnRoutes(registry: map<Bytes, nat>, p: PublishPacket, subs: seq<Subscriber>, h: nat)
    requires forall x | x in subs :: Registered(registry, x)
    ensures CountRouted(registry, p, subs, h) == CountFor(subs, h)
  {
    if subs != [] {
      assert subs[|subs| - 1] in subs;
      OwnRoutes(registry, p, subs[..|subs| - 1], h);
    }
  }

  /** While nothing has been disowned that is one copy per matching subscription of the channel. */
  lemma PublishReachesEachSubscription(events: seq<Event>, p: PublishPacket)
    requires NothingDisowned(events)
    ensures var b := Run(events).broker;
      var c := HandlePublish(b, p);
      && |c.channels| == |b.channels|
      && forall h | 0 <= h < |b.channels| ::
           GotCopies(p, b.channels[h], c.channels[h], CountFor(Matches(b.table, p.topicName), h))
  {
    RunOwned(events);
    PublishReachesEachRoute(events, p);
    var b := Run(events).broker;
    var subs := Matches(b.table, p.topicName);
    forall x | x in subs ensures Registered(b.registry, x) {
      GatherMember(b.table, SlotsRead([], Split(p.topicName), 0), x);
    }
    forall h | 0 <= h < |b.channels| ensures CountRouted(b.registry, p, subs, h) == CountFor(subs, h) {
      OwnRoutes(b.registry, p, subs, h);
    }
  }

  // ----- SUBACK against the table -----

  function QoSOfCode(code: SubscribeReturnCode): Option<QoS> {
    match code
    case SuccessQoS0 => Some(AtMostOnce)
    case SuccessQoS1 => Some(AtLeastOnce)
    case SuccessQoS2 => Some(ExactlyOnce)
    case Failure => None
  }

  /** What the return codes promise for one slot: one subscriber per success code of a filter naming
      it, at the QoS the code states. */
  function Promised(clientId: Bytes, h: nat, list: seq<(Bytes, QoS)>, codes: seq<SubscribeReturnCode>, slot: Slot)
    : seq<Subscriber>
    requires |codes| == |list|
  {
    if list == [] then []
    else
      var last := |list| - 1;
      var qos := QoSOfCode(codes[last]);
      Promised(clientId, h, list[..last], codes[..last], slot) +
      if qos.Some? && SlotOf(list[last].0) == slot then [Subscriber(clientId, h, qos.value)] else []
  }

  lemma {:induction false} CodesAnswerFilters(list: seq<(Bytes, QoS)>)
    ensures |ReturnCodes(list)| == |list|
    ensures forall i | 0 <= i < |list| ::
      ReturnCodes(list)[i] == if StandardFilter(list[i].0) then SuccessQoS1 else Failure
  {
    if list != [] {
      CodesAnswerFilters(list[..|list| - 1]);
      ValidFilterIffStandard(list[|list| - 1].0);
    }
  }

  lemma PromisedByLast(clientId: Bytes, h: nat, list: seq<(Bytes, QoS)>, slot: Slot)
    requires list != []
    ensures |ReturnCodes(list)| == |list| && |ReturnCodes(list[..|list| - 1])| == |list| - 1
    ensures var init, filter := list[..|list| - 1], list[|list| - 1].0;
      Promised(clientId, h, list, ReturnCodes(list), slot) ==
      Promised(clientId, h, init, ReturnCodes(init), slot) +
      if IsValidTopicFilter(filter) && SlotOf(filter) == slot then [Subscriber(clientId, h, AtLeastOnce)] else []
  {
    var init := list[..|list| - 1];
    CodesAnswerFilters(list);
    CodesAnswerFilters(init);
    ValidFilterIffStandard(list[|list| - 1].0);
    assert ReturnCodes(list)[..|list| - 1] == ReturnCodes(init);
  }

  lemma {:induction false} TableGrowsAsPromised(table: Table, clientId: Bytes, h: nat, list: seq<(Bytes, QoS)>,
                                                slot: Slot)
    ensures |ReturnCodes(list)| == |list|
    ensures Get(SubscribeTable(table, clientId, h, list), slot) ==
            Get(table, slot) + Promised(clientId, h, list, ReturnCodes(list), slot)
  {
    if list == [] {
      assert Get(table, slot) + [] == Get(table, slot);
    } else {
      TableGrowsAsPromised(table, clientId, h, list[..|list| - 1], slot);
      PromisedByLast(clientId, h, list, slot);
    }
  }

  /** One code per filter, failure exactly at the filters the standard does not allow, and every slot
      grows by exactly what the codes promise. */
  lemma SubackTellsTheTable(table: Table, clientId: Bytes, h: nat, list: seq<(Bytes, QoS)>, slot: Slot)
    ensures |ReturnCodes(list)| == |list|
    ensures forall i | 0 <= i < |list| ::
      ReturnCodes(list)[i] == if StandardFilter(list[i].0) then SuccessQoS1 else Failure
    ensures Get(SubscribeTable(table, clientId, h, list), slot) ==
            Get(table, slot) + Promised(clientId, h, list, ReturnCodes(list), slot)
  {
    CodesAnswerFilters(list);
    TableGrowsAsPromised(table, clientId, h, list, slot);
  }
}
