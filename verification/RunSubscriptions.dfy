/**
 The subscription table in whole runs of the broker: it is the history of what the SUBSCRIBE,
 UNSUBSCRIBE and DISCONNECT packets of the run asked for, so what a publish matches at any moment can
 be said without the table.
 */
module RunSubscriptions {
  import opened Types
  import opened Levels
  import opened Subscriptions
  import opened SubscriptionProofs
  import opened BrokerSpec

  function AddOps(clientId: Bytes, h: nat, list: seq<(Bytes, QoS)>): seq<Operation> {
    if list == [] then []
    else
      var filter := list[|list| - 1].0;
      AddOps(clientId, h, list[..|list| - 1]) +
      if IsValidTopicFilter(filter) then [AddOp(filter, Subscriber(clientId, h, AtLeastOnce))] else []
  }

  function RemoveOps(clientId: Bytes, filters: seq<Bytes>): seq<Operation> {
    if filters == [] then []
    else RemoveOps(clientId, filters[..|filters| - 1]) + [RemoveOp(filters[|filters| - 1], clientId)]
  }

  /** What one event does to the subscriptions; `clientId` and `h` are the session its connection holds. */
  function OpsOf(e: Event, clientId: Bytes, h: nat): seq<Operation> {
    match e
    case Recv(_, Subscribe(p)) => AddOps(clientId, h, p.subscriptions)
    case Recv(_, Unsubscribe(p)) => RemoveOps(clientId, p.topicFilters)
    case Recv(_, Disconnect) => [RemoveAllOp(clientId)]
    case Eof(_) => [RemoveAllOp(clientId)]
    case _ => []
  }

  /** Every operation of a run, oldest first; a connection without a session asks for nothing. */
  function HistoryOf(events: seq<Event>): seq<Operation> {
    if events == [] then []
    else
      var init, e := events[..|events| - 1], events[|events| - 1];
      var net := Run(init);
      var held := HeldBy(net, e.conn);
      HistoryOf(init) +
      if held.Some? && held.value < |net.broker.sessions|
      then OpsOf(e, net.broker.sessions[held.value].clientId, held.value)
      else []
  }

  // ----- The table of a run is the table of its history -----

  lemma TableAfterOne(history: seq<Operation>, op: Operation)
    ensures TableAfter(history + [op]) == Perform(TableAfter(history), op)
  {
    assert (history + [op])[..|history|] == history;
  }

  lemma {:induction false} SubscribeIsHistory(history: seq<Operation>, clientId: Bytes, h: nat, list: seq<(Bytes, QoS)>)
    ensures SubscribeTable(TableAfter(history), clientId, h, list) == TableAfter(history + AddOps(clientId, h, list))
  {
    if list == [] {
      assert history + [] == history;
    } else {
      var init, filter := list[..|list| - 1], list[|list| - 1].0;
      var before := history + AddOps(clientId, h, init);
      SubscribeIsHistory(history, clientId, h, init);
      if IsValidTopicFilter(filter) {
        var op := AddOp(filter, Subscriber(clientId, h, AtLeastOnce));
        assert history + AddOps(clientId, h, list) == before + [op];
        TableAfterOne(before, op);
      } else {
        assert history + AddOps(clientId, h, list) == before;
      }
    }
  }

  lemma {:induction false} UnsubscribeIsHistory(history: seq<Operation>, clientId: Bytes, filters: seq<Bytes>)
    ensures UnsubscribeTable(TableAfter(history), clientId, filters) ==
            TableAfter(history + RemoveOps(clientId, filters))
  {
    if filters == [] {
      assert history + [] == history;
    } else {
      var init, filter := filters[..|filters| - 1], filters[|filters| - 1];
      var before := history + RemoveOps(clientId, init);
      UnsubscribeIsHistory(history, clientId, init);
      TableAfterOne(before, RemoveOp(filter, clientId));
      assert history + RemoveOps(clientId, filters) == before + [RemoveOp(filter, clientId)];
    }
  }

  lemma {:induction false} DeliverAllKeepsTable(b: BrokerState, p: PublishPacket, subs: seq<Subscriber>)
    ensures DeliverAll(b, p, subs).table == b.table
  {
    if subs != [] {
      DeliverAllKeepsTable(b, p, subs[..|subs| - 1]);
    }
  }

  function Ask(table: Table, e: Event, clientId: Bytes, h: nat): Table {
    match e
    case Recv(_, Subscribe(p)) => SubscribeTable(table, clientId, h, p.subscriptions)
    case Recv(_, Unsubscribe(p)) => UnsubscribeTable(table, clientId, p.topicFilters)
    case Recv(_, Disconnect) => RemoveAll(table, clientId)
    case Eof(_) => RemoveAll(table, clientId)
    case _ => table
  }

  lemma AskIsHistory(history: seq<Operation>, e: Event, clientId: Bytes, h: nat)
    ensures Ask(TableAfter(history), e, clientId, h) == TableAfter(history + OpsOf(e, clientId, h))
  {
    assert history + [] == history;
    TableAfterOne(history, RemoveAllOp(clientId));
    if e.Recv? && e.packet.Subscribe? {
      SubscribeIsHistory(history, clientId, h, e.packet.subscribe.subscriptions);
    } else if e.Recv? && e.packet.Unsubscribe? {
      UnsubscribeIsHistory(history, clientId, e.packet.unsubscribe.topicFilters);
    }
  }

  /** Publishing, acknowledging, connecting and breaking off leave the table alone. */
  lemma TableOfPacket(b: BrokerState, held: Option<nat>, conn: nat, packet: Packet)
    ensures HandlePacket(b, held, packet).broker.table ==
            if held.Some? && held.value < |b.sessions|
            then Ask(b.table, Recv(conn, packet), b.sessions[held.value].clientId, held.value)
            else b.table
  {
    if packet.Publish? {
      DeliverAllKeepsTable(b, packet.publish, Matches(b.table, packet.publish.topicName));
    }
  }

  lemma TableOfNext(net: Net, e: Event)
    ensures var held := HeldBy(net, e.conn);
      Next(net, e).broker.table ==
      if held.Some? && held.value < |net.broker.sessions|
      then Ask(net.broker.table, e, net.broker.sessions[held.value].clientId, held.value)
      else net.broker.table
  {
    if e.Recv? {
      TableOfPacket(net.broker, HeldBy(net, e.conn), e.conn, e.packet);
    }
  }

  lemma {:induction false} RunTableIsHistory(events: seq<Event>)
    ensures Run(events).broker.table == TableAfter(HistoryOf(events))
  {
    if events != [] {
      var init, e := events[..|events| - 1], events[|events| - 1];
      var net := Run(init);
      var held := HeldBy(net, e.conn);
      RunTableIsHistory(init);
      TableOfNext(net, e);
      assert HistoryOf(init) + [] == HistoryOf(init);
      if held.Some? && held.value < |net.broker.sessions| {
        AskIsHistory(HistoryOf(init), e, net.broker.sessions[held.value].clientId, held.value);
      }
    }
  }

  // ----- Only valid filters get in -----

  ghost predicate AddsValid(history: seq<Operation>) {
    forall op | op in history :: op.AddOp? ==> IsValidTopicFilter(op.filter)
  }

  lemma {:induction false} AddOpsValid(clientId: Bytes, h: nat, list: seq<(Bytes, QoS)>)
    ensures AddsValid(AddOps(clientId, h, list))
  {
    if list != [] {
      AddOpsValid(clientId, h, list[..|list| - 1]);
    }
  }

  lemma {:induction false} RemoveOpsValid(clientId: Bytes, filters: seq<Bytes>)
    ensures AddsValid(RemoveOps(clientId, filters))
  {
    if filters != [] {
      RemoveOpsValid(clientId, filters[..|filters| - 1]);
    }
  }

  lemma OpsOfValid(e: Event, clientId: Bytes, h: nat)
    ensures AddsValid(OpsOf(e, clientId, h))
  {
    if e.Recv? && e.packet.Subscribe? {
      AddOpsValid(clientId, h, e.packet.subscribe.subscriptions);
    } else if e.Recv? && e.packet.Unsubscribe? {
      RemoveOpsValid(clientId, e.packet.unsubscribe.topicFilters);
    }
  }

  lemma {:induction false} HistoryValid(events: seq<Event>)
    ensures AddsValid(HistoryOf(events))
  {
    if events != [] {
      var init, e := events[..|events| - 1], events[|events| - 1];
      HistoryValid(init);
      var net := Run(init);
      var held := HeldBy(net, e.conn);
      if held.Some? && held.value < |net.broker.sessions| {
        OpsOfValid(e, net.broker.sessions[held.value].clientId, held.value);
      }
    }
  }

  lemma {:induction false} KeepKeeps(entries: seq<Entry>, p: Entry -> bool, e: Entry)
    requires e in Keep(entries, p)
    ensures e in entries
  {
    if entries != [] && e in Keep(entries[..|entries| - 1], p) {
      KeepKeeps(entries[..|entries| - 1], p, e);
    }
  }

  lemma {:induction false} FlatValid(history: seq<Operation>, e: Entry)
    requires AddsValid(history) && e in FlatAfter(history)
    ensures IsValidTopicFilter(e.filter)
  {
    if history != [] {
      var init, op := history[..|history| - 1], history[|history| - 1];
      var flat := FlatAfter(init);
      match op {
        case AddOp(_, _) => assert op in history;
        case RemoveOp(filter, clientId) =>
          KeepKeeps(flat, (e: Entry) => !(SlotOf(e.filter) == SlotOf(filter) && e.sub.clientId == clientId), e);
        case RemoveAllOp(clientId) => KeepKeeps(flat, (e: Entry) => e.sub.clientId != clientId, e);
      }
      if e in flat {
        FlatValid(init, e);
      }
    }
  }

  lemma RunFlatValid(events: seq<Event>)
    ensures forall e | e in FlatAfter(HistoryOf(events)) :: IsValidTopicFilter(e.filter)
  {
    HistoryValid(events);
    forall e | e in FlatAfter(HistoryOf(events)) ensures IsValidTopicFilter(e.filter) {
      FlatValid(HistoryOf(events), e);
    }
  }

  /** At every moment of every run a topic matches, of the subscriptions asked for and not taken back,
      those that sections 4.7.1 and 4.7.2 of MQTT 3.1.1 match, those whose filter has no `#` and matches
      a proper level-prefix, and those whose filter starts with a wildcard although the topic starts
      with `$`, each as often as it was granted. */
  lemma RunMatchesVersusStandard(events: seq<Event>, topic: Bytes)
    ensures var flat := FlatAfter(HistoryOf(events));
      multiset(Matches(Run(events).broker.table, topic)) ==
      multiset(Subs(flat, Full(topic))) + multiset(Subs(flat, Short(topic))) + multiset(Subs(flat, Leaked(topic)))
  {
    RunTableIsHistory(events);
    RunFlatValid(events);
    MatchesVersusStandard(HistoryOf(events), topic);
  }

  /** So the broker follows the standard on a topic exactly while no such filter is subscribed. */
  lemma RunMatchesAreStandardIff(events: seq<Event>, topic: Bytes)
    ensures var flat := FlatAfter(HistoryOf(events));
      multiset(Matches(Run(events).broker.table, topic)) == multiset(Subs(flat, Full(topic))) <==>
      forall e | e in flat :: !FallsShort(e.filter, topic) && !Leaks(e.filter, topic)
  {
    RunTableIsHistory(events);
    RunFlatValid(events);
    MatchesAreStandardIff(HistoryOf(events), topic);
  }
}
