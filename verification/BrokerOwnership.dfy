/**
 Who is registered, who owns a subscription, and whose channel is open, over whole runs: for each the
 events that break it, so that it holds at every moment exactly when none of them occurs.
 */
module BrokerOwnership {
  import opened Types
  import opened Subscriptions
  import opened SessionSpec
  import opened BrokerSpec
  import opened BrokerInvariants

  /** No CONNECT names a client id that is registered at that moment. */
  predicate NoReuse(events: seq<Event>) {
    events == [] ||
    var init, e := events[..|events| - 1], events[|events| - 1];
    && NoReuse(init)
    && (e.Recv? && e.packet.Connect? ==> e.packet.connect.clientId !in Run(init).broker.registry)
  }

  predicate Registered(registry: map<Bytes, nat>, x: Subscriber) {
    x.clientId in registry && registry[x.clientId] == x.sender
  }

  ghost predicate AllRegistered(registry: map<Bytes, nat>, table: Table) {
    forall slot, x | slot in table && x in table[slot] :: Registered(registry, x)
  }

  ghost predicate HoldersRegistered(b: BrokerState, conns: map<nat, nat>) {
    forall c | c in conns ::
      && conns[c] < |b.sessions|
      && b.sessions[conns[c]].clientId in b.registry
      && b.registry[b.sessions[conns[c]].clientId] == conns[c]
  }

  ghost predicate Owned(b: BrokerState, conns: map<nat, nat>) {
    AllRegistered(b.registry, b.table) && HoldersRegistered(b, conns)
  }

  // ----- Every subscription is its registered session's own -----

  lemma AddRegistered(registry: map<Bytes, nat>, table: Table, slot: Slot, sub: Subscriber)
    requires AllRegistered(registry, table) && Registered(registry, sub)
    ensures AllRegistered(registry, Add(table, slot, sub))
  {
    var now := Add(table, slot, sub);
    forall s, x | s in now && x in now[s] ensures Registered(registry, x) {
      assert x == sub || (s in table && x in table[s]);
    }
  }

  lemma {:induction false} SubscribeRegistered(registry: map<Bytes, nat>, table: Table, clientId: Bytes, h: nat,
                                               list: seq<(Bytes, QoS)>)
    requires AllRegistered(registry, table) && clientId in registry && registry[clientId] == h
    ensures AllRegistered(registry, SubscribeTable(table, clientId, h, list))
  {
    if list != [] {
      var init := list[..|list| - 1];
      SubscribeRegistered(registry, table, clientId, h, init);
      AddRegistered(registry, SubscribeTable(table, clientId, h, init), SlotOf(list[|list| - 1].0),
                    Subscriber(clientId, h, AtLeastOnce));
    }
  }

  lemma {:induction false} UnsubscribeShrinks(table: Table, clientId: Bytes, filters: seq<Bytes>, slot: Slot,
                                              x: Subscriber)
    requires var now := UnsubscribeTable(table, clientId, filters); slot in now && x in now[slot]
    ensures slot in table && x in table[slot]
  {
    if filters != [] {
      var before := UnsubscribeTable(table, clientId, filters[..|filters| - 1]);
      if slot in before {
        WithoutKeeps(before[slot], clientId);
      }
      UnsubscribeShrinks(table, clientId, filters[..|filters| - 1], slot, x);
    }
  }

  lemma UnsubscribeRegistered(registry: map<Bytes, nat>, table: Table, clientId: Bytes, filters: seq<Bytes>)
    requires AllRegistered(registry, table)
    ensures AllRegistered(registry, UnsubscribeTable(table, clientId, filters))
  {
    var now := UnsubscribeTable(table, clientId, filters);
    forall slot, x | slot in now && x in now[slot] ensures Registered(registry, x) {
      UnsubscribeShrinks(table, clientId, filters, slot, x);
    }
  }

  /** Acting on a packet changes neither who is registered nor whose sessions are held. */
  lemma BeforeReplyHolders(b: BrokerState, conns: map<nat, nat>, held: Option<nat>, packet: Packet)
    requires Good(b) && HoldersRegistered(b, conns)
    ensures var c := BeforeReply(b, held, packet); c.registry == b.registry && HoldersRegistered(c, conns)
  {
    if packet.Publish? {
      PublishIsGood(b, packet.publish);
    }
  }

  lemma BeforeReplyTable(b: BrokerState, conns: map<nat, nat>, conn: nat, packet: Packet)
    requires Good(b) && Owned(b, conns)
    ensures var held := if conn in conns then Some(conns[conn]) else None;
      AllRegistered(b.registry, BeforeReply(b, held, packet).table)
  {
    match packet
    case Publish(p) => PublishIsGood(b, p);
    case Subscribe(p) =>
      if conn in conns {
        SubscribeRegistered(b.registry, b.table, b.sessions[conns[conn]].clientId, conns[conn], p.subscriptions);
      }
    case Unsubscribe(p) =>
      if conn in conns {
        UnsubscribeRegistered(b.registry, b.table, b.sessions[conns[conn]].clientId, p.topicFilters);
      }
    case _ =>
  }

  lemma DisconnectOwned(b: BrokerState, conns: map<nat, nat>, conn: nat)
    requires Owned(b, conns) && conn in conns && ConnsOk(conns, |b.sessions|)
    ensures Owned(HandleDisconnect(b, b.sessions[conns[conn]].clientId), conns - {conn})
  {
    var clientId := b.sessions[conns[conn]].clientId;
    var c := HandleDisconnect(b, clientId);
    forall slot, x | slot in c.table && x in c.table[slot] ensures Registered(c.registry, x) {
      GetRemovedAll(b.table, slot, clientId, x);
      assert Registered(b.registry, x);
    }
  }

  lemma FewerHolders(b: BrokerState, channels: seq<Channel>, conns: map<nat, nat>, conn: nat)
    requires Owned(b, conns)
    ensures Owned(b.(channels := channels), conns - {conn}) && Owned(b.(channels := channels), conns)
  {
  }

  /** An answered packet moves only channels after it was acted on, and no connection. */
  lemma AnsweredNext(net: Net, conn: nat, packet: Packet)
    requires Inv(net) && Answered(packet)
    ensures var held := HeldBy(net, conn);
      var now := Next(net, Recv(conn, packet));
      && now.broker == BeforeReply(net.broker, held, packet).(channels := now.broker.channels)
      && now.conns == net.conns
  {
    HandledAsReply(net.broker, HeldBy(net, conn), packet);
  }

  /** DISCONNECT and end of input take the session away. */
  predicate Leaves(net: Net, e: Event) {
    e.conn in net.conns && (e.Eof? || (e.Recv? && e.packet.Disconnect?))
  }

  lemma LeavesNext(net: Net, e: Event)
    requires Inv(net) && Leaves(net, e)
    ensures var now := Next(net, e);
      && now.broker ==
         HandleDisconnect(net.broker, net.broker.sessions[net.conns[e.conn]].clientId).(channels := now.broker.channels)
      && now.conns == net.conns - {e.conn}
  {
  }

  lemma OtherNext(net: Net, e: Event)
    requires Inv(net) && !Leaves(net, e) && (e.Recv? ==> !e.packet.Connect? && !Answered(e.packet))
    ensures var now := Next(net, e);
      now.broker == net.broker.(channels := now.broker.channels) && now.conns == net.conns - {e.conn}
  {
  }

  // ----- Moments of a run -----

  function At(events: seq<Event>, k: nat): Net
    requires k <= |events|
  {
    Run(events[..k])
  }

  lemma AtNext(events: seq<Event>, k: nat)
    requires k < |events|
    ensures At(events, k + 1) == Next(At(events, k), events[k]) && Inv(At(events, k))
  {
    assert events[..k + 1][..k] == events[..k];
    RunInv(events[..k]);
  }

  lemma AtEnds(events: seq<Event>)
    ensures At(events, 0) == EMPTY_NET && At(events, |events|) == Run(events)
  {
    assert events[..|events|] == events;
  }

  // ----- A held session is registered until its client id is taken over -----

  predicate HoldsAs(net: Net, conn: nat, clientId: Bytes) {
    && conn in net.conns && net.conns[conn] < |net.broker.sessions|
    && net.broker.sessions[net.conns[conn]].clientId == clientId
  }

  /** A CONNECT that names a client id some other connection holds. */
  predicate TakesOver(net: Net, e: Event) {
    e.Recv? && e.packet.Connect? &&
    exists d :: d in net.conns && d != e.conn && HoldsAs(net, d, e.packet.connect.clientId)
  }

  predicate NothingTakenOver(events: seq<Event>) {
    forall k | 0 <= k < |events| :: !TakesOver(At(events, k), events[k])
  }

  ghost predicate HeldAreRegistered(net: Net) {
    HoldersRegistered(net.broker, net.conns)
  }

  lemma ConnectHolders(net: Net, conn: nat, c: ConnectPacket)
    requires Inv(net) && HeldAreRegistered(net)
    ensures HeldAreRegistered(Next(net, Recv(conn, Connect(c)))) <==> !TakesOver(net, Recv(conn, Connect(c)))
  {
    var now := Next(net, Recv(conn, Connect(c)));
    assert now.conns == net.conns[conn := |net.broker.sessions|];
    assert now.broker.registry == net.broker.registry[c.clientId := |net.broker.sessions|];
    assert forall h | 0 <= h < |net.broker.sessions| :: now.broker.sessions[h] == net.broker.sessions[h];
    if d :| d in net.conns && d != conn && HoldsAs(net, d, c.clientId) {
      assert d in now.conns && now.conns[d] == net.conns[d];
    }
  }

  lemma LeaveHolders(b: BrokerState, channels: seq<Channel>, conns: map<nat, nat>, conn: nat)
    requires HoldersRegistered(b, conns) && conn in conns && ConnsOk(conns, |b.sessions|)
    ensures var now := HandleDisconnect(b, b.sessions[conns[conn]].clientId);
      HoldersRegistered(now.(channels := channels), conns - {conn})
  {
  }

  /** The only step that leaves a held session unregistered is a takeover. */
  lemma HoldersNext(net: Net, e: Event)
    requires Inv(net) && HeldAreRegistered(net)
    ensures HeldAreRegistered(Next(net, e)) <==> !TakesOver(net, e)
  {
    if e.Recv? && e.packet.Connect? {
      ConnectHolders(net, e.conn, e.packet.connect);
    } else if e.Recv? && Answered(e.packet) {
      AnsweredNext(net, e.conn, e.packet);
      BeforeReplyHolders(net.broker, net.conns, HeldBy(net, e.conn), e.packet);
    } else if Leaves(net, e) {
      LeavesNext(net, e);
      LeaveHolders(net.broker, Next(net, e).broker.channels, net.conns, e.conn);
    } else {
      OtherNext(net, e);
    }
  }

  lemma {:induction false} HoldersUpTo(events: seq<Event>, k: nat)
    requires k <= |events| && forall j | 0 <= j < k :: !TakesOver(At(events, j), events[j])
    ensures HeldAreRegistered(At(events, k))
  {
    AtEnds(events);
    if k > 0 {
      HoldersUpTo(events, k - 1);
      AtNext(events, k - 1);
      HoldersNext(At(events, k - 1), events[k - 1]);
    }
  }

  /** At every moment of a run every held session is registered under its client id, if and only if
      no CONNECT ever names a client id that another connection holds at that moment. */
  lemma HeldStayRegisteredIff(events: seq<Event>)
    ensures (forall k | 0 <= k <= |events| :: HeldAreRegistered(At(events, k))) <==> NothingTakenOver(events)
  {
    if NothingTakenOver(events) {
      forall k | 0 <= k <= |events| ensures HeldAreRegistered(At(events, k)) {
        HoldersUpTo(events, k);
      }
    }
    if forall k | 0 <= k <= |events| :: HeldAreRegistered(At(events, k)) {
      forall k | 0 <= k < |events| ensures !TakesOver(At(events, k), events[k]) {
        AtNext(events, k);
        HoldersNext(At(events, k), events[k]);
        assert HeldAreRegistered(At(events, k + 1));
      }
    }
  }

  // ----- Subscriptions belong to the registered session until a CONNECT disowns them -----

  ghost predicate Subscribed(table: Table, clientId: Bytes) {
    exists slot, x :: slot in table && x in table[slot] && x.clientId == clientId
  }

  /** A CONNECT whose client id another connection holds or the tree has entries for. */
  ghost predicate Disowns(net: Net, e: Event) {
    TakesOver(net, e) ||
    (e.Recv? && e.packet.Connect? && Subscribed(net.broker.table, e.packet.connect.clientId))
  }

  ghost predicate NothingDisowned(events: seq<Event>) {
    forall k | 0 <= k < |events| :: !Disowns(At(events, k), events[k])
  }

  ghost predicate AllOwned(net: Net) {
    Owned(net.broker, net.conns)
  }

  lemma ConnectTable(net: Net, conn: nat, c: ConnectPacket)
    requires Good(net.broker) && AllRegistered(net.broker.registry, net.broker.table)
    ensures var now := Next(net, Recv(conn, Connect(c)));
      AllRegistered(now.broker.registry, now.broker.table) <==> !Subscribed(net.broker.table, c.clientId)
  {
    var now := Next(net, Recv(conn, Connect(c)));
    var table := net.broker.table;
    assert now.broker.table == table;
    assert now.broker.registry == net.broker.registry[c.clientId := |net.broker.sessions|];
    if Subscribed(table, c.clientId) {
      var slot: Slot, x: Subscriber :| slot in table && x in table[slot] && x.clientId == c.clientId;
      assert GoodSubscriber(net.broker, x) && !Registered(now.broker.registry, x);
    } else {
      forall slot, x | slot in table && x in table[slot] ensures Registered(now.broker.registry, x) {
        assert Registered(net.broker.registry, x);
      }
    }
  }

  /** The only step that breaks ownership is such a CONNECT. */
  lemma OwnedNext(net: Net, e: Event)
    requires Inv(net) && AllOwned(net)
    ensures AllOwned(Next(net, e)) <==> !Disowns(net, e)
  {
    var b, held, channels := net.broker, HeldBy(net, e.conn), Next(net, e).broker.channels;
    if e.Recv? && e.packet.Connect? {
      ConnectHolders(net, e.conn, e.packet.connect);
      ConnectTable(net, e.conn, e.packet.connect);
    } else if e.Recv? && Answered(e.packet) {
      AnsweredNext(net, e.conn, e.packet);
      BeforeReplyHolders(b, net.conns, held, e.packet);
      BeforeReplyTable(b, net.conns, e.conn, e.packet);
      FewerHolders(BeforeReply(b, held, e.packet), channels, net.conns, e.conn);
    } else if Leaves(net, e) {
      LeavesNext(net, e);
      var c := HandleDisconnect(b, b.sessions[held.value].clientId);
      DisconnectOwned(b, net.conns, e.conn);
      FewerHolders(c, channels, net.conns - {e.conn}, e.conn);
    } else {
      OtherNext(net, e);
      FewerHolders(b, channels, net.conns, e.conn);
    }
  }

  lemma {:induction false} OwnedUpTo(events: seq<Event>, k: nat)
    requires k <= |events| && forall j | 0 <= j < k :: !Disowns(At(events, j), events[j])
    ensures AllOwned(At(events, k))
  {
    AtEnds(events);
    if k > 0 {
      OwnedUpTo(events, k - 1);
      AtNext(events, k - 1);
      OwnedNext(At(events, k - 1), events[k - 1]);
    }
  }

  /** At every moment of a run every held session is registered and every subscription belongs to the
      session registered under its client id, if and only if at every CONNECT no other connection
      holds that client id and the tree has no entry for it. */
  lemma AlwaysOwnedIff(events: seq<Event>)
    ensures (forall k | 0 <= k <= |events| :: AllOwned(At(events, k))) <==> NothingDisowned(events)
  {
    if NothingDisowned(events) {
      forall k | 0 <= k <= |events| ensures AllOwned(At(events, k)) {
        OwnedUpTo(events, k);
      }
    }
    if forall k | 0 <= k <= |events| :: AllOwned(At(events, k)) {
      forall k | 0 <= k < |events| ensures !Disowns(At(events, k), events[k]) {
        AtNext(events, k);
        OwnedNext(At(events, k), events[k]);
        assert AllOwned(At(events, k + 1));
      }
    }
  }

  lemma RunOwned(events: seq<Event>)
    requires NothingDisowned(events)
    ensures Inv(Run(events)) && AllOwned(Run(events))
  {
    RunInv(events);
    AlwaysOwnedIff(events);
    AtEnds(events);
  }

  lemma DisownedLast(init: seq<Event>, e: Event)
    requires NothingDisowned(init) && !Disowns(Run(init), e)
    ensures NothingDisowned(init + [e])
  {
    var events := init + [e];
    forall k | 0 <= k < |events| ensures !Disowns(At(events, k), events[k]) {
      assert events[..k] == init[..k];
      if k < |init| {
        assert At(events, k) == At(init, k) && events[k] == init[k];
      } else {
        AtEnds(init);
      }
    }
  }

  lemma OwnedIsNotTakenOver(events: seq<Event>)
    requires NothingDisowned(events)
    ensures NothingTakenOver(events)
  {
    forall k | 0 <= k < |events| ensures !TakesOver(At(events, k), events[k]) {
      assert !Disowns(At(events, k), events[k]);
    }
  }

  /** Not reusing registered client ids is enough. */
  lemma {:induction false} NoReuseDisownsNothing(events: seq<Event>)
    requires NoReuse(events)
    ensures NothingDisowned(events) && NothingTakenOver(events)
  {
    if events != [] {
      var init, e := events[..|events| - 1], events[|events| - 1];
      NoReuseDisownsNothing(init);
      RunOwned(init);
      UnregisteredIsFree(Run(init), e);
      DisownedLast(init, e);
      assert init + [e] == events;
    }
    OwnedIsNotTakenOver(events);
  }

  lemma UnregisteredIsFree(net: Net, e: Event)
    requires AllOwned(net)
    requires e.Recv? && e.packet.Connect? ==> e.packet.connect.clientId !in net.broker.registry
    ensures !Disowns(net, e)
  {
    var table := net.broker.table;
    forall slot: Slot, x: Subscriber | slot in table && x in table[slot] ensures x.clientId in net.broker.registry {
      assert Registered(net.broker.registry, x);
    }
  }

  /** The subscriber's client is registered with the session that owns the subscriber's channel. */
  ghost predicate OwnsItsChannel(b: BrokerState, x: Subscriber) {
    && x.clientId in b.registry && b.registry[x.clientId] == x.sender
    && x.sender < |b.sessions| && b.sessions[x.sender].clientId == x.clientId
  }

  lemma SubscriptionsAreOwned(events: seq<Event>)
    requires NothingDisowned(events)
    ensures var b := Run(events).broker;
      forall slot, x | slot in b.table && x in b.table[slot] :: OwnsItsChannel(b, x)
  {
    RunOwned(events);
    var b := Run(events).broker;
    forall slot, x | slot in b.table && x in b.table[slot] ensures OwnsItsChannel(b, x) {
      assert Registered(b.registry, x) && GoodSubscriber(b, x);
    }
  }

  /** Two connections under one client id: the first one's session is held and no longer registered. */
  lemma TakeoverWitness(c: ConnectPacket)
    ensures var events := [Recv(0, Connect(c)), Recv(1, Connect(c))];
      !NothingTakenOver(events) && !HeldAreRegistered(Run(events)) && HoldsAs(Run(events), 0, c.clientId)
  {
    var one := [Recv(0, Connect(c))];
    var events := one + [Recv(1, Connect(c))];
    assert one[..0] == [] && events[..1] == one;
    assert Run(one) == Next(EMPTY_NET, one[0]);
    assert Run(events) == Next(Run(one), events[1]);
    assert HoldsAs(Run(one), 0, c.clientId) && HoldsAs(Run(events), 0, c.clientId);
    assert TakesOver(At(events, 1), events[1]);
    assert Run(events).broker.registry[c.clientId] == 1;
    assert events == [Recv(0, Connect(c)), Recv(1, Connect(c))];
  }

  /** Reusing a client id can be harmless: nobody holds the first session when the second one comes. */
  lemma HarmlessReuse(c: ConnectPacket)
    ensures var events := [Recv(0, Connect(c)), Abort(0), Recv(1, Connect(c))];
      NothingDisowned(events) && !NoReuse(events)
  {
    var one := [Recv(0, Connect(c))];
    var two := one + [Abort(0)];
    var events := two + [Recv(1, Connect(c))];
    assert one[..0] == [] && two[..1] == one && events[..2] == two && events[..1] == one && events[..0] == [];
    assert Run(one) == Next(EMPTY_NET, one[0]) && Run(two) == Next(Run(one), two[1]);
    assert Run(two).broker.table == map[] && Run(two).conns == map[];
    assert c.clientId in Run(two).broker.registry;
    assert !Disowns(At(events, 0), events[0]) && !Disowns(At(events, 1), events[1]);
    assert !Disowns(At(events, 2), events[2]);
    assert events == [Recv(0, Connect(c)), Abort(0), Recv(1, Connect(c))];
  }

  /** When the earlier connection ends after `conn` connected, the new registration goes exactly if the
      earlier one held the same client id; the new connection keeps its session either way. */
  lemma ReuseRemovesTheNewSession(events: seq<Event>, earlier: nat, conn: nat, c: ConnectPacket)
    requires earlier != conn
    ensures var now := Run(events + [Recv(conn, Connect(c))] + [Eof(earlier)]);
      && (c.clientId !in now.broker.registry <==> HoldsAs(Run(events), earlier, c.clientId))
      && (c.clientId in now.broker.registry ==> now.broker.registry[c.clientId] == |Run(events).broker.sessions|)
      && conn in now.conns && now.conns[conn] == |Run(events).broker.sessions|
  {
    RunInv(events);
    var one := events + [Recv(conn, Connect(c))];
    assert one[..|events|] == events;
    assert (one + [Eof(earlier)])[..|one|] == one;
    var net, next := Run(events), Run(one);
    assert next.broker.registry == net.broker.registry[c.clientId := |net.broker.sessions|];
    if earlier in net.conns {
      assert next.conns[earlier] == net.conns[earlier];
      assert next.broker.sessions[next.conns[earlier]].clientId == net.broker.sessions[net.conns[earlier]].clientId;
    }
  }

  /** After a disconnect the client is in neither structure. */
  lemma DisconnectRemovesClient(b: BrokerState, clientId: Bytes)
    ensures var c := HandleDisconnect(b, clientId);
      && clientId !in c.registry
      && (forall slot, x | slot in c.table && x in c.table[slot] :: x.clientId != clientId)
      && (forall k | k in b.registry && k != clientId :: k in c.registry && c.registry[k] == b.registry[k])
      && (forall slot :: Get(c.table, slot) == Without(Get(b.table, slot), clientId))
  {
    var c := HandleDisconnect(b, clientId);
    forall slot, x | slot in c.table && x in c.table[slot] ensures x.clientId != clientId {
      WithoutKeeps(b.table[slot], clientId);
    }
    forall slot ensures Get(c.table, slot) == Without(Get(b.table, slot), clientId) {
      GetRemoveAll(b.table, clientId, slot);
    }
  }

  // ----- Which registered sessions have an open channel -----

  ghost predicate AllHeld(net: Net) {
    forall k | k in net.broker.registry :: Held(net.conns, net.broker.registry[k])
  }

  ghost predicate AllOpen(b: BrokerState) {
    forall k | k in b.registry :: b.registry[k] < |b.channels| && b.channels[b.registry[k]].open
  }

  lemma OpenMeansHeld(net: Net)
    requires Inv(net)
    ensures AllOpen(net.broker) <==> AllHeld(net)
  {
  }

  /** An event after which the connection no longer reads for its session, other than DISCONNECT and
      end of input. */
  predicate Unclean(e: Event) {
    e.Abort? || (e.Recv? && !e.packet.Disconnect? && !Answered(e.packet))
  }

  /** The connection lets go of a session that stays registered. */
  predicate Strands(net: Net, e: Event) {
    Unclean(e) && e.conn in net.conns &&
    var h := net.conns[e.conn];
    h < |net.broker.sessions| &&
    var id := net.broker.sessions[h].clientId;
    && id in net.broker.registry && net.broker.registry[id] == h
    && !(e.Recv? && e.packet.Connect? && e.packet.connect.clientId == id)
  }

  predicate NothingStranded(events: seq<Event>) {
    forall k | 0 <= k < |events| :: !Strands(At(events, k), events[k])
  }

  /** A held session stays held while its connection does. */
  lemma StaysHeld(before: map<nat, nat>, after: map<nat, nat>, conn: nat, h: nat)
    requires Held(before, h) && (conn in before ==> before[conn] != h)
    requires forall c | c in before && c != conn :: c in after && after[c] == before[c]
    ensures Held(after, h)
  {
    var c :| c in before && before[c] == h;
    assert c in after && after[c] == h;
  }

  lemma ConnectHeld(net: Net, conn: nat, c: ConnectPacket)
    requires Inv(net) && AllHeld(net)
    ensures AllHeld(Next(net, Recv(conn, Connect(c)))) <==> !Strands(net, Recv(conn, Connect(c)))
  {
    var now := Next(net, Recv(conn, Connect(c)));
    var added := |net.broker.sessions|;
    assert now.conns == net.conns[conn := added] && now.broker.registry == net.broker.registry[c.clientId := added];
    assert conn in now.conns && now.conns[conn] == added;
    if Strands(net, Recv(conn, Connect(c))) {
      var id := net.broker.sessions[net.conns[conn]].clientId;
      assert id in now.broker.registry && now.broker.registry[id] == net.conns[conn];
    } else {
      forall k | k in now.broker.registry ensures Held(now.conns, now.broker.registry[k]) {
        if k != c.clientId {
          LetGo(net, conn, now.conns, k);
        }
      }
    }
  }

  lemma LetGo(net: Net, conn: nat, after: map<nat, nat>, k: Bytes)
    requires Inv(net) && AllHeld(net) && k in net.broker.registry
    requires forall c | c in net.conns && c != conn :: c in after && after[c] == net.conns[c]
    requires conn in net.conns ==> net.broker.registry[k] != net.conns[conn]
    ensures Held(after, net.broker.registry[k])
  {
    StaysHeld(net.conns, after, conn, net.broker.registry[k]);
  }

  lemma BreakOffHeld(net: Net, conn: nat, channels: seq<Channel>)
    requires Inv(net) && AllHeld(net)
    ensures AllHeld(Net(net.broker.(channels := channels), net.conns - {conn}, net.received)) <==>
            !Strands(net, Abort(conn))
  {
    var after := net.conns - {conn};
    if Strands(net, Abort(conn)) {
      assert !Held(after, net.conns[conn]);
    } else {
      forall k | k in net.broker.registry ensures Held(after, net.broker.registry[k]) {
        LetGo(net, conn, after, k);
      }
    }
  }

  lemma LeaveHeld(net: Net, conn: nat)
    requires Inv(net) && AllHeld(net) && conn in net.conns
    ensures var registry := net.broker.registry - {net.broker.sessions[net.conns[conn]].clientId};
      forall k | k in registry :: Held(net.conns - {conn}, registry[k])
  {
    var registry := net.broker.registry - {net.broker.sessions[net.conns[conn]].clientId};
    forall k | k in registry ensures Held(net.conns - {conn}, registry[k]) {
      LetGo(net, conn, net.conns - {conn}, k);
    }
  }

  /** The only step that leaves a registered session without a connection is one that strands it. */
  lemma AllHeldNext(net: Net, e: Event)
    requires Inv(net) && AllHeld(net)
    ensures AllHeld(Next(net, e)) <==> !Strands(net, e)
  {
    if e.Recv? && Answered(e.packet) {
      AnsweredNext(net, e.conn, e.packet);
      BeforeReplyRegistry(net.broker, HeldBy(net, e.conn), e.packet);
    } else if e.Recv? && e.packet.Connect? {
      ConnectHeld(net, e.conn, e.packet.connect);
    } else if Leaves(net, e) {
      LeavesNext(net, e);
      LeaveHeld(net, e.conn);
    } else {
      OtherNext(net, e);
      BreakOffHeld(net, e.conn, Next(net, e).broker.channels);
    }
  }

  lemma BeforeReplyRegistry(b: BrokerState, held: Option<nat>, packet: Packet)
    requires Good(b)
    ensures BeforeReply(b, held, packet).registry == b.registry
  {
    if packet.Publish? {
      PublishIsGood(b, packet.publish);
    }
  }

  lemma {:induction false} HeldUpTo(events: seq<Event>, k: nat)
    requires k <= |events| && forall j | 0 <= j < k :: !Strands(At(events, j), events[j])
    ensures AllHeld(At(events, k))
  {
    AtEnds(events);
    if k > 0 {
      HeldUpTo(events, k - 1);
      AtNext(events, k - 1);
      AllHeldNext(At(events, k - 1), events[k - 1]);
    }
  }

  /** At every moment of a run every registered session's channel is open, if and only if no connection
      ever lets go of a registered session by breaking off or by a CONNECT under another client id. */
  lemma RegisteredStayOpenIff(events: seq<Event>)
    ensures (forall k | 0 <= k <= |events| :: AllOpen(At(events, k).broker)) <==> NothingStranded(events)
  {
    forall k | 0 <= k <= |events| ensures AllOpen(At(events, k).broker) <==> AllHeld(At(events, k)) {
      RunInv(events[..k]);
      OpenMeansHeld(At(events, k));
    }
    if NothingStranded(events) {
      forall k | 0 <= k <= |events| ensures AllHeld(At(events, k)) {
        HeldUpTo(events, k);
      }
    }
    if forall k | 0 <= k <= |events| :: AllOpen(At(events, k).broker) {
      forall k | 0 <= k < |events| ensures !Strands(At(events, k), events[k]) {
        AtNext(events, k);
        AllHeldNext(At(events, k), events[k]);
        assert AllOpen(At(events, k + 1).broker);
      }
    }
  }

  /** No connection that holds a session breaks off or sends a second CONNECT. */
  predicate EndsCleanly(events: seq<Event>) {
    events == [] ||
    var init, e := events[..|events| - 1], events[|events| - 1];
    EndsCleanly(init) && (e.conn in Run(init).conns ==> !Unclean(e))
  }

  /** Without reuse nobody takes a stranded registration up again. */
  lemma StaysStranded(net: Net, e: Event)
    requires Inv(net) && AllOwned(net) && !AllHeld(net)
    requires e.Recv? && e.packet.Connect? ==> e.packet.connect.clientId !in net.broker.registry
    ensures !AllHeld(Next(net, e))
  {
    var k :| k in net.broker.registry && !Held(net.conns, net.broker.registry[k]);
    var now := Next(net, e);
    if e.Recv? && Answered(e.packet) {
      AnsweredNext(net, e.conn, e.packet);
      BeforeReplyRegistry(net.broker, HeldBy(net, e.conn), e.packet);
    } else if e.Recv? && e.packet.Connect? {
      assert now.broker.registry == net.broker.registry[e.packet.connect.clientId := |net.broker.sessions|];
      assert now.conns == net.conns[e.conn := |net.broker.sessions|];
    } else if Leaves(net, e) {
      LeavesNext(net, e);
      assert Held(net.conns, net.conns[e.conn]);
    } else {
      OtherNext(net, e);
    }
    assert k in now.broker.registry && !Held(now.conns, now.broker.registry[k]);
  }

  /** Without reuse, every registered session's channel is open exactly when no connection that held a
      session broke off or connected again. */
  lemma {:induction false} RegisteredChannelsAreOpen(events: seq<Event>)
    requires NoReuse(events)
    ensures AllOpen(Run(events).broker) <==> EndsCleanly(events)
  {
    RunInv(events);
    OpenMeansHeld(Run(events));
    if events != [] {
      var init, e := events[..|events| - 1], events[|events| - 1];
      RegisteredChannelsAreOpen(init);
      NoReuseDisownsNothing(init);
      RunOwned(init);
      OpenMeansHeld(Run(init));
      if AllHeld(Run(init)) {
        AllHeldNext(Run(init), e);
      } else {
        StaysStranded(Run(init), e);
      }
    }
  }

  lemma StillRegistered(events: seq<Event>, conn: nat)
    requires NothingTakenOver(events) && conn in Run(events).conns
    ensures var net := Run(events);
      && net.conns[conn] < |net.broker.sessions|
      && var id := net.broker.sessions[net.conns[conn]].clientId;
         id in net.broker.registry && net.broker.registry[id] == net.conns[conn]
  {
    HeldStayRegisteredIff(events);
    AtEnds(events);
    assert HeldAreRegistered(At(events, |events|));
  }

  /** Breaking off leaves registration and subscriptions in place over a closed channel. */
  lemma AbortStrandsSession(events: seq<Event>, conn: nat)
    requires conn in Run(events).conns
    ensures var net := Run(events);
      var now := Run(events + [Abort(conn)]);
      var h := net.conns[conn];
      && h < |net.broker.sessions| && h < |now.broker.channels| && !now.broker.channels[h].open
      && now.broker.registry == net.broker.registry && now.broker.table == net.broker.table
      && var id := net.broker.sessions[h].clientId;
         NothingTakenOver(events) ==> id in now.broker.registry && now.broker.registry[id] == h
  {
    RunInv(events);
    if NothingTakenOver(events) {
      StillRegistered(events, conn);
    }
    assert (events + [Abort(conn)])[..|events|] == events;
  }

  /** So does a second CONNECT on the same connection under another client id. */
  lemma SecondConnectStrandsSession(events: seq<Event>, conn: nat, c: ConnectPacket)
    requires conn in Run(events).conns
    ensures var net := Run(events);
      var now := Run(events + [Recv(conn, Connect(c))]);
      var h := net.conns[conn];
      && h < |net.broker.sessions| && h < |now.broker.channels| && !now.broker.channels[h].open
      && now.broker.table == net.broker.table
      && (forall k | k in net.broker.registry && k != c.clientId ::
            k in now.broker.registry && now.broker.registry[k] == net.broker.registry[k])
      && var id := net.broker.sessions[h].clientId;
         NothingTakenOver(events) && id != c.clientId ==> id in now.broker.registry && now.broker.registry[id] == h
  {
    RunInv(events);
    if NothingTakenOver(events) {
      StillRegistered(events, conn);
    }
    assert (events + [Recv(conn, Connect(c))])[..|events|] == events;
  }
}
