/**
 One channel and one session over a whole run of the broker: the channel's contents are, in order, the
 copies of matched publishes and the replies; the session is the stand-alone session machine run on
 the operations that concern it.
 */
module Transcripts {
  import opened Types
  import opened Subscriptions
  import opened SessionSpec
  import opened BrokerSpec
  import opened BrokerInvariants
  import opened BrokerDelivery
  import Machine = SessionProofs

  // ----- Everything a channel takes -----

  /** A packet without the id a session stamps on a publish. */
  function Unstamped(packet: Packet): Packet {
    if packet.Publish? then Publish(packet.publish.(packetId := None)) else packet
  }

  function UnstampedAll(packets: seq<Packet>): seq<Packet> {
    seq(|packets|, i requires 0 <= i < |packets| => Unstamped(packets[i]))
  }

  /** Copies of `p` at the QoS granted. */
  function Copies(p: PublishPacket, n: nat): seq<Packet> {
    seq(n, i => Publish(p.(qos := MinQoS(p.qos, AtLeastOnce), packetId := None)))
  }

  /** A publish by anyone adds one copy per match routed to an open channel. */
  function PublishedTo(net: Net, e: Event, h: nat): seq<Packet> {
    if e.Recv? && e.packet.Publish? && h < |net.broker.channels| && net.broker.channels[h].open then
      var p := e.packet.publish;
      Copies(p, CountRouted(net.broker.registry, p, Matches(net.broker.table, p.topicName), h))
    else []
  }

  /** A packet of its own connection adds the reply; a CONNECT opens the next channel with a CONNACK. */
  function RepliedTo(net: Net, e: Event, h: nat): seq<Packet> {
    if !e.Recv? then []
    else if e.packet.Connect? then if h == |net.broker.channels| then ReplyTo(e.packet) else []
    else if HeldBy(net, e.conn) == Some(h) then ReplyTo(e.packet)
    else []
  }

  function Transcript(events: seq<Event>, h: nat): seq<Packet> {
    if events == [] then []
    else
      var init, e := events[..|events| - 1], events[|events| - 1];
      Transcript(init, h) + (PublishedTo(Run(init), e, h) + RepliedTo(Run(init), e, h))
  }

  lemma UnstampedConcat(a: seq<Packet>, b: seq<Packet>)
    ensures UnstampedAll(a + b) == UnstampedAll(a) + UnstampedAll(b)
  {
  }

  lemma CopiesUnstamped(p: PublishPacket, before: Channel, after: Channel, n: nat)
    requires GotCopies(p, before, after, n)
    ensures UnstampedAll(after.sent) == UnstampedAll(before.sent) + if before.open then Copies(p, n) else []
  {
    var added := after.sent[|before.sent|..];
    assert after.sent == before.sent + added;
    UnstampedConcat(before.sent, added);
    forall i | 0 <= i < |added| ensures Unstamped(added[i]) == Copies(p, |added|)[i] {
      assert IsCopy(p, after.sent[|before.sent| + i]);
    }
    assert UnstampedAll(added) == Copies(p, |added|);
  }

  /** What is on channel `h` of `channels`, nothing before it exists. */
  function SentOn(channels: seq<Channel>, h: nat): seq<Packet> {
    if h < |channels| then UnstampedAll(channels[h].sent) else []
  }

  lemma BeforeReplySent(net: Net, conn: nat, packet: Packet, h: nat)
    requires Inv(net) && Answered(packet)
    ensures var c := BeforeReply(net.broker, HeldBy(net, conn), packet);
      && |c.channels| == |net.broker.channels|
      && (h < |c.channels| ==> c.channels[h].open == net.broker.channels[h].open)
      && SentOn(c.channels, h) == SentOn(net.broker.channels, h) + PublishedTo(net, Recv(conn, packet), h)
  {
    var b := net.broker;
    assert SentOn(b.channels, h) + [] == SentOn(b.channels, h);
    if packet.Publish? {
      var p := packet.publish;
      var subs := Matches(b.table, p.topicName);
      MatchesAreRoutable(b, p.topicName);
      DeliverAllCopies(b, p, subs);
      if h < |b.channels| {
        CopiesUnstamped(p, b.channels[h], HandlePublish(b, p).channels[h], CountRouted(b.registry, p, subs, h));
      }
    }
  }

  lemma ReplySent(channels: seq<Channel>, h: nat, to: nat, reply: Packet)
    requires to < |channels| && channels[to].open && !reply.Publish?
    ensures SentOn(channels[to := SendOn(channels[to], reply)], h) ==
            SentOn(channels, h) + if h == to then [reply] else []
  {
    if h == to {
      UnstampedConcat(channels[to].sent, [reply]);
    }
  }

  lemma AnsweredSent(net: Net, conn: nat, packet: Packet, h: nat)
    requires Inv(net) && Answered(packet)
    ensures var e := Recv(conn, packet);
      SentOn(Next(net, e).broker.channels, h) ==
      SentOn(net.broker.channels, h) + (PublishedTo(net, e, h) + RepliedTo(net, e, h))
  {
    var held, e := HeldBy(net, conn), Recv(conn, packet);
    var c := BeforeReply(net.broker, held, packet);
    HandledAsReply(net.broker, held, packet);
    BeforeReplySent(net, conn, packet, h);
    if held.Some? && ReplyTo(packet) != [] {
      var to, reply := held.value, ReplyTo(packet)[0];
      assert Held(net.conns, to);
      BeforeReplySent(net, conn, packet, to);
      ReplySent(c.channels, h, to, reply);
      assert ReplyTo(packet) == [reply];
    }
    Regroup(SentOn(net.broker.channels, h), PublishedTo(net, e, h), RepliedTo(net, e, h));
  }

  lemma Regroup(a: seq<Packet>, b: seq<Packet>, c: seq<Packet>)
    ensures a + (b + c) == (a + b) + c && a + [] == a
  {
  }

  lemma ConnectSent(net: Net, conn: nat, c: ConnectPacket, h: nat)
    requires Inv(net)
    ensures var e := Recv(conn, Connect(c));
      SentOn(Next(net, e).broker.channels, h) ==
      SentOn(net.broker.channels, h) + (PublishedTo(net, e, h) + RepliedTo(net, e, h))
  {
    var e, ack := Recv(conn, Connect(c)), Connack(ConnackPacket(!c.cleanSession, Accepted));
    ConnectIsGood(net.broker, c, ack);
    var b2 := Send(Register(net.broker, c), |net.broker.sessions|, ack);
    var now := Next(net, e).broker;
    assert now == Release(b2, HeldBy(net, conn));
    assert h < |now.channels| ==> now.channels[h].sent == b2.channels[h].sent;
    assert UnstampedAll([ack]) == [ack];
    assert [] + ([] + [ack]) == [ack];
    Regroup(SentOn(net.broker.channels, h), [], RepliedTo(net, e, h));
  }

  lemma NextSent(net: Net, e: Event, h: nat)
    requires Inv(net)
    ensures SentOn(Next(net, e).broker.channels, h) ==
            SentOn(net.broker.channels, h) + (PublishedTo(net, e, h) + RepliedTo(net, e, h))
  {
    if e.Recv? && e.packet.Connect? {
      ConnectSent(net, e.conn, e.packet.connect, h);
    } else if e.Recv? && Answered(e.packet) {
      AnsweredSent(net, e.conn, e.packet, h);
    } else {
      var now := Next(net, e).broker;
      assert |now.channels| == |net.broker.channels|;
      assert h < |now.channels| ==> now.channels[h].sent == net.broker.channels[h].sent;
      Regroup(SentOn(net.broker.channels, h), [], []);
    }
  }

  /** For every run and every channel: what it ever took is, in order, a copy of every publish of the
      run for each match routed to it while it was open, and the replies to its own connection; only
      the ids on the publishes are left open. */
  lemma {:induction false} ChannelIsTranscript(events: seq<Event>, h: nat)
    ensures SentOn(Run(events).broker.channels, h) == Transcript(events, h)
  {
    if events != [] {
      var init := events[..|events| - 1];
      ChannelIsTranscript(init, h);
      RunInv(init);
      NextSent(Run(init), events[|events| - 1], h);
    }
  }

  // ----- A session of the broker is a run of the session machine -----

  function Times(op: Machine.Op, n: nat): seq<Machine.Op> {
    if n == 0 then [] else Times(op, n - 1) + [op]
  }

  /** What one event asks of session `h`. */
  function OpsFor(net: Net, e: Event, h: nat): seq<Machine.Op> {
    var mine := HeldBy(net, e.conn) == Some(h);
    match e
    case Eof(_) => if mine then [Machine.DropReceiver] else []
    case Abort(_) => if mine then [Machine.DropReceiver] else []
    case Recv(_, packet) =>
      match packet
      case Publish(p) =>
        if p.qos != AtMostOnce && h < |net.broker.sessions| then
          var n := CountRouted(net.broker.registry, p, Matches(net.broker.table, p.topicName), h);
          Times(Machine.EnqueueOp(p.(qos := AtLeastOnce)), n)
        else []
      case Puback(id) => if mine then [Machine.PubackOp(id)] else []
      case Pubrec(id) => if mine then [Machine.PubrecOp(id)] else []
      case Pubcomp(id) => if mine then [Machine.PubcompOp(id)] else []
      case _ => if mine && !Answered(packet) then [Machine.DropReceiver] else []
  }

  function OpsOfSession(events: seq<Event>, h: nat): seq<Machine.Op> {
    if events == [] then []
    else
      var init := events[..|events| - 1];
      OpsOfSession(init, h) + OpsFor(Run(init), events[|events| - 1], h)
  }

  /** The session and the state of its receiver, as far as the machine knows them. */
  ghost predicate Mirrors(st: Machine.State, s: SessionState, open: bool) {
    st.session == s && st.channel.open == open
  }

  lemma MachineOne(start: SessionState, ops: seq<Machine.Op>, op: Machine.Op)
    ensures Machine.Run(start, ops + [op]) == Machine.Step(Machine.Run(start, ops), op)
  {
    assert (ops + [op])[..|ops|] == ops;
  }

  /** The session after `n` equal enqueues. */
  function EnqueuedTimes(s: SessionState, open: bool, q: PublishPacket, n: nat): SessionState {
    if n == 0 then s else Enqueue(EnqueuedTimes(s, open, q, n - 1), Channel([], open), q).0
  }

  lemma {:induction false} MachineTimes(start: SessionState, ops: seq<Machine.Op>, q: PublishPacket, n: nat,
                                        s: SessionState, open: bool)
    requires Mirrors(Machine.Run(start, ops), s, open)
    ensures Mirrors(Machine.Run(start, ops + Times(Machine.EnqueueOp(q), n)), EnqueuedTimes(s, open, q, n), open)
  {
    var now := ops + Times(Machine.EnqueueOp(q), n);
    if n == 0 {
      assert now == ops;
    } else {
      var before := ops + Times(Machine.EnqueueOp(q), n - 1);
      MachineTimes(start, ops, q, n - 1, s, open);
      MachineOne(start, before, Machine.EnqueueOp(q));
      assert now == before + [Machine.EnqueueOp(q)];
    }
  }

  lemma DeliverToSession(b: BrokerState, p: PublishPacket, x: Subscriber, h: nat)
    requires |b.sessions| == |b.channels| && h < |b.sessions| && Routable(b, x)
    ensures var c := Deliver(b, p, x);
      && |c.sessions| == |b.sessions| && c.channels[h].open == b.channels[h].open
      && c.sessions[h] ==
         if p.qos != AtMostOnce && RouteOf(b.registry, p, x) == Some(h)
         then Enqueue(b.sessions[h], Channel([], b.channels[h].open), p.(qos := AtLeastOnce)).0
         else b.sessions[h]
  {
  }

  lemma {:induction false} DeliverAllToSession(b: BrokerState, p: PublishPacket, subs: seq<Subscriber>, h: nat)
    requires |b.sessions| == |b.channels| && h < |b.sessions| && forall x | x in subs :: Routable(b, x)
    ensures var c := DeliverAll(b, p, subs);
      && |c.sessions| == |b.sessions| == |c.channels| && c.registry == b.registry
      && c.channels[h].open == b.channels[h].open
      && c.sessions[h] ==
         if p.qos != AtMostOnce
         then EnqueuedTimes(b.sessions[h], b.channels[h].open, p.(qos := AtLeastOnce),
                            CountRouted(b.registry, p, subs, h))
         else b.sessions[h]
  {
    if subs != [] {
      var init, x := subs[..|subs| - 1], subs[|subs| - 1];
      assert x in subs && Routable(b, x);
      DeliverAllToSession(b, p, init, h);
      DeliverAllCopies(b, p, init);
      DeliverToSession(DeliverAll(b, p, init), p, x, h);
    }
  }

  /** What an event makes of session `h` and its receiver. */
  function SessionNext(net: Net, e: Event, h: nat): (SessionState, bool)
    requires h < |net.broker.sessions| && h < |net.broker.channels|
  {
    var s, open := net.broker.sessions[h], net.broker.channels[h].open;
    var mine := HeldBy(net, e.conn) == Some(h);
    match e
    case Eof(_) => (s, open && !mine)
    case Abort(_) => (s, open && !mine)
    case Recv(_, packet) =>
      match packet
      case Publish(p) =>
        if p.qos != AtMostOnce then
          var n := CountRouted(net.broker.registry, p, Matches(net.broker.table, p.topicName), h);
          (EnqueuedTimes(s, open, p.(qos := AtLeastOnce), n), open)
        else (s, open)
      case Puback(id) => (if mine then OnPuback(s, id) else s, open)
      case Pubrec(id) => (if mine then OnPubrec(s, id) else s, open)
      case Pubcomp(id) => (if mine then OnPubcomp(s, id) else s, open)
      case _ => (s, open && (Answered(packet) || !mine))
  }

  lemma MachineNext(net: Net, e: Event, h: nat, ops: seq<Machine.Op>, start: SessionState)
    requires h < |net.broker.sessions| && h < |net.broker.channels|
    requires Mirrors(Machine.Run(start, ops), net.broker.sessions[h], net.broker.channels[h].open)
    ensures var (s, open) := SessionNext(net, e, h); Mirrors(Machine.Run(start, ops + OpsFor(net, e, h)), s, open)
  {
    var s, open := net.broker.sessions[h], net.broker.channels[h].open;
    assert ops + [] == ops;
    if e.Recv? && e.packet.Publish? {
      var p := e.packet.publish;
      var n := CountRouted(net.broker.registry, p, Matches(net.broker.table, p.topicName), h);
      MachineTimes(start, ops, p.(qos := AtLeastOnce), n, s, open);
    } else if OpsFor(net, e, h) != [] {
      MachineOne(start, ops, OpsFor(net, e, h)[0]);
      assert OpsFor(net, e, h) == [OpsFor(net, e, h)[0]];
    }
  }

  ghost predicate SessionStep(net: Net, e: Event, h: nat)
    requires h < |net.broker.sessions| && h < |net.broker.channels|
  {
    var now := Next(net, e).broker;
    h < |now.sessions| && h < |now.channels| && (now.sessions[h], now.channels[h].open) == SessionNext(net, e, h)
  }

  /** A reply reaches neither the sessions nor any receiver. */
  lemma ReplyKeepsSessions(net: Net, conn: nat, packet: Packet)
    requires Inv(net) && Answered(packet)
    ensures var c, d := BeforeReply(net.broker, HeldBy(net, conn), packet), Next(net, Recv(conn, packet)).broker;
      && d.sessions == c.sessions && |d.channels| == |c.channels|
      && forall h | 0 <= h < |c.channels| :: d.channels[h].open == c.channels[h].open
  {
    HandledAsReply(net.broker, HeldBy(net, conn), packet);
  }

  lemma PublishSessionStep(net: Net, conn: nat, p: PublishPacket, h: nat)
    requires Inv(net) && h < |net.broker.sessions|
    ensures SessionStep(net, Recv(conn, Publish(p)), h)
  {
    ReplyKeepsSessions(net, conn, Publish(p));
    MatchesAreRoutable(net.broker, p.topicName);
    DeliverAllToSession(net.broker, p, Matches(net.broker.table, p.topicName), h);
  }

  lemma AckSessionStep(net: Net, conn: nat, packet: Packet, h: nat)
    requires Inv(net) && h < |net.broker.sessions| && Answered(packet) && !packet.Publish?
    ensures SessionStep(net, Recv(conn, packet), h)
  {
    var c := BeforeReply(net.broker, HeldBy(net, conn), packet);
    ReplyKeepsSessions(net, conn, packet);
    assert c.channels == net.broker.channels && |c.sessions| == |net.broker.sessions|;
    assert c.sessions[h] == SessionNext(net, Recv(conn, packet), h).0;
  }

  lemma ReleaseOpen(b: BrokerState, held: Option<nat>, h: nat)
    requires h < |b.channels|
    ensures var c := Release(b, held);
      && c.sessions == b.sessions && |c.channels| == |b.channels|
      && c.channels[h].open == (b.channels[h].open && held != Some(h))
  {
  }

  lemma ConnectSessionStep(net: Net, conn: nat, c: ConnectPacket, h: nat)
    requires Inv(net) && h < |net.broker.sessions|
    ensures SessionStep(net, Recv(conn, Connect(c)), h)
  {
    var ack := Connack(ConnackPacket(!c.cleanSession, Accepted));
    var b2 := Send(Register(net.broker, c), |net.broker.sessions|, ack);
    ConnectIsGood(net.broker, c, ack);
    ReleaseOpen(b2, HeldBy(net, conn), h);
    assert Next(net, Recv(conn, Connect(c))).broker == Release(b2, HeldBy(net, conn));
    assert b2.sessions[h] == net.broker.sessions[h];
  }

  lemma LeaveSessionStep(net: Net, e: Event, h: nat)
    requires Inv(net) && h < |net.broker.sessions| && (e.Recv? ==> !Answered(e.packet) && !e.packet.Connect?)
    ensures SessionStep(net, e, h)
  {
    var held := HeldBy(net, e.conn);
    ReleaseOpen(net.broker, held, h);
    if held.Some? {
      ReleaseOpen(HandleDisconnect(net.broker, net.broker.sessions[held.value].clientId), held, h);
    }
  }

  lemma NextSession(net: Net, e: Event, h: nat)
    requires Inv(net) && h < |net.broker.sessions|
    ensures SessionStep(net, e, h)
  {
    match e {
      case Recv(conn, packet) =>
        if packet.Publish? {
          PublishSessionStep(net, conn, packet.publish, h);
        } else if packet.Connect? {
          ConnectSessionStep(net, conn, packet.connect, h);
        } else if Answered(packet) {
          AckSessionStep(net, conn, packet, h);
        } else {
          LeaveSessionStep(net, e, h);
        }
      case Eof(_) => LeaveSessionStep(net, e, h);
      case Abort(_) => LeaveSessionStep(net, e, h);
    }
  }

  /** A session starts when a CONNECT opens it. */
  lemma NewSession(net: Net, e: Event, h: nat)
    requires Inv(net) && h >= |net.broker.sessions|
    ensures var now := Next(net, e).broker;
      && OpsFor(net, e, h) == []
      && (h < |now.sessions| && h < |now.channels| ==> Machine.IsFresh(now.sessions[h]) && now.channels[h].open)
  {
    if e.Recv? && Answered(e.packet) {
      ReplyKeepsSessions(net, e.conn, e.packet);
      BeforeReplyIsGood(net.broker, HeldBy(net, e.conn), e.packet);
    } else if e.Recv? && e.packet.Connect? {
      ConnectIsGood(net.broker, e.packet.connect, Connack(ConnackPacket(!e.packet.connect.cleanSession, Accepted)));
    }
  }

  /** For every run and every session: session and receiver are those of the stand-alone machine after
      the session's operations, so what is proved of that machine holds in the broker. */
  lemma {:induction false} SessionIsMachineRun(events: seq<Event>, h: nat)
    ensures var b := Run(events).broker;
      && |b.sessions| == |b.channels|
      && (h >= |b.sessions| ==> OpsOfSession(events, h) == [])
      && (h < |b.sessions| ==>
            var s := b.sessions[h];
            Mirrors(Machine.Run(Fresh(s.clientId, s.cleanSession, s.keepAlive), OpsOfSession(events, h)),
                    s, b.channels[h].open))
  {
    RunInv(events);
    if events != [] {
      var init, e := events[..|events| - 1], events[|events| - 1];
      var net := Run(init);
      RunInv(init);
      SessionIsMachineRun(init, h);
      if h < |net.broker.sessions| {
        var s := net.broker.sessions[h];
        var start := Fresh(s.clientId, s.cleanSession, s.keepAlive);
        NextSession(net, e, h);
        MachineNext(net, e, h, OpsOfSession(init, h), start);
        SameClient(start, OpsOfSession(events, h));
      } else {
        NewSession(net, e, h);
        assert OpsOfSession(events, h) == [];
      }
    }
  }

  lemma {:induction false} SameClient(start: SessionState, ops: seq<Machine.Op>)
    ensures var s := Machine.Run(start, ops).session;
      s.clientId == start.clientId && s.cleanSession == start.cleanSession && s.keepAlive == start.keepAlive
  {
    if ops != [] {
      SameClient(start, ops[..|ops| - 1]);
    }
  }

  /** In every run of the broker an id is pending in a session exactly when its last enqueue there is
      later than the last PUBACK from the session's connection. */
  lemma BrokerPendingQos1(events: seq<Event>, h: nat, id: U16)
    requires h < |Run(events).broker.sessions|
    ensures Machine.HoldsUnacked(Run(events).broker.sessions[h].pendingQos1, OpsOfSession(events, h), id)
  {
    var s := Run(events).broker.sessions[h];
    SessionIsMachineRun(events, h);
    Machine.PendingQos1(Fresh(s.clientId, s.cleanSession, s.keepAlive), OpsOfSession(events, h), id);
  }

  /** And for the first 65535 ids of a session, its pending publishes are its enqueues minus its
      acknowledgements. */
  lemma BrokerPendingSizes(events: seq<Event>, h: nat)
    requires h < |Run(events).broker.sessions| && Machine.Allocations(OpsOfSession(events, h)) <= 65535
    ensures var s := Run(events).broker.sessions[h];
      var ops, start := OpsOfSession(events, h), Fresh(s.clientId, s.cleanSession, s.keepAlive);
      |s.pendingQos1| + Machine.EffectiveAcks(start, ops, AtLeastOnce) == Machine.Enqueued(ops, AtLeastOnce)
  {
    var s := Run(events).broker.sessions[h];
    SessionIsMachineRun(events, h);
    Machine.PendingSizes(Fresh(s.clientId, s.cleanSession, s.keepAlive), OpsOfSession(events, h));
  }
}
