/** One client connection: its read buffer, the session it holds, and what it does with its input. */
module Connections {
  import opened Types
  import opened DecodeSpec
  import opened Encoder
  import opened Framing
  import opened PacketFrames
  import opened Sessions
  import opened Brokers
  import Spec = BrokerSpec

  /** Handling packets one after the other until one ends the connection. */
  function ServeAll(b: Spec.BrokerState, held: Option<nat>, packets: seq<Packet>): Spec.Handled
    decreases |packets|
  {
    if packets == [] then Spec.Handled(b, held, true)
    else
      var done := Spec.HandlePacket(b, held, packets[0]);
      if done.ok then ServeAll(done.broker, done.held, packets[1..]) else done
  }

  class Connection {
    var session: Session?
    const buf: BytesMut

    constructor ()
      ensures session == null && fresh(buf) && buf.data == []
    {
      session := null;
      buf := new BytesMut();
    }

    /** The handle of the held session; the receiver of its channel lives as long as it is held. */
    ghost function Held(): Option<nat>
      reads this
    {
      if session == null then None else Some(session.sender)
    }

    ghost predicate Ready(broker: Broker)
      reads this, broker, broker.all, broker.channels, broker.subscriptions, broker.subscriptions.repr
    {
      broker.Valid() && (session != null ==> broker.Knows(session))
    }

    /** Everything that handling a packet may change. */
    ghost function Footprint(broker: Broker): set<object>
      reads broker, broker.subscriptions
    {
      {this} + broker.Footprint()
    }

    /** The read buffer belongs to the connection alone. */
    lemma BufferApart(broker: Broker)
      ensures buf !in Footprint(broker)
    {
      assert forall s | s in broker.all :: s as object != buf;
      assert forall n | n in broker.subscriptions.repr :: n as object != buf;
    }

    /** Lets go of the held session's receiver. */
    method Release(broker: Broker)
      requires Ready(broker)
      modifies this`session, broker`state, broker.channels
      ensures broker.Valid() && session == null
      ensures broker.state == Spec.Release(old(broker.state), old(Held()))
    {
      if session != null {
        broker.DropReceiver(session.sender);
        session := null;
      }
    }

    method Connect(broker: Broker, c: ConnectPacket)
      requires Ready(broker)
      modifies this`session, broker, broker.channels
      ensures Ready(broker)
      ensures old(broker.all) <= broker.all && forall s | s in broker.all :: s in old(broker.all) || fresh(s)
      ensures var done := Spec.HandlePacket(old(broker.state), old(Held()), Packet.Connect(c));
        done.ok && broker.state == done.broker && Held() == done.held
    {
      var added := broker.RegisterSession(c);
      broker.Send(added.sender, Connack(ConnackPacket(!c.cleanSession, Accepted)));
      Release(broker);
      session := added;
    }

    method Publish(broker: Broker, p: PublishPacket)
      requires Ready(broker)
      modifies broker`state, broker.channels, broker.all
      ensures Ready(broker)
      ensures var done := Spec.HandlePacket(old(broker.state), Held(), Packet.Publish(p));
        done.ok && broker.state == done.broker && Held() == done.held
    {
      broker.HandlePublish(p);
      if session != null && p.packetId.Some? {
        match p.qos {
          case AtMostOnce =>
          case AtLeastOnce => broker.Send(session.sender, Puback(p.packetId.value));
          case ExactlyOnce => broker.Send(session.sender, Pubrec(p.packetId.value));
        }
      }
    }

    method Subscribe(broker: Broker, p: SubscribePacket)
      requires Ready(broker)
      modifies broker`state, broker.channels, broker.subscriptions, broker.subscriptions.repr
      ensures Ready(broker) && fresh(broker.subscriptions.repr - old(broker.subscriptions.repr))
      ensures Spec.HandlePacket(old(broker.state), Held(), Packet.Subscribe(p)) ==
              Spec.Handled(broker.state, Held(), true)
    {
      if session != null {
        var suback := broker.HandleSubscribe(session, p);
        broker.Send(session.sender, Suback(suback));
      }
    }

    method Unsubscribe(broker: Broker, p: UnsubscribePacket)
      requires Ready(broker)
      modifies broker`state, broker.channels, broker.subscriptions, broker.subscriptions.repr
      ensures Ready(broker) && broker.subscriptions.repr == old(broker.subscriptions.repr)
      ensures Spec.HandlePacket(old(broker.state), Held(), Packet.Unsubscribe(p)) ==
              Spec.Handled(broker.state, Held(), true)
    {
      if session != null {
        broker.HandleUnsubscribe(session, p);
        broker.Send(session.sender, Unsuback(p.packetId));
      }
    }

    /** The acknowledgement packets and the ping, all ignored before a CONNECT. */
    method Acknowledge(broker: Broker, packet: Packet)
      requires Ready(broker)
      requires packet.Puback? || packet.Pubrec? || packet.Pubrel? || packet.Pubcomp? || packet.Pingreq?
      modifies broker`state, broker.channels, broker.all
      ensures Ready(broker)
      ensures Spec.HandlePacket(old(broker.state), Held(), packet) == Spec.Handled(broker.state, Held(), true)
    {
      if session == null {
        return;
      }
      match packet {
        case Puback(id) => broker.HandlePuback(session, id);
        case Pubrec(id) => broker.HandlePubrec(session, id);
        case Pubrel(id) => broker.Send(session.sender, Pubcomp(id));
        case Pubcomp(id) => broker.HandlePubcomp(session, id);
        case Pingreq => broker.Send(session.sender, Pingresp);
      }
    }

    /** A DISCONNECT, and the end of input: a held session leaves the broker. */
    method Disconnect(broker: Broker)
      requires Ready(broker)
      modifies this`session, broker, broker.channels, broker.subscriptions, broker.subscriptions.repr
      ensures Ready(broker) && session == null
      ensures broker.all == old(broker.all) && broker.subscriptions.repr == old(broker.subscriptions.repr)
      ensures broker.state ==
        if old(session) == null then old(broker.state)
        else Spec.Release(Spec.HandleDisconnect(old(broker.state), old(session).clientId), old(Held()))
    {
      if session != null {
        broker.HandleDisconnect(session);
        Release(broker);
      }
    }

    /** False ends the connection. */
    method HandlePacket(broker: Broker, packet: Packet) returns (ok: bool)
      requires Ready(broker)
      modifies this`session, broker, broker.channels, broker.subscriptions, broker.subscriptions.repr, broker.all
      ensures Ready(broker)
      ensures old(broker.all) <= broker.all && forall s | s in broker.all :: s in old(broker.all) || fresh(s)
      ensures fresh(broker.subscriptions.repr - old(broker.subscriptions.repr))
      ensures Spec.HandlePacket(old(broker.state), old(Held()), packet) == Spec.Handled(broker.state, Held(), ok)
    {
      ok := true;
      match packet {
        case Connect(c) => Connect(broker, c);
        case Publish(p) => Publish(broker, p);
        case Subscribe(p) => Subscribe(broker, p);
        case Unsubscribe(p) => Unsubscribe(broker, p);
        case Disconnect => Disconnect(broker);
        case Connack(_) | Suback(_) | Unsuback(_) | Pingresp =>
          Release(broker);
          ok := false;
        case _ => Acknowledge(broker, packet);
      }
    }

    /** The same in terms of the whole footprint, for a decoded packet. */
    method Serve(broker: Broker, packet: Packet)
      requires Ready(broker) && ForServer(packet)
      modifies Footprint(broker)
      ensures Ready(broker) && fresh(Footprint(broker) - old(Footprint(broker))) && old(broker.all) <= broker.all
      ensures Spec.HandlePacket(old(broker.state), old(Held()), packet) == Spec.Handled(broker.state, Held(), true)
    {
      ForServerIsHandled(broker.state, Held(), packet);
      var _ := HandlePacket(broker, packet);
    }

    /** Takes the next packet off the buffer, and says what that leaves of the read's whole effect. */
    method Take(ghost b: Spec.BrokerState, ghost held: Option<nat>) returns (r: Option<Result<Packet>>)
      modifies buf
      ensures r.None? ==> AfterRead(b, held, old(buf.data)) == ReadDone(b, held, buf.data, None)
      ensures r.Some? && r.value.Err? ==>
        AfterRead(b, held, old(buf.data)) == ReadDone(Spec.Release(b, held), None, buf.data, Some(r.value.error))
      ensures r.Some? && r.value.Ok? ==>
        var done := Spec.HandlePacket(b, held, r.value.value);
        && ForServer(r.value.value) && |buf.data| < |old(buf.data)|
        && AfterRead(b, held, old(buf.data)) == AfterRead(done.broker, done.held, buf.data)
    {
      TurnOfRead(b, held, buf.data);
      r := ExtractPacket(buf);
    }

    /** One turn of the buffer loop; `Some(Ok)` goes on with what is left to do. */
    method Turn(broker: Broker) returns (r: Option<Result<Packet>>)
      requires Ready(broker)
      modifies buf, Footprint(broker)
      ensures Ready(broker)
      ensures fresh(Footprint(broker) - old(Footprint(broker))) && old(broker.all) <= broker.all
      ensures AfterRead(old(broker.state), old(Held()), old(buf.data)) ==
              if r.None? then ReadDone(broker.state, Held(), buf.data, None)
              else if r.value.Err? then ReadDone(broker.state, Held(), buf.data, Some(r.value.error))
              else AfterRead(broker.state, Held(), buf.data)
      ensures r.Some? && r.value.Ok? ==> |buf.data| < |old(buf.data)|
    {
      BufferApart(broker);
      r := Take(broker.state, Held());
      if r.Some? {
        if r.value.Ok? {
          Serve(broker, r.value.value);
        } else {
          Release(broker);
        }
      }
    }

    /** The buffer loop: handle every complete packet, stop at the first error. */
    method DrainBuffer(broker: Broker) returns (error: Option<BrokerError>)
      requires Ready(broker)
      modifies buf, Footprint(broker)
      ensures Ready(broker)
      ensures fresh(Footprint(broker) - old(Footprint(broker))) && old(broker.all) <= broker.all
      ensures AfterRead(old(broker.state), old(Held()), old(buf.data)) ==
              ReadDone(broker.state, Held(), buf.data, error)
    {
      ghost var whole, all := AfterRead(broker.state, Held(), buf.data), broker.all;
      while true
        invariant Ready(broker) && fresh(Footprint(broker) - old(Footprint(broker))) && all <= broker.all
        invariant AfterRead(broker.state, Held(), buf.data) == whole
        decreases |buf.data|
      {
        var r := Turn(broker);
        match r {
          case None => return None;
          case Some(Err(e)) => return Some(e);
          case Some(Ok(_)) =>
        }
      }
    }

    /** One read: buffer it, then the loop. */
    method OnRead(broker: Broker, chunk: Bytes) returns (error: Option<BrokerError>)
      requires Ready(broker)
      modifies buf, Footprint(broker)
      ensures Ready(broker)
      ensures fresh(Footprint(broker) - old(Footprint(broker))) && old(broker.all) <= broker.all
      ensures AfterRead(old(broker.state), old(Held()), old(buf.data) + chunk) ==
              ReadDone(broker.state, Held(), buf.data, error)
    {
      BufferApart(broker);
      buf.Put(chunk);
      error := DrainBuffer(broker);
    }
  }

  // ----- What a read leaves behind -----

  datatype ReadDone = ReadDone(broker: Spec.BrokerState, held: Option<nat>, left: Bytes, error: Option<BrokerError>)

  /** Every packet handled, and the session let go if the input ends in an error. */
  ghost function Finish(b: Spec.BrokerState, held: Option<nat>, input: Outcome): ReadDone {
    var done := ServeAll(b, held, input.packets);
    if input.error.Some? then ReadDone(Spec.Release(done.broker, done.held), None, input.left, input.error)
    else ReadDone(done.broker, done.held, input.left, None)
  }

  ghost function AfterRead(b: Spec.BrokerState, held: Option<nat>, buf: Bytes): ReadDone {
    Finish(b, held, Drain(PacketIn, buf))
  }

  /** One turn of the loop against the whole: wait, fail, or handle one packet and go on. */
  lemma TurnOfRead(b: Spec.BrokerState, held: Option<nat>, buf: Bytes)
    ensures var x := Extract(PacketIn, buf);
      && (x.NeedMore? ==> AfterRead(b, held, buf) == ReadDone(b, held, buf, None))
      && (x.BadHeader? ==> AfterRead(b, held, buf) == ReadDone(Spec.Release(b, held), None, buf, Some(x.error)))
      && (x.Frame? && x.packet.Err? ==>
            AfterRead(b, held, buf) == ReadDone(Spec.Release(b, held), None, buf[|x.frame|..], Some(x.packet.error)))
    ensures var x := Extract(PacketIn, buf);
      x.Frame? && x.packet.Ok? ==>
        var done := Spec.HandlePacket(b, held, x.packet.value);
        ForServer(x.packet.value) && AfterRead(b, held, buf) == AfterRead(done.broker, done.held, buf[|x.frame|..])
  {
    var x := Extract(PacketIn, buf);
    if x.Frame? && x.packet.Ok? {
      DrainFrame(PacketIn, buf);
      FrameIsForServer(buf);
      ForServerIsHandled(b, held, x.packet.value);
      ServeFirst(b, held, x.packet.value, Drain(PacketIn, buf[|x.frame|..]).packets);
    }
  }

  lemma ServeFirst(b: Spec.BrokerState, held: Option<nat>, packet: Packet, later: seq<Packet>)
    requires Spec.HandlePacket(b, held, packet).ok
    ensures var done := Spec.HandlePacket(b, held, packet);
      ServeAll(b, held, [packet] + later) == ServeAll(done.broker, done.held, later)
  {
    assert ([packet] + later)[1..] == later;
  }

  /** A run resumed: the events that follow, first to last. */
  function RunFrom(net: Spec.Net, events: seq<Spec.Event>): Spec.Net
    decreases |events|
  {
    if events == [] then net else RunFrom(Spec.Next(net, events[0]), events[1..])
  }

  lemma {:induction false} RunFromSnoc(net: Spec.Net, events: seq<Spec.Event>, e: Spec.Event)
    ensures RunFrom(net, events + [e]) == Spec.Next(RunFrom(net, events), e)
    decreases |events|
  {
    if events != [] {
      assert (events + [e])[1..] == events[1..] + [e];
      RunFromSnoc(Spec.Next(net, events[0]), events[1..], e);
    }
  }

  lemma {:induction false} RunResumes(before: seq<Spec.Event>, after: seq<Spec.Event>)
    ensures Spec.Run(before + after) == RunFrom(Spec.Run(before), after)
    decreases |after|
  {
    if after == [] {
      assert before + after == before;
    } else {
      var front, last := after[..|after| - 1], after[|after| - 1];
      RunResumes(before, front);
      RunFromSnoc(Spec.Run(before), front, last);
      assert front + [last] == after;
      assert (before + after)[..|before + after| - 1] == before + front;
    }
  }

  lemma ArrivalIsHandled(net: Spec.Net, conn: nat, packet: Packet)
    requires ForServer(packet)
    ensures var done := Spec.HandlePacket(net.broker, Spec.HeldBy(net, conn), packet);
      var now := Spec.Next(net, Spec.Recv(conn, packet));
      done.ok && now.broker == done.broker && Spec.HeldBy(now, conn) == done.held
  {
    ForServerIsHandled(net.broker, Spec.HeldBy(net, conn), packet);
  }

  lemma {:induction false} ServingResumes(net: Spec.Net, conn: nat, packets: seq<Packet>)
    requires forall p | p in packets :: ForServer(p)
    ensures var now := RunFrom(net, Arrivals(conn, packets));
      ServeAll(net.broker, Spec.HeldBy(net, conn), packets) == Spec.Handled(now.broker, Spec.HeldBy(now, conn), true)
    decreases |packets|
  {
    if packets != [] {
      var first := Spec.Recv(conn, packets[0]);
      ArrivalIsHandled(net, conn, packets[0]);
      ServingResumes(Spec.Next(net, first), conn, packets[1..]);
      assert Arrivals(conn, packets)[1..] == Arrivals(conn, packets[1..]);
    }
  }

  /** What a connection does with its packets is the run in which they arrive one by one. */
  lemma ServingIsARun(events: seq<Spec.Event>, conn: nat, packets: seq<Packet>)
    requires forall p | p in packets :: ForServer(p)
    ensures var net := Spec.Run(events);
      var now := Spec.Run(events + Arrivals(conn, packets));
      ServeAll(net.broker, Spec.HeldBy(net, conn), packets) == Spec.Handled(now.broker, Spec.HeldBy(now, conn), true)
  {
    RunResumes(events, Arrivals(conn, packets));
    ServingResumes(Spec.Run(events), conn, packets);
  }

  function Arrivals(conn: nat, packets: seq<Packet>): seq<Spec.Event> {
    if packets == [] then [] else [Spec.Recv(conn, packets[0])] + Arrivals(conn, packets[1..])
  }

  // ----- The decoder only yields packets that keep the connection going -----

  predicate ForServer(packet: Packet) {
    !packet.Connack? && !packet.Suback? && !packet.Unsuback? && !packet.Pingresp?
  }

  lemma ForServerIsHandled(b: Spec.BrokerState, held: Option<nat>, packet: Packet)
    ensures Spec.HandlePacket(b, held, packet).ok <==> ForServer(packet)
  {
  }

  lemma BodyIsForServer(header: FixedHeader, s: Bytes)
    requires DecodeBody(header, s).Ok?
    ensures ForServer(DecodeBody(header, s).value.0)
  {
    match header.packetType
    case ConnectType =>
    case PublishType =>
    case SubscribeType =>
    case UnsubscribeType =>
    case _ =>
  }

  /** Every decoded packet is one a server handles, so no packet ends a connection. */
  lemma FrameIsForServer(buf: Bytes)
    ensures Extract(PacketIn, buf).Frame? && Extract(PacketIn, buf).packet.Ok? ==>
            ForServer(Extract(PacketIn, buf).packet.value)
  {
    if Extract(PacketIn, buf).Frame? && Extract(PacketIn, buf).packet.Ok? {
      var (header, body) := DecodeFixedHeader(Extract(PacketIn, buf).frame).value;
      BodyIsForServer(header, body);
    }
  }
}
