/** One broker and its clients: input arrives on any connection at any time and every connection is
    served until it ends. What the objects then hold is a run of the step machine. */
module Server {
  import opened Types
  import opened Framing
  import opened PacketFrames
  import opened Brokers
  import opened Connections
  import opened Segmentation
  import Spec = BrokerSpec

  datatype Input = Read(client: nat, chunk: Bytes) | End(client: nat)

  /** A connection seen from the network: what is buffered, and whether it is over. */
  datatype Line = Line(buf: Bytes, over: bool)

  function LineAfter(inputs: seq<Input>, client: nat): Line {
    if inputs == [] then Line([], false)
    else
      var line, x := LineAfter(inputs[..|inputs| - 1], client), inputs[|inputs| - 1];
      if x.client != client || line.over then line
      else
        match x
        case Read(_, chunk) =>
          var d := Drain(PacketIn, line.buf + chunk);
          Line(d.left, d.error.Some?)
        case End(_) => Line(line.buf, true)
  }

  /** The packets cut out of a read, and a break-off if it ends in an error. */
  function ReadEvents(client: nat, d: Outcome): seq<Spec.Event> {
    Arrivals(client, d.packets) + if d.error.Some? then [Spec.Abort(client)] else []
  }

  function InputEvents(line: Line, x: Input): seq<Spec.Event> {
    if line.over then []
    else
      match x
      case Read(client, chunk) => ReadEvents(client, Drain(PacketIn, line.buf + chunk))
      case End(client) => [Spec.Eof(client)]
  }

  function EventsAfter(inputs: seq<Input>): seq<Spec.Event> {
    if inputs == [] then []
    else
      var init, x := inputs[..|inputs| - 1], inputs[|inputs| - 1];
      EventsAfter(init) + InputEvents(LineAfter(init, x.client), x)
  }

  // ----- A read and an end of input as steps -----

  lemma RunOne(events: seq<Spec.Event>, e: Spec.Event)
    ensures Spec.Run(events + [e]) == Spec.Next(Spec.Run(events), e)
  {
    assert (events + [e])[..|events|] == events;
  }

  lemma ReadEventsAfter(events: seq<Spec.Event>, client: nat, d: Outcome)
    ensures var arrived := events + Arrivals(client, d.packets);
      events + ReadEvents(client, d) == if d.error.Some? then arrived + [Spec.Abort(client)] else arrived
  {
  }

  /** What is made of any cut-out packets is the run in which they arrive and, if they end in an error,
      the connection breaks off. */
  lemma OutcomeIsARun(events: seq<Spec.Event>, client: nat, d: Outcome)
    requires forall p | p in d.packets :: ForServer(p)
    ensures var net, now := Spec.Run(events), Spec.Run(events + ReadEvents(client, d));
      Finish(net.broker, Spec.HeldBy(net, client), d) ==
      ReadDone(now.broker, Spec.HeldBy(now, client), d.left, d.error)
  {
    var arrived := events + Arrivals(client, d.packets);
    ServingIsARun(events, client, d.packets);
    ReadEventsAfter(events, client, d);
    if d.error.Some? {
      RunOne(arrived, Spec.Abort(client));
    }
  }

  lemma ReadIsARun(events: seq<Spec.Event>, client: nat, buf: Bytes)
    ensures var net, d := Spec.Run(events), Drain(PacketIn, buf);
      var now := Spec.Run(events + ReadEvents(client, d));
      AfterRead(net.broker, Spec.HeldBy(net, client), buf) ==
      ReadDone(now.broker, Spec.HeldBy(now, client), d.left, d.error)
  {
    DrainedAreForServer(buf);
    OutcomeIsARun(events, client, Drain(PacketIn, buf));
  }

  /** The end of input is the event `Eof`. */
  lemma EndIsARun(events: seq<Spec.Event>, client: nat)
    ensures var net, now := Spec.Run(events), Spec.Run(events + [Spec.Eof(client)]);
      var held := Spec.HeldBy(net, client);
      && Spec.HeldBy(now, client) == None
      && now.broker == AfterEnd(net.broker, held)
  {
    RunOne(events, Spec.Eof(client));
  }

  /** What `Connection.Disconnect` makes of the broker. */
  function AfterEnd(b: Spec.BrokerState, held: Option<nat>): Spec.BrokerState {
    if held.Some? && held.value < |b.sessions|
    then Spec.Release(Spec.HandleDisconnect(b, b.sessions[held.value].clientId), held)
    else Spec.Release(b, held)
  }

  lemma OtherKeepsSession(net: Spec.Net, e: Spec.Event, other: nat)
    requires other != e.conn
    ensures Spec.HeldBy(Spec.Next(net, e), other) == Spec.HeldBy(net, other)
  {
  }

  lemma {:induction false} OthersKeepSessions(events: seq<Spec.Event>, more: seq<Spec.Event>, client: nat, other: nat)
    requires other != client && forall e | e in more :: e.conn == client
    ensures Spec.HeldBy(Spec.Run(events + more), other) == Spec.HeldBy(Spec.Run(events), other)
    decreases |more|
  {
    if more == [] {
      assert events + more == events;
    } else {
      var front, last := more[..|more| - 1], more[|more| - 1];
      OthersKeepSessions(events, front, client, other);
      RunOne(events + front, last);
      assert events + more == events + front + [last];
      assert last in more;
      OtherKeepsSession(Spec.Run(events + front), last, other);
    }
  }

  lemma {:induction false} ArrivalsAreOf(client: nat, packets: seq<Packet>)
    ensures forall e | e in Arrivals(client, packets) :: e.conn == client
  {
    if packets != [] {
      ArrivalsAreOf(client, packets[1..]);
    }
  }

  lemma InputIsOf(line: Line, x: Input)
    ensures forall e | e in InputEvents(line, x) :: e.conn == x.client
  {
    if x.Read? {
      ArrivalsAreOf(x.client, Drain(PacketIn, line.buf + x.chunk).packets);
    }
  }

  // ----- Serving one client beside the others -----

  ghost predicate Apart(clients: seq<Connection>) {
    forall i, j | 0 <= i < j < |clients| :: clients[i] != clients[j] && clients[i].buf != clients[j].buf
  }

  ghost predicate AllReady(broker: Broker, clients: seq<Connection>)
    reads clients, broker, broker.all, broker.channels, broker.subscriptions, broker.subscriptions.repr
  {
    broker.Valid() && forall i | 0 <= i < |clients| :: clients[i].Ready(broker)
  }

  /** No client is in what another's input may change. */
  lemma OthersApart(broker: Broker, clients: seq<Connection>, i: nat)
    requires Apart(clients) && i < |clients|
    ensures forall j | 0 <= j < |clients| && j != i ::
      && clients[j] !in clients[i].Footprint(broker) && clients[j].buf !in clients[i].Footprint(broker)
      && clients[j].buf != clients[i].buf
  {
    forall j | 0 <= j < |clients| && j != i
      ensures && clients[j] !in clients[i].Footprint(broker) && clients[j].buf !in clients[i].Footprint(broker)
              && clients[j].buf != clients[i].buf
    {
      var c := clients[j];
      assert c != clients[i] && c.buf != clients[i].buf;
      assert forall s | s in broker.all :: s as object != c && s as object != c.buf;
      assert forall n | n in broker.subscriptions.repr :: n as object != c && n as object != c.buf;
    }
  }

  method ReadFrom(broker: Broker, clients: seq<Connection>, i: nat, chunk: Bytes) returns (error: Option<BrokerError>)
    requires Apart(clients) && AllReady(broker, clients) && i < |clients|
    modifies clients[i].buf, clients[i].Footprint(broker)
    ensures AllReady(broker, clients)
    ensures fresh(clients[i].Footprint(broker) - old(clients[i].Footprint(broker)))
    ensures AfterRead(old(broker.state), old(clients[i].Held()), old(clients[i].buf.data) + chunk) ==
            ReadDone(broker.state, clients[i].Held(), clients[i].buf.data, error)
    ensures forall j | 0 <= j < |clients| && j != i ::
      clients[j].Held() == old(clients[j].Held()) && clients[j].buf.data == old(clients[j].buf.data)
  {
    OthersApart(broker, clients, i);
    error := clients[i].OnRead(broker, chunk);
  }

  method EndOf(broker: Broker, clients: seq<Connection>, i: nat)
    requires Apart(clients) && AllReady(broker, clients) && i < |clients|
    modifies clients[i].Footprint(broker)
    ensures AllReady(broker, clients)
    ensures fresh(clients[i].Footprint(broker) - old(clients[i].Footprint(broker)))
    ensures clients[i].Held() == None && broker.state == AfterEnd(old(broker.state), old(clients[i].Held()))
    ensures forall j | 0 <= j < |clients| :: clients[j].buf.data == old(clients[j].buf.data)
    ensures forall j | 0 <= j < |clients| && j != i :: clients[j].Held() == old(clients[j].Held())
  {
    OthersApart(broker, clients, i);
    clients[i].Disconnect(broker);
  }

  // ----- Any number of clients, any order of input -----

  /** One more input: its own line and session move as the read or the end says, the others stay. */
  lemma InputStep(before: seq<Input>, x: Input)
    ensures var c, now := x.client, before + [x];
      var line, net, next := LineAfter(before, c), Spec.Run(EventsAfter(before)), Spec.Run(EventsAfter(now));
      && (line.over ==> next == net && LineAfter(now, c) == line)
      && (!line.over && x.Read? ==>
            var d := Drain(PacketIn, line.buf + x.chunk);
            && AfterRead(net.broker, Spec.HeldBy(net, c), line.buf + x.chunk) ==
               ReadDone(next.broker, Spec.HeldBy(next, c), d.left, d.error)
            && LineAfter(now, c) == Line(d.left, d.error.Some?))
      && (!line.over && x.End? ==>
            && next.broker == AfterEnd(net.broker, Spec.HeldBy(net, c)) && Spec.HeldBy(next, c) == None
            && LineAfter(now, c).over)
  {
    var c, events := x.client, EventsAfter(before);
    var line := LineAfter(before, c);
    assert (before + [x])[..|before|] == before;
    if line.over {
      assert events + [] == events;
    } else if x.Read? {
      ReadIsARun(events, c, line.buf + x.chunk);
    } else {
      EndIsARun(events, c);
    }
  }

  lemma OthersStep(before: seq<Input>, x: Input, other: nat)
    requires other != x.client
    ensures LineAfter(before + [x], other) == LineAfter(before, other)
    ensures Spec.HeldBy(Spec.Run(EventsAfter(before + [x])), other) == Spec.HeldBy(Spec.Run(EventsAfter(before)), other)
  {
    assert (before + [x])[..|before|] == before;
    var line := LineAfter(before, x.client);
    InputIsOf(line, x);
    OthersKeepSessions(EventsAfter(before), InputEvents(line, x), x.client, other);
  }

  /** Client `i` is where the run and its line are. */
  ghost predicate ClientAsRun(client: Connection, i: nat, inputs: seq<Input>)
    reads client, client.buf
  {
    && client.Held() == Spec.HeldBy(Spec.Run(EventsAfter(inputs)), i)
    && (!LineAfter(inputs, i).over ==> client.buf.data == LineAfter(inputs, i).buf)
  }

  ghost predicate AsRun(broker: Broker, clients: seq<Connection>, inputs: seq<Input>)
    reads clients, broker, set c | c in clients :: c.buf
  {
    && broker.state == Spec.Run(EventsAfter(inputs)).broker
    && forall i | 0 <= i < |clients| :: ClientAsRun(clients[i], i, inputs)
  }

  method Feed(broker: Broker, clients: seq<Connection>, x: Input, ghost before: seq<Input>) returns (over: bool)
    requires Apart(clients) && AllReady(broker, clients) && x.client < |clients|
    requires AsRun(broker, clients, before) && !LineAfter(before, x.client).over
    modifies clients[x.client].buf, clients[x.client].Footprint(broker)
    ensures AllReady(broker, clients)
    ensures fresh(broker.Footprint() - old(broker.Footprint()))
    ensures AsRun(broker, clients, before + [x]) && over == LineAfter(before + [x], x.client).over
  {
    var c := x.client;
    InputStep(before, x);
    match x {
      case Read(_, chunk) =>
        var error := ReadFrom(broker, clients, c, chunk);
        over := error.Some?;
      case End(_) =>
        EndOf(broker, clients, c);
        over := true;
    }
    forall j | 0 <= j < |clients| ensures ClientAsRun(clients[j], j, before + [x]) {
      if j != c {
        OthersStep(before, x, j);
      }
    }
  }

  /** The broker and all connections with their buffers. */
  ghost function All(broker: Broker, clients: seq<Connection>): set<object>
    reads broker, broker.subscriptions
  {
    broker.Footprint() + (set c | c in clients) + (set c | c in clients :: c.buf)
  }

  /** A new broker and `n` new connections. */
  method Start(n: nat) returns (broker: Broker, clients: seq<Connection>)
    ensures |clients| == n && Apart(clients) && AllReady(broker, clients) && AsRun(broker, clients, [])
    ensures fresh(All(broker, clients))
  {
    broker := new Broker();
    clients := [];
    for i := 0 to n
      invariant |clients| == i && Apart(clients) && AllReady(broker, clients)
      invariant broker.state == Spec.EMPTY_BROKER && fresh(broker.Footprint())
      invariant forall j | 0 <= j < i ::
        fresh(clients[j]) && fresh(clients[j].buf) && clients[j].session == null && clients[j].buf.data == []
    {
      var c := new Connection();
      clients := clients + [c];
    }
  }

  ghost predicate OverIs(over: seq<bool>, n: nat, inputs: seq<Input>) {
    |over| == n && forall i | 0 <= i < n :: over[i] == LineAfter(inputs, i).over
  }

  method Accept(broker: Broker, clients: seq<Connection>, over: seq<bool>, x: Input, ghost before: seq<Input>)
    returns (now: seq<bool>)
    requires Apart(clients) && AllReady(broker, clients) && x.client < |clients|
    requires AsRun(broker, clients, before) && OverIs(over, |clients|, before)
    modifies All(broker, clients)
    ensures AllReady(broker, clients) && AsRun(broker, clients, before + [x])
    ensures fresh(All(broker, clients) - old(All(broker, clients)))
    ensures OverIs(now, |clients|, before + [x])
  {
    now := over;
    if !over[x.client] {
      var ended := Feed(broker, clients, x, before);
      now := now[x.client := ended];
    } else {
      InputStep(before, x);
      forall j | 0 <= j < |clients| ensures ClientAsRun(clients[j], j, before + [x]) {
        if j != x.client {
          OthersStep(before, x, j);
        }
      }
    }
    forall j | 0 <= j < |over| && j != x.client ensures LineAfter(before + [x], j) == LineAfter(before, j) {
      OthersStep(before, x, j);
    }
  }

  /** Serves what is still to come, `before` being served. */
  method ServeRest(broker: Broker, clients: seq<Connection>, over: seq<bool>, rest: seq<Input>,
                   ghost before: seq<Input>)
    requires Apart(clients) && AllReady(broker, clients) && forall x | x in rest :: x.client < |clients|
    requires AsRun(broker, clients, before) && OverIs(over, |clients|, before)
    modifies All(broker, clients)
    ensures AllReady(broker, clients) && AsRun(broker, clients, before + rest)
    decreases |rest|
  {
    Regroup(before, rest);
    if rest != [] {
      var now := Accept(broker, clients, over, rest[0], before);
      ServeRest(broker, clients, now, rest[1..], before + [rest[0]]);
    }
  }

  lemma Regroup(before: seq<Input>, rest: seq<Input>)
    ensures if rest == [] then before + rest == before else before + rest == before + [rest[0]] + rest[1..]
  {
  }

  /** The server: `n` clients, and whatever arrives from them in whatever order. Input of a connection
      that is over is not read. */
  method Serve(n: nat, inputs: seq<Input>) returns (broker: Broker, clients: seq<Connection>)
    requires forall x | x in inputs :: x.client < n
    ensures |clients| == n && AllReady(broker, clients) && AsRun(broker, clients, inputs)
  {
    broker, clients := Start(n);
    ServeRest(broker, clients, seq(n, _ => false), inputs, []);
    assert [] + inputs == inputs;
  }
}
