/** How the network cuts a client's bytes into reads, and what that does to the broker. */
module Segmentation {
  import opened Types
  import opened Framing
  import opened PacketFrames
  import opened Brokers
  import opened Connections
  import Spec = BrokerSpec

  /** One read after the other on a connection; the first error ends it. */
  ghost function AfterReads(b: Spec.BrokerState, held: Option<nat>, buf: Bytes, chunks: seq<Bytes>): ReadDone
    decreases |chunks|
  {
    if chunks == [] then ReadDone(b, held, buf, None)
    else
      var now := AfterRead(b, held, buf + chunks[0]);
      if now.error.Some? then now else AfterReads(now.broker, now.held, now.left, chunks[1..])
  }

  lemma {:induction false} DrainedAreForServer(buf: Bytes)
    ensures forall p | p in Drain(PacketIn, buf).packets :: ForServer(p)
    decreases |buf|
  {
    var x := Extract(PacketIn, buf);
    if x.Frame? && x.packet.Ok? {
      DrainFrame(PacketIn, buf);
      FrameIsForServer(buf);
      DrainedAreForServer(buf[|x.frame|..]);
    }
  }

  lemma {:induction false} ServeAppend(b: Spec.BrokerState, held: Option<nat>, first: seq<Packet>, later: seq<Packet>)
    requires forall p | p in first :: ForServer(p)
    ensures var done := ServeAll(b, held, first);
      done.ok && ServeAll(b, held, first + later) == ServeAll(done.broker, done.held, later)
    decreases |first|
  {
    if first == [] {
      assert first + later == later;
    } else {
      var done := Spec.HandlePacket(b, held, first[0]);
      ForServerIsHandled(b, held, first[0]);
      assert (first + later)[1..] == first[1..] + later;
      ServeAppend(done.broker, done.held, first[1..], later);
    }
  }

  lemma FinishThen(b: Spec.BrokerState, held: Option<nat>, now: Outcome, later: Outcome)
    requires now.error.None? && forall p | p in now.packets :: ForServer(p)
    ensures var done := Finish(b, held, now);
      Finish(b, held, Then(now, later)) == Finish(done.broker, done.held, later)
  {
    ServeAppend(b, held, now.packets, later.packets);
  }

  /** Handling each read as it comes is handling what all the reads yield. */
  lemma {:induction false} ReadsAreServed(b: Spec.BrokerState, held: Option<nat>, buf: Bytes, chunks: seq<Bytes>)
    ensures AfterReads(b, held, buf, chunks) == Finish(b, held, Reads(PacketIn, buf, chunks))
    decreases |chunks|
  {
    if chunks != [] {
      var now := Drain(PacketIn, buf + chunks[0]);
      var done := Finish(b, held, now);
      DrainedAreForServer(buf + chunks[0]);
      if now.error.None? {
        ReadsAreServed(done.broker, done.held, now.left, chunks[1..]);
        FinishThen(b, held, now, Reads(PacketIn, now.left, chunks[1..]));
      }
    }
  }

  lemma SameFinish(b: Spec.BrokerState, held: Option<nat>, x: Outcome, y: Outcome)
    requires Same(x, y)
    ensures SameEnd(Finish(b, held, x), Finish(b, held, y))
  {
  }

  ghost predicate SameEnd(x: ReadDone, y: ReadDone) {
    && x.broker == y.broker && x.held == y.held && x.error == y.error
    && (x.error.None? ==> x.left == y.left)
  }

  /** Sessions, subscriptions, queued packets and the connection's fate are those of the whole stream
      read at once, however it is cut, as long as no read ends inside a remaining-length field. */
  lemma SegmentationDoesNotMatter(b: Spec.BrokerState, chunks: seq<Bytes>)
    requires chunks != [] && !SomeReadCuts(PacketIn, [], chunks)
    ensures SameEnd(AfterReads(b, None, [], chunks), AfterRead(b, None, Flatten(chunks)))
  {
    ReadsAreServed(b, None, [], chunks);
    PacketChunkIndependence(chunks);
    SameFinish(b, None, Reads(PacketIn, [], chunks), Drain(PacketIn, Flatten(chunks)));
  }

  /** One client's reads, one after the other until the first error, on the objects. */
  method ReadAll(client: Connection, broker: Broker, chunks: seq<Bytes>) returns (error: Option<BrokerError>)
    requires client.Ready(broker)
    modifies client.buf, client.Footprint(broker)
    ensures client.Ready(broker)
    ensures AfterReads(old(broker.state), old(client.Held()), old(client.buf.data), chunks) ==
            ReadDone(broker.state, client.Held(), client.buf.data, error)
    decreases |chunks|
  {
    if chunks == [] {
      return None;
    }
    error := client.OnRead(broker, chunks[0]);
    if error.None? {
      error := ReadAll(client, broker, chunks[1..]);
    }
  }
}
