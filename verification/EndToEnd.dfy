/**
 From the bytes of an inbound PUBLISH to the bytes every matched subscriber is sent: the same topic,
 payload and remaining length, at the lower of the two QoS levels.
 */
module EndToEnd {
  import opened Types
  import opened RemainingLength
  import opened DecodeSpec
  import opened EncodeSpec
  import opened CodecProofs
  import opened Framing
  import opened PacketFrames
  import opened Subscriptions
  import opened SessionSpec
  import opened BrokerSpec
  import opened BrokerInvariants
  import opened BrokerDelivery

  /** Whatever was added to the channel is a copy of `p`. */
  ghost predicate OnlyCopiesAdded(p: PublishPacket, before: Channel, after: Channel) {
    && before.sent <= after.sent
    && forall i | |before.sent| <= i < |after.sent| :: IsCopy(p, after.sent[i])
  }

  lemma DeliverAddsCopies(b: BrokerState, p: PublishPacket, x: Subscriber, h: nat)
    requires Good(b) && x.qos == AtLeastOnce && h < |b.channels|
    ensures var c := Deliver(b, p, x);
      |c.channels| == |b.channels| && OnlyCopiesAdded(p, b.channels[h], c.channels[h])
  {
    var q := p.(qos := MinQoS(p.qos, x.qos));
    if q.qos != AtMostOnce && x.clientId in b.registry {
      var to := b.registry[x.clientId];
      var id := NewPacketId(b.sessions[to].nextPacketId).0;
      assert Deliver(b, p, x).channels == b.channels[to := SendOn(b.channels[to], Publish(q.(packetId := Some(id))))];
    }
  }

  lemma {:induction false} DeliverAllAddsCopies(b: BrokerState, p: PublishPacket, subs: seq<Subscriber>, h: nat)
    requires Good(b) && h < |b.channels| && forall x | x in subs :: x.qos == AtLeastOnce
    ensures var c := DeliverAll(b, p, subs);
      |c.channels| == |b.channels| && OnlyCopiesAdded(p, b.channels[h], c.channels[h])
  {
    if subs != [] {
      var init, x := subs[..|subs| - 1], subs[|subs| - 1];
      assert x in subs;
      DeliverAllAddsCopies(b, p, init, h);
      DeliverAllPublishes(b, p, init);
      var c := DeliverAll(b, p, init);
      DeliverAddsCopies(c, p, x, h);
      var d := Deliver(c, p, x);
      forall i | |b.channels[h].sent| <= i < |d.channels[h].sent| ensures IsCopy(p, d.channels[h].sent[i]) {
        assert i < |c.channels[h].sent| ==> d.channels[h].sent[i] == c.channels[h].sent[i];
      }
    }
  }

  /** An accepted PUBLISH frame is its header and the body of the packet it decodes to. */
  lemma InboundFrame(buf: Bytes, p: PublishPacket)
    requires Extract(PacketIn, buf).Frame? && Extract(PacketIn, buf).packet == Ok(Publish(p))
    ensures DecodeFixedHeader(buf).Ok?
    ensures CanonicalPublish(p)
    ensures DecodeFixedHeader(buf).value.0.remainingLength == PublishRemaining(p) <= MAX_LENGTH
  {
    var frame := Extract(PacketIn, buf).frame;
    var (header, rest) := DecodeFixedHeader(buf).value;
    HeaderOfFrame(buf, frame);
    var body := DecodeFixedHeader(frame).value.1;
    DecodedPublishWasWritten(header.flags, body);
    PublishBodyLength(p);
    AcceptedField(buf[1..]);
    Pow128Bound(DecodeLength(buf[1..]).value.consumed);
  }

  lemma HeaderOfFrame(buf: Bytes, frame: Bytes)
    requires Extract(PacketIn, buf).Frame? && Extract(PacketIn, buf).frame == frame
    ensures DecodeFixedHeader(buf).Ok? && DecodeFixedHeader(frame).Ok?
    ensures var (header, body) := DecodeFixedHeader(frame).value;
      header == DecodeFixedHeader(buf).value.0 && |body| == header.remainingLength
  {
    HeaderConsumes(buf);
    PrefixHeader(buf, |frame|);
  }

  /** A prefix that reaches past the header has the same header. */
  lemma PrefixHeader(s: Bytes, n: nat)
    requires DecodeFixedHeader(s).Ok? && |s| - |DecodeFixedHeader(s).value.1| <= n <= |s|
    ensures var (header, rest) := DecodeFixedHeader(s).value;
      DecodeFixedHeader(s[..n]) == Ok((header, s[..n][|s| - |rest|..]))
  {
    HeaderConsumes(s);
    LengthOfTakenPrefix(s[1..], n - 1, 0);
    assert s[..n][1..] == s[1..][..n - 1];
  }

  lemma {:induction false} LengthOfTakenPrefix(s: Bytes, n: nat, used: nat)
    requires used < 4 && LengthFrom(s, used).Ok? && LengthFrom(s, used).value.consumed <= n <= |s|
    ensures var f := LengthFrom(s, used).value;
      LengthFrom(s[..n], used) == Ok(Field(f.value, f.consumed, s[..n][f.consumed..]))
    decreases 4 - used
  {
    if s[0] >= 128 {
      FromAccepts(s[1..], used + 1);
      LengthOfTakenPrefix(s[1..], n - 1, used + 1);
      assert s[..n][1..] == s[1..][..n - 1];
    }
  }

  lemma Pow128Bound(k: nat)
    requires 1 <= k <= 4
    ensures Pow128(k) <= MAX_LENGTH + 1
  {
    Pow128Values();
  }

  /** The bytes of a copy come back as that copy, whatever follows them on the wire. */
  lemma OutboundFrame(q: PublishPacket, rest: Bytes)
    requires CanonicalPublish(q) && PublishRemaining(q) <= MAX_LENGTH
    ensures EncodePacket(Publish(q)).Ok?
    ensures var s := EncodePacket(Publish(q)).value;
      && DecodeFixedHeader(s + rest).Ok?
      && DecodeFixedHeader(s + rest).value.0.remainingLength == PublishRemaining(q)
      && Extract(PacketIn, s + rest) == Frame(s, Ok(Publish(q)))
  {
    PublishRoundTripIff(q);
    var s := EncodePacket(Publish(q)).value;
    var header := Header(3, PublishFlags(q), PublishRemaining(q));
    var body := PublishBody(q);
    PublishBodyLength(q);
    HeaderDecodes(3, PublishFlags(q), PublishRemaining(q), body + rest);
    assert s + rest == header + (body + rest);
    assert (s + rest)[..|s|] == s;
  }

  /** `s` followed by anything is cut out and decoded as `q`, with the length field of `buf`. */
  ghost predicate Arrives(buf: Bytes, s: Bytes, rest: Bytes, q: Packet) {
    && Extract(PacketIn, s + rest) == Frame(s, Ok(q))
    && DecodeFixedHeader(buf).Ok? && DecodeFixedHeader(s + rest).Ok?
    && DecodeFixedHeader(s + rest).value.0.remainingLength ==
       DecodeFixedHeader(buf).value.0.remainingLength <= MAX_LENGTH
  }

  lemma CopyArrives(buf: Bytes, p: PublishPacket, q: Packet, rest: Bytes)
    requires Accepted(buf, p) && IsCopy(p, q)
    ensures EncodePacket(q).Ok? && Arrives(buf, EncodePacket(q).value, rest, q)
  {
    InboundFrame(buf, p);
    assert CanonicalPublish(q.publish);
    OutboundFrame(q.publish, rest);
  }

  ghost predicate Accepted(buf: Bytes, p: PublishPacket) {
    Extract(PacketIn, buf).Frame? && Extract(PacketIn, buf).packet == Ok(Publish(p))
  }

  /** Position `i` of channel `h` holds a packet that handling `p` put there. */
  ghost predicate Queued(b: BrokerState, p: PublishPacket, h: nat, i: nat) {
    var c := HandlePublish(b, p);
    h < |b.channels| && h < |c.channels| && |b.channels[h].sent| <= i < |c.channels[h].sent|
  }

  lemma QueuedCopy(events: seq<Event>, p: PublishPacket, h: nat, i: nat)
    requires Queued(Run(events).broker, p, h, i)
    ensures IsCopy(p, HandlePublish(Run(events).broker, p).channels[h].sent[i])
  {
    RunInv(events);
    var b := Run(events).broker;
    MatchesAreGood(b, p.topicName);
    DeliverAllAddsCopies(b, p, Matches(b.table, p.topicName), h);
  }

  /** `q` is what the client at the other end decodes from the bytes it is sent: the inbound publish at
      QoS min(inbound, granted), its remaining length the inbound one. */
  ghost predicate Forwards(buf: Bytes, p: PublishPacket, q: Packet, rest: Bytes) {
    && EncodePacket(q).Ok? && Arrives(buf, EncodePacket(q).value, rest, q)
    && q.Publish? && q.publish.topicName == p.topicName && q.publish.payload == p.payload
    && q.publish.dup == p.dup && q.publish.retain == p.retain
    && q.publish.qos == MinQoS(p.qos, AtLeastOnce)
  }

  /** For every run, every accepted inbound PUBLISH frame and every packet it puts on any channel: the
      packet encodes, and its bytes, whatever follows them, are cut out and decoded as a PUBLISH with
      the inbound topic, payload and remaining length at QoS min(inbound, granted). */
  lemma PublishEndToEnd(events: seq<Event>, buf: Bytes, p: PublishPacket, h: nat, i: nat, rest: Bytes)
    ensures Accepted(buf, p) && Queued(Run(events).broker, p, h, i) ==>
            Forwards(buf, p, HandlePublish(Run(events).broker, p).channels[h].sent[i], rest)
  {
    if Accepted(buf, p) && Queued(Run(events).broker, p, h, i) {
      QueuedCopy(events, p, h, i);
      CopyArrives(buf, p, HandlePublish(Run(events).broker, p).channels[h].sent[i], rest);
    }
  }
}
