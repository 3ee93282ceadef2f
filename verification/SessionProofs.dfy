/** Packet ids and in-flight publishes over every sequential run of one session. */
module SessionProofs {
  import opened Types
  import opened SessionSpec

  // ----- The id counter -----

  /** The counter after `k` calls on a fresh session. */
  function Counter(k: nat): U16 {
    if k == 0 then 1 else NewPacketId(Counter(k - 1)).1
  }

  /** The id call number `k` (from 0) returns. */
  function IdOfCall(k: nat): U16 {
    NewPacketId(Counter(k)).0
  }

  lemma {:induction false} CounterValue(k: nat)
    ensures Counter(k) == (k + 1) % 0x1_0000
  {
    if k > 0 {
      CounterValue(k - 1);
    }
  }

  /** Never zero (section 2.3.1 of MQTT 3.1.1); distinct over the first 65535 calls; two calls fewer
      than 65535 apart agree only at the wrap, where 1 comes twice in a row. */
  lemma PacketIds(k: nat, l: nat)
    ensures IdOfCall(k) == (if (k + 1) % 0x1_0000 == 0 then 1 else (k + 1) % 0x1_0000)
    ensures IdOfCall(k) != 0
    ensures k < l < 65535 ==> IdOfCall(k) != IdOfCall(l)
    ensures k < l < k + 65535 ==> (IdOfCall(k) == IdOfCall(l) <==> (k + 1) % 0x1_0000 == 0 && l == k + 1)
  {
    CounterValue(k);
    CounterValue(l);
  }

  // ----- Runs -----

  datatype Op =
    | EnqueueOp(packet: PublishPacket)
    | PubackOp(id: U16)
    | PubrecOp(id: U16)
    | PubcompOp(id: U16)
    | DropReceiver

  datatype State = State(session: SessionState, channel: Channel)

  function Step(st: State, op: Op): State {
    match op
    case EnqueueOp(p) =>
      var (s, c) := Enqueue(st.session, st.channel, p);
      State(s, c)
    case PubackOp(id) => st.(session := OnPuback(st.session, id))
    case PubrecOp(id) => st.(session := OnPubrec(st.session, id))
    case PubcompOp(id) => st.(session := OnPubcomp(st.session, id))
    case DropReceiver => st.(channel := st.channel.(open := false))
  }

  function Run(start: SessionState, ops: seq<Op>): State {
    if ops == [] then State(start, Channel([], true))
    else Step(Run(start, ops[..|ops| - 1]), ops[|ops| - 1])
  }

  predicate IsFresh(s: SessionState) {
    s == Fresh(s.clientId, s.cleanSession, s.keepAlive)
  }

  predicate Takes(op: Op, qos: QoS) {
    op.EnqueueOp? && op.packet.qos == qos
  }

  /** How many ids a run has handed out. */
  function Allocations(ops: seq<Op>): nat {
    if ops == [] then 0
    else Allocations(ops[..|ops| - 1]) +
         if ops[|ops| - 1].EnqueueOp? && ops[|ops| - 1].packet.qos != AtMostOnce then 1 else 0
  }

  /** The id enqueue number `i` of the run carries. */
  function IdAt(ops: seq<Op>, i: nat): U16
    requires i < |ops|
  {
    IdOfCall(Allocations(ops[..i]))
  }

  /** Step `i` put a publish of this QoS on the channel under `id`. */
  predicate SentAt(ops: seq<Op>, i: nat, qos: QoS, id: U16)
    requires i < |ops|
  {
    Takes(ops[i], qos) && DropReceiver !in ops[..i] && IdAt(ops, i) == id
  }

  /** Step `i` is the last to send under `id` at this QoS, and no acknowledgement came since. */
  predicate UnackedSince(ops: seq<Op>, i: nat, qos: QoS, id: U16, ack: Op) {
    && i < |ops| && SentAt(ops, i, qos, id)
    && forall j | i < j < |ops| :: ops[j] != ack && !SentAt(ops, j, qos, id)
  }

  function Stamped(ops: seq<Op>, i: nat): PublishPacket
    requires i < |ops| && ops[i].EnqueueOp?
  {
    ops[i].packet.(packetId := Some(IdAt(ops, i)))
  }

  lemma PrefixAgrees(ops: seq<Op>, i: nat, qos: QoS, id: U16)
    requires 0 < |ops| && i < |ops| - 1
    ensures var init := ops[..|ops| - 1];
      SentAt(ops, i, qos, id) == SentAt(init, i, qos, id) && IdAt(ops, i) == IdAt(init, i) && init[i] == ops[i]
  {
    assert ops[..|ops| - 1][..i] == ops[..i];
  }

  /** One more step keeps an unacknowledged send unless it acknowledges it or sends over it. */
  lemma UnackedExtends(ops: seq<Op>, i: nat, qos: QoS, id: U16, ack: Op)
    requires 0 < |ops|
    ensures var last := |ops| - 1;
      UnackedSince(ops, i, qos, id, ack) <==>
      if i == last then SentAt(ops, last, qos, id)
      else UnackedSince(ops[..last], i, qos, id, ack) && ops[last] != ack && !SentAt(ops, last, qos, id)
  {
    var last := |ops| - 1;
    var init := ops[..last];
    forall j | 0 <= j < last
      ensures SentAt(ops, j, qos, id) == SentAt(init, j, qos, id) && init[j] == ops[j]
    {
      PrefixAgrees(ops, j, qos, id);
    }
  }

  lemma {:induction false} CounterAndChannel(start: SessionState, ops: seq<Op>)
    requires IsFresh(start)
    ensures Run(start, ops).session.nextPacketId == Counter(Allocations(ops))
    ensures Run(start, ops).channel.open <==> DropReceiver !in ops
  {
    if ops != [] {
      var init, op := ops[..|ops| - 1], ops[|ops| - 1];
      CounterAndChannel(start, init);
      assert DropReceiver in ops <==> DropReceiver in init || op == DropReceiver by {
        assert ops == init + [op];
      }
    }
  }

  /** What one step does to the QoS 1 entry of `id`. */
  lemma StepQos1(st: State, op: Op, id: U16)
    ensures var before, now := st.session.pendingQos1, Step(st, op).session.pendingQos1;
      if Takes(op, AtLeastOnce) && st.channel.open && NewPacketId(st.session.nextPacketId).0 == id
      then id in now && now[id] == op.packet.(packetId := Some(id))
      else if op == PubackOp(id) then id !in now
      else (id in now <==> id in before) && (id in now ==> now[id] == before[id])
  {
  }

  lemma LastStepSends(start: SessionState, ops: seq<Op>, qos: QoS, id: U16)
    requires IsFresh(start) && ops != []
    ensures var last := |ops| - 1;
      var st := Run(start, ops[..last]);
      SentAt(ops, last, qos, id) <==>
      Takes(ops[last], qos) && st.channel.open && NewPacketId(st.session.nextPacketId).0 == id
  {
    CounterAndChannel(start, ops[..|ops| - 1]);
  }

  lemma LastStepQos1(start: SessionState, ops: seq<Op>, id: U16)
    requires IsFresh(start) && ops != []
    ensures var last := |ops| - 1;
      var before, now := Run(start, ops[..last]).session.pendingQos1, Run(start, ops).session.pendingQos1;
      if SentAt(ops, last, AtLeastOnce, id) then id in now && now[id] == Stamped(ops, last)
      else if ops[last] == PubackOp(id) then id !in now
      else (id in now <==> id in before) && (id in now ==> now[id] == before[id])
  {
    LastStepSends(start, ops, AtLeastOnce, id);
    StepQos1(Run(start, ops[..|ops| - 1]), ops[|ops| - 1], id);
  }

  /** `id` is a key exactly when some send under it is unacknowledged, and its value is what was sent. */
  ghost predicate HoldsUnacked(pending: map<U16, PublishPacket>, ops: seq<Op>, id: U16) {
    && (id in pending <==> exists i: nat :: UnackedSince(ops, i, AtLeastOnce, id, PubackOp(id)))
    && forall i: nat | UnackedSince(ops, i, AtLeastOnce, id, PubackOp(id)) ::
         id in pending && pending[id] == Stamped(ops, i)
  }

  /** An id is pending at QoS 1 exactly when its last successful QoS 1 enqueue is later than its last
      PUBACK, and then it holds the packet last sent under it. */
  lemma {:induction false} PendingQos1(start: SessionState, ops: seq<Op>, id: U16)
    requires IsFresh(start)
    ensures HoldsUnacked(Run(start, ops).session.pendingQos1, ops, id)
  {
    var ack := PubackOp(id);
    if ops != [] {
      var last := |ops| - 1;
      var init := ops[..last];
      PendingQos1(start, init, id);
      LastStepQos1(start, ops, id);
      forall i: nat
        ensures UnackedSince(ops, i, AtLeastOnce, id, ack) <==>
          if i == last then SentAt(ops, last, AtLeastOnce, id)
          else UnackedSince(init, i, AtLeastOnce, id, ack) && ops[last] != ack && !SentAt(ops, last, AtLeastOnce, id)
      {
        UnackedExtends(ops, i, AtLeastOnce, id, ack);
      }
      forall i: nat | i < last
        ensures IdAt(ops, i) == IdAt(init, i) && init[i] == ops[i]
      {
        PrefixAgrees(ops, i, AtLeastOnce, id);
      }
      var pending := Run(start, ops).session.pendingQos1;
      if id in pending && !SentAt(ops, last, AtLeastOnce, id) {
        var i: nat :| UnackedSince(init, i, AtLeastOnce, id, ack);
        assert UnackedSince(ops, i, AtLeastOnce, id, ack);
      }
      if SentAt(ops, last, AtLeastOnce, id) {
        assert UnackedSince(ops, last, AtLeastOnce, id, ack);
      }
    }
  }

  /** The QoS 2 entry of `id` when its last send was step `i`. */
  function Qos2Entry(ops: seq<Op>, i: nat): PendingQoS2
    requires i < |ops| && ops[i].EnqueueOp?
  {
    PendingQoS2(Stamped(ops, i),
                if exists j :: i < j < |ops| && ops[j] == PubrecOp(IdAt(ops, i)) then WaitingPubcomp else WaitingPubrec)
  }

  lemma StepQos2(st: State, op: Op, id: U16)
    ensures var before, now := st.session.pendingQos2, Step(st, op).session.pendingQos2;
      if Takes(op, ExactlyOnce) && st.channel.open && NewPacketId(st.session.nextPacketId).0 == id
      then id in now && now[id] == PendingQoS2(op.packet.(packetId := Some(id)), WaitingPubrec)
      else if op == PubcompOp(id) then id !in now
      else
        && (id in now <==> id in before)
        && (id in now ==> now[id] == if op == PubrecOp(id) then before[id].(state := WaitingPubcomp) else before[id])
  {
  }

  lemma LastStepQos2(start: SessionState, ops: seq<Op>, id: U16)
    requires IsFresh(start) && ops != []
    ensures var last := |ops| - 1;
      var before, now := Run(start, ops[..last]).session.pendingQos2, Run(start, ops).session.pendingQos2;
      if SentAt(ops, last, ExactlyOnce, id) then id in now && now[id] == PendingQoS2(Stamped(ops, last), WaitingPubrec)
      else if ops[last] == PubcompOp(id) then id !in now
      else
        && (id in now <==> id in before)
        && (id in now ==>
              now[id] == if ops[last] == PubrecOp(id) then before[id].(state := WaitingPubcomp) else before[id])
  {
    LastStepSends(start, ops, ExactlyOnce, id);
    StepQos2(Run(start, ops[..|ops| - 1]), ops[|ops| - 1], id);
  }

  lemma Qos2EntryExtends(ops: seq<Op>, i: nat)
    requires 0 < |ops| && i < |ops| - 1 && ops[i].EnqueueOp?
    ensures var last := |ops| - 1;
      var before := Qos2Entry(ops[..last], i);
      Qos2Entry(ops, i) == if ops[last] == PubrecOp(IdAt(ops, i)) then before.(state := WaitingPubcomp) else before
  {
    var last := |ops| - 1;
    var init := ops[..last];
    PrefixAgrees(ops, i, ExactlyOnce, 0);
    var rec := PubrecOp(IdAt(ops, i));
    assert forall j | i < j < last :: init[j] == ops[j];
    if j :| i < j < |ops| && ops[j] == rec {
      assert j < last ==> init[j] == rec;
    }
  }

  /** The same for QoS 2 with PUBCOMP; a PUBREC since the send moves the entry on. */
  lemma {:induction false} PendingQos2(start: SessionState, ops: seq<Op>, id: U16)
    requires IsFresh(start)
    ensures var pending := Run(start, ops).session.pendingQos2;
      && (id in pending <==> exists i: nat :: UnackedSince(ops, i, ExactlyOnce, id, PubcompOp(id)))
      && forall i: nat | UnackedSince(ops, i, ExactlyOnce, id, PubcompOp(id)) ::
           id in pending && pending[id] == Qos2Entry(ops, i)
  {
    var ack := PubcompOp(id);
    if ops != [] {
      var last := |ops| - 1;
      var init := ops[..last];
      PendingQos2(start, init, id);
      LastStepQos2(start, ops, id);
      forall i: nat
        ensures UnackedSince(ops, i, ExactlyOnce, id, ack) <==>
          if i == last then SentAt(ops, last, ExactlyOnce, id)
          else UnackedSince(init, i, ExactlyOnce, id, ack) && ops[last] != ack && !SentAt(ops, last, ExactlyOnce, id)
      {
        UnackedExtends(ops, i, ExactlyOnce, id, ack);
      }
      var pending := Run(start, ops).session.pendingQos2;
      if id in pending && !SentAt(ops, last, ExactlyOnce, id) {
        var i: nat :| UnackedSince(init, i, ExactlyOnce, id, ack);
        assert UnackedSince(ops, i, ExactlyOnce, id, ack);
      }
      if SentAt(ops, last, ExactlyOnce, id) {
        assert UnackedSince(ops, last, ExactlyOnce, id, ack);
      }
      forall i: nat | i < last && UnackedSince(ops, i, ExactlyOnce, id, ack)
        ensures id in pending && pending[id] == Qos2Entry(ops, i)
      {
        PrefixAgrees(ops, i, ExactlyOnce, id);
        Qos2EntryExtends(ops, i);
      }
    }
  }

  // ----- Sizes -----

  /** Enqueues of this QoS that reached the channel. */
  function Enqueued(ops: seq<Op>, qos: QoS): nat {
    if ops == [] then 0
    else
      var init := ops[..|ops| - 1];
      Enqueued(init, qos) + if Takes(ops[|ops| - 1], qos) && DropReceiver !in init then 1 else 0
  }

  /** Acknowledgements that found their id pending. */
  function EffectiveAcks(start: SessionState, ops: seq<Op>, qos: QoS): nat {
    if ops == [] then 0
    else
      var init := ops[..|ops| - 1];
      var s := Run(start, init).session;
      EffectiveAcks(start, init, qos) +
      match ops[|ops| - 1]
      case PubackOp(id) => if qos == AtLeastOnce && id in s.pendingQos1 then 1 else 0
      case PubcompOp(id) => if qos == ExactlyOnce && id in s.pendingQos2 then 1 else 0
      case _ => 0
  }

  /** Ids up to `n` have been handed out, and only those are pending, each in one map. */
  ghost predicate HandedOut(s: SessionState, n: nat) {
    && n <= 65535 && s.nextPacketId == (if n == 65535 then 0 else n + 1)
    && s.pendingQos1.Keys !! s.pendingQos2.Keys
    && (forall id | id in s.pendingQos1 :: 1 <= id <= n)
    && (forall id | id in s.pendingQos2 :: 1 <= id <= n)
  }

  /** How many entries a step adds to the map of this QoS. */
  function Growth(st: State, op: Op, qos: QoS): int {
    match op
    case EnqueueOp(p) => if p.qos == qos && st.channel.open then 1 else 0
    case PubackOp(id) => if qos == AtLeastOnce && id in st.session.pendingQos1 then -1 else 0
    case PubcompOp(id) => if qos == ExactlyOnce && id in st.session.pendingQos2 then -1 else 0
    case _ => 0
  }

  lemma EnqueueSizes(s: SessionState, c: Channel, p: PublishPacket, n: nat)
    requires HandedOut(s, n) && n < 65535 && p.qos != AtMostOnce
    ensures var t := Enqueue(s, c, p).0;
      && HandedOut(t, n + 1)
      && |t.pendingQos1| == |s.pendingQos1| + (if c.open && p.qos == AtLeastOnce then 1 else 0)
      && |t.pendingQos2| == |s.pendingQos2| + (if c.open && p.qos == ExactlyOnce then 1 else 0)
  {
    var id: U16 := n + 1;
    assert NewPacketId(s.nextPacketId).0 == id;
    var t := Enqueue(s, c, p).0;
    if c.open && p.qos == AtLeastOnce {
      KeysWith(s.pendingQos1, id, p.(packetId := Some(id)));
      assert t.pendingQos1.Keys == s.pendingQos1.Keys + {id} && t.pendingQos2 == s.pendingQos2;
    } else if c.open && p.qos == ExactlyOnce {
      KeysWith(s.pendingQos2, id, PendingQoS2(p.(packetId := Some(id)), WaitingPubrec));
      assert t.pendingQos2.Keys == s.pendingQos2.Keys + {id} && t.pendingQos1 == s.pendingQos1;
    } else {
      assert t.pendingQos1 == s.pendingQos1 && t.pendingQos2 == s.pendingQos2;
    }
  }

  lemma AckSizes(st: State, op: Op, n: nat)
    requires HandedOut(st.session, n) && (op.PubackOp? || op.PubrecOp? || op.PubcompOp?)
    ensures var s, t := st.session, Step(st, op).session;
      && HandedOut(t, n)
      && |t.pendingQos1| == |s.pendingQos1| + Growth(st, op, AtLeastOnce)
      && |t.pendingQos2| == |s.pendingQos2| + Growth(st, op, ExactlyOnce)
  {
    var s := st.session;
    match op
    case PubackOp(id) => KeysWithout(s.pendingQos1, id);
    case PubrecOp(id) => assert OnPubrec(s, id).pendingQos2.Keys == s.pendingQos2.Keys;
    case PubcompOp(id) => KeysWithout(s.pendingQos2, id);
  }

  lemma StepSizes(st: State, op: Op, n: nat)
    requires HandedOut(st.session, n) && (op.EnqueueOp? && op.packet.qos != AtMostOnce ==> n < 65535)
    ensures var s, t := st.session, Step(st, op).session;
      && HandedOut(t, if op.EnqueueOp? && op.packet.qos != AtMostOnce then n + 1 else n)
      && |t.pendingQos1| == |s.pendingQos1| + Growth(st, op, AtLeastOnce)
      && |t.pendingQos2| == |s.pendingQos2| + Growth(st, op, ExactlyOnce)
  {
    if op.EnqueueOp? && op.packet.qos != AtMostOnce {
      EnqueueSizes(st.session, st.channel, op.packet, n);
    } else if op.PubackOp? || op.PubrecOp? || op.PubcompOp? {
      AckSizes(st, op, n);
    }
  }

  /** For the first 65535 ids the two maps share no id, every pending id was handed out, and the
      sizes are enqueues minus acknowledgements. */
  lemma {:induction false} PendingSizes(start: SessionState, ops: seq<Op>)
    requires IsFresh(start) && Allocations(ops) <= 65535
    ensures var s := Run(start, ops).session;
      && HandedOut(s, Allocations(ops))
      && |s.pendingQos1| + EffectiveAcks(start, ops, AtLeastOnce) == Enqueued(ops, AtLeastOnce)
      && |s.pendingQos2| + EffectiveAcks(start, ops, ExactlyOnce) == Enqueued(ops, ExactlyOnce)
  {
    if ops != [] {
      var init, op := ops[..|ops| - 1], ops[|ops| - 1];
      PendingSizes(start, init);
      CounterAndChannel(start, init);
      StepSizes(Run(start, init), op, Allocations(init));
      CountersStep(start, ops, AtLeastOnce);
      CountersStep(start, ops, ExactlyOnce);
    }
  }

  lemma CountersStep(start: SessionState, ops: seq<Op>, qos: QoS)
    requires IsFresh(start) && ops != [] && qos != AtMostOnce
    ensures var init, op := ops[..|ops| - 1], ops[|ops| - 1];
      Enqueued(ops, qos) - EffectiveAcks(start, ops, qos) ==
      Enqueued(init, qos) - EffectiveAcks(start, init, qos) + Growth(Run(start, init), op, qos)
  {
    CounterAndChannel(start, ops[..|ops| - 1]);
  }

  lemma KeysWith<V>(m: map<U16, V>, id: U16, v: V)
    requires id !in m
    ensures |m[id := v]| == |m| + 1 && m[id := v].Keys == m.Keys + {id}
  {
    assert m[id := v].Keys == m.Keys + {id};
    assert |m[id := v]| == |m[id := v].Keys| && |m| == |m.Keys|;
  }

  lemma KeysWithout<V>(m: map<U16, V>, id: U16)
    ensures |m - {id}| == |m| - if id in m then 1 else 0
  {
    assert (m - {id}).Keys == m.Keys - {id};
    if id !in m {
      assert m.Keys - {id} == m.Keys;
    }
    assert |m - {id}| == |(m - {id}).Keys| && |m| == |m.Keys|;
  }
}
