/**
 `enqueue_publish` with its real steps (allocate an id, send, insert into a pending map), each of many
 calls interleaved with the others and with acknowledgements that may overtake the insert.
 */
module InFlight {
  import opened Types
  import opened SessionSpec
  import opened SessionProofs

  datatype Event =
    | Allocate(task: nat, packet: PublishPacket)
    | Send(task: nat)
    | Insert(task: nat)
    | PubackIn(id: U16)
    | PubrecIn(id: U16)
    | PubcompIn(id: U16)
    | ReceiverGone

  datatype Phase = Allocated | Sent | Finished | Refused

  /** One call of `enqueue_publish` at QoS 1 or 2; its packet carries its id. */
  datatype Task = Task(packet: PublishPacket, id: U16, phase: Phase)

  datatype Shared = Shared(session: SessionState, channel: Channel, tasks: map<nat, Task>)

  predicate Enabled(st: Shared, e: Event) {
    match e
    case Allocate(t, p) => t !in st.tasks && p.qos != AtMostOnce
    case Send(t) => t in st.tasks && st.tasks[t].phase == Allocated
    case Insert(t) => t in st.tasks && st.tasks[t].phase == Sent
    case _ => true
  }

  function Apply(st: Shared, e: Event): Shared
    requires Enabled(st, e)
  {
    match e
    case Allocate(t, p) =>
      var (id, next) := NewPacketId(st.session.nextPacketId);
      st.(session := st.session.(nextPacketId := next),
          tasks := st.tasks[t := Task(p.(packetId := Some(id)), id, Allocated)])
    case Send(t) =>
      var task := st.tasks[t];
      st.(channel := SendOn(st.channel, Publish(task.packet)),
          tasks := st.tasks[t := task.(phase := if st.channel.open then Sent else Refused)])
    case Insert(t) =>
      var task := st.tasks[t];
      var s := st.session;
      st.(session :=
            if task.packet.qos == AtLeastOnce
            then s.(pendingQos1 := s.pendingQos1[task.id := task.packet])
            else s.(pendingQos2 := s.pendingQos2[task.id := PendingQoS2(task.packet, WaitingPubrec)]),
          tasks := st.tasks[t := task.(phase := Finished)])
    case PubackIn(id) => st.(session := OnPuback(st.session, id))
    case PubrecIn(id) => st.(session := OnPubrec(st.session, id))
    case PubcompIn(id) => st.(session := OnPubcomp(st.session, id))
    case ReceiverGone => st.(channel := st.channel.(open := false))
  }

  /** With nothing in between, the steps of one call add up to the atomic enqueue. */
  lemma UninterruptedIsAtomic(st: Shared, t: nat, p: PublishPacket)
    requires t !in st.tasks && p.qos != AtMostOnce
    ensures var atomic := Enqueue(st.session, st.channel, p);
      var begun := Apply(st, Allocate(t, p));
      && Enabled(begun, Send(t))
      && var sent := Apply(begun, Send(t));
         && sent.channel == atomic.1
         && if st.channel.open
            then Enabled(sent, Insert(t)) && Apply(sent, Insert(t)).session == atomic.0 &&
                 Apply(sent, Insert(t)).channel == atomic.1
            else sent.session == atomic.0 && sent.tasks[t].phase == Refused
  {
    var q := p.(packetId := Some(NewPacketId(st.session.nextPacketId).0));
    assert Apply(st, Allocate(t, p)).tasks[t].packet == q;
  }

  predicate IsRun(start: SessionState, trace: seq<Event>)
    decreases |trace|, 0
  {
    trace == [] ||
    (IsRun(start, trace[..|trace| - 1]) && Enabled(After(start, trace[..|trace| - 1]), trace[|trace| - 1]))
  }

  function After(start: SessionState, trace: seq<Event>): Shared
    requires IsRun(start, trace)
    decreases |trace|, 1
  {
    if trace == [] then Shared(start, Channel([], true), map[])
    else Apply(After(start, trace[..|trace| - 1]), trace[|trace| - 1])
  }

  function AllocationCount(trace: seq<Event>): nat {
    if trace == [] then 0
    else AllocationCount(trace[..|trace| - 1]) + if trace[|trace| - 1].Allocate? then 1 else 0
  }

  // ----- Nothing is pending before it was sent -----

  ghost predicate SentBefore(st: Shared) {
    && (forall id | id in st.session.pendingQos1 ::
          st.session.pendingQos1[id].packetId == Some(id) && Publish(st.session.pendingQos1[id]) in st.channel.sent)
    && (forall id | id in st.session.pendingQos2 ::
          && st.session.pendingQos2[id].packet.packetId == Some(id)
          && Publish(st.session.pendingQos2[id].packet) in st.channel.sent)
    && (forall t | t in st.tasks ::
          && st.tasks[t].packet.packetId == Some(st.tasks[t].id)
          && (st.tasks[t].phase == Sent ==> Publish(st.tasks[t].packet) in st.channel.sent))
  }

  lemma SentBeforeStep(st: Shared, e: Event)
    requires SentBefore(st) && Enabled(st, e)
    ensures SentBefore(Apply(st, e))
  {
    var now := Apply(st, e);
    assert st.channel.sent <= now.channel.sent;
    assert forall p | p in st.channel.sent :: p in now.channel.sent;
  }

  /** At every point of every interleaving, what is pending under an id was sent under that id. */
  lemma {:induction false} PendingWasSent(start: SessionState, trace: seq<Event>)
    requires IsFresh(start) && IsRun(start, trace)
    ensures SentBefore(After(start, trace))
  {
    if trace != [] {
      PendingWasSent(start, trace[..|trace| - 1]);
      SentBeforeStep(After(start, trace[..|trace| - 1]), trace[|trace| - 1]);
    }
  }

  // ----- Ids of different calls differ -----

  ghost predicate DistinctIds(st: Shared, n: nat) {
    && n <= 65535 && st.session.nextPacketId == (if n == 65535 then 0 else n + 1)
    && (forall t | t in st.tasks :: 1 <= st.tasks[t].id <= n)
    && (forall t, u | t in st.tasks && u in st.tasks && t != u :: st.tasks[t].id != st.tasks[u].id)
  }

  lemma DistinctIdsStep(st: Shared, e: Event, n: nat)
    requires DistinctIds(st, n) && Enabled(st, e) && (e.Allocate? ==> n < 65535)
    ensures DistinctIds(Apply(st, e), if e.Allocate? then n + 1 else n)
  {
  }

  lemma {:induction false} IdsAreDistinct(start: SessionState, trace: seq<Event>)
    requires IsFresh(start) && IsRun(start, trace) && AllocationCount(trace) <= 65535
    ensures DistinctIds(After(start, trace), AllocationCount(trace))
  {
    if trace != [] {
      var init := trace[..|trace| - 1];
      IdsAreDistinct(start, init);
      DistinctIdsStep(After(start, init), trace[|trace| - 1], AllocationCount(init));
    }
  }

  // ----- Acknowledgements against inserts -----

  function AckOf(qos: QoS, id: U16): Event {
    if qos == AtLeastOnce then PubackIn(id) else PubcompIn(id)
  }

  predicate IsPending(st: Shared, qos: QoS, id: U16) {
    if qos == AtLeastOnce then id in st.session.pendingQos1 else id in st.session.pendingQos2
  }

  lemma {:induction false} RunPrefix(start: SessionState, trace: seq<Event>, k: nat)
    requires IsRun(start, trace) && k <= |trace|
    ensures IsRun(start, trace[..k])
    ensures AllocationCount(trace[..k]) <= AllocationCount(trace)
    ensures k < |trace| ==> Enabled(After(start, trace[..k]), trace[k])
  {
    if k < |trace| {
      var init := trace[..|trace| - 1];
      assert k < |init| ==> init[k] == trace[k];
      RunPrefix(start, init, k);
      assert init[..k] == trace[..k];
    } else {
      assert trace[..k] == trace;
    }
  }

  /** Once a call has inserted it stays finished, and its id is pending until the first
      acknowledgement after the insert, whatever else runs in between. */
  lemma {:induction false} PendingSinceInsert(start: SessionState, trace: seq<Event>, n: nat)
    requires IsFresh(start) && IsRun(start, trace) && AllocationCount(trace) <= 65535
    requires n < |trace| && trace[n].Insert?
    ensures var st := After(start, trace);
      var t := trace[n].task;
      && t in st.tasks && st.tasks[t].phase == Finished && st.tasks[t].packet.qos != AtMostOnce
      && var task := st.tasks[t];
         IsPending(st, task.packet.qos, task.id) <==>
         forall j | n < j < |trace| :: trace[j] != AckOf(task.packet.qos, task.id)
  {
    var init, e := trace[..|trace| - 1], trace[|trace| - 1];
    var before := After(start, init);
    OnlyRealTasks(start, init);
    if n < |init| {
      RunPrefix(start, trace, |init|);
      assert init[n] == trace[n];
      PendingSinceInsert(start, init, n);
      IdsAreDistinct(start, init);
      var task := before.tasks[trace[n].task];
      PendingStep(before, e, trace[n].task, AllocationCount(init));
      assert forall j | n < j < |init| :: init[j] == trace[j];
    }
  }

  ghost predicate RealTasks(st: Shared) {
    forall t | t in st.tasks :: st.tasks[t].packet.qos != AtMostOnce
  }

  lemma {:induction false} OnlyRealTasks(start: SessionState, trace: seq<Event>)
    requires IsRun(start, trace)
    ensures RealTasks(After(start, trace))
  {
    if trace != [] {
      OnlyRealTasks(start, trace[..|trace| - 1]);
    }
  }

  /** Only its own acknowledgement removes a finished call's id, and nothing brings it back. */
  lemma PendingStep(st: Shared, e: Event, t: nat, n: nat)
    requires DistinctIds(st, n) && RealTasks(st) && Enabled(st, e)
    requires t in st.tasks && st.tasks[t].phase == Finished
    ensures var task := st.tasks[t];
      && t in Apply(st, e).tasks && Apply(st, e).tasks[t] == task
      && (IsPending(Apply(st, e), task.packet.qos, task.id) <==>
          IsPending(st, task.packet.qos, task.id) && e != AckOf(task.packet.qos, task.id))
  {
  }

  /** A call that sent at `s` and inserted at `n` leaves its id pending exactly when every
      acknowledgement since the send came before the insert. */
  lemma LateInsertKeepsAckedId(start: SessionState, trace: seq<Event>, s: nat, n: nat)
    requires IsFresh(start) && IsRun(start, trace) && AllocationCount(trace) <= 65535
    requires s < |trace| && n < |trace| && trace[n].Insert? && trace[s] == Send(trace[n].task)
    ensures s < n
    ensures var st := After(start, trace);
      && trace[n].task in st.tasks
      && var task := st.tasks[trace[n].task];
         IsPending(st, task.packet.qos, task.id) <==>
         forall j | s < j < |trace| && trace[j] == AckOf(task.packet.qos, task.id) :: j < n
  {
    PendingSinceInsert(start, trace, n);
    if n < s {
      RunPrefix(start, trace, s);
      assert trace[..s][n] == trace[n];
      PendingSinceInsert(start, trace[..s], n);
    }
    var task := After(start, trace).tasks[trace[n].task];
    assert trace[n] != AckOf(task.packet.qos, task.id);
  }

  /** It does happen: an acknowledgement between send and insert leaves the id pending for good. */
  lemma AckBeforeInsertIsLost(start: SessionState, p: PublishPacket)
    requires IsFresh(start) && p.qos == AtLeastOnce
    ensures var trace := [Allocate(0, p), Send(0), PubackIn(1), Insert(0)];
      IsRun(start, trace) && 1 in After(start, trace).session.pendingQos1
  {
    var t1 := [Allocate(0, p)];
    var t2 := t1 + [Send(0)];
    var t3 := t2 + [PubackIn(1)];
    var t4 := t3 + [Insert(0)];
    RunExtends(start, [], Allocate(0, p));
    assert [] + t1 == t1;
    RunExtends(start, t1, Send(0));
    RunExtends(start, t2, PubackIn(1));
    RunExtends(start, t3, Insert(0));
    assert t4 == [Allocate(0, p), Send(0), PubackIn(1), Insert(0)];
  }

  lemma RunExtends(start: SessionState, trace: seq<Event>, e: Event)
    requires IsRun(start, trace) && Enabled(After(start, trace), e)
    ensures IsRun(start, trace + [e]) && After(start, trace + [e]) == Apply(After(start, trace), e)
  {
    assert (trace + [e])[..|trace|] == trace;
  }
}
