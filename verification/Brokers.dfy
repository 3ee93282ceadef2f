/** The broker as it runs: a map of sessions, the subscription tree and the channel table. */
module Brokers {
  import opened Types
  import opened Levels
  import opened Subscriptions
  import opened TopicTrees
  import opened SessionSpec
  import opened Sessions
  import Spec = BrokerSpec
  import Invariants = BrokerInvariants

  lemma DeliverOneMore(b: Spec.BrokerState, packet: PublishPacket, subscribers: seq<Subscriber>, i: nat)
    requires i < |subscribers|
    ensures Spec.DeliverAll(b, packet, subscribers[..i + 1]) ==
            Spec.Deliver(Spec.DeliverAll(b, packet, subscribers[..i]), packet, subscribers[i])
  {
    assert subscribers[..i + 1][..i] == subscribers[..i];
  }

  class Broker {
    var sessions: map<Bytes, Session>
    const subscriptions: TopicTree
    const channels: Channels

    /** Every session ever created, by handle: connections may hold replaced ones. */
    ghost var all: seq<Session>
    ghost var state: Spec.BrokerState

    ghost predicate Knows(session: Session)
      reads this`all
    {
      session.sender < |all| && all[session.sender] == session
    }

    ghost predicate ValidSessions()
      reads this, all
    {
      && |state.sessions| == |all|
      && (forall i | 0 <= i < |all| :: all[i].sender == i && state.sessions[i] == all[i].View())
      && state.registry.Keys == sessions.Keys
      && (forall k | k in sessions :: Knows(sessions[k]) && state.registry[k] == sessions[k].sender)
    }

    ghost predicate SendersExist(table: Table)
      reads this`all
    {
      forall slot, x | slot in table && x in table[slot] :: x.sender < |all|
    }

    ghost predicate Valid()
      reads this, all, channels, subscriptions, subscriptions.repr
    {
      && ValidSessions()
      && state.channels == channels.table && |channels.table| == |all|
      && subscriptions.Valid() && state.table == subscriptions.table && SendersExist(state.table)
    }

    /** Everything that serving a packet may change in the broker. */
    ghost function Footprint(): set<object>
      reads this, subscriptions
    {
      {this, channels, subscriptions} + subscriptions.repr + set s | s in all
    }

    constructor ()
      ensures Valid() && state == Spec.EMPTY_BROKER && all == []
      ensures fresh(channels) && fresh(subscriptions) && fresh(subscriptions.repr)
    {
      sessions := map[];
      subscriptions := new TopicTree();
      channels := new Channels();
      all, state := [], Spec.EMPTY_BROKER;
    }

    /** A new session with its own channel, registered under its client id. */
    method RegisterSession(c: ConnectPacket) returns (session: Session)
      requires Valid()
      modifies this, channels
      ensures Valid() && state == Spec.Register(old(state), c)
      ensures fresh(session) && all == old(all) + [session] && Knows(session)
    {
      var handle := channels.Open();
      session := new Session(c.clientId, c.cleanSession, c.keepAlive, handle);
      sessions := sessions[c.clientId := session];
      all := all + [session];
      state := Spec.Register(state, c);
    }

    method Send(handle: nat, packet: Packet)
      requires Valid() && handle < |all|
      modifies this`state, channels
      ensures Valid() && state == Spec.Send(old(state), handle, packet)
    {
      var _ := channels.Send(handle, packet);
      state := Spec.Send(state, handle, packet);
    }

    method DropReceiver(handle: nat)
      requires Valid() && handle < |all|
      modifies this`state, channels
      ensures Valid() && state == Spec.DropReceiver(old(state), handle)
    {
      channels.DropReceiver(handle);
      state := Spec.DropReceiver(state, handle);
    }

    method Enqueue(session: Session, packet: PublishPacket)
      requires Valid() && Knows(session)
      modifies this`state, channels, session
      ensures Valid() && state == Spec.EnqueueAt(old(state), session.sender, packet)
    {
      session.EnqueuePublish(channels, packet);
      state := Spec.EnqueueAt(state, session.sender, packet);
    }

    method Deliver(packet: PublishPacket, subscriber: Subscriber)
      requires Valid() && subscriber.sender < |all|
      modifies this`state, channels, all
      ensures Valid() && state == Spec.Deliver(old(state), packet, subscriber)
    {
      var publish := packet.(qos := MinQoS(packet.qos, subscriber.qos));
      if publish.qos == AtMostOnce {
        Send(subscriber.sender, Publish(publish));
      } else if subscriber.clientId in sessions {
        Enqueue(sessions[subscriber.clientId], publish);
      }
    }

    method HandlePublish(packet: PublishPacket)
      requires Valid()
      modifies this`state, channels, all
      ensures Valid() && state == Spec.HandlePublish(old(state), packet)
    {
      var subscribers := subscriptions.Matches(packet.topicName);
      forall x | x in subscribers ensures x.sender < |all| {
        Invariants.GatherMember(state.table, SlotsRead([], Split(packet.topicName), 0), x);
      }
      for i := 0 to |subscribers|
        invariant Valid()
        invariant state == Spec.DeliverAll(old(state), packet, subscribers[..i])
      {
        DeliverOneMore(old(state), packet, subscribers, i);
        Deliver(packet, subscribers[i]);
      }
      assert subscribers[..|subscribers|] == subscribers;
    }

    method Subscribe(filter: Bytes, subscriber: Subscriber)
      requires Valid() && subscriber.sender < |all|
      modifies this`state, subscriptions, subscriptions.repr
      ensures Valid() && fresh(subscriptions.repr - old(subscriptions.repr))
      ensures state == old(state).(table := Add(old(state.table), SlotOf(filter), subscriber))
    {
      subscriptions.Add(filter, subscriber);
      state := state.(table := Add(state.table, SlotOf(filter), subscriber));
    }

    /** One requested filter: granted QoS 1 when it is valid, whatever was asked for. */
    method Grant(session: Session, filter: Bytes) returns (code: SubscribeReturnCode)
      requires Valid() && Knows(session)
      modifies this`state, subscriptions, subscriptions.repr
      ensures Valid() && fresh(subscriptions.repr - old(subscriptions.repr))
      ensures code == Spec.ReturnCode(filter)
      ensures state == if IsValidTopicFilter(filter)
                       then old(state).(table := Add(old(state.table), SlotOf(filter),
                                                     Subscriber(session.clientId, session.sender, AtLeastOnce)))
                       else old(state)
    {
      if IsValidTopicFilter(filter) {
        Subscribe(filter, Subscriber(session.clientId, session.sender, AtLeastOnce));
        code := SuccessQoS1;
      } else {
        code := Failure;
      }
    }

    method HandleSubscribe(session: Session, packet: SubscribePacket) returns (suback: SubackPacket)
      requires Valid() && Knows(session)
      modifies this`state, subscriptions, subscriptions.repr
      ensures Valid() && fresh(subscriptions.repr - old(subscriptions.repr))
      ensures state == old(state).(table :=
                Spec.SubscribeTable(old(state.table), session.clientId, session.sender, packet.subscriptions))
      ensures suback == SubackPacket(packet.packetId, Spec.ReturnCodes(packet.subscriptions))
    {
      var codes := [];
      var list := packet.subscriptions;
      for i := 0 to |list|
        invariant Valid() && fresh(subscriptions.repr - old(subscriptions.repr))
        invariant state == old(state).(table :=
                    Spec.SubscribeTable(old(state.table), session.clientId, session.sender, list[..i]))
        invariant codes == Spec.ReturnCodes(list[..i])
      {
        assert list[..i + 1][..i] == list[..i];
        var code := Grant(session, list[i].0);
        codes := codes + [code];
      }
      assert list[..|list|] == list;
      suback := SubackPacket(packet.packetId, codes);
    }

    method Unsubscribe(filter: Bytes, clientId: Bytes)
      requires Valid()
      modifies this`state, subscriptions, subscriptions.repr
      ensures Valid() && subscriptions.repr == old(subscriptions.repr)
      ensures state == old(state).(table := Remove(old(state.table), SlotOf(filter), clientId))
    {
      subscriptions.Remove(filter, clientId);
      forall slot, x | slot in subscriptions.table && x in subscriptions.table[slot]
        ensures slot in state.table && x in state.table[slot]
      {
        Invariants.WithoutKeeps(state.table[slot], clientId);
      }
      state := state.(table := Remove(state.table, SlotOf(filter), clientId));
    }

    method HandleUnsubscribe(session: Session, packet: UnsubscribePacket)
      requires Valid()
      modifies this`state, subscriptions, subscriptions.repr
      ensures Valid() && subscriptions.repr == old(subscriptions.repr)
      ensures state == old(state).(table :=
                Spec.UnsubscribeTable(old(state.table), session.clientId, packet.topicFilters))
    {
      var filters := packet.topicFilters;
      for i := 0 to |filters|
        invariant Valid() && subscriptions.repr == old(subscriptions.repr)
        invariant state == old(state).(table :=
                    Spec.UnsubscribeTable(old(state.table), session.clientId, filters[..i]))
      {
        assert filters[..i + 1][..i] == filters[..i];
        Unsubscribe(filters[i], session.clientId);
      }
      assert filters[..|filters|] == filters;
    }

    method HandleDisconnect(session: Session)
      requires Valid()
      modifies this, subscriptions, subscriptions.repr
      ensures Valid() && state == Spec.HandleDisconnect(old(state), session.clientId)
      ensures all == old(all) && subscriptions.repr == old(subscriptions.repr)
    {
      sessions := sessions - {session.clientId};
      subscriptions.RemoveAllForClient(session.clientId);
      forall slot, x | slot in subscriptions.table && x in subscriptions.table[slot]
        ensures slot in state.table && x in state.table[slot]
      {
        Invariants.WithoutKeeps(state.table[slot], session.clientId);
      }
      state := Spec.HandleDisconnect(state, session.clientId);
    }

    method HandlePuback(session: Session, id: U16)
      requires Valid() && Knows(session)
      modifies this`state, session
      ensures Valid() && state == Spec.UpdateSession(old(state), Some(session.sender), s => OnPuback(s, id))
    {
      session.HandlePuback(id);
      state := Spec.UpdateSession(state, Some(session.sender), s => OnPuback(s, id));
    }

    method HandlePubrec(session: Session, id: U16)
      requires Valid() && Knows(session)
      modifies this`state, channels, session
      ensures Valid()
      ensures state == Spec.Send(Spec.UpdateSession(old(state), Some(session.sender), s => OnPubrec(s, id)),
                                 session.sender, Pubrel(id))
    {
      session.HandlePubrec(id);
      state := Spec.UpdateSession(state, Some(session.sender), s => OnPubrec(s, id));
      Send(session.sender, Pubrel(id));
    }

    method HandlePubcomp(session: Session, id: U16)
      requires Valid() && Knows(session)
      modifies this`state, session
      ensures Valid() && state == Spec.UpdateSession(old(state), Some(session.sender), s => OnPubcomp(s, id))
    {
      session.HandlePubcomp(id);
      state := Spec.UpdateSession(state, Some(session.sender), s => OnPubcomp(s, id));
    }
  }
}
