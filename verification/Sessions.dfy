/** Sessions as objects: a wrapping id counter and two maps of unacknowledged publishes, and the
    table of outgoing channels that sender handles point into. */
module Sessions {
  import opened Types
  import opened SessionSpec

  class Channels {
    var table: seq<Channel>

    constructor ()
      ensures table == []
    {
      table := [];
    }

    method Open() returns (handle: nat)
      modifies this
      ensures handle == old(|table|) && table == old(table) + [Channel([], true)]
    {
      handle := |table|;
      table := table + [Channel([], true)];
    }

    /** Fails exactly when the receiver is gone. */
    method Send(handle: nat, packet: Packet) returns (ok: bool)
      requires handle < |table|
      modifies this
      ensures ok == old(table[handle].open)
      ensures table == old(table)[handle := SendOn(old(table)[handle], packet)]
    {
      ok := table[handle].open;
      if ok {
        table := table[handle := table[handle].(sent := table[handle].sent + [packet])];
      }
    }

    method DropReceiver(handle: nat)
      requires handle < |table|
      modifies this
      ensures table == old(table)[handle := old(table)[handle].(open := false)]
    {
      table := table[handle := table[handle].(open := false)];
    }
  }

  class Session {
    const clientId: Bytes
    const cleanSession: bool
    const keepAlive: U16
    const sender: nat
    var nextPacketId: U16
    var pendingQos1: map<U16, PublishPacket>
    var pendingQos2: map<U16, PendingQoS2>

    constructor (clientId: Bytes, cleanSession: bool, keepAlive: U16, sender: nat)
      ensures this.sender == sender && View() == Fresh(clientId, cleanSession, keepAlive)
    {
      this.clientId, this.cleanSession, this.keepAlive, this.sender := clientId, cleanSession, keepAlive, sender;
      nextPacketId, pendingQos1, pendingQos2 := 1, map[], map[];
    }

    ghost function View(): SessionState
      reads this
    {
      SessionState(clientId, cleanSession, keepAlive, nextPacketId, pendingQos1, pendingQos2)
    }

    method NextId() returns (id: U16)
      modifies this`nextPacketId
      ensures (id, nextPacketId) == NewPacketId(old(nextPacketId))
    {
      id := nextPacketId;
      nextPacketId := WrappingIncrement(nextPacketId);
      if id == 0 {
        nextPacketId := 1;
        return 1;
      }
    }

    method EnqueuePublish(channels: Channels, packet: PublishPacket)
      requires sender < |channels.table|
      modifies this, channels
      ensures var (s, c) := Enqueue(old(View()), old(channels.table)[sender], packet);
        View() == s && channels.table == old(channels.table)[sender := c]
    {
      if packet.qos != AtMostOnce {
        var id := NextId();
        var stamped := packet.(packetId := Some(id));
        var ok := channels.Send(sender, Publish(stamped));
        if !ok {
          return;
        }
        match packet.qos {
          case AtLeastOnce => pendingQos1 := pendingQos1[id := stamped];
          case ExactlyOnce => pendingQos2 := pendingQos2[id := PendingQoS2(stamped, WaitingPubrec)];
        }
      } else {
        var _ := channels.Send(sender, Publish(packet));
      }
    }

    method HandlePuback(id: U16)
      modifies this
      ensures View() == OnPuback(old(View()), id)
    {
      pendingQos1 := pendingQos1 - {id};
    }

    method HandlePubrec(id: U16)
      modifies this
      ensures View() == OnPubrec(old(View()), id)
    {
      if id in pendingQos2 {
        pendingQos2 := pendingQos2[id := pendingQos2[id].(state := WaitingPubcomp)];
      }
    }

    method HandlePubcomp(id: U16)
      modifies this
      ensures View() == OnPubcomp(old(View()), id)
    {
      pendingQos2 := pendingQos2 - {id};
    }
  }
}
