/**
 What a set of subscriptions means, with no tree in sight: every filter names a slot, a slot holds
 the subscribers added under it in order, and a topic reads a fixed list of slots.
 */
module Subscriptions {
  import opened Types
  import opened Levels

  /** `sender` is the handle of the channel the subscriber's packets go to. */
  datatype Subscriber = Subscriber(clientId: Bytes, sender: nat, qos: QoS)

  datatype Step = AnyLevel | Named(name: Bytes)

  type Path = seq<Step>

  /** The levels of a filter before its first `#`, and whether there was one. */
  datatype Slot = Slot(path: Path, hash: bool)

  type Table = map<Slot, seq<Subscriber>>

  function StepOf(level: Bytes): Step {
    if level == PLUS_LEVEL then AnyLevel else Named(level)
  }

  /** The slot named by `parts`, hung below `path`. */
  function SlotBelow(path: Path, parts: seq<Bytes>): Slot
    decreases |parts|
  {
    if parts == [] then Slot(path, false)
    else if parts[0] == HASH_LEVEL then Slot(path, true)
    else SlotBelow(path + [StepOf(parts[0])], parts[1..])
  }

  function SlotOf(filter: Bytes): Slot {
    SlotBelow([], Split(filter))
  }

  function Get(table: Table, slot: Slot): seq<Subscriber> {
    if slot in table then table[slot] else []
  }

  /** The subscribers of other clients, in order. */
  function Without(subs: seq<Subscriber>, clientId: Bytes): seq<Subscriber> {
    if subs == [] then []
    else if subs[0].clientId != clientId then [subs[0]] + Without(subs[1..], clientId)
    else Without(subs[1..], clientId)
  }

  function Add(table: Table, slot: Slot, sub: Subscriber): Table {
    table[slot := Get(table, slot) + [sub]]
  }

  function Remove(table: Table, slot: Slot, clientId: Bytes): Table {
    if slot in table then table[slot := Without(table[slot], clientId)] else table
  }

  function RemoveAll(table: Table, clientId: Bytes): Table {
    map slot | slot in table :: Without(table[slot], clientId)
  }

  lemma GetRemoveAll(table: Table, clientId: Bytes, slot: Slot)
    ensures Get(RemoveAll(table, clientId), slot) == Without(Get(table, slot), clientId)
  {
  }

  /** The slots a topic reads at and below `path`, in visiting order, when its levels from `depth`
      on are still ahead. */
  function SlotsRead(path: Path, parts: seq<Bytes>, depth: nat): seq<Slot>
    requires depth <= |parts|
    decreases |parts| - depth
  {
    [Slot(path, false), Slot(path, true)] +
    if depth == |parts| then []
    else SlotsRead(path + [AnyLevel], parts, depth + 1) + SlotsRead(path + [Named(parts[depth])], parts, depth + 1)
  }

  function Gather(table: Table, slots: seq<Slot>): seq<Subscriber> {
    if slots == [] then [] else Get(table, slots[0]) + Gather(table, slots[1..])
  }

  function Matches(table: Table, topic: Bytes): seq<Subscriber> {
    Gather(table, SlotsRead([], Split(topic), 0))
  }

  lemma {:induction false} SlotBelowExtends(path: Path, parts: seq<Bytes>)
    ensures path <= SlotBelow(path, parts).path
    decreases |parts|
  {
    if parts != [] && parts[0] != HASH_LEVEL {
      SlotBelowExtends(path + [StepOf(parts[0])], parts[1..]);
    }
  }

  lemma {:induction false} GatherConcat(table: Table, a: seq<Slot>, b: seq<Slot>)
    ensures Gather(table, a + b) == Gather(table, a) + Gather(table, b)
  {
    if a == [] {
      assert a + b == b;
    } else {
      GatherConcat(table, a[1..], b);
      assert (a + b)[1..] == a[1..] + b;
    }
  }

  lemma {:induction false} SlotsReadBelow(path: Path, parts: seq<Bytes>, depth: nat)
    requires depth <= |parts|
    ensures forall s | s in SlotsRead(path, parts, depth) :: path <= s.path
    decreases |parts| - depth
  {
    if depth < |parts| {
      SlotsReadBelow(path + [AnyLevel], parts, depth + 1);
      SlotsReadBelow(path + [Named(parts[depth])], parts, depth + 1);
    }
  }

  lemma {:induction false} GatherNothing(table: Table, slots: seq<Slot>)
    requires forall s | s in slots :: Get(table, s) == []
    ensures Gather(table, slots) == []
  {
    if slots != [] {
      GatherNothing(table, slots[1..]);
    }
  }
}
