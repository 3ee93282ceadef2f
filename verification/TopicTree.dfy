/** The subscription tree as the broker holds it: nodes on the heap, updated in place. */
module TopicTrees {
  import opened Types
  import opened Levels
  import opened Subscriptions

  class TopicNode {
    var children: map<Bytes, TopicNode>
    var singleWildcard: TopicNode?
    var multiWildcardSubscribers: seq<Subscriber>
    var subscribers: seq<Subscriber>

    // Where the node hangs; it never moves.
    ghost const parent: TopicNode?
    ghost const step: Step
    ghost const path: Path

    constructor Root()
      ensures parent == null && path == []
      ensures children == map[] && singleWildcard == null
      ensures multiWildcardSubscribers == [] && subscribers == []
    {
      parent, step, path := null, AnyLevel, [];
      children, singleWildcard := map[], null;
      multiWildcardSubscribers, subscribers := [], [];
    }

    constructor Below(ghost parent: TopicNode, ghost step: Step)
      ensures this.parent == parent && this.step == step && path == parent.path + [step]
      ensures children == map[] && singleWildcard == null
      ensures multiWildcardSubscribers == [] && subscribers == []
    {
      this.parent, this.step, this.path := parent, step, parent.path + [step];
      children, singleWildcard := map[], null;
      multiWildcardSubscribers, subscribers := [], [];
    }
  }

  class TopicTree {
    var root: TopicNode
    ghost var repr: set<TopicNode>
    ghost var nodes: map<Path, TopicNode>
    ghost var table: Table
    ghost var depth: nat

    /** The nodes form a tree: one node a path, and parents and children point at each other. */
    ghost predicate Linked()
      reads this`repr, this`nodes, this`root, this`depth, repr
    {
      && root in repr && root.parent == null
      && (forall p | p in nodes :: nodes[p] in repr && nodes[p].path == p)
      && (forall n {:trigger LinkedAt(n)} | n in repr :: LinkedAt(n))
    }

    ghost predicate Holds(n: TopicNode)
      reads this`repr, this`nodes
    {
      n in repr && n.path in nodes && nodes[n.path] == n
    }

    ghost predicate LinkedAt(n: TopicNode)
      reads this`repr, this`nodes, this`root, this`depth, repr
    {
      && Holds(n) && |n.path| <= depth
      && (n.singleWildcard != null ==>
            n.singleWildcard in repr && n.singleWildcard.parent == n && n.singleWildcard.step == AnyLevel)
      && (forall k | k in n.children ::
            n.children[k] in repr && n.children[k].parent == n && n.children[k].step == Named(k))
      && (n.parent == null ==> n == root && n.path == [])
      && (n.parent != null ==>
            && n.parent in repr && n.path == n.parent.path + [n.step]
            && match n.step
               case AnyLevel => n.parent.singleWildcard == n
               case Named(k) => k in n.parent.children && n.parent.children[k] == n)
    }

    /** The node lists spell out the table. */
    ghost predicate Filled()
      reads this`repr, this`nodes, this`table, repr
    {
      && (forall n {:trigger FilledAt(n)} | n in repr :: FilledAt(n))
      && (forall s | s in table :: s.path in nodes)
    }

    ghost predicate FilledAt(n: TopicNode)
      reads this`table, n
    {
      && Get(table, Slot(n.path, false)) == n.subscribers
      && Get(table, Slot(n.path, true)) == n.multiWildcardSubscribers
    }

    ghost predicate Valid()
      reads this, repr
    {
      Linked() && Filled()
    }

    constructor ()
      ensures Valid() && fresh(repr) && table == map[]
    {
      var node := new TopicNode.Root();
      root, repr, nodes, table, depth := node, {node}, map[[] := node], map[], 0;
    }

    ghost predicate Points(n: TopicNode, step: Step)
      reads n
    {
      match step
      case AnyLevel => n.singleWildcard != null
      case Named(k) => k in n.children
    }

    /** A link that is not there leaves its path without a node. */
    lemma MissingChild(n: TopicNode, step: Step)
      requires Linked() && n in repr && !Points(n, step)
      ensures n.path + [step] !in nodes
    {
      var place := n.path + [step];
      assert LinkedAt(n);
      assert place[|n.path|] == step && place[..|n.path|] == n.path;
      assert place in nodes ==>
        var q := nodes[place]; LinkedAt(q) && (q.parent != null ==> LinkedAt(q.parent));
    }

    twostate predicate KeepsLinks(node: TopicNode)
      reads node
    {
      node.children == old(node.children) && node.singleWildcard == old(node.singleWildcard)
    }

    twostate predicate KeepsLists(node: TopicNode)
      reads node
    {
      && node.subscribers == old(node.subscribers)
      && node.multiWildcardSubscribers == old(node.multiWildcardSubscribers)
    }

    /** Changing subscriber lists alone leaves the tree as it was. */
    twostate lemma StillLinked()
      requires old(Linked())
      requires repr == old(repr) && nodes == old(nodes) && root == old(root) && depth == old(depth)
      requires forall n | n in repr :: KeepsLinks(n)
      ensures Linked()
    {
      forall n | n in repr ensures LinkedAt(n) {
        assert old(LinkedAt(n));
      }
    }

    /** One list of one node now holds what the table says; every other list is as before. */
    twostate lemma StillValid(slot: Slot)
      requires old(Valid())
      requires repr == old(repr) && nodes == old(nodes) && root == old(root) && depth == old(depth)
      requires slot.path in nodes && FilledAt(nodes[slot.path])
      requires forall n | n in repr :: KeepsLinks(n)
      requires forall n | n in repr && n != nodes[slot.path] :: KeepsLists(n)
      requires forall s | s != slot :: Get(table, s) == Get(old(table), s)
      requires table.Keys <= old(table.Keys) + {slot}
      ensures Valid()
    {
      StillLinked();
      forall n | n in repr ensures FilledAt(n) {
        assert LinkedAt(n) && old(FilledAt(n));
      }
    }

    /** A new, empty node at `place` that its parent already points to. */
    twostate lemma StillValidWithChild(place: Path)
      requires place != [] && place[..|place| - 1] in old(nodes) && place !in old(nodes)
      requires place in nodes && nodes == old(nodes)[place := nodes[place]]
      requires old(Valid()) && !old(Points(nodes[place[..|place| - 1]], place[|place| - 1]))
      requires var child := nodes[place];
        && child !in old(repr) && repr == old(repr) + {child} && child.path == place
        && child.parent == nodes[place[..|place| - 1]] && child.step == place[|place| - 1]
        && child.children == map[] && child.singleWildcard == null
        && child.subscribers == [] && child.multiWildcardSubscribers == []
      requires table == old(table) && root == old(root) && depth == old(depth) + |place|
      requires forall n | n in old(repr) :: KeepsLists(n)
      requires forall n | n in old(repr) && n != nodes[place].parent :: KeepsLinks(n)
      requires var n := nodes[place[..|place| - 1]];
        match place[|place| - 1]
        case AnyLevel => n.children == old(n.children) && n.singleWildcard == nodes[place]
        case Named(k) => n.children == old(n.children)[k := nodes[place]] && n.singleWildcard == old(n.singleWildcard)
      ensures Valid()
    {
      assert old(LinkedAt(nodes[place[..|place| - 1]]));
      forall n | n in repr ensures LinkedAt(n) {
        assert n in old(repr) ==> old(LinkedAt(n));
      }
      forall n | n in repr ensures FilledAt(n) {
        assert n in old(repr) ==> old(FilledAt(n));
      }
    }

    /** Puts a new, empty node where `node` has no child yet. */
    method NewChild(node: TopicNode, step: Step) returns (child: TopicNode)
      requires Valid() && node in repr && !Points(node, step)
      modifies this`repr, this`nodes, this`depth, node
      ensures Valid() && repr == old(repr) + {child} && fresh(child) && child.path == node.path + [step]
      ensures match step
              case AnyLevel => node.singleWildcard == child
              case Named(k) => k in node.children && node.children[k] == child
    {
      assert LinkedAt(node);
      MissingChild(node, step);
      child := new TopicNode.Below(node, step);
      match step {
        case AnyLevel => node.singleWildcard := child;
        case Named(k) => node.children := node.children[k := child];
      }
      repr, nodes, depth := repr + {child}, nodes[child.path := child], depth + |child.path|;
      assert child.path[..|child.path| - 1] == node.path;
      StillValidWithChild(child.path);
    }

    method WildcardChild(node: TopicNode) returns (child: TopicNode)
      requires Valid() && node in repr
      modifies this`repr, this`nodes, this`depth, node
      ensures Valid() && child in repr && child.path == node.path + [AnyLevel]
      ensures child == node.singleWildcard && old(repr) <= repr && fresh(repr - old(repr))
    {
      if node.singleWildcard == null {
        child := NewChild(node, AnyLevel);
      } else {
        child := node.singleWildcard;
        assert LinkedAt(node) && LinkedAt(child);
      }
    }

    method ExactChild(node: TopicNode, level: Bytes) returns (child: TopicNode)
      requires Valid() && node in repr
      modifies this`repr, this`nodes, this`depth, node
      ensures Valid() && child in repr && child.path == node.path + [Named(level)]
      ensures level in node.children && child == node.children[level]
      ensures old(repr) <= repr && fresh(repr - old(repr))
    {
      if level !in node.children {
        child := NewChild(node, Named(level));
      } else {
        child := node.children[level];
        assert LinkedAt(node) && LinkedAt(child);
      }
    }

    method AddRecursive(node: TopicNode, parts: seq<Bytes>, subscriber: Subscriber)
      requires Valid() && node in repr
      modifies this`repr, this`nodes, this`depth, this`table, repr
      ensures Valid() && old(repr) <= repr && fresh(repr - old(repr))
      ensures table == Subscriptions.Add(old(table), SlotBelow(node.path, parts), subscriber)
      decreases |parts|
    {
      assert FilledAt(node) && LinkedAt(node);
      if parts == [] {
        node.subscribers := node.subscribers + [subscriber];
        table := Subscriptions.Add(table, Slot(node.path, false), subscriber);
        StillValid(Slot(node.path, false));
      } else if parts[0] == HASH_LEVEL {
        node.multiWildcardSubscribers := node.multiWildcardSubscribers + [subscriber];
        table := Subscriptions.Add(table, Slot(node.path, true), subscriber);
        StillValid(Slot(node.path, true));
      } else if parts[0] == PLUS_LEVEL {
        var child := WildcardChild(node);
        AddRecursive(child, parts[1..], subscriber);
      } else {
        var child := ExactChild(node, parts[0]);
        AddRecursive(child, parts[1..], subscriber);
      }
    }

    method RemoveRecursive(node: TopicNode, parts: seq<Bytes>, clientId: Bytes) returns (atEnd: bool)
      requires Valid() && node in repr
      modifies this`table, repr
      ensures Valid()
      ensures table == Subscriptions.Remove(old(table), SlotBelow(node.path, parts), clientId)
      ensures atEnd <==> parts == []
      decreases |parts|
    {
      assert FilledAt(node) && LinkedAt(node);
      if parts == [] {
        node.subscribers := Without(node.subscribers, clientId);
        table := Subscriptions.Remove(table, Slot(node.path, false), clientId);
        StillValid(Slot(node.path, false));
        return true;
      }
      if parts[0] == HASH_LEVEL {
        node.multiWildcardSubscribers := Without(node.multiWildcardSubscribers, clientId);
        table := Subscriptions.Remove(table, Slot(node.path, true), clientId);
        StillValid(Slot(node.path, true));
      } else if parts[0] == PLUS_LEVEL {
        if node.singleWildcard != null {
          assert LinkedAt(node.singleWildcard);
          var _ := RemoveRecursive(node.singleWildcard, parts[1..], clientId);
        } else {
          NothingStored(node, AnyLevel, parts[1..]);
        }
      } else if parts[0] in node.children {
        assert LinkedAt(node.children[parts[0]]);
        var _ := RemoveRecursive(node.children[parts[0]], parts[1..], clientId);
      } else {
        NothingStored(node, Named(parts[0]), parts[1..]);
      }
      return false;
    }

    /** A missing child means no node, and so no table entry, anywhere below its place. */
    lemma {:induction false} NoNodeBelow(path: Path, q: Path)
      requires Linked() && path !in nodes && path <= q && path != []
      ensures q !in nodes
      decreases |q|
    {
      if path != q {
        NoNodeBelow(path, q[..|q| - 1]);
        assert q in nodes ==>
          var n := nodes[q]; LinkedAt(n) && (n.parent != null ==> LinkedAt(n.parent));
      }
    }

    lemma NothingBelow(n: TopicNode, step: Step)
      requires Valid() && n in repr && !Points(n, step)
      ensures forall s | s in table :: !(n.path + [step] <= s.path)
    {
      MissingChild(n, step);
      forall s | s in table ensures !(n.path + [step] <= s.path) {
        if n.path + [step] <= s.path {
          NoNodeBelow(n.path + [step], s.path);
        }
      }
    }

    lemma NothingStored(n: TopicNode, step: Step, parts: seq<Bytes>)
      requires Valid() && n in repr && !Points(n, step)
      ensures SlotBelow(n.path + [step], parts) !in table
    {
      NothingBelow(n, step);
      SlotBelowExtends(n.path + [step], parts);
    }

    lemma NothingRead(n: TopicNode, step: Step, parts: seq<Bytes>, depth: nat)
      requires Valid() && n in repr && !Points(n, step) && depth <= |parts|
      ensures Gather(table, SlotsRead(n.path + [step], parts, depth)) == []
    {
      NothingBelow(n, step);
      SlotsReadBelow(n.path + [step], parts, depth);
      GatherNothing(table, SlotsRead(n.path + [step], parts, depth));
    }

    method MatchesRecursive(node: TopicNode, parts: seq<Bytes>, depth: nat, found: seq<Subscriber>)
      returns (result: seq<Subscriber>)
      requires Valid() && node in repr && depth <= |parts|
      ensures result == found + Gather(table, SlotsRead(node.path, parts, depth))
      decreases |parts| - depth, 1
    {
      assert FilledAt(node);
      result := found + node.subscribers;
      result := result + node.multiWildcardSubscribers;
      GatherNode(table, found, node.path, parts, depth);
      if depth >= |parts| {
        return;
      }
      result := MatchesWildcardChild(node, parts, depth, result);
      result := MatchesExactChild(node, parts, depth, result);
    }

    method MatchesWildcardChild(node: TopicNode, parts: seq<Bytes>, depth: nat, found: seq<Subscriber>)
      returns (result: seq<Subscriber>)
      requires Valid() && node in repr && depth < |parts|
      ensures result == found + Gather(table, SlotsRead(node.path + [AnyLevel], parts, depth + 1))
      decreases |parts| - depth, 0
    {
      result := found;
      if node.singleWildcard != null {
        assert LinkedAt(node) && LinkedAt(node.singleWildcard);
        result := MatchesRecursive(node.singleWildcard, parts, depth + 1, result);
      } else {
        NothingRead(node, AnyLevel, parts, depth + 1);
      }
    }

    method MatchesExactChild(node: TopicNode, parts: seq<Bytes>, depth: nat, found: seq<Subscriber>)
      returns (result: seq<Subscriber>)
      requires Valid() && node in repr && depth < |parts|
      ensures result == found + Gather(table, SlotsRead(node.path + [Named(parts[depth])], parts, depth + 1))
      decreases |parts| - depth, 0
    {
      var current := parts[depth];
      result := found;
      if current in node.children {
        assert LinkedAt(node) && LinkedAt(node.children[current]);
        result := MatchesRecursive(node.children[current], parts, depth + 1, result);
      } else {
        NothingRead(node, Named(current), parts, depth + 1);
      }
    }

    ghost function Lists(): NodeLists
      reads this`repr, repr
    {
      map n | n in repr :: (n.subscribers, n.multiWildcardSubscribers)
    }

    /** The nodes a sweep from `base` has been at while the exact children in `todo` are ahead. */
    ghost function Swept(base: Path, todo: set<Bytes>): set<TopicNode>
      reads this`repr
    {
      set n | n in repr && base <= n.path &&
              !(base < n.path && n.path[|base|].Named? && n.path[|base|].name in todo)
    }

    lemma OnlyChildrenBelow(n: TopicNode, q: TopicNode)
      requires Linked() && n in repr && q in repr && n.path < q.path
      ensures Points(n, q.path[|n.path|])
    {
      var step := q.path[|n.path|];
      StepBelow(n.path, step, q.path);
      assert LinkedAt(q);
      if !Points(n, step) {
        MissingChild(n, step);
        NoNodeBelow(n.path + [step], q.path);
      }
    }

    /** Before the exact children come the node itself and all below its `+` child. */
    lemma SweptFirst(n: TopicNode)
      requires Linked() && n in repr
      ensures Swept(n.path, n.children.Keys) ==
              {n} + if n.singleWildcard == null then {} else Swept(n.path + [AnyLevel], {})
    {
      assert LinkedAt(n);
      forall q | q in repr
        ensures q in Swept(n.path, n.children.Keys) <==>
                q == n || (n.singleWildcard != null && n.path + [AnyLevel] <= q.path)
      {
        assert LinkedAt(q);
        StepBelow(n.path, AnyLevel, q.path);
        assert n.path <= q.path && !(n.path < q.path) ==> n.path == q.path;
        if n.path < q.path {
          OnlyChildrenBelow(n, q);
        }
      }
    }

    lemma SweptNext(base: Path, todo: set<Bytes>, k: Bytes)
      requires k in todo
      ensures Swept(base, todo - {k}) == Swept(base, todo) + Swept(base + [Named(k)], {})
      ensures Swept(base, todo) !! Swept(base + [Named(k)], {})
    {
      forall n | n in repr
        ensures base + [Named(k)] <= n.path <==> base < n.path && n.path[|base|] == Named(k)
      {
        StepBelow(base, Named(k), n.path);
      }
    }

    /** The client leaves one node's own two lists. */
    method RetainOthers(node: TopicNode, clientId: Bytes)
      requires Linked() && node in repr
      modifies node
      ensures Linked() && forall n | n in repr :: KeepsLinks(n)
      ensures Lists() == Purge(old(Lists()), {node}, clientId)
    {
      node.subscribers := Without(node.subscribers, clientId);
      node.multiWildcardSubscribers := Without(node.multiWildcardSubscribers, clientId);
      StillLinked();
    }

    method RemoveAllRecursive(node: TopicNode, clientId: Bytes)
      requires Linked() && node in repr
      modifies repr
      ensures Linked() && forall n | n in repr :: KeepsLinks(n)
      ensures Lists() == Purge(old(Lists()), Swept(node.path, {}), clientId)
      decreases depth - |node.path|
    {
      RetainOthers(node, clientId);
      assert LinkedAt(node);
      ghost var done := {node};
      if node.singleWildcard != null {
        assert LinkedAt(node.singleWildcard);
        RemoveAllRecursive(node.singleWildcard, clientId);
        ghost var below := Swept(node.path + [AnyLevel], {});
        PurgeTwice(old(Lists()), done, below, clientId);
        done := done + below;
      }
      SweptFirst(node);
      var todo := node.children.Keys;
      while todo != {}
        invariant todo <= node.children.Keys
        invariant Linked() && forall n | n in repr :: KeepsLinks(n)
        invariant Lists() == Purge(old(Lists()), Swept(node.path, todo), clientId)
      {
        var k :| k in todo;
        assert LinkedAt(node) && LinkedAt(node.children[k]);
        RemoveAllRecursive(node.children[k], clientId);
        SweptNext(node.path, todo, k);
        PurgeTwice(old(Lists()), Swept(node.path, todo), Swept(node.path + [Named(k)], {}), clientId);
        todo := todo - {k};
      }
    }

    method Add(filter: Bytes, subscriber: Subscriber)
      requires Valid()
      modifies this, repr
      ensures Valid() && old(repr) <= repr && fresh(repr - old(repr))
      ensures table == Subscriptions.Add(old(table), SlotOf(filter), subscriber)
    {
      assert LinkedAt(root);
      AddRecursive(root, Split(filter), subscriber);
    }

    method Remove(filter: Bytes, clientId: Bytes)
      requires Valid()
      modifies this`table, repr
      ensures Valid()
      ensures table == Subscriptions.Remove(old(table), SlotOf(filter), clientId)
    {
      assert LinkedAt(root);
      var _ := RemoveRecursive(root, Split(filter), clientId);
    }

    method RemoveAllForClient(clientId: Bytes)
      requires Valid()
      modifies this`table, repr
      ensures Valid()
      ensures table == RemoveAll(old(table), clientId)
    {
      RemoveAllRecursive(root, clientId);
      table := RemoveAll(table, clientId);
      assert old(LinkedAt(root));
      forall n | n in repr ensures FilledAt(n) {
        assert old(FilledAt(n));
        assert Lists()[n] == Purge(old(Lists()), Swept([], {}), clientId)[n];
        GetRemoveAll(old(table), clientId, Slot(n.path, false));
        GetRemoveAll(old(table), clientId, Slot(n.path, true));
      }
    }

    method Matches(topic: Bytes) returns (result: seq<Subscriber>)
      requires Valid()
      ensures result == Subscriptions.Matches(table, topic)
    {
      assert LinkedAt(root);
      result := MatchesRecursive(root, Split(topic), 0, []);
    }
  }

  lemma GatherNode(table: Table, found: seq<Subscriber>, path: Path, parts: seq<Bytes>, depth: nat)
    requires depth <= |parts|
    ensures var here := found + Get(table, Slot(path, false)) + Get(table, Slot(path, true));
      found + Gather(table, SlotsRead(path, parts, depth)) ==
      if depth == |parts| then here
      else here + Gather(table, SlotsRead(path + [AnyLevel], parts, depth + 1))
                + Gather(table, SlotsRead(path + [Named(parts[depth])], parts, depth + 1))
  {
    var s0, s1 := Slot(path, false), Slot(path, true);
    if depth == |parts| {
      GatherPair(table, s0, s1, []);
      assert SlotsRead(path, parts, depth) == [s0, s1] + [];
    } else {
      var below := SlotsRead(path + [AnyLevel], parts, depth + 1);
      var named := SlotsRead(path + [Named(parts[depth])], parts, depth + 1);
      assert SlotsRead(path, parts, depth) == [s0, s1] + (below + named);
      GatherPair(table, s0, s1, below + named);
      GatherConcat(table, below, named);
      Regroup(found, Get(table, s0), Get(table, s1), Gather(table, below), Gather(table, named));
    }
  }

  /** The two subscriber lists of every node. */
  type NodeLists = map<TopicNode, (seq<Subscriber>, seq<Subscriber>)>

  ghost function Purge(lists: NodeLists, at: set<TopicNode>, clientId: Bytes): NodeLists {
    map n | n in lists ::
      if n in at then (Without(lists[n].0, clientId), Without(lists[n].1, clientId)) else lists[n]
  }

  lemma PurgeTwice(lists: NodeLists, a: set<TopicNode>, b: set<TopicNode>, clientId: Bytes)
    requires a !! b
    ensures Purge(Purge(lists, a, clientId), b, clientId) == Purge(lists, a + b, clientId)
  {
  }

  lemma StepBelow(base: Path, step: Step, p: Path)
    ensures base + [step] <= p <==> base < p && p[|base|] == step
  {
    if base < p && p[|base|] == step {
      assert p[..|base| + 1] == base + [step];
    }
  }

  lemma GatherPair(table: Table, s0: Slot, s1: Slot, rest: seq<Slot>)
    ensures Gather(table, [s0, s1] + rest) == Get(table, s0) + Get(table, s1) + Gather(table, rest)
  {
    var slots := [s0, s1] + rest;
    assert slots[1..] == [s1] + rest;
    assert slots[1..][1..] == rest;
    assert Gather(table, slots[1..]) == Get(table, s1) + Gather(table, rest);
  }

  lemma Regroup<T>(a: seq<T>, b: seq<T>, c: seq<T>, d: seq<T>, e: seq<T>)
    ensures a + b + c + d + e == a + (b + c + (d + e))
  {
  }
}
