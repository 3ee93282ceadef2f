/**
 What the subscription table is for: after any history of operations a topic finds exactly the
 entries of the flat list of (filter, subscriber) pairs whose filter matches, and how that matching
 compares with section 4.7.1 of MQTT 3.1.1.
 */
module SubscriptionProofs {
  import opened Types
  import opened Levels
  import opened Subscriptions

  datatype Operation =
    | AddOp(filter: Bytes, sub: Subscriber)
    | RemoveOp(filter: Bytes, clientId: Bytes)
    | RemoveAllOp(clientId: Bytes)

  datatype Entry = Entry(filter: Bytes, sub: Subscriber)

  function Perform(table: Table, op: Operation): Table {
    match op
    case AddOp(filter, sub) => Add(table, SlotOf(filter), sub)
    case RemoveOp(filter, clientId) => Remove(table, SlotOf(filter), clientId)
    case RemoveAllOp(clientId) => RemoveAll(table, clientId)
  }

  /** The table after a history of operations, oldest first. */
  function TableAfter(history: seq<Operation>): Table {
    if history == [] then map[] else Perform(TableAfter(history[..|history| - 1]), history[|history| - 1])
  }

  function Keep(entries: seq<Entry>, p: Entry -> bool): seq<Entry> {
    if entries == [] then []
    else Keep(entries[..|entries| - 1], p) +
         if p(entries[|entries| - 1]) then [entries[|entries| - 1]] else []
  }

  /** The flat list: what is subscribed, with no index at all. */
  function FlatAfter(history: seq<Operation>): seq<Entry> {
    if history == [] then []
    else
      var flat := FlatAfter(history[..|history| - 1]);
      match history[|history| - 1]
      case AddOp(filter, sub) => flat + [Entry(filter, sub)]
      case RemoveOp(filter, clientId) =>
        Keep(flat, (e: Entry) => !(SlotOf(e.filter) == SlotOf(filter) && e.sub.clientId == clientId))
      case RemoveAllOp(clientId) => Keep(flat, (e: Entry) => e.sub.clientId != clientId)
  }

  /** The subscribers among `entries` that satisfy `p`, in order. */
  function Subs(entries: seq<Entry>, p: Entry -> bool): seq<Subscriber> {
    if entries == [] then []
    else Subs(entries[..|entries| - 1], p) +
         if p(entries[|entries| - 1]) then [entries[|entries| - 1].sub] else []
  }

  // ----- The table holds the flat list, slot by slot -----

  lemma {:induction false} WithoutConcat(a: seq<Subscriber>, b: seq<Subscriber>, clientId: Bytes)
    ensures Without(a + b, clientId) == Without(a, clientId) + Without(b, clientId)
  {
    if a == [] {
      assert a + b == b;
    } else {
      assert (a + b)[1..] == a[1..] + b;
      WithoutConcat(a[1..], b, clientId);
    }
  }

  lemma {:induction false} SubsOfKeep(entries: seq<Entry>, keep: Entry -> bool, p: Entry -> bool, q: Entry -> bool)
    requires forall e :: q(e) <==> keep(e) && p(e)
    ensures Subs(Keep(entries, keep), p) == Subs(entries, q)
  {
    if entries != [] {
      var init, e := entries[..|entries| - 1], entries[|entries| - 1];
      SubsOfKeep(init, keep, p, q);
      assert Keep(entries, keep) == Keep(init, keep) + if keep(e) then [e] else [];
      if keep(e) {
        assert Keep(entries, keep)[..|Keep(init, keep)|] == Keep(init, keep);
      } else {
        assert Keep(entries, keep) == Keep(init, keep);
      }
    }
  }

  lemma {:induction false} WithoutSubs(entries: seq<Entry>, p: Entry -> bool, q: Entry -> bool, clientId: Bytes)
    requires forall e :: q(e) <==> p(e) && e.sub.clientId != clientId
    ensures Without(Subs(entries, p), clientId) == Subs(entries, q)
  {
    if entries != [] {
      var init, e := entries[..|entries| - 1], entries[|entries| - 1];
      WithoutSubs(init, p, q, clientId);
      WithoutConcat(Subs(init, p), if p(e) then [e.sub] else [], clientId);
    }
  }

  lemma {:induction false} SubsExtensional(entries: seq<Entry>, p: Entry -> bool, q: Entry -> bool)
    requires forall e | e in entries :: p(e) <==> q(e)
    ensures Subs(entries, p) == Subs(entries, q)
  {
    if entries != [] {
      SubsExtensional(entries[..|entries| - 1], p, q);
    }
  }

  function InSlot(slot: Slot): Entry -> bool {
    (e: Entry) => SlotOf(e.filter) == slot
  }

  lemma {:induction false} TableHoldsFlatList(history: seq<Operation>, slot: Slot)
    ensures Get(TableAfter(history), slot) == Subs(FlatAfter(history), InSlot(slot))
  {
    if history != [] {
      var init, op := history[..|history| - 1], history[|history| - 1];
      var flat := FlatAfter(init);
      TableHoldsFlatList(init, slot);
      match op
      case AddOp(filter, sub) =>
        assert FlatAfter(history)[..|flat|] == flat;
      case RemoveOp(filter, clientId) =>
        var keep := (e: Entry) => !(SlotOf(e.filter) == SlotOf(filter) && e.sub.clientId == clientId);
        var q := (e: Entry) => keep(e) && InSlot(slot)(e);
        SubsOfKeep(flat, keep, InSlot(slot), q);
        if slot == SlotOf(filter) {
          WithoutSubs(flat, InSlot(slot), q, clientId);
        } else {
          SubsExtensional(flat, InSlot(slot), q);
        }
      case RemoveAllOp(clientId) =>
        var keep := (e: Entry) => e.sub.clientId != clientId;
        var q := (e: Entry) => keep(e) && InSlot(slot)(e);
        SubsOfKeep(flat, keep, InSlot(slot), q);
        WithoutSubs(flat, InSlot(slot), q, clientId);
        GetRemoveAll(TableAfter(init), clientId, slot);
    }
  }

  // ----- A topic reads the slots of the filters that match a level-prefix of it -----

  /** The levels of a filter before its first `#`. */
  function BeforeHash(levels: seq<Bytes>): seq<Bytes> {
    if levels == [] || levels[0] == [0x23] then [] else [levels[0]] + BeforeHash(levels[1..])
  }

  predicate LevelsMatch(pattern: seq<Bytes>, topic: seq<Bytes>) {
    && |pattern| <= |topic|
    && forall i | 0 <= i < |pattern| :: pattern[i] == [0x2B] || pattern[i] == topic[i]
  }

  /** What the broker takes as a match. */
  predicate Found(filter: Bytes, topic: Bytes) {
    LevelsMatch(BeforeHash(Split(filter)), Split(topic))
  }

  lemma {:induction false} ReadIffMatch(path: Path, filter: seq<Bytes>, topic: seq<Bytes>, depth: nat)
    requires depth <= |topic|
    ensures SlotBelow(path, filter) in SlotsRead(path, topic, depth)
       <==> LevelsMatch(BeforeHash(filter), topic[depth..])
    decreases |filter|
  {
    var slot := SlotBelow(path, filter);
    if filter == [] || filter[0] == HASH_LEVEL {
      assert slot in [Slot(path, false), Slot(path, true)];
    } else {
      var step := StepOf(filter[0]);
      var pattern := BeforeHash(filter);
      assert pattern[1..] == BeforeHash(filter[1..]);
      SlotBelowExtends(path + [step], filter[1..]);
      assert slot.path[|path|] == step && |slot.path| > |path|;
      if depth < |topic| {
        var below := SlotsRead(path + [AnyLevel], topic, depth + 1);
        var named := SlotsRead(path + [Named(topic[depth])], topic, depth + 1);
        SlotsReadBelow(path + [AnyLevel], topic, depth + 1);
        SlotsReadBelow(path + [Named(topic[depth])], topic, depth + 1);
        assert slot in SlotsRead(path, topic, depth) <==> slot in below || slot in named;
        assert forall s: Slot, x: Step | path + [x] <= s.path :: s.path[|path|] == x;
        ReadIffMatch(path + [step], filter[1..], topic, depth + 1);
        assert topic[depth..][1..] == topic[depth + 1..];
        LevelsMatchCons(pattern, topic[depth..]);
      }
    }
  }

  lemma LevelsMatchCons(pattern: seq<Bytes>, topic: seq<Bytes>)
    requires pattern != [] && topic != []
    ensures LevelsMatch(pattern, topic) <==>
            (pattern[0] == PLUS_LEVEL || pattern[0] == topic[0]) && LevelsMatch(pattern[1..], topic[1..])
  {
    if LevelsMatch(pattern, topic) {
      assert forall i | 0 <= i < |pattern[1..]| :: pattern[1..][i] == pattern[i + 1] && topic[1..][i] == topic[i + 1];
    } else if |pattern| <= |topic| {
      var i :| 0 <= i < |pattern| && !(pattern[i] == PLUS_LEVEL || pattern[i] == topic[i]);
      assert i > 0 ==> pattern[1..][i - 1] == pattern[i] && topic[1..][i - 1] == topic[i];
    }
  }

  /** No slot is read twice. */
  predicate Distinct(slots: seq<Slot>) {
    forall i, j | 0 <= i < j < |slots| :: slots[i] != slots[j]
  }

  lemma {:induction false} SlotsReadDistinct(path: Path, topic: seq<Bytes>, depth: nat)
    requires depth <= |topic|
    ensures Distinct(SlotsRead(path, topic, depth))
    decreases |topic| - depth
  {
    if depth < |topic| {
      var below := SlotsRead(path + [AnyLevel], topic, depth + 1);
      var named := SlotsRead(path + [Named(topic[depth])], topic, depth + 1);
      SlotsReadDistinct(path + [AnyLevel], topic, depth + 1);
      SlotsReadDistinct(path + [Named(topic[depth])], topic, depth + 1);
      SlotsReadBelow(path + [AnyLevel], topic, depth + 1);
      SlotsReadBelow(path + [Named(topic[depth])], topic, depth + 1);
      forall s | s in below ensures |s.path| > |path| && s.path[|path|] == AnyLevel { }
      forall s | s in named ensures |s.path| > |path| && s.path[|path|] == Named(topic[depth]) { }
      DistinctConcat(below, named);
      DistinctConcat([Slot(path, false), Slot(path, true)], below + named);
    }
  }

  lemma DistinctConcat(a: seq<Slot>, b: seq<Slot>)
    requires Distinct(a) && Distinct(b) && forall s | s in a :: s !in b
    ensures Distinct(a + b)
  {
    var c := a + b;
    forall i, j | 0 <= i < j < |c| ensures c[i] != c[j] {
      assert i < |a| ==> c[i] in a;
      assert j >= |a| ==> c[j] in b;
    }
  }

  // ----- Counting: distinct slots share no entry -----

  lemma {:induction false} SubsSplit(entries: seq<Entry>, p: Entry -> bool, q: Entry -> bool, r: Entry -> bool)
    requires forall e :: r(e) <==> p(e) || q(e)
    requires forall e :: !(p(e) && q(e))
    ensures multiset(Subs(entries, r)) == multiset(Subs(entries, p)) + multiset(Subs(entries, q))
  {
    if entries != [] {
      SubsSplit(entries[..|entries| - 1], p, q, r);
    }
  }

  function InSlots(slots: seq<Slot>): Entry -> bool {
    (e: Entry) => SlotOf(e.filter) in slots
  }

  lemma {:induction false} GatherCounts(table: Table, entries: seq<Entry>, slots: seq<Slot>)
    requires forall s :: Get(table, s) == Subs(entries, InSlot(s))
    requires Distinct(slots)
    ensures multiset(Gather(table, slots)) == multiset(Subs(entries, InSlots(slots)))
  {
    if slots == [] {
      NoSubs(entries, InSlots(slots));
    } else {
      var rest := slots[1..];
      GatherCounts(table, entries, rest);
      assert slots == [slots[0]] + rest;
      SubsSplit(entries, InSlot(slots[0]), InSlots(rest), InSlots(slots));
    }
  }

  lemma {:induction false} NoSubs(entries: seq<Entry>, p: Entry -> bool)
    requires forall e :: !p(e)
    ensures Subs(entries, p) == []
  {
    if entries != [] {
      NoSubs(entries[..|entries| - 1], p);
    }
  }

  /** Every history, every topic: the matches are exactly the matching entries of the flat list,
      each as often as it was added. */
  lemma MatchesAreTheMatchingEntries(history: seq<Operation>, topic: Bytes)
    ensures multiset(Matches(TableAfter(history), topic)) ==
            multiset(Subs(FlatAfter(history), (e: Entry) => Found(e.filter, topic)))
  {
    var table, flat := TableAfter(history), FlatAfter(history);
    var slots := SlotsRead([], Split(topic), 0);
    forall s ensures Get(table, s) == Subs(flat, InSlot(s)) {
      TableHoldsFlatList(history, s);
    }
    SlotsReadDistinct([], Split(topic), 0);
    GatherCounts(table, flat, slots);
    forall e: Entry ensures InSlots(slots)(e) <==> Found(e.filter, topic) {
      ReadIffMatch([], Split(e.filter), Split(topic), 0);
      assert Split(topic)[0..] == Split(topic);
    }
    SubsExtensional(flat, InSlots(slots), (e: Entry) => Found(e.filter, topic));
  }

  // ----- Against section 4.7.1 of MQTT 3.1.1 -----

  /** `#` takes the parent level and everything below it, `+` exactly one level, any other level
      itself. */
  predicate StandardMatch(filter: seq<Bytes>, topic: seq<Bytes>) {
    if filter == [[0x23]] then true
    else if filter == [] || topic == [] then filter == topic
    else (filter[0] == [0x2B] || filter[0] == topic[0]) && StandardMatch(filter[1..], topic[1..])
  }

  /** A filter without `#` that stops short of the topic's last level. */
  predicate ProperPrefixMatch(filter: seq<Bytes>, topic: seq<Bytes>) {
    && [0x23] !in filter
    && |filter| < |topic|
    && LevelsMatch(filter, topic)
  }

  lemma {:induction false} FoundVersusStandard(filter: seq<Bytes>, topic: seq<Bytes>)
    requires HashOnlyLast(filter)
    ensures LevelsMatch(BeforeHash(filter), topic) <==>
            StandardMatch(filter, topic) || ProperPrefixMatch(filter, topic)
    ensures !(StandardMatch(filter, topic) && ProperPrefixMatch(filter, topic))
    decreases |filter|
  {
    if filter != [] {
      if filter[0] == HASH_LEVEL {
        assert HASH in filter[0];
        assert filter == [HASH_LEVEL];
      } else {
        forall i | 0 <= i < |filter[1..]| && HASH in filter[1..][i]
          ensures filter[1..][i] == HASH_LEVEL && i == |filter[1..]| - 1
        {
          assert filter[i + 1] == filter[1..][i];
        }
        assert BeforeHash(filter)[1..] == BeforeHash(filter[1..]);
        assert HASH_LEVEL in filter <==> HASH_LEVEL in filter[1..] by {
          assert filter == [filter[0]] + filter[1..];
        }
        if topic != [] {
          FoundVersusStandard(filter[1..], topic[1..]);
          LevelsMatchCons(BeforeHash(filter), topic);
          LevelsMatchCons(filter, topic);
        }
      }
    }
  }

  /** Section 4.7.2: a filter that starts with a wildcard is not for topics that start with `$`. */
  predicate Shielded(filter: Bytes, topic: Bytes) {
    topic != [] && topic[0] == 0x24 && (Split(filter)[0] == [0x23] || Split(filter)[0] == [0x2B])
  }

  /** Sections 4.7.1 and 4.7.2 together. */
  predicate FullMatch(filter: Bytes, topic: Bytes) {
    StandardMatch(Split(filter), Split(topic)) && !Shielded(filter, topic)
  }

  /** The first kind of surplus: the filter has no `#` and stops short of the topic's last level. */
  predicate FallsShort(filter: Bytes, topic: Bytes) {
    ProperPrefixMatch(Split(filter), Split(topic))
  }

  /** The second kind: only section 4.7.2 speaks against it. */
  predicate Leaks(filter: Bytes, topic: Bytes) {
    StandardMatch(Split(filter), Split(topic)) && Shielded(filter, topic)
  }

  /** One filter and one topic: what the broker matches falls into three kinds, and it agrees with the
      standard exactly when the filter is not a proper level-prefix without `#` and not a wildcard-first
      filter found by a `$` topic. */
  lemma FoundVersusFullStandard(filter: Bytes, topic: Bytes)
    requires HashOnlyLast(Split(filter))
    ensures Found(filter, topic) <==> FullMatch(filter, topic) || FallsShort(filter, topic) || Leaks(filter, topic)
    ensures !(FullMatch(filter, topic) && FallsShort(filter, topic))
    ensures !(FullMatch(filter, topic) && Leaks(filter, topic)) && !(FallsShort(filter, topic) && Leaks(filter, topic))
    ensures (Found(filter, topic) <==> FullMatch(filter, topic)) <==>
            !FallsShort(filter, topic) && !(Shielded(filter, topic) && Found(filter, topic))
  {
    FoundVersusStandard(Split(filter), Split(topic));
  }

  function Full(topic: Bytes): Entry -> bool {
    (e: Entry) => FullMatch(e.filter, topic)
  }

  function Short(topic: Bytes): Entry -> bool {
    (e: Entry) => FallsShort(e.filter, topic)
  }

  function Leaked(topic: Bytes): Entry -> bool {
    (e: Entry) => Leaks(e.filter, topic)
  }

  /** For valid filters nothing the standard matches is missed, and the surplus is exactly the entries
      whose filter has no `#` and matches a proper level-prefix, and those whose filter starts with a
      wildcard and matches a `$` topic. */
  lemma MatchesVersusStandard(history: seq<Operation>, topic: Bytes)
    requires forall e | e in FlatAfter(history) :: IsValidTopicFilter(e.filter)
    ensures var flat := FlatAfter(history);
      multiset(Matches(TableAfter(history), topic)) ==
      multiset(Subs(flat, Full(topic))) + multiset(Subs(flat, Short(topic))) + multiset(Subs(flat, Leaked(topic)))
  {
    var flat := FlatAfter(history);
    MatchesAreTheMatchingEntries(history, topic);
    SurplusSplit(flat, topic);
  }

  lemma {:induction false} SurplusSplit(entries: seq<Entry>, topic: Bytes)
    requires forall e | e in entries :: IsValidTopicFilter(e.filter)
    ensures multiset(Subs(entries, (e: Entry) => Found(e.filter, topic))) ==
            multiset(Subs(entries, Full(topic))) + multiset(Subs(entries, Short(topic))) +
            multiset(Subs(entries, Leaked(topic)))
  {
    if entries != [] {
      var init, e := entries[..|entries| - 1], entries[|entries| - 1];
      SurplusSplit(init, topic);
      assert e in entries;
      ValidFilterIffStandard(e.filter);
      FoundVersusFullStandard(e.filter, topic);
    }
  }

  lemma {:induction false} SubsEmptyIff(entries: seq<Entry>, p: Entry -> bool)
    ensures Subs(entries, p) == [] <==> forall e | e in entries :: !p(e)
  {
    if entries != [] {
      SubsEmptyIff(entries[..|entries| - 1], p);
      assert entries == entries[..|entries| - 1] + [entries[|entries| - 1]];
    }
  }

  /** A topic's matches are those of the standard exactly when neither kind of surplus is subscribed. */
  lemma MatchesAreStandardIff(history: seq<Operation>, topic: Bytes)
    requires forall e | e in FlatAfter(history) :: IsValidTopicFilter(e.filter)
    ensures multiset(Matches(TableAfter(history), topic)) == multiset(Subs(FlatAfter(history), Full(topic))) <==>
            forall e | e in FlatAfter(history) :: !FallsShort(e.filter, topic) && !Leaks(e.filter, topic)
  {
    var flat := FlatAfter(history);
    MatchesVersusStandard(history, topic);
    SubsEmptyIff(flat, Short(topic));
    SubsEmptyIff(flat, Leaked(topic));
    SumIsFirst(multiset(Subs(flat, Full(topic))), Subs(flat, Short(topic)), Subs(flat, Leaked(topic)));
    assert forall e :: Short(topic)(e) == FallsShort(e.filter, topic) && Leaked(topic)(e) == Leaks(e.filter, topic);
  }

  lemma SumIsFirst(a: multiset<Subscriber>, b: seq<Subscriber>, c: seq<Subscriber>)
    ensures a + multiset(b) + multiset(c) == a <==> b == [] && c == []
  {
    assert |a + multiset(b) + multiset(c)| == |a| + |b| + |c|;
  }

  /** Whatever filter matches in the broker's sense, a `$` topic included, its subscriber is found. */
  lemma DollarTopicsAreNotExcluded(history: seq<Operation>, filter: Bytes, topic: Bytes, sub: Subscriber)
    requires Found(filter, topic)
    ensures sub in Matches(TableAfter(history + [AddOp(filter, sub)]), topic)
  {
    var after := history + [AddOp(filter, sub)];
    assert after[..|history|] == history;
    MatchesAreTheMatchingEntries(after, topic);
    var flat := FlatAfter(after);
    assert flat == FlatAfter(history) + [Entry(filter, sub)];
    assert sub in Subs(flat, (e: Entry) => Found(e.filter, topic));
    assert sub in multiset(Subs(flat, (e: Entry) => Found(e.filter, topic)));
    assert sub in multiset(Matches(TableAfter(after), topic));
  }

  // ----- The same in raw bytes -----

  lemma SplitLiteral(a: Byte, b: Byte)
    requires a != 0x2F && b != 0x2F
    ensures Split([a, 0x2F, b]) == [[a], [b]] && Split([a, b]) == [[a, b]] && Split([a]) == [[a]]
  {
    assert Join([[a], [b]]) == [a, 0x2F, b];
    SplitJoin([[a], [b]]);
    SplitJoin([[a, b]]);
    SplitJoin([[a]]);
  }

  lemma LastLevelLiteral(c: Byte)
    requires c == 0x23 || c == 0x2B
    ensures IsValidTopicFilter([0x61, 0x2F, c]) && !IsValidTopicFilter([0x61, c])
  {
    SplitLiteral(0x61, c);
    ValidFilterIffStandard([0x61, 0x2F, c]);
    ValidFilterIffStandard([0x61, c]);
    assert HashOnlyLast([[0x61], [c]]) && PlusAlone([[0x61], [c]]);
    assert c in [[0x61, c]][0] && [[0x61, c]][0] != [c];
  }

  /** "a/b" has two levels; "a/#" and "a/+" are filters, "a#" and "a+" are not. */
  lemma SeparatorsInBytes()
    ensures Split([0x61, 0x2F, 0x62]) == [[0x61], [0x62]]
    ensures IsValidTopicFilter([0x61, 0x2F, 0x23]) && IsValidTopicFilter([0x61, 0x2F, 0x2B])
    ensures !IsValidTopicFilter([0x61, 0x23]) && !IsValidTopicFilter([0x61, 0x2B])
  {
    SplitLiteral(0x61, 0x62);
    LastLevelLiteral(0x23);
    LastLevelLiteral(0x2B);
  }

  lemma FoundInBytes()
    ensures Found([0x61, 0x2F, 0x2B], [0x61, 0x2F, 0x62]) && Found([0x61, 0x2F, 0x23], [0x61, 0x2F, 0x62])
  {
    SplitLiteral(0x61, 0x62);
    SplitLiteral(0x61, 0x23);
    SplitLiteral(0x61, 0x2B);
    assert BeforeHash([[0x61], [0x2B]]) == [[0x61], [0x2B]] by {
      assert [[0x61], [0x2B]][1..] == [[0x2B]] && [[0x2B]][1..] == [];
    }
    assert BeforeHash([[0x61], [0x23]]) == [[0x61]] by {
      assert [[0x61], [0x23]][1..] == [[0x23]];
    }
  }

  lemma TwoAdded(f: Bytes, x: Subscriber, g: Bytes, y: Subscriber)
    ensures FlatAfter([AddOp(f, x), AddOp(g, y)]) == [Entry(f, x), Entry(g, y)]
  {
    var first := [AddOp(f, x)];
    var history := [AddOp(f, x), AddOp(g, y)];
    assert first[..0] == [] && history[..1] == first;
    assert FlatAfter(first) == [Entry(f, x)];
  }

  lemma TwoSubs(a: Entry, b: Entry, p: Entry -> bool)
    requires p(a) && p(b)
    ensures multiset(Subs([a, b], p)) == multiset{a.sub, b.sub}
  {
    assert [a, b][..1] == [a] && [a][..0] == [];
    assert Subs([a], p) == [a.sub] && Subs([a, b], p) == [a.sub] + [b.sub];
  }

  /** With x under "a/+" and y under "a/#" the topic "a/b" finds exactly the two. */
  lemma WildcardsInBytes(x: Subscriber, y: Subscriber)
    ensures var history := [AddOp([0x61, 0x2F, 0x2B], x), AddOp([0x61, 0x2F, 0x23], y)];
      multiset(Matches(TableAfter(history), [0x61, 0x2F, 0x62])) == multiset{x, y}
  {
    var f: Bytes, g: Bytes, topic: Bytes := [0x61, 0x2F, 0x2B], [0x61, 0x2F, 0x23], [0x61, 0x2F, 0x62];
    FoundInBytes();
    TwoFound(f, x, g, y, topic);
  }

  lemma TwoFound(f: Bytes, x: Subscriber, g: Bytes, y: Subscriber, topic: Bytes)
    requires Found(f, topic) && Found(g, topic)
    ensures multiset(Matches(TableAfter([AddOp(f, x), AddOp(g, y)]), topic)) == multiset{x, y}
  {
    TwoAdded(f, x, g, y);
    TwoSubs(Entry(f, x), Entry(g, y), (e: Entry) => Found(e.filter, topic));
    MatchesAreTheMatchingEntries([AddOp(f, x), AddOp(g, y)], topic);
  }

  /** "#" and "+/a" on "$/a". */
  lemma LeakWitness()
    ensures IsValidTopicFilter([0x23]) && Leaks([0x23], [0x24, 0x2F, 0x61])
    ensures IsValidTopicFilter([0x2B, 0x2F, 0x61]) && Leaks([0x2B, 0x2F, 0x61], [0x24, 0x2F, 0x61])
  {
    SplitLiteral(0x24, 0x61);
    SplitLiteral(0x2B, 0x61);
    SplitLiteral(0x23, 0x61);
    ValidFilterIffStandard([0x23]);
    ValidFilterIffStandard([0x2B, 0x2F, 0x61]);
    assert StandardMatch([[0x61]], [[0x61]]);
  }

  /** "a" on "a/b". */
  lemma ShortWitness()
    ensures IsValidTopicFilter([0x61]) && FallsShort([0x61], [0x61, 0x2F, 0x62])
  {
    SplitLiteral(0x61, 0x62);
    ValidFilterIffStandard([0x61]);
  }

  // ----- Removal -----

  lemma {:induction false} GatherWithout(table: Table, slots: seq<Slot>, clientId: Bytes)
    ensures Gather(RemoveAll(table, clientId), slots) == Without(Gather(table, slots), clientId)
  {
    if slots != [] {
      GatherWithout(table, slots[1..], clientId);
      GetRemoveAll(table, clientId, slots[0]);
      WithoutConcat(Get(table, slots[0]), Gather(table, slots[1..]), clientId);
    }
  }

  /** Every other client keeps its results and their order on every topic. */
  lemma RemoveAllFiltersEveryMatch(table: Table, clientId: Bytes, topic: Bytes)
    ensures Matches(RemoveAll(table, clientId), topic) == Without(Matches(table, topic), clientId)
  {
    GatherWithout(table, SlotsRead([], Split(topic), 0), clientId);
  }

  function OfClient(subs: seq<Subscriber>, clientId: Bytes): seq<Subscriber> {
    if subs == [] then []
    else (if subs[0].clientId == clientId then [subs[0]] else []) + OfClient(subs[1..], clientId)
  }

  lemma {:induction false} WithoutAndOf(subs: seq<Subscriber>, clientId: Bytes)
    ensures multiset(subs) == multiset(Without(subs, clientId)) + multiset(OfClient(subs, clientId))
  {
    if subs != [] {
      WithoutAndOf(subs[1..], clientId);
      assert subs == [subs[0]] + subs[1..];
    }
  }

  lemma {:induction false} GatherRemove(table: Table, slots: seq<Slot>, slot: Slot, clientId: Bytes)
    requires Distinct(slots)
    ensures multiset(Gather(table, slots)) ==
            multiset(Gather(Remove(table, slot, clientId), slots)) +
            if slot in slots then multiset(OfClient(Get(table, slot), clientId)) else multiset{}
  {
    if slots != [] {
      var first, rest := slots[0], slots[1..];
      assert slot in slots <==> slot == first || slot in rest;
      assert slot == first ==> slot !in rest;
      GatherRemove(table, rest, slot, clientId);
      GetRemove(table, slot, clientId, first);
    }
  }

  lemma GetRemove(table: Table, slot: Slot, clientId: Bytes, s: Slot)
    ensures multiset(Get(table, s)) ==
            multiset(Get(Remove(table, slot, clientId), s)) +
            if s == slot then multiset(OfClient(Get(table, slot), clientId)) else multiset{}
  {
    WithoutAndOf(Get(table, slot), clientId);
  }

  /** `remove` takes exactly that client's entries in the slot the filter names: a topic the filter
      matches loses them, any other topic loses nothing. */
  lemma RemoveTakesOneClientsEntries(table: Table, filter: Bytes, clientId: Bytes, topic: Bytes)
    ensures multiset(Matches(table, topic)) ==
            multiset(Matches(Remove(table, SlotOf(filter), clientId), topic)) +
            if Found(filter, topic) then multiset(OfClient(Get(table, SlotOf(filter)), clientId)) else multiset{}
  {
    SlotsReadDistinct([], Split(topic), 0);
    ReadIffMatch([], Split(filter), Split(topic), 0);
    assert Split(topic)[0..] == Split(topic);
    GatherRemove(table, SlotsRead([], Split(topic), 0), SlotOf(filter), clientId);
  }

  // ----- Valid filters and slots are one to one -----

  function LevelOf(step: Step): Bytes {
    match step
    case AnyLevel => PLUS_LEVEL
    case Named(name) => name
  }

  function LevelsOf(slot: Slot): seq<Bytes> {
    seq(|slot.path|, i requires 0 <= i < |slot.path| => LevelOf(slot.path[i])) +
    if slot.hash then [HASH_LEVEL] else []
  }

  lemma {:induction false} LevelsOfSlot(path: Path, levels: seq<Bytes>)
    requires HashOnlyLast(levels)
    ensures LevelsOf(SlotBelow(path, levels)) == LevelsOf(Slot(path, false)) + levels
    decreases |levels|
  {
    if levels != [] {
      if levels[0] == HASH_LEVEL {
        assert HASH in levels[0];
        assert levels == [HASH_LEVEL];
      } else {
        assert HashOnlyLast(levels[1..]) by {
          assert forall i | 0 <= i < |levels[1..]| :: levels[1..][i] == levels[i + 1];
        }
        LevelsOfSlot(path + [StepOf(levels[0])], levels[1..]);
      }
    }
  }

  lemma ValidFiltersHaveDistinctSlots(f: Bytes, g: Bytes)
    requires IsValidTopicFilter(f) && IsValidTopicFilter(g) && SlotOf(f) == SlotOf(g)
    ensures f == g
  {
    ValidFilterIffStandard(f);
    ValidFilterIffStandard(g);
    LevelsOfSlot([], Split(f));
    LevelsOfSlot([], Split(g));
    assert LevelsOf(Slot([], false)) == [];
    assert Split(f) == LevelsOf(SlotOf(f)) == Split(g);
    JoinSplit(f);
    JoinSplit(g);
  }
}
