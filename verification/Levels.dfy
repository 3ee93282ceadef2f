/** Topic names and filters as '/'-separated levels, and the filter syntax check. */
module Levels {
  import opened Types

  const SLASH: Byte := 0x2F
  const HASH: Byte := 0x23
  const PLUS: Byte := 0x2B

  const HASH_LEVEL: Bytes := [HASH]
  const PLUS_LEVEL: Bytes := [PLUS]

  /** Index of the first occurrence of `c`. */
  function Find(s: Bytes, c: Byte): (r: Option<nat>)
    ensures r.None? <==> c !in s
    ensures r.Some? ==> r.value < |s| && s[r.value] == c && c !in s[..r.value]
  {
    if s == [] then None
    else if s[0] == c then Some(0)
    else
      assert s == [s[0]] + s[1..];
      match Find(s[1..], c)
      case None => None
      case Some(i) =>
        assert s[..i + 1] == [s[0]] + s[1..][..i];
        Some(i + 1)
  }

  /** The '/'-separated levels; the empty text has one empty level. */
  function Split(s: Bytes): (levels: seq<Bytes>)
    ensures |levels| >= 1
  {
    match Find(s, SLASH)
    case None => [s]
    case Some(i) => [s[..i]] + Split(s[i + 1..])
  }

  function Join(levels: seq<Bytes>): Bytes
    requires |levels| >= 1
  {
    if |levels| == 1 then levels[0] else levels[0] + [SLASH] + Join(levels[1..])
  }

  /** The first occurrence is the one with nothing before it. */
  lemma {:induction false} FindIs(s: Bytes, c: Byte, k: nat)
    requires k < |s| && s[k] == c && c !in s[..k]
    ensures Find(s, c) == Some(k)
  {
    if k > 0 {
      assert s[..k] == [s[0]] + s[1..][..k - 1];
      FindIs(s[1..], c, k - 1);
    }
  }

  lemma {:induction false} JoinSplit(s: Bytes)
    ensures Join(Split(s)) == s
    ensures forall level | level in Split(s) :: 0x2F !in level
  {
    match Find(s, SLASH)
    case None =>
    case Some(i) =>
      JoinSplit(s[i + 1..]);
      SplitStep(s, i);
      assert s == s[..i] + [SLASH] + s[i + 1..];
  }

  lemma SplitStep(s: Bytes, i: nat)
    requires Find(s, SLASH) == Some(i)
    ensures Split(s)[0] == s[..i] && Split(s)[1..] == Split(s[i + 1..])
  {
    var rest := Split(s[i + 1..]);
    assert Split(s) == [s[..i]] + rest;
  }

  lemma {:induction false} SplitJoin(levels: seq<Bytes>)
    requires |levels| >= 1
    requires forall level | level in levels :: SLASH !in level
    ensures Split(Join(levels)) == levels
  {
    var s := Join(levels);
    assert levels == [levels[0]] + levels[1..];
    assert levels[0] in levels;
    if |levels| > 1 {
      var k := |levels[0]|;
      assert s[k] == SLASH;
      assert s[..k] == levels[0];
      FindIs(s, SLASH, k);
      assert s[k + 1..] == Join(levels[1..]);
      SplitJoin(levels[1..]);
    }
  }

  /** The check a SUBSCRIBE filter goes through, character scan and all. */
  predicate IsValidTopicFilter(filter: Bytes) {
    if filter == [] || |filter| > 65535 then
      false
    else if !HashScan(filter) then
      false
    else
      forall part | part in Split(filter) :: !(PLUS in part && |part| > 1)
  }

  predicate HashScan(filter: Bytes) {
    match Find(filter, HASH)
    case None => true
    case Some(pos) =>
      && (pos > 0 ==> filter[pos - 1] == SLASH)
      && pos + 1 == |filter|
  }

  /** Section 4.7.1 of MQTT 3.1.1, in bytes: '#' (0x23) is a whole level and the last one, '+' (0x2B)
      is a whole level. */
  ghost predicate HashOnlyLast(levels: seq<Bytes>) {
    forall i | 0 <= i < |levels| :: 0x23 in levels[i] ==> levels[i] == [0x23] && i == |levels| - 1
  }

  ghost predicate PlusAlone(levels: seq<Bytes>) {
    forall i | 0 <= i < |levels| :: 0x2B in levels[i] ==> levels[i] == [0x2B]
  }

  ghost predicate StandardFilter(filter: Bytes) {
    && 1 <= |filter| <= 65535
    && HashOnlyLast(Split(filter))
    && PlusAlone(Split(filter))
  }

  lemma {:induction false} HashScanMeaning(filter: Bytes)
    ensures HashScan(filter) <==> HashOnlyLast(Split(filter))
  {
    match Find(filter, SLASH)
    case None =>
      assert Split(filter) == [filter];
      assert HASH in filter && HashScan(filter) ==> filter == [HASH];
    case Some(i) =>
      var head, tail := filter[..i], filter[i + 1..];
      HashScanMeaning(tail);
      SplitStep(filter, i);
      HashOnlyLastCons(Split(filter));
      assert filter == head + [SLASH] + tail;
      FindAcross(head, tail);
  }

  lemma HashOnlyLastCons(levels: seq<Bytes>)
    requires |levels| >= 2
    ensures HashOnlyLast(levels) <==> HASH !in levels[0] && HashOnlyLast(levels[1..])
  {
    if HashOnlyLast(levels) {
      forall j | 0 <= j < |levels[1..]| && HASH in levels[1..][j]
        ensures levels[1..][j] == HASH_LEVEL && j == |levels[1..]| - 1
      {
        assert levels[j + 1] == levels[1..][j];
      }
    } else {
      var i :| 0 <= i < |levels| && HASH in levels[i] && !(levels[i] == HASH_LEVEL && i == |levels| - 1);
      assert i > 0 ==> levels[1..][i - 1] == levels[i];
    }
  }

  /** Where the first '#' of `head + "/" + tail` lies. */
  lemma FindAcross(head: Bytes, tail: Bytes)
    ensures var r := Find(head + [SLASH] + tail, HASH);
      if HASH in head then r.Some? && r.value < |head|
      else match Find(tail, HASH)
           case None => r == None
           case Some(p) => r == Some(|head| + 1 + p)
  {
    var s := head + [SLASH] + tail;
    match Find(head, HASH)
    case Some(k) =>
      assert s[..k] == head[..k];
      FindIs(s, HASH, k);
    case None =>
      match Find(tail, HASH)
      case Some(p) =>
        assert s[..|head| + 1 + p] == head + [SLASH] + tail[..p];
        FindIs(s, HASH, |head| + 1 + p);
      case None =>
  }

  /** The character scan accepts exactly the filters the standard allows. */
  lemma ValidFilterIffStandard(filter: Bytes)
    ensures IsValidTopicFilter(filter) <==> StandardFilter(filter)
  {
    HashScanMeaning(filter);
    var levels := Split(filter);
    forall part | part in levels
      ensures !(PLUS in part && |part| > 1) <==> (PLUS in part ==> part == PLUS_LEVEL)
    {
      assert |part| == 1 ==> part == [part[0]];
    }
    assert (forall part | part in levels :: !(PLUS in part && |part| > 1)) <==> PlusAlone(levels);
  }
}
