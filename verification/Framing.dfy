/**
 Cutting packets out of a byte stream that arrives in arbitrary pieces. `Drain` is what the buffer
 loop makes of the bytes it holds, `Reads` what it makes of a sequence of reads.
 */
module Framing {
  import opened Types
  import opened RemainingLength
  import opened DecodeSpec

  datatype Extraction =
    | NeedMore
    | BadHeader(error: BrokerError)
    | Frame(frame: Bytes, packet: Result<Packet>)

  /** What a complete frame holds; the cutting does not depend on it. */
  type FrameDecoder = Bytes -> Result<Packet>

  function Extract(decode: FrameDecoder, buf: Bytes): (x: Extraction)
    ensures x.Frame? ==> 2 <= |x.frame| && x.frame <= buf
  {
    if |buf| < 2 then NeedMore
    else
      match DecodeFixedHeader(buf)
      case Err(e) => BadHeader(e)
      case Ok((header, rest)) =>
        HeaderConsumes(buf);
        var total := |buf| - |rest| + header.remainingLength;
        if |buf| < total then NeedMore else Frame(buf[..total], decode(buf[..total]))
  }

  lemma HeaderConsumes(s: Bytes)
    requires DecodeFixedHeader(s).Ok?
    ensures var rest := DecodeFixedHeader(s).value.1;
      2 <= |s| - |rest| <= 5 && s[|s| - |rest|..] == rest
  {
    FromAccepts(s[1..], 0);
  }

  /** The packets cut out so far and the bytes they took, what is still buffered, and the error that
      ended the connection, if any. */
  datatype Outcome = Outcome(packets: seq<Packet>, frames: seq<Bytes>, left: Bytes, error: Option<BrokerError>)

  function Then(first: Outcome, later: Outcome): Outcome {
    Outcome(first.packets + later.packets, first.frames + later.frames, later.left, later.error)
  }

  function Drain(decode: FrameDecoder, buf: Bytes): Outcome
    decreases |buf|
  {
    match Extract(decode, buf)
    case NeedMore => Outcome([], [], buf, None)
    case BadHeader(e) => Outcome([], [], buf, Some(e))
    case Frame(frame, packet) =>
      match packet
      case Err(e) => Outcome([], [frame], buf[|frame|..], Some(e))
      case Ok(p) => Then(Outcome([p], [frame], [], None), Drain(decode, buf[|frame|..]))
  }

  /** The first error ends the connection. */
  function Reads(decode: FrameDecoder, buf: Bytes, chunks: seq<Bytes>): Outcome
    decreases |chunks|
  {
    if chunks == [] then Outcome([], [], buf, None)
    else
      var now := Drain(decode, buf + chunks[0]);
      if now.error.Some? then now else Then(now, Reads(decode, now.left, chunks[1..]))
  }

  function Flatten(parts: seq<Bytes>): Bytes {
    if parts == [] then [] else parts[0] + Flatten(parts[1..])
  }

  /** Equal, except that after an error the bytes nobody will look at may differ. */
  predicate Same(x: Outcome, y: Outcome) {
    && x.packets == y.packets && x.frames == y.frames && x.error == y.error
    && (x.error.None? ==> x.left == y.left)
  }

  /** Whether position `e` of the stream lies inside a remaining-length field, after that field's
      first byte, when the stream goes on to end the field and the loop gets that far. */
  predicate CutsLengthField(decode: FrameDecoder, s: Bytes, e: nat)
    decreases |s|
  {
    if |s| < 2 then false
    else
      match DecodeFixedHeader(s)
      case Err(error) => error == Decode(LengthFieldMalformed) && 2 <= e < 5
      case Ok((_, rest)) =>
        if e < |s| - |rest| then 2 <= e
        else
          match Extract(decode, s)
          case Frame(frame, Ok(_)) => e >= |frame| && CutsLengthField(decode, s[|frame|..], e - |frame|)
          case _ => false
  }

  // ----- Conservation: consumed frames and leftover are the input -----

  lemma {:induction false} FlattenConcat(a: seq<Bytes>, b: seq<Bytes>)
    ensures Flatten(a + b) == Flatten(a) + Flatten(b)
  {
    if a == [] {
      assert a + b == b;
    } else {
      assert (a + b)[1..] == a[1..] + b;
      FlattenConcat(a[1..], b);
    }
  }

  /** The loop's first turn, when there is a frame and it decodes. */
  lemma DrainFrame(decode: FrameDecoder, buf: Bytes)
    requires Extract(decode, buf).Frame? && Extract(decode, buf).packet.Ok?
    ensures var Frame(frame, packet) := Extract(decode, buf);
      var later := Drain(decode, buf[|frame|..]);
      && Drain(decode, buf) == Outcome([packet.value] + later.packets, [frame] + later.frames, later.left, later.error)
      && buf == frame + buf[|frame|..]
  {
  }

  lemma FlattenOne(part: Bytes)
    ensures Flatten([part]) == part
  {
    assert [part][1..] == [];
  }

  lemma FlattenCons(part: Bytes, parts: seq<Bytes>, left: Bytes)
    ensures Flatten([part] + parts) + left == part + (Flatten(parts) + left)
  {
    assert ([part] + parts)[1..] == parts;
  }

  ghost predicate Conserves(o: Outcome, input: Bytes) {
    Flatten(o.frames) + o.left == input
  }

  lemma {:induction false} DrainConserves(decode: FrameDecoder, buf: Bytes)
    ensures Conserves(Drain(decode, buf), buf)
    decreases |buf|
  {
    match Extract(decode, buf)
    case NeedMore =>
    case BadHeader(_) =>
    case Frame(frame, packet) =>
      if packet.Ok? {
        var rest := buf[|frame|..];
        var later := Drain(decode, rest);
        DrainConserves(decode, rest);
        DrainFrame(decode, buf);
        FlattenCons(frame, later.frames, later.left);
      } else {
        FlattenCons(frame, [], buf[|frame|..]);
      }
  }

  /** No byte is lost, added or reordered; only an error leaves input unread. */
  lemma {:induction false} ReadsConserve(decode: FrameDecoder, buf: Bytes, chunks: seq<Bytes>)
    ensures var o := Reads(decode, buf, chunks);
      && Flatten(o.frames) + o.left <= buf + Flatten(chunks)
      && (o.error.None? ==> Flatten(o.frames) + o.left == buf + Flatten(chunks))
    decreases |chunks|
  {
    if chunks != [] {
      var a, b := buf + chunks[0], Flatten(chunks[1..]);
      var now := Drain(decode, a);
      Boundary(buf, chunks, 0);
      assert Conserves(now, a) by { DrainConserves(decode, a); }
      if now.error.None? {
        ReadsConserve(decode, now.left, chunks[1..]);
        ConserveThen(now, Reads(decode, now.left, chunks[1..]), a, b);
      }
    }
  }

  lemma ConserveThen(now: Outcome, later: Outcome, a: Bytes, b: Bytes)
    requires Conserves(now, a) && Flatten(later.frames) + later.left <= now.left + b
    ensures var o := Then(now, later);
      && Flatten(o.frames) + o.left <= a + b
      && (Flatten(later.frames) + later.left == now.left + b ==> Flatten(o.frames) + o.left == a + b)
  {
    FlattenConcat(now.frames, later.frames);
    ConserveTwice(Flatten(now.frames), now.left, b, Flatten(later.frames), later.left);
  }

  lemma ConserveTwice(a: Bytes, left: Bytes, b: Bytes, c: Bytes, d: Bytes)
    requires c + d <= left + b
    ensures a + c + d <= a + left + b
    ensures c + d == left + b ==> a + c + d == a + left + b
  {
    assert a + c + d == a + (c + d);
    assert a + left + b == a + (left + b);
  }

  // ----- Length fields of a prefix -----

  lemma {:induction false} LengthOfPrefix(a: Bytes, b: Bytes, used: nat)
    requires used < 4
    ensures match LengthFrom(a, used)
            case Ok(f) => LengthFrom(a + b, used) == Ok(Field(f.value, f.consumed, f.rest + b))
            case Err(e) =>
              && e.Decode?
              && (e.reason == LengthFieldMalformed ==> LengthFrom(a + b, used) == Err(e) && |a| >= 4 - used)
              && (e.reason == LengthFieldCut ==> |a| < 4 - used)
              && (e.reason == LengthFieldCut && LengthFrom(a + b, used).Ok? ==>
                    LengthFrom(a + b, used).value.consumed > |a|)
              && e.reason in {LengthFieldMalformed, LengthFieldCut}
    decreases 4 - used
  {
    if a == [] {
      if LengthFrom(b, used).Ok? {
        FromAccepts(b, used);
      }
      assert a + b == b;
    } else {
      assert (a + b)[1..] == a[1..] + b;
      if a[0] >= 128 && used < 3 {
        LengthOfPrefix(a[1..], b, used + 1);
      }
    }
  }

  /** The fixed header of a stream, known from a prefix of it. */
  lemma HeaderOfPrefix(a: Bytes, b: Bytes)
    requires |a| >= 2
    ensures match DecodeFixedHeader(a)
            case Ok((header, rest)) => DecodeFixedHeader(a + b) == Ok((header, rest + b))
            case Err(e) =>
              && (e == Decode(UnknownPacketType) ==> DecodeFixedHeader(a + b) == Err(e))
              && (e == Decode(LengthFieldMalformed) ==> DecodeFixedHeader(a + b) == Err(e) && |a| >= 5)
              && (e == Decode(LengthFieldCut) ==> |a| < 5)
              && (e == Decode(LengthFieldCut) ==>
                    match DecodeFixedHeader(a + b)
                    case Ok((_, rest)) => |a| < |a + b| - |rest|
                    case Err(e) => e in {Decode(LengthFieldCut), Decode(LengthFieldMalformed)})
              && e in {Decode(UnknownPacketType), Decode(LengthFieldMalformed), Decode(LengthFieldCut)}
  {
    assert (a + b)[1..] == a[1..] + b;
    LengthOfPrefix(a[1..], b, 0);
    if DecodeFixedHeader(a + b).Ok? {
      FromAccepts((a + b)[1..], 0);
    } else {
      LengthOfPrefix((a + b)[1..], [], 0);
    }
  }

  /** No frame with a complete header decodes to the error of a cut length field. */
  ghost predicate KeepsCutApart(decode: FrameDecoder) {
    forall f | |f| >= 2 && DecodeFixedHeader(f).Ok? :: decode(f) != Err(Decode(LengthFieldCut))
  }

  lemma FrameErrors(decode: FrameDecoder, buf: Bytes)
    requires Extract(decode, buf).Frame? && KeepsCutApart(decode)
    ensures Extract(decode, buf).packet != Err(Decode(LengthFieldCut))
  {
    var frame := Extract(decode, buf).frame;
    HeaderConsumes(buf);
    assert buf == frame + buf[|frame|..];
    HeaderOfPrefix(frame, buf[|frame|..]);
  }

  /** A complete frame is cut out the same way whatever follows it. */
  lemma ExtractPrefix(decode: FrameDecoder, a: Bytes, b: Bytes)
    requires Extract(decode, a).Frame?
    ensures Extract(decode, a + b) == Extract(decode, a)
    ensures (a + b)[|Extract(decode, a).frame|..] == a[|Extract(decode, a).frame|..] + b
  {
    HeaderOfPrefix(a, b);
    HeaderConsumes(a);
    var total := |Extract(decode, a).frame|;
    assert (a + b)[..total] == a[..total];
  }

  // ----- Draining a prefix first -----

  /** What a boundary does: `d` drains the prefix, `w` the whole stream, `on` what the prefix left
      together with the rest. */
  ghost predicate SplitsInto(cut: bool, d: Outcome, w: Outcome, on: Outcome) {
    if cut then d.error == Some(Decode(LengthFieldCut)) && !(d.packets == w.packets && d.error == w.error)
    else Same(w, if d.error.Some? then d else Then(d, on))
  }

  function Cons(packet: Packet, frame: Bytes, o: Outcome): Outcome {
    Outcome([packet] + o.packets, [frame] + o.frames, o.left, o.error)
  }

  lemma SplitsIntoCons(cut: bool, d: Outcome, w: Outcome, on: Outcome, packet: Packet, frame: Bytes)
    requires SplitsInto(cut, d, w, on)
    ensures SplitsInto(cut, Cons(packet, frame, d), Cons(packet, frame, w), on)
  {
    assert ([packet] + d.packets)[1..] == d.packets && ([packet] + w.packets)[1..] == w.packets;
    assert [packet] + (d.packets + on.packets) == [packet] + d.packets + on.packets;
    assert [frame] + (d.frames + on.frames) == [frame] + d.frames + on.frames;
  }

  lemma CutsAfterFrame(decode: FrameDecoder, s: Bytes, e: nat)
    requires Extract(decode, s).Frame? && e >= |Extract(decode, s).frame|
    ensures CutsLengthField(decode, s, e) ==
            (Extract(decode, s).packet.Ok? &&
             CutsLengthField(decode, s[|Extract(decode, s).frame|..], e - |Extract(decode, s).frame|))
  {
    HeaderConsumes(s);
  }

  /** The prefix has no complete header, or one that is wrong. */
  lemma SplitInHeader(decode: FrameDecoder, a: Bytes, b: Bytes)
    requires KeepsCutApart(decode) && (|a| < 2 || DecodeFixedHeader(a).Err?)
    ensures SplitsInto(CutsLengthField(decode, a + b, |a|), Drain(decode, a), Drain(decode, a + b),
                       Drain(decode, Drain(decode, a).left + b))
  {
    var s := a + b;
    if |s| >= 2 && DecodeFixedHeader(s).Ok? {
      HeaderConsumes(s);
      if Extract(decode, s).Frame? {
        FrameErrors(decode, s);
      }
    }
    if |a| >= 2 {
      HeaderOfPrefix(a, b);
    }
  }

  /** The prefix ends inside its first frame's body. */
  lemma SplitInBody(decode: FrameDecoder, a: Bytes, b: Bytes)
    requires |a| >= 2 && DecodeFixedHeader(a).Ok? && Extract(decode, a) == NeedMore
    ensures Drain(decode, a) == Outcome([], [], a, None) && !CutsLengthField(decode, a + b, |a|)
  {
    HeaderOfPrefix(a, b);
    HeaderConsumes(a);
    HeaderConsumes(a + b);
  }

  /** A read boundary at |a| changes nothing unless it cuts a length field; when it does, the prefix
      ends in an error the whole stream does not end in at that place. */
  lemma {:induction false} DrainSplit(decode: FrameDecoder, a: Bytes, b: Bytes)
    requires KeepsCutApart(decode)
    ensures SplitsInto(CutsLengthField(decode, a + b, |a|), Drain(decode, a), Drain(decode, a + b),
                       Drain(decode, Drain(decode, a).left + b))
    decreases |a|
  {
    if |a| < 2 || DecodeFixedHeader(a).Err? {
      SplitInHeader(decode, a, b);
    } else if Extract(decode, a) == NeedMore {
      SplitInBody(decode, a, b);
    } else {
      var Frame(frame, packet) := Extract(decode, a);
      ExtractPrefix(decode, a, b);
      CutsAfterFrame(decode, a + b, |a|);
      if packet.Ok? {
        var a1 := a[|frame|..];
        DrainFrame(decode, a);
        DrainFrame(decode, a + b);
        DrainSplit(decode, a1, b);
        SplitsIntoCons(CutsLengthField(decode, a1 + b, |a1|), Drain(decode, a1), Drain(decode, a1 + b),
                       Drain(decode, Drain(decode, a1).left + b), packet.value, frame);
      }
    }
  }

  /** Later boundaries are judged alike from the whole stream and from what the prefix left over. */
  ghost predicate CutsAlike(decode: FrameDecoder, a: Bytes, b: Bytes, e: nat)
    requires e >= |a|
  {
    var d := Drain(decode, a);
    CutsLengthField(decode, a + b, e) ==
    (d.error.None? && |d.left| <= |a| && CutsLengthField(decode, d.left + b, e - (|a| - |d.left|)))
  }

  lemma ShiftInHeader(decode: FrameDecoder, a: Bytes, b: Bytes, e: nat)
    requires e >= |a| && !CutsLengthField(decode, a + b, |a|)
    requires |a| < 2 || DecodeFixedHeader(a).Err?
    ensures CutsAlike(decode, a, b, e)
  {
    if |a| >= 2 {
      HeaderOfPrefix(a, b);
    }
  }

  lemma {:induction false} CutsShift(decode: FrameDecoder, a: Bytes, b: Bytes, e: nat)
    requires e >= |a| && !CutsLengthField(decode, a + b, |a|)
    ensures CutsAlike(decode, a, b, e)
    decreases |a|
  {
    if |a| < 2 || DecodeFixedHeader(a).Err? {
      ShiftInHeader(decode, a, b, e);
    } else if Extract(decode, a) == NeedMore {
      SplitInBody(decode, a, b);
    } else {
      var Frame(frame, packet) := Extract(decode, a);
      ExtractPrefix(decode, a, b);
      CutsAfterFrame(decode, a + b, |a|);
      CutsAfterFrame(decode, a + b, e);
      if packet.Ok? {
        DrainFrame(decode, a);
        DrainConserves(decode, a[|frame|..]);
        CutsShift(decode, a[|frame|..], b, e - |frame|);
      }
    }
  }

  // ----- Chunk independence -----

  /** Where the reads end in the stream, the last one excepted. */
  predicate SomeReadCuts(decode: FrameDecoder, buf: Bytes, chunks: seq<Bytes>) {
    exists k | 0 < k < |chunks| :: ReadCuts(decode, buf, chunks, k)
  }

  /** Whether the k-th read ends inside a length field of the whole stream. */
  predicate ReadCuts(decode: FrameDecoder, buf: Bytes, chunks: seq<Bytes>, k: nat)
    requires k <= |chunks|
  {
    CutsLengthField(decode, buf + Flatten(chunks), |buf| + |Flatten(chunks[..k])|)
  }

  /** However a stream is cut into reads, the loop yields the packets, the error and the leftover of
      the whole stream at once, exactly when no read ends inside a remaining-length field after that
      field's first byte. */
  lemma {:induction false} ChunkIndependence(decode: FrameDecoder, buf: Bytes, chunks: seq<Bytes>)
    requires chunks != [] && KeepsCutApart(decode)
    ensures Same(Reads(decode, buf, chunks), Drain(decode, buf + Flatten(chunks))) <==>
            !SomeReadCuts(decode, buf, chunks)
    decreases |chunks|, 1
  {
    if |chunks| == 1 {
      OneRead(decode, buf, chunks);
    } else {
      MoreReads(decode, buf, chunks);
    }
  }

  lemma OneRead(decode: FrameDecoder, buf: Bytes, chunks: seq<Bytes>)
    requires |chunks| == 1
    ensures Reads(decode, buf, chunks) == Drain(decode, buf + Flatten(chunks)) && !SomeReadCuts(decode, buf, chunks)
  {
    var d := Drain(decode, buf + chunks[0]);
    assert chunks == [chunks[0]];
    FlattenOne(chunks[0]);
    assert d.packets + [] == d.packets && d.frames + [] == d.frames;
  }

  lemma MoreReads(decode: FrameDecoder, buf: Bytes, chunks: seq<Bytes>)
    requires |chunks| >= 2 && KeepsCutApart(decode)
    ensures Same(Reads(decode, buf, chunks), Drain(decode, buf + Flatten(chunks))) <==>
            !SomeReadCuts(decode, buf, chunks)
    decreases |chunks|, 0
  {
    var a, b := buf + chunks[0], Flatten(chunks[1..]);
    var d, whole := Drain(decode, a), Drain(decode, a + b);
    var later, left := Reads(decode, d.left, chunks[1..]), Drain(decode, d.left + b);
    var cut, cuts := CutsLengthField(decode, a + b, |a|), SomeReadCuts(decode, buf, chunks);
    var laterCuts := SomeReadCuts(decode, d.left, chunks[1..]);
    FirstBoundary(decode, buf, chunks);
    assert SplitsInto(cut, d, whole, left) by { DrainSplit(decode, a, b); }
    if !cut {
      assert cuts <==> d.error.None? && laterCuts by { CutsAfterFirstRead(decode, buf, chunks); }
      assert Same(later, left) <==> !laterCuts by { ChunkIndependence(decode, d.left, chunks[1..]); }
    }
    assert Reads(decode, buf, chunks) == if d.error.Some? then d else Then(d, later);
    FirstReadDecides(cut, cuts, laterCuts, d, whole, later, left);
  }

  /** The first read's outcome against the whole stream's, given how the later reads compare. */
  lemma FirstReadDecides(cut: bool, cuts: bool, laterCuts: bool, d: Outcome, whole: Outcome, later: Outcome,
                         left: Outcome)
    requires SplitsInto(cut, d, whole, left)
    requires if cut then cuts else cuts <==> d.error.None? && laterCuts
    requires !cut ==> (Same(later, left) <==> !laterCuts)
    ensures Same(if d.error.Some? then d else Then(d, later), whole) <==> !cuts
  {
    SameThen(d, later, left);
  }

  lemma CutsAfterFirstRead(decode: FrameDecoder, buf: Bytes, chunks: seq<Bytes>)
    requires |chunks| >= 2 && !ReadCuts(decode, buf, chunks, 1)
    ensures var d := Drain(decode, buf + chunks[0]);
      SomeReadCuts(decode, buf, chunks) <==> d.error.None? && SomeReadCuts(decode, d.left, chunks[1..])
  {
    var d := Drain(decode, buf + chunks[0]);
    Boundary(buf, chunks, 0);
    forall k | 0 < k < |chunks| - 1
      ensures LaterCut(decode, buf, chunks, k) == (d.error.None? && ReadCuts(decode, d.left, chunks[1..], k))
    {
      LaterBoundary(decode, buf, chunks, k);
    }
    SameCuts(decode, buf, chunks, d.left, d.error);
  }

  lemma SameThen(d: Outcome, x: Outcome, y: Outcome)
    ensures Same(Then(d, x), Then(d, y)) <==> Same(x, y)
  {
    assert (d.packets + x.packets)[|d.packets|..] == x.packets;
    assert (d.packets + y.packets)[|d.packets|..] == y.packets;
    assert (d.frames + x.frames)[|d.frames|..] == x.frames;
    assert (d.frames + y.frames)[|d.frames|..] == y.frames;
  }

  /** The k-th boundary, seen from the first read's end. */
  lemma Boundary(buf: Bytes, chunks: seq<Bytes>, k: nat)
    requires k < |chunks|
    ensures buf + Flatten(chunks) == (buf + chunks[0]) + Flatten(chunks[1..])
    ensures |buf| + |Flatten(chunks[..k + 1])| == |buf + chunks[0]| + |Flatten(chunks[1..][..k])|
  {
    assert chunks[..k + 1] == [chunks[0]] + chunks[1..][..k];
    FlattenCons(chunks[0], chunks[1..][..k], []);
  }

  lemma FirstBoundary(decode: FrameDecoder, buf: Bytes, chunks: seq<Bytes>)
    requires chunks != []
    ensures buf + Flatten(chunks) == (buf + chunks[0]) + Flatten(chunks[1..])
    ensures var a := buf + chunks[0];
      ReadCuts(decode, buf, chunks, 1) == CutsLengthField(decode, a + Flatten(chunks[1..]), |a|)
  {
    Boundary(buf, chunks, 0);
    assert chunks[1..][..0] == [];
  }

  predicate LaterCut(decode: FrameDecoder, buf: Bytes, chunks: seq<Bytes>, k: nat)
    requires k < |chunks|
  {
    ReadCuts(decode, buf, chunks, k + 1)
  }

  lemma LaterBoundary(decode: FrameDecoder, buf: Bytes, chunks: seq<Bytes>, k: nat)
    requires 0 < k < |chunks| - 1
    requires !CutsLengthField(decode, buf + Flatten(chunks), |buf + chunks[0]|)
    ensures var d := Drain(decode, buf + chunks[0]);
      LaterCut(decode, buf, chunks, k) == (d.error.None? && ReadCuts(decode, d.left, chunks[1..], k))
  {
    Boundary(buf, chunks, k);
    var a := buf + chunks[0];
    LeftIsShorter(decode, a);
    CutsShift(decode, a, Flatten(chunks[1..]), |a| + |Flatten(chunks[1..][..k])|);
  }

  lemma LeftIsShorter(decode: FrameDecoder, buf: Bytes)
    ensures |Drain(decode, buf).left| <= |buf|
  {
    DrainConserves(decode, buf);
  }

  lemma SameCuts(decode: FrameDecoder, buf: Bytes, chunks: seq<Bytes>, left: Bytes, error: Option<BrokerError>)
    requires |chunks| >= 2 && !ReadCuts(decode, buf, chunks, 1)
    requires forall k | 0 < k < |chunks| - 1 ::
      LaterCut(decode, buf, chunks, k) == (error.None? && ReadCuts(decode, left, chunks[1..], k))
    ensures SomeReadCuts(decode, buf, chunks) <==> error.None? && SomeReadCuts(decode, left, chunks[1..])
  {
    if SomeReadCuts(decode, buf, chunks) {
      var k :| 0 < k < |chunks| && ReadCuts(decode, buf, chunks, k);
      assert LaterCut(decode, buf, chunks, k - 1);
    }
    if error.None? && SomeReadCuts(decode, left, chunks[1..]) {
      var k :| 0 < k < |chunks[1..]| && ReadCuts(decode, left, chunks[1..], k);
      assert LaterCut(decode, buf, chunks, k);
    }
  }
}
