/** Framing with the packet decoder in place: taking one packet off the front of the read buffer. */
module PacketFrames {
  import opened Types
  import opened Cursors
  import opened DecodeSpec
  import opened Decoder
  import opened Encoder
  import opened Framing

  function PacketIn(frame: Bytes): Result<Packet> {
    var (packet, _) :- DecodePacket(frame);
    Ok(packet)
  }

  /** `None` asks for more input; otherwise the next packet, cut off the buffer, or an error. */
  method ExtractPacket(buf: BytesMut) returns (r: Option<Result<Packet>>)
    modifies buf
    ensures match Extract(PacketIn, old(buf.data))
            case NeedMore => r == None && buf.data == old(buf.data)
            case BadHeader(e) => r == Some(Err(e)) && buf.data == old(buf.data)
            case Frame(frame, packet) => r == Some(packet) && buf.data == old(buf.data)[|frame|..]
  {
    if |buf.data| < 2 {
      return None;
    }
    var peek := new Cursor(buf.data);
    var header := FixedHeaderOf(peek);
    if header.Err? {
      return Some(Err(header.error));
    }
    HeaderConsumes(buf.data);
    var consumed := |buf.data| - |peek.rest|;
    var total := consumed + header.value.remainingLength;
    if |buf.data| < total {
      return None;
    }
    var frame := buf.SplitTo(total);
    var slice := new Cursor(frame);
    var packet := PacketOf(slice);
    return Some(packet);
  }

  // ----- The decoder never reports a cut length field for a complete header -----

  ghost predicate NotCut<T(!new)>(r: Result<T>) {
    r != Err(Decode(LengthFieldCut))
  }

  lemma ReaderErrors(present: bool, s: Bytes)
    ensures NotCut(ReadU8(s)) && NotCut(ReadU16(s)) && NotCut(ReadString(s))
    ensures NotCut(ReadOptionalString(present, s)) && NotCut(ReadOptionalBinary(present, s))
  {
  }

  lemma ConnectErrors(s: Bytes)
    ensures DecodeConnect(s) != Err(Decode(LengthFieldCut))
  {
    forall present, t: Bytes
      ensures NotCut(ReadU8(t)) && NotCut(ReadU16(t)) && NotCut(ReadString(t))
      ensures NotCut(ReadOptionalString(present, t)) && NotCut(ReadOptionalBinary(present, t))
    {
      ReaderErrors(present, t);
    }
  }

  lemma {:induction false} SubscriptionErrors(s: Bytes)
    ensures ReadSubscriptions(s) != Err(Decode(LengthFieldCut))
    decreases |s|
  {
    if s != [] && ReadString(s).Ok? {
      var (_, s1) := ReadString(s).value;
      if s1 != [] {
        SubscriptionErrors(s1[1..]);
      }
    }
  }

  lemma {:induction false} FilterErrors(s: Bytes)
    ensures ReadFilters(s) != Err(Decode(LengthFieldCut))
    decreases |s|
  {
    if s != [] && ReadString(s).Ok? {
      FilterErrors(ReadString(s).value.1);
    }
  }

  lemma BodyErrors(header: FixedHeader, s: Bytes)
    ensures DecodeBody(header, s) != Err(Decode(LengthFieldCut))
  {
    match header.packetType
    case ConnectType => ConnectErrors(s);
    case SubscribeType =>
      if |s| >= 2 {
        SubscriptionErrors(s[2..]);
      }
    case UnsubscribeType =>
      if |s| >= 2 {
        FilterErrors(s[2..]);
      }
    case _ =>
  }

  lemma DecoderKeepsCutApart()
    ensures KeepsCutApart(PacketIn)
  {
    forall f: Bytes | |f| >= 2 && DecodeFixedHeader(f).Ok?
      ensures PacketIn(f) != Err(Decode(LengthFieldCut))
    {
      var (header, s) := DecodeFixedHeader(f).value;
      BodyErrors(header, s);
    }
  }

  /** The buffer loop on any stream and any reads, with the packet decoder. */
  lemma PacketChunkIndependence(chunks: seq<Bytes>)
    requires chunks != []
    ensures Same(Reads(PacketIn, [], chunks), Drain(PacketIn, Flatten(chunks))) <==>
            !SomeReadCuts(PacketIn, [], chunks)
  {
    DecoderKeepsCutApart();
    assert [] + Flatten(chunks) == Flatten(chunks);
    ChunkIndependence(PacketIn, [], chunks);
  }

  /** A PINGREQ with its length written in two bytes, read at once and cut after the first of them. */
  lemma CutWitness()
    ensures var chunks := [[0xC0, 0x80], [0x00]];
      && SomeReadCuts(PacketIn, [], chunks)
      && Reads(PacketIn, [], chunks) == Outcome([], [], [0xC0, 0x80], Some(Decode(LengthFieldCut)))
      && Drain(PacketIn, Flatten(chunks)) == Outcome([Pingreq], [[0xC0, 0x80, 0x00]], [], None)
  {
    var cut: Bytes, whole: Bytes := [0xC0, 0x80], [0xC0, 0x80, 0x00];
    var chunks: seq<Bytes> := [cut, [0x00]];
    assert Flatten(chunks) == whole by {
      assert chunks[1..] == [[0x00]];
      FlattenOne([0x00]);
    }
    assert DecodeFixedHeader(cut) == Err(Decode(LengthFieldCut)) by {
      assert cut[1..] == [0x80] && cut[1..][1..] == [];
    }
    assert DecodeFixedHeader(whole) == Ok((FixedHeader(PingreqType, 0, 0), [])) by {
      assert whole[1..] == [0x80, 0x00] && whole[1..][1..] == [0x00] && whole[1..][1..][1..] == [];
    }
    assert whole[..3] == whole && whole[3..] == [];
    assert Extract(PacketIn, whole) == Frame(whole, Ok(Pingreq));
    assert Drain(PacketIn, []) == Outcome([], [], [], None);
    assert [] + cut == cut && Extract(PacketIn, cut) == BadHeader(Decode(LengthFieldCut));
    assert ReadCuts(PacketIn, [], chunks, 1) by {
      assert chunks[..1] == [cut];
      FlattenOne(cut);
      assert [] + whole == whole;
    }
  }
}
