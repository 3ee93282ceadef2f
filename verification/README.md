# Verified model of the MQTT broker

This Dafny project models the core of the MQTT 3.1.1 broker and proves what it keeps over every input and
every run. `dafny verify dfyconfig.toml` checks all of it.

| modules | what they hold |
|---|---|
| `Types`, `Levels` | packets and results; topic levels and the filter check |
| `Subscriptions`, `TopicTrees`, `SubscriptionProofs` | subscriptions with no index; the tree of nodes on the heap, updated in place; what matching means |
| `RemainingLength`, `Cursors`, `DecodeSpec`, `Decoder`, `EncodeSpec`, `Encoder`, `CodecProofs`, `Utf8` | the codec: readers and writers as values, the methods that advance a cursor or fill a buffer, and the laws between them |
| `Framing`, `PacketFrames` | cutting packets out of a byte stream |
| `WireFormat` | the protocol's own numbers in plain bytes, and the codec and the cutting held against them |
| `SessionSpec`, `Sessions`, `SessionProofs`, `InFlight` | packet ids and in-flight publishes, atomic and with `enqueue_publish` in its real steps |
| `BrokerSpec`, `BrokerInvariants`, `BrokerOwnership`, `BrokerDelivery`, `RunSubscriptions`, `Transcripts`, `EndToEnd` | the broker as a step machine over many connections, and its whole-run theorems |
| `Brokers`, `Connections`, `Segmentation`, `Server` | the broker and its connections as objects, tied to the step machine |

Code that changes state in place is modelled by classes: `TopicNode` and `TopicTree`, `Cursor`, `BytesMut`,
`Session`, `Channels`, `Broker`, `Connection`. Each of their methods is proved against a function of the old
state, and the theorems are about those functions. The joints are proved too: `TopicTree` against the slot table,
the slot table against a flat list of entries, `Broker` against `BrokerSpec`, a session of the broker against the
stand-alone session machine (`SessionIsMachineRun`), and a broker serving any number of connections in any order
against a run of the step machine (`Server.Serve`), so the whole-run theorems apply to the objects.

A sender handle is an index into a table of channels; a channel is the packets it has taken and whether its
receiver exists. Text is bytes with a UTF-8 predicate. Sending on a closed channel does nothing, as in the source.

## What the code does that its documentation or the standard does not say

- A filter without `#` also matches every longer topic it is a level-prefix of, because subscribers are collected at
  every node on the way (src/broker/subscriptions.rs:122). `MatchesVersusStandard` gives the surplus exactly.
- The `$` rule of section 4.7.2 of MQTT 3.1.1 is absent. `FoundVersusFullStandard` says for which filters and topics
  that and the first point make a difference, `RunMatchesAreStandardIff` when a run's matches are the standard's.
- The granted QoS is always 1 (src/broker/mod.rs:98), so no publish is forwarded at QoS 2, although ARCHITECTURE.md
  draws that flow (ARCHITECTURE.md:164-170); `QueuedPacketsEncode` shows that no session ever has a QoS 2 entry.
- A read that ends inside a remaining-length field, after its first byte, ends the connection with an error instead of
  waiting for more (src/server/tcp.rs:131-134), as in `CutWitness`. `ChunkIndependence` shows this is the only way reads
  matter.
- A registered session's channel need not be open: a connection that ends in an error never runs the disconnect handler,
  and a second CONNECT drops the earlier receiver (`AbortStrandsSession`, `SecondConnectStrandsSession`).
  `RegisteredStayOpenIff` names the events that do this, for all runs.
- A CONNECT under a client id in use takes the registration over, and the end of the old connection then removes it
  (`TakeoverWitness`, `ReuseRemovesTheNewSession`). `HeldStayRegisteredIff` and `AlwaysOwnedIff` say exactly when
  registration and ownership survive; `PublishReachesEachRoute` counts the copies of a publish in every run.
- An acknowledgement that overtakes the insert leaves its id pending (`AckBeforeInsertIsLost`).

## Model

| member | source | states |
|---|---|---|
| `TopicTrees.TopicTree.Add` | src/broker/subscriptions.rs:28-31 | In place on the heap: the tree's ghost table (slot to ordered subscribers) gets exactly one entry more, at the end of the list of the filter's slot; every other slot keeps its list |
| `TopicTrees.TopicTree.AddRecursive` | src/broker/subscriptions.rs:33-56 | The recursive descent from any node: one entry more in the slot the remaining levels name below that node; nodes created on the way keep the tree linked (one node a path, parents and children point at each other) |
| `TopicTrees.TopicTree.Remove` | src/broker/subscriptions.rs:58-61 | The filter's slot loses that client's entries, order of the others kept; no other slot changes; no node is created |
| `TopicTrees.TopicTree.RemoveRecursive` | src/broker/subscriptions.rs:63-88 | The same from any node, with the source's result: true exactly when no level was left |
| `TopicTrees.TopicTree.RemoveAllForClient` | src/broker/subscriptions.rs:90-92 | Every slot loses that client's entries and keeps the others in order |
| `TopicTrees.TopicTree.RemoveAllRecursive` | src/broker/subscriptions.rs:94-106 | The sweep over a map of children in any order: exactly the nodes at and below the start are purged, every other node is untouched |
| `TopicTrees.TopicTree.Matches` | src/broker/subscriptions.rs:108-113 | The collected list, order included, is the concatenation of the slots the topic reads |
| `TopicTrees.TopicTree.MatchesRecursive` | src/broker/subscriptions.rs:115-139 | From any node and depth: appends exactly what the still missing levels read below that node, node lists first, then the `+` child, then the named child; absent children hold nothing |
| `SubscriptionProofs.TableHoldsFlatList` | src/broker/subscriptions.rs:28-106 | For every history of add, remove and remove_all, each slot is the sublist of the flat (filter, subscriber) list whose filters name it, in order |
| `SubscriptionProofs.MatchesAreTheMatchingEntries` | src/broker/subscriptions.rs:28-139 | For every history and topic, the matches are as a multiset exactly the flat entries whose levels before any `#` match a level-prefix of the topic, each with its multiplicity |
| `SubscriptionProofs.MatchesVersusStandard` | src/broker/subscriptions.rs:115-139 | For valid filters the matches are the sum of three parts, each with its exact multiplicity: what sections 4.7.1 and 4.7.2 match, filters without `#` that match a proper level-prefix, and wildcard-first filters that only section 4.7.2 keeps off a `$` topic |
| `SubscriptionProofs.MatchesAreStandardIff` | src/broker/subscriptions.rs:115-139 | For valid filters the matches of a topic are those of the standard if and only if no subscribed filter is of either surplus kind for it |
| `SubscriptionProofs.FoundVersusStandard` | src/broker/subscriptions.rs:115-139 | For one filter with `#` at most last: the broker matches it exactly when the standard does or it has no `#` and matches a proper level-prefix, and never both |
| `SubscriptionProofs.FoundVersusFullStandard` | src/broker/subscriptions.rs:115-139 | For one filter with `#` at most last and any topic: the broker agrees with sections 4.7.1 and 4.7.2 if and only if the filter is not a proper level-prefix without `#` and not a wildcard-first filter found by a topic starting with `$` |
| `SubscriptionProofs.DollarTopicsAreNotExcluded` | src/broker/subscriptions.rs:115-139 | After `add` under any filter the broker matches with a topic, a `$` topic included, that topic finds the subscriber |
| `SubscriptionProofs.LeakWitness` | src/broker/subscriptions.rs:130-138 | `#` and `+/a` on the topic `$/a` are valid filters that only section 4.7.2 speaks against, and the broker matches them |
| `SubscriptionProofs.ShortWitness` | src/broker/subscriptions.rs:122 | The filter `a` falls short of the topic `a/b` and is matched all the same |
| `SubscriptionProofs.RemoveTakesOneClientsEntries` | src/broker/subscriptions.rs:58-88 | For every table and topic: removing takes from the matches exactly that client's entries of the filter's slot if the filter matches the topic, and nothing otherwise |
| `SubscriptionProofs.RemoveAllFiltersEveryMatch` | src/broker/subscriptions.rs:90-106 | remove_all_for_client makes every topic's matches its old matches without that client, as a sequence |
| `SubscriptionProofs.ValidFiltersHaveDistinctSlots` | src/broker/subscriptions.rs:28-56 | Two valid filters that name the same slot are the same filter |
| `Levels.ValidFilterIffStandard` | src/broker/mod.rs:163-184 | The character scan accepts exactly the filters of 1 to 65535 bytes in which `#` is only ever a whole last level and `+` a whole level (section 4.7.1) |
| `Levels.JoinSplit` | src/broker/subscriptions.rs:29 | Joining the levels of a text gives the text back, and no level holds a `/` |
| `Levels.SplitJoin` | src/broker/subscriptions.rs:29 | Splitting joined levels gives the levels back |
| `SubscriptionProofs.SeparatorsInBytes` | src/broker/mod.rs:163-184 | In raw bytes: 61 2F 62 has the levels 61 and 62; 61 2F 23 and 61 2F 2B are valid filters, 61 23 and 61 2B are not |
| `SubscriptionProofs.WildcardsInBytes` | src/broker/subscriptions.rs:28-139 | In raw bytes: with one subscriber under 61 2F 2B and one under 61 2F 23, the topic 61 2F 62 matches exactly those two |
| `RemainingLength.EncodeRemainingLength` | src/protocol/encode.rs:6-20 | The loop's output is the base-128 field of the length |
| `RemainingLength.DecodeUndoesEncode` | src/protocol/decode.rs:9-34 | Every length up to 268435455 comes back from its field, any suffix untouched; every larger length's field is refused |
| `RemainingLength.AcceptedField` | src/protocol/decode.rs:9-34 | An accepted k-byte field has a value below 128^k, its re-encoding is never longer, and is the same bytes exactly when k = 1 or the last byte is nonzero |
| `Cursors.Cursor.RemainingLengthField` | src/protocol/decode.rs:9-34 | The loop over value, multiplier and count reads the field as specified, and the final "too large" test never succeeds |
| `Cursors.Cursor.U16` | src/protocol/decode.rs:45-52 | Big-endian read that advances the cursor, or the short-buffer error with the cursor unmoved |
| `Cursors.Cursor.Exact` | src/protocol/decode.rs:54-64 | The next n bytes, or the short-buffer error with the cursor unmoved |
| `Cursors.Cursor.Utf8String` | src/protocol/decode.rs:66-71 | A length-prefixed well-formed UTF-8 text, or which of the three errors applies |
| `Decoder.FixedHeaderOf` | src/protocol/decode.rs:78-94 | Type, flags and remaining length off the cursor, or the error, as the value-level reader says |
| `Decoder.ConnectOf` | src/protocol/decode.rs:101-168 | Reads the fields in order, optional ones only when flagged; result, error and cursor as the value-level reader says |
| `Decoder.PublishOf` | src/protocol/decode.rs:170-196 | Topic, packet id exactly when QoS > 0, and all the rest as payload; invalid QoS first |
| `Decoder.SubscribeOf` | src/protocol/decode.rs:214-235 | The loop reads (filter, QoS) pairs to the end of the input, in order; an empty list or a bad pair is an error |
| `Decoder.UnsubscribeOf` | src/protocol/decode.rs:237-254 | The loop reads filters to the end of the input, in order; an empty list is an error |
| `Decoder.PacketOf` | src/protocol/decode.rs:256-311 | The dispatch on the header's type, with the incomplete-packet and server-received errors |
| `CodecProofs.StringIff` | src/protocol/decode.rs:66-71 | The string reader gives (text, rest) exactly on the two-byte length, the text and the rest, for well-formed UTF-8 of at most 65535 bytes |
| `Utf8.ValidIffWritten` | src/protocol/decode.rs:66-71 | The accepted texts are exactly what a writer of Unicode scalar values (section 3 of RFC 3629, no surrogates) puts down |
| `CodecProofs.ConnectIff` | src/protocol/decode.rs:101-168 | For all inputs: decode_connect gives c with `rest` left exactly when c's flags and optional fields agree and the input is c as section 3.1 writes it, followed by `rest` |
| `CodecProofs.SubscribeIff` | src/protocol/decode.rs:214-235 | For all inputs: decode_subscribe gives p exactly when its list is non-empty and the input is p as written, each QoS byte free in its upper six bits |
| `CodecProofs.WrittenSubscribeDecodes` | src/protocol/decode.rs:214-235 | Every non-empty SUBSCRIBE written as section 3.8.3 asks decodes back |
| `CodecProofs.UnsubscribeIff` | src/protocol/decode.rs:237-254 | For all inputs: decode_unsubscribe gives p exactly when its list is non-empty and the input is p as section 3.10.3 writes it |
| `CodecProofs.PublishBodyIff` | src/protocol/decode.rs:170-196 | For all flags and inputs: decode_publish gives p exactly when p is decodable at all, the flags are p's and the input is p's body |
| `CodecProofs.PublishRoundTripIff` | src/protocol/encode.rs:117-143 | Encoding then decoding a PUBLISH gives the same packet exactly when its topic is UTF-8 of at most 65535 bytes, its id is there iff QoS > 0, and its remaining length is at most 268435455 |
| `CodecProofs.LengthFieldCountsTheRest` | src/protocol/encode.rs:32-165 | For every encodable packet the length field as read back equals the number of bytes after it, unless it is over the four-byte limit, where the header is refused |
| `CodecProofs.AckRoundTrip` | src/protocol/encode.rs:84-109 | PUBACK, PUBREC, PUBREL and PUBCOMP decode back from their bytes |
| `CodecProofs.RepliesAreTold` | src/protocol/encode.rs:58-115 | Two non-PUBLISH packets of the broker have the same bytes if and only if they are the same packet, up to the length limit |
| `WireFormat.U16InBytes` | src/protocol/decode.rs:45-52 | Two-byte numbers are read and written high byte first |
| `WireFormat.TextInBytes` | src/protocol/encode.rs:22-25 | A text of at most 65535 bytes is written under its two-byte length and read back from those bytes |
| `WireFormat.LengthInBytes` | src/protocol/encode.rs:6-20 | Every length up to 268435455 has the one to four bytes of table 2.4 |
| `WireFormat.FieldInBytes` | src/protocol/decode.rs:9-34 | For every input: a length field ends at its first byte below 128 among four and has the value table 2.4 gives those bytes; otherwise it is malformed after four bytes and cut before |
| `WireFormat.ExtractInBytes` | src/server/tcp.rs:125-146 | For every buffer and decoder, from the bytes alone: wait below two bytes; error for kinds 0 and 15; error for a length field that does not end; else the frame of the announced size, waited for if incomplete |
| `WireFormat.WaitsIff` | src/server/tcp.rs:125-141 | A buffer of two bytes or more is waited on if and only if its kind is not reserved and its length field ends and announces more than is there |
| `WireFormat.HopelessEnds` | src/server/tcp.rs:60-83 | A reserved kind, and four length bytes that all continue, end the connection at once: an error, no packet, everything unread, the session let go |
| `WireFormat.KindsInBytes` | src/protocol/decode.rs:256-311 | For every frame: the high half of the first byte decides, with the numbers of table 2.1, which reader gets the body, and kinds 2, 9, 11 and 13 are never accepted |
| `WireFormat.ConnectFromWire` | src/protocol/decode.rs:101-168 | Every consistent CONNECT written as section 3.1 asks behind the byte 0x10 and its length decodes back |
| `WireFormat.SubscribeFromWire` | src/protocol/decode.rs:214-235 | Every non-empty SUBSCRIBE behind the byte 0x82 and its length decodes back |
| `WireFormat.UnsubscribeFromWire` | src/protocol/decode.rs:237-254 | Every non-empty UNSUBSCRIBE behind the byte 0xA2 and its length decodes back |
| `WireFormat.PublishBodyInBytes` | src/protocol/encode.rs:129-143 | The body of a PUBLISH is its topic under a two-byte length, its id if it has one, and its payload |
| `WireFormat.PublishOnWire` | src/protocol/encode.rs:117-143 | A PUBLISH is written behind 0x30 plus 8 for DUP, 2 or 4 for its QoS and 1 for RETAIN, and decodes back from those bytes |
| `WireFormat.IdFrame` | src/protocol/decode.rs:198-212 | The four-byte frames of kinds 4 to 7 are PUBACK, PUBREC, PUBREL and PUBCOMP with the id of their last two bytes |
| `WireFormat.EmptyFrames` | src/protocol/decode.rs:307-309 | C0 00 is PINGREQ and E0 00 is DISCONNECT |
| `WireFormat.ConnackInBytes` | src/protocol/encode.rs:58-64 | Every CONNACK is 20 02, its session-present byte and the code of table 3.1 |
| `WireFormat.ConnectAnswerInBytes` | src/server/tcp.rs:165-175 | Every CONNECT is answered with 20 02, 0 for a clean session and 1 otherwise, and 00 |
| `WireFormat.SubackInBytes` | src/protocol/encode.rs:66-75 | Every SUBACK is 90, its length, its id and the byte of section 3.9.3 for each code in order |
| `WireFormat.SubscribeAnswerInBytes` | src/broker/mod.rs:84-122 | The SUBACK to any list of filters holds, after the id, 01 for each filter section 4.7.1 allows and 80 for each other, in order |
| `WireFormat.ShortRepliesInBytes` | src/protocol/encode.rs:77-115 | PUBACK, PUBREC, PUBREL, PUBCOMP and UNSUBACK are 40, 50, 62, 70 and B0 with 02 and the id; PINGRESP is D0 00 |
| `WireFormat.SubscribeExchange` | src/protocol/decode.rs:297-300 | 82 06 00 01 00 01 61 01 subscribes to `a` and is answered 90 03 00 01 01 |
| `Encoder.ConnackBytes` | src/protocol/encode.rs:58-64 | The buffer holds the CONNACK's bytes |
| `Encoder.SubackBytes` | src/protocol/encode.rs:66-75 | The buffer holds the SUBACK's bytes, one per code in order |
| `Encoder.PublishBytes` | src/protocol/encode.rs:129-143 | The buffer holds header, topic, id and payload; at QoS > 0 without an id the encode error |
| `Encoder.PacketBytes` | src/protocol/encode.rs:145-165 | The dispatch: bytes for every packet a server sends, the encode error for every other |
| `PacketFrames.ExtractPacket` | src/server/tcp.rs:125-146 | Cuts exactly the first complete frame off the buffer and decodes it; buffer unchanged when more is needed or the header is bad |
| `Framing.DrainConserves` | src/server/tcp.rs:61-82 | The frames the loop cuts off and what it leaves are the buffer, byte for byte |
| `Framing.ReadsConserve` | src/server/tcp.rs:61-82 | Over any sequence of reads the frames and the leftover are the input; only an error leaves input unread |
| `Framing.ChunkIndependence` | src/server/tcp.rs:61-82 | For every stream, every cut into reads and every frame decoder: same packets, error and leftover as the whole stream at once if and only if no read ends inside a remaining-length field after its first byte |
| `PacketFrames.DecoderKeepsCutApart` | src/protocol/decode.rs:256-311 | The packet decoder never reports the cut-length error for a frame whose header is complete, which the chunk theorem asks of a decoder |
| `PacketFrames.PacketChunkIndependence` | src/server/tcp.rs:61-82 | The chunk theorem for the packet decoder |
| `PacketFrames.CutWitness` | src/server/tcp.rs:130-134 | A PINGREQ with a two-byte length field: accepted when read at once, an error and no packet when the read ends after the field's first byte |
| `Segmentation.SegmentationDoesNotMatter` | src/server/tcp.rs:52-95 | Sessions, subscriptions, queued packets, held session and error after any reads of one connection are those of the whole stream in one read, if no read ends inside a length field |
| `Segmentation.ReadAll` | src/server/tcp.rs:52-95 | On the objects, any number of reads of one connection up to the first error leave what the value-level reads say |
| `Sessions.Session.NextId` | src/broker/session.rs:61-71 | The id handed out and the 16-bit counter afterwards |
| `Sessions.Session.EnqueuePublish` | src/broker/session.rs:83-116 | Session and channel afterwards: id stamped, sent, then pending in the map of its QoS; an id is used up but nothing pends when the receiver is gone |
| `Sessions.Session.HandlePuback` | src/broker/session.rs:118-120 | Exactly that id leaves the QoS 1 map |
| `Sessions.Session.HandlePubrec` | src/broker/session.rs:122-127 | Exactly that QoS 2 entry, if there is one, goes on to waiting for PUBCOMP |
| `Sessions.Session.HandlePubcomp` | src/broker/session.rs:129-131 | Exactly that id leaves the QoS 2 map |
| `SessionProofs.PacketIds` | src/broker/session.rs:61-71 | Call k returns max(1, (k+1) mod 65536): never 0, distinct over the first 65535 calls, and two calls fewer than 65535 apart agree only at the wrap, where 1 comes twice in a row |
| `SessionProofs.PendingQos1` | src/broker/session.rs:83-120 | In every sequential run an id is pending at QoS 1 exactly when its last successful QoS 1 enqueue is later than its last PUBACK, and holds the packet last sent under it |
| `SessionProofs.PendingQos2` | src/broker/session.rs:83-131 | The same at QoS 2 with PUBCOMP; the entry waits for PUBCOMP exactly when a PUBREC came since the send |
| `SessionProofs.PendingSizes` | src/broker/session.rs:61-131 | For the first 65535 ids: the two maps share no id, and each size is successful enqueues minus acknowledgements that found their id |
| `InFlight.UninterruptedIsAtomic` | src/broker/session.rs:83-116 | Allocate, send and insert with nothing in between are the atomic enqueue |
| `InFlight.PendingWasSent` | src/broker/session.rs:83-131 | In every interleaving of allocate, send, insert and acknowledgements, every pending id carries that id and was already sent |
| `InFlight.PendingSinceInsert` | src/broker/session.rs:94-131 | For at most 65535 ids: once inserted, an id is pending exactly until the first acknowledgement after the insert |
| `InFlight.LateInsertKeepsAckedId` | src/broker/session.rs:83-131 | For at most 65535 ids: after send and insert the id is pending if and only if all its acknowledgements since the send ran before the insert |
| `InFlight.AckBeforeInsertIsLost` | src/broker/session.rs:88-100 | A PUBACK between send and insert leaves its id pending |
| `Brokers.Broker.RegisterSession` | src/broker/mod.rs:29-32 | A fresh session with its own open channel, registered under its client id in place of any earlier one |
| `Brokers.Broker.HandlePublish` | src/broker/mod.rs:57-82 | The loop over the matched subscribers delivers each copy in order, by channel at QoS 0 and through the registered session otherwise |
| `Brokers.Broker.HandleSubscribe` | src/broker/mod.rs:84-122 | The loop adds one entry per valid filter at QoS 1 and answers one code per filter in order, with the request's id |
| `Brokers.Broker.HandleUnsubscribe` | src/broker/mod.rs:124-133 | Every listed filter's slot loses the client's entries; nothing else changes |
| `Brokers.Broker.HandleDisconnect` | src/broker/mod.rs:135-140 | The client id leaves the session map and the tree; sessions and channels stay as they are |
| `Brokers.Broker.HandlePubrec` | src/broker/mod.rs:146-151 | The QoS 2 entry goes on and PUBREL with the same id is sent |
| `BrokerInvariants.RunInv` | src/server/tcp.rs:148-303 | The invariant every event keeps over whole runs of many connections: all tables well-formed, a channel open exactly while held, and its replies in step with what was received |
| `BrokerInvariants.RepliesInOrder` | src/server/tcp.rs:155-302 | For every run and session, the non-PUBLISH packets ever sent on its channel are, in order, the replies to what its connection received from its CONNECT on: CONNACK, PUBACK, PUBREC, PUBREL, PUBCOMP, SUBACK, UNSUBACK with the request's id, PINGRESP |
| `BrokerInvariants.QueuedPacketsEncode` | src/broker/mod.rs:69-116 | In every reachable state every subscription has QoS 1, no session has a QoS 2 entry, every packet ever queued encodes, and every PUBLISH queued at QoS > 0 carries a nonzero id |
| `BrokerInvariants.OpenWhileHeld` | src/server/tcp.rs:38-102 | In every reachable state a session's channel is open exactly while some connection holds the session |
| `BrokerOwnership.HeldStayRegisteredIff` | src/broker/mod.rs:29-36 | For every run: at every moment every held session is registered under its client id, if and only if no CONNECT ever names a client id another connection holds at that moment |
| `BrokerOwnership.AlwaysOwnedIff` | src/broker/mod.rs:29-36 | For every run: at every moment held sessions are registered and every subscription's sender is the session registered under its client id, if and only if at every CONNECT no other connection holds that client id and the tree has no entry for it |
| `BrokerOwnership.TakeoverWitness` | src/broker/mod.rs:29-32 | Two connections that CONNECT under one client id: the first still holds its session, which is no longer registered |
| `BrokerOwnership.HarmlessReuse` | src/broker/mod.rs:29-32 | A client id reused after its first connection broke off disowns nothing, so not reusing ids is more than is needed |
| `BrokerOwnership.NoReuseDisownsNothing` | src/broker/mod.rs:29-32 | Never naming a registered client id in a CONNECT is enough for both equivalences |
| `BrokerOwnership.SubscriptionsAreOwned` | src/broker/mod.rs:29-36 | In every run that disowns nothing, each client in the tree is registered with the session that owns the subscriber's channel |
| `BrokerDelivery.PublishReachesEachRoute` | src/broker/mod.rs:57-82 | In every run whatever the clients do: a publish puts on every open channel exactly one copy per match routed there (at QoS 0 the subscriber's own channel, otherwise that of the session registered under its client id), nothing on a closed one, and changes nothing that was queued |
| `BrokerDelivery.PublishReachesEachSubscription` | src/broker/mod.rs:57-82 | In runs that disown nothing that is one copy per matching entry of the channel |
| `BrokerOwnership.RegisteredStayOpenIff` | src/server/tcp.rs:148-303 | For every run: at every moment every registered session's channel is open, if and only if no connection ever lets go of its registered session by breaking off or by a CONNECT under another client id |
| `BrokerOwnership.RegisteredChannelsAreOpen` | src/server/tcp.rs:148-303 | In runs without reuse of registered client ids: at the end every registered session's channel is open if and only if no connection holding a session broke off or connected again |
| `BrokerOwnership.AbortStrandsSession` | src/server/tcp.rs:77-87 | A connection that ends in an error closes its session's channel and leaves registrations and subscriptions as they were; unless its client id was taken over, the closed session is the registered one |
| `BrokerOwnership.SecondConnectStrandsSession` | src/server/tcp.rs:156-182 | So does a second CONNECT on one connection: the first session's channel closes, and under another client id it stays registered unless that id was taken over |
| `BrokerOwnership.ReuseRemovesTheNewSession` | src/broker/mod.rs:29-36 | When another connection ends after a CONNECT, the new session's registration goes if and only if that other connection held the same client id; the new connection keeps its session either way |
| `BrokerOwnership.DisconnectRemovesClient` | src/broker/mod.rs:135-140 | After a disconnect the client is in neither structure, other registrations are as before, and every slot keeps the other clients' entries in order |
| `BrokerDelivery.SubackTellsTheTable` | src/broker/mod.rs:84-122 | One code per filter in order, Failure exactly at filters section 4.7.1 does not allow, and every slot grows by exactly one entry of that client per success code of a filter naming it, at the QoS the code states |
| `RunSubscriptions.RunTableIsHistory` | src/broker/mod.rs:84-140 | The table of any run is that of the history of operations its SUBSCRIBE, UNSUBSCRIBE, DISCONNECT and end-of-input events ask for |
| `RunSubscriptions.RunMatchesVersusStandard` | src/broker/mod.rs:57-140 | At every moment of every run, what a topic matches is what sections 4.7.1 and 4.7.2 match of the subscriptions granted and not taken back, plus exactly the two kinds of surplus |
| `RunSubscriptions.RunMatchesAreStandardIff` | src/broker/mod.rs:57-140 | At every moment of every run the broker's matches of a topic are the standard's if and only if no filter of either surplus kind is subscribed |
| `Transcripts.ChannelIsTranscript` | src/server/tcp.rs:148-303 | For every run and channel: all it ever took is, in order, one copy of each publish of the run per match routed to it while open, and the replies to its own connection, up to the ids on publishes |
| `Transcripts.SessionIsMachineRun` | src/broker/session.rs:83-131 | For every run and session: the session inside the broker is the stand-alone session machine after exactly its routed enqueues, its connection's acknowledgements and its release |
| `Transcripts.BrokerPendingQos1` | src/broker/session.rs:83-120 | In every run of the broker an id is pending in a session exactly when its last enqueue there is later than its last PUBACK, holding the packet last sent under it |
| `Transcripts.BrokerPendingSizes` | src/broker/session.rs:61-131 | In every run of the broker, for the first 65535 ids of a session, its pending publishes are its enqueues minus its effective acknowledgements |
| `EndToEnd.PublishEndToEnd` | src/server/tcp.rs:125-146 | For every run, every PUBLISH frame the extractor accepts and every packet it puts on any channel: the packet encodes, and its bytes, whatever follows, are cut out and decoded to the inbound topic, payload, DUP and RETAIN at QoS min(inbound, 1), with the inbound remaining length |
| `Connections.Connection.Connect` | src/server/tcp.rs:156-182 | Registers the new session, queues CONNACK first, lets go of the session held before and holds the new one; sessions known before stay known |
| `Connections.Connection.HandlePacket` | src/server/tcp.rs:148-303 | Every packet kind on the real objects: broker, held session and whether the connection goes on are what the value-level step says; sessions known before stay known |
| `Connections.Connection.OnRead` | src/server/tcp.rs:60-83 | The buffer loop after a read: all complete packets handled in order, stopping at the first error, where the session is let go but stays registered; sessions known before stay known and only new objects join the footprint, so any connection can go on |
| `Connections.Connection.Disconnect` | src/server/tcp.rs:293-301 | Removes the held session's client from the broker and drops its receiver; without a session nothing happens |
| `Connections.FrameIsForServer` | src/protocol/decode.rs:267-310 | No decoded packet is of a kind that ends the connection, so only decode errors do |
| `Connections.ServingIsARun` | src/server/tcp.rs:61-82 | Handling the packets of a read one after the other is the run of the step machine in which they arrive one by one |
| `Server.ReadIsARun` | src/server/tcp.rs:60-83 | What a read leaves behind is the run in which its packets arrive and, if it ends in an error, the connection breaks off |
| `Server.EndIsARun` | src/server/tcp.rs:97-99 | What the disconnect at the end of input leaves behind is the event of an ended connection |
| `Server.Serve` | src/server/tcp.rs:28-102 | Any number of clients of a new broker and any interleaving of their reads and ends: the broker object's state and every connection's held session and buffer are those of a run of the step machine, so every whole-run theorem speaks about the objects |

## Left out

- Sockets, Tokio tasks and select loops, the WebSocket server (its dispatch repeats the one modelled), keep-alive timers, logging, configuration and `main.rs`: input and output only.
- Error texts: each message is one constructor of `DecodeReason`; texts that differ only in numbers or field names share one.
- The cursor's position after a failed decode: every caller discards the cursor then.
- `Session::sender` falls back to a dead channel when its lock is taken: the lock is taken as free. DashMap and the locks: each broker handler is one step; only `enqueue_publish` is split into its steps.
- The receiving half of a channel: packets stay in the record of what was sent, so what is written to the socket and when is not modelled; a write error is the event `Abort`.
- Retransmission, offline queues, retained messages, wills and a duplicate filter for inbound QoS 2: the source does not have them.
- Integer width of `usize`: lengths and offsets are unbounded; packet ids, keep-alive and the two-byte length prefix have their 16 bits, with wrap-around and truncation as in the source.
- Capacity hints, hash-map iteration order (the sweep over children is proved for any order) and performance.
- InFlight.Apply: taking an id is one step although the source adds and, at zero, stores in two; the lemmas that need distinct ids are about at most 65535 ids, where zero is never reached.
- Segmentation.SegmentationDoesNotMatter: one direction only, because a packet lost to a cut length field may be one that has no effect; the equivalence is `ChunkIndependence`, on packets and errors.
- SessionProofs.PendingSizes: for the first 65535 ids only, since later ids come again while the first may still be pending; `PendingQos1` and `PendingQos2` hold for every run. The same bound is on Transcripts.BrokerPendingSizes.
- Will fields and credentials are decoded and carried but nothing in the source reads them, so no step depends on them.
- Which connections a server accepts and when: `Server.Serve` has a fixed number of clients from the start and is a recursion over the input that arrives, where the source has one task per connection.
