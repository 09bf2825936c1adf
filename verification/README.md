# Verified model of koe-core

A Dafny model of the self-contained logic of koe-core, the C library under the Koe messenger, with proofs of
what its protocols and data structures keep over every input and every run.  `dafny verify dfyconfig.toml`
checks everything.

Code that updates state in place is a class or an array method whose contract ties the new state to a function of
the old one; the promises are then proved about those functions, over whole runs.  Each module follows one
component of the library:

| module | component |
|---|---|
| `Bytes` | big- and little-endian integers |
| `Crc32` | the table-driven CRC-32 against the bit-at-a-time one of ISO 3309, and its burst detection |
| `Version`, `Packet` | version negotiation; header layout, encoder, decoder, checksum, validation |
| `Fragmentation` | splitting a packet and reassembling it under every arrival order |
| `EventRing`, `EventInterleaving`, `Listeners` | the event ring driven by one thread, by two threads at the grain of single memory accesses, and its callback table |
| `Transport`, `WebSocket` | length-prefixed stream framing and WebSocket frames over sockets that move any number of bytes |
| `Crypto`, `Handshake`, `Message`, `Media`, `EndToEnd` | key derivation, concurrent handshakes, message and file delivery, and the layers together |
| `OfflineQueue` | the per-peer queue over its database table |
| `SessionTable`, `Presence` | the two fixed tables with ageing |
| `Backup`, `ShortId` | the backup archive and the base58 short ID |

What comes from outside is a parameter: clocks, random bytes (nonces, ephemeral secrets, message IDs), the results of
callbacks, how many bytes a socket call moves.  The cryptographic primitives are a record of functions, `Crypto.Suite`,
with the laws the protocol needs as the predicate `Crypto.Lawful`: X25519 commutes (section 6.1 of RFC 7748),
signatures verify, decryption inverts encryption.  `Crypto.LawsConsistent` exhibits a record that satisfies them.
The incremental hash is `Media.Hasher` with the law `Media.Computes`, which `Media.EveryHashComputes` shows to be satisfiable.

Where the source would divide by zero, read through a null pointer or read past a buffer, the method says so in an
extra result (`traps`, `faults`, `beyond`) with its exact condition, and promises nothing more.

Where the code and its documentation or the evident intent differ the model follows the code:

- The header has 106 bytes (include/koe_packet.h:4-22), not the 102 of README.md:119.
- A fragment carries 18 bytes more than the `mtu` that include/koe_packet.h:178 calls the maximum payload (`Fragmentation.WithinMtu`, `Fragmentation.OverMtu`).
- Unregistering a callback moves the last one into its place, so the registration order of include/koe_event.h:238 can change (`Listeners.OrderKept`, `Listeners.OrderLost`).
- A callback that unregisters one at or before its own place makes the last callback miss the event being dispatched, though include/koe_event.h:236 registers for all events (`EventRing.MissedExactly`, `EventRing.MissedExample`).
- Presence applies the local time limit only to transport 1; include/koe_presence.h:7-10 also names Bluetooth (`Presence.FollowsHeader`, `Presence.BluetoothOutlives`).
- include/koe_version.h:72-73 counts every v0 release as compatible for a v1 client; the code accepts the previous major only from a .0 release (`Version.DocumentedExactly`, `Version.PreviousRefused`).
- Negotiation picks the lower of two compatible versions; include/koe_version.h:78 speaks of the highest compatible one (`Version.HighestExactly`, `Version.LowerPicked`).
- An encrypted message packet leaves its checksum at zero, so the nonce drawn decides whether validation would accept it: one ending in 2^32 does (`Message.ChecksumUnset`, `Message.OneNonceAccepted`).
- A session added for a peer that already has one may not be the one found, and one removal may not remove the peer (`SessionTable.AddedIsFound`, `SessionTable.RemovedIsGone`, `SessionTable.AddedTwice`).
- Finalising a handshake does not compare the identity in the answer with the peer the hello was for (`Handshake.PeerMeant`, `Handshake.WrongPeer`).
- A reassembly context that completed a message is not ready for another fragment of it (`Fragmentation.ReplayFaults`, `Fragmentation.ReplayExample`).
- A new presence entry keeps the typing fields an earlier peer left in its slot (`Presence.NewPeerTyping`, `Presence.TypingInherited`, `Presence.NotInherited`).
- The receiver of a file ignores the chunk index of include/koe_media.h:24-25 and writes chunks as they arrive (`Media.RebuiltExactly`, `Media.SwappedChunks`, `Media.EarlyLast`).

## Model

| member | source | states |
|---|---|---|
| Crc32.Table.Entry | src/koe_packet.c:24-27 | the inner loop leaves the table entry: eight register shifts of the index |
| Crc32.Table.Init | src/koe_packet.c:20-30 | the lazy table is filled once and then holds the right entry for every index |
| Crc32.Table.Compute | src/koe_packet.c:32-39 | the table-driven loop equals the bit-at-a-time CRC on every buffer of every length |
| Crc32.TableStep | src/koe_packet.c:36-37 | one table look-up does exactly what feeding the eight bits of a byte does |
| Crc32.ShiftsFeed | src/koe_packet.c:25-26 | shifting the register xor a word is feeding the word's bits: one linear map |
| Crc32.FeedBitsBijective | src/koe_packet.c:36-37 | for a fixed message the register map is a bijection: every final state is reached from exactly one initial state |
| Crc32.CrcConcat | src/koe_packet.c:32-39 | the CRC of a concatenation continues from the CRC of its first part |
| Crc32.BurstDetected | src/koe_packet.c:32-39 | two messages that differ only inside 32 consecutive bits have different CRCs |
| Crc32.BytesWithin | src/koe_packet.c:32-39 | a change of adjacent bytes is a burst of eight times as many bits |
| Crc32.OneEnding | src/koe_packet.c:32-39 | whatever comes before, exactly one choice of four last bytes gives a message any wanted CRC |
| Crc32.Residue | src/koe_packet.c:20-39 | every message followed by its own CRC, lowest byte first, has the CRC 0x2144DF1C, the residue of ISO 3309 |
| Crc32.KnownAnswer | src/koe_packet.c:20-39 | the CRC of the letter a is 0xE8B7BE43 |
| Version.CompatibleSymmetric | src/koe_version.c:29-44 | compatibility is symmetric |
| Version.CompatibleNotTransitive | src/koe_version.c:29-44 | compatibility is not transitive, by example |
| Version.DocumentedExactly | src/koe_version.c:29-44 | compatibility is the one documented in practice except exactly for a client beyond its .0 release that meets the previous major |
| Version.PreviousRefused | src/koe_version.c:29-44 | 1.5 is said to speak with 0.1 and is refused |
| Version.NegotiationAgrees | src/koe_version.c:46-61 | the responder's negotiation succeeds exactly for compatible versions; re-negotiating its echo gives the same result, the lower of the two |
| Version.ReleaseOrder | src/koe_version.c:52-58 | 0.5 comes before 1.0 and 1.2 before 1.3 |
| Version.HighestExactly | src/koe_version.c:46-61 | of two compatible versions the higher, which both accept, is picked exactly when they are equal |
| Version.LowerPicked | src/koe_version.c:46-61 | 0.1 and 0.2 settle on 0.1 although 0.2 is compatible with both |
| Packet.Serialise | src/koe_packet.c:106-136 | fails and writes nothing exactly when the buffer is short; otherwise the layout, the payload or stale bytes, nothing beyond, and the returned size as an int |
| Bytes.ByteOrders | src/koe_packet.c:119-126 | big-endian puts the high byte first, little-endian the low one |
| Packet.OnWireBytes | src/koe_packet.c:132-133 | what is sent is the encoding of the packet with a null payload filled from the buffer; `OnWire` is the identity on decoded packets |
| Packet.Checksum | src/koe_packet.c:62-83 | the separately written encoder gives the CRC of the first 100 serialised bytes |
| Packet.Validate | src/koe_packet.c:85-100 | accepts exactly matching magic, compatible version and right checksum |
| Packet.RefusedHeader | src/koe_packet.c:85-100 | any other magic, version or checksum is refused, and setting the three right makes any header accepted |
| Packet.Deserialise | src/koe_packet.c:138-175 | equals the decoder function on every buffer, error returns included |
| Packet.HeaderRoundTrip | src/koe_packet.c:111-163 | every header is read back from its bytes |
| Packet.HeaderAtRoundTrip | src/koe_packet.c:143-163 | re-encoding a read header gives back the bytes it was read from |
| Packet.Layout | src/koe_packet.c:106-131 | every field of every header stands at its documented offset |
| Packet.LayoutConstants | src/koe_packet.c:106-131 | the magic, the byte order of the checksum and the payload cap in numbers |
| Packet.DecodeEncode | src/koe_packet.c:106-175 | decoding inverts encoding, whatever follows, exactly up to the 1 MiB cap |
| Packet.EncodeDecode | src/koe_packet.c:106-175 | encoding inverts decoding exactly on buffers without excess and with zero reserved bytes |
| Packet.ValiditySurvives | src/koe_packet.c:62-175 | a packet passes validation after the wire exactly when it passed before |
| Packet.BurstRefused | src/koe_packet.c:85-175 | any change within 32 consecutive bits of the first 100 bytes of a valid packet is refused by the decoder or by validation |
| Packet.FourBytesRefused | src/koe_packet.c:85-175 | in particular any change of at most four adjacent bytes |
| Fragmentation.Fragment | src/koe_packet.c:181-227 | the number of fragments (in size_t, narrowed to a byte), every fragment with its header and checksum, the error cases, and when an `mtu` of zero would trap |
| Fragmentation.BuildFragment | src/koe_packet.c:200-224 | one round of the splitting loop |
| Fragmentation.CountWithin | src/koe_packet.c:197-201 | every fragment the narrowed count admits starts inside the message |
| Fragmentation.SplitsExactly | src/koe_packet.c:186-198 | every payload that needs one to 255 fragments is split into that many; exactly when a split happens at all |
| Fragmentation.FragmentParts | src/koe_packet.c:203-220 | what the receiver reads out of a fragment: ID, index, total and data |
| Fragmentation.FragmentMarks | src/koe_packet.c:212-217 | every fragment is marked as one, the last and only the last as last, and the other flag bits are the packet's |
| Fragmentation.AllValidate | src/koe_packet.c:212-279 | all fragments and the reassembled packet pass validation whenever magic and version do |
| Fragmentation.WithinMtu | src/koe_packet.c:203-214 | a fragment's payload keeps to `mtu` exactly when the rest of the message leaves 18 bytes |
| Fragmentation.OverMtu | src/koe_packet.c:203-214 | 101 bytes split at 100 give a first fragment of 118 |
| Fragmentation.AnyOrder | src/koe_packet.c:181-281 | fragments once each in any order with strangers between: strangers refused, waiting until the last, and the result is the message exactly when at most 255 fragments were needed |
| Fragmentation.TooMany | src/koe_packet.c:197-281 | 257 bytes at an `mtu` of 1 give one fragment, which completes a message of one byte |
| Fragmentation.EveryPermutation | src/koe_packet.c:181-281 | the fragments alone in any permutation: n - 1 times waiting, then the packet that was split, unchanged if it was not itself a fragment and its checksum was right |
| Fragmentation.WholeIsPacket | src/koe_packet.c:181-281 | the reassembled packet is the one split: all fields but checksum and flags always, the flags exactly when it was not itself a fragment, everything exactly when its checksum was right too |
| Fragmentation.RepeatsLose | src/koe_packet.c:241-280 | n fragments in any order with repetitions: n - 1 times waiting, then a packet, which is the one split exactly when each index is among them |
| Fragmentation.StrangerFirst | src/koe_packet.c:241-247 | a fresh context bound to another message refuses the fragments |
| Fragmentation.OtherRefused | src/koe_packet.c:245-247 | a packet of another message is refused and changes nothing |
| Fragmentation.TagNeeded | src/koe_packet.c:233 | a fresh context takes exactly the packets that hold a tag, even without data; no context takes another |
| Fragmentation.FirstBinds | src/koe_packet.c:241-247 | the first fragment binds message and total, later ones change neither |
| Fragmentation.OversizeRefused | src/koe_packet.c:214-233 | a fragment whose length wraps in 32 bits is refused by every context |
| Fragmentation.ReplayFaults | src/koe_packet.c:229-281 | after a message fed in any order, which never faults, feeding any of its fragments again copies through a null pointer exactly when there are 2 to 254; one completes again, and at 255 the counter wraps and the call waits |
| Fragmentation.ReplayExample | src/koe_packet.c:229-281 | two fragments, then the first again |
| Fragmentation.Reassembly.Reassemble | src/koe_packet.c:229-281 | the in-place reassembler equals the value-level step (context, lengths, return code and packet) except exactly where, given the slots and lengths before the call, it would copy through a null pointer; never before a first completion |
| Fragmentation.Reassembly.Keep | src/koe_packet.c:233-256 | checking, binding and storing a fragment; of the lengths only that of its slot changes |
| Fragmentation.Reassembly.TotalLength | src/koe_packet.c:261-263 | the length loop computes the length of the joined slots, unless a freed slot left a length behind |
| Fragmentation.Reassembly.Collect | src/koe_packet.c:266-275 | the copying loop fills exactly that length with the slots in order and frees them, or meets such a slot |
| Fragmentation.Reassembly.Finish | src/koe_packet.c:265-278 | the completing fragment's header, unmarked, resized and rechecked |
| EventRing.Ring.Post | src/koe_event.c:82-99 | posting refines "keep the last 512 undelivered", across counter wrap-around, with the drop |
| EventRing.Ring.Take | src/koe_event.c:117-122 | one poll iteration takes the oldest waiting event |
| EventRing.Ring.Apply | src/koe_event.c:57-99 | what one callback call does to the ring and the callback table |
| EventRing.Ring.Iterate | src/koe_event.c:120-140 | a whole iteration: plugin filter, then every listener of the table as it stands at that moment, with callbacks that post, register and unregister |
| EventRing.Ring.Poll | src/koe_event.c:105-144 | a poll equals the poll function: state of ring and table, events taken, calls made, their count, and the ring is empty |
| EventRing.Counters | src/koe_event.c:86-97 | the distance of the 32-bit counters moves by one with each increment, through wrap-around |
| EventRing.AtDistinct | src/koe_event.c:95-121 | masked slots of waiting events are distinct |
| EventRing.RunConserves | src/koe_event.c:82-144 | after every run: the log holds the events posted, in order; at most 512 pending, the last posted; posted = dispatched + dropped + pending; a drop only behind 512 newer events |
| EventRing.DeliveredCount | src/koe_event.c:117-144 | as many events count as dispatched as were delivered |
| EventRing.LastKept | src/koe_event.c:82-99 | without a poll exactly the last 512 events posted wait, in order |
| EventRing.PollDrains | src/koe_event.c:105-144 | whatever callbacks post, register and unregister: after a poll everything posted before or during it was dispatched or dropped, and the events taken are the next ones in posting order |
| EventRing.PollCalls | src/koe_event.c:117-141 | callbacks that leave the table alone are each called once, in table order, for every event not suppressed |
| EventRing.Suppression | src/koe_event.c:124-138 | a plugin that suppresses a received message or an offer keeps it from every callback |
| EventRing.PluginReach | src/koe_event.c:124-138 | other events never reach the plugins; what a plugin makes of a message is what callbacks get |
| EventRing.RegisteredMeanwhile | src/koe_event.c:134-138 | a callback registered while an event is dispatched gets that event |
| EventRing.MissedExactly | src/koe_event.c:67-138 | when a running callback unregisters one, every other gets the event except exactly the last one pulled into a place already passed |
| EventRing.MissedExample | src/koe_event.c:67-138 | three callbacks, the first unregisters itself: the third misses the event |
| EventInterleaving.ProducerStep | src/koe_event.c:86-97 | every producer step (load, word copy, timestamp, publish) keeps the invariant |
| EventInterleaving.ConsumerStep | src/koe_event.c:117-141 | every consumer step keeps the invariant |
| EventInterleaving.Reachable | src/koe_event.c:86-141 | the invariant holds in every state of every interleaving |
| EventInterleaving.PostedAreGiven | src/koe_event.c:86-97 | in every state of every run the events posted are those the post actions were given, with their times, read off the actions alone |
| EventInterleaving.RoomExactly | src/koe_event.c:86-93 | a post finds room exactly while fewer than 512 events wait |
| EventInterleaving.PostAndPoll | src/koe_event.c:86-141 | a run that posts 7, 8 at time 99 and delivers 7, 99 |
| EventInterleaving.DeliversPrefix | src/koe_event.c:86-141 | delivered events are a prefix of those the posts were given, untorn, stamped and each once; a slot being written is never being copied |
| EventInterleaving.PollDrains | src/koe_event.c:117-141 | a poll that reads equal counters has delivered everything the posts published by then |
| Listeners.Table.Register | src/koe_event.c:57-65 | appends up to 32 callbacks |
| Listeners.TableFills | src/koe_event.c:57-65 | 32 callbacks fill the table; a new one goes last |
| Listeners.Table.Unregister | src/koe_event.c:67-76 | removes the first match, moving the last entry into its place |
| Listeners.OrderKept | src/koe_event.c:67-76 | the registration order survives exactly when the later entries are all the same |
| Listeners.OrderLost | src/koe_event.c:67-76 | three callbacks, the first removed: the third then runs before the second |
| Listeners.OthersSurvive | src/koe_event.c:67-76 | the other callbacks survive |
| Transport.Socket.ReadExact | src/koe_transport.c:39-48 | for every way recv splits the bytes: exactly the next n bytes, or an error |
| Transport.Socket.WriteExact | src/koe_transport.c:51-60 | for every way send splits the bytes: all of them, or an error after a prefix |
| Transport.SendPacket | src/koe_transport.c:344-362 | success exactly when the whole frame was sent, otherwise a prefix of it; a null payload goes out as the buffer's bytes |
| Transport.ReceivePacket | src/koe_transport.c:364-382 | equals the receive function on the stream, whatever the splits |
| Transport.FrameReceived | src/koe_transport.c:344-382 | a frame is received exactly when the payload is within the cap |
| Transport.FramePrefix | src/koe_transport.c:350-356 | the prefix of an empty packet's frame is 0, 0, 0, 106 |
| Transport.CutRefused | src/koe_transport.c:364-382 | a frame cut short anywhere is an error |
| Transport.SelfDelimiting | src/koe_transport.c:344-382 | after any packets and a cut-off frame, exactly those packets in order, then an error |
| Transport.SendAll | src/koe_transport.c:344-362 | a list of packets sent until one fails: that many whole frames and a proper beginning of the next |
| Transport.ReceiveUntilError | src/koe_transport.c:364-382 | receiving until the first error gives exactly the packets of the stream |
| Transport.Exchange | src/koe_transport.c:344-382 | for every splitting at both sockets and wherever the sender fails, exactly the packets reported as sent arrive, in order |
| WebSocket.WriteHeader | src/koe_transport.c:440-457 | the header bytes of all three length forms |
| WebSocket.Send | src/koe_transport.c:433-463 | a frame on the wire; write errors are not reported, and then a beginning of the header is followed by a beginning of the payload |
| WebSocket.ReadLength | src/koe_transport.c:471-484 | the announced length in any of the three forms |
| WebSocket.Unmask | src/koe_transport.c:497-500 | the in-place loop unmasks |
| WebSocket.ReceivePacket | src/koe_transport.c:465-505 | equals the receive function on the stream, whatever the splits |
| WebSocket.ReadPayload | src/koe_transport.c:486-504 | mask key, cap, payload and decoding |
| WebSocket.LengthRoundTrip | src/koe_transport.c:444-484 | every length is read back from the form it was written in |
| WebSocket.ShortestForm | src/koe_transport.c:444-457 | no header announcing the same length is shorter (section 5.2 of RFC 6455) |
| WebSocket.HeaderForms | src/koe_transport.c:440-457 | the headers for 106, 256 and 65536 bytes |
| WebSocket.MaskTwice | src/koe_transport.c:497-500 | masking twice under the same key is the identity (section 5.3 of RFC 6455) |
| WebSocket.MaskedHello | src/koe_transport.c:497-500 | the masked "Hello" of section 5.7 of RFC 6455 |
| WebSocket.FrameReceived | src/koe_transport.c:433-505 | a frame round-trips, unmasked or under any key, exactly when within the cap |
| WebSocket.OverCapRefused | src/koe_transport.c:486-490 | a frame that announces more than a header and a mebibyte is refused, whatever it holds |
| WebSocket.CutRefused | src/koe_transport.c:465-505 | a frame cut short anywhere is an error |
| WebSocket.SelfDelimiting | src/koe_transport.c:433-505 | after any frames and a cut-off one, exactly those packets in order, then an error |
| WebSocket.SendAll | src/koe_transport.c:433-463 | over a socket without errors a list of packets becomes their frames |
| WebSocket.ReceiveUntilError | src/koe_transport.c:465-505 | receiving until the first error gives exactly the packets of the stream |
| WebSocket.Exchange | src/koe_transport.c:433-505 | over sockets without errors exactly the packets sent arrive, in order, for every splitting |
| Crypto.DeriveMirrors | src/koe_crypto.c:165-210 | the two ends derive the same keys with directions crossed, or both fail |
| Crypto.KeysExpose | src/koe_crypto.c:165-210 | the hash is over secret, initiator and responder in this order: lawful suites whose hash shows its input give keys that show all three, crossed at the two ends |
| Handshake.HelloParts | src/koe_handshake.c:20-39 | what the peer reads out of a hello, its addresses and type, and that its signature verifies |
| Handshake.HelloOnWire | src/koe_handshake.c:34-39 | the first twelve header bytes, addresses, and that both messages pass validation |
| Handshake.SignatureNeeded | src/koe_handshake.c:45-114 | neither end accepts anything without a signature of its first 66 bytes under the identity it names, and a compatible version |
| Handshake.FailureKeeps | src/koe_handshake.c:93-114 | a failed finalisation leaves everything as it was except that the version is already the negotiated one |
| Handshake.RefusalLeaves | src/koe_handshake.c:45-91 | what a refused hello leaves: no keys, and version, peer and secret as far as the checks came |
| Handshake.ExchangeAgrees | src/koe_handshake.c:11-114 | a responder accepts a genuine hello exactly when versions are compatible and the key exchange yields a secret; then the initiator completes and both agree |
| Handshake.StepKeeps | src/koe_handshake.c:11-114 | every step of any context keeps the run invariant |
| Handshake.RunKeeps | src/koe_handshake.c:11-114 | the invariant holds in every state of every run |
| Handshake.MatchedAgree | src/koe_handshake.c:11-114 | in every run of concurrent handshakes, matched contexts have crossed keys, one version and erased secrets |
| Handshake.PeerMeant | src/koe_handshake.c:11-114 | in every run a matched initiator shares its keys with the identity in the answer, so with the peer it meant exactly when that identity is the one meant; the responder always names the initiator |
| Handshake.AnyoneAnswers | src/koe_handshake.c:93-114 | any genuine party with a compatible version that answers a hello completes it, whoever was meant |
| Handshake.WrongPeer | src/koe_handshake.c:93-114 | a run that ends with keys shared with a peer other than the one meant |
| Handshake.FreshKeys | src/koe_handshake.c:11-114 | a run in which the same two identities exchange twice and get different keys |
| Handshake.Live.Init | src/koe_handshake.c:11-43 | the context and hello built in place |
| Handshake.Live.Respond | src/koe_handshake.c:45-91 | the context and answer, with the state every error return leaves |
| Handshake.Live.Finalise | src/koe_handshake.c:93-114 | the context after finalising, error returns included |
| Handshake.Live.BuildHello | src/koe_handshake.c:20-39 | the 130-byte payload and the packet around it |
| Handshake.Live.DeriveSession | src/koe_crypto.c:165-210 | keys set and the ephemeral secret erased on success, nothing changed on failure |
| Message.Encrypt | src/koe_message.c:147-179 | the packet built field by field |
| Message.Inbound.Decrypt | src/koe_message.c:181-222 | the message updated on success, untouched on error, and exactly when a null payload would be read |
| Message.DecryptEncrypt | src/koe_message.c:147-222 | with crossed keys the body and addresses come back exactly when the length fits 32 bits |
| Message.OnlyAuthentic | src/koe_message.c:181-222 | a packet is decrypted exactly when it has the flag, the length of a tag and an authentic ciphertext under the receive key |
| Message.WireStart | src/koe_message.c:154-178 | the first eight header bytes of an encrypted message |
| Message.ChecksumUnset | src/koe_message.c:154-178 | validation accepts such a packet exactly when its header CRC happens to be zero |
| Message.NoncesNotBoth | src/koe_message.c:154-178 | of two nonces that differ only inside four adjacent bytes at most one gives a packet validation accepts |
| Message.OneNonceAccepted | src/koe_message.c:154-178 | for every message and every first twenty nonce bytes, exactly one of the 2^32 endings gives a packet a compatible peer's validation accepts |
| Message.MatchedDeliver | src/koe_message.c:147-222 | in every run, messages between matched contexts are delivered in both directions |
| Media.OfferDescribes | src/koe_media.c:87-98 | an offer is made exactly up to 512 MiB, with the right chunk count, hash and recipient |
| Media.ChunkIs | src/koe_media.c:132-173 | the counted chunks partition the file, none empty, only the last marked last |
| Media.ChunkOnWire | src/koe_media.c:150-170 | the first eight header bytes with the last mark on the last chunk only, addresses, and that chunks pass validation |
| Media.ChunkMarks | src/koe_media.c:161-170 | all chunk packets of a file are marked as fragments, that of the last chunk alone as last |
| Media.ChunkOpens | src/koe_media.c:132-173 | the ciphertext opens to the chunk index in four bytes and the data |
| Media.OnlyAuthentic | src/koe_media.c:278-306 | a chunk is written exactly when its ciphertext is authentic and holds an index |
| Media.PiecesInOrder | src/koe_media.c:132-173 | chunks 0 to n-1 are the beginning of the file |
| Media.AnyArrival | src/koe_media.c:278-306 | chunks in any order and repetition are written in the order of arrival |
| Media.TransferCompletes | src/koe_media.c:81-317 | in order they rebuild the file, with the count of the offer, and finalise accepts |
| Media.RebuiltExactly | src/koe_media.c:278-317 | chunks in any order and repetition rebuild the file exactly when they have as many bytes and each lands on file bytes equal to its own; finalise accepts just then unless the hash collides |
| Media.RebuiltPieces | src/koe_media.c:278-306 | where sizes fit: exactly when every place gets bytes equal to its own chunk |
| Media.LastKeptFits | src/koe_media.c:132-173 | sizes fit in every order that keeps the last chunk last |
| Media.SwappedChunks | src/koe_media.c:278-306 | a file of three chunks, the first two swapped, is not rebuilt |
| Media.EarlyLast | src/koe_media.c:278-306 | a file of two chunks, the shorter last one first, is not rebuilt |
| Media.ChunkBuild | src/koe_media.c:132-173 | packet, return value and error case of a chunk, with unsigned remainder |
| Media.Receiver.ChunkReceive | src/koe_media.c:278-306 | the transfer after a chunk, error returns and short or failing writes included |
| Media.HashFile | src/koe_media.c:25-41 | hashing the file in pieces of 8 KiB gives the hash of the file, or an error when it does not open |
| EndToEnd.MessagesArrive | src/koe_transport.c:344-382 | between matched contexts, a stream of encrypted packets cut off anywhere yields exactly the complete messages, in order |
| EndToEnd.FileArrives | src/koe_media.c:81-317 | between matched contexts, the framed and encrypted chunks of a file, followed by any incomplete frame, rebuild it and are accepted, in either direction |
| OfflineQueue.Queue.TakeRow | src/koe_db.c:349-382 | some row of the peer with the least sequence leaves |
| OfflineQueue.Queue.Count | src/koe_db.c:384-395 | the scan counts the peer's rows |
| OfflineQueue.Queue.Push | src/koe_queue.c:21-47 | evicts an oldest row at the limit, inserts the serialised packet (a null payload as the buffer's bytes), returns its id |
| OfflineQueue.Queue.Pop | src/koe_queue.c:49-58 | an oldest row leaves and is decoded |
| OfflineQueue.Queue.Drain | src/koe_queue.c:65-77 | the peer's oldest rows are offered in turn; all leave, the failed one too; nothing is left unless a send or a row failed; other peers' rows stay as they were |
| OfflineQueue.Queue.Expire | src/koe_queue.c:79-82 | exactly the rows due at or before that time leave, and their number is returned |
| OfflineQueue.StepKeeps | src/koe_queue.c:21-82 | every operation keeps the history invariant |
| OfflineQueue.EveryRun | src/koe_queue.c:21-82 | after every run: bounded depths; rows at the start + pushes = pops + evictions + expiries + rows left; every pop of a row pushed in the run returns the packet of that push; with a clock that does not go back, per-peer queue-time order |
| OfflineQueue.RunReturns | src/koe_queue.c:21-77 | every pop of a run returns what was pushed into its row, exactly up to the payload cap |
| OfflineQueue.RunPackets | src/koe_queue.c:21-47 | the k-th push of a run is in the k-th new row at its end |
| OfflineQueue.RunRows | src/koe_queue.c:21-47 | the row of the k-th push: recipient, bytes, queued and ordered by the time of the push, due 604800 seconds later |
| OfflineQueue.ExpiryExact | src/koe_db.c:397-408 | an expiry keeps exactly the rows due later, unchanged |
| OfflineQueue.WeekLong | src/koe_queue.c:21-82 | over runs: a packet is timed out only by an expiry at least a week after its push, and is gone after every such expiry |
| OfflineQueue.Conserved | src/koe_db.c:330-408 | the conservation law |
| OfflineQueue.PopReturns | src/koe_queue.c:49-58 | a row gives back the packet pushed into it, exactly up to the payload cap |
| OfflineQueue.OthersUntouched | src/koe_queue.c:21-77 | any run of pushes, pops and drains for other peers leaves a peer's rows alone |
| SessionTable.Sessions.Add | src/koe_session.c:9-27 | the first free slot is taken; succeeds exactly below 256 sessions |
| SessionTable.Sessions.Find | src/koe_session.c:29-41 | the peer's first session, refreshed |
| SessionTable.Sessions.Remove | src/koe_session.c:43-56 | the peer's first slot is zeroed |
| SessionTable.Sessions.Cleanup | src/koe_session.c:58-70 | exactly the stale slots are zeroed and the count follows |
| SessionTable.FreeSlotExists | src/koe_session.c:13-25 | the pigeonhole: a slot is free exactly when fewer are active than there are |
| SessionTable.StepOk | src/koe_session.c:9-70 | every operation keeps the count equal to the active slots; an add changes the table exactly below 256 |
| SessionTable.RunOk | src/koe_session.c:9-70 | the count is right in every reachable table |
| SessionTable.RunErases | src/koe_session.c:9-70 | in every reachable table the slots not in use are zeroed, keys included |
| SessionTable.StaysFindable | src/koe_session.c:9-70 | a peer used at some time stays findable through every run that does not remove it, up to the cleanup age |
| SessionTable.FindRefreshes | src/koe_session.c:29-41 | finding a peer renews its time |
| SessionTable.CleanupKeeps | src/koe_session.c:58-70 | a cleanup keeps a peer exactly when one of its entries is young enough |
| SessionTable.RunRefines | src/koe_session.c:9-70 | when only absent peers are added, every run agrees with a map |
| SessionTable.AddedIsFound | src/koe_session.c:9-41 | exactly when an added session is the one found |
| SessionTable.RemovedIsGone | src/koe_session.c:29-56 | exactly when a removed peer is gone |
| SessionTable.AddedTwice | src/koe_session.c:9-56 | the example of a peer added twice |
| Presence.PresenceTable.Update | src/koe_presence.c:13-34 | an existing entry is refreshed, a new one takes the next slot, a full table ignores it |
| Presence.PresenceTable.Get | src/koe_presence.c:36-50 | the state, or offline when unknown or too old |
| Presence.PresenceTable.Expire | src/koe_presence.c:58-72 | the swap-removal loop leaves exactly the entries not older than 90 s and returns how many left |
| Presence.PresenceTable.HandleTyping | src/koe_presence.c:114-125 | a known peer is marked as typing now, an unknown one is ignored |
| Presence.FollowsHeader | src/koe_presence.c:42-46 | exactly when the answer is the documented one |
| Presence.BluetoothOutlives | src/koe_presence.c:42-46 | a Bluetooth peer seen at 0 is online at 50, when the documented rule has it offline |
| Presence.UpdatedOk | src/koe_presence.c:13-34 | keys stay unique, other peers keep their entries, the peer is recorded exactly when known or not full |
| Presence.TypedOk | src/koe_presence.c:114-125 | a typing packet changes only its sender's typing fields and keeps keys unique |
| Presence.TypingLasts | src/koe_presence.c:74-78 | a peer that typed is shown so for exactly five seconds |
| Presence.SweptExact | src/koe_presence.c:58-72 | the loop removes exactly the stale entries and keeps keys unique |
| Presence.SweptMembers | src/koe_presence.c:58-72 | exactly the entries seen within the last 90 seconds stay |
| Presence.ExpiryUnobservable | src/koe_presence.c:36-72 | at the same or any later instant every answer is as without the expiry |
| Presence.ExpiryObservableEarlier | src/koe_presence.c:36-72 | an earlier instant can tell, by example |
| Presence.RunOk | src/koe_presence.c:13-125 | keys are unique in every reachable table |
| Presence.RunUnobservable | src/koe_presence.c:13-125 | over whole runs that never overfill the table, expiries change no answer |
| Presence.NewPeerTyping | src/koe_presence.c:26-33 | a newly recorded peer keeps the typing fields left in its slot, so it is not typing exactly when that mark is clear |
| Presence.TypingInherited | src/koe_presence.c:13-125 | A is seen and types, expiry removes A, B is seen: B is shown as typing |
| Presence.NotInherited | src/koe_presence.c:13-125 | runs without typing packets or without expiries record no new peer as typing |
| Backup.Archive.Append | src/koe_backup.c:25-37 | appends, growing as the code does, and loses no byte |
| Backup.Archive.AddFile | src/koe_backup.c:40-66 | appends the record of a file, or nothing for one that does not open or is above 64 MiB; a short read is an error |
| Backup.ReadExactly | src/koe_backup.c:42-55 | a file is read exactly when it opens, has 0 to 64 MiB by its size and delivers that many bytes |
| Backup.Import | src/koe_backup.c:185-219 | the extraction loop equals the extraction function on every buffer, and says where it would read past the end |
| Backup.BeyondExactly | src/koe_backup.c:187-218 | the loop reads past the end exactly when the complete records are followed by a rest of more than six bytes that holds the announced path but not the next length |
| Backup.LeftExactly | src/koe_backup.c:187-218 | how many bytes are left when the loop stops, on every buffer |
| Backup.BeyondExample | src/koe_backup.c:187-218 | seven bytes that announce a path of four |
| Backup.FirstRecord | src/koe_backup.c:187-218 | a record at the front is read back |
| Backup.RecordExample | src/koe_backup.c:40-66 | the record of the file a holding bc, byte by byte |
| Backup.RecordLimits | src/koe_backup.c:40-66 | files up to exactly 64 MiB are archived; paths are cut to their length modulo 65536 |
| Backup.ExtractArchive | src/koe_backup.c:39-219 | extraction recovers all archived files in order and stops at the end, leaving six bytes exactly when the last archived file has neither path nor data |
| Backup.RoundTrip | src/koe_backup.c:39-219 | extraction undoes archiving exactly for paths up to 511 bytes without NUL and data up to 64 MiB |
| ShortId.Compute | src/koe_crypto.c:126-150 | the loops compute the 15-character short ID |
| ShortId.FillDigits | src/koe_crypto.c:132-140 | the digit loop never runs out of room: four places stay free |
| ShortId.DecodesToHead | src/koe_crypto.c:126-150 | the short ID decodes to the first eight key bytes |
| ShortId.ShortIdExample | src/koe_crypto.c:126-150 | the short ID of a key whose first eight bytes count 58 |
| ShortId.SharedExactly | src/koe_crypto.c:126-150 | two keys share a short ID exactly when their first eight bytes agree |

## Left out

- EventInterleaving.ProducerStep: runs of the two-threaded ring in which a post finds it full are excluded: the producer then writes `head` too, and the full case is modelled for one thread in `EventRing`.
- EventInterleaving.Reachable: excludes the same runs.
- EventInterleaving.DeliversPrefix: excludes the same runs.
- EventInterleaving.PollDrains: excludes the same runs.
- Callbacks that post from the consumer thread in `EventInterleaving`: there only the producer posts; `EventRing` has them.
- EventRing.Ring.Poll: a callback that itself polls is excluded.
- EventRing.Ring.Iterate: excludes the same callbacks.
- Memory orderings weaker than the order of single accesses in `EventInterleaving`.
- The lazy initialisation flag of the event ring and the empty timer pumps: a ring starts initialised.
- Calls into plugins: the plugin registry is a pure function from event to event.
- The internals of libsodium and SQLite; forgery, secrecy and collision resistance are not stated.
- koe_handshake_start and koe_handshake_process in src/koe_core.c, which discard or re-finalise the handshake context.
- Finalising one initiator context twice: a context is finalised while its hello is outstanding.
- Failed allocations, SQL statement errors and random generator errors.
- OfflineQueue.Queue.Push: a packet above 2 GiB, whose length an `int` would truncate, is stored whole.
- Clocks that go back, for the queue order and for the ageing results of the session and presence tables over runs.
- Backup directory walking, path joining, encryption and file header; the host is taken to be little-endian.
- Media file names, MIME types, offer encryption, accept, reject and done packets, announcements.
- Building typing and presence packets, and the local presence state.
- Socket setup, discovery, connect and accept, and the WebSocket upgrade.
- Accounts, identities on disk, contacts, channels, ghost mode, revocation, the Matrix bridge, audio and the plugin host: file handling, simple lists and foreign calls that would add only easy members.
