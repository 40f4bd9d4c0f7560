# Verification of the trade broker

The repository lets a physical GBA and a Switch exchange one Pokémon each through a broker that holds a
placeholder record. Two parts decide whether a record can get lost, and both are modelled here.

**The framed link stack.** Host and firmware exchange `FGBR` frames (magic, version, type, flags, length,
transaction id, sequence, payload, CRC) over a byte stream that the host's serial transport cuts into pieces
of at most 64 bytes inside an outer `GB` packet layer. On top runs the event script of one GBA trade.
`Polynomial` and `Crc` hold the theory of the checksum of clause 3.2.9 of IEEE 802.3; `Protocol` and
`FrameTheory` the host's frames, decoder and replay window; `Serial` and `SerialTheory` the outer layer and
the composition of both; `FirmwareModel`, `Firmware` and `FirmwareTheory` the independent implementation of
the same format with its fixed buffer; `Divergence` where the two differ; `GbLink`, `ScriptTheory` and
`BridgeTheory` the two ends of the event script, and `TradeLoop` one trade around the whole loop. `Bytes` and
`Search` are shared groundwork, `Pokemon` is the 100-byte record.

**The escrow and its journal.** `Journal` is the transaction record with its transition rule; `Store` the
mutable record and the store that keeps it on disk; `World` everything outside the process; `Escrow` the
relation between what the journal says and who holds what; `Coordinator` the three-stage exchange itself,
with a failure or a kill possible at every effect; `EscrowTheory` what a reader of the journal may conclude
at any crash point of any run.

Objects that update themselves in the source are classes here, each method proved against a function of the
old state; the theorems are about those functions. Bytes are numbers below 256; checksum registers are
32-bit words; sequence numbers, lengths and counters carry their bounds explicitly.

## How runs are modelled

* A *tape* of reads stands for the serial port and the clock: every read brings any bytes, or none, or raises, or
  the deadline comes. `takes` and `accepts` say how much of each write the other side takes.
* `World.Environment` decides the fate of every effect from an arbitrary oracle: it completes, raises, or the
  process dies during it; a file replacement or a swap may take effect although the caller sees a failure.
  The moments that leave no trace (fault hooks, trade menu, closing) have their fate from an equally arbitrary
  function `fateAt`. What holds for all of these holds for every run. `past` is the list of worlds after each
  effect, so a property of every element of `past` holds at every crash point.
* `Escrow.Tale` says that every crash point is coherent and every step allowed. `TradeCoordinator.Execute`
  and `Restarts` keep it from start to end, and `EscrowTheory` draws the conclusions.
* Honesty of the endpoints is an assumption: a report that confirms the commit of the very record offered
  is only made after a real swap and names the record really received. The repository's mock endpoints are
  of this kind when they confirm. Everything else a report says is arbitrary.
* SHA-256 is a function parameter. Digest equality is all that is claimed of it.

## Findings

Where the code does not do what one would expect of it, the model follows the code; each finding comes with an
instance and with the exact condition under which the expectation is met.

* **The firmware cannot be greeted.** A codec starts with the all-zero transaction id and hands a frame to its
  callback only when the id matches; only the callback sets another id, and only to the id of a frame it was
  handed. So a HELLO from any host whose id is not all zeros is dropped, and the handshake described in the
  protocol documentation cannot start. `BridgeTheory.FirstHelloDropped` is the first case, whatever the HELLO carries,
  `NewBridgeServesZeroOnly` shows that no input changes it, and `HandedOverIff` is the exact condition for one frame.
* **One read can end a trade.** A wait drops the frames behind the wanted one in the same read. A read brings up to
  512 bytes, so it can hold the first two events, 105 bytes: then the trade fails, however well the rest arrives
  (`ScriptTheory.TwoEventsInOneRead`). The script returns a trade that arrives in time if and only if no read
  completes two of its frames (`ScriptTheory.ScriptCompletesIff`, `BridgeTheory.EventScriptComplete`,
  `TradeLoop.LoopCloses`). Each frame may come in any number of reads, as the 636-byte party event must
  (`ScriptTheory.CutExpected`).
* **The firmware's counter wraps.** Behind sequence 0xFFFF_FFFF its next event has sequence 0, which a host that saw
  the one before takes for a replay (`BridgeTheory.WrappedIsReplayed`); below that the numbers are consecutive
  (`BridgeTheory.TradeRunEvents`). The host refuses to count that far (`GbLink.GbLinkEndpoint.Send`).
* **A decoder exception loses the frames of the same call.** An intact frame that shares a read with a corrupted one
  is never handed over (`FrameTheory.LostWithTheError`). The callers get every decoded frame if and only if every
  call that raises does so before it has decoded one (`FrameTheory.HandedIff`).
* **Host and firmware part ways on damaged frames.** On a bad checksum, version or flag the host skips the whole
  declared frame, the firmware four bytes; on every other frame they skip the same (`Divergence.SameBytesIff`). They
  hand over the same frame if and only if it is intact, its code known and it is new for the active transaction
  (`Divergence.SameDeliveryIff`); `UnknownCommand` is an instance. After a burst outside magic and length the host
  drops the frame, and the firmware does exactly what the bytes from the next magic on make it do
  (`Divergence.BurstOnward`): nothing when there is none (`BurstSilent`), but when an encoded command of the active
  transaction stands there it acts on it, wherever in the frame it lies (`PhantomCommand`). `PhantomInOffer` is a
  host's own offer whose record starts with such a command and whose trailer arrives damaged.
* **The receive buffer can overflow on a clean stream.** A chunk that does not fit makes the firmware drop its whole
  buffer. No cut of a clean stream into pieces of at most `m` bytes, spanning frames or not, overflows if and only
  if every frame leaves room: its payload and the longest piece that can contain its last
  byte (`m` bytes, or all that is left of the stream) are at most 4097 bytes together (`Divergence.RoomyIff`).
  Payloads of at most 4097 - `m` bytes, 4033 for pieces of 64, always do (`SmallIsRoomy`), and then the firmware
  hands over what the host accepts (`SpanningAgreement`). Without the room a frame can be lost (`OverflowLoses`).
* **A frame can hide behind a header.** A waiting firmware may hold a complete frame, but only behind a header that
  declares a longer one which has not arrived (`Divergence.WaitingBuries`, `BuriedFrame`).
* **A failing last write is not marked for recovery.** A failed journal write leaves the record in memory ahead of
  the one on disk. A run that fails ends marked in memory if and only if it had not got as far as COMPLETE, and the
  mark is on disk if and only if, besides, its write took effect; when the write of COMPLETE itself fails, the disk
  keeps COMPLETE or the state before it and no mark (`Coordinator.TradeCoordinator.Finish`, `Execute`). Such a run
  is `Coordinator.LastWriteFails`. What the disk says stays true in every case.
* The protocol documentation promises a cached answer to duplicate commands; the code drops them
  (`BridgeTheory.HandedOverIff`).

## Model

| member | source | states |
|---|---|---|
| `Polynomial.RemainderUnique` | firmware/gb-link/broker_protocol.cpp:33-43 | a polynomial has at most one remainder modulo the generator, so the definition of clause 3.2.9 determines the checksum |
| `Polynomial.DivideIsRemainder` | firmware/gb-link/broker_protocol.cpp:36-41 | the bit-serial register holds the remainder of the message times x^32 with its first 32 bits complemented, and nothing else is one |
| `Polynomial.StepInjective` | firmware/gb-link/broker_protocol.cpp:38-39 | one register step never merges two registers |
| `Polynomial.BurstChangesRegister` | firmware/gb-link/broker_protocol.cpp:33-43 | any change confined to 32 consecutive bits, anywhere in a message of any length, changes the register |
| `Polynomial.ResidueIffComplement` | firmware/gb-link/broker_protocol.cpp:42 | a trailer that is the complemented register leaves one constant residue, and no other trailer does |
| `Crc.ComputeCrc32` | firmware/gb-link/broker_protocol.cpp:33-43 | the nested bit loops compute the register function octet by octet, complemented at the end |
| `Crc.RegisterConcat` | firmware/gb-link/broker_protocol.cpp:33-43 | the register after a concatenation is the register after the second piece started from the register after the first |
| `Crc.RegisterIsDivide` | firmware/gb-link/broker_protocol.cpp:35-40 | the reflected octet loop with 0xEDB88320 is polynomial division of the message bits, least significant bit first |
| `Crc.CrcIsRemainder` | broker/gba/protocol.py:67 | for every byte string, a word is the checksum if and only if its complemented bits are the remainder that clause 3.2.9 of IEEE 802.3 defines |
| `Crc.TrailerBits` | broker/gba/protocol.py:67 | a checksum written little endian carries its bits in register order, so it continues the message |
| `Crc.ResidueIffTrailer` | broker/gba/protocol.py:103-106 | comparing the stored with the computed checksum is the same test as finding the constant residue over body and trailer |
| `Crc.BurstDetected` | broker/gba/protocol.py:99-109 | no burst of at most 32 bits over body and trailer, including one that straddles them, leaves a matching trailer |
| `Crc.FourBytesAreBurst` | broker/gba/protocol.py:99-109 | different bytes inside a window of four octets, wherever it lies, make a burst of at most 32 bits |
| `Protocol.DecodeAligned` | broker/gba/protocol.py:91-120 | the loop body from an aligned buffer on computes one round: wait, reject with the right error and remaining buffer, or deliver |
| `Protocol.FrameDecoder.Feed` | broker/gba/protocol.py:76-121 | the in-place loop returns all frames of the buffer or the first error, frames of that call lost, and leaves exactly the specified buffer |
| `Protocol.ReplayWindow.Accept` | broker/gba/protocol.py:130-136 | a frame is accepted exactly when no earlier accepted sequence of its transaction is as high; only then the window changes |
| `Protocol.AdmitsAllIff` | broker/gba/protocol.py:124-136 | the window accepts a whole list if and only if sequences strictly increase per transaction, above what it already knew |
| `FrameTheory.DeliverIff` | broker/gba/protocol.py:80-120 | the decoder delivers a frame if and only if the bytes from the first magic on are that frame's encoding, so decoding inverts encoding and nothing else is accepted |
| `FrameTheory.EncodeInjective` | broker/gba/protocol.py:56-67 | different frames have different encodings, and no encoding is a proper prefix of another |
| `FrameTheory.StampedVerdict` | broker/gba/protocol.py:99-120 | on every frame with a right checksum, whatever its version, flags and code: rejected for the first of these that is wrong, all of it consumed, and delivered with its fields if none is |
| `FrameTheory.OversizeVerdict` | broker/gba/protocol.py:96-98 | a declared payload above 4096 bytes is rejected at once and only the magic is consumed |
| `FrameTheory.RoundExtend` | broker/gba/protocol.py:79-120 | a round that acts decides the same when more bytes have already arrived |
| `FrameTheory.WaitDrops` | broker/gba/protocol.py:81-92 | what a waiting round discards could never have been part of a later frame |
| `FrameTheory.FeedConserves` | broker/gba/protocol.py:76-121 | one feed decodes events off the pending stream in order, whether it raises or not: what it decodes, followed by what is left, is what was there |
| `FrameTheory.ChunkIndependence` | broker/gba/protocol.py:76-121 | for every stream and every cutting, raising feeds included, the events decoded followed by those still buffered are those of the whole stream |
| `FrameTheory.ChunkIndependenceQuiet` | broker/gba/protocol.py:76-121 | when no feed raises, the frames and the leftover buffer equal those of one feed of the whole stream, and the leftover is shorter than a maximal frame |
| `FrameTheory.HandedIff` | broker/gba/protocol.py:78-121 | the callers of any feeds get every frame that was decoded if and only if every feed that raises does so before it has decoded one, otherwise fewer |
| `FrameTheory.LostWithTheError` | broker/gba/protocol.py:106-117 | an intact and a corrupted frame in one read: the decoder raises and the intact frame is never handed over, while in two reads it is |
| `FrameTheory.CleanStream` | broker/gba/protocol.py:56-121 | the encodings of any frames decode to exactly these frames and leave nothing |
| `FrameTheory.NoiseTolerance` | broker/gba/protocol.py:80-90 | magic-free noise before, between and after frames, whose payloads may contain the magic, never hides, adds or alters a frame |
| `FrameTheory.NoiseToleranceInReads` | broker/gba/protocol.py:76-121 | the same for every cutting of the noisy stream into reads; at most a marker prefix stays buffered |
| `FrameTheory.BurstRejected` | broker/gba/protocol.py:99-109 | a valid frame corrupted by a burst of at most 32 bits outside magic and length is rejected with a checksum error and delivers nothing, whatever follows it |
| `FrameTheory.FourBytesRejected` | broker/gba/protocol.py:99-109 | any nonzero change inside four consecutive bytes of version, type and flags or from the transaction id to the end, trailer included, is rejected and delivers nothing |
| `Search.FindAfterNoise` | broker/gba/protocol.py:80-90 | a borderless marker is found right after noise that does not contain it; no occurrence straddles the seam |
| `Serial.SplitFlattens` | broker/gba/serial.py:66-67 | the pieces of a write concatenate to what was written |
| `Serial.SplitFull` | broker/gba/serial.py:66-67 | every piece but the last has 64 bytes, and the last has the rest |
| `Serial.SerialTransport.WriteOuter` | broker/gba/serial.py:74-83 | a packet is refused above 64 bytes, and a short device write raises after its prefix went out |
| `Serial.SerialTransport.Write` | broker/gba/serial.py:63-67 | success means the wire grew by all pieces in order, each in its packet; failure that it grew by a prefix of that |
| `Serial.SerialTransport.NextPacket` | broker/gba/serial.py:88-107 | one turn of the loop deletes from the buffer in place exactly what the specified round consumes |
| `Serial.SerialTransport.FeedOuter` | broker/gba/serial.py:85-111 | the in-place loop appends exactly the data payloads, leaves the specified buffer, and raises on the first bad length or unknown channel |
| `Serial.SerialTransport.Take` | broker/gba/serial.py:59-61 | a read takes a prefix of the data buffer and leaves the rest |
| `SerialTheory.ArrivalConserves` | broker/gba/serial.py:85-111 | one arrival moves payload bytes from the pending wire to the data buffer, in order, errors included |
| `SerialTheory.PipelineConserves` | broker/gba/serial.py:46-61 | for any bytes and any schedule of arrivals and reads, errors included, no event is lost, duplicated or reordered between wire and decoder |
| `SerialTheory.FaultsOfRun` | broker/gba/serial.py:101-111 | the number of raising arrivals plus the errors still in flight is fixed by the wire alone, not by how it is cut |
| `SerialTheory.WireDecodes` | broker/gba/serial.py:85-111 | well-formed packets of the three channels decode to the concatenated data payloads, with no error and nothing left |
| `SerialTheory.BehindDamagedHeader` | broker/gba/serial.py:101-104 | when a header is damaged, only its sync mark is lost: a packet behind any noise without a mark is decoded by the next arrival |
| `SerialTheory.DoubledMark` | broker/gba/serial.py:101-104 | a lone sync mark before a packet raises, and the packet itself is still decoded |
| `SerialTheory.UnknownChannelRaises` | broker/gba/serial.py:107-111 | a packet of an unknown channel raises, and the loop goes on right behind it |
| `SerialTheory.ThreeLayers` | broker/gba/serial.py:46-111 | frames encoded, cut, wrapped and interleaved with command and status packets are handed over in order: at every moment a prefix, at the end all of them, no layer ever raising |
| `SerialTheory.PiecesWire` | broker/gba/serial.py:63-67 | what `write` puts on the wire is a well-formed packet list whose data payloads are the written bytes |
| `SerialTheory.WriteReadRoundTrip` | broker/gba/serial.py:46-111 | what is written frame by frame is what the reader is handed, for any other packets between the pieces and any cutting on arrival and by the reads |
| `Firmware.CopyInto` | firmware/gb-link/broker_protocol.cpp:59 | copying into the fixed buffer changes exactly the addressed range |
| `Firmware.Codec.constructor` | firmware/gb-link/broker_protocol.cpp:45-46 | a new codec has an empty buffer, the all-zero transaction id and zero counters |
| `Firmware.Codec.SetTransaction` | firmware/gb-link/broker_protocol.cpp:48-52 | a new id resets both counters and opens a new epoch; buffer and earlier deliveries stay |
| `Firmware.Codec.DiscardPrefix` | firmware/gb-link/broker_protocol.cpp:129-132 | the shift within the buffer keeps exactly the bytes behind the prefix |
| `Firmware.Codec.Inspect` | firmware/gb-link/broker_protocol.cpp:65-91 | one look at the buffer decides between waiting, skipping one or four bytes, dropping a stale frame and accepting |
| `Firmware.Codec.Consume` | firmware/gb-link/broker_protocol.cpp:64-103 | the loop ends, stays within the buffer, and does to receiver and callback object exactly what the turns specify, also when the callback resets the transaction |
| `Firmware.Codec.Feed` | firmware/gb-link/broker_protocol.cpp:54-62 | a chunk that fits is appended and consumed; one that does not makes the whole buffer and the chunk vanish |
| `Firmware.Codec.SendPieces` | firmware/gb-link/broker_protocol.cpp:117-122 | the transport is offered the pieces of 64 bytes in order up to its first refusal |
| `Firmware.Codec.Send` | firmware/gb-link/broker_protocol.cpp:105-123 | an oversized payload changes nothing; otherwise the counter advances and the framed bytes are offered piece by piece |
| `FirmwareModel.Consume` | firmware/gb-link/broker_protocol.cpp:64-103 | what remains is shorter than a maximal frame and no complete frame stands at its head |
| `FirmwareTheory.AcceptSound` | firmware/gb-link/broker_protocol.cpp:65-99 | an accepted frame is the valid encoding at the head of the buffer, for the active transaction, and newer than the last |
| `FirmwareTheory.FirmwareChunkIndependence` | firmware/gb-link/broker_protocol.cpp:54-103 | without an overflow the firmware parser ends in the same state for every cutting of its input |
| `FirmwareTheory.FirmwareSound` | firmware/gb-link/broker_protocol.cpp:48-103 | over any feeds and resets the input is exactly the logged segments followed by the buffer; deliveries are disjoint, in order, valid encodings with strictly increasing sequence within an epoch |
| `FirmwareTheory.FrameInPieces` | firmware/gb-link/broker_protocol.cpp:54-103 | a frame of the active transaction arriving in any pieces is delivered once its last byte has arrived, without an overflow |
| `FirmwareTheory.FramePartly` | firmware/gb-link/broker_protocol.cpp:54-79 | before its last byte has arrived, in whatever pieces, a frame only waits in the buffer and nothing is delivered |
| `FirmwareTheory.FirmwareDelivers` | firmware/gb-link/broker_protocol.cpp:54-103 | new commands of the active transaction, no piece spanning two, are all delivered in order without an overflow |
| `FirmwareTheory.HostFirmwareAgreement` | firmware/gb-link/broker_protocol.cpp:54-103 | on such pieces the firmware delivers exactly the frames that the host's decoder and replay window accept, and both buffers end empty |
| `Divergence.SameBytesIff` | firmware/gb-link/broker_protocol.cpp:70-84 | on a frame that has arrived, host and firmware drop the same bytes if and only if it declares too much or nothing is wrong with it; otherwise all of it against four bytes |
| `Divergence.SameDeliveryIff` | firmware/gb-link/broker_protocol.cpp:74-101 | both hand it over if and only if it is intact, of known code and new for the active transaction, and then the same frame; one alone does if and only if it is intact and exactly one of the extra conditions holds |
| `Divergence.UnknownCommand` | firmware/gb-link/broker_protocol.cpp:93-100 | the firmware accepts a command whose code the host rejects |
| `Divergence.BurstOnward` | firmware/gb-link/broker_protocol.cpp:65-84 | after a frame corrupted by a burst outside magic and length, whatever follows, the firmware behaves exactly as on the bytes from the next magic on, with nothing handed over before; without a further magic it hands nothing over |
| `Divergence.BurstSilent` | firmware/gb-link/broker_protocol.cpp:80-84 | in particular such a frame alone, without a magic behind its head, hands nothing over |
| `Divergence.PhantomCommand` | firmware/gb-link/broker_protocol.cpp:80-84 | a frame corrupted by such a burst in which the next magic starts an encoded new command of the active transaction: the host drops all of it with a checksum error, the firmware hands over that command |
| `Divergence.PhantomInOffer` | firmware/gb-link/broker_protocol.cpp:80-84 | a host's own offer of the active transaction, with an encoded command at the start of its record and any wrong trailer, is such a frame |
| `Divergence.WaitingBuries` | firmware/gb-link/broker_protocol.cpp:70-79 | while the firmware waits, a complete frame can only sit behind a header that declares a longer one not yet there |
| `Divergence.BuriedFrame` | firmware/gb-link/broker_protocol.cpp:70-79 | a frame that carries another one, all but its end arrived, makes the firmware wait with the inner one complete |
| `Divergence.CleanFits` | firmware/gb-link/broker_protocol.cpp:54-62 | on a clean stream, also with a frame under way, pieces of bounded size, spanning frames or not, never overflow when every frame leaves room for the longest piece that can follow there |
| `Divergence.RoomyIff` | firmware/gb-link/broker_protocol.cpp:54-62 | no cut of a clean stream into pieces of bounded size overflows if and only if every payload, with the longest piece that can contain the frame's last byte, stays within 4097 bytes |
| `Divergence.SmallIsRoomy` | firmware/gb-link/broker_protocol.cpp:54-62 | payloads of at most 4097 bytes less the piece size always leave room |
| `Divergence.OverflowLoses` | firmware/gb-link/broker_protocol.cpp:54-58 | a payload above that bound is lost when the frame's last byte arrives in a full piece together with the head of what follows |
| `Divergence.SpanningAgreement` | firmware/gb-link/broker_protocol.cpp:54-103 | for new commands of the active transaction in any pieces that leave room, spanning frames or not, the firmware delivers exactly the frames that the host's decoder and replay window accept, and both buffers end empty |
| `Firmware.TradeBridge.Handle` | firmware/gb-link/broker_trade_bridge.cpp:40-68 | each command has exactly its answer and its effect on offer and transaction, malformed offers error 1, aborts error 2, anything else error 3 |
| `Firmware.TradeBridge.ReceiveData` | firmware/gb-link/broker_trade_bridge.cpp:28-30 | one arrival of bytes does to codec and bridge what feeding and answering each delivered frame specifies |
| `Firmware.TradeBridge.SessionStarted` | firmware/gb-link/broker_trade_bridge.cpp:70-72 | the session event is sent as a frame of its own |
| `Firmware.TradeBridge.PartnerPartyReady` | firmware/gb-link/broker_trade_bridge.cpp:74-76 | the 600 party bytes are sent as one frame |
| `Firmware.TradeBridge.Select` | firmware/gb-link/broker_trade_bridge.cpp:78-92 | without an offer or with a slot above 5 error 4 is sent; otherwise slot and party slice are remembered and sent, and the own slot is returned |
| `Firmware.TradeBridge.Committed` | firmware/gb-link/broker_trade_bridge.cpp:94-101 | the commit event carries the digests of the remembered offer and selection, in this order |
| `Firmware.TradeBridge.LinkClosed` | firmware/gb-link/broker_trade_bridge.cpp:103-106 | the closing event carries the success byte |
| `Firmware.TradeBridge.SendError` | firmware/gb-link/broker_trade_bridge.cpp:108-112 | an error code is sent as two little-endian bytes |
| `BridgeTheory.SenderAgreement` | firmware/gb-link/broker_protocol.cpp:105-123 | the firmware sends the host's own encoding of the same fields in pieces of 1 to 64 bytes, all of them exactly when it reports success, and the host decoder returns the frame |
| `BridgeTheory.OversizedSendsNothing` | firmware/gb-link/broker_protocol.cpp:105-106 | a send changes nothing at all and fails if and only if its payload is above 4096 bytes |
| `BridgeTheory.HandedOverIff` | firmware/gb-link/broker_protocol.cpp:86-101 | one arriving frame is handed over if and only if it is of the active transaction and newer than the last |
| `BridgeTheory.HelloOpens` | firmware/gb-link/broker_protocol.cpp:48-52 | a HELLO resets the count after its own sequence was noted: the next command of its transaction is handed over from sequence 1 on, in the same arrival too |
| `BridgeTheory.WrappedIsReplayed` | firmware/gb-link/broker_protocol.cpp:105-123 | the event behind sequence 0xFFFF_FFFF has sequence 0 and ends the host's wait as a replay |
| `BridgeTheory.HelloAnswered` | firmware/gb-link/broker_trade_bridge.cpp:41-45 | a HELLO is answered by exactly one HELLO frame of its own transaction with sequence 1, and nothing else of the bridge changes |
| `BridgeTheory.CapabilitiesAnswered` | firmware/gb-link/broker_trade_bridge.cpp:46-50 | the capabilities are one frame with the six lowest bits of a 32-bit mask |
| `BridgeTheory.OfferAnswered` | firmware/gb-link/broker_trade_bridge.cpp:51-62 | a well-formed offer is remembered and answered by exactly the frame with its slot and digest |
| `BridgeTheory.RefusalAnswered` | firmware/gb-link/broker_trade_bridge.cpp:52-67 | a malformed offer, an abort and any other command are answered by exactly one ERROR frame, codes 1, 2 and 3, and change nothing but the counter |
| `BridgeTheory.SelectRefused` | firmware/gb-link/broker_trade_bridge.cpp:79-82 | a selection without an accepted offer or with a slot above 5 sends exactly one ERROR frame with code 4 and changes nothing but the counter |
| `BridgeTheory.SelectSends` | firmware/gb-link/broker_trade_bridge.cpp:83-91 | any other selection is remembered and sends exactly the slot and the party's record at it, as two consecutive frames |
| `BridgeTheory.ServesOneTransaction` | firmware/gb-link/broker_protocol.cpp:86-91 | under a callback that only sets the id a frame already carries, a codec serves one transaction for ever |
| `BridgeTheory.NewBridgeServesZeroOnly` | firmware/gb-link/broker_trade_bridge.cpp:41-42 | from its initial state and for any input, the bridge never takes up a transaction other than the all-zero one |
| `BridgeTheory.FirstHelloDropped` | firmware/gb-link/broker_trade_bridge.cpp:41-45 | the first HELLO of a host with a non-zero id is dropped unseen, whatever its sequence and payload |
| `BridgeTheory.TradeRunSends` | firmware/gb-link/broker_trade_bridge.cpp:51-106 | the offer survives until the commit, whose digests are those of offer and selection; one trade emits one fixed list of messages |
| `BridgeTheory.TradeRunEvents` | firmware/gb-link/broker_trade_bridge.cpp:51-106 | with a willing transport one trade sends exactly the seven events of that trade, numbered consecutively |
| `BridgeTheory.EventScriptComplete` | broker/gba/gb_link.py:48-83 | for every offer, party and slot: if the bridge's bytes arrive in time, `trade_once` returns the offer, the party slice, a confirmed commit, the slot and a closed link if and only if it was connected, could send its mail-free offer, and no read completed two frames |
| `GbLink.GbLinkEndpoint.Send` | broker/gba/gb_link.py:96-98 | the counter advances in every case; a refused frame sends nothing, a failed write a part of the frame, success exactly the encoded frame |
| `GbLink.GbLinkEndpoint.ScanBatch` | broker/gba/gb_link.py:106-113 | frames of a batch are checked for transaction and replay in turn, up to the first wanted one, ERROR or violation, as specified |
| `GbLink.GbLinkEndpoint.WaitFor` | broker/gba/gb_link.py:100-115 | waiting over reads, quiet, raising or in time, decoder and replay window ends with the specified frame or error and the specified remaining state |
| `GbLink.GbLinkEndpoint.TradeOnce` | broker/gba/gb_link.py:48-83 | result and remaining state are those of refusals, offer and script in this order; refusals come before any byte is sent |
| `GbLink.GbLinkEndpoint.PlayScript` | broker/gba/gb_link.py:53-83 | the seven waits and checks run in order, each on the state the one before left |
| `ScriptTheory.ListenSound` | broker/gba/gb_link.py:100-115 | a frame that ends a wait was received as a contiguous encoding, of the active transaction, newer than all before |
| `ScriptTheory.ScriptSound` | broker/gba/gb_link.py:48-83 | for any bytes in any reads, a returned result proves that the seven events were received in order, disjoint, with increasing sequence; the record is the party's at the slot and both digests match |
| `ScriptTheory.FirstDecides` | broker/gba/gb_link.py:106-113 | for any frames in any reads, the first that is foreign, replayed, wanted or an ERROR decides the wait, with the error or frame that belongs to it, whatever follows; without one the wait goes on behind them |
| `ScriptTheory.DeviceError` | broker/gba/gb_link.py:112-113 | an ERROR event that nobody waits for ends the wait with what it carries |
| `ScriptTheory.NoneDecides` | broker/gba/gb_link.py:102-106 | when no frame decides a wait, the deadline ends it with a timeout, a raising read with its failure, and a read that cannot be decoded with the decoder's error |
| `ScriptTheory.CorruptedEndsWait` | broker/gba/gb_link.py:106 | a frame corrupted by a burst outside magic and length ends any wait with the checksum error |
| `ScriptTheory.NothingSkipped` | broker/gba/gb_link.py:106-113 | whatever the bytes, damaged ones included, no foreign, replayed or ERROR frame lies among the frames decoded before the one a wait returns |
| `ScriptTheory.ScriptStops` | broker/gba/gb_link.py:53-79 | the first event that is not as it must be decides how the trade fails: an ERROR with what it carries, an aborted or failed commit with its type, a contradicting offer, party, slot, record or digest with the error for just that |
| `ScriptTheory.ListenNext` | broker/gba/gb_link.py:100-115 | the next expected frame, one a read, ends the wait that wants it |
| `ScriptTheory.ListenUses` | broker/gba/gb_link.py:106-111 | a successful wait uses up at least one of the frames to come, and when it uses exactly one, none of its reads brought two |
| `ScriptTheory.ScriptCompletesIff` | broker/gba/gb_link.py:48-83 | when the seven events of one consistent trade arrive in time, the script returns, and returns that trade, if and only if no read completes two frames |
| `ScriptTheory.CutExpected` | broker/gba/gb_link.py:103-106 | frames that arrive each in any number of reads, no read spanning two, meet the condition under which the script completes |
| `ScriptTheory.BatchDropsLater` | broker/gba/gb_link.py:106-111 | the frames behind the wanted one in the same read leave no trace in buffer, replay window or result |
| `ScriptTheory.TwoEventsInOneRead` | broker/gba/gb_link.py:100-115 | a complete consistent trade whose first two events share a read, 105 bytes as the bridge sends them, fails, in whatever reads the rest arrives in time |
| `TradeLoop.OneTrade` | firmware/gb-link/broker_trade_bridge.cpp:28-106 | the bridge object, fed any chunks and then called back for one trade, ends in the specified state |
| `TradeLoop.OfferArrives` | broker/gba/gb_link.py:52-53 | the host's offer frame, in any pieces, reaches a bridge in the same transaction exactly once and starts the trade it announces |
| `TradeLoop.TapeBrings` | broker/gba/serial.py:46-61 | under any schedule of arrivals and reads, raising ones included, the reads bring the data bytes of the wire, each once and in order |
| `TradeLoop.WireHeard` | broker/gba/serial.py:46-111 | a well-formed wire, read to its end in time, brings exactly its data bytes and no exception |
| `TradeLoop.LoopCloses` | broker/gba/gb_link.py:48-83 | offer frame to the bridge in any pieces, one trade there with any party and slot, its bytes back in any well-formed packets, arrivals and reads in time: `trade_once` returns exactly that trade if and only if it was connected, could send its mail-free offer, and no read completed two frames |
| `TradeLoop.LoopReturns` | broker/gba/gb_link.py:48-83 | for every bridge in the host's transaction, offer without mail, party and slot there is a wire and a schedule on which the host returns that trade |
| `Pokemon.OrderIsArrangement` | broker/pokemon.py:20-25 | every row of the order table is a permutation of the four parts, at its place in one systematic order |
| `Pokemon.RowsDiffer` | broker/pokemon.py:20-25 | no two of the 24 rows are the same, so they are all permutations of four parts |
| `Pokemon.DecryptedSecure` | broker/pokemon.py:70-76 | the word loop over a copy of the block computes the specified decryption |
| `Pokemon.DecryptsBytes` | broker/pokemon.py:70-76 | for every record, byte `i` of the decrypted block is byte `32 + i` xored with byte `i % 4` of the personality and of the trainer id |
| `Pokemon.EveryRecordCarries` | broker/pokemon.py:70-93 | every 100 bytes carry four parts, so what is said of carried parts is said of every record |
| `Pokemon.XorWordsTwice` | broker/pokemon.py:73-75 | encryption and decryption are one operation that undoes itself |
| `Pokemon.PermutationSum` | broker/pokemon.py:78-86 | the 16-bit word sum of the laid-out parts does not depend on their order |
| `Pokemon.SecureBlockRoundTrip` | broker/pokemon.py:70-93 | for every personality, trainer id and parts: with encryption stated in bytes, decryption inverts it, the held item is the growth part's item field, items 121 to 132 are mail, and the checksum is the sum of the 24 words of the parts in every order |
| `Pokemon.CarriesUnique` | broker/pokemon.py:70-76 | a record carries at most one content |
| `Journal.AdvanceValid` | broker/journal.py:140-185 | an accepted transition of a valid record gives a valid record |
| `Journal.AdvanceExtends` | broker/journal.py:157-183 | an accepted transition only appends to the history and never replaces a known hash |
| `Journal.AcceptedIff` | broker/journal.py:151-168 | a transition is accepted if and only if the record is unfinished, the state is recovery or the next on the path, every hash is of a known label and not replaced, and a slot is one of the party |
| `Journal.RecoverMarks` | broker/journal.py:170-183 | recovery is accepted exactly from an unfinished record, adds one entry and an error, and changes nothing else |
| `Journal.AdvancesInvariant` | broker/journal.py:140-185 | any sequence of calls, rejected ones included, keeps a record valid and only extends it |
| `Journal.HistoryRank` | broker/journal.py:34-44 | entry `i` of a valid history is the `i`-th state of the graph unless it is the recovery entry |
| `Journal.RecoveryLast` | broker/journal.py:151-155 | nothing follows a recovery entry |
| `Journal.JournalHistory` | broker/journal.py:117-185 | every record reachable from `create`: a numbered path of the graph from IDLE with recovery only at the end, no hash ever replaced, at most nine transitions |
| `Store.JournalRecord.Apply` | broker/journal.py:170-183 | the assignments of an accepted transition, in place |
| `Store.JournalStore.Transition` | broker/journal.py:140-185 | a rejected transition leaves memory and disk untouched; an accepted one updates memory in full and replaces the file exactly when its write takes effect |
| `Store.JournalStore.SaveArtifact` | broker/journal.py:202-209 | the bytes are stored under transaction, label and their own digest, old or new |
| `Store.JournalStore.Create` | broker/journal.py:117-138 | an existing journal is never overwritten; otherwise the placeholder is stored before the first record that names it |
| `Store.JournalStore.RequireNewTransaction` | broker/journal.py:187-200 | any journal on disk stops the run; an unfinished one that can be loaded is marked for recovery exactly when that write takes effect, and nothing else changes |
| `World.Environment.WriteJournal` | broker/journal.py:217-243 | a file replacement leaves old or new content whatever the caller is told: new exactly when it succeeds or takes effect all the same |
| `World.Environment.TradeOnce` | broker/gba/mock.py:31-46 | a trade really swaps or does not; a confirmed report of the record offered is only made after a swap and names the record received |
| `Escrow.SwapConserves` | broker/switch/mock.py:35-46 | a swap of held records creates and destroys nothing |
| `Escrow.DealCoherent` | broker/transaction.py:66-68 | a trade announced by the durable record, of a record at hand, keeps belief and reality in step whatever its outcome |
| `Escrow.WriteCoherent` | broker/journal.py:184 | writing a record that believes the truth with its evidence stored keeps the world coherent, whether or not the write took effect |
| `Escrow.ArtifactCoherent` | broker/journal.py:202-209 | storing bytes under their own digest never spoils evidence |
| `Escrow.AdvanceBelieves` | broker/journal.py:170-183 | a regular transition whose update records exactly what has happened keeps the record's belief true |
| `Escrow.RecoverBelieves` | broker/transaction.py:186-191 | marking for recovery keeps the belief of the state it interrupts |
| `Escrow.CaptureBBelieves` | broker/transaction.py:72-78 | after a confirmed first trade, capturing B with these locations is true |
| `Escrow.CaptureABelieves` | broker/transaction.py:98-105 | after a confirmed second trade, capturing A with slot and locations is true |
| `Escrow.CommitABelieves` | broker/transaction.py:125-130 | after a confirmed third trade, A is on the Switch and the placeholder is only a candidate |
| `Escrow.FinishBelieves` | broker/transaction.py:138-143 | COMPLETE is true once the returned record equals the placeholder |
| `Coordinator.TradeCoordinator.Persist` | broker/transaction.py:59-63 | one durable transition keeps the tale coherent; when it fails the disk keeps an older belief that is still true |
| `Coordinator.TradeCoordinator.Trade` | broker/transaction.py:66 | one trade, of a record the broker holds, under a durable announcement; every crash point stays coherent |
| `Coordinator.TradeCoordinator.Exchange` | broker/transaction.py:160-170 | announcement, hook, menu, trade, hook and check of the report: it passes exactly when nothing fails and the report confirms the record offered, and then the holdings are those after exactly that swap |
| `Coordinator.TradeCoordinator.Capture` | broker/transaction.py:71-84 | the artifact is stored before the record that names it, and the capture is confirmed by a transition of its own |
| `Coordinator.TradeCoordinator.Stage1` | broker/transaction.py:59-84 | passes exactly when the trade passes, B holds no mail, and every write and hook succeeds; a B with mail is neither stored nor offered; then the Switch holds the placeholder, the broker holds B, and the journal says so durably; failure anywhere leaves a coherent tale |
| `Coordinator.TradeCoordinator.Stage2` | broker/transaction.py:86-111 | the same for B against A, where a slot 0..5 and a closed link are required as well and the reported slot is the one recorded |
| `Coordinator.TradeCoordinator.Stage3` | broker/transaction.py:113-143 | it reaches COMPLETE in memory exactly when the trade passes, the writes and the hook succeed, and the record given back for A is the placeholder byte for byte; whether COMPLETE is durable is decided by its own write alone |
| `Coordinator.TradeCoordinator.Conclude` | broker/transaction.py:123-143 | the candidate is stored and A recorded before the comparison; COMPLETE follows in memory if and only if the candidate is the placeholder and nothing failed, and on disk if, besides, its write took effect |
| `Coordinator.TradeCoordinator.MarkRecovery` | broker/transaction.py:182-193 | an unfinished record is always marked in memory, and on disk exactly when the write takes effect; a failed mark is swallowed; a finished record, COMPLETE included, and the disk stay as they are |
| `Coordinator.TradeCoordinator.Close` | broker/transaction.py:145-158 | the handlers survive exactly when no kill occurs in them; after an exception on an unfinished record the mark is durable exactly when its write takes effect; on a finished one nothing changes |
| `Coordinator.TradeCoordinator.Finish` | broker/transaction.py:53-158 | a failed run ends marked for recovery in memory if and only if it had not reached COMPLETE, and on disk if and only if, besides, the write of the mark took effect |
| `Coordinator.TradeCoordinator.Execute` | broker/transaction.py:46-158 | every crash point of the run is coherent; it returns if and only if there was no journal and every check, write and close went well; an existing journal or a mail placeholder means no console is touched, and an unfinished journal that can be loaded is marked exactly when that write takes effect; no trade without its hook and, on the Switch, its menu; what is returned holds no mail, and the placeholder that came back is stored; a failing last write, after which the run fails, leaves COMPLETE or the state before it, never a mark; every other failure leaves the mark exactly when its write took effect |
| `Coordinator.TradeCoordinator.FairWeather` | broker/transaction.py:46-144 | when nothing fails before the last write and the consoles confirm real swaps of mail-free records, the exchange reaches that write: the broker adds no failure of its own |
| `Coordinator.LastWriteFails` | broker/transaction.py:138-158 | three confirmed trades and a write of COMPLETE that raises: the run fails, and the disk keeps COMPLETE if the write took effect, else the state before it, never a recovery mark |
| `Coordinator.TradeCoordinator.ReachesEndIff` | broker/transaction.py:46-144 | the exact condition for a run to reach its last write, without the stages: all effects, hooks and menus go well, the three reports confirm real swaps of what was offered, slot and link of the GBA are right, no record on the way holds mail, and what comes back is the placeholder |
| `Coordinator.Restarts` | broker/transaction.py:46-158 | any number of process starts on one journal path form one coherent tale; from the first start that leaves a journal, no later start touches a console or moves a record; each start does with a journal it finds exactly what it must; a start that returned found no journal and gives back no mail |
| `Coordinator.UnfinishedIsMarked` | broker/journal.py:187-197 | an unfinished journal is marked by the first start that can load and write it: one last entry and an error, and nothing else of it or of the world |
| `Coordinator.FinishedStays` | broker/journal.py:187-200 | a finished journal, complete or marked, is never changed by any later start |
| `Coordinator.OneReturn` | broker/journal.py:187-200 | after a start that returned, no later start returns, trades or opens a console |
| `Coordinator.TaleRebase` | broker/journal.py:117-122 | as long as no journal was written, nothing has happened that depends on the placeholder |
| `EscrowTheory.BeliefAgainstReality` | docs/recovery.md:18-26 | at every crash point the holdings are exactly those after the trades the durable record counts, or one swap ahead, and ahead only when the last working state is one of the three announcements |
| `EscrowTheory.ClaimsAreTrue` | broker/transaction.py:72-105 | every certain location of a durable record is true, in the holdings after the trades it counts, of the record its digest names, and nothing is claimed about records not seen yet |
| `EscrowTheory.ClaimsHoldNow` | broker/transaction.py:72-105 | at every crash point these claims are true of the holdings themselves, unless an announced swap has taken place that the record does not count yet |
| `EscrowTheory.CompleteMeansExchanged` | broker/transaction.py:138-144 | a durable COMPLETE means the GBA gave A for B, the Switch B for A, the broker is as before, and digests and locations say so |
| `EscrowTheory.TaleOnlyGrows` | broker/journal.py:140-185 | along a run the durable history and the list of trades only ever grow, and no hash changes |
| `EscrowTheory.TaleConserves` | broker/transaction.py:46-158 | at every crash point the records of GBA, Switch and broker together are those of the start |
| `EscrowTheory.MailNeverTravels` | broker/transaction.py:69-98 | at every crash point nothing that was offered and no stored artifact of A, B or P holds mail |
| `EscrowTheory.ErrorNotedIff` | broker/journal.py:170-183 | at every crash point the durable record carries an error if and only if it is marked for recovery |
| `EscrowTheory.EveryTradeAnnounced` | broker/transaction.py:59-122 | each trade was attempted at one moment of the run, when the durable record announced it and the broker held what it offered |
| `EscrowTheory.AttemptsInOrder` | broker/transaction.py:66-120 | at every crash point the attempted trades are a prefix of Switch, GBA, Switch, all but the last successful |
| `EscrowTheory.AnnouncementRecorded` | broker/journal.py:34-44 | for every attempted trade the announcement stands at its place in the durable history, which has at most ten entries |
| `EscrowTheory.EvidenceAtEveryCrash` | broker/journal.py:136-137 | at every crash point each digest in the durable journal names a stored artifact with that digest |

## Left out

- Crc.CrcIsRemainder: speaks of the bit sequence of the octets; for a message shorter than 32 bits the complemented prefix of clause 3.2.9 reaches into the appended zeros, which is how the register behaves.
- Divergence.OverflowLoses: states the loss for a full piece with more bytes behind the frame; how a shorter rest changes the bound is said by `RoomyIff`.
- FrameTheory.BurstRejected: covers corruption outside magic and length, because a changed length moves the trailer and a changed magic hides the frame; no claim is made about such changes.
- Coordinator.TradeCoordinator.Execute: a run that does not return is only said to be failed or killed, not with which exception.
- EscrowTheory.AttemptsInOrder: counts an attempt that swapped nothing as an attempt, as the journal does.
- World.Environment.TradeOnce: assumes honest reports; real console commit timing and the integration patch are not part of this model.
- SHA-256 itself: digests are compared, never inverted; where records must be equal the code compares bytes, and so does the model.
- The pyserial device, its open and close, wall clocks and timeouts: an arbitrary tape of reads, exceptions and a possible deadline; of `read` the arrivals and the part that takes bytes from the data buffer.
- The device's own outer packet layer, which the bridge's source only calls: the bridge is given data bytes in any pieces, and its bytes come back in any well-formed packets.
- The operating-system file layer and the JSON text: a write is an atomic replacement that may also report failure after it took effect, a read of the journal may fail but returns what was written; one process at a time.
- Connecting and `abort_if_safe` of the GBA endpoint (capability exchange): straight-line use of the same wait, easy beside the trade script.
- The Switch session wrapper, the loader of its driver, the command line, logging and the mock demo: they carry no state of the exchange.
- Timestamps, notes, error texts and debug output: of `last_error` only whether it is set.
- Aliasing inside the firmware: offer, selection and transaction id are values here; the two frame buffers are arrays shifted and filled in place.
- The fault hook may raise or kill but not edit the record it is shown.
