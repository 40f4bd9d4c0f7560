/** What the firmware codec does with its receive buffer, as functions on byte strings. */
module FirmwareModel {
  import opened Bytes
  import opened Crc
  import opened Protocol
  import opened Pokemon
  import Serial

  /** The transaction id of a codec that has not been given one. */
  const ZERO_ID: TxId := [0, 0, 0, 0, 0, 0, 0, 0, 0, 0, 0, 0, 0, 0, 0, 0]

  /** The firmware keeps the raw message code; it never checks it against the enumeration. */
  datatype ParsedFrame = ParsedFrame(code: byte, transactionId: TxId, sequence: u32, payload: seq<byte>)

  function EncodeParsed(f: ParsedFrame): seq<byte>
  {
    EncodeRaw(f.code, f.transactionId, f.sequence, f.payload)
  }

  // ---- One turn of `consume`

  datatype Turn =
    | Hold
    | Skip(count: nat)
    | Stale(count: nat)
    | Accept(frame: ParsedFrame, count: nat)

  function Plausible(b: seq<byte>): bool
    requires |b| >= HEADER_SIZE
  {
    b[4] == VERSION && Read16(b, 6) == 0 && Read32(b, 8) <= MAX_PAYLOAD
  }

  function TurnOf(b: seq<byte>, id: TxId, last: u32): (t: Turn)
    ensures !t.Hold? ==> 0 < t.count <= |b|
    ensures t.Hold? ==> |b| < MAX_FRAME
    ensures t.Accept? ==> t.frame.transactionId == id
  {
    if |b| < 4 then Hold
    else if b[..4] != MAGIC then Skip(1)
    else if |b| < HEADER_SIZE then Hold
    else if !Plausible(b) then Skip(4)
    else
      var bodySize := HEADER_SIZE + Read32(b, 8);
      if |b| < bodySize + CRC_SIZE then Hold
      else if Crc32(b[..bodySize]) != ReadWord(b, bodySize) then Skip(4)
      else if b[12..28] != id || Read32(b, 28) <= last then Stale(bodySize + CRC_SIZE)
      else Accept(ParsedFrame(b[5], b[12..28], Read32(b, 28), b[HEADER_SIZE..bodySize]), bodySize + CRC_SIZE)
  }

  // ---- The receiving side over time

  /** What became of a stretch of the input: thrown away, or handed to the callback in some epoch. */
  datatype Segment = Junk(bytes: seq<byte>) | Taken(frame: ParsedFrame, epoch: nat)

  function SegmentBytes(s: Segment): seq<byte>
  {
    match s
    case Junk(bytes) => bytes
    case Taken(frame, _) => EncodeParsed(frame)
  }

  function LogBytes(log: seq<Segment>): seq<byte>
  {
    if log == [] then [] else LogBytes(log[..|log| - 1]) + SegmentBytes(log[|log| - 1])
  }

  /** The frames handed to the callback so far. */
  function Delivered(log: seq<Segment>): seq<ParsedFrame>
  {
    if log == [] then []
    else
      var last := log[|log| - 1];
      Delivered(log[..|log| - 1]) + if last.Taken? then [last.frame] else []
  }

  /** An epoch ends with every `setTransaction`. */
  datatype Receiver = Receiver(id: TxId, last: u32, epoch: nat, log: seq<Segment>)

  /** Whether the callback, having seen some frames before, answers this one with `setTransaction`. */
  type Reaction = (seq<ParsedFrame>, ParsedFrame) -> Option<TxId>

  function SetTransaction(r: Receiver, id: TxId): Receiver
  {
    r.(id := id, last := 0, epoch := r.epoch + 1)
  }

  function Discard(r: Receiver, bytes: seq<byte>): Receiver
  {
    r.(log := r.log + [Junk(bytes)])
  }

  function Receive(r: Receiver, f: ParsedFrame, react: Reaction): Receiver
  {
    var noted := r.(last := f.sequence, log := r.log + [Taken(f, r.epoch)]);
    match react(Delivered(r.log), f)
    case None => noted
    case Some(id) => SetTransaction(noted, id)
  }

  function Apply(r: Receiver, b: seq<byte>, t: Turn, react: Reaction): Receiver
    requires !t.Hold? && t.count <= |b|
  {
    match t
    case Skip(count) => Discard(r, b[..count])
    case Stale(count) => Discard(r, b[..count])
    case Accept(frame, _) => Receive(r, frame, react)
  }

  datatype Rx = Rx(buffer: seq<byte>, receiver: Receiver)

  /** `consume`: turns until the buffer holds no complete frame. */
  function Consume(rx: Rx, react: Reaction): (r: Rx)
    ensures |r.buffer| < MAX_FRAME && TurnOf(r.buffer, r.receiver.id, r.receiver.last).Hold?
    ensures |r.buffer| <= |rx.buffer|
    decreases |rx.buffer|
  {
    var t := TurnOf(rx.buffer, rx.receiver.id, rx.receiver.last);
    if t.Hold? then rx
    else Consume(Rx(rx.buffer[t.count..], Apply(rx.receiver, rx.buffer, t, react)), react)
  }

  predicate Fits(rx: Rx, chunk: seq<byte>)
  {
    |chunk| <= MAX_FRAME - |rx.buffer|
  }

  /** `feed`: a chunk that does not fit is dropped together with everything buffered. */
  function Feed(rx: Rx, chunk: seq<byte>, react: Reaction): (r: Rx)
    requires |rx.buffer| <= MAX_FRAME
    ensures |r.buffer| < MAX_FRAME
  {
    if !Fits(rx, chunk) then Rx([], Discard(rx.receiver, rx.buffer + chunk))
    else Consume(Rx(rx.buffer + chunk, rx.receiver), react)
  }

  // ---- Sending

  /** The sending side of the codec, and what the transport has taken from it. */
  datatype Sender = Sender(id: TxId, sequence: u32, sent: seq<seq<byte>>, attempts: nat)

  datatype Sent = Sent(sender: Sender, ok: bool)

  /** Offer the pieces one by one; `accepts(k)` is the transport's answer to its `k`-th piece. */
  function Push(s: Sender, pieces: seq<seq<byte>>, accepts: nat -> bool): Sent
    decreases |pieces|
  {
    if pieces == [] then Sent(s, true)
    else if !accepts(s.attempts) then Sent(s.(attempts := s.attempts + 1), false)
    else Push(s.(sent := s.sent + [pieces[0]], attempts := s.attempts + 1), pieces[1..], accepts)
  }

  /** The next send counter, wrapping like the 32-bit register it is. */
  function NextSequence(n: u32): u32
  {
    (n + 1) % 0x1_0000_0000
  }

  function Send(s: Sender, code: byte, payload: seq<byte>, accepts: nat -> bool): Sent
  {
    if |payload| > MAX_PAYLOAD then Sent(s, false)
    else
      var next := NextSequence(s.sequence);
      Push(s.(sequence := next), Serial.Split(EncodeRaw(code, s.id, next, payload)), accepts)
  }

  // ---- The trade bridge

  datatype Bridge = Bridge(
    sender: Sender, offer: Mon, selected: Mon, offerSlot: byte, partnerSlot: byte, offerReady: bool)

  function Emit(b: Bridge, t: MessageType, payload: seq<byte>, accepts: nat -> bool): Bridge
  {
    b.(sender := Send(b.sender, Code(t), payload, accepts).sender)
  }

  function EmitError(b: Bridge, code: nat, accepts: nat -> bool): Bridge
  {
    Emit(b, Error, Write16(code), accepts)
  }

  /** The callback: one delivered frame. */
  function Handle(b: Bridge, f: ParsedFrame, sha: Mon -> Digest, accepts: nat -> bool): Bridge
  {
    if f.code == Code(Hello) then
      Emit(b.(sender := b.sender.(id := f.transactionId, sequence := 0)), Hello, [], accepts)
    else if f.code == Code(GetCapabilities) then Emit(b, Capabilities, [0x3f, 0, 0, 0], accepts)
    else if f.code == Code(SetOfferMon) then
      if |f.payload| != 101 || f.payload[0] > 5 then EmitError(b, 1, accepts)
      else
        var offer: Mon := f.payload[1..];
        Emit(b.(offerSlot := f.payload[0], offer := offer, offerReady := true),
             OfferReady, [f.payload[0]] + sha(offer), accepts)
    else if f.code == Code(AbortIfSafe) then EmitError(b, 2, accepts)
    else EmitError(b, 3, accepts)
  }

  function HandleAll(b: Bridge, fs: seq<ParsedFrame>, sha: Mon -> Digest, accepts: nat -> bool): Bridge
  {
    if fs == [] then b
    else Handle(HandleAll(b, fs[..|fs| - 1], sha, accepts), fs[|fs| - 1], sha, accepts)
  }

  /** What the bridge's callback does to the receiving side: only HELLO calls `setTransaction`. */
  function HelloReaction(seen: seq<ParsedFrame>, f: ParsedFrame): Option<TxId>
  {
    if f.code == Code(Hello) then Some(f.transactionId) else None
  }

  /** The selection event: slot and record of the partner, or error 4. */
  function Select(b: Bridge, party: seq<byte>, partnerSlot: byte, accepts: nat -> bool): Bridge
    requires |party| == 600
  {
    if !b.offerReady || partnerSlot > 5 then EmitError(b, 4, accepts)
    else
      var selected: Mon := party[partnerSlot * 100..(partnerSlot + 1) * 100];
      var chosen := b.(partnerSlot := partnerSlot, selected := selected);
      Emit(Emit(chosen, PartnerSelectedSlot, [partnerSlot], accepts), PartnerSelectedMon, selected, accepts)
  }
}
