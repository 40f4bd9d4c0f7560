/** The versioned, CRC-protected frame codec of the host (broker/gba/protocol.py). */
module Protocol {
  import opened Bytes
  import opened Search
  import opened Crc

  /** ASCII "FGBR". */
  const MAGIC: seq<byte> := [0x46, 0x47, 0x42, 0x52]
  const VERSION: byte := 1
  const MAX_PAYLOAD: nat := 4096
  const HEADER_SIZE: nat := 32
  const CRC_SIZE: nat := 4
  const MAX_FRAME: nat := 4132

  type TxId = s: seq<byte> | |s| == 16 witness [0, 0, 0, 0, 0, 0, 0, 0, 0, 0, 0, 0, 0, 0, 0, 0]

  datatype MessageType =
    | Hello | GetCapabilities | Capabilities
    | TradeSessionStarted | PartnerParty | PartnerSelectedSlot | PartnerSelectedMon
    | SetOfferMon | OfferReady | TradeNegotiation | TradeCommitted | TradeAborted | TradeLinkClosed
    | AbortIfSafe | Error

  function Code(t: MessageType): byte
  {
    match t
    case Hello => 0x01
    case GetCapabilities => 0x02
    case Capabilities => 0x03
    case TradeSessionStarted => 0x10
    case PartnerParty => 0x11
    case PartnerSelectedSlot => 0x12
    case PartnerSelectedMon => 0x13
    case SetOfferMon => 0x20
    case OfferReady => 0x21
    case TradeNegotiation => 0x22
    case TradeCommitted => 0x23
    case TradeAborted => 0x24
    case TradeLinkClosed => 0x25
    case AbortIfSafe => 0x26
    case Error => 0x7F
  }

  /** The enumeration lookup of the host; an unlisted code is an error there. */
  function TypeOf(code: byte): (t: Option<MessageType>)
    ensures forall m :: t == Some(m) <==> Code(m) == code
  {
    if code == 0x01 then Some(Hello)
    else if code == 0x02 then Some(GetCapabilities)
    else if code == 0x03 then Some(Capabilities)
    else if code == 0x10 then Some(TradeSessionStarted)
    else if code == 0x11 then Some(PartnerParty)
    else if code == 0x12 then Some(PartnerSelectedSlot)
    else if code == 0x13 then Some(PartnerSelectedMon)
    else if code == 0x20 then Some(SetOfferMon)
    else if code == 0x21 then Some(OfferReady)
    else if code == 0x22 then Some(TradeNegotiation)
    else if code == 0x23 then Some(TradeCommitted)
    else if code == 0x24 then Some(TradeAborted)
    else if code == 0x25 then Some(TradeLinkClosed)
    else if code == 0x26 then Some(AbortIfSafe)
    else if code == 0x7F then Some(Error)
    else None
  }

  datatype ProtocolError =
    | SequenceRange | FlagsNotZero | PayloadTooLong
    | CrcMismatch | UnsupportedVersion | UnknownType
    | Replayed | WrongTransaction | Malformed

  datatype RawFrame = RawFrame(messageType: MessageType, transactionId: TxId, sequence: u32, payload: seq<byte>)

  /** A frame the constructor accepts. */
  type Frame = f: RawFrame | |f.payload| <= MAX_PAYLOAD
    witness RawFrame(Hello, [0, 0, 0, 0, 0, 0, 0, 0, 0, 0, 0, 0, 0, 0, 0, 0], 0, [])

  /** The checks of the frame constructor, on the unbounded integers of the host language. */
  function NewFrame(t: MessageType, id: TxId, sequence: int, payload: seq<byte>, flags: int)
    : (r: Result<Frame, ProtocolError>)
  {
    if !(0 <= sequence <= 0xFFFF_FFFF) then Err(SequenceRange)
    else if flags != 0 then Err(FlagsNotZero)
    else if |payload| > MAX_PAYLOAD then Err(PayloadTooLong)
    else Ok(RawFrame(t, id, sequence, payload))
  }

  // ---- Encoding

  function Header(code: byte, id: TxId, sequence: u32, size: nat): (r: seq<byte>)
    ensures |r| == HEADER_SIZE
  {
    MAGIC + [VERSION, code] + Write16(0) + Write32(size) + id + Write32(sequence)
  }

  /** A frame on the wire, for a raw message code. */
  function EncodeRaw(code: byte, id: TxId, sequence: u32, payload: seq<byte>): (r: seq<byte>)
    ensures |r| == HEADER_SIZE + |payload| + CRC_SIZE
  {
    var body := Header(code, id, sequence, |payload|) + payload;
    body + WriteWord(Crc32(body))
  }

  function Encode(f: Frame): (r: seq<byte>)
    ensures |r| == HEADER_SIZE + |f.payload| + CRC_SIZE
  {
    EncodeRaw(Code(f.messageType), f.transactionId, f.sequence, f.payload)
  }

  function EncodeAll(fs: seq<Frame>): seq<byte>
  {
    if fs == [] then [] else Encode(fs[0]) + EncodeAll(fs[1..])
  }

  // ---- Decoding

  /** What one round of the decoder's loop does with its buffer. */
  datatype Round =
    | Wait(rest: seq<byte>)
    | Deliver(frame: Frame, rest: seq<byte>)
    | Reject(error: ProtocolError, rest: seq<byte>)

  function Last(s: seq<byte>, k: nat): (r: seq<byte>)
    ensures |r| <= k && |r| <= |s|
  {
    if |s| <= k then s else s[|s| - k..]
  }

  function DecodeRound(buffer: seq<byte>): (r: Round)
    ensures !r.Wait? ==> |r.rest| < |buffer|
    ensures r.Wait? ==> |r.rest| < MAX_FRAME
  {
    var at := Find(buffer, MAGIC);
    if at < 0 then Wait(Last(buffer, 3)) else Aligned(buffer[at..])
  }

  /** The round once the buffer starts with the magic. */
  function Aligned(b: seq<byte>): (r: Round)
    requires MAGIC <= b
    ensures !r.Wait? ==> |r.rest| < |b|
    ensures r.Wait? ==> r.rest == b && |b| < MAX_FRAME
  {
    if |b| < HEADER_SIZE then Wait(b)
    else
      var size := Read32(b, 8);
      if size > MAX_PAYLOAD then Reject(PayloadTooLong, b[4..])
      else
        var bodySize := HEADER_SIZE + size;
        var total := bodySize + CRC_SIZE;
        if |b| < total then Wait(b)
        else if Crc32(b[..bodySize]) != ReadWord(b, bodySize) then Reject(CrcMismatch, b[total..])
        else if b[4] != VERSION then Reject(UnsupportedVersion, b[total..])
        else if Read16(b, 6) != 0 then Reject(FlagsNotZero, b[total..])
        else if TypeOf(b[5]).None? then Reject(UnknownType, b[total..])
        else Deliver(RawFrame(TypeOf(b[5]).value, b[12..28], Read32(b, 28), b[HEADER_SIZE..bodySize]), b[total..])
  }

  /** One `feed` over a buffer: frames until the loop waits or raises, and the buffer left behind. */
  datatype Drained = Drained(frames: seq<Frame>, rest: seq<byte>, error: Option<ProtocolError>)

  function Drain(buffer: seq<byte>): (d: Drained)
    ensures d.error.None? ==> |d.rest| < MAX_FRAME
    decreases |buffer|
  {
    match DecodeRound(buffer)
    case Wait(rest) => Drained([], rest, None)
    case Reject(error, rest) => Drained([], rest, Some(error))
    case Deliver(frame, rest) =>
      Onward([frame], Drain(rest))
  }

  /** `d` as seen by a call that has already collected `frames`. */
  function Onward(frames: seq<Frame>, d: Drained): Drained
  {
    d.(frames := frames + d.frames)
  }

  lemma OnwardOne(frames: seq<Frame>, f: Frame, d: Drained)
    ensures Onward(frames, Onward([f], d)) == Onward(frames + [f], d)
  {
    assert frames + ([f] + d.frames) == frames + [f] + d.frames;
  }

  lemma OnwardNone(frames: seq<Frame>, rest: seq<byte>)
    ensures Onward(frames, Drained([], rest, None)) == Drained(frames, rest, None)
  {
    assert frames + [] == frames;
  }

  /** The loop body from the aligned magic on: length bound, checksum, then the header fields. */
  method DecodeAligned(b: seq<byte>) returns (r: Round)
    requires MAGIC <= b
    ensures r == Aligned(b)
  {
    hide Crc32, Read32, Read16, ReadWord, TypeOf;
    if |b| < HEADER_SIZE {
      return Wait(b);
    }
    var size := Read32(b, 8);
    if size > MAX_PAYLOAD {
      return Reject(PayloadTooLong, b[4..]);
    }
    var bodySize := HEADER_SIZE + size;
    var total := bodySize + CRC_SIZE;
    if |b| < total {
      return Wait(b);
    }
    var actual := ComputeCrc32(b[..bodySize]);
    if actual != ReadWord(b, bodySize) {
      return Reject(CrcMismatch, b[total..]);
    }
    if b[4] != VERSION {
      return Reject(UnsupportedVersion, b[total..]);
    }
    if Read16(b, 6) != 0 {
      return Reject(FlagsNotZero, b[total..]);
    }
    var t := TypeOf(b[5]);
    if t.None? {
      return Reject(UnknownType, b[total..]);
    }
    return Deliver(RawFrame(t.value, b[12..28], Read32(b, 28), b[HEADER_SIZE..bodySize]), b[total..]);
  }

  /** The incremental decoder. An exception loses the frames already collected in the same call. */
  class FrameDecoder {
    var buffer: seq<byte>

    constructor ()
      ensures buffer == []
    {
      buffer := [];
    }

    method Feed(data: seq<byte>) returns (r: Result<seq<Frame>, ProtocolError>)
      modifies this
      ensures var d := Drain(old(buffer) + data);
        buffer == d.rest && r == if d.error.Some? then Err(d.error.value) else Ok(d.frames)
    {
      hide Aligned, Find, At, Last;
      buffer := buffer + data;
      ghost var whole := Drain(buffer);
      var frames: seq<Frame> := [];
      assert Onward(frames, whole) == whole;
      while true
        invariant whole == Onward(frames, Drain(buffer))
        decreases |buffer|
      {
        var at := Find(buffer, MAGIC);
        if at < 0 {
          OnwardNone(frames, Last(buffer, 3));
          buffer := Last(buffer, 3);
          break;
        }
        FindAligns(buffer, MAGIC);
        buffer := buffer[at..];
        var round := DecodeAligned(buffer);
        buffer := round.rest;
        match round {
          case Wait(rest) =>
            OnwardNone(frames, rest);
            break;
          case Reject(error, _) =>
            return Err(error);
          case Deliver(frame, rest) =>
            OnwardOne(frames, frame, Drain(rest));
            frames := frames + [frame];
        }
      }
      return Ok(frames);
    }
  }

  // ---- Replay protection

  predicate Admits(last: map<TxId, u32>, f: Frame)
  {
    f.transactionId in last ==> last[f.transactionId] < f.sequence
  }

  /** The window accepts all of `fs` in turn. */
  predicate AdmitsAll(last: map<TxId, u32>, fs: seq<Frame>)
    decreases |fs|
  {
    fs == [] || (Admits(last, fs[0]) && AdmitsAll(last[fs[0].transactionId := fs[0].sequence], fs[1..]))
  }

  class ReplayWindow {
    var last: map<TxId, u32>

    constructor ()
      ensures last == map[]
    {
      last := map[];
    }

    method Accept(frame: Frame) returns (ok: bool)
      modifies this
      ensures ok == Admits(old(last), frame)
      ensures last == if ok then old(last)[frame.transactionId := frame.sequence] else old(last)
    {
      if frame.transactionId in last && frame.sequence <= last[frame.transactionId] {
        return false;
      }
      last := last[frame.transactionId := frame.sequence];
      return true;
    }
  }

  /** Frames of one transaction carry strictly increasing sequence numbers. */
  predicate StrictlyOrdered(fs: seq<Frame>)
  {
    forall i, j | 0 <= i < j < |fs| ::
      fs[i].transactionId == fs[j].transactionId ==> fs[i].sequence < fs[j].sequence
  }

  /** The window accepts exactly the frame lists without a duplicate or a decrease per transaction. */
  lemma {:induction false} AdmitsAllIff(last: map<TxId, u32>, fs: seq<Frame>)
    ensures AdmitsAll(last, fs) <==> StrictlyOrdered(fs) && forall f | f in fs :: Admits(last, f)
    decreases |fs|
  {
    if fs != [] {
      var f, rest := fs[0], fs[1..];
      var next := last[f.transactionId := f.sequence];
      AdmitsAllIff(next, rest);
      assert fs == [f] + rest;
      if AdmitsAll(last, fs) {
        AdmittedIsOrdered(last, fs);
      }
      if StrictlyOrdered(fs) && forall g | g in fs :: Admits(last, g) {
        OrderedIsAdmitted(last, fs);
      }
    }
  }

  lemma AdmittedIsOrdered(last: map<TxId, u32>, fs: seq<Frame>)
    requires fs != [] && Admits(last, fs[0]) && StrictlyOrdered(fs[1..])
    requires forall g | g in fs[1..] :: Admits(last[fs[0].transactionId := fs[0].sequence], g)
    ensures StrictlyOrdered(fs) && forall g | g in fs :: Admits(last, g)
  {
    var f, rest := fs[0], fs[1..];
    forall i, j | 0 <= i < j < |fs| && fs[i].transactionId == fs[j].transactionId
      ensures fs[i].sequence < fs[j].sequence
    {
      assert fs[j] == rest[j - 1] && fs[j] in rest;
      if i > 0 {
        assert fs[i] == rest[i - 1];
      }
    }
    forall g | g in fs
      ensures Admits(last, g)
    {
      if g != f {
        assert g in rest;
      }
    }
  }

  lemma OrderedIsAdmitted(last: map<TxId, u32>, fs: seq<Frame>)
    requires fs != [] && StrictlyOrdered(fs) && forall g | g in fs :: Admits(last, g)
    ensures Admits(last, fs[0]) && StrictlyOrdered(fs[1..])
    ensures forall g | g in fs[1..] :: Admits(last[fs[0].transactionId := fs[0].sequence], g)
  {
    var rest := fs[1..];
    forall g | g in rest
      ensures Admits(last[fs[0].transactionId := fs[0].sequence], g)
    {
      var j :| 0 <= j < |rest| && rest[j] == g;
      assert fs[j + 1] == g && g in fs;
    }
    forall i, j | 0 <= i < j < |rest| && rest[i].transactionId == rest[j].transactionId
      ensures rest[i].sequence < rest[j].sequence
    {
      assert rest[i] == fs[i + 1] && rest[j] == fs[j + 1];
    }
  }
}
