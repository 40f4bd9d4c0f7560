/** The host's GBA endpoint: one trade as a script of awaited events (broker/gba/gb_link.py). */
module GbLink {
  import opened Bytes
  import opened Protocol
  import opened Pokemon

  /** What one `read` of the transport brings: bytes (none is a quiet interval), an exception, or the deadline. */
  datatype Tick = Read(bytes: seq<byte>) | Fault | Deadline

  datatype LinkError =
    | NotConnected | MailRefused | WriteFailed | ReadFailed | Timeout
    | Protocol(error: ProtocolError) | Device(payload: seq<byte>)
    | OfferMismatch | BadParty | BadSlot | InvalidPokemon | ContradictsParty
    | CommitNotConfirmed(last: MessageType) | CommitMismatch

  /** The receiving side: decoder buffer, replay window, and the reads still to come. */
  datatype Ear = Ear(buffer: seq<byte>, last: map<TxId, u32>, tape: seq<Tick>)

  datatype Heard<+T> = Heard(result: Result<T, LinkError>, ear: Ear) {
    predicate IsFailure() { result.Err? }
    function PropagateFailure<U>(): Heard<U>
      requires IsFailure()
    {
      Heard(Err(result.error), ear)
    }
    function Extract(): (T, Ear)
      requires !IsFailure()
    {
      (result.value, ear)
    }
  }

  // ---- Waiting for one event

  /** One batch of decoded frames, up to the first that ends the wait. */
  datatype Scanned =
    | Found(frame: Frame, last: map<TxId, u32>)
    | Nothing(last: map<TxId, u32>)
    | Failed(error: LinkError, last: map<TxId, u32>)

  function Scan(fs: seq<Frame>, last: map<TxId, u32>, id: TxId, wanted: set<MessageType>): Scanned
    decreases |fs|
  {
    if fs == [] then Nothing(last)
    else
      var f := fs[0];
      if f.transactionId != id then Failed(Protocol(WrongTransaction), last)
      else if !Admits(last, f) then Failed(Protocol(Replayed), last)
      else
        var noted := last[f.transactionId := f.sequence];
        if f.messageType in wanted then Found(f, noted)
        else if f.messageType == Error then Failed(Device(f.payload), noted)
        else Scan(fs[1..], noted, id, wanted)
  }

  /** `_wait_for`: later frames of the batch that brought the wanted one are dropped. */
  function Listen(ear: Ear, id: TxId, wanted: set<MessageType>): Heard<Frame>
    decreases |ear.tape|
  {
    if ear.tape == [] then Heard(Err(Timeout), ear)
    else
      var later := ear.(tape := ear.tape[1..]);
      match ear.tape[0]
      case Deadline => Heard(Err(Timeout), later)
      case Fault => Heard(Err(ReadFailed), later)
      case Read(bytes) =>
        if bytes == [] then Listen(later, id, wanted)
        else
          var d := Drain(ear.buffer + bytes);
          var kept := later.(buffer := d.rest);
          if d.error.Some? then Heard(Err(Protocol(d.error.value)), kept)
          else
            match Scan(d.frames, ear.last, id, wanted)
            case Found(frame, last) => Heard(Ok(frame), kept.(last := last))
            case Failed(error, last) => Heard(Err(error), kept.(last := last))
            case Nothing(last) => Listen(kept.(last := last), id, wanted)
  }

  // ---- The trade script

  datatype GbaTradeResult = GbaTradeResult(
    offered: Mon, received: Mon, commitConfirmed: bool, selectedSlot: nat, linkClosed: bool)

  /** The party record at a slot. */
  function PartySlice(party: seq<byte>, slot: nat): Mon
    requires |party| == 600 && slot <= 5
  {
    party[slot * 100..(slot + 1) * 100]
  }

  /** Everything `trade_once` does after sending the offer. */
  function Script(ear: Ear, id: TxId, offerSlot: byte, offer: Mon, sha: Mon -> Digest): Heard<GbaTradeResult>
  {
    var (ready, e1) :- Listen(ear, id, {OfferReady});
    if ready.payload != [offerSlot] + sha(offer) then Heard(Err(OfferMismatch), e1) else
    var (_, e2) :- Listen(e1, id, {TradeSessionStarted});
    var (party, e3) :- Listen(e2, id, {PartnerParty});
    if |party.payload| != 600 then Heard(Err(BadParty), e3) else
    var (slot, e4) :- Listen(e3, id, {PartnerSelectedSlot});
    if |slot.payload| != 1 || slot.payload[0] > 5 then Heard(Err(BadSlot), e4) else
    var (mon, e5) :- Listen(e4, id, {PartnerSelectedMon});
    if NewMon(mon.payload).None? then Heard(Err(InvalidPokemon), e5)
    else if NewMon(mon.payload).value != PartySlice(party.payload, slot.payload[0]) then
      Heard(Err(ContradictsParty), e5)
    else
    var (committed, e6) :- Listen(e5, id, {TradeCommitted, TradeAborted, Error});
    if committed.messageType != TradeCommitted then Heard(Err(CommitNotConfirmed(committed.messageType)), e6)
    else if committed.payload != CommitPayload(sha(offer), sha(mon.payload)) then Heard(Err(CommitMismatch), e6) else
    var (closed, e7) :- Listen(e6, id, {TradeLinkClosed, Error});
    Heard(Ok(GbaTradeResult(offer, mon.payload, true, slot.payload[0],
                            closed.messageType == TradeLinkClosed && closed.payload == [0])), e7)
  }

  /** The frame that announces an offer, and how many bytes it has. */
  function OfferFrame(id: TxId, sequence: u32, offerSlot: byte, offer: Mon): (f: Frame)
    ensures |Encode(f)| == OFFER_FRAME_SIZE
  {
    RawFrame(SetOfferMon, id, sequence, [offerSlot] + offer)
  }

  const OFFER_FRAME_SIZE: nat := 137

  /**
   All of `trade_once`: refusals first, then the offer frame, of which the transport takes `taken`
   bytes before it raises, then the script.
   */
  function TradeOutcome(connected: bool, sequence: nat, taken: nat, ear: Ear, id: TxId, offerSlot: byte,
                        offer: Mon, sha: Mon -> Digest): Heard<GbaTradeResult>
  {
    if !connected then Heard(Err(NotConnected), ear)
    else if HoldsMail(offer) then Heard(Err(MailRefused), ear)
    else if sequence >= 0xFFFF_FFFF then Heard(Err(Protocol(SequenceRange)), ear)
    else if taken < OFFER_FRAME_SIZE then Heard(Err(WriteFailed), ear)
    else Script(ear, id, offerSlot, offer, sha)
  }

  class GbLinkEndpoint {
    const decoder: FrameDecoder
    const replay: ReplayWindow
    const id: TxId
    const offerSlot: byte
    const sha: Mon -> Digest
    /** How many bytes of the `k`-th write the transport takes before it raises. */
    const takes: nat -> nat
    var tape: seq<Tick>
    var written: seq<byte>
    var writes: nat
    var outSequence: nat
    var connected: bool

    ghost function Hearing(): Ear
      reads this, decoder, replay
    {
      Ear(decoder.buffer, replay.last, tape)
    }

    constructor (id: TxId, offerSlot: byte, sha: Mon -> Digest, takes: nat -> nat, tape: seq<Tick>)
      requires offerSlot <= 5
      ensures fresh(decoder) && fresh(replay) && Hearing() == Ear([], map[], tape)
      ensures this.id == id && this.offerSlot == offerSlot && this.sha == sha && this.takes == takes
      ensures written == [] && writes == 0 && outSequence == 0 && !connected
    {
      decoder := new FrameDecoder();
      replay := new ReplayWindow();
      this.id, this.offerSlot, this.sha, this.takes, this.tape := id, offerSlot, sha, takes, tape;
      written, writes, outSequence, connected := [], 0, 0, false;
    }

    /**
     The counter advances even when the frame is refused or the write fails. A failed write may have
     sent a part of the frame.
     */
    method Send(t: MessageType, payload: seq<byte>) returns (error: Option<LinkError>)
      modifies this`outSequence, this`written, this`writes
      ensures outSequence == old(outSequence) + 1
      ensures outSequence > 0xFFFF_FFFF ==>
        error == Some(Protocol(SequenceRange)) && written == old(written) && writes == old(writes)
      ensures outSequence <= 0xFFFF_FFFF && |payload| > MAX_PAYLOAD ==>
        error == Some(Protocol(PayloadTooLong)) && written == old(written) && writes == old(writes)
      ensures outSequence <= 0xFFFF_FFFF && |payload| <= MAX_PAYLOAD ==>
        var bytes, taken := Encode(RawFrame(t, id, outSequence, payload)), takes(old(writes));
        && error == (if taken < |bytes| then Some(WriteFailed) else None)
        && written == old(written) + (if taken < |bytes| then bytes[..taken] else bytes)
        && writes == old(writes) + 1
    {
      hide EncodeRaw;
      outSequence := outSequence + 1;
      var frame := NewFrame(t, id, outSequence, payload, 0);
      if frame.Err? {
        return Some(Protocol(frame.error));
      }
      var bytes := Encode(frame.value);
      var taken := takes(writes);
      writes := writes + 1;
      if taken < |bytes| {
        written := written + bytes[..taken];
        return Some(WriteFailed);
      }
      written := written + bytes;
      return None;
    }

    method WaitFor(wanted: set<MessageType>) returns (r: Result<Frame, LinkError>)
      modifies this`tape, decoder, replay
      ensures Heard(r, Hearing()) == Listen(old(Hearing()), id, wanted)
    {
      hide Drain, Scan;
      ghost var goal := Listen(Hearing(), id, wanted);
      while tape != []
        invariant Listen(Hearing(), id, wanted) == goal
        decreases |tape|
      {
        var tick := tape[0];
        tape := tape[1..];
        if tick == Deadline {
          return Err(Timeout);
        }
        if tick == Fault {
          return Err(ReadFailed);
        }
        if tick.bytes == [] {
          continue;
        }
        ghost var last := replay.last;
        var batch := decoder.Feed(tick.bytes);
        if batch.Err? {
          return Err(Protocol(batch.error));
        }
        var scanned := ScanBatch(batch.value, wanted);
        match scanned {
          case Found(frame, _) => return Ok(frame);
          case Failed(error, _) => return Err(error);
          case Nothing(_) =>
        }
      }
      return Err(Timeout);
    }

    /** The loop over one batch. */
    method ScanBatch(fs: seq<Frame>, wanted: set<MessageType>) returns (s: Scanned)
      modifies replay
      ensures s == Scan(fs, old(replay.last), id, wanted) && replay.last == s.last
    {
      var i := 0;
      assert fs[0..] == fs;
      while i < |fs|
        invariant 0 <= i <= |fs|
        invariant Scan(fs, old(replay.last), id, wanted) == Scan(fs[i..], replay.last, id, wanted)
      {
        var frame := fs[i];
        assert fs[i..][0] == frame && fs[i..][1..] == fs[i + 1..];
        if frame.transactionId != id {
          return Failed(Protocol(WrongTransaction), replay.last);
        }
        var ok := replay.Accept(frame);
        if !ok {
          return Failed(Protocol(Replayed), replay.last);
        }
        if frame.messageType in wanted {
          return Found(frame, replay.last);
        }
        if frame.messageType == Error {
          return Failed(Device(frame.payload), replay.last);
        }
        i := i + 1;
      }
      return Nothing(replay.last);
    }

    method TradeOnce(offered: Mon) returns (r: Result<GbaTradeResult, LinkError>)
      modifies this`tape, this`outSequence, this`written, this`writes, decoder, replay
      ensures Heard(r, Hearing()) ==
        TradeOutcome(connected, old(outSequence), takes(old(writes)), old(Hearing()), id, offerSlot, offered, sha)
      ensures !connected ==> r == Err(NotConnected)
      ensures connected && HoldsMail(offered) ==> r == Err(MailRefused)
      ensures !connected || HoldsMail(offered) || old(outSequence) >= 0xFFFF_FFFF ==> written == old(written)
      ensures connected && !HoldsMail(offered) && old(outSequence) < 0xFFFF_FFFF ==>
        var bytes, taken := Encode(OfferFrame(id, old(outSequence) + 1, offerSlot, offered)), takes(old(writes));
        written == old(written) + (if taken < |bytes| then bytes[..taken] else bytes)
    {
      hide Script, EncodeRaw, HoldsMail;
      if !connected {
        return Err(NotConnected);
      }
      if HoldsMail(offered) {
        return Err(MailRefused);
      }
      var failed := Send(SetOfferMon, [offerSlot] + offered);
      if failed.Some? {
        return Err(failed.value);
      }
      r := PlayScript(offered);
    }

    method PlayScript(offered: Mon) returns (r: Result<GbaTradeResult, LinkError>)
      modifies this`tape, decoder, replay
      ensures Heard(r, Hearing()) == Script(old(Hearing()), id, offerSlot, offered, sha)
    {
      hide Listen;
      var ready := WaitFor({OfferReady});
      if ready.Err? { return Err(ready.error); }
      if ready.value.payload != [offerSlot] + sha(offered) { return Err(OfferMismatch); }
      var started := WaitFor({TradeSessionStarted});
      if started.Err? { return Err(started.error); }
      var party := WaitFor({PartnerParty});
      if party.Err? { return Err(party.error); }
      if |party.value.payload| != 600 { return Err(BadParty); }
      var slot := WaitFor({PartnerSelectedSlot});
      if slot.Err? { return Err(slot.error); }
      if |slot.value.payload| != 1 || slot.value.payload[0] > 5 { return Err(BadSlot); }
      var selectedSlot := slot.value.payload[0];
      var mon := WaitFor({PartnerSelectedMon});
      if mon.Err? { return Err(mon.error); }
      var record := NewMon(mon.value.payload);
      if record.None? { return Err(InvalidPokemon); }
      var selected := record.value;
      if selected != PartySlice(party.value.payload, selectedSlot) { return Err(ContradictsParty); }
      var committed := WaitFor({TradeCommitted, TradeAborted, Error});
      if committed.Err? { return Err(committed.error); }
      if committed.value.messageType != TradeCommitted { return Err(CommitNotConfirmed(committed.value.messageType)); }
      if committed.value.payload != CommitPayload(sha(offered), sha(selected)) { return Err(CommitMismatch); }
      var closed := WaitFor({TradeLinkClosed, Error});
      if closed.Err? { return Err(closed.error); }
      var linkClosed := closed.value.messageType == TradeLinkClosed && closed.value.payload == [0];
      return Ok(GbaTradeResult(offered, selected, true, selectedSlot, linkClosed));
    }
  }
}
