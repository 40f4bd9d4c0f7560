/** The firmware codec and trade bridge as the objects they are (firmware/gb-link). */
module Firmware {
  import opened Bytes
  import opened Crc
  import opened Protocol
  import opened Pokemon
  import opened FirmwareModel
  import Serial

  /** `std::copy` of `s` into `a` from index `at`. */
  method CopyInto(a: array<byte>, at: nat, s: seq<byte>)
    requires at + |s| <= a.Length
    modifies a
    ensures a[..at + |s|] == old(a[..at]) + s
    ensures a[at + |s|..] == old(a[at + |s|..])
  {
    for i := 0 to |s|
      invariant a[..at + i] == old(a[..at]) + s[..i]
      invariant a[at + i..] == old(a[at + i..])
    {
      a[at + i] := s[i];
      assert a[..at + i + 1] == a[..at + i] + [s[i]] && s[..i + 1] == s[..i] + [s[i]];
    }
    assert s[..|s|] == s;
  }

  /** The receive buffer with its size, shifted in place. */
  class Codec {
    const rx: array<byte>
    const tx: array<byte>
    var rxSize: nat
    var transactionId: TxId
    var sendSequence: u32
    var lastReceived: u32
    /** The chunks the transport has taken, and its answers. */
    var sent: seq<seq<byte>>
    var attempts: nat
    const accepts: nat -> bool
    ghost var epoch: nat
    ghost var log: seq<Segment>

    ghost predicate Valid()
      reads this
    {
      rx.Length == tx.Length == MAX_FRAME && rx != tx && rxSize <= MAX_FRAME
    }

    ghost function Receiving(): Rx
      requires Valid()
      reads this, rx
    {
      Rx(rx[..rxSize], Receiver(transactionId, lastReceived, epoch, log))
    }

    ghost function Sending(): Sender
      reads this
    {
      Sender(transactionId, sendSequence, sent, attempts)
    }

    constructor (accepts: nat -> bool)
      ensures Valid() && fresh(rx) && fresh(tx) && this.accepts == accepts
      ensures Receiving() == Rx([], Receiver(ZERO_ID, 0, 0, []))
      ensures Sending() == Sender(ZERO_ID, 0, [], 0)
    {
      rx, tx := new byte[MAX_FRAME](_ => 0), new byte[MAX_FRAME](_ => 0);
      rxSize, transactionId, sendSequence, lastReceived := 0, ZERO_ID, 0, 0;
      sent, attempts := [], 0;
      this.accepts := accepts;
      epoch, log := 0, [];
    }

    method SetTransaction(id: TxId)
      requires Valid()
      modifies this`transactionId, this`sendSequence, this`lastReceived, this`epoch
      ensures Valid()
      ensures Receiving() == old(Receiving()).(receiver := FirmwareModel.SetTransaction(old(Receiving()).receiver, id))
      ensures Sending() == old(Sending()).(id := id, sequence := 0)
    {
      transactionId := id;
      sendSequence := 0;
      lastReceived := 0;
      epoch := epoch + 1;
    }

    /** `std::move` of the tail to the front. */
    method DiscardPrefix(count: nat)
      requires Valid() && count <= rxSize
      modifies this`rxSize, rx
      ensures Valid() && rxSize == old(rxSize) - count
      ensures rx[..rxSize] == old(rx[count..rxSize])
    {
      for i := count to rxSize
        invariant rxSize == old(rxSize)
        invariant forall k | 0 <= k < i - count :: rx[k] == old(rx[k + count])
        invariant forall k | i - count <= k < rx.Length :: rx[k] == old(rx[k])
      {
        rx[i - count] := rx[i];
      }
      rxSize := rxSize - count;
    }

    method FillBody(code: byte, payload: seq<byte>) returns (bodySize: nat)
      requires Valid() && |payload| <= MAX_PAYLOAD
      modifies tx
      ensures bodySize == HEADER_SIZE + |payload|
      ensures tx[..bodySize] == Header(code, transactionId, sendSequence, |payload|) + payload
    {
      hide Write32, Write16;
      CopyInto(tx, 0, MAGIC);
      CopyInto(tx, 4, [VERSION, code]);
      CopyInto(tx, 6, Write16(0));
      CopyInto(tx, 8, Write32(|payload|));
      CopyInto(tx, 12, transactionId);
      CopyInto(tx, 28, Write32(sendSequence));
      CopyInto(tx, HEADER_SIZE, payload);
      bodySize := HEADER_SIZE + |payload|;
    }

    /** Hand the first `total` bytes of the send buffer to the transport, 64 at a time. */
    method SendPieces(total: nat) returns (ok: bool)
      requires Valid() && total <= MAX_FRAME
      modifies this`sent, this`attempts
      ensures Sent(Sending(), ok) == Push(old(Sending()), Serial.Split(tx[..total]), accepts)
    {
      hide Serial.Split;
      ghost var frame := tx[..total];
      var offset := 0;
      assert frame[0..] == frame;
      while offset < total
        invariant 0 <= offset <= total
        invariant Push(old(Sending()), Serial.Split(frame), accepts) ==
          Push(Sending(), Serial.Split(frame[offset..]), accepts)
      {
        var count := if total - offset < 64 then total - offset else 64;
        var piece := tx[offset..offset + count];
        Serial.SplitCons(frame, offset, count);
        assert piece == frame[offset..offset + count];
        attempts := attempts + 1;
        if !accepts(attempts - 1) {
          return false;
        }
        sent := sent + [piece];
        offset := offset + count;
      }
      assert frame[offset..] == [];
      Serial.SplitNothing();
      return true;
    }

    /** The frame is built in place and leaves in pieces of at most 64 bytes. */
    method Send(code: byte, payload: seq<byte>) returns (ok: bool)
      requires Valid()
      modifies this`sendSequence, this`sent, this`attempts, tx
      ensures Sent(Sending(), ok) == FirmwareModel.Send(old(Sending()), code, payload, accepts)
    {
      hide Crc32, Push, Serial.Split, Header;
      if |payload| > MAX_PAYLOAD {
        return false;
      }
      sendSequence := NextSequence(sendSequence);
      var bodySize := FillBody(code, payload);
      var crc := ComputeCrc32(tx[..bodySize]);
      CopyInto(tx, bodySize, WriteWord(crc));
      ok := SendPieces(bodySize + CRC_SIZE);
    }

    /** The checks of one round of the loop, in the order of the source. */
    method Inspect() returns (t: Turn)
      requires Valid()
      ensures t == TurnOf(rx[..rxSize], transactionId, lastReceived)
    {
      hide Crc32, Read32, Read16, ReadWord;
      var b := rx[..rxSize];
      if rxSize < 4 {
        return Hold;
      }
      if b[..4] != MAGIC {
        return Skip(1);
      }
      if rxSize < HEADER_SIZE {
        return Hold;
      }
      var payloadSize := Read32(b, 8);
      if b[4] != VERSION || Read16(b, 6) != 0 || payloadSize > MAX_PAYLOAD {
        return Skip(4);
      }
      var bodySize := HEADER_SIZE + payloadSize;
      var frameSize := bodySize + CRC_SIZE;
      if rxSize < frameSize {
        return Hold;
      }
      var crc := ComputeCrc32(b[..bodySize]);
      if crc != ReadWord(b, bodySize) {
        return Skip(4);
      }
      var sequence := Read32(b, 28);
      if b[12..28] != transactionId || sequence <= lastReceived {
        return Stale(frameSize);
      }
      return Accept(ParsedFrame(b[5], b[12..28], sequence, b[HEADER_SIZE..bodySize]), frameSize);
    }

    /** `consume`: parse, hand over, discard, until the buffer holds no complete frame. */
    method Consume(context: TradeBridge)
      requires Valid() && context.codec == this
      modifies this`rxSize, this`transactionId, this`sendSequence, this`lastReceived, this`sent, this`attempts
      modifies this`epoch, this`log, rx, tx, context
      ensures Valid() && context.codec == this
      ensures Receiving() == FirmwareModel.Consume(old(Receiving()), HelloReaction)
      ensures context.State() == HandleAll(old(context.State()), NewFrames(old(log), log), context.sha, accepts)
    {
      hide TurnOf, FirmwareModel.Handle, HandleAll, Delivered, FirmwareModel.Receive, Discard;
      ghost var goal := FirmwareModel.Consume(Receiving(), HelloReaction);
      ghost var arrived: seq<ParsedFrame> := [];
      NoNewFrames(log);
      HandleNone(context.State(), context.sha, accepts);
      while true
        invariant Valid() && context.codec == this
        invariant FirmwareModel.Consume(Receiving(), HelloReaction) == goal
        invariant Delivered(log) == Delivered(old(log)) + arrived
        invariant context.State() == HandleAll(old(context.State()), arrived, context.sha, accepts)
        decreases rxSize
      {
        var turn := Inspect();
        match turn {
          case Hold =>
            NewFramesAre(old(log), log, arrived);
            return;
          case Skip(count) =>
            SkipDelivers(log, rx[..rxSize][..count]);
            Skipped(count);
          case Stale(count) =>
            SkipDelivers(log, rx[..rxSize][..count]);
            Skipped(count);
          case Accept(frame, count) =>
            Accepted(context, frame, count);
            HandleMore(old(context.State()), arrived, frame, context.sha, accepts);
            arrived := arrived + [frame];
        }
      }
    }

    /** Note the sequence, call the callback, then drop the frame. */
    method Accepted(context: TradeBridge, frame: ParsedFrame, count: nat)
      requires Valid() && context.codec == this && count <= rxSize && frame.transactionId == transactionId
      modifies this`rxSize, this`transactionId, this`sendSequence, this`lastReceived, this`sent, this`attempts
      modifies this`epoch, this`log, rx, tx, context
      ensures Valid() && rxSize == old(rxSize) - count
      ensures Receiving() ==
        Rx(old(Receiving()).buffer[count..], FirmwareModel.Receive(old(Receiving()).receiver, frame, HelloReaction))
      ensures Delivered(log) == Delivered(old(log)) + [frame]
      ensures context.State() == FirmwareModel.Handle(old(context.State()), frame, context.sha, accepts)
    {
      hide FirmwareModel.Handle;
      lastReceived := frame.sequence;
      log := log + [Taken(frame, epoch)];
      assert log[..|log| - 1] == old(log);
      assert rx[..rxSize][count..] == rx[count..rxSize];
      context.Handle(frame);
      DiscardPrefix(count);
    }

    method Feed(bytes: seq<byte>, context: TradeBridge)
      requires Valid() && context.codec == this
      modifies this, rx, tx, context
      ensures Valid() && context.codec == this
      ensures |old(Receiving()).buffer| <= MAX_FRAME
      ensures Receiving() == FirmwareModel.Feed(old(Receiving()), bytes, HelloReaction)
      ensures context.State() == HandleAll(old(context.State()), NewFrames(old(log), log), context.sha, accepts)
    {
      hide FirmwareModel.Consume;
      ghost var before := log;
      if |bytes| > MAX_FRAME - rxSize {
        log := log + [Junk(rx[..rxSize] + bytes)];
        rxSize := 0;
        JunkDelivers(before, log);
        return;
      }
      CopyInto(rx, rxSize, bytes);
      rxSize := rxSize + |bytes|;
      Consume(context);
    }

    /** Drop the first `count` bytes and note them in the log. */
    method Skipped(count: nat)
      requires Valid() && count <= rxSize
      modifies this`rxSize, this`log, rx
      ensures Valid() && rxSize == old(rxSize) - count && log == old(log) + [Junk(old(rx[..rxSize])[..count])]
      ensures Receiving() ==
        Rx(old(Receiving()).buffer[count..], Discard(old(Receiving()).receiver, old(Receiving()).buffer[..count]))
    {
      log := log + [Junk(rx[..count])];
      assert rx[..rxSize][..count] == rx[..count] && rx[..rxSize][count..] == rx[count..rxSize];
      DiscardPrefix(count);
    }
  }

  lemma NewFramesAre(before: seq<Segment>, after: seq<Segment>, arrived: seq<ParsedFrame>)
    requires Delivered(after) == Delivered(before) + arrived
    ensures NewFrames(before, after) == arrived
  {}

  lemma HandleNone(b: Bridge, sha: Mon -> Digest, accepts: nat -> bool)
    ensures HandleAll(b, [], sha, accepts) == b
  {}

  lemma HandleMore(b: Bridge, fs: seq<ParsedFrame>, f: ParsedFrame, sha: Mon -> Digest, accepts: nat -> bool)
    ensures HandleAll(b, fs + [f], sha, accepts) ==
      FirmwareModel.Handle(HandleAll(b, fs, sha, accepts), f, sha, accepts)
  {
    assert (fs + [f])[..|fs|] == fs;
  }

  lemma SkipDelivers(log: seq<Segment>, bytes: seq<byte>)
    ensures Delivered(log + [Junk(bytes)]) == Delivered(log)
  {
    assert (log + [Junk(bytes)])[..|log|] == log;
  }

  lemma JunkDelivers(before: seq<Segment>, after: seq<Segment>)
    requires |after| == |before| + 1 && before == after[..|before|] && after[|before|].Junk?
    ensures Delivered(after) == Delivered(before) && NewFrames(before, after) == []
  {}

  lemma NoNewFrames(log: seq<Segment>)
    ensures Delivered(log) + [] == Delivered(log)
  {}

  ghost function NewFrames(before: seq<Segment>, after: seq<Segment>): seq<ParsedFrame>
  {
    if |Delivered(before)| <= |Delivered(after)| then Delivered(after)[|Delivered(before)|..] else []
  }

  class TradeBridge {
    const codec: Codec
    const sha: Mon -> Digest
    var offer: Mon
    var selected: Mon
    var offerSlot: byte
    var partnerSlot: byte
    var offerReady: bool

    constructor (accepts: nat -> bool, sha: Mon -> Digest)
      ensures fresh(codec) && fresh(codec.rx) && fresh(codec.tx) && codec.Valid()
      ensures codec.accepts == accepts && this.sha == sha
      ensures codec.Receiving() == Rx([], Receiver(ZERO_ID, 0, 0, []))
      ensures State() == Bridge(Sender(ZERO_ID, 0, [], 0), ZERO_MON, ZERO_MON, 0, 0, false)
    {
      codec := new Codec(accepts);
      this.sha := sha;
      offer, selected := ZERO_MON, ZERO_MON;
      offerSlot, partnerSlot, offerReady := 0, 0, false;
    }

    ghost function State(): Bridge
      reads this, codec
    {
      Bridge(codec.Sending(), offer, selected, offerSlot, partnerSlot, offerReady)
    }

    method Handle(frame: ParsedFrame)
      requires codec.Valid()
      modifies this
      modifies codec`transactionId, codec`sendSequence, codec`lastReceived, codec`sent, codec`attempts
      modifies codec`epoch, codec.tx
      ensures codec.Valid()
      ensures State() == FirmwareModel.Handle(old(State()), frame, sha, codec.accepts)
      ensures codec.rxSize == old(codec.rxSize) && codec.log == old(codec.log)
      ensures frame.code == Code(Hello) ==>
        codec.transactionId == frame.transactionId && codec.lastReceived == 0 && codec.epoch == old(codec.epoch) + 1
      ensures frame.code != Code(Hello) ==>
        && codec.transactionId == old(codec.transactionId) && codec.lastReceived == old(codec.lastReceived)
        && codec.epoch == old(codec.epoch)
    {
      hide FirmwareModel.Send;
      if frame.code == Code(Hello) {
        codec.SetTransaction(frame.transactionId);
        var _ := codec.Send(Code(Hello), []);
        return;
      }
      if frame.code == Code(GetCapabilities) {
        var _ := codec.Send(Code(Capabilities), [0x3f, 0, 0, 0]);
        return;
      }
      if frame.code == Code(SetOfferMon) {
        if |frame.payload| != 101 || frame.payload[0] > 5 {
          SendError(1);
          return;
        }
        offerSlot := frame.payload[0];
        offer := frame.payload[1..];
        offerReady := true;
        var hash := sha(offer);
        var _ := codec.Send(Code(OfferReady), [offerSlot] + hash);
        return;
      }
      if frame.code == Code(AbortIfSafe) {
        SendError(2);
        return;
      }
      SendError(3);
    }

    method SendError(code: nat)
      requires codec.Valid()
      modifies codec`sendSequence, codec`sent, codec`attempts, codec.tx
      ensures State() == EmitError(old(State()), code, codec.accepts)
    {
      hide FirmwareModel.Send;
      var _ := codec.Send(Code(Error), Write16(code));
    }

    method ReceiveData(bytes: seq<byte>)
      requires codec.Valid()
      modifies this, codec, codec.rx, codec.tx
      ensures codec.Valid()
      ensures |old(codec.Receiving()).buffer| <= MAX_FRAME
      ensures codec.Receiving() == FirmwareModel.Feed(old(codec.Receiving()), bytes, HelloReaction)
      ensures State() == HandleAll(old(State()), NewFrames(old(codec.log), codec.log), sha, codec.accepts)
    {
      codec.Feed(bytes, this);
    }

    method SessionStarted()
      requires codec.Valid()
      modifies codec`sendSequence, codec`sent, codec`attempts, codec.tx
      ensures State() == Emit(old(State()), TradeSessionStarted, [], codec.accepts)
    {
      hide FirmwareModel.Send;
      var _ := codec.Send(Code(TradeSessionStarted), []);
    }

    method PartnerPartyReady(party: seq<byte>)
      requires codec.Valid() && |party| == 600
      modifies codec`sendSequence, codec`sent, codec`attempts, codec.tx
      ensures State() == Emit(old(State()), PartnerParty, party, codec.accepts)
    {
      hide FirmwareModel.Send;
      var _ := codec.Send(Code(PartnerParty), party);
    }

    method Select(party: seq<byte>, slot: byte) returns (mine: byte)
      requires codec.Valid() && |party| == 600
      modifies this, codec`sendSequence, codec`sent, codec`attempts, codec.tx
      ensures State() == FirmwareModel.Select(old(State()), party, slot, codec.accepts)
      ensures mine == if old(offerReady) && slot <= 5 then old(offerSlot) else 0
    {
      hide FirmwareModel.Send;
      if !offerReady || slot > 5 {
        SendError(4);
        return 0;
      }
      partnerSlot := slot;
      selected := party[slot as int * 100..(slot as int + 1) * 100];
      var _ := codec.Send(Code(PartnerSelectedSlot), [slot]);
      var _ := codec.Send(Code(PartnerSelectedMon), selected);
      return offerSlot;
    }

    method Committed()
      requires codec.Valid()
      modifies codec`sendSequence, codec`sent, codec`attempts, codec.tx
      ensures State() == Emit(old(State()), TradeCommitted, CommitPayload(sha(offer), sha(selected)), codec.accepts)
    {
      hide FirmwareModel.Send;
      var offerHash, selectedHash := sha(offer), sha(selected);
      var _ := codec.Send(Code(TradeCommitted), CommitPayload(offerHash, selectedHash));
    }

    method LinkClosed()
      requires codec.Valid()
      modifies codec`sendSequence, codec`sent, codec`attempts, codec.tx
      ensures State() == Emit(old(State()), TradeLinkClosed, [0], codec.accepts)
    {
      hide FirmwareModel.Send;
      var _ := codec.Send(Code(TradeLinkClosed), [0]);
    }
  }
}
