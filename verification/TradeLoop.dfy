/** One trade around the whole loop: the host's offer to the firmware, and the events back through the transport. */
module TradeLoop {
  import opened Bytes
  import opened Protocol
  import opened FrameTheory
  import opened Pokemon
  import opened FirmwareModel
  import opened FirmwareTheory
  import opened Firmware
  import opened GbLink
  import opened ScriptTheory
  import opened BridgeTheory
  import Search
  import Serial
  import S = SerialTheory

  // ---- The offer on its way to the bridge

  /** Chunk by chunk, every frame that is handed over is answered. */
  ghost function Serve(b: Bridge, rx: Rx, chunks: seq<seq<byte>>, sha: Mon -> Digest, accepts: nat -> bool): Bridge
    requires |rx.buffer| < MAX_FRAME
    decreases |chunks|
  {
    if chunks == [] then b
    else
      var next := Feed(rx, chunks[0], HelloReaction);
      var arrived := NewFrames(rx.receiver.log, next.receiver.log);
      Serve(HandleAll(b, arrived, sha, accepts), next, chunks[1..], sha, accepts)
  }

  lemma ServeNothing(b: Bridge, sha: Mon -> Digest, accepts: nat -> bool)
    ensures HandleAll(b, [], sha, accepts) == b
  {}

  lemma ServeFrame(b: Bridge, f: ParsedFrame, sha: Mon -> Digest, accepts: nat -> bool)
    ensures HandleAll(b, [f], sha, accepts) == Handle(b, f, sha, accepts)
  {
    hide Handle;
    assert [f][..0] == [];
  }

  /** What one more piece of a frame does: nothing before the last byte, then the whole frame is there. */
  lemma PieceFed(f: Frame, k: nat, c: seq<byte>, tail: seq<byte>, r: Receiver)
    requires k < |Encode(f)| && c + tail == Encode(f)[k..]
    requires f.transactionId == r.id && f.sequence > r.last && f.messageType != Hello
    ensures var next := Feed(Rx(Encode(f)[..k], r), c, HelloReaction);
      && (tail != [] ==>
            next == Rx(Encode(f)[..k + |c|], r) && tail == Encode(f)[k + |c|..] && k + |c| < |Encode(f)|
            && NewFrames(r.log, next.receiver.log) == [])
      && (tail == [] ==> next.buffer == [] && NewFrames(r.log, next.receiver.log) == [Parse(f)])
  {
    var e := Encode(f);
    var rx := Rx(e[..k], r);
    assert [c][1..] == [] && Flatten([c]) == c + Flatten([]) == c;
    assert FeedChunks(rx, [c], HelloReaction) == Feed(rx, c, HelloReaction);
    hide Encode, Feed, FeedChunks, NoOverflow, Flatten;
    assert c == e[k..][..|c|] == e[k..k + |c|] && tail == e[k..][|c|..] == e[k + |c|..];
    if tail == [] {
      assert c == e[k..];
      FrameInPieces(f, k, [c], r, HelloReaction);
      TakenIsNew(r.log, Taken(Parse(f), r.epoch));
    } else {
      FramePartly(f, k, [c], r, HelloReaction);
      assert Delivered(r.log)[|Delivered(r.log)|..] == [];
    }
  }

  lemma TakenIsNew(log: seq<Segment>, s: Segment)
    requires s.Taken?
    ensures NewFrames(log, log + [s]) == [s.frame]
  {
    assert (log + [s])[..|log|] == log;
  }

  lemma {:induction false} ServeEmpty(b: Bridge, r: Receiver, chunks: seq<seq<byte>>, sha: Mon -> Digest,
                                      accepts: nat -> bool)
    requires Flatten(chunks) == []
    ensures Serve(b, Rx([], r), chunks, sha, accepts) == b
    decreases |chunks|
  {
    hide Consume, Handle;
    if chunks != [] {
      assert chunks[0] == [] && Flatten(chunks[1..]) == [];
      ConsumeEmpty(r, HelloReaction);
      assert Feed(Rx([], r), chunks[0], HelloReaction) == Rx([], r);
      assert Delivered(r.log)[|Delivered(r.log)|..] == [];
      ServeEmpty(b, r, chunks[1..], sha, accepts);
    }
  }

  /** A fresh command of the active transaction, in any pieces, is answered exactly once. */
  lemma {:induction false} ServeOne(b: Bridge, f: Frame, k: nat, chunks: seq<seq<byte>>, r: Receiver,
                                    sha: Mon -> Digest, accepts: nat -> bool)
    requires k < |Encode(f)| && Flatten(chunks) == Encode(f)[k..]
    requires f.transactionId == r.id && f.sequence > r.last && f.messageType != Hello
    ensures Serve(b, Rx(Encode(f)[..k], r), chunks, sha, accepts) == Handle(b, Parse(f), sha, accepts)
    decreases |chunks|
  {
    hide Handle, Feed, Encode, HandleAll, NewFrames;
    assert Encode(f)[k..] != [];
    var c, tail := chunks[0], Flatten(chunks[1..]);
    PieceFed(f, k, c, tail, r);
    ServeNothing(b, sha, accepts);
    ServeFrame(b, Parse(f), sha, accepts);
    if tail == [] {
      var next := Feed(Rx(Encode(f)[..k], r), c, HelloReaction);
      ServeEmpty(Handle(b, Parse(f), sha, accepts), next.receiver, chunks[1..], sha, accepts);
    } else {
      ServeOne(b, f, k + |c|, chunks[1..], r, sha, accepts);
    }
  }

  /** The host's offer frame, in any pieces, starts exactly the trade it announces. */
  lemma OfferArrives(b: Bridge, r: Receiver, chunks: seq<seq<byte>>, sequence: u32, offerSlot: byte, offer: Mon,
                     party: seq<byte>, slot: byte, sha: Mon -> Digest, accepts: nat -> bool)
    requires |party| == 600 && b.sender.id == r.id && sequence > r.last
    requires Flatten(chunks) == Encode(OfferFrame(r.id, sequence, offerSlot, offer))
    ensures AfterOffer(Serve(b, Rx([], r), chunks, sha, accepts), party, slot, sha, accepts)
         == TradeRun(b, offerSlot, offer, sequence, party, slot, sha, accepts)
  {
    var f := OfferFrame(r.id, sequence, offerSlot, offer);
    hide Serve, AfterOffer, Handle, Encode;
    assert Encode(f)[0..] == Encode(f) && Encode(f)[..0] == [];
    ServeOne(b, f, 0, chunks, r, sha, accepts);
  }

  /** One trade on a real bridge: the pieces of the offer arrive, then the callbacks of the trade follow. */
  method OneTrade(bridge: TradeBridge, chunks: seq<seq<byte>>, party: seq<byte>, slot: byte)
    requires bridge.codec.Valid() && bridge.codec.rxSize == 0 && |party| == 600
    modifies bridge, bridge.codec, bridge.codec.rx, bridge.codec.tx
    ensures bridge.codec.Valid()
    ensures |old(bridge.codec.Receiving()).buffer| == 0
    ensures var b, rx := old(bridge.State()), old(bridge.codec.Receiving());
      var sha, accepts := bridge.sha, bridge.codec.accepts;
      bridge.State() == AfterOffer(Serve(b, rx, chunks, sha, accepts), party, slot, sha, accepts)
  {
    hide Feed, HandleAll, NewFrames, Emit, Select, CommitPayload;
    ghost var goal := Serve(bridge.State(), bridge.codec.Receiving(), chunks, bridge.sha, bridge.codec.accepts);
    var i := 0;
    assert chunks[0..] == chunks;
    while i < |chunks|
      invariant 0 <= i <= |chunks| && bridge.codec.Valid() && |bridge.codec.Receiving().buffer| < MAX_FRAME
      invariant Serve(bridge.State(), bridge.codec.Receiving(), chunks[i..], bridge.sha, bridge.codec.accepts) == goal
    {
      assert chunks[i..][0] == chunks[i] && chunks[i..][1..] == chunks[i + 1..];
      bridge.ReceiveData(chunks[i]);
      i := i + 1;
    }
    bridge.SessionStarted();
    bridge.PartnerPartyReady(party);
    var _ := bridge.Select(party, slot);
    bridge.Committed();
    bridge.LinkClosed();
  }

  // ---- The events on their way back

  /** What the reads of a schedule bring: an arrival that raises ends its read with an exception. */
  function Tape(p: S.Pipe, ops: seq<S.Op>): seq<Tick>
    decreases |ops|
  {
    if ops == [] then [] else Brought(p, ops[0]) + Tape(S.Act(p, ops[0]), ops[1..])
  }

  function Brought(p: S.Pipe, op: S.Op): seq<Tick>
  {
    match op
    case Arrive(bytes) => if Serial.OuterDrain(p.outer + bytes).error.Some? then [Fault] else []
    case Take(size) => [Read(p.data[..if |p.data| <= size then |p.data| else size])]
  }

  /** The data bytes that reads have not brought yet. */
  function Unread(p: S.Pipe, coming: seq<byte>): seq<byte>
  {
    p.data + S.DataOf(p.outer + coming)
  }

  lemma BroughtBytes(p: S.Pipe, op: S.Op, coming: seq<byte>)
    ensures TapeBytes(Brought(p, op)) + Unread(S.Act(p, op), coming) == Unread(p, S.Arrived(op) + coming)
  {
    hide Drain, Serial.OuterDrain, S.DataOf, S.FeedReader;
    match op {
      case Arrive(bytes) => ArriveBrings(p, bytes, coming);
      case Take(size) =>
        TakeBrings(p, size);
        assert [] + coming == coming;
    }
  }

  lemma ArriveBrings(p: S.Pipe, bytes: seq<byte>, coming: seq<byte>)
    ensures TapeBytes(Brought(p, S.Arrive(bytes))) == []
    ensures Unread(S.Act(p, S.Arrive(bytes)), coming) == Unread(p, bytes + coming)
  {
    hide Serial.OuterDrain, S.DataOf, S.Count, S.Faults, S.OuterLeftover;
    S.ArrivalConserves(p.outer, bytes, coming);
    var d := Serial.OuterDrain(p.outer + bytes);
    assert p.outer + (bytes + coming) == p.outer + bytes + coming;
    assert p.data + (d.data + S.DataOf(d.rest + coming)) == p.data + d.data + S.DataOf(d.rest + coming);
  }

  lemma TakeBrings(p: S.Pipe, size: nat)
    ensures TapeBytes(Brought(p, S.Take(size))) + S.Act(p, S.Take(size)).data == p.data
    ensures S.Act(p, S.Take(size)).outer == p.outer
  {
    hide Drain, FeedEvents;
    var n := if |p.data| <= size then |p.data| else size;
    assert p.data == p.data[..n] + p.data[n..];
    OneRead(p.data[..n]);
  }

  lemma OneRead(bytes: seq<byte>)
    ensures TapeBytes([Read(bytes)]) == bytes
  {
    assert [Read(bytes)][1..] == [];
    assert bytes + TapeBytes([]) == bytes;
  }

  /** Under any schedule the reads bring the data bytes of the wire, each once and in order. */
  lemma {:induction false} TapeBrings(p: S.Pipe, ops: seq<S.Op>, coming: seq<byte>)
    ensures TapeBytes(Tape(p, ops)) + Unread(S.Run(p, ops), coming) == Unread(p, S.Arrivals(ops) + coming)
    decreases |ops|
  {
    hide Unread, S.Act, Brought, TapeBytes;
    if ops == [] {
      NothingBrought(Unread(p, coming));
      assert [] + coming == coming;
    } else {
      var next := S.Act(p, ops[0]);
      TapeBrings(next, ops[1..], coming);
      BroughtBytes(p, ops[0], S.Arrivals(ops[1..]) + coming);
      TapeBytesConcat(Brought(p, ops[0]), Tape(next, ops[1..]));
      Regroup(S.Arrived(ops[0]), S.Arrivals(ops[1..]), coming);
      Regroup(TapeBytes(Brought(p, ops[0])), TapeBytes(Tape(next, ops[1..])), Unread(S.Run(p, ops), coming));
    }
  }

  lemma Regroup(a: seq<byte>, b: seq<byte>, c: seq<byte>)
    ensures a + b + c == a + (b + c)
  {}

  lemma NothingBrought(bytes: seq<byte>)
    ensures TapeBytes([]) + bytes == bytes
  {}

  lemma BroughtTimely(p: S.Pipe, op: S.Op)
    ensures S.Act(p, op).faults >= p.faults
    ensures S.Act(p, op).faults == p.faults ==> Timely(Brought(p, op))
  {
    hide Drain, Serial.OuterDrain, FeedEvents;
  }

  /** No read raises when no arrival does. */
  lemma {:induction false} TapeTimely(p: S.Pipe, ops: seq<S.Op>)
    ensures S.Run(p, ops).faults >= p.faults
    ensures S.Run(p, ops).faults == p.faults ==> Timely(Tape(p, ops))
    decreases |ops|
  {
    hide S.Act, Brought;
    if ops != [] {
      BroughtTimely(p, ops[0]);
      TapeTimely(S.Act(p, ops[0]), ops[1..]);
    }
  }

  /** A well-formed wire, all of it read in time: its data bytes, and no exception. */
  lemma WireHeard(items: seq<S.Item>, ops: seq<S.Op>)
    requires S.WellFormed(items) && S.Arrivals(ops) == S.Wire(items) && S.Run(S.EMPTY_PIPE, ops).data == []
    ensures var tape := Tape(S.EMPTY_PIPE, ops); Timely(tape) && TapeBytes(tape) == S.Payloads(items)
  {
    hide S.DataOf, S.OuterLeftover, S.Faults, S.Run, S.OuterSettled, Timely, Tape, TapeBytes;
    var p, wire := S.Run(S.EMPTY_PIPE, ops), S.Wire(items);
    assert [] + (S.Arrivals(ops) + []) == wire && wire + [] == wire && [] + S.Payloads(items) == S.Payloads(items);
    S.WireDecodes(items);
    S.FaultsOfRun(S.EMPTY_PIPE, ops, []);
    TapeBrings(S.EMPTY_PIPE, ops, []);
    TapeTimely(S.EMPTY_PIPE, ops);
    S.EmptyQuiet();
    S.RunQuiet(S.EMPTY_PIPE, ops);
    assert p.outer + [] == p.outer;
    S.OuterSettledEmpty(p.outer);
    assert TapeBytes(Tape(S.EMPTY_PIPE, ops)) + [] == TapeBytes(Tape(S.EMPTY_PIPE, ops));
  }

  // ---- The loop

  /**
   The loop closes. The host's offer frame reaches the bridge in any pieces; the bridge goes through one
   trade with any party and slot; what it sends travels in well-formed packets, with any command and
   status packets between them, arriving in any pieces and read in any sizes, all in time. Then the host
   returns exactly that trade, if and only if it could send the offer and no read completed two frames.
   */
  lemma LoopCloses(b: Bridge, r: Receiver, chunks: seq<seq<byte>>, offerSlot: byte, offer: Mon, party: seq<byte>,
                   slot: byte, sha: Mon -> Digest, accepts: nat -> bool, items: seq<S.Item>, ops: seq<S.Op>,
                   last: map<TxId, u32>, connected: bool, counter: nat, taken: nat)
    requires |party| == 600 && offerSlot <= 5 && slot <= 5
    requires b.sender.id == r.id && r.last <= counter < 0xFFFF_FFFF
    requires b.sender.sequence + 7 <= 0xFFFF_FFFF && Willing(accepts)
    requires r.id in last ==> last[r.id] <= b.sender.sequence
    requires Flatten(chunks) == Encode(OfferFrame(r.id, counter + 1, offerSlot, offer))
    requires var end := AfterOffer(Serve(b, Rx([], r), chunks, sha, accepts), party, slot, sha, accepts);
      Flatten(end.sender.sent) == Flatten(b.sender.sent) + S.Payloads(items)
    requires S.WellFormed(items) && S.Arrivals(ops) == S.Wire(items) && S.Run(S.EMPTY_PIPE, ops).data == []
    ensures var ear := Ear([], last, Tape(S.EMPTY_PIPE, ops));
      var trade := GbaTradeResult(offer, PartySlice(party, slot), true, slot, true);
      TradeOutcome(connected, counter, taken, ear, r.id, offerSlot, offer, sha).result == Ok(trade) <==>
        connected && !HoldsMail(offer) && taken >= OFFER_FRAME_SIZE && OnePerRead([], ear.tape)
  {
    hide *;
    OfferArrives(b, r, chunks, counter + 1, offerSlot, offer, party, slot, sha, accepts);
    WireHeard(items, ops);
    EventScriptComplete(b, offerSlot, offer, counter + 1, party, slot, sha, accepts,
                        Ear([], last, Tape(S.EMPTY_PIPE, ops)), S.Payloads(items), connected, counter, taken);
  }

  // ---- A schedule on which it always returns

  /** Packet by packet: each arrives alone and is read at once. */
  function Stepwise(chunks: seq<seq<byte>>): seq<S.Op>
  {
    if chunks == [] then []
    else [S.Arrive(Serial.Wrap(Serial.CHANNEL_DATA, chunks[0])), S.Take(512)] + Stepwise(chunks[1..])
  }

  predicate Idle(p: S.Pipe)
  {
    p.outer == [] && p.data == []
  }

  lemma PacketArrives(p: S.Pipe, c: seq<byte>)
    requires Idle(p) && |c| <= Serial.MAX_OUTER_PAYLOAD
    ensures var op := S.Arrive(Serial.Wrap(Serial.CHANNEL_DATA, c)); var q := S.Act(p, op);
      q.outer == [] && q.data == c && Brought(p, op) == []
  {
    var wire := Serial.Wrap(Serial.CHANNEL_DATA, c);
    S.WrapDecodes(Serial.CHANNEL_DATA, c, []);
    Search.FindNone([], Serial.SYNC);
    hide Serial.Wrap, Serial.OuterDecode, Search.Find;
    assert [] + wire == wire && wire + [] == wire && c + [] == c;
    NothingToDrain();
  }

  lemma NothingToDrain()
    ensures Serial.OuterDrain([]) == Serial.OuterDrained([], [], None)
  {
    Search.FindNone([], Serial.SYNC);
  }

  lemma PacketRead(p: S.Pipe)
    requires p.outer == [] && |p.data| <= 512
    ensures Idle(S.Act(p, S.Take(512))) && Brought(p, S.Take(512)) == [Read(p.data)]
  {
    hide Drain, FeedEvents;
    assert p.data[..|p.data|] == p.data;
  }

  lemma {:induction false} StepwiseTape(p: S.Pipe, chunks: seq<seq<byte>>)
    requires Idle(p) && forall c | c in chunks :: |c| <= Serial.MAX_OUTER_PAYLOAD
    ensures Tape(p, Stepwise(chunks)) == Reads(chunks) && S.Run(p, Stepwise(chunks)).data == []
    decreases |chunks|
  {
    hide S.Act, Brought, Serial.Wrap, Tape, S.Run, S.Arrivals;
    if chunks == [] {
      NoOps(p);
    } else {
      var c := chunks[0];
      var op := S.Arrive(Serial.Wrap(Serial.CHANNEL_DATA, c));
      var q := S.Act(p, op);
      PacketArrives(p, c);
      PacketRead(q);
      StepwiseTape(S.Act(q, S.Take(512)), chunks[1..]);
      TwoOps(p, op, S.Take(512), Stepwise(chunks[1..]));
      assert [] + ([Read(c)] + Reads(chunks[1..])) == Reads(chunks);
    }
  }

  lemma NoOps(p: S.Pipe)
    ensures Tape(p, []) == [] && S.Run(p, []) == p
  {}

  lemma {:induction false} StepwiseArrivals(chunks: seq<seq<byte>>)
    ensures S.Arrivals(Stepwise(chunks)) == S.Wire(S.Pieces(chunks))
    decreases |chunks|
  {
    hide S.Act, Brought, Serial.Wrap, Tape, S.Run, S.Arrivals, S.Wire, S.Pieces;
    NothingSent();
    if chunks != [] {
      var c, later := chunks[0], Stepwise(chunks[1..]);
      StepwiseArrivals(chunks[1..]);
      TwoOps(S.EMPTY_PIPE, S.Arrive(Serial.Wrap(Serial.CHANNEL_DATA, c)), S.Take(512), later);
      PiecesCons(chunks);
      assert [] + S.Arrivals(later) == S.Arrivals(later);
    }
  }

  lemma NothingSent()
    ensures S.Arrivals([]) == S.Wire(S.Pieces([])) == []
  {}

  lemma PiecesCons(chunks: seq<seq<byte>>)
    requires chunks != []
    ensures S.Wire(S.Pieces(chunks)) == Serial.Wrap(Serial.CHANNEL_DATA, chunks[0]) + S.Wire(S.Pieces(chunks[1..]))
  {
    hide Serial.Wrap;
    assert S.Pieces(chunks)[1..] == S.Pieces(chunks[1..]);
  }

  lemma TwoOps(p: S.Pipe, a: S.Op, b: S.Op, later: seq<S.Op>)
    ensures var q := S.Act(p, a); var ops := [a, b] + later;
      && Tape(p, ops) == Brought(p, a) + (Brought(q, b) + Tape(S.Act(q, b), later))
      && S.Run(p, ops) == S.Run(S.Act(q, b), later)
      && S.Arrivals(ops) == S.Arrived(a) + (S.Arrived(b) + S.Arrivals(later))
  {
    hide S.Act, Brought;
    var ops := [a, b] + later;
    assert ops[1..] == [b] + later && ops[1..][1..] == later;
  }

  /** The pieces of each frame, as either side cuts them. */
  function SplitAll(fs: seq<Frame>): seq<seq<seq<byte>>>
  {
    if fs == [] then [] else [Serial.Split(Encode(fs[0]))] + SplitAll(fs[1..])
  }

  lemma {:induction false} SplitAllCut(fs: seq<Frame>)
    ensures Cut(fs, SplitAll(fs)) && forall c | c in Flatten(SplitAll(fs)) :: |c| <= Serial.MAX_OUTER_PAYLOAD
    decreases |fs|
  {
    hide Encode, Serial.Split;
    if fs != [] {
      SplitAllCut(fs[1..]);
      Serial.SplitFlattens(Encode(fs[0]));
      var cuts := SplitAll(fs);
      assert cuts[1..] == SplitAll(fs[1..]);
      forall i | 0 <= i < |fs|
        ensures Flatten(cuts[i]) == Encode(fs[i])
      {
        if i > 0 {
          assert cuts[i] == SplitAll(fs[1..])[i - 1] && fs[i] == fs[1..][i - 1];
        }
      }
    }
  }

  /**
   So every trade can complete: for every bridge, offer without mail, party and slot there is a wire with
   what the bridge sends, and a schedule of its arrivals and reads, on which the host returns that trade.
   */
  lemma LoopReturns(b: Bridge, r: Receiver, chunks: seq<seq<byte>>, offerSlot: byte, offer: Mon, party: seq<byte>,
                    slot: byte, sha: Mon -> Digest, accepts: nat -> bool, last: map<TxId, u32>, counter: nat)
    returns (items: seq<S.Item>, ops: seq<S.Op>)
    requires |party| == 600 && offerSlot <= 5 && slot <= 5 && !HoldsMail(offer)
    requires b.sender.id == r.id && r.last <= counter < 0xFFFF_FFFF
    requires b.sender.sequence + 7 <= 0xFFFF_FFFF && Willing(accepts)
    requires r.id in last ==> last[r.id] <= b.sender.sequence
    requires Flatten(chunks) == Encode(OfferFrame(r.id, counter + 1, offerSlot, offer))
    ensures var end := AfterOffer(Serve(b, Rx([], r), chunks, sha, accepts), party, slot, sha, accepts);
      Flatten(end.sender.sent) == Flatten(b.sender.sent) + S.Payloads(items)
    ensures S.WellFormed(items) && S.Arrivals(ops) == S.Wire(items) && S.Run(S.EMPTY_PIPE, ops).data == []
    ensures var ear := Ear([], last, Tape(S.EMPTY_PIPE, ops));
      TradeOutcome(true, counter, OFFER_FRAME_SIZE, ear, r.id, offerSlot, offer, sha).result
        == Ok(GbaTradeResult(offer, PartySlice(party, slot), true, slot, true))
  {
    hide *;
    OfferArrives(b, r, chunks, counter + 1, offerSlot, offer, party, slot, sha, accepts);
    var fs := TradeRunEvents(b, offerSlot, offer, counter + 1, party, slot, sha, accepts);
    var cuts := SplitAll(fs);
    SplitAllCut(fs);
    CutStream(fs, cuts);
    CutOnePerRead(fs, cuts);
    items, ops := S.Pieces(Flatten(cuts)), Stepwise(Flatten(cuts));
    S.PiecesWire(Flatten(cuts));
    NothingYet();
    StepwiseTape(S.EMPTY_PIPE, Flatten(cuts));
    StepwiseArrivals(Flatten(cuts));
    LoopCloses(b, r, chunks, offerSlot, offer, party, slot, sha, accepts, items, ops, last, true, counter,
               OFFER_FRAME_SIZE);
  }

  lemma NothingYet()
    ensures Idle(S.EMPTY_PIPE)
  {}
}
