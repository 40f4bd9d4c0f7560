/** The firmware as a sender: what reaches the host, and which handshake can ever start. */
module BridgeTheory {
  import opened Bytes
  import opened Protocol
  import opened FrameTheory
  import opened Pokemon
  import opened FirmwareModel
  import opened FirmwareTheory
  import opened GbLink
  import opened ScriptTheory
  import Serial

  /** The transport takes every piece. */
  ghost predicate Willing(accepts: nat -> bool)
  {
    forall k :: accepts(k)
  }

  // ---- The sender agrees with the host's encoder

  /** The transport takes a prefix of the pieces, all of them exactly when the send succeeds. */
  lemma {:induction false} PushPrefix(s: Sender, pieces: seq<seq<byte>>, accepts: nat -> bool) returns (m: nat)
    ensures var r := Push(s, pieces, accepts);
      && m <= |pieces| && (r.ok <==> m == |pieces|)
      && r.sender.sent == s.sent + pieces[..m] && r.sender.id == s.id && r.sender.sequence == s.sequence
    ensures Willing(accepts) ==> m == |pieces|
    decreases |pieces|
  {
    m := 0;
    assert s.sent + [] == s.sent;
    if pieces != [] && accepts(s.attempts) {
      m := PushPrefix(s.(sent := s.sent + [pieces[0]], attempts := s.attempts + 1), pieces[1..], accepts);
      assert s.sent + [pieces[0]] + pieces[1..][..m] == s.sent + pieces[..m + 1];
      m := m + 1;
    }
  }

  /**
   Whatever the counter, what the firmware sends is the host's own encoding of the same fields, in
   pieces of 1 to 64 bytes, all of them when the send succeeds; the host's decoder gives it back.
   */
  lemma SenderAgreement(s: Sender, t: MessageType, payload: seq<byte>, accepts: nat -> bool) returns (m: nat)
    requires |payload| <= MAX_PAYLOAD
    ensures var f: Frame := RawFrame(t, s.id, NextSequence(s.sequence), payload);
      var pieces, r := Serial.Split(Encode(f)), Send(s, Code(t), payload, accepts);
      && m <= |pieces| && (r.ok <==> m == |pieces|) && r.sender.sent == s.sent + pieces[..m]
      && r.sender.id == s.id && r.sender.sequence == f.sequence
      && (forall c | c in pieces :: 1 <= |c| <= 64)
      && Flatten(pieces) == Encode(f) && Events(Flatten(pieces)) == [Good(f)]
    ensures Willing(accepts) ==> m == |Serial.Split(Encode(RawFrame(t, s.id, NextSequence(s.sequence), payload)))|
  {
    hide Push, Events, EncodeRaw;
    var f: Frame := RawFrame(t, s.id, NextSequence(s.sequence), payload);
    var pieces := Serial.Split(Encode(f));
    Serial.SplitFlattens(Encode(f));
    m := PushPrefix(s.(sequence := f.sequence), pieces, accepts);
    OneEncoded(f);
  }

  /** A payload above 4096 bytes is refused before anything happens, the counter included. */
  lemma OversizedSendsNothing(s: Sender, code: byte, payload: seq<byte>, accepts: nat -> bool)
    ensures |payload| > 4096 <==> Send(s, code, payload, accepts) == Sent(s, false)
  {
    if |payload| <= 4096 {
      var r := Send(s, code, payload, accepts);
      hide EncodeRaw;
      var m := PushPrefix(s.(sequence := NextSequence(s.sequence)),
                          Serial.Split(EncodeRaw(code, s.id, NextSequence(s.sequence), payload)), accepts);
    }
  }

  lemma OneEncoded(f: Frame)
    ensures Events(Encode(f)) == [Good(f)]
  {
    hide Encode, Events;
    CleanStream([f]);
    assert [f][1..] == [] && Encode(f) + [] == Encode(f);
    assert EncodeAll([f]) == Encode(f) + EncodeAll([]);
    assert Goods([f]) == [Good(f)] + Goods([]);
  }

  // ---- Which frames can reach the bridge

  /** A callback that only ever sets the transaction to the one the frame already carries. */
  ghost predicate Echoing(react: Reaction)
  {
    forall seen, f :: react(seen, f) == None || react(seen, f) == Some(f.transactionId)
  }

  ghost predicate OnlyFor(id: TxId, r: Receiver)
  {
    r.id == id && forall s | s in r.log && s.Taken? :: s.frame.transactionId == id
  }

  lemma {:induction false} ConsumeOnlyFor(id: TxId, rx: Rx, react: Reaction)
    requires Echoing(react) && OnlyFor(id, rx.receiver)
    ensures OnlyFor(id, Consume(rx, react).receiver)
    decreases |rx.buffer|
  {
    hide TurnOf;
    var b, r := rx.buffer, rx.receiver;
    var t := TurnOf(b, r.id, r.last);
    if !t.Hold? {
      if t.Accept? {
        AcceptSound(b, r.id, r.last);
      }
      ConsumeOnlyFor(id, Rx(b[t.count..], Apply(r, b, t, react)), react);
    }
  }

  /** Under such a callback a codec serves one transaction for ever. */
  lemma {:induction false} ServesOneTransaction(id: TxId, rx: Rx, chunks: seq<seq<byte>>, react: Reaction)
    requires |rx.buffer| < MAX_FRAME && Echoing(react) && OnlyFor(id, rx.receiver)
    ensures OnlyFor(id, FeedChunks(rx, chunks, react).receiver)
    decreases |chunks|
  {
    hide Consume;
    if chunks != [] {
      if Fits(rx, chunks[0]) {
        ConsumeOnlyFor(id, Rx(rx.buffer + chunks[0], rx.receiver), react);
      }
      ServesOneTransaction(id, Feed(rx, chunks[0], react), chunks[1..], react);
    }
  }

  /**
   The bridge's own callback is such a callback, and a new codec starts with the all-zero id. So a
   new bridge never hands over a frame of any other transaction, HELLO included: no host whose id is
   not all zeros can complete the handshake.
   */
  lemma NewBridgeServesZeroOnly(chunks: seq<seq<byte>>)
    ensures var end := FeedChunks(Rx([], Receiver(ZERO_ID, 0, 0, [])), chunks, HelloReaction);
      OnlyFor(ZERO_ID, end.receiver)
  {
    ServesOneTransaction(ZERO_ID, Rx([], Receiver(ZERO_ID, 0, 0, [])), chunks, HelloReaction);
  }

  lemma PushDelivers(r: Receiver, s: Segment)
    ensures Delivered(r.log + [s]) == Delivered(r.log) + if s.Taken? then [s.frame] else []
  {
    assert (r.log + [s])[..|r.log|] == r.log;
  }

  lemma ConsumeEmpty(r: Receiver, react: Reaction)
    ensures Consume(Rx([], r), react) == Rx([], r)
  {}

  /** Exactly when one arriving frame is handed over: active transaction and newer sequence. */
  lemma HandedOverIff(f: Frame, r: Receiver, react: Reaction)
    ensures Delivered(Consume(Rx(Encode(f), r), react).receiver.log)
      == Delivered(r.log) + (if f.transactionId == r.id && f.sequence > r.last then [Parse(f)] else [])
  {
    hide TurnOf, EncodeRaw, Delivered;
    var e := Encode(f);
    assert e + [] == e && e[..|e|] == e;
    EncodedTurn(Parse(f), [], r.id, r.last);
    var t := TurnOf(e, r.id, r.last);
    var next := Apply(r, e, t, react);
    assert e[t.count..] == [];
    ConsumeEmpty(next, react);
    PushDelivers(r, Taken(Parse(f), r.epoch));
    PushDelivers(r, Junk(e));
  }

  /**
   A HELLO opens a new count: whatever its own sequence, the next command of its transaction is handed
   over from sequence 1 on, and one with sequence 0 never is.
   */
  lemma HelloOpens(f: Frame, g: Frame, r: Receiver)
    requires f.messageType == Hello && g.messageType != Hello
    requires f.transactionId == g.transactionId == r.id && f.sequence > r.last
    ensures Delivered(Consume(Rx(Encode(f) + Encode(g), r), HelloReaction).receiver.log)
      == Delivered(r.log) + [Parse(f)] + (if g.sequence > 0 then [Parse(g)] else [])
  {
    hide TurnOf, EncodeRaw, Delivered;
    var e, tail := Encode(f), Encode(g);
    assert (e + tail)[..|e|] == e && (e + tail)[|e|..] == tail;
    EncodedTurn(Parse(f), tail, r.id, r.last);
    var next := Receive(r, Parse(f), HelloReaction);
    PushDelivers(r, Taken(Parse(f), r.epoch));
    HandedOverIff(g, next, HelloReaction);
  }

  /**
   The send counter wraps: behind sequence 0xFFFF_FFFF the next event has sequence 0, which a host that
   has seen the one before takes for a replay.
   */
  lemma WrappedIsReplayed(b: Bridge, t: MessageType, payload: seq<byte>, accepts: nat -> bool, wanted: set<MessageType>,
                          last: map<TxId, u32>, later: seq<Tick>)
    requires |payload| <= MAX_PAYLOAD && Willing(accepts) && b.sender.sequence == 0xFFFF_FFFF
    requires b.sender.id in last
    ensures var f := RawFrame(t, b.sender.id, 0, payload);
      && Sends(b, Emit(b, t, payload, accepts), f)
      && Listen(Ear([], last, [Read(Encode(f))] + later), b.sender.id, wanted).result
           == Err(LinkError.Protocol(Replayed))
  {
    hide Listen, Hears, Encode, Emit;
    var f := EmitSends(b, t, payload, accepts);
    var bytes := Encode(f);
    FirstRead(bytes, [], last, [f]);
    var ear := Ear([], last, [Read(bytes)] + later);
    var next := FirstDecides(ear, [Read(bytes)] + [], later, b.sender.id, wanted, [f], 0);
  }

  /** The failing handshake: the first HELLO of a host with a non-zero id is dropped unseen, whatever it carries. */
  lemma FirstHelloDropped(id: TxId, sequence: u32, payload: seq<byte>)
    requires id != ZERO_ID && |payload| <= MAX_PAYLOAD
    ensures var rx := Rx(Encode(RawFrame(Hello, id, sequence, payload)), Receiver(ZERO_ID, 0, 0, []));
      Delivered(Consume(rx, HelloReaction).receiver.log) == []
  {
    hide Consume;
    HandedOverIff(RawFrame(Hello, id, sequence, payload), Receiver(ZERO_ID, 0, 0, []), HelloReaction);
  }

  // ---- The event script of one trade

  /** From the accepted offer to the closed link, as the bridge's callbacks are called for one trade. */
  function TradeRun(b: Bridge, offerSlot: byte, offer: Mon, sequence: u32, party: seq<byte>, slot: byte,
                    sha: Mon -> Digest, accepts: nat -> bool): Bridge
    requires |party| == 600
  {
    AfterOffer(Handle(b, ParsedFrame(Code(SetOfferMon), b.sender.id, sequence, [offerSlot] + offer), sha, accepts),
               party, slot, sha, accepts)
  }

  /** The callbacks of a trade from the start of the session on. */
  function AfterOffer(b0: Bridge, party: seq<byte>, slot: byte, sha: Mon -> Digest, accepts: nat -> bool): Bridge
    requires |party| == 600
  {
    var b1 := Emit(b0, TradeSessionStarted, [], accepts);
    var b2 := Emit(b1, PartnerParty, party, accepts);
    var b3 := Select(b2, party, slot, accepts);
    var b4 := Emit(b3, TradeCommitted, CommitPayload(sha(b3.offer), sha(b3.selected)), accepts);
    Emit(b4, TradeLinkClosed, [0], accepts)
  }

  /** One more frame went out whole: the host's encoding of `f`, and nothing else. */
  predicate Sends(b: Bridge, e: Bridge, f: Frame)
  {
    && Flatten(e.sender.sent) == Flatten(b.sender.sent) + Encode(f)
    && e.sender.id == f.transactionId && e.sender.sequence == f.sequence
  }

  lemma EmitSends(b: Bridge, t: MessageType, payload: seq<byte>, accepts: nat -> bool) returns (f: Frame)
    requires |payload| <= MAX_PAYLOAD && Willing(accepts)
    ensures f == RawFrame(t, b.sender.id, NextSequence(b.sender.sequence), payload)
    ensures var e := Emit(b, t, payload, accepts); Sends(b, e, f) && e == b.(sender := e.sender)
  {
    hide Encode, Send, Serial.Split, Events;
    f := RawFrame(t, b.sender.id, NextSequence(b.sender.sequence), payload);
    var m := SenderAgreement(b.sender, t, payload, accepts);
    var pieces := Serial.Split(Encode(f));
    assert pieces[..|pieces|] == pieces;
    FlattenAppend(b.sender.sent, pieces);
  }

  // ---- What each command and each selection is answered with

  /** A HELLO takes up its transaction and is answered as the first frame of it. */
  lemma HelloAnswered(b: Bridge, f: ParsedFrame, sha: Mon -> Digest, accepts: nat -> bool)
    requires f.code == 0x01 && Willing(accepts)
    ensures var e := Handle(b, f, sha, accepts);
      Sends(b, e, RawFrame(Hello, f.transactionId, 1, [])) && e == b.(sender := e.sender)
  {
    hide Encode, Emit;
    var b' := b.(sender := b.sender.(id := f.transactionId, sequence := 0));
    var g := EmitSends(b', Hello, [], accepts);
  }

  /** The capabilities are the six lowest bits of a 32-bit mask. */
  lemma CapabilitiesAnswered(b: Bridge, f: ParsedFrame, sha: Mon -> Digest, accepts: nat -> bool)
    requires f.code == 0x02 && Willing(accepts)
    ensures var e := Handle(b, f, sha, accepts);
      && Sends(b, e, RawFrame(Capabilities, b.sender.id, NextSequence(b.sender.sequence), Write32(63)))
      && e == b.(sender := e.sender)
  {
    hide Encode, Emit;
    assert Write32(63) == [0x3f, 0, 0, 0];
    var g := EmitSends(b, Capabilities, [0x3f, 0, 0, 0], accepts);
  }

  /** A well-formed offer is remembered and confirmed with its slot and digest. */
  lemma OfferAnswered(b: Bridge, f: ParsedFrame, slot: byte, offer: Mon, sha: Mon -> Digest, accepts: nat -> bool)
    requires f.code == 0x20 && f.payload == [slot] + offer && slot <= 5 && Willing(accepts)
    ensures var e := Handle(b, f, sha, accepts);
      && Sends(b, e, RawFrame(OfferReady, b.sender.id, NextSequence(b.sender.sequence), [slot] + sha(offer)))
      && e == b.(sender := e.sender, offerSlot := slot, offer := offer, offerReady := true)
  {
    hide Encode, Emit;
    assert f.payload[1..] == offer;
    var b' := b.(offerSlot := slot, offer := offer, offerReady := true);
    var g := EmitSends(b', OfferReady, [slot] + sha(offer), accepts);
  }

  /** What is refused, and with which error: a malformed offer 1, an abort 2, anything else 3. */
  function Refusal(f: ParsedFrame): Option<byte>
  {
    if f.code == 0x01 || f.code == 0x02 then None
    else if f.code == 0x20 then (if |f.payload| == 101 && f.payload[0] <= 5 then None else Some(1))
    else Some(if f.code == 0x26 then 2 else 3)
  }

  /** A refused command is answered with its error code and changes nothing but the counter. */
  lemma RefusalAnswered(b: Bridge, f: ParsedFrame, sha: Mon -> Digest, accepts: nat -> bool)
    requires Refusal(f).Some? && Willing(accepts)
    ensures var e := Handle(b, f, sha, accepts);
      && Sends(b, e, RawFrame(Error, b.sender.id, NextSequence(b.sender.sequence), [Refusal(f).value, 0]))
      && e == b.(sender := e.sender)
  {
    hide Encode, Emit;
    var code: nat := Refusal(f).value;
    var g := EmitSends(b, Error, Write16(code), accepts);
  }

  /** A selection without an accepted offer, or of no slot, sends error 4 and changes nothing else. */
  lemma SelectRefused(b: Bridge, party: seq<byte>, slot: byte, accepts: nat -> bool)
    requires |party| == 600 && (!b.offerReady || slot > 5) && Willing(accepts)
    ensures var e := Select(b, party, slot, accepts);
      && Sends(b, e, RawFrame(Error, b.sender.id, NextSequence(b.sender.sequence), [4, 0]))
      && e == b.(sender := e.sender)
  {
    hide Encode, Emit;
    var g := EmitSends(b, Error, Write16(4), accepts);
  }

  /** Otherwise it is remembered, and slot and record go out as two frames. */
  lemma SelectSends(b: Bridge, party: seq<byte>, slot: byte, accepts: nat -> bool)
    requires |party| == 600 && b.offerReady && slot <= 5 && Willing(accepts)
    ensures var e, mon := Select(b, party, slot, accepts), PartySlice(party, slot);
      var n := NextSequence(b.sender.sequence);
      && Flatten(e.sender.sent) == Flatten(b.sender.sent)
         + Encode(RawFrame(PartnerSelectedSlot, b.sender.id, n, [slot]))
         + Encode(RawFrame(PartnerSelectedMon, b.sender.id, NextSequence(n), mon))
      && e == b.(sender := e.sender, partnerSlot := slot, selected := mon)
  {
    hide Encode, Emit, NextSequence;
    var chosen := b.(partnerSlot := slot, selected := PartySlice(party, slot));
    var f := EmitSends(chosen, PartnerSelectedSlot, [slot], accepts);
    var g := EmitSends(Emit(chosen, PartnerSelectedSlot, [slot], accepts), PartnerSelectedMon, PartySlice(party, slot),
                       accepts);
  }

  // ---- The messages of a trade

  datatype Message = Message(t: MessageType, payload: seq<byte>)

  predicate Sendable(messages: seq<Message>, n: u32)
  {
    n + |messages| <= 0xFFFF_FFFF && forall m | m in messages :: |m.payload| <= MAX_PAYLOAD
  }

  function EmitAll(b: Bridge, messages: seq<Message>, accepts: nat -> bool): Bridge
    decreases |messages|
  {
    if messages == [] then b
    else EmitAll(Emit(b, messages[0].t, messages[0].payload, accepts), messages[1..], accepts)
  }

  /** The frames these messages become, numbered from `n` + 1. */
  function Numbered(messages: seq<Message>, id: TxId, n: u32): (fs: seq<Frame>)
    requires Sendable(messages, n)
    ensures |fs| == |messages| && Consecutive(fs, id, n)
    ensures forall i | 0 <= i < |fs| :: fs[i].messageType == messages[i].t && fs[i].payload == messages[i].payload
    decreases |messages|
  {
    if messages == [] then []
    else
      var m := messages[0];
      [RawFrame(m.t, id, n + 1, m.payload)] + Numbered(messages[1..], id, n + 1)
  }

  /** With a willing transport, the messages of a stretch go out as whole frames, in order. */
  lemma {:induction false} EmitAllSends(b: Bridge, messages: seq<Message>, accepts: nat -> bool)
    requires Sendable(messages, b.sender.sequence) && Willing(accepts)
    ensures var e := EmitAll(b, messages, accepts);
      && Flatten(e.sender.sent) ==
        Flatten(b.sender.sent) + EncodeAll(Numbered(messages, b.sender.id, b.sender.sequence))
      && e == b.(sender := e.sender) && e.sender.id == b.sender.id
      && e.sender.sequence == b.sender.sequence + |messages|
    decreases |messages|
  {
    hide Encode, Emit, Willing;
    if messages == [] {
      assert Flatten(b.sender.sent) + [] == Flatten(b.sender.sent);
    } else {
      var m := messages[0];
      var f := EmitSends(b, m.t, m.payload, accepts);
      var next := Emit(b, m.t, m.payload, accepts);
      EmitAllSends(next, messages[1..], accepts);
      var rest := Numbered(messages[1..], b.sender.id, b.sender.sequence + 1);
      assert ([f] + rest)[1..] == rest;
      assert Flatten(b.sender.sent) + Encode(f) + EncodeAll(rest) ==
        Flatten(b.sender.sent) + (Encode(f) + EncodeAll(rest));
    }
  }

  lemma {:induction false} EmitAllConcat(b: Bridge, x: seq<Message>, y: seq<Message>, accepts: nat -> bool)
    ensures EmitAll(b, x + y, accepts) == EmitAll(EmitAll(b, x, accepts), y, accepts)
    decreases |x|
  {
    hide Emit;
    if x == [] {
      assert x + y == y;
    } else {
      assert (x + y)[1..] == x[1..] + y;
      EmitAllConcat(Emit(b, x[0].t, x[0].payload, accepts), x[1..], y, accepts);
    }
  }

  /** What the bridge remembers of a trade does not influence what it emits. */
  lemma {:induction false} EmitAllForgets(b: Bridge, c: Bridge, messages: seq<Message>, accepts: nat -> bool)
    requires b.sender == c.sender
    ensures EmitAll(b, messages, accepts).sender == EmitAll(c, messages, accepts).sender
    decreases |messages|
  {
    hide Send;
    if messages != [] {
      EmitAllForgets(Emit(b, messages[0].t, messages[0].payload, accepts),
                     Emit(c, messages[0].t, messages[0].payload, accepts), messages[1..], accepts);
    }
  }

  /** The messages of one trade: up to the party, and from the selection on. */
  function Opening(offerSlot: byte, digest: Digest, party: seq<byte>): seq<Message>
  {
    [Message(OfferReady, [offerSlot] + digest), Message(TradeSessionStarted, []), Message(PartnerParty, party)]
  }

  function Closing(slot: byte, received: Mon, commit: seq<byte>): seq<Message>
  {
    [Message(PartnerSelectedSlot, [slot]), Message(PartnerSelectedMon, received),
     Message(TradeCommitted, commit), Message(TradeLinkClosed, [0])]
  }

  lemma EmitAllThree(b: Bridge, m0: Message, m1: Message, m2: Message, accepts: nat -> bool)
    ensures EmitAll(b, [m0, m1, m2], accepts) ==
      Emit(Emit(Emit(b, m0.t, m0.payload, accepts), m1.t, m1.payload, accepts), m2.t, m2.payload, accepts)
  {
    hide Emit;
    assert [m0, m1, m2][1..] == [m1, m2] && [m1, m2][1..] == [m2] && [m2][1..] == [];
    var b2 := Emit(Emit(b, m0.t, m0.payload, accepts), m1.t, m1.payload, accepts);
    assert EmitAll(b2, [m2], accepts) == Emit(b2, m2.t, m2.payload, accepts);
  }

  lemma EmitAllFour(b: Bridge, m0: Message, m1: Message, m2: Message, m3: Message, accepts: nat -> bool)
    ensures EmitAll(b, [m0, m1, m2, m3], accepts) ==
      Emit(Emit(Emit(Emit(b, m0.t, m0.payload, accepts), m1.t, m1.payload, accepts), m2.t, m2.payload, accepts),
           m3.t, m3.payload, accepts)
  {
    hide Emit;
    assert [m0, m1, m2, m3][1..] == [m1, m2, m3];
    EmitAllThree(Emit(b, m0.t, m0.payload, accepts), m1, m2, m3, accepts);
  }

  lemma EmitKeeps(b: Bridge, t: MessageType, payload: seq<byte>, accepts: nat -> bool)
    ensures var e := Emit(b, t, payload, accepts); e == b.(sender := e.sender)
  {}

  /**
   The offer survives until the commit, whose digests are therefore those of offer and selection:
   one trade on the bridge is the emission of its opening and its closing messages.
   */
  lemma TradeRunSends(b: Bridge, offerSlot: byte, offer: Mon, sequence: u32, party: seq<byte>, slot: byte,
                      sha: Mon -> Digest, accepts: nat -> bool)
    requires |party| == 600 && offerSlot <= 5 && slot <= 5
    ensures var received := PartySlice(party, slot);
      TradeRun(b, offerSlot, offer, sequence, party, slot, sha, accepts).sender ==
      EmitAll(EmitAll(b, Opening(offerSlot, sha(offer), party), accepts),
              Closing(slot, received, CommitPayload(sha(offer), sha(received))), accepts).sender
  {
    hide Emit, EmitError, CommitPayload, EmitAll;
    var received := PartySlice(party, slot);
    assert ([offerSlot] + offer)[1..] == offer;
    var start := b.(offerSlot := offerSlot, offer := offer, offerReady := true);
    var opening, commit := Opening(offerSlot, sha(offer), party), CommitPayload(sha(offer), sha(received));
    EmitAllThree(start, opening[0], opening[1], opening[2], accepts);
    var b0 := Emit(start, OfferReady, [offerSlot] + sha(offer), accepts);
    EmitKeeps(start, OfferReady, [offerSlot] + sha(offer), accepts);
    var b1 := Emit(b0, TradeSessionStarted, [], accepts);
    EmitKeeps(b0, TradeSessionStarted, [], accepts);
    var b2 := Emit(b1, PartnerParty, party, accepts);
    EmitKeeps(b1, PartnerParty, party, accepts);
    var chosen := b2.(partnerSlot := slot, selected := received);
    var closing := Closing(slot, received, commit);
    EmitAllFour(chosen, closing[0], closing[1], closing[2], closing[3], accepts);
    var b3 := Emit(chosen, PartnerSelectedSlot, [slot], accepts);
    EmitKeeps(chosen, PartnerSelectedSlot, [slot], accepts);
    EmitKeeps(b3, PartnerSelectedMon, received, accepts);
    EmitAllForgets(start, b, opening, accepts);
    EmitAllForgets(chosen, EmitAll(b, opening, accepts), closing, accepts);
  }

  /** With a willing transport, one trade on the bridge sends exactly the seven events of that trade. */
  lemma TradeRunEvents(b: Bridge, offerSlot: byte, offer: Mon, sequence: u32, party: seq<byte>, slot: byte,
                       sha: Mon -> Digest, accepts: nat -> bool) returns (fs: seq<Frame>)
    requires |party| == 600 && offerSlot <= 5 && slot <= 5
    requires b.sender.sequence + 7 <= 0xFFFF_FFFF && Willing(accepts)
    ensures Flatten(TradeRun(b, offerSlot, offer, sequence, party, slot, sha, accepts).sender.sent)
         == Flatten(b.sender.sent) + EncodeAll(fs)
    ensures Consecutive(fs, b.sender.id, b.sender.sequence)
    ensures TradeEvents(fs, offerSlot, offer, sha, GbaTradeResult(offer, PartySlice(party, slot), true, slot, true))
  {
    hide TradeRun, PartySlice, CommitPayload, TradeEvents, Willing, EmitAll, EncodeAll, Opening, Closing;
    hide Sendable, Consecutive;
    var received := PartySlice(party, slot);
    var commit := CommitPayload(sha(offer), sha(received));
    var opening, closing := Opening(offerSlot, sha(offer), party), Closing(slot, received, commit);
    var messages := opening + closing;
    TradeRunSends(b, offerSlot, offer, sequence, party, slot, sha, accepts);
    EmitAllConcat(b, opening, closing, accepts);
    SevenMessages(offerSlot, sha(offer), party, slot, received, commit, b.sender.sequence);
    EmitAllSends(b, messages, accepts);
    fs := Numbered(messages, b.sender.id, b.sender.sequence);
    SevenEvents(fs, offerSlot, offer, party, slot, sha);
  }

  lemma SevenMessages(offerSlot: byte, digest: Digest, party: seq<byte>, slot: byte, received: Mon,
                      commit: seq<byte>, n: u32)
    requires |party| == 600 && |commit| == 64 && n + 7 <= 0xFFFF_FFFF
    ensures var m := Opening(offerSlot, digest, party) + Closing(slot, received, commit);
      && Sendable(m, n) && |m| == 7
      && m[0] == Message(OfferReady, [offerSlot] + digest) && m[1] == Message(TradeSessionStarted, [])
      && m[2] == Message(PartnerParty, party) && m[3] == Message(PartnerSelectedSlot, [slot])
      && m[4] == Message(PartnerSelectedMon, received) && m[5] == Message(TradeCommitted, commit)
      && m[6] == Message(TradeLinkClosed, [0])
  {
    var m := Opening(offerSlot, digest, party) + Closing(slot, received, commit);
    forall x | x in m
      ensures |x.payload| <= MAX_PAYLOAD
    {
      var i :| 0 <= i < 7 && m[i] == x;
    }
  }

  lemma SevenEvents(fs: seq<Frame>, offerSlot: byte, offer: Mon, party: seq<byte>, slot: byte, sha: Mon -> Digest)
    requires |party| == 600 && slot <= 5 && |fs| == 7
    requires fs[0].messageType == OfferReady && fs[0].payload == [offerSlot] + sha(offer)
    requires fs[1].messageType == TradeSessionStarted
    requires fs[2].messageType == PartnerParty && fs[2].payload == party
    requires fs[3].messageType == PartnerSelectedSlot && fs[3].payload == [slot]
    requires fs[4].messageType == PartnerSelectedMon && fs[4].payload == PartySlice(party, slot)
    requires fs[5].messageType == TradeCommitted
    requires fs[5].payload == CommitPayload(sha(offer), sha(PartySlice(party, slot)))
    requires fs[6].messageType == TradeLinkClosed && fs[6].payload == [0]
    ensures TradeEvents(fs, offerSlot, offer, sha, GbaTradeResult(offer, PartySlice(party, slot), true, slot, true))
  {
    hide PartySlice, CommitPayload;
  }

  /**
   The event script, exactly: for every offer, party and slot, if the bytes the bridge sends during
   one trade reach the host before the deadline, `trade_once` returns that trade (the offer, the
   party's record at the slot, committed, link closed) if and only if it could send its offer and no
   read completes two frames.
   */
  lemma EventScriptComplete(b: Bridge, offerSlot: byte, offer: Mon, sequence: u32, party: seq<byte>, slot: byte,
                            sha: Mon -> Digest, accepts: nat -> bool, ear: Ear, sent: seq<byte>,
                            connected: bool, counter: nat, taken: nat)
    requires |party| == 600 && offerSlot <= 5 && slot <= 5
    requires b.sender.sequence + 7 <= 0xFFFF_FFFF && Willing(accepts)
    requires Flatten(TradeRun(b, offerSlot, offer, sequence, party, slot, sha, accepts).sender.sent)
          == Flatten(b.sender.sent) + sent
    requires ear.buffer == [] && TapeBytes(ear.tape) == sent && Timely(ear.tape)
    requires b.sender.id in ear.last ==> ear.last[b.sender.id] <= b.sender.sequence
    ensures var trade := GbaTradeResult(offer, PartySlice(party, slot), true, slot, true);
      TradeOutcome(connected, counter, taken, ear, b.sender.id, offerSlot, offer, sha).result == Ok(trade) <==>
        && connected && !HoldsMail(offer) && counter < 0xFFFF_FFFF && taken >= OFFER_FRAME_SIZE
        && OnePerRead([], ear.tape)
  {
    hide Script, TradeRun, Events, EncodeAll, TapeBytes, TradeEvents, Leftover, PartySlice, Willing, OnePerRead;
    hide Timely, Settled, Consecutive, HoldsMail;
    var fs := TradeRunEvents(b, offerSlot, offer, sequence, party, slot, sha, accepts);
    SameTail(Flatten(b.sender.sent), sent, EncodeAll(fs));
    CleanStream(fs);
    EmptySettled();
    assert [] + TapeBytes(ear.tape) == sent;
    ScriptCompletesIff(ear, b.sender.id, offerSlot, offer, sha, fs, b.sender.sequence,
                       GbaTradeResult(offer, PartySlice(party, slot), true, slot, true));
  }

  lemma SameTail(a: seq<byte>, b: seq<byte>, c: seq<byte>)
    requires a + b == a + c
    ensures b == c
  {
    assert (a + b)[|a|..] == b && (a + c)[|a|..] == c;
  }
}
