/** What a finished trade script proves about the bytes received, and when the script must finish. */
module ScriptTheory {
  import opened Bytes
  import opened Protocol
  import opened FrameTheory
  import opened Pokemon
  import opened GbLink
  import Crc
  import Polynomial

  // ---- Soundness

  /** The bytes of a stretch of tape. */
  function TapeBytes(tape: seq<Tick>): seq<byte>
  {
    if tape == [] then [] else (if tape[0].Read? then tape[0].bytes else []) + TapeBytes(tape[1..])
  }

  lemma {:induction false} TapeBytesConcat(a: seq<Tick>, b: seq<Tick>)
    ensures TapeBytes(a + b) == TapeBytes(a) + TapeBytes(b)
    decreases |a|
  {
    if a == [] {
      assert a + b == b;
    } else {
      assert (a + b)[1..] == a[1..] + b;
      TapeBytesConcat(a[1..], b);
    }
  }

  /** A waiting round keeps a suffix of its buffer. */
  lemma WaitSuffix(buffer: seq<byte>) returns (gone: seq<byte>)
    requires DecodeRound(buffer).Wait?
    ensures buffer == gone + DecodeRound(buffer).rest
  {
    hide Aligned;
    var rest := DecodeRound(buffer).rest;
    gone := buffer[..|buffer| - |rest|];
  }

  lemma DeliverPieces(buffer: seq<byte>) returns (gone: seq<byte>)
    requires DecodeRound(buffer).Deliver?
    ensures buffer == gone + (Encode(DecodeRound(buffer).frame) + DecodeRound(buffer).rest)
  {
    var round := DecodeRound(buffer);
    DeliverIff(buffer, round.frame, round.rest);
    hide Encode, DecodeRound;
    var at := Search.Find(buffer, MAGIC);
    gone := buffer[..at];
    assert buffer == buffer[..at] + buffer[at..];
  }

  /** Each frame of a batch is a slice of the buffer, and what the decoder keeps lies behind it. */
  lemma {:induction false} DrainSlices(buffer: seq<byte>, k: nat) returns (before: seq<byte>, after: seq<byte>)
    requires Drain(buffer).error.None? && k <= |Drain(buffer).frames|
    ensures k < |Drain(buffer).frames| ==>
      buffer == before + (Encode(Drain(buffer).frames[k]) + (after + Drain(buffer).rest))
    ensures k == |Drain(buffer).frames| ==> buffer == before + Drain(buffer).rest
    decreases |buffer|
  {
    hide DecodeRound, Encode;
    var round := DecodeRound(buffer);
    match round {
      case Wait(rest) =>
        before := WaitSuffix(buffer);
        after := [];
      case Deliver(f, rest) =>
        var gone := DeliverPieces(buffer);
        var d := Drain(rest);
        assert Drain(buffer).frames == [f] + d.frames && Drain(buffer).rest == d.rest;
        if k == 0 {
          var unused;
          before := gone;
          after, unused := DrainSlices(rest, |d.frames|);
        } else {
          var b;
          b, after := DrainSlices(rest, k - 1);
          before := gone + Encode(f) + b;
          if k - 1 < |d.frames| {
            assert Drain(buffer).frames[k] == d.frames[k - 1];
          }
        }
    }
  }

  /** What a successful wait established. */
  ghost predicate Evidence(before: Ear, after: Ear, id: TxId, wanted: set<MessageType>, f: Frame,
                           pre: seq<byte>, post: seq<byte>, used: seq<Tick>)
  {
    && f.transactionId == id && f.messageType in wanted
    && (id in before.last ==> before.last[id] < f.sequence)
    && id in after.last && after.last[id] == f.sequence
    && before.tape == used + after.tape
    && before.buffer + TapeBytes(used) == pre + (Encode(f) + (post + after.buffer))
  }

  predicate Newer(f: Frame, last: map<TxId, u32>, after: map<TxId, u32>, id: TxId)
  {
    && f.transactionId == id && id in after && after[id] == f.sequence
    && (id in last ==> last[id] < f.sequence)
  }

  lemma {:induction false} ScanFinds(fs: seq<Frame>, last: map<TxId, u32>, id: TxId, wanted: set<MessageType>)
      returns (k: nat)
    ensures var s := Scan(fs, last, id, wanted);
      && (s.Found? ==>
        k < |fs| && fs[k] == s.frame && Newer(s.frame, last, s.last, id) && s.frame.messageType in wanted)
      && (s.Nothing? && id in last ==> id in s.last && last[id] <= s.last[id])
    decreases |fs|
  {
    k := 0;
    if fs != [] && fs[0].transactionId == id && Admits(last, fs[0]) {
      var noted := last[fs[0].transactionId := fs[0].sequence];
      if fs[0].messageType !in wanted && fs[0].messageType != Error {
        k := ScanFinds(fs[1..], noted, id, wanted);
        k := k + 1;
      }
    }
  }

  lemma EvidenceQuiet(ear: Ear, later: Ear, after: Ear, id: TxId, wanted: set<MessageType>, f: Frame,
                      pre: seq<byte>, post: seq<byte>, used: seq<Tick>)
    requires ear.tape != [] && ear.tape[0] == Read([]) && later == ear.(tape := ear.tape[1..])
    requires Evidence(later, after, id, wanted, f, pre, post, used)
    ensures Evidence(ear, after, id, wanted, f, pre, post, [ear.tape[0]] + used)
  {
    hide Encode;
    UsedMore(ear.tape[0], used);
    assert [] + TapeBytes(used) == TapeBytes(used);
    assert ear.tape == [ear.tape[0]] + later.tape == [ear.tape[0]] + used + after.tape;
  }

  lemma EvidenceLater(ear: Ear, bytes: seq<byte>, gone: seq<byte>, next: Ear, after: Ear, id: TxId,
                      wanted: set<MessageType>, f: Frame, pre: seq<byte>, post: seq<byte>, used: seq<Tick>)
    requires ear.tape != [] && ear.tape[0] == Read(bytes) && next.tape == ear.tape[1..]
    requires ear.buffer + bytes == gone + next.buffer
    requires id in ear.last ==> id in next.last && ear.last[id] <= next.last[id]
    requires Evidence(next, after, id, wanted, f, pre, post, used)
    ensures Evidence(ear, after, id, wanted, f, gone + pre, post, [ear.tape[0]] + used)
  {
    hide Encode;
    UsedMore(ear.tape[0], used);
    Reassociate(ear.buffer, bytes, gone, next.buffer, TapeBytes(used), pre, Encode(f) + (post + after.buffer));
    assert ear.tape == [ear.tape[0]] + next.tape == [ear.tape[0]] + used + after.tape;
  }

  lemma EvidenceNow(ear: Ear, bytes: seq<byte>, after: Ear, id: TxId, wanted: set<MessageType>, f: Frame,
                    pre: seq<byte>, post: seq<byte>)
    requires ear.tape != [] && ear.tape[0] == Read(bytes) && after.tape == ear.tape[1..]
    requires Newer(f, ear.last, after.last, id) && f.messageType in wanted
    requires ear.buffer + bytes == pre + (Encode(f) + (post + after.buffer))
    ensures Evidence(ear, after, id, wanted, f, pre, post, [ear.tape[0]])
  {
    hide Encode;
    UsedMore(ear.tape[0], []);
    assert bytes + [] == bytes && [ear.tape[0]] + [] == [ear.tape[0]];
    assert ear.tape == [ear.tape[0]] + after.tape;
  }

  lemma {:induction false} ListenSound(ear: Ear, id: TxId, wanted: set<MessageType>)
      returns (pre: seq<byte>, post: seq<byte>, used: seq<Tick>)
    requires Listen(ear, id, wanted).result.Ok?
    ensures var h := Listen(ear, id, wanted); Evidence(ear, h.ear, id, wanted, h.result.value, pre, post, used)
    decreases |ear.tape|
  {
    hide Drain, Scan, Encode, Evidence;
    var h := Listen(ear, id, wanted);
    var later := ear.(tape := ear.tape[1..]);
    var bytes := ear.tape[0].bytes;
    if bytes == [] {
      pre, post, used := ListenSound(later, id, wanted);
      EvidenceQuiet(ear, later, h.ear, id, wanted, h.result.value, pre, post, used);
      used := [ear.tape[0]] + used;
    } else {
      var d := Drain(ear.buffer + bytes);
      var k := ScanFinds(d.frames, ear.last, id, wanted);
      var s := Scan(d.frames, ear.last, id, wanted);
      if s.Found? {
        pre, post := DrainSlices(ear.buffer + bytes, k);
        EvidenceNow(ear, bytes, h.ear, id, wanted, h.result.value, pre, post);
        used := [ear.tape[0]];
      } else {
        var next := Ear(d.rest, s.last, later.tape);
        pre, post, used := ListenSound(next, id, wanted);
        var gone, unused := DrainSlices(ear.buffer + bytes, |d.frames|);
        EvidenceLater(ear, bytes, gone, next, h.ear, id, wanted, h.result.value, pre, post, used);
        pre := gone + pre;
        used := [ear.tape[0]] + used;
      }
    }
  }

  lemma UsedMore(t: Tick, used: seq<Tick>)
    ensures TapeBytes([t] + used) == (if t.Read? then t.bytes else []) + TapeBytes(used)
  {
    assert ([t] + used)[1..] == used;
  }

  lemma Reassociate(buffer: seq<byte>, bytes: seq<byte>, gone: seq<byte>, rest: seq<byte>, more: seq<byte>,
                    pre: seq<byte>, tail: seq<byte>)
    requires buffer + bytes == gone + rest && rest + more == pre + tail
    ensures buffer + (bytes + more) == gone + pre + tail
  {
    assert buffer + (bytes + more) == buffer + bytes + more == gone + (rest + more) == gone + pre + tail;
  }

  /** A proof that `fs` were received in order between two states of the ear. */
  ghost predicate Received(before: Ear, after: Ear, id: TxId, fs: seq<Frame>, gaps: seq<seq<byte>>, used: seq<Tick>)
  {
    && |gaps| == |fs| + 1
    && before.tape == used + after.tape
    && before.buffer + TapeBytes(used) == NoisyStream(gaps, fs)
    && (forall i | 0 <= i < |fs| ::
          fs[i].transactionId == id && (id in before.last ==> before.last[id] < fs[i].sequence))
    && forall i, j | 0 <= i < j < |fs| :: fs[i].sequence < fs[j].sequence
  }

  lemma ReceivedNone(ear: Ear, id: TxId)
    ensures Received(ear, ear, id, [], [ear.buffer], [])
  {}

  lemma ReceivedMore(e: Ear, e': Ear, after: Ear, id: TxId, wanted: set<MessageType>, f: Frame,
                     pre: seq<byte>, post: seq<byte>, used: seq<Tick>,
                     fs: seq<Frame>, gaps: seq<seq<byte>>, more: seq<Tick>)
    requires Evidence(e, e', id, wanted, f, pre, post, used)
    requires Received(e', after, id, fs, gaps, more)
    ensures Received(e, after, id, [f] + fs, [pre, post + gaps[0]] + gaps[1..], used + more)
  {
    hide Encode, TapeBytes;
    var gaps' := [pre, post + gaps[0]] + gaps[1..];
    var all := [f] + fs;
    assert gaps'[1..] == [post + gaps[0]] + gaps[1..] && all[1..] == fs;
    NoisyHead(post, gaps, fs);
    TapeBytesConcat(used, more);
    JoinStreams(e.buffer, TapeBytes(used), pre, Encode(f), post, e'.buffer, TapeBytes(more));
    assert e.tape == used + more + after.tape;
    ReceivedFacts(e, e', id, f, fs);
  }

  lemma JoinStreams(buffer: seq<byte>, a: seq<byte>, pre: seq<byte>, enc: seq<byte>, post: seq<byte>,
                    buffer': seq<byte>, b: seq<byte>)
    requires buffer + a == pre + (enc + (post + buffer'))
    ensures buffer + (a + b) == pre + (enc + (post + (buffer' + b)))
  {
    assert buffer + (a + b) == buffer + a + b;
  }

  lemma ReceivedFacts(e: Ear, e': Ear, id: TxId, f: Frame, fs: seq<Frame>)
    requires f.transactionId == id && id in e'.last && e'.last[id] == f.sequence
    requires id in e.last ==> e.last[id] < f.sequence
    requires forall i | 0 <= i < |fs| :: fs[i].transactionId == id && e'.last[id] < fs[i].sequence
    requires forall i, j | 0 <= i < j < |fs| :: fs[i].sequence < fs[j].sequence
    ensures var all := [f] + fs;
      && (forall i | 0 <= i < |all| :: all[i].transactionId == id && (id in e.last ==> e.last[id] < all[i].sequence))
      && forall i, j | 0 <= i < j < |all| :: all[i].sequence < all[j].sequence
  {}

  lemma NoisyHead(post: seq<byte>, gaps: seq<seq<byte>>, fs: seq<Frame>)
    requires |gaps| == |fs| + 1
    ensures NoisyStream([post + gaps[0]] + gaps[1..], fs) == post + NoisyStream(gaps, fs)
  {
    hide Encode;
    var g := [post + gaps[0]] + gaps[1..];
    assert g[1..] == gaps[1..];
  }

  /** The seven events of a finished trade. */
  predicate TradeEvents(fs: seq<Frame>, offerSlot: byte, offer: Mon, sha: Mon -> Digest, r: GbaTradeResult)
  {
    && |fs| == 7
    && fs[0].messageType == OfferReady && fs[0].payload == [offerSlot] + sha(offer)
    && fs[1].messageType == TradeSessionStarted
    && fs[2].messageType == PartnerParty && |fs[2].payload| == 600
    && fs[3].messageType == PartnerSelectedSlot && |fs[3].payload| == 1 && fs[3].payload[0] <= 5
    && fs[3].payload[0] == r.selectedSlot
    && fs[4].messageType == PartnerSelectedMon && fs[4].payload == r.received
    && r.received == PartySlice(fs[2].payload, r.selectedSlot)
    && fs[5].messageType == TradeCommitted && fs[5].payload == CommitPayload(sha(offer), sha(r.received))
    && (fs[6].messageType == TradeLinkClosed || fs[6].messageType == Error)
    && r.offered == offer && r.commitConfirmed
    && (r.linkClosed <==> fs[6].messageType == TradeLinkClosed && fs[6].payload == [0])
  }

  /**
   For any bytes in any reads: if the script returns a result, the seven events were received in
   order as disjoint encodings of the active transaction with strictly increasing sequence, the
   record is the party's at the selected slot, and both commit digests match.
   */
  lemma ScriptSound(ear: Ear, id: TxId, offerSlot: byte, offer: Mon, sha: Mon -> Digest)
      returns (fs: seq<Frame>, gaps: seq<seq<byte>>, used: seq<Tick>)
    requires Script(ear, id, offerSlot, offer, sha).result.Ok?
    ensures var h := Script(ear, id, offerSlot, offer, sha);
      Received(ear, h.ear, id, fs, gaps, used) && TradeEvents(fs, offerSlot, offer, sha, h.result.value)
  {
    hide Listen, Received, Evidence, Encode;
    var w0, w1, w2, w3 := {OfferReady}, {TradeSessionStarted}, {PartnerParty}, {PartnerSelectedSlot};
    var w4 := {PartnerSelectedMon};
    var w5, w6 := {TradeCommitted, TradeAborted, Error}, {TradeLinkClosed, Error};
    var h0 := Listen(ear, id, w0);
    var h1 := Listen(h0.ear, id, w1);
    var h2 := Listen(h1.ear, id, w2);
    var h3 := Listen(h2.ear, id, w3);
    var h4 := Listen(h3.ear, id, w4);
    var h5 := Listen(h4.ear, id, w5);
    var h6 := Listen(h5.ear, id, w6);
    ReceivedNone(h6.ear, id);
    fs, gaps, used := [], [h6.ear.buffer], [];
    fs, gaps, used := PrependEvent(h5.ear, h6.ear, id, w6, fs, gaps, used);
    fs, gaps, used := PrependEvent(h4.ear, h6.ear, id, w5, fs, gaps, used);
    fs, gaps, used := PrependEvent(h3.ear, h6.ear, id, w4, fs, gaps, used);
    fs, gaps, used := PrependEvent(h2.ear, h6.ear, id, w3, fs, gaps, used);
    fs, gaps, used := PrependEvent(h1.ear, h6.ear, id, w2, fs, gaps, used);
    fs, gaps, used := PrependEvent(h0.ear, h6.ear, id, w1, fs, gaps, used);
    fs, gaps, used := PrependEvent(ear, h6.ear, id, w0, fs, gaps, used);
  }

  lemma PrependEvent(e: Ear, after: Ear, id: TxId, wanted: set<MessageType>,
                     fs: seq<Frame>, gaps: seq<seq<byte>>, more: seq<Tick>)
      returns (fs': seq<Frame>, gaps': seq<seq<byte>>, used: seq<Tick>)
    requires Listen(e, id, wanted).result.Ok?
    requires Received(Listen(e, id, wanted).ear, after, id, fs, gaps, more)
    ensures Received(e, after, id, fs', gaps', used)
    ensures fs' == [Listen(e, id, wanted).result.value] + fs && fs'[0].messageType in wanted
  {
    hide Listen, Encode;
    var h := Listen(e, id, wanted);
    var pre, post, mine := ListenSound(e, id, wanted);
    ReceivedMore(e, h.ear, after, id, wanted, h.result.value, pre, post, mine, fs, gaps, more);
    fs', gaps', used := [h.result.value] + fs, [pre, post + gaps[0]] + gaps[1..], mine + more;
  }

  // ---- Completeness

  /** The device stays quiet or talks, but the deadline does not come while this tape lasts. */
  predicate Timely(tape: seq<Tick>)
  {
    forall t | t in tape :: t.Read?
  }

  /** Each read completes at most one frame: a wait drops the later frames of its batch. */
  predicate OnePerRead(buffer: seq<byte>, tape: seq<Tick>)
    decreases |tape|
  {
    tape == [] ||
    (tape[0].Read? &&
     var d := Drain(buffer + tape[0].bytes);
     |d.frames| <= 1 && OnePerRead(d.rest, tape[1..]))
  }

  /** What the ear is about to hear, however it is cut into reads, is exactly `fs`. */
  ghost predicate Hears(ear: Ear, fs: seq<Frame>)
  {
    Timely(ear.tape) && Settled(ear.buffer) && Events(ear.buffer + TapeBytes(ear.tape)) == Goods(fs)
  }

  /** The same, one frame a read. */
  ghost predicate Expecting(ear: Ear, fs: seq<Frame>)
  {
    Hears(ear, fs) && OnePerRead(ear.buffer, ear.tape)
  }

  lemma QuietRead(buffer: seq<byte>)
    requires Settled(buffer)
    ensures Drain(buffer + []) == Drained([], buffer, None)
  {
    assert buffer + [] == buffer;
  }

  /** A read brings the next frames, any number of them, and the ear still hears the others. */
  lemma ReadHears(ear: Ear, fs: seq<Frame>)
    requires Hears(ear, fs) && ear.tape != []
    ensures ear.tape[0].Read?
    ensures var d := Drain(ear.buffer + ear.tape[0].bytes); var n := |d.frames|;
      && d.error.None? && n <= |fs| && d.frames == fs[..n]
      && forall last :: Hears(Ear(d.rest, last, ear.tape[1..]), fs[n..])
  {
    hide Drain, Events, Settled, Leftover;
    var t, rest := ear.tape[0], ear.tape[1..];
    assert t in ear.tape && forall u | u in rest :: u in ear.tape;
    var d := Drain(ear.buffer + t.bytes);
    FeedConserves(ear.buffer, t.bytes, TapeBytes(rest));
    assert ear.buffer + TapeBytes(ear.tape) == ear.buffer + t.bytes + TapeBytes(rest);
    GoodsAll(fs);
    FeedGood(d, Events(d.rest + TapeBytes(rest)));
    DrainEvents(ear.buffer + t.bytes);
    assert FeedEvents(d) == Goods(d.frames);
    GoodsSplit(fs, d.frames, Events(d.rest + TapeBytes(rest)));
  }

  lemma NotOver(ear: Ear, fs: seq<Frame>)
    requires Hears(ear, fs) && fs != []
    ensures ear.tape != []
  {
    hide Drain, Events, Settled, Leftover;
    SettledEvents(ear.buffer);
    assert ear.tape == [] ==> ear.buffer + TapeBytes(ear.tape) == ear.buffer;
    assert |Goods(fs)| > 0;
  }

  /** What a read of an expecting ear brings: nothing, or exactly the next frame. */
  lemma NextRead(ear: Ear, fs: seq<Frame>)
    requires Expecting(ear, fs) && fs != []
    ensures ear.tape != [] && ear.tape[0].Read?
    ensures var d := Drain(ear.buffer + ear.tape[0].bytes);
      && d.error.None? && (d.frames == [] || d.frames == [fs[0]])
      && forall last :: Expecting(Ear(d.rest, last, ear.tape[1..]), if d.frames == [] then fs else fs[1..])
  {
    hide Drain, Hears;
    NotOver(ear, fs);
    ReadHears(ear, fs);
    assert fs[0..] == fs;
  }

  /** The next expected frame ends a wait that wants it, and leaves the ear expecting the others. */
  lemma {:induction false} ListenNext(ear: Ear, id: TxId, wanted: set<MessageType>, fs: seq<Frame>)
    requires Expecting(ear, fs) && fs != []
    requires fs[0].transactionId == id && Admits(ear.last, fs[0]) && fs[0].messageType in wanted
    ensures var h := Listen(ear, id, wanted);
      && h.result == Ok(fs[0]) && Expecting(h.ear, fs[1..])
      && h.ear.last == ear.last[id := fs[0].sequence]
    decreases |ear.tape|
  {
    hide Drain, Expecting;
    NextRead(ear, fs);
    var bytes := ear.tape[0].bytes;
    var d := Drain(ear.buffer + bytes);
    var next := Ear(d.rest, ear.last, ear.tape[1..]);
    if d.frames == [] {
      if bytes == [] {
        ExpectingSettled(ear, fs);
        QuietRead(ear.buffer);
      }
      ListenNext(next, id, wanted, fs);
    } else {
      assert bytes != [] by {
        if bytes == [] {
          ExpectingSettled(ear, fs);
          QuietRead(ear.buffer);
        }
      }
    }
  }

  lemma ExpectingSettled(ear: Ear, fs: seq<Frame>)
    requires Expecting(ear, fs)
    ensures Settled(ear.buffer)
  {}

  /** Seven frames of one transaction with consecutive sequences, from `n` + 1 on. */
  predicate Consecutive(fs: seq<Frame>, id: TxId, n: u32)
  {
    forall i | 0 <= i < |fs| :: fs[i].transactionId == id && fs[i].sequence == n + 1 + i
  }

  /** The `i`-th of consecutive frames ends a wait that wants it. */
  lemma HeedAt(ear: Ear, id: TxId, wanted: set<MessageType>, fs: seq<Frame>, i: nat, n: u32) returns (next: Ear)
    requires i < |fs| && Consecutive(fs, id, n) && n + |fs| <= 0xFFFF_FFFF && Expecting(ear, fs[i..])
    requires id in ear.last ==> ear.last[id] <= n + i
    requires fs[i].messageType in wanted
    ensures Listen(ear, id, wanted) == Heard(Ok(fs[i]), next)
    ensures Expecting(next, fs[i + 1..]) && id in next.last && next.last[id] == n + i + 1
  {
    hide Listen, Expecting;
    assert fs[i..][0] == fs[i] && fs[i..][1..] == fs[i + 1..];
    ListenNext(ear, id, wanted, fs[i..]);
    next := Listen(ear, id, wanted).ear;
  }

  lemma SevenWaits(ear: Ear, id: TxId, fs: seq<Frame>, n: u32) returns (e: seq<Ear>)
    requires |fs| == 7 && Consecutive(fs, id, n) && n + 7 <= 0xFFFF_FFFF
    requires Expecting(ear, fs) && (id in ear.last ==> ear.last[id] <= n)
    requires fs[0].messageType == OfferReady && fs[1].messageType == TradeSessionStarted
    requires fs[2].messageType == PartnerParty && fs[3].messageType == PartnerSelectedSlot
    requires fs[4].messageType == PartnerSelectedMon && fs[5].messageType == TradeCommitted
    requires fs[6].messageType in {TradeLinkClosed, Error}
    ensures |e| == 7
    ensures Listen(ear, id, {OfferReady}) == Heard(Ok(fs[0]), e[0])
    ensures Listen(e[0], id, {TradeSessionStarted}) == Heard(Ok(fs[1]), e[1])
    ensures Listen(e[1], id, {PartnerParty}) == Heard(Ok(fs[2]), e[2])
    ensures Listen(e[2], id, {PartnerSelectedSlot}) == Heard(Ok(fs[3]), e[3])
    ensures Listen(e[3], id, {PartnerSelectedMon}) == Heard(Ok(fs[4]), e[4])
    ensures Listen(e[4], id, {TradeCommitted, TradeAborted, Error}) == Heard(Ok(fs[5]), e[5])
    ensures Listen(e[5], id, {TradeLinkClosed, Error}) == Heard(Ok(fs[6]), e[6])
  {
    hide *;
    assert fs[0..] == fs;
    var e1 := HeedAt(ear, id, {OfferReady}, fs, 0, n);
    var e2 := HeedAt(e1, id, {TradeSessionStarted}, fs, 1, n);
    var e3 := HeedAt(e2, id, {PartnerParty}, fs, 2, n);
    var e4 := HeedAt(e3, id, {PartnerSelectedSlot}, fs, 3, n);
    var e5 := HeedAt(e4, id, {PartnerSelectedMon}, fs, 4, n);
    var e6 := HeedAt(e5, id, {TradeCommitted, TradeAborted, Error}, fs, 5, n);
    var e7 := HeedAt(e6, id, {TradeLinkClosed, Error}, fs, 6, n);
    e := [e1, e2, e3, e4, e5, e6, e7];
  }

  /** An ear that hears nothing more cannot hear two frames in one read. */
  lemma {:induction false} HearsNothing(ear: Ear)
    requires Hears(ear, [])
    ensures OnePerRead(ear.buffer, ear.tape)
    decreases |ear.tape|
  {
    hide Drain, Hears;
    if ear.tape != [] {
      ReadHears(ear, []);
      HearsNothing(Ear(Drain(ear.buffer + ear.tape[0].bytes).rest, ear.last, ear.tape[1..]));
    }
  }

  /** A successful wait uses up at least one frame; when exactly one, its reads brought one at most. */
  lemma {:induction false} ListenUses(ear: Ear, id: TxId, wanted: set<MessageType>, fs: seq<Frame>) returns (n: nat)
    requires Hears(ear, fs) && Listen(ear, id, wanted).result.Ok?
    ensures var after := Listen(ear, id, wanted).ear;
      && 1 <= n <= |fs| && Hears(after, fs[n..])
      && (n == 1 && OnePerRead(after.buffer, after.tape) ==> OnePerRead(ear.buffer, ear.tape))
    decreases |ear.tape|
  {
    hide Drain, Hears, Scan;
    ReadHears(ear, fs);
    var bytes := ear.tape[0].bytes;
    var d := Drain(ear.buffer + bytes);
    if bytes == [] {
      HearsSettled(ear, fs);
      QuietRead(ear.buffer);
      assert fs[0..] == fs;
      n := ListenUses(Ear(d.rest, ear.last, ear.tape[1..]), id, wanted, fs);
    } else {
      var k := ScanFinds(d.frames, ear.last, id, wanted);
      var s := Scan(d.frames, ear.last, id, wanted);
      if s.Found? {
        n := |d.frames|;
      } else {
        var m := ListenUses(Ear(d.rest, s.last, ear.tape[1..]), id, wanted, fs[|d.frames|..]);
        n := |d.frames| + m;
        assert fs[|d.frames|..][m..] == fs[n..];
      }
    }
  }

  lemma HearsSettled(ear: Ear, fs: seq<Frame>)
    requires Hears(ear, fs)
    ensures Settled(ear.buffer)
  {}

  // ---- What decides a wait

  /** Newer than everything noted and than the frames before it. */
  predicate New(fs: seq<Frame>, i: nat, last: map<TxId, u32>, id: TxId)
    requires i < |fs|
  {
    (id in last ==> last[id] < fs[i].sequence) && forall j | 0 <= j < i :: fs[j].sequence < fs[i].sequence
  }

  /** A frame that a wait passes over. */
  predicate Unheeded(fs: seq<Frame>, i: nat, last: map<TxId, u32>, id: TxId, wanted: set<MessageType>)
    requires i < |fs|
  {
    && fs[i].transactionId == id && New(fs, i, last, id)
    && fs[i].messageType !in wanted && fs[i].messageType != Error
  }

  /** How a wait ends at the first frame that is foreign, replayed, wanted or an ERROR. */
  predicate Verdict(r: Result<Frame, LinkError>, fs: seq<Frame>, k: nat, last: map<TxId, u32>, id: TxId,
                    wanted: set<MessageType>)
    requires k < |fs|
  {
    var f := fs[k];
    if f.transactionId != id then r == Err(LinkError.Protocol(WrongTransaction))
    else if !New(fs, k, last, id) then r == Err(LinkError.Protocol(Replayed))
    else if f.messageType in wanted then r == Ok(f)
    else f.messageType == Error ==> r == Err(Device(f.payload))
  }

  function Noted(last: map<TxId, u32>, id: TxId, fs: seq<Frame>): map<TxId, u32>
  {
    if fs == [] then last else last[id := fs[|fs| - 1].sequence]
  }

  function Outcome(s: Scanned): Result<Frame, LinkError>
    requires !s.Nothing?
  {
    if s.Found? then Ok(s.frame) else Err(s.error)
  }

  lemma {:induction false} ScanDecides(fs: seq<Frame>, last: map<TxId, u32>, id: TxId, wanted: set<MessageType>, k: nat)
    requires k <= |fs| && forall i | 0 <= i < k :: Unheeded(fs, i, last, id, wanted)
    ensures k == |fs| ==> Scan(fs, last, id, wanted) == Nothing(Noted(last, id, fs))
    ensures k < |fs| && !(Unheeded(fs, k, last, id, wanted)) ==>
      !Scan(fs, last, id, wanted).Nothing? && Verdict(Outcome(Scan(fs, last, id, wanted)), fs, k, last, id, wanted)
    decreases |fs|
  {
    if k > 0 {
      var noted := last[id := fs[0].sequence];
      var rest := fs[1..];
      assert Unheeded(fs, 0, last, id, wanted);
      forall i | 0 <= i < |rest|
        ensures New(rest, i, noted, id) <==> New(fs, i + 1, last, id)
      {
        NewLater(fs, i, last, id);
      }
      forall i | 0 <= i < k - 1
        ensures Unheeded(rest, i, noted, id, wanted)
      {
        assert Unheeded(fs, i + 1, last, id, wanted);
      }
      ScanDecides(rest, noted, id, wanted, k - 1);
    }
  }

  lemma NewLater(fs: seq<Frame>, i: nat, last: map<TxId, u32>, id: TxId)
    requires i + 1 < |fs| && (id in last ==> last[id] < fs[0].sequence)
    ensures New(fs[1..], i, last[id := fs[0].sequence], id) <==> New(fs, i + 1, last, id)
  {
    var rest := fs[1..];
    if New(rest, i, last[id := fs[0].sequence], id) {
      forall j | 0 <= j < i + 1
        ensures fs[j].sequence < fs[i + 1].sequence
      {
        if j > 0 {
          assert rest[j - 1] == fs[j];
        }
      }
    }
  }

  lemma UnheededLater(fs: seq<Frame>, n: nat, i: nat, last: map<TxId, u32>, id: TxId, wanted: set<MessageType>)
    requires n + i < |fs| && forall j | 0 <= j < n :: Unheeded(fs, j, last, id, wanted)
    ensures New(fs[n..], i, Noted(last, id, fs[..n]), id) <==> New(fs, n + i, last, id)
  {
    var rest, noted := fs[n..], Noted(last, id, fs[..n]);
    if n > 0 {
      assert Unheeded(fs, n - 1, last, id, wanted);
      if New(rest, i, noted, id) {
        forall j | 0 <= j < n + i
          ensures fs[j].sequence < fs[n + i].sequence
        {
          if j >= n {
            assert rest[j - n] == fs[j];
          }
        }
      }
    }
  }

  /**
   For any frames in any reads: the first frame that is foreign, replayed, wanted or an ERROR decides the
   wait, whatever comes behind these reads; without one the wait goes on behind them.
   */
  lemma {:induction false} FirstDecides(ear: Ear, now: seq<Tick>, later: seq<Tick>, id: TxId,
                                        wanted: set<MessageType>, fs: seq<Frame>, k: nat) returns (next: Ear)
    requires ear.tape == now + later && Hears(ear.(tape := now), fs) && k <= |fs|
    requires forall i | 0 <= i < k :: Unheeded(fs, i, ear.last, id, wanted)
    ensures k < |fs| && !Unheeded(fs, k, ear.last, id, wanted) ==>
      Verdict(Listen(ear, id, wanted).result, fs, k, ear.last, id, wanted)
    ensures k == |fs| ==>
      && Listen(ear, id, wanted) == Listen(next, id, wanted)
      && Settled(next.buffer) && next.last == Noted(ear.last, id, fs) && next.tape == later
    decreases |now|
  {
    hide Drain, Hears, Settled, Scan, Unheeded, Verdict, New;
    next := ear;
    HearsSettled(ear.(tape := now), fs);
    if now == [] {
      NotOverYet(ear, fs);
      assert ear.tape == later;
    } else {
      ReadHears(ear.(tape := now), fs);
      var bytes := now[0].bytes;
      var d := Drain(ear.buffer + bytes);
      var n := |d.frames|;
      assert ear.tape[0] == now[0] && ear.tape[1..] == now[1..] + later;
      if bytes == [] {
        QuietRead(ear.buffer);
        assert fs[0..] == fs;
        next := FirstDecides(ear.(tape := ear.tape[1..]), now[1..], later, id, wanted, fs, k);
      } else if k < n {
        BatchDecides(fs, n, ear.last, id, wanted, k);
      } else {
        BatchPasses(fs, n, ear.last, id, wanted, k);
        var on := Ear(d.rest, Noted(ear.last, id, fs[..n]), ear.tape[1..]);
        next := FirstDecides(on, now[1..], later, id, wanted, fs[n..], k - n);
        NotedTwice(ear.last, id, fs, n);
      }
    }
  }

  lemma NotOverYet(ear: Ear, fs: seq<Frame>)
    requires Hears(ear.(tape := []), fs)
    ensures fs == []
  {
    if fs != [] {
      NotOver(ear.(tape := []), fs);
    }
  }

  lemma NotedTwice(last: map<TxId, u32>, id: TxId, fs: seq<Frame>, n: nat)
    requires n <= |fs|
    ensures Noted(Noted(last, id, fs[..n]), id, fs[n..]) == Noted(last, id, fs)
  {
    if n == |fs| {
      assert fs[..n] == fs;
    }
  }

  lemma UnheededHead(fs: seq<Frame>, n: nat, i: nat, last: map<TxId, u32>, id: TxId, wanted: set<MessageType>)
    requires i < n <= |fs|
    ensures New(fs[..n], i, last, id) <==> New(fs, i, last, id)
  {
    assert forall j | 0 <= j < i :: fs[..n][j] == fs[j];
  }

  lemma BatchDecides(fs: seq<Frame>, n: nat, last: map<TxId, u32>, id: TxId, wanted: set<MessageType>, k: nat)
    requires k < n <= |fs| && forall i | 0 <= i < k :: Unheeded(fs, i, last, id, wanted)
    ensures var s := Scan(fs[..n], last, id, wanted);
      !Unheeded(fs, k, last, id, wanted) ==> !s.Nothing? && Verdict(Outcome(s), fs, k, last, id, wanted)
  {
    hide Scan, New;
    forall i | 0 <= i <= k
      ensures Unheeded(fs[..n], i, last, id, wanted) <==> Unheeded(fs, i, last, id, wanted)
    {
      UnheededHead(fs, n, i, last, id, wanted);
    }
    UnheededHead(fs, n, k, last, id, wanted);
    ScanDecides(fs[..n], last, id, wanted, k);
  }

  lemma BatchPasses(fs: seq<Frame>, n: nat, last: map<TxId, u32>, id: TxId, wanted: set<MessageType>, k: nat)
    requires n <= k <= |fs| && forall i | 0 <= i < k :: Unheeded(fs, i, last, id, wanted)
    ensures var noted := Noted(last, id, fs[..n]);
      && Scan(fs[..n], last, id, wanted) == Nothing(noted)
      && (forall i | 0 <= i < k - n :: Unheeded(fs[n..], i, noted, id, wanted))
      && (k < |fs| ==> forall r: Result<Frame, LinkError> ::
            Verdict(r, fs[n..], k - n, noted, id, wanted) ==> Verdict(r, fs, k, last, id, wanted))
      && (k < |fs| ==> (Unheeded(fs[n..], k - n, noted, id, wanted) <==> Unheeded(fs, k, last, id, wanted)))
  {
    hide Scan, New, Noted;
    forall i | 0 <= i < n
      ensures Unheeded(fs[..n], i, last, id, wanted)
    {
      UnheededHead(fs, n, i, last, id, wanted);
      assert Unheeded(fs, i, last, id, wanted);
    }
    ScanDecides(fs[..n], last, id, wanted, n);
    forall i | 0 <= i < |fs| - n
      ensures New(fs[n..], i, Noted(last, id, fs[..n]), id) <==> New(fs, n + i, last, id)
    {
      UnheededLater(fs, n, i, last, id, wanted);
    }
    forall i | 0 <= i < k - n
      ensures Unheeded(fs[n..], i, Noted(last, id, fs[..n]), id, wanted)
    {
      assert Unheeded(fs, n + i, last, id, wanted);
    }
  }

  /** An ERROR event that nobody waits for ends the wait with what it carries. */
  lemma DeviceError(last: map<TxId, u32>, id: TxId, wanted: set<MessageType>, f: Frame, later: seq<Tick>)
    requires f.messageType == Error && Error !in wanted && f.transactionId == id
    requires id in last ==> last[id] < f.sequence
    ensures Listen(Ear([], last, [Read(Encode(f))] + later), id, wanted).result == Err(Device(f.payload))
  {
    hide Listen, Hears, Encode;
    var bytes := Encode(f);
    FirstRead(bytes, [], last, [f]);
    var next := FirstDecides(Ear([], last, [Read(bytes)] + later), [Read(bytes)] + [], later, id, wanted, [f], 0);
  }


  /**
   And when no frame decides it: the deadline ends the wait with a timeout, a read that raises with its
   failure, and a read that cannot be decoded with the decoder's error.
   */
  lemma NoneDecides(ear: Ear, now: seq<Tick>, t: Tick, later: seq<Tick>, id: TxId, wanted: set<MessageType>,
                    fs: seq<Frame>) returns (buffer: seq<byte>)
    requires ear.tape == now + ([t] + later) && Hears(ear.(tape := now), fs)
    requires forall i | 0 <= i < |fs| :: Unheeded(fs, i, ear.last, id, wanted)
    ensures Settled(buffer) && (now == [] ==> buffer == ear.buffer)
    ensures t == Deadline ==> Listen(ear, id, wanted).result == Err(Timeout)
    ensures t == Fault ==> Listen(ear, id, wanted).result == Err(ReadFailed)
    ensures t.Read? && t.bytes != [] && Drain(buffer + t.bytes).error.Some? ==>
      Listen(ear, id, wanted).result == Err(LinkError.Protocol(Drain(buffer + t.bytes).error.value))
  {
    hide Hears, Settled, Unheeded, Drain;
    var next := FirstDecides(ear, now, [t] + later, id, wanted, fs, |fs|);
    if now == [] {
      HearsSettled(ear.(tape := now), fs);
      buffer := ear.buffer;
      assert ear.tape == [t] + later;
    } else {
      buffer := next.buffer;
    }
    assert ([t] + later)[0] == t;
  }

  /** A corrupted frame ends the wait with the checksum error. */
  lemma CorruptedEndsWait(f: Frame, e': seq<byte>, last: map<TxId, u32>, id: TxId, wanted: set<MessageType>,
                          later: seq<Tick>)
    requires SameFraming(Encode(f), e') && Polynomial.Burst(Crc.MessageBits(Encode(f)), Crc.MessageBits(e'))
    ensures Listen(Ear([], last, [Read(e')] + later), id, wanted).result == Err(LinkError.Protocol(CrcMismatch))
  {
    hide Drain, Encode, SameFraming, Polynomial.Burst;
    BurstRejected(f, e', []);
    SameFramingSome(f, e');
    assert e' + [] == e' && [] + e' == e' && ([Read(e')] + later)[0] == Read(e');
  }

  lemma SameFramingSome(f: Frame, e': seq<byte>)
    requires SameFraming(Encode(f), e')
    ensures e' != []
  {
    hide EncodeRaw;
  }

  lemma {:induction false} FirstHeeded(fs: seq<Frame>, last: map<TxId, u32>, id: TxId, wanted: set<MessageType>, n: nat)
      returns (k: nat)
    requires n <= |fs| && forall i | 0 <= i < n :: Unheeded(fs, i, last, id, wanted)
    ensures k <= |fs| && forall i | 0 <= i < k :: Unheeded(fs, i, last, id, wanted)
    ensures k < |fs| ==> !Unheeded(fs, k, last, id, wanted)
    decreases |fs| - n
  {
    hide Unheeded;
    k := n;
    if n < |fs| && Unheeded(fs, n, last, id, wanted) {
      k := FirstHeeded(fs, last, id, wanted, n + 1);
    }
  }

  /** What the reads of a stretch of tape brought. */
  function Chunks(tape: seq<Tick>): seq<seq<byte>>
  {
    if tape == [] then []
    else (if tape[0].Read? && tape[0].bytes != [] then [tape[0].bytes] else []) + Chunks(tape[1..])
  }

  /** The `k`-th of these frames is the one waited for, and the wait passed over all before it. */
  predicate Waited(fs: seq<Frame>, k: nat, f: Frame, last: map<TxId, u32>, id: TxId, wanted: set<MessageType>)
  {
    && k < |fs| && fs[k] == f && f.transactionId == id && New(fs, k, last, id) && f.messageType in wanted
    && forall i | 0 <= i < k :: Unheeded(fs, i, last, id, wanted)
  }

  lemma WaitedBehind(d: seq<Frame>, rest: seq<Frame>, k: nat, f: Frame, last: map<TxId, u32>, id: TxId,
                     wanted: set<MessageType>)
    requires forall i | 0 <= i < |d| :: Unheeded(d, i, last, id, wanted)
    requires Waited(rest, k, f, Noted(last, id, d), id, wanted)
    ensures Waited(d + rest, |d| + k, f, last, id, wanted)
  {
    hide New, Noted;
    var fs, n := d + rest, |d|;
    assert fs[n..] == rest && fs[..n] == d;
    forall i | 0 <= i < n
      ensures Unheeded(fs, i, last, id, wanted)
    {
      UnheededHead(fs, n, i, last, id, wanted);
      assert Unheeded(d, i, last, id, wanted);
    }
    forall i | 0 <= i < |rest|
      ensures New(rest, i, Noted(last, id, d), id) <==> New(fs, n + i, last, id)
    {
      UnheededLater(fs, n, i, last, id, wanted);
    }
    forall i | 0 <= i < n + k
      ensures Unheeded(fs, i, last, id, wanted)
    {
      if i >= n {
        assert Unheeded(rest, i - n, Noted(last, id, d), id, wanted);
      }
    }
  }

  lemma WaitedAhead(d: seq<Frame>, rest: seq<Frame>, k: nat, f: Frame, last: map<TxId, u32>, id: TxId,
                    wanted: set<MessageType>)
    requires Waited(d, k, f, last, id, wanted)
    ensures Waited(d + rest, k, f, last, id, wanted)
  {
    hide New;
    var fs := d + rest;
    assert fs[..|d|] == d;
    forall i | 0 <= i <= k
      ensures New(fs, i, last, id) <==> New(d, i, last, id)
    {
      UnheededHead(fs, |d|, i, last, id, wanted);
    }
    forall i | 0 <= i < k
      ensures Unheeded(fs, i, last, id, wanted)
    {
      assert Unheeded(d, i, last, id, wanted);
    }
  }

  /** What scanning one batch says about its frames. */
  lemma ScanTells(fs: seq<Frame>, last: map<TxId, u32>, id: TxId, wanted: set<MessageType>) returns (k: nat)
    ensures var s := Scan(fs, last, id, wanted);
      && (s.Found? ==> Waited(fs, k, s.frame, last, id, wanted))
      && (s.Nothing? ==> s.last == Noted(last, id, fs) && forall i | 0 <= i < |fs| :: Unheeded(fs, i, last, id, wanted))
  {
    hide Scan, New;
    k := FirstHeeded(fs, last, id, wanted, 0);
    ScanDecides(fs, last, id, wanted, k);
  }

  /**
   Nothing is passed over in silence: whatever the bytes, no foreign, replayed or ERROR frame lies
   among the frames decoded before the one that a wait returns.
   */
  lemma {:induction false} NothingSkipped(ear: Ear, id: TxId, wanted: set<MessageType>)
      returns (used: seq<Tick>, k: nat)
    requires Listen(ear, id, wanted).result.Ok?
    ensures var h := Listen(ear, id, wanted);
      && ear.tape == used + h.ear.tape && Timely(used)
      && Waited(Handed(ear.buffer, Chunks(used)), k, h.result.value, ear.last, id, wanted)
    decreases |ear.tape|
  {
    hide Drain, Scan, Waited, Unheeded, Noted, Handed, Chunks, Timely;
    var h := Listen(ear, id, wanted);
    var t, later := ear.tape[0], ear.tape[1..];
    if t.bytes == [] {
      used, k := NothingSkipped(ear.(tape := later), id, wanted);
    } else {
      var d := Drain(ear.buffer + t.bytes);
      k := ScanTells(d.frames, ear.last, id, wanted);
      var s := Scan(d.frames, ear.last, id, wanted);
      used := [];
      NoTicks();
      if s.Nothing? {
        var j;
        used, j := NothingSkipped(Ear(d.rest, s.last, later), id, wanted);
        k := |d.frames| + j;
        WaitedBehind(d.frames, Handed(d.rest, Chunks(used)), j, h.result.value, ear.last, id, wanted);
      } else {
        WaitedAhead(d.frames, Handed(d.rest, Chunks(used)), k, h.result.value, ear.last, id, wanted);
      }
      HandedCons(ear.buffer, t.bytes, Chunks(used));
    }
    ChunksCons(t, used);
    assert ear.tape == [t] + later == [t] + used + h.ear.tape;
    used := [t] + used;
  }

  lemma ChunksCons(t: Tick, used: seq<Tick>)
    ensures Chunks([t] + used) == (if t.Read? && t.bytes != [] then [t.bytes] else []) + Chunks(used)
    ensures t.Read? && t.bytes == [] ==> Chunks([t] + used) == Chunks(used)
    ensures t.Read? && Timely(used) ==> Timely([t] + used)
  {
    assert ([t] + used)[1..] == used;
  }

  lemma NoTicks()
    ensures Timely([])
  {}

  lemma HandedCons(buffer: seq<byte>, c: seq<byte>, chunks: seq<seq<byte>>)
    requires Drain(buffer + c).error.None?
    ensures Handed(buffer, [c] + chunks) == Drain(buffer + c).frames + Handed(Drain(buffer + c).rest, chunks)
  {
    hide Drain;
    assert ([c] + chunks)[1..] == chunks;
  }

  /** `e` are the states of the ear between successful waits for `wanted`. */
  ghost predicate Waits(e: seq<Ear>, id: TxId, wanted: seq<set<MessageType>>)
  {
    && |e| == |wanted| + 1
    && forall i | 0 <= i < |wanted| ::
         Listen(e[i], id, wanted[i]).result.Ok? && Listen(e[i], id, wanted[i]).ear == e[i + 1]
  }

  /** As many waits as frames can only succeed when no read brought two of them. */
  lemma {:induction false} OneEach(e: seq<Ear>, id: TxId, wanted: seq<set<MessageType>>, fs: seq<Frame>)
    requires Waits(e, id, wanted) && Hears(e[0], fs) && |fs| <= |wanted|
    ensures |fs| == |wanted| && OnePerRead(e[0].buffer, e[0].tape)
    decreases |wanted|
  {
    hide Hears, Listen, OnePerRead;
    if wanted == [] {
      assert fs == [];
      HearsNothing(e[0]);
    } else {
      var n := ListenUses(e[0], id, wanted[0], fs);
      assert forall i | 0 <= i < |wanted| - 1 :: wanted[1..][i] == wanted[i + 1] && e[1..][i] == e[i + 1];
      OneEach(e[1..], id, wanted[1..], fs[n..]);
    }
  }

  /** The seven waits of a script that returned. */
  lemma ScriptWaits(ear: Ear, id: TxId, offerSlot: byte, offer: Mon, sha: Mon -> Digest)
      returns (e: seq<Ear>, wanted: seq<set<MessageType>>)
    requires Script(ear, id, offerSlot, offer, sha).result.Ok?
    ensures |wanted| == 7 && Waits(e, id, wanted) && e[0] == ear
  {
    hide Listen;
    wanted := [{OfferReady}, {TradeSessionStarted}, {PartnerParty}, {PartnerSelectedSlot}, {PartnerSelectedMon},
               {TradeCommitted, TradeAborted, Error}, {TradeLinkClosed, Error}];
    var e1 := Listen(ear, id, wanted[0]).ear;
    var e2 := Listen(e1, id, wanted[1]).ear;
    var e3 := Listen(e2, id, wanted[2]).ear;
    var e4 := Listen(e3, id, wanted[3]).ear;
    var e5 := Listen(e4, id, wanted[4]).ear;
    var e6 := Listen(e5, id, wanted[5]).ear;
    e := [ear, e1, e2, e3, e4, e5, e6, Listen(e6, id, wanted[6]).ear];
  }

  /** Any seven events that tell one consistent trade, one a read, make the script return that trade. */
  lemma ScriptCompletes(ear: Ear, id: TxId, offerSlot: byte, offer: Mon, sha: Mon -> Digest,
                        fs: seq<Frame>, n: u32, r: GbaTradeResult)
    requires TradeEvents(fs, offerSlot, offer, sha, r) && Consecutive(fs, id, n) && n + 7 <= 0xFFFF_FFFF
    requires Expecting(ear, fs) && (id in ear.last ==> ear.last[id] <= n)
    ensures Script(ear, id, offerSlot, offer, sha).result == Ok(r)
  {
    hide Listen, Expecting, Consecutive, PartySlice, CommitPayload;
    var e := SevenWaits(ear, id, fs, n);
  }

  /**
   The exact condition: when the seven events of one consistent trade arrive in time, the script
   returns that trade if and only if no read completes two frames.
   */
  lemma ScriptCompletesIff(ear: Ear, id: TxId, offerSlot: byte, offer: Mon, sha: Mon -> Digest,
                           fs: seq<Frame>, n: u32, r: GbaTradeResult)
    requires TradeEvents(fs, offerSlot, offer, sha, r) && Consecutive(fs, id, n) && n + 7 <= 0xFFFF_FFFF
    requires Hears(ear, fs) && (id in ear.last ==> ear.last[id] <= n)
    ensures Script(ear, id, offerSlot, offer, sha).result.Ok? <==> OnePerRead(ear.buffer, ear.tape)
    ensures Script(ear, id, offerSlot, offer, sha).result == Ok(r) <==> OnePerRead(ear.buffer, ear.tape)
  {
    hide Script, Hears, Waits, Consecutive, OnePerRead;
    if Script(ear, id, offerSlot, offer, sha).result.Ok? {
      var e, wanted := ScriptWaits(ear, id, offerSlot, offer, sha);
      OneEach(e, id, wanted, fs);
    }
    if OnePerRead(ear.buffer, ear.tape) {
      ScriptCompletes(ear, id, offerSlot, offer, sha, fs, n, r);
    }
  }

  // ---- Where the script stops

  /** What the script waits for at event `i`. */
  function Wanted(i: nat): set<MessageType>
  {
    if i == 0 then {OfferReady}
    else if i == 1 then {TradeSessionStarted}
    else if i == 2 then {PartnerParty}
    else if i == 3 then {PartnerSelectedSlot}
    else if i == 4 then {PartnerSelectedMon}
    else if i == 5 then {TradeCommitted, TradeAborted, Error}
    else {TradeLinkClosed, Error}
  }

  /** Event `i` is what a consistent trade has at this place. */
  predicate FitsAt(fs: seq<Frame>, i: nat, offerSlot: byte, offer: Mon, sha: Mon -> Digest)
    requires i < |fs| && i < 6
  {
    var payload := fs[i].payload;
    if i == 0 then fs[0].messageType == OfferReady && payload == [offerSlot] + sha(offer)
    else if i == 1 then fs[1].messageType == TradeSessionStarted
    else if i == 2 then fs[2].messageType == PartnerParty && |payload| == 600
    else if i == 3 then fs[3].messageType == PartnerSelectedSlot && |payload| == 1 && payload[0] <= 5
    else if i == 4 then
      && fs[4].messageType == PartnerSelectedMon && |payload| == 100
      && |fs[2].payload| == 600 && |fs[3].payload| == 1 && fs[3].payload[0] <= 5
      && payload == PartySlice(fs[2].payload, fs[3].payload[0])
    else
      && fs[5].messageType == TradeCommitted && |fs[4].payload| == 100
      && payload == CommitPayload(sha(offer), sha(fs[4].payload))
  }

  /** The error for an event of the awaited type that does not fit. */
  function Misfit(fs: seq<Frame>, i: nat): LinkError
    requires i < |fs|
  {
    if i == 0 then OfferMismatch
    else if i == 2 then BadParty
    else if i == 3 then BadSlot
    else if i == 4 then (if |fs[4].payload| == 100 then ContradictsParty else InvalidPokemon)
    else if fs[i].messageType == TradeCommitted then CommitMismatch
    else CommitNotConfirmed(fs[i].messageType)
  }

  /** The states of the ear while the first `i` events, one a read, end the first `i` waits. */
  lemma {:induction false} WaitsUpTo(ear: Ear, id: TxId, fs: seq<Frame>, n: u32, i: nat) returns (e: seq<Ear>)
    requires i <= |fs| && Consecutive(fs, id, n) && n + |fs| <= 0xFFFF_FFFF
    requires Expecting(ear, fs) && (id in ear.last ==> ear.last[id] <= n)
    requires forall j | 0 <= j < i :: fs[j].messageType in Wanted(j)
    ensures |e| == i + 1 && e[0] == ear
    ensures forall j | 0 <= j < i :: Listen(e[j], id, Wanted(j)) == Heard(Ok(fs[j]), e[j + 1])
    ensures Expecting(e[i], fs[i..]) && (id in e[i].last ==> e[i].last[id] <= n + i)
    decreases i
  {
    hide Listen, Expecting, Consecutive, Wanted;
    if i == 0 {
      assert fs[0..] == fs;
      e := [ear];
    } else {
      e := WaitsUpTo(ear, id, fs, n, i - 1);
      var next := HeedAt(e[i - 1], id, Wanted(i - 1), fs, i - 1, n);
      e := e + [next];
    }
  }

  /** The first `i` waits of the script, with what each waits for written out. */
  lemma FirstWaits(e: seq<Ear>, id: TxId, offerSlot: byte, offer: Mon, sha: Mon -> Digest, fs: seq<Frame>, i: nat)
    requires i < 6 && i < |fs| && |e| == i + 1
    requires forall j | 0 <= j < i :: Listen(e[j], id, Wanted(j)) == Heard(Ok(fs[j]), e[j + 1])
    requires forall j | 0 <= j < i :: FitsAt(fs, j, offerSlot, offer, sha)
    ensures i > 0 ==> Listen(e[0], id, {OfferReady}) == Heard(Ok(fs[0]), e[1])
    ensures i > 1 ==> Listen(e[1], id, {TradeSessionStarted}) == Heard(Ok(fs[1]), e[2])
    ensures i > 2 ==> Listen(e[2], id, {PartnerParty}) == Heard(Ok(fs[2]), e[3])
    ensures i > 3 ==> Listen(e[3], id, {PartnerSelectedSlot}) == Heard(Ok(fs[3]), e[4])
    ensures i > 4 ==> Listen(e[4], id, {PartnerSelectedMon}) == Heard(Ok(fs[4]), e[5])
    ensures i > 0 ==> fs[0].payload == [offerSlot] + sha(offer)
    ensures i > 2 ==> |fs[2].payload| == 600
    ensures i > 3 ==> |fs[3].payload| == 1 && fs[3].payload[0] <= 5
    ensures i > 4 ==> |fs[4].payload| == 100 && fs[4].payload == PartySlice(fs[2].payload, fs[3].payload[0])
  {
    hide Listen, CommitPayload, PartySlice;
    assert i > 0 ==> FitsAt(fs, 0, offerSlot, offer, sha);
    assert i > 2 ==> FitsAt(fs, 2, offerSlot, offer, sha);
    assert i > 3 ==> FitsAt(fs, 3, offerSlot, offer, sha);
    assert i > 4 ==> FitsAt(fs, 4, offerSlot, offer, sha);
    assert Wanted(0) == {OfferReady} && Wanted(1) == {TradeSessionStarted} && Wanted(2) == {PartnerParty};
    assert Wanted(3) == {PartnerSelectedSlot} && Wanted(4) == {PartnerSelectedMon};
  }

  /** A wait that fails fails the script. */
  lemma ScriptFailsWith(e: seq<Ear>, id: TxId, offerSlot: byte, offer: Mon, sha: Mon -> Digest, fs: seq<Frame>, i: nat)
    requires i < 6 && i < |fs| && |e| == i + 1
    requires forall j | 0 <= j < i :: Listen(e[j], id, Wanted(j)) == Heard(Ok(fs[j]), e[j + 1])
    requires forall j | 0 <= j < i :: FitsAt(fs, j, offerSlot, offer, sha)
    requires Listen(e[i], id, Wanted(i)).result.Err?
    ensures Script(e[0], id, offerSlot, offer, sha).result == Err(Listen(e[i], id, Wanted(i)).result.error)
  {
    FirstWaits(e, id, offerSlot, offer, sha, fs, i);
    hide Listen, CommitPayload, PartySlice, FitsAt;
  }

  /** An event of the awaited type that does not fit fails the script. */
  lemma ScriptMisfits(e: seq<Ear>, id: TxId, offerSlot: byte, offer: Mon, sha: Mon -> Digest, fs: seq<Frame>, i: nat)
    requires i < 6 && i < |fs| && |e| == i + 1
    requires forall j | 0 <= j < i :: Listen(e[j], id, Wanted(j)) == Heard(Ok(fs[j]), e[j + 1])
    requires forall j | 0 <= j < i :: FitsAt(fs, j, offerSlot, offer, sha)
    requires Listen(e[i], id, Wanted(i)).result == Ok(fs[i]) && fs[i].messageType in Wanted(i)
    requires !FitsAt(fs, i, offerSlot, offer, sha) && i != 1
    ensures Script(e[0], id, offerSlot, offer, sha).result == Err(Misfit(fs, i))
  {
    FirstWaits(e, id, offerSlot, offer, sha, fs, i);
    hide Listen, CommitPayload, PartySlice;
  }

  /**
   The first event that is not as it must be decides how the script fails, when the events come one a
   read: an ERROR with what it carries, an aborted or failed commit with its type, and an event of the
   awaited type that contradicts the offer, the party or the digests with the error for just that.
   */
  lemma ScriptStops(ear: Ear, id: TxId, offerSlot: byte, offer: Mon, sha: Mon -> Digest, fs: seq<Frame>, i: nat,
                    n: u32)
    requires i < 6 && i < |fs| && Consecutive(fs, id, n) && n + |fs| <= 0xFFFF_FFFF
    requires Expecting(ear, fs) && (id in ear.last ==> ear.last[id] <= n)
    requires forall j | 0 <= j < i :: FitsAt(fs, j, offerSlot, offer, sha)
    ensures fs[i].messageType in Wanted(i) && !FitsAt(fs, i, offerSlot, offer, sha) ==>
      Script(ear, id, offerSlot, offer, sha).result == Err(Misfit(fs, i))
    ensures fs[i].messageType == Error && i < 5 ==>
      Script(ear, id, offerSlot, offer, sha).result == Err(Device(fs[i].payload))
  {
    hide Listen, Script, Expecting, Hears, Verdict, Unheeded, Misfit;
    FitsWanted(fs, i, offerSlot, offer, sha);
    var e := WaitsUpTo(ear, id, fs, n, i);
    if fs[i].messageType in Wanted(i) {
      var next := HeedAt(e[i], id, Wanted(i), fs, i, n);
      if !FitsAt(fs, i, offerSlot, offer, sha) {
        ScriptMisfits(e, id, offerSlot, offer, sha, fs, i);
      }
    } else if fs[i].messageType == Error {
      ErrorNow(e[i], id, Wanted(i), fs[i..], n + i);
      ScriptFailsWith(e, id, offerSlot, offer, sha, fs, i);
    }
  }

  lemma FitsWanted(fs: seq<Frame>, i: nat, offerSlot: byte, offer: Mon, sha: Mon -> Digest)
    requires i < 6 && i < |fs| && forall j | 0 <= j < i :: FitsAt(fs, j, offerSlot, offer, sha)
    ensures forall j | 0 <= j < i :: fs[j].messageType in Wanted(j)
    ensures i == 1 && fs[1].messageType in Wanted(1) ==> FitsAt(fs, 1, offerSlot, offer, sha)
    ensures i < 5 ==> Error !in Wanted(i)
  {
    hide CommitPayload, PartySlice;
    forall j | 0 <= j < i
      ensures fs[j].messageType in Wanted(j)
    {
      assert FitsAt(fs, j, offerSlot, offer, sha);
    }
  }

  lemma ErrorNow(ear: Ear, id: TxId, wanted: set<MessageType>, fs: seq<Frame>, n: u32)
    requires fs != [] && Expecting(ear, fs) && (id in ear.last ==> ear.last[id] <= n)
    requires fs[0].transactionId == id && fs[0].sequence > n
    requires fs[0].messageType == Error && Error !in wanted
    ensures Listen(ear, id, wanted).result == Err(Device(fs[0].payload))
  {
    hide Listen, Hears;
    assert ear.tape + [] == ear.tape;
    var next := FirstDecides(ear, ear.tape, [], id, wanted, fs, 0);
  }

  // ---- Why one frame a read

  lemma {:induction false} DrainClean(fs: seq<Frame>)
    ensures Drain(EncodeAll(fs)) == Drained(fs, [], None)
    decreases |fs|
  {
    hide Encode, Aligned, Search.Find;
    if fs == [] {
      Search.FindNone([], MAGIC);
    } else {
      var rest := EncodeAll(fs[1..]);
      var b := Encode(fs[0]) + rest;
      AlignedEncode(fs[0], rest);
      Search.StartsAt(b, MAGIC);
      assert b[0..] == b;
      DrainClean(fs[1..]);
      assert [fs[0]] + fs[1..] == fs;
    }
  }

  /** Each piece is one read. */
  function Reads(chunks: seq<seq<byte>>): seq<Tick>
  {
    if chunks == [] then [] else [Read(chunks[0])] + Reads(chunks[1..])
  }

  lemma {:induction false} ReadsBring(chunks: seq<seq<byte>>)
    ensures Timely(Reads(chunks)) && TapeBytes(Reads(chunks)) == Flatten(chunks)
    decreases |chunks|
  {
    if chunks != [] {
      ReadsBring(chunks[1..]);
      assert Reads(chunks)[1..] == Reads(chunks[1..]);
    }
  }

  lemma PartAligned(f: Frame, k: nat)
    requires 4 <= k < |Encode(f)|
    ensures MAGIC <= Encode(f)[..k] && Aligned(Encode(f)[..k]) == Wait(Encode(f)[..k])
  {
    var e := Encode(f);
    var b := e[..k];
    EncodedFields(Code(f.messageType), f.transactionId, f.sequence, f.payload, []);
    hide Crc.Crc32, EncodeRaw, Read32, Read16, ReadWord;
    assert e + [] == e && e == b + e[k..] && b[..4] == e[..4];
    if k >= HEADER_SIZE {
      HeaderExtend(b, e[k..]);
    }
  }

  /** A part of a frame stays in the buffer and brings nothing. */
  lemma PartWaits(f: Frame, k: nat)
    requires k < |Encode(f)|
    ensures Drain(Encode(f)[..k]) == Drained([], Encode(f)[..k], None)
  {
    hide Encode, Aligned, Search.Find;
    if k >= 4 {
      PartAligned(f, k);
      RoundAligned(Encode(f)[..k]);
    } else {
      ShortHasNone(Encode(f)[..k]);
    }
  }

  lemma ShortHasNone(b: seq<byte>)
    requires |b| < 4
    ensures Search.Find(b, MAGIC) < 0 && Last(b, 3) == b
  {
    Search.FindNone(b, MAGIC);
  }

  lemma {:induction false} EmptyReads(chunks: seq<seq<byte>>, later: seq<seq<byte>>)
    requires Flatten(chunks) == [] && OnePerRead([], Reads(later))
    ensures OnePerRead([], Reads(chunks + later))
    decreases |chunks|
  {
    hide Drain;
    if chunks == [] {
      assert chunks + later == later;
    } else {
      assert chunks[0] == [] && (chunks + later)[1..] == chunks[1..] + later;
      EmptyReads(chunks[1..], later);
      EmptyDrained();
      assert Reads(chunks + later)[1..] == Reads(chunks[1..] + later);
    }
  }

  lemma {:induction false} PiecesOneEach(f: Frame, k: nat, chunks: seq<seq<byte>>, later: seq<seq<byte>>)
    requires k < |Encode(f)| && Flatten(chunks) == Encode(f)[k..] && OnePerRead([], Reads(later))
    ensures OnePerRead(Encode(f)[..k], Reads(chunks + later))
    decreases |chunks|
  {
    hide Drain, EncodeRaw;
    var e := Encode(f);
    assert e[k..] != [];
    var c, tail := chunks[0], Flatten(chunks[1..]);
    var k' := k + |c|;
    assert c == e[k..][..|c|] && tail == e[k..][|c|..];
    assert e[..k] + c == e[..k'] && tail == e[k'..];
    assert (chunks + later)[1..] == chunks[1..] + later;
    assert Reads(chunks + later)[1..] == Reads(chunks[1..] + later);
    if k' < |e| {
      PartWaits(f, k');
      PiecesOneEach(f, k', chunks[1..], later);
    } else {
      WholeDrained(f);
      assert e[..k'] == e;
      EmptyReads(chunks[1..], later);
    }
  }

  lemma WholeDrained(f: Frame)
    ensures Drain(Encode(f)) == Drained([f], [], None)
  {
    DrainClean([f]);
    hide Drain, Encode;
    assert EncodeAll([f]) == Encode(f) + EncodeAll([]) == Encode(f);
  }

  lemma {:induction false} CutOnePerRead(fs: seq<Frame>, cuts: seq<seq<seq<byte>>>)
    requires Cut(fs, cuts)
    ensures OnePerRead([], Reads(Flatten(cuts)))
    decreases |fs|
  {
    hide EncodeRaw, Reads;
    CutHasHead(fs, cuts);
    if fs == [] {
      NoReads();
    } else {
      CutTail(fs, cuts);
      CutOnePerRead(fs[1..], cuts[1..]);
      assert Flatten(cuts[0]) == Encode(fs[0]) && Encode(fs[0])[0..] == Encode(fs[0]) && Encode(fs[0])[..0] == [];
      PiecesOneEach(fs[0], 0, cuts[0], Flatten(cuts[1..]));
    }
  }

  lemma NoReads()
    ensures Reads([]) == []
  {}

  /**
   So the condition is met whenever no read spans two frames: each frame may come in any number of
   reads, as a long one must.
   */
  lemma CutExpected(fs: seq<Frame>, cuts: seq<seq<seq<byte>>>, last: map<TxId, u32>)
    requires Cut(fs, cuts)
    ensures Expecting(Ear([], last, Reads(Flatten(cuts))), fs)
  {
    CutOnePerRead(fs, cuts);
    CutStream(fs, cuts);
    ReadsBring(Flatten(cuts));
    CleanStream(fs);
    EmptySettled();
    hide Drain, EncodeAll, Events, Leftover, Reads, OnePerRead, Timely, Settled, TapeBytes, Cut, Flatten;
    assert [] + EncodeAll(fs) == EncodeAll(fs);
  }

  /** The frames that follow the wanted one in the same read leave no trace at all. */
  lemma BatchDropsLater(ear: Ear, id: TxId, wanted: set<MessageType>, fs: seq<Frame>, t: seq<Tick>)
    requires fs != [] && ear.buffer == [] && ear.tape == [Read(EncodeAll(fs))] + t
    requires fs[0].transactionId == id && Admits(ear.last, fs[0]) && fs[0].messageType in wanted
    ensures Listen(ear, id, wanted) == Heard(Ok(fs[0]), Ear([], ear.last[id := fs[0].sequence], t))
  {
    hide *;
    DrainClean(fs);
    EncodeSome(fs);
    FirstOfBatch(ear, id, wanted, EncodeAll(fs), fs, t);
  }

  lemma FirstOfBatch(ear: Ear, id: TxId, wanted: set<MessageType>, bytes: seq<byte>, fs: seq<Frame>, t: seq<Tick>)
    requires fs != [] && bytes != [] && ear.buffer == [] && ear.tape == [Read(bytes)] + t
    requires Drain(bytes) == Drained(fs, [], None)
    requires fs[0].transactionId == id && Admits(ear.last, fs[0]) && fs[0].messageType in wanted
    ensures Listen(ear, id, wanted) == Heard(Ok(fs[0]), Ear([], ear.last[id := fs[0].sequence], t))
  {
    hide Drain;
    assert [] + bytes == bytes && ear.tape[1..] == t;
  }

  lemma EncodeSome(fs: seq<Frame>)
    requires fs != []
    ensures EncodeAll(fs) != []
  {
    AlignedEncode(fs[0], []);
    hide Encode, Aligned;
    assert |Encode(fs[0]) + []| >= |MAGIC|;
  }

  /**
   The smallest case: the first two events of a complete and consistent trade share a read (105 bytes
   as the bridge sends them), and everything else arrives in time, cut in any way. The trade fails.
   */
  lemma TwoEventsInOneRead(last: map<TxId, u32>, id: TxId, offerSlot: byte, offer: Mon, sha: Mon -> Digest,
                           fs: seq<Frame>, n: u32, r: GbaTradeResult, t: seq<Tick>)
    requires TradeEvents(fs, offerSlot, offer, sha, r) && Consecutive(fs, id, n) && n + 7 <= 0xFFFF_FFFF
    requires (id in last ==> last[id] <= n) && Timely(t) && TapeBytes(t) == EncodeAll(fs[2..])
    ensures Script(Ear([], last, [Read(EncodeAll(fs[..2]))] + t), id, offerSlot, offer, sha).result.Err?
    ensures fs[1].payload == [] ==> |EncodeAll(fs[..2])| == 105
  {
    assert |fs| == 7 && |fs[0].payload| == 33;
    if fs[1].payload == [] {
      TwoSizes(fs);
    }
    var ear := Ear([], last, [Read(EncodeAll(fs[..2]))] + t);
    hide Script, EncodeAll, TradeEvents, Consecutive, Hears, OnePerRead;
    PairHears(last, fs, t);
    ScriptCompletesIff(ear, id, offerSlot, offer, sha, fs, n, r);
  }

  lemma PairHears(last: map<TxId, u32>, fs: seq<Frame>, t: seq<Tick>)
    requires |fs| >= 2 && Timely(t) && TapeBytes(t) == EncodeAll(fs[2..])
    ensures var ear := Ear([], last, [Read(EncodeAll(fs[..2]))] + t);
      Hears(ear, fs) && !OnePerRead(ear.buffer, ear.tape)
  {
    hide *;
    var bytes := EncodeAll(fs[..2]);
    DrainClean(fs[..2]);
    Crowded(bytes, t);
    EncodeAllConcat(fs[..2], fs[2..]);
    assert fs[..2] + fs[2..] == fs;
    FirstRead(bytes, t, last, fs);
  }

  lemma Crowded(bytes: seq<byte>, t: seq<Tick>)
    requires |Drain(bytes).frames| == 2
    ensures !OnePerRead([], [Read(bytes)] + t)
  {
    hide Drain;
    assert [] + bytes == bytes;
  }

  lemma FirstRead(bytes: seq<byte>, t: seq<Tick>, last: map<TxId, u32>, fs: seq<Frame>)
    requires Timely(t) && bytes + TapeBytes(t) == EncodeAll(fs)
    ensures Hears(Ear([], last, [Read(bytes)] + t), fs)
  {
    CleanStream(fs);
    EmptySettled();
    UsedMore(Read(bytes), t);
    hide Events, EncodeAll, TapeBytes, Settled;
    assert [] + (bytes + TapeBytes(t)) == EncodeAll(fs);
  }

  lemma TwoSizes(fs: seq<Frame>)
    requires |fs| > 1 && |fs[0].payload| == 33 && fs[1].payload == []
    ensures |EncodeAll(fs[..2])| == 105
  {
    var two := fs[..2];
    assert two[0] == fs[0] && two[1..] == [fs[1]] && two[1..][1..] == [];
    assert EncodeAll(two[1..]) == Encode(fs[1]) + EncodeAll([]);
    hide EncodeRaw;
  }

  lemma {:induction false} EncodeAllConcat(a: seq<Frame>, b: seq<Frame>)
    ensures EncodeAll(a + b) == EncodeAll(a) + EncodeAll(b)
    decreases |a|
  {
    hide Encode;
    if a == [] {
      assert a + b == b;
    } else {
      assert (a + b)[1..] == a[1..] + b;
      EncodeAllConcat(a[1..], b);
    }
  }
}
