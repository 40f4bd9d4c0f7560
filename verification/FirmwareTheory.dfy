/** What the firmware's parser guarantees on arbitrary input, and when host and firmware agree. */
module FirmwareTheory {
  import opened Bytes
  import opened Crc
  import opened Protocol
  import opened FirmwareModel
  import opened FrameTheory

  // ---- One accepted frame

  /** An accepted frame is the encoding at the head of the buffer, for this transaction, and newer. */
  lemma AcceptSound(b: seq<byte>, id: TxId, last: u32)
    requires TurnOf(b, id, last).Accept?
    ensures var t := TurnOf(b, id, last);
      && EncodeParsed(t.frame) == b[..t.count] && |t.frame.payload| <= MAX_PAYLOAD
      && t.frame.transactionId == id && t.frame.sequence > last
  {
    hide Crc32, Read32, Write32, ReadWord, Read16, WriteWord, Header;
    var n := HEADER_SIZE + Read32(b, 8);
    HeaderBytes(b, b[5]);
    WriteReadWord(b, n);
    assert b[..n] == b[..HEADER_SIZE] + b[HEADER_SIZE..n];
    assert b[..n + 4] == b[..n] + b[n..n + 4];
  }

  lemma EncodedTurn(f: ParsedFrame, t: seq<byte>, id: TxId, last: u32)
    requires |f.payload| <= MAX_PAYLOAD
    ensures var b, n := EncodeParsed(f) + t, |EncodeParsed(f)|;
      && TurnOf(b, id, last) == (if f.transactionId == id && f.sequence > last then Accept(f, n) else Stale(n))
      && b[n..] == t
  {
    EncodedFields(f.code, f.transactionId, f.sequence, f.payload, t);
    hide Crc32, EncodeRaw, Read32, ReadWord, Read16;
  }

  /** While a frame is still arriving, the parser waits. */
  lemma PrefixHolds(f: ParsedFrame, k: nat, id: TxId, last: u32)
    requires |f.payload| <= MAX_PAYLOAD && k < |EncodeParsed(f)|
    ensures TurnOf(EncodeParsed(f)[..k], id, last).Hold?
  {
    var e := EncodeParsed(f);
    EncodedFields(f.code, f.transactionId, f.sequence, f.payload, []);
    assert e + [] == e;
    var p := e[..k];
    if k >= HEADER_SIZE {
      assert e == p + e[k..];
      HeaderExtend(p, e[k..]);
      assert p[..4] == MAGIC;
    } else if k >= 4 {
      assert p[..4] == e[..4];
    }
    hide Crc32, EncodeParsed, Read32, ReadWord, Read16;
  }

  // ---- More bytes never change a decision

  lemma TurnExtend(b: seq<byte>, more: seq<byte>, id: TxId, last: u32)
    requires !TurnOf(b, id, last).Hold?
    ensures TurnOf(b + more, id, last) == TurnOf(b, id, last)
  {
    assert (b + more)[..4] == b[..4];
    if |b| >= HEADER_SIZE {
      HeaderExtend(b, more);
      var n := HEADER_SIZE + Read32(b, 8);
      if n + CRC_SIZE <= |b| {
        BodyExtend(b, more, n);
      }
    }
    hide Crc32, Read32, Read16, ReadWord;
  }

  lemma {:induction false} ConsumeExtend(rx: Rx, more: seq<byte>, react: Reaction)
    ensures var c := Consume(rx, react);
      Consume(Rx(rx.buffer + more, rx.receiver), react) == Consume(Rx(c.buffer + more, c.receiver), react)
    decreases |rx.buffer|
  {
    hide TurnOf, Receive;
    var b := rx.buffer;
    var t := TurnOf(b, rx.receiver.id, rx.receiver.last);
    if !t.Hold? {
      TurnExtend(b, more, rx.receiver.id, rx.receiver.last);
      var next := Rx(b[t.count..], Apply(rx.receiver, b, t, react));
      assert (b + more)[t.count..] == next.buffer + more && (b + more)[..t.count] == b[..t.count];
      ConsumeExtend(next, more, react);
    }
  }

  function FeedChunks(rx: Rx, chunks: seq<seq<byte>>, react: Reaction): (r: Rx)
    requires |rx.buffer| < MAX_FRAME
    ensures |r.buffer| < MAX_FRAME
    decreases |chunks|
  {
    if chunks == [] then rx else FeedChunks(Feed(rx, chunks[0], react), chunks[1..], react)
  }

  /** No chunk hits the overflow reset. */
  predicate NoOverflow(rx: Rx, chunks: seq<seq<byte>>, react: Reaction)
    requires |rx.buffer| < MAX_FRAME
    decreases |chunks|
  {
    chunks == [] || (Fits(rx, chunks[0]) && NoOverflow(Feed(rx, chunks[0], react), chunks[1..], react))
  }

  predicate Holding(rx: Rx)
  {
    TurnOf(rx.buffer, rx.receiver.id, rx.receiver.last).Hold?
  }

  /** Without an overflow, the firmware parser does not depend on how the bytes were cut either. */
  lemma {:induction false} FirmwareChunkIndependence(rx: Rx, chunks: seq<seq<byte>>, react: Reaction)
    requires |rx.buffer| < MAX_FRAME && Holding(rx) && NoOverflow(rx, chunks, react)
    ensures FeedChunks(rx, chunks, react) == Consume(Rx(rx.buffer + Flatten(chunks), rx.receiver), react)
    decreases |chunks|
  {
    hide TurnOf;
    if chunks == [] {
      assert rx.buffer + [] == rx.buffer;
    } else {
      var fed := Feed(rx, chunks[0], react);
      var tail := Flatten(chunks[1..]);
      FirmwareChunkIndependence(fed, chunks[1..], react);
      ConsumeExtend(Rx(rx.buffer + chunks[0], rx.receiver), tail, react);
      assert rx.buffer + Flatten(chunks) == rx.buffer + chunks[0] + tail;
    }
  }

  // ---- Soundness on arbitrary input

  predicate TakenBefore(log: seq<Segment>, i: int, j: int)
  {
    0 <= i < j < |log| && log[i].Taken? && log[j].Taken?
  }

  /** Delivered frames are bounded, epochs only advance, and the current epoch is below `last`. */
  predicate SoundEntry(id: TxId, last: u32, now: nat, s: Segment)
  {
    s.Taken? ==>
      && |s.frame.payload| <= MAX_PAYLOAD && s.frame.sequence > 0 && s.epoch <= now
      && (s.epoch == now ==> s.frame.sequence <= last && s.frame.transactionId == id)
  }

  /** Within one epoch the transaction is fixed and sequences strictly increase. */
  predicate InOrder(a: Segment, b: Segment)
    requires a.Taken? && b.Taken?
  {
    && a.epoch <= b.epoch
    && (a.epoch == b.epoch ==> a.frame.transactionId == b.frame.transactionId && a.frame.sequence < b.frame.sequence)
  }

  ghost predicate Sound(r: Receiver)
  {
    && (forall s | s in r.log :: SoundEntry(r.id, r.last, r.epoch, s))
    && forall i, j | TakenBefore(r.log, i, j) :: InOrder(r.log[i], r.log[j])
  }

  lemma PushSound(r: Receiver, next: Receiver, s: Segment)
    requires Sound(r) && next.log == r.log + [s]
    requires forall t | t in next.log :: SoundEntry(next.id, next.last, next.epoch, t)
    requires s.Taken? ==> forall t | t in r.log && t.Taken? :: InOrder(t, s)
    ensures Sound(next)
  {
    hide SoundEntry, InOrder;
    forall i, j | TakenBefore(next.log, i, j)
      ensures InOrder(next.log[i], next.log[j])
    {
      if j < |r.log| {
        assert TakenBefore(r.log, i, j);
      } else {
        assert r.log[i] in r.log;
      }
    }
  }

  /** The input as the receiver accounts for it: what left the buffer, then what is still in it. */
  function Accounted(rx: Rx): seq<byte>
  {
    LogBytes(rx.receiver.log) + rx.buffer
  }

  lemma LogBytesPush(log: seq<Segment>, s: Segment)
    ensures LogBytes(log + [s]) == LogBytes(log) + SegmentBytes(s)
  {
    hide SegmentBytes;
    assert (log + [s])[..|log|] == log;
  }

  lemma AccountPush(r: Receiver, next: Receiver, s: Segment, rest: seq<byte>)
    requires next.log == r.log + [s]
    ensures Accounted(Rx(rest, next)) == Accounted(Rx(SegmentBytes(s) + rest, r))
  {
    hide SegmentBytes, LogBytes;
    LogBytesPush(r.log, s);
    assert LogBytes(r.log) + SegmentBytes(s) + rest == LogBytes(r.log) + (SegmentBytes(s) + rest);
  }

  lemma DiscardSound(r: Receiver, bytes: seq<byte>, rest: seq<byte>)
    requires Sound(r)
    ensures Sound(Discard(r, bytes)) && Accounted(Rx(rest, Discard(r, bytes))) == Accounted(Rx(bytes + rest, r))
  {
    AccountPush(r, Discard(r, bytes), Junk(bytes), rest);
    hide InOrder, Accounted;
    PushSound(r, Discard(r, bytes), Junk(bytes));
  }

  lemma EntryStep(r: Receiver, f: ParsedFrame, s: Segment)
    requires s.Taken? && SoundEntry(r.id, r.last, r.epoch, s)
    requires f.transactionId == r.id && f.sequence > r.last
    ensures SoundEntry(r.id, f.sequence, r.epoch, s) && InOrder(s, Taken(f, r.epoch))
  {}

  function Noted(r: Receiver, f: ParsedFrame): Receiver
  {
    r.(last := f.sequence, log := r.log + [Taken(f, r.epoch)])
  }

  lemma NotedSound(r: Receiver, f: ParsedFrame)
    requires Sound(r) && |f.payload| <= MAX_PAYLOAD && f.transactionId == r.id && f.sequence > r.last
    ensures Sound(Noted(r, f))
  {
    var next, s := Noted(r, f), Taken(f, r.epoch);
    assert SoundEntry(next.id, next.last, next.epoch, s);
    forall t | t in r.log
      ensures SoundEntry(next.id, next.last, next.epoch, t) && (t.Taken? ==> InOrder(t, s))
    {
      if t.Taken? {
        EntryStep(r, f, t);
      }
    }
    hide SoundEntry, InOrder;
    PushSound(r, next, s);
  }

  lemma RenewedSound(r: Receiver, id: TxId)
    requires Sound(r)
    ensures Sound(SetTransaction(r, id))
  {
    hide InOrder;
    var next := SetTransaction(r, id);
    forall s | s in next.log
      ensures SoundEntry(next.id, next.last, next.epoch, s)
    {
      assert SoundEntry(r.id, r.last, r.epoch, s);
    }
  }

  lemma ReceiveSound(r: Receiver, f: ParsedFrame, react: Reaction, rest: seq<byte>)
    requires Sound(r) && |f.payload| <= MAX_PAYLOAD && f.transactionId == r.id && f.sequence > r.last
    ensures var next := Receive(r, f, react);
      Sound(next) && Accounted(Rx(rest, next)) == Accounted(Rx(EncodeParsed(f) + rest, r))
  {
    AccountPush(r, Receive(r, f, react), Taken(f, r.epoch), rest);
    hide EncodeParsed, Accounted, Sound, Delivered;
    NotedSound(r, f);
    match react(Delivered(r.log), f) {
      case None =>
      case Some(id) => RenewedSound(Noted(r, f), id);
    }
  }

  lemma ApplySound(r: Receiver, b: seq<byte>, react: Reaction)
    requires Sound(r) && !TurnOf(b, r.id, r.last).Hold?
    ensures var t := TurnOf(b, r.id, r.last);
      Sound(Apply(r, b, t, react)) && Accounted(Rx(b[t.count..], Apply(r, b, t, react))) == Accounted(Rx(b, r))
  {
    hide TurnOf, Sound, Receive, Discard, Accounted;
    var t := TurnOf(b, r.id, r.last);
    assert b == b[..t.count] + b[t.count..];
    match t {
      case Skip(count) => DiscardSound(r, b[..count], b[count..]);
      case Stale(count) => DiscardSound(r, b[..count], b[count..]);
      case Accept(frame, count) =>
        AcceptSound(b, r.id, r.last);
        ReceiveSound(r, frame, react, b[count..]);
    }
  }

  lemma {:induction false} ConsumeSound(rx: Rx, react: Reaction)
    requires Sound(rx.receiver)
    ensures Sound(Consume(rx, react).receiver) && Accounted(Consume(rx, react)) == Accounted(rx)
    decreases |rx.buffer|
  {
    hide TurnOf, Sound, Apply, Accounted;
    var t := TurnOf(rx.buffer, rx.receiver.id, rx.receiver.last);
    if !t.Hold? {
      ApplySound(rx.receiver, rx.buffer, react);
      ConsumeSound(Rx(rx.buffer[t.count..], Apply(rx.receiver, rx.buffer, t, react)), react);
    }
  }

  datatype Op = Data(chunk: seq<byte>) | Renew(id: TxId)

  function Act(rx: Rx, op: Op, react: Reaction): (r: Rx)
    requires |rx.buffer| < MAX_FRAME
    ensures |r.buffer| < MAX_FRAME
  {
    match op
    case Data(chunk) => Feed(rx, chunk, react)
    case Renew(id) => rx.(receiver := SetTransaction(rx.receiver, id))
  }

  function Run(rx: Rx, ops: seq<Op>, react: Reaction): (r: Rx)
    requires |rx.buffer| < MAX_FRAME
    ensures |r.buffer| < MAX_FRAME
    decreases |ops|
  {
    if ops == [] then rx else Run(Act(rx, ops[0], react), ops[1..], react)
  }

  function Fed(op: Op): seq<byte>
  {
    match op
    case Data(chunk) => chunk
    case Renew(_) => []
  }

  function Input(ops: seq<Op>): seq<byte>
    decreases |ops|
  {
    if ops == [] then [] else Fed(ops[0]) + Input(ops[1..])
  }

  lemma FeedSound(rx: Rx, chunk: seq<byte>, react: Reaction)
    requires |rx.buffer| < MAX_FRAME && Sound(rx.receiver)
    ensures Sound(Feed(rx, chunk, react).receiver) && Accounted(Feed(rx, chunk, react)) == Accounted(rx) + chunk
  {
    hide Sound, Consume, Discard;
    var joined := Rx(rx.buffer + chunk, rx.receiver);
    assert Accounted(joined) == Accounted(rx) + chunk;
    hide Accounted;
    if Fits(rx, chunk) {
      ConsumeSound(joined, react);
    } else {
      DiscardSound(rx.receiver, joined.buffer, []);
      assert joined.buffer + [] == joined.buffer;
    }
  }

  lemma RenewSound(rx: Rx, id: TxId)
    requires Sound(rx.receiver)
    ensures var next := rx.(receiver := SetTransaction(rx.receiver, id));
      Sound(next.receiver) && Accounted(next) == Accounted(rx) + []
  {
    hide Sound, LogBytes;
    RenewedSound(rx.receiver, id);
  }

  lemma ActSound(rx: Rx, op: Op, react: Reaction)
    requires |rx.buffer| < MAX_FRAME && Sound(rx.receiver)
    ensures Sound(Act(rx, op, react).receiver) && Accounted(Act(rx, op, react)) == Accounted(rx) + Fed(op)
  {
    hide Sound, Feed, Accounted;
    match op {
      case Data(chunk) => FeedSound(rx, chunk, react);
      case Renew(id) => RenewSound(rx, id);
    }
  }

  /**
   Over any feeds and any `setTransaction` calls, inside the callback or outside: the input is
   exactly the logged segments followed by the buffer, in order; delivered frames are disjoint,
   CRC-valid encodings among those segments with strictly increasing sequence in each epoch; and the
   buffer stays below one maximal frame.
   */
  lemma {:induction false} FirmwareSound(rx: Rx, ops: seq<Op>, react: Reaction)
    requires |rx.buffer| < MAX_FRAME && Sound(rx.receiver)
    ensures var end := Run(rx, ops, react);
      Sound(end.receiver) && |end.buffer| < MAX_FRAME && Accounted(end) == Accounted(rx) + Input(ops)
    decreases |ops|
  {
    hide Act, Sound, Accounted, Fed;
    if ops == [] {
      assert Accounted(rx) + [] == Accounted(rx);
    } else {
      ActSound(rx, ops[0], react);
      FirmwareSound(Act(rx, ops[0], react), ops[1..], react);
      assert Accounted(rx) + Fed(ops[0]) + Input(ops[1..]) == Accounted(rx) + Input(ops);
    }
  }

  // ---- Host and firmware

  function Parse(f: Frame): ParsedFrame
  {
    ParsedFrame(Code(f.messageType), f.transactionId, f.sequence, f.payload)
  }

  function ParseAll(fs: seq<Frame>): seq<ParsedFrame>
  {
    if fs == [] then [] else [Parse(fs[0])] + ParseAll(fs[1..])
  }

  /** The callback never calls `setTransaction`. */
  ghost predicate Passive(react: Reaction)
  {
    forall seen, f :: react(seen, f) == None
  }

  lemma {:induction false} EmptyChunks(r: Receiver, chunks: seq<seq<byte>>, react: Reaction)
    requires Flatten(chunks) == []
    ensures FeedChunks(Rx([], r), chunks, react) == Rx([], r) && NoOverflow(Rx([], r), chunks, react)
    decreases |chunks|
  {
    if chunks != [] {
      assert chunks[0] == [];
      assert Feed(Rx([], r), chunks[0], react) == Rx([], r);
      EmptyChunks(r, chunks[1..], react);
    }
  }

  /** Before its last byte has arrived, in whatever pieces, a frame only waits in the buffer. */
  lemma {:induction false} FramePartly(f: Frame, k: nat, chunks: seq<seq<byte>>, r: Receiver, react: Reaction)
    requires k + |Flatten(chunks)| < |Encode(f)| && Flatten(chunks) == Encode(f)[k..k + |Flatten(chunks)|]
    ensures var rx := Rx(Encode(f)[..k], r);
      && FeedChunks(rx, chunks, react) == Rx(Encode(f)[..k + |Flatten(chunks)|], r)
      && NoOverflow(rx, chunks, react)
    decreases |chunks|
  {
    hide TurnOf, EncodeRaw;
    var e := Encode(f);
    if chunks != [] {
      var c, tail := chunks[0], Flatten(chunks[1..]);
      var k', end := k + |c|, k + |Flatten(chunks)|;
      assert c == e[k..end][..|c|] && tail == e[k..end][|c|..];
      assert e[..k] + c == e[..k'] && tail == e[k'..k' + |tail|];
      PrefixHolds(Parse(f), k', r.id, r.last);
      FramePartly(f, k', chunks[1..], r, react);
    }
  }

  /** One frame, arriving in any pieces, is delivered when its last byte arrives. */
  lemma {:induction false} FrameInPieces(f: Frame, k: nat, chunks: seq<seq<byte>>, r: Receiver, react: Reaction)
    requires k < |Encode(f)| && Flatten(chunks) == Encode(f)[k..]
    requires f.transactionId == r.id && f.sequence > r.last
    ensures var rx := Rx(Encode(f)[..k], r);
      && FeedChunks(rx, chunks, react) == Rx([], Receive(r, Parse(f), react))
      && NoOverflow(rx, chunks, react)
    decreases |chunks|
  {
    hide Receive, TurnOf;
    var e := Encode(f);
    var rx := Rx(e[..k], r);
    assert e[k..] != [];
    var c, tail := chunks[0], Flatten(chunks[1..]);
    var k' := k + |c|;
    assert c == e[k..][..|c|] && tail == e[k..][|c|..];
    assert e[..k] + c == e[..k'] && tail == e[k'..];
    if k' < |e| {
      PrefixHolds(Parse(f), k', r.id, r.last);
      FrameInPieces(f, k', chunks[1..], r, react);
    } else {
      assert e[..k'] == e + [];
      EncodedTurn(Parse(f), [], r.id, r.last);
      var next := Receive(r, Parse(f), react);
      assert Consume(Rx([], next), react) == Rx([], next) by {
        EmptyHolds(next.id, next.last);
      }
      EmptyChunks(next, chunks[1..], react);
    }
  }

  lemma EmptyHolds(id: TxId, last: u32)
    ensures TurnOf([], id, last).Hold?
  {}

  lemma {:induction false} FeedChunksConcat(rx: Rx, a: seq<seq<byte>>, b: seq<seq<byte>>, react: Reaction)
    requires |rx.buffer| < MAX_FRAME
    ensures FeedChunks(rx, a + b, react) == FeedChunks(FeedChunks(rx, a, react), b, react)
    ensures NoOverflow(rx, a + b, react) == (NoOverflow(rx, a, react) && NoOverflow(FeedChunks(rx, a, react), b, react))
    decreases |a|
  {
    hide Feed;
    if a == [] {
      assert a + b == b;
    } else {
      assert (a + b)[1..] == a[1..] + b;
      FeedChunksConcat(Feed(rx, a[0], react), a[1..], b, react);
    }
  }

  /** Commands of the active transaction, each newer than the one before. */
  predicate Fresh(fs: seq<Frame>, r: Receiver)
  {
    StrictlyOrdered(fs) && forall f | f in fs :: f.transactionId == r.id && f.sequence > r.last
  }

  lemma FreshTail(fs: seq<Frame>, r: Receiver, next: Receiver)
    requires fs != [] && Fresh(fs, r) && next.id == r.id && next.last == fs[0].sequence
    ensures Fresh(fs[1..], next)
  {
    var rest := fs[1..];
    forall f | f in rest
      ensures f.transactionId == next.id && f.sequence > next.last
    {
      var j :| 0 <= j < |rest| && rest[j] == f;
      assert fs[j + 1] == f && fs[0] in fs && f in fs;
    }
    assert forall j | 0 <= j < |rest| :: rest[j] == fs[j + 1];
  }

  lemma ReceivePassive(r: Receiver, f: Frame, react: Reaction)
    requires Passive(react)
    ensures var next := Receive(r, Parse(f), react);
      next.id == r.id && next.last == f.sequence && Delivered(next.log) == Delivered(r.log) + [Parse(f)]
  {
    var s := Taken(Parse(f), r.epoch);
    assert (r.log + [s])[..|r.log|] == r.log;
  }

  lemma FrameWhole(f: Frame, chunks: seq<seq<byte>>, r: Receiver, react: Reaction)
    requires Flatten(chunks) == Encode(f) && f.transactionId == r.id && f.sequence > r.last
    ensures FeedChunks(Rx([], r), chunks, react) == Rx([], Receive(r, Parse(f), react))
    ensures NoOverflow(Rx([], r), chunks, react)
  {
    hide Receive, FeedChunks, NoOverflow, EncodeRaw;
    assert Encode(f)[0..] == Encode(f) && Encode(f)[..0] == [];
    FrameInPieces(f, 0, chunks, r, react);
  }

  lemma FreshHead(fs: seq<Frame>, cuts: seq<seq<seq<byte>>>, r: Receiver)
    requires fs != [] && Cut(fs, cuts) && Fresh(fs, r)
    ensures Flatten(cuts[0]) == Encode(fs[0]) && fs[0].transactionId == r.id && fs[0].sequence > r.last
    ensures ParseAll(fs) == [Parse(fs[0])] + ParseAll(fs[1..])
  {
    assert fs[0] in fs;
  }

  lemma {:induction false} FirmwareDelivers(fs: seq<Frame>, cuts: seq<seq<seq<byte>>>, r: Receiver, react: Reaction)
    requires Cut(fs, cuts) && Fresh(fs, r) && Passive(react)
    ensures NoOverflow(Rx([], r), Flatten(cuts), react)
    ensures FeedChunks(Rx([], r), Flatten(cuts), react).buffer == []
    ensures Delivered(FeedChunks(Rx([], r), Flatten(cuts), react).receiver.log) == Delivered(r.log) + ParseAll(fs)
    decreases |fs|
  {
    hide *;
    CutHasHead(fs, cuts);
    if fs == [] {
      NoFrames(r, react);
    } else {
      var next := Receive(r, Parse(fs[0]), react);
      FreshHead(fs, cuts, r);
      ReceivePassive(r, fs[0], react);
      FreshTail(fs, r, next);
      CutTail(fs, cuts);
      FrameWhole(fs[0], cuts[0], r, react);
      FirmwareDelivers(fs[1..], cuts[1..], next, react);
      FeedChunksConcat(Rx([], r), cuts[0], Flatten(cuts[1..]), react);
      assert Delivered(r.log) + [Parse(fs[0])] + ParseAll(fs[1..]) == Delivered(r.log) + ParseAll(fs);
    }
  }

  lemma NoFrames(r: Receiver, react: Reaction)
    ensures NoOverflow(Rx([], r), Flatten([]), react) && FeedChunks(Rx([], r), Flatten([]), react) == Rx([], r)
    ensures Delivered(r.log) + ParseAll([]) == Delivered(r.log)
  {}

  /**
   For new commands of the active transaction, in any pieces of which none spans two frames, the
   firmware never overflows and hands over exactly the frames that the host's decoder and replay
   window accept from the same pieces.
   */
  lemma HostFirmwareAgreement(fs: seq<Frame>, cuts: seq<seq<seq<byte>>>, r: Receiver, react: Reaction)
    requires Cut(fs, cuts) && Fresh(fs, r) && Passive(react)
    ensures var rx, chunks := Rx([], r), Flatten(cuts);
      var end := FeedChunks(rx, chunks, react);
      && NoOverflow(rx, chunks, react) && end.buffer == []
      && Delivered(end.receiver.log) == Delivered(r.log) + ParseAll(fs)
      && FeedAll([], chunks) == Life(Goods(fs), []) && AdmitsAll(map[], fs)
  {
    hide Encode, Feed, NoOverflow, FeedChunks, Delivered, FeedAll, Flatten;
    FirmwareDelivers(fs, cuts, r, react);
    CutStream(fs, cuts);
    CleanReads(fs, Flatten(cuts));
    AdmitsAllIff(map[], fs);
  }
}
