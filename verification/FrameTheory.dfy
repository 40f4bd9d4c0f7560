/** What the host's frame decoder guarantees over whole byte streams. */
module FrameTheory {
  import opened Bytes
  import opened Search
  import opened Crc
  import Polynomial
  import opened Protocol

  // ---- One frame: decoding is the exact inverse of encoding

  lemma ReadField32(b: seq<byte>, at: nat, n: u32)
    requires at + 4 <= |b| && b[at..at + 4] == Write32(n)
    ensures Read32(b, at) == n
  {
    Read32Write32(n);
    var w := Write32(n);
    assert w == [b[at], b[at + 1], b[at + 2], b[at + 3]];
  }

  lemma ReadFieldWord(b: seq<byte>, at: nat, v: bv32)
    requires at + 4 <= |b| && b[at..at + 4] == WriteWord(v)
    ensures ReadWord(b, at) == v
  {
    ReadWriteWord(v);
    var w := WriteWord(v);
    assert w == [b[at], b[at + 1], b[at + 2], b[at + 3]];
    hide WriteWord, Word;
  }

  /** The fields of an encoded frame, wherever it is followed by more bytes. */
  lemma EncodedFields(code: byte, id: TxId, sequence: u32, payload: seq<byte>, t: seq<byte>)
    requires |payload| <= MAX_PAYLOAD
    ensures var b, n := EncodeRaw(code, id, sequence, payload) + t, HEADER_SIZE + |payload|;
      && MAGIC <= b && b[4] == VERSION && b[5] == code && Read16(b, 6) == 0 && Read32(b, 8) == |payload|
      && b[12..28] == id && Read32(b, 28) == sequence && b[HEADER_SIZE..n] == payload
      && Crc32(b[..n]) == ReadWord(b, n) && b[n + CRC_SIZE..] == t
  {
    hide Crc32, WriteWord, Write32, Read32;
    var n := HEADER_SIZE + |payload|;
    var header := Header(code, id, sequence, |payload|);
    var body := header + payload;
    var b := EncodeRaw(code, id, sequence, payload) + t;
    assert b == header + payload + WriteWord(Crc32(body)) + t;
    assert b[..HEADER_SIZE] == header && b[..n] == body && b[n..n + 4] == WriteWord(Crc32(body));
    assert b[8..12] == header[8..12] == Write32(|payload|);
    assert b[28..32] == header[28..32] == Write32(sequence);
    assert b[12..28] == header[12..28] == id;
    ReadField32(b, 8, |payload|);
    ReadField32(b, 28, sequence);
    ReadFieldWord(b, n, Crc32(body));
  }

  lemma AlignedEncode(f: Frame, t: seq<byte>)
    ensures MAGIC <= Encode(f) + t
    ensures Aligned(Encode(f) + t) == Deliver(f, t)
  {
    EncodedFields(Code(f.messageType), f.transactionId, f.sequence, f.payload, t);
    hide Crc32, EncodeRaw, Read32, ReadWord, Read16;
  }

  lemma RoundAligned(b: seq<byte>)
    requires MAGIC <= b
    ensures DecodeRound(b) == Aligned(b)
  {
    hide Aligned, Find;
    StartsAt(b, MAGIC);
    assert b[0..] == b;
  }

  // ---- The verdict on a frame with a right checksum

  const CODES: set<byte> :=
    {0x01, 0x02, 0x03, 0x10, 0x11, 0x12, 0x13, 0x20, 0x21, 0x22, 0x23, 0x24, 0x25, 0x26, 0x7F}

  /** A frame of any version, code and flags, with the checksum that belongs to it. */
  function Stamped(version: byte, code: byte, flags: nat, id: TxId, sequence: u32, payload: seq<byte>): (r: seq<byte>)
    ensures |r| == HEADER_SIZE + |payload| + CRC_SIZE
  {
    var body := Head(version, code, flags, |payload|) + id + Write32(sequence) + payload;
    body + WriteWord(Crc32(body))
  }

  function Head(version: byte, code: byte, flags: nat, size: nat): (r: seq<byte>)
    ensures |r| == 12
  {
    MAGIC + [version, code] + Write16(flags) + Write32(size)
  }

  lemma HeadFields(version: byte, code: byte, flags: nat, size: u32, t: seq<byte>)
    requires flags < 0x1_0000
    ensures var b := Head(version, code, flags, size) + t;
      && MAGIC <= b && b[4] == version && b[5] == code && Read16(b, 6) == flags && Read32(b, 8) == size
  {
    hide Write32, Read32;
    var b := Head(version, code, flags, size) + t;
    assert b[8..12] == Write32(size);
    ReadField32(b, 8, size);
    Read16Write16(flags);
    assert b[6] == Write16(flags)[0] && b[7] == Write16(flags)[1];
  }

  lemma StampedFields(version: byte, code: byte, flags: nat, id: TxId, sequence: u32, payload: seq<byte>, t: seq<byte>)
    requires flags < 0x1_0000 && |payload| <= MAX_PAYLOAD
    ensures var b, n := Stamped(version, code, flags, id, sequence, payload) + t, HEADER_SIZE + |payload|;
      && MAGIC <= b && b[4] == version && b[5] == code && Read16(b, 6) == flags && Read32(b, 8) == |payload|
      && b[12..28] == id && Read32(b, 28) == sequence && b[HEADER_SIZE..n] == payload
      && Crc32(b[..n]) == ReadWord(b, n) && b[n + CRC_SIZE..] == t
  {
    hide Crc32, WriteWord, Write32, Read32, Head, Read16, ReadWord;
    var n := HEADER_SIZE + |payload|;
    var head := Head(version, code, flags, |payload|);
    var body := head + id + Write32(sequence) + payload;
    var b := Stamped(version, code, flags, id, sequence, payload) + t;
    var rest := id + Write32(sequence) + payload + WriteWord(Crc32(body)) + t;
    assert b == head + rest;
    HeadFields(version, code, flags, |payload|, rest);
    assert b[..n] == body && b[n..n + 4] == WriteWord(Crc32(body)) && b[28..32] == Write32(sequence);
    ReadField32(b, 28, sequence);
    ReadFieldWord(b, n, Crc32(body));
  }

  lemma KnownCodes(code: byte)
    ensures code in CODES <==> TypeOf(code).Some?
  {}

  /**
   The verdict on every frame whose checksum is right, whatever its version, flags and code: rejected
   for the first of these that is wrong, with all of it consumed, and delivered if none is.
   */
  lemma StampedVerdict(version: byte, code: byte, flags: nat, id: TxId, sequence: u32, payload: seq<byte>, t: seq<byte>)
    requires flags < 0x1_0000 && |payload| <= MAX_PAYLOAD
    ensures var round := DecodeRound(Stamped(version, code, flags, id, sequence, payload) + t);
      if version != 1 then round == Reject(UnsupportedVersion, t)
      else if flags != 0 then round == Reject(FlagsNotZero, t)
      else if code !in CODES then round == Reject(UnknownType, t)
      else
        && round.Deliver? && Code(round.frame.messageType) == code && round.rest == t
        && round.frame == RawFrame(round.frame.messageType, id, sequence, payload)
  {
    hide Crc32, Stamped, Read32, ReadWord, Read16, TypeOf;
    StampedFields(version, code, flags, id, sequence, payload, t);
    RoundAligned(Stamped(version, code, flags, id, sequence, payload) + t);
    KnownCodes(code);
  }

  /** A declared payload above 4096 bytes is rejected at once, and only the magic is consumed. */
  lemma OversizeVerdict(version: byte, code: byte, flags: nat, size: u32, t: seq<byte>)
    requires flags < 0x1_0000 && size > 4096 && |t| >= 20
    ensures var b := Head(version, code, flags, size) + t; DecodeRound(b) == Reject(PayloadTooLong, b[4..])
  {
    hide Head, Read32, Read16, Crc32;
    HeadFields(version, code, flags, size, t);
    RoundAligned(Head(version, code, flags, size) + t);
  }

  lemma ZeroFlags(b: seq<byte>)
    requires |b| >= 8 && Read16(b, 6) == 0
    ensures b[6..8] == Write16(0)
  {}

  lemma HeaderBytes(b: seq<byte>, code: byte)
    requires |b| >= HEADER_SIZE && MAGIC <= b && b[4] == VERSION && b[5] == code && Read16(b, 6) == 0
    ensures b[..HEADER_SIZE] == Header(code, b[12..28], Read32(b, 28), Read32(b, 8))
  {
    ZeroFlags(b);
    Write32Read32(b, 8);
    Write32Read32(b, 28);
    hide Read32, Write32, Write16;
    assert b[..HEADER_SIZE] == b[..4] + [b[4], b[5]] + b[6..8] + b[8..12] + b[12..28] + b[28..32];
  }

  lemma AlignedSound(b: seq<byte>)
    requires MAGIC <= b && Aligned(b).Deliver?
    ensures b == Encode(Aligned(b).frame) + Aligned(b).rest
  {
    hide Crc32, Read32, Write32, ReadWord, Read16, WriteWord, Header;
    var f := Aligned(b).frame;
    var n := HEADER_SIZE + Read32(b, 8);
    HeaderBytes(b, b[5]);
    WriteReadWord(b, n);
    assert b[..n] == b[..HEADER_SIZE] + f.payload;
    assert b == b[..n] + b[n..n + 4] + b[n + 4..];
  }

  /**
   The decoder delivers a frame if and only if the bytes from the first magic on are that frame's
   encoding.
   */
  lemma DeliverIff(buffer: seq<byte>, f: Frame, rest: seq<byte>)
    ensures DecodeRound(buffer) == Deliver(f, rest) <==>
      var at := Find(buffer, MAGIC); at >= 0 && buffer[at..] == Encode(f) + rest
  {
    hide Aligned, Encode, Find, At;
    var at := Find(buffer, MAGIC);
    if at >= 0 {
      FindAligns(buffer, MAGIC);
      if Aligned(buffer[at..]).Deliver? {
        AlignedSound(buffer[at..]);
      }
      if buffer[at..] == Encode(f) + rest {
        AlignedEncode(f, rest);
      }
    }
  }

  lemma EncodeInjective(f: Frame, g: Frame, t: seq<byte>, u: seq<byte>)
    requires Encode(f) + t == Encode(g) + u
    ensures f == g && t == u
  {
    hide Encode, Aligned;
    AlignedEncode(f, t);
    AlignedEncode(g, u);
  }

  // ---- More bytes never change a decision

  function Append(r: Round, more: seq<byte>): Round
  {
    match r
    case Wait(rest) => Wait(rest + more)
    case Reject(e, rest) => Reject(e, rest + more)
    case Deliver(f, rest) => Deliver(f, rest + more)
  }

  lemma HeaderExtend(b: seq<byte>, more: seq<byte>)
    requires |b| >= HEADER_SIZE
    ensures var c := b + more;
      && Read32(c, 8) == Read32(b, 8) && Read32(c, 28) == Read32(b, 28) && Read16(c, 6) == Read16(b, 6)
      && c[4] == b[4] && c[5] == b[5] && c[12..28] == b[12..28] && c[4..] == b[4..] + more
  {}

  lemma BodyExtend(b: seq<byte>, more: seq<byte>, n: nat)
    requires HEADER_SIZE <= n <= |b| - CRC_SIZE
    ensures var c := b + more;
      && c[..n] == b[..n] && c[n + CRC_SIZE..] == b[n + CRC_SIZE..] + more
      && ReadWord(c, n) == ReadWord(b, n) && c[HEADER_SIZE..n] == b[HEADER_SIZE..n]
  {
    hide Word;
  }

  lemma AlignedExtend(b: seq<byte>, more: seq<byte>)
    requires MAGIC <= b && !Aligned(b).Wait?
    ensures MAGIC <= b + more && Aligned(b + more) == Append(Aligned(b), more)
  {
    hide Crc32, Read32, Read16, ReadWord, TypeOf;
    HeaderExtend(b, more);
    var size := Read32(b, 8);
    if size <= MAX_PAYLOAD {
      BodyExtend(b, more, HEADER_SIZE + size);
    }
  }

  /** A round that acts, acts the same when more bytes have already arrived. */
  lemma RoundExtend(buffer: seq<byte>, more: seq<byte>)
    requires !DecodeRound(buffer).Wait?
    ensures DecodeRound(buffer + more) == Append(DecodeRound(buffer), more)
  {
    hide Aligned, Find, At;
    var at := Find(buffer, MAGIC);
    FindExtend(buffer, more, MAGIC);
    FindAligns(buffer, MAGIC);
    AlignedExtend(buffer[at..], more);
    assert (buffer + more)[at..] == buffer[at..] + more;
  }

  /** What a waiting round throws away could never have been part of a later frame. */
  lemma WaitDrops(buffer: seq<byte>, more: seq<byte>)
    requires DecodeRound(buffer).Wait?
    ensures DecodeRound(buffer + more) == DecodeRound(DecodeRound(buffer).rest + more)
  {
    hide Aligned, Find;
    var at := Find(buffer, MAGIC);
    var rest := DecodeRound(buffer).rest;
    var k := |buffer| - |rest|;
    assert rest == buffer[k..];
    if at < 0 {
      NoneStraddles(buffer, more, MAGIC);
    } else {
      FindAligns(buffer, MAGIC);
      FindExtend(buffer, more, MAGIC);
    }
    var s := buffer + more;
    FindDrop(s, k, MAGIC);
    assert s[k..] == rest + more;
    var j := Find(rest + more, MAGIC);
    if j < 0 {
      assert Last(s, 3) == Last(rest + more, 3) by {
        assert |rest| < 3 ==> rest == buffer;
      }
    } else {
      assert s[k + j..] == s[k..][j..];
    }
  }

  // ---- All events of a stream, and all ways of cutting it into reads

  datatype Event = Good(frame: Frame) | Bad(error: ProtocolError)

  /** Every frame and every error of a buffer, the loop restarted after each error. */
  function Events(buffer: seq<byte>): seq<Event>
    decreases |buffer|
  {
    match DecodeRound(buffer)
    case Wait(_) => []
    case Reject(e, rest) => [Bad(e)] + Events(rest)
    case Deliver(f, rest) => [Good(f)] + Events(rest)
  }

  /** The bytes that remain when no event is left. */
  function Leftover(buffer: seq<byte>): seq<byte>
    decreases |buffer|
  {
    match DecodeRound(buffer)
    case Wait(rest) => rest
    case Reject(_, rest) => Leftover(rest)
    case Deliver(_, rest) => Leftover(rest)
  }

  predicate Settled(buffer: seq<byte>)
  {
    DecodeRound(buffer) == Wait(buffer)
  }

  function Goods(fs: seq<Frame>): seq<Event>
  {
    if fs == [] then [] else [Good(fs[0])] + Goods(fs[1..])
  }

  /** The events one feed decodes. When it raises, the frames among them never reach its caller. */
  function FeedEvents(d: Drained): seq<Event>
  {
    Goods(d.frames) + if d.error.Some? then [Bad(d.error.value)] else []
  }

  lemma WaitSettles(buffer: seq<byte>)
    requires DecodeRound(buffer).Wait?
    ensures Settled(DecodeRound(buffer).rest)
  {
    var rest := DecodeRound(buffer).rest;
    WaitDrops(buffer, []);
    assert buffer + [] == buffer && rest + [] == rest;
  }

  lemma FeedEventsCons(f: Frame, d: Drained)
    ensures FeedEvents(Onward([f], d)) == [Good(f)] + FeedEvents(d)
  {
    assert ([f] + d.frames)[1..] == d.frames;
  }

  lemma {:induction false} DrainEvents(buffer: seq<byte>)
    ensures var d := Drain(buffer);
      && Events(buffer) == FeedEvents(d) + Events(d.rest)
      && Leftover(buffer) == Leftover(d.rest)
      && (d.error.None? ==> Settled(d.rest))
    decreases |buffer|
  {
    hide DecodeRound, Settled;
    match DecodeRound(buffer) {
      case Wait(rest) => WaitSettles(buffer);
      case Reject(_, rest) =>
      case Deliver(f, rest) =>
        DrainEvents(rest);
        var d := Drain(rest);
        FeedEventsCons(f, d);
        assert Drain(buffer) == Onward([f], d) && Events(buffer) == [Good(f)] + Events(rest);
        hide Drain, Events, Leftover, FeedEvents;
        assert [Good(f)] + (FeedEvents(d) + Events(d.rest)) == [Good(f)] + FeedEvents(d) + Events(d.rest);
    }
  }

  lemma {:induction false} EventsExtend(buffer: seq<byte>, more: seq<byte>)
    ensures Events(buffer + more) == Events(buffer) + Events(Leftover(buffer) + more)
    ensures Leftover(buffer + more) == Leftover(Leftover(buffer) + more)
    decreases |buffer|
  {
    hide DecodeRound;
    match DecodeRound(buffer) {
      case Wait(rest) => WaitDrops(buffer, more);
      case Reject(_, rest) =>
        RoundExtend(buffer, more);
        EventsExtend(rest, more);
      case Deliver(_, rest) =>
        RoundExtend(buffer, more);
        EventsExtend(rest, more);
    }
  }

  /** A decoder's life: the events it decoded, feed by feed, and the buffer it is left with. */
  datatype Life = Life(events: seq<Event>, buffer: seq<byte>)

  function FeedAll(buffer: seq<byte>, chunks: seq<seq<byte>>): Life
    decreases |chunks|
  {
    if chunks == [] then Life([], buffer)
    else
      var d := Drain(buffer + chunks[0]);
      var later := FeedAll(d.rest, chunks[1..]);
      Life(FeedEvents(d) + later.events, later.buffer)
  }

  /** One feed decodes events off the pending stream, in order, whether it raises or not. */
  lemma FeedConserves(buffer: seq<byte>, chunk: seq<byte>, tail: seq<byte>)
    ensures var d := Drain(buffer + chunk);
      && Events(buffer + chunk + tail) == FeedEvents(d) + Events(d.rest + tail)
      && Leftover(buffer + chunk + tail) == Leftover(d.rest + tail)
  {
    hide Drain, Events, Leftover;
    var first := buffer + chunk;
    var d := Drain(first);
    EventsExtend(first, tail);
    EventsExtend(d.rest, tail);
    DrainEvents(first);
    assert FeedEvents(d) + (Events(d.rest) + Events(Leftover(d.rest) + tail))
        == FeedEvents(d) + Events(d.rest) + Events(Leftover(d.rest) + tail);
  }

  /**
   However a stream is cut into reads, and however many feeds raise: the events decoded so far,
   followed by those still in the buffer, are exactly the events of the whole stream.
   */
  lemma {:induction false} ChunkIndependence(buffer: seq<byte>, chunks: seq<seq<byte>>)
    ensures var life, whole := FeedAll(buffer, chunks), buffer + Flatten(chunks);
      life.events + Events(life.buffer) == Events(whole) && Leftover(life.buffer) == Leftover(whole)
    decreases |chunks|
  {
    hide Drain, Events, Leftover;
    if chunks == [] {
      assert buffer + Flatten(chunks) == buffer;
    } else {
      var tail := Flatten(chunks[1..]);
      var d := Drain(buffer + chunks[0]);
      var later := FeedAll(d.rest, chunks[1..]);
      assert buffer + Flatten(chunks) == buffer + chunks[0] + tail;
      FeedConserves(buffer, chunks[0], tail);
      ChunkIndependence(d.rest, chunks[1..]);
      assert FeedEvents(d) + later.events + Events(later.buffer) ==
        FeedEvents(d) + (later.events + Events(later.buffer));
    }
  }

  predicate AllGood(events: seq<Event>)
  {
    forall e | e in events :: e.Good?
  }

  lemma {:induction false} GoodsAll(fs: seq<Frame>)
    ensures AllGood(Goods(fs))
  {
    if fs != [] {
      GoodsAll(fs[1..]);
    }
  }

  lemma {:induction false} GoodsInjective(fs: seq<Frame>, gs: seq<Frame>)
    requires Goods(fs) == Goods(gs)
    ensures fs == gs
  {
    if fs != [] && gs != [] {
      assert Goods(fs)[0] == Good(fs[0]) && Goods(gs)[0] == Good(gs[0]);
      assert Goods(fs)[1..] == Goods(fs[1..]) && Goods(gs)[1..] == Goods(gs[1..]);
      GoodsInjective(fs[1..], gs[1..]);
      assert fs == [fs[0]] + fs[1..] && gs == [gs[0]] + gs[1..];
    }
  }

  lemma {:induction false} GoodsSplit(fs: seq<Frame>, gs: seq<Frame>, later: seq<Event>)
    requires Goods(fs) == Goods(gs) + later
    ensures |gs| <= |fs| && gs == fs[..|gs|] && later == Goods(fs[|gs|..])
    decreases |gs|
  {
    if gs == [] {
      assert Goods(gs) + later == later && fs[0..] == fs;
    } else {
      assert Goods(gs) == [Good(gs[0])] + Goods(gs[1..]);
      assert Goods(fs)[0] == Good(gs[0]) && Goods(fs)[1..] == Goods(gs[1..]) + later;
      assert Goods(fs) == [Good(fs[0])] + Goods(fs[1..]);
      GoodsSplit(fs[1..], gs[1..], later);
      assert fs[1..][|gs| - 1..] == fs[|gs|..];
      assert gs == [gs[0]] + gs[1..] && fs[..|gs|] == [fs[0]] + fs[1..][..|gs| - 1];
    }
  }

  lemma SettledEvents(buffer: seq<byte>)
    requires Settled(buffer)
    ensures Events(buffer) == [] && Leftover(buffer) == buffer
  {}

  lemma ErrorInFeed(d: Drained, tail: seq<Event>)
    requires d.error.Some?
    ensures Bad(d.error.value) in FeedEvents(d) + tail
  {
    assert (FeedEvents(d) + tail)[|Goods(d.frames)|] == Bad(d.error.value);
  }

  lemma FeedGood(d: Drained, tail: seq<Event>)
    requires AllGood(FeedEvents(d) + tail)
    ensures d.error.None? && AllGood(tail)
  {
    var events := FeedEvents(d) + tail;
    if d.error.Some? {
      ErrorInFeed(d, tail);
    }
    forall e | e in tail
      ensures e.Good?
    {
      assert e in events;
    }
  }

  lemma {:induction false} QuietLifeSettles(buffer: seq<byte>, chunks: seq<seq<byte>>)
    requires Settled(buffer) && AllGood(FeedAll(buffer, chunks).events)
    ensures Settled(FeedAll(buffer, chunks).buffer)
    decreases |chunks|
  {
    hide Drain, Settled;
    if chunks != [] {
      var d := Drain(buffer + chunks[0]);
      FeedGood(d, FeedAll(d.rest, chunks[1..]).events);
      DrainEvents(buffer + chunks[0]);
      QuietLifeSettles(d.rest, chunks[1..]);
    }
  }

  lemma DrainAllGood(buffer: seq<byte>)
    requires AllGood(Events(buffer))
    ensures var d := Drain(buffer);
      d.error.None? && Events(buffer) == Goods(d.frames) && Leftover(buffer) == d.rest
  {
    hide Drain, Events, Leftover;
    var d := Drain(buffer);
    DrainEvents(buffer);
    FeedGood(d, Events(d.rest));
    SettledEvents(d.rest);
  }

  /** When no feed raises, cutting does not matter at all: one feed of the whole stream is the same. */
  lemma ChunkIndependenceQuiet(buffer: seq<byte>, chunks: seq<seq<byte>>)
    requires Settled(buffer) && AllGood(FeedAll(buffer, chunks).events)
    ensures var life, d := FeedAll(buffer, chunks), Drain(buffer + Flatten(chunks));
      && d.error.None? && life.events == Goods(d.frames) && life.buffer == d.rest
      && |life.buffer| < MAX_FRAME
  {
    hide Drain, Events, Leftover, FeedAll;
    var life := FeedAll(buffer, chunks);
    ChunkIndependence(buffer, chunks);
    QuietLifeSettles(buffer, chunks);
    SettledEvents(life.buffer);
    assert life.events + [] == life.events;
    DrainAllGood(buffer + Flatten(chunks));
  }

  // ---- Noise

  lemma MagicBorderless()
    ensures Borderless(MAGIC)
  {
    forall d | 0 < d < |MAGIC|
      ensures MAGIC[d..] != MAGIC[..|MAGIC| - d]
    {
      assert MAGIC[d..][0] != MAGIC[0];
    }
  }

  lemma {:induction false} CleanStream(fs: seq<Frame>)
    ensures Events(EncodeAll(fs)) == Goods(fs) && Leftover(EncodeAll(fs)) == []
    decreases |fs|
  {
    hide Encode, Aligned, Find;
    if fs == [] {
      EmptySettled();
    } else {
      var b := Encode(fs[0]) + EncodeAll(fs[1..]);
      AlignedEncode(fs[0], EncodeAll(fs[1..]));
      StartsAt(b, MAGIC);
      assert b[0..] == b;
      CleanStream(fs[1..]);
    }
  }

  /** `noise[0]`, frame, `noise[1]`, frame, and so on, up to a last piece of noise. */
  function NoisyStream(noise: seq<seq<byte>>, fs: seq<Frame>): seq<byte>
    requires |noise| == |fs| + 1
    decreases |fs|
  {
    if fs == [] then noise[0] else noise[0] + (Encode(fs[0]) + NoisyStream(noise[1..], fs[1..]))
  }

  predicate MagicFree(noise: seq<seq<byte>>)
  {
    forall n | n in noise :: Find(n, MAGIC) < 0
  }

  /**
   Frames come back exactly and in order through any noise that does not itself contain the magic,
   even when their own payloads do.
   */
  lemma {:induction false} NoiseTolerance(noise: seq<seq<byte>>, fs: seq<Frame>)
    requires |noise| == |fs| + 1 && MagicFree(noise)
    ensures Events(NoisyStream(noise, fs)) == Goods(fs)
    ensures Leftover(NoisyStream(noise, fs)) == Last(noise[|fs|], 3)
    decreases |fs|
  {
    hide Encode, Aligned, Find, Last;
    if fs != [] {
      var tail := NoisyStream(noise[1..], fs[1..]);
      var b := Encode(fs[0]) + tail;
      AlignedEncode(fs[0], tail);
      MagicBorderless();
      FindAfterNoise(noise[0], b, MAGIC);
      assert (noise[0] + b)[|noise[0]|..] == b;
      NoiseTolerance(noise[1..], fs[1..]);
    }
  }

  /** The same through any cutting into reads: no read raises and nothing but a marker prefix stays. */
  lemma NoiseToleranceInReads(noise: seq<seq<byte>>, fs: seq<Frame>, chunks: seq<seq<byte>>)
    requires |noise| == |fs| + 1 && MagicFree(noise)
    requires Flatten(chunks) == NoisyStream(noise, fs)
    ensures FeedAll([], chunks) == Life(Goods(fs), Last(noise[|fs|], 3))
  {
    hide Events, Leftover, FeedAll, Last, Settled;
    var stream := NoisyStream(noise, fs);
    var life := FeedAll([], chunks);
    assert [] + stream == stream;
    NoiseTolerance(noise, fs);
    ChunkIndependence([], chunks);
    GoodsAll(fs);
    forall e | e in life.events
      ensures e.Good?
    {
      assert e in Goods(fs);
    }
    EmptySettled();
    QuietLifeSettles([], chunks);
    SettledEvents(life.buffer);
    assert life.events + [] == life.events;
  }

  lemma EmptySettled()
    ensures Settled([])
  {
    FindNone([], MAGIC);
  }

  // ---- Corruption

  /** `e` and `e'` agree on the magic and on the length field. */
  predicate SameFraming(e: seq<byte>, e': seq<byte>)
  {
    |e| == |e'| && |e| >= HEADER_SIZE && e[..4] == e'[..4] && e[8..12] == e'[8..12]
  }

  /**
   A frame whose corruption is a burst of at most 32 bits outside magic and length, wherever it
   starts, is rejected with a checksum error and delivers nothing.
   */
  lemma BurstRejected(f: Frame, e': seq<byte>, more: seq<byte>)
    requires SameFraming(Encode(f), e')
    requires Polynomial.Burst(MessageBits(Encode(f)), MessageBits(e'))
    ensures DecodeRound(e' + more) == Reject(CrcMismatch, more)
    ensures Drain(e' + more) == Drained([], more, Some(CrcMismatch))
  {
    hide Crc32, Find, At, WriteWord, ReadWord, MessageBits, Read32, Header, Read16, Polynomial.Burst;
    var e := Encode(f);
    var n := HEADER_SIZE + |f.payload|;
    EncodedFields(Code(f.messageType), f.transactionId, f.sequence, f.payload, []);
    assert e + [] == e;
    var body, body' := e[..n], e'[..n];
    WriteReadWord(e, n);
    WriteReadWord(e', n);
    assert e == body + e[n..n + 4] && e' == body' + e'[n..n + 4];
    BurstDetected(body, ReadWord(e, n), body', ReadWord(e', n));
    SameLength(e, e');
    var b := e' + more;
    assert b[..4] == MAGIC;
    StartsAt(b, MAGIC);
    assert b[0..] == b;
    HeaderExtend(e', more);
    BodyExtend(e', more, n);
    assert e'[n + CRC_SIZE..] == [];
  }

  lemma SameLength(e: seq<byte>, e': seq<byte>)
    requires SameFraming(e, e')
    ensures Read32(e, 8) == Read32(e', 8)
  {
    assert forall i | 8 <= i < 12 :: e[i] == e[8..12][i - 8] && e'[i] == e'[8..12][i - 8];
  }

  /**
   In bytes: any change inside four consecutive bytes, in version, type and flags or anywhere from
   the transaction id to the end, checksum included, is rejected and delivers nothing.
   */
  lemma FourBytesRejected(f: Frame, e': seq<byte>, i: nat, more: seq<byte>)
    requires |e'| == |Encode(f)| && e' != Encode(f)
    requires i == 4 || 12 <= i <= |e'| - 4
    requires e'[..i] == Encode(f)[..i] && e'[i + 4..] == Encode(f)[i + 4..]
    ensures DecodeRound(e' + more) == Reject(CrcMismatch, more)
    ensures Drain(e' + more) == Drained([], more, Some(CrcMismatch))
  {
    FourBytesAreBurst(Encode(f), e', i);
    FramingKept(Encode(f), e', i);
    hide *;
    BurstRejected(f, e', more);
  }

  lemma FramingKept(e: seq<byte>, e': seq<byte>, i: nat)
    requires |e'| == |e| >= HEADER_SIZE && (i == 4 || 12 <= i <= |e| - 4)
    requires e'[..i] == e[..i] && e'[i + 4..] == e[i + 4..]
    ensures SameFraming(e, e')
  {
    assert e[..4] == e[..i][..4] && e'[..4] == e'[..i][..4];
    if i == 4 {
      assert e[8..12] == e[i + 4..][..4] && e'[8..12] == e'[i + 4..][..4];
    } else {
      assert e[8..12] == e[..i][8..12] && e'[8..12] == e'[..i][8..12];
    }
  }

  /** The encodings of any frames in any reads: exactly these frames, no read raises, and nothing stays. */
  lemma CleanReads(fs: seq<Frame>, chunks: seq<seq<byte>>)
    requires Flatten(chunks) == EncodeAll(fs)
    ensures FeedAll([], chunks) == Life(Goods(fs), [])
  {
    hide Encode, Events, Leftover, Settled, EncodeAll, Flatten, FeedAll;
    CleanStream(fs);
    ChunkIndependence([], chunks);
    assert [] + Flatten(chunks) == EncodeAll(fs);
    var life := FeedAll([], chunks);
    GoodsAll(fs);
    forall e | e in life.events
      ensures e.Good?
    {
      assert e in Goods(fs);
    }
    EmptySettled();
    QuietLifeSettles([], chunks);
    SettledEvents(life.buffer);
    assert life.events + [] == life.events;
  }

  // ---- Frames in pieces of their own

  /** `cuts[i]` are the pieces of the `i`-th frame: no piece spans two frames. */
  predicate Cut(fs: seq<Frame>, cuts: seq<seq<seq<byte>>>)
  {
    |cuts| == |fs| && forall i | 0 <= i < |fs| :: Flatten(cuts[i]) == Encode(fs[i])
  }

  lemma CutTail(fs: seq<Frame>, cuts: seq<seq<seq<byte>>>)
    requires fs != [] && Cut(fs, cuts)
    ensures Cut(fs[1..], cuts[1..]) && Flatten(cuts) == cuts[0] + Flatten(cuts[1..])
  {
    assert forall i | 0 <= i < |fs| - 1 :: cuts[1..][i] == cuts[i + 1] && fs[1..][i] == fs[i + 1];
  }

  lemma CutHasHead(fs: seq<Frame>, cuts: seq<seq<seq<byte>>>)
    requires Cut(fs, cuts)
    ensures |cuts| == |fs|
  {}

  lemma {:induction false} CutStream(fs: seq<Frame>, cuts: seq<seq<seq<byte>>>)
    requires Cut(fs, cuts)
    ensures Flatten(Flatten(cuts)) == EncodeAll(fs)
    decreases |fs|
  {
    hide Encode;
    if fs != [] {
      assert forall i | 0 <= i < |fs| - 1 :: cuts[1..][i] == cuts[i + 1] && fs[1..][i] == fs[i + 1];
      CutStream(fs[1..], cuts[1..]);
      FlattenAppend(cuts[0], Flatten(cuts[1..]));
    }
  }

  // ---- What a raising feed loses

  /** What the callers of these feeds get: a feed that raises returns nothing, whatever it had decoded. */
  function Handed(buffer: seq<byte>, chunks: seq<seq<byte>>): seq<Frame>
    decreases |chunks|
  {
    if chunks == [] then []
    else
      var d := Drain(buffer + chunks[0]);
      (if d.error.Some? then [] else d.frames) + Handed(d.rest, chunks[1..])
  }

  /** The frames among these events. */
  function GoodFrames(events: seq<Event>): seq<Frame>
  {
    if events == [] then []
    else (if events[0].Good? then [events[0].frame] else []) + GoodFrames(events[1..])
  }

  /** Every feed that raises does so before it has decoded a frame. */
  predicate RaisesFirst(buffer: seq<byte>, chunks: seq<seq<byte>>)
    decreases |chunks|
  {
    chunks == [] ||
    (var d := Drain(buffer + chunks[0]);
     (d.error.Some? ==> d.frames == []) && RaisesFirst(d.rest, chunks[1..]))
  }

  lemma {:induction false} GoodFramesConcat(a: seq<Event>, b: seq<Event>)
    ensures GoodFrames(a + b) == GoodFrames(a) + GoodFrames(b)
    decreases |a|
  {
    if a == [] {
      assert a + b == b;
    } else {
      assert (a + b)[1..] == a[1..] + b;
      GoodFramesConcat(a[1..], b);
    }
  }

  lemma {:induction false} GoodFramesOfGoods(fs: seq<Frame>)
    ensures GoodFrames(Goods(fs)) == fs
  {
    if fs != [] {
      GoodFramesOfGoods(fs[1..]);
      assert Goods(fs)[1..] == Goods(fs[1..]);
    }
  }

  lemma FeedFrames(d: Drained)
    ensures GoodFrames(FeedEvents(d)) == d.frames
  {
    GoodFramesConcat(Goods(d.frames), if d.error.Some? then [Bad(d.error.value)] else []);
    GoodFramesOfGoods(d.frames);
    hide Goods;
    if d.error.Some? {
      assert [Bad(d.error.value)][1..] == [];
      assert GoodFrames([Bad(d.error.value)]) == [];
    }
  }

  /**
   The exact condition: the callers get every frame that was decoded if and only if every feed that
   raises does so before it has decoded one. Otherwise they get fewer.
   */
  lemma {:induction false} HandedIff(buffer: seq<byte>, chunks: seq<seq<byte>>)
    ensures Handed(buffer, chunks) == GoodFrames(FeedAll(buffer, chunks).events) <==> RaisesFirst(buffer, chunks)
    ensures |Handed(buffer, chunks)| <= |GoodFrames(FeedAll(buffer, chunks).events)|
    ensures |Handed(buffer, chunks)| == |GoodFrames(FeedAll(buffer, chunks).events)| ==> RaisesFirst(buffer, chunks)
    decreases |chunks|
  {
    hide Drain, FeedEvents, GoodFrames;
    if chunks == [] {
      GoodFramesOfGoods([]);
    } else {
      var d := Drain(buffer + chunks[0]);
      var later := FeedAll(d.rest, chunks[1..]);
      HandedIff(d.rest, chunks[1..]);
      GoodFramesConcat(FeedEvents(d), later.events);
      FeedFrames(d);
      var all := d.frames + GoodFrames(later.events);
      if d.error.None? && Handed(buffer, chunks) == all {
        assert Handed(buffer, chunks)[|d.frames|..] == Handed(d.rest, chunks[1..]);
        assert all[|d.frames|..] == GoodFrames(later.events);
      }
    }
  }

  /**
   The smallest loss: an intact frame and a corrupted one in the same read. The decoder raises, and
   the intact frame is never handed over; in two reads it is.
   */
  lemma LostWithTheError(f: Frame, g: Frame, e': seq<byte>, i: nat)
    requires |e'| == |Encode(g)| && e' != Encode(g) && (i == 4 || 12 <= i <= |e'| - 4)
    requires e'[..i] == Encode(g)[..i] && e'[i + 4..] == Encode(g)[i + 4..]
    ensures Drain(Encode(f) + e') == Drained([f], [], Some(CrcMismatch))
    ensures Handed([], [Encode(f) + e']) == [] && Handed([], [Encode(f), e']) == [f]
  {
    FourBytesRejected(g, e', i, []);
    hide *;
    assert e' + [] == e' && Encode(f) + [] == Encode(f);
    FirstDrained(f, e');
    FirstDrained(f, []);
    EmptyDrained();
    OnwardIs(f, [], Some(CrcMismatch));
    OnwardIs(f, [], None);
    HandedOne(Encode(f) + e');
    HandedTwo(Encode(f), e');
    assert [f] + [] == [f];
  }

  lemma OnwardIs(f: Frame, rest: seq<byte>, error: Option<ProtocolError>)
    ensures Onward([f], Drained([], rest, error)) == Drained([f], rest, error)
  {
    assert [f] + [] == [f];
  }

  lemma EmptyDrained()
    ensures Drain([]) == Drained([], [], None)
  {
    EmptySettled();
  }

  lemma HandedOne(a: seq<byte>)
    ensures Handed([], [a]) == if Drain(a).error.Some? then [] else Drain(a).frames
  {
    hide Drain;
    assert [] + a == a && [a][1..] == [] && Drain(a).frames + [] == Drain(a).frames;
  }

  lemma HandedTwo(a: seq<byte>, b: seq<byte>)
    requires Drain(a).error.None? && Drain(a).rest == []
    ensures Handed([], [a, b]) == Drain(a).frames + if Drain(b).error.Some? then [] else Drain(b).frames
  {
    hide Drain;
    assert [] + a == a && [a, b][1..] == [b];
    HandedOne(b);
  }

  lemma FirstDrained(f: Frame, t: seq<byte>)
    ensures Drain(Encode(f) + t) == Onward([f], Drain(t))
  {
    AlignedEncode(f, t);
    hide Encode, Aligned, Find;
    var b := Encode(f) + t;
    StartsAt(b, MAGIC);
    assert b[0..] == b;
  }
}
