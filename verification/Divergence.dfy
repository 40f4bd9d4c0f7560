/** Where host and firmware, reading the same bytes, part ways: exact conditions and smallest instances. */
module Divergence {
  import opened Bytes
  import opened Search
  import opened Crc
  import Polynomial
  import opened Protocol
  import opened FrameTheory
  import opened FirmwareModel
  import opened FirmwareTheory

  // ---- One round on a frame that is there in full

  /** The buffer starts with the magic, and the frame it declares has arrived, unless it declares too much. */
  predicate Arrived(b: seq<byte>)
  {
    && MAGIC <= b && |b| >= HEADER_SIZE
    && (Read32(b, 8) <= MAX_PAYLOAD ==> |b| >= HEADER_SIZE + Read32(b, 8) + CRC_SIZE)
  }

  /** Nothing is wrong with the declared frame except, possibly, its message code. */
  predicate Intact(b: seq<byte>)
    requires Arrived(b)
  {
    && Read32(b, 8) <= MAX_PAYLOAD && b[4] == VERSION && Read16(b, 6) == 0
    && Crc32(b[..HEADER_SIZE + Read32(b, 8)]) == ReadWord(b, HEADER_SIZE + Read32(b, 8))
  }

  /**
   Both sides drop the same bytes if and only if the declared length is too large or nothing is
   wrong with the frame. For every other frame the host drops all of it, the firmware four bytes.
   */
  lemma SameBytesIff(b: seq<byte>, id: TxId, last: u32)
    requires Arrived(b)
    ensures var host, firmware := Aligned(b), TurnOf(b, id, last);
      && !host.Wait? && !firmware.Hold?
      && (host.rest == b[firmware.count..] <==> Read32(b, 8) > MAX_PAYLOAD || Intact(b))
      && (!(Read32(b, 8) > MAX_PAYLOAD || Intact(b)) ==>
            firmware == Skip(4) && host.rest == b[HEADER_SIZE + Read32(b, 8) + CRC_SIZE..])
  {
    hide Crc32, Read32, ReadWord, Read16;
    var host, firmware := Aligned(b), TurnOf(b, id, last);
    assert |host.rest| == |b[firmware.count..]| ==> |b| - |host.rest| == firmware.count;
  }

  /**
   Both sides hand over the frame if and only if nothing is wrong with it, the host knows its code,
   and it is new for the firmware's active transaction; they then hand over the same. One of them
   alone does, if and only if nothing is wrong and exactly one of the two extra conditions holds.
   */
  lemma SameDeliveryIff(b: seq<byte>, id: TxId, last: u32)
    requires Arrived(b)
    ensures var host, firmware := Aligned(b), TurnOf(b, id, last);
      var known, mine := TypeOf(b[5]).Some?, b[12..28] == id && Read32(b, 28) > last;
      && (host.Deliver? && firmware.Accept? <==> Intact(b) && known && mine)
      && (host.Deliver? && firmware.Accept? ==> firmware.frame == Parse(host.frame) && host.rest == b[firmware.count..])
      && (host.Deliver? != firmware.Accept? <==> Intact(b) && known != mine)
  {
    hide Crc32, Read32, ReadWord, Read16;
    KnownCode(b[5]);
  }

  lemma KnownCode(code: byte)
    ensures TypeOf(code).Some? ==> Code(TypeOf(code).value) == code
  {}

  /** The firmware acts on a command whose code the host would reject. */
  lemma UnknownCommand(f: ParsedFrame, last: u32)
    requires |f.payload| <= MAX_PAYLOAD && TypeOf(f.code) == None && f.sequence > last
    ensures Drain(EncodeParsed(f)) == Drained([], [], Some(UnknownType))
    ensures TurnOf(EncodeParsed(f), f.transactionId, last) == Accept(f, |EncodeParsed(f)|)
  {
    var e := EncodeParsed(f);
    EncodedTurn(f, [], f.transactionId, last);
    EncodedFields(f.code, f.transactionId, f.sequence, f.payload, []);
    assert e + [] == e && e[|e|..] == [];
    hide Crc32, EncodeParsed, Read32, ReadWord, Read16, Find;
    StartsAt(e, MAGIC);
    assert e[0..] == e;
  }

  // ---- Corrupted frames on the firmware

  /** Turns that only skip: what they leave behind, and that nothing is handed over. */
  ghost predicate Silent(r: Receiver, r': Receiver)
  {
    r'.id == r.id && r'.last == r.last && r'.epoch == r.epoch && Delivered(r'.log) == Delivered(r.log)
  }

  lemma SkipSilent(r: Receiver, bytes: seq<byte>)
    ensures Silent(r, Discard(r, bytes))
  {
    assert (r.log + [Junk(bytes)])[..|r.log|] == r.log;
  }

  lemma SilentItself(r: Receiver)
    ensures Silent(r, r)
  {}

  lemma SilentTransitive(a: Receiver, b: Receiver, c: Receiver)
    requires Silent(a, b) && Silent(b, c)
    ensures Silent(a, c)
  {}

  lemma SkipOne(b: seq<byte>, r: Receiver, react: Reaction)
    requires |b| >= 4 && b[..4] != MAGIC
    ensures Consume(Rx(b, r), react) == Consume(Rx(b[1..], Discard(r, b[..1])), react)
  {
    hide Plausible;
  }

  /** Bytes before the next magic are skipped one by one. */
  lemma {:induction false} ToNextMagic(noise: seq<byte>, t: seq<byte>, r: Receiver, react: Reaction)
      returns (r': Receiver)
    requires MAGIC <= t && Find(noise + t, MAGIC) == |noise|
    ensures Silent(r, r') && Consume(Rx(noise + t, r), react) == Consume(Rx(t, r'), react)
    decreases |noise|
  {
    hide *;
    r' := r;
    SilentItself(r);
    if noise == [] {
      assert noise + t == t;
    } else {
      var b := noise + t;
      var next := Discard(r, b[..1]);
      assert |b| >= 4 by { MagicSize(t); }
      HeadIsNot(b);
      NextFind(b, |noise|);
      assert b[1..] == noise[1..] + t;
      SkipOne(b, r, react);
      r' := ToNextMagic(noise[1..], t, next, react);
      SkipSilent(r, b[..1]);
      SilentTransitive(r, next, r');
    }
  }

  lemma MagicSize(t: seq<byte>)
    requires MAGIC <= t
    ensures |t| >= 4
  {}

  lemma HeadIsNot(b: seq<byte>)
    requires Find(b, MAGIC) != 0 && |b| >= 4
    ensures b[..4] != MAGIC
  {
    hide Find;
    if b[..4] == MAGIC {
      StartsAt(b, MAGIC);
    }
  }

  lemma NextFind(b: seq<byte>, k: int)
    requires Find(b, MAGIC) == k && k != 0 && b != []
    ensures Find(b[1..], MAGIC) == if k < 0 then k else k - 1
  {
    FindDrop(b, 1, MAGIC);
  }

  /** Without a magic nothing is handed over. */
  lemma {:induction false} NoMagicSilent(b: seq<byte>, r: Receiver, react: Reaction)
    requires Find(b, MAGIC) < 0
    ensures Silent(r, Consume(Rx(b, r), react).receiver)
    decreases |b|
  {
    if |b| < 4 {
      SilentItself(r);
    }
    hide Find, Delivered, Receive, Plausible, Silent, Discard;
    if |b| >= 4 {
      var next := Discard(r, b[..1]);
      HeadIsNot(b);
      NextFind(b, Find(b, MAGIC));
      SkipSilent(r, b[..1]);
      SkipOne(b, r, react);
      NoMagicSilent(b[1..], next, react);
      SilentTransitive(r, next, Consume(Rx(b, r), react).receiver);
    }
  }

  /** A checksum error of the host is a skip of the magic on the firmware. */
  lemma MismatchTurn(b: seq<byte>, rest: seq<byte>, id: TxId, last: u32)
    requires MAGIC <= b && Aligned(b) == Reject(CrcMismatch, rest)
    ensures TurnOf(b, id, last) == Skip(4)
  {
    hide Crc32, Read32, ReadWord, Read16;
  }

  /** A burst outside magic and length makes the firmware drop the magic, and only that. */
  lemma BurstTurn(f: Frame, e': seq<byte>, t: seq<byte>, id: TxId, last: u32)
    requires SameFraming(Encode(f), e') && Polynomial.Burst(MessageBits(Encode(f)), MessageBits(e'))
    ensures TurnOf(e' + t, id, last) == Skip(4)
  {
    BurstRejected(f, e', t);
    FramingMagic(f, e', t);
    hide *;
    RoundAligned(e' + t);
    MismatchTurn(e' + t, t, id, last);
  }

  lemma FramingMagic(f: Frame, e': seq<byte>, t: seq<byte>)
    requires SameFraming(Encode(f), e')
    ensures MAGIC <= e' + t && MAGIC <= e'
  {
    AlignedEncode(f, []);
    hide EncodeRaw, Aligned;
    assert Encode(f) + [] == Encode(f) && (e' + t)[..4] == e'[..4] == Encode(f)[..4];
  }

  /**
   After a burst outside magic and length the firmware does exactly what the bytes from the next
   magic on make it do, as if nothing had come before; without a further magic it hands nothing over.
   */
  lemma BurstOnward(f: Frame, e': seq<byte>, t: seq<byte>, r: Receiver, react: Reaction) returns (r': Receiver)
    requires SameFraming(Encode(f), e') && Polynomial.Burst(MessageBits(Encode(f)), MessageBits(e'))
    ensures Silent(r, r')
    ensures var b := e'[4..] + t; var at := Find(b, MAGIC);
      if at < 0 then Silent(r, Consume(Rx(e' + t, r), react).receiver)
      else at <= |b| && Consume(Rx(e' + t, r), react) == Consume(Rx(b[at..], r'), react)
  {
    hide *;
    BurstTurn(f, e', t, r.id, r.last);
    FramingMagic(f, e', t);
    MagicSize(e');
    var head := (e' + t)[..4];
    assert (e' + t)[4..] == e'[4..] + t;
    ConsumeSkip(e' + t, r, react);
    SkipSilent(r, head);
    r' := FromMagic(e'[4..] + t, Discard(r, head), react);
    SilentTransitive(r, Discard(r, head), r');
    if Find(e'[4..] + t, MAGIC) < 0 {
      SilentTransitive(r, r', Consume(Rx(e' + t, r), react).receiver);
    }
  }

  /** The firmware does what the bytes from the first magic on make it do. */
  lemma FromMagic(b: seq<byte>, r: Receiver, react: Reaction) returns (r': Receiver)
    ensures Silent(r, r')
    ensures var at := Find(b, MAGIC);
      if at < 0 then Silent(r', Consume(Rx(b, r), react).receiver)
      else at <= |b| && Consume(Rx(b, r), react) == Consume(Rx(b[at..], r'), react)
  {
    hide *;
    var at := Find(b, MAGIC);
    r' := r;
    SilentItself(r);
    if at < 0 {
      NoMagicSilent(b, r, react);
    } else {
      FindAligns(b, MAGIC);
      assert b == b[..at] + b[at..];
      r' := ToNextMagic(b[..at], b[at..], r, react);
    }
  }

  /** In particular a corrupted frame without a magic behind its head hands nothing over, like on the host. */
  lemma BurstSilent(f: Frame, e': seq<byte>, r: Receiver, react: Reaction)
    requires SameFraming(Encode(f), e') && Polynomial.Burst(MessageBits(Encode(f)), MessageBits(e'))
    requires Find(e'[4..], MAGIC) < 0
    ensures Delivered(Consume(Rx(e', r), react).receiver.log) == Delivered(r.log)
  {
    hide Encode, Delivered, Consume, Find, Polynomial.Burst;
    assert e' + [] == e' && e'[4..] + [] == e'[4..];
    var r' := BurstOnward(f, e', [], r, react);
  }

  /** What was handed over stays handed over. */
  lemma {:induction false} DeliveredGrows(rx: Rx, react: Reaction)
    ensures Delivered(rx.receiver.log) <= Delivered(Consume(rx, react).receiver.log)
    decreases |rx.buffer|
  {
    hide TurnOf, Delivered, Apply;
    var t := TurnOf(rx.buffer, rx.receiver.id, rx.receiver.last);
    if !t.Hold? {
      ApplyGrows(rx.receiver, rx.buffer, t, react);
      DeliveredGrows(Rx(rx.buffer[t.count..], Apply(rx.receiver, rx.buffer, t, react)), react);
    }
  }

  lemma ApplyGrows(r: Receiver, b: seq<byte>, t: Turn, react: Reaction)
    requires !t.Hold? && t.count <= |b|
    ensures Delivered(r.log) <= Delivered(Apply(r, b, t, react).log)
  {
    var next := Apply(r, b, t, react);
    assert next.log[..|r.log|] == r.log && |next.log| == |r.log| + 1;
  }

  /**
   The phantom command: when the next magic in a corrupted frame starts an encoded command of the
   active transaction, wherever in the frame it lies, the host drops the whole frame, but the firmware
   acts on that command, although nobody sent it as one.
   */
  lemma PhantomCommand(f: Frame, e': seq<byte>, pre: seq<byte>, g: Frame, tail: seq<byte>, r: Receiver, react: Reaction)
    requires SameFraming(Encode(f), e') && Polynomial.Burst(MessageBits(Encode(f)), MessageBits(e'))
    requires e'[4..] == pre + (Encode(g) + tail) && Find(pre, MAGIC) < 0
    requires g.transactionId == r.id && g.sequence > r.last
    ensures Drain(e') == Drained([], [], Some(CrcMismatch))
    ensures Delivered(r.log) + [Parse(g)] <= Delivered(Consume(Rx(e', r), react).receiver.log)
  {
    hide *;
    AlignedEncode(g, tail);
    BurstRejected(f, e', []);
    MagicBorderless();
    FramingMagic(f, e', []);
    MagicSize(e');
    assert e' + [] == e' && e'[4..] + [] == e'[4..];
    MagicNotEmpty();
    FindAfterNoise(pre, Encode(g) + tail, MAGIC);
    var r' := BurstOnward(f, e', [], r, react);
    Behind(pre, Encode(g) + tail);
    SilentMeans(r, r');
    InnerTaken(g, tail, r', react);
  }

  lemma MagicNotEmpty()
    ensures |MAGIC| > 0
  {}

  lemma Behind(a: seq<byte>, b: seq<byte>)
    ensures (a + b)[|a|..] == b
  {}

  lemma SilentMeans(r: Receiver, r': Receiver)
    requires Silent(r, r')
    ensures r'.id == r.id && r'.last == r.last && Delivered(r'.log) == Delivered(r.log)
  {}

  lemma InnerTaken(g: Frame, tail: seq<byte>, r: Receiver, react: Reaction)
    requires g.transactionId == r.id && g.sequence > r.last
    ensures Delivered(r.log) + [Parse(g)] <= Delivered(Consume(Rx(Encode(g) + tail, r), react).receiver.log)
  {
    hide TurnOf, EncodeRaw, Receive, Delivered;
    EncodedTurn(Parse(g), tail, r.id, r.last);
    TakenNow(r, Parse(g), react);
    DeliveredGrows(Rx(tail, Receive(r, Parse(g), react)), react);
  }

  lemma TakenNow(r: Receiver, f: ParsedFrame, react: Reaction)
    ensures Delivered(Receive(r, f, react).log) == Delivered(r.log) + [f]
  {
    assert (r.log + [Taken(f, r.epoch)])[..|r.log|] == r.log;
  }

  lemma ConsumeSkip(b: seq<byte>, r: Receiver, react: Reaction)
    requires TurnOf(b, r.id, r.last) == Skip(4)
    ensures |b| >= 4 && Consume(Rx(b, r), react) == Consume(Rx(b[4..], Discard(r, b[..4])), react)
  {
    hide TurnOf;
  }

  /**
   A phantom in a host's own offer: the 100 bytes of the record start with an encoded command, and
   the checksum is damaged on the way. The transaction id and the sequence must not contain an 'F'.
   */
  lemma PhantomInOffer(f: Frame, slot: byte, g: Frame, post: seq<byte>, v: bv32, r: Receiver, react: Reaction)
    requires f.messageType == SetOfferMon && f.transactionId == r.id && 0x46 !in r.id + Write32(f.sequence)
    requires g.payload == [] && |post| == 64 && f.payload == [slot] + Encode(g) + post && slot <= 5
    requires g.transactionId == r.id && g.sequence > r.last
    requires v != Crc32(Header(Code(SetOfferMon), r.id, f.sequence, 101) + f.payload)
    ensures var e' := Header(Code(SetOfferMon), r.id, f.sequence, 101) + f.payload + WriteWord(v);
      && Drain(e') == Drained([], [], Some(CrcMismatch))
      && Delivered(r.log) + [Parse(g)] <= Delivered(Consume(Rx(e', r), react).receiver.log)
  {
    var h := Header(Code(SetOfferMon), r.id, f.sequence, 101);
    var e', pre := h + f.payload + WriteWord(v), h[4..] + [slot];
    assert |f.payload| == 101;
    OfferHeader(r.id, f.sequence, slot);
    hide Crc32, Encode, EncodeRaw, TurnOf, Delivered, Drain, Consume, Find, Header, WriteWord, Write32;
    hide Polynomial.Burst;
    DamagedTrailer(f, v);
    OfferTail(h, slot, Encode(g), post, WriteWord(v));
    NoFirstByte(pre);
    PhantomCommand(f, e', pre, g, post + WriteWord(v), r, react);
  }

  lemma OfferTail(h: seq<byte>, slot: byte, inner: seq<byte>, post: seq<byte>, w: seq<byte>)
    requires |h| >= 4
    ensures (h + ([slot] + inner + post) + w)[4..] == h[4..] + [slot] + (inner + (post + w))
  {}

  lemma OfferHeader(id: TxId, sequence: u32, slot: byte)
    requires 0x46 !in id + Write32(sequence) && slot <= 5
    ensures 0x46 !in Header(Code(SetOfferMon), id, sequence, 101)[4..] + [slot]
  {
    assert Write32(101) == [101, 0, 0, 0] && Write16(0) == [0, 0];
    hide Write32, Write16;
    var tail := Header(Code(SetOfferMon), id, sequence, 101)[4..];
    assert tail == [VERSION, 0x20] + [0, 0] + [101, 0, 0, 0] + (id + Write32(sequence));
  }

  lemma NoFirstByte(s: seq<byte>)
    requires 0x46 !in s
    ensures Find(s, MAGIC) < 0
  {
    forall i | 0 <= i < |s| + 1
      ensures !At(s, MAGIC, i)
    {
      if i + 4 <= |s| {
        assert s[i..i + 4][0] == s[i];
      }
    }
    FindNone(s, MAGIC);
  }

  /** Another trailer is a burst outside magic and length. */
  lemma DamagedTrailer(f: Frame, v: bv32)
    requires var body := Header(Code(f.messageType), f.transactionId, f.sequence, |f.payload|) + f.payload;
      v != Crc32(body)
    ensures var body := Header(Code(f.messageType), f.transactionId, f.sequence, |f.payload|) + f.payload;
      var e' := body + WriteWord(v);
      SameFraming(Encode(f), e') && Polynomial.Burst(MessageBits(Encode(f)), MessageBits(e'))
  {
    var body := Header(Code(f.messageType), f.transactionId, f.sequence, |f.payload|) + f.payload;
    var e' := body + WriteWord(v);
    EncodeParts(f);
    hide Crc32, WriteWord, Header, Encode, EncodeRaw, MessageBits, Polynomial.Burst, SameFraming;
    OtherTrailer(body, v, Crc32(body));
    FourBytesAreBurst(Encode(f), e', |body|);
    FramingKept(Encode(f), e', |body|);
  }

  lemma EncodeParts(f: Frame)
    ensures var body := Header(Code(f.messageType), f.transactionId, f.sequence, |f.payload|) + f.payload;
      Encode(f) == body + WriteWord(Crc32(body))
  {
    hide Crc32, Header, WriteWord;
  }

  lemma OtherTrailer(body: seq<byte>, v: bv32, w: bv32)
    requires v != w
    ensures var e', e := body + WriteWord(v), body + WriteWord(w);
      && e' != e && |e'| == |e| == |body| + 4
      && e'[..|body|] == e[..|body|] == body && e'[|body| + 4..] == e[|body| + 4..]
  {
    ReadWriteWord(v);
    ReadWriteWord(w);
    hide WriteWord, Word;
    var e', e := body + WriteWord(v), body + WriteWord(w);
    assert e'[|body|..] == WriteWord(v) && e[|body|..] == WriteWord(w);
  }

  // ---- A frame behind a waiting header

  /**
   When the firmware waits, a complete frame can only sit behind a header that declares a longer
   frame which has not arrived yet.
   */
  lemma WaitingBuries(b: seq<byte>, id: TxId, last: u32, g: ParsedFrame, k: nat)
    requires TurnOf(b, id, last).Hold? && |g.payload| <= MAX_PAYLOAD
    requires k + |EncodeParsed(g)| <= |b| && b[k..k + |EncodeParsed(g)|] == EncodeParsed(g)
    ensures k > 0 && |b| >= HEADER_SIZE && MAGIC <= b && Plausible(b)
    ensures |b| < HEADER_SIZE + Read32(b, 8) + CRC_SIZE
  {
    if k == 0 {
      HeadActs(b, id, last, g);
    }
    hide Crc32, EncodeRaw, Read32, ReadWord, Read16;
  }

  lemma HeadActs(b: seq<byte>, id: TxId, last: u32, g: ParsedFrame)
    requires |g.payload| <= MAX_PAYLOAD && EncodeParsed(g) <= b
    ensures !TurnOf(b, id, last).Hold?
  {
    var n := |EncodeParsed(g)|;
    EncodedTurn(g, b[n..], id, last);
    assert b == EncodeParsed(g) + b[n..];
  }

  /** It happens: a frame that carries another one, all but its end arrived. */
  lemma BuriedFrame(f: Frame, g: Frame, rest: seq<byte>, id: TxId, last: u32)
    requires f.payload == Encode(g) + rest
    ensures var b := Encode(f)[..HEADER_SIZE + |Encode(g)|];
      TurnOf(b, id, last).Hold? && b[HEADER_SIZE..] == Encode(g)
  {
    var k := HEADER_SIZE + |Encode(g)|;
    EncodedFields(Code(f.messageType), f.transactionId, f.sequence, f.payload, []);
    hide TurnOf, EncodeRaw;
    PrefixHolds(Parse(f), k, id, last);
    assert Encode(f) + [] == Encode(f);
    assert Encode(f)[HEADER_SIZE..HEADER_SIZE + |f.payload|][..|Encode(g)|] == Encode(f)[HEADER_SIZE..k];
  }

  // ---- When a clean stream overflows the receive buffer

  /** What remains of a clean stream: nothing, or less than the next frame. */
  predicate Underway(buffer: seq<byte>, fs: seq<Frame>)
  {
    buffer == [] || (fs != [] && |buffer| < |Encode(fs[0])|)
  }

  /** On a clean stream every turn takes a whole frame, delivered or stale. */
  lemma {:induction false} ConsumeClean(b: seq<byte>, fs: seq<Frame>, rest: seq<byte>, r: Receiver, react: Reaction)
      returns (k: nat)
    requires b + rest == EncodeAll(fs)
    ensures k <= |fs|
    ensures var left := Consume(Rx(b, r), react).buffer; left + rest == EncodeAll(fs[k..]) && Underway(left, fs[k..])
    decreases |fs|
  {
    hide TurnOf, EncodeRaw, Receive;
    k := 0;
    assert fs[0..] == fs;
    if fs == [] {
      EmptyHolds(r.id, r.last);
    } else {
      var e := Encode(fs[0]);
      var all := b + rest;
      if |b| < |e| {
        assert b == all[..|b|] == e[..|b|];
        PrefixHolds(Parse(fs[0]), |b|, r.id, r.last);
      } else {
        var b' := b[|e|..];
        assert b[..|e|] == all[..|e|] == e && b == e + b';
        assert b' + rest == all[|e|..] == EncodeAll(fs[1..]);
        EncodedTurn(Parse(fs[0]), b', r.id, r.last);
        var t := TurnOf(b, r.id, r.last);
        k := ConsumeClean(b', fs[1..], rest, Apply(r, b, t, react), react);
        assert fs[1..][k..] == fs[k + 1..];
        k := k + 1;
      }
    }
  }

  function Min(a: nat, b: nat): nat
  {
    if a <= b then a else b
  }

  /**
   Every frame leaves room, beside all but its last byte, for the longest piece that can follow there:
   `piece` bytes, or all that is left of the stream.
   */
  predicate Roomy(fs: seq<Frame>, piece: nat)
  {
    fs == [] || (|fs[0].payload| + Min(piece, 1 + |EncodeAll(fs[1..])|) <= 4097 && Roomy(fs[1..], piece))
  }

  predicate Pieces(chunks: seq<seq<byte>>, piece: nat)
  {
    forall c | c in chunks :: |c| <= piece
  }

  lemma {:induction false} RoomyLater(fs: seq<Frame>, piece: nat, k: nat)
    requires Roomy(fs, piece) && k <= |fs|
    ensures Roomy(fs[k..], piece)
    decreases k
  {
    hide EncodeAll;
    if k == 0 {
      assert fs[0..] == fs;
    } else {
      RoomyLater(fs[1..], piece, k - 1);
      assert fs[1..][k - 1..] == fs[k..];
    }
  }

  /** A piece that starts within a frame leaves at most what room there is behind its last byte. */
  lemma RoomLeft(held: nat, c: nat, f: Frame, later: nat, piece: nat)
    requires |f.payload| + Min(piece, 1 + later) <= 4097 && held < |Encode(f)|
    requires c <= piece && held + c <= |Encode(f)| + later
    ensures held + c <= MAX_FRAME
  {
    hide EncodeRaw;
  }

  lemma FirstFits(rx: Rx, fs: seq<Frame>, c: seq<byte>, later: seq<byte>, piece: nat)
    requires Underway(rx.buffer, fs) && Roomy(fs, piece) && |c| <= piece
    requires rx.buffer + c + later == EncodeAll(fs)
    ensures Fits(rx, c)
  {
    hide EncodeRaw;
    assert |rx.buffer| + |c| <= |EncodeAll(fs)|;
    if fs != [] {
      RoomLeft(|rx.buffer|, |c|, fs[0], |EncodeAll(fs[1..])|, piece);
    }
  }

  /** A clean stream never overflows when its frames leave room. Pieces may span frames. */
  lemma {:induction false} CleanFits(rx: Rx, fs: seq<Frame>, chunks: seq<seq<byte>>, rest: seq<byte>, piece: nat,
                                     react: Reaction)
    requires |rx.buffer| < MAX_FRAME && Underway(rx.buffer, fs) && Roomy(fs, piece) && Pieces(chunks, piece)
    requires rx.buffer + Flatten(chunks) + rest == EncodeAll(fs)
    ensures NoOverflow(rx, chunks, react)
    decreases |chunks|
  {
    hide Consume, EncodeAll, Encode, Underway, Roomy;
    if chunks != [] {
      var c := chunks[0];
      assert c in chunks;
      var later := Flatten(chunks[1..]) + rest;
      assert rx.buffer + Flatten(chunks) + rest == rx.buffer + c + later;
      FirstFits(rx, fs, c, later, piece);
      var k := ConsumeClean(rx.buffer + c, fs, later, rx.receiver, react);
      var next := Feed(rx, c, react);
      assert next.buffer + Flatten(chunks[1..]) + rest == next.buffer + later;
      RoomyLater(fs, piece, k);
      CleanFits(next, fs[k..], chunks[1..], rest, piece, react);
    }
  }

  // ---- The room is needed

  function Singles(s: seq<byte>): (r: seq<seq<byte>>)
    ensures Pieces(r, 1)
  {
    if s == [] then [] else [[s[0]]] + Singles(s[1..])
  }

  lemma {:induction false} SinglesFlatten(s: seq<byte>)
    ensures Flatten(Singles(s)) == s
    decreases |s|
  {
    if s != [] {
      SinglesFlatten(s[1..]);
      assert Singles(s)[1..] == Singles(s[1..]);
      assert s == [s[0]] + s[1..];
    }
  }

  /** After one whole frame, byte by byte, the buffer is empty again. */
  lemma AfterFrame(f: Frame, r: Receiver, react: Reaction) returns (next: Receiver)
    ensures FeedChunks(Rx([], r), Singles(Encode(f)), react) == Rx([], next)
  {
    hide Consume, Encode, FeedChunks, NoOverflow, TurnOf;
    var e, chunks := Encode(f), Singles(Encode(f));
    SinglesFlatten(e);
    OneFrame(f);
    assert [] + Flatten(chunks) + [] == e && [] + Flatten(chunks) == e && e + [] == e;
    CleanFits(Rx([], r), [f], chunks, [], 1, react);
    EmptyHolds(r.id, r.last);
    FirmwareChunkIndependence(Rx([], r), chunks, react);
    var k := ConsumeClean(e, [f], [], r, react);
    NothingLeft(Consume(Rx(e, r), react).buffer, f, k);
    next := Consume(Rx(e, r), react).receiver;
  }

  lemma OneFrame(f: Frame)
    ensures EncodeAll([f]) == Encode(f) && Roomy([f], 1)
  {
    hide EncodeRaw;
    assert [f][1..] == [];
    assert EncodeAll([f]) == Encode(f) + EncodeAll([]) == Encode(f);
  }

  lemma NothingLeft(left: seq<byte>, f: Frame, k: nat)
    requires k <= 1 && left + [] == EncodeAll([f][k..]) && Underway(left, [f][k..])
    ensures left == []
  {
    OneFrame(f);
    hide Encode;
    assert [f][0..] == [f] && [f][1..] == [];
    assert left + [] == left;
  }

  /** Without the room there is a cut into pieces that overflows. */
  lemma {:induction false} Overflowing(fs: seq<Frame>, piece: nat, r: Receiver, react: Reaction)
      returns (chunks: seq<seq<byte>>)
    requires !Roomy(fs, piece) && piece >= 1
    ensures Flatten(chunks) == EncodeAll(fs) && Pieces(chunks, piece) && !NoOverflow(Rx([], r), chunks, react)
    decreases |fs|
  {
    var f, tail := fs[0], EncodeAll(fs[1..]);
    if |f.payload| + Min(piece, 1 + |tail|) > 4097 {
      chunks := OverflowHere(f, tail, piece, r, react);
    } else {
      hide Encode, FeedChunks, NoOverflow, Roomy;
      var head := Singles(Encode(f));
      SinglesFlatten(Encode(f));
      var next := AfterFrame(f, r, react);
      var later := Overflowing(fs[1..], piece, next, react);
      FlattenAppend(head, later);
      FeedChunksConcat(Rx([], r), head, later, react);
      chunks := head + later;
    }
  }

  lemma OverflowHere(f: Frame, tail: seq<byte>, piece: nat, r: Receiver, react: Reaction)
      returns (chunks: seq<seq<byte>>)
    requires |f.payload| + Min(piece, 1 + |tail|) > 4097 && piece >= 1
    ensures Flatten(chunks) == Encode(f) + tail && Pieces(chunks, piece) && !NoOverflow(Rx([], r), chunks, react)
  {
    var e := Encode(f);
    var n, m: nat := |e| - 1, Min(piece, 1 + |tail|) - 1;
    hide Encode, EncodeRaw, FeedChunks, NoOverflow, Flatten, Singles, Pieces;
    var head, c, rest := Singles(e[..n]), e[n..] + tail[..m], Singles(tail[m..]);
    SinglesFlatten(e[..n]);
    SinglesFlatten(tail[m..]);
    HeldPart(f, n, head, r, react);
    OverflowBehind(head, c, rest, Rx(e[..n], r), r, react);
    Rejoined(e, n, tail, m);
    JoinPieces(head, c, rest, piece);
    chunks := head + ([c] + rest);
  }

  lemma JoinPieces(head: seq<seq<byte>>, c: seq<byte>, rest: seq<seq<byte>>, piece: nat)
    requires Pieces(head, 1) && |c| <= piece && Pieces(rest, 1) && piece >= 1
    ensures Pieces(head + ([c] + rest), piece)
  {}

  /** The head of a frame, in any pieces, is held. */
  lemma HeldPart(f: Frame, n: nat, head: seq<seq<byte>>, r: Receiver, react: Reaction)
    requires n < |Encode(f)| && Flatten(head) == Encode(f)[..n]
    ensures FeedChunks(Rx([], r), head, react) == Rx(Encode(f)[..n], r)
  {
    hide Encode, EncodeRaw, FeedChunks, NoOverflow;
    var e := Encode(f);
    assert e[0..n] == e[..n] && e[..0] == [];
    FramePartly(f, 0, head, r, react);
  }

  lemma OverflowBehind(head: seq<seq<byte>>, c: seq<byte>, rest: seq<seq<byte>>, held: Rx, r: Receiver,
                       react: Reaction)
    requires FeedChunks(Rx([], r), head, react) == held && !Fits(held, c)
    ensures !NoOverflow(Rx([], r), head + ([c] + rest), react)
    ensures Flatten(head + ([c] + rest)) == Flatten(head) + (c + Flatten(rest))
  {
    assert ([c] + rest)[0] == c;
    hide FeedChunks, Flatten, Feed;
    FeedChunksConcat(Rx([], r), head, [c] + rest, react);
    FlattenAppend(head, [c] + rest);
    FlattenAppend([c], rest);
    FlattenOne(c);
  }

  lemma Rejoined(e: seq<byte>, n: nat, tail: seq<byte>, m: nat)
    requires n <= |e| && m <= |tail|
    ensures e[..n] + (e[n..] + tail[..m] + tail[m..]) == e + tail
  {
    assert e == e[..n] + e[n..] && tail == tail[..m] + tail[m..];
  }

  /** The exact condition: no cut of a clean stream into such pieces overflows if and only if its frames leave room. */
  lemma RoomyIff(fs: seq<Frame>, piece: nat, r: Receiver, react: Reaction)
    requires piece >= 1
    ensures Roomy(fs, piece) <==>
      forall chunks: seq<seq<byte>> | Flatten(chunks) == EncodeAll(fs) && Pieces(chunks, piece) ::
        NoOverflow(Rx([], r), chunks, react)
  {
    hide Roomy, NoOverflow, EncodeAll, Flatten, Pieces;
    if Roomy(fs, piece) {
      forall chunks: seq<seq<byte>> | Flatten(chunks) == EncodeAll(fs) && Pieces(chunks, piece)
        ensures NoOverflow(Rx([], r), chunks, react)
      {
        assert [] + Flatten(chunks) + [] == EncodeAll(fs);
        CleanFits(Rx([], r), fs, chunks, [], piece, react);
      }
    } else {
      var chunks := Overflowing(fs, piece, r, react);
    }
  }

  /** The simple bound: pieces of at most 64 bytes and payloads of at most 4033 always leave room. */
  lemma {:induction false} SmallIsRoomy(fs: seq<Frame>, piece: nat)
    requires forall f | f in fs :: |f.payload| + piece <= 4097
    ensures Roomy(fs, piece)
    decreases |fs|
  {
    hide EncodeAll;
    if fs != [] {
      assert fs[0] in fs && forall f | f in fs[1..] :: f in fs;
      SmallIsRoomy(fs[1..], piece);
    }
  }

  // ---- Agreement across frames

  /**
   For new commands of the active transaction in any pieces that leave room, spanning frames or not,
   the firmware hands over exactly the frames that the host's decoder and replay window accept from
   the same pieces.
   */
  lemma SpanningAgreement(fs: seq<Frame>, chunks: seq<seq<byte>>, piece: nat, r: Receiver, react: Reaction)
    requires Roomy(fs, piece) && Pieces(chunks, piece) && Flatten(chunks) == EncodeAll(fs)
    requires Fresh(fs, r) && Passive(react)
    ensures var end := FeedChunks(Rx([], r), chunks, react);
      && NoOverflow(Rx([], r), chunks, react) && end.buffer == []
      && Delivered(end.receiver.log) == Delivered(r.log) + ParseAll(fs)
      && FeedAll([], chunks) == Life(Goods(fs), []) && AdmitsAll(map[], fs)
  {
    hide Roomy, NoOverflow, EncodeAll, FeedChunks, Delivered, Consume, Flatten, TurnOf, FeedAll, Pieces, Fresh, Passive;
    var cuts := Whole(fs);
    WholeCut(fs);
    CutStream(fs, cuts);
    assert [] + Flatten(chunks) + [] == EncodeAll(fs) && [] + Flatten(chunks) == [] + Flatten(Flatten(cuts));
    CleanFits(Rx([], r), fs, chunks, [], piece, react);
    EmptyHolds(r.id, r.last);
    HostFirmwareAgreement(fs, cuts, r, react);
    FirmwareChunkIndependence(Rx([], r), chunks, react);
    FirmwareChunkIndependence(Rx([], r), Flatten(cuts), react);
    CleanReads(fs, chunks);
  }

  /** Every frame in one piece. */
  function Whole(fs: seq<Frame>): seq<seq<seq<byte>>>
  {
    if fs == [] then [] else [[Encode(fs[0])]] + Whole(fs[1..])
  }

  lemma {:induction false} WholeCut(fs: seq<Frame>)
    ensures Cut(fs, Whole(fs))
    decreases |fs|
  {
    hide Encode;
    if fs != [] {
      WholeCut(fs[1..]);
      FlattenOne(Encode(fs[0]));
      var cuts := Whole(fs);
      forall i | 0 <= i < |fs|
        ensures Flatten(cuts[i]) == Encode(fs[i])
      {
        if i > 0 {
          assert cuts[i] == Whole(fs[1..])[i - 1] && fs[i] == fs[1..][i - 1];
        }
      }
    }
  }

  /**
   And what overflows is lost. Take a frame without the room, all but its last byte arrived in any
   pieces, and then one piece with that byte and the head of what follows: all that is buffered is gone.
   */
  lemma OverflowLoses(f: Frame, head: seq<seq<byte>>, next: seq<byte>, piece: nat, r: Receiver, react: Reaction)
    requires |f.payload| + piece > 4097 && |next| == piece - 1
    requires Flatten(head) == Encode(f)[..|Encode(f)| - 1]
    ensures var chunks := head + [Encode(f)[|Encode(f)| - 1..] + next];
      var end := FeedChunks(Rx([], r), chunks, react);
      && Flatten(chunks) == Encode(f) + next && !NoOverflow(Rx([], r), chunks, react)
      && end.buffer == [] && Delivered(end.receiver.log) == Delivered(r.log)
  {
    var e := Encode(f);
    var n: nat := |e| - 1;
    var last := e[n..] + next;
    hide Encode, EncodeRaw, Feed, FeedChunks, NoOverflow, Delivered, Flatten, Discard;
    HeldPart(f, n, head, r, react);
    AfterHead(head, last, Rx(e[..n], r), r, react);
    SkipSilent(r, e[..n] + last);
    Rejoin(e, n, next);
  }

  lemma Rejoin(e: seq<byte>, n: nat, next: seq<byte>)
    requires n <= |e|
    ensures e[..n] + (e[n..] + next) == e + next
  {
    assert e == e[..n] + e[n..];
  }

  lemma AfterHead(head: seq<seq<byte>>, last: seq<byte>, held: Rx, r: Receiver, react: Reaction)
    requires FeedChunks(Rx([], r), head, react) == held && !Fits(held, last)
    ensures FeedChunks(Rx([], r), head + [last], react) == Rx([], Discard(held.receiver, held.buffer + last))
    ensures !NoOverflow(Rx([], r), head + [last], react) && Flatten(head + [last]) == Flatten(head) + last
  {
    hide FeedChunks, NoOverflow, Flatten;
    FeedChunksConcat(Rx([], r), head, [last], react);
    FlattenAppend(head, [last]);
    FlattenOne(last);
    LastFeed(held, last, react);
  }

  lemma FlattenOne(c: seq<byte>)
    ensures Flatten([c]) == c
  {
    assert Flatten([c]) == c + Flatten([c][1..]);
  }

  lemma LastFeed(rx: Rx, last: seq<byte>, react: Reaction)
    requires |rx.buffer| < MAX_FRAME && !Fits(rx, last)
    ensures FeedChunks(rx, [last], react) == Rx([], Discard(rx.receiver, rx.buffer + last))
    ensures !NoOverflow(rx, [last], react)
  {
    assert [last][1..] == [];
  }
}
