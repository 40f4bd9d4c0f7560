/** What survives the two nested framings, however the bytes are cut and interleaved on the way. */
module SerialTheory {
  import opened Bytes
  import opened Search
  import opened Serial
  import Protocol
  import Frames = FrameTheory

  // ---- More bytes never change a decision of the outer layer

  function Append(r: OuterRound, more: seq<byte>): OuterRound
  {
    match r
    case OuterWait(rest) => OuterWait(rest + more)
    case BadLength(rest) => BadLength(rest + more)
    case Packet(channel, payload, rest) => Packet(channel, payload, rest + more)
  }

  lemma OuterRoundExtend(buffer: seq<byte>, more: seq<byte>)
    requires !OuterDecode(buffer).OuterWait?
    ensures OuterDecode(buffer + more) == Append(OuterDecode(buffer), more)
  {
    hide Find, At;
    var at := Find(buffer, SYNC);
    FindExtend(buffer, more, SYNC);
    FindAligns(buffer, SYNC);
    var b := buffer[at..];
    var c := b + more;
    assert (buffer + more)[at..] == c;
    assert Read16(c, 3) == Read16(b, 3);
    var length := Read16(b, 3);
    if length > MAX_OUTER_PAYLOAD {
      assert c[2..] == b[2..] + more;
    } else {
      assert c[5 + length..] == b[5 + length..] + more && c[5..5 + length] == b[5..5 + length];
    }
  }

  lemma SyncStartKept(buffer: seq<byte>, more: seq<byte>)
    requires Find(buffer, SYNC) < 0
    ensures NoneBefore(buffer + more, SYNC, |buffer| - |SyncStart(buffer)|)
  {
    hide Find;
    NoneStraddles(buffer, more, SYNC);
    var s := buffer + more;
    forall i | 0 <= i < |buffer| - |SyncStart(buffer)|
      ensures !At(s, SYNC, i)
    {
      if i == |buffer| - 1 && i + 2 <= |s| {
        assert s[i..i + 2][0] == buffer[i];
      }
    }
  }

  lemma DropDecodes(buffer: seq<byte>, k: nat)
    requires k <= |buffer| && NoneBefore(buffer, SYNC, k)
    requires Find(buffer[k..], SYNC) >= 0
    ensures OuterDecode(buffer) == OuterDecode(buffer[k..])
  {
    hide OuterAligned, Find, At;
    var j := Find(buffer[k..], SYNC);
    FindDrop(buffer, k, SYNC);
    assert buffer[k + j..] == buffer[k..][j..];
  }

  lemma OuterWaitDrops(buffer: seq<byte>, more: seq<byte>)
    requires OuterDecode(buffer).OuterWait?
    ensures OuterDecode(buffer + more) == OuterDecode(OuterDecode(buffer).rest + more)
  {
    hide OuterAligned, Find, At, SyncStart;
    var at, rest := Find(buffer, SYNC), OuterDecode(buffer).rest;
    var s, k := buffer + more, |buffer| - |rest|;
    assert rest == buffer[k..] && s[k..] == rest + more;
    if at >= 0 {
      FindAligns(buffer, SYNC);
      FindExtend(buffer, more, SYNC);
      StartsAt(rest + more, SYNC);
      assert (rest + more)[0..] == rest + more;
    } else {
      SyncStartKept(buffer, more);
      if Find(rest + more, SYNC) >= 0 {
        DropDecodes(s, k);
      } else {
        FindDrop(s, k, SYNC);
        if k == |s| {
          assert s == buffer;
        }
        SyncStartSuffix(s, k);
      }
    }
  }

  lemma SyncStartSuffix(s: seq<byte>, k: nat)
    requires k <= |s| && NoneBefore(s, SYNC, k) && (k == |s| ==> SyncStart(s) == [])
    ensures SyncStart(s) == SyncStart(s[k..])
  {}

  // ---- The payload of a whole wire

  /** Every data byte of a buffer, the loop restarted after each error. */
  function DataOf(buffer: seq<byte>): seq<byte>
    decreases |buffer|
  {
    match OuterDecode(buffer)
    case OuterWait(_) => []
    case BadLength(rest) => DataOf(rest)
    case Packet(channel, payload, rest) => (if channel == CHANNEL_DATA then payload else []) + DataOf(rest)
  }

  function OuterLeftover(buffer: seq<byte>): seq<byte>
    decreases |buffer|
  {
    match OuterDecode(buffer)
    case OuterWait(rest) => rest
    case BadLength(rest) => OuterLeftover(rest)
    case Packet(_, _, rest) => OuterLeftover(rest)
  }

  /** How many errors the loop meets on the way. */
  function Faults(buffer: seq<byte>): nat
    decreases |buffer|
  {
    match OuterDecode(buffer)
    case OuterWait(_) => 0
    case BadLength(rest) => 1 + Faults(rest)
    case Packet(channel, _, rest) => (if Known(channel) then 0 else 1) + Faults(rest)
  }

  lemma {:induction false} DataExtend(buffer: seq<byte>, more: seq<byte>)
    ensures DataOf(buffer + more) == DataOf(buffer) + DataOf(OuterLeftover(buffer) + more)
    ensures OuterLeftover(buffer + more) == OuterLeftover(OuterLeftover(buffer) + more)
    ensures Faults(buffer + more) == Faults(buffer) + Faults(OuterLeftover(buffer) + more)
    decreases |buffer|
  {
    hide OuterDecode;
    match OuterDecode(buffer) {
      case OuterWait(rest) => OuterWaitDrops(buffer, more);
      case BadLength(rest) =>
        OuterRoundExtend(buffer, more);
        DataExtend(rest, more);
      case Packet(channel, payload, rest) =>
        OuterRoundExtend(buffer, more);
        DataExtend(rest, more);
        var mine := if channel == CHANNEL_DATA then payload else [];
        assert mine + (DataOf(rest) + DataOf(OuterLeftover(rest) + more)) ==
          mine + DataOf(rest) + DataOf(OuterLeftover(rest) + more);
    }
  }

  function Count(d: OuterDrained): nat
  {
    if d.error.Some? then 1 else 0
  }

  predicate OuterSettled(buffer: seq<byte>)
  {
    OuterDecode(buffer) == OuterWait(buffer)
  }

  lemma {:induction false} OuterDrainData(buffer: seq<byte>)
    ensures var d := OuterDrain(buffer);
      && DataOf(buffer) == d.data + DataOf(d.rest) && OuterLeftover(buffer) == OuterLeftover(d.rest)
      && Faults(buffer) == Count(d) + Faults(d.rest) && (d.error.None? ==> OuterSettled(d.rest))
    decreases |buffer|
  {
    hide OuterDecode;
    match OuterDecode(buffer) {
      case OuterWait(rest) =>
        OuterWaitDrops(buffer, []);
        assert buffer + [] == buffer && rest + [] == rest;
      case BadLength(rest) =>
      case Packet(channel, payload, rest) =>
        OuterDrainData(rest);
        var d := OuterDrain(rest);
        assert payload + (d.data + DataOf(d.rest)) == payload + d.data + DataOf(d.rest);
    }
  }

  /** One arrival moves payload bytes from the pending wire to the data buffer, in order. */
  lemma ArrivalConserves(buffer: seq<byte>, chunk: seq<byte>, tail: seq<byte>)
    ensures var d := OuterDrain(buffer + chunk);
      && DataOf(buffer + chunk + tail) == d.data + DataOf(d.rest + tail)
      && OuterLeftover(buffer + chunk + tail) == OuterLeftover(d.rest + tail)
      && Faults(buffer + chunk + tail) == Count(d) + Faults(d.rest + tail)
  {
    hide OuterDrain, DataOf, OuterLeftover, Faults;
    var first := buffer + chunk;
    var d := OuterDrain(first);
    DataExtend(first, tail);
    DataExtend(d.rest, tail);
    OuterDrainData(first);
    assert d.data + (DataOf(d.rest) + DataOf(OuterLeftover(d.rest) + tail))
        == d.data + DataOf(d.rest) + DataOf(OuterLeftover(d.rest) + tail);
  }

  // ---- The whole receiving pipeline under any schedule of arrivals and reads

  datatype Op = Arrive(bytes: seq<byte>) | Take(size: nat)

  /**
   Outer buffer, data buffer, frame buffer, frame events decoded, frames handed to the reader (none
   from a decoder call that raised), and arrivals that raised.
   */
  datatype Pipe = Pipe(
    outer: seq<byte>, data: seq<byte>, inner: seq<byte>,
    events: seq<Frames.Event>, handed: seq<Protocol.Frame>, faults: nat)

  const EMPTY_PIPE := Pipe([], [], [], [], [], 0)

  /** The decoder is fed what a read brought; an empty read is skipped. */
  function FeedReader(p: Pipe, bytes: seq<byte>): Pipe
  {
    if bytes == [] then p
    else
      var d := Protocol.Drain(p.inner + bytes);
      p.(inner := d.rest, events := p.events + Frames.FeedEvents(d),
         handed := p.handed + if d.error.Some? then [] else d.frames)
  }

  function Act(p: Pipe, op: Op): Pipe
  {
    match op
    case Arrive(bytes) =>
      var d := OuterDrain(p.outer + bytes);
      p.(outer := d.rest, data := p.data + d.data, faults := p.faults + Count(d))
    case Take(size) =>
      var n := if |p.data| <= size then |p.data| else size;
      FeedReader(p.(data := p.data[n..]), p.data[..n])
  }

  function Run(p: Pipe, ops: seq<Op>): Pipe
    decreases |ops|
  {
    if ops == [] then p else Run(Act(p, ops[0]), ops[1..])
  }

  function Arrivals(ops: seq<Op>): seq<byte>
    decreases |ops|
  {
    if ops == [] then []
    else Arrived(ops[0]) + Arrivals(ops[1..])
  }

  /** The events decoded followed by those that the bytes in flight still stand for, and what will remain. */
  function Total(p: Pipe, coming: seq<byte>): Frames.Life
  {
    var waiting := p.inner + (p.data + DataOf(p.outer + coming));
    Frames.Life(p.events + Frames.Events(waiting), Frames.Leftover(waiting))
  }

  function Arrived(op: Op): seq<byte>
  {
    match op
    case Arrive(bytes) => bytes
    case Take(_) => []
  }

  lemma ArriveConserves(p: Pipe, bytes: seq<byte>, coming: seq<byte>)
    ensures Total(Act(p, Arrive(bytes)), coming) == Total(p, bytes + coming)
  {
    hide DataOf, OuterDrain, OuterLeftover, Frames.Events, Frames.Leftover, Count, Faults;
    ArrivalConserves(p.outer, bytes, coming);
    var d := OuterDrain(p.outer + bytes);
    assert p.outer + (bytes + coming) == p.outer + bytes + coming;
    assert p.data + (d.data + DataOf(d.rest + coming)) == p.data + d.data + DataOf(d.rest + coming);
  }

  lemma CutAt(a: seq<byte>, b: seq<byte>, n: nat, c: seq<byte>)
    requires n <= |b|
    ensures a + (b + c) == a + b[..n] + (b[n..] + c)
  {
    assert b == b[..n] + b[n..];
  }

  lemma TakeConserves(p: Pipe, size: nat, coming: seq<byte>)
    ensures Total(Act(p, Take(size)), coming) == Total(p, coming)
  {
    hide DataOf, Protocol.Drain, Frames.Events, Frames.FeedEvents, Frames.Leftover;
    var n := if |p.data| <= size then |p.data| else size;
    var pending := DataOf(p.outer + coming);
    var tail := p.data[n..] + pending;
    var d := Protocol.Drain(p.inner + p.data[..n]);
    Frames.FeedConserves(p.inner, p.data[..n], tail);
    CutAt(p.inner, p.data, n, pending);
    assert p.data[..n] == [] ==> p.data[n..] == p.data;
    assert p.events + (Frames.FeedEvents(d) + Frames.Events(d.rest + tail))
        == p.events + Frames.FeedEvents(d) + Frames.Events(d.rest + tail);
  }

  lemma ActConserves(p: Pipe, op: Op, coming: seq<byte>)
    ensures Total(Act(p, op), coming) == Total(p, Arrived(op) + coming)
  {
    hide Total, Act;
    match op {
      case Arrive(bytes) => ArriveConserves(p, bytes, coming);
      case Take(size) =>
        TakeConserves(p, size, coming);
        assert [] + coming == coming;
    }
  }

  /**
   For any bytes at all and any schedule of arrivals and reads, errors included, no event is lost,
   duplicated or reordered on the way to being decoded: what was decoded and what is still in flight
   is always the same total. Which decoded frames also reach the reader is another matter when the
   decoder raises; when it never does, all of them do.
   */
  lemma {:induction false} PipelineConserves(p: Pipe, ops: seq<Op>, coming: seq<byte>)
    ensures Total(Run(p, ops), coming) == Total(p, Arrivals(ops) + coming)
    decreases |ops|
  {
    hide Total, Act;
    if ops == [] {
      assert [] + coming == coming;
    } else {
      var tail := Arrivals(ops[1..]) + coming;
      PipelineConserves(Act(p, ops[0]), ops[1..], coming);
      ActConserves(p, ops[0], tail);
      assert Arrivals(ops) + coming == Arrived(ops[0]) + tail;
    }
  }

  lemma ActFaults(p: Pipe, op: Op, coming: seq<byte>)
    ensures var q, before := Act(p, op), p.outer + (Arrived(op) + coming);
      q.faults + Faults(q.outer + coming) == p.faults + Faults(before) &&
      OuterLeftover(q.outer + coming) == OuterLeftover(before)
  {
    hide OuterLeftover, OuterDrain, Faults, Protocol.Drain, DataOf, Count;
    match op {
      case Arrive(bytes) =>
        ArrivalConserves(p.outer, bytes, coming);
        assert p.outer + (bytes + coming) == p.outer + bytes + coming;
      case Take(_) =>
        assert [] + coming == coming;
    }
  }

  lemma {:induction false} FaultsOfRun(p: Pipe, ops: seq<Op>, coming: seq<byte>)
    ensures var q, before := Run(p, ops), p.outer + (Arrivals(ops) + coming);
      q.faults + Faults(q.outer + coming) == p.faults + Faults(before) &&
      OuterLeftover(q.outer + coming) == OuterLeftover(before)
    decreases |ops|
  {
    hide OuterLeftover, Faults, Act;
    if ops == [] {
      assert [] + coming == coming;
    } else {
      var tail := Arrivals(ops[1..]) + coming;
      FaultsOfRun(Act(p, ops[0]), ops[1..], coming);
      ActFaults(p, ops[0], tail);
      assert Arrivals(ops) + coming == Arrived(ops[0]) + tail;
    }
  }

  /** Without errors, buffers hold no complete unit, and every frame decoded was handed over. */
  predicate Quiet(p: Pipe)
  {
    && (p.faults == 0 ==> OuterSettled(p.outer))
    && (Frames.AllGood(p.events) ==> Frames.Settled(p.inner) && Frames.Goods(p.handed) == p.events)
  }

  lemma ActQuiet(p: Pipe, op: Op)
    requires Quiet(p)
    ensures Quiet(Act(p, op))
  {
    hide OuterDrain, Protocol.Drain, OuterSettled, Frames.Settled, Frames.FeedEvents;
    match op {
      case Arrive(bytes) => OuterDrainData(p.outer + bytes);
      case Take(size) =>
        var n := if |p.data| <= size then |p.data| else size;
        FeedReaderQuiet(p.(data := p.data[n..]), p.data[..n]);
    }
  }

  lemma FeedReaderQuiet(p: Pipe, bytes: seq<byte>)
    requires Quiet(p)
    ensures Quiet(FeedReader(p, bytes))
  {
    hide Protocol.Drain, OuterSettled, Frames.Settled, Frames.Goods;
    var d := Protocol.Drain(p.inner + bytes);
    Frames.DrainEvents(p.inner + bytes);
    if bytes != [] && Frames.AllGood(p.events + Frames.FeedEvents(d)) {
      GoodTail(p.events, Frames.FeedEvents(d));
      GoodHead(p.events, Frames.FeedEvents(d));
      assert Frames.FeedEvents(d) + [] == Frames.FeedEvents(d);
      Frames.FeedGood(d, []);
      GoodsConcat(p.handed, d.frames);
      assert Frames.FeedEvents(d) == Frames.Goods(d.frames);
    }
  }

  lemma {:induction false} GoodsConcat(a: seq<Protocol.Frame>, b: seq<Protocol.Frame>)
    ensures Frames.Goods(a + b) == Frames.Goods(a) + Frames.Goods(b)
    decreases |a|
  {
    if a == [] {
      assert a + b == b;
    } else {
      assert (a + b)[1..] == a[1..] + b;
      GoodsConcat(a[1..], b);
    }
  }

  lemma GoodTail(a: seq<Frames.Event>, b: seq<Frames.Event>)
    requires Frames.AllGood(a + b)
    ensures Frames.AllGood(b)
  {
    forall e | e in b
      ensures e.Good?
    {
      assert e in a + b;
    }
  }

  lemma {:induction false} RunQuiet(p: Pipe, ops: seq<Op>)
    requires Quiet(p)
    ensures Quiet(Run(p, ops))
    decreases |ops|
  {
    hide Quiet, Act;
    if ops != [] {
      ActQuiet(p, ops[0]);
      RunQuiet(Act(p, ops[0]), ops[1..]);
    }
  }

  // ---- Well-formed wires

  /** What the device sends: data pieces, and command or status packets between them. */
  datatype Item = Item(channel: byte, payload: seq<byte>)

  predicate WellFormed(items: seq<Item>)
  {
    forall i | i in items :: Known(i.channel) && |i.payload| <= MAX_OUTER_PAYLOAD
  }

  function Wire(items: seq<Item>): seq<byte>
  {
    if items == [] then [] else Wrap(items[0].channel, items[0].payload) + Wire(items[1..])
  }

  function Payloads(items: seq<Item>): seq<byte>
  {
    if items == [] then []
    else (if items[0].channel == CHANNEL_DATA then items[0].payload else []) + Payloads(items[1..])
  }

  lemma WrapDecodes(channel: byte, payload: seq<byte>, t: seq<byte>)
    requires |payload| <= MAX_OUTER_PAYLOAD
    ensures OuterDecode(Wrap(channel, payload) + t) == Packet(channel, payload, t)
  {
    var b := Wrap(channel, payload) + t;
    StartsAt(b, SYNC);
    Read16Write16(|payload|);
    assert b[0..] == b;
    assert b[3] == Write16(|payload|)[0] && b[4] == Write16(|payload|)[1];
    assert b[5..5 + |payload|] == payload && b[5 + |payload|..] == t;
    hide Find, At, Write16;
  }

  lemma {:induction false} WireDecodes(items: seq<Item>)
    requires WellFormed(items)
    ensures DataOf(Wire(items)) == Payloads(items) && OuterLeftover(Wire(items)) == [] && Faults(Wire(items)) == 0
    decreases |items|
  {
    hide Wrap;
    if items == [] {
      FindNone([], SYNC);
    } else {
      WrapDecodes(items[0].channel, items[0].payload, Wire(items[1..]));
      WireDecodes(items[1..]);
    }
  }

  // ---- Behind an error

  /**
   A packet whose header was damaged costs no more than its sync mark: whatever noise without a mark
   stands where the header should be, a packet behind it is decoded by the next arrival.
   */
  lemma BehindDamagedHeader(noise: seq<byte>, channel: byte, payload: seq<byte>, t: seq<byte>)
    requires Find(noise, SYNC) < 0 && |payload| <= MAX_OUTER_PAYLOAD
    requires OuterDecode(SYNC + (noise + (Wrap(channel, payload) + t))).BadLength?
    ensures var tail := noise + (Wrap(channel, payload) + t);
      && OuterDrain(SYNC + tail) == OuterDrained([], tail, Some(InvalidLength))
      && OuterDecode(tail) == Packet(channel, payload, t)
  {
    hide Wrap, Find, At;
    var packet := Wrap(channel, payload) + t;
    var tail := noise + packet;
    StartsAt(SYNC + tail, SYNC);
    assert (SYNC + tail)[0..] == SYNC + tail && (SYNC + tail)[2..] == tail;
    SyncBorderless();
    WrapStarts(channel, payload, t);
    FindAfterNoise(noise, packet, SYNC);
    assert tail[|noise|..] == packet && packet[0..] == packet;
    WrapDecodes(channel, payload, t);
    StartsAt(packet, SYNC);
  }

  lemma SyncBorderless()
    ensures Borderless(SYNC)
  {
    assert SYNC[1..][0] != SYNC[..1][0];
  }

  lemma WrapStarts(channel: byte, payload: seq<byte>, t: seq<byte>)
    ensures SYNC <= Wrap(channel, payload) + t
  {}

  /** The smallest case: a lone sync mark before a packet reads the packet's own mark as a length. */
  lemma DoubledMark(channel: byte, payload: seq<byte>, t: seq<byte>)
    requires |payload| <= MAX_OUTER_PAYLOAD
    ensures var packet := Wrap(channel, payload) + t;
      && OuterDrain(SYNC + packet) == OuterDrained([], packet, Some(InvalidLength))
      && OuterDecode(packet) == Packet(channel, payload, t)
  {
    var packet := Wrap(channel, payload) + t;
    var b := SYNC + packet;
    StartsAt(b, SYNC);
    FindNone([], SYNC);
    assert b[0..] == b && [] + packet == packet;
    assert b[2] == 0x47 && b[3] == 0x42 && b[4] == channel;
    hide Wrap, Find, At;
    assert Read16(b, 3) >= 0x42;
    BehindDamagedHeader([], channel, payload, t);
  }

  /** A packet of an unknown channel raises, and the loop goes on right behind it. */
  lemma UnknownChannelRaises(channel: byte, payload: seq<byte>, t: seq<byte>)
    requires channel > 2 && |payload| <= MAX_OUTER_PAYLOAD
    ensures OuterDrain(Wrap(channel, payload) + t) == OuterDrained([], t, Some(UnknownChannel))
  {
    WrapDecodes(channel, payload, t);
    hide OuterDecode, Wrap;
  }

  /**
   Three layers: any frames, encoded, cut and wrapped in data packets with any command and status
   packets between them, arriving in any pieces and read in any sizes, come back in order. At every
   moment the frames handed over are a prefix of those frames, and neither layer ever raises; once
   everything has arrived and been read, they are exactly those frames and all buffers are empty.
   */
  lemma ThreeLayers(fs: seq<Protocol.Frame>, items: seq<Item>, ops: seq<Op>, coming: seq<byte>)
    requires WellFormed(items) && Payloads(items) == Protocol.EncodeAll(fs)
    requires Arrivals(ops) + coming == Wire(items)
    ensures var p := Run(EMPTY_PIPE, ops);
      && p.handed <= fs && p.events == Frames.Goods(p.handed) && p.faults == 0
      && (coming == [] && p.data == [] ==> p == Pipe([], [], [], Frames.Goods(fs), fs, 0))
  {
    hide DataOf, OuterLeftover, Faults, Frames.Events, Frames.Leftover, Run, Frames.Settled, OuterSettled;
    hide Frames.Goods, Frames.AllGood, Protocol.EncodeAll;
    var p := Run(EMPTY_PIPE, ops);
    var stream, wire := Protocol.EncodeAll(fs), Wire(items);
    PipelineConserves(EMPTY_PIPE, ops, coming);
    FaultsOfRun(EMPTY_PIPE, ops, coming);
    WireDecodes(items);
    assert [] + ([] + stream) == stream && [] + (Arrivals(ops) + coming) == wire;
    Frames.CleanStream(fs);
    var waiting := p.inner + (p.data + DataOf(p.outer + coming));
    assert Total(p, coming) == Frames.Life(Frames.Goods(fs), []);
    EmptyQuiet();
    RunQuiet(EMPTY_PIPE, ops);
    Frames.GoodsAll(fs);
    GoodHead(p.events, Frames.Events(waiting));
    Frames.GoodsSplit(fs, p.handed, Frames.Events(waiting));
    if coming == [] && p.data == [] {
      assert p.outer + coming == p.outer;
      OuterSettledEmpty(p.outer);
      assert waiting == p.inner;
      Frames.SettledEvents(p.inner);
      assert p.events + [] == p.events;
      Frames.GoodsInjective(fs, p.handed);
    }
  }

  lemma GoodHead(a: seq<Frames.Event>, b: seq<Frames.Event>)
    requires Frames.AllGood(a + b)
    ensures Frames.AllGood(a)
  {
    forall e | e in a
      ensures e.Good?
    {
      assert e in a + b;
    }
  }

  lemma EmptyQuiet()
    ensures Quiet(EMPTY_PIPE)
  {
    Frames.EmptySettled();
    FindNone([], SYNC);
  }

  lemma OuterSettledEmpty(outer: seq<byte>)
    requires OuterSettled(outer)
    ensures OuterLeftover(outer) == outer && DataOf(outer) == []
  {}

  // ---- The wire that `write` produces

  /** Data packets with these payloads. */
  function Pieces(chunks: seq<seq<byte>>): seq<Item>
  {
    if chunks == [] then [] else [Item(CHANNEL_DATA, chunks[0])] + Pieces(chunks[1..])
  }

  /** One `write` per encoded frame. */
  function Written(fs: seq<Protocol.Frame>): seq<Item>
  {
    if fs == [] then [] else Pieces(Split(Protocol.Encode(fs[0]))) + Written(fs[1..])
  }

  /** The same packets without command and status packets. */
  function DataOnly(items: seq<Item>): seq<Item>
  {
    if items == [] then []
    else (if items[0].channel == CHANNEL_DATA then [items[0]] else []) + DataOnly(items[1..])
  }

  lemma {:induction false} PiecesWire(chunks: seq<seq<byte>>)
    requires forall c | c in chunks :: |c| <= MAX_OUTER_PAYLOAD
    ensures Wire(Pieces(chunks)) == WrapAll(chunks) && Payloads(Pieces(chunks)) == Flatten(chunks)
    ensures WellFormed(Pieces(chunks))
    decreases |chunks|
  {
    hide Wrap;
    if chunks != [] {
      PiecesWire(chunks[1..]);
      assert Pieces(chunks)[1..] == Pieces(chunks[1..]);
    }
  }

  lemma PayloadsCons(x: Item, t: seq<Item>)
    ensures Payloads([x] + t) == (if x.channel == CHANNEL_DATA then x.payload else []) + Payloads(t)
  {
    assert ([x] + t)[1..] == t;
  }

  lemma {:induction false} PayloadsAppend(a: seq<Item>, b: seq<Item>)
    ensures Payloads(a + b) == Payloads(a) + Payloads(b)
    decreases |a|
  {
    hide *;
    if a == [] {
      assert a + b == b;
      NoPayloads();
    } else {
      PayloadsAppend(a[1..], b);
      assert a == [a[0]] + a[1..] && a + b == [a[0]] + (a[1..] + b);
      PayloadsCons(a[0], a[1..]);
      PayloadsCons(a[0], a[1..] + b);
      assert forall x: seq<byte>, y: seq<byte>, z: seq<byte> :: x + (y + z) == x + y + z;
    }
  }

  lemma {:induction false} WrittenPayloads(fs: seq<Protocol.Frame>)
    ensures Payloads(Written(fs)) == Protocol.EncodeAll(fs)
    decreases |fs|
  {
    hide Protocol.Encode, Split, Payloads, Pieces;
    if fs == [] {
      NoPayloads();
    } else {
      var data := Protocol.Encode(fs[0]);
      WrittenPayloads(fs[1..]);
      PiecesWire(Split(data));
      SplitFlattens(data);
      PayloadsAppend(Pieces(Split(data)), Written(fs[1..]));
    }
  }

  lemma NoPayloads()
    ensures Payloads([]) == []
  {}

  lemma {:induction false} PayloadsOfData(items: seq<Item>)
    ensures Payloads(DataOnly(items)) == Payloads(items)
    decreases |items|
  {
    if items != [] {
      PayloadsOfData(items[1..]);
      PayloadsCons(items[0], DataOnly(items[1..]));
      var empty: seq<byte> := [];
      assert empty + Payloads(items[1..]) == Payloads(items[1..]);
      assert [] + DataOnly(items[1..]) == DataOnly(items[1..]);
    }
  }

  /**
   What one side writes, frame by frame, is what the other side's decoder returns: whatever command and
   status packets come between the pieces, however the bytes are cut on arrival and by the reads.
   */
  lemma WriteReadRoundTrip(fs: seq<Protocol.Frame>, items: seq<Item>, ops: seq<Op>)
    requires WellFormed(items) && DataOnly(items) == Written(fs) && Arrivals(ops) == Wire(items)
    requires Run(EMPTY_PIPE, ops).data == []
    ensures Run(EMPTY_PIPE, ops) == Pipe([], [], [], Frames.Goods(fs), fs, 0)
  {
    hide *;
    PayloadsOfData(items);
    WrittenPayloads(fs);
    assert Arrivals(ops) + [] == Wire(items);
    ThreeLayers(fs, items, ops, []);
  }
}
