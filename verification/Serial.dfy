/** The outer packet layer of the host transport (broker/gba/serial.py). */
module Serial {
  import opened Bytes
  import opened Search

  /** ASCII "GB". */
  const SYNC: seq<byte> := [0x47, 0x42]
  const CHANNEL_COMMAND: byte := 0
  const CHANNEL_DATA: byte := 1
  const CHANNEL_STATUS: byte := 2
  const MAX_OUTER_PAYLOAD: nat := 64

  datatype OuterError = InvalidLength | UnknownChannel | ShortWrite | TooLong

  // ---- Writing

  function Wrap(channel: byte, payload: seq<byte>): (r: seq<byte>)
    ensures |r| == 5 + |payload|
  {
    SYNC + [channel] + Write16(|payload|) + payload
  }

  /** The pieces `write` cuts its data into. */
  function Split(data: seq<byte>): (r: seq<seq<byte>>)
    ensures forall c | c in r :: 0 < |c| <= MAX_OUTER_PAYLOAD
  {
    if |data| <= MAX_OUTER_PAYLOAD then (if data == [] then [] else [data])
    else [data[..MAX_OUTER_PAYLOAD]] + Split(data[MAX_OUTER_PAYLOAD..])
  }

  lemma {:induction false} SplitFlattens(data: seq<byte>)
    ensures Flatten(Split(data)) == data
    decreases |data|
  {
    if |data| > MAX_OUTER_PAYLOAD {
      SplitFlattens(data[MAX_OUTER_PAYLOAD..]);
      assert Split(data)[1..] == Split(data[MAX_OUTER_PAYLOAD..]);
      assert data == data[..MAX_OUTER_PAYLOAD] + data[MAX_OUTER_PAYLOAD..];
    } else if data != [] {
      assert Flatten([data]) == data + Flatten([data][1..]);
    }
  }

  /** Every piece but the last is full, and the last is not empty. */
  lemma {:induction false} SplitFull(data: seq<byte>)
    ensures var r := Split(data);
      && (data == [] <==> r == [])
      && forall i | 0 <= i < |r| :: |r[i]| == if i < |r| - 1 then 64 else |data| - 64 * (|r| - 1)
    decreases |data|
  {
    if |data| > MAX_OUTER_PAYLOAD {
      SplitFull(data[MAX_OUTER_PAYLOAD..]);
    }
  }

  function WrapAll(chunks: seq<seq<byte>>): seq<byte>
  {
    if chunks == [] then [] else Wrap(CHANNEL_DATA, chunks[0]) + WrapAll(chunks[1..])
  }

  // ---- Reading

  datatype OuterRound =
    | OuterWait(rest: seq<byte>)
    | Packet(channel: byte, payload: seq<byte>, rest: seq<byte>)
    | BadLength(rest: seq<byte>)

  /** The possible first half of a sync mark at the end of a buffer. */
  function SyncStart(buffer: seq<byte>): (r: seq<byte>)
    ensures |r| <= 1 && |r| <= |buffer| && r == buffer[|buffer| - |r|..]
  {
    if buffer != [] && buffer[|buffer| - 1] == SYNC[0] then [SYNC[0]] else []
  }

  function OuterDecode(buffer: seq<byte>): (r: OuterRound)
    ensures !r.OuterWait? ==> |r.rest| < |buffer|
    ensures r.OuterWait? ==> |r.rest| < 5 + MAX_OUTER_PAYLOAD
  {
    var at := Find(buffer, SYNC);
    if at < 0 then OuterWait(SyncStart(buffer)) else OuterAligned(buffer[at..])
  }

  function OuterAligned(b: seq<byte>): (r: OuterRound)
    requires SYNC <= b
    ensures !r.OuterWait? ==> |r.rest| < |b|
    ensures r.OuterWait? ==> r.rest == b && |b| < 5 + MAX_OUTER_PAYLOAD
  {
    if |b| < 5 then OuterWait(b)
    else
      var length := Read16(b, 3);
      if length > MAX_OUTER_PAYLOAD then BadLength(b[2..])
      else if |b| < 5 + length then OuterWait(b)
      else Packet(b[2], b[5..5 + length], b[5 + length..])
  }

  predicate Known(channel: byte)
  {
    channel == CHANNEL_COMMAND || channel == CHANNEL_DATA || channel == CHANNEL_STATUS
  }

  /** One `_feed_outer`: the payload bytes it appends, the buffer it leaves, and how it ends. */
  datatype OuterDrained = OuterDrained(data: seq<byte>, rest: seq<byte>, error: Option<OuterError>)

  function OuterOnward(data: seq<byte>, d: OuterDrained): OuterDrained
  {
    d.(data := data + d.data)
  }

  function OuterDrain(buffer: seq<byte>): OuterDrained
    decreases |buffer|
  {
    match OuterDecode(buffer)
    case OuterWait(rest) => OuterDrained([], rest, None)
    case BadLength(rest) => OuterDrained([], rest, Some(InvalidLength))
    case Packet(channel, payload, rest) =>
      if channel == CHANNEL_DATA then OuterOnward(payload, OuterDrain(rest))
      else if Known(channel) then OuterDrain(rest)
      else OuterDrained([], rest, Some(UnknownChannel))
  }

  lemma OuterOnwardTwice(a: seq<byte>, b: seq<byte>, d: OuterDrained)
    ensures OuterOnward(a, OuterOnward(b, d)) == OuterOnward(a + b, d)
  {
    assert a + (b + d.data) == a + b + d.data;
  }

  lemma OuterOnwardEmpty(d: OuterDrained)
    ensures OuterOnward([], d) == d
  {}

  lemma OuterOnwardNone(a: seq<byte>, rest: seq<byte>, error: Option<OuterError>)
    ensures OuterOnward(a, OuterDrained([], rest, error)) == OuterDrained(a, rest, error)
  {
    assert a + [] == a;
  }

  /** `wire` is what the device has taken so far; `takes` says how much of each write it takes. */
  class SerialTransport {
    var outerBuffer: seq<byte>
    var dataBuffer: seq<byte>
    var wire: seq<byte>
    var writes: nat
    const takes: (nat, nat) -> nat

    constructor (takes: (nat, nat) -> nat)
      ensures outerBuffer == dataBuffer == wire == [] && writes == 0 && this.takes == takes
    {
      outerBuffer, dataBuffer, wire, writes := [], [], [], 0;
      this.takes := takes;
    }

    method WriteOuter(channel: byte, payload: seq<byte>) returns (error: Option<OuterError>)
      modifies this`wire, this`writes
      ensures error == None ==> |payload| <= MAX_OUTER_PAYLOAD && wire == old(wire) + Wrap(channel, payload)
      ensures old(wire) <= wire <= old(wire) + Wrap(channel, payload)
      ensures error == Some(TooLong) <==> |payload| > MAX_OUTER_PAYLOAD
      ensures error == Some(TooLong) ==> wire == old(wire) && writes == old(writes)
      ensures |payload| <= MAX_OUTER_PAYLOAD ==> writes == old(writes) + 1
      ensures |payload| <= MAX_OUTER_PAYLOAD ==>
        error == if takes(old(writes), 5 + |payload|) == 5 + |payload| then None else Some(ShortWrite)
    {
      if |payload| > MAX_OUTER_PAYLOAD {
        return Some(TooLong);
      }
      var frame := Wrap(channel, payload);
      var written := takes(writes, |frame|);
      wire, writes := wire + frame[..if written <= |frame| then written else |frame|], writes + 1;
      return if written != |frame| then Some(ShortWrite) else None;
    }

    method Write(data: seq<byte>) returns (error: Option<OuterError>)
      modifies this`wire, this`writes
      ensures error == None ==> wire == old(wire) + WrapAll(Split(data))
      ensures old(wire) <= wire <= old(wire) + WrapAll(Split(data))
      ensures error == None || error == Some(ShortWrite)
      ensures (forall k, n :: takes(k, n) == n) ==> error == None
    {
      hide Wrap, WrapAll, Split;
      var offset := 0;
      ghost var sent: seq<byte> := [];
      assert data[0..] == data;
      while offset < |data|
        invariant 0 <= offset <= |data|
        invariant WrapAll(Split(data)) == sent + WrapAll(Split(data[offset..]))
        invariant wire == old(wire) + sent
      {
        var count := if offset + MAX_OUTER_PAYLOAD <= |data| then MAX_OUTER_PAYLOAD else |data| - offset;
        ghost var packet := Wrap(CHANNEL_DATA, data[offset..offset + count]);
        ghost var later := WrapAll(Split(data[offset + count..]));
        SplitHead(data, offset, count);
        error := WriteOuter(CHANNEL_DATA, data[offset..offset + count]);
        PrefixWithin(old(wire), sent, packet, later, wire);
        if error != None {
          return;
        }
        sent := sent + packet;
        offset := offset + count;
      }
      assert data[offset..] == [];
      NothingToSend();
      assert sent + [] == sent;
      return None;
    }

    /** The loop body of `_feed_outer` up to a complete packet, deleting from the buffer in place. */
    method NextPacket() returns (round: OuterRound)
      modifies this`outerBuffer
      ensures round == OuterDecode(old(outerBuffer)) && outerBuffer == round.rest
    {
      hide Find, At, Read16;
      var syncAt := Find(outerBuffer, SYNC);
      if syncAt < 0 {
        if outerBuffer != [] && outerBuffer[|outerBuffer| - 1] == SYNC[0] {
          outerBuffer := outerBuffer[|outerBuffer| - 1..];
        } else {
          outerBuffer := [];
        }
        return OuterWait(outerBuffer);
      }
      FindAligns(outerBuffer, SYNC);
      outerBuffer := outerBuffer[syncAt..];
      if |outerBuffer| < 5 {
        return OuterWait(outerBuffer);
      }
      var channel, length := outerBuffer[2], Read16(outerBuffer, 3);
      if length > MAX_OUTER_PAYLOAD {
        outerBuffer := outerBuffer[2..];
        return BadLength(outerBuffer);
      }
      if |outerBuffer| < 5 + length {
        return OuterWait(outerBuffer);
      }
      var payload := outerBuffer[5..5 + length];
      outerBuffer := outerBuffer[5 + length..];
      return Packet(channel, payload, outerBuffer);
    }

    method FeedOuter(data: seq<byte>) returns (error: Option<OuterError>)
      modifies this`outerBuffer, this`dataBuffer
      ensures old(dataBuffer) <= dataBuffer
      ensures OuterDrain(old(outerBuffer) + data) == OuterDrained(dataBuffer[|old(dataBuffer)|..], outerBuffer, error)
    {
      hide OuterDecode, OuterOnward;
      outerBuffer := outerBuffer + data;
      ghost var whole := OuterDrain(outerBuffer);
      ghost var added: seq<byte> := [];
      OuterOnwardEmpty(whole);
      while true
        invariant dataBuffer == old(dataBuffer) + added
        invariant whole == OuterOnward(added, OuterDrain(outerBuffer))
        decreases |outerBuffer|
      {
        assert dataBuffer[|old(dataBuffer)|..] == added;
        var round := NextPacket();
        match round {
          case OuterWait(rest) =>
            OuterOnwardNone(added, rest, None);
            return None;
          case BadLength(rest) =>
            OuterOnwardNone(added, rest, Some(InvalidLength));
            return Some(InvalidLength);
          case Packet(channel, payload, rest) =>
            if channel == CHANNEL_DATA {
              OuterOnwardTwice(added, payload, OuterDrain(rest));
              dataBuffer := dataBuffer + payload;
              added := added + payload;
            } else if channel != CHANNEL_COMMAND && channel != CHANNEL_STATUS {
              OuterOnwardNone(added, rest, Some(UnknownChannel));
              return Some(UnknownChannel);
            }
        }
      }
    }

    /** The buffer part of `read`. */
    method Take(size: nat) returns (result: seq<byte>)
      modifies this`dataBuffer
      ensures result + dataBuffer == old(dataBuffer)
      ensures |result| == if |old(dataBuffer)| <= size then |old(dataBuffer)| else size
    {
      var count := if |dataBuffer| <= size then |dataBuffer| else size;
      result := dataBuffer[..count];
      dataBuffer := dataBuffer[count..];
    }
  }

  lemma SplitCons(data: seq<byte>, offset: nat, n: nat)
    requires offset < |data| && n == if offset + MAX_OUTER_PAYLOAD <= |data| then MAX_OUTER_PAYLOAD else |data| - offset
    ensures Split(data[offset..]) == [data[offset..offset + n]] + Split(data[offset + n..])
  {
    var d := data[offset..];
    assert d[..n] == data[offset..offset + n] && d[n..] == data[offset + n..];
    if |d| <= MAX_OUTER_PAYLOAD {
      assert d[..n] == d && d[n..] == [];
    }
  }

  lemma SplitNothing()
    ensures Split([]) == []
  {}

  lemma SplitHead(data: seq<byte>, offset: nat, n: nat)
    requires offset < |data| && n == if offset + MAX_OUTER_PAYLOAD <= |data| then MAX_OUTER_PAYLOAD else |data| - offset
    ensures WrapAll(Split(data[offset..])) ==
      Wrap(CHANNEL_DATA, data[offset..offset + n]) + WrapAll(Split(data[offset + n..]))
  {
    hide Wrap, Split;
    SplitCons(data, offset, n);
    var rest := Split(data[offset + n..]);
    assert ([data[offset..offset + n]] + rest)[1..] == rest;
  }

  lemma NothingToSend()
    ensures WrapAll(Split([])) == []
  {}

  lemma PrefixWithin(start: seq<byte>, sent: seq<byte>, packet: seq<byte>, later: seq<byte>, now: seq<byte>)
    requires now <= start + sent + packet
    ensures now <= start + (sent + (packet + later))
    ensures sent + (packet + later) == sent + packet + later
  {
    assert start + (sent + (packet + later)) == start + sent + packet + later;
  }
}
