/**
 What DATA, HEADERS and CONTINUATION frames do, from their fields as they are
 sent: pad length, priority, the part that is the stream's, and padding.
 */
module Http2InboundStreams {
  import opened Octets
  import opened Http2Inbound
  import opened Http2InboundFrames
  import opened Http2InboundControl
  import Send = Http2Send

  /** The fields of a frame for a stream (sections 6.1, 6.2 and 6.10 of RFC 7540). */
  datatype Fields = Fields(endStream: bool, endHeaders: bool, padding: Option<Bytes>, priority: Option<Bytes>,
                           body: Bytes)

  /** Padding and priority stand only where the kind of frame has them. */
  predicate FieldsOk(kind: int, f: Fields) {
    && (f.padding.Some? ==> |f.padding.value| < 256 && (kind == 0 || kind == 1))
    && (f.priority.Some? ==> |f.priority.value| == 5 && kind == 1)
  }

  function FlagsOf(f: Fields): Byte {
    (if f.endStream then 1 else 0) + (if f.endHeaders then 4 else 0) +
    (if f.padding.Some? then 8 else 0) + (if f.priority.Some? then 32 else 0)
  }

  function PayloadOf(f: Fields): Bytes
    requires f.padding.Some? ==> |f.padding.value| < 256
  {
    (if f.padding.Some? then [|f.padding.value|] else []) + (if f.priority.Some? then f.priority.value else []) +
    f.body + (if f.padding.Some? then f.padding.value else [])
  }

  function HeaderOf(kind: Byte, stream: nat, f: Fields): FrameHeader
    requires f.padding.Some? ==> |f.padding.value| < 256
  {
    FrameHeader(|PayloadOf(f)|, kind, FlagsOf(f), stream)
  }

  lemma FlagsRead(h: FrameHeader, f: Fields)
    requires h.flags == FlagsOf(f)
    ensures IsEndStream(h) <==> f.endStream
    ensures IsEndHeaders(h) <==> f.endHeaders
    ensures Bit(h, 8) <==> f.padding.Some?
    ensures Bit(h, 32) <==> f.priority.Some?
  {
  }

  /** What the stream gets of the payload is the body. */
  lemma BodyRead(kind: Byte, stream: nat, f: Fields)
    requires FieldsOk(kind, f) && (kind == 0 || kind == 1 || kind == 9)
    ensures var h, payload := HeaderOf(kind, stream, f), PayloadOf(f);
            && Prefix(h) + PadIn(h, payload) <= |payload| && Body(h, payload) == f.body
            && |payload| - PadIn(h, payload) - Prefix(h) == |f.body|
  {
    hide Bit, FlagsOf;
    var h, payload := HeaderOf(kind, stream, f), PayloadOf(f);
    FlagsRead(h, f);
    var pad := if f.padding.Some? then |f.padding.value| else 0;
    var n := (if f.padding.Some? then 1 else 0) + (if f.priority.Some? then 5 else 0);
    assert |payload| == n + |f.body| + pad && payload[n..|payload| - pad] == f.body;
    if f.padding.Some? { assert payload[0] == pad; }
  }

  /** The bytes of DATA, each with its offset. */
  function DataEvents(stream: nat, body: Bytes): seq<Event> {
    seq(|body|, i requires 0 <= i < |body| => Data(stream, i, body[i]))
  }

  /** The bytes of a header block from offset `at` on. */
  function FragmentEvents(stream: nat, at: nat, body: Bytes): seq<Event> {
    seq(|body|, i requires 0 <= i < |body| => Fragment(stream, at + i, body[i]))
  }

  lemma {:induction false} RangeIs(h: FrameHeader, side: Side, at: nat, bytes: Bytes)
    ensures |RangeEvents(h, side, at, bytes)| == |bytes|
    ensures forall i :: 0 <= i < |bytes| ==>
              RangeEvents(h, side, at, bytes)[i] ==
              if h.kind == DATA then Data(h.stream, at + i, bytes[i])
              else Fragment(h.stream, side.blockBytes + at + i, bytes[i])
    decreases |bytes|
  {
    if bytes != [] { RangeIs(h, side, at + 1, bytes[1..]); }
  }

  lemma RangeIsData(h: FrameHeader, side: Side, body: Bytes)
    requires h.kind == DATA
    ensures RangeEvents(h, side, 0, body) == DataEvents(h.stream, body)
  {
    hide RangeEvents;
    RangeIs(h, side, 0, body);
  }

  lemma {:induction false} FragmentAt(stream: nat, at: nat, bytes: Bytes)
    ensures |Fragments(stream, at, bytes)| == |bytes|
    ensures forall i :: 0 <= i < |bytes| ==> Fragments(stream, at, bytes)[i] == Fragment(stream, at + i, bytes[i])
    decreases |bytes|
  {
    if bytes != [] {
      var more := Fragments(stream, at + 1, bytes[1..]);
      FragmentAt(stream, at + 1, bytes[1..]);
      forall i | 0 < i < |bytes| ensures more[i - 1] == Fragment(stream, at + i, bytes[i]) {
        assert bytes[1..][i - 1] == bytes[i];
      }
    }
  }

  lemma FragmentsAre(stream: nat, at: nat, bytes: Bytes)
    ensures Fragments(stream, at, bytes) == FragmentEvents(stream, at, bytes)
  {
    hide Fragments;
    FragmentAt(stream, at, bytes);
  }

  // ---------------------------------------------------------------- DATA

  /**
   DATA: outside a header block and for a stream of the table; an open or half-closed (local) stream gets its bytes
   and its end, any other is closed with a stream error. A frame with neither body nor end does nothing.
   */
  lemma DataFromFields(stream: nat, f: Fields, side: Side, events: seq<Event>, env: Env)
    requires FieldsOk(0, f) && Sendable(HeaderOf(0, stream, f), PayloadOf(f), env)
    ensures var h := HeaderOf(0, stream, f); var seen := events + [Frame(h)];
            var r := EatAll(Conn(Header, [], side, events), Wire(h, PayloadOf(f)), env);
            if side.expecting || stream == 0 || stream !in side.streams then r == Stopped(seen)
            else if f.body == [] && !f.endStream then r == Conn(Header, [], side, seen)
            else if !(side.streams[stream].state.Open? || side.streams[stream].state.HalfClosedLocal?) then
              && r.Conn? && r == Conn(Header, [], r.side, seen + [StreamError(stream)])
              && IsClosed(side, r.side, stream) && OnlyChanges(side, r.side, stream)
            else
              && r.Conn? && HasTaken(side, r.side, stream, f.endStream)
              && r == Conn(Header, [], r.side,
                           seen + DataEvents(stream, f.body) + (if f.endStream then [DataEnd(stream)] else []))
  {
    hide EatAll, Wire, RangeEvents, DataEvents, Bit, FlagsOf, PayloadOf, Body, PadIn, Prefix, IsClosed, OnlyChanges,
         HasTaken, Received, Failed;
    var h, payload := HeaderOf(0, stream, f), PayloadOf(f);
    DataFrame(h, payload, side, events, env);
    FlagsRead(h, f);
    BodyRead(0, stream, f);
    RangeIsData(h, side, f.body);
    FailedIs(side, stream);
    if Takes(side, stream, Send.Data) { ReceivedIs(side, stream, Send.Data, f.endStream); }
  }

  // ---------------------------------------------------------------- HEADERS and CONTINUATION

  /** The table with a stream the peer has just opened. */
  function WithNew(side: Side, stream: nat): Side {
    side.(streams := side.streams[stream := Peer(Send.Idle, false, false)], lastPeer := stream)
  }

  /** The header block behind a fragment of `size` bytes: over, or to be continued on the same stream. */
  predicate BlockAfter(a: Side, b: Side, stream: nat, endStream: bool, endHeaders: bool, size: nat) {
    if endHeaders then !b.expecting && b.blockStream == 0 && b.blockBytes == 0 && !b.blockEnd
    else b.expecting && b.blockStream == stream && b.blockBytes == a.blockBytes + size && b.blockEnd == endStream
  }

  /** Tables that differ in the block alone. */
  predicate SameTable(a: Side, b: Side) {
    a.streams == b.streams && a.lastPeer == b.lastPeer && a.lastLocal == b.lastLocal
  }

  /** A fragment of a header block for `stream`, which ends with the stream if `endStream`. */
  ghost predicate FragmentTaken(now: Side, r: Conn, stream: nat, f: Fields, endStream: bool, seen: seq<Event>)
    requires stream in now.streams
  {
    if f.body == [] && !f.endHeaders then
      && r.Conn? && r == Conn(Header, [], r.side, seen) && SameTable(now, r.side)
      && BlockAfter(now, r.side, stream, endStream, false, 0)
    else if !(now.streams[stream].state in {Send.Idle, Send.Open, Send.HalfClosedLocal}) then
      && r.Conn? && r == Conn(Header, [], r.side, seen + [StreamError(stream)])
      && IsClosed(now, r.side, stream) && OnlyChanges(r.side.(streams := now.streams), r.side, stream)
    else
      && r.Conn? && BlockAfter(now, r.side, stream, endStream, f.endHeaders, |f.body|)
      && HasTaken(now, WithBlock(r.side, now), stream, f.endHeaders && endStream)
      && r == Conn(Header, [], r.side,
                   seen + FragmentEvents(stream, now.blockBytes, f.body) +
                   (if f.endHeaders then [FragmentsEnd(stream, endStream)] else []))
  }

  /** The streams of one with the block of another. */
  function WithBlock(side: Side, block: Side): Side {
    block.(streams := side.streams, lastPeer := side.lastPeer, lastLocal := side.lastLocal)
  }

  /** A fragment that its stream takes, or refuses, once the frame has been let in. */
  lemma FragmentOutcome(h: FrameHeader, f: Fields, pad: nat, now: Side, seen: seq<Event>)
    requires (h.kind == HEADERS || h.kind == CONTINUATION) && h.flags == FlagsOf(f) && h.stream in now.streams
    requires Prefix(h) <= Limit(h, pad) && Limit(h, pad) - Prefix(h) == |f.body| && now.blockStream == h.stream
    ensures var r := if f.body == [] && !f.endHeaders then Conn(Header, [], Advance(h, pad, now), seen)
                     else if !Takes(now, h.stream, Send.Header) then
                       Conn(Header, [], Failed(now, h.stream), seen + [StreamError(h.stream)])
                     else
                       Conn(Header, [], Advance(h, pad, Received(now, h.stream, f.endHeaders && now.blockEnd)),
                            seen + Fragments(h.stream, now.blockBytes, f.body) +
                            (if f.endHeaders then [FragmentsEnd(h.stream, now.blockEnd)] else []));
            FragmentTaken(now, r, h.stream, f, now.blockEnd, seen)
  {
    hide Prefix, FlagsOf, Bit, Fragments, FragmentEvents, HasTaken, IsClosed, OnlyChanges, Received, Failed;
    FlagsRead(h, f);
    FragmentsAre(h.stream, now.blockBytes, f.body);
    FailedIs(now, h.stream);
    FailedKeepsBlock(now, h.stream);
    if Takes(now, h.stream, Send.Header) {
      ReceivedIs(now, h.stream, Send.Header, f.endHeaders && now.blockEnd);
      ReceivedKeepsBlock(now, h.stream, f.endHeaders && now.blockEnd);
    }
  }

  lemma FailedKeepsBlock(side: Side, id: nat)
    ensures Failed(side, id) == side.(streams := Failed(side, id).streams)
  {
  }

  lemma ReceivedKeepsBlock(side: Side, id: nat, end: bool)
    requires id in side.streams
    ensures Received(side, id, end) == side.(streams := Received(side, id, end).streams)
  {
  }

  /**
   HEADERS: outside a header block, for a stream of the table or one the peer may open; the stream is opened first,
   then gets the fragment that begins the block.
   */
  lemma HeadersFromFields(stream: nat, f: Fields, side: Side, events: seq<Event>, env: Env)
    requires FieldsOk(1, f) && Sendable(HeaderOf(1, stream, f), PayloadOf(f), env)
    ensures var h := HeaderOf(1, stream, f); var seen := events + [Frame(h)];
            var r := EatAll(Conn(Header, [], side, events), Wire(h, PayloadOf(f)), env);
            var block := side.(blockStream := stream, blockEnd := f.endStream);
            if side.expecting || stream == 0 then r == Stopped(seen)
            else if stream in side.streams then FragmentTaken(block, r, stream, f, f.endStream, seen)
            else if !NeverUsed(side, stream, env) || IsOurs(stream, env) || !env.accepts(seen + [Opened(stream)])
            then r == Stopped(seen)
            else FragmentTaken(WithNew(block, stream), r, stream, f, f.endStream, seen + [Opened(stream)])
  {
    hide EatAll, Wire, Fragments, FragmentTaken, Bit, FlagsOf, PayloadOf, Body, PadIn, Prefix, Received, Failed,
         Advance, Takes, IsIdle, IsLocal, NeverUsed, IsOurs;
    var h, payload := HeaderOf(1, stream, f), PayloadOf(f);
    HeaderFrame(h, payload, side, events, env);
    FlagsRead(h, f);
    BodyRead(1, stream, f);
    IdleIsNeverUsed(side, stream, env);
    IdleIsAbsent(side, stream, env);
    var block := side.(blockStream := stream, blockEnd := f.endStream);
    var now := if stream in side.streams then block else WithNew(block, stream);
    var seen := events + [Frame(h)];
    var arrived := if stream in side.streams then seen else seen + [Opened(stream)];
    FragmentOutcome(h, f, PadIn(h, payload), now, arrived);
  }

  lemma IdleIsAbsent(side: Side, stream: nat, env: Env)
    ensures IsIdle(side, stream, env) ==> stream !in side.streams
  {
  }

  /** CONTINUATION: only on the stream of the unfinished block, which it continues where it stands. */
  lemma ContinuationFromFields(stream: nat, f: Fields, side: Side, events: seq<Event>, env: Env)
    requires FieldsOk(9, f) && Sendable(HeaderOf(9, stream, f), PayloadOf(f), env)
    ensures var h := HeaderOf(9, stream, f); var seen := events + [Frame(h)];
            var r := EatAll(Conn(Header, [], side, events), Wire(h, PayloadOf(f)), env);
            if !side.expecting || stream != side.blockStream || stream !in side.streams then r == Stopped(seen)
            else FragmentTaken(side, r, stream, f, side.blockEnd, seen)
  {
    hide EatAll, Wire, Fragments, FragmentTaken, Bit, FlagsOf, PayloadOf, Body, PadIn, Prefix, Received, Failed,
         Advance, Takes, IsIdle, IsLocal;
    var h, payload := HeaderOf(9, stream, f), PayloadOf(f);
    HeaderFrame(h, payload, side, events, env);
    FlagsRead(h, f);
    BodyRead(9, stream, f);
    if stream in side.streams && side.expecting && stream == side.blockStream {
      IdleIsAbsent(side, stream, env);
      FragmentOutcome(h, f, PadIn(h, payload), side, events + [Frame(h)]);
    }
  }
}
