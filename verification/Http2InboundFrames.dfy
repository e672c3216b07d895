/**
 What whole frames mean, and that it reaches the streams however the frames were
 cut: every byte between prefix and padding once and in order, and for frames
 that go to no stream the whole outcome.
 */
module Http2InboundFrames {
  import opened Octets
  import opened Http2Inbound
  import opened Http2FrameReader
  import opened Http2InboundTheorems
  import Send = Http2Send

  // ---------------------------------------------------------------- whole frames

  /** A frame that can be encoded and that the connection's limit allows. */
  predicate Sendable(h: FrameHeader, payload: Bytes, env: Env) {
    h.length == |payload| && h.length < 0x100_0000 && h.stream < 0x8000_0000 && h.length <= env.maxFrame
  }

  function Wire(h: FrameHeader, payload: Bytes): Bytes {
    EncodeHeader(h) + payload
  }

  /** An encoded frame arrives as its header and then its payload. */
  lemma WholeFrame(h: FrameHeader, payload: Bytes, side: Side, events: seq<Event>, env: Env)
    requires Sendable(h, payload, env)
    ensures EatAll(Conn(Header, [], side, events), Wire(h, payload), env) ==
            if payload == [] then Empty(h, side, events + [Frame(h)], env)
            else Settle(AbsorbAll(Payload(h, 0, [], 0, false), payload, side, events + [Frame(h)], env), env)
  {
    hide EatAll, AbsorbAll, Settle, EncodeHeader, ParseHeader, Empty;
    EatConcat(Conn(Header, [], side, events), EncodeHeader(h), payload, env);
    WholeHeader(EncodeHeader(h), side, events, env);
    HeaderRoundTrip(h);
    if payload == [] {
      EatEmpty(Empty(h, side, events + [Frame(h)], env), env);
    } else {
      EatPayload(Payload(h, 0, [], 0, false), payload, side, events + [Frame(h)], env);
    }
  }

  /** The pad length a payload carries. */
  function PadIn(h: FrameHeader, payload: Bytes): nat {
    if payload == [] then 0 else PadOf(h, payload[0])
  }

  /** A payload without pad length, priority and padding. */
  function Body(h: FrameHeader, payload: Bytes): Bytes {
    if Prefix(h) + PadIn(h, payload) <= |payload| then payload[Prefix(h)..|payload| - PadIn(h, payload)] else []
  }

  /** A frame for a stream arrives as one piece. */
  lemma WholeStreamFrame(h: FrameHeader, payload: Bytes, side: Side, events: seq<Event>, env: Env)
    requires Sendable(h, payload, env) && OnStream(h)
    ensures EatAll(Conn(Header, [], side, events), Wire(h, payload), env) ==
            var c := Start(h, PadIn(h, payload), side, events + [Frame(h)], env);
            if c.Stopped? then c else Settle(StreamPiece(c.phase, payload, c.side, c.events), env)
  {
    hide EatAll, AbsorbAll, Wire, Finish, StreamPiece, Start;
    WholeFrame(h, payload, side, events, env);
    var p, seen := Payload(h, 0, [], 0, false), events + [Frame(h)];
    if payload != [] {
      FirstPiece(p, payload, side, seen, env);
      if !InTurn(h, side) { OutOfTurn(h, PadOf(h, payload[0]), side, seen, env); }
    } else {
      EmptyStreamFrame(h, side, seen, env);
    }
  }

  lemma EmptyStreamFrame(h: FrameHeader, side: Side, seen: seq<Event>, env: Env)
    requires OnStream(h) && h.length == 0
    ensures Empty(h, side, seen, env) ==
            var c := Start(h, 0, side, seen, env);
            if c.Stopped? then c else Settle(StreamPiece(c.phase, [], c.side, c.events), env)
  {
    hide StreamPiece, Start;
    StartInTurn(h, 0, side, seen, env);
    var c := Start(h, 0, side, seen, env);
    if c.Conn? { PieceSound(c.phase, [], c.side, c.events); }
  }

  /** What the stream gets of a whole payload. */
  lemma WholePart(h: FrameHeader, payload: Bytes, pad: nat)
    requires |payload| == h.length && Prefix(h) + pad <= h.length
    ensures Part(Prefix(h), Limit(h, pad), 0, payload) == payload[Prefix(h)..|payload| - pad]
  {
    hide Prefix;
  }

  /** What a DATA frame does: an error of the connection or of the stream, or data from offset 0 and perhaps its end. */
  function DataOutcome(h: FrameHeader, payload: Bytes, side: Side, seen: seq<Event>): Conn {
    var body := Body(h, payload);
    if side.expecting || h.stream == 0 || h.stream !in side.streams || |payload| < Prefix(h) + PadIn(h, payload)
    then Stopped(seen)
    else if body == [] && !IsEndStream(h) then Conn(Header, [], side, seen)
    else if !Takes(side, h.stream, Send.Data) then
      Conn(Header, [], Failed(side, h.stream), seen + [StreamError(h.stream)])
    else
      Conn(Header, [], Received(side, h.stream, IsEndStream(h)),
           seen + RangeEvents(h, side, 0, body) + (if IsEndStream(h) then [DataEnd(h.stream)] else []))
  }

  lemma DataFrame(h: FrameHeader, payload: Bytes, side: Side, events: seq<Event>, env: Env)
    requires Sendable(h, payload, env) && h.kind == DATA
    ensures EatAll(Conn(Header, [], side, events), Wire(h, payload), env)
         == DataOutcome(h, payload, side, events + [Frame(h)])
  {
    hide EatAll, Wire, RangeEvents, Received, Failed, Takes, Part, Bit, PadIn;
    WholeStreamFrame(h, payload, side, events, env);
    var pad := PadIn(h, payload);
    if Prefix(h) + pad <= h.length { WholePart(h, payload, pad); }
  }

  /** A fragment of a header block, from `at` on. */
  function Fragments(stream: nat, at: nat, bytes: Bytes): seq<Event>
    decreases |bytes|
  {
    if bytes == [] then [] else [Fragment(stream, at, bytes[0])] + Fragments(stream, at + 1, bytes[1..])
  }

  lemma {:induction false} RangeIsFragments(h: FrameHeader, side: Side, at: nat, bytes: Bytes)
    requires h.kind != DATA
    ensures RangeEvents(h, side, at, bytes) == Fragments(h.stream, side.blockBytes + at, bytes)
    decreases |bytes|
  {
    if bytes != [] { RangeIsFragments(h, side, at + 1, bytes[1..]); }
  }

  /** The stream takes the frame, or the frame opens the stream. */
  predicate Admitted(h: FrameHeader, payload: Bytes, side: Side, seen: seq<Event>, env: Env) {
    && (h.kind == HEADERS || h.kind == CONTINUATION) && InTurn(h, side) && h.stream != 0
    && Prefix(h) + PadIn(h, payload) <= |payload|
    && if IsIdle(side, h.stream, env)
       then h.kind == HEADERS && !IsLocal(h.stream, env) && env.accepts(seen + [Opened(h.stream)])
       else Takes(side, h.stream, Send.Header) && (h.kind == CONTINUATION ==> h.stream == side.blockStream)
  }

  /** The streams and the header block with the frame's stream in the table. */
  function Entered(h: FrameHeader, side: Side, env: Env): Side {
    var now := if h.kind == HEADERS then side.(blockStream := h.stream, blockEnd := IsEndStream(h)) else side;
    if IsIdle(side, h.stream, env)
    then now.(streams := now.streams[h.stream := Peer(Send.Idle, false, false)], lastPeer := h.stream)
    else now
  }

  function EnteredEvents(h: FrameHeader, side: Side, seen: seq<Event>, env: Env): seq<Event> {
    if IsIdle(side, h.stream, env) then seen + [Opened(h.stream)] else seen
  }

  /**
   What a HEADERS or CONTINUATION frame does: an error of the connection or of the stream, or a fragment that
   continues the block where it stands.
   */
  function HeaderOutcome(h: FrameHeader, payload: Bytes, side: Side, seen: seq<Event>, env: Env): Conn
    requires (h.kind == HEADERS || h.kind == CONTINUATION) && h.length == |payload|
  {
    var now, end, body := Entered(h, side, env), IsEndHeaders(h), Body(h, payload);
    var arrived := EnteredEvents(h, side, seen, env);
    if side.expecting != (h.kind == CONTINUATION) || |payload| < Prefix(h) + PadIn(h, payload) ||
       (if h.kind == HEADERS then h.stream == 0 else h.stream != side.blockStream)
    then Stopped(seen)
    else if h.stream !in side.streams && !Opens(h, side, seen, env) then Stopped(seen)
    else if body == [] && !end then Conn(Header, [], Advance(h, PadIn(h, payload), now), arrived)
    else if !Takes(now, h.stream, Send.Header) then
      Conn(Header, [], Failed(now, h.stream), arrived + [StreamError(h.stream)])
    else
      Conn(Header, [], Advance(h, PadIn(h, payload), Received(now, h.stream, end && now.blockEnd)),
           arrived + Fragments(h.stream, side.blockBytes, body) +
           (if end then [FragmentsEnd(h.stream, now.blockEnd)] else []))
  }

  /** Headers of a stream of the peer's that was never used open it, if the connection admits it. */
  predicate Opens(h: FrameHeader, side: Side, seen: seq<Event>, env: Env) {
    && h.kind == HEADERS && IsIdle(side, h.stream, env) && !IsLocal(h.stream, env)
    && env.accepts(seen + [Opened(h.stream)])
  }

  lemma AdmittedStarts(h: FrameHeader, payload: Bytes, side: Side, seen: seq<Event>, env: Env)
    requires Admitted(h, payload, side, seen, env) && h.length == |payload|
    ensures !(h.stream !in side.streams && !Opens(h, side, seen, env))
    ensures Start(h, PadIn(h, payload), side, seen, env)
         == Conn(Payload(h, 0, [], PadIn(h, payload), false), [], Entered(h, side, env),
                 EnteredEvents(h, side, seen, env))
    ensures Takes(Entered(h, side, env), h.stream, Send.Header)
  {
    hide Bit, PadIn, Prefix;
  }

  /** Whether the frame gets past the checks of its first piece. */
  lemma StartsWhen(h: FrameHeader, payload: Bytes, side: Side, seen: seq<Event>, env: Env)
    requires (h.kind == HEADERS || h.kind == CONTINUATION) && h.length == |payload|
    ensures var stops := side.expecting != (h.kind == CONTINUATION) || |payload| < Prefix(h) + PadIn(h, payload) ||
                         (if h.kind == HEADERS then h.stream == 0 else h.stream != side.blockStream) ||
                         (h.stream !in side.streams && !Opens(h, side, seen, env));
            Start(h, PadIn(h, payload), side, seen, env) ==
            if stops then Stopped(seen)
            else Conn(Payload(h, 0, [], PadIn(h, payload), false), [], Entered(h, side, env),
                      EnteredEvents(h, side, seen, env))
  {
    hide Bit, PadIn;
  }

  lemma HeaderFrame(h: FrameHeader, payload: Bytes, side: Side, events: seq<Event>, env: Env)
    requires Sendable(h, payload, env) && (h.kind == HEADERS || h.kind == CONTINUATION)
    ensures EatAll(Conn(Header, [], side, events), Wire(h, payload), env)
         == HeaderOutcome(h, payload, side, events + [Frame(h)], env)
  {
    hide EatAll, Wire, RangeEvents, Received, Failed, Part, Bit, Fragments, Advance, Start, Entered, EnteredEvents,
         PadIn, Prefix, Takes, Opens;
    var seen := events + [Frame(h)];
    WholeStreamFrame(h, payload, side, events, env);
    StartsWhen(h, payload, side, seen, env);
    var now := Entered(h, side, env);
    EnteredKeeps(h, side, env);
    if Start(h, PadIn(h, payload), side, seen, env).Conn? {
      EnteredHas(h, side, seen, env);
      WholePart(h, payload, PadIn(h, payload));
      RangeIsFragments(h, now, 0, Body(h, payload));
    }
  }

  lemma EnteredHas(h: FrameHeader, side: Side, seen: seq<Event>, env: Env)
    requires h.stream in side.streams || Opens(h, side, seen, env)
    ensures h.stream in Entered(h, side, env).streams
  {
  }

  lemma EnteredKeeps(h: FrameHeader, side: Side, env: Env)
    ensures var now := Entered(h, side, env);
            now.blockBytes == side.blockBytes && now.expecting == side.expecting &&
            (h.kind == HEADERS ==> now.blockStream == h.stream && now.blockEnd == IsEndStream(h)) &&
            (h.kind != HEADERS ==> now.blockStream == side.blockStream && now.blockEnd == side.blockEnd)
  {
  }

  lemma NoFragments(stream: nat, at: nat)
    ensures Fragments(stream, at, []) == []
  {
  }

  function ContinuationHeader(stream: nat, size: nat, last: bool, endStream: bool): FrameHeader {
    FrameHeader(size, CONTINUATION, (if last then 4 else 0) + (if endStream then 1 else 0), stream)
  }

  /** The rest of a header block, one CONTINUATION frame for each fragment. */
  function ContinuationWire(stream: nat, fragments: seq<Bytes>, endStream: bool): Bytes
    decreases |fragments|
  {
    if fragments == [] then []
    else
      Wire(ContinuationHeader(stream, |fragments[0]|, |fragments| == 1, endStream), fragments[0]) +
      ContinuationWire(stream, fragments[1..], endStream)
  }

  function ContinuationEvents(stream: nat, at: nat, fragments: seq<Bytes>, endStream: bool, end: bool): seq<Event>
    decreases |fragments|
  {
    if fragments == [] then [FragmentsEnd(stream, end)]
    else
      [Frame(ContinuationHeader(stream, |fragments[0]|, |fragments| == 1, endStream))] +
      Fragments(stream, at, fragments[0]) +
      ContinuationEvents(stream, at + |fragments[0]|, fragments[1..], endStream, end)
  }

  predicate FragmentsFit(fragments: seq<Bytes>, env: Env) {
    forall i :: 0 <= i < |fragments| ==> |fragments[i]| < 0x100_0000 && |fragments[i]| <= env.maxFrame
  }

  function NoBlock(side: Side): Side {
    side.(expecting := false, blockStream := 0, blockBytes := 0, blockEnd := false)
  }

  /** CONTINUATION frames complete the block; that END_STREAM stands on one of them makes no difference. */
  lemma {:induction false} BlockContinues(stream: nat, fragments: seq<Bytes>, endStream: bool, side: Side,
                                          events: seq<Event>, env: Env)
    requires 0 < stream < 0x8000_0000 && fragments != [] && FragmentsFit(fragments, env)
    requires side.expecting && side.blockStream == stream && Takes(side, stream, Send.Header)
    ensures EatAll(Conn(Header, [], side, events), ContinuationWire(stream, fragments, endStream), env)
         == Conn(Header, [], NoBlock(Received(side, stream, side.blockEnd)),
                 events + ContinuationEvents(stream, side.blockBytes, fragments, endStream, side.blockEnd))
    decreases |fragments|
  {
    hide EatAll, Wire, Received, Fragments;
    var first, last := fragments[0], |fragments| == 1;
    var h := ContinuationHeader(stream, |first|, last, endStream);
    var rest := ContinuationWire(stream, fragments[1..], endStream);
    EatConcat(Conn(Header, [], side, events), Wire(h, first), rest, env);
    OneContinuation(stream, first, last, endStream, side, events, env);
    var seen := events + [Frame(h)] + Fragments(stream, side.blockBytes, first);
    var more := ContinuationEvents(stream, side.blockBytes + |first|, fragments[1..], endStream, side.blockEnd);
    JoinEvents(events, [Frame(h)], Fragments(stream, side.blockBytes, first), more);
    if last {
      assert fragments[1..] == [] && rest == [];
      EatEmpty(Conn(Header, [], NoBlock(Received(side, stream, side.blockEnd)), seen + more), env);
    } else {
      var mid := if first == [] then side else Received(side, stream, false);
      if first != [] { ReceivedTwice(side, stream, Send.Header, side.blockEnd); }
      var next := mid.(blockBytes := side.blockBytes + |first|);
      SameBlock(mid, next, stream, side.blockEnd);
      BlockContinues(stream, fragments[1..], endStream, next, seen, env);
    }
  }

  /** A CONTINUATION frame in the middle of its block, or at its end. */
  lemma OneContinuation(stream: nat, fragment: Bytes, last: bool, endStream: bool, side: Side, events: seq<Event>,
                        env: Env)
    requires 0 < stream < 0x8000_0000 && |fragment| < 0x100_0000 && |fragment| <= env.maxFrame
    requires side.expecting && side.blockStream == stream && Takes(side, stream, Send.Header)
    ensures var h := ContinuationHeader(stream, |fragment|, last, endStream);
            var seen := events + [Frame(h)] + Fragments(stream, side.blockBytes, fragment);
            EatAll(Conn(Header, [], side, events), Wire(h, fragment), env) ==
            if last then Conn(Header, [], NoBlock(Received(side, stream, side.blockEnd)),
                              seen + [FragmentsEnd(stream, side.blockEnd)])
            else
              var mid := if fragment == [] then side else Received(side, stream, false);
              Conn(Header, [], mid.(blockBytes := side.blockBytes + |fragment|), seen)
  {
    hide EatAll, Wire, Received, Fragments;
    var h := ContinuationHeader(stream, |fragment|, last, endStream);
    ContinuationFlags(stream, |fragment|, last, endStream);
    assert PadIn(h, fragment) == 0 && fragment[0..|fragment| - 0] == fragment;
    ReceivedTwice(side, stream, Send.Header, side.blockEnd);
    HeaderFrame(h, fragment, side, events, env);
    var seen := events + [Frame(h)] + Fragments(stream, side.blockBytes, fragment);
    NoFragments(stream, side.blockBytes);
    assert seen + [] == seen && events + [Frame(h)] + [] == events + [Frame(h)];
  }

  lemma JoinEvents(a: seq<Event>, b: seq<Event>, c: seq<Event>, d: seq<Event>)
    ensures a + (b + c + d) == a + b + c + d
  {
  }

  lemma ContinuationFlags(stream: nat, size: nat, last: bool, endStream: bool)
    ensures var h := ContinuationHeader(stream, size, last, endStream); IsEndHeaders(h) == last && Prefix(h) == 0
  {
  }

  /** What a stream makes of a piece does not depend on the header block. */
  lemma SameBlock(a: Side, b: Side, id: nat, end: bool)
    requires b.streams == a.streams && b.lastPeer == a.lastPeer && b.lastLocal == a.lastLocal && id in a.streams
    ensures Takes(a, id, Send.Header) == Takes(b, id, Send.Header)
    ensures NoBlock(Received(a, id, end)) == NoBlock(Received(b, id, end))
  {
  }

  /**
   A header block sent as HEADERS, padded or with priority or not, and CONTINUATION frames reaches its
   stream, which it may open, whole and in order. It ends the stream exactly when HEADERS says so.
   */
  lemma HeaderBlock(h: FrameHeader, payload: Bytes, fragments: seq<Bytes>, endStream: bool, side: Side,
                    events: seq<Event>, env: Env)
    requires Sendable(h, payload, env) && h.kind == HEADERS && !IsEndHeaders(h)
    requires Admitted(h, payload, side, events + [Frame(h)], env)
    requires fragments != [] && FragmentsFit(fragments, env)
    ensures h.stream in Entered(h, side, env).streams
    ensures EatAll(Conn(Header, [], side, events),
                   Wire(h, payload) + ContinuationWire(h.stream, fragments, endStream), env)
         == Conn(Header, [], NoBlock(Received(Entered(h, side, env), h.stream, IsEndStream(h))),
                 EnteredEvents(h, side, events + [Frame(h)], env) +
                 Fragments(h.stream, side.blockBytes, Body(h, payload)) +
                 ContinuationEvents(h.stream, side.blockBytes + |Body(h, payload)|, fragments, endStream,
                                    IsEndStream(h)))
  {
    hide EatAll, Wire, Received, Fragments, ContinuationWire, ContinuationEvents, Bit, Entered, EnteredEvents, PadIn,
         Prefix, Takes, Opens, Failed, IsIdle, IsLocal;
    EatConcat(Conn(Header, [], side, events), Wire(h, payload), ContinuationWire(h.stream, fragments, endStream), env);
    HeaderFrame(h, payload, side, events, env);
    AdmittedStarts(h, payload, side, events + [Frame(h)], env);
    EnteredKeeps(h, side, env);
    var now, body := Entered(h, side, env), Body(h, payload);
    ReceivedTwice(now, h.stream, Send.Header, IsEndStream(h));
    var mid := if body == [] then now else Received(now, h.stream, false);
    var next := mid.(expecting := true, blockBytes := side.blockBytes + |body|);
    SameBlock(mid, next, h.stream, IsEndStream(h));
    var arrived := EnteredEvents(h, side, events + [Frame(h)], env);
    var seen := arrived + Fragments(h.stream, side.blockBytes, body);
    NoFragments(h.stream, side.blockBytes);
    assert seen + [] == seen && arrived + [] == arrived;
    BlockContinues(h.stream, fragments, endStream, next, seen, env);
  }

  /** Outside a header block no fragment is counted, so every block starts at offset 0. */
  predicate Tidy(c: Conn) {
    c.Conn? && !c.side.expecting ==> c.side.blockBytes == 0
  }

  lemma StartTidy(h: FrameHeader, pad: nat, side: Side, events: seq<Event>, env: Env)
    requires !side.expecting ==> side.blockBytes == 0
    ensures Tidy(Start(h, pad, side, events, env))
  {
  }

  lemma PieceTidy(p: Phase, chunk: Bytes, side: Side, events: seq<Event>)
    requires p.Payload? && FitsFrame(p) && (!side.expecting ==> side.blockBytes == 0)
    ensures Tidy(StreamPiece(p, chunk, side, events))
  {
    hide Part, RangeEvents, EndEvents, Prefix, Bit, Takes;
  }

  lemma FinishTidy(h: FrameHeader, held: Bytes, side: Side, events: seq<Event>, env: Env)
    requires !side.expecting ==> side.blockBytes == 0
    ensures Tidy(Finish(h, held, side, events, env))
  {
    hide Number;
  }

  lemma AbsorbTidy(p: Phase, b: Byte, side: Side, events: seq<Event>, env: Env)
    requires p.Payload? && (!side.expecting ==> side.blockBytes == 0)
    ensures Tidy(Absorb(p, b, side, events, env))
  {
    hide StreamPiece, Start, Number, Prefix;
    var h := p.header;
    if p.offset == 0 { StartTidy(h, PadOf(h, b), side, events, env); }
    var c := if p.offset > 0 then Conn(p, [], side, events) else Start(h, PadOf(h, b), side, events, env);
    if p.offset == 0 { StartInTurn(h, PadOf(h, b), side, events, env); }
    if c.Conn? && OnStream(h) && FitsFrame(c.phase) { PieceTidy(c.phase, [b], c.side, c.events); }
  }

  lemma EatTidy(c: Conn, b: Byte, env: Env)
    requires Tidy(c)
    ensures Tidy(Eat(c, b, env))
  {
    hide Absorb, Finish, ParseHeader, StreamPiece, Start;
    if c.Conn? && c.phase.Payload? {
      AbsorbTidy(c.phase, b, c.side, c.events, env);
      var d := Absorb(c.phase, b, c.side, c.events, env);
      if d.Conn? && d.phase.Payload? { FinishTidy(d.phase.header, d.phase.held, d.side, d.events, env); }
    } else if c.Conn? && c.phase.Header? && |c.unread| + 1 == HEADER_SIZE {
      BeginTidy(ParseHeader(c.unread + [b]), c.side, c.events, env);
    }
  }

  lemma BeginTidy(h: FrameHeader, side: Side, events: seq<Event>, env: Env)
    requires !side.expecting ==> side.blockBytes == 0
    ensures Tidy(Begin(h, side, events, env))
  {
    hide Finish, StreamPiece, Start, Prefix;
    if h.length == 0 {
      var seen := events + [Frame(h)];
      StartTidy(h, 0, side, seen, env);
      StartInTurn(h, 0, side, seen, env);
      FinishTidy(h, [], side, seen, env);
      var c := Start(h, 0, side, seen, env);
      if c.Conn? && OnStream(h) { PieceTidy(c.phase, [], c.side, c.events); }
    }
  }

  lemma {:induction false} EatAllTidy(c: Conn, s: Bytes, env: Env)
    requires Tidy(c)
    ensures Tidy(EatAll(c, s, env))
    decreases |s|
  {
    hide Eat, Tidy;
    if s != [] {
      EatTidy(c, s[0], env);
      EatAllTidy(Eat(c, s[0], env), s[1..], env);
    }
  }

  lemma {:induction false} AbsorbAllTidy(p: Phase, s: Bytes, side: Side, events: seq<Event>, env: Env)
    requires p.Payload? && (!side.expecting ==> side.blockBytes == 0)
    ensures Tidy(AbsorbAll(p, s, side, events, env))
    decreases |s|
  {
    hide Absorb;
    if s != [] {
      AbsorbTidy(p, s[0], side, events, env);
      var c := Absorb(p, s[0], side, events, env);
      if c.Conn? && c.phase.Payload? { AbsorbAllTidy(c.phase, s[1..], c.side, c.events, env); }
    }
  }

  lemma HandledTidy(p: Phase, chunk: Bytes, side: Side, events: seq<Event>, env: Env)
    requires p.Payload? && chunk != [] && (!side.expecting ==> side.blockBytes == 0)
    ensures Tidy(Handled(p, chunk, side, events, env))
  {
    hide StreamPiece, AbsorbAll, Start, Prefix;
    var h := p.header;
    AbsorbAllTidy(p, chunk, side, events, env);
    if p.offset > 0 {
      if FitsFrame(p) { PieceTidy(p, chunk, side, events); }
    } else {
      var pad := PadOf(h, chunk[0]);
      StartTidy(h, pad, side, events, env);
      StartInTurn(h, pad, side, events, env);
      var c := Start(h, pad, side, events, env);
      if c.Conn? && OnStream(h) { PieceTidy(c.phase, chunk, c.side, c.events); }
    }
  }

  /** Every header block starts at offset 0, whatever was read before and however it was cut. */
  lemma {:induction false} BlocksStartAtZero(c: Conn, pieces: seq<Bytes>, env: Env)
    requires Tidy(c)
    ensures Tidy(ReadAll(c, pieces, env))
    decreases |pieces|
  {
    hide Read, Tidy;
    if pieces != [] {
      ReadTidy(c, pieces[0], env);
      BlocksStartAtZero(Read(c, pieces[0], env), pieces[1..], env);
    }
  }

  lemma ReadTidy(c: Conn, piece: Bytes, env: Env)
    requires Tidy(c)
    ensures Tidy(Read(c, piece, env))
  {
    hide EatAll, Handled, Finish;
    if c.Stopped? || piece == [] || !c.phase.Payload? || c.phase.offset >= c.phase.header.length {
      EatAllTidy(c, piece, env);
    } else {
      var n := Min(|piece|, c.phase.header.length - c.phase.offset);
      HandledTidy(c.phase, piece[..n], c.side, c.events, env);
      var d := Handled(c.phase, piece[..n], c.side, c.events, env);
      if d.Conn? && d.phase.Payload? { FinishTidy(d.phase.header, d.phase.held, d.side, d.events, env); }
      EatAllTidy(Settle(d, env), piece[n..], env);
    }
  }

  /** The parameters of a SETTINGS payload, six bytes each. */
  function ParametersOf(payload: Bytes): seq<Event>
    decreases |payload|
  {
    if |payload| < 6 then [] else [Parameter(Number(payload[..2]), Number(payload[2..6]))] + ParametersOf(payload[6..])
  }

  /** Parameters applied in order up to the first the connection refuses; if it refuses none, one acknowledgement. */
  function ApplyAll(parameters: seq<Event>, side: Side, events: seq<Event>, env: Env): Conn
    decreases |parameters|
  {
    if parameters == [] then Offer(events, SendSettingsAck, Header, side, env)
    else
      var c := OfferCredit(events, parameters[0], Header, side, env);
      if c.Stopped? then c else ApplyAll(parameters[1..], c.side, c.events, env)
  }

  lemma {:induction false} SettingsAbsorb(p: Phase, s: Bytes, side: Side, events: seq<Event>, env: Env)
    requires p.Payload? && p.header.kind == SETTINGS && StartOk(p.header) && !IsAck(p.header) && p.held == []
    requires InTurn(p.header, side) && (p.offset == 0 ==> p == Payload(p.header, 0, [], 0, false))
    requires |s| % 6 == 0 && p.offset + |s| == p.header.length
    ensures Settle(AbsorbAll(p, s, side, events, env), env) == ApplyAll(ParametersOf(s), side, events, env)
    decreases |s|
  {
    hide Absorb, Number, Served;
    if s != [] {
      var first, rest := s[..6], s[6..];
      assert s == first + rest;
      AbsorbConcat(p, first, rest, side, events, env);
      SettingsComplete(p, first, side, events, env);
      assert [] + first == first && first[..2] == s[..2] && first[2..] == s[2..6];
      var e := Parameter(Number(s[..2]), Number(s[2..6]));
      assert ParametersOf(s) == [e] + ParametersOf(rest) && ParametersOf(s)[1..] == ParametersOf(rest);
      var c := OfferCredit(events, e, Header, side, env);
      CreditIs(events, e, Header, side, env);
      if c.Conn? { SettingsAbsorb(p.(offset := p.offset + 6), rest, c.side, c.events, env); }
    }
  }

  // ---------------------------------------------------------------- frames that go to no stream

  lemma {:induction false} HarmlessAlong(c: Conn, s: Bytes, n: nat, pieces: seq<Bytes>, env: Env)
    requires n <= |s| && Concat(pieces) == s[n..]
    requires forall m :: n <= m <= |s| ==> !Harmful(EatAll(c, s[..m], env))
    ensures Harmless(EatAll(c, s[..n], env), pieces, env)
    decreases |pieces|
  {
    hide EatAll, Harmful;
    if pieces != [] {
      var m := n + |pieces[0]|;
      assert Concat(pieces) == pieces[0] + Concat(pieces[1..]);
      assert s[..m] == s[..n] + pieces[0] && s[m..] == Concat(pieces[1..]);
      EatConcat(c, s[..n], pieces[0], env);
      HarmlessAlong(c, s, m, pieces[1..], env);
    }
  }

  lemma NoHarmInside(h: FrameHeader, payload: Bytes, m: nat, side: Side, events: seq<Event>, env: Env)
    requires Sendable(h, payload, env) && !OnStream(h) && m <= |Wire(h, payload)|
    ensures !Harmful(EatAll(Conn(Header, [], side, events), Wire(h, payload)[..m], env))
  {
    hide EatAll, AbsorbAll, Finish, EncodeHeader, ParseHeader, OnStream, Begin;
    var c, w := Conn(Header, [], side, events), Wire(h, payload);
    if m < HEADER_SIZE {
      Waits(Header, [], w[..m], side, events, env);
    } else {
      var n := m - HEADER_SIZE;
      assert w[..m] == EncodeHeader(h) + payload[..n];
      EatConcat(c, EncodeHeader(h), payload[..n], env);
      WholeHeader(EncodeHeader(h), side, events, env);
      HeaderRoundTrip(h);
      BeginReady(h, side, events, env);
      var d := Begin(h, side, events, env);
      if n == 0 {
        assert payload[..n] == [];
        EatEmpty(d, env);
      } else {
        BeginIs(h, side, events, env);
        var p := Payload(h, 0, [], 0, false);
        EatPayload(p, payload[..n], side, events + [Frame(h)], env);
        AbsorbStays(p, payload[..n], side, events + [Frame(h)], env);
        var e := AbsorbAll(p, payload[..n], side, events + [Frame(h)], env);
        if e.Conn? { FinishReady(h, e.phase.held, e.side, e.events, env); }
      }
    }
  }

  lemma BeginIs(h: FrameHeader, side: Side, events: seq<Event>, env: Env)
    requires 0 < h.length <= env.maxFrame
    ensures Begin(h, side, events, env) == Conn(Payload(h, 0, [], 0, false), [], side, events + [Frame(h)])
  {
  }

  /** A frame that goes to no stream does the same in whatever reads it arrives. */
  lemma OtherFramesDoNotCare(h: FrameHeader, payload: Bytes, pieces: seq<Bytes>, side: Side, events: seq<Event>,
                             env: Env)
    requires Sendable(h, payload, env) && !OnStream(h) && Concat(pieces) == Wire(h, payload)
    ensures var c := Conn(Header, [], side, events);
            ReadAll(c, pieces, env) == EatAll(c, Wire(h, payload), env)
  {
    hide EatAll, Harmful, Wire, ReadAll, Harmless;
    var c, w := Conn(Header, [], side, events), Wire(h, payload);
    forall m: nat | m <= |w| ensures !Harmful(EatAll(c, w[..m], env)) {
      NoHarmInside(h, payload, m, side, events, env);
    }
    assert w[..0] == [] && w[0..] == w;
    EatEmpty(c, env);
    HarmlessAlong(c, w, 0, pieces, env);
    CutsDoNotMatter(c, pieces, env);
  }

  /** A SETTINGS frame, in whatever reads it arrives. */
  lemma SettingsFrame(h: FrameHeader, payload: Bytes, pieces: seq<Bytes>, side: Side, events: seq<Event>, env: Env)
    requires Sendable(h, payload, env) && h.kind == SETTINGS && h.stream == 0 && !IsAck(h)
    requires |payload| % 6 == 0 && !side.expecting && Concat(pieces) == Wire(h, payload)
    ensures ReadAll(Conn(Header, [], side, events), pieces, env)
         == ApplyAll(ParametersOf(payload), side, events + [Frame(h)], env)
  {
    hide EatAll, AbsorbAll, Settle, Wire, ReadAll, Concat;
    OtherFramesDoNotCare(h, payload, pieces, side, events, env);
    WholeFrame(h, payload, side, events, env);
    if payload != [] { SettingsAbsorb(Payload(h, 0, [], 0, false), payload, side, events + [Frame(h)], env); }
  }

  /**
   PING, WINDOW_UPDATE, RST_STREAM and GOAWAY, in whatever reads they arrive, act on the payload that
   was sent, the last on its first eight bytes.
   */
  lemma ControlFrame(h: FrameHeader, payload: Bytes, pieces: seq<Bytes>, side: Side, events: seq<Event>, env: Env)
    requires Sendable(h, payload, env) && StartOk(h) && (IsControl(h) || h.kind == GOAWAY)
    requires !side.expecting && Concat(pieces) == Wire(h, payload)
    ensures ReadAll(Conn(Header, [], side, events), pieces, env)
         == Finish(h, payload[..Min(|payload|, 8)], side, events + [Frame(h)], env)
  {
    hide EatAll, AbsorbAll, Finish, Wire, ReadAll, Concat, Empty;
    OtherFramesDoNotCare(h, payload, pieces, side, events, env);
    WholeFrame(h, payload, side, events, env);
    var p, seen := Payload(h, 0, [], 0, false), events + [Frame(h)];
    if h.kind == GOAWAY {
      GoawayAbsorbs(p, payload, side, seen, env);
      assert [] + payload[..Min(|payload|, 8)] == payload[..Min(|payload|, 8)];
    } else {
      ControlAbsorbs(p, payload, side, seen, env);
      assert payload[..Min(|payload|, 8)] == payload && [] + payload == payload;
    }
  }

  // ---------------------------------------------------------------- what reaches a stream

  predicate IsByte(e: Event) {
    e.Data? || e.Fragment?
  }

  /** The bytes among the events. */
  function BytesOf(events: seq<Event>): seq<Event> {
    if events == [] then []
    else BytesOf(events[..|events| - 1]) + (if IsByte(events[|events| - 1]) then [events[|events| - 1]] else [])
  }

  lemma {:induction false} BytesConcat(a: seq<Event>, b: seq<Event>)
    ensures BytesOf(a + b) == BytesOf(a) + BytesOf(b)
    decreases |b|
  {
    if b == [] {
      assert a + b == a && BytesOf(a) + [] == BytesOf(a);
    } else {
      var n := |b| - 1;
      assert (a + b)[..|a + b| - 1] == a + b[..n] && (a + b)[|a + b| - 1] == b[n];
      BytesConcat(a, b[..n]);
    }
  }

  lemma {:induction false} RangeIsBytes(h: FrameHeader, side: Side, at: nat, bytes: Bytes)
    ensures BytesOf(RangeEvents(h, side, at, bytes)) == RangeEvents(h, side, at, bytes)
    decreases |bytes|
  {
    if bytes != [] {
      var e, rest := ByteEvent(h, side, at, bytes[0]), RangeEvents(h, side, at + 1, bytes[1..]);
      BytesConcat([e], rest);
      RangeIsBytes(h, side, at + 1, bytes[1..]);
      assert [e][..0] == [] && BytesOf([e]) == [e];
    }
  }

  lemma EndIsNoByte(h: FrameHeader, side: Side, signal: bool)
    ensures BytesOf(EndEvents(h, side, signal)) == []
  {
    var es := EndEvents(h, side, signal);
    if signal { assert es[..0] == []; }
  }

  lemma OneMoreEvent(events: seq<Event>, e: Event)
    requires !IsByte(e)
    ensures BytesOf(events + [e]) == BytesOf(events)
  {
    assert (events + [e])[..|events + [e]| - 1] == events;
  }

  lemma {:induction false} RangeConcat(h: FrameHeader, side: Side, at: nat, a: Bytes, b: Bytes)
    ensures RangeEvents(h, side, at, a + b) == RangeEvents(h, side, at, a) + RangeEvents(h, side, at + |a|, b)
    decreases |a|
  {
    if a == [] {
      assert a + b == b;
    } else {
      assert (a + b)[1..] == a[1..] + b;
      RangeConcat(h, side, at + 1, a[1..], b);
    }
  }

  /** The part of two pieces in a row. */
  lemma {:induction false} PartConcat(prefix: nat, limit: int, offset: nat, s: Bytes, t: Bytes)
    ensures Part(prefix, limit, offset, s + t) == Part(prefix, limit, offset, s) + Part(prefix, limit, offset + |s|, t)
    decreases |s|
  {
    hide Part;
    if s == [] {
      assert s + t == t;
      PartOfNone(prefix, limit, offset);
    } else if offset >= limit {
      PartBeyond(prefix, limit, offset, s + t);
      PartBeyond(prefix, limit, offset, s);
      PartBeyond(prefix, limit, offset + |s|, t);
    } else {
      assert (s + t)[1..] == s[1..] + t;
      PartSplit(prefix, limit, offset, s + t);
      PartSplit(prefix, limit, offset, s);
      PartConcat(prefix, limit, offset + 1, s[1..], t);
      Assoc(Part(prefix, limit, offset, [s[0]]), Part(prefix, limit, offset + 1, s[1..]),
            Part(prefix, limit, offset + |s|, t));
    }
  }

  lemma PartOfNone(prefix: nat, limit: int, offset: nat)
    ensures Part(prefix, limit, offset, []) == []
  {
  }

  /** How long the part of a piece is that ends before the limit. */
  lemma PartSize(prefix: nat, limit: int, offset: nat, s: Bytes)
    requires offset + |s| <= limit
    ensures |Part(prefix, limit, offset, s)| == Max(offset + |s|, prefix) - Max(offset, prefix)
  {
  }

  predicate Reaches(p: Phase, side: Side)
    requires p.Payload?
  {
    InTurn(p.header, side) && Takes(side, p.header.stream, KindOf(p.header))
  }

  /** What of the bytes to come reaches the stream. */
  function Arriving(p: Phase, side: Side, s: Bytes): seq<Event>
    requires p.Payload?
  {
    var prefix := Prefix(p.header);
    if Reaches(p, side)
    then RangeEvents(p.header, side, Max(p.offset, prefix) - prefix, Part(prefix, Limit(p.header, p.pad), p.offset, s))
    else []
  }

  lemma ArrivingBeyond(p: Phase, side: Side, s: Bytes)
    requires p.Payload? && p.offset >= Limit(p.header, p.pad)
    ensures Arriving(p, side, s) == []
  {
    PartBeyond(Prefix(p.header), Limit(p.header, p.pad), p.offset, s);
  }

  /** What one piece delivers. */
  lemma PieceBytes(p: Phase, chunk: Bytes, side: Side, events: seq<Event>)
    requires p.Payload? && FitsFrame(p) && InTurn(p.header, side)
    ensures BytesOf(StreamPiece(p, chunk, side, events).events) == BytesOf(events) + Arriving(p, side, chunk)
  {
    hide BytesOf, RangeEvents, EndEvents, Received, Failed, Advance, Prefix, Part, Signals, EndsStream, Bit;
    var h, prefix := p.header, Prefix(p.header);
    var part := Part(prefix, Limit(h, p.pad), p.offset, chunk);
    var signal := Signals(h) && p.offset + |chunk| >= Limit(h, p.pad);
    var range, ends := RangeEvents(h, side, Max(p.offset, prefix) - prefix, part), EndEvents(h, side, signal);
    BytesConcat(events, range);
    BytesConcat(events + range, ends);
    RangeIsBytes(h, side, Max(p.offset, prefix) - prefix, part);
    EndIsNoByte(h, side, signal);
    OneMoreEvent(events, StreamError(h.stream));
    NoRange(h, side, Max(p.offset, prefix) - prefix);
    assert BytesOf(events) + [] == BytesOf(events);
    assert BytesOf(events) + range + [] == BytesOf(events) + range;
  }

  lemma NoRange(h: FrameHeader, side: Side, at: nat)
    ensures RangeEvents(h, side, at, []) == []
  {
  }

  /** A stream that does not take the frame does not take its next piece either. */
  lemma StaysRefused(p: Phase, chunk: Bytes, side: Side, events: seq<Event>)
    requires p.Payload? && FitsFrame(p) && !Takes(side, p.header.stream, KindOf(p.header))
    ensures var c := StreamPiece(p, chunk, side, events);
            c.Conn? ==> !Takes(c.side, p.header.stream, KindOf(p.header))
  {
    hide Part, RangeEvents, EndEvents, Prefix, Bit, Signals;
  }

  /** One that does takes the next, until the end. */
  lemma StaysTaken(p: Phase, chunk: Bytes, side: Side, events: seq<Event>)
    requires p.Payload? && FitsFrame(p) && Reaches(p, side) && p.offset + |chunk| < Limit(p.header, p.pad)
    ensures var c := StreamPiece(p, chunk, side, events);
            c.Conn? && c.phase == p.(offset := p.offset + |chunk|) && Reaches(c.phase, c.side) &&
            c.side.blockBytes == side.blockBytes
  {
    hide Part, RangeEvents, EndEvents, Prefix, Bit, Signals, Received;
    ReceivedTwice(side, p.header.stream, KindOf(p.header), false);
  }

  /** A piece and what follows it deliver together what they deliver in a row. */
  lemma PieceThen(p: Phase, chunk: Bytes, rest: Bytes, side: Side, events: seq<Event>)
    requires p.Payload? && FitsFrame(p) && InTurn(p.header, side)
    ensures var c := StreamPiece(p, chunk, side, events);
            && (c.Conn? ==> c.phase.Payload? && c.phase == p.(offset := p.offset + |chunk|, refused := c.phase.refused))
            && BytesOf(c.events) + (if c.Conn? then Arriving(c.phase, c.side, rest) else [])
               == BytesOf(events) + Arriving(p, side, chunk + rest)
  {
    hide BytesOf, StreamPiece, Part, RangeEvents, Takes, Prefix;
    PieceBytes(p, chunk, side, events);
    PieceMoves(p, chunk, side, events);
    var c := StreamPiece(p, chunk, side, events);
    var h, prefix, limit := p.header, Prefix(p.header), Limit(p.header, p.pad);
    if !Takes(side, h.stream, KindOf(h)) {
      StaysRefused(p, chunk, side, events);
      assert BytesOf(c.events) + [] == BytesOf(c.events);
    } else {
      PartConcat(prefix, limit, p.offset, chunk, rest);
      var now, later := Part(prefix, limit, p.offset, chunk), Part(prefix, limit, p.offset + |chunk|, rest);
      var at := Max(p.offset, prefix) - prefix;
      RangeConcat(h, side, at, now, later);
      if p.offset + |chunk| < limit {
        StaysTaken(p, chunk, side, events);
        PartSize(prefix, limit, p.offset, chunk);
        RangeSame(h, side, c.side, at + |now|, later);
        JoinBytes(BytesOf(events), RangeEvents(h, side, at, now), RangeEvents(h, side, at + |now|, later));
      } else {
        PartBeyond(prefix, limit, p.offset + |chunk|, rest);
        NoRange(h, side, at + |now|);
        if c.Conn? { ArrivingBeyond(c.phase, c.side, rest); }
        var range := RangeEvents(h, side, at, now);
        assert range + [] == range && BytesOf(c.events) + [] == BytesOf(c.events);
      }
    }
  }

  lemma JoinBytes(a: seq<Event>, b: seq<Event>, c: seq<Event>)
    ensures a + b + c == a + (b + c)
  {
  }

  /** What the rest of a frame delivers in the reads it arrives in. */
  lemma {:induction false} LaterBytes(c: Conn, pieces: seq<Bytes>, env: Env)
    requires c.Conn? && c.phase.Payload? && c.phase.offset > 0 && OnStream(c.phase.header) && Ready(c)
    requires Within(pieces, c.phase.header.length - c.phase.offset)
    ensures BytesOf(ReadAll(c, pieces, env).events)
         == BytesOf(c.events) + Arriving(c.phase, c.side, Concat(pieces))
    decreases |pieces|, 0
  {
    hide BytesOf, StreamPiece, Arriving, Read, Within, Prefix;
    var p, h := c.phase, c.phase.header;
    if pieces == [] {
      ArrivingNone(p, c.side);
      assert BytesOf(c.events) + [] == BytesOf(c.events);
    } else {
      WithinTail(pieces, h.length - p.offset);
      ReadInFrame(c, pieces[0], env);
      var rest := Concat(pieces[1..]);
      if !InTurn(h, c.side) {
        OutOfTurnArrives(p, c.side, pieces[0] + rest);
        ReadAllStopped(Read(c, pieces[0], env), pieces[1..], env);
        assert BytesOf(c.events) + [] == BytesOf(c.events);
      } else {
        PieceThen(p, pieces[0], rest, c.side, c.events);
        SettleReady(p, pieces[0], c.side, c.events, env);
        AfterPiece(StreamPiece(p, pieces[0], c.side, c.events), pieces[1..], env);
      }
    }
  }

  lemma ArrivingNone(p: Phase, side: Side)
    requires p.Payload?
    ensures Arriving(p, side, []) == []
  {
    PartOfNone(Prefix(p.header), Limit(p.header, p.pad), p.offset);
  }

  lemma OutOfTurnArrives(p: Phase, side: Side, s: Bytes)
    requires p.Payload? && !InTurn(p.header, side)
    ensures Arriving(p, side, s) == []
  {
  }

  lemma {:induction false} ReadAllStopped(c: Conn, pieces: seq<Bytes>, env: Env)
    requires c.Stopped?
    ensures ReadAll(c, pieces, env) == c
    decreases |pieces|
  {
    if pieces != [] {
      ReadStopped(c, pieces[0], env);
      ReadAllStopped(c, pieces[1..], env);
    }
  }

  /** From the end of a piece on: the frame stopped the connection, is over, or goes on. */
  lemma AfterPiece(d: Conn, pieces: seq<Bytes>, env: Env)
    requires d.Conn? ==> d.phase.Payload? && OnStream(d.phase.header) && d.phase.offset > 0 && Ready(Settle(d, env))
    requires d.Conn? ==> Within(pieces, d.phase.header.length - d.phase.offset)
    ensures BytesOf(ReadAll(Settle(d, env), pieces, env).events)
         == BytesOf(d.events) + (if d.Conn? then Arriving(d.phase, d.side, Concat(pieces)) else [])
    decreases |pieces|, 1
  {
    hide BytesOf, Arriving, Within;
    assert BytesOf(d.events) + [] == BytesOf(d.events);
    if d.Stopped? {
      ReadAllStopped(d, pieces, env);
    } else if d.phase.offset >= d.phase.header.length {
      if pieces != [] { WithinTail(pieces, d.phase.header.length - d.phase.offset); }
      ArrivingNone(d.phase, d.side);
    } else {
      LaterBytes(d, pieces, env);
    }
  }

  /**
   However a DATA, HEADERS or CONTINUATION frame is cut into reads, harmful or not, its stream gets
   exactly the bytes between prefix and padding, once and in order, if it takes the frame, and
   otherwise none.
   */
  lemma BytesArriveHoweverCut(h: FrameHeader, payload: Bytes, pieces: seq<Bytes>, side: Side, events: seq<Event>,
                              env: Env)
    requires OnStream(h) && payload != [] && |payload| == h.length && Concat(pieces) == payload
    requires forall i :: 0 <= i < |pieces| ==> pieces[i] != []
    ensures BytesOf(ReadAll(AtStart(h, side, events), pieces, env).events) ==
            BytesOf(events) +
            (if Taken(h, payload, side, events, env) then RangeEvents(h, side, 0, Body(h, payload)) else [])
  {
    hide BytesOf, StreamPiece, Arriving, Read, Start, Prefix, RangeEvents, Within, Takes;
    var c, first, rest := AtStart(h, side, events), pieces[0], pieces[1..];
    assert Within(pieces, h.length) by { AllWithin(pieces, h.length); }
    WithinTail(pieces, h.length);
    assert first[0] == payload[0];
    var pad := PadOf(h, payload[0]);
    ReadInFrame(c, first, env);
    SettleReady(c.phase, first, side, events, env);
    var d := Start(h, pad, side, events, env);
    if !InTurn(h, side) { OutOfTurn(h, pad, side, events, env); }
    assert BytesOf(events) + [] == BytesOf(events);
    if d.Stopped? {
      StartStops(h, pad, side, events, env);
      ReadAllStopped(d, rest, env);
    } else {
      StartInTurn(h, pad, side, events, env);
      StartBytes(h, pad, side, events, env);
      PieceThen(d.phase, first, Concat(rest), d.side, d.events);
      AfterPiece(StreamPiece(d.phase, first, d.side, d.events), rest, env);
      ArrivingWhole(h, payload, pad, side, d.side);
    }
  }

  lemma AllWithin(pieces: seq<Bytes>, n: int)
    requires forall i :: 0 <= i < |pieces| ==> pieces[i] != []
    requires |Concat(pieces)| <= n
    ensures Within(pieces, n)
  {
  }

  lemma StartStops(h: FrameHeader, pad: nat, side: Side, events: seq<Event>, env: Env)
    ensures Start(h, pad, side, events, env).Stopped? ==> Start(h, pad, side, events, env) == Stopped(events)
  {
  }

  lemma StartBytes(h: FrameHeader, pad: nat, side: Side, events: seq<Event>, env: Env)
    ensures var c := Start(h, pad, side, events, env);
            c.Conn? ==> BytesOf(c.events) == BytesOf(events) && c.side.blockBytes == side.blockBytes
  {
    hide BytesOf;
    OneMoreEvent(events, Opened(h.stream));
  }

  lemma ArrivingWhole(h: FrameHeader, payload: Bytes, pad: nat, side: Side, now: Side)
    requires payload != [] && |payload| == h.length && pad == PadOf(h, payload[0]) && Prefix(h) + pad <= h.length
    requires InTurn(h, now) && now.blockBytes == side.blockBytes
    ensures Arriving(Payload(h, 0, [], pad, false), now, payload) ==
            if Takes(now, h.stream, KindOf(h)) then RangeEvents(h, side, 0, Body(h, payload)) else []
  {
    hide Part, RangeEvents, Prefix;
    WholePart(h, payload, pad);
    RangeSame(h, now, side, 0, Body(h, payload));
  }
}
