/**
 Inbound HTTP/2 framing: the bytes of a connection arrive in reads of any size.
 The reference is a machine that takes one byte at a time and treats every frame
 as if it had arrived whole; Http2FrameReader holds the read loop, which handles
 each frame in the pieces the reads cut it into.
 */
module Http2Inbound {
  import opened Octets
  import Send = Http2Send

  // ---------------------------------------------------------------- frame headers

  datatype FrameHeader = FrameHeader(length: nat, kind: Byte, flags: Byte, stream: nat)

  const HEADER_SIZE: nat := 9

  /** A big-endian number. */
  function Number(s: Bytes): nat {
    if s == [] then 0 else Number(s[..|s| - 1]) * 256 + s[|s| - 1]
  }

  /** The nine bytes of encode_http2_frame_header. */
  function EncodeHeader(h: FrameHeader): (r: Bytes)
    ensures |r| == HEADER_SIZE
  {
    [h.length / 0x1_0000 % 0x100, h.length / 0x100 % 0x100, h.length % 0x100, h.kind, h.flags,
     h.stream / 0x100_0000 % 0x80, h.stream / 0x1_0000 % 0x100, h.stream / 0x100 % 0x100, h.stream % 0x100]
  }

  /** Four bytes, the most significant first. */
  function Word(a: int, b: int, c: int, d: int): int {
    a * 0x100_0000 + b * 0x1_0000 + c * 0x100 + d
  }

  /** parse_frame_length and parse_stream_id: the top bit of the stream identifier is ignored. */
  function ParseHeader(s: Bytes): FrameHeader
    requires |s| == HEADER_SIZE
  {
    FrameHeader(Word(0, s[0], s[1], s[2]), s[3], s[4], Word(s[5] % 0x80, s[6], s[7], s[8]))
  }

  /** A header parses back to what was encoded, as far as it fits 24 bits of length and 31 of stream identifier. */
  lemma HeaderRoundTrip(h: FrameHeader)
    ensures ParseHeader(EncodeHeader(h)) == h.(length := h.length % 0x100_0000, stream := h.stream % 0x8000_0000)
  {
    hide Word;
    Digits3(h.length);
    Digits4(h.stream);
    assert h.stream / 0x100_0000 % 0x80 % 0x80 == h.stream / 0x100_0000 % 0x80;
  }

  /** Splitting off the last byte of numbers of two, three and nearly four bytes. */
  lemma LastByte2(n: nat)
    ensures n % 0x1_0000 == n / 0x100 % 0x100 * 0x100 + n % 0x100
  {
    var q, r := n / 0x100, n % 0x100;
    assert n == q * 0x100 + r && q == q / 0x100 * 0x100 + q % 0x100;
  }

  lemma LastByte3(n: nat)
    ensures n % 0x100_0000 == n / 0x100 % 0x1_0000 * 0x100 + n % 0x100
  {
  }

  lemma LastByte4(n: nat)
    ensures n % 0x8000_0000 == n / 0x100 % 0x80_0000 * 0x100 + n % 0x100
  {
  }

  lemma LastByte23(n: nat)
    ensures n % 0x80_0000 == n / 0x100 % 0x8000 * 0x100 + n % 0x100
  {
  }

  lemma LastByte15(n: nat)
    ensures n % 0x8000 == n / 0x100 % 0x80 * 0x100 + n % 0x100
  {
  }

  lemma Shifts(n: nat)
    ensures n / 0x100 / 0x100 == n / 0x1_0000 && n / 0x1_0000 / 0x100 == n / 0x100_0000
  {
  }

  lemma Digits3(n: nat)
    ensures Word(0, n / 0x1_0000 % 0x100, n / 0x100 % 0x100, n % 0x100) == n % 0x100_0000
  {
    LastByte3(n);
    LastByte2(n / 0x100);
    Shifts(n);
  }

  lemma Digits4(n: nat)
    ensures Word(n / 0x100_0000 % 0x80, n / 0x1_0000 % 0x100, n / 0x100 % 0x100, n % 0x100) == n % 0x8000_0000
  {
    LastByte4(n);
    LastByte23(n / 0x100);
    LastByte15(n / 0x1_0000);
    Shifts(n);
  }

  lemma WordDigits(a: int, b: int, c: int, d: int)
    requires 0 <= a < 0x80 && 0 <= b < 0x100 && 0 <= c < 0x100 && 0 <= d < 0x100
    ensures var n := Word(a, b, c, d);
            n / 0x100_0000 % 0x80 == a && n / 0x1_0000 % 0x100 == b && n / 0x100 % 0x100 == c && n % 0x100 == d
  {
    var n := Word(a, b, c, d);
    assert n / 0x100_0000 == a && n / 0x1_0000 == a * 0x100 + b && n / 0x100 == (a * 0x100 + b) * 0x100 + c;
  }

  /** The other way round: nine bytes are what encoding their header gives, but for the reserved bit. */
  lemma HeaderReEncodes(s: Bytes)
    requires |s| == HEADER_SIZE
    ensures EncodeHeader(ParseHeader(s)) == s[5 := s[5] % 0x80]
  {
    WordDigits(0, s[0], s[1], s[2]);
    WordDigits(s[5] % 0x80, s[6], s[7], s[8]);
  }

  // ---------------------------------------------------------------- what the connection sees

  const DATA: int := 0
  const HEADERS: int := 1
  const RST_STREAM: int := 3
  const SETTINGS: int := 4
  const PING: int := 6
  const GOAWAY: int := 7
  const WINDOW_UPDATE: int := 8
  const CONTINUATION: int := 9

  datatype Event =
    | Frame(header: FrameHeader)
    | Parameter(id: nat, value: nat)
    | SendSettingsAck
    | SettingsAcked
    | Ping(payload: Bytes, ack: bool)
    | WindowUpdate(stream: nat, increment: nat)
    | Reset(stream: nat, code: nat)
    | Goaway(last: nat, code: nat)
    | Opened(stream: nat)
    | Data(stream: nat, offset: nat, byte: Byte)
    | DataEnd(stream: nat)
    | Fragment(stream: nat, offset: nat, byte: Byte)
    | FragmentsEnd(stream: nat, endStream: bool)
    | StreamError(stream: nat)

  /**
   The frame size the connection allows, its role, and its verdict on an event given all that came
   before: whether a parameter is applied, an answer can be queued, a window has room, a new stream
   is admitted. When an event brings credit, `starts` says whether a frame of the stream goes out on
   it, and `remains` whether the stream still has something queued.
   */
  datatype Env = Env(maxFrame: nat, client: bool, accepts: seq<Event> -> bool,
                     starts: (seq<Event>, nat) -> bool, remains: (seq<Event>, nat) -> bool)

  /** A stream of the table. It has entries queued for sending, and entries with a frame in flight. */
  datatype Peer = Peer(state: Send.StreamState, queued: bool, flying: bool)

  /**
   What the payload handlers share: the streams, the highest ids on either side, and the header
   block that is being received.
   */
  datatype Side = Side(
    streams: map<nat, Peer>, lastPeer: nat, lastLocal: nat,
    expecting: bool, blockStream: nat, blockBytes: nat, blockEnd: bool)

  /**
   In the middle of a payload, `held` is what the scratch buffer holds, and `refused` records that
   the stream has refused what came so far. The read loop itself never looks at `refused`.
   */
  datatype Phase = Preface | Header | Payload(header: FrameHeader, offset: nat, held: Bytes, pad: nat, refused: bool)

  /** The read loop between two reads, or stopped by an error. */
  datatype Conn = Conn(phase: Phase, unread: Bytes, side: Side, events: seq<Event>) | Stopped(events: seq<Event>)

  function Bit(h: FrameHeader, bit: nat): bool
    requires bit > 0
  {
    h.flags / bit % 2 == 1
  }

  predicate IsAck(h: FrameHeader) { Bit(h, 1) }

  predicate IsEndStream(h: FrameHeader) { Bit(h, 1) }

  predicate IsEndHeaders(h: FrameHeader) { Bit(h, 4) }

  predicate IsPadded(h: FrameHeader) { (h.kind == DATA || h.kind == HEADERS) && Bit(h, 8) }

  predicate IsPriority(h: FrameHeader) { h.kind == HEADERS && Bit(h, 32) }

  /** Frames whose payload goes to a stream. */
  predicate OnStream(h: FrameHeader) {
    h.kind == DATA || h.kind == HEADERS || h.kind == CONTINUATION
  }

  /** The checks made on the header alone, with the first byte of a payload or at once if it is empty. */
  predicate StartOk(h: FrameHeader) {
    if h.kind == DATA || h.kind == HEADERS then h.stream != 0
    else if h.kind == SETTINGS then h.stream == 0 && (if IsAck(h) then h.length == 0 else h.length % 6 == 0)
    else if h.kind == PING then h.stream == 0 && h.length == 8
    else if h.kind == WINDOW_UPDATE then h.length == 4
    else if h.kind == RST_STREAM then h.stream != 0 && h.length == 4
    else if h.kind == GOAWAY then h.stream == 0 && h.length >= 8
    else true
  }

  /** Only CONTINUATION may follow an unfinished header block, and it may follow nothing else. */
  predicate InTurn(h: FrameHeader, side: Side) {
    side.expecting == (h.kind == CONTINUATION)
  }

  // ---------------------------------------------------------------- streams

  predicate IsLocal(id: nat, env: Env) {
    id != 0 && (id % 2 == 1) == env.client
  }

  predicate IsIdle(side: Side, id: nat, env: Env) {
    id != 0 && id !in side.streams && (if IsLocal(id, env) then id > side.lastLocal else id > side.lastPeer)
  }

  predicate Takes(side: Side, id: nat, kind: Send.PendingKind) {
    id in side.streams && Send.MayReceive(side.streams[id].state, kind)
  }

  /** The stream takes a piece; closed on both sides and with nothing left to send, it leaves the table. */
  function Received(side: Side, id: nat, end: bool): Side
    requires id in side.streams
  {
    var peer := side.streams[id];
    var next := peer.(state := Send.AfterReceive(peer.state, end));
    if next.state.Closed? && !peer.queued && !peer.flying then side.(streams := side.streams - {id})
    else side.(streams := side.streams[id := next])
  }

  /** The stream is closed at once; it stays in the table only while one of its frames is in flight. */
  function Failed(side: Side, id: nat): Side {
    if id !in side.streams then side
    else if side.streams[id].flying then side.(streams := side.streams[id := Peer(Send.Closed, false, true)])
    else side.(streams := side.streams - {id})
  }

  /** GOAWAY: streams of ours above the peer's last one are closed. */
  function FailedAfter(side: Side, last: nat, env: Env): Side {
    side.(streams := map id | id in side.streams && !(IsLocal(id, env) && id > last && !side.streams[id].flying) ::
                       if IsLocal(id, env) && id > last then Peer(Send.Closed, false, true) else side.streams[id])
  }

  /** Credit has come for some streams: what they have queued may go out. */
  function Served(side: Side, ids: set<nat>, events: seq<Event>, env: Env): Side {
    side.(streams := map id | id in side.streams ::
                       var peer := side.streams[id];
                       if id !in ids || !peer.queued then peer
                       else peer.(queued := env.remains(events, id), flying := peer.flying || env.starts(events, id)))
  }

  // ---------------------------------------------------------------- frames of a stream

  /** Pad length and priority, which precede what the stream gets. */
  function Prefix(h: FrameHeader): nat {
    (if IsPadded(h) then 1 else 0) + (if IsPriority(h) then 5 else 0)
  }

  /** Where what the stream gets ends and the padding begins. */
  function Limit(h: FrameHeader, pad: nat): int {
    h.length - pad
  }

  function KindOf(h: FrameHeader): Send.PendingKind {
    if h.kind == DATA then Send.Data else Send.Header
  }

  /** The flag that makes the end of this frame the end of something. */
  predicate Signals(h: FrameHeader) {
    if h.kind == DATA then IsEndStream(h) else IsEndHeaders(h)
  }

  predicate EndsStream(h: FrameHeader, side: Side) {
    if h.kind == DATA then true else if h.kind == HEADERS then IsEndStream(h) else side.blockEnd
  }

  function ByteEvent(h: FrameHeader, side: Side, at: nat, b: Byte): Event {
    if h.kind == DATA then Data(h.stream, at, b) else Fragment(h.stream, side.blockBytes + at, b)
  }

  function RangeEvents(h: FrameHeader, side: Side, at: nat, bytes: Bytes): seq<Event>
    decreases |bytes|
  {
    if bytes == [] then [] else [ByteEvent(h, side, at, bytes[0])] + RangeEvents(h, side, at + 1, bytes[1..])
  }

  function EndEvents(h: FrameHeader, side: Side, signal: bool): seq<Event> {
    if !signal then [] else [if h.kind == DATA then DataEnd(h.stream) else FragmentsEnd(h.stream, EndsStream(h, side))]
  }

  /** The header block after the last byte of a fragment. */
  function Advance(h: FrameHeader, pad: nat, side: Side): Side
    requires Prefix(h) <= Limit(h, pad)
  {
    if h.kind == DATA then side
    else if IsEndHeaders(h) then side.(expecting := false, blockStream := 0, blockBytes := 0, blockEnd := false)
    else side.(expecting := true, blockBytes := side.blockBytes + Limit(h, pad) - Prefix(h))
  }

  /** What the first piece of a payload is checked for, and what it sets up. */
  function Start(h: FrameHeader, pad: nat, side: Side, events: seq<Event>, env: Env): Conn {
    var p := Payload(h, 0, [], pad, false);
    if !InTurn(h, side) || !StartOk(h) then Stopped(events)
    else if !OnStream(h) then Conn(p, [], side, events)
    else if h.length < Prefix(h) + pad || (h.kind == CONTINUATION && h.stream != side.blockStream) then Stopped(events)
    else if h.kind == HEADERS then
      var block := side.(blockStream := h.stream, blockEnd := IsEndStream(h));
      if !IsIdle(side, h.stream, env) then
        if h.stream in side.streams then Conn(p, [], block, events) else Stopped(events)
      else if IsLocal(h.stream, env) || !env.accepts(events + [Opened(h.stream)]) then Stopped(events)
      else
        Conn(p, [], block.(streams := side.streams[h.stream := Peer(Send.Idle, false, false)], lastPeer := h.stream),
             events + [Opened(h.stream)])
    else if h.stream in side.streams then Conn(p, [], side, events)
    else Stopped(events)
  }

  /** The part of a piece that lies between the prefix and the padding. */
  function Part(prefix: nat, limit: int, offset: nat, chunk: Bytes): Bytes {
    var begin, end := Max(offset, prefix), Min(offset + |chunk|, limit);
    if begin < end then chunk[begin - offset..end - offset] else []
  }

  function Max(a: int, b: int): int { if a < b then b else a }

  /**
   A piece of a frame for a stream: handle_data_payload, handle_headers_payload and
   handle_continuation_payload, past their checks of a first piece.
   */
  function StreamPiece(p: Phase, chunk: Bytes, side: Side, events: seq<Event>): Conn
    requires p.Payload? && Prefix(p.header) <= Limit(p.header, p.pad)
  {
    var h := p.header;
    var next := p.(offset := p.offset + |chunk|);
    var part := Part(Prefix(h), Limit(h, p.pad), p.offset, chunk);
    var over := p.offset + |chunk| >= Limit(h, p.pad);
    var signal := Signals(h) && over;
    if h.stream !in side.streams then Stopped(events)
    else if part == [] && !signal then Conn(next, [], if over then Advance(h, p.pad, side) else side, events)
    else if !Takes(side, h.stream, KindOf(h)) then
      Conn(next.(refused := true), [], Failed(side, h.stream), events + [StreamError(h.stream)])
    else
      var taken := Received(side, h.stream, signal && EndsStream(h, side));
      Conn(next, [], if over then Advance(h, p.pad, taken) else taken,
           events + RangeEvents(h, side, Max(p.offset, Prefix(h)) - Prefix(h), part) + EndEvents(h, side, signal))
  }

  // ---------------------------------------------------------------- the end of a payload

  /** An event goes through or stops the connection. */
  function Offer(events: seq<Event>, e: Event, phase: Phase, side: Side, env: Env): Conn {
    if env.accepts(events + [e]) then Conn(phase, [], side, events + [e]) else Stopped(events + [e])
  }

  /** An event that, if it goes through, brings credit. */
  function OfferCredit(events: seq<Event>, e: Event, phase: Phase, side: Side, env: Env): Conn {
    if env.accepts(events + [e])
    then Conn(phase, [], Served(side, side.streams.Keys, events + [e], env), events + [e])
    else Stopped(events + [e])
  }

  function FinishWindowUpdate(stream: nat, increment: nat, side: Side, events: seq<Event>, env: Env): Conn {
    var e := WindowUpdate(stream, increment);
    if stream == 0 then if increment == 0 then Stopped(events) else OfferCredit(events, e, Header, side, env)
    else if increment == 0 then Conn(Header, [], Failed(side, stream), events + [StreamError(stream)])
    else if stream !in side.streams then
      if IsIdle(side, stream, env) then Stopped(events) else Conn(Header, [], side, events)
    else if env.accepts(events + [e]) then Conn(Header, [], Served(side, {stream}, events + [e], env), events + [e])
    else Conn(Header, [], Failed(side, stream), events + [StreamError(stream)])
  }

  function FinishReset(stream: nat, code: nat, side: Side, events: seq<Event>, env: Env): Conn {
    if stream in side.streams then Conn(Header, [], Failed(side, stream), events + [Reset(stream, code)])
    else if IsIdle(side, stream, env) then Stopped(events)
    else Conn(Header, [], side, events)
  }

  function FinishGoaway(last: nat, code: nat, side: Side, events: seq<Event>, env: Env): Conn {
    Conn(Header, [], FailedAfter(side, last, env), events + [Goaway(last, code)])
  }

  function Finish(h: FrameHeader, held: Bytes, side: Side, events: seq<Event>, env: Env): Conn {
    if h.kind == SETTINGS && IsAck(h) then Conn(Header, [], side, events + [SettingsAcked])
    else if h.kind == SETTINGS then Offer(events, SendSettingsAck, Header, side, env)
    else if h.kind == PING && IsAck(h) then Conn(Header, [], side, events + [Ping(held, true)])
    else if h.kind == PING then Offer(events, Ping(held, false), Header, side, env)
    else if h.kind == WINDOW_UPDATE then
      FinishWindowUpdate(h.stream, Number(held) % 0x8000_0000, side, events, env)
    else if h.kind == RST_STREAM then FinishReset(h.stream, Number(held), side, events, env)
    else if h.kind == GOAWAY && |held| >= 8 then
      FinishGoaway(Number(held[..4]) % 0x8000_0000, Number(held[4..8]), side, events, env)
    else Conn(Header, [], side, events)
  }

  /** A frame without a payload. */
  function Empty(h: FrameHeader, side: Side, events: seq<Event>, env: Env): Conn
    requires h.length == 0
  {
    var c := Start(h, 0, side, events, env);
    if c.Stopped? then c
    else if !OnStream(h) then Finish(h, [], side, events, env)
    else
      var q := StreamPiece(c.phase, [], c.side, c.events);
      if q.Stopped? then q else Conn(Header, [], q.side, q.events)
  }

  /** A frame header has been read. */
  function Begin(h: FrameHeader, side: Side, events: seq<Event>, env: Env): Conn {
    if h.length > env.maxFrame then Stopped(events)
    else if h.length > 0 then Conn(Payload(h, 0, [], 0, false), [], side, events + [Frame(h)])
    else Empty(h, side, events + [Frame(h)], env)
  }

  // ---------------------------------------------------------------- one byte at a time

  const PREFACE: Bytes :=
    [0x50, 0x52, 0x49, 0x20, 0x2A, 0x20, 0x48, 0x54, 0x54, 0x50, 0x2F, 0x32, 0x2E, 0x30, 0x0D, 0x0A, 0x0D, 0x0A,
     0x53, 0x4D, 0x0D, 0x0A, 0x0D, 0x0A]

  /** Nothing that follows in this frame concerns the stream: it is padding, or the stream has refused the frame. */
  predicate IsOver(p: Phase)
    requires p.Payload?
  {
    p.refused || p.offset >= Limit(p.header, p.pad)
  }

  /** The phase of a frame for a stream is one a first piece could have led to. */
  predicate FitsFrame(p: Phase)
    requires p.Payload?
  {
    Prefix(p.header) <= Limit(p.header, p.pad)
  }

  /** A byte of a frame for a stream that has passed its first checks. */
  function StreamByte(p: Phase, b: Byte, side: Side, events: seq<Event>): Conn
    requires p.Payload? && FitsFrame(p)
  {
    if IsOver(p) then Conn(p.(offset := p.offset + 1), [], side, events) else StreamPiece(p, [b], side, events)
  }

  function PadOf(h: FrameHeader, first: Byte): nat {
    if IsPadded(h) then first else 0
  }

  /** A byte of a payload that is not the first, before the payload's end is looked at. */
  function AbsorbMore(p: Phase, b: Byte, side: Side, events: seq<Event>, env: Env): Conn
    requires p.Payload?
  {
    var h := p.header;
    var next := p.(offset := p.offset + 1);
    if OnStream(h) then if FitsFrame(p) then StreamByte(p, b, side, events) else Stopped(events)
    else if h.kind == SETTINGS then
      var held := p.held + [b];
      if |held| < 6 then Conn(next.(held := held), [], side, events)
      else OfferCredit(events, Parameter(Number(held[..2]), Number(held[2..])), next.(held := []), side, env)
    else if h.kind == GOAWAY then
      Conn(if |p.held| < 8 then next.(held := p.held + [b]) else next, [], side, events)
    else if IsControl(h) then Conn(next.(held := p.held + [b]), [], side, events)
    else Conn(next, [], side, events)
  }

  predicate IsControl(h: FrameHeader) {
    h.kind == PING || h.kind == WINDOW_UPDATE || h.kind == RST_STREAM
  }

  function Absorb(p: Phase, b: Byte, side: Side, events: seq<Event>, env: Env): Conn
    requires p.Payload?
  {
    if p.offset > 0 then AbsorbMore(p, b, side, events, env)
    else
      var c := Start(p.header, PadOf(p.header, b), side, events, env);
      if c.Stopped? then c else AbsorbMore(c.phase, b, c.side, c.events, env)
  }

  /** The payload may be over. */
  function Settle(c: Conn, env: Env): Conn {
    if c.Conn? && c.phase.Payload? && c.phase.offset >= c.phase.header.length
    then Finish(c.phase.header, c.phase.held, c.side, c.events, env) else c
  }

  function Eat(c: Conn, b: Byte, env: Env): Conn {
    if c.Stopped? then c
    else
      match c.phase
      case Preface =>
        var u := c.unread + [b];
        if |u| < |PREFACE| then c.(unread := u)
        else if u == PREFACE then Conn(Header, [], c.side, c.events)
        else Stopped(c.events)
      case Header =>
        var u := c.unread + [b];
        if |u| == HEADER_SIZE then Begin(ParseHeader(u), c.side, c.events, env) else c.(unread := u)
      case Payload(_, _, _, _, _) => Settle(Absorb(c.phase, b, c.side, c.events, env), env)
  }

  function EatAll(c: Conn, s: Bytes, env: Env): Conn
    decreases |s|
  {
    if s == [] then c else EatAll(Eat(c, s[0], env), s[1..], env)
  }

  lemma {:induction false} EatConcat(c: Conn, s: Bytes, t: Bytes, env: Env)
    ensures EatAll(c, s + t, env) == EatAll(EatAll(c, s, env), t, env)
    decreases |s|
  {
    hide Eat;
    if s == [] {
      assert s + t == t;
    } else {
      assert (s + t)[1..] == s[1..] + t;
      EatConcat(Eat(c, s[0], env), s[1..], t, env);
    }
  }

  lemma {:induction false} EatStopped(c: Conn, s: Bytes, env: Env)
    requires c.Stopped?
    ensures EatAll(c, s, env) == c
    decreases |s|
  {
    if s != [] { EatStopped(c, s[1..], env); }
  }

  /** Bytes of a payload absorbed one by one, the end not looked at. */
  function AbsorbAll(p: Phase, s: Bytes, side: Side, events: seq<Event>, env: Env): Conn
    requires p.Payload?
    decreases |s|
  {
    if s == [] then Conn(p, [], side, events)
    else
      var c := Absorb(p, s[0], side, events, env);
      if c.Stopped? || !c.phase.Payload? then c else AbsorbAll(c.phase, s[1..], c.side, c.events, env)
  }

  lemma AbsorbMoves(p: Phase, b: Byte, side: Side, events: seq<Event>, env: Env)
    requires p.Payload?
    ensures var c := Absorb(p, b, side, events, env);
            c.Conn? ==> && c.unread == [] && c.phase.Payload? && c.phase.header == p.header
                        && c.phase.offset == p.offset + 1
  {
    hide Number, RangeEvents, EndEvents, Advance, Received, Failed, Part, Bit, Takes, Signals;
  }

  /** A run of payload bytes taken together, up to the payload's end. */
  lemma {:induction false} EatPayload(p: Phase, s: Bytes, side: Side, events: seq<Event>, env: Env)
    requires p.Payload? && p.offset < p.header.length && p.offset + |s| <= p.header.length
    ensures EatAll(Conn(p, [], side, events), s, env) == Settle(AbsorbAll(p, s, side, events, env), env)
    decreases |s|
  {
    hide Absorb, Finish;
    if s != [] {
      AbsorbMoves(p, s[0], side, events, env);
      var c := Absorb(p, s[0], side, events, env);
      if c.Stopped? {
        EatStopped(c, s[1..], env);
      } else if |s| == 1 {
        assert s[1..] == [];
      } else {
        EatPayload(c.phase, s[1..], c.side, c.events, env);
      }
    }
  }
}
