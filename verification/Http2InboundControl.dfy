/**
 What each control frame does, from its fields as they are sent to the streams
 and the header block that remain, in whatever reads the frame arrives.
 */
module Http2InboundControl {
  import opened Octets
  import opened Http2Inbound
  import opened Http2FrameReader
  import opened Http2InboundTheorems
  import opened Http2InboundFrames
  import Send = Http2Send

  // ---------------------------------------------------------------- fields on the wire

  /** A number of 32 bits, most significant byte first. */
  function Word32(n: nat): Bytes {
    [n / 0x100_0000 % 0x100, n / 0x1_0000 % 0x100, n / 0x100 % 0x100, n % 0x100]
  }

  function Word16(n: nat): Bytes {
    [n / 0x100 % 0x100, n % 0x100]
  }

  lemma NumberOf4(a: Byte, b: Byte, c: Byte, d: Byte)
    ensures Number([a, b, c, d]) == ((a * 256 + b) * 256 + c) * 256 + d
  {
    assert [a, b, c, d][..3] == [a, b, c] && [a, b, c][..2] == [a, b] && [a, b][..1] == [a] && [a][..0] == [];
    assert Number([a]) == a;
    assert Number([a, b]) == a * 256 + b;
    assert Number([a, b, c]) == (a * 256 + b) * 256 + c;
  }

  lemma NumberOf2(a: Byte, b: Byte)
    ensures Number([a, b]) == a * 256 + b
  {
    assert [a, b][..1] == [a] && [a][..0] == [];
    assert Number([a]) == a;
  }

  lemma Split32(n: nat)
    requires n < 0x1_0000_0000
    ensures n == ((n / 0x100_0000 % 0x100 * 256 + n / 0x1_0000 % 0x100) * 256 + n / 0x100 % 0x100) * 256 + n % 0x100
  {
    Shifts(n);
    var a, b, c := n / 0x100, n / 0x1_0000, n / 0x100_0000;
    assert n == a * 256 + n % 0x100 && a == b * 256 + a % 0x100 && b == c * 256 + b % 0x100;
    assert c % 0x100 == c;
  }

  lemma WordReads(n: nat)
    requires n < 0x1_0000_0000
    ensures Number(Word32(n)) == n
  {
    NumberOf4(n / 0x100_0000 % 0x100, n / 0x1_0000 % 0x100, n / 0x100 % 0x100, n % 0x100);
    Split32(n);
  }

  lemma Word16Reads(n: nat)
    requires n < 0x1_0000
    ensures Number(Word16(n)) == n
  {
    NumberOf2(n / 0x100 % 0x100, n % 0x100);
  }

  // ---------------------------------------------------------------- what becomes of a table

  /** The header block and the highest identifiers are as before. */
  predicate SameBlockState(a: Side, b: Side) {
    b == a.(streams := b.streams)
  }

  predicate SameStream(a: Side, b: Side, id: nat) {
    (id in b.streams <==> id in a.streams) && (id in a.streams ==> b.streams[id] == a.streams[id])
  }

  /** The stream is closed and has nothing queued; it stays in the table only while a frame of it is in flight. */
  predicate IsClosed(a: Side, b: Side, id: nat) {
    && (id in b.streams <==> id in a.streams && a.streams[id].flying)
    && (id in b.streams ==> b.streams[id] == Peer(Send.Closed, false, true))
  }

  /** Credit has reached the stream: what it had queued may have gone out in part or whole. */
  predicate IsServed(a: Side, b: Side, id: nat, seen: seq<Event>, env: Env) {
    && (id in b.streams <==> id in a.streams)
    && (id in a.streams ==>
          var p := a.streams[id];
          b.streams[id] ==
            if p.queued then Peer(p.state, env.remains(seen, id), p.flying || env.starts(seen, id)) else p)
  }

  ghost predicate OnlyChanges(a: Side, b: Side, id: nat) {
    SameBlockState(a, b) && forall x :: x != id ==> SameStream(a, b, x)
  }

  ghost predicate ClosedAbove(a: Side, b: Side, last: nat, env: Env) {
    SameBlockState(a, b) &&
    forall id: nat :: if IsOurs(id, env) && id > last then IsClosed(a, b, id) else SameStream(a, b, id)
  }

  /** Odd streams are a client's, even ones a server's. */
  predicate IsOurs(id: nat, env: Env) {
    id != 0 && (if env.client then id % 2 == 1 else id % 2 == 0)
  }

  /** Nobody has used the stream yet. */
  predicate NeverUsed(side: Side, id: nat, env: Env) {
    id != 0 && id !in side.streams && id > if IsOurs(id, env) then side.lastLocal else side.lastPeer
  }

  lemma IdleIsNeverUsed(side: Side, id: nat, env: Env)
    ensures IsIdle(side, id, env) <==> NeverUsed(side, id, env)
    ensures IsLocal(id, env) <==> IsOurs(id, env)
  {
  }

  lemma FailedIs(side: Side, id: nat)
    ensures IsClosed(side, Failed(side, id), id) && OnlyChanges(side, Failed(side, id), id)
  {
  }

  lemma ServedIs(side: Side, ids: set<nat>, seen: seq<Event>, env: Env)
    ensures var q := Served(side, ids, seen, env);
            && SameBlockState(side, q)
            && forall id :: if id in ids then IsServed(side, q, id, seen, env) else SameStream(side, q, id)
  {
  }

  /** A stream in state `was` that has taken a piece. */
  function StateAfter(was: Send.StreamState, end: bool): Send.StreamState {
    if was.HalfClosedLocal? then if end then Send.Closed else Send.HalfClosedLocal
    else if end then Send.HalfClosedRemote
    else Send.Open
  }

  /** Exactly this stream has taken a piece; it leaves the table if both sides have ended and it sends nothing. */
  ghost predicate HasTaken(a: Side, b: Side, id: nat, end: bool)
    requires id in a.streams
  {
    var p := a.streams[id];
    && OnlyChanges(a, b, id)
    && (id in b.streams <==> !(end && p.state.HalfClosedLocal? && !p.queued && !p.flying))
    && (id in b.streams ==> b.streams[id] == p.(state := StateAfter(p.state, end)))
  }

  lemma ReceivedIs(side: Side, id: nat, kind: Send.PendingKind, end: bool)
    requires Takes(side, id, kind)
    ensures HasTaken(side, Received(side, id, end), id, end)
  {
  }

  // ---------------------------------------------------------------- the frames

  /** PING: the same eight bytes are sent back, unless they answer a PING of ours. */
  lemma PingFrame(data: Bytes, ack: bool, pieces: seq<Bytes>, side: Side, events: seq<Event>, env: Env)
    requires |data| == 8 && 8 <= env.maxFrame && !side.expecting
    requires Concat(pieces) == Wire(FrameHeader(8, 6, if ack then 1 else 0, 0), data)
    ensures var seen := events + [Frame(FrameHeader(8, 6, if ack then 1 else 0, 0)), Ping(data, ack)];
            var r := ReadAll(Conn(Header, [], side, events), pieces, env);
            r == if ack || env.accepts(seen) then Conn(Header, [], side, seen) else Stopped(seen)
  {
    hide ReadAll, Wire, Concat, Number;
    var h := FrameHeader(8, 6, if ack then 1 else 0, 0);
    ControlFrame(h, data, pieces, side, events, env);
    assert data[..8] == data;
    assert events + [Frame(h)] + [Ping(data, ack)] == events + [Frame(h), Ping(data, ack)];
  }

  /** GOAWAY: our streams above the last one named are closed, all others are left alone. */
  lemma GoawayFrame(last: nat, code: nat, debug: Bytes, flags: Byte, reserved: bool, pieces: seq<Bytes>, side: Side,
                    events: seq<Event>, env: Env)
    requires last < 0x8000_0000 && code < 0x1_0000_0000 && 8 + |debug| < 0x100_0000 && 8 + |debug| <= env.maxFrame
    requires !side.expecting
    requires Concat(pieces) == Wire(FrameHeader(8 + |debug|, 7, flags, 0),
                                    Word32(if reserved then last + 0x8000_0000 else last) + Word32(code) + debug)
    ensures var r := ReadAll(Conn(Header, [], side, events), pieces, env);
            && r.Conn? && r == Conn(Header, [], r.side, r.events)
            && r.events == events + [Frame(FrameHeader(8 + |debug|, 7, flags, 0)), Goaway(last, code)]
            && ClosedAbove(side, r.side, last, env)
  {
    hide ReadAll, Wire, Concat, Number, Word32;
    var h, first := FrameHeader(8 + |debug|, 7, flags, 0), if reserved then last + 0x8000_0000 else last;
    var payload := Word32(first) + Word32(code) + debug;
    FourBytes(first);
    FourBytes(code);
    ControlFrame(h, payload, pieces, side, events, env);
    var held := payload[..8];
    assert held[..4] == Word32(first) && held[4..8] == Word32(code);
    WordReads(first);
    WordReads(code);
    assert first % 0x8000_0000 == last;
    assert events + [Frame(h)] + [Goaway(last, code)] == events + [Frame(h), Goaway(last, code)];
    FailedAfterIs(side, last, env);
  }

  lemma FourBytes(n: nat)
    ensures |Word32(n)| == 4
  {
  }

  lemma FailedAfterIs(side: Side, last: nat, env: Env)
    ensures ClosedAbove(side, FailedAfter(side, last, env), last, env)
  {
  }

  /** RST_STREAM: exactly its stream is closed; for one never used the connection ends, for one gone nothing happens. */
  lemma ResetFrame(stream: nat, code: nat, flags: Byte, pieces: seq<Bytes>, side: Side, events: seq<Event>, env: Env)
    requires 0 < stream < 0x8000_0000 && code < 0x1_0000_0000 && 4 <= env.maxFrame && !side.expecting
    requires Concat(pieces) == Wire(FrameHeader(4, 3, flags, stream), Word32(code))
    ensures var seen := events + [Frame(FrameHeader(4, 3, flags, stream))];
            var r := ReadAll(Conn(Header, [], side, events), pieces, env);
            if stream in side.streams then
              && r.Conn? && r == Conn(Header, [], r.side, seen + [Reset(stream, code)])
              && IsClosed(side, r.side, stream) && OnlyChanges(side, r.side, stream)
            else r == if NeverUsed(side, stream, env) then Stopped(seen) else Conn(Header, [], side, seen)
  {
    hide ReadAll, Wire, Concat, Number, Word32, Failed;
    var h := FrameHeader(4, 3, flags, stream);
    FourBytes(code);
    ControlFrame(h, Word32(code), pieces, side, events, env);
    assert Word32(code)[..4] == Word32(code);
    WordReads(code);
    IdleIsNeverUsed(side, stream, env);
    FailedIs(side, stream);
  }

  /**
   WINDOW_UPDATE. On stream 0 an increment of zero or one that the connection refuses ends the
   connection; on a stream of the table it closes that stream. Otherwise credit reaches the stream,
   or every stream.
   */
  lemma WindowUpdateFrame(stream: nat, increment: nat, flags: Byte, reserved: bool, pieces: seq<Bytes>, side: Side,
                          events: seq<Event>, env: Env)
    requires stream < 0x8000_0000 && increment < 0x8000_0000 && 4 <= env.maxFrame && !side.expecting
    requires Concat(pieces) == Wire(FrameHeader(4, 8, flags, stream),
                                    Word32(if reserved then increment + 0x8000_0000 else increment))
    ensures var seen := events + [Frame(FrameHeader(4, 8, flags, stream))];
            var more := seen + [WindowUpdate(stream, increment)];
            var r := ReadAll(Conn(Header, [], side, events), pieces, env);
            WindowUpdated(stream, increment, side, seen, more, r, env)
  {
    hide ReadAll, Wire, Concat, Number, Word32, Failed, Served;
    var h, field := FrameHeader(4, 8, flags, stream), if reserved then increment + 0x8000_0000 else increment;
    FourBytes(field);
    ControlFrame(h, Word32(field), pieces, side, events, env);
    assert Word32(field)[..4] == Word32(field);
    WordReads(field);
    assert field % 0x8000_0000 == increment;
    IdleIsNeverUsed(side, stream, env);
    FailedIs(side, stream);
    var more := events + [Frame(h)] + [WindowUpdate(stream, increment)];
    ServedIs(side, {stream}, more, env);
    ServedIs(side, side.streams.Keys, more, env);
  }

  ghost predicate WindowUpdated(stream: nat, increment: nat, side: Side, seen: seq<Event>, more: seq<Event>, r: Conn,
                                env: Env) {
    if stream == 0 then
      if increment == 0 then r == Stopped(seen)
      else if !env.accepts(more) then r == Stopped(more)
      else
        && r.Conn? && r == Conn(Header, [], r.side, more) && SameBlockState(side, r.side)
        && forall id :: IsServed(side, r.side, id, more, env)
    else if increment > 0 && stream !in side.streams then
      r == if NeverUsed(side, stream, env) then Stopped(seen) else Conn(Header, [], side, seen)
    else if increment > 0 && env.accepts(more) then
      && r.Conn? && r == Conn(Header, [], r.side, more)
      && IsServed(side, r.side, stream, more, env) && OnlyChanges(side, r.side, stream)
    else
      && r.Conn? && r == Conn(Header, [], r.side, seen + [StreamError(stream)])
      && IsClosed(side, r.side, stream) && OnlyChanges(side, r.side, stream)
  }

  // ---------------------------------------------------------------- settings

  datatype Setting = Setting(id: nat, value: nat)

  predicate SettingsFit(settings: seq<Setting>) {
    forall i :: 0 <= i < |settings| ==> settings[i].id < 0x1_0000 && settings[i].value < 0x1_0000_0000
  }

  /** Two bytes of identifier and four of value each. */
  function SettingsPayload(settings: seq<Setting>): Bytes {
    if settings == [] then []
    else Word16(settings[0].id) + Word32(settings[0].value) + SettingsPayload(settings[1..])
  }

  function AsParameters(settings: seq<Setting>): seq<Event> {
    if settings == [] then [] else [Parameter(settings[0].id, settings[0].value)] + AsParameters(settings[1..])
  }

  lemma {:induction false} SettingsRead(settings: seq<Setting>)
    requires SettingsFit(settings)
    ensures |SettingsPayload(settings)| == 6 * |settings|
    ensures ParametersOf(SettingsPayload(settings)) == AsParameters(settings)
  {
    if settings != [] {
      var s, rest := settings[0], SettingsPayload(settings[1..]);
      SettingsRead(settings[1..]);
      OneSetting(s, rest);
    }
  }

  lemma OneSetting(s: Setting, rest: Bytes)
    requires s.id < 0x1_0000 && s.value < 0x1_0000_0000
    ensures var p := Word16(s.id) + Word32(s.value) + rest;
            |p| == 6 + |rest| && ParametersOf(p) == [Parameter(s.id, s.value)] + ParametersOf(rest)
  {
    hide Number;
    var p := Word16(s.id) + Word32(s.value) + rest;
    assert p[..2] == Word16(s.id) && p[2..6] == Word32(s.value) && p[6..] == rest;
    Word16Reads(s.id);
    WordReads(s.value);
  }

  /** The settings are applied in order, each bringing credit, up to the first refused; then one acknowledgement. */
  ghost predicate Applied(settings: seq<Setting>, side: Side, seen: seq<Event>, env: Env, r: Conn)
    decreases |settings|
  {
    if settings == [] then
      var acked := seen + [SendSettingsAck];
      r == if env.accepts(acked) then Conn(Header, [], side, acked) else Stopped(acked)
    else
      var next := seen + [Parameter(settings[0].id, settings[0].value)];
      if !env.accepts(next) then r == Stopped(next)
      else exists q :: AllServed(side, q, next, env) && Applied(settings[1..], q, next, env, r)
  }

  ghost predicate AllServed(a: Side, b: Side, seen: seq<Event>, env: Env) {
    SameBlockState(a, b) && forall id :: IsServed(a, b, id, seen, env)
  }

  lemma {:induction false} AppliesAll(settings: seq<Setting>, side: Side, seen: seq<Event>, env: Env)
    ensures Applied(settings, side, seen, env, ApplyAll(AsParameters(settings), side, seen, env))
    decreases |settings|
  {
    hide Served, IsServed, SameBlockState;
    if settings != [] {
      var e := Parameter(settings[0].id, settings[0].value);
      assert AsParameters(settings)[0] == e && AsParameters(settings)[1..] == AsParameters(settings[1..]);
      var next := seen + [e];
      if env.accepts(next) {
        var q := Served(side, side.streams.Keys, next, env);
        ServesAll(side, next, env);
        AppliesAll(settings[1..], q, next, env);
        assert AllServed(side, q, next, env);
      }
    }
  }

  lemma ServesAll(side: Side, seen: seq<Event>, env: Env)
    ensures AllServed(side, Served(side, side.streams.Keys, seen, env), seen, env)
  {
  }

  lemma SettingsListFrame(settings: seq<Setting>, flags: Byte, pieces: seq<Bytes>, side: Side, events: seq<Event>,
                          env: Env)
    requires SettingsFit(settings) && 6 * |settings| < 0x100_0000 && 6 * |settings| <= env.maxFrame
    requires flags % 2 == 0 && !side.expecting
    requires Concat(pieces) == Wire(FrameHeader(6 * |settings|, 4, flags, 0), SettingsPayload(settings))
    ensures Applied(settings, side, events + [Frame(FrameHeader(6 * |settings|, 4, flags, 0))], env,
                    ReadAll(Conn(Header, [], side, events), pieces, env))
  {
    hide ReadAll, Wire, Concat, ParametersOf, ApplyAll, Applied, SettingsPayload, AsParameters;
    var h := FrameHeader(6 * |settings|, 4, flags, 0);
    SettingsRead(settings);
    SettingsFrame(h, SettingsPayload(settings), pieces, side, events, env);
    AppliesAll(settings, side, events + [Frame(h)], env);
  }

  /** The peer's acknowledgement of our settings. */
  lemma SettingsAckFrame(flags: Byte, pieces: seq<Bytes>, side: Side, events: seq<Event>, env: Env)
    requires flags % 2 == 1 && !side.expecting && Concat(pieces) == Wire(FrameHeader(0, 4, flags, 0), [])
    ensures ReadAll(Conn(Header, [], side, events), pieces, env)
         == Conn(Header, [], side, events + [Frame(FrameHeader(0, 4, flags, 0)), SettingsAcked])
  {
    hide ReadAll, Wire, Concat, EatAll;
    var h := FrameHeader(0, 4, flags, 0);
    OtherFramesDoNotCare(h, [], pieces, side, events, env);
    WholeFrame(h, [], side, events, env);
    assert events + [Frame(h)] + [SettingsAcked] == events + [Frame(h), SettingsAcked];
  }

  // ---------------------------------------------------------------- frames that end the connection, or do nothing

  /** A frame of this kind cannot have this length or stand on this stream. */
  predicate Malformed(h: FrameHeader) {
    || (h.kind == 4 && (h.stream != 0 || (h.flags % 2 == 1 && h.length > 0) || (h.flags % 2 == 0 && h.length % 6 != 0)))
    || (h.kind == 6 && (h.stream != 0 || h.length != 8))
    || (h.kind == 8 && h.length != 4)
    || (h.kind == 3 && (h.stream == 0 || h.length != 4))
    || (h.kind == 7 && (h.stream != 0 || h.length < 8))
  }

  /** A control frame that is malformed or interrupts a header block ends the connection and does nothing else. */
  lemma BadFrameStops(h: FrameHeader, payload: Bytes, pieces: seq<Bytes>, side: Side, events: seq<Event>, env: Env)
    requires Sendable(h, payload, env) && h.kind !in {0, 1, 9} && Concat(pieces) == Wire(h, payload)
    requires Malformed(h) || side.expecting
    ensures ReadAll(Conn(Header, [], side, events), pieces, env) == Stopped(events + [Frame(h)])
  {
    hide ReadAll, Wire, Concat, EatAll, AbsorbAll;
    OtherFramesDoNotCare(h, payload, pieces, side, events, env);
    WholeFrame(h, payload, side, events, env);
    var seen := events + [Frame(h)];
    if payload != [] { StopsAtOnce(h, payload, side, seen, env); }
  }

  lemma StopsAtOnce(h: FrameHeader, payload: Bytes, side: Side, seen: seq<Event>, env: Env)
    requires payload != [] && (!StartOk(h) || !InTurn(h, side))
    ensures AbsorbAll(Payload(h, 0, [], 0, false), payload, side, seen, env) == Stopped(seen)
  {
  }

  /** A frame of any other kind is read and forgotten. */
  lemma UnknownFrameIsIgnored(h: FrameHeader, payload: Bytes, pieces: seq<Bytes>, side: Side, events: seq<Event>,
                              env: Env)
    requires Sendable(h, payload, env) && h.kind !in {0, 1, 3, 4, 6, 7, 8, 9} && !side.expecting
    requires Concat(pieces) == Wire(h, payload)
    ensures ReadAll(Conn(Header, [], side, events), pieces, env) == Conn(Header, [], side, events + [Frame(h)])
  {
    hide ReadAll, Wire, Concat, EatAll, AbsorbAll;
    OtherFramesDoNotCare(h, payload, pieces, side, events, env);
    WholeFrame(h, payload, side, events, env);
    if payload != [] { OtherAbsorbs(Payload(h, 0, [], 0, false), payload, side, events + [Frame(h)], env); }
  }

  /** A frame longer than we allow ends the connection before its payload is looked at. */
  lemma LongFrameStops(h: FrameHeader, more: Bytes, side: Side, events: seq<Event>, env: Env)
    requires env.maxFrame < h.length < 0x100_0000 && h.stream < 0x8000_0000
    ensures EatAll(Conn(Header, [], side, events), EncodeHeader(h) + more, env) == Stopped(events)
  {
    hide EatAll, EncodeHeader, ParseHeader;
    EatConcat(Conn(Header, [], side, events), EncodeHeader(h), more, env);
    WholeHeader(EncodeHeader(h), side, events, env);
    HeaderRoundTrip(h);
    EatStopped(Stopped(events), more, env);
  }
}
