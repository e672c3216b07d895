/**
 The read loop of the connection: it takes whatever a read brought, as many
 bytes at a time as the frame in hand allows. A frame that one read brings whole
 is handled as the reference machine does; a frame cut by the end of a read is
 handled in pieces.
 */
module Http2FrameReader {
  import opened Octets
  import opened Http2Inbound
  import Send = Http2Send

  /** Between two reads: less than a preface, less than a header, or inside a payload with nothing unread. */
  ghost predicate Ready(c: Conn) {
    c.Conn? ==>
      match c.phase
      case Preface => |c.unread| < |PREFACE|
      case Header => |c.unread| < HEADER_SIZE
      case Payload(_, _, _, _, _) => c.unread == [] && InFrame(c.phase)
  }

  /** In the middle of a payload that has passed its first checks; the scratch buffers are not overrun. */
  ghost predicate InFrame(p: Phase)
    requires p.Payload?
  {
    p.offset < p.header.length && (if p.offset == 0 then p == Payload(p.header, 0, [], 0, false) else Sound(p))
  }

  /** The padding lies within the frame; settings hold part of a parameter, control frames all bytes so far. */
  ghost predicate Sound(p: Phase)
    requires p.Payload?
  {
    var h := p.header;
    && StartOk(h)
    && (OnStream(h) ==> FitsFrame(p) && (IsPadded(h) || p.pad == 0) && (p.refused ==> p.offset >= Prefix(h)))
    && (h.kind == SETTINGS ==> |p.held| == p.offset % 6)
    && (h.kind == GOAWAY ==> |p.held| == Min(p.offset, 8))
    && (IsControl(h) ==> |p.held| == p.offset)
  }

  // ---------------------------------------------------------------- pieces of a payload

  /** consume_incoming_frame_payload for one piece of a payload. */
  function Handled(p: Phase, chunk: Bytes, side: Side, events: seq<Event>, env: Env): Conn
    requires p.Payload? && chunk != []
  {
    var h := p.header;
    if !InTurn(h, side) then Stopped(events)
    else if !OnStream(h) then AbsorbAll(p, chunk, side, events, env)
    else if p.offset > 0 then if FitsFrame(p) then StreamPiece(p, chunk, side, events) else Stopped(events)
    else
      var c := Start(h, PadOf(h, chunk[0]), side, events, env);
      if c.Stopped? then c else StreamPiece(c.phase, chunk, c.side, c.events)
  }

  /**
   What one read does: the rest of the frame in hand is a piece of its own, and every later frame
   of the read is handled from its beginning.
   */
  function Read(c: Conn, piece: Bytes, env: Env): Conn {
    if c.Stopped? || piece == [] || !c.phase.Payload? || c.phase.offset >= c.phase.header.length then
      EatAll(c, piece, env)
    else
      var n := Min(|piece|, c.phase.header.length - c.phase.offset);
      EatAll(Settle(Handled(c.phase, piece[..n], c.side, c.events, env), env), piece[n..], env)
  }

  // ---------------------------------------------------------------- many bytes at once

  lemma {:induction false} AbsorbConcat(p: Phase, s: Bytes, t: Bytes, side: Side, events: seq<Event>, env: Env)
    requires p.Payload?
    ensures var c := AbsorbAll(p, s, side, events, env);
            AbsorbAll(p, s + t, side, events, env) ==
            if c.Stopped? || !c.phase.Payload? then c else AbsorbAll(c.phase, t, c.side, c.events, env)
    decreases |s|
  {
    hide Absorb;
    if s == [] {
      assert s + t == t;
    } else {
      assert (s + t)[1..] == s[1..] + t && (s + t)[0] == s[0];
      var c := Absorb(p, s[0], side, events, env);
      if c.Conn? && c.phase.Payload? { AbsorbConcat(c.phase, s[1..], t, c.side, c.events, env); }
    }
  }

  lemma {:induction false} AbsorbStays(p: Phase, s: Bytes, side: Side, events: seq<Event>, env: Env)
    requires p.Payload?
    ensures var c := AbsorbAll(p, s, side, events, env);
            c.Conn? ==> && c.phase.Payload? && c.unread == [] && c.phase.header == p.header
                        && c.phase.offset == p.offset + |s|
    decreases |s|
  {
    hide Absorb;
    if s != [] {
      AbsorbMoves(p, s[0], side, events, env);
      var c := Absorb(p, s[0], side, events, env);
      if c.Conn? { AbsorbStays(c.phase, s[1..], c.side, c.events, env); }
    }
  }

  lemma {:induction false} SettingsFill(p: Phase, s: Bytes, side: Side, events: seq<Event>, env: Env)
    requires p.Payload? && p.header.kind == SETTINGS && StartOk(p.header) && InTurn(p.header, side)
    requires |p.held| + |s| < 6 && (p.offset == 0 ==> p == Payload(p.header, 0, [], 0, false))
    ensures AbsorbAll(p, s, side, events, env)
         == Conn(p.(offset := p.offset + |s|, held := p.held + s), [], side, events)
    decreases |s|
  {
    if s == [] {
      assert p.held + [] == p.held;
    } else {
      SettingsFill(p.(offset := p.offset + 1, held := p.held + [s[0]]), s[1..], side, events, env);
      assert p.held + [s[0]] + s[1..] == p.held + s;
    }
  }

  /** The bytes that complete a parameter. */
  lemma SettingsComplete(p: Phase, s: Bytes, side: Side, events: seq<Event>, env: Env)
    requires p.Payload? && p.header.kind == SETTINGS && StartOk(p.header) && InTurn(p.header, side)
    requires s != [] && |p.held| + |s| == 6 && (p.offset == 0 ==> p == Payload(p.header, 0, [], 0, false))
    ensures AbsorbAll(p, s, side, events, env)
         == OfferCredit(events, Parameter(Number((p.held + s)[..2]), Number((p.held + s)[2..])),
                  p.(offset := p.offset + |s|, held := []), side, env)
  {
    hide Number;
    var t, b := s[..|s| - 1], s[|s| - 1];
    assert s == t + [b];
    SettingsFill(p, t, side, events, env);
    AbsorbConcat(p, t, [b], side, events, env);
    assert p.held + t + [b] == p.held + s;
    assert [b][1..] == [];
  }

  lemma {:induction false} ControlAbsorbs(p: Phase, s: Bytes, side: Side, events: seq<Event>, env: Env)
    requires p.Payload? && IsControl(p.header) && StartOk(p.header) && InTurn(p.header, side)
    requires p.offset == 0 ==> p == Payload(p.header, 0, [], 0, false)
    ensures AbsorbAll(p, s, side, events, env)
         == Conn(p.(offset := p.offset + |s|, held := p.held + s), [], side, events)
    decreases |s|
  {
    if s == [] {
      assert p.held + [] == p.held;
    } else {
      ControlAbsorbs(p.(offset := p.offset + 1, held := p.held + [s[0]]), s[1..], side, events, env);
      assert p.held + [s[0]] + s[1..] == p.held + s;
    }
  }

  lemma GoawayByte(p: Phase, b: Byte, side: Side, events: seq<Event>, env: Env)
    requires p.Payload? && p.header.kind == GOAWAY && StartOk(p.header) && InTurn(p.header, side)
    requires p.offset == 0 ==> p == Payload(p.header, 0, [], 0, false)
    ensures Absorb(p, b, side, events, env)
         == Conn(p.(offset := p.offset + 1, held := if |p.held| < 8 then p.held + [b] else p.held), [], side, events)
  {
    hide StreamByte, Number, Bit;
  }

  /** The first of `s` that still fit a buffer of eight. */
  function Kept(held: Bytes, s: Bytes): Bytes
    requires |held| <= 8
  {
    held + s[..Min(|s|, 8 - |held|)]
  }

  lemma KeptStep(held: Bytes, s: Bytes)
    requires |held| <= 8 && s != []
    ensures Kept(held, s) == Kept(if |held| < 8 then held + [s[0]] else held, s[1..])
  {
    if |held| < 8 {
      var n := Min(|s|, 8 - |held|);
      assert s[..n] == [s[0]] + s[1..][..n - 1];
      assert held + ([s[0]] + s[1..][..n - 1]) == held + [s[0]] + s[1..][..n - 1];
    } else {
      assert s[..0] == s[1..][..0];
    }
  }

  lemma {:induction false} GoawayAbsorbs(p: Phase, s: Bytes, side: Side, events: seq<Event>, env: Env)
    requires p.Payload? && p.header.kind == GOAWAY && StartOk(p.header) && InTurn(p.header, side) && |p.held| <= 8
    requires p.offset == 0 ==> p == Payload(p.header, 0, [], 0, false)
    ensures AbsorbAll(p, s, side, events, env)
         == Conn(p.(offset := p.offset + |s|, held := Kept(p.held, s)), [], side, events)
    decreases |s|
  {
    hide Absorb, StartOk;
    if s == [] {
      assert p.held + [] == p.held;
    } else {
      GoawayByte(p, s[0], side, events, env);
      KeptStep(p.held, s);
      var held := if |p.held| < 8 then p.held + [s[0]] else p.held;
      GoawayAbsorbs(p.(offset := p.offset + 1, held := held), s[1..], side, events, env);
    }
  }

  /** A frame of a kind nobody handles. */
  predicate IsIgnored(h: FrameHeader) {
    !OnStream(h) && !IsControl(h) && h.kind != GOAWAY && h.kind != SETTINGS
  }

  lemma {:induction false} OtherAbsorbs(p: Phase, s: Bytes, side: Side, events: seq<Event>, env: Env)
    requires p.Payload? && IsIgnored(p.header) && InTurn(p.header, side)
    requires p.offset == 0 ==> p == Payload(p.header, 0, [], 0, false)
    ensures AbsorbAll(p, s, side, events, env) == Conn(p.(offset := p.offset + |s|), [], side, events)
    decreases |s|
  {
    if s != [] { OtherAbsorbs(p.(offset := p.offset + 1), s[1..], side, events, env); }
  }

  // ---------------------------------------------------------------- a frame for a stream, byte by byte

  function StreamBytes(p: Phase, s: Bytes, side: Side, events: seq<Event>): Conn
    requires p.Payload? && FitsFrame(p)
    decreases |s|
  {
    if s == [] then Conn(p, [], side, events)
    else
      var c := StreamByte(p, s[0], side, events);
      if c.Stopped? then c else StreamBytes(c.phase, s[1..], c.side, c.events)
  }

  lemma {:induction false} AbsorbsLater(p: Phase, s: Bytes, side: Side, events: seq<Event>, env: Env)
    requires p.Payload? && OnStream(p.header) && FitsFrame(p) && p.offset > 0
    ensures AbsorbAll(p, s, side, events, env) == StreamBytes(p, s, side, events)
    decreases |s|
  {
    hide StreamPiece;
    if s != [] {
      var c := StreamByte(p, s[0], side, events);
      StreamByteMoves(p, s[0], side, events);
      if c.Conn? { AbsorbsLater(c.phase, s[1..], c.side, c.events, env); }
    }
  }

  lemma StreamByteMoves(p: Phase, b: Byte, side: Side, events: seq<Event>)
    requires p.Payload? && FitsFrame(p)
    ensures var c := StreamByte(p, b, side, events);
            c.Conn? ==> && c.unread == [] && c.phase.Payload?
                        && c.phase == p.(offset := p.offset + 1, refused := c.phase.refused)
  {
    hide RangeEvents, EndEvents, Advance, Received, Failed, Part, Takes;
  }

  lemma AbsorbsFirst(p: Phase, s: Bytes, side: Side, events: seq<Event>, env: Env)
    requires p.Payload? && p == Payload(p.header, 0, [], 0, false) && OnStream(p.header) && s != []
    ensures var c := Start(p.header, PadOf(p.header, s[0]), side, events, env);
            if c.Stopped? then AbsorbAll(p, s, side, events, env) == c
            else && c.phase == p.(pad := PadOf(p.header, s[0])) && FitsFrame(c.phase)
                 && AbsorbAll(p, s, side, events, env) == StreamBytes(c.phase, s, c.side, c.events)
  {
    hide StreamPiece;
    var c := Start(p.header, PadOf(p.header, s[0]), side, events, env);
    if c.Conn? {
      var d := StreamByte(c.phase, s[0], c.side, c.events);
      StreamByteMoves(c.phase, s[0], c.side, c.events);
      if d.Conn? { AbsorbsLater(d.phase, s[1..], d.side, d.events, env); }
    }
  }

  lemma {:induction false} OverBytes(p: Phase, s: Bytes, side: Side, events: seq<Event>)
    requires p.Payload? && FitsFrame(p) && IsOver(p)
    ensures StreamBytes(p, s, side, events) == Conn(p.(offset := p.offset + |s|), [], side, events)
    decreases |s|
  {
    if s != [] { OverBytes(p.(offset := p.offset + 1), s[1..], side, events); }
  }

  // ---------------------------------------------------------------- a piece is its bytes

  lemma PartOfByte(prefix: nat, limit: int, offset: nat, b: Byte)
    requires offset < limit
    ensures Part(prefix, limit, offset, [b]) == if offset < prefix then [] else [b]
  {
  }

  lemma TailSlice(s: Bytes, i: int, j: int)
    requires 1 <= i <= j <= |s|
    ensures s[i..j] == s[1..][i - 1..j - 1]
  {
    var a, b := s[i..j], s[1..][i - 1..j - 1];
    forall k | 0 <= k < j - i ensures a[k] == b[k] { assert a[k] == s[i + k] && b[k] == s[1..][i - 1 + k]; }
  }

  /** A piece that starts in the prefix. */
  lemma PartInPrefix(prefix: nat, limit: int, offset: nat, s: Bytes)
    requires s != [] && offset < prefix
    ensures Part(prefix, limit, offset, s) == Part(prefix, limit, offset + 1, s[1..])
  {
    var end := Min(offset + |s|, limit);
    if prefix < end { TailSlice(s, prefix - offset, end - offset); }
  }

  /** A piece that starts behind it. */
  lemma PartBehind(prefix: nat, limit: int, offset: nat, s: Bytes)
    requires prefix <= offset <= limit
    ensures Part(prefix, limit, offset, s) == s[..Min(|s|, limit - offset)]
  {
    if s != [] && offset < limit { assert s[0..Min(|s|, limit - offset)] == s[..Min(|s|, limit - offset)]; }
  }

  lemma PartSplit(prefix: nat, limit: int, offset: nat, s: Bytes)
    requires s != [] && offset < limit
    ensures Part(prefix, limit, offset, s)
         == Part(prefix, limit, offset, [s[0]]) + Part(prefix, limit, offset + 1, s[1..])
    ensures offset + 1 >= limit ==> Part(prefix, limit, offset + 1, s[1..]) == []
    ensures offset + 1 < limit && offset >= prefix && |s| > 1 ==> Part(prefix, limit, offset + 1, s[1..]) != []
  {
    hide Part;
    PartOfByte(prefix, limit, offset, s[0]);
    if offset < prefix {
      PartInPrefix(prefix, limit, offset, s);
      assert [] + Part(prefix, limit, offset + 1, s[1..]) == Part(prefix, limit, offset + 1, s[1..]);
      if offset + 1 >= limit { PartBeyond(prefix, limit, offset + 1, s[1..]); }
    } else {
      PartBehind(prefix, limit, offset, s);
      PartBehind(prefix, limit, offset + 1, s[1..]);
      var n := Min(|s|, limit - offset);
      assert s[..n] == [s[0]] + s[1..][..n - 1];
    }
  }

  lemma PartBeyond(prefix: nat, limit: int, offset: nat, s: Bytes)
    requires offset >= limit
    ensures Part(prefix, limit, offset, s) == []
  {
  }

  /** What has taken a piece takes the next, and two pieces leave the stream where one would. */
  lemma ReceivedTwice(side: Side, id: nat, kind: Send.PendingKind, end: bool)
    requires Takes(side, id, kind)
    ensures var mid := Received(side, id, false);
            Takes(mid, id, kind) && Received(mid, id, end) == Received(side, id, end) &&
            mid == side.(streams := mid.streams)
  {
    var mid := Received(side, id, false);
    var peer := mid.streams[id];
    var last := peer.(state := Send.AfterReceive(peer.state, end));
    assert side.streams[id := peer][id := last] == side.streams[id := last];
    assert mid.streams - {id} == side.streams - {id};
  }

  lemma {:induction false} RangeSame(h: FrameHeader, a: Side, b: Side, at: nat, bytes: Bytes)
    requires a.blockBytes == b.blockBytes
    ensures RangeEvents(h, a, at, bytes) == RangeEvents(h, b, at, bytes)
    decreases |bytes|
  {
    if bytes != [] { RangeSame(h, a, b, at + 1, bytes[1..]); }
  }

  /** Taking off one byte that does not end what the stream gets. */
  lemma PieceStep(p: Phase, s: Bytes, side: Side, events: seq<Event>)
    requires p.Payload? && FitsFrame(p) && !p.refused && |s| > 1 && p.offset + 1 < Limit(p.header, p.pad)
    ensures var c := StreamPiece(p, [s[0]], side, events);
            StreamPiece(p, s, side, events) ==
            if c.Stopped? then c
            else if !c.phase.Payload? then c
            else if c.phase.refused then c.(phase := c.phase.(offset := p.offset + |s|))
            else if FitsFrame(c.phase) then StreamPiece(c.phase, s[1..], c.side, c.events)
            else c
  {
    hide Part, Advance, Failed, Takes, RangeEvents, EndEvents, Received, Prefix, Limit, Signals, KindOf, EndsStream;
    var h := p.header;
    var prefix, limit := Prefix(h), Limit(h, p.pad);
    PartSplit(prefix, limit, p.offset, s);
    PartOfByte(prefix, limit, p.offset, s[0]);
    if h.stream in side.streams {
      if p.offset < prefix {
        assert [] + Part(prefix, limit, p.offset + 1, s[1..]) == Part(prefix, limit, p.offset + 1, s[1..]);
      } else if Takes(side, h.stream, KindOf(h)) {
        TakenStep(p, s, side, events);
      }
    }
  }

  lemma TakenStep(p: Phase, s: Bytes, side: Side, events: seq<Event>)
    requires p.Payload? && FitsFrame(p) && !p.refused && |s| > 1
    requires Prefix(p.header) <= p.offset && p.offset + 1 < Limit(p.header, p.pad)
    requires Takes(side, p.header.stream, KindOf(p.header))
    ensures var c := StreamPiece(p, [s[0]], side, events);
            c.Conn? && c.phase == p.(offset := p.offset + 1) &&
            StreamPiece(p, s, side, events) == StreamPiece(c.phase, s[1..], c.side, c.events)
  {
    hide Part, Advance, Failed, Received, Prefix, Limit, Signals, KindOf, RangeEvents, EndEvents, Bit;
    var h := p.header;
    var prefix, limit := Prefix(h), Limit(h, p.pad);
    PartSplit(prefix, limit, p.offset, s);
    PartOfByte(prefix, limit, p.offset, s[0]);
    var over := p.offset + |s| >= limit;
    var signal := Signals(h) && over;
    ReceivedTwice(side, h.stream, KindOf(h), signal && EndsStream(h, side));
    var rest := Part(prefix, limit, p.offset + 1, s[1..]);
    var mid := Received(side, h.stream, false);
    RangeSame(h, side, mid, p.offset - prefix + 1, rest);
    EndSame(h, side, mid, signal);
    TakenEvents(h, side, p.offset - prefix, s[0], rest, events, EndEvents(h, side, signal));
    var c := StreamPiece(p, [s[0]], side, events);
    assert EndEvents(h, side, false) == [] by { NoEnd(h, side); }
    assert c == Conn(p.(offset := p.offset + 1), [], mid,
                     events + RangeEvents(h, side, p.offset - prefix, [s[0]]) + []);
  }

  lemma NoEnd(h: FrameHeader, side: Side)
    ensures EndEvents(h, side, false) == []
  {
  }

  lemma EndSame(h: FrameHeader, a: Side, b: Side, signal: bool)
    requires a.blockEnd == b.blockEnd
    ensures EndEvents(h, a, signal) == EndEvents(h, b, signal)
  {
  }

  lemma TakenEvents(h: FrameHeader, side: Side, at: nat, b: Byte, rest: Bytes, events: seq<Event>, last: seq<Event>)
    ensures RangeEvents(h, side, at, [b]) == [ByteEvent(h, side, at, b)]
    ensures events + RangeEvents(h, side, at, [b] + rest) + last
         == events + RangeEvents(h, side, at, [b]) + [] + RangeEvents(h, side, at + 1, rest) + last
  {
    assert [b][1..] == [] && ([b] + rest)[1..] == rest;
    var e, more := [ByteEvent(h, side, at, b)], RangeEvents(h, side, at + 1, rest);
    assert e + [] == e;
    assert events + (e + more) + last == events + e + [] + more + last;
  }

  /** The byte that ends what the stream gets, with padding behind it. */
  lemma PieceEnds(p: Phase, s: Bytes, side: Side, events: seq<Event>)
    requires p.Payload? && FitsFrame(p) && !p.refused && |s| > 1 && p.offset + 1 == Limit(p.header, p.pad)
    ensures var c := StreamPiece(p, [s[0]], side, events);
            StreamPiece(p, s, side, events) ==
            if c.Stopped? then c
            else if !c.phase.Payload? then c else c.(phase := c.phase.(offset := p.offset + |s|))
  {
    hide Part, Advance, Failed, Takes, RangeEvents, EndEvents, Received, Prefix, Limit, Signals, KindOf, EndsStream;
    var prefix, limit := Prefix(p.header), Limit(p.header, p.pad);
    PartSplit(prefix, limit, p.offset, s);
    assert Part(prefix, limit, p.offset, [s[0]]) + [] == Part(prefix, limit, p.offset, [s[0]]);
  }

  lemma {:induction false} PieceIsBytes(p: Phase, s: Bytes, side: Side, events: seq<Event>)
    requires p.Payload? && FitsFrame(p) && !IsOver(p) && s != []
    ensures StreamBytes(p, s, side, events) == StreamPiece(p, s, side, events)
    decreases |s|
  {
    hide StreamPiece;
    assert s == [s[0]] + s[1..];
    var c := StreamPiece(p, [s[0]], side, events);
    StreamByteMoves(p, s[0], side, events);
    if |s| == 1 {
      assert s == [s[0]] && s[1..] == [];
      ConnIs(c);
    } else if p.offset + 1 == Limit(p.header, p.pad) {
      PieceEnds(p, s, side, events);
      if c.Conn? { OverBytes(c.phase, s[1..], c.side, c.events); }
    } else {
      PieceStep(p, s, side, events);
      if c.Conn? {
        if c.phase.refused { OverBytes(c.phase, s[1..], c.side, c.events); }
        else { PieceIsBytes(c.phase, s[1..], c.side, c.events); }
      }
    }
  }

  lemma ConnIs(c: Conn)
    ensures c.Conn? && c.unread == [] ==> c == Conn(c.phase, [], c.side, c.events)
  {
  }

  // ---------------------------------------------------------------- from its first byte, a piece is its bytes

  /** The first piece of a payload is handled as its bytes are, whatever came before. */
  lemma FirstPiece(p: Phase, chunk: Bytes, side: Side, events: seq<Event>, env: Env)
    requires p.Payload? && p == Payload(p.header, 0, [], 0, false) && chunk != [] && p.header.length > 0
    ensures Handled(p, chunk, side, events, env) == AbsorbAll(p, chunk, side, events, env)
  {
    hide StreamPiece, AbsorbMore;
    var h := p.header;
    if OnStream(h) {
      AbsorbsFirst(p, chunk, side, events, env);
      var c := Start(h, PadOf(h, chunk[0]), side, events, env);
      if c.Conn? {
        StartsBefore(h, PadOf(h, chunk[0]));
        PieceIsBytes(c.phase, chunk, c.side, c.events);
      }
    }
  }

  lemma StartsBefore(h: FrameHeader, pad: nat)
    requires h.length > 0 && Prefix(h) + pad <= h.length && (IsPadded(h) || pad == 0)
    ensures 0 < Limit(h, pad)
  {
  }

  // ---------------------------------------------------------------- the payload handlers

  lemma PartIs(prefix: nat, limit: int, offset: nat, chunk: Bytes)
    ensures var begin, end := Max(offset, prefix), Min(offset + |chunk|, limit);
            var part := Part(prefix, limit, offset, chunk);
            && (begin < end ==> part == chunk[begin - offset..begin - offset + (end - begin)] && part != [])
            && (begin >= end ==> part == [])
  {
  }

  /**
   The handlers of DATA, HEADERS and CONTINUATION: which bytes of the piece the stream gets and
   where they belong, whether the piece reaches the end, and what the stream makes of it.
   */
  method StreamPayload(p: Phase, chunk: Bytes, side: Side, events: seq<Event>) returns (c: Conn)
    requires p.Payload? && FitsFrame(p)
    ensures c == StreamPiece(p, chunk, side, events)
  {
    hide RangeEvents, EndEvents, Received, Failed, Advance, Prefix, Takes, Signals, EndsStream, Part;
    var h := p.header;
    PartIs(Prefix(h), Limit(h, p.pad), p.offset, chunk);
    if h.stream !in side.streams { return Stopped(events); }
    var prefix := Prefix(h);
    var total := h.length - prefix - p.pad;
    var frameStart, frameEnd := p.offset, p.offset + |chunk|;
    var dataBegin, dataEnd := prefix, prefix + total;
    var begin, end := Max(frameStart, dataBegin), Min(frameEnd, dataEnd);
    var chunkBegin := if begin > frameStart then begin - frameStart else 0;
    var length := if end > begin then end - begin else 0;
    var at := if begin > dataBegin then begin - dataBegin else 0;
    var signal := Signals(h) && frameEnd >= dataEnd;
    var now := side;
    c := Conn(p.(offset := frameEnd), [], side, events);
    if length != 0 || signal {
      if !Takes(side, h.stream, KindOf(h)) {
        return Conn(p.(offset := frameEnd, refused := true), [], Failed(side, h.stream),
                    events + [StreamError(h.stream)]);
      }
      now := Received(side, h.stream, signal && EndsStream(h, side));
      var part := if length != 0 then chunk[chunkBegin..chunkBegin + length] else [];
      c := Conn(p.(offset := frameEnd), [], now,
                events + RangeEvents(h, side, at, part) + EndEvents(h, side, signal));
    }
    if frameEnd >= dataEnd { c := c.(side := Advance(h, p.pad, now)); }
  }

  /** handle_settings_payload: parameters are collected in a scratch buffer of six bytes. */
  method SettingsPayload(p: Phase, chunk: Bytes, side: Side, events: seq<Event>, env: Env) returns (c: Conn)
    requires p.Payload? && InFrame(p) && p.header.kind == SETTINGS && StartOk(p.header) && InTurn(p.header, side)
    ensures c == AbsorbAll(p, chunk, side, events, env)
  {
    hide Number, Absorb, OfferCredit, Served;
    var now, left := p, chunk;
    ghost var goal := AbsorbAll(p, chunk, side, events, env);
    c := Conn(p, [], side, events);
    while left != []
      invariant now.Payload? && now.header == p.header && |now.held| < 6
      invariant now.offset == 0 ==> now == Payload(p.header, 0, [], 0, false)
      invariant c.Conn? && c == Conn(now, [], c.side, c.events) && InTurn(p.header, c.side)
      invariant goal == AbsorbAll(now, left, c.side, c.events, env)
      decreases |left|
    {
      var take := Min(|left|, 6 - |now.held|);
      var held, rest := now.held + left[..take], left[take..];
      assert left == left[..take] + rest;
      AbsorbConcat(now, left[..take], rest, c.side, c.events, env);
      if |held| == 6 {
        SettingsComplete(now, left[..take], c.side, c.events, env);
        var e := Parameter(Number(held[..2]), Number(held[2..]));
        now := now.(offset := now.offset + take, held := []);
        CreditIs(c.events, e, now, c.side, env);
        c := OfferCredit(c.events, e, now, c.side, env);
        if c.Stopped? { return; }
      } else {
        SettingsFill(now, left[..take], c.side, c.events, env);
        now := now.(offset := now.offset + take, held := held);
        c := Conn(now, [], c.side, c.events);
      }
      left := rest;
    }
  }

  lemma CreditIs(events: seq<Event>, e: Event, phase: Phase, side: Side, env: Env)
    ensures var c := OfferCredit(events, e, phase, side, env);
            c.Conn? ==> c == Conn(phase, [], c.side, c.events) && c.side == side.(streams := c.side.streams)
  {
  }

  /** consume_incoming_frame_payload for one piece of a payload. */
  method Deliver(p: Phase, chunk: Bytes, side: Side, events: seq<Event>, env: Env) returns (c: Conn)
    requires p.Payload? && InFrame(p) && chunk != [] && p.offset + |chunk| <= p.header.length
    ensures c == Handled(p, chunk, side, events, env)
  {
    hide Number, StreamPiece, AbsorbAll, Prefix;
    var h := p.header;
    if !InTurn(h, side) { return Stopped(events); }
    if OnStream(h) {
      if p.offset > 0 {
        c := StreamPayload(p, chunk, side, events);
      } else {
        c := Start(h, PadOf(h, chunk[0]), side, events, env);
        if c.Conn? { c := StreamPayload(c.phase, chunk, c.side, c.events); }
      }
      return;
    }
    if !StartOk(h) {
      BadStart(p, chunk, side, events, env);
      return Stopped(events);
    }
    if h.kind == SETTINGS {
      c := SettingsPayload(p, chunk, side, events, env);
    } else if IsControl(h) {
      ControlAbsorbs(p, chunk, side, events, env);
      c := Conn(p.(offset := p.offset + |chunk|, held := p.held + chunk), [], side, events);
    } else if h.kind == GOAWAY {
      GoawayAbsorbs(p, chunk, side, events, env);
      c := Conn(p.(offset := p.offset + |chunk|, held := Kept(p.held, chunk)), [], side, events);
    } else {
      OtherAbsorbs(p, chunk, side, events, env);
      c := Conn(p.(offset := p.offset + |chunk|), [], side, events);
    }
  }

  lemma BadStart(p: Phase, chunk: Bytes, side: Side, events: seq<Event>, env: Env)
    requires p.Payload? && InFrame(p) && chunk != [] && !StartOk(p.header)
    ensures AbsorbAll(p, chunk, side, events, env) == Stopped(events)
  {
  }

  // ---------------------------------------------------------------- between two pieces

  lemma OutOfTurn(h: FrameHeader, pad: nat, side: Side, events: seq<Event>, env: Env)
    requires !InTurn(h, side)
    ensures Start(h, pad, side, events, env) == Stopped(events)
  {
  }

  lemma StartInTurn(h: FrameHeader, pad: nat, side: Side, events: seq<Event>, env: Env)
    ensures var c := Start(h, pad, side, events, env);
            c.Conn? ==> && c.phase == Payload(h, 0, [], pad, false) && InTurn(h, c.side)
                        && (OnStream(h) ==> FitsFrame(c.phase) && h.stream in c.side.streams)
  {
  }

  lemma StartIsOk(h: FrameHeader, pad: nat, side: Side, events: seq<Event>, env: Env)
    ensures Start(h, pad, side, events, env).Conn? ==> StartOk(h)
  {
  }

  /** The scratch buffer after one more byte. */
  lemma MoreSound(p: Phase, b: Byte, side: Side, events: seq<Event>, env: Env)
    requires p.Payload? && !OnStream(p.header) && Sound(p)
    ensures var c := AbsorbMore(p, b, side, events, env);
            c.Conn? ==> c.phase.Payload? && Sound(c.phase)
  {
    hide Number, Prefix, StreamByte, Bit;
  }

  lemma AbsorbSound(p: Phase, b: Byte, side: Side, events: seq<Event>, env: Env)
    requires p.Payload? && InFrame(p)
    ensures var c := Absorb(p, b, side, events, env);
            c.Conn? ==> c.phase.Payload? && Sound(c.phase)
  {
    hide Number, Prefix, StreamPiece, Start, StartOk, Bit;
    var h := p.header;
    if p.offset == 0 {
      StartInTurn(h, PadOf(h, b), side, events, env);
      StartIsOk(h, PadOf(h, b), side, events, env);
    }
    var c := if p.offset > 0 then Conn(p, [], side, events) else Start(h, PadOf(h, b), side, events, env);
    if c.Conn? {
      if OnStream(h) {
        PieceSound(c.phase, [b], c.side, c.events);
      } else {
        MoreSound(c.phase, b, c.side, c.events, env);
      }
    }
  }

  lemma PieceMoves(p: Phase, chunk: Bytes, side: Side, events: seq<Event>)
    requires p.Payload? && FitsFrame(p)
    ensures var c := StreamPiece(p, chunk, side, events);
            c.Conn? ==> && c.unread == [] && c.phase.Payload?
                        && c.phase == p.(offset := p.offset + |chunk|, refused := c.phase.refused)
  {
    hide RangeEvents, EndEvents, Received, Failed, Advance, Prefix, Takes, Signals, EndsStream, Part;
  }

  lemma PartReaches(prefix: nat, limit: int, offset: nat, s: Bytes)
    ensures Part(prefix, limit, offset, s) != [] ==> offset + |s| > prefix
  {
  }

  /** What a piece leaves behind in the phase. */
  lemma PieceSound(p: Phase, chunk: Bytes, side: Side, events: seq<Event>)
    requires p.Payload? && FitsFrame(p) && (p.refused ==> p.offset >= Prefix(p.header))
    ensures var c := StreamPiece(p, chunk, side, events);
            c.Conn? ==> && c.unread == [] && c.phase.Payload?
                        && c.phase == p.(offset := p.offset + |chunk|, refused := c.phase.refused)
                        && (c.phase.refused ==> c.phase.offset >= Prefix(p.header))
  {
    hide RangeEvents, EndEvents, Received, Failed, Advance, Prefix, Takes, Signals, EndsStream, Part;
    PieceMoves(p, chunk, side, events);
    PartReaches(Prefix(p.header), Limit(p.header, p.pad), p.offset, chunk);
  }

  lemma {:induction false} AbsorbAllSound(p: Phase, s: Bytes, side: Side, events: seq<Event>, env: Env)
    requires p.Payload? && InFrame(p) && p.offset + |s| < p.header.length
    ensures var c := AbsorbAll(p, s, side, events, env); c.Conn? ==> c.phase.Payload? && InFrame(c.phase)
    decreases |s|
  {
    hide Absorb, Sound;
    if s != [] {
      AbsorbSound(p, s[0], side, events, env);
      AbsorbMoves(p, s[0], side, events, env);
      var c := Absorb(p, s[0], side, events, env);
      if c.Conn? { AbsorbAllSound(c.phase, s[1..], c.side, c.events, env); }
    }
  }

  lemma HandledStays(p: Phase, chunk: Bytes, side: Side, events: seq<Event>, env: Env)
    requires p.Payload? && InFrame(p) && chunk != [] && p.offset + |chunk| <= p.header.length
    ensures var c := Handled(p, chunk, side, events, env);
            c.Conn? ==> && c.unread == [] && c.phase.Payload? && c.phase.header == p.header
                        && c.phase.offset == p.offset + |chunk|
                        && (c.phase.offset < p.header.length ==> InFrame(c.phase))
  {
    hide StreamPiece, AbsorbAll, Prefix;
    var h := p.header;
    if !OnStream(h) {
      AbsorbStays(p, chunk, side, events, env);
      if p.offset + |chunk| < h.length { AbsorbAllSound(p, chunk, side, events, env); }
    } else if p.offset > 0 {
      PieceSound(p, chunk, side, events);
    } else {
      var c := Start(h, PadOf(h, chunk[0]), side, events, env);
      if c.Conn? { PieceSound(c.phase, chunk, c.side, c.events); }
    }
  }

  lemma SettleReady(p: Phase, chunk: Bytes, side: Side, events: seq<Event>, env: Env)
    requires p.Payload? && InFrame(p) && chunk != [] && p.offset + |chunk| <= p.header.length
    ensures var c := Settle(Handled(p, chunk, side, events, env), env);
            && Ready(c) && (c.Conn? ==> c.unread == [])
            && (c.Conn? && p.offset + |chunk| == p.header.length ==> c.phase.Header?)
            && (p.offset + |chunk| < p.header.length ==> c == Handled(p, chunk, side, events, env))
  {
    hide Handled, InFrame, Finish;
    HandledStays(p, chunk, side, events, env);
    var c := Handled(p, chunk, side, events, env);
    if c.Conn? { FinishReady(c.phase.header, c.phase.held, c.side, c.events, env); }
  }

  lemma FinishReady(h: FrameHeader, held: Bytes, side: Side, events: seq<Event>, env: Env)
    ensures var c := Finish(h, held, side, events, env); c.Conn? ==> c.unread == [] && c.phase.Header?
  {
    hide Number, FailedAfter, Failed;
  }

  /** The bytes of an incomplete preface or header just wait. */
  lemma {:induction false} Waits(phase: Phase, unread: Bytes, s: Bytes, side: Side, events: seq<Event>, env: Env)
    requires phase.Preface? || phase.Header?
    requires |unread| + |s| < if phase.Preface? then |PREFACE| else HEADER_SIZE
    ensures EatAll(Conn(phase, unread, side, events), s, env) == Conn(phase, unread + s, side, events)
    decreases |s|
  {
    if s == [] {
      assert unread + [] == unread;
    } else {
      Waits(phase, unread + [s[0]], s[1..], side, events, env);
      assert unread + [s[0]] + s[1..] == unread + s;
    }
  }

  lemma WholePreface(s: Bytes, side: Side, events: seq<Event>, env: Env)
    requires |s| == |PREFACE|
    ensures EatAll(Conn(Preface, [], side, events), s, env)
         == if s == PREFACE then Conn(Header, [], side, events) else Stopped(events)
  {
    var t, b := s[..|s| - 1], s[|s| - 1];
    assert s == t + [b];
    Waits(Preface, [], t, side, events, env);
    assert [] + t == t;
    EatConcat(Conn(Preface, [], side, events), t, [b], env);
    LastOne(Conn(Preface, t, side, events), b, env);
  }

  lemma WholeHeader(s: Bytes, side: Side, events: seq<Event>, env: Env)
    requires |s| == HEADER_SIZE
    ensures EatAll(Conn(Header, [], side, events), s, env) == Begin(ParseHeader(s), side, events, env)
  {
    hide Begin, ParseHeader;
    var t, b := s[..|s| - 1], s[|s| - 1];
    assert s == t + [b];
    Waits(Header, [], t, side, events, env);
    assert [] + t == t;
    EatConcat(Conn(Header, [], side, events), t, [b], env);
    LastOne(Conn(Header, t, side, events), b, env);
  }

  lemma LastOne(c: Conn, b: Byte, env: Env)
    ensures EatAll(c, [b], env) == Eat(c, b, env)
  {
    assert [b][1..] == [];
  }

  lemma BeginReady(h: FrameHeader, side: Side, events: seq<Event>, env: Env)
    ensures var c := Begin(h, side, events, env);
            c.Conn? ==> c.unread == [] && (c.phase.Header? || (c.phase == Payload(h, 0, [], 0, false) && h.length > 0))
  {
    hide Number, StreamPiece, Start, Finish;
    if h.length == 0 { FinishReady(h, [], side, events + [Frame(h)], env); }
  }

  lemma EatEmpty(c: Conn, env: Env)
    ensures EatAll(c, [], env) == c
  {
  }

  /** Waiting bytes may as well arrive with the next read. */
  lemma Rejoin(c: Conn, piece: Bytes, env: Env)
    requires c.Conn? && Ready(c)
    ensures Read(c, piece, env) == Read(c.(unread := []), c.unread + piece, env)
  {
    hide EatAll, InFrame, Handled;
    if c.phase.Payload? {
      assert c.unread + piece == piece;
    } else {
      Waits(c.phase, [], c.unread, c.side, c.events, env);
      assert [] + c.unread == c.unread;
      EatConcat(c.(unread := []), c.unread, piece, env);
    }
  }

  /** A read that starts at a frame's first byte, or between frames, does what taking its bytes one by one does. */
  lemma ReadFromStart(c: Conn, piece: Bytes, env: Env)
    requires c.Conn? && c.phase.Payload? ==>
               c.unread == [] && c.phase == Payload(c.phase.header, 0, [], 0, false) && c.phase.header.length > 0
    ensures Read(c, piece, env) == EatAll(c, piece, env)
  {
    hide Handled, AbsorbAll, EatAll, Finish;
    if c.Conn? && c.phase.Payload? && piece != [] {
      var n := Min(|piece|, c.phase.header.length);
      assert piece == piece[..n] + piece[n..];
      FirstPiece(c.phase, piece[..n], c.side, c.events, env);
      EatConcat(c, piece[..n], piece[n..], env);
      EatPayload(c.phase, piece[..n], c.side, c.events, env);
      assert c == Conn(c.phase, [], c.side, c.events);
    }
  }

  class FrameReader {
    const env: Env
    var now: Conn

    constructor (env: Env, expectPreface: bool, side: Side)
      ensures this.env == env && now == Conn(if expectPreface then Preface else Header, [], side, []) && Ready(now)
    {
      this.env := env;
      now := Conn(if expectPreface then Preface else Header, [], side, []);
    }

    /** The inner loop of Http2Connection::run over the bytes at hand. */
    method Feed(piece: Bytes)
      requires Ready(now)
      modifies this
      ensures Ready(now) && now == Read(old(now), piece, env)
    {
      hide EatAll, InFrame, Read;
      if now.Stopped? {
        ReadStopped(now, piece, env);
        return;
      }
      Rejoin(now, piece, env);
      ghost var goal := Read(now, piece, env);
      var buf := now.unread + piece;
      now := now.(unread := []);
      while now.Conn?
        invariant Ready(now) && (now.Conn? ==> now.unread == [] && goal == Read(now, buf, env))
        invariant now.Stopped? ==> goal == now
        decreases now.Conn?, |buf|
      {
        var enough := Turn(buf);
        if now.Stopped? {
          return;
        }
        if enough.None? {
          return;
        }
        buf := enough.value;
      }
    }

    /** One turn of the loop: the rest of the buffer, or nothing when more bytes are needed. */
    method Turn(buf: Bytes) returns (rest: Option<Bytes>)
      requires now.Conn? && Ready(now) && now.unread == []
      modifies this
      ensures Ready(now)
      ensures now.Stopped? || rest.None? ==> now == Read(old(now), buf, env)
      ensures now.Conn? && rest.Some? ==>
                now.unread == [] && |rest.value| < |buf| && Read(old(now), buf, env) == Read(now, rest.value, env)
    {
      hide EatAll, InFrame, Handled;
      match now.phase {
        case Preface =>
          if |buf| < |PREFACE| {
            Waits(Preface, [], buf, now.side, now.events, env);
            assert [] + buf == buf;
            now := now.(unread := buf);
            return None;
          }
          rest := Step(buf, |PREFACE|);
        case Header =>
          if |buf| < HEADER_SIZE {
            Waits(Header, [], buf, now.side, now.events, env);
            assert [] + buf == buf;
            now := now.(unread := buf);
            return None;
          }
          rest := Step(buf, HEADER_SIZE);
        case Payload(_, _, _, _, _) =>
          if |buf| == 0 {
            EatEmpty(now, env);
            assert buf == [];
            return None;
          }
          rest := PayloadStep(buf);
      }
    }

    /** A whole preface or header. */
    method Step(buf: Bytes, n: nat) returns (rest: Option<Bytes>)
      requires now.Conn? && now.unread == [] && n <= |buf|
      requires (now.phase.Preface? && n == |PREFACE|) || (now.phase.Header? && n == HEADER_SIZE)
      modifies this
      ensures Ready(now) && (now.Stopped? ==> now == Read(old(now), buf, env))
      ensures rest == Some(buf[n..]) && |buf[n..]| < |buf|
      ensures now.Conn? ==> now.unread == [] && Read(old(now), buf, env) == Read(now, buf[n..], env)
    {
      hide EatAll, Begin, ParseHeader, Handled, Read;
      assert buf == buf[..n] + buf[n..];
      ReadFromStart(now, buf, env);
      EatConcat(now, buf[..n], buf[n..], env);
      if now.phase.Preface? {
        WholePreface(buf[..n], now.side, now.events, env);
        now := if buf[..n] == PREFACE then Conn(Header, [], now.side, now.events) else Stopped(now.events);
      } else {
        WholeHeader(buf[..n], now.side, now.events, env);
        BeginReady(ParseHeader(buf[..n]), now.side, now.events, env);
        now := Begin(ParseHeader(buf[..n]), now.side, now.events, env);
      }
      if now.Stopped? { EatStopped(now, buf[n..], env); } else { ReadFromStart(now, buf[n..], env); }
      return Some(buf[n..]);
    }

    /** As much of the payload as the buffer holds. */
    method PayloadStep(buf: Bytes) returns (rest: Option<Bytes>)
      requires now.Conn? && now.unread == [] && now.phase.Payload? && Ready(now) && buf != []
      modifies this
      ensures Ready(now) && (now.Stopped? ==> now == Read(old(now), buf, env))
      ensures rest.Some? && |rest.value| < |buf|
      ensures now.Conn? ==> now.unread == [] && Read(old(now), buf, env) == Read(now, rest.value, env)
    {
      hide EatAll, Handled, Settle, Sound;
      var p := now.phase;
      var n := Min(|buf|, p.header.length - p.offset);
      var chunk := buf[..n];
      assert buf == chunk + buf[n..];
      SettleReady(p, chunk, now.side, now.events, env);
      var c := Deliver(p, chunk, now.side, now.events, env);
      now := Settle(c, env);
      if now.Stopped? { EatStopped(now, buf[n..], env); }
      return Some(buf[n..]);
    }
  }

  lemma ReadStopped(c: Conn, piece: Bytes, env: Env)
    requires c.Stopped?
    ensures Read(c, piece, env) == c
  {
    EatStopped(c, piece, env);
  }
}
