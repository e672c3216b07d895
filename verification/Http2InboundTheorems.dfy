/**
 When the outcome of inbound framing depends on how the bytes were cut into reads
 and when it does not, and that there is always room for the next read.
 */
module Http2InboundTheorems {
  import opened Octets
  import opened Http2Inbound
  import opened Http2FrameReader
  import Send = Http2Send

  // ---------------------------------------------------------------- states a read may end in

  /** What holds of the streams and of the header block in the middle of a frame. */
  predicate OnTrack(p: Phase, side: Side)
    requires p.Payload?
  {
    var h := p.header;
    if !OnStream(h) || p.refused then InTurn(h, side)
    else if p.offset < Limit(h, p.pad) then InTurn(h, side) && h.stream in side.streams
    else if h.kind == DATA then InTurn(h, side) && (Signals(h) || h.stream in side.streams)
    else side.expecting == !IsEndHeaders(h)
  }

  predicate MidFrame(c: Conn) {
    c.Conn? && c.phase.Payload? && c.phase.offset > 0
  }

  ghost predicate Regular(c: Conn) {
    Ready(c) && (MidFrame(c) ==> OnTrack(c.phase, c.side))
  }

  /**
   A read must not end here: the frame's stream has refused it or has been given
   its end, and the next piece of the frame is not ignored.
   */
  predicate Harmful(c: Conn) {
    MidFrame(c) && OnStream(c.phase.header) &&
    var p, h := c.phase, c.phase.header;
    if p.refused then h.kind != DATA || h.stream !in c.side.streams || p.offset < Limit(h, p.pad) || Signals(h)
    else p.offset >= Limit(h, p.pad) && (h.kind != DATA || Signals(h))
  }

  lemma PieceOnTrack(p: Phase, chunk: Bytes, side: Side, events: seq<Event>)
    requires p.Payload? && FitsFrame(p) && OnStream(p.header) && !IsOver(p) && InTurn(p.header, side) && chunk != []
    ensures var c := StreamPiece(p, chunk, side, events);
            c.Conn? ==> c.phase.Payload? && OnTrack(c.phase, c.side)
  {
    hide Part, RangeEvents, EndEvents, Prefix, KindOf, Bit;
    TakesKeepsTable(side, p.header.stream, KindOf(p.header));
  }

  lemma TakesKeepsTable(side: Side, id: nat, kind: Send.PendingKind)
    ensures Takes(side, id, kind) ==> id in Received(side, id, false).streams
  {
  }

  lemma AbsorbOnTrack(p: Phase, b: Byte, side: Side, events: seq<Event>, env: Env)
    requires p.Payload? && InFrame(p) && (p.offset > 0 ==> OnTrack(p, side))
    ensures var c := Absorb(p, b, side, events, env);
            c.Conn? ==> c.phase.Payload? && OnTrack(c.phase, c.side)
  {
    hide StreamPiece, Start, Number, Prefix;
    var h := p.header;
    var c := if p.offset > 0 then Conn(p, [], side, events) else Start(h, PadOf(h, b), side, events, env);
    if p.offset == 0 { StartInTurn(h, PadOf(h, b), side, events, env); }
    if c.Conn? && OnStream(h) {
      if p.offset == 0 { StartedEarly(h, b); }
      if !IsOver(c.phase) { PieceOnTrack(c.phase, [b], c.side, c.events); }
    }
  }

  lemma StartedEarly(h: FrameHeader, b: Byte)
    ensures h.length > 0 && Prefix(h) <= Limit(h, PadOf(h, b)) ==> 0 < Limit(h, PadOf(h, b))
  {
  }

  lemma EatRegular(c: Conn, b: Byte, env: Env)
    requires Regular(c)
    ensures Regular(Eat(c, b, env))
  {
    hide Absorb, Sound, OnTrack, Finish, Begin, ParseHeader;
    if c.Conn? {
      match c.phase
      case Preface =>
      case Header =>
        var u := c.unread + [b];
        if |u| == HEADER_SIZE { BeginReady(ParseHeader(u), c.side, c.events, env); }
      case Payload(_, _, _, _, _) =>
        AbsorbMoves(c.phase, b, c.side, c.events, env);
        AbsorbSound(c.phase, b, c.side, c.events, env);
        AbsorbOnTrack(c.phase, b, c.side, c.events, env);
        var d := Absorb(c.phase, b, c.side, c.events, env);
        if d.Conn? { FinishReady(d.phase.header, d.phase.held, d.side, d.events, env); }
    }
  }

  lemma {:induction false} EatAllRegular(c: Conn, s: Bytes, env: Env)
    requires Regular(c)
    ensures Regular(EatAll(c, s, env))
    decreases |s|
  {
    hide Eat, Regular;
    if s != [] {
      EatRegular(c, s[0], env);
      EatAllRegular(Eat(c, s[0], env), s[1..], env);
    }
  }

  // ---------------------------------------------------------------- cuts that do not matter

  lemma HarmlessPiece(c: Conn, chunk: Bytes, env: Env)
    requires Regular(c) && MidFrame(c) && !Harmful(c) && chunk != []
    ensures Handled(c.phase, chunk, c.side, c.events, env) == AbsorbAll(c.phase, chunk, c.side, c.events, env)
  {
    hide AbsorbAll, StreamPiece, Prefix, Signals;
    var p := c.phase;
    if OnStream(p.header) {
      AbsorbsLater(p, chunk, c.side, c.events, env);
      if IsOver(p) {
        OverBytes(p, chunk, c.side, c.events);
        PaddingOfData(p, chunk, c.side, c.events);
      } else {
        PieceIsBytes(p, chunk, c.side, c.events);
      }
    }
  }

  lemma PaddingOfData(p: Phase, chunk: Bytes, side: Side, events: seq<Event>)
    requires p.Payload? && FitsFrame(p) && p.header.kind == DATA && !Signals(p.header)
    requires p.offset >= Limit(p.header, p.pad) && p.header.stream in side.streams
    ensures StreamPiece(p, chunk, side, events) == Conn(p.(offset := p.offset + |chunk|), [], side, events)
  {
    hide Signals, Prefix;
    PartBeyond(Prefix(p.header), Limit(p.header, p.pad), p.offset, chunk);
  }

  lemma HarmlessRead(c: Conn, piece: Bytes, env: Env)
    requires Regular(c) && (piece == [] || !Harmful(c))
    ensures Read(c, piece, env) == EatAll(c, piece, env)
  {
    hide Handled, AbsorbAll, EatAll, Finish, Sound, OnTrack, Harmful;
    if MidFrame(c) && piece != [] {
      var n := Min(|piece|, c.phase.header.length - c.phase.offset);
      assert piece == piece[..n] + piece[n..];
      HarmlessPiece(c, piece[..n], env);
      EatConcat(c, piece[..n], piece[n..], env);
      EatPayload(c.phase, piece[..n], c.side, c.events, env);
      assert c == Conn(c.phase, [], c.side, c.events);
    } else if piece != [] {
      ReadFromStart(c, piece, env);
    }
  }

  /** One read after another. */
  function ReadAll(c: Conn, pieces: seq<Bytes>, env: Env): Conn
    decreases |pieces|
  {
    if pieces == [] then c else ReadAll(Read(c, pieces[0], env), pieces[1..], env)
  }

  /** No read ends where it must not, unless nothing follows. */
  predicate Harmless(c: Conn, pieces: seq<Bytes>, env: Env)
    decreases |pieces|
  {
    pieces == [] ||
    ((pieces[0] == [] || !Harmful(c)) && Harmless(EatAll(c, pieces[0], env), pieces[1..], env))
  }

  /**
   Unless a read ends where it must not, the frames, settings, control payloads, bytes given to the
   streams and errors are the same however the bytes are cut into reads.
   */
  lemma {:induction false} CutsDoNotMatter(c: Conn, pieces: seq<Bytes>, env: Env)
    requires Regular(c) && Harmless(c, pieces, env)
    ensures ReadAll(c, pieces, env) == EatAll(c, Concat(pieces), env)
    decreases |pieces|
  {
    hide EatAll, Read, Regular, Harmful;
    if pieces == [] {
      EatEmpty(c, env);
    } else {
      EatConcat(c, pieces[0], Concat(pieces[1..]), env);
      HarmlessRead(c, pieces[0], env);
      EatAllRegular(c, pieces[0], env);
      CutsDoNotMatter(EatAll(c, pieces[0], env), pieces[1..], env);
    }
  }

  /** The read loop over a list of reads. */
  method FeedAll(reader: FrameReader, pieces: seq<Bytes>)
    requires Ready(reader.now)
    modifies reader
    ensures Ready(reader.now) && reader.now == ReadAll(old(reader.now), pieces, reader.env)
  {
    hide Read, Ready;
    var i := 0;
    ghost var start := reader.now;
    assert pieces[0..] == pieces;
    while i < |pieces|
      invariant 0 <= i <= |pieces| && Ready(reader.now)
      invariant ReadAll(start, pieces, reader.env) == ReadAll(reader.now, pieces[i..], reader.env)
    {
      assert pieces[i..][1..] == pieces[i + 1..];
      reader.Feed(pieces[i]);
      i := i + 1;
    }
  }

  // ---------------------------------------------------------------- cuts that do

  /** Different for good from where the frame was cut: stopped, with more events, or no longer in turn. */
  predicate Off(a: Conn, c: Conn)
    requires c.Conn? && c.phase.Payload?
  {
    a.Stopped? || |a.events| > |c.events| || (InTurn(c.phase.header, c.side) && !InTurn(c.phase.header, a.side))
  }

  lemma HarmfulPiece(c: Conn, chunk: Bytes, env: Env)
    requires Regular(c) && Harmful(c) && chunk != []
    ensures Off(Handled(c.phase, chunk, c.side, c.events, env), c)
  {
    hide StreamPiece, Prefix, Bit;
    var p, h := c.phase, c.phase.header;
    if InTurn(h, c.side) { PieceShows(p, chunk, c.side, c.events); }
  }

  /** A piece that reaches the stream leaves a trace. */
  lemma PieceShows(p: Phase, chunk: Bytes, side: Side, events: seq<Event>)
    requires p.Payload? && FitsFrame(p) && OnStream(p.header) && chunk != []
    ensures var c := StreamPiece(p, chunk, side, events);
            var h := p.header;
            c.Conn? ==>
              && h.stream in side.streams
              && (Prefix(h) <= p.offset < Limit(h, p.pad) ==> |c.events| > |events|)
              && (p.offset >= Limit(h, p.pad) && Signals(h) ==> |c.events| > |events|)
              && (p.offset >= Limit(h, p.pad) && h.kind != DATA && !Signals(h) ==> c.side.expecting)
  {
    hide Prefix, Bit, Received, Failed, Takes;
    var h := p.header;
    var prefix, limit := Prefix(h), Limit(h, p.pad);
    if prefix <= p.offset < limit { PartBehind(prefix, limit, p.offset, chunk); }
    if p.offset >= limit { PartBeyond(prefix, limit, p.offset, chunk); }
    var part := Part(prefix, limit, p.offset, chunk);
    if part != [] { assert |RangeEvents(h, side, Max(p.offset, prefix) - prefix, part)| >= 1; }
  }

  /** It stays different until the frame is over. */
  lemma OffStays(a: Conn, c: Conn, chunk: Bytes, env: Env)
    requires c.Conn? && c.phase.Payload? && Off(a, c) && OnStream(c.phase.header)
    requires a.Conn? ==> a.phase.Payload? && a.phase.header == c.phase.header && a.phase.offset > 0 && chunk != []
    ensures a.Conn? ==> Off(Handled(a.phase, chunk, a.side, a.events, env), c)
  {
    hide StreamPiece;
    if a.Conn? && InTurn(a.phase.header, a.side) && FitsFrame(a.phase) {
      PieceGrows(a.phase, chunk, a.side, a.events);
    }
  }

  lemma PieceGrows(p: Phase, chunk: Bytes, side: Side, events: seq<Event>)
    requires p.Payload? && FitsFrame(p)
    ensures |StreamPiece(p, chunk, side, events).events| >= |events|
  {
    hide Part, RangeEvents, EndEvents, Prefix, KindOf, Bit, Received, Failed, Takes, Advance, Signals;
  }

  lemma SettleOff(a: Conn, c: Conn, env: Env)
    requires c.Conn? && c.phase.Payload? && OnStream(c.phase.header) && Off(a, c)
    requires a.Conn? ==> a.phase.Payload? && a.phase.header == c.phase.header
    ensures Off(Settle(a, env), c)
  {
  }

  /** All bytes of the pieces, and every piece holds some. */
  predicate Within(pieces: seq<Bytes>, n: int) {
    (forall i :: 0 <= i < |pieces| ==> pieces[i] != []) && |Concat(pieces)| <= n
  }

  lemma WithinTail(pieces: seq<Bytes>, n: int)
    requires pieces != [] && Within(pieces, n)
    ensures Within(pieces[1..], n - |pieces[0]|) && 0 < |pieces[0]| <= n
    ensures |pieces| > 1 ==> |pieces[0]| < n
  {
    if |pieces| > 1 { assert pieces[1..] != [] && pieces[1..][0] != []; }
  }

  lemma ReadInFrame(c: Conn, piece: Bytes, env: Env)
    requires Ready(c) && c.Conn? && c.phase.Payload? && piece != []
    requires |piece| <= c.phase.header.length - c.phase.offset
    ensures Read(c, piece, env) == Settle(Handled(c.phase, piece, c.side, c.events, env), env)
  {
    hide Handled, Settle, Sound;
    assert piece[..|piece|] == piece && piece[|piece|..] == [];
    EatEmpty(Settle(Handled(c.phase, piece, c.side, c.events, env), env), env);
  }

  lemma {:induction false} OffToTheEnd(a: Conn, c: Conn, pieces: seq<Bytes>, env: Env)
    requires c.Conn? && c.phase.Payload? && OnStream(c.phase.header) && Off(a, c) && Ready(a)
    requires a.Conn? && pieces != [] ==>
               a.phase.Payload? && a.phase.header == c.phase.header && a.phase.offset > 0 &&
               Within(pieces, a.phase.header.length - a.phase.offset)
    ensures Off(ReadAll(a, pieces, env), c)
    decreases |pieces|
  {
    hide Handled, Read, Off, Settle, InFrame, Within;
    if pieces != [] {
      if a.Stopped? {
        ReadStopped(a, pieces[0], env);
      } else {
        WithinTail(pieces, a.phase.header.length - a.phase.offset);
        ReadInFrame(a, pieces[0], env);
        OffStays(a, c, pieces[0], env);
        SettleReady(a.phase, pieces[0], a.side, a.events, env);
        HandledStays(a.phase, pieces[0], a.side, a.events, env);
        SettleOff(Handled(a.phase, pieces[0], a.side, a.events, env), c, env);
      }
      OffToTheEnd(Read(a, pieces[0], env), c, pieces[1..], env);
    }
  }

  /** From a harmful cut on, the frame as one read would have left it. */
  lemma IdealIsQuiet(c: Conn, s: Bytes, env: Env)
    requires Regular(c) && Harmful(c) && |s| <= c.phase.header.length - c.phase.offset
    ensures !Off(EatAll(c, s, env), c)
  {
    hide Sound, OnTrack, EatAll, AbsorbAll, Signals;
    var p := c.phase;
    assert c == Conn(p, [], c.side, c.events);
    EatPayload(p, s, c.side, c.events, env);
    SoundFits(p);
    AbsorbsLater(p, s, c.side, c.events, env);
    OverBytes(p, s, c.side, c.events);
  }

  lemma SoundFits(p: Phase)
    requires p.Payload? && OnStream(p.header) && Sound(p)
    ensures FitsFrame(p)
  {
  }

  /** A frame cut where it must not be ends up differently than it would have uncut. */
  lemma CutMatters(c: Conn, pieces: seq<Bytes>, env: Env)
    requires Regular(c) && Harmful(c) && pieces != [] && Within(pieces, c.phase.header.length - c.phase.offset)
    ensures ReadAll(c, pieces, env) != EatAll(c, Concat(pieces), env)
  {
    hide Handled, Read, Off, Settle, InFrame, Within, EatAll, OnTrack, Harmful;
    HarmfulIs(c);
    WithinTail(pieces, c.phase.header.length - c.phase.offset);
    ReadInFrame(c, pieces[0], env);
    HarmfulPiece(c, pieces[0], env);
    SettleReady(c.phase, pieces[0], c.side, c.events, env);
    HandledStays(c.phase, pieces[0], c.side, c.events, env);
    SettleOff(Handled(c.phase, pieces[0], c.side, c.events, env), c, env);
    OffToTheEnd(Read(c, pieces[0], env), c, pieces[1..], env);
    WithinSize(pieces, c.phase.header.length - c.phase.offset);
    IdealIsQuiet(c, Concat(pieces), env);
  }

  lemma WithinSize(pieces: seq<Bytes>, n: int)
    requires Within(pieces, n)
    ensures |Concat(pieces)| <= n
  {
  }

  lemma HarmfulIs(c: Conn)
    requires Harmful(c)
    ensures MidFrame(c) && OnStream(c.phase.header)
  {
  }

  /**
   A payload, from any byte of it on, in reads that do not go beyond it: the outcome is that of
   reading it whole exactly when no read ends where it must not.
   */
  lemma {:induction false} CutsMatterExactlyWhen(c: Conn, pieces: seq<Bytes>, env: Env)
    requires Regular(c) && c.Conn? && c.phase.Payload? && Within(pieces, c.phase.header.length - c.phase.offset)
    ensures ReadAll(c, pieces, env) == EatAll(c, Concat(pieces), env) <==> Harmless(c, pieces, env)
    decreases |pieces|
  {
    hide EatAll, Read, InFrame, OnTrack, Harmful, Within;
    if Harmless(c, pieces, env) {
      CutsDoNotMatter(c, pieces, env);
    } else {
      WithinTail(pieces, c.phase.header.length - c.phase.offset);
      if Harmful(c) {
        CutMatters(c, pieces, env);
      } else {
        HarmlessRead(c, pieces[0], env);
        var d := EatAll(c, pieces[0], env);
        EatAllRegular(c, pieces[0], env);
        EatConcat(c, pieces[0], Concat(pieces[1..]), env);
        StaysInFrame(c, pieces[0], env);
        if d.Conn? && d.phase.Payload? {
          CutsMatterExactlyWhen(d, pieces[1..], env);
        } else {
          HarmlessOutside(d, pieces[1..], env);
        }
      }
    }
  }

  lemma StaysInFrame(c: Conn, s: Bytes, env: Env)
    requires Regular(c) && c.Conn? && c.phase.Payload? && 0 < |s| <= c.phase.header.length - c.phase.offset
    ensures var d := EatAll(c, s, env);
            d.Conn? ==> if |s| < c.phase.header.length - c.phase.offset
                        then d.phase.Payload? && d.phase.header == c.phase.header &&
                             d.phase.offset == c.phase.offset + |s|
                        else d.phase.Header?
  {
    hide AbsorbAll, EatAll, Finish, Sound, OnTrack;
    assert c == Conn(c.phase, [], c.side, c.events);
    EatPayload(c.phase, s, c.side, c.events, env);
    AbsorbStays(c.phase, s, c.side, c.events, env);
    var d := AbsorbAll(c.phase, s, c.side, c.events, env);
    if d.Conn? { FinishReady(d.phase.header, d.phase.held, d.side, d.events, env); }
  }

  lemma {:induction false} HarmlessOutside(d: Conn, pieces: seq<Bytes>, env: Env)
    requires d.Stopped? || pieces == []
    ensures Harmless(d, pieces, env)
    decreases |pieces|
  {
    if pieces != [] {
      EatStopped(d, pieces[0], env);
      HarmlessOutside(d, pieces[1..], env);
    }
  }

  // ---------------------------------------------------------------- the cut condition, in terms of the cuts

  /** Every cut between the pieces, the first at `offset`, falls before `limit`. */
  predicate CutsBefore(offset: nat, pieces: seq<Bytes>, limit: int)
    decreases |pieces|
  {
    pieces == [] || ((offset == 0 || offset < limit) && CutsBefore(offset + |pieces[0]|, pieces[1..], limit))
  }

  function AtStart(h: FrameHeader, side: Side, events: seq<Event>): Conn {
    Conn(Payload(h, 0, [], 0, false), [], side, events)
  }

  /** The frame passes its first checks and its stream takes it. */
  predicate Taken(h: FrameHeader, payload: Bytes, side: Side, events: seq<Event>, env: Env) {
    OnStream(h) && payload != [] && |payload| == h.length &&
    var c := Start(h, PadOf(h, payload[0]), side, events, env);
    c.Conn? && Takes(c.side, h.stream, KindOf(h))
  }

  lemma TakenState(h: FrameHeader, payload: Bytes, n: nat, side: Side, events: seq<Event>, env: Env)
    requires Taken(h, payload, side, events, env) && 0 < n < h.length
    ensures var c := EatAll(AtStart(h, side, events), payload[..n], env);
            c.Conn? && c.phase == Payload(h, n, [], PadOf(h, payload[0]), false)
  {
    hide EatAll, AbsorbAll, Start, StreamPiece, Finish, Takes;
    var p, s := Payload(h, 0, [], 0, false), payload[..n];
    assert s[0] == payload[0];
    if !InTurn(h, side) { OutOfTurn(h, PadOf(h, s[0]), side, events, env); }
    EatPayload(p, s, side, events, env);
    AbsorbsFirst(p, s, side, events, env);
    FirstPiece(p, s, side, events, env);
    var c := Start(h, PadOf(h, s[0]), side, events, env);
    StartInTurn(h, PadOf(h, s[0]), side, events, env);
    TakenPiece(c.phase, s, c.side, c.events);
  }

  lemma TakenPiece(p: Phase, chunk: Bytes, side: Side, events: seq<Event>)
    requires p.Payload? && FitsFrame(p) && Takes(side, p.header.stream, KindOf(p.header))
    ensures var c := StreamPiece(p, chunk, side, events);
            c.Conn? && c.phase == p.(offset := p.offset + |chunk|)
  {
    hide Part, RangeEvents, EndEvents, Prefix, Bit, Received, Failed, Advance, Signals;
  }

  lemma {:induction false} TakenCuts(h: FrameHeader, payload: Bytes, n: nat, pieces: seq<Bytes>, side: Side,
                                     events: seq<Event>, env: Env)
    requires Taken(h, payload, side, events, env) && n <= |payload| && Concat(pieces) == payload[n..]
    requires forall i :: 0 <= i < |pieces| ==> pieces[i] != []
    ensures Harmless(EatAll(AtStart(h, side, events), payload[..n], env), pieces, env) <==>
              (h.kind == DATA && !IsEndStream(h)) || CutsBefore(n, pieces, Limit(h, PadOf(h, payload[0])))
    decreases |pieces|
  {
    hide EatAll, Taken, PadOf, Bit;
    if pieces != [] {
      var c := EatAll(AtStart(h, side, events), payload[..n], env);
      var m := n + |pieces[0]|;
      assert Concat(pieces) == pieces[0] + Concat(pieces[1..]);
      assert payload[..m] == payload[..n] + pieces[0] && payload[m..] == Concat(pieces[1..]);
      EatConcat(AtStart(h, side, events), payload[..n], pieces[0], env);
      TakenCuts(h, payload, m, pieces[1..], side, events, env);
      TakenIs(h, payload, side, events, env);
      if n == 0 {
        assert payload[..0] == [];
        EatEmpty(AtStart(h, side, events), env);
      } else {
        TakenState(h, payload, n, side, events, env);
      }
    }
  }

  lemma TakenIs(h: FrameHeader, payload: Bytes, side: Side, events: seq<Event>, env: Env)
    requires Taken(h, payload, side, events, env)
    ensures OnStream(h) && payload != [] && |payload| == h.length
  {
  }

  /**
   A frame that its stream takes, cut into reads in any way: the outcome is that of reading it whole
   exactly when it is DATA without END_STREAM, or no read ends in its padding.
   */
  lemma PaddingCutsMatterExactlyWhen(h: FrameHeader, payload: Bytes, pieces: seq<Bytes>, side: Side,
                                     events: seq<Event>, env: Env)
    requires Taken(h, payload, side, events, env) && Concat(pieces) == payload
    requires forall i :: 0 <= i < |pieces| ==> pieces[i] != []
    ensures ReadAll(AtStart(h, side, events), pieces, env) == EatAll(AtStart(h, side, events), payload, env) <==>
              (h.kind == DATA && !IsEndStream(h)) || CutsBefore(0, pieces, Limit(h, PadOf(h, payload[0])))
  {
    hide EatAll, ReadAll, Taken, Harmless, PadOf, Bit, CutsBefore, Limit;
    var c := AtStart(h, side, events);
    TakenIs(h, payload, side, events, env);
    assert payload[..0] == [] && payload[0..] == payload;
    EatEmpty(c, env);
    TakenCuts(h, payload, 0, pieces, side, events, env);
    CutsMatterExactlyWhen(c, pieces, env);
  }

  // ---------------------------------------------------------------- frames that a cut changes

  function Table(side: Side, state: Send.StreamState): Side {
    side.(streams := side.streams[1 := Peer(state, false, false)], expecting := false)
  }

  /** Read whole, a padded HEADERS frame to be continued; read in two, its padding is taken for a frame out of turn. */
  lemma PaddedHeadersCut(h: FrameHeader, s: Bytes, t: Bytes, side: Side, events: seq<Event>, env: Env)
    requires h == FrameHeader(3, HEADERS, 8, 1) && s == [1, 0x41] && t == [0]
    ensures var c := AtStart(h, Table(side, Send.Open), events);
            var whole, cut := ReadAll(c, [s + t], env), ReadAll(c, [s, t], env);
            whole.Conn? && whole.phase == Header && whole.side.expecting && cut.Stopped?
  {
    hide RangeEvents, EndEvents, AbsorbAll, Read, ReadAll, EatAll;
    var now := Table(side, Send.Open);
    var c := AtStart(h, now, events);
    PaddedFlags(h);
    var first := Handled(c.phase, s, now, events, env);
    assert first.Conn? && first.side.expecting && first.phase.offset == 2 && first.phase.header == h;
    OneRead(c, s + t, env);
    TwoReads(c, s, t, env);
  }

  lemma PaddedFlags(h: FrameHeader)
    requires h == FrameHeader(3, HEADERS, 8, 1)
    ensures IsPadded(h) && !IsPriority(h) && !IsEndHeaders(h) && !IsEndStream(h) && Prefix(h) == 1 && !Signals(h)
  {
  }

  /** The last DATA of an open stream, padded: its second piece makes the stream, which has ended, refuse it. */
  lemma PaddedDataCut(h: FrameHeader, s: Bytes, t: Bytes, side: Side, events: seq<Event>, env: Env)
    requires h == FrameHeader(3, DATA, 9, 1) && s == [1, 0x41] && t == [0]
    ensures var c := AtStart(h, Table(side, Send.Open), events);
            var whole, cut := ReadAll(c, [s + t], env), ReadAll(c, [s, t], env);
            && whole.Conn? && 1 in whole.side.streams && whole.side.streams[1].state == Send.HalfClosedRemote
            && cut.Conn? && 1 !in cut.side.streams
            && cut.events == whole.events + [StreamError(1)]
  {
    hide RangeEvents, EndEvents, AbsorbAll, Read, ReadAll, EatAll;
    var now := Table(side, Send.Open);
    var c := AtStart(h, now, events);
    EndFlags(h);
    assert Part(1, 2, 0, s + t) == [0x41] && Part(1, 2, 0, s) == [0x41];
    var first := Handled(c.phase, s, now, events, env);
    assert first.Conn? && first.side == Received(now, 1, true) && first.phase == Payload(h, 2, [], 1, false);
    OneRead(c, s + t, env);
    TwoReads(c, s, t, env);
  }

  lemma EndFlags(h: FrameHeader)
    requires h == FrameHeader(3, DATA, 9, 1)
    ensures IsPadded(h) && !IsPriority(h) && IsEndStream(h) && Prefix(h) == 1 && Signals(h)
  {
  }

  /** DATA on a stream the peer has already ended is a stream error, or when cut in two the end of the connection. */
  lemma RefusedDataCut(h: FrameHeader, s: Bytes, t: Bytes, side: Side, events: seq<Event>, env: Env)
    requires h == FrameHeader(2, DATA, 0, 1) && s == [1] && t == [2]
    ensures var c := AtStart(h, Table(side, Send.HalfClosedRemote), events);
            var whole, cut := ReadAll(c, [s + t], env), ReadAll(c, [s, t], env);
            whole.Conn? && whole.events == events + [StreamError(1)] && cut.Stopped?
  {
    hide RangeEvents, EndEvents, AbsorbAll, Read, ReadAll, EatAll, Start, StreamPiece, Failed;
    var now := Table(side, Send.HalfClosedRemote);
    var c := AtStart(h, now, events);
    RefusedPiece(h, s, now, events, env);
    RefusedPiece(h, s + t, now, events, env);
    OneRead(c, s + t, env);
    TwoReads(c, s, t, env);
    PlainFlags(h);
    FailedLeaves(now);
    GoneStops(Payload(h, 1, [], 0, true), t, Failed(now, 1), events + [StreamError(1)]);
  }

  lemma FailedLeaves(side: Side)
    requires 1 in side.streams && !side.streams[1].flying
    ensures 1 !in Failed(side, 1).streams
  {
  }

  /** DATA its stream refuses: the stream is closed, and the rest of the frame is still to come. */
  lemma RefusedPiece(h: FrameHeader, s: Bytes, side: Side, events: seq<Event>, env: Env)
    requires h == FrameHeader(2, DATA, 0, 1) && 1 <= |s| <= 2 && !side.expecting
    requires 1 in side.streams && side.streams[1].state.HalfClosedRemote?
    ensures Handled(Payload(h, 0, [], 0, false), s, side, events, env)
         == Conn(Payload(h, |s|, [], 0, true), [], Failed(side, 1), events + [StreamError(1)])
  {
    hide RangeEvents, EndEvents, AbsorbAll, Failed, Bit;
    PlainFlags(h);
  }

  lemma GoneStops(p: Phase, chunk: Bytes, side: Side, events: seq<Event>)
    requires p.Payload? && FitsFrame(p) && p.header.stream !in side.streams
    ensures StreamPiece(p, chunk, side, events) == Stopped(events)
  {
  }

  lemma PlainFlags(h: FrameHeader)
    requires h == FrameHeader(2, DATA, 0, 1)
    ensures !IsPadded(h) && !IsPriority(h) && !IsEndStream(h) && Prefix(h) == 0 && !Signals(h)
  {
  }

  lemma OneRead(c: Conn, s: Bytes, env: Env)
    requires c.Conn? && c.phase.Payload? && c.phase.offset < c.phase.header.length
    requires s != [] && |s| == c.phase.header.length - c.phase.offset
    ensures ReadAll(c, [s], env) == Settle(Handled(c.phase, s, c.side, c.events, env), env)
  {
    hide Handled, Settle;
    assert s[..|s|] == s && s[|s|..] == [] && [s][1..] == [];
    EatEmpty(Settle(Handled(c.phase, s, c.side, c.events, env), env), env);
  }

  lemma TwoReads(c: Conn, s: Bytes, t: Bytes, env: Env)
    requires c.Conn? && c.phase.Payload? && s != [] && t != []
    requires |s| + |t| == c.phase.header.length - c.phase.offset
    requires var d := Handled(c.phase, s, c.side, c.events, env);
             d.Conn? && d.phase.Payload? && d.phase.header == c.phase.header && d.phase.offset == c.phase.offset + |s|
    ensures var d := Handled(c.phase, s, c.side, c.events, env);
            ReadAll(c, [s, t], env) == Settle(Handled(d.phase, t, d.side, d.events, env), env)
  {
    hide Handled, Finish;
    var d := Handled(c.phase, s, c.side, c.events, env);
    assert s[..|s|] == s && s[|s|..] == [] && [s, t][1..] == [t];
    EatEmpty(d, env);
    OneRead(d, t, env);
  }

  // ---------------------------------------------------------------- room

  /** A read buffer of at least a preface, once its unread bytes are moved to the front, has room for more. */
  lemma AlwaysRoom(c: Conn, capacity: nat)
    requires Ready(c) && c.Conn? && capacity >= |PREFACE|
    ensures |c.unread| < capacity
  {
    hide InFrame;
  }

  /** The scratch buffers of six and eight bytes are never overrun. */
  lemma ScratchFits(c: Conn)
    requires Ready(c) && c.Conn? && c.phase.Payload?
    ensures c.phase.header.kind == SETTINGS ==> |c.phase.held| < 6
    ensures IsControl(c.phase.header) || c.phase.header.kind == GOAWAY ==> |c.phase.held| <= 8
  {
  }
}
