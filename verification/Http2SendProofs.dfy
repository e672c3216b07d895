/**
 What every run of the HTTP/2 send side keeps: no stream with queued work is
 forgotten, both flow-control windows are conserved and stay in range, the
 frames cut from an entry spell its payload, and header blocks are never
 interleaved.
 */
module Http2SendProofs {
  import opened Octets
  import opened Http2Send

  // ---------------------------------------------------------------- measures of a frame sequence

  /** DATA bytes in a frame sequence. */
  function DataTotal(fs: seq<Frame>): int {
    if fs == [] then 0
    else
      var f := fs[|fs| - 1];
      DataTotal(fs[..|fs| - 1]) + (if f.kind.DataFrame? then |f.payload| else 0)
  }

  /** DATA bytes of one stream. */
  function DataBytes(fs: seq<Frame>, id: nat): int {
    if fs == [] then 0
    else
      var f := fs[|fs| - 1];
      DataBytes(fs[..|fs| - 1], id) + (if f.kind.DataFrame? && f.stream == id then |f.payload| else 0)
  }

  /** The payloads of one entry's frames, concatenated in order. */
  function Content(fs: seq<Frame>, entry: nat): seq<bv8> {
    if fs == [] then []
    else
      var f := fs[|fs| - 1];
      Content(fs[..|fs| - 1], entry) + (if f.entry == entry then f.payload else [])
  }

  /** How many frames one entry has. */
  function Count(fs: seq<Frame>, entry: nat): nat {
    if fs == [] then 0
    else Count(fs[..|fs| - 1], entry) + (if fs[|fs| - 1].entry == entry then 1 else 0)
  }

  /**
   The receiver's rule for header blocks: a block opened without END_HEADERS
   must be continued by CONTINUATION frames of the same stream and nothing else.
   */
  datatype BlockState = Between | Inside(stream: nat) | Violated

  function BlockAfter(st: BlockState, f: Frame): BlockState {
    var ends := f.flags & END_HEADERS != 0;
    match st
    case Violated => Violated
    case Between =>
      if f.kind.ContinuationFrame? then Violated
      else if f.kind.HeadersFrame? && !ends then Inside(f.stream)
      else Between
    case Inside(id) =>
      if !f.kind.ContinuationFrame? || f.stream != id then Violated
      else if ends then Between
      else st
  }

  function Blocks(fs: seq<Frame>): BlockState {
    if fs == [] then Between else BlockAfter(Blocks(fs[..|fs| - 1]), fs[|fs| - 1])
  }

  lemma Snoc(fs: seq<Frame>, f: Frame)
    ensures (fs + [f])[..|fs + [f]| - 1] == fs
    ensures DataTotal(fs + [f]) == DataTotal(fs) + (if f.kind.DataFrame? then |f.payload| else 0)
    ensures Blocks(fs + [f]) == BlockAfter(Blocks(fs), f)
    ensures forall id :: DataBytes(fs + [f], id) ==
              DataBytes(fs, id) + (if f.kind.DataFrame? && f.stream == id then |f.payload| else 0)
    ensures forall k :: Content(fs + [f], k) == Content(fs, k) + (if f.entry == k then f.payload else [])
    ensures forall k :: Count(fs + [f], k) == Count(fs, k) + (if f.entry == k then 1 else 0)
  {
    assert (fs + [f])[..|fs|] == fs;
  }

  lemma {:induction false} NoFramesNoBytes(fs: seq<Frame>, id: nat)
    requires forall i :: 0 <= i < |fs| ==> fs[i].stream != id
    ensures DataBytes(fs, id) == 0
  {
    if fs != [] { NoFramesNoBytes(fs[..|fs| - 1], id); }
  }

  lemma {:induction false} NoFramesNoContent(fs: seq<Frame>, k: nat)
    requires forall i :: 0 <= i < |fs| ==> fs[i].entry != k
    ensures Content(fs, k) == [] && Count(fs, k) == 0
  {
    if fs != [] { NoFramesNoContent(fs[..|fs| - 1], k); }
  }

  // ---------------------------------------------------------------- the invariant

  predicate StreamWindowOk(s: Stream, id: nat, fs: seq<Frame>) {
    s.window == s.base + s.granted - DataBytes(fs, id) && InWindowRange(s.window)
  }

  /** Flow-control conservation and bounds. */
  predicate WindowsOk(c: Conn) {
    && c.window == c.granted - DataTotal(c.frames)
    && 0 <= c.window <= MAX_WINDOW
    && 0 <= c.peerInitial <= MAX_WINDOW
    && c.maxFrame > 0
    && forall id :: id in c.streams ==> StreamWindowOk(c.streams[id], id, c.frames)
  }

  /** Every stream has been adjusted to the peer's current initial window. */
  predicate BasesOk(c: Conn) {
    forall id :: id in c.streams ==> c.streams[id].base == c.peerInitial
  }

  predicate Known(lastOdd: nat, lastEven: nat, id: nat) {
    if id % 2 == 1 then id <= lastOdd else id <= lastEven
  }

  predicate IdsOk(c: Conn) {
    (forall id :: id in c.streams ==> Known(c.lastOdd, c.lastEven, id)) &&
    (forall i :: 0 <= i < |c.frames| ==> Known(c.lastOdd, c.lastEven, c.frames[i].stream))
  }

  /** A frame is cut from its entry right behind what the earlier frames of that entry carry. */
  predicate FrameOk(fs: seq<Frame>, i: nat, entries: seq<Entry>)
    requires i < |fs|
  {
    var f := fs[i];
    && f.entry < |entries| && f.payload != []
    && CutAt(f, entries[f.entry], |Content(fs[..i], f.entry)|)
  }

  /** Two states of one entry. */
  predicate SameQueued(a: Entry, b: Entry) {
    && a.stream == b.stream && a.kind == b.kind && a.body == b.body
    && a.firstFlags == b.firstFlags && a.lastFlags == b.lastFlags
  }

  /** `f` is the frame that carries the bytes of `e` from position `at` on. */
  predicate CutAt(f: Frame, e: Entry, at: nat) {
    at + |f.payload| <= |e.body| &&
    f == Cut(e.stream, e.kind, e.body, e.firstFlags, e.lastFlags, at, f.entry, |f.payload|)
  }

  /** The frames of an entry spell the scheduled part of its payload; the finished ones its written part. */
  predicate EntryOk(e: Entry, k: nat, fs: seq<Frame>, done: nat)
    requires done <= |fs|
  {
    && e.written <= e.sent <= |e.body|
    && Content(fs, k) == e.body[..e.sent]
    && |Content(fs[..done], k)| == e.written
    && Count(fs, k) == Count(fs[..done], k) + e.inflight
    && (e.completed ==> e.written == |e.body|) && (e.body != [] && e.written == |e.body| ==> e.completed)
    && (e.kind.Header? ==> e.firstFlags & END_HEADERS == 0 && e.lastFlags & END_HEADERS != 0)
  }

  predicate EntriesOk(c: Conn) {
    && c.done <= |c.frames|
    && (forall i :: 0 <= i < |c.frames| ==> FrameOk(c.frames, i, c.entries))
    && (forall k :: 0 <= k < |c.entries| ==> EntryOk(c.entries[k], k, c.frames, c.done))
  }

  /** An entry that may be queued: there is something left of it, or there never was anything. */
  predicate Unfinished(e: Entry) {
    e.sent < |e.body| || (e.sent == 0 && e.body == [])
  }

  predicate PendingOk(s: Stream, id: nat, entries: seq<Entry>) {
    && (forall i :: 0 <= i < |s.pending| ==>
          s.pending[i] < |entries| && entries[s.pending[i]].stream == id && Unfinished(entries[s.pending[i]]))
    && (forall i, j :: 0 <= i < j < |s.pending| ==> s.pending[i] != s.pending[j])
    && (forall i :: 0 < i < |s.pending| ==> entries[s.pending[i]].sent == 0)
  }

  predicate PendingsOk(c: Conn) {
    forall id :: id in c.streams ==> PendingOk(c.streams[id], id, c.entries)
  }

  /** The head of the queue is a header block that has been sent in part. */
  predicate HalfSentHeader(s: Stream, entries: seq<Entry>) {
    s.pending != [] && s.pending[0] < |entries| &&
    entries[s.pending[0]].kind.Header? && entries[s.pending[0]].sent > 0
  }

  /** Header blocks are whole, except possibly the one at the head of stream `id`. */
  predicate HeadersOk(c: Conn, id: nat) {
    && (forall x :: x in c.streams && x != id ==> !HalfSentHeader(c.streams[x], c.entries))
    && Blocks(c.frames) ==
         (if id in c.streams && HalfSentHeader(c.streams[id], c.entries) then Inside(id) else Between)
  }

  predicate NoHalfSentHeader(c: Conn) {
    && (forall x :: x in c.streams ==> !HalfSentHeader(c.streams[x], c.entries))
    && Blocks(c.frames) == Between
  }

  predicate WaitingOk(c: Conn) {
    Distinct(c.waiting) && forall i :: 0 <= i < |c.waiting| ==> c.waiting[i] in c.streams
  }

  predicate InFlight(fs: seq<Frame>, done: nat, id: nat) {
    exists i :: done <= i < |fs| && fs[i].stream == id
  }

  /** An empty payload was queued on the stream at some time. */
  predicate EmptyOn(entries: seq<Entry>, id: nat) {
    exists k :: 0 <= k < |entries| && entries[k].stream == id && entries[k].body == []
  }

  /**
   A stream that is not closed and has something queued is waiting for its own
   window, is on the connection's wait list, or has a frame in flight whose
   completion will schedule it again.
   */
  predicate Looked(s: Stream, id: nat, entries: seq<Entry>, waiting: seq<nat>, fs: seq<Frame>, done: nat) {
    s.state.Closed? || s.pending == [] || InFlight(fs, done, id) || id in waiting ||
    (s.pending[0] < |entries| && entries[s.pending[0]].kind.Data? && s.window <= 0)
  }

  /** So it is, unless an empty payload was queued on it. */
  predicate NotStalled(s: Stream, id: nat, entries: seq<Entry>, waiting: seq<nat>, fs: seq<Frame>, done: nat) {
    EmptyOn(entries, id) || Looked(s, id, entries, waiting, fs, done)
  }

  predicate LookedIn(c: Conn, id: nat)
    requires id in c.streams
  {
    Looked(c.streams[id], id, c.entries, c.waiting, c.frames, c.done)
  }

  predicate NotStalledIn(c: Conn, id: nat)
    requires id in c.streams
  {
    NotStalled(c.streams[id], id, c.entries, c.waiting, c.frames, c.done)
  }

  predicate NoStall(c: Conn) {
    forall id :: id in c.streams ==> NotStalled(c.streams[id], id, c.entries, c.waiting, c.frames, c.done)
  }

  /** Everything that also holds in the middle of scheduling stream `id`. */
  predicate Core(c: Conn, id: nat) {
    WindowsOk(c) && IdsOk(c) && EntriesOk(c) && PendingsOk(c) && HeadersOk(c, id) && WaitingOk(c)
  }

  /** What holds whenever no scheduling is under way. */
  predicate Settled(c: Conn) {
    && WindowsOk(c) && IdsOk(c) && EntriesOk(c) && PendingsOk(c) && NoHalfSentHeader(c) && WaitingOk(c)
    && NoStall(c)
  }

  /** A stream waits for the connection window only while there is none. */
  predicate WaitsOnlyWhenEmpty(c: Conn) {
    c.waiting != [] ==> c.window <= 0
  }

  /** The invariant between events. */
  predicate Inv(c: Conn) {
    Settled(c) && BasesOk(c) && WaitsOnlyWhenEmpty(c)
  }

  lemma CoreIsWellFormed(c: Conn)
    requires EntriesOk(c) && PendingsOk(c) && WaitingOk(c)
    ensures WellFormed(c) && FramesNameEntries(c)
  {
    forall id | id in c.streams ensures Resolvable(c.streams[id], c.entries) {
      assert PendingOk(c.streams[id], id, c.entries);
    }
    forall i | 0 <= i < |c.frames| ensures c.frames[i].entry < |c.entries| {
      assert FrameOk(c.frames, i, c.entries);
    }
  }

  // ---------------------------------------------------------------- one frame

  /** `n` bytes of the head entry may go out: at least one, and within every limit. */
  predicate Sendable(c: Conn, id: nat, n: nat) {
    && Schedulable(c, id) && c.streams[id].pending != []
    && 0 < n <= |Head(c, id).body| - Head(c, id).sent
    && (Head(c, id).kind.Data? ==> n <= c.window && n <= c.streams[id].window)
  }

  lemma ChunkIsSendable(c: Conn, id: nat)
    requires WindowsOk(c) && Schedulable(c, id) && !LoopStops(c, id)
    requires Head(c, id).sent < |Head(c, id).body|
    ensures 0 < ChunkSize(c, id) <= c.maxFrame && Sendable(c, id, ChunkSize(c, id))
  {
  }

  lemma SendChunkWindows(c: Conn, id: nat, n: nat)
    requires WindowsOk(c) && Sendable(c, id, n) && Head(c, id).stream == id
    ensures WindowsOk(SendChunk(c, id, n))
  {
    var c' := SendChunk(c, id, n);
    Snoc(c.frames, FrameFor(Head(c, id), c.streams[id].pending[0], n));
    forall x | x in c'.streams ensures StreamWindowOk(c'.streams[x], x, c'.frames) {
      assert StreamWindowOk(c.streams[x], x, c.frames);
    }
  }

  lemma CutHere(e: Entry, k: nat, n: nat)
    requires 0 < n && e.sent + n <= |e.body|
    ensures CutAt(FrameFor(e, k, n), e, e.sent) && FrameFor(e, k, n).entry == k && |FrameFor(e, k, n).payload| == n
    ensures FrameFor(e, k, n).stream == e.stream
  {
  }

  /** The cut does not depend on how much of the entry has been sent or written. */
  lemma CutSame(f: Frame, a: Entry, b: Entry, at: nat)
    requires SameQueued(a, b)
    ensures CutAt(f, a, at) <==> CutAt(f, b, at)
  {
    hide Cut;
  }

  lemma SendChunkFrames(c: Conn, id: nat, n: nat)
    requires EntriesOk(c) && IdsOk(c) && Sendable(c, id, n) && Head(c, id).stream == id
    ensures forall i :: 0 <= i < |SendChunk(c, id, n).frames| ==>
              FrameOk(SendChunk(c, id, n).frames, i, SendChunk(c, id, n).entries)
    ensures IdsOk(SendChunk(c, id, n))
  {
    hide Content, Count, FrameFor, CutAt, Known;
    var c' := SendChunk(c, id, n);
    var e, k := Head(c, id), c.streams[id].pending[0];
    CutHere(e, k, n);
    assert Known(c.lastOdd, c.lastEven, id);
    assert EntryOk(e, k, c.frames, c.done) && c.frames[..|c.frames|] == c.frames;
    forall i | 0 <= i < |c'.frames|
      ensures FrameOk(c'.frames, i, c'.entries) && Known(c'.lastOdd, c'.lastEven, c'.frames[i].stream)
    {
      assert c'.frames[..i] == c.frames[..i];
      var at := |Content(c.frames[..i], c'.frames[i].entry)|;
      CutSame(c'.frames[i], e, c'.entries[k], at);
      if i < |c.frames| {
        assert FrameOk(c.frames, i, c.entries) && Known(c.lastOdd, c.lastEven, c.frames[i].stream);
      }
    }
    forall x | x in c'.streams ensures Known(c'.lastOdd, c'.lastEven, x) { assert Known(c.lastOdd, c.lastEven, x); }
  }

  lemma SendChunkEntries(c: Conn, id: nat, n: nat)
    requires EntriesOk(c) && IdsOk(c) && Sendable(c, id, n) && Head(c, id).stream == id
    ensures EntriesOk(SendChunk(c, id, n)) && IdsOk(SendChunk(c, id, n))
  {
    hide Content, Count, DataBytes, DataTotal, Blocks, FrameOk, Known;
    SendChunkFrames(c, id, n);
    var k := c.streams[id].pending[0];
    var e := c.entries[k];
    var c' := SendChunk(c, id, n);
    Snoc(c.frames, FrameFor(e, k, n));
    assert c'.frames[..c.done] == c.frames[..c.done];
    forall x | 0 <= x < |c'.entries| ensures EntryOk(c'.entries[x], x, c'.frames, c'.done) {
      assert EntryOk(c.entries[x], x, c.frames, c.done);
      if x == k {
        assert e.body[..e.sent] + e.body[e.sent..e.sent + n] == e.body[..e.sent + n];
      } else {
        assert Content(c'.frames, x) == Content(c.frames, x) + [];
      }
    }
  }

  /** Changing an entry of another stream does not disturb a pending list. */
  lemma OtherPending(s: Stream, x: nat, entries: seq<Entry>, k: nat, e: Entry)
    requires PendingOk(s, x, entries) && k < |entries| && entries[k].stream != x
    ensures PendingOk(s, x, entries[k := e])
  {
  }

  /** Sending part of the head entry, or all of it and dropping it, keeps the pending list in order. */
  lemma OwnPending(s: Stream, s': Stream, id: nat, entries: seq<Entry>, e: Entry)
    requires PendingOk(s, id, entries) && s.pending != [] && e.stream == id && e.sent <= |e.body|
    requires s'.pending == if e.sent == |e.body| then s.pending[1..] else s.pending
    ensures PendingOk(s', id, entries[s.pending[0] := e])
  {
    var d, now := if e.sent == |e.body| then 1 else 0, entries[s.pending[0] := e];
    forall i | 0 <= i < |s'.pending| ensures s'.pending[i] == s.pending[i + d] {}
    assert forall k :: 0 <= k < |entries| && k != s.pending[0] ==> now[k] == entries[k];
  }

  lemma HeadBelongs(c: Conn, id: nat)
    requires PendingsOk(c) && Schedulable(c, id) && c.streams[id].pending != []
    ensures Head(c, id).stream == id
  {
    assert PendingOk(c.streams[id], id, c.entries);
  }

  lemma SendChunkPending(c: Conn, id: nat, n: nat)
    requires PendingsOk(c) && Sendable(c, id, n)
    ensures PendingsOk(SendChunk(c, id, n))
  {
    hide PendingOk, FrameFor;
    HeadBelongs(c, id);
    var c' := SendChunk(c, id, n);
    var s, k := c.streams[id], c.streams[id].pending[0];
    var e' := c'.entries[k];
    OwnPending(s, c'.streams[id], id, c.entries, e');
    forall x | x in c'.streams ensures PendingOk(c'.streams[x], x, c.entries[k := e']) {
      if x != id {
        assert c'.streams[x] == c.streams[x];
        OtherPending(c.streams[x], x, c.entries, k, e');
      }
    }
    assert c'.entries == c.entries[k := e'];
  }

  lemma FlagsOf(first: bv8, last: bv8)
    requires first & END_HEADERS == 0 && last & END_HEADERS != 0
    ensures (first | last) & END_HEADERS != 0
    ensures (first | 0) & END_HEADERS == 0
    ensures (0 as bv8) & END_HEADERS == 0
  {
  }

  /** What a frame of the head entry does to the receiver's view of header blocks. */
  lemma FrameBlocks(e: Entry, k: nat, n: nat, st: BlockState)
    requires 0 < n && e.sent + n <= |e.body|
    requires e.kind.Header? ==> e.firstFlags & END_HEADERS == 0 && e.lastFlags & END_HEADERS != 0
    requires st == if e.kind.Header? && e.sent > 0 then Inside(e.stream) else Between
    ensures BlockAfter(st, FrameFor(e, k, n)) ==
              if e.kind.Header? && e.sent + n < |e.body| then Inside(e.stream) else Between
  {
    if e.kind.Header? { FlagsOf(e.firstFlags, e.lastFlags); }
  }

  lemma SendChunkHeaders(c: Conn, id: nat, n: nat)
    requires PendingsOk(c) && EntriesOk(c) && HeadersOk(c, id) && Sendable(c, id, n)
    ensures HeadersOk(SendChunk(c, id, n), id)
  {
    var k := c.streams[id].pending[0];
    var e := c.entries[k];
    var c' := SendChunk(c, id, n);
    Snoc(c.frames, FrameFor(e, k, n));
    assert PendingOk(c.streams[id], id, c.entries);
    assert EntryOk(e, k, c.frames, c.done);
    FrameBlocks(e, k, n, Blocks(c.frames));
    forall x | x in c'.streams && x != id ensures !HalfSentHeader(c'.streams[x], c'.entries) {
      assert PendingOk(c.streams[x], x, c.entries);
      assert !HalfSentHeader(c.streams[x], c.entries);
    }
  }

  lemma SendChunkKeepsCore(c: Conn, id: nat, n: nat)
    requires Core(c, id) && Sendable(c, id, n)
    ensures Core(SendChunk(c, id, n), id)
  {
    assert PendingOk(c.streams[id], id, c.entries);
    SendChunkWindows(c, id, n);
    SendChunkEntries(c, id, n);
    SendChunkPending(c, id, n);
    SendChunkHeaders(c, id, n);
  }

  // ---------------------------------------------------------------- one call of schedule_pending

  /** Frames added by scheduling stream `id` belong to it and respect the peer's frame size limit. */
  predicate NewFramesOk(before: seq<Frame>, after: seq<Frame>, id: nat, maxFrame: nat) {
    |before| <= |after| && after[..|before|] == before &&
    forall i :: |before| <= i < |after| ==> after[i].stream == id && 0 < |after[i].payload| <= maxFrame
  }

  /** Scheduling touches only the connection window, its own stream, the entries and the frame queue. */
  predicate OnlyTouches(c: Conn, r: Conn, id: nat)
    requires id in c.streams
  {
    && NewFramesOk(c.frames, r.frames, id, c.maxFrame)
    && r.window <= c.window
    && r.streams.Keys == c.streams.Keys
    && r.streams[id].state == c.streams[id].state && r.streams[id].base == c.streams[id].base
    && r.streams[id].granted == c.streams[id].granted
    && r.lastOdd == c.lastOdd && r.lastEven == c.lastEven
    && (forall x :: x in c.streams && x != id ==> r.streams[x] == c.streams[x])
    && |r.entries| == |c.entries|
    && (forall k :: 0 <= k < |c.entries| ==> SameQueued(r.entries[k], c.entries[k]))
    && r.done == c.done && r.maxFrame == c.maxFrame && r.peerInitial == c.peerInitial && r.granted == c.granted
  }

  lemma SendChunkTouches(c: Conn, id: nat, n: nat)
    requires Sendable(c, id, n) && Head(c, id).stream == id && n <= c.maxFrame
    ensures OnlyTouches(c, SendChunk(c, id, n), id)
    ensures SendChunk(c, id, n).waiting == c.waiting
    ensures |SendChunk(c, id, n).frames| == |c.frames| + 1
  {
    var c' := SendChunk(c, id, n);
    assert c'.frames[..|c.frames|] == c.frames;
  }

  lemma TouchesTransitive(a: Conn, b: Conn, c: Conn, id: nat)
    requires id in a.streams && OnlyTouches(a, b, id) && id in b.streams && OnlyTouches(b, c, id)
    ensures OnlyTouches(a, c, id)
  {
    assert c.frames[..|a.frames|] == c.frames[..|b.frames|][..|a.frames|];
    forall i | |a.frames| <= i < |c.frames|
      ensures c.frames[i].stream == id && 0 < |c.frames[i].payload| <= a.maxFrame
    {
      if i < |b.frames| { assert c.frames[i] == c.frames[..|b.frames|][i]; }
    }
  }

  /** The loop keeps the core invariant and stops only at a window, an empty queue or after queueing a frame. */
  lemma {:induction false} ScheduleLoopKeeps(c: Conn, id: nat)
    requires Core(c, id) && id in c.streams
    ensures Schedulable(c, id) && LoopResult(c, id, ScheduleLoop(c, id))
    decreases |c.streams[id].pending|,
              if id in c.streams && c.streams[id].pending != [] && c.streams[id].pending[0] < |c.entries|
              then |c.entries[c.streams[id].pending[0]].body| - c.entries[c.streams[id].pending[0]].sent else 0
  {
    CoreIsWellFormed(c);
    if LoopStops(c, id) {
      LoopStopsKeeps(c, id);
    } else if Head(c, id).sent == |Head(c, id).body| {
      LoopPops(c, id);
    } else {
      LoopSends(c, id);
      var c' := SendChunk(c, id, ChunkSize(c, id));
      if Head(c, id).kind.Header? {
        assert |c'.streams[id].pending| < |c.streams[id].pending| || c'.streams[id].pending == c.streams[id].pending;
        ScheduleLoopKeeps(c', id);
        TouchesTransitive(c, c', ScheduleLoop(c', id), id);
      }
    }
  }

  predicate LoopResult(c: Conn, id: nat, r: Conn)
    requires id in c.streams
  {
    && Core(r, id) && OnlyTouches(c, r, id) && r.waiting == c.waiting
    && !HalfSentHeader(r.streams[id], r.entries)
    && (r.streams[id].pending == [] || |r.frames| > |c.frames| || EmptyOn(r.entries, id) ||
        (Schedulable(r, id) && HeadIsData(r, id) && (r.streams[id].window <= 0 || r.window <= 0)))
  }

  lemma LoopStopsKeeps(c: Conn, id: nat)
    requires Core(c, id) && Schedulable(c, id) && LoopStops(c, id)
    ensures LoopResult(c, id, c)
  {
    assert PendingOk(c.streams[id], id, c.entries);
    assert c.maxFrame > 0;
    assert c.frames[..|c.frames|] == c.frames;
  }

  /** An empty payload leaves the queue and touches no window and no frame. */
  lemma LoopPops(c: Conn, id: nat)
    requires Core(c, id) && Schedulable(c, id) && !LoopStops(c, id) && Head(c, id).sent == |Head(c, id).body|
    ensures LoopResult(c, id, PopExhausted(c, id))
  {
    hide FrameOk, EntryOk, EntriesOk, PendingsOk, HeadersOk, HalfSentHeader, StreamWindowOk, Known, Distinct;
    var r := PopExhausted(c, id);
    HeadIsEmpty(c, id);
    PopEntries(c, id);
    PopPending(c, id);
    PopWindows(c, id);
    assert c.frames[..|c.frames|] == c.frames;
    var k := c.streams[id].pending[0];
    assert r.entries[k].stream == id && r.entries[k].body == [];
  }

  lemma HeadIsEmpty(c: Conn, id: nat)
    requires PendingsOk(c) && Schedulable(c, id) && c.streams[id].pending != []
    requires Head(c, id).sent == |Head(c, id).body|
    ensures Head(c, id).body == [] && Head(c, id).stream == id
  {
    assert PendingOk(c.streams[id], id, c.entries);
  }

  lemma PopWindows(c: Conn, id: nat)
    requires WindowsOk(c) && Schedulable(c, id) && c.streams[id].pending != []
    ensures WindowsOk(PopExhausted(c, id))
  {
    hide DataBytes, DataTotal;
    var r := PopExhausted(c, id);
    forall x | x in r.streams ensures StreamWindowOk(r.streams[x], x, r.frames) {
      assert StreamWindowOk(c.streams[x], x, c.frames);
    }
  }

  lemma PopEntries(c: Conn, id: nat)
    requires EntriesOk(c) && Schedulable(c, id) && c.streams[id].pending != []
    requires Head(c, id).sent == |Head(c, id).body| && Head(c, id).body == []
    ensures EntriesOk(PopExhausted(c, id))
  {
    hide Content, Count, FrameFor;
    var r, k := PopExhausted(c, id), c.streams[id].pending[0];
    forall x | 0 <= x < |r.entries| ensures EntryOk(r.entries[x], x, r.frames, r.done) {
      assert EntryOk(c.entries[x], x, c.frames, c.done);
    }
    forall i | 0 <= i < |r.frames| ensures FrameOk(r.frames, i, r.entries) {
      assert FrameOk(c.frames, i, c.entries);
      CutSame(r.frames[i], c.entries[k], r.entries[k], |Content(r.frames[..i], r.frames[i].entry)|);
    }
  }

  lemma PopPending(c: Conn, id: nat)
    requires PendingsOk(c) && HeadersOk(c, id) && Schedulable(c, id) && c.streams[id].pending != []
    requires Head(c, id).sent == |Head(c, id).body|
    ensures var r := PopExhausted(c, id);
            PendingsOk(r) && HeadersOk(r, id) && !HalfSentHeader(r.streams[id], r.entries)
  {
    hide Blocks;
    var r, s, k := PopExhausted(c, id), c.streams[id], c.streams[id].pending[0];
    assert PendingOk(s, id, c.entries);
    assert !HalfSentHeader(s, c.entries);
    OwnPending(s, r.streams[id], id, c.entries, r.entries[k]);
    assert r.streams[id].pending != [] ==> r.streams[id].pending[0] == s.pending[1];
    forall x | x in r.streams ensures PendingOk(r.streams[x], x, r.entries) {
      if x != id { OtherPending(c.streams[x], x, c.entries, k, r.entries[k]); }
    }
    forall x | x in r.streams && x != id ensures !HalfSentHeader(r.streams[x], r.entries) {
      assert PendingOk(c.streams[x], x, c.entries);
      assert !HalfSentHeader(c.streams[x], c.entries);
    }
  }

  lemma LoopSends(c: Conn, id: nat)
    requires Core(c, id) && Schedulable(c, id) && !LoopStops(c, id) && Head(c, id).sent != |Head(c, id).body|
    ensures Head(c, id).sent < |Head(c, id).body| && ChunkSize(c, id) > 0
    ensures var c' := SendChunk(c, id, ChunkSize(c, id));
            && Core(c', id) && OnlyTouches(c, c', id) && c'.waiting == c.waiting
            && |c'.frames| == |c.frames| + 1
            && (Head(c, id).kind.Data? ==> !HalfSentHeader(c'.streams[id], c'.entries))
  {
    assert PendingOk(c.streams[id], id, c.entries);
    ChunkIsSendable(c, id);
    SendChunkKeepsCore(c, id, ChunkSize(c, id));
    SendChunkTouches(c, id, ChunkSize(c, id));
  }

  lemma DistinctTail(list: seq<nat>)
    requires Distinct(list) && list != []
    ensures Distinct(list[1..]) && list[0] !in list[1..]
  {
  }

  lemma DistinctCons(x: nat, list: seq<nat>)
    requires Distinct(list) && x !in list
    ensures Distinct([x] + list)
  {
    forall i, j | 0 <= i < j < |[x] + list| ensures ([x] + list)[i] != ([x] + list)[j] {
      assert ([x] + list)[j] == list[j - 1];
      if i > 0 { assert ([x] + list)[i] == list[i - 1]; }
    }
  }

  lemma {:induction false} EraseDistinct(list: seq<nat>, id: nat)
    requires Distinct(list)
    ensures Distinct(Erase(list, id)) && id !in Erase(list, id)
    ensures list != [] && list[0] == id ==> Erase(list, id) == list[1..]
  {
    hide Distinct;
    if list != [] {
      DistinctTail(list);
      if list[0] != id {
        EraseDistinct(list[1..], id);
        EraseMembers(list[1..], id);
        DistinctCons(list[0], Erase(list[1..], id));
      }
    } else {
      DistinctEmpty();
    }
  }

  lemma DistinctEmpty()
    ensures Distinct<nat>([])
  {
  }

  lemma SyncKeepsWaiting(c: Conn, id: nat)
    requires Schedulable(c, id) && WaitingOk(c)
    ensures WaitingOk(SyncWaiting(c, id))
    ensures BlockedByConnWindow(c, id) <==> id in SyncWaiting(c, id).waiting
    ensures forall x :: x != id ==> (x in SyncWaiting(c, id).waiting <==> x in c.waiting)
  {
    var q := SyncWaiting(c, id);
    EraseMembers(c.waiting, id);
    EraseDistinct(c.waiting, id);
    forall i | 0 <= i < |q.waiting| ensures q.waiting[i] in q.streams {
      assert q.waiting[i] in q.waiting;
      assert q.waiting[i] == id || q.waiting[i] in c.waiting;
    }
  }

  /** Everything between events except that stream `id` may need to be looked at. */
  predicate Nearly(c: Conn, id: nat) {
    && WindowsOk(c) && IdsOk(c) && EntriesOk(c) && PendingsOk(c) && NoHalfSentHeader(c) && WaitingOk(c)
    && (forall x :: x in c.streams && x != id ==>
          NotStalled(c.streams[x], x, c.entries, c.waiting, c.frames, c.done))
  }

  lemma SyncKeepsCore(r: Conn, id: nat)
    requires Core(r, id) && Schedulable(r, id) && !HalfSentHeader(r.streams[id], r.entries)
    ensures var q := SyncWaiting(r, id);
            WindowsOk(q) && IdsOk(q) && EntriesOk(q) && PendingsOk(q) && NoHalfSentHeader(q) && WaitingOk(q)
  {
    SyncKeepsWaiting(r, id);
    var q := SyncWaiting(r, id);
  }

  lemma StillNotStalled(c: Conn, r: Conn, id: nat, x: nat)
    requires id in c.streams && OnlyTouches(c, r, id) && x in c.streams && x != id
    requires x in c.waiting ==> x in r.waiting
    requires PendingOk(c.streams[x], x, c.entries)
    requires NotStalledIn(c, x)
    ensures NotStalledIn(r, x)
  {
    if EmptyOn(c.entries, x) {
      var k :| 0 <= k < |c.entries| && c.entries[k].stream == x && c.entries[k].body == [];
      assert SameQueued(r.entries[k], c.entries[k]);
    } else if InFlight(c.frames, c.done, x) {
      var i :| c.done <= i < |c.frames| && c.frames[i].stream == x;
      assert r.frames[..|c.frames|][i] == c.frames[i];
      assert r.frames[i].stream == x;
    }
  }

  /** schedule_pending leaves its own stream with work in flight, blocked by a window, or with nothing to do. */
  lemma ScheduleOwn(c: Conn, id: nat)
    requires Nearly(c, id) && id in c.streams
    ensures WellFormed(c)
    ensures var q := Schedule(c, id);
            && NotStalledIn(q, id) && OnlyTouches(c, q, id)
            && (id in q.waiting ==> q.window <= 0)
            && (forall x :: x != id ==> (x in q.waiting <==> x in c.waiting))
            && WindowsOk(q) && IdsOk(q) && EntriesOk(q) && PendingsOk(q) && NoHalfSentHeader(q) && WaitingOk(q)
  {
    CoreIsWellFormed(c);
    ScheduleLoopKeeps(c, id);
    var r := ScheduleLoop(c, id);
    SyncKeepsWaiting(r, id);
    SyncKeepsCore(r, id);
    var q := Schedule(c, id);
    if |r.frames| > |c.frames| {
      assert q.frames[|q.frames| - 1].stream == id;
      assert InFlight(q.frames, q.done, id);
    }
  }

  lemma ScheduleKeeps(c: Conn, id: nat)
    requires Nearly(c, id) && id in c.streams
    ensures WellFormed(c)
    ensures Settled(Schedule(c, id))
    ensures OnlyTouches(c, Schedule(c, id), id)
    ensures id in Schedule(c, id).waiting ==> Schedule(c, id).window <= 0
    ensures forall x :: x != id ==> (x in Schedule(c, id).waiting <==> x in c.waiting)
  {
    ScheduleOwn(c, id);
    var q := Schedule(c, id);
    forall x | x in q.streams && x != id ensures NotStalledIn(q, x) {
      assert PendingOk(c.streams[x], x, c.entries);
      StillNotStalled(c, q, id, x);
    }
  }

  // ---------------------------------------------------------------- the events

  lemma SettledIsWellFormed(c: Conn)
    requires Settled(c)
    ensures WellFormed(c) && FramesNameEntries(c) && WaitingOk(c)
  {
    CoreIsWellFormed(c);
  }

  lemma TryScheduleKeeps(c: Conn, id: nat)
    requires Nearly(c, id) && id in c.streams
    ensures WellFormed(c)
    ensures var q := TrySchedule(c, id);
            && Settled(q) && OnlyTouches(c, q, id)
            && (WaitsOnlyWhenEmpty(c) ==> WaitsOnlyWhenEmpty(q))
            && (BasesOk(c) ==> BasesOk(q))
  {
    hide Nearly, Settled, Schedule, NewFramesOk, WellFormed;
    NearlyIsWellFormed(c, id);
    if c.streams[id].state.Closed? {
      NearlyClosed(c, id);
    } else {
      ScheduleKeeps(c, id);
      var q := Schedule(c, id);
      if q.waiting != [] && WaitsOnlyWhenEmpty(c) {
        assert q.waiting[0] == id || q.waiting[0] in c.waiting;
      }
    }
  }

  lemma NearlyIsWellFormed(c: Conn, id: nat)
    requires Nearly(c, id)
    ensures WellFormed(c) && FramesNameEntries(c)
  {
    CoreIsWellFormed(c);
  }

  lemma NearlyClosed(c: Conn, id: nat)
    requires Nearly(c, id) && id in c.streams && c.streams[id].state.Closed?
    ensures Settled(c) && NewFramesOk(c.frames, c.frames, id, c.maxFrame)
  {
    hide WindowsOk, IdsOk, EntriesOk, PendingsOk, NoHalfSentHeader, WaitingOk;
    assert c.frames[..|c.frames|] == c.frames;
  }

  lemma ServedLeavesList(c: Conn, id: nat)
    requires Settled(c) && c.waiting != [] && c.waiting[0] == id && WellFormed(c)
    requires Schedule(c, id).window > 0
    ensures Schedule(c, id).waiting == c.waiting[1..]
  {
    ScheduleLoopKeeps(c, id);
    EraseDistinct(c.waiting, id);
  }

  /** Serving the wait list either empties it or uses up the connection window. */
  lemma {:induction false} DrainKeeps(c: Conn)
    requires Settled(c)
    ensures WellFormed(c)
    ensures var q := DrainPass(c, c.waiting);
            Settled(q) && WaitsOnlyWhenEmpty(q) && (BasesOk(c) ==> BasesOk(q))
    decreases |c.waiting|
  {
    hide Settled, BasesOk, WaitingOk, Schedule, FramesNameEntries;
    SettledIsWellFormed(c);
    if c.waiting != [] && c.window > 0 {
      ServeHead(c);
      var q := Schedule(c, c.waiting[0]);
      SettledIsWellFormed(q);
      if q.window > 0 { DrainKeeps(q); }
    }
  }

  lemma ServeHead(c: Conn)
    requires Settled(c) && WellFormed(c) && c.waiting != []
    ensures var q := Schedule(c, c.waiting[0]);
            Settled(q) && (BasesOk(c) ==> BasesOk(q)) &&
            (q.window <= 0 ==> WaitsOnlyWhenEmpty(q)) &&
            (q.window > 0 ==> q.waiting == c.waiting[1..])
  {
    hide WindowsOk, EntriesOk, IdsOk, PendingsOk, NoHalfSentHeader, NotStalled, Schedule, NewFramesOk;
    ScheduleKeeps(c, c.waiting[0]);
    if Schedule(c, c.waiting[0]).window > 0 { ServedLeavesList(c, c.waiting[0]); }
  }

  lemma GrantKeepsSettled(c: Conn, n: nat)
    requires Settled(c) && c.window + n <= MAX_WINDOW
    ensures Settled(c.(window := c.window + n, granted := c.granted + n))
  {
    hide StreamWindowOk, FrameOk, EntryOk, PendingOk, NotStalled, HalfSentHeader, Distinct;
  }

  lemma ConnWindowUpdateKeeps(c: Conn, n: nat)
    requires Inv(c)
    ensures WellFormed(c) && Inv(ConnWindowUpdate(c, n))
  {
    hide Settled, DrainPass, WaitingOk, FramesNameEntries;
    SettledIsWellFormed(c);
    if n != 0 && c.window + n <= MAX_WINDOW {
      GrantKeepsSettled(c, n);
      var c' := c.(window := c.window + n, granted := c.granted + n);
      assert BasesOk(c');
      DrainKeeps(c');
    }
  }

  /** Settled does not depend on the peer's initial window or its frame size limit. */
  lemma SettingsKeepSettled(c: Conn, peerInitial: int, maxFrame: nat)
    requires Settled(c) && 0 <= peerInitial <= MAX_WINDOW && maxFrame > 0
    ensures Settled(c.(peerInitial := peerInitial)) && Settled(c.(maxFrame := maxFrame))
  {
    hide StreamWindowOk, FrameOk, EntryOk, PendingOk, NotStalled, HalfSentHeader, Distinct;
  }

  lemma MaxFrameKeeps(c: Conn, value: nat)
    requires Inv(c)
    ensures Inv(MaxFrameSetting(c, value))
  {
    if MIN_MAX_FRAME <= value <= MAX_MAX_FRAME {
      SettingsKeepSettled(c, c.peerInitial, value);
    }
  }

  /** A new stream has nothing queued and the whole initial window. */
  lemma NewStreamOk(c: Conn, id: nat)
    requires IdsOk(c) && FreshId(c, id) && 0 <= c.peerInitial <= MAX_WINDOW
    ensures var s := Stream(Idle, c.peerInitial, c.peerInitial, 0, []);
            && StreamWindowOk(s, id, c.frames) && PendingOk(s, id, c.entries)
            && NotStalled(s, id, c.entries, c.waiting, c.frames, c.done) && !HalfSentHeader(s, c.entries)
  {
    forall i | 0 <= i < |c.frames| ensures c.frames[i].stream != id {
      assert Known(c.lastOdd, c.lastEven, c.frames[i].stream);
    }
    NoFramesNoBytes(c.frames, id);
  }

  lemma CreateKeeps(c: Conn, id: nat)
    requires Inv(c) && FreshId(c, id)
    ensures Inv(Create(c, id))
  {
    hide FrameOk, EntryOk, HalfSentHeader, Distinct, StreamWindowOk, PendingOk, NotStalled;
    NewStreamOk(c, id);
    var c' := Create(c, id);
    assert forall x :: x in c'.streams ==> x == id || (x in c.streams && c'.streams[x] == c.streams[x]);
  }

  lemma NotStalledWithout(s: Stream, x: nat, entries: seq<Entry>, waiting: seq<nat>, fs: seq<Frame>, done: nat, id: nat)
    requires NotStalled(s, x, entries, waiting, fs, done) && x != id
    ensures NotStalled(s, x, entries, Erase(waiting, id), fs, done)
  {
    EraseMembers(waiting, id);
  }

  lemma EraseWaiting(c: Conn, id: nat)
    requires WaitingOk(c)
    ensures WaitingOk(Remove(c, id))
    ensures Remove(c, id).waiting != [] ==> c.waiting != []
  {
    EraseDistinct(c.waiting, id);
    EraseMembers(c.waiting, id);
    var w := Erase(c.waiting, id);
    forall i | 0 <= i < |w| ensures w[i] in c.streams && w[i] != id {
      assert w[i] in w;
    }
  }

  lemma RemoveKeeps(c: Conn, id: nat)
    requires Inv(c)
    ensures Inv(Remove(c, id))
  {
    hide FrameOk, EntryOk, HalfSentHeader, StreamWindowOk, PendingOk, NotStalled, WaitingOk, Erase, Known;
    var c' := Remove(c, id);
    EraseWaiting(c, id);
    assert forall x :: x in c'.streams ==> x != id && x in c.streams && c'.streams[x] == c.streams[x];
    forall x | x in c'.streams
      ensures NotStalled(c'.streams[x], x, c'.entries, c'.waiting, c'.frames, c'.done)
    {
      NotStalledWithout(c.streams[x], x, c.entries, c.waiting, c.frames, c.done, id);
    }
  }

  /** Replacing one stream by a version with the same queue: it may need another look. */
  lemma RestyleKeeps(c: Conn, id: nat, s: Stream)
    requires Settled(c) && id in c.streams && s.pending == c.streams[id].pending
    requires StreamWindowOk(s, id, c.frames)
    ensures Nearly(c.(streams := c.streams[id := s]), id)
  {
    hide FrameOk, EntryOk, NotStalled, StreamWindowOk, PendingOk, HalfSentHeader, Distinct, Known;
    var c' := c.(streams := c.streams[id := s]);
    SameQueue(s, c.streams[id], id, c.entries);
    assert forall x :: x in c'.streams ==> x == id || (x in c.streams && c'.streams[x] == c.streams[x]);
  }

  lemma SameQueue(s: Stream, s': Stream, id: nat, entries: seq<Entry>)
    requires s.pending == s'.pending
    ensures PendingOk(s', id, entries) ==> PendingOk(s, id, entries)
    ensures HalfSentHeader(s', entries) <==> HalfSentHeader(s, entries)
  {
  }

  /** Nearly settled plus the stream itself not stalled is settled. */
  lemma NearlySettled(c: Conn, id: nat)
    requires Nearly(c, id) && id in c.streams && NotStalledIn(c, id)
    ensures Settled(c)
  {
    hide NotStalled, WindowsOk, IdsOk, EntriesOk, PendingsOk, NoHalfSentHeader, WaitingOk;
  }

  lemma ReceiveKeeps(c: Conn, id: nat, kind: PendingKind, endStream: bool)
    requires Inv(c) && id in c.streams
    ensures Inv(Receive(c, id, kind, endStream))
  {
    hide Settled, Nearly;
    var s := c.streams[id];
    if !MayReceive(s.state, kind) {
      RemoveKeeps(c, id);
    } else {
      var s' := s.(state := AfterReceive(s.state, endStream));
      SettledStream(c, id);
      RestyleKeeps(c, id, s');
      NearlySettled(c.(streams := c.streams[id := s']), id);
    }
  }

  lemma SettledStream(c: Conn, id: nat)
    requires Settled(c) && id in c.streams
    ensures StreamWindowOk(c.streams[id], id, c.frames) && NotStalledIn(c, id)
    ensures PendingOk(c.streams[id], id, c.entries) && Schedulable(c, id)
    ensures !HalfSentHeader(c.streams[id], c.entries)
  {
    SettledIsWellFormed(c);
  }

  lemma AppendEntries(c: Conn, id: nat, e: Entry)
    requires EntriesOk(c) && id in c.streams
    requires e.sent == e.written == e.inflight == 0 && !e.completed
    requires e.kind.Header? ==> e.firstFlags & END_HEADERS == 0 && e.lastFlags & END_HEADERS != 0
    ensures EntriesOk(Append(c, id, e))
  {
    hide Content, Count;
    var c' := Append(c, id, e);
    var k := |c.entries|;
    forall i | 0 <= i < |c.frames| ensures c.frames[i].entry != k { assert FrameOk(c.frames, i, c.entries); }
    NoFramesNoContent(c.frames, k);
    NoFramesNoContent(c.frames[..c.done], k);
    forall x | 0 <= x < |c'.entries| ensures EntryOk(c'.entries[x], x, c'.frames, c'.done) {
      if x < k { assert EntryOk(c.entries[x], x, c.frames, c.done); }
    }
    forall i | 0 <= i < |c'.frames| ensures FrameOk(c'.frames, i, c'.entries) {
      assert FrameOk(c.frames, i, c.entries);
    }
  }

  lemma LongerPending(s: Stream, x: nat, entries: seq<Entry>, e: Entry)
    requires PendingOk(s, x, entries)
    ensures PendingOk(s, x, entries + [e])
    ensures HalfSentHeader(s, entries + [e]) <==> HalfSentHeader(s, entries)
    ensures e.stream == x && e.sent == 0 ==>
              PendingOk(s.(pending := s.pending + [|entries|]), x, entries + [e])
    ensures e.sent == 0 && !HalfSentHeader(s, entries) ==>
              !HalfSentHeader(s.(pending := s.pending + [|entries|]), entries + [e])
  {
  }

  lemma LongerNotStalled(s: Stream, x: nat, entries: seq<Entry>, e: Entry, w: seq<nat>, fs: seq<Frame>, done: nat)
    requires NotStalled(s, x, entries, w, fs, done)
    ensures NotStalled(s, x, entries + [e], w, fs, done)
  {
    if EmptyOn(entries, x) {
      var k :| 0 <= k < |entries| && entries[k].stream == x && entries[k].body == [];
      assert (entries + [e])[k] == entries[k];
    }
  }

  lemma AppendKeeps(c: Conn, id: nat, e: Entry)
    requires Nearly(c, id) && id in c.streams && e.stream == id
    requires e.sent == e.written == e.inflight == 0 && !e.completed
    requires e.kind.Header? ==> e.firstFlags & END_HEADERS == 0 && e.lastFlags & END_HEADERS != 0
    ensures Nearly(Append(c, id, e), id)
  {
    hide EntriesOk, StreamWindowOk, PendingOk, NotStalled, HalfSentHeader, Distinct, Known;
    AppendEntries(c, id, e);
    var c' := Append(c, id, e);
    var s, s' := c.streams[id], c'.streams[id];
    assert StreamWindowOk(s', id, c.frames) by { SameWindow(s, s', id, c.frames); }
    assert forall x :: x in c'.streams ==> x == id || (x in c.streams && c'.streams[x] == c.streams[x]);
    forall x | x in c'.streams
      ensures PendingOk(c'.streams[x], x, c'.entries) && !HalfSentHeader(c'.streams[x], c'.entries)
      ensures x != id ==> NotStalled(c'.streams[x], x, c'.entries, c'.waiting, c'.frames, c'.done)
    {
      LongerPending(c.streams[x], x, c.entries, e);
      if x != id { LongerNotStalled(c.streams[x], x, c.entries, e, c.waiting, c.frames, c.done); }
    }
  }

  lemma SameWindow(s: Stream, s': Stream, id: nat, fs: seq<Frame>)
    requires s.window == s'.window && s.base == s'.base && s.granted == s'.granted
    requires StreamWindowOk(s, id, fs)
    ensures StreamWindowOk(s', id, fs)
  {
  }

  lemma RestyleSameWindow(c: Conn, id: nat, s: Stream)
    requires Settled(c) && id in c.streams && s == c.streams[id].(state := s.state)
    ensures Nearly(c.(streams := c.streams[id := s]), id)
  {
    hide Settled, Nearly, StreamWindowOk;
    SettledStream(c, id);
    SameWindow(c.streams[id], s, id, c.frames);
    RestyleKeeps(c, id, s);
  }

  /** A stream that moves to Closed cannot be stalled any more. */
  lemma EnqueueKeeps(c: Conn, id: nat, e: Entry)
    requires Nearly(c, id) && id in c.streams && BasesOk(c) && WaitsOnlyWhenEmpty(c)
    requires e.stream == id && e.sent == e.written == e.inflight == 0 && !e.completed
    requires e.kind.Header? ==> e.firstFlags & END_HEADERS == 0 && e.lastFlags & END_HEADERS != 0
    ensures Schedulable(c, id) && Inv(Enqueue(c, id, e))
  {
    hide Nearly, Settled, TrySchedule, OnlyTouches;
    NearlyIsWellFormed(c, id);
    if c.streams[id].state.Closed? {
      NearlyClosed(c, id);
    } else {
      AppendKeeps(c, id, e);
      TryScheduleKeeps(Append(c, id, e), id);
    }
  }

  lemma SendKeeps(c: Conn, id: nat, kind: PendingKind, body: seq<bv8>, endStream: bool)
    requires Inv(c) && id in c.streams
    ensures Schedulable(c, id) && Inv(Send(c, id, kind, body, endStream))
  {
    hide Settled, Nearly, Enqueue;
    SettledIsWellFormed(c);
    var s := c.streams[id];
    if MaySend(s.state, kind) {
      var s' := s.(state := AfterSend(s.state, endStream));
      RestyleSameWindow(c, id, s');
      EnqueueKeeps(c.(streams := c.streams[id := s']), id, NewEntry(id, kind, body, endStream));
    }
  }

  lemma StreamWindowUpdateKeeps(c: Conn, id: nat, n: nat)
    requires Inv(c) && id in c.streams
    ensures Schedulable(c, id) && Inv(StreamWindowUpdate(c, id, n))
  {
    hide Settled, Nearly, TrySchedule, OnlyTouches, PendingOk, NotStalled, HalfSentHeader;
    SettledStream(c, id);
    var s := c.streams[id];
    if n == 0 || s.window + n > MAX_WINDOW {
      RemoveKeeps(c, id);
    } else {
      var s1 := s.(granted := s.granted + n);
      var s2 := s1.(window := s1.window + n);
      assert c.streams[id := s1][id := s2] == c.streams[id := s2];
      RestyleKeeps(c, id, s2);
      TryScheduleKeeps(c.(streams := c.streams[id := s2]), id);
    }
  }

  lemma ShiftWindowKeeps(c: Conn, id: nat, delta: int)
    requires Settled(c) && id in c.streams && WaitsOnlyWhenEmpty(c)
    requires InWindowRange(c.streams[id].window + delta)
    ensures Schedulable(c, id)
    ensures var q := ShiftWindow(c, id, delta);
            && Settled(q) && WaitsOnlyWhenEmpty(q) && WellFormed(q)
            && q.streams.Keys == c.streams.Keys
            && q.streams[id].base == c.streams[id].base + delta
            && (forall x :: x in c.streams && x != id ==> q.streams[x] == c.streams[x])
            && q.peerInitial == c.peerInitial
  {
    hide Settled, Nearly, TrySchedule, PendingOk, NotStalled, HalfSentHeader, NewFramesOk;
    SettledStream(c, id);
    var s := c.streams[id];
    var s1 := s.(base := s.base + delta);
    var s2 := s1.(window := s1.window + delta);
    assert c.streams[id := s1][id := s2] == c.streams[id := s2];
    RestyleKeeps(c, id, s2);
    TryScheduleKeeps(c.(streams := c.streams[id := s2]), id);
    SettledIsWellFormed(ShiftWindow(c, id, delta));
  }

  /** The streams of `order` move by `delta`, the others stay. */
  lemma {:induction false} ShiftWindowsKeeps(c: Conn, order: seq<nat>, delta: int)
    requires Settled(c) && WaitsOnlyWhenEmpty(c) && Distinct(order)
    requires forall i :: 0 <= i < |order| ==>
               order[i] in c.streams && InWindowRange(c.streams[order[i]].window + delta)
    ensures WellFormed(c)
    ensures var q := ShiftWindows(c, order, delta);
            && Settled(q) && WaitsOnlyWhenEmpty(q) && q.streams.Keys == c.streams.Keys
            && q.peerInitial == c.peerInitial
            && (forall x :: x in c.streams ==>
                  q.streams[x].base == c.streams[x].base + (if x in order then delta else 0))
    decreases |order|
  {
    hide Settled, ShiftWindow, WellFormed, WaitsOnlyWhenEmpty;
    SettledIsWellFormed(c);
    if order != [] {
      ShiftWindowKeeps(c, order[0], delta);
      var q := ShiftWindow(c, order[0], delta);
      ShiftWindowsKeeps(q, order[1..], delta);
      assert forall x :: x in order <==> x == order[0] || x in order[1..];
    }
  }

  lemma InitialWindowKeeps(c: Conn, value: nat, order: seq<nat>)
    requires Inv(c) && Enumerates(order, c.streams.Keys)
    ensures WellFormed(c) && Inv(InitialWindowSetting(c, value, order))
  {
    hide Settled, ShiftWindows, WellFormed;
    SettledIsWellFormed(c);
    if value != c.peerInitial && AcceptsInitialWindow(c, value) {
      var delta := value - c.peerInitial;
      ShiftWindowsKeeps(c, order, delta);
      var q := ShiftWindows(c, order, delta);
      assert q.peerInitial == c.peerInitial;
      SettledLimits(q);
      SettingsKeepSettled(q, value, q.maxFrame);
    }
  }

  lemma SettledLimits(c: Conn)
    requires Settled(c)
    ensures c.maxFrame > 0 && c.done <= |c.frames| && FramesNameEntries(c)
  {
    SettledIsWellFormed(c);
  }

  /** The frames of an entry that are finished carry a prefix of its content, and every frame carries something. */
  lemma {:induction false} PrefixMeasures(fs: seq<Frame>, n: nat, k: nat)
    requires n <= |fs| && forall i :: 0 <= i < |fs| ==> fs[i].payload != []
    ensures Count(fs[..n], k) <= Count(fs, k)
    ensures |Content(fs, k)| - |Content(fs[..n], k)| >= Count(fs, k) - Count(fs[..n], k)
    decreases |fs|
  {
    if n == |fs| {
      assert fs[..n] == fs;
    } else {
      PrefixMeasures(fs[..|fs| - 1], n, k);
      assert fs[..|fs| - 1][..n] == fs[..n];
    }
  }

  /** One more frame of entry `k` is finished. */
  lemma WrittenKeepsEntry(e: Entry, k: nat, fs: seq<Frame>, done: nat)
    requires done < |fs| && EntryOk(e, k, fs, done) && fs[done].entry == k
    requires forall i :: 0 <= i < |fs| ==> fs[i].payload != []
    ensures EntryOk(Written(e, |fs[done].payload|), k, fs, done + 1)
  {
    hide Content, Count;
    assert fs[..done + 1] == fs[..done] + [fs[done]];
    Snoc(fs[..done], fs[done]);
    PrefixMeasures(fs, done + 1, k);
  }

  lemma OtherEntryWritten(e: Entry, x: nat, fs: seq<Frame>, done: nat)
    requires done < |fs| && EntryOk(e, x, fs, done) && fs[done].entry != x
    ensures EntryOk(e, x, fs, done + 1)
  {
    hide Content, Count;
    assert fs[..done + 1] == fs[..done] + [fs[done]];
    Snoc(fs[..done], fs[done]);
  }

  /** The state of the connection just after the writer has finished the oldest frame. */
  function Finished(c: Conn): Conn
    requires c.done < |c.frames| && c.frames[c.done].entry < |c.entries|
  {
    var f := c.frames[c.done];
    c.(done := c.done + 1, entries := c.entries[f.entry := Written(c.entries[f.entry], |f.payload|)])
  }

  lemma FinishedEntries(c: Conn)
    requires EntriesOk(c) && c.done < |c.frames|
    ensures c.frames[c.done].entry < |c.entries| && EntriesOk(Finished(c))
  {
    hide EntryOk;
    var f := c.frames[c.done];
    assert FrameOk(c.frames, c.done, c.entries);
    var c' := Finished(c);
    forall i | 0 <= i < |c'.frames| ensures FrameOk(c'.frames, i, c'.entries) && c.frames[i].payload != [] {
      assert FrameOk(c.frames, i, c.entries);
      CutSame(c.frames[i], c.entries[f.entry], c'.entries[f.entry], |Content(c.frames[..i], c.frames[i].entry)|);
    }
    forall x | 0 <= x < |c'.entries| ensures EntryOk(c'.entries[x], x, c'.frames, c'.done) {
      assert EntryOk(c.entries[x], x, c.frames, c.done);
      if x == f.entry { WrittenKeepsEntry(c.entries[x], x, c.frames, c.done); }
      else { OtherEntryWritten(c.entries[x], x, c.frames, c.done); }
    }
  }

  lemma FinishedPending(s: Stream, x: nat, entries: seq<Entry>, k: nat, bytes: nat)
    requires PendingOk(s, x, entries) && k < |entries|
    ensures PendingOk(s, x, entries[k := Written(entries[k], bytes)])
    ensures HalfSentHeader(s, entries[k := Written(entries[k], bytes)]) <==> HalfSentHeader(s, entries)
  {
  }

  lemma FinishedNotStalled(s: Stream, x: nat, entries: seq<Entry>, w: seq<nat>, fs: seq<Frame>, done: nat, bytes: nat)
    requires NotStalled(s, x, entries, w, fs, done) && done < |fs| && fs[done].entry < |entries| && fs[done].stream != x
    ensures NotStalled(s, x, entries[fs[done].entry := Written(entries[fs[done].entry], bytes)], w, fs, done + 1)
  {
    if EmptyOn(entries, x) {
      var k :| 0 <= k < |entries| && entries[k].stream == x && entries[k].body == [];
      var later := entries[fs[done].entry := Written(entries[fs[done].entry], bytes)];
      assert later[k].stream == x && later[k].body == [];
    } else if InFlight(fs, done, x) {
      var i :| done <= i < |fs| && fs[i].stream == x;
      assert i != done;
    }
  }

  lemma FinishedKeeps(c: Conn)
    requires Settled(c) && c.done < |c.frames|
    ensures c.frames[c.done].entry < |c.entries| && Nearly(Finished(c), c.frames[c.done].stream)
  {
    hide EntriesOk, StreamWindowOk, PendingOk, NotStalled, HalfSentHeader, Distinct, Known, Written;
    FinishedEntries(c);
    var f := c.frames[c.done];
    var c' := Finished(c);
    forall x | x in c'.streams
      ensures PendingOk(c'.streams[x], x, c'.entries) && !HalfSentHeader(c'.streams[x], c'.entries)
      ensures x != f.stream ==> NotStalled(c'.streams[x], x, c'.entries, c'.waiting, c'.frames, c'.done)
    {
      FinishedPending(c.streams[x], x, c.entries, f.entry, |f.payload|);
      if x != f.stream {
        FinishedNotStalled(c.streams[x], x, c.entries, c.waiting, c.frames, c.done, |f.payload|);
      }
    }
  }

  lemma NearlyWithout(c: Conn, id: nat)
    requires Nearly(c, id) && id !in c.streams
    ensures Settled(c)
  {
    hide WindowsOk, IdsOk, EntriesOk, PendingsOk, NoHalfSentHeader, WaitingOk, NotStalled;
  }

  lemma SendDoneKeeps(c: Conn)
    requires Inv(c)
    ensures WellFormed(c) && FramesNameEntries(c)
    ensures c.done < |c.frames| ==> Inv(SendDone(c))
  {
    hide Settled, Nearly, TrySchedule, OnlyTouches;
    SettledIsWellFormed(c);
    if c.done < |c.frames| {
      FinishedKeeps(c);
      var id := c.frames[c.done].stream;
      if id in c.streams {
        TryScheduleKeeps(Finished(c), id);
      } else {
        NearlyWithout(Finished(c), id);
      }
    }
  }

  // ---------------------------------------------------------------- whole runs

  lemma StepKeeps(c: Conn, ev: Event)
    requires Inv(c)
    ensures WellFormed(c) && FramesNameEntries(c) && Inv(Step(c, ev))
  {
    hide Inv, Create, Send, Receive, ConnWindowUpdate, StreamWindowUpdate, InitialWindowSetting,
         MaxFrameSetting, SendDone, Remove, WellFormed, FramesNameEntries;
    InvIsWellFormed(c);
    match ev
    case EvCreate(id) => if FreshId(c, id) { CreateKeeps(c, id); }
    case EvSend(id, kind, body, endStream) => if id in c.streams { SendKeeps(c, id, kind, body, endStream); }
    case EvReceive(id, kind, endStream) => if id in c.streams { ReceiveKeeps(c, id, kind, endStream); }
    case EvConnWindowUpdate(n) => ConnWindowUpdateKeeps(c, n);
    case EvStreamWindowUpdate(id, n) => if id in c.streams { StreamWindowUpdateKeeps(c, id, n); }
    case EvInitialWindow(value, order) =>
      if Enumerates(order, c.streams.Keys) { InitialWindowKeeps(c, value, order); }
    case EvMaxFrame(value) => MaxFrameKeeps(c, value);
    case EvSendDone => SendDoneKeeps(c);
    case EvRemove(id) => RemoveKeeps(c, id);
  }

  lemma InvIsWellFormed(c: Conn)
    requires Inv(c)
    ensures WellFormed(c) && FramesNameEntries(c)
  {
    SettledIsWellFormed(c);
  }

  lemma InitInv(window: int, peerInitial: int, maxFrame: nat)
    requires 0 <= window <= MAX_WINDOW && 0 <= peerInitial <= MAX_WINDOW && maxFrame > 0
    ensures Inv(Init(window, peerInitial, maxFrame))
  {
  }

  /** The state after a list of events; every state on the way satisfies the invariant. */
  function Run(c: Conn, evs: seq<Event>): (r: Conn)
    requires Inv(c)
    ensures Inv(r)
  {
    if evs == [] then c
    else
      var before := Run(c, evs[..|evs| - 1]);
      StepKeeps(before, evs[|evs| - 1]);
      Step(before, evs[|evs| - 1])
  }

  lemma RunSnoc(c: Conn, evs: seq<Event>, ev: Event)
    requires Inv(c)
    ensures WellFormed(Run(c, evs)) && FramesNameEntries(Run(c, evs))
    ensures Run(c, evs + [ev]) == Step(Run(c, evs), ev)
  {
    assert (evs + [ev])[..|evs + [ev]| - 1] == evs;
    InvIsWellFormed(Run(c, evs));
  }
}
