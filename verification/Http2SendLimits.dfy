/**
 Where the send side falls short, and exactly when: an empty payload can hide
 the work queued behind it and never ends its stream, the last frame of a stream
 the peer has already half-closed is refused, and what a closed stream still has
 queued is served only from the wait list.
 */
module Http2SendLimits {
  import opened Octets
  import opened Http2Send
  import opened Http2SendProofs
  import opened Http2SendTheorems

  /** Pending entries belong to the stream. */
  predicate OwnEntries(s: Stream, id: nat, entries: seq<Entry>) {
    forall i :: 0 <= i < |s.pending| ==> s.pending[i] < |entries| && entries[s.pending[i]].stream == id
  }

  predicate Ready(c: Conn, id: nat) {
    Schedulable(c, id) && OwnEntries(c.streams[id], id, c.entries) && c.maxFrame > 0 && c.done <= |c.frames|
  }

  /** An entry that must wait for a window. */
  predicate Waits(c: Conn, s: Stream, e: Entry) {
    e.kind.Data? && (s.window <= 0 || c.window <= 0)
  }

  /**
   The queue starts with an exhausted entry that is not itself held back by a
   window, and the entry behind it could be sent now.
   */
  predicate EmptyHeadHidesWork(c: Conn, id: nat)
    requires Ready(c, id)
  {
    var s := c.streams[id];
    |s.pending| >= 2 &&
    c.entries[s.pending[0]].sent == |c.entries[s.pending[0]].body| &&
    !Waits(c, s, c.entries[s.pending[0]]) &&
    !Waits(c, s, c.entries[s.pending[1]])
  }

  /** Scheduling only appends frames of its own stream. */
  lemma {:induction false} LoopAppends(c: Conn, id: nat)
    requires Ready(c, id)
    ensures var r := ScheduleLoop(c, id);
            && |c.frames| <= |r.frames| && r.done == c.done
            && (forall i :: 0 <= i < |c.frames| ==> r.frames[i] == c.frames[i])
            && (forall i :: |c.frames| <= i < |r.frames| ==> r.frames[i].stream == id)
            && r.streams[id].state == c.streams[id].state
    decreases |c.streams[id].pending|,
              if c.streams[id].pending != [] then |Head(c, id).body| - Head(c, id).sent else 0
  {
    if !LoopStops(c, id) && Head(c, id).sent != |Head(c, id).body| && Head(c, id).kind.Header? {
      var c' := SendChunk(c, id, ChunkSize(c, id));
      assert c'.streams[id].pending == c.streams[id].pending || c'.streams[id].pending == c.streams[id].pending[1..];
      LoopAppends(c', id);
    }
  }

  /** If the head entry can go out, scheduling puts a frame in flight. */
  lemma HeadGoesOut(c: Conn, id: nat)
    requires Ready(c, id) && c.streams[id].pending != []
    requires Head(c, id).sent < |Head(c, id).body| && !Waits(c, c.streams[id], Head(c, id))
    ensures var q := Schedule(c, id);
            |q.frames| > |c.frames| && q.frames[|c.frames|].stream == id && InFlight(q.frames, q.done, id)
  {
    assert !LoopStops(c, id);
    var c' := SendChunk(c, id, ChunkSize(c, id));
    assert c'.streams[id].pending == c.streams[id].pending || c'.streams[id].pending == c.streams[id].pending[1..];
    assert Ready(c', id);
    LoopAppends(c', id);
    var q := Schedule(c, id);
    assert q.frames[|c.frames|].stream == id;
  }

  /** `n` is the least of what is left of an entry, the frame limit and, for DATA, both windows. */
  predicate IsLongest(c: Conn, id: nat, n: int)
    requires Schedulable(c, id) && c.streams[id].pending != []
  {
    var e, s := Head(c, id), c.streams[id];
    && n <= |e.body| - e.sent && n <= c.maxFrame && (e.kind.Data? ==> n <= c.window && n <= s.window)
    && (n == |e.body| - e.sent || n == c.maxFrame || (e.kind.Data? && (n == c.window || n == s.window)))
  }

  /** The next frame of a head entry that can go out carries as much of it as every limit allows. */
  lemma FramesAreLongest(c: Conn, id: nat)
    requires Ready(c, id) && c.streams[id].pending != []
    requires Head(c, id).sent < |Head(c, id).body| && !Waits(c, c.streams[id], Head(c, id))
    ensures var q := Schedule(c, id);
            && |q.frames| > |c.frames| && IsLongest(c, id, |q.frames[|c.frames|].payload|)
            && q.frames[|c.frames|].payload <= Head(c, id).body[Head(c, id).sent..]
            && (Head(c, id).kind.Data? ==> |q.frames| == |c.frames| + 1)
  {
    hide Waits, ChunkSize, IsLongest, Schedule, FrameFor;
    LongestChunk(c, id);
    NextFrameIs(c, id);
  }

  lemma NextFrameIs(c: Conn, id: nat)
    requires Ready(c, id) && c.streams[id].pending != []
    requires Head(c, id).sent < |Head(c, id).body| && !Waits(c, c.streams[id], Head(c, id))
    requires 0 <= ChunkSize(c, id) <= |Head(c, id).body| - Head(c, id).sent
    ensures var e, q := Head(c, id), Schedule(c, id);
            && |q.frames| > |c.frames|
            && q.frames[|c.frames|] == FrameFor(e, c.streams[id].pending[0], ChunkSize(c, id))
            && (e.kind.Data? ==> |q.frames| == |c.frames| + 1)
  {
    hide Waits, ChunkSize, ScheduleLoop, FrameFor;
    var c' := SendChunk(c, id, ChunkSize(c, id));
    LoopSends(c, id);
    LoopAppends(c', id);
    assert Schedule(c, id).frames[|c.frames|] == c'.frames[|c.frames|];
  }

  /** The first frame of a header block carries the entry's first flags, the last frame of any entry its last flags. */
  lemma NextFrameFlags(c: Conn, id: nat)
    requires Ready(c, id) && c.streams[id].pending != []
    requires Head(c, id).sent < |Head(c, id).body| && !Waits(c, c.streams[id], Head(c, id))
    ensures |Schedule(c, id).frames| > |c.frames| && Marked(Head(c, id), Schedule(c, id).frames[|c.frames|])
  {
    hide Waits, ChunkSize, IsLongest, Schedule, FrameFor;
    LongestChunk(c, id);
    NextFrameIs(c, id);
    FrameIsMarked(Head(c, id), c.streams[id].pending[0], ChunkSize(c, id));
  }

  /** Type and flags of the next frame of an entry. */
  predicate Marked(e: Entry, f: Frame) {
    var last: bv8 := if e.sent + |f.payload| == |e.body| then e.lastFlags else 0;
    if e.kind.Data? then f.kind.DataFrame? && f.flags == last
    else if e.sent > 0 then f.kind.ContinuationFrame? && f.flags == last
    else f.kind.HeadersFrame? && f.flags == e.firstFlags | last
  }

  lemma FrameIsMarked(e: Entry, entry: nat, n: nat)
    requires e.sent + n <= |e.body|
    ensures Marked(e, FrameFor(e, entry, n))
  {
    assert |FrameFor(e, entry, n).payload| == n;
  }

  /** One turn of the loop: the chunk goes out, and a header block goes on. */
  lemma LoopSends(c: Conn, id: nat)
    requires Ready(c, id) && c.streams[id].pending != []
    requires Head(c, id).sent < |Head(c, id).body| && !Waits(c, c.streams[id], Head(c, id))
    requires 0 <= ChunkSize(c, id) <= |Head(c, id).body| - Head(c, id).sent
    ensures var c' := SendChunk(c, id, ChunkSize(c, id));
            && Ready(c', id)
            && ScheduleLoop(c, id) == if Head(c, id).kind.Header? then ScheduleLoop(c', id) else c'
  {
    hide FrameFor;
    assert !LoopStops(c, id);
    var c' := SendChunk(c, id, ChunkSize(c, id));
    assert c'.streams[id].pending == c.streams[id].pending || c'.streams[id].pending == c.streams[id].pending[1..];
  }

  lemma LongestChunk(c: Conn, id: nat)
    requires Ready(c, id) && c.streams[id].pending != []
    requires Head(c, id).sent < |Head(c, id).body| && !Waits(c, c.streams[id], Head(c, id))
    ensures var e, n := Head(c, id), ChunkSize(c, id);
            && 0 <= n <= |e.body| - e.sent && IsLongest(c, id, n)
            && FrameFor(e, c.streams[id].pending[0], n).payload <= e.body[e.sent..]
            && |FrameFor(e, c.streams[id].pending[0], n).payload| == n
  {
    var e, n := Head(c, id), ChunkSize(c, id);
    assert e.body[e.sent..][..n] == e.body[e.sent..e.sent + n];
  }

  /**
   A call of schedule_pending on a stream with nothing in flight leaves it
   stalled exactly when an exhausted entry hides work.
   */
  lemma StallsExactlyWhen(c: Conn, id: nat)
    requires Ready(c, id) && Distinct(c.waiting)
    requires !c.streams[id].state.Closed? && !InFlight(c.frames, c.done, id)
    ensures var q := Schedule(c, id);
            id in q.streams && (!LookedIn(q, id) <==> EmptyHeadHidesWork(c, id))
  {
    var s := c.streams[id];
    var r := ScheduleLoop(c, id);
    EraseDistinct(c.waiting, id);
    if s.pending != [] && Head(c, id).sent < |Head(c, id).body| && !Waits(c, s, Head(c, id)) {
      HeadGoesOut(c, id);
    } else if s.pending != [] && !Waits(c, s, Head(c, id)) {
      assert r == PopExhausted(c, id);
      var p := s.pending[1..];
      assert r.streams[id].pending == p && r.waiting == c.waiting;
      assert p != [] ==> p[0] == s.pending[1];
    }
  }

  // ---------------------------------------------------------------- concrete runs

  /** A connection with one stream, numbered 1, and nothing sent yet. */
  function Only(window: int, peer: int, s: Stream, entries: seq<Entry>, waiting: seq<nat>): Conn {
    Conn(window, window, peer, 16384, 1, 0, map[1 := s], entries, waiting, [], 0)
  }

  function Fresh(window: int, peer: int, state: StreamState): Conn {
    Only(window, peer, Stream(state, peer, peer, 0, []), [], [])
  }

  predicate StepsTo(c: Conn, ev: Event, q: Conn) {
    WellFormed(c) && FramesNameEntries(c) && Step(c, ev) == q
  }

  /** A list of events leads from a new connection to `q`. */
  predicate Reaches(window: int, peer: int, evs: seq<Event>, q: Conn) {
    Inv(Init(window, peer, 16384)) && Run(Init(window, peer, 16384), evs) == q
  }

  lemma ReachesNext(window: int, peer: int, evs: seq<Event>, p: Conn, ev: Event, q: Conn)
    requires Reaches(window, peer, evs, p) && StepsTo(p, ev, q)
    ensures Reaches(window, peer, evs + [ev], q)
  {
    hide Inv, Step, WellFormed, FramesNameEntries;
    RunSnoc(Init(window, peer, 16384), evs, ev);
  }

  lemma ReachesState(window: int, peer: int, evs: seq<Event>, q: Conn)
    requires Reaches(window, peer, evs, q)
    ensures Inv(Init(window, peer, 16384)) && Run(Init(window, peer, 16384), evs) == q
  {
  }

  lemma CreatedStep(window: int, peer: int)
    ensures StepsTo(Init(window, peer, 16384), EvCreate(1), Fresh(window, peer, Idle))
  {
    hide ScheduleLoop, DrainPass, ShiftWindows, Send;
  }

  lemma ReceivedStep(c: Conn, s: Stream, kind: PendingKind, endStream: bool)
    requires WellFormed(c) && FramesNameEntries(c) && c.streams == map[1 := s] && MayReceive(s.state, kind)
    ensures StepsTo(c, EvReceive(1, kind, endStream),
                    c.(streams := map[1 := s.(state := AfterReceive(s.state, endStream))]))
  {
    hide ScheduleLoop, DrainPass, ShiftWindows, Send, WellFormed, FramesNameEntries;
    var s' := s.(state := AfterReceive(s.state, endStream));
    assert map[1 := s][1 := s'] == map[1 := s'];
  }

  /** The peer opens stream 1, and ends it at once if `endStream` says so. */
  lemma PeerOpens(window: int, peer: int, endStream: bool)
    requires 0 <= window <= MAX_WINDOW && 0 <= peer <= MAX_WINDOW
    ensures Reaches(window, peer, [EvCreate(1), EvReceive(1, Header, endStream)],
                    Fresh(window, peer, if endStream then HalfClosedRemote else Open))
  {
    hide StepsTo, Step;
    InitInv(window, peer, 16384);
    assert Reaches(window, peer, [], Init(window, peer, 16384));
    CreatedStep(window, peer);
    ReachesNext(window, peer, [], Init(window, peer, 16384), EvCreate(1), Fresh(window, peer, Idle));
    assert [] + [EvCreate(1)] == [EvCreate(1)];
    var next := Fresh(window, peer, if endStream then HalfClosedRemote else Open);
    var ev := EvReceive(1, Header, endStream);
    ReceivedStep(Fresh(window, peer, Idle), Stream(Idle, peer, peer, 0, []), Header, endStream);
    ReachesNext(window, peer, [EvCreate(1)], Fresh(window, peer, Idle), ev, next);
    assert [EvCreate(1)] + [ev] == [EvCreate(1), ev];
  }

  // ---------------------------------------------------------------- a run that stalls

  function DataEntry(body: seq<bv8>): Entry {
    NewEntry(1, Data, body, false)
  }

  lemma DataEntryShape(body: seq<bv8>)
    ensures var e := DataEntry(body); e.stream == 1 && e.kind == Data && e.body == body && e.sent == 0
  {
  }

  /** Stream 1, opened by the peer, with entries queued behind an empty connection window. */
  function Queued(entries: seq<Entry>, pending: seq<nat>, waiting: seq<nat>): Conn {
    Only(0, 10, Stream(Open, 10, 10, 0, pending), entries, waiting)
  }

  /** The stream waits for the connection window exactly when something is queued, and that starts with DATA. */
  predicate QueueOk(entries: seq<Entry>, pending: seq<nat>, waiting: seq<nat>) {
    && (forall i :: 0 <= i < |pending| ==>
          pending[i] < |entries| && entries[pending[i]].sent <= |entries[pending[i]].body|)
    && (pending != [] ==> entries[pending[0]].kind.Data?)
    && waiting == (if pending == [] then [] else [1])
  }

  /** While the connection window is empty, a queued payload only lengthens the queue. */
  lemma QueuesBehindWindow(entries: seq<Entry>, pending: seq<nat>, waiting: seq<nat>, body: seq<bv8>)
    requires QueueOk(entries, pending, waiting)
    ensures StepsTo(Queued(entries, pending, waiting), EvSend(1, Data, body, false),
                    Queued(entries + [DataEntry(body)], pending + [|entries|], [1]))
  {
    hide ScheduleLoop, DrainPass, ShiftWindows, NewEntry;
    DataEntryShape(body);
    var c := Queued(entries, pending, waiting);
    var c' := Queued(entries + [DataEntry(body)], pending + [|entries|], waiting);
    assert c.streams[1 := c.streams[1]] == c.streams;
    assert c.(streams := c.streams) == c;
    assert c'.streams == c.streams[1 := c.streams[1].(pending := pending + [|entries|])];
    assert Append(c, 1, DataEntry(body)) == c';
    StoppedLoop(c', 1);
  }

  /** Opening the connection window sends the first payload and empties the wait list. */
  function Drained(): Conn {
    Conn(4, 5, 10, 16384, 1, 0, map[1 := Stream(Open, 9, 10, 0, [1, 2])],
         [DataEntry([1]).(sent := 1, inflight := 1), DataEntry([]), DataEntry([2])], [],
         [Frame(1, 0, DataFrame, 0, [1])], 0)
  }

  lemma DrainSendsFirst()
    ensures StepsTo(Queued([DataEntry([1]), DataEntry([]), DataEntry([2])], [0, 1, 2], [1]),
                    EvConnWindowUpdate(5), Drained())
  {
    var entries := [DataEntry([1]), DataEntry([]), DataEntry([2])];
    var c := Queued(entries, [0, 1, 2], [1]).(window := 5, granted := 5);
    assert ChunkSize(c, 1) == 1;
    var c' := SendChunk(c, 1, 1);
    assert [0, 1, 2][1..] == [1, 2];
    assert c'.streams == Drained().streams;
    assert entries[0].body[0..1] == [1];
    assert c'.frames == Drained().frames;
    assert entries[0 := entries[0].(sent := 1, inflight := 1)] == Drained().entries;
    assert c' == Drained().(waiting := [1]);
    assert ScheduleLoop(c, 1) == c';
    assert Erase([1], 1) == [];
    assert Schedule(c, 1) == Drained();
    assert DrainPass(c, [1]) == Drained();
  }

  /** A stream that is open, has work queued and credit on both windows, and that nothing looks at. */
  predicate Stalled(c: Conn, id: nat) {
    id in c.streams && c.streams[id].state.Open? && c.streams[id].window > 0 && c.window > 0 && !LookedIn(c, id)
  }

  predicate StallsAfter(window: int, peer: int, evs: seq<Event>, id: nat) {
    Inv(Init(window, peer, 16384)) && Stalled(Run(Init(window, peer, 16384), evs), id)
  }

  function StallingRun(): seq<Event> {
    [EvCreate(1), EvReceive(1, Header, false), EvSend(1, Data, [1], false), EvSend(1, Data, [], false),
     EvSend(1, Data, [2], false), EvConnWindowUpdate(5), EvSendDone]
  }

  /**
   Seven events from a new connection after which sendable work is queued on an
   open stream and nothing will ever send it: a payload, an empty payload and
   another payload are queued while the connection window is empty, then the
   window opens and the first payload goes out.
   */
  lemma EmptyPayloadStalls(evs: seq<Event>)
    requires evs == StallingRun()
    ensures StallsAfter(0, 10, evs, 1)
  {
    hide StepsTo, Step, Looked, Drained, WellFormed, FramesNameEntries, Queued, Inv, Run, DataEntry, Fresh, Reaches,
         Init, Stalled;
    InitInv(0, 10, 16384);
    PeerQueuesThree(evs);
    var x, e, y := DataEntry([1]), DataEntry([]), DataEntry([2]);
    DrainSendsFirst();
    ReachesNext(0, 10, evs[..5], Queued([x, e, y], [0, 1, 2], [1]), evs[5], Drained());
    assert evs[..5] + [evs[5]] == evs[..6];
    DoneStalls();
    ReachesState(0, 10, evs[..6], Drained());
    RunSnoc(Init(0, 10, 16384), evs[..6], evs[6]);
    assert evs[..6] + [evs[6]] == evs;
  }

  lemma PeerQueuesOne(evs: seq<Event>)
    requires evs == StallingRun()
    ensures Reaches(0, 10, evs[..3], Queued([DataEntry([1])], [0], [1]))
  {
    hide Reaches, DataEntry, Queued, Fresh, StepsTo;
    PeerOpens(0, 10, false);
    assert evs[..2] == [EvCreate(1), EvReceive(1, Header, false)];
    FreshIsQueued();
    QueuesBehindWindow([], [], [], [1]);
    assert [] + [DataEntry([1])] == [DataEntry([1])] && [] + [0] == [0];
    ReachesNext(0, 10, evs[..2], Queued([], [], []), evs[2], Queued([DataEntry([1])], [0], [1]));
    assert evs[..2] + [evs[2]] == evs[..3];
  }

  lemma PeerQueuesTwo(evs: seq<Event>)
    requires evs == StallingRun()
    ensures Reaches(0, 10, evs[..4], Queued([DataEntry([1]), DataEntry([])], [0, 1], [1]))
  {
    hide Reaches, DataEntry, Queued, StepsTo;
    PeerQueuesOne(evs);
    DataEntryShape([1]);
    var x, e := DataEntry([1]), DataEntry([]);
    QueuesBehindWindow([x], [0], [1], []);
    assert [x] + [e] == [x, e] && [0] + [1] == [0, 1];
    ReachesNext(0, 10, evs[..3], Queued([x], [0], [1]), evs[3], Queued([x, e], [0, 1], [1]));
    assert evs[..3] + [evs[3]] == evs[..4];
  }

  lemma PeerQueuesThree(evs: seq<Event>)
    requires evs == StallingRun()
    ensures Reaches(0, 10, evs[..5], Queued([DataEntry([1]), DataEntry([]), DataEntry([2])], [0, 1, 2], [1]))
  {
    hide Reaches, DataEntry, Queued, StepsTo;
    PeerQueuesTwo(evs);
    DataEntryShape([1]);
    DataEntryShape([]);
    var x, e, y := DataEntry([1]), DataEntry([]), DataEntry([2]);
    QueuesBehindWindow([x, e], [0, 1], [1], [2]);
    assert [x, e] + [y] == [x, e, y] && [0, 1] + [2] == [0, 1, 2];
    ReachesNext(0, 10, evs[..4], Queued([x, e], [0, 1], [1]), evs[4], Queued([x, e, y], [0, 1, 2], [1]));
    assert evs[..4] + [evs[4]] == evs[..5];
  }

  lemma FreshIsQueued()
    ensures Fresh(0, 10, Open) == Queued([], [], [])
  {
  }

  lemma DoneStalls()
    ensures WellFormed(Drained()) && FramesNameEntries(Drained())
    ensures Stalled(Step(Drained(), EvSendDone), 1)
  {
    var c := Finished(Drained());
    StallsExactlyWhen(c, 1);
    assert ScheduleLoop(c, 1) == PopExhausted(c, 1);
  }

  // ---------------------------------------------------------------- an empty payload does not end the stream

  /**
   An empty payload sent with END_STREAM on an open stream, with credit on both
   windows: the stream counts as closed on our side and the entry as completed, but
   no frame was queued.
   */
  lemma EmptyEndIsNeverSent(window: int, peer: int, evs: seq<Event>)
    requires 0 < window <= MAX_WINDOW && 0 < peer <= MAX_WINDOW
    requires evs == [EvCreate(1), EvReceive(1, Header, false), EvSend(1, Data, [], true)]
    ensures Inv(Init(window, peer, 16384))
    ensures var c := Run(Init(window, peer, 16384), evs);
            && 1 in c.streams && c.streams[1].state == HalfClosedLocal && c.streams[1].pending == []
            && |c.entries| == 1 && c.entries[0].completed && AsksForEnd(c.entries[0])
            && c.frames == []
  {
    hide Step, StepsTo, Reaches, Inv, Run, Fresh, NewEntry;
    PeerOpens(window, peer, false);
    EmptyEndStep(window, peer);
    var q := Only(window, peer, Stream(HalfClosedLocal, peer, peer, 0, []),
                  [NewEntry(1, Data, [], true).(completed := true)], []);
    assert evs[..2] == [EvCreate(1), EvReceive(1, Header, false)];
    ReachesNext(window, peer, evs[..2], Fresh(window, peer, Open), evs[2], q);
    assert evs[..2] + [evs[2]] == evs;
    ReachesState(window, peer, evs, q);
    EndEntryAsks();
  }

  lemma EndEntryAsks()
    ensures AsksForEnd(NewEntry(1, Data, [], true).(completed := true))
  {
  }

  lemma EndEntryShape(body: seq<bv8>)
    ensures var e := NewEntry(1, Data, body, true);
            && e.stream == 1 && e.kind == Data && e.body == body
            && e.sent == e.written == e.inflight == 0 && !e.completed
  {
  }

  lemma EmptyEndStep(window: int, peer: int)
    requires 0 < window && 0 < peer
    ensures StepsTo(Fresh(window, peer, Open), EvSend(1, Data, [], true),
                    Only(window, peer, Stream(HalfClosedLocal, peer, peer, 0, []),
                         [NewEntry(1, Data, [], true).(completed := true)], []))
  {
    hide NewEntry, ScheduleLoop, DrainPass, ShiftWindows;
    var c := Fresh(window, peer, Open);
    var e := NewEntry(1, Data, [], true);
    EndEntryShape([]);
    var c1 := c.(streams := map[1 := Stream(HalfClosedLocal, peer, peer, 0, [])]);
    assert c.streams[1 := Stream(HalfClosedLocal, peer, peer, 0, [])] == c1.streams;
    var c2 := Only(window, peer, Stream(HalfClosedLocal, peer, peer, 0, [0]), [e], []);
    assert [] + [e] == [e] && [] + [0] == [0];
    assert c1.streams[1 := Stream(HalfClosedLocal, peer, peer, 0, [0])] == c2.streams;
    assert Append(c1, 1, e) == c2;
    var c3 := Only(window, peer, Stream(HalfClosedLocal, peer, peer, 0, []), [e.(completed := true)], []);
    assert ScheduleLoop(c2, 1) == c3 by { PopsOnlyEntry(c2, c3, e); }
    assert Erase([], 1) == [];
  }

  lemma PopsOnlyEntry(c: Conn, q: Conn, e: Entry)
    requires e.kind.Data? && e.body == [] && e.sent == e.written == e.inflight == 0 && !e.completed
    requires c.streams == map[1 := Stream(HalfClosedLocal, c.peerInitial, c.peerInitial, 0, [0])] && c.entries == [e]
    requires c.window > 0 && c.peerInitial > 0
    requires q == c.(streams := map[1 := Stream(HalfClosedLocal, c.peerInitial, c.peerInitial, 0, [])],
                     entries := [e.(completed := true)])
    ensures Schedulable(c, 1) && ScheduleLoop(c, 1) == q
  {
    assert c.streams[1].pending[1..] == [];
    assert c.entries[0 := MaybeFinish(e)] == q.entries;
    assert PopExhausted(c, 1).streams == q.streams;
  }

  // ---------------------------------------------------------------- END_STREAM of a header block

  /**
   In any state, the first frame that scheduling cuts from a header block nothing of which was sent is
   HEADERS, and it ends the stream exactly when the block asks for that and fits one frame.
   */
  lemma HeadersEndExactlyWhen(c: Conn, id: nat)
    requires Ready(c, id) && c.streams[id].pending != []
    requires Head(c, id).kind.Header? && Head(c, id).sent == 0 && Head(c, id).body != [] && Head(c, id).firstFlags == 0
    ensures var q := Schedule(c, id);
            && |q.frames| > |c.frames| && q.frames[|c.frames|].kind.HeadersFrame?
            && q.frames[|c.frames|].entry == c.streams[id].pending[0]
            && (Flagged(q.frames[|c.frames|]) <==> AsksForEnd(Head(c, id)) && |Head(c, id).body| <= c.maxFrame)
  {
    hide ScheduleLoop, Flagged, AsksForEnd, FrameFor, CutAt, Cut;
    var e, k, n := Head(c, id), c.streams[id].pending[0], ChunkSize(c, id);
    CutHere(e, k, n);
    CutFlags(FrameFor(e, k, n), e, 0);
    var c' := SendChunk(c, id, n);
    assert c'.streams[id].pending == c.streams[id].pending || c'.streams[id].pending == c.streams[id].pending[1..];
    LoopAppends(c', id);
    HeaderLoop(c, id);
    assert Schedule(c, id).frames == ScheduleLoop(c', id).frames;
    assert c'.frames[|c.frames|] == FrameFor(e, k, n);
  }

  lemma HeaderLoop(c: Conn, id: nat)
    requires Ready(c, id) && c.streams[id].pending != []
    requires Head(c, id).kind.Header? && Head(c, id).sent < |Head(c, id).body|
    ensures var c' := SendChunk(c, id, ChunkSize(c, id));
            Schedulable(c', id) && ScheduleLoop(c, id) == ScheduleLoop(c', id)
  {
    var c' := SendChunk(c, id, ChunkSize(c, id));
    assert c'.streams[id].pending == c.streams[id].pending || c'.streams[id].pending == c.streams[id].pending[1..];
  }

  /** A header block with nothing behind it goes out whole. */
  lemma {:induction false} BlockGoesOutWhole(c: Conn, id: nat, k: nat)
    requires Ready(c, id) && c.streams[id].pending == [k] && k < |c.entries| && c.entries[k].kind.Header?
    requires c.entries[k].sent < |c.entries[k].body|
    ensures var r := ScheduleLoop(c, id);
            |r.entries| == |c.entries| && r.entries[k].sent == |c.entries[k].body| == |r.entries[k].body|
    decreases |c.entries[k].body| - c.entries[k].sent
  {
    var c' := SendChunk(c, id, ChunkSize(c, id));
    assert c'.streams[id].pending == if c'.entries[k].sent == |c.entries[k].body| then [] else [k];
    if c'.entries[k].sent < |c.entries[k].body| { BlockGoesOutWhole(c', id, k); }
  }

  /** So it is for a block sent on a stream with nothing queued, in any state a connection can be in. */
  lemma SentHeadersEndExactlyWhen(c: Conn, id: nat, body: seq<bv8>, endStream: bool)
    requires Inv(c) && id in c.streams && c.streams[id].pending == [] && body != []
    requires var state := c.streams[id].state; state.Idle? || state.Open? || (state.HalfClosedRemote? && !endStream)
    ensures Schedulable(c, id)
    ensures var q := Send(c, id, Header, body, endStream);
            && |q.frames| > |c.frames| && q.frames[|c.frames|].kind.HeadersFrame?
            && (Flagged(q.frames[|c.frames|]) <==> endStream && |body| <= c.maxFrame)
            && |q.entries| == |c.entries| + 1
            && q.entries[|c.entries|].sent == |q.entries[|c.entries|].body| == |body|
  {
    hide Inv, Settled, Nearly, ScheduleLoop, Flagged, NewEntry;
    InvIsWellFormed(c);
    InvSettled(c);
    var s := c.streams[id];
    var s' := s.(state := AfterSend(s.state, endStream));
    var c1 := c.(streams := c.streams[id := s']);
    RestyleSameWindow(c, id, s');
    var e := NewEntry(id, Header, body, endStream);
    NewEntryFits(id, Header, body, endStream);
    AppendKeeps(c1, id, e);
    var c2 := Append(c1, id, e);
    NearlyIsReady(c2, id);
    assert [] + [|c.entries|] == [|c.entries|];
    assert c2.streams[id].pending == [|c.entries|] && Head(c2, id) == e;
    BlockAsks(id, body, endStream);
    HeadersEndExactlyWhen(c2, id);
    BlockGoesOutWhole(c2, id, |c.entries|);
  }

  lemma InvSettled(c: Conn)
    requires Inv(c)
    ensures Settled(c)
  {
  }

  lemma NearlyIsReady(c: Conn, id: nat)
    requires Nearly(c, id) && id in c.streams
    ensures Ready(c, id)
  {
    NearlyIsWellFormed(c, id);
    assert PendingOk(c.streams[id], id, c.entries);
  }

  lemma BlockAsks(id: nat, body: seq<bv8>, endStream: bool)
    ensures var e := NewEntry(id, Header, body, endStream);
            e.body == body && e.kind == Header && e.firstFlags == 0 && (AsksForEnd(e) <==> endStream)
  {
    assert (END_HEADERS | END_STREAM) & END_STREAM != 0 && (END_HEADERS | 0) & END_STREAM == 0;
  }

  /**
   An answer of headers only on a stream the peer has opened: its HEADERS frame says that it is the last
   exactly when the block fits one frame; otherwise a CONTINUATION frame does, where nobody looks for it.
   */
  lemma SplitHeadersDoNotEnd(window: int, peer: int, body: seq<bv8>, evs: seq<Event>)
    requires 0 <= window <= MAX_WINDOW && 0 <= peer <= MAX_WINDOW && body != []
    requires evs == [EvCreate(1), EvReceive(1, Header, false), EvSend(1, Header, body, true)]
    ensures Inv(Init(window, peer, 16384))
    ensures var c := Run(Init(window, peer, 16384), evs);
            && c.frames != [] && c.frames[0].kind.HeadersFrame?
            && (Flagged(c.frames[0]) <==> |body| <= 16384)
            && (|body| > 16384 ==>
                  exists i :: 0 < i < |c.frames| && c.frames[i].kind.ContinuationFrame? && Flagged(c.frames[i]))
  {
    hide Step, Inv, Run, Flagged, Reaches, Send, AsksForEnd, Cut, EntryOk, WellFormed, FramesNameEntries, Init;
    PeerOpens(window, peer, false);
    var start := evs[..2];
    assert start == [EvCreate(1), EvReceive(1, Header, false)] && start + [evs[2]] == evs;
    ReachesState(window, peer, start, Fresh(window, peer, Open));
    var p := Fresh(window, peer, Open);
    RunSnoc(Init(window, peer, 16384), start, evs[2]);
    SentHeadersEndExactlyWhen(p, 1, body, true);
    SendIs(p, body);
    SentEntry(window, peer, evs, body);
    var c := Run(Init(window, peer, 16384), evs);
    if |body| > 16384 { LastContinuationEnds(window, peer, evs); }
  }

  /** The flag of a block that fits no frame stands on a CONTINUATION frame. */
  lemma LastContinuationEnds(window: int, peer: int, evs: seq<Event>)
    requires 0 <= window <= MAX_WINDOW && 0 <= peer <= MAX_WINDOW && evs != [] && Inv(Init(window, peer, 16384))
    requires Run(Init(window, peer, 16384), evs[..|evs| - 1]).frames == []
    requires Run(Init(window, peer, 16384), evs[..|evs| - 1]).maxFrame == 16384
    requires var c := Run(Init(window, peer, 16384), evs);
             |c.entries| == 1 && c.entries[0].kind.Header? && c.entries[0].sent == |c.entries[0].body| > 16384 &&
             AsksForEnd(c.entries[0])
    ensures var c := Run(Init(window, peer, 16384), evs);
            exists i :: 0 < i < |c.frames| && c.frames[i].kind.ContinuationFrame? && Flagged(c.frames[i])
  {
    hide Inv, Run, Flagged, AsksForEnd, CutAt, Content;
    var c0 := Init(window, peer, 16384);
    var c := Run(c0, evs);
    EndStreamSentExactlyWhen(window, peer, 16384, evs, 0);
    var i :| 0 <= i < |c.frames| && c.frames[i].entry == 0 && Flagged(c.frames[i]);
    EndStreamOnLastFrame(window, peer, 16384, evs, i);
    FrameOfRun(c, i);
    RunEntry(c0, evs, 0);
    CutFlags(c.frames[i], c.entries[0], |Content(c.frames[..i], 0)|);
    assert evs[..|evs| - 1] + [evs[|evs| - 1]] == evs;
    FramesWithinLimit(window, peer, 16384, evs[..|evs| - 1], evs[|evs| - 1]);
    NoContentBefore(c.frames);
  }

  lemma NoContentBefore(fs: seq<Frame>)
    ensures Content(fs[..0], 0) == []
  {
  }

  lemma SentEntry(window: int, peer: int, evs: seq<Event>, body: seq<bv8>)
    requires 0 <= window <= MAX_WINDOW && 0 <= peer <= MAX_WINDOW && Inv(Init(window, peer, 16384)) && |evs| == 3
    requires Run(Init(window, peer, 16384), evs[..2]) == Fresh(window, peer, Open)
    requires evs[2] == EvSend(1, Header, body, true)
    ensures var c := Run(Init(window, peer, 16384), evs);
            |c.entries| == 1 && c.entries[0].kind.Header? && c.entries[0].body == body && AsksForEnd(c.entries[0])
  {
    hide Inv, Step, AsksForEnd, NewEntry, Extends, Silent;
    var p := Fresh(window, peer, Open);
    StepCredits(p, evs[2]);
    BlockAsks(1, body, true);
    var e := NewEntry(1, Header, body, true);
    assert AcceptedBy(p, evs[2]) == [e] && p.entries + [e] == [e];
    var c := Run(Init(window, peer, 16384), evs);
    assert c == Step(p, evs[2]);
    assert SameQueued(c.entries[0], e);
    SameAsks(c.entries[0], e);
  }

  lemma SameAsks(a: Entry, b: Entry)
    requires SameQueued(a, b)
    ensures AsksForEnd(a) == AsksForEnd(b)
  {
  }

  lemma SendIs(c: Conn, body: seq<bv8>)
    requires WellFormed(c) && FramesNameEntries(c) && 1 in c.streams
    ensures Step(c, EvSend(1, Header, body, true)) == Send(c, 1, Header, body, true)
  {
  }

  // ---------------------------------------------------------------- the last frame of a half-closed stream

  /**
   send_header and send_data queue their payload exactly when the stream is open, or idle and gets
   headers, or ended by the peer and not by the very frame that is about to be sent.
   */
  lemma QueuedExactlyWhen(c: Conn, id: nat, kind: PendingKind, body: seq<bv8>, endStream: bool)
    requires Inv(c) && id in c.streams
    ensures Schedulable(c, id)
    ensures var q := Send(c, id, kind, body, endStream);
            var state := c.streams[id].state;
            var queued := (state.Idle? && kind.Header?) || state.Open? || (state.HalfClosedRemote? && !endStream);
            && (queued <==> |q.entries| == |c.entries| + 1)
            && (queued ==> q.entries[|c.entries|].body == body && q.entries[|c.entries|].kind == kind)
            && (!queued ==> q.entries == c.entries && q.frames == c.frames && q.window == c.window)
  {
    hide Settled, Nearly, TrySchedule;
    SettledStream(c, id);
    var s := c.streams[id];
    if MaySend(s.state, kind) {
      var s' := s.(state := AfterSend(s.state, endStream));
      var c1 := c.(streams := c.streams[id := s']);
      RestyleSameWindow(c, id, s');
      if !s'.state.Closed? {
        var e := NewEntry(id, kind, body, endStream);
        AppendKeeps(c1, id, e);
        TryScheduleBody(Append(c1, id, e), id, |c.entries|);
      }
    }
  }

  /** The answer to a request without a body: its headers go out, and the stream waits for the end. */
  lemma AnswerWithoutBody(window: int, peer: int, body: seq<bv8>, evs: seq<Event>)
    requires 0 <= window <= MAX_WINDOW && 0 <= peer <= MAX_WINDOW && 0 < |body| <= 16384
    requires evs == [EvCreate(1), EvReceive(1, Header, true), EvSend(1, Header, body, false)]
    ensures Inv(Init(window, peer, 16384))
    ensures var c := Run(Init(window, peer, 16384), evs);
            && 1 in c.streams && c.streams[1].state == HalfClosedRemote && c.streams[1].pending == []
            && c.frames == [Frame(1, 0, HeadersFrame, 4, body)]
  {
    hide Step, StepsTo, Reaches, Inv, Run;
    PeerOpens(window, peer, true);
    AnswerStep(window, peer, body);
    assert evs[..2] == [EvCreate(1), EvReceive(1, Header, true)];
    ReachesNext(window, peer, evs[..2], Fresh(window, peer, HalfClosedRemote), evs[2], Answered(window, peer, body));
    assert evs[..2] + [evs[2]] == evs;
    ReachesState(window, peer, evs, Answered(window, peer, body));
  }

  function Answered(window: int, peer: int, body: seq<bv8>): Conn {
    Only(window, peer, Stream(HalfClosedRemote, peer, peer, 0, []),
         [NewEntry(1, Header, body, false).(sent := |body|, inflight := 1)], [])
    .(frames := [Frame(1, 0, HeadersFrame, 4, body)])
  }

  lemma AnswerStep(window: int, peer: int, body: seq<bv8>)
    requires 0 < |body| <= 16384
    ensures StepsTo(Fresh(window, peer, HalfClosedRemote), EvSend(1, Header, body, false), Answered(window, peer, body))
  {
    hide ScheduleLoop, DrainPass, ShiftWindows, FrameFor, NewEntry;
    var c := Fresh(window, peer, HalfClosedRemote);
    var e := NewEntry(1, Header, body, false);
    BlockShape(body);
    var s := Stream(HalfClosedRemote, peer, peer, 0, [0]);
    assert c.streams[1 := c.streams[1]] == c.streams && c.(streams := c.streams) == c;
    var c2 := Only(window, peer, s, [e], []);
    assert [] + [e] == [e] && [] + [0] == [0];
    assert c.streams[1 := s] == c2.streams;
    assert Append(c, 1, e) == c2;
    assert ScheduleLoop(c2, 1) == Answered(window, peer, body) by {
      OneFrameBlock(c2, Answered(window, peer, body), e, body);
    }
    assert Erase([], 1) == [];
  }

  lemma BlockShape(body: seq<bv8>)
    requires body != []
    ensures var e := NewEntry(1, Header, body, false);
            && e.stream == 1 && e.kind == Header && e.body == body && e.sent == e.written == e.inflight == 0
            && !e.completed && FrameFor(e, 0, |body|) == Frame(1, 0, HeadersFrame, 4, body)
  {
    assert body[0..|body|] == body;
    assert 0 as bv8 | 4 == 4 && 4 as bv8 | 0 == 4;
  }

  lemma OneFrameBlock(c: Conn, q: Conn, e: Entry, body: seq<bv8>)
    requires e.kind.Header? && e.body == body && e.sent == e.inflight == 0 && 0 < |body| <= c.maxFrame
    requires 1 in c.streams && c.streams[1].pending == [0] && c.entries == [e]
    requires q == c.(streams := c.streams[1 := c.streams[1].(pending := [])],
                     entries := [e.(sent := |body|, inflight := 1)], frames := c.frames + [FrameFor(e, 0, |body|)])
    ensures Schedulable(c, 1) && ScheduleLoop(c, 1) == q
  {
    hide FrameFor;
    var c' := SendChunk(c, 1, |body|);
    assert [0][1..] == [] && [e][0 := e.(sent := |body|, inflight := 1)] == [e.(sent := |body|, inflight := 1)];
    assert c'.streams == c.streams[1 := c.streams[1].(pending := [])];
    assert c' == q;
    assert LoopStops(q, 1);
  }

  /** The peer ends its side with the request; the one frame of the answer that says so is refused. */
  lemma LastFrameIsRefused(window: int, peer: int, evs: seq<Event>)
    requires 0 <= window <= MAX_WINDOW && 0 <= peer <= MAX_WINDOW
    requires evs == [EvCreate(1), EvReceive(1, Header, true), EvSend(1, Data, [1], true)]
    ensures Inv(Init(window, peer, 16384))
    ensures var c := Run(Init(window, peer, 16384), evs);
            1 in c.streams && c.streams[1].state == Closed && c.entries == [] && c.frames == []
  {
    hide Step, StepsTo, Reaches, Inv, Run;
    PeerOpens(window, peer, true);
    RefusedStep(window, peer);
    assert evs[..2] == [EvCreate(1), EvReceive(1, Header, true)];
    ReachesNext(window, peer, evs[..2], Fresh(window, peer, HalfClosedRemote), evs[2], Fresh(window, peer, Closed));
    assert evs[..2] + [evs[2]] == evs;
    ReachesState(window, peer, evs, Fresh(window, peer, Closed));
  }

  lemma RefusedStep(window: int, peer: int)
    ensures StepsTo(Fresh(window, peer, HalfClosedRemote), EvSend(1, Data, [1], true), Fresh(window, peer, Closed))
  {
    hide NewEntry, ScheduleLoop, DrainPass, ShiftWindows;
    EndEntryShape([1]);
    var c := Fresh(window, peer, HalfClosedRemote);
    assert c.streams[1 := Stream(Closed, peer, peer, 0, [])] == map[1 := Stream(Closed, peer, peer, 0, [])];
  }

  lemma TryScheduleBody(c: Conn, id: nat, k: nat)
    requires Nearly(c, id) && id in c.streams && k < |c.entries|
    ensures WellFormed(c)
    ensures var q := TrySchedule(c, id);
            && |q.entries| == |c.entries|
            && q.entries[k].body == c.entries[k].body && q.entries[k].kind == c.entries[k].kind
  {
    hide Nearly, Settled, ScheduleLoop;
    NearlyIsWellFormed(c, id);
    if !c.streams[id].state.Closed? { LoopKeepsBodies(c, id); }
  }

  lemma {:induction false} LoopKeepsBodies(c: Conn, id: nat)
    requires Schedulable(c, id)
    ensures var r := ScheduleLoop(c, id);
            |r.entries| == |c.entries| &&
            forall k :: 0 <= k < |c.entries| ==>
              r.entries[k].body == c.entries[k].body && r.entries[k].kind == c.entries[k].kind
    decreases |c.streams[id].pending|,
              if c.streams[id].pending != [] then |Head(c, id).body| - Head(c, id).sent else 0
  {
    if !LoopStops(c, id) && Head(c, id).sent != |Head(c, id).body| && Head(c, id).kind.Header? {
      var c' := SendChunk(c, id, ChunkSize(c, id));
      assert c'.streams[id].pending == c.streams[id].pending || c'.streams[id].pending == c.streams[id].pending[1..];
      LoopKeepsBodies(c', id);
    }
  }

  // ---------------------------------------------------------------- what a closed stream still has queued

  /** The queue starts with something that the stream's own window lets through. */
  predicate HeadMayGo(c: Conn, id: nat)
    requires Schedulable(c, id)
  {
    c.streams[id].pending != [] && Head(c, id).sent < |Head(c, id).body| &&
    (Head(c, id).kind.Data? ==> c.streams[id].window > 0)
  }

  lemma WindowNotNegative(c: Conn)
    requires Settled(c)
    ensures c.window >= 0
  {
  }

  lemma SettledIsReady(c: Conn, id: nat)
    requires Settled(c) && id in c.streams
    ensures Ready(c, id) && Known(c.lastOdd, c.lastEven, id)
  {
    SettledStream(c, id);
  }

  lemma HeldBackSendsNothing(c: Conn, id: nat)
    requires Ready(c, id) && c.window > 0 && !HeadMayGo(c, id)
    ensures Schedule(c, id).frames == c.frames && Schedule(c, id).window == c.window
  {
  }

  lemma RestKeepsFrames(r: Conn)
    requires Settled(r)
    ensures WellFormed(r)
    ensures var q := DrainPass(r, r.waiting);
            |r.frames| <= |q.frames| && q.frames[..|r.frames|] == r.frames && Silent(r, q)
  {
    hide Settled, DrainPass, Silent;
    DrainIsSteady(r);
  }

  lemma ClosedServe(g: Conn, id: nat)
    requires Settled(g) && id in g.streams && g.streams[id].state.Closed?
    requires g.waiting != [] && g.waiting[0] == id && g.window > 0
    ensures WellFormed(g) && Schedulable(g, id)
    ensures !NoFrameOf(DrainPass(g, g.waiting).frames, |g.frames|, id) <==> HeadMayGo(g, id)
  {
    hide Settled, Schedule, Nearly, Silent, Known, HeadMayGo, Ready;
    SettledIsWellFormed(g);
    SettledIsReady(g, id);
    SettledIsNearly(g, id);
    ScheduleKeeps(g, id);
    var r := Schedule(g, id);
    var q := DrainPass(g, g.waiting);
    SettledIsWellFormed(r);
    if r.window > 0 {
      ServedLeavesList(g, id);
      RestKeepsFrames(r);
      assert q == DrainPass(r, r.waiting);
    } else {
      assert q == DrainPass(r, g.waiting[1..]);
      assert q == r;
      assert r.frames[..|r.frames|] == r.frames;
    }
    if HeadMayGo(g, id) {
      HeadMayGoes(g, id);
      assert q.frames[..|r.frames|] == r.frames;
      assert q.frames[|g.frames|] == q.frames[..|r.frames|][|g.frames|];
    } else {
      HeldBackSendsNothing(g, id);
      assert Dead(r, id);
      SilentAt(r, q, id);
    }
  }

  lemma HeadMayGoes(c: Conn, id: nat)
    requires Ready(c, id) && c.window > 0 && HeadMayGo(c, id)
    ensures var q := Schedule(c, id); |q.frames| > |c.frames| && q.frames[|c.frames|].stream == id
  {
    hide ScheduleLoop, OwnEntries;
    HeadGoesOut(c, id);
  }

  lemma SilentAt(c: Conn, q: Conn, id: nat)
    requires Silent(c, q) && Dead(c, id) && Known(c.lastOdd, c.lastEven, id)
    ensures NoFrameOf(q.frames, |c.frames|, id)
  {
    assert QuietAt(c, q, id);
  }

  /**
   A closed stream at the head of the wait list, when the connection window opens:
   it gets a frame exactly when its queue starts with something its own window
   lets through.
   */
  lemma ClosedHeadServedExactlyWhen(c: Conn, n: nat, id: nat)
    requires Inv(c) && id in c.streams && c.streams[id].state.Closed?
    requires c.waiting != [] && c.waiting[0] == id && 0 < n && c.window + n <= MAX_WINDOW
    ensures WellFormed(c) && Schedulable(c, id)
    ensures !NoFrameOf(ConnWindowUpdate(c, n).frames, |c.frames|, id) <==> HeadMayGo(c, id)
  {
    hide Settled, DrainPass;
    InvIsWellFormed(c);
    GrantKeepsSettled(c, n);
    WindowNotNegative(c);
    ClosedServe(c.(window := c.window + n, granted := c.granted + n), id);
  }

  /**
   Off the wait list it is never served: a payload held back by its stream's window
   stays queued when the peer ends the stream, however much credit comes later.
   */
  lemma ClosedStreamIsForgotten(window: int, credit: nat, evs: seq<Event>, more: seq<Event>)
    requires 0 <= window <= MAX_WINDOW && 0 < credit <= MAX_WINDOW
    requires evs == [EvCreate(1), EvReceive(1, Header, false), EvSend(1, Data, [7], true), EvReceive(1, Data, true),
                     EvStreamWindowUpdate(1, credit)]
    ensures Inv(Init(window, 0, 16384)) && Inv(Run(Init(window, 0, 16384), evs))
    ensures var c := Run(Init(window, 0, 16384), evs);
            && 1 in c.streams && c.streams[1].state == Closed && c.streams[1].window == credit
            && c.streams[1].pending == [0]
            && NoFrameOf(Run(c, more).frames, 0, 1)
  {
    hide Step, StepsTo, Run, Inv, Reaches, NewEntry;
    ForgottenState(window, credit, evs);
    ReachesState(window, 0, evs, HeldBack(window, Closed, credit));
    DeadStreamsStaySilent(Run(Init(window, 0, 16384), evs), more, 1);
  }

  /** One entry queued on stream 1, whose credit is what was granted to it. */
  function HeldBack(window: int, state: StreamState, granted: int): Conn {
    Only(window, 0, Stream(state, granted, 0, granted, [0]), [NewEntry(1, Data, [7], true)], [])
  }

  lemma ForgottenState(window: int, credit: nat, evs: seq<Event>)
    requires 0 <= window <= MAX_WINDOW && 0 < credit <= MAX_WINDOW
    requires evs == [EvCreate(1), EvReceive(1, Header, false), EvSend(1, Data, [7], true), EvReceive(1, Data, true),
                     EvStreamWindowUpdate(1, credit)]
    ensures Reaches(window, 0, evs, HeldBack(window, Closed, credit))
  {
    hide StepsTo, Step, Reaches, Fresh, HeldBack;
    PeerOpens(window, 0, false);
    assert evs[..2] == [EvCreate(1), EvReceive(1, Header, false)];
    HeldBackSend(window);
    ReachesNext(window, 0, evs[..2], Fresh(window, 0, Open), evs[2], HeldBack(window, HalfClosedLocal, 0));
    assert evs[..2] + [evs[2]] == evs[..3];
    HeldBackReceive(window);
    ReachesNext(window, 0, evs[..3], HeldBack(window, HalfClosedLocal, 0), evs[3], HeldBack(window, Closed, 0));
    assert evs[..3] + [evs[3]] == evs[..4];
    HeldBackUpdate(window, credit);
    ReachesNext(window, 0, evs[..4], HeldBack(window, Closed, 0), evs[4], HeldBack(window, Closed, credit));
    assert evs[..4] + [evs[4]] == evs;
  }

  lemma HeldBackSend(window: int)
    ensures StepsTo(Fresh(window, 0, Open), EvSend(1, Data, [7], true), HeldBack(window, HalfClosedLocal, 0))
  {
    hide NewEntry, DrainPass, ShiftWindows, ScheduleLoop;
    EndEntryShape([7]);
    var c := Fresh(window, 0, Open);
    var e := NewEntry(1, Data, [7], true);
    var c1 := c.(streams := map[1 := Stream(HalfClosedLocal, 0, 0, 0, [])]);
    var c2 := HeldBack(window, HalfClosedLocal, 0);
    assert c.streams[1 := Stream(HalfClosedLocal, 0, 0, 0, [])] == c1.streams;
    assert [] + [e] == [e] && [] + [0] == [0];
    assert c1.streams[1 := Stream(HalfClosedLocal, 0, 0, 0, [0])] == c2.streams;
    assert Append(c1, 1, e) == c2;
    assert ScheduleLoop(c2, 1) == c2 by { StoppedLoop(c2, 1); }
    assert Erase([], 1) == [];
  }

  lemma StoppedLoop(c: Conn, id: nat)
    requires Schedulable(c, id) && LoopStops(c, id)
    ensures ScheduleLoop(c, id) == c
  {
  }

  lemma HeldBackReceive(window: int)
    ensures StepsTo(HeldBack(window, HalfClosedLocal, 0), EvReceive(1, Data, true), HeldBack(window, Closed, 0))
  {
    hide NewEntry, Step;
    EndEntryShape([7]);
    ReceivedStep(HeldBack(window, HalfClosedLocal, 0), Stream(HalfClosedLocal, 0, 0, 0, [0]), Data, true);
  }

  lemma HeldBackUpdate(window: int, credit: nat)
    requires 0 < credit <= MAX_WINDOW
    ensures StepsTo(HeldBack(window, Closed, 0), EvStreamWindowUpdate(1, credit), HeldBack(window, Closed, credit))
  {
    hide NewEntry, DrainPass, ShiftWindows, ScheduleLoop;
    EndEntryShape([7]);
    var c := HeldBack(window, Closed, 0);
    var s1 := Stream(Closed, 0, 0, credit, [0]);
    assert c.streams[1 := s1] == map[1 := s1];
    assert map[1 := s1][1 := Stream(Closed, credit, 0, credit, [0])] == HeldBack(window, Closed, credit).streams;
  }
}
