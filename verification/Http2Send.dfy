/**
 The send side of one HTTP/2 connection: streams with queued header blocks and
 DATA payloads, the two levels of flow-control window, the list of streams that
 wait for the connection window, and the queue of frames handed to the writer.

 Every function here is one operation of Http2Stream or Http2Connection on a
 value of type Conn; Http2SendProofs states what every run keeps, and
 Http2SendObject gives the in-place form.
 */
module Http2Send {
  import opened Octets

  const MAX_WINDOW: int := 0x7fff_ffff
  const MIN_WINDOW: int := -0x8000_0000
  const MIN_MAX_FRAME: nat := 16384
  const MAX_MAX_FRAME: nat := 16777215
  const END_STREAM: bv8 := 0x1
  const END_HEADERS: bv8 := 0x4

  datatype StreamState =
    Idle | ReservedLocal | ReservedRemote | Open | HalfClosedLocal | HalfClosedRemote | Closed

  datatype PendingKind = Header | Data

  datatype FrameType = DataFrame | HeadersFrame | ContinuationFrame

  /** One frame handed to the writer; `entry` is the pending entry it was cut from. */
  datatype Frame = Frame(stream: nat, entry: nat, kind: FrameType, flags: bv8, payload: seq<bv8>)

  /** A pending entry. `body` is the payload as queued; body[sent..] is still unscheduled. */
  datatype Entry = Entry(stream: nat, kind: PendingKind, body: seq<bv8>, firstFlags: bv8, lastFlags: bv8,
                         sent: nat, written: nat, inflight: nat, completed: bool)

  /**
   `base` is the peer's initial window this stream was last adjusted to, `granted` the sum of
   WINDOW_UPDATE increments accepted on it; `pending` holds entry numbers.
   */
  datatype Stream = Stream(state: StreamState, window: int, base: int, granted: int, pending: seq<nat>)

  /**
   `granted` is the initial connection window plus every accepted increment.
   `frames` lists every frame ever queued, `done` says how many the writer has finished.
   `lastOdd` and `lastEven` are the highest stream ids created on either side.
   */
  datatype Conn = Conn(
    window: int, granted: int, peerInitial: int, maxFrame: nat,
    lastOdd: nat, lastEven: nat,
    streams: map<nat, Stream>, entries: seq<Entry>, waiting: seq<nat>,
    frames: seq<Frame>, done: nat)

  function Init(window: int, peerInitial: int, maxFrame: nat): Conn {
    Conn(window, window, peerInitial, maxFrame, 0, 0, map[], [], [], [], 0)
  }

  // ---------------------------------------------------------------- sequences of ids

  /** IntrusiveList::push_back ignores an element that is already linked. */
  function PushBack(list: seq<nat>, id: nat): seq<nat> {
    if id in list then list else list + [id]
  }

  /** IntrusiveList::erase unlinks an element and ignores one that is not linked. */
  function Erase(list: seq<nat>, id: nat): seq<nat> {
    if list == [] then []
    else if list[0] == id then list[1..]
    else [list[0]] + Erase(list[1..], id)
  }

  // ---------------------------------------------------------------- scheduling

  /** The stream's pending list names entries that exist. */
  predicate Resolvable(s: Stream, entries: seq<Entry>) {
    forall i :: 0 <= i < |s.pending| ==>
      s.pending[i] < |entries| && entries[s.pending[i]].sent <= |entries[s.pending[i]].body|
  }

  predicate Schedulable(c: Conn, id: nat) {
    id in c.streams && Resolvable(c.streams[id], c.entries)
  }

  function Head(c: Conn, id: nat): Entry
    requires Schedulable(c, id) && c.streams[id].pending != []
  {
    c.entries[c.streams[id].pending[0]]
  }

  predicate HeadIsData(c: Conn, id: nat)
    requires Schedulable(c, id)
  {
    c.streams[id].pending != [] && Head(c, id).kind.Data?
  }

  predicate BlockedByConnWindow(c: Conn, id: nat)
    requires Schedulable(c, id)
  {
    HeadIsData(c, id) && c.streams[id].window > 0 && c.window <= 0
  }

  function SyncWaiting(c: Conn, id: nat): Conn
    requires Schedulable(c, id)
  {
    if BlockedByConnWindow(c, id)
    then c.(waiting := PushBack(c.waiting, id))
    else c.(waiting := Erase(c.waiting, id))
  }

  /** The number of bytes the next frame of the head entry carries. */
  function ChunkSize(c: Conn, id: nat): int
    requires Schedulable(c, id) && c.streams[id].pending != []
  {
    var e := Head(c, id);
    var n := Min(|e.body| - e.sent, c.maxFrame);
    if e.kind.Data? then Min(Min(n, c.window), c.streams[id].window) else n
  }

  /** The frame that carries `n` bytes of an entry from position `at` on. */
  function Cut(stream: nat, kind: PendingKind, body: seq<bv8>, firstFlags: bv8, lastFlags: bv8, at: nat, entry: nat,
               n: nat): Frame
    requires at + n <= |body|
  {
    var first := at == 0;
    var last: bv8 := if at + n == |body| then lastFlags else 0;
    var flags: bv8 := if kind.Header? && first then firstFlags | last else last;
    Frame(stream, entry, if kind.Data? then DataFrame else if first then HeadersFrame else ContinuationFrame, flags,
          body[at..at + n])
  }

  function FrameFor(e: Entry, entry: nat, n: nat): Frame
    requires e.sent + n <= |e.body|
  {
    Cut(e.stream, e.kind, e.body, e.firstFlags, e.lastFlags, e.sent, entry, n)
  }

  /** Cuts `n` bytes off the head entry, queues them as a frame and charges both windows for DATA. */
  function SendChunk(c: Conn, id: nat, n: nat): Conn
    requires Schedulable(c, id) && c.streams[id].pending != []
    requires Head(c, id).sent + n <= |Head(c, id).body|
  {
    var s := c.streams[id];
    var k := s.pending[0];
    var e := c.entries[k];
    var charge := if e.kind.Data? then n else 0;
    var pending := if e.sent + n == |e.body| then s.pending[1..] else s.pending;
    c.(window := c.window - charge,
       streams := c.streams[id := s.(window := s.window - charge, pending := pending)],
       entries := c.entries[k := e.(sent := e.sent + n, inflight := e.inflight + 1)],
       frames := c.frames + [FrameFor(e, k, n)])
  }

  function MaybeFinish(e: Entry): Entry {
    if !e.completed && e.inflight == 0 && e.sent == |e.body| && e.written == |e.body|
    then e.(completed := true)
    else e
  }

  /** An entry with nothing left to send is dropped from the queue. */
  function PopExhausted(c: Conn, id: nat): Conn
    requires Schedulable(c, id) && c.streams[id].pending != []
  {
    var s := c.streams[id];
    var k := s.pending[0];
    c.(streams := c.streams[id := s.(pending := s.pending[1..])],
       entries := c.entries[k := MaybeFinish(c.entries[k])])
  }

  /** Whether the scheduling loop stops without touching the head entry. */
  predicate LoopStops(c: Conn, id: nat)
    requires Schedulable(c, id)
  {
    c.streams[id].pending == [] ||
    (HeadIsData(c, id) && (c.streams[id].window <= 0 || c.window <= 0)) ||
    (Head(c, id).sent < |Head(c, id).body| && ChunkSize(c, id) == 0)
  }

  /** The loop of schedule_pending: all fragments of leading header blocks, then at most one DATA frame. */
  function ScheduleLoop(c: Conn, id: nat): (r: Conn)
    requires Schedulable(c, id)
    ensures Schedulable(r, id)
    decreases if id in c.streams then |c.streams[id].pending| else 0,
              if Schedulable(c, id) && c.streams[id].pending != [] then |Head(c, id).body| - Head(c, id).sent else 0
  {
    if LoopStops(c, id) then c
    else if Head(c, id).sent == |Head(c, id).body| then
      var r := PopExhausted(c, id);
      assert forall i :: 0 <= i < |r.streams[id].pending| ==>
        r.streams[id].pending[i] == c.streams[id].pending[i + 1];
      r
    else
      var c' := SendChunk(c, id, ChunkSize(c, id));
      assert Schedulable(c', id) by {
        assert c'.streams[id].pending == c.streams[id].pending ||
               c'.streams[id].pending == c.streams[id].pending[1..];
      }
      if Head(c, id).kind.Header? then ScheduleLoop(c', id) else c'
  }

  function Schedule(c: Conn, id: nat): Conn
    requires Schedulable(c, id)
  {
    SyncWaiting(ScheduleLoop(c, id), id)
  }

  function TrySchedule(c: Conn, id: nat): Conn
    requires Schedulable(c, id)
  {
    if c.streams[id].state.Closed? then c else Schedule(c, id)
  }

  // ---------------------------------------------------------------- stream state

  predicate MaySend(state: StreamState, kind: PendingKind) {
    match state
    case Idle => kind.Header?
    case Open => true
    case HalfClosedRemote => true
    case _ => false
  }

  predicate MayReceive(state: StreamState, kind: PendingKind) {
    match state
    case Idle => kind.Header?
    case Open => true
    case HalfClosedLocal => true
    case _ => false
  }

  function AfterSend(state: StreamState, endStream: bool): StreamState {
    match state
    case Idle => if endStream then HalfClosedLocal else Open
    case Open => if endStream then HalfClosedLocal else Open
    case HalfClosedRemote => if endStream then Closed else HalfClosedRemote
    case s => s
  }

  function AfterReceive(state: StreamState, endStream: bool): StreamState {
    match state
    case Idle => if endStream then HalfClosedRemote else Open
    case Open => if endStream then HalfClosedRemote else Open
    case HalfClosedLocal => if endStream then Closed else HalfClosedLocal
    case s => s
  }

  // ---------------------------------------------------------------- operations

  /** Puts a new entry at the end of the stream's pending list. */
  function Append(c: Conn, id: nat, e: Entry): Conn
    requires id in c.streams
  {
    c.(entries := c.entries + [e],
       streams := c.streams[id := c.streams[id].(pending := c.streams[id].pending + [|c.entries|])])
  }

  function NewEntry(id: nat, kind: PendingKind, body: seq<bv8>, endStream: bool): Entry {
    var fin: bv8 := if endStream then END_STREAM else 0;
    Entry(id, kind, body, 0, if kind.Header? then END_HEADERS | fin else fin, 0, 0, 0, false)
  }

  /** enqueue_pending: refused on a closed stream, otherwise queued and scheduled at once. */
  function Enqueue(c: Conn, id: nat, e: Entry): Conn
    requires Schedulable(c, id) && e.sent <= |e.body|
  {
    if c.streams[id].state.Closed? then c
    else
      var c' := Append(c, id, e);
      assert Schedulable(c', id);
      TrySchedule(c', id)
  }

  /** send_header and send_data: the stream moves to its next state first and queues second. */
  function Send(c: Conn, id: nat, kind: PendingKind, body: seq<bv8>, endStream: bool): Conn
    requires Schedulable(c, id)
  {
    var s := c.streams[id];
    if !MaySend(s.state, kind) then c
    else
      var c' := c.(streams := c.streams[id := s.(state := AfterSend(s.state, endStream))]);
      Enqueue(c', id, NewEntry(id, kind, body, endStream))
  }

  /** Stream removal as one step: close, drop what is pending, leave the table and the wait list. */
  function Remove(c: Conn, id: nat): Conn {
    c.(streams := c.streams - {id}, waiting := Erase(c.waiting, id))
  }

  function Receive(c: Conn, id: nat, kind: PendingKind, endStream: bool): Conn
    requires id in c.streams
  {
    var s := c.streams[id];
    if !MayReceive(s.state, kind) then Remove(c, id)
    else c.(streams := c.streams[id := s.(state := AfterReceive(s.state, endStream))])
  }

  predicate FreshId(c: Conn, id: nat) {
    id != 0 && id !in c.streams && (if id % 2 == 1 then id > c.lastOdd else id > c.lastEven)
  }

  function Create(c: Conn, id: nat): Conn
    requires FreshId(c, id)
  {
    var c' := if id % 2 == 1 then c.(lastOdd := id) else c.(lastEven := id);
    c'.(streams := c.streams[id := Stream(Idle, c.peerInitial, c.peerInitial, 0, [])])
  }

  /** update_send_window after its caller has checked the bounds. */
  function AddStreamWindow(c: Conn, id: nat, delta: int): Conn
    requires Schedulable(c, id)
  {
    var s := c.streams[id];
    TrySchedule(c.(streams := c.streams[id := s.(window := s.window + delta)]), id)
  }

  /** WINDOW_UPDATE on a stream: a zero or overflowing increment is a stream error. */
  function StreamWindowUpdate(c: Conn, id: nat, increment: nat): Conn
    requires Schedulable(c, id)
  {
    var s := c.streams[id];
    if increment == 0 || s.window + increment > MAX_WINDOW then Remove(c, id)
    else AddStreamWindow(c.(streams := c.streams[id := s.(granted := s.granted + increment)]), id, increment)
  }

  /** One pass over the wait list, in order, for as long as connection window is left. */
  function DrainPass(c: Conn, todo: seq<nat>): Conn
    requires WellFormed(c) && forall i :: 0 <= i < |todo| ==> todo[i] in c.streams
    decreases |todo|
  {
    if todo == [] || c.window <= 0 then c
    else
      ScheduleKeepsWellFormed(c, todo[0]);
      DrainPass(Schedule(c, todo[0]), todo[1..])
  }

  /** update_connection_send_window. */
  function AddConnWindow(c: Conn, increment: nat): Conn
    requires WellFormed(c)
  {
    var c' := c.(window := c.window + increment, granted := c.granted + increment);
    DrainPass(c', c'.waiting)
  }

  /** WINDOW_UPDATE on stream 0: a zero or overflowing increment is a connection error and changes nothing. */
  function ConnWindowUpdate(c: Conn, increment: nat): Conn
    requires WellFormed(c)
  {
    if increment == 0 || c.window + increment > MAX_WINDOW then c else AddConnWindow(c, increment)
  }

  /** `order` is the order in which the stream table enumerates its streams. */
  predicate Enumerates(order: seq<nat>, ids: set<nat>) {
    (forall i :: 0 <= i < |order| ==> order[i] in ids) &&
    (forall id :: id in ids ==> id in order) &&
    forall i, j :: 0 <= i < j < |order| ==> order[i] != order[j]
  }

  predicate InWindowRange(w: int) {
    MIN_WINDOW <= w <= MAX_WINDOW
  }

  function ShiftWindow(c: Conn, id: nat, delta: int): Conn
    requires Schedulable(c, id)
  {
    var s := c.streams[id];
    AddStreamWindow(c.(streams := c.streams[id := s.(base := s.base + delta)]), id, delta)
  }

  /** The second pass of apply_peer_initial_stream_window: each stream is moved and rescheduled in turn. */
  function ShiftWindows(c: Conn, order: seq<nat>, delta: int): Conn
    requires WellFormed(c) && forall i :: 0 <= i < |order| ==> order[i] in c.streams
    decreases |order|
  {
    if order == [] then c
    else
      ShiftWindowKeepsWellFormed(c, order[0], delta);
      ShiftWindows(ShiftWindow(c, order[0], delta), order[1..], delta)
  }

  predicate AcceptsInitialWindow(c: Conn, value: nat) {
    value <= MAX_WINDOW &&
    forall id :: id in c.streams ==> InWindowRange(c.streams[id].window + value - c.peerInitial)
  }

  /** SETTINGS_INITIAL_WINDOW_SIZE: all streams move, or the value is refused and none does. */
  function InitialWindowSetting(c: Conn, value: nat, order: seq<nat>): Conn
    requires WellFormed(c) && forall i :: 0 <= i < |order| ==> order[i] in c.streams
  {
    if value == c.peerInitial || !AcceptsInitialWindow(c, value) then c
    else ShiftWindows(c, order, value - c.peerInitial).(peerInitial := value)
  }

  /** SETTINGS_MAX_FRAME_SIZE. */
  function MaxFrameSetting(c: Conn, value: nat): Conn {
    if MIN_MAX_FRAME <= value <= MAX_MAX_FRAME then c.(maxFrame := value) else c
  }

  /** The entry's bookkeeping when one of its frames has been written in full. */
  function Written(e: Entry, bytes: nat): Entry {
    MaybeFinish(e.(written := e.written + bytes, inflight := if e.inflight > 0 then e.inflight - 1 else 0))
  }

  /** The writer finishes the oldest queued frame: handle_send_done with a successful result. */
  function SendDone(c: Conn): Conn
    requires WellFormed(c) && c.done < |c.frames| && c.frames[c.done].entry < |c.entries|
  {
    var f := c.frames[c.done];
    var c' := c.(done := c.done + 1, entries := c.entries[f.entry := Written(c.entries[f.entry], |f.payload|)]);
    if f.stream in c.streams then
      assert Schedulable(c, f.stream);
      assert Schedulable(c', f.stream);
      TrySchedule(c', f.stream)
    else c'
  }

  predicate WellFormed(c: Conn) {
    (forall id :: id in c.streams ==> Resolvable(c.streams[id], c.entries)) &&
    (forall i :: 0 <= i < |c.waiting| ==> c.waiting[i] in c.streams)
  }

  // ---------------------------------------------------------------- runs

  datatype Event =
    | EvCreate(id: nat)
    | EvSend(id: nat, kind: PendingKind, body: seq<bv8>, endStream: bool)
    | EvReceive(id: nat, kind: PendingKind, endStream: bool)
    | EvConnWindowUpdate(increment: nat)
    | EvStreamWindowUpdate(id: nat, increment: nat)
    | EvInitialWindow(value: nat, order: seq<nat>)
    | EvMaxFrame(value: nat)
    | EvSendDone
    | EvRemove(id: nat)

  predicate FramesNameEntries(c: Conn) {
    forall i :: 0 <= i < |c.frames| ==> c.frames[i].entry < |c.entries|
  }

  /** One event. An event that names no stream of the table leaves the send side as it is. */
  function Step(c: Conn, ev: Event): Conn
    requires WellFormed(c) && FramesNameEntries(c)
  {
    match ev
    case EvCreate(id) => if FreshId(c, id) then Create(c, id) else c
    case EvSend(id, kind, body, endStream) => if id in c.streams then Send(c, id, kind, body, endStream) else c
    case EvReceive(id, kind, endStream) => if id in c.streams then Receive(c, id, kind, endStream) else c
    case EvConnWindowUpdate(n) => ConnWindowUpdate(c, n)
    case EvStreamWindowUpdate(id, n) => if id in c.streams then StreamWindowUpdate(c, id, n) else c
    case EvInitialWindow(value, order) =>
      if Enumerates(order, c.streams.Keys) then InitialWindowSetting(c, value, order) else c
    case EvMaxFrame(value) => MaxFrameSetting(c, value)
    case EvSendDone => if c.done < |c.frames| then SendDone(c) else c
    case EvRemove(id) => Remove(c, id)
  }

  // ---------------------------------------------------------------- list and well-formedness lemmas

  lemma {:induction false} EraseMembers(list: seq<nat>, id: nat)
    ensures forall x :: x in Erase(list, id) ==> x in list
    ensures forall x :: x in list && x != id ==> x in Erase(list, id)
  {
    if list != [] && list[0] != id {
      EraseMembers(list[1..], id);
      assert list == [list[0]] + list[1..];
    } else if list != [] {
      assert list == [list[0]] + list[1..];
    }
  }

  lemma {:induction false} ScheduleLoopFrame(c: Conn, id: nat)
    requires WellFormed(c) && id in c.streams
    ensures var r := ScheduleLoop(c, id);
            WellFormed(r) && r.streams.Keys == c.streams.Keys && r.waiting == c.waiting &&
            |r.entries| == |c.entries|
    decreases |c.streams[id].pending|,
              if c.streams[id].pending != [] then |Head(c, id).body| - Head(c, id).sent else 0
  {
    if LoopStops(c, id) {
    } else if Head(c, id).sent == |Head(c, id).body| {
      var r := PopExhausted(c, id);
      forall x | x in r.streams ensures Resolvable(r.streams[x], r.entries) {
        assert Resolvable(c.streams[x], c.entries);
      }
    } else {
      var c' := SendChunk(c, id, ChunkSize(c, id));
      forall x | x in c'.streams ensures Resolvable(c'.streams[x], c'.entries) {
        assert Resolvable(c.streams[x], c.entries);
      }
      if Head(c, id).kind.Header? { ScheduleLoopFrame(c', id); }
    }
  }

  lemma ScheduleKeepsWellFormed(c: Conn, id: nat)
    requires WellFormed(c) && id in c.streams
    ensures WellFormed(Schedule(c, id)) && Schedule(c, id).streams.Keys == c.streams.Keys
  {
    ScheduleLoopFrame(c, id);
    EraseMembers(c.waiting, id);
    var r := ScheduleLoop(c, id);
    var q := SyncWaiting(r, id);
    forall i | 0 <= i < |q.waiting| ensures q.waiting[i] in q.streams {
      assert q.waiting[i] in q.waiting;
      assert q.waiting[i] in c.waiting || q.waiting[i] == id;
    }
  }

  lemma ShiftWindowKeepsWellFormed(c: Conn, id: nat, delta: int)
    requires WellFormed(c) && id in c.streams
    ensures WellFormed(ShiftWindow(c, id, delta)) && ShiftWindow(c, id, delta).streams.Keys == c.streams.Keys
  {
    hide Schedule;
    var s := c.streams[id];
    var s1 := s.(base := s.base + delta);
    var s2 := s1.(window := s1.window + delta);
    assert c.streams[id := s1][id := s2] == c.streams[id := s2];
    PutKeepsWellFormed(c, id, s2);
    var c' := c.(streams := c.streams[id := s2]);
    if !s2.state.Closed? { ScheduleKeepsWellFormed(c', id); }
  }

  lemma PutKeepsWellFormed(c: Conn, id: nat, s: Stream)
    requires WellFormed(c) && id in c.streams && s.pending == c.streams[id].pending
    ensures WellFormed(c.(streams := c.streams[id := s]))
  {
    var c' := c.(streams := c.streams[id := s]);
    forall x | x in c'.streams ensures Resolvable(c'.streams[x], c'.entries) {
      assert Resolvable(c.streams[x], c.entries);
    }
  }
}
