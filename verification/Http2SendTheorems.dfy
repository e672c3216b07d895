/**
 The promises of the HTTP/2 send side, spelled out over whole runs.
 */
module Http2SendTheorems {
  import opened Octets
  import opened Http2Send
  import opened Http2SendProofs

  // ---------------------------------------------------------------- credit, counted from the events

  /** The connection credit an event brings: a WINDOW_UPDATE on stream 0 that does not overflow. */
  function ConnCreditOf(c: Conn, ev: Event): int {
    if ev.EvConnWindowUpdate? && c.window + ev.increment <= MAX_WINDOW then ev.increment else 0
  }

  /** The credit an event brings to one stream of the table. */
  function StreamCreditOf(c: Conn, ev: Event, id: nat): int {
    if ev.EvStreamWindowUpdate? && ev.id == id && id in c.streams &&
       c.streams[id].window + ev.increment <= MAX_WINDOW
    then ev.increment else 0
  }

  function ConnCredit(c: Conn, evs: seq<Event>): int
    requires Inv(c)
  {
    if evs == [] then 0
    else
      var before := evs[..|evs| - 1];
      ConnCredit(c, before) + ConnCreditOf(Run(c, before), evs[|evs| - 1])
  }

  function StreamCredit(c: Conn, evs: seq<Event>, id: nat): int
    requires Inv(c)
  {
    if evs == [] then 0
    else
      var before := evs[..|evs| - 1];
      StreamCredit(c, before, id) + StreamCreditOf(Run(c, before), evs[|evs| - 1], id)
  }

  // ---------------------------------------------------------------- entries, listed from the events

  /**
   The entry an event queues: a send that the stream's state admits and that does not itself move the
   stream to Closed.
   */
  function AcceptedBy(c: Conn, ev: Event): seq<Entry> {
    if ev.EvSend? && ev.id in c.streams && MaySend(c.streams[ev.id].state, ev.kind) &&
       !(ev.endStream && c.streams[ev.id].state.HalfClosedRemote?)
    then [NewEntry(ev.id, ev.kind, ev.body, ev.endStream)]
    else []
  }

  function Accepted(c: Conn, evs: seq<Event>): seq<Entry>
    requires Inv(c)
  {
    if evs == [] then []
    else
      var before := evs[..|evs| - 1];
      Accepted(c, before) + AcceptedBy(Run(c, before), evs[|evs| - 1])
  }

  /** The same entries, whatever has become of them. */
  predicate SameEntries(a: seq<Entry>, b: seq<Entry>) {
    |a| == |b| && forall k :: 0 <= k < |a| ==> SameQueued(a[k], b[k])
  }

  // ---------------------------------------------------------------- streams nobody schedules

  /** A stream that is gone, or closed and not on the wait list. */
  predicate Dead(c: Conn, id: nat) {
    id !in c.waiting && (id in c.streams ==> c.streams[id].state.Closed?)
  }

  predicate NoFrameOf(fs: seq<Frame>, from: nat, id: nat) {
    forall i :: from <= i < |fs| ==> fs[i].stream != id
  }

  predicate QuietAt(c: Conn, q: Conn, id: nat) {
    && Dead(q, id) && NoFrameOf(q.frames, |c.frames|, id)
    && (id in q.streams ==> id in c.streams && q.streams[id].pending == c.streams[id].pending)
  }

  /** Nothing is sent on a dead stream, and it stays dead. */
  ghost predicate Silent(c: Conn, q: Conn) {
    forall id :: Dead(c, id) && Known(c.lastOdd, c.lastEven, id) ==> QuietAt(c, q, id)
  }

  // ---------------------------------------------------------------- what one event may do

  /** Frames are only ever added, and none exceeds the frame size limit in force. */
  predicate Extends(before: seq<Frame>, after: seq<Frame>, maxFrame: nat) {
    |before| <= |after| && after[..|before|] == before &&
    forall i :: |before| <= i < |after| ==> 0 < |after[i].payload| <= maxFrame
  }

  predicate SameGrants(a: map<nat, Stream>, b: map<nat, Stream>) {
    forall id :: id in b ==> id in a && b[id].granted == a[id].granted
  }

  /** The same streams in the same states under the same settings. */
  predicate Calm(c: Conn, q: Conn) {
    && q.streams.Keys == c.streams.Keys && (forall id :: id in c.streams ==> q.streams[id].state == c.streams[id].state)
    && q.peerInitial == c.peerInitial && q.done == c.done
  }

  /** Scheduling, of any number of streams, adds frames and grants nothing. */
  ghost predicate Steady(c: Conn, q: Conn) {
    && q.granted == c.granted && q.maxFrame == c.maxFrame
    && q.lastOdd == c.lastOdd && q.lastEven == c.lastEven
    && SameGrants(c.streams, q.streams) && Calm(c, q)
    && Extends(c.frames, q.frames, c.maxFrame)
    && SameEntries(q.entries, c.entries) && Silent(c, q)
  }

  lemma SteadyRefl(c: Conn)
    ensures Steady(c, c)
  {
    assert c.frames[..|c.frames|] == c.frames;
  }

  lemma SilentTrans(a: Conn, b: Conn, c: Conn)
    requires Silent(a, b) && Silent(b, c) && |a.frames| <= |b.frames| <= |c.frames|
    requires c.frames[..|b.frames|] == b.frames
    requires b.lastOdd >= a.lastOdd && b.lastEven >= a.lastEven
    ensures Silent(a, c)
  {
    forall id | Dead(a, id) && Known(a.lastOdd, a.lastEven, id) ensures QuietAt(a, c, id) {
      assert QuietAt(a, b, id);
      assert QuietAt(b, c, id);
      QuietTrans(a, b, c, id);
    }
  }

  lemma SteadyTrans(a: Conn, b: Conn, c: Conn)
    requires Steady(a, b) && Steady(b, c)
    ensures Steady(a, c)
  {
    hide Silent;
    SilentTrans(a, b, c);
    assert c.frames[..|a.frames|] == c.frames[..|b.frames|][..|a.frames|];
    forall i | |a.frames| <= i < |c.frames| ensures 0 < |c.frames[i].payload| <= a.maxFrame {
      if i < |b.frames| { assert c.frames[i] == c.frames[..|b.frames|][i]; }
    }
    forall k | 0 <= k < |c.entries| ensures SameQueued(c.entries[k], a.entries[k]) {
      assert SameQueued(c.entries[k], b.entries[k]) && SameQueued(b.entries[k], a.entries[k]);
    }
  }

  lemma TouchesIsSteady(c: Conn, q: Conn, id: nat)
    requires id in c.streams && OnlyTouches(c, q, id) && !Dead(c, id)
    requires forall x :: x != id ==> (x in q.waiting <==> x in c.waiting)
    ensures Steady(c, q)
  {
  }

  lemma {:induction false} DrainIsSteady(c: Conn)
    requires Settled(c)
    ensures WellFormed(c) && Steady(c, DrainPass(c, c.waiting))
    decreases |c.waiting|
  {
    hide Settled, Schedule, Steady, WaitingOk, FramesNameEntries, OnlyTouches;
    SettledIsWellFormed(c);
    SteadyRefl(c);
    if c.waiting != [] && c.window > 0 {
      var id := c.waiting[0];
      SettledIsNearly(c, id);
      ScheduleKeeps(c, id);
      var q := Schedule(c, id);
      TouchesIsSteady(c, q, id);
      SettledIsWellFormed(q);
      if q.window > 0 {
        ServedLeavesList(c, id);
        DrainIsSteady(q);
        SteadyTrans(c, q, DrainPass(q, q.waiting));
      }
    }
  }

  lemma SettledIsNearly(c: Conn, id: nat)
    requires Settled(c)
    ensures Nearly(c, id)
  {
    hide WindowsOk, IdsOk, EntriesOk, PendingsOk, NoHalfSentHeader, WaitingOk, NotStalled;
  }

  lemma TryIsSteady(c: Conn, id: nat)
    requires Nearly(c, id) && id in c.streams
    ensures WellFormed(c) && Steady(c, TrySchedule(c, id))
  {
    hide Nearly, Settled, OnlyTouches, Steady, Schedule, WellFormed;
    NearlyIsWellFormed(c, id);
    SteadyRefl(c);
    if !c.streams[id].state.Closed? {
      ScheduleKeeps(c, id);
      TouchesIsSteady(c, Schedule(c, id), id);
    }
  }

  /** A stream whose window was moved is rescheduled; its grants are those of the version put in. */
  lemma PutAndTry(c: Conn, id: nat, s: Stream)
    requires Settled(c) && id in c.streams && s.pending == c.streams[id].pending
    requires StreamWindowOk(s, id, c.frames)
    ensures var c' := c.(streams := c.streams[id := s]); WellFormed(c') && Steady(c', TrySchedule(c', id))
  {
    hide Nearly, Settled, Steady, TrySchedule, StreamWindowOk, WellFormed;
    RestyleKeeps(c, id, s);
    TryIsSteady(c.(streams := c.streams[id := s]), id);
  }

  lemma {:induction false} ShiftIsSteady(c: Conn, order: seq<nat>, delta: int)
    requires Settled(c) && WaitsOnlyWhenEmpty(c) && Distinct(order)
    requires forall i :: 0 <= i < |order| ==>
               order[i] in c.streams && InWindowRange(c.streams[order[i]].window + delta)
    ensures WellFormed(c) && Steady(c, ShiftWindows(c, order, delta))
    decreases |order|
  {
    hide Settled, ShiftWindow, WellFormed, WaitsOnlyWhenEmpty, Steady;
    SettledIsWellFormed(c);
    SteadyRefl(c);
    if order != [] {
      ShiftWindowKeeps(c, order[0], delta);
      var q := ShiftWindow(c, order[0], delta);
      ShiftOneIsSteady(c, order[0], delta);
      ShiftIsSteady(q, order[1..], delta);
      SteadyTrans(c, q, ShiftWindows(q, order[1..], delta));
    }
  }

  lemma ShiftOneIsSteady(c: Conn, id: nat, delta: int)
    requires Settled(c) && id in c.streams && InWindowRange(c.streams[id].window + delta)
    ensures Schedulable(c, id) && Steady(c, ShiftWindow(c, id, delta))
  {
    hide Settled, TrySchedule, PendingOk, NotStalled, HalfSentHeader, WellFormed;
    SettledStream(c, id);
    var s := c.streams[id];
    var s1 := s.(base := s.base + delta);
    var s2 := s1.(window := s1.window + delta);
    assert c.streams[id := s1][id := s2] == c.streams[id := s2];
    PutAndTry(c, id, s2);
  }

  // ---------------------------------------------------------------- what an event does to the table and the settings

  /** The streams of the table after an event. */
  function KeysAfter(c: Conn, ev: Event): set<nat> {
    match ev
    case EvCreate(id) => if FreshId(c, id) then c.streams.Keys + {id} else c.streams.Keys
    case EvReceive(id, kind, _) =>
      if id in c.streams && !MayReceive(c.streams[id].state, kind) then c.streams.Keys - {id} else c.streams.Keys
    case EvStreamWindowUpdate(id, n) =>
      if id in c.streams && (n == 0 || c.streams[id].window + n > MAX_WINDOW) then c.streams.Keys - {id}
      else c.streams.Keys
    case EvRemove(id) => c.streams.Keys - {id}
    case _ => c.streams.Keys
  }

  function StateAfter(c: Conn, ev: Event, id: nat): StreamState {
    if id !in c.streams then Idle
    else if ev.EvSend? && ev.id == id && MaySend(c.streams[id].state, ev.kind)
    then AfterSend(c.streams[id].state, ev.endStream)
    else if ev.EvReceive? && ev.id == id then AfterReceive(c.streams[id].state, ev.endStream)
    else c.streams[id].state
  }

  predicate NextTable(c: Conn, ev: Event, q: Conn) {
    && q.streams.Keys == KeysAfter(c, ev)
    && (forall id :: id in q.streams ==> q.streams[id].state == StateAfter(c, ev, id))
    && q.lastOdd == (if ev.EvCreate? && FreshId(c, ev.id) && ev.id % 2 == 1 then ev.id else c.lastOdd)
    && q.lastEven == (if ev.EvCreate? && FreshId(c, ev.id) && ev.id % 2 == 0 then ev.id else c.lastEven)
  }

  predicate NextSettings(c: Conn, ev: Event, q: Conn) {
    && q.maxFrame == (if ev.EvMaxFrame? && MIN_MAX_FRAME <= ev.value <= MAX_MAX_FRAME then ev.value else c.maxFrame)
    && q.peerInitial == (if ev.EvInitialWindow? && Enumerates(ev.order, c.streams.Keys) &&
                            AcceptsInitialWindow(c, ev.value)
                         then ev.value else c.peerInitial)
    && q.done == c.done + (if ev.EvSendDone? && c.done < |c.frames| then 1 else 0)
  }

  /** What an event does to the frame queue and to the credit counters. */
  ghost predicate StepResult(c: Conn, ev: Event, q: Conn) {
    && Extends(c.frames, q.frames, c.maxFrame)
    && q.lastOdd >= c.lastOdd && q.lastEven >= c.lastEven
    && q.granted == c.granted + ConnCreditOf(c, ev)
    && (forall id :: id in q.streams ==>
          if id in c.streams then q.streams[id].granted == c.streams[id].granted + StreamCreditOf(c, ev, id)
          else FreshId(c, id) && q.streams[id].granted == 0)
    && SameEntries(q.entries, c.entries + AcceptedBy(c, ev))
    && Silent(c, q) && NextTable(c, ev, q) && NextSettings(c, ev, q)
  }

  lemma SteadyStep(c: Conn, ev: Event, q: Conn)
    requires Steady(c, q) && AcceptedBy(c, ev) == []
    requires ev.EvConnWindowUpdate? ==> ConnCreditOf(c, ev) == 0
    requires ev.EvStreamWindowUpdate? ==> ev.id in q.streams ==> StreamCreditOf(c, ev, ev.id) == 0
    requires NextTable(c, ev, c) && NextSettings(c, ev, c)
    ensures StepResult(c, ev, q)
  {
  }

  lemma SendStep(c: Conn, ev: Event)
    requires Inv(c) && ev.EvSend? && ev.id in c.streams
    ensures WellFormed(c) && FramesNameEntries(c) && StepResult(c, ev, Step(c, ev))
  {
    hide Settled, Nearly, TrySchedule, Steady, StepResult, FramesNameEntries, NewEntry;
    InvIsWellFormed(c);
    SteadyRefl(c);
    var s := c.streams[ev.id];
    if MaySend(s.state, ev.kind) {
      var s' := s.(state := AfterSend(s.state, ev.endStream));
      var c1 := c.(streams := c.streams[ev.id := s']);
      RestyleSameWindow(c, ev.id, s');
      if s'.state.Closed? {
        RestyleStep(c, ev, ev.id, s');
      } else {
        var e := NewEntry(ev.id, ev.kind, ev.body, ev.endStream);
        NewEntryFits(ev.id, ev.kind, ev.body, ev.endStream);
        AppendKeeps(c1, ev.id, e);
        var c2 := Append(c1, ev.id, e);
        TryIsSteady(c2, ev.id);
        QueueStep(c, ev, c2, TrySchedule(c2, ev.id));
      }
    } else {
      SteadyStep(c, ev, c);
    }
  }

  lemma NewEntryFits(id: nat, kind: PendingKind, body: seq<bv8>, endStream: bool)
    ensures var e := NewEntry(id, kind, body, endStream);
            && e.stream == id && e.sent == e.written == e.inflight == 0 && !e.completed
            && (e.kind.Header? ==> e.firstFlags & END_HEADERS == 0 && e.lastFlags & END_HEADERS != 0)
  {
  }

  /** A stream changes its state and nothing else happens. */
  lemma RestyleStep(c: Conn, ev: Event, id: nat, s: Stream)
    requires id in c.streams && !c.streams[id].state.Closed? && s == c.streams[id].(state := s.state)
    requires (ev.EvSend? || (ev.EvReceive? && MayReceive(c.streams[id].state, ev.kind))) && ev.id == id
    requires AcceptedBy(c, ev) == [] && s.state == StateAfter(c, ev, id)
    ensures StepResult(c, ev, c.(streams := c.streams[id := s]))
  {
    hide SameQueued, AcceptedBy, Known, FreshId;
    SameQueuedRefl();
    assert c.frames[..|c.frames|] == c.frames && c.entries + [] == c.entries;
  }

  lemma QueueStep(c: Conn, ev: Event, c2: Conn, q: Conn)
    requires ev.EvSend? && ev.id in c.streams && !c.streams[ev.id].state.Closed?
    requires AcceptedBy(c, ev) == [NewEntry(ev.id, ev.kind, ev.body, ev.endStream)]
    requires c2 == c.(streams := c2.streams, entries := c.entries + AcceptedBy(c, ev))
    requires ev.id in c2.streams && c2.streams == c.streams[ev.id := c2.streams[ev.id]]
    requires c2.streams[ev.id].granted == c.streams[ev.id].granted
    requires c2.streams[ev.id].state == StateAfter(c, ev, ev.id)
    requires Steady(c2, q)
    ensures StepResult(c, ev, q)
  {
    hide AcceptedBy, Extends, Known, SameQueued, NewEntry, MaySend, AfterSend;
    assert Silent(c, c2);
    assert c2.frames[..|c2.frames|] == c2.frames;
    ExtendsPrefix(c2.frames, q.frames, c2.maxFrame);
    SilentTrans(c, c2, q);
  }

  lemma ExtendsPrefix(before: seq<Frame>, after: seq<Frame>, maxFrame: nat)
    requires Extends(before, after, maxFrame)
    ensures |before| <= |after| && after[..|before|] == before
  {
  }

  lemma RemoveIsSilent(c: Conn, id: nat)
    ensures Silent(c, Remove(c, id))
  {
    EraseMembers(c.waiting, id);
  }

  /** The bookkeeping of the oldest frame, and then scheduling. */
  lemma FinishedStep(c: Conn, ev: Event, q: Conn)
    requires ev.EvSendDone? && c.done < |c.frames| && c.frames[c.done].entry < |c.entries|
    requires Steady(Finished(c), q)
    ensures StepResult(c, ev, q)
  {
    hide Extends, Known, FreshId, SameQueued, Written;
    var f := Finished(c);
    assert Silent(c, f);
    assert c.frames[..|c.frames|] == c.frames;
    ExtendsPrefix(f.frames, q.frames, f.maxFrame);
    SilentTrans(c, f, q);
    WrittenIsSame(c.entries[c.frames[c.done].entry], |c.frames[c.done].payload|);
    SameQueuedRefl();
    assert SameEntries(f.entries, c.entries);
    assert SameEntries(q.entries, f.entries + []) by { assert f.entries + [] == f.entries; }
    SameEntriesTrans(q.entries, f.entries, [], c.entries);
  }

  lemma WrittenIsSame(e: Entry, bytes: nat)
    ensures SameQueued(Written(e, bytes), e)
  {
  }

  lemma ConnUpdateStep(c: Conn, ev: Event)
    requires Inv(c) && ev.EvConnWindowUpdate?
    ensures WellFormed(c) && FramesNameEntries(c) && StepResult(c, ev, Step(c, ev))
  {
    hide Settled, DrainPass, WellFormed;
    InvIsWellFormed(c);
    SteadyRefl(c);
    var n := ev.increment;
    if n != 0 && c.window + n <= MAX_WINDOW {
      GrantKeepsSettled(c, n);
      DrainIsSteady(c.(window := c.window + n, granted := c.granted + n));
    }
  }

  /** The stream gets its credit, and then scheduling. */
  lemma CreditStep(c: Conn, ev: Event, s: Stream, q: Conn)
    requires ev.EvStreamWindowUpdate? && ev.id in c.streams && ev.increment != 0
    requires c.streams[ev.id].window + ev.increment <= MAX_WINDOW
    requires s.granted == c.streams[ev.id].granted + ev.increment && s.state == c.streams[ev.id].state
    requires s.pending == c.streams[ev.id].pending && Steady(c.(streams := c.streams[ev.id := s]), q)
    ensures StepResult(c, ev, q)
  {
    hide Extends, Known, FreshId, SameQueued;
    var c1 := c.(streams := c.streams[ev.id := s]);
    assert Silent(c, c1);
    ExtendsPrefix(c1.frames, q.frames, c1.maxFrame);
    assert c.frames[..|c.frames|] == c.frames && c.entries + [] == c.entries;
    SilentTrans(c, c1, q);
  }

  lemma StreamUpdateStep(c: Conn, ev: Event)
    requires Inv(c) && ev.EvStreamWindowUpdate? && ev.id in c.streams
    ensures WellFormed(c) && FramesNameEntries(c) && StepResult(c, ev, Step(c, ev))
  {
    hide Settled, TrySchedule, PendingOk, NotStalled, HalfSentHeader, WellFormed, FramesNameEntries, Steady, StepResult;
    InvIsWellFormed(c);
    SettledStream(c, ev.id);
    var s := c.streams[ev.id];
    var n := ev.increment;
    if n != 0 && s.window + n <= MAX_WINDOW {
      var s1 := s.(granted := s.granted + n);
      var s2 := s1.(window := s1.window + n);
      assert c.streams[ev.id := s1][ev.id := s2] == c.streams[ev.id := s2];
      PutAndTry(c, ev.id, s2);
      CreditStep(c, ev, s2, TrySchedule(c.(streams := c.streams[ev.id := s2]), ev.id));
    } else {
      RemoveStep(c, ev, ev.id);
    }
  }

  lemma SettingStep(c: Conn, ev: Event)
    requires Inv(c) && ev.EvInitialWindow?
    ensures WellFormed(c) && FramesNameEntries(c) && StepResult(c, ev, Step(c, ev))
  {
    hide Settled, ShiftWindows, WellFormed, FramesNameEntries;
    InvIsWellFormed(c);
    SteadyRefl(c);
    if Enumerates(ev.order, c.streams.Keys) && ev.value != c.peerInitial && AcceptsInitialWindow(c, ev.value) {
      ShiftIsSteady(c, ev.order, ev.value - c.peerInitial);
    }
  }

  lemma DoneStep(c: Conn, ev: Event)
    requires Inv(c) && ev.EvSendDone?
    ensures WellFormed(c) && FramesNameEntries(c) && StepResult(c, ev, Step(c, ev))
  {
    hide Settled, Nearly, TrySchedule, Written;
    InvIsWellFormed(c);
    SteadyRefl(c);
    if c.done < |c.frames| {
      FinishedKeeps(c);
      var id := c.frames[c.done].stream;
      SteadyRefl(Finished(c));
      if id in c.streams {
        TryIsSteady(Finished(c), id);
        FinishedStep(c, ev, TrySchedule(Finished(c), id));
      } else {
        FinishedStep(c, ev, Finished(c));
      }
    }
  }

  lemma RemoveStep(c: Conn, ev: Event, id: nat)
    requires (ev.EvRemove? || ev.EvReceive? || ev.EvStreamWindowUpdate?) && ev.id == id
    requires KeysAfter(c, ev) == c.streams.Keys - {id}
    ensures StepResult(c, ev, Remove(c, id))
  {
    hide Known, FreshId, SameQueued, Silent;
    SameQueuedRefl();
    RemoveIsSilent(c, id);
    assert c.frames[..|c.frames|] == c.frames;
  }

  lemma CreateStep(c: Conn, ev: Event, id: nat)
    requires ev.EvCreate? && FreshId(c, id) && ev.id == id
    ensures StepResult(c, ev, Create(c, id))
  {
    hide SameQueued;
    SameQueuedRefl();
    assert c.frames[..|c.frames|] == c.frames;
  }

  lemma MaxFrameStep(c: Conn, ev: Event)
    requires ev.EvMaxFrame?
    ensures StepResult(c, ev, MaxFrameSetting(c, ev.value))
  {
    hide SameQueued, Known, FreshId;
    SameQueuedRefl();
    assert c.frames[..|c.frames|] == c.frames;
  }

  /** The events that move no window and queue nothing. */
  lemma TableStep(c: Conn, ev: Event)
    requires Inv(c) && (ev.EvCreate? || ev.EvReceive? || ev.EvRemove? || ev.EvMaxFrame?)
    ensures WellFormed(c) && FramesNameEntries(c) && StepResult(c, ev, Step(c, ev))
  {
    hide Inv, Create, Remove, MaxFrameSetting, Send, ConnWindowUpdate, StreamWindowUpdate, InitialWindowSetting,
         SendDone, WellFormed, FramesNameEntries, StepResult, Steady;
    InvIsWellFormed(c);
    SteadyRefl(c);
    if ev.EvCreate? {
      if FreshId(c, ev.id) { CreateStep(c, ev, ev.id); } else { SteadyStep(c, ev, c); }
    } else if ev.EvMaxFrame? {
      MaxFrameStep(c, ev);
    } else if ev.EvRemove? {
      RemoveStep(c, ev, ev.id);
    } else if ev.id !in c.streams {
      SteadyStep(c, ev, c);
    } else if MayReceive(c.streams[ev.id].state, ev.kind) {
      var s := c.streams[ev.id];
      RestyleStep(c, ev, ev.id, s.(state := AfterReceive(s.state, ev.endStream)));
    } else {
      RemoveStep(c, ev, ev.id);
    }
  }

  lemma SameQueuedRefl()
    ensures forall e: Entry :: SameQueued(e, e)
  {
  }

  lemma StepCredits(c: Conn, ev: Event)
    requires Inv(c)
    ensures WellFormed(c) && FramesNameEntries(c) && StepResult(c, ev, Step(c, ev))
  {
    hide Inv, Send, ConnWindowUpdate, StreamWindowUpdate, InitialWindowSetting, SendDone, WellFormed,
         FramesNameEntries, StepResult, Steady;
    InvIsWellFormed(c);
    match ev
    case EvCreate(id) => TableStep(c, ev);
    case EvSend(id, kind, body, endStream) =>
      if id in c.streams { SendStep(c, ev); } else { SteadyRefl(c); SteadyStep(c, ev, c); }
    case EvReceive(id, kind, endStream) => TableStep(c, ev);
    case EvConnWindowUpdate(n) => ConnUpdateStep(c, ev);
    case EvStreamWindowUpdate(id, n) =>
      if id in c.streams { StreamUpdateStep(c, ev); } else { SteadyRefl(c); SteadyStep(c, ev, c); }
    case EvInitialWindow(value, order) => SettingStep(c, ev);
    case EvMaxFrame(value) => TableStep(c, ev);
    case EvSendDone => DoneStep(c, ev);
    case EvRemove(id) => TableStep(c, ev);
  }

  // ---------------------------------------------------------------- the promises

  /** The counters the invariant speaks of are the credit the events brought. */
  lemma {:induction false} CreditsAre(window: int, peerInitial: int, maxFrame: nat, evs: seq<Event>, id: nat)
    requires 0 <= window <= MAX_WINDOW && 0 <= peerInitial <= MAX_WINDOW && maxFrame > 0
    ensures Inv(Init(window, peerInitial, maxFrame))
    ensures var c0 := Init(window, peerInitial, maxFrame);
            var c := Run(c0, evs);
            && c.granted == window + ConnCredit(c0, evs)
            && (id in c.streams ==> c.streams[id].granted == StreamCredit(c0, evs, id))
            && (Known(c.lastOdd, c.lastEven, id) || StreamCredit(c0, evs, id) == 0)
  {
    hide Inv, Step, Extends, Silent, SameEntries;
    InitInv(window, peerInitial, maxFrame);
    if evs != [] {
      var before := evs[..|evs| - 1];
      CreditsAre(window, peerInitial, maxFrame, before, id);
      var c := Run(Init(window, peerInitial, maxFrame), before);
      StepCredits(c, evs[|evs| - 1]);
      InvKnows(c, id);
    }
  }

  lemma InvKnows(c: Conn, id: nat)
    requires Inv(c)
    ensures id in c.streams ==> Known(c.lastOdd, c.lastEven, id)
  {
  }

  /** Each window, in terms of the credit the events brought and of the initial window kept. */
  lemma WindowIs(window: int, peerInitial: int, maxFrame: nat, evs: seq<Event>, id: nat)
    requires 0 <= window <= MAX_WINDOW && 0 <= peerInitial <= MAX_WINDOW && maxFrame > 0
    ensures Inv(Init(window, peerInitial, maxFrame))
    ensures var c0 := Init(window, peerInitial, maxFrame);
            var c := Run(c0, evs);
            && c.window == window + ConnCredit(c0, evs) - DataTotal(c.frames)
            && 0 <= c.window <= 0x7fff_ffff
            && (id in c.streams ==>
                  && c.streams[id].window == c.peerInitial + StreamCredit(c0, evs, id) - DataBytes(c.frames, id)
                  && -0x8000_0000 <= c.streams[id].window <= 0x7fff_ffff)
  {
    CreditsAre(window, peerInitial, maxFrame, evs, id);
  }

  /** The entries are those each event queues, in order and unaltered. */
  lemma {:induction false} EntriesAreQueued(c: Conn, evs: seq<Event>)
    requires Inv(c) && c.entries == []
    ensures SameEntries(Run(c, evs).entries, Accepted(c, evs))
  {
    hide Inv, Step, Extends, Silent, SameQueued;
    if evs != [] {
      var before := evs[..|evs| - 1];
      EntriesAreQueued(c, before);
      var p, ev := Run(c, before), evs[|evs| - 1];
      StepCredits(p, ev);
      SameEntriesTrans(Step(p, ev).entries, p.entries, AcceptedBy(p, ev), Accepted(c, before));
    }
  }

  lemma SameEntriesTrans(a: seq<Entry>, b: seq<Entry>, more: seq<Entry>, c: seq<Entry>)
    requires SameEntries(a, b + more) && SameEntries(b, c)
    ensures SameEntries(a, c + more)
  {
    forall k | 0 <= k < |a| ensures SameQueued(a[k], (c + more)[k]) {
      assert SameQueued(a[k], (b + more)[k]);
      if k < |b| { assert SameQueued(b[k], c[k]); }
    }
  }

  /** What an accepted entry looks like: its flags ask for END_STREAM on the last frame only. */
  lemma {:induction false} AcceptedFlags(c: Conn, evs: seq<Event>, k: nat)
    requires Inv(c) && k < |Accepted(c, evs)|
    ensures exists i :: 0 <= i < |evs| && evs[i].EvSend? &&
                        Accepted(c, evs)[k] == NewEntry(evs[i].id, evs[i].kind, evs[i].body, evs[i].endStream)
  {
    hide Inv, Step, Run, NewEntry;
    var before := evs[..|evs| - 1];
    if k < |Accepted(c, before)| {
      AcceptedFlags(c, before, k);
      var i :| 0 <= i < |before| && before[i].EvSend? &&
               Accepted(c, before)[k] == NewEntry(before[i].id, before[i].kind, before[i].body, before[i].endStream);
      assert evs[i] == before[i];
    } else {
      assert evs[|evs| - 1].EvSend?;
    }
  }

  /** No empty payload is sent on the stream. */
  predicate NonEmptyOn(evs: seq<Event>, id: nat) {
    forall i :: 0 <= i < |evs| && evs[i].EvSend? && evs[i].id == id ==> evs[i].body != []
  }

  lemma NothingEmpty(c: Conn, evs: seq<Event>, id: nat)
    requires Inv(c) && c.entries == [] && NonEmptyOn(evs, id)
    ensures !EmptyOn(Run(c, evs).entries, id)
  {
    hide Inv, Run;
    EntriesAreQueued(c, evs);
    var es := Run(c, evs).entries;
    forall k | 0 <= k < |es| && es[k].stream == id ensures es[k].body != [] {
      AcceptedFlags(c, evs, k);
      assert SameQueued(es[k], Accepted(c, evs)[k]);
    }
  }

  /**
   No stalled stream: after any list of events that sends no empty payload on it, a
   stream that is not closed and has something queued has a frame in flight, is
   blocked by its own window, or is on the wait list. The wait list is empty unless
   the connection window is, whatever is sent.
   */
  lemma NoStreamIsForgotten(window: int, peerInitial: int, maxFrame: nat, evs: seq<Event>, id: nat)
    requires 0 <= window <= MAX_WINDOW && 0 <= peerInitial <= MAX_WINDOW && maxFrame > 0
    ensures Inv(Init(window, peerInitial, maxFrame))
    ensures var c := Run(Init(window, peerInitial, maxFrame), evs);
            && (NonEmptyOn(evs, id) && id in c.streams &&
                !c.streams[id].state.Closed? && c.streams[id].pending != [] ==>
                  || (exists i :: c.done <= i < |c.frames| && c.frames[i].stream == id)
                  || (Schedulable(c, id) && Head(c, id).kind.Data? && c.streams[id].window <= 0)
                  || id in c.waiting)
            && (c.waiting != [] ==> c.window <= 0)
  {
    hide Step, Run, EmptyOn, NonEmptyOn, StreamWindowOk, PendingOk, Settled;
    InitInv(window, peerInitial, maxFrame);
    var c0 := Init(window, peerInitial, maxFrame);
    var c := Run(c0, evs);
    if id in c.streams { SettledStream(c, id); }
    if NonEmptyOn(evs, id) { NothingEmpty(c0, evs, id); }
  }

  /**
   Frames spell their entries: the frames of an entry concatenate to the scheduled
   part of its payload, what is neither unscheduled nor written is in flight, and an
   entry is completed only when, and if it is not empty exactly when, all of it has
   been written.
   */
  lemma FramesSpellPayloads(window: int, peerInitial: int, maxFrame: nat, evs: seq<Event>, k: nat)
    requires 0 <= window <= MAX_WINDOW && 0 <= peerInitial <= MAX_WINDOW && maxFrame > 0
    ensures Inv(Init(window, peerInitial, maxFrame))
    ensures var c := Run(Init(window, peerInitial, maxFrame), evs);
            k < |c.entries| ==>
              var e := c.entries[k];
              && c.done <= |c.frames|
              && e.written <= e.sent <= |e.body|
              && Content(c.frames, k) == e.body[..e.sent]
              && |Content(c.frames[..c.done], k)| == e.written
              && Content(c.frames[..c.done], k) <= Content(c.frames, k)
              && (e.completed ==> Content(c.frames[..c.done], k) == e.body)
              && (e.body != [] && Content(c.frames[..c.done], k) == e.body ==> e.completed)
  {
    InitInv(window, peerInitial, maxFrame);
    var c := Run(Init(window, peerInitial, maxFrame), evs);
    if k < |c.entries| {
      assert EntryOk(c.entries[k], k, c.frames, c.done);
      ContentOfPrefix(c.frames, c.done, k);
      var e := c.entries[k];
      assert Content(c.frames[..c.done], k) == e.body[..e.sent][..e.written];
      assert e.written == |e.body| ==> e.body[..e.sent][..e.written] == e.body;
    }
  }

  lemma {:induction false} ContentOfPrefix(fs: seq<Frame>, n: nat, k: nat)
    requires n <= |fs|
    ensures Content(fs[..n], k) <= Content(fs, k)
    decreases |fs|
  {
    if n == |fs| {
      assert fs[..n] == fs;
    } else {
      ContentOfPrefix(fs[..|fs| - 1], n, k);
      assert fs[..|fs| - 1][..n] == fs[..n];
    }
  }

  /** Every event adds only non-empty frames within the size limit, and leaves no header block open. */
  lemma FramesWithinLimit(window: int, peerInitial: int, maxFrame: nat, evs: seq<Event>, ev: Event)
    requires 0 <= window <= MAX_WINDOW && 0 <= peerInitial <= MAX_WINDOW && maxFrame > 0
    ensures Inv(Init(window, peerInitial, maxFrame))
    ensures var c0 := Init(window, peerInitial, maxFrame);
            var c := Run(c0, evs);
            var q := Run(c0, evs + [ev]);
            && Extends(c.frames, q.frames, c.maxFrame)
            && Blocks(q.frames) == Between
  {
    InitInv(window, peerInitial, maxFrame);
    RunSnoc(Init(window, peerInitial, maxFrame), evs, ev);
    StepCredits(Run(Init(window, peerInitial, maxFrame), evs), ev);
  }

  // ---------------------------------------------------------------- which frame ends the stream

  /** Frame `i` is the last one its entry will ever have. */
  predicate LastOf(fs: seq<Frame>, i: nat, e: Entry)
    requires i < |fs|
  {
    |Content(fs[..i], fs[i].entry)| + |fs[i].payload| == |e.body|
  }

  predicate Flagged(f: Frame) {
    f.flags & END_STREAM != 0
  }

  predicate AsksForEnd(e: Entry) {
    e.lastFlags & END_STREAM != 0
  }

  lemma CutFlags(f: Frame, e: Entry, at: nat)
    requires CutAt(f, e, at) && e.firstFlags == 0
    ensures Flagged(f) <==> AsksForEnd(e) && at + |f.payload| == |e.body|
    ensures f.kind.HeadersFrame? <==> e.kind.Header? && at == 0
    ensures f.kind.ContinuationFrame? <==> e.kind.Header? && at != 0
  {
    var last := e.lastFlags;
    assert 0 | last == last;
    assert 0 & END_STREAM == 0 && (0 as bv8) | 0 == 0;
  }

  lemma {:induction false} LastFrameOf(fs: seq<Frame>, k: nat) returns (i: nat)
    requires Content(fs, k) != []
    ensures i < |fs| && fs[i].entry == k
    ensures |Content(fs[..i], k)| + |fs[i].payload| == |Content(fs, k)|
  {
    i := |fs| - 1;
    if fs[i].entry != k {
      i := LastFrameOf(fs[..i], k);
      assert fs[..|fs| - 1][..i] == fs[..i];
    }
  }

  lemma RunEntry(c: Conn, evs: seq<Event>, k: nat)
    requires Inv(c) && c.entries == [] && k < |Run(c, evs).entries|
    ensures Run(c, evs).entries[k].firstFlags == 0
    ensures var r := Run(c, evs); r.done <= |r.frames| && EntryOk(r.entries[k], k, r.frames, r.done)
  {
    hide EntryOk, FrameOk, Run;
    EntriesAreQueued(c, evs);
    AcceptedFlags(c, evs, k);
    assert SameQueued(Run(c, evs).entries[k], Accepted(c, evs)[k]);
  }

  /** Frame by frame: END_STREAM stands on the last frame of an entry that asks for it, and on no other. */
  lemma EndStreamOnLastFrame(window: int, peerInitial: int, maxFrame: nat, evs: seq<Event>, i: nat)
    requires 0 <= window <= MAX_WINDOW && 0 <= peerInitial <= MAX_WINDOW && maxFrame > 0
    ensures Inv(Init(window, peerInitial, maxFrame))
    ensures var c := Run(Init(window, peerInitial, maxFrame), evs);
            i < |c.frames| ==>
              && c.frames[i].entry < |c.entries|
              && (Flagged(c.frames[i]) <==>
                    AsksForEnd(c.entries[c.frames[i].entry]) && LastOf(c.frames, i, c.entries[c.frames[i].entry]))
              && (c.frames[i].kind.HeadersFrame? ==>
                    (Flagged(c.frames[i]) <==>
                       AsksForEnd(c.entries[c.frames[i].entry]) &&
                       c.frames[i].payload == c.entries[c.frames[i].entry].body))
  {
    hide Inv, Run, Content, Flagged, AsksForEnd, CutAt;
    InitInv(window, peerInitial, maxFrame);
    var c := Run(Init(window, peerInitial, maxFrame), evs);
    if i < |c.frames| {
      FrameOfRun(c, i);
      var f := c.frames[i];
      RunEntry(Init(window, peerInitial, maxFrame), evs, f.entry);
      CutFlags(f, c.entries[f.entry], |Content(c.frames[..i], f.entry)|);
      CutPayload(f, c.entries[f.entry], |Content(c.frames[..i], f.entry)|);
    }
  }

  lemma FrameOfRun(c: Conn, i: nat)
    requires Inv(c) && i < |c.frames|
    ensures FrameOk(c.frames, i, c.entries)
  {
  }

  lemma CutPayload(f: Frame, e: Entry, at: nat)
    requires CutAt(f, e, at)
    ensures at == 0 ==> (|f.payload| == |e.body| <==> f.payload == e.body)
    ensures f.kind.HeadersFrame? ==> at == 0
  {
  }

  /**
   Entry by entry: some frame ends the stream on behalf of an entry exactly when
   the entry asks for it, is not empty, and has been scheduled to its end. An empty
   payload leaves the queue without a frame, so its END_STREAM is never sent.
   */
  lemma EndStreamSentExactlyWhen(window: int, peerInitial: int, maxFrame: nat, evs: seq<Event>, k: nat)
    requires 0 <= window <= MAX_WINDOW && 0 <= peerInitial <= MAX_WINDOW && maxFrame > 0
    ensures Inv(Init(window, peerInitial, maxFrame))
    ensures var c := Run(Init(window, peerInitial, maxFrame), evs);
            k < |c.entries| ==>
              ((exists i :: 0 <= i < |c.frames| && c.frames[i].entry == k && Flagged(c.frames[i])) <==>
               AsksForEnd(c.entries[k]) && c.entries[k].body != [] && c.entries[k].sent == |c.entries[k].body|)
  {
    hide Inv, Run, Content, Flagged, AsksForEnd, CutAt, FrameOk;
    InitInv(window, peerInitial, maxFrame);
    var c0 := Init(window, peerInitial, maxFrame);
    var c := Run(c0, evs);
    if k < |c.entries| {
      var e := c.entries[k];
      RunEntry(c0, evs, k);
      forall i | 0 <= i < |c.frames| && c.frames[i].entry == k && Flagged(c.frames[i])
        ensures AsksForEnd(e) && e.body != [] && e.sent == |e.body|
      {
        EndStreamOnLastFrame(window, peerInitial, maxFrame, evs, i);
        FrameOfRun(c, i);
        FrameReach(c.frames, i, c.entries, k);
      }
      if AsksForEnd(e) && e.body != [] && e.sent == |e.body| {
        assert e.body[..e.sent] == e.body;
        var i := LastFrameOf(c.frames, k);
        EndStreamOnLastFrame(window, peerInitial, maxFrame, evs, i);
        assert c.frames[i].entry == k && Flagged(c.frames[i]);
      }
    }
  }

  lemma FrameReach(fs: seq<Frame>, i: nat, entries: seq<Entry>, k: nat)
    requires i < |fs| && FrameOk(fs, i, entries) && fs[i].entry == k
    ensures |Content(fs[..i], k)| + |fs[i].payload| <= |Content(fs, k)| && fs[i].payload != []
  {
    ContentOfPrefix(fs, i + 1, k);
    assert fs[..i + 1][..i] == fs[..i];
  }

  // ---------------------------------------------------------------- streams nobody schedules

  /** Once a stream is removed, or closed and off the wait list, no later event queues a frame on it. */
  lemma {:induction false} DeadStreamsStaySilent(c: Conn, evs: seq<Event>, id: nat)
    requires Inv(c) && Dead(c, id) && Known(c.lastOdd, c.lastEven, id)
    ensures |Run(c, evs).frames| >= |c.frames| && QuietAt(c, Run(c, evs), id)
    ensures Known(Run(c, evs).lastOdd, Run(c, evs).lastEven, id)
  {
    hide Inv, Step, SameEntries, QuietAt;
    if evs == [] {
      DeadNow(c, id);
    } else {
      var before := evs[..|evs| - 1];
      DeadStreamsStaySilent(c, before, id);
      var p, ev := Run(c, before), evs[|evs| - 1];
      StepCredits(p, ev);
      QuietIsDead(c, p, id);
      assert QuietAt(p, Step(p, ev), id);
      QuietTrans(c, p, Step(p, ev), id);
    }
  }

  lemma DeadNow(c: Conn, id: nat)
    requires Dead(c, id)
    ensures QuietAt(c, c, id)
  {
  }

  lemma QuietIsDead(c: Conn, q: Conn, id: nat)
    requires QuietAt(c, q, id)
    ensures Dead(q, id)
  {
  }

  lemma QuietTrans(a: Conn, b: Conn, c: Conn, id: nat)
    requires QuietAt(a, b, id) && QuietAt(b, c, id)
    requires |a.frames| <= |b.frames| <= |c.frames| && c.frames[..|b.frames|] == b.frames
    ensures QuietAt(a, c, id)
  {
    forall i | |a.frames| <= i < |c.frames| ensures c.frames[i].stream != id {
      if i < |b.frames| { assert c.frames[i] == c.frames[..|b.frames|][i]; }
    }
  }
}
