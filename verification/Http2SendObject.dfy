/**
 The send side in place: one object whose fields the loops of Http2Stream and
 Http2Connection update step by step. Each method is proved to do what the
 corresponding function of Http2Send says.
 */
module Http2SendObject {
  import opened Octets
  import opened Http2Send
  import opened Http2SendProofs

  /** One turn of the scheduling loop, by what the head entry is. */
  lemma LoopTurn(c: Conn, id: nat)
    requires Schedulable(c, id) && c.streams[id].pending != []
    ensures var e, s := Head(c, id), c.streams[id];
            var stops := e.kind.Data? && (s.window <= 0 || c.window <= 0);
            && (stops || (e.sent < |e.body| && ChunkSize(c, id) == 0) ==> ScheduleLoop(c, id) == c)
            && (!stops && e.sent == |e.body| ==> ScheduleLoop(c, id) == PopExhausted(c, id))
            && (!stops && e.sent < |e.body| && ChunkSize(c, id) > 0 ==>
                  && e.sent + ChunkSize(c, id) <= |e.body|
                  && var c' := SendChunk(c, id, ChunkSize(c, id));
                     && Schedulable(c', id) && |c'.frames| > |c.frames|
                     && Later(c, c', id)
                     && ScheduleLoop(c, id) == if e.kind.Header? then ScheduleLoop(c', id) else c')
  {
    hide FrameFor, MaybeFinish;
    var e := Head(c, id);
    if e.sent < |e.body| && !LoopStops(c, id) {
      var c' := SendChunk(c, id, ChunkSize(c, id));
      assert c'.streams[id].pending == c.streams[id].pending || c'.streams[id].pending == c.streams[id].pending[1..];
    }
  }

  /** There is less left to send. */
  predicate Later(c: Conn, c': Conn, id: nat)
    requires Schedulable(c, id) && Schedulable(c', id) && c.streams[id].pending != []
  {
    var p, p' := c.streams[id].pending, c'.streams[id].pending;
    |p'| < |p| || (p' == p && |Head(c', id).body| - Head(c', id).sent < |Head(c, id).body| - Head(c, id).sent)
  }

  lemma LoopEnds(c: Conn, id: nat)
    requires Schedulable(c, id) && c.streams[id].pending == []
    ensures ScheduleLoop(c, id) == c
  {
  }

  class SendSide {
    var window: int
    var peerInitial: int
    var maxFrame: nat
    var lastOdd: nat
    var lastEven: nat
    var streams: map<nat, Stream>
    var entries: seq<Entry>
    var waiting: seq<nat>
    var frames: seq<Frame>
    var done: nat
    ghost var granted: int

    ghost function Snapshot(): Conn
      reads this
    {
      Conn(window, granted, peerInitial, maxFrame, lastOdd, lastEven, streams, entries, waiting, frames, done)
    }

    constructor (window: int, peerInitial: int, maxFrame: nat)
      ensures Snapshot() == Init(window, peerInitial, maxFrame)
    {
      this.window, this.peerInitial, this.maxFrame := window, peerInitial, maxFrame;
      granted := window;
      lastOdd, lastEven, done := 0, 0, 0;
      streams, entries, waiting, frames := map[], [], [], [];
    }

    /** Queues one frame of the head entry. */
    method QueueFrame(id: nat, n: nat)
      requires Schedulable(Snapshot(), id) && streams[id].pending != []
      requires Head(Snapshot(), id).sent + n <= |Head(Snapshot(), id).body|
      modifies this
      ensures Snapshot() == SendChunk(old(Snapshot()), id, n)
    {
      var s := streams[id];
      var k := s.pending[0];
      var e := entries[k];
      frames := frames + [FrameFor(e, k, n)];
      var charge := 0;
      if e.kind.Data? {
        window := window - n;
        charge := n;
      }
      entries := entries[k := e.(sent := e.sent + n, inflight := e.inflight + 1)];
      var pending := s.pending;
      if e.sent + n == |e.body| { pending := pending[1..]; }
      streams := streams[id := s.(window := s.window - charge, pending := pending)];
    }

    method SyncConnWindowWait(id: nat)
      requires Schedulable(Snapshot(), id)
      modifies this`waiting
      ensures Snapshot() == SyncWaiting(old(Snapshot()), id)
    {
      var s := streams[id];
      if s.pending != [] && entries[s.pending[0]].kind.Data? && s.window > 0 && window <= 0 {
        waiting := PushBack(waiting, id);
      } else {
        waiting := Erase(waiting, id);
      }
    }

    /** schedule_pending: the loop over header fragments and at most one DATA frame. */
    method SchedulePending(id: nat) returns (scheduled: bool)
      requires Schedulable(Snapshot(), id)
      modifies this
      ensures Snapshot() == Schedule(old(Snapshot()), id)
      ensures scheduled <==> |frames| > |old(frames)|
    {
      hide FrameFor, SyncWaiting, BlockedByConnWindow, PushBack, Erase, MaybeFinish, ScheduleLoop, SendChunk;
      scheduled := false;
      var running := true;
      while running && streams[id].pending != []
        invariant Schedulable(Snapshot(), id)
        invariant running ==> ScheduleLoop(Snapshot(), id) == ScheduleLoop(old(Snapshot()), id)
        invariant !running ==> Snapshot() == ScheduleLoop(old(Snapshot()), id)
        invariant |frames| >= |old(frames)| && (scheduled <==> |frames| > |old(frames)|)
        decreases running, |streams[id].pending|,
                  if streams[id].pending != [] then |Head(Snapshot(), id).body| - Head(Snapshot(), id).sent else 0
      {
        ghost var c := Snapshot();
        var s := streams[id];
        var e := entries[s.pending[0]];
        var n := |e.body| - e.sent;
        LoopTurn(c, id);
        if e.kind.Data? && (s.window <= 0 || window <= 0) {
          running := false;
        } else if n == 0 {
          streams := streams[id := s.(pending := s.pending[1..])];
          entries := entries[s.pending[0] := MaybeFinish(e)];
          running := false;
          assert Snapshot() == PopExhausted(c, id);
        } else {
          n := Min(n, maxFrame);
          if e.kind.Data? {
            n := Min(Min(n, window), s.window);
          }
          assert n == ChunkSize(c, id);
          if n == 0 {
            running := false;
          } else {
            QueueFrame(id, n);
            scheduled := true;
            running := e.kind.Header?;
          }
        }
      }
      if running { LoopEnds(Snapshot(), id); }
      SyncConnWindowWait(id);
    }

    method TrySchedulePending(id: nat)
      requires Schedulable(Snapshot(), id)
      modifies this
      ensures Snapshot() == TrySchedule(old(Snapshot()), id)
    {
      if !streams[id].state.Closed? {
        var _ := SchedulePending(id);
      }
    }

    /** enqueue_pending. */
    method EnqueuePending(id: nat, e: Entry) returns (accepted: bool)
      requires Schedulable(Snapshot(), id) && e.sent <= |e.body|
      modifies this
      ensures Snapshot() == Enqueue(old(Snapshot()), id, e)
      ensures accepted <==> !old(streams)[id].state.Closed?
    {
      if streams[id].state.Closed? { return false; }
      var s := streams[id];
      streams := streams[id := s.(pending := s.pending + [|entries|])];
      entries := entries + [e];
      assert Snapshot() == Append(old(Snapshot()), id, e);
      TrySchedulePending(id);
      return true;
    }

    /**
     drain_conn_blocked_streams: repeated passes over the wait list. It terminates
     because a pass either empties the list or uses up the window.
     */
    method DrainConnBlockedStreams()
      requires Settled(Snapshot()) && window > 0
      modifies this
      ensures WellFormed(old(Snapshot()))
      ensures Snapshot() == DrainPass(old(Snapshot()), old(waiting))
      ensures Settled(Snapshot()) && (waiting != [] ==> window <= 0)
    {
      hide Settled, Schedule, WaitingOk, FramesNameEntries;
      SettledIsWellFormed(Snapshot());
      var progress := true;
      while progress && window > 0 && waiting != []
        invariant Settled(Snapshot()) && WellFormed(Snapshot())
        invariant DrainPass(Snapshot(), waiting) == DrainPass(old(Snapshot()), old(waiting))
        invariant !progress ==> waiting == [] || window <= 0
        decreases if window > 0 && waiting != [] then 1 else 0
      {
        progress := false;
        var stream := waiting[0];
        var more := true;
        while more
          invariant Settled(Snapshot()) && WellFormed(Snapshot())
          invariant more ==> window > 0 && waiting != [] && stream == waiting[0]
          invariant !more ==> waiting == [] || window <= 0
          invariant DrainPass(Snapshot(), waiting) == DrainPass(old(Snapshot()), old(waiting))
          decreases more, |waiting|
        {
          var next := if |waiting| > 1 then waiting[1] else stream;
          var last := |waiting| == 1;
          ghost var c := Snapshot();
          ServeHead(c);
          var scheduled := SchedulePending(stream);
          SettledIsWellFormed(Snapshot());
          if scheduled { progress := true; }
          stream := next;
          more := !last && window > 0;
        }
      }
    }

    /** handle_window_update_payload on stream 0; `ok` is false for a connection error. */
    method ConnectionWindowUpdate(increment: nat) returns (ok: bool)
      requires Inv(Snapshot())
      modifies this
      ensures WellFormed(old(Snapshot())) && Snapshot() == ConnWindowUpdate(old(Snapshot()), increment)
      ensures ok <==> increment != 0 && old(window) + increment <= MAX_WINDOW
      ensures Inv(Snapshot())
    {
      hide Settled, DrainPass, WellFormed;
      ConnWindowUpdateKeeps(Snapshot(), increment);
      if increment == 0 || window + increment > MAX_WINDOW { return false; }
      GrantKeepsSettled(Snapshot(), increment);
      SettledWindow(Snapshot());
      window := window + increment;
      granted := granted + increment;
      DrainConnBlockedStreams();
      return true;
    }

    /** handle_send_done for the oldest queued frame, written in full. */
    method HandleSendDone()
      requires Inv(Snapshot()) && done < |frames|
      modifies this
      ensures WellFormed(old(Snapshot())) && FramesNameEntries(old(Snapshot()))
      ensures Snapshot() == SendDone(old(Snapshot())) && Inv(Snapshot())
    {
      hide Settled, TrySchedule, WellFormed, Written;
      SendDoneKeeps(Snapshot());
      FinishedKeeps(Snapshot());
      var f := frames[done];
      entries := entries[f.entry := Written(entries[f.entry], |f.payload|)];
      done := done + 1;
      assert Snapshot() == Finished(old(Snapshot()));
      if f.stream in streams {
        NearlyIsWellFormed(Snapshot(), f.stream);
        StreamSchedulable(Snapshot(), f.stream);
        TrySchedulePending(f.stream);
      }
    }

    /** update_send_window for a SETTINGS change: the window moves and the stream is rescheduled. */
    method MoveStreamWindow(id: nat, delta: int)
      requires Schedulable(Snapshot(), id)
      modifies this
      ensures Snapshot() == ShiftWindow(old(Snapshot()), id, delta)
    {
      hide TrySchedule;
      var s := streams[id];
      streams := streams[id := s.(base := s.base + delta)];
      streams := streams[id := streams[id].(window := streams[id].window + delta)];
      TrySchedulePending(id);
    }

    /**
     apply_peer_initial_stream_window: one pass checks every stream, a second one
     moves them; `order` is the table's enumeration order.
     */
    method ApplyPeerInitialStreamWindow(value: nat, order: seq<nat>) returns (ok: bool)
      requires Inv(Snapshot()) && Enumerates(order, streams.Keys)
      modifies this
      ensures WellFormed(old(Snapshot())) && Snapshot() == InitialWindowSetting(old(Snapshot()), value, order)
      ensures !ok ==> Snapshot() == old(Snapshot())
      ensures ok <==> value == old(peerInitial) || AcceptsInitialWindow(old(Snapshot()), value)
      ensures Inv(Snapshot())
    {
      hide Settled, ShiftWindow, WellFormed;
      InitialWindowKeeps(Snapshot(), value, order);
      PeerInitialInRange(Snapshot());
      if value > MAX_WINDOW { return false; }
      var delta := value - peerInitial;
      if delta != 0 {
        for i := 0 to |order|
          invariant Snapshot() == old(Snapshot())
          invariant forall j :: 0 <= j < i ==> InWindowRange(streams[order[j]].window + delta)
        {
          var next := streams[order[i]].window + delta;
          if next > MAX_WINDOW || next < MIN_WINDOW { return false; }
        }
        assert AcceptsInitialWindow(old(Snapshot()), value) by {
          forall id | id in old(streams) ensures InWindowRange(old(streams)[id].window + value - old(peerInitial)) {
            assert id in order;
          }
        }
        MoveAll(order, delta);
      }
      peerInitial := value;
      return true;
    }

    /** The second pass of apply_peer_initial_stream_window. */
    method MoveAll(order: seq<nat>, delta: int)
      requires Inv(Snapshot()) && Distinct(order)
      requires forall i :: 0 <= i < |order| ==>
                 order[i] in streams && InWindowRange(streams[order[i]].window + delta)
      modifies this
      ensures WellFormed(old(Snapshot())) && Snapshot() == ShiftWindows(old(Snapshot()), order, delta)
    {
      hide Settled, ShiftWindow, WellFormed;
      SettledIsWellFormed(Snapshot());
      assert order[0..] == order;
      for i := 0 to |order|
        invariant Settled(Snapshot()) && WellFormed(Snapshot()) && WaitsOnlyWhenEmpty(Snapshot())
        invariant forall j :: i <= j < |order| ==>
                    order[j] in streams && InWindowRange(streams[order[j]].window + delta)
        invariant ShiftWindows(Snapshot(), order[i..], delta) == ShiftWindows(old(Snapshot()), order, delta)
      {
        ShiftWindowKeeps(Snapshot(), order[i], delta);
        assert order[i..][0] == order[i] && order[i..][1..] == order[i + 1..];
        MoveStreamWindow(order[i], delta);
      }
    }
  }

  lemma SettledWindow(c: Conn)
    requires Settled(c)
    ensures c.window >= 0
  {
  }

  lemma PeerInitialInRange(c: Conn)
    requires Inv(c)
    ensures 0 <= c.peerInitial <= MAX_WINDOW
  {
  }

  lemma StreamSchedulable(c: Conn, id: nat)
    requires WellFormed(c) && id in c.streams
    ensures Schedulable(c, id)
  {
  }
}
