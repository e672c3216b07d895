/**
 The send side told from its events alone: which streams there are and in what
 state, which sends are accepted, which limits are in force. Nothing here looks
 at the states and settings the connection keeps for itself.
 */
module Http2SendHistory {
  import opened Octets
  import opened Http2Send
  import opened Http2SendProofs
  import opened Http2SendTheorems

  function Earlier(evs: seq<Event>): seq<Event>
    requires evs != []
  {
    evs[..|evs| - 1]
  }

  function Last(evs: seq<Event>): Event
    requires evs != []
  {
    evs[|evs| - 1]
  }

  // ---------------------------------------------------------------- the life of a stream

  predicate Created(evs: seq<Event>, id: nat) {
    evs != [] && (Created(Earlier(evs), id) || Last(evs) == EvCreate(id))
  }

  /** Headers have been sent or received since the stream was created. */
  predicate Opened(evs: seq<Event>, id: nat) {
    evs != [] &&
    (Opened(Earlier(evs), id) ||
     (Created(Earlier(evs), id) && (Last(evs).EvSend? || Last(evs).EvReceive?) && Last(evs).id == id &&
      Last(evs).kind.Header?))
  }

  /** We have sent the end of the stream: with headers, or with data once it was open. */
  predicate WeEnded(evs: seq<Event>, id: nat) {
    evs != [] &&
    (WeEnded(Earlier(evs), id) ||
     (Created(Earlier(evs), id) && Last(evs).EvSend? && Last(evs).id == id && Last(evs).endStream &&
      (Last(evs).kind.Header? || Opened(Earlier(evs), id))))
  }

  predicate PeerEnded(evs: seq<Event>, id: nat) {
    evs != [] &&
    (PeerEnded(Earlier(evs), id) ||
     (Created(Earlier(evs), id) && Last(evs).EvReceive? && Last(evs).id == id && Last(evs).endStream))
  }

  /** The highest odd, or even, stream identifier asked for. */
  function Highest(evs: seq<Event>, odd: bool): nat {
    if evs == [] then 0
    else
      var high := Highest(Earlier(evs), odd);
      var ev := Last(evs);
      if ev.EvCreate? && (ev.id % 2 == 1) == odd && ev.id > high then ev.id else high
  }

  /** The states of section 5.1 of RFC 7540, from what has happened. */
  function StateFrom(open: bool, ours: bool, theirs: bool): StreamState {
    if ours && theirs then Closed
    else if ours then HalfClosedLocal
    else if theirs then HalfClosedRemote
    else if open then Open
    else Idle
  }

  /** Data needs an open stream, and nothing follows the end of a side. */
  predicate MayFollow(ended: bool, open: bool, kind: PendingKind) {
    !ended && (kind.Header? || open)
  }

  lemma {:induction false} NothingBeforeCreation(evs: seq<Event>, id: nat)
    ensures !Created(evs, id) ==> !Opened(evs, id) && !WeEnded(evs, id) && !PeerEnded(evs, id)
  {
    if evs != [] { NothingBeforeCreation(Earlier(evs), id); }
  }

  lemma {:induction false} CreatedIsLow(evs: seq<Event>, id: nat)
    ensures Created(evs, id) ==> id <= Highest(evs, id % 2 == 1)
  {
    if evs != [] { CreatedIsLow(Earlier(evs), id); }
  }

  /** The state is the one the events led to. */
  predicate Told(c: Conn, evs: seq<Event>, id: nat) {
    id in c.streams ==>
      && Created(evs, id) && c.streams[id].state == StateFrom(Opened(evs, id), WeEnded(evs, id), PeerEnded(evs, id))
      && (WeEnded(evs, id) || PeerEnded(evs, id) ==> Opened(evs, id))
  }

  lemma SendByHistory(open: bool, ours: bool, theirs: bool, kind: PendingKind, end: bool)
    requires ours || theirs ==> open
    ensures MaySend(StateFrom(open, ours, theirs), kind) <==> MayFollow(ours, open, kind)
    ensures MayFollow(ours, open, kind) ==>
              AfterSend(StateFrom(open, ours, theirs), end) == StateFrom(true, end, theirs)
  {
  }

  lemma ReceiveByHistory(open: bool, ours: bool, theirs: bool, kind: PendingKind, end: bool)
    requires ours || theirs ==> open
    ensures MayReceive(StateFrom(open, ours, theirs), kind) <==> MayFollow(theirs, open, kind)
    ensures MayFollow(theirs, open, kind) ==>
              AfterReceive(StateFrom(open, ours, theirs), end) == StateFrom(true, ours, end)
  {
  }

  lemma TellNext(c: Conn, q: Conn, evs: seq<Event>, id: nat)
    requires evs != [] && Told(c, Earlier(evs), id) && NextTable(c, Last(evs), q)
    requires c.lastOdd == Highest(Earlier(evs), true) && c.lastEven == Highest(Earlier(evs), false)
    requires forall x :: x in c.streams ==> Known(c.lastOdd, c.lastEven, x)
    ensures Told(q, evs, id)
    ensures q.lastOdd == Highest(evs, true) && q.lastEven == Highest(evs, false)
  {
    hide MaySend, MayReceive, AfterSend, AfterReceive, StateFrom, Highest;
    var before, ev := Earlier(evs), Last(evs);
    HighestNext(evs);
    CreatedIsLow(before, id);
    NothingBeforeCreation(before, id);
    var open, ours, theirs := Opened(before, id), WeEnded(before, id), PeerEnded(before, id);
    if id in c.streams {
      if ev.EvSend? { SendByHistory(open, ours, theirs, ev.kind, ev.endStream); }
      if ev.EvReceive? { ReceiveByHistory(open, ours, theirs, ev.kind, ev.endStream); }
    } else {
      StartsIdle();
    }
    FreshByHistory(c, before, ev);
  }

  lemma StartsIdle()
    ensures StateFrom(false, false, false) == Idle
  {
  }

  lemma HighestNext(evs: seq<Event>)
    requires evs != []
    ensures forall odd :: Highest(evs, odd) ==
              if Last(evs).EvCreate? && (Last(evs).id % 2 == 1) == odd && Last(evs).id > Highest(Earlier(evs), odd)
              then Last(evs).id else Highest(Earlier(evs), odd)
  {
  }

  /** A new identifier is higher than all of its side before it. */
  lemma FreshByHistory(c: Conn, before: seq<Event>, ev: Event)
    requires c.lastOdd == Highest(before, true) && c.lastEven == Highest(before, false)
    ensures ev.EvCreate? ==>
              (FreshId(c, ev.id) <==> ev.id !in c.streams && ev.id > Highest(before, ev.id % 2 == 1))
  {
    hide Highest;
  }

  /** After any events, every stream of the table is in the state they led to. */
  lemma {:induction false} StatesFollowEvents(window: int, peerInitial: int, maxFrame: nat, evs: seq<Event>, id: nat)
    requires 0 <= window <= MAX_WINDOW && 0 <= peerInitial <= MAX_WINDOW && maxFrame > 0
    ensures Inv(Init(window, peerInitial, maxFrame))
    ensures var c := Run(Init(window, peerInitial, maxFrame), evs);
            && Told(c, evs, id)
            && c.lastOdd == Highest(evs, true) && c.lastEven == Highest(evs, false)
  {
    hide Inv, Step, Told, Highest, Extends, Silent, SameEntries, NextTable, NextSettings;
    var c0 := Init(window, peerInitial, maxFrame);
    InitInv(window, peerInitial, maxFrame);
    if evs == [] {
      ToldAtFirst(c0, id);
    } else {
      StatesFollowEvents(window, peerInitial, maxFrame, Earlier(evs), id);
      var c := Run(c0, Earlier(evs));
      StepCredits(c, Last(evs));
      forall x | x in c.streams ensures Known(c.lastOdd, c.lastEven, x) { InvKnows(c, x); }
      TellNext(c, Step(c, Last(evs)), evs, id);
    }
  }

  lemma ToldAtFirst(c: Conn, id: nat)
    requires c.streams == map[]
    ensures Told(c, [], id) && Highest([], true) == 0 && Highest([], false) == 0
  {
  }

  // ---------------------------------------------------------------- the limits in force

  /** SETTINGS_MAX_FRAME_SIZE: the last value within 16384 and 16777215. */
  function LimitAfter(limit: nat, evs: seq<Event>): nat {
    if evs == [] then limit
    else if Last(evs).EvMaxFrame? && 16384 <= Last(evs).value <= 16777215 then Last(evs).value
    else LimitAfter(limit, Earlier(evs))
  }

  lemma {:induction false} LimitsFollowEvents(c: Conn, evs: seq<Event>)
    requires Inv(c)
    ensures Run(c, evs).maxFrame == LimitAfter(c.maxFrame, evs)
  {
    hide Inv, Step, Extends, Silent, SameEntries, NextTable;
    if evs != [] {
      LimitsFollowEvents(c, Earlier(evs));
      StepCredits(Run(c, Earlier(evs)), Last(evs));
    }
  }

  /** Every event adds only non-empty frames within the last valid limit, and leaves no header block open. */
  lemma FramesRespectPeer(window: int, peerInitial: int, maxFrame: nat, evs: seq<Event>, ev: Event)
    requires 0 <= window <= MAX_WINDOW && 0 <= peerInitial <= MAX_WINDOW && maxFrame > 0
    ensures Inv(Init(window, peerInitial, maxFrame))
    ensures var c0 := Init(window, peerInitial, maxFrame);
            var c := Run(c0, evs);
            var q := Run(c0, evs + [ev]);
            && Extends(c.frames, q.frames, LimitAfter(maxFrame, evs))
            && Blocks(q.frames) == Between
  {
    hide Inv, Run, Extends, LimitAfter, Blocks;
    FramesWithinLimit(window, peerInitial, maxFrame, evs, ev);
    LimitsFollowEvents(Init(window, peerInitial, maxFrame), evs);
  }

  /** Each stream once, in any order, and nothing else. */
  predicate ListsOnce(order: seq<nat>, ids: set<nat>) {
    multiset(order) == multiset(ids)
  }

  lemma {:induction false} CountOnce(order: seq<nat>, x: nat)
    requires forall i, j :: 0 <= i < j < |order| ==> order[i] != order[j]
    ensures multiset(order)[x] == if x in order then 1 else 0
  {
    if order != [] {
      var init, last := order[..|order| - 1], order[|order| - 1];
      CountOnce(init, x);
      assert order == init + [last];
    }
  }

  lemma CountTwice(order: seq<nat>, i: nat, j: nat)
    requires i < j < |order| && order[i] == order[j]
    ensures multiset(order)[order[i]] >= 2
  {
    assert order == order[..j] + order[j..];
    assert order[i] in order[..j] && order[i] in order[j..] by {
      assert order[..j][i] == order[i] && order[j..][0] == order[j];
    }
  }

  lemma EnumeratesIs(order: seq<nat>, ids: set<nat>)
    ensures Enumerates(order, ids) <==> ListsOnce(order, ids)
  {
    if Enumerates(order, ids) {
      forall x ensures multiset(order)[x] == multiset(ids)[x] { CountOnce(order, x); }
    }
    if ListsOnce(order, ids) {
      forall i, j | 0 <= i < j < |order| ensures order[i] != order[j] {
        if order[i] == order[j] { CountTwice(order, i, j); }
      }
      forall id | id in ids ensures id in order { assert id in multiset(ids); }
      forall i | 0 <= i < |order| ensures order[i] in ids { assert order[i] in multiset(order); }
    }
  }

  /**
   SETTINGS_INITIAL_WINDOW_SIZE: the last value that is at most 2^31-1 and leaves every stream within
   32 bits, given what each stream was granted and has used.
   */
  function InitialAfter(c: Conn, evs: seq<Event>): int
    requires Inv(c)
  {
    if evs == [] then c.peerInitial
    else
      var p := Run(c, Earlier(evs));
      if Last(evs).EvInitialWindow? && ListsOnce(Last(evs).order, p.streams.Keys) && Last(evs).value <= 0x7fff_ffff &&
         forall id :: id in p.streams ==>
           -0x8000_0000 <= Last(evs).value + StreamCredit(c, Earlier(evs), id) - DataBytes(p.frames, id) <= 0x7fff_ffff
      then Last(evs).value
      else InitialAfter(c, Earlier(evs))
  }

  lemma {:induction false} InitialFollowsEvents(window: int, peerInitial: int, maxFrame: nat, evs: seq<Event>)
    requires 0 <= window <= MAX_WINDOW && 0 <= peerInitial <= MAX_WINDOW && maxFrame > 0
    ensures Inv(Init(window, peerInitial, maxFrame))
    ensures var c0 := Init(window, peerInitial, maxFrame); Run(c0, evs).peerInitial == InitialAfter(c0, evs)
  {
    hide Inv, Step, Extends, Silent, SameEntries, NextTable, DataBytes, StreamCredit, Enumerates, ListsOnce,
         InWindowRange;
    InitInv(window, peerInitial, maxFrame);
    if evs != [] {
      var c0, before, ev := Init(window, peerInitial, maxFrame), Earlier(evs), Last(evs);
      InitialFollowsEvents(window, peerInitial, maxFrame, before);
      var p := Run(c0, before);
      StepCredits(p, ev);
      if ev.EvInitialWindow? {
        EnumeratesIs(ev.order, p.streams.Keys);
        forall id | id in p.streams
          ensures InWindowRange(p.streams[id].window + ev.value - p.peerInitial) <==>
                  -0x8000_0000 <= ev.value + StreamCredit(c0, before, id) - DataBytes(p.frames, id) <= 0x7fff_ffff
        {
          WindowIs(window, peerInitial, maxFrame, before, id);
          RangeIs(p.streams[id].window + ev.value - p.peerInitial);
        }
      }
    }
  }

  lemma RangeIs(w: int)
    ensures InWindowRange(w) <==> -0x8000_0000 <= w <= 0x7fff_ffff
  {
  }

  /**
   Flow-control conservation and bounds, sections 6.9.1 and 6.9.2 of RFC 7540, after any list of
   events: the connection window is what was granted less the DATA sent, a stream's window the
   initial window in force plus its own grants less its DATA.
   */
  lemma WindowsAreConserved(window: int, peerInitial: int, maxFrame: nat, evs: seq<Event>, id: nat)
    requires 0 <= window <= MAX_WINDOW && 0 <= peerInitial <= MAX_WINDOW && maxFrame > 0
    ensures Inv(Init(window, peerInitial, maxFrame))
    ensures var c0 := Init(window, peerInitial, maxFrame);
            var c := Run(c0, evs);
            && c.window == window + ConnCredit(c0, evs) - DataTotal(c.frames)
            && 0 <= c.window <= 0x7fff_ffff
            && (id in c.streams ==>
                  && c.streams[id].window == InitialAfter(c0, evs) + StreamCredit(c0, evs, id) - DataBytes(c.frames, id)
                  && -0x8000_0000 <= c.streams[id].window <= 0x7fff_ffff)
  {
    hide Inv, Run, DataBytes, DataTotal, StreamCredit, ConnCredit, InitialAfter;
    WindowIs(window, peerInitial, maxFrame, evs, id);
    InitialFollowsEvents(window, peerInitial, maxFrame, evs);
  }

  // ---------------------------------------------------------------- the streams of the table

  /**
   A stream is in the table from its creation, under an identifier higher than all of its side before,
   until it is removed, something is received that cannot follow, or an increment is zero or too large.
   */
  predicate Present(c: Conn, evs: seq<Event>, id: nat)
    requires Inv(c)
  {
    evs != [] &&
    var before, ev := Earlier(evs), Last(evs);
    if ev.EvCreate? && ev.id == id then Present(c, before, id) || id > Highest(before, id % 2 == 1)
    else if ev.EvRemove? && ev.id == id then false
    else if ev.EvReceive? && ev.id == id then
      Present(c, before, id) && MayFollow(PeerEnded(before, id), Opened(before, id), ev.kind)
    else if ev.EvStreamWindowUpdate? && ev.id == id then
      Present(c, before, id) && 0 < ev.increment &&
      InitialAfter(c, before) + StreamCredit(c, before, id) - DataBytes(Run(c, before).frames, id) + ev.increment
        <= 0x7fff_ffff
    else Present(c, before, id)
  }

  lemma {:induction false} TableFollowsEvents(window: int, peerInitial: int, maxFrame: nat, evs: seq<Event>, id: nat)
    requires 0 <= window <= MAX_WINDOW && 0 <= peerInitial <= MAX_WINDOW && maxFrame > 0
    ensures Inv(Init(window, peerInitial, maxFrame))
    ensures var c0 := Init(window, peerInitial, maxFrame);
            id in Run(c0, evs).streams <==> Present(c0, evs, id)
  {
    hide Inv, Step, Extends, Silent, SameEntries, DataBytes, StreamCredit, InitialAfter, Highest, StateFrom, MayReceive,
         AfterReceive, AfterSend, MaySend;
    InitInv(window, peerInitial, maxFrame);
    if evs != [] {
      var c0, before, ev := Init(window, peerInitial, maxFrame), Earlier(evs), Last(evs);
      TableFollowsEvents(window, peerInitial, maxFrame, before, id);
      StatesFollowEvents(window, peerInitial, maxFrame, before, id);
      var p := Run(c0, before);
      StepCredits(p, ev);
      FreshByHistory(p, before, ev);
      if id in p.streams && ev.EvReceive? {
        ReceiveByHistory(Opened(before, id), WeEnded(before, id), PeerEnded(before, id), ev.kind, ev.endStream);
      }
      if ev.EvStreamWindowUpdate? { WindowsAreConserved(window, peerInitial, maxFrame, before, id); }
      assert Run(c0, evs) == Step(p, ev);
    }
  }

  // ---------------------------------------------------------------- the sends that are accepted

  datatype Sent = Sent(stream: nat, kind: PendingKind, body: seq<bv8>, end: bool)

  /**
   A send on a stream of the table is accepted unless we have ended our side, it is data on a stream
   not open yet, or it is the end of a stream that the peer has ended already.
   */
  function AcceptedSends(c: Conn, evs: seq<Event>): seq<Sent>
    requires Inv(c)
  {
    if evs == [] then []
    else
      var before, ev := Earlier(evs), Last(evs);
      AcceptedSends(c, before) +
      (if ev.EvSend? && Present(c, before, ev.id) &&
          MayFollow(WeEnded(before, ev.id), Opened(before, ev.id), ev.kind) &&
          !(ev.endStream && PeerEnded(before, ev.id))
       then [Sent(ev.id, ev.kind, ev.body, ev.endStream)] else [])
  }

  /** The entry of a send: END_HEADERS on the last frame of headers, END_STREAM on the last frame of the end. */
  predicate Carries(e: Entry, s: Sent) {
    && e.stream == s.stream && e.kind == s.kind && e.body == s.body && e.firstFlags == 0
    && e.lastFlags == (match (s.kind, s.end)
                       case (Header, true) => 5
                       case (Header, false) => 4
                       case (Data, true) => 1
                       case (Data, false) => 0)
  }

  predicate CarriesAll(entries: seq<Entry>, sends: seq<Sent>) {
    |entries| == |sends| && forall k :: 0 <= k < |entries| ==> Carries(entries[k], sends[k])
  }

  lemma NewEntryCarries(ev: Event)
    requires ev.EvSend?
    ensures Carries(NewEntry(ev.id, ev.kind, ev.body, ev.endStream), Sent(ev.id, ev.kind, ev.body, ev.endStream))
  {
  }

  lemma SameCarries(a: Entry, b: Entry, s: Sent)
    requires SameQueued(a, b) && Carries(b, s)
    ensures Carries(a, s)
  {
  }

  /** The entries are the accepted sends, in order, whatever has become of them. */
  lemma {:induction false} EntriesAreAccepted(window: int, peerInitial: int, maxFrame: nat, evs: seq<Event>)
    requires 0 <= window <= MAX_WINDOW && 0 <= peerInitial <= MAX_WINDOW && maxFrame > 0
    ensures Inv(Init(window, peerInitial, maxFrame))
    ensures var c0 := Init(window, peerInitial, maxFrame);
            CarriesAll(Run(c0, evs).entries, AcceptedSends(c0, evs))
  {
    hide Inv, Step, Extends, Silent, SameQueued, NextTable, NextSettings, Present, Carries, NewEntry, StateFrom,
         MaySend, AfterSend;
    InitInv(window, peerInitial, maxFrame);
    if evs != [] {
      var c0, before, ev := Init(window, peerInitial, maxFrame), Earlier(evs), Last(evs);
      EntriesAreAccepted(window, peerInitial, maxFrame, before);
      var p := Run(c0, before);
      StepCredits(p, ev);
      var q := Step(p, ev);
      if ev.EvSend? {
        TableFollowsEvents(window, peerInitial, maxFrame, before, ev.id);
        StatesFollowEvents(window, peerInitial, maxFrame, before, ev.id);
        if ev.id in p.streams {
          SendByHistory(Opened(before, ev.id), WeEnded(before, ev.id), PeerEnded(before, ev.id), ev.kind, ev.endStream);
        }
        OnlyPeerEnded(Opened(before, ev.id), WeEnded(before, ev.id), PeerEnded(before, ev.id));
        NewEntryCarries(ev);
      }
      forall k | 0 <= k < |q.entries| ensures Carries(q.entries[k], AcceptedSends(c0, evs)[k]) {
        assert SameQueued(q.entries[k], (p.entries + AcceptedBy(p, ev))[k]);
        SameCarries(q.entries[k], (p.entries + AcceptedBy(p, ev))[k], AcceptedSends(c0, evs)[k]);
      }
      assert Run(c0, evs) == q;
    }
  }

  lemma OnlyPeerEnded(open: bool, ours: bool, theirs: bool)
    ensures StateFrom(open, ours, theirs).HalfClosedRemote? <==> theirs && !ours
  {
  }

  /** One more event: a send is queued exactly when it may follow what happened on its stream, as it was given. */
  lemma SendQueuedExactlyWhen(window: int, peerInitial: int, maxFrame: nat, evs: seq<Event>, ev: Event)
    requires 0 <= window <= MAX_WINDOW && 0 <= peerInitial <= MAX_WINDOW && maxFrame > 0 && ev.EvSend?
    ensures Inv(Init(window, peerInitial, maxFrame))
    ensures var c0 := Init(window, peerInitial, maxFrame);
            var c, q := Run(c0, evs), Run(c0, evs + [ev]);
            && (|q.entries| == |c.entries| + 1 <==>
                  && Present(c0, evs, ev.id) && !WeEnded(evs, ev.id)
                  && (ev.kind.Header? || Opened(evs, ev.id)) && !(ev.endStream && PeerEnded(evs, ev.id)))
            && (|q.entries| == |c.entries| ||
                (|q.entries| == |c.entries| + 1 &&
                 Carries(q.entries[|c.entries|], Sent(ev.id, ev.kind, ev.body, ev.endStream))))
  {
    hide Inv, Run, Present, WeEnded, Opened, PeerEnded, Carries;
    var all := evs + [ev];
    assert Earlier(all) == evs && Last(all) == ev;
    EntriesAreAccepted(window, peerInitial, maxFrame, evs);
    EntriesAreAccepted(window, peerInitial, maxFrame, all);
    var c0 := Init(window, peerInitial, maxFrame);
    var q := Run(c0, all);
    if |q.entries| == |Run(c0, evs).entries| + 1 {
      assert Carries(q.entries[|q.entries| - 1], AcceptedSends(c0, all)[|q.entries| - 1]);
    }
  }

  // ---------------------------------------------------------------- frames the writer has finished

  /** How many frames the writer has finished: one for each completion that found one. */
  function FinishedBy(c: Conn, evs: seq<Event>): nat
    requires Inv(c)
  {
    if evs == [] then 0
    else
      FinishedBy(c, Earlier(evs)) +
      (if Last(evs).EvSendDone? && FinishedBy(c, Earlier(evs)) < |Run(c, Earlier(evs)).frames| then 1 else 0)
  }

  lemma {:induction false} DoneFollowsEvents(c: Conn, evs: seq<Event>)
    requires Inv(c) && c.done == 0
    ensures Run(c, evs).done == FinishedBy(c, evs)
  {
    hide Inv, Step, Extends, Silent, SameEntries, NextTable;
    if evs != [] {
      DoneFollowsEvents(c, Earlier(evs));
      StepCredits(Run(c, Earlier(evs)), Last(evs));
    }
  }
}
