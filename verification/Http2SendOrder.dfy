/**
 What was sent first goes out first: on every stream the frames carry the
 accepted payloads one after the other, without a gap and without overtaking,
 and streams wait for connection window in the order in which they were held up.
 */
module Http2SendOrder {
  import opened Octets
  import opened Http2Send
  import opened Http2SendProofs

  // ---------------------------------------------------------------- the bytes of a stream

  /** The payloads of all frames of a stream, in the order the frames were queued. */
  function StreamBytes(fs: seq<Frame>, id: nat): seq<bv8> {
    if fs == [] then []
    else
      var f := fs[|fs| - 1];
      StreamBytes(fs[..|fs| - 1], id) + if f.stream == id then f.payload else []
  }

  /** The scheduled parts of all entries of a stream, in the order they were accepted. */
  function SentBytes(entries: seq<Entry>, id: nat): seq<bv8> {
    if entries == [] then []
    else
      var e := entries[|entries| - 1];
      SentBytes(entries[..|entries| - 1], id) + if e.stream == id && e.sent <= |e.body| then e.body[..e.sent] else []
  }

  /** The payloads accepted on a stream, one after the other. */
  function Bodies(entries: seq<Entry>, id: nat): seq<bv8> {
    if entries == [] then []
    else
      var e := entries[|entries| - 1];
      Bodies(entries[..|entries| - 1], id) + if e.stream == id then e.body else []
  }

  predicate Full(e: Entry) { e.sent == |e.body| }

  /** An entry has begun only if all before it on its stream are through. */
  predicate Staged(entries: seq<Entry>, id: nat) {
    forall j, k :: 0 <= j < k < |entries| && entries[j].stream == id && entries[k].stream == id ==>
      entries[k].sent > 0 ==> Full(entries[j])
  }

  /** The queue of a stream lists what is not through, oldest first; only its head has begun. */
  predicate Lined(p: seq<nat>, id: nat, entries: seq<Entry>) {
    Named(p, id, entries) && Rising(p) && OthersThrough(p, id, entries)
  }

  predicate Named(p: seq<nat>, id: nat, entries: seq<Entry>) {
    forall i :: 0 <= i < |p| ==>
      p[i] < |entries| && entries[p[i]].stream == id && (i > 0 ==> entries[p[i]].sent == 0)
  }

  predicate Rising(p: seq<nat>) {
    forall i, j :: 0 <= i < j < |p| ==> p[i] < p[j]
  }

  predicate OthersThrough(p: seq<nat>, id: nat, entries: seq<Entry>) {
    forall k :: 0 <= k < |entries| && entries[k].stream == id && k !in p ==>
      Full(entries[k]) && (p != [] ==> k < p[0])
  }

  predicate EntryKnown(e: Entry, lastOdd: nat, lastEven: nat) {
    e.sent <= |e.body| && Known(lastOdd, lastEven, e.stream)
  }

  ghost predicate InOrder(c: Conn) {
    && (forall k :: 0 <= k < |c.entries| ==> EntryKnown(c.entries[k], c.lastOdd, c.lastEven))
    && (forall id :: id in c.streams ==> Lined(c.streams[id].pending, id, c.entries))
    && (forall id: nat :: Staged(c.entries, id))
    && (forall id: nat :: StreamBytes(c.frames, id) == SentBytes(c.entries, id))
  }

  // ---------------------------------------------------------------- lists of entries

  /** What the order depends on. */
  predicate Alike(a: Entry, b: Entry) {
    a.stream == b.stream && a.body == b.body && a.sent == b.sent
  }

  predicate AllAlike(a: seq<Entry>, b: seq<Entry>) {
    |a| == |b| && forall k :: 0 <= k < |a| ==> Alike(a[k], b[k])
  }

  lemma {:induction false} SentAlike(a: seq<Entry>, b: seq<Entry>, id: nat)
    requires AllAlike(a, b)
    ensures SentBytes(a, id) == SentBytes(b, id)
  {
    if a != [] { SentAlike(a[..|a| - 1], b[..|b| - 1], id); }
  }

  /** Other streams do not see an entry change. */
  lemma {:induction false} SentOther(a: seq<Entry>, k: nat, e: Entry, id: nat)
    requires k < |a| && a[k].stream != id && e.stream != id
    ensures SentBytes(a[k := e], id) == SentBytes(a, id)
  {
    var b := a[k := e];
    var n := |a| - 1;
    if k < n {
      SentOther(a[..n], k, e, id);
      assert b[..n] == a[..n][k := e];
    } else {
      assert b[..n] == a[..n];
    }
  }

  lemma {:induction false} SentGrows(a: seq<Entry>, k: nat, e: Entry, n: nat)
    requires k < |a| && e.stream == a[k].stream && e.body == a[k].body && e.sent == a[k].sent + n <= |e.body|
    requires forall j :: k < j < |a| && a[j].stream == e.stream ==> a[j].sent == 0
    ensures SentBytes(a[k := e], e.stream) == SentBytes(a, e.stream) + e.body[a[k].sent..e.sent]
  {
    var b := a[k := e];
    var m := |a| - 1;
    if k < m {
      SentGrows(a[..m], k, e, n);
      assert b[..m] == a[..m][k := e] && b[m] == a[m];
      if a[m].stream == e.stream { assert a[m].body[..a[m].sent] == []; }
      var init := SentBytes(a[..m], e.stream);
      assert SentBytes(a, e.stream) == init + [] && SentBytes(b, e.stream) == SentBytes(b[..m], e.stream) + [];
    } else {
      assert b[..m] == a[..m];
      var x, y := e.body[..a[k].sent], e.body[a[k].sent..e.sent];
      assert e.body[..e.sent] == x + y;
      assert SentBytes(a[..m], e.stream) + (x + y) == SentBytes(a[..m], e.stream) + x + y;
    }
  }

  lemma {:induction false} SentIsPrefix(entries: seq<Entry>, id: nat)
    requires Staged(entries, id) && forall k :: 0 <= k < |entries| ==> entries[k].sent <= |entries[k].body|
    ensures SentBytes(entries, id) <= Bodies(entries, id)
    ensures (forall k :: 0 <= k < |entries| && entries[k].stream == id ==> Full(entries[k])) ==>
              SentBytes(entries, id) == Bodies(entries, id)
  {
    if entries != [] {
      var init, e := entries[..|entries| - 1], entries[|entries| - 1];
      SentIsPrefix(init, id);
      if e.stream == id && e.sent > 0 {
        assert forall k :: 0 <= k < |init| && init[k].stream == id ==> Full(entries[k]);
      }
      assert e.sent == 0 ==> e.body[..e.sent] == [];
      assert Full(e) ==> e.body[..e.sent] == e.body;
    }
  }

  lemma BytesSnoc(fs: seq<Frame>, f: Frame, id: nat)
    ensures StreamBytes(fs + [f], id) == StreamBytes(fs, id) + if f.stream == id then f.payload else []
  {
    assert (fs + [f])[..|fs|] == fs;
  }

  lemma SentSnoc(entries: seq<Entry>, e: Entry, id: nat)
    requires e.sent == 0
    ensures SentBytes(entries + [e], id) == SentBytes(entries, id)
  {
    assert (entries + [e])[..|entries|] == entries;
    assert e.body[..0] == [];
  }

  // ---------------------------------------------------------------- what keeps the order

  /** Nothing the order depends on changes, but streams may leave the table. */
  lemma KeptOrder(c: Conn, q: Conn)
    requires InOrder(c) && q.frames == c.frames && AllAlike(c.entries, q.entries)
    requires c.lastOdd <= q.lastOdd && c.lastEven <= q.lastEven
    requires forall id :: id in q.streams ==> id in c.streams && q.streams[id].pending == c.streams[id].pending
    ensures InOrder(q)
  {
    hide StreamBytes, SentBytes;
    forall k | 0 <= k < |q.entries| ensures EntryKnown(q.entries[k], q.lastOdd, q.lastEven) {
      assert EntryKnown(c.entries[k], c.lastOdd, c.lastEven) && Alike(c.entries[k], q.entries[k]);
    }
    forall id | id in q.streams ensures Lined(q.streams[id].pending, id, q.entries) {
      LinedAlike(c.streams[id].pending, id, c.entries, q.entries);
    }
    forall id: nat ensures Staged(q.entries, id) && StreamBytes(q.frames, id) == SentBytes(q.entries, id) {
      StagedAlike(c.entries, q.entries, id);
      SentAlike(c.entries, q.entries, id);
    }
  }

  lemma LinedAlike(p: seq<nat>, id: nat, a: seq<Entry>, b: seq<Entry>)
    requires Lined(p, id, a) && AllAlike(a, b)
    ensures Lined(p, id, b)
  {
    assert forall k :: 0 <= k < |a| ==> Alike(a[k], b[k]);
  }

  lemma StagedAlike(a: seq<Entry>, b: seq<Entry>, id: nat)
    requires Staged(a, id) && AllAlike(a, b)
    ensures Staged(b, id)
  {
    forall j, k | 0 <= j < k < |b| && b[j].stream == id && b[k].stream == id && b[k].sent > 0
      ensures Full(b[j])
    {
      assert Alike(a[j], b[j]) && Alike(a[k], b[k]);
    }
  }

  /** A queue whose head moves on: it stays, or leaves when it is through. */
  lemma HeadMoves(p: seq<nat>, p': seq<nat>, id: nat, entries: seq<Entry>, e: Entry)
    requires Lined(p, id, entries) && p != [] && e.stream == id
    requires p' == if Full(e) then p[1..] else p
    ensures Lined(p', id, entries[p[0] := e])
  {
    if Full(e) { HeadLeaves(p, id, entries, e); } else { HeadStays(p, id, entries, e); }
  }

  lemma HeadStays(p: seq<nat>, id: nat, entries: seq<Entry>, e: Entry)
    requires Lined(p, id, entries) && p != [] && e.stream == id
    ensures Lined(p, id, entries[p[0] := e])
  {
    var b := entries[p[0] := e];
    forall i | 0 <= i < |p|
      ensures p[i] < |b| && b[p[i]].stream == id && (i > 0 ==> b[p[i]].sent == 0)
    {
      assert i > 0 ==> p[0] < p[i];
    }
    assert p[0] in p;
  }

  lemma HeadLeaves(p: seq<nat>, id: nat, entries: seq<Entry>, e: Entry)
    requires Lined(p, id, entries) && p != [] && e.stream == id && Full(e)
    ensures Lined(p[1..], id, entries[p[0] := e])
  {
    var b, t := entries[p[0] := e], p[1..];
    forall i | 0 <= i < |t|
      ensures t[i] < |b| && b[t[i]].stream == id && b[t[i]].sent == 0
    {
      assert t[i] == p[i + 1] && p[0] < p[i + 1];
    }
    assert Rising(t);
    TailThrough(p, id, entries, e);
  }

  lemma TailThrough(p: seq<nat>, id: nat, entries: seq<Entry>, e: Entry)
    requires Lined(p, id, entries) && p != [] && e.stream == id && Full(e)
    ensures OthersThrough(p[1..], id, entries[p[0] := e])
  {
    var b, t := entries[p[0] := e], p[1..];
    forall k | 0 <= k < |b| && b[k].stream == id && k !in t ensures Full(b[k]) && (t != [] ==> k < t[0]) {
      assert t != [] ==> t[0] == p[1] && p[0] < p[1];
      if k != p[0] { assert k !in p by { assert p == [p[0]] + t; } }
    }
  }

  lemma OthersStay(p: seq<nat>, x: nat, id: nat, entries: seq<Entry>, k: nat, e: Entry)
    requires Lined(p, x, entries) && k < |entries| && entries[k].stream == id && e.stream == id && x != id
    ensures Lined(p, x, entries[k := e])
  {
  }

  /** Only the head of the queue grows, and all before it are through. */
  lemma StagedGrows(p: seq<nat>, id: nat, entries: seq<Entry>, e: Entry, x: nat)
    requires Lined(p, id, entries) && p != [] && e.stream == id && Staged(entries, x)
    ensures Staged(entries[p[0] := e], x)
  {
    var b := entries[p[0] := e];
    forall j, k | 0 <= j < k < |b| && b[j].stream == x && b[k].stream == x && b[k].sent > 0 ensures Full(b[j]) {
      if x == id {
        if j == p[0] {
          assert k in p ==> k != p[0];
          BehindHead(p, id, entries, k);
        } else if j in p {
          BehindHead(p, id, entries, k);
          InQueue(p, id, entries, j);
        }
      }
    }
  }

  /** An entry behind the head has not begun. */
  lemma BehindHead(p: seq<nat>, id: nat, entries: seq<Entry>, k: nat)
    requires Lined(p, id, entries) && p != [] && p[0] < k < |entries| && entries[k].stream == id
    ensures entries[k].sent == 0
  {
    if k in p {
      var i :| 0 <= i < |p| && p[i] == k;
      assert i > 0;
    }
  }

  lemma InQueue(p: seq<nat>, id: nat, entries: seq<Entry>, j: nat)
    requires Lined(p, id, entries) && j in p
    ensures p != [] && p[0] <= j
  {
    var i :| 0 <= i < |p| && p[i] == j;
  }

  // ---------------------------------------------------------------- scheduling

  /** One frame more of the head entry. */
  lemma ChunkOrder(c: Conn, id: nat, n: nat)
    requires InOrder(c) && Schedulable(c, id) && c.streams[id].pending != []
    requires Head(c, id).sent + n <= |Head(c, id).body|
    ensures InOrder(SendChunk(c, id, n))
  {
    hide StreamBytes, SentBytes, Lined, Staged, EntryKnown;
    var q, p := SendChunk(c, id, n), c.streams[id].pending;
    var k := p[0];
    var a, e := c.entries[k], q.entries[k];
    assert Lined(p, id, c.entries);
    HeadIs(p, id, c.entries);
    assert EntryKnown(a, c.lastOdd, c.lastEven);
    ChunkKnown(c, q, k);
    forall x | x in q.streams ensures Lined(q.streams[x].pending, x, q.entries) {
      if x == id {
        HeadMoves(p, q.streams[id].pending, id, c.entries, e);
      } else {
        OthersStay(c.streams[x].pending, x, id, c.entries, k, e);
      }
    }
    forall x: nat ensures Staged(q.entries, x) && StreamBytes(q.frames, x) == SentBytes(q.entries, x) {
      StagedGrows(p, id, c.entries, e, x);
      BytesSnoc(c.frames, FrameFor(a, k, n), x);
      if x == id {
        forall j | k < j < |c.entries| && c.entries[j].stream == id ensures c.entries[j].sent == 0 {
          BehindHead(p, id, c.entries, j);
        }
        SentGrows(c.entries, k, e, n);
      } else {
        SentOther(c.entries, k, e, x);
      }
    }
  }

  lemma HeadIs(p: seq<nat>, id: nat, entries: seq<Entry>)
    requires Lined(p, id, entries) && p != []
    ensures p[0] < |entries| && entries[p[0]].stream == id
  {
  }

  lemma ChunkKnown(c: Conn, q: Conn, k: nat)
    requires k < |c.entries| && |q.entries| == |c.entries| && q.entries == c.entries[k := q.entries[k]]
    requires q.entries[k].stream == c.entries[k].stream && q.entries[k].sent <= |q.entries[k].body|
    requires q.lastOdd == c.lastOdd && q.lastEven == c.lastEven
    requires forall x :: 0 <= x < |c.entries| ==> EntryKnown(c.entries[x], c.lastOdd, c.lastEven)
    ensures forall x :: 0 <= x < |q.entries| ==> EntryKnown(q.entries[x], q.lastOdd, q.lastEven)
  {
    forall x | 0 <= x < |q.entries| ensures EntryKnown(q.entries[x], q.lastOdd, q.lastEven) {
      assert EntryKnown(c.entries[x], c.lastOdd, c.lastEven);
      assert EntryKnown(c.entries[k], c.lastOdd, c.lastEven);
    }
  }

  /** An entry that is through leaves the queue. */
  lemma PopOrder(c: Conn, id: nat)
    requires InOrder(c) && Schedulable(c, id) && c.streams[id].pending != [] && Full(Head(c, id))
    ensures InOrder(PopExhausted(c, id))
  {
    hide StreamBytes, SentBytes, Lined, Staged, EntryKnown;
    var q, p := PopExhausted(c, id), c.streams[id].pending;
    var k := p[0];
    var e := q.entries[k];
    assert Lined(p, id, c.entries);
    HeadIs(p, id, c.entries);
    assert EntryKnown(c.entries[k], c.lastOdd, c.lastEven);
    ChunkKnown(c, q, k);
    forall x | x in q.streams ensures Lined(q.streams[x].pending, x, q.entries) {
      if x == id {
        HeadMoves(p, q.streams[id].pending, id, c.entries, e);
      } else {
        OthersStay(c.streams[x].pending, x, id, c.entries, k, e);
      }
    }
    assert AllAlike(c.entries, q.entries);
    forall x: nat ensures Staged(q.entries, x) && StreamBytes(q.frames, x) == SentBytes(q.entries, x) {
      StagedAlike(c.entries, q.entries, x);
      SentAlike(c.entries, q.entries, x);
    }
  }

  lemma {:induction false} LoopOrder(c: Conn, id: nat)
    requires InOrder(c) && Schedulable(c, id)
    ensures InOrder(ScheduleLoop(c, id))
    decreases |c.streams[id].pending|,
              if c.streams[id].pending != [] then |Head(c, id).body| - Head(c, id).sent else 0
  {
    hide InOrder, FrameFor, MaybeFinish;
    if !LoopStops(c, id) {
      if Head(c, id).sent == |Head(c, id).body| {
        PopOrder(c, id);
      } else {
        var n := ChunkSize(c, id);
        ChunkOrder(c, id, n);
        var c' := SendChunk(c, id, n);
        assert c'.streams[id].pending == c.streams[id].pending || c'.streams[id].pending == c.streams[id].pending[1..];
        if Head(c, id).kind.Header? { LoopOrder(c', id); }
      }
    }
  }

  lemma AlikeSelf(entries: seq<Entry>)
    ensures AllAlike(entries, entries)
  {
  }

  lemma ScheduleOrder(c: Conn, id: nat)
    requires InOrder(c) && Schedulable(c, id)
    ensures InOrder(Schedule(c, id)) && InOrder(TrySchedule(c, id))
  {
    hide InOrder, ScheduleLoop, AllAlike, PushBack, Erase;
    LoopOrder(c, id);
    var r := ScheduleLoop(c, id);
    AlikeSelf(r.entries);
    KeptOrder(r, SyncWaiting(r, id));
  }

  // ---------------------------------------------------------------- every event

  /** A new entry is last in its stream's queue. */
  lemma AppendOrder(c: Conn, id: nat, e: Entry)
    requires InOrder(c) && id in c.streams && e.stream == id && e.sent == 0 && Known(c.lastOdd, c.lastEven, id)
    ensures InOrder(Append(c, id, e))
  {
    hide StreamBytes, SentBytes;
    var q := Append(c, id, e);
    forall k | 0 <= k < |q.entries| ensures EntryKnown(q.entries[k], q.lastOdd, q.lastEven) {
      if k < |c.entries| { assert EntryKnown(c.entries[k], c.lastOdd, c.lastEven); }
    }
    forall x | x in q.streams ensures Lined(q.streams[x].pending, x, q.entries) {
      assert Lined(c.streams[x].pending, x, c.entries);
      AppendLined(c.streams[x].pending, x, c.entries, e);
    }
    forall x: nat ensures Staged(q.entries, x) && StreamBytes(q.frames, x) == SentBytes(q.entries, x) {
      assert Staged(c.entries, x);
      SentSnoc(c.entries, e, x);
    }
  }

  lemma AppendLined(p: seq<nat>, x: nat, entries: seq<Entry>, e: Entry)
    requires Lined(p, x, entries) && e.sent == 0
    ensures Lined(if e.stream == x then p + [|entries|] else p, x, entries + [e])
  {
    var b, q := entries + [e], if e.stream == x then p + [|entries|] else p;
    forall i | 0 <= i < |q| ensures q[i] < |b| && b[q[i]].stream == x && (i > 0 ==> b[q[i]].sent == 0) {
      if i < |p| { assert q[i] == p[i] && b[p[i]] == entries[p[i]]; }
    }
    forall i, j | 0 <= i < j < |q| ensures q[i] < q[j] {
      assert q[i] == p[i];
    }
    AppendThrough(p, q, x, entries, e);
  }

  lemma AppendThrough(p: seq<nat>, q: seq<nat>, x: nat, entries: seq<Entry>, e: Entry)
    requires Lined(p, x, entries) && q == if e.stream == x then p + [|entries|] else p
    ensures OthersThrough(q, x, entries + [e])
  {
    var b := entries + [e];
    forall k | 0 <= k < |b| && b[k].stream == x && k !in q ensures Full(b[k]) && (q != [] ==> k < q[0]) {
      if e.stream == x { assert |entries| in q by { assert q[|p|] == |entries|; } }
      assert k < |entries| && b[k] == entries[k];
      assert k !in p by { assert forall i :: 0 <= i < |p| ==> q[i] == p[i]; }
    }
  }

  /** A stream that changes in nothing but state and windows. */
  lemma RestyleOrder(c: Conn, id: nat, s: Stream)
    requires InOrder(c) && id in c.streams && s.pending == c.streams[id].pending
    ensures InOrder(c.(streams := c.streams[id := s]))
  {
    hide InOrder, AllAlike;
    AlikeSelf(c.entries);
    KeptOrder(c, c.(streams := c.streams[id := s]));
  }

  lemma SendOrder(c: Conn, id: nat, kind: PendingKind, body: seq<bv8>, endStream: bool)
    requires InOrder(c) && Schedulable(c, id) && Known(c.lastOdd, c.lastEven, id)
    ensures InOrder(Send(c, id, kind, body, endStream))
  {
    hide InOrder, TrySchedule;
    var s := c.streams[id];
    if MaySend(s.state, kind) {
      var s' := s.(state := AfterSend(s.state, endStream));
      var c' := c.(streams := c.streams[id := s']);
      var e := NewEntry(id, kind, body, endStream);
      RestyleOrder(c, id, s');
      if !s'.state.Closed? {
        AppendOrder(c', id, e);
        assert Schedulable(Append(c', id, e), id);
        ScheduleOrder(Append(c', id, e), id);
      }
    }
  }

  lemma RemoveOrder(c: Conn, id: nat)
    requires InOrder(c)
    ensures InOrder(Remove(c, id))
  {
    hide InOrder, AllAlike, Erase;
    AlikeSelf(c.entries);
    KeptOrder(c, Remove(c, id));
  }

  lemma CreateOrder(c: Conn, id: nat)
    requires InOrder(c) && FreshId(c, id)
    ensures InOrder(Create(c, id))
  {
    hide StreamBytes, SentBytes, Staged;
    var q := Create(c, id);
    forall k | 0 <= k < |q.entries|
      ensures EntryKnown(q.entries[k], q.lastOdd, q.lastEven) && q.entries[k].stream != id
    {
      assert EntryKnown(c.entries[k], c.lastOdd, c.lastEven);
    }
    assert Lined([], id, q.entries);
  }

  lemma AddWindowOrder(c: Conn, id: nat, s: Stream)
    requires InOrder(c) && Schedulable(c, id) && s.pending == c.streams[id].pending
    ensures var q := c.(streams := c.streams[id := s]); Schedulable(q, id) && InOrder(TrySchedule(q, id))
  {
    hide InOrder, TrySchedule;
    RestyleOrder(c, id, s);
    ScheduleOrder(c.(streams := c.streams[id := s]), id);
  }

  lemma {:induction false} DrainOrder(c: Conn, todo: seq<nat>)
    requires InOrder(c) && WellFormed(c) && forall i :: 0 <= i < |todo| ==> todo[i] in c.streams
    ensures InOrder(DrainPass(c, todo))
    decreases |todo|
  {
    hide InOrder, Schedule, WellFormed;
    if todo != [] && c.window > 0 {
      assert Schedulable(c, todo[0]) by { WellFormedSchedulable(c, todo[0]); }
      ScheduleOrder(c, todo[0]);
      ScheduleKeepsWellFormed(c, todo[0]);
      DrainOrder(Schedule(c, todo[0]), todo[1..]);
    }
  }

  lemma WellFormedSchedulable(c: Conn, id: nat)
    requires WellFormed(c) && id in c.streams
    ensures Schedulable(c, id)
  {
  }

  lemma {:induction false} ShiftOrder(c: Conn, order: seq<nat>, delta: int)
    requires InOrder(c) && WellFormed(c) && forall i :: 0 <= i < |order| ==> order[i] in c.streams
    ensures InOrder(ShiftWindows(c, order, delta))
    decreases |order|
  {
    hide InOrder, TrySchedule, WellFormed;
    if order != [] {
      var id := order[0];
      WellFormedSchedulable(c, id);
      var s := c.streams[id];
      var s' := s.(base := s.base + delta, window := s.window + delta);
      AddWindowOrder(c, id, s');
      assert c.streams[id := s.(base := s.base + delta)][id := s'] == c.streams[id := s'];
      ShiftWindowKeepsWellFormed(c, id, delta);
      ShiftOrder(ShiftWindow(c, id, delta), order[1..], delta);
    }
  }

  lemma ConnCreditOrder(c: Conn, n: nat)
    requires InOrder(c) && WellFormed(c)
    ensures InOrder(ConnWindowUpdate(c, n))
  {
    hide InOrder, DrainPass, AllAlike;
    if n != 0 && c.window + n <= MAX_WINDOW {
      var c' := c.(window := c.window + n, granted := c.granted + n);
      AlikeSelf(c.entries);
      KeptOrder(c, c');
      DrainOrder(c', c'.waiting);
    }
  }

  lemma StreamCreditOrder(c: Conn, id: nat, n: nat)
    requires InOrder(c) && Schedulable(c, id)
    ensures InOrder(StreamWindowUpdate(c, id, n))
  {
    hide InOrder, TrySchedule, Remove;
    var s := c.streams[id];
    if n == 0 || s.window + n > MAX_WINDOW {
      RemoveOrder(c, id);
    } else {
      var s' := s.(granted := s.granted + n, window := s.window + n);
      AddWindowOrder(c, id, s');
      assert c.streams[id := s.(granted := s.granted + n)][id := s'] == c.streams[id := s'];
    }
  }

  lemma SettingsOrder(c: Conn, value: nat, order: seq<nat>)
    requires InOrder(c) && WellFormed(c) && forall i :: 0 <= i < |order| ==> order[i] in c.streams
    ensures InOrder(InitialWindowSetting(c, value, order)) && InOrder(MaxFrameSetting(c, value))
  {
    hide InOrder, ShiftWindows, AllAlike;
    AlikeSelf(c.entries);
    KeptOrder(c, MaxFrameSetting(c, value));
    if value != c.peerInitial && AcceptsInitialWindow(c, value) {
      ShiftOrder(c, order, value - c.peerInitial);
      var q := ShiftWindows(c, order, value - c.peerInitial);
      AlikeSelf(q.entries);
      KeptOrder(q, q.(peerInitial := value));
    }
  }

  lemma DoneOrder(c: Conn)
    requires InOrder(c) && WellFormed(c) && c.done < |c.frames| && c.frames[c.done].entry < |c.entries|
    ensures InOrder(SendDone(c))
  {
    hide InOrder, TrySchedule;
    var f, q := c.frames[c.done], Finished(c);
    assert AllAlike(c.entries, q.entries);
    KeptOrder(c, q);
    if f.stream in c.streams {
      assert Schedulable(c, f.stream);
      assert Schedulable(q, f.stream);
      ScheduleOrder(q, f.stream);
    }
  }

  lemma StepOrder(c: Conn, ev: Event)
    requires Inv(c) && InOrder(c)
    ensures WellFormed(c) && FramesNameEntries(c) && InOrder(Step(c, ev))
  {
    hide Inv, InOrder, Create, Send, Receive, ConnWindowUpdate, StreamWindowUpdate, InitialWindowSetting,
         MaxFrameSetting, SendDone, Remove;
    InvIsWellFormed(c);
    match ev
    case EvCreate(id) => if FreshId(c, id) { CreateOrder(c, id); }
    case EvSend(id, kind, body, endStream) =>
      if id in c.streams {
        InvKnows(c, id);
        SendOrder(c, id, kind, body, endStream);
      }
    case EvReceive(id, kind, endStream) => if id in c.streams { ReceiveOrder(c, id, kind, endStream); }
    case EvConnWindowUpdate(n) => ConnCreditOrder(c, n);
    case EvStreamWindowUpdate(id, n) => if id in c.streams { StreamCreditOrder(c, id, n); }
    case EvInitialWindow(value, order) =>
      if Enumerates(order, c.streams.Keys) { SettingsOrder(c, value, order); }
    case EvMaxFrame(value) => SettingsOrder(c, value, []);
    case EvSendDone => if c.done < |c.frames| { DoneOrder(c); }
    case EvRemove(id) => RemoveOrder(c, id);
  }

  lemma InvKnows(c: Conn, id: nat)
    requires Inv(c) && id in c.streams
    ensures Known(c.lastOdd, c.lastEven, id)
  {
  }

  lemma ReceiveOrder(c: Conn, id: nat, kind: PendingKind, endStream: bool)
    requires InOrder(c) && id in c.streams
    ensures InOrder(Receive(c, id, kind, endStream))
  {
    hide InOrder, Remove;
    var s := c.streams[id];
    RemoveOrder(c, id);
    RestyleOrder(c, id, s.(state := AfterReceive(s.state, endStream)));
  }

  lemma {:induction false} RunOrder(c: Conn, evs: seq<Event>)
    requires Inv(c) && InOrder(c)
    ensures InOrder(Run(c, evs))
  {
    hide Inv, InOrder, Step;
    if evs != [] {
      RunOrder(c, evs[..|evs| - 1]);
      StepOrder(Run(c, evs[..|evs| - 1]), evs[|evs| - 1]);
    }
  }

  /**
   After any events, what the frames of a stream carry is the accepted payloads of that stream, in the order they
   were accepted, up to some byte; all of it once every payload has been scheduled.
   */
  lemma BytesGoOutInOrder(window: int, peerInitial: int, maxFrame: nat, evs: seq<Event>, id: nat)
    requires 0 <= window <= MAX_WINDOW && 0 <= peerInitial <= MAX_WINDOW && maxFrame > 0
    ensures Inv(Init(window, peerInitial, maxFrame))
    ensures var c := Run(Init(window, peerInitial, maxFrame), evs);
            && StreamBytes(c.frames, id) <= Bodies(c.entries, id)
            && (id in c.streams && c.streams[id].pending == [] ==> StreamBytes(c.frames, id) == Bodies(c.entries, id))
  {
    hide StreamBytes, SentBytes, Bodies, Inv, EntryKnown, Staged;
    InitInv(window, peerInitial, maxFrame);
    var c0 := Init(window, peerInitial, maxFrame);
    assert InOrder(c0) by { InitOrder(window, peerInitial, maxFrame); }
    RunOrder(c0, evs);
    var c := Run(c0, evs);
    forall k | 0 <= k < |c.entries| ensures c.entries[k].sent <= |c.entries[k].body| {
      KnownPart(c, k);
    }
    SentIsPrefix(c.entries, id);
    if id in c.streams && c.streams[id].pending == [] { assert Lined([], id, c.entries); }
  }

  lemma InitOrder(window: int, peerInitial: int, maxFrame: nat)
    ensures InOrder(Init(window, peerInitial, maxFrame))
  {
  }

  lemma KnownPart(c: Conn, k: nat)
    requires InOrder(c) && k < |c.entries|
    ensures c.entries[k].sent <= |c.entries[k].body|
  {
    assert EntryKnown(c.entries[k], c.lastOdd, c.lastEven);
  }

  // ---------------------------------------------------------------- the wait list

  /** The list without `id`, the others in their order. */
  function Without(list: seq<nat>, id: nat): seq<nat> {
    if list == [] then []
    else Without(list[..|list| - 1], id) + if list[|list| - 1] == id then [] else [list[|list| - 1]]
  }

  lemma {:induction false} WithoutCons(list: seq<nat>, id: nat)
    requires list != []
    ensures Without(list, id) == (if list[0] == id then [] else [list[0]]) + Without(list[1..], id)
  {
    if |list| == 1 {
      assert list[1..] == [] && list[..0] == [];
    } else {
      var init := list[..|list| - 1];
      WithoutCons(init, id);
      assert list[1..][..|list| - 2] == init[1..];
    }
  }

  lemma {:induction false} WithoutNone(list: seq<nat>, id: nat)
    requires id !in list
    ensures Without(list, id) == list
  {
    if list != [] { WithoutNone(list[..|list| - 1], id); }
  }

  lemma {:induction false} EraseIsWithout(list: seq<nat>, id: nat)
    requires Distinct(list)
    ensures Erase(list, id) == Without(list, id)
  {
    if list != [] {
      WithoutCons(list, id);
      DistinctTail(list);
      if list[0] == id { WithoutNone(list[1..], id); } else { EraseIsWithout(list[1..], id); }
    }
  }

  /**
   A stream whose DATA is held up by the connection window alone goes to the end of the wait list, or keeps its place
   in it; any other leaves the list. The others stay in their order.
   */
  lemma WaitsInTurn(c: Conn, id: nat)
    requires Schedulable(c, id) && Distinct(c.waiting)
    ensures var q := Schedule(c, id);
            && id in q.streams && Schedulable(q, id)
            && var s := q.streams[id];
               var held := s.pending != [] && q.entries[s.pending[0]].kind.Data? && s.window > 0 && q.window <= 0;
               q.waiting == if !held then Without(c.waiting, id)
                            else if id in c.waiting then c.waiting
                            else c.waiting + [id]
  {
    hide ScheduleLoop;
    EraseIsWithout(c.waiting, id);
    LoopKeepsList(c, id);
  }

  lemma {:induction false} LoopKeepsList(c: Conn, id: nat)
    requires Schedulable(c, id)
    ensures ScheduleLoop(c, id).waiting == c.waiting
    decreases |c.streams[id].pending|,
              if c.streams[id].pending != [] then |Head(c, id).body| - Head(c, id).sent else 0
  {
    hide FrameFor, MaybeFinish;
    if !LoopStops(c, id) && Head(c, id).sent < |Head(c, id).body| {
      var c' := SendChunk(c, id, ChunkSize(c, id));
      assert c'.streams[id].pending == c.streams[id].pending || c'.streams[id].pending == c.streams[id].pending[1..];
      if Head(c, id).kind.Header? { LoopKeepsList(c', id); }
    }
  }
}
