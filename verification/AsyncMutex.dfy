/**
 The asynchronous mutex: ownership is handed directly to the next waiter, which
 is resumed later on its own event loop and may be cancelled at any time before
 that. Each operation under the internal lock is one step, and so is each
 posting, resumption and deletion that follows it.
 */
module AsyncMutex {

  import opened Octets

  datatype WaiterState = Waiting | Notified | Resumed | Canceled

  /** Where the waiter's resume callback is: not chosen yet, chosen, posted to its loop, running, gone. */
  datatype Stage = Unchosen | Chosen | Posted | Running | Freed

  /** One lock() that had to wait; `resumes` and `frees` count what happened to its coroutine and its memory. */
  datatype Waiter = Waiter(state: WaiterState, stage: Stage, resumes: nat, frees: nat)

  /**
   `guards` counts the live lock guards. `arrivals` lists the waiters in the order they queued up,
   `grants` in the order ownership was handed to them, `dropped` those cancelled while still queued.
   */
  datatype State = State(locked: bool, guards: nat, queue: seq<nat>, waiters: map<nat, Waiter>,
                         arrivals: seq<nat>, grants: seq<nat>, dropped: set<nat>)

  function Init(): State {
    State(false, 0, [], map[], [], [], {})
  }

  /** The queue with one waiter unlinked. */
  function Unlink<T(==)>(queue: seq<T>, w: T): seq<T> {
    if queue == [] then []
    else if queue[0] == w then queue[1..]
    else [queue[0]] + Unlink(queue[1..], w)
  }

  // ---------------------------------------------------------------- the steps

  predicate Known(s: State) {
    forall i :: 0 <= i < |s.queue| ==> s.queue[i] in s.waiters
  }

  /** select_next_waiter_locked: hands ownership to the first queued waiter still waiting, or unlocks. */
  function SelectNext(s: State): State
    requires Known(s)
    decreases |s.queue|
  {
    if s.queue == [] then s.(locked := false)
    else
      var w := s.queue[0];
      var rest := s.(queue := s.queue[1..]);
      if s.waiters[w].state.Waiting?
      then rest.(waiters := s.waiters[w := s.waiters[w].(state := Notified, stage := Chosen)], grants := s.grants + [w])
      else SelectNext(rest)
  }

  function TryLock(s: State): State {
    if s.locked then s else s.(locked := true, guards := s.guards + 1)
  }

  /** enqueue_waiter for a new waiter: takes a free mutex at once, otherwise queues up. */
  function Enqueue(s: State, w: nat): State {
    if !s.locked
    then s.(locked := true, guards := s.guards + 1, waiters := s.waiters[w := Waiter(Resumed, Freed, 0, 1)])
    else
      s.(queue := s.queue + [w], waiters := s.waiters[w := Waiter(Waiting, Unchosen, 0, 0)],
         arrivals := s.arrivals + [w])
  }

  function Unlock(s: State): State
    requires Known(s) && s.guards > 0
  {
    SelectNext(s.(guards := s.guards - 1))
  }

  /** post_resume, after the internal lock has been released. */
  function Post(s: State, w: nat): State
    requires w in s.waiters
  {
    s.(waiters := s.waiters[w := s.waiters[w].(stage := Posted)])
  }

  /** Waiter::resume on the waiter's loop: only a waiter that is still Notified runs on. */
  function Resume(s: State, w: nat): State
    requires w in s.waiters
  {
    var x := s.waiters[w];
    if x.state.Notified?
    then s.(guards := s.guards + 1,
            waiters := s.waiters[w := x.(state := Resumed, stage := Running, resumes := x.resumes + 1)])
    else s.(waiters := s.waiters[w := x.(stage := Running)])
  }

  /** The end of Waiter::on_run. */
  function Delete(s: State, w: nat): State
    requires w in s.waiters
  {
    s.(waiters := s.waiters[w := s.waiters[w].(stage := Freed, frees := s.waiters[w].frees + 1)])
  }

  /** cancel_waiter: a queued waiter is unlinked and freed, a notified one passes its ownership on. */
  function Cancel(s: State, w: nat): State
    requires Known(s) && w in s.waiters
  {
    var x := s.waiters[w];
    if x.state.Waiting? then
      s.(queue := Unlink(s.queue, w),
         waiters := s.waiters[w := x.(state := Canceled, stage := Freed, frees := x.frees + 1)],
         dropped := s.dropped + {w})
    else if x.state.Notified? then
      SelectNext(s.(waiters := s.waiters[w := x.(state := Canceled)]))
    else s
  }

  datatype Action =
    | DoTryLock
    | DoEnqueue(w: nat)
    | DoUnlock
    | DoPost(w: nat)
    | DoResume(w: nat)
    | DoDelete(w: nat)
    | DoCancel(w: nat)

  /**
   When a step can happen: a guard unlocks once, a chosen waiter is posted, a posted one runs, and an
   awaiter is destroyed only while its waiter has not been resumed.
   */
  predicate Enabled(s: State, a: Action) {
    match a
    case DoTryLock => true
    case DoEnqueue(w) => w !in s.waiters
    case DoUnlock => s.guards > 0
    case DoPost(w) => w in s.waiters && s.waiters[w].stage.Chosen?
    case DoResume(w) => w in s.waiters && s.waiters[w].stage.Posted?
    case DoDelete(w) => w in s.waiters && s.waiters[w].stage.Running?
    case DoCancel(w) => w in s.waiters && (s.waiters[w].state.Waiting? || s.waiters[w].state.Notified?)
  }

  function Apply(s: State, a: Action): State
    requires Known(s)
  {
    if !Enabled(s, a) then s
    else
      match a
      case DoTryLock => TryLock(s)
      case DoEnqueue(w) => Enqueue(s, w)
      case DoUnlock => Unlock(s)
      case DoPost(w) => Post(s, w)
      case DoResume(w) => Resume(s, w)
      case DoDelete(w) => Delete(s, w)
      case DoCancel(w) =>
        assert forall i :: 0 <= i < |s.queue| ==> s.queue[i] in s.waiters[w := s.waiters[w].(state := Canceled)];
        Cancel(s, w)
  }

  // ---------------------------------------------------------------- the invariant

  ghost function NotifiedSet(s: State): set<nat> {
    set w | w in s.waiters && s.waiters[w].state.Notified?
  }

  /** What may be true of a waiter at each point of its life. */
  predicate WaiterOk(x: Waiter) {
    match x.state
    case Waiting => x == Waiter(Waiting, Unchosen, 0, 0)
    case Notified => (x.stage.Chosen? || x.stage.Posted?) && x.resumes == 0 && x.frees == 0
    case Resumed =>
      (x.stage.Running? && x.resumes == 1 && x.frees == 0) || (x.stage.Freed? && x.resumes <= 1 && x.frees == 1)
    case Canceled => x.resumes == 0 && !x.stage.Unchosen? && x.frees == if x.stage.Freed? then 1 else 0
  }

  predicate IsWaiting(s: State, w: nat) {
    w in s.waiters && s.waiters[w].state.Waiting?
  }

  /** A list with some elements left out. */
  function Without(list: seq<nat>, left: set<nat>): seq<nat> {
    if list == [] then []
    else if list[0] in left then Without(list[1..], left)
    else [list[0]] + Without(list[1..], left)
  }

  /** One owner while locked, a live guard or a notified waiter; none and no queue while unlocked. */
  ghost predicate OwnerOk(s: State) {
    s.guards + |NotifiedSet(s)| == (if s.locked then 1 else 0) && (!s.locked ==> s.queue == [])
  }

  /** The queue holds exactly the waiting. */
  ghost predicate QueueOk(s: State) {
    Distinct(s.queue) && (forall w :: w in s.queue ==> IsWaiting(s, w)) &&
    (forall w :: IsWaiting(s, w) ==> w in s.queue)
  }

  /** Ownership goes, and will go, to the waiters in the order they came, skipping those cancelled in the queue. */
  ghost predicate OrderOk(s: State) {
    Distinct(s.arrivals) && (forall w :: w in s.arrivals ==> w in s.waiters) &&
    s.grants + s.queue == Without(s.arrivals, s.dropped) &&
    (forall w :: w in s.dropped ==> w in s.waiters && !IsWaiting(s, w))
  }

  ghost predicate WaitersOk(s: State) {
    forall w :: w in s.waiters ==> WaiterOk(s.waiters[w])
  }

  ghost predicate Inv(s: State) {
    WaitersOk(s) && OwnerOk(s) && QueueOk(s) && OrderOk(s)
  }

  lemma InvKnown(s: State)
    requires QueueOk(s)
    ensures Known(s)
  {
    forall i | 0 <= i < |s.queue| ensures s.queue[i] in s.waiters { assert s.queue[i] in s.queue; }
  }

  // ---------------------------------------------------------------- lists

  lemma {:induction false} WithoutAppend(list: seq<nat>, left: set<nat>, w: nat)
    requires w !in left
    ensures Without(list + [w], left) == Without(list, left) + [w]
  {
    if list == [] {
      assert [w][1..] == [];
    } else {
      WithoutAppend(list[1..], left, w);
      assert (list + [w])[1..] == list[1..] + [w];
    }
  }

  lemma {:induction false} WithoutAbsent(list: seq<nat>, left: set<nat>, w: nat)
    requires w !in list
    ensures Without(list, left + {w}) == Without(list, left)
  {
    if list != [] { WithoutAbsent(list[1..], left, w); }
  }

  lemma {:induction false} WithoutOneMore(list: seq<nat>, left: set<nat>, w: nat)
    requires Distinct(list) && w !in left
    ensures Without(list, left + {w}) == Unlink(Without(list, left), w)
  {
    if list != [] {
      WithoutOneMore(list[1..], left, w);
      if list[0] == w { WithoutAbsent(list[1..], left, w); }
    }
  }

  lemma {:induction false} WithoutMembers(list: seq<nat>, left: set<nat>)
    requires Distinct(list)
    ensures Distinct(Without(list, left)) && forall x :: x in Without(list, left) <==> x in list && x !in left
  {
    if list != [] {
      WithoutMembers(list[1..], left);
      assert list == [list[0]] + list[1..];
      assert list[0] !in list[1..];
    }
  }

  lemma {:induction false} UnlinkConcat(a: seq<nat>, b: seq<nat>, w: nat)
    requires w !in a
    ensures Unlink(a + b, w) == a + Unlink(b, w)
  {
    if a == [] {
      assert a + b == b;
    } else {
      UnlinkConcat(a[1..], b, w);
      assert (a + b)[1..] == a[1..] + b;
    }
  }

  lemma {:induction false} UnlinkMembers(q: seq<nat>, w: nat)
    requires Distinct(q)
    ensures Distinct(Unlink(q, w)) && forall x :: x in Unlink(q, w) <==> x in q && x != w
  {
    if q != [] {
      assert q == [q[0]] + q[1..];
      assert q[0] !in q[1..];
      if q[0] != w { UnlinkMembers(q[1..], w); }
    }
  }

  // ---------------------------------------------------------------- every step keeps it

  /** Changing a waiter that is not waiting, into one that is not waiting. */
  lemma PutKeeps(s: State, w: nat, x: Waiter)
    requires Inv(s) && w in s.waiters && !s.waiters[w].state.Waiting? && !x.state.Waiting? && WaiterOk(x)
    ensures var q := s.(waiters := s.waiters[w := x]);
            && WaitersOk(q) && QueueOk(q) && OrderOk(q)
            && NotifiedSet(q) == (if x.state.Notified? then NotifiedSet(s) + {w} else NotifiedSet(s) - {w})
  {
    var q := s.(waiters := s.waiters[w := x]);
    assert forall v :: IsWaiting(q, v) <==> IsWaiting(s, v);
  }

  lemma QueueHead(s: State)
    requires Inv(s) && s.queue != []
    ensures s.queue[0] in s.waiters && s.waiters[s.queue[0]].state.Waiting?
  {
    assert s.queue[0] in s.queue;
  }

  /** How many leading waiters a hand-over passes by. */
  function Skipped(states: seq<WaiterState>): (k: nat)
    ensures k <= |states|
  {
    if states == [] || states[0].Waiting? then 0 else 1 + Skipped(states[1..])
  }

  /** The hand-over serves the first waiter still waiting and forgets all before it. */
  lemma {:induction false} SelectSkips(s: State, states: seq<WaiterState>)
    requires Known(s) && |states| == |s.queue|
    requires forall i :: 0 <= i < |states| ==> states[i] == s.waiters[s.queue[i]].state
    ensures var k := Skipped(states); var q := SelectNext(s);
            if k == |s.queue| then q == s.(queue := [], locked := false)
            else var w := s.queue[k];
                 q == s.(queue := s.queue[k + 1..], grants := s.grants + [w],
                         waiters := s.waiters[w := s.waiters[w].(state := Notified, stage := Chosen)])
    decreases |states|
  {
    if states != [] && !states[0].Waiting? {
      SelectSkips(s.(queue := s.queue[1..]), states[1..]);
    }
  }

  /** The first queued waiter made the owner. */
  function Promoted(s: State): State
    requires s.queue != [] && s.queue[0] in s.waiters
  {
    var w := s.queue[0];
    s.(queue := s.queue[1..], grants := s.grants + [w],
       waiters := s.waiters[w := s.waiters[w].(state := Notified, stage := Chosen)])
  }

  lemma ChooseQueue(s: State)
    requires QueueOk(s) && s.queue != []
    ensures s.queue[0] in s.waiters && IsWaiting(s, s.queue[0]) && QueueOk(Promoted(s))
    ensures forall v :: IsWaiting(Promoted(s), v) <==> IsWaiting(s, v) && v != s.queue[0]
  {
    var w := s.queue[0];
    assert w in s.queue;
    var q := Promoted(s);
    assert s.queue == [w] + s.queue[1..];
    assert forall v :: v in q.queue <==> v in s.queue && v != w;
  }

  lemma ChooseOrder(s: State)
    requires OrderOk(s) && QueueOk(s) && s.queue != []
    ensures s.queue[0] in s.waiters && OrderOk(Promoted(s))
  {
    hide Without, QueueOk;
    ChooseQueue(s);
    var q := Promoted(s);
    assert s.queue == [s.queue[0]] + s.queue[1..];
    assert q.grants + q.queue == s.grants + s.queue;
  }

  /** Handing on ownership when nobody holds it: the first waiter gets it, or the mutex is unlocked. */
  lemma SelectKeeps(s: State)
    requires WaitersOk(s) && QueueOk(s) && OrderOk(s) && s.locked && s.guards == 0 && NotifiedSet(s) == {}
    ensures Known(s) && Inv(SelectNext(s))
    ensures SelectNext(s).grants == if s.queue == [] then s.grants else s.grants + [s.queue[0]]
  {
    hide Without, Distinct, QueueOk, OrderOk;
    InvKnown(s);
    if s.queue != [] {
      ChooseQueue(s);
      ChooseOrder(s);
      var q := Promoted(s);
      assert SelectNext(s) == q;
      assert WaiterOk(s.waiters[s.queue[0]]);
      assert NotifiedSet(q) == {s.queue[0]};
    } else {
      UnlockedKeeps(s);
    }
  }

  lemma UnlockedKeeps(s: State)
    requires QueueOk(s) && OrderOk(s) && NotifiedSet(s) == {}
    ensures var q := s.(locked := false); QueueOk(q) && OrderOk(q) && NotifiedSet(q) == {}
  {
    var q := s.(locked := false);
    assert forall v :: IsWaiting(q, v) <==> IsWaiting(s, v);
    assert NotifiedSet(q) == NotifiedSet(s);
  }

  lemma EnqueueKeeps(s: State, w: nat)
    requires Inv(s) && w !in s.waiters
    ensures Inv(Enqueue(s, w))
  {
    hide Without;
    var q := Enqueue(s, w);
    assert NotifiedSet(q) == NotifiedSet(s);
    if s.locked {
      assert w !in s.arrivals && w !in s.queue;
      DroppedKnown(s, w);
      WithoutAppend(s.arrivals, s.dropped, w);
      assert q.grants + q.queue == s.grants + s.queue + [w];
      assert forall v :: IsWaiting(q, v) <==> v == w || IsWaiting(s, v);
    } else {
      assert forall v :: IsWaiting(q, v) <==> IsWaiting(s, v);
    }
  }

  /** A waiter that never existed has not been dropped. */
  lemma DroppedKnown(s: State, w: nat)
    requires Inv(s) && w !in s.waiters
    ensures w !in s.dropped
  {
  }

  lemma UnlockKeeps(s: State)
    requires Inv(s) && s.guards > 0
    ensures Known(s) && Inv(Unlock(s))
  {
    InvKnown(s);
    var c := s.(guards := s.guards - 1);
    assert NotifiedSet(c) == NotifiedSet(s);
    assert forall v :: IsWaiting(c, v) <==> IsWaiting(s, v);
    SelectKeeps(c);
  }

  lemma ResumeKeeps(s: State, w: nat)
    requires Inv(s) && w in s.waiters && s.waiters[w].stage.Posted?
    ensures Inv(Resume(s, w))
  {
    var x := s.waiters[w];
    var q := Resume(s, w);
    assert WaiterOk(x);
    PutKeeps(s, w, q.waiters[w]);
    var c := s.(waiters := q.waiters);
    assert NotifiedSet(q) == NotifiedSet(c);
    assert forall v :: IsWaiting(q, v) <==> IsWaiting(c, v);
    if x.state.Notified? { assert w in NotifiedSet(s); } else { assert NotifiedSet(c) == NotifiedSet(s); }
  }

  lemma CancelNotified(s: State, w: nat)
    requires Inv(s) && w in s.waiters && s.waiters[w].state.Notified?
    ensures Known(s) && Inv(Cancel(s, w))
    ensures Cancel(s, w).grants == if s.queue == [] then s.grants else s.grants + [s.queue[0]]
  {
    InvKnown(s);
    var x := s.waiters[w].(state := Canceled);
    assert WaiterOk(s.waiters[w]);
    PutKeeps(s, w, x);
    assert w in NotifiedSet(s);
    var c := s.(waiters := s.waiters[w := x]);
    assert NotifiedSet(s) - {w} == {} by { assert |NotifiedSet(s) - {w}| == 0; }
    SelectKeeps(c);
  }

  lemma CancelWaitingOrder(s: State, w: nat)
    requires Distinct(s.arrivals) && s.grants + s.queue == Without(s.arrivals, s.dropped)
    requires w in s.queue && w !in s.dropped
    ensures s.grants + Unlink(s.queue, w) == Without(s.arrivals, s.dropped + {w})
  {
    WithoutMembers(s.arrivals, s.dropped);
    NotTwice(s.grants, s.queue, w);
    WithoutOneMore(s.arrivals, s.dropped, w);
    UnlinkConcat(s.grants, s.queue, w);
  }

  lemma CancelWaiting(s: State, w: nat)
    requires Inv(s) && w in s.waiters && s.waiters[w].state.Waiting?
    ensures Known(s) && Inv(Cancel(s, w))
  {
    hide Without, Unlink, SelectNext, Distinct;
    InvKnown(s);
    var q := Cancel(s, w);
    assert WaiterOk(s.waiters[w]);
    assert IsWaiting(s, w) && w in s.queue && w !in s.dropped;
    UnlinkMembers(s.queue, w);
    CancelWaitingOrder(s, w);
    assert NotifiedSet(q) == NotifiedSet(s);
    assert forall v :: IsWaiting(q, v) <==> IsWaiting(s, v) && v != w;
  }

  lemma NotTwice(a: seq<nat>, b: seq<nat>, w: nat)
    requires Distinct(a + b) && w in b
    ensures w !in a
  {
    var j :| 0 <= j < |b| && b[j] == w;
    assert (a + b)[|a| + j] == w;
    forall i | 0 <= i < |a| ensures a[i] != w { assert (a + b)[i] == a[i]; }
  }

  lemma StepKeeps(s: State, a: Action)
    requires Inv(s)
    ensures Known(s) && Inv(Apply(s, a))
  {
    hide Inv, SelectNext;
    InvQueue(s);
    if Enabled(s, a) {
      match a
      case DoTryLock => TryLockKeeps(s);
      case DoEnqueue(w) => EnqueueKeeps(s, w);
      case DoUnlock => UnlockKeeps(s);
      case DoPost(w) => StageKeeps(s, w, s.waiters[w].(stage := Posted));
      case DoResume(w) => ResumeKeeps(s, w);
      case DoDelete(w) =>
        StageKeeps(s, w, s.waiters[w].(stage := Freed, frees := s.waiters[w].frees + 1));
      case DoCancel(w) => if s.waiters[w].state.Waiting? { CancelWaiting(s, w); } else { CancelNotified(s, w); }
    }
  }

  lemma InvQueue(s: State)
    requires Inv(s)
    ensures Known(s)
  {
    InvKnown(s);
  }

  lemma TryLockKeeps(s: State)
    requires Inv(s)
    ensures Inv(TryLock(s))
  {
    var q := TryLock(s);
    assert NotifiedSet(q) == NotifiedSet(s);
    assert forall v :: IsWaiting(q, v) <==> IsWaiting(s, v);
  }

  /** Moving a chosen waiter's callback along does not touch ownership. */
  lemma StageKeeps(s: State, w: nat, x: Waiter)
    requires Inv(s) && w in s.waiters && x.state == s.waiters[w].state
    requires (s.waiters[w].stage.Chosen? && x == s.waiters[w].(stage := Posted)) ||
             (s.waiters[w].stage.Running? && x == s.waiters[w].(stage := Freed, frees := s.waiters[w].frees + 1))
    ensures Inv(s.(waiters := s.waiters[w := x]))
  {
    assert WaiterOk(s.waiters[w]);
    PutKeeps(s, w, x);
    var q := s.(waiters := s.waiters[w := x]);
    assert NotifiedSet(q) == NotifiedSet(s);
  }

  // ---------------------------------------------------------------- whole runs

  function Run(acts: seq<Action>): (s: State)
    ensures Inv(s)
  {
    if acts == [] then Init()
    else
      var before := Run(acts[..|acts| - 1]);
      StepKeeps(before, acts[|acts| - 1]);
      Apply(before, acts[|acts| - 1])
  }

  /** Mutual exclusion: locked means exactly one owner, unlocked means none and an empty queue. */
  lemma OneOwner(acts: seq<Action>)
    ensures var s := Run(acts);
            && (s.locked <==> s.guards + |NotifiedSet(s)| == 1)
            && (!s.locked <==> s.guards == 0 && NotifiedSet(s) == {})
            && (!s.locked ==> s.queue == [])
            && (forall w :: w in s.queue ==> w in s.waiters && s.waiters[w].state.Waiting?)
  {
    var s := Run(acts);
    assert |NotifiedSet(s)| == 0 <==> NotifiedSet(s) == {};
  }

  /** Ownership has gone, and goes next, in order of arrival over the waiters not cancelled in the queue. */
  lemma FirstComeFirstServed(acts: seq<Action>)
    ensures var s := Run(acts); s.grants + s.queue == Without(s.arrivals, s.dropped)
  {
    hide Without, NotifiedSet;
    assert Inv(Run(acts));
  }

  /** A waiter is resumed at most once, freed at most once and never resumed after it was cancelled or freed. */
  lemma WaiterLife(acts: seq<Action>, w: nat)
    ensures var s := Run(acts);
            w in s.waiters ==>
              var x := s.waiters[w];
              && x.resumes <= 1 && x.frees <= 1 && (x.frees == 1 <==> x.stage.Freed?)
              && (x.state.Canceled? ==> x.resumes == 0)
              && (x.stage.Freed? ==> !x.state.Waiting? && !x.state.Notified? && w !in s.queue)
              && (!x.stage.Freed? ==> x.state.Waiting? || x.stage.Chosen? || x.stage.Posted? || x.stage.Running?)
  {
    var s := Run(acts);
    if w in s.waiters { assert WaiterOk(s.waiters[w]); }
  }

  /** Once freed, a waiter never changes again: no step resumes or frees it a second time. */
  lemma FreedIsFinal(acts: seq<Action>, a: Action, w: nat)
    requires var s := Run(acts); w in s.waiters && s.waiters[w].stage.Freed?
    ensures var s := Run(acts); var q := Run(acts + [a]); w in q.waiters && q.waiters[w] == s.waiters[w]
  {
    hide Without, Unlink, Distinct, NotifiedSet;
    var s := Run(acts);
    assert (acts + [a])[..|acts + [a]| - 1] == acts;
    assert WaiterOk(s.waiters[w]);
    InvKnown(s);
    if Enabled(s, a) {
      match a
      case DoUnlock =>
        if s.queue != [] { QueueHead(s); }
      case DoCancel(v) =>
        if s.queue != [] { QueueHead(s); }
      case _ =>
    }
  }

  /** Who owns the mutex next: the longest-queued waiter, or nobody when none is queued. */
  predicate Passes(s: State, q: State) {
    if s.queue == [] then q.grants == s.grants && !q.locked
    else && q.grants == s.grants + [s.queue[0]] && q.queue == s.queue[1..] && q.locked
         && s.queue[0] in q.waiters && q.waiters[s.queue[0]].state.Notified?
  }

  lemma SelectPasses(s: State)
    requires Known(s) && s.locked && (s.queue != [] ==> s.waiters[s.queue[0]].state.Waiting?)
    ensures Passes(s, SelectNext(s))
  {
  }

  /** Releasing the mutex, or cancelling a waiter that owns it, serves the longest-queued waiter. */
  lemma HandOff(acts: seq<Action>, w: nat)
    ensures var s := Run(acts);
            && Known(s)
            && (s.guards > 0 ==> Passes(s, Unlock(s)))
            && (w in s.waiters && s.waiters[w].state.Notified? ==> Passes(s, Cancel(s, w)))
  {
    var s := Run(acts);
    InvKnown(s);
    if s.queue != [] { QueueHead(s); }
    if s.guards > 0 {
      var c := s.(guards := s.guards - 1);
      SelectPasses(c);
    }
    if w in s.waiters && s.waiters[w].state.Notified? { CancelNotified(s, w); }
  }
}
