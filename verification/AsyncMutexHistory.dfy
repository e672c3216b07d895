/**
 What the steps of a run say about the mutex: who holds a guard and since which
 step, what each operation does in every reachable state, and that every waiter
 still gets its turn.
 */
module AsyncMutexHistory {
  import opened Octets
  import opened AsyncMutex

  lemma Extends(acts: seq<Action>, a: Action)
    ensures Known(Run(acts)) && Run(acts + [a]) == Apply(Run(acts), a)
  {
    hide Apply, Inv;
    assert (acts + [a])[..|acts + [a]| - 1] == acts;
    StepKeeps(Run(acts), a);
  }

  // ---------------------------------------------------------------- guards

  /** The step makes a guard: it finds the mutex free, or resumes a waiter that owns it. */
  predicate Takes(s: State, a: Action) {
    match a
    case DoTryLock => !s.locked
    case DoEnqueue(w) => w !in s.waiters && !s.locked
    case DoResume(w) => w in s.waiters && s.waiters[w].stage.Posted? && s.waiters[w].state.Notified?
    case _ => false
  }

  /** The step gives a guard up. */
  predicate Releases(s: State, a: Action) {
    a.DoUnlock? && s.guards > 0
  }

  ghost function Taken(acts: seq<Action>): nat {
    if acts == [] then 0
    else
      var before, a := acts[..|acts| - 1], acts[|acts| - 1];
      Taken(before) + if Takes(Run(before), a) then 1 else 0
  }

  ghost function Released(acts: seq<Action>): nat {
    if acts == [] then 0
    else
      var before, a := acts[..|acts| - 1], acts[|acts| - 1];
      Released(before) + if Releases(Run(before), a) then 1 else 0
  }

  lemma {:induction false} SelectKeepsGuards(s: State)
    requires Known(s)
    ensures SelectNext(s).guards == s.guards
    decreases |s.queue|
  {
    if s.queue != [] && !s.waiters[s.queue[0]].state.Waiting? {
      SelectKeepsGuards(s.(queue := s.queue[1..]));
    }
  }

  lemma GuardStep(s: State, a: Action)
    requires Known(s)
    ensures Apply(s, a).guards ==
            s.guards + (if Takes(s, a) then 1 else 0) - (if Releases(s, a) then 1 else 0)
  {
    hide SelectNext, Unlink;
    if Enabled(s, a) {
      match a
      case DoUnlock => SelectKeepsGuards(s.(guards := s.guards - 1));
      case DoCancel(w) =>
        if s.waiters[w].state.Notified? {
          SelectKeepsGuards(s.(waiters := s.waiters[w := s.waiters[w].(state := Canceled)]));
        }
      case _ =>
    }
  }

  /** A guard is out exactly when one more was taken than given back, and never two. */
  lemma {:induction false} GuardsAreCounted(acts: seq<Action>)
    ensures Run(acts).guards == Taken(acts) - Released(acts)
    ensures 0 <= Taken(acts) - Released(acts) <= 1
    ensures Run(acts).locked <==> Taken(acts) > Released(acts) || NotifiedSet(Run(acts)) != {}
  {
    hide Apply, Inv, Takes, Releases, NotifiedSet;
    OneOwner(acts);
    if acts != [] {
      var before, a := acts[..|acts| - 1], acts[|acts| - 1];
      assert acts == before + [a];
      GuardsAreCounted(before);
      Extends(before, a);
      GuardStep(Run(before), a);
    }
  }

  // ---------------------------------------------------------------- operations

  /** try_lock makes a guard exactly when nobody owns the mutex, and changes nothing else. */
  lemma TryLockTakes(acts: seq<Action>)
    ensures var s, q := Run(acts), Run(acts + [DoTryLock]);
            && (q.guards == s.guards + 1 <==> s.guards == 0 && NotifiedSet(s) == {})
            && (q != s <==> s.guards == 0 && NotifiedSet(s) == {})
            && q.locked && q.queue == s.queue && q.waiters == s.waiters
  {
    hide Inv;
    Extends(acts, DoTryLock);
    OneOwner(acts);
  }

  /** lock takes a free mutex at once, without a wait; otherwise the waiter is last in the queue. */
  lemma LockTakesOrQueues(acts: seq<Action>, w: nat)
    requires w !in Run(acts).waiters
    ensures var s, q := Run(acts), Run(acts + [DoEnqueue(w)]);
            && q.locked && w in q.waiters
            && (forall v :: v in s.waiters ==> v in q.waiters && q.waiters[v] == s.waiters[v])
            && (if s.guards == 0 && NotifiedSet(s) == {}
                then q.guards == 1 && q.queue == [] && q.waiters[w].frees == 1 && q.arrivals == s.arrivals
                else && q.guards == s.guards && q.queue == s.queue + [w] && q.arrivals == s.arrivals + [w]
                     && q.waiters[w].state.Waiting?)
  {
    hide Inv;
    Extends(acts, DoEnqueue(w));
    OneOwner(acts);
  }

  /** A waiter cancelled in the queue leaves it and is freed; ownership and the order of the others stay. */
  lemma CancelLeavesQueue(acts: seq<Action>, w: nat)
    requires w in Run(acts).queue
    ensures var s, q := Run(acts), Run(acts + [DoCancel(w)]);
            && w in s.waiters && w in q.waiters && q.waiters[w].state.Canceled? && q.waiters[w].frees == 1
            && w !in q.queue && q.queue == Without(s.queue, {w}) && w in q.dropped
            && q.guards == s.guards && q.locked == s.locked && q.grants == s.grants
            && (forall v :: v in s.waiters && v != w ==> v in q.waiters && q.waiters[v] == s.waiters[v])
  {
    hide SelectNext, Unlink, Without, Distinct;
    var s := Run(acts);
    assert Inv(s);
    assert IsWaiting(s, w) && WaiterOk(s.waiters[w]);
    Extends(acts, DoCancel(w));
    UnlinkMembers(s.queue, w);
    UnlinkIsWithout(s.queue, w);
  }

  lemma {:induction false} UnlinkIsWithout(queue: seq<nat>, w: nat)
    requires Distinct(queue)
    ensures Unlink(queue, w) == Without(queue, {w})
  {
    if queue != [] {
      if queue[0] == w { NothingLeft(queue[1..], w); } else { UnlinkIsWithout(queue[1..], w); }
    }
  }

  lemma {:induction false} NothingLeft(list: seq<nat>, w: nat)
    requires w !in list
    ensures Without(list, {w}) == list
  {
    if list != [] { NothingLeft(list[1..], w); }
  }

  /** A resumption runs the coroutine with a guard exactly when the waiter still owns the mutex. */
  lemma ResumeRuns(acts: seq<Action>, w: nat)
    requires var s := Run(acts); w in s.waiters && s.waiters[w].stage.Posted?
    ensures var s, q := Run(acts), Run(acts + [DoResume(w)]);
            && w in q.waiters && q.waiters[w].stage.Running? && q.locked == s.locked && q.queue == s.queue
            && (s.waiters[w].state.Notified? || s.waiters[w].state.Canceled?)
            && (if s.waiters[w].state.Notified? then q.guards == 1 && q.waiters[w].resumes == 1 && s.guards == 0
                else q.guards == s.guards && q.waiters[w].resumes == 0)
  {
    var s := Run(acts);
    assert WaiterOk(s.waiters[w]);
    if s.waiters[w].state.Notified? { assert w in NotifiedSet(s); }
    Extends(acts, DoResume(w));
  }

  // ---------------------------------------------------------------- everybody's turn comes

  function Position(queue: seq<nat>, w: nat): nat {
    if queue == [] || queue[0] == w then 0 else 1 + Position(queue[1..], w)
  }

  function StageRank(x: Stage): nat {
    match x
    case Freed => 0
    case Running => 1
    case Posted => 2
    case Chosen => 3
    case Unchosen => 4
  }

  /** How far the owner is from holding a guard. */
  ghost function OwnerRank(s: State): nat {
    if s.guards > 0 then 0
    else if exists v :: v in NotifiedSet(s) && s.waiters[v].stage.Posted? then 1
    else 2
  }

  /** The coroutine has run, or waits for its turn. */
  predicate Due(x: Waiter) {
    x.resumes == 1 || x.state.Waiting? || x.state.Notified?
  }

  /** The step brings the waiter's turn or its end nearer, and does not cancel it. */
  ghost predicate Nearer(s: State, a: Action, w: nat)
    requires Known(s) && w in s.waiters
  {
    var q := Apply(s, a);
    && Enabled(s, a) && !a.DoCancel? && w in q.waiters && Less(q, s, w)
    && (s.waiters[w].state.Canceled? <==> q.waiters[w].state.Canceled?)
    && (Due(s.waiters[w]) ==> Due(q.waiters[w]))
  }

  ghost predicate Less(q: State, s: State, w: nat)
    requires w in s.waiters && w in q.waiters
  {
    var r, t := StageRank(q.waiters[w].stage), StageRank(s.waiters[w].stage);
    || r < t
    || (r == t && Position(q.queue, w) < Position(s.queue, w))
    || (r == t && Position(q.queue, w) == Position(s.queue, w) && OwnerRank(q) < OwnerRank(s))
  }

  /** A waiter that has been chosen needs only its own callbacks. */
  lemma OwnStep(s: State, w: nat) returns (a: Action)
    requires Known(s) && w in s.waiters && WaiterOk(s.waiters[w])
    requires !s.waiters[w].stage.Freed? && !s.waiters[w].stage.Unchosen?
    ensures Nearer(s, a, w)
  {
    hide Position, OwnerRank;
    a := if s.waiters[w].stage.Chosen? then DoPost(w)
         else if s.waiters[w].stage.Posted? then DoResume(w)
         else DoDelete(w);
  }

  /** A guard given up moves the queue. */
  lemma ReleaseStep(s: State, w: nat)
    requires Inv(s) && Known(s) && s.guards > 0 && w in s.queue && w in s.waiters && s.waiters[w].stage.Unchosen?
    ensures Nearer(s, DoUnlock, w)
  {
    hide OwnerRank, Without, Distinct, NotifiedSet;
    QueueHead(s);
    assert WaiterOk(s.waiters[w]);
  }

  /** An owner without a guard is on its way to one. */
  lemma OwnerStep(s: State, w: nat) returns (a: Action)
    requires Inv(s) && Known(s) && s.guards == 0 && w in s.queue && w in s.waiters && s.waiters[w].stage.Unchosen?
    ensures Nearer(s, a, w)
  {
    hide Without, Distinct, QueueOk, OrderOk;
    assert s.locked && |NotifiedSet(s)| == 1;
    var v :| v in NotifiedSet(s);
    assert NotifiedSet(s) == {v} by { OnlyOne(NotifiedSet(s), v); }
    assert WaiterOk(s.waiters[v]) && WaiterOk(s.waiters[w]);
    if s.waiters[v].stage.Posted? {
      a := DoResume(v);
    } else {
      a := DoPost(v);
      var q := Apply(s, a);
      assert v in NotifiedSet(q) && q.waiters[v].stage.Posted?;
    }
  }

  lemma OnlyOne(all: set<nat>, v: nat)
    requires |all| == 1 && v in all
    ensures all == {v}
  {
    assert |all - {v}| == 0;
  }

  lemma NextStep(s: State, w: nat) returns (a: Action)
    requires Inv(s) && Known(s) && w in s.waiters && !s.waiters[w].stage.Freed?
    ensures Nearer(s, a, w)
  {
    hide Nearer, Without, Distinct, OrderOk, OwnerOk;
    assert WaiterOk(s.waiters[w]);
    if !s.waiters[w].stage.Unchosen? {
      a := OwnStep(s, w);
    } else {
      assert IsWaiting(s, w);
      if s.guards > 0 {
        a := DoUnlock;
        ReleaseStep(s, w);
      } else {
        a := OwnerStep(s, w);
      }
    }
  }

  /** The steps that free the waiter: its coroutine has run with a guard unless it was cancelled before. */
  lemma {:induction false} CanFinish(acts: seq<Action>, w: nat) returns (more: seq<Action>)
    requires w in Run(acts).waiters
    ensures var s, q := Run(acts), Run(acts + more);
            && w in q.waiters && q.waiters[w].stage.Freed?
            && (q.waiters[w].state.Canceled? <==> s.waiters[w].state.Canceled?)
            && (Due(s.waiters[w]) ==> q.waiters[w].resumes == 1)
    decreases StageRank(Run(acts).waiters[w].stage), Position(Run(acts).queue, w), OwnerRank(Run(acts))
  {
    hide Apply, Inv, OwnerRank, Position, Enabled, StageRank;
    var s := Run(acts);
    if s.waiters[w].stage.Freed? {
      more := [];
      assert acts + [] == acts;
      WaiterLife(acts, w);
    } else {
      Extends(acts, DoTryLock);
      var a := NextStep(s, w);
      Extends(acts, a);
      var rest := CanFinish(acts + [a], w);
      more := [a] + rest;
      assert acts + more == acts + [a] + rest;
    }
  }
}
