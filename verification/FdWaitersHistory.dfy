/**
 What a run's steps say about its waiters: why a coroutine was resumed, what
 happened to a waiter and to the descriptor, and that every waiter can still be
 brought to its end.
 */
module FdWaitersHistory {
  import opened FdWaiters

  lemma Extends(acts: seq<Action>, a: Action)
    ensures Run(acts + [a]) == Apply(Run(acts), a)
  {
    hide Apply;
    assert (acts + [a])[..|acts + [a]| - 1] == acts;
  }

  // ---------------------------------------------------------------- beginning to wait

  /** begin_wait on an open descriptor with nobody in the slot: the waiter gets the slot of its event. */
  lemma BeginTakesSlot(acts: seq<Action>, w: nat)
    requires var s := Run(acts); s.pc == Starting(w) && s.valid && SlotOf(s, s.waiters[w].read).Empty?
    ensures var s, t := Run(acts), Run(acts + [BeginWait(true)]); var read := s.waiters[w].read;
            && SlotOf(t, read) == Cross(w) && SlotOf(t, !read) == SlotOf(s, !read)
            && t.pc.Idle? && t.waiters == s.waiters && t.valid
  {
    Extends(acts, BeginWait(true));
  }

  /** A refusal goes to the waiter, and the slots stay as they are. */
  lemma BeginFails(acts: seq<Action>, w: nat, ok: bool)
    requires var s := Run(acts);
             s.pc == Starting(w) && (!s.valid || !SlotOf(s, s.waiters[w].read).Empty? || !ok)
    ensures Run(acts + [BeginWait(ok)]) == Run(acts).(pc := Resuming(w))
  {
    Extends(acts, BeginWait(ok));
  }

  // ---------------------------------------------------------------- why a waiter is resumed

  /** The step takes the waiter from its slot, or is a begin_wait of it that fails. */
  predicate Chooses(s: State, a: Action, w: nat) {
    match a
    case TakeSlot(read) => s.pc.Idle? && SlotOf(s, read) == Cross(w)
    case BeginWait(ok) =>
      && s.pc == Starting(w) && w in s.waiters
      && (!s.valid || !SlotOf(s, s.waiters[w].read).Empty? || !ok)
    case _ => false
  }

  /** Some step of the run chose the waiter. */
  ghost predicate Chosen(acts: seq<Action>, w: nat) {
    exists i :: 0 <= i < |acts| && Chooses(Run(acts[..i]), acts[i], w)
  }

  lemma ChosenBy(acts: seq<Action>, a: Action, w: nat)
    ensures Chosen(acts + [a], w) <==> Chosen(acts, w) || Chooses(Run(acts), a, w)
  {
    hide Run, Chooses;
    var all := acts + [a];
    assert all[..|acts|] == acts && all[|acts|] == a;
    forall i | 0 <= i < |acts| ensures all[..i] == acts[..i] && all[i] == acts[i] {}
    if Chosen(all, w) {
      var i :| 0 <= i < |all| && Chooses(Run(all[..i]), all[i], w);
      assert i < |acts| ==> Chooses(Run(acts[..i]), acts[i], w);
    }
    if Chosen(acts, w) {
      var i :| 0 <= i < |acts| && Chooses(Run(acts[..i]), acts[i], w);
      assert Chooses(Run(all[..i]), all[i], w);
    }
    if Chooses(Run(acts), a, w) { assert Chooses(Run(all[..|acts|]), all[|acts|], w); }
  }

  /** Not chosen yet: on its way to begin_wait, or in its slot. */
  predicate Unchosen(s: State, w: nat)
    requires w in s.waiters
  {
    s.waiters[w].watchQueued || s.pc == Starting(w) || SlotOf(s, s.waiters[w].read) == Cross(w)
  }

  /** What a step has to know of one waiter. */
  predicate Known(s: State, w: nat) {
    && w in s.waiters && WaiterOk(s, w, s.waiters[w]) && SlotOk(s, true) && SlotOk(s, false)
  }

  /** A waiter not cancelled stays unchosen until a step chooses it. */
  predicate KeepsChoice(s: State, a: Action, w: nat)
    requires w in s.waiters && w in Apply(s, a).waiters
  {
    !Apply(s, a).waiters[w].cancelled ==>
      !s.waiters[w].cancelled && (Unchosen(Apply(s, a), w) <==> Unchosen(s, w) && !Chooses(s, a, w))
  }

  lemma LoopStep(s: State, a: Action, w: nat)
    requires Known(s, w) && (a.RunWatch? || a.BeginWait? || a.TakeSlot?)
    ensures w in Apply(s, a).waiters && KeepsChoice(s, a, w)
  {
  }

  lemma ResumeStep(s: State, a: Action, w: nat)
    requires Known(s, w) && (a.ResumeTransition? || a.PostResume? || a.RunResume?)
    ensures w in Apply(s, a).waiters && KeepsChoice(s, a, w)
  {
  }

  lemma CancelRunStep(s: State, a: Action, w: nat)
    requires Known(s, w) && a.RunCancel?
    ensures w in Apply(s, a).waiters && KeepsChoice(s, a, w)
  {
  }

  lemma CancelStep(s: State, a: Action, w: nat)
    requires Known(s, w) && (a.Cancel? || a.PostCancel?)
    ensures w in Apply(s, a).waiters && KeepsChoice(s, a, w)
  {
  }

  lemma OtherStep(s: State, a: Action, w: nat)
    requires Known(s, w) && (a.Suspend? || a.LocalBegin? || a.LocalEnd? || a.CloseFd?)
    ensures w in Apply(s, a).waiters && KeepsChoice(s, a, w)
  {
  }

  lemma ChosenStep(s: State, a: Action, w: nat)
    requires Inv(s) && w in s.waiters
    ensures w in Apply(s, a).waiters && KeepsChoice(s, a, w)
  {
    hide Apply, KeepsChoice, WaiterOk, SlotOk;
    assert Known(s, w);
    if a.RunWatch? || a.BeginWait? || a.TakeSlot? {
      LoopStep(s, a, w);
    } else if a.ResumeTransition? || a.PostResume? || a.RunResume? {
      ResumeStep(s, a, w);
    } else if a.Cancel? || a.PostCancel? {
      CancelStep(s, a, w);
    } else if a.RunCancel? {
      CancelRunStep(s, a, w);
    } else {
      OtherStep(s, a, w);
    }
  }

  lemma NewIsUnchosen(s: State, a: Action, w: nat)
    requires Inv(s) && w !in s.waiters
    ensures !Chooses(s, a, w) && (w in Apply(s, a).waiters ==> Unchosen(Apply(s, a), w))
  {
    assert SlotOk(s, true) && SlotOk(s, false);
  }

  lemma {:induction false} ChosenExactly(acts: seq<Action>, w: nat)
    ensures w !in Run(acts).waiters ==> !Chosen(acts, w)
    ensures w in Run(acts).waiters && !Run(acts).waiters[w].cancelled ==>
              (Chosen(acts, w) <==> !Unchosen(Run(acts), w))
  {
    hide Inv, Apply, Chosen, Chooses, Unchosen;
    if acts == [] {
      assert !Chosen(acts, w) by { NothingChosen(w); }
    } else {
      var before, a := acts[..|acts| - 1], acts[|acts| - 1];
      ChosenExactly(before, w);
      assert acts == before + [a];
      ChosenBy(before, a, w);
      if w !in Run(before).waiters {
        NewIsUnchosen(Run(before), a, w);
      } else {
        ChosenStep(Run(before), a, w);
      }
    }
  }

  lemma NothingChosen(w: nat)
    ensures !Chosen([], w)
  {
  }

  /**
   A coroutine is resumed only after its waiter was taken from its slot or its begin_wait failed, and never after it
   was cancelled. Once the queues are empty and the loop is idle, a waiter not cancelled has been resumed exactly when
   that has happened; until then it is in its slot.
   */
  lemma ResumedExactlyWhen(acts: seq<Action>, w: nat)
    requires w in Run(acts).waiters
    ensures Run(acts).waiters[w].resumes == 1 ==> Chosen(acts, w) && !Run(acts).waiters[w].cancelled
    ensures var s := Run(acts); var x := s.waiters[w];
            Settled(s, w) && !x.cancelled ==>
              && (x.resumes == 1 <==> Chosen(acts, w)) && (x.frees == 1 <==> Chosen(acts, w))
              && (SlotOf(s, x.read) == Cross(w) <==> !Chosen(acts, w))
  {
    hide Chosen, Run;
    var s := Run(acts);
    ChosenExactly(acts, w);
    assert WaiterOk(s, w, s.waiters[w]);
  }

  /** Nothing about the waiter is in a queue or under way. */
  predicate Settled(s: State, w: nat)
    requires w in s.waiters
  {
    var x := s.waiters[w];
    s.pc.Idle? && !x.watchQueued && x.entry.NoEntry? && !x.posting
  }

  // ---------------------------------------------------------------- what has happened

  /** The step took place somewhere in the run. */
  ghost predicate Occurred(acts: seq<Action>, a: Action) {
    exists i: nat :: OccursAt(acts, i, a)
  }

  ghost predicate OccursAt(acts: seq<Action>, i: nat, a: Action) {
    i < |acts| && acts[i] == a && Enabled(Run(acts[..i]), a)
  }

  lemma OccursSame(acts: seq<Action>, last: Action, i: nat, a: Action)
    ensures i < |acts| ==> (OccursAt(acts + [last], i, a) <==> OccursAt(acts, i, a))
    ensures OccursAt(acts + [last], |acts|, a) <==> last == a && Enabled(Run(acts), a)
  {
    hide Run, Enabled;
    var all := acts + [last];
    assert all[..|acts|] == acts && all[|acts|] == last;
    if i < |acts| { assert all[..i] == acts[..i] && all[i] == acts[i]; }
  }

  lemma OccurredBy(acts: seq<Action>, last: Action, a: Action)
    ensures Occurred(acts + [last], a) <==> Occurred(acts, a) || (last == a && Enabled(Run(acts), a))
  {
    hide Run, Enabled, OccursAt;
    var all := acts + [last];
    OccursSame(acts, last, 0, a);
    if Occurred(all, a) {
      var i: nat :| OccursAt(all, i, a);
      assert i < |acts| + 1 by { OccursWithin(all, i, a); }
      OccursSame(acts, last, i, a);
    }
    if Occurred(acts, a) {
      var i: nat :| OccursAt(acts, i, a);
      OccursWithin(acts, i, a);
      OccursSame(acts, last, i, a);
    }
  }

  lemma OccursWithin(acts: seq<Action>, i: nat, a: Action)
    requires OccursAt(acts, i, a)
    ensures i < |acts|
  {
  }

  /** A waiter is made by a suspension, and its marks say what has happened to it since. */
  ghost predicate Recorded(acts: seq<Action>, w: nat) {
    var s := Run(acts);
    && (w in s.waiters <==> Occurred(acts, Suspend(w, true)) || Occurred(acts, Suspend(w, false)))
    && (w !in s.waiters ==> !Occurred(acts, RunWatch(w)) && !Occurred(acts, Cancel(w)) && !Occurred(acts, RunResume(w)))
    && (w in s.waiters ==> Marked(acts, s.waiters[w], w))
  }

  ghost predicate Marked(acts: seq<Action>, x: Waiter, w: nat) {
    && (forall read :: Occurred(acts, Suspend(w, read)) <==> read == x.read)
    && (x.watchQueued <==> !Occurred(acts, RunWatch(w)))
    && (x.cancelled <==> Occurred(acts, Cancel(w)))
    && (x.resumes == 1 <==> Occurred(acts, RunResume(w)) && !x.cancelled)
    && (x.awaiting <==> !x.cancelled && x.resumes == 0)
  }

  /** What one step does to the marks of a waiter. */
  predicate MarksFollow(s: State, a: Action, w: nat)
    requires w in s.waiters && w in Apply(s, a).waiters
  {
    var x, y, now := s.waiters[w], Apply(s, a).waiters[w], Enabled(s, a);
    && y.read == x.read && !(now && a.Suspend? && a.w == w)
    && (y.watchQueued <==> x.watchQueued && !(a == RunWatch(w) && now))
    && (y.cancelled <==> x.cancelled || (a == Cancel(w) && now))
    && (y.resumes == 1 <==> x.resumes == 1 || (a == RunResume(w) && now && !x.cancelled))
  }

  lemma QueueMarks(s: State, a: Action, w: nat)
    requires Known(s, w) && (a.RunWatch? || a.RunResume? || a.RunCancel?)
    ensures w in Apply(s, a).waiters && MarksFollow(s, a, w)
  {
  }

  lemma CancelMarks(s: State, a: Action, w: nat)
    requires Known(s, w) && (a.Cancel? || a.PostCancel?)
    ensures w in Apply(s, a).waiters && MarksFollow(s, a, w)
  {
  }

  lemma LoopMarks(s: State, a: Action, w: nat)
    requires Known(s, w) && (a.BeginWait? || a.TakeSlot? || a.ResumeTransition? || a.PostResume?)
    ensures w in Apply(s, a).waiters && MarksFollow(s, a, w)
  {
  }

  lemma OtherMarks(s: State, a: Action, w: nat)
    requires Known(s, w) && (a.Suspend? || a.LocalBegin? || a.LocalEnd? || a.CloseFd?)
    ensures w in Apply(s, a).waiters && MarksFollow(s, a, w)
  {
  }

  /** One step, for a waiter that is there. */
  lemma MarkStep(s: State, a: Action, w: nat)
    requires Known(s, w)
    ensures w in Apply(s, a).waiters && MarksFollow(s, a, w)
  {
    hide Apply, MarksFollow, Known;
    if a.RunWatch? || a.RunResume? || a.RunCancel? {
      QueueMarks(s, a, w);
    } else if a.Cancel? || a.PostCancel? {
      CancelMarks(s, a, w);
    } else if a.BeginWait? || a.TakeSlot? || a.ResumeTransition? || a.PostResume? {
      LoopMarks(s, a, w);
    } else {
      OtherMarks(s, a, w);
    }
  }

  /** One step, for a waiter that is not. */
  lemma NewStep(s: State, a: Action, w: nat)
    requires w !in s.waiters
    ensures w in Apply(s, a).waiters <==> a.Suspend? && a.w == w
    ensures a.Suspend? && a.w == w ==> Enabled(s, a) && Apply(s, a).waiters[w] == NewWaiter(a.read)
    ensures !Enabled(s, RunWatch(w)) && !Enabled(s, Cancel(w)) && !Enabled(s, RunResume(w))
  {
  }

  lemma Awaits(acts: seq<Action>, w: nat)
    requires w in Run(acts).waiters
    ensures var x := Run(acts).waiters[w];
            (x.awaiting <==> !x.cancelled && x.resumes == 0) && (x.resumes == 1 ==> !x.cancelled)
  {
    var s := Run(acts);
    assert WaiterOk(s, w, s.waiters[w]);
  }

  lemma OccurrencesBy(acts: seq<Action>, last: Action, w: nat)
    ensures forall a :: a in {Suspend(w, true), Suspend(w, false), RunWatch(w), Cancel(w), RunResume(w)} ==>
              (Occurred(acts + [last], a) <==> Occurred(acts, a) || (last == a && Enabled(Run(acts), a)))
  {
    hide Occurred, Run, Enabled;
    OccurredBy(acts, last, Suspend(w, true));
    OccurredBy(acts, last, Suspend(w, false));
    OccurredBy(acts, last, RunWatch(w));
    OccurredBy(acts, last, Cancel(w));
    OccurredBy(acts, last, RunResume(w));
  }

  lemma {:induction false} RecordsAreTrue(acts: seq<Action>, w: nat)
    ensures Recorded(acts, w)
  {
    hide Inv, Apply, Occurred, Enabled, WaiterOk, SlotOk;
    if acts != [] {
      var before, a := acts[..|acts| - 1], acts[|acts| - 1];
      var s := Run(before);
      RecordsAreTrue(before, w);
      assert acts == before + [a];
      OccurrencesBy(before, a, w);
      if w in s.waiters {
        assert Known(s, w) by { KnownIn(s, w); }
        MarkStep(s, a, w);
      } else {
        NewStep(s, a, w);
      }
      if w in Run(acts).waiters { Awaits(acts, w); }
    } else {
      assert forall a :: !Occurred([], a) by { NothingOccurred(); }
    }
  }

  lemma KnownIn(s: State, w: nat)
    requires Inv(s) && w in s.waiters
    ensures Known(s, w)
  {
  }

  lemma NothingOccurred()
    ensures forall a :: !Occurred([], a)
  {
  }

  /** A local coroutine waits for the event: it began, and has neither ended its wait nor been taken. */
  ghost predicate LocalWaits(acts: seq<Action>, read: bool) {
    acts != [] &&
    var before, a := acts[..|acts| - 1], acts[|acts| - 1];
    if a == LocalBegin(read) && Enabled(Run(before), a) then true
    else if (a == LocalEnd(read) || a == TakeSlot(read)) && Enabled(Run(before), a) then false
    else LocalWaits(before, read)
  }

  /** The descriptor is open until it is closed, and a slot holds a local waiter exactly while one waits. */
  lemma {:induction false} DescriptorFollows(acts: seq<Action>, read: bool)
    ensures Run(acts).valid <==> !Occurred(acts, CloseFd)
    ensures SlotOf(Run(acts), read).Local? <==> LocalWaits(acts, read)
  {
    hide Inv, Apply, Occurred, Enabled;
    if acts != [] {
      var before, a := acts[..|acts| - 1], acts[|acts| - 1];
      DescriptorFollows(before, read);
      assert acts == before + [a];
      OccurredBy(before, a, CloseFd);
      DescriptorStep(Run(before), a, read);
    } else {
      NothingOccurred();
    }
  }

  lemma DescriptorStep(s: State, a: Action, read: bool)
    ensures Apply(s, a).valid <==> s.valid && !(a == CloseFd && Enabled(s, a))
    ensures SlotOf(Apply(s, a), read).Local? <==>
              if a == LocalBegin(read) && Enabled(s, a) then true
              else if (a == LocalEnd(read) || a == TakeSlot(read)) && Enabled(s, a) then false
              else SlotOf(s, read).Local?
  {
  }

  // ---------------------------------------------------------------- every waiter can be brought to its end

  /** How far the loop is from idle. */
  function LoopSteps(pc: LoopPc): nat {
    match pc
    case Idle => 0
    case Posting(_) => 1
    case Resuming(_) => 2
    case Starting(_) => 3
  }

  /** How far the waiter is from its deletion. */
  function Stages(s: State, w: nat): nat
    requires w in s.waiters
  {
    var x := s.waiters[w];
    if x.frees > 0 then 0
    else if !x.entry.NoEntry? then 1
    else if x.posting then 2
    else if s.pc == Posting(w) then 3
    else if s.pc == Resuming(w) then 4
    else if SlotOf(s, x.read) == Cross(w) then 5
    else if s.pc == Starting(w) then 6
    else 7
  }

  /** The next step of the callback the loop is in the middle of. */
  function LoopNext(pc: LoopPc): Action {
    match pc
    case Starting(_) => BeginWait(true)
    case Resuming(_) => ResumeTransition
    case _ => PostResume
  }

  /** A step that brings the waiter nearer to its end: an event, or a callback already in a queue. */
  function NextFor(s: State, w: nat): Action
    requires w in s.waiters
  {
    var x := s.waiters[w];
    if x.posting then PostCancel(w)
    else if x.entry.OnOwnLoop? then RunResume(w)
    else if !s.pc.Idle? then LoopNext(s.pc)
    else if x.entry.OnFdLoop? then RunCancel(w)
    else if SlotOf(s, x.read) == Cross(w) then TakeSlot(x.read)
    else RunWatch(w)
  }

  /** The step is possible and leaves less to do. */
  predicate Nearer(s: State, a: Action, w: nat)
    requires w in s.waiters
  {
    var t := Apply(s, a);
    && Enabled(s, a) && !a.Cancel? && w in t.waiters && t.waiters[w].cancelled == s.waiters[w].cancelled
    && (Stages(t, w) < Stages(s, w) || (Stages(t, w) == Stages(s, w) && LoopSteps(t.pc) < LoopSteps(s.pc)))
  }

  lemma QueueStep(s: State, w: nat)
    requires Known(s, w) && s.waiters[w].frees == 0 && (s.pc.Idle? || NextFor(s, w) != LoopNext(s.pc))
    ensures Nearer(s, NextFor(s, w), w)
  {
  }

  lemma LoopStepNearer(s: State, w: nat)
    requires Known(s, w) && s.waiters[w].frees == 0 && !s.pc.Idle? && s.pc.w in s.waiters
    requires NextFor(s, w) == LoopNext(s.pc)
    ensures Nearer(s, LoopNext(s.pc), w)
  {
  }

  /** From every reachable state the waiter can be freed, its coroutine resumed unless it was cancelled. */
  lemma {:induction false} CanFinish(acts: seq<Action>, w: nat) returns (more: seq<Action>)
    requires w in Run(acts).waiters
    ensures var s := Run(acts + more);
            && w in s.waiters && s.waiters[w].frees == 1
            && s.waiters[w].cancelled == Run(acts).waiters[w].cancelled
            && s.waiters[w].resumes == if s.waiters[w].cancelled then 0 else 1
    decreases Stages(Run(acts), w), LoopSteps(Run(acts).pc)
  {
    hide Apply, NextFor, Enabled, WaiterOk, SlotOk, Inv;
    var s := Run(acts);
    WaiterLife(acts, w);
    if s.waiters[w].frees == 1 {
      more := [];
      assert acts + [] == acts;
    } else {
      assert Known(s, w) && (s.pc.Idle? || s.pc.w in s.waiters) by { KnownIn(s, w); LoopKnown(s); }
      var a := NextFor(s, w);
      if s.pc.Idle? || a != LoopNext(s.pc) { QueueStep(s, w); } else { LoopStepNearer(s, w); }
      Extends(acts, a);
      var rest := CanFinish(acts + [a], w);
      more := [a] + rest;
      assert acts + more == acts + [a] + rest;
    }
  }

  lemma LoopKnown(s: State)
    requires Inv(s)
    ensures s.pc.Idle? || s.pc.w in s.waiters
  {
  }
}
