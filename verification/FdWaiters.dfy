/**
 Waiting for a file descriptor that belongs to another event loop. A waiter is
 shared by three parties: the coroutine that waits on its own loop, the loop
 that owns the descriptor, and the queues between them. Each atomic transition,
 each post and each callback is one step; steps of the two threads interleave
 freely, those of the descriptor's loop follow one another.
 */
module FdWaiters {

  datatype WaiterState = NotifyWatch | NotifyResume | WatchingEvent | RequestCancel | WaitingCancel | Canceled

  /** Where the waiter's one shared queue entry is. */
  datatype Entry = NoEntry | OnFdLoop | OnOwnLoop

  /**
   `watchQueued`: on_notify_watch is still in the queue. `posting`: the cancelling thread has made its transition
   and has still to post. `awaiting`: the awaiter exists and points here. The counters and `cancelled` record what
   has happened to the coroutine and to the memory.
   */
  datatype Waiter = Waiter(state: WaiterState, read: bool, watchQueued: bool, entry: Entry, posting: bool,
                           awaiting: bool, cancelled: bool, resumes: nat, frees: nat, posts: nat)

  datatype Slot = Empty | Local | Cross(w: nat)

  /** What the descriptor's loop is in the middle of. */
  datatype LoopPc = Idle | Starting(w: nat) | Resuming(w: nat) | Posting(w: nat)

  datatype State = State(valid: bool, readSlot: Slot, writeSlot: Slot, pc: LoopPc, waiters: map<nat, Waiter>)

  function Init(): State {
    State(true, Empty, Empty, Idle, map[])
  }

  function SlotOf(s: State, read: bool): Slot { if read then s.readSlot else s.writeSlot }

  function WithSlot(s: State, read: bool, slot: Slot): State {
    if read then s.(readSlot := slot) else s.(writeSlot := slot)
  }

  function Put(s: State, w: nat, x: Waiter): State {
    s.(waiters := s.waiters[w := x])
  }

  // ---------------------------------------------------------------- steps

  datatype Action =
    | Suspend(w: nat, read: bool)
    | RunWatch(w: nat)
    | BeginWait(watchOk: bool)
    | TakeSlot(read: bool)
    | ResumeTransition
    | PostResume
    | Cancel(w: nat)
    | PostCancel(w: nat)
    | RunCancel(w: nat)
    | RunResume(w: nat)
    | LocalBegin(read: bool)
    | LocalEnd(read: bool)
    | CloseFd

  /** await_suspend on another loop: the waiter is made and on_notify_watch posted. */
  function NewWaiter(read: bool): Waiter {
    Waiter(NotifyWatch, read, true, NoEntry, false, true, false, 0, 0, 0)
  }

  /** on_notify_watch, up to the exchange and the deletion of a waiter cancelled before it. */
  function DoRunWatch(s: State, w: nat): State
    requires w in s.waiters
  {
    var x := s.waiters[w];
    var y := x.(state := WatchingEvent, watchQueued := false);
    if x.state.Canceled? then Put(s, w, y.(frees := x.frees + 1)) else Put(s, w, y).(pc := Starting(w))
  }

  /** begin_wait for a cross-thread waiter: it gets the slot, or its failure is passed on. */
  function DoBeginWait(s: State, w: nat, watchOk: bool): State
    requires w in s.waiters
  {
    var read := s.waiters[w].read;
    if s.valid && SlotOf(s, read).Empty? && watchOk
    then WithSlot(s, read, Cross(w)).(pc := Idle)
    else s.(pc := Resuming(w))
  }

  /** handle_events and close: whoever is in the slot leaves it and is to be resumed. */
  function DoTakeSlot(s: State, read: bool): State {
    var slot := SlotOf(s, read);
    if slot.Cross? then WithSlot(s, read, Empty).(pc := Resuming(slot.w)) else WithSlot(s, read, Empty)
  }

  /** The transition of do_notify_resume. */
  function DoResumeTransition(s: State, w: nat): State
    requires w in s.waiters
  {
    var x := s.waiters[w];
    match x.state
    case WatchingEvent => Put(s, w, x.(state := NotifyResume)).(pc := Posting(w))
    case RequestCancel => Put(s, w, x.(state := WaitingCancel)).(pc := Idle)
    case _ => s.(pc := Idle)
  }

  function DoPostResume(s: State, w: nat): State
    requires w in s.waiters
  {
    Put(s, w, s.waiters[w].(entry := OnOwnLoop, posts := s.waiters[w].posts + 1)).(pc := Idle)
  }

  /** The awaiter is destroyed: the transition of RWFdCrossThreadWaiter::cancel_wait. */
  function DoCancel(s: State, w: nat): State
    requires w in s.waiters
  {
    var x := s.waiters[w].(awaiting := false, cancelled := true);
    match x.state
    case NotifyWatch => Put(s, w, x.(state := Canceled))
    case NotifyResume => Put(s, w, x.(state := Canceled))
    case WatchingEvent => Put(s, w, x.(state := RequestCancel, posting := true))
    case _ => Put(s, w, x)
  }

  function DoPostCancel(s: State, w: nat): State
    requires w in s.waiters
  {
    Put(s, w, s.waiters[w].(entry := OnFdLoop, posting := false, posts := s.waiters[w].posts + 1))
  }

  /** on_notify_cancel: a waiter still in its slot leaves it; then it is deleted. */
  function DoRunCancel(s: State, w: nat): State
    requires w in s.waiters
  {
    var x := s.waiters[w];
    var t := if x.state.RequestCancel? && SlotOf(s, x.read) == Cross(w) then WithSlot(s, x.read, Empty) else s;
    Put(t, w, x.(entry := NoEntry, frees := x.frees + 1))
  }

  /** on_notify_resume: a cancelled waiter is deleted; another resumes its coroutine, which deletes it. */
  function DoRunResume(s: State, w: nat): State
    requires w in s.waiters
  {
    var x := s.waiters[w].(entry := NoEntry, frees := s.waiters[w].frees + 1);
    if x.state.Canceled? then Put(s, w, x) else Put(s, w, x.(awaiting := false, resumes := x.resumes + 1))
  }

  /** When a step can happen; callbacks on the descriptor's loop wait until it is idle. */
  predicate Enabled(s: State, a: Action) {
    match a
    case Suspend(w, _) => w !in s.waiters
    case RunWatch(w) => s.pc.Idle? && w in s.waiters && s.waiters[w].watchQueued
    case BeginWait(_) => s.pc.Starting? && s.pc.w in s.waiters
    case TakeSlot(read) => s.pc.Idle? && !SlotOf(s, read).Empty?
    case ResumeTransition => s.pc.Resuming? && s.pc.w in s.waiters
    case PostResume => s.pc.Posting? && s.pc.w in s.waiters
    case Cancel(w) => w in s.waiters && s.waiters[w].awaiting
    case PostCancel(w) => w in s.waiters && s.waiters[w].posting
    case RunCancel(w) => s.pc.Idle? && w in s.waiters && s.waiters[w].entry.OnFdLoop?
    case RunResume(w) => w in s.waiters && s.waiters[w].entry.OnOwnLoop?
    case LocalBegin(read) => s.pc.Idle? && s.valid && SlotOf(s, read).Empty?
    case LocalEnd(read) => s.pc.Idle? && SlotOf(s, read).Local?
    case CloseFd => s.pc.Idle?
  }

  function Apply(s: State, a: Action): State {
    if !Enabled(s, a) then s
    else
      match a
      case Suspend(w, read) => Put(s, w, NewWaiter(read))
      case RunWatch(w) => DoRunWatch(s, w)
      case BeginWait(watchOk) => DoBeginWait(s, s.pc.w, watchOk)
      case TakeSlot(read) => DoTakeSlot(s, read)
      case ResumeTransition => DoResumeTransition(s, s.pc.w)
      case PostResume => DoPostResume(s, s.pc.w)
      case Cancel(w) => DoCancel(s, w)
      case PostCancel(w) => DoPostCancel(s, w)
      case RunCancel(w) => DoRunCancel(s, w)
      case RunResume(w) => DoRunResume(s, w)
      case LocalBegin(read) => WithSlot(s, read, Local)
      case LocalEnd(read) => WithSlot(s, read, Empty)
      case CloseFd => s.(valid := false)
  }

  // ---------------------------------------------------------------- the invariant

  /** Being watched, or asked to stop: the cancelling thread posts once. */
  predicate WatchedShape(x: Waiter) {
    && !x.watchQueued && x.resumes == 0 && x.frees == 0
    && (if x.state.WatchingEvent? then x.entry.NoEntry? && !x.posting && x.posts == 0 && x.awaiting && !x.cancelled
        else x.state.RequestCancel? && StoppingShape(x))
  }

  predicate StoppingShape(x: Waiter) {
    && !x.awaiting && x.cancelled
    && (if x.posting then x.entry.NoEntry? && x.posts == 0 else x.entry.OnFdLoop? && x.posts == 1)
  }

  /** Not watched yet. */
  predicate QueuedShape(x: Waiter) {
    && x.watchQueued && x.resumes == 0 && x.frees == 0 && x.entry.NoEntry? && !x.posting && x.posts == 0
    && (x.state.NotifyWatch? || x.state.Canceled?) && x.awaiting == x.state.NotifyWatch? && x.cancelled == !x.awaiting
  }

  /** Chosen to be resumed; `entry` has or has not been posted. */
  predicate ResumeShape(x: Waiter, entry: Entry) {
    && !x.watchQueued && x.resumes == 0 && x.frees == 0 && !x.posting && x.entry == entry
    && x.posts == (if entry.NoEntry? then 0 else 1)
    && (x.state.NotifyResume? || x.state.Canceled?) && x.awaiting == x.state.NotifyResume? && x.cancelled == !x.awaiting
  }

  /** Out of the slot, waiting for its deletion by on_notify_cancel. */
  predicate LeavingShape(x: Waiter) {
    !x.watchQueued && x.resumes == 0 && x.frees == 0 && x.state.WaitingCancel? && StoppingShape(x)
  }

  predicate GoneShape(x: Waiter) {
    && !x.watchQueued && x.entry.NoEntry? && !x.posting && !x.awaiting && x.frees == 1 && x.posts <= 1
    && x.resumes == if x.cancelled then 0 else 1
  }

  /** In a slot, or in the hands of the descriptor's loop before the resume transition. */
  predicate Held(s: State, w: nat, x: Waiter) {
    SlotOf(s, x.read) == Cross(w) || s.pc == Starting(w) || s.pc == Resuming(w)
  }

  predicate WaiterOk(s: State, w: nat, x: Waiter) {
    if Held(s, w, x) then WatchedShape(x)
    else if s.pc == Posting(w) then ResumeShape(x, NoEntry)
    else QueuedShape(x) || ResumeShape(x, OnOwnLoop) || LeavingShape(x) || GoneShape(x)
  }

  /** A slot holds a waiter for its own event, and no waiter is both in a slot and in the loop's hands. */
  predicate SlotOk(s: State, read: bool) {
    var slot := SlotOf(s, read);
    slot.Cross? ==> slot.w in s.waiters && s.waiters[slot.w].read == read && (s.pc.Idle? || s.pc.w != slot.w)
  }

  ghost predicate Inv(s: State) {
    && SlotOk(s, true) && SlotOk(s, false) && (s.pc.Idle? || s.pc.w in s.waiters)
    && forall w :: w in s.waiters ==> WaiterOk(s, w, s.waiters[w])
  }

  lemma Others(s: State, t: State, w: nat)
    requires Inv(s) && w in t.waiters
    requires forall v :: v in t.waiters && v != w ==> v in s.waiters && t.waiters[v] == s.waiters[v]
    requires forall v :: v in t.waiters && v != w ==>
                (Held(t, v, t.waiters[v]) <==> Held(s, v, s.waiters[v])) && (t.pc == Posting(v) <==> s.pc == Posting(v))
    requires SlotOk(t, true) && SlotOk(t, false) && (t.pc.Idle? || t.pc.w in t.waiters) && WaiterOk(t, w, t.waiters[w])
    ensures Inv(t)
  {
    forall v | v in t.waiters ensures WaiterOk(t, v, t.waiters[v]) {
      if v != w { assert WaiterOk(s, v, s.waiters[v]); }
    }
  }

  lemma StepKeeps(s: State, a: Action)
    requires Inv(s)
    ensures Inv(Apply(s, a))
  {
    if Enabled(s, a) {
      var t := Apply(s, a);
      match a
      case Suspend(w, read) => Others(s, t, w);
      case RunWatch(w) => WatchKeeps(s, w);
      case BeginWait(ok) => BeginKeeps(s, ok);
      case TakeSlot(read) => TakeKeeps(s, read);
      case ResumeTransition => TransitionKeeps(s);
      case PostResume => PostKeeps(s);
      case Cancel(w) => CancelKeeps(s, w);
      case PostCancel(w) => PostCancelKeeps(s, w);
      case RunCancel(w) => RunCancelKeeps(s, w);
      case RunResume(w) => RunResumeKeeps(s, w);
      case LocalBegin(read) => QuietKeeps(s, t);
      case LocalEnd(read) => QuietKeeps(s, t);
      case CloseFd => QuietKeeps(s, t);
    }
  }

  /** A step that touches no cross-thread waiter. */
  lemma QuietKeeps(s: State, t: State)
    requires Inv(s) && t.waiters == s.waiters && t.pc == s.pc
    requires forall read :: SlotOf(t, read) == SlotOf(s, read) || (!SlotOf(t, read).Cross? && !SlotOf(s, read).Cross?)
    ensures Inv(t)
  {
    assert SlotOf(t, true) == SlotOf(s, true) || !SlotOf(t, true).Cross?;
    assert SlotOf(t, false) == SlotOf(s, false) || !SlotOf(t, false).Cross?;
    forall w | w in t.waiters ensures WaiterOk(t, w, t.waiters[w]) {
      assert WaiterOk(s, w, s.waiters[w]);
      assert Held(t, w, t.waiters[w]) <==> Held(s, w, s.waiters[w]);
    }
  }

  lemma WatchKeeps(s: State, w: nat)
    requires Inv(s) && Enabled(s, RunWatch(w))
    ensures Inv(DoRunWatch(s, w))
  {
    assert WaiterOk(s, w, s.waiters[w]);
    Others(s, DoRunWatch(s, w), w);
  }

  lemma BeginKeeps(s: State, ok: bool)
    requires Inv(s) && Enabled(s, BeginWait(ok))
    ensures Inv(DoBeginWait(s, s.pc.w, ok))
  {
    assert WaiterOk(s, s.pc.w, s.waiters[s.pc.w]);
    Others(s, DoBeginWait(s, s.pc.w, ok), s.pc.w);
  }

  lemma TakeKeeps(s: State, read: bool)
    requires Inv(s) && Enabled(s, TakeSlot(read))
    ensures Inv(DoTakeSlot(s, read))
  {
    var slot := SlotOf(s, read);
    if slot.Cross? {
      assert WaiterOk(s, slot.w, s.waiters[slot.w]);
      Others(s, DoTakeSlot(s, read), slot.w);
    } else {
      QuietKeeps(s, DoTakeSlot(s, read));
    }
  }

  lemma TransitionKeeps(s: State)
    requires Inv(s) && Enabled(s, ResumeTransition)
    ensures Inv(DoResumeTransition(s, s.pc.w))
  {
    assert WaiterOk(s, s.pc.w, s.waiters[s.pc.w]);
    Others(s, DoResumeTransition(s, s.pc.w), s.pc.w);
  }

  lemma PostKeeps(s: State)
    requires Inv(s) && Enabled(s, PostResume)
    ensures Inv(DoPostResume(s, s.pc.w))
  {
    assert WaiterOk(s, s.pc.w, s.waiters[s.pc.w]);
    Others(s, DoPostResume(s, s.pc.w), s.pc.w);
  }

  lemma CancelKeeps(s: State, w: nat)
    requires Inv(s) && Enabled(s, Cancel(w))
    ensures Inv(DoCancel(s, w))
  {
    assert WaiterOk(s, w, s.waiters[w]);
    Others(s, DoCancel(s, w), w);
  }

  lemma PostCancelKeeps(s: State, w: nat)
    requires Inv(s) && Enabled(s, PostCancel(w))
    ensures Inv(DoPostCancel(s, w))
  {
    assert WaiterOk(s, w, s.waiters[w]);
    Others(s, DoPostCancel(s, w), w);
  }

  lemma RunCancelKeeps(s: State, w: nat)
    requires Inv(s) && Enabled(s, RunCancel(w))
    ensures Inv(DoRunCancel(s, w))
  {
    assert WaiterOk(s, w, s.waiters[w]);
    Others(s, DoRunCancel(s, w), w);
  }

  lemma RunResumeKeeps(s: State, w: nat)
    requires Inv(s) && Enabled(s, RunResume(w))
    ensures Inv(DoRunResume(s, w))
  {
    assert WaiterOk(s, w, s.waiters[w]);
    Others(s, DoRunResume(s, w), w);
  }

  // ---------------------------------------------------------------- whole runs

  function Run(acts: seq<Action>): (s: State)
    ensures Inv(s)
  {
    if acts == [] then Init()
    else
      var before := Run(acts[..|acts| - 1]);
      StepKeeps(before, acts[|acts| - 1]);
      Apply(before, acts[|acts| - 1])
  }

  /**
   A waiter is freed at most once, resumed at most once and not if it was cancelled, and its shared queue entry is
   posted at most once; once freed it is in no slot, in no queue and in nobody's hands.
   */
  lemma WaiterLife(acts: seq<Action>, w: nat)
    requires w in Run(acts).waiters
    ensures var s := Run(acts); var x := s.waiters[w];
            && x.frees <= 1 && x.resumes <= 1 && x.posts <= 1 && (x.cancelled ==> x.resumes == 0)
            && (x.frees == 1 ==> s.readSlot != Cross(w) && s.writeSlot != Cross(w) && (s.pc.Idle? || s.pc.w != w))
            && (x.frees == 1 ==> !x.watchQueued && x.entry.NoEntry? && !x.posting && !x.awaiting)
            && (x.frees == 1 ==> x.cancelled || x.resumes == 1)
  {
    var s := Run(acts);
    assert WaiterOk(s, w, s.waiters[w]);
  }

  /** A freed waiter is never touched again. */
  lemma FreedIsFinal(acts: seq<Action>, a: Action, w: nat)
    requires w in Run(acts).waiters && Run(acts).waiters[w].frees == 1
    ensures w in Run(acts + [a]).waiters && Run(acts + [a]).waiters[w] == Run(acts).waiters[w]
  {
    hide Apply, WaiterOk, SlotOk;
    WaiterLife(acts, w);
    Untouched(Run(acts), a, w);
    assert (acts + [a])[..|acts + [a]| - 1] == acts;
  }

  /** A step acts only on a waiter that some queue, the loop or its awaiter still refers to. */
  lemma Untouched(s: State, a: Action, w: nat)
    requires w in s.waiters && (s.pc.Idle? || s.pc.w != w)
    requires var x := s.waiters[w]; !x.watchQueued && x.entry.NoEntry? && !x.posting && !x.awaiting
    ensures w in Apply(s, a).waiters && Apply(s, a).waiters[w] == s.waiters[w]
  {
  }

  /** Nothing is lost: with all queues empty and the loop idle, a waiter not yet freed is being watched in its slot. */
  lemma NothingLeaks(acts: seq<Action>, w: nat)
    requires w in Run(acts).waiters && Run(acts).pc.Idle?
    requires var x := Run(acts).waiters[w]; x.frees == 0 && !x.watchQueued && x.entry.NoEntry? && !x.posting
    ensures var s := Run(acts); var x := s.waiters[w];
            SlotOf(s, x.read) == Cross(w) && x.state.WatchingEvent? && x.awaiting && !x.cancelled
  {
    var s := Run(acts);
    assert WaiterOk(s, w, s.waiters[w]);
  }

  /** The callbacks find the waiter in the states they assert, and the transition to be resumed is never refused. */
  lemma AssertionsHold(acts: seq<Action>, w: nat)
    requires w in Run(acts).waiters
    ensures var s := Run(acts); var x := s.waiters[w];
            && (Enabled(s, RunWatch(w)) ==> x.state.NotifyWatch? || x.state.Canceled?)
            && (Enabled(s, RunCancel(w)) ==> x.state.RequestCancel? || x.state.WaitingCancel?)
            && (Enabled(s, RunResume(w)) ==> x.state.NotifyResume? || x.state.Canceled?)
            && (s.pc == Resuming(w) ==> x.state.WatchingEvent? || x.state.RequestCancel?)
  {
    var s := Run(acts);
    assert WaiterOk(s, w, s.waiters[w]);
  }
}
