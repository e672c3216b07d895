/**
 What is posted gets run: from every reachable state but the one in which the
 loop sleeps on its own deferred posts, the loop and the producers under way can
 run everything that is queued, with no return of the poller but those the
 eventfd causes.
 */
module EventLoopProgress {
  import opened Octets
  import opened EventLoopWakeup

  /** At the poller or on the way to it, with work queued and nothing that will wake it. */
  predicate Stuck(s: State) {
    Resting(s) && s.stack != [] && s.eventfd == 0 && !SomeExchanging(s) && !SomeWriting(s)
  }

  /** Steps that finish what has begun: no new post, and no return of the poller without the eventfd. */
  predicate Finishes(a: Action) {
    !a.Load? && !a.SetNext? && !a.Swap? && !a.LocalPost? && a != Wake(false)
  }

  function PhaseRank(p: Phase): nat {
    match p
    case Draining => 0
    case Events(wake) => if wake then 3 else 1
    case Clearing => 2
    case Polling => 4
    case Deferring => 5
  }

  /** How far the eventfd is from being readable. */
  function WakeRank(s: State): nat {
    if s.eventfd > 0 then 0 else if SomeWriting(s) then 1 else 2
  }

  function Work(s: State): nat {
    2 * |s.stack| + |s.batch|
  }

  predicate Less(q: State, s: State) {
    || PhaseRank(q.phase) < PhaseRank(s.phase)
    || (q.phase == s.phase && WakeRank(q) < WakeRank(s))
    || (q.phase == s.phase && WakeRank(q) == WakeRank(s) && Work(q) < Work(s))
  }

  /** The step gets nearer to an empty queue, posts nothing and leaves the loop able to go on. */
  predicate Nearer(s: State, a: Action) {
    var q := Apply(s, a);
    Finishes(a) && Less(q, s) && q.pushes == s.pushes && !Stuck(q)
  }

  lemma DrainStep(s: State) returns (a: Action)
    requires Inv(s) && s.phase.Draining? && (s.batch != [] || s.stack != [])
    ensures Nearer(s, a)
  {
    hide Reverse, OwnersOk, Relinked;
    if s.batch != [] {
      a := RunOne;
    } else {
      a := TakeBatch;
      ReverseMembers(s.stack);
    }
    assert SomeWriting(Apply(s, a)) <==> SomeWriting(s);
  }

  lemma PollStep(s: State) returns (a: Action)
    requires Inv(s) && s.phase.Polling? && s.stack != [] && !Stuck(s)
    ensures Nearer(s, a)
  {
    hide Chain, Reverse, OwnersOk, Relinked;
    if s.eventfd > 0 {
      a := Wake(true);
    } else if SomeWriting(s) {
      var t :| t in s.producers && s.producers[t].Writing?;
      a := Write(t);
    } else {
      var t :| t in s.producers && s.producers[t].Exchanging?;
      a := Exchange(t);
      assert Apply(s, a).producers[t].Writing?;
    }
  }

  lemma MoveStep(s: State) returns (a: Action)
    requires Inv(s) && !s.phase.Draining? && !s.phase.Polling? && !Stuck(s)
    ensures Nearer(s, a)
  {
    hide Chain, Reverse, OwnersOk, Relinked;
    a := if s.phase.Deferring? then StartPoll
         else if s.phase == Events(true) then ReadEventfd
         else if s.phase.Clearing? then ClearPending
         else EndEvents;
    var q := Apply(s, a);
    assert q.producers == s.producers;
    assert SomeExchanging(s) ==> SomeExchanging(q);
    assert SomeWriting(s) ==> SomeWriting(q);
  }

  lemma Extends(acts: seq<Action>, a: Action)
    ensures Run(Init(), acts + [a]) == Apply(Run(Init(), acts), a)
  {
    hide Apply;
    assert (acts + [a])[..|acts + [a]| - 1] == acts;
  }

  /** From every reachable state that is not stuck, all that was posted can be run. */
  lemma {:induction false} CanDrain(acts: seq<Action>) returns (more: seq<Action>)
    requires !Stuck(Run(Init(), acts))
    ensures forall i :: 0 <= i < |more| ==> Finishes(more[i])
    ensures var s, q := Run(Init(), acts), Run(Init(), acts + more); q.pushes == s.pushes && q.runs == s.pushes
    decreases PhaseRank(Run(Init(), acts).phase), WakeRank(Run(Init(), acts)), Work(Run(Init(), acts))
  {
    hide Apply, Stuck, Inv, Chain, OwnersOk, Reverse, SomeWriting, SomeExchanging, Finishes;
    var s := Run(Init(), acts);
    EveryRunKeeps(acts);
    if s.batch == [] && s.stack == [] {
      more := [];
      AllRun(acts);
      assert acts + [] == acts;
    } else {
      var a := NextStep(s);
      Extends(acts, a);
      var rest := CanDrain(acts + [a]);
      more := [a] + rest;
      assert acts + more == acts + [a] + rest;
    }
  }

  lemma NextStep(s: State) returns (a: Action)
    requires Inv(s) && !Stuck(s) && (s.batch != [] || s.stack != [])
    ensures Nearer(s, a)
  {
    hide Apply, Stuck, Chain, OwnersOk, Reverse, SomeWriting, SomeExchanging, Nearer;
    if s.phase.Draining? {
      a := DrainStep(s);
    } else if s.phase.Polling? {
      a := PollStep(s);
    } else {
      a := MoveStep(s);
    }
  }

  lemma AllRun(acts: seq<Action>)
    requires var s := Run(Init(), acts); s.batch == [] && s.stack == []
    ensures var s := Run(Init(), acts); s.runs == s.pushes
  {
    hide Run;
    PostsRunInOrder(acts);
    var s := Run(Init(), acts);
    assert s.runs + [] + [] == s.runs;
  }

  /** Asleep with no producer under way, the loop stays so until a new post or a return of the poller without it. */
  lemma AsleepStays(s: State, a: Action)
    requires Asleep(s) && (forall t :: t in s.producers ==> s.producers[t].Away?)
    requires !a.Load? && a != Wake(false)
    ensures Apply(s, a) == s
  {
    hide Reverse, Relinked, Postable;
  }

  /** The loop runs the oldest node it has taken, and only that one. */
  lemma RunsOldest(acts: seq<Action>)
    requires var s := Run(Init(), acts); s.phase.Draining? && s.batch != []
    ensures var s, q := Run(Init(), acts), Run(Init(), acts + [RunOne]);
            && |s.runs| < |s.pushes| && q.runs == s.runs + [s.pushes[|s.runs|]]
            && q.batch == s.batch[1..] && q.stack == s.stack && q.pushes == s.pushes
            && Link(q.next, s.batch[0]) == None
  {
    hide Run, Reverse;
    var s := Run(Init(), acts);
    PostsRunInOrder(acts);
    assert s.pushes == s.runs + (s.batch + Reverse(s.stack));
    assert s.pushes[|s.runs|] == s.batch[0];
    Extends(acts, RunOne);
  }

  /** A post that nothing interrupts queues its node behind all others and raises the flag; the first one wakes. */
  lemma PostIsQueued(acts: seq<Action>, t: nat, node: nat, post: seq<Action>)
    requires var s := Run(Init(), acts); ProducerOf(s, t).Away? && Postable(s, node)
    requires post == [Load(t, node), SetNext(t), Swap(t, false), Exchange(t), Write(t)]
    ensures var s, q := Run(Init(), acts), Run(Init(), acts + post);
            && q.stack == [node] + s.stack && q.pushes == s.pushes + [node] && node in q.remote
            && q.pending && q.eventfd == (if s.pending then s.eventfd else s.eventfd + 1)
            && ProducerOf(q, t).Away? && q.runs == s.runs && q.batch == s.batch && q.phase == s.phase
  {
    hide Run, Apply, Postable;
    var s := Run(Init(), acts);
    var a1, a2, a3, a4 := acts + post[..1], acts + post[..2], acts + post[..3], acts + post[..4];
    assert a1 == acts + [post[0]] && a2 == a1 + [post[1]] && a3 == a2 + [post[2]] && a4 == a3 + [post[3]]
        && acts + post == a4 + [post[4]];
    Extends(acts, post[0]);
    Extends(a1, post[1]);
    Extends(a2, post[2]);
    Extends(a3, post[3]);
    Extends(a4, post[4]);
    Pushes(s, t, node);
    Wakes(Run(Init(), a3), t);
  }

  lemma Pushes(s: State, t: nat, node: nat)
    requires ProducerOf(s, t).Away? && Postable(s, node)
    ensures Apply(Apply(Apply(s, Load(t, node)), SetNext(t)), Swap(t, false)) ==
            Put(Pushed(s.(next := s.next[node := s.head]), node, true), t, Exchanging)
  {
    hide Postable;
    var q := Apply(Apply(Apply(s, Load(t, node)), SetNext(t)), Swap(t, false));
    var linking, swapping: Producer := Linking(node, s.head), Swapping(node, s.head);
    assert s.producers[t := linking][t := swapping][t := Exchanging] == s.producers[t := Exchanging];
  }

  lemma Wakes(s: State, t: nat)
    requires ProducerOf(s, t).Exchanging?
    ensures var q := Apply(Apply(s, Exchange(t)), Write(t));
            && q == s.(pending := true, producers := q.producers,
                       eventfd := if s.pending then s.eventfd else s.eventfd + 1)
            && ProducerOf(q, t).Away?
  {
  }
}
