/**
 Posting to an event loop from other threads: a lock-free stack of notify nodes,
 a pending flag and an eventfd counter, as interleaved atomic steps of any
 number of producers and the loop. Posts made on the loop thread itself push
 without waking.
 */
module EventLoopWakeup {
  import opened Octets

  /** Where a producer thread is inside post(): between the load and the compare-and-swap, or past it. */
  datatype Producer =
    | Away
    | Linking(node: nat, stale: Option<nat>)
    | Swapping(node: nat, stale: Option<nat>)
    | Exchanging
    | Writing

  /** Where the loop thread is inside run_once(). */
  datatype Phase =
    | Draining            // drain_notify: takes batches and runs their callbacks
    | Deferring           // drain_defer: runs deferred callbacks
    | Polling             // poller wait
    | Events(wake: bool)  // runs I/O callbacks; `wake` if the eventfd was reported and is not yet read
    | Clearing            // drain_wakeup between the read and the store of the pending flag

  /**
   `head` and `next` are the atomic head and the nodes' links. `stack` lists the nodes linked from
   `head`, `batch` the nodes taken by the loop and not yet run, `remote` the stacked nodes that other
   threads posted. `pushes` and `runs` record the order of successful swaps and of callbacks.
   */
  datatype State = State(
    head: Option<nat>, next: map<nat, Option<nat>>,
    producers: map<nat, Producer>,
    pending: bool, eventfd: nat, phase: Phase,
    stack: seq<nat>, batch: seq<nat>, remote: set<nat>,
    pushes: seq<nat>, runs: seq<nat>)

  function Init(): State {
    State(None, map[], map[], false, 0, Draining, [], [], {}, [], [])
  }

  function Link(next: map<nat, Option<nat>>, node: nat): Option<nat> {
    if node in next then next[node] else None
  }

  function Reverse<T>(s: seq<T>): seq<T> {
    if s == [] then [] else Reverse(s[1..]) + [s[0]]
  }

  function ProducerOf(s: State, t: nat): Producer {
    if t in s.producers then s.producers[t] else Away
  }

  predicate Held(p: Producer, node: nat) {
    (p.Linking? || p.Swapping?) && p.node == node
  }

  /** A node may be posted when it is not queued, not about to run and not being posted already. */
  predicate Postable(s: State, node: nat) {
    node !in s.stack && node !in s.batch && forall t :: t in s.producers ==> !Held(s.producers[t], node)
  }

  // ---------------------------------------------------------------- the steps

  datatype Action =
    | Load(t: nat, node: nat)       // push: read the head
    | SetNext(t: nat)               // push: point the node at what was read
    | Swap(t: nat, spurious: bool)  // push: compare-and-swap, which may fail spuriously
    | Exchange(t: nat)              // notify_wakeup: exchange the pending flag
    | Write(t: nat)                 // notify_wakeup: write the eventfd
    | LocalPost(node: nat)          // post() on the loop thread, from a callback
    | TakeBatch                     // try_pop_all
    | RunOne                        // reset a node and run its callback
    | StartPoll
    | Wake(wake: bool)              // the poller returns, with or without the eventfd
    | ReadEventfd
    | ClearPending
    | EndEvents

  function Put(s: State, t: nat, p: Producer): State {
    s.(producers := s.producers[t := p])
  }

  /** A successful swap links the node in front of the stack. */
  function Pushed(s: State, node: nat, remote: bool): State {
    s.(head := Some(node), stack := [node] + s.stack, pushes := s.pushes + [node],
       remote := if remote then s.remote + {node} else s.remote)
  }

  /** The links try_pop_all leaves in the batch: each node points at the one pushed after it. */
  function Relinked(next: map<nat, Option<nat>>, list: seq<nat>): map<nat, Option<nat>> {
    if list == [] then next
    else Relinked(next, list[1..])[list[0] := if |list| > 1 then Some(list[1]) else None]
  }

  predicate Callback(phase: Phase) {
    phase.Draining? || phase.Deferring? || phase.Events?
  }

  /** One atomic step; a step that is not enabled changes nothing. */
  function Apply(s: State, a: Action): State {
    match a
    case Load(t, node) =>
      if ProducerOf(s, t).Away? && Postable(s, node) then Put(s, t, Linking(node, s.head)) else s
    case SetNext(t) =>
      var p := ProducerOf(s, t);
      if p.Linking? then Put(s, t, Swapping(p.node, p.stale)).(next := s.next[p.node := p.stale]) else s
    case Swap(t, spurious) =>
      var p := ProducerOf(s, t);
      if !p.Swapping? then s
      else if p.stale == s.head && !spurious then Put(Pushed(s, p.node, true), t, Exchanging)
      else Put(s, t, Linking(p.node, s.head))
    case Exchange(t) =>
      if ProducerOf(s, t).Exchanging?
      then Put(s, t, if s.pending then Away else Writing).(pending := true)
      else s
    case Write(t) =>
      if ProducerOf(s, t).Writing? then Put(s, t, Away).(eventfd := s.eventfd + 1) else s
    case LocalPost(node) =>
      if Callback(s.phase) && Postable(s, node)
      then Pushed(s.(next := s.next[node := s.head]), node, false)
      else s
    case TakeBatch =>
      if !s.phase.Draining? || s.batch != [] then s
      else if s.head == None then s.(phase := Deferring)
      else s.(head := None, stack := [], remote := {}, batch := Reverse(s.stack),
              next := Relinked(s.next, Reverse(s.stack)))
    case RunOne =>
      if s.phase.Draining? && s.batch != []
      then s.(next := s.next[s.batch[0] := None], batch := s.batch[1..], runs := s.runs + [s.batch[0]])
      else s
    case StartPoll => if s.phase.Deferring? then s.(phase := Polling) else s
    case Wake(wake) => if s.phase.Polling? && (wake ==> s.eventfd > 0) then s.(phase := Events(wake)) else s
    case ReadEventfd => if s.phase == Events(true) then s.(phase := Clearing, eventfd := 0) else s
    case ClearPending => if s.phase.Clearing? then s.(phase := Events(false), pending := false) else s
    case EndEvents => if s.phase == Events(false) then s.(phase := Draining) else s
  }

  function Run(s: State, acts: seq<Action>): State {
    if acts == [] then s else Apply(Run(s, acts[..|acts| - 1]), acts[|acts| - 1])
  }

  // ---------------------------------------------------------------- the invariant

  /** Following the links from `first` spells the list. */
  predicate Chain(first: Option<nat>, next: map<nat, Option<nat>>, list: seq<nat>)
    decreases list
  {
    if list == [] then first == None
    else first == Some(list[0]) && Chain(Link(next, list[0]), next, list[1..])
  }

  function First(list: seq<nat>): Option<nat> {
    if list == [] then None else Some(list[0])
  }

  /** Every node has at most one owner: the stack, the batch or one producer. */
  ghost predicate OwnersOk(s: State) {
    && Distinct(s.stack) && Distinct(s.batch)
    && (forall n :: n in s.stack ==> n !in s.batch)
    && (forall t, n :: t in s.producers && Held(s.producers[t], n) ==> n !in s.stack && n !in s.batch)
    && (forall t, u, n :: t in s.producers && u in s.producers && t != u ==>
          !(Held(s.producers[t], n) && Held(s.producers[u], n)))
    && (forall t :: t in s.producers && s.producers[t].Swapping? ==>
          Link(s.next, s.producers[t].node) == s.producers[t].stale)
  }

  predicate SomeExchanging(s: State) {
    exists t :: t in s.producers && s.producers[t].Exchanging?
  }

  predicate SomeWriting(s: State) {
    exists t :: t in s.producers && s.producers[t].Writing?
  }

  /** A raised flag means the wake-up is in the eventfd, about to be written, or being consumed. */
  predicate FlagOk(s: State) {
    s.pending ==> s.eventfd > 0 || SomeWriting(s) || s.phase.Clearing?
  }

  /** Past the last empty pop, a post of another thread is announced or about to be. */
  predicate AnnouncedOk(s: State) {
    (s.phase.Deferring? || s.phase.Polling?) && s.remote != {} ==> s.pending || SomeExchanging(s)
  }

  ghost predicate Inv(s: State) {
    && Chain(s.head, s.next, s.stack) && Chain(First(s.batch), s.next, s.batch) && OwnersOk(s)
    && FlagOk(s) && AnnouncedOk(s)
    && (forall n :: n in s.remote ==> n in s.stack)
    && (s.batch != [] ==> s.phase.Draining?)
    && s.runs + s.batch + Reverse(s.stack) == s.pushes
  }

  // ---------------------------------------------------------------- every step keeps it

  lemma {:induction false} ReverseMembers(s: seq<nat>)
    ensures |Reverse(s)| == |s| && forall n :: n in Reverse(s) <==> n in s
  {
    if s != [] {
      ReverseMembers(s[1..]);
      assert s == [s[0]] + s[1..];
    }
  }

  lemma {:induction false} ReverseAt(s: seq<nat>, i: nat)
    requires i < |s|
    ensures |Reverse(s)| == |s| && Reverse(s)[i] == s[|s| - 1 - i]
  {
    ReverseMembers(s);
    ReverseMembers(s[1..]);
    if i < |s| - 1 { ReverseAt(s[1..], i); }
  }

  lemma ReverseDistinct(s: seq<nat>)
    requires Distinct(s)
    ensures Distinct(Reverse(s))
  {
    ReverseMembers(s);
    var r := Reverse(s);
    forall i, j | 0 <= i < j < |r| ensures r[i] != r[j] {
      ReverseAt(s, i);
      ReverseAt(s, j);
    }
  }

  /** Links of nodes outside a list do not matter to it. */
  lemma {:induction false} ChainFrame(first: Option<nat>, next: map<nat, Option<nat>>, next': map<nat, Option<nat>>,
                                      list: seq<nat>)
    requires Chain(first, next, list) && forall n :: n in list ==> Link(next', n) == Link(next, n)
    ensures Chain(first, next', list)
    decreases list
  {
    if list != [] {
      assert list[0] in list;
      forall n | n in list[1..] ensures Link(next', n) == Link(next, n) { assert n in list; }
      ChainFrame(Link(next, list[0]), next, next', list[1..]);
    }
  }

  lemma ChainStart(first: Option<nat>, next: map<nat, Option<nat>>, list: seq<nat>)
    requires Chain(first, next, list)
    ensures first == First(list)
  {
  }

  lemma {:induction false} RelinkedLinks(next: map<nat, Option<nat>>, list: seq<nat>)
    requires Distinct(list)
    ensures Chain(First(list), Relinked(next, list), list)
    ensures forall n :: n !in list ==> Link(Relinked(next, list), n) == Link(next, n)
  {
    if list != [] {
      var tail := list[1..];
      RelinkedLinks(next, tail);
      assert list[0] !in tail;
      ChainFrame(First(tail), Relinked(next, tail), Relinked(next, list), tail);
      assert forall n :: n in tail ==> n in list;
    }
  }

  /** Only the producer's own entry changes, and it neither starts nor stops holding a node another one holds. */
  lemma PutKeepsOwners(s: State, t: nat, p: Producer)
    requires OwnersOk(s)
    requires forall n :: Held(p, n) ==> Held(ProducerOf(s, t), n)
    requires p.Swapping? ==> Link(s.next, p.node) == p.stale
    ensures OwnersOk(Put(s, t, p))
  {
  }

  lemma LoadKeeps(s: State, t: nat, node: nat)
    requires Inv(s) && ProducerOf(s, t).Away? && Postable(s, node)
    ensures Inv(Put(s, t, Linking(node, s.head)))
  {
    hide Chain, Reverse, Distinct;
    var q := Put(s, t, Linking(node, s.head));
    forall u, v, n | u in q.producers && v in q.producers && u != v
      ensures !(Held(q.producers[u], n) && Held(q.producers[v], n))
    {
      if u == t { assert v in s.producers; }
      if v == t { assert u in s.producers; }
    }
    OthersStill(s, q, t);
  }

  /** Producers other than t keep what they have to do. */
  lemma OthersStill(s: State, q: State, t: nat)
    requires forall u :: u in s.producers && u != t ==> u in q.producers && q.producers[u] == s.producers[u]
    ensures SomeWriting(s) && !ProducerOf(s, t).Writing? ==> SomeWriting(q)
    ensures SomeExchanging(s) && !ProducerOf(s, t).Exchanging? ==> SomeExchanging(q)
  {
    if SomeWriting(s) && !ProducerOf(s, t).Writing? {
      var u :| u in s.producers && s.producers[u].Writing?;
      assert q.producers[u].Writing?;
    }
    if SomeExchanging(s) && !ProducerOf(s, t).Exchanging? {
      var u :| u in s.producers && s.producers[u].Exchanging?;
      assert q.producers[u].Exchanging?;
    }
  }

  lemma SetNextOwners(s: State, t: nat)
    requires OwnersOk(s) && ProducerOf(s, t).Linking?
    ensures OwnersOk(Apply(s, SetNext(t)))
    ensures ProducerOf(s, t).node !in s.stack && ProducerOf(s, t).node !in s.batch
  {
    hide Distinct;
    var p := ProducerOf(s, t);
    assert Held(s.producers[t], p.node);
    assert forall u :: u in s.producers && u != t && s.producers[u].Swapping? ==>
      Held(s.producers[u], s.producers[u].node);
  }

  lemma SetNextKeeps(s: State, t: nat)
    requires Inv(s) && ProducerOf(s, t).Linking?
    ensures Inv(Apply(s, SetNext(t)))
  {
    hide Reverse, OwnersOk, Chain;
    var q := Apply(s, SetNext(t));
    SetNextOwners(s, t);
    ChainFrame(s.head, s.next, q.next, s.stack);
    ChainFrame(First(s.batch), s.next, q.next, s.batch);
    OthersStill(s, q, t);
  }

  /** Pushing an unowned node whose link is the current head. */
  lemma PushedKeeps(s: State, node: nat, remote: bool)
    requires Inv(s) && Link(s.next, node) == s.head && node !in s.stack && node !in s.batch
    requires forall t :: t in s.producers ==> !Held(s.producers[t], node)
    requires remote && (s.phase.Deferring? || s.phase.Polling?) ==> s.pending || SomeExchanging(s)
    ensures Inv(Pushed(s, node, remote))
  {
    var q := Pushed(s, node, remote);
    assert q.stack[1..] == s.stack;
    assert Reverse(q.stack) == Reverse(s.stack) + [node];
    assert q.runs + q.batch + Reverse(q.stack) == s.runs + s.batch + Reverse(s.stack) + [node];
    assert FlagOk(q) by { OthersStill(s, q, 0); assert SomeWriting(s) ==> SomeWriting(q); }
    assert SomeExchanging(s) ==> SomeExchanging(q);
  }

  lemma SwapKeeps(s: State, t: nat)
    requires Inv(s) && ProducerOf(s, t).Swapping? && ProducerOf(s, t).stale == s.head
    ensures Inv(Apply(s, Swap(t, false)))
  {
    hide Chain, Reverse, Distinct;
    var p := ProducerOf(s, t);
    var c := Put(s, t, Exchanging);
    assert Held(p, p.node);
    PutKeepsOwners(s, t, Exchanging);
    OthersStill(s, c, t);
    assert c.producers[t].Exchanging?;
    assert Inv(c);
    PushedKeeps(c, p.node, true);
    assert Put(Pushed(s, p.node, true), t, Exchanging) == Pushed(c, p.node, true);
  }

  lemma RetryKeeps(s: State, t: nat)
    requires Inv(s) && ProducerOf(s, t).Swapping?
    ensures Inv(Put(s, t, Linking(ProducerOf(s, t).node, s.head)))
  {
    hide Chain, Reverse, Distinct;
    var q := Linking(ProducerOf(s, t).node, s.head);
    PutKeepsOwners(s, t, q);
    OthersStill(s, Put(s, t, q), t);
  }

  lemma ExchangeKeeps(s: State, t: nat)
    requires Inv(s) && ProducerOf(s, t).Exchanging?
    ensures Inv(Apply(s, Exchange(t)))
  {
    hide Chain, Reverse, Distinct;
    var p := if s.pending then Away else Writing;
    PutKeepsOwners(s, t, p);
    var q := Apply(s, Exchange(t));
    OthersStill(s, q, t);
    if !s.pending { assert q.producers[t].Writing?; }
  }

  lemma WriteKeeps(s: State, t: nat)
    requires Inv(s) && ProducerOf(s, t).Writing?
    ensures Inv(Apply(s, Write(t)))
  {
    hide Chain, Reverse, Distinct;
    PutKeepsOwners(s, t, Away);
    OthersStill(s, Apply(s, Write(t)), t);
  }

  lemma LocalPostKeeps(s: State, node: nat)
    requires Inv(s) && Postable(s, node)
    ensures Inv(Apply(s, LocalPost(node)))
  {
    if Callback(s.phase) {
      var c := s.(next := s.next[node := s.head]);
      assert Inv(c) by {
        ChainFrame(s.head, s.next, c.next, s.stack);
        ChainFrame(First(s.batch), s.next, c.next, s.batch);
        assert FlagOk(c) && AnnouncedOk(c);
        assert forall u :: u in s.producers && s.producers[u].Swapping? ==>
          Held(s.producers[u], s.producers[u].node);
      }
      PushedKeeps(c, node, false);
    }
  }

  lemma TakeBatchKeeps(s: State)
    requires Inv(s) && s.phase.Draining? && s.batch == [] && s.head != None
    ensures Inv(Apply(s, TakeBatch))
  {
    var r := Reverse(s.stack);
    ReverseMembers(s.stack);
    ReverseDistinct(s.stack);
    RelinkedLinks(s.next, r);
    var q := Apply(s, TakeBatch);
    assert q.runs + q.batch + Reverse(q.stack) == s.runs + s.batch + r;
    hide Reverse, Distinct, Relinked;
    assert forall u :: u in s.producers && s.producers[u].Swapping? ==>
      Held(s.producers[u], s.producers[u].node);
  }

  lemma RunOneKeeps(s: State)
    requires Inv(s) && s.phase.Draining? && s.batch != []
    ensures Inv(Apply(s, RunOne))
  {
    hide Reverse, OwnersOk;
    var q := Apply(s, RunOne);
    var n := s.batch[0];
    assert s.batch == [n] + s.batch[1..];
    assert q.runs + q.batch == s.runs + s.batch;
    assert Chain(Link(s.next, n), s.next, q.batch);
    ChainStart(Link(s.next, n), s.next, q.batch);
    RunOneOwners(s);
    ChainFrame(s.head, s.next, q.next, s.stack);
    ChainFrame(First(q.batch), s.next, q.next, q.batch);
    assert SomeWriting(s) ==> SomeWriting(q);
  }

  lemma RunOneOwners(s: State)
    requires OwnersOk(s) && s.phase.Draining? && s.batch != []
    ensures OwnersOk(Apply(s, RunOne))
    ensures s.batch[0] !in s.stack && s.batch[0] !in s.batch[1..]
  {
    hide Reverse;
    var n, rest := s.batch[0], s.batch[1..];
    assert s.batch == [n] + rest;
    assert n in s.batch;
    assert forall x :: x in rest ==> x in s.batch;
    assert forall u :: u in s.producers && s.producers[u].Swapping? ==>
      Held(s.producers[u], s.producers[u].node);
  }

  lemma LoopMoves(s: State, a: Action)
    requires Inv(s) && (a.StartPoll? || a.Wake? || a.ReadEventfd? || a.ClearPending? || a.EndEvents?)
    ensures Inv(Apply(s, a))
  {
    hide Chain, Reverse, Distinct, Held;
    var q := Apply(s, a);
    assert q.producers == s.producers;
    assert SomeWriting(s) ==> SomeWriting(q);
    assert SomeExchanging(s) ==> SomeExchanging(q);
  }

  lemma StepKeeps(s: State, a: Action)
    requires Inv(s)
    ensures Inv(Apply(s, a))
  {
    hide Chain, Reverse, Distinct, OwnersOk;
    match a
    case Load(t, node) => if ProducerOf(s, t).Away? && Postable(s, node) { LoadKeeps(s, t, node); }
    case SetNext(t) => if ProducerOf(s, t).Linking? { SetNextKeeps(s, t); }
    case Swap(t, spurious) =>
      if ProducerOf(s, t).Swapping? {
        if ProducerOf(s, t).stale == s.head && !spurious { SwapKeeps(s, t); } else { RetryKeeps(s, t); }
      }
    case Exchange(t) => if ProducerOf(s, t).Exchanging? { ExchangeKeeps(s, t); }
    case Write(t) => if ProducerOf(s, t).Writing? { WriteKeeps(s, t); }
    case LocalPost(node) => if Postable(s, node) { LocalPostKeeps(s, node); }
    case TakeBatch =>
      if s.phase.Draining? && s.batch == [] {
        if s.head != None { TakeBatchKeeps(s); } else { EmptyStack(s); }
      }
    case RunOne => if s.phase.Draining? && s.batch != [] { RunOneKeeps(s); }
    case _ => LoopMoves(s, a);
  }

  lemma EmptyStack(s: State)
    requires Inv(s) && s.head == None && s.phase.Draining? && s.batch == []
    ensures s.stack == [] && s.remote == {} && Inv(s.(phase := Deferring))
  {
    var q := s.(phase := Deferring);
    assert SomeWriting(s) ==> SomeWriting(q);
    assert forall n :: n in s.remote ==> n in s.stack;
  }

  // ---------------------------------------------------------------- whole runs

  lemma {:induction false} EveryRunKeeps(acts: seq<Action>)
    ensures Inv(Run(Init(), acts))
  {
    if acts != [] {
      EveryRunKeeps(acts[..|acts| - 1]);
      StepKeeps(Run(Init(), acts[..|acts| - 1]), acts[|acts| - 1]);
    }
  }

  /**
   No lost wake-up: whenever the loop is at the poller and a node posted by another thread is
   queued, the eventfd is readable or some producer still has its exchange or its write to do.
   */
  lemma NoLostWakeup(acts: seq<Action>)
    ensures var s := Run(Init(), acts);
            s.phase.Polling? && s.remote != {} ==> s.eventfd > 0 || SomeExchanging(s) || SomeWriting(s)
  {
    EveryRunKeeps(acts);
  }

  /** Callbacks run in the order of the successful swaps, once per post; the rest is queued in that order. */
  lemma PostsRunInOrder(acts: seq<Action>)
    ensures var s := Run(Init(), acts);
            s.runs + s.batch + Reverse(s.stack) == s.pushes && s.runs <= s.pushes
  {
    hide Chain, OwnersOk, Run, Reverse;
    EveryRunKeeps(acts);
    var s := Run(Init(), acts);
    assert s.pushes == s.runs + (s.batch + Reverse(s.stack));
  }

  // ---------------------------------------------------------------- posts made on the loop thread

  /** Queued work, and nothing that will wake the poller. */
  predicate Asleep(s: State) {
    s.phase.Polling? && s.stack != [] && s.eventfd == 0 && !SomeExchanging(s) && !SomeWriting(s)
  }

  /** Between the last empty pop and the return of the poller. */
  predicate Resting(s: State) {
    s.phase.Deferring? || s.phase.Polling?
  }

  predicate PostsLocally(s: State, a: Action) {
    a.LocalPost? && s.phase.Deferring? && Postable(s, a.node)
  }

  /** Step `i` posts from a deferred callback, and the loop has not been back to draining since. */
  predicate DeferredPost(acts: seq<Action>, i: nat)
    requires i < |acts|
  {
    PostsLocally(Run(Init(), acts[..i]), acts[i]) &&
    forall j :: i <= j <= |acts| ==> Resting(Run(Init(), acts[..j]))
  }

  predicate SomeDeferredPost(acts: seq<Action>) {
    exists i :: 0 <= i < |acts| && DeferredPost(acts, i)
  }

  /** A node is queued that no other thread posted. */
  predicate LocalQueued(s: State) {
    exists n :: n in s.stack && n !in s.remote
  }

  lemma LocalStep(s: State, a: Action)
    requires Inv(s) && Resting(s) && Resting(Apply(s, a))
    ensures LocalQueued(Apply(s, a)) <==> LocalQueued(s) || PostsLocally(s, a)
  {
    hide Chain, Reverse, Distinct, Relinked, Inv, OwnersOk;
    var q := Apply(s, a);
    if a.Swap? && ProducerOf(s, a.t).Swapping? { HeldIsFree(s, a.t); }
    if LocalQueued(s) {
      var n :| n in s.stack && n !in s.remote;
      assert n in q.stack && n !in q.remote;
    }
    if PostsLocally(s, a) {
      RemoteIsQueued(s);
      assert a.node in q.stack && a.node !in q.remote;
    }
  }

  lemma HeldIsFree(s: State, t: nat)
    requires Inv(s) && ProducerOf(s, t).Swapping?
    ensures ProducerOf(s, t).node !in s.stack
  {
    assert Held(s.producers[t], s.producers[t].node);
  }

  lemma RemoteIsQueued(s: State)
    requires Inv(s)
    ensures forall n :: n in s.remote ==> n in s.stack
  {
  }

  /** A round starts with nothing queued. */
  lemma RoundStarts(s: State, a: Action)
    requires Inv(s) && !Resting(s) && Resting(Apply(s, a))
    ensures Apply(s, a).stack == []
  {
    hide Chain, Reverse, Distinct, Relinked, OwnersOk, Inv;
    assert a.TakeBatch? && s.batch == [] && s.head == None;
    EmptyStack(s);
  }

  lemma PrefixRun(acts: seq<Action>, before: seq<Action>, a: Action, i: nat)
    requires acts == before + [a] && i < |before|
    ensures Resting(Run(Init(), acts)) ==> (DeferredPost(acts, i) <==> DeferredPost(before, i))
  {
    hide Resting, PostsLocally, Run;
    assert acts[..i] == before[..i] && acts[i] == before[i] && acts[..|acts|] == acts;
    assert forall j :: i <= j <= |before| ==> acts[..j] == before[..j];
    if DeferredPost(acts, i) {
      forall j | i <= j <= |before| ensures Resting(Run(Init(), before[..j])) { assert acts[..j] == before[..j]; }
    }
    if DeferredPost(before, i) && Resting(Run(Init(), acts)) {
      forall j | i <= j <= |acts| ensures Resting(Run(Init(), acts[..j])) {
        if j <= |before| { assert acts[..j] == before[..j]; }
      }
    }
  }

  lemma LastDeferredPost(acts: seq<Action>, before: seq<Action>, a: Action)
    requires acts == before + [a] && Resting(Run(Init(), acts))
    ensures DeferredPost(acts, |before|) <==> PostsLocally(Run(Init(), before), a)
    ensures SomeDeferredPost(acts) ==> Resting(Run(Init(), before))
    ensures SomeDeferredPost(acts) <==> SomeDeferredPost(before) || DeferredPost(acts, |before|)
  {
    hide Run, DeferredPost;
    LastPost(acts, before, a);
    forall i | 0 <= i < |before| ensures DeferredPost(acts, i) <==> DeferredPost(before, i) {
      PrefixRun(acts, before, a, i);
    }
    forall i | 0 <= i < |acts| && DeferredPost(acts, i) ensures Resting(Run(Init(), before)) {
      RestsBefore(acts, before, a, i);
    }
    if SomeDeferredPost(before) {
      var i :| 0 <= i < |before| && DeferredPost(before, i);
      assert DeferredPost(acts, i);
    }
  }

  lemma LastPost(acts: seq<Action>, before: seq<Action>, a: Action)
    requires acts == before + [a] && Resting(Run(Init(), acts))
    ensures DeferredPost(acts, |before|) <==> PostsLocally(Run(Init(), before), a)
  {
    hide Run, Postable;
    assert acts[..|before|] == before && acts[..|acts|] == acts;
  }

  lemma RestsBefore(acts: seq<Action>, before: seq<Action>, a: Action, i: nat)
    requires acts == before + [a] && i < |acts| && DeferredPost(acts, i)
    ensures Resting(Run(Init(), before))
  {
    hide Run, Postable, Resting;
    assert acts[..|before|] == before;
  }

  /** What is queued from this thread while the loop rests was posted by its deferred callbacks. */
  lemma {:induction false} LocalIsDeferred(acts: seq<Action>)
    requires Resting(Run(Init(), acts))
    ensures LocalQueued(Run(Init(), acts)) <==> SomeDeferredPost(acts)
  {
    hide Inv, Apply, Resting, PostsLocally, LocalQueued, SomeDeferredPost;
    if acts == [] {
      StartsAwake();
    } else {
      var before, a := acts[..|acts| - 1], acts[|acts| - 1];
      assert acts == before + [a];
      EveryRunKeeps(before);
      LastDeferredPost(acts, before, a);
      var s := Run(Init(), before);
      if Resting(s) {
        LocalIsDeferred(before);
        LocalStep(s, a);
      } else {
        RoundStarts(s, a);
        NothingLocal(Run(Init(), acts));
      }
    }
  }

  lemma StartsAwake()
    ensures !Resting(Run(Init(), []))
  {
  }

  lemma NothingLocal(s: State)
    requires s.stack == []
    ensures !LocalQueued(s)
  {
  }

  /**
   The loop sleeps on queued work exactly when it is at the poller with no wake-up
   written or under way, and one of its deferred callbacks has posted in this round.
   */
  lemma AsleepExactlyWhen(acts: seq<Action>)
    ensures var s := Run(Init(), acts);
            Asleep(s) <==>
              s.phase.Polling? && s.eventfd == 0 && !SomeExchanging(s) && !SomeWriting(s) && SomeDeferredPost(acts)
  {
    hide Run, SomeDeferredPost, SomeExchanging, SomeWriting;
    var s := Run(Init(), acts);
    if s.phase.Polling? && s.eventfd == 0 && !SomeExchanging(s) && !SomeWriting(s) {
      LocalIsDeferred(acts);
      NoLostWakeup(acts);
      if s.stack != [] { assert s.stack[0] in s.stack && s.stack[0] !in s.remote; }
    }
  }

  /** A post from a deferred callback is slept on exactly when no wake-up happens to be written or under way. */
  lemma DeferredPostSleeps(acts: seq<Action>, node: nat)
    requires var s := Run(Init(), acts); s.phase.Deferring? && Postable(s, node)
    ensures var s := Run(Init(), acts);
            Asleep(Run(Init(), acts + [LocalPost(node), StartPoll])) <==>
              s.eventfd == 0 && !SomeExchanging(s) && !SomeWriting(s)
  {
    var s := Run(Init(), acts);
    var a1, a2 := acts + [LocalPost(node)], acts + [LocalPost(node), StartPoll];
    assert a1[..|a1| - 1] == acts && a2[..|a2| - 1] == a1;
    assert Run(Init(), a1) == Apply(s, LocalPost(node));
    var q := Run(Init(), a2);
    assert q == Apply(Apply(s, LocalPost(node)), StartPoll);
    assert q.producers == s.producers;
  }

  /** Three steps into its first round the loop can be asleep on a callback of its own. */
  lemma FirstRoundSleeps(acts: seq<Action>)
    requires acts == [TakeBatch, LocalPost(0), StartPoll]
    ensures Asleep(Run(Init(), acts)) && Run(Init(), acts).stack == [0]
  {
    assert acts[..1] + [LocalPost(0), StartPoll] == acts;
    assert acts[..1][..0] == [];
    assert Run(Init(), acts[..1]) == Apply(Init(), TakeBatch);
    DeferredPostSleeps(acts[..1], 0);
    assert acts[..2][..1] == acts[..1] && acts[..3][..2] == acts[..2] && acts[..3] == acts;
    assert Run(Init(), acts[..2]) == Apply(Run(Init(), acts[..1]), LocalPost(0));
    assert [0] + [] == [0];
  }

  /** No deferred callback posts. */
  predicate NoDeferredPosts(acts: seq<Action>) {
    forall i :: 0 <= i < |acts| && acts[i].LocalPost? ==> !Run(Init(), acts[..i]).phase.Deferring?
  }

  /** Without posts from deferred callbacks the loop never sleeps on queued work. */
  lemma NeverAsleep(acts: seq<Action>)
    requires NoDeferredPosts(acts)
    ensures !Asleep(Run(Init(), acts))
  {
    hide Run, SomeExchanging, SomeWriting;
    AsleepExactlyWhen(acts);
  }
}
