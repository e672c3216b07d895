/**
 The mutex object itself: the doubly linked list of waiters with its head and
 tail, and the three operations that relink it under the internal lock.
 */
module AsyncMutexList {
  import opened Octets
  import opened AsyncMutex

  class Node {
    var state: WaiterState
    var prev: Node?
    var next: Node?
    var queued: bool

    constructor ()
      ensures state == Waiting && prev == null && next == null && !queued
    {
      state, prev, next, queued := Waiting, null, null, false;
    }
  }

  /** The link to the element at `i`, or null outside the list. */
  function At(list: seq<Node>, i: int): Node? {
    if 0 <= i < |list| then list[i] else null
  }

  /** The element at `i` is queued between its neighbours. */
  predicate Linked(list: seq<Node>, i: int)
    requires 0 <= i < |list|
    reads list[i]
  {
    list[i].prev == At(list, i - 1) && list[i].next == At(list, i + 1) && list[i].queued
  }

  /** The states along the list. */
  ghost function States(list: seq<Node>): (r: seq<WaiterState>)
    reads list
    ensures |r| == |list| && forall i :: 0 <= i < |list| ==> r[i] == list[i].state
  {
    if list == [] then [] else [list[0].state] + States(list[1..])
  }

  ghost predicate Agree(list: seq<Node>, states: seq<WaiterState>)
    reads list
  {
    |states| == |list| && forall i :: 0 <= i < |list| ==> list[i].state == states[i]
  }

  lemma {:induction false} UnlinkAt<T>(list: seq<T>, k: nat)
    requires k < |list| && Distinct(list)
    ensures Unlink(list, list[k]) == list[..k] + list[k + 1..]
  {
    if k > 0 {
      UnlinkAt(list[1..], k - 1);
      assert list[1..][..k - 1] == list[1..k] && list[1..][k..] == list[k + 1..];
      assert list[..k] == [list[0]] + list[1..k];
    }
  }

  /** The element at `j` is linked as if the one at `k` were not there. */
  ghost predicate Bypasses(list: seq<Node>, k: nat, j: nat)
    requires j < |list|
    reads list[j]
  {
    && list[j].queued
    && list[j].prev == At(list, if j == k + 1 then k - 1 else j - 1)
    && list[j].next == At(list, if j == k - 1 then k + 1 else j + 1)
  }

  lemma Relinked(list: seq<Node>, k: nat)
    requires k < |list| && Distinct(list) && forall j :: 0 <= j < |list| && j != k ==> Bypasses(list, k, j)
    ensures var rest := list[..k] + list[k + 1..];
            && Distinct(rest) && forall i :: 0 <= i < |rest| ==> Linked(rest, i)
  {
    var rest := list[..k] + list[k + 1..];
    forall i | 0 <= i < |rest| ensures Linked(rest, i) {
      var j := if i < k then i else i + 1;
      assert Bypasses(list, k, j) && rest[i] == list[j];
    }
  }

  class Mutex {
    var head: Node?
    var tail: Node?
    var locked: bool
    ghost var list: seq<Node>

    /** Head, tail and every link agree with the list, whose members are the queued waiters. */
    ghost predicate Valid()
      reads this, list
    {
      && Distinct(list)
      && head == At(list, 0) && tail == At(list, |list| - 1)
      && (forall i :: 0 <= i < |list| ==> Linked(list, i))
      && (!locked ==> list == [])
    }

    constructor ()
      ensures Valid() && !locked && list == []
    {
      head, tail, locked, list := null, null, false, [];
    }

    method TryLock() returns (taken: bool)
      requires Valid()
      modifies this`locked
      ensures Valid() && locked && taken == !old(locked)
    {
      taken := !locked;
      locked := true;
    }

    /** Takes a free mutex, otherwise appends the waiter. */
    method EnqueueWaiter(w: Node) returns (waits: bool)
      requires Valid() && !w.queued && w.state.Waiting? && w !in list
      modifies this, w, list
      ensures Valid() && locked && waits == old(locked)
      ensures list == if waits then old(list) + [w] else old(list)
      ensures forall x :: x in list ==> x.state == old(x.state)
    {
      if !locked {
        locked := true;
        return false;
      }
      w.prev, w.next := tail, null;
      if tail != null {
        assert tail in list;
        tail.next := w;
      } else {
        head := w;
      }
      tail := w;
      w.queued := true;
      ghost var was := list;
      list := list + [w];
      forall i | 0 <= i < |list| ensures Linked(list, i) {
        if i < |was| { assert old(Linked(list, i)) && list[i] == was[i]; }
      }
      return true;
    }

    /** Takes the first waiter off the list. */
    method PopFront() returns (w: Node)
      requires Valid() && head != null
      modifies this`head, this`tail, this`list, list
      ensures Valid() && old(list) != [] && w == old(list)[0] && list == old(list)[1..] && w !in list
      ensures w.prev == null && w.next == null && !w.queued
      ensures forall i :: 0 <= i < |old(list)| ==> old(list)[i].state == old(list[i].state)
    {
      w := head;
      ghost var was := list;
      assert Linked(list, 0) && w in list;
      head := w.next;
      if head != null {
        assert head == list[1] && head in list;
        head.prev := null;
      } else {
        tail := null;
      }
      w.prev, w.next, w.queued := null, null, false;
      list := list[1..];
      forall i | 0 <= i < |list| ensures Linked(list, i) {
        assert old(Linked(list, i + 1)) && list[i] == was[i + 1] && list[i] != w;
      }
    }

    /** Takes the first waiter off what is left of the list after `k` of them have gone. */
    method PopAt(ghost was: seq<Node>, ghost states: seq<WaiterState>, ghost k: nat) returns (w: Node)
      requires Valid() && head != null && k <= |was| && list == was[k..] && Agree(was, states)
      modifies this`head, this`tail, this`list, was
      ensures Valid() && k < |was| && w == was[k] && list == was[k + 1..] && w !in list
      ensures Agree(was, states) && w.state == states[k]
    {
      hide Valid;
      assert forall i :: 0 <= i < |list| ==> list[i] == was[k + i] && list[i] in was;
      w := PopFront();
      assert forall i :: k <= i < |was| ==> was[i] == old(list)[i - k];
    }

    /** Makes a waiter that has left the list the owner. */
    method Notify(w: Node)
      requires Valid() && w !in list
      modifies w`state
      ensures Valid() && w.state == Notified
    {
      w.state := Notified;
    }

    /** With no waiter left the mutex is free. */
    method Release()
      requires Valid() && head == null
      modifies this`locked
      ensures Valid() && list == [] && !locked
    {
      locked := false;
    }

    /**
     Hands the mutex to the first waiter still waiting, dropping from the list any that is not, or
     unlocks it when there is none.
     */
    method SelectNext() returns (next: Node?)
      requires Valid() && locked
      modifies this, list
      ensures Valid() && (next == null <==> !locked)
      ensures next == At(old(list), old(Skipped(States(list))))
      ensures list == if next == null then [] else old(list)[old(Skipped(States(list))) + 1..]
      ensures forall i :: 0 <= i < |old(list)| ==>
                old(list)[i].state == (if old(list)[i] == next then Notified else old(list[i].state))
    {
      hide Valid, Linked, Distinct, States;
      ghost var was, states, k: nat := list, States(list), 0;
      while head != null
        invariant k <= |was| && list == was[k..] && Valid() && locked
        invariant Skipped(states) == k + Skipped(states[k..])
        invariant Agree(was, states)
        decreases |list|
      {
        next := PopAt(was, states, k);
        assert states[k..][0] == states[k] && states[k..][1..] == states[k + 1..];
        k := k + 1;
        if next.state.Waiting? {
          Notify(next);
          return;
        }
      }
      Release();
      next := null;
    }

    /** Links the neighbours of a queued waiter to each other. */
    method Bypass(w: Node, ghost k: nat)
      requires Valid() && k < |list| && list[k] == w
      modifies this`head, this`tail, list
      ensures !w.queued && w.prev == null && w.next == null
      ensures head == At(list, if k == 0 then 1 else 0)
      ensures tail == At(list, if k == |list| - 1 then k - 1 else |list| - 1)
      ensures forall j :: 0 <= j < |list| && j != k ==> Bypasses(list, k, j)
      ensures forall j :: 0 <= j < |list| ==> list[j].state == old(list[j].state)
    {
      assert Linked(list, k);
      if w.prev != null {
        assert w.prev == list[k - 1];
        w.prev.next := w.next;
      } else {
        head := w.next;
      }
      if w.next != null {
        assert w.next == list[k + 1];
        w.next.prev := w.prev;
      } else {
        tail := w.prev;
      }
      w.prev, w.next, w.queued := null, null, false;
      forall j | 0 <= j < |list| && j != k ensures Bypasses(list, k, j) {
        assert old(Linked(list, j));
      }
    }

    /** Unlinks a queued waiter from wherever it stands. */
    method Erase(w: Node, ghost k: nat)
      requires Valid() && k < |list| && list[k] == w
      modifies this`head, this`tail, this`list, list
      ensures Valid() && list == Unlink(old(list), w) && !w.queued && w.prev == null && w.next == null
      ensures forall x :: x in old(list) ==> x.state == old(x.state)
    {
      hide Unlink, Bypasses;
      Bypass(w, k);
      UnlinkAt(list, k);
      Relinked(list, k);
      list := list[..k] + list[k + 1..];
    }

    /**
     Cancels a wait. A queued waiter leaves the list and is to be deleted; one that already owns the mutex
     passes it on; any other is left alone.
     */
    method CancelWaiter(w: Node) returns (next: Node?, delete: bool)
      requires Valid() && (w.queued <==> w in list) && (w.state.Notified? ==> locked && w !in list)
      modifies this, w, list
      ensures Valid() && delete == old(w.state.Waiting?)
      ensures old(w.state.Waiting?) ==> w.state == Canceled && next == null && list == Unlink(old(list), w)
      ensures old(w.state.Notified?) ==>
                && w.state == Canceled && next == At(old(list), old(Skipped(States(list))))
                && (next == null <==> !locked)
                && list == if next == null then [] else old(list)[old(Skipped(States(list))) + 1..]
      ensures old(!w.state.Waiting? && !w.state.Notified?) ==> unchanged(w) && list == old(list) && next == null
      ensures !old(w.state.Notified?) ==> locked == old(locked)
    {
      hide Linked, Distinct, States, Unlink, Skipped;
      next, delete := null, false;
      if w.state.Waiting? {
        if w.queued {
          ghost var k: nat :| k < |list| && list[k] == w;
          Erase(w, k);
          UnlinkGone(old(list), w);
        } else {
          UnlinkMissing(list, w);
        }
        w.state := Canceled;
        delete := true;
      } else if w.state.Notified? {
        w.state := Canceled;
        next := SelectNext();
      }
    }
  }

  lemma {:induction false} UnlinkMissing<T>(list: seq<T>, w: T)
    requires w !in list
    ensures Unlink(list, w) == list
  {
    if list != [] {
      UnlinkMissing(list[1..], w);
    }
  }

  lemma {:induction false} UnlinkGone<T>(list: seq<T>, w: T)
    requires Distinct(list)
    ensures w !in Unlink(list, w)
  {
    if list != [] && list[0] != w { UnlinkGone(list[1..], w); }
  }
}
