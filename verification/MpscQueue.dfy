/**
 The notify queue's linked nodes in place: push puts a node in front, and
 try_pop_all takes the whole list and reverses it by rewriting its links, so
 that the oldest post comes first.
 */
module MpscQueue {
  import opened Octets
  import opened EventLoopWakeup

  class Node {
    var next: Node?

    constructor ()
      ensures next == null
    {
      next := null;
    }
  }

  /** The links from `first` spell the list. */
  ghost predicate Spells(first: Node?, list: seq<Node>)
    reads list
    decreases list
  {
    if list == [] then first == null
    else first == list[0] && Spells(first.next, list[1..])
  }

  class Queue {
    var head: Node?
    ghost var stack: seq<Node>

    ghost predicate Valid()
      reads this, stack
    {
      Spells(head, stack) && Distinct(stack)
    }

    constructor ()
      ensures Valid() && stack == []
    {
      head, stack := null, [];
    }

    /** push, when the swap succeeds. */
    method Push(node: Node)
      requires Valid() && node.next == null && node !in stack
      modifies this, node
      ensures Valid() && stack == [node] + old(stack)
    {
      node.next := head;
      head := node;
      stack := [node] + stack;
      assert stack[1..] == old(stack);
    }

    /** try_pop_all: the queue is left empty and the nodes come out oldest first. */
    method TryPopAll() returns (first: Node?, ghost order: seq<Node>)
      requires Valid()
      modifies this, stack
      ensures Valid() && stack == []
      ensures order == Reverse(old(stack)) && Spells(first, order)
    {
      var last := head;
      head := null;
      first := null;
      ghost var left := stack;
      ghost var all := stack;
      order := [];
      stack := [];
      while last != null
        invariant Spells(last, left) && Spells(first, order)
        invariant Distinct(left) && (forall n :: n in left ==> n !in order && n in all)
        invariant (forall n :: n in order ==> n in all)
        invariant Reverse(left) + order == Reverse(all)
        invariant head == null && stack == []
        decreases |left|
      {
        var tmp := last;
        assert tmp == left[0] && tmp in left;
        last := last.next;
        left := left[1..];
        assert tmp !in left && tmp !in order;
        ghost var done := order;
        tmp.next := first;
        first := tmp;
        order := [tmp] + order;
        assert order[1..] == done;
      }
    }
  }
}
