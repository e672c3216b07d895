/**
 TimerQueue: a binary heap of linked nodes. Slots are addressed by the bits of
 the count, nodes are exchanged by rewriting links, and any linked node can be
 removed. A ghost sequence records which node sits at which heap position.
 */
module TimerQueue {
  import opened Octets
  import opened TimerHeap

  class Node {
    var left: Node?
    var right: Node?
    var parent: Node?
    const deadline: int
    ghost var pos: nat

    constructor (deadline: int)
      ensures this.deadline == deadline
    {
      this.deadline := deadline;
      left, right, parent := null, null, null;
    }
  }

  ghost function At(s: seq<Node>, i: nat): Node? {
    if i < |s| then s[i] else null
  }

  /** The links of the node at position i agree with the layout. */
  ghost predicate LinkOk(s: seq<Node>, i: nat)
    requires i < |s|
    reads s[i]
  {
    && s[i].pos == i
    && s[i].left == At(s, 2 * i + 1)
    && s[i].right == At(s, 2 * i + 2)
    && s[i].parent == (if i == 0 then null else s[Parent(i)])
  }

  ghost predicate LinksOk(s: seq<Node>)
    reads s
  {
    forall i :: 0 <= i < |s| ==> LinkOk(s, i)
  }

  /** A linked node knows its position. */
  lemma PosOf(s: seq<Node>, x: Node)
    requires LinksOk(s) && x in s
    ensures x.pos < |s| && s[x.pos] == x && LinkOk(s, x.pos)
  {
    var j :| 0 <= j < |s| && s[j] == x;
    assert LinkOk(s, j);
  }

  function Deadlines(s: seq<Node>): (d: seq<int>)
    ensures |d| == |s| && forall i :: 0 <= i < |s| ==> d[i] == s[i].deadline
  {
    seq(|s|, i requires 0 <= i < |s| => s[i].deadline)
  }

  class TimerQueue {
    var min: Node?
    var count: nat
    ghost var nodes: seq<Node>

    ghost predicate Linked()
      reads this, nodes
    {
      min == At(nodes, 0) && count == |nodes| && LinksOk(nodes)
    }

    ghost predicate Valid()
      reads this, nodes
    {
      Linked() && Ordered(Deadlines(nodes))
    }

    constructor ()
      ensures Valid() && nodes == []
    {
      min, count, nodes := null, 0, [];
    }

    static method SetParent(x: Node?, p: Node)
      modifies {x}`parent
      ensures x != null ==> x.parent == p
    {
      if x != null { x.parent := p; }
    }

    /** The slot of `parent` that holds `from`, or the root slot, now holds `to`. */
    method ReplaceChild(parent: Node?, from: Node, to: Node)
      modifies `min, {parent}`left, {parent}`right
      ensures min == if parent == null then to else old(min)
      ensures parent != null ==>
                && parent.left == (if old(parent.left) == from then to else old(parent.left))
                && parent.right == (if old(parent.left) == from then old(parent.right) else to)
    {
      if parent == null {
        min := to;
      } else if parent.left == from {
        parent.left := to;
      } else {
        parent.right := to;
      }
    }

    /** The link updates of swap_nodes, for the neighbours of a parent and its child. */
    method ExchangeLinks(parent: Node, child: Node, ghost u: Node?, ghost sib: Node?, ghost cl: Node?, ghost cr: Node?)
      requires parent != child && (parent.left == child || parent.right == child)
      requires u == parent.parent && cl == child.left && cr == child.right
      requires sib == if parent.left == child then parent.right else parent.left
      requires sib != child
      requires parent !in {u, sib, cl, cr} && child !in {u, sib, cl, cr}
      requires u != null ==> u != sib && u != cl && u != cr
      requires sib != null ==> sib != cl && sib != cr
      requires cl != null ==> cl != cr
      modifies `min, parent`left, parent`right, parent`parent, child`left, child`right, child`parent,
               {sib, cl, cr}`parent, {u}`left, {u}`right
      ensures min == if u == null then child else old(min)
      ensures parent.left == cl && parent.right == cr && parent.parent == child
      ensures child.parent == u
      ensures old(parent.left) == child ==> child.left == parent && child.right == sib
      ensures old(parent.left) != child ==> child.left == sib && child.right == parent
      ensures sib != null ==> sib.parent == child
      ensures cl != null ==> cl.parent == parent
      ensures cr != null ==> cr.parent == parent
      ensures u != null ==>
                && u.left == (if old(u.left) == parent then child else old(u.left))
                && u.right == (if old(u.left) == parent then old(u.right) else child)
    {
      var l, r, up := parent.left, parent.right, parent.parent;
      parent.left, parent.right, parent.parent := child.left, child.right, child.parent;
      child.left, child.right, child.parent := l, r, up;
      parent.parent := child;
      var sibling: Node?;
      if child.left == child {
        child.left := parent;
        sibling := child.right;
      } else {
        child.right := parent;
        sibling := child.left;
      }
      SetParent(sibling, child);
      SetParent(parent.left, parent);
      SetParent(parent.right, parent);
      ReplaceChild(child.parent, parent, child);
    }

    /** swap_nodes on the links alone: which node points where afterwards. */
    method Rewire(parent: Node, child: Node, ghost s: seq<Node>, ghost p: nat, ghost c: nat)
      requires LinksOk(s) && Distinct(s) && forall i :: 0 <= i < |s| ==> s[i].pos == i
      requires p < c < |s| && p == Parent(c) && parent == s[p] && child == s[c]
      modifies `min, s
      ensures min == if p == 0 then child else old(min)
      ensures RewiredPair(s, p, c)
      ensures forall i :: 0 <= i < |s| && i != p && i != c ==>
                && s[i].pos == i
                && s[i].left == (if 2 * i + 1 == p then s[c] else old(s[i].left))
                && s[i].right == (if 2 * i + 2 == p then s[c] else old(s[i].right))
                && s[i].parent == (if i > 0 && Parent(i) == p then s[c]
                                   else if i > 0 && Parent(i) == c then s[p]
                                   else old(s[i].parent))
    {
      hide Distinct, LinkOk, LinksOk, At, RewiredPair;
      ghost var o := if c == 2 * p + 1 then 2 * p + 2 else 2 * p + 1;
      ghost var u := if p == 0 then null else s[Parent(p)];
      Neighbours(s, p, c, o, u);
      ExchangeLinks(parent, child, u, At(s, o), At(s, 2 * c + 1), At(s, 2 * c + 2));
      child.pos, parent.pos := p, c;
      PairAfter(s, p, c, o);
      forall i | 0 <= i < |s| && i != p && i != c
        ensures && s[i].pos == i
                && s[i].left == (if 2 * i + 1 == p then s[c] else old(s[i].left))
                && s[i].right == (if 2 * i + 2 == p then s[c] else old(s[i].right))
                && s[i].parent == (if i > 0 && Parent(i) == p then s[c]
                                   else if i > 0 && Parent(i) == c then s[p]
                                   else old(s[i].parent))
      {
        Identify(s, i, p, c, o, u);
      }
    }

    /** swap_nodes: a parent and its child exchange places. */
    method SwapNodes(parent: Node, child: Node)
      requires Linked() && child in nodes && child.parent == parent
      modifies this, nodes
      ensures Linked() && child.pos == old(parent.pos) < |nodes| && parent.pos == old(child.pos) < |nodes|
      ensures old(parent.pos) < |old(nodes)| && old(child.pos) < |old(nodes)|
      ensures nodes == Swapped(old(nodes), old(parent.pos), old(child.pos)) && SameNodes(nodes, old(nodes))
    {
      hide Distinct, RewiredPair, At, Swapped;
      ghost var p, c := parent.pos, child.pos;
      ghost var s := nodes;
      PosOf(s, child);
      assert LinkOk(s, Parent(c));
      DistinctNodes(s);
      Positions(s);
      Rewire(parent, child, s, p, c);
      nodes := Swapped(s, p, c);
      RewiredPairLinks(s, p, c);
      RootAfter(s, p, c);
      SwappedMembers(s, p, c);
      forall i | 0 <= i < |nodes| ensures LinkOk(nodes, i) {
        if i != p && i != c {
          assert old(LinkOk(nodes, i));
          OthersAfter(s, p, c, i);
        }
      }
    }

    /**
     The slot for a one-based heap position, found by following the bits of the
     position down from the root: the owner of the slot and which side it is.
     */
    method Descend(position: nat) returns (owner: Node?, right: bool)
      requires Linked() && 1 <= position <= count + 1
      ensures position == 1 ==> owner == null
      ensures position > 1 ==> owner == nodes[Parent(position - 1)] && (right <==> position % 2 == 1)
    {
      var path, k := PathTo(position);
      owner, right := null, false;
      ghost var pos := 1;
      while k > 0
        invariant pos >= 1 && Target(pos, path, k) == position
        invariant pos == 1 ==> owner == null
        invariant pos > 1 ==> pos <= count + 1 && owner == nodes[Parent(pos - 1)] && (right <==> pos % 2 == 1)
      {
        TargetBound(pos, path, k);
        TargetBound(2 * pos + path % 2, path / 2, k - 1);
        var here := if owner == null then min else if right then owner.right else owner.left;
        if pos > 1 { assert LinkOk(nodes, Parent(pos - 1)); }
        assert here == nodes[pos - 1];
        owner, right := here, path % 2 == 1;
        pos := 2 * pos + path % 2;
        path, k := path / 2, k - 1;
      }
    }

    method SetSlot(owner: Node?, right: bool, x: Node?)
      modifies `min, {owner}`left, {owner}`right
      ensures min == if owner == null then x else old(min)
      ensures owner != null ==>
                && owner.left == (if right then old(owner.left) else x)
                && owner.right == (if right then x else old(owner.right))
    {
      if owner == null { min := x; }
      else if right { owner.right := x; }
      else { owner.left := x; }
    }

    /** Moves a node up until it is not before its parent. */
    method SiftUp(node: Node)
      requires Linked() && node in nodes && OrderedUpTo(Deadlines(nodes), node.pos)
      modifies this, nodes
      ensures Valid() && count == old(count) && SameNodes(nodes, old(nodes))
    {
      hide LinkOk, OrderedUpTo, Swapped, Ordered;
      while true
        invariant Linked() && node in nodes && count == old(count)
        invariant SameNodes(nodes, old(nodes))
        invariant OrderedUpTo(Deadlines(nodes), node.pos)
        decreases node.pos
      {
        ghost var s := nodes;
        Links(s, node);
        if node.parent == null || node.deadline >= node.parent.deadline { break; }
        SiftUpStep(Deadlines(s), node.pos);
        SwappedDeadlines(s, Parent(node.pos), node.pos);
        assert forall i :: 0 <= i < |s| ==> s[i] in old(nodes);
        SwapNodes(node.parent, node);
      }
      SiftUpDone(Deadlines(nodes), node.pos);
    }

    /** insert: the node goes to the first free slot and moves up. */
    method Insert(node: Node)
      requires Valid() && node !in nodes
      modifies this, nodes, node
      ensures Valid() && count == old(count) + 1
      ensures forall x :: x in nodes <==> x in old(nodes) || x == node
    {
      AppendOrdered(Deadlines(nodes), node.deadline);
      Attach(node);
      assert Deadlines(nodes) == Deadlines(old(nodes)) + [node.deadline];
      SiftUp(node);
    }

    method Attach(node: Node)
      requires Linked() && node !in nodes
      modifies this, nodes, node
      ensures Linked() && nodes == old(nodes) + [node] && node.pos == |old(nodes)|
    {
      hide Distinct, At;
      ghost var s := nodes;
      DistinctNodes(s);
      node.left, node.right := null, null;
      var owner, right := Descend(count + 1);
      node.parent := owner;
      SetSlot(owner, right, node);
      count := count + 1;
      node.pos := |s|;
      nodes := s + [node];
      AtEnds(s, node);
      forall i | 0 <= i < |nodes| ensures LinkOk(nodes, i) {
        if i < |s| {
          assert old(LinkOk(nodes, i));
          if |s| > 0 { Same(s, i, Parent(|s|)); }
        }
      }
    }

    /** Empties the last slot and returns the node it held. */
    method ClearLast(ghost s: seq<Node>) returns (last: Node)
      requires Linked() && Distinct(s) && s == nodes && count > 0
      modifies `min, s`left, s`right
      ensures last == s[|s| - 1] && min == if |s| == 1 then null else old(min)
      ensures forall i :: 0 <= i < |s| - 1 ==>
                && s[i] != last
                && s[i].left == (if 2 * i + 1 == |s| - 1 then null else old(s[i].left))
                && s[i].right == (if 2 * i + 2 == |s| - 1 then null else old(s[i].right))
    {
      hide Distinct, LinkOk;
      ghost var n := |s| - 1;
      var owner, right := Descend(count);
      Positions(s);
      if n > 0 { Links(s, s[Parent(n)]); }
      last := if owner == null then min else if right then owner.right else owner.left;
      SetSlot(owner, right, null);
      forall i | 0 <= i < n
        ensures && s[i] != last
                && s[i].left == (if 2 * i + 1 == n then null else old(s[i].left))
                && s[i].right == (if 2 * i + 2 == n then null else old(s[i].right))
      {
        Same(s, i, n);
        Same(s, i, Parent(n));
      }
    }

    /** Takes the node in the last slot out of the tree. */
    method DetachLast() returns (last: Node)
      requires Linked() && count > 0
      modifies `min, `count, `nodes, nodes`left, nodes`right
      ensures Linked() && nodes == old(nodes)[..|old(nodes)| - 1] && last == old(nodes)[|old(nodes)| - 1]
      ensures last !in nodes
    {
      hide Distinct, At;
      ghost var s := nodes;
      ghost var n := |s| - 1;
      DistinctNodes(s);
      AtEnds(s[..n], s[n]);
      assert s[..n] + [s[n]] == s;
      last := ClearLast(s);
      count := count - 1;
      nodes := s[..n];
      forall i | 0 <= i < n ensures LinkOk(nodes, i) {
        assert old(LinkOk(nodes, i));
      }
    }

    /** The link updates that put `child` where `node` was, at position p. */
    method TakePlace(node: Node, child: Node, ghost s: seq<Node>, ghost p: nat)
      requires LinksOk(s) && Distinct(s) && p < |s| && node == s[p] && child !in s
      modifies `min, s`left, s`right, s`parent, child
      ensures min == if p == 0 then child else old(min)
      ensures child.pos == p && child.left == At(s, 2 * p + 1) && child.right == At(s, 2 * p + 2)
      ensures child.parent == if p == 0 then null else s[Parent(p)]
      ensures forall i :: 0 <= i < |s| && i != p ==>
                && s[i].left == (if 2 * i + 1 == p then child else old(s[i].left))
                && s[i].right == (if 2 * i + 2 == p then child else old(s[i].right))
                && s[i].parent == (if i == 2 * p + 1 || i == 2 * p + 2 then child else old(s[i].parent))
    {
      hide Distinct, At, LinksOk, LinkOk;
      AroundNode(s, p);
      child.left, child.right, child.parent := node.left, node.right, node.parent;
      SetParent(child.left, child);
      SetParent(child.right, child);
      ReplaceChild(node.parent, node, child);
      child.pos := p;
      forall i | 0 <= i < |s| && i != p
        ensures && s[i].left == (if 2 * i + 1 == p then child else old(s[i].left))
                && s[i].right == (if 2 * i + 2 == p then child else old(s[i].right))
                && s[i].parent == (if i == 2 * p + 1 || i == 2 * p + 2 then child else old(s[i].parent))
      {
        IdentifyAround(s, i, p);
      }
    }

    /** A node outside the tree takes the place of one inside. */
    method Substitute(node: Node, child: Node)
      requires Linked() && node in nodes && child !in nodes
      modifies this, nodes, child
      ensures Linked() && old(node.pos) < |old(nodes)| && child.pos == old(node.pos)
      ensures nodes == old(nodes)[old(node.pos) := child]
    {
      hide Distinct, At;
      ghost var s := nodes;
      ghost var p := node.pos;
      Links(s, node);
      DistinctNodes(s);
      TakePlace(node, child, s, p);
      nodes := s[p := child];
      AtUpdate(s, p, child, 0);
      forall i | 0 <= i < |nodes| ensures LinkOk(nodes, i) {
        assert old(LinkOk(nodes, i));
        AtUpdate(s, p, child, i);
      }
    }

    /** The child a node must be exchanged with, or the node itself. */
    method Smallest(node: Node) returns (smallest: Node)
      requires Linked() && node in nodes
      ensures node.pos < |nodes|
      ensures smallest == node ==>
                forall j :: 0 < j < |nodes| && Parent(j) == node.pos ==> node.deadline <= Deadlines(nodes)[j]
      ensures smallest != node ==>
                && smallest in nodes && smallest.parent == node && smallest.deadline < node.deadline
                && node.pos < smallest.pos < |nodes| && nodes[smallest.pos] == smallest
                && SmallestChild(Deadlines(nodes), node.pos, smallest.pos)
    {
      Links(nodes, node);
      Children(nodes, node.pos);
      smallest := node;
      if node.left != null && node.left.deadline < smallest.deadline { smallest := node.left; }
      if node.right != null && node.right.deadline < smallest.deadline { smallest := node.right; }
      if smallest != node { Links(nodes, smallest); }
    }

    /** Moves a node down, past its smaller child each time, until no child is before it. */
    method SiftDown(node: Node)
      requires Linked() && node in nodes && OrderedAround(Deadlines(nodes), node.pos)
      modifies this, nodes
      ensures Linked() && node in nodes && OrderedUpTo(Deadlines(nodes), node.pos)
      ensures count == old(count) && SameNodes(nodes, old(nodes))
    {
      hide LinkOk, OrderedAround, OrderedUpTo, Swapped, SmallestChild;
      while true
        invariant Linked() && node in nodes && count == old(count) && SameNodes(nodes, old(nodes))
        invariant OrderedAround(Deadlines(nodes), node.pos)
        decreases count - node.pos
      {
        ghost var s := nodes;
        Links(s, node);
        var smallest := Smallest(node);
        if smallest == node { break; }
        SiftDownStep(Deadlines(s), node.pos, smallest.pos);
        SwappedDeadlines(s, node.pos, smallest.pos);
        assert forall j :: 0 <= j < |s| ==> s[j] in old(nodes);
        SwapNodes(node, smallest);
      }
      Links(nodes, node);
      SiftDownDone(Deadlines(nodes), node.pos);
    }

    /** remove: any linked node leaves the heap and all others stay. */
    method Remove(node: Node)
      requires Valid() && (count == 0 || node in nodes)
      modifies this, nodes
      ensures Valid() && Without(nodes, old(nodes), node)
      ensures count == if old(count) == 0 then 0 else old(count) - 1
    {
      hide LinkOk, Deadlines, Ordered, OrderedAround, OrderedUpTo;
      if count == 0 { return; }
      ghost var s := nodes;
      ghost var i := node.pos;
      Links(s, node);
      LastRemoved(s);
      if i < |s| - 1 {
        ReplaceOrdered(Deadlines(s), i);
        ReplacedNodes(s, i);
      }
      var child := DetachLast();
      if child == node { return; }
      Substitute(node, child);
      assert nodes == Replaced(s, i);
      assert forall j :: 0 <= j < |nodes| ==> nodes[j] in s;
      SiftDown(child);
      assert forall j :: 0 <= j < |nodes| ==> nodes[j] in s;
      SiftUp(child);
    }

    /** run_due_timers with callbacks that post no timer: takes out the due nodes, earliest first. */
    method RunDue(now: int) returns (fired: seq<Node>)
      requires Valid()
      modifies this, nodes
      ensures Valid()
      ensures forall x :: x in fired <==> x in old(nodes) && x.deadline <= now
      ensures forall x :: x in nodes <==> x in old(nodes) && x.deadline > now
      ensures forall i, j :: 0 <= i < j < |fired| ==> fired[i].deadline <= fired[j].deadline && fired[i] != fired[j]
    {
      hide LinkOk, Deadlines, Ordered;
      fired := [];
      while min != null && min.deadline <= now
        invariant Valid()
        invariant forall x :: x in fired ==> x in old(nodes) && x !in nodes && x.deadline <= now
        invariant forall x :: x in nodes ==> x in old(nodes)
        invariant forall x :: x in old(nodes) ==> x in nodes || x in fired
        invariant forall x, y :: x in fired && y in nodes ==> x.deadline <= y.deadline
        invariant forall i, j :: 0 <= i < j < |fired| ==> fired[i].deadline <= fired[j].deadline && fired[i] != fired[j]
        decreases count
      {
        var node := min;
        EarliestFirst(nodes);
        assert node in nodes;
        assert forall j :: 0 <= j < |nodes| ==> nodes[j] in old(nodes);
        Remove(node);
        fired := fired + [node];
      }
      if min != null { EarliestFirst(nodes); }
    }
  }

  /** The root of an ordered heap has the earliest deadline. */
  lemma EarliestFirst(s: seq<Node>)
    requires Ordered(Deadlines(s)) && s != []
    ensures forall x :: x in s ==> s[0].deadline <= x.deadline
  {
    forall x | x in s ensures s[0].deadline <= x.deadline {
      var j :| 0 <= j < |s| && s[j] == x;
      RootIsLeast(Deadlines(s), j);
    }
  }

  ghost predicate Without(a: seq<Node>, b: seq<Node>, x: Node) {
    (forall y :: y in a ==> y in b && y != x) && (forall y :: y in b ==> y == x || y in a)
  }

  /** Dropping the last node keeps the order and removes just that node. */
  lemma LastRemoved(s: seq<Node>)
    requires LinksOk(s) && s != [] && Ordered(Deadlines(s))
    ensures Ordered(Deadlines(s[..|s| - 1])) && Without(s[..|s| - 1], s, s[|s| - 1])
  {
    DistinctNodes(s);
    var q := s[..|s| - 1];
    forall j | 0 < j < |q| ensures Deadlines(q)[Parent(j)] <= Deadlines(q)[j] {
      assert Deadlines(s)[Parent(j)] <= Deadlines(s)[j];
    }
    forall y | y in s && y != s[|s| - 1] ensures y in q {
      var j :| 0 <= j < |s| && s[j] == y;
      assert q[j] == y;
    }
  }

  lemma Same(s: seq<Node>, i: nat, j: nat)
    requires Distinct(s) && i < |s| && j < |s|
    ensures s[i] == s[j] <==> i == j
  {
  }

  lemma AtEnds(s: seq<Node>, x: Node)
    ensures forall k :: At(s + [x], k) == if k == |s| then x else At(s, k)
    ensures forall k :: k >= |s| ==> At(s, k) == null
    ensures forall k :: 0 <= k < |s| ==> At(s, k) == s[k]
  {
  }

  /** What position i sees after the node at p has been replaced. */
  lemma AtUpdate(s: seq<Node>, p: nat, x: Node, i: nat)
    requires p < |s| && i < |s|
    ensures At(s[p := x], 2 * i + 1) == if 2 * i + 1 == p then x else At(s, 2 * i + 1)
    ensures At(s[p := x], 2 * i + 2) == if 2 * i + 2 == p then x else At(s, 2 * i + 2)
    ensures At(s[p := x], 0) == if p == 0 then x else At(s, 0)
    ensures i > 0 ==> (Parent(i) == p <==> i == 2 * p + 1 || i == 2 * p + 2)
  {
  }

  lemma RootAfter(s: seq<Node>, p: nat, c: nat)
    requires p < c < |s|
    ensures At(Swapped(s, p, c), 0) == if p == 0 then s[c] else At(s, 0)
    ensures s[c] == At(s, c) && s[p] == At(s, p)
  {
  }

  /** What the other positions see of an exchange. */
  lemma OthersAfter(s: seq<Node>, p: nat, c: nat, i: nat)
    requires p < c < |s| && p == Parent(c) && i < |s| && i != p && i != c
    ensures var q := Swapped(s, p, c);
            && q[i] == s[i]
            && At(q, 2 * i + 1) == (if 2 * i + 1 == p then s[c] else At(s, 2 * i + 1))
            && At(q, 2 * i + 2) == (if 2 * i + 2 == p then s[c] else At(s, 2 * i + 2))
            && (i > 0 ==>
                  q[Parent(i)] == if Parent(i) == p then s[c] else if Parent(i) == c then s[p] else s[Parent(i)])
  {
  }

  ghost predicate SameNodes(a: seq<Node>, b: seq<Node>) {
    (forall x :: x in a ==> x in b) && (forall x :: x in b ==> x in a)
  }

  lemma Positions(s: seq<Node>)
    requires LinksOk(s)
    ensures forall i :: 0 <= i < |s| ==> s[i].pos == i
  {
    forall i | 0 <= i < |s| ensures s[i].pos == i { assert LinkOk(s, i); }
  }

  lemma DistinctNodes(s: seq<Node>)
    requires LinksOk(s)
    ensures Distinct(s)
  {
    forall i, j | 0 <= i < j < |s| ensures s[i] != s[j] { assert LinkOk(s, i) && LinkOk(s, j); }
  }

  /** The nodes around a parent at p and its child at c, with the other child's position at o, are all different. */
  lemma Neighbours(s: seq<Node>, p: nat, c: nat, o: nat, u: Node?)
    requires LinksOk(s) && Distinct(s)
    requires p < c < |s| && p == Parent(c) && o == if c == 2 * p + 1 then 2 * p + 2 else 2 * p + 1
    requires u == if p == 0 then null else s[Parent(p)]
    ensures s[p].parent == u && (s[p].left == s[c] <==> c == 2 * p + 1) && (s[p].left == s[c] || s[p].right == s[c])
    ensures At(s, o) == if s[p].left == s[c] then s[p].right else s[p].left
    ensures s[c].left == At(s, 2 * c + 1) && s[c].right == At(s, 2 * c + 2) && s[p] != s[c]
    ensures s[p] !in {u, At(s, o), At(s, 2 * c + 1), At(s, 2 * c + 2)}
    ensures s[c] !in {u, At(s, o), At(s, 2 * c + 1), At(s, 2 * c + 2)}
    ensures u != null ==> u != At(s, o) && u != At(s, 2 * c + 1) && u != At(s, 2 * c + 2)
    ensures At(s, o) != null ==> At(s, o) != At(s, 2 * c + 1) && At(s, o) != At(s, 2 * c + 2)
    ensures At(s, 2 * c + 1) != null ==> At(s, 2 * c + 1) != At(s, 2 * c + 2)
    ensures u != null ==> u in s && (u.left == s[p] <==> p == 2 * Parent(p) + 1)
    ensures forall k :: k in {o, 2 * c + 1, 2 * c + 2} && At(s, k) != null ==> At(s, k) in s
  {
    assert LinkOk(s, p) && LinkOk(s, c);
    if p > 0 { assert LinkOk(s, Parent(p)); }
  }

  /** A node is one of the neighbours exactly when its position says so. */
  lemma Identify(s: seq<Node>, i: nat, p: nat, c: nat, o: nat, u: Node?)
    requires Distinct(s) && i < |s|
    requires p < c < |s| && p == Parent(c) && o == if c == 2 * p + 1 then 2 * p + 2 else 2 * p + 1
    requires u == if p == 0 then null else s[Parent(p)]
    ensures (s[i] == s[p] <==> i == p) && (s[i] == s[c] <==> i == c)
    ensures s[i] == u <==> p > 0 && i == Parent(p)
    ensures s[i] == At(s, o) <==> i == o
    ensures s[i] == At(s, 2 * c + 1) <==> i == 2 * c + 1
    ensures s[i] == At(s, 2 * c + 2) <==> i == 2 * c + 2
    ensures i > 0 && i != c ==> (Parent(i) == p <==> i == o)
    ensures i > 0 ==> (Parent(i) == c <==> i == 2 * c + 1 || i == 2 * c + 2)
  {
  }

  /** The neighbours of the node at p. */
  lemma AroundNode(s: seq<Node>, p: nat)
    requires LinksOk(s) && Distinct(s) && p < |s|
    ensures var u := s[p].parent;
            && u == (if p == 0 then null else s[Parent(p)])
            && s[p].left == At(s, 2 * p + 1) && s[p].right == At(s, 2 * p + 2)
            && s[p] !in {u, s[p].left, s[p].right}
            && (u != null ==> u != s[p].left && u != s[p].right && (u.left == s[p] <==> p == 2 * Parent(p) + 1))
            && (s[p].left != null ==> s[p].left != s[p].right && s[p].left in s)
            && (s[p].right != null ==> s[p].right in s)
  {
    assert LinkOk(s, p);
    if p > 0 { assert LinkOk(s, Parent(p)); }
  }

  lemma IdentifyAround(s: seq<Node>, i: nat, p: nat)
    requires Distinct(s) && i < |s| && p < |s|
    ensures s[i] == s[p] <==> i == p
    ensures p > 0 ==> (s[i] == s[Parent(p)] <==> i == Parent(p))
    ensures s[i] == At(s, 2 * p + 1) <==> i == 2 * p + 1
    ensures s[i] == At(s, 2 * p + 2) <==> i == 2 * p + 2
    ensures i > 0 ==> (Parent(i) == p <==> i == 2 * p + 1 || i == 2 * p + 2)
    ensures p > 0 && i == Parent(p) <==> 2 * i + 1 == p || 2 * i + 2 == p
  {
  }

  /** The links of the exchanged pair itself. */
  ghost predicate RewiredPair(s: seq<Node>, p: nat, c: nat)
    requires p < c < |s| && p == Parent(c)
    reads s[p], s[c]
  {
    var o := if c == 2 * p + 1 then 2 * p + 2 else 2 * p + 1;
    && s[p].pos == c && s[c].pos == p
    && s[p].left == At(s, 2 * c + 1) && s[p].right == At(s, 2 * c + 2) && s[p].parent == s[c]
    && s[c].parent == (if p == 0 then null else s[Parent(p)])
    && (if c == 2 * p + 1 then s[c].left == s[p] && s[c].right == At(s, o)
        else s[c].left == At(s, o) && s[c].right == s[p])
  }

  lemma PairAfter(s: seq<Node>, p: nat, c: nat, o: nat)
    requires p < c < |s| && p == Parent(c) && o == if c == 2 * p + 1 then 2 * p + 2 else 2 * p + 1
    requires s[p].pos == c && s[c].pos == p
    requires s[p].left == At(s, 2 * c + 1) && s[p].right == At(s, 2 * c + 2) && s[p].parent == s[c]
    requires s[c].parent == if p == 0 then null else s[Parent(p)]
    requires if c == 2 * p + 1 then s[c].left == s[p] && s[c].right == At(s, o)
             else s[c].left == At(s, o) && s[c].right == s[p]
    ensures RewiredPair(s, p, c)
  {
  }

  lemma RewiredPairLinks(s: seq<Node>, p: nat, c: nat)
    requires p < c < |s| && p == Parent(c) && RewiredPair(s, p, c)
    ensures LinkOk(Swapped(s, p, c), p) && LinkOk(Swapped(s, p, c), c)
  {
    var q := Swapped(s, p, c);
    assert q[p] == s[c] && q[c] == s[p];
    assert forall i :: 0 <= i < |s| && i != p && i != c ==> q[i] == s[i];
  }

  lemma Links(s: seq<Node>, x: Node)
    requires LinksOk(s) && x in s
    ensures x.pos < |s| && s[x.pos] == x
    ensures x.left == At(s, 2 * x.pos + 1) && x.right == At(s, 2 * x.pos + 2)
    ensures x.parent == if x.pos == 0 then null else s[Parent(x.pos)]
    ensures x.pos > 0 ==> x.parent != null && x.parent.pos == Parent(x.pos)
  {
    PosOf(s, x);
    if x.pos > 0 { assert LinkOk(s, Parent(x.pos)); }
  }

  lemma SwappedDeadlines(s: seq<Node>, p: nat, c: nat)
    requires p < |s| && c < |s|
    ensures Deadlines(Swapped(s, p, c)) == Swapped(Deadlines(s), p, c)
  {
  }

  lemma SwappedMembers(s: seq<Node>, p: nat, c: nat)
    requires p < |s| && c < |s|
    ensures SameNodes(Swapped(s, p, c), s)
  {
    var q := Swapped(s, p, c);
    forall x | x in s ensures x in q {
      var i :| 0 <= i < |s| && s[i] == x;
      assert q[if i == p then c else if i == c then p else i] == x;
    }
  }

  /** The positions of a node's children. */
  lemma Children(s: seq<Node>, i: nat)
    requires LinksOk(s) && i < |s|
    ensures forall j :: 0 < j < |s| && Parent(j) == i ==> j == 2 * i + 1 || j == 2 * i + 2
    ensures 2 * i + 1 < |s| ==> s[2 * i + 1].pos == 2 * i + 1 && Parent(2 * i + 1) == i
    ensures 2 * i + 2 < |s| ==> s[2 * i + 2].pos == 2 * i + 2 && Parent(2 * i + 2) == i
  {
    if 2 * i + 1 < |s| { assert LinkOk(s, 2 * i + 1); }
    if 2 * i + 2 < |s| { assert LinkOk(s, 2 * i + 2); }
  }

  /** Putting the last node in the place of the one at i removes exactly the latter. */
  lemma ReplacedNodes(s: seq<Node>, i: nat)
    requires LinksOk(s) && i < |s| - 1
    ensures Deadlines(Replaced(s, i)) == Replaced(Deadlines(s), i)
    ensures Without(Replaced(s, i), s, s[i])
  {
    DistinctNodes(s);
    var q := Replaced(s, i);
    forall x | x in s && x != s[i] ensures x in q {
      var j :| 0 <= j < |s| && s[j] == x;
      assert q[if j == |s| - 1 then i else j] == x;
    }
    forall x | x in q ensures x in s && x != s[i] {
      var j :| 0 <= j < |q| && q[j] == x;
      assert x == s[if j == i then |s| - 1 else j];
    }
  }
}
