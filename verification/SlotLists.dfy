/**
 Lists threaded through the slots of one array: a head, a link per slot, -1 for
 the end. Each operation of the script object changes one such list, and the
 others do not notice.
 */
module SlotLists {

  import opened Octets

  function SlotAt(list: seq<nat>, i: int): int {
    if 0 <= i < |list| then list[i] else -1
  }

  ghost predicate LinkAt(next: seq<int>, list: seq<nat>, i: nat)
    requires i < |list|
  {
    list[i] < |next| && next[list[i]] == SlotAt(list, i + 1)
  }

  /** The slots of `list` follow one another from `head`. */
  ghost predicate Linked(next: seq<int>, head: int, list: seq<nat>) {
    Distinct(list) && head == SlotAt(list, 0) && forall i :: 0 <= i < |list| ==> LinkAt(next, list, i)
  }

  ghost predicate BackAt(prev: seq<int>, list: seq<nat>, i: nat)
    requires i < |list|
  {
    list[i] < |prev| && prev[list[i]] == SlotAt(list, i - 1)
  }

  /** And they can be walked backwards from `tail`. */
  ghost predicate Backed(prev: seq<int>, tail: int, list: seq<nat>) {
    Distinct(list) && tail == SlotAt(list, |list| - 1) && forall i :: 0 <= i < |list| ==> BackAt(prev, list, i)
  }

  function Without(list: seq<nat>, k: nat): seq<nat>
    requires k < |list|
  {
    list[..k] + list[k + 1..]
  }

  // ---------------------------------------------------------------- frames

  lemma LinkedFrame(next: seq<int>, head: int, list: seq<nat>, a: nat, x: int)
    requires Linked(next, head, list) && a !in list && a < |next|
    ensures Linked(next[a := x], head, list)
  {
    var n := next[a := x];
    forall i | 0 <= i < |list| ensures LinkAt(n, list, i) { assert LinkAt(next, list, i) && list[i] in list; }
  }

  lemma BackedFrame(prev: seq<int>, tail: int, list: seq<nat>, a: nat, x: int)
    requires Backed(prev, tail, list) && a !in list && a < |prev|
    ensures Backed(prev[a := x], tail, list)
  {
    var p := prev[a := x];
    forall i | 0 <= i < |list| ensures BackAt(p, list, i) { assert BackAt(prev, list, i) && list[i] in list; }
  }

  lemma LinkedGrow(next: seq<int>, more: seq<int>, head: int, list: seq<nat>)
    requires Linked(next, head, list)
    ensures Linked(next + more, head, list)
  {
    forall i | 0 <= i < |list| ensures LinkAt(next + more, list, i) { assert LinkAt(next, list, i); }
  }

  lemma BackedGrow(prev: seq<int>, more: seq<int>, tail: int, list: seq<nat>)
    requires Backed(prev, tail, list)
    ensures Backed(prev + more, tail, list)
  {
    forall i | 0 <= i < |list| ensures BackAt(prev + more, list, i) { assert BackAt(prev, list, i); }
  }

  // ---------------------------------------------------------------- at the ends

  lemma LinkedPush(next: seq<int>, head: int, list: seq<nat>, a: nat)
    requires Linked(next, head, list) && a !in list && a < |next|
    ensures Linked(next[a := head], a, [a] + list)
  {
    var longer, n := [a] + list, next[a := head];
    forall i | 0 <= i < |longer| ensures LinkAt(n, longer, i) {
      if i > 0 {
        assert LinkAt(next, list, i - 1) && longer[i] == list[i - 1] && SlotAt(longer, i + 1) == SlotAt(list, i);
      }
    }
  }

  lemma LinkedPop(next: seq<int>, head: int, list: seq<nat>)
    requires Linked(next, head, list) && list != []
    ensures head == list[0] && list[0] < |next| && Linked(next, next[list[0]], list[1..]) && list[0] !in list[1..]
  {
    assert LinkAt(next, list, 0);
    forall i | 0 <= i < |list[1..]| ensures LinkAt(next, list[1..], i) { assert LinkAt(next, list, i + 1); }
  }

  lemma LinkedAppend(next: seq<int>, head: int, list: seq<nat>, a: nat)
    requires Linked(next, head, list) && a !in list && a < |next|
    ensures list == [] ==> Linked(next[a := -1], a, [a])
    ensures list != [] ==>
              list[|list| - 1] < |next| && Linked(next[a := -1][list[|list| - 1] := a], head, list + [a])
  {
    if list != [] {
      var longer, last := list + [a], list[|list| - 1];
      assert LinkAt(next, list, |list| - 1);
      var n := next[a := -1][last := a];
      forall i | 0 <= i < |longer| ensures LinkAt(n, longer, i) {
        if i < |list| { assert LinkAt(next, list, i) && longer[i] == list[i] && list[i] != a; }
        if i < |list| - 1 { assert list[i] != last; }
      }
    }
  }

  lemma BackedAppend(prev: seq<int>, tail: int, list: seq<nat>, a: nat)
    requires Backed(prev, tail, list) && a !in list && a < |prev|
    ensures Backed(prev[a := tail], a, list + [a])
  {
    var longer, p := list + [a], prev[a := tail];
    forall i | 0 <= i < |longer| ensures BackAt(p, longer, i) {
      if i < |list| { assert BackAt(prev, list, i) && longer[i] == list[i] && list[i] != a; }
    }
  }

  // ---------------------------------------------------------------- in the middle

  lemma WithoutIs(list: seq<nat>, k: nat, i: nat)
    requires k < |list| && i < |list| - 1
    ensures Without(list, k)[i] == list[if i < k then i else i + 1]
    ensures SlotAt(Without(list, k), i + 1) == SlotAt(list, if i + 1 < k then i + 1 else i + 2)
    ensures SlotAt(Without(list, k), i - 1) == SlotAt(list, if i <= k then i - 1 else i)
  {
  }

  lemma WithoutMembers(list: seq<nat>, k: nat)
    requires k < |list| && Distinct(list)
    ensures Distinct(Without(list, k))
    ensures forall a :: a in Without(list, k) <==> a in list && a != list[k]
  {
    var w := Without(list, k);
    forall i, j | 0 <= i < j < |w| ensures w[i] != w[j] { WithoutIs(list, k, i); WithoutIs(list, k, j); }
    forall a | a in w ensures a in list && a != list[k] {
      var i :| 0 <= i < |w| && w[i] == a;
      WithoutIs(list, k, i);
    }
    forall a | a in list && a != list[k] ensures a in w {
      var j :| 0 <= j < |list| && list[j] == a;
      WithoutIs(list, k, if j < k then j else j - 1);
    }
  }

  /** Unlinking slot number `k`: the one before it, or the head, takes over its link. */
  lemma LinkedRemove(next: seq<int>, head: int, list: seq<nat>, k: nat)
    requires Linked(next, head, list) && k < |list|
    ensures list[k] < |next|
    ensures k == 0 ==> Linked(next, next[list[0]], Without(list, 0))
    ensures k > 0 ==> list[k - 1] < |next| && Linked(next[list[k - 1] := next[list[k]]], head, Without(list, k))
  {
    var w := Without(list, k);
    assert LinkAt(next, list, k);
    WithoutMembers(list, k);
    if k > 0 { assert LinkAt(next, list, k - 1); }
    var n := if k == 0 then next else next[list[k - 1] := next[list[k]]];
    forall i | 0 <= i < |w| ensures LinkAt(n, w, i) {
      WithoutIs(list, k, i);
      assert LinkAt(next, list, if i < k then i else i + 1);
    }
  }

  lemma BackedRemove(prev: seq<int>, tail: int, list: seq<nat>, k: nat)
    requires Backed(prev, tail, list) && k < |list|
    ensures list[k] < |prev|
    ensures k == |list| - 1 ==> Backed(prev, prev[list[k]], Without(list, k))
    ensures k < |list| - 1 ==>
              list[k + 1] < |prev| && Backed(prev[list[k + 1] := prev[list[k]]], tail, Without(list, k))
  {
    var w := Without(list, k);
    assert BackAt(prev, list, k);
    WithoutMembers(list, k);
    if k < |list| - 1 { assert BackAt(prev, list, k + 1); }
    var p := if k == |list| - 1 then prev else prev[list[k + 1] := prev[list[k]]];
    forall i | 0 <= i < |w| ensures BackAt(p, w, i) {
      WithoutIs(list, k, i);
      assert BackAt(prev, list, if i < k then i else i + 1);
    }
  }
}
