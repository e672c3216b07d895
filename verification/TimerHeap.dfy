/**
 Heap order and heap positions on a sequence: position i has children 2i + 1 and
 2i + 2. The pointer tree of TimerQueue is laid out along such a sequence.
 */
module TimerHeap {

  function Parent(i: nat): nat
    requires i > 0
  {
    (i - 1) / 2
  }

  /** The two positions exchanged by one step of sifting. */
  function Swapped<T>(s: seq<T>, p: nat, c: nat): (r: seq<T>)
    requires p < |s| && c < |s|
    ensures |r| == |s| && r[p] == s[c] && r[c] == s[p]
  {
    s[p := s[c]][c := s[p]]
  }

  ghost predicate Ordered(d: seq<int>) {
    forall j :: 0 < j < |d| ==> d[Parent(j)] <= d[j]
  }

  /** Ordered, except that the entry at i may be smaller than its parent. */
  ghost predicate OrderedUpTo(d: seq<int>, i: nat) {
    (forall j :: 0 < j < |d| && j != i ==> d[Parent(j)] <= d[j]) &&
    (forall j :: 0 < j < |d| && 0 < i < |d| && Parent(j) == i ==> d[Parent(i)] <= d[j])
  }

  /** Ordered, except that the entry at i may be out of order with its parent and its children. */
  ghost predicate OrderedAround(d: seq<int>, i: nat) {
    (forall j :: 0 < j < |d| && j != i && Parent(j) != i ==> d[Parent(j)] <= d[j]) &&
    (forall j :: 0 < j < |d| && 0 < i < |d| && Parent(j) == i ==> d[Parent(i)] <= d[j])
  }

  lemma SiftUpStep(d: seq<int>, i: nat)
    requires 0 < i < |d| && OrderedUpTo(d, i) && d[i] < d[Parent(i)]
    ensures OrderedUpTo(Swapped(d, Parent(i), i), Parent(i))
  {
    var q := Swapped(d, Parent(i), i);
    var p := Parent(i);
    forall j | 0 < j < |q| && j != p ensures q[Parent(j)] <= q[j] {
      if j != i && Parent(j) != i && Parent(j) != p { assert q[j] == d[j] && q[Parent(j)] == d[Parent(j)]; }
    }
    forall j | 0 < j < |q| && 0 < p && Parent(j) == p ensures q[Parent(p)] <= q[j] {
      assert d[Parent(p)] <= d[p];
    }
  }

  lemma SiftUpDone(d: seq<int>, i: nat)
    requires i < |d| && OrderedUpTo(d, i) && (i == 0 || d[Parent(i)] <= d[i])
    ensures Ordered(d)
  {
  }

  /** c is a child of i that is not larger than the other child. */
  ghost predicate SmallestChild(d: seq<int>, i: nat, c: nat) {
    0 < c < |d| && Parent(c) == i && forall j :: 0 < j < |d| && Parent(j) == i ==> d[c] <= d[j]
  }

  lemma SiftDownStep(d: seq<int>, i: nat, c: nat)
    requires i < |d| && OrderedAround(d, i) && SmallestChild(d, i, c) && d[c] < d[i]
    ensures OrderedAround(Swapped(d, i, c), c)
  {
    var q := Swapped(d, i, c);
    forall j | 0 < j < |q| && j != c && Parent(j) != c ensures q[Parent(j)] <= q[j] {
      if j != i && Parent(j) != i { assert q[j] == d[j] && q[Parent(j)] == d[Parent(j)]; }
    }
  }

  lemma SiftDownDone(d: seq<int>, i: nat)
    requires i < |d| && OrderedAround(d, i)
    requires forall j :: 0 < j < |d| && Parent(j) == i ==> d[i] <= d[j]
    ensures OrderedUpTo(d, i)
  {
  }

  /** The first entry of an ordered sequence is its least. */
  lemma {:induction false} RootIsLeast(d: seq<int>, j: nat)
    requires Ordered(d) && j < |d|
    ensures d[0] <= d[j]
  {
    if j > 0 { RootIsLeast(d, Parent(j)); }
  }

  /** Appending at the end, before sifting up. */
  lemma AppendOrdered(d: seq<int>, x: int)
    requires Ordered(d)
    ensures OrderedUpTo(d + [x], |d|)
  {
    forall j | 0 < j < |d + [x]| && j != |d| ensures (d + [x])[Parent(j)] <= (d + [x])[j] {
      assert (d + [x])[j] == d[j] && (d + [x])[Parent(j)] == d[Parent(j)];
    }
  }

  /** The last entry takes the place of the one at i. */
  function Replaced<T>(s: seq<T>, i: nat): seq<T>
    requires i < |s| - 1
  {
    s[..|s| - 1][i := s[|s| - 1]]
  }

  lemma ReplaceOrdered(d: seq<int>, i: nat)
    requires Ordered(d) && i < |d| - 1
    ensures OrderedAround(Replaced(d, i), i)
  {
    var q := Replaced(d, i);
    forall j | 0 < j < |q| && j != i && Parent(j) != i ensures q[Parent(j)] <= q[j] {
      assert q[j] == d[j] && q[Parent(j)] == d[Parent(j)];
    }
    forall j | 0 < j < |q| && 0 < i && Parent(j) == i ensures q[Parent(i)] <= q[j] {
      assert d[Parent(i)] <= d[i] <= d[j];
    }
  }

  // ---------------------------------------------------------------- slot addressing

  /**
   The one-based position reached from `pos` by k steps, each taking the right
   child on an odd and the left child on an even low bit of the path.
   */
  function Target(pos: nat, path: nat, k: nat): nat
    decreases k
  {
    if k == 0 then pos else Target(2 * pos + path % 2, path / 2, k - 1)
  }

  lemma {:induction false} TargetBound(pos: nat, path: nat, k: nat)
    ensures Target(pos, path, k) >= pos
    ensures k > 0 ==> Target(pos, path, k) >= 2 * pos
    decreases k
  {
    if k > 0 { TargetBound(2 * pos + path % 2, path / 2, k - 1); }
  }

  /** The bits of a position, below its leading one, collected so that they lead back to it from the root. */
  method PathTo(position: nat) returns (path: nat, k: nat)
    requires position >= 1
    ensures Target(1, path, k) == position
  {
    path, k := 0, 0;
    var n := position;
    while n >= 2
      invariant n >= 1 && Target(n, path, k) == position
    {
      assert Target(n / 2, 2 * path + n % 2, k + 1) == Target(n, path, k);
      path, k, n := 2 * path + n % 2, k + 1, n / 2;
    }
  }
}
