/**
 Reachability in the script heap's object graph, as the collector sees it:
 tracing stops at an object that already carries the live mark, which is every
 object allocated since the last collection.
 */
module ScriptHeapReach {

  /** Objects are known by their addresses. */
  type Addr = nat

  /** The references each object holds, in the order they are traced. */
  type Graph = map<Addr, seq<Addr>>

  /** Consecutive objects refer to one another and none of them is in `young`. */
  ghost predicate Path(g: Graph, p: seq<Addr>, young: set<Addr>) {
    && p != [] && p[0] in g && p[0] !in young
    && (|p| > 1 ==> p[1] in g[p[0]] && Path(g, p[1..], young))
  }

  /** `x` can be traced from one of `from` through objects not in `young`, itself included. */
  ghost predicate Traced(g: Graph, from: set<Addr>, young: set<Addr>, x: Addr) {
    exists p :: Path(g, p, young) && p[0] in from && p[|p| - 1] == x
  }

  /** Plain reachability. */
  ghost predicate Reachable(g: Graph, from: set<Addr>, x: Addr) {
    Traced(g, from, {}, x)
  }

  /** What a collection keeps. */
  ghost predicate Survives(g: Graph, roots: set<Addr>, young: set<Addr>, x: Addr) {
    x in young || Traced(g, roots, young, x)
  }

  lemma TracedRoot(g: Graph, from: set<Addr>, young: set<Addr>, x: Addr)
    requires x in from && x in g && x !in young
    ensures Traced(g, from, young, x)
  {
    var p := [x];
    assert Path(g, p, young) && p[|p| - 1] == x;
  }

  lemma {:induction false} PathWeaken(g: Graph, p: seq<Addr>, young: set<Addr>, less: set<Addr>)
    requires Path(g, p, young) && less <= young
    ensures Path(g, p, less)
  {
    if |p| > 1 { PathWeaken(g, p[1..], young, less); }
  }

  /** Fewer obstacles and more starting points only add to what is traced. */
  lemma TracedWeaken(g: Graph, from: set<Addr>, more: set<Addr>, young: set<Addr>, less: set<Addr>, x: Addr)
    requires Traced(g, from, young, x) && less <= young && from <= more
    ensures Traced(g, more, less, x)
  {
    var p :| Path(g, p, young) && p[0] in from && p[|p| - 1] == x;
    PathWeaken(g, p, young, less);
  }

  /** From an object through one of its references. */
  lemma TracedThrough(g: Graph, o: Addr, child: Addr, young: set<Addr>, x: Addr)
    requires o in g && o !in young && child in g[o] && Traced(g, {child}, young, x)
    ensures Traced(g, {o}, young, x)
  {
    var p :| Path(g, p, young) && p[0] in {child} && p[|p| - 1] == x;
    var q := [o] + p;
    assert q[1..] == p;
    assert Path(g, q, young) && q[|q| - 1] == x;
  }

  /** A set that holds the roots and whose members' references it holds contains everything traced. */
  lemma {:induction false} ClosedHolds(g: Graph, p: seq<Addr>, young: set<Addr>, all: set<Addr>)
    requires Path(g, p, young) && p[0] in all
    requires forall x, y :: x in all && x in g && x !in young && y in g[x] ==> y in all
    ensures p[|p| - 1] in all
  {
    if |p| > 1 {
      ClosedHolds(g, p[1..], young, all);
      assert p[1..][|p[1..]| - 1] == p[|p| - 1];
    }
  }

  lemma {:induction false} LastIsClean(g: Graph, p: seq<Addr>, young: set<Addr>)
    requires Path(g, p, young)
    ensures p[|p| - 1] !in young && p[|p| - 1] in g
  {
    if |p| > 1 { LastIsClean(g, p[1..], young); }
  }

  lemma {:induction false} Extend(g: Graph, p: seq<Addr>, young: set<Addr>, y: Addr)
    requires Path(g, p, young) && y in g[LastOf(g, p, young)] && y in g && y !in young
    ensures Path(g, p + [y], young)
  {
    if |p| > 1 {
      assert (p + [y])[1..] == p[1..] + [y];
      Extend(g, p[1..], young, y);
    } else {
      assert (p + [y])[1..] == [y];
    }
  }

  ghost function LastOf(g: Graph, p: seq<Addr>, young: set<Addr>): (r: Addr)
    requires Path(g, p, young)
    ensures r in g && r == p[|p| - 1]
  {
    LastIsClean(g, p, young);
    p[|p| - 1]
  }

  /** Every reference leads to an object of the graph. */
  ghost predicate NoDangling(g: Graph) {
    forall x, y :: x in g && y in g[x] ==> y in g
  }

  /** One more reference further. */
  lemma TracedOn(g: Graph, from: set<Addr>, young: set<Addr>, x: Addr, y: Addr)
    requires NoDangling(g) && Traced(g, from, young, x) && x in g && y in g[x] && y !in young
    ensures Traced(g, from, young, y)
  {
    var p :| Path(g, p, young) && p[0] in from && p[|p| - 1] == x;
    Extend(g, p, young, y);
    assert (p + [y])[|p + [y]| - 1] == y;
  }

  // ---------------------------------------------------------------- when a collection is exact, and when it is safe

  /** The graph a collection leaves. */
  ghost function Collected(g: Graph, roots: set<Addr>, young: set<Addr>): Graph {
    map x | x in g && Survives(g, roots, young, x) :: g[x]
  }

  /** Whatever a young object refers to is young too or held by older objects. */
  ghost predicate YoungRefsSurvive(g: Graph, roots: set<Addr>, young: set<Addr>) {
    forall x, y :: x in young && x in g && y in g[x] && y !in young ==> Traced(g, roots, young, y)
  }

  /** No reference to a freed object is left exactly when no young object is the only holder of an older one. */
  lemma NoDanglingExactlyWhen(g: Graph, roots: set<Addr>, young: set<Addr>)
    requires NoDangling(g)
    ensures NoDangling(Collected(g, roots, young)) <==> YoungRefsSurvive(g, roots, young)
  {
    var left := Collected(g, roots, young);
    if NoDangling(left) {
      forall x, y | x in young && x in g && y in g[x] && y !in young ensures Traced(g, roots, young, y) {
        assert x in left && y in left[x] && y in left;
        assert Survives(g, roots, young, y);
      }
    }
    if YoungRefsSurvive(g, roots, young) {
      forall x, y | x in left && y in left[x] ensures y in left {
        if x !in young && y !in young { TracedOn(g, roots, young, x, y); }
      }
    }
  }

  lemma {:induction false} PathSurvives(g: Graph, roots: set<Addr>, p: seq<Addr>)
    requires NoDangling(g) && Path(g, p, {}) && Reachable(g, roots, p[0])
    ensures Path(Collected(g, roots, {}), p, {})
  {
    if |p| > 1 {
      TracedOn(g, roots, {}, p[0], p[1]);
      PathSurvives(g, roots, p[1..]);
    }
  }

  /** With nothing allocated in between, whatever a collection leaves is still reachable: a second one frees nothing. */
  lemma SecondCollectionFreesNothing(g: Graph, roots: set<Addr>, x: Addr)
    requires NoDangling(g) && x in Collected(g, roots, {})
    ensures Survives(Collected(g, roots, {}), roots, {}, x)
  {
    var p :| Path(g, p, {}) && p[0] in roots && p[|p| - 1] == x;
    TracedRoot(g, roots, {}, p[0]);
    PathSurvives(g, roots, p);
  }

  /** No reachable object is lost. */
  ghost predicate Safe(g: Graph, roots: set<Addr>, young: set<Addr>) {
    forall x :: Reachable(g, roots, x) ==> Survives(g, roots, young, x)
  }

  /** Whatever a reachable young object refers to is young too or held by older objects. */
  ghost predicate YoungHoldNothingAlone(g: Graph, roots: set<Addr>, young: set<Addr>) {
    forall x, y :: x in young && x in g && Reachable(g, roots, x) && y in g[x] && y !in young ==>
                     Traced(g, roots, young, y)
  }

  /** A collection loses nothing exactly when no reachable young object is the only holder of an older one. */
  lemma SafeExactlyWhen(g: Graph, roots: set<Addr>, young: set<Addr>)
    requires NoDangling(g)
    ensures Safe(g, roots, young) <==> YoungHoldNothingAlone(g, roots, young)
  {
    if Safe(g, roots, young) {
      forall x, y | x in young && x in g && Reachable(g, roots, x) && y in g[x] && y !in young
        ensures Traced(g, roots, young, y)
      {
        TracedOn(g, roots, {}, x, y);
        assert Survives(g, roots, young, y);
      }
    }
    if YoungHoldNothingAlone(g, roots, young) {
      forall x | Reachable(g, roots, x) ensures Survives(g, roots, young, x) {
        var p :| Path(g, p, {}) && p[0] in roots && p[|p| - 1] == x;
        if p[0] !in young { TracedRoot(g, roots, young, p[0]); }
        TracedRoot(g, roots, {}, p[0]);
        AlongPath(g, roots, young, p);
      }
    }
  }

  lemma {:induction false} AlongPath(g: Graph, roots: set<Addr>, young: set<Addr>, p: seq<Addr>)
    requires NoDangling(g) && YoungHoldNothingAlone(g, roots, young) && Path(g, p, {})
    requires Reachable(g, roots, p[0]) && Survives(g, roots, young, p[0])
    ensures Survives(g, roots, young, p[|p| - 1])
  {
    if |p| > 1 {
      TracedOn(g, roots, {}, p[0], p[1]);
      if p[1] !in young && p[0] !in young { TracedOn(g, roots, young, p[0], p[1]); }
      AlongPath(g, roots, young, p[1..]);
    }
  }

  /** A new array that is a root and alone holds an older string: the string is reachable and does not survive. */
  lemma YoungHolderLosesOld()
    ensures var g: Graph := map[1 := [2], 2 := []];
            NoDangling(g) && Reachable(g, {1}, 2) && !Survives(g, {1}, {1}, 2)
  {
    var g: Graph := map[1 := [2], 2 := []];
    TracedRoot(g, {1}, {}, 1);
    TracedOn(g, {1}, {}, 1, 2);
    assert forall p :: Path(g, p, {1}) ==> p[0] !in {1};
  }
}
