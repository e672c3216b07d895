/**
 The script heap: objects linked into one list, a mark colour that flips with
 every collection, recursive marking from the roots, and the sweep that unlinks
 and frees what was not marked.
 */
module ScriptHeap {
  import opened Octets
  import opened ScriptHeapReach

  /** An object's header and what it refers to. Address 0 is the null pointer. */
  datatype Cell = Cell(mark: bool, refs: seq<Addr>, size: nat, next: Addr)

  type Store = map<Addr, Cell>

  function GraphOf(store: Store): Graph {
    map a | a in store :: store[a].refs
  }

  /** The objects that carry a mark. */
  function Carrying(store: Store, mark: bool): set<Addr> {
    set a | a in store && store[a].mark == mark
  }

  /** Two stores that differ in marks only. */
  ghost predicate SameButMarks(s: Store, t: Store) {
    s.Keys == t.Keys &&
    forall a :: a in s ==> s[a].refs == t[a].refs && s[a].size == t[a].size && s[a].next == t[a].next
  }

  // ---------------------------------------------------------------- the list

  function At(list: seq<Addr>, i: int): Addr {
    if 0 <= i < |list| then list[i] else 0
  }

  /** The objects hang together in this order. */
  ghost predicate Linked(store: Store, head: Addr, list: seq<Addr>) {
    && Distinct(list) && head == At(list, 0)
    && (forall i :: 0 <= i < |list| ==> LinkAt(store, list, i))
    && (forall a :: a in store ==> a in list)
  }

  ghost predicate LinkAt(store: Store, list: seq<Addr>, i: nat)
    requires i < |list|
  {
    list[i] in store && list[i] != 0 && store[list[i]].next == At(list, i + 1)
  }

  predicate AllIn(store: Store, list: seq<Addr>) {
    forall i :: 0 <= i < |list| ==> list[i] in store
  }

  function SizeOf(store: Store, list: seq<Addr>): nat
    requires AllIn(store, list)
  {
    if list == [] then 0 else store[list[0]].size + SizeOf(store, list[1..])
  }

  /** The part of a list in a set. */
  ghost function Kept(list: seq<Addr>, keep: set<Addr>): seq<Addr> {
    if list == [] then []
    else if list[0] in keep then [list[0]] + Kept(list[1..], keep)
    else Kept(list[1..], keep)
  }

  lemma {:induction false} KeptMembers(list: seq<Addr>, keep: set<Addr>)
    ensures forall a :: a in Kept(list, keep) <==> a in list && a in keep
  {
    if list != [] {
      KeptMembers(list[1..], keep);
      assert list == [list[0]] + list[1..];
    }
  }

  lemma {:induction false} SizeOfConcat(store: Store, a: seq<Addr>, b: seq<Addr>)
    requires AllIn(store, a) && AllIn(store, b)
    ensures SizeOf(store, a + b) == SizeOf(store, a) + SizeOf(store, b)
  {
    if a == [] {
      assert a + b == b;
    } else {
      assert (a + b)[1..] == a[1..] + b;
      SizeOfConcat(store, a[1..], b);
    }
  }

  lemma {:induction false} SizeOfSame(s: Store, t: Store, list: seq<Addr>)
    requires forall i :: 0 <= i < |list| ==> list[i] in s && list[i] in t && s[list[i]].size == t[list[i]].size
    ensures SizeOf(s, list) == SizeOf(t, list)
  {
    if list != [] { SizeOfSame(s, t, list[1..]); }
  }

  /** Unlinking the object after `kept` and freeing it. */
  function Unlinked(store: Store, kept: seq<Addr>, a: Addr): Store
    requires a in store && (kept != [] ==> kept[|kept| - 1] in store)
  {
    (if kept == [] then store else
       var prev := kept[|kept| - 1];
       store[prev := store[prev].(next := store[a].next)]) - {a}
  }

  /** Where an element of the shortened list was before. */
  function Was(i: nat, k: nat): nat { if i < k then i else i + 1 }

  lemma ShorterIs(kept: seq<Addr>, rest: seq<Addr>, i: nat)
    requires rest != [] && i < |kept + rest[1..]|
    ensures (kept + rest[1..])[i] == (kept + rest)[Was(i, |kept|)] && Was(i, |kept|) < |kept + rest|
    ensures At(kept + rest[1..], i + 1) == At(kept + rest, if i + 1 < |kept| then i + 1 else i + 2)
  {
  }

  lemma ShorterDistinct(kept: seq<Addr>, rest: seq<Addr>)
    requires rest != [] && Distinct(kept + rest)
    ensures Distinct(kept + rest[1..]) && rest[0] !in kept + rest[1..]
    ensures forall a :: a in kept + rest && a != rest[0] ==> a in kept + rest[1..]
  {
    var list, shorter := kept + rest, kept + rest[1..];
    assert list[|kept|] == rest[0];
    forall i, j | 0 <= i < j < |shorter| ensures shorter[i] != shorter[j] {
      ShorterIs(kept, rest, i);
      ShorterIs(kept, rest, j);
    }
    forall i | 0 <= i < |shorter| ensures shorter[i] != rest[0] {
      ShorterIs(kept, rest, i);
    }
    assert rest == [rest[0]] + rest[1..];
  }

  lemma ShorterLink(store: Store, head: Addr, kept: seq<Addr>, rest: seq<Addr>, i: nat)
    requires Linked(store, head, kept + rest) && rest != [] && i < |kept + rest[1..]|
    requires rest[0] in store && (kept != [] ==> kept[|kept| - 1] in store)
    ensures LinkAt(Unlinked(store, kept, rest[0]), kept + rest[1..], i)
  {
    var list, k := kept + rest, |kept|;
    ShorterIs(kept, rest, i);
    var j := Was(i, k);
    assert list[k] == rest[0] && list[j] != rest[0];
    assert k > 0 ==> list[k - 1] == kept[k - 1];
    assert LinkAt(store, list, k) && LinkAt(store, list, j);
  }

  lemma UnlinkKeepsLinks(store: Store, head: Addr, kept: seq<Addr>, rest: seq<Addr>)
    requires Linked(store, head, kept + rest) && rest != []
    ensures (kept != [] ==> kept[|kept| - 1] in store) && rest[0] in store
    ensures Linked(Unlinked(store, kept, rest[0]), if kept == [] then store[rest[0]].next else head, kept + rest[1..])
  {
    var list, shorter, k := kept + rest, kept + rest[1..], |kept|;
    assert list[k] == rest[0] && (k > 0 ==> list[k - 1] == kept[k - 1] && list[0] == kept[0]);
    assert LinkAt(store, list, k) && (k > 0 ==> LinkAt(store, list, k - 1));
    ShorterDistinct(kept, rest);
    forall i | 0 <= i < |shorter| ensures LinkAt(Unlinked(store, kept, rest[0]), shorter, i) {
      ShorterLink(store, head, kept, rest, i);
    }
  }

  /** Linking a new object in front. */
  lemma LinkFront(store: Store, head: Addr, list: seq<Addr>, a: Addr, cell: Cell)
    requires Linked(store, head, list) && a != 0 && a !in store && cell.next == head
    ensures Linked(store[a := cell], a, [a] + list)
    ensures AllIn(store, list) && AllIn(store[a := cell], [a] + list)
    ensures SizeOf(store[a := cell], [a] + list) == cell.size + SizeOf(store, list)
  {
    var longer, t := [a] + list, store[a := cell];
    assert longer[1..] == list;
    forall i | 0 <= i < |list| ensures list[i] in store && list[i] != a { assert LinkAt(store, list, i); }
    SizeOfSame(store, t, list);
    forall i | 0 <= i < |longer| ensures LinkAt(t, longer, i) {
      if i > 0 { assert LinkAt(store, list, i - 1) && longer[i] == list[i - 1] && At(longer, i + 1) == At(list, i); }
    }
    forall b | b in t ensures b in longer {
      if b != a { assert b in list; }
    }
  }

  /** Marking one object. */
  function WithMark(store: Store, o: Addr, mark: bool): Store
    requires o in store
  {
    store[o := store[o].(mark := mark)]
  }

  lemma MarkOne(store: Store, o: Addr, live: bool)
    requires o in store && store[o].mark != live
    ensures var t := WithMark(store, o, live);
            && SameButMarks(store, t) && GraphOf(t) == GraphOf(store)
            && Carrying(t, live) == Carrying(store, live) + {o}
            && Carrying(t, !live) == Carrying(store, !live) - {o}
  {
  }

  lemma GraphDomain(store: Store, o: Addr)
    requires o in store
    ensures o in GraphOf(store) && GraphOf(store)[o] == store[o].refs
    ensures GraphOf(store).Keys == store.Keys
    ensures forall m :: o in Carrying(store, m) <==> store[o].mark == m
  {
  }

  lemma Fewer(a: set<Addr>, b: set<Addr>)
    requires a < b
    ensures |a| < |b|
  {
    assert |b - a| > 0;
    assert b == a + (b - a);
  }

  // ---------------------------------------------------------------- marking

  /** What marking from some objects adds to the marked ones. */
  ghost predicate MarksFrom(g: Graph, before: set<Addr>, from: set<Addr>, after: set<Addr>) {
    && before <= after
    && (forall x :: x in after && x !in before ==> x in g && Traced(g, from, before, x))
    && (forall x, y :: x in after && x !in before && x in g && y in g[x] ==> y in after)
  }

  /** Marking one thing after another. */
  lemma MarksThen(g: Graph, m0: set<Addr>, from: set<Addr>, m1: set<Addr>, more: set<Addr>, m2: set<Addr>)
    requires MarksFrom(g, m0, from, m1) && MarksFrom(g, m1, more, m2)
    ensures MarksFrom(g, m0, from + more, m2)
  {
    forall x | x in m2 && x !in m0 ensures x in g && Traced(g, from + more, m0, x) {
      if x in m1 { TracedWeaken(g, from, from + more, m0, m0, x); }
      else { TracedWeaken(g, more, from + more, m1, m0, x); }
    }
  }

  /** An object and everything marked from its references. */
  lemma MarksObject(g: Graph, m0: set<Addr>, o: Addr, m2: set<Addr>)
    requires o in g && o !in m0
    requires MarksFrom(g, m0 + {o}, Children(g, o), m2) && Children(g, o) <= m2
    ensures MarksFrom(g, m0, {o}, m2)
  {
    TracedRoot(g, {o}, m0, o);
    forall x | x in m2 && x !in m0 ensures x in g && Traced(g, {o}, m0, x) {
      if x != o {
        TracedWeaken(g, Children(g, o), Children(g, o), m0 + {o}, m0, x);
        TracedFromChildren(g, o, m0, x);
      }
    }
  }

  ghost function Children(g: Graph, o: Addr): set<Addr>
    requires o in g
  {
    set y | y in g[o]
  }

  lemma TracedFromChildren(g: Graph, o: Addr, young: set<Addr>, x: Addr)
    requires o in g && o !in young && Traced(g, Children(g, o), young, x)
    ensures Traced(g, {o}, young, x)
  {
    var p :| Path(g, p, young) && p[0] in Children(g, o) && p[|p| - 1] == x;
    assert Traced(g, {p[0]}, young, x);
    TracedThrough(g, o, p[0], young, x);
  }

  /** Complete marking from the roots reaches exactly what can be traced. */
  lemma MarksExactly(g: Graph, young: set<Addr>, roots: set<Addr>, after: set<Addr>, x: Addr)
    requires MarksFrom(g, young, roots, after) && roots <= after && young <= g.Keys
    ensures x in after <==> Survives(g, roots, young, x)
  {
    if x !in young && Traced(g, roots, young, x) {
      var p :| Path(g, p, young) && p[0] in roots && p[|p| - 1] == x;
      ClosedHolds(g, p, young, after);
    }
  }

  class Heap {
    var store: Store
    var head: Addr
    var bytes: nat
    var liveMark: bool
    /** The linked objects in order, and those allocated since the last collection. */
    ghost var list: seq<Addr>
    ghost var young: set<Addr>

    /** Every object carries the live mark unless it is young, and `bytes` is the sum of the sizes. */
    ghost predicate Valid()
      reads this
    {
      && Linked(store, head, list) && AllIn(store, list) && bytes == SizeOf(store, list)
      && young == Carrying(store, !liveMark)
    }

    constructor ()
      ensures Valid() && store == map[] && young == {}
    {
      store, head, bytes, liveMark, list, young := map[], 0, 0, false, [], {};
    }

    /** gc_alloc_raw and gc_link: the new object does not carry the live mark. */
    method Allocate(a: Addr, refs: seq<Addr>, size: nat)
      requires Valid() && a != 0 && a !in store
      modifies this
      ensures Valid() && list == [a] + old(list) && young == old(young) + {a} && liveMark == old(liveMark)
      ensures store.Keys == old(store).Keys + {a} && bytes == old(bytes) + size
      ensures GraphOf(store) == GraphOf(old(store))[a := refs]
    {
      hide Linked, SizeOf;
      LinkFront(store, head, list, a, Cell(!liveMark, refs, size, head));
      store := store[a := Cell(!liveMark, refs, size, head)];
      head := a;
      bytes := bytes + size;
      list, young := [a] + list, young + {a};
    }

    /** gc_mark_obj: depth first; an object that carries the live mark is not entered. */
    method MarkObject(o: Addr)
      requires o in store && NoDangling(GraphOf(store))
      modifies this`store
      ensures SameButMarks(old(store), store) && GraphOf(store) == GraphOf(old(store))
      ensures MarksFrom(GraphOf(store), Carrying(old(store), liveMark), {o}, Carrying(store, liveMark))
      ensures o in Carrying(store, liveMark) && Carrying(store, !liveMark) <= Carrying(old(store), !liveMark)
      decreases |Carrying(store, !liveMark)|
    {
      hide GraphOf, Carrying, NoDangling, MarksFrom, SameButMarks;
      ghost var g, m0, s0 := GraphOf(store), Carrying(store, liveMark), store;
      GraphDomain(store, o);
      MarksNone(g, m0, {o});
      SameSelf(store);
      if store[o].mark == liveMark { return; }
      MarkOne(store, o, liveMark);
      ghost var unmarked := Carrying(store, !liveMark) - {o};
      Fewer(unmarked, Carrying(store, !liveMark));
      store := WithMark(store, o, liveMark);
      MarksNone(g, m0 + {o}, {});
      assert FirstChildren(g, o, 0) == {};
      var i := 0;
      while i < |store[o].refs|
        invariant o in store && store[o].refs == g[o] && 0 <= i <= |g[o]|
        invariant SameButMarks(s0, store) && GraphOf(store) == g
        invariant MarksFrom(g, m0 + {o}, FirstChildren(g, o, i), Carrying(store, liveMark))
        invariant FirstChildren(g, o, i) <= Carrying(store, liveMark)
        invariant Carrying(store, !liveMark) <= unmarked
      {
        ghost var m1, s1 := Carrying(store, liveMark), store;
        RefsInside(store, o, i);
        NotMore(Carrying(store, !liveMark), unmarked);
        MarkObject(store[o].refs[i]);
        SameThrough(s0, s1, store, o);
        MarksThen(g, m0 + {o}, FirstChildren(g, o, i), m1, {g[o][i]}, Carrying(store, liveMark));
        MarksGrow(g, m1, {g[o][i]}, Carrying(store, liveMark));
        assert FirstChildren(g, o, i + 1) == FirstChildren(g, o, i) + {g[o][i]};
        i := i + 1;
      }
      assert FirstChildren(g, o, i) == Children(g, o);
      MarksGrow(g, m0 + {o}, Children(g, o), Carrying(store, liveMark));
      MarksObject(g, m0, o, Carrying(store, liveMark));
    }

    /** gc_collect: flips the mark, marks from the roots, frees what does not carry it. */
    method Collect(roots: seq<Addr>)
      requires Valid() && NoDangling(GraphOf(store)) && forall i :: 0 <= i < |roots| ==> roots[i] in store
      modifies this
      ensures Valid() && young == {} && liveMark == !old(liveMark)
      ensures forall a :: a in store <==> a in old(store) && Survives(GraphOf(old(store)), ToSet(roots), old(young), a)
      ensures forall a :: a in store ==> store[a].refs == old(store)[a].refs && store[a].size == old(store)[a].size
      ensures list == Kept(old(list), store.Keys)
      ensures NoDangling(GraphOf(store)) <==> YoungRefsSurvive(GraphOf(old(store)), ToSet(roots), old(young))
      ensures old(young) == {} ==>
                && (forall a :: a in store <==> Reachable(GraphOf(old(store)), ToSet(roots), a))
                && NoDangling(GraphOf(store))
    {
      hide Linked, GraphOf, Carrying, NoDangling, MarksFrom, SizeOf, Kept, Traced;
      ghost var g := GraphOf(store);
      liveMark := !liveMark;
      MarkRoots(roots);
      ghost var marked := Carrying(store, liveMark);
      GraphKeys(old(store), old(young), !old(liveMark));
      forall a ensures a in marked <==> Survives(g, ToSet(roots), old(young), a) {
        MarksExactly(g, old(young), ToSet(roots), marked, a);
      }
      MarkedKeepsList(old(store), store, head, list);
      Sweep();
      CollectedIs(old(store), store, ToSet(roots), old(young));
      NoDanglingExactlyWhen(g, ToSet(roots), old(young));
    }

    /** The sweep: walks the list, unlinking and freeing every object without the live mark. */
    method Sweep()
      requires Linked(store, head, list) && AllIn(store, list) && bytes == SizeOf(store, list)
      modifies this`store, this`head, this`bytes, this`list, this`young
      ensures Valid() && young == {} && store.Keys == Carrying(old(store), liveMark)
      ensures list == Kept(old(list), Carrying(old(store), liveMark)) && SubStore(store, old(store))
    {
      hide Linked, SizeOf, Kept, SubStore, Unlinked;
      ghost var s0, keep := store, Carrying(store, liveMark);
      ghost var done, kept, rest: seq<Addr> := [], [], list;
      SweepStart(store, head, keep, list);
      var prev, cur := 0, head;
      LinkedHead(store, head, [], list);
      while cur != 0
        invariant SweepInv(s0, store, head, old(list), done, kept, rest, keep)
        invariant AllIn(store, kept + rest) && bytes == SizeOf(store, kept + rest)
        invariant cur == At(rest, 0) && prev == At(kept, |kept| - 1) && keep == Carrying(s0, liveMark)
        decreases |rest|
      {
        SweepAt(s0, store, head, old(list), done, kept, rest, keep, liveMark);
        var next := store[cur].next;
        if store[cur].mark != liveMark {
          ghost var was := store;
          SweepFrees(s0, store, head, old(list), done, kept, rest, keep);
          if prev == 0 {
            head := next;
          } else {
            store := store[prev := store[prev].(next := next)];
          }
          bytes := bytes - store[cur].size;
          store := store - {cur};
          assert store == Unlinked(was, kept, cur) by { UnlinkedIs(was, kept, cur); }
        } else {
          SweepKeeps(s0, store, head, old(list), done, kept, rest, keep);
          prev := cur;
          kept := kept + [cur];
        }
        done, rest := done + [cur], rest[1..];
        cur := next;
      }
      SweepEnds(s0, store, head, old(list), done, kept, rest, keep, liveMark);
      list, young := kept, {};
    }

    method MarkRoots(roots: seq<Addr>)
      requires NoDangling(GraphOf(store)) && forall i :: 0 <= i < |roots| ==> roots[i] in store
      modifies this`store
      ensures SameButMarks(old(store), store) && GraphOf(store) == GraphOf(old(store))
      ensures MarksFrom(GraphOf(store), Carrying(old(store), liveMark), ToSet(roots), Carrying(store, liveMark))
      ensures ToSet(roots) <= Carrying(store, liveMark)
    {
      hide GraphOf, Carrying, NoDangling, MarksFrom;
      ghost var g, m0 := GraphOf(store), Carrying(store, liveMark);
      MarksNone(g, m0, {});
      assert ToSet(roots[..0]) == {};
      var i := 0;
      while i < |roots|
        invariant 0 <= i <= |roots| && SameButMarks(old(store), store) && GraphOf(store) == g
        invariant MarksFrom(g, m0, ToSet(roots[..i]), Carrying(store, liveMark))
        invariant ToSet(roots[..i]) <= Carrying(store, liveMark)
      {
        ghost var m1 := Carrying(store, liveMark);
        MarkObject(roots[i]);
        MarksThen(g, m0, ToSet(roots[..i]), m1, {roots[i]}, Carrying(store, liveMark));
        MarksGrow(g, m1, {roots[i]}, Carrying(store, liveMark));
        assert ToSet(roots[..i + 1]) == ToSet(roots[..i]) + {roots[i]} by {
          assert roots[..i + 1] == roots[..i] + [roots[i]];
        }
        i := i + 1;
      }
      assert roots[..i] == roots;
    }
  }

  // ---------------------------------------------------------------- sweeping

  /** The objects of `s` are objects of `t` with the same contents. */
  ghost predicate SubStore(s: Store, t: Store) {
    forall a :: a in s ==> a in t && s[a].refs == t[a].refs && s[a].size == t[a].size && s[a].mark == t[a].mark
  }

  /** In the middle of a sweep: `done` has been looked at, `kept` is what stays of it, `rest` is still to come. */
  ghost predicate SweepInv(s0: Store, store: Store, head: Addr, all: seq<Addr>, done: seq<Addr>, kept: seq<Addr>,
                           rest: seq<Addr>, keep: set<Addr>) {
    && all == done + rest && kept == Kept(done, keep)
    && Linked(store, head, kept + rest) && SubStore(store, s0) && keep <= s0.Keys && (forall a :: a in s0 ==> a in all)
  }

  lemma LinkedHead(store: Store, head: Addr, kept: seq<Addr>, rest: seq<Addr>)
    requires Linked(store, head, kept + rest)
    ensures kept == [] ==> head == At(rest, 0)
  {
    assert kept == [] ==> kept + rest == rest;
  }

  lemma SweepStart(store: Store, head: Addr, keep: set<Addr>, list: seq<Addr>)
    requires Linked(store, head, list) && keep <= store.Keys
    ensures SweepInv(store, store, head, list, [], [], list, keep) && [] + list == list
  {
    assert [] + list == list;
  }

  /** Only the end of the list is null. */
  lemma OnlyEndIsNull(store: Store, head: Addr, kept: seq<Addr>, rest: seq<Addr>)
    requires Linked(store, head, kept + rest)
    ensures rest == [] <==> At(rest, 0) == 0
  {
    if rest != [] { assert LinkAt(store, kept + rest, |kept|) && (kept + rest)[|kept|] == rest[0]; }
  }

  lemma UnlinkedIs(store: Store, kept: seq<Addr>, a: Addr)
    requires a in store && (kept != [] ==> kept[|kept| - 1] in store)
    ensures kept == [] ==> Unlinked(store, kept, a) == store - {a}
    ensures kept != [] ==>
              var prev := kept[|kept| - 1];
              Unlinked(store, kept, a) == store[prev := store[prev].(next := store[a].next)] - {a}
  {
  }

  /** The object at hand, its successor and its predecessor. */
  lemma SweepAt(s0: Store, store: Store, head: Addr, all: seq<Addr>, done: seq<Addr>, kept: seq<Addr>,
                rest: seq<Addr>, keep: set<Addr>, live: bool)
    requires SweepInv(s0, store, head, all, done, kept, rest, keep) && At(rest, 0) != 0 && keep == Carrying(s0, live)
    ensures rest != [] && rest[0] in store && store[rest[0]].next == At(rest[1..], 0)
    ensures store[rest[0]].mark == live <==> rest[0] in keep
    ensures kept != [] ==> kept[|kept| - 1] in store && kept[|kept| - 1] != 0 && kept[|kept| - 1] != rest[0]
  {
    hide Kept;
    var list, k := kept + rest, |kept|;
    assert LinkAt(store, list, k) && list[k] == rest[0];
    assert At(list, k + 1) == At(rest[1..], 0);
    if k > 0 { assert LinkAt(store, list, k - 1) && list[k - 1] == kept[k - 1]; }
  }

  lemma {:induction false} KeptSnoc(done: seq<Addr>, a: Addr, keep: set<Addr>)
    ensures Kept(done + [a], keep) == Kept(done, keep) + if a in keep then [a] else []
  {
    if done == [] {
      assert done + [a] == [a] && [a][1..] == [];
    } else {
      assert (done + [a])[1..] == done[1..] + [a];
      KeptSnoc(done[1..], a, keep);
    }
  }

  lemma SweepKeeps(s0: Store, store: Store, head: Addr, all: seq<Addr>, done: seq<Addr>, kept: seq<Addr>,
                   rest: seq<Addr>, keep: set<Addr>)
    requires SweepInv(s0, store, head, all, done, kept, rest, keep) && rest != [] && rest[0] in keep
    ensures SweepInv(s0, store, head, all, done + [rest[0]], kept + [rest[0]], rest[1..], keep)
    ensures kept + [rest[0]] + rest[1..] == kept + rest
  {
    hide Linked, SubStore, Kept;
    KeptSnoc(done, rest[0], keep);
    assert done + [rest[0]] + rest[1..] == done + rest;
    assert kept + [rest[0]] + rest[1..] == kept + rest;
  }

  lemma SweepFrees(s0: Store, store: Store, head: Addr, all: seq<Addr>, done: seq<Addr>, kept: seq<Addr>,
                   rest: seq<Addr>, keep: set<Addr>)
    requires SweepInv(s0, store, head, all, done, kept, rest, keep) && rest != [] && rest[0] !in keep
    ensures rest[0] in store && (kept != [] ==> kept[|kept| - 1] in store)
    ensures var t := Unlinked(store, kept, rest[0]);
            var h := if kept == [] then store[rest[0]].next else head;
            && SweepInv(s0, t, h, all, done + [rest[0]], kept, rest[1..], keep)
            && AllIn(store, kept + rest) && AllIn(t, kept + rest[1..])
            && SizeOf(store, kept + rest) == store[rest[0]].size + SizeOf(t, kept + rest[1..])
  {
    hide Kept, SizeOf;
    KeptSnoc(done, rest[0], keep);
    assert done + [rest[0]] + rest[1..] == done + rest;
    UnlinkKeepsLinks(store, head, kept, rest);
    SizeUnlinked(store, head, kept, rest);
    FreedContents(s0, store, kept, rest[0]);
  }

  lemma FreedContents(s0: Store, store: Store, kept: seq<Addr>, a: Addr)
    requires a in store && (kept != [] ==> kept[|kept| - 1] in store) && SubStore(store, s0)
    ensures SubStore(Unlinked(store, kept, a), s0) && SubStore(Unlinked(store, kept, a), store)
  {
  }

  lemma LinkedAllIn(store: Store, head: Addr, list: seq<Addr>)
    requires Linked(store, head, list)
    ensures AllIn(store, list)
  {
    forall i | 0 <= i < |list| ensures list[i] in store { assert LinkAt(store, list, i); }
  }

  lemma SizeUnlinked(store: Store, head: Addr, kept: seq<Addr>, rest: seq<Addr>)
    requires Linked(store, head, kept + rest) && rest != []
    ensures rest[0] in store && (kept != [] ==> kept[|kept| - 1] in store)
    ensures var t := Unlinked(store, kept, rest[0]);
            && AllIn(store, kept + rest) && AllIn(t, kept + rest[1..])
            && SizeOf(store, kept + rest) == store[rest[0]].size + SizeOf(t, kept + rest[1..])
  {
    hide Linked;
    UnlinkKeepsLinks(store, head, kept, rest);
    var t := Unlinked(store, kept, rest[0]);
    LinkedAllIn(store, head, kept + rest);
    LinkedAllIn(t, if kept == [] then store[rest[0]].next else head, kept + rest[1..]);
    PartsIn(store, kept, rest);
    SizeOfConcat(store, kept, rest);
    SizeOfConcat(store, kept, rest[1..]);
    FreedContents(store, store, kept, rest[0]);
    SizeOfSame(store, t, kept + rest[1..]);
  }

  lemma PartsIn(store: Store, kept: seq<Addr>, rest: seq<Addr>)
    requires AllIn(store, kept + rest)
    ensures AllIn(store, kept) && AllIn(store, rest)
    ensures rest != [] ==> AllIn(store, rest[1..]) && AllIn(store, kept + rest[1..])
  {
    forall i | 0 <= i < |kept| ensures kept[i] in store { assert (kept + rest)[i] == kept[i]; }
    forall i | 0 <= i < |rest| ensures rest[i] in store { assert (kept + rest)[|kept| + i] == rest[i]; }
  }

  lemma SweepEnds(s0: Store, store: Store, head: Addr, all: seq<Addr>, done: seq<Addr>, kept: seq<Addr>,
                  rest: seq<Addr>, keep: set<Addr>, live: bool)
    requires SweepInv(s0, store, head, all, done, kept, rest, keep) && At(rest, 0) == 0 && keep == Carrying(s0, live)
    ensures kept + rest == kept && kept == Kept(all, keep) && Linked(store, head, kept) && SubStore(store, s0)
    ensures store.Keys == keep && Carrying(store, !live) == {}
  {
    hide Kept, LinkAt;
    OnlyEndIsNull(store, head, kept, rest);
    assert rest == [] && done + rest == done && kept + rest == kept;
    KeptMembers(done, keep);
    LinkedAllIn(store, head, kept);
    forall a | a in keep ensures a in store { assert a in all && a in kept; }
    forall a | a in store ensures a in keep { assert a in kept; }
  }

  /** Marking leaves the list and the sizes as they are. */
  lemma MarkedKeepsList(s: Store, t: Store, head: Addr, list: seq<Addr>)
    requires Linked(s, head, list) && SameButMarks(s, t) && AllIn(s, list)
    ensures Linked(t, head, list) && AllIn(t, list) && SizeOf(t, list) == SizeOf(s, list)
  {
    forall i | 0 <= i < |list| ensures LinkAt(t, list, i) { assert LinkAt(s, list, i); }
    SizeOfSame(s, t, list);
  }

  lemma GraphKeys(store: Store, young: set<Addr>, mark: bool)
    requires young == Carrying(store, mark)
    ensures young <= GraphOf(store).Keys
  {
  }

  ghost function ToSet(s: seq<Addr>): set<Addr> {
    set a | a in s
  }

  /** The store a collection leaves, as a graph; without young objects it is what the roots reach. */
  lemma CollectedIs(s: Store, t: Store, roots: set<Addr>, young: set<Addr>)
    requires forall a :: a in t <==> a in s && Survives(GraphOf(s), roots, young, a)
    requires forall a :: a in t ==> t[a].refs == s[a].refs
    ensures GraphOf(t) == Collected(GraphOf(s), roots, young)
    ensures young == {} ==> forall a :: Reachable(GraphOf(s), roots, a) ==> a in t
  {
    var g := GraphOf(s);
    if young == {} {
      forall a | Reachable(g, roots, a) ensures a in t {
        var p :| Path(g, p, {}) && p[0] in roots && p[|p| - 1] == a;
        LastIsClean(g, p, {});
        assert Survives(g, roots, young, a);
      }
    }
  }

  lemma MarksGrow(g: Graph, m0: set<Addr>, from: set<Addr>, m1: set<Addr>)
    requires MarksFrom(g, m0, from, m1)
    ensures m0 <= m1
  {
  }

  lemma MarksNone(g: Graph, m: set<Addr>, from: set<Addr>)
    ensures MarksFrom(g, m, from, m)
  {
  }

  lemma SameSelf(s: Store)
    ensures SameButMarks(s, s)
  {
  }

  lemma SameThrough(s: Store, t: Store, u: Store, o: Addr)
    requires SameButMarks(s, t) && SameButMarks(t, u) && o in t
    ensures SameButMarks(s, u) && o in u && u[o].refs == t[o].refs
  {
  }

  lemma RefsInside(store: Store, o: Addr, i: nat)
    requires NoDangling(GraphOf(store)) && o in store && i < |store[o].refs|
    ensures store[o].refs[i] in store
  {
    GraphDomain(store, o);
    var y := store[o].refs[i];
    assert y in GraphOf(store)[o];
  }

  lemma NotMore(a: set<Addr>, b: set<Addr>)
    requires a <= b
    ensures |a| <= |b|
  {
    if a != b { Fewer(a, b); }
  }

  /** The first `i` references of an object. */
  ghost function FirstChildren(g: Graph, o: Addr, i: nat): set<Addr>
    requires o in g && i <= |g[o]|
  {
    set k | 0 <= k < i :: g[o][k]
  }
}
