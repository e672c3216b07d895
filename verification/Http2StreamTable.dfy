/**
 The table of active HTTP/2 streams: open addressing with linear probing and
 backward-shift deletion over a power-of-two array of buckets, at most half full.
 It is shown to be a finite map from stream ids to streams.
 */
module Http2StreamTable {

  import opened Octets

  datatype Bucket<T> = Free | Used(id: nat, stream: T)

  /** Multiplicative hash of a 32-bit stream id. */
  function HashStreamId(id: nat): nat {
    var v: bv32 := ((id * 2654435761) % 0x1_0000_0000) as bv32;
    (v ^ (v >> 16)) as nat
  }

  /** The slot where probing for `id` starts; the mask of the source is the remainder by a power of two. */
  function Home(id: nat, n: nat): (h: nat)
    requires n > 0
    ensures h < n
  {
    HashStreamId(id) % n
  }

  function Next(i: nat, n: nat): nat
    requires i < n
  {
    if i + 1 == n then 0 else i + 1
  }

  /** How many probes lead from one slot to another, wrapping at the end of the array. */
  function ProbeDistance(from: nat, to: nat, n: nat): nat
    requires from < n && to < n
  {
    if to >= from then to - from else n - from + to
  }

  predicate ShouldShift(hole: nat, current: nat, home: nat, n: nat)
    requires hole < n && current < n && home < n
  {
    ProbeDistance(home, hole, n) < ProbeDistance(home, current, n)
  }

  // ---------------------------------------------------------------- the table as a map

  predicate UniqueIds<T>(b: seq<Bucket<T>>) {
    forall i, j :: 0 <= i < |b| && 0 <= j < |b| && b[i].Used? && b[j].Used? && b[i].id == b[j].id ==> i == j
  }

  /** Slot x lies on the probe path that leads from the home of slot i's id to slot i. */
  predicate OnPath<T>(b: seq<Bucket<T>>, x: nat, i: nat)
    requires x < |b| && i < |b| && b[i].Used?
  {
    var home := Home(b[i].id, |b|);
    ProbeDistance(home, x, |b|) < ProbeDistance(home, i, |b|)
  }

  /** No free slot lies between an entry's home and the entry itself. */
  predicate NoGaps<T>(b: seq<Bucket<T>>) {
    forall i, x :: 0 <= i < |b| && 0 <= x < |b| && b[i].Used? && OnPath(b, x, i) ==> b[x].Used?
  }

  ghost function Ids<T>(b: seq<Bucket<T>>): set<nat> {
    set i | 0 <= i < |b| && b[i].Used? :: b[i].id
  }

  ghost function SlotOf<T>(b: seq<Bucket<T>>, id: nat): (i: nat)
    requires id in Ids(b)
    ensures i < |b| && b[i].Used? && b[i].id == id
  {
    var i :| 0 <= i < |b| && b[i].Used? && b[i].id == id;
    i
  }

  /** The map from ids to streams that the buckets hold. */
  ghost function Contents<T>(b: seq<Bucket<T>>): map<nat, T> {
    map id | id in Ids(b) :: b[SlotOf(b, id)].stream
  }

  function CountUsed<T>(b: seq<Bucket<T>>): nat {
    if b == [] then 0 else CountUsed(b[..|b| - 1]) + (if b[|b| - 1].Used? then 1 else 0)
  }

  lemma {:induction false} CountUpdate<T>(b: seq<Bucket<T>>, i: nat, v: Bucket<T>)
    requires i < |b|
    ensures CountUsed(b[i := v]) == CountUsed(b) - (if b[i].Used? then 1 else 0) + (if v.Used? then 1 else 0)
  {
    var n := |b| - 1;
    if i < n {
      CountUpdate(b[..n], i, v);
      assert b[i := v][..n] == b[..n][i := v];
    } else {
      assert b[i := v][..n] == b[..n];
    }
  }

  lemma {:induction false} FullCount<T>(b: seq<Bucket<T>>)
    requires forall i :: 0 <= i < |b| ==> b[i].Used?
    ensures CountUsed(b) == |b|
  {
    if b != [] { FullCount(b[..|b| - 1]); }
  }

  lemma SomeFree<T>(b: seq<Bucket<T>>) returns (f: nat)
    requires CountUsed(b) < |b|
    ensures f < |b| && b[f].Free?
  {
    if forall i :: 0 <= i < |b| ==> b[i].Used? { FullCount(b); }
    f :| f < |b| && b[f].Free?;
  }

  // ---------------------------------------------------------------- probing

  /** The first `probed` slots from the home of `id` hold other ids. */
  predicate Probed<T>(b: seq<Bucket<T>>, id: nat, probed: nat)
    requires |b| > 0
  {
    forall x :: 0 <= x < |b| && ProbeDistance(Home(id, |b|), x, |b|) < probed ==> b[x].Used? && b[x].id != id
  }

  /** A free slot, or a full round, after unsuccessful probes means the id is not in the table. */
  lemma ProbeMiss<T>(b: seq<Bucket<T>>, id: nat, probed: nat, idx: nat)
    requires UniqueIds(b) && NoGaps(b) && |b| > 0 && idx < |b| && Probed(b, id, probed)
    requires probed == |b| || (probed == ProbeDistance(Home(id, |b|), idx, |b|) && b[idx].Free?)
    ensures id !in Contents(b)
  {
    hide HashStreamId;
    forall i | 0 <= i < |b| && b[i].Used? ensures b[i].id != id {
      assert OnPath(b, idx, i) ==> b[idx].Used?;
    }
  }

  lemma ProbeStep<T>(b: seq<Bucket<T>>, id: nat, probed: nat, idx: nat)
    requires |b| > 0 && idx < |b| && Probed(b, id, probed)
    requires probed == ProbeDistance(Home(id, |b|), idx, |b|) && b[idx].Used? && b[idx].id != id
    ensures Probed(b, id, probed + 1)
    ensures probed + 1 < |b| ==> ProbeDistance(Home(id, |b|), Next(idx, |b|), |b|) == probed + 1
  {
    hide Home;
    var home := Home(id, |b|);
    assert home < |b|;
  }

  lemma Lookup<T>(b: seq<Bucket<T>>, i: nat)
    requires UniqueIds(b) && i < |b| && b[i].Used?
    ensures b[i].id in Contents(b) && Contents(b)[b[i].id] == b[i].stream
  {
  }

  // ---------------------------------------------------------------- insertion

  lemma InsertKeeps<T>(b: seq<Bucket<T>>, id: nat, stream: T, probed: nat, idx: nat)
    requires UniqueIds(b) && NoGaps(b) && |b| > 0 && idx < |b| && b[idx].Free?
    requires Probed(b, id, probed) && probed == ProbeDistance(Home(id, |b|), idx, |b|)
    ensures var q := b[idx := Used(id, stream)];
            UniqueIds(q) && NoGaps(q) && id !in Contents(b) && Contents(q) == Contents(b)[id := stream]
  {
    hide Home;
    ProbeMiss(b, id, probed, idx);
    var q := b[idx := Used(id, stream)];
    forall i | 0 <= i < |b| && b[i].Used? ensures b[i].id != id { Lookup(b, i); }
    forall i, x | 0 <= i < |q| && 0 <= x < |q| && q[i].Used? && OnPath(q, x, i) ensures q[x].Used? {
      if i != idx && x != idx { assert OnPath(b, x, i); }
    }
    InsertContents(b, id, stream, idx);
  }

  lemma InsertContents<T>(b: seq<Bucket<T>>, id: nat, stream: T, idx: nat)
    requires UniqueIds(b) && idx < |b| && b[idx].Free? && UniqueIds(b[idx := Used(id, stream)])
    ensures Contents(b[idx := Used(id, stream)]) == Contents(b)[id := stream]
  {
    var q := b[idx := Used(id, stream)];
    var m := Contents(b)[id := stream];
    assert q[idx].Used? && q[idx].id == id;
    forall k | k in Contents(q) ensures k in m && m[k] == Contents(q)[k] {
      var i := SlotOf(q, k);
      Lookup(q, i);
      if i != idx {
        Lookup(b, i);
        assert b[i] == q[i] && k != id;
      } else {
        assert k == id;
      }
    }
    forall k | k in m ensures k in Contents(q) {
      var i := if k == id then idx else SlotOf(b, k);
      Lookup(q, i);
    }
  }

  // ---------------------------------------------------------------- backward-shift deletion

  /**
   The table while a deletion is under way: slot `hole` is to be read as free.
   Between the hole and `current` everything is occupied, and nothing there has
   the hole on its probe path.
   */
  predicate Shifting<T>(v: seq<Bucket<T>>, hole: nat, current: nat)
    requires hole < |v| && current < |v|
  {
    && v[hole].Free?
    && UniqueIds(v)
    && (forall x :: 0 <= x < |v| && 0 < ProbeDistance(hole, x, |v|) < ProbeDistance(hole, current, |v|) ==> v[x].Used?)
    && (forall i, x :: 0 <= i < |v| && 0 <= x < |v| && v[i].Used? && OnPath(v, x, i) ==> v[x].Used? || x == hole)
    && (forall i :: 0 <= i < |v| && v[i].Used? && ProbeDistance(hole, i, |v|) < ProbeDistance(hole, current, |v|) ==>
          !OnPath(v, hole, i))
  }

  /** Opening the hole. */
  lemma ShiftStarts<T>(b: seq<Bucket<T>>, hole: nat)
    requires UniqueIds(b) && NoGaps(b) && hole < |b| && |b| > 1 && b[hole].Used?
    ensures Shifting(b[hole := Free], hole, Next(hole, |b|))
  {
    hide Home;
    var v := b[hole := Free];
    forall i, x | 0 <= i < |v| && 0 <= x < |v| && v[i].Used? && OnPath(v, x, i) ensures v[x].Used? || x == hole {
      assert OnPath(b, x, i);
    }
  }

  /** The entry at `current` does not have the hole on its path and stays. */
  lemma ShiftSkips<T>(v: seq<Bucket<T>>, hole: nat, current: nat)
    requires hole < |v| && current < |v| && hole != current && Next(current, |v|) != hole
    requires Shifting(v, hole, current) && v[current].Used?
    requires !ShouldShift(hole, current, Home(v[current].id, |v|), |v|)
    ensures Shifting(v, hole, Next(current, |v|))
  {
    hide Home;
    var n := |v|;
    assert ProbeDistance(hole, Next(current, n), n) == ProbeDistance(hole, current, n) + 1;
    forall i | 0 <= i < n && v[i].Used? && ProbeDistance(hole, i, n) < ProbeDistance(hole, Next(current, n), n)
      ensures !OnPath(v, hole, i)
    {
      if i != current { assert ProbeDistance(hole, i, n) < ProbeDistance(hole, current, n); }
    }
  }

  function Moved<T>(v: seq<Bucket<T>>, hole: nat, current: nat): seq<Bucket<T>>
    requires hole < |v| && current < |v|
  {
    v[hole := v[current]][current := Free]
  }

  /** The entry at `current` has the hole on its path: it moves into the hole and leaves a new one. */
  lemma ShiftMoves<T>(v: seq<Bucket<T>>, hole: nat, current: nat)
    requires hole < |v| && current < |v| && hole != current && |v| > 1
    requires Shifting(v, hole, current) && v[current].Used?
    requires ShouldShift(hole, current, Home(v[current].id, |v|), |v|)
    ensures var q := Moved(v, hole, current);
            Shifting(q, current, Next(current, |v|)) && Contents(q) == Contents(v)
  {
    hide Home;
    var n := |v|;
    var q := Moved(v, hole, current);
    forall i, x | 0 <= i < n && 0 <= x < n && q[i].Used? && OnPath(q, x, i) ensures q[x].Used? || x == current {
      if i == hole {
        assert OnPath(v, x, current);
      } else {
        assert q[i] == v[i] && OnPath(v, x, i);
      }
    }
    MovedContents(v, hole, current);
  }

  lemma MovedContents<T>(v: seq<Bucket<T>>, hole: nat, current: nat)
    requires hole < |v| && current < |v| && hole != current && UniqueIds(v) && v[hole].Free? && v[current].Used?
    ensures UniqueIds(Moved(v, hole, current)) && Contents(Moved(v, hole, current)) == Contents(v)
  {
    var q := Moved(v, hole, current);
    forall k | k in Contents(q) ensures k in Contents(v) && Contents(v)[k] == Contents(q)[k] {
      var i := SlotOf(q, k);
      Lookup(v, if i == hole then current else i);
    }
    forall k | k in Contents(v) ensures k in Contents(q) {
      var i := SlotOf(v, k);
      Lookup(q, if i == current then hole else i);
    }
  }

  /** When the run of occupied slots ends, the hole can be left free. */
  lemma ShiftEnds<T>(v: seq<Bucket<T>>, hole: nat, current: nat)
    requires hole < |v| && current < |v| && hole != current && Shifting(v, hole, current) && v[current].Free?
    ensures NoGaps(v)
  {
    hide Home;
    var n := |v|;
    forall i | 0 <= i < n && v[i].Used? ensures !OnPath(v, hole, i) {
      if ProbeDistance(hole, i, n) >= ProbeDistance(hole, current, n) {
        assert i != current;
        assert OnPath(v, hole, i) ==> OnPath(v, current, i);
      }
    }
  }

  lemma RemovedContents<T>(b: seq<Bucket<T>>, hole: nat)
    requires UniqueIds(b) && hole < |b| && b[hole].Used?
    ensures UniqueIds(b[hole := Free]) && Contents(b[hole := Free]) == Contents(b) - {b[hole].id}
  {
    var v := b[hole := Free];
    var m := Contents(b) - {b[hole].id};
    forall k | k in Contents(v) ensures k in m && m[k] == Contents(v)[k] {
      var i := SlotOf(v, k);
      Lookup(b, i);
    }
    forall k | k in m ensures k in Contents(v) {
      var i := SlotOf(b, k);
      Lookup(v, i);
    }
  }

  // ---------------------------------------------------------------- the table object

  predicate IsPowerOfTwo(n: nat) {
    n == 1 || (n > 1 && n % 2 == 0 && IsPowerOfTwo(n / 2))
  }

  /** The smallest power of two that is not below `value`. */
  method NextPow2(value: nat) returns (out: nat)
    ensures IsPowerOfTwo(out) && out >= value && (out == 1 || out / 2 < value)
  {
    if value <= 1 { return 1; }
    out := 1;
    while out < value
      invariant IsPowerOfTwo(out) && (out == 1 || out / 2 < value)
      decreases value - out
    {
      out := out * 2;
    }
  }

  class StreamTable<T(0)> {
    var buckets: array<Bucket<T>>
    var size: nat
    var maxActive: nat

    ghost predicate Valid()
      reads this, buckets
    {
      && UniqueIds(buckets[..]) && NoGaps(buckets[..])
      && size == CountUsed(buckets[..]) && size <= maxActive
      && (maxActive == 0 ==> buckets.Length == 0)
      && (maxActive > 0 ==> 2 * maxActive <= buckets.Length && IsPowerOfTwo(buckets.Length))
    }

    /** The finite map this table stands for. */
    ghost function View(): map<nat, T>
      reads this, buckets
    {
      Contents(buckets[..])
    }

    /** init: room for `maxActiveStreams` streams in at least twice as many buckets. */
    constructor (maxActiveStreams: nat)
      ensures Valid() && fresh(buckets) && View() == map[] && maxActive == maxActiveStreams
    {
      var n := 0;
      if maxActiveStreams > 0 { n := NextPow2(maxActiveStreams * 2); }
      buckets := new Bucket<T>[n](_ => Free);
      size := 0;
      maxActive := maxActiveStreams;
      new;
      NoneUsed(buckets[..]);
      assert Ids(buckets[..]) == {};
    }

    /** find_slot: the slot of `id`, or the number of buckets. */
    method FindSlot(id: nat) returns (slot: nat)
      requires Valid()
      ensures slot <= buckets.Length
      ensures slot < buckets.Length ==> buckets[slot].Used? && buckets[slot].id == id
      ensures slot == buckets.Length <==> id !in View()
    {
      hide HashStreamId, NoGaps, CountUsed;
      var n := buckets.Length;
      if n == 0 { return n; }
      var idx: nat := Home(id, n);
      var probed: nat := 0;
      while probed < n
        invariant idx < n && 0 <= probed <= n && Probed(buckets[..], id, probed)
        invariant probed < n ==> probed == ProbeDistance(Home(id, n), idx, n)
      {
        if buckets[idx].Free? {
          ProbeMiss(buckets[..], id, probed, idx);
          return n;
        }
        if buckets[idx].id == id {
          Lookup(buckets[..], idx);
          return idx;
        }
        ProbeStep(buckets[..], id, probed, idx);
        idx := Next(idx, n);
        probed := probed + 1;
      }
      ProbeMiss(buckets[..], id, probed, idx);
      return n;
    }

    method Find(id: nat) returns (r: Option<T>)
      requires Valid()
      ensures r == if id in View() then Some(View()[id]) else None
    {
      var slot := FindSlot(id);
      if slot == buckets.Length { return None; }
      Lookup(buckets[..], slot);
      return Some(buckets[slot].stream);
    }

    /** insert: refused at capacity and for an id that is present, otherwise the map gains one binding. */
    method Insert(id: nat, stream: T) returns (ok: bool)
      requires Valid()
      modifies this`size, buckets
      ensures Valid() && buckets == old(buckets)
      ensures ok <==> old(size) < maxActive && id !in old(View())
      ensures View() == if ok then old(View())[id := stream] else old(View())
      ensures size == old(size) + if ok then 1 else 0
    {
      hide HashStreamId, NoGaps, CountUsed;
      var n := buckets.Length;
      if n == 0 || size >= maxActive { return false; }
      var idx: nat := Home(id, n);
      var probed: nat := 0;
      while probed < n
        invariant idx < n && 0 <= probed <= n && Probed(buckets[..], id, probed)
        invariant probed < n ==> probed == ProbeDistance(Home(id, n), idx, n)
        invariant buckets[..] == old(buckets[..]) && size == old(size)
      {
        if buckets[idx].Free? {
          InsertKeeps(buckets[..], id, stream, probed, idx);
          CountUpdate(buckets[..], idx, Used(id, stream));
          buckets[idx] := Used(id, stream);
          assert buckets[..] == old(buckets[..])[idx := Used(id, stream)];
          size := size + 1;
          return true;
        }
        if buckets[idx].id == id {
          Lookup(buckets[..], idx);
          return false;
        }
        ProbeStep(buckets[..], id, probed, idx);
        idx := Next(idx, n);
        probed := probed + 1;
      }
      FullRound(buckets[..], id);
      assert false;
    }

    /** erase: the binding of `id` goes and nothing else changes. */
    method Erase(id: nat) returns (r: Option<T>)
      requires Valid()
      modifies this`size, buckets
      ensures Valid() && buckets == old(buckets)
      ensures r == if id in old(View()) then Some(old(View())[id]) else None
      ensures View() == old(View()) - {id}
      ensures size == old(size) - if id in old(View()) then 1 else 0
    {
      var slot := FindSlot(id);
      if slot == buckets.Length { return None; }
      Lookup(buckets[..], slot);
      r := Some(buckets[slot].stream);
      EraseAt(slot);
    }

    /**
     erase_at: entries behind the freed slot move back over it when it lies on
     their probe path. The walk ends at a free bucket, of which there always is one.
     */
    method EraseAt(index: nat)
      requires Valid() && index < buckets.Length && buckets[index].Used?
      modifies this`size, buckets
      ensures Valid() && buckets == old(buckets)
      ensures View() == old(View()) - {old(buckets[index].id)}
      ensures size == old(size) - 1
    {
      hide Home, NoGaps, CountUsed, UniqueIds, Contents, OnPath;
      var n := buckets.Length;
      ghost var b := buckets[..];
      ghost var free := SomeFreeSlot(b, size, maxActive, index);
      RemovedContents(b, index);
      CountUpdate(b, index, Free);
      ShiftStarts(b, index);
      var hole: nat := index;
      var current: nat := Next(hole, n);
      ghost var v := b[index := Free];
      while buckets[current].Used?
        invariant hole < n && current < n && hole != current
        invariant |v| == n && v == buckets[..][hole := Free]
        invariant Shifting(v, hole, current)
        invariant Contents(v) == old(View()) - {old(buckets[index].id)}
        invariant CountUsed(v) == old(size) - 1 && size == old(size)
        invariant free < n && free != hole && v[free].Free?
        invariant ProbeDistance(hole, current, n) <= ProbeDistance(hole, free, n)
        decreases ProbeDistance(current, free, n)
      {
        var home := Home(buckets[current].id, n);
        assert v[current] == buckets[current];
        if ShouldShift(hole, current, home, n) {
          ShiftMoves(v, hole, current);
          MovedCount(v, hole, current);
          buckets[hole] := buckets[current];
          v := Moved(v, hole, current);
          hole := current;
        } else {
          ShiftSkips(v, hole, current);
        }
        current := Next(current, n);
      }
      ShiftEnds(v, hole, current);
      buckets[hole] := Free;
      assert buckets[..] == v;
      size := size - 1;
      ShiftingUnique(v, hole, current);
    }
  }

  lemma {:induction false} NoneUsed<T>(b: seq<Bucket<T>>)
    requires forall i :: 0 <= i < |b| ==> b[i].Free?
    ensures CountUsed(b) == 0
  {
    if b != [] { NoneUsed(b[..|b| - 1]); }
  }

  /** A full round of used buckets would leave no bucket free. */
  lemma FullRound<T>(b: seq<Bucket<T>>, id: nat)
    requires |b| > 0 && Probed(b, id, |b|)
    ensures CountUsed(b) == |b|
  {
    hide Home;
    assert Home(id, |b|) < |b|;
    FullCount(b);
  }

  lemma SomeFreeSlot<T>(b: seq<Bucket<T>>, size: nat, maxActive: nat, index: nat) returns (f: nat)
    requires size == CountUsed(b) && size <= maxActive && 2 * maxActive <= |b| && index < |b| && b[index].Used?
    ensures f < |b| && b[f].Free? && |b| > 1
  {
    CountUpdate(b, index, Free);
    f := SomeFree(b);
  }

  lemma MovedCount<T>(v: seq<Bucket<T>>, hole: nat, current: nat)
    requires hole < |v| && current < |v| && hole != current && v[hole].Free? && v[current].Used?
    ensures CountUsed(Moved(v, hole, current)) == CountUsed(v)
  {
    CountUpdate(v, hole, v[current]);
    CountUpdate(v[hole := v[current]], current, Free);
  }

  lemma ShiftingUnique<T>(v: seq<Bucket<T>>, hole: nat, current: nat)
    requires hole < |v| && current < |v| && Shifting(v, hole, current)
    ensures UniqueIds(v)
  {
  }
}
