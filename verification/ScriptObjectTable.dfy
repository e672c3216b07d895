/**
 The object itself: its fields, and the operations that rewire them in place.
 The fields of a slot are kept side by side, one list per field.
 */
module ScriptObjectTable {
  import opened Octets
  import opened JsonLex
  import opened JsonStream
  import opened SlotLists
  import opened ScriptObject
  import Http2StreamTable

  const MIN_BUCKETS: nat := 8

  /** Buckets for that many entries at a load of at most three quarters. */
  method BucketCount(entries: nat) returns (r: nat)
    ensures entries > 0 ==> r >= MIN_BUCKETS && 3 * r >= 4 * entries && Http2StreamTable.IsPowerOfTwo(r)
    ensures entries == 0 ==> r == 0
  {
    if entries == 0 { return 0; }
    var needed := (entries * 4 + 2) / 3;
    if needed < MIN_BUCKETS { needed := MIN_BUCKETS; }
    r := Http2StreamTable.NextPow2(needed);
  }

  /** The slots' fields, side by side; all lists are as long as the capacity. */
  datatype Slots = Slots(keys: seq<Units>, values: seq<Value>, hashes: seq<nat>, nextBucket: seq<int>,
                         prevOrder: seq<int>, nextOrder: seq<int>, nextFree: seq<int>, occupied: seq<bool>)

  predicate Even(s: Slots) {
    var n := |s.keys|;
    |s.values| == n && |s.hashes| == n && |s.nextBucket| == n && |s.prevOrder| == n && |s.nextOrder| == n &&
    |s.nextFree| == n && |s.occupied| == n
  }

  class Table {
    var slots: Slots
    var count: nat
    var size: nat
    var version: nat
    var head: int
    var tail: int
    var freeHead: int
    var buckets: seq<int>
    /** The slots in insertion order, the free slots, and the slots of each bucket. */
    ghost var order: seq<nat>
    ghost var free: seq<nat>
    ghost var chains: seq<seq<nat>>

    ghost predicate Valid()
      reads this
    {
      && Even(slots) && UseOk(slots.occupied, count, order, free) && KeysOk(slots.keys, slots.hashes, order)
      && Linked(slots.nextOrder, head, order) && Backed(slots.prevOrder, tail, order) && size == |order|
      && Linked(slots.nextFree, freeHead, free)
      && (forall a :: a in Used(order) ==> a < |slots.hashes|)
      && ChainsOk(slots.nextBucket, buckets, slots.hashes, Used(order), chains)
    }

    /** What the object holds: its members in insertion order. */
    ghost function View(): seq<Member>
      requires Valid()
      reads this
    {
      Members(order, slots.keys, slots.values)
    }

    /** gc_new_object: empty slots for that many members, and buckets to match. */
    constructor (capacity: nat)
      ensures Valid() && View() == [] && |slots.keys| == capacity
      ensures capacity == 0 ==> buckets == []
      ensures capacity > 0 ==> |buckets| >= MIN_BUCKETS && 3 * |buckets| >= 4 * capacity
    {
      var n := BucketCount(capacity);
      var links: seq<int> := Filled(capacity, -1);
      slots := Slots(Filled(capacity, []), Filled(capacity, Null), Filled(capacity, 0), links, links, links, links,
                     Filled(capacity, false));
      count, size, version, head, tail, freeHead, buckets := 0, 0, 0, -1, -1, -1, Filled(n, -1);
      order, free, chains := [], [], Filled(n, []);
    }

    /** find_entry_index: walks the chain of the key's bucket. */
    method FindEntry(key: Units) returns (r: int)
      requires Valid()
      ensures r == -1 ==> forall i :: 0 <= i < |order| ==> order[i] < |slots.keys| && slots.keys[order[i]] != key
      ensures r != -1 ==> 0 <= r < |slots.keys| && r in order && slots.keys[r] == key
    {
      hide Hash, Linked, Backed, UseOk, Distinct;
      if |buckets| == 0 {
        EmptyOrder(order);
        return -1;
      }
      var hash := Hash(key);
      var b := hash % |buckets|;
      ghost var chain, k := chains[b], 0;
      assert ChainOk(slots.nextBucket, buckets, slots.hashes, Used(order), chain, b);
      r := buckets[b];
      ChainFirst(slots.nextBucket, buckets[b], chain);
      while r != -1
        invariant 0 <= k <= |chain| && r == SlotAt(chain, k)
        invariant forall j :: 0 <= j < k ==>
                      chain[j] < |slots.keys| && !(slots.hashes[chain[j]] == hash && slots.keys[chain[j]] == key)
        decreases |chain| - k
      {
        assert chain[k] in chain;
        ChainNext(slots.nextBucket, buckets[b], chain, k);
        if slots.hashes[r] == hash && slots.keys[r] == key { return; }
        r := slots.nextBucket[r];
        k := k + 1;
      }
      forall i | 0 <= i < |order| ensures order[i] < |slots.keys| && slots.keys[order[i]] != key {
        NotInChain(slots.keys, slots.hashes, order, chain, |buckets|, key, i);
      }
    }

    /** gc_object_get. */
    method Get(key: Units) returns (r: Option<Value>)
      requires Valid()
      ensures r == Lookup(View(), key)
    {
      hide Hash, Linked, Backed, UseOk, ChainsOk;
      var a := FindEntry(key);
      MembersDistinct(order, slots.keys, slots.values, slots.hashes);
      if a == -1 {
        LookupNowhere(View(), key);
        return None;
      }
      ghost var k := IndexOf(order, a);
      LookupAt(View(), k);
      return Some(slots.values[a]);
    }

    /** grow_entries: more slots, the old ones as they were. */
    method GrowEntries(capacity: nat)
      requires Valid() && capacity >= |slots.keys|
      modifies this
      ensures Valid() && View() == old(View()) && |slots.keys| == capacity
      ensures buckets == old(buckets) && size == old(size) && count == old(count)
    {
      hide Hash, Linked, Backed, ChainsOk, UseOk, KeysOk, Members, Used;
      var moreKeys, moreValues, zeros, links, unused := BlankSlots(capacity - |slots.keys|);
      SlotsGrow(slots.keys, moreKeys, slots.hashes, zeros, slots.occupied, unused, order, free, count);
      MembersGrow(order, slots.keys, slots.values, moreKeys, moreValues);
      ListsGrow(slots.nextOrder, head, slots.prevOrder, tail, order, slots.nextFree, freeHead, free, links);
      ChainsGrow(slots.nextBucket, links, buckets, slots.hashes, zeros, Used(order), chains);
      slots := Slots(slots.keys + moreKeys, slots.values + moreValues, slots.hashes + zeros, slots.nextBucket + links,
                     slots.prevOrder + links, slots.nextOrder + links, slots.nextFree + links, slots.occupied + unused);
    }

    /** rehash_buckets: every slot in use is pushed onto its new bucket, in slot order. */
    method RehashBuckets(n: nat)
      requires Valid() && n > 0
      modifies this`buckets, this`slots, this`chains
      ensures Valid() && View() == old(View()) && |buckets| == n && |slots.keys| == |old(slots).keys|
    {
      hide Hash, Linked, Backed, ChainsOk, KeysOk;
      var heads: seq<int> := Filled(n, -1);
      ghost var sorted: seq<seq<nat>> := Filled(n, []);
      ChainsEmpty(slots.nextBucket, slots.hashes, n);
      var links := slots.nextBucket;
      var i := 0;
      assert SlotsBefore(order, 0) == {};
      while i < count
        invariant 0 <= i <= count && |links| == |slots.keys| && |heads| == n && slots == old(slots)
        invariant SlotsBefore(order, i) <= Used(order)
        invariant ChainsOk(links, heads, slots.hashes, SlotsBefore(order, i), sorted)
      {
        SlotsBeforeNext(slots.occupied, count, order, free, i);
        if !slots.occupied[i] {
          ChainsFrame(links, heads, slots.hashes, SlotsBefore(order, i), sorted, i, -1);
          links := links[i := -1];
        } else {
          ChainsInsert(links, heads, slots.hashes, SlotsBefore(order, i), sorted, i, slots.hashes[i]);
          assert slots.hashes[i := slots.hashes[i]] == slots.hashes;
          var b := slots.hashes[i] % n;
          links := links[i := heads[b]];
          heads := heads[b := i];
          sorted := sorted[b := [i] + sorted[b]];
        }
        i := i + 1;
      }
      SlotsBeforeAll(slots.occupied, count, order, free);
      slots, buckets, chains := slots.(nextBucket := links), heads, sorted;
    }

    /** gc_object_reserve: afterwards there is a slot and a bucket for `expected` members. */
    method Reserve(expected: nat)
      requires Valid()
      modifies this
      ensures Valid() && View() == old(View()) && |slots.keys| >= expected && size == old(size)
      ensures expected > 0 ==> |buckets| > 0
    {
      hide Hash, Linked, Backed, ChainsOk, UseOk, KeysOk;
      var capacity := if |slots.keys| == 0 then 1 else |slots.keys|;
      if expected > capacity {
        while capacity < expected
          invariant capacity >= 1 && capacity >= |slots.keys|
          decreases expected - capacity
        {
          capacity := capacity * 2;
        }
        GrowEntries(capacity);
      } else if |slots.keys| == 0 && expected > 0 {
        GrowEntries(expected);
      }
      var wanted := BucketCount(if expected < size then size else expected);
      if wanted > |buckets| { RehashBuckets(wanted); }
    }

    /** allocate_entry: the first free slot, or the next one never used. After Reserve there is one. */
    method AllocateEntry() returns (a: nat)
      requires Valid() && |slots.keys| > size
      modifies this`freeHead, this`slots, this`count, this`free
      ensures Even(slots) && UseOk(slots.occupied, count, order, [a] + free) && Linked(slots.nextFree, freeHead, free)
      ensures a < count && a !in order && a !in free && slots == old(slots).(nextFree := slots.nextFree)
    {
      hide Hash, Backed, ChainsOk, KeysOk;
      if freeHead != -1 {
        a := freeHead;
        FreeTaken(slots.nextFree, freeHead, free);
        LinkedFrame(slots.nextFree, slots.nextFree[a], free[1..], a, -1);
        assert free == [a] + free[1..] && a in free;
        freeHead := slots.nextFree[a];
        slots := slots.(nextFree := slots.nextFree[a := -1]);
        free := free[1..];
      } else {
        assert free == [];
        a := count;
        count := count + 1;
      }
    }

    /** The part of gc_object_set that adds a member: fills a slot and links it into its bucket and the order. */
    method Insert(key: Units, v: Value)
      requires Valid() && |slots.keys| > size && |buckets| > 0
      requires forall i :: 0 <= i < |order| ==> order[i] < |slots.keys| && slots.keys[order[i]] != key
      modifies this
      ensures Valid() && View() == SetMember(old(View()), key, v) && size == old(size) + 1
    {
      hide Hash, Linked, Backed, ChainsOk, KeysOk, UseOk, Members, SetMember, Distinct, Used;
      var a := AllocateEntry();
      Fill(a, key, v);
    }

    /** Fills the slot just taken and links it into its bucket and the order. */
    method Fill(a: nat, key: Units, v: Value)
      requires Even(slots) && UseOk(slots.occupied, count, order, [a] + free) && a < count && a !in order && a !in free
      requires Linked(slots.nextFree, freeHead, free) && |buckets| > 0
      requires Linked(slots.nextOrder, head, order) && Backed(slots.prevOrder, tail, order) && size == |order|
      requires KeysOk(slots.keys, slots.hashes, order) && forall x :: x in Used(order) ==> x < |slots.hashes|
      requires ChainsOk(slots.nextBucket, buckets, slots.hashes, Used(order), chains)
      requires forall i :: 0 <= i < |order| ==> order[i] < |slots.keys| && slots.keys[order[i]] != key
      modifies this
      ensures Valid() && size == old(size) + 1
      ensures View() == SetMember(Members(old(order), old(slots).keys, old(slots).values), key, v)
    {
      hide Hash, Linked, Backed, ChainsOk, KeysOk, UseOk, Members, SetMember, Distinct, Used;
      var hash := Hash(key);
      var b := hash % |buckets|;
      InsertLists(slots, count, head, tail, freeHead, order, free, a);
      InsertContents(slots, order, a, key, v);
      UsedAppend(order, a);
      ChainsInsert(slots.nextBucket, buckets, slots.hashes, Used(order), chains, a, hash);
      var nexts, first := slots.nextOrder[a := -1], if tail == -1 then a else head;
      if tail != -1 { nexts := nexts[tail := a]; }
      slots := Slots(slots.keys[a := key], slots.values[a := v], slots.hashes[a := hash],
                     slots.nextBucket[a := buckets[b]], slots.prevOrder[a := tail], nexts, slots.nextFree[a := -1],
                     slots.occupied[a := true]);
      buckets, head, tail, size, version := buckets[b := a], first, a, size + 1, version + 1;
      chains := chains[b := [a] + chains[b]];
      order := order + [a];
    }

    /** gc_object_set: a key already there keeps its place and gets the value; another goes to the end. */
    method Set(key: Units, v: Value)
      requires Valid()
      modifies this
      ensures Valid() && View() == SetMember(old(View()), key, v)
    {
      hide Hash, Linked, Backed, ChainsOk, UseOk, SetMember;
      var a := FindEntry(key);
      if a != -1 {
        MembersDistinct(order, slots.keys, slots.values, slots.hashes);
        ghost var k := IndexOf(order, a);
        OrderDistinct(slots.nextOrder, head, order);
        MembersUpdate(order, slots.keys, slots.values, k, v);
        slots := slots.(values := slots.values[a := v]);
        return;
      }
      ghost var before := View();
      Reserve(size + 1);
      SameKeys(before, order, slots.keys, slots.values, key);
      Insert(key, v);
    }

    /** gc_object_remove: finds the member along its bucket's chain and unlinks it. */
    method Remove(key: Units) returns (removed: bool)
      requires Valid()
      modifies this
      ensures Valid() && View() == RemoveMember(old(View()), key)
      ensures removed <==> exists i :: 0 <= i < |old(View())| && old(View())[i].key == key
    {
      hide Hash, Linked, Backed, UseOk, ChainsOk, Distinct, KeysOk, RemoveMember;
      var b, prev, a := Locate(key);
      if a == -1 {
        LookupNowhere(View(), key);
        return false;
      }
      ghost var p := IndexOf(order, a);
      assert View()[p].key == key;
      Unlink(b, prev, a, IndexOf(chains[b], a), p);
      return true;
    }

    /** The slot of a key and the one before it in its bucket's chain. */
    method Locate(key: Units) returns (b: nat, prev: int, a: int)
      requires Valid()
      ensures a == -1 ==> forall i :: 0 <= i < |order| ==> order[i] < |slots.keys| && slots.keys[order[i]] != key
      ensures a != -1 ==> 0 <= a < |slots.keys| && a in order && slots.keys[a] == key
      ensures a != -1 ==>
                b < |buckets| && b < |chains| && a in chains[b] && prev == SlotAt(chains[b], IndexOf(chains[b], a) - 1)
    {
      hide Hash, Linked, Backed, UseOk, Distinct;
      b, prev, a := 0, -1, -1;
      if |buckets| == 0 {
        EmptyOrder(order);
        return;
      }
      var hash := Hash(key);
      b := hash % |buckets|;
      ghost var chain, k := chains[b], 0;
      assert ChainOk(slots.nextBucket, buckets, slots.hashes, Used(order), chain, b);
      a := buckets[b];
      ChainFirst(slots.nextBucket, buckets[b], chain);
      while a != -1
        invariant 0 <= k <= |chain| && a == SlotAt(chain, k) && prev == SlotAt(chain, k - 1)
        invariant forall j :: 0 <= j < k ==>
                      chain[j] < |slots.keys| && !(slots.hashes[chain[j]] == hash && slots.keys[chain[j]] == key)
        decreases |chain| - k
      {
        assert chain[k] in chain;
        ChainNext(slots.nextBucket, buckets[b], chain, k);
        if slots.hashes[a] == hash && slots.keys[a] == key {
          OneIndex(chain, k);
          return;
        }
        prev, a := a, slots.nextBucket[a];
        k := k + 1;
      }
      forall i | 0 <= i < |order| ensures order[i] < |slots.keys| && slots.keys[order[i]] != key {
        NotInChain(slots.keys, slots.hashes, order, chain, |buckets|, key, i);
      }
    }

    /** Takes slot `a` out of its bucket and out of the order, empties it and puts it in front of the free list. */
    method Unlink(b: nat, prev: int, a: nat, ghost k: nat, ghost p: nat)
      requires Valid() && b < |buckets| && b < |chains| && k < |chains[b]| && chains[b][k] == a
      requires prev == SlotAt(chains[b], k - 1) && p < |order| && order[p] == a && a < |slots.keys|
      modifies this
      ensures Valid() && View() == RemoveMember(old(View()), old(slots).keys[a]) && size == old(size) - 1
    {
      hide Hash, Linked, Backed, ChainsOk, KeysOk, UseOk, Members, RemoveMember, Distinct, Without, Used;
      var nexts, prevs, first, last := OutOfOrder(a, p);
      var links, heads := OutOfBucket(b, prev, a, k, p);
      RemoveSlot(slots, count, freeHead, head, order, free, p);
      slots := Slots(slots.keys[a := []], slots.values[a := Null], slots.hashes[a := 0], links, prevs, nexts,
                     slots.nextFree[a := freeHead], slots.occupied[a := false]);
      buckets, head, tail, freeHead, size, version := heads, first, last, a, size - 1, version + 1;
      chains := chains[b := Without(chains[b], k)];
      order, free := Without(order, p), [a] + free;
    }

    /** The bucket links without a slot. */
    method OutOfBucket(b: nat, prev: int, a: nat, ghost k: nat, ghost p: nat) returns (links: seq<int>, heads: seq<int>)
      requires Valid() && b < |buckets| && b < |chains| && k < |chains[b]| && chains[b][k] == a && Distinct(order)
      requires prev == SlotAt(chains[b], k - 1) && p < |order| && order[p] == a && a < |slots.keys|
      ensures |links| == |slots.keys| && forall x :: x in Used(Without(order, p)) ==> x < |slots.hashes[a := 0]|
      ensures ChainsOk(links, heads, slots.hashes[a := 0], Used(Without(order, p)), chains[b := Without(chains[b], k)])
    {
      hide Linked, Backed, ChainsOk, KeysOk, UseOk, Distinct, Without, Used;
      RemoveChain(slots, buckets, order, chains, b, k, p);
      links, heads := slots.nextBucket, buckets;
      if prev == -1 {
        heads := heads[b := links[a]];
      } else {
        links := links[prev := links[a]];
      }
      links := links[a := -1];
    }

    /** The order links without a slot. */
    method OutOfOrder(a: nat, ghost p: nat) returns (nexts: seq<int>, prevs: seq<int>, first: int, last: int)
      requires Valid() && p < |order| && order[p] == a
      ensures Distinct(order) && a < |slots.keys| && |nexts| == |slots.keys| && |prevs| == |slots.keys|
      ensures Linked(nexts, first, Without(order, p)) && Backed(prevs, last, Without(order, p))
    {
      hide Linked, Backed, ChainsOk, KeysOk, UseOk, Distinct, Without, Used;
      RemoveOrder(slots, head, tail, order, p);
      var before, after := slots.prevOrder[a], slots.nextOrder[a];
      nexts, prevs, first, last := slots.nextOrder, slots.prevOrder, head, tail;
      if before != -1 {
        nexts := nexts[before := after];
      } else {
        first := after;
      }
      if after != -1 {
        prevs := prevs[after := before];
      } else {
        last := before;
      }
      nexts, prevs := nexts[a := -1], prevs[a := -1];
    }

    /** A value may be replaced while the object is being iterated; it is no change of keys. */
    method Overwrite(key: Units, v: Value)
      requires Valid() && exists i :: 0 <= i < |View()| && View()[i].key == key
      modifies this
      ensures Valid() && View() == SetMember(old(View()), key, v)
      ensures order == old(order) && version == old(version) && head == old(head)
      ensures slots == old(slots).(values := slots.values)
    {
      hide Hash, Linked, Backed, ChainsOk, UseOk, SetMember;
      var a := FindEntry(key);
      ghost var i :| 0 <= i < |View()| && View()[i].key == key;
      assert View()[i].key == slots.keys[order[i]];
      MembersDistinct(order, slots.keys, slots.values, slots.hashes);
      OrderDistinct(slots.nextOrder, head, order);
      MembersUpdate(order, slots.keys, slots.values, IndexOf(order, a), v);
      slots := slots.(values := slots.values[a := v]);
    }
  }

  /** gc_iterator_next over an object none of whose keys has been added or removed since. */
  class ObjectIterator {
    const table: Table
    var cursor: int
    /** How many members have been yielded. */
    ghost var done: nat

    /** The cursor stands at member number `done`. */
    ghost predicate Ready()
      reads this, table
    {
      table.Valid() && done <= |table.order| && cursor == SlotAt(table.order, done)
    }

    constructor (table: Table)
      requires table.Valid()
      ensures Ready() && done == 0 && this.table == table
    {
      hide Hash, Backed, ChainsOk, UseOk, KeysOk;
      this.table := table;
      cursor, done := table.head, 0;
    }

    /** Yields the members in insertion order, one per call, until there is none left. */
    method Next() returns (member: Option<Member>)
      requires Ready()
      modifies this
      ensures Ready() && member == if old(done) < |table.View()| then Some(table.View()[old(done)]) else None
      ensures done == old(done) + if member.Some? then 1 else 0
    {
      hide Hash, Backed, ChainsOk, UseOk, Linked;
      if cursor == -1 { return None; }
      var a: nat := cursor;
      ChainNext(table.slots.nextOrder, table.head, table.order, done);
      cursor := table.slots.nextOrder[a];
      done := done + 1;
      return Some(Member(table.slots.keys[a], table.slots.values[a]));
    }
  }

  /** A whole iteration yields each member once, in insertion order. */
  method IterateAll(table: Table) returns (members: seq<Member>)
    requires table.Valid()
    ensures members == table.View()
  {
    hide Hash, Backed, ChainsOk, UseOk, Linked, KeysOk;
    var it := new ObjectIterator(table);
    members := [];
    while true
      invariant it.Ready() && it.table == table && fresh(it) && members == table.View()[..it.done]
      decreases |table.View()| - it.done
    {
      var m := it.Next();
      if m.None? {
        assert it.done == |table.View()|;
        return;
      }
      members := members + [m.value];
    }
  }

  /** The chains once a slot has been taken out of its bucket and emptied. */
  lemma RemoveChain(s: Slots, buckets: seq<int>, order: seq<nat>, chains: seq<seq<nat>>, b: nat, k: nat, p: nat)
    requires Even(s) && (forall x :: x in Used(order) ==> x < |s.hashes|)
    requires ChainsOk(s.nextBucket, buckets, s.hashes, Used(order), chains)
    requires b < |chains| && b < |buckets| && k < |chains[b]|
    requires p < |order| && order[p] == chains[b][k] && Distinct(order)
    ensures var a := order[p]; var prev := SlotAt(chains[b], k - 1); var rest := Without(order, p);
            && a < |s.keys| && Used(rest) == Used(order) - {a}
            && (forall x :: x in Used(rest) ==> x < |s.hashes[a := 0]|)
            && (prev == -1 ==>
                  ChainsOk(s.nextBucket[a := -1], buckets[b := s.nextBucket[a]], s.hashes[a := 0], Used(rest),
                                        chains[b := Without(chains[b], k)]))
            && (prev != -1 ==> 0 <= prev < |s.nextBucket|)
            && (prev != -1 ==> ChainsOk(s.nextBucket[prev := s.nextBucket[a]][a := -1], buckets, s.hashes[a := 0],
                                        Used(rest), chains[b := Without(chains[b], k)]))
  {
    hide Distinct, Without, ChainsOk;
    var a, rest, cs := order[p], Without(order, p), chains[b := Without(chains[b], k)];
    ChainsRemove(s.nextBucket, buckets, s.hashes, Used(order), chains, b, k);
    UsedWithout(order, p);
    var left := Used(order) - {a};
    var prev := SlotAt(chains[b], k - 1);
    var n := if prev == -1 then s.nextBucket else s.nextBucket[prev := s.nextBucket[a]];
    var bs := if prev == -1 then buckets[b := s.nextBucket[a]] else buckets;
    assert ChainsOk(n, bs, s.hashes, left, cs);
    ChainsFrame(n, bs, s.hashes, left, cs, a, -1);
    ChainsFrameHash(n[a := -1], bs, s.hashes, left, cs, a, 0);
  }

  lemma UsedWithout(order: seq<nat>, p: nat)
    requires p < |order| && Distinct(order)
    ensures Used(Without(order, p)) == Used(order) - {order[p]}
  {
    hide Without, Distinct;
    WithoutMembers(order, p);
  }

  /** The order list once a slot has been taken out of it. */
  lemma RemoveOrder(s: Slots, head: int, tail: int, order: seq<nat>, p: nat)
    requires Even(s) && Linked(s.nextOrder, head, order) && Backed(s.prevOrder, tail, order) && p < |order|
    ensures var a := order[p]; var rest := Without(order, p);
            && Distinct(order) && a < |s.keys| && a !in rest
            && (if s.prevOrder[a] != -1
                then 0 <= s.prevOrder[a] < |s.nextOrder|
                     && Linked(s.nextOrder[s.prevOrder[a] := s.nextOrder[a]][a := -1], head, rest)
                else Linked(s.nextOrder[a := -1], s.nextOrder[a], rest))
            && (if s.nextOrder[a] != -1
                then 0 <= s.nextOrder[a] < |s.prevOrder|
                     && Backed(s.prevOrder[s.nextOrder[a] := s.prevOrder[a]][a := -1], tail, rest)
                else Backed(s.prevOrder[a := -1], s.prevOrder[a], rest))
  {
    OrderDistinct(s.nextOrder, head, order);
    var a, rest := order[p], Without(order, p);
    assert LinkAt(s.nextOrder, order, p) && BackAt(s.prevOrder, order, p);
    LinkedRemove(s.nextOrder, head, order, p);
    BackedRemove(s.prevOrder, tail, order, p);
    WithoutMembers(order, p);
    if p == 0 { LinkedFrame(s.nextOrder, s.nextOrder[a], rest, a, -1); }
    else { LinkedFrame(s.nextOrder[order[p - 1] := s.nextOrder[a]], head, rest, a, -1); }
    if p == |order| - 1 { BackedFrame(s.prevOrder, s.prevOrder[a], rest, a, -1); }
    else { BackedFrame(s.prevOrder[order[p + 1] := s.prevOrder[a]], tail, rest, a, -1); }
  }

  /** The slot itself, emptied and freed. */
  lemma RemoveSlot(s: Slots, count: nat, freeHead: int, head: int, order: seq<nat>, free: seq<nat>, p: nat)
    requires Even(s) && UseOk(s.occupied, count, order, free) && KeysOk(s.keys, s.hashes, order) && p < |order|
    requires Linked(s.nextFree, freeHead, free) && Linked(s.nextOrder, head, order)
    ensures forall i :: 0 <= i < |order| ==> order[i] < |s.keys|
    ensures var a := order[p]; var rest := Without(order, p);
            && a < |s.keys| && UseOk(s.occupied[a := false], count, rest, [a] + free) && |rest| == |order| - 1
            && KeysOk(s.keys[a := []], s.hashes[a := 0], rest) && Linked(s.nextFree[a := freeHead], a, [a] + free)
            && (forall i :: 0 <= i < |rest| ==> rest[i] < |s.keys|)
            && Members(rest, s.keys[a := []], s.values[a := Null]) ==
               RemoveMember(Members(order, s.keys, s.values), s.keys[a])
  {
    hide Hash, RemoveMember, Members;
    var a := order[p];
    OrderDistinct(s.nextOrder, head, order);
    assert a in order && a !in free;
    UseRelease(s.occupied, count, order, free, p);
    KeysRemove(s.keys, s.hashes, order, p, [], 0);
    MembersDistinct(order, s.keys, s.values, s.hashes);
    MembersRemove(order, s.keys, s.values, p, [], Null);
    LinkedPush(s.nextFree, freeHead, free, a);
  }

  lemma UseRelease(occupied: seq<bool>, count: nat, order: seq<nat>, free: seq<nat>, p: nat)
    requires UseOk(occupied, count, order, free) && p < |order| && Distinct(order)
    ensures order[p] < count && UseOk(occupied[order[p] := false], count, Without(order, p), [order[p]] + free)
  {
    var a, rest := order[p], Without(order, p);
    assert a in order;
    WithoutMembers(order, p);
    var o := occupied[a := false];
    forall x: nat ensures x in rest <==> x < count && o[x] {
      assert x in order <==> x < count && occupied[x];
    }
    forall x: nat ensures x in [a] + free <==> x < count && !o[x] {
      assert x in free <==> x < count && !occupied[x];
    }
  }

  lemma OneIndex(list: seq<nat>, k: nat)
    requires k < |list| && Distinct(list)
    ensures IndexOf(list, list[k]) == k
  {
  }

  lemma UsedAppend(order: seq<nat>, a: nat)
    ensures Used(order + [a]) == Used(order) + {a} && (a in Used(order) <==> a in order)
  {
  }

  lemma OrderDistinct(next: seq<int>, head: int, order: seq<nat>)
    requires Linked(next, head, order)
    ensures Distinct(order)
  {
  }

  /** A key missing before the table was grown is missing after. */
  lemma SameKeys(before: seq<Member>, order: seq<nat>, keys: seq<Units>, values: seq<Value>, key: Units)
    requires |keys| == |values| && (forall i :: 0 <= i < |order| ==> order[i] < |keys|)
    requires before == Members(order, keys, values) && forall i :: 0 <= i < |before| ==> before[i].key != key
    ensures forall i :: 0 <= i < |order| ==> order[i] < |keys| && keys[order[i]] != key
  {
    forall i | 0 <= i < |order| ensures keys[order[i]] != key { assert before[i].key == keys[order[i]]; }
  }

  /** The order list with a slot appended, and the use of the slots after it. */
  lemma InsertLists(s: Slots, count: nat, head: int, tail: int, freeHead: int, order: seq<nat>, free: seq<nat>, a: nat)
    requires Even(s) && UseOk(s.occupied, count, order, [a] + free) && a !in order && a !in free && a < count
    requires Linked(s.nextOrder, head, order) && Backed(s.prevOrder, tail, order) && Linked(s.nextFree, freeHead, free)
    ensures a < |s.keys| && UseOk(s.occupied[a := true], count, order + [a], free)
    ensures Linked(s.nextFree[a := -1], freeHead, free) && Backed(s.prevOrder[a := tail], a, order + [a])
    ensures tail == -1 ==> Linked(s.nextOrder[a := -1], a, order + [a])
    ensures tail != -1 ==> 0 <= tail < |s.nextOrder| && Linked(s.nextOrder[a := -1][tail := a], head, order + [a])
  {
    LinkedFrame(s.nextFree, freeHead, free, a, -1);
    LinkedAppend(s.nextOrder, head, order, a);
    BackedAppend(s.prevOrder, tail, order, a);
    TailIs(s.prevOrder, tail, order);
    UseTake(s.occupied, count, order, free, a);
    assert order == [] ==> order + [a] == [a];
  }

  lemma TailIs(prev: seq<int>, tail: int, order: seq<nat>)
    requires Backed(prev, tail, order)
    ensures tail == -1 <==> order == []
    ensures order != [] ==> tail == order[|order| - 1]
  {
  }

  lemma UseTake(occupied: seq<bool>, count: nat, order: seq<nat>, free: seq<nat>, a: nat)
    requires UseOk(occupied, count, order, [a] + free) && a !in free && a < count
    ensures UseOk(occupied[a := true], count, order + [a], free)
  {
    var o := occupied[a := true];
    forall x: nat ensures x in order + [a] <==> x < count && o[x] {
      assert x in order <==> x < count && occupied[x];
      assert a in [a] + free;
    }
    forall x: nat ensures x in free <==> x < count && !o[x] {
      assert x in [a] + free <==> x == a || x in free;
      assert x in [a] + free <==> x < count && !occupied[x];
    }
  }

  lemma InsertContents(s: Slots, order: seq<nat>, a: nat, key: Units, v: Value)
    requires Even(s) && KeysOk(s.keys, s.hashes, order) && a !in order && a < |s.keys|
    requires forall i :: 0 <= i < |order| ==> order[i] < |s.keys| && s.keys[order[i]] != key
    ensures KeysOk(s.keys[a := key], s.hashes[a := Hash(key)], order + [a])
    ensures forall i :: 0 <= i < |order + [a]| ==> (order + [a])[i] < |s.keys|
    ensures Members(order + [a], s.keys[a := key], s.values[a := v])
         == SetMember(Members(order, s.keys, s.values), key, v)
  {
    hide Hash, SetMember, KeysOk;
    KeysAppend(s.keys, s.hashes, order, a, key);
    MembersAppend(order, s.keys, s.values, a, key, v);
  }

  method BlankSlots(n: nat)
    returns (keys: seq<Units>, values: seq<Value>, hashes: seq<nat>, links: seq<int>, occupied: seq<bool>)
    ensures |keys| == n && |values| == n && |hashes| == n && |links| == n && |occupied| == n
    ensures forall i :: 0 <= i < n ==> !occupied[i]
  {
    keys, values, hashes := Filled(n, []), Filled(n, Null), Filled(n, 0);
    links, occupied := Filled(n, -1), Filled(n, false);
  }

  lemma SlotsGrow(keys: seq<Units>, moreKeys: seq<Units>, hashes: seq<nat>, zeros: seq<nat>, occupied: seq<bool>,
                  unused: seq<bool>, order: seq<nat>, free: seq<nat>, count: nat)
    requires UseOk(occupied, count, order, free) && KeysOk(keys, hashes, order)
    requires |moreKeys| == |zeros| && forall i :: 0 <= i < |unused| ==> !unused[i]
    ensures UseOk(occupied + unused, count, order, free) && KeysOk(keys + moreKeys, hashes + zeros, order)
    ensures (forall i :: 0 <= i < |order| ==> order[i] < |keys|)
    ensures forall a :: a in Used(order) ==> a < |hashes + zeros|
  {
    hide Hash;
  }

  lemma ListsGrow(nextOrder: seq<int>, head: int, prevOrder: seq<int>, tail: int, order: seq<nat>, nextFree: seq<int>,
                  freeHead: int, free: seq<nat>, more: seq<int>)
    requires Linked(nextOrder, head, order) && Backed(prevOrder, tail, order) && Linked(nextFree, freeHead, free)
    ensures Linked(nextOrder + more, head, order) && Backed(prevOrder + more, tail, order)
    ensures Linked(nextFree + more, freeHead, free)
  {
    LinkedGrow(nextOrder, more, head, order);
    BackedGrow(prevOrder, more, tail, order);
    LinkedGrow(nextFree, more, freeHead, free);
  }

  /** The slots in use among the first `i`. */
  ghost function SlotsBefore(order: seq<nat>, i: nat): set<nat> {
    set a | a in order && a < i
  }

  lemma SlotsBeforeNext(occupied: seq<bool>, count: nat, order: seq<nat>, free: seq<nat>, i: nat)
    requires UseOk(occupied, count, order, free) && i < count
    ensures i !in SlotsBefore(order, i)
    ensures SlotsBefore(order, i + 1) == if occupied[i] then SlotsBefore(order, i) + {i} else SlotsBefore(order, i)
    ensures SlotsBefore(order, i + 1) <= Used(order)
  {
  }

  lemma SlotsBeforeAll(occupied: seq<bool>, count: nat, order: seq<nat>, free: seq<nat>)
    requires UseOk(occupied, count, order, free)
    ensures SlotsBefore(order, count) == Used(order)
  {
  }

  lemma FreeTaken(next: seq<int>, head: int, free: seq<nat>)
    requires Linked(next, head, free) && head != -1
    ensures free != [] && head == free[0] && free[0] < |next|
    ensures Linked(next, next[free[0]], free[1..]) && free[0] !in free[1..]
  {
    LinkedPop(next, head, free);
  }

  lemma EmptyOrder(order: seq<nat>)
    ensures order != [] ==> Used(order) != {}
  {
    if order != [] { assert order[0] in Used(order); }
  }

  lemma ChainFirst(next: seq<int>, head: int, chain: seq<nat>)
    requires Linked(next, head, chain)
    ensures head == SlotAt(chain, 0) && Distinct(chain)
  {
  }

  lemma ChainNext(next: seq<int>, head: int, chain: seq<nat>, k: nat)
    requires Linked(next, head, chain) && k < |chain|
    ensures chain[k] < |next| && next[chain[k]] == SlotAt(chain, k + 1)
  {
    assert LinkAt(next, chain, k);
  }

  /** A key that is not in its own chain is nowhere. */
  lemma NotInChain(keys: seq<Units>, hashes: seq<nat>, order: seq<nat>, chain: seq<nat>, n: nat, key: Units, i: nat)
    requires KeysOk(keys, hashes, order) && i < |order| && n > 0
    requires forall a: nat :: a in Used(order) && a < |hashes| && hashes[a] % n == Hash(key) % n ==> a in chain
    requires forall j :: 0 <= j < |chain| ==>
               chain[j] < |keys| && !(hashes[chain[j]] == Hash(key) && keys[chain[j]] == key)
    ensures order[i] < |keys| && keys[order[i]] != key
  {
    hide Hash;
    var a := order[i];
    assert a in Used(order);
    assert keys[a] == key ==> a in chain;
  }

  ghost function IndexOf(order: seq<nat>, a: int): (k: nat)
    requires a in order
    ensures k < |order| && order[k] == a
  {
    var k :| 0 <= k < |order| && order[k] == a; k
  }
}
