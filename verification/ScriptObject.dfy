/**
 The script heap's object: one array of slots through which the bucket chains,
 the insertion order and the free list are threaded. It behaves as a list of
 members in insertion order, with one member per key.
 */
module ScriptObject {
  import opened Octets
  import opened JsonLex
  import opened JsonStream
  import opened SlotLists

  // ---------------------------------------------------------------- keys

  /** A heap string in either of its encodings. */
  datatype HeapString = Narrow(bytes: Bytes) | Wide(wide: Units)

  function UnitsIn(s: HeapString): Units {
    if s.Narrow? then s.bytes else s.wide
  }

  const FNV_OFFSET: nat := 14695981039346656037
  const FNV_PRIME: nat := 1099511628211

  /** Exclusive or of two numbers, bit by bit. */
  function Xor(a: nat, b: nat): nat
    decreases a + b
  {
    if a == 0 && b == 0 then 0
    else (if a % 2 == b % 2 then 0 else 1) + 2 * Xor(a / 2, b / 2)
  }

  function Fnv(units: Units, seed: nat): nat
    decreases |units|
  {
    if units == [] then seed
    else Fnv(units[1..], Xor(seed, units[0]) * FNV_PRIME % 0x1_0000_0000_0000_0000)
  }

  /** The hash of a key: FNV-1a over its code units, modulo 2^64. */
  function Hash(units: Units): nat { Fnv(units, FNV_OFFSET) }

  /** hash_code_units: the same for both encodings of the same units. */
  method HashCodeUnits(s: HeapString) returns (hash: nat)
    ensures hash == Hash(UnitsIn(s))
  {
    hash := FNV_OFFSET;
    ghost var units := UnitsIn(s);
    var i := 0;
    assert units[0..] == units;
    if s.Narrow? {
      while i < |s.bytes|
        invariant 0 <= i <= |s.bytes| && Fnv(units, FNV_OFFSET) == Fnv(units[i..], hash)
      {
        assert units[i..][1..] == units[i + 1..];
        hash := Xor(hash, s.bytes[i]) * FNV_PRIME % 0x1_0000_0000_0000_0000;
        i := i + 1;
      }
      return;
    }
    while i < |s.wide|
      invariant 0 <= i <= |s.wide| && Fnv(units, FNV_OFFSET) == Fnv(units[i..], hash)
    {
      assert units[i..][1..] == units[i + 1..];
      hash := Xor(hash, s.wide[i]) * FNV_PRIME % 0x1_0000_0000_0000_0000;
      i := i + 1;
    }
  }

  /** string_equals: equality of the code units whatever the encodings. */
  method StringEquals(lhs: HeapString, rhs: HeapString) returns (same: bool)
    ensures same <==> UnitsIn(lhs) == UnitsIn(rhs)
  {
    ghost var a, b := UnitsIn(lhs), UnitsIn(rhs);
    match (lhs, rhs) {
      case (Narrow(x), Narrow(y)) =>
        if |x| != |y| { return false; }
        return x == y;
      case (Wide(x), Wide(y)) =>
        if |x| != |y| { return false; }
        return x == y;
      case (Narrow(x), Wide(y)) =>
        same := SameUnits(x, y);
      case (Wide(x), Narrow(y)) =>
        same := SameUnits(y, x);
    }
  }

  method SameUnits(bytes: Bytes, wide: Units) returns (same: bool)
    ensures same <==> UnitsIn(Narrow(bytes)) == wide
  {
    if |bytes| != |wide| { return false; }
    var i := 0;
    while i < |bytes|
      invariant 0 <= i <= |bytes| && forall j :: 0 <= j < i ==> bytes[j] == wide[j]
    {
      if wide[i] != bytes[i] { return false; }
      i := i + 1;
    }
    return true;
  }

  // ---------------------------------------------------------------- what the object means

  /** The members in insertion order. */
  ghost function Members(order: seq<nat>, keys: seq<Units>, values: seq<Value>): seq<Member>
    requires |keys| == |values| && forall i :: 0 <= i < |order| ==> order[i] < |keys|
  {
    seq(|order|, i requires 0 <= i < |order| => Member(keys[order[i]], values[order[i]]))
  }

  /** The value of a key. */
  function Lookup(members: seq<Member>, key: Units): Option<Value> {
    if members == [] then None
    else if members[0].key == key then Some(members[0].value)
    else Lookup(members[1..], key)
  }

  function RemoveMember(members: seq<Member>, key: Units): seq<Member> {
    if members == [] then []
    else if members[0].key == key then members[1..]
    else [members[0]] + RemoveMember(members[1..], key)
  }

  lemma {:induction false} LookupAt(members: seq<Member>, k: nat)
    requires DistinctKeys(members) && k < |members|
    ensures Lookup(members, members[k].key) == Some(members[k].value)
  {
    if k > 0 { LookupAt(members[1..], k - 1); }
  }

  lemma {:induction false} LookupNowhere(members: seq<Member>, key: Units)
    requires forall i :: 0 <= i < |members| ==> members[i].key != key
    ensures Lookup(members, key) == None
    ensures RemoveMember(members, key) == members
  {
    if members != [] {
      LookupNowhere(members[1..], key);
      assert members == [members[0]] + members[1..];
    }
  }

  lemma {:induction false} SetAt(members: seq<Member>, k: nat, v: Value)
    requires DistinctKeys(members) && k < |members|
    ensures SetMember(members, members[k].key, v) == members[k := Member(members[k].key, v)]
  {
    if k > 0 {
      SetAt(members[1..], k - 1, v);
      var key := members[k].key;
      assert members[k := Member(key, v)] == [members[0]] + members[1..][k - 1 := Member(key, v)];
    }
  }

  lemma KeysTail(members: seq<Member>, k: nat)
    requires DistinctKeys(members) && 0 < k < |members|
    ensures DistinctKeys(members[1..]) && members[0].key != members[k].key
  {
  }

  lemma CutOut(members: seq<Member>, k: nat)
    requires 0 < k < |members|
    ensures [members[0]] + (members[1..][..k - 1] + members[1..][k..]) == members[..k] + members[k + 1..]
  {
    var tail := members[1..];
    assert members[..k] == [members[0]] + tail[..k - 1] && tail[k..] == members[k + 1..];
  }

  lemma {:induction false} RemoveAt(members: seq<Member>, k: nat)
    requires DistinctKeys(members) && k < |members|
    ensures RemoveMember(members, members[k].key) == members[..k] + members[k + 1..]
  {
    hide DistinctKeys;
    if k > 0 {
      KeysTail(members, k);
      RemoveAt(members[1..], k - 1);
      CutOut(members, k);
    } else {
      assert members[..0] + members[1..] == members[1..];
    }
  }

  // ---------------------------------------------------------------- the bucket chains

  /** The chain of a bucket holds exactly the slots in use that hash to it. */
  ghost predicate ChainOk(next: seq<int>, buckets: seq<int>, hashes: seq<nat>, used: set<nat>, chain: seq<nat>, b: nat)
    requires b < |buckets| && forall a :: a in used ==> a < |hashes|
  {
    && Linked(next, buckets[b], chain)
    && forall a: nat :: a in chain <==> a in used && hashes[a] % |buckets| == b
  }

  ghost predicate ChainsOk(next: seq<int>, buckets: seq<int>, hashes: seq<nat>, used: set<nat>, chains: seq<seq<nat>>)
    requires forall a :: a in used ==> a < |hashes|
  {
    && |chains| == |buckets| && (|buckets| == 0 ==> used == {})
    && forall b :: 0 <= b < |buckets| ==> ChainOk(next, buckets, hashes, used, chains[b], b)
  }

  /** A new slot in front of its chain. */
  lemma ChainsInsert(next: seq<int>, buckets: seq<int>, hashes: seq<nat>, used: set<nat>, chains: seq<seq<nat>>,
                     a: nat, hash: nat)
    requires forall x :: x in used ==> x < |hashes|
    requires ChainsOk(next, buckets, hashes, used, chains) && a !in used && a < |hashes| && a < |next| && |buckets| > 0
    ensures var b := hash % |buckets|;
            && b < |chains| && (forall x :: x in used + {a} ==> x < |hashes[a := hash]|)
            && ChainsOk(next[a := buckets[b]], buckets[b := a], hashes[a := hash], used + {a},
                        chains[b := [a] + chains[b]])
  {
    var b := hash % |buckets|;
    var n, bs, hs, cs := next[a := buckets[b]], buckets[b := a], hashes[a := hash], chains[b := [a] + chains[b]];
    forall c | 0 <= c < |bs| ensures ChainOk(n, bs, hs, used + {a}, cs[c], c) {
      assert ChainOk(next, buckets, hashes, used, chains[c], c);
      assert a !in chains[c];
      if c == b {
        LinkedPush(next, buckets[b], chains[b], a);
      } else {
        LinkedFrame(next, buckets[c], chains[c], a, buckets[b]);
      }
    }
  }

  /** Taking the slot at place `k` of its chain out. */
  lemma ChainsRemove(next: seq<int>, buckets: seq<int>, hashes: seq<nat>, used: set<nat>, chains: seq<seq<nat>>,
                     b: nat, k: nat)
    requires forall x :: x in used ==> x < |hashes|
    requires ChainsOk(next, buckets, hashes, used, chains) && b < |chains| && k < |chains[b]|
    ensures var a := chains[b][k];
            && a < |next| && a in used
            && (k == 0 ==>
                  ChainsOk(next, buckets[b := next[a]], hashes, used - {a}, chains[b := Without(chains[b], 0)]))
            && (k > 0 ==> chains[b][k - 1] < |next|)
            && (k > 0 ==> ChainsOk(next[chains[b][k - 1] := next[a]], buckets, hashes, used - {a},
                                   chains[b := Without(chains[b], k)]))
  {
    var a := chains[b][k];
    assert ChainOk(next, buckets, hashes, used, chains[b], b);
    assert a in chains[b];
    LinkedRemove(next, buckets[b], chains[b], k);
    WithoutMembers(chains[b], k);
    var n := if k == 0 then next else next[chains[b][k - 1] := next[a]];
    var bs := if k == 0 then buckets[b := next[a]] else buckets;
    var cs := chains[b := Without(chains[b], k)];
    forall c | 0 <= c < |bs| ensures ChainOk(n, bs, hashes, used - {a}, cs[c], c) {
      assert ChainOk(next, buckets, hashes, used, chains[c], c);
      if c != b && k > 0 {
        assert chains[b][k - 1] in chains[b];
        LinkedFrame(next, buckets[c], chains[c], chains[b][k - 1], next[a]);
      }
    }
  }

  /** A link outside every chain may change. */
  lemma ChainsFrame(next: seq<int>, buckets: seq<int>, hashes: seq<nat>, used: set<nat>, chains: seq<seq<nat>>,
                    a: nat, x: int)
    requires forall c :: c in used ==> c < |hashes|
    requires ChainsOk(next, buckets, hashes, used, chains) && a !in used && a < |next|
    ensures ChainsOk(next[a := x], buckets, hashes, used, chains)
  {
    var n := next[a := x];
    forall c | 0 <= c < |buckets| ensures ChainOk(n, buckets, hashes, used, chains[c], c) {
      assert ChainOk(next, buckets, hashes, used, chains[c], c);
      LinkedFrame(next, buckets[c], chains[c], a, x);
    }
  }

  /** So may the hash of a slot that is not in use. */
  lemma ChainsFrameHash(next: seq<int>, buckets: seq<int>, hashes: seq<nat>, used: set<nat>, chains: seq<seq<nat>>,
                        a: nat, h: nat)
    requires forall c :: c in used ==> c < |hashes|
    requires ChainsOk(next, buckets, hashes, used, chains) && a !in used && a < |hashes|
    ensures ChainsOk(next, buckets, hashes[a := h], used, chains)
  {
    var hs := hashes[a := h];
    forall c | 0 <= c < |buckets| ensures ChainOk(next, buckets, hs, used, chains[c], c) {
      assert ChainOk(next, buckets, hashes, used, chains[c], c);
    }
  }

  lemma ChainsGrow(next: seq<int>, more: seq<int>, buckets: seq<int>, hashes: seq<nat>, zeros: seq<nat>, used: set<nat>,
                   chains: seq<seq<nat>>)
    requires forall c :: c in used ==> c < |hashes|
    requires ChainsOk(next, buckets, hashes, used, chains)
    ensures ChainsOk(next + more, buckets, hashes + zeros, used, chains)
  {
    forall c | 0 <= c < |buckets| ensures ChainOk(next + more, buckets, hashes + zeros, used, chains[c], c) {
      assert ChainOk(next, buckets, hashes, used, chains[c], c);
      LinkedGrow(next, more, buckets[c], chains[c]);
    }
  }

  lemma ChainsEmpty(next: seq<int>, hashes: seq<nat>, n: nat)
    ensures ChainsOk(next, Filled(n, -1), hashes, {}, Filled(n, []))
  {
    forall c | 0 <= c < n ensures ChainOk(next, Filled(n, -1), hashes, {}, Filled(n, [])[c], c) {
    }
  }

  function Filled<T>(n: nat, x: T): (r: seq<T>)
    ensures |r| == n && forall i :: 0 <= i < n ==> r[i] == x
  {
    seq(n, i => x)
  }

  // ---------------------------------------------------------------- the slots

  ghost function Used(order: seq<nat>): set<nat> {
    set a | a in order
  }

  /** Every slot handed out is either in the order list or in the free list. */
  ghost predicate UseOk(occupied: seq<bool>, count: nat, order: seq<nat>, free: seq<nat>) {
    && count <= |occupied| && count == |order| + |free|
    && (forall a: nat :: a in order <==> a < count && occupied[a])
    && (forall a: nat :: a in free <==> a < count && !occupied[a])
    && (forall a: nat :: count <= a < |occupied| ==> !occupied[a])
  }

  /** Stored hashes are the keys' hashes, and no key is there twice. */
  ghost predicate KeysOk(keys: seq<Units>, hashes: seq<nat>, order: seq<nat>) {
    && |hashes| == |keys|
    && (forall i :: 0 <= i < |order| ==> order[i] < |keys| && hashes[order[i]] == Hash(keys[order[i]]))
    && (forall i, j :: 0 <= i < j < |order| ==>
          order[i] < |keys| && order[j] < |keys| && keys[order[i]] != keys[order[j]])
  }

  lemma MembersDistinct(order: seq<nat>, keys: seq<Units>, values: seq<Value>, hashes: seq<nat>)
    requires |keys| == |values| && KeysOk(keys, hashes, order)
    ensures DistinctKeys(Members(order, keys, values))
  {
    var ms := Members(order, keys, values);
    forall i, j | 0 <= i < j < |ms| ensures ms[i].key != ms[j].key {
      assert ms[i].key == keys[order[i]] && ms[j].key == keys[order[j]];
    }
  }

  lemma KeysAppend(keys: seq<Units>, hashes: seq<nat>, order: seq<nat>, a: nat, key: Units)
    requires KeysOk(keys, hashes, order) && a !in order && a < |keys|
    requires forall i :: 0 <= i < |order| ==> keys[order[i]] != key
    ensures KeysOk(keys[a := key], hashes[a := Hash(key)], order + [a])
  {
    hide Hash;
    var longer, ks, hs := order + [a], keys[a := key], hashes[a := Hash(key)];
    forall i | 0 <= i < |longer| ensures longer[i] < |ks| && hs[longer[i]] == Hash(ks[longer[i]]) {
      if i < |order| { assert longer[i] == order[i] && order[i] in order; }
    }
    forall i, j | 0 <= i < j < |longer| ensures ks[longer[i]] != ks[longer[j]] {
      assert longer[i] == order[i] && order[i] in order;
      if j < |order| { assert longer[j] == order[j] && order[j] in order; }
    }
  }

  lemma KeysRemove(keys: seq<Units>, hashes: seq<nat>, order: seq<nat>, k: nat, key: Units, h: nat)
    requires KeysOk(keys, hashes, order) && k < |order| && Distinct(order)
    ensures order[k] < |keys| && KeysOk(keys[order[k] := key], hashes[order[k] := h], Without(order, k))
  {
    hide Hash;
    var w, ks, hs := Without(order, k), keys[order[k] := key], hashes[order[k] := h];
    forall i | 0 <= i < |w| ensures w[i] < |ks| && hs[w[i]] == Hash(ks[w[i]]) {
      WithoutIs(order, k, i);
    }
    forall i, j | 0 <= i < j < |w| ensures ks[w[i]] != ks[w[j]] {
      WithoutIs(order, k, i);
      WithoutIs(order, k, j);
    }
  }

  lemma MembersAppend(order: seq<nat>, keys: seq<Units>, values: seq<Value>, a: nat, key: Units, v: Value)
    requires |keys| == |values| && (forall i :: 0 <= i < |order| ==> order[i] < |keys|) && a !in order && a < |keys|
    requires forall i :: 0 <= i < |order| ==> keys[order[i]] != key
    ensures (forall i :: 0 <= i < |order + [a]| ==> (order + [a])[i] < |keys|)
    ensures Members(order + [a], keys[a := key], values[a := v]) == SetMember(Members(order, keys, values), key, v)
  {
    var ms := Members(order, keys, values);
    SetFresh(ms, key, v);
    var ns := Members(order + [a], keys[a := key], values[a := v]);
    assert |ns| == |ms| + 1;
    forall i | 0 <= i < |ns| ensures ns[i] == (ms + [Member(key, v)])[i] {
      if i < |order| { assert (order + [a])[i] == order[i] && order[i] in order; }
    }
  }

  lemma MembersUpdate(order: seq<nat>, keys: seq<Units>, values: seq<Value>, k: nat, v: Value)
    requires |keys| == |values| && k < |order| && Distinct(order)
    requires forall i :: 0 <= i < |order| ==> order[i] < |keys|
    requires DistinctKeys(Members(order, keys, values))
    ensures Members(order, keys, values[order[k] := v])
         == SetMember(Members(order, keys, values), keys[order[k]], v)
  {
    var ms := Members(order, keys, values);
    SetAt(ms, k, v);
    var ns := Members(order, keys, values[order[k] := v]);
    assert forall i :: 0 <= i < |ns| ==> ns[i] == ms[k := Member(keys[order[k]], v)][i];
  }

  lemma MembersRemove(order: seq<nat>, keys: seq<Units>, values: seq<Value>, k: nat, key: Units, v: Value)
    requires |keys| == |values| && k < |order| && Distinct(order)
    requires forall i :: 0 <= i < |order| ==> order[i] < |keys|
    requires DistinctKeys(Members(order, keys, values))
    ensures forall i :: 0 <= i < |Without(order, k)| ==> Without(order, k)[i] < |keys|
    ensures Members(Without(order, k), keys[order[k] := key], values[order[k] := v])
         == RemoveMember(Members(order, keys, values), keys[order[k]])
  {
    var ms, w := Members(order, keys, values), Without(order, k);
    RemoveAt(ms, k);
    forall i | 0 <= i < |w| ensures w[i] < |keys| && w[i] != order[k] { WithoutIs(order, k, i); }
    var ns := Members(w, keys[order[k] := key], values[order[k] := v]);
    forall i | 0 <= i < |ns| ensures ns[i] == (ms[..k] + ms[k + 1..])[i] { WithoutIs(order, k, i); }
  }

  lemma MembersGrow(order: seq<nat>, keys: seq<Units>, values: seq<Value>, moreKeys: seq<Units>, moreValues: seq<Value>)
    requires |keys| == |values| && |moreKeys| == |moreValues| && (forall i :: 0 <= i < |order| ==> order[i] < |keys|)
    ensures forall i :: 0 <= i < |order| ==> order[i] < |keys + moreKeys|
    ensures Members(order, keys + moreKeys, values + moreValues) == Members(order, keys, values)
  {
  }
}
