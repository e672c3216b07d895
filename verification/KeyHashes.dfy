/**
 The hash of an object's keys: FNV-1a, told from the last unit. Each step can be
 undone, so keys that differ in their last unit alone have different hashes.
 */
module KeyHashes {
  import O = ScriptObject
  import L = JsonLex

  // ---------------------------------------------------------------- residues

  lemma {:induction false} AddMultiple(t: nat, y: nat, m: nat)
    requires m > 0
    ensures (t * m + y) % m == y % m
  {
    if t > 0 {
      AddMultiple(t - 1, y, m);
      assert t * m + y == ((t - 1) * m + y) + m;
      AddOne((t - 1) * m + y, m);
    }
  }

  lemma AddOne(z: nat, m: nat)
    requires m > 0
    ensures (z + m) % m == z % m
  {
    var q, r := z / m, z % m;
    assert z == q * m + r;
    Unique(z + m, q + 1, r, m);
  }

  lemma Unique(z: nat, q: nat, r: nat, m: nat)
    requires m > 0 && z == q * m + r && r < m
    ensures z % m == r
  {
    var d := z / m - q;
    assert z == z / m * m + z % m;
    assert d * m == r - z % m;
  }

  /** A factor may be reduced before it is multiplied. */
  lemma TimesMod(x: nat, k: nat, m: nat)
    requires m > 0
    ensures (x % m) * k % m == x * k % m
  {
    var q, r := x / m, x % m;
    assert x == q * m + r;
    assert x * k == (q * k) * m + r * k by { Spread(q, m, r, k); }
    AddMultiple(q * k, r * k, m);
  }

  lemma Spread(q: nat, m: nat, r: nat, k: nat)
    ensures (q * m + r) * k == (q * k) * m + r * k
  {
  }

  /** Multiplying by a number that has an inverse can be undone. */
  lemma Undo(x: nat, k: nat, inverse: nat, m: nat)
    requires m > 0 && x < m && k * inverse % m == 1 % m
    ensures (x * k % m) * inverse % m == x
  {
    TimesMod(x * k, inverse, m);
    assert x * k * inverse == (k * inverse) * x by { Turn(x, k, inverse); }
    TimesMod(k * inverse, x, m);
    TimesMod(1, x, m);
    assert 1 * x == x;
    Unique(x, 0, x, m);
  }

  lemma Turn(x: nat, k: nat, inverse: nat)
    ensures x * k * inverse == (k * inverse) * x
  {
  }

  lemma SameFactor(a: nat, b: nat, k: nat, inverse: nat, m: nat)
    requires m > 0 && a < m && b < m && k * inverse % m == 1 % m && a * k % m == b * k % m
    ensures a == b
  {
    Undo(a, k, inverse, m);
    Undo(b, k, inverse, m);
  }

  // ---------------------------------------------------------------- keys

  /** Exclusive or undoes itself. */
  lemma {:induction false} XorTwice(a: nat, b: nat)
    ensures O.Xor(O.Xor(a, b), b) == a
    decreases a + b
  {
    if a != 0 || b != 0 {
      var bit, rest := if a % 2 == b % 2 then 0 else 1, O.Xor(a / 2, b / 2);
      XorTwice(a / 2, b / 2);
      var x := O.Xor(a, b);
      assert x == bit + 2 * rest && x % 2 == bit && x / 2 == rest;
    }
  }

  lemma {:induction false} XorCommutes(a: nat, b: nat)
    ensures O.Xor(a, b) == O.Xor(b, a)
    decreases a + b
  {
    if a != 0 || b != 0 { XorCommutes(a / 2, b / 2); }
  }

  lemma {:induction false} XorBounded(a: nat, b: nat, n: nat)
    requires a < Power2(n) && b < Power2(n)
    ensures O.Xor(a, b) < Power2(n)
    decreases n
  {
    if n > 0 && (a != 0 || b != 0) { XorBounded(a / 2, b / 2, n - 1); }
  }

  function Power2(n: nat): nat {
    if n == 0 then 1 else 2 * Power2(n - 1)
  }

  lemma Power64()
    ensures Power2(64) == 0x1_0000_0000_0000_0000
  {
    assert Power2(8) == 0x100;
    assert Power2(16) == 0x1_0000;
    assert Power2(24) == 0x100_0000;
    assert Power2(32) == 0x1_0000_0000;
    assert Power2(40) == 0x100_0000_0000;
    assert Power2(48) == 0x1_0000_0000_0000;
    assert Power2(56) == 0x100_0000_0000_0000;
  }

  /** One more unit: exclusive or, then the prime. */
  lemma {:induction false} FnvSnoc(units: L.Units, unit: nat, seed: nat)
    ensures O.Fnv(units + [unit], seed)
         == O.Xor(O.Fnv(units, seed), unit) * 0x100_0000_01B3 % 0x1_0000_0000_0000_0000
    decreases |units|
  {
    hide O.Xor;
    var all := units + [unit];
    if units == [] {
      assert all[1..] == [];
    } else {
      assert all[1..] == units[1..] + [unit];
      FnvSnoc(units[1..], unit, O.Xor(seed, units[0]) * O.FNV_PRIME % 0x1_0000_0000_0000_0000);
    }
  }

  lemma {:induction false} FnvBounded(units: L.Units, seed: nat)
    requires seed < 0x1_0000_0000_0000_0000
    ensures O.Fnv(units, seed) < 0x1_0000_0000_0000_0000
    decreases |units|
  {
    hide O.Xor;
    if units != [] { FnvBounded(units[1..], O.Xor(seed, units[0]) * O.FNV_PRIME % 0x1_0000_0000_0000_0000); }
  }

  /** Two keys that differ only in their last unit have different hashes. */
  lemma LastUnitCounts(units: L.Units, a: nat, b: nat)
    requires a <= 0xFFFF && b <= 0xFFFF && O.Hash(units + [a]) == O.Hash(units + [b])
    ensures a == b
  {
    hide O.Xor, O.Fnv, Power2;
    var h := O.Hash(units);
    FnvBounded(units, O.FNV_OFFSET);
    FnvSnoc(units, a, O.FNV_OFFSET);
    FnvSnoc(units, b, O.FNV_OFFSET);
    Power64();
    XorBounded(h, a, 64);
    XorBounded(h, b, 64);
    SameProduct(O.Xor(h, a), O.Xor(h, b));
    XorCommutes(h, a);
    XorCommutes(h, b);
    XorTwice(a, h);
    XorTwice(b, h);
  }

  lemma SameProduct(x: nat, y: nat)
    requires x < 0x1_0000_0000_0000_0000 && y < 0x1_0000_0000_0000_0000
    requires x * 0x100_0000_01B3 % 0x1_0000_0000_0000_0000 == y * 0x100_0000_01B3 % 0x1_0000_0000_0000_0000
    ensures x == y
  {
    PrimeHasInverse();
    SameFactor(x, y, 0x100_0000_01B3, 0xCE96_5057_AFF6_957B, 0x1_0000_0000_0000_0000);
  }

  lemma PrimeHasInverse()
    ensures 0x100_0000_01B3 * 0xCE96_5057_AFF6_957B % 0x1_0000_0000_0000_0000 == 1
  {
  }
}
