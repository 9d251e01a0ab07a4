/** Byte-addressed little-endian memory.  The domain of the map is what is mapped: any access
    outside it is a fault. */
module ByteMemory {

  type Byte = x: int | 0 <= x < 256
  type Memory = map<int, Byte>

  ghost predicate Mapped(m: Memory, lo: int, hi: int) {
    forall a :: lo <= a < hi ==> a in m
  }

  predicate MappedBytes(m: Memory, a: int, n: nat)
    decreases n
  {
    n == 0 || (a in m && MappedBytes(m, a + 1, n - 1))
  }

  function Pow256(n: nat): (p: nat)
    ensures p > 0
  {
    if n == 0 then 1 else 256 * Pow256(n - 1)
  }

  /** The n-byte little-endian value at a. */
  function Load(m: Memory, a: int, n: nat): (v: nat)
    ensures v < Pow256(n)
    decreases n
  {
    if n == 0 then 0 else (if a in m then m[a] else 0) + 256 * Load(m, a + 1, n - 1)
  }

  function Store(m: Memory, a: int, n: nat, v: nat): Memory
    decreases n
  {
    if n == 0 then m else Store(m[a := v % 256], a + 1, n - 1, v / 256)
  }

  lemma {:induction false} MappedBytesIff(m: Memory, a: int, n: nat)
    ensures MappedBytes(m, a, n) <==> Mapped(m, a, a + n)
    decreases n
  {
    if n != 0 {
      MappedBytesIff(m, a + 1, n - 1);
    }
  }

  lemma {:induction false} LoadFrame(m: Memory, m': Memory, a: int, n: nat)
    requires forall x :: a <= x < a + n ==> (x in m <==> x in m')
    requires forall x :: a <= x < a + n && x in m && x in m' ==> m[x] == m'[x]
    ensures Load(m, a, n) == Load(m', a, n)
    decreases n
  {
    if n != 0 {
      LoadFrame(m, m', a + 1, n - 1);
    }
  }

  lemma {:induction false} StoreFrame(m: Memory, a: int, n: nat, v: nat)
    ensures forall x :: x in Store(m, a, n, v) <==> x in m || a <= x < a + n
    ensures forall x :: x in m && !(a <= x < a + n) ==> Store(m, a, n, v)[x] == m[x]
    decreases n
  {
    if n != 0 {
      StoreFrame(m[a := v % 256], a + 1, n - 1, v / 256);
    }
  }

  /** What was stored is what is loaded. */
  lemma {:induction false} LoadStore(m: Memory, a: int, n: nat, v: nat)
    requires v < Pow256(n)
    ensures Load(Store(m, a, n, v), a, n) == v
    decreases n
  {
    if n != 0 {
      var m1 := m[a := v % 256];
      LoadStore(m1, a + 1, n - 1, v / 256);
      StoreFrame(m1, a + 1, n - 1, v / 256);
    }
  }

  /** Little-endian: byte k of the value, counted from the least significant, is at a + k. */
  lemma {:induction false} LoadBytes(m: Memory, a: int, n: nat, k: nat)
    requires k < n && Mapped(m, a, a + n)
    ensures Load(m, a, n) / Pow256(k) % 256 == m[a + k]
    decreases k
  {
    var rest := Load(m, a + 1, n - 1);
    if k > 0 {
      LoadBytes(m, a + 1, n - 1, k - 1);
      ShiftByte(m[a], rest, Pow256(k - 1));
    }
  }

  /** Dropping a byte, then dividing by p, is dividing by 256 * p. */
  lemma ShiftByte(low: Byte, rest: nat, p: nat)
    requires p > 0
    ensures (low + 256 * rest) / (256 * p) == rest / p
  {
    var q, r := rest / p, rest % p;
    assert rest == q * p + r;
    assert low + 256 * rest == (256 * p) * q + (low + 256 * r);
    DivIs(low + 256 * rest, 256 * p, q, low + 256 * r);
  }

  lemma DivIs(x: nat, d: nat, q: nat, r: nat)
    requires d > 0 && r < d && x == d * q + r
    ensures x / d == q
  {
    var z := q - x / d;
    assert d * z == x % d - r;
    if z >= 1 {
      ProductAtLeast(d, z);
    } else if z <= -1 {
      ProductAtLeast(d, -z);
    }
  }

  lemma ProductAtLeast(d: int, z: int)
    requires d >= 0 && z >= 1
    ensures d * z >= d
  {
  }
}
