/** naive.cpp: the plain matrix product and the one that transposes its second argument first,
    with every int operation wrapping at 32 bits. */
module MatMul {

  const W32: int := 0x1_0000_0000

  type Int32 = x: int | -W32 / 2 <= x < W32 / 2

  function Wrap(x: int): Int32 {
    (x + W32 / 2) % W32 - W32 / 2
  }

  ghost predicate Square(m: array2<Int32>, n: nat) {
    m.Length0 == n && m.Length1 == n
  }

  /** The product's entry over the integers: the sum of m1[i, x] * m2[x, j] for x < k. */
  ghost function Dot(m1: array2<Int32>, m2: array2<Int32>, n: nat, i: nat, j: nat, k: nat): int
    requires Square(m1, n) && Square(m2, n) && i < n && j < n && k <= n
    reads m1, m2
  {
    if k == 0 then 0 else Dot(m1, m2, n, i, j, k - 1) + m1[i, k - 1] * m2[k - 1, j]
  }

  // ----- laws of the product -----

  ghost predicate Identity(e: array2<Int32>, n: nat)
    reads e
  {
    Square(e, n) && forall x, y :: 0 <= x < n && 0 <= y < n ==> e[x, y] == if x == y then 1 else 0
  }

  ghost predicate Transposed(t: array2<Int32>, m: array2<Int32>, n: nat)
    reads t, m
  {
    Square(t, n) && Square(m, n) && forall x, y :: 0 <= x < n && 0 <= y < n ==> t[x, y] == m[y, x]
  }

  /** I * m = m. */
  lemma IdentityLeft(e: array2<Int32>, m: array2<Int32>, n: nat, i: nat, j: nat)
    requires Identity(e, n) && Square(m, n) && i < n && j < n
    ensures Dot(e, m, n, i, j, n) == m[i, j]
  {
    IdentityLeftUpTo(e, m, n, i, j, n);
  }

  lemma {:induction false} IdentityLeftUpTo(e: array2<Int32>, m: array2<Int32>, n: nat, i: nat, j: nat, k: nat)
    requires Identity(e, n) && Square(m, n) && i < n && j < n && k <= n
    ensures Dot(e, m, n, i, j, k) == if i < k then m[i, j] as int else 0
    decreases k
  {
    if k > 0 {
      IdentityLeftUpTo(e, m, n, i, j, k - 1);
    }
  }

  /** m * I = m. */
  lemma IdentityRight(m: array2<Int32>, e: array2<Int32>, n: nat, i: nat, j: nat)
    requires Identity(e, n) && Square(m, n) && i < n && j < n
    ensures Dot(m, e, n, i, j, n) == m[i, j]
  {
    IdentityRightUpTo(m, e, n, i, j, n);
  }

  lemma {:induction false} IdentityRightUpTo(m: array2<Int32>, e: array2<Int32>, n: nat, i: nat, j: nat, k: nat)
    requires Identity(e, n) && Square(m, n) && i < n && j < n && k <= n
    ensures Dot(m, e, n, i, j, k) == if j < k then m[i, j] as int else 0
    decreases k
  {
    if k > 0 {
      IdentityRightUpTo(m, e, n, i, j, k - 1);
    }
  }

  /** The transpose of a * b is the product of b's transpose and a's. */
  lemma {:induction false} TransposeOfProduct(a: array2<Int32>, b: array2<Int32>, aT: array2<Int32>, bT: array2<Int32>,
                                              n: nat, i: nat, j: nat, k: nat)
    requires Transposed(aT, a, n) && Transposed(bT, b, n) && i < n && j < n && k <= n
    ensures Dot(a, b, n, i, j, k) == Dot(bT, aT, n, j, i, k)
    decreases k
  {
    if k > 0 {
      TransposeOfProduct(a, b, aT, bT, n, i, j, k - 1);
    }
  }

  /** The product is linear in its left factor: (p * a + q * b) * m = p * (a * m) + q * (b * m). */
  lemma {:induction false} LinearOnTheLeft(a: array2<Int32>, b: array2<Int32>, c: array2<Int32>, m: array2<Int32>,
                                           p: int, q: int, n: nat, i: nat, j: nat, k: nat)
    requires Square(a, n) && Square(b, n) && Square(c, n) && Square(m, n) && i < n && j < n && k <= n
    requires forall x, y :: 0 <= x < n && 0 <= y < n ==> c[x, y] == p * a[x, y] + q * b[x, y]
    ensures Dot(c, m, n, i, j, k) == p * Dot(a, m, n, i, j, k) + q * Dot(b, m, n, i, j, k)
    decreases k
  {
    if k > 0 {
      LinearOnTheLeft(a, b, c, m, p, q, n, i, j, k - 1);
      Distributes(p, q, a[i, k - 1], b[i, k - 1], m[k - 1, j], Dot(a, m, n, i, j, k - 1), Dot(b, m, n, i, j, k - 1));
    }
  }

  lemma Distributes(p: int, q: int, x: int, y: int, z: int, u: int, v: int)
    ensures p * u + q * v + (p * x + q * y) * z == p * (u + x * z) + q * (v + y * z)
  {
    assert (p * x + q * y) * z == p * (x * z) + q * (y * z);
    assert p * (u + x * z) == p * u + p * (x * z);
    assert q * (v + y * z) == q * v + q * (y * z);
  }

  // ----- wrap-around -----

  /** Wrapping after every operation is wrapping once at the end. */
  lemma WrapOnce(total: int, p: int)
    ensures Wrap(Wrap(total) + Wrap(p)) == Wrap(total + p)
  {
    assert Wrap(total) == total - W32 * ((total + W32 / 2) / W32);
    assert Wrap(p) == p - W32 * ((p + W32 / 2) / W32);
  }

  /** In range, wrapping changes nothing, so without overflow the results are the integer ones. */
  lemma WrapInRange(x: int)
    requires -W32 / 2 <= x < W32 / 2
    ensures Wrap(x) == x
  {
  }

  /** The rows before i, and in row i the columns before j, hold initial value plus product. */
  ghost predicate DoneUpTo(m1: array2<Int32>, m2: array2<Int32>, n: nat, init: seq<seq<Int32>>, res: array2<Int32>,
                           i: nat, j: nat)
    requires Square(m1, n) && Square(m2, n) && Square(res, n)
    requires |init| == n && forall x :: 0 <= x < n ==> |init[x]| == n
    reads m1, m2, res
  {
    forall x, y :: 0 <= x < n && 0 <= y < n ==>
      res[x, y] == if x < i || (x == i && y < j) then Wrap(init[x][y] + Dot(m1, m2, n, x, y, n)) else init[x][y]
  }

  ghost function Rows(m: array2<Int32>, n: nat): (r: seq<seq<Int32>>)
    requires Square(m, n)
    ensures |r| == n && forall x :: 0 <= x < n ==> |r[x]| == n
    ensures forall x, y :: 0 <= x < n && 0 <= y < n ==> r[x][y] == m[x, y]
    reads m
  {
    seq(n, x requires 0 <= x < n reads m => seq(n, y requires 0 <= y < n reads m => m[x, y]))
  }

  /** res += m1 * m2, mod 2^32. */
  twostate predicate AddsProduct(m1: array2<Int32>, m2: array2<Int32>, n: nat, res: array2<Int32>)
    requires Square(m1, n) && Square(m2, n) && Square(res, n)
    reads m1, m2, res
  {
    forall x, y :: 0 <= x < n && 0 <= y < n ==> res[x, y] == Wrap(old(res[x, y]) + Dot(m1, m2, n, x, y, n))
  }

  /** The innermost loop of naive: it changes the one cell only. */
  method AddCell(n: nat, m1: array2<Int32>, m2: array2<Int32>, res: array2<Int32>, i: nat, j: nat)
    requires Square(m1, n) && Square(m2, n) && Square(res, n) && i < n && j < n
    requires res != m1 && res != m2
    modifies res
    ensures res[i, j] == Wrap(old(res[i, j]) + Dot(m1, m2, n, i, j, n))
    ensures forall x, y :: 0 <= x < n && 0 <= y < n && !(x == i && y == j) ==> res[x, y] == old(res[x, y])
  {
    WrapInRange(res[i, j]);
    hide Wrap;
    for k := 0 to n
      invariant res[i, j] == Wrap(old(res[i, j]) + Dot(m1, m2, n, i, j, k))
      invariant forall x, y :: 0 <= x < n && 0 <= y < n && !(x == i && y == j) ==> res[x, y] == old(res[x, y])
    {
      WrapOnce(old(res[i, j]) + Dot(m1, m2, n, i, j, k), m1[i, k] * m2[k, j]);
      res[i, j] := Wrap(res[i, j] + Wrap(m1[i, k] * m2[k, j]));
    }
  }

  /** The innermost loop of fast, which reads m2 through its transpose. */
  method AddCellTransposed(n: nat, m1: array2<Int32>, m2: array2<Int32>, m2T: array2<Int32>,
                           res: array2<Int32>, i: nat, j: nat)
    requires Square(m1, n) && Square(m2, n) && Square(res, n) && i < n && j < n
    requires res != m1 && res != m2
    requires Square(m2T, n) && res != m2T
    requires forall x, y :: 0 <= x < n && 0 <= y < n ==> m2T[x, y] == m2[y, x]
    modifies res
    ensures res[i, j] == Wrap(old(res[i, j]) + Dot(m1, m2, n, i, j, n))
    ensures forall x, y :: 0 <= x < n && 0 <= y < n && !(x == i && y == j) ==> res[x, y] == old(res[x, y])
  {
    WrapInRange(res[i, j]);
    hide Wrap;
    for k := 0 to n
      invariant res[i, j] == Wrap(old(res[i, j]) + Dot(m1, m2, n, i, j, k))
      invariant forall x, y :: 0 <= x < n && 0 <= y < n && !(x == i && y == j) ==> res[x, y] == old(res[x, y])
    {
      WrapOnce(old(res[i, j]) + Dot(m1, m2, n, i, j, k), m1[i, k] * m2[k, j]);
      res[i, j] := Wrap(res[i, j] + Wrap(m1[i, k] * m2T[j, k]));
    }
  }

  method Naive(n: nat, m1: array2<Int32>, m2: array2<Int32>, res: array2<Int32>)
    requires Square(m1, n) && Square(m2, n) && Square(res, n) && res != m1 && res != m2
    modifies res
    ensures AddsProduct(m1, m2, n, res)
  {
    hide Wrap, Dot;
    ghost var init := Rows(res, n);
    for i := 0 to n
      invariant DoneUpTo(m1, m2, n, init, res, i, 0)
    {
      for j := 0 to n
        invariant DoneUpTo(m1, m2, n, init, res, i, j)
      {
        AddCell(n, m1, m2, res, i, j);
      }
    }
  }

  method Transpose(n: nat, m: array2<Int32>) returns (t: array2<Int32>)
    requires Square(m, n)
    ensures fresh(t) && Square(t, n)
    ensures forall x, y :: 0 <= x < n && 0 <= y < n ==> t[x, y] == m[y, x]
  {
    t := new Int32[n, n];
    for i := 0 to n
      invariant forall x, y :: 0 <= x < i && 0 <= y < n ==> t[x, y] == m[y, x]
    {
      for j := 0 to n
        invariant forall x, y :: 0 <= x < i && 0 <= y < n ==> t[x, y] == m[y, x]
        invariant forall y :: 0 <= y < j ==> t[i, y] == m[y, i]
      {
        t[i, j] := m[j, i];
      }
    }
  }

  method Fast(n: nat, m1: array2<Int32>, m2: array2<Int32>, res: array2<Int32>)
    requires Square(m1, n) && Square(m2, n) && Square(res, n) && res != m1 && res != m2
    modifies res
    ensures AddsProduct(m1, m2, n, res)
  {
    hide Wrap, Dot;
    ghost var init := Rows(res, n);
    var m2T := Transpose(n, m2);
    for i := 0 to n
      invariant forall x, y :: 0 <= x < n && 0 <= y < n ==> m2T[x, y] == m2[y, x]
      invariant DoneUpTo(m1, m2, n, init, res, i, 0)
    {
      for j := 0 to n
        invariant forall x, y :: 0 <= x < n && 0 <= y < n ==> m2T[x, y] == m2[y, x]
        invariant DoneUpTo(m1, m2, n, init, res, i, j)
      {
        AddCellTransposed(n, m1, m2, m2T, res, i, j);
      }
    }
  }

  /** From equal initial results, naive and fast leave equal results. */
  method FastRefinesNaive(n: nat, m1: array2<Int32>, m2: array2<Int32>, res: array2<Int32>, res': array2<Int32>)
    requires Square(m1, n) && Square(m2, n) && Square(res, n) && Square(res', n)
    requires res != m1 && res != m2 && res' != m1 && res' != m2 && res != res'
    requires forall x, y :: 0 <= x < n && 0 <= y < n ==> res[x, y] == res'[x, y]
    modifies res, res'
    ensures forall x, y :: 0 <= x < n && 0 <= y < n ==> res[x, y] == res'[x, y]
  {
    Naive(n, m1, m2, res);
    Fast(n, m1, m2, res');
  }
}
