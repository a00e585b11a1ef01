/** Facts about quotients and remainders by a size that is not a constant. */
module Arithmetic {

  lemma Monotone(a: int, b: int, m: nat)
    requires a <= b
    ensures a * m <= b * m
  {
  }

  /** A product that a proof may treat as a whole. */
  function Product(a: nat, b: nat): nat {
    a * b
  }

  lemma QuotientIs(x: int, m: nat, q: int, r: int)
    requires m >= 1 && 0 <= r < m && x == q * m + r
    ensures x / m == q && x % m == r
  {
    assert x == (x / m) * m + x % m;
    if x / m < q {
      Monotone(x / m + 1, q, m);
    } else if x / m > q {
      Monotone(q + 1, x / m, m);
    }
  }

  lemma QuotientBelow(x: nat, m: nat, k: nat)
    requires m >= 1
    ensures x / m < k <==> x < k * m
  {
    assert x == (x / m) * m + x % m;
    if x / m < k {
      Monotone(x / m + 1, k, m);
    } else {
      Monotone(k, x / m, m);
    }
  }

  lemma QuotientsGrow(x: nat, y: nat, p: nat)
    requires p >= 1 && x <= y
    ensures x / p <= y / p
  {
    QuotientBelow(x, p, y / p + 1);
    QuotientBelow(y, p, y / p + 1);
  }

  lemma QuotientsShift(m: nat, x: nat, p: nat)
    requires p >= 1 && m % p == 0
    ensures (m + x) / p == m / p + x / p
  {
    assert m == m / p * p && x == x / p * p + x % p;
    assert m + x == (m / p + x / p) * p + x % p;
    QuotientIs(m + x, p, m / p + x / p, x % p);
  }

  /** Stepping at most once around a ring of m cells. */
  lemma ModStep(x: nat, i: nat, m: nat)
    requires m >= 1 && i <= m
    ensures (x + i) % m == if x % m + i < m then x % m + i else x % m + i - m
  {
    var q := x / m;
    assert x == q * m + x % m;
    if x % m + i < m {
      QuotientIs(x + i, m, q, x % m + i);
    } else {
      assert (q + 1) * m == q * m + m;
      QuotientIs(x + i, m, q + 1, x % m + i - m);
    }
  }

  /** Offsets less than m apart sit in different cells. */
  lemma ModApart(x: nat, y: nat, m: nat)
    requires x < y < x + m
    ensures x % m != y % m
  {
    ModStep(x, y - x, m);
  }

  /** The largest multiple of p that is not above x. */
  function AlignDown(x: int, p: nat): (r: int)
    requires p >= 1
    ensures x - p < r <= x && r % p == 0
  {
    assert x == (x / p) * p + x % p;
    QuotientIs((x / p) * p, p, x / p, 0);
    (x / p) * p
  }

  lemma AlignDownMonotone(x: int, y: int, p: nat)
    requires p >= 1 && x <= y
    ensures AlignDown(x, p) <= AlignDown(y, p)
  {
    if y / p < x / p {
      Monotone(y / p + 1, x / p, p);
    }
    Monotone(x / p, y / p, p);
  }

  lemma AlignDownShift(m: int, x: int, p: nat)
    requires p >= 1 && m % p == 0
    ensures AlignDown(m + x, p) == m + AlignDown(x, p)
  {
    assert m == m / p * p && x == x / p * p + x % p;
    assert m + x == (m / p + x / p) * p + x % p;
    QuotientIs(m + x, p, m / p + x / p, x % p);
    assert (m / p + x / p) * p == m / p * p + x / p * p;
  }

  lemma DividesTrans(x: int, y: nat, z: nat)
    requires y >= 1 && z >= 1 && x % y == 0 && y % z == 0
    ensures x % z == 0
  {
    var a, b := x / y, y / z;
    assert x == a * y && y == b * z;
    assert x == (a * b) * z;
    QuotientIs(x, z, a * b, 0);
  }

  function Min(a: nat, b: nat): nat {
    if a < b then a else b
  }

  function Pow2(k: nat): (r: nat)
    ensures r >= 1
  {
    if k == 0 then 1 else 2 * Pow2(k - 1)
  }
}
