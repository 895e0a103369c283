/** The few facts about products and remainders the other modules rely on. */
module Arithmetic {

  lemma {:induction false} ProductAtLeast(d: nat, k: nat)
    requires d >= 1
    ensures d * k >= k
  {
    if d == 1 {
    } else {
      ProductAtLeast(d - 1, k);
      assert d * k == (d - 1) * k + k;
    }
  }

  /** A quotient and remainder within range are the quotient and remainder. */
  lemma DivModUnique(m: nat, k: nat, q: nat, r: nat)
    requires k >= 1 && m == q * k + r && r < k
    ensures m / k == q && m % k == r
  {
    var q', r' := m / k, m % k;
    assert m == q' * k + r';
    assert (q - q') * k == q * k - q' * k && (q' - q) * k == q' * k - q * k;
    if q > q' {
      ProductAtLeast(q - q', k);
    } else if q < q' {
      ProductAtLeast(q' - q, k);
    }
  }

  lemma ModBound(m: nat, k: nat)
    requires k >= 1
    ensures m % k < k && m % k <= m
  {
    if m < k {
      DivModUnique(m, k, 0, m);
    }
  }

  /** Counting up by one either increments the remainder or wraps it to zero. */
  lemma ModStep(m: nat, k: nat)
    requires k >= 1
    ensures (m + 1) % k == if m % k + 1 == k then 0 else m % k + 1
  {
    var q, r := m / k, m % k;
    assert m == q * k + r;
    if r + 1 == k {
      assert (q + 1) * k == q * k + k;
      DivModUnique(m + 1, k, q + 1, 0);
    } else {
      DivModUnique(m + 1, k, q, r + 1);
    }
  }

  /** The product by repeated addition, which keeps multiplication out of proofs about counts. */
  function Product(x: nat, y: nat): nat {
    if x == 0 then 0 else Product(x - 1, y) + y
  }

  lemma {:induction false} ProductIs(x: nat, y: nat)
    ensures Product(x, y) == x * y
  {
    if x == 0 {
    } else {
      ProductIs(x - 1, y);
      assert x * y == (x - 1) * y + y;
    }
  }

  lemma ProductExchange(x: nat, y: nat, z: nat)
    ensures Product(x, Product(y, z)) == Product(y, Product(x, z))
  {
    calc {
      Product(x, Product(y, z));
      { ProductIs(y, z); ProductIs(x, y * z); }
      x * (y * z);
      y * (x * z);
      { ProductIs(x, z); ProductIs(y, x * z); }
      Product(y, Product(x, z));
    }
  }

  lemma ProductUnits(x: nat)
    ensures Product(x, 0) == 0 == Product(0, x) && Product(x, 1) == x == Product(1, x)
  {
    ProductIs(x, 0);
    ProductIs(x, 1);
  }

  lemma ProductPlus(x: nat, y: nat)
    ensures Product(x, y + 1) == Product(x, y) + x
  {
    ProductIs(x, y);
    ProductIs(x, y + 1);
  }

  lemma ProductMonotone(x: nat, y: nat, z: nat)
    requires x <= y
    ensures Product(x, z) <= Product(y, z)
  {
    ProductIs(x, z);
    ProductIs(y, z);
    assert (y - x) * z >= 0;
  }

  lemma ProductStrict(n: nat, x: nat, y: nat)
    requires n >= 1 && x < y
    ensures Product(n, x) < Product(n, y)
  {
    ProductIs(n, x);
    ProductIs(n, y);
    ProductAtLeast(n, y - x);
    assert n * y == n * x + n * (y - x);
  }

  function Min(x: nat, y: nat): nat {
    if x <= y then x else y
  }
}
