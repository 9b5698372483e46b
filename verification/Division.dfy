// Division of naturals by a positive divisor: the only non-linear facts the index
// arithmetic needs, each stated once.
module Division {

  // Division made total, so that an empty extent needs no special case.
  function Quot(n: nat, d: nat): (q: nat)
    ensures d > 0 ==> q == n / d
  {
    if d == 0 then 0 else n / d
  }

  function Rem(n: nat, d: nat): (r: nat)
    ensures d > 0 ==> r == n % d < d
  {
    if d == 0 then n else n % d
  }

  lemma Rebuild(n: nat, d: nat)
    requires d > 0
    ensures n == (n / d) * d + n % d
    ensures 0 <= n % d < d
    ensures 0 <= n / d
  {
  }

  lemma MulMonotone(a: int, b: int, d: nat)
    requires a <= b
    ensures a * d <= b * d
  {
  }

  lemma ProductIsCount(a: nat, b: nat)
    ensures 0 <= a * b && (a * b > 0 <==> a > 0 && b > 0)
  {
    if a > 0 && b > 0 {
      MulMonotone(1, a, b);
    }
    MulMonotone(0, a, b);
  }

  // Quotient and remainder are unique.
  lemma Unique(n: nat, d: nat, q: nat, r: nat)
    requires r < d && n == q * d + r
    ensures n / d == q && n % d == r
  {
    Rebuild(n, d);
    var k := n / d;
    assert (k + 1) * d == k * d + d && (q + 1) * d == q * d + d;
    if k < q {
      MulMonotone(k + 1, q, d);
    } else if k > q {
      MulMonotone(q + 1, k, d);
    }
  }

  // Two-digit numbers stay below the product of the radices.
  lemma Below(q: nat, a: nat, r: nat, d: nat)
    requires q < a && r < d
    ensures 0 <= q * d + r < a * d
  {
    MulMonotone(q + 1, a, d);
    assert (q + 1) * d == q * d + d;
  }

  // The leading digit of a number below a product.
  lemma Leading(n: nat, a: nat, d: nat)
    requires n < a * d
    ensures d > 0 && n / d < a
  {
    if d > 0 {
      Rebuild(n, d);
      if n / d >= a {
        MulMonotone(a, n / d, d);
      }
    }
  }

  lemma Spread(a: int, b: int, d: int)
    ensures (a + b) * d == a * d + b * d
  {
  }

  lemma Regroup(a: int, b: int, c: int)
    ensures a * b * c == a * (b * c)
  {
  }
}
