// Finite sums over the exact reals: just the laws that rearranging a
// convolution needs.
module Sums {
  import opened Products

  ghost function Sum(n: nat, f: nat -> real): real
  {
    if n == 0 then 0.0 else Sum(n - 1, f) + f(n - 1)
  }

  ghost function Fix(f: (nat, nat) -> real, i: nat): nat -> real
  {
    (j: nat) => f(i, j)
  }

  // The sums over the second index, as a function of the first.
  ghost function Inner(n: nat, f: (nat, nat) -> real): nat -> real
  {
    (i: nat) => Sum(n, Fix(f, i))
  }

  ghost function Flip(f: (nat, nat) -> real): (nat, nat) -> real
  {
    (j: nat, i: nat) => f(i, j)
  }

  lemma {:induction false} Congruent(n: nat, f: nat -> real, g: nat -> real)
    requires forall i: nat :: i < n ==> f(i) == g(i)
    ensures Sum(n, f) == Sum(n, g)
  {
    if n > 0 {
      Congruent(n - 1, f, g);
    }
  }

  lemma {:induction false} Plus(n: nat, f: nat -> real, g: nat -> real, h: nat -> real)
    requires forall i: nat :: i < n ==> h(i) == f(i) + g(i)
    ensures Sum(n, h) == Sum(n, f) + Sum(n, g)
  {
    if n > 0 {
      Plus(n - 1, f, g, h);
    }
  }

  lemma {:induction false} Scale(n: nat, c: real, f: nat -> real, h: nat -> real)
    requires forall i: nat :: i < n ==> h(i) == Mul(c, f(i))
    ensures Sum(n, h) == Mul(c, Sum(n, f))
  {
    if n > 0 {
      Scale(n - 1, c, f, h);
      Distribute(c, Sum(n - 1, f), f(n - 1));
    } else {
      Zero(c);
    }
  }

  lemma {:induction false} Vanish(n: nat, f: nat -> real)
    requires forall i: nat :: i < n ==> f(i) == 0.0
    ensures Sum(n, f) == 0.0
  {
    if n > 0 {
      Vanish(n - 1, f);
    }
  }

  // A sum with one non-zero term.
  lemma {:induction false} Single(n: nat, k: nat, f: nat -> real)
    requires k < n
    requires forall i: nat :: i < n && i != k ==> f(i) == 0.0
    ensures Sum(n, f) == f(k)
  {
    if k == n - 1 {
      Vanish(n - 1, f);
    } else {
      Single(n - 1, k, f);
    }
  }

  lemma {:induction false} Append(m: nat, n: nat, f: nat -> real, g: nat -> real)
    requires forall i: nat :: i < n ==> g(i) == f(m + i)
    ensures Sum(m + n, f) == Sum(m, f) + Sum(n, g)
  {
    if n > 0 {
      Append(m, n - 1, f, g);
      assert g(n - 1) == f(m + (n - 1));
      assert m + n - 1 == m + (n - 1);
    }
  }

  // The two nestings of a double sum agree.
  lemma {:induction false} Swap(m: nat, n: nat, f: (nat, nat) -> real)
    ensures Sum(m, Inner(n, f)) == Sum(n, Inner(m, Flip(f)))
  {
    if m == 0 {
      Vanish(n, Inner(0, Flip(f)));
    } else {
      Swap(m - 1, n, f);
      forall j: nat | j < n
        ensures Inner(m, Flip(f))(j) == Inner(m - 1, Flip(f))(j) + Fix(f, m - 1)(j)
      {
        assert Fix(Flip(f), j)(m - 1) == f(m - 1, j);
      }
      Plus(n, Inner(m - 1, Flip(f)), Fix(f, m - 1), Inner(m, Flip(f)));
    }
  }

  // A flat sum over a*b positions, as the double sum over its two coordinates.
  lemma {:induction false} Flatten(a: nat, b: nat, f: nat -> real, h: (nat, nat) -> real)
    requires forall i: nat, j: nat :: i < a && j < b ==> h(i, j) == f(i * b + j)
    ensures Sum(a * b, f) == Sum(a, Inner(b, h))
  {
    if a > 0 {
      Flatten(a - 1, b, f, h);
      assert a * b == (a - 1) * b + b;
      Append((a - 1) * b, b, f, Fix(h, a - 1));
    }
  }
}
