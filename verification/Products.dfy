// The product of two exact reals, closed: Mul is a * b, but the verifier sees that
// only where Times is called.  Sums can then be rearranged by the laws below, with no
// non-linear arithmetic in sight.
module Products {

  ghost predicate Open(a: real, b: real) {
    true
  }

  ghost predicate IsProduct(a: real, b: real, r: real) {
    forall u: real, v: real {:trigger Open(u, v)} :: Open(u, v) && u == a && v == b ==> r == u * v
  }

  ghost function Mul(a: real, b: real): real
  {
    assert IsProduct(a, b, a * b);
    var r :| IsProduct(a, b, r);
    r
  }

  lemma Times(a: real, b: real)
    ensures Mul(a, b) == a * b
  {
    assert Open(a, b);
  }

  lemma Commute(a: real, b: real)
    ensures Mul(a, b) == Mul(b, a)
  {
    Times(a, b);
    Times(b, a);
  }

  lemma Associate(a: real, b: real, c: real)
    ensures Mul(Mul(a, b), c) == Mul(a, Mul(b, c))
  {
    Times(a, b);
    Times(b, c);
    Times(Mul(a, b), c);
    Times(a, Mul(b, c));
  }

  lemma Distribute(c: real, a: real, b: real)
    ensures Mul(c, a + b) == Mul(c, a) + Mul(c, b)
    ensures Mul(a + b, c) == Mul(a, c) + Mul(b, c)
  {
    Times(c, a + b);
    Times(c, a);
    Times(c, b);
    Times(a + b, c);
    Times(a, c);
    Times(b, c);
  }

  lemma Zero(a: real)
    ensures Mul(a, 0.0) == 0.0 && Mul(0.0, a) == 0.0
  {
    Times(a, 0.0);
    Times(0.0, a);
  }

  lemma One(a: real)
    ensures Mul(1.0, a) == a
  {
    Times(1.0, a);
  }
}
