/**
  Arithmetic on exact reals: signs of products, squares, and the square root as a
  parameter with its defining equation.
  */
module Reals {

  function Sq(x: real): real {
    x * x
  }

  function Abs(x: real): real {
    if x < 0.0 then -x else x
  }

  type Root = real -> real

  ghost predicate IsRoot(sqrt: Root) {
    forall v :: v >= 0.0 ==> sqrt(v) >= 0.0 && Sq(sqrt(v)) == v
  }

  lemma Product(x: real, y: real)
    requires x >= 0.0 && y >= 0.0
    ensures x * y >= 0.0
  {
  }

  lemma ProductPositive(x: real, y: real)
    requires x > 0.0 && y > 0.0
    ensures x * y > 0.0
  {
  }

  lemma SqPositive(x: real)
    requires x > 0.0
    ensures Sq(x) > 0.0
  {
    calc {
      Sq(x);
    ==
      x * x;
    > { ProductPositive(x, x); }
      0.0;
    }
  }

  lemma SqNonNegative(x: real)
    ensures Sq(x) >= 0.0
    ensures Sq(x) > 0.0 <==> x != 0.0
  {
    if x > 0.0 {
      SqPositive(x);
    } else if x < 0.0 {
      SqPositive(-x);
      assert Sq(x) == Sq(-x);
    }
  }

  lemma SqDifference(a: real, b: real)
    ensures Sq(b) - Sq(a) == (b - a) * (b + a)
  {
  }

  lemma SqMonotone(a: real, b: real)
    requires 0.0 <= a && 0.0 <= b
    ensures Sq(a) <= Sq(b) <==> a <= b
  {
    SqDifference(a, b);
    if a <= b {
      Product(b - a, b + a);
    } else {
      ProductPositive(a - b, b + a);
      assert (a - b) * (b + a) == -((b - a) * (b + a));
    }
  }

  lemma SqAbs(x: real)
    ensures Sq(Abs(x)) == Sq(x)
  {
  }

  lemma RootPositive(sqrt: Root, v: real)
    requires IsRoot(sqrt) && v > 0.0
    ensures sqrt(v) > 0.0
  {
    SqNonNegative(sqrt(v));
  }

  /** The root is determined by its equation. */
  lemma RootUnique(sqrt: Root, s: real)
    requires IsRoot(sqrt) && s >= 0.0
    ensures sqrt(Sq(s)) == s
  {
    SqNonNegative(s);
    var r := sqrt(Sq(s));
    SqMonotone(r, s);
    SqMonotone(s, r);
  }

  lemma SqProduct(a: real, b: real)
    ensures Sq(a * b) == Sq(a) * Sq(b)
  {
  }

  /** Comparing a quotient with a threshold is comparing squares. */
  lemma QuotientAtLeast(d: real, std: real, z: real)
    requires std > 0.0 && z > 0.0
    ensures Abs(d / std) >= z <==> Sq(d) >= Sq(z) * Sq(std)
  {
    var q := d / std;
    assert q * std == d;
    SqProduct(q, std);
    SqAbs(q);
    SqMonotone(z, Abs(q));
    SqNonNegative(std);
    var gap := Sq(q) - Sq(z);
    assert gap * Sq(std) == Sq(d) - Sq(z) * Sq(std);
    if gap >= 0.0 {
      Product(gap, Sq(std));
    } else {
      ProductPositive(-gap, Sq(std));
      assert (-gap) * Sq(std) == -(gap * Sq(std));
    }
  }

  /** A product by name, for proofs that need no more than its laws. */
  function Times(x: real, y: real): real {
    x * y
  }

  lemma TimesSum(r: real, s: real, t: real)
    ensures Times(r, s) + Times(r, t) == Times(r, s + t)
  {
  }

  lemma TimesAssoc(r: real, w: real, y: real)
    ensures Times(Times(r, w), y) == Times(r, Times(w, y))
  {
  }
}
