/** Vectors over the reals (DummyClient/Types.h) and linear interpolation (DummyClient/Utils.h). */
module Vectors {

  datatype Vec3 = Vec3(x: real, y: real, z: real)

  const ZERO: Vec3 := Vec3(0.0, 0.0, 0.0)

  function Scale(v: Vec3, k: real): Vec3 {
    Vec3(v.x * k, v.y * k, v.z * k)
  }

  function Plus(a: Vec3, b: Vec3): Vec3 {
    Vec3(a.x + b.x, a.y + b.y, a.z + b.z)
  }

  function Minus(a: Vec3, b: Vec3): Vec3 {
    Vec3(a.x - b.x, a.y - b.y, a.z - b.z)
  }

  function LengthSquared(v: Vec3): real {
    v.x * v.x + v.y * v.y + v.z * v.z
  }

  function LerpReal(a: real, b: real, t: real): real {
    a * (1.0 - t) + b * t
  }

  function Lerp(a: Vec3, b: Vec3, t: real): Vec3 {
    Plus(Scale(a, 1.0 - t), Scale(b, t))
  }

  /** `r` divides the way from `a` to `b` as `elapsed` divides `span`. */
  predicate Divides(a: real, b: real, r: real, elapsed: real, span: real) {
    (r - a) * span == (b - a) * elapsed
  }

  /** Interpolating by a quotient divides in that proportion: from `a` at nothing to `b` at the whole. */
  lemma LerpDivides(a: real, b: real, elapsed: real, span: real)
    requires span != 0.0
    ensures Divides(a, b, LerpReal(a, b, elapsed / span), elapsed, span)
  {
    var t := elapsed / span;
    LerpIsLinear(a, b, t);
    calc {
      (LerpReal(a, b, t) - a) * span;
      Product(Product(b - a, t), span);
      { ProductAssociates(b - a, t, span); }
      Product(b - a, Product(t, span));
      { DivideMultiply(elapsed, span); }
      Product(b - a, elapsed);
    }
  }

  lemma LerpIsLinear(a: real, b: real, t: real)
    ensures LerpReal(a, b, t) - a == Product(b - a, t)
  {
  }

  lemma DivideMultiply(x: real, len: real)
    requires len != 0.0
    ensures Product(x / len, len) == x
  {
  }

  // Products by name: the facts below are about the name, so that the solver meets each product once.

  function Product(a: real, b: real): real { a * b }

  lemma ProductDistributes(a: real, b: real, c: real, q: real)
    ensures Product(a + b + c, q) == Product(a, q) + Product(b, q) + Product(c, q)
  {
  }

  lemma ProductCancels(k: real, q: real)
    requires Product(k, q) == q && q != 0.0
    ensures k == 1.0
  {
    hide Product;
    ProductDivides(k, q);
    ProductDivides(1.0, q);
    ProductOfOne(q);
  }

  lemma ProductDivides(k: real, q: real)
    requires q != 0.0
    ensures Product(k, q) / q == k
  {
  }

  lemma ProductOfOne(q: real)
    ensures Product(1.0, q) == q
  {
  }

  lemma ProductIsPositive(a: real, b: real)
    requires a > 0.0 && b > 0.0
    ensures Product(a, b) > 0.0
  {
  }

  lemma SignsCancel(k: real)
    ensures Product(-k, -k) == Product(k, k)
  {
  }

  lemma ProductAssociates(a: real, b: real, c: real)
    ensures Product(Product(a, b), c) == Product(a, Product(b, c))
  {
  }

  lemma ProductCommutes(a: real, b: real)
    ensures Product(a, b) == Product(b, a)
  {
  }

  lemma SquareOfProduct(a: real, b: real)
    ensures Product(Product(a, b), Product(a, b)) == Product(Product(a, a), Product(b, b))
  {
    hide Product;
    calc {
      Product(Product(a, b), Product(a, b));
      { ProductAssociates(a, b, Product(a, b)); }
      Product(a, Product(b, Product(a, b)));
      { ProductAssociates(b, a, b); ProductCommutes(a, b); ProductAssociates(a, b, b); }
      Product(a, Product(a, Product(b, b)));
      { ProductAssociates(a, a, Product(b, b)); }
      Product(Product(a, a), Product(b, b));
    }
  }

  lemma SquareIsPositive(k: real)
    requires k != 0.0
    ensures Product(k, k) > 0.0
  {
    hide Product;
    if k > 0.0 {
      ProductIsPositive(k, k);
    } else {
      ProductIsPositive(-k, -k);
      SignsCancel(k);
    }
  }

  lemma ProductNonNegative(a: real, b: real)
    requires 0.0 <= a && 0.0 <= b
    ensures 0.0 <= a * b
  {
  }

  /** An interpolated coordinate never leaves the interval between the two it comes from. */
  lemma LerpStaysBetween(a: real, b: real, t: real)
    requires 0.0 <= t <= 1.0 && a <= b
    ensures a <= LerpReal(a, b, t) <= b
    ensures a <= LerpReal(b, a, t) <= b
  {
    assert a * (1.0 - t) + b * t == a + (b - a) * t;
    assert b * (1.0 - t) + a * t == b - (b - a) * t;
    ProductNonNegative(b - a, t);
    ProductNonNegative(b - a, 1.0 - t);
    assert (b - a) * (1.0 - t) == (b - a) - (b - a) * t;
  }
}
