// Vector algebra over the reals (libs/calynda_math/calynda_math.h:36-116). Rounding is not
// modelled.

module Vectors {

  // CM_EPSILON
  const EPSILON: real := 0.000001

  datatype Vec = Vec(x: real, y: real, z: real)

  const ZERO: Vec := Vec(0.0, 0.0, 0.0)

  function Add(a: Vec, b: Vec): Vec {
    Vec(a.x + b.x, a.y + b.y, a.z + b.z)
  }

  function Sub(a: Vec, b: Vec): Vec {
    Vec(a.x - b.x, a.y - b.y, a.z - b.z)
  }

  function Scale(v: Vec, s: real): Vec {
    Vec(v.x * s, v.y * s, v.z * s)
  }

  function Neg(v: Vec): Vec {
    Vec(-v.x, -v.y, -v.z)
  }

  function Dot(a: Vec, b: Vec): real {
    a.x * b.x + a.y * b.y + a.z * b.z
  }

  function Cross(a: Vec, b: Vec): Vec {
    Vec(a.y * b.z - a.z * b.y, a.z * b.x - a.x * b.z, a.x * b.y - a.y * b.x)
  }

  function Min(a: real, b: real): real {
    if a < b then a else b
  }

  function Max(a: real, b: real): real {
    if a > b then a else b
  }

  function Clamp(v: real, lo: real, hi: real): real {
    if v < lo then lo else if v > hi then hi else v
  }

  // A square root: the only thing known of sqrtf.
  ghost predicate IsRoot(root: real -> real) {
    forall v :: v >= 0.0 ==> root(v) >= 0.0 && root(v) * root(v) == v
  }

  function DistanceSq(a: Vec, b: Vec): real {
    Dot(Sub(b, a), Sub(b, a))
  }

  // The square, kept as a name where the sign of a sum of squares matters.
  function Sq(x: real): real {
    x * x
  }

  lemma SqNotNegative(x: real)
    ensures Sq(x) >= 0.0
    ensures x != 0.0 ==> Sq(x) > 0.0
  {
    if x > 0.0 {
      ProductPositive(x, x, Sq(x));
    } else if x < 0.0 {
      ProductPositive(-x, -x, Sq(x));
    }
  }

  lemma ProductPositive(x: real, y: real, p: real)
    requires x > 0.0 && y > 0.0 && p == x * y
    ensures p > 0.0
  {
  }

  lemma DotSelf(v: Vec)
    ensures Dot(v, v) == Sq(v.x) + Sq(v.y) + Sq(v.z)
  {
  }

  lemma DotSelfNotNegative(v: Vec)
    ensures Dot(v, v) >= 0.0
    ensures v != ZERO ==> Dot(v, v) > 0.0
  {
    hide Dot, Sq;
    DotSelf(v);
    SqNotNegative(v.x);
    SqNotNegative(v.y);
    SqNotNegative(v.z);
  }

  // A product, kept as a name where its factors do not matter.
  function Times(x: real, y: real): real {
    x * y
  }

  lemma TimesPositive(x: real, y: real)
    requires x > 0.0 && y > 0.0
    ensures Times(x, y) > 0.0
  {
  }

  lemma TimesNotNegative(x: real, y: real)
    requires x >= 0.0 && y >= 0.0
    ensures Times(x, y) >= 0.0
  {
  }

  lemma TimesNeg(x: real, y: real)
    ensures Times(-x, y) == -Times(x, y) && Times(x, -y) == -Times(x, y)
  {
  }

  lemma TimesAdds(sum: real, x: real, y: real, z: real, u: real)
    requires sum == x + y + z
    ensures Times(sum, u) == Times(x, u) + Times(y, u) + Times(z, u)
  {
  }

  lemma DotParts(a: Vec, b: Vec)
    ensures Dot(a, b) == Times(a.x, b.x) + Times(a.y, b.y) + Times(a.z, b.z)
  {
  }

  // A factor's sign from the product's.
  lemma FactorNotPositive(q: real, y: real)
    requires q > 0.0 && Times(q, y) <= 0.0
    ensures y <= 0.0
  {
    if y > 0.0 {
      TimesPositive(q, y);
      assert false;
    }
  }

  // ---- Linearity ----

  // One coordinate of a cross product.
  function Minor(a: real, b: real, c: real, d: real): real {
    a * b - c * d
  }

  lemma CrossMinors(u: Vec, v: Vec)
    ensures Cross(u, v) == Vec(Minor(u.y, v.z, u.z, v.y), Minor(u.z, v.x, u.x, v.z), Minor(u.x, v.y, u.y, v.x))
  {
  }

  lemma MinorScales(a: real, b: real, c: real, d: real, k: real)
    ensures Minor(Times(a, k), b, Times(c, k), d) == Times(Minor(a, b, c, d), k)
    ensures Minor(a, Times(b, k), c, Times(d, k)) == Times(Minor(a, b, c, d), k)
  {
  }

  lemma ScaleParts(v: Vec, k: real)
    ensures Scale(v, k) == Vec(Times(v.x, k), Times(v.y, k), Times(v.z, k))
  {
  }

  lemma CrossScales(u: Vec, v: Vec, k: real)
    ensures Cross(Scale(u, k), v) == Scale(Cross(u, v), k)
    ensures Cross(u, Scale(v, k)) == Scale(Cross(u, v), k)
  {
    ScaleParts(u, k);
    ScaleParts(v, k);
    ScaleParts(Cross(u, v), k);
    CrossMinors(u, v);
    CrossMinors(Scale(u, k), v);
    CrossMinors(u, Scale(v, k));
    hide Minor, Cross, Times, Scale;
    MinorScales(u.y, v.z, u.z, v.y, k);
    MinorScales(u.z, v.x, u.x, v.z, k);
    MinorScales(u.x, v.y, u.y, v.x, k);
  }

  lemma MinorAdds(a: real, b: real, c: real, d: real, a': real, b': real, c': real, d': real)
    ensures Minor(a + a', b, c + c', d) == Minor(a, b, c, d) + Minor(a', b, c', d)
    ensures Minor(a - a', b, c - c', d) == Minor(a, b, c, d) - Minor(a', b, c', d)
    ensures Minor(a, b + b', c, d + d') == Minor(a, b, c, d) + Minor(a, b', c, d')
    ensures Minor(a, b - b', c, d - d') == Minor(a, b, c, d) - Minor(a, b', c, d')
  {
  }

  lemma CrossAddsLeft(u: Vec, v: Vec, w: Vec)
    ensures Cross(Add(u, v), w) == Add(Cross(u, w), Cross(v, w))
    ensures Cross(Sub(u, v), w) == Sub(Cross(u, w), Cross(v, w))
  {
    CrossMinors(u, w);
    CrossMinors(v, w);
    CrossMinors(Add(u, v), w);
    CrossMinors(Sub(u, v), w);
    MinorAdds(u.y, w.z, u.z, w.y, v.y, 0.0, v.z, 0.0);
    MinorAdds(u.z, w.x, u.x, w.z, v.z, 0.0, v.x, 0.0);
    MinorAdds(u.x, w.y, u.y, w.x, v.x, 0.0, v.y, 0.0);
    hide Minor, Cross;
  }

  lemma CrossAddsRight(u: Vec, v: Vec, w: Vec)
    ensures Cross(u, Add(v, w)) == Add(Cross(u, v), Cross(u, w))
    ensures Cross(u, Sub(v, w)) == Sub(Cross(u, v), Cross(u, w))
  {
    CrossMinors(u, v);
    CrossMinors(u, w);
    CrossMinors(u, Add(v, w));
    CrossMinors(u, Sub(v, w));
    MinorAdds(u.y, v.z, u.z, v.y, 0.0, w.z, 0.0, w.y);
    MinorAdds(u.z, v.x, u.x, v.z, 0.0, w.x, 0.0, w.z);
    MinorAdds(u.x, v.y, u.y, v.x, 0.0, w.y, 0.0, w.x);
    hide Minor, Cross;
  }

  lemma ScaleTwice(v: Vec, j: real, k: real)
    ensures Scale(Scale(v, j), k) == Scale(Scale(v, k), j)
  {
  }

  lemma ScaleBack(v: Vec, j: real, k: real)
    requires Times(j, k) == 1.0
    ensures Scale(Scale(v, j), k) == v
  {
    assert (v.x * j) * k == v.x * Times(j, k);
    assert (v.y * j) * k == v.y * Times(j, k);
    assert (v.z * j) * k == v.z * Times(j, k);
  }

  lemma ScaleAdds(u: Vec, v: Vec, k: real)
    ensures Scale(Add(u, v), k) == Add(Scale(u, k), Scale(v, k))
  {
  }

  lemma ScaleSubtracts(u: Vec, v: Vec, k: real)
    ensures Scale(Sub(u, v), k) == Sub(Scale(u, k), Scale(v, k))
  {
  }

  lemma DotAdds(u: Vec, v: Vec, w: Vec)
    ensures Dot(Add(u, v), w) == Dot(u, w) + Dot(v, w)
    ensures Dot(Sub(u, v), w) == Dot(u, w) - Dot(v, w)
  {
  }

  lemma DotScales(u: Vec, v: Vec, k: real)
    ensures Dot(Scale(u, k), v) == Times(k, Dot(u, v))
  {
  }

  // The scalar triple product.
  lemma TripleProduct(u: Vec, v: Vec, w: Vec)
    ensures Dot(Cross(u, v), w) == Dot(u, Cross(v, w))
  {
  }
}
