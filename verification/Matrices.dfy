// 4x4 matrices over the reals, column-major as the source stores them
// (libs/calynda_math/calynda_math.h:138-152, 270-315, 358-378).

module Matrices {
  import opened Vectors
  import opened Bodies

  type Mat = m: seq<real> | |m| == 16 witness seq(16, _ => 0.0)

  datatype Vec4 = Vec4(x: real, y: real, z: real, w: real)

  const IDENTITY: Mat := [1.0, 0.0, 0.0, 0.0, 0.0, 1.0, 0.0, 0.0, 0.0, 0.0, 1.0, 0.0, 0.0, 0.0, 0.0, 1.0]

  // Row `row` of the matrix times a vector.
  function RowDot(m: Mat, row: nat, v: Vec4): real
    requires row < 4
  {
    m[row] * v.x + m[4 + row] * v.y + m[8 + row] * v.z + m[12 + row] * v.w
  }

  function MulVec4(m: Mat, v: Vec4): Vec4 {
    Vec4(RowDot(m, 0, v), RowDot(m, 1, v), RowDot(m, 2, v), RowDot(m, 3, v))
  }

  function Point(p: Vec): Vec4 {
    Vec4(p.x, p.y, p.z, 1.0)
  }

  function MulPoint(m: Mat, p: Vec): Vec {
    var r := MulVec4(m, Point(p));
    Vec(r.x, r.y, r.z)
  }

  function Column(m: Mat, c: nat): Vec4
    requires c < 4
  {
    Vec4(m[c * 4], m[c * 4 + 1], m[c * 4 + 2], m[c * 4 + 3])
  }

  // The product: each of its columns is the first matrix applied to the second's column.
  function Mul(a: Mat, b: Mat): Mat {
    seq(16, k requires 0 <= k < 16 => RowDot(a, k % 4, Column(b, k / 4)))
  }

  function PartialSum(a: Mat, b: Mat, row: nat, c: nat, n: nat): real
    requires row < 4 && c < 4 && n <= 4
  {
    if n == 0 then 0.0 else PartialSum(a, b, row, c, n - 1) + a[(n - 1) * 4 + row] * b[c * 4 + (n - 1)]
  }

  lemma FullSum(a: Mat, b: Mat, row: nat, c: nat)
    requires row < 4 && c < 4
    ensures PartialSum(a, b, row, c, 4) == RowDot(a, row, Column(b, c))
  {
    assert PartialSum(a, b, row, c, 1) == 0.0 + a[row] * b[c * 4];
    assert PartialSum(a, b, row, c, 2) == PartialSum(a, b, row, c, 1) + a[4 + row] * b[c * 4 + 1];
    assert PartialSum(a, b, row, c, 3) == PartialSum(a, b, row, c, 2) + a[8 + row] * b[c * 4 + 2];
  }

  // cm_mat4_mul
  method Mat4Mul(a: Mat, b: Mat) returns (r: Mat)
    ensures r == Mul(a, b)
  {
    r := seq(16, _ => 0.0);
    for c := 0 to 4
      invariant forall k :: 0 <= k < c * 4 ==> r[k] == Mul(a, b)[k]
    {
      for row := 0 to 4
        invariant forall k :: 0 <= k < c * 4 + row ==> r[k] == Mul(a, b)[k]
      {
        var sum := 0.0;
        for k := 0 to 4
          invariant sum == PartialSum(a, b, row, c, k)
        {
          sum := sum + a[k * 4 + row] * b[c * 4 + k];
        }
        FullSum(a, b, row, c);
        assert (c * 4 + row) / 4 == c && (c * 4 + row) % 4 == row;
        r := r[c * 4 + row := sum];
      }
    }
  }

  // ---- Applying a product is applying its factors in turn ----

  function Dot4(u: Vec4, v: Vec4): real {
    Times(u.x, v.x) + Times(u.y, v.y) + Times(u.z, v.z) + Times(u.w, v.w)
  }

  function Row(m: Mat, row: nat): Vec4
    requires row < 4
  {
    Vec4(m[row], m[4 + row], m[8 + row], m[12 + row])
  }

  lemma RowDotIs(m: Mat, row: nat, v: Vec4)
    requires row < 4
    ensures RowDot(m, row, v) == Dot4(Row(m, row), v)
  {
  }

  // The coordinate `i` of a vector of products, taken to a sum of four products by `v`.
  lemma Dot4Factors(a: Vec4, b: Vec4, k: real)
    ensures Times(Dot4(a, b), k) == Times(a.x, Times(b.x, k)) + Times(a.y, Times(b.y, k)) + Times(a.z, Times(b.z, k)) + Times(a.w, Times(b.w, k))
  {
    hide Times;
    Reassociate(a.x, b.x, k);
    Reassociate(a.y, b.y, k);
    Reassociate(a.z, b.z, k);
    Reassociate(a.w, b.w, k);
    TimesAdds4(Dot4(a, b), Times(a.x, b.x), Times(a.y, b.y), Times(a.z, b.z), Times(a.w, b.w), k);
  }

  lemma Reassociate(x: real, y: real, z: real)
    ensures Times(Times(x, y), z) == Times(x, Times(y, z))
  {
  }

  lemma TimesAdds4(sum: real, x: real, y: real, z: real, w: real, u: real)
    requires sum == x + y + z + w
    ensures Times(sum, u) == Times(x, u) + Times(y, u) + Times(z, u) + Times(w, u)
  {
    assert sum * u == (x + y + z + w) * u;
  }

  lemma TimesCommutes(x: real, y: real)
    ensures Times(x, y) == Times(y, x)
  {
  }

  lemma AddsTimes4(u: real, sum: real, x: real, y: real, z: real, w: real)
    requires sum == x + y + z + w
    ensures Times(u, sum) == Times(u, x) + Times(u, y) + Times(u, z) + Times(u, w)
  {
    TimesAdds4(sum, x, y, z, w, u);
    TimesCommutes(u, sum);
    TimesCommutes(u, x);
    TimesCommutes(u, y);
    TimesCommutes(u, z);
    TimesCommutes(u, w);
    hide Times;
  }

  lemma MulComposesIn(a: Mat, b: Mat, v: Vec4, row: nat)
    requires row < 4
    ensures RowDot(Mul(a, b), row, v) == RowDot(a, row, MulVec4(b, v))
  {
    var r, w := Row(a, row), MulVec4(b, v);
    var c0, c1, c2, c3 := Column(b, 0), Column(b, 1), Column(b, 2), Column(b, 3);
    assert Row(Mul(a, b), row) == Vec4(RowDot(a, row, c0), RowDot(a, row, c1), RowDot(a, row, c2), RowDot(a, row, c3));
    RowDotIs(Mul(a, b), row, v);
    RowDotIs(a, row, w);
    RowDotIs(a, row, c0);
    RowDotIs(a, row, c1);
    RowDotIs(a, row, c2);
    RowDotIs(a, row, c3);
    RowDotIs(b, 0, v);
    RowDotIs(b, 1, v);
    RowDotIs(b, 2, v);
    RowDotIs(b, 3, v);
    Dot4Factors(r, c0, v.x);
    Dot4Factors(r, c1, v.y);
    Dot4Factors(r, c2, v.z);
    Dot4Factors(r, c3, v.w);
    hide Times, RowDot;
    AddsTimes4(r.x, w.x, Times(c0.x, v.x), Times(c1.x, v.y), Times(c2.x, v.z), Times(c3.x, v.w));
    AddsTimes4(r.y, w.y, Times(c0.y, v.x), Times(c1.y, v.y), Times(c2.y, v.z), Times(c3.y, v.w));
    AddsTimes4(r.z, w.z, Times(c0.z, v.x), Times(c1.z, v.y), Times(c2.z, v.z), Times(c3.z, v.w));
    AddsTimes4(r.w, w.w, Times(c0.w, v.x), Times(c1.w, v.y), Times(c2.w, v.z), Times(c3.w, v.w));
  }

  lemma MulComposes(a: Mat, b: Mat, v: Vec4)
    ensures MulVec4(Mul(a, b), v) == MulVec4(a, MulVec4(b, v))
  {
    MulComposesIn(a, b, v, 0);
    MulComposesIn(a, b, v, 1);
    MulComposesIn(a, b, v, 2);
    MulComposesIn(a, b, v, 3);
    hide RowDot, Mul;
  }

  // ---- Affine matrices ----

  predicate Affine(m: Mat) {
    m[3] == 0.0 && m[7] == 0.0 && m[11] == 0.0 && m[15] == 1.0
  }

  // cm_mat4_from_quat, with the columns scaled and the translation set as in cm_mat4_trs.
  function Trs(pos: Vec, q: Quat, scale: Vec): Mat {
    [(1.0 - 2.0 * (q.y * q.y + q.z * q.z)) * scale.x, 2.0 * (q.x * q.y + q.w * q.z) * scale.x, 2.0 * (q.x * q.z - q.w * q.y) * scale.x, 0.0,
     2.0 * (q.x * q.y - q.w * q.z) * scale.y, (1.0 - 2.0 * (q.x * q.x + q.z * q.z)) * scale.y, 2.0 * (q.y * q.z + q.w * q.x) * scale.y, 0.0,
     2.0 * (q.x * q.z + q.w * q.y) * scale.z, 2.0 * (q.y * q.z - q.w * q.x) * scale.z, (1.0 - 2.0 * (q.x * q.x + q.y * q.y)) * scale.z, 0.0,
     pos.x, pos.y, pos.z, 1.0]
  }

  lemma TrsIsAffine(pos: Vec, q: Quat, scale: Vec)
    ensures Affine(Trs(pos, q, scale))
  {
  }

  function Scaled(scale: Vec, p: Vec): Vec {
    Vec(scale.x * p.x, scale.y * p.y, scale.z * p.z)
  }

  // What the matrix does to a point: scale it, rotate it as the quaternion does, move it.
  lemma TrsPlacesPoints(pos: Vec, q: Quat, scale: Vec, p: Vec)
    ensures MulPoint(Trs(pos, q, scale), p) == Add(pos, Rotated(q, Scaled(scale, p)))
    ensures Scaled(scale, p) == Vec(scale.x * p.x, scale.y * p.y, scale.z * p.z)
  {
    assert Scaled(scale, p) == Vec(scale.x * p.x, scale.y * p.y, scale.z * p.z);
    hide RowX, MulPoint, Trs, Scaled, Rotated;
    RotatedRows(q, Scaled(scale, p));
    TrsRows(pos, q, scale, p);
  }

  // One coordinate of the rotation; the others are the same with x, y and z turned round.
  function RowX(x: real, y: real, z: real, w: real, a: real, b: real, c: real): real {
    Times(1.0 - 2.0 * (y * y + z * z), a) + Times(2.0 * (x * y - w * z), b) + Times(2.0 * (x * z + w * y), c)
  }

  function Turn(a: real, w: real, y: real, z: real, px: real, py: real, pz: real): real {
    a + (px * w + (y * pz - z * py)) * 2.0
  }

  lemma RotationX(x: real, y: real, z: real, w: real, a: real, b: real, c: real)
    ensures Turn(a, w, y, z, Minor(y, c, z, b), Minor(z, a, x, c), Minor(x, b, y, a)) == RowX(x, y, z, w, a, b, c)
  {
  }

  lemma TurnParts(u: Vec, w: real, v: Vec, uv: Vec)
    ensures var r := Add(v, Scale(Add(Scale(uv, w), Cross(u, uv)), 2.0));
      && r.x == Turn(v.x, w, u.y, u.z, uv.x, uv.y, uv.z)
      && r.y == Turn(v.y, w, u.z, u.x, uv.y, uv.z, uv.x)
      && r.z == Turn(v.z, w, u.x, u.y, uv.z, uv.x, uv.y)
  {
  }

  lemma RotatedRows(q: Quat, v: Vec)
    ensures var r := Rotated(q, v);
      && r.x == RowX(q.x, q.y, q.z, q.w, v.x, v.y, v.z)
      && r.y == RowX(q.y, q.z, q.x, q.w, v.y, v.z, v.x)
      && r.z == RowX(q.z, q.x, q.y, q.w, v.z, v.x, v.y)
  {
    hide RowX, Turn, Cross, Add, Scale, Minor;
    var u := Vec(q.x, q.y, q.z);
    RotationX(q.x, q.y, q.z, q.w, v.x, v.y, v.z);
    RotationX(q.y, q.z, q.x, q.w, v.y, v.z, v.x);
    RotationX(q.z, q.x, q.y, q.w, v.z, v.x, v.y);
    CrossMinors(u, v);
    TurnParts(u, q.w, v, Cross(u, v));
  }

  lemma TrsRows(pos: Vec, q: Quat, scale: Vec, p: Vec)
    ensures var r, v := MulPoint(Trs(pos, q, scale), p), Scaled(scale, p);
      && r.x == RowX(q.x, q.y, q.z, q.w, v.x, v.y, v.z) + pos.x
      && r.y == RowX(q.y, q.z, q.x, q.w, v.y, v.z, v.x) + pos.y
      && r.z == RowX(q.z, q.x, q.y, q.w, v.z, v.x, v.y) + pos.z
  {
    var x, y, z, w := q.x, q.y, q.z, q.w;
    TrsRow(1.0 - 2.0 * (y * y + z * z), 2.0 * (x * y - w * z), 2.0 * (x * z + w * y), scale, p, pos.x);
    TrsRow(2.0 * (x * y + w * z), 1.0 - 2.0 * (x * x + z * z), 2.0 * (y * z - w * x), scale, p, pos.y);
    TrsRow(2.0 * (x * z - w * y), 2.0 * (y * z + w * x), 1.0 - 2.0 * (x * x + y * y), scale, p, pos.z);
    SameRows(x, y, z, w, Scaled(scale, p));
  }

  lemma TrsRow(a: real, b: real, c: real, scale: Vec, p: Vec, t: real)
    ensures var v := Scaled(scale, p);
      (a * scale.x) * p.x + (b * scale.y) * p.y + (c * scale.z) * p.z + t * 1.0 == Times(a, v.x) + Times(b, v.y) + Times(c, v.z) + t
  {
  }

  lemma SameRows(x: real, y: real, z: real, w: real, v: Vec)
    ensures RowX(y, z, x, w, v.y, v.z, v.x) ==
      Times(2.0 * (x * y + w * z), v.x) + Times(1.0 - 2.0 * (x * x + z * z), v.y) + Times(2.0 * (y * z - w * x), v.z)
    ensures RowX(z, x, y, w, v.z, v.x, v.y) ==
      Times(2.0 * (x * z - w * y), v.x) + Times(2.0 * (y * z + w * x), v.y) + Times(1.0 - 2.0 * (x * x + y * y), v.z)
  {
  }

  lemma MulIsAffine(a: Mat, b: Mat)
    requires Affine(a) && Affine(b)
    ensures Affine(Mul(a, b))
  {
    AffineRow(a, Column(b, 0));
    AffineRow(a, Column(b, 1));
    AffineRow(a, Column(b, 2));
    AffineRow(a, Column(b, 3));
    hide RowDot;
  }

  lemma AffineRow(m: Mat, v: Vec4)
    requires Affine(m)
    ensures RowDot(m, 3, v) == v.w
  {
  }

  // An affine matrix takes points to points.
  lemma AffinePoint(m: Mat, p: Vec)
    requires Affine(m)
    ensures MulVec4(m, Point(p)) == Point(MulPoint(m, p))
  {
    AffineRow(m, Point(p));
    hide RowDot;
  }
}
