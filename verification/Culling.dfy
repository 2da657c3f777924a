// Bounding boxes and the view frustum (libs/calynda_gfx3d/gfx3d_mesh.c:21-39,
// gfx3d_scene.c:82-104, libs/calynda_math/calynda_math.c:387-457).

module Culling {
  import opened Vectors
  import opened Matrices

  datatype Aabb = Aabb(min: Vec, max: Vec)

  predicate Inside(b: Aabb, p: Vec) {
    b.min.x <= p.x <= b.max.x && b.min.y <= p.y <= b.max.y && b.min.z <= p.z <= b.max.z
  }

  // The least box that holds the points: each of its faces has one of them.
  ghost predicate IsHull(b: Aabb, ps: seq<Vec>) {
    && (forall i :: 0 <= i < |ps| ==> Inside(b, ps[i]))
    && (exists i :: 0 <= i < |ps| && ps[i].x == b.min.x) && (exists i :: 0 <= i < |ps| && ps[i].x == b.max.x)
    && (exists i :: 0 <= i < |ps| && ps[i].y == b.min.y) && (exists i :: 0 <= i < |ps| && ps[i].y == b.max.y)
    && (exists i :: 0 <= i < |ps| && ps[i].z == b.min.z) && (exists i :: 0 <= i < |ps| && ps[i].z == b.max.z)
  }

  function Grown(b: Aabb, p: Vec): Aabb {
    Aabb(Vec(Min(b.min.x, p.x), Min(b.min.y, p.y), Min(b.min.z, p.z)), Vec(Max(b.max.x, p.x), Max(b.max.y, p.y), Max(b.max.z, p.z)))
  }

  lemma HullGrows(b: Aabb, ps: seq<Vec>, p: Vec)
    requires IsHull(b, ps)
    ensures IsHull(Grown(b, p), ps + [p])
  {
    var all := ps + [p];
    assert all[|ps|] == p;
    assert forall i :: 0 <= i < |ps| ==> all[i] == ps[i];
    var c := Grown(b, p);
    assert exists i :: 0 <= i < |all| && all[i].x == c.min.x;
    assert exists i :: 0 <= i < |all| && all[i].x == c.max.x;
    assert exists i :: 0 <= i < |all| && all[i].y == c.min.y;
    assert exists i :: 0 <= i < |all| && all[i].y == c.max.y;
    assert exists i :: 0 <= i < |all| && all[i].z == c.min.z;
    assert exists i :: 0 <= i < |all| && all[i].z == c.max.z;
  }

  lemma HullOfOne(p: Vec)
    ensures IsHull(Aabb(p, p), [p])
  {
    var ps := [p];
    assert ps[0] == p;
  }

  // compute_bounds
  method ComputeBounds(verts: seq<Vec>) returns (b: Aabb)
    ensures verts == [] ==> b == Aabb(ZERO, ZERO)
    ensures verts != [] ==> IsHull(b, verts)
  {
    if |verts| == 0 {
      return Aabb(ZERO, ZERO);
    }
    b := Aabb(verts[0], verts[0]);
    HullOfOne(verts[0]);
    assert verts[..1] == [verts[0]];
    hide IsHull;
    for i := 1 to |verts|
      invariant IsHull(b, verts[..i])
    {
      HullGrows(b, verts[..i], verts[i]);
      assert verts[..i + 1] == verts[..i] + [verts[i]];
      b := Widen(b, verts[i]);
    }
    assert verts[..|verts|] == verts;
  }

  method Widen(b: Aabb, p: Vec) returns (c: Aabb)
    ensures c == Grown(b, p)
  {
    c := b;
    if p.x < c.min.x { c := c.(min := c.min.(x := p.x)); }
    if p.y < c.min.y { c := c.(min := c.min.(y := p.y)); }
    if p.z < c.min.z { c := c.(min := c.min.(z := p.z)); }
    if p.x > c.max.x { c := c.(max := c.max.(x := p.x)); }
    if p.y > c.max.y { c := c.(max := c.max.(y := p.y)); }
    if p.z > c.max.z { c := c.(max := c.max.(z := p.z)); }
  }

  // ---- The box of a transformed box ----

  function Corner(b: Aabb, x: bool, y: bool, z: bool): Vec {
    Vec(if x then b.max.x else b.min.x, if y then b.max.y else b.min.y, if z then b.max.z else b.min.z)
  }

  function Corners(b: Aabb): (r: seq<Vec>)
    ensures |r| == 8
  {
    [Corner(b, false, false, false), Corner(b, true, false, false), Corner(b, false, true, false), Corner(b, true, true, false),
     Corner(b, false, false, true), Corner(b, true, false, true), Corner(b, false, true, true), Corner(b, true, true, true)]
  }

  function Images(m: Mat, ps: seq<Vec>): (r: seq<Vec>)
    ensures |r| == |ps|
  {
    seq(|ps|, i requires 0 <= i < |ps| => MulPoint(m, ps[i]))
  }

  lemma NextImage(m: Mat, ps: seq<Vec>, i: nat)
    requires i < |ps|
    ensures Images(m, ps)[..i + 1] == Images(m, ps)[..i] + [MulPoint(m, ps[i])]
  {
  }

  method TransformBounds(m: Mat, lb: Aabb) returns (wb: Aabb)
    ensures IsHull(wb, Images(m, Corners(lb)))
  {
    hide MulPoint, Corners, Images, IsHull, Grown;
    var corners := Corners(lb);
    ghost var images := Images(m, corners);
    var tc := MulPoint(m, corners[0]);
    wb := Aabb(tc, tc);
    HullOfOne(tc);
    NextImage(m, corners, 0);
    assert images[..1] == [tc];
    for i := 1 to 8
      invariant IsHull(wb, images[..i])
    {
      var p := MulPoint(m, corners[i]);
      NextImage(m, corners, i);
      HullGrows(wb, images[..i], p);
      wb := Grown(wb, p);
    }
    assert images[..8] == images;
  }

  // A coefficient times a coordinate is extreme at an end of the coordinate's range.
  lemma ExtremeTerm(k: real, lo: real, hi: real, v: real)
    requires lo <= v <= hi
    ensures Times(k, if k >= 0.0 then lo else hi) <= Times(k, v) <= Times(k, if k >= 0.0 then hi else lo)
  {
    TermGap(k, v, lo);
    TermGap(k, hi, v);
    TimesNeg(k, v - lo);
    TimesNeg(k, hi - v);
    hide Times;
    if k >= 0.0 {
      TimesNotNegative(k, v - lo);
      TimesNotNegative(k, hi - v);
    } else {
      TimesNotNegative(-k, v - lo);
      TimesNotNegative(-k, hi - v);
    }
  }

  lemma TermGap(k: real, x: real, y: real)
    ensures Times(k, x) - Times(k, y) == Times(k, x - y)
  {
  }

  // So each coordinate of an image lies between those of two corners' images.
  lemma BetweenCorners(m: Mat, b: Aabb, p: Vec, row: nat)
    requires row < 3 && Inside(b, p)
    ensures var lo := Corner(b, m[row] < 0.0, m[4 + row] < 0.0, m[8 + row] < 0.0);
      var hi := Corner(b, m[row] >= 0.0, m[4 + row] >= 0.0, m[8 + row] >= 0.0);
      && RowDot(m, row, Point(lo)) <= RowDot(m, row, Point(p)) <= RowDot(m, row, Point(hi))
      && lo in Corners(b) && hi in Corners(b)
  {
    var lo := Corner(b, m[row] < 0.0, m[4 + row] < 0.0, m[8 + row] < 0.0);
    var hi := Corner(b, m[row] >= 0.0, m[4 + row] >= 0.0, m[8 + row] >= 0.0);
    ExtremeTerm(m[row], b.min.x, b.max.x, p.x);
    ExtremeTerm(m[4 + row], b.min.y, b.max.y, p.y);
    ExtremeTerm(m[8 + row], b.min.z, b.max.z, p.z);
    RowOfPoint(m, row, p);
    RowOfPoint(m, row, lo);
    RowOfPoint(m, row, hi);
    CornerListed(b, m[row] < 0.0, m[4 + row] < 0.0, m[8 + row] < 0.0);
    CornerListed(b, m[row] >= 0.0, m[4 + row] >= 0.0, m[8 + row] >= 0.0);
    hide Times, RowDot, Corners;
  }

  lemma RowOfPoint(m: Mat, row: nat, p: Vec)
    requires row < 4
    ensures RowDot(m, row, Point(p)) == Times(m[row], p.x) + Times(m[4 + row], p.y) + Times(m[8 + row], p.z) + m[12 + row]
  {
  }

  lemma CornerListed(b: Aabb, x: bool, y: bool, z: bool)
    ensures Corner(b, x, y, z) in Corners(b)
  {
    var i := (if x then 1 else 0) + (if y then 2 else 0) + if z then 4 else 0;
    assert Corners(b)[i] == Corner(b, x, y, z);
  }

  lemma CornerBounds(m: Mat, b: Aabb, wb: Aabb, c: Vec)
    requires IsHull(wb, Images(m, Corners(b))) && c in Corners(b)
    ensures Inside(wb, MulPoint(m, c))
  {
    var i :| 0 <= i < |Corners(b)| && Corners(b)[i] == c;
    assert Images(m, Corners(b))[i] == MulPoint(m, c);
  }

  function Axis(v: Vec, row: nat): real
    requires row < 3
  {
    if row == 0 then v.x else if row == 1 then v.y else v.z
  }

  lemma AxisOfImage(m: Mat, p: Vec, row: nat)
    requires row < 3
    ensures Axis(MulPoint(m, p), row) == RowDot(m, row, Point(p))
  {
    hide RowDot;
  }

  lemma AxisOfInside(b: Aabb, p: Vec, row: nat)
    requires row < 3 && Inside(b, p)
    ensures Axis(b.min, row) <= Axis(p, row) <= Axis(b.max, row)
  {
  }

  lemma HullHoldsAxis(m: Mat, b: Aabb, wb: Aabb, p: Vec, row: nat)
    requires IsHull(wb, Images(m, Corners(b))) && Inside(b, p) && row < 3
    ensures Axis(wb.min, row) <= Axis(MulPoint(m, p), row) <= Axis(wb.max, row)
  {
    var lo := Corner(b, m[row] < 0.0, m[4 + row] < 0.0, m[8 + row] < 0.0);
    var hi := Corner(b, m[row] >= 0.0, m[4 + row] >= 0.0, m[8 + row] >= 0.0);
    hide RowDot, Corner, Corners, IsHull, Inside, MulPoint, Images, Axis;
    BetweenCorners(m, b, p, row);
    CornerBounds(m, b, wb, lo);
    CornerBounds(m, b, wb, hi);
    AxisOfInside(wb, MulPoint(m, lo), row);
    AxisOfInside(wb, MulPoint(m, hi), row);
    AxisOfImage(m, lo, row);
    AxisOfImage(m, hi, row);
    AxisOfImage(m, p, row);
  }

  // The box of the transformed corners holds every transformed point of the box.
  lemma HullHoldsImages(m: Mat, b: Aabb, wb: Aabb, p: Vec)
    requires IsHull(wb, Images(m, Corners(b))) && Inside(b, p)
    ensures Inside(wb, MulPoint(m, p))
  {
    HullHoldsAxis(m, b, wb, p, 0);
    HullHoldsAxis(m, b, wb, p, 1);
    HullHoldsAxis(m, b, wb, p, 2);
    hide IsHull, MulPoint, Corners, Images;
  }

  lemma HullHasMin(m: Mat, b: Aabb, wb: Aabb)
    requires IsHull(wb, Images(m, Corners(b)))
    ensures Inside(wb, wb.min)
  {
    assert Inside(wb, Images(m, Corners(b))[0]);
  }

  // ---- The frustum ----

  datatype Plane = Plane(normal: Vec, distance: real)

  function Side(plane: Plane, p: Vec): real {
    Dot(plane.normal, p) - plane.distance
  }

  // The six planes before they are normalised: row 3 plus or minus row 0, 1 and 2.
  function ExtractedPlane(vp: Mat, row: nat, plus: bool): Plane
    requires row < 3
  {
    if plus then Plane(Vec(vp[3] + vp[row], vp[7] + vp[4 + row], vp[11] + vp[8 + row]), -(vp[15] + vp[12 + row]))
    else Plane(Vec(vp[3] - vp[row], vp[7] - vp[4 + row], vp[11] - vp[8 + row]), -(vp[15] - vp[12 + row]))
  }

  function ExtractedPlanes(vp: Mat): seq<Plane> {
    [ExtractedPlane(vp, 0, true), ExtractedPlane(vp, 0, false), ExtractedPlane(vp, 1, true), ExtractedPlane(vp, 1, false),
     ExtractedPlane(vp, 2, true), ExtractedPlane(vp, 2, false)]
  }

  function Normalised(root: real -> real, plane: Plane): Plane {
    var len := root(Dot(plane.normal, plane.normal));
    if len > EPSILON then Plane(Scale(plane.normal, 1.0 / len), plane.distance * (1.0 / len)) else plane
  }

  // cm_frustum_from_vp
  method FrustumFromVp(root: real -> real, vp: Mat) returns (planes: seq<Plane>)
    ensures |planes| == 6 && forall i :: 0 <= i < 6 ==> planes[i] == Normalised(root, ExtractedPlanes(vp)[i])
  {
    planes := ExtractedPlanes(vp);
    hide ExtractedPlane;
    for i := 0 to 6
      invariant |planes| == 6
      invariant forall k :: 0 <= k < 6 ==> planes[k] == if k < i then Normalised(root, ExtractedPlanes(vp)[k]) else ExtractedPlanes(vp)[k]
    {
      var len := root(Dot(planes[i].normal, planes[i].normal));
      if len > EPSILON {
        var inv := 1.0 / len;
        planes := planes[i := Plane(Scale(planes[i].normal, inv), planes[i].distance * inv)];
      }
    }
  }

  predicate InClip(c: Vec4) {
    -c.w <= c.x <= c.w && -c.w <= c.y <= c.w && -c.w <= c.z <= c.w
  }

  lemma ExtractedSide(vp: Mat, row: nat, p: Vec)
    requires row < 3
    ensures Side(ExtractedPlane(vp, row, true), p) == RowDot(vp, 3, Point(p)) + RowDot(vp, row, Point(p))
    ensures Side(ExtractedPlane(vp, row, false), p) == RowDot(vp, 3, Point(p)) - RowDot(vp, row, Point(p))
  {
    SideTerms(vp[3], vp[row], p.x);
    SideTerms(vp[7], vp[4 + row], p.y);
    SideTerms(vp[11], vp[8 + row], p.z);
    RowOfPoint(vp, 3, p);
    RowOfPoint(vp, row, p);
    DotParts(ExtractedPlane(vp, row, true).normal, p);
    DotParts(ExtractedPlane(vp, row, false).normal, p);
    hide Times, Dot, RowDot;
  }

  lemma SideTerms(k: real, l: real, x: real)
    ensures Times(k + l, x) == Times(k, x) + Times(l, x)
    ensures Times(k - l, x) == Times(k, x) - Times(l, x)
  {
  }

  // Scaling a plane by a positive factor keeps its sides.
  lemma NormalisedSide(root: real -> real, plane: Plane, p: Vec)
    ensures Side(Normalised(root, plane), p) >= 0.0 <==> Side(plane, p) >= 0.0
  {
    var len := root(Dot(plane.normal, plane.normal));
    if len > EPSILON {
      var k := 1.0 / len;
      assert k > 0.0;
      DotScales(plane.normal, p, k);
      ScaledSide(k, Dot(plane.normal, p), plane.distance);
      hide Dot, Scale;
    }
  }

  lemma ScaledSide(k: real, d: real, e: real)
    requires k > 0.0
    ensures Times(k, d) - e * k >= 0.0 <==> d - e >= 0.0
  {
    assert Times(k, d) - e * k == Times(k, d - e);
    TimesNeg(k, d - e);
    hide Times;
    if d - e >= 0.0 {
      TimesNotNegative(k, d - e);
    } else {
      TimesPositive(k, e - d);
    }
  }

  // The planes bound exactly the points that project into the clip volume.
  lemma PlanesBoundClip(root: real -> real, vp: Mat, planes: seq<Plane>, p: Vec)
    requires |planes| == 6 && forall i :: 0 <= i < 6 ==> planes[i] == Normalised(root, ExtractedPlanes(vp)[i])
    ensures InClip(MulVec4(vp, Point(p))) <==> forall i :: 0 <= i < 6 ==> Side(planes[i], p) >= 0.0
  {
    ExtractedSide(vp, 0, p);
    ExtractedSide(vp, 1, p);
    ExtractedSide(vp, 2, p);
    forall i | 0 <= i < 6
      ensures Side(planes[i], p) >= 0.0 <==> Side(ExtractedPlanes(vp)[i], p) >= 0.0
    {
      NormalisedSide(root, ExtractedPlanes(vp)[i], p);
    }
    hide Normalised, ExtractedPlane, Side, RowDot;
    assert (forall i :: 0 <= i < 6 ==> Side(planes[i], p) >= 0.0) ==
      (Side(planes[0], p) >= 0.0 && Side(planes[1], p) >= 0.0 && Side(planes[2], p) >= 0.0
       && Side(planes[3], p) >= 0.0 && Side(planes[4], p) >= 0.0 && Side(planes[5], p) >= 0.0);
  }

  // Whether a point is on the inner side of a face of the clip volume: in order the left, right,
  // bottom, top, near and far one.
  predicate WithinFace(c: Vec4, face: nat)
    requires face < 6
  {
    match face
    case 0 => c.x >= -c.w
    case 1 => c.x <= c.w
    case 2 => c.y >= -c.w
    case 3 => c.y <= c.w
    case 4 => c.z >= -c.w
    case _ => c.z <= c.w
  }

  // Each plane is one of the faces.
  lemma PlaneIsFace(root: real -> real, vp: Mat, face: nat, p: Vec)
    requires face < 6
    ensures Side(Normalised(root, ExtractedPlanes(vp)[face]), p) >= 0.0 <==> WithinFace(MulVec4(vp, Point(p)), face)
  {
    ExtractedSide(vp, face / 2, p);
    NormalisedSide(root, ExtractedPlanes(vp)[face], p);
    hide Normalised, ExtractedPlane, Side, RowDot;
    assert face == 0 || face == 1 || face == 2 || face == 3 || face == 4 || face == 5;
  }

  // ---- The test of a box ----

  function PositiveVertex(n: Vec, b: Aabb): Vec {
    Corner(b, n.x >= 0.0, n.y >= 0.0, n.z >= 0.0)
  }

  // cm_frustum_contains_aabb
  method FrustumContainsAabb(planes: seq<Plane>, b: Aabb) returns (r: bool)
    requires |planes| == 6
    ensures r <==> forall i :: 0 <= i < 6 ==> Side(planes[i], PositiveVertex(planes[i].normal, b)) >= 0.0
  {
    for i := 0 to 6
      invariant forall k :: 0 <= k < i ==> Side(planes[k], PositiveVertex(planes[k].normal, b)) >= 0.0
    {
      var n := planes[i].normal;
      var pv := Vec(if n.x >= 0.0 then b.max.x else b.min.x, if n.y >= 0.0 then b.max.y else b.min.y, if n.z >= 0.0 then b.max.z else b.min.z);
      var d := Dot(n, pv) - planes[i].distance;
      if d < 0.0 {
        assert pv == PositiveVertex(n, b);
        return false;
      }
    }
    return true;
  }

  // The positive vertex is the furthest point of the box along the normal ...
  lemma PositiveVertexIsFurthest(n: Vec, b: Aabb, p: Vec)
    requires Inside(b, p)
    ensures Dot(n, p) <= Dot(n, PositiveVertex(n, b)) && Inside(b, PositiveVertex(n, b))
  {
    ExtremeTerm(n.x, b.min.x, b.max.x, p.x);
    ExtremeTerm(n.y, b.min.y, b.max.y, p.y);
    ExtremeTerm(n.z, b.min.z, b.max.z, p.z);
    DotParts(n, p);
    DotParts(n, PositiveVertex(n, b));
    hide Times, Dot;
  }

  // ... so a box fails against a plane exactly when all of it is behind the plane.
  lemma BoxFailsExactly(plane: Plane, b: Aabb)
    requires Inside(b, b.min)
    ensures Side(plane, PositiveVertex(plane.normal, b)) < 0.0 <==> forall p :: Inside(b, p) ==> Side(plane, p) < 0.0
  {
    var v := PositiveVertex(plane.normal, b);
    PositiveVertexIsFurthest(plane.normal, b, b.min);
    hide Dot;
    forall p | Inside(b, p)
      ensures Side(plane, p) <= Side(plane, v)
    {
      PositiveVertexIsFurthest(plane.normal, b, p);
    }
  }

  // Some point of a box, moved by the matrix, is on the inner side of a face of the clip volume.
  ghost predicate Reaches(vp: Mat, b: Aabb, face: nat)
    requires face < 6
  {
    exists p :: Inside(b, p) && WithinFace(MulVec4(vp, Point(p)), face)
  }

  lemma BoxReaches(root: real -> real, vp: Mat, b: Aabb, face: nat)
    requires face < 6 && Inside(b, b.min)
    ensures var plane := Normalised(root, ExtractedPlanes(vp)[face]);
      Side(plane, PositiveVertex(plane.normal, b)) >= 0.0 <==> Reaches(vp, b, face)
  {
    var plane := Normalised(root, ExtractedPlanes(vp)[face]);
    var v := PositiveVertex(plane.normal, b);
    hide Normalised, ExtractedPlanes, Side, PositiveVertex, WithinFace, MulVec4, Point, Inside;
    BoxFailsExactly(plane, b);
    PositiveVertexIsFurthest(plane.normal, b, b.min);
    forall p
      ensures Side(plane, p) >= 0.0 <==> WithinFace(MulVec4(vp, Point(p)), face)
    {
      PlaneIsFace(root, vp, face, p);
    }
  }
}
