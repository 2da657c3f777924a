// Rigid bodies, contacts and the narrow phase for spheres and capsules
// (libs/calynda_physics/calynda_physics.h:42-109, calynda_physics.c:242-440, 523-589).

module Bodies {
  import opened Vectors
  import opened Segments

  datatype Quat = Quat(x: real, y: real, z: real, w: real)

  datatype Collider =
    | Sphere(radius: real)
    | Box(halfExtents: Vec)
    | Capsule(radius: real, halfHeight: real)
    | Plane(normal: Vec, distance: real)

  datatype Body = Body(
    position: Vec,
    rotation: Quat,
    linearVelocity: Vec,
    angularVelocity: Vec,
    mass: real,
    invMass: real,
    inertia: real,
    invInertia: real,
    restitution: real,
    friction: real,
    collider: Collider,
    active: bool,
    isStatic: bool,
    isSensor: bool,
    mask: bv32,
    layer: bv32
  )

  // What a narrow-phase test finds. The normal points from the first body to the second.
  datatype Hit = Miss | Hit(normal: Vec, depth: real, point: Vec)

  // The bodies of a contact are indices into the world's array.
  datatype Contact = Contact(
    bodyA: nat,
    bodyB: nat,
    point: Vec,
    normal: Vec,
    depth: real,
    normalImpulse: real,
    tangentImpulse: real
  )

  const UP: Vec := Vec(0.0, 1.0, 0.0)

  function Direction(root: real -> real, d: Vec): Vec {
    var dist := root(Dot(d, d));
    if dist > EPSILON then Scale(d, 1.0 / dist) else UP
  }

  function SphereSphere(root: real -> real, p: Vec, rp: real, q: Vec, rq: real): Hit {
    var d, sum := Sub(q, p), rp + rq;
    if Dot(d, d) >= sum * sum then Miss
    else
      var depth := sum - root(Dot(d, d));
      Hit(Direction(root, d), depth, Add(p, Scale(Direction(root, d), rp - depth * 0.5)))
  }

  // The upper end of a capsule's core relative to its centre: (0, halfHeight, 0), rotated.
  function CoreEnd(rotation: Quat, halfHeight: real): Vec {
    var up := Vec(0.0, halfHeight, 0.0);
    var t := Vec(2.0 * (rotation.y * up.z - rotation.z * up.y),
                 2.0 * (rotation.z * up.x - rotation.x * up.z),
                 2.0 * (rotation.x * up.y - rotation.y * up.x));
    Vec(up.x + rotation.w * t.x + (rotation.y * t.z - rotation.z * t.y),
        up.y + rotation.w * t.y + (rotation.z * t.x - rotation.x * t.z),
        up.z + rotation.w * t.z + (rotation.x * t.y - rotation.y * t.x))
  }

  function CapsuleEndpoints(b: Body): (Vec, Vec)
    requires b.collider.Capsule?
  {
    var end := CoreEnd(b.rotation, b.collider.halfHeight);
    (Add(b.position, end), Sub(b.position, end))
  }

  // ---- Rotation ----

  // cm_quat_rotate_vec3
  function Rotated(q: Quat, v: Vec): Vec {
    var u := Vec(q.x, q.y, q.z);
    var uv := Cross(u, v);
    Add(v, Scale(Add(Scale(uv, q.w), Cross(u, uv)), 2.0))
  }

  // Rodrigues' formula, for every quaternion: for a unit one, with w the cosine of half the angle, the
  // part of `v` along the axis stays and the rest turns about the axis.
  lemma RotatedAboutAxis(q: Quat, v: Vec)
    ensures var u := Vec(q.x, q.y, q.z);
      Rotated(q, v) == Add(Add(Scale(v, 1.0 - 2.0 * Dot(u, u)), Scale(u, 2.0 * Dot(u, v))), Scale(Cross(u, v), 2.0 * q.w))
  {
    var u := Vec(q.x, q.y, q.z);
    var uv := Cross(u, v);
    CrossTwice(u, v);
    Regrouped(v, uv, Cross(u, uv), u, q.w, Dot(u, v), Dot(u, u));
  }

  lemma CrossTwice(u: Vec, v: Vec)
    ensures Cross(u, Cross(u, v)) == Sub(Scale(u, Dot(u, v)), Scale(v, Dot(u, u)))
  {
    CrossTwiceX(u.x, u.y, u.z, v.x, v.y, v.z, Dot(u, v), Dot(u, u));
    CrossTwiceX(u.y, u.z, u.x, v.y, v.z, v.x, Dot(u, v), Dot(u, u));
    CrossTwiceX(u.z, u.x, u.y, v.z, v.x, v.y, Dot(u, v), Dot(u, u));
    hide Dot;
  }

  lemma CrossTwiceX(a: real, b: real, c: real, x: real, y: real, z: real, d: real, e: real)
    requires d == a * x + b * y + c * z && e == a * a + b * b + c * c
    ensures b * (a * y - b * x) - c * (c * x - a * z) == a * d - x * e
  {
  }

  lemma Regrouped(v: Vec, uv: Vec, uuv: Vec, u: Vec, w: real, d: real, e: real)
    requires uuv == Sub(Scale(u, d), Scale(v, e))
    ensures Add(v, Scale(Add(Scale(uv, w), uuv), 2.0)) ==
      Add(Add(Scale(v, 1.0 - 2.0 * e), Scale(u, 2.0 * d)), Scale(uv, 2.0 * w))
  {
    Regroup1(v.x, uv.x, u.x, w, d, e);
    Regroup1(v.y, uv.y, u.y, w, d, e);
    Regroup1(v.z, uv.z, u.z, w, d, e);
  }

  lemma Regroup1(v: real, uv: real, u: real, w: real, d: real, e: real)
    ensures v + (uv * w + (u * d - v * e)) * 2.0 == v * (1.0 - 2.0 * e) + u * (2.0 * d) + uv * (2.0 * w)
  {
  }

  // The ends of a capsule's core: half its height up and down its own y axis, as the body is turned
  // and where it is.
  function CoreEnds(b: Body): (Vec, Vec)
    requires b.collider.Capsule?
  {
    var up := Rotated(b.rotation, Vec(0.0, b.collider.halfHeight, 0.0));
    (Add(b.position, up), Sub(b.position, up))
  }

  // They are the ones that the test computes.
  lemma EndsAreRotated(b: Body)
    requires b.collider.Capsule?
    ensures CapsuleEndpoints(b) == CoreEnds(b)
  {
    UpIsRotated(b.rotation, b.collider.halfHeight);
    hide CoreEnd, Rotated;
  }

  lemma UpIsRotated(q: Quat, h: real)
    ensures CoreEnd(q, h) == Rotated(q, Vec(0.0, h, 0.0))
  {
    var up, u := Vec(0.0, h, 0.0), Vec(q.x, q.y, q.z);
    var uv := Cross(u, up);
    var a, b, c := q.y * up.z - q.z * up.y, q.z * up.x - q.x * up.z, q.x * up.y - q.y * up.x;
    assert uv == Vec(a, b, c);
    assert CoreEnd(q, h) == Vec(up.x + q.w * (2.0 * a) + (q.y * (2.0 * c) - q.z * (2.0 * b)),
                                up.y + q.w * (2.0 * b) + (q.z * (2.0 * a) - q.x * (2.0 * c)),
                                up.z + q.w * (2.0 * c) + (q.x * (2.0 * b) - q.y * (2.0 * a)));
    assert Rotated(q, up) == Vec(up.x + (a * q.w + (q.y * c - q.z * b)) * 2.0,
                                 up.y + (b * q.w + (q.z * a - q.x * c)) * 2.0,
                                 up.z + (c * q.w + (q.x * b - q.y * a)) * 2.0);
    hide CoreEnd, Rotated, Cross;
    Twice(q.w, a, q.y, c, q.z, b);
    Twice(q.w, b, q.z, a, q.x, c);
    Twice(q.w, c, q.x, b, q.y, a);
  }

  lemma Twice(w: real, t: real, y: real, c: real, z: real, b: real)
    ensures w * (2.0 * t) + (y * (2.0 * c) - z * (2.0 * b)) == (t * w + (y * c - z * b)) * 2.0
  {
  }

  function CapsuleCapsule(root: real -> real, a: Body, b: Body): Hit
    requires a.collider.Capsule? && b.collider.Capsule?
  {
    var (a0, a1) := CapsuleEndpoints(a);
    var (b0, b1) := CapsuleEndpoints(b);
    var (ca, cb) := ClosestPoints(a0, a1, b0, b1);
    var d, sum := Sub(cb, ca), a.collider.radius + b.collider.radius;
    if Dot(d, d) >= sum * sum then Miss
    else Hit(Direction(root, d), sum - root(Dot(d, d)), Add(ca, Scale(Direction(root, d), a.collider.radius)))
  }

  // collide_pair. Pairs of other shapes are given by `other`.
  function CollidePair(root: real -> real, other: (Body, Body) -> Hit, a: Body, b: Body): Hit {
    match (a.collider, b.collider)
    case (Sphere(ra), Sphere(rb)) => SphereSphere(root, a.position, ra, b.position, rb)
    case (Capsule(_, _), Capsule(_, _)) => CapsuleCapsule(root, a, b)
    case _ => other(a, b)
  }

  // ---- What the hits mean ----

  lemma DirectionIsUnit(root: real -> real, d: Vec)
    requires IsRoot(root)
    ensures Dot(Direction(root, d), Direction(root, d)) == 1.0
  {
    DotSelfNotNegative(d);
    var dist := root(Dot(d, d));
    if dist > EPSILON {
      ScaledSquare(d, 1.0 / dist);
      InverseSquare(dist, Dot(d, d));
      hide Dot;
    }
  }

  lemma InverseSquare(dist: real, dd: real)
    requires dist > 0.0 && dd == dist * dist
    ensures Times(dd, Sq(1.0 / dist)) == 1.0
  {
    var k := 1.0 / dist;
    assert k * dist == 1.0;
    assert dd * (k * k) == (k * dist) * (k * dist);
  }

  // Some point of one core is within a squared distance of some point of the other.
  ghost predicate CoresWithin(a0: Vec, a1: Vec, b0: Vec, b1: Vec, limit: real) {
    exists s, t :: Unit(s) && Unit(t) && DistanceSq(PointAt(a0, a1, s), PointAt(b0, b1, t)) < limit
  }

  lemma CoresWithinExactly(a0: Vec, a1: Vec, b0: Vec, b1: Vec, limit: real)
    ensures var (ca, cb) := ClosestPoints(a0, a1, b0, b1);
      && (DistanceSq(ca, cb) < limit ==> CoresWithin(a0, a1, b0, b1, limit))
      && (ShortAtNearEnd(a0, a1, b0, b1) ==> (DistanceSq(ca, cb) < limit <==> CoresWithin(a0, a1, b0, b1, limit)))
      && (!ShortAtNearEnd(a0, a1, b0, b1) ==> CoresWithin(a0, a1, b0, b1, DistanceSq(ca, cb)))
  {
    var (s, t) := ClosestParameters(a0, a1, b0, b1);
    ParametersAreStationary(a0, a1, b0, b1);
    ClosestPointsAreClosest(a0, a1, b0, b1);
    hide ClosestParameters, ShortAtNearEnd, HalfSlopeS, HalfSlopeT, Short, PointAt, DistanceSq;
    assert Unit(s) && Unit(t);
  }

  function RadiusSum(a: Body, b: Body): real
    requires a.collider.Capsule? && b.collider.Capsule?
  {
    a.collider.radius + b.collider.radius
  }

  // The squared distance that the test measures.
  function MeasuredSq(a: Body, b: Body): real
    requires a.collider.Capsule? && b.collider.Capsule?
  {
    var (a0, a1) := CapsuleEndpoints(a);
    var (b0, b1) := CapsuleEndpoints(b);
    var (ca, cb) := ClosestPoints(a0, a1, b0, b1);
    DistanceSq(ca, cb)
  }

  lemma HitIsMeasured(root: real -> real, a: Body, b: Body)
    requires IsRoot(root) && a.collider.Capsule? && b.collider.Capsule?
    ensures var hit := CapsuleCapsule(root, a, b);
      && (hit.Hit? <==> MeasuredSq(a, b) < Sq(RadiusSum(a, b)))
      && (hit.Hit? ==> Dot(hit.normal, hit.normal) == 1.0)
  {
    hide CapsuleEndpoints, ClosestPoints, Dot, Sub, Direction;
    var (a0, a1) := CapsuleEndpoints(a);
    var (b0, b1) := CapsuleEndpoints(b);
    var (ca, cb) := ClosestPoints(a0, a1, b0, b1);
    DirectionIsUnit(root, Sub(cb, ca));
  }

  // Whether the cores of two capsules come within a squared distance.
  ghost predicate BodiesWithin(a: Body, b: Body, limit: real)
    requires a.collider.Capsule? && b.collider.Capsule?
  {
    var (a0, a1) := CoreEnds(a);
    var (b0, b1) := CoreEnds(b);
    CoresWithin(a0, a1, b0, b1, limit)
  }

  // Capsules overlap where their cores come within the sum of the radii.
  ghost predicate Overlap(a: Body, b: Body)
    requires a.collider.Capsule? && b.collider.Capsule?
  {
    BodiesWithin(a, b, Sq(RadiusSum(a, b)))
  }

  // The condition on two capsules' cores, whatever their radii.
  predicate CoresAtNearEnd(a: Body, b: Body)
    requires a.collider.Capsule? && b.collider.Capsule?
  {
    var (a0, a1) := CoreEnds(a);
    var (b0, b1) := CoreEnds(b);
    ShortAtNearEnd(a0, a1, b0, b1)
  }

  lemma BodiesWithinExactly(a: Body, b: Body, limit: real)
    requires a.collider.Capsule? && b.collider.Capsule?
    ensures MeasuredSq(a, b) < limit ==> BodiesWithin(a, b, limit)
    ensures CoresAtNearEnd(a, b) ==> (MeasuredSq(a, b) < limit <==> BodiesWithin(a, b, limit))
    ensures !CoresAtNearEnd(a, b) ==> BodiesWithin(a, b, MeasuredSq(a, b))
  {
    EndsAreRotated(a);
    EndsAreRotated(b);
    hide CapsuleEndpoints, CoreEnds, ClosestPoints, ShortAtNearEnd, CoresWithin, DistanceSq;
    var (a0, a1) := CoreEnds(a);
    var (b0, b1) := CoreEnds(b);
    var (ca, cb) := ClosestPoints(a0, a1, b0, b1);
    CoresWithinExactly(a0, a1, b0, b1, limit);
    CoresWithinExactly(a0, a1, b0, b1, DistanceSq(ca, cb));
  }

  // A hit means an overlap, and the normal is a unit vector; an overlap is a hit unless a core
  // is so short that it is taken at the wrong end.
  lemma CapsuleHitOverlaps(root: real -> real, other: (Body, Body) -> Hit, a: Body, b: Body)
    requires IsRoot(root) && a.collider.Capsule? && b.collider.Capsule?
    ensures var hit := CollidePair(root, other, a, b);
      && (hit.Hit? ==> Overlap(a, b))
      && (CoresAtNearEnd(a, b) ==> (hit.Hit? <==> Overlap(a, b)))
      && (hit.Hit? ==> Dot(hit.normal, hit.normal) == 1.0)
  {
    hide CapsuleCapsule, MeasuredSq, BodiesWithin, CoresAtNearEnd, Dot;
    HitIsMeasured(root, a, b);
    BodiesWithinExactly(a, b, Sq(RadiusSum(a, b)));
  }

  function WithRadius(b: Body, radius: real): (b': Body)
    requires b.collider.Capsule?
    ensures b'.collider.Capsule?
  {
    b.(collider := Capsule(radius, b.collider.halfHeight))
  }

  // Whether the answer is right for two cores with these radii around them.
  ghost predicate RightAt(root: real -> real, other: (Body, Body) -> Hit, a: Body, b: Body, r: real, s: real)
    requires a.collider.Capsule? && b.collider.Capsule?
  {
    CollidePair(root, other, WithRadius(a, r), WithRadius(b, s)).Hit? <==> Overlap(WithRadius(a, r), WithRadius(b, s))
  }

  // The exact condition: for two cores, hits are reported exactly for overlapping capsules at
  // all radii if and only if no core is short and taken at the wrong end.
  lemma CapsulesHitExactly(root: real -> real, other: (Body, Body) -> Hit, a: Body, b: Body)
    requires IsRoot(root) && a.collider.Capsule? && b.collider.Capsule?
    ensures (forall r, s :: r >= 0.0 && s >= 0.0 ==> RightAt(root, other, a, b, r, s)) <==> CoresAtNearEnd(a, b)
  {
    hide CapsuleCapsule, Overlap, CoresAtNearEnd, RightAt, WithRadius;
    if CoresAtNearEnd(a, b) {
      forall r, s | r >= 0.0 && s >= 0.0
        ensures RightAt(root, other, a, b, r, s)
      {
        RightWhenNear(root, other, a, b, r, s);
      }
    } else {
      var r := MissedRadius(root, other, a, b);
      assert !RightAt(root, other, a, b, r, 0.0);
    }
  }

  lemma RightWhenNear(root: real -> real, other: (Body, Body) -> Hit, a: Body, b: Body, r: real, s: real)
    requires IsRoot(root) && a.collider.Capsule? && b.collider.Capsule? && CoresAtNearEnd(a, b)
    ensures RightAt(root, other, a, b, r, s)
  {
    hide CapsuleCapsule, Overlap, CapsuleEndpoints, CoreEnds, ShortAtNearEnd;
    SameEnds(a, r);
    SameEnds(b, s);
    CapsuleHitOverlaps(root, other, WithRadius(a, r), WithRadius(b, s));
  }

  // Where a core is taken at the wrong end, there is a radius at which an overlap is missed.
  lemma MissedRadius(root: real -> real, other: (Body, Body) -> Hit, a: Body, b: Body) returns (r: real)
    requires IsRoot(root) && a.collider.Capsule? && b.collider.Capsule? && !CoresAtNearEnd(a, b)
    ensures r >= 0.0 && !RightAt(root, other, a, b, r, 0.0)
  {
    hide CapsuleCapsule, MeasuredSq, BodiesWithin, CoresAtNearEnd, Sq, WithRadius, RadiusSum, Dot;
    var v := MeasuredSq(a, b);
    MeasuredNotNegative(a, b);
    r := root(v);
    RootSquared(root, v);
    SumWithNone(a, b, r);
    SameCores(a, b, r, 0.0, v);
    HitIsMeasured(root, WithRadius(a, r), WithRadius(b, 0.0));
    BodiesWithinExactly(a, b, v);
  }

  lemma RootSquared(root: real -> real, v: real)
    requires IsRoot(root) && v >= 0.0
    ensures root(v) >= 0.0 && Sq(root(v)) == v
  {
  }

  lemma SumWithNone(a: Body, b: Body, r: real)
    requires a.collider.Capsule? && b.collider.Capsule?
    ensures RadiusSum(WithRadius(a, r), WithRadius(b, 0.0)) == r
  {
  }

  lemma SameCores(a: Body, b: Body, r: real, s: real, limit: real)
    requires a.collider.Capsule? && b.collider.Capsule?
    ensures MeasuredSq(WithRadius(a, r), WithRadius(b, s)) == MeasuredSq(a, b)
    ensures BodiesWithin(WithRadius(a, r), WithRadius(b, s), limit) == BodiesWithin(a, b, limit)
  {
    hide CapsuleEndpoints, CoreEnds, ClosestPoints, CoresWithin, DistanceSq, WithRadius;
    SameEnds(a, r);
    SameEnds(b, s);
  }

  lemma MeasuredNotNegative(a: Body, b: Body)
    requires a.collider.Capsule? && b.collider.Capsule?
    ensures MeasuredSq(a, b) >= 0.0
  {
    hide CapsuleEndpoints, ClosestPoints, Dot;
    var (a0, a1) := CapsuleEndpoints(a);
    var (b0, b1) := CapsuleEndpoints(b);
    var (ca, cb) := ClosestPoints(a0, a1, b0, b1);
    DotSelfNotNegative(Sub(cb, ca));
  }

  // ---- A missed overlap ----

  function AlongY(y: real): Vec {
    Vec(0.0, y, 0.0)
  }

  // A capsule standing upright on the y axis.
  function Upright(y: real, halfHeight: real, radius: real): (b: Body)
    ensures b.collider == Capsule(radius, halfHeight)
  {
    Body(AlongY(y), Quat(0.0, 0.0, 0.0, 1.0), ZERO, ZERO, 1.0, 1.0, 1.0, 1.0, 0.0, 0.0,
         Capsule(radius, halfHeight), true, false, false, 1, 1)
  }

  lemma UprightEnds(y: real, halfHeight: real, radius: real)
    ensures CapsuleEndpoints(Upright(y, halfHeight, radius)) == (AlongY(y + halfHeight), AlongY(y - halfHeight))
    ensures CoreEnds(Upright(y, halfHeight, radius)) == (AlongY(y + halfHeight), AlongY(y - halfHeight))
  {
    hide CapsuleEndpoints, CoreEnds, AlongY;
    UprightEndpoints(y, halfHeight, radius);
    EndsAreRotated(Upright(y, halfHeight, radius));
  }

  lemma UprightEndpoints(y: real, halfHeight: real, radius: real)
    ensures CapsuleEndpoints(Upright(y, halfHeight, radius)) == (AlongY(y + halfHeight), AlongY(y - halfHeight))
  {
  }

  lemma DistanceAlongY(x: real, y: real)
    ensures DistanceSq(AlongY(x), AlongY(y)) == Sq(y - x)
  {
  }

  lemma Squares()
    ensures Sq(-1.0 - 0.0005) >= Sq(1.0) > Sq(-1.0 - -0.0005)
    ensures Sq(-0.0005 - 0.0005) <= EPSILON && Sq(-1.0 - -1.0) <= EPSILON
  {
  }

  // Two capsules of radius 0.5, one with a core 0.001 high at the origin, one without a core a
  // metre below: the lower end of the first core is within the sum of the radii, but the upper
  // end is what the test measures.
  lemma CapsulesMissed(root: real -> real, other: (Body, Body) -> Hit)
    requires IsRoot(root)
    ensures var a, b := Upright(0.0, 0.0005, 0.5), Upright(-1.0, 0.0, 0.5);
      Overlap(a, b) && CollidePair(root, other, a, b).Miss?
  {
    hide CapsuleCapsule, DistanceSq, AlongY, Upright, Sq, CapsuleEndpoints, CoreEnds, ClosestPoints, Dot;
    var a, b := Upright(0.0, 0.0005, 0.5), Upright(-1.0, 0.0, 0.5);
    UprightEnds(0.0, 0.0005, 0.5);
    UprightEnds(-1.0, 0.0, 0.5);
    Squares();
    EndsMeasured(0.0005, -0.0005, -1.0);
    HitIsMeasured(root, a, b);
  }

  // A short core is measured from its start, and its end is one of its points.
  lemma EndsMeasured(x: real, y: real, z: real)
    requires Sq(y - x) <= EPSILON && Sq(z - z) <= EPSILON
    ensures var (ca, cb) := ClosestPoints(AlongY(x), AlongY(y), AlongY(z), AlongY(z)); DistanceSq(ca, cb) == Sq(z - x)
    ensures Sq(z - y) < Sq(1.0) ==> CoresWithin(AlongY(x), AlongY(y), AlongY(z), AlongY(z), Sq(1.0))
  {
    hide Sq, AlongY, ClosestPoints, PointAt;
    DistanceAlongY(x, y);
    DistanceAlongY(z, z);
    DistanceAlongY(x, z);
    DistanceAlongY(y, z);
    hide Dot, Sub;
    TwoShort(AlongY(x), AlongY(y), AlongY(z), AlongY(z));
    PointAtEnd(AlongY(x), AlongY(y));
    PointAtStart(AlongY(z), AlongY(z));
    assert Unit(1.0) && Unit(0.0);
  }

  lemma PointAtEnd(a: Vec, b: Vec)
    ensures PointAt(a, b, 1.0) == b
  {
  }

  lemma SameEnds(b: Body, r: real)
    requires b.collider.Capsule?
    ensures CapsuleEndpoints(WithRadius(b, r)) == CapsuleEndpoints(b) && CoreEnds(WithRadius(b, r)) == CoreEnds(b)
  {
    hide CoreEnd, Rotated;
  }

  // Some point lies inside both balls.
  ghost predicate BallsMeet(p: Vec, rp: real, q: Vec, rq: real) {
    exists x: Vec :: DistanceSq(p, x) < Sq(rp) && DistanceSq(q, x) < Sq(rq)
  }

  // Spheres hit exactly if the balls have a point in common.
  lemma SpheresHitExactly(root: real -> real, p: Vec, rp: real, q: Vec, rq: real)
    requires IsRoot(root)
    ensures var hit := SphereSphere(root, p, rp, q, rq);
      && (hit.Hit? <==> DistanceSq(p, q) < (rp + rq) * (rp + rq))
      && (rp > 0.0 && rq > 0.0 ==> (hit.Hit? <==> BallsMeet(p, rp, q, rq)))
      && (hit.Hit? ==> Dot(hit.normal, hit.normal) == 1.0)
  {
    hide Dot, Sub, Direction, BallsMeet, Sq, Times;
    DirectionIsUnit(root, Sub(q, p));
    SquareOfSum(rp, rq);
    if rp > 0.0 && rq > 0.0 {
      BallsMeetExactly(p, rp, q, rq);
    }
  }

  lemma SquareOfSum(x: real, y: real)
    ensures Sq(x + y) == (x + y) * (x + y) == Sq(x) + 2.0 * Times(x, y) + Sq(y)
  {
  }

  lemma BallsMeetExactly(p: Vec, rp: real, q: Vec, rq: real)
    requires rp > 0.0 && rq > 0.0
    ensures BallsMeet(p, rp, q, rq) <==> DistanceSq(p, q) < Sq(rp + rq)
  {
    hide DistanceSq, Sq;
    if DistanceSq(p, q) < Sq(rp + rq) {
      CommonPoint(p, rp, q, rq);
    }
    if BallsMeet(p, rp, q, rq) {
      var x :| DistanceSq(p, x) < Sq(rp) && DistanceSq(q, x) < Sq(rq);
      Triangle(p, rp, q, rq, x);
    }
  }

  // The point that divides the way between the centres as the radii do lies in both balls.
  lemma CommonPoint(p: Vec, rp: real, q: Vec, rq: real)
    requires rp > 0.0 && rq > 0.0 && DistanceSq(p, q) < Sq(rp + rq)
    ensures BallsMeet(p, rp, q, rq)
  {
    var d, sum := Sub(q, p), rp + rq;
    var k, l := rp / sum, rq / sum;
    Shares(rp, rq, sum);
    var x := Add(p, Scale(d, k));
    OneScale(d);
    BothEnds(p, q, d, k, l);
    ScaledSquare(d, k);
    ScaledSquare(d, -l);
    NegativeSquare(l);
    Shrinks(Dot(d, d), sum, k, rp);
    Shrinks(Dot(d, d), sum, l, rq);
    hide Dot, Sub, Scale, Add, Sq, Times;
    assert DistanceSq(p, x) < Sq(rp) && DistanceSq(q, x) < Sq(rq);
  }

  lemma Shares(x: real, y: real, sum: real)
    requires sum == x + y && sum > 0.0
    ensures x / sum + y / sum == 1.0
  {
    var k, l := x / sum, y / sum;
    assert k * sum == x && l * sum == y;
    assert Times(k + l, sum) == Times(1.0, sum);
    TimesDiffers(k + l, 1.0, sum);
  }

  lemma OneScale(d: Vec)
    ensures Scale(d, 1.0) == d
  {
  }

  lemma Shrinks(dd: real, sum: real, k: real, r: real)
    requires dd < Sq(sum) && sum > 0.0 && r > 0.0 && k == r / sum
    ensures k > 0.0 && Times(dd, Sq(k)) < Sq(r)
  {
    assert k * sum == r;
    assert Sq(r) - Times(dd, Sq(k)) == Times(Sq(sum) - dd, Sq(k));
    SqNotNegative(k);
    TimesPositive(Sq(sum) - dd, Sq(k));
  }

  // The triangle inequality.
  lemma Triangle(p: Vec, rp: real, q: Vec, rq: real, x: Vec)
    requires rp > 0.0 && rq > 0.0 && DistanceSq(p, x) < Sq(rp) && DistanceSq(q, x) < Sq(rq)
    ensures DistanceSq(p, q) < Sq(rp + rq)
  {
    hide Dot, Sub, Sq, Times;
    var u, v := Sub(x, p), Sub(x, q);
    ThroughPoint(p, q, x);
    DotDifference(u, v);
    Cauchy(u, v);
    DotSelfNotNegative(u);
    DotSelfNotNegative(v);
    NegativeSquare(Dot(u, v));
    ProductBelow(Dot(u, u), Dot(v, v), -Dot(u, v), rp, rq);
    SquareOfSum(rp, rq);
  }

  lemma ThroughPoint(p: Vec, q: Vec, x: Vec)
    ensures Sub(q, p) == Sub(Sub(x, p), Sub(x, q))
  {
  }

  lemma DotDifference(u: Vec, v: Vec)
    ensures Dot(Sub(u, v), Sub(u, v)) == Dot(u, u) - 2.0 * Dot(u, v) + Dot(v, v)
  {
  }

  lemma Cauchy(u: Vec, v: Vec)
    ensures Sq(Dot(u, v)) <= Times(Dot(u, u), Dot(v, v))
  {
    hide Dot, Sq, Times;
    DotSelfNotNegative(v);
    if v == ZERO {
      DotCommutes(u, v);
      DotZero(u);
      DotZero(v);
      NoSquare();
      TimesByZero(Dot(u, u));
    } else {
      Parallel(u, v, u);
      Named(Dot(u, u), Dot(v, v), Dot(u, v));
    }
  }

  lemma TimesByZero(x: real)
    ensures Times(x, 0.0) == 0.0
  {
  }

  lemma Named(a: real, e: real, b: real)
    ensures Times(a, e) == a * e && Sq(b) == b * b
  {
  }

  lemma ProductBelow(uu: real, vv: real, uv: real, r: real, s: real)
    requires r > 0.0 && s > 0.0 && 0.0 <= uu < Sq(r) && 0.0 <= vv < Sq(s) && Sq(uv) <= Times(uu, vv)
    ensures uv < Times(r, s)
  {
    TimesPositive(r, s);
    assert Sq(Times(r, s)) == Times(Sq(r), Sq(s));
    TimesGrows(uu, Sq(r), vv, Sq(s));
    hide Times, Sq;
    if uv >= Times(r, s) {
      SqGrows(Times(r, s), uv);
      assert false;
    }
  }

  lemma TimesGrows(x: real, x': real, y: real, y': real)
    requires 0.0 <= x < x' && 0.0 <= y < y'
    ensures Times(x, y) < Times(x', y')
  {
    TimesNotNegative(x, y' - y);
    TimesPositive(x' - x, y');
    assert Times(x', y') - Times(x, y) == Times(x, y' - y) + Times(x' - x, y');
  }

  lemma SqGrows(x: real, y: real)
    requires 0.0 <= x <= y
    ensures Sq(x) <= Sq(y)
  {
    TimesNotNegative(y - x, y + x);
    assert Sq(y) - Sq(x) == Times(y - x, y + x);
  }

  // ---- What the normal, depth and point of a hit mean ----

  // The normal points along the way between two points: it is that way's direction, or the
  // points are so close that the fallback is used and it happens to fit, as it does where they
  // coincide.
  predicate NormalFits(root: real -> real, from: Vec, to: Vec) {
    root(DistanceSq(from, to)) > EPSILON || Sub(to, from) == Scale(UP, root(DistanceSq(from, to)))
  }

  lemma SamePointFits(root: real -> real, p: Vec)
    requires IsRoot(root)
    ensures NormalFits(root, p, p)
  {
    assert Sub(p, p) == ZERO;
    DotZero(ZERO);
    hide Dot;
    NoRoot(root);
  }

  lemma NoRoot(root: real -> real)
    requires IsRoot(root)
    ensures root(0.0) == 0.0
  {
    var r := root(0.0);
    if r > 0.0 {
      ProductPositive(r, r, r * r);
    }
  }

  // Moving the second point by the depth along the normal takes it exactly to the distance
  // `sum` from the first, so that less leaves an overlap and more leaves a gap, if and only if
  // the normal fits.
  lemma DepthSeparates(root: real -> real, from: Vec, to: Vec, sum: real)
    requires IsRoot(root) && sum >= 0.0 && DistanceSq(from, to) < sum * sum
    ensures var n, depth := Direction(root, Sub(to, from)), sum - root(DistanceSq(from, to));
      && depth > 0.0
      && (NormalFits(root, from, to) ==> Sub(to, from) == Scale(n, sum - depth))
      && (DistanceSq(from, Add(to, Scale(n, depth))) == Sq(sum) <==> NormalFits(root, from, to))
  {
    var d := Sub(to, from);
    var dist := root(Dot(d, d));
    DotSelfNotNegative(d);
    DepthIsPositive(root, Dot(d, d), sum);
    hide Dot, Sub, Scale, Add, Sq, Times, Direction;
    if dist > EPSILON {
      FarSeparates(root, from, to, sum);
    } else {
      NearSeparates(root, from, to, sum);
    }
  }

  lemma FarSeparates(root: real -> real, from: Vec, to: Vec, sum: real)
    requires IsRoot(root) && root(DistanceSq(from, to)) > EPSILON
    ensures var n, depth := Direction(root, Sub(to, from)), sum - root(DistanceSq(from, to));
      && Sub(to, from) == Scale(n, sum - depth)
      && DistanceSq(from, Add(to, Scale(n, depth))) == Sq(sum)
  {
    var d := Sub(to, from);
    var dist, n := root(Dot(d, d)), Direction(root, d);
    DotSelfNotNegative(d);
    DirectionIsUnit(root, d);
    Inverse(dist);
    ScaleBack(d, 1.0 / dist, dist);
    MovedAlong(from, to, n, dist, sum);
    ScaledSquare(n, sum);
    OneTimes(Sq(sum));
    hide Dot, Sub, Scale, Add, Sq, Times;
  }

  // With the fallback normal.
  lemma NearSeparates(root: real -> real, from: Vec, to: Vec, sum: real)
    requires IsRoot(root) && root(DistanceSq(from, to)) <= EPSILON && sum > root(DistanceSq(from, to))
    ensures var depth := sum - root(DistanceSq(from, to));
      Direction(root, Sub(to, from)) == UP && (DistanceSq(from, Add(to, Scale(UP, depth))) == Sq(sum) <==>
        Sub(to, from) == Scale(UP, root(DistanceSq(from, to))))
  {
    var d := Sub(to, from);
    var dist := root(Dot(d, d));
    DotSelfNotNegative(d);
    RootSquared(root, Dot(d, d));
    MovedUp(from, to, sum - dist);
    DotSelf(d);
    UpwardsExactly(d, dist, sum);
    hide Dot, Sub, Scale, Add, Sq;
  }

  lemma MovedUp(from: Vec, to: Vec, depth: real)
    ensures Sub(Add(to, Scale(UP, depth)), from) == Add(Sub(to, from), Vec(0.0, depth, 0.0))
  {
  }

  lemma UpwardsExactly(d: Vec, dist: real, sum: real)
    requires 0.0 <= dist < sum && Sq(dist) == Sq(d.x) + Sq(d.y) + Sq(d.z)
    ensures var moved := Add(d, Vec(0.0, sum - dist, 0.0));
      Dot(moved, moved) == Sq(sum) <==> d == Scale(UP, dist)
  {
    var depth := sum - dist;
    var moved := Add(d, Vec(0.0, depth, 0.0));
    DotSelf(moved);
    SquareOfSum(d.y, depth);
    SquareOfSum(dist, depth);
    TimesDiffers(d.y, dist, depth);
    SqNotNegative(d.x);
    SqNotNegative(d.z);
    NoSquare();
    assert Scale(UP, dist) == Vec(0.0, dist, 0.0);
    hide Dot, Sq, Times, Scale;
  }

  lemma TimesDiffers(x: real, y: real, z: real)
    requires z > 0.0
    ensures Times(x, z) == Times(y, z) <==> x == y
  {
    assert Times(x, z) - Times(y, z) == Times(x - y, z);
    if x > y {
      TimesPositive(x - y, z);
    } else if x < y {
      TimesPositive(y - x, z);
      assert Times(x - y, z) == -Times(y - x, z);
    }
  }

  lemma NoSquare()
    ensures Sq(0.0) == 0.0
  {
  }

  lemma Inverse(x: real)
    requires x > 0.0
    ensures Times(1.0 / x, x) == 1.0
  {
  }

  lemma OneTimes(x: real)
    ensures Times(1.0, x) == x
  {
  }

  lemma MovedAlong(from: Vec, to: Vec, n: Vec, dist: real, sum: real)
    requires Sub(to, from) == Scale(n, dist)
    ensures Sub(Add(to, Scale(n, sum - dist)), from) == Scale(n, sum)
  {
    assert n.x * (sum - dist) + n.x * dist == n.x * sum;
    assert n.y * (sum - dist) + n.y * dist == n.y * sum;
    assert n.z * (sum - dist) + n.z * dist == n.z * sum;
  }

  // Two spheres, with a normal that fits: the normal and depth say how to part them, and the
  // contact point lies half the depth inside each of them.
  lemma SphereContact(root: real -> real, p: Vec, rp: real, q: Vec, rq: real)
    requires IsRoot(root) && rp + rq >= 0.0 && DistanceSq(p, q) < (rp + rq) * (rp + rq) && NormalFits(root, p, q)
    ensures var hit := SphereSphere(root, p, rp, q, rq);
      && hit.Hit? && hit.depth > 0.0
      && DistanceSq(p, Add(q, Scale(hit.normal, hit.depth))) == Sq(rp + rq)
      && DistanceSq(p, hit.point) == Sq(rp - hit.depth / 2.0)
      && DistanceSq(q, hit.point) == Sq(rq - hit.depth / 2.0)
  {
    var hit := SphereSphere(root, p, rp, q, rq);
    var n, k, l := hit.normal, rp - hit.depth * 0.5, rq - hit.depth * 0.5;
    DepthSeparates(root, p, q, rp + rq);
    DirectionIsUnit(root, Sub(q, p));
    assert hit.point == Add(p, Scale(n, k)) && Sub(q, p) == Scale(n, k + l);
    BothEnds(p, q, n, k, l);
    ScaledSquare(n, k);
    ScaledSquare(n, -l);
    OneTimes(Sq(k));
    OneTimes(Sq(-l));
    NegativeSquare(l);
    hide Dot, Sub, Scale, Add, Sq, Times, Direction;
  }

  lemma BothEnds(p: Vec, q: Vec, n: Vec, k: real, l: real)
    requires Sub(q, p) == Scale(n, k + l)
    ensures Sub(Add(p, Scale(n, k)), p) == Scale(n, k)
    ensures Sub(Add(p, Scale(n, k)), q) == Scale(n, -l)
  {
    assert n.x * (k + l) == n.x * k + n.x * l && n.x * -l == -(n.x * l);
    assert n.y * (k + l) == n.y * k + n.y * l && n.y * -l == -(n.y * l);
    assert n.z * (k + l) == n.z * k + n.z * l && n.z * -l == -(n.z * l);
  }

  lemma NegativeSquare(x: real)
    ensures Sq(-x) == Sq(x)
  {
  }

  // The same for capsules, between the closest points of their cores; the contact point is on
  // the surface of the first.
  lemma CapsuleContact(root: real -> real, a: Body, b: Body)
    requires IsRoot(root) && a.collider.Capsule? && b.collider.Capsule? && RadiusSum(a, b) >= 0.0
    requires var (a0, a1) := CoreEnds(a); var (b0, b1) := CoreEnds(b);
      var (ca, cb) := ClosestPoints(a0, a1, b0, b1); NormalFits(root, ca, cb)
    ensures var (a0, a1) := CoreEnds(a); var (b0, b1) := CoreEnds(b);
      var (ca, cb) := ClosestPoints(a0, a1, b0, b1); var hit := CapsuleCapsule(root, a, b);
      hit.Hit? ==>
        && hit.depth > 0.0
        && DistanceSq(ca, Add(cb, Scale(hit.normal, hit.depth))) == Sq(RadiusSum(a, b))
        && DistanceSq(ca, hit.point) == Sq(a.collider.radius)
  {
    EndsAreRotated(a);
    EndsAreRotated(b);
    var (a0, a1) := CoreEnds(a);
    var (b0, b1) := CoreEnds(b);
    var (ca, cb) := ClosestPoints(a0, a1, b0, b1);
    var hit, r := CapsuleCapsule(root, a, b), a.collider.radius;
    if hit.Hit? {
      DepthSeparates(root, ca, cb, RadiusSum(a, b));
      DirectionIsUnit(root, Sub(cb, ca));
      StepFrom(ca, hit.normal, r);
      ScaledSquare(hit.normal, r);
      OneTimes(Sq(r));
      hide Dot, Sub, Scale, Add, Sq, Times, Direction, CapsuleEndpoints, CoreEnds, ClosestPoints;
    }
  }

  // So for a pair of bodies in either case, with the normal from the first to the second.
  lemma SpherePairContact(root: real -> real, other: (Body, Body) -> Hit, a: Body, b: Body)
    requires IsRoot(root)
    ensures a.collider.Sphere? && b.collider.Sphere? && a.collider.radius > 0.0 && b.collider.radius > 0.0 ==>
      (CollidePair(root, other, a, b).Hit? <==> BallsMeet(a.position, a.collider.radius, b.position, b.collider.radius))
    ensures a.collider.Sphere? && b.collider.Sphere? && a.collider.radius + b.collider.radius >= 0.0 && NormalFits(root, a.position, b.position) ==>
      var hit := CollidePair(root, other, a, b);
      hit.Hit? ==>
        && hit.depth > 0.0
        && DistanceSq(a.position, Add(b.position, Scale(hit.normal, hit.depth))) == Sq(a.collider.radius + b.collider.radius)
        && DistanceSq(a.position, hit.point) == Sq(a.collider.radius - hit.depth / 2.0)
        && DistanceSq(b.position, hit.point) == Sq(b.collider.radius - hit.depth / 2.0)
  {
    if a.collider.Sphere? && b.collider.Sphere? {
      var p, q, rp, rq := a.position, b.position, a.collider.radius, b.collider.radius;
      SpheresHitExactly(root, p, rp, q, rq);
      if rp + rq >= 0.0 && NormalFits(root, p, q) && DistanceSq(p, q) < (rp + rq) * (rp + rq) {
        SphereContact(root, p, rp, q, rq);
      }
    }
    hide NormalFits, Sq, Dot, Add, Scale, Direction, BallsMeet;
  }

  lemma CapsulePairContact(root: real -> real, other: (Body, Body) -> Hit, a: Body, b: Body)
    requires IsRoot(root) && a.collider.Capsule? && b.collider.Capsule? && RadiusSum(a, b) >= 0.0
    requires var (a0, a1) := CoreEnds(a); var (b0, b1) := CoreEnds(b);
      var (ca, cb) := ClosestPoints(a0, a1, b0, b1); NormalFits(root, ca, cb)
    ensures var (a0, a1) := CoreEnds(a); var (b0, b1) := CoreEnds(b);
      var (ca, cb) := ClosestPoints(a0, a1, b0, b1); var hit := CollidePair(root, other, a, b);
      hit.Hit? ==>
        && hit.depth > 0.0
        && DistanceSq(ca, Add(cb, Scale(hit.normal, hit.depth))) == Sq(RadiusSum(a, b))
        && DistanceSq(ca, hit.point) == Sq(a.collider.radius)
  {
    CapsuleContact(root, a, b);
    hide CapsuleCapsule, CoreEnds, ClosestPoints, NormalFits, Sq, Dot, Add, Scale;
  }

  lemma StepFrom(p: Vec, n: Vec, k: real)
    ensures Sub(Add(p, Scale(n, k)), p) == Scale(n, k)
  {
  }

  // A hit reports how deep the bodies overlap.
  lemma DepthIsPositive(root: real -> real, v: real, sum: real)
    requires IsRoot(root) && 0.0 <= v < sum * sum && sum >= 0.0
    ensures sum - root(v) > 0.0
  {
    var r := root(v);
    if r >= sum {
      LargerSquare(r, sum, r * r, sum * sum);
      assert false;
    }
  }

  lemma LargerSquare(r: real, s: real, rr: real, ss: real)
    requires r >= s >= 0.0 && rr == r * r && ss == s * s
    ensures rr >= ss
  {
    assert rr - ss == (r - s) * (r + s);
  }
}
