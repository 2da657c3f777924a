// Friction acts against the slide, as far as Coulomb's cone lets it
// (libs/calynda_physics/calynda_physics.c:774-801).

module FrictionLaw {
  import opened Vectors
  import opened Bodies
  import opened Impulses

  // Across the normal, the second body moves past the first along the unit vector `u`.
  predicate Slides(p: Pair, u: Vec, speed: real) {
    && RelativeVelocity(p.a, p.b, p.c) == Add(Scale(p.c.normal, NormalVelocity(p.a, p.b, p.c)), Scale(u, speed))
    && Dot(u, u) == 1.0 && Dot(p.c.normal, u) == 0.0
  }

  // Bodies at a contact slide past each other in one direction, unless they do not slide.
  lemma SlideExists(root: real -> real, p: Pair) returns (u: Vec, speed: real)
    requires IsRoot(root) && Dot(p.c.normal, p.c.normal) == 1.0
    ensures speed == root(Dot(TangentOf(p.a, p.b, p.c), TangentOf(p.a, p.b, p.c)))
    ensures speed > 0.0 ==> Slides(p, u, speed)
  {
    var n, v, t := p.c.normal, RelativeVelocity(p.a, p.b, p.c), TangentOf(p.a, p.b, p.c);
    DotSelfNotNegative(t);
    speed := root(Dot(t, t));
    u := ZERO;
    if speed > 0.0 {
      u := Scale(t, 1.0 / speed);
      UnitAlong(t, speed);
      Across(n, v);
      DotScales(t, n, 1.0 / speed);
      DotCommutes(n, u);
      hide Dot, Scale, Times, RelativeVelocity;
      TimesZeroOf(1.0 / speed);
      Splits(v, Scale(n, NormalVelocity(p.a, p.b, p.c)));
    }
  }

  lemma UnitAlong(t: Vec, len: real)
    requires len > 0.0 && Dot(t, t) == len * len
    ensures var u := Scale(t, 1.0 / len);
      Dot(u, u) == 1.0 && Scale(u, len) == t
  {
    var k := 1.0 / len;
    assert Times(k, len) == 1.0;
    ScaleBack(t, k, len);
    DotScales(t, Scale(t, k), k);
    DotCommutes(t, Scale(t, k));
    DotScales(t, t, k);
    hide Dot, Scale;
    assert Times(k, Times(k, len * len)) == Times(k, len) * Times(k, len);
  }

  lemma DotCommutes(u: Vec, v: Vec)
    ensures Dot(u, v) == Dot(v, u)
  {
  }

  lemma Across(n: Vec, v: Vec)
    requires Dot(n, n) == 1.0
    ensures Dot(Sub(v, Scale(n, Dot(v, n))), n) == 0.0
  {
    var k := Dot(v, n);
    DotAdds(v, Scale(n, k), n);
    DotScales(n, n, k);
    TimesOne(k);
    hide Dot, Scale, Times;
  }

  lemma Splits(v: Vec, w: Vec)
    ensures v == Add(w, Sub(v, w))
  {
  }

  // ---- The law of friction ----

  // The accumulated friction impulse after a visit: less what would stop the slide, inside the cone
  // whose width is the mean of the two coefficients times the normal impulse.
  predicate Coulomb(p: Pair, speed: real, after: real)
    requires EffectiveMass(p.a, p.b, p.c) > 0.0
  {
    var wanted := p.c.tangentImpulse - speed / EffectiveMass(p.a, p.b, p.c);
    var limit := Times((p.a.friction + p.b.friction) / 2.0, p.c.normalImpulse);
    after == if wanted < -limit then -limit else if wanted > limit then limit else wanted
  }

  // Along the slide, the velocity changes by the impulse times the inverse masses and the angular
  // terms along the slide.
  lemma AlongTheSlide(root: real -> real, p: Pair, u: Vec, speed: real)
    requires IsRoot(root) && EffectiveMass(p.a, p.b, p.c) > 0.0 && Slides(p, u, speed) && speed >= 0.000001
    ensures var q := AfterFriction(root, p);
      var j := q.c.tangentImpulse - p.c.tangentImpulse;
      && Coulomb(p, speed, q.c.tangentImpulse)
      && Exchanged(p, q, Scale(u, j)) && q.c == p.c.(tangentImpulse := q.c.tangentImpulse)
      && Dot(RelativeVelocity(q.a, q.b, q.c), u) == speed
          + Times(j, p.a.invMass + p.b.invMass
                     + AngularTerm(Arm(p.a, p.c), u, p.a.invInertia) + AngularTerm(Arm(p.b, p.c), u, p.b.invInertia))
  {
    var q := AfterFriction(root, p);
    var j := q.c.tangentImpulse - p.c.tangentImpulse;
    FrictionIs(root, p, u, speed);
    ImpulseGain(p, q, u, j);
    AlongIs(p, u, speed);
    hide Dot, Scale, Exchanged, AngularTerm, RelativeVelocity, EffectiveMass, AfterFriction, Arm, Coulomb, Slides, Times;
    Sum(j, p.a.invMass, AngularTerm(Arm(p.a, p.c), u, p.a.invInertia), p.b.invMass, AngularTerm(Arm(p.b, p.c), u, p.b.invInertia));
  }

  lemma Sum(j: real, x: real, y: real, z: real, w: real)
    ensures Times(j, Times(x, 1.0) + y) + Times(j, Times(z, 1.0) + w) == Times(j, x + z + y + w)
  {
  }

  lemma AlongIs(p: Pair, u: Vec, speed: real)
    requires Slides(p, u, speed)
    ensures Dot(RelativeVelocity(p.a, p.b, p.c), u) == speed
  {
    var n, vn := p.c.normal, NormalVelocity(p.a, p.b, p.c);
    hide Dot, Scale, RelativeVelocity, NormalVelocity, Times, Add;
    DotAdds(Scale(n, vn), Scale(u, speed), u);
    DotScales(n, u, vn);
    DotScales(u, u, speed);
    TimesZeroOf(vn);
    TimesOne(speed);
  }

  lemma FrictionIs(root: real -> real, p: Pair, u: Vec, speed: real)
    requires IsRoot(root) && EffectiveMass(p.a, p.b, p.c) > 0.0 && Slides(p, u, speed) && speed >= 0.000001
    ensures var q := AfterFriction(root, p);
      && Coulomb(p, speed, q.c.tangentImpulse)
      && Exchanged(p, q, Scale(u, q.c.tangentImpulse - p.c.tangentImpulse))
      && q.c == p.c.(tangentImpulse := q.c.tangentImpulse)
  {
    var t := TangentOf(p.a, p.b, p.c);
    AlongIs(p, u, speed);
    Coefficients(p.a, p.b, p.c);
    TangentIs(p, u, speed);
    LengthOf(root, u, speed);
    ScaleDown(u, speed);
    Limit(p);
    NegQuotient(speed, EffectiveMass(p.a, p.b, p.c));
    hide Dot, Scale, RelativeVelocity, EffectiveMass, Arm, Slides, TangentOf, Pulled, Pushed, Friction, MaxFriction, Times;
  }

  lemma Limit(p: Pair)
    ensures MaxFriction(p.a, p.b, p.c) == Times((p.a.friction + p.b.friction) / 2.0, p.c.normalImpulse)
  {
  }

  lemma TangentIs(p: Pair, u: Vec, speed: real)
    requires Slides(p, u, speed)
    ensures TangentOf(p.a, p.b, p.c) == Scale(u, speed)
  {
    hide Scale, Dot, RelativeVelocity, NormalVelocity;
  }

  lemma LengthOf(root: real -> real, u: Vec, speed: real)
    requires IsRoot(root) && Dot(u, u) == 1.0 && speed > 0.0
    ensures root(Dot(Scale(u, speed), Scale(u, speed))) == speed
  {
    var t := Scale(u, speed);
    DotScales(u, t, speed);
    DotCommutes(u, t);
    DotScales(u, u, speed);
    hide Dot, Scale;
    var sq := Dot(t, t);
    assert sq == speed * speed;
    TimesPositive(speed, speed);
    assert root(sq) >= 0.0 && root(sq) * root(sq) == sq;
    SameRoot(root(sq), speed);
  }

  lemma SameRoot(x: real, y: real)
    requires x >= 0.0 && y > 0.0 && x * x == y * y
    ensures x == y
  {
    if x > y {
      ProductPositive(x - y, x + y, (x - y) * (x + y));
    } else if x < y {
      ProductPositive(y - x, x + y, (y - x) * (x + y));
    }
  }

  lemma ScaleDown(u: Vec, speed: real)
    requires speed > 0.0
    ensures Scale(Scale(u, speed), 1.0 / speed) == u
  {
    ScaleBack(u, speed, 1.0 / speed);
  }

  // Where nothing has been exchanged yet, friction pushes against the slide: just enough to end it
  // if the cone allows that, else as much as the cone allows.
  lemma AgainstTheSlide(p: Pair, speed: real, after: real)
    requires EffectiveMass(p.a, p.b, p.c) > 0.0 && Coulomb(p, speed, after) && speed >= 0.0
    requires p.c.tangentImpulse == 0.0 && p.c.normalImpulse >= 0.0 && p.a.friction + p.b.friction >= 0.0
    ensures after == -Min(speed / EffectiveMass(p.a, p.b, p.c), Times((p.a.friction + p.b.friction) / 2.0, p.c.normalImpulse))
    ensures after <= 0.0
  {
    var m, limit := EffectiveMass(p.a, p.b, p.c), Times((p.a.friction + p.b.friction) / 2.0, p.c.normalImpulse);
    TimesNotNegative((p.a.friction + p.b.friction) / 2.0, p.c.normalImpulse);
    hide EffectiveMass, Times;
    Quotient(speed, m);
  }

  lemma Quotient(x: real, y: real)
    requires x >= 0.0 && y > 0.0
    ensures x / y >= 0.0
  {
    var t := x / y;
    assert Times(t, y) == x;
    hide Times;
    if t < 0.0 {
      TimesPositive(-t, y);
      TimesNeg(t, y);
    }
  }

  lemma NegQuotient(x: real, y: real)
    requires y > 0.0
    ensures -x / y == -(x / y)
  {
  }

  // What barely slides is left as it is.
  lemma NoFriction(root: real -> real, p: Pair)
    requires EffectiveMass(p.a, p.b, p.c) > 0.0
    requires root(Dot(TangentOf(p.a, p.b, p.c), TangentOf(p.a, p.b, p.c))) < 0.000001
    ensures AfterFriction(root, p) == p
  {
    hide TangentOf, Dot, RelativeVelocity;
  }

  // ---- Bodies that do not turn ----

  lemma Moves(p: Pair, q: Pair, u: Vec, j: real)
    requires Exchanged(p, q, Scale(u, j)) && p.a.invInertia == 0.0 && p.b.invInertia == 0.0
    ensures RelativeVelocity(q.a, q.b, q.c) == Add(RelativeVelocity(p.a, p.b, p.c), Scale(u, Times(j, p.a.invMass + p.b.invMass)))
  {
    var ra, rb := Arm(p.a, p.c), Arm(p.b, p.c);
    NoTurn(p.a.angularVelocity, Cross(ra, Scale(u, j)));
    NoTurn(p.b.angularVelocity, Cross(rb, Scale(u, j)));
    Shares(u, j, p.a.invMass, p.b.invMass);
    assert Arm(q.a, q.c) == ra && Arm(q.b, q.c) == rb;
    hide Cross, Scale, Arm, Times;
    assert q.a.angularVelocity == p.a.angularVelocity && q.b.angularVelocity == p.b.angularVelocity;
  }

  lemma NoTurn(w: Vec, d: Vec)
    ensures Add(w, Scale(d, 0.0)) == w == Sub(w, Scale(d, 0.0))
  {
  }

  lemma Shares(u: Vec, j: real, x: real, y: real)
    ensures Add(Scale(Scale(u, j), x), Scale(Scale(u, j), y)) == Scale(u, Times(j, x + y))
  {
    Share1(u.x, j, x, y);
    Share1(u.y, j, x, y);
    Share1(u.z, j, x, y);
    ScaleParts(u, j);
    ScaleParts(Scale(u, j), x);
    ScaleParts(Scale(u, j), y);
    ScaleParts(u, Times(j, x + y));
    hide Scale, Times;
  }

  lemma Share1(c: real, j: real, x: real, y: real)
    ensures Times(Times(c, j), x) + Times(Times(c, j), y) == Times(c, Times(j, x + y))
  {
  }

  // Then the slide ends where the cone allows it, and otherwise loses what the cone allows.
  lemma SlideAfterwards(root: real -> real, p: Pair, u: Vec, speed: real)
    requires IsRoot(root) && EffectiveMass(p.a, p.b, p.c) > 0.0 && Slides(p, u, speed) && speed >= 0.000001
    requires p.c.tangentImpulse == 0.0 && p.c.normalImpulse >= 0.0 && p.a.friction + p.b.friction >= 0.0
    requires p.a.invInertia == 0.0 && p.b.invInertia == 0.0
    ensures var q := AfterFriction(root, p);
      var lost := Times(Times((p.a.friction + p.b.friction) / 2.0, p.c.normalImpulse), p.a.invMass + p.b.invMass);
      RelativeVelocity(q.a, q.b, q.c) ==
        Add(Scale(p.c.normal, NormalVelocity(p.a, p.b, p.c)), Scale(u, Max(speed - lost, 0.0)))
  {
    var q := AfterFriction(root, p);
    AlongTheSlide(root, p, u, speed);
    AgainstTheSlide(p, speed, q.c.tangentImpulse);
    Moves(p, q, u, q.c.tangentImpulse);
    MassIs(p);
    hide EffectiveMass, RelativeVelocity, NormalVelocity, AfterFriction, Scale, Dot, Exchanged, Coulomb, AngularTerm, Arm, Times, Add;
    var s, limit := p.a.invMass + p.b.invMass, Times((p.a.friction + p.b.friction) / 2.0, p.c.normalImpulse);
    Remainder(speed, s, limit);
    assert q.c.tangentImpulse == -Min(speed / s, limit);
    Gathers(Scale(p.c.normal, NormalVelocity(p.a, p.b, p.c)), u, speed, Times(q.c.tangentImpulse, s));
  }

  lemma MassIs(p: Pair)
    requires p.a.invInertia == 0.0 && p.b.invInertia == 0.0
    ensures EffectiveMass(p.a, p.b, p.c) == p.a.invMass + p.b.invMass
  {
    AngularTermIsSquare(Arm(p.a, p.c), p.c.normal, 0.0);
    AngularTermIsSquare(Arm(p.b, p.c), p.c.normal, 0.0);
    hide AngularTerm, Dot, Cross, Arm;
  }

  lemma Remainder(speed: real, s: real, limit: real)
    requires s > 0.0
    ensures speed + Times(-Min(speed / s, limit), s) == Max(speed - Times(limit, s), 0.0)
  {
    var t := speed / s;
    assert t * s == speed;
    if t < limit {
      TimesPositive(limit - t, s);
    } else {
      TimesNotNegative(t - limit, s);
    }
  }

  lemma Gathers(w: Vec, u: Vec, x: real, y: real)
    ensures Add(Add(w, Scale(u, x)), Scale(u, y)) == Add(w, Scale(u, x + y))
  {
  }

  // ---- A whole first visit ----

  // Bodies that do not turn part along the normal as restitution and bias have it, and slide on by
  // what the cone of the new normal impulse leaves.
  lemma FirstVisit(root: real -> real, p: Pair, u: Vec, speed: real)
    requires IsRoot(root) && Solved(p.a, p.b, p.c) && Slides(p, u, speed) && speed >= 0.000001
    requires p.c.tangentImpulse == 0.0 && p.c.normalImpulse >= 0.0 && Dot(p.c.normal, p.c.normal) == 1.0
    requires p.a.friction + p.b.friction >= 0.0 && p.a.restitution >= 0.0 && p.b.restitution >= 0.0
    requires p.a.invInertia == 0.0 && p.b.invInertia == 0.0
    ensures var q, v, s := Visited(root, p), NormalVelocity(p.a, p.b, p.c), p.a.invMass + p.b.invMass;
      var e, bias := Min(p.a.restitution, p.b.restitution), 12.0 * Max(p.c.depth - 0.005, 0.0);
      && Times(q.c.normalImpulse - p.c.normalImpulse, s) == -(1.0 + e) * v + bias
      && RelativeVelocity(q.a, q.b, q.c) == Add(Scale(p.c.normal, -e * v + bias),
           Scale(u, Max(speed - Times(Times((p.a.friction + p.b.friction) / 2.0, q.c.normalImpulse), s), 0.0)))
  {
    hide Slides, EffectiveMass, NormalVelocity, RelativeVelocity, Accumulated, Scale, Dot, AfterFriction, Times, Add;
    var m := AfterNormal(p);
    MassIs(p);
    ImpulseGrows(p.a, p.b, p.c);
    Coefficients(p.a, p.b, p.c);
    NormalPart(p, u, speed);
    SameEffectiveMass(p);
    SlideAfterwards(root, m, u, speed);
    KeepsImpulse(root, m);
  }

  lemma KeepsImpulse(root: real -> real, p: Pair)
    requires EffectiveMass(p.a, p.b, p.c) > 0.0
    ensures AfterFriction(root, p).c.normalImpulse == p.c.normalImpulse
  {
  }

  lemma NormalPart(p: Pair, u: Vec, speed: real)
    requires Solved(p.a, p.b, p.c) && Slides(p, u, speed) && Dot(p.c.normal, p.c.normal) == 1.0
    requires p.a.restitution >= 0.0 && p.b.restitution >= 0.0 && p.c.normalImpulse >= 0.0
    requires p.a.invInertia == 0.0 && p.b.invInertia == 0.0
    ensures var q := AfterNormal(p);
      && Slides(q, u, speed)
      && NormalVelocity(q.a, q.b, q.c) ==
        -Min(p.a.restitution, p.b.restitution) * NormalVelocity(p.a, p.b, p.c) + 12.0 * Max(p.c.depth - 0.005, 0.0)
  {
    var q, n, v := AfterNormal(p), p.c.normal, NormalVelocity(p.a, p.b, p.c);
    hide RelativeVelocity, Accumulated, EffectiveMass, Bias, Scale, Dot, Times, Add, Pulled, Pushed;
    var k := Times(q.c.normalImpulse - p.c.normalImpulse, p.a.invMass + p.b.invMass);
    NormalLaw(p);
    Moves(p, q, n, q.c.normalImpulse - p.c.normalImpulse);
    NoExcess(q.c.normalImpulse - p.c.normalImpulse, p.a.invMass + p.b.invMass);
    GathersAlong(n, v, Scale(u, speed), k);
    NormalOf(n, u, v + k, speed);
    SameProduct(if p.a.restitution < p.b.restitution then p.a.restitution else p.b.restitution, Min(p.a.restitution, p.b.restitution), v);
  }

  lemma SameProduct(x: real, y: real, v: real)
    requires x == y
    ensures -x * v == -y * v
  {
  }

  lemma NoExcess(j: real, s: real)
    ensures Times(j, Times(s, 1.0 - 1.0)) == 0.0
  {
  }

  lemma GathersAlong(n: Vec, v: real, w: Vec, k: real)
    ensures Add(Add(Scale(n, v), w), Scale(n, k)) == Add(Scale(n, v + k), w)
  {
  }

  lemma NormalOf(n: Vec, u: Vec, k: real, speed: real)
    requires Dot(n, n) == 1.0 && Dot(n, u) == 0.0
    ensures Dot(Add(Scale(n, k), Scale(u, speed)), n) == k
  {
    DotAdds(Scale(n, k), Scale(u, speed), n);
    DotScales(n, n, k);
    DotScales(u, n, speed);
    DotCommutes(n, u);
    hide Dot, Scale, Times, Add;
    TimesOne(k);
    TimesZeroOf(speed);
  }

  // A body of mass 1 comes down on a fixed floor at (1, -1, 0), with friction 0.5 ...
  predicate ComesDown(p: Pair) {
    && !p.a.isSensor && !p.b.isSensor
    && p.a.invMass == 0.0 && p.b.invMass == 1.0 && p.a.invInertia == 0.0 && p.b.invInertia == 0.0
    && p.a.linearVelocity == p.a.angularVelocity == p.b.angularVelocity == ZERO && p.b.linearVelocity == Vec(1.0, -1.0, 0.0)
    && p.a.restitution == p.b.restitution == 0.0 && p.a.friction == p.b.friction == 0.5
    && p.c.normal == UP && p.c.depth == 0.0 && p.c.normalImpulse == p.c.tangentImpulse == 0.0
  }

  // ... stops falling and goes on at half its sideways speed.
  lemma SlowsDown(root: real -> real, p: Pair)
    requires IsRoot(root) && ComesDown(p)
    ensures Visited(root, p).b.linearVelocity == Vec(0.5, 0.0, 0.0)
  {
    var q := Visited(root, p);
    hide Visited, Solved, Slides, Dot, RelativeVelocity, NormalVelocity, Scale, Add, Times;
    Meets(p);
    Dots();
    Unmoved(root, p);
    FirstVisit(root, p, ASIDE, 1.0);
    Halves(q.c.normalImpulse);
    Sums();
    AtRest(q);
  }

  lemma Meets(p: Pair)
    requires ComesDown(p)
    ensures Solved(p.a, p.b, p.c) && Slides(p, ASIDE, 1.0) && NormalVelocity(p.a, p.b, p.c) == -1.0
  {
    hide EffectiveMass, RelativeVelocity, Dot, Scale, Add;
    AtRest(p);
    MassIs(p);
    Dots();
    Sums();
  }

  const ASIDE: Vec := Vec(1.0, 0.0, 0.0)

  lemma DotUp(x: real, y: real, z: real)
    ensures Dot(Vec(x, y, z), Vec(0.0, 1.0, 0.0)) == y
    ensures Dot(Vec(0.0, 1.0, 0.0), Vec(x, y, z)) == y
  {
  }

  lemma DotAside(x: real, y: real, z: real)
    ensures Dot(Vec(x, y, z), Vec(1.0, 0.0, 0.0)) == x
  {
  }

  lemma Dots()
    ensures Dot(UP, UP) == 1.0 && Dot(ASIDE, ASIDE) == 1.0 && Dot(UP, ASIDE) == 0.0 && Dot(Vec(1.0, -1.0, 0.0), UP) == -1.0
  {
    DotUp(0.0, 1.0, 0.0);
    DotAside(1.0, 0.0, 0.0);
    DotUp(1.0, 0.0, 0.0);
    DotUp(1.0, -1.0, 0.0);
    hide Dot;
  }

  lemma Sums()
    ensures Vec(1.0, -1.0, 0.0) == Add(Scale(UP, -1.0), Scale(ASIDE, 1.0))
    ensures Vec(0.5, 0.0, 0.0) == Add(Scale(UP, 0.0), Scale(ASIDE, 0.5))
  {
  }

  lemma Halves(j: real)
    requires Times(j - 0.0, 0.0 + 1.0) == 1.0
    ensures Times(Times((0.5 + 0.5) / 2.0, j), 0.0 + 1.0) == 0.5
  {
  }

  lemma Unmoved(root: real -> real, p: Pair)
    requires p.a.invMass == 0.0 && p.a.invInertia == 0.0 && p.b.invInertia == 0.0
    ensures var q := Visited(root, p);
      && q.a.linearVelocity == p.a.linearVelocity
      && q.a.angularVelocity == p.a.angularVelocity && q.b.angularVelocity == p.b.angularVelocity
  {
    hide Solved, Scale, Accumulated, EffectiveMass, TangentOf, RelativeVelocity, MaxFriction, Cross, Dot, Arm, Clamp;
    forall v, d
      ensures Add(v, Scale(d, 0.0)) == v == Sub(v, Scale(d, 0.0))
    {
      NoTurn(v, d);
    }
  }

  lemma NoSpin(r: Vec)
    ensures Cross(ZERO, r) == ZERO
  {
  }

  lemma AtRest(p: Pair)
    requires p.a.linearVelocity == p.a.angularVelocity == p.b.angularVelocity == ZERO
    ensures RelativeVelocity(p.a, p.b, p.c) == p.b.linearVelocity
  {
    NoSpin(Arm(p.a, p.c));
    NoSpin(Arm(p.b, p.c));
    hide Cross, Arm;
  }
}
