// One visit of the contact solver to one contact, and its laws
// (libs/calynda_physics/calynda_physics.c:715-801).

module Impulses {
  import opened Vectors
  import opened Bodies

  const FIXED_DT: real := 1.0 / 60.0
  const BAUMGARTE: real := 0.2
  const SLOP: real := 0.005

  function Arm(b: Body, c: Contact): Vec {
    Sub(c.point, b.position)
  }

  function PointVelocity(b: Body, r: Vec): Vec {
    Add(b.linearVelocity, Cross(b.angularVelocity, r))
  }

  function RelativeVelocity(a: Body, b: Body, c: Contact): Vec {
    Sub(PointVelocity(b, Arm(b, c)), PointVelocity(a, Arm(a, c)))
  }

  function NormalVelocity(a: Body, b: Body, c: Contact): real {
    Dot(RelativeVelocity(a, b, c), c.normal)
  }

  function AngularTerm(r: Vec, n: Vec, invInertia: real): real {
    Dot(Cross(Scale(Cross(r, n), invInertia), r), n)
  }

  function EffectiveMass(a: Body, b: Body, c: Contact): real {
    a.invMass + b.invMass + AngularTerm(Arm(a, c), c.normal, a.invInertia) + AngularTerm(Arm(b, c), c.normal, b.invInertia)
  }

  // An impulse on the second body of a contact ...
  function Pushed(b: Body, r: Vec, impulse: Vec): Body {
    b.(linearVelocity := Add(b.linearVelocity, Scale(impulse, b.invMass)),
       angularVelocity := Add(b.angularVelocity, Scale(Cross(r, impulse), b.invInertia)))
  }

  // ... and its reaction on the first.
  function Pulled(a: Body, r: Vec, impulse: Vec): Body {
    a.(linearVelocity := Sub(a.linearVelocity, Scale(impulse, a.invMass)),
       angularVelocity := Sub(a.angularVelocity, Scale(Cross(r, impulse), a.invInertia)))
  }

  function Restitution(a: Body, b: Body): real {
    Min(a.restitution, b.restitution)
  }

  function Bias(c: Contact): real {
    (BAUMGARTE / FIXED_DT) * Max(c.depth - SLOP, 0.0)
  }

  function Friction(a: Body, b: Body): real {
    (a.friction + b.friction) * 0.5
  }

  // Whether a visit gets past the early exits.
  predicate Solved(a: Body, b: Body, c: Contact) {
    && !a.isSensor && !b.isSensor && a.invMass + b.invMass > 0.0
    && NormalVelocity(a, b, c) <= 0.0 && EffectiveMass(a, b, c) > 0.0
  }

  // The impulse that turns an approach at speed `v` into a rebound.
  function Rebound(e: real, v: real, bias: real, m: real): real
    requires m > 0.0
  {
    (-(1.0 + e) * v + bias) / m
  }

  // The accumulated normal impulse after the visit, and the part of it applied now.
  function Accumulated(a: Body, b: Body, c: Contact): real
    requires EffectiveMass(a, b, c) > 0.0
  {
    Max(c.normalImpulse + Rebound(Restitution(a, b), NormalVelocity(a, b, c), Bias(c), EffectiveMass(a, b, c)), 0.0)
  }

  function NormalImpulse(a: Body, b: Body, c: Contact): Vec
    requires EffectiveMass(a, b, c) > 0.0
  {
    Scale(c.normal, Accumulated(a, b, c) - c.normalImpulse)
  }

  function TangentOf(a: Body, b: Body, c: Contact): Vec {
    Sub(RelativeVelocity(a, b, c), Scale(c.normal, NormalVelocity(a, b, c)))
  }

  // Coulomb's limit.
  function MaxFriction(a: Body, b: Body, c: Contact): real {
    Times(Friction(a, b), c.normalImpulse)
  }

  datatype Pair = Pair(a: Body, b: Body, c: Contact)

  // The second body has been given an impulse at the contact point, and the first its opposite.
  predicate Exchanged(p: Pair, q: Pair, impulse: Vec) {
    && q.a == Pulled(p.a, Arm(p.a, p.c), impulse) && q.b == Pushed(p.b, Arm(p.b, p.c), impulse)
    && q.c.point == p.c.point && q.c.normal == p.c.normal
  }

  function AfterNormal(p: Pair): Pair
    requires EffectiveMass(p.a, p.b, p.c) > 0.0
  {
    var impulse := NormalImpulse(p.a, p.b, p.c);
    Pair(Pulled(p.a, Arm(p.a, p.c), impulse), Pushed(p.b, Arm(p.b, p.c), impulse),
         p.c.(normalImpulse := Accumulated(p.a, p.b, p.c)))
  }

  function AfterFriction(root: real -> real, p: Pair): Pair
    requires EffectiveMass(p.a, p.b, p.c) > 0.0
  {
    var tangent := TangentOf(p.a, p.b, p.c);
    var len := root(Dot(tangent, tangent));
    if len < EPSILON then p
    else
      var unit := Scale(tangent, 1.0 / len);
      var jt, limit := -Dot(RelativeVelocity(p.a, p.b, p.c), unit) / EffectiveMass(p.a, p.b, p.c), MaxFriction(p.a, p.b, p.c);
      var t := Clamp(p.c.tangentImpulse + jt, -limit, limit);
      var impulse := Scale(unit, t - p.c.tangentImpulse);
      Pair(Pulled(p.a, Arm(p.a, p.c), impulse), Pushed(p.b, Arm(p.b, p.c), impulse), p.c.(tangentImpulse := t))
  }

  function Visited(root: real -> real, p: Pair): Pair {
    if !Solved(p.a, p.b, p.c) then p
    else
      SameEffectiveMass(p);
      AfterFriction(root, AfterNormal(p))
  }

  lemma SameEffectiveMass(p: Pair)
    requires EffectiveMass(p.a, p.b, p.c) > 0.0
    ensures EffectiveMass(AfterNormal(p).a, AfterNormal(p).b, AfterNormal(p).c) == EffectiveMass(p.a, p.b, p.c)
  {
  }

  // ---- The effective mass ----

  // The angular terms are squares ...
  lemma AngularTermIsSquare(r: Vec, n: Vec, k: real)
    ensures AngularTerm(r, n, k) == Times(k, Dot(Cross(r, n), Cross(r, n)))
  {
    var w := Cross(r, n);
    TripleProduct(Scale(w, k), r, n);
    DotScales(w, w, k);
  }

  // ... so the effective mass is positive: its test never ends a visit.
  lemma EffectiveMassIsPositive(a: Body, b: Body, c: Contact)
    requires a.invMass + b.invMass > 0.0 && a.invInertia >= 0.0 && b.invInertia >= 0.0
    ensures EffectiveMass(a, b, c) > 0.0
  {
    AngularTermIsSquare(Arm(a, c), c.normal, a.invInertia);
    AngularTermIsSquare(Arm(b, c), c.normal, b.invInertia);
    hide AngularTerm, Dot, Times, Cross, Arm;
    DotSelfNotNegative(Cross(Arm(a, c), c.normal));
    DotSelfNotNegative(Cross(Arm(b, c), c.normal));
    TimesNotNegative(a.invInertia, Dot(Cross(Arm(a, c), c.normal), Cross(Arm(a, c), c.normal)));
    TimesNotNegative(b.invInertia, Dot(Cross(Arm(b, c), c.normal), Cross(Arm(b, c), c.normal)));
  }

  // So a contact is solved exactly if neither body is a sensor, one of them can move and they do not
  // part.
  lemma SolvedExactly(a: Body, b: Body, c: Contact)
    requires a.invInertia >= 0.0 && b.invInertia >= 0.0
    ensures Solved(a, b, c) <==>
      !(a.isSensor || b.isSensor) && a.invMass + b.invMass > 0.0 && NormalVelocity(a, b, c) <= 0.0
  {
    if a.invMass + b.invMass > 0.0 {
      EffectiveMassIsPositive(a, b, c);
    }
    hide EffectiveMass, NormalVelocity;
  }

  // ---- The normal impulse ----

  // With restitution not negative the clamp at zero never bites: the accumulated impulse grows.
  lemma ImpulseGrows(a: Body, b: Body, c: Contact)
    requires Solved(a, b, c) && Restitution(a, b) >= 0.0 && c.normalImpulse >= 0.0
    ensures Accumulated(a, b, c) >= c.normalImpulse
    ensures Times(Accumulated(a, b, c) - c.normalImpulse, EffectiveMass(a, b, c)) ==
      -(1.0 + Restitution(a, b)) * NormalVelocity(a, b, c) + Bias(c)
  {
    var e, v, m, bias := Restitution(a, b), NormalVelocity(a, b, c), EffectiveMass(a, b, c), Bias(c);
    assert bias >= 0.0;
    hide Restitution, NormalVelocity, EffectiveMass, Bias;
    Grows(e, v, m, bias);
  }

  lemma Grows(e: real, v: real, m: real, bias: real)
    requires e >= 0.0 && v <= 0.0 && m > 0.0 && bias >= 0.0
    ensures Rebound(e, v, bias, m) >= 0.0
    ensures Times(Rebound(e, v, bias, m), m) == -(1.0 + e) * v + bias
  {
    TimesNotNegative(1.0 + e, -v);
    assert -(1.0 + e) * v == Times(1.0 + e, -v);
  }

  // What an impulse along `n` of size `j` does to the velocity along `n` at the contact point.
  lemma PushedAlong(v: Vec, w: Vec, r: Vec, n: Vec, j: real, im: real, ii: real)
    ensures var v', w' := Add(v, Scale(Scale(n, j), im)), Add(w, Scale(Cross(r, Scale(n, j)), ii));
      Dot(Add(v', Cross(w', r)), n) == Dot(Add(v, Cross(w, r)), n) + Times(j, Times(im, Dot(n, n)) + AngularTerm(r, n, ii))
  {
    var dv, dw := Scale(Scale(n, j), im), Scale(Cross(r, Scale(n, j)), ii);
    LinearGain(n, j, im);
    AngularGain(r, n, j, ii);
    hide Dot, Cross, Scale, Times, AngularTerm;
    CrossAddsLeft(w, dw, r);
    assert Add(Add(v, dv), Add(Cross(w, r), Cross(dw, r))) == Add(Add(v, Cross(w, r)), Add(dv, Cross(dw, r)));
    DotAdds(Add(v, Cross(w, r)), Add(dv, Cross(dw, r)), n);
    DotAdds(dv, Cross(dw, r), n);
    Factored(j, Times(im, Dot(n, n)), AngularTerm(r, n, ii));
  }

  lemma Factored(j: real, x: real, y: real)
    ensures Times(j, x + y) == Times(j, x) + Times(j, y)
  {
  }

  lemma LinearGain(n: Vec, j: real, im: real)
    ensures Dot(Scale(Scale(n, j), im), n) == Times(j, Times(im, Dot(n, n)))
  {
    DotScales(Scale(n, j), n, im);
    DotScales(n, n, j);
    Reordered(im, j, Dot(n, n));
  }

  lemma Reordered(x: real, y: real, z: real)
    ensures Times(x, Times(y, z)) == Times(y, Times(x, z))
  {
  }

  lemma AngularGain(r: Vec, n: Vec, j: real, ii: real)
    ensures Dot(Cross(Scale(Cross(r, Scale(n, j)), ii), r), n) == Times(j, AngularTerm(r, n, ii))
  {
    hide Dot, Cross, Scale, Times;
    CrossScales(r, n, j);
    ScaleTwice(Cross(r, n), j, ii);
    CrossScales(Scale(Cross(r, n), ii), r, j);
    DotScales(Cross(Scale(Cross(r, n), ii), r), n, j);
  }

  lemma PulledIsPushedBack(v: Vec, d: Vec, j: real, k: real)
    ensures Sub(v, Scale(Scale(d, j), k)) == Add(v, Scale(Scale(d, -j), k))
  {
  }

  // The law of restitution: after the normal impulse the bodies part at exactly the smaller
  // restitution times the speed they met at, plus a fifth of the depth beyond the slop per step of a
  // sixtieth of a second, which pushes them out of each other. The last term vanishes for a unit
  // normal.
  lemma NormalLaw(p: Pair)
    requires Solved(p.a, p.b, p.c) && Restitution(p.a, p.b) >= 0.0 && p.c.normalImpulse >= 0.0
    ensures var q, n := AfterNormal(p), p.c.normal;
      NormalVelocity(q.a, q.b, q.c) ==
      -(if p.a.restitution < p.b.restitution then p.a.restitution else p.b.restitution) * NormalVelocity(p.a, p.b, p.c)
      + 0.2 * 60.0 * (if p.c.depth > 0.005 then p.c.depth - 0.005 else 0.0)
      + Times(q.c.normalImpulse - p.c.normalImpulse, Times(p.a.invMass + p.b.invMass, Dot(n, n) - 1.0))
  {
    var j, n, ra, rb := Accumulated(p.a, p.b, p.c) - p.c.normalImpulse, p.c.normal, Arm(p.a, p.c), Arm(p.b, p.c);
    ImpulseGrows(p.a, p.b, p.c);
    NormalGain(p);
    var q := AfterNormal(p);
    Coefficients(p.a, p.b, p.c);
    hide NormalVelocity, AngularTerm, AfterNormal, Accumulated, Times, Restitution, Bias, Dot, Arm;
    LawArithmetic(j, p.a.invMass, p.b.invMass, AngularTerm(ra, n, p.a.invInertia), AngularTerm(rb, n, p.b.invInertia), Dot(n, n),
                  Restitution(p.a, p.b), NormalVelocity(p.a, p.b, p.c), Bias(p.c));
  }

  lemma Coefficients(a: Body, b: Body, c: Contact)
    ensures Restitution(a, b) == if a.restitution < b.restitution then a.restitution else b.restitution
    ensures Bias(c) == 0.2 * 60.0 * (if c.depth > 0.005 then c.depth - 0.005 else 0.0)
    ensures Friction(a, b) == (a.friction + b.friction) / 2.0
  {
  }

  lemma NormalGain(p: Pair)
    requires EffectiveMass(p.a, p.b, p.c) > 0.0
    ensures var q, n, j := AfterNormal(p), p.c.normal, Accumulated(p.a, p.b, p.c) - p.c.normalImpulse;
      NormalVelocity(q.a, q.b, q.c) == NormalVelocity(p.a, p.b, p.c)
        + Times(j, Times(p.a.invMass, Dot(n, n)) + AngularTerm(Arm(p.a, p.c), n, p.a.invInertia))
        + Times(j, Times(p.b.invMass, Dot(n, n)) + AngularTerm(Arm(p.b, p.c), n, p.b.invInertia))
  {
    ImpulseGain(p, AfterNormal(p), p.c.normal, Accumulated(p.a, p.b, p.c) - p.c.normalImpulse);
    hide Dot, Times, Pulled, Pushed, AngularTerm, Accumulated, EffectiveMass;
  }

  // The velocity along `u` after an impulse of size `j` along it has been exchanged.
  lemma ImpulseGain(p: Pair, q: Pair, u: Vec, j: real)
    requires Exchanged(p, q, Scale(u, j))
    ensures Dot(RelativeVelocity(q.a, q.b, q.c), u) == Dot(RelativeVelocity(p.a, p.b, p.c), u)
        + Times(j, Times(p.a.invMass, Dot(u, u)) + AngularTerm(Arm(p.a, p.c), u, p.a.invInertia))
        + Times(j, Times(p.b.invMass, Dot(u, u)) + AngularTerm(Arm(p.b, p.c), u, p.b.invInertia))
  {
    var ra, rb := Arm(p.a, p.c), Arm(p.b, p.c);
    PushedAlong(p.b.linearVelocity, p.b.angularVelocity, rb, u, j, p.b.invMass, p.b.invInertia);
    PulledAlong(p.a.linearVelocity, p.a.angularVelocity, ra, u, j, p.a.invMass, p.a.invInertia);
    hide Dot, Cross, Scale, Times, AngularTerm, Add, Sub;
    DotAdds(PointVelocity(q.b, rb), PointVelocity(q.a, ra), u);
    DotAdds(PointVelocity(p.b, rb), PointVelocity(p.a, ra), u);
  }

  lemma PulledAlong(v: Vec, w: Vec, r: Vec, n: Vec, j: real, im: real, ii: real)
    ensures var v', w' := Sub(v, Scale(Scale(n, j), im)), Sub(w, Scale(Cross(r, Scale(n, j)), ii));
      Dot(Add(v', Cross(w', r)), n) == Dot(Add(v, Cross(w, r)), n) - Times(j, Times(im, Dot(n, n)) + AngularTerm(r, n, ii))
  {
    PushedAlong(v, w, r, n, -j, im, ii);
    PulledIsPushedBack(v, n, j, im);
    CrossScales(r, n, j);
    CrossScales(r, n, -j);
    PulledIsPushedBack(w, Cross(r, n), j, ii);
    TimesNeg(j, Times(im, Dot(n, n)) + AngularTerm(r, n, ii));
    hide Dot, Cross, Scale, Times, AngularTerm, Add, Sub;
  }

  lemma LawArithmetic(j: real, ima: real, imb: real, ta: real, tb: real, nn: real, e: real, v: real, bias: real)
    requires Times(j, ima + imb + ta + tb) == -(1.0 + e) * v + bias
    ensures v + Times(j, Times(ima, nn) + ta) + Times(j, Times(imb, nn) + tb) ==
      -e * v + bias + Times(j, Times(ima + imb, nn - 1.0))
  {
    assert Times(j, Times(ima, nn) + ta) + Times(j, Times(imb, nn) + tb) ==
      Times(j, ima + imb + ta + tb) + Times(j, Times(ima + imb, nn - 1.0));
  }

  // ---- The friction bound ----

  // The accumulated friction stays inside the friction cone.
  predicate Bounded(a: Body, b: Body, c: Contact) {
    c.normalImpulse >= 0.0 && -MaxFriction(a, b, c) <= c.tangentImpulse <= MaxFriction(a, b, c)
  }

  // As it is in the contacts that the broadphase finds.
  lemma StartsBounded(a: Body, b: Body, c: Contact)
    requires c.normalImpulse == c.tangentImpulse == 0.0
    ensures Bounded(a, b, c)
  {
    TimesZeroOf(Friction(a, b));
    hide Friction, Times;
  }

  lemma TimesZeroOf(x: real)
    ensures Times(x, 0.0) == 0.0
  {
  }

  // A cone only widens as the normal impulse grows, so it also holds where the visit ends
  // before friction.
  lemma VisitKeepsBounds(root: real -> real, p: Pair)
    requires Restitution(p.a, p.b) >= 0.0 && Friction(p.a, p.b) >= 0.0 && Bounded(p.a, p.b, p.c)
    ensures var q := Visited(root, p);
      Bounded(q.a, q.b, q.c) && q.c.normalImpulse >= p.c.normalImpulse
  {
    if Solved(p.a, p.b, p.c) {
      ImpulseGrows(p.a, p.b, p.c);
      SameEffectiveMass(p);
      NormalKeepsBounds(p);
      FrictionKeepsBounds(root, AfterNormal(p));
    }
  }

  lemma NormalKeepsBounds(p: Pair)
    requires EffectiveMass(p.a, p.b, p.c) > 0.0 && Accumulated(p.a, p.b, p.c) >= p.c.normalImpulse
    requires Friction(p.a, p.b) >= 0.0 && Bounded(p.a, p.b, p.c)
    ensures var q := AfterNormal(p);
      Bounded(q.a, q.b, q.c) && Friction(q.a, q.b) >= 0.0
  {
    var q := AfterNormal(p);
    assert Friction(q.a, q.b) == Friction(p.a, p.b);
    hide Accumulated, EffectiveMass, Friction, Times;
    ConeWidens(Friction(p.a, p.b), p.c.normalImpulse, q.c.normalImpulse);
  }

  lemma FrictionKeepsBounds(root: real -> real, p: Pair)
    requires EffectiveMass(p.a, p.b, p.c) > 0.0 && Friction(p.a, p.b) >= 0.0 && Bounded(p.a, p.b, p.c)
    ensures var q := AfterFriction(root, p);
      Bounded(q.a, q.b, q.c) && q.c.normalImpulse == p.c.normalImpulse
  {
    var q := AfterFriction(root, p);
    assert Friction(q.a, q.b) == Friction(p.a, p.b);
    hide RelativeVelocity, TangentOf, EffectiveMass, Friction, Times, Scale, Pushed, Pulled;
    TimesNotNegative(Friction(p.a, p.b), p.c.normalImpulse);
  }

  lemma ConeWidens(mu: real, x: real, y: real)
    requires mu >= 0.0 && x <= y
    ensures Times(mu, x) <= Times(mu, y)
  {
    TimesNotNegative(mu, y - x);
    assert Times(mu, y) - Times(mu, x) == Times(mu, y - x);
  }

  // ---- Momentum ----

  // A body that moves and turns.
  predicate Dynamic(b: Body) {
    && b.mass > 0.0 && b.invMass > 0.0 && Times(b.invMass, b.mass) == 1.0
    && b.inertia > 0.0 && b.invInertia > 0.0 && Times(b.invInertia, b.inertia) == 1.0
  }

  function Momentum(b: Body): Vec {
    Scale(b.linearVelocity, b.mass)
  }

  // About the origin.
  function AngularMomentum(b: Body): Vec {
    Add(Cross(b.position, Momentum(b)), Scale(b.angularVelocity, b.inertia))
  }

  lemma PushGivesMomentum(b: Body, c: Contact, impulse: Vec)
    requires Dynamic(b)
    ensures Momentum(Pushed(b, Arm(b, c), impulse)) == Add(Momentum(b), impulse)
    ensures AngularMomentum(Pushed(b, Arm(b, c), impulse)) == Add(AngularMomentum(b), Cross(c.point, impulse))
  {
    var r, x := Arm(b, c), b.position;
    var q := Pushed(b, r, impulse);
    ScaleAdds(b.linearVelocity, Scale(impulse, b.invMass), b.mass);
    ScaleBack(impulse, b.invMass, b.mass);
    ScaleAdds(b.angularVelocity, Scale(Cross(r, impulse), b.invInertia), b.inertia);
    ScaleBack(Cross(r, impulse), b.invInertia, b.inertia);
    hide Cross, Scale, Times;
    assert Momentum(q) == Add(Momentum(b), impulse);
    CrossAddsRight(x, Momentum(b), impulse);
    CrossAddsLeft(x, r, impulse);
    assert Add(x, r) == c.point;
  }

  lemma PullTakesMomentum(a: Body, c: Contact, impulse: Vec)
    requires Dynamic(a)
    ensures Momentum(Pulled(a, Arm(a, c), impulse)) == Sub(Momentum(a), impulse)
    ensures AngularMomentum(Pulled(a, Arm(a, c), impulse)) == Sub(AngularMomentum(a), Cross(c.point, impulse))
  {
    var r, x := Arm(a, c), a.position;
    var q := Pulled(a, r, impulse);
    ScaleSubtracts(a.linearVelocity, Scale(impulse, a.invMass), a.mass);
    ScaleBack(impulse, a.invMass, a.mass);
    ScaleSubtracts(a.angularVelocity, Scale(Cross(r, impulse), a.invInertia), a.inertia);
    ScaleBack(Cross(r, impulse), a.invInertia, a.inertia);
    hide Cross, Scale, Times;
    assert Momentum(q) == Sub(Momentum(a), impulse);
    CrossAddsRight(x, Momentum(a), impulse);
    CrossAddsLeft(x, r, impulse);
    assert Add(x, r) == c.point;
  }

  // What the impulses of any run of visits leave alone.
  predicate SameBody(a: Body, b: Body) {
    b == a.(linearVelocity := b.linearVelocity, angularVelocity := b.angularVelocity)
  }

  predicate SameTotals(p: Pair, q: Pair) {
    && SameBody(p.a, q.a) && SameBody(p.b, q.b)
    && Add(Momentum(q.a), Momentum(q.b)) == Add(Momentum(p.a), Momentum(p.b))
    && Add(AngularMomentum(q.a), AngularMomentum(q.b)) == Add(AngularMomentum(p.a), AngularMomentum(p.b))
  }

  lemma ImpulseKeepsTotals(p: Pair, q: Pair, impulse: Vec)
    requires Dynamic(p.a) && Dynamic(p.b)
    requires q.a == Pulled(p.a, Arm(p.a, p.c), impulse) && q.b == Pushed(p.b, Arm(p.b, p.c), impulse)
    ensures SameTotals(p, q)
  {
    PullTakesMomentum(p.a, p.c, impulse);
    PushGivesMomentum(p.b, p.c, impulse);
    hide Momentum, AngularMomentum, Dynamic, Cross;
  }

  // A visit to a contact of two dynamic bodies, whichever exits it takes, only moves momentum
  // from one to the other.
  lemma VisitKeepsTotals(root: real -> real, p: Pair)
    requires Dynamic(p.a) && Dynamic(p.b)
    ensures SameTotals(p, Visited(root, p))
    ensures Visited(root, p).c.(normalImpulse := p.c.normalImpulse, tangentImpulse := p.c.tangentImpulse) == p.c
  {
    hide Dynamic, Momentum, AngularMomentum, Solved, Accumulated, TangentOf, RelativeVelocity, EffectiveMass, Restitution, Friction;
    if Solved(p.a, p.b, p.c) {
      EffectiveMassWhenSolved(p);
      SameEffectiveMass(p);
      var m := AfterNormal(p);
      var q := AfterFriction(root, m);
      ImpulseKeepsTotals(p, m, NormalImpulse(p.a, p.b, p.c));
      StillDynamic(p, m);
      if q != m {
        FrictionIsImpulse(root, m);
      }
    }
  }

  lemma EffectiveMassWhenSolved(p: Pair)
    requires Solved(p.a, p.b, p.c)
    ensures EffectiveMass(p.a, p.b, p.c) > 0.0
  {
  }

  lemma StillDynamic(p: Pair, q: Pair)
    requires SameTotals(p, q) && Dynamic(p.a) && Dynamic(p.b)
    ensures Dynamic(q.a) && Dynamic(q.b)
  {
  }

  lemma FrictionIsImpulse(root: real -> real, p: Pair)
    requires EffectiveMass(p.a, p.b, p.c) > 0.0 && Dynamic(p.a) && Dynamic(p.b) && AfterFriction(root, p) != p
    ensures SameTotals(p, AfterFriction(root, p))
  {
    var q := AfterFriction(root, p);
    var tangent := TangentOf(p.a, p.b, p.c);
    var unit := Scale(tangent, 1.0 / root(Dot(tangent, tangent)));
    ImpulseKeepsTotals(p, q, Scale(unit, q.c.tangentImpulse - p.c.tangentImpulse));
  }

  // ---- Positional correction ----

  const PERCENT: real := 0.4

  function Correction(a: Body, b: Body, c: Contact): Vec
    requires a.invMass + b.invMass > 0.0
  {
    Scale(c.normal, Max(c.depth - SLOP, 0.0) / (a.invMass + b.invMass) * PERCENT)
  }

  predicate CanCorrect(a: Body, b: Body) {
    !a.isSensor && !b.isSensor && a.invMass + b.invMass > 0.0
  }

  function CorrectedA(a: Body, b: Body, c: Contact): Body {
    if CanCorrect(a, b) && a.invMass > 0.0 then a.(position := Sub(a.position, Scale(Correction(a, b, c), a.invMass))) else a
  }

  function CorrectedB(a: Body, b: Body, c: Contact): Body {
    if CanCorrect(a, b) && b.invMass > 0.0 then b.(position := Add(b.position, Scale(Correction(a, b, c), b.invMass))) else b
  }

  function WeightedPosition(b: Body): Vec {
    Scale(b.position, b.mass)
  }

  // Dynamic bodies are moved apart around their centre of mass.
  lemma CorrectionKeepsCentre(a: Body, b: Body, c: Contact)
    requires Dynamic(a) && Dynamic(b)
    ensures Add(WeightedPosition(CorrectedA(a, b, c)), WeightedPosition(CorrectedB(a, b, c))) ==
      Add(WeightedPosition(a), WeightedPosition(b))
  {
    if CanCorrect(a, b) {
      var k := Correction(a, b, c);
      hide Correction, Scale, Times;
      ScaleSubtracts(a.position, Scale(k, a.invMass), a.mass);
      ScaleBack(k, a.invMass, a.mass);
      ScaleAdds(b.position, Scale(k, b.invMass), b.mass);
      ScaleBack(k, b.invMass, b.mass);
    }
  }

  // They part along a unit normal by the same share of what their overlap exceeds the slop by.
  lemma CorrectionParts(a: Body, b: Body, c: Contact)
    requires !a.isSensor && !b.isSensor && a.invMass >= 0.0 && b.invMass >= 0.0 && a.invMass + b.invMass > 0.0 && Dot(c.normal, c.normal) == 1.0
    ensures Dot(Sub(CorrectedB(a, b, c).position, CorrectedA(a, b, c).position), c.normal) ==
      Dot(Sub(b.position, a.position), c.normal) + (if c.depth > 0.005 then c.depth - 0.005 else 0.0) * 0.4
  {
    var k, n := Correction(a, b, c), c.normal;
    var mag := Max(c.depth - SLOP, 0.0) / (a.invMass + b.invMass) * PERCENT;
    ZeroScale(k);
    var a', b' := Sub(a.position, Scale(k, a.invMass)), Add(b.position, Scale(k, b.invMass));
    assert CorrectedA(a, b, c).position == a' && CorrectedB(a, b, c).position == b';
    assert k == Scale(n, mag);
    Share(Max(c.depth - SLOP, 0.0), a.invMass + b.invMass, mag);
    hide Dot, Scale, Correction, CorrectedA, CorrectedB, Max, Times;
    assert Sub(b', a') == Add(Sub(b.position, a.position), Add(Scale(k, b.invMass), Scale(k, a.invMass)));
    DotAdds(Sub(b.position, a.position), Add(Scale(k, b.invMass), Scale(k, a.invMass)), n);
    DotAdds(Scale(k, b.invMass), Scale(k, a.invMass), n);
    DotScales(k, n, b.invMass);
    DotScales(k, n, a.invMass);
    DotScales(n, n, mag);
    TimesOne(mag);
    TimesAdds(a.invMass + b.invMass, a.invMass, b.invMass, 0.0, mag);
    TimesZero(mag);
  }

  lemma ZeroScale(k: Vec)
    ensures Scale(k, 0.0) == ZERO
  {
  }

  lemma TimesOne(x: real)
    ensures Times(x, 1.0) == x
  {
  }

  lemma TimesZero(x: real)
    ensures Times(0.0, x) == 0.0
  {
  }

  lemma Share(m: real, t: real, mag: real)
    requires t > 0.0 && mag == m / t * PERCENT
    ensures Times(t, mag) == m * PERCENT
  {
    assert (m / t) * t == m;
    assert Times(t, mag) == ((m / t) * t) * PERCENT;
  }
}
