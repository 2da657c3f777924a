// The closest points of two segments, and capsules that overlap
// (libs/calynda_physics/calynda_physics.c:356-458).

module Segments {
  import opened Vectors

  function PointAt(a: Vec, b: Vec, s: real): Vec {
    Add(a, Scale(Sub(b, a), s))
  }

  // The branch structure of closest_points_segments, up to the last two lines.
  function ClosestParameters(p0: Vec, p1: Vec, q0: Vec, q1: Vec): (real, real) {
    var d1, d2, r := Sub(p1, p0), Sub(q1, q0), Sub(p0, q0);
    var a, e, f := Dot(d1, d1), Dot(d2, d2), Dot(d2, r);
    if a <= EPSILON && e <= EPSILON then (0.0, 0.0)
    else if a <= EPSILON then (0.0, Clamp(f / e, 0.0, 1.0))
    else
      var c := Dot(d1, r);
      if e <= EPSILON then (Clamp(-c / a, 0.0, 1.0), 0.0)
      else BothLong(a, Dot(d1, d2), c, e, f)
  }

  function BothLong(a: real, b: real, c: real, e: real, f: real): (real, real)
    requires a > 0.0 && e > 0.0
  {
    var s := FirstGuess(a, b, c, e, f);
    Recomputed(a, b, c, s, NearestOnLine(b, e, f, s))
  }

  function NearestOnLine(b: real, e: real, f: real, s: real): real
    requires e > 0.0
  {
    (b * s + f) / e
  }

  function Recomputed(a: real, b: real, c: real, s: real, t: real): (real, real)
    requires a > 0.0
  {
    if t < 0.0 then (Clamp(-c / a, 0.0, 1.0), 0.0)
    else if t > 1.0 then (Clamp((b - c) / a, 0.0, 1.0), 1.0)
    else (s, t)
  }

  function FirstGuess(a: real, b: real, c: real, e: real, f: real): real {
    var denom := a * e - b * b;
    if denom != 0.0 then Clamp((b * f - c * e) / denom, 0.0, 1.0) else 0.0
  }

  function ClosestPoints(p0: Vec, p1: Vec, q0: Vec, q1: Vec): (Vec, Vec) {
    var (s, t) := ClosestParameters(p0, p1, q0, q1);
    (PointAt(p0, p1, s), PointAt(q0, q1, t))
  }

  predicate Unit(s: real) {
    0.0 <= s <= 1.0
  }

  // `cp` and `cq` are on the segments and no other two points of the segments are closer.
  ghost predicate Closest(p0: Vec, p1: Vec, q0: Vec, q1: Vec, cp: Vec, cq: Vec) {
    && (exists s, t :: Unit(s) && Unit(t) && cp == PointAt(p0, p1, s) && cq == PointAt(q0, q1, t))
    && (forall s, t :: Unit(s) && Unit(t) ==> DistanceSq(cp, cq) <= DistanceSq(PointAt(p0, p1, s), PointAt(q0, q1, t)))
  }

  // ---- The squared distance as a function of the two parameters ----

  // Half the slopes of the squared distance.
  function SlopeS(a: real, b: real, c: real, s: real, t: real): real {
    a * s - b * t + c
  }

  function SlopeT(b: real, e: real, f: real, s: real, t: real): real {
    e * t - b * s - f
  }

  function HalfSlopeS(p0: Vec, p1: Vec, q0: Vec, q1: Vec, s: real, t: real): real {
    var d1, d2, r := Sub(p1, p0), Sub(q1, q0), Sub(p0, q0);
    SlopeS(Dot(d1, d1), Dot(d1, d2), Dot(d1, r), s, t)
  }

  function HalfSlopeT(p0: Vec, p1: Vec, q0: Vec, q1: Vec, s: real, t: real): real {
    var d1, d2, r := Sub(p1, p0), Sub(q1, q0), Sub(p0, q0);
    SlopeT(Dot(d1, d2), Dot(d2, d2), Dot(d2, r), s, t)
  }

  function Gap(p0: Vec, p1: Vec, q0: Vec, q1: Vec, s: real, t: real): real {
    DistanceSq(PointAt(p0, p1, s), PointAt(q0, q1, t))
  }

  // `s` minimises along its own parameter, the other being fixed.
  predicate Stationary(slope: real, s: real) {
    && (s < 1.0 ==> slope >= 0.0)
    && (s > 0.0 ==> slope <= 0.0)
  }

  // The slopes in one coordinate, where `here` is the way from the first point to the second.
  lemma SlopesIn(d: real, k: real, r: real, s: real, t: real, here: real)
    requires here == k * t - d * s - r
    ensures SlopeS(Times(d, d), Times(d, k), Times(d, r), s, t) == -Times(d, here)
    ensures SlopeT(Times(d, k), Times(k, k), Times(k, r), s, t) == Times(k, here)
  {
  }

  lemma StepProduct(d: real, k: real, u: real, v: real, here: real, step: real, gs: real, gt: real)
    requires step == d * u - k * v && gs == -Times(d, here) && gt == Times(k, here)
    ensures Times(here, step) == -Times(gs, u) - Times(gt, v)
  {
  }

  lemma SquareOfDifference(here: real, step: real)
    ensures Sq(here - step) == Sq(here) - 2.0 * Times(here, step) + Sq(step)
  {
  }

  // How the squared distance changes from one pair of parameters to another, in one coordinate.
  lemma DifferenceIn(d: real, k: real, r: real, s: real, t: real, u: real, v: real, here: real, there: real, step: real)
    requires here == k * t - d * s - r && step == d * u - k * v && there == here - step
    ensures Sq(there) - Sq(here) ==
      2.0 * Times(SlopeS(Times(d, d), Times(d, k), Times(d, r), s, t), u)
      + 2.0 * Times(SlopeT(Times(d, k), Times(k, k), Times(k, r), s, t), v) + Sq(step)
  {
    SlopesIn(d, k, r, s, t, here);
    hide SlopeS, SlopeT, Times, Sq;
    StepProduct(d, k, u, v, here, step, SlopeS(Times(d, d), Times(d, k), Times(d, r), s, t),
                SlopeT(Times(d, k), Times(k, k), Times(k, r), s, t));
    SquareOfDifference(here, step);
  }

  lemma SlopeSAdds(a: real, b: real, c: real, a0: real, a1: real, a2: real, b0: real, b1: real, b2: real,
                   c0: real, c1: real, c2: real, s: real, t: real)
    requires a == a0 + a1 + a2 && b == b0 + b1 + b2 && c == c0 + c1 + c2
    ensures SlopeS(a, b, c, s, t) == SlopeS(a0, b0, c0, s, t) + SlopeS(a1, b1, c1, s, t) + SlopeS(a2, b2, c2, s, t)
  {
  }

  lemma SlopeTAdds(b: real, e: real, f: real, b0: real, b1: real, b2: real, e0: real, e1: real, e2: real,
                   f0: real, f1: real, f2: real, s: real, t: real)
    requires b == b0 + b1 + b2 && e == e0 + e1 + e2 && f == f0 + f1 + f2
    ensures SlopeT(b, e, f, s, t) == SlopeT(b0, e0, f0, s, t) + SlopeT(b1, e1, f1, s, t) + SlopeT(b2, e2, f2, s, t)
  {
  }

  // The slopes are sums over the coordinates, and so is what they contribute.
  lemma SlopesAdd(d: Vec, k: Vec, r: Vec, s: real, t: real, u: real, v: real)
    ensures Times(SlopeS(Dot(d, d), Dot(d, k), Dot(d, r), s, t), u) ==
      Times(SlopeS(Times(d.x, d.x), Times(d.x, k.x), Times(d.x, r.x), s, t), u)
      + Times(SlopeS(Times(d.y, d.y), Times(d.y, k.y), Times(d.y, r.y), s, t), u)
      + Times(SlopeS(Times(d.z, d.z), Times(d.z, k.z), Times(d.z, r.z), s, t), u)
    ensures Times(SlopeT(Dot(d, k), Dot(k, k), Dot(k, r), s, t), v) ==
      Times(SlopeT(Times(d.x, k.x), Times(k.x, k.x), Times(k.x, r.x), s, t), v)
      + Times(SlopeT(Times(d.y, k.y), Times(k.y, k.y), Times(k.y, r.y), s, t), v)
      + Times(SlopeT(Times(d.z, k.z), Times(k.z, k.z), Times(k.z, r.z), s, t), v)
  {
    DotParts(d, d);
    DotParts(d, k);
    DotParts(d, r);
    DotParts(k, k);
    DotParts(k, r);
    hide SlopeS, SlopeT, Times, Dot;
    SlopeSAdds(Dot(d, d), Dot(d, k), Dot(d, r), Times(d.x, d.x), Times(d.y, d.y), Times(d.z, d.z), Times(d.x, k.x), Times(d.y, k.y),
               Times(d.z, k.z), Times(d.x, r.x), Times(d.y, r.y), Times(d.z, r.z), s, t);
    SlopeTAdds(Dot(d, k), Dot(k, k), Dot(k, r), Times(d.x, k.x), Times(d.y, k.y), Times(d.z, k.z), Times(k.x, k.x), Times(k.y, k.y),
               Times(k.z, k.z), Times(k.x, r.x), Times(k.y, r.y), Times(k.z, r.z), s, t);
    TimesAdds(SlopeS(Dot(d, d), Dot(d, k), Dot(d, r), s, t), SlopeS(Times(d.x, d.x), Times(d.x, k.x), Times(d.x, r.x), s, t),
              SlopeS(Times(d.y, d.y), Times(d.y, k.y), Times(d.y, r.y), s, t),
              SlopeS(Times(d.z, d.z), Times(d.z, k.z), Times(d.z, r.z), s, t), u);
    TimesAdds(SlopeT(Dot(d, k), Dot(k, k), Dot(k, r), s, t), SlopeT(Times(d.x, k.x), Times(k.x, k.x), Times(k.x, r.x), s, t),
              SlopeT(Times(d.y, k.y), Times(k.y, k.y), Times(k.y, r.y), s, t),
              SlopeT(Times(d.z, k.z), Times(k.z, k.z), Times(k.z, r.z), s, t), v);
  }

  lemma DifferenceAdds(d: Vec, k: Vec, r: Vec, s: real, t: real, u: real, v: real, here: Vec, there: Vec, step: Vec)
    requires here == Sub(Sub(Scale(k, t), Scale(d, s)), r) && step == Sub(Scale(d, u), Scale(k, v)) && there == Sub(here, step)
    ensures Dot(there, there) - Dot(here, here) ==
      2.0 * Times(SlopeS(Dot(d, d), Dot(d, k), Dot(d, r), s, t), u) + 2.0 * Times(SlopeT(Dot(d, k), Dot(k, k), Dot(k, r), s, t), v)
      + Dot(step, step)
  {
    DotSelf(here);
    DotSelf(there);
    DotSelf(step);
    hide SlopeS, SlopeT, Times, Sq, Dot;
    DifferenceIn(d.x, k.x, r.x, s, t, u, v, here.x, there.x, step.x);
    DifferenceIn(d.y, k.y, r.y, s, t, u, v, here.y, there.y, step.y);
    DifferenceIn(d.z, k.z, r.z, s, t, u, v, here.z, there.z, step.z);
    SlopesAdd(d, k, r, s, t, u, v);
  }

  // How the squared distance changes from one pair of parameters to another.
  lemma Difference(p0: Vec, p1: Vec, q0: Vec, q1: Vec, s: real, t: real, s': real, t': real)
    ensures var step := Sub(Scale(Sub(p1, p0), s' - s), Scale(Sub(q1, q0), t' - t));
      Gap(p0, p1, q0, q1, s', t') - Gap(p0, p1, q0, q1, s, t) ==
      2.0 * Times(HalfSlopeS(p0, p1, q0, q1, s, t), s' - s) + 2.0 * Times(HalfSlopeT(p0, p1, q0, q1, s, t), t' - t) + Dot(step, step)
  {
    var d1, d2, r := Sub(p1, p0), Sub(q1, q0), Sub(p0, q0);
    var here, there := Sub(PointAt(q0, q1, t), PointAt(p0, p1, s)), Sub(PointAt(q0, q1, t'), PointAt(p0, p1, s'));
    WayBetween(p0, p1, q0, q1, s, t);
    WayChanges(p0, p1, q0, q1, s, t, s', t');
    hide Times, Dot, SlopeS, SlopeT, Sub, Scale, PointAt;
    DifferenceAdds(d1, d2, r, s, t, s' - s, t' - t, here, there, Sub(Scale(d1, s' - s), Scale(d2, t' - t)));
  }

  lemma WayBetween(p0: Vec, p1: Vec, q0: Vec, q1: Vec, s: real, t: real)
    ensures Sub(PointAt(q0, q1, t), PointAt(p0, p1, s)) == Sub(Sub(Scale(Sub(q1, q0), t), Scale(Sub(p1, p0), s)), Sub(p0, q0))
  {
  }

  lemma WayChanges(p0: Vec, p1: Vec, q0: Vec, q1: Vec, s: real, t: real, s': real, t': real)
    ensures Sub(PointAt(q0, q1, t'), PointAt(p0, p1, s')) ==
      Sub(Sub(PointAt(q0, q1, t), PointAt(p0, p1, s)), Sub(Scale(Sub(p1, p0), s' - s), Scale(Sub(q1, q0), t' - t)))
  {
  }

  lemma StationaryStep(slope: real, s: real, s': real)
    requires Unit(s) && Unit(s') && Stationary(slope, s)
    ensures Times(slope, s' - s) >= 0.0
  {
    if s' > s {
      TimesNotNegative(slope, s' - s);
    } else if s' < s {
      TimesNotNegative(-slope, s - s');
      assert Times(-slope, s - s') == Times(slope, s' - s);
    }
  }

  // A point that is stationary in both parameters is a minimum.
  lemma StationaryIsClosest(p0: Vec, p1: Vec, q0: Vec, q1: Vec, s: real, t: real)
    requires Unit(s) && Unit(t)
    requires Stationary(HalfSlopeS(p0, p1, q0, q1, s, t), s) && Stationary(HalfSlopeT(p0, p1, q0, q1, s, t), t)
    ensures Closest(p0, p1, q0, q1, PointAt(p0, p1, s), PointAt(q0, q1, t))
  {
    hide HalfSlopeS, HalfSlopeT, Stationary, Dot, Times, PointAt, Sub, Scale, DistanceSq;
    forall s', t' | Unit(s') && Unit(t')
      ensures DistanceSq(PointAt(p0, p1, s), PointAt(q0, q1, t)) <= DistanceSq(PointAt(p0, p1, s'), PointAt(q0, q1, t'))
    {
      Difference(p0, p1, q0, q1, s, t, s', t');
      StationaryStep(HalfSlopeS(p0, p1, q0, q1, s, t), s, s');
      StationaryStep(HalfSlopeT(p0, p1, q0, q1, s, t), t, t');
      DotSelfNotNegative(Sub(Scale(Sub(p1, p0), s' - s), Scale(Sub(q1, q0), t' - t)));
      assert Gap(p0, p1, q0, q1, s, t) <= Gap(p0, p1, q0, q1, s', t');
    }
  }

  // ---- The branches ----

  // Clamping the unconstrained minimum of a parabola gives its minimum on the segment.
  lemma ClampIsStationary(a: real, m: real)
    requires a > 0.0
    ensures var s := Clamp(m / a, 0.0, 1.0); Unit(s) && Stationary(Times(a, s) - m, s)
  {
    var s := Clamp(m / a, 0.0, 1.0);
    Quotient(m, a);
    assert Times(a, 0.0) == 0.0 && Times(a, 1.0) == a && Times(a, m / a) == m;
    hide Times;
  }

  lemma Quotient(x: real, e: real)
    requires e > 0.0
    ensures (x / e) * e == x && (x / e < 0.0 <==> x < 0.0) && (x / e > 1.0 <==> x > e)
  {
    assert (x / e) * e == x;
  }

  // Half the slope of the squared distance to the second line, times `e`.
  function LineSlope(a: real, b: real, c: real, e: real, f: real, s: real): real {
    e * (a * s + c) - b * (b * s + f)
  }

  lemma LineSlopeIsLinear(a: real, b: real, c: real, e: real, f: real, s: real)
    ensures LineSlope(a, b, c, e, f, s) == Times(a * e - b * b, s) - (b * f - c * e)
  {
  }

  // The first guess minimises the distance from the first segment to the second line.
  lemma FirstGuessIsStationary(a: real, b: real, c: real, e: real, f: real)
    requires a > 0.0 && e > 0.0 && a * e >= b * b && (a * e == b * b ==> b * f == c * e)
    ensures var s := FirstGuess(a, b, c, e, f);
      Unit(s) && Stationary(LineSlope(a, b, c, e, f, s), s)
  {
    var denom, m, s := a * e - b * b, b * f - c * e, FirstGuess(a, b, c, e, f);
    LineSlopeIsLinear(a, b, c, e, f, s);
    if denom != 0.0 {
      ClampIsStationary(denom, m);
    } else {
      assert m == 0.0 && Times(denom, s) == 0.0;
    }
  }

  // Where the other parameter `t` has been clamped and `s` recomputed for it, the slope along
  // `t` still points out of the segment: `x` is how far the first guess overshoots the end,
  // `y` how far the recomputed `s` does, and `d` the way from one to the other.
  lemma StillBeyond(a: real, b: real, e: real, g0: real, g: real, h: real, d: real, x: real, y: real)
    requires a * e >= b * b && e > 0.0
    requires y == x + Times(b, d) && g == g0 + Times(a, d) && h == Times(e, g0) - Times(b, x)
    requires Times(h, d) >= 0.0 && Times(g, d) <= 0.0
    ensures x < 0.0 ==> y <= 0.0
    ensures x > 0.0 ==> y >= 0.0
  {
    SqNotNegative(d);
    SqueezeSlope(a, e, g0, g, d);
    SqueezeGuess(e, g0, b, x, h, d);
    SqueezeWidth(a * e - b * b, a * e, b, d);
    hide Times, Sq;
    NoCrossing(Times(b, d), x, y);
  }

  lemma SqueezeSlope(a: real, e: real, g0: real, g: real, d: real)
    requires e > 0.0 && g == g0 + Times(a, d) && Times(g, d) <= 0.0
    ensures Times(e, Times(g0, d)) + Times(a * e, Sq(d)) <= 0.0
  {
    assert Times(e, Times(g0, d)) + Times(a * e, Sq(d)) == Times(e, Times(g, d));
    TimesNotNegative(e, -Times(g, d));
    TimesNeg(e, Times(g, d));
  }

  lemma SqueezeGuess(e: real, g0: real, b: real, x: real, h: real, d: real)
    requires h == Times(e, g0) - Times(b, x) && Times(h, d) >= 0.0
    ensures Times(e, Times(g0, d)) - Times(Times(b, d), x) >= 0.0
  {
    assert Times(h, d) == Times(e, Times(g0, d)) - Times(Times(b, d), x);
  }

  lemma SqueezeWidth(denom: real, w: real, b: real, d: real)
    requires denom >= 0.0 && denom == w - b * b
    ensures Times(w, Sq(d)) >= Sq(Times(b, d))
  {
    SqNotNegative(d);
    TimesNotNegative(denom, Sq(d));
    assert Times(denom, Sq(d)) == Times(w, Sq(d)) - Sq(Times(b, d));
  }

  lemma NoCrossing(q: real, x: real, y: real)
    requires y == x + q && Sq(q) <= -Times(q, x)
    ensures x < 0.0 ==> y <= 0.0
    ensures x > 0.0 ==> y >= 0.0
  {
    assert Times(q, y) == Sq(q) + Times(q, x);
    TimesNeg(-q, y);
    TimesNeg(q, y);
    hide Times, Sq;
    if q > 0.0 {
      FactorNotPositive(q, y);
    } else if q < 0.0 {
      FactorNotPositive(-q, -y);
    }
  }

  // The long case ends at a pair that is stationary in both parameters.
  lemma BothLongIsStationary(a: real, b: real, c: real, e: real, f: real)
    requires a > 0.0 && e > 0.0 && a * e >= b * b && (a * e == b * b ==> b * f == c * e)
    ensures var (s, t) := BothLong(a, b, c, e, f);
      Unit(s) && Unit(t) && Stationary(SlopeS(a, b, c, s, t), s) && Stationary(SlopeT(b, e, f, s, t), t)
  {
    var s0 := FirstGuess(a, b, c, e, f);
    FirstGuessIsStationary(a, b, c, e, f);
    hide Recomputed, NearestOnLine, FirstGuess, LineSlope, Stationary, SlopeS, SlopeT;
    AfterGuess(a, b, c, e, f, s0);
  }

  lemma AfterGuess(a: real, b: real, c: real, e: real, f: real, s0: real)
    requires a > 0.0 && e > 0.0 && a * e >= b * b && Unit(s0) && Stationary(LineSlope(a, b, c, e, f, s0), s0)
    ensures var (s, t) := Recomputed(a, b, c, s0, NearestOnLine(b, e, f, s0));
      Unit(s) && Unit(t) && Stationary(SlopeS(a, b, c, s, t), s) && Stationary(SlopeT(b, e, f, s, t), t)
  {
    var t0 := NearestOnLine(b, e, f, s0);
    Quotient(b * s0 + f, e);
    hide Stationary, SlopeS, SlopeT, Clamp, LineSlope;
    if t0 < 0.0 {
      NearEnd(a, b, c, e, f, s0, Clamp(-c / a, 0.0, 1.0));
    } else if t0 > 1.0 {
      FarEnd(a, b, c, e, f, s0, Clamp((b - c) / a, 0.0, 1.0));
    } else {
      Inside(a, b, c, e, f, s0, t0);
    }
  }

  lemma NearEnd(a: real, b: real, c: real, e: real, f: real, s0: real, s: real)
    requires a > 0.0 && e > 0.0 && a * e >= b * b && Unit(s0)
    requires Stationary(LineSlope(a, b, c, e, f, s0), s0) && b * s0 + f < 0.0
    requires s == Clamp(-c / a, 0.0, 1.0)
    ensures Unit(s) && Stationary(SlopeS(a, b, c, s, 0.0), s) && Stationary(SlopeT(b, e, f, s, 0.0), 0.0)
  {
    ClampIsStationary(a, -c);
    NearSlopes(a, b, c, e, f, s0, s);
    var h, g := LineSlope(a, b, c, e, f, s0), SlopeS(a, b, c, s, 0.0);
    hide Clamp, LineSlope, SlopeS;
    StationaryStep(h, s0, s);
    StationaryStep(g, s, s0);
    Backwards(g, s, s0);
    StillBeyond(a, b, e, a * s0 + c, g, h, s - s0, b * s0 + f, b * s + f);
  }

  lemma Backwards(g: real, s: real, s0: real)
    ensures Times(g, s - s0) == -Times(g, s0 - s)
  {
  }

  lemma NearSlopes(a: real, b: real, c: real, e: real, f: real, s0: real, s: real)
    ensures SlopeS(a, b, c, s, 0.0) == Times(a, s) - -c == (a * s0 + c) + Times(a, s - s0)
    ensures LineSlope(a, b, c, e, f, s0) == Times(e, a * s0 + c) - Times(b, b * s0 + f)
    ensures SlopeT(b, e, f, s, 0.0) == -(b * s + f) && b * s + f == (b * s0 + f) + Times(b, s - s0)
  {
  }

  lemma FarEnd(a: real, b: real, c: real, e: real, f: real, s0: real, s: real)
    requires a > 0.0 && e > 0.0 && a * e >= b * b && Unit(s0)
    requires Stationary(LineSlope(a, b, c, e, f, s0), s0) && b * s0 + f > e
    requires s == Clamp((b - c) / a, 0.0, 1.0)
    ensures Unit(s) && Stationary(SlopeS(a, b, c, s, 1.0), s) && Stationary(SlopeT(b, e, f, s, 1.0), 1.0)
  {
    ClampIsStationary(a, b - c);
    FarSlopes(a, b, c, e, f, s0, s);
    var h, g := LineSlope(a, b, c, e, f, s0), SlopeS(a, b, c, s, 1.0);
    hide Clamp, LineSlope, SlopeS;
    StationaryStep(h, s0, s);
    StationaryStep(g, s, s0);
    Backwards(g, s, s0);
    StillBeyond(a, b, e, a * s0 - b + c, g, h, s - s0, b * s0 + f - e, b * s + f - e);
  }

  lemma FarSlopes(a: real, b: real, c: real, e: real, f: real, s0: real, s: real)
    ensures SlopeS(a, b, c, s, 1.0) == Times(a, s) - (b - c) == (a * s0 - b + c) + Times(a, s - s0)
    ensures LineSlope(a, b, c, e, f, s0) == Times(e, a * s0 - b + c) - Times(b, b * s0 + f - e)
    ensures SlopeT(b, e, f, s, 1.0) == -(b * s + f - e) && b * s + f - e == (b * s0 + f - e) + Times(b, s - s0)
  {
  }

  lemma Inside(a: real, b: real, c: real, e: real, f: real, s0: real, t0: real)
    requires a > 0.0 && e > 0.0 && Unit(t0) && t0 * e == b * s0 + f
    requires Stationary(LineSlope(a, b, c, e, f, s0), s0)
    ensures Stationary(SlopeS(a, b, c, s0, t0), s0) && Stationary(SlopeT(b, e, f, s0, t0), t0)
  {
    var g := SlopeS(a, b, c, s0, t0);
    assert SlopeT(b, e, f, s0, t0) == 0.0;
    assert LineSlope(a, b, c, e, f, s0) == Times(e, g);
    TimesNeg(e, g);
    hide SlopeS, SlopeT, LineSlope, Times;
    if g > 0.0 {
      TimesPositive(e, g);
    } else if g < 0.0 {
      TimesPositive(e, -g);
    }
  }

  // ---- The points returned ----

  // The Cauchy-Schwarz inequality, and what equality means for the parallel case.
  lemma Parallel(d1: Vec, d2: Vec, r: Vec)
    requires Dot(d2, d2) > 0.0
    ensures Dot(d1, d1) * Dot(d2, d2) >= Dot(d1, d2) * Dot(d1, d2)
    ensures Dot(d1, d1) * Dot(d2, d2) == Dot(d1, d2) * Dot(d1, d2) ==> Dot(d1, d2) * Dot(d2, r) == Dot(d1, r) * Dot(d2, d2)
  {
    var a, b, e := Dot(d1, d1), Dot(d1, d2), Dot(d2, d2);
    var w := Sub(Scale(d2, b), Scale(d1, e));
    DotCommutes(d1, d2);
    DotCommutes(w, d1);
    DotCommutes(w, d2);
    DotSelfNotNegative(w);
    DotZero(r);
    hide Dot, Sub, Scale, Times;
    DotCombination(d2, d1, b, e, d2);
    DotCombination(d2, d1, b, e, d1);
    DotCombination(d2, d1, b, e, w);
    DotCombination(d2, d1, b, e, r);
    ParallelWidth(a, b, e, Dot(w, w), Dot(w, d2), Dot(w, d1));
    ParallelMeans(a, b, e, Dot(w, w), Dot(d1, r), Dot(d2, r), Dot(w, r));
  }

  lemma ParallelWidth(a: real, b: real, e: real, ww: real, w2: real, w1: real)
    requires e > 0.0 && ww >= 0.0 && ww == Times(b, w2) - Times(e, w1)
    requires w2 == Times(b, e) - Times(e, b) && w1 == Times(b, b) - Times(e, a)
    ensures ww == Times(e, a * e - b * b) && a * e >= b * b
  {
    assert ww == Times(e, a * e - b * b);
    TimesNeg(e, a * e - b * b);
    FactorNotPositive(e, -(a * e - b * b));
  }

  lemma ParallelMeans(a: real, b: real, e: real, ww: real, c: real, f: real, wr: real)
    requires ww == Times(e, a * e - b * b) && (ww == 0.0 ==> wr == 0.0) && wr == Times(b, f) - Times(e, c)
    ensures a * e == b * b ==> b * f == c * e
  {
  }

  lemma DotCombination(u: Vec, v: Vec, p: real, q: real, r: Vec)
    ensures Dot(Sub(Scale(u, p), Scale(v, q)), r) == Times(p, Dot(u, r)) - Times(q, Dot(v, r))
  {
  }

  lemma DotZero(r: Vec)
    ensures Dot(ZERO, r) == 0.0
  {
  }

  lemma DotCommutes(u: Vec, v: Vec)
    ensures Dot(u, v) == Dot(v, u)
  {
  }

  // Whether the start of a segment is the point of its line's forward half nearest to `p`.
  predicate StartIsNearest(start: Vec, end: Vec, p: Vec) {
    Dot(Sub(end, start), Sub(p, start)) <= 0.0
  }

  predicate Short(start: Vec, end: Vec) {
    Dot(Sub(end, start), Sub(end, start)) <= EPSILON
  }

  // The parameters returned are stationary, except that a short segment is always taken at its start.
  lemma ParametersAreStationary(p0: Vec, p1: Vec, q0: Vec, q1: Vec)
    ensures var (s, t) := ClosestParameters(p0, p1, q0, q1);
      && Unit(s) && Unit(t)
      && (if Short(p0, p1) then s == 0.0 else Stationary(HalfSlopeS(p0, p1, q0, q1, s, t), s))
      && (if Short(q0, q1) then t == 0.0 else Stationary(HalfSlopeT(p0, p1, q0, q1, s, t), t))
  {
    var d1, d2, r := Sub(p1, p0), Sub(q1, q0), Sub(p0, q0);
    var a, b, c, e, f := Dot(d1, d1), Dot(d1, d2), Dot(d1, r), Dot(d2, d2), Dot(d2, r);
    hide Dot, Sub, BothLong, Stationary;
    if a > EPSILON && e > EPSILON {
      Parallel(d1, d2, r);
      BothLongIsStationary(a, b, c, e, f);
    } else if e > EPSILON {
      ClampIsStationary(e, f);
      AtStart(b, e, f, Clamp(f / e, 0.0, 1.0));
    } else if a > EPSILON {
      ClampIsStationary(a, -c);
      NearSlopes(a, b, c, e, f, 0.0, Clamp(-c / a, 0.0, 1.0));
    }
  }

  lemma AtStart(b: real, e: real, f: real, t: real)
    ensures SlopeT(b, e, f, 0.0, t) == Times(e, t) - f
  {
  }

  // How far to go down a slope of a parabola to gain.
  function DownhillStep(a: real, slope: real): real {
    if a > -slope && a > 0.0 then -slope / a else 1.0
  }

  // At the start of a segment a downward slope leads to closer points.
  lemma DownhillIsCloser(p0: Vec, p1: Vec, q0: Vec, q1: Vec, t: real) returns (u: real)
    requires HalfSlopeS(p0, p1, q0, q1, 0.0, t) < 0.0
    ensures Unit(u) && Gap(p0, p1, q0, q1, u, t) < Gap(p0, p1, q0, q1, 0.0, t)
  {
    var d1, d2 := Sub(p1, p0), Sub(q1, q0);
    var a, slope, other := Dot(d1, d1), HalfSlopeS(p0, p1, q0, q1, 0.0, t), HalfSlopeT(p0, p1, q0, q1, 0.0, t);
    u := DownhillStep(a, slope);
    TimesZero(other);
    DotSelfNotNegative(d1);
    hide Dot, Sub, Scale, Gap, HalfSlopeS, HalfSlopeT, Times, Sq, DownhillStep;
    Difference(p0, p1, q0, q1, 0.0, t, u, t);
    StepAlong(d1, d2, u);
    Downhill(a, slope, u);
  }

  lemma TimesZero(x: real)
    ensures Times(x, 0.0) == 0.0
  {
  }

  lemma StepAlong(d1: Vec, d2: Vec, u: real)
    ensures Dot(Sub(Scale(d1, u), Scale(d2, 0.0)), Sub(Scale(d1, u), Scale(d2, 0.0))) == Times(Dot(d1, d1), Sq(u))
  {
    assert Sub(Scale(d1, u), Scale(d2, 0.0)) == Scale(d1, u);
    ScaledSquare(d1, u);
  }

  lemma ScaledSquare(v: Vec, k: real)
    ensures Dot(Scale(v, k), Scale(v, k)) == Times(Dot(v, v), Sq(k))
  {
    DotSelf(v);
    DotSelf(Scale(v, k));
    ScaledSquareIn(v.x, k);
    ScaledSquareIn(v.y, k);
    ScaledSquareIn(v.z, k);
    TimesAdds(Dot(v, v), Sq(v.x), Sq(v.y), Sq(v.z), Sq(k));
    hide Dot, Sq, Times;
  }

  lemma ScaledSquareIn(v: real, k: real)
    ensures Sq(v * k) == Times(Sq(v), Sq(k))
  {
  }

  lemma Downhill(a: real, slope: real, u: real)
    requires a >= 0.0 && slope < 0.0 && u == DownhillStep(a, slope)
    ensures Unit(u) && 2.0 * Times(slope, u) + Times(a, Sq(u)) < 0.0
  {
    if a > -slope {
      Quotient(-slope, a);
      assert Times(a, Sq(u)) == Times(-slope, u);
      assert u > 0.0;
    } else {
      assert Times(a, Sq(u)) == a && Times(slope, u) == slope;
    }
    TimesNeg(slope, u);
    TimesPositive(-slope, u);
  }

  // The problem is symmetric.
  lemma Swapped(p0: Vec, p1: Vec, q0: Vec, q1: Vec, s: real, t: real)
    ensures HalfSlopeS(q0, q1, p0, p1, t, s) == HalfSlopeT(p0, p1, q0, q1, s, t)
    ensures Gap(q0, q1, p0, p1, t, s) == Gap(p0, p1, q0, q1, s, t)
  {
    var v, w := Sub(PointAt(q0, q1, t), PointAt(p0, p1, s)), Sub(PointAt(p0, p1, s), PointAt(q0, q1, t));
    DotNeg(Sub(q1, q0), Sub(p0, q0), Sub(q0, p0));
    DotCommutes(Sub(p1, p0), Sub(q1, q0));
    DotNeg(v, v, w);
    DotNeg(w, w, v);
    DotCommutes(v, w);
    hide Dot, Sub, PointAt;
  }

  lemma DotNeg(u: Vec, v: Vec, w: Vec)
    requires w == Neg(v)
    ensures Dot(u, w) == -Dot(u, v)
  {
  }

  // Where a segment is taken at its start, the slope there says whether that is right.
  lemma StartSlope(p0: Vec, p1: Vec, q0: Vec, q1: Vec, t: real)
    ensures HalfSlopeS(p0, p1, q0, q1, 0.0, t) >= 0.0 <==> StartIsNearest(p0, p1, PointAt(q0, q1, t))
  {
    var d1, d2, r := Sub(p1, p0), Sub(q1, q0), Sub(p0, q0);
    var way := Sub(PointAt(q0, q1, t), p0);
    assert way == Sub(Scale(d2, t), Scale(r, 1.0));
    DotCommutes(d1, way);
    DotCommutes(d1, d2);
    DotCommutes(d1, r);
    DotCombination(d2, r, t, 1.0, d1);
    StartSlopeIs(Dot(d1, d1), Dot(d1, d2), Dot(d1, r), t);
    hide Dot, Sub, Scale, PointAt, SlopeS;
  }

  lemma StartSlopeIs(a: real, b: real, c: real, t: real)
    ensures SlopeS(a, b, c, 0.0, t) == -(Times(t, b) - Times(1.0, c))
  {
  }

  // closest_point_segment
  function NearestPoint(start: Vec, end: Vec, p: Vec): Vec {
    var along := Sub(end, start);
    var t, denom := Dot(Sub(p, start), along), Dot(along, along);
    if denom < EPSILON then start else PointAt(start, end, Clamp(t / denom, 0.0, 1.0))
  }

  // A segment no longer than the threshold is taken at its start; this says that it may be, in
  // terms of the four end points.
  predicate ShortAtNearEnd(p0: Vec, p1: Vec, q0: Vec, q1: Vec) {
    if Short(p0, p1) && Short(q0, q1) then StartIsNearest(p0, p1, q0) && StartIsNearest(q0, q1, p0)
    else if Short(p0, p1) then StartIsNearest(p0, p1, NearestPoint(q0, q1, p0))
    else if Short(q0, q1) then StartIsNearest(q0, q1, NearestPoint(p0, p1, q0))
    else true
  }

  // The same of the points that are returned.
  predicate TakenAtNearEnd(p0: Vec, p1: Vec, q0: Vec, q1: Vec) {
    var (cp, cq) := ClosestPoints(p0, p1, q0, q1);
    (Short(p0, p1) ==> StartIsNearest(p0, p1, cq)) && (Short(q0, q1) ==> StartIsNearest(q0, q1, cp))
  }

  lemma PointAtStart(a: Vec, b: Vec)
    ensures PointAt(a, b, 0.0) == a
  {
  }

  lemma TwoShort(p0: Vec, p1: Vec, q0: Vec, q1: Vec)
    requires Short(p0, p1) && Short(q0, q1)
    ensures ClosestPoints(p0, p1, q0, q1) == (p0, q0)
  {
    PointAtStart(p0, p1);
    PointAtStart(q0, q1);
    hide Dot, Sub, Clamp, BothLong, PointAt;
  }

  lemma FirstShort(p0: Vec, p1: Vec, q0: Vec, q1: Vec)
    requires Short(p0, p1) && !Short(q0, q1)
    ensures ClosestPoints(p0, p1, q0, q1) == (p0, NearestPoint(q0, q1, p0))
  {
    hide Dot, Sub, Clamp, BothLong, PointAt;
    PointAtStart(p0, p1);
    DotCommutes(Sub(q1, q0), Sub(p0, q0));
  }

  lemma SecondShort(p0: Vec, p1: Vec, q0: Vec, q1: Vec)
    requires !Short(p0, p1) && Short(q0, q1)
    ensures ClosestPoints(p0, p1, q0, q1) == (NearestPoint(p0, p1, q0), q0)
  {
    PointAtStart(q0, q1);
    DotNeg(Sub(p1, p0), Sub(p0, q0), Sub(q0, p0));
    DotCommutes(Sub(p1, p0), Sub(q0, p0));
    hide Dot, Sub, Clamp, BothLong, PointAt;
  }

  lemma SameCondition(p0: Vec, p1: Vec, q0: Vec, q1: Vec)
    ensures TakenAtNearEnd(p0, p1, q0, q1) <==> ShortAtNearEnd(p0, p1, q0, q1)
  {
    hide ClosestPoints, NearestPoint, StartIsNearest, Short;
    if Short(p0, p1) && Short(q0, q1) {
      TwoShort(p0, p1, q0, q1);
    } else if Short(p0, p1) {
      FirstShort(p0, p1, q0, q1);
    } else if Short(q0, q1) {
      SecondShort(p0, p1, q0, q1);
    }
  }

  // The main result. The points are the closest ones of the two segments for every pair of
  // segments longer than the threshold, parallel or not; a shorter segment is taken at its
  // start, which is right exactly when its start is the end nearest to the other segment.
  lemma ClosestPointsAreClosest(p0: Vec, p1: Vec, q0: Vec, q1: Vec)
    ensures var (cp, cq) := ClosestPoints(p0, p1, q0, q1);
      Closest(p0, p1, q0, q1, cp, cq) <==> ShortAtNearEnd(p0, p1, q0, q1)
  {
    var (s, t) := ClosestParameters(p0, p1, q0, q1);
    ParametersAreStationary(p0, p1, q0, q1);
    SameCondition(p0, p1, q0, q1);
    StartSlope(p0, p1, q0, q1, t);
    StartSlope(q0, q1, p0, p1, s);
    Swapped(p0, p1, q0, q1, s, t);
    hide StartIsNearest, Short, ClosestParameters, DistanceSq, PointAt, HalfSlopeS, HalfSlopeT, ShortAtNearEnd;
    if s == 0.0 && HalfSlopeS(p0, p1, q0, q1, s, t) < 0.0 {
      var u := DownhillIsCloser(p0, p1, q0, q1, t);
      assert Unit(u) && Unit(t);
    } else if t == 0.0 && HalfSlopeT(p0, p1, q0, q1, s, t) < 0.0 {
      var u := DownhillIsCloser(q0, q1, p0, p1, s);
      Swapped(p0, p1, q0, q1, s, u);
      assert Unit(s) && Unit(u);
    } else {
      StationaryIsClosest(p0, p1, q0, q1, s, t);
    }
  }

  // So closest_point_segment returns the nearest point of a segment longer than the threshold.
  lemma NearestPointIsNearest(start: Vec, end: Vec, p: Vec)
    requires !Short(start, end)
    ensures Closest(p, p, start, end, p, NearestPoint(start, end, p))
  {
    NoLength(p, NearestPoint(start, end, p));
    hide ClosestPoints, NearestPoint, StartIsNearest, Short, Closest;
    FirstShort(p, p, start, end);
    ClosestPointsAreClosest(p, p, start, end);
  }

  lemma NoLength(p: Vec, q: Vec)
    ensures Short(p, p) && StartIsNearest(p, p, q)
  {
    hide Dot;
    assert Sub(p, p) == ZERO;
    DotZero(Sub(p, p));
    DotZero(Sub(q, p));
  }

  function AlongX(x: real): Vec {
    Vec(x, 0.0, 0.0)
  }

  // A segment from 0 to 0.001 on the x axis, and the point 1: the segment is taken at 0, but
  // its other end is closer.
  lemma ShortSegmentGoesWrong()
    ensures var p0, p1, q := AlongX(0.0), AlongX(0.001), AlongX(1.0);
      ClosestPoints(p0, p1, q, q) == (p0, q) && !Closest(p0, p1, q, q, p0, q)
  {
    hide ClosestPoints, Closest, AlongX;
    ShortGoesWrong(0.001, 1.0);
  }

  lemma ShortGoesWrong(x: real, y: real)
    requires 0.0 < x <= 0.001 && x < y
    ensures var p0, p1, q := AlongX(0.0), AlongX(x), AlongX(y);
      ClosestPoints(p0, p1, q, q) == (p0, q) && !Closest(p0, p1, q, q, p0, q)
  {
    var p0, p1, q := AlongX(0.0), AlongX(x), AlongX(y);
    WrongEnd(x, y);
    TwoShort(p0, p1, q, q);
    hide ClosestPoints, Closest, StartIsNearest, Short, AlongX;
    ClosestPointsAreClosest(p0, p1, q, q);
  }

  lemma WrongEnd(x: real, y: real)
    requires 0.0 < x <= 0.001 && x < y
    ensures var p0, p1, q := AlongX(0.0), AlongX(x), AlongX(y);
      Short(p0, p1) && Short(q, q) && !StartIsNearest(p0, p1, q)
  {
    var p0, p1, q := AlongX(0.0), AlongX(x), AlongX(y);
    hide Dot, Times;
    assert Sub(p1, p0) == AlongX(x) && Sub(q, p0) == AlongX(y) && Sub(q, q) == AlongX(0.0);
    hide Sub, AlongX;
    DotAlongX(x, x);
    DotAlongX(x, y);
    DotAlongX(0.0, 0.0);
    TimesPositive(x, y);
    SmallSquare(x);
  }

  lemma DotAlongX(x: real, y: real)
    ensures Dot(AlongX(x), AlongX(y)) == Times(x, y)
  {
  }

  lemma SmallSquare(x: real)
    requires 0.0 < x <= 0.001
    ensures Times(x, x) <= EPSILON && Times(0.0, 0.0) == 0.0
  {
    assert x * x <= x * 0.001;
  }
}
