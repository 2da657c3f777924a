// What the solver does to the totals of a world with bodies that cannot move: the momentum that
// contacts with them give or take (libs/calynda_physics/calynda_physics.c:712-803, 944-964).

module Ledger {
  import opened Vectors
  import opened Bodies
  import opened Impulses
  import opened Solver

  // A body that impulses cannot move, such as a static one.
  predicate Fixed(b: Body) {
    b.invMass == 0.0 && b.invInertia == 0.0
  }

  predicate Ordinary(b: Body) {
    Dynamic(b) || Fixed(b)
  }

  // ---- One visit ----

  function FrictionImpulse(root: real -> real, p: Pair): Vec
    requires EffectiveMass(p.a, p.b, p.c) > 0.0
  {
    var tangent := TangentOf(p.a, p.b, p.c);
    var len := root(Dot(tangent, tangent));
    if len < EPSILON then ZERO
    else
      var unit := Scale(tangent, 1.0 / len);
      var jt, limit := -Dot(RelativeVelocity(p.a, p.b, p.c), unit) / EffectiveMass(p.a, p.b, p.c), MaxFriction(p.a, p.b, p.c);
      Scale(unit, Clamp(p.c.tangentImpulse + jt, -limit, limit) - p.c.tangentImpulse)
  }

  // All of the impulse that a visit exchanges.
  function VisitImpulse(root: real -> real, p: Pair): Vec {
    if !Solved(p.a, p.b, p.c) then ZERO
    else
      SameEffectiveMass(p);
      Add(NormalImpulse(p.a, p.b, p.c), FrictionImpulse(root, AfterNormal(p)))
  }

  // The part of an impulse that a body takes.
  function Taken(b: Body, impulse: Vec): Vec {
    if Dynamic(b) then impulse else ZERO
  }

  // What comes from outside: nothing between two dynamic bodies, else the other's part.
  function External(p: Pair, impulse: Vec): Vec {
    Sub(Taken(p.b, impulse), Taken(p.a, impulse))
  }

  // The momentum that `b` has after `a`, with the moment of what it gained about the origin.
  predicate Gains(a: Body, b: Body, point: Vec, gain: Vec) {
    && Momentum(b) == Add(Momentum(a), gain)
    && AngularMomentum(b) == Add(AngularMomentum(a), Cross(point, gain))
  }

  lemma NoGain(a: Body, point: Vec)
    ensures Gains(a, a, point, ZERO)
  {
  }

  lemma GainsTwice(a: Body, b: Body, c: Body, point: Vec, g: Vec, h: Vec)
    requires Gains(a, b, point, g) && Gains(b, c, point, h)
    ensures Gains(a, c, point, Add(g, h))
  {
    CrossAddsRight(point, g, h);
    hide Momentum, AngularMomentum, Cross;
  }

  lemma PushGains(b: Body, c: Contact, impulse: Vec)
    requires Ordinary(b)
    ensures Gains(b, Pushed(b, Arm(b, c), impulse), c.point, Taken(b, impulse))
  {
    if Dynamic(b) {
      PushGivesMomentum(b, c, impulse);
      hide Momentum, AngularMomentum, Pushed, Arm, Cross, Dynamic;
    } else {
      NoPush(b, Arm(b, c), impulse);
      NoGain(b, c.point);
      hide Momentum, AngularMomentum, Pushed, Arm, Cross, Dynamic;
    }
  }

  lemma NoPush(b: Body, r: Vec, impulse: Vec)
    requires Fixed(b)
    ensures Pushed(b, r, impulse) == b && Pulled(b, r, impulse) == b
  {
  }

  lemma PullGains(a: Body, c: Contact, impulse: Vec)
    requires Ordinary(a)
    ensures Gains(a, Pulled(a, Arm(a, c), impulse), c.point, Neg(Taken(a, impulse)))
  {
    if Dynamic(a) {
      PullTakesMomentum(a, c, impulse);
      CrossNeg(c.point, impulse);
      hide Momentum, AngularMomentum, Pulled, Arm, Cross, Dynamic;
    } else {
      NoPush(a, Arm(a, c), impulse);
      NoGain(a, c.point);
      hide Momentum, AngularMomentum, Pulled, Arm, Cross, Dynamic;
    }
  }

  lemma CrossNeg(p: Vec, v: Vec)
    ensures Cross(p, Neg(v)) == Neg(Cross(p, v))
  {
  }

  lemma TakenAdds(b: Body, i: Vec, j: Vec)
    ensures Add(Taken(b, i), Taken(b, j)) == Taken(b, Add(i, j))
    ensures Add(Neg(Taken(b, i)), Neg(Taken(b, j))) == Neg(Taken(b, Add(i, j)))
  {
    hide Dynamic;
  }

  lemma FrictionIsPush(root: real -> real, p: Pair)
    requires EffectiveMass(p.a, p.b, p.c) > 0.0 && Ordinary(p.a) && Ordinary(p.b)
    ensures var q, j := AfterFriction(root, p), FrictionImpulse(root, p);
      Gains(p.a, q.a, p.c.point, Neg(Taken(p.a, j))) && Gains(p.b, q.b, p.c.point, Taken(p.b, j))
  {
    var j := FrictionImpulse(root, p);
    PushGains(p.b, p.c, j);
    PullGains(p.a, p.c, j);
    NoGain(p.a, p.c.point);
    NoGain(p.b, p.c.point);
    hide Gains, Pushed, Pulled, Ordinary, Dynamic, EffectiveMass, RelativeVelocity, TangentOf, Arm, MaxFriction;
  }

  lemma NormalIsPush(p: Pair)
    requires EffectiveMass(p.a, p.b, p.c) > 0.0 && Ordinary(p.a) && Ordinary(p.b)
    ensures var m, j := AfterNormal(p), NormalImpulse(p.a, p.b, p.c);
      && Gains(p.a, m.a, p.c.point, Neg(Taken(p.a, j))) && Gains(p.b, m.b, p.c.point, Taken(p.b, j))
      && SameBody(p.a, m.a) && SameBody(p.b, m.b) && m.c.point == p.c.point
  {
    var j := NormalImpulse(p.a, p.b, p.c);
    PushGains(p.b, p.c, j);
    PullGains(p.a, p.c, j);
    SameWhenPushed(p.a, Arm(p.a, p.c), j);
    SameWhenPushed(p.b, Arm(p.b, p.c), j);
    hide Gains, Pushed, Pulled, Ordinary, Dynamic, EffectiveMass, NormalImpulse, Accumulated, Arm;
  }

  lemma SameWhenPushed(b: Body, r: Vec, impulse: Vec)
    ensures SameBody(b, Pushed(b, r, impulse)) && SameBody(b, Pulled(b, r, impulse))
  {
  }

  // What a visit does to each of its bodies, whichever exits it takes.
  lemma VisitGains(root: real -> real, p: Pair)
    requires Ordinary(p.a) && Ordinary(p.b)
    ensures var q, j := Visited(root, p), VisitImpulse(root, p);
      Gains(p.a, q.a, p.c.point, Neg(Taken(p.a, j))) && Gains(p.b, q.b, p.c.point, Taken(p.b, j))
  {
    hide Gains, Ordinary, Dynamic, EffectiveMass, NormalVelocity, AfterNormal, AfterFriction, FrictionImpulse, NormalImpulse, Taken, SameBody;
    if Solved(p.a, p.b, p.c) {
      SameEffectiveMass(p);
      var m := AfterNormal(p);
      var i, j := NormalImpulse(p.a, p.b, p.c), FrictionImpulse(root, m);
      NormalIsPush(p);
      StaysOrdinary(p.a, m.a);
      StaysOrdinary(p.b, m.b);
      FrictionIsPush(root, m);
      SameTaken(p.a, m.a, j);
      SameTaken(p.b, m.b, j);
      var q := AfterFriction(root, m);
      GainsTwice(p.a, m.a, q.a, p.c.point, Neg(Taken(p.a, i)), Neg(Taken(p.a, j)));
      GainsTwice(p.b, m.b, q.b, p.c.point, Taken(p.b, i), Taken(p.b, j));
      TakenAdds(p.a, i, j);
      TakenAdds(p.b, i, j);
    } else {
      NoGain(p.a, p.c.point);
      NoGain(p.b, p.c.point);
      NothingTaken(p.a);
      NothingTaken(p.b);
    }
  }

  lemma SameTaken(a: Body, b: Body, impulse: Vec)
    requires Dynamic(a) <==> Dynamic(b)
    ensures Taken(a, impulse) == Taken(b, impulse)
  {
    hide Dynamic;
  }

  lemma NothingTaken(b: Body)
    ensures Taken(b, ZERO) == ZERO && Neg(Taken(b, ZERO)) == ZERO
  {
    hide Dynamic;
  }

  lemma StaysOrdinary(a: Body, b: Body)
    requires SameBody(a, b)
    ensures (Dynamic(a) <==> Dynamic(b)) && (Ordinary(a) <==> Ordinary(b))
  {
  }

  // ---- A run of visits ----

  datatype Sums = Sums(linear: Vec, angular: Vec)

  function Plus(a: Sums, b: Sums): Sums {
    Sums(Add(a.linear, b.linear), Add(a.angular, b.angular))
  }

  function Totals(bs: seq<Body>): Sums {
    Sums(Total(Momentum, bs), Total(AngularMomentum, bs))
  }

  predicate AllOrdinary(bs: seq<Body>) {
    forall k :: 0 <= k < |bs| ==> Ordinary(bs[k])
  }

  // What one visit adds from outside.
  function VisitEntry(root: real -> real, s: Stage, i: nat): Sums
    requires s.Shaped() && i < |s.cs|
  {
    var p := PairAt(s.bs, s.cs, i);
    var gain := External(p, VisitImpulse(root, p));
    Sums(gain, Cross(p.c.point, gain))
  }

  function RoundLedger(root: real -> real, s: Stage, n: nat): Sums
    requires s.Shaped() && n <= |s.cs|
  {
    if n == 0 then Sums(ZERO, ZERO)
    else Plus(RoundLedger(root, s, n - 1), VisitEntry(root, AfterRound(root, s, n - 1), n - 1))
  }

  function RoundsLedger(root: real -> real, s: Stage, iterations: nat): Sums
    requires s.Shaped()
  {
    if iterations == 0 then Sums(ZERO, ZERO)
    else Plus(RoundsLedger(root, s, iterations - 1), RoundLedger(root, AfterRounds(root, s, iterations - 1), |s.cs|))
  }

  // Between two dynamic bodies nothing comes from outside.
  lemma NothingExternal(p: Pair, impulse: Vec)
    requires Dynamic(p.a) && Dynamic(p.b)
    ensures External(p, impulse) == ZERO
  {
    hide Dynamic;
  }

  lemma TotalOfPair(f: Body -> Vec, bs: seq<Body>, i: nat, j: nat, a: Body, b: Body, g: Vec, h: Vec)
    requires i < |bs| && j < |bs| && i != j && f(a) == Add(f(bs[i]), g) && f(b) == Add(f(bs[j]), h)
    ensures Total(f, bs[i := a][j := b]) == Add(Total(f, bs), Add(g, h))
  {
    TotalWith(f, bs, i, a);
    TotalWith(f, bs[i := a], j, b);
    hide Total;
  }

  // Two bodies replaced by what they become.
  lemma PairBalances(bs: seq<Body>, i: nat, j: nat, a: Body, b: Body, point: Vec, g: Vec, h: Vec)
    requires i < |bs| && j < |bs| && i != j && Gains(bs[i], a, point, g) && Gains(bs[j], b, point, h)
    ensures Totals(bs[i := a][j := b]) == Plus(Totals(bs), Sums(Add(g, h), Cross(point, Add(g, h))))
  {
    TotalOfPair(Momentum, bs, i, j, a, b, g, h);
    TotalOfPair(AngularMomentum, bs, i, j, a, b, Cross(point, g), Cross(point, h));
    CrossAddsRight(point, g, h);
    hide Momentum, AngularMomentum, Total, Cross;
  }

  lemma StaysAllOrdinary(bs: seq<Body>, i: nat, j: nat, a: Body, b: Body)
    requires i < |bs| && j < |bs| && i != j && AllOrdinary(bs) && Ordinary(a) && Ordinary(b)
    ensures AllOrdinary(bs[i := a][j := b])
  {
    hide Ordinary;
  }

  lemma ExternalIs(p: Pair, impulse: Vec)
    ensures Add(Neg(Taken(p.a, impulse)), Taken(p.b, impulse)) == External(p, impulse)
  {
    hide Taken;
  }

  lemma VisitBalances(root: real -> real, s: Stage, i: nat)
    requires s.Shaped() && i < |s.cs| && AllOrdinary(s.bs)
    ensures var r := VisitAt(root, s, i); AllOrdinary(r.bs) && Totals(r.bs) == Plus(Totals(s.bs), VisitEntry(root, s, i))
  {
    hide Visited, VisitImpulse, Ordinary, Dynamic, Totals, Taken, Cross, Gains, SameBody, External;
    var p := PairAt(s.bs, s.cs, i);
    var q, c, j := Visited(root, p), s.cs[i], VisitImpulse(root, p);
    VisitKeepsRest(root, p);
    StaysOrdinary(p.a, q.a);
    StaysOrdinary(p.b, q.b);
    VisitGains(root, p);
    PairBalances(s.bs, c.bodyA, c.bodyB, q.a, q.b, c.point, Neg(Taken(p.a, j)), Taken(p.b, j));
    StaysAllOrdinary(s.bs, c.bodyA, c.bodyB, q.a, q.b);
    ExternalIs(p, j);
  }

  lemma PlusAssociates(a: Sums, b: Sums, c: Sums)
    ensures Plus(Plus(a, b), c) == Plus(a, Plus(b, c))
    ensures Plus(a, Sums(ZERO, ZERO)) == a
  {
  }

  lemma {:induction false} RoundBalances(root: real -> real, s: Stage, n: nat)
    requires s.Shaped() && n <= |s.cs| && AllOrdinary(s.bs)
    ensures var r := AfterRound(root, s, n); AllOrdinary(r.bs) && Totals(r.bs) == Plus(Totals(s.bs), RoundLedger(root, s, n))
    decreases n
  {
    hide AllOrdinary, Totals, Plus, VisitEntry, VisitAt, WellFormed;
    PlusAssociates(Totals(s.bs), Sums(ZERO, ZERO), Sums(ZERO, ZERO));
    if n > 0 {
      var before := AfterRound(root, s, n - 1);
      RoundBalances(root, s, n - 1);
      VisitBalances(root, before, n - 1);
      PlusAssociates(Totals(s.bs), RoundLedger(root, s, n - 1), VisitEntry(root, before, n - 1));
    }
  }

  // In a world of dynamic and fixed bodies the totals change, over all iterations, by what the
  // contacts with fixed bodies gave and took, and by nothing else.
  lemma {:induction false} RoundsBalance(root: real -> real, s: Stage, iterations: nat)
    requires s.Shaped() && AllOrdinary(s.bs)
    ensures var r := AfterRounds(root, s, iterations);
      AllOrdinary(r.bs) && Totals(r.bs) == Plus(Totals(s.bs), RoundsLedger(root, s, iterations))
    decreases iterations
  {
    hide AllOrdinary, Totals, Plus, AfterRound, RoundLedger, WellFormed;
    PlusAssociates(Totals(s.bs), Sums(ZERO, ZERO), Sums(ZERO, ZERO));
    if iterations > 0 {
      var before := AfterRounds(root, s, iterations - 1);
      RoundsBalance(root, s, iterations - 1);
      RoundBalances(root, before, |s.cs|);
      PlusAssociates(Totals(s.bs), RoundsLedger(root, s, iterations - 1), RoundLedger(root, before, |s.cs|));
    }
  }

  // ---- Positional correction ----

  function CorrectionEntry(a: Body, b: Body, c: Contact): Vec {
    if CanCorrect(a, b) then Sub(Taken(b, Correction(a, b, c)), Taken(a, Correction(a, b, c))) else ZERO
  }

  function CorrectionLedger(bs: seq<Body>, cs: seq<Contact>, n: nat): Vec
    requires WellFormed(bs, cs) && n <= |cs|
  {
    if n == 0 then ZERO
    else
      var p := PairAt(AfterCorrections(bs, cs, n - 1), cs, n - 1);
      Add(CorrectionLedger(bs, cs, n - 1), CorrectionEntry(p.a, p.b, p.c))
  }

  lemma CorrectionGains(a: Body, b: Body, c: Contact)
    requires Ordinary(a) && Ordinary(b) && CanCorrect(a, b)
    ensures var k := Correction(a, b, c);
      && WeightedPosition(CorrectedA(a, b, c)) == Add(WeightedPosition(a), Neg(Taken(a, k)))
      && WeightedPosition(CorrectedB(a, b, c)) == Add(WeightedPosition(b), Taken(b, k))
  {
    var k := Correction(a, b, c);
    hide Correction, Scale, Times;
    if Dynamic(a) {
      ScaleSubtracts(a.position, Scale(k, a.invMass), a.mass);
      ScaleBack(k, a.invMass, a.mass);
    }
    if Dynamic(b) {
      ScaleAdds(b.position, Scale(k, b.invMass), b.mass);
      ScaleBack(k, b.invMass, b.mass);
    }
  }

  lemma CorrectedOrdinary(a: Body, b: Body, c: Contact)
    requires Ordinary(a) && Ordinary(b)
    ensures Ordinary(CorrectedA(a, b, c)) && Ordinary(CorrectedB(a, b, c))
  {
    hide Correction, Scale, Times;
  }

  // The shares of a correction that the two bodies take, as gains of their weighted positions.
  lemma CorrectionShares(a: Body, b: Body, c: Contact) returns (g: Vec, h: Vec)
    requires Ordinary(a) && Ordinary(b)
    ensures WeightedPosition(CorrectedA(a, b, c)) == Add(WeightedPosition(a), g)
    ensures WeightedPosition(CorrectedB(a, b, c)) == Add(WeightedPosition(b), h)
    ensures Add(g, h) == CorrectionEntry(a, b, c)
  {
    g, h := ZERO, ZERO;
    if CanCorrect(a, b) {
      var k := Correction(a, b, c);
      CorrectionGains(a, b, c);
      ExternalIs(Pair(a, b, c), k);
      g, h := Neg(Taken(a, k)), Taken(b, k);
    }
    hide Correction, Taken, WeightedPosition, Ordinary;
  }

  lemma CorrectionBalances(bs: seq<Body>, cs: seq<Contact>, i: nat)
    requires WellFormed(bs, cs) && i < |cs| && AllOrdinary(bs)
    ensures var p, r := PairAt(bs, cs, i), CorrectedAt(bs, cs, i);
      AllOrdinary(r) && Total(WeightedPosition, r) == Add(Total(WeightedPosition, bs), CorrectionEntry(p.a, p.b, p.c))
  {
    hide Ordinary, Dynamic, Total, CorrectedA, CorrectedB, WeightedPosition, CorrectionEntry;
    var p := PairAt(bs, cs, i);
    var a', b', c := CorrectedA(p.a, p.b, p.c), CorrectedB(p.a, p.b, p.c), cs[i];
    CorrectedOrdinary(p.a, p.b, c);
    var g, h := CorrectionShares(p.a, p.b, c);
    StaysAllOrdinary(bs, c.bodyA, c.bodyB, a', b');
    TotalOfPair(WeightedPosition, bs, c.bodyA, c.bodyB, a', b', g, h);
  }

  // Over all contacts the mass-weighted position sum changes by what contacts with fixed bodies
  // added.
  lemma {:induction false} CorrectionsBalance(bs: seq<Body>, cs: seq<Contact>, n: nat)
    requires WellFormed(bs, cs) && n <= |cs| && AllOrdinary(bs)
    ensures var r := AfterCorrections(bs, cs, n);
      AllOrdinary(r) && Total(WeightedPosition, r) == Add(Total(WeightedPosition, bs), CorrectionLedger(bs, cs, n))
    decreases n
  {
    hide AllOrdinary, Total, CorrectionEntry, CorrectedAt, WellFormed;
    if n > 0 {
      CorrectionsBalance(bs, cs, n - 1);
      CorrectionBalances(AfterCorrections(bs, cs, n - 1), cs, n - 1);
    }
  }
}
