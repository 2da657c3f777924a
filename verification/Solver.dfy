// The contact solver and the positional correction over the world's arrays
// (libs/calynda_physics/calynda_physics.c:712-803, 944-964).

module Solver {
  import opened Vectors
  import opened Bodies
  import opened Impulses

  // ---- Totals over the bodies ----

  function Total(f: Body -> Vec, bs: seq<Body>): Vec {
    if bs == [] then ZERO else Add(Total(f, bs[..|bs| - 1]), f(bs[|bs| - 1]))
  }

  lemma {:induction false} TotalWith(f: Body -> Vec, bs: seq<Body>, i: nat, b: Body)
    requires i < |bs|
    ensures Total(f, bs[i := b]) == Add(Sub(Total(f, bs), f(bs[i])), f(b))
  {
    var last := |bs| - 1;
    if i == last {
      assert bs[i := b][..last] == bs[..last];
    } else {
      assert bs[i := b][..last] == bs[..last][i := b];
      TotalWith(f, bs[..last], i, b);
    }
  }

  // Replacing two bodies by two of the same sum keeps the total.
  lemma TotalWithPair(f: Body -> Vec, bs: seq<Body>, i: nat, j: nat, a: Body, b: Body)
    requires i < |bs| && j < |bs| && i != j && Add(f(a), f(b)) == Add(f(bs[i]), f(bs[j]))
    ensures Total(f, bs[i := a][j := b]) == Total(f, bs)
  {
    TotalWith(f, bs, i, a);
    TotalWith(f, bs[i := a], j, b);
  }

  // ---- The state of the solver ----

  predicate WellFormed(bs: seq<Body>, cs: seq<Contact>) {
    forall i :: 0 <= i < |cs| ==> cs[i].bodyA < |bs| && cs[i].bodyB < |bs| && cs[i].bodyA != cs[i].bodyB
  }

  predicate Rough(bs: seq<Body>) {
    forall k :: 0 <= k < |bs| ==> bs[k].restitution >= 0.0 && bs[k].friction >= 0.0
  }

  predicate AllBounded(bs: seq<Body>, cs: seq<Contact>)
    requires WellFormed(bs, cs)
  {
    forall i :: 0 <= i < |cs| ==> Bounded(bs[cs[i].bodyA], bs[cs[i].bodyB], cs[i])
  }

  // Every contact that the solver does not skip joins two dynamic bodies.
  predicate Isolated(bs: seq<Body>, cs: seq<Contact>)
    requires WellFormed(bs, cs)
  {
    forall i :: 0 <= i < |cs| ==> JoinsDynamic(bs[cs[i].bodyA], bs[cs[i].bodyB])
  }

  predicate JoinsDynamic(a: Body, b: Body) {
    a.isSensor || b.isSensor || a.invMass + b.invMass <= 0.0 || (Dynamic(a) && Dynamic(b))
  }

  predicate SameContact(a: Contact, b: Contact) {
    b == a.(normalImpulse := b.normalImpulse, tangentImpulse := b.tangentImpulse)
  }

  // What the solver may change: velocities and accumulated impulses.
  predicate Evolved(bs: seq<Body>, cs: seq<Contact>, bs': seq<Body>, cs': seq<Contact>) {
    && |bs'| == |bs| && |cs'| == |cs|
    && (forall k :: 0 <= k < |bs| ==> SameBody(bs[k], bs'[k]))
    && (forall i :: 0 <= i < |cs| ==> SameContact(cs[i], cs'[i]))
  }

  predicate Conserved(bs: seq<Body>, bs': seq<Body>) {
    Total(Momentum, bs') == Total(Momentum, bs) && Total(AngularMomentum, bs') == Total(AngularMomentum, bs)
  }

  predicate Grown(cs: seq<Contact>, cs': seq<Contact>) {
    |cs'| == |cs| && forall i :: 0 <= i < |cs| ==> cs'[i].normalImpulse >= cs[i].normalImpulse
  }

  // What every run of visits promises.
  predicate Lawful(bs: seq<Body>, cs: seq<Contact>, bs': seq<Body>, cs': seq<Contact>) {
    && WellFormed(bs, cs) && WellFormed(bs', cs') && Evolved(bs, cs, bs', cs')
    && (Isolated(bs, cs) ==> Conserved(bs, bs') && Isolated(bs', cs'))
    && (Rough(bs) && AllBounded(bs, cs) ==> Rough(bs') && AllBounded(bs', cs') && Grown(cs, cs'))
  }

  lemma LawfulRefl(bs: seq<Body>, cs: seq<Contact>)
    requires WellFormed(bs, cs)
    ensures Lawful(bs, cs, bs, cs)
  {
  }

  lemma LawfulTwice(bs: seq<Body>, cs: seq<Contact>, bs': seq<Body>, cs': seq<Contact>, bs'': seq<Body>, cs'': seq<Contact>)
    requires Lawful(bs, cs, bs', cs') && Lawful(bs', cs', bs'', cs'')
    ensures Lawful(bs, cs, bs'', cs'')
  {
    hide Isolated, AllBounded, Rough, WellFormed;
  }

  // ---- One visit ----

  function PairAt(bs: seq<Body>, cs: seq<Contact>, i: nat): Pair
    requires WellFormed(bs, cs) && i < |cs|
  {
    Pair(bs[cs[i].bodyA], bs[cs[i].bodyB], cs[i])
  }

  lemma VisitConserves(root: real -> real, bs: seq<Body>, cs: seq<Contact>, i: nat)
    requires WellFormed(bs, cs) && i < |cs| && JoinsDynamic(bs[cs[i].bodyA], bs[cs[i].bodyB])
    ensures var c, q := cs[i], Visited(root, PairAt(bs, cs, i));
      Conserved(bs, bs[c.bodyA := q.a][c.bodyB := q.b])
  {
    var p := PairAt(bs, cs, i);
    var q := Visited(root, p);
    if Dynamic(p.a) && Dynamic(p.b) {
      VisitKeepsTotals(root, p);
    }
    hide Visited, Momentum, AngularMomentum, Dynamic;
    TotalWithPair(Momentum, bs, cs[i].bodyA, cs[i].bodyB, q.a, q.b);
    TotalWithPair(AngularMomentum, bs, cs[i].bodyA, cs[i].bodyB, q.a, q.b);
  }

  lemma VisitKeepsRest(root: real -> real, p: Pair)
    ensures var q := Visited(root, p); SameBody(p.a, q.a) && SameBody(p.b, q.b) && SameContact(p.c, q.c)
  {
  }

  lemma SameJoins(a: Body, b: Body, a': Body, b': Body)
    requires SameBody(a, a') && SameBody(b, b') && JoinsDynamic(a, b)
    ensures JoinsDynamic(a', b')
  {
  }

  lemma SameBounds(a: Body, b: Body, a': Body, b': Body, c: Contact)
    requires SameBody(a, a') && SameBody(b, b') && Bounded(a, b, c)
    ensures Bounded(a', b', c)
  {
  }

  lemma VisitIsLawful(root: real -> real, bs: seq<Body>, cs: seq<Contact>, i: nat)
    requires WellFormed(bs, cs) && i < |cs|
    ensures var c, q := cs[i], Visited(root, PairAt(bs, cs, i));
      Lawful(bs, cs, bs[c.bodyA := q.a][c.bodyB := q.b], cs[i := q.c])
  {
    var c, p := cs[i], PairAt(bs, cs, i);
    var q := Visited(root, p);
    var bs', cs' := bs[c.bodyA := q.a][c.bodyB := q.b], cs[i := q.c];
    VisitKeepsRest(root, p);
    hide Visited, Bounded, JoinsDynamic, Conserved;
    assert Evolved(bs, cs, bs', cs');
    if Isolated(bs, cs) {
      VisitConserves(root, bs, cs, i);
      forall k | 0 <= k < |cs'|
        ensures JoinsDynamic(bs'[cs'[k].bodyA], bs'[cs'[k].bodyB])
      {
        SameJoins(bs[cs[k].bodyA], bs[cs[k].bodyB], bs'[cs[k].bodyA], bs'[cs[k].bodyB]);
      }
    }
    if Rough(bs) && AllBounded(bs, cs) {
      VisitKeepsBounds(root, p);
      forall k | 0 <= k < |cs'|
        ensures Bounded(bs'[cs'[k].bodyA], bs'[cs'[k].bodyB], cs'[k])
      {
        if k != i {
          SameBounds(bs[cs[k].bodyA], bs[cs[k].bodyB], bs'[cs[k].bodyA], bs'[cs[k].bodyB], cs[k]);
        }
      }
    }
  }

  // ---- A run of visits ----

  datatype Stage = Stage(bs: seq<Body>, cs: seq<Contact>) {
    predicate Shaped() {
      WellFormed(bs, cs)
    }
  }

  function VisitAt(root: real -> real, s: Stage, i: nat): (r: Stage)
    requires s.Shaped() && i < |s.cs|
    ensures r.Shaped() && |r.cs| == |s.cs|
  {
    VisitIsLawful(root, s.bs, s.cs, i);
    var c, q := s.cs[i], Visited(root, PairAt(s.bs, s.cs, i));
    Stage(s.bs[c.bodyA := q.a][c.bodyB := q.b], s.cs[i := q.c])
  }

  // After the first `n` contacts of one iteration have been visited.
  function AfterRound(root: real -> real, s: Stage, n: nat): (r: Stage)
    requires s.Shaped() && n <= |s.cs|
    ensures r.Shaped() && |r.cs| == |s.cs|
    decreases n
  {
    if n == 0 then s else VisitAt(root, AfterRound(root, s, n - 1), n - 1)
  }

  function AfterRounds(root: real -> real, s: Stage, iterations: nat): (r: Stage)
    requires s.Shaped()
    ensures r.Shaped() && |r.cs| == |s.cs|
    decreases iterations
  {
    if iterations == 0 then s else AfterRound(root, AfterRounds(root, s, iterations - 1), |s.cs|)
  }

  // ---- The same as a list of stages ----

  // From `s` to `r` the bodies of contact `i` and the contact become what a visit makes of them, and
  // nothing else changes.
  ghost predicate StepOf(root: real -> real, s: Stage, i: nat, r: Stage)
    requires s.Shaped() && i < |s.cs|
  {
    var a, b := s.cs[i].bodyA, s.cs[i].bodyB;
    var q := Visited(root, Pair(s.bs[a], s.bs[b], s.cs[i]));
    && |r.bs| == |s.bs| && |r.cs| == |s.cs| && r.bs[a] == q.a && r.bs[b] == q.b && r.cs[i] == q.c
    && (forall k :: 0 <= k < |s.bs| && k != a && k != b ==> r.bs[k] == s.bs[k])
    && (forall k :: 0 <= k < |s.cs| && k != i ==> r.cs[k] == s.cs[k])
  }

  // Stages of one iteration: each contact is visited once, in order.
  ghost predicate IsRound(root: real -> real, run: seq<Stage>, n: nat) {
    && |run| == n + 1 && (forall k :: 0 <= k <= n ==> run[k].Shaped() && |run[k].cs| == |run[0].cs|)
    && n <= |run[0].cs| && forall k :: 0 <= k < n ==> StepOf(root, run[k], k, run[k + 1])
  }

  // Iterations, each of which takes up where the one before it ended.
  ghost predicate AreRounds(root: real -> real, runs: seq<seq<Stage>>, s: Stage, r: Stage) {
    && (forall k :: 0 <= k < |runs| ==> runs[k] != [] && IsRound(root, runs[k], |runs[k][0].cs|))
    && (if runs == [] then r == s else runs[0][0] == s && Last(runs[|runs| - 1]) == r)
    && forall k :: 0 <= k < |runs| - 1 ==> Last(runs[k]) == runs[k + 1][0]
  }

  function Last(run: seq<Stage>): Stage
    requires run != []
  {
    run[|run| - 1]
  }

  lemma {:induction false} RoundRuns(root: real -> real, s: Stage, n: nat) returns (run: seq<Stage>)
    requires s.Shaped() && n <= |s.cs|
    ensures IsRound(root, run, n) && run[0] == s && Last(run) == AfterRound(root, s, n)
    decreases n
  {
    hide Visited, WellFormed;
    if n == 0 {
      run := [s];
    } else {
      var front := RoundRuns(root, s, n - 1);
      StepIs(root, Last(front), n - 1);
      hide StepOf, VisitAt;
      run := front + [AfterRound(root, s, n)];
    }
  }

  lemma StepIs(root: real -> real, s: Stage, i: nat)
    requires s.Shaped() && i < |s.cs|
    ensures StepOf(root, s, i, VisitAt(root, s, i))
  {
    hide Visited;
  }

  // The solver's run consists of `iterations` such rounds.
  lemma {:induction false} SolverRuns(root: real -> real, s: Stage, iterations: nat) returns (runs: seq<seq<Stage>>)
    requires s.Shaped()
    ensures |runs| == iterations && AreRounds(root, runs, s, AfterRounds(root, s, iterations))
    decreases iterations
  {
    if iterations == 0 {
      runs := [];
    } else {
      var front := SolverRuns(root, s, iterations - 1);
      var before := AfterRounds(root, s, iterations - 1);
      var run := RoundRuns(root, before, |s.cs|);
      hide IsRound, AfterRound, WellFormed;
      runs := front + [run];
    }
  }

  lemma VisitAtIsLawful(root: real -> real, s: Stage, i: nat)
    requires s.Shaped() && i < |s.cs|
    ensures var r := VisitAt(root, s, i); Lawful(s.bs, s.cs, r.bs, r.cs)
  {
    VisitIsLawful(root, s.bs, s.cs, i);
    hide Lawful, Visited;
  }

  lemma {:induction false} RoundIsLawful(root: real -> real, s: Stage, n: nat)
    requires s.Shaped() && n <= |s.cs|
    ensures var r := AfterRound(root, s, n); Lawful(s.bs, s.cs, r.bs, r.cs)
    decreases n
  {
    hide Lawful, WellFormed, VisitAt;
    if n == 0 {
      LawfulRefl(s.bs, s.cs);
    } else {
      var before := AfterRound(root, s, n - 1);
      RoundIsLawful(root, s, n - 1);
      VisitAtIsLawful(root, before, n - 1);
      var after := VisitAt(root, before, n - 1);
      LawfulTwice(s.bs, s.cs, before.bs, before.cs, after.bs, after.cs);
    }
  }

  // Over all iterations momentum only moves between the bodies, friction stays in its cone and
  // normal impulses never shrink.
  lemma {:induction false} RoundsAreLawful(root: real -> real, s: Stage, iterations: nat)
    requires s.Shaped()
    ensures var r := AfterRounds(root, s, iterations); Lawful(s.bs, s.cs, r.bs, r.cs)
    decreases iterations
  {
    hide Lawful, AfterRound, WellFormed;
    if iterations == 0 {
      LawfulRefl(s.bs, s.cs);
    } else {
      var before := AfterRounds(root, s, iterations - 1);
      RoundsAreLawful(root, s, iterations - 1);
      RoundIsLawful(root, before, |s.cs|);
      var after := AfterRound(root, before, |s.cs|);
      LawfulTwice(s.bs, s.cs, before.bs, before.cs, after.bs, after.cs);
    }
  }

  // ---- Positional correction ----

  // What the correction may change: positions.
  predicate Shifted(bs: seq<Body>, bs': seq<Body>) {
    |bs'| == |bs| && forall k :: 0 <= k < |bs| ==> bs'[k] == bs[k].(position := bs'[k].position)
  }

  // What every run of corrections promises: the mass-weighted position sum stays.
  predicate Centred(bs: seq<Body>, cs: seq<Contact>, bs': seq<Body>) {
    && WellFormed(bs, cs) && WellFormed(bs', cs) && Shifted(bs, bs')
    && (Isolated(bs, cs) ==> Isolated(bs', cs) && Total(WeightedPosition, bs') == Total(WeightedPosition, bs))
  }

  lemma CorrectionIsCentred(bs: seq<Body>, cs: seq<Contact>, i: nat)
    requires WellFormed(bs, cs) && i < |cs|
    ensures var c, p := cs[i], PairAt(bs, cs, i);
      Centred(bs, cs, bs[c.bodyA := CorrectedA(p.a, p.b, c)][c.bodyB := CorrectedB(p.a, p.b, c)])
  {
    var c, p := cs[i], PairAt(bs, cs, i);
    var a, b := CorrectedA(p.a, p.b, c), CorrectedB(p.a, p.b, c);
    var bs' := bs[c.bodyA := a][c.bodyB := b];
    assert Shifted(bs, bs');
    if Isolated(bs, cs) {
      assert JoinsDynamic(p.a, p.b);
      if Dynamic(p.a) && Dynamic(p.b) {
        CorrectionKeepsCentre(p.a, p.b, c);
      }
      TotalWithPair(WeightedPosition, bs, c.bodyA, c.bodyB, a, b);
      hide CorrectedA, CorrectedB, WeightedPosition, Total, JoinsDynamic;
      forall k | 0 <= k < |cs|
        ensures JoinsDynamic(bs'[cs[k].bodyA], bs'[cs[k].bodyB])
      {
        JoinsWherever(bs[cs[k].bodyA], bs[cs[k].bodyB], bs'[cs[k].bodyA], bs'[cs[k].bodyB]);
      }
    }
  }

  lemma JoinsWherever(a: Body, b: Body, a': Body, b': Body)
    requires JoinsDynamic(a, b) && a' == a.(position := a'.position) && b' == b.(position := b'.position)
    ensures JoinsDynamic(a', b')
  {
  }

  lemma CentredRefl(bs: seq<Body>, cs: seq<Contact>)
    requires WellFormed(bs, cs)
    ensures Centred(bs, cs, bs)
  {
  }

  lemma CentredTwice(bs: seq<Body>, cs: seq<Contact>, bs': seq<Body>, bs'': seq<Body>)
    requires Centred(bs, cs, bs') && Centred(bs', cs, bs'')
    ensures Centred(bs, cs, bs'')
  {
    hide Isolated, WellFormed;
  }

  function CorrectedAt(bs: seq<Body>, cs: seq<Contact>, i: nat): (r: seq<Body>)
    requires WellFormed(bs, cs) && i < |cs|
    ensures WellFormed(r, cs)
  {
    CorrectionIsCentred(bs, cs, i);
    var c, p := cs[i], PairAt(bs, cs, i);
    bs[c.bodyA := CorrectedA(p.a, p.b, c)][c.bodyB := CorrectedB(p.a, p.b, c)]
  }

  function AfterCorrections(bs: seq<Body>, cs: seq<Contact>, n: nat): (r: seq<Body>)
    requires WellFormed(bs, cs) && n <= |cs|
    ensures WellFormed(r, cs)
    decreases n
  {
    if n == 0 then bs else CorrectedAt(AfterCorrections(bs, cs, n - 1), cs, n - 1)
  }

  // The same as a list: each contact corrects its own two bodies once, in order.
  lemma {:induction false} CorrectionRuns(bs: seq<Body>, cs: seq<Contact>, n: nat) returns (run: seq<seq<Body>>)
    requires WellFormed(bs, cs) && n <= |cs|
    ensures |run| == n + 1 && run[0] == bs && run[n] == AfterCorrections(bs, cs, n)
    ensures forall k :: 0 <= k < n ==> Corrects(run[k], cs[k], run[k + 1])
    decreases n
  {
    hide WellFormed, CorrectedA, CorrectedB;
    if n == 0 {
      run := [bs];
    } else {
      var front := CorrectionRuns(bs, cs, n - 1);
      var before := AfterCorrections(bs, cs, n - 1);
      CorrectsIs(before, cs, n - 1);
      hide Corrects, CorrectedAt;
      run := front + [CorrectedAt(before, cs, n - 1)];
    }
  }

  ghost predicate Corrects(bs: seq<Body>, c: Contact, r: seq<Body>) {
    && |r| == |bs| && c.bodyA < |bs| && c.bodyB < |bs|
    && r[c.bodyA] == CorrectedA(bs[c.bodyA], bs[c.bodyB], c) && r[c.bodyB] == CorrectedB(bs[c.bodyA], bs[c.bodyB], c)
    && forall k :: 0 <= k < |bs| && k != c.bodyA && k != c.bodyB ==> r[k] == bs[k]
  }

  lemma CorrectsIs(bs: seq<Body>, cs: seq<Contact>, i: nat)
    requires WellFormed(bs, cs) && i < |cs|
    ensures Corrects(bs, cs[i], CorrectedAt(bs, cs, i))
  {
    hide CorrectedA, CorrectedB;
  }

  lemma {:induction false} CorrectionsAreCentred(bs: seq<Body>, cs: seq<Contact>, n: nat)
    requires WellFormed(bs, cs) && n <= |cs|
    ensures Centred(bs, cs, AfterCorrections(bs, cs, n))
    decreases n
  {
    hide Centred, WellFormed, CorrectedAt;
    if n == 0 {
      CentredRefl(bs, cs);
    } else {
      var before := AfterCorrections(bs, cs, n - 1);
      CorrectionsAreCentred(bs, cs, n - 1);
      CorrectedAtIsCentred(before, cs, n - 1);
      CentredTwice(bs, cs, before, CorrectedAt(before, cs, n - 1));
    }
  }

  lemma CorrectedAtIsCentred(bs: seq<Body>, cs: seq<Contact>, i: nat)
    requires WellFormed(bs, cs) && i < |cs|
    ensures Centred(bs, cs, CorrectedAt(bs, cs, i))
  {
    CorrectionIsCentred(bs, cs, i);
    hide Centred, CorrectedA, CorrectedB;
  }

  // ---- The world ----

  class World {
    const root: real -> real
    var bodies: array<Body>
    var bodyCount: nat
    var contacts: array<Contact>
    var contactCount: nat
    var solverIterations: nat

    constructor (root: real -> real, bodies: array<Body>, bodyCount: nat, contacts: array<Contact>, contactCount: nat)
      ensures this.root == root && this.bodies == bodies && this.contacts == contacts
      ensures this.bodyCount == bodyCount && this.contactCount == contactCount && solverIterations == 4
    {
      this.root := root;
      this.bodies, this.bodyCount := bodies, bodyCount;
      this.contacts, this.contactCount := contacts, contactCount;
      solverIterations := 4;
    }

    predicate Valid()
      reads this, bodies, contacts
    {
      bodyCount <= bodies.Length && contactCount <= contacts.Length && WellFormed(Bodies(), Contacts())
    }

    function Bodies(): seq<Body>
      requires bodyCount <= bodies.Length
      reads this, bodies
    {
      bodies[..bodyCount]
    }

    function Contacts(): seq<Contact>
      requires contactCount <= contacts.Length
      reads this, contacts
    {
      contacts[..contactCount]
    }

    ghost function Now(): (s: Stage)
      requires Valid()
      reads this, bodies, contacts
      ensures s.Shaped() && |s.cs| == contactCount && s.bs == Bodies() && s.cs == Contacts()
    {
      Stage(Bodies(), Contacts())
    }

    // solve_contacts: over all iterations and contacts momentum only moves between the bodies,
    // friction stays in its cone and normal impulses never shrink.
    method SolveContacts()
      requires Valid()
      modifies bodies, contacts
      ensures Valid() && Lawful(old(Bodies()), old(Contacts()), Bodies(), Contacts())
      ensures Now() == AfterRounds(root, old(Now()), solverIterations)
    {
      hide Lawful, WellFormed, AfterRound;
      ghost var s := Now();
      RoundsAreLawful(root, s, solverIterations);
      for iter := 0 to solverIterations
        invariant Valid() && Now() == AfterRounds(root, s, iter)
      {
        Iterate();
      }
    }

    // One iteration.
    method Iterate()
      requires Valid()
      modifies bodies, contacts
      ensures Valid() && Now() == AfterRound(root, old(Now()), contactCount)
    {
      hide Lawful, WellFormed, VisitAt;
      ghost var s := Now();
      for i := 0 to contactCount
        invariant Valid() && Now() == AfterRound(root, s, i)
      {
        SolveContact(i);
      }
    }

    // The body of the solver's loops.
    method SolveContact(i: nat)
      requires Valid() && i < contactCount
      modifies bodies, contacts
      ensures Valid() && Lawful(old(Bodies()), old(Contacts()), Bodies(), Contacts())
      ensures Now() == VisitAt(root, old(Now()), i)
    {
      var c := contacts[i];
      var ia, ib := c.bodyA, c.bodyB;
      VisitIsLawful(root, Bodies(), Contacts(), i);
      ghost var p, bs, cs := PairAt(Bodies(), Contacts(), i), Bodies(), Contacts();
      assert c == cs[i] && p.a == bodies[ia] && p.b == bodies[ib];
      var a, b := bodies[ia], bodies[ib];
      hide Lawful, WellFormed, Visited;
      a, b, c := Visit(a, b, c);
      bodies[ia] := a;
      bodies[ib] := b;
      contacts[i] := c;
      assert Bodies() == bs[ia := a][ib := b];
      assert Contacts() == cs[i := c];
      LawfulKeepsShape(bs, cs, Bodies(), Contacts());
    }

    // A visit to the contact of `a` and `b`.
    method Visit(a: Body, b: Body, c: Contact) returns (a': Body, b': Body, c': Contact)
      ensures Pair(a', b', c') == Visited(root, Pair(a, b, c))
    {
      a', b', c' := a, b, c;
      if a.isSensor || b.isSensor {
        return;
      }
      var invMassSum := a.invMass + b.invMass;
      if invMassSum <= 0.0 {
        return;
      }
      var ra, rb := Sub(c.point, a.position), Sub(c.point, b.position);
      var velNormal := Dot(Sub(PointVelocity(b, rb), PointVelocity(a, ra)), c.normal);
      if velNormal > 0.0 {
        return;
      }
      var effMass := invMassSum + AngularTerm(ra, c.normal, a.invInertia) + AngularTerm(rb, c.normal, b.invInertia);
      if effMass <= 0.0 {
        return;
      }
      ghost var p := Pair(a, b, c);
      assert effMass == EffectiveMass(a, b, c) && velNormal == NormalVelocity(a, b, c);
      SameEffectiveMass(p);
      hide EffectiveMass, NormalVelocity, PointVelocity, AngularTerm, Rebound;
      var j := Rebound(Restitution(a, b), velNormal, Bias(c), effMass);
      var accumulated := Max(c.normalImpulse + j, 0.0);
      var impulse := Scale(c.normal, accumulated - c.normalImpulse);
      a', b', c' := Pulled(a, ra, impulse), Pushed(b, rb, impulse), c.(normalImpulse := accumulated);
      assert Pair(a', b', c') == AfterNormal(p);
      a', b', c' := Rub(a', b', c', effMass, ra, rb);
    }

    // The friction part of a visit.
    method Rub(a: Body, b: Body, c: Contact, effMass: real, ra: Vec, rb: Vec) returns (a': Body, b': Body, c': Contact)
      requires effMass == EffectiveMass(a, b, c) > 0.0 && ra == Arm(a, c) && rb == Arm(b, c)
      ensures Pair(a', b', c') == AfterFriction(root, Pair(a, b, c))
    {
      hide EffectiveMass, Pulled, Pushed;
      a', b', c' := a, b, c;
      var relVel := Sub(PointVelocity(b, rb), PointVelocity(a, ra));
      var tangent := Sub(relVel, Scale(c.normal, Dot(relVel, c.normal)));
      var tangentLen := root(Dot(tangent, tangent));
      if tangentLen < EPSILON {
        return;
      }
      tangent := Scale(tangent, 1.0 / tangentLen);
      var jt := -Dot(relVel, tangent) / effMass;
      var maxFriction := MaxFriction(a, b, c);
      var accumulated := Clamp(c.tangentImpulse + jt, -maxFriction, maxFriction);
      var impulse := Scale(tangent, accumulated - c.tangentImpulse);
      a', b', c' := Pulled(a, ra, impulse), Pushed(b, rb, impulse), c.(tangentImpulse := accumulated);
    }

    // positional_correction
    method PositionalCorrection()
      requires Valid()
      modifies bodies
      ensures Valid() && Centred(old(Bodies()), Contacts(), Bodies())
      ensures Bodies() == AfterCorrections(old(Bodies()), Contacts(), contactCount)
    {
      hide Centred, WellFormed, CorrectedAt;
      ghost var bs, cs := Bodies(), Contacts();
      CorrectionsAreCentred(bs, cs, contactCount);
      for i := 0 to contactCount
        invariant Valid() && Contacts() == cs && Bodies() == AfterCorrections(bs, cs, i)
      {
        CorrectContact(i);
      }
    }

    method CorrectContact(i: nat)
      requires Valid() && i < contactCount
      modifies bodies
      ensures Valid() && Centred(old(Bodies()), Contacts(), Bodies())
      ensures Bodies() == CorrectedAt(old(Bodies()), Contacts(), i)
    {
      var c := contacts[i];
      CorrectionIsCentred(Bodies(), Contacts(), i);
      ghost var bs, p := Bodies(), PairAt(Bodies(), Contacts(), i);
      assert c == Contacts()[i] && p.a == bodies[c.bodyA] && p.b == bodies[c.bodyB];
      var a, b := bodies[c.bodyA], bodies[c.bodyB];
      hide Centred, WellFormed, Correction;
      if !a.isSensor && !b.isSensor && a.invMass + b.invMass > 0.0 {
        var correction := Correction(a, b, c);
        if a.invMass > 0.0 {
          bodies[c.bodyA] := a.(position := Sub(a.position, Scale(correction, a.invMass)));
        }
        if b.invMass > 0.0 {
          bodies[c.bodyB] := b.(position := Add(b.position, Scale(correction, b.invMass)));
        }
      }
      assert Bodies() == bs[c.bodyA := CorrectedA(a, b, c)][c.bodyB := CorrectedB(a, b, c)];
      CentredKeepsShape(bs, Contacts(), Bodies());
    }
  }

  lemma LawfulKeepsShape(bs: seq<Body>, cs: seq<Contact>, bs': seq<Body>, cs': seq<Contact>)
    requires Lawful(bs, cs, bs', cs')
    ensures WellFormed(bs', cs')
  {
  }

  lemma CentredKeepsShape(bs: seq<Body>, cs: seq<Contact>, bs': seq<Body>)
    requires Centred(bs, cs, bs')
    ensures WellFormed(bs', cs)
  {
  }
}
