// The grid misses nothing that testing all pairs would find
// (libs/calynda_physics/calynda_physics.c:154-189, 595-678).

module GridCoverage {
  import opened Vectors
  import opened Bodies
  import opened GridOrder
  import opened Broadphase

  // ---- Which cell a body is in ----

  // Along an axis the grid has 32 cells; what is off the grid goes to the first or the last.
  predicate InSlab(k: int, x: real, o: real, size: real) {
    && (k == 0 || k as real * size <= x - o)
    && (k == 31 || x - o < (k + 1) as real * size)
  }

  lemma CellHolds(g: Grid, p: Vec)
    requires g.cellSize > 0.0
    ensures var c := CellOf(g, p);
      InSlab(c.x, p.x, g.origin.x, g.cellSize) && InSlab(c.y, p.y, g.origin.y, g.cellSize) && InSlab(c.z, p.z, g.origin.z, g.cellSize)
  {
    SlabHolds(p.x, g.origin.x, g.cellSize);
    SlabHolds(p.y, g.origin.y, g.cellSize);
    SlabHolds(p.z, g.origin.z, g.cellSize);
  }

  lemma SlabHolds(x: real, o: real, size: real)
    requires size > 0.0
    ensures InSlab(Coordinate((x - o) / size), x, o, size)
  {
    var v := (x - o) / size;
    var k := Coordinate(v);
    assert v * size == x - o;
    if k > 0 {
      assert k as real <= v;
      TimesNotNegative(v - k as real, size);
      assert (v - k as real) * size == x - o - k as real * size;
    }
    if k < 31 {
      assert v < (k + 1) as real;
      TimesPositive((k + 1) as real - v, size);
      assert ((k + 1) as real - v) * size == (k + 1) as real * size - (x - o);
    }
  }

  // ---- Each unordered pair is tested once ----

  // What the filters let through: not two static bodies, and each in a layer of the other's mask.
  lemma FiltersAre(a: Body, b: Body)
    ensures a.isStatic && b.isStatic ==> !Passes(a, b)
    ensures a.mask & b.layer == 0 || b.mask & a.layer == 0 ==> !Passes(a, b)
    ensures !(a.isStatic && b.isStatic) && a.mask & b.layer != 0 && b.mask & a.layer != 0 ==> Passes(a, b)
  {
  }

  lemma PassesIsSymmetric(a: Body, b: Body)
    ensures Passes(a, b) <==> Passes(b, a)
  {
  }

  lemma SlotsDiffer(g: Grid, bs: seq<Body>, p: nat, q: nat)
    requires g.cellSize > 0.0 && Listed(g, bs, p) && Listed(g, bs, q) && p != q
    requires CellOf(g, bs[p].position) == CellOf(g, bs[q].position)
    ensures Slot(g, bs, p) != Slot(g, bs, q)
  {
    PlacedInHeld(g, bs, p);
    PlacedInHeld(g, bs, q);
  }

  // Two bodies are tested, in exactly one of the two orders, when their cells are the same or
  // adjacent and the filters pass, and otherwise in neither.
  lemma TestedOneWay(g: Grid, bs: seq<Body>, p: nat, q: nat)
    requires g.cellSize > 0.0 && Listed(g, bs, p) && Listed(g, bs, q) && p != q
    ensures var near := Near(CellOf(g, bs[p].position), CellOf(g, bs[q].position)) && Passes(bs[p], bs[q]);
      && (near ==> (Tested(g, bs, p, q) <==> !Tested(g, bs, q, p)))
      && (!near ==> !Tested(g, bs, p, q) && !Tested(g, bs, q, p))
  {
    PassesIsSymmetric(bs[p], bs[q]);
    hide Passes;
    if CellOf(g, bs[p].position) == CellOf(g, bs[q].position) {
      SlotsDiffer(g, bs, p, q);
    }
    hide CellOf, Slot;
  }

  // While no cell overflows every active body is listed.
  lemma NoneDropped(g: Grid, bs: seq<Body>, p: nat)
    requires g.cellSize > 0.0 && p < |bs| && bs[p].active
    requires |InCell(g, bs, |bs|, CellOf(g, bs[p].position))| <= MAX_PER_CELL
    ensures Listed(g, bs, p)
  {
    PlacedInCell(g, bs, |bs|, p);
  }

  // ---- Bodies that touch are in the same or adjacent cells ----

  lemma CoordinateIsNear(u: real, v: real)
    requires -1.0 <= u - v <= 1.0
    ensures -1 <= Coordinate(u) - Coordinate(v) <= 1
  {
  }

  lemma Quotients(a: real, b: real, o: real, size: real)
    requires size > 0.0 && -size <= a - b <= size
    ensures -1.0 <= (a - o) / size - (b - o) / size <= 1.0
  {
    var x, y := (a - o) / size, (b - o) / size;
    assert x * size == a - o && y * size == b - o;
    assert Times(x - y, size) == a - b;
    assert Times(x - y - 1.0, size) == Times(x - y, size) - size;
    assert Times(y - x - 1.0, size) == -Times(x - y, size) - size;
    hide Times;
    if x - y > 1.0 {
      TimesPositive(x - y - 1.0, size);
      assert false;
    }
    if y - x > 1.0 {
      TimesPositive(y - x - 1.0, size);
      assert false;
    }
  }

  lemma BelowSquare(x: real, c: real)
    requires c > 0.0 && Sq(x) <= Sq(c)
    ensures -c <= x <= c
  {
    assert Times(x - c, x + c) == Sq(x) - Sq(c);
    assert Times(-x - c, -x + c) == Sq(x) - Sq(c);
    hide Times, Sq;
    if x > c {
      TimesPositive(x - c, x + c);
      assert false;
    }
    if x < -c {
      TimesPositive(-x - c, -x + c);
      assert false;
    }
  }

  lemma CloseIsNear(g: Grid, p: Vec, q: Vec)
    requires g.cellSize > 0.0 && DistanceSq(p, q) <= Sq(g.cellSize)
    ensures Near(CellOf(g, p), CellOf(g, q))
  {
    hide Sq, Dot, Coordinate;
    var d := Sub(q, p);
    DotSelf(d);
    SqNotNegative(d.x);
    SqNotNegative(d.y);
    SqNotNegative(d.z);
    AxisIsNear(p.x, q.x, g.origin.x, g.cellSize);
    AxisIsNear(p.y, q.y, g.origin.y, g.cellSize);
    AxisIsNear(p.z, q.z, g.origin.z, g.cellSize);
  }

  lemma AxisIsNear(a: real, b: real, o: real, size: real)
    requires size > 0.0 && Sq(b - a) <= Sq(size)
    ensures -1 <= Coordinate((b - o) / size) - Coordinate((a - o) / size) <= 1
  {
    hide Sq, Coordinate;
    BelowSquare(b - a, size);
    Quotients(b, a, o, size);
    CoordinateIsNear((b - o) / size, (a - o) / size);
  }

  // ---- Contacts ----

  predicate IsOf(c: Contact, p: nat, q: nat) {
    (c.bodyA == p && c.bodyB == q) || (c.bodyA == q && c.bodyB == p)
  }

  // A contact comes from a test of its two bodies that hit.
  lemma {:induction false} ContactHasTest(root: real -> real, other: (Body, Body) -> Hit, bs: seq<Body>, tests: seq<(nat, nat)>, k: nat)
    requires k < |ContactsOf(root, other, bs, tests)|
    ensures var c := ContactsOf(root, other, bs, tests)[k];
      && (c.bodyA, c.bodyB) in tests && c.bodyA < |bs| && c.bodyB < |bs|
      && CollidePair(root, other, bs[c.bodyA], bs[c.bodyB]) == Hit(c.normal, c.depth, c.point)
      && c.normalImpulse == c.tangentImpulse == 0.0
  {
    hide CollidePair;
    var front := tests[..|tests| - 1];
    if k < |ContactsOf(root, other, bs, front)| {
      ContactHasTest(root, other, bs, front, k);
    }
  }

  lemma {:induction false} HitHasContact(root: real -> real, other: (Body, Body) -> Hit, bs: seq<Body>, tests: seq<(nat, nat)>, t: (nat, nat))
    returns (k: nat)
    requires t in tests && t.0 < |bs| && t.1 < |bs| && CollidePair(root, other, bs[t.0], bs[t.1]).Hit?
    ensures k < |ContactsOf(root, other, bs, tests)|
    ensures var c := ContactsOf(root, other, bs, tests)[k]; c.bodyA == t.0 && c.bodyB == t.1
  {
    hide CollidePair;
    var front := tests[..|tests| - 1];
    if t == tests[|tests| - 1] {
      k := |ContactsOf(root, other, bs, front)|;
    } else {
      k := HitHasContact(root, other, bs, front, t);
    }
  }

  lemma {:induction false} ContactsDistinct(root: real -> real, other: (Body, Body) -> Hit, bs: seq<Body>, tests: seq<(nat, nat)>, k: nat, l: nat)
    requires forall i, j :: 0 <= i < j < |tests| ==> tests[i] != tests[j]
    requires k < l < |ContactsOf(root, other, bs, tests)|
    ensures var cs := ContactsOf(root, other, bs, tests); (cs[k].bodyA, cs[k].bodyB) != (cs[l].bodyA, cs[l].bodyB)
  {
    hide CollidePair;
    var front := tests[..|tests| - 1];
    if l < |ContactsOf(root, other, bs, front)| {
      ContactsDistinct(root, other, bs, front, k, l);
    } else {
      ContactHasTest(root, other, bs, front, k);
    }
  }

  predicate SpheresOf(bs: seq<Body>, p: nat, q: nat)
    requires p < |bs| && q < |bs|
  {
    bs[p].collider.Sphere? && bs[q].collider.Sphere?
  }

  predicate Touching(bs: seq<Body>, p: nat, q: nat)
    requires p < |bs| && q < |bs| && SpheresOf(bs, p, q)
  {
    DistanceSq(bs[p].position, bs[q].position) < Sq(bs[p].collider.radius + bs[q].collider.radius)
  }

  lemma TouchingIsSymmetric(bs: seq<Body>, p: nat, q: nat)
    requires p < |bs| && q < |bs| && SpheresOf(bs, p, q)
    ensures Touching(bs, q, p) <==> Touching(bs, p, q)
  {
    var d, e := Sub(bs[q].position, bs[p].position), Sub(bs[p].position, bs[q].position);
    DotSelf(d);
    DotSelf(e);
    hide Sq, Dot;
    SquareOfNegative(d.x, e.x);
    SquareOfNegative(d.y, e.y);
    SquareOfNegative(d.z, e.z);
  }

  lemma TouchingIsHit(root: real -> real, other: (Body, Body) -> Hit, bs: seq<Body>, p: nat, q: nat)
    requires p < |bs| && q < |bs| && SpheresOf(bs, p, q)
    ensures CollidePair(root, other, bs[p], bs[q]).Hit? <==> Touching(bs, p, q)
  {
    var sum := bs[p].collider.radius + bs[q].collider.radius;
    assert Sq(sum) == sum * sum;
    hide Dot, Direction, Sq;
  }

  lemma SquareOfNegative(x: real, y: real)
    requires y == -x
    ensures Sq(y) == Sq(x)
  {
  }

  // Once detection is complete, two spheres no larger than a cell have a contact exactly when
  // the filters let them meet and they overlap, just as if all pairs had been tested ...
  lemma SpheresAsByBruteForce(root: real -> real, other: (Body, Body) -> Hit, g: Grid, bs: seq<Body>, tests: seq<(nat, nat)>, p: nat, q: nat)
    requires g.cellSize > 0.0 && Complete(g, bs, tests) && Listed(g, bs, p) && Listed(g, bs, q) && p != q && SpheresOf(bs, p, q)
    requires Sq(bs[p].collider.radius + bs[q].collider.radius) <= Sq(g.cellSize)
    ensures (exists k :: 0 <= k < |ContactsOf(root, other, bs, tests)| && IsOf(ContactsOf(root, other, bs, tests)[k], p, q)) <==>
      Passes(bs[p], bs[q]) && Touching(bs, p, q)
  {
    var cs := ContactsOf(root, other, bs, tests);
    TouchingIsSymmetric(bs, p, q);
    TouchingIsHit(root, other, bs, p, q);
    TouchingIsHit(root, other, bs, q, p);
    TestedOneWay(g, bs, p, q);
    if Passes(bs[p], bs[q]) && Touching(bs, p, q) {
      CloseIsNear(g, bs[p].position, bs[q].position);
      hide CollidePair, Tested, Passes, Touching, CellOf, Near, Listed;
      var k := HitHasContact(root, other, bs, tests, if Tested(g, bs, p, q) then (p, q) else (q, p));
      assert IsOf(cs[k], p, q);
    }
    hide CollidePair, Passes, Touching, CellOf, Near, Listed, Sq;
    forall k | 0 <= k < |cs| && IsOf(cs[k], p, q)
      ensures Passes(bs[p], bs[q]) && Touching(bs, p, q)
    {
      ContactHasTest(root, other, bs, tests, k);
      assert Tested(g, bs, cs[k].bodyA, cs[k].bodyB);
    }
  }

  // The normal and the depth of a contact of two spheres part them: they say how to move the second of
  // its bodies.
  lemma ContactParts(root: real -> real, other: (Body, Body) -> Hit, bs: seq<Body>, tests: seq<(nat, nat)>, k: nat)
    requires IsRoot(root) && k < |ContactsOf(root, other, bs, tests)|
    ensures var c := ContactsOf(root, other, bs, tests)[k];
      && c.bodyA < |bs| && c.bodyB < |bs|
      && var a, b := bs[c.bodyA], bs[c.bodyB];
      a.collider.Sphere? && b.collider.Sphere? && a.collider.radius + b.collider.radius >= 0.0 && NormalFits(root, a.position, b.position) ==>
        && c.depth > 0.0
        && DistanceSq(a.position, Add(b.position, Scale(c.normal, c.depth))) == Sq(a.collider.radius + b.collider.radius)
        && DistanceSq(a.position, c.point) == Sq(a.collider.radius - c.depth / 2.0)
  {
    ContactHasTest(root, other, bs, tests, k);
    var c := ContactsOf(root, other, bs, tests)[k];
    SpherePairContact(root, other, bs[c.bodyA], bs[c.bodyB]);
    hide CollidePair, NormalFits, DistanceSq, Sq, ContactsOf;
  }

  // ... and no pair has two.
  lemma OneContactEach(root: real -> real, other: (Body, Body) -> Hit, g: Grid, bs: seq<Body>, tests: seq<(nat, nat)>, k: nat, l: nat)
    requires g.cellSize > 0.0 && Complete(g, bs, tests) && k < l < |ContactsOf(root, other, bs, tests)|
    ensures var cs := ContactsOf(root, other, bs, tests); !IsOf(cs[l], cs[k].bodyA, cs[k].bodyB)
  {
    var cs := ContactsOf(root, other, bs, tests);
    ContactsDistinct(root, other, bs, tests, k, l);
    ContactHasTest(root, other, bs, tests, k);
    ContactHasTest(root, other, bs, tests, l);
    var p, q := cs[k].bodyA, cs[k].bodyB;
    assert Tested(g, bs, p, q) && Tested(g, bs, cs[l].bodyA, cs[l].bodyB);
    NotWithItself(g, bs, p, q);
    TestedOneWay(g, bs, p, q);
  }

  lemma NotWithItself(g: Grid, bs: seq<Body>, p: nat, q: nat)
    requires g.cellSize > 0.0 && Tested(g, bs, p, q)
    ensures p != q
  {
  }
}
