// Building the grid and testing pairs (libs/calynda_physics/calynda_physics.c:154-189, 595-678).

module Broadphase {
  import opened Bodies
  import opened GridOrder

  // The contacts that a run of tests leaves, in order, with no impulse accumulated yet.
  function ContactsOf(root: real -> real, other: (Body, Body) -> Hit, bs: seq<Body>, tests: seq<(nat, nat)>): seq<Contact> {
    if tests == [] then []
    else
      var t := tests[|tests| - 1];
      ContactsOf(root, other, bs, tests[..|tests| - 1]) +
      if t.0 < |bs| && t.1 < |bs| then ContactOf(CollidePair(root, other, bs[t.0], bs[t.1]), t) else []
  }

  lemma ContactsOfAdds(root: real -> real, other: (Body, Body) -> Hit, bs: seq<Body>, tests: seq<(nat, nat)>, p: nat, q: nat)
    requires p < |bs| && q < |bs|
    ensures ContactsOf(root, other, bs, tests + [(p, q)]) ==
      ContactsOf(root, other, bs, tests) + ContactOf(CollidePair(root, other, bs[p], bs[q]), (p, q))
  {
    assert (tests + [(p, q)])[..|tests|] == tests;
  }

  function ContactOf(hit: Hit, t: (nat, nat)): seq<Contact> {
    match hit
    case Miss => []
    case Hit(normal, depth, point) => [Contact(t.0, t.1, point, normal, depth, 0.0, 0.0)]
  }

  class Detector {
    const root: real -> real
    const other: (Body, Body) -> Hit
    const grid: Grid
    const cells: array3<seq<nat>>
    const contacts: array<Contact>
    var contactCount: nat
    // The pairs handed to the narrow phase so far.
    ghost var tests: seq<(nat, nat)>

    constructor (root: real -> real, other: (Body, Body) -> Hit, grid: Grid, contacts: array<Contact>)
      requires grid.cellSize > 0.0 && contacts.Length == MAX_CONTACTS
      ensures Valid() && this.root == root && this.other == other && this.grid == grid && this.contacts == contacts
      ensures fresh(cells)
    {
      this.root, this.other, this.grid, this.contacts := root, other, grid, contacts;
      cells := new seq<nat>[GRID_DIM, GRID_DIM, GRID_DIM]((x, y, z) => []);
      contactCount, tests := 0, [];
    }

    predicate Shaped() {
      && grid.cellSize > 0.0 && contacts.Length == MAX_CONTACTS
      && cells.Length0 == GRID_DIM && cells.Length1 == GRID_DIM && cells.Length2 == GRID_DIM
    }

    predicate Valid()
      reads this
    {
      Shaped() && contactCount <= MAX_CONTACTS
    }

    // Every cell holds its active bodies among the first `n`.
    predicate CellsHold(bs: seq<Body>, n: nat)
      requires Shaped() && n <= |bs|
      reads cells
    {
      forall x, y, z :: 0 <= x < GRID_DIM && 0 <= y < GRID_DIM && 0 <= z < GRID_DIM ==>
        cells[x, y, z] == Held(grid, bs, n, Cell(x, y, z))
    }

    // The contacts so far are the hits of the tests so far, which are all that come before rank `n`.
    ghost predicate At(bs: seq<Body>, n: int)
      requires Valid()
      reads this, contacts
    {
      Progress(grid, bs, tests, n) && contacts[..contactCount] == ContactsOf(root, other, bs, tests)
    }

    method GridClear(ghost bs: seq<Body>)
      requires Valid()
      modifies cells
      ensures CellsHold(bs, 0)
    {
      for x := 0 to GRID_DIM
        invariant forall x', y, z :: 0 <= x' < x && 0 <= y < GRID_DIM && 0 <= z < GRID_DIM ==> cells[x', y, z] == []
      {
        for y := 0 to GRID_DIM
          invariant forall x', y', z :: 0 <= x' < x && 0 <= y' < GRID_DIM && 0 <= z < GRID_DIM ==> cells[x', y', z] == []
          invariant forall y', z :: 0 <= y' < y && 0 <= z < GRID_DIM ==> cells[x, y', z] == []
        {
          for z := 0 to GRID_DIM
            invariant forall x', y', z' :: 0 <= x' < x && 0 <= y' < GRID_DIM && 0 <= z' < GRID_DIM ==> cells[x', y', z'] == []
            invariant forall y', z' :: 0 <= y' < y && 0 <= z' < GRID_DIM ==> cells[x, y', z'] == []
            invariant forall z' :: 0 <= z' < z ==> cells[x, y, z'] == []
          {
            cells[x, y, z] := [];
          }
        }
      }
    }

    method GridInsert(bs: seq<Body>, i: nat)
      requires Valid() && i < |bs| && bs[i].active && CellsHold(bs, i)
      modifies cells
      ensures CellsHold(bs, i + 1)
    {
      var c := CellOf(grid, bs[i].position);
      var cell := cells[c.x, c.y, c.z];
      if |cell| < MAX_PER_CELL {
        cells[c.x, c.y, c.z] := cell + [i];
      }
    }

    method GridBuild(bs: seq<Body>)
      requires Valid()
      modifies cells
      ensures CellsHold(bs, |bs|)
    {
      GridClear(bs);
      for i := 0 to |bs|
        invariant CellsHold(bs, i)
      {
        if bs[i].active {
          GridInsert(bs, i);
        }
      }
    }

    // The filters, the capacity check and the narrow phase for the pair of the current rank.
    method TestPair(bs: seq<Body>, p: nat, q: nat, ghost n: int) returns (ok: bool)
      requires Valid() && At(bs, n) && Listed(grid, bs, p) && Listed(grid, bs, q) && RankOf(grid, bs, p, q) == n
      requires Passes(bs[p], bs[q]) <==> Tested(grid, bs, p, q)
      requires forall p': nat, q': nat :: Tested(grid, bs, p', q') && RankOf(grid, bs, p', q') == n ==> p' == p && q' == q
      modifies this`contactCount, this`tests, contacts
      ensures Valid() && (ok ==> At(bs, n + 1)) && (!ok ==> contactCount == MAX_CONTACTS)
    {
      hide Progress, Tested, RankOf, Passes, ContactsOf, CollidePair;
      if !Passes(bs[p], bs[q]) {
        ProgressSkip(grid, bs, tests, n, n + 1);
        return true;
      }
      if contactCount >= MAX_CONTACTS {
        return false;
      }
      ProgressTest(grid, bs, tests, n, p, q);
      ContactsOfAdds(root, other, bs, tests, p, q);
      tests := tests + [(p, q)];
      Report(CollidePair(root, other, bs[p], bs[q]), p, q);
      return true;
    }

    // Storing a hit in the next free contact.
    method Report(hit: Hit, p: nat, q: nat)
      requires Valid() && contactCount < MAX_CONTACTS
      modifies this`contactCount, contacts
      ensures Valid() && contacts[..contactCount] == old(contacts[..contactCount]) + ContactOf(hit, (p, q))
    {
      match hit {
        case Miss =>
        case Hit(normal, depth, point) =>
          contacts[contactCount] := Contact(p, q, point, normal, depth, 0.0, 0.0);
          contactCount := contactCount + 1;
      }
    }

    // One turn of the neighbour loops, or the loop over the body's own cell: body `i` of cell
    // `c` against the bodies of cell `d` from `from` on.
    method TestTurn(bs: seq<Body>, c: Cell, i: nat, d: Cell, from: nat) returns (ok: bool)
      requires Valid() && CellsHold(bs, |bs|) && InGrid(c) && InGrid(d) && (c == d || Ahead(c, d))
      requires i < |Held(grid, bs, |bs|, c)| && from == (if c == d then i + 1 else 0)
      requires At(bs, Rank(c, i, Stage(c, d), 0))
      modifies this`contactCount, this`tests, contacts
      ensures Valid() && (ok ==> At(bs, Rank(c, i, Stage(c, d), MAX_PER_CELL))) && (!ok ==> contactCount == MAX_CONTACTS)
    {
      hide At, Held, Tested, RankOf, Listed, Passes, Rank;
      ghost var stage := Stage(c, d);
      var ncell := cells[d.x, d.y, d.z];
      var p := cells[c.x, c.y, c.z][i];
      assert ncell == Held(grid, bs, |bs|, d) && p == Held(grid, bs, |bs|, c)[i];
      HeldAreFew(bs, c);
      HeldAreFew(bs, d);
      hide CellsHold, Ahead, Stage;
      SkipFirst(bs, c, i, d, from);
      for j := from to |ncell|
        invariant Valid() && At(bs, Rank(c, i, stage, j))
      {
        OnlyThisTest(grid, bs, c, i, d, j);
        ok := TestPair(bs, p, ncell[j], Rank(c, i, stage, j));
        NextRank(c, i, stage, j);
        if !ok {
          return;
        }
      }
      SkipRest(bs, c, i, d);
      return true;
    }

    // One turn of the neighbour loops.
    method TestNeighbour(bs: seq<Body>, c: Cell, i: nat, dx: int, dy: int, dz: int) returns (ok: bool)
      requires Valid() && CellsHold(bs, |bs|) && InGrid(c) && i < |Held(grid, bs, |bs|, c)| && Offset(dx, dy, dz)
      requires At(bs, Rank(c, i, Look(dx, dy, dz), 0))
      modifies this`contactCount, this`tests, contacts
      ensures Valid() && (ok ==> At(bs, Rank(c, i, Look(dx, dy, dz) + 1, 0))) && (!ok ==> contactCount == MAX_CONTACTS)
    {
      var n := Shift(c, dx, dy, dz);
      HeldAreFew(bs, c);
      NextTurn(c, i, Look(dx, dy, dz));
      LooksAhead(c, dx, dy, dz);
      hide At, Held, Rank, CellsHold, Ahead, Stage, Look, Shift;
      ok := true;
      if (dx == 0 && dy == 0 && dz == 0) || (dx == 0 && (dy < 0 || (dy == 0 && dz <= 0)))
         || n.x < 0 || n.x >= GRID_DIM || n.y < 0 || n.y >= GRID_DIM || n.z < 0 || n.z >= GRID_DIM {
        PassOver(bs, c, i, dx, dy, dz);
      } else {
        ok := TestTurn(bs, c, i, n, 0);
      }
    }

    // Body `i` of cell `c` against the later bodies of its cell and the half neighbourhood.
    method TestBody(bs: seq<Body>, c: Cell, i: nat) returns (ok: bool)
      requires Valid() && CellsHold(bs, |bs|) && InGrid(c) && i < |Held(grid, bs, |bs|, c)|
      requires At(bs, Rank(c, i, 0, 0))
      modifies this`contactCount, this`tests, contacts
      ensures Valid() && (ok ==> At(bs, Rank(c, i + 1, 0, 0))) && (!ok ==> contactCount == MAX_CONTACTS)
    {
      NextTurn(c, i, 0);
      NextBody(c, i);
      hide At, Held, Rank, CellsHold;
      ok := TestTurn(bs, c, i, c, i + 1);
      if !ok {
        return;
      }
      for dx := 0 to 2
        invariant Valid() && At(bs, Rank(c, i, Look(dx, -1, -1), 0))
      {
        for dy := -1 to 2
          invariant Valid() && At(bs, Rank(c, i, Look(dx, dy, -1), 0))
        {
          for dz := -1 to 2
            invariant Valid() && At(bs, Rank(c, i, Look(dx, dy, dz), 0))
          {
            ok := TestNeighbour(bs, c, i, dx, dy, dz);
            if !ok {
              return;
            }
          }
        }
      }
    }

    method TestCell(bs: seq<Body>, c: Cell) returns (ok: bool)
      requires Valid() && CellsHold(bs, |bs|) && InGrid(c) && At(bs, Rank(c, 0, 0, 0))
      modifies this`contactCount, this`tests, contacts
      ensures Valid() && (ok ==> At(bs, Rank(c, 0, 0, 0) + CELL_SPAN)) && (!ok ==> contactCount == MAX_CONTACTS)
    {
      var cell := cells[c.x, c.y, c.z];
      assert cell == Held(grid, bs, |bs|, c);
      hide At, Held, Rank, CellsHold;
      if |cell| >= 1 {
        for i := 0 to |cell|
          invariant Valid() && At(bs, Rank(c, i, 0, 0))
        {
          ok := TestBody(bs, c, i);
          if !ok {
            return;
          }
        }
      }
      LeaveCell(bs, c);
      return true;
    }

    // detect_collisions, without its last loop over planes. If the contacts do not fill up,
    // every pair to be tested has been tested once.
    method DetectInGrid(bs: seq<Body>) returns (ok: bool)
      requires Shaped()
      modifies this`contactCount, this`tests, contacts, cells
      ensures Valid() && (!ok ==> contactCount == MAX_CONTACTS)
      ensures ok ==> contacts[..contactCount] == ContactsOf(root, other, bs, tests) && Complete(grid, bs, tests)
    {
      contactCount, tests := 0, [];
      GridBuild(bs);
      ProgressStart(grid, bs);
      assert At(bs, Rank(Cell(0, 0, 0), 0, 0, 0));
      hide At, CellsHold, Rank;
      for x := 0 to GRID_DIM
        invariant Valid() && CellsHold(bs, |bs|) && At(bs, Rank(Cell(x, 0, 0), 0, 0, 0))
      {
        NextRow(x, GRID_DIM - 1);
        for y := 0 to GRID_DIM
          invariant Valid() && CellsHold(bs, |bs|) && At(bs, Rank(Cell(x, y, 0), 0, 0, 0))
        {
          NextRow(x, y);
          for z := 0 to GRID_DIM
            invariant Valid() && CellsHold(bs, |bs|) && At(bs, Rank(Cell(x, y, z), 0, 0, 0))
          {
            NextCell(x, y, z);
            ok := TestCell(bs, Cell(x, y, z));
            if !ok {
              return;
            }
          }
        }
      }
      Finished(bs);
      return true;
    }

    lemma HeldAreFew(bs: seq<Body>, c: Cell)
      requires Shaped()
      ensures |Held(grid, bs, |bs|, c)| <= MAX_PER_CELL
    {
    }

    lemma PassOver(bs: seq<Body>, c: Cell, i: nat, dx: int, dy: int, dz: int)
      requires Valid() && Offset(dx, dy, dz) && Turn(c, i, Look(dx, dy, dz), 0)
      requires var d := Shift(c, dx, dy, dz); !Ahead(c, d) || !InGrid(d)
      requires At(bs, Rank(c, i, Look(dx, dy, dz), 0))
      ensures At(bs, Rank(c, i, Look(dx, dy, dz), MAX_PER_CELL))
    {
      SkipElsewhere(grid, bs, tests, c, i, dx, dy, dz);
    }

    lemma LeaveCell(bs: seq<Body>, c: Cell)
      requires Valid() && InGrid(c) && At(bs, Rank(c, |Held(grid, bs, |bs|, c)|, 0, 0))
      ensures At(bs, Rank(c, 0, 0, 0) + CELL_SPAN)
    {
      SkipBodies(grid, bs, tests, c);
    }

    lemma Finished(bs: seq<Body>)
      requires Valid() && At(bs, Rank(Cell(GRID_DIM, 0, 0), 0, 0, 0))
      ensures contacts[..contactCount] == ContactsOf(root, other, bs, tests) && Complete(grid, bs, tests)
    {
      AllRanksPassed(grid, bs, tests);
    }

    // A body is not tested against itself and those before it in its cell.
    lemma SkipFirst(bs: seq<Body>, c: Cell, i: nat, d: Cell, from: nat)
      requires Valid() && (c == d || Ahead(c, d)) && Turn(c, i, Stage(c, d), 0) && from == (if c == d then i + 1 else 0)
      requires At(bs, Rank(c, i, Stage(c, d), 0))
      ensures At(bs, Rank(c, i, Stage(c, d), from))
    {
      if c == d {
        SkipBeside(grid, bs, tests, c, i, d, 0, from);
      }
    }

    lemma SkipRest(bs: seq<Body>, c: Cell, i: nat, d: Cell)
      requires Valid() && (c == d || Ahead(c, d)) && Turn(c, i, Stage(c, d), 0)
      requires At(bs, Rank(c, i, Stage(c, d), |Held(grid, bs, |bs|, d)|))
      ensures At(bs, Rank(c, i, Stage(c, d), MAX_PER_CELL))
    {
      SkipBeside(grid, bs, tests, c, i, d, |Held(grid, bs, |bs|, d)|, MAX_PER_CELL);
    }
  }

  // What the tests at the top of the neighbour loops let through.
  lemma LooksAhead(c: Cell, dx: int, dy: int, dz: int)
    requires InGrid(c) && Offset(dx, dy, dz)
    ensures Ahead(c, Shift(c, dx, dy, dz)) <==>
      !((dx == 0 && dy == 0 && dz == 0) || (dx == 0 && (dy < 0 || (dy == 0 && dz <= 0))))
    ensures Ahead(c, Shift(c, dx, dy, dz)) ==> Stage(c, Shift(c, dx, dy, dz)) == Look(dx, dy, dz) && c != Shift(c, dx, dy, dz)
    ensures 0 <= Look(dx, dy, dz) < STAGES
  {
  }

  lemma NextCell(x: int, y: int, z: int)
    ensures Rank(Cell(x, y, z), 0, 0, 0) + CELL_SPAN == Rank(Cell(x, y, z + 1), 0, 0, 0)
  {
  }

  lemma NextRow(x: int, y: int)
    ensures Rank(Cell(x, y, GRID_DIM), 0, 0, 0) == Rank(Cell(x, y + 1, 0), 0, 0, 0)
    ensures Rank(Cell(x, GRID_DIM, 0), 0, 0, 0) == Rank(Cell(x + 1, 0, 0), 0, 0, 0)
  {
  }

  lemma NextTurn(c: Cell, i: int, stage: int)
    ensures Rank(c, i, stage, MAX_PER_CELL) == Rank(c, i, stage + 1, 0)
  {
  }

  lemma NextBody(c: Cell, i: int)
    ensures Rank(c, i, STAGES, 0) == Rank(c, i + 1, 0, 0)
  {
  }

  lemma NextRank(c: Cell, i: int, stage: int, j: int)
    ensures Rank(c, i, stage, j) + 1 == Rank(c, i, stage, j + 1)
  {
  }
}
