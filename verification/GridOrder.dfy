// The spatial grid of the broadphase and the order in which it tests pairs
// (libs/calynda_physics/calynda_physics.c:154-189, 595-678).

module GridOrder {
  import opened Vectors
  import opened Bodies

  const GRID_DIM: nat := 32
  const MAX_PER_CELL: nat := 16
  const MAX_CONTACTS: nat := 512

  datatype Cell = Cell(x: int, y: int, z: int)

  datatype Grid = Grid(origin: Vec, cellSize: real)

  predicate InGrid(c: Cell) {
    0 <= c.x < GRID_DIM && 0 <= c.y < GRID_DIM && 0 <= c.z < GRID_DIM
  }

  // Conversion to int truncates towards zero.
  function Truncate(v: real): int {
    if v >= 0.0 then v.Floor else -(-v).Floor
  }

  function Coordinate(v: real): (r: int)
    ensures 0 <= r < GRID_DIM
  {
    var t := Truncate(v);
    if t < 0 then 0 else if t >= GRID_DIM then GRID_DIM - 1 else t
  }

  function CellOf(g: Grid, pos: Vec): (c: Cell)
    requires g.cellSize > 0.0
    ensures InGrid(c)
  {
    Cell(Coordinate((pos.x - g.origin.x) / g.cellSize),
         Coordinate((pos.y - g.origin.y) / g.cellSize),
         Coordinate((pos.z - g.origin.z) / g.cellSize))
  }

  // The active bodies of a cell among the first `n`, in order.
  function InCell(g: Grid, bs: seq<Body>, n: nat, c: Cell): seq<nat>
    requires g.cellSize > 0.0 && n <= |bs|
  {
    if n == 0 then []
    else
      InCell(g, bs, n - 1, c) + (if bs[n - 1].active && CellOf(g, bs[n - 1].position) == c then [n - 1] else [])
  }

  // A full cell drops what comes later.
  function Held(g: Grid, bs: seq<Body>, n: nat, c: Cell): seq<nat>
    requires g.cellSize > 0.0 && n <= |bs|
  {
    var all := InCell(g, bs, n, c);
    if |all| <= MAX_PER_CELL then all else all[..MAX_PER_CELL]
  }

  // Where body `p` comes among the bodies of its cell.
  function Slot(g: Grid, bs: seq<Body>, p: nat): nat
    requires g.cellSize > 0.0 && p < |bs|
  {
    |InCell(g, bs, p, CellOf(g, bs[p].position))|
  }

  predicate Listed(g: Grid, bs: seq<Body>, p: nat)
    requires g.cellSize > 0.0
  {
    p < |bs| && bs[p].active && Slot(g, bs, p) < MAX_PER_CELL
  }

  // The i-th body of a cell is the listed body with that cell and slot.
  lemma {:induction false} InCellPlaces(g: Grid, bs: seq<Body>, n: nat, c: Cell, i: nat)
    requires g.cellSize > 0.0 && n <= |bs| && i < |InCell(g, bs, n, c)|
    ensures var p := InCell(g, bs, n, c)[i];
      p < n && bs[p].active && CellOf(g, bs[p].position) == c && Slot(g, bs, p) == i
  {
    if i < |InCell(g, bs, n - 1, c)| {
      InCellPlaces(g, bs, n - 1, c, i);
    }
  }

  lemma {:induction false} PlacedInCell(g: Grid, bs: seq<Body>, n: nat, p: nat)
    requires g.cellSize > 0.0 && p < n <= |bs| && bs[p].active
    ensures var all := InCell(g, bs, n, CellOf(g, bs[p].position));
      Slot(g, bs, p) < |all| && all[Slot(g, bs, p)] == p
  {
    if p < n - 1 {
      PlacedInCell(g, bs, n - 1, p);
    }
  }

  lemma HeldPlaces(g: Grid, bs: seq<Body>, c: Cell, i: nat)
    requires g.cellSize > 0.0 && i < |Held(g, bs, |bs|, c)|
    ensures var p := Held(g, bs, |bs|, c)[i];
      Listed(g, bs, p) && CellOf(g, bs[p].position) == c && Slot(g, bs, p) == i
  {
    InCellPlaces(g, bs, |bs|, c, i);
  }

  lemma PlacedInHeld(g: Grid, bs: seq<Body>, p: nat)
    requires g.cellSize > 0.0 && Listed(g, bs, p)
    ensures var held := Held(g, bs, |bs|, CellOf(g, bs[p].position));
      Slot(g, bs, p) < |held| && held[Slot(g, bs, p)] == p
  {
    PlacedInCell(g, bs, |bs|, p);
  }

  // ---- Which pairs are tested, and when ----

  predicate Passes(a: Body, b: Body) {
    !(a.isStatic && b.isStatic) && a.mask & b.layer != 0 && b.mask & a.layer != 0
  }

  // The half neighbourhood: of two adjacent cells exactly one looks at the other.
  predicate Ahead(c: Cell, d: Cell) {
    && 0 <= d.x - c.x <= 1 && -1 <= d.y - c.y <= 1 && -1 <= d.z - c.z <= 1
    && (d.x == c.x ==> d.y > c.y || (d.y == c.y && d.z > c.z))
  }

  predicate Near(c: Cell, d: Cell) {
    -1 <= d.x - c.x <= 1 && -1 <= d.y - c.y <= 1 && -1 <= d.z - c.z <= 1
  }

  predicate Tested(g: Grid, bs: seq<Body>, p: nat, q: nat)
    requires g.cellSize > 0.0
  {
    && Listed(g, bs, p) && Listed(g, bs, q) && Passes(bs[p], bs[q])
    && var c, d := CellOf(g, bs[p].position), CellOf(g, bs[q].position);
    (c == d && Slot(g, bs, p) < Slot(g, bs, q)) || Ahead(c, d)
  }

  const STAGES: nat := 19

  // The ranks of one cell's tests.
  const CELL_SPAN: int := MAX_PER_CELL * STAGES * MAX_PER_CELL

  // The turn of the neighbour loops in which cell `c` looks at cell `d`; turn 0 is the cell itself.
  function Stage(c: Cell, d: Cell): int {
    if c == d then 0 else Look(d.x - c.x, d.y - c.y, d.z - c.z)
  }

  function Look(dx: int, dy: int, dz: int): int {
    1 + dx * 9 + (dy + 1) * 3 + (dz + 1)
  }

  // The rank of a turn of the innermost loops in the order they run.
  function Rank(c: Cell, i: int, stage: int, j: int): int {
    ((((c.x * GRID_DIM + c.y) * GRID_DIM + c.z) * MAX_PER_CELL + i) * STAGES + stage) * MAX_PER_CELL + j
  }

  function RankOf(g: Grid, bs: seq<Body>, p: nat, q: nat): int
    requires g.cellSize > 0.0 && p < |bs| && q < |bs|
  {
    var c, d := CellOf(g, bs[p].position), CellOf(g, bs[q].position);
    Rank(c, Slot(g, bs, p), Stage(c, d), Slot(g, bs, q))
  }

  // The tests made before rank `n`: all of them and no others, each once, in order of rank.
  ghost predicate Progress(g: Grid, bs: seq<Body>, tests: seq<(nat, nat)>, n: int)
    requires g.cellSize > 0.0
  {
    && (forall k :: 0 <= k < |tests| ==> Tested(g, bs, tests[k].0, tests[k].1) && RankOf(g, bs, tests[k].0, tests[k].1) < n)
    && (forall k, l :: 0 <= k < l < |tests| ==>
          RankOf(g, bs, tests[k].0, tests[k].1) < RankOf(g, bs, tests[l].0, tests[l].1))
    && (forall p: nat, q: nat :: Tested(g, bs, p, q) && RankOf(g, bs, p, q) < n ==> (p, q) in tests)
  }

  lemma ProgressStart(g: Grid, bs: seq<Body>)
    requires g.cellSize > 0.0
    ensures Progress(g, bs, [], 0)
  {
  }

  // Ranks at which nothing is tested may be passed over.
  lemma ProgressSkip(g: Grid, bs: seq<Body>, tests: seq<(nat, nat)>, n: int, n': int)
    requires g.cellSize > 0.0 && Progress(g, bs, tests, n) && n <= n'
    requires forall p: nat, q: nat :: Tested(g, bs, p, q) ==> !(n <= RankOf(g, bs, p, q) < n')
    ensures Progress(g, bs, tests, n')
  {
    hide Tested, RankOf;
  }

  lemma ProgressTest(g: Grid, bs: seq<Body>, tests: seq<(nat, nat)>, n: int, p: nat, q: nat)
    requires g.cellSize > 0.0 && Progress(g, bs, tests, n) && Tested(g, bs, p, q) && RankOf(g, bs, p, q) == n
    requires forall p': nat, q': nat :: Tested(g, bs, p', q') && RankOf(g, bs, p', q') == n ==> p' == p && q' == q
    ensures Progress(g, bs, tests + [(p, q)], n + 1)
  {
    hide Tested, RankOf;
  }

  // ---- Ranks as positions of the loops ----

  predicate Turn(c: Cell, i: int, stage: int, j: int) {
    InGrid(c) && 0 <= i < MAX_PER_CELL && 0 <= stage < STAGES && 0 <= j < MAX_PER_CELL
  }

  // A number and its leading part, in the mixed base of the ranks.
  lemma Block(hi: int, hi': int, lo': int)
    ensures 0 <= lo' < MAX_PER_CELL && hi * MAX_PER_CELL <= hi' * MAX_PER_CELL + lo' < (hi + 1) * MAX_PER_CELL ==> hi == hi'
    ensures 0 <= lo' < STAGES && hi * STAGES <= hi' * STAGES + lo' < (hi + 1) * STAGES ==> hi == hi'
    ensures 0 <= lo' < GRID_DIM && hi * GRID_DIM <= hi' * GRID_DIM + lo' < (hi + 1) * GRID_DIM ==> hi == hi'
    ensures 0 <= lo' < CELL_SPAN && hi * CELL_SPAN <= hi' * CELL_SPAN + lo' < (hi + 1) * CELL_SPAN ==> hi == hi'
  {
  }

  function CellRank(c: Cell): int {
    (c.x * GRID_DIM + c.y) * GRID_DIM + c.z
  }

  lemma CellRankIsInjective(c: Cell, c': Cell)
    requires InGrid(c) && InGrid(c') && CellRank(c) == CellRank(c')
    ensures c == c'
  {
    Block(c.x * GRID_DIM + c.y, c'.x * GRID_DIM + c'.y, c'.z);
    Block(c.x, c'.x, c'.y);
  }

  function BodyRank(c: Cell, i: int): int {
    CellRank(c) * MAX_PER_CELL + i
  }

  function TurnRank(c: Cell, i: int, stage: int): int {
    BodyRank(c, i) * STAGES + stage
  }

  // Different turns have different ranks, and a turn's rank is inside its loops' ranges.
  lemma RankIsInjective(c: Cell, i: int, stage: int, j: int, c': Cell, i': int, stage': int, j': int)
    requires Turn(c, i, stage, j) && Turn(c', i', stage', j')
    ensures Rank(c, i, stage, 0) <= Rank(c', i', stage', j') < Rank(c, i, stage, 0) + MAX_PER_CELL ==>
      c' == c && i' == i && stage' == stage
    ensures Rank(c, 0, 0, 0) <= Rank(c', i', stage', j') < Rank(c, 0, 0, 0) + CELL_SPAN ==> c' == c
  {
    if Rank(c, i, stage, 0) <= Rank(c', i', stage', j') < Rank(c, i, stage, 0) + MAX_PER_CELL {
      assert TurnRank(c, i, stage) == TurnRank(c', i', stage') by {
        Block(TurnRank(c, i, stage), TurnRank(c', i', stage'), j');
      }
      hide CellRank;
      Block(BodyRank(c, i), BodyRank(c', i'), stage');
      Block(CellRank(c), CellRank(c'), i');
      CellRankIsInjective(c, c');
    }
    if Rank(c, 0, 0, 0) <= Rank(c', i', stage', j') < Rank(c, 0, 0, 0) + CELL_SPAN {
      assert CellRank(c) == CellRank(c') by {
        Block(CellRank(c), CellRank(c'), (i' * STAGES + stage') * MAX_PER_CELL + j');
      }
      CellRankIsInjective(c, c');
    }
  }

  lemma TestedTurn(g: Grid, bs: seq<Body>, p: nat, q: nat)
    requires g.cellSize > 0.0 && Tested(g, bs, p, q)
    ensures var c, d := CellOf(g, bs[p].position), CellOf(g, bs[q].position);
      Turn(c, Slot(g, bs, p), Stage(c, d), Slot(g, bs, q))
  {
  }

  lemma SameStage(c: Cell, d: Cell, d': Cell)
    requires (c == d || Ahead(c, d)) && (c == d' || Ahead(c, d')) && Stage(c, d) == Stage(c, d')
    ensures d == d'
  {
  }

  // A test whose rank lies in turn (c, i, stage) is of the i-th body of that cell and of one in
  // the cell looked at then.
  lemma TestInTurn(g: Grid, bs: seq<Body>, c: Cell, i: nat, stage: nat, p: nat, q: nat)
    requires g.cellSize > 0.0 && Turn(c, i, stage, 0) && Tested(g, bs, p, q)
    requires Rank(c, i, stage, 0) <= RankOf(g, bs, p, q) < Rank(c, i, stage, 0) + MAX_PER_CELL
    ensures var d, j := CellOf(g, bs[q].position), RankOf(g, bs, p, q) - Rank(c, i, stage, 0);
      && (c == d || Ahead(c, d)) && Stage(c, d) == stage && (c == d ==> i < j)
      && i < |Held(g, bs, |bs|, c)| && p == Held(g, bs, |bs|, c)[i]
      && 0 <= j < |Held(g, bs, |bs|, d)| && q == Held(g, bs, |bs|, d)[j]
  {
    var d := CellOf(g, bs[q].position);
    TestedTurn(g, bs, p, q);
    RankIsInjective(c, i, stage, 0, CellOf(g, bs[p].position), Slot(g, bs, p), Stage(CellOf(g, bs[p].position), d), Slot(g, bs, q));
    PlacedInHeld(g, bs, p);
    PlacedInHeld(g, bs, q);
  }

  // Past the last body of a cell nothing is tested until the next cell.
  lemma NothingAfterBodies(g: Grid, bs: seq<Body>, c: Cell, p: nat, q: nat)
    requires g.cellSize > 0.0 && InGrid(c) && Tested(g, bs, p, q)
    ensures !(Rank(c, |Held(g, bs, |bs|, c)|, 0, 0) <= RankOf(g, bs, p, q) < Rank(c, 0, 0, 0) + CELL_SPAN)
  {
    TestedTurn(g, bs, p, q);
    var d := CellOf(g, bs[q].position);
    RankIsInjective(c, 0, 0, 0, CellOf(g, bs[p].position), Slot(g, bs, p), Stage(CellOf(g, bs[p].position), d), Slot(g, bs, q));
    PlacedInHeld(g, bs, p);
  }

  // Within turn (c, i, stage), which looks at cell `d`, nothing is tested outside `lo <= j < hi`.
  lemma NothingBeside(g: Grid, bs: seq<Body>, c: Cell, i: nat, d: Cell, from: nat, to: nat, p: nat, q: nat)
    requires g.cellSize > 0.0 && (c == d || Ahead(c, d)) && Turn(c, i, Stage(c, d), 0) && Tested(g, bs, p, q)
    requires from <= to <= MAX_PER_CELL && (from >= |Held(g, bs, |bs|, d)| || (c == d && to <= i + 1))
    ensures !(Rank(c, i, Stage(c, d), from) <= RankOf(g, bs, p, q) < Rank(c, i, Stage(c, d), to))
  {
    if Rank(c, i, Stage(c, d), from) <= RankOf(g, bs, p, q) < Rank(c, i, Stage(c, d), to) {
      TestInTurn(g, bs, c, i, Stage(c, d), p, q);
      SameStage(c, d, CellOf(g, bs[q].position));
    }
  }

  predicate Offset(dx: int, dy: int, dz: int) {
    0 <= dx <= 1 && -1 <= dy <= 1 && -1 <= dz <= 1
  }

  function Shift(c: Cell, dx: int, dy: int, dz: int): Cell {
    Cell(c.x + dx, c.y + dy, c.z + dz)
  }

  // A turn that looks at no cell of the half neighbourhood inside the grid tests nothing.
  lemma NothingElsewhere(g: Grid, bs: seq<Body>, c: Cell, i: nat, dx: int, dy: int, dz: int, p: nat, q: nat)
    requires g.cellSize > 0.0 && Offset(dx, dy, dz) && Turn(c, i, Look(dx, dy, dz), 0)
    requires var d := Shift(c, dx, dy, dz); !Ahead(c, d) || !InGrid(d)
    requires Tested(g, bs, p, q)
    ensures !(Rank(c, i, Look(dx, dy, dz), 0) <= RankOf(g, bs, p, q) < Rank(c, i, Look(dx, dy, dz), MAX_PER_CELL))
  {
    var stage := Look(dx, dy, dz);
    if Rank(c, i, stage, 0) <= RankOf(g, bs, p, q) < Rank(c, i, stage, MAX_PER_CELL) {
      TestInTurn(g, bs, c, i, stage, p, q);
      LookIsDistinct(c, dx, dy, dz, CellOf(g, bs[q].position));
    }
  }

  lemma LookIsDistinct(c: Cell, dx: int, dy: int, dz: int, d: Cell)
    requires Offset(dx, dy, dz) && (c == d || Ahead(c, d)) && Stage(c, d) == Look(dx, dy, dz)
    ensures Ahead(c, d) && d == Shift(c, dx, dy, dz)
  {
  }

  // ---- Steps of the loops ----

  lemma SkipBodies(g: Grid, bs: seq<Body>, tests: seq<(nat, nat)>, c: Cell)
    requires g.cellSize > 0.0 && InGrid(c) && Progress(g, bs, tests, Rank(c, |Held(g, bs, |bs|, c)|, 0, 0))
    ensures Progress(g, bs, tests, Rank(c, 0, 0, 0) + CELL_SPAN)
  {
    forall p: nat, q: nat | Tested(g, bs, p, q)
      ensures !(Rank(c, |Held(g, bs, |bs|, c)|, 0, 0) <= RankOf(g, bs, p, q) < Rank(c, 0, 0, 0) + CELL_SPAN)
    {
      NothingAfterBodies(g, bs, c, p, q);
    }
    ProgressSkip(g, bs, tests, Rank(c, |Held(g, bs, |bs|, c)|, 0, 0), Rank(c, 0, 0, 0) + CELL_SPAN);
  }

  lemma SkipBeside(g: Grid, bs: seq<Body>, tests: seq<(nat, nat)>, c: Cell, i: nat, d: Cell, from: nat, to: nat)
    requires g.cellSize > 0.0 && (c == d || Ahead(c, d)) && Turn(c, i, Stage(c, d), 0)
    requires from <= to <= MAX_PER_CELL && (from >= |Held(g, bs, |bs|, d)| || (c == d && to <= i + 1))
    requires Progress(g, bs, tests, Rank(c, i, Stage(c, d), from))
    ensures Progress(g, bs, tests, Rank(c, i, Stage(c, d), to))
  {
    forall p: nat, q: nat | Tested(g, bs, p, q)
      ensures !(Rank(c, i, Stage(c, d), from) <= RankOf(g, bs, p, q) < Rank(c, i, Stage(c, d), to))
    {
      NothingBeside(g, bs, c, i, d, from, to, p, q);
    }
    ProgressSkip(g, bs, tests, Rank(c, i, Stage(c, d), from), Rank(c, i, Stage(c, d), to));
  }

  lemma SkipElsewhere(g: Grid, bs: seq<Body>, tests: seq<(nat, nat)>, c: Cell, i: nat, dx: int, dy: int, dz: int)
    requires g.cellSize > 0.0 && Offset(dx, dy, dz) && Turn(c, i, Look(dx, dy, dz), 0)
    requires var d := Shift(c, dx, dy, dz); !Ahead(c, d) || !InGrid(d)
    requires Progress(g, bs, tests, Rank(c, i, Look(dx, dy, dz), 0))
    ensures Progress(g, bs, tests, Rank(c, i, Look(dx, dy, dz), MAX_PER_CELL))
  {
    var stage := Look(dx, dy, dz);
    forall p: nat, q: nat | Tested(g, bs, p, q)
      ensures !(Rank(c, i, stage, 0) <= RankOf(g, bs, p, q) < Rank(c, i, stage, MAX_PER_CELL))
    {
      NothingElsewhere(g, bs, c, i, dx, dy, dz, p, q);
    }
    ProgressSkip(g, bs, tests, Rank(c, i, stage, 0), Rank(c, i, stage, MAX_PER_CELL));
  }

  lemma OnlyThisTest(g: Grid, bs: seq<Body>, c: Cell, i: nat, d: Cell, j: nat)
    requires g.cellSize > 0.0 && (c == d || Ahead(c, d)) && Turn(c, i, Stage(c, d), j)
    requires i < |Held(g, bs, |bs|, c)| && j < |Held(g, bs, |bs|, d)| && (c == d ==> i < j)
    ensures var p, q := Held(g, bs, |bs|, c)[i], Held(g, bs, |bs|, d)[j];
      && Listed(g, bs, p) && Listed(g, bs, q) && RankOf(g, bs, p, q) == Rank(c, i, Stage(c, d), j)
      && (Passes(bs[p], bs[q]) <==> Tested(g, bs, p, q))
      && forall p': nat, q': nat :: Tested(g, bs, p', q') && RankOf(g, bs, p', q') == Rank(c, i, Stage(c, d), j) ==> p' == p && q' == q
  {
    HeldPlaces(g, bs, c, i);
    HeldPlaces(g, bs, d, j);
    forall p': nat, q': nat | Tested(g, bs, p', q') && RankOf(g, bs, p', q') == Rank(c, i, Stage(c, d), j)
      ensures p' == Held(g, bs, |bs|, c)[i] && q' == Held(g, bs, |bs|, d)[j]
    {
      TestInTurn(g, bs, c, i, Stage(c, d), p', q');
      SameStage(c, d, CellOf(g, bs[q'].position));
    }
  }

  // ---- The result ----

  // The pairs to be tested are the tests made, each once.
  ghost predicate Complete(g: Grid, bs: seq<Body>, tests: seq<(nat, nat)>)
    requires g.cellSize > 0.0
  {
    && (forall k, l :: 0 <= k < l < |tests| ==> tests[k] != tests[l])
    && (forall p: nat, q: nat :: (p, q) in tests <==> Tested(g, bs, p, q))
  }

  lemma AllRanksPassed(g: Grid, bs: seq<Body>, tests: seq<(nat, nat)>)
    requires g.cellSize > 0.0 && Progress(g, bs, tests, Rank(Cell(GRID_DIM, 0, 0), 0, 0, 0))
    ensures Complete(g, bs, tests)
  {
    forall p: nat, q: nat | Tested(g, bs, p, q)
      ensures RankOf(g, bs, p, q) < Rank(Cell(GRID_DIM, 0, 0), 0, 0, 0)
    {
      TestedTurn(g, bs, p, q);
    }
    hide Tested, RankOf;
  }
}
