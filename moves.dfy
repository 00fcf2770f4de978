/**
 * The legal moves of the grid world (SAR/SAR/world/game.py:
 * Actions.getPossibleActions and Actions.getLegalNeighbors) over a wall grid.
 * Both walk the direction dictionary in its order North, South, East, West,
 * Stop. Positions are integers, so the "between grid points" case of
 * getPossibleActions never arises.
 */
module Moves {
  import opened Geometry
  import opened BoolGrid
  import opened Grids

  /** Actions._directionsAsList: the keys of the direction dictionary in insertion order. */
  const Order: seq<Direction> := [North, South, East, West, Stop]

  lemma OrderRanks()
    ensures |Order| == 5
    ensures forall i :: 0 <= i < |Order| ==> Rank(Order[i]) == i
    ensures forall d :: Order[Rank(d)] == d
  {
    forall d ensures Order[Rank(d)] == d {
      match d
      case North =>
      case South =>
      case East =>
      case West =>
      case Stop =>
    }
  }

  /** A rectangular wall grid whose outer ring is all walls. */
  predicate Enclosed(walls: Cells) {
    Rect(walls, |walls|, Height(walls)) &&
    forall x, y ::
      (0 <= x < |walls| && 0 <= y < Height(walls) &&
       (x == 0 || y == 0 || x == |walls| - 1 || y == Height(walls) - 1)) ==> walls[x][y]
  }

  /** p and its four neighbours all lie inside the grid. */
  predicate Interior(walls: Cells, p: Pos) {
    Rect(walls, |walls|, Height(walls)) &&
    1 <= p.x && p.x + 1 < |walls| && 1 <= p.y && p.y + 1 < Height(walls)
  }

  predicate Open(walls: Cells, p: Pos) {
    InBox(walls, p) && !At(walls, p)
  }

  /** In an enclosed grid, a cell that is not a wall is away from the border. */
  lemma OpenIsInterior(walls: Cells, p: Pos)
    requires Enclosed(walls) && Open(walls, p)
    ensures Interior(walls, p)
    ensures forall d :: InBox(walls, GetSuccessor(p, d))
  {
    assert |walls[p.x]| == Height(walls);
  }

  lemma InteriorNeighbours(walls: Cells, p: Pos)
    requires Interior(walls, p)
    ensures forall d :: InBox(walls, GetSuccessor(p, d))
  {
    forall d ensures InBox(walls, GetSuccessor(p, d)) {
      var q := GetSuccessor(p, d);
      assert |walls[q.x]| == Height(walls);
    }
  }

  // ---------------------------------------------------------------------------
  // getPossibleActions

  /** The first n directions of the dictionary whose destination is not a wall. */
  function PossibleUpTo(walls: Cells, p: Pos, n: nat): seq<Direction>
    requires Interior(walls, p) && n <= |Order|
  {
    if n == 0 then []
    else
      InteriorNeighbours(walls, p);
      var d := Order[n - 1];
      PossibleUpTo(walls, p, n - 1) + (if !At(walls, GetSuccessor(p, d)) then [d] else [])
  }

  function PossibleActions(walls: Cells, p: Pos): seq<Direction>
    requires Interior(walls, p)
  {
    PossibleUpTo(walls, p, |Order|)
  }

  /** The directions are listed in dictionary order, so none twice. */
  predicate InDictionaryOrder(ds: seq<Direction>) {
    forall i, j :: 0 <= i < j < |ds| ==> Rank(ds[i]) < Rank(ds[j])
  }

  lemma {:induction false} PossibleUpToFacts(walls: Cells, p: Pos, n: nat)
    requires Interior(walls, p) && n <= |Order|
    ensures forall d :: InBox(walls, GetSuccessor(p, d))
    ensures forall d :: d in PossibleUpTo(walls, p, n) <==> Rank(d) < n && !At(walls, GetSuccessor(p, d))
    ensures InDictionaryOrder(PossibleUpTo(walls, p, n))
  {
    InteriorNeighbours(walls, p);
    OrderRanks();
    if n > 0 {
      var prev := PossibleUpTo(walls, p, n - 1);
      var d := Order[n - 1];
      assert PossibleUpTo(walls, p, n) == prev + (if !At(walls, GetSuccessor(p, d)) then [d] else []);
      PossibleUpToFacts(walls, p, n - 1);
      assert forall i :: 0 <= i < |prev| ==> Rank(prev[i]) < n - 1 by {
        forall i | 0 <= i < |prev| ensures Rank(prev[i]) < n - 1 {
          assert prev[i] in prev;
        }
      }
    }
  }

  /**
   * Actions.getPossibleActions: exactly the directions, Stop included, whose
   * destination is not a wall, in dictionary order.
   */
  lemma PossibleActionsFacts(walls: Cells, p: Pos)
    requires Interior(walls, p)
    ensures forall d :: InBox(walls, GetSuccessor(p, d))
    ensures forall d :: d in PossibleActions(walls, p) <==> !At(walls, GetSuccessor(p, d))
    ensures InDictionaryOrder(PossibleActions(walls, p))
    ensures Stop in PossibleActions(walls, p) <==> !At(walls, p)
  {
    PossibleUpToFacts(walls, p, |Order|);
    assert GetSuccessor(p, Stop) == p;
  }

  /** Actions.getPossibleActions(config, walls) for a configuration on a grid point. */
  method GetPossibleActions(config: Configuration, walls: Grid) returns (possible: seq<Direction>)
    requires walls.Valid() && Interior(walls.Cells(), config.pos)
    ensures possible == PossibleActions(walls.Cells(), config.pos)
    ensures forall d :: d in possible <==> !At(walls.Cells(), GetSuccessor(config.pos, d))
    ensures InDictionaryOrder(possible)
  {
    InteriorNeighbours(walls.Cells(), config.pos);
    possible := [];
    var x, y := config.pos.x, config.pos.y;
    for i := 0 to |Order|
      invariant possible == PossibleUpTo(walls.Cells(), config.pos, i)
    {
      var v := DirectionToVector(Order[i]);
      var nextY := y + v.dy;
      var nextX := x + v.dx;
      if !walls.Get(nextX, nextY) {
        possible := possible + [Order[i]];
      }
    }
    PossibleActionsFacts(walls.Cells(), config.pos);
  }

  // ---------------------------------------------------------------------------
  // getLegalNeighbors

  /** The destinations of the first n directions that stay inside the grid and are not walls. */
  function NeighboursUpTo(walls: Cells, p: Pos, n: nat): seq<Pos>
    requires n <= |Order|
  {
    if n == 0 then []
    else
      var q := GetSuccessor(p, Order[n - 1]);
      NeighboursUpTo(walls, p, n - 1) + (if Open(walls, q) then [q] else [])
  }

  function LegalNeighbours(walls: Cells, p: Pos): seq<Pos> {
    NeighboursUpTo(walls, p, |Order|)
  }

  lemma {:induction false} NeighboursUpToFacts(walls: Cells, p: Pos, n: nat)
    requires n <= |Order|
    ensures forall q :: q in NeighboursUpTo(walls, p, n) <==>
              Open(walls, q) && exists i :: 0 <= i < n && q == GetSuccessor(p, Order[i])
  {
    if n > 0 {
      NeighboursUpToFacts(walls, p, n - 1);
    }
  }

  /** The direction of a move from p to a cell at most one step away. */
  function DirectionTo(p: Pos, q: Pos): Direction {
    VectorToDirection(Vector(q.x - p.x, q.y - p.y))
  }

  lemma StepTowards(p: Pos, q: Pos)
    requires Manhattan(p, q) <= 1
    ensures GetSuccessor(p, DirectionTo(p, q)) == q
  {
  }

  /**
   * Actions.getLegalNeighbors: exactly the cells inside the grid, not walls,
   * at most one unit step from p (p itself is reached by Stop).
   */
  lemma LegalNeighboursFacts(walls: Cells, p: Pos)
    ensures forall q :: q in LegalNeighbours(walls, p) <==> Open(walls, q) && Manhattan(p, q) <= 1
  {
    NeighboursUpToFacts(walls, p, |Order|);
    OrderRanks();
    forall q | Open(walls, q) && Manhattan(p, q) <= 1
      ensures q in LegalNeighbours(walls, p)
    {
      var d := DirectionTo(p, q);
      StepTowards(p, q);
      assert q == GetSuccessor(p, Order[Rank(d)]);
    }
    forall q | q in LegalNeighbours(walls, p)
      ensures Manhattan(p, q) <= 1
    {
      var i :| 0 <= i < |Order| && q == GetSuccessor(p, Order[i]);
      SuccessorThenReverse(p, Order[i]);
    }
  }

  /** Actions.getLegalNeighbors(position, walls), with its bounds checks. */
  method GetLegalNeighbors(position: Pos, walls: Grid) returns (neighbours: seq<Pos>)
    requires walls.Valid() && InBox(walls.Cells(), position)
    ensures neighbours == LegalNeighbours(walls.Cells(), position)
    ensures forall q :: q in neighbours <==> Open(walls.Cells(), q) && Manhattan(position, q) <= 1
  {
    neighbours := [];
    var x, y := position.x, position.y;
    for i := 0 to |Order|
      invariant neighbours == NeighboursUpTo(walls.Cells(), position, i)
    {
      var v := DirectionToVector(Order[i]);
      var nextX := x + v.dx;
      if nextX < 0 || nextX == walls.width {
        continue;
      }
      var nextY := y + v.dy;
      if nextY < 0 || nextY == walls.height {
        continue;
      }
      if !walls.Get(nextX, nextY) {
        neighbours := neighbours + [Pos(nextX, nextY)];
      }
    }
    LegalNeighboursFacts(walls.Cells(), position);
  }
}
