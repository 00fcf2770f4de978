/**
 * The direction tables, the movement vectors and configurations of the grid
 * world (SAR/SAR/world/game.py: Directions, Actions, Configuration).
 * Positions are integer cells; (0, 0) is the lower left corner and North is
 * the direction of increasing y.
 */
module Geometry {

  datatype Pos = Pos(x: int, y: int)

  /** A movement vector (dx, dy). */
  datatype Vector = Vector(dx: int, dy: int)

  datatype Direction = North | South | East | West | Stop

  /** The order in which the program's direction dictionary lists its keys. */
  function Rank(d: Direction): nat {
    match d
    case North => 0
    case South => 1
    case East => 2
    case West => 3
    case Stop => 4
  }

  /** Python's tuple order on positions: by x, then by y. */
  predicate PosLess(p: Pos, q: Pos) {
    p.x < q.x || (p.x == q.x && p.y < q.y)
  }

  predicate PosLessEq(p: Pos, q: Pos) {
    p == q || PosLess(p, q)
  }

  /** Directions.LEFT: a quarter turn counter-clockwise. */
  function Left(d: Direction): Direction {
    match d
    case North => West
    case South => East
    case East => North
    case West => South
    case Stop => Stop
  }

  /** Directions.RIGHT: the LEFT table with keys and values swapped. */
  function Right(d: Direction): Direction {
    match d
    case West => North
    case East => South
    case North => East
    case South => West
    case Stop => Stop
  }

  /** Directions.REVERSE. */
  function Reverse(d: Direction): Direction {
    match d
    case North => South
    case South => North
    case East => West
    case West => East
    case Stop => Stop
  }

  /** Actions.reverseDirection: a chain of tests, anything else returned as is. */
  function ReverseDirection(d: Direction): Direction {
    if d == North then South
    else if d == South then North
    else if d == East then West
    else if d == West then East
    else d
  }

  /** Actions.directionToVector at the rescuer's speed 1. */
  function DirectionToVector(d: Direction): Vector {
    match d
    case North => Vector(0, 1)
    case South => Vector(0, -1)
    case East => Vector(1, 0)
    case West => Vector(-1, 0)
    case Stop => Vector(0, 0)
  }

  /** Actions.vectorToDirection: the y component decides before the x component. */
  function VectorToDirection(v: Vector): Direction {
    if v.dy > 0 then North
    else if v.dy < 0 then South
    else if v.dx < 0 then West
    else if v.dx > 0 then East
    else Stop
  }

  /** Actions.getSuccessor: the cell reached from p by one move in direction d. */
  function GetSuccessor(p: Pos, d: Direction): Pos {
    var v := DirectionToVector(d);
    Pos(p.x + v.dx, p.y + v.dy)
  }

  function Abs(n: int): nat {
    if n < 0 then -n else n
  }

  function Manhattan(p: Pos, q: Pos): nat {
    Abs(p.x - q.x) + Abs(p.y - q.y)
  }

  /** A Configuration: a position and the direction of travel. */
  datatype Configuration = Configuration(pos: Pos, direction: Direction)

  /**
   * Configuration.generateSuccessor: translate by the vector; the direction
   * becomes the vector's direction, except that a zero vector keeps the old one.
   */
  function GenerateSuccessor(c: Configuration, v: Vector): (r: Configuration)
    ensures v == Vector(0, 0) ==> r == c
    ensures forall d :: d != Stop && v == DirectionToVector(d) ==>
              r == Configuration(GetSuccessor(c.pos, d), d)
    ensures Manhattan(r.pos, c.pos) == Abs(v.dx) + Abs(v.dy)
  {
    var direction := VectorToDirection(v);
    Configuration(Pos(c.pos.x + v.dx, c.pos.y + v.dy),
                  if direction == Stop then c.direction else direction)
  }

  lemma RightUndoesLeft(d: Direction)
    ensures Right(Left(d)) == d && Left(Right(d)) == d
  {
  }

  lemma ReverseIsInvolution(d: Direction)
    ensures Reverse(Reverse(d)) == d
    ensures ReverseDirection(d) == Reverse(d)
  {
  }

  lemma VectorRoundTrip(d: Direction)
    ensures VectorToDirection(DirectionToVector(d)) == d
  {
  }

  /** Moving in d and then in REVERSE[d] returns to the start; every move but Stop is one unit step. */
  lemma SuccessorThenReverse(p: Pos, d: Direction)
    ensures GetSuccessor(GetSuccessor(p, d), Reverse(d)) == p
    ensures Manhattan(GetSuccessor(p, d), p) == if d == Stop then 0 else 1
  {
  }

  /** A unit step changes the Manhattan distance to any fixed cell by at most 1. */
  lemma {:induction false} StepChangesDistanceByOne(p: Pos, d: Direction, goal: Pos)
    ensures Manhattan(p, goal) <= Manhattan(GetSuccessor(p, d), goal) + 1
    ensures Manhattan(GetSuccessor(p, d), goal) <= Manhattan(p, goal) + 1
  {
  }
}
