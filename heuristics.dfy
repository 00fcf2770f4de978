/**
 * The heuristics of algorithms/heuristics.py. A heuristic receives the
 * problem and reads its goal attribute when it has one; here the goal is
 * passed as an Option: Some(goal) for a SimpleSurvivorProblem, None for a
 * problem without a goal attribute such as MultiSurvivorProblem.
 */
module Heuristics {
  import opened Wrappers
  import opened Geometry
  import opened BoolGrid
  import opened Moves
  import opened Problems

  /** nullHeuristic(state, problem): estimates nothing. */
  function NullHeuristic<S>(state: S): (h: int)
    ensures h == 0
  {
    0
  }

  /**
   * manhattanHeuristic(state, problem): 0 without a goal, otherwise the
   * Manhattan distance from the position to the goal.
   */
  function ManhattanHeuristic(pos: Pos, goal: Option<Pos>): (h: int)
    ensures h >= 0
    ensures goal.None? ==> h == 0
    ensures goal.Some? ==> (h == 0 <==> pos == goal.value)
    ensures goal.Some? ==> h == Manhattan(pos, goal.value)
  {
    match goal
    case None => 0
    case Some(g) => Abs(pos.x - g.x) + Abs(pos.y - g.y)
  }

  /**
   * With step costs of at least 1, the Manhattan heuristic is consistent:
   * across every getSuccessors triple it falls by no more than the step cost.
   */
  lemma ManhattanIsConsistent(walls: Cells, costFn: Pos -> int, p: Pos, goal: Pos)
    requires Interior(walls, p) && PositiveCosts(costFn)
    ensures forall t :: t in SimpleSuccessors(walls, costFn, p) ==>
              ManhattanHeuristic(p, Some(goal)) <= t.cost + ManhattanHeuristic(t.state, Some(goal))
  {
    SimpleSuccessorsFacts(walls, costFn, p);
    forall t | t in SimpleSuccessors(walls, costFn, p)
      ensures ManhattanHeuristic(p, Some(goal)) <= t.cost + ManhattanHeuristic(t.state, Some(goal))
    {
      StepChangesDistanceByOne(p, t.action, goal);
    }
  }

  /** Every cell entered costs at least 1 and moves at most one step, so the cost covers the distance. */
  lemma {:induction false} ReplayCostCoversDistance(walls: Cells, costFn: Pos -> int, start: Pos, actions: seq<Direction>)
    requires Enclosed(walls) && Interior(walls, start) && PositiveCosts(costFn)
    requires Replay(walls, costFn, start, actions).Some?
    ensures Manhattan(start, Replay(walls, costFn, start, actions).value.0) <= Replay(walls, costFn, start, actions).value.1
  {
    if actions != [] {
      var prefix := actions[..|actions| - 1];
      ReplayCostCoversDistance(walls, costFn, start, prefix);
      var p := Replay(walls, costFn, start, prefix).value.0;
      StepChangesDistanceByOne(p, actions[|actions| - 1], start);
    }
  }

  /**
   * The Manhattan heuristic never exceeds getCostOfActions of a plan that
   * reaches the goal without entering a wall, whatever the step costs, as
   * long as each is at least 1.
   */
  lemma ManhattanIsAdmissible(walls: Cells, costFn: Pos -> int, start: Pos, goal: Pos, actions: seq<Direction>)
    requires Enclosed(walls) && Interior(walls, start) && PositiveCosts(costFn)
    requires Replay(walls, costFn, start, actions).Some? && Replay(walls, costFn, start, actions).value.0 == goal
    ensures ManhattanHeuristic(start, Some(goal)) <= CostOfActions(walls, costFn, start, Some(actions))
  {
    ReplayCostCoversDistance(walls, costFn, start, actions);
  }
}
