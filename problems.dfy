/**
 * The search problems of algorithms/problems.py: SimpleSurvivorProblem,
 * whose states are positions, and MultiSurvivorProblem, whose states are a
 * position and a survivor grid. What their methods compute is first stated
 * on values (Replay, CostOfActions, SimpleSuccessors, MultiSuccessors); the
 * classes then keep their bookkeeping fields and are proved to agree.
 */
module Problems {
  import opened Wrappers
  import opened Geometry
  import opened BoolGrid
  import opened Grids
  import opened Moves
  import opened Layout
  import opened Rescue
  import opened Seqs

  /** The cost getCostOfActions reports for a missing plan or a move into a wall. */
  const Infeasible := 999999

  /** The four moves getSuccessors tries, in its order. */
  const Compass: seq<Direction> := [North, South, East, West]

  /** One (successor, action, stepCost) triple of getSuccessors. */
  datatype Successor<S> = Successor(state: S, action: Direction, cost: int)

  /** The default cost function: the terrain cost of the cell entered. */
  function TerrainCostFn(terrain: map<Pos, char>): Pos -> int {
    p => TerrainCostAt(terrain, p)
  }

  /** Every cell costs at least 1 to enter. */
  ghost predicate PositiveCosts(costFn: Pos -> int) {
    forall q :: costFn(q) >= 1
  }

  lemma TerrainCostsArePositive(terrain: map<Pos, char>)
    ensures PositiveCosts(TerrainCostFn(terrain))
  {
    forall q ensures TerrainCostFn(terrain)(q) >= 1 {
      TerrainCostTable(terrain, q);
    }
  }

  // ---------------------------------------------------------------------------
  // getCostOfActions

  /** Where the actions lead from start, walls ignored. */
  function End(start: Pos, actions: seq<Direction>): Pos {
    if actions == [] then start
    else GetSuccessor(End(start, actions[..|actions| - 1]), actions[|actions| - 1])
  }

  /** The cells entered, one per action: the i-th is where the first i + 1 actions lead. */
  function Path(start: Pos, actions: seq<Direction>): (cells: seq<Pos>)
    ensures |cells| == |actions|
  {
    seq(|actions|, i requires 0 <= i < |actions| => End(start, actions[..i + 1]))
  }

  function SumCosts(costFn: Pos -> int, cells: seq<Pos>): int {
    if cells == [] then 0
    else SumCosts(costFn, cells[..|cells| - 1]) + costFn(cells[|cells| - 1])
  }

  /**
   * The loop of getCostOfActions: the position reached and the cost so far,
   * or None once a move enters a wall.
   */
  function Replay(walls: Cells, costFn: Pos -> int, start: Pos, actions: seq<Direction>): (r: Option<(Pos, int)>)
    requires Enclosed(walls) && Interior(walls, start)
    ensures r.Some? ==> Interior(walls, r.value.0)
  {
    if actions == [] then Some((start, 0))
    else
      match Replay(walls, costFn, start, actions[..|actions| - 1])
      case None => None
      case Some((p, cost)) =>
        InteriorNeighbours(walls, p);
        var q := GetSuccessor(p, actions[|actions| - 1]);
        if At(walls, q) then None
        else
          OpenIsInterior(walls, q);
          Some((q, cost + costFn(q)))
  }

  /** getCostOfActions(actions), with None for a missing plan. */
  function CostOfActions(walls: Cells, costFn: Pos -> int, start: Pos, actions: Option<seq<Direction>>): int
    requires Enclosed(walls) && Interior(walls, start)
  {
    match actions
    case None => Infeasible
    case Some(acts) =>
      match Replay(walls, costFn, start, acts)
      case None => Infeasible
      case Some((_, cost)) => cost
  }

  lemma PathSnoc(start: Pos, actions: seq<Direction>)
    requires actions != []
    ensures Path(start, actions) == Path(start, actions[..|actions| - 1]) + [End(start, actions)]
  {
    var prefix := actions[..|actions| - 1];
    forall i | 0 <= i < |prefix| ensures Path(start, actions)[i] == Path(start, prefix)[i] {
      assert actions[..i + 1] == prefix[..i + 1];
    }
    assert actions[..|actions|] == actions;
  }

  /**
   * Replay succeeds exactly when no cell on the path is a wall, and then it
   * reaches the end of the path having paid costFn for every cell entered.
   */
  lemma {:induction false} ReplayIsPathSum(walls: Cells, costFn: Pos -> int, start: Pos, actions: seq<Direction>)
    requires Enclosed(walls) && Interior(walls, start)
    ensures var path := Path(start, actions);
            Replay(walls, costFn, start, actions).Some? <==> forall i :: 0 <= i < |path| ==> Open(walls, path[i])
    ensures Replay(walls, costFn, start, actions).Some? ==>
              Replay(walls, costFn, start, actions).value == (End(start, actions), SumCosts(costFn, Path(start, actions)))
  {
    if actions != [] {
      var prefix := actions[..|actions| - 1];
      ReplayIsPathSum(walls, costFn, start, prefix);
      PathSnoc(start, actions);
      var path, before := Path(start, actions), Path(start, prefix);
      assert forall i :: 0 <= i < |before| ==> path[i] == before[i];
      assert path[..|path| - 1] == before;
      match Replay(walls, costFn, start, prefix)
      case None =>
        var i :| 0 <= i < |before| && !Open(walls, before[i]);
        assert !Open(walls, path[i]);
      case Some((p, cost)) =>
        InteriorNeighbours(walls, p);
        var q := End(start, actions);
        if At(walls, q) {
          assert !Open(walls, path[|path| - 1]);
        }
    }
  }

  /**
   * getCostOfActions: 999999 for no plan or for a plan that enters a wall,
   * 0 for the empty plan, otherwise the sum of costFn over the cells entered.
   */
  lemma CostOfActionsFacts(walls: Cells, costFn: Pos -> int, start: Pos, actions: seq<Direction>)
    requires Enclosed(walls) && Interior(walls, start)
    ensures CostOfActions(walls, costFn, start, None) == Infeasible
    ensures CostOfActions(walls, costFn, start, Some([])) == 0
    ensures var path := Path(start, actions);
            (exists i :: 0 <= i < |path| && !Open(walls, path[i])) ==>
              CostOfActions(walls, costFn, start, Some(actions)) == Infeasible
    ensures var path := Path(start, actions);
            (forall i :: 0 <= i < |path| ==> Open(walls, path[i])) ==>
              CostOfActions(walls, costFn, start, Some(actions)) == SumCosts(costFn, path)
  {
    ReplayIsPathSum(walls, costFn, start, actions);
  }

  // ---------------------------------------------------------------------------
  // getSuccessors

  /** The triples of SimpleSurvivorProblem.getSuccessors for the first n moves of Compass. */
  function SimpleSuccessorsUpTo(walls: Cells, costFn: Pos -> int, p: Pos, n: nat): seq<Successor<Pos>>
    requires Interior(walls, p) && n <= |Compass|
  {
    if n == 0 then []
    else
      InteriorNeighbours(walls, p);
      var q := GetSuccessor(p, Compass[n - 1]);
      SimpleSuccessorsUpTo(walls, costFn, p, n - 1) +
        (if !At(walls, q) then [Successor(q, Compass[n - 1], costFn(q))] else [])
  }

  function SimpleSuccessors(walls: Cells, costFn: Pos -> int, p: Pos): seq<Successor<Pos>>
    requires Interior(walls, p)
  {
    SimpleSuccessorsUpTo(walls, costFn, p, |Compass|)
  }

  /** The moves are listed in the order North, South, East, West, each at most once. */
  predicate InCompassOrder<S>(succs: seq<Successor<S>>) {
    forall i, j :: 0 <= i < j < |succs| ==> Rank(succs[i].action) < Rank(succs[j].action)
  }

  lemma {:induction false} SimpleSuccessorsUpToSound(walls: Cells, costFn: Pos -> int, p: Pos, n: nat)
    requires Interior(walls, p) && n <= |Compass|
    ensures forall d :: InBox(walls, GetSuccessor(p, d))
    ensures var r := SimpleSuccessorsUpTo(walls, costFn, p, n);
            && |r| <= n
            && InCompassOrder(r)
            && (forall i :: 0 <= i < |r| ==>
                  && Rank(r[i].action) < n
                  && r[i].state == GetSuccessor(p, r[i].action)
                  && !At(walls, r[i].state)
                  && r[i].cost == costFn(r[i].state))
  {
    InteriorNeighbours(walls, p);
    if n > 0 {
      SimpleSuccessorsUpToSound(walls, costFn, p, n - 1);
      assert Rank(Compass[n - 1]) == n - 1;
    }
  }

  lemma {:induction false} SimpleSuccessorsUpToComplete(walls: Cells, costFn: Pos -> int, p: Pos, n: nat, d: Direction)
    requires Interior(walls, p) && n <= |Compass|
    requires Rank(d) < n
    ensures InBox(walls, GetSuccessor(p, d))
    ensures !At(walls, GetSuccessor(p, d)) ==>
              exists i :: 0 <= i < |SimpleSuccessorsUpTo(walls, costFn, p, n)| &&
                          SimpleSuccessorsUpTo(walls, costFn, p, n)[i].action == d
  {
    InteriorNeighbours(walls, p);
    var r := SimpleSuccessorsUpTo(walls, costFn, p, n);
    if Rank(d) < n - 1 {
      SimpleSuccessorsUpToComplete(walls, costFn, p, n - 1, d);
      var prev := SimpleSuccessorsUpTo(walls, costFn, p, n - 1);
      if !At(walls, GetSuccessor(p, d)) {
        var i :| 0 <= i < |prev| && prev[i].action == d;
        assert r[i] == prev[i];
      }
    } else {
      assert Compass[n - 1] == d;
      if !At(walls, GetSuccessor(p, d)) {
        assert r[|r| - 1].action == d;
      }
    }
  }

  /**
   * SimpleSurvivorProblem.getSuccessors: at most four triples, in the order
   * North, South, East, West; each for a cell that is not a wall, one unit
   * step away, at the cost costFn gives that cell; and every such move is
   * listed.
   */
  lemma SimpleSuccessorsFacts(walls: Cells, costFn: Pos -> int, p: Pos)
    requires Interior(walls, p)
    ensures var r := SimpleSuccessors(walls, costFn, p);
            && |r| <= 4
            && InCompassOrder(r)
            && (forall i :: 0 <= i < |r| ==>
                  && r[i].action != Stop
                  && r[i].state == GetSuccessor(p, r[i].action)
                  && Open(walls, r[i].state)
                  && Manhattan(p, r[i].state) == 1
                  && r[i].cost == costFn(r[i].state))
            && (forall d :: d != Stop ==>
                  ((exists i :: 0 <= i < |r| && r[i].action == d) <==> !At(walls, GetSuccessor(p, d))))
  {
    SimpleSuccessorsUpToSound(walls, costFn, p, |Compass|);
    var r := SimpleSuccessors(walls, costFn, p);
    forall d | d != Stop && !At(walls, GetSuccessor(p, d))
      ensures exists i :: 0 <= i < |r| && r[i].action == d
    {
      SimpleSuccessorsUpToComplete(walls, costFn, p, |Compass|, d);
    }
    forall i | 0 <= i < |r| ensures Manhattan(p, r[i].state) == 1 {
      SuccessorThenReverse(p, r[i].action);
    }
  }

  /** The triples of MultiSurvivorProblem.getSuccessors, on the survivor grid as a value. */
  function MultiSuccessorsUpTo(walls: Cells, terrain: map<Pos, char>, p: Pos, survivors: Cells, n: nat): seq<Successor<(Pos, Cells)>>
    requires Interior(walls, p) && Rect(survivors, |walls|, Height(walls)) && n <= |Compass|
  {
    if n == 0 then []
    else
      InteriorNeighbours(walls, p);
      var q := GetSuccessor(p, Compass[n - 1]);
      MultiSuccessorsUpTo(walls, terrain, p, survivors, n - 1) +
        (if !At(walls, q) then [Successor((q, Updated(survivors, q, false)), Compass[n - 1], TerrainCostAt(terrain, q))] else [])
  }

  /** One more direction of the compass. */
  lemma MultiSuccessorsUpToSnoc(walls: Cells, terrain: map<Pos, char>, p: Pos, survivors: Cells, n: nat)
    requires Interior(walls, p) && Rect(survivors, |walls|, Height(walls)) && n < |Compass|
    ensures InBox(walls, GetSuccessor(p, Compass[n]))
    ensures var q := GetSuccessor(p, Compass[n]);
            MultiSuccessorsUpTo(walls, terrain, p, survivors, n + 1) ==
              MultiSuccessorsUpTo(walls, terrain, p, survivors, n) +
              (if !At(walls, q) then [Successor((q, Updated(survivors, q, false)), Compass[n], TerrainCostAt(terrain, q))] else [])
  {
    InteriorNeighbours(walls, p);
  }

  function MultiSuccessors(walls: Cells, terrain: map<Pos, char>, p: Pos, survivors: Cells): seq<Successor<(Pos, Cells)>>
    requires Interior(walls, p) && Rect(survivors, |walls|, Height(walls))
  {
    MultiSuccessorsUpTo(walls, terrain, p, survivors, |Compass|)
  }

  lemma {:induction false} MultiSuccessorsUpToAgree(walls: Cells, terrain: map<Pos, char>, p: Pos, survivors: Cells, n: nat)
    requires Interior(walls, p) && Rect(survivors, |walls|, Height(walls)) && n <= |Compass|
    ensures var r := MultiSuccessorsUpTo(walls, terrain, p, survivors, n);
            var s := SimpleSuccessorsUpTo(walls, TerrainCostFn(terrain), p, n);
            |r| == |s| &&
            forall i :: 0 <= i < |r| ==>
              && r[i].state.0 == s[i].state && r[i].action == s[i].action && r[i].cost == s[i].cost
              && InBox(survivors, s[i].state)
              && r[i].state.1 == Updated(survivors, s[i].state, false)
  {
    InteriorNeighbours(walls, p);
    if n > 0 {
      MultiSuccessorsUpToAgree(walls, terrain, p, survivors, n - 1);
    }
  }

  /**
   * MultiSurvivorProblem.getSuccessors makes the moves of the simple problem
   * with terrain costs; each successor's grid is the parent's with only the
   * destination cleared, so the count never rises and drops by at most one.
   */
  lemma MultiSuccessorsFacts(walls: Cells, terrain: map<Pos, char>, p: Pos, survivors: Cells)
    requires Interior(walls, p) && Rect(survivors, |walls|, Height(walls))
    ensures var r := MultiSuccessors(walls, terrain, p, survivors);
            var s := SimpleSuccessors(walls, TerrainCostFn(terrain), p);
            && |r| == |s|
            && (forall i :: 0 <= i < |r| ==>
                  && r[i].state.0 == s[i].state && r[i].action == s[i].action && r[i].cost == s[i].cost
                  && Rect(r[i].state.1, |walls|, Height(walls))
                  && InBox(survivors, r[i].state.0) && InBox(r[i].state.1, r[i].state.0)
                  && !At(r[i].state.1, r[i].state.0)
                  && (forall q :: InBox(survivors, q) && q != r[i].state.0 ==> At(r[i].state.1, q) == At(survivors, q))
                  && Count(r[i].state.1, true) <= Count(survivors, true) <= Count(r[i].state.1, true) + 1)
  {
    MultiSuccessorsUpToAgree(walls, terrain, p, survivors, |Compass|);
    SimpleSuccessorsFacts(walls, TerrainCostFn(terrain), p);
    var r := MultiSuccessors(walls, terrain, p, survivors);
    forall i | 0 <= i < |r|
      ensures Count(r[i].state.1, true) <= Count(survivors, true) <= Count(r[i].state.1, true) + 1
    {
      CountAfterWrite(survivors, true, r[i].state.0, false);
    }
  }

  // ---------------------------------------------------------------------------
  // Following a plan through getSuccessors

  /** The first triple whose action is d. */
  function Lookup<S>(succs: seq<Successor<S>>, d: Direction): (r: Option<Successor<S>>)
    ensures r.Some? ==> r.value in succs && r.value.action == d
    ensures r.None? ==> forall i :: 0 <= i < |succs| ==> succs[i].action != d
  {
    if succs == [] then None
    else if succs[0].action == d then Some(succs[0])
    else Lookup(succs[1..], d)
  }

  /** In a list in compass order, the triple for an action is the only one. */
  lemma {:induction false} LookupFindsIt<S>(succs: seq<Successor<S>>, i: int)
    requires InCompassOrder(succs) && 0 <= i < |succs|
    ensures Lookup(succs, succs[i].action) == Some(succs[i])
  {
    if i > 0 {
      assert Rank(succs[0].action) < Rank(succs[i].action);
      assert succs[1..][i - 1] == succs[i];
      LookupFindsIt(succs[1..], i - 1);
    }
  }

  /**
   * The position reached and the step costs summed when the actions are
   * followed through SimpleSurvivorProblem.getSuccessors, or None when an
   * action has no triple.
   */
  function SimpleChain(walls: Cells, costFn: Pos -> int, start: Pos, actions: seq<Direction>): (r: Option<(Pos, int)>)
    requires Enclosed(walls) && Interior(walls, start)
    ensures r.Some? ==> Interior(walls, r.value.0)
  {
    if actions == [] then Some((start, 0))
    else
      match SimpleChain(walls, costFn, start, actions[..|actions| - 1])
      case None => None
      case Some((p, cost)) =>
        match Lookup(SimpleSuccessors(walls, costFn, p), actions[|actions| - 1])
        case None => None
        case Some(t) =>
          SimpleSuccessorsFacts(walls, costFn, p);
          OpenIsInterior(walls, t.state);
          Some((t.state, cost + t.cost))
  }

  /**
   * For a plan of moves (no Stop), getCostOfActions is the sum of the step
   * costs along the getSuccessors chain, and either both follow the plan
   * to the same cell or neither does.
   */
  lemma {:induction false} SimpleChainIsReplay(walls: Cells, costFn: Pos -> int, start: Pos, actions: seq<Direction>)
    requires Enclosed(walls) && Interior(walls, start) && Stop !in actions
    ensures var c := SimpleChain(walls, costFn, start, actions);
            var r := Replay(walls, costFn, start, actions);
            && (c.Some? <==> r.Some?)
            && (c.Some? ==> c.value.0 == r.value.0 && c.value.1 == r.value.1)
  {
    if actions != [] {
      var prefix, d := actions[..|actions| - 1], actions[|actions| - 1];
      assert Stop !in prefix by {
        forall i | 0 <= i < |prefix| ensures prefix[i] != Stop {
          assert prefix[i] == actions[i];
        }
      }
      SimpleChainIsReplay(walls, costFn, start, prefix);
      SimpleChainSnoc(walls, costFn, start, actions);
      var r := Replay(walls, costFn, start, prefix);
      if r.Some? {
        ReplaySnoc(walls, costFn, start, actions, r.value.0, r.value.1);
      }
    }
  }

  /** One more action on the single-survivor chain. */
  lemma SimpleChainSnoc(walls: Cells, costFn: Pos -> int, start: Pos, actions: seq<Direction>)
    requires Enclosed(walls) && Interior(walls, start)
    requires actions != [] && actions[|actions| - 1] != Stop
    ensures var before := SimpleChain(walls, costFn, start, actions[..|actions| - 1]);
            var after := SimpleChain(walls, costFn, start, actions);
            && (before.None? ==> after.None?)
            && (before.Some? ==>
                  var q := GetSuccessor(before.value.0, actions[|actions| - 1]);
                  && InBox(walls, q)
                  && (after.Some? <==> !At(walls, q))
                  && (after.Some? ==> after.value.0 == q && after.value.1 == before.value.1 + costFn(q)))
  {
    match SimpleChain(walls, costFn, start, actions[..|actions| - 1])
    case None =>
    case Some((p, cost)) =>
      SimpleLookup(walls, costFn, p, actions[|actions| - 1]);
  }

  /** The same, following MultiSurvivorProblem.getSuccessors and carrying the survivor grid. */
  function MultiChain(walls: Cells, terrain: map<Pos, char>, start: Pos, survivors: Cells, actions: seq<Direction>): (r: Option<((Pos, Cells), int)>)
    requires Enclosed(walls) && Interior(walls, start) && Rect(survivors, |walls|, Height(walls))
    ensures r.Some? ==> Interior(walls, r.value.0.0) && Rect(r.value.0.1, |walls|, Height(walls))
  {
    if actions == [] then Some(((start, survivors), 0))
    else
      match MultiChain(walls, terrain, start, survivors, actions[..|actions| - 1])
      case None => None
      case Some(((p, left), cost)) =>
        match Lookup(MultiSuccessors(walls, terrain, p, left), actions[|actions| - 1])
        case None => None
        case Some(t) =>
          MultiSuccessorsFacts(walls, terrain, p, left);
          SimpleSuccessorsFacts(walls, TerrainCostFn(terrain), p);
          OpenIsInterior(walls, t.state.0);
          Some((t.state, cost + t.cost))
  }

  /**
   * MultiSurvivorProblem.getCostOfActions of a plan of moves is the sum of
   * the step costs along its getSuccessors chain, and the survivor count at
   * the end of the chain is at most the starting count.
   */
  lemma {:induction false} MultiChainIsReplay(walls: Cells, terrain: map<Pos, char>, start: Pos, survivors: Cells, actions: seq<Direction>)
    requires Enclosed(walls) && Interior(walls, start) && Rect(survivors, |walls|, Height(walls)) && Stop !in actions
    ensures var m := MultiChain(walls, terrain, start, survivors, actions);
            var r := Replay(walls, TerrainCostFn(terrain), start, actions);
            && (m.Some? <==> r.Some?)
            && (m.Some? ==> m.value.0.0 == r.value.0 && m.value.1 == r.value.1)
            && (m.Some? ==> Count(m.value.0.1, true) <= Count(survivors, true))
  {
    if actions != [] {
      var prefix, d := actions[..|actions| - 1], actions[|actions| - 1];
      assert Stop !in prefix by {
        forall i | 0 <= i < |prefix| ensures prefix[i] != Stop {
          assert prefix[i] == actions[i];
        }
      }
      MultiChainIsReplay(walls, terrain, start, survivors, prefix);
      MultiChainSnoc(walls, terrain, start, survivors, actions);
      match Replay(walls, TerrainCostFn(terrain), start, prefix)
      case None =>
      case Some((p, cost)) =>
        InteriorNeighbours(walls, p);
    }
  }

  /** One more action on the multi-survivor chain. */
  lemma MultiChainSnoc(walls: Cells, terrain: map<Pos, char>, start: Pos, survivors: Cells, actions: seq<Direction>)
    requires Enclosed(walls) && Interior(walls, start) && Rect(survivors, |walls|, Height(walls))
    requires actions != [] && actions[|actions| - 1] != Stop
    ensures var before := MultiChain(walls, terrain, start, survivors, actions[..|actions| - 1]);
            var after := MultiChain(walls, terrain, start, survivors, actions);
            && (before.None? ==> after.None?)
            && (before.Some? ==>
                  var q := GetSuccessor(before.value.0.0, actions[|actions| - 1]);
                  && InBox(walls, q)
                  && (after.Some? <==> !At(walls, q))
                  && (after.Some? ==>
                        && after.value.0.0 == q
                        && after.value.1 == before.value.1 + TerrainCostAt(terrain, q)
                        && Count(after.value.0.1, true) <= Count(before.value.0.1, true)))
  {
    match MultiChain(walls, terrain, start, survivors, actions[..|actions| - 1])
    case None =>
    case Some(((p, left), cost)) =>
      MultiLookup(walls, terrain, p, left, actions[|actions| - 1]);
  }

  /** Two lists with the same actions in the same places have their triple for d in the same place. */
  lemma {:induction false} LookupAlong<S, T>(r: seq<Successor<S>>, t: seq<Successor<T>>, d: Direction)
    requires |r| == |t| && forall i :: 0 <= i < |r| ==> r[i].action == t[i].action
    ensures Lookup(r, d).Some? <==> Lookup(t, d).Some?
    ensures Lookup(r, d).Some? ==>
              exists i :: 0 <= i < |r| && Lookup(r, d) == Some(r[i]) && Lookup(t, d) == Some(t[i])
  {
    if r != [] && r[0].action != d {
      LookupAlong(r[1..], t[1..], d);
      if Lookup(r, d).Some? {
        var i :| 0 <= i < |r| - 1 && Lookup(r[1..], d) == Some(r[1..][i]) && Lookup(t[1..], d) == Some(t[1..][i]);
        assert Lookup(r, d) == Some(r[i + 1]) && Lookup(t, d) == Some(t[i + 1]);
      }
    }
  }

  /** The triple SimpleSurvivorProblem.getSuccessors offers for a move d, if any. */
  lemma SimpleLookup(walls: Cells, costFn: Pos -> int, p: Pos, d: Direction)
    requires Interior(walls, p) && d != Stop
    ensures InBox(walls, GetSuccessor(p, d))
    ensures var q := GetSuccessor(p, d);
            var r := Lookup(SimpleSuccessors(walls, costFn, p), d);
            && (r.Some? <==> !At(walls, q))
            && (r.Some? ==> r.value == Successor(q, d, costFn(q)))
  {
    SimpleSuccessorsFacts(walls, costFn, p);
    var succs := SimpleSuccessors(walls, costFn, p);
    if exists i :: 0 <= i < |succs| && succs[i].action == d {
      var i :| 0 <= i < |succs| && succs[i].action == d;
      LookupFindsIt(succs, i);
    }
  }

  /** The triple MultiSurvivorProblem.getSuccessors offers for a move d, if any. */
  lemma MultiLookup(walls: Cells, terrain: map<Pos, char>, p: Pos, left: Cells, d: Direction)
    requires Interior(walls, p) && Rect(left, |walls|, Height(walls)) && d != Stop
    ensures InBox(walls, GetSuccessor(p, d)) && InBox(left, GetSuccessor(p, d))
    ensures var q := GetSuccessor(p, d);
            var r := Lookup(MultiSuccessors(walls, terrain, p, left), d);
            && (r.Some? <==> !At(walls, q))
            && (r.Some? ==>
                  && r.value.state == (q, Updated(left, q, false))
                  && r.value.cost == TerrainCostAt(terrain, q)
                  && Count(r.value.state.1, true) <= Count(left, true))
  {
    var q := GetSuccessor(p, d);
    InteriorNeighbours(walls, p);
    assert InBox(left, q) by {
      assert |left[q.x]| == Height(walls) == |walls[q.x]|;
    }
    MultiSuccessorsUpToAgree(walls, terrain, p, left, |Compass|);
    SimpleLookup(walls, TerrainCostFn(terrain), p, d);
    var succs := MultiSuccessors(walls, terrain, p, left);
    var simple := SimpleSuccessors(walls, TerrainCostFn(terrain), p);
    LookupAlong(succs, simple, d);
    CountAfterWrite(left, true, q, false);
  }

  // ---------------------------------------------------------------------------
  // Planning cost and execution cost

  /** The part of StepOutcome the cost theorem needs: where the rescuer goes and what it pays. */
  lemma StepMoves(w: Area, t: Snapshot, a: Direction)
    requires Placed(w, t)
    ensures InBox(w.walls, GetSuccessor(t.config.pos, a))
    ensures var q := GetSuccessor(t.config.pos, a);
            && (Step(w, t, a).Success? <==> !Terminal(t) && !At(w.walls, q))
            && (Step(w, t, a).Success? ==>
                  Step(w, t, a).value.config.pos == q &&
                  Step(w, t, a).value.cost == t.cost + TerrainCostAt(w.terrain, q))
  {
    StepOutcome(w, t, a);
  }

  /** Replay of a plan whose prefix reached p having paid cost. */
  lemma ReplaySnoc(walls: Cells, costFn: Pos -> int, start: Pos, actions: seq<Direction>, p: Pos, cost: int)
    requires Enclosed(walls) && Interior(walls, start) && actions != []
    requires var r := Replay(walls, costFn, start, actions[..|actions| - 1]);
             r.Some? && r.value.0 == p && r.value.1 == cost
    ensures InBox(walls, GetSuccessor(p, actions[|actions| - 1]))
    ensures var q := GetSuccessor(p, actions[|actions| - 1]);
            var r := Replay(walls, costFn, start, actions);
            && (r.Some? <==> !At(walls, q))
            && (r.Some? ==> r.value.0 == q && r.value.1 == cost + costFn(q))
  {
    InteriorNeighbours(walls, p);
    var q := GetSuccessor(p, actions[|actions| - 1]);
    if !At(walls, q) {
      OpenIsInterior(walls, q);
    }
  }

  /**
   * Executing actions one generateSuccessor at a time fails whenever the
   * path enters a wall, and when it succeeds it ends where the replay of
   * getCostOfActions with the default costFn ends, having added exactly the
   * replayed cost.
   */
  lemma {:induction false} RunMatchesReplay(w: Area, s: Snapshot, actions: seq<Direction>)
    requires Placed(w, s) && Interior(w.walls, s.config.pos)
    ensures Replay(w.walls, TerrainCostFn(w.terrain), s.config.pos, actions).None? ==> Run(w, s, actions).Failure?
    ensures Run(w, s, actions).Success? ==>
              var r := Replay(w.walls, TerrainCostFn(w.terrain), s.config.pos, actions);
              r.Some? && r.value.0 == Run(w, s, actions).value.config.pos &&
              r.value.1 == Run(w, s, actions).value.cost - s.cost
  {
    if actions != [] {
      var prefix := actions[..|actions| - 1];
      var a := actions[|actions| - 1];
      RunMatchesReplay(w, s, prefix);
      match Run(w, s, prefix)
      case Failure(_) =>
      case Success(t) =>
        assert Run(w, s, actions) == Step(w, t, a);
        StepMoves(w, t, a);
        ReplaySnoc(w.walls, TerrainCostFn(w.terrain), s.config.pos, actions, t.config.pos, t.cost - s.cost);
    }
  }

  /**
   * The search cost is the game's cumulative cost: executing actions one
   * generateSuccessor at a time fails whenever the path enters a wall, and
   * when it succeeds it ends where getCostOfActions with the default costFn
   * ends and has added exactly that cost.
   */
  lemma {:induction false} ExecutionCostIsPlanCost(w: Area, s: Snapshot, actions: seq<Direction>)
    requires Placed(w, s) && Interior(w.walls, s.config.pos)
    ensures Replay(w.walls, TerrainCostFn(w.terrain), s.config.pos, actions).None? ==> Run(w, s, actions).Failure?
    ensures Run(w, s, actions).Success? ==>
              var r := Replay(w.walls, TerrainCostFn(w.terrain), s.config.pos, actions);
              r.Some? && r.value.0 == Run(w, s, actions).value.config.pos &&
              r.value.1 == Run(w, s, actions).value.cost - s.cost
    ensures Run(w, s, actions).Success? ==>
              Run(w, s, actions).value.cost ==
                s.cost + CostOfActions(w.walls, TerrainCostFn(w.terrain), s.config.pos, Some(actions))
  {
    RunMatchesReplay(w, s, actions);
  }

  /** Running the actions succeeds and ends in a won or lost state. */
  predicate HaltedAfter(w: Area, s: Snapshot, actions: seq<Direction>)
    requires Placed(w, s)
  {
    Run(w, s, actions).Success? && Terminal(Run(w, s, actions).value)
  }

  /** Some proper prefix of the plan already ends in a won or lost state. */
  predicate StoppedEarly(w: Area, s: Snapshot, actions: seq<Direction>)
    requires Placed(w, s)
  {
    exists k :: 0 <= k < |actions| && HaltedAfter(w, s, actions[..k])
  }

  lemma StoppedEarlySnoc(w: Area, s: Snapshot, actions: seq<Direction>)
    requires Placed(w, s) && actions != []
    ensures var prefix := actions[..|actions| - 1];
            StoppedEarly(w, s, actions) <==> StoppedEarly(w, s, prefix) || HaltedAfter(w, s, prefix)
  {
    var prefix := actions[..|actions| - 1];
    if StoppedEarly(w, s, actions) {
      var k :| 0 <= k < |actions| && HaltedAfter(w, s, actions[..k]);
      PrefixOfPrefix(actions, k);
    }
    if StoppedEarly(w, s, prefix) {
      var k :| 0 <= k < |prefix| && HaltedAfter(w, s, prefix[..k]);
      PrefixOfPrefix(actions, k);
      assert HaltedAfter(w, s, actions[..k]);
    }
    if HaltedAfter(w, s, prefix) {
      PrefixOfPrefix(actions, |prefix|);
      assert HaltedAfter(w, s, actions[..|prefix|]);
    }
  }

  /** The first k actions of a plan are the first k of the plan without its last action, or that whole. */
  lemma PrefixOfPrefix(actions: seq<Direction>, k: nat)
    requires k < |actions|
    ensures k < |actions| - 1 ==> actions[..k] == actions[..|actions| - 1][..k]
    ensures k == |actions| - 1 ==> actions[..k] == actions[..|actions| - 1]
  {
  }

  /**
   * Execution stops short exactly when the path enters a wall or the plan
   * goes on from a state that is already won or lost.
   */
  lemma {:induction false} RunFailsExactly(w: Area, s: Snapshot, actions: seq<Direction>)
    requires Placed(w, s) && Interior(w.walls, s.config.pos)
    ensures Run(w, s, actions).Failure? <==>
              Replay(w.walls, TerrainCostFn(w.terrain), s.config.pos, actions).None? || StoppedEarly(w, s, actions)
  {
    if actions != [] {
      var prefix := actions[..|actions| - 1];
      RunFailsExactly(w, s, prefix);
      RunMatchesReplay(w, s, prefix);
      StoppedEarlySnoc(w, s, actions);
      match Run(w, s, prefix)
      case Failure(_) =>
      case Success(t) =>
        var a := actions[|actions| - 1];
        var q := GetSuccessor(t.config.pos, a);
        assert Run(w, s, actions) == Step(w, t, a);
        StepMoves(w, t, a);
        InteriorNeighbours(w.walls, t.config.pos);
        assert Replay(w.walls, TerrainCostFn(w.terrain), s.config.pos, actions).None? <==> At(w.walls, q);
    }
  }

  // ---------------------------------------------------------------------------
  // SimpleSurvivorProblem

  /** The goal: the only survivor when there is exactly one, the fallback otherwise. */
  function AutoGoal(survivors: seq<Pos>, fallback: Pos): Pos {
    if |survivors| == 1 then survivors[0] else fallback
  }

  /**
   * With exactly one survivor on the grid the goal is that survivor's cell;
   * with none or several it is the fallback.
   */
  lemma AutoGoalFacts(cells: Cells, fallback: Pos)
    ensures var goal := AutoGoal(Positions(cells, true), fallback);
            && (|CellSet(cells, true)| == 1 ==> CellSet(cells, true) == {goal})
            && (|CellSet(cells, true)| != 1 ==> goal == fallback)
  {
    PositionsFacts(cells, true);
    CountIsNumberOfCells(cells, true);
    var list := Positions(cells, true);
    if |CellSet(cells, true)| == 1 {
      assert list[0] in CellSet(cells, true) by {
        assert list[0] in list;
      }
      forall p | p in CellSet(cells, true) ensures p == list[0] {
        assert p in list;
      }
    }
  }

  lemma {:induction false} ReplayStaysFailed(walls: Cells, costFn: Pos -> int, start: Pos, actions: seq<Direction>, k: nat)
    requires Enclosed(walls) && Interior(walls, start) && k <= |actions|
    requires Replay(walls, costFn, start, actions[..k]).None?
    ensures Replay(walls, costFn, start, actions).None?
  {
    if k < |actions| {
      var prefix := actions[..|actions| - 1];
      assert prefix[..k] == actions[..k];
      ReplayStaysFailed(walls, costFn, start, prefix, k);
    } else {
      assert actions[..k] == actions;
    }
  }

  /** SimpleSurvivorProblem: find the one survivor; states are positions. */
  class SimpleSurvivorProblem {
    const walls: Grid
    const startState: Pos
    const goal: Pos
    const costFn: Pos -> int
    const visualize: bool
    /** _visited, a dictionary used as a set. */
    var visited: set<Pos>
    var visitedList: seq<Pos>
    var expanded: nat

    /** Every state marked visited is also in the visited list. */
    ghost predicate Valid()
      reads this, walls, walls.data
    {
      walls.Valid() && Enclosed(walls.Cells()) &&
      forall p :: p in visited ==> p in visitedList
    }

    /**
     * SimpleSurvivorProblem(rescueState, costFn, goal, start, warn, visualize):
     * the map's walls, the rescuer's position unless start overrides it, the
     * goal detected from the survivors, and terrain costs unless costFn is given.
     */
    constructor (rescueState: RescueState, costFn: Option<Pos -> int> := None, goal: Pos := Pos(1, 1),
                 start: Option<Pos> := None, visualize: bool := true)
      requires rescueState.Valid()
      ensures Valid()
      ensures walls == rescueState.data.layout.walls
      ensures startState == start.GetOr(rescueState.GetRescuerPosition())
      ensures this.goal == AutoGoal(Positions(rescueState.data.survivors.Cells(), true), goal)
      ensures this.costFn == costFn.GetOr(TerrainCostFn(rescueState.GetArea().terrain))
      ensures this.visualize == visualize
      ensures visited == {} && visitedList == [] && expanded == 0
    {
      var survivors := rescueState.data.survivors.AsList(true);
      var fn: Pos -> int := if costFn.Some? then costFn.value else TerrainCostFn(rescueState.data.layout.terrain);
      walls := rescueState.data.layout.walls;
      startState := if start.Some? then start.value else rescueState.GetRescuerPosition();
      this.goal := if |survivors| == 1 then survivors[0] else goal;
      this.costFn := fn;
      this.visualize := visualize;
      visited := {};
      visitedList := [];
      expanded := 0;
    }

    /** isGoalState(state): the state is the goal; a goal is added to the visited list when visualizing. */
    method IsGoalState(state: Pos) returns (isGoal: bool)
      requires Valid()
      modifies this
      ensures Valid()
      ensures isGoal <==> state == goal
      ensures visitedList == old(visitedList) + (if isGoal && visualize then [state] else [])
      ensures visited == old(visited) && expanded == old(expanded)
    {
      isGoal := state == goal;
      if isGoal && visualize {
        visitedList := visitedList + [state];
      }
    }

    /**
     * getSuccessors(state): the triples of SimpleSuccessors; the expansion
     * is counted, and the state is listed as visited the first time only.
     */
    method GetSuccessors(state: Pos) returns (successors: seq<Successor<Pos>>)
      requires Valid() && Interior(walls.Cells(), state)
      modifies this
      ensures Valid()
      ensures successors == SimpleSuccessors(walls.Cells(), costFn, state)
      ensures expanded == old(expanded) + 1
      ensures visited == old(visited) + {state}
      ensures visitedList == old(visitedList) + (if state in old(visited) then [] else [state])
    {
      InteriorNeighbours(walls.Cells(), state);
      successors := [];
      for i := 0 to |Compass|
        invariant successors == SimpleSuccessorsUpTo(walls.Cells(), costFn, state, i)
      {
        var x, y := state.x, state.y;
        var v := DirectionToVector(Compass[i]);
        var nextx, nexty := x + v.dx, y + v.dy;
        if !walls.Get(nextx, nexty) {
          var nextState := Pos(nextx, nexty);
          var cost := costFn(nextState);
          successors := successors + [Successor(nextState, Compass[i], cost)];
        }
      }
      expanded := expanded + 1;
      if state !in visited {
        visited := visited + {state};
        visitedList := visitedList + [state];
      }
    }

    /** getCostOfActions(actions): CostOfActions from the start state with this problem's costFn. */
    method GetCostOfActions(actions: Option<seq<Direction>>) returns (cost: int)
      requires Valid() && Interior(walls.Cells(), startState)
      ensures cost == CostOfActions(walls.Cells(), costFn, startState, actions)
    {
      if actions.None? {
        return Infeasible;
      }
      var acts := actions.value;
      ghost var cells := walls.Cells();
      var x, y := startState.x, startState.y;
      cost := 0;
      for i := 0 to |acts|
        invariant var r := Replay(cells, costFn, startState, acts[..i]);
                  r.Some? && r.value.0 == Pos(x, y) && r.value.1 == cost
      {
        TakeTake(acts, i, i + 1);
        ReplaySnoc(cells, costFn, startState, acts[..i + 1], Pos(x, y), cost);
        var v := DirectionToVector(acts[i]);
        x, y := x + v.dx, y + v.dy;
        if walls.Get(x, y) {
          ReplayStaysFailed(cells, costFn, startState, acts, i + 1);
          return Infeasible;
        }
        cost := cost + costFn(Pos(x, y));
      }
      TakeAll(acts);
    }
  }

  // ---------------------------------------------------------------------------
  // MultiSurvivorProblem

  /** A MultiSurvivorProblem state: the rescuer's position and a survivor grid object. */
  datatype MultiState = MultiState(pos: Pos, survivors: Grid)

  /** A successor built by MultiSurvivorProblem.getSuccessors agrees with the triple t of the specification. */
  ghost predicate Built(s: Successor<MultiState>, t: Successor<(Pos, Cells)>)
    reads s.state.survivors, s.state.survivors.data
  {
    && s.action == t.action && s.cost == t.cost && s.state.pos == t.state.0
    && s.state.survivors.Valid() && s.state.survivors.Cells() == t.state.1
  }

  /** MultiSurvivorProblem: rescue every survivor; states carry the survivor grid. */
  class MultiSurvivorProblem {
    const start: MultiState
    const walls: Grid
    /** The layout of the starting mission state, through which terrain costs are read. */
    const layout: RescueLayout
    var expanded: nat

    ghost predicate Valid()
      reads this, walls, walls.data
    {
      walls.Valid() && Enclosed(walls.Cells()) && Interior(walls.Cells(), start.pos)
    }

    /**
     * MultiSurvivorProblem(startingMissionState): the start pairs the
     * rescuer's position with the mission state's own survivor grid object.
     */
    constructor (startingMissionState: RescueState)
      requires startingMissionState.Valid()
      ensures Valid()
      ensures start == MultiState(startingMissionState.GetRescuerPosition(), startingMissionState.data.survivors)
      ensures walls == startingMissionState.data.layout.walls && layout == startingMissionState.data.layout
      ensures expanded == 0
    {
      start := MultiState(startingMissionState.GetRescuerPosition(), startingMissionState.data.survivors);
      walls := startingMissionState.data.layout.walls;
      layout := startingMissionState.data.layout;
      expanded := 0;
      OpenIsInterior(startingMissionState.GetArea().walls, startingMissionState.Snap().config.pos);
    }

    /** isGoalState(state): no survivor is left on the state's grid. */
    function IsGoalState(state: MultiState): (b: bool)
      reads state.survivors, state.survivors.data
      ensures b <==> forall p :: InBox(state.survivors.Cells(), p) ==> !At(state.survivors.Cells(), p)
      ensures b <==> CellSet(state.survivors.Cells(), true) == {}
    {
      var c := state.survivors.Cells();
      var n := state.survivors.Count(true);
      assert n == 0 <==> forall p :: InBox(c, p) ==> !At(c, p) by {
        if n != 0 {
          var p :| p in CellSet(c, true);
          assert InBox(c, p) && At(c, p);
        } else {
          forall p | InBox(c, p) ensures !At(c, p) {
            assert At(c, p) ==> p in CellSet(c, true);
          }
        }
      }
      n == 0
    }

    /**
     * getSuccessors(state): for each triple of MultiSuccessors, a successor
     * with a new grid of its own, copied from the parent with the destination
     * cleared; the parent's grid is left as it was, and the expansion is counted.
     */
    method GetSuccessors(state: MultiState) returns (successors: seq<Successor<MultiState>>)
      requires Valid() && Interior(walls.Cells(), state.pos)
      requires state.survivors.Valid() && state.survivors.width == walls.width && state.survivors.height == walls.height
      modifies this
      ensures expanded == old(expanded) + 1
      ensures state.survivors.Cells() == old(state.survivors.Cells())
      ensures var spec := MultiSuccessors(walls.Cells(), layout.terrain, state.pos, state.survivors.Cells());
              |successors| == |spec| && forall i :: 0 <= i < |successors| ==> Built(successors[i], spec[i])
      ensures forall i :: 0 <= i < |successors| ==>
                fresh(successors[i].state.survivors) && fresh(successors[i].state.survivors.data)
      ensures forall i, j :: 0 <= i < j < |successors| ==>
                successors[i].state.survivors.data != successors[j].state.survivors.data
    {
      ghost var cells := state.survivors.Cells();
      ghost var w := walls.Cells();
      InteriorNeighbours(w, state.pos);
      assert Rect(cells, |w|, Height(w));
      successors := [];
      expanded := expanded + 1;
      for i := 0 to |Compass|
        invariant expanded == old(expanded) + 1
        invariant state.survivors.Cells() == cells
        invariant |successors| == |MultiSuccessorsUpTo(w, layout.terrain, state.pos, cells, i)|
        invariant forall k :: 0 <= k < |successors| ==>
                    Built(successors[k], MultiSuccessorsUpTo(w, layout.terrain, state.pos, cells, i)[k])
        invariant forall k :: 0 <= k < |successors| ==>
                    fresh(successors[k].state.survivors) && fresh(successors[k].state.survivors.data)
        invariant forall k, j :: 0 <= k < j < |successors| ==>
                    successors[k].state.survivors.data != successors[j].state.survivors.data
      {
        var next := Expand(state, Compass[i]);
        MultiSuccessorsUpToSnoc(w, layout.terrain, state.pos, cells, i);
        if next.Some? {
          successors := successors + [next.value];
        }
      }
    }

    /**
     * One round of the getSuccessors loop: the successor for a move d, with a
     * new grid copied from the state's and the destination cleared, or None
     * when the destination is a wall.
     */
    method Expand(state: MultiState, d: Direction) returns (next: Option<Successor<MultiState>>)
      requires Valid() && Interior(walls.Cells(), state.pos)
      requires state.survivors.Valid() && state.survivors.width == walls.width && state.survivors.height == walls.height
      ensures InBox(walls.Cells(), GetSuccessor(state.pos, d))
      ensures var q := GetSuccessor(state.pos, d);
              && (next.Some? <==> !At(walls.Cells(), q))
              && (next.Some? ==>
                    && fresh(next.value.state.survivors) && fresh(next.value.state.survivors.data)
                    && Built(next.value, Successor((q, Updated(state.survivors.Cells(), q, false)), d, TerrainCostAt(layout.terrain, q))))
    {
      InteriorNeighbours(walls.Cells(), state.pos);
      var x, y := state.pos.x, state.pos.y;
      var v := DirectionToVector(d);
      var nextx, nexty := x + v.dx, y + v.dy;
      if walls.Get(nextx, nexty) {
        return None;
      }
      var nextSurvivors := CopyWithout(state.survivors, Pos(nextx, nexty));
      var stepCost := layout.GetTerrainCost(nextx, nexty);
      return Some(Successor(MultiState(Pos(nextx, nexty), nextSurvivors), d, stepCost));
    }

    /** getCostOfActions(actions): CostOfActions from the start position with terrain costs. */
    method GetCostOfActions(actions: seq<Direction>) returns (cost: int)
      requires Valid()
      ensures cost == CostOfActions(walls.Cells(), TerrainCostFn(layout.terrain), start.pos, Some(actions))
    {
      ghost var costFn := TerrainCostFn(layout.terrain);
      var x, y := start.pos.x, start.pos.y;
      cost := 0;
      for i := 0 to |actions|
        invariant var r := Replay(walls.Cells(), costFn, start.pos, actions[..i]);
                  r.Some? && r.value.0 == Pos(x, y) && r.value.1 == cost
      {
        TakeTake(actions, i, i + 1);
        ReplaySnoc(walls.Cells(), costFn, start.pos, actions[..i + 1], Pos(x, y), cost);
        var v := DirectionToVector(actions[i]);
        x, y := x + v.dx, y + v.dy;
        if walls.Get(x, y) {
          ReplayStaysFailed(walls.Cells(), costFn, start.pos, actions, i + 1);
          return Infeasible;
        }
        cost := cost + layout.GetTerrainCost(x, y);
      }
      TakeAll(actions);
    }
  }

  /** state[1].copy() followed by the write nextSurvivors[x][y] = False. */
  method CopyWithout(parent: Grid, q: Pos) returns (g: Grid)
    requires parent.Valid() && 0 <= q.x < parent.width && 0 <= q.y < parent.height
    ensures fresh(g) && fresh(g.data)
    ensures g.Valid() && g.width == parent.width && g.height == parent.height
    ensures g.Cells() == Updated(parent.Cells(), q, false)
  {
    g := parent.Copy();
    g.Set(q.x, q.y, false);
  }
}
