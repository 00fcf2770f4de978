/**
 * The execution side of a mission: agent states and the game state data
 * (SAR/SAR/world/game.py: AgentState, GameStateData), the rules that move the
 * rescuer and rescue survivors (world/rescue_rules.py) and the mission state
 * whose successors the game generates (SAR/SAR/world/rescue_state.py).
 *
 * What one move does is first stated on values (Snapshot, Step); the classes
 * then do it in place, and their methods are proved to agree with Step.
 */
module Rescue {
  import opened Wrappers
  import opened Geometry
  import opened BoolGrid
  import opened Grids
  import opened Moves
  import opened Layout

  /** The static map of a mission: its walls and its terrain dictionary. */
  datatype Area = Area(walls: Cells, terrain: map<Pos, char>)

  /** The part of a mission state that moves change. */
  datatype Snapshot = Snapshot(
    config: Configuration,   // the rescuer's configuration
    survivors: Cells,
    cost: int,               // cumulativeCost
    rescued: int,            // rescuedCount
    saved: Option<Pos>,      // survivorsSaved
    win: bool,
    lose: bool)

  /** The rescuer stands on a cell that is not a wall, on a survivor grid the size of the map. */
  predicate Placed(w: Area, s: Snapshot) {
    Enclosed(w.walls) && Open(w.walls, s.config.pos) &&
    Rect(s.survivors, |w.walls|, Height(w.walls))
  }

  predicate Terminal(s: Snapshot) {
    s.win || s.lose
  }

  /** RescueState.getLegalActions: nothing in a terminal state, otherwise getPossibleActions. */
  function LegalActions(w: Area, s: Snapshot): seq<Direction>
    requires Placed(w, s)
  {
    OpenIsInterior(w.walls, s.config.pos);
    if Terminal(s) then [] else PossibleActions(w.walls, s.config.pos)
  }

  /** GameStateData(prev): the flags and the last rescue are reset in the copy. */
  function CopyState(s: Snapshot): Snapshot {
    s.(saved := None, win := false, lose := false)
  }

  /** RescueRules.rescue at p. */
  function RescueAt(s: Snapshot, p: Pos): Snapshot
    requires InBox(s.survivors, p)
  {
    if At(s.survivors, p) then
      var left := Updated(s.survivors, p, false);
      s.(rescued := s.rescued + 1, saved := Some(p), survivors := left,
         win := if Count(left, true) == 0 && !s.lose then true else s.win)
    else s
  }

  /** RescueRules.applyAction: reject an illegal action, move, then rescue on arrival. */
  function ApplyActionTo(w: Area, s: Snapshot, a: Direction): Result<Snapshot>
    requires Placed(w, s)
  {
    OpenIsInterior(w.walls, s.config.pos);
    if a !in PossibleActions(w.walls, s.config.pos) then Failure("Illegal action")
    else
      var config := GenerateSuccessor(s.config, DirectionToVector(a));
      Success(RescueAt(s.(config := config), config.pos))
  }

  /**
   * RescueState.generateSuccessor: refuse a terminal state, apply the action
   * to a copy, then add the terrain cost of the cell the rescuer now stands on.
   */
  function Step(w: Area, s: Snapshot, a: Direction): (r: Result<Snapshot>)
    requires Placed(w, s)
    ensures r.Success? ==> Placed(w, r.value)
  {
    if Terminal(s) then Failure("Can't generate a successor of a terminal state.")
    else
      StepFacts(w, CopyState(s), a);
      match ApplyActionTo(w, CopyState(s), a)
      case Failure(e) => Failure(e)
      case Success(t) => Success(t.(cost := t.cost + TerrainCostAt(w.terrain, t.config.pos)))
  }

  /** A step from a state that is not terminal is applyAction on the copy, then the terrain cost of the cell reached. */
  lemma ChargedStep(w: Area, s: Snapshot, a: Direction)
    requires Placed(w, s) && !Terminal(s)
    ensures Placed(w, CopyState(s))
    ensures Step(w, s, a).Success? <==> ApplyActionTo(w, CopyState(s), a).Success?
    ensures Step(w, s, a).Success? ==>
              var t := ApplyActionTo(w, CopyState(s), a).value;
              Step(w, s, a).value == t.(cost := t.cost + TerrainCostAt(w.terrain, t.config.pos))
  {
  }

  /** What applyAction does to a placed, non-terminal state. */
  lemma StepFacts(w: Area, s: Snapshot, a: Direction)
    requires Placed(w, s)
    ensures forall d :: InBox(w.walls, GetSuccessor(s.config.pos, d))
    ensures var q := GetSuccessor(s.config.pos, a);
            var r := ApplyActionTo(w, s, a);
            && (r.Success? <==> !At(w.walls, q))
            && (r.Success? ==>
                  && r.value.config.pos == q
                  && Placed(w, r.value)
                  && r.value.cost == s.cost
                  && r.value.lose == s.lose)
  {
    OpenIsInterior(w.walls, s.config.pos);
    PossibleActionsFacts(w.walls, s.config.pos);
    VectorRoundTrip(a);
  }

  /** Executing a list of actions one generateSuccessor at a time from s. */
  function Run(w: Area, s: Snapshot, actions: seq<Direction>): (r: Result<Snapshot>)
    requires Placed(w, s)
    ensures r.Success? ==> Placed(w, r.value)
  {
    if actions == [] then Success(s)
    else
      match Run(w, s, actions[..|actions| - 1])
      case Failure(e) => Failure(e)
      case Success(t) => Step(w, t, actions[|actions| - 1])
  }

  // ---------------------------------------------------------------------------
  // Properties of one move

  /**
   * generateSuccessor fails exactly on a terminal state or a move into a wall;
   * otherwise the rescuer is one move further, the cost grows by the terrain
   * cost of the new cell, and a survivor there is rescued.
   */
  lemma StepOutcome(w: Area, s: Snapshot, a: Direction)
    requires Placed(w, s)
    ensures forall d :: InBox(w.walls, GetSuccessor(s.config.pos, d))
    ensures var q := GetSuccessor(s.config.pos, a);
            var r := Step(w, s, a);
            && (r.Failure? <==> Terminal(s) || At(w.walls, q))
            && (r.Success? ==>
                  && r.value.config.pos == q
                  && r.value.config.direction == (if a == Stop then s.config.direction else a)
                  && r.value.cost == s.cost + TerrainCostAt(w.terrain, q)
                  && r.value.lose == false
                  && (At(s.survivors, q) ==>
                        && r.value.survivors == Updated(s.survivors, q, false)
                        && r.value.rescued == s.rescued + 1
                        && r.value.saved == Some(q))
                  && (!At(s.survivors, q) ==>
                        && r.value.survivors == s.survivors
                        && r.value.rescued == s.rescued
                        && r.value.saved == None))
  {
    StepFacts(w, CopyState(s), a);
    VectorRoundTrip(a);
  }

  /**
   * A move never raises the survivor count and lowers it by at most one;
   * rescued plus remaining survivors stays the same; and the mission is won
   * exactly when this move rescued the last survivor.
   */
  lemma StepCounts(w: Area, s: Snapshot, a: Direction)
    requires Placed(w, s) && Step(w, s, a).Success?
    ensures var t := Step(w, s, a).value;
            && Count(t.survivors, true) <= Count(s.survivors, true) <= Count(t.survivors, true) + 1
            && t.rescued + Count(t.survivors, true) == s.rescued + Count(s.survivors, true)
            && (t.win <==> t.rescued == s.rescued + 1 && Count(t.survivors, true) == 0)
  {
    StepOutcome(w, s, a);
    var q := GetSuccessor(s.config.pos, a);
    if At(s.survivors, q) {
      CountAfterWrite(s.survivors, true, q, false);
    }
  }

  /** Over any run, rescuedCount plus the remaining survivors is the count the run started from. */
  lemma {:induction false} RunKeepsTotal(w: Area, s: Snapshot, actions: seq<Direction>)
    requires Placed(w, s) && Run(w, s, actions).Success?
    ensures var t := Run(w, s, actions).value;
            t.rescued + Count(t.survivors, true) == s.rescued + Count(s.survivors, true)
            && Count(t.survivors, true) <= Count(s.survivors, true)
  {
    if actions != [] {
      var prefix := actions[..|actions| - 1];
      RunKeepsTotal(w, s, prefix);
      StepCounts(w, Run(w, s, prefix).value, actions[|actions| - 1]);
    }
  }

  // ---------------------------------------------------------------------------
  // The objects

  /** AgentState: the start and current configuration of an agent. */
  class AgentState {
    const start: Configuration
    var configuration: Configuration
    var numCarrying: int
    var numReturned: int

    constructor (startConfiguration: Configuration)
      ensures start == startConfiguration && configuration == startConfiguration
      ensures numCarrying == 0 && numReturned == 0
    {
      start := startConfiguration;
      configuration := startConfiguration;
      numCarrying := 0;
      numReturned := 0;
    }

    /** AgentState.copy: a new object with the same fields. */
    method Copy() returns (a: AgentState)
      ensures fresh(a)
      ensures a.start == start && a.configuration == configuration
      ensures a.numCarrying == numCarrying && a.numReturned == numReturned
    {
      a := new AgentState(start);
      a.configuration := configuration;
      a.numCarrying := numCarrying;
      a.numReturned := numReturned;
    }
  }

  /** GameStateData.copyAgentStates: a fresh copy of every agent state, in order. */
  method CopyAgentStates(agentStates: seq<AgentState>) returns (copied: seq<AgentState>)
    ensures |copied| == |agentStates|
    ensures forall i :: 0 <= i < |copied| ==>
              fresh(copied[i]) && copied[i].configuration == agentStates[i].configuration &&
              copied[i].start == agentStates[i].start
  {
    copied := [];
    for i := 0 to |agentStates|
      invariant |copied| == i
      invariant forall j :: 0 <= j < i ==>
                  fresh(copied[j]) && copied[j].configuration == agentStates[j].configuration &&
                  copied[j].start == agentStates[j].start
    {
      var a := agentStates[i].Copy();
      copied := copied + [a];
    }
  }

  /** GameStateData: the survivor grid, the agents, the layout and the score of a mission state. */
  class GameStateData {
    var survivors: Grid
    var agentStates: seq<AgentState>
    var layout: RescueLayout
    var cumulativeCost: int
    var rescuedCount: int
    var survivorsSaved: Option<Pos>
    var lose: bool
    var win: bool

    ghost predicate Valid()
      reads this, survivors, survivors.data, agentStates,
            layout, layout.walls, layout.walls.data, layout.survivors, layout.survivors.data
    {
      |agentStates| >= 1 && survivors.Valid() && layout.Valid() &&
      survivors.width == layout.width && survivors.height == layout.height &&
      Placed(GetArea(), Snap())
    }

    function GetArea(): Area
      reads this, layout, layout.walls, layout.walls.data
    {
      Area(layout.walls.Cells(), layout.terrain)
    }

    function Snap(): Snapshot
      reads this, survivors, survivors.data, agentStates
      requires |agentStates| >= 1
    {
      Snapshot(agentStates[0].configuration, survivors.Cells(), cumulativeCost, rescuedCount,
               survivorsSaved, win, lose)
    }

    /**
     * GameStateData(prevState): a new survivor grid object over the same
     * columns (shallowCopy), copies of the agent states, the same layout,
     * and the flags reset.
     */
    constructor Copy(prev: GameStateData)
      requires prev.Valid()
      ensures Valid()
      ensures fresh(survivors) && survivors.data == prev.survivors.data
      ensures |agentStates| == |prev.agentStates|
      ensures forall i :: 0 <= i < |agentStates| ==> fresh(agentStates[i])
      ensures forall i :: 0 <= i < |agentStates| ==>
                agentStates[i].configuration == prev.agentStates[i].configuration &&
                agentStates[i].start == prev.agentStates[i].start
      ensures layout == prev.layout
      ensures GetArea() == prev.GetArea()
      ensures Snap() == CopyState(prev.Snap())
    {
      var shared := prev.survivors.ShallowCopy();
      var copied := CopyAgentStates(prev.agentStates);
      survivors := shared;
      agentStates := copied;
      layout := prev.layout;
      cumulativeCost := prev.cumulativeCost;
      rescuedCount := prev.rescuedCount;
      survivorsSaved := None;
      lose := false;
      win := false;
    }

    /**
     * GameStateData() followed by initialize(layout): a copy of the layout's
     * survivor grid, zero cost and rescues, and one agent per start position
     * facing Stop.
     */
    constructor Initial(layout: RescueLayout)
      requires layout.Valid() && layout.Processed() && Enclosed(layout.walls.Cells())
      requires |layout.agentPositions| >= 1
      ensures Valid()
      ensures fresh(survivors) && fresh(survivors.data)
      ensures this.layout == layout
      ensures |agentStates| == |layout.agentPositions|
      ensures forall i :: 0 <= i < |agentStates| ==>
                fresh(agentStates[i]) && agentStates[i].configuration == Configuration(layout.agentPositions[i], Stop)
      ensures Snap() == Snapshot(Configuration(layout.agentPositions[0], Stop), layout.survivors.Cells(), 0, 0, None, false, false)
    {
      var states: seq<AgentState> := [];
      for i := 0 to |layout.agentPositions|
        invariant |states| == i
        invariant forall j :: 0 <= j < i ==>
                    fresh(states[j]) && states[j].configuration == Configuration(layout.agentPositions[j], Stop)
      {
        var a := new AgentState(Configuration(layout.agentPositions[i], Stop));
        states := states + [a];
      }
      var copy := layout.survivors.Copy();
      survivors := copy;
      this.layout := layout;
      cumulativeCost := 0;
      rescuedCount := 0;
      survivorsSaved := None;
      lose := false;
      win := false;
      agentStates := states;
      StartIsOpen(layout, layout.agentPositions[0]);
    }
  }

  /** RescueRules: the static rules of movement and rescue. */
  class RescueRules {
    static const RescuerSpeed := 1

    /** RescueRules.getLegalActions: getPossibleActions of the rescuer on the walls. */
    static method GetLegalActions(state: RescueState) returns (legal: seq<Direction>)
      requires state.Valid()
      ensures legal == PossibleActions(state.GetArea().walls, state.Snap().config.pos)
    {
      OpenIsInterior(state.GetArea().walls, state.Snap().config.pos);
      legal := GetPossibleActions(state.data.agentStates[0].configuration, state.data.layout.walls);
    }

    /**
     * RescueRules.applyAction: raises (false here) on an illegal action and
     * changes nothing; otherwise moves the rescuer and rescues on arrival.
     */
    static method ApplyAction(state: RescueState, action: Direction) returns (ok: bool)
      requires state.Valid()
      modifies state.data, state.data.agentStates[0]
      ensures state.data == old(state.data) && state.data.layout == old(state.data.layout)
      ensures state.data.agentStates == old(state.data.agentStates)
      ensures ok <==> ApplyActionTo(old(state.GetArea()), old(state.Snap()), action).Success?
      ensures !ok ==> state.Snap() == old(state.Snap())
      ensures ok ==> state.Valid() && state.Snap() == ApplyActionTo(old(state.GetArea()), old(state.Snap()), action).value
    {
      var legal := GetLegalActions(state);
      if action !in legal {
        return false;
      }
      StepFacts(state.GetArea(), state.Snap(), action);
      var rescuerState := state.data.agentStates[0];
      var vector := DirectionToVector(action);
      rescuerState.configuration := GenerateSuccessor(rescuerState.configuration, vector);
      var nextPos := rescuerState.configuration.pos;
      Rescue(nextPos, state);
      return true;
    }

    /**
     * RescueRules.rescue(position, state): with a survivor there, count the
     * rescue, record it, and clear the cell in a copy of the grid; win when
     * none are left and the mission is not lost. With none there, nothing.
     */
    static method Rescue(position: Pos, state: RescueState)
      requires state.data.survivors.Valid() && |state.data.agentStates| >= 1
      requires InBox(state.data.survivors.Cells(), position)
      modifies state.data
      ensures state.data == old(state.data) && state.data.layout == old(state.data.layout)
      ensures state.data.agentStates == old(state.data.agentStates)
      ensures state.data.survivors.Valid()
      ensures state.data.survivors.width == old(state.data.survivors.width)
      ensures state.data.survivors.height == old(state.data.survivors.height)
      ensures state.Snap() == RescueAt(old(state.Snap()), position)
    {
      var x, y := position.x, position.y;
      if state.data.survivors.Get(x, y) {
        state.data.rescuedCount := state.data.rescuedCount + 1;
        state.data.survivorsSaved := Some(position);
        var copy := state.data.survivors.Copy();
        state.data.survivors := copy;
        copy.Set(x, y, false);
        var numSurvivors := state.GetNumSurvivors();
        if numSurvivors == 0 && !state.data.lose {
          state.data.win := true;
        }
      }
    }
  }

  /** RescueState: a mission state, the game's node. */
  class RescueState {
    var data: GameStateData

    ghost predicate Valid()
      reads this, data, data.survivors, data.survivors.data, data.agentStates,
            data.layout, data.layout.walls, data.layout.walls.data, data.layout.survivors, data.layout.survivors.data
    {
      data.Valid()
    }

    function GetArea(): Area
      reads this, data, data.layout, data.layout.walls, data.layout.walls.data
    {
      data.GetArea()
    }

    function Snap(): Snapshot
      reads this, data, data.survivors, data.survivors.data, data.agentStates
      requires |data.agentStates| >= 1
    {
      data.Snap()
    }

    /** RescueState(prevState). */
    constructor Copy(prev: RescueState)
      requires prev.Valid()
      ensures Valid() && fresh(data)
      ensures |data.agentStates| == |prev.data.agentStates|
      ensures forall i :: 0 <= i < |data.agentStates| ==> fresh(data.agentStates[i])
      ensures forall i :: 0 <= i < |data.agentStates| ==>
                data.agentStates[i].configuration == prev.data.agentStates[i].configuration &&
                data.agentStates[i].start == prev.data.agentStates[i].start
      ensures GetArea() == prev.GetArea() && data.layout == prev.data.layout
      ensures Snap() == CopyState(prev.Snap())
    {
      data := new GameStateData.Copy(prev.data);
    }

    /** RescueState() followed by initialize(layout). */
    constructor Initial(layout: RescueLayout)
      requires layout.Valid() && layout.Processed() && Enclosed(layout.walls.Cells())
      requires |layout.agentPositions| >= 1
      ensures Valid() && fresh(data) && data.layout == layout
      ensures GetArea() == Area(layout.walls.Cells(), layout.terrain)
      ensures Snap() == Snapshot(Configuration(layout.agentPositions[0], Stop), layout.survivors.Cells(), 0, 0, None, false, false)
    {
      data := new GameStateData.Initial(layout);
    }

    predicate IsWin()
      reads this, data
    {
      data.win
    }

    predicate IsLose()
      reads this, data
    {
      data.lose
    }

    /** RescueState.getRescuerPosition. */
    function GetRescuerPosition(): Pos
      reads this, data, data.agentStates
      requires |data.agentStates| >= 1
    {
      data.agentStates[0].configuration.pos
    }

    /** RescueState.getNumSurvivors: the number of cells that still hold a survivor. */
    function GetNumSurvivors(): (n: nat)
      reads this, data, data.survivors, data.survivors.data
      ensures n == |CellSet(data.survivors.Cells(), true)|
      ensures n == 0 <==> forall p :: InBox(data.survivors.Cells(), p) ==> !At(data.survivors.Cells(), p)
    {
      var c := data.survivors.Cells();
      var n := data.survivors.Count(true);
      assert n == 0 <==> forall p :: InBox(c, p) ==> !At(c, p) by {
        if n != 0 {
          var p :| p in CellSet(c, true);
          assert InBox(c, p) && At(c, p);
        } else {
          forall p | InBox(c, p) ensures !At(c, p) {
            assert At(c, p) ==> p in CellSet(c, true);
          }
        }
      }
      n
    }

    /** RescueState.getLegalActions: [] in a terminal state, otherwise the rules' legal actions. */
    method GetLegalActions() returns (legal: seq<Direction>)
      requires Valid()
      ensures legal == LegalActions(GetArea(), Snap())
      ensures forall d :: d in legal <==> !Terminal(Snap()) && !At(GetArea().walls, GetSuccessor(GetRescuerPosition(), d))
    {
      OpenIsInterior(GetArea().walls, Snap().config.pos);
      PossibleActionsFacts(GetArea().walls, Snap().config.pos);
      if IsWin() || IsLose() {
        return [];
      }
      legal := RescueRules.GetLegalActions(this);
    }

    /**
     * RescueState.generateSuccessor(action): a new state one move on, or the
     * error it raises; this state itself is left as it was.
     */
    method GenerateSuccessor(action: Direction) returns (r: Result<RescueState>)
      requires Valid()
      ensures Snap() == old(Snap()) && GetArea() == old(GetArea())
      ensures r.Failure? <==> Step(GetArea(), Snap(), action).Failure?
      ensures r.Success? ==>
                fresh(r.value) && fresh(r.value.data) && r.value.Valid() &&
                r.value.GetArea() == GetArea() &&
                r.value.Snap() == Step(GetArea(), Snap(), action).value
    {
      ghost var area, snap := GetArea(), Snap();
      if IsWin() || IsLose() {
        return Failure("Can't generate a successor of a terminal state.");
      }
      ChargedStep(area, snap, action);
      var state := new RescueState.Copy(this);
      assert GetArea() == area && Snap() == snap;
      assert state.Snap() == CopyState(snap) && state.GetArea() == area;
      var ok := state.MoveAndCharge(action);
      assert GetArea() == area && Snap() == snap;
      if !ok {
        return Failure("Illegal action");
      }
      return Success(state);
    }

    /**
     * The body of generateSuccessor after the copy: applyAction, then add
     * the terrain cost of the cell the rescuer now stands on.
     */
    method MoveAndCharge(action: Direction) returns (ok: bool)
      requires Valid()
      modifies data, data.agentStates[0]
      ensures data == old(data) && data.layout == old(data.layout) && data.agentStates == old(data.agentStates)
      ensures GetArea() == old(GetArea())
      ensures ok <==> ApplyActionTo(old(GetArea()), old(Snap()), action).Success?
      ensures ok ==> Valid()
      ensures ok ==> (var t := ApplyActionTo(old(GetArea()), old(Snap()), action).value;
                      Snap() == t.(cost := t.cost + TerrainCostAt(GetArea().terrain, t.config.pos)))
    {
      ok := RescueRules.ApplyAction(this, action);
      if ok {
        var pos := GetRescuerPosition();
        var cost := data.layout.GetTerrainCost(pos.x, pos.y);
        data.cumulativeCost := data.cumulativeCost + cost;
      }
    }
  }
}
