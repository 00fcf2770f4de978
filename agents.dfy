/**
 * The plan-following part of SearchAgent (SAR/SAR/algorithms/agents.py):
 * registerInitialState stores the plan the search function returns, and
 * getAction hands it out one action per call, then Stop.
 */
module Agents {
  import opened Wrappers
  import opened Geometry

  class SearchAgent {
    /** The planned actions; None until registerInitialState has run. */
    var actions: Option<seq<Direction>>
    /** actionIndex: None until the first getAction call creates it. */
    var actionIndex: Option<nat>

    constructor ()
      ensures actions == None && actionIndex == None
    {
      actions := None;
      actionIndex := None;
    }

    /**
     * registerInitialState: keep the plan the search function returned,
     * with no plan (None) replaced by the empty plan.
     */
    method RegisterInitialState(plan: Option<seq<Direction>>)
      modifies this
      ensures actions == Some(if plan.None? then [] else plan.value)
      ensures plan.None? ==> actions == Some([])
      ensures actionIndex == old(actionIndex)
    {
      actions := plan;
      if actions.None? {
        actions := Some([]);
      }
    }

    /**
     * getAction: the call that finds actionIndex at i (0 on the first call)
     * returns the i-th planned action, or Stop once the plan is used up,
     * and moves actionIndex to i + 1.
     */
    method GetAction() returns (action: Direction)
      requires actions.Some?
      modifies this
      ensures actions == old(actions)
      ensures var i := old(actionIndex).GetOr(0);
              && actionIndex == Some(i + 1)
              && (i < |actions.value| ==> action == actions.value[i])
              && (i >= |actions.value| ==> action == Stop)
    {
      if actionIndex.None? {
        actionIndex := Some(0);
      }
      var i := actionIndex.value;
      actionIndex := Some(actionIndex.value + 1);
      if i < |actions.value| {
        return actions.value[i];
      } else {
        return Stop;
      }
    }
  }
}
