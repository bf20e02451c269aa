/** The "See More" expansion loops. */
module Expansion {
  import opened Dom

  /**
   * `find_elements` variant (deal_scratch_citywise.py, deals_scratch_api.py,
   * APIs/deals_scratch_api_v1.1.py): click the first match while one is
   * present; a click that raises is not caught here and escapes (`raised`).
   */
  method ClickWhilePresent(triggers: seq<Trigger>) returns (clicks: nat, raised: bool)
    ensures clicks <= |triggers|
    ensures forall k :: 0 <= k < clicks ==> triggers[k] == Clickable
    ensures raised <==> clicks < |triggers|
    ensures raised ==> triggers[clicks] == Broken
    ensures raised <==> Broken in triggers
  {
    clicks, raised := 0, false;
    while true
      invariant clicks <= |triggers|
      invariant forall k :: 0 <= k < clicks ==> triggers[k] == Clickable
      decreases |triggers| - clicks
    {
      if clicks < |triggers| {
        if triggers[clicks] == Broken {
          raised := true;
          return;
        }
        clicks := clicks + 1;
      } else {
        break;
      }
    }
  }

  /**
   * Wait-and-click variant (APIs/deals_scratch_citywise_v2.py): every pass waits
   * for a clickable control and clicks it; the first pass whose wait or click
   * raises ends the loop, and the exception is swallowed.
   */
  method ClickUntilFailure(triggers: seq<Trigger>) returns (clicks: nat)
    ensures clicks <= |triggers|
    ensures forall k :: 0 <= k < clicks ==> triggers[k] == Clickable
    ensures clicks < |triggers| ==> triggers[clicks] == Broken
    ensures clicks == |triggers| <==> Broken !in triggers
  {
    clicks := 0;
    while true
      invariant clicks <= |triggers|
      invariant forall k :: 0 <= k < clicks ==> triggers[k] == Clickable
      decreases |triggers| - clicks
    {
      // An absent control makes the wait time out: the same exception path as a failed click.
      if clicks == |triggers| || triggers[clicks] == Broken {
        break;
      }
      clicks := clicks + 1;
    }
  }

}
