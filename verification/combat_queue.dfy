/**
 * A first-in first-out queue of attack orders released one at a time after
 * a configurable delay. Times are seconds, modelled as `real`.
 */
module CombatQueue {
  import opened GameData
  import opened Wrappers

  class CombatQueue {
    /** Pending orders, front first. */
    var pending: seq<CombatAction>
    var processingDelay: real
    var timer: real
    var actionReady: bool

    /** An order is only ever flagged ready while one is waiting. */
    ghost predicate Valid()
      reads this
    {
      actionReady ==> |pending| > 0
    }

    constructor ()
      ensures Valid()
      ensures pending == [] && processingDelay == 0.0 && timer == 0.0 && !actionReady
    {
      pending := [];
      processingDelay := 0.0;
      timer := 0.0;
      actionReady := false;
    }

    /** Appends an order; the first order into an empty queue starts the timer. */
    method QueueAction(action: CombatAction)
      modifies this
      ensures Valid()
      ensures pending == old(pending) + [action]
      ensures processingDelay == old(processingDelay)
      ensures |old(pending)| == 0 ==> timer == processingDelay && (actionReady <==> processingDelay <= 0.0)
      ensures |old(pending)| > 0 ==> timer == old(timer) && actionReady == old(actionReady)
    {
      pending := pending + [action];
      if |pending| == 1 {
        timer := processingDelay;
        actionReady := processingDelay <= 0.0;
      }
    }

    predicate HasPendingActions()
      reads this
      ensures HasPendingActions() <==> pending != []
    {
      |pending| > 0
    }

    /** The queue counts as busy exactly while it holds an order. */
    predicate IsProcessing()
      reads this
      ensures IsProcessing() <==> HasPendingActions()
    {
      |pending| > 0
    }

    function GetQueueSize(): (n: nat)
      reads this
      ensures n == 0 <==> !HasPendingActions()
    {
      |pending|
    }

    /** Advances the timer by `deltaTime`; the front order becomes ready once the timer runs out. */
    method Update(deltaTime: real)
      modifies this
      ensures Valid()
      ensures pending == old(pending) && processingDelay == old(processingDelay)
      ensures |pending| == 0 ==> !actionReady && timer == old(timer)
      ensures |pending| > 0 ==> (timer == old(timer) - deltaTime
                                 && actionReady == (old(actionReady) || timer <= 0.0))
    {
      if |pending| == 0 {
        actionReady := false;
        return;
      }
      timer := timer - deltaTime;
      if timer <= 0.0 {
        actionReady := true;
      }
    }

    /**
     * Releases the front order when one is ready, and restarts the timer
     * for the next one; nothing changes when no order is ready.
     */
    method PopNextAction() returns (action: Option<CombatAction>)
      requires Valid()
      modifies this
      ensures Valid()
      ensures processingDelay == old(processingDelay)
      ensures action.Some? <==> old(actionReady) && |old(pending)| > 0
      ensures action.None? ==> pending == old(pending) && timer == old(timer) && actionReady == old(actionReady)
      ensures action.Some? ==> action.value == old(pending)[0] && pending == old(pending)[1..]
      ensures action.Some? && |pending| > 0 ==> timer == processingDelay && (actionReady <==> processingDelay <= 0.0)
      ensures action.Some? && |pending| == 0 ==> !actionReady && timer == old(timer)
    {
      if !actionReady || |pending| == 0 {
        return None;
      }
      var front := pending[0];
      pending := pending[1..];
      if |pending| > 0 {
        timer := processingDelay;
        actionReady := processingDelay <= 0.0;
      } else {
        actionReady := false;
      }
      return Some(front);
    }

    method SetProcessingDelay(delay: real)
      modifies this`processingDelay
      ensures processingDelay == delay
    {
      processingDelay := delay;
    }

    function GetProcessingDelay(): (delay: real)
      reads this
      ensures delay == processingDelay
    {
      processingDelay
    }

    /** Drops every pending order, one at a time, and stops the timer. */
    method Clear()
      modifies this
      ensures Valid()
      ensures pending == [] && timer == 0.0 && !actionReady
      ensures processingDelay == old(processingDelay)
    {
      while |pending| > 0
        modifies this`pending
        decreases |pending|
      {
        pending := pending[1..];
      }
      timer := 0.0;
      actionReady := false;
    }
  }

  /**
   * Orders come out in the order they went in: with no delay, two orders
   * queued on an empty queue are released first-queued first.
   */
  method FirstInFirstOut(first: CombatAction, second: CombatAction) returns (out1: Option<CombatAction>, out2: Option<CombatAction>, out3: Option<CombatAction>)
    ensures out1 == Some(first) && out2 == Some(second) && out3 == None
  {
    var q := new CombatQueue();
    q.QueueAction(first);
    q.QueueAction(second);
    out1 := q.PopNextAction();
    out2 := q.PopNextAction();
    out3 := q.PopNextAction();
  }

  /**
   * With a positive delay nothing is released until the timer has run down:
   * an order queued on an empty queue is held until updates add up to the delay.
   */
  method DelayHoldsOrder(action: CombatAction, delay: real, dt: real) returns (early: Option<CombatAction>, late: Option<CombatAction>)
    requires delay > 0.0 && 0.0 < dt < delay
    ensures early == None && late == Some(action)
  {
    var q := new CombatQueue();
    q.SetProcessingDelay(delay);
    q.QueueAction(action);
    q.Update(dt);
    early := q.PopNextAction();
    q.Update(delay - dt);
    late := q.PopNextAction();
  }
}
