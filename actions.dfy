/** Action.cs: the lifecycle of one enacted action, and Decision.Enact, which
    creates and starts it. The overridable hooks are recorded, in the order
    they are called, in a ghost trace; what OnEnter and ShouldExit answer is
    passed in by the caller. */
module Actions {
  import opened Decisions

  /** A call an action makes: one of its overridable hooks, or the
      conclusion callback it was started with. */
  datatype Hook = OnEnter | OnUpdate(dt: real) | OnFixedUpdate(dt: real) | OnExit | OnConcluded

  class Action {
    /** The decision the action was executed for; null before Execute. */
    var decision: Decision?
    /** The conclusion callback: the decision it marks concluded before
        notifying the agent, or null when no callback was given. */
    var onConcluded: Decision?
    var executed: bool
    /** The hooks called so far, oldest first. */
    ghost var trace: seq<Hook>

    /** A fresh instance of the behaviour's action template. */
    constructor ()
      ensures decision == null && onConcluded == null && !executed && trace == []
    {
      decision := null;
      onConcluded := null;
      executed := false;
      trace := [];
    }

    /** Execute: fails (the source throws) on an action already executed,
        leaving it as it was. Otherwise stores the decision and callback and
        calls OnEnter, which answers `enter`; a refused entry is followed by
        OnExit, and the callback is not invoked either way. */
    method Execute(decision: Decision, onConcluded: Decision?, enter: bool) returns (ok: bool)
      modifies this
      ensures ok == !old(executed)
      ensures !ok ==> unchanged(this)
      ensures ok ==> executed && this.decision == decision && this.onConcluded == onConcluded
      ensures ok ==> trace == old(trace) + [OnEnter] + (if enter then [] else [OnExit])
    {
      if executed {
        return false;
      }
      executed := true;
      this.decision := decision;
      this.onConcluded := onConcluded;
      trace := trace + [OnEnter];
      if !enter {
        trace := trace + [OnExit];
      }
      ok := true;
    }

    /** Interrupt: OnExit only; the conclusion callback is never invoked. */
    method Interrupt()
      modifies this
      ensures trace == old(trace) + [OnExit]
      ensures decision == old(decision) && onConcluded == old(onConcluded) && executed == old(executed)
    {
      trace := trace + [OnExit];
    }

    /** Conclude: OnExit, then the callback once if there is one; the
        callback first marks its decision concluded. Reports whether the
        callback ran, so that the agent can react to it. */
    method Conclude() returns (notified: bool)
      modifies this, onConcluded
      ensures notified == (onConcluded != null)
      ensures trace == old(trace) + [OnExit] + (if notified then [OnConcluded] else [])
      ensures decision == old(decision) && onConcluded == old(onConcluded) && executed == old(executed)
      ensures notified ==> onConcluded.concluded
      ensures notified ==> onConcluded.score == old(onConcluded.score)
                           && onConcluded.scored == old(onConcluded.scored)
                           && onConcluded.skipped == old(onConcluded.skipped)
    {
      trace := trace + [OnExit];
      notified := onConcluded != null;
      if notified {
        onConcluded.concluded := true;
        trace := trace + [OnConcluded];
      }
    }

    /** Update: asks ShouldExit, which answers `shouldExit`; when it is false
        forwards to OnUpdate, otherwise concludes instead. */
    method Update(dt: real, shouldExit: bool) returns (notified: bool)
      modifies this, onConcluded
      ensures !shouldExit ==> !notified && trace == old(trace) + [OnUpdate(dt)]
      ensures !shouldExit && old(onConcluded) != null ==> unchanged(old(onConcluded))
      ensures shouldExit ==> notified == (onConcluded != null)
      ensures shouldExit ==> trace == old(trace) + [OnExit] + (if notified then [OnConcluded] else [])
      ensures shouldExit && notified ==> onConcluded.concluded
      ensures shouldExit && old(onConcluded) != null ==>
                old(onConcluded).score == old(onConcluded.score)
                && old(onConcluded).scored == old(onConcluded.scored)
                && old(onConcluded).skipped == old(onConcluded.skipped)
      ensures decision == old(decision) && onConcluded == old(onConcluded) && executed == old(executed)
    {
      if !shouldExit {
        trace := trace + [OnUpdate(dt)];
        notified := false;
      } else {
        notified := Conclude();
      }
    }

    /** FixedUpdate: always forwards to OnFixedUpdate, whatever the state. */
    method FixedUpdate(dt: real)
      modifies this
      ensures trace == old(trace) + [OnFixedUpdate(dt)]
      ensures decision == old(decision) && onConcluded == old(onConcluded) && executed == old(executed)
    {
      trace := trace + [OnFixedUpdate(dt)];
    }
  }

  /** Decision.Enact: null when the behaviour has no action; otherwise a fresh
      copy of the action template, executed for `d` with a callback that
      marks `d` concluded. */
  method Enact(d: Decision, enter: bool) returns (a: Action?)
    ensures !d.behavior.hasAction ==> a == null
    ensures d.behavior.hasAction ==> a != null && fresh(a) && a.executed
    ensures a != null ==> a.decision == d && a.onConcluded == d
                          && a.trace == [OnEnter] + (if enter then [] else [OnExit])
  {
    if !d.behavior.hasAction {
      return null;
    }
    a := new Action();
    var ok := a.Execute(d, d, enter);
  }
}
