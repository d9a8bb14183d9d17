/** How the gated launch pipeline ends: what a stop request or a failed wait still lets through, what
    the waits wait for, and which result the driver returns. */
module GatedStops {
  import opened GatedLaunch
  import opened GatedInvariants
  import opened GatedTheorems

  // ----- after a stop

  /** A stopped submitter has at most the launch it is about to make ahead of it. */
  function AfterStop(s: State): nat {
    |s.dev.launched| + (if s.sub.at.Launch? then 1 else 0)
  }

  lemma StepAfterStop(c: Config, s: State, a: Action)
    requires s.stop && Enabled(c, s, a)
    ensures Apply(c, s, a).stop && AfterStop(Apply(c, s, a)) <= AfterStop(s)
  {
  }

  /** Once a stop has been requested, whatever happens afterwards, at most one more kernel is launched,
      and only if the submitter had already passed its last check. */
  lemma {:induction false} StopEndsLaunching(c: Config, s: State, more: seq<Action>)
    requires s.stop && Run(c, s, more)
    ensures |After(c, s, more).dev.launched| <= |s.dev.launched| + (if s.sub.at.Launch? then 1 else 0)
    ensures After(c, s, more).stop && AfterStop(After(c, s, more)) <= AfterStop(s)
    decreases |more|
  {
    if more != [] {
      StepAfterStop(c, s, more[0]);
      StopEndsLaunching(c, Apply(c, s, more[0]), more[1..]);
    }
  }

  /** About to move the gate by a release that was decided before the stop. */
  ghost predicate Releasing(sub: Submitter) {
    sub.Release? || sub.FinalRelease?
  }

  lemma StepOnlyFlushes(c: Config, s: State, a: Action)
    requires c.gateBatch != 0 && s.stop && !Releasing(s.sub.at) && !s.sub.at.Ungate? && Enabled(c, s, a)
    ensures var t := Apply(c, s, a);
            && t.stop && !Releasing(t.sub.at) && !t.sub.at.Ungate? && t.sub.gate == s.sub.gate
            && (t.dev.waitEvent == s.dev.waitEvent || t.dev.waitEvent == 0xFFFF_FFFF_FFFF_FFFF)
  {
  }

  /** After a stop no further batch is released: unless a release was already under way, the wait event
      stays as it is or is raised to the 64-bit maximum, and the gate does not move. */
  lemma {:induction false} StopOnlyFlushes(c: Config, s: State, more: seq<Action>)
    requires c.gateBatch != 0 && s.stop && !Releasing(s.sub.at) && !s.sub.at.Ungate? && Run(c, s, more)
    ensures var t := After(c, s, more);
            && t.sub.gate == s.sub.gate
            && (t.dev.waitEvent == s.dev.waitEvent || t.dev.waitEvent == 0xFFFF_FFFF_FFFF_FFFF)
    decreases |more|
  {
    if more != [] {
      StepOnlyFlushes(c, s, more[0]);
      StopOnlyFlushes(c, Apply(c, s, more[0]), more[1..]);
    }
  }

  /** A submitter stopped while a batch is being held or drained goes straight to raising the gate to the
      maximum, whether or not the worker has failed, and from there to cleanup. */
  lemma StopFlushesNow(c: Config, s: State)
    requires s.stop && (s.sub.at.Hold? || s.sub.at.FinalHold? || s.sub.at.Drain? || s.sub.at.FinalDrain?)
    ensures Enabled(c, s, Submit(true)) && Enabled(c, Apply(c, s, Submit(true)), Submit(true))
    ensures var t := Apply(c, Apply(c, s, Submit(true)), Submit(true));
            t.dev.waitEvent == 0xFFFF_FFFF_FFFF_FFFF && t.sub.at.Cleanup? && t.dev.launched == s.dev.launched
  {
  }

  // ----- after a failed wait

  function AfterFailure(s: State): nat {
    |s.dev.launched| + (if s.sub.at.StopCheck? || s.sub.at.Launch? then 1 else 0)
  }

  lemma StepAfterFailure(c: Config, s: State, a: Action)
    requires s.ctx.waitFailed && Enabled(c, s, a)
    ensures Apply(c, s, a).ctx.waitFailed && AfterFailure(Apply(c, s, a)) <= AfterFailure(s)
  {
  }

  /** Once the worker's wait has failed, at most one more kernel is launched, and only if the submitter
      had already left the window wait. */
  lemma {:induction false} FailureEndsLaunching(c: Config, s: State, more: seq<Action>)
    requires s.ctx.waitFailed && Run(c, s, more)
    ensures After(c, s, more).ctx.waitFailed
    ensures |After(c, s, more).dev.launched|
            <= |s.dev.launched| + (if s.sub.at.StopCheck? || s.sub.at.Launch? then 1 else 0)
    ensures AfterFailure(After(c, s, more)) <= AfterFailure(s)
    decreases |more|
  {
    if more != [] {
      StepAfterFailure(c, s, more[0]);
      FailureEndsLaunching(c, Apply(c, s, more[0]), more[1..]);
    }
  }

  // ----- what the waits wait for

  /** In every reachable state the window wait ends exactly when the number in flight is below the
      limit, the worker has failed or a stop was requested; a drain exactly when everything published
      is counted, the worker has failed or a stop was requested. */
  lemma WaitsEndIff(c: Config, acts: seq<Action>)
    requires Fits32(c) && Run(c, Initial(c), acts)
    ensures var s := After(c, Initial(c), acts);
            && (s.sub.at.Window? ==>
                  (Enabled(c, s, Submit(true))
                   <==> s.ctx.nextReady - s.ctx.completed < c.maxInflight || s.ctx.waitFailed || s.stop))
            && (s.sub.at.Drain? || s.sub.at.FinalDrain? ==>
                  (Enabled(c, s, Submit(true))
                   <==> s.ctx.completed == s.ctx.nextReady || s.ctx.waitFailed || s.stop))
  {
    InitialInv(c);
    RunKeepsInv(c, Initial(c), acts);
    NoWrap(c, After(c, Initial(c), acts));
  }

  // ----- the result

  /** What went wrong first in the submitter's own calls, step by step; a failed final flush is not
      held against the run. */
  ghost function CallFailure(c: Config, s: State, acts: seq<Action>): Outcome
    requires Run(c, s, acts)
    decreases |acts|
  {
    if acts == [] then Success
    else if acts[0] == Submit(false) && s.sub.at.Launch? then LaunchError
    else if acts[0] == Submit(false) && !s.sub.at.FlushMax? then UpdateError
    else CallFailure(c, Apply(c, s, acts[0]), acts[1..])
  }

  ghost predicate SomeWaitFailed(acts: seq<Action>) {
    exists i :: 0 <= i < |acts| && acts[i] == CompleteFails
  }

  lemma SomeWaitFailedStep(acts: seq<Action>)
    requires acts != []
    ensures SomeWaitFailed(acts) <==> acts[0] == CompleteFails || SomeWaitFailed(acts[1..])
  {
    assert acts == [acts[0]] + acts[1..];
    if SomeWaitFailed(acts[1..]) {
      var i :| 0 <= i < |acts[1..]| && acts[1..][i] == CompleteFails;
      assert acts[i + 1] == CompleteFails;
    }
  }

  lemma StepResult(c: Config, s: State, a: Action)
    requires Result(c, s) && Counters(c, s) && Enabled(c, s, a)
    ensures var t := Apply(c, s, a);
            && (s.sub.outcome != Success ==> t.sub.outcome == s.sub.outcome)
            && (s.sub.outcome == Success && a == Submit(false) && s.sub.at.Launch? ==> t.sub.outcome == LaunchError)
            && (s.sub.outcome == Success && a == Submit(false) && !s.sub.at.Launch? && !s.sub.at.FlushMax? ==>
                  t.sub.outcome == UpdateError)
            && (s.sub.outcome == Success && (a != Submit(false) || s.sub.at.FlushMax?) ==>
                  t.sub.outcome == Success || (t.sub.outcome == WaitError && s.ctx.waitFailed))
            && (t.ctx.waitFailed <==> s.ctx.waitFailed || a == CompleteFails)
            && (Leaving(s.sub.at) && a == Submit(false) ==> s.sub.at.FlushMax?)
            && (s.sub.outcome != Success ==> Leaving(s.sub.at) && Leaving(t.sub.at))
  {
  }

  lemma {:induction false} FailuresStay(c: Config, s: State, acts: seq<Action>)
    requires Fits32(c) && Inv(c, s) && Run(c, s, acts) && s.sub.outcome != Success
    ensures After(c, s, acts).sub.outcome == s.sub.outcome
    decreases |acts|
  {
    if acts != [] {
      StepResult(c, s, acts[0]);
      StepKeepsInv(c, s, acts[0]);
      FailuresStay(c, Apply(c, s, acts[0]), acts[1..]);
    }
  }

  lemma {:induction false} ResultTracks(c: Config, s: State, acts: seq<Action>)
    requires Fits32(c) && Inv(c, s) && Run(c, s, acts) && s.sub.outcome == Success
    ensures var t := After(c, s, acts);
            && (t.ctx.waitFailed <==> s.ctx.waitFailed || SomeWaitFailed(acts))
            && (t.sub.outcome != WaitError ==> t.sub.outcome == CallFailure(c, s, acts))
            && (t.sub.outcome == WaitError ==> t.ctx.waitFailed && CallFailure(c, s, acts) == Success)
    decreases |acts|
  {
    if acts != [] {
      var n := Apply(c, s, acts[0]);
      StepResult(c, s, acts[0]);
      StepKeepsInv(c, s, acts[0]);
      SomeWaitFailedStep(acts);
      WaitFailedTracks(c, n, acts[1..]);
      if n.sub.outcome == Success {
        ResultTracks(c, n, acts[1..]);
      } else {
        FailuresStay(c, n, acts[1..]);
        if n.sub.outcome == WaitError { NoCallFailsAfter(c, n, acts[1..]); }
      }
    }
  }

  lemma {:induction false} WaitFailedTracks(c: Config, s: State, acts: seq<Action>)
    requires Fits32(c) && Inv(c, s) && Run(c, s, acts)
    ensures After(c, s, acts).ctx.waitFailed <==> s.ctx.waitFailed || SomeWaitFailed(acts)
    decreases |acts|
  {
    if acts != [] {
      StepResult(c, s, acts[0]);
      StepKeepsInv(c, s, acts[0]);
      SomeWaitFailedStep(acts);
      WaitFailedTracks(c, Apply(c, s, acts[0]), acts[1..]);
    }
  }

  lemma {:induction false} NoCallFailsAfter(c: Config, s: State, acts: seq<Action>)
    requires Fits32(c) && Inv(c, s) && Run(c, s, acts) && s.sub.outcome != Success
    ensures CallFailure(c, s, acts) == Success
    decreases |acts|
  {
    if acts != [] {
      StepResult(c, s, acts[0]);
      StepKeepsInv(c, s, acts[0]);
      NoCallFailsAfter(c, Apply(c, s, acts[0]), acts[1..]);
    }
  }

  /** The result of every run that returns: the submitter's own first failing call; else the worker's
      error if a wait failed; else success. A flush that fails after a stop does not count. */
  lemma ReturnedResult(c: Config, acts: seq<Action>)
    requires Fits32(c) && Run(c, Initial(c), acts) && After(c, Initial(c), acts).sub.at.Returned?
    ensures After(c, Initial(c), acts).sub.outcome
            == if CallFailure(c, Initial(c), acts) != Success then CallFailure(c, Initial(c), acts)
               else if SomeWaitFailed(acts) then WaitError
               else Success
  {
    InitialInv(c);
    RunKeepsInv(c, Initial(c), acts);
    ResultTracks(c, Initial(c), acts);
  }
}
