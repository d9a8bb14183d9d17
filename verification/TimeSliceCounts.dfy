/** What the time-slice benchmark's numbers count, and what ends its submissions. */
module TimeSliceCounts {
  import opened TimeSlice

  /** The kernels the worker counts in a run: one for each wait that succeeds. */
  ghost function WorkerCounts(maxInflight: nat, tokens: bool, s: State, acts: seq<Action>): nat
    requires Run(maxInflight, tokens, s, acts)
    decreases |acts|
  {
    if acts == [] then 0
    else
      (if acts[0].Complete? && s.ctx.worker.Waiting? then 1 else 0)
      + WorkerCounts(maxInflight, tokens, Step(maxInflight, tokens, s, acts[0]), acts[1..])
  }

  /** The kernels the driver submits in a run: one for each turn it takes at the window. */
  ghost function TurnsTaken(maxInflight: nat, tokens: bool, s: State, acts: seq<Action>): nat
    requires Run(maxInflight, tokens, s, acts)
    decreases |acts|
  {
    if acts == [] then 0
    else
      (if acts[0].Submit? && s.sub.at.Window? && acts[0].turn.Go? && !s.ctx.waitFailed then 1 else 0)
      + TurnsTaken(maxInflight, tokens, Step(maxInflight, tokens, s, acts[0]), acts[1..])
  }

  lemma {:induction false} CountersCount(maxInflight: nat, tokens: bool, s: State, acts: seq<Action>)
    requires Run(maxInflight, tokens, s, acts)
    ensures var t := After(maxInflight, tokens, s, acts).ctx;
            && t.completed == s.ctx.completed + WorkerCounts(maxInflight, tokens, s, acts)
            && t.submitted == s.ctx.submitted + TurnsTaken(maxInflight, tokens, s, acts)
    decreases |acts|
  {
    if acts != [] {
      CountersCount(maxInflight, tokens, Step(maxInflight, tokens, s, acts[0]), acts[1..]);
    }
  }

  /** The two numbers a measurement reports are the worker's counting steps and the driver's turns
      between its two readings. */
  lemma ReportedNumbersAreSteps(maxInflight: nat, tokens: bool, warmup: bool, acts: seq<Action>,
                                first: Action, between: seq<Action>, second: Action)
    requires maxInflight > 0 && Run(maxInflight, tokens, Initial(warmup), acts)
    requires After(maxInflight, tokens, Initial(warmup), acts).sub.at.ReadBase? && first.Submit?
    requires var t := Step(maxInflight, tokens, After(maxInflight, tokens, Initial(warmup), acts), first);
             && Run(maxInflight, tokens, t, between)
             && After(maxInflight, tokens, t, between).sub.at.ReadEnd? && second.Submit?
    ensures var t := Step(maxInflight, tokens, After(maxInflight, tokens, Initial(warmup), acts), first);
            var u := Step(maxInflight, tokens, After(maxInflight, tokens, t, between), second).sub;
            && u.measured
            && CompletedInWindow(u) == WorkerCounts(maxInflight, tokens, t, between)
            && SubmittedInWindow(u) == TurnsTaken(maxInflight, tokens, t, between)
  {
    var s := After(maxInflight, tokens, Initial(warmup), acts);
    var t := Step(maxInflight, tokens, s, first);
    RunKeepsInv(maxInflight, tokens, Initial(warmup), acts);
    StepKeepsInv(maxInflight, tokens, s, first);
    BaselineKept(maxInflight, tokens, t, between);
    CountersCount(maxInflight, tokens, t, between);
  }

  // ----- what ends the submissions

  lemma StepAfterStop(maxInflight: nat, tokens: bool, s: State, a: Action)
    requires s.stop && Enabled(maxInflight, tokens, s, a)
    ensures var t := Step(maxInflight, tokens, s, a);
            && t.stop
            && t.ctx.submitted + (if t.sub.at.Window? && !tokens then 1 else 0)
               <= s.ctx.submitted + (if s.sub.at.Window? && !tokens then 1 else 0)
  {
  }

  /** After a stop at most one more kernel is submitted, only if the driver was at its window, and none if
      it takes tokens. */
  lemma {:induction false} StopEndsSubmitting(maxInflight: nat, tokens: bool, s: State, more: seq<Action>)
    requires s.stop && Run(maxInflight, tokens, s, more)
    ensures After(maxInflight, tokens, s, more).ctx.submitted
            <= s.ctx.submitted + (if s.sub.at.Window? && !tokens then 1 else 0)
    decreases |more|
  {
    if more != [] {
      StepAfterStop(maxInflight, tokens, s, more[0]);
      StopEndsSubmitting(maxInflight, tokens, Step(maxInflight, tokens, s, more[0]), more[1..]);
    }
  }

  /** After a failed wait nothing more is submitted or counted. */
  lemma {:induction false} FailureEndsSubmitting(maxInflight: nat, tokens: bool, s: State, more: seq<Action>)
    requires s.ctx.waitFailed && s.ctx.worker.Exited? && Run(maxInflight, tokens, s, more)
    ensures var t := After(maxInflight, tokens, s, more);
            t.ctx.submitted == s.ctx.submitted && t.ctx.completed == s.ctx.completed
    decreases |more|
  {
    if more != [] {
      FailureEndsSubmitting(maxInflight, tokens, Step(maxInflight, tokens, s, more[0]), more[1..]);
    }
  }

  // ----- how it ends

  /** A failed launch, or a failed wait seen by the driver while it still has work to do. */
  ghost predicate Ending(s: State) {
    && (s.sub.failed ==> !s.sub.measured)
    && (s.sub.at.Cleanup? || s.sub.at.Joining? || s.sub.at.Returned? ==> s.sub.failed || s.sub.measured)
    && (s.sub.measured ==> s.sub.at.Cleanup? || s.sub.at.Joining? || s.sub.at.Returned?)
  }

  lemma {:induction false} RunKeepsEnding(maxInflight: nat, tokens: bool, s: State, acts: seq<Action>)
    requires Ending(s) && Run(maxInflight, tokens, s, acts)
    requires s.sub.failed ==> s.sub.at.Cleanup? || s.sub.at.Joining? || s.sub.at.Returned?
    ensures Ending(After(maxInflight, tokens, s, acts))
    decreases |acts|
  {
    if acts != [] {
      RunKeepsEnding(maxInflight, tokens, Step(maxInflight, tokens, s, acts[0]), acts[1..]);
    }
  }

  /** A run that returns has either failed or reported a measurement, never both. */
  lemma ReturnsMeasuredOrFailed(maxInflight: nat, tokens: bool, warmup: bool, acts: seq<Action>)
    requires Run(maxInflight, tokens, Initial(warmup), acts)
    requires After(maxInflight, tokens, Initial(warmup), acts).sub.at.Returned?
    ensures After(maxInflight, tokens, Initial(warmup), acts).sub.measured
            <==> !After(maxInflight, tokens, Initial(warmup), acts).sub.failed
  {
    RunKeepsEnding(maxInflight, tokens, Initial(warmup), acts);
  }
}
