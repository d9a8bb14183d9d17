/** What every run of the gated launch pipeline guarantees. */
module GatedTheorems {
  import opened GatedLaunch
  import opened GatedInvariants

  // ----- every run ends

  function SubmitterMeasure(c: Config, l: Locals): int {
    var left := 10 * (c.tasks - l.task);
    match l.at
    case LoopTop => left + 13
    case Window => left + 12
    case StopCheck => left + 11
    case Launch => left + 10
    case Ungate => left + 9
    case Fill => left + 8
    case Publish => left + 7
    case Hold => left + 6
    case Release => left + 5
    case Drain => left + 4
    case AfterLoop => 9
    case FinalHold => 8
    case FinalRelease => 7
    case FinalDrain => 6
    case Finish => 4
    case FlushMax => 3
    case Cleanup => 2
    case Join => 1
    case Returned => 0
  }

  function WorkerMeasure(c: Config, x: Shared): int {
    match x.worker
    case Idle => 2 * (c.tasks - x.completed) + 2
    case Waiting(_) => 2 * (c.tasks - x.completed) + 1
    case Exited => 0
  }

  /** What the whole system still has to do: a number every step brings down. */
  ghost function Measure(c: Config, s: State): int {
    SubmitterMeasure(c, s.sub) + WorkerMeasure(c, s.ctx)
    + (2 * c.tasks - s.dev.started - s.dev.finished) + (if s.stop then 0 else 1)
  }

  lemma MeasureBounds(c: Config, s: State)
    requires Inv(c, s)
    ensures 0 <= Measure(c, s)
  {
  }

  lemma LoopDecreases(c: Config, s: State, ok: bool)
    requires Loop(c, s) && s.ctx.nextReady <= c.tasks && SubmitEnabled(c, s, ok) && InLoop(s.sub.at)
    ensures SubmitterMeasure(c, SubmitStep(c, s, ok).sub) < SubmitterMeasure(c, s.sub)
    ensures var t := SubmitStep(c, s, ok);
            t.ctx.worker == s.ctx.worker && t.ctx.completed == s.ctx.completed && t.stop == s.stop &&
            t.dev.started == s.dev.started && t.dev.finished == s.dev.finished
  {
  }

  lemma ExitDecreases(c: Config, s: State, ok: bool)
    requires Loop(c, s) && s.ctx.nextReady <= c.tasks && SubmitEnabled(c, s, ok) && !InLoop(s.sub.at)
    ensures SubmitterMeasure(c, SubmitStep(c, s, ok).sub) < SubmitterMeasure(c, s.sub)
    ensures var t := SubmitStep(c, s, ok);
            t.ctx.worker == s.ctx.worker && t.ctx.completed == s.ctx.completed && t.stop == s.stop &&
            t.dev.started == s.dev.started && t.dev.finished == s.dev.finished
  {
  }

  lemma SubmitDecreases(c: Config, s: State, ok: bool)
    requires Loop(c, s) && s.ctx.nextReady <= c.tasks && SubmitEnabled(c, s, ok)
    ensures SubmitterMeasure(c, SubmitStep(c, s, ok).sub) < SubmitterMeasure(c, s.sub)
    ensures var t := SubmitStep(c, s, ok);
            t.ctx.worker == s.ctx.worker && t.ctx.completed == s.ctx.completed && t.stop == s.stop &&
            t.dev.started == s.dev.started && t.dev.finished == s.dev.finished
  {
    if InLoop(s.sub.at) { LoopDecreases(c, s, ok); } else { ExitDecreases(c, s, ok); }
  }

  lemma StepDecreases(c: Config, s: State, a: Action)
    requires Inv(c, s) && Enabled(c, s, a)
    ensures Measure(c, Apply(c, s, a)) < Measure(c, s)
  {
    if a.Submit? { SubmitDecreases(c, s, a.ok); }
  }

  lemma {:induction false} MeasureCountsSteps(c: Config, s: State, acts: seq<Action>)
    requires Fits32(c) && Inv(c, s) && Run(c, s, acts)
    ensures |acts| <= Measure(c, s)
    decreases acts
  {
    MeasureBounds(c, s);
    if acts != [] {
      StepKeepsInv(c, s, acts[0]);
      StepDecreases(c, s, acts[0]);
      MeasureCountsSteps(c, Apply(c, s, acts[0]), acts[1..]);
    }
  }

  /** No interleaving, with whatever failures and whenever a stop arrives, is longer than this. */
  lemma RunsAreBounded(c: Config, acts: seq<Action>)
    requires Fits32(c) && Run(c, Initial(c), acts)
    ensures |acts| <= 14 * c.tasks + 16
  {
    InitialInv(c);
    MeasureCountsSteps(c, Initial(c), acts);
  }

  // ----- progress

  ghost predicate Faultless(acts: seq<Action>) {
    forall i :: 0 <= i < |acts| ==> acts[i] != CompleteFails && acts[i] != Submit(false)
  }

  /** Nothing can happen any more, apart from a stop request or a failing call. */
  ghost predicate Stuck(c: Config, s: State) {
    && !Enabled(c, s, Submit(true))
    && !Enabled(c, s, DeviceStart)
    && !Enabled(c, s, DeviceFinish)
    && !Enabled(c, s, Complete)
  }

  /** No call has failed on the way here. */
  ghost predicate Clean(c: Config, s: State) {
    && s.sub.outcome == Success
    && !s.ctx.waitFailed
    && (c.gateBatch != 0 && Leaving(s.sub.at) ==> Raised(s) || s.sub.inBatch == 0)
  }

  lemma SubmitKeepsClean(c: Config, s: State)
    requires Fits32(c) && Inv(c, s) && Clean(c, s) && SubmitEnabled(c, s, true)
    ensures Clean(c, SubmitStep(c, s, true))
  {
  }

  lemma StepKeepsClean(c: Config, s: State, a: Action)
    requires Fits32(c) && Inv(c, s) && Clean(c, s) && Enabled(c, s, a)
    requires a != CompleteFails && a != Submit(false)
    ensures Clean(c, Apply(c, s, a))
  {
    if a.Submit? { SubmitKeepsClean(c, s); }
  }

  lemma {:induction false} RunKeepsClean(c: Config, s: State, acts: seq<Action>)
    requires Fits32(c) && Inv(c, s) && Clean(c, s) && Run(c, s, acts) && Faultless(acts)
    ensures Clean(c, After(c, s, acts))
    decreases acts
  {
    if acts != [] {
      assert acts[0] != CompleteFails && acts[0] != Submit(false);
      StepKeepsClean(c, s, acts[0]);
      StepKeepsInv(c, s, acts[0]);
      RunKeepsClean(c, Apply(c, s, acts[0]), acts[1..]);
    }
  }

  /** While a released kernel is uncounted, the device or the worker can move. */
  lemma ReleasedMoves(c: Config, s: State)
    requires Inv(c, s) && !s.ctx.waitFailed
    requires s.ctx.completed < s.ctx.nextReady
    requires s.dev.launched[s.ctx.completed].threshold < s.dev.waitEvent
    ensures !Stuck(c, s)
  {
    if s.dev.started > s.dev.finished {
      assert Enabled(c, s, DeviceFinish);
    } else if s.dev.finished == s.ctx.completed {
      assert Enabled(c, s, DeviceStart);
    } else {
      assert Enabled(c, s, Complete);
    }
  }

  /** When the window cannot be shut by a batch that is still being filled. */
  ghost predicate WindowSuffices(c: Config) {
    c.tasks <= c.maxInflight || (c.maxInflight >= 1 && c.maxInflight >= c.gateBatch)
  }

  /** The oldest uncounted kernel of a blocked submitter is in a released batch. */
  lemma BlockedOnReleased(c: Config, s: State)
    requires Fits32(c) && Inv(c, s) && Clean(c, s) && WindowSuffices(c)
    requires s.sub.at.Window? || s.sub.at.Drain? || s.sub.at.FinalDrain?
    requires !SubmitEnabled(c, s, true)
    ensures s.ctx.completed < s.ctx.nextReady
    ensures s.dev.launched[s.ctx.completed].threshold < s.dev.waitEvent
  {
    NoWrap(c, s);
    assert s.ctx.completed < s.ctx.nextReady;
    if c.gateBatch != 0 && !s.sub.at.FinalDrain? {
      assert s.ctx.completed < Released(s);
      assert FIRST_GATE <= s.dev.launched[s.ctx.completed].threshold;
    }
  }

  /** A submitter waiting for the worker has nothing gated left to wait for. */
  lemma JoinOnReleased(c: Config, s: State)
    requires Inv(c, s) && Clean(c, s) && s.sub.at.Join? && s.ctx.completed < s.ctx.nextReady
    ensures s.dev.launched[s.ctx.completed].threshold < s.dev.waitEvent
  {
  }

  lemma OnlyReturnedIsStuck(c: Config, s: State)
    requires Fits32(c) && Inv(c, s) && Clean(c, s) && WindowSuffices(c) && Stuck(c, s)
    ensures s.sub.at.Returned?
  {
    match s.sub.at
    case Returned =>
    case Window => BlockedOnReleased(c, s); ReleasedMoves(c, s);
    case Drain => BlockedOnReleased(c, s); ReleasedMoves(c, s);
    case FinalDrain => BlockedOnReleased(c, s); ReleasedMoves(c, s);
    case Join =>
      if s.ctx.completed < s.ctx.nextReady { JoinOnReleased(c, s); ReleasedMoves(c, s); }
    case _ =>
  }

  /** A run without failing calls that can go no further has returned, successfully, with every
      launched kernel finished and counted; without a stop request those are all the tasks. */
  lemma FaultlessRunsComplete(c: Config, acts: seq<Action>)
    requires Fits32(c) && WindowSuffices(c)
    requires Run(c, Initial(c), acts) && Faultless(acts) && Stuck(c, After(c, Initial(c), acts))
    ensures var s := After(c, Initial(c), acts);
            && s.sub.at.Returned? && s.sub.outcome == Success && s.ctx.worker.Exited?
            && s.ctx.completed == s.ctx.nextReady == s.dev.finished == |s.dev.launched|
            && (!s.stop ==> s.ctx.completed == c.tasks)
  {
    var s := After(c, Initial(c), acts);
    InitialInv(c);
    RunKeepsInv(c, Initial(c), acts);
    RunKeepsClean(c, Initial(c), acts);
    OnlyReturnedIsStuck(c, s);
  }

  // ----- the window fix-up is exactly what deadlock freedom needs

  ghost predicate DeadlockFree(c: Config) {
    forall acts: seq<Action> | Run(c, Initial(c), acts) && Faultless(acts) ::
      Stuck(c, After(c, Initial(c), acts)) ==> After(c, Initial(c), acts).sub.at.Returned?
  }

  lemma {:induction false} RunAppend(c: Config, s: State, a: seq<Action>, b: seq<Action>)
    requires Run(c, s, a) && Run(c, After(c, s, a), b)
    ensures Run(c, s, a + b) && After(c, s, a + b) == After(c, After(c, s, a), b)
    decreases a
  {
    if a == [] {
      assert a + b == b;
    } else {
      assert (a + b)[0] == a[0] && (a + b)[1..] == a[1..] + b;
      RunAppend(c, Apply(c, s, a[0]), a[1..], b);
    }
  }

  lemma OneMore(c: Config, acts: seq<Action>, a: Action) returns (longer: seq<Action>)
    requires Run(c, Initial(c), acts) && Faultless(acts)
    requires Enabled(c, After(c, Initial(c), acts), a) && a != CompleteFails && a != Submit(false)
    ensures Run(c, Initial(c), longer) && Faultless(longer)
    ensures After(c, Initial(c), longer) == Apply(c, After(c, Initial(c), acts), a)
  {
    longer := acts + [a];
    var s := After(c, Initial(c), acts);
    assert [a][1..] == [];
    assert Run(c, Apply(c, s, a), []);
    assert Run(c, s, [a]);
    RunAppend(c, Initial(c), acts, [a]);
  }

  /** The first k kernels are launched into an open batch and nobody else has moved. */
  ghost predicate Filled(c: Config, s: State, k: nat) {
    && s.sub == Locals(LoopTop, k, k, FIRST_GATE, 0, Success)
    && |s.ctx.records| == c.tasks
    && s.ctx == Shared(s.ctx.records, k, 0, 0, true, false, Idle)
    && s.dev == Device(s.dev.launched, 0, 0, 0, 0)
    && !s.stop
  }

  lemma {:induction false} FillBatch(c: Config, k: nat) returns (acts: seq<Action>)
    requires Fits32(c) && k <= c.tasks && k <= c.maxInflight && (k == 0 || k < c.gateBatch)
    ensures Run(c, Initial(c), acts) && Faultless(acts)
    ensures Filled(c, After(c, Initial(c), acts), k)
  {
    if k == 0 {
      acts := [];
    } else {
      acts := FillBatch(c, k - 1);
      acts := OneMore(c, acts, Submit(true));
      acts := OneMore(c, acts, Submit(true));
      acts := OneMore(c, acts, Submit(true));
      acts := OneMore(c, acts, Submit(true));
      acts := OneMore(c, acts, Submit(true));
      acts := OneMore(c, acts, Submit(true));
    }
  }

  /** A batch larger than the window shuts it: the submitter waits for kernels only it can release. */
  lemma LargeBatchDeadlocks(c: Config) returns (acts: seq<Action>)
    requires Fits32(c) && !WindowSuffices(c)
    ensures Run(c, Initial(c), acts) && Faultless(acts)
    ensures var s := After(c, Initial(c), acts); Stuck(c, s) && s.sub.at.Window?
  {
    acts := FillBatch(c, c.maxInflight);
    acts := OneMore(c, acts, Submit(true));
    InitialInv(c);
    if c.maxInflight > 0 {
      acts := OneMore(c, acts, Complete);
    }
    RunKeepsInv(c, Initial(c), acts);
  }

  lemma DeadlockFreedom(c: Config)
    requires Fits32(c)
    ensures DeadlockFree(c) <==> WindowSuffices(c)
  {
    if WindowSuffices(c) {
      forall acts: seq<Action> | Run(c, Initial(c), acts) && Faultless(acts) && Stuck(c, After(c, Initial(c), acts))
        ensures After(c, Initial(c), acts).sub.at.Returned?
      {
        FaultlessRunsComplete(c, acts);
      }
    } else {
      var acts := LargeBatchDeadlocks(c);
    }
  }

  /** The driver's two corrections leave a deadlock-free configuration, with the smallest window that is
      at least one, at least a batch and at least what was asked for; when they change the window, the one
      asked for would deadlock, unless every task fits into it. */
  lemma ConfigureSuffices(tasks: nat, inflightEnv: nat, gateBatch: nat, gateDrain: bool)
    ensures WindowSuffices(Configure(tasks, inflightEnv, gateBatch, gateDrain))
    ensures var c := Configure(tasks, inflightEnv, gateBatch, gateDrain);
            && c.tasks == tasks && c.gateBatch == gateBatch && c.gateDrain == gateDrain
            && c.maxInflight >= 1 && c.maxInflight >= gateBatch && c.maxInflight >= inflightEnv
            && (c.maxInflight == 1 || c.maxInflight == gateBatch || c.maxInflight == inflightEnv)
    ensures Configure(tasks, inflightEnv, gateBatch, gateDrain).maxInflight == inflightEnv
            || tasks <= inflightEnv
            || !WindowSuffices(Config(tasks, inflightEnv, gateBatch, gateDrain))
  {
  }
}
