/** The inductive invariant of the gated launch pipeline, one predicate per concern, and the
    proof that every step of every thread keeps it. */
module GatedInvariants {
  import opened GatedLaunch

  // ----- stages of the submitter

  ghost predicate Launching(sub: Submitter) {
    sub.Window? || sub.StopCheck? || sub.Launch? || Unpublished(sub)
  }

  /** A kernel is launched but not yet published to the worker. */
  ghost predicate Unpublished(sub: Submitter) {
    sub.Ungate? || sub.Fill? || sub.Publish?
  }

  /** A full batch is being released. */
  ghost predicate Closing(sub: Submitter) {
    sub.Hold? || sub.Release? || sub.Drain?
  }

  ghost predicate Tail(sub: Submitter) {
    sub.AfterLoop? || sub.FinalHold? || sub.FinalRelease? || sub.FinalDrain? || sub.Finish?
  }

  ghost predicate Leaving(sub: Submitter) {
    sub.Cleanup? || sub.Join? || sub.Returned?
  }

  /** Somewhere in the launch loop before its batch is closed; the other stages release, flush and
      clean up. */
  ghost predicate InLoop(sub: Submitter) {
    sub.LoopTop? || Launching(sub)
  }

  // ----- counters and worker

  ghost predicate Counters(c: Config, s: State) {
    && s.ctx.completed <= s.ctx.nextToWait <= s.ctx.completed + 1
    && s.ctx.nextToWait <= s.ctx.nextReady <= c.tasks
    && s.ctx.completed <= s.dev.finished
    && (s.ctx.worker.Idle? ==> s.ctx.nextToWait == s.ctx.completed)
    && (s.ctx.worker.Waiting? ==> s.ctx.worker.index == s.ctx.completed && s.ctx.nextToWait == s.ctx.completed + 1)
    && (s.ctx.waitFailed ==> s.ctx.worker.Exited?)
    && (s.ctx.worker.Exited? ==> !s.ctx.accepting)
    && (s.ctx.worker.Exited? && !s.ctx.waitFailed ==> s.ctx.completed == s.ctx.nextReady)
    && (s.ctx.accepting ==> !s.sub.at.Join? && !s.sub.at.Returned?)
    && (!s.ctx.accepting ==> s.ctx.waitFailed || Leaving(s.sub.at))
    && (s.sub.at.Returned? ==> s.ctx.worker.Exited?)
  }

  // ----- the launch loop and the records it publishes

  ghost predicate Loop(c: Config, s: State) {
    && (s.sub.at.LoopTop? || Launching(s.sub.at) ==> s.sub.task == s.ctx.nextReady)
    && (Launching(s.sub.at) ==> s.sub.task < c.tasks)
    && (Closing(s.sub.at) ==> s.ctx.nextReady == s.sub.task + 1)
  }

  /** What has been launched when the submitter leaves the loop, and what it then waits for. */
  ghost predicate Exits(c: Config, s: State) {
    && (Tail(s.sub.at) ==> s.stop || s.ctx.nextReady == c.tasks)
    && (s.sub.at.FlushMax? ==> s.stop)
    && (s.sub.at.Drain? || s.sub.at.FinalDrain? ==> s.sub.target == s.ctx.nextReady)
  }

  ghost predicate Result(c: Config, s: State) {
    && (s.sub.outcome != Success ==> Leaving(s.sub.at))
    && (s.sub.outcome == WaitError ==> s.ctx.waitFailed)
    && (s.sub.at.Returned? && s.ctx.waitFailed ==> s.sub.outcome != Success)
    && (Leaving(s.sub.at) && s.sub.outcome == Success ==> s.stop || s.ctx.nextReady == c.tasks)
  }

  ghost predicate Published(c: Config, s: State) {
    && |s.ctx.records| == c.tasks
    && s.ctx.nextReady <= c.tasks
    && (forall i :: 0 <= i < s.ctx.nextReady ==> s.ctx.records[i] == Record(i, FIRST_COMPLETION + i))
    && (s.sub.at.Publish? ==>
          s.sub.task < c.tasks && s.ctx.records[s.sub.task] == Record(s.sub.task, FIRST_COMPLETION + s.sub.task))
  }

  // ----- device and completion event

  ghost predicate DeviceOk(c: Config, s: State) {
    && s.dev.finished <= s.dev.started <= s.dev.finished + 1
    && s.dev.started <= |s.dev.launched| <= c.tasks
    && s.ctx.nextReady <= |s.dev.launched| <= s.ctx.nextReady + 1
    && (Unpublished(s.sub.at) ==> |s.dev.launched| == s.ctx.nextReady + 1)
    && (|s.dev.launched| == s.ctx.nextReady + 1 ==>
          Unpublished(s.sub.at) || (c.gateBatch == 0 && s.sub.outcome == UpdateError))
    && s.dev.compEvent == (if s.dev.finished == 0 then 0 else FIRST_COMPLETION + s.dev.finished - 1)
  }

  ghost predicate Queued(s: State) {
    forall i :: 0 <= i < |s.dev.launched| ==>
      s.dev.launched[i].task == i && s.dev.launched[i].completion == FIRST_COMPLETION + i
  }

  /** No kernel has started before its gate was open. */
  ghost predicate Opened(s: State) {
    && s.dev.started <= |s.dev.launched|
    && (forall i :: 0 <= i < s.dev.started ==> s.dev.waitEvent > s.dev.launched[i].threshold)
  }

  // ----- the gate

  /** Kernels in batches that have been closed and released. */
  ghost function Released(s: State): int {
    s.ctx.nextReady - s.sub.inBatch
  }

  /** The gate of the batch being filled has been raised, by the final flush or by a stop. */
  ghost predicate Raised(s: State) {
    s.dev.waitEvent > s.sub.gate
  }

  ghost predicate Batches(c: Config, s: State) {
    && s.sub.inBatch <= c.gateBatch
    && s.sub.inBatch <= s.ctx.nextReady
    && FIRST_GATE <= s.sub.gate <= FIRST_GATE + 2 * Released(s)
    && (s.sub.inBatch == c.gateBatch ==> s.sub.at.Hold? || s.sub.at.Release? || s.sub.at.FlushMax? || Leaving(s.sub.at))
    && (s.sub.at.Hold? || s.sub.at.Release? ==> s.sub.inBatch == c.gateBatch)
    && (s.sub.at.Drain? ==> s.sub.inBatch == 0)
    && (s.sub.at.FinalHold? || s.sub.at.FinalRelease? || s.sub.at.FinalDrain? ==> s.sub.inBatch != 0)
    && !s.sub.at.Ungate?
  }

  /** The wait event is just above the last released batch until the final flush or a stop raises it. */
  ghost predicate GateEvent(c: Config, s: State) {
    && (!Raised(s) ==> s.dev.waitEvent == if s.sub.gate == FIRST_GATE then 0 else s.sub.gate - 1)
    && (Raised(s) ==> s.sub.at.FinalDrain? || s.sub.at.Finish? || s.sub.at.FlushMax? || Leaving(s.sub.at))
    && (Raised(s) ==> s.dev.waitEvent == s.sub.gate + 1 || s.dev.waitEvent == UINT64_MAX)
    && (s.sub.at.Finish? ==> Raised(s) || s.sub.inBatch == 0)
    && (s.sub.at.FinalDrain? ==> Raised(s))
    && (s.sub.outcome == LaunchError || s.sub.outcome == UpdateError ==> !Raised(s))
  }

  ghost predicate Thresholds(s: State) {
    && 0 <= Released(s) <= |s.dev.launched|
    && (forall i :: 0 <= i < Released(s) ==> FIRST_GATE <= s.dev.launched[i].threshold <= s.sub.gate - 2)
    && (forall i :: Released(s) <= i < |s.dev.launched| ==> s.dev.launched[i].threshold == s.sub.gate)
  }

  ghost predicate Ungated(s: State) {
    && s.sub.inBatch == 0
    && s.sub.gate == FIRST_GATE
    && !Closing(s.sub.at)
    && !s.sub.at.FinalHold? && !s.sub.at.FinalRelease? && !s.sub.at.FinalDrain? && !s.sub.at.FlushMax?
    && (forall i :: 0 <= i < |s.dev.launched| ==> s.dev.launched[i].threshold == FIRST_GATE)
    && (s.dev.waitEvent == 0 || s.dev.waitEvent == FIRST_GATE + 1)
    && (s.ctx.nextReady > 0 || s.sub.at.Fill? || s.sub.at.Publish? ==> s.dev.waitEvent == FIRST_GATE + 1)
  }

  ghost predicate Gate(c: Config, s: State) {
    if c.gateBatch == 0 then Ungated(s) else Batches(c, s) && GateEvent(c, s) && Thresholds(s)
  }

  // ----- the in-flight window

  ghost predicate InWindow(c: Config, s: State) {
    && s.ctx.nextReady - s.ctx.completed <= c.maxInflight
    && (s.sub.at.StopCheck? ==> s.stop || s.ctx.nextReady - s.ctx.completed < c.maxInflight)
    && (s.sub.at.Launch? || Unpublished(s.sub.at) ==> s.ctx.nextReady - s.ctx.completed < c.maxInflight)
  }

  ghost predicate Inv(c: Config, s: State) {
    && Counters(c, s) && Loop(c, s) && Exits(c, s) && Result(c, s) && Published(c, s)
    && DeviceOk(c, s) && Queued(s) && Opened(s) && Gate(c, s) && InWindow(c, s)
  }

  lemma InitialInv(c: Config)
    ensures Inv(c, Initial(c))
  {
  }

  // ----- preservation, concern by concern

  lemma NoWrap(c: Config, s: State)
    requires Fits32(c) && Counters(c, s)
    ensures Sub32(s.ctx.nextReady, s.ctx.completed) == s.ctx.nextReady - s.ctx.completed
  {
  }

  lemma LoopKeepsCounters(c: Config, s: State, ok: bool)
    requires SubmitEnabled(c, s, ok) && InLoop(s.sub.at)
    requires Counters(c, s) && Loop(c, s)
    ensures Counters(c, SubmitStep(c, s, ok))
  {
  }

  lemma ExitKeepsCounters(c: Config, s: State, ok: bool)
    requires SubmitEnabled(c, s, ok) && !InLoop(s.sub.at)
    requires Counters(c, s) && Loop(c, s)
    ensures Counters(c, SubmitStep(c, s, ok))
  {
  }

  lemma SubmitKeepsCounters(c: Config, s: State, ok: bool)
    requires SubmitEnabled(c, s, ok)
    requires Counters(c, s) && Loop(c, s)
    ensures Counters(c, SubmitStep(c, s, ok))
  {
    if InLoop(s.sub.at) { LoopKeepsCounters(c, s, ok); } else { ExitKeepsCounters(c, s, ok); }
  }

  lemma LoopKeepsLoop(c: Config, s: State, ok: bool)
    requires SubmitEnabled(c, s, ok) && InLoop(s.sub.at)
    requires s.ctx.nextReady <= c.tasks && Loop(c, s)
    ensures Loop(c, SubmitStep(c, s, ok))
  {
  }

  lemma ExitKeepsLoop(c: Config, s: State, ok: bool)
    requires SubmitEnabled(c, s, ok) && !InLoop(s.sub.at)
    requires s.ctx.nextReady <= c.tasks && Loop(c, s)
    ensures Loop(c, SubmitStep(c, s, ok))
  {
  }

  lemma SubmitKeepsLoop(c: Config, s: State, ok: bool)
    requires SubmitEnabled(c, s, ok)
    requires s.ctx.nextReady <= c.tasks && Loop(c, s)
    ensures Loop(c, SubmitStep(c, s, ok))
  {
    if InLoop(s.sub.at) { LoopKeepsLoop(c, s, ok); } else { ExitKeepsLoop(c, s, ok); }
  }

  lemma SubmitKeepsExits(c: Config, s: State, ok: bool)
    requires SubmitEnabled(c, s, ok)
    requires s.ctx.nextReady <= c.tasks && Loop(c, s) && Exits(c, s)
    ensures Exits(c, SubmitStep(c, s, ok))
  {
  }

  lemma SubmitKeepsResult(c: Config, s: State, ok: bool)
    requires SubmitEnabled(c, s, ok)
    requires Loop(c, s) && Exits(c, s) && Result(c, s)
    ensures Result(c, SubmitStep(c, s, ok))
  {
  }

  lemma SubmitKeepsPublished(c: Config, s: State, ok: bool)
    requires SubmitEnabled(c, s, ok)
    requires Loop(c, s) && Published(c, s)
    ensures Published(c, SubmitStep(c, s, ok))
  {
  }

  lemma LoopKeepsDevice(c: Config, s: State, ok: bool)
    requires SubmitEnabled(c, s, ok) && InLoop(s.sub.at)
    requires Loop(c, s) && Result(c, s) && Gate(c, s) && DeviceOk(c, s)
    ensures DeviceOk(c, SubmitStep(c, s, ok))
  {
  }

  lemma ExitKeepsDevice(c: Config, s: State, ok: bool)
    requires SubmitEnabled(c, s, ok) && !InLoop(s.sub.at)
    requires Loop(c, s) && Result(c, s) && Gate(c, s) && DeviceOk(c, s)
    ensures DeviceOk(c, SubmitStep(c, s, ok))
  {
  }

  lemma SubmitKeepsDevice(c: Config, s: State, ok: bool)
    requires SubmitEnabled(c, s, ok)
    requires Loop(c, s) && Result(c, s) && Gate(c, s) && DeviceOk(c, s)
    ensures DeviceOk(c, SubmitStep(c, s, ok))
  {
    if InLoop(s.sub.at) { LoopKeepsDevice(c, s, ok); } else { ExitKeepsDevice(c, s, ok); }
  }

  lemma SubmitKeepsQueued(c: Config, s: State, ok: bool)
    requires SubmitEnabled(c, s, ok)
    requires Loop(c, s) && Result(c, s) && DeviceOk(c, s) && Queued(s)
    ensures Queued(SubmitStep(c, s, ok))
  {
  }

  lemma SubmitKeepsOpened(c: Config, s: State, ok: bool)
    requires SubmitEnabled(c, s, ok)
    requires Fits32(c) && s.ctx.nextReady <= c.tasks && Gate(c, s) && Opened(s)
    ensures Opened(SubmitStep(c, s, ok))
  {
  }

  lemma SubmitKeepsUngated(c: Config, s: State, ok: bool)
    requires SubmitEnabled(c, s, ok)
    requires c.gateBatch == 0 && Loop(c, s) && DeviceOk(c, s) && Ungated(s)
    ensures Ungated(SubmitStep(c, s, ok))
  {
  }

  lemma LoopKeepsBatches(c: Config, s: State, ok: bool)
    requires SubmitEnabled(c, s, ok) && InLoop(s.sub.at)
    requires c.gateBatch != 0 && Batches(c, s)
    ensures Batches(c, SubmitStep(c, s, ok))
  {
  }

  lemma ExitKeepsBatches(c: Config, s: State, ok: bool)
    requires SubmitEnabled(c, s, ok) && !InLoop(s.sub.at)
    requires c.gateBatch != 0 && Batches(c, s)
    ensures Batches(c, SubmitStep(c, s, ok))
  {
  }

  lemma SubmitKeepsBatches(c: Config, s: State, ok: bool)
    requires SubmitEnabled(c, s, ok)
    requires c.gateBatch != 0 && Batches(c, s)
    ensures Batches(c, SubmitStep(c, s, ok))
  {
    if InLoop(s.sub.at) { LoopKeepsBatches(c, s, ok); } else { ExitKeepsBatches(c, s, ok); }
  }

  lemma LoopKeepsGateEvent(c: Config, s: State, ok: bool)
    requires SubmitEnabled(c, s, ok) && InLoop(s.sub.at)
    requires c.gateBatch != 0 && Fits32(c) && s.ctx.nextReady <= c.tasks
    requires Result(c, s) && Batches(c, s) && GateEvent(c, s)
    ensures GateEvent(c, SubmitStep(c, s, ok))
  {
  }

  lemma ExitKeepsGateEvent(c: Config, s: State, ok: bool)
    requires SubmitEnabled(c, s, ok) && !InLoop(s.sub.at)
    requires c.gateBatch != 0 && Fits32(c) && s.ctx.nextReady <= c.tasks
    requires Result(c, s) && Batches(c, s) && GateEvent(c, s)
    ensures GateEvent(c, SubmitStep(c, s, ok))
  {
  }

  lemma SubmitKeepsGateEvent(c: Config, s: State, ok: bool)
    requires SubmitEnabled(c, s, ok)
    requires c.gateBatch != 0 && Fits32(c) && s.ctx.nextReady <= c.tasks
    requires Result(c, s) && Batches(c, s) && GateEvent(c, s)
    ensures GateEvent(c, SubmitStep(c, s, ok))
  {
    if InLoop(s.sub.at) { LoopKeepsGateEvent(c, s, ok); } else { ExitKeepsGateEvent(c, s, ok); }
  }

  lemma LoopKeepsThresholds(c: Config, s: State, ok: bool)
    requires SubmitEnabled(c, s, ok) && InLoop(s.sub.at)
    requires c.gateBatch != 0 && DeviceOk(c, s) && Result(c, s) && Batches(c, s) && Thresholds(s)
    ensures Thresholds(SubmitStep(c, s, ok))
  {
  }

  lemma ExitKeepsThresholds(c: Config, s: State, ok: bool)
    requires SubmitEnabled(c, s, ok) && !InLoop(s.sub.at)
    requires c.gateBatch != 0 && DeviceOk(c, s) && Result(c, s) && Batches(c, s) && Thresholds(s)
    ensures Thresholds(SubmitStep(c, s, ok))
  {
  }

  lemma SubmitKeepsThresholds(c: Config, s: State, ok: bool)
    requires SubmitEnabled(c, s, ok)
    requires c.gateBatch != 0 && DeviceOk(c, s) && Result(c, s) && Batches(c, s) && Thresholds(s)
    ensures Thresholds(SubmitStep(c, s, ok))
  {
    if InLoop(s.sub.at) { LoopKeepsThresholds(c, s, ok); } else { ExitKeepsThresholds(c, s, ok); }
  }

  lemma SubmitKeepsWindow(c: Config, s: State, ok: bool)
    requires SubmitEnabled(c, s, ok)
    requires Fits32(c) && Counters(c, s) && InWindow(c, s)
    ensures InWindow(c, SubmitStep(c, s, ok))
  {
    NoWrap(c, s);
  }

  lemma StartKeepsInv(c: Config, s: State)
    requires Inv(c, s) && Enabled(c, s, DeviceStart)
    ensures Inv(c, Apply(c, s, DeviceStart))
  {
  }

  lemma FinishKeepsInv(c: Config, s: State)
    requires Inv(c, s) && Enabled(c, s, DeviceFinish)
    ensures Inv(c, Apply(c, s, DeviceFinish))
  {
  }

  lemma CompleteKeepsCounters(c: Config, s: State)
    requires Counters(c, s) && Published(c, s) && DeviceOk(c, s) && CompleteEnabled(s)
    ensures Counters(c, CompleteStep(s))
  {
  }

  lemma CompleteKeepsLoop(c: Config, s: State)
    requires Inv(c, s) && CompleteEnabled(s)
    ensures var t := CompleteStep(s);
            Loop(c, t) && Exits(c, t) && Result(c, t) && Published(c, t) && InWindow(c, t)
  {
  }

  lemma CompleteKeepsDevice(c: Config, s: State)
    requires Inv(c, s) && CompleteEnabled(s)
    ensures var t := CompleteStep(s); DeviceOk(c, t) && Queued(t) && Opened(t) && Gate(c, t)
  {
  }

  lemma CompleteKeepsInv(c: Config, s: State)
    requires Inv(c, s) && CompleteEnabled(s)
    ensures Inv(c, CompleteStep(s))
  {
    CompleteKeepsCounters(c, s);
    CompleteKeepsLoop(c, s);
    CompleteKeepsDevice(c, s);
  }

  lemma FailureKeepsInv(c: Config, s: State)
    requires Inv(c, s) && Enabled(c, s, CompleteFails)
    ensures Inv(c, Apply(c, s, CompleteFails))
  {
  }

  lemma StepKeepsInv(c: Config, s: State, a: Action)
    requires Fits32(c) && Inv(c, s) && Enabled(c, s, a)
    ensures Inv(c, Apply(c, s, a))
  {
    match a
    case Submit(ok) =>
      SubmitKeepsCounters(c, s, ok);
      SubmitKeepsLoop(c, s, ok);
      SubmitKeepsExits(c, s, ok);
      SubmitKeepsResult(c, s, ok);
      SubmitKeepsPublished(c, s, ok);
      SubmitKeepsDevice(c, s, ok);
      SubmitKeepsQueued(c, s, ok);
      SubmitKeepsOpened(c, s, ok);
      if c.gateBatch == 0 { SubmitKeepsUngated(c, s, ok); } else {
        SubmitKeepsBatches(c, s, ok);
        SubmitKeepsGateEvent(c, s, ok);
        SubmitKeepsThresholds(c, s, ok);
      }
      SubmitKeepsWindow(c, s, ok);
    case Stop =>
    case DeviceStart => StartKeepsInv(c, s);
    case DeviceFinish => FinishKeepsInv(c, s);
    case Complete => CompleteKeepsInv(c, s);
    case CompleteFails => FailureKeepsInv(c, s);
  }

  lemma {:induction false} RunKeepsInv(c: Config, s: State, acts: seq<Action>)
    requires Fits32(c) && Inv(c, s) && Run(c, s, acts)
    ensures Inv(c, After(c, s, acts))
    decreases acts
  {
    if acts != [] {
      StepKeepsInv(c, s, acts[0]);
      RunKeepsInv(c, Apply(c, s, acts[0]), acts[1..]);
    }
  }
}
