/** The low-priority launch pipeline: a submitter thread, a completion worker, an in-order
    device and an asynchronous stop flag, sharing two counters' worth of progress, a wait
    event that gates batches of kernels and a completion event.

    Every critical section and every call into the device library is one atomic step, so a
    list of `Action`s is one interleaving. Timed waits that re-check their condition are
    modelled as "not enabled". The device library is assumed to start kernels in launch
    order, kernel i only while the wait event is above its threshold, and to set the
    completion event to kernel i's value when i finishes; both events start at zero. */
module GatedLaunch {

  const UINT32_SPAN: nat := 0x1_0000_0000
  const UINT64_MAX: nat := 0xFFFF_FFFF_FFFF_FFFF
  const FIRST_GATE: nat := 4
  const FIRST_COMPLETION: nat := 10

  /** Subtraction of two 32-bit counters, with its wrap-around. */
  function Sub32(a: nat, b: nat): nat {
    (a - b) % UINT32_SPAN
  }

  datatype Config = Config(tasks: nat, maxInflight: nat, gateBatch: nat, gateDrain: bool)

  /** The launch configuration after the two corrections the driver makes. */
  function Configure(tasks: nat, inflightEnv: nat, gateBatch: nat, gateDrain: bool): Config {
    var inflight := if inflightEnv == 0 then 1 else inflightEnv;
    Config(tasks, if gateBatch != 0 && inflight < gateBatch then gateBatch else inflight, gateBatch, gateDrain)
  }

  /** All quantities are 32-bit unsigned in the driver. */
  ghost predicate Fits32(c: Config) {
    c.tasks < UINT32_SPAN && c.maxInflight < UINT32_SPAN && c.gateBatch < UINT32_SPAN
  }

  datatype Kernel = Kernel(task: nat, threshold: nat, completion: nat)

  datatype Record = Record(task: nat, completion: nat)

  /** Where the submitter stands: the next atomic step it will take. */
  datatype Submitter =
    | LoopTop | Window | StopCheck | Launch | Ungate | Fill | Publish
    | Hold | Release | Drain
    | AfterLoop | FinalHold | FinalRelease | FinalDrain
    | Finish | FlushMax | Cleanup | Join | Returned

  datatype Worker = Idle | Waiting(index: nat) | Exited

  datatype Outcome = Success | LaunchError | UpdateError | WaitError

  /** The submitter's local variables. */
  datatype Locals = Locals(at: Submitter, task: nat, inBatch: nat, gate: nat, target: nat, outcome: Outcome)

  /** What the two threads share under the mutex, with the record array and the worker's position. */
  datatype Shared = Shared(
    records: seq<Record>, nextReady: nat, nextToWait: nat, completed: nat, accepting: bool, waitFailed: bool,
    worker: Worker)

  /** The device queue and the two events. */
  datatype Device = Device(launched: seq<Kernel>, started: nat, finished: nat, waitEvent: nat, compEvent: nat)

  datatype State = State(sub: Locals, ctx: Shared, dev: Device, stop: bool)

  function Initial(c: Config): State {
    State(Locals(LoopTop, 0, 0, FIRST_GATE, 0, Success),
          Shared(seq(c.tasks, _ => Record(0, 0)), 0, 0, 0, true, false, Idle),
          Device([], 0, 0, 0, 0),
          false)
  }

  /** `Submit(ok)` is the submitter's next step, `ok` being what a library call in it reports. */
  datatype Action = Stop | Submit(ok: bool) | DeviceStart | DeviceFinish | Complete | CompleteFails

  // ----- the submitter

  predicate WindowFull(c: Config, s: State) {
    Sub32(s.ctx.nextReady, s.ctx.completed) >= c.maxInflight
  }

  predicate SubmitEnabled(c: Config, s: State, ok: bool) {
    match s.sub.at
    case Window => ok && (!WindowFull(c, s) || s.ctx.waitFailed || s.stop)
    case Drain => ok && (s.ctx.completed >= s.sub.target || s.ctx.waitFailed || s.stop)
    case FinalDrain => ok && (s.ctx.completed >= s.sub.target || s.ctx.waitFailed || s.stop)
    case Launch => true
    case Ungate => true
    case Release => true
    case FinalRelease => true
    case FlushMax => true
    case Fill => ok && s.sub.task < |s.ctx.records|
    case Join => ok && s.ctx.worker.Exited?
    case Returned => false
    case _ => ok
  }

  function Goto(s: State, at: Submitter): State {
    s.(sub := s.sub.(at := at))
  }

  function Fail(s: State, outcome: Outcome): State {
    s.(sub := s.sub.(at := Cleanup, outcome := outcome))
  }

  function NextTask(s: State): State {
    s.(sub := s.sub.(at := LoopTop, task := s.sub.task + 1))
  }

  function SetWaitEvent(s: State, v: nat): State {
    s.(dev := s.dev.(waitEvent := v))
  }

  function LaunchStep(c: Config, s: State): State {
    var threshold := if c.gateBatch == 0 then FIRST_GATE else s.sub.gate;
    var kernel := Kernel(s.sub.task, threshold, FIRST_COMPLETION + s.sub.task);
    Goto(s.(dev := s.dev.(launched := s.dev.launched + [kernel])), if c.gateBatch == 0 then Ungate else Fill)
  }

  function FillStep(s: State): State
    requires s.sub.task < |s.ctx.records|
  {
    var record := Record(s.sub.task, FIRST_COMPLETION + s.sub.task);
    Goto(s.(ctx := s.ctx.(records := s.ctx.records[s.sub.task := record])), Publish)
  }

  function PublishStep(c: Config, s: State): State {
    var t := s.(ctx := s.ctx.(nextReady := s.ctx.nextReady + 1));
    if c.gateBatch == 0 then NextTask(t)
    else
      var u := t.(sub := t.sub.(inBatch := s.sub.inBatch + 1));
      if u.sub.inBatch >= c.gateBatch then Goto(u, Hold) else NextTask(u)
  }

  function ReleaseStep(c: Config, s: State): State {
    var t := SetWaitEvent(s, s.sub.gate + 1);
    var u := t.(sub := s.sub.(gate := s.sub.gate + 2, inBatch := 0, target := s.ctx.nextReady));
    if c.gateDrain then Goto(u, Drain) else NextTask(u)
  }

  function FinalReleaseStep(c: Config, s: State): State {
    var t := SetWaitEvent(s, s.sub.gate + 1);
    if c.gateDrain then t.(sub := s.sub.(at := FinalDrain, target := s.ctx.nextReady)) else Goto(t, Finish)
  }

  function AfterDrain(s: State, proceed: State): State {
    if s.stop then Goto(s, FlushMax)
    else if s.ctx.waitFailed then Fail(s, WaitError)
    else proceed
  }

  function Refuse(s: State): State {
    s.(ctx := s.ctx.(accepting := false))
  }

  function SubmitStep(c: Config, s: State, ok: bool): State
    requires SubmitEnabled(c, s, ok)
  {
    match s.sub.at
    case LoopTop => Goto(s, if s.sub.task >= c.tasks || s.stop then AfterLoop else Window)
    case Window => if s.ctx.waitFailed then Fail(s, WaitError) else Goto(s, StopCheck)
    case StopCheck => Goto(s, if s.stop then AfterLoop else Launch)
    case Launch => if ok then LaunchStep(c, s) else Fail(s, LaunchError)
    case Ungate => if ok then Goto(SetWaitEvent(s, FIRST_GATE + 1), Fill) else Fail(s, UpdateError)
    case Fill => FillStep(s)
    case Publish => PublishStep(c, s)
    case Hold => Goto(s, if s.stop then FlushMax else Release)
    case Release => if ok then ReleaseStep(c, s) else Fail(s, UpdateError)
    case Drain => AfterDrain(s, NextTask(s))
    case AfterLoop => Goto(s, if c.gateBatch != 0 && s.sub.inBatch != 0 then FinalHold else Finish)
    case FinalHold => Goto(s, if s.stop then FlushMax else FinalRelease)
    case FinalRelease => if ok then FinalReleaseStep(c, s) else Fail(s, UpdateError)
    case FinalDrain => AfterDrain(s, Goto(s, Finish))
    case Finish => Goto(Refuse(s), Cleanup)
    case FlushMax => Goto(if ok then SetWaitEvent(s, UINT64_MAX) else s, Cleanup)
    case Cleanup => Goto(Refuse(s), Join)
    case Join =>
      var outcome := if s.ctx.waitFailed && s.sub.outcome.Success? then WaitError else s.sub.outcome;
      s.(sub := s.sub.(at := Returned, outcome := outcome))
  }

  // ----- the completion worker

  predicate CompleteEnabled(s: State) {
    match s.ctx.worker
    case Idle => s.ctx.nextToWait != s.ctx.nextReady || !s.ctx.accepting
    case Waiting(i) => i < |s.ctx.records| && s.dev.compEvent > s.ctx.records[i].completion - 1
    case Exited => false
  }

  function CompleteStep(s: State): State
    requires CompleteEnabled(s)
  {
    match s.ctx.worker
    case Idle =>
      if s.ctx.nextToWait == s.ctx.nextReady then s.(ctx := s.ctx.(worker := Exited))
      else s.(ctx := s.ctx.(worker := Waiting(s.ctx.nextToWait), nextToWait := s.ctx.nextToWait + 1))
    case Waiting(_) => s.(ctx := s.ctx.(completed := s.ctx.completed + 1, worker := Idle))
  }

  // ----- one step of the whole system

  predicate Enabled(c: Config, s: State, a: Action) {
    match a
    case Stop => !s.stop
    case Submit(ok) => SubmitEnabled(c, s, ok)
    case DeviceStart =>
      s.dev.started == s.dev.finished < |s.dev.launched| &&
      s.dev.waitEvent > s.dev.launched[s.dev.started].threshold
    case DeviceFinish => s.dev.finished < s.dev.started <= |s.dev.launched|
    case Complete => CompleteEnabled(s)
    case CompleteFails => s.ctx.worker.Waiting?
  }

  function Apply(c: Config, s: State, a: Action): State
    requires Enabled(c, s, a)
  {
    match a
    case Stop => s.(stop := true)
    case Submit(ok) => SubmitStep(c, s, ok)
    case DeviceStart => s.(dev := s.dev.(started := s.dev.started + 1))
    case DeviceFinish =>
      s.(dev := s.dev.(finished := s.dev.finished + 1, compEvent := s.dev.launched[s.dev.finished].completion))
    case Complete => CompleteStep(s)
    case CompleteFails => s.(ctx := s.ctx.(waitFailed := true, accepting := false, worker := Exited))
  }

  /** `acts` is a possible interleaving from `s`. */
  ghost predicate Run(c: Config, s: State, acts: seq<Action>)
    decreases acts
  {
    acts == [] || (Enabled(c, s, acts[0]) && Run(c, Apply(c, s, acts[0]), acts[1..]))
  }

  ghost function After(c: Config, s: State, acts: seq<Action>): State
    requires Run(c, s, acts)
    decreases acts
  {
    if acts == [] then s else After(c, Apply(c, s, acts[0]), acts[1..])
  }
}
