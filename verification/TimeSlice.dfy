/** The time-slice microbenchmark: warm up, drain, then count what completes in a fixed window. A
    kernel is counted as submitted before it is launched; the completion worker follows the device. */
module TimeSlice {

  /** Where the submitter stands, in the warm-up or in the measured phase. */
  datatype At =
    | Top | Window | Launching      // the drive loop
    | Drain | ReadBase | ReadEnd
    | Cleanup | Joining | Returned

  datatype Submitter = Submitter(at: At, measuring: bool, baseSubmitted: nat, baseCompleted: nat,
                                 endSubmitted: nat, endCompleted: nat, measured: bool, failed: bool)

  datatype Worker = Idle | Waiting | Exited

  datatype Shared = Shared(submitted: nat, completed: nat, accepting: bool, waitFailed: bool, worker: Worker)

  /** Kernels launched and finished; the completion event counts the finished ones. */
  datatype Device = Device(launched: nat, finished: nat)

  datatype State = State(sub: Submitter, ctx: Shared, dev: Device, stop: bool)

  function Initial(warmup: bool): State {
    State(Submitter(if warmup then Top else ReadBase, false, 0, 0, 0, 0, false, false),
          Shared(0, 0, true, false, Idle), Device(0, 0), false)
  }

  /** What the submitter sees when it leaves the window wait. */
  datatype Turn = DeadlinePassed | NoToken | Go

  datatype Action = Stop | Submit(turn: Turn, ok: bool) | Finish | Complete | CompleteFails

  function Inflight(s: State): int {
    s.ctx.submitted - s.ctx.completed
  }

  predicate SubmitEnabled(maxInflight: nat, tokens: bool, s: State, turn: Turn) {
    match s.sub.at
    case Window =>
      && (Inflight(s) < maxInflight || s.ctx.waitFailed || s.stop)
      && (turn.NoToken? ==> tokens)
      && (turn.Go? && tokens ==> !s.stop)
    case Drain => s.ctx.completed >= s.ctx.submitted || s.ctx.waitFailed || s.stop
    case Joining => s.ctx.worker.Exited?
    case Returned => false
    case _ => true
  }

  function Goto(s: State, at: At): State {
    s.(sub := s.sub.(at := at))
  }

  function Fail(s: State): State {
    s.(sub := s.sub.(at := Cleanup, failed := true))
  }

  /** The drive loop ends: after the warm-up comes the drain, after the measurement the reading. */
  function EndDrive(s: State): State {
    Goto(s, if s.sub.measuring then ReadEnd else Drain)
  }

  function SubmitStep(maxInflight: nat, tokens: bool, s: State, turn: Turn, ok: bool): State
    requires SubmitEnabled(maxInflight, tokens, s, turn)
  {
    match s.sub.at
    case Top => if s.stop then EndDrive(s) else Goto(s, Window)
    case Window =>
      if s.ctx.waitFailed then Fail(s)
      else if !turn.Go? then EndDrive(s)
      else Goto(s.(ctx := s.ctx.(submitted := s.ctx.submitted + 1)), Launching)
    case Launching => if ok then Goto(s.(dev := s.dev.(launched := s.dev.launched + 1)), Top) else Fail(s)
    case Drain => if s.ctx.waitFailed then Fail(s) else Goto(s, ReadBase)
    case ReadBase =>
      s.(sub := s.sub.(at := Top, measuring := true,
                       baseSubmitted := s.ctx.submitted, baseCompleted := s.ctx.completed))
    case ReadEnd =>
      s.(sub := s.sub.(at := Cleanup, measured := true,
                       endSubmitted := s.ctx.submitted, endCompleted := s.ctx.completed))
    case Cleanup => Goto(s.(ctx := s.ctx.(accepting := false)), Joining)
    case Joining => Goto(s, Returned)
  }

  predicate CompleteEnabled(s: State) {
    match s.ctx.worker
    case Idle => s.ctx.completed < s.ctx.submitted || !s.ctx.accepting
    case Waiting => s.dev.finished > s.ctx.completed
    case Exited => false
  }

  function CompleteStep(s: State): State
    requires CompleteEnabled(s)
  {
    match s.ctx.worker
    case Idle => s.(ctx := s.ctx.(worker := if s.ctx.completed < s.ctx.submitted then Waiting else Exited))
    case Waiting => s.(ctx := s.ctx.(completed := s.ctx.completed + 1, worker := Idle))
  }

  predicate Enabled(maxInflight: nat, tokens: bool, s: State, a: Action) {
    match a
    case Stop => !s.stop
    case Submit(turn, _) => SubmitEnabled(maxInflight, tokens, s, turn)
    case Finish => s.dev.finished < s.dev.launched
    case Complete => CompleteEnabled(s)
    case CompleteFails => s.ctx.worker.Waiting?
  }

  function Step(maxInflight: nat, tokens: bool, s: State, a: Action): State
    requires Enabled(maxInflight, tokens, s, a)
  {
    match a
    case Stop => s.(stop := true)
    case Submit(turn, ok) => SubmitStep(maxInflight, tokens, s, turn, ok)
    case Finish => s.(dev := s.dev.(finished := s.dev.finished + 1))
    case Complete => CompleteStep(s)
    case CompleteFails => s.(ctx := s.ctx.(waitFailed := true, accepting := false, worker := Exited))
  }

  ghost predicate Run(maxInflight: nat, tokens: bool, s: State, acts: seq<Action>)
    decreases |acts|
  {
    acts == [] ||
    (Enabled(maxInflight, tokens, s, acts[0]) &&
     Run(maxInflight, tokens, Step(maxInflight, tokens, s, acts[0]), acts[1..]))
  }

  ghost function After(maxInflight: nat, tokens: bool, s: State, acts: seq<Action>): State
    requires Run(maxInflight, tokens, s, acts)
    decreases |acts|
  {
    if acts == [] then s else After(maxInflight, tokens, Step(maxInflight, tokens, s, acts[0]), acts[1..])
  }

  // ----- the invariant

  ghost predicate Counting(maxInflight: nat, tokens: bool, s: State) {
    && s.ctx.completed <= s.dev.finished <= s.dev.launched <= s.ctx.submitted
    && (s.ctx.worker.Waiting? ==> s.ctx.completed < s.ctx.submitted)
    && (s.sub.at.Launching? ==> s.dev.launched + 1 == s.ctx.submitted)
    && (!s.sub.failed && !s.sub.at.Launching? ==> s.dev.launched == s.ctx.submitted)
    && (s.sub.failed ==> s.sub.at.Cleanup? || s.sub.at.Joining? || s.sub.at.Returned?)
    && (s.sub.at.Window? ==> Inflight(s) <= maxInflight)
    && (Inflight(s) > maxInflight ==> s.stop && !tokens && Inflight(s) == maxInflight + 1)
  }

  ghost predicate Measuring(s: State) {
    && (s.sub.at.Drain? ==> !s.sub.measuring)
    && (s.sub.at.ReadBase? ==> !s.sub.measuring && (s.stop || Inflight(s) == 0))
    && (s.sub.at.ReadEnd? ==> s.sub.measuring)
    && (s.sub.measured ==> s.sub.measuring)
    && s.sub.baseCompleted <= s.sub.baseSubmitted <= s.ctx.submitted
    && s.sub.baseCompleted <= s.ctx.completed
    && (s.sub.measuring && !s.stop ==> s.sub.baseSubmitted == s.sub.baseCompleted)
  }

  /** What the two readings of the measured phase say. */
  ghost predicate ReadingsOk(maxInflight: nat, tokens: bool, s: State) {
    s.sub.measured ==>
      && s.sub.baseSubmitted <= s.sub.endSubmitted && s.sub.baseCompleted <= s.sub.endCompleted <= s.sub.endSubmitted
      && s.sub.endSubmitted - s.sub.endCompleted <= maxInflight + (if s.stop && !tokens then 1 else 0)
  }

  lemma SubmitKeepsCounting(maxInflight: nat, tokens: bool, s: State, turn: Turn, ok: bool)
    requires Counting(maxInflight, tokens, s) && SubmitEnabled(maxInflight, tokens, s, turn)
    requires maxInflight > 0
    ensures Counting(maxInflight, tokens, SubmitStep(maxInflight, tokens, s, turn, ok))
  {
  }

  lemma StepKeepsCounting(maxInflight: nat, tokens: bool, s: State, a: Action)
    requires Counting(maxInflight, tokens, s) && Enabled(maxInflight, tokens, s, a)
    requires maxInflight > 0
    ensures Counting(maxInflight, tokens, Step(maxInflight, tokens, s, a))
  {
    if a.Submit? { SubmitKeepsCounting(maxInflight, tokens, s, a.turn, a.ok); }
  }

  lemma SubmitKeepsMeasuring(maxInflight: nat, tokens: bool, s: State, turn: Turn, ok: bool)
    requires Counting(maxInflight, tokens, s) && Measuring(s) && SubmitEnabled(maxInflight, tokens, s, turn)
    ensures Measuring(SubmitStep(maxInflight, tokens, s, turn, ok))
  {
  }

  lemma StepKeepsMeasuring(maxInflight: nat, tokens: bool, s: State, a: Action)
    requires Counting(maxInflight, tokens, s) && Measuring(s) && Enabled(maxInflight, tokens, s, a)
    ensures Measuring(Step(maxInflight, tokens, s, a))
  {
    if a.Submit? { SubmitKeepsMeasuring(maxInflight, tokens, s, a.turn, a.ok); }
  }

  lemma StepKeepsReadings(maxInflight: nat, tokens: bool, s: State, a: Action)
    requires Counting(maxInflight, tokens, s) && Measuring(s) && ReadingsOk(maxInflight, tokens, s)
    requires Enabled(maxInflight, tokens, s, a)
    ensures ReadingsOk(maxInflight, tokens, Step(maxInflight, tokens, s, a))
  {
  }

  ghost predicate Inv(maxInflight: nat, tokens: bool, s: State) {
    Counting(maxInflight, tokens, s) && Measuring(s) && ReadingsOk(maxInflight, tokens, s)
  }

  lemma StepKeepsInv(maxInflight: nat, tokens: bool, s: State, a: Action)
    requires maxInflight > 0 && Inv(maxInflight, tokens, s) && Enabled(maxInflight, tokens, s, a)
    ensures Inv(maxInflight, tokens, Step(maxInflight, tokens, s, a))
  {
    StepKeepsCounting(maxInflight, tokens, s, a);
    StepKeepsMeasuring(maxInflight, tokens, s, a);
    StepKeepsReadings(maxInflight, tokens, s, a);
  }

  lemma {:induction false} RunKeepsInv(maxInflight: nat, tokens: bool, s: State, acts: seq<Action>)
    requires maxInflight > 0 && Inv(maxInflight, tokens, s) && Run(maxInflight, tokens, s, acts)
    ensures Inv(maxInflight, tokens, After(maxInflight, tokens, s, acts))
    decreases |acts|
  {
    if acts != [] {
      StepKeepsInv(maxInflight, tokens, s, acts[0]);
      RunKeepsInv(maxInflight, tokens, Step(maxInflight, tokens, s, acts[0]), acts[1..]);
    }
  }

  /** Kernels submitted and completed between the two readings. */
  function SubmittedInWindow(u: Submitter): int {
    u.endSubmitted - u.baseSubmitted
  }

  function CompletedInWindow(u: Submitter): int {
    u.endCompleted - u.baseCompleted
  }

  /** Whenever a stop comes: neither reported number is negative, and the kernels left in flight by
      the measurement keep the limit, but for the one a stop can let through. */
  lemma MeasurementLeavesLimit(maxInflight: nat, tokens: bool, warmup: bool, acts: seq<Action>)
    requires maxInflight > 0 && Run(maxInflight, tokens, Initial(warmup), acts)
    requires After(maxInflight, tokens, Initial(warmup), acts).sub.measured
    ensures var s := After(maxInflight, tokens, Initial(warmup), acts);
            && 0 <= SubmittedInWindow(s.sub) && 0 <= CompletedInWindow(s.sub)
            && 0 <= s.sub.endSubmitted - s.sub.endCompleted <= maxInflight + (if s.stop && !tokens then 1 else 0)
  {
    RunKeepsInv(maxInflight, tokens, Initial(warmup), acts);
  }

  /** If no stop has arrived by the time the measured phase begins, it begins with nothing in flight. */
  lemma MeasurementStartsDrained(maxInflight: nat, tokens: bool, warmup: bool, acts: seq<Action>, turn: Turn, ok: bool)
    requires maxInflight > 0 && Run(maxInflight, tokens, Initial(warmup), acts)
    requires var s := After(maxInflight, tokens, Initial(warmup), acts); s.sub.at.ReadBase? && !s.stop
    ensures var s := After(maxInflight, tokens, Initial(warmup), acts);
            var t := Step(maxInflight, tokens, s, Submit(turn, ok));
            t.sub.baseSubmitted == t.sub.baseCompleted == s.ctx.submitted
  {
    RunKeepsInv(maxInflight, tokens, Initial(warmup), acts);
  }

  lemma StepKeepsBaseline(maxInflight: nat, tokens: bool, s: State, a: Action)
    requires Measuring(s) && s.sub.measuring && Enabled(maxInflight, tokens, s, a)
    ensures var t := Step(maxInflight, tokens, s, a).sub;
            t.measuring && t.baseSubmitted == s.sub.baseSubmitted && t.baseCompleted == s.sub.baseCompleted
  {
  }

  lemma {:induction false} BaselineKept(maxInflight: nat, tokens: bool, s: State, acts: seq<Action>)
    requires maxInflight > 0 && Inv(maxInflight, tokens, s) && s.sub.measuring
    requires Run(maxInflight, tokens, s, acts)
    ensures var t := After(maxInflight, tokens, s, acts).sub;
            t.baseSubmitted == s.sub.baseSubmitted && t.baseCompleted == s.sub.baseCompleted
    decreases |acts|
  {
    if acts != [] {
      StepKeepsInv(maxInflight, tokens, s, acts[0]);
      StepKeepsBaseline(maxInflight, tokens, s, acts[0]);
      BaselineKept(maxInflight, tokens, Step(maxInflight, tokens, s, acts[0]), acts[1..]);
    }
  }

  /** A measurement that begins before any stop completes no more than it submits, and leaves at most
      the in-flight limit, plus the one extra kernel a stop can let through when there are no tokens. */
  lemma MeasurementConserves(maxInflight: nat, tokens: bool, warmup: bool, acts: seq<Action>,
                             turn: Turn, ok: bool, rest: seq<Action>)
    requires maxInflight > 0 && Run(maxInflight, tokens, Initial(warmup), acts)
    requires var s := After(maxInflight, tokens, Initial(warmup), acts); s.sub.at.ReadBase? && !s.stop
    requires var t := Step(maxInflight, tokens, After(maxInflight, tokens, Initial(warmup), acts), Submit(turn, ok));
             Run(maxInflight, tokens, t, rest) && After(maxInflight, tokens, t, rest).sub.measured
    ensures var t := Step(maxInflight, tokens, After(maxInflight, tokens, Initial(warmup), acts), Submit(turn, ok));
            var u := After(maxInflight, tokens, t, rest);
            && 0 <= CompletedInWindow(u.sub) <= SubmittedInWindow(u.sub)
            && SubmittedInWindow(u.sub) <= CompletedInWindow(u.sub) + maxInflight + (if u.stop && !tokens then 1 else 0)
  {
    var s := After(maxInflight, tokens, Initial(warmup), acts);
    RunKeepsInv(maxInflight, tokens, Initial(warmup), acts);
    var t := Step(maxInflight, tokens, s, Submit(turn, ok));
    StepKeepsInv(maxInflight, tokens, s, Submit(turn, ok));
    BaselineKept(maxInflight, tokens, t, rest);
    RunKeepsInv(maxInflight, tokens, t, rest);
  }

  lemma RunOne(maxInflight: nat, tokens: bool, s: State, a: Action, rest: seq<Action>)
    requires Enabled(maxInflight, tokens, s, a) && Run(maxInflight, tokens, Step(maxInflight, tokens, s, a), rest)
    ensures Run(maxInflight, tokens, s, [a] + rest)
    ensures After(maxInflight, tokens, s, [a] + rest)
            == After(maxInflight, tokens, Step(maxInflight, tokens, s, a), rest)
  {
    var all := [a] + rest;
    assert all[0] == a && all[1..] == rest;
    assert Run(maxInflight, tokens, s, all);
  }

  // ----- exactly when the limit holds

  /** Fill the window, stop, and take one more turn. */
  lemma {:induction false} Overshoot(maxInflight: nat, s: State) returns (acts: seq<Action>)
    requires s.sub.at.Top? && !s.stop && !s.ctx.waitFailed && Inflight(s) <= maxInflight
    ensures Run(maxInflight, false, s, acts)
    ensures Inflight(After(maxInflight, false, s, acts)) == maxInflight + 1
    decreases maxInflight - Inflight(s)
  {
    var go := Submit(Go, true);
    var s1 := Step(maxInflight, false, s, go);
    var tail: seq<Action>;
    if Inflight(s) == maxInflight {
      var s2 := Step(maxInflight, false, s1, Stop);
      var s3 := Step(maxInflight, false, s2, go);
      assert Run(maxInflight, false, s3, []) && After(maxInflight, false, s3, []) == s3;
      RunOne(maxInflight, false, s2, go, []);
      RunOne(maxInflight, false, s1, Stop, [go] + []);
      tail := [Stop] + ([go] + []);
    } else {
      var s2 := Step(maxInflight, false, s1, go);
      var s3 := Step(maxInflight, false, s2, go);
      var rest := Overshoot(maxInflight, s3);
      RunOne(maxInflight, false, s2, go, rest);
      RunOne(maxInflight, false, s1, go, [go] + rest);
      tail := [go] + ([go] + rest);
    }
    RunOne(maxInflight, false, s, go, tail);
    acts := [go] + tail;
  }

  /** Without tokens a stop that ends the wait for a full window lets one more kernel through,
      whatever the limit. */
  lemma StopOvershoots(maxInflight: nat, warmup: bool) returns (acts: seq<Action>)
    requires maxInflight > 0
    ensures Run(maxInflight, false, Initial(warmup), acts)
    ensures Inflight(After(maxInflight, false, Initial(warmup), acts)) == maxInflight + 1
  {
    if warmup {
      acts := Overshoot(maxInflight, Initial(true));
    } else {
      var read := Submit(Go, true);
      var rest := Overshoot(maxInflight, Step(maxInflight, false, Initial(false), read));
      RunOne(maxInflight, false, Initial(false), read, rest);
      acts := [read] + rest;
    }
  }

  /** The number in flight keeps its limit in every run if and only if the driver takes tokens. */
  lemma LimitHoldsIff(maxInflight: nat, tokens: bool, warmup: bool)
    requires maxInflight > 0
    ensures (forall acts: seq<Action> :: Run(maxInflight, tokens, Initial(warmup), acts) ==>
               Inflight(After(maxInflight, tokens, Initial(warmup), acts)) <= maxInflight)
            <==> tokens
  {
    if tokens {
      forall acts: seq<Action> | Run(maxInflight, tokens, Initial(warmup), acts)
        ensures Inflight(After(maxInflight, tokens, Initial(warmup), acts)) <= maxInflight
      {
        RunKeepsInv(maxInflight, tokens, Initial(warmup), acts);
      }
    } else {
      var acts := StopOvershoots(maxInflight, warmup);
    }
  }

  // ----- exactly when a measurement completes no more than it submits

  /** Without a warm-up the baselines are the zeros the counters start from. */
  ghost predicate FromZero(s: State) {
    && s.sub.baseSubmitted == 0 && s.sub.baseCompleted == 0
    && (!s.sub.measuring ==> s.sub.at.ReadBase? && s.ctx.submitted == 0 && s.ctx.completed == 0)
  }

  lemma StepKeepsFromZero(maxInflight: nat, tokens: bool, s: State, a: Action)
    requires Inv(maxInflight, tokens, s) && FromZero(s) && Enabled(maxInflight, tokens, s, a)
    ensures FromZero(Step(maxInflight, tokens, s, a))
  {
  }

  lemma {:induction false} RunKeepsFromZero(maxInflight: nat, tokens: bool, s: State, acts: seq<Action>)
    requires maxInflight > 0 && Inv(maxInflight, tokens, s) && FromZero(s) && Run(maxInflight, tokens, s, acts)
    ensures FromZero(After(maxInflight, tokens, s, acts))
    decreases |acts|
  {
    if acts != [] {
      StepKeepsInv(maxInflight, tokens, s, acts[0]);
      StepKeepsFromZero(maxInflight, tokens, s, acts[0]);
      RunKeepsFromZero(maxInflight, tokens, Step(maxInflight, tokens, s, acts[0]), acts[1..]);
    }
  }

  lemma {:induction false} RunAppend(maxInflight: nat, tokens: bool, s: State, acts: seq<Action>, a: Action)
    requires Run(maxInflight, tokens, s, acts)
    requires Enabled(maxInflight, tokens, After(maxInflight, tokens, s, acts), a)
    ensures Run(maxInflight, tokens, s, acts + [a])
    ensures After(maxInflight, tokens, s, acts + [a])
            == Step(maxInflight, tokens, After(maxInflight, tokens, s, acts), a)
    decreases |acts|
  {
    if acts == [] {
      var t := Step(maxInflight, tokens, s, a);
      assert Run(maxInflight, tokens, t, []) && After(maxInflight, tokens, t, []) == t;
      RunOne(maxInflight, tokens, s, a, []);
      assert [a] + [] == [] + [a];
    } else {
      RunAppend(maxInflight, tokens, Step(maxInflight, tokens, s, acts[0]), acts[1..], a);
      RunOne(maxInflight, tokens, s, acts[0], acts[1..] + [a]);
      assert [acts[0]] + (acts[1..] + [a]) == acts + [a];
    }
  }

  lemma OneMore(maxInflight: nat, tokens: bool, warmup: bool, acts: seq<Action>, a: Action)
    returns (longer: seq<Action>)
    requires Run(maxInflight, tokens, Initial(warmup), acts)
    requires Enabled(maxInflight, tokens, After(maxInflight, tokens, Initial(warmup), acts), a)
    ensures Run(maxInflight, tokens, Initial(warmup), longer)
    ensures After(maxInflight, tokens, Initial(warmup), longer)
            == Step(maxInflight, tokens, After(maxInflight, tokens, Initial(warmup), acts), a)
  {
    RunAppend(maxInflight, tokens, Initial(warmup), acts, a);
    longer := acts + [a];
  }

  /** The warm-up has been cut short with one kernel in flight. */
  ghost predicate CutShort(s: State) {
    && s.sub == Submitter(ReadBase, false, 0, 0, 0, 0, false, false)
    && s.ctx == Shared(1, 0, true, false, Idle) && s.dev == Device(1, 0) && s.stop
  }

  lemma CutWarmupShort(maxInflight: nat, tokens: bool) returns (acts: seq<Action>)
    requires maxInflight > 0
    ensures Run(maxInflight, tokens, Initial(true), acts)
    ensures CutShort(After(maxInflight, tokens, Initial(true), acts))
  {
    var go := Submit(Go, true);
    acts := [];
    acts := OneMore(maxInflight, tokens, true, acts, go);
    acts := OneMore(maxInflight, tokens, true, acts, go);
    acts := OneMore(maxInflight, tokens, true, acts, go);
    acts := OneMore(maxInflight, tokens, true, acts, Stop);
    acts := OneMore(maxInflight, tokens, true, acts, go);
    acts := OneMore(maxInflight, tokens, true, acts, go);
  }

  /** The baseline has been read with that kernel in flight, and the kernel has finished. */
  ghost predicate BaselineWithOne(s: State) {
    && s.sub == Submitter(Top, true, 1, 0, 0, 0, false, false)
    && s.ctx == Shared(1, 0, true, false, Waiting) && s.dev == Device(1, 1) && s.stop
  }

  lemma ReadBaselineWithOne(maxInflight: nat, tokens: bool) returns (acts: seq<Action>)
    requires maxInflight > 0
    ensures Run(maxInflight, tokens, Initial(true), acts)
    ensures BaselineWithOne(After(maxInflight, tokens, Initial(true), acts))
  {
    acts := CutWarmupShort(maxInflight, tokens);
    acts := OneMore(maxInflight, tokens, true, acts, Submit(Go, true));
    acts := OneMore(maxInflight, tokens, true, acts, Finish);
    acts := OneMore(maxInflight, tokens, true, acts, Complete);
  }

  /** A stop during the warm-up skips the drain: a kernel submitted before the baseline completes
      after it, and more is reported completed than submitted. */
  lemma EarlyStopMiscounts(maxInflight: nat, tokens: bool) returns (acts: seq<Action>)
    requires maxInflight > 0
    ensures Run(maxInflight, tokens, Initial(true), acts)
    ensures var u := After(maxInflight, tokens, Initial(true), acts).sub;
            u.measured && CompletedInWindow(u) == 1 && SubmittedInWindow(u) == 0
  {
    acts := ReadBaselineWithOne(maxInflight, tokens);
    acts := OneMore(maxInflight, tokens, true, acts, Complete);
    acts := OneMore(maxInflight, tokens, true, acts, Submit(Go, true));
    acts := OneMore(maxInflight, tokens, true, acts, Submit(Go, true));
  }

  /** Every measurement, whenever a stop comes, reports no more completed than submitted if and only
      if there is no warm-up. */
  lemma CompletedWithinSubmittedIff(maxInflight: nat, tokens: bool, warmup: bool)
    requires maxInflight > 0
    ensures (forall acts: seq<Action> :: Run(maxInflight, tokens, Initial(warmup), acts) ==>
               var u := After(maxInflight, tokens, Initial(warmup), acts).sub;
               u.measured ==> CompletedInWindow(u) <= SubmittedInWindow(u))
            <==> !warmup
  {
    if warmup {
      var acts := EarlyStopMiscounts(maxInflight, tokens);
    } else {
      forall acts: seq<Action> | Run(maxInflight, tokens, Initial(warmup), acts)
        ensures var u := After(maxInflight, tokens, Initial(warmup), acts).sub;
                u.measured ==> CompletedInWindow(u) <= SubmittedInWindow(u)
      {
        RunKeepsInv(maxInflight, tokens, Initial(false), acts);
        RunKeepsFromZero(maxInflight, tokens, Initial(false), acts);
      }
    }
  }
}
