/** Watching a task's process: the monitor's event loop, and the thread that turns a cancelled
    request into signals. System calls report whatever their `Action` says they do. */
module ChildMonitor {
  import opened Basics

  datatype WaitStatus = ExitCode(code: int) | Signaled(signal: int) | Abnormal

  datatype Status = Ok | Cancelled | DeadlineExceeded | Internal

  /** Where the monitor stands. */
  datatype Monitor =
    | Waiting                        // about to ask whether the child has exited
    | Polling
    | Reading
    | IdleTerm | IdleKill | IdleStop // the inactivity timeout has struck
    | Closing                        // the output has ended
    | Failing                        // poll or read has failed
    | Joining(next: AfterJoin)       // the stop flag is set; waiting for the cancel thread
    | Reaping | IdleReaping
    | Deciding
    | Returned(status: Status)

  datatype AfterJoin = ToReap | ToIdleReap | ToDecide | ToFail

  /** Where the cancel thread stands; `Ended` also when there is no request to watch. */
  datatype Canceller = Watching | Checking | Firing | Terming | Killing | Ended

  /** A signal sent to the task's process group. */
  datatype Signal = Signal(kill: bool, byCanceller: bool, childReaped: bool)

  /** The monitor's position, and what it knows of the child. */
  datatype Watch = Watch(at: Monitor, childExited: bool, waitStatus: WaitStatus, reaps: nat)

  /** The bytes kept, the bytes sent on as log chunks, and the pieces read. */
  datatype Output = Output(combined: seq<Byte>, logged: seq<Byte>, received: seq<seq<Byte>>)

  /** The cancel thread's position and the flags it shares. */
  datatype Cancel = Cancel(at: Canceller, stopFlag: bool, fired: bool, requested: bool)

  datatype State = State(mon: Watch, out: Output, cancel: Cancel, signals: seq<Signal>)

  datatype PollResult = Interrupted | PollError | Timeout(idleExpired: bool, drained: bool) | Ready | OtherEvents

  datatype ReadResult = Bytes(data: seq<Byte>) | EndOfStream | ReadInterrupted | WouldBlock | ReadError

  datatype Action =
    | CancelRequest
    | WaitNoHang(exited: bool, status: WaitStatus)
    | Poll(poll: PollResult)
    | Read(read: ReadResult)
    | Advance                        // the monitor's next step that depends on nothing outside
    | Reap(ok: bool, status: WaitStatus)
    | CancelStep

  function Initial(hasContext: bool): State {
    State(Watch(Waiting, false, Abnormal, 0), Output([], [], []),
          Cancel(if hasContext then Watching else Ended, false, false, false), [])
  }

  predicate Enabled(s: State, a: Action) {
    match a
    case CancelRequest => !s.cancel.requested
    case WaitNoHang(_, _) => s.mon.at.Waiting?
    case Poll(_) => s.mon.at.Polling?
    case Read(r) => s.mon.at.Reading? && (r.Bytes? ==> r.data != [])
    case Advance =>
      (match s.mon.at
       case IdleTerm => true
       case IdleKill => true
       case IdleStop => true
       case Closing => true
       case Failing => true
       case Joining(_) => s.cancel.at.Ended?
       case Deciding => true
       case _ => false)
    case Reap(_, _) => s.mon.at.Reaping? || s.mon.at.IdleReaping?
    case CancelStep =>
      (match s.cancel.at
       case Watching => s.cancel.stopFlag || s.cancel.requested
       case Ended => false
       case _ => true)
  }

  function Goto(s: State, at: Monitor): State {
    s.(mon := s.mon.(at := at))
  }

  function StopCanceller(s: State): State {
    s.(cancel := s.cancel.(stopFlag := true))
  }

  function SendSignal(s: State, kill: bool, byCanceller: bool): State {
    s.(signals := s.signals + [Signal(kill, byCanceller, s.mon.reaps > 0)])
  }

  function AfterWait(s: State, exited: bool, status: WaitStatus): State {
    if !s.mon.childExited && exited then s.(mon := Watch(Polling, true, status, s.mon.reaps + 1))
    else Goto(s, Polling)
  }

  function AfterPoll(s: State, r: PollResult): State {
    match r
    case Interrupted => Goto(s, Waiting)
    case PollError => Goto(s, Failing)
    case OtherEvents => Goto(s, Waiting)
    case Ready => Goto(s, Reading)
    case Timeout(idleExpired, drained) =>
      if !s.mon.childExited then Goto(s, if idleExpired then IdleTerm else Waiting)
      else Goto(s, if drained then Closing else Waiting)
  }

  function AfterRead(s: State, r: ReadResult): State {
    match r
    case Bytes(data) =>
      s.(out := Output(s.out.combined + data, s.out.logged + data, s.out.received + [data]))
    case EndOfStream => Goto(s, Closing)
    case ReadInterrupted => s
    case WouldBlock => Goto(s, Waiting)
    case ReadError => Goto(s, Failing)
  }

  function Decide(s: State): Status {
    if s.cancel.fired then Cancelled
    else if s.mon.waitStatus == ExitCode(0) then Ok
    else Internal
  }

  function AdvanceMonitor(s: State): State
    requires Enabled(s, Advance)
  {
    match s.mon.at
    case IdleTerm => Goto(SendSignal(s, false, false), IdleKill)
    case IdleKill => Goto(SendSignal(s, true, false), IdleStop)
    case IdleStop => Goto(StopCanceller(s), Joining(ToIdleReap))
    case Closing => Goto(StopCanceller(s), Joining(if s.mon.childExited then ToDecide else ToReap))
    case Failing => Goto(StopCanceller(s), Joining(ToFail))
    case Joining(next) =>
      Goto(s, match next
              case ToReap => Reaping
              case ToIdleReap => IdleReaping
              case ToDecide => Deciding
              case ToFail => Returned(Internal))
    case Deciding => Goto(s, Returned(Decide(s)))
  }

  function AfterReap(s: State, ok: bool, status: WaitStatus): State {
    var reaps := if ok then s.mon.reaps + 1 else s.mon.reaps;
    if s.mon.at.IdleReaping? then s.(mon := s.mon.(reaps := reaps, at := Returned(DeadlineExceeded)))
    else if ok then s.(mon := s.mon.(reaps := reaps, waitStatus := status, at := Deciding))
    else Goto(s, Returned(Internal))
  }

  function AdvanceCanceller(s: State): State {
    match s.cancel.at
    case Watching => s.(cancel := s.cancel.(at := Checking))
    case Checking => s.(cancel := s.cancel.(at := if s.cancel.stopFlag then Ended else Firing))
    case Firing => s.(cancel := s.cancel.(fired := true, at := Terming))
    case Terming => SendSignal(s, false, true).(cancel := s.cancel.(at := Killing))
    case Killing => SendSignal(s, true, true).(cancel := s.cancel.(at := Ended))
    case Ended => s
  }

  function Step(s: State, a: Action): State
    requires Enabled(s, a)
  {
    match a
    case CancelRequest => s.(cancel := s.cancel.(requested := true))
    case WaitNoHang(exited, status) => AfterWait(s, exited, status)
    case Poll(r) => AfterPoll(s, r)
    case Read(r) => AfterRead(s, r)
    case Advance => AdvanceMonitor(s)
    case Reap(ok, status) => AfterReap(s, ok, status)
    case CancelStep => AdvanceCanceller(s)
  }

  ghost predicate Run(s: State, acts: seq<Action>)
    decreases |acts|
  {
    acts == [] || (Enabled(s, acts[0]) && Run(Step(s, acts[0]), acts[1..]))
  }

  ghost function After(s: State, acts: seq<Action>): State
    requires Run(s, acts)
    decreases |acts|
  {
    if acts == [] then s else After(Step(s, acts[0]), acts[1..])
  }

  // ----- the invariant

  function Flatten(xs: seq<seq<Byte>>): seq<Byte> {
    if xs == [] then [] else Flatten(xs[..|xs| - 1]) + xs[|xs| - 1]
  }

  /** The monitor is past its join, so the cancel thread is over. */
  ghost predicate Joined(m: Monitor) {
    m.Reaping? || m.IdleReaping? || m.Deciding? || m.Returned?
  }

  ghost predicate InIdle(m: Monitor) {
    m.IdleTerm? || m.IdleKill? || m.IdleStop? || m.IdleReaping? || (m.Joining? && m.next.ToIdleReap?)
  }

  ghost predicate MayReap(m: Monitor) {
    InIdle(m) || m.Reaping? || (m.Joining? && m.next.ToReap?)
  }

  /** The child is reaped at most once, and exactly once before anything is decided. */
  ghost predicate ReapedOnce(s: State) {
    && s.mon.reaps <= 1
    && (s.mon.childExited ==> s.mon.reaps == 1)
    && (MayReap(s.mon.at) ==> s.mon.reaps == 0)
    && (s.mon.at.Deciding? ==> s.mon.reaps == 1)
    && (!s.mon.childExited && !s.mon.at.Deciding? && !s.mon.at.Returned? ==> s.mon.reaps == 0)
    && (s.mon.at == Joining(ToDecide) ==> s.mon.childExited)
  }

  ghost predicate OutputInOrder(s: State) {
    s.out.combined == s.out.logged == Flatten(s.out.received)
  }

  /** The cancel thread has ended before the monitor goes on from its join. */
  ghost predicate JoinedAfterEnd(s: State) {
    && (Joined(s.mon.at) ==> s.cancel.at.Ended?)
    && (s.mon.at.Joining? ==> s.cancel.stopFlag)
    && (s.cancel.at.Terming? || s.cancel.at.Killing? ==> s.cancel.fired)
  }

  ghost predicate SignalSources(s: State) {
    && (!s.cancel.fired ==> forall g :: g in s.signals ==> !g.byCanceller)
    && (forall g :: g in s.signals && !g.byCanceller ==> !g.childReaped)
    && (InIdle(s.mon.at) || s.mon.at == Returned(DeadlineExceeded) || forall g :: g in s.signals ==> g.byCanceller)
  }

  ghost predicate Results(s: State) {
    && (s.mon.at == Returned(Ok) ==> s.mon.reaps == 1 && !s.cancel.fired && s.mon.waitStatus == ExitCode(0))
    && (s.mon.at == Returned(Cancelled) ==> s.mon.reaps == 1 && s.cancel.fired)
  }

  ghost predicate Inv(s: State) {
    ReapedOnce(s) && OutputInOrder(s) && JoinedAfterEnd(s) && SignalSources(s) && Results(s)
  }

  lemma StepKeepsReapedOnce(s: State, a: Action)
    requires ReapedOnce(s) && Enabled(s, a)
    ensures ReapedOnce(Step(s, a))
  {
  }

  lemma StepKeepsOutput(s: State, a: Action)
    requires OutputInOrder(s) && Enabled(s, a)
    ensures OutputInOrder(Step(s, a))
  {
    if a.Read? && a.read.Bytes? {
      assert (s.out.received + [a.read.data])[..|s.out.received|] == s.out.received;
    }
  }

  lemma StepKeepsJoin(s: State, a: Action)
    requires ReapedOnce(s) && JoinedAfterEnd(s) && Enabled(s, a)
    ensures JoinedAfterEnd(Step(s, a))
  {
  }

  lemma StepKeepsSignals(s: State, a: Action)
    requires ReapedOnce(s) && JoinedAfterEnd(s) && SignalSources(s) && Enabled(s, a)
    ensures SignalSources(Step(s, a))
  {
  }

  lemma StepKeepsResults(s: State, a: Action)
    requires ReapedOnce(s) && JoinedAfterEnd(s) && Results(s) && Enabled(s, a)
    ensures Results(Step(s, a))
  {
  }

  lemma StepKeepsInv(s: State, a: Action)
    requires Inv(s) && Enabled(s, a)
    ensures Inv(Step(s, a))
  {
    StepKeepsReapedOnce(s, a);
    StepKeepsOutput(s, a);
    StepKeepsJoin(s, a);
    StepKeepsSignals(s, a);
    StepKeepsResults(s, a);
  }

  lemma {:induction false} RunKeepsInv(s: State, acts: seq<Action>)
    requires Inv(s) && Run(s, acts)
    ensures Inv(After(s, acts))
    decreases |acts|
  {
    if acts != [] {
      StepKeepsInv(s, acts[0]);
      RunKeepsInv(Step(s, acts[0]), acts[1..]);
    }
  }

  /** In every interleaving: the child is reaped at most once; the kept output is the pieces read, in
      order, and so is what was logged; and OK means an exit code of zero, one reap, a cancel thread
      that never fired, and no signal at all. */
  lemma MonitorGuarantees(hasContext: bool, acts: seq<Action>)
    requires Run(Initial(hasContext), acts)
    ensures var s := After(Initial(hasContext), acts);
            && s.mon.reaps <= 1
            && s.out.combined == s.out.logged == Flatten(s.out.received)
            && (s.mon.at == Returned(Ok) ==>
                  s.mon.reaps == 1 && s.mon.waitStatus == ExitCode(0) && !s.cancel.fired && s.signals == [])
            && (s.mon.at == Returned(Cancelled) ==> s.mon.reaps == 1 && s.cancel.fired)
  {
    RunKeepsInv(Initial(hasContext), acts);
    var s := After(Initial(hasContext), acts);
    assert |s.signals| > 0 ==> s.signals[0] in s.signals;
  }

  /** Once the monitor has returned, nothing signals the process group any more. */
  lemma NoSignalAfterReturn(hasContext: bool, acts: seq<Action>, more: seq<Action>)
    requires Run(Initial(hasContext), acts) && After(Initial(hasContext), acts).mon.at.Returned?
    requires Run(After(Initial(hasContext), acts), more)
    ensures After(After(Initial(hasContext), acts), more).signals == After(Initial(hasContext), acts).signals
  {
    RunKeepsInv(Initial(hasContext), acts);
    ReturnedIsSilent(After(Initial(hasContext), acts), more);
  }

  lemma {:induction false} ReturnedIsSilent(s: State, more: seq<Action>)
    requires Inv(s) && s.mon.at.Returned? && Run(s, more)
    ensures After(s, more).signals == s.signals
    decreases |more|
  {
    if more != [] {
      StepKeepsInv(s, more[0]);
      ReturnedIsSilent(Step(s, more[0]), more[1..]);
    }
  }

  /** A signal that reaches a group whose leader has been reaped is always the cancel thread's; the
      inactivity timeout signals only a child that has not been reaped. */
  lemma LateSignalsAreCancellers(hasContext: bool, acts: seq<Action>, g: Signal)
    requires Run(Initial(hasContext), acts) && g in After(Initial(hasContext), acts).signals && g.childReaped
    ensures g.byCanceller && After(Initial(hasContext), acts).cancel.fired
  {
    RunKeepsInv(Initial(hasContext), acts);
  }

  lemma RunOne(s: State, a: Action, rest: seq<Action>)
    requires Enabled(s, a) && Run(Step(s, a), rest)
    ensures Run(s, [a] + rest) && After(s, [a] + rest) == After(Step(s, a), rest)
  {
    var all := [a] + rest;
    assert all[0] == a && all[1..] == rest;
    assert Run(s, all);
  }

  // ----- exactly when a signal can reach the group of a reaped child

  ghost predicate NoLateSignals(s: State) {
    forall g :: g in s.signals ==> !g.childReaped
  }

  /** The cancel thread has committed itself, or still can. */
  ghost predicate MayStillSignal(c: Cancel) {
    c.at.Firing? || c.at.Terming? || c.at.Killing? || ((c.at.Watching? || c.at.Checking?) && !c.stopFlag)
  }

  /** Steps of the cancel thread alone that send at least one more signal. */
  lemma {:induction false} SignalOn(s: State) returns (more: seq<Action>)
    requires MayStillSignal(s.cancel)
    ensures Run(s, more) && |After(s, more).signals| > |s.signals|
    ensures s.mon.reaps > 0 ==> !NoLateSignals(After(s, more))
    decreases StepsLeft(s.cancel.at), !s.cancel.requested
  {
    if s.cancel.at.Watching? && !s.cancel.requested {
      more := SignalOn(Step(s, CancelRequest));
      RunOne(s, CancelRequest, more);
      more := [CancelRequest] + more;
    } else if s.cancel.at.Terming? || s.cancel.at.Killing? {
      var t := Step(s, CancelStep);
      assert Run(t, []) && After(t, []) == t;
      RunOne(s, CancelStep, []);
      assert t.signals[|s.signals|] in t.signals;
      more := [CancelStep] + [];
    } else {
      more := SignalOn(Step(s, CancelStep));
      RunOne(s, CancelStep, more);
      more := [CancelStep] + more;
    }
  }

  lemma StaysSilent(s: State, a: Action)
    requires Inv(s) && s.mon.reaps > 0 && !MayStillSignal(s.cancel) && Enabled(s, a)
    ensures var t := Step(s, a);
            t.signals == s.signals && t.mon.reaps > 0 && !MayStillSignal(t.cancel)
  {
  }

  lemma {:induction false} SilentForGood(s: State, more: seq<Action>)
    requires Inv(s) && s.mon.reaps > 0 && !MayStillSignal(s.cancel) && Run(s, more)
    ensures After(s, more).signals == s.signals
    decreases |more|
  {
    if more != [] {
      StaysSilent(s, more[0]);
      StepKeepsInv(s, more[0]);
      SilentForGood(Step(s, more[0]), more[1..]);
    }
  }

  ghost predicate SomeContinuationSignals(s: State) {
    exists more: seq<Action> :: Run(s, more) && After(s, more).signals != s.signals
  }

  /** Once the child has been reaped, its group can still be signalled if and only if the cancel
      thread has passed its last check, or has it ahead of it and the stop flag is not set. */
  lemma LateSignalPossibleIff(hasContext: bool, acts: seq<Action>)
    requires Run(Initial(hasContext), acts) && After(Initial(hasContext), acts).mon.reaps > 0
    ensures var s := After(Initial(hasContext), acts);
            SomeContinuationSignals(s) <==> MayStillSignal(s.cancel)
  {
    var s := After(Initial(hasContext), acts);
    RunKeepsInv(Initial(hasContext), acts);
    if MayStillSignal(s.cancel) {
      var more := SignalOn(s);
      assert Run(s, more) && After(s, more).signals != s.signals;
    } else {
      forall more: seq<Action> | Run(s, more) ensures After(s, more).signals == s.signals {
        SilentForGood(s, more);
      }
    }
  }

  /** The shortest way to a late signal: the exit is seen first, then the request is cancelled. */
  lemma LateSignalHappens() returns (acts: seq<Action>)
    ensures Run(Initial(true), acts) && !NoLateSignals(After(Initial(true), acts))
  {
    var s := Step(Initial(true), WaitNoHang(true, ExitCode(0)));
    var more := SignalOn(s);
    RunOne(Initial(true), WaitNoHang(true, ExitCode(0)), more);
    acts := [WaitNoHang(true, ExitCode(0))] + more;
  }

  /** A child that has been reaped is never signalled if and only if there is no request to watch. */
  lemma NoLateSignalsIff(hasContext: bool)
    ensures (forall acts: seq<Action> :: Run(Initial(hasContext), acts) ==>
               NoLateSignals(After(Initial(hasContext), acts)))
            <==> !hasContext
  {
    if hasContext {
      var acts := LateSignalHappens();
    } else {
      forall acts: seq<Action> | Run(Initial(false), acts) ensures NoLateSignals(After(Initial(false), acts)) {
        RunKeepsInv(Initial(false), acts);
        NeverFired(Initial(false), acts);
      }
    }
  }

  lemma {:induction false} NeverFired(s: State, acts: seq<Action>)
    requires s.cancel.at.Ended? && !s.cancel.fired && Run(s, acts)
    ensures !After(s, acts).cancel.fired
    decreases |acts|
  {
    if acts != [] {
      NeverFired(Step(s, acts[0]), acts[1..]);
    }
  }

  function StepsLeft(c: Canceller): nat {
    match c
    case Watching => 5
    case Checking => 4
    case Firing => 3
    case Terming => 2
    case Killing => 1
    case Ended => 0
  }

  /** The join cannot hang: until the cancel thread has ended it can move, and every move of it
      brings its end nearer. */
  lemma JoinCompletes(hasContext: bool, acts: seq<Action>)
    requires Run(Initial(hasContext), acts) && After(Initial(hasContext), acts).mon.at.Joining?
    ensures var s := After(Initial(hasContext), acts);
            Enabled(s, Advance)
            || (Enabled(s, CancelStep) && StepsLeft(Step(s, CancelStep).cancel.at) < StepsLeft(s.cancel.at))
  {
    RunKeepsInv(Initial(hasContext), acts);
  }
}
