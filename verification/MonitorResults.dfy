/** What the monitor returns, keeps and sends, read off the system calls of a run alone. */
module MonitorResults {
  import opened Basics
  import opened ChildMonitor

  /** How far the calls have taken the watch: still watching; the output has ended, by its end of stream
      or by staying silent after the child's exit; the child was silent for too long; a poll or a read
      has failed; the wait after the output has failed. */
  datatype Course = Watched | OutputEnded | IdledOut | CallFailed | ReapFailed

  /** What the calls of a run have reported. */
  datatype History = History(course: Course, exited: bool, status: WaitStatus, output: seq<Byte>)

  const NOTHING_YET := History(Watched, false, Abnormal, [])

  function AfterTimeout(h: History, idleExpired: bool, drained: bool): History {
    if !h.exited then (if idleExpired then h.(course := IdledOut) else h)
    else if drained then h.(course := OutputEnded) else h
  }

  function Next(h: History, a: Action): History {
    match a
    case WaitNoHang(exited, status) => if exited && !h.exited then h.(exited := true, status := status) else h
    case Poll(PollError) => h.(course := CallFailed)
    case Poll(Timeout(idleExpired, drained)) => AfterTimeout(h, idleExpired, drained)
    case Read(Bytes(data)) => h.(output := h.output + data)
    case Read(EndOfStream) => h.(course := OutputEnded)
    case Read(ReadError) => h.(course := CallFailed)
    case Reap(ok, status) =>
      if !h.course.OutputEnded? then h
      else if ok then h.(exited := true, status := status)
      else h.(course := ReapFailed)
    case _ => h
  }

  function Replay(h: History, acts: seq<Action>): History
    decreases |acts|
  {
    if acts == [] then h else Replay(Next(h, acts[0]), acts[1..])
  }

  /** Where the monitor can be on each course. */
  ghost predicate OnCourse(course: Course, at: Monitor, childExited: bool) {
    match course
    case Watched => at.Waiting? || at.Polling? || at.Reading?
    case OutputEnded =>
      at.Closing? || at == Joining(ToReap) || at == Joining(ToDecide) || at.Reaping? || at.Deciding? || at.Returned?
    case IdledOut =>
      at.IdleTerm? || at.IdleKill? || at.IdleStop? || at == Joining(ToIdleReap) || at.IdleReaping?
      || at == Returned(DeadlineExceeded)
    case CallFailed => at.Failing? || at == Joining(ToFail) || at == Returned(Internal)
    case ReapFailed => at == Returned(Internal)
  }

  function Verdict(h: History, fired: bool): Status {
    if fired then Cancelled else if h.status == ExitCode(0) then Ok else Internal
  }

  ghost predicate Tracks(h: History, s: State) {
    && OnCourse(h.course, s.mon.at, s.mon.childExited)
    && s.out.combined == s.out.logged == h.output
    && (s.mon.childExited ==> h.exited)
    && (h.course.Watched? ==> h.exited == s.mon.childExited)
    && (s.mon.childExited || s.mon.at.Deciding? || (h.course.OutputEnded? && s.mon.at.Returned?) ==>
          h.exited && s.mon.waitStatus == h.status)
    && (h.course.OutputEnded? && s.mon.at.Returned? ==>
          s.mon.at == Returned(Verdict(h, s.cancel.fired)) && s.cancel.at.Ended?)
    && (s.mon.at == Joining(ToDecide) ==> s.mon.childExited)
    && (h.course.OutputEnded? && (s.mon.at == Joining(ToReap) || s.mon.at.Reaping?) ==> !s.mon.childExited)
  }

  lemma StepTracks(h: History, s: State, a: Action)
    requires Tracks(h, s) && Inv(s) && Enabled(s, a)
    ensures Tracks(Next(h, a), Step(s, a))
  {
  }

  lemma {:induction false} RunTracks(h: History, s: State, acts: seq<Action>)
    requires Tracks(h, s) && Inv(s) && Run(s, acts)
    ensures Tracks(Replay(h, acts), After(s, acts))
    decreases |acts|
  {
    if acts != [] {
      StepTracks(h, s, acts[0]);
      StepKeepsInv(s, acts[0]);
      RunTracks(Next(h, acts[0]), Step(s, acts[0]), acts[1..]);
    }
  }

  /** Every run that has returned, in both directions: the status is what the calls say. Once the output
      has ended and the child is reaped it is CANCELLED if the cancel thread fired, else OK if the child
      exited with code zero, else INTERNAL; a child silent for too long gives DEADLINE_EXCEEDED, and a
      failed call INTERNAL. It never returns before one of these, and has kept all the bytes read. */
  lemma ReturnedStatus(hasContext: bool, acts: seq<Action>)
    requires Run(Initial(hasContext), acts) && After(Initial(hasContext), acts).mon.at.Returned?
    ensures var s, h := After(Initial(hasContext), acts), Replay(NOTHING_YET, acts);
            && !h.course.Watched?
            && s.mon.at.status ==
               (match h.course
                case IdledOut => DeadlineExceeded
                case OutputEnded =>
                  if s.cancel.fired then Cancelled else if h.status == ExitCode(0) then Ok else Internal
                case _ => Internal)
            && s.out.combined == s.out.logged == h.output
  {
    RunTracks(NOTHING_YET, Initial(hasContext), acts);
  }

  /** At every moment the kept output is exactly what the reads have delivered. */
  lemma KeepsWhatWasRead(hasContext: bool, acts: seq<Action>)
    requires Run(Initial(hasContext), acts)
    ensures var s := After(Initial(hasContext), acts);
            s.out.combined == s.out.logged == Replay(NOTHING_YET, acts).output
  {
    RunTracks(NOTHING_YET, Initial(hasContext), acts);
  }

  // ----- which signals are sent

  /** The signals of one sender, in order: false for a terminate, true for a kill. */
  function Sent(signals: seq<Signal>, byCanceller: bool): seq<bool> {
    if signals == [] then []
    else
      var last := signals[|signals| - 1];
      Sent(signals[..|signals| - 1], byCanceller) + (if last.byCanceller == byCanceller then [last.kill] else [])
  }

  function CancellerSent(c: Cancel): seq<bool> {
    if c.at.Killing? then [false] else if c.at.Ended? && c.fired then [false, true] else []
  }

  function MonitorSent(at: Monitor): seq<bool> {
    if at.IdleKill? then [false]
    else if at.IdleStop? || at == Joining(ToIdleReap) || at.IdleReaping? || at == Returned(DeadlineExceeded) then
      [false, true]
    else []
  }

  /** The cancel thread fires only for a cancelled request. */
  ghost predicate FiresForCause(c: Cancel) {
    && (c.fired ==> c.requested && (c.at.Terming? || c.at.Killing? || c.at.Ended?))
    && (c.at.Terming? || c.at.Killing? ==> c.fired)
    && (c.at.Firing? || (c.at.Checking? && !c.stopFlag) ==> c.requested)
  }

  ghost predicate SignalsMatch(s: State) {
    && FiresForCause(s.cancel)
    && Sent(s.signals, true) == CancellerSent(s.cancel)
    && Sent(s.signals, false) == MonitorSent(s.mon.at)
  }

  lemma StepFiresForCause(s: State, a: Action)
    requires FiresForCause(s.cancel) && Enabled(s, a)
    ensures FiresForCause(Step(s, a).cancel)
  {
  }

  /** The signal a step sends, if it sends one. */
  function SentBy(s: State, a: Action): Option<Signal> {
    if a.CancelStep? && (s.cancel.at.Terming? || s.cancel.at.Killing?) then
      Some(Signal(s.cancel.at.Killing?, true, s.mon.reaps > 0))
    else if a.Advance? && (s.mon.at.IdleTerm? || s.mon.at.IdleKill?) then
      Some(Signal(s.mon.at.IdleKill?, false, s.mon.reaps > 0))
    else None
  }

  function Kinds(g: Option<Signal>, byCanceller: bool): seq<bool> {
    if g.Some? && g.value.byCanceller == byCanceller then [g.value.kill] else []
  }

  lemma SentMore(signals: seq<Signal>, g: Option<Signal>, byCanceller: bool)
    ensures Sent(signals + (if g.Some? then [g.value] else []), byCanceller)
            == Sent(signals, byCanceller) + Kinds(g, byCanceller)
  {
    if g.Some? {
      assert (signals + [g.value])[..|signals|] == signals;
    } else {
      assert signals + [] == signals;
    }
  }

  lemma StepSends(s: State, a: Action)
    requires Enabled(s, a)
    ensures Step(s, a).signals == s.signals + (if SentBy(s, a).Some? then [SentBy(s, a).value] else [])
  {
  }

  lemma CancellerSendsInOrder(s: State, a: Action)
    requires FiresForCause(s.cancel) && Enabled(s, a)
    ensures CancellerSent(Step(s, a).cancel) == CancellerSent(s.cancel) + Kinds(SentBy(s, a), true)
  {
  }

  lemma MonitorSendsInOrder(s: State, a: Action)
    requires ReapedOnce(s) && Enabled(s, a)
    ensures MonitorSent(Step(s, a).mon.at) == MonitorSent(s.mon.at) + Kinds(SentBy(s, a), false)
  {
  }

  lemma StepSignals(s: State, a: Action)
    requires Inv(s) && SignalsMatch(s) && Enabled(s, a)
    ensures SignalsMatch(Step(s, a))
  {
    StepFiresForCause(s, a);
    StepSends(s, a);
    CancellerSendsInOrder(s, a);
    MonitorSendsInOrder(s, a);
    SentMore(s.signals, SentBy(s, a), true);
    SentMore(s.signals, SentBy(s, a), false);
  }

  lemma {:induction false} RunSignals(s: State, acts: seq<Action>)
    requires Inv(s) && SignalsMatch(s) && Run(s, acts)
    ensures SignalsMatch(After(s, acts))
    decreases |acts|
  {
    if acts != [] {
      StepSignals(s, acts[0]);
      StepKeepsInv(s, acts[0]);
      RunSignals(Step(s, acts[0]), acts[1..]);
    }
  }

  /** When the monitor has returned, the cancel thread has sent a terminate and then a kill if it fired,
      which takes a cancelled request, and nothing otherwise; the monitor itself has sent a terminate and
      then a kill if the child was silent for too long, and nothing otherwise. */
  lemma SignalsSent(hasContext: bool, acts: seq<Action>)
    requires Run(Initial(hasContext), acts) && After(Initial(hasContext), acts).mon.at.Returned?
    ensures var s := After(Initial(hasContext), acts);
            && Sent(s.signals, true) == (if s.cancel.fired then [false, true] else [])
            && (s.cancel.fired ==> s.cancel.requested)
            && Sent(s.signals, false)
               == (if s.mon.at.status == DeadlineExceeded then [false, true] else [])
  {
    RunKeepsInv(Initial(hasContext), acts);
    RunSignals(Initial(hasContext), acts);
  }
}
