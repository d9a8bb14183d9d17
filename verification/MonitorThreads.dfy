/** The monitor and its cancel thread in their own form: one object whose fields both update. Each
    method is one atomic step of the source's event loop or thread. */
module MonitorThreads {
  import opened Basics
  import opened ChildMonitor
  import opened MonitorResults

  class TaskMonitor {
    // the monitor
    var at: Monitor
    var childExited: bool
    var waitStatus: WaitStatus
    ghost var reaps: nat
    var combinedOutput: seq<Byte>
    ghost var logged: seq<Byte>
    ghost var received: seq<seq<Byte>>
    // the cancel thread
    var cancelAt: Canceller
    var stopCancelThread: bool
    var cancelled: bool
    var requestCancelled: bool
    ghost var signals: seq<Signal>

    ghost function View(): State
      reads this
    {
      State(Watch(at, childExited, waitStatus, reaps), Output(combinedOutput, logged, received),
            Cancel(cancelAt, stopCancelThread, cancelled, requestCancelled), signals)
    }

    constructor (hasContext: bool)
      ensures View() == Initial(hasContext)
    {
      at, childExited, waitStatus, reaps := Waiting, false, Abnormal, 0;
      combinedOutput, logged, received := [], [], [];
      cancelAt := if hasContext then Watching else Ended;
      stopCancelThread, cancelled, requestCancelled := false, false, false;
      signals := [];
    }

    method KillChildGroup(kill: bool, byCanceller: bool)
      modifies this`signals
      ensures signals == old(signals) + [Signal(kill, byCanceller, reaps > 0)]
    {
      signals := signals + [Signal(kill, byCanceller, reaps > 0)];
    }

    method TryWait(exited: bool, status: WaitStatus)
      requires Enabled(View(), WaitNoHang(exited, status))
      modifies this
      ensures View() == Step(old(View()), WaitNoHang(exited, status))
    {
      if !childExited && exited {
        waitStatus := status;
        childExited := true;
        reaps := reaps + 1;
      }
      at := Polling;
    }

    method HandlePoll(poll: PollResult)
      requires Enabled(View(), Poll(poll))
      modifies this`at
      ensures View() == Step(old(View()), Poll(poll))
    {
      match poll
      case PollError => at := Failing;
      case Ready => at := Reading;
      case Timeout(idleExpired, drained) =>
        at := Waiting;
        if !childExited {
          if idleExpired { at := IdleTerm; }
        } else if drained {
          at := Closing;
        }
      case _ => at := Waiting;
    }

    method HandleRead(read: ReadResult)
      requires Enabled(View(), Read(read))
      modifies this
      ensures View() == Step(old(View()), Read(read))
    {
      match read
      case Bytes(data) =>
        combinedOutput := combinedOutput + data;
        logged := logged + data;
        received := received + [data];
      case EndOfStream => at := Closing;
      case ReadInterrupted =>
      case WouldBlock => at := Waiting;
      case ReadError => at := Failing;
    }

    method Proceed()
      requires Enabled(View(), Advance)
      modifies this
      ensures View() == Step(old(View()), Advance)
    {
      match at
      case IdleTerm =>
        KillChildGroup(false, false);
        at := IdleKill;
      case IdleKill =>
        KillChildGroup(true, false);
        at := IdleStop;
      case IdleStop =>
        stopCancelThread := true;
        at := Joining(ToIdleReap);
      case Closing =>
        stopCancelThread := true;
        at := Joining(if childExited then ToDecide else ToReap);
      case Failing =>
        stopCancelThread := true;
        at := Joining(ToFail);
      case Joining(ToReap) => at := Reaping;
      case Joining(ToIdleReap) => at := IdleReaping;
      case Joining(ToDecide) => at := Deciding;
      case Joining(ToFail) => at := Returned(Internal);
      case Deciding =>
        if cancelled {
          at := Returned(Status.Cancelled);
        } else if waitStatus.ExitCode? && waitStatus.code == 0 {
          at := Returned(Ok);
        } else {
          at := Returned(Internal);
        }
    }

    method WaitForChild(ok: bool, status: WaitStatus)
      requires Enabled(View(), Reap(ok, status))
      modifies this
      ensures View() == Step(old(View()), Reap(ok, status))
    {
      if ok {
        reaps := reaps + 1;
      }
      if at.IdleReaping? {
        at := Returned(DeadlineExceeded);
      } else if ok {
        waitStatus := status;
        at := Deciding;
      } else {
        at := Returned(Internal);
      }
    }

    method CancelThread()
      requires Enabled(View(), CancelStep)
      modifies this
      ensures View() == Step(old(View()), CancelStep)
    {
      match cancelAt
      case Watching => cancelAt := Checking;
      case Checking => cancelAt := if stopCancelThread then Ended else Firing;
      case Firing =>
        cancelled := true;
        cancelAt := Terming;
      case Terming =>
        KillChildGroup(false, true);
        cancelAt := Killing;
      case Killing =>
        KillChildGroup(true, true);
        cancelAt := Ended;
    }

    /** Any interleaving of the two threads. */
    method Execute(acts: seq<Action>)
      requires Run(View(), acts)
      modifies this
      ensures View() == After(old(View()), acts)
    {
      var i := 0;
      while i < |acts|
        invariant i <= |acts| && Run(View(), acts[i..])
        invariant After(View(), acts[i..]) == After(old(View()), acts)
      {
        assert acts[i..][1..] == acts[i + 1..];
        match acts[i] {
          case CancelRequest => requestCancelled := true;
          case WaitNoHang(exited, status) => TryWait(exited, status);
          case Poll(poll) => HandlePoll(poll);
          case Read(read) => HandleRead(read);
          case Advance => Proceed();
          case Reap(ok, status) => WaitForChild(ok, status);
          case CancelStep => CancelThread();
        }
        i := i + 1;
      }
    }
  }

  /** A monitor and its cancel thread from the start, under any interleaving and any outcomes of the
      system calls. */
  method MonitorChild(hasContext: bool, acts: seq<Action>) returns (m: TaskMonitor)
    requires Run(Initial(hasContext), acts)
    ensures m.View() == After(Initial(hasContext), acts)
    ensures m.reaps <= 1 && m.combinedOutput == m.logged == Flatten(m.received)
    ensures m.at == Returned(Ok) ==>
              m.reaps == 1 && m.waitStatus == ExitCode(0) && !m.cancelled && m.signals == []
    ensures m.at == Returned(Status.Cancelled) ==> m.reaps == 1 && m.cancelled
    ensures forall g :: g in m.signals && g.childReaped ==> hasContext && g.byCanceller && m.cancelled
    ensures m.combinedOutput == Replay(NOTHING_YET, acts).output
    ensures m.at.Returned? ==>
              && m.cancelAt.Ended?
              && m.at.status ==
                 (match Replay(NOTHING_YET, acts).course
                  case IdledOut => DeadlineExceeded
                  case OutputEnded =>
                    if m.cancelled then Status.Cancelled
                    else if Replay(NOTHING_YET, acts).status == ExitCode(0) then Ok
                    else Internal
                  case _ => Internal)
              && Sent(m.signals, true) == (if m.cancelled then [false, true] else [])
              && Sent(m.signals, false) == (if m.at.status == DeadlineExceeded then [false, true] else [])
  {
    m := new TaskMonitor(hasContext);
    m.Execute(acts);
    MonitorGuarantees(hasContext, acts);
    RunKeepsInv(Initial(hasContext), acts);
    NoLateSignalsIff(hasContext);
    KeepsWhatWasRead(hasContext, acts);
    if m.at.Returned? {
      ReturnedStatus(hasContext, acts);
      SignalsSent(hasContext, acts);
    }
  }
}
