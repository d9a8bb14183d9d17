/** The time-slice benchmark's driver and completion worker in their own form: one object whose
    counters both threads update under a mutex, one method per critical section. */
module TimeSliceThreads {
  import opened TimeSlice

  class TimeSliceDriver {
    const maxInflight: nat
    const tokens: bool
    // the submitter
    var at: At
    var measuring: bool
    var baseSubmitted: nat
    var baseCompleted: nat
    var endSubmitted: nat
    var endCompleted: nat
    var measured: bool
    var failed: bool
    // the worker context, and the worker's own count
    var submitted: nat
    var completed: nat
    var accepting: bool
    var waitFailed: bool
    var worker: Worker
    var waited: nat
    // the device
    var launched: nat
    var finished: nat
    var stop: bool

    ghost function View(): State
      reads this
    {
      State(Submitter(at, measuring, baseSubmitted, baseCompleted, endSubmitted, endCompleted, measured, failed),
            Shared(submitted, completed, accepting, waitFailed, worker), Device(launched, finished), stop)
    }

    /** The worker publishes its own count each time it waits for a kernel. */
    ghost predicate Valid()
      reads this
    {
      waited == completed
    }

    constructor (inflightEnv: nat, tokens: bool, warmupMs: nat)
      ensures maxInflight == (if inflightEnv == 0 then 1 else inflightEnv) && this.tokens == tokens
      ensures Valid() && View() == Initial(warmupMs != 0)
    {
      var inflight := inflightEnv;
      if inflight == 0 {
        inflight := 1;
      }
      maxInflight, this.tokens := inflight, tokens;
      at := if warmupMs != 0 then Top else ReadBase;
      measuring, baseSubmitted, baseCompleted, endSubmitted, endCompleted := false, 0, 0, 0, 0;
      measured, failed := false, false;
      submitted, completed, accepting, waitFailed, worker, waited := 0, 0, true, false, Idle, 0;
      launched, finished, stop := 0, 0, false;
    }

    /** One turn of the drive loop past the window wait, under the mutex. */
    method TakeTurn(turn: Turn, ok: bool)
      requires at.Window? && Valid() && Enabled(maxInflight, tokens, View(), Submit(turn, ok))
      modifies this
      ensures Valid() && View() == Step(maxInflight, tokens, old(View()), Submit(turn, ok))
    {
      if waitFailed {
        failed := true;
        at := Cleanup;
        return;
      }
      if !turn.Go? {
        at := if measuring then ReadEnd else Drain;
        return;
      }
      submitted := submitted + 1;
      at := Launching;
    }

    method SubmitShortKernel(ok: bool, turn: Turn)
      requires at.Launching? && Valid()
      modifies this
      ensures Valid() && View() == Step(maxInflight, tokens, old(View()), Submit(turn, ok))
    {
      if ok {
        launched := launched + 1;
        at := Top;
      } else {
        failed := true;
        at := Cleanup;
      }
    }

    method EnterDrive(turn: Turn, ok: bool)
      requires at.Top? && Valid() && Enabled(maxInflight, tokens, View(), Submit(turn, ok))
      modifies this
      ensures Valid() && View() == Step(maxInflight, tokens, old(View()), Submit(turn, ok))
    {
      if stop {
        at := if measuring then ReadEnd else Drain;
      } else {
        at := Window;
      }
    }

    method LeaveDrain(turn: Turn, ok: bool)
      requires at.Drain? && Valid() && Enabled(maxInflight, tokens, View(), Submit(turn, ok))
      modifies this
      ensures Valid() && View() == Step(maxInflight, tokens, old(View()), Submit(turn, ok))
    {
      if waitFailed {
        failed := true;
        at := Cleanup;
      } else {
        at := ReadBase;
      }
    }

    method ReadBaseline(turn: Turn, ok: bool)
      requires at.ReadBase? && Valid() && Enabled(maxInflight, tokens, View(), Submit(turn, ok))
      modifies this
      ensures Valid() && View() == Step(maxInflight, tokens, old(View()), Submit(turn, ok))
    {
      baseCompleted := completed;
      baseSubmitted := submitted;
      measuring := true;
      at := Top;
    }

    method ReadResult(turn: Turn, ok: bool)
      requires at.ReadEnd? && Valid() && Enabled(maxInflight, tokens, View(), Submit(turn, ok))
      modifies this
      ensures Valid() && View() == Step(maxInflight, tokens, old(View()), Submit(turn, ok))
    {
      endCompleted := completed;
      endSubmitted := submitted;
      measured := true;
      at := Cleanup;
    }

    method RefuseMore(turn: Turn, ok: bool)
      requires at.Cleanup? && Valid() && Enabled(maxInflight, tokens, View(), Submit(turn, ok))
      modifies this
      ensures Valid() && View() == Step(maxInflight, tokens, old(View()), Submit(turn, ok))
    {
      accepting := false;
      at := Joining;
    }

    method JoinWorker(turn: Turn, ok: bool)
      requires at.Joining? && Valid() && Enabled(maxInflight, tokens, View(), Submit(turn, ok))
      modifies this
      ensures Valid() && View() == Step(maxInflight, tokens, old(View()), Submit(turn, ok))
    {
      at := Returned;
    }

    method SubmitterStep(turn: Turn, ok: bool)
      requires Valid() && Enabled(maxInflight, tokens, View(), Submit(turn, ok))
      modifies this
      ensures Valid() && View() == Step(maxInflight, tokens, old(View()), Submit(turn, ok))
    {
      match at
      case Top => EnterDrive(turn, ok);
      case Window => TakeTurn(turn, ok);
      case Launching => SubmitShortKernel(ok, turn);
      case Drain => LeaveDrain(turn, ok);
      case ReadBase => ReadBaseline(turn, ok);
      case ReadEnd => ReadResult(turn, ok);
      case Cleanup => RefuseMore(turn, ok);
      case Joining => JoinWorker(turn, ok);
    }

    method CompletionWorker()
      requires Valid() && Enabled(maxInflight, tokens, View(), Complete)
      modifies this`worker, this`waited, this`completed
      ensures Valid() && View() == Step(maxInflight, tokens, old(View()), Complete)
    {
      if worker.Idle? {
        if waited >= submitted {
          worker := Exited;
        } else {
          worker := Waiting;
        }
      } else {
        waited := waited + 1;
        completed := waited;
        worker := Idle;
      }
    }

    method WaitFails()
      requires worker.Waiting? && Valid()
      modifies this`waitFailed, this`accepting, this`worker
      ensures Valid() && View() == Step(maxInflight, tokens, old(View()), CompleteFails)
    {
      waitFailed := true;
      accepting := false;
      worker := Exited;
    }

    /** Any interleaving of the threads, the device and a stop request. */
    method Execute(acts: seq<Action>)
      requires Valid() && Run(maxInflight, tokens, View(), acts)
      modifies this
      ensures Valid() && View() == After(maxInflight, tokens, old(View()), acts)
    {
      var i := 0;
      while i < |acts|
        invariant i <= |acts| && Valid() && Run(maxInflight, tokens, View(), acts[i..])
        invariant After(maxInflight, tokens, View(), acts[i..]) == After(maxInflight, tokens, old(View()), acts)
      {
        assert acts[i..][1..] == acts[i + 1..];
        match acts[i] {
          case Stop => stop := true;
          case Submit(turn, ok) => SubmitterStep(turn, ok);
          case Finish => finished := finished + 1;
          case Complete => CompletionWorker();
          case CompleteFails => WaitFails();
        }
        i := i + 1;
      }
    }
  }

  /** The benchmark from its settings, under any interleaving of the threads, the device, a stop and
      failing calls. */
  method RunBenchmark(inflightEnv: nat, tokens: bool, warmupMs: nat, acts: seq<Action>) returns (d: TimeSliceDriver)
    requires Run(if inflightEnv == 0 then 1 else inflightEnv, tokens, Initial(warmupMs != 0), acts)
    ensures d.maxInflight == (if inflightEnv == 0 then 1 else inflightEnv) && d.tokens == tokens
    ensures d.View() == After(d.maxInflight, tokens, Initial(warmupMs != 0), acts)
    ensures d.completed <= d.finished <= d.launched <= d.submitted
    ensures d.submitted - d.completed <= d.maxInflight + (if d.stop && !tokens then 1 else 0)
    ensures d.measured ==> d.baseSubmitted <= d.endSubmitted && d.baseCompleted <= d.endCompleted
    ensures d.measured && warmupMs == 0 ==>
              d.endCompleted - d.baseCompleted <= d.endSubmitted - d.baseSubmitted
  {
    d := new TimeSliceDriver(inflightEnv, tokens, warmupMs);
    d.Execute(acts);
    RunKeepsInv(d.maxInflight, tokens, Initial(warmupMs != 0), acts);
    CompletedWithinSubmittedIff(d.maxInflight, tokens, warmupMs != 0);
  }
}
