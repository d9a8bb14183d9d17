/** The launch driver in its own form: one object whose fields the submitter, the completion
    worker and the device update in place. Every method is one critical section or one library
    call of the driver and is proved to be the corresponding step of the state machine. */
module GatedPipeline {
  import opened GatedLaunch

  class LaunchPipeline {
    const cfg: Config
    // the submitter's locals
    var at: Submitter
    var task: nat
    var inBatch: nat
    var gate: nat
    var target: nat
    var outcome: Outcome
    // the worker context
    const records: array<Record>
    var nextReady: nat
    var nextToWait: nat
    var completed: nat
    var accepting: bool
    var waitFailed: bool
    var worker: Worker
    // the device queue and the two events
    var launched: seq<Kernel>
    var started: nat
    var finished: nat
    var waitEvent: nat
    var compEvent: nat
    // the flag the signal handler sets
    var stop: bool

    ghost function View(): State
      reads this, records
    {
      State(Locals(at, task, inBatch, gate, target, outcome),
            Shared(records[..], nextReady, nextToWait, completed, accepting, waitFailed, worker),
            Device(launched, started, finished, waitEvent, compEvent),
            stop)
    }

    constructor (tasks: nat, inflightEnv: nat, gateBatch: nat, gateDrain: bool)
      ensures cfg == Configure(tasks, inflightEnv, gateBatch, gateDrain)
      ensures View() == Initial(cfg) && fresh(records)
    {
      var inflight := inflightEnv;
      if inflight == 0 {
        inflight := 1;
      }
      if gateBatch != 0 && inflight < gateBatch {
        inflight := gateBatch;
      }
      cfg := Config(tasks, inflight, gateBatch, gateDrain);
      records := new Record[tasks](_ => Record(0, 0));
      at, task, inBatch, gate, target, outcome := LoopTop, 0, 0, FIRST_GATE, 0, Success;
      nextReady, nextToWait, completed, accepting, waitFailed, worker := 0, 0, 0, true, false, Idle;
      launched, started, finished, waitEvent, compEvent := [], 0, 0, 0, 0;
      stop := false;
      new;
      assert records[..] == Initial(cfg).ctx.records;
    }

    method RequestStop()
      requires !stop
      modifies this`stop
      ensures View() == Apply(cfg, old(View()), Stop)
    {
      stop := true;
    }

    // ----- the submitter's launch loop

    method EnterIteration()
      requires at.LoopTop?
      modifies this`at
      ensures View() == SubmitStep(cfg, old(View()), true)
    {
      if task < cfg.tasks && !stop { at := Window; } else { at := AfterLoop; }
    }

    method LeaveWindow()
      requires at.Window? && SubmitEnabled(cfg, View(), true)
      modifies this`at, this`outcome
      ensures View() == SubmitStep(cfg, old(View()), true)
    {
      if waitFailed {
        outcome := WaitError;
        at := Cleanup;
      } else {
        at := StopCheck;
      }
    }

    method CheckStop()
      requires at.StopCheck?
      modifies this`at
      ensures View() == SubmitStep(cfg, old(View()), true)
    {
      at := if stop then AfterLoop else Launch;
    }

    method LaunchKernel(ok: bool)
      requires at.Launch?
      modifies this`at, this`outcome, this`launched
      ensures View() == SubmitStep(cfg, old(View()), ok)
    {
      var threshold := FIRST_GATE;
      if cfg.gateBatch != 0 {
        threshold := gate;
      }
      if !ok {
        outcome := LaunchError;
        at := Cleanup;
      } else {
        launched := launched + [Kernel(task, threshold, FIRST_COMPLETION + task)];
        at := if cfg.gateBatch == 0 then Ungate else Fill;
      }
    }

    method OpenUngated(ok: bool)
      requires at.Ungate?
      modifies this`at, this`outcome, this`waitEvent
      ensures View() == SubmitStep(cfg, old(View()), ok)
    {
      if !ok {
        outcome := UpdateError;
        at := Cleanup;
      } else {
        waitEvent := FIRST_GATE + 1;
        at := Fill;
      }
    }

    method FillRecord()
      requires at.Fill? && task < records.Length
      modifies this`at, records
      ensures View() == SubmitStep(cfg, old(View()), true)
    {
      records[task] := Record(task, FIRST_COMPLETION + task);
      at := Publish;
    }

    method PublishRecord()
      requires at.Publish?
      modifies this`at, this`nextReady, this`inBatch, this`task
      ensures View() == SubmitStep(cfg, old(View()), true)
    {
      nextReady := nextReady + 1;
      at := LoopTop;
      if cfg.gateBatch != 0 {
        inBatch := inBatch + 1;
        if inBatch >= cfg.gateBatch {
          at := Hold;
        }
      }
      if at.LoopTop? {
        task := task + 1;
      }
    }

    method EndHold()
      requires at.Hold? || at.FinalHold?
      modifies this`at
      ensures View() == SubmitStep(cfg, old(View()), true)
    {
      if stop { at := FlushMax; } else { at := if at.Hold? then Release else FinalRelease; }
    }

    method CloseBatch()
      requires at.Release?
      modifies this`waitEvent, this`gate, this`inBatch, this`target
      ensures var s := old(View());
              View() == SetWaitEvent(s, s.sub.gate + 1)
                        .(sub := s.sub.(gate := s.sub.gate + 2, inBatch := 0, target := s.ctx.nextReady))
    {
      waitEvent := gate + 1;
      gate := gate + 2;
      inBatch := 0;
      target := nextReady;
    }

    method ReleaseBatch(ok: bool)
      requires at.Release?
      modifies this`at, this`outcome, this`waitEvent, this`gate, this`inBatch, this`target, this`task
      ensures View() == SubmitStep(cfg, old(View()), ok)
    {
      if !ok {
        outcome := UpdateError;
        at := Cleanup;
        return;
      }
      CloseBatch();
      if cfg.gateDrain {
        at := Drain;
      } else {
        at := LoopTop;
        task := task + 1;
      }
    }

    method LeaveDrain()
      requires (at.Drain? || at.FinalDrain?) && SubmitEnabled(cfg, View(), true)
      modifies this`at, this`outcome, this`task
      ensures View() == SubmitStep(cfg, old(View()), true)
    {
      if stop {
        at := FlushMax;
      } else if waitFailed {
        outcome := WaitError;
        at := Cleanup;
      } else if at.Drain? {
        at := LoopTop;
        task := task + 1;
      } else {
        at := Finish;
      }
    }

    // ----- the submitter's final flush and cleanup

    method LeaveLoop()
      requires at.AfterLoop?
      modifies this`at
      ensures View() == SubmitStep(cfg, old(View()), true)
    {
      at := if cfg.gateBatch != 0 && inBatch != 0 then FinalHold else Finish;
    }

    method ReleaseLastBatch(ok: bool)
      requires at.FinalRelease?
      modifies this`at, this`outcome, this`waitEvent, this`target
      ensures View() == SubmitStep(cfg, old(View()), ok)
    {
      if !ok {
        outcome := UpdateError;
        at := Cleanup;
        return;
      }
      waitEvent := gate + 1;
      if cfg.gateDrain {
        target := nextReady;
        at := FinalDrain;
      } else {
        at := Finish;
      }
    }

    method FlushGate(ok: bool)
      requires at.FlushMax?
      modifies this`at, this`waitEvent
      ensures View() == SubmitStep(cfg, old(View()), ok)
    {
      if ok {
        waitEvent := UINT64_MAX;
      }
      at := Cleanup;
    }

    method RefuseMore()
      requires at.Finish? || at.Cleanup?
      modifies this`at, this`accepting
      ensures View() == SubmitStep(cfg, old(View()), true)
    {
      accepting := false;
      at := if at.Finish? then Cleanup else Join;
    }

    method JoinWorker()
      requires at.Join? && worker.Exited?
      modifies this`at, this`outcome
      ensures View() == SubmitStep(cfg, old(View()), true)
    {
      if waitFailed && outcome.Success? {
        outcome := WaitError;
      }
      at := Returned;
    }

    method SubmitterStep(ok: bool)
      requires Enabled(cfg, View(), Submit(ok))
      modifies this, records
      ensures View() == Apply(cfg, old(View()), Submit(ok))
    {
      match at
      case LoopTop => EnterIteration();
      case Window => LeaveWindow();
      case StopCheck => CheckStop();
      case Launch => LaunchKernel(ok);
      case Ungate => OpenUngated(ok);
      case Fill => FillRecord();
      case Publish => PublishRecord();
      case Hold => EndHold();
      case Release => ReleaseBatch(ok);
      case Drain => LeaveDrain();
      case AfterLoop => LeaveLoop();
      case FinalHold => EndHold();
      case FinalRelease => ReleaseLastBatch(ok);
      case FinalDrain => LeaveDrain();
      case Finish => RefuseMore();
      case FlushMax => FlushGate(ok);
      case Cleanup => RefuseMore();
      case Join => JoinWorker();
    }

    // ----- the completion worker

    method WorkerStep()
      requires Enabled(cfg, View(), Complete)
      modifies this`worker, this`nextToWait, this`completed
      ensures View() == Apply(cfg, old(View()), Complete)
    {
      if worker.Idle? {
        if nextToWait == nextReady {
          worker := Exited;
        } else {
          worker := Waiting(nextToWait);
          nextToWait := nextToWait + 1;
        }
      } else {
        completed := completed + 1;
        worker := Idle;
      }
    }

    method WorkerFails()
      requires Enabled(cfg, View(), CompleteFails)
      modifies this`waitFailed, this`accepting, this`worker
      ensures View() == Apply(cfg, old(View()), CompleteFails)
    {
      waitFailed := true;
      accepting := false;
      worker := Exited;
    }

    // ----- the device

    method StartKernel()
      requires Enabled(cfg, View(), DeviceStart)
      modifies this`started
      ensures View() == Apply(cfg, old(View()), DeviceStart)
    {
      started := started + 1;
    }

    method FinishKernel()
      requires Enabled(cfg, View(), DeviceFinish)
      modifies this`finished, this`compEvent
      ensures View() == Apply(cfg, old(View()), DeviceFinish)
    {
      compEvent := launched[finished].completion;
      finished := finished + 1;
    }

    // ----- any interleaving

    method Step(a: Action)
      requires Enabled(cfg, View(), a)
      modifies this, records
      ensures View() == Apply(cfg, old(View()), a)
    {
      match a
      case Stop => RequestStop();
      case Submit(ok) => SubmitterStep(ok);
      case DeviceStart => StartKernel();
      case DeviceFinish => FinishKernel();
      case Complete => WorkerStep();
      case CompleteFails => WorkerFails();
    }

    /** Running the methods in any order the guards allow is a run of the state machine, so every
        theorem about runs is one about this object. */
    method Execute(acts: seq<Action>)
      requires Run(cfg, View(), acts)
      modifies this, records
      ensures View() == After(cfg, old(View()), acts)
    {
      var i := 0;
      while i < |acts|
        invariant i <= |acts|
        invariant Run(cfg, View(), acts[i..])
        invariant After(cfg, View(), acts[i..]) == After(cfg, old(View()), acts)
      {
        assert acts[i..][1..] == acts[i + 1..];
        Step(acts[i]);
        i := i + 1;
      }
    }
  }
}
