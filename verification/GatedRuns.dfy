/** The launch driver as a whole: an object built from its settings and driven through any
    interleaving, and what its own fields then say. */
module GatedRuns {
  import opened GatedLaunch
  import opened GatedInvariants
  import opened GatedTheorems
  import opened GatedBatches
  import opened GatedPipeline
  import opened GatedStops

  /** Counters, window and records. */
  ghost predicate CountersHold(p: LaunchPipeline)
    reads p, p.records
  {
    && p.completed <= p.nextToWait <= p.completed + 1
    && p.nextToWait <= p.nextReady <= p.cfg.tasks == p.records.Length
    && p.nextReady - p.completed <= p.cfg.maxInflight
    && p.completed <= p.finished <= p.started <= |p.launched|
    && (forall i :: 0 <= i < p.nextReady ==> p.records[i] == Record(i, 10 + i))
  }

  /** The gate: thresholds by batch, nothing started before its threshold is passed, and nothing of
      the open batch unless a flush or a stop raised it. */
  ghost predicate GateHoldsOn(p: LaunchPipeline)
    reads p
  {
    && p.inBatch <= p.nextReady && p.nextReady - p.inBatch <= |p.launched|
    && (forall i :: 0 <= i < |p.launched| ==>
          p.launched[i].threshold
          == if p.cfg.gateBatch == 0 then 4 else 4 + 2 * (i / p.cfg.gateBatch))
    && p.started <= |p.launched|
    && (forall i :: 0 <= i < p.started ==> p.launched[i].threshold < p.waitEvent)
    && (p.cfg.gateBatch != 0 ==>
          && (forall i :: 0 <= i < p.nextReady - p.inBatch ==> p.launched[i].threshold < p.waitEvent)
          && (p.started > p.nextReady - p.inBatch ==>
                && p.waitEvent > p.gate
                && (p.at.FinalDrain? || p.at.Finish? || p.at.FlushMax? || Leaving(p.at))))
  }

  /** Everything launched has finished and is counted; without a stop that is every task. */
  ghost predicate AllCounted(p: LaunchPipeline)
    reads p
  {
    && p.at.Returned? && p.outcome == Success && p.worker.Exited?
    && p.completed == p.nextReady == p.finished == |p.launched|
    && (!p.stop ==> p.completed == p.cfg.tasks)
  }

  lemma StateFacts(c: Config, acts: seq<Action>)
    requires Fits32(c) && Run(c, Initial(c), acts)
    ensures Inv(c, After(c, Initial(c), acts)) && Numbered(c, After(c, Initial(c), acts))
  {
    InitialInv(c);
    assert Numbered(c, Initial(c));
    RunKeepsInv(c, Initial(c), acts);
    RunKeepsNumbered(c, Initial(c), acts);
  }

  lemma ObjectCounters(p: LaunchPipeline)
    requires Inv(p.cfg, p.View())
    ensures CountersHold(p)
  {
    var s := p.View();
    assert forall i :: 0 <= i < |s.ctx.records| ==> s.ctx.records[i] == p.records[i];
  }

  lemma ObjectGate(p: LaunchPipeline, acts: seq<Action>)
    requires Fits32(p.cfg) && Run(p.cfg, Initial(p.cfg), acts) && p.View() == After(p.cfg, Initial(p.cfg), acts)
    ensures GateHoldsOn(p)
  {
    var c, s := p.cfg, p.View();
    StateFacts(c, acts);
    forall i | 0 <= i < |p.launched|
      ensures p.launched[i].threshold == if c.gateBatch == 0 then 4 else 4 + 2 * (i / c.gateBatch)
    {
      assert s.dev.launched[i].threshold == ThresholdOf(c, i);
    }
    if c.gateBatch != 0 {
      GateHolds(c, acts);
    }
  }

  /** The launch from its settings, under any interleaving of the threads, the device, a stop and
      failing calls. If no call failed and nothing can happen any more, everything is counted. */
  method LaunchTasks(tasks: nat, inflightEnv: nat, gateBatch: nat, gateDrain: bool, acts: seq<Action>)
    returns (p: LaunchPipeline)
    requires var c := Configure(tasks, inflightEnv, gateBatch, gateDrain); Fits32(c) && Run(c, Initial(c), acts)
    ensures p.cfg == Configure(tasks, inflightEnv, gateBatch, gateDrain)
    ensures p.View() == After(p.cfg, Initial(p.cfg), acts)
    ensures CountersHold(p) && GateHoldsOn(p)
    ensures Faultless(acts) && Stuck(p.cfg, p.View()) ==> AllCounted(p)
    ensures p.at.Returned? ==>
              var failure := CallFailure(p.cfg, Initial(p.cfg), acts);
              p.outcome == if failure != Success then failure else if SomeWaitFailed(acts) then WaitError else Success
    ensures |acts| <= 14 * tasks + 16
  {
    p := new LaunchPipeline(tasks, inflightEnv, gateBatch, gateDrain);
    p.Execute(acts);
    StateFacts(p.cfg, acts);
    ObjectCounters(p);
    ObjectGate(p, acts);
    RunsAreBounded(p.cfg, acts);
    if Faultless(acts) && Stuck(p.cfg, p.View()) {
      ConfigureSuffices(tasks, inflightEnv, gateBatch, gateDrain);
      FaultlessRunsComplete(p.cfg, acts);
    }
    if p.at.Returned? {
      ReturnedResult(p.cfg, acts);
    }
  }

  /** The driver with a stop request in the middle: what it launches afterwards is at most the one
      kernel it was already about to launch. */
  method LaunchUntilStopped(
      tasks: nat, inflightEnv: nat, gateBatch: nat, gateDrain: bool, before: seq<Action>, rest: seq<Action>)
    returns (p: LaunchPipeline, launchedAtStop: nat, aboutToLaunch: bool)
    requires var c := Configure(tasks, inflightEnv, gateBatch, gateDrain);
             && Run(c, Initial(c), before) && !After(c, Initial(c), before).stop
             && Run(c, Apply(c, After(c, Initial(c), before), Stop), rest)
    ensures p.cfg == Configure(tasks, inflightEnv, gateBatch, gateDrain) && p.stop
    ensures var s := After(p.cfg, Initial(p.cfg), before);
            && launchedAtStop == |s.dev.launched| && (aboutToLaunch <==> s.sub.at.Launch?)
            && p.View() == After(p.cfg, Apply(p.cfg, s, Stop), rest)
    ensures |p.launched| <= launchedAtStop + (if aboutToLaunch then 1 else 0)
  {
    p := new LaunchPipeline(tasks, inflightEnv, gateBatch, gateDrain);
    p.Execute(before);
    launchedAtStop, aboutToLaunch := |p.launched|, p.at.Launch?;
    p.RequestStop();
    StopEndsLaunching(p.cfg, p.View(), rest);
    p.Execute(rest);
  }
}
