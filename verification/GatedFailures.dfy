/** What failing library calls do to the gated launch pipeline: when the join at cleanup hangs, and
    which configurations can get there. */
module GatedFailures {
  import opened GatedLaunch
  import opened GatedInvariants
  import opened GatedTheorems

  // ----- when the join at cleanup hangs

  /** Published kernels wait behind a gate that nobody will raise. */
  ghost predicate LeftGated(c: Config, s: State) {
    c.gateBatch != 0 && s.sub.inBatch != 0 && !Raised(s)
  }

  ghost predicate AtJoin(s: State) {
    (s.sub.at.Join? || s.sub.at.Returned?) && !s.ctx.waitFailed
  }

  lemma StepAtJoin(c: Config, s: State, a: Action)
    requires AtJoin(s) && Enabled(c, s, a) && a != CompleteFails
    ensures AtJoin(Apply(c, s, a)) && (LeftGated(c, Apply(c, s, a)) <==> LeftGated(c, s))
  {
  }

  lemma {:induction false} JoinKeepsGate(c: Config, s: State, acts: seq<Action>)
    requires AtJoin(s) && Run(c, s, acts) && Faultless(acts)
    ensures AtJoin(After(c, s, acts)) && (LeftGated(c, After(c, s, acts)) <==> LeftGated(c, s))
    decreases acts
  {
    if acts != [] {
      assert acts[0] != CompleteFails && acts[0] != Submit(false);
      var t := Apply(c, s, acts[0]);
      StepAtJoin(c, s, acts[0]);
      JoinKeepsGate(c, t, acts[1..]);
      assert After(c, s, acts) == After(c, t, acts[1..]);
    }
  }

  lemma StuckAtJoin(c: Config, s: State)
    requires Inv(c, s) && AtJoin(s) && Stuck(c, s)
    ensures s.sub.at.Returned? <==> !LeftGated(c, s)
  {
    if s.ctx.completed < s.ctx.nextReady && s.dev.launched[s.ctx.completed].threshold < s.dev.waitEvent {
      ReleasedMoves(c, s);
    }
    if LeftGated(c, s) {
      assert s.dev.launched[s.ctx.nextReady - 1].threshold == s.sub.gate;
      assert s.dev.started < s.ctx.nextReady;
    }
  }

  /** From a join whose worker is still healthy, whatever happened before it, the run hangs if and
      only if the batch being filled has kernels and its gate was not raised. */
  lemma JoinReturnsIff(c: Config, acts: seq<Action>, rest: seq<Action>)
    requires Fits32(c) && Run(c, Initial(c), acts)
    requires After(c, Initial(c), acts).sub.at.Join? && !After(c, Initial(c), acts).ctx.waitFailed
    requires Run(c, After(c, Initial(c), acts), rest) && Faultless(rest)
    requires Stuck(c, After(c, After(c, Initial(c), acts), rest))
    ensures After(c, After(c, Initial(c), acts), rest).sub.at.Returned?
            <==> !LeftGated(c, After(c, Initial(c), acts))
  {
    var s := After(c, Initial(c), acts);
    InitialInv(c);
    RunKeepsInv(c, Initial(c), acts);
    RunKeepsInv(c, s, rest);
    JoinKeepsGate(c, s, rest);
    StuckAtJoin(c, After(c, s, rest));
  }

  /** A failed launch or event update leaves kernels gated exactly when the open batch has some. */
  lemma FailureLeavesGated(c: Config, acts: seq<Action>)
    requires Fits32(c) && Run(c, Initial(c), acts)
    requires var s := After(c, Initial(c), acts); s.sub.outcome == LaunchError || s.sub.outcome == UpdateError
    ensures var s := After(c, Initial(c), acts); LeftGated(c, s) <==> c.gateBatch != 0 && s.sub.inBatch != 0
  {
    InitialInv(c);
    RunKeepsInv(c, Initial(c), acts);
  }

  // ----- which configurations can hang

  /** Kernel 0 is published behind its gate and the worker waits for it. */
  ghost predicate FirstGated(c: Config, s: State) {
    && Inv(c, s) && s.ctx.nextReady == 1 && s.sub.inBatch == 1
    && s.sub.gate == FIRST_GATE && s.dev.waitEvent == 0 && s.dev.started == 0
    && s.ctx.worker == Waiting(0) && s.sub.outcome == Success
  }

  lemma OneMoreAction(c: Config, acts: seq<Action>, a: Action) returns (longer: seq<Action>)
    requires Run(c, Initial(c), acts) && Enabled(c, After(c, Initial(c), acts), a)
    ensures Run(c, Initial(c), longer)
    ensures After(c, Initial(c), longer) == Apply(c, After(c, Initial(c), acts), a)
  {
    var s := After(c, Initial(c), acts);
    var t := Apply(c, s, a);
    assert [a][1..] == [] && Run(c, t, []) && After(c, t, []) == t;
    assert Run(c, s, [a]) && After(c, s, [a]) == t;
    RunAppend(c, Initial(c), acts, [a]);
    longer := acts + [a];
  }

  /** From kernel 0 waiting at its gate: a stop, and a flush whose update fails. */
  lemma FlushFails(c: Config, s: State) returns (t: State, tail: seq<Action>)
    requires c.gateBatch != 0 && FirstGated(c, s) && (s.sub.at.Hold? || s.sub.at.FinalHold?) && s.stop
    ensures Run(c, s, tail) && t == After(c, s, tail) && t.sub.at.Join? && Stuck(c, t)
  {
    tail := [Submit(true), Submit(false), Submit(true)];
    var s1 := Apply(c, s, tail[0]);
    var s2 := Apply(c, s1, tail[1]);
    var s3 := Apply(c, s2, tail[2]);
    assert tail[1..][1..][1..] == [];
    assert Run(c, s3, []) && After(c, s3, []) == s3;
    assert Run(c, s2, tail[1..][1..]) && After(c, s2, tail[1..][1..]) == s3;
    assert Run(c, s1, tail[1..]) && After(c, s1, tail[1..]) == s3;
    t := s3;
  }

  /** One kernel published into a batch, and the worker waiting for it. */
  lemma FirstKernel(c: Config) returns (acts: seq<Action>)
    requires Fits32(c) && c.gateBatch != 0 && c.tasks >= 1 && c.maxInflight >= 1
    ensures Run(c, Initial(c), acts) && FirstGated(c, After(c, Initial(c), acts))
    ensures var s := After(c, Initial(c), acts);
            && !s.stop && s.sub.at == (if c.gateBatch == 1 then Hold else LoopTop)
            && (s.sub.at.LoopTop? ==> s.sub.task == 1)
  {
    acts := [];
    acts := OneMoreAction(c, acts, Submit(true));
    acts := OneMoreAction(c, acts, Submit(true));
    acts := OneMoreAction(c, acts, Submit(true));
    acts := OneMoreAction(c, acts, Submit(true));
    acts := OneMoreAction(c, acts, Submit(true));
    acts := OneMoreAction(c, acts, Submit(true));
    acts := OneMoreAction(c, acts, Complete);
    InitialInv(c);
    RunKeepsInv(c, Initial(c), acts);
  }

  /** With gating and at least one task there is always a run that hangs at the join: a stop while a
      batch is open, and a flush whose event update fails. */
  lemma SomeRunHangs(c: Config) returns (acts: seq<Action>)
    requires Fits32(c) && c.gateBatch != 0 && c.tasks >= 1 && c.maxInflight >= 1
    ensures Run(c, Initial(c), acts)
    ensures var s := After(c, Initial(c), acts); s.sub.at.Join? && Stuck(c, s)
  {
    acts := FirstKernel(c);
    acts := OneMoreAction(c, acts, Stop);
    if c.gateBatch != 1 {
      acts := OneMoreAction(c, acts, Submit(true));
      acts := OneMoreAction(c, acts, Submit(true));
    }
    var s := After(c, Initial(c), acts);
    InitialInv(c);
    RunKeepsInv(c, Initial(c), acts);
    var t, tail := FlushFails(c, s);
    RunAppend(c, Initial(c), acts, tail);
    acts := acts + tail;
  }

  /** Without gating, or without tasks, only a returned submitter is stuck, whatever has failed. */
  lemma UngatedNeverHangs(c: Config, s: State)
    requires Fits32(c) && Inv(c, s) && c.maxInflight >= 1 && (c.gateBatch == 0 || c.tasks == 0) && Stuck(c, s)
    ensures s.sub.at.Returned?
  {
    NoWrap(c, s);
    if !s.ctx.waitFailed && s.ctx.completed < s.ctx.nextReady {
      ReleasedMoves(c, s);
    }
  }

  ghost predicate NeverHangs(c: Config) {
    forall acts: seq<Action> | Run(c, Initial(c), acts) ::
      Stuck(c, After(c, Initial(c), acts)) ==> After(c, Initial(c), acts).sub.at.Returned?
  }

  /** With a window of at least one, which the driver always has: whatever calls fail, no run hangs,
      if and only if there is no gating or no task. */
  lemma NeverHangsIff(c: Config)
    requires Fits32(c) && c.maxInflight >= 1
    ensures NeverHangs(c) <==> c.gateBatch == 0 || c.tasks == 0
  {
    if c.gateBatch == 0 || c.tasks == 0 {
      forall acts: seq<Action> | Run(c, Initial(c), acts) && Stuck(c, After(c, Initial(c), acts))
        ensures After(c, Initial(c), acts).sub.at.Returned?
      {
        InitialInv(c);
        RunKeepsInv(c, Initial(c), acts);
        UngatedNeverHangs(c, After(c, Initial(c), acts));
      }
    } else {
      var acts := SomeRunHangs(c);
    }
  }

  /** Once the launch fails with the worker waiting on a gated kernel, nothing can move. */
  lemma FailLaunch(c: Config, s: State) returns (tail: seq<Action>)
    requires Inv(c, s) && c.gateBatch != 0
    requires s.sub.at.Launch? && s.sub.inBatch == 1 && s.sub.gate == FIRST_GATE && s.sub.outcome == Success
    requires s.ctx.worker == Waiting(0) && s.dev.started == 0 && s.dev.waitEvent == 0
    ensures Run(c, s, tail)
    ensures var t := After(c, s, tail); t.sub.at.Join? && Stuck(c, t) && t.sub.outcome == LaunchError
  {
    tail := [Submit(false), Submit(true)];
    var t := Apply(c, s, tail[0]);
    assert tail[1..] == [Submit(true)] && tail[1..][1..] == [];
    assert Enabled(c, t, Submit(true));
    assert Run(c, t, tail[1..]);
    assert After(c, s, tail) == Apply(c, t, Submit(true));
  }

  /** The hang is real: with two or more tasks to a batch, failing the second launch reaches it. */
  lemma FailedLaunchHangs(c: Config) returns (acts: seq<Action>)
    requires Fits32(c) && c.tasks >= 2 && c.gateBatch >= 2 && c.maxInflight >= 2
    ensures Run(c, Initial(c), acts)
    ensures var s := After(c, Initial(c), acts); s.sub.at.Join? && Stuck(c, s) && s.sub.outcome == LaunchError
  {
    acts := FillBatch(c, 1);
    acts := OneMore(c, acts, Submit(true));
    acts := OneMore(c, acts, Submit(true));
    acts := OneMore(c, acts, Submit(true));
    acts := OneMore(c, acts, Complete);
    InitialInv(c);
    RunKeepsInv(c, Initial(c), acts);
    var tail := FailLaunch(c, After(c, Initial(c), acts));
    RunAppend(c, Initial(c), acts, tail);
    acts := acts + tail;
  }
}
