/** Whether kernels of different batches can be outstanding together: exactly what draining rules out. */
module GatedOverlap {
  import opened GatedLaunch
  import opened GatedInvariants
  import opened GatedTheorems
  import opened GatedBatches

  /** Two published, uncounted kernels of different batches. */
  ghost predicate Overlapping(c: Config, s: State)
    requires c.gateBatch != 0
  {
    exists i, j :: s.ctx.completed <= i < j < s.ctx.nextReady && i / c.gateBatch != j / c.gateBatch
  }

  /** The first batch has been released and nothing else has happened. */
  ghost predicate FirstReleased(c: Config, s: State) {
    && Inv(c, s)
    && s.sub == Locals(LoopTop, c.gateBatch, 0, 6, c.gateBatch, Success)
    && s.ctx == Shared(s.ctx.records, c.gateBatch, 0, 0, true, false, Idle)
    && s.dev == Device(s.dev.launched, 0, 0, 5, 0)
    && !s.stop
  }

  /** The first batch is full and waits to be released. */
  ghost predicate FirstFull(c: Config, s: State) {
    && c.gateBatch != 0
    && s.sub == Locals(Hold, c.gateBatch - 1, c.gateBatch, FIRST_GATE, 0, Success)
    && s.ctx == Shared(s.ctx.records, c.gateBatch, 0, 0, true, false, Idle)
    && s.dev == Device(s.dev.launched, 0, 0, 0, 0)
    && !s.stop
  }

  lemma FillFirst(c: Config) returns (acts: seq<Action>)
    requires Fits32(c) && 0 < c.gateBatch <= c.maxInflight && c.gateBatch <= c.tasks
    ensures Run(c, Initial(c), acts) && Faultless(acts) && FirstFull(c, After(c, Initial(c), acts))
  {
    acts := FillBatch(c, c.gateBatch - 1);
    acts := OneMore(c, acts, Submit(true));
    acts := OneMore(c, acts, Submit(true));
    acts := OneMore(c, acts, Submit(true));
    acts := OneMore(c, acts, Submit(true));
    acts := OneMore(c, acts, Submit(true));
    acts := OneMore(c, acts, Submit(true));
  }

  lemma ReleaseFirst(c: Config) returns (acts: seq<Action>)
    requires Fits32(c) && 0 < c.gateBatch <= c.maxInflight && c.gateBatch < c.tasks && !c.gateDrain
    ensures Run(c, Initial(c), acts) && Faultless(acts) && FirstReleased(c, After(c, Initial(c), acts))
  {
    acts := FillFirst(c);
    acts := OneMore(c, acts, Submit(true));
    acts := OneMore(c, acts, Submit(true));
    InitialInv(c);
    RunKeepsInv(c, Initial(c), acts);
  }

  /** The first kernel of the second batch is about to be published, with at most one kernel counted. */
  ghost predicate AtSecond(c: Config, s: State, done: nat) {
    && s.sub.at.LoopTop? && s.sub.task == c.gateBatch && s.sub.inBatch == 0 && s.sub.outcome == Success && !s.stop
    && s.ctx.nextReady == c.gateBatch && s.ctx.completed == done && !s.ctx.waitFailed
    && |s.ctx.records| == c.tasks
  }

  lemma CountOne(c: Config, acts: seq<Action>) returns (longer: seq<Action>)
    requires Fits32(c) && 0 < c.gateBatch < c.tasks && c.maxInflight >= c.gateBatch
    requires Run(c, Initial(c), acts) && Faultless(acts) && FirstReleased(c, After(c, Initial(c), acts))
    ensures Run(c, Initial(c), longer) && Faultless(longer) && AtSecond(c, After(c, Initial(c), longer), 1)
  {
    var s := After(c, Initial(c), acts);
    assert s.dev.launched[0].threshold == 4 && s.dev.launched[0].completion == 10 && s.ctx.records[0] == Record(0, 10);
    longer := OneMore(c, acts, DeviceStart);
    longer := OneMore(c, longer, DeviceFinish);
    longer := OneMore(c, longer, Complete);
    longer := OneMore(c, longer, Complete);
  }

  lemma LaunchSecond(c: Config, acts: seq<Action>, done: nat) returns (longer: seq<Action>)
    requires Fits32(c) && 0 < c.gateBatch < c.tasks
    requires Run(c, Initial(c), acts) && Faultless(acts) && AtSecond(c, After(c, Initial(c), acts), done)
    requires done <= 1 && done <= c.gateBatch && c.gateBatch - done < c.maxInflight
    ensures Run(c, Initial(c), longer)
    ensures var s := After(c, Initial(c), longer); s.ctx.nextReady == c.gateBatch + 1 && s.ctx.completed == done
  {
    longer := OneMore(c, acts, Submit(true));
    longer := OneMore(c, longer, Submit(true));
    longer := OneMore(c, longer, Submit(true));
    longer := OneMore(c, longer, Submit(true));
    longer := OneMore(c, longer, Submit(true));
    longer := OneMore(c, longer, Submit(true));
  }

  lemma BatchesDiffer(b: nat, i: nat)
    requires b > 0 && i < b
    ensures i / b == 0 && b / b == 1
  {
    InBatch(0, i, b);
    InBatch(1, 0, b);
  }

  /** Without draining the next batch opens while the last one is outstanding. */
  lemma BatchesOverlap(c: Config) returns (acts: seq<Action>)
    requires Fits32(c) && 0 < c.gateBatch <= c.maxInflight && c.gateBatch < c.tasks
    requires c.maxInflight >= 2 && !c.gateDrain
    ensures Run(c, Initial(c), acts) && Overlapping(c, After(c, Initial(c), acts))
  {
    acts := ReleaseFirst(c);
    var done := 0;
    if c.gateBatch > 1 {
      acts := CountOne(c, acts);
      done := 1;
    }
    acts := LaunchSecond(c, acts, done);
    BatchesDiffer(c.gateBatch, done);
    var s := After(c, Initial(c), acts);
    assert s.ctx.completed <= done < c.gateBatch < s.ctx.nextReady && done / c.gateBatch != c.gateBatch / c.gateBatch;
  }

  lemma NoOverlap(c: Config, acts: seq<Action>)
    requires Fits32(c) && 0 < c.gateBatch && Run(c, Initial(c), acts)
    requires c.gateDrain || c.tasks <= c.gateBatch || c.maxInflight < 2
    ensures !Overlapping(c, After(c, Initial(c), acts))
  {
    var s := After(c, Initial(c), acts);
    InitialInv(c);
    RunKeepsInv(c, Initial(c), acts);
    if c.gateDrain {
      DrainingSerialisesBatches(c, acts);
    }
    forall i, j | s.ctx.completed <= i < j < s.ctx.nextReady ensures i / c.gateBatch == j / c.gateBatch {
      if !c.gateDrain {
        assert c.tasks <= c.gateBatch;
        BatchesDiffer(c.gateBatch, i);
        BatchesDiffer(c.gateBatch, j);
      }
    }
  }

  ghost predicate Overlaps(c: Config, acts: seq<Action>)
    requires c.gateBatch != 0
  {
    Run(c, Initial(c), acts) && Overlapping(c, After(c, Initial(c), acts))
  }

  /** With a window of at least a batch, as the driver always has: some run has kernels of two batches
      outstanding together if and only if there is no draining, more than one batch, and room for two. */
  lemma OverlapPossibleIff(c: Config)
    requires Fits32(c) && 0 < c.gateBatch <= c.maxInflight
    ensures (exists acts :: Overlaps(c, acts))
            <==> !c.gateDrain && c.gateBatch < c.tasks && c.maxInflight >= 2
  {
    if !c.gateDrain && c.gateBatch < c.tasks && c.maxInflight >= 2 {
      var acts := BatchesOverlap(c);
      assert Overlaps(c, acts);
    } else {
      forall acts | Run(c, Initial(c), acts) ensures !Overlaps(c, acts) {
        NoOverlap(c, acts);
      }
    }
  }
}
