/** Batches of the gated launch pipeline: which gate each kernel waits at, when a batch may start,
    how batches are serialised by draining, and how progress is counted. */
module GatedBatches {
  import opened Basics
  import opened GatedLaunch
  import opened GatedInvariants

  // ----- kernel i waits at gate 4 + 2 * (i / gateBatch)

  ghost function ThresholdOf(c: Config, i: nat): int {
    if c.gateBatch == 0 then FIRST_GATE else FIRST_GATE + 2 * (i / c.gateBatch)
  }

  ghost function BatchesClosed(s: State): int {
    (s.sub.gate - FIRST_GATE) / 2
  }

  ghost predicate Numbered(c: Config, s: State) {
    && s.sub.gate == FIRST_GATE + 2 * BatchesClosed(s)
    && (c.gateBatch != 0 ==> Released(s) == BatchesClosed(s) * c.gateBatch)
    && (forall i :: 0 <= i < |s.dev.launched| ==> s.dev.launched[i].threshold == ThresholdOf(c, i))
  }

  lemma InBatch(k: nat, r: nat, b: nat)
    requires r < b
    ensures (k * b + r) / b == k
  {
    var q, m := (k * b + r) / b, (k * b + r) % b;
    assert (q - k) * b == r - m;
    SmallMultiple(q - k, b);
  }

  lemma LaunchKeepsNumbered(c: Config, s: State)
    requires Inv(c, s) && Numbered(c, s) && s.sub.at.Launch?
    ensures Numbered(c, LaunchStep(c, s))
  {
    var n := |s.dev.launched|;
    assert n == s.sub.task == s.ctx.nextReady;
    if c.gateBatch != 0 {
      InBatch(BatchesClosed(s), s.sub.inBatch, c.gateBatch);
    }
    var t := LaunchStep(c, s);
    assert t.dev.launched[n].threshold == ThresholdOf(c, n);
    assert Released(t) == Released(s) && BatchesClosed(t) == BatchesClosed(s);
  }

  lemma ReleaseKeepsNumbered(c: Config, s: State)
    requires Inv(c, s) && Numbered(c, s) && s.sub.at.Release?
    ensures Numbered(c, ReleaseStep(c, s))
  {
    var t := ReleaseStep(c, s);
    assert BatchesClosed(t) == BatchesClosed(s) + 1;
    assert Released(t) == Released(s) + c.gateBatch;
    assert BatchesClosed(s) * c.gateBatch + c.gateBatch == (BatchesClosed(s) + 1) * c.gateBatch;
  }

  ghost predicate SameGates(c: Config, s: State, t: State) {
    && t.sub.gate == s.sub.gate && t.dev.launched == s.dev.launched
    && (c.gateBatch != 0 ==> Released(t) == Released(s))
  }

  lemma SubmitKeepsGates(c: Config, s: State, ok: bool)
    requires Gate(c, s) && SubmitEnabled(c, s, ok) && (ok ==> !s.sub.at.Launch? && !s.sub.at.Release?)
    ensures SameGates(c, s, SubmitStep(c, s, ok))
  {
  }

  /** Every other step leaves the gates alone. */
  lemma OthersKeepGates(c: Config, s: State, a: Action)
    requires Gate(c, s) && Enabled(c, s, a)
    requires a == Submit(true) ==> !s.sub.at.Launch? && !s.sub.at.Release?
    ensures SameGates(c, s, Apply(c, s, a))
  {
    if a.Submit? { SubmitKeepsGates(c, s, a.ok); }
  }

  lemma StepKeepsNumbered(c: Config, s: State, a: Action)
    requires Inv(c, s) && Numbered(c, s) && Enabled(c, s, a)
    ensures Numbered(c, Apply(c, s, a))
  {
    if a == Submit(true) && s.sub.at.Launch? {
      LaunchKeepsNumbered(c, s);
    } else if a == Submit(true) && s.sub.at.Release? {
      ReleaseKeepsNumbered(c, s);
    } else {
      OthersKeepGates(c, s, a);
    }
  }

  lemma {:induction false} RunKeepsNumbered(c: Config, s: State, acts: seq<Action>)
    requires Fits32(c) && Inv(c, s) && Numbered(c, s) && Run(c, s, acts)
    ensures Numbered(c, After(c, s, acts))
    decreases acts
  {
    if acts != [] {
      StepKeepsInv(c, s, acts[0]);
      StepKeepsNumbered(c, s, acts[0]);
      RunKeepsNumbered(c, Apply(c, s, acts[0]), acts[1..]);
    }
  }

  /** The gate in every reachable state: each kernel waits at its own batch's gate; the wait event
      is above the gate of every closed batch; and no kernel of the batch being filled has started
      unless that batch was flushed, by the final release or by a stop. */
  lemma GateHolds(c: Config, acts: seq<Action>)
    requires Fits32(c) && c.gateBatch != 0 && Run(c, Initial(c), acts)
    ensures var s := After(c, Initial(c), acts);
            && (forall i :: 0 <= i < |s.dev.launched| ==>
                  s.dev.launched[i].threshold == 4 + 2 * (i / c.gateBatch))
            && Released(s) <= |s.dev.launched|
            && (forall i :: 0 <= i < Released(s) ==> s.dev.launched[i].threshold < s.dev.waitEvent)
            && (s.dev.started > Released(s) ==> Raised(s))
            && (Raised(s) ==> s.sub.at.FinalDrain? || s.sub.at.Finish? || s.sub.at.FlushMax? || Leaving(s.sub.at))
  {
    var s := After(c, Initial(c), acts);
    InitialInv(c);
    assert Numbered(c, Initial(c));
    RunKeepsInv(c, Initial(c), acts);
    RunKeepsNumbered(c, Initial(c), acts);
    forall i | 0 <= i < |s.dev.launched|
      ensures s.dev.launched[i].threshold == 4 + 2 * (i / c.gateBatch)
    {
      assert ThresholdOf(c, i) == 4 + 2 * (i / c.gateBatch);
    }
    if s.dev.started > Released(s) {
      assert s.dev.launched[Released(s)].threshold == s.sub.gate;
    }
  }

  /** The wait event never goes down, so a released kernel stays released. */
  lemma WaitEventRises(c: Config, s: State, a: Action)
    requires Fits32(c) && Inv(c, s) && Enabled(c, s, a)
    ensures s.dev.waitEvent <= Apply(c, s, a).dev.waitEvent
  {
  }

  // ----- draining

  /** The stages in which the batch being filled has not been released. */
  ghost predicate Filling(at: Submitter) {
    at.LoopTop? || Launching(at) || at.Hold? || at.Release? || at.AfterLoop? || at.FinalHold? || at.FinalRelease?
  }

  ghost predicate Serial(c: Config, s: State) {
    && (Filling(s.sub.at) ==> s.ctx.completed >= Released(s))
    && (s.sub.inBatch > 0 ==> s.ctx.completed >= Released(s))
    && (s.sub.inBatch == 0 ==> s.ctx.completed >= s.ctx.nextReady - c.gateBatch)
  }

  lemma StepKeepsSerial(c: Config, s: State, a: Action)
    requires c.gateBatch != 0 && c.gateDrain
    requires Loop(c, s) && Exits(c, s) && Batches(c, s) && Serial(c, s) && Enabled(c, s, a)
    ensures Serial(c, Apply(c, s, a))
  {
  }

  lemma {:induction false} RunKeepsSerial(c: Config, s: State, acts: seq<Action>)
    requires Fits32(c) && c.gateBatch != 0 && c.gateDrain
    requires Inv(c, s) && Serial(c, s) && Run(c, s, acts)
    ensures Serial(c, After(c, s, acts))
    decreases acts
  {
    if acts != [] {
      StepKeepsInv(c, s, acts[0]);
      StepKeepsSerial(c, s, acts[0]);
      RunKeepsSerial(c, Apply(c, s, acts[0]), acts[1..]);
    }
  }

  lemma SameBatch(c: Config, s: State, i: nat)
    requires c.gateBatch != 0 && Batches(c, s) && Numbered(c, s) && Serial(c, s)
    requires s.ctx.completed <= i < s.ctx.nextReady
    ensures i / c.gateBatch == if s.sub.inBatch > 0 then BatchesClosed(s) else BatchesClosed(s) - 1
  {
    var b := c.gateBatch;
    var k := BatchesClosed(s);
    if s.sub.inBatch > 0 {
      InBatch(k, i - k * b, b);
    } else {
      assert k * b == s.ctx.nextReady;
      assert (k - 1) * b == k * b - b;
      InBatch(k - 1, i - (k - 1) * b, b);
    }
  }

  lemma OutstandingTogether(c: Config, s: State)
    requires c.gateBatch != 0 && Batches(c, s) && Numbered(c, s) && Serial(c, s)
    ensures forall i, j :: s.ctx.completed <= i < s.ctx.nextReady && s.ctx.completed <= j < s.ctx.nextReady
                           ==> i / c.gateBatch == j / c.gateBatch
  {
    forall i, j | s.ctx.completed <= i < s.ctx.nextReady && s.ctx.completed <= j < s.ctx.nextReady
      ensures i / c.gateBatch == j / c.gateBatch
    {
      SameBatch(c, s, i);
      SameBatch(c, s, j);
    }
  }

  /** With draining, a batch is opened only when everything before it has been counted, and two
      kernels that are outstanding together are always of the same batch. */
  lemma DrainingSerialisesBatches(c: Config, acts: seq<Action>)
    requires Fits32(c) && c.gateBatch != 0 && c.gateDrain && Run(c, Initial(c), acts)
    ensures var s := After(c, Initial(c), acts);
            && (s.sub.at.Launch? && s.sub.inBatch == 0 ==> s.ctx.completed == s.ctx.nextReady)
            && (forall i, j :: s.ctx.completed <= i < s.ctx.nextReady && s.ctx.completed <= j < s.ctx.nextReady
                               ==> i / c.gateBatch == j / c.gateBatch)
  {
    var s := After(c, Initial(c), acts);
    InitialInv(c);
    assert Numbered(c, Initial(c));
    RunKeepsInv(c, Initial(c), acts);
    RunKeepsNumbered(c, Initial(c), acts);
    RunKeepsSerial(c, Initial(c), acts);
    OutstandingTogether(c, s);
  }

  /** With draining, the submitter refuses further work only once everything is counted. */
  ghost predicate DrainedAtFinish(s: State) {
    s.sub.at.Finish? ==> s.ctx.completed == s.ctx.nextReady
  }

  lemma StepKeepsDrained(c: Config, s: State, a: Action)
    requires c.gateBatch != 0 && c.gateDrain && Enabled(c, s, a)
    requires Counters(c, s) && Loop(c, s) && Exits(c, s) && Batches(c, s) && Serial(c, s) && DrainedAtFinish(s)
    ensures DrainedAtFinish(Apply(c, s, a))
  {
  }

  lemma {:induction false} RunKeepsDrained(c: Config, s: State, acts: seq<Action>)
    requires Fits32(c) && c.gateBatch != 0 && c.gateDrain
    requires Inv(c, s) && Serial(c, s) && DrainedAtFinish(s) && Run(c, s, acts)
    ensures DrainedAtFinish(After(c, s, acts))
    decreases acts
  {
    if acts != [] {
      StepKeepsInv(c, s, acts[0]);
      StepKeepsSerial(c, s, acts[0]);
      StepKeepsDrained(c, s, acts[0]);
      RunKeepsDrained(c, Apply(c, s, acts[0]), acts[1..]);
    }
  }

  /** With draining on, a submitter that was not stopped and saw no error finishes with every published
      kernel counted, the partly filled last batch included. */
  lemma DrainsBeforeFinish(c: Config, acts: seq<Action>)
    requires Fits32(c) && c.gateBatch != 0 && c.gateDrain && Run(c, Initial(c), acts)
    requires After(c, Initial(c), acts).sub.at.Finish?
    ensures var s := After(c, Initial(c), acts); s.ctx.completed == s.ctx.nextReady == s.dev.finished
  {
    InitialInv(c);
    RunKeepsInv(c, Initial(c), acts);
    RunKeepsDrained(c, Initial(c), acts);
  }

  // ----- counting

  /** In every reachable state the 32-bit window test is exact and the window is kept; the worker
      is never more than one kernel ahead of its count, reads only published records, and has
      counted kernel i only after kernels 0..i have finished. */
  lemma CountingIsInOrder(c: Config, acts: seq<Action>)
    requires Fits32(c) && Run(c, Initial(c), acts)
    ensures var s := After(c, Initial(c), acts);
            && s.ctx.completed <= s.ctx.nextToWait <= s.ctx.completed + 1
            && s.ctx.nextToWait <= s.ctx.nextReady <= c.tasks
            && Sub32(s.ctx.nextReady, s.ctx.completed) == s.ctx.nextReady - s.ctx.completed <= c.maxInflight
            && s.ctx.completed <= s.dev.finished
            && (s.ctx.worker.Waiting? ==>
                  var i := s.ctx.worker.index;
                  && i < |s.ctx.records| && s.ctx.records[i] == Record(i, 10 + i)
                  && (CompleteEnabled(s) <==> i < s.dev.finished))
  {
    InitialInv(c);
    RunKeepsInv(c, Initial(c), acts);
    NoWrap(c, After(c, Initial(c), acts));
  }
}
