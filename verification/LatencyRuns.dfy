/** The records behind the latency summary: the submitter publishes launch times, the worker writes
    durations and counts, and the summary is printed after the worker has gone. */
module LatencyRuns {
  import opened LatencySummary

  datatype Worker = Idle | Waiting | Wrote | Exited

  datatype State = State(records: seq<Record>, nextReady: nat, nextToWait: nat, completed: nat,
                         accepting: bool, worker: Worker)

  /** One step of the submitter (`Publish`, `Refuse`) or of the worker. */
  datatype Action = Publish(start: nat) | Refuse | Take | Ended(at: nat) | WaitFails | Count

  function Initial(total: nat): State {
    State(seq(total, _ => Record(0, 0)), 0, 0, 0, true, Idle)
  }

  /** The record the worker has taken. */
  predicate HasTaken(s: State) {
    0 < s.nextToWait <= |s.records|
  }

  predicate Enabled(s: State, a: Action) {
    match a
    case Publish(_) => s.nextReady < |s.records|
    case Refuse => true
    case Take => s.worker.Idle? && (s.nextToWait != s.nextReady || !s.accepting)
    case Ended(at) => s.worker.Waiting? && HasTaken(s) && s.records[s.nextToWait - 1].start <= at
    case WaitFails => s.worker.Waiting?
    case Count => s.worker.Wrote?
  }

  function Step(s: State, a: Action): State
    requires Enabled(s, a)
  {
    match a
    case Publish(start) =>
      s.(records := s.records[s.nextReady := s.records[s.nextReady].(start := start)], nextReady := s.nextReady + 1)
    case Refuse => s.(accepting := false)
    case Take =>
      if s.nextToWait == s.nextReady then s.(worker := Exited)
      else s.(worker := Waiting, nextToWait := s.nextToWait + 1)
    case Ended(at) =>
      var i := s.nextToWait - 1;
      s.(records := s.records[i := s.records[i].(duration := at - s.records[i].start)], worker := Wrote)
    case WaitFails => s.(accepting := false, worker := Exited)
    case Count => s.(completed := s.completed + 1, worker := Idle)
  }

  ghost predicate Run(s: State, acts: seq<Action>)
    decreases |acts|
  {
    acts == [] || (Enabled(s, acts[0]) && Run(Step(s, acts[0]), acts[1..]))
  }

  ghost function After(s: State, acts: seq<Action>): State
    requires Run(s, acts)
    decreases |acts|
  {
    if acts == [] then s else After(Step(s, acts[0]), acts[1..])
  }

  // ----- what the steps of a run say

  /** The launch times published, in order. */
  function Starts(acts: seq<Action>): seq<nat> {
    if acts == [] then []
    else (if acts[0].Publish? then [acts[0].start] else []) + Starts(acts[1..])
  }

  /** The times at which successful waits ended, in order. */
  function Ends(acts: seq<Action>): seq<nat> {
    if acts == [] then []
    else (if acts[0].Ended? then [acts[0].at] else []) + Ends(acts[1..])
  }

  /** The records, given the launch times and the ends of the waits so far. */
  ghost predicate Written(s: State, starts: seq<nat>, ends: seq<nat>) {
    && |starts| == s.nextReady <= |s.records| && |ends| <= s.nextToWait <= s.nextReady
    && (forall i :: 0 <= i < |starts| ==> s.records[i].start == starts[i])
    && (forall i :: 0 <= i < |ends| ==> starts[i] <= ends[i] && s.records[i].duration == ends[i] - starts[i])
    && (forall i :: |ends| <= i < |s.records| ==> s.records[i].duration == 0)
  }

  ghost predicate Counted(s: State, ends: seq<nat>) {
    && |ends| == s.completed + (if s.worker.Wrote? then 1 else 0)
    && (s.worker.Idle? ==> s.nextToWait == s.completed)
    && (s.worker.Waiting? || s.worker.Wrote? ==> s.nextToWait == s.completed + 1)
  }

  lemma StepKeeps(s: State, a: Action, starts: seq<nat>, ends: seq<nat>)
    requires Written(s, starts, ends) && Counted(s, ends) && Enabled(s, a)
    ensures var moreStarts := starts + (if a.Publish? then [a.start] else []);
            var moreEnds := ends + (if a.Ended? then [a.at] else []);
            Written(Step(s, a), moreStarts, moreEnds) && Counted(Step(s, a), moreEnds)
  {
  }

  lemma Associate(x: seq<nat>, y: seq<nat>, z: seq<nat>)
    ensures x + y + z == x + (y + z)
  {
  }

  lemma {:induction false} RunKeeps(s: State, acts: seq<Action>, starts: seq<nat>, ends: seq<nat>)
    requires Written(s, starts, ends) && Counted(s, ends) && Run(s, acts)
    ensures Written(After(s, acts), starts + Starts(acts), ends + Ends(acts))
    ensures Counted(After(s, acts), ends + Ends(acts))
    decreases |acts|
  {
    if acts == [] {
      assert starts + [] == starts && ends + [] == ends;
    } else {
      var a := acts[0];
      var start, end := if a.Publish? then [a.start] else [], if a.Ended? then [a.at] else [];
      StepKeeps(s, a, starts, ends);
      RunKeeps(Step(s, a), acts[1..], starts + start, ends + end);
      Associate(starts, start, Starts(acts[1..]));
      Associate(ends, end, Ends(acts[1..]));
    }
  }

  /** The durations of a run: end minus launch, kernel by kernel. */
  ghost function Durations(acts: seq<Action>): (d: seq<nat>)
    requires |Ends(acts)| <= |Starts(acts)|
    requires forall i :: 0 <= i < |Ends(acts)| ==> Starts(acts)[i] <= Ends(acts)[i]
    ensures |d| == |Ends(acts)|
  {
    seq(|Ends(acts)|, i requires 0 <= i < |Ends(acts)| => Ends(acts)[i] - Starts(acts)[i])
  }

  lemma NothingFirst(x: seq<nat>)
    ensures [] + x == x
  {
  }

  lemma RunFromStart(total: nat, acts: seq<Action>)
    requires Run(Initial(total), acts)
    ensures Written(After(Initial(total), acts), Starts(acts), Ends(acts))
    ensures Counted(After(Initial(total), acts), Ends(acts))
  {
    RunKeeps(Initial(total), acts, [], []);
    NothingFirst(Starts(acts));
    NothingFirst(Ends(acts));
  }

  /** When the worker has gone, exactly the counted records have their duration, each its own kernel's. */
  lemma CountedAreWritten(total: nat, acts: seq<Action>)
    requires Run(Initial(total), acts) && After(Initial(total), acts).worker.Exited?
    ensures |Ends(acts)| <= |Starts(acts)|
    ensures forall i :: 0 <= i < |Ends(acts)| ==> Starts(acts)[i] <= Ends(acts)[i]
    ensures var s := After(Initial(total), acts);
            && s.completed == |Ends(acts)| <= total == |s.records|
            && DurationsOf(s.records, s.completed) == Durations(acts)
            && (forall i :: s.completed <= i < total ==> s.records[i].duration == 0)
  {
    RunFromStart(total, acts);
    TotalStays(Initial(total), acts);
  }

  lemma {:induction false} TotalStays(s: State, acts: seq<Action>)
    requires Run(s, acts)
    ensures |After(s, acts).records| == |s.records|
    decreases |acts|
  {
    if acts != [] { TotalStays(Step(s, acts[0]), acts[1..]); }
  }

  // ----- the objects

  class LatencyRun {
    const records: array<Record>
    var nextReady: nat
    var nextToWait: nat
    var completed: nat
    var accepting: bool
    var worker: Worker

    ghost function View(): State
      reads this, records
    {
      State(records[..], nextReady, nextToWait, completed, accepting, worker)
    }

    constructor (total: nat)
      ensures View() == Initial(total) && fresh(records)
    {
      records := new Record[total](_ => Record(0, 0));
      nextReady, nextToWait, completed, accepting, worker := 0, 0, 0, true, Idle;
      new;
      assert records[..] == Initial(total).records;
    }

    method PublishRecord(start: nat)
      requires Enabled(View(), Publish(start))
      modifies this`nextReady, records
      ensures View() == Step(old(View()), Publish(start))
    {
      records[nextReady] := records[nextReady].(start := start);
      nextReady := nextReady + 1;
    }

    method TakeRecord()
      requires Enabled(View(), Take)
      modifies this`nextToWait, this`worker
      ensures View() == Step(old(View()), Take)
    {
      if nextToWait == nextReady {
        worker := Exited;
      } else {
        nextToWait := nextToWait + 1;
        worker := Waiting;
      }
    }

    method WriteDuration(at: nat)
      requires Enabled(View(), Ended(at))
      modifies this`worker, records
      ensures View() == Step(old(View()), Ended(at))
    {
      var rec := records[nextToWait - 1];
      records[nextToWait - 1] := rec.(duration := at - rec.start);
      worker := Wrote;
    }

    /** Any interleaving of the submitter and the worker. */
    method Execute(acts: seq<Action>)
      requires Run(View(), acts)
      modifies this, records
      ensures View() == After(old(View()), acts)
    {
      var i := 0;
      while i < |acts|
        invariant i <= |acts| && Run(View(), acts[i..])
        invariant After(View(), acts[i..]) == After(old(View()), acts)
      {
        assert acts[i..][1..] == acts[i + 1..];
        match acts[i] {
          case Publish(start) => PublishRecord(start);
          case Refuse => accepting := false;
          case Take => TakeRecord();
          case Ended(at) => WriteDuration(at);
          case WaitFails => accepting, worker := false, Exited;
          case Count => completed, worker := completed + 1, Idle;
        }
        i := i + 1;
      }
    }
  }

  /** A run and its report. Whatever the interleaving, and whether the worker ended because nothing
      was left or because a wait failed: what is reported is the summary of exactly the kernels whose
      waits succeeded, each with its own end minus its own launch time. */
  method RunAndReport(total: nat, acts: seq<Action>, totalStart: nat, totalEnd: nat) returns (r: Report)
    requires total < UINT32_SPAN && Run(Initial(total), acts) && After(Initial(total), acts).worker.Exited?
    ensures |Ends(acts)| <= |Starts(acts)|
    ensures forall i :: 0 <= i < |Ends(acts)| ==> Starts(acts)[i] <= Ends(acts)[i]
    ensures r.Silent? <==> |Ends(acts)| == 0 || totalEnd <= totalStart
    ensures r.Printed? ==> |Ends(acts)| < UINT32_SPAN && SummaryOf(r.summary, Durations(acts))
  {
    var run := new LatencyRun(total);
    run.Execute(acts);
    CountedAreWritten(total, acts);
    r := PrintSummary(run.records, run.completed, totalStart, totalEnd);
  }
}
