/** Two benchmark processes in lockstep over a counter in shared memory. */
module ProcessSync {

  // ----- the sequence of targets in the benchmark's main

  const INT32_SPAN: int := 0x1_0000_0000
  const INT32_LIMIT: int := 0x8000_0000

  /** A long cast to a 32-bit int. */
  function ToInt32(x: int): int {
    (x + INT32_LIMIT) % INT32_SPAN - INT32_LIMIT
  }

  function Sum(xs: seq<int>): int {
    if xs == [] then 0 else Sum(xs[..|xs| - 1]) + xs[|xs| - 1]
  }

  function WindowCount(duration: int, window: int): int
    requires window > 0
  {
    (duration + window - 1) / window
  }

  lemma PositiveFactor(n: int, window: int)
    requires window > 0 && n * window > 0
    ensures n > 0
  {
  }

  lemma WindowCountBounds(duration: int, window: int)
    requires duration > 0 && window > 0
    ensures var n := WindowCount(duration, window); n >= 1 && (n - 1) * window < duration <= n * window
  {
    var n := WindowCount(duration, window);
    assert n * window + (duration + window - 1) % window == duration + window - 1;
    assert (n - 1) * window == n * window - window;
    PositiveFactor(n, window);
  }

  /** The target of the call of `Sync` numbered k, counting from zero. */
  function Target(k: int): int {
    ToInt32(2 * (k + 1))
  }

  /** The length of window `index`, counting from one. */
  function Length(duration: int, window: int, index: int): int {
    var left := duration - (index - 1) * window;
    if window <= left then window else left
  }

  /** How much of the duration the first windows cover. */
  function Covered(duration: int, window: int, windows: int): int {
    if windows * window <= duration then windows * window else duration
  }

  lemma NextWindow(duration: int, window: int, index: int)
    requires duration > 0 && window > 0 && 1 <= index <= WindowCount(duration, window)
    ensures 0 < Length(duration, window, index) <= window
    ensures index < WindowCount(duration, window) ==> Length(duration, window, index) == window
    ensures Covered(duration, window, index) == Covered(duration, window, index - 1) + Length(duration, window, index)
  {
    var n := WindowCount(duration, window);
    WindowCountBounds(duration, window);
    assert (n - 1) * window - (index - 1) * window == (n - index) * window;
    NotNegative(n - index, window);
    assert index * window == (index - 1) * window + window;
  }

  lemma NotNegative(a: int, b: int)
    requires a >= 0 && b >= 0
    ensures a * b >= 0
  {
  }

  lemma WindowTargets(index: int)
    ensures ToInt32(4 + (index - 1) * 4 + 2) == Target(2 * index)
    ensures ToInt32(4 + (index - 1) * 4 + 4) == Target(2 * index + 1)
  {
  }

  lemma SumAppend(xs: seq<int>, x: int)
    ensures Sum(xs + [x]) == Sum(xs) + x
  {
    assert (xs + [x])[..|xs|] == xs;
  }

  /** The windows and barrier targets of a run nobody stops. */
  method Windows(duration: int, window: int) returns (lengths: seq<int>, targets: seq<int>)
    requires duration > 0 && window > 0
    ensures |lengths| == WindowCount(duration, window) && |targets| == 2 + 2 * |lengths|
    ensures forall i :: 0 <= i < |lengths| ==> 0 < lengths[i] <= window
    ensures forall i :: 0 <= i < |lengths| - 1 ==> lengths[i] == window
    ensures Sum(lengths) == duration
    ensures forall k :: 0 <= k < |targets| ==> targets[k] == Target(k)
  {
    WindowCountBounds(duration, window);
    lengths, targets := [], [2, 4];
    assert Target(0) == 2 && Target(1) == 4;
    var count := (duration + window - 1) / window;
    var index := 1;
    while index <= count
      invariant 1 <= index <= count + 1
      invariant |lengths| == index - 1 && |targets| == 2 * index
      invariant forall i :: 0 <= i < |lengths| ==> 0 < lengths[i] <= window
      invariant forall i :: 0 <= i < |lengths| && i < count - 1 ==> lengths[i] == window
      invariant Sum(lengths) == Covered(duration, window, index - 1)
      invariant forall k :: 0 <= k < |targets| ==> targets[k] == Target(k)
    {
      NextWindow(duration, window, index);
      var left := duration - (index - 1) * window;
      var current := if window <= left then window else left;
      var startTarget := ToInt32(4 + (index - 1) * 4 + 2);
      var stopTarget := ToInt32(4 + (index - 1) * 4 + 4);
      WindowTargets(index);
      SumAppend(lengths, current);
      lengths := lengths + [current];
      targets := targets + [startTarget, stopTarget];
      index := index + 1;
    }
  }

  /** Every target is the barrier's own numbering as long as the last one fits an int. */
  lemma TargetsExactIff(n: nat)
    ensures (forall k :: 0 <= k < n ==> Target(k) == 2 * (k + 1)) <==> 2 * n < INT32_LIMIT
  {
    if 2 * n >= INT32_LIMIT {
      assert Target(INT32_LIMIT / 2 - 1) == -INT32_LIMIT;
    }
  }

  // ----- any interleaving of two processes

  /** How many times a process has arrived and how many times it has got through. */
  datatype Process = Process(arrived: nat, passed: nat)

  datatype State = State(count: int, left: Process, right: Process)

  datatype Side = Left | Right

  datatype Action = Arrive(side: Side) | Pass(side: Side)

  function Of(s: State, side: Side): Process {
    if side.Left? then s.left else s.right
  }

  function Other(side: Side): Side {
    if side.Left? then Right else Left
  }

  function With(s: State, side: Side, p: Process): State {
    if side.Left? then s.(left := p) else s.(right := p)
  }

  predicate Waiting(p: Process) {
    p.arrived > p.passed
  }

  /** The k-th call of `Sync` has target 2k. */
  predicate Enabled(s: State, a: Action) {
    match a
    case Arrive(side) => !Waiting(Of(s, side))
    case Pass(side) => Waiting(Of(s, side)) && s.count >= 2 * Of(s, side).arrived
  }

  function Step(s: State, a: Action): State {
    var p := Of(s, a.side);
    match a
    case Arrive(side) => With(s, side, p.(arrived := p.arrived + 1)).(count := s.count + 1)
    case Pass(side) => With(s, side, p.(passed := p.passed + 1))
  }

  /** Both processes start afresh on whatever count the shared memory holds. */
  function Initial(count: int): State {
    State(count, Process(0, 0), Process(0, 0))
  }

  ghost predicate Run(s: State, acts: seq<Action>)
    decreases |acts|
  {
    acts == [] || (Enabled(s, acts[0]) && Run(Step(s, acts[0]), acts[1..]))
  }

  ghost function After(s: State, acts: seq<Action>): State
    requires Run(s, acts)
    decreases |acts|
  {
    if acts == [] then s else After(Step(s, acts[0]), acts[1..])
  }

  ghost predicate Inv(start: int, s: State) {
    && s.count == start + s.left.arrived + s.right.arrived
    && s.left.passed <= s.left.arrived <= s.left.passed + 1
    && s.right.passed <= s.right.arrived <= s.right.passed + 1
    && (start <= 0 ==> s.left.passed <= s.right.arrived && s.right.passed <= s.left.arrived)
  }

  lemma {:induction false} RunKeepsInv(start: int, s: State, acts: seq<Action>)
    requires Inv(start, s) && Run(s, acts)
    ensures Inv(start, After(s, acts))
    decreases |acts|
  {
    if acts != [] {
      RunKeepsInv(start, Step(s, acts[0]), acts[1..]);
    }
  }

  /** From a count of zero, a waiting process gets through exactly when the other has arrived as
      often; the two never differ by more than one arrival. */
  lemma PassesIffOtherArrived(acts: seq<Action>, side: Side)
    requires Run(Initial(0), acts) && Waiting(Of(After(Initial(0), acts), side))
    ensures var s := After(Initial(0), acts);
            && (Enabled(s, Pass(side)) <==> Of(s, Other(side)).arrived >= Of(s, side).arrived)
            && -1 <= Of(s, Other(side)).arrived - Of(s, side).arrived <= 1
  {
    RunKeepsInv(0, Initial(0), acts);
  }

  /** No process is past a phase the other has not reached. */
  ghost predicate InStep(s: State) {
    s.left.passed <= s.right.arrived && s.right.passed <= s.left.arrived
  }

  ghost predicate BothBlocked(s: State) {
    Waiting(s.left) && Waiting(s.right) && !Enabled(s, Pass(Left)) && !Enabled(s, Pass(Right))
  }

  ghost predicate AlwaysInStep(start: int) {
    forall acts: seq<Action> :: Run(Initial(start), acts) ==> InStep(After(Initial(start), acts))
  }

  ghost predicate NeverBothBlocked(start: int) {
    forall acts: seq<Action> :: Run(Initial(start), acts) ==> !BothBlocked(After(Initial(start), acts))
  }

  lemma TwoSteps(s: State, a: Action, b: Action)
    requires Enabled(s, a) && Enabled(Step(s, a), b)
    ensures Run(s, [a, b]) && After(s, [a, b]) == Step(Step(s, a), b)
  {
    assert [a, b][1..] == [b] && [b][1..] == [];
    var t := Step(Step(s, a), b);
    assert Run(t, []) && After(t, []) == t;
    assert Run(Step(s, a), [b]) && After(Step(s, a), [b]) == t;
  }

  /** A count left over from an earlier run breaks the lockstep, a missing one deadlocks it: the
      barrier works exactly when the shared count starts at zero. */
  lemma LockstepIff(start: int)
    ensures AlwaysInStep(start) <==> start <= 0
    ensures NeverBothBlocked(start) <==> start >= 0
  {
    if start <= 0 {
      forall acts: seq<Action> | Run(Initial(start), acts) ensures InStep(After(Initial(start), acts)) {
        RunKeepsInv(start, Initial(start), acts);
      }
    } else {
      TwoSteps(Initial(start), Arrive(Left), Pass(Left));
      assert !InStep(After(Initial(start), [Arrive(Left), Pass(Left)]));
    }
    if start >= 0 {
      forall acts: seq<Action> | Run(Initial(start), acts) ensures !BothBlocked(After(Initial(start), acts)) {
        RunKeepsInv(start, Initial(start), acts);
      }
    } else {
      TwoSteps(Initial(start), Arrive(Left), Arrive(Right));
      assert BothBlocked(After(Initial(start), [Arrive(Left), Arrive(Right)]));
    }
  }

  // ----- the barrier's objects

  /** The counter two processes share; it outlives them. */
  class SharedSyncState {
    var count: int

    constructor (count: int)
      ensures this.count == count
    {
      this.count := count;
    }
  }

  /** One process's handle. A call of `Sync` is an arrival followed by a wait for its target; the
      handle remembers how many calls have begun and how many have come back. */
  class Barrier {
    const state: SharedSyncState
    var arrived: nat
    var passed: nat

    constructor (state: SharedSyncState)
      ensures this.state == state && arrived == 0 && passed == 0
    {
      this.state := state;
      arrived, passed := 0, 0;
    }

    method Arrive()
      modifies this`arrived, state
      ensures state.count == old(state.count) + 1 && arrived == old(arrived) + 1
    {
      state.count := state.count + 1;
      arrived := arrived + 1;
    }

    method TryPass(target: int) returns (pass: bool)
      modifies this`passed
      ensures pass <==> state.count >= target
      ensures passed == old(passed) + (if pass then 1 else 0)
    {
      pass := state.count >= target;
      if pass {
        passed := passed + 1;
      }
    }
  }

  /** Two processes on one counter. */
  class Pair {
    const state: SharedSyncState
    const left: Barrier
    const right: Barrier

    ghost function View(): State
      reads state, left, right
    {
      State(state.count, Process(left.arrived, left.passed), Process(right.arrived, right.passed))
    }

    ghost predicate Valid() {
      left != right && left.state == state && right.state == state
    }

    constructor (count: int)
      ensures Valid() && fresh(state) && fresh(left) && fresh(right) && View() == Initial(count)
    {
      var shared := new SharedSyncState(count);
      var l := new Barrier(shared);
      var r := new Barrier(shared);
      state, left, right := shared, l, r;
    }

    method Perform(a: Action)
      requires Valid() && Enabled(View(), a)
      modifies state, left, right
      ensures View() == Step(old(View()), a)
    {
      var process := if a.side.Left? then left else right;
      match a
      case Arrive(_) => process.Arrive();
      case Pass(_) => var pass := process.TryPass(2 * process.arrived);
    }

    /** Any interleaving of the two processes' arrivals and returns. */
    method Execute(acts: seq<Action>)
      requires Valid() && Run(View(), acts)
      modifies state, left, right
      ensures View() == After(old(View()), acts)
    {
      var i := 0;
      while i < |acts|
        invariant i <= |acts| && Run(View(), acts[i..])
        invariant After(View(), acts[i..]) == After(old(View()), acts)
      {
        assert acts[i..][1..] == acts[i + 1..];
        Perform(acts[i]);
        i := i + 1;
      }
    }
  }

  /** Two fresh processes under any interleaving. On a count of zero neither is ahead of the other by
      more than one arrival nor past a phase the other has not reached, and the count is the number
      of arrivals. */
  method RunPair(start: int, acts: seq<Action>) returns (p: Pair)
    requires Run(Initial(start), acts)
    ensures p.View() == After(Initial(start), acts)
    ensures p.state.count == start + p.left.arrived + p.right.arrived
    ensures start <= 0 ==> p.left.passed <= p.right.arrived && p.right.passed <= p.left.arrived
    ensures start <= 0 ==> -1 <= p.left.arrived - p.right.arrived <= 1
    ensures start >= 0 ==> !BothBlocked(p.View())
  {
    p := new Pair(start);
    p.Execute(acts);
    RunKeepsInv(start, Initial(start), acts);
  }
}
