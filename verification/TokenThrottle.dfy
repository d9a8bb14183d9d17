/** The token throttle of the GPU benchmark and the measured loop that draws from it. */
module TokenThrottle {
  import opened Basics
  import opened TokenWindows

  /** The world outside the throttle: a clock that never runs backwards, a stop flag that stays set,
      and the utilization file. The flag is set after finitely many polls, at the latest when the
      budget is used up. */
  class Environment {
    var clock: int
    var stop: bool
    var polls: nat
    var file: Option<int>  // the number in the utilization file, if there is one

    /** While time passes anybody may have rewritten the file. */
    method Now() returns (t: int)
      modifies this`clock, this`file
      ensures t == clock >= old(clock)
    {
      var elapsed: int :| elapsed >= 0;
      clock := clock + elapsed;
      file := *;
      t := clock;
    }

    method SleepUntil(t: int)
      modifies this`clock, this`file
      ensures clock >= old(clock) && clock >= t
    {
      if clock < t {
        clock := t;
      }
      var late: int :| late >= 0;
      clock := clock + late;
      file := *;
    }

    method Stopped() returns (s: bool)
      modifies this`stop, this`polls
      ensures s == stop && (old(stop) ==> stop)
      ensures polls <= old(polls) && (!stop ==> polls < old(polls))
    {
      var signal: bool := *;
      if polls == 0 || signal {
        stop := true;
      } else {
        polls := polls - 1;
      }
      s := stop;
    }
  }

  const FULL: int := 100

  /** A reading of the file, clamped; an unreadable file keeps the last value. */
  function Clamped(reading: Option<int>, last: int): int {
    match reading
    case None => last
    case Some(v) => if v < 0 then 0 else if v > FULL then FULL else v
  }

  function Quota(utilization: int, quotaUnit: int): int {
    if utilization * quotaUnit > 1 then utilization * quotaUnit else 1
  }

  lemma QuotaBound(utilization: int, quotaUnit: int)
    requires 0 <= utilization <= FULL && quotaUnit > 0
    ensures 1 <= Quota(utilization, quotaUnit) <= Quota(FULL, quotaUnit)
  {
    MultiplyMonotone(quotaUnit, utilization, FULL);
  }

  // ----- what a history has sampled

  /** Each window's utilization follows from what it read, and its quota from that; before the first
      reading the utilization is full. */
  ghost predicate SampledAt(ws: seq<Window>, i: nat, hasFile: bool, quotaUnit: int)
    requires i < |ws|
  {
    && ws[i].sampled == (if hasFile then Clamped(ws[i].reading, if i == 0 then FULL else ws[i - 1].sampled) else FULL)
    && 0 <= ws[i].sampled <= FULL
    && ws[i].quota == Quota(ws[i].sampled, quotaUnit)
  }

  ghost predicate Sampled(ws: seq<Window>, hasFile: bool, quotaUnit: int) {
    forall i :: 0 <= i < |ws| ==> SampledAt(ws, i, hasFile, quotaUnit)
  }

  lemma SampledMore(ws: seq<Window>, w: Window, hasFile: bool, quotaUnit: int)
    requires Sampled(ws, hasFile, quotaUnit) && SampledAt(ws + [w], |ws|, hasFile, quotaUnit)
    ensures Sampled(ws + [w], hasFile, quotaUnit)
  {
    forall i | 0 <= i < |ws| ensures SampledAt(ws + [w], i, hasFile, quotaUnit) {
      assert SampledAt(ws, i, hasFile, quotaUnit);
    }
  }

  lemma SampledGranting(ws: seq<Window>, now: int, hasFile: bool, quotaUnit: int)
    requires ws != [] && Sampled(ws, hasFile, quotaUnit)
    ensures Sampled(Granting(ws, now), hasFile, quotaUnit)
  {
    forall i | 0 <= i < |ws| ensures SampledAt(Granting(ws, now), i, hasFile, quotaUnit) {
      assert SampledAt(ws, i, hasFile, quotaUnit);
    }
  }

  lemma HistoryMore(ws: seq<Window>, w: Window, span: nat, maxQuota: int)
    requires History(ws, span, maxQuota) && WindowOk(w, span, maxQuota)
    requires ws != [] ==> ws[|ws| - 1].start + span <= w.start
    requires span > 0
    ensures History(ws + [w], span, maxQuota)
  {
    var all := ws + [w];
    forall i, j | 0 <= i < j < |all| ensures all[i].start + span <= all[j].start {
      if j == |ws| && i < |ws| - 1 {
        assert ws[i].start + span <= ws[|ws| - 1].start;
      }
    }
  }

  lemma HistoryGranting(ws: seq<Window>, now: int, span: nat, maxQuota: int)
    requires ws != [] && History(ws, span, maxQuota)
    requires |ws[|ws| - 1].grants| < ws[|ws| - 1].quota && ws[|ws| - 1].start <= now < ws[|ws| - 1].start + span
    ensures History(Granting(ws, now), span, maxQuota)
  {
    var all, last := Granting(ws, now), |ws| - 1;
    assert WindowOk(ws[last], span, maxQuota);
    forall i | 0 <= i < |all| ensures WindowOk(all[i], span, maxQuota) {
      assert WindowOk(ws[i], span, maxQuota);
    }
    forall i, j | 0 <= i < j < |all| ensures all[i].start + span <= all[j].start {
      assert ws[i].start + span <= ws[j].start;
    }
  }

  /** If the first reading can be read and no reading is above u, no utilization is. */
  lemma {:induction false} ReadingsBoundSamples(ws: seq<Window>, quotaUnit: int, u: int, n: nat)
    requires Sampled(ws, true, quotaUnit) && u >= 0 && n < |ws| && ws[0].reading.Some?
    requires forall i :: 0 <= i < |ws| && ws[i].reading.Some? ==> ws[i].reading.value <= u
    ensures ws[n].sampled <= u
  {
    assert SampledAt(ws, n, true, quotaUnit);
    if n > 0 { ReadingsBoundSamples(ws, quotaUnit, u, n - 1); }
  }

  /** And none is below l if no reading is, up to the full utilization. */
  lemma {:induction false} ReadingsBoundSamplesBelow(ws: seq<Window>, quotaUnit: int, l: int, n: nat)
    requires Sampled(ws, true, quotaUnit) && l <= 100 && n < |ws|
    requires forall i :: 0 <= i < |ws| && ws[i].reading.Some? ==> l <= ws[i].reading.value
    ensures l <= ws[n].sampled
  {
    assert SampledAt(ws, n, true, quotaUnit);
    if n > 0 { ReadingsBoundSamplesBelow(ws, quotaUnit, l, n - 1); }
  }

  lemma QuotaAt(utilization: int, u: int, quotaUnit: int)
    requires 0 <= utilization <= u && quotaUnit > 0
    ensures 1 <= Quota(utilization, quotaUnit) <= if u * quotaUnit > 1 then u * quotaUnit else 1
  {
    MultiplyMonotone(quotaUnit, utilization, u);
  }

  function Counted(counts: seq<nat>): nat {
    if counts == [] then 0 else Counted(counts[..|counts| - 1]) + counts[|counts| - 1]
  }

  // ----- how a history grows

  /** New windows may follow, all of them without grants. */
  ghost predicate Refilled(before: seq<Window>, after: seq<Window>) {
    before <= after && forall i :: |before| <= i < |after| ==> after[i].grants == []
  }

  /** One grant at the given time is added to the newest window. */
  ghost function Granting(ws: seq<Window>, now: int): seq<Window>
    requires ws != []
  {
    var last := |ws| - 1;
    ws[last := ws[last].(grants := ws[last].grants + [now])]
  }

  /** Earlier windows are as they were, and the one that was newest has only gained grants. */
  ghost predicate Grew(before: seq<Window>, after: seq<Window>) {
    && |before| <= |after|
    && (forall i :: 0 <= i < |before| - 1 ==> after[i] == before[i])
    && (before != [] ==>
          var n := |before| - 1;
          before[n].grants <= after[n].grants && after[n] == before[n].(grants := after[n].grants))
  }

  lemma GrewTwice(a: seq<Window>, b: seq<Window>, c: seq<Window>)
    requires Grew(a, b) && Grew(b, c)
    ensures Grew(a, c)
  {
    if a != [] && |a| == |b| {
      assert c[|a| - 1].grants[..|a[|a| - 1].grants|] == a[|a| - 1].grants;
    }
  }

  lemma RefilledOnce(a: seq<Window>, b: seq<Window>, w: Window)
    requires Refilled(a, b) && w.grants == []
    ensures Refilled(a, b + [w]) && Total(b + [w]) == Total(b)
  {
    assert (b + [w])[..|b|] == b;
  }

  lemma RefillIsGrowth(a: seq<Window>, b: seq<Window>)
    requires Refilled(a, b)
    ensures Grew(a, b)
  {
  }

  lemma GrantIsGrowth(before: seq<Window>, refilled: seq<Window>, now: int)
    requires Refilled(before, refilled) && refilled != []
    ensures Grew(before, Granting(refilled, now)) && Total(Granting(refilled, now)) == Total(refilled) + 1
  {
    var last := |refilled| - 1;
    assert Granting(refilled, now)[..last] == refilled[..last];
    assert refilled[..|before|] == before;
  }

  class Throttle {
    const enabled: bool
    const quotaUnit: int
    const window: nat
    const hasFile: bool
    var utilization: int
    var tokens: int
    var windowEnd: int
    ghost var history: seq<Window>

    ghost function MaxQuota(): int {
      Quota(FULL, quotaUnit)
    }

    /** While enabled, what is left of the newest window is exactly what it has not yet granted. */
    ghost predicate Valid()
      reads this
    {
      && quotaUnit > 0 && window > 0
      && 0 <= utilization <= FULL
      && History(history, window, MaxQuota()) && Sampled(history, hasFile, quotaUnit)
      && utilization == (if history == [] then FULL else history[|history| - 1].sampled)
      && (!enabled ==> history == [])
      && (enabled ==>
            && history != []
            && windowEnd == history[|history| - 1].start + window
            && 0 <= tokens == history[|history| - 1].quota - |history[|history| - 1].grants|)
    }

    /** The clock has passed everything in the history. */
    ghost predicate Passed(env: Environment)
      reads this, env
    {
      history != [] ==> history[|history| - 1].start <= env.clock
    }

    constructor (enabled: bool, quotaUnit: int, window: nat, hasFile: bool, env: Environment)
      requires quotaUnit > 0 && window > 0
      modifies env`clock, env`file
      ensures Valid() && Passed(env)
      ensures this.enabled == enabled && this.quotaUnit == quotaUnit && this.window == window
      ensures this.hasFile == hasFile && |history| == (if enabled then 1 else 0)
      ensures Total(history) == 0
    {
      this.enabled, this.quotaUnit, this.window, this.hasFile := enabled, quotaUnit, window, hasFile;
      utilization, tokens, windowEnd := FULL, FULL, 0;
      history := [];
      new;
      if enabled {
        var now := env.Now();
        Refill(env, now);
      }
    }

    method ReadUtilization(env: Environment) returns (u: int, ghost reading: Option<int>)
      ensures reading == env.file
      ensures u == if hasFile then Clamped(reading, utilization) else FULL
      ensures !hasFile || (env.file.Some? && env.file.value > 100) ==> u == 100
      ensures hasFile && env.file.Some? && env.file.value < 0 ==> u == 0
      ensures hasFile && env.file.Some? && 0 <= env.file.value <= 100 ==> u == env.file.value
      ensures hasFile && env.file.None? ==> u == utilization
      ensures 0 <= utilization <= FULL ==> 0 <= u <= FULL
    {
      reading := env.file;
      if !hasFile {
        return FULL, reading;
      }
      var value := env.file;
      if value.None? {
        return utilization, reading;
      }
      if value.value < 0 {
        return 0, reading;
      }
      if value.value > FULL {
        return FULL, reading;
      }
      return value.value, reading;
    }

    /** A new window starts after the previous one has ended, with the quota just sampled. */
    method Refill(env: Environment, now: int)
      requires enabled && quotaUnit > 0 && window > 0 && 0 <= utilization <= FULL
      requires if history == [] then utilization == FULL else Valid() && windowEnd <= now
      requires now == env.clock
      modifies this`utilization, this`tokens, this`windowEnd, this`history
      ensures Valid() && Passed(env)
      ensures history
              == old(history) + [Window(now, env.file, utilization, Quota(utilization, quotaUnit), [])]
    {
      ghost var reading;
      utilization, reading := ReadUtilization(env);
      tokens := Quota(utilization, quotaUnit);
      windowEnd := now + window;
      QuotaBound(utilization, quotaUnit);
      ghost var w := Window(now, reading, utilization, tokens, []);
      HistoryMore(history, w, window, MaxQuota());
      SampledMore(history, w, hasFile, quotaUnit);
      history := history + [w];
    }

    /** One token of the current window goes to a grant at this time. */
    method Take(now: int)
      requires Valid() && enabled && tokens > 0
      requires history[|history| - 1].start <= now < windowEnd
      modifies this`tokens, this`history
      ensures Valid() && history == Granting(old(history), now)
    {
      tokens := tokens - 1;
      HistoryGranting(history, now, window, MaxQuota());
      SampledGranting(history, now, hasFile, quotaUnit);
      history := Granting(history, now);
    }

    /** The window is over or used up: wait for its end, and refill. */
    method NextWindow(env: Environment, now: int)
      requires Valid() && Passed(env) && enabled && now <= env.clock && (now >= windowEnd || tokens <= 0)
      modifies this`utilization, this`tokens, this`windowEnd, this`history, env`clock, env`file
      ensures Valid() && Passed(env) && env.clock >= old(env.clock) && env.clock >= old(windowEnd)
      ensures history != [] && history[|history| - 1].grants == []
      ensures history == old(history) + [history[|history| - 1]]
    {
      if now < windowEnd && tokens <= 0 {
        env.SleepUntil(windowEnd);
      }
      var later := env.Now();
      Refill(env, later);
    }

    /** Returns with one token taken from the newest window, or without one because of a stop. As long as
        the window that was newest is not over and has tokens left, it is that one. */
    method Acquire(env: Environment) returns (ghost granted: bool, ghost refilled: seq<Window>, ghost at: int)
      requires Valid() && Passed(env)
      modifies this`utilization, this`tokens, this`windowEnd, this`history, env
      ensures Valid() && Passed(env) && (old(env.stop) ==> env.stop)
      ensures env.polls <= old(env.polls) && old(env.clock) <= env.clock
      ensures Refilled(old(history), refilled)
      ensures granted ==> refilled != [] && history == Granting(refilled, at) && old(env.clock) <= at
      ensures granted && old(tokens) > 0 && at < old(windowEnd) ==> refilled == old(history)
      ensures !granted ==> history == refilled
      ensures Grew(old(history), history)
      ensures Total(history) == Total(old(history)) + (if granted then 1 else 0)
      ensures granted ==> enabled
      ensures !granted && enabled ==> env.stop
      ensures !enabled ==> env.polls == old(env.polls) && env.stop == old(env.stop)
      ensures granted ==> env.polls < old(env.polls)
    {
      granted, refilled, at := false, history, env.clock;
      if !enabled {
        return;
      }
      ghost var start, limit, had := history, windowEnd, tokens;
      while true
        invariant refilled == history && Refilled(start, history) && old(env.clock) <= env.clock
        invariant Valid() && Passed(env) && (old(env.stop) ==> env.stop)
        invariant if history == start then windowEnd == limit && tokens == had else had <= 0 || limit <= env.clock
        invariant Total(history) == Total(start)
        invariant env.polls <= old(env.polls)
        decreases env.polls
      {
        var stop := env.Stopped();
        if stop {
          RefillIsGrowth(start, history);
          break;
        }
        var now := env.Now();
        if now >= windowEnd || tokens <= 0 {
          NextWindow(env, now);
          RefilledOnce(start, refilled, history[|history| - 1]);
          refilled := history;
        } else {
          Take(now);
          granted, at := true, now;
          GrantIsGrowth(start, refilled, now);
          return;
        }
      }
    }

    /** One measured window of the benchmark: an inference only after a token, when throttling. */
    method Measure(env: Environment, duration: int) returns (count: nat)
      requires Valid() && Passed(env)
      modifies this`utilization, this`tokens, this`windowEnd, this`history, env
      ensures Valid() && Passed(env) && Grew(old(history), history)
      ensures enabled ==> count <= Total(history) - Total(old(history)) <= count + 1
      ensures enabled && !env.stop ==> count == Total(history) - Total(old(history))
      ensures !env.stop ==> count > 0 && env.clock - old(env.clock) >= duration
    {
      count := 0;
      var start := env.Now();
      while true
        invariant Valid() && Passed(env) && Grew(old(history), history) && start >= old(env.clock)
        invariant enabled ==> count == Total(history) - Total(old(history))
        decreases env.polls
      {
        var stop := env.Stopped();
        if stop {
          break;
        }
        ghost var before := history;
        ghost var granted, refilled, at := Acquire(env);
        GrewTwice(old(history), before, history);
        stop := env.Stopped();
        if stop {
          break;
        }
        count := count + 1;
        var now := env.Now();
        if now - start >= duration {
          break;
        }
      }
    }

    /** The benchmark's windows, until a stop: the inferences counted in them are the tokens granted,
        but for one granted just as the stop arrived, and the rate bound holds throughout. */
    method Benchmark(env: Environment, duration: int, span: int, second: nat) returns (counts: seq<nat>)
      requires Valid() && Passed(env) && duration > 0 && span > 0
      modifies this`utilization, this`tokens, this`windowEnd, this`history, env
      ensures Valid() && Grew(old(history), history) && |counts| <= (duration + span - 1) / span
      ensures |counts| < (duration + span - 1) / span ==> env.stop
      ensures enabled ==> Counted(counts) <= Total(history) - Total(old(history)) <= Counted(counts) + 1
      ensures forall from: int, until: int :: from < until ==>
                Granted(history, from, until) <= (CeilDiv(until - from, window) + 1) * Quota(FULL, quotaUnit)
    {
      counts := [];
      var windows := (duration + span - 1) / span;
      var index := 1;
      while index <= windows
        invariant Valid() && Passed(env) && Grew(old(history), history)
        invariant |counts| == index - 1 && (windows < 1 || index <= windows + 1)
        invariant enabled ==>
                    && Counted(counts) <= Total(history) - Total(old(history))
                    && Total(history) - Total(old(history)) <= Counted(counts) + (if env.stop then 1 else 0)
      {
        var stop := env.Stopped();
        if stop {
          break;
        }
        var left := duration - (index - 1) * span;
        var current := if span <= left then span else left;
        ghost var before := history;
        var count := Measure(env, current * second);
        GrewTwice(old(history), before, history);
        assert (counts + [count])[..|counts|] == counts;
        counts := counts + [count];
        index := index + 1;
      }
      forall from: int, until: int | from < until
        ensures Granted(history, from, until) <= (CeilDiv(until - from, window) + 1) * Quota(FULL, quotaUnit)
      {
        RateBound(history, window, MaxQuota(), from, until - from);
      }
    }
  }

  /** A throttle that has never sampled more than u grants, in any half-open interval, at most the quota
      at u for each window the interval spans, and one more. */
  lemma SampledRate(t: Throttle, u: int, from: int, length: nat)
    requires t.Valid() && length > 0 && 0 <= u
    requires forall i :: 0 <= i < |t.history| ==> t.history[i].sampled <= u
    ensures Granted(t.history, from, from + length)
            <= (CeilDiv(length, t.window) + 1) * (if u * t.quotaUnit > 1 then u * t.quotaUnit else 1)
  {
    var quota := if u * t.quotaUnit > 1 then u * t.quotaUnit else 1;
    forall i | 0 <= i < |t.history| ensures WindowOk(t.history[i], t.window, quota) {
      assert WindowOk(t.history[i], t.window, t.MaxQuota());
      assert SampledAt(t.history, i, t.hasFile, t.quotaUnit);
      QuotaAt(t.history[i].sampled, u, t.quotaUnit);
    }
    RateBound(t.history, t.window, quota, from, length);
  }

  /** The same from the readings: with a file whose first reading could be read and none of whose
      readings was above u. */
  lemma ReadRate(t: Throttle, u: int, from: int, length: nat)
    requires t.Valid() && t.hasFile && length > 0 && 0 <= u && t.history != [] && t.history[0].reading.Some?
    requires forall i :: 0 <= i < |t.history| && t.history[i].reading.Some? ==> t.history[i].reading.value <= u
    ensures Granted(t.history, from, from + length)
            <= (CeilDiv(length, t.window) + 1) * (if u * t.quotaUnit > 1 then u * t.quotaUnit else 1)
  {
    forall i | 0 <= i < |t.history| ensures t.history[i].sampled <= u {
      ReadingsBoundSamples(t.history, t.quotaUnit, u, i);
    }
    SampledRate(t, u, from, length);
  }

  /** What is left of the newest window and what it has granted make up the quota at the utilization it
      sampled: such a window can grant that much, and no more. */
  lemma WindowGrantsItsQuota(t: Throttle)
    requires t.Valid() && t.enabled
    ensures var w := t.history[|t.history| - 1];
            && 0 <= w.sampled <= 100
            && t.tokens + |w.grants| == (if w.sampled * t.quotaUnit > 1 then w.sampled * t.quotaUnit else 1)
  {
    assert SampledAt(t.history, |t.history| - 1, t.hasFile, t.quotaUnit);
  }

  /** Whatever the file says and however the clock advances, the tokens a throttle has granted in any
      half-open interval stay under the bound. */
  lemma ThrottleRate(t: Throttle, from: int, length: nat)
    requires t.Valid() && length > 0
    ensures Granted(t.history, from, from + length) <= (CeilDiv(length, t.window) + 1) * Quota(FULL, t.quotaUnit)
    ensures Quota(FULL, t.quotaUnit) == 100 * t.quotaUnit
  {
    RateBound(t.history, t.window, t.MaxQuota(), from, length);
  }
}
