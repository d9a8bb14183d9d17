/** The latency summary of the high-priority launcher: the durations of the completed tasks are
    copied, sorted, and indexed with 32-bit arithmetic. */
module LatencySummary {

  const UINT32_SPAN: nat := 0x1_0000_0000

  /** The position of a percentile: the product wraps at 32 bits before it is divided. */
  function PercentileIndex(n: nat, percent: nat): nat
    requires 0 < n < UINT32_SPAN
  {
    ((n - 1) * percent) % UINT32_SPAN / 100
  }

  datatype Summary = Summary(sum: nat, min: nat, p50: nat, p95: nat, p99: nat, max: nat)

  predicate Ascending(s: seq<nat>) {
    forall i, j :: 0 <= i < j < |s| ==> s[i] <= s[j]
  }

  function Sum(s: seq<nat>): nat {
    if s == [] then 0 else Sum(s[..|s| - 1]) + s[|s| - 1]
  }

  // ----- sorting

  function Insert(s: seq<nat>, x: nat): seq<nat> {
    if s == [] || s[|s| - 1] <= x then s + [x] else Insert(s[..|s| - 1], x) + [s[|s| - 1]]
  }

  function Sort(s: seq<nat>): seq<nat> {
    if s == [] then [] else Insert(Sort(s[..|s| - 1]), s[|s| - 1])
  }

  lemma FrontAndLast(s: seq<nat>)
    requires s != []
    ensures s == s[..|s| - 1] + [s[|s| - 1]]
    ensures multiset(s) == multiset(s[..|s| - 1]) + multiset{s[|s| - 1]}
  {
    assert s == s[..|s| - 1] + [s[|s| - 1]];
  }

  lemma {:induction false} InsertPermutes(s: seq<nat>, x: nat)
    ensures multiset(Insert(s, x)) == multiset(s) + multiset{x}
  {
    if s != [] && s[|s| - 1] > x {
      FrontAndLast(s);
      InsertPermutes(s[..|s| - 1], x);
    }
  }

  /** An insertion keeps the order, and puts nothing above `bound` at the end. */
  lemma {:induction false} InsertAscends(s: seq<nat>, x: nat, bound: nat)
    requires Ascending(s) && x <= bound
    requires s != [] ==> s[|s| - 1] <= bound
    ensures Ascending(Insert(s, x)) && Insert(s, x) != []
    ensures Insert(s, x)[|Insert(s, x)| - 1] <= bound
  {
    if s != [] && s[|s| - 1] > x {
      InsertAscends(s[..|s| - 1], x, s[|s| - 1]);
    }
  }

  /** Sorting permutes, and the result ascends. */
  lemma {:induction false} SortSorts(s: seq<nat>)
    ensures Ascending(Sort(s)) && multiset(Sort(s)) == multiset(s)
  {
    if s != [] {
      var front, x := s[..|s| - 1], s[|s| - 1];
      FrontAndLast(s);
      SortSorts(front);
      InsertPermutes(Sort(front), x);
      InsertAscends(Sort(front), x, x + if Sort(front) == [] then 0 else Sort(front)[|Sort(front)| - 1]);
    }
  }

  // ----- the summary

  ghost predicate SummaryOf(r: Summary, durations: seq<nat>)
    requires 0 < |durations| < UINT32_SPAN
  {
    var n := |durations|;
    var sorted := Sort(durations);
    && |sorted| == n && PercentileIndex(n, 95) < n && PercentileIndex(n, 99) < n
    && r == Summary(Sum(durations), sorted[0], sorted[(n - 1) / 2],
                    sorted[PercentileIndex(n, 95)], sorted[PercentileIndex(n, 99)], sorted[n - 1])
  }

  lemma SortLength(s: seq<nat>)
    ensures |Sort(s)| == |s|
  {
    SortSorts(s);
    assert |multiset(Sort(s))| == |multiset(s)|;
  }

  lemma WrappedQuotient(product: nat, m: nat)
    requires product <= 100 * m
    ensures product % UINT32_SPAN / 100 <= m
  {
    assert product % UINT32_SPAN <= product;
  }

  /** Every index stays in range, even when the product wraps. */
  lemma IndexInRange(n: nat)
    requires 0 < n < UINT32_SPAN
    ensures PercentileIndex(n, 95) <= n - 1 && PercentileIndex(n, 99) <= n - 1
  {
    WrappedQuotient((n - 1) * 95, n - 1);
    WrappedQuotient((n - 1) * 99, n - 1);
  }

  // ----- the report

  /** A record: its launch time, and the duration the worker writes once the kernel has finished. */
  datatype Record = Record(start: nat, duration: nat)

  function DurationsOf(records: seq<Record>, n: nat): (d: seq<nat>)
    requires n <= |records|
    ensures |d| == n
  {
    seq(n, i requires 0 <= i < n => records[i].duration)
  }

  datatype Report = Silent | Printed(summary: Summary)

  lemma Copied(d: seq<nat>, records: seq<Record>)
    requires |d| <= |records| && forall j :: 0 <= j < |d| ==> d[j] == records[j].duration
    ensures d == DurationsOf(records, |d|)
  {
  }

  /** Nothing is reported before the first completion or over an empty interval. */
  method PrintSummary(records: array<Record>, completed: nat, totalStart: nat, totalEnd: nat) returns (r: Report)
    requires completed <= records.Length < UINT32_SPAN
    ensures r.Silent? <==> completed == 0 || totalEnd <= totalStart
    ensures r.Printed? ==> SummaryOf(r.summary, DurationsOf(records[..], completed))
  {
    if completed == 0 || totalEnd <= totalStart {
      return Silent;
    }
    var durations := new nat[completed];
    var sum := 0;
    for i := 0 to completed
      invariant forall j :: 0 <= j < i ==> durations[j] == records[j].duration
      invariant sum == Sum(durations[..i])
    {
      durations[i] := records[i].duration;
      assert durations[..i + 1][..i] == durations[..i];
      sum := sum + durations[i];
    }
    Copied(durations[..], records[..]);
    assert durations[..completed] == durations[..];
    var sorted := Sort(durations[..]);
    SortLength(durations[..]);
    IndexInRange(completed);
    r := Printed(Summary(sum, sorted[0], sorted[(completed - 1) / 2],
                         sorted[((completed - 1) * 95) % UINT32_SPAN / 100],
                         sorted[((completed - 1) * 99) % UINT32_SPAN / 100], sorted[completed - 1]));
  }

  ghost predicate Ordered(r: Summary) {
    r.min <= r.p50 <= r.p95 <= r.p99 <= r.max
  }

  lemma OrderedWhen(durations: seq<nat>, r: Summary)
    requires 0 < |durations| < UINT32_SPAN && SummaryOf(r, durations)
    requires (|durations| - 1) / 2 <= PercentileIndex(|durations|, 95) <= PercentileIndex(|durations|, 99)
    ensures Ordered(r)
  {
    SortSorts(durations);
  }

  lemma AscendingSummary(durations: seq<nat>) returns (r: Summary)
    requires 0 < |durations| < UINT32_SPAN && Ascending(durations)
    ensures SummaryOf(r, durations)
    ensures r.p50 == durations[(|durations| - 1) / 2]
    ensures PercentileIndex(|durations|, 95) < |durations| && r.p95 == durations[PercentileIndex(|durations|, 95)]
    ensures PercentileIndex(|durations|, 99) < |durations| && r.p99 == durations[PercentileIndex(|durations|, 99)]
  {
    var n := |durations|;
    IndexInRange(n);
    AscendingIsSorted(durations);
    r := Summary(Sum(durations), durations[0], durations[(n - 1) / 2],
                 durations[PercentileIndex(n, 95)], durations[PercentileIndex(n, 99)], durations[n - 1]);
  }

  /** Distinct durations show the positions as they are. */
  lemma DistinctShowPositions(n: nat) returns (durations: seq<nat>, r: Summary)
    requires 0 < n < UINT32_SPAN
    ensures |durations| == n && SummaryOf(r, durations)
    ensures Ordered(r) ==> (n - 1) / 2 <= PercentileIndex(n, 95) <= PercentileIndex(n, 99)
  {
    durations := seq(n, i => i);
    r := AscendingSummary(durations);
  }

  /** The reported percentiles are in order for every set of durations of a given size exactly when
      their positions are. */
  lemma OrderedIff(n: nat)
    requires 0 < n < UINT32_SPAN
    ensures (forall durations: seq<nat>, r | |durations| == n && SummaryOf(r, durations) :: Ordered(r))
            <==> (n - 1) / 2 <= PercentileIndex(n, 95) <= PercentileIndex(n, 99)
  {
    if (n - 1) / 2 <= PercentileIndex(n, 95) <= PercentileIndex(n, 99) {
      forall durations: seq<nat>, r | |durations| == n && SummaryOf(r, durations) ensures Ordered(r) {
        OrderedWhen(durations, r);
      }
    } else {
      var durations, r := DistinctShowPositions(n);
    }
  }

  lemma InsertLast(s: seq<nat>, x: nat)
    requires Ascending(s) && (s != [] ==> s[|s| - 1] <= x)
    ensures Insert(s, x) == s + [x]
  {
  }

  lemma {:induction false} AscendingIsSorted(s: seq<nat>)
    requires Ascending(s)
    ensures Sort(s) == s
    decreases |s|
  {
    if s != [] {
      var front, x := s[..|s| - 1], s[|s| - 1];
      AscendingIsSorted(front);
      InsertLast(front, x);
      assert s == front + [x];
    }
  }

  /** Without a wrap the positions are in order. */
  lemma NoWrapOrders(n: nat)
    requires 0 < n && (n - 1) * 99 < UINT32_SPAN
    ensures n < UINT32_SPAN && (n - 1) / 2 <= PercentileIndex(n, 95) <= PercentileIndex(n, 99)
  {
    assert (n - 1) * 95 <= (n - 1) * 99;
  }

  /** With one they need not be: at forty-five million tasks the 99th percentile's position has wrapped. */
  lemma WrapReorders()
    ensures PercentileIndex(45_000_001, 99) < PercentileIndex(45_000_001, 95)
  {
  }
}
