/** What the numbers of a latency summary mean for the durations themselves. */
module LatencyRanks {
  import opened LatencySummary

  /** How many durations are no longer than v, and how many no shorter. */
  function NoLonger(s: seq<nat>, v: nat): nat {
    if s == [] then 0 else NoLonger(s[..|s| - 1], v) + (if s[|s| - 1] <= v then 1 else 0)
  }

  function NoShorter(s: seq<nat>, v: nat): nat {
    if s == [] then 0 else NoShorter(s[..|s| - 1], v) + (if s[|s| - 1] >= v then 1 else 0)
  }

  lemma AddLast(s: seq<nat>, x: nat, v: nat)
    ensures NoLonger(s + [x], v) == NoLonger(s, v) + (if x <= v then 1 else 0)
    ensures NoShorter(s + [x], v) == NoShorter(s, v) + (if x >= v then 1 else 0)
  {
    assert (s + [x])[..|s|] == s;
  }

  lemma {:induction false} InsertCounts(s: seq<nat>, x: nat, v: nat)
    ensures NoLonger(Insert(s, x), v) == NoLonger(s, v) + (if x <= v then 1 else 0)
    ensures NoShorter(Insert(s, x), v) == NoShorter(s, v) + (if x >= v then 1 else 0)
    decreases |s|
  {
    if s == [] || s[|s| - 1] <= x {
      AddLast(s, x, v);
    } else {
      InsertCounts(s[..|s| - 1], x, v);
      AddLast(Insert(s[..|s| - 1], x), s[|s| - 1], v);
    }
  }

  lemma {:induction false} SortCounts(s: seq<nat>, v: nat)
    ensures NoLonger(Sort(s), v) == NoLonger(s, v) && NoShorter(Sort(s), v) == NoShorter(s, v)
    decreases |s|
  {
    if s != [] {
      SortCounts(s[..|s| - 1], v);
      InsertCounts(Sort(s[..|s| - 1]), s[|s| - 1], v);
    }
  }

  lemma {:induction false} RankFromBelow(s: seq<nat>, k: nat, v: nat)
    requires k < |s| && forall i :: 0 <= i <= k ==> s[i] <= v
    ensures NoLonger(s, v) >= k + 1
    decreases |s|
  {
    if k < |s| - 1 {
      RankFromBelow(s[..|s| - 1], k, v);
    } else if k > 0 {
      RankFromBelow(s[..|s| - 1], k - 1, v);
    }
  }

  lemma {:induction false} RankFromAbove(s: seq<nat>, k: nat, v: nat)
    requires k < |s| && forall i :: k <= i < |s| ==> s[i] >= v
    ensures NoShorter(s, v) >= |s| - k
    decreases |s|
  {
    if k < |s| - 1 {
      RankFromAbove(s[..|s| - 1], k, v);
    }
  }

  /** The value at position k of the sorted durations: one of them, at least k + 1 of them are no longer,
      and at least n - k no shorter. */
  ghost predicate HasRank(durations: seq<nat>, v: nat, k: nat)
    requires k < |durations|
  {
    v in durations && NoLonger(durations, v) >= k + 1 && NoShorter(durations, v) >= |durations| - k
  }

  lemma SortedIsMember(durations: seq<nat>, k: nat)
    requires k < |durations|
    ensures k < |Sort(durations)| && Sort(durations)[k] in durations
  {
    SortSorts(durations);
    SortLength(durations);
    var v := Sort(durations)[k];
    assert v in multiset(Sort(durations));
    assert v in multiset(durations);
  }

  lemma AscendingRank(sorted: seq<nat>, k: nat)
    requires Ascending(sorted) && k < |sorted|
    ensures NoLonger(sorted, sorted[k]) >= k + 1 && NoShorter(sorted, sorted[k]) >= |sorted| - k
  {
    RankFromBelow(sorted, k, sorted[k]);
    RankFromAbove(sorted, k, sorted[k]);
  }

  lemma SortedHasRank(durations: seq<nat>, k: nat)
    requires k < |durations|
    ensures k < |Sort(durations)| && HasRank(durations, Sort(durations)[k], k)
  {
    SortSorts(durations);
    SortLength(durations);
    SortedIsMember(durations, k);
    AscendingRank(Sort(durations), k);
    SortCounts(durations, Sort(durations)[k]);
  }

  function SumFromFront(s: seq<nat>): nat {
    if s == [] then 0 else s[0] + SumFromFront(s[1..])
  }

  lemma {:induction false} SumsAgree(s: seq<nat>)
    ensures Sum(s) == SumFromFront(s)
    decreases |s|
  {
    if |s| == 1 {
      assert s[1..] == [] && s[..0] == [];
    } else if |s| > 1 {
      var middle := s[1..|s| - 1];
      SumsAgree(s[1..]);
      SumsAgree(s[..|s| - 1]);
      SumsAgree(middle);
      assert s[1..][..|s| - 2] == middle && s[..|s| - 1][1..] == middle;
    }
  }

  lemma LeastAndGreatest(durations: seq<nat>)
    requires durations != []
    ensures |Sort(durations)| == |durations|
    ensures forall d :: d in durations ==> Sort(durations)[0] <= d <= Sort(durations)[|durations| - 1]
  {
    var sorted := Sort(durations);
    SortSorts(durations);
    SortLength(durations);
    forall d | d in durations ensures sorted[0] <= d <= sorted[|sorted| - 1] {
      assert d in multiset(durations);
      assert d in sorted;
    }
  }

  /** A summary in terms of the durations alone: the minimum and maximum are among them and bound them,
      the sum is theirs, and each percentile is one of them, of the rank at the position that the 32-bit
      arithmetic gives. */
  lemma SummaryMeans(durations: seq<nat>, r: Summary)
    requires 0 < |durations| < 0x1_0000_0000 && SummaryOf(r, durations)
    ensures r.min in durations && r.max in durations && forall d :: d in durations ==> r.min <= d <= r.max
    ensures r.sum == SumFromFront(durations)
    ensures var n := |durations|;
            && HasRank(durations, r.p50, (n - 1) / 2)
            && ((n - 1) * 95) % 0x1_0000_0000 / 100 < n
            && HasRank(durations, r.p95, ((n - 1) * 95) % 0x1_0000_0000 / 100)
            && ((n - 1) * 99) % 0x1_0000_0000 / 100 < n
            && HasRank(durations, r.p99, ((n - 1) * 99) % 0x1_0000_0000 / 100)
  {
    var n := |durations|;
    IndexInRange(n);
    SortedHasRank(durations, 0);
    SortedHasRank(durations, n - 1);
    SortedHasRank(durations, (n - 1) / 2);
    SortedHasRank(durations, PercentileIndex(n, 95));
    SortedHasRank(durations, PercentileIndex(n, 99));
    LeastAndGreatest(durations);
    SumsAgree(durations);
  }
}
