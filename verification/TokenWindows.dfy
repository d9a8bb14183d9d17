/** The history of a token throttle, window by window, and the bound it puts on the rate of grants. */
module TokenWindows {
  import opened Basics

  /** One refill: when it happened, what it read, the utilization and quota it took from that, and the
      times of the grants made from it. */
  datatype Window = Window(start: int, reading: Option<int>, sampled: int, quota: int, grants: seq<int>)

  /** Grants come from the window they fall into and never exceed its quota. */
  ghost predicate WindowOk(w: Window, span: nat, maxQuota: int) {
    && 1 <= w.quota <= maxQuota
    && |w.grants| <= w.quota
    && forall g :: g in w.grants ==> w.start <= g < w.start + span
  }

  /** Windows do not overlap. */
  ghost predicate History(ws: seq<Window>, span: nat, maxQuota: int) {
    && (forall i :: 0 <= i < |ws| ==> WindowOk(ws[i], span, maxQuota))
    && (forall i, j :: 0 <= i < j < |ws| ==> ws[i].start + span <= ws[j].start)
  }

  function CountIn(grants: seq<int>, from: int, until: int): nat {
    if grants == [] then 0
    else CountIn(grants[..|grants| - 1], from, until) + (if from <= grants[|grants| - 1] < until then 1 else 0)
  }

  /** The tokens granted in the half-open interval from `from` to `until`. */
  function Granted(ws: seq<Window>, from: int, until: int): nat {
    if ws == [] then 0
    else Granted(ws[..|ws| - 1], from, until) + CountIn(ws[|ws| - 1].grants, from, until)
  }

  function Total(ws: seq<Window>): nat {
    if ws == [] then 0 else Total(ws[..|ws| - 1]) + |ws[|ws| - 1].grants|
  }

  function CeilDiv(a: nat, b: nat): nat
    requires b > 0
  {
    (a + b - 1) / b
  }

  lemma {:induction false} CountBound(grants: seq<int>, from: int, until: int)
    ensures CountIn(grants, from, until) <= |grants|
    ensures (forall g :: g in grants ==> !(from <= g < until)) ==> CountIn(grants, from, until) == 0
    decreases |grants|
  {
    if grants != [] {
      var front := grants[..|grants| - 1];
      assert forall g :: g in front ==> g in grants;
      assert grants[|grants| - 1] in grants;
      CountBound(front, from, until);
    }
  }

  /** How many window starts fit strictly after `from - span` and up to `last`. */
  function Starts(from: int, span: nat, last: int): int
    requires span > 0
  {
    if last <= from - span then 0 else (last - from + span - 1) / span + 1
  }

  lemma DivideShift(x: int, span: nat)
    requires span > 0
    ensures (x + span) / span == x / span + 1
  {
    assert (x + span) == (x / span + 1) * span + x % span;
    assert ((x + span) / span - (x / span + 1)) * span == x % span - (x + span) % span;
    SmallMultiple((x + span) / span - (x / span + 1), span);
  }

  lemma NotNegative(d: int, b: nat)
    requires 0 < d * b + b
    ensures 0 <= d
  {
  }

  lemma DivideMonotone(x: int, y: int, span: nat)
    requires span > 0 && x <= y
    ensures x / span <= y / span
  {
    assert (y / span - x / span) * span == y - x + x % span - y % span;
    NotNegative(y / span - x / span, span);
  }

  lemma StartsSpaced(from: int, span: nat, earlier: int, last: int)
    requires span > 0 && earlier + span <= last && from - span < last
    ensures Starts(from, span, earlier) + 1 <= Starts(from, span, last)
  {
    if earlier > from - span {
      var x := earlier - from + span - 1;
      DivideShift(x, span);
      DivideMonotone(x + span, last - from + span - 1, span);
    } else {
      DivideMonotone(0, last - from + span - 1, span);
    }
  }

  lemma StartsMonotone(from: int, span: nat, a: int, b: int)
    requires span > 0 && a <= b
    ensures 0 <= Starts(from, span, a) <= Starts(from, span, b)
  {
    if a > from - span {
      DivideMonotone(0, a - from + span - 1, span);
      DivideMonotone(a - from + span - 1, b - from + span - 1, span);
    } else if b > from - span {
      DivideMonotone(0, b - from + span - 1, span);
    }
  }

  function Min(a: int, b: int): int {
    if a <= b then a else b
  }

  lemma {:induction false} GrantedBound(ws: seq<Window>, span: nat, maxQuota: int, from: int, until: int)
    requires span > 0 && maxQuota > 0 && from < until && History(ws, span, maxQuota) && ws != []
    ensures Granted(ws, from, until) <= maxQuota * Starts(from, span, Min(ws[|ws| - 1].start, until - 1))
    decreases |ws|
  {
    var front, w := ws[..|ws| - 1], ws[|ws| - 1];
    var here := Starts(from, span, Min(w.start, until - 1));
    CountBound(w.grants, from, until);
    assert WindowOk(w, span, maxQuota);
    var before := if front == [] then 0 else Starts(from, span, Min(front[|front| - 1].start, until - 1));
    if front != [] {
      GrantedBound(front, span, maxQuota, from, until);
      StartsMonotone(from, span, Min(front[|front| - 1].start, until - 1), Min(w.start, until - 1));
    }
    StartsMonotone(from, span, Min(w.start, until - 1), Min(w.start, until - 1));
    if from - span < w.start < until {
      if front != [] {
        assert front[|front| - 1].start + span <= w.start;
        StartsSpaced(from, span, front[|front| - 1].start, w.start);
      } else {
        DivideMonotone(0, w.start - from + span - 1, span);
      }
      assert before + 1 <= here;
      Distribute(maxQuota, before, here);
    } else {
      assert CountIn(w.grants, from, until) == 0;
      MultiplyMonotone(maxQuota, before, here);
    }
  }

  lemma Distribute(m: int, a: int, b: int)
    requires m > 0 && a + 1 <= b
    ensures m * a + m <= m * b
  {
    assert m * b - (m * a + m) == m * (b - a - 1);
    MultiplyMonotone(m, 0, b - a - 1);
  }

  lemma MultiplyMonotone(m: int, a: int, b: int)
    requires m > 0 && a <= b
    ensures m * a <= m * b
  {
  }

  /** Over every half-open interval of positive length, however it lies, the tokens granted are at
      most one more than the windows it spans, times the largest quota. */
  lemma RateBound(ws: seq<Window>, span: nat, maxQuota: int, from: int, length: nat)
    requires span > 0 && maxQuota > 0 && length > 0 && History(ws, span, maxQuota)
    ensures Granted(ws, from, from + length) <= (CeilDiv(length, span) + 1) * maxQuota
  {
    if ws != [] {
      var until := from + length;
      GrantedBound(ws, span, maxQuota, from, until);
      StartsMonotone(from, span, Min(ws[|ws| - 1].start, until - 1), until - 1);
      DivideMonotone(length + span - 2, length + span - 1, span);
      assert Starts(from, span, until - 1) <= CeilDiv(length, span) + 1;
      MultiplyMonotone(maxQuota, Starts(from, span, Min(ws[|ws| - 1].start, until - 1)), CeilDiv(length, span) + 1);
    }
  }

  /** The bound is reached: a quota granted at the very end of one window and again at the start of
      the next. */
  lemma RateBoundIsTight(span: nat, quota: nat) returns (ws: seq<Window>)
    requires span > 1 && quota > 0
    ensures History(ws, span, quota)
    ensures Granted(ws, span - 1, span + 1) == (CeilDiv(2, span) + 1) * quota
  {
    ws := [Window(0, None, 100, quota, Repeat(span - 1, quota)), Window(span, None, 100, quota, Repeat(span, quota))];
    CountRepeat(span - 1, quota, span - 1, span + 1);
    CountRepeat(span, quota, span - 1, span + 1);
    assert ws[..1][..0] == [] && ws[..1][0] == ws[0];
    assert Granted(ws[..1], span - 1, span + 1) == CountIn(ws[0].grants, span - 1, span + 1);
    assert CeilDiv(2, span) == 1 by {
      assert (span + 1) / span == 1 by { DivideShift(1, span); assert 1 / span == 0; }
    }
  }

  function Repeat(t: int, n: nat): (r: seq<int>)
    ensures |r| == n && forall g :: g in r ==> g == t
  {
    seq(n, _ => t)
  }

  lemma {:induction false} CountRepeat(t: int, n: nat, from: int, until: int)
    requires from <= t < until
    ensures CountIn(Repeat(t, n), from, until) == n
  {
    if n > 0 {
      CountRepeat(t, n - 1, from, until);
      assert Repeat(t, n)[..n - 1] == Repeat(t, n - 1);
    }
  }
}
