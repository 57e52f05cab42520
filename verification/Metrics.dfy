/**
 The statistics of one run: drawdown, total return, exposure and daily returns, as folds over the
 engine's series. Equity starts at 1.
 */
module Metrics {
  import opened Options
  import opened Arithmetic

  // ---------- drawdown ----------

  /** The running maximum of the equity, starting at 1. */
  function PeakOf(equity: seq<real>): (r: real)
    ensures 1.0 <= r
  {
    if equity == [] then 1.0
    else
      var before, e := PeakOf(equity[..|equity| - 1]), equity[|equity| - 1];
      if e > before then e else before
  }

  function DrawdownAt(equity: seq<real>, row: nat): real
    requires row < |equity|
  {
    equity[row] / PeakOf(equity[..row + 1]) - 1.0
  }

  function Drawdown(equity: seq<real>): (r: seq<real>)
    ensures |r| == |equity| && forall i | 0 <= i < |r| :: r[i] == DrawdownAt(equity, i)
  {
    seq(|equity|, i requires 0 <= i < |equity| => DrawdownAt(equity, i))
  }

  function Min(values: seq<real>): real
    requires values != []
  {
    if |values| == 1 then values[0]
    else
      var rest, v := Min(values[..|values| - 1]), values[|values| - 1];
      if v < rest then v else rest
  }

  function MaxDrawdown(equity: seq<real>): Option<real> {
    if equity == [] then None else Some(0.0 - Min(Drawdown(equity)))
  }

  /** The equity with the starting capital in front: the levels a fall is measured from. */
  function Levels(equity: seq<real>): seq<real> {
    [1.0] + equity
  }

  /** The share of `from` that is gone at `to`. */
  function Fall(from: real, to: real): real
    requires 0.0 < from
  {
    1.0 - to / from
  }

  lemma {:induction false} MinIsLeast(values: seq<real>)
    requires values != []
    ensures Min(values) in values
    ensures forall i | 0 <= i < |values| :: Min(values) <= values[i]
  {
    if |values| > 1 {
      var before := values[..|values| - 1];
      MinIsLeast(before);
      forall i | 0 <= i < |values| ensures Min(values) <= values[i] {
        if i < |before| { assert Min(before) <= before[i]; }
      }
    }
  }

  /** The peak is one of the levels so far, and none of them exceeds it. */
  lemma {:induction false} PeakIsHighestLevel(equity: seq<real>)
    ensures PeakOf(equity) in Levels(equity)
    ensures forall i | 0 <= i <= |equity| :: Levels(equity)[i] <= PeakOf(equity)
  {
    if equity == [] {
      assert Levels(equity)[0] == 1.0;
    } else {
      var n := |equity| - 1;
      PeakIsHighestLevel(equity[..n]);
      assert Levels(equity) == Levels(equity[..n]) + [equity[n]];
      assert Levels(equity)[n + 1] == equity[n];
    }
  }

  lemma {:induction false} FallGrowsWithLevel(low: real, high: real, to: real)
    requires 0.0 < low <= high && 0.0 <= to
    ensures Fall(low, to) <= Fall(high, to)
  {
    var q, p := to / low, to / high;
    assert q * low == to && p * high == to;
    if q < p {
      assert p >= 0.0;
      assert q * low < p * low by { assert (p - q) * low > 0.0; }
      assert p * low <= p * high by { assert p * (high - low) >= 0.0; }
    }
  }

  /** No fall from a level to that row or a later one exceeds `worst`, and one attains it; nothing falls from 0. */
  predicate IsLargestFall(equity: seq<real>, worst: real) {
    var levels := Levels(equity);
    && (forall i, j | 0 <= i <= j + 1 <= |equity| && 0.0 < levels[i] && 0 <= j :: Fall(levels[i], equity[j]) <= worst)
    && (exists i, j :: 0 <= i <= j + 1 <= |equity| && 0 <= j && 0.0 < levels[i] && Fall(levels[i], equity[j]) == worst)
  }

  /** The one-pass maximum drawdown is the largest fall over all pairs of a level and a later row. */
  lemma {:induction false} MaxDrawdownIsLargestFall(equity: seq<real>)
    requires equity != [] && forall i | 0 <= i < |equity| :: 0.0 <= equity[i]
    ensures IsLargestFall(equity, MaxDrawdown(equity).value)
  {
    var levels, curve := Levels(equity), Drawdown(equity);
    MinIsLeast(curve);
    forall i, j | 0 <= i <= j + 1 <= |equity| && 0.0 < levels[i] && 0 <= j
      ensures Fall(levels[i], equity[j]) <= 0.0 - Min(curve)
    {
      LevelsPrefix(equity, j, i);
      PeakIsHighestLevel(equity[..j + 1]);
      FallGrowsWithLevel(levels[i], PeakOf(equity[..j + 1]), equity[j]);
      assert curve[j] == DrawdownAt(equity, j);
    }
    var j :| 0 <= j < |curve| && curve[j] == Min(curve);
    PeakIsHighestLevel(equity[..j + 1]);
    var i :| 0 <= i <= j + 1 && Levels(equity[..j + 1])[i] == PeakOf(equity[..j + 1]);
    LevelsPrefix(equity, j, i);
    assert Fall(levels[i], equity[j]) == 0.0 - Min(curve);
  }

  lemma {:induction false} LevelsPrefix(equity: seq<real>, j: nat, i: nat)
    requires i <= j + 1 <= |equity|
    ensures Levels(equity[..j + 1])[i] == Levels(equity)[i]
  {
  }

  // ---------- returns ----------

  function TotalReturn(equity: seq<real>): Option<real> {
    if equity == [] then None else Some(equity[|equity| - 1] - 1.0)
  }

  /** The share of rows with a position open. */
  function Exposure(position: seq<int>): Option<real> {
    if position == [] then None else Some(CountOpen(position) as real / |position| as real)
  }

  function CountOpen(position: seq<int>): nat {
    if position == [] then 0
    else CountOpen(position[..|position| - 1]) + if position[|position| - 1] != 0 then 1 else 0
  }

  /** One equity per UTC day, each row replacing the one before it when they share the day. */
  function DayEnds(ts: seq<int>, equity: seq<real>): seq<real>
    requires |ts| == |equity|
  {
    if ts == [] then []
    else
      var n := |ts| - 1;
      var before := DayEnds(ts[..n], equity[..n]);
      if n > 0 && ts[n] / DAY == ts[n - 1] / DAY then before[..|before| - 1] + [equity[n]]
      else before + [equity[n]]
  }

  /** The equity each day starts from: 1, then the end of the day before. */
  function DayStarts(ts: seq<int>, equity: seq<real>): seq<real>
    requires |ts| == |equity|
  {
    var ends := DayEnds(ts, equity);
    if ends == [] then [] else [1.0] + ends[..|ends| - 1]
  }

  /** Empty once a day starts from 0. */
  function DailyReturns(ts: seq<int>, equity: seq<real>): seq<real>
    requires |ts| == |equity|
  {
    var starts, ends := DayStarts(ts, equity), DayEnds(ts, equity);
    if 0.0 in starts then []
    else seq(|ends|, d requires 0 <= d < |ends| => ends[d] / starts[d] - 1.0)
  }

  function Growth(rs: seq<real>): real {
    if rs == [] then 1.0 else Growth(rs[..|rs| - 1]) * (1.0 + rs[|rs| - 1])
  }

  /** The number of days that end before `row`'s. */
  function DayIndex(ts: seq<int>, row: nat): nat
    requires row < |ts|
  {
    if row == 0 then 0 else DayIndex(ts, row - 1) + if ts[row] / DAY == ts[row - 1] / DAY then 0 else 1
  }

  predicate EndsDay(ts: seq<int>, row: nat)
    requires row < |ts|
  {
    row == |ts| - 1 || ts[row + 1] / DAY != ts[row] / DAY
  }

  lemma {:induction false} DayIndexPrefix(ts: seq<int>, n: nat, row: nat)
    requires row < n <= |ts|
    ensures DayIndex(ts[..n], row) == DayIndex(ts, row)
  {
    if row > 0 { DayIndexPrefix(ts, n, row - 1); }
  }

  /** One more row replaces the last entry, or adds one. */
  lemma {:induction false} DayEndsNext(ts: seq<int>, equity: seq<real>)
    requires |ts| == |equity| && 1 < |ts|
    ensures var n := |ts| - 1; var before, now := DayEnds(ts[..n], equity[..n]), DayEnds(ts, equity);
            && before != [] && now != [] && now[|now| - 1] == equity[n]
            && now[..|now| - 1] == if ts[n] / DAY == ts[n - 1] / DAY then before[..|before| - 1] else before
  {
  }

  /** One entry a day, in order: the equity of the row that ends the day. */
  lemma {:induction false} DayEndsAreLastRows(ts: seq<int>, equity: seq<real>)
    requires |ts| == |equity| && ts != []
    ensures |DayEnds(ts, equity)| == DayIndex(ts, |ts| - 1) + 1
    ensures forall r: nat | r < |ts| && EndsDay(ts, r) ::
              DayIndex(ts, r) < |DayEnds(ts, equity)| && DayEnds(ts, equity)[DayIndex(ts, r)] == equity[r]
  {
    hide DayEnds, EndsDay;
    var n := |ts| - 1;
    if n == 0 {
      DayEndsOne(ts, equity);
    } else {
      var now := DayEnds(ts, equity);
      DayEndsAreLastRows(ts[..n], equity[..n]);
      DayEndsNext(ts, equity);
      DayIndexPrefix(ts, n, n - 1);
      forall r: nat | r < n && EndsDay(ts, r) ensures DayIndex(ts, r) < |now| - 1 && now[DayIndex(ts, r)] == equity[r] {
        DayIndexPrefix(ts, n, r);
        EndsDayBefore(ts, r);
        if ts[n] / DAY == ts[n - 1] / DAY { DayEndIsNotLast(ts, r, n - 1); }
        assert now[..|now| - 1][DayIndex(ts, r)] == equity[..n][r];
      }
    }
  }

  lemma {:induction false} DayEndsOne(ts: seq<int>, equity: seq<real>)
    requires |ts| == |equity| == 1
    ensures DayEnds(ts, equity) == [equity[0]]
  {
  }

  lemma {:induction false} EndsDayBefore(ts: seq<int>, r: nat)
    requires r < |ts| - 1 && EndsDay(ts, r)
    ensures EndsDay(ts[..|ts| - 1], r)
  {
  }

  /** A day that ended is not the day of a later row. */
  lemma {:induction false} DayEndIsNotLast(ts: seq<int>, r: nat, last: nat)
    requires r <= last < |ts| - 1 && EndsDay(ts, r)
    requires ts[last + 1] / DAY == ts[last] / DAY
    ensures DayIndex(ts, r) < DayIndex(ts, last)
  {
    DayIndexGrows(ts, r + 1, last);
  }

  lemma {:induction false} DayIndexGrows(ts: seq<int>, a: nat, b: nat)
    requires a <= b < |ts|
    ensures DayIndex(ts, a) <= DayIndex(ts, b)
  {
    if a < b { DayIndexGrows(ts, a, b - 1); }
  }

  /** Returns telescope: over the first `n` days they compound to the end of day `n`. */
  lemma {:induction false} ReturnsTelescope(starts: seq<real>, ends: seq<real>, n: nat)
    requires |starts| == |ends| && n <= |ends| && 0.0 !in starts
    requires starts != [] ==> starts[0] == 1.0
    requires forall d | 0 < d < |ends| :: starts[d] == ends[d - 1]
    ensures Growth(seq(n, d requires 0 <= d < n => ends[d] / starts[d] - 1.0)) == if n == 0 then 1.0 else ends[n - 1]
  {
    if n > 0 {
      var rs := seq(n, d requires 0 <= d < n => ends[d] / starts[d] - 1.0);
      assert rs[..n - 1] == seq(n - 1, d requires 0 <= d < n - 1 => ends[d] / starts[d] - 1.0);
      ReturnsTelescope(starts, ends, n - 1);
      assert starts[n - 1] in starts;
      assert starts[n - 1] * (ends[n - 1] / starts[n - 1]) == ends[n - 1];
    }
  }

  /** The equity a day starts from, by the ends of the days. */
  function StartOf(ends: seq<real>, d: nat): real
    requires d < |ends|
  {
    if d == 0 then 1.0 else ends[d - 1]
  }

  lemma {:induction false} DayStartsAre(ts: seq<int>, equity: seq<real>)
    requires |ts| == |equity|
    ensures var starts, ends := DayStarts(ts, equity), DayEnds(ts, equity);
            |starts| == |ends| && forall d: nat | d < |ends| :: starts[d] == StartOf(ends, d)
  {
    hide DayEnds;
  }

  lemma {:induction false} StartsFromZero(ends: seq<real>, starts: seq<real>)
    requires |starts| == |ends| && forall d: nat | d < |ends| :: starts[d] == StartOf(ends, d)
    ensures 0.0 in starts <==> exists d: nat :: d + 1 < |ends| && ends[d] == 0.0
  {
    if d: nat :| d < |starts| && starts[d] == 0.0 { assert d > 0 && ends[d - 1] == 0.0; }
    if d: nat :| d + 1 < |ends| && ends[d] == 0.0 { assert starts[d + 1] == StartOf(ends, d + 1) == 0.0; }
  }

  /** One return a day, from the end of the day before, the first day's from 1; none at all once a day starts from 0. */
  lemma {:induction false} DailyReturnsAre(ts: seq<int>, equity: seq<real>)
    requires |ts| == |equity|
    ensures var ends, rs := DayEnds(ts, equity), DailyReturns(ts, equity);
            if exists d: nat :: d + 1 < |ends| && ends[d] == 0.0 then rs == []
            else
              && |rs| == |ends|
              && forall d: nat | d < |ends| :: StartOf(ends, d) != 0.0 && (1.0 + rs[d]) * StartOf(ends, d) == ends[d]
  {
    hide DayEnds, DayStarts, StartOf;
    var starts, ends, rs := DayStarts(ts, equity), DayEnds(ts, equity), DailyReturns(ts, equity);
    DayStartsAre(ts, equity);
    StartsFromZero(ends, starts);
    if 0.0 !in starts {
      forall d: nat | d < |ends| ensures StartOf(ends, d) != 0.0 && (1.0 + rs[d]) * StartOf(ends, d) == ends[d] {
        assert starts[d] in starts;
        QuotientTimes(ends[d], starts[d]);
      }
    }
  }

  lemma {:induction false} QuotientTimes(x: real, y: real)
    requires y != 0.0
    ensures (1.0 + (x / y - 1.0)) * y == x
  {
  }

  /** The daily returns compound to the last equity unless a day starts from 0. */
  lemma {:induction false} DailyReturnsCompound(ts: seq<int>, equity: seq<real>)
    requires |ts| == |equity| && ts != []
    ensures 0.0 !in DayStarts(ts, equity) ==> Growth(DailyReturns(ts, equity)) == equity[|equity| - 1]
  {
    hide DayIndex;
    var starts, ends := DayStarts(ts, equity), DayEnds(ts, equity);
    DayEndsAreLastRows(ts, equity);
    assert EndsDay(ts, |ts| - 1);
    if 0.0 !in starts {
      ReturnsTelescope(starts, ends, |ends|);
    }
  }
}
