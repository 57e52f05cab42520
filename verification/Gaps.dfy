/** Gaps: the expected bins without a candle, merged into ranges, lose and invent nothing. */
module Gaps {
  import opened Options
  import opened Arithmetic
  import opened Sessions
  import opened Bins
  import opened WalkBack

  const MAX_GAP_RANGES: nat := 100

  /** A stretch of missing bins, by their first and last place in the expected list. */
  datatype Run = Run(first: nat, last: nat)

  datatype Gaps = Gaps(ranges: seq<(int, int)>, total: nat)

  /** Missing bins next to each other in the expected list, merged; among the first `n`. */
  function Runs(expected: seq<int>, present: set<int>, n: nat): seq<Run>
    requires n <= |expected|
  {
    if n == 0 then []
    else
      var before := Runs(expected, present, n - 1);
      if expected[n - 1] in present then before
      else if before != [] && before[|before| - 1].last + 1 == n - 1 then
        before[..|before| - 1] + [Run(before[|before| - 1].first, n - 1)]
      else before + [Run(n - 1, n - 1)]
  }

  function CountMissing(expected: seq<int>, present: set<int>, n: nat): nat
    requires n <= |expected|
  {
    if n == 0 then 0
    else CountMissing(expected, present, n - 1) + if expected[n - 1] in present then 0 else 1
  }

  /** Where the bin that opens at `opens` ends. */
  function BinEnd(opens: int, step: int, sessions: Option<seq<Session>>): int
    requires 0 < step && (sessions.Some? ==> ValidCalendar(sessions.value))
  {
    var end := opens + step;
    if sessions.None? || sessions.value == [] then end
    else
      var i := BisectRight(OpenTimes(sessions.value), opens) - 1;
      if i >= 0 && opens < sessions.value[i].close then Min(end, sessions.value[i].close) else end
  }

  function FindGaps(present: set<int>, expected: seq<int>, step: int, sessions: Option<seq<Session>>): Gaps
    requires 0 < step && (sessions.Some? ==> ValidCalendar(sessions.value))
  {
    var runs := Runs(expected, present, |expected|);
    RunsRight(expected, present, |expected|);
    var shown := Head(runs);
    Gaps(seq(|shown|, i requires 0 <= i < |shown| =>
                 (expected[runs[i].first], BinEnd(expected[runs[i].last], step, sessions))),
         CountMissing(expected, present, |expected|))
  }

  function Head(runs: seq<Run>): (r: seq<Run>)
    ensures |r| <= MAX_GAP_RANGES && r <= runs && (|runs| <= MAX_GAP_RANGES ==> r == runs)
  {
    if |runs| <= MAX_GAP_RANGES then runs else runs[..MAX_GAP_RANGES]
  }

  // ---------- runs ----------

  predicate InRun(r: Run, k: nat) {
    r.first <= k <= r.last
  }

  /** Runs in order with a present bin between them, made of missing bins, and leaving none out. */
  predicate AreRuns(runs: seq<Run>, expected: seq<int>, present: set<int>, n: nat)
    requires n <= |expected|
  {
    && (forall i | 0 <= i < |runs| :: runs[i].first <= runs[i].last < n)
    && (forall i, j | 0 <= i < j < |runs| :: runs[i].last + 1 < runs[j].first)
    && (forall i, k: nat | 0 <= i < |runs| && k < n && InRun(runs[i], k) :: expected[k] !in present)
    && (forall k: nat | k < n && expected[k] !in present :: exists i :: 0 <= i < |runs| && InRun(runs[i], k))
  }

  lemma {:induction false} RunsRight(expected: seq<int>, present: set<int>, n: nat)
    requires n <= |expected|
    ensures AreRuns(Runs(expected, present, n), expected, present, n)
  {
    hide AreRuns;
    if n == 0 {
      NoRuns(expected, present);
    } else {
      var before, k := Runs(expected, present, n - 1), n - 1;
      RunsRight(expected, present, k);
      if expected[k] in present {
        SkipPresent(before, expected, present, k);
      } else if before != [] && before[|before| - 1].last + 1 == k {
        ExtendLastRun(before, expected, present, k);
      } else {
        AppendRun(before, expected, present, k);
      }
    }
  }

  lemma {:induction false} NoRuns(expected: seq<int>, present: set<int>)
    ensures AreRuns([], expected, present, 0)
  {
  }

  lemma {:induction false} SkipPresent(before: seq<Run>, expected: seq<int>, present: set<int>, k: nat)
    requires k < |expected| && AreRuns(before, expected, present, k) && expected[k] in present
    ensures AreRuns(before, expected, present, k + 1)
  {
  }

  lemma {:induction false} AppendRun(before: seq<Run>, expected: seq<int>, present: set<int>, k: nat)
    requires k < |expected| && AreRuns(before, expected, present, k) && expected[k] !in present
    requires before != [] ==> before[|before| - 1].last + 1 != k
    ensures AreRuns(before + [Run(k, k)], expected, present, k + 1)
  {
    var runs := before + [Run(k, k)];
    assert runs[|before|] == Run(k, k) && InRun(runs[|before|], k);
    forall m: nat | m < k + 1 && expected[m] !in present ensures exists i :: 0 <= i < |runs| && InRun(runs[i], m) {
      if m < k {
        var i :| 0 <= i < |before| && InRun(before[i], m);
        assert InRun(runs[i], m);
      }
    }
    forall i | 0 <= i < |before| ensures runs[i].last + 1 < k {
      if i < |before| - 1 { assert before[i].last + 1 < before[|before| - 1].first; }
    }
    forall i, m: nat | 0 <= i < |runs| && m < k + 1 && InRun(runs[i], m) ensures expected[m] !in present {
      if i < |before| { assert InRun(before[i], m); }
    }
  }

  lemma {:induction false} ExtendLastRun(before: seq<Run>, expected: seq<int>, present: set<int>, k: nat)
    requires k < |expected| && AreRuns(before, expected, present, k) && expected[k] !in present
    requires before != [] && before[|before| - 1].last + 1 == k
    ensures AreRuns(before[..|before| - 1] + [Run(before[|before| - 1].first, k)], expected, present, k + 1)
  {
    var last := |before| - 1;
    var runs := before[..last] + [Run(before[last].first, k)];
    assert InRun(runs[last], k);
    forall m: nat | m < k + 1 && expected[m] !in present ensures exists i :: 0 <= i < |runs| && InRun(runs[i], m) {
      if m < k {
        var i :| 0 <= i < |before| && InRun(before[i], m);
        assert InRun(runs[i], m);
      }
    }
    forall i, m: nat | 0 <= i < |runs| && m < k + 1 && InRun(runs[i], m) ensures expected[m] !in present {
      if m < k { assert InRun(before[i], m); }
    }
  }

  // ---------- expected lists ----------

  /** Each bin is open for a while and ends no later than the next one opens. */
  predicate EndsInOrder(expected: seq<int>, step: int, sessions: Option<seq<Session>>)
    requires 0 < step && (sessions.Some? ==> ValidCalendar(sessions.value))
  {
    && Increasing(expected)
    && (forall k | 0 <= k < |expected| :: expected[k] < BinEnd(expected[k], step, sessions))
    && (forall k | 0 <= k < |expected| - 1 :: BinEnd(expected[k], step, sessions) <= expected[k + 1])
  }

  lemma {:induction false} BinEndIsClose(b: Bin, step: int, sessions: seq<Session>)
    requires 0 < step && ValidCalendar(sessions) && b in AllBins(sessions, step)
    ensures BinEnd(b.opens, step, Some(sessions)) == b.closes
  {
    hide SessionBins, AllBins, Bisect, BisectRight, OpenTimes;
    InAllBins(sessions, step, b);
    var i :| 0 <= i < |sessions| && b in SessionBins(sessions[i], step);
    BinOfSession(sessions[i], step, b);
    SessionOf(sessions, b.opens, i);
  }

  /** The expected bins of a period end in order, for both kinds of bins. */
  lemma {:induction false} ExpectedEndInOrder(start: int, end: int, step: int, sessions: Option<seq<Session>>, now: Option<int>)
    requires 0 < step && (sessions.Some? ==> ValidCalendar(sessions.value))
    ensures EndsInOrder(Expected(start, end, step, sessions, now), step, sessions)
  {
    var expected := Expected(start, end, step, sessions, now);
    ExpectedIncreasing(start, end, step, sessions, now);
    if sessions.None? {
      var until := if now.Some? then Min(end, now.value - step + 1) else end;
      forall k | 0 <= k < |expected| - 1 ensures expected[k] + step <= expected[k + 1] {
        RangeAt(CeilDiv(start, step) * step, until, step, k);
        RangeAt(CeilDiv(start, step) * step, until, step, k + 1);
        PointNext(CeilDiv(start, step) * step, step, k);
      }
    } else {
      ExpectedSessionsAreSelected(start, end, step, sessions.value, now);
      AllBinsTile(sessions.value, step);
      var w := Window(Some(start), end, now);
      var bins := Select(AllBins(sessions.value, step), w);
      SelectTiled(AllBins(sessions.value, step), w);
      SelectedEndInOrder(bins, expected, step, sessions.value, w);
    }
  }

  lemma {:induction false} SelectedEndInOrder(bins: seq<Bin>, expected: seq<int>, step: int, sessions: seq<Session>, w: Window)
    requires 0 < step && ValidCalendar(sessions) && Tiled(bins)
    requires bins == Select(AllBins(sessions, step), w) && expected == Opens(bins)
    ensures EndsInOrder(expected, step, Some(sessions))
  {
    hide Select, AllBins, BinEnd;
    forall k | 0 <= k < |bins| ensures BinEnd(expected[k], step, Some(sessions)) == bins[k].closes {
      assert bins[k] in bins;
      BinEndIsClose(bins[k], step, sessions);
    }
  }

  // ---------- what the ranges say ----------

  predicate Contains(range: (int, int), x: int) {
    range.0 <= x < range.1
  }

  predicate Covered(gaps: Gaps, x: int) {
    exists i :: 0 <= i < |gaps.ranges| && Contains(gaps.ranges[i], x)
  }

  lemma {:induction false} RangeIsRun(expected: seq<int>, step: int, sessions: Option<seq<Session>>, r: Run, k: nat)
    requires 0 < step && (sessions.Some? ==> ValidCalendar(sessions.value)) && EndsInOrder(expected, step, sessions)
    requires r.first <= r.last < |expected| && k < |expected|
    ensures expected[r.first] <= expected[k] < BinEnd(expected[r.last], step, sessions) <==> InRun(r, k)
  {
    hide BinEnd;
    if k < r.first { assert expected[k] < expected[r.first]; }
    if r.first < k { assert expected[r.first] < expected[k]; }
    if r.last < k {
      assert BinEnd(expected[r.last], step, sessions) <= expected[r.last + 1];
      assert r.last + 1 < k ==> expected[r.last + 1] < expected[k];
    }
    if k < r.last { assert expected[k] < expected[r.last]; }
  }

  /**
   Gap ranges are lossless: with at most a hundred runs an expected bin is missing if and only if a
   range covers it. With more, the covered ones are those of the first hundred runs, and a missing
   bin left out opens after all of them end.
   */
  lemma {:induction false} GapsAreLossless(present: set<int>, expected: seq<int>, step: int, sessions: Option<seq<Session>>, k: nat)
    requires 0 < step && (sessions.Some? ==> ValidCalendar(sessions.value)) && EndsInOrder(expected, step, sessions)
    requires k < |expected|
    ensures var gaps := FindGaps(present, expected, step, sessions);
            && (Covered(gaps, expected[k]) ==> expected[k] !in present)
            && (expected[k] !in present && !Covered(gaps, expected[k]) ==>
                  && |gaps.ranges| == 100 < |Runs(expected, present, |expected|)|
                  && (forall i | 0 <= i < |gaps.ranges| :: gaps.ranges[i].1 <= expected[k]))
  {
    hide *;
    var gaps, runs := FindGaps(present, expected, step, sessions), Runs(expected, present, |expected|);
    RangesAre(present, expected, step, sessions);
    RunsHold(runs, expected, present);
    forall i | 0 <= i < |gaps.ranges| ensures Contains(gaps.ranges[i], expected[k]) <==> InRun(runs[i], k) {
      RangeIsRun(expected, step, sessions, runs[i], k);
      ContainsIs(gaps.ranges[i], expected[k]);
    }
    CoveredIs(gaps, expected[k]);
    MissingInRun(runs, expected, present, k);
    if i :| 0 <= i < |runs| && InRun(runs[i], k) {
      forall j | 0 <= j < |gaps.ranges| && j < i ensures gaps.ranges[j].1 <= expected[k] {
        RunsBefore(runs, expected, present, j, i, k);
        BeforeBin(expected, step, sessions, runs[j].last, k);
      }
    }
  }

  /** The ranges shown, by their runs. */
  lemma {:induction false} RangesAre(present: set<int>, expected: seq<int>, step: int, sessions: Option<seq<Session>>)
    requires 0 < step && (sessions.Some? ==> ValidCalendar(sessions.value))
    ensures var ranges, runs := FindGaps(present, expected, step, sessions).ranges, Runs(expected, present, |expected|);
            && AreRuns(runs, expected, present, |expected|)
            && |ranges| <= 100 && |ranges| <= |runs| && (|ranges| < |runs| ==> |ranges| == 100)
            && (forall i | 0 <= i < |ranges| ::
                  && runs[i].first <= runs[i].last < |expected|
                  && ranges[i] == (expected[runs[i].first], BinEnd(expected[runs[i].last], step, sessions)))
  {
    hide BinEnd, Runs;
    RunsRight(expected, present, |expected|);
  }

  lemma {:induction false} RunsHold(runs: seq<Run>, expected: seq<int>, present: set<int>)
    requires AreRuns(runs, expected, present, |expected|)
    ensures forall i, k: nat | 0 <= i < |runs| && k < |expected| && InRun(runs[i], k) :: expected[k] !in present
  {
  }

  lemma {:induction false} MissingInRun(runs: seq<Run>, expected: seq<int>, present: set<int>, k: nat)
    requires AreRuns(runs, expected, present, |expected|) && k < |expected|
    ensures expected[k] !in present ==> exists i :: 0 <= i < |runs| && InRun(runs[i], k)
  {
  }

  lemma {:induction false} ContainsIs(range: (int, int), x: int)
    ensures Contains(range, x) <==> range.0 <= x < range.1
  {
  }

  lemma {:induction false} CoveredIs(gaps: Gaps, x: int)
    ensures Covered(gaps, x) <==> exists i :: 0 <= i < |gaps.ranges| && Contains(gaps.ranges[i], x)
  {
  }

  lemma {:induction false} RunsBefore(runs: seq<Run>, expected: seq<int>, present: set<int>, j: nat, i: nat, k: nat)
    requires AreRuns(runs, expected, present, |expected|) && j < |runs| && i < |runs| && InRun(runs[i], k) && j < i
    ensures runs[j].last < k
  {
  }

  lemma {:induction false} BeforeBin(expected: seq<int>, step: int, sessions: Option<seq<Session>>, last: nat, k: nat)
    requires 0 < step && (sessions.Some? ==> ValidCalendar(sessions.value)) && EndsInOrder(expected, step, sessions)
    requires last < k < |expected|
    ensures BinEnd(expected[last], step, sessions) <= expected[last + 1] <= expected[k]
  {
    assert last + 1 < k ==> expected[last + 1] < expected[k];
  }

  /** Ranges are sorted and disjoint, and maximal: a present expected bin lies between any two. */
  lemma {:induction false} GapsAreMaximal(present: set<int>, expected: seq<int>, step: int, sessions: Option<seq<Session>>, i: nat)
    requires 0 < step && (sessions.Some? ==> ValidCalendar(sessions.value)) && EndsInOrder(expected, step, sessions)
    ensures var ranges := FindGaps(present, expected, step, sessions).ranges;
            && (i < |ranges| ==> ranges[i].0 < ranges[i].1)
            && (i + 1 < |ranges| ==>
                  exists x :: x in expected && x in present && ranges[i].1 <= x < ranges[i + 1].0)
  {
    hide *;
    var ranges, runs := FindGaps(present, expected, step, sessions).ranges, Runs(expected, present, |expected|);
    RangesAre(present, expected, step, sessions);
    if i < |ranges| {
      RangeIsRun(expected, step, sessions, runs[i], runs[i].first);
      InRunIs(runs[i], runs[i].first);
    }
    if i + 1 < |ranges| {
      var k := runs[i].last + 1;
      RunsApart(runs, expected, present, i);
      BeforeBin(expected, step, sessions, runs[i].last, k);
      Ascends(expected, step, sessions, k, runs[i + 1].first);
      BetweenRuns(runs, expected, present, i, k);
      assert expected[k] in expected;
    }
  }

  lemma {:induction false} InRunIs(r: Run, k: nat)
    ensures InRun(r, k) <==> r.first <= k <= r.last
  {
  }

  lemma {:induction false} RunsApart(runs: seq<Run>, expected: seq<int>, present: set<int>, i: nat)
    requires AreRuns(runs, expected, present, |expected|) && i + 1 < |runs|
    ensures runs[i].last + 1 < runs[i + 1].first < |expected|
  {
  }

  lemma {:induction false} Ascends(expected: seq<int>, step: int, sessions: Option<seq<Session>>, a: nat, b: nat)
    requires 0 < step && (sessions.Some? ==> ValidCalendar(sessions.value)) && EndsInOrder(expected, step, sessions)
    requires a < b < |expected|
    ensures expected[a] < expected[b]
  {
    hide BinEnd;
  }

  lemma {:induction false} BetweenRuns(runs: seq<Run>, expected: seq<int>, present: set<int>, i: nat, k: nat)
    requires AreRuns(runs, expected, present, |expected|) && i + 1 < |runs|
    requires runs[i].last < k < runs[i + 1].first
    ensures expected[k] in present
  {
    forall j | 0 <= j < |runs| ensures !InRun(runs[j], k) {
    }
  }

  /** Every expected bin is either present or counted as missing, once. */
  lemma {:induction false} PresentPlusMissing(expected: seq<int>, present: set<int>, n: nat)
    requires Increasing(expected) && n <= |expected|
    ensures |set x | x in expected[..n] && x in present| + CountMissing(expected, present, n) == n
  {
    if n > 0 {
      PresentPlusMissing(expected, present, n - 1);
      PresentStep(expected, present, n);
    } else {
      assert (set x | x in expected[..0] && x in present) == {};
    }
  }

  lemma {:induction false} PresentStep(expected: seq<int>, present: set<int>, n: nat)
    requires Increasing(expected) && 0 < n <= |expected|
    ensures var x := expected[n - 1];
            |set y | y in expected[..n] && y in present| ==
            |set y | y in expected[..n - 1] && y in present| + if x in present then 1 else 0
  {
    var x := expected[n - 1];
    var a, b := (set y | y in expected[..n - 1] && y in present), (set y | y in expected[..n] && y in present);
    assert expected[..n] == expected[..n - 1] + [x];
    assert x !in expected[..n - 1];
    if x in present {
      assert b == a + {x};
    } else {
      assert b == a;
    }
  }

  // ---------- the time that the ranges cover ----------

  /** A bin of the kind in question that opens at `opens` closes at `closes`: a step later, or where the calendar has it. */
  predicate IsBin(opens: int, closes: int, step: int, sessions: Option<seq<Session>>)
    requires 0 < step
  {
    if sessions.None? then closes == opens + step else Bin(opens, closes) in AllBins(sessions.value, step)
  }

  /** Every expected bin is one of that kind. */
  predicate AreBins(expected: seq<int>, step: int, sessions: Option<seq<Session>>)
    requires 0 < step && (sessions.Some? ==> ValidCalendar(sessions.value))
  {
    forall k | 0 <= k < |expected| :: IsBin(expected[k], BinEnd(expected[k], step, sessions), step, sessions)
  }

  /** The expected bins from place `a` to place `b` are missing. */
  predicate MissingFrom(expected: seq<int>, present: set<int>, a: nat, b: nat) {
    a <= b < |expected| && forall k | a <= k <= b :: expected[k] !in present
  }

  /** A whole stretch of missing bins, the ones before and after it present. */
  predicate Stretch(expected: seq<int>, present: set<int>, a: nat, b: nat) {
    && MissingFrom(expected, present, a, b)
    && (a == 0 || expected[a - 1] in present) && (b == |expected| - 1 || expected[b + 1] in present)
  }

  lemma {:induction false} ExpectedAreBins(start: int, end: int, step: int, sessions: Option<seq<Session>>, now: Option<int>)
    requires 0 < step && (sessions.Some? ==> ValidCalendar(sessions.value))
    ensures AreBins(Expected(start, end, step, sessions, now), step, sessions)
  {
    hide BinEnd, AllBins, Select, ExpectedSessions;
    var expected := Expected(start, end, step, sessions, now);
    forall k | 0 <= k < |expected| ensures IsBin(expected[k], BinEnd(expected[k], step, sessions), step, sessions) {
      if sessions.None? {
        FixedEnd(expected[k], step);
      } else {
        ExpectedSessionsAreSelected(start, end, step, sessions.value, now);
        var bins := Select(AllBins(sessions.value, step), Window(Some(start), end, now));
        assert bins[k] in bins;
        BinEndIsClose(bins[k], step, sessions.value);
      }
    }
  }

  lemma {:induction false} FixedEnd(opens: int, step: int)
    requires 0 < step
    ensures BinEnd(opens, step, None) == opens + step
  {
  }

  lemma {:induction false} RunIsStretch(runs: seq<Run>, expected: seq<int>, present: set<int>, i: nat)
    requires AreRuns(runs, expected, present, |expected|) && i < |runs|
    ensures Stretch(expected, present, runs[i].first, runs[i].last)
  {
    var a, b := runs[i].first, runs[i].last;
    forall k | a <= k <= b ensures expected[k] !in present {
      assert InRun(runs[i], k);
    }
    NotInRuns(runs, expected, present, i);
  }

  /** What lies next to a run is in none. */
  lemma {:induction false} NotInRuns(runs: seq<Run>, expected: seq<int>, present: set<int>, i: nat)
    requires AreRuns(runs, expected, present, |expected|) && i < |runs|
    ensures runs[i].first > 0 ==> expected[runs[i].first - 1] in present
    ensures runs[i].last < |expected| - 1 ==> expected[runs[i].last + 1] in present
  {
    forall j | 0 <= j < |runs|
      ensures runs[i].first > 0 ==> !InRun(runs[j], runs[i].first - 1)
      ensures !InRun(runs[j], runs[i].last + 1)
    {
    }
  }

  /**
   Each range shown is the time of one whole stretch of missing bins: from the open of its first bin to the
   close of its last, so through every bin of the stretch and what lies between them.
   */
  lemma {:induction false} RangesAreMissingTime(present: set<int>, expected: seq<int>, step: int, sessions: Option<seq<Session>>, i: nat)
    returns (a: nat, b: nat)
    requires 0 < step && (sessions.Some? ==> ValidCalendar(sessions.value))
    requires EndsInOrder(expected, step, sessions) && AreBins(expected, step, sessions)
    requires i < |FindGaps(present, expected, step, sessions).ranges|
    ensures Stretch(expected, present, a, b)
    ensures var range := FindGaps(present, expected, step, sessions).ranges[i];
            range.0 == expected[a] && IsBin(expected[b], range.1, step, sessions)
  {
    hide BinEnd, Runs, EndsInOrder, AreRuns, Stretch, IsBin, FindGaps;
    var runs := Runs(expected, present, |expected|);
    RangesAre(present, expected, step, sessions);
    RunIsStretch(runs, expected, present, i);
    a, b := runs[i].first, runs[i].last;
  }

  /**
   A moment lies in a range shown if and only if it lies from the open of a missing bin of the range to the
   close of one, all expected bins between the two missing: in a missing bin or between two of them.
   */
  lemma {:induction false} RangeHoldsMoment(present: set<int>, expected: seq<int>, step: int, sessions: Option<seq<Session>>, i: nat, x: int)
    requires 0 < step && (sessions.Some? ==> ValidCalendar(sessions.value))
    requires EndsInOrder(expected, step, sessions) && AreBins(expected, step, sessions)
    requires i < |FindGaps(present, expected, step, sessions).ranges|
    ensures var range := FindGaps(present, expected, step, sessions).ranges[i];
            Contains(range, x) <==>
            exists p: nat, q: nat, closes: int ::
              && MissingFrom(expected, present, p, q) && Contains(range, expected[p])
              && IsBin(expected[q], closes, step, sessions) && expected[p] <= x < closes
  {
    hide FindGaps, IsBin, EndsInOrder, AreBins, BinEnd;
    var range := FindGaps(present, expected, step, sessions).ranges[i];
    var a, b := RangesAreMissingTime(present, expected, step, sessions, i);
    Opening(expected, step, sessions, a, b, range.1);
    if Contains(range, x) {
      assert MissingFrom(expected, present, a, b) && Contains(range, expected[a]);
    }
    if p: nat, q: nat, closes: int :|
      && MissingFrom(expected, present, p, q) && Contains(range, expected[p])
      && IsBin(expected[q], closes, step, sessions) && expected[p] <= x < closes
    {
      InStretch(present, expected, step, sessions, a, b, p, q, range.1, closes);
    }
  }

  /** The first bin of a stretch opens before the last one closes. */
  lemma {:induction false} Opening(expected: seq<int>, step: int, sessions: Option<seq<Session>>, a: nat, b: nat, end: int)
    requires 0 < step && (sessions.Some? ==> ValidCalendar(sessions.value)) && EndsInOrder(expected, step, sessions)
    requires a <= b < |expected| && IsBin(expected[b], end, step, sessions)
    ensures expected[a] <= expected[b] < end
  {
    hide BinEnd;
    OneClose(expected[b], end, step, sessions);
    assert a < b ==> expected[a] < expected[b];
  }

  /** Where a bin closes is told by where it opens. */
  lemma {:induction false} OneClose(opens: int, closes: int, step: int, sessions: Option<seq<Session>>)
    requires 0 < step && (sessions.Some? ==> ValidCalendar(sessions.value)) && IsBin(opens, closes, step, sessions)
    ensures closes == BinEnd(opens, step, sessions)
  {
    hide BinEnd, AllBins;
    if sessions.None? { FixedEnd(opens, step); } else { BinEndIsClose(Bin(opens, closes), step, sessions.value); }
  }

  lemma {:induction false} InStretch(present: set<int>, expected: seq<int>, step: int, sessions: Option<seq<Session>>,
                                     a: nat, b: nat, p: nat, q: nat, end: int, closes: int)
    requires 0 < step && (sessions.Some? ==> ValidCalendar(sessions.value)) && EndsInOrder(expected, step, sessions)
    requires Stretch(expected, present, a, b) && MissingFrom(expected, present, p, q)
    requires IsBin(expected[b], end, step, sessions) && expected[a] <= expected[p] < end
    requires IsBin(expected[q], closes, step, sessions)
    ensures a <= p <= q <= b && closes <= end
  {
    hide BinEnd, IsBin;
    OneClose(expected[b], end, step, sessions);
    OneClose(expected[q], closes, step, sessions);
    assert forall m, n | 0 <= m < n < |expected| :: expected[m] < expected[n];
    assert forall k | p <= k <= q :: expected[k] !in present;
    if b < p { BeforeBin(expected, step, sessions, b, p); }
    if q < b { BeforeBin(expected, step, sessions, q, b); }
  }

  /** For consecutive bins of the UTC grid a range is as long as its missing bins are together. */
  lemma {:induction false} FixedRangeLength(present: set<int>, start: int, end: int, step: int, now: Option<int>, i: nat)
    returns (a: nat, b: nat)
    requires 0 < step && i < |FindGaps(present, ExpectedFixed(start, end, step, now), step, None).ranges|
    ensures var expected := ExpectedFixed(start, end, step, now); var range := FindGaps(present, expected, step, None).ranges[i];
            && Stretch(expected, present, a, b) && range.0 == expected[a]
            && range.1 - range.0 == (b - a + 1) * step
  {
    hide FindGaps, Stretch, BinEnd, Range, CeilDiv, EndsInOrder, AreBins;
    var expected := ExpectedFixed(start, end, step, now);
    ExpectedEndInOrder(start, end, step, None, now);
    ExpectedAreBins(start, end, step, None, now);
    a, b := RangesAreMissingTime(present, expected, step, None, i);
    FixedPlaces(start, end, step, now, a);
    FixedPlaces(start, end, step, now, b);
    InStretchBounds(expected, present, a, b);
    assert (b - a + 1) * step == b * step - a * step + step;
  }

  lemma {:induction false} InStretchBounds(expected: seq<int>, present: set<int>, a: nat, b: nat)
    requires Stretch(expected, present, a, b)
    ensures a <= b < |expected|
  {
  }

  lemma {:induction false} FixedPlaces(start: int, end: int, step: int, now: Option<int>, k: nat)
    requires 0 < step
    ensures var expected := ExpectedFixed(start, end, step, now);
            k < |expected| ==> expected[k] == CeilDiv(start, step) * step + k * step
  {
    hide Range, CeilDiv;
    var until := if now.Some? then Min(end, now.value - step + 1) else end;
    if k < |ExpectedFixed(start, end, step, now)| { RangeAt(CeilDiv(start, step) * step, until, step, k); }
  }
}
