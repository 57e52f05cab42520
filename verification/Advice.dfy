/** What to change when a period has too many candles: the latest end and the timeframe that fit. */
module Advice {
  import opened Options
  import opened Arithmetic
  import opened Sessions
  import opened Bins

  /** What `LatestEnd` computes, off the list of expected bins: where the first bin too many opens, or `end`. */
  function LatestEndOf(start: int, end: int, step: int, maximum: nat, sessions: Option<seq<Session>>): int
    requires 0 < step
  {
    var bins := Expected(start, end, step, sessions, None);
    if maximum < |bins| then bins[maximum] else end
  }

  method LatestEnd(start: int, end: int, step: int, maximum: nat, sessions: Option<seq<Session>>) returns (r: int)
    requires 0 < step && start < end && (sessions.Some? ==> ValidCalendar(sessions.value))
    ensures r == LatestEndOf(start, end, step, maximum, sessions)
  {
    if sessions.None? {
      LatestFixed(start, end, step, maximum);
      return Min(end, Point(0, step, CeilDiv(start, step) + maximum));
    }
    r := LatestInSessions(start, end, step, maximum, sessions.value);
  }

  method LatestInSessions(start: int, end: int, step: int, maximum: nat, sessions: seq<Session>) returns (r: int)
    requires 0 < step && start < end && ValidCalendar(sessions)
    ensures r == LatestEndOf(start, end, step, maximum, Some(sessions))
  {
    hide *;
    var remaining: int := maximum;
    var between := SessionsBetween(sessions, start, end);
    ghost var w := Window(Some(start), end, None);
    ghost var all := Select(AllBins(between, step), w);
    ghost var done: seq<Bin> := [];
    assert between[0..] == between;
    for i := 0 to |between|
      invariant all == done + Select(AllBins(between[i..], step), w)
      invariant remaining == maximum - |done| >= 0
    {
      var session := between[i];
      ghost var own, rest := Select(SessionBins(session, step), w), Select(AllBins(between[i + 1..], step), w);
      SelectFirstSession(between, i, step, w);
      SessionCountIsEnumeration(session, step, start, end);
      var count := SessionCount(session, step, start, end);
      if remaining < count {
        var first := Max(0, CeilDiv(start - session.open, step));
        SessionBinOpen(session, step, start, end, remaining);
        InMiddle(done, own, rest, remaining);
        LatestAmong(start, end, step, maximum, sessions, all);
        return Point(session.open, step, first + remaining);
      }
      remaining := remaining - count;
      assert all == done + own + rest;
      done := done + own;
    }
    NoBinsLeft(between, step, w);
    LatestAmong(start, end, step, maximum, sessions, all);
    return end;
  }

  lemma {:induction false} InMiddle(done: seq<Bin>, own: seq<Bin>, rest: seq<Bin>, j: nat)
    requires j < |own|
    ensures |done| + j < |done + (own + rest)| && (done + (own + rest))[|done| + j] == own[j]
  {
  }

  lemma {:induction false} NoBinsLeft(between: seq<Session>, step: int, w: Window)
    requires 0 < step
    ensures Select(AllBins(between[|between|..], step), w) == []
  {
  }

  lemma {:induction false} LatestAmong(start: int, end: int, step: int, maximum: nat, sessions: seq<Session>, bins: seq<Bin>)
    requires 0 < step && bins == Select(AllBins(Overlapping(sessions, start, end), step), Window(Some(start), end, None))
    ensures LatestEndOf(start, end, step, maximum, Some(sessions)) == if maximum < |bins| then bins[maximum].opens else end
  {
  }

  lemma {:induction false} SelectFirstSession(sessions: seq<Session>, i: nat, step: int, w: Window)
    requires 0 < step && i < |sessions|
    ensures Select(AllBins(sessions[i..], step), w) ==
            Select(SessionBins(sessions[i], step), w) + Select(AllBins(sessions[i + 1..], step), w)
  {
    assert sessions[i..][1..] == sessions[i + 1..];
    SelectAppend(SessionBins(sessions[i], step), AllBins(sessions[i + 1..], step), w);
  }

  lemma {:induction false} SessionBinOpen(session: Session, step: int, start: int, end: int, j: nat)
    requires 0 < step && j < |Select(SessionBins(session, step), Window(Some(start), end, None))|
    ensures Select(SessionBins(session, step), Window(Some(start), end, None))[j].opens ==
            Point(session.open, step, Max(0, CeilDiv(start - session.open, step)) + j)
  {
    hide SessionBins, Select, Range, Within, Point, CeilDiv;
    SessionBinsTile(session, step);
    SelectOpens(SessionBins(session, step), start, end);
    WithinRangeAt(session.open, session.close, step, start, end, j);
  }

  lemma {:induction false} LatestFixed(start: int, end: int, step: int, maximum: nat)
    requires 0 < step
    ensures Min(end, Point(0, step, CeilDiv(start, step) + maximum)) == LatestEndOf(start, end, step, maximum, None)
  {
    var from := CeilDiv(start, step) * step;
    var bins := Range(from, end, step);
    assert (CeilDiv(start, step) + maximum) * step == from + maximum * step;
    RangeLength(from, end, step);
    if maximum < |bins| {
      RangeAt(from, end, step, maximum);
    } else {
      CeilBounds(end - from, step);
      Scale(CeilDiv(end - from, step), maximum, step);
    }
  }

  /**
   The latest end is exact: an end up to the period's fits the maximum if and only if it is not
   later, and one second later there is one bin too many, unless the period's own end capped it.
   */
  lemma {:induction false} LatestEndIsLargest(start: int, end: int, step: int, maximum: nat, sessions: Option<seq<Session>>, e: int)
    requires 0 < step && e <= end && (sessions.Some? ==> ValidCalendar(sessions.value))
    ensures var latest := LatestEndOf(start, end, step, maximum, sessions);
            && latest <= end
            && (CandleCount(start, e, step, sessions) <= maximum <==> e <= latest)
            && (e == latest + 1 ==> CandleCount(start, e, step, sessions) == maximum + 1)
  {
    var bins := Expected(start, end, step, sessions, None);
    CandleCountIsEnumeration(start, e, step, sessions);
    ExpectedWithin(start, e, end, step, sessions);
    ExpectedWithin(start, end, end, step, sessions);
    ExpectedIncreasing(start, end, step, sessions, None);
    forall i | 0 <= i < |bins| ensures start <= bins[i] < end {
      assert bins[i] in Within(bins, start, end);
    }
    if maximum < |bins| {
      CountBelow(bins, start, e, maximum);
    } else {
      WithinNoLonger(bins, start, e);
    }
  }

  lemma {:induction false} WithinNoLonger(s: seq<int>, lo: int, hi: int)
    ensures |Within(s, lo, hi)| <= |s|
  {
    if s != [] { WithinNoLonger(s[1..], lo, hi); }
  }

  // ---------- the timeframe ----------

  const MINUTE: int := 60
  const HOUR: int := 60 * MINUTE

  /** What the names of the timeframes say. */
  lemma {:induction false} SecondsByName()
    ensures M1.Seconds() == MINUTE && M5.Seconds() == 5 * MINUTE && M15.Seconds() == 15 * MINUTE && M30.Seconds() == 30 * MINUTE
    ensures H1.Seconds() == HOUR && H4.Seconds() == 4 * HOUR && D1.Seconds() == DAY == 24 * HOUR
  {
  }

  lemma {:induction false} LargerIsSorted(t: Timeframe)
    ensures forall i, j | 0 <= i < j < |t.Larger()| :: t.Larger()[i].Seconds() < t.Larger()[j].Seconds()
  {
  }

  lemma {:induction false} LargerHas(t: Timeframe, f: Timeframe)
    ensures f in t.Larger() <==> t.Seconds() < f.Seconds()
  {
  }

  /** The larger timeframes are those with more seconds, each once and the shortest first. */
  lemma {:induction false} LargerHasMoreSeconds(t: Timeframe)
    ensures forall f: Timeframe :: f in t.Larger() <==> t.Seconds() < f.Seconds()
    ensures forall i, j | 0 <= i < j < |t.Larger()| :: t.Larger()[i].Seconds() < t.Larger()[j].Seconds()
  {
    hide *;
    LargerIsSorted(t);
    forall f: Timeframe ensures f in t.Larger() <==> t.Seconds() < f.Seconds() {
      LargerHas(t, f);
    }
  }

  /** Each timeframe's seconds divide those of every longer one. */
  lemma {:induction false} LongerIsMultiple(t: Timeframe, longer: Timeframe)
    requires t.Seconds() < longer.Seconds()
    ensures longer.Seconds() % t.Seconds() == 0
  {
  }

  lemma {:induction false} GridOfMultiple(x: int, from: int, step: int, longer: int)
    requires 0 < step && 0 < longer && longer % step == 0 && (x - from) % longer == 0
    ensures (x - from) % step == 0
  {
    var k, m := (x - from) / longer, longer / step;
    DivBounds(x - from, longer);
    DivBounds(longer, step);
    assert x - from == k * longer && longer == m * step;
    assert x - from == (k * m) * step;
    GridPoint(k * m, step);
  }

  lemma {:induction false} InBinsOfSession(session: Session, step: int, x: int)
    requires 0 < step
    ensures x in Opens(SessionBins(session, step)) <==> session.open <= x < session.close && (x - session.open) % step == 0
  {
    SessionBinsTile(session, step);
    RangeHolds(session.open, session.close, step, x);
  }

  lemma {:induction false} LongerBinsAreBins(sessions: seq<Session>, step: int, longer: int, x: int)
    requires 0 < step && 0 < longer && longer % step == 0
    requires x in Opens(AllBins(sessions, longer))
    ensures x in Opens(AllBins(sessions, step))
  {
    if sessions != [] {
      var first, rest := SessionBins(sessions[0], longer), AllBins(sessions[1..], longer);
      var bins: seq<Bin> := first + rest;
      var i :| 0 <= i < |bins| && bins[i].opens == x;
      if i < |first| {
        assert Opens(first)[i] == x;
        InBinsOfSession(sessions[0], longer, x);
        GridOfMultiple(x, sessions[0].open, step, longer);
        InBinsOfSession(sessions[0], step, x);
        var j :| 0 <= j < |Opens(SessionBins(sessions[0], step))| && Opens(SessionBins(sessions[0], step))[j] == x;
        assert Opens(AllBins(sessions, step))[j] == x;
      } else {
        assert Opens(rest)[i - |first|] == x;
        LongerBinsAreBins(sessions[1..], step, longer, x);
        var j :| 0 <= j < |Opens(AllBins(sessions[1..], step))| && Opens(AllBins(sessions[1..], step))[j] == x;
        assert Opens(AllBins(sessions, step))[|SessionBins(sessions[0], step)| + j] == x;
      }
    }
  }

  /** A period has no more candles of a longer timeframe. */
  lemma {:induction false} LongerTimeframeHasFewer(start: int, end: int, t: Timeframe, longer: Timeframe, sessions: Option<seq<Session>>)
    requires t.Seconds() < longer.Seconds() && (sessions.Some? ==> ValidCalendar(sessions.value))
    ensures CandleCount(start, end, longer.Seconds(), sessions) <= CandleCount(start, end, t.Seconds(), sessions)
  {
    var step, long := t.Seconds(), longer.Seconds();
    LongerIsMultiple(t, longer);
    CandleCountIsEnumeration(start, end, step, sessions);
    CandleCountIsEnumeration(start, end, long, sessions);
    var a, b := Expected(start, end, long, sessions, None), Expected(start, end, step, sessions, None);
    ExpectedIncreasing(start, end, long, sessions, None);
    forall x | x in a ensures x in b {
      if sessions.None? {
        FixedBinsAreTheGrid(start, end, long, None, x);
        GridOfMultiple(x, 0, step, long);
        FixedBinsAreTheGrid(start, end, step, None, x);
      } else {
        SessionPeriodHolds(start, end, long, sessions.value, x);
        LongerBinsAreBins(sessions.value, step, long, x);
        SessionPeriodHolds(start, end, step, sessions.value, x);
      }
    }
    SublistIsShorter(a, b);
  }

  lemma {:induction false} SessionPeriodHolds(start: int, end: int, step: int, sessions: seq<Session>, x: int)
    requires 0 < step && ValidCalendar(sessions)
    ensures x in ExpectedSessions(start, end, step, sessions, None) <==> x in Opens(AllBins(sessions, step)) && start <= x < end
  {
    ExpectedSessionsAreSelected(start, end, step, sessions, None);
    SelectOpens(AllBins(sessions, step), start, end);
  }

  /** `fitting`, and whether larger ones exist, or `None`; the latest end; or the period fits. */
  datatype Suggestion = Suggestion(fitting: Option<Timeframe>, orLarger: bool, latest: int) | PeriodFits

  function FirstFitting(start: int, end: int, frames: seq<Timeframe>, maximum: nat, sessions: Option<seq<Session>>): Option<Timeframe> {
    if frames == [] then None
    else if CandleCount(start, end, frames[0].Seconds(), sessions) <= maximum then Some(frames[0])
    else FirstFitting(start, end, frames[1..], maximum, sessions)
  }

  predicate Fits(start: int, end: int, t: Timeframe, maximum: nat, sessions: Option<seq<Session>>) {
    CandleCount(start, end, t.Seconds(), sessions) <= maximum
  }

  /**
   Refuses a period that fits. Otherwise the latest end for the timeframe asked for, and the shortest longer
   timeframe that fits, if one does: the longer ones that fit are then exactly those from it on.
   */
  method Suggest(start: int, end: int, t: Timeframe, maximum: nat, sessions: Option<seq<Session>>) returns (r: Suggestion)
    requires sessions.Some? ==> ValidCalendar(sessions.value)
    ensures r.PeriodFits? <==> Fits(start, end, t, maximum, sessions)
    ensures r.Suggestion? ==> r.latest == LatestEndOf(start, end, t.Seconds(), maximum, sessions)
    ensures r.Suggestion? && r.fitting.Some? ==>
              && t.Seconds() < r.fitting.value.Seconds()
              && (forall longer: Timeframe | t.Seconds() < longer.Seconds() ::
                    Fits(start, end, longer, maximum, sessions) <==> r.fitting.value.Seconds() <= longer.Seconds())
              && (r.orLarger <==> exists longer: Timeframe :: r.fitting.value.Seconds() < longer.Seconds())
    ensures r.Suggestion? && r.fitting.None? ==>
              !r.orLarger
              && forall longer: Timeframe | t.Seconds() < longer.Seconds() :: !Fits(start, end, longer, maximum, sessions)
  {
    if CandleCount(start, end, t.Seconds(), sessions) <= maximum {
      return PeriodFits;
    }
    var latest := LatestEnd(start, end, t.Seconds(), maximum, sessions);
    var fitting := FirstFitting(start, end, t.Larger(), maximum, sessions);
    SuggestedTimeframeIsShortest(start, end, t, maximum, sessions);
    if fitting.Some? {
      LargerHasMoreSeconds(fitting.value);
      if fitting.value.Larger() != [] { assert fitting.value.Larger()[0] in fitting.value.Larger(); }
    }
    return Suggestion(fitting, fitting.Some? && fitting.value.Larger() != [], latest);
  }

  predicate TooMany(start: int, end: int, frames: seq<Timeframe>, maximum: nat, sessions: Option<seq<Session>>) {
    forall f | f in frames :: CandleCount(start, end, f.Seconds(), sessions) > maximum
  }

  lemma {:induction false} FirstFittingIs(start: int, end: int, frames: seq<Timeframe>, maximum: nat, sessions: Option<seq<Session>>)
    ensures var r := FirstFitting(start, end, frames, maximum, sessions);
            && (r.None? ==> forall f | f in frames :: CandleCount(start, end, f.Seconds(), sessions) > maximum)
            && (r.Some? ==>
                  && CandleCount(start, end, r.value.Seconds(), sessions) <= maximum
                  && (exists i :: 0 <= i < |frames| && frames[i] == r.value && TooMany(start, end, frames[..i], maximum, sessions)))
  {
    hide CandleCount;
    if frames != [] {
      if CandleCount(start, end, frames[0].Seconds(), sessions) <= maximum {
        assert TooMany(start, end, frames[..0], maximum, sessions);
      } else {
        FirstFittingIs(start, end, frames[1..], maximum, sessions);
        var r := FirstFitting(start, end, frames, maximum, sessions);
        if r.Some? {
          var i :| 0 <= i < |frames[1..]| && frames[1..][i] == r.value
            && TooMany(start, end, frames[1..][..i], maximum, sessions);
          assert frames[i + 1] == r.value && frames[..i + 1] == [frames[0]] + frames[1..][..i];
        }
      }
    }
  }

  /** The first of the larger timeframes that fits has more seconds, and of those with more exactly the ones from it on fit. */
  lemma {:induction false} SuggestedTimeframeIsShortest(start: int, end: int, t: Timeframe, maximum: nat, sessions: Option<seq<Session>>)
    requires sessions.Some? ==> ValidCalendar(sessions.value)
    ensures var r := FirstFitting(start, end, t.Larger(), maximum, sessions);
            && (r.Some? ==> t.Seconds() < r.value.Seconds())
            && forall longer: Timeframe | t.Seconds() < longer.Seconds() ::
                 Fits(start, end, longer, maximum, sessions) <==> r.Some? && r.value.Seconds() <= longer.Seconds()
  {
    hide *;
    var r, frames := FirstFitting(start, end, t.Larger(), maximum, sessions), t.Larger();
    FirstFittingIs(start, end, frames, maximum, sessions);
    LargerHasMoreSeconds(t);
    if r.Some? {
      var i :| 0 <= i < |frames| && frames[i] == r.value && TooMany(start, end, frames[..i], maximum, sessions);
      assert r.value in frames;
      forall longer: Timeframe | t.Seconds() < longer.Seconds()
        ensures Fits(start, end, longer, maximum, sessions) <==> r.value.Seconds() <= longer.Seconds()
      {
        var k :| 0 <= k < |frames| && frames[k] == longer;
        FitsFrom(start, end, frames, i, k, maximum, sessions);
      }
    } else {
      forall longer: Timeframe | t.Seconds() < longer.Seconds() ensures !Fits(start, end, longer, maximum, sessions) {
        FitsIs(start, end, longer, maximum, sessions);
      }
    }
  }

  lemma {:induction false} FitsIs(start: int, end: int, t: Timeframe, maximum: nat, sessions: Option<seq<Session>>)
    ensures Fits(start, end, t, maximum, sessions) <==> CandleCount(start, end, t.Seconds(), sessions) <= maximum
  {
  }

  /** Of timeframes in order, those before the first that fits do not, and those from it on do. */
  lemma {:induction false} FitsFrom(start: int, end: int, frames: seq<Timeframe>, i: nat, k: nat, maximum: nat, sessions: Option<seq<Session>>)
    requires sessions.Some? ==> ValidCalendar(sessions.value)
    requires i < |frames| && k < |frames| && TooMany(start, end, frames[..i], maximum, sessions)
    requires CandleCount(start, end, frames[i].Seconds(), sessions) <= maximum
    requires forall a, b | 0 <= a < b < |frames| :: frames[a].Seconds() < frames[b].Seconds()
    ensures Fits(start, end, frames[k], maximum, sessions) <==> i <= k
    ensures frames[i].Seconds() <= frames[k].Seconds() <==> i <= k
  {
    hide CandleCount, ValidCalendar, Timeframe.Seconds;
    if k < i { assert frames[..i][k] == frames[k]; }
    if i < k { LongerTimeframeHasFewer(start, end, frames[i], frames[k], sessions); }
  }
}
