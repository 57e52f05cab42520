/** Expected bins and their number: the closed forms agree with the enumeration. */
module Bins {
  import opened Options
  import opened Arithmetic
  import opened Sessions

  /** The UTC grid over a period, as one range; `FixedBinsAreTheGrid` says which points it holds. */
  function ExpectedFixed(start: int, end: int, step: int, now: Option<int>): seq<int>
    requires 0 < step
  {
    var until := if now.Some? then Min(end, now.value - step + 1) else end;
    Range(CeilDiv(start, step) * step, until, step)
  }

  /** The same for sessions, taken from those that overlap the period; `ExpectedSessionsAreSelected` says it loses none. */
  function ExpectedSessions(start: int, end: int, step: int, sessions: seq<Session>, now: Option<int>): seq<int>
    requires 0 < step
  {
    Opens(Select(AllBins(Overlapping(sessions, start, end), step), Window(Some(start), end, now)))
  }

  function SessionCount(session: Session, step: int, start: int, end: int): int
    requires 0 < step
  {
    var total := CeilDiv(session.close - session.open, step);
    var first := Max(0, CeilDiv(start - session.open, step));
    var last := Min(total, CeilDiv(end - session.open, step));
    Max(0, last - first)
  }

  function SumOfCounts(sessions: seq<Session>, step: int, start: int, end: int): int
    requires 0 < step
  {
    if sessions == [] then 0
    else SessionCount(sessions[0], step, start, end) + SumOfCounts(sessions[1..], step, start, end)
  }

  /** `None` for sessions: a market with fixed bins. */
  function CandleCount(start: int, end: int, step: int, sessions: Option<seq<Session>>): int
    requires 0 < step
  {
    if end <= start then 0
    else if sessions.None? then CeilDiv(end, step) - CeilDiv(start, step)
    else SumOfCounts(Overlapping(sessions.value, start, end), step, start, end)
  }

  function Expected(start: int, end: int, step: int, sessions: Option<seq<Session>>, now: Option<int>): seq<int>
    requires 0 < step
  {
    if sessions.None? then ExpectedFixed(start, end, step, now)
    else ExpectedSessions(start, end, step, sessions.value, now)
  }

  // ---------- fixed bins ----------

  lemma {:induction false} GridPoint(k: int, step: int)
    requires 0 < step
    ensures CeilDiv(k * step, step) == k && (k * step) % step == 0
  {
    CeilUnique(k * step, step, k);
    DivUnique(k * step, step, k);
  }

  /** The fixed bins are exactly the points of the UTC grid in the period, closed by `now`. */
  lemma {:induction false} FixedBinsAreTheGrid(start: int, end: int, step: int, now: Option<int>, x: int)
    requires 0 < step
    ensures x in ExpectedFixed(start, end, step, now) <==>
            start <= x < end && x % step == 0 && (now.Some? ==> x + step <= now.value)
  {
    hide Range, CeilDiv;
    var from := CeilDiv(start, step) * step;
    var until := if now.Some? then Min(end, now.value - step + 1) else end;
    RangeHolds(from, until, step, x);
    OffGrid(x, CeilDiv(start, step), step);
    FirstOnGrid(start, step, x);
  }

  /** The first point of the grid from `start` on. */
  lemma {:induction false} FirstOnGrid(start: int, step: int, x: int)
    requires 0 < step
    ensures start <= CeilDiv(start, step) * step
    ensures start <= x && x % step == 0 ==> CeilDiv(start, step) * step <= x
  {
    hide CeilDiv;
    CeilBounds(start, step);
    if start <= x && x % step == 0 {
      DivBounds(x, step);
      GridPoint(x / step, step);
      CeilMonotone(start, x, step);
      Scale(CeilDiv(start, step), x / step, step);
    }
  }

  lemma {:induction false} OffGrid(x: int, k: int, step: int)
    requires 0 < step
    ensures (x - k * step) % step == x % step
  {
    DivBounds(x, step);
    DivUnique(x - k * step, step, x / step - k);
    assert (x / step - k) * step == x / step * step - k * step;
  }

  lemma {:induction false} FixedCount(start: int, end: int, step: int)
    requires 0 < step
    ensures |ExpectedFixed(start, end, step, None)| == Max(0, CeilDiv(end, step) - CeilDiv(start, step))
  {
    RangeLength(CeilDiv(start, step) * step, end, step);
    CeilShift(end, step, CeilDiv(start, step));
  }

  // ---------- session bins ----------

  lemma {:induction false} SessionCountIsEnumeration(session: Session, step: int, start: int, end: int)
    requires 0 < step
    ensures SessionCount(session, step, start, end) == |Select(SessionBins(session, step), Window(Some(start), end, None))|
  {
    SessionBinsTile(session, step);
    SelectOpens(SessionBins(session, step), start, end);
    WithinRange(session.open, session.close, step, start, end);
  }

  lemma {:induction false} SumIsEnumeration(sessions: seq<Session>, step: int, start: int, end: int)
    requires 0 < step
    ensures SumOfCounts(sessions, step, start, end) == |Select(AllBins(sessions, step), Window(Some(start), end, None))|
  {
    if sessions != [] {
      SessionCountIsEnumeration(sessions[0], step, start, end);
      SumIsEnumeration(sessions[1..], step, start, end);
      SelectAppend(SessionBins(sessions[0], step), AllBins(sessions[1..], step), Window(Some(start), end, None));
    }
  }

  lemma {:induction false} NothingBeforeItStarts(bins: seq<Bin>, start: int, end: int, now: Option<int>)
    requires end <= start
    ensures Select(bins, Window(Some(start), end, now)) == []
  {
    SelectNothing(bins, Window(Some(start), end, now));
  }

  /** The number of candles a period can have is the number of its expected bins, for both kinds. */
  lemma {:induction false} CandleCountIsEnumeration(start: int, end: int, step: int, sessions: Option<seq<Session>>)
    requires 0 < step
    ensures CandleCount(start, end, step, sessions) == |Expected(start, end, step, sessions, None)|
  {
    if sessions.None? {
      FixedCount(start, end, step);
      if end <= start { CeilMonotone(end, start, step); } else { CeilMonotone(start, end, step); }
    } else {
      SumIsEnumeration(Overlapping(sessions.value, start, end), step, start, end);
      if end <= start { NothingBeforeItStarts(AllBins(Overlapping(sessions.value, start, end), step), start, end, None); }
    }
  }

  /** The session bins of a period, against the whole calendar's. */
  lemma {:induction false} ExpectedSessionsAreSelected(start: int, end: int, step: int, sessions: seq<Session>, now: Option<int>)
    requires 0 < step && ValidCalendar(sessions)
    ensures ExpectedSessions(start, end, step, sessions, now) == Opens(Select(AllBins(sessions, step), Window(Some(start), end, now)))
    ensures Increasing(ExpectedSessions(start, end, step, sessions, now))
  {
    SkippingLosesNoBin(sessions, step, start, end, now);
    AllBinsTile(sessions, step);
    SelectTiled(AllBins(sessions, step), Window(Some(start), end, now));
    TiledIncreasing(Select(AllBins(sessions, step), Window(Some(start), end, now)));
  }

  lemma {:induction false} ExpectedIncreasing(start: int, end: int, step: int, sessions: Option<seq<Session>>, now: Option<int>)
    requires 0 < step && (sessions.Some? ==> ValidCalendar(sessions.value))
    ensures Increasing(Expected(start, end, step, sessions, now))
  {
    if sessions.None? {
      var until := if now.Some? then Min(end, now.value - step + 1) else end;
      RangeIncreasing(CeilDiv(start, step) * step, until, step);
    } else {
      ExpectedSessionsAreSelected(start, end, step, sessions.value, now);
    }
  }

  /** Without a clock, the bins of a shorter period are those of a longer one that lie in it. */
  lemma {:induction false} ExpectedWithin(start: int, end: int, longer: int, step: int, sessions: Option<seq<Session>>)
    requires 0 < step && end <= longer && (sessions.Some? ==> ValidCalendar(sessions.value))
    ensures Expected(start, end, step, sessions, None) == Within(Expected(start, longer, step, sessions, None), start, end)
  {
    var short, long := Expected(start, end, step, sessions, None), Expected(start, longer, step, sessions, None);
    if sessions.Some? {
      var opens := Opens(AllBins(sessions.value, step));
      ExpectedSessionsAreSelected(start, end, step, sessions.value, None);
      ExpectedSessionsAreSelected(start, longer, step, sessions.value, None);
      SelectOpens(AllBins(sessions.value, step), start, end);
      SelectOpens(AllBins(sessions.value, step), start, longer);
      WithinTwice(opens, start, end, start, longer);
    } else {
      forall x ensures x in short <==> x in Within(long, start, end) {
        FixedBinsAreTheGrid(start, end, step, None, x);
        FixedBinsAreTheGrid(start, longer, step, None, x);
      }
      ExpectedIncreasing(start, end, step, sessions, None);
      ExpectedIncreasing(start, longer, step, sessions, None);
      WithinIncreasing(long, start, end);
      SameElements(short, Within(long, start, end));
    }
  }

  /** Lists in order with the same elements are the same list. */
  lemma {:induction false} SameElements(a: seq<int>, b: seq<int>)
    requires Increasing(a) && Increasing(b) && forall x :: x in a <==> x in b
    ensures a == b
  {
    if a != [] { assert a[0] in a; }
    if b != [] { assert b[0] in b; }
    if a != [] && b != [] {
      LeastIsFirst(a);
      LeastIsFirst(b);
      forall x ensures x in a[1..] <==> x in b[1..] {
        TailElements(a, x);
        TailElements(b, x);
      }
      SameElements(a[1..], b[1..]);
      assert a == [a[0]] + a[1..] && b == [b[0]] + b[1..];
    }
  }

  lemma {:induction false} LeastIsFirst(s: seq<int>)
    requires Increasing(s) && s != []
    ensures forall x | x in s :: s[0] <= x
  {
  }

  lemma {:induction false} TailElements(s: seq<int>, x: int)
    requires Increasing(s) && s != []
    ensures x in s[1..] <==> x in s && x != s[0]
  {
    if x in s && x != s[0] {
      var i :| 0 <= i < |s| && s[i] == x;
      assert s[1..][i - 1] == x;
    }
  }
}
