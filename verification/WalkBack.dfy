/**
 Walking back from an end: the first of the last candles, the window it gives, and the clock
 arithmetic around it, against the full enumeration of bins.
 */
module WalkBack {
  import opened Options
  import opened Arithmetic
  import opened Sessions
  import opened Bins
  import opened Advice

  /** The `count`-th last of a list in order, the earliest of a shorter one, `None` of an empty one. */
  function CountBack(opens: seq<int>, count: int): Option<int>
    requires 1 <= count
  {
    if opens == [] then None
    else if count <= |opens| then Some(opens[|opens| - count])
    else Some(opens[0])
  }

  function OrZero(lower: Option<int>): int {
    if lower.Some? then lower.value else 0
  }

  // ---------- fixed bins ----------

  function NewestFixed(end: int, now: int, step: int): int
    requires 0 < step
  {
    Min(end - 1, now - step) / step * step
  }

  function FirstOfLastFixed(end: int, now: int, step: int, count: int, lower: Option<int>): Option<int>
    requires 0 < step && 1 <= count
  {
    var newest := NewestFixed(end, now, step);
    if newest < OrZero(lower) then None
    else Some(Max(OrZero(lower), newest - (count - 1) * step))
  }

  lemma {:induction false} NewestIsLastPoint(end: int, now: int, step: int)
    requires 0 < step
    ensures var until := Min(end, now - step + 1);
            NewestFixed(end, now, step) == (CeilDiv(until, step) - 1) * step
  {
    var until := Min(end, now - step + 1);
    DivBounds(until - 1, step);
    var k := (until - 1) / step;
    assert (k + 1) * step == k * step + step;
    CeilUnique(until, step, k + 1);
  }

  lemma {:induction false} GridLower(lower: int, k: int, step: int)
    requires 0 < step
    ensures lower <= k * step <==> CeilDiv(lower, step) <= k
    ensures lower == CeilDiv(lower, step) * step <==> lower % step == 0
  {
    CeilBounds(lower, step);
    var c := CeilDiv(lower, step);
    if c <= k { Scale(c, k, step); } else { Scale(k, c - 1, step); }
    GridPoint(c, step);
    if lower % step == 0 {
      DivBounds(lower, step);
      CeilUnique(lower, step, lower / step);
    }
  }

  /** The fixed bins of a window, by their place on the grid. */
  lemma {:induction false} FixedByPlace(from: int, end: int, now: int, step: int)
    requires 0 < step
    ensures var c, u := CeilDiv(from, step), CeilDiv(Min(end, now - step + 1), step);
            var bins := ExpectedFixed(from, end, step, Some(now));
            && |bins| == Max(0, u - c)
            && (forall i | 0 <= i < |bins| :: bins[i] == Point(0, step, c + i))
  {
    hide CeilDiv, Range;
    var c, until := CeilDiv(from, step), Min(end, now - step + 1);
    var bins := ExpectedFixed(from, end, step, Some(now));
    assert bins == Range(c * step, until, step);
    RangeLength(c * step, until, step);
    CeilShift(until, step, c);
    forall i | 0 <= i < |bins| ensures bins[i] == Point(0, step, c + i) {
      RangeAt(c * step, until, step, i);
    }
  }

  lemma {:induction false} PointBack(step: int, u: int, count: int)
    ensures Point(0, step, u - 1) - (count - 1) * step == Point(0, step, u - count)
    ensures Point(0, step, u - 1) == (u - 1) * step
  {
  }

  /**
   For fixed bins the closed form is the count-back of the enumeration from `lower` on, exactly when
   there is nothing to find, there are enough bins, or `lower` is on the grid.
   */
  lemma {:induction false} FixedCountsBack(end: int, now: int, step: int, count: int, lower: Option<int>)
    requires 0 < step && 1 <= count
    ensures var from := OrZero(lower);
            var newest := NewestFixed(end, now, step);
            FirstOfLastFixed(end, now, step, count, lower) == CountBack(ExpectedFixed(from, end, step, Some(now)), count) <==>
            newest < from || from <= newest - (count - 1) * step || from % step == 0
  {
    hide *;
    var from := OrZero(lower);
    var c, u := CeilDiv(from, step), CeilDiv(Min(end, now - step + 1), step);
    var newest, back := NewestFixed(end, now, step), Point(0, step, u - count);
    NewestIsLastPoint(end, now, step);
    PointBack(step, u, count);
    GridLower(from, u - 1, step);
    GridLowerPoint(from, u - count, step);
    GridLowerPoint(from, c, step);
    FixedByPlace(from, end, now, step);
    CountBackOfRun(ExpectedFixed(from, end, step, Some(now)), step, c, u, count);
    ClosedForm(end, now, step, count, lower);
  }

  /** Off the grid and with too few bins the closed form answers with `lower`, where no bin opens. */
  lemma {:induction false} OffGridLowerIsReturned()
    ensures FirstOfLastFixed(7200, 10800, 3600, 5, Some(100)) == Some(100)
    ensures ExpectedFixed(100, 7200, 3600, Some(10800)) == [3600]
    ensures CountBack(ExpectedFixed(100, 7200, 3600, Some(10800)), 5) == Some(3600)
  {
    assert CeilDiv(100, 3600) == 1;
    assert Range(3600, 7200, 3600) == [3600] + Range(7200, 7200, 3600);
  }

  lemma {:induction false} GridLowerPoint(lower: int, k: int, step: int)
    requires 0 < step
    ensures lower <= Point(0, step, k) <==> CeilDiv(lower, step) <= k
    ensures lower == Point(0, step, CeilDiv(lower, step)) <==> lower % step == 0
  {
    GridLower(lower, k, step);
  }

  lemma {:induction false} ClosedForm(end: int, now: int, step: int, count: int, lower: Option<int>)
    requires 0 < step && 1 <= count
    ensures var newest, from := NewestFixed(end, now, step), OrZero(lower);
            && (newest < from ==> FirstOfLastFixed(end, now, step, count, lower) == None)
            && (from <= newest - (count - 1) * step ==>
                  from <= newest && FirstOfLastFixed(end, now, step, count, lower) == Some(newest - (count - 1) * step))
            && (newest - (count - 1) * step < from <= newest ==> FirstOfLastFixed(end, now, step, count, lower) == Some(from))
  {
    Scale(0, count - 1, step);
  }

  lemma {:induction false} CountBackOfRun(bins: seq<int>, step: int, c: int, u: int, count: int)
    requires 1 <= count && |bins| == Max(0, u - c)
    requires forall i | 0 <= i < |bins| :: bins[i] == Point(0, step, c + i)
    ensures CountBack(bins, count) ==
            if u <= c then None else if c <= u - count then Some(Point(0, step, u - count)) else Some(Point(0, step, c))
  {
    hide Point;
  }

  // ---------- session bins ----------

  /** The bins that count: opening in `[lower, end)` and closed by `now`, of the whole calendar. */
  function Counted(sessions: seq<Session>, step: int, lower: Option<int>, end: int, now: int): seq<Bin>
    requires 0 < step
  {
    Select(AllBins(sessions, step), Window(lower, end, Some(now)))
  }

  lemma {:induction false} AllBinsAppend(a: seq<Session>, b: seq<Session>, step: int)
    requires 0 < step
    ensures AllBins(a + b, step) == AllBins(a, step) + AllBins(b, step)
  {
    if a == [] {
      assert a + b == b;
    } else {
      assert (a + b)[1..] == a[1..] + b;
      AllBinsAppend(a[1..], b, step);
    }
  }

  lemma {:induction false} NothingCounted(sessions: seq<Session>, step: int, w: Window)
    requires 0 < step
    requires forall i | 0 <= i < |sessions| :: w.end <= sessions[i].open || (w.lower.Some? && sessions[i].close <= w.lower.value)
    ensures Select(AllBins(sessions, step), w) == []
  {
    if sessions != [] {
      NothingCounted(sessions[1..], step, w);
      OutsideSession(sessions[0], step, w);
      SelectAppend(SessionBins(sessions[0], step), AllBins(sessions[1..], step), w);
    }
  }

  /** Sessions before `k` without a bin that counts leave the count to those from `k` on. */
  lemma {:induction false} CountedFrom(sessions: seq<Session>, k: nat, step: int, w: Window)
    requires 0 < step && k <= |sessions|
    ensures Select(AllBins(sessions, step), w) ==
            Select(AllBins(sessions[..k], step), w) + Select(AllBins(sessions[k..], step), w)
  {
    assert sessions == sessions[..k] + sessions[k..];
    AllBinsAppend(sessions[..k], sessions[k..], step);
    SelectAppend(AllBins(sessions[..k], step), AllBins(sessions[k..], step), w);
  }

  lemma {:induction false} EndOfList(before: seq<Bin>, own: seq<Bin>, tail: seq<Bin>, count: int)
    requires 1 <= count && |tail| < count <= |own| + |tail|
    ensures CountBack(Opens(before + (own + tail)), count) == Some(own[|own| - (count - |tail|)].opens)
  {
    var all := before + (own + tail);
    assert all[|all| - count] == own[|own| - (count - |tail|)];
  }

  lemma {:induction false} ShortList(tail: seq<Bin>, count: int)
    requires |tail| < count
    ensures CountBack(Opens(tail), count) == if tail == [] then None else Some(tail[0].opens)
  {
  }

  method FirstOfLast(end: int, now: int, step: int, count: int, sessions: Option<seq<Session>>, lower: Option<int>)
    returns (r: Option<int>)
    requires 0 < step && 1 <= count && (sessions.Some? ==> ValidCalendar(sessions.value))
    ensures sessions.None? ==> r == FirstOfLastFixed(end, now, step, count, lower)
    ensures sessions.None? && OrZero(lower) % step == 0 ==>
              r == CountBack(ExpectedFixed(OrZero(lower), end, step, Some(now)), count)
    ensures sessions.Some? ==> r == CountBack(Opens(Counted(sessions.value, step, lower, end, now)), count)
  {
    hide *;
    if sessions.None? {
      FixedCountsBack(end, now, step, count, lower);
      return FirstOfLastFixed(end, now, step, count, lower);
    }
    r := FirstInSessions(end, now, step, count, sessions.value, lower);
  }

  lemma {:induction false} NothingUpTo(sessions: seq<Session>, i: nat, step: int, w: Window)
    requires 0 < step && ValidCalendar(sessions) && i < |sessions|
    requires w.lower.Some? && sessions[i].close <= w.lower.value
    ensures Select(AllBins(sessions[..i + 1], step), w) == []
  {
    forall j | 0 <= j <= i ensures sessions[j].close <= sessions[i].close {
    }
    NothingCounted(sessions[..i + 1], step, w);
  }

  lemma {:induction false} CountedIs(sessions: seq<Session>, step: int, lower: Option<int>, end: int, now: int)
    requires 0 < step
    ensures Counted(sessions, step, lower, end, now) == Select(AllBins(sessions, step), Window(lower, end, Some(now)))
  {
  }

  /** Walks the sessions back from `end`, until enough bins are found or none can follow. */
  method FirstInSessions(end: int, now: int, step: int, count: int, sessions: seq<Session>, lower: Option<int>)
    returns (r: Option<int>)
    requires 0 < step && 1 <= count && ValidCalendar(sessions)
    ensures r == CountBack(Opens(Counted(sessions, step, lower, end, now)), count)
  {
    hide *;
    CountedIs(sessions, step, lower, end, now);
    var earliest: Option<int>, remaining := None, count;
    var i := BisectLeft(OpenTimes(sessions), end);
    var w := Window(lower, end, Some(now));
    NothingCounted(sessions[i..], step, w);
    while i > 0
      invariant 0 <= i <= |sessions|
      invariant var tail := Select(AllBins(sessions[i..], step), w);
                |tail| + remaining == count && 1 <= remaining
                && earliest == if tail == [] then None else Some(tail[0].opens)
    {
      ghost var tail := Select(AllBins(sessions[i..], step), w);
      i := i - 1;
      var session := sessions[i];
      if lower.Some? && session.close <= lower.value {
        NothingUpTo(sessions, i, step, w);
        CountedFrom(sessions, i + 1, step, w);
        assert Select(AllBins(sessions, step), w) == tail;
        ShortList(tail, count);
        return earliest;
      }
      var opens := Select(SessionBins(session, step), w);
      SelectFirstSession(sessions, i, step, w);
      if |opens| >= remaining {
        CountedFrom(sessions, i, step, w);
        EndOfList(Select(AllBins(sessions[..i], step), w), opens, tail, count);
        return Some(opens[|opens| - remaining].opens);
      }
      if opens != [] {
        earliest, remaining := Some(opens[0].opens), remaining - |opens|;
      }
    }
    ShortList(Select(AllBins(sessions[0..], step), w), count);
    assert sessions[0..] == sessions;
    return earliest;
  }

  // ---------- the window of the last candles ----------

  function OrEnd(start: Option<int>, end: int): int {
    if start.None? then end else start.value
  }

  lemma {:induction false} OrEndIs(start: Option<int>, end: int)
    ensures OrEnd(start, end) == if start.None? then end else start.value
  {
  }

  datatype WindowStart = Start(start: int) | RuntimeError

  /** The walk back with the size check behind it, which cannot fail. */
  method WindowOf(end: int, count: int, asOf: int, step: int, sessions: Option<seq<Session>>, lower: Option<int>)
    returns (r: WindowStart)
    requires 0 < step && 1 <= count && (sessions.Some? ==> ValidCalendar(sessions.value))
    ensures r.Start?
    ensures sessions.Some? ==>
              r.start == OrEnd(CountBack(Opens(Counted(sessions.value, step, lower, end, asOf)), count), end)
    ensures sessions.None? ==> r.start == OrEnd(FirstOfLastFixed(end, asOf, step, count, lower), end)
    ensures sessions.None? && OrZero(lower) % step == 0 ==>
              r.start == OrEnd(CountBack(ExpectedFixed(OrZero(lower), end, step, Some(asOf)), count), end)
  {
    hide *;
    var start := FirstOfLast(end, asOf, step, count, sessions, lower);
    OrEndIs(start, end);
    if start.None? {
      return Start(end);
    }
    WindowIsSmall(end, count, asOf, step, sessions, lower, start.value);
    if CandleCount(start.value, Min(end, asOf), step, sessions) > count + 1 {
      return RuntimeError;
    }
    return Start(start.value);
  }

  /** The bins a walk back counts: opening from `lower` on and before `end`, closed by `now`. */
  function ClosedBins(end: int, now: int, step: int, sessions: Option<seq<Session>>, lower: Option<int>): seq<int>
    requires 0 < step
  {
    if sessions.None? then ExpectedFixed(OrZero(lower), end, step, Some(now))
    else Opens(Counted(sessions.value, step, lower, end, now))
  }

  function LastOf(s: seq<int>, count: nat): (r: seq<int>)
    ensures |r| == Min(count, |s|)
  {
    if count <= |s| then s[|s| - count..] else s
  }

  /** A walk back finds nothing only where nothing counts; otherwise it starts at the first of the last `count`. */
  lemma {:induction false} CountBackIs(opens: seq<int>, count: nat)
    requires 1 <= count
    ensures CountBack(opens, count).None? <==> opens == []
    ensures opens != [] ==> LastOf(opens, count) != [] && CountBack(opens, count) == Some(LastOf(opens, count)[0])
  {
  }

  /**
   The window from the start found holds the last `count` of the bins that count, or all of fewer, and of the
   bins that open in it before `asOf` at most one more, which is still open.
   */
  lemma {:induction false} WindowIsSmall(end: int, count: int, asOf: int, step: int, sessions: Option<seq<Session>>, lower: Option<int>, start: int)
    requires 0 < step && 1 <= count && (sessions.Some? ==> ValidCalendar(sessions.value))
    requires sessions.None? ==> FirstOfLastFixed(end, asOf, step, count, lower) == Some(start)
    requires sessions.Some? ==> CountBack(Opens(Counted(sessions.value, step, lower, end, asOf)), count) == Some(start)
    ensures CandleCount(start, Min(end, asOf), step, sessions) <= count + 1
    ensures Expected(start, end, step, sessions, Some(asOf)) == LastOf(ClosedBins(end, asOf, step, sessions, lower), count)
  {
    hide FirstOfLastFixed, CountBack, Counted, CandleCount, ExpectedFixed, ExpectedSessions, LastOf;
    if sessions.None? {
      FixedWindowIsSmall(end, count, asOf, step, lower, start);
      FixedWindowHolds(end, count, asOf, step, lower, start);
    } else {
      SessionWindowIsSmall(end, count, asOf, step, sessions.value, lower, start);
      SessionWindowHolds(end, count, asOf, step, sessions.value, lower, start);
    }
  }

  lemma {:induction false} FixedWindowHolds(end: int, count: int, asOf: int, step: int, lower: Option<int>, start: int)
    requires 0 < step && 1 <= count && FirstOfLastFixed(end, asOf, step, count, lower) == Some(start)
    ensures ExpectedFixed(start, end, step, Some(asOf)) == LastOf(ExpectedFixed(OrZero(lower), end, step, Some(asOf)), count)
  {
    hide CeilDiv, ExpectedFixed, OrZero, Point, NewestFixed;
    var from, u := OrZero(lower), CeilDiv(Min(end, asOf - step + 1), step);
    var all, held := ExpectedFixed(from, end, step, Some(asOf)), ExpectedFixed(start, end, step, Some(asOf));
    StartPlace(end, count, asOf, step, lower, start);
    FixedByPlace(from, end, asOf, step);
    FixedByPlace(start, end, asOf, step);
    assert |held| == |LastOf(all, count)|;
    forall i | 0 <= i < |held| ensures held[i] == LastOf(all, count)[i] {
    }
  }

  /** The place on the grid of a start found, among those of the bins from `lower` on. */
  lemma {:induction false} StartPlace(end: int, count: int, asOf: int, step: int, lower: Option<int>, start: int)
    requires 0 < step && 1 <= count && FirstOfLastFixed(end, asOf, step, count, lower) == Some(start)
    ensures var c, u := CeilDiv(OrZero(lower), step), CeilDiv(Min(end, asOf - step + 1), step);
            c < u && CeilDiv(start, step) == Max(c, u - count)
  {
    hide CeilDiv, NewestFixed;
    var from, u := OrZero(lower), CeilDiv(Min(end, asOf - step + 1), step);
    NewestIsLastPoint(end, asOf, step);
    assert (u - 1) * step - (count - 1) * step == (u - count) * step;
    GridPoint(u - count, step);
    GridLower(from, u - 1, step);
    GridLower(from, u - count, step);
    if from <= (u - count) * step {
      assert start == (u - count) * step;
    } else {
      assert start == from;
    }
  }

  lemma {:induction false} SessionWindowHolds(end: int, count: int, asOf: int, step: int, sessions: seq<Session>, lower: Option<int>, start: int)
    requires 0 < step && 1 <= count && ValidCalendar(sessions)
    requires CountBack(Opens(Counted(sessions, step, lower, end, asOf)), count) == Some(start)
    ensures ExpectedSessions(start, end, step, sessions, Some(asOf)) == LastOf(Opens(Counted(sessions, step, lower, end, asOf)), count)
  {
    hide *;
    var all, closed := AllBins(sessions, step), Counted(sessions, step, lower, end, asOf);
    var held := Select(all, Window(Some(start), end, Some(asOf)));
    var from := if count <= |closed| then |closed| - count else 0;
    CountedIs(sessions, step, lower, end, asOf);
    AllBinsTile(sessions, step);
    SelectTiled(all, Window(lower, end, Some(asOf)));
    SelectTiled(all, Window(Some(start), end, Some(asOf)));
    ExpectedSessionsAreSelected(start, end, step, sessions, Some(asOf));
    StartIsFrom(closed, count, from, start);
    FromStart(all, lower, end, asOf, closed[from]);
    forall b ensures b in held <==> b in closed[from..] {
      if b in closed { FromIs(closed, from, b); }
      if b in closed[from..] { NotBefore(closed, from, b); }
    }
    TiledFrom(closed, from);
    SameOpens(held, closed[from..]);
    LastIs(closed, count, from);
  }

  /** From a bin that counts on, the bins from its open on are those that count and open no earlier. */
  lemma {:induction false} FromStart(all: seq<Bin>, lower: Option<int>, end: int, asOf: int, first: Bin)
    requires first in Select(all, Window(lower, end, Some(asOf)))
    ensures forall b :: b in Select(all, Window(Some(first.opens), end, Some(asOf))) <==>
                        b in Select(all, Window(lower, end, Some(asOf))) && first.opens <= b.opens
  {
    hide Select;
  }

  lemma {:induction false} FromIs(bins: seq<Bin>, from: nat, b: Bin)
    requires Tiled(bins) && from < |bins| && b in bins
    ensures bins[from].opens <= b.opens <==> b in bins[from..]
  {
    if bins[from].opens <= b.opens { FromOn(bins, from, b); }
    if b in bins[from..] { NotBefore(bins, from, b); }
  }

  lemma {:induction false} TiledFrom(bins: seq<Bin>, from: nat)
    requires Tiled(bins) && from <= |bins|
    ensures Tiled(bins[from..])
  {
  }

  lemma {:induction false} LastIs(bins: seq<Bin>, count: nat, from: nat)
    requires from == if count <= |bins| then |bins| - count else 0
    ensures LastOf(Opens(bins), count) == Opens(bins[from..])
  {
  }

  lemma {:induction false} NotBefore(bins: seq<Bin>, from: nat, b: Bin)
    requires Tiled(bins) && from < |bins| && b in bins[from..]
    ensures b in bins && bins[from].opens <= b.opens
  {
    var i :| 0 <= i < |bins[from..]| && bins[from..][i] == b;
    assert bins[from + i] == b && bins[from].opens < bins[from].closes;
  }

  lemma {:induction false} SameOpens(a: seq<Bin>, b: seq<Bin>)
    requires Tiled(a) && Tiled(b) && forall x :: x in a <==> x in b
    ensures Opens(a) == Opens(b)
  {
    TiledIncreasing(a);
    TiledIncreasing(b);
    forall x ensures x in Opens(a) <==> x in Opens(b) {
      InOpens(a, x);
      InOpens(b, x);
    }
    SameElements(Opens(a), Opens(b));
  }

  lemma {:induction false} InOpens(bins: seq<Bin>, x: int)
    ensures x in Opens(bins) <==> exists b :: b in bins && b.opens == x
  {
    if i :| 0 <= i < |bins| && bins[i].opens == x { assert Opens(bins)[i] == x; }
    if i :| 0 <= i < |Opens(bins)| && Opens(bins)[i] == x { assert bins[i] in bins; }
  }

  lemma {:induction false} FixedWindowIsSmall(end: int, count: int, asOf: int, step: int, lower: Option<int>, start: int)
    requires 0 < step && 1 <= count && FirstOfLastFixed(end, asOf, step, count, lower) == Some(start)
    ensures CandleCount(start, Min(end, asOf), step, None) <= count + 1
  {
    hide CeilDiv;
    var until, most := Min(end, asOf - step + 1), Min(end, asOf);
    var u := CeilDiv(until, step);
    NewestIsLastPoint(end, asOf, step);
    assert (u - 1) * step - (count - 1) * step == (u - count) * step;
    assert (u - count) * step <= start;
    GridPoint(u - count, step);
    CeilMonotone((u - count) * step, start, step);
    CeilShift(until + step, step, 1);
    CeilMonotone(most, until + step, step);
  }

  /** Of bins one after another that open before `now`, all but the last are closed by then. */
  lemma {:induction false} AllButLastClosed(bins: seq<Bin>, now: int)
    requires Tiled(bins) && forall b | b in bins :: b.opens < now
    ensures forall i | 0 <= i < |bins| - 1 :: bins[i].closes <= now
  {
    forall i | 0 <= i < |bins| - 1 ensures bins[i].closes <= now {
      assert bins[i].closes <= bins[i + 1].opens && bins[i + 1] in bins;
    }
  }

  lemma {:induction false} SessionWindowIsSmall(end: int, count: int, asOf: int, step: int, sessions: seq<Session>, lower: Option<int>, start: int)
    requires 0 < step && 1 <= count && ValidCalendar(sessions)
    requires CountBack(Opens(Counted(sessions, step, lower, end, asOf)), count) == Some(start)
    ensures CandleCount(start, Min(end, asOf), step, Some(sessions)) <= count + 1
  {
    var most := Min(end, asOf);
    var all, closed := AllBins(sessions, step), Counted(sessions, step, lower, end, asOf);
    var w := Window(Some(start), most, None);
    var held := Select(all, w);
    CandleCountIsEnumeration(start, most, step, Some(sessions));
    ExpectedSessionsAreSelected(start, most, step, sessions, None);
    AllBinsTile(sessions, step);
    SelectTiled(all, w);
    SelectTiled(all, Window(lower, end, Some(asOf)));
    if held != [] {
      AllButLastClosed(held, asOf);
      ClosedOnesAreCounted(closed, held, all, lower, end, asOf, start, count);
    }
  }

  lemma {:induction false} ClosedOnesAreCounted(closed: seq<Bin>, held: seq<Bin>, all: seq<Bin>, lower: Option<int>, end: int, asOf: int, start: int, count: int)
    requires 1 <= count && Tiled(closed) && Tiled(held) && held != []
    requires closed == Select(all, Window(lower, end, Some(asOf)))
    requires held == Select(all, Window(Some(start), Min(end, asOf), None))
    requires CountBack(Opens(closed), count) == Some(start)
    requires forall i | 0 <= i < |held| - 1 :: held[i].closes <= asOf
    ensures |held| <= count + 1
  {
    hide Select, Opens;
    var from := if count <= |closed| then |closed| - count else 0;
    StartIsFrom(closed, count, from, start);
    var a, b := Opens(held[..|held| - 1]), Opens(closed[from..]);
    assert Increasing(a);
    forall x | x in a ensures x in b {
      var i :| 0 <= i < |a| && a[i] == x;
      assert held[i] in held && closed[from] in closed;
      assert held[i] in closed;
      FromOn(closed, from, held[i]);
      var j :| 0 <= j < |closed[from..]| && closed[from..][j] == held[i];
      assert b[j] == x;
    }
    SublistIsShorter(a, b);
  }

  lemma {:induction false} StartIsFrom(closed: seq<Bin>, count: int, from: int, start: int)
    requires 1 <= count && CountBack(Opens(closed), count) == Some(start)
    requires from == if count <= |closed| then |closed| - count else 0
    ensures 0 <= from < |closed| && closed[from].opens == start
  {
  }

  lemma {:induction false} FromOn(bins: seq<Bin>, from: nat, b: Bin)
    requires Tiled(bins) && from < |bins| && b in bins && bins[from].opens <= b.opens
    ensures b in bins[from..]
  {
    var j :| 0 <= j < |bins| && bins[j] == b;
    assert bins[j].opens < bins[j].closes;
    assert from <= j;
    assert bins[from..][j - from] == b;
  }

  // ---------- clocks ----------

  /** The last whole minute, taken back to the close of the latest session when that is over. */
  function NewestMinute(now: int, sessions: Option<seq<Session>>): int
    requires sessions.Some? ==> ValidCalendar(sessions.value)
  {
    var minute := now / 60 * 60;
    if sessions.None? || sessions.value == [] then minute - 60
    else
      var latest := BisectRight(OpenTimes(sessions.value), now - 60) - 1;
      (if latest >= 0 then Min(minute, sessions.value[latest].close) else minute) - 60
  }

  predicate WholeMinutes(sessions: seq<Session>) {
    forall i | 0 <= i < |sessions| :: sessions[i].open % 60 == 0 && sessions[i].close % 60 == 0
  }

  /** A bin of the calendar is a bin of one of its sessions. */
  lemma {:induction false} InAllBins(sessions: seq<Session>, step: int, b: Bin)
    requires 0 < step
    ensures b in AllBins(sessions, step) <==> exists i :: 0 <= i < |sessions| && b in SessionBins(sessions[i], step)
  {
    if sessions != [] {
      InAllBins(sessions[1..], step, b);
      if i :| 0 <= i < |sessions[1..]| && b in SessionBins(sessions[1..][i], step) {
        assert b in SessionBins(sessions[i + 1], step);
      }
      if i :| 0 <= i < |sessions| && b in SessionBins(sessions[i], step) {
        if i > 0 { assert b in SessionBins(sessions[1..][i - 1], step); }
      }
    }
  }

  /** The bins of a session: on its grid, cut at its close. */
  lemma {:induction false} BinOfSession(session: Session, step: int, b: Bin)
    requires 0 < step
    ensures b in SessionBins(session, step) <==>
            && session.open <= b.opens < session.close && (b.opens - session.open) % step == 0
            && b.closes == Min(b.opens + step, session.close)
  {
    hide Range, BinsAt, Min;
    var opens := Range(session.open, session.close, step);
    BinsAtOpens(opens, session.close, step);
    RangeHolds(session.open, session.close, step, b.opens);
    if b.opens in opens {
      var i :| 0 <= i < |opens| && opens[i] == b.opens;
      assert SessionBins(session, step)[i] == Bin(b.opens, Min(b.opens + step, session.close));
    }
  }

  /** A moment is on a session's grid, and its bin is closed by `now`. */
  predicate OpensIn(session: Session, step: int, now: Option<int>, x: int)
    requires 0 < step
  {
    && session.open <= x < session.close && (x - session.open) % step == 0
    && (now.Some? ==> x + step <= now.value || session.close <= now.value)
  }

  /** The session bins are exactly the points of the sessions' own grids in the period, closed by `now`. */
  lemma {:induction false} SessionBinsAreTheGrid(start: int, end: int, step: int, sessions: seq<Session>, now: Option<int>, x: int)
    requires 0 < step && ValidCalendar(sessions)
    ensures x in ExpectedSessions(start, end, step, sessions, now) <==>
            start <= x < end && exists i :: 0 <= i < |sessions| && OpensIn(sessions[i], step, now, x)
  {
    hide AllBins, SessionBins, Select, ExpectedSessions, ValidCalendar;
    var all, w := AllBins(sessions, step), Window(Some(start), end, now);
    ExpectedSessionsAreSelected(start, end, step, sessions, now);
    if x in Opens(Select(all, w)) {
      var k :| 0 <= k < |Opens(Select(all, w))| && Opens(Select(all, w))[k] == x;
      var b := Select(all, w)[k];
      assert b in Select(all, w);
      InAllBins(sessions, step, b);
      var i :| 0 <= i < |sessions| && b in SessionBins(sessions[i], step);
      BinOfSession(sessions[i], step, b);
      assert OpensIn(sessions[i], step, now, x);
    }
    if i :| start <= x < end && 0 <= i < |sessions| && OpensIn(sessions[i], step, now, x) {
      var b := Bin(x, Min(x + step, sessions[i].close));
      BinOfSession(sessions[i], step, b);
      InAllBins(sessions, step, b);
      assert b in Select(all, w);
      var k :| 0 <= k < |Select(all, w)| && Select(all, w)[k] == b;
      assert Opens(Select(all, w))[k] == x;
    }
  }

  /**
   The newest minute is the last 1m bin closed by `now`: always for fixed bins, and for sessions, which open
   and close on whole minutes, exactly when one of them has been open for a minute.
   */
  lemma {:induction false} NewestMinuteIsLastClosed(now: int, sessions: Option<seq<Session>>)
    requires sessions.Some? ==> ValidCalendar(sessions.value) && WholeMinutes(sessions.value)
    ensures sessions.None? ==>
              var x := NewestMinute(now, sessions);
              x % 60 == 0 && x + 60 <= now && forall y | y % 60 == 0 && y + 60 <= now :: y <= x
    ensures sessions.Some? ==>
              ((exists i :: 0 <= i < |sessions.value| && sessions.value[i].open <= now - 60) <==>
               CountBack(Opens(Counted(sessions.value, 60, None, now, now)), 1) == Some(NewestMinute(now, sessions)))
  {
    if sessions.Some? { NewestMinuteInSessions(now, sessions.value); }
  }

  lemma {:induction false} NewestMinuteInSessions(now: int, sessions: seq<Session>)
    requires ValidCalendar(sessions) && WholeMinutes(sessions)
    ensures (exists i :: 0 <= i < |sessions| && sessions[i].open <= now - 60) <==>
            CountBack(Opens(Counted(sessions, 60, None, now, now)), 1) == Some(NewestMinute(now, Some(sessions)))
  {
    hide AllBins, SessionBins, Select, Bisect;
    var closed := Counted(sessions, 60, None, now, now);
    AllBinsTile(sessions, 60);
    SelectTiled(AllBins(sessions, 60), Window(None, now, Some(now)));
    if i :| 0 <= i < |sessions| && sessions[i].open <= now - 60 {
      var latest := BisectRight(OpenTimes(sessions), now - 60) - 1;
      var x := NewestMinute(now, Some(sessions));
      NewestIsClosed(now, sessions, latest, x);
      LastOfTiled(closed, Bin(x, x + 60));
    } else if closed != [] {
      assert closed[0] in closed;
      InAllBins(sessions, 60, closed[0]);
      var i :| 0 <= i < |sessions| && closed[0] in SessionBins(sessions[i], 60);
      MinuteBin(sessions, i, closed[0]);
    }
  }

  /** Before the first session has been open for a minute, the newest minute is none of the calendar's. */
  lemma {:induction false} NewestMinuteBeforeTheCalendar()
    ensures var sessions := [Session(86400, 90000)];
            && NewestMinute(3600, Some(sessions)) == 3540
            && CountBack(Opens(Counted(sessions, 60, None, 3600, 3600)), 1) == None
  {
    hide Bisect, BisectRight, AllBins, SessionBins, Select;
    var sessions := [Session(86400, 90000)];
    var opens := OpenTimes(sessions);
    assert opens[0] == 86400;
    NothingCounted(sessions, 60, Window(None, 3600, Some(3600)));
  }

  lemma {:induction false} MinuteBin(sessions: seq<Session>, i: nat, b: Bin)
    requires WholeMinutes(sessions) && i < |sessions| && b in SessionBins(sessions[i], 60)
    ensures b.closes == b.opens + 60 <= sessions[i].close && sessions[i].open <= b.opens && b.opens % 60 == 0
  {
    BinOfSession(sessions[i], 60, b);
  }

  lemma {:induction false} NewestIsClosed(now: int, sessions: seq<Session>, latest: int, x: int)
    requires ValidCalendar(sessions) && WholeMinutes(sessions) && 0 <= latest < |sessions|
    requires latest == BisectRight(OpenTimes(sessions), now - 60) - 1 && x == NewestMinute(now, Some(sessions))
    ensures var closed := Counted(sessions, 60, None, now, now);
            Bin(x, x + 60) in closed && forall b | b in closed :: b.opens <= x
  {
    hide *;
    NewestIs(now, sessions, latest, x);
    var session, closed := sessions[latest], Counted(sessions, 60, None, now, now);
    BinOfSession(session, 60, Bin(x, x + 60));
    InCounted(now, sessions, Bin(x, x + 60));
    InAllBins(sessions, 60, Bin(x, x + 60));
    assert Min(x + 60, session.close) == x + 60 by { MinIs(x + 60, session.close); }
    forall b | b in closed ensures b.opens <= x {
      InCounted(now, sessions, b);
      InAllBins(sessions, 60, b);
      var i :| 0 <= i < |sessions| && b in SessionBins(sessions[i], 60);
      MinuteBin(sessions, i, b);
      MinuteOrder(now, sessions, latest, i);
      NotPast(b.opens, now);
    }
  }

  lemma {:induction false} MinIs(a: int, b: int)
    ensures a <= b ==> Min(a, b) == a
  {
  }

  lemma {:induction false} NotPast(x: int, now: int)
    requires x % 60 == 0 && x + 60 <= now
    ensures x <= now / 60 * 60 - 60
  {
  }

  /** A session that has been open for a minute is not after the latest one, and an earlier one is over. */
  lemma {:induction false} MinuteOrder(now: int, sessions: seq<Session>, latest: int, i: nat)
    requires ValidCalendar(sessions) && 0 <= latest < |sessions| && i < |sessions|
    requires latest == BisectRight(OpenTimes(sessions), now - 60) - 1
    ensures i < latest ==> sessions[i].close <= sessions[latest].open
    ensures latest < i ==> now - 60 < sessions[i].open
  {
    assert latest < i ==> now - 60 < OpenTimes(sessions)[i];
  }

  lemma {:induction false} InCounted(now: int, sessions: seq<Session>, b: Bin)
    ensures b in Counted(sessions, 60, None, now, now) <==> b in AllBins(sessions, 60) && b.opens < now && b.closes <= now
  {
  }

  lemma {:induction false} NewestIs(now: int, sessions: seq<Session>, latest: int, x: int)
    requires ValidCalendar(sessions) && WholeMinutes(sessions) && 0 <= latest < |sessions|
    requires latest == BisectRight(OpenTimes(sessions), now - 60) - 1 && x == NewestMinute(now, Some(sessions))
    ensures var session := sessions[latest];
            && session.open <= x < session.close && (x - session.open) % 60 == 0
            && x + 60 <= session.close && x + 60 <= now
            && (x == session.close - 60 || x == now / 60 * 60 - 60)
  {
    hide Bisect, BisectRight;
  }

  lemma {:induction false} LastOfTiled(bins: seq<Bin>, b: Bin)
    requires Tiled(bins) && b in bins && forall c | c in bins :: c.opens <= b.opens
    ensures CountBack(Opens(bins), 1) == Some(b.opens)
  {
    var i :| 0 <= i < |bins| && bins[i] == b;
    assert bins[|bins| - 1] in bins;
  }

  /** Open time of the bin that holds the moment `ts`. */
  function BinOpen(ts: int, step: int, sessions: Option<seq<Session>>): int
    requires 0 < step && (sessions.Some? ==> ValidCalendar(sessions.value))
  {
    if sessions.None? then ts / step * step
    else
      var index := BisectRight(OpenTimes(sessions.value), ts) - 1;
      if index < 0 || ts >= sessions.value[index].close then ts
      else
        var opens := sessions.value[index].open;
        opens + (ts - opens) / step * step
  }

  /**
   The bin that holds a moment opens where `BinOpen` says: a bin of the UTC grid, or of a session; for a moment
   outside every session it says the moment.
   */
  lemma {:induction false} BinOpenHolds(ts: int, step: int, sessions: Option<seq<Session>>)
    requires 0 < step && (sessions.Some? ==> ValidCalendar(sessions.value))
    ensures sessions.None? ==>
              forall x :: x % step == 0 && x <= ts < x + step <==> x == BinOpen(ts, step, sessions)
    ensures sessions.Some? ==>
              forall b | b in AllBins(sessions.value, step) && b.opens <= ts < b.closes :: BinOpen(ts, step, sessions) == b.opens
    ensures sessions.Some? && (forall b | b in AllBins(sessions.value, step) :: !(b.opens <= ts < b.closes)) ==>
              BinOpen(ts, step, sessions) == ts
  {
    hide *;
    forall x ensures x % step == 0 && x <= ts < x + step <==> x == BinOpen(ts, step, None) {
      FixedBinOf(ts, step, x);
    }
    if sessions.Some? { BinOpenInSessions(ts, step, sessions.value); }
  }

  lemma {:induction false} FixedBinOf(ts: int, step: int, x: int)
    requires 0 < step
    ensures x % step == 0 && x <= ts < x + step <==> x == BinOpen(ts, step, None)
  {
    DivBounds(ts, step);
    GridPoint(ts / step, step);
    if x % step == 0 && x <= ts < x + step { FloorToBin(ts, 0, x, step); }
  }

  lemma {:induction false} BinOpenInSessions(ts: int, step: int, sessions: seq<Session>)
    requires 0 < step && ValidCalendar(sessions)
    ensures forall b | b in AllBins(sessions, step) && b.opens <= ts < b.closes :: BinOpen(ts, step, Some(sessions)) == b.opens
    ensures (forall b | b in AllBins(sessions, step) :: !(b.opens <= ts < b.closes)) ==> BinOpen(ts, step, Some(sessions)) == ts
  {
    hide *;
    forall b | b in AllBins(sessions, step) && b.opens <= ts < b.closes ensures BinOpen(ts, step, Some(sessions)) == b.opens {
      BinOpenOf(ts, step, sessions, b);
    }
    if BinOpen(ts, step, Some(sessions)) != ts {
      var b := HeldByBin(ts, step, sessions);
    }
  }

  lemma {:induction false} BinOpenOf(ts: int, step: int, sessions: seq<Session>, b: Bin)
    requires 0 < step && ValidCalendar(sessions) && b in AllBins(sessions, step) && b.opens <= ts < b.closes
    ensures BinOpen(ts, step, Some(sessions)) == b.opens
  {
    hide SessionBins, AllBins, Bisect, BisectRight, OpenTimes;
    InAllBins(sessions, step, b);
    var i :| 0 <= i < |sessions| && b in SessionBins(sessions[i], step);
    BinOfSession(sessions[i], step, b);
    SessionOf(sessions, ts, i);
    FloorToBin(ts, sessions[i].open, b.opens, step);
  }

  lemma {:induction false} HeldByBin(ts: int, step: int, sessions: seq<Session>) returns (b: Bin)
    requires 0 < step && ValidCalendar(sessions) && BinOpen(ts, step, Some(sessions)) != ts
    ensures b in AllBins(sessions, step) && b.opens <= ts < b.closes
  {
    hide SessionBins, AllBins, Bisect, BisectRight, OpenTimes;
    var index := BisectRight(OpenTimes(sessions), ts) - 1;
    var session := sessions[index];
    assert session.open <= ts;
    var x := session.open + (ts - session.open) / step * step;
    DivBounds(ts - session.open, step);
    OnBin(ts - session.open, step);
    b := Bin(x, Min(x + step, session.close));
    BinOfSession(session, step, b);
    InAllBins(sessions, step, b);
  }

  lemma {:induction false} OnBin(offset: int, step: int)
    requires 0 < step && 0 <= offset
    ensures 0 <= offset / step * step && (offset / step * step) % step == 0
  {
    GridPoint(offset / step, step);
    DivBounds(offset, step);
    if offset / step < 0 { Scale(offset / step + 1, 0, step); } else { Scale(0, offset / step, step); }
  }

  lemma {:induction false} SessionOf(sessions: seq<Session>, ts: int, i: nat)
    requires ValidCalendar(sessions) && i < |sessions| && sessions[i].open <= ts < sessions[i].close
    ensures BisectRight(OpenTimes(sessions), ts) - 1 == i
  {
    assert OpenTimes(sessions)[i] == sessions[i].open;
    assert i + 1 < |sessions| ==> ts < OpenTimes(sessions)[i + 1];
  }

  lemma {:induction false} FloorToBin(ts: int, open: int, x: int, step: int)
    requires 0 < step && x <= ts < x + step && (x - open) % step == 0
    ensures open + (ts - open) / step * step == x
  {
    DivBounds(x - open, step);
    var k := (x - open) / step;
    DivUnique(ts - open, step, k);
  }

  /** The last midnight, or the last session close, up to `now`. */
  function DailyClose(now: int, sessions: Option<seq<Session>>): Option<int>
    requires sessions.Some? ==> ValidCalendar(sessions.value)
  {
    if sessions.None? then Some(now / DAY * DAY)
    else
      var latest := BisectRight(CloseTimes(sessions.value), now) - 1;
      if latest >= 0 then Some(sessions.value[latest].close) else None
  }

  /** The midnight or session close after `closedAt`; four days stand in for one the calendar does not have. */
  function NextClose(closedAt: int, sessions: Option<seq<Session>>): int
    requires sessions.Some? ==> ValidCalendar(sessions.value)
  {
    if sessions.None? then closedAt + DAY
    else
      var following := BisectRight(CloseTimes(sessions.value), closedAt);
      if following < |sessions.value| then sessions.value[following].close else closedAt + 4 * DAY
  }

  /**
   The newest daily close is the last one up to `now`: a midnight, or the close of a session; none without one.
   The next is the first one after: a midnight, or the close of a session, or four days later without one.
   */
  lemma {:induction false} ClosesAreNext(now: int, sessions: Option<seq<Session>>)
    requires sessions.Some? ==> ValidCalendar(sessions.value)
    ensures sessions.None? ==>
              var close := DailyClose(now, None);
              close.Some? && close.value % 86_400 == 0 && close.value <= now < close.value + 86_400
    ensures sessions.None? ==> NextClose(now, None) == now + 86_400
    ensures sessions.Some? ==>
              match DailyClose(now, sessions)
              case None => forall i | 0 <= i < |sessions.value| :: now < sessions.value[i].close
              case Some(close) =>
                && (exists i :: 0 <= i < |sessions.value| && sessions.value[i].close == close)
                && close <= now && forall i | 0 <= i < |sessions.value| :: sessions.value[i].close <= close || now < sessions.value[i].close
    ensures sessions.Some? ==>
              var next := NextClose(now, sessions);
              if exists i :: 0 <= i < |sessions.value| && now < sessions.value[i].close then
                && (exists i :: 0 <= i < |sessions.value| && sessions.value[i].close == next)
                && now < next && forall i | 0 <= i < |sessions.value| :: sessions.value[i].close <= now || next <= sessions.value[i].close
              else next == now + 4 * 86_400
  {
    if sessions.None? {
      DivBounds(now, DAY);
      GridPoint(now / DAY, DAY);
    } else {
      SessionCloses(now, sessions.value);
    }
  }

  lemma {:induction false} SessionCloses(now: int, sessions: seq<Session>)
    requires ValidCalendar(sessions)
    ensures match DailyClose(now, Some(sessions))
            case None => forall i | 0 <= i < |sessions| :: now < sessions[i].close
            case Some(close) =>
              && (exists i :: 0 <= i < |sessions| && sessions[i].close == close)
              && close <= now && forall i | 0 <= i < |sessions| :: sessions[i].close <= close || now < sessions[i].close
    ensures var next := NextClose(now, Some(sessions));
            if exists i :: 0 <= i < |sessions| && now < sessions[i].close then
              && (exists i :: 0 <= i < |sessions| && sessions[i].close == next)
              && now < next && forall i | 0 <= i < |sessions| :: sessions[i].close <= now || next <= sessions[i].close
            else next == now + 4 * 86_400
  {
    hide Bisect, BisectRight;
    var closes := CloseTimes(sessions);
    var k := BisectRight(closes, now);
    assert forall i | 0 <= i < |sessions| :: closes[i] == sessions[i].close;
    assert forall i, j | 0 <= i <= j < |sessions| :: closes[i] <= closes[j];
  }

  /**
   `now` lies between the newest daily close and the next one; after the last session exactly while the four
   days that stand in for another one last.
   */
  lemma {:induction false} NowIsBetweenCloses(now: int, sessions: Option<seq<Session>>)
    requires (sessions.Some? ==> ValidCalendar(sessions.value)) && DailyClose(now, sessions).Some?
    ensures var close := DailyClose(now, sessions).value;
            && close <= now
            && (now < NextClose(close, sessions) <==>
                sessions.None? || (exists i :: 0 <= i < |sessions.value| && now < sessions.value[i].close) || now < close + 4 * DAY)
  {
    if sessions.Some? {
      var closes := CloseTimes(sessions.value);
      var latest := BisectRight(closes, now) - 1;
      var close := closes[latest];
      var following := BisectRight(closes, close);
      assert latest + 1 < |closes| ==> now < closes[latest + 1];
      if following < |closes| {
        assert now < closes[following] == sessions.value[following].close;
      }
    }
  }

  /** Five days after the only session the close that stands in for the next one is over. */
  lemma {:induction false} NextCloseIsPast()
    ensures var sessions := Some([Session(0, 3600)]);
            && DailyClose(3600 + 5 * DAY, sessions) == Some(3600)
            && NextClose(3600, sessions) == 3600 + 4 * DAY
  {
    var closes := CloseTimes([Session(0, 3600)]);
    assert closes[0] == 3600;
  }
}
