/** Timeframes, trading sessions and their bins. */
module Sessions {
  import opened Options
  import opened Arithmetic

  datatype Timeframe = M1 | M5 | M15 | M30 | H1 | H4 | D1 {
    function Seconds(): (r: int)
      ensures 0 < r
    {
      match this
      case M1 => 60
      case M5 => 300
      case M15 => 900
      case M30 => 1800
      case H1 => 3600
      case H4 => 14400
      case D1 => 86400
    }

    /** The longer timeframes, shortest first. */
    function Larger(): seq<Timeframe> {
      match this
      case M1 => [M5, M15, M30, H1, H4, D1]
      case M5 => [M15, M30, H1, H4, D1]
      case M15 => [M30, H1, H4, D1]
      case M30 => [H1, H4, D1]
      case H1 => [H4, D1]
      case H4 => [D1]
      case D1 => []
    }
  }

  datatype Session = Session(open: int, close: int)

  datatype Bin = Bin(opens: int, closes: int)

  /** Sessions in order, none overlapping, each open for a while. */
  predicate ValidCalendar(sessions: seq<Session>) {
    && (forall i | 0 <= i < |sessions| :: sessions[i].open < sessions[i].close)
    && (forall i, j | 0 <= i < j < |sessions| :: sessions[i].close <= sessions[j].open)
  }

  lemma {:induction false} CalendarTail(sessions: seq<Session>)
    requires ValidCalendar(sessions) && sessions != []
    ensures ValidCalendar(sessions[1..])
    ensures forall i | 0 <= i < |sessions[1..]| :: sessions[0].close <= sessions[1..][i].open
  {
  }

  // ---------- bins ----------

  function BinsAt(opens: seq<int>, close: int, step: int): seq<Bin> {
    if opens == [] then []
    else [Bin(opens[0], Min(opens[0] + step, close))] + BinsAt(opens[1..], close, step)
  }

  /** The candles of a session: aligned to its open, the last one cut at its close. */
  function SessionBins(session: Session, step: int): seq<Bin>
    requires 0 < step
  {
    BinsAt(Range(session.open, session.close, step), session.close, step)
  }

  /** Every bin of the calendar, in order. */
  function AllBins(sessions: seq<Session>, step: int): seq<Bin>
    requires 0 < step
  {
    if sessions == [] then [] else SessionBins(sessions[0], step) + AllBins(sessions[1..], step)
  }

  function Opens(bins: seq<Bin>): (r: seq<int>)
    ensures |r| == |bins| && forall i | 0 <= i < |r| :: r[i] == bins[i].opens
  {
    seq(|bins|, i requires 0 <= i < |bins| => bins[i].opens)
  }

  /** Bins one after another, each of them open for a while. */
  predicate Tiled(bins: seq<Bin>) {
    && (forall i | 0 <= i < |bins| :: bins[i].opens < bins[i].closes)
    && (forall i, j | 0 <= i < j < |bins| :: bins[i].closes <= bins[j].opens)
  }

  lemma {:induction false} BinsAtOpens(opens: seq<int>, close: int, step: int)
    ensures Opens(BinsAt(opens, close, step)) == opens
    ensures forall i | 0 <= i < |opens| :: BinsAt(opens, close, step)[i] == Bin(opens[i], Min(opens[i] + step, close))
  {
    if opens != [] {
      BinsAtOpens(opens[1..], close, step);
      var r := BinsAt(opens, close, step);
      forall i | 0 <= i < |r| ensures i < |opens| && r[i] == Bin(opens[i], Min(opens[i] + step, close)) {
        if i > 0 { assert r[i] == BinsAt(opens[1..], close, step)[i - 1]; }
      }
    }
  }

  /** A session's bins partition it: they tile it, and lie inside it. */
  lemma {:induction false} SessionBinsTile(session: Session, step: int)
    requires 0 < step
    ensures var bins := SessionBins(session, step);
            && Tiled(bins)
            && Opens(bins) == Range(session.open, session.close, step)
            && (forall i | 0 <= i < |bins| :: session.open <= bins[i].opens && bins[i].closes <= session.close)
  {
    hide Range, BinsAt;
    var opens := Range(session.open, session.close, step);
    BinsAtOpens(opens, session.close, step);
    forall i, j | 0 <= i < j < |opens| ensures opens[i] + step <= opens[j] {
      PointsApart(session.open, session.close, step, i, j);
    }
  }

  /**
   The bins of a session cover it from its open to its close without a break: each opens where the one before
   closes, all but the last are a step long, and the last is cut at the session's close.
   */
  lemma {:induction false} SessionBinsCover(session: Session, step: int)
    requires 0 < step && session.open < session.close
    ensures var bins := SessionBins(session, step);
            && bins != [] && bins[0].opens == session.open && bins[|bins| - 1].closes == session.close
            && (forall i | 0 <= i < |bins| - 1 :: bins[i].closes == bins[i].opens + step == bins[i + 1].opens)
            && bins[|bins| - 1].opens < session.close <= bins[|bins| - 1].opens + step
  {
    hide SessionBins, CeilDiv, Point, Min;
    var bins := SessionBins(session, step);
    CeilSign(session.close - session.open, step);
    forall i | 0 <= i < |bins| ensures bins[i].opens == Point(session.open, step, i) < session.close {
      SessionBinAt(session, step, i);
    }
    forall i | 0 <= i < |bins| - 1 ensures bins[i].closes == bins[i].opens + step && bins[i].closes == Point(session.open, step, i + 1) {
      assert bins[i + 1].opens < session.close;
      SessionBinAt(session, step, i);
    }
    SessionBinAt(session, step, 0);
    SessionBinAt(session, step, |bins| - 1);
    PointZero(session.open, step);
  }

  lemma {:induction false} PointZero(from: int, step: int)
    ensures Point(from, step, 0) == from
  {
  }

  /** The bin at a place, and how many there are. */
  lemma {:induction false} SessionBinAt(session: Session, step: int, i: nat)
    requires 0 < step
    ensures var bins := SessionBins(session, step);
            && |bins| == Max(0, CeilDiv(session.close - session.open, step))
            && (i < |bins| ==>
                  && bins[i].opens == Point(session.open, step, i) < session.close
                  && Point(session.open, step, i + 1) == bins[i].opens + step
                  && (bins[i].opens + step <= session.close ==> bins[i].closes == bins[i].opens + step)
                  && (session.close <= bins[i].opens + step ==> bins[i].closes == session.close)
                  && (i == |bins| - 1 ==> session.close <= bins[i].opens + step))
  {
    hide Range, BinsAt, CeilDiv;
    var opens := Range(session.open, session.close, step);
    BinsAtOpens(opens, session.close, step);
    RangeLength(session.open, session.close, step);
    if i < |opens| {
      RangeAt(session.open, session.close, step, i);
      RangeHolds(session.open, session.close, step, opens[i]);
      assert (i + 1) * step == i * step + step;
      CeilBounds(session.close - session.open, step);
    }
  }

  lemma {:induction false} PointsApart(from: int, to: int, step: int, i: nat, j: nat)
    requires 0 < step && i < j < |Range(from, to, step)|
    ensures Range(from, to, step)[i] + step <= Range(from, to, step)[j]
  {
    hide Range;
    RangeAt(from, to, step, i);
    RangeAt(from, to, step, j);
    Scale(i + 1, j, step);
    assert i * step + step == (i + 1) * step;
  }

  lemma {:induction false} TiledAppend(a: seq<Bin>, b: seq<Bin>)
    requires Tiled(a) && Tiled(b) && forall i, j | 0 <= i < |a| && 0 <= j < |b| :: a[i].closes <= b[j].opens
    ensures Tiled(a + b)
  {
  }

  lemma {:induction false} AllBinsTile(sessions: seq<Session>, step: int)
    requires 0 < step && ValidCalendar(sessions)
    ensures Tiled(AllBins(sessions, step))
    ensures forall b | b in AllBins(sessions, step) :: exists i :: 0 <= i < |sessions| && sessions[i].open <= b.opens
  {
    if sessions != [] {
      CalendarTail(sessions);
      var first, rest := SessionBins(sessions[0], step), AllBins(sessions[1..], step);
      SessionBinsTile(sessions[0], step);
      AllBinsTile(sessions[1..], step);
      forall i, j | 0 <= i < |first| && 0 <= j < |rest| ensures first[i].closes <= rest[j].opens {
        assert rest[j] in rest;
        var k :| 0 <= k < |sessions[1..]| && sessions[1..][k].open <= rest[j].opens;
      }
      TiledAppend(first, rest);
      forall b | b in AllBins(sessions, step) ensures exists i :: 0 <= i < |sessions| && sessions[i].open <= b.opens {
        if b in first {
          assert sessions[0].open <= b.opens;
        } else {
          var k :| 0 <= k < |sessions[1..]| && sessions[1..][k].open <= b.opens;
          assert sessions[k + 1].open <= b.opens;
        }
      }
    }
  }

  lemma {:induction false} TiledIncreasing(bins: seq<Bin>)
    requires Tiled(bins)
    ensures Increasing(Opens(bins))
  {
  }

  // ---------- selecting bins ----------

  /** Which bins count: opening in `[lower, end)`, and closed by `now`. */
  datatype Window = Window(lower: Option<int>, end: int, now: Option<int>) {
    predicate Admits(bin: Bin) {
      && (lower.Some? ==> lower.value <= bin.opens)
      && bin.opens < end
      && (now.Some? ==> bin.closes <= now.value)
    }
  }

  function Select(bins: seq<Bin>, w: Window): (r: seq<Bin>)
    ensures forall b :: b in r <==> b in bins && w.Admits(b)
  {
    if bins == [] then [] else (if w.Admits(bins[0]) then [bins[0]] else []) + Select(bins[1..], w)
  }

  lemma {:induction false} SelectAppend(a: seq<Bin>, b: seq<Bin>, w: Window)
    ensures Select(a + b, w) == Select(a, w) + Select(b, w)
  {
    if a == [] {
      assert a + b == b;
    } else {
      assert (a + b)[1..] == a[1..] + b;
      SelectAppend(a[1..], b, w);
    }
  }

  lemma {:induction false} SelectNothing(bins: seq<Bin>, w: Window)
    requires forall b | b in bins :: !w.Admits(b)
    ensures Select(bins, w) == []
  {
    if Select(bins, w) != [] { assert Select(bins, w)[0] in Select(bins, w); }
  }

  lemma {:induction false} TiledCons(bin: Bin, bins: seq<Bin>)
    requires Tiled(bins) && bin.opens < bin.closes && forall b | b in bins :: bin.closes <= b.opens
    ensures Tiled([bin] + bins)
  {
    forall i, j | 0 <= i < j < |[bin] + bins| ensures ([bin] + bins)[i].closes <= ([bin] + bins)[j].opens {
      assert ([bin] + bins)[j] == bins[j - 1] && bins[j - 1] in bins;
    }
  }

  lemma {:induction false} SelectTiled(bins: seq<Bin>, w: Window)
    requires Tiled(bins)
    ensures Tiled(Select(bins, w))
  {
    if bins != [] {
      SelectTiled(bins[1..], w);
      var rest := Select(bins[1..], w);
      if w.Admits(bins[0]) {
        forall b | b in rest ensures bins[0].closes <= b.opens {
          var i :| 0 <= i < |bins[1..]| && bins[1..][i] == b;
        }
        TiledCons(bins[0], rest);
      } else {
        assert Select(bins, w) == rest;
      }
    }
  }

  /** Without a clock, selecting bins is selecting their opens. */
  lemma {:induction false} SelectOpens(bins: seq<Bin>, lo: int, hi: int)
    ensures Opens(Select(bins, Window(Some(lo), hi, None))) == Within(Opens(bins), lo, hi)
  {
    if bins != [] {
      SelectOpens(bins[1..], lo, hi);
      assert Opens(bins)[1..] == Opens(bins[1..]);
      var w, rest := Window(Some(lo), hi, None), Select(bins[1..], Window(Some(lo), hi, None));
      if w.Admits(bins[0]) {
        assert Opens([bins[0]] + rest) == [bins[0].opens] + Opens(rest);
      } else {
        assert Select(bins, w) == rest;
      }
    }
  }

  /** A session that does not overlap the window has no bin in it. */
  lemma {:induction false} OutsideSession(session: Session, step: int, w: Window)
    requires 0 < step
    requires w.end <= session.open || (w.lower.Some? && session.close <= w.lower.value)
    ensures Select(SessionBins(session, step), w) == []
  {
    SessionBinsTile(session, step);
    SelectNothing(SessionBins(session, step), w);
  }

  // ---------- searching the calendar ----------

  predicate Sorted(keys: seq<int>) {
    forall i, j | 0 <= i < j < |keys| :: keys[i] <= keys[j]
  }

  /** `bisect_right`: where `x` would go after its equals. */
  function BisectRight(keys: seq<int>, x: int): (i: nat)
    requires Sorted(keys)
    ensures i <= |keys|
    ensures (forall j | 0 <= j < i :: keys[j] <= x) && (forall j | i <= j < |keys| :: x < keys[j])
  {
    Bisect(keys, x, 0, |keys|)
  }

  /** `bisect_left`: where `x` would go before its equals. */
  function BisectLeft(keys: seq<int>, x: int): (i: nat)
    requires Sorted(keys)
    ensures i <= |keys|
    ensures (forall j | 0 <= j < i :: keys[j] < x) && (forall j | i <= j < |keys| :: x <= keys[j])
  {
    Bisect(keys, x - 1, 0, |keys|)
  }

  function Bisect(keys: seq<int>, x: int, lo: nat, hi: nat): (i: nat)
    requires Sorted(keys) && lo <= hi <= |keys|
    requires (forall j | 0 <= j < lo :: keys[j] <= x) && (forall j | hi <= j < |keys| :: x < keys[j])
    ensures i <= |keys|
    ensures (forall j | 0 <= j < i :: keys[j] <= x) && (forall j | i <= j < |keys| :: x < keys[j])
    decreases hi - lo
  {
    if lo == hi then lo
    else
      var mid := (lo + hi) / 2;
      if x < keys[mid] then Bisect(keys, x, lo, mid) else Bisect(keys, x, mid + 1, hi)
  }

  function OpenTimes(sessions: seq<Session>): (r: seq<int>)
    requires ValidCalendar(sessions)
    ensures |r| == |sessions| && (forall i | 0 <= i < |r| :: r[i] == sessions[i].open) && Sorted(r)
  {
    var r := seq(|sessions|, i requires 0 <= i < |sessions| => sessions[i].open);
    assert forall i, j | 0 <= i < j < |sessions| :: sessions[i].open < sessions[i].close <= sessions[j].open;
    r
  }

  function CloseTimes(sessions: seq<Session>): (r: seq<int>)
    requires ValidCalendar(sessions)
    ensures |r| == |sessions| && (forall i | 0 <= i < |r| :: r[i] == sessions[i].close) && Sorted(r)
  {
    var r := seq(|sessions|, i requires 0 <= i < |sessions| => sessions[i].close);
    assert forall i, j | 0 <= i < j < |sessions| :: sessions[i].close <= sessions[j].open < sessions[j].close;
    r
  }

  predicate Overlaps(session: Session, start: int, end: int) {
    start < session.close && session.open < end
  }

  /** A session overlaps a period when they have a moment in common. */
  lemma {:induction false} OverlapIsCommonMoment(session: Session, start: int, end: int)
    requires session.open < session.close && start < end
    ensures Overlaps(session, start, end) <==> exists m: int :: Between(start, m, end) && Between(session.open, m, session.close)
  {
    if Overlaps(session, start, end) {
      var m := Max(start, session.open);
      assert Between(start, m, end) && Between(session.open, m, session.close);
    }
  }

  predicate Between(from: int, moment: int, to: int) {
    from <= moment < to
  }

  function Overlapping(sessions: seq<Session>, start: int, end: int): seq<Session> {
    if sessions == [] then []
    else (if Overlaps(sessions[0], start, end) then [sessions[0]] else []) + Overlapping(sessions[1..], start, end)
  }

  lemma {:induction false} OverlappingAppend(a: seq<Session>, b: seq<Session>, start: int, end: int)
    ensures Overlapping(a + b, start, end) == Overlapping(a, start, end) + Overlapping(b, start, end)
  {
    hide Overlaps;
    if a == [] {
      assert a + b == b;
    } else {
      var first := if Overlaps(a[0], start, end) then [a[0]] else [];
      OverlappingAppend(a[1..], b, start, end);
      assert (a + b)[0] == a[0] && (a + b)[1..] == a[1..] + b;
      assert Overlapping(a + b, start, end) == first + Overlapping(a[1..] + b, start, end);
      assert Overlapping(a, start, end) == first + Overlapping(a[1..], start, end);
    }
  }

  lemma {:induction false} NoneOverlapping(sessions: seq<Session>, start: int, end: int)
    requires forall i | 0 <= i < |sessions| :: !Overlaps(sessions[i], start, end)
    ensures Overlapping(sessions, start, end) == []
  {
    if sessions != [] { NoneOverlapping(sessions[1..], start, end); }
  }

  lemma {:induction false} OneOverlapping(session: Session, start: int, end: int)
    ensures Overlapping([session], start, end) == if Overlaps(session, start, end) then [session] else []
  {
    assert [session][1..] == [];
  }

  /** Skips to the first session that can overlap and stops at the first that no longer does. */
  method SessionsBetween(sessions: seq<Session>, start: int, end: int) returns (found: seq<Session>)
    requires ValidCalendar(sessions)
    ensures found == Overlapping(sessions, start, end)
  {
    hide Bisect, BisectRight, CloseTimes, Overlapping;
    var first := BisectRight(CloseTimes(sessions), start);
    found := [];
    var i := first;
    NoneOverlapping(sessions[..first], start, end);
    while i < |sessions|
      invariant first <= i <= |sessions|
      invariant found == Overlapping(sessions[..i], start, end)
    {
      var session := sessions[i];
      if session.open >= end {
        break;
      }
      OverlappingAppend(sessions[..i], [session], start, end);
      OneOverlapping(session, start, end);
      assert sessions[..i + 1] == sessions[..i] + [session];
      found := found + [session];
      i := i + 1;
    }
    NoneOverlapping(sessions[i..], start, end);
    OverlappingAppend(sessions[..i], sessions[i..], start, end);
    assert sessions == sessions[..i] + sessions[i..];
  }

  /** Skipping the sessions that do not overlap loses no bin of the window. */
  lemma {:induction false} SkippingLosesNoBin(sessions: seq<Session>, step: int, start: int, end: int, now: Option<int>)
    requires 0 < step
    ensures Select(AllBins(Overlapping(sessions, start, end), step), Window(Some(start), end, now)) ==
            Select(AllBins(sessions, step), Window(Some(start), end, now))
  {
    if sessions != [] {
      var w, rest := Window(Some(start), end, now), Overlapping(sessions[1..], start, end);
      SkippingLosesNoBin(sessions[1..], step, start, end, now);
      SelectAppend(SessionBins(sessions[0], step), AllBins(sessions[1..], step), w);
      if Overlaps(sessions[0], start, end) {
        assert ([sessions[0]] + rest)[1..] == rest;
        SelectAppend(SessionBins(sessions[0], step), AllBins(rest, step), w);
      } else {
        OutsideSession(sessions[0], step, w);
        assert Overlapping(sessions, start, end) == rest;
      }
    }
  }
}
