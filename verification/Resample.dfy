/**
 Resampling candles to a longer timeframe, in fixed bins or session bins. A frame is a sequence of
 bars in time order. Bars are added one by one to the bin they fall into; what that amounts to, bin
 by bin, is `ResampleIsGrouping`.
 */
module Resample {
  import opened Options
  import opened Arithmetic
  import opened Sessions
  import opened WalkBack

  datatype Bar = Bar(ts: int, open: real, high: real, low: real, close: real, volume: real)

  /** Fixed bins of `step` seconds, or the session bins of a calendar. */
  datatype Grid = Fixed(step: int) | InSessions(step: int, sessions: seq<Session>) {
    predicate Valid() {
      0 < step && (InSessions? ==> ValidCalendar(sessions))
    }
  }

  /** The open of the bin a moment falls into; `None` outside every session. */
  function Key(g: Grid, ts: int): Option<int>
    requires g.Valid()
  {
    if g.Fixed? then Some(ts / g.step * g.step)
    else
      var i := BisectRight(OpenTimes(g.sessions), ts) - 1;
      if i < 0 || g.sessions[i].close <= ts then None
      else Some(g.sessions[i].open + (ts - g.sessions[i].open) / g.step * g.step)
  }

  function MaxOf(x: real, y: real): real {
    if x < y then y else x
  }

  function MinOf(x: real, y: real): real {
    if y < x then y else x
  }

  /** A bin's bar with one more bar: the first open, the extremes, the last close, the volumes added. */
  function Merge(a: Bar, b: Bar): Bar {
    Bar(a.ts, a.open, MaxOf(a.high, b.high), MinOf(a.low, b.low), b.close, a.volume + b.volume)
  }

  function Push(r: seq<Bar>, k: int, b: Bar): seq<Bar> {
    if r != [] && r[|r| - 1].ts == k then r[..|r| - 1] + [Merge(r[|r| - 1], b)]
    else r + [b.(ts := k)]
  }

  function Resampled(g: Grid, bars: seq<Bar>): seq<Bar>
    requires g.Valid()
  {
    if bars == [] then []
    else
      var before, b := Resampled(g, bars[..|bars| - 1]), bars[|bars| - 1];
      match Key(g, b.ts)
      case None => before
      case Some(k) => Push(before, k, b)
  }

  lemma {:induction false} ResampledAppend(g: Grid, bars: seq<Bar>, b: Bar)
    requires g.Valid()
    ensures Resampled(g, bars + [b]) ==
            match Key(g, b.ts) case None => Resampled(g, bars) case Some(k) => Push(Resampled(g, bars), k, b)
  {
    assert (bars + [b])[..|bars|] == bars;
  }

  // ---------- keys ----------

  /** A moment inside a session belongs to that session's grid; one outside every session to none. */
  lemma {:induction false} KeyInSession(step: int, sessions: seq<Session>, ts: int, i: nat)
    requires 0 < step && ValidCalendar(sessions) && i < |sessions|
    requires sessions[i].open <= ts < sessions[i].close
    ensures Key(InSessions(step, sessions), ts) == Some(sessions[i].open + (ts - sessions[i].open) / step * step)
  {
    SessionOf(sessions, ts, i);
  }

  lemma {:induction false} KeyNowhere(step: int, sessions: seq<Session>, ts: int)
    requires 0 < step && ValidCalendar(sessions)
    requires forall i | 0 <= i < |sessions| :: !(sessions[i].open <= ts < sessions[i].close)
    ensures Key(InSessions(step, sessions), ts) == None
  {
  }

  lemma {:induction false} SessionOfKey(step: int, sessions: seq<Session>, ts: int) returns (i: nat)
    requires 0 < step && ValidCalendar(sessions) && Key(InSessions(step, sessions), ts).Some?
    ensures i < |sessions| && sessions[i].open <= ts < sessions[i].close
    ensures Key(InSessions(step, sessions), ts) == Some(sessions[i].open + (ts - sessions[i].open) / step * step)
  {
    i := BisectRight(OpenTimes(sessions), ts) - 1;
  }

  lemma {:induction false} FloorFacts(offset: int, step: int)
    requires 0 < step && 0 <= offset
    ensures 0 <= offset / step * step <= offset < offset / step * step + step
    ensures (offset / step * step) % step == 0
  {
    OnBin(offset, step);
    DivBounds(offset, step);
  }

  /** A bin's open falls into that bin, and is not after the moments in it. */
  lemma {:induction false} KeyOfKey(g: Grid, ts: int)
    requires g.Valid() && Key(g, ts).Some?
    ensures Key(g, ts).value <= ts < Key(g, ts).value + g.step
    ensures Key(g, Key(g, ts).value) == Key(g, ts)
  {
    hide *;
    if g.Fixed? {
      FixedKey(g, ts);
      FixedKey(g, ts / g.step * g.step);
      FloorTwice(ts, g.step);
    } else {
      GridValid(g);
      var i := SessionOfKey(g.step, g.sessions, ts);
      var open := g.sessions[i].open;
      FloorFacts(ts - open, g.step);
      FloorTwice(ts - open, g.step);
      KeyInSession(g.step, g.sessions, open + (ts - open) / g.step * g.step, i);
    }
  }

  lemma {:induction false} FloorTwice(x: int, step: int)
    requires 0 < step
    ensures (x / step * step) / step * step == x / step * step
    ensures x / step * step <= x < x / step * step + step
  {
    DivBounds(x, step);
    DivUnique(x / step * step, step, x / step);
  }

  lemma {:induction false} DivMonotone(a: int, b: int, step: int)
    requires 0 < step && a <= b
    ensures a / step * step <= b / step * step
  {
    DivBounds(a, step);
    DivBounds(b, step);
    if b / step < a / step { Scale(b / step + 1, a / step, step); } else { Scale(a / step, b / step, step); }
  }

  lemma {:induction false} KeyMonotone(g: Grid, a: int, b: int)
    requires g.Valid() && a <= b && Key(g, a).Some? && Key(g, b).Some?
    ensures Key(g, a).value <= Key(g, b).value
  {
    hide *;
    if g.Fixed? {
      FixedKey(g, a);
      FixedKey(g, b);
      DivMonotone(a, b, g.step);
    } else {
      GridValid(g);
      var i := SessionOfKey(g.step, g.sessions, a);
      var j := SessionOfKey(g.step, g.sessions, b);
      var open := g.sessions[i].open;
      if i == j {
        DivMonotone(a - open, b - open, g.step);
      } else {
        FloorFacts(a - open, g.step);
        FloorFacts(b - g.sessions[j].open, g.step);
        SessionsApart(g.sessions, i, j);
      }
    }
  }

  lemma {:induction false} FixedKey(g: Grid, ts: int)
    requires g.Valid() && g.Fixed?
    ensures 0 < g.step && Key(g, ts) == Some(ts / g.step * g.step)
  {
  }

  lemma {:induction false} GridValid(g: Grid)
    requires g.Valid() && g.InSessions?
    ensures 0 < g.step && ValidCalendar(g.sessions) && g == InSessions(g.step, g.sessions)
  {
  }

  lemma {:induction false} SessionsApart(sessions: seq<Session>, i: nat, j: nat)
    requires ValidCalendar(sessions) && i < |sessions| && j < |sessions|
    ensures i < j ==> sessions[i].close <= sessions[j].open
    ensures j < i ==> sessions[j].close <= sessions[i].open
  {
  }

  /** A bar falls into the bin that holds its time: of the UTC grid, or of the calendar, and into none otherwise. */
  lemma {:induction false} KeyIsItsBin(g: Grid, ts: int, k: int)
    requires g.Valid()
    ensures g.Fixed? ==> (Key(g, ts) == Some(k) <==> k % g.step == 0 && k <= ts < k + g.step)
    ensures g.InSessions? ==> (Key(g, ts) == Some(k) <==> exists b :: b in AllBins(g.sessions, g.step) && b.opens == k && k <= ts < b.closes)
  {
    hide *;
    if g.Fixed? {
      FixedKey(g, ts);
      FixedFloor(g.step, ts, k);
    } else {
      GridValid(g);
      if Key(g, ts) == Some(k) { var b := BinOfKey(g.step, g.sessions, ts, k); }
      if b :| b in AllBins(g.sessions, g.step) && b.opens == k && k <= ts < b.closes { KeyOfBin(g.step, g.sessions, ts, b); }
    }
  }

  lemma {:induction false} FixedFloor(step: int, ts: int, k: int)
    requires 0 < step
    ensures ts / step * step == k <==> k % step == 0 && k <= ts < k + step
  {
    DivBounds(ts, step);
    if k % step == 0 && k <= ts < k + step { FloorToBin(ts, 0, k, step); }
    DivUnique(ts / step * step, step, ts / step);
    DivBounds(ts / step * step, step);
  }

  lemma {:induction false} BinOfKey(step: int, sessions: seq<Session>, ts: int, k: int) returns (b: Bin)
    requires 0 < step && ValidCalendar(sessions) && Key(InSessions(step, sessions), ts) == Some(k)
    ensures b in AllBins(sessions, step) && b.opens == k && k <= ts < b.closes
  {
    hide Key, AllBins, SessionBins, ValidCalendar;
    var i := SessionOfKey(step, sessions, ts);
    FloorFacts(ts - sessions[i].open, step);
    b := Bin(k, Min(k + step, sessions[i].close));
    BinOfSession(sessions[i], step, b);
    InAllBins(sessions, step, b);
  }

  lemma {:induction false} KeyOfBin(step: int, sessions: seq<Session>, ts: int, b: Bin)
    requires 0 < step && ValidCalendar(sessions) && b in AllBins(sessions, step) && b.opens <= ts < b.closes
    ensures InSessions(step, sessions).Valid() && Key(InSessions(step, sessions), ts) == Some(b.opens)
  {
    hide Key, AllBins, SessionBins, ValidCalendar;
    InAllBins(sessions, step, b);
    var i :| 0 <= i < |sessions| && b in SessionBins(sessions[i], step);
    BinOfSession(sessions[i], step, b);
    KeyInSession(step, sessions, ts, i);
    FloorToBin(ts, sessions[i].open, b.opens, step);
  }

  // ---------- two steps are one ----------

  /** Falling into a bin of `g` and then of `h` is falling into a bin of `h`. */
  ghost predicate Coarsens(h: Grid, g: Grid)
    requires g.Valid() && h.Valid()
  {
    forall ts ::
      match Key(g, ts)
      case None => Key(h, ts).None?
      case Some(k) => Key(h, ts).Some? && Key(h, k) == Key(h, ts)
  }

  lemma {:induction false} FloorOfFloor(x: int, step: int, longer: int)
    requires 0 < step && 0 < longer && longer % step == 0
    ensures (x / step * step) / longer * longer == x / longer * longer
  {
    var q, m := x / longer, longer / step;
    DivBounds(x, longer);
    DivBounds(longer, step);
    assert longer == m * step;
    assert q * longer == (q * m) * step;
    DivUnique((q * m) * step, step, q * m);
    DivMonotone((q * m) * step, x, step);
    DivBounds(x, step);
    DivUnique(x / step * step, longer, q);
  }

  /** For both kinds of bins a timeframe that divides a longer one is coarsened by it. */
  lemma {:induction false} MultipleCoarsens(step: int, longer: int, sessions: Option<seq<Session>>)
    requires 0 < step && 0 < longer && longer % step == 0 && (sessions.Some? ==> ValidCalendar(sessions.value))
    ensures sessions.None? ==> Coarsens(Fixed(longer), Fixed(step))
    ensures sessions.Some? ==> Coarsens(InSessions(longer, sessions.value), InSessions(step, sessions.value))
  {
    if sessions.None? {
      forall ts ensures (ts / step * step) / longer * longer == ts / longer * longer {
        FloorOfFloor(ts, step, longer);
      }
    } else {
      forall ts
        ensures match Key(InSessions(step, sessions.value), ts)
                case None => Key(InSessions(longer, sessions.value), ts).None?
                case Some(k) =>
                  Key(InSessions(longer, sessions.value), ts).Some?
                  && Key(InSessions(longer, sessions.value), k) == Key(InSessions(longer, sessions.value), ts)
      {
        SessionCoarsens(step, longer, sessions.value, ts);
      }
    }
  }

  function Floored(open: int, ts: int, step: int): int
    requires 0 < step
  {
    open + (ts - open) / step * step
  }

  lemma {:induction false} FlooredTwice(open: int, ts: int, step: int, longer: int)
    requires 0 < step && 0 < longer && longer % step == 0 && open <= ts
    ensures open <= Floored(open, ts, step) <= ts
    ensures Floored(open, Floored(open, ts, step), longer) == Floored(open, ts, longer)
  {
    FloorFacts(ts - open, step);
    FloorOfFloor(ts - open, step, longer);
  }

  lemma {:induction false} KeyFloored(step: int, sessions: seq<Session>, ts: int, i: nat)
    requires 0 < step && ValidCalendar(sessions) && i < |sessions|
    requires sessions[i].open <= ts < sessions[i].close
    ensures InSessions(step, sessions).Valid()
    ensures Key(InSessions(step, sessions), ts) == Some(Floored(sessions[i].open, ts, step))
  {
    hide Key;
    KeyInSession(step, sessions, ts, i);
  }

  lemma {:induction false} SessionCoarsens(step: int, longer: int, sessions: seq<Session>, ts: int)
    requires 0 < step && 0 < longer && longer % step == 0 && ValidCalendar(sessions)
    ensures match Key(InSessions(step, sessions), ts)
            case None => Key(InSessions(longer, sessions), ts).None?
            case Some(k) => Key(InSessions(longer, sessions), ts).Some? && Key(InSessions(longer, sessions), k) == Key(InSessions(longer, sessions), ts)
  {
    hide Key, Floored, ValidCalendar;
    KeyAtAll(step, longer, sessions, ts);
    if Key(InSessions(step, sessions), ts).Some? {
      var i := SessionOfKey(step, sessions, ts);
      var open := sessions[i].open;
      FlooredTwice(open, ts, step, longer);
      KeyFloored(step, sessions, ts, i);
      KeyFloored(longer, sessions, ts, i);
      KeyFloored(longer, sessions, Floored(open, ts, step), i);
    }
  }

  /** Whether a moment falls into a bin at all is the same for every step. */
  lemma {:induction false} KeyAtAll(step: int, longer: int, sessions: seq<Session>, ts: int)
    requires 0 < step && 0 < longer && ValidCalendar(sessions)
    ensures Key(InSessions(step, sessions), ts).None? <==> Key(InSessions(longer, sessions), ts).None?
  {
    hide BisectRight, OpenTimes;
  }

  /** Adding two bars of a bin one after the other is adding them merged. */
  lemma {:induction false} PushMerged(r: seq<Bar>, k: int, a: Bar, b: Bar)
    ensures Push(Push(r, k, a), k, b) == Push(r, k, Merge(a, b))
  {
    var p := Push(r, k, a);
    assert p[..|p| - 1] == if r != [] && r[|r| - 1].ts == k then r[..|r| - 1] else r;
  }

  lemma {:induction false} PushCommutes(h: Grid, r: seq<Bar>, u: int, k: int, b: Bar)
    requires h.Valid() && Key(h, u) == Some(k)
    ensures Resampled(h, Push(r, u, b)) == Push(Resampled(h, r), k, b)
  {
    hide Key, Resampled, Merge;
    if r != [] && r[|r| - 1].ts == u {
      var q, m := r[..|r| - 1], r[|r| - 1];
      assert r == q + [m];
      MergeKeepsTime(m, b);
      ResampledAppend(h, q, m);
      ResampledAppend(h, q, Merge(m, b));
      PushMerged(Resampled(h, q), k, m, b);
    } else {
      ResampledAppend(h, r, b.(ts := u));
      PushForgetsTime(Resampled(h, r), k, b, u);
    }
  }

  lemma {:induction false} PushForgetsTime(r: seq<Bar>, k: int, b: Bar, u: int)
    ensures Push(r, k, b.(ts := u)) == Push(r, k, b)
  {
  }

  lemma {:induction false} MergeKeepsTime(a: Bar, b: Bar)
    ensures Merge(a, b).ts == a.ts
  {
  }

  /** Resampling to a timeframe and then to a multiple of it is resampling to the multiple at once. */
  lemma {:induction false} TwoStepsAreOne(g: Grid, h: Grid, bars: seq<Bar>)
    requires g.Valid() && h.Valid() && Coarsens(h, g)
    ensures Resampled(h, Resampled(g, bars)) == Resampled(h, bars)
  {
    hide Key, Push;
    if bars != [] {
      var n := |bars| - 1;
      var b := bars[n];
      TwoStepsAreOne(g, h, bars[..n]);
      if Key(g, b.ts).Some? {
        PushCommutes(h, Resampled(g, bars[..n]), Key(g, b.ts).value, Key(h, b.ts).value, b);
      }
    }
  }

  // ---------- volume ----------

  function Volume(bars: seq<Bar>): real {
    if bars == [] then 0.0 else Volume(bars[..|bars| - 1]) + bars[|bars| - 1].volume
  }

  /** The bars that fall into a bin at all. */
  function Kept(g: Grid, bars: seq<Bar>): seq<Bar>
    requires g.Valid()
  {
    if bars == [] then []
    else Kept(g, bars[..|bars| - 1]) + if Key(g, bars[|bars| - 1].ts).Some? then [bars[|bars| - 1]] else []
  }

  lemma {:induction false} VolumeAppend(bars: seq<Bar>, b: Bar)
    ensures Volume(bars + [b]) == Volume(bars) + b.volume
  {
    assert (bars + [b])[..|bars|] == bars;
  }

  /** Resampling conserves the volume of the bars that fall into a bin. */
  lemma {:induction false} VolumeIsConserved(g: Grid, bars: seq<Bar>)
    requires g.Valid()
    ensures Volume(Resampled(g, bars)) == Volume(Kept(g, bars))
  {
    hide Key, Push, Volume;
    if bars == [] {
      NoVolume();
    } else {
      var n := |bars| - 1;
      var b := bars[n];
      VolumeIsConserved(g, bars[..n]);
      if Key(g, b.ts).Some? {
        VolumeAppend(Kept(g, bars[..n]), b);
        PushVolume(Resampled(g, bars[..n]), Key(g, b.ts).value, b);
      } else {
        assert Kept(g, bars) == Kept(g, bars[..n]);
      }
    }
  }

  lemma {:induction false} NoVolume()
    ensures Volume([]) == 0.0
  {
  }

  lemma {:induction false} PushVolume(r: seq<Bar>, k: int, b: Bar)
    ensures Volume(Push(r, k, b)) == Volume(r) + b.volume
  {
    if r != [] && r[|r| - 1].ts == k {
      VolumeAppend(r[..|r| - 1], Merge(r[|r| - 1], b));
    } else {
      VolumeAppend(r, b.(ts := k));
    }
  }

  // ---------- valid frames ----------

  predicate InOrder(bars: seq<Bar>) {
    forall i, j | 0 <= i < j < |bars| :: bars[i].ts < bars[j].ts
  }

  /** The rules of a valid candle. */
  predicate ValidBar(b: Bar) {
    && 0.0 < b.open && 0.0 < b.high && 0.0 < b.low && 0.0 < b.close
    && b.low <= MinOf(b.open, b.close) && MaxOf(b.open, b.close) <= b.high
    && 0.0 <= b.volume
  }

  predicate ValidFrame(bars: seq<Bar>) {
    InOrder(bars) && forall i | 0 <= i < |bars| :: ValidBar(bars[i])
  }

  /** Every bar opens where a bin of the grid does. */
  predicate OnGrid(g: Grid, bars: seq<Bar>)
    requires g.Valid()
  {
    forall i | 0 <= i < |bars| :: Key(g, bars[i].ts) == Some(bars[i].ts)
  }

  lemma {:induction false} LastKey(g: Grid, bars: seq<Bar>, ts: int)
    requires g.Valid() && InOrder(bars) && forall i | 0 <= i < |bars| :: bars[i].ts < ts
    requires var r := Resampled(g, bars); r != [] ==> r[|r| - 1].ts <= ts && Key(g, r[|r| - 1].ts) == Some(r[|r| - 1].ts)
    requires Key(g, ts).Some?
    ensures var r := Resampled(g, bars); r != [] ==> r[|r| - 1].ts <= Key(g, ts).value
  {
    hide Key, Resampled;
    var r := Resampled(g, bars);
    if r != [] { KeyMonotone(g, r[|r| - 1].ts, ts); }
  }

  lemma {:induction false} PushInOrder(r: seq<Bar>, k: int, b: Bar)
    requires InOrder(r) && (r != [] ==> r[|r| - 1].ts <= k)
    ensures InOrder(Push(r, k, b))
    ensures Push(r, k, b) != [] && Push(r, k, b)[|Push(r, k, b)| - 1].ts == k
  {
  }

  /** Resampling keeps a frame in order, and puts it on the grid. */
  lemma {:induction false} ResampledInOrder(g: Grid, bars: seq<Bar>)
    requires g.Valid() && InOrder(bars)
    ensures var r := Resampled(g, bars);
            && InOrder(r) && OnGrid(g, r)
            && (r != [] ==> bars != [] && r[|r| - 1].ts <= bars[|bars| - 1].ts)
  {
    hide Key, Push, InOrder;
    if bars != [] {
      var n := |bars| - 1;
      var b, r := bars[n], Resampled(g, bars[..n]);
      EarlierBars(bars);
      ResampledInOrder(g, bars[..n]);
      if Key(g, b.ts).Some? {
        KeyOfKey(g, b.ts);
        LastKey(g, bars[..n], b.ts);
        PushInOrder(r, Key(g, b.ts).value, b);
        PushOnGrid(g, r, Key(g, b.ts).value, b);
      }
    } else {
      NoBars();
    }
  }

  lemma {:induction false} NoBars()
    ensures InOrder([])
  {
  }

  lemma {:induction false} EarlierBars(bars: seq<Bar>)
    requires InOrder(bars) && bars != []
    ensures InOrder(bars[..|bars| - 1])
    ensures var before := bars[..|bars| - 1]; forall i | 0 <= i < |before| :: before[i].ts < bars[|bars| - 1].ts
  {
  }

  lemma {:induction false} PushOnGrid(g: Grid, r: seq<Bar>, k: int, b: Bar)
    requires g.Valid() && OnGrid(g, r) && Key(g, k) == Some(k)
    ensures OnGrid(g, Push(r, k, b))
  {
    hide Key;
  }

  lemma {:induction false} MergeValid(a: Bar, b: Bar)
    requires ValidBar(a) && ValidBar(b)
    ensures ValidBar(Merge(a, b))
  {
  }

  /** A frame that keeps the rules of valid candles keeps them resampled, on the target grid. */
  lemma {:induction false} ResampledIsValid(g: Grid, bars: seq<Bar>)
    requires g.Valid() && ValidFrame(bars)
    ensures ValidFrame(Resampled(g, bars)) && OnGrid(g, Resampled(g, bars))
  {
    hide Key, ValidBar, Merge;
    ResampledInOrder(g, bars);
    if bars != [] {
      var n := |bars| - 1;
      var b, r := bars[n], Resampled(g, bars[..n]);
      ResampledIsValid(g, bars[..n]);
      if r != [] { MergeValid(r[|r| - 1], b); }
      if Key(g, b.ts).Some? { Relabelled(b, Key(g, b.ts).value); }
    }
  }

  lemma {:induction false} Relabelled(b: Bar, k: int)
    ensures ValidBar(b) ==> ValidBar(b.(ts := k))
  {
  }

  // ---------- what a resampled bar is ----------

  /** The bars that fall into the bin that opens at `k`. */
  function Group(g: Grid, bars: seq<Bar>, k: int): seq<Bar>
    requires g.Valid()
  {
    if bars == [] then []
    else Group(g, bars[..|bars| - 1], k) + if Key(g, bars[|bars| - 1].ts) == Some(k) then [bars[|bars| - 1]] else []
  }

  /** `bar` summarises `group`: its first open, its extremes, its last close and its volume. */
  predicate Summarises(bar: Bar, group: seq<Bar>) {
    && group != []
    && bar.open == group[0].open && bar.close == group[|group| - 1].close
    && (forall i | 0 <= i < |group| :: group[i].high <= bar.high && bar.low <= group[i].low)
    && (exists i :: 0 <= i < |group| && group[i].high == bar.high)
    && (exists i :: 0 <= i < |group| && group[i].low == bar.low)
    && bar.volume == Volume(group)
  }

  lemma {:induction false} SummaryGrows(a: Bar, group: seq<Bar>, b: Bar)
    requires Summarises(a, group)
    ensures Summarises(Merge(a, b), group + [b])
  {
    var longer, m := group + [b], Merge(a, b);
    VolumeAppend(group, b);
    var i :| 0 <= i < |group| && group[i].high == a.high;
    var j :| 0 <= j < |group| && group[j].low == a.low;
    assert longer[|group|] == b && longer[i] == group[i] && longer[j] == group[j];
  }

  lemma {:induction false} SummaryOfOne(b: Bar, k: int)
    ensures Summarises(b.(ts := k), [b])
  {
    var group := [b];
    VolumeAppend([], b);
    assert [] + [b] == group;
    assert group[0].high == b.high && group[0].low == b.low;
  }

  predicate Listed(r: seq<Bar>, k: int) {
    exists i :: 0 <= i < |r| && r[i].ts == k
  }

  /** `r` has one bar for each bin that has bars, in order, and it summarises exactly those. */
  ghost predicate Groups(g: Grid, bars: seq<Bar>, r: seq<Bar>)
    requires g.Valid()
  {
    && InOrder(r)
    && (forall i | 0 <= i < |r| :: Summarises(r[i], Group(g, bars, r[i].ts)))
    && (forall k :: Group(g, bars, k) != [] ==> Listed(r, k))
  }

  /** Resampling is grouping by bin and summarising each group. */
  lemma {:induction false} ResampleIsGrouping(g: Grid, bars: seq<Bar>)
    requires g.Valid() && InOrder(bars)
    ensures Groups(g, bars, Resampled(g, bars))
  {
    hide Key, Groups, Push;
    if bars == [] {
      NothingGroups(g);
    } else {
      var n := |bars| - 1;
      var b, before := bars[n], Resampled(g, bars[..n]);
      assert bars == bars[..n] + [b];
      ResampleIsGrouping(g, bars[..n]);
      ResampledInOrder(g, bars[..n]);
      match Key(g, b.ts)
      case None => OutsideGroups(g, bars[..n], b, before);
      case Some(k) => LastKey(g, bars[..n], b.ts); PushGroups(g, bars[..n], b, before, k);
    }
  }

  lemma {:induction false} NothingGroups(g: Grid)
    requires g.Valid()
    ensures Groups(g, [], [])
  {
  }

  lemma {:induction false} GroupAppend(g: Grid, bars: seq<Bar>, b: Bar, k: int)
    requires g.Valid()
    ensures Group(g, bars + [b], k) == if Key(g, b.ts) == Some(k) then Group(g, bars, k) + [b] else Group(g, bars, k)
  {
    assert (bars + [b])[..|bars|] == bars;
  }

  lemma {:induction false} OutsideGroups(g: Grid, bars: seq<Bar>, b: Bar, r: seq<Bar>)
    requires g.Valid() && Groups(g, bars, r) && Key(g, b.ts) == None
    ensures Groups(g, bars + [b], r)
  {
    hide Key, Group, Summarises, Listed;
    forall k ensures Group(g, bars + [b], k) == Group(g, bars, k) {
      GroupAppend(g, bars, b, k);
    }
  }

  lemma {:induction false} PushGroups(g: Grid, bars: seq<Bar>, b: Bar, r: seq<Bar>, k: int)
    requires g.Valid() && Groups(g, bars, r) && Key(g, b.ts) == Some(k) && (r != [] ==> r[|r| - 1].ts <= k)
    ensures Groups(g, bars + [b], Push(r, k, b))
  {
    hide Key, Group, Summarises, Merge;
    var p := Push(r, k, b);
    PushInOrder(r, k, b);
    if r != [] { MergeKeepsTime(r[|r| - 1], b); }
    forall i | 0 <= i < |p| ensures Summarises(p[i], Group(g, bars + [b], p[i].ts)) {
      GroupAppend(g, bars, b, p[i].ts);
      if i < |p| - 1 {
        assert p[i] == r[i] && p[i].ts < p[|p| - 1].ts;
      } else if r != [] && r[|r| - 1].ts == k {
        SummaryGrows(r[|r| - 1], Group(g, bars, k), b);
      } else {
        NotListed(r, k);
        SummaryOfOne(b, k);
        assert Group(g, bars, k) == [];
        assert Group(g, bars + [b], k) == [b] && p[i] == b.(ts := k);
      }
    }
    forall j | Group(g, bars + [b], j) != [] ensures Listed(p, j) {
      GroupAppend(g, bars, b, j);
      if j != k {
        var i :| 0 <= i < |r| && r[i].ts == j;
        assert p[i].ts == j;
      } else {
        assert p[|p| - 1].ts == k;
      }
    }
  }

  lemma {:induction false} NotListed(r: seq<Bar>, k: int)
    requires InOrder(r) && (r != [] ==> r[|r| - 1].ts < k)
    ensures !Listed(r, k)
  {
  }

  lemma {:induction false} PushOwn(r: seq<Bar>, b: Bar)
    requires r != [] ==> r[|r| - 1].ts < b.ts
    ensures Push(r, b.ts, b) == r + [b]
  {
  }

  /** A frame in order that is on the grid already is left as it is. */
  lemma {:induction false} OnGridUnchanged(g: Grid, bars: seq<Bar>)
    requires g.Valid() && InOrder(bars) && OnGrid(g, bars)
    ensures Resampled(g, bars) == bars
  {
    hide Key, Push;
    if bars != [] {
      var before, b := bars[..|bars| - 1], bars[|bars| - 1];
      OnGridUnchanged(g, before);
      PushOwn(before, b);
      assert bars == before + [b];
    }
  }
}
