/**
 Assembling a candle set from cached chunks: a few chunks are resampled at a time, and the result is
 what resampling everything at once gives; no candle is lost or invented.
 */
module Assemble {
  import opened Options
  import opened Arithmetic
  import opened Sessions
  import opened Bins
  import opened Gaps
  import opened WalkBack
  import opened Resample

  const RESAMPLE_CHUNKS: nat := 12

  /** A chunk of base candles of `[start, end)`; a live one is complete up to `completeUntil`. */
  datatype Chunk = Chunk(start: int, end: int, live: bool, frame: seq<Bar>, completeUntil: int)

  function Rows(chunks: seq<Chunk>): seq<Bar> {
    if chunks == [] then [] else Rows(chunks[..|chunks| - 1]) + chunks[|chunks| - 1].frame
  }

  /** Up to when the candles of the chunks are known. */
  function AsOf(chunks: seq<Chunk>, now: int): int {
    if chunks == [] then now
    else
      var before, c := AsOf(chunks[..|chunks| - 1], now), chunks[|chunks| - 1];
      if c.live then Min(before, c.completeUntil) else before
  }

  /** The bars that open in the period. */
  function Slice(bars: seq<Bar>, start: int, end: int): seq<Bar> {
    if bars == [] then []
    else Slice(bars[..|bars| - 1], start, end) + if start <= bars[|bars| - 1].ts < end then [bars[|bars| - 1]] else []
  }

  /** The end that `ClosedOnly` goes by, cut at the close of the latest session begun. */
  function CandleEnd(ts: int, step: int, sessions: Option<seq<Session>>): int
    requires sessions.Some? ==> ValidCalendar(sessions.value)
  {
    if sessions.None? then ts + step
    else
      var i := BisectRight(OpenTimes(sessions.value), ts) - 1;
      if i < 0 then ts + step else Min(ts + step, sessions.value[i].close)
  }

  function ClosedOnly(bars: seq<Bar>, step: int, asOf: int, sessions: Option<seq<Session>>): seq<Bar>
    requires sessions.Some? ==> ValidCalendar(sessions.value)
  {
    if bars == [] then []
    else
      ClosedOnly(bars[..|bars| - 1], step, asOf, sessions)
      + if CandleEnd(bars[|bars| - 1].ts, step, sessions) <= asOf then [bars[|bars| - 1]] else []
  }

  function GridOf(step: int, sessions: Option<seq<Session>>): Grid {
    if sessions.None? then Fixed(step) else InSessions(step, sessions.value)
  }

  /** All the chunks' candles, resampled at once where they have to be. */
  function Whole(rows: seq<Bar>, step: int, resampling: bool, sessions: Option<seq<Session>>): seq<Bar>
    requires 0 < step && (sessions.Some? ==> ValidCalendar(sessions.value))
  {
    if resampling then Resampled(GridOf(step, sessions), rows) else rows
  }

  function Times(bars: seq<Bar>): set<int> {
    set i | 0 <= i < |bars| :: bars[i].ts
  }

  /** The candles are known up to `now`, or to where the live chunk that reaches least far is complete. */
  lemma {:induction false} AsOfIsEarliest(chunks: seq<Chunk>, now: int)
    ensures AsOf(chunks, now) <= now
    ensures forall i | 0 <= i < |chunks| && chunks[i].live :: AsOf(chunks, now) <= chunks[i].completeUntil
    ensures AsOf(chunks, now) == now || exists i :: 0 <= i < |chunks| && chunks[i].live && AsOf(chunks, now) == chunks[i].completeUntil
  {
    if chunks != [] {
      var before := chunks[..|chunks| - 1];
      AsOfIsEarliest(before, now);
      assert forall i | 0 <= i < |before| :: before[i] == chunks[i];
    }
  }

  /** The rows are those of the chunks, all of them. */
  lemma {:induction false} RowsHold(chunks: seq<Chunk>, b: Bar)
    ensures b in Rows(chunks) <==> exists i :: 0 <= i < |chunks| && b in chunks[i].frame
  {
    if chunks != [] {
      var before := chunks[..|chunks| - 1];
      RowsHold(before, b);
      assert forall i | 0 <= i < |before| :: before[i] == chunks[i];
    }
  }

  // ---------- what the chunks promise ----------

  predicate Spans(session: Session, moment: int) {
    session.open < moment < session.close
  }

  /** Each chunk holds its own rows in order, chunks follow each other, and no session spans where one starts. */
  predicate ValidChunks(chunks: seq<Chunk>, sessions: Option<seq<Session>>) {
    && (forall i | 0 <= i < |chunks| :: InOrder(chunks[i].frame))
    && (forall i, r | 0 <= i < |chunks| && 0 <= r < |chunks[i].frame| ::
          chunks[i].start <= chunks[i].frame[r].ts < chunks[i].end)
    && (forall i, j | 0 <= i < j < |chunks| :: chunks[i].end <= chunks[j].start)
    && (forall i | 0 <= i < |chunks| :: chunks[i].start <= chunks[i].end)
    && (sessions.Some? ==>
          forall i, j | 0 < i < |chunks| && 0 <= j < |sessions.value| :: !Spans(sessions.value[j], chunks[i].start))
  }

  lemma {:induction false} RowsAppend(a: seq<Chunk>, b: seq<Chunk>)
    ensures Rows(a + b) == Rows(a) + Rows(b)
  {
    if b == [] {
      assert a + b == a;
    } else {
      assert (a + b)[..|a + b| - 1] == a + b[..|b| - 1];
      RowsAppend(a, b[..|b| - 1]);
    }
  }

  /** The rows of some of the chunks lie between the first's start and the last's end, in order. */
  lemma {:induction false} RowsOfPart(chunks: seq<Chunk>, sessions: Option<seq<Session>>, from: nat, to: nat)
    requires ValidChunks(chunks, sessions) && from <= to <= |chunks|
    ensures var rows := Rows(chunks[from..to]);
            && InOrder(rows)
            && (forall r | 0 <= r < |rows| :: from < to && chunks[from].start <= rows[r].ts < chunks[to - 1].end)
  {
    hide Rows, InOrder, ValidChunks;
    if from == to {
      NoChunk(chunks, from);
      NoBars();
    } else {
      var before := Rows(chunks[from..to - 1]);
      RowsOfPart(chunks, sessions, from, to - 1);
      NextChunk(chunks, from, to - 1, 0);
      ChunksFollow(chunks, sessions, from, to - 1);
      InOrderJoin(before, chunks[to - 1].frame, chunks[to - 1].start);
    }
  }

  lemma {:induction false} ChunksFollow(chunks: seq<Chunk>, sessions: Option<seq<Session>>, from: nat, last: nat)
    requires ValidChunks(chunks, sessions) && from <= last < |chunks|
    ensures var c := chunks[last];
            && InOrder(c.frame) && chunks[from].start <= c.start <= c.end
            && (forall r | 0 <= r < |c.frame| :: c.start <= c.frame[r].ts < c.end)
            && (from < last ==> chunks[last - 1].end <= c.start)
  {
    hide InOrder;
    assert chunks[from].start <= chunks[from].end;
  }

  lemma {:induction false} InOrderJoin(a: seq<Bar>, b: seq<Bar>, moment: int)
    requires InOrder(a) && InOrder(b)
    requires (forall r | 0 <= r < |a| :: a[r].ts < moment) && (forall r | 0 <= r < |b| :: moment <= b[r].ts)
    ensures InOrder(a + b)
  {
  }

  // ---------- resampling part by part ----------

  lemma {:induction false} SameKeysResampleAlike(g: Grid, h: Grid, bars: seq<Bar>)
    requires g.Valid() && h.Valid() && forall i | 0 <= i < |bars| :: Key(g, bars[i].ts) == Key(h, bars[i].ts)
    ensures Resampled(g, bars) == Resampled(h, bars)
  {
    hide Key;
    if bars != [] { SameKeysResampleAlike(g, h, bars[..|bars| - 1]); }
  }

  /** Bars whose bins all open later than the ones before are resampled on their own. */
  lemma {:induction false} ResampledApart(g: Grid, a: seq<Bar>, b: seq<Bar>, moment: int)
    requires g.Valid()
    requires forall i | 0 <= i < |Resampled(g, a)| :: Resampled(g, a)[i].ts < moment
    requires forall i | 0 <= i < |b| :: Key(g, b[i].ts).Some? ==> moment <= Key(g, b[i].ts).value
    ensures Resampled(g, a + b) == Resampled(g, a) + Resampled(g, b)
  {
    hide *;
    if b == [] {
      assert a + b == a;
      NothingResampled(g);
    } else {
      var n := |b| - 1;
      var before, k := Resampled(g, b[..n]), Key(g, b[n].ts);
      ResampledApart(g, a, b[..n], moment);
      assert a + b == (a + b[..n]) + [b[n]] && b == b[..n] + [b[n]];
      ResampledAppend(g, a + b[..n], b[n]);
      ResampledAppend(g, b[..n], b[n]);
      if k.Some? { PushApart(Resampled(g, a), before, k.value, b[n]); }
    }
  }

  lemma {:induction false} NothingResampled(g: Grid)
    requires g.Valid()
    ensures Resampled(g, []) == []
  {
  }

  lemma {:induction false} PushApart(r: seq<Bar>, q: seq<Bar>, k: int, b: Bar)
    requires forall i | 0 <= i < |r| :: r[i].ts < k
    ensures Push(r + q, k, b) == r + Push(q, k, b)
  {
    if q != [] {
      assert (r + q)[..|r + q| - 1] == r + q[..|q| - 1];
    } else {
      assert r + q == r;
    }
  }

  lemma {:induction false} InOverlapping(sessions: seq<Session>, start: int, end: int, s: Session)
    ensures s in Overlapping(sessions, start, end) <==> s in sessions && Overlaps(s, start, end)
  {
    if sessions != [] { InOverlapping(sessions[1..], start, end, s); }
  }

  lemma {:induction false} OverlappingValid(sessions: seq<Session>, start: int, end: int)
    requires ValidCalendar(sessions)
    ensures ValidCalendar(Overlapping(sessions, start, end))
  {
    if sessions != [] {
      var rest := Overlapping(sessions[1..], start, end);
      CalendarTail(sessions);
      OverlappingValid(sessions[1..], start, end);
      forall s | s in rest ensures sessions[0].close <= s.open {
        InOverlapping(sessions[1..], start, end, s);
        var i :| 0 <= i < |sessions[1..]| && sessions[1..][i] == s;
      }
      CalendarCons(sessions[0], rest);
      assert Overlapping(sessions, start, end) == if Overlaps(sessions[0], start, end) then [sessions[0]] + rest else rest;
    }
  }

  lemma {:induction false} CalendarCons(s: Session, sessions: seq<Session>)
    requires ValidCalendar(sessions) && s.open < s.close && forall t | t in sessions :: s.close <= t.open
    ensures ValidCalendar([s] + sessions)
  {
    forall i, j | 0 <= i < j < |[s] + sessions| ensures ([s] + sessions)[i].close <= ([s] + sessions)[j].open {
      assert ([s] + sessions)[j] == sessions[j - 1] && sessions[j - 1] in sessions;
    }
  }

  /** Inside a period the sessions that overlap it give every moment the bin the whole calendar does. */
  lemma {:induction false} KeyWithin(step: int, sessions: seq<Session>, start: int, end: int, ts: int)
    requires 0 < step && ValidCalendar(sessions) && start <= ts < end
    ensures ValidCalendar(Overlapping(sessions, start, end))
    ensures Key(InSessions(step, Overlapping(sessions, start, end)), ts) == Key(InSessions(step, sessions), ts)
  {
    hide Key, Overlapping, Bisect, BisectRight, OpenTimes;
    OverlappingValid(sessions, start, end);
    var within := Overlapping(sessions, start, end);
    if i :| 0 <= i < |sessions| && sessions[i].open <= ts < sessions[i].close {
      InOverlapping(sessions, start, end, sessions[i]);
      var j :| 0 <= j < |within| && within[j] == sessions[i];
      KeyInSession(step, sessions, ts, i);
      KeyInSession(step, within, ts, j);
    } else {
      forall j | 0 <= j < |within| ensures !(within[j].open <= ts < within[j].close) {
        InOverlapping(sessions, start, end, within[j]);
        var i :| 0 <= i < |sessions| && sessions[i] == within[j];
      }
      KeyNowhere(step, sessions, ts);
      KeyNowhere(step, within, ts);
    }
  }

  /** Where no session spans a moment, the bins of earlier rows open before it and those of later rows after it. */
  lemma {:induction false} KeysApart(step: int, sessions: seq<Session>, ts: int, moment: int)
    requires 0 < step && ValidCalendar(sessions) && Key(InSessions(step, sessions), ts).Some?
    requires forall j | 0 <= j < |sessions| :: !Spans(sessions[j], moment)
    ensures Key(InSessions(step, sessions), ts).value < moment <==> ts < moment
  {
    hide Key;
    var i := SessionOfKey(step, sessions, ts);
    FloorFacts(ts - sessions[i].open, step);
    assert !Spans(sessions[i], moment);
  }

  lemma {:induction false} PushTimes(r: seq<Bar>, k: int, b: Bar)
    ensures forall i | 0 <= i < |Push(r, k, b)| :: Push(r, k, b)[i].ts == if i < |r| then r[i].ts else k
  {
  }

  /** Every resampled bar opens at the bin of one of the rows. */
  lemma {:induction false} ResampledFrom(g: Grid, bars: seq<Bar>, i: nat)
    requires g.Valid() && i < |Resampled(g, bars)|
    ensures exists r :: 0 <= r < |bars| && Key(g, bars[r].ts) == Some(Resampled(g, bars)[i].ts)
  {
    hide Key, Push;
    var n := |bars| - 1;
    var before, ts := Resampled(g, bars[..n]), Resampled(g, bars)[i].ts;
    if Key(g, bars[n].ts).Some? { PushTimes(before, Key(g, bars[n].ts).value, bars[n]); }
    if i < |before| {
      assert ts == before[i].ts;
      ResampledFrom(g, bars[..n], i);
      var r :| 0 <= r < n && Key(g, bars[..n][r].ts) == Some(before[i].ts);
      assert Key(g, bars[r].ts) == Some(ts);
    } else {
      assert Key(g, bars[n].ts) == Some(ts);
    }
  }

  /** One more batch, resampled on its own with the sessions that overlap it, extends the whole. */
  lemma {:induction false} BatchExtendsWhole(chunks: seq<Chunk>, step: int, sessions: seq<Session>, i: nat, j: nat)
    requires 0 < step && ValidCalendar(sessions) && ValidChunks(chunks, Some(sessions)) && i < j <= |chunks|
    ensures var within := Overlapping(sessions, chunks[i].start, chunks[j - 1].end);
            && ValidCalendar(within)
            && Resampled(InSessions(step, sessions), Rows(chunks[..j])) ==
               Resampled(InSessions(step, sessions), Rows(chunks[..i])) + Resampled(InSessions(step, within), Rows(chunks[i..j]))
  {
    hide Key, Resampled, Rows;
    var lo, hi := chunks[i].start, chunks[j - 1].end;
    var within := Overlapping(sessions, lo, hi);
    var g, h := InSessions(step, sessions), InSessions(step, within);
    var a, b := Rows(chunks[..i]), Rows(chunks[i..j]);
    OverlappingValid(sessions, lo, hi);
    RowsOfPart(chunks, Some(sessions), i, j);
    forall r | 0 <= r < |b| ensures Key(g, b[r].ts) == Key(h, b[r].ts) {
      KeyWithin(step, sessions, lo, hi, b[r].ts);
    }
    SameKeysResampleAlike(g, h, b);
    assert chunks[..j] == chunks[..i] + chunks[i..j];
    RowsAppend(chunks[..i], chunks[i..j]);
    if i == 0 {
      NoRows(chunks, g);
      assert a + b == b && Resampled(g, a) + Resampled(g, b) == Resampled(g, b);
    } else {
      EarlierBins(chunks, step, sessions, i);
      forall r | 0 <= r < |b| && Key(g, b[r].ts).Some? ensures lo <= Key(g, b[r].ts).value {
        KeysApart(step, sessions, b[r].ts, lo);
      }
      ResampledApart(g, a, b, lo);
    }
  }

  lemma {:induction false} NoRows(chunks: seq<Chunk>, g: Grid)
    requires g.Valid()
    ensures Rows(chunks[..0]) == [] && Resampled(g, []) == []
  {
  }

  lemma {:induction false} EarlierBins(chunks: seq<Chunk>, step: int, sessions: seq<Session>, i: nat)
    requires 0 < step && ValidCalendar(sessions) && ValidChunks(chunks, Some(sessions)) && 0 < i < |chunks|
    ensures var r := Resampled(InSessions(step, sessions), Rows(chunks[..i]));
            forall k | 0 <= k < |r| :: r[k].ts < chunks[i].start
  {
    hide Key, Resampled, Rows;
    var g, rows := InSessions(step, sessions), Rows(chunks[..i]);
    var r := Resampled(g, rows);
    assert chunks[0..i] == chunks[..i];
    RowsOfPart(chunks, Some(sessions), 0, i);
    forall k | 0 <= k < |r| ensures r[k].ts < chunks[i].start {
      ResampledFrom(g, rows, k);
      var m :| 0 <= m < |rows| && Key(g, rows[m].ts) == Some(r[k].ts);
      KeysApart(step, sessions, rows[m].ts, chunks[i].start);
    }
  }

  lemma {:induction false} SliceAppend(a: seq<Bar>, b: seq<Bar>, start: int, end: int)
    ensures Slice(a + b, start, end) == Slice(a, start, end) + Slice(b, start, end)
  {
    if b == [] {
      assert a + b == a;
    } else {
      assert (a + b)[..|a + b| - 1] == a + b[..|b| - 1];
      SliceAppend(a, b[..|b| - 1], start, end);
    }
  }

  // ---------- the assembly ----------

  /** The closed candles of the period, as if all the chunks had been resampled at once. */
  function Assembled(start: int, end: int, step: int, isBase: bool, chunks: seq<Chunk>, now: int, sessions: Option<seq<Session>>): seq<Bar>
    requires 0 < step && (sessions.Some? ==> ValidCalendar(sessions.value))
  {
    ClosedOnly(Slice(Whole(Rows(chunks), step, sessions.Some? && !isBase, sessions), start, end), step, AsOf(chunks, now), sessions)
  }

  lemma {:induction false} AssembledIs(start: int, end: int, step: int, isBase: bool, chunks: seq<Chunk>, now: int, sessions: Option<seq<Session>>)
    requires 0 < step && (sessions.Some? ==> ValidCalendar(sessions.value))
    ensures Assembled(start, end, step, isBase, chunks, now, sessions) ==
            ClosedOnly(Slice(Whole(Rows(chunks), step, sessions.Some? && !isBase, sessions), start, end), step, AsOf(chunks, now), sessions)
  {
  }

  lemma {:induction false} NothingYet(start: int, end: int, step: int, resampling: bool, chunks: seq<Chunk>, now: int, sessions: Option<seq<Session>>)
    requires 0 < step && (sessions.Some? ==> ValidCalendar(sessions.value))
    ensures Slice(Whole(Rows(chunks[..0]), step, resampling, sessions), start, end) == [] && AsOf(chunks[..0], now) == now
  {
  }

  lemma {:induction false} BatchesAreNotEmpty()
    ensures 0 < RESAMPLE_CHUNKS
  {
  }

  lemma {:induction false} GridIsValid(step: int, sessions: seq<Session>)
    requires 0 < step && ValidCalendar(sessions)
    ensures InSessions(step, sessions).Valid()
  {
  }

  lemma {:induction false} NoChunk(chunks: seq<Chunk>, i: nat)
    requires i <= |chunks|
    ensures Rows(chunks[i..i]) == []
  {
  }

  lemma {:induction false} NextChunk(chunks: seq<Chunk>, i: nat, k: nat, now: int)
    requires i <= k < |chunks|
    ensures Rows(chunks[i..k + 1]) == Rows(chunks[i..k]) + chunks[k].frame
    ensures AsOf(chunks[..k + 1], now) == if chunks[k].live then Min(AsOf(chunks[..k], now), chunks[k].completeUntil) else AsOf(chunks[..k], now)
  {
    assert chunks[i..k + 1][..k - i] == chunks[i..k] && chunks[i..k + 1][k - i] == chunks[k];
    assert chunks[..k + 1][..k] == chunks[..k];
  }

  /** Decodes the chunks of a batch one by one. */
  method Decode(chunks: seq<Chunk>, i: nat, j: nat, known: int, ghost now: int) returns (part: seq<Bar>, asOf: int)
    requires i <= j <= |chunks| && known == AsOf(chunks[..i], now)
    ensures part == Rows(chunks[i..j]) && asOf == AsOf(chunks[..j], now)
  {
    hide Rows, AsOf;
    part, asOf := [], known;
    NoChunk(chunks, i);
    for k := i to j
      invariant part == Rows(chunks[i..k]) && asOf == AsOf(chunks[..k], now)
    {
      NextChunk(chunks, i, k, now);
      part := part + chunks[k].frame;
      if chunks[k].live {
        asOf := Min(asOf, chunks[k].completeUntil);
      }
    }
  }

  lemma {:induction false} BatchExtendsSlice(chunks: seq<Chunk>, step: int, resampling: bool, sessions: Option<seq<Session>>, i: nat, j: nat, part: seq<Bar>, start: int, end: int)
    requires 0 < step && (sessions.Some? ==> ValidCalendar(sessions.value)) && i <= j <= |chunks|
    requires !resampling ==> part == Rows(chunks[i..j])
    requires resampling ==>
               sessions.Some? &&
               Resampled(InSessions(step, sessions.value), Rows(chunks[..j])) ==
               Resampled(InSessions(step, sessions.value), Rows(chunks[..i])) + part
    ensures Slice(Whole(Rows(chunks[..j]), step, resampling, sessions), start, end) ==
            Slice(Whole(Rows(chunks[..i]), step, resampling, sessions), start, end) + Slice(part, start, end)
  {
    hide Slice, Rows, Resampled;
    SliceAppend(Whole(Rows(chunks[..i]), step, resampling, sessions), part, start, end);
    if !resampling {
      assert chunks[..j] == chunks[..i] + chunks[i..j];
      RowsAppend(chunks[..i], chunks[i..j]);
    }
  }

  method Assemble(start: int, end: int, step: int, isBase: bool, chunks: seq<Chunk>, now: int, sessions: Option<seq<Session>>)
    returns (frame: seq<Bar>, gaps: Gaps)
    requires 0 < step && (sessions.Some? ==> ValidCalendar(sessions.value)) && ValidChunks(chunks, sessions)
    ensures frame == Assembled(start, end, step, isBase, chunks, now, sessions)
    ensures gaps == FindGaps(Times(frame), Expected(start, end, step, sessions, Some(AsOf(chunks, now))), step, sessions)
  {
    hide *;
    var asOf, resampling := now, sessions.Some? && !isBase;
    frame := [];
    var i := 0;
    NothingYet(start, end, step, resampling, chunks, now, sessions);
    while i < |chunks|
      invariant 0 <= i <= |chunks|
      invariant frame == Slice(Whole(Rows(chunks[..i]), step, resampling, sessions), start, end)
      invariant asOf == AsOf(chunks[..i], now)
      decreases |chunks| - i
    {
      BatchesAreNotEmpty();
      var j := if |chunks| < i + RESAMPLE_CHUNKS then |chunks| else i + RESAMPLE_CHUNKS;
      var part, known := Decode(chunks, i, j, asOf, now);
      if resampling {
        var within := SessionsBetween(sessions.value, chunks[i].start, chunks[j - 1].end);
        BatchExtendsWhole(chunks, step, sessions.value, i, j);
        GridIsValid(step, within);
        part := Resampled(InSessions(step, within), part);
      }
      BatchExtendsSlice(chunks, step, resampling, sessions, i, j, part, start, end);
      frame := frame + Slice(part, start, end);
      asOf := known;
      i := j;
    }
    assert chunks[..|chunks|] == chunks;
    frame := ClosedOnly(frame, step, asOf, sessions);
    AssembledIs(start, end, step, isBase, chunks, now, sessions);
    gaps := FindGaps(Times(frame), Expected(start, end, step, sessions, Some(asOf)), step, sessions);
  }

  // ---------- nothing lost, nothing invented ----------

  lemma {:induction false} SliceHolds(bars: seq<Bar>, start: int, end: int)
    requires InOrder(bars)
    ensures InOrder(Slice(bars, start, end))
    ensures forall b :: b in Slice(bars, start, end) <==> b in bars && start <= b.ts < end
  {
    if bars != [] {
      SliceHolds(bars[..|bars| - 1], start, end);
      InOrderAppend(Slice(bars[..|bars| - 1], start, end), bars);
    }
  }

  lemma {:induction false} ClosedHolds(bars: seq<Bar>, step: int, asOf: int, sessions: Option<seq<Session>>)
    requires InOrder(bars) && (sessions.Some? ==> ValidCalendar(sessions.value))
    ensures InOrder(ClosedOnly(bars, step, asOf, sessions))
    ensures forall b :: b in ClosedOnly(bars, step, asOf, sessions) <==> b in bars && CandleEnd(b.ts, step, sessions) <= asOf
  {
    hide CandleEnd;
    if bars != [] {
      ClosedHolds(bars[..|bars| - 1], step, asOf, sessions);
      InOrderAppend(ClosedOnly(bars[..|bars| - 1], step, asOf, sessions), bars);
    }
  }

  /** A part of the earlier bars and the last one are still in order. */
  lemma {:induction false} InOrderAppend(part: seq<Bar>, bars: seq<Bar>)
    requires InOrder(bars) && bars != [] && InOrder(part) && forall b | b in part :: b in bars[..|bars| - 1]
    ensures InOrder(part + [bars[|bars| - 1]])
  {
    forall i | 0 <= i < |part| ensures part[i].ts < bars[|bars| - 1].ts {
      assert part[i] in part;
      var j :| 0 <= j < |bars| - 1 && bars[j] == part[i];
    }
  }

  /** A bar on the grid that is closed by `asOf` and in the period opens at an expected bin. */
  lemma {:induction false} OnGridIsExpected(start: int, end: int, step: int, asOf: int, sessions: Option<seq<Session>>, ts: int)
    requires 0 < step && (sessions.Some? ==> ValidCalendar(sessions.value))
    requires Key(GridOf(step, sessions), ts) == Some(ts) && start <= ts < end && CandleEnd(ts, step, sessions) <= asOf
    ensures ts in Expected(start, end, step, sessions, Some(asOf))
  {
    if sessions.None? {
      DivBounds(ts, step);
      GridPoint(ts / step, step);
      FixedBinsAreTheGrid(start, end, step, Some(asOf), ts);
    } else {
      SessionBarIsExpected(start, end, step, asOf, sessions.value, ts);
    }
  }

  lemma {:induction false} SessionBarIsExpected(start: int, end: int, step: int, asOf: int, sessions: seq<Session>, ts: int)
    requires 0 < step && ValidCalendar(sessions)
    requires Key(InSessions(step, sessions), ts) == Some(ts) && start <= ts < end && CandleEnd(ts, step, Some(sessions)) <= asOf
    ensures ts in ExpectedSessions(start, end, step, sessions, Some(asOf))
  {
    hide Key, AllBins, SessionBins, Select, ExpectedSessions, BisectRight, OpenTimes;
    var i := SessionOfKey(step, sessions, ts);
    SessionOf(sessions, ts, i);
    FloorFacts(ts - sessions[i].open, step);
    var b := Bin(ts, Min(ts + step, sessions[i].close));
    BinOfSession(sessions[i], step, b);
    InAllBins(sessions, step, b);
    ExpectedSessionsAreSelected(start, end, step, sessions, Some(asOf));
    var bins := Select(AllBins(sessions, step), Window(Some(start), end, Some(asOf)));
    assert b in bins;
    var k :| 0 <= k < |bins| && bins[k] == b;
    assert Opens(bins)[k] == ts;
  }

  lemma {:induction false} TimesOfFrame(frame: seq<Bar>)
    requires InOrder(frame)
    ensures |Times(frame)| == |frame|
  {
    var ts := seq(|frame|, i requires 0 <= i < |frame| => frame[i].ts);
    Distinct(ts);
    assert (set x | x in ts) == Times(frame) by {
      forall x ensures x in Times(frame) <==> x in ts {
        if x in Times(frame) {
          var i :| 0 <= i < |frame| && frame[i].ts == x;
          assert ts[i] == x;
        }
      }
    }
  }

  /**
   Nothing is lost or invented: every returned candle opens at an expected bin of the period closed by
   the live chunk's fetch time, in order, and returned and missing candles together are the expected
   bins. Candles that are not resampled come from the source on their grid.
   */
  lemma {:induction false} AssembledAddsUp(start: int, end: int, step: int, isBase: bool, chunks: seq<Chunk>, now: int, sessions: Option<seq<Session>>)
    requires 0 < step && (sessions.Some? ==> ValidCalendar(sessions.value)) && ValidChunks(chunks, sessions)
    requires isBase || sessions.None? ==> OnGrid(GridOf(step, sessions), Rows(chunks))
    ensures var frame := Assembled(start, end, step, isBase, chunks, now, sessions);
            var expected := Expected(start, end, step, sessions, Some(AsOf(chunks, now)));
            && InOrder(frame)
            && (forall b | b in frame :: b.ts in expected)
            && |frame| + FindGaps(Times(frame), expected, step, sessions).total == |expected|
  {
    hide *;
    var g, asOf := GridOf(step, sessions), AsOf(chunks, now);
    var whole := Whole(Rows(chunks), step, sessions.Some? && !isBase, sessions);
    var sliced := Slice(whole, start, end);
    var frame, expected := ClosedOnly(sliced, step, asOf, sessions), Expected(start, end, step, sessions, Some(asOf));
    AssembledIs(start, end, step, isBase, chunks, now, sessions);
    WholeOnGrid(chunks, step, isBase, sessions);
    SliceHolds(whole, start, end);
    ClosedHolds(sliced, step, asOf, sessions);
    forall b | b in frame ensures b.ts in expected {
      var i :| 0 <= i < |whole| && whole[i] == b;
      OnGridAt(g, whole, i);
      OnGridIsExpected(start, end, step, asOf, sessions, b.ts);
    }
    ExpectedIncreasing(start, end, step, sessions, Some(asOf));
    PresentOfFrame(frame, expected);
    PresentPlusMissing(expected, Times(frame), |expected|);
    TimesOfFrame(frame);
    TotalIs(frame, expected, step, sessions);
  }

  lemma {:induction false} OnGridAt(g: Grid, bars: seq<Bar>, i: nat)
    requires g.Valid() && OnGrid(g, bars) && i < |bars|
    ensures Key(g, bars[i].ts) == Some(bars[i].ts)
  {
  }

  lemma {:induction false} TotalIs(frame: seq<Bar>, expected: seq<int>, step: int, sessions: Option<seq<Session>>)
    requires 0 < step && (sessions.Some? ==> ValidCalendar(sessions.value))
    ensures FindGaps(Times(frame), expected, step, sessions).total == CountMissing(expected, Times(frame), |expected|)
  {
  }

  lemma {:induction false} PresentOfFrame(frame: seq<Bar>, expected: seq<int>)
    requires forall b | b in frame :: b.ts in expected
    ensures (set x | x in expected[..|expected|] && x in Times(frame)) == Times(frame)
  {
    assert expected[..|expected|] == expected;
    forall x | x in Times(frame) ensures x in expected {
      var i :| 0 <= i < |frame| && frame[i].ts == x;
      assert frame[i] in frame;
    }
  }

  lemma {:induction false} WholeOnGrid(chunks: seq<Chunk>, step: int, isBase: bool, sessions: Option<seq<Session>>)
    requires 0 < step && (sessions.Some? ==> ValidCalendar(sessions.value)) && ValidChunks(chunks, sessions)
    requires isBase || sessions.None? ==> OnGrid(GridOf(step, sessions), Rows(chunks))
    ensures GridOf(step, sessions).Valid()
    ensures var whole := Whole(Rows(chunks), step, sessions.Some? && !isBase, sessions);
            InOrder(whole) && OnGrid(GridOf(step, sessions), whole)
  {
    hide Key, Resampled, Rows;
    assert chunks[0..|chunks|] == chunks;
    RowsOfPart(chunks, sessions, 0, |chunks|);
    ResampledInOrder(GridOf(step, sessions), Rows(chunks));
  }

  lemma {:induction false} CandleEndIn(ts: int, step: int, sessions: seq<Session>, i: nat)
    requires ValidCalendar(sessions) && i < |sessions| && sessions[i].open <= ts < sessions[i].close
    ensures CandleEnd(ts, step, Some(sessions)) == Min(ts + step, sessions[i].close)
  {
    hide Bisect, BisectRight, OpenTimes, Min;
    SessionOf(sessions, ts, i);
  }

  /** An expected bin opens in the period and is closed by `asOf`. */
  lemma {:induction false} ExpectedIsClosed(start: int, end: int, step: int, asOf: int, sessions: Option<seq<Session>>, ts: int)
    requires 0 < step && (sessions.Some? ==> ValidCalendar(sessions.value))
    requires ts in Expected(start, end, step, sessions, Some(asOf))
    ensures start <= ts < end && CandleEnd(ts, step, sessions) <= asOf
  {
    hide ExpectedSessions, ExpectedFixed;
    if sessions.None? {
      FixedBinsAreTheGrid(start, end, step, Some(asOf), ts);
    } else {
      ExpectedSessionIsClosed(start, end, step, asOf, sessions.value, ts);
    }
  }

  lemma {:induction false} ExpectedSessionIsClosed(start: int, end: int, step: int, asOf: int, sessions: seq<Session>, ts: int)
    requires 0 < step && ValidCalendar(sessions) && ts in ExpectedSessions(start, end, step, sessions, Some(asOf))
    ensures start <= ts < end && CandleEnd(ts, step, Some(sessions)) <= asOf
  {
    hide AllBins, SessionBins, ExpectedSessions, CandleEnd;
    ExpectedSessionsAreSelected(start, end, step, sessions, Some(asOf));
    var bins := Select(AllBins(sessions, step), Window(Some(start), end, Some(asOf)));
    var k :| 0 <= k < |Opens(bins)| && Opens(bins)[k] == ts;
    var b := bins[k];
    assert b in bins;
    InAllBins(sessions, step, b);
    var i :| 0 <= i < |sessions| && b in SessionBins(sessions[i], step);
    BinOfSession(sessions[i], step, b);
    CandleEndIn(ts, step, sessions, i);
  }

  lemma {:induction false} WholeGroups(chunks: seq<Chunk>, step: int, isBase: bool, sessions: Option<seq<Session>>)
    requires 0 < step && (sessions.Some? ==> ValidCalendar(sessions.value)) && ValidChunks(chunks, sessions)
    requires isBase || sessions.None? ==> OnGrid(GridOf(step, sessions), Rows(chunks))
    ensures GridOf(step, sessions).Valid()
    ensures Groups(GridOf(step, sessions), Rows(chunks), Whole(Rows(chunks), step, sessions.Some? && !isBase, sessions))
  {
    hide Key, Resampled, Rows, Groups;
    var g, rows := GridOf(step, sessions), Rows(chunks);
    assert chunks[0..|chunks|] == chunks;
    RowsOfPart(chunks, sessions, 0, |chunks|);
    ResampleIsGrouping(g, rows);
    if isBase || sessions.None? { OnGridUnchanged(g, rows); }
  }

  /**
   Nothing is dropped and nothing merged wrongly: an expected bin has a candle if and only if the chunks
   have rows in it, and the candle summarises exactly those rows.
   */
  lemma {:induction false} AssembledSummarises(start: int, end: int, step: int, isBase: bool, chunks: seq<Chunk>, now: int, sessions: Option<seq<Session>>)
    requires 0 < step && (sessions.Some? ==> ValidCalendar(sessions.value)) && ValidChunks(chunks, sessions)
    requires isBase || sessions.None? ==> OnGrid(GridOf(step, sessions), Rows(chunks))
    ensures GridOf(step, sessions).Valid()
    ensures var frame, g := Assembled(start, end, step, isBase, chunks, now, sessions), GridOf(step, sessions);
            && (forall k | k in Expected(start, end, step, sessions, Some(AsOf(chunks, now))) ::
                  k in Times(frame) <==> Group(g, Rows(chunks), k) != [])
            && (forall b | b in frame :: Summarises(b, Group(g, Rows(chunks), b.ts)))
  {
    hide *;
    var g, asOf, rows := GridOf(step, sessions), AsOf(chunks, now), Rows(chunks);
    var whole := Whole(rows, step, sessions.Some? && !isBase, sessions);
    var sliced := Slice(whole, start, end);
    var frame := ClosedOnly(sliced, step, asOf, sessions);
    AssembledIs(start, end, step, isBase, chunks, now, sessions);
    WholeOnGrid(chunks, step, isBase, sessions);
    WholeGroups(chunks, step, isBase, sessions);
    SliceHolds(whole, start, end);
    ClosedHolds(sliced, step, asOf, sessions);
    forall b | b in frame ensures Summarises(b, Group(g, rows, b.ts)) && Group(g, rows, b.ts) != [] {
      GroupOf(g, rows, whole, b);
    }
    forall k | k in Expected(start, end, step, sessions, Some(asOf)) ensures k in Times(frame) <==> Group(g, rows, k) != [] {
      InTimes(frame, k);
      if Group(g, rows, k) != [] {
        var b := BarOf(g, rows, whole, k);
        ExpectedIsClosed(start, end, step, asOf, sessions, k);
        assert b in frame;
      }
    }
  }

  lemma {:induction false} GroupOf(g: Grid, rows: seq<Bar>, whole: seq<Bar>, b: Bar)
    requires g.Valid() && Groups(g, rows, whole) && b in whole
    ensures Summarises(b, Group(g, rows, b.ts)) && Group(g, rows, b.ts) != []
  {
    hide Group;
    var i :| 0 <= i < |whole| && whole[i] == b;
  }

  lemma {:induction false} BarOf(g: Grid, rows: seq<Bar>, whole: seq<Bar>, k: int) returns (b: Bar)
    requires g.Valid() && Groups(g, rows, whole) && Group(g, rows, k) != []
    ensures b in whole && b.ts == k
  {
    hide Group, Summarises;
    var i :| 0 <= i < |whole| && whole[i].ts == k;
    b := whole[i];
  }

  lemma {:induction false} InTimes(frame: seq<Bar>, k: int)
    ensures k in Times(frame) <==> exists b :: b in frame && b.ts == k
  {
    if i :| 0 <= i < |frame| && frame[i].ts == k { assert frame[i] in frame; }
  }
}
