/**
 Trades follow the signal: none starts without a change to its side, none outlives that signal, and a
 stop is followed by nothing but a later change. `EngineOpenings` has the converse.
 */
module EngineSignals {
  import opened Engine
  import opened EngineLedger

  /** Rows between a decision and its fill. */
  function Lag(s: Settings): nat {
    if s.fill.NextOpen? then 1 else 0
  }

  /** The signal is `side` on the rows of `[from, to)`. */
  predicate Steady(candles: seq<Candle>, side: int, from: nat, to: int) {
    to <= |candles| && forall j | from <= j < to :: candles[j].signal == side
  }

  /** The signal changed to `side` on `signalRow`, and the position opened as soon as it could. */
  predicate Backed(candles: seq<Candle>, s: Settings, signalRow: nat, openRow: nat, side: int) {
    && 1 <= signalRow && openRow == signalRow + Lag(s) < |candles|
    && candles[signalRow].signal == side != candles[signalRow - 1].signal
  }

  predicate TradeBacked(candles: seq<Candle>, s: Settings, t: Trade) {
    && Backed(candles, s, t.signalRow, t.openRow, t.side)
    && t.openRow <= t.closeRow < |candles|
    && Steady(candles, t.side, t.signalRow, SignalTo(s, t.closeRow, t.reason))
    && (t.reason.BySignal? ==> candles[t.closeRow - Lag(s)].signal != t.side)
  }

  /** Up to where a trade's signal is told by its close: a stop comes before its row's signal, the rest after it. */
  function SignalTo(s: Settings, closeRow: nat, reason: Reason): int {
    match reason
    case BySignal => closeRow - Lag(s)
    case ByStop => closeRow
    case ByGap => closeRow
    case _ => closeRow + 1 - Lag(s)
  }

  predicate TradesBacked(candles: seq<Candle>, s: Settings, ts: seq<Trade>) {
    forall i | 0 <= i < |ts| :: TradeBacked(candles, s, ts[i])
  }

  /** The trade after a stopped one was decided on the row of the stop or later. */
  predicate StopsRespected(ts: seq<Trade>) {
    forall i | 0 <= i < |ts| - 1 :: ts[i].reason in {ByStop, ByGap} ==> ts[i].closeRow <= ts[i + 1].signalRow
  }

  /** Between orders: the open position's signal has not changed on the rows before `to`. */
  predicate Following(b: Book, candles: seq<Candle>, s: Settings, to: nat) {
    && TradesBacked(candles, s, b.trades)
    && StopsRespected(Ledger(b, to))
    && (b.side != 0 ==>
          Backed(candles, s, b.signalRow, b.entryRow, b.side) && Steady(candles, b.side, b.signalRow, to))
  }

  predicate ClosedBy(b: Book, row: nat) {
    forall i | 0 <= i < |b.trades| :: b.trades[i].closeRow <= row
  }

  /** The invariant between rows, while the run is not halted. */
  predicate Live(c: Cursor, candles: seq<Candle>, s: Settings, k: nat) {
    && k <= |candles|
    && (candles != [] ==> c.previous == candles[if k == 0 then 0 else k - 1].signal)
    && (c.pending.None? ==> Following(c.book, candles, s, k))
    && (c.pending.Some? ==>
          && s.fill.NextOpen? && 2 <= k
          && c.pending.value == candles[k - 1].signal != candles[k - 2].signal
          && Following(c.book, candles, s, k - 1)
          && (c.book.side != 0 ==> c.book.signalRow < k - 1))
    && (c.book.side != 0 ==> c.book.entryRow < k)
    && (forall i | 0 <= i < |c.book.trades| :: c.book.trades[i].closeRow < k)
  }

  lemma {:induction false} ClosedFollows(b: Book, candles: seq<Candle>, s: Settings, row: nat, price: real, reason: Reason, to: nat)
    requires Sound(b) && b.side != 0 && Following(b, candles, s, to) && ClosedBy(b, row)
    requires b.entryRow <= row < |candles| && SignalTo(s, row, reason) <= to
    requires reason.BySignal? ==> to == row - Lag(s) && candles[to].signal != b.side
    ensures Following(Closed(b, s, row, price, reason), candles, s, to)
    ensures ClosedBy(Closed(b, s, row, price, reason), row)
  {
    hide ReturnOf, FeesOf, Slipped;
    var r := Closed(b, s, row, price, reason);
    var ledger := Ledger(b, to);
    forall i | 0 <= i < |r.trades| - 1
      ensures r.trades[i].reason in {ByStop, ByGap} ==> r.trades[i].closeRow <= r.trades[i + 1].signalRow
    {
      assert r.trades[i] == ledger[i] && r.trades[i + 1].signalRow == ledger[i + 1].signalRow;
    }
  }

  lemma {:induction false} OpenedFollows(b: Book, candles: seq<Candle>, s: Settings, row: nat, signalRow: nat, price: real, side: int, to: nat)
    requires ValidSettings(s) && Sound(b) && b.side == 0 && 0.0 < price && -1 <= side <= 1 && side != 0
    requires TradesBacked(candles, s, b.trades) && StopsRespected(b.trades)
    requires forall i | 0 <= i < |b.trades| :: b.trades[i].reason in {ByStop, ByGap} ==> b.trades[i].closeRow <= signalRow
    requires Backed(candles, s, signalRow, row, side) && Steady(candles, side, signalRow, to)
    ensures Following(Opened(b, s, row, signalRow, price, side), candles, s, to)
  {
    hide Slipped, StopLevel;
  }

  /** Filling an order decided on `signalRow`. */
  lemma {:induction false} FilledFollows(b: Book, candles: seq<Candle>, s: Settings, row: nat, price: real, mayOpen: bool)
    requires ValidSettings(s) && Sound(b) && 0.0 < price && ValidCandles(candles)
    requires 0 <= row - Lag(s) < |candles| && row < |candles| && 1 <= row - Lag(s)
    requires var d := row - Lag(s);
             && Following(b, candles, s, d) && ClosedBy(b, row)
             && candles[d].signal != candles[d - 1].signal
             && (b.side != 0 ==> b.signalRow < d && b.entryRow <= row)
             && (forall i | 0 <= i < |b.trades| :: b.trades[i].reason in {ByStop, ByGap} ==> b.trades[i].closeRow <= d)
    ensures var r := Filled(b, s, row, row - Lag(s), price, candles[row - Lag(s)].signal, mayOpen);
            Following(r, candles, s, row - Lag(s) + 1) && ClosedBy(r, row)
            && (r.side != 0 ==> r.entryRow == row)
  {
    hide Closed, Opened, DrawnDown, Following, ClosedBy, TradesBacked, StopsRespected;
    var d := row - Lag(s);
    var signal := candles[d].signal;
    var c := b;
    if b.side != 0 {
      SteadyBefore(b, candles, s, d);
      ClosedFollows(b, candles, s, row, price, BySignal, d);
      ClosedBySignal(b, s, row, price);
      c := Closed(b, s, row, price, BySignal);
    }
    StopsOfFlat(c, candles, s, d);
    StaysFlat(c, candles, s, d);
    if signal != 0 && !c.halted {
      OpenedFollows(c, candles, s, row, d, price, signal, d + 1);
      OpenedBy(c, s, row, d, price, signal);
    }
  }

  lemma {:induction false} SteadyBefore(b: Book, candles: seq<Candle>, s: Settings, d: nat)
    requires Following(b, candles, s, d) && b.side != 0 && b.signalRow < d <= |candles|
    ensures candles[d - 1].signal == b.side
  {
    hide TradesBacked, StopsRespected;
  }

  lemma {:induction false} ClosedBySignal(b: Book, s: Settings, row: nat, price: real)
    requires Sound(b) && b.side != 0
    ensures var ts := Closed(b, s, row, price, BySignal).trades;
            ts[..|ts| - 1] == b.trades && ts[|ts| - 1].reason == BySignal && |ts| == |b.trades| + 1
  {
    hide ReturnOf, FeesOf, Slipped;
  }

  /** A flat book follows the signal wherever it goes. */
  lemma {:induction false} StaysFlat(b: Book, candles: seq<Candle>, s: Settings, to: nat)
    requires b.side == 0 && Following(b, candles, s, to)
    ensures forall later: nat :: Following(b, candles, s, later)
  {
  }

  lemma {:induction false} OpenedBy(b: Book, s: Settings, row: nat, signalRow: nat, price: real, side: int)
    requires ValidSettings(s) && Sound(b) && b.side == 0 && 0.0 < price && -1 <= side <= 1 && side != 0
    ensures var r := Opened(b, s, row, signalRow, price, side); r.trades == b.trades && r.entryRow == row
    ensures ClosedBy(b, row) ==> ClosedBy(Opened(b, s, row, signalRow, price, side), row)
  {
    hide Slipped, StopLevel;
  }

  lemma {:induction false} StopCheckedFollows(b: Book, candles: seq<Candle>, s: Settings, row: nat, to: nat)
    requires Sound(b) && ValidCandles(candles) && row < |candles| && row <= to && Following(b, candles, s, to) && ClosedBy(b, row)
    requires b.side != 0 ==> b.entryRow <= row
    ensures var r := StopChecked(b, s, row, candles[row]);
            Following(r, candles, s, to) && ClosedBy(r, row)
            && (r.side != 0 ==> r == b)
  {
    hide Closed, Following, ClosedBy;
    if b.stop.Some? {
      ClosedFollows(b, candles, s, row, candles[row].open, ByGap, to);
      ClosedFollows(b, candles, s, row, b.stop.value, ByStop, to);
    }
  }

  lemma {:induction false} RecordedFollows(b: Book, candles: seq<Candle>, s: Settings, row: nat, to: nat)
    requires Sound(b) && ValidCandles(candles) && row < |candles| && row == |b.position| == |b.equity|
    requires row + 1 - Lag(s) <= to && Following(b, candles, s, to) && ClosedBy(b, row)
    requires b.side != 0 ==> b.entryRow <= row
    ensures var r := Recorded(b, s, row, candles[row].close);
            Following(r, candles, s, to) && ClosedBy(r, row)
            && (r.side != 0 ==> b.side != 0 && r.entryRow == b.entryRow && r.signalRow == b.signalRow)
  {
    hide Closed, Following, ClosedBy, Worth;
    var close := candles[row].close;
    if b.side != 0 {
      ClosedFollows(b, candles, s, row, close, ByRuin, to);
    }
    var marked := Marked(b, s, row, close);
    SameTrades(b, marked, candles, s, to, row);
    if b.side != 0 { SameTrades(Closed(b, s, row, close, ByRuin), marked, candles, s, to, row); }
    if !marked.halted {
      var p := marked.(peak := if marked.equity[row] > marked.peak then marked.equity[row] else marked.peak);
      var r := DrawdownChecked(marked, s, row, close);
      SameTrades(marked, p, candles, s, to, row);
      if p.side != 0 {
        ClosedFollows(p, candles, s, row, close, ByDrawdown, to);
        SameTrades(Closed(p, s, row, close, ByDrawdown), r, candles, s, to, row);
      }
      SameTrades(p, r, candles, s, to, row);
    }
  }

  predicate SameHolding(b: Book, r: Book) {
    && r.trades == b.trades && r.side == b.side
    && (b.side != 0 ==>
          r.signalRow == b.signalRow && r.entryRow == b.entryRow && r.entryPrice == b.entryPrice && r.stop == b.stop)
  }

  lemma {:induction false} SameTrades(b: Book, r: Book, candles: seq<Candle>, s: Settings, to: nat, row: nat)
    ensures SameHolding(b, r) && Following(b, candles, s, to) ==> Following(r, candles, s, to)
    ensures SameHolding(b, r) && ClosedBy(b, row) ==> ClosedBy(r, row)
  {
    assert SameHolding(b, r) ==> Ledger(r, to) == Ledger(b, to);
  }

  lemma {:induction false} StaysSteady(b: Book, candles: seq<Candle>, s: Settings, to: nat)
    requires Following(b, candles, s, to) && to < |candles| && (b.side != 0 ==> candles[to].signal == b.side)
    ensures Following(b, candles, s, to + 1)
  {
    var l, m := Ledger(b, to), Ledger(b, to + 1);
    forall i | 0 <= i < |m| - 1 ensures m[i].reason in {ByStop, ByGap} ==> m[i].closeRow <= m[i + 1].signalRow {
      assert l[i] == m[i] && l[i + 1].signalRow == m[i + 1].signalRow;
    }
  }

  lemma {:induction false} ArrivedFollows(c: Cursor, candles: seq<Candle>, s: Settings, k: nat)
    requires ValidSettings(s) && ValidCandles(candles) && k < |candles| && Ready(c, k) && Live(c, candles, s, k)
    ensures var r := Arrived(c, s, candles[k], k);
            && Following(r, candles, s, k) && ClosedBy(r, k)
            && (r.side != 0 ==> r.entryRow <= k && r.signalRow < k)
            && (s.fill.SignalClose? && r.side != 0 ==> r.entryRow < k)
  {
    hide Filled, StopChecked, Ledger, TradesBacked, StopsRespected;
    var filled := c.book;
    if c.pending.Some? {
      filled := Filled(c.book, s, k, k - 1, candles[k].open, c.pending.value, true);
      assert k - Lag(s) == k - 1;
      FilledFollows(c.book, candles, s, k, candles[k].open, true);
    }
    assert filled.side != 0 ==> filled.entryRow <= k && filled.signalRow < k;
    assert ClosedBy(filled, k);
    StopCheckedFollows(filled, candles, s, k, k);
  }

  /** What a row's orders keep: `to` is the row up to which the position's signal is known. */
  lemma {:induction false} TradedFollows(c: Cursor, candles: seq<Candle>, s: Settings, k: nat)
    requires ValidSettings(s) && ValidCandles(candles) && k < |candles| && Ready(c, k) && Live(c, candles, s, k)
    ensures var r := Traded(c, s, candles[k], k, k == |candles| - 1);
            && Following(r.book, candles, s, if r.pending.Some? then k else k + 1)
            && ClosedBy(r.book, k)
            && (r.book.side != 0 ==> r.book.entryRow <= k)
            && (r.pending.Some? ==>
                  && s.fill.NextOpen? && 1 <= k
                  && r.pending.value == candles[k].signal != candles[k - 1].signal
                  && (r.book.side != 0 ==> r.book.signalRow < k))
  {
    hide Filled, Arrived, Ledger;
    ArrivedFollows(c, candles, s, k);
    var candle := candles[k];
    var arrived := Arrived(c, s, candle, k);
    if candle.signal == c.previous {
      assert arrived.side != 0 ==> candles[k - 1].signal == arrived.side;
      StaysSteady(arrived, candles, s, k);
    } else if s.fill.SignalClose? {
      FilledFollows(arrived, candles, s, k, candle.close, k < |candles| - 1);
    }
  }

  lemma {:induction false} StepLive(c: Cursor, candles: seq<Candle>, s: Settings, k: nat)
    requires ValidSettings(s) && ValidCandles(candles) && k < |candles| && Ready(c, k)
    requires Live(c, candles, s, k) && !c.book.halted
    ensures var r := Step(c, s, candles[k], k, k == |candles| - 1);
            Live(r, candles, s, k + 1)
  {
    hide Traded, Recorded, Following;
    TradedFollows(c, candles, s, k);
    TradedKeepsSeries(c, s, candles[k], k, k == |candles| - 1);
    var t := Traded(c, s, candles[k], k, k == |candles| - 1);
    RecordedFollows(t.book, candles, s, k, if t.pending.Some? then k else k + 1);
  }

  /** The invariant of every run; a halted one only keeps its trades. */
  lemma {:induction false} RunFollows(candles: seq<Candle>, s: Settings, k: nat)
    requires ValidCandles(candles) && ValidSettings(s) && k <= |candles|
    ensures var c := RunTo(candles, s, k);
            && (!c.book.halted ==> Live(c, candles, s, k))
            && TradesBacked(candles, s, c.book.trades) && StopsRespected(c.book.trades)
  {
    hide Step, Live;
    if k == 0 {
      StartLive(candles, s);
    } else {
      RunFollows(candles, s, k - 1);
      var c := RunTo(candles, s, k - 1);
      if c.book.halted {
        IdleKeepsTrades(c, s, candles[k - 1], k - 1, k == |candles|);
      } else {
        StepLive(c, candles, s, k - 1);
        LiveTrades(RunTo(candles, s, k), candles, s, k);
      }
    }
  }

  lemma {:induction false} StartLive(candles: seq<Candle>, s: Settings)
    requires ValidCandles(candles) && ValidSettings(s)
    ensures Live(RunTo(candles, s, 0), candles, s, 0)
  {
  }

  lemma {:induction false} IdleKeepsTrades(c: Cursor, s: Settings, candle: Candle, row: nat, isLast: bool)
    requires ValidSettings(s) && ValidCandle(candle) && Ready(c, row) && c.book.halted
    ensures var b := Step(c, s, candle, row, isLast).book; b.trades == c.book.trades && b.halted
  {
    hide Traded, Recorded;
  }

  lemma {:induction false} LiveTrades(c: Cursor, candles: seq<Candle>, s: Settings, k: nat)
    requires Live(c, candles, s, k)
    ensures TradesBacked(candles, s, c.book.trades) && StopsRespected(c.book.trades)
  {
    var to := if c.pending.Some? then k - 1 else k;
    var l, m := Ledger(c.book, to), c.book.trades;
    forall i | 0 <= i < |m| - 1 ensures m[i].reason in {ByStop, ByGap} ==> m[i].closeRow <= m[i + 1].signalRow {
      assert l[i] == m[i] && l[i + 1] == m[i + 1];
    }
  }

  /**
   Every trade of a run was decided where the signal changed to its side and opened at once; the signal
   stayed there until the trade closed, and left exactly then when it is what closed it; whatever follows a
   stop or gap was decided on that row or later.
   */
  lemma {:induction false} TradesFollowSignal(candles: seq<Candle>, s: Settings)
    requires ValidCandles(candles) && ValidSettings(s)
    ensures var b := Backtest(candles, s);
            TradesBacked(candles, s, b.trades) && StopsRespected(b.trades)
  {
    hide *;
    var n := |candles|;
    RunFollows(candles, s, n);
    RunCoherent(candles, s, n);
    var c := RunTo(candles, s, n);
    SoundOfCoherent(c.book, candles, s.fee, n);
    BacktestIs(candles, s);
    if candles != [] && c.book.side != 0 {
      var to := if c.pending.Some? then n - 1 else n;
      LiveFollows(c, candles, s, n);
      assert n - Lag(s) <= to by { LagIs(s); }
      EndCloses(c.book, candles, s, to);
    }
  }

  lemma {:induction false} LagIs(s: Settings)
    ensures Lag(s) == if s.fill.NextOpen? then 1 else 0
  {
  }

  lemma {:induction false} BacktestIs(candles: seq<Candle>, s: Settings)
    requires ValidCandles(candles) && ValidSettings(s)
    ensures var b := RunTo(candles, s, |candles|).book;
            Backtest(candles, s).trades ==
            if candles == [] || b.side == 0 then b.trades
            else Closed(b, s, |candles| - 1, candles[|candles| - 1].close, ByEnd).trades
  {
    hide RunTo, Closed;
  }

  lemma {:induction false} LiveFollows(c: Cursor, candles: seq<Candle>, s: Settings, k: nat)
    requires Live(c, candles, s, k) && 0 < k
    ensures Following(c.book, candles, s, if c.pending.Some? then k - 1 else k) && ClosedBy(c.book, k - 1)
    ensures (c.pending.Some? ==> s.fill.NextOpen?) && (c.book.side != 0 ==> c.book.entryRow < k)
  {
    hide Following;
  }

  lemma {:induction false} EndCloses(b: Book, candles: seq<Candle>, s: Settings, to: nat)
    requires ValidCandles(candles) && candles != [] && Sound(b) && b.side != 0
    requires |candles| - Lag(s) <= to && b.entryRow < |candles|
    requires Following(b, candles, s, to) && ClosedBy(b, |candles| - 1)
    ensures var ts := Closed(b, s, |candles| - 1, candles[|candles| - 1].close, ByEnd).trades;
            TradesBacked(candles, s, ts) && StopsRespected(ts)
  {
    hide Following, ClosedBy, Closed;
    ClosedFollows(b, candles, s, |candles| - 1, candles[|candles| - 1].close, ByEnd, to);
    StopsOfFlat(Closed(b, s, |candles| - 1, candles[|candles| - 1].close, ByEnd), candles, s, to);
  }

  lemma {:induction false} SoundOfCoherent(b: Book, candles: seq<Candle>, fee: real, n: nat)
    requires Coherent(b, candles, fee, n, n)
    ensures Sound(b) && (b.side != 0 ==> !b.halted)
  {
  }

  lemma {:induction false} StopsOfFlat(b: Book, candles: seq<Candle>, s: Settings, to: nat)
    requires b.side == 0 && Following(b, candles, s, to)
    ensures TradesBacked(candles, s, b.trades) && StopsRespected(b.trades)
  {
  }
}
