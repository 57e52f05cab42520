/**
 The converse of following the signal: a run that goes on misses no change. It opens one position for
 every change of the signal to a side, in order, and between orders it holds what the signal says.
 */
module EngineOpenings {
  import opened Options
  import opened Engine
  import opened EngineLedger
  import opened EngineSignals
  import opened EngineDrawdown

  /** A change to a side on a row that has one after it. */
  predicate Opens(candles: seq<Candle>, row: nat)
    requires row < |candles|
  {
    1 <= row < |candles| - 1 && candles[row].signal != candles[row - 1].signal && candles[row].signal != 0
  }

  /** The rows before `to` on which the signal asks for a position. */
  function Openings(candles: seq<Candle>, to: nat): seq<nat>
    requires to <= |candles|
  {
    if to == 0 then [] else Openings(candles, to - 1) + if Opens(candles, to - 1) then [to - 1] else []
  }

  function SignalRows(ts: seq<Trade>): (r: seq<nat>)
    ensures |r| == |ts| && forall i | 0 <= i < |r| :: r[i] == ts[i].signalRow
  {
    seq(|ts|, i requires 0 <= i < |ts| => ts[i].signalRow)
  }

  /** The rows on which the positions so far were decided, the open one included. */
  function Decided(b: Book): seq<nat> {
    SignalRows(Ledger(b, 0))
  }

  /** The signal has not changed on the rows of `[from, to)` after the first. */
  predicate Unchanged(candles: seq<Candle>, from: nat, to: nat) {
    from < to <= |candles| && Steady(candles, candles[to - 1].signal, from, to)
  }

  /** The last trade was stopped, and the signal has not changed on that row or later. */
  predicate StoppedOut(b: Book, candles: seq<Candle>, to: nat) {
    && b.trades != []
    && (var t := b.trades[|b.trades| - 1];
        t.reason in {ByStop, ByGap} && 1 <= t.closeRow <= to && Unchanged(candles, t.closeRow - 1, to))
  }

  /** A decision of `signal_close` that comes with the last row, too late to open. */
  predicate ChangedLast(candles: seq<Candle>, s: Settings, to: nat) {
    s.fill.SignalClose? && 2 <= to == |candles| && candles[to - 1].signal != candles[to - 2].signal
  }

  /** The side held is the last signal, or the position is flat for one of three reasons. */
  predicate HoldsSignal(b: Book, candles: seq<Candle>, s: Settings, to: nat)
    requires 1 <= to <= |candles|
  {
    || b.side == candles[to - 1].signal
    || (b.side == 0 && (Unchanged(candles, 0, to) || StoppedOut(b, candles, to) || ChangedLast(candles, s, to)))
  }

  predicate Complete(b: Book, candles: seq<Candle>, s: Settings, to: nat) {
    1 <= to <= |candles| && Decided(b) == Openings(candles, to) && HoldsSignal(b, candles, s, to)
  }

  lemma {:induction false} OpeningsGrow(candles: seq<Candle>, j: nat, k: nat)
    requires j <= k <= |candles|
    ensures Openings(candles, j) <= Openings(candles, k)
    decreases k
  {
    if j < k { OpeningsGrow(candles, j, k - 1); }
  }

  // ---------- one row ----------

  lemma {:induction false} ClosedDecided(b: Book, s: Settings, row: nat, price: real, reason: Reason)
    requires Sound(b) && b.side != 0
    ensures var r := Closed(b, s, row, price, reason);
            && Decided(r) == Decided(b) && SignalRows(r.trades) == Decided(b)
            && r.trades != [] && r.trades[|r.trades| - 1].reason == reason && r.trades[|r.trades| - 1].closeRow == row
  {
    hide ReturnOf, FeesOf, Slipped;
    var r := Closed(b, s, row, price, reason);
    assert r.trades == b.trades + [TradeOf(b, s, row, price, reason)];
    assert SignalRows(r.trades) == SignalRows(b.trades) + [b.signalRow] == SignalRows(b.trades + [OpenTrade(b, 0)]);
  }

  lemma {:induction false} OpenedDecided(b: Book, s: Settings, row: nat, signalRow: nat, price: real, side: int)
    requires ValidSettings(s) && Sound(b) && b.side == 0 && 0.0 < price && -1 <= side <= 1 && side != 0
    ensures var r := Opened(b, s, row, signalRow, price, side);
            Decided(r) == Decided(b) + [signalRow] && r.side == side && r.halted == b.halted
  {
    hide Slipped, StopLevel;
  }

  /** An order fills unless the run halts, is refused, or ends: the position decided on row `d` is there. */
  lemma {:induction false} FilledComplete(b: Book, candles: seq<Candle>, s: Settings, row: nat, d: nat, price: real)
    requires ValidSettings(s) && ValidCandles(candles) && Sound(b) && 0.0 < price
    requires 1 <= d < |candles| && candles[d].signal != candles[d - 1].signal
    requires b.side == 0 || b.side != candles[d].signal
    requires s.fill.NextOpen? ==> d < |candles| - 1
    requires Decided(b) == Openings(candles, d)
    ensures var r := Filled(b, s, row, d, price, candles[d].signal, d < |candles| - 1);
            && Decided(r) <= Openings(candles, d + 1)
            && (r.halted || Refused(r, s) || Complete(r, candles, s, d + 1))
  {
    hide Closed, Opened, DrawnDown, Decided;
    var signal, c := candles[d].signal, b;
    if b.side != 0 {
      ClosedDecided(b, s, row, price, BySignal);
      c := Closed(b, s, row, price, BySignal);
    }
    if signal != 0 { OpenedDecided(c, s, row, d, price, signal); }
  }

  lemma {:induction false} StopCheckedComplete(b: Book, candles: seq<Candle>, s: Settings, row: nat)
    requires Sound(b) && ValidCandles(candles) && 1 <= row < |candles|
    requires Decided(b) <= Openings(candles, row) && (b.halted || Complete(b, candles, s, row))
    ensures var r := StopChecked(b, s, row, candles[row]);
            Decided(r) <= Openings(candles, row) && (r.halted || Complete(r, candles, s, row))
  {
    hide Closed, Decided, Openings;
    if b.stop.Some? {
      StoppedComplete(b, candles, s, row, candles[row].open, ByGap);
      StoppedComplete(b, candles, s, row, b.stop.value, ByStop);
    }
  }

  lemma {:induction false} StoppedComplete(b: Book, candles: seq<Candle>, s: Settings, row: nat, price: real, reason: Reason)
    requires Sound(b) && b.side != 0 && 1 <= row < |candles| && reason in {ByStop, ByGap}
    requires Decided(b) <= Openings(candles, row) && (b.halted || Complete(b, candles, s, row))
    ensures var r := Closed(b, s, row, price, reason);
            Decided(r) <= Openings(candles, row) && (r.halted || Complete(r, candles, s, row))
  {
    hide Decided, Openings;
    ClosedDecided(b, s, row, price, reason);
    var r := Closed(b, s, row, price, reason);
    assert StoppedOut(r, candles, row);
  }

  lemma {:induction false} ArrivedComplete(c: Cursor, candles: seq<Candle>, s: Settings, k: nat)
    requires ValidSettings(s) && ValidCandles(candles) && 1 <= k < |candles| && Ready(c, k)
    requires Live(c, candles, s, k) && Complete(c.book, candles, s, if c.pending.Some? then k - 1 else k)
    ensures var r := Arrived(c, s, candles[k], k);
            Decided(r) <= Openings(candles, k) && (r.halted || Complete(r, candles, s, k))
  {
    hide Filled, StopChecked, Following, Complete, Decided, Openings;
    var filled := c.book;
    CompleteDecided(c.book, candles, s, if c.pending.Some? then k - 1 else k);
    if c.pending.Some? {
      NotAtSignal(c.book, candles, s, k - 1);
      filled := Filled(c.book, s, k, k - 1, candles[k].open, c.pending.value, true);
      FilledComplete(c.book, candles, s, k, k - 1, candles[k].open);
    }
    StopCheckedComplete(filled, candles, s, k);
  }

  lemma {:induction false} CompleteDecided(b: Book, candles: seq<Candle>, s: Settings, to: nat)
    requires Complete(b, candles, s, to)
    ensures 1 <= to <= |candles| && Decided(b) == Openings(candles, to)
  {
  }

  /** A position is never at the side the signal changes to. */
  lemma {:induction false} NotAtSignal(b: Book, candles: seq<Candle>, s: Settings, d: nat)
    requires Following(b, candles, s, d) && 1 <= d < |candles| && candles[d].signal != candles[d - 1].signal
    requires b.side != 0 ==> b.signalRow < d
    ensures b.side == 0 || b.side != candles[d].signal
  {
    hide Following;
    if b.side != 0 { SteadyBefore(b, candles, s, d); }
  }

  lemma {:induction false} StaysComplete(b: Book, candles: seq<Candle>, s: Settings, to: nat)
    requires Complete(b, candles, s, to) && to < |candles| && candles[to].signal == candles[to - 1].signal
    ensures Complete(b, candles, s, to + 1)
  {
    hide Decided;
  }

  lemma {:induction false} TradedComplete(c: Cursor, candles: seq<Candle>, s: Settings, k: nat)
    requires ValidSettings(s) && ValidCandles(candles) && 1 <= k < |candles| && Ready(c, k)
    requires Live(c, candles, s, k) && Complete(c.book, candles, s, if c.pending.Some? then k - 1 else k)
    ensures var r := Traded(c, s, candles[k], k, k == |candles| - 1);
            && Decided(r.book) <= Openings(candles, k + 1)
            && (r.book.halted || Refused(r.book, s) || Complete(r.book, candles, s, if r.pending.Some? then k else k + 1))
  {
    hide Filled, Arrived, Following, Complete, Decided, Openings, Refused;
    var candle, arrived := candles[k], Arrived(c, s, candles[k], k);
    ArrivedComplete(c, candles, s, k);
    ArrivedFollows(c, candles, s, k);
    OpeningsGrow(candles, k, k + 1);
    if candle.signal == c.previous {
      if !arrived.halted { StaysComplete(arrived, candles, s, k); }
    } else if s.fill.SignalClose? {
      NotAtSignal(arrived, candles, s, k);
      if arrived.halted {
        HaltedFill(arrived, candles, s, k);
      } else {
        CompleteDecided(arrived, candles, s, k);
        FilledComplete(arrived, candles, s, k, k, candle.close);
      }
    }
  }

  /** A halted book fills no order. */
  lemma {:induction false} HaltedFill(b: Book, candles: seq<Candle>, s: Settings, k: nat)
    requires ValidSettings(s) && ValidCandles(candles) && Sound(b) && b.halted && k < |candles|
    ensures var r := Filled(b, s, k, k, candles[k].close, candles[k].signal, k < |candles| - 1);
            r.halted && Decided(r) == Decided(b)
  {
    hide Closed, Decided;
    if b.side != 0 { ClosedDecided(b, s, k, candles[k].close, BySignal); ClosedStaysHalted(b, s, k, candles[k].close, BySignal); }
  }

  lemma {:induction false} ClosedStaysHalted(b: Book, s: Settings, row: nat, price: real, reason: Reason)
    requires Sound(b) && b.side != 0 && b.halted
    ensures Closed(b, s, row, price, reason).halted
  {
    hide ReturnOf, FeesOf, Slipped;
  }

  lemma {:induction false} RecordedDecided(b: Book, s: Settings, row: nat, close: real)
    requires Sound(b) && row == |b.position| == |b.equity|
    ensures var r := Recorded(b, s, row, close);
            Decided(r) == Decided(b) && (!r.halted ==> !b.halted && r.side == b.side && r.trades == b.trades)
  {
    hide Closed, Decided, Worth;
    var marked := Marked(b, s, row, close);
    if b.side != 0 { ClosedDecided(b, s, row, close, ByRuin); }
    SameDecided(b, marked);
    if b.side != 0 { SameDecided(Closed(b, s, row, close, ByRuin), marked); }
    if !marked.halted {
      var p := marked.(peak := if marked.equity[row] > marked.peak then marked.equity[row] else marked.peak);
      var r := DrawdownChecked(marked, s, row, close);
      SameDecided(marked, p);
      SameDecided(p, r);
      if p.side != 0 {
        ClosedDecided(p, s, row, close, ByDrawdown);
        SameDecided(Closed(p, s, row, close, ByDrawdown), r);
      }
    }
  }

  lemma {:induction false} SameDecided(b: Book, r: Book)
    ensures r.trades == b.trades && r.side == b.side && r.signalRow == b.signalRow ==> Decided(r) == Decided(b)
  {
  }

  lemma {:induction false} StepComplete(c: Cursor, candles: seq<Candle>, s: Settings, k: nat)
    requires ValidSettings(s) && ValidCandles(candles) && 1 <= k < |candles| && Ready(c, k) && !c.book.halted
    requires Live(c, candles, s, k) && Complete(c.book, candles, s, if c.pending.Some? then k - 1 else k)
    requires 1.0 <= c.book.peak
    ensures var r := Step(c, s, candles[k], k, k == |candles| - 1);
            && Decided(r.book) <= Openings(candles, k + 1)
            && (r.book.halted || Complete(r.book, candles, s, if r.pending.Some? then k else k + 1))
  {
    hide Traded, Recorded, Live, Complete, Decided, Openings, Refused;
    var t := Traded(c, s, candles[k], k, k == |candles| - 1);
    TradedComplete(c, candles, s, k);
    TradedKeepsSeries(c, s, candles[k], k, k == |candles| - 1);
    RecordedDecided(t.book, s, k, candles[k].close);
    if Refused(t.book, s) { RefusedHaltsFlat(t.book, s, k, candles[k].close); }
    SameComplete(t.book, Recorded(t.book, s, k, candles[k].close), candles, s, if t.pending.Some? then k else k + 1);
  }

  lemma {:induction false} SameComplete(b: Book, r: Book, candles: seq<Candle>, s: Settings, to: nat)
    ensures Complete(b, candles, s, to) && Decided(r) == Decided(b) && r.side == b.side && r.trades == b.trades ==>
              Complete(r, candles, s, to)
  {
    hide Decided;
  }

  // ---------- a whole run ----------

  lemma {:induction false} FirstRowComplete(candles: seq<Candle>, s: Settings)
    requires ValidSettings(s) && ValidCandles(candles) && candles != []
    ensures var c := RunTo(candles, s, 1);
            && Decided(c.book) == [] && Openings(candles, 1) == [] && c.pending.None?
            && (c.book.halted || Complete(c.book, candles, s, 1))
  {
    assert RunTo(candles, s, 0) == Cursor(START, None, candles[0].signal);
  }

  lemma {:induction false} RunComplete(candles: seq<Candle>, s: Settings, k: nat)
    requires ValidSettings(s) && ValidCandles(candles) && 1 <= k <= |candles|
    ensures var c := RunTo(candles, s, k);
            && Decided(c.book) <= Openings(candles, k)
            && (c.book.halted || Complete(c.book, candles, s, if c.pending.Some? then k - 1 else k))
  {
    hide Step, Complete, Decided, Openings, Live;
    if k == 1 {
      FirstRowComplete(candles, s);
    } else {
      var c := RunTo(candles, s, k - 1);
      RunComplete(candles, s, k - 1);
      OpeningsGrow(candles, k - 1, k);
      if c.book.halted {
        IdleDecides(c, s, candles[k - 1], k - 1, k == |candles|);
      } else {
        RunFollows(candles, s, k - 1);
        PeakIsRunningPeak(candles, s, k - 1);
        StepComplete(c, candles, s, k - 1);
      }
    }
  }

  lemma {:induction false} IdleDecides(c: Cursor, s: Settings, candle: Candle, row: nat, isLast: bool)
    requires ValidSettings(s) && ValidCandle(candle) && Ready(c, row) && c.book.halted
    ensures var b := Step(c, s, candle, row, isLast).book; Decided(b) == Decided(c.book) && b.halted
  {
    hide Traded, Recorded;
  }

  /**
   While a run goes on it holds what the signal says: after a row without an order left, the side held is
   the row's signal, unless the signal has not changed yet, the last position was stopped and the signal
   has not changed since, or the change fell on the last row of `signal_close`.
   */
  lemma {:induction false} UnhaltedRunHoldsSignal(candles: seq<Candle>, s: Settings, k: nat)
    requires ValidSettings(s) && ValidCandles(candles) && 1 <= k <= |candles|
    requires !RunTo(candles, s, k).book.halted && RunTo(candles, s, k).pending.None?
    ensures HoldsSignal(RunTo(candles, s, k).book, candles, s, k)
  {
    hide RunTo, HoldsSignal;
    RunComplete(candles, s, k);
  }

  /**
   A run decides its trades on the rows where the signal changes to a side (the last row aside), in order:
   on all of them when it does not halt, and on the first of them when it does.
   */
  lemma {:induction false} OneTradePerChange(candles: seq<Candle>, s: Settings)
    requires ValidSettings(s) && ValidCandles(candles)
    ensures var rows, all := SignalRows(Backtest(candles, s).trades), Openings(candles, |candles|);
            rows <= all && (!RunTo(candles, s, |candles|).book.halted ==> rows == all)
  {
    hide RunTo, Closed, Decided, HoldsSignal, Opens;
    var n, b := |candles|, RunTo(candles, s, |candles|).book;
    RunEnds(candles, s);
    if n > 0 {
      RunComplete(candles, s, n);
      FlatDecided(Backtest(candles, s));
      if b.side != 0 { ClosedDecided(b, s, n - 1, candles[n - 1].close, ByEnd); }
      LastOpensNothing(candles);
    } else {
      StartIsFlat(candles, s);
    }
  }

  lemma {:induction false} FlatDecided(b: Book)
    ensures b.side == 0 ==> Decided(b) == SignalRows(b.trades)
  {
  }

  lemma {:induction false} LastOpensNothing(candles: seq<Candle>)
    requires candles != []
    ensures Openings(candles, |candles|) == Openings(candles, |candles| - 1)
  {
  }
}
