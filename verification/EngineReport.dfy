/**
 From the engine's trades to the reported statistics: the total return is what the trades compound
 to, the daily returns compound to the same, and the exposure is the rows the trades span.
 */
module EngineReport {
  import opened Options
  import opened Engine
  import opened EngineLedger
  import opened EngineHalting
  import opened Metrics

  // ---------- exposure ----------

  function RowsHeld(ts: seq<Trade>): int {
    if ts == [] then 0
    else RowsHeld(ts[..|ts| - 1]) + ts[|ts| - 1].closeRow - ts[|ts| - 1].openRow
  }

  /** The rows before `n` that the ledger holds, trade by trade. */
  lemma {:induction false} RowsOfLedger(ts: seq<Trade>, position: seq<int>)
    requires Ordered(ts)
    requires forall i | 0 <= i < |ts| :: ts[i].closeRow <= |position| && ts[i].side != 0
    requires forall r: nat | r < |position| :: position[r] == PositionAt(ts, r)
    ensures CountOpen(position) == RowsHeld(ts)
    decreases |ts|, |position|
  {
    if position == [] {
      if ts != [] { RowsOfLedger(ts[..|ts| - 1], position); }
    } else if ts == [] {
      RowsOfLedger(ts, position[..|position| - 1]);
    } else {
      var n := |position| - 1;
      var before, t := ts[..|ts| - 1], ts[|ts| - 1];
      if t.closeRow <= n {
        RowsOfLedger(ts, position[..n]);
      } else if t.openRow == t.closeRow {
        RowsOfLedger(before, position);
      } else {
        var shorter := before + [t.(closeRow := n)];
        OrderedReplace(before, t, t.(closeRow := n));
        forall r: nat | r < n ensures position[r] == PositionAt(shorter, r) {
          PositionAppend(before, t.(closeRow := n), r);
        }
        RowsOfLedger(shorter, position[..n]);
        assert shorter[..|shorter| - 1] == before;
      }
    }
  }

  /** The rows with a position open are the rows the trades span. */
  lemma {:induction false} ExposureIsRowsHeld(candles: seq<Candle>, s: Settings)
    requires ValidCandles(candles) && ValidSettings(s)
    ensures CountOpen(Backtest(candles, s).position) == RowsHeld(Backtest(candles, s).trades)
  {
    BacktestCoherent(candles, s);
    var b := Backtest(candles, s);
    assert Ledger(b, |candles|) == b.trades;
    RowsOfLedger(b.trades, b.position);
  }

  /** The exposure that is reported is the share of rows that the trades span. */
  lemma {:induction false} ExposureIsShareOfRowsHeld(candles: seq<Candle>, s: Settings)
    requires ValidCandles(candles) && ValidSettings(s) && candles != []
    ensures Exposure(Backtest(candles, s).position) ==
            Some(RowsHeld(Backtest(candles, s).trades) as real / |candles| as real)
  {
    hide Backtest, RowsHeld, CountOpen, Compound, MarkFactor;
    ExposureIsRowsHeld(candles, s);
    TradesDetermineSeries(candles, s);
  }

  // ---------- drawdown ----------

  /** The maximum drawdown reported of a run is the largest fall of its equity: no equity is negative. */
  lemma {:induction false} MaxDrawdownOfRun(candles: seq<Candle>, s: Settings)
    requires ValidCandles(candles) && ValidSettings(s) && candles != []
    ensures var equity := Backtest(candles, s).equity;
            |equity| == |candles| && IsLargestFall(equity, MaxDrawdown(equity).value)
  {
    hide Backtest, MaxDrawdown, IsLargestFall, Compound, MarkFactor, Between;
    TradesDetermineSeries(candles, s);
    EquityIsNotNegative(candles, s);
    MaxDrawdownIsLargestFall(Backtest(candles, s).equity);
  }

  // ---------- returns ----------

  /** The run ends with what its trades compound to: the total return of the report. */
  lemma {:induction false} TotalReturnCompounds(candles: seq<Candle>, s: Settings)
    requires ValidCandles(candles) && ValidSettings(s) && candles != []
    ensures var b := Backtest(candles, s);
            && TotalReturn(b.equity) == Some(Compound(b.trades) - 1.0)
            && b.capital == Compound(b.trades)
            && |b.position| == |candles| && b.position[|candles| - 1] == 0
  {
    hide Backtest, Compound, MarkFactor, PositionAt, EquityAt;
    BacktestCoherent(candles, s);
    TradesDetermineSeries(candles, s);
    var b, last := Backtest(candles, s), |candles| - 1;
    assert Between(b.trades, |b.trades|, last);
    assert b.trades[..|b.trades|] == b.trades;
  }

  /**
   The UTC-day returns compound to the last equity, and so to the same total as the trades, when no
   day starts from 0.
   */
  lemma {:induction false} DailyReturnsCompoundLikeTrades(candles: seq<Candle>, s: Settings)
    requires ValidCandles(candles) && ValidSettings(s) && candles != []
    ensures var b, ts := Backtest(candles, s), Times(candles);
            && |ts| == |b.equity|
            && (0.0 !in DayStarts(ts, b.equity) ==> Growth(DailyReturns(ts, b.equity)) == Compound(b.trades))
            && (0.0 in DayStarts(ts, b.equity) ==> DailyReturns(ts, b.equity) == [])
  {
    hide Backtest, Compound, MarkFactor, Between, Ordered, DayStarts, DayEnds, Growth;
    TradesDetermineSeries(candles, s);
    TotalReturnCompounds(candles, s);
    DailyReturnsCompound(Times(candles), Backtest(candles, s).equity);
  }

  function Times(candles: seq<Candle>): seq<int> {
    seq(|candles|, i requires 0 <= i < |candles| => candles[i].ts)
  }
}
