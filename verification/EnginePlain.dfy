/**
 Runs without stops and costs. The only thing that can end one early is a short whose price doubles, and
 the candles tell on which row: a run halts exactly when there is such a short.
 */
module EnginePlain {
  import opened Engine
  import opened EngineArithmetic
  import opened EngineLedger
  import opened EngineSignals
  import opened EngineHalting
  import opened EngineDrawdown
  import opened EngineStops
  import opened EngineOpenings

  /** At such a price a short opened at `entry` has lost all its capital. */
  predicate Doubled(price: real, entry: real) {
    2.0 * entry <= price
  }

  /**
   On `row` the short decided on row `i` is worth nothing for the first time: at the row's close, or, when
   the signal left it there, at the price that closes it. Told from the candles alone.
   */
  predicate RuinedOn(candles: seq<Candle>, fill: FillMode, i: nat, row: nat, bySignal: bool) {
    var s := Plain(fill);
    && i < |candles| && Opens(candles, i) && candles[i].signal == -1
    && i + Lag(s) <= row < |candles|
    && Steady(candles, -1, i, SignalTo(s, row, if bySignal then BySignal else ByRuin))
    && (bySignal ==> i < row - Lag(s) && candles[row - Lag(s)].signal != -1)
    && (var entry := OrderQuote(candles, s, i + Lag(s));
        && Doubled(if bySignal then OrderQuote(candles, s, row) else candles[row].close, entry)
        && forall m | i + Lag(s) <= m < row :: !Doubled(candles[m].close, entry))
  }

  ghost predicate Ruins(candles: seq<Candle>, fill: FillMode, i: nat) {
    exists row, bySignal :: RuinedOn(candles, fill, i, row, bySignal)
  }

  // ---------- the trades of a plain run ----------

  predicate Lost(t: Trade) {
    t.ret <= -1.0
  }

  /** What a trade of a plain run is, without its engine: quotes for prices, and a reason for its end. */
  predicate PlainTrade(candles: seq<Candle>, fill: FillMode, t: Trade) {
    var s := Plain(fill);
    && TradeBacked(candles, s, t) && (t.side == 1 || t.side == -1)
    && t.openPrice == OrderQuote(candles, s, t.openRow)
    && t.reason in {BySignal, ByRuin, ByEnd}
    && t.closePrice == (if t.reason.BySignal? then OrderQuote(candles, s, t.closeRow) else candles[t.closeRow].close)
    && (t.reason.ByEnd? ==> t.closeRow == |candles| - 1)
    && (t.reason.ByRuin? ==> Lost(t)) && (t.reason.ByEnd? ==> !Lost(t))
    && (Lost(t) <==> t.side == -1 && Doubled(t.closePrice, t.openPrice))
    && (forall m: nat | t.openRow <= m < t.closeRow :: t.side == -1 ==> !Doubled(candles[m].close, t.openPrice))
  }

  lemma {:induction false} PlainQuotient(price: real, entry: real, side: int)
    requires 0.0 < price && 0.0 < entry && (side == 1 || side == -1)
    ensures MarkFactor(side, price, entry, 0.0) <= 0.0 <==> side == -1 && Doubled(price, entry)
    ensures ReturnOf(side, price / entry, 0.0) <= -1.0 <==> side == -1 && Doubled(price, entry)
  {
    var q := price / entry;
    assert q * entry == price;
    QuotientPositive(price, entry);
    if q < 2.0 { ProductPositive(entry, 2.0 - q); } else { ProductPositive(entry, q - 2.0); }
  }

  lemma {:induction false} PlainSlipped(price: real, toward: int)
    ensures Slipped(price, toward, 0.0) == price
  {
  }

  /** The mark of a held row is above 0. */
  lemma {:induction false} HeldRowsAreWorth(candles: seq<Candle>, s: Settings, t: Trade, row: nat)
    requires ValidCandles(candles) && ValidSettings(s) && row < |candles|
    requires t in Backtest(candles, s).trades && t.openRow <= row < t.closeRow
    ensures 0.0 < t.openPrice && 0.0 < MarkFactor(t.side, candles[row].close, t.openPrice, s.fee)
  {
    hide Backtest, MarkFactor, Compound, Between;
    TradesDetermineSeries(candles, s);
    EquityIsNotNegative(candles, s);
    FinalTradeIsLast(candles, s);
    var b := Backtest(candles, s);
    var i :| 0 <= i < |b.trades| && b.trades[i] == t;
    assert Holds(b.trades[i], row);
    CompoundPositive(b.trades, i);
    ProductPositive(Compound(b.trades[..i]), MarkFactor(t.side, candles[row].close, t.openPrice, s.fee));
  }

  lemma {:induction false} TradesArePlain(candles: seq<Candle>, fill: FillMode, t: Trade)
    requires ValidCandles(candles) && t in Backtest(candles, Plain(fill)).trades
    ensures PlainTrade(candles, fill, t)
  {
    hide Backtest, TradeBacked, Untouched, Slipped, ReturnOf, MarkFactor, Doubled;
    var s := Plain(fill);
    TradesFollowSignal(candles, s);
    TradesAreAccounted(candles, s);
    BackedTrade(candles, s, Backtest(candles, s).trades, t);
    var entry, exit := OrderQuote(candles, s, t.openRow), ExitQuote(candles, s, t.reason, t.closeRow, t.stopPrice);
    PlainSlipped(entry, t.side);
    PlainSlipped(exit, -t.side);
    PlainQuotient(exit, entry, t.side);
    forall m: nat | t.openRow <= m < t.closeRow ensures t.side == -1 ==> !Doubled(candles[m].close, t.openPrice) {
      HeldRowsAreWorth(candles, s, t, m);
      PlainQuotient(candles[m].close, t.openPrice, t.side);
    }
  }

  lemma {:induction false} BackedTrade(candles: seq<Candle>, s: Settings, ts: seq<Trade>, t: Trade)
    requires TradesBacked(candles, s, ts) && t in ts
    ensures TradeBacked(candles, s, t)
  {
  }

  // ---------- the candles tell the row of a ruin ----------

  lemma {:induction false} LostIsRuined(candles: seq<Candle>, fill: FillMode, t: Trade)
    requires ValidCandles(candles) && PlainTrade(candles, fill, t) && Lost(t) && Opens(candles, t.signalRow)
    ensures RuinedOn(candles, fill, t.signalRow, t.closeRow, t.reason.BySignal?)
  {
  }

  /** A trade of a change whose short is ruined on `row` closed there, with everything lost. */
  lemma {:induction false} RuinedIsLost(candles: seq<Candle>, fill: FillMode, t: Trade, row: nat, bySignal: bool)
    requires ValidCandles(candles) && PlainTrade(candles, fill, t)
    requires RuinedOn(candles, fill, t.signalRow, row, bySignal)
    ensures Lost(t) && t.closeRow == row && t.reason.BySignal? == bySignal
  {
    hide Doubled, Lost;
    NotClosedBefore(candles, fill, t, row, bySignal);
    NotHeldPast(candles, fill, t, row, bySignal);
    var d := row - Lag(Plain(fill));
    assert 0 <= d < |candles| && (bySignal <==> candles[d].signal != -1);
    assert t.reason.BySignal? <==> candles[d].signal != -1;
  }

  lemma {:induction false} NotClosedBefore(candles: seq<Candle>, fill: FillMode, t: Trade, row: nat, bySignal: bool)
    requires ValidCandles(candles) && PlainTrade(candles, fill, t)
    requires RuinedOn(candles, fill, t.signalRow, row, bySignal)
    ensures row <= t.closeRow
  {
    hide Doubled;
  }

  lemma {:induction false} NotHeldPast(candles: seq<Candle>, fill: FillMode, t: Trade, row: nat, bySignal: bool)
    requires ValidCandles(candles) && PlainTrade(candles, fill, t)
    requires RuinedOn(candles, fill, t.signalRow, row, bySignal)
    ensures t.closeRow <= row
  {
    hide Doubled;
  }

  // ---------- a plain run halts exactly at a ruined short ----------

  lemma {:induction false} RecordedRuinOnly(b: Book, s: Settings, row: nat, close: real)
    requires Sound(b) && row == |b.position| == |b.equity| && s.drawdownStop.None? && RuinOnly(b)
    ensures RuinOnly(Recorded(b, s, row, close))
  {
    hide ReturnOf, FeesOf, Slipped, MarkFactor;
  }

  /** Without a drawdown stop only a ruin halts a run. */
  lemma {:induction false} RunRuinOnly(candles: seq<Candle>, s: Settings, k: nat)
    requires ValidCandles(candles) && ValidSettings(s) && s.drawdownStop.None? && k <= |candles|
    ensures RuinOnly(RunTo(candles, s, k).book)
  {
    hide Traded, Recorded;
    if k > 0 {
      RunRuinOnly(candles, s, k - 1);
      var c, last := RunTo(candles, s, k - 1), k == |candles|;
      if !c.book.halted {
        TradedRuinOnly(c, s, candles[k - 1], k - 1, last);
        TradedKeepsSeries(c, s, candles[k - 1], k - 1, last);
        RecordedRuinOnly(Traded(c, s, candles[k - 1], k - 1, last).book, s, k - 1, candles[k - 1].close);
      }
    }
  }

  lemma {:induction false} NothingCompounds(ts: seq<Trade>)
    requires Compound(ts) == 0.0
    ensures exists t :: t in ts && Lost(t)
  {
    if ts != [] {
      var before, t := ts[..|ts| - 1], ts[|ts| - 1];
      if !Lost(t) {
        var c := Compound(before);
        if c > 0.0 { ProductPositive(c, 1.0 + t.ret); }
        if c < 0.0 { ProductPositive(-c, 1.0 + t.ret); }
        NothingCompounds(before);
      }
    }
  }

  /** Without a drawdown stop a run is halted after a row exactly when one of its trades so far lost everything. */
  lemma {:induction false} HaltsOnlyAtLoss(candles: seq<Candle>, s: Settings, k: nat)
    requires ValidCandles(candles) && ValidSettings(s) && s.drawdownStop.None? && k <= |candles|
    ensures RunTo(candles, s, k).book.halted <==> exists t :: t in RunTo(candles, s, k).book.trades && Lost(t)
  {
    hide RunTo, Compound;
    RunHalting(candles, s, k);
    RunCoherent(candles, s, k);
    RunRuinOnly(candles, s, k);
    if RunTo(candles, s, k).book.halted { NothingCompounds(RunTo(candles, s, k).book.trades); }
  }

  /** The run halts exactly when one of its trades lost everything. */
  lemma {:induction false} HaltsAtLoss(candles: seq<Candle>, fill: FillMode)
    requires ValidCandles(candles)
    ensures RunTo(candles, Plain(fill), |candles|).book.halted <==>
            exists t :: t in Backtest(candles, Plain(fill)).trades && Lost(t)
  {
    hide RunTo, Backtest, Compound, PlainTrade;
    var s, n := Plain(fill), |candles|;
    RunEnds(candles, s);
    RunHalting(candles, s, n);
    RunCoherent(candles, s, n);
    RunRuinOnly(candles, s, n);
    var b := RunTo(candles, s, n).book;
    if b.halted {
      NothingCompounds(b.trades);
    } else {
      forall t | t in Backtest(candles, s).trades ensures !Lost(t) {
        TradesArePlain(candles, fill, t);
        UnhaltedTrade(candles, s, t);
        EndIsNotLost(candles, fill, t);
      }
    }
  }

  lemma {:induction false} EndIsNotLost(candles: seq<Candle>, fill: FillMode, t: Trade)
    requires PlainTrade(candles, fill, t)
    ensures t.reason.ByEnd? ==> !Lost(t)
  {
  }

  /** The trades of a run that goes on to the end lost nothing, or it is the end that closed them. */
  lemma {:induction false} UnhaltedTrade(candles: seq<Candle>, s: Settings, t: Trade)
    requires ValidCandles(candles) && ValidSettings(s) && !RunTo(candles, s, |candles|).book.halted
    requires t in Backtest(candles, s).trades
    ensures t.reason.ByEnd? || !Lost(t)
  {
    hide RunTo, Closed;
    RunHalting(candles, s, |candles|);
    var b := RunTo(candles, s, |candles|).book;
    if candles == [] {
      StartIsFlat(candles, s);
    } else if b.side != 0 {
      ClosedDecided(b, s, |candles| - 1, candles[|candles| - 1].close, ByEnd);
      EndAppends(b, s, |candles| - 1, candles[|candles| - 1].close);
    }
  }

  lemma {:induction false} EndAppends(b: Book, s: Settings, row: nat, price: real)
    requires Sound(b) && b.side != 0
    ensures Closed(b, s, row, price, ByEnd).trades == b.trades + [TradeOf(b, s, row, price, ByEnd)]
    ensures TradeOf(b, s, row, price, ByEnd).reason.ByEnd?
  {
  }

  lemma {:induction false} OpeningsHold(candles: seq<Candle>, to: nat)
    requires to <= |candles|
    ensures forall i :: i in Openings(candles, to) <==> 0 <= i < to && Opens(candles, i)
  {
    if to > 0 { OpeningsHold(candles, to - 1); }
  }

  /** The change a trade was decided on, and, in a run that did not halt, the trade of a change. */
  lemma {:induction false} TradeOfChange(candles: seq<Candle>, s: Settings)
    requires ValidCandles(candles) && ValidSettings(s)
    ensures forall t | t in Backtest(candles, s).trades :: t.signalRow < |candles| && Opens(candles, t.signalRow)
    ensures !RunTo(candles, s, |candles|).book.halted ==>
              forall i: nat | i < |candles| && Opens(candles, i) ::
                exists t :: t in Backtest(candles, s).trades && t.signalRow == i
  {
    hide RunTo, Backtest, Opens, Openings;
    var ts, all := Backtest(candles, s).trades, Openings(candles, |candles|);
    OneTradePerChange(candles, s);
    OpeningsHold(candles, |candles|);
    var rows := SignalRows(ts);
    forall t | t in ts ensures t.signalRow < |candles| && Opens(candles, t.signalRow) {
      var k :| 0 <= k < |ts| && ts[k] == t;
      assert rows[k] == all[k] && all[k] in all;
    }
    if rows == all {
      forall i: nat | i < |candles| && Opens(candles, i) ensures exists t :: t in ts && t.signalRow == i {
        var k :| 0 <= k < |all| && all[k] == i;
        assert ts[k] in ts && rows[k] == i;
      }
    }
  }

  /** Without stops and costs a run halts if and only if the candles ruin one of its shorts. */
  lemma {:induction false} HaltsExactlyAtRuin(candles: seq<Candle>, fill: FillMode)
    requires ValidCandles(candles)
    ensures RunTo(candles, Plain(fill), |candles|).book.halted <==> exists i :: Ruins(candles, fill, i)
  {
    hide RunTo, Backtest, PlainTrade, RuinedOn, Opens;
    var s := Plain(fill);
    HaltsAtLoss(candles, fill);
    TradeOfChange(candles, s);
    if t :| t in Backtest(candles, s).trades && Lost(t) {
      TradesArePlain(candles, fill, t);
      LostIsRuined(candles, fill, t);
      assert Ruins(candles, fill, t.signalRow);
    } else if i :| Ruins(candles, fill, i) {
      var row, bySignal :| RuinedOn(candles, fill, i, row, bySignal);
      RuinedOpens(candles, fill, i, row, bySignal);
      var t :| t in Backtest(candles, s).trades && t.signalRow == i;
      TradesArePlain(candles, fill, t);
      RuinedIsLost(candles, fill, t, row, bySignal);
    }
  }

  lemma {:induction false} RuinedOpens(candles: seq<Candle>, fill: FillMode, i: nat, row: nat, bySignal: bool)
    requires RuinedOn(candles, fill, i, row, bySignal)
    ensures i < |candles| && Opens(candles, i) && candles[i].signal == -1
  {
  }
}
