/**
 Without stops and costs the two fill modes make the same trades, one row apart: `next_open` opens
 and closes at the open of the row after the one where `signal_close` does, except that what
 `signal_close` closes on the last row `next_open` closes there too, at its close. It holds until the
 first ruined short, and the candles tell whether it holds there.
 */
module EngineShift {
  import opened Engine
  import opened EngineSignals
  import opened EngineHalting
  import opened EngineOpenings
  import opened EnginePlain

  /** `u` is the `next_open` trade of the `signal_close` trade `t`. */
  predicate OneRowLater(candles: seq<Candle>, t: Trade, u: Trade) {
    var last := |candles| - 1;
    && t.openRow < last && t.closeRow <= last
    && u.signalRow == t.signalRow && u.side == t.side
    && u.openRow == t.openRow + 1 && u.openPrice == candles[u.openRow].open
    && (if t.closeRow < last then
          u.closeRow == t.closeRow + 1 && u.closePrice == candles[u.closeRow].open && u.reason == t.reason
        else
          u.closeRow == last && u.closePrice == candles[last].close && u.reason == ByEnd)
  }

  predicate Paired(candles: seq<Candle>, ts: seq<Trade>, us: seq<Trade>) {
    |ts| == |us| && forall i | 0 <= i < |ts| :: OneRowLater(candles, ts[i], us[i])
  }

  // ---------- the trades of one change ----------

  /**
   Whether the trades of the change on row `i` pair. Without a ruin they do. With one in both modes it must
   come one row later, both times by the signal, or both times at a mark that is the row's open too; with
   one in one mode only, the other must close with the signal or at the end, as the ruined one does.
   */
  ghost predicate RuinsPair(candles: seq<Candle>, i: nat) {
    if Ruins(candles, SignalClose, i) && Ruins(candles, NextOpen, i) then
      exists row: nat, bySignal :: RuinedRowLater(candles, i, row, bySignal)
    else if Ruins(candles, SignalClose, i) then
      exists row: nat, bySignal :: RuinedOn(candles, SignalClose, i, row, bySignal) && (bySignal || row == |candles| - 1)
    else
      Ruins(candles, NextOpen, i) ==> exists row: nat :: RuinedOn(candles, NextOpen, i, row, true)
  }

  /** Ruined on `row` and, in `next_open`, on the row after it, at the row's open. */
  predicate RuinedRowLater(candles: seq<Candle>, i: nat, row: nat, bySignal: bool) {
    && RuinedOn(candles, SignalClose, i, row, bySignal) && RuinedOn(candles, NextOpen, i, row + 1, bySignal)
    && (bySignal || candles[row + 1].open == candles[row + 1].close)
  }

  lemma {:induction false} LostOrNot(candles: seq<Candle>, fill: FillMode, t: Trade)
    requires ValidCandles(candles) && PlainTrade(candles, fill, t) && t.signalRow < |candles| && Opens(candles, t.signalRow)
    ensures Lost(t) <==> Ruins(candles, fill, t.signalRow)
    ensures forall row: nat, bySignal ::
              RuinedOn(candles, fill, t.signalRow, row, bySignal) <==>
              Lost(t) && row == t.closeRow && bySignal == t.reason.BySignal?
  {
    hide PlainTrade, RuinedOn, Opens, Lost;
    if Lost(t) { LostIsRuined(candles, fill, t); }
    forall row: nat, bySignal | RuinedOn(candles, fill, t.signalRow, row, bySignal)
      ensures Lost(t) && row == t.closeRow && bySignal == t.reason.BySignal?
    {
      RuinedIsLost(candles, fill, t, row, bySignal);
    }
  }

  /** The two trades of a change open a row apart. */
  lemma {:induction false} OpensLater(candles: seq<Candle>, t: Trade, u: Trade)
    requires PlainTrade(candles, SignalClose, t) && PlainTrade(candles, NextOpen, u)
    requires u.signalRow == t.signalRow < |candles| && Opens(candles, t.signalRow)
    ensures u.side == t.side && u.openRow == t.openRow + 1 && u.openPrice == candles[u.openRow].open
    ensures t.openRow < |candles| - 1 && t.closeRow <= |candles| - 1 && u.closeRow <= |candles| - 1
  {
    hide Doubled, Lost;
  }

  /** They close a row apart when neither is ruined at a mark before the last row. */
  lemma {:induction false} ClosesLater(candles: seq<Candle>, t: Trade, u: Trade)
    requires PlainTrade(candles, SignalClose, t) && PlainTrade(candles, NextOpen, u)
    requires u.signalRow == t.signalRow < |candles| && Opens(candles, t.signalRow) && !u.reason.ByRuin?
    requires !t.reason.ByRuin? || t.closeRow == |candles| - 1
    ensures OneRowLater(candles, t, u)
  {
    hide Doubled, Lost;
    OpensLater(candles, t, u);
    var left := candles[t.closeRow].signal;
    if u.reason.BySignal? {
      var d := u.closeRow - 1;
      assert candles[d].signal != t.side;
    }
  }

  /** The trades of a change pair if and only if the candles say so. */
  lemma {:induction false} TradesPair(candles: seq<Candle>, t: Trade, u: Trade)
    requires ValidCandles(candles) && PlainTrade(candles, SignalClose, t) && PlainTrade(candles, NextOpen, u)
    requires u.signalRow == t.signalRow < |candles| && Opens(candles, t.signalRow)
    ensures OneRowLater(candles, t, u) <==> RuinsPair(candles, t.signalRow)
  {
    hide RuinedOn, Ruins, Opens, Doubled, TradeBacked, Lost;
    var i := t.signalRow;
    LostOrNot(candles, SignalClose, t);
    LostOrNot(candles, NextOpen, u);
    OpensLater(candles, t, u);
    ReasonOfRuin(candles, SignalClose, t);
    ReasonOfRuin(candles, NextOpen, u);
    if !u.reason.ByRuin? && (!t.reason.ByRuin? || t.closeRow == |candles| - 1) { ClosesLater(candles, t, u); }
    if Lost(t) && Lost(u) {
      BothRuined(candles, t, u);
    } else if Lost(t) {
      assert RuinedOn(candles, SignalClose, i, t.closeRow, t.reason.BySignal?);
    } else if Lost(u) {
      assert RuinedOn(candles, NextOpen, i, u.closeRow, u.reason.BySignal?);
    }
  }

  lemma {:induction false} ReasonOfRuin(candles: seq<Candle>, fill: FillMode, t: Trade)
    requires PlainTrade(candles, fill, t)
    ensures (t.reason.ByRuin? ==> Lost(t)) && (Lost(t) ==> t.reason.ByRuin? || t.reason.BySignal?)
    ensures t.reason.ByRuin? ==> t.closePrice == candles[t.closeRow].close
  {
  }

  lemma {:induction false} BothRuined(candles: seq<Candle>, t: Trade, u: Trade)
    requires ValidCandles(candles) && PlainTrade(candles, SignalClose, t) && PlainTrade(candles, NextOpen, u)
    requires u.signalRow == t.signalRow < |candles| && Opens(candles, t.signalRow) && Lost(t) && Lost(u)
    ensures OneRowLater(candles, t, u) <==> RuinsPair(candles, t.signalRow)
  {
    hide RuinedOn, Ruins, Opens, Doubled, TradeBacked, Lost;
    var i := t.signalRow;
    LostOrNot(candles, SignalClose, t);
    LostOrNot(candles, NextOpen, u);
    OpensLater(candles, t, u);
    ReasonOfRuin(candles, SignalClose, t);
    ReasonOfRuin(candles, NextOpen, u);
    if t.reason.BySignal? && u.reason.BySignal? { ClosesLater(candles, t, u); }
    assert RuinedOn(candles, SignalClose, i, t.closeRow, t.reason.BySignal?);
    assert RuinedOn(candles, NextOpen, i, u.closeRow, u.reason.BySignal?);
    if RuinsPair(candles, i) {
      var row: nat, bySignal :| RuinedRowLater(candles, i, row, bySignal);
      assert row == t.closeRow && row + 1 == u.closeRow;
    } else {
      assert !RuinedRowLater(candles, i, t.closeRow, t.reason.BySignal?);
    }
  }

  // ---------- whole runs ----------

  /** The first change whose short is ruined in either mode. */
  ghost predicate FirstRuin(candles: seq<Candle>, i: nat) {
    && (Ruins(candles, SignalClose, i) || Ruins(candles, NextOpen, i))
    && forall j: nat | j < i :: !Ruins(candles, SignalClose, j) && !Ruins(candles, NextOpen, j)
  }

  ghost predicate LastOpening(candles: seq<Candle>, i: nat) {
    forall j: nat | i < j < |candles| :: !Opens(candles, j)
  }

  ghost predicate RunsPair(candles: seq<Candle>) {
    forall i: nat | FirstRuin(candles, i) ::
      && RuinsPair(candles, i)
      && ((Ruins(candles, SignalClose, i) && Ruins(candles, NextOpen, i)) || LastOpening(candles, i))
  }

  /** What is needed of a plain run's trades: one per change, in order, up to the first ruined short. */
  ghost predicate TradesOf(candles: seq<Candle>, fill: FillMode, ts: seq<Trade>) {
    && SignalRows(ts) <= Openings(candles, |candles|)
    && (forall k | 0 <= k < |ts| :: PlainTrade(candles, fill, ts[k]))
    && (forall k | 0 <= k < |ts| - 1 :: !Lost(ts[k]))
    && (|ts| < |Openings(candles, |candles|)| ==> ts != [] && Lost(ts[|ts| - 1]))
  }

  lemma {:induction false} BacktestTrades(candles: seq<Candle>, fill: FillMode)
    requires ValidCandles(candles)
    ensures TradesOf(candles, fill, Backtest(candles, Plain(fill)).trades)
  {
    hide RunTo, Backtest, PlainTrade, Openings;
    var s, ts := Plain(fill), Backtest(candles, Plain(fill)).trades;
    OneTradePerChange(candles, s);
    FinalTradeIsLast(candles, s);
    HaltsAtLoss(candles, fill);
    forall k | 0 <= k < |ts| ensures PlainTrade(candles, fill, ts[k]) {
      TradesArePlain(candles, fill, ts[k]);
    }
    assert forall k | 0 <= k < |ts| - 1 :: Lost(ts[k]) ==> Final(ts[k]);
    if |ts| < |Openings(candles, |candles|)| {
      var t :| t in ts && Lost(t);
      var k :| 0 <= k < |ts| && ts[k] == t;
    }
  }

  lemma {:induction false} OpeningsInOrder(candles: seq<Candle>, to: nat)
    requires to <= |candles|
    ensures forall k, m | 0 <= k < m < |Openings(candles, to)| :: Openings(candles, to)[k] < Openings(candles, to)[m]
    ensures forall k | 0 <= k < |Openings(candles, to)| ::
              Openings(candles, to)[k] < to && Opens(candles, Openings(candles, to)[k])
  {
    OpeningsHold(candles, to);
    var all := Openings(candles, to);
    forall k | 0 <= k < |all| ensures all[k] < to && Opens(candles, all[k]) {
      assert all[k] in all;
    }
    if to > 0 {
      OpeningsInOrder(candles, to - 1);
    }
  }

  /** Up to the first change ruined in either mode a run has its trades, and one ruined there has no more. */
  lemma {:induction false} TradesUpTo(candles: seq<Candle>, fill: FillMode, ts: seq<Trade>, p: nat)
    requires ValidCandles(candles) && TradesOf(candles, fill, ts)
    requires var all := Openings(candles, |candles|);
             p < |all| && forall k | 0 <= k < p :: !Ruins(candles, fill, all[k])
    ensures p < |ts| && (Ruins(candles, fill, Openings(candles, |candles|)[p]) ==> |ts| == p + 1)
    ensures !Ruins(candles, fill, Openings(candles, |candles|)[p]) ==> (|ts| == p + 1 <==> |Openings(candles, |candles|)| == p + 1)
  {
    hide PlainTrade, Openings, Ruins, Lost, Opens;
    var all, rows := Openings(candles, |candles|), SignalRows(ts);
    OpeningsInOrder(candles, |candles|);
    forall k | 0 <= k < |ts| ensures rows[k] == all[k] && (Lost(ts[k]) <==> Ruins(candles, fill, all[k])) {
      assert rows[k] == all[k];
      LostOrNot(candles, fill, ts[k]);
    }
  }

  lemma {:induction false} TradesOfChange(candles: seq<Candle>, ts: seq<Trade>, us: seq<Trade>, k: nat)
    requires ValidCandles(candles) && TradesOf(candles, SignalClose, ts) && TradesOf(candles, NextOpen, us)
    requires k < |ts| && k < |us|
    ensures k < |Openings(candles, |candles|)|
    ensures OneRowLater(candles, ts[k], us[k]) <==> RuinsPair(candles, Openings(candles, |candles|)[k])
  {
    hide PlainTrade, Openings, RuinsPair, OneRowLater, Lost;
    var all, a, b := Openings(candles, |candles|), SignalRows(ts), SignalRows(us);
    OpeningsInOrder(candles, |candles|);
    assert a[k] == all[k] && b[k] == all[k];
    TradesPair(candles, ts[k], us[k]);
  }

  lemma {:induction false} FirstRuinBefore(candles: seq<Candle>, i: nat) returns (j: nat)
    requires Ruins(candles, SignalClose, i) || Ruins(candles, NextOpen, i)
    ensures FirstRuin(candles, j)
  {
    hide Ruins;
    if k: nat :| k < i && (Ruins(candles, SignalClose, k) || Ruins(candles, NextOpen, k)) {
      j := FirstRuinBefore(candles, k);
    } else {
      j := i;
    }
  }

  lemma {:induction false} RuinOpens(candles: seq<Candle>, fill: FillMode, i: nat)
    requires Ruins(candles, fill, i)
    ensures i < |candles| && Opens(candles, i)
  {
    var row, bySignal :| RuinedOn(candles, fill, i, row, bySignal);
  }

  /** No ruined short: a trade for every change, and they pair. */
  lemma {:induction false} UnruinedPair(candles: seq<Candle>, ts: seq<Trade>, us: seq<Trade>)
    requires ValidCandles(candles) && TradesOf(candles, SignalClose, ts) && TradesOf(candles, NextOpen, us)
    requires forall i :: !Ruins(candles, SignalClose, i) && !Ruins(candles, NextOpen, i)
    ensures Paired(candles, ts, us)
  {
    hide PlainTrade, Openings, Ruins, OneRowLater, Lost, Opens;
    var all := Openings(candles, |candles|);
    if |all| > 0 {
      TradesUpTo(candles, SignalClose, ts, |all| - 1);
      TradesUpTo(candles, NextOpen, us, |all| - 1);
    }
    forall k | 0 <= k < |ts| ensures OneRowLater(candles, ts[k], us[k]) {
      TradesOfChange(candles, ts, us, k);
    }
  }

  /** With a first ruined short, change number `p` of the openings. */
  lemma {:induction false} RuinedPair(candles: seq<Candle>, ts: seq<Trade>, us: seq<Trade>, p: nat)
    requires ValidCandles(candles) && TradesOf(candles, SignalClose, ts) && TradesOf(candles, NextOpen, us)
    requires p < |Openings(candles, |candles|)| && FirstRuin(candles, Openings(candles, |candles|)[p])
    ensures var i := Openings(candles, |candles|)[p];
            Paired(candles, ts, us) <==>
            RuinsPair(candles, i)
            && ((Ruins(candles, SignalClose, i) && Ruins(candles, NextOpen, i)) || |Openings(candles, |candles|)| == p + 1)
  {
    hide PlainTrade, Openings, Ruins, OneRowLater, Lost, Opens;
    var all := Openings(candles, |candles|);
    OpeningsInOrder(candles, |candles|);
    TradesUpTo(candles, SignalClose, ts, p);
    TradesUpTo(candles, NextOpen, us, p);
    forall k | 0 <= k <= p
      ensures OneRowLater(candles, ts[k], us[k]) <==> (k < p || RuinsPair(candles, all[p]))
    {
      TradesOfChange(candles, ts, us, k);
    }
  }

  lemma {:induction false} LastOpeningIs(candles: seq<Candle>, p: nat)
    requires p < |Openings(candles, |candles|)|
    ensures LastOpening(candles, Openings(candles, |candles|)[p]) <==> |Openings(candles, |candles|)| == p + 1
  {
    hide Openings, Opens;
    var all := Openings(candles, |candles|);
    OpeningsInOrder(candles, |candles|);
    OpeningsHold(candles, |candles|);
    if |all| > p + 1 { assert all[p] < all[p + 1] && Opens(candles, all[p + 1]); }
  }

  /**
   Without stops and costs the trades of `next_open` are those of `signal_close` one row later, in number,
   order, sides, rows, prices and reasons, if and only if the first change whose short is ruined in either
   mode, if there is one, pairs, and is ruined in both modes or the last change to a side.
   */
  lemma {:induction false} NextOpenIsSignalCloseOneRowLater(candles: seq<Candle>)
    requires ValidCandles(candles)
    ensures Paired(candles, Backtest(candles, Plain(SignalClose)).trades, Backtest(candles, Plain(NextOpen)).trades) <==>
            RunsPair(candles)
  {
    hide *;
    PlainIsValid();
    var ts, us := Backtest(candles, Plain(SignalClose)).trades, Backtest(candles, Plain(NextOpen)).trades;
    BacktestTrades(candles, SignalClose);
    BacktestTrades(candles, NextOpen);
    if i: nat :| Ruins(candles, SignalClose, i) || Ruins(candles, NextOpen, i) {
      var j := FirstRuinBefore(candles, i);
      var p := PlaceOf(candles, j);
      RuinedPair(candles, ts, us, p);
      LastOpeningIs(candles, p);
      RunsPairAt(candles, j);
    } else {
      UnruinedPair(candles, ts, us);
      NoFirstRuin(candles);
    }
  }

  lemma {:induction false} PlaceOf(candles: seq<Candle>, i: nat) returns (p: nat)
    requires FirstRuin(candles, i)
    ensures p < |Openings(candles, |candles|)| && Openings(candles, |candles|)[p] == i
  {
    hide Openings, Ruins;
    RuinOpens(candles, if Ruins(candles, SignalClose, i) then SignalClose else NextOpen, i);
    OpeningsHold(candles, |candles|);
    assert i in Openings(candles, |candles|);
    p :| p < |Openings(candles, |candles|)| && Openings(candles, |candles|)[p] == i;
  }

  lemma {:induction false} RunsPairAt(candles: seq<Candle>, i: nat)
    requires FirstRuin(candles, i)
    ensures RunsPair(candles) <==>
            RuinsPair(candles, i) && ((Ruins(candles, SignalClose, i) && Ruins(candles, NextOpen, i)) || LastOpening(candles, i))
  {
    hide Ruins, RuinsPair, LastOpening;
    forall j: nat | FirstRuin(candles, j) ensures j == i {
    }
  }

  lemma {:induction false} NoFirstRuin(candles: seq<Candle>)
    requires forall i: nat :: !Ruins(candles, SignalClose, i) && !Ruins(candles, NextOpen, i)
    ensures RunsPair(candles)
  {
  }

  /** In particular they pair when the signal never asks for a short. */
  lemma {:induction false} LongTradesPair(candles: seq<Candle>)
    requires ValidCandles(candles) && forall i | 0 <= i < |candles| :: candles[i].signal >= 0
    ensures Paired(candles, Backtest(candles, Plain(SignalClose)).trades, Backtest(candles, Plain(NextOpen)).trades)
  {
    hide Backtest, Paired, RuinedOn;
    NextOpenIsSignalCloseOneRowLater(candles);
    forall i: nat, fill, row, bySignal ensures !RuinedOn(candles, fill, i, row, bySignal) {
      if RuinedOn(candles, fill, i, row, bySignal) { RuinedOpens(candles, fill, i, row, bySignal); }
    }
    NoFirstRuin(candles);
  }

  /** Or when neither run halts. */
  lemma {:induction false} UnhaltedTradesPair(candles: seq<Candle>)
    requires ValidCandles(candles)
    requires !RunTo(candles, Plain(SignalClose), |candles|).book.halted && !RunTo(candles, Plain(NextOpen), |candles|).book.halted
    ensures Paired(candles, Backtest(candles, Plain(SignalClose)).trades, Backtest(candles, Plain(NextOpen)).trades)
  {
    hide RunTo, Backtest, Paired, Ruins;
    HaltsExactlyAtRuin(candles, SignalClose);
    HaltsExactlyAtRuin(candles, NextOpen);
    NextOpenIsSignalCloseOneRowLater(candles);
    NoFirstRuin(candles);
  }
}
