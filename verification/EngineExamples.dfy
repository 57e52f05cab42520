/** Runs that show which conditions the engine's results cannot do without. */
module EngineExamples {
  import opened Options
  import opened Engine
  import opened EngineHalting
  import opened EngineStops
  import opened EnginePlain
  import opened EngineShift

  function Flat(row: int, price: real, signal: int): Candle {
    Candle(row, price, price, price, price, signal)
  }

  /** Two quiet rows that leave an order for `side`. */
  lemma {:induction false} QuietStart(candles: seq<Candle>, s: Settings, side: int)
    requires ValidCandles(candles) && ValidSettings(s) && 2 < |candles|
    requires s.drawdownStop.None? && s.fill.NextOpen? && side != 0
    requires candles[0].signal == 0 && candles[1].signal == side
    ensures RunTo(candles, s, 2) == Cursor(START.(position := [0, 0], equity := [1.0, 1.0]), Some(side), side)
  {
    hide Closed, Opened;
    assert RunTo(candles, s, 0) == Cursor(START, None, 0);
    assert RunTo(candles, s, 1) == Cursor(START.(position := [0], equity := [1.0]), None, 0);
  }

  // ---------- a gap that beats the stop ----------

  const COSTLY: Settings := Settings(NextOpen, Some(0.1), None, 2.0, 0.0)

  const GAP: seq<Candle> := [Flat(0, 1.0, 0), Flat(1, 1.0, 1), Candle(2, 1.0, 10.0, 1.0, 10.0, 1), Flat(3, 0.5, 1)]

  const HELD: Book := Book(1.0, 8.0, false, 1, 1, 2, 1.0, 1.0, Some(0.9), [], [0, 0, 1], [1.0, 1.0, 8.0])

  lemma {:induction false} GapEntry()
    ensures ValidCandles(GAP) && RunTo(GAP, COSTLY, 3) == Cursor(HELD, None, 1)
  {
    hide Closed;
    QuietStart(GAP, COSTLY, 1);
    var quiet := START.(position := [0, 0], equity := [1.0, 1.0]);
    var c := Cursor(quiet, Some(1), 1);
    var long := Opened(quiet, COSTLY, 2, 1, 1.0, 1);
    assert long.stop == Some(0.9);
    assert Traded(c, COSTLY, GAP[2], 2, false) == Cursor(long, None, 1);
    assert Worth(long, COSTLY, 10.0) == 8.0;
  }

  lemma {:induction false} GapExit()
    ensures ValidCandles(GAP)
    ensures Backtest(GAP, COSTLY).trades == [TradeOf(HELD, COSTLY, 3, 0.5, ByGap)]
    ensures TradeOf(HELD, COSTLY, 3, 0.5, ByGap).ret == -3.5
  {
    GapEntry();
    var closed := Closed(HELD, COSTLY, 3, 0.5, ByGap);
    assert Traded(Cursor(HELD, None, 1), COSTLY, GAP[3], 3, true) == Cursor(closed, None, 1);
    assert RunTo(GAP, COSTLY, 4).book.trades == closed.trades;
  }

  /** With a fee above the notional a long's gap can be the better exit. */
  lemma {:induction false} GapCanBeatStop()
    ensures ValidCandles(GAP) && ValidSettings(COSTLY)
    ensures var ts := Backtest(GAP, COSTLY).trades;
            |ts| == 1 && ts[0].reason.ByGap? && ReturnOf(1, LevelGrowth(COSTLY, 1), COSTLY.fee) < ts[0].ret
  {
    GapExit();
  }

  // ---------- a ruin in one fill mode only ----------

  const RISE: seq<Candle> := [Flat(0, 1.0, 0), Flat(1, 1.0, -1), Flat(2, 3.0, -1), Flat(3, 3.0, -1)]

  lemma {:induction false} RiseStarts()
    ensures ValidCandles(RISE)
    ensures RunTo(RISE, Plain(SignalClose), 1) == Cursor(START.(position := [0], equity := [1.0]), None, 0)
  {
    assert RunTo(RISE, Plain(SignalClose), 0) == Cursor(START, None, 0);
  }

  lemma {:induction false} RiseEntry() returns (held: Book)
    ensures ValidCandles(RISE) && RunTo(RISE, Plain(SignalClose), 2) == Cursor(held, None, -1)
    ensures held.side == -1 && held.entryPrice == 1.0 && held.capital == 1.0 && held.stop.None? && !held.halted
    ensures held.trades == [] && Sound(held) && |held.position| == |held.equity| == 2
  {
    hide Closed, Slipped;
    var s := Plain(SignalClose);
    RiseStarts();
    PlainSlipped(1.0, -1);
    var quiet := START.(position := [0], equity := [1.0]);
    var short := Opened(quiet, s, 1, 1, 1.0, -1);
    assert Traded(Cursor(quiet, None, 0), s, RISE[1], 1, false) == Cursor(short, None, -1);
    assert Worth(short, s, 1.0) == 1.0;
    held := short.(position := [0, -1], equity := [1.0, 1.0]);
    assert RunTo(RISE, s, 2) == Cursor(held, None, -1);
  }

  lemma {:induction false} RiseRuinsSignalClose()
    ensures ValidCandles(RISE) && RunTo(RISE, Plain(SignalClose), 3).book.halted
    ensures var ts := RunTo(RISE, Plain(SignalClose), 4).book.trades;
            |ts| == 1 && ts[0].closeRow == 2 && ts[0].reason.ByRuin?
  {
    hide *;
    PlainIsValid();
    RiseIsFour();
    var held := RiseEntry();
    RiseRuins(held);
  }

  lemma {:induction false} RiseIsFour()
    ensures |RISE| == 4
  {
  }

  lemma {:induction false} RiseRuins(held: Book)
    requires Sound(held) && held.side == -1 && held.entryPrice == 1.0 && held.capital == 1.0 && held.stop.None? && !held.halted
    requires |held.position| == |held.equity| == 2 && held.trades == [] && ValidCandles(RISE)
    requires RunTo(RISE, Plain(SignalClose), 2) == Cursor(held, None, -1)
    ensures RunTo(RISE, Plain(SignalClose), 3).book.halted
    ensures var ts := RunTo(RISE, Plain(SignalClose), 4).book.trades;
            |ts| == 1 && ts[0].closeRow == 2 && ts[0].reason.ByRuin?
  {
    hide Slipped, ReturnOf, FeesOf;
    var s := Plain(SignalClose);
    assert Worth(held, s, 3.0) == -1.0;
    assert Traded(Cursor(held, None, -1), s, RISE[2], 2, false) == Cursor(held, None, -1);
    assert RunTo(RISE, s, 3).book.halted && RunTo(RISE, s, 3).book.trades == Closed(held, s, 2, 3.0, ByRuin).trades;
    assert RunTo(RISE, s, 4).book.trades == RunTo(RISE, s, 3).book.trades;
  }

  lemma {:induction false} RiseSparesNextOpen()
    ensures ValidCandles(RISE) && !RunTo(RISE, Plain(NextOpen), 4).book.halted
    ensures var b := RunTo(RISE, Plain(NextOpen), 4).book; b.trades == [] && b.side == -1
  {
    var s := Plain(NextOpen);
    QuietStart(RISE, s, -1);
    var quiet := START.(position := [0, 0], equity := [1.0, 1.0]);
    var short := Opened(quiet, s, 2, 1, 3.0, -1);
    assert Traded(Cursor(quiet, Some(-1), -1), s, RISE[2], 2, false) == Cursor(short, None, -1);
    assert Worth(short, s, 3.0) == 1.0;
    var held := short.(position := [0, 0, -1], equity := [1.0, 1.0, 1.0]);
    assert RunTo(RISE, s, 3) == Cursor(held, None, -1);
    assert Traded(Cursor(held, None, -1), s, RISE[3], 3, true) == Cursor(held, None, -1);
    assert Worth(held, s, 3.0) == 1.0;
  }

  /** A ruin in one fill mode only breaks the pairing of the two modes' trades. */
  lemma {:induction false} RuinBreaksTheShift()
    ensures ValidCandles(RISE)
    ensures !Paired(RISE, Backtest(RISE, Plain(SignalClose)).trades, Backtest(RISE, Plain(NextOpen)).trades)
  {
    hide Closed, RunTo, Step;
    RiseRuinsSignalClose();
    RiseSparesNextOpen();
    RunEnds(RISE, Plain(NextOpen));
    LastIsAtEnd(RunTo(RISE, Plain(NextOpen), 4).book);
    RiseStaysRuined();
  }

  lemma {:induction false} LastIsAtEnd(b: Book)
    requires Sound(b) && b.side != 0 && b.trades == []
    ensures var ts := Closed(b, Plain(NextOpen), 3, 3.0, ByEnd).trades; |ts| == 1 && ts[0].reason.ByEnd?
  {
  }

  lemma {:induction false} RiseStaysRuined()
    ensures ValidCandles(RISE)
    ensures Backtest(RISE, Plain(SignalClose)).trades == RunTo(RISE, Plain(SignalClose), 4).book.trades
  {
    RiseRuinsSignalClose();
    HaltAbsorbs(RISE, Plain(SignalClose), 3);
    HaltedRunIdles(RISE, Plain(SignalClose), 3, 4);
  }
}
