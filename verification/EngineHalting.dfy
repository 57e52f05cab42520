/**
 Ruin and halting: capital is positive until the run is ruined, a halted run stays flat at its
 capital, and a trade that ends the run is the last one.
 */
module EngineHalting {
  import opened Engine
  import opened EngineLedger

  /** A trade after which nothing opens. */
  predicate Final(t: Trade) {
    t.reason in {ByEnd, ByRuin, ByDrawdown} || t.ret <= -1.0
  }

  predicate OnlyLastIsFinal(ts: seq<Trade>) {
    forall i | 0 <= i < |ts| - 1 :: !Final(ts[i])
  }

  /** A final trade halted the run, and a halted run holds nothing. */
  predicate Halting(b: Book) {
    && OnlyLastIsFinal(b.trades)
    && (!b.halted ==> forall i | 0 <= i < |b.trades| :: !Final(b.trades[i]))
    && (b.halted ==> b.side == 0)
  }

  lemma {:induction false} ClosedHalting(b: Book, s: Settings, row: nat, price: real, reason: Reason)
    requires Sound(b) && b.side != 0 && Halting(b)
    ensures var r := Closed(b, s, row, price, reason);
            && OnlyLastIsFinal(r.trades)
            && (reason in {BySignal, ByStop, ByGap} ==> Halting(r))
            && Halting(r.(halted := true))
  {
    hide ReturnOf, FeesOf, Slipped;
    var t := TradeOf(b, s, row, price, reason);
    var r := Closed(b, s, row, price, reason);
    assert r.trades == b.trades + [t];
  }

  lemma {:induction false} FilledHalting(b: Book, s: Settings, row: nat, signalRow: nat, price: real, signal: int, mayOpen: bool)
    requires ValidSettings(s) && Sound(b) && 0.0 < price && -1 <= signal <= 1 && Halting(b)
    ensures Halting(Filled(b, s, row, signalRow, price, signal, mayOpen))
  {
    hide Closed, Slipped, StopLevel;
    if b.side != 0 { ClosedHalting(b, s, row, price, BySignal); }
  }

  lemma {:induction false} StopCheckedHalting(b: Book, s: Settings, row: nat, candle: Candle)
    requires Sound(b) && ValidCandle(candle) && Halting(b)
    ensures Halting(StopChecked(b, s, row, candle))
  {
    hide Closed, Halting;
    if b.stop.Some? {
      ClosedHalting(b, s, row, candle.open, ByGap);
      ClosedHalting(b, s, row, b.stop.value, ByStop);
    }
  }

  lemma {:induction false} RecordedHalting(b: Book, s: Settings, row: nat, close: real)
    requires Sound(b) && row == |b.position| == |b.equity| && Halting(b)
    ensures Halting(Recorded(b, s, row, close))
  {
    hide Closed, Worth;
    if b.side != 0 { ClosedHalting(b, s, row, close, ByRuin); }
    var marked := Marked(b, s, row, close);
    if !marked.halted && marked.side != 0 {
      var p := marked.(peak := if marked.equity[row] > marked.peak then marked.equity[row] else marked.peak);
      ClosedHalting(p, s, row, close, ByDrawdown);
    }
  }

  lemma {:induction false} StepHalting(c: Cursor, s: Settings, candle: Candle, row: nat, isLast: bool)
    requires ValidSettings(s) && ValidCandle(candle) && Ready(c, row) && Halting(c.book)
    ensures Halting(Step(c, s, candle, row, isLast).book)
  {
    hide Filled, StopChecked, Recorded, Halting;
    if c.book.halted {
      IdleHalting(c.book);
    } else {
      TradedKeepsSeries(c, s, candle, row, isLast);
      if c.pending.Some? { FilledHalting(c.book, s, row, row - 1, candle.open, c.pending.value, true); }
      var filled := if c.pending.None? then c.book
                    else Filled(c.book, s, row, row - 1, candle.open, c.pending.value, true);
      StopCheckedHalting(filled, s, row, candle);
      FilledHalting(StopChecked(filled, s, row, candle), s, row, row, candle.close, candle.signal, !isLast);
      RecordedHalting(Traded(c, s, candle, row, isLast).book, s, row, candle.close);
    }
  }

  lemma {:induction false} IdleHalting(b: Book)
    requires Halting(b)
    ensures Halting(b.(position := b.position + [0], equity := b.equity + [b.capital]))
  {
  }

  lemma {:induction false} RunHalting(candles: seq<Candle>, s: Settings, k: nat)
    requires ValidCandles(candles) && ValidSettings(s) && k <= |candles|
    ensures Halting(RunTo(candles, s, k).book)
  {
    hide Step;
    if k > 0 {
      RunHalting(candles, s, k - 1);
      StepHalting(RunTo(candles, s, k - 1), s, candles[k - 1], k - 1, k == |candles|);
    }
  }

  /** Only the last trade can be closed by the end, a ruin or the drawdown stop, or lose everything. */
  lemma {:induction false} FinalTradeIsLast(candles: seq<Candle>, s: Settings)
    requires ValidCandles(candles) && ValidSettings(s)
    ensures OnlyLastIsFinal(Backtest(candles, s).trades)
  {
    hide RunTo, Closed;
    RunHalting(candles, s, |candles|);
    var b := RunTo(candles, s, |candles|).book;
    if candles == [] {
      StartIsFlat(candles, s);
    } else if b.side != 0 {
      ClosedHalting(b, s, |candles| - 1, candles[|candles| - 1].close, ByEnd);
    }
  }

  /** After every row: capital is positive, or 0 in a halted run; a halted run holds nothing. */
  lemma {:induction false} CapitalPositiveOrRuined(candles: seq<Candle>, s: Settings, k: nat)
    requires ValidCandles(candles) && ValidSettings(s) && k <= |candles|
    ensures Solvent(RunTo(candles, s, k).book)
  {
    hide RunTo;
    RunCoherent(candles, s, k);
  }

  function Zeros(n: nat): (r: seq<int>)
    ensures |r| == n && forall i | 0 <= i < n :: r[i] == 0
  {
    seq(n, _ => 0)
  }

  function Repeat(x: real, n: nat): (r: seq<real>)
    ensures |r| == n && forall i | 0 <= i < n :: r[i] == x
  {
    seq(n, _ => x)
  }

  lemma {:induction false} HaltedRunIdles(candles: seq<Candle>, s: Settings, j: nat, k: nat)
    requires ValidCandles(candles) && ValidSettings(s) && j <= k <= |candles|
    requires RunTo(candles, s, j).book.halted
    ensures var b, c := RunTo(candles, s, j).book, RunTo(candles, s, k).book;
            c == b.(position := b.position + Zeros(k - j), equity := b.equity + Repeat(b.capital, k - j))
    decreases k
  {
    hide Traded, Recorded;
    var b := RunTo(candles, s, j).book;
    if j == k {
      assert b.position + Zeros(0) == b.position && b.equity + Repeat(b.capital, 0) == b.equity;
    } else {
      HaltedRunIdles(candles, s, j, k - 1);
      assert b.position + Zeros(k - 1 - j) + [0] == b.position + Zeros(k - j);
      assert b.equity + Repeat(b.capital, k - 1 - j) + [b.capital] == b.equity + Repeat(b.capital, k - j);
    }
  }

  /**
   Halting absorbs: from a halt on the finished run adds no trade, and its series go on with zeros and with
   the capital there was at the halt.
   */
  lemma {:induction false} HaltAbsorbs(candles: seq<Candle>, s: Settings, j: nat)
    requires ValidCandles(candles) && ValidSettings(s) && j <= |candles|
    requires RunTo(candles, s, j).book.halted
    ensures var b, c := RunTo(candles, s, j).book, Backtest(candles, s);
            && c.trades == b.trades && c.capital == b.capital
            && c.position == b.position + Zeros(|candles| - j)
            && c.equity == b.equity + Repeat(b.capital, |candles| - j)
  {
    hide RunTo;
    HaltedRunIdles(candles, s, j, |candles|);
    RunHalting(candles, s, j);
  }

  // ---------- the sign of the equity ----------

  /** No recorded equity is negative, and one of a row that ends with a position is positive. */
  predicate NotNegative(b: Book) {
    && |b.position| == |b.equity|
    && forall r: nat | r < |b.equity| :: 0.0 <= b.equity[r] && (b.position[r] != 0 ==> 0.0 < b.equity[r])
  }

  lemma {:induction false} RecordedNotNegative(b: Book, s: Settings, row: nat, close: real)
    requires Sound(b) && row == |b.position| == |b.equity| && Solvent(b) && NotNegative(b)
    ensures NotNegative(Recorded(b, s, row, close))
  {
    hide ReturnOf, FeesOf, Slipped, MarkFactor;
    var marked := Marked(b, s, row, close);
    assert NotNegative(marked);
    if !marked.halted && marked.side != 0 {
      var p := marked.(peak := if marked.equity[row] > marked.peak then marked.equity[row] else marked.peak);
      ClosedNotNegative(p, s, row, close);
    }
  }

  lemma {:induction false} ClosedNotNegative(b: Book, s: Settings, row: nat, price: real)
    requires Sound(b) && b.side != 0 && 0.0 <= b.capital
    ensures 0.0 <= Closed(b, s, row, price, ByDrawdown).capital && 0.0 <= Closed(b, s, row, price, ByEnd).capital
  {
    hide ReturnOf, FeesOf, Slipped;
    ProductPositiveOrZero(b.capital, 1.0 + TradeOf(b, s, row, price, ByDrawdown).ret);
    ProductPositiveOrZero(b.capital, 1.0 + TradeOf(b, s, row, price, ByEnd).ret);
  }

  lemma {:induction false} ProductPositiveOrZero(x: real, y: real)
    requires 0.0 <= x
    ensures 0.0 <= y ==> 0.0 <= x * y
  {
  }

  lemma {:induction false} StepNotNegative(c: Cursor, candles: seq<Candle>, s: Settings, k: nat)
    requires ValidCandles(candles) && ValidSettings(s) && k < |candles| && Ready(c, k)
    requires Coherent(c.book, candles, s.fee, k, k) && (s.fill.SignalClose? ==> c.pending.None?)
    requires NotNegative(c.book)
    ensures NotNegative(Step(c, s, candles[k], k, k == |candles| - 1).book)
  {
    hide Traded, Recorded, Coherent, Compound;
    SolventOfRun(c.book, candles, s.fee, k);
    if !c.book.halted {
      var t, last := Traded(c, s, candles[k], k, k == |candles| - 1).book, k == |candles| - 1;
      TradedCoherent(c, s, candles, k);
      SolventMidRow(t, candles, s.fee, k);
      TradedKeepsSeries(c, s, candles[k], k, last);
      RecordedNotNegative(t, s, k, candles[k].close);
    }
  }

  lemma {:induction false} RunNotNegative(candles: seq<Candle>, s: Settings, k: nat)
    requires ValidCandles(candles) && ValidSettings(s) && k <= |candles|
    ensures NotNegative(RunTo(candles, s, k).book) && Solvent(RunTo(candles, s, k).book)
  {
    hide *;
    RunCoherent(candles, s, k);
    SolventOfRun(RunTo(candles, s, k).book, candles, s.fee, k);
    if k == 0 {
      StartNotNegative(candles, s);
    } else {
      RunNotNegative(candles, s, k - 1);
      RunCoherent(candles, s, k - 1);
      RunSteps(candles, s, k - 1);
      StepNotNegative(RunTo(candles, s, k - 1), candles, s, k - 1);
    }
  }

  lemma {:induction false} StartNotNegative(candles: seq<Candle>, s: Settings)
    requires ValidCandles(candles) && ValidSettings(s)
    ensures NotNegative(RunTo(candles, s, 0).book)
  {
  }

  lemma {:induction false} SolventOfRun(b: Book, candles: seq<Candle>, fee: real, k: nat)
    requires Coherent(b, candles, fee, k, k)
    ensures Solvent(b)
  {
  }

  /** The equity of a finished run is never negative, and positive on every row held. */
  lemma {:induction false} EquityIsNotNegative(candles: seq<Candle>, s: Settings)
    requires ValidCandles(candles) && ValidSettings(s)
    ensures NotNegative(Backtest(candles, s))
  {
    hide RunTo, Closed;
    RunEnds(candles, s);
    RunNotNegative(candles, s, |candles|);
    var b, last := RunTo(candles, s, |candles|).book, |candles| - 1;
    if candles != [] && b.side != 0 {
      ClosedNotNegative(b, s, last, candles[last].close);
      ClosedKeepsSeries(b, s, last, candles[last].close, ByEnd);
    }
  }

  lemma {:induction false} ClosedKeepsSeries(b: Book, s: Settings, row: nat, price: real, reason: Reason)
    requires Sound(b) && b.side != 0
    ensures SameSeries(b, Closed(b, s, row, price, reason))
  {
  }
}
