/**
 The stateful loop refines the vectorised formula: without costs and stops, on a signal that is
 long or flat, filled at the close, the position is the signal from its first change on and the
 equity moves by the close-to-close ratio of the row before's position.
 */
module EngineVectorised {
  import opened Engine
  import opened EngineArithmetic

  predicate LongOrFlat(candles: seq<Candle>) {
    forall i | 0 <= i < |candles| :: candles[i].signal == 0 || candles[i].signal == 1
  }

  predicate Changed(candles: seq<Candle>, row: nat)
    requires row < |candles|
  {
    row > 0 && (candles[row].signal != candles[row - 1].signal || Changed(candles, row - 1))
  }

  /** The vectorised position: the signal once it has changed, flat before. */
  function Lagged(candles: seq<Candle>, row: nat): int
    requires row < |candles|
  {
    if Changed(candles, row) then candles[row].signal else 0
  }

  /** The vectorised equity: up with the close after a row that was long, else unchanged. */
  predicate Follows(candles: seq<Candle>, position: seq<int>, equity: seq<real>, row: nat)
    requires row < |candles| && row < |position| && row < |equity|
  {
    if row == 0 then equity[0] == 1.0
    else if position[row - 1] == 1 then equity[row] * candles[row - 1].close == equity[row - 1] * candles[row].close
    else equity[row] == equity[row - 1]
  }

  predicate Vectorised(c: Cursor, candles: seq<Candle>, k: nat) {
    var b := c.book;
    && k <= |candles| && Sound(b) && |b.position| == |b.equity| == k
    && !b.halted && b.stop.None? && c.pending.None? && 0.0 < b.capital
    && (b.side == 0 || b.side == 1)
    && (candles != [] ==> c.previous == candles[if k == 0 then 0 else k - 1].signal)
    && (k == 0 ==> b.side == 0 && b.capital == 1.0)
    && (0 < k ==> b.equity[k - 1] == Worth(b, Plain(SignalClose), candles[k - 1].close) && b.position[k - 1] == b.side)
    && (0 < k < |candles| ==> b.side == Lagged(candles, k - 1))
    && (forall r: nat | r < k && r < |candles| - 1 :: b.position[r] == Lagged(candles, r))
    && (forall r: nat | r < k :: Follows(candles, b.position, b.equity, r))
  }

  lemma {:induction false} WorthLong(b: Book, close: real)
    requires Sound(b) && b.side == 1 && 0.0 < close && 0.0 < b.capital
    ensures Worth(b, Plain(SignalClose), close) == b.capital * close / b.entryPrice
    ensures 0.0 < Worth(b, Plain(SignalClose), close)
  {
    QuotientPositive(close, b.entryPrice);
    ProductPositive(b.capital, close / b.entryPrice);
  }

  /** Closing at a price is worth what the position was marked at there. */
  lemma {:induction false} ClosingKeepsWorth(b: Book, row: nat, close: real, reason: Reason)
    requires Sound(b) && b.side == 1 && 0.0 < close && 0.0 < b.capital
    ensures var c := Closed(b, Plain(SignalClose), row, close, reason);
            c.capital == Worth(b, Plain(SignalClose), close) && c.halted == b.halted
  {
    var t := TradeOf(b, Plain(SignalClose), row, close, reason);
    assert t.closePrice == close;
    QuotientPositive(close, b.entryPrice);
    assert t.ret == close / b.entryPrice - 1.0;
  }

  lemma {:induction false} OpeningKeepsWorth(b: Book, row: nat, close: real)
    requires Sound(b) && b.side == 0 && 0.0 < close
    ensures var c := Opened(b, Plain(SignalClose), row, row, close, 1);
            Worth(c, Plain(SignalClose), close) == b.capital
  {
    var c := Opened(b, Plain(SignalClose), row, row, close, 1);
    assert c.entryPrice == close;
    assert close / close == 1.0;
  }

  /** The orders of a row leave the worth at its close alone. */
  lemma {:induction false} TradedKeepsWorth(c: Cursor, candles: seq<Candle>, k: nat)
    requires ValidCandles(candles) && LongOrFlat(candles) && k < |candles| && Ready(c, k)
    requires Vectorised(c, candles, k)
    ensures var candle := candles[k];
            var t := Traded(c, Plain(SignalClose), candle, k, k == |candles| - 1);
            && !t.book.halted && t.book.stop.None? && t.pending.None? && 0.0 < t.book.capital
            && (t.book.side == 0 || t.book.side == 1)
            && Worth(t.book, Plain(SignalClose), candle.close) == Worth(c.book, Plain(SignalClose), candle.close)
            && (k < |candles| - 1 ==> t.book.side == Lagged(candles, k))
            && (k == 0 ==> t.book == c.book)
  {
    hide ReturnOf, FeesOf, Slipped, MarkFactor, Follows, StopLevel;
    var candle, b := candles[k], c.book;
    if b.side == 1 {
      ClosingKeepsWorth(b, k, candle.close, BySignal);
      WorthLong(b, candle.close);
    } else {
      OpeningKeepsWorth(b, k, candle.close);
    }
  }

  lemma {:induction false} RecordedPlain(b: Book, row: nat, close: real)
    requires Sound(b) && row == |b.position| == |b.equity| && 0.0 < close && 0.0 < b.capital
    requires !b.halted && (b.side == 0 || b.side == 1)
    ensures var r, e := Recorded(b, Plain(SignalClose), row, close), Worth(b, Plain(SignalClose), close);
            r == b.(position := b.position + [b.side], equity := b.equity + [e],
                    peak := if e > b.peak then e else b.peak)
  {
    hide MarkFactor, Closed;
    if b.side == 1 { WorthLong(b, close); }
  }

  /** The worth at two closes, held from one to the other, moves by their ratio. */
  lemma {:induction false} WorthMoves(b: Book, before: real, close: real)
    requires Sound(b) && (b.side == 0 || b.side == 1) && 0.0 < b.capital && 0.0 < before && 0.0 < close
    ensures var was, now := Worth(b, Plain(SignalClose), before), Worth(b, Plain(SignalClose), close);
            if b.side == 1 then now * before == was * close else now == was
  {
    if b.side == 1 {
      WorthLong(b, close);
      WorthLong(b, before);
      RatioOfCloses(b.capital, b.entryPrice, before, close);
    }
  }

  lemma {:induction false} AppendFollows(candles: seq<Candle>, position: seq<int>, equity: seq<real>, side: int, e: real)
    requires |position| == |equity| < |candles|
    requires forall i: nat | i < |equity| :: Follows(candles, position, equity, i)
    requires var k := |equity|;
             if k == 0 then e == 1.0
             else if position[k - 1] == 1 then e * candles[k - 1].close == equity[k - 1] * candles[k].close
             else e == equity[k - 1]
    ensures forall i: nat | i <= |equity| :: Follows(candles, position + [side], equity + [e], i)
  {
    forall i: nat | i < |equity| ensures Follows(candles, position + [side], equity + [e], i) {
      assert Follows(candles, position, equity, i);
    }
  }

  lemma {:induction false} StepVectorised(c: Cursor, candles: seq<Candle>, k: nat)
    requires ValidCandles(candles) && LongOrFlat(candles) && k < |candles| && Ready(c, k)
    requires Vectorised(c, candles, k)
    ensures Vectorised(Step(c, Plain(SignalClose), candles[k], k, k == |candles| - 1), candles, k + 1)
  {
    hide Traded, Recorded, Lagged, Follows, Worth;
    var candle, b := candles[k], c.book;
    TradedKeepsWorth(c, candles, k);
    TradedKeepsSeries(c, Plain(SignalClose), candle, k, k == |candles| - 1);
    var t := Traded(c, Plain(SignalClose), candle, k, k == |candles| - 1).book;
    RecordedPlain(t, k, candle.close);
    var e := Worth(t, Plain(SignalClose), candle.close);
    if k > 0 {
      WorthMoves(b, candles[k - 1].close, candle.close);
    } else {
      WorthFlat(b, candle.close);
    }
    AppendFollows(candles, b.position, b.equity, t.side, e);
    PeakIsNotWorth(t, candle.close, t.position + [t.side], t.equity + [e], if e > t.peak then e else t.peak);
  }

  lemma {:induction false} WorthFlat(b: Book, close: real)
    requires Sound(b) && b.side == 0
    ensures Worth(b, Plain(SignalClose), close) == b.capital
  {
  }

  lemma {:induction false} PeakIsNotWorth(b: Book, close: real, position: seq<int>, equity: seq<real>, peak: real)
    requires Sound(b)
    ensures Worth(b.(position := position, equity := equity, peak := peak), Plain(SignalClose), close) == Worth(b, Plain(SignalClose), close)
  {
  }

  lemma {:induction false} RatioOfCloses(capital: real, entry: real, before: real, close: real)
    requires 0.0 < entry
    ensures (capital * close / entry) * before == (capital * before / entry) * close
  {
    var k := capital / entry;
    assert capital * close / entry == k * close && capital * before / entry == k * before;
  }

  lemma {:induction false} RunVectorised(candles: seq<Candle>, k: nat)
    requires ValidCandles(candles) && LongOrFlat(candles) && k <= |candles|
    ensures Vectorised(RunTo(candles, Plain(SignalClose), k), candles, k)
  {
    hide Step;
    if k > 0 {
      RunVectorised(candles, k - 1);
      StepVectorised(RunTo(candles, Plain(SignalClose), k - 1), candles, k - 1);
    }
  }

  /** The finished run is the vectorised one, the row that ends the data included. */
  lemma {:induction false} LoopRefinesVectorised(candles: seq<Candle>)
    requires ValidCandles(candles) && LongOrFlat(candles) && candles != []
    ensures var b := Backtest(candles, Plain(SignalClose));
            && |b.position| == |b.equity| == |candles|
            && (forall r: nat | r < |candles| - 1 :: b.position[r] == Lagged(candles, r))
            && b.position[|candles| - 1] == 0
            && (forall r: nat | r < |candles| :: Follows(candles, b.position, b.equity, r))
  {
    hide RunTo, Lagged, MarkFactor, ReturnOf, FeesOf, Slipped;
    var last := |candles| - 1;
    RunVectorised(candles, |candles|);
    var b, r := RunTo(candles, Plain(SignalClose), |candles|).book, Backtest(candles, Plain(SignalClose));
    if b.side == 1 { ClosingKeepsWorth(b, last, candles[last].close, ByEnd); }
    assert r.equity == b.equity;
    forall i: nat | i < |candles| ensures Follows(candles, r.position, r.equity, i) {
      assert Follows(candles, b.position, b.equity, i);
    }
  }
}
