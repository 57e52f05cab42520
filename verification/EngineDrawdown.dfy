/**
 The drawdown stop: the run halts exactly when the drawdown that the metrics report reaches the
 stop, and up to there the stop changes nothing.
 */
module EngineDrawdown {
  import opened Options
  import opened Engine
  import opened EngineArithmetic
  import opened EngineLedger
  import opened EngineCausality
  import opened EngineHalting
  import opened Metrics

  predicate AtLevel(equity: seq<real>, stop: real, row: nat)
    requires row < |equity|
  {
    equity[row] <= PeakOf(equity[..row + 1]) * (1.0 - stop)
  }

  /** No recorded equity is at the stop's level. */
  predicate AboveLevel(equity: seq<real>, stop: Option<real>) {
    stop.Some? ==> forall r: nat | r < |equity| :: !AtLevel(equity, stop.value, r)
  }

  /** The engine's peak is the metrics' running peak, and the stop has not been reached. */
  predicate Watched(b: Book, s: Settings) {
    b.peak == PeakOf(b.equity) && AboveLevel(b.equity, s.drawdownStop)
  }

  lemma {:induction false} PeakAppend(equity: seq<real>, e: real)
    ensures PeakOf(equity + [e]) == if e > PeakOf(equity) then e else PeakOf(equity)
  {
    assert (equity + [e])[..|equity|] == equity;
  }

  lemma {:induction false} AboveAppend(equity: seq<real>, stop: real, e: real)
    requires AboveLevel(equity, Some(stop)) && e > PeakOf(equity + [e]) * (1.0 - stop)
    ensures AboveLevel(equity + [e], Some(stop))
  {
    hide AtLevel, PeakOf;
    var longer := equity + [e];
    forall r: nat | r < |longer| ensures !AtLevel(longer, stop, r) {
      if r < |equity| { AtLevelKept(equity, e, stop, r); } else { AtLevelLast(equity, e, stop); }
    }
  }

  lemma {:induction false} AtLevelKept(equity: seq<real>, e: real, stop: real, row: nat)
    requires row < |equity|
    ensures AtLevel(equity + [e], stop, row) <==> AtLevel(equity, stop, row)
  {
    hide PeakOf;
    assert (equity + [e])[..row + 1] == equity[..row + 1];
  }

  lemma {:induction false} AtLevelLast(equity: seq<real>, e: real, stop: real)
    ensures AtLevel(equity + [e], stop, |equity|) <==> e <= PeakOf(equity + [e]) * (1.0 - stop)
  {
    hide PeakOf;
    assert (equity + [e])[..|equity| + 1] == equity + [e];
  }

  lemma {:induction false} LevelBelowPeak(peak: real, stop: real, e: real)
    requires 1.0 <= peak && 0.0 < stop < 1.0
    ensures 0.0 < peak * (1.0 - stop) < peak
  {
  }

  /** A row that does not halt the run keeps the watch; one that halts it recorded the level. */
  lemma {:induction false} RecordedWatched(b: Book, s: Settings, row: nat, close: real)
    requires ValidSettings(s) && Sound(b) && row == |b.position| == |b.equity| && 0.0 < close
    requires Solvent(b) && (b.halted ==> b.capital == 0.0) && Watched(b, s)
    ensures var r := Recorded(b, s, row, close);
            && (!r.halted ==> Watched(r, s))
            && (r.halted && s.drawdownStop.Some? ==> |r.equity| == row + 1 && AtLevel(r.equity, s.drawdownStop.value, row))
  {
    hide ReturnOf, FeesOf, Slipped, Closed, Worth, PeakOf, AtLevel;
    var marked := Marked(b, s, row, close);
    var r := Recorded(b, s, row, close);
    RecordedLength(b, s, row, close);
    assert r.equity[..row + 1] == r.equity;
    if marked.halted {
      RuinedAtLevel(b, s, row, close);
    } else {
      var e := Worth(b, s, close);
      assert marked.equity == b.equity + [e];
      PeakAppend(b.equity, e);
      var p := marked.(peak := if e > marked.peak then e else marked.peak);
      assert p.peak == PeakOf(marked.equity);
      if s.drawdownStop.Some? {
        if DrawnDown(p, s, e) {
          DrawnAtLevel(b, s, row, close);
        } else {
          AboveAppend(b.equity, s.drawdownStop.value, e);
        }
      }
    }
  }

  lemma {:induction false} RuinedAtLevel(b: Book, s: Settings, row: nat, close: real)
    requires ValidSettings(s) && Sound(b) && row == |b.position| == |b.equity|
    requires Solvent(b) && (b.halted ==> b.capital == 0.0) && Marked(b, s, row, close).halted
    ensures var r := Marked(b, s, row, close);
            |r.equity| == row + 1 && (s.drawdownStop.Some? ==> AtLevel(r.equity, s.drawdownStop.value, row))
  {
    hide ReturnOf, FeesOf, Slipped;
    var r := Marked(b, s, row, close);
    assert r.equity == b.equity + [0.0];
    if s.drawdownStop.Some? { NothingIsAtLevel(b.equity, s.drawdownStop.value); }
  }

  lemma {:induction false} NothingIsAtLevel(equity: seq<real>, stop: real)
    requires 0.0 < stop < 1.0
    ensures AtLevel(equity + [0.0], stop, |equity|)
  {
    hide PeakOf;
    var longer := equity + [0.0];
    assert longer[..|equity| + 1] == longer;
    LevelBelowPeak(PeakOf(longer), stop, 0.0);
  }

  /** The row that trips the stop records at most its mark, so its own entry is at the level too. */
  lemma {:induction false} DrawnAtLevel(b: Book, s: Settings, row: nat, close: real)
    requires ValidSettings(s) && Sound(b) && row == |b.position| == |b.equity| && 0.0 < close
    requires Solvent(b) && !b.halted && Watched(b, s) && s.drawdownStop.Some?
    requires !Marked(b, s, row, close).halted
    requires var e := Worth(b, s, close);
             DrawnDown(b.(peak := if e > b.peak then e else b.peak), s, e)
    ensures var r := Recorded(b, s, row, close);
            |r.equity| == row + 1 && AtLevel(r.equity, s.drawdownStop.value, row)
  {
    hide ReturnOf, FeesOf, Slipped, MarkFactor, PeakOf, AboveLevel, AtLevel, Worth, Closed, Compounded;
    var stop, e := s.drawdownStop.value, Worth(b, s, close);
    if e > b.peak { LevelBelowPeak(e, stop, e); }
    DrawnRecords(b, s, row, close);
    var recorded := Recorded(b, s, row, close).equity[row];
    LowerAtLevel(b.equity, recorded, e, b.peak, stop);
  }

  /** The row that trips the stop records its mark, or what closing there leaves, which is less. */
  lemma {:induction false} DrawnRecords(b: Book, s: Settings, row: nat, close: real)
    requires ValidSettings(s) && Sound(b) && row == |b.position| == |b.equity| && 0.0 < close
    requires Solvent(b) && !b.halted && !Marked(b, s, row, close).halted
    ensures var r := Recorded(b, s, row, close);
            |r.equity| == row + 1 && r.equity == b.equity + [r.equity[row]] && r.equity[row] <= Worth(b, s, close)
  {
    hide ReturnOf, FeesOf, Slipped, MarkFactor, Closed;
    var e, marked := Worth(b, s, close), Marked(b, s, row, close);
    assert marked.equity == b.equity + [e];
    if b.side != 0 {
      var p := marked.(peak := if marked.equity[row] > marked.peak then marked.equity[row] else marked.peak);
      MarkBoundsClose(p, s, row, close, ByDrawdown);
      ClosedKeepsSeries(p, s, row, close, ByDrawdown);
    }
  }

  lemma {:induction false} LowerAtLevel(equity: seq<real>, recorded: real, e: real, peak: real, stop: real)
    requires peak == PeakOf(equity) && recorded <= e <= peak * (1.0 - stop) && 0.0 < stop < 1.0
    ensures AtLevel(equity + [recorded], stop, |equity|)
  {
    hide PeakOf, AtLevel;
    PeakAppend(equity, recorded);
    ProductMonotone(1.0 - stop, peak, PeakOf(equity + [recorded]));
    AtLevelLast(equity, recorded, stop);
  }

  /** Within a row only a ruin halts the run. */
  predicate RuinOnly(b: Book) {
    b.halted ==> b.capital == 0.0
  }

  lemma {:induction false} FilledRuinOnly(b: Book, s: Settings, row: nat, signalRow: nat, price: real, signal: int, mayOpen: bool)
    requires ValidSettings(s) && Sound(b) && 0.0 < price && -1 <= signal <= 1 && RuinOnly(b)
    ensures RuinOnly(Filled(b, s, row, signalRow, price, signal, mayOpen))
  {
    hide ReturnOf, FeesOf, Slipped, StopLevel;
  }

  lemma {:induction false} StopCheckedRuinOnly(b: Book, s: Settings, row: nat, candle: Candle)
    requires Sound(b) && ValidCandle(candle) && RuinOnly(b)
    ensures RuinOnly(StopChecked(b, s, row, candle))
  {
    hide ReturnOf, FeesOf, Slipped;
  }

  lemma {:induction false} TradedRuinOnly(c: Cursor, s: Settings, candle: Candle, row: nat, isLast: bool)
    requires ValidSettings(s) && ValidCandle(candle) && Ready(c, row) && !c.book.halted
    ensures RuinOnly(Traded(c, s, candle, row, isLast).book)
  {
    hide Filled, StopChecked;
    if c.pending.Some? { FilledRuinOnly(c.book, s, row, row - 1, candle.open, c.pending.value, true); }
    var filled := if c.pending.None? then c.book
                  else Filled(c.book, s, row, row - 1, candle.open, c.pending.value, true);
    StopCheckedRuinOnly(filled, s, row, candle);
    FilledRuinOnly(StopChecked(filled, s, row, candle), s, row, row, candle.close, candle.signal, !isLast);
  }

  lemma {:induction false} StepWatched(candles: seq<Candle>, s: Settings, k: nat)
    requires ValidCandles(candles) && ValidSettings(s) && k < |candles|
    requires !RunTo(candles, s, k).book.halted && Watched(RunTo(candles, s, k).book, s)
    ensures var r := RunTo(candles, s, k + 1).book;
            && (!r.halted ==> Watched(r, s))
            && (r.halted && s.drawdownStop.Some? ==> AtLevel(r.equity, s.drawdownStop.value, k))
  {
    hide Traded, Recorded, AtLevel, AboveLevel, PeakOf;
    var c, candle := RunTo(candles, s, k), candles[k];
    var t := Traded(c, s, candle, k, k + 1 == |candles|);
    RunCoherent(candles, s, k);
    TradedCoherent(c, s, candles, k);
    SolventMidRow(t.book, candles, s.fee, k);
    TradedKeepsSeries(c, s, candle, k, k + 1 == |candles|);
    TradedRuinOnly(c, s, candle, k, k + 1 == |candles|);
    RecordedWatched(t.book, s, k, candle.close);
  }

  lemma {:induction false} StartWatched(candles: seq<Candle>, s: Settings)
    requires ValidCandles(candles) && ValidSettings(s)
    ensures Watched(RunTo(candles, s, 0).book, s)
  {
  }

  lemma {:induction false} StaysHalted(candles: seq<Candle>, s: Settings, j: nat, k: nat)
    requires ValidCandles(candles) && ValidSettings(s) && j <= k <= |candles|
    ensures RunTo(candles, s, j).book.halted ==> RunTo(candles, s, k).book.halted
  {
    hide RunTo;
    if RunTo(candles, s, j).book.halted { HaltedRunIdles(candles, s, j, k); }
  }

  lemma {:induction false} RunWatched(candles: seq<Candle>, s: Settings, k: nat)
    requires ValidCandles(candles) && ValidSettings(s) && k <= |candles|
    ensures !RunTo(candles, s, k).book.halted ==> Watched(RunTo(candles, s, k).book, s)
  {
    hide RunTo, Watched;
    if k == 0 {
      StartWatched(candles, s);
    } else if !RunTo(candles, s, k).book.halted {
      StaysHalted(candles, s, k - 1, k);
      RunWatched(candles, s, k - 1);
      StepWatched(candles, s, k - 1);
    }
  }

  /** While a run goes on, the engine's peak is the running peak of what it recorded. */
  lemma {:induction false} PeakIsRunningPeak(candles: seq<Candle>, s: Settings, k: nat)
    requires ValidCandles(candles) && ValidSettings(s) && k <= |candles|
    requires !RunTo(candles, s, k).book.halted
    ensures RunTo(candles, s, k).book.peak == PeakOf(RunTo(candles, s, k).book.equity)
  {
    hide RunTo, AboveLevel;
    RunWatched(candles, s, k);
  }

  lemma {:induction false} HaltedRunReachedLevel(candles: seq<Candle>, s: Settings, k: nat) returns (row: nat)
    requires ValidCandles(candles) && ValidSettings(s) && k <= |candles| && s.drawdownStop.Some?
    requires RunTo(candles, s, k).book.halted
    ensures row < k && AtLevel(RunTo(candles, s, k).book.equity, s.drawdownStop.value, row)
  {
    hide RunTo, AtLevel, Watched;
    if k == 0 {
      StartNotHalted(candles, s);
    } else if RunTo(candles, s, k - 1).book.halted {
      row := HaltedRunReachedLevel(candles, s, k - 1);
      HaltedRunIdles(candles, s, k - 1, k);
      AtLevelExtends(RunTo(candles, s, k - 1).book.equity, RunTo(candles, s, k).book.equity, s.drawdownStop.value, row);
    } else {
      RunWatched(candles, s, k - 1);
      StepWatched(candles, s, k - 1);
      row := k - 1;
    }
  }

  lemma {:induction false} StartNotHalted(candles: seq<Candle>, s: Settings)
    requires ValidCandles(candles) && ValidSettings(s)
    ensures !RunTo(candles, s, 0).book.halted
  {
  }

  lemma {:induction false} AtLevelExtends(a: seq<real>, b: seq<real>, stop: real, row: nat)
    requires row < |a| <= |b| && b[..|a|] == a
    ensures AtLevel(a, stop, row) <==> AtLevel(b, stop, row)
  {
    assert b[..row + 1] == b[..|a|][..row + 1] == a[..row + 1];
    assert b[row] == b[..|a|][row];
  }

  lemma {:induction false} LevelIsDrawdown(equity: seq<real>, stop: real, row: nat)
    requires row < |equity|
    ensures AtLevel(equity, stop, row) <==> DrawdownAt(equity, row) <= -stop
  {
    var peak := PeakOf(equity[..row + 1]);
    var q := equity[row] / peak;
    assert q * peak == equity[row];
    if q <= 1.0 - stop { ProductMonotone(peak, q, 1.0 - stop); }
    else { assert peak * (q - (1.0 - stop)) > 0.0; }
  }

  /**
   The run is halted after `row` exactly when the drawdown the metrics report of its equity has reached
   the stop on some row up to it. So the halting row is the first one there, and every row before it is
   above the level. Only a position that the data's end closes can reach it without a halt, by the costs
   of that close.
   */
  lemma {:induction false} HaltsExactlyAtDrawdown(candles: seq<Candle>, s: Settings, row: nat)
    requires ValidCandles(candles) && ValidSettings(s) && s.drawdownStop.Some? && row < |candles|
    ensures |Backtest(candles, s).equity| == |candles|
    ensures RunTo(candles, s, row + 1).book.halted <==>
            && (exists r: nat :: r <= row && Drawdown(Backtest(candles, s).equity)[r] <= -s.drawdownStop.value)
            && !(row + 1 == |candles| && RunTo(candles, s, |candles|).book.side != 0)
  {
    hide RunTo, Backtest, AtLevel, PeakOf, DrawdownAt, ClosedBefore, OpenedBefore;
    var stop, k := s.drawdownStop.value, row + 1;
    KnownSoFar(candles, s, k);
    var known, equity := RunTo(candles, s, k).book.equity, Backtest(candles, s).equity;
    if k < |candles| || RunTo(candles, s, |candles|).book.side == 0 {
      forall r: nat | r <= row ensures AtLevel(known, stop, r) <==> Drawdown(equity)[r] <= -stop {
        AtLevelExtends(known, equity, stop, r);
        LevelIsDrawdown(equity, stop, r);
      }
      if RunTo(candles, s, k).book.halted {
        var r := HaltedRunReachedLevel(candles, s, k);
        assert Drawdown(equity)[r] <= -stop;
      } else {
        RunWatched(candles, s, k);
      }
    } else {
      RunHalting(candles, s, k);
    }
  }

  /** The equity recorded so far stays, unless the end of the data records its last row anew. */
  lemma {:induction false} KnownSoFar(candles: seq<Candle>, s: Settings, k: nat)
    requires ValidCandles(candles) && ValidSettings(s) && k <= |candles|
    ensures |Backtest(candles, s).equity| == |candles| && |RunTo(candles, s, k).book.equity| == k
    ensures k < |candles| || RunTo(candles, s, |candles|).book.side == 0 ==>
              Backtest(candles, s).equity[..k] == RunTo(candles, s, k).book.equity
  {
    hide RunTo, Backtest, ClosedBefore, OpenedBefore, Coherent;
    BacktestCoherent(candles, s);
    LengthOf(Backtest(candles, s), candles, s.fee, |candles|);
    RunEnds(candles, s);
    if k < |candles| { KnownBefore(candles, s, k); }
  }

  lemma {:induction false} LengthOf(b: Book, candles: seq<Candle>, fee: real, k: nat)
    requires Coherent(b, candles, fee, k, k)
    ensures |b.equity| == |b.position| == k
  {
  }

  // ---------- the stop changes nothing before it halts the run ----------

  function Without(s: Settings): Settings {
    s.(drawdownStop := None)
  }

  /** The order is not opened because the capital is already at the level. */
  predicate Refused(b: Book, s: Settings) {
    s.fill.SignalClose? && b.side == 0 && !b.halted && DrawnDown(b, s, b.capital)
  }

  lemma {:induction false} RefusedHaltsFlat(b: Book, s: Settings, row: nat, close: real)
    requires ValidSettings(s) && Sound(b) && row == |b.position| == |b.equity|
    requires Refused(b, s) && 1.0 <= b.peak
    ensures Recorded(b, s, row, close) == b.(halted := true, position := b.position + [0], equity := b.equity + [b.capital])
  {
    LevelBelowPeak(b.peak, s.drawdownStop.value, b.capital);
  }

  /** What the decision on row `k` leaves of the position held there, before it would open the new one. */
  function Left(candles: seq<Candle>, s: Settings, k: nat): Book
    requires ValidCandles(candles) && ValidSettings(s) && k < |candles|
  {
    var b := Arrived(RunTo(candles, s, k), s, candles[k], k);
    if b.side != 0 && b.side != candles[k].signal then Closed(b, s, k, candles[k].close, BySignal) else b
  }

  /** On row `k` the signal changes to a side, and the order is refused: the capital is at the level already. */
  predicate OrderRefused(candles: seq<Candle>, s: Settings, k: nat)
    requires ValidCandles(candles) && ValidSettings(s) && k < |candles|
  {
    && !RunTo(candles, s, k).book.halted
    && candles[k].signal != RunTo(candles, s, k).previous && candles[k].signal != 0
    && Refused(Left(candles, s, k), s)
  }

  /** A refused order opens nothing, and its row halts the run without a position, at the capital left. */
  lemma {:induction false} RefusalHaltsFlat(candles: seq<Candle>, s: Settings, k: nat)
    requires ValidCandles(candles) && ValidSettings(s) && k < |candles| && OrderRefused(candles, s, k)
    ensures var b, left := RunTo(candles, s, k + 1).book, Left(candles, s, k);
            && b.halted && b.side == 0 && b.trades == left.trades && b.capital == left.capital
            && |b.position| == |b.equity| == k + 1 && b.position[k] == 0 && b.equity[k] == left.capital
  {
    hide RunTo, Arrived, Closed, Recorded, AboveLevel, PeakOf;
    var c, left, last := RunTo(candles, s, k), Left(candles, s, k), k == |candles| - 1;
    RunWatched(candles, s, k);
    RunSteps(candles, s, k);
    TradedKeepsSeries(c, s, candles[k], k, last);
    assert Traded(c, s, candles[k], k, last).book == left;
    RefusedHaltsFlat(left, s, k, candles[k].close);
  }

  lemma {:induction false} SameClose(b: Book, s: Settings, row: nat, price: real, reason: Reason)
    requires Sound(b) && b.side != 0
    ensures Closed(b, s, row, price, reason) == Closed(b, Without(s), row, price, reason)
  {
    assert TradeOf(b, s, row, price, reason) == TradeOf(b, Without(s), row, price, reason);
  }

  lemma {:induction false} SameOpen(b: Book, s: Settings, row: nat, signalRow: nat, price: real, side: int)
    requires ValidSettings(s) && Sound(b) && b.side == 0 && 0.0 < price && -1 <= side <= 1 && side != 0
    ensures Opened(b, s, row, signalRow, price, side) == Opened(b, Without(s), row, signalRow, price, side)
  {
    hide Slipped, StopLevel;
  }

  lemma {:induction false} SameFill(b: Book, s: Settings, row: nat, signalRow: nat, price: real, signal: int, mayOpen: bool)
    requires ValidSettings(s) && Sound(b) && 0.0 < price && -1 <= signal <= 1
    ensures var r := Filled(b, s, row, signalRow, price, signal, mayOpen);
            r == Filled(b, Without(s), row, signalRow, price, signal, mayOpen) || Refused(r, s)
  {
    hide Closed, Opened;
    var c := b;
    if b.side != 0 && b.side != signal {
      SameClose(b, s, row, price, BySignal);
      c := Closed(b, s, row, price, BySignal);
    }
    if signal != 0 && c.side == 0 { SameOpen(c, s, row, signalRow, price, signal); }
  }

  lemma {:induction false} SameStop(b: Book, s: Settings, row: nat, candle: Candle)
    requires ValidSettings(s) && Sound(b) && ValidCandle(candle)
    ensures StopChecked(b, s, row, candle) == StopChecked(b, Without(s), row, candle)
  {
    hide Closed;
    if b.stop.Some? {
      SameClose(b, s, row, candle.open, ByGap);
      SameClose(b, s, row, b.stop.value, ByStop);
    }
  }

  lemma {:induction false} SameTraded(c: Cursor, s: Settings, candle: Candle, row: nat, isLast: bool)
    requires ValidSettings(s) && ValidCandle(candle) && Ready(c, row)
    requires s.fill.SignalClose? ==> c.pending.None?
    ensures var r := Traded(c, s, candle, row, isLast);
            r == Traded(c, Without(s), candle, row, isLast) || Refused(r.book, s)
  {
    hide Filled, StopChecked;
    if c.pending.Some? { SameFill(c.book, s, row, row - 1, candle.open, c.pending.value, true); }
    var filled := if c.pending.None? then c.book
                  else Filled(c.book, s, row, row - 1, candle.open, c.pending.value, true);
    SameStop(filled, s, row, candle);
    SameFill(StopChecked(filled, s, row, candle), s, row, row, candle.close, candle.signal, !isLast);
  }

  lemma {:induction false} SameRecorded(b: Book, s: Settings, row: nat, close: real)
    requires ValidSettings(s) && Sound(b) && row == |b.position| == |b.equity|
    requires !Recorded(b, s, row, close).halted
    ensures Recorded(b, s, row, close) == Recorded(b, Without(s), row, close)
  {
    hide Closed, MarkFactor;
    if b.side != 0 { SameClose(b, s, row, close, ByRuin); }
    assert Worth(b, s, close) == Worth(b, Without(s), close);
  }

  lemma {:induction false} SameStep(c: Cursor, s: Settings, candle: Candle, row: nat, isLast: bool)
    requires ValidSettings(s) && ValidCandle(candle) && Ready(c, row) && !c.book.halted && 1.0 <= c.book.peak
    requires s.fill.SignalClose? ==> c.pending.None?
    requires !Step(c, s, candle, row, isLast).book.halted
    ensures ValidSettings(Without(s)) && Step(c, Without(s), candle, row, isLast) == Step(c, s, candle, row, isLast)
  {
    hide Traded, Recorded, Refused;
    var t := Traded(c, s, candle, row, isLast);
    TradedKeepsSeries(c, s, candle, row, isLast);
    SameTraded(c, s, candle, row, isLast);
    if Refused(t.book, s) { RefusedHaltsFlat(t.book, s, row, candle.close); }
    SameRecorded(t.book, s, row, candle.close);
  }

  lemma {:induction false} SameStart(candles: seq<Candle>, s: Settings)
    requires ValidCandles(candles) && ValidSettings(s)
    ensures ValidSettings(Without(s)) && RunTo(candles, Without(s), 0) == RunTo(candles, s, 0)
  {
  }

  /** Up to the halt, the states with and without a drawdown stop are equal. */
  lemma {:induction false} StopChangesNothingBefore(candles: seq<Candle>, s: Settings, k: nat)
    requires ValidCandles(candles) && ValidSettings(s) && k <= |candles|
    requires !RunTo(candles, s, k).book.halted
    ensures RunTo(candles, Without(s), k) == RunTo(candles, s, k)
  {
    hide *;
    SameStart(candles, s);
    if k > 0 {
      StaysHalted(candles, s, k - 1, k);
      StopChangesNothingBefore(candles, s, k - 1);
      RunCoherent(candles, s, k - 1);
      PeakIsRunningPeak(candles, s, k - 1);
      RunSteps(candles, s, k - 1);
      RunSteps(candles, Without(s), k - 1);
      SameStep(RunTo(candles, s, k - 1), s, candles[k - 1], k - 1, k == |candles|);
    }
  }

  // ---------- where the run without the stop would reach the level ----------

  /** A row marked at the level, or at 0, records the level in a run without the stop. */
  lemma {:induction false} MarkReachesLevel(b: Book, s: Settings, row: nat, close: real)
    requires ValidSettings(s) && Sound(b) && row == |b.position| == |b.equity| && s.drawdownStop.Some?
    requires Solvent(b) && b.peak == PeakOf(b.equity)
    requires var e := Worth(b, s, close); e <= 0.0 || DrawnDown(b.(peak := if e > b.peak then e else b.peak), s, e)
    ensures var r := Recorded(b, Without(s), row, close);
            |r.equity| == row + 1 && AtLevel(r.equity, s.drawdownStop.value, row)
  {
    hide ReturnOf, FeesOf, Slipped, MarkFactor, PeakOf, AtLevel;
    var e, stop := Worth(b, s, close), s.drawdownStop.value;
    assert Worth(b, Without(s), close) == e;
    var r := Recorded(b, Without(s), row, close);
    if e <= 0.0 {
      assert r.equity == b.equity + [0.0];
      NothingIsAtLevel(b.equity, stop);
    } else {
      assert r.equity == b.equity + [e];
      LevelOf(b.equity, e, stop);
    }
  }

  lemma {:induction false} LevelOf(equity: seq<real>, e: real, stop: real)
    requires e <= (if e > PeakOf(equity) then e else PeakOf(equity)) * (1.0 - stop)
    ensures AtLevel(equity + [e], stop, |equity|)
  {
    PeakAppend(equity, e);
    assert (equity + [e])[..|equity| + 1] == equity + [e];
  }

  /** A row that halts the run without refusing an order was marked there. */
  lemma {:induction false} HaltingMark(b: Book, s: Settings, row: nat, close: real)
    requires Sound(b) && row == |b.position| == |b.equity| && RuinOnly(b) && Solvent(b) && Recorded(b, s, row, close).halted
    ensures var e := Worth(b, s, close); e <= 0.0 || DrawnDown(b.(peak := if e > b.peak then e else b.peak), s, e)
  {
    hide Closed, MarkFactor;
    assert Marked(b, s, row, close).halted ==> b.halted || Worth(b, s, close) <= 0.0;
  }

  /** Slippage moves an entry against the position: at the price itself it has gained nothing. */
  lemma {:induction false} EntryCosts(price: real, side: int, slippage: real)
    requires 0.0 < price && (side == 1 || side == -1) && 0.0 <= slippage < 1.0
    ensures 0.0 < Slipped(price, side, slippage)
    ensures side as real * (price / Slipped(price, side, slippage) - 1.0) <= 0.0
  {
    var entry := Slipped(price, side, slippage);
    SlippedPositive(price, side, slippage);
    ProductPositive(price, slippage);
    assert entry / entry == 1.0;
    if side == 1 { QuotientMonotone(price, entry, entry); } else { QuotientMonotone(entry, price, entry); }
  }

  /** Opened at a close, a position is marked there at no more than the capital. */
  lemma {:induction false} OpeningCosts(b: Book, s: Settings, row: nat, signalRow: nat, price: real, side: int)
    requires ValidSettings(s) && Sound(b) && b.side == 0 && 0.0 < price && (side == 1 || side == -1) && 0.0 <= b.capital
    ensures Worth(Opened(b, s, row, signalRow, price, side), s, price) <= b.capital
  {
    hide StopLevel, Slipped;
    EntryCosts(price, side, s.slippage);
    ProductMonotone(b.capital, MarkFactor(side, price, Slipped(price, side, s.slippage), s.fee), 1.0);
  }

  /** What the stop refuses, the run without it opens at the close. */
  lemma {:induction false} RefusedFill(b: Book, s: Settings, row: nat, signalRow: nat, price: real, signal: int, mayOpen: bool)
    requires ValidSettings(s) && Sound(b) && 0.0 < price && -1 <= signal <= 1
    requires Refused(Filled(b, s, row, signalRow, price, signal, mayOpen), s)
    ensures var r, u := Filled(b, s, row, signalRow, price, signal, mayOpen), Filled(b, Without(s), row, signalRow, price, signal, mayOpen);
            u == r || (signal != 0 && u == Opened(r, Without(s), row, signalRow, price, signal))
  {
    hide Closed, Opened;
    if b.side != 0 && b.side != signal { SameClose(b, s, row, price, BySignal); }
    OpenedHolds(b, s, row, signalRow, price, signal);
    if b.side != 0 && b.side != signal { OpenedHolds(Closed(b, s, row, price, BySignal), s, row, signalRow, price, signal); }
  }

  lemma {:induction false} OpenedHolds(b: Book, s: Settings, row: nat, signalRow: nat, price: real, side: int)
    requires ValidSettings(s) && Sound(b) && 0.0 < price && -1 <= side <= 1
    ensures b.side == 0 && side != 0 ==> Opened(b, s, row, signalRow, price, side).side == side
  {
  }

  /** On a row that halts a run with the stop, one without it, in the same state, reaches the level. */
  lemma {:induction false} HaltingStepReachesLevel(c: Cursor, candles: seq<Candle>, s: Settings, k: nat)
    requires ValidCandles(candles) && ValidSettings(s) && s.drawdownStop.Some? && k < |candles| && Ready(c, k)
    requires Coherent(c.book, candles, s.fee, k, k) && (s.fill.SignalClose? ==> c.pending.None?)
    requires !c.book.halted && c.book.peak == PeakOf(c.book.equity)
    requires Step(c, s, candles[k], k, k + 1 == |candles|).book.halted
    ensures var e := Step(c, Without(s), candles[k], k, k + 1 == |candles|).book.equity;
            |e| == k + 1 && AtLevel(e, s.drawdownStop.value, k)
  {
    hide Traded, Recorded, AtLevel, PeakOf, Refused, Coherent, Worth;
    var candle, last := candles[k], k + 1 == |candles|;
    var t, u := Traded(c, s, candle, k, last).book, Traded(c, Without(s), candle, k, last).book;
    TradedCoherent(c, s, candles, k);
    TradedCoherent(c, Without(s), candles, k);
    SolventMidRow(t, candles, s.fee, k);
    SolventMidRow(u, candles, s.fee, k);
    TradedKeepsSeries(c, s, candle, k, last);
    TradedKeepsSeries(c, Without(s), candle, k, last);
    TradedRuinOnly(c, s, candle, k, last);
    SameTraded(c, s, candle, k, last);
    if u == t { HaltingMark(t, s, k, candle.close); } else { RefusedMark(c, candles, s, k); }
    MarkReachesLevel(u, s, k, candle.close);
  }

  /** On the row that halts the run, the run without the stop is at the level. */
  lemma {:induction false} HaltingRowReachesLevel(candles: seq<Candle>, s: Settings, k: nat)
    requires ValidCandles(candles) && ValidSettings(s) && s.drawdownStop.Some? && k < |candles|
    requires !RunTo(candles, s, k).book.halted && RunTo(candles, s, k + 1).book.halted
    ensures var e := RunTo(candles, Without(s), k + 1).book.equity; |e| == k + 1 && AtLevel(e, s.drawdownStop.value, k)
  {
    hide *;
    WithoutIsValid(s);
    StopChangesNothingBefore(candles, s, k);
    RunCoherent(candles, s, k);
    PeakIsRunningPeak(candles, s, k);
    RunSteps(candles, s, k);
    RunSteps(candles, Without(s), k);
    HaltingStepReachesLevel(RunTo(candles, s, k), candles, s, k);
  }

  lemma {:induction false} RefusedMark(c: Cursor, candles: seq<Candle>, s: Settings, k: nat)
    requires ValidCandles(candles) && ValidSettings(s) && k < |candles| && Ready(c, k)
    requires s.fill.SignalClose? ==> c.pending.None?
    requires var t := Traded(c, s, candles[k], k, k + 1 == |candles|).book; Refused(t, s) && Solvent(t) && 1.0 <= t.peak
    ensures var u := Traded(c, Without(s), candles[k], k, k + 1 == |candles|).book; var e := Worth(u, s, candles[k].close);
            DrawnDown(u.(peak := if e > u.peak then e else u.peak), s, e)
  {
    hide Filled, StopChecked, Opened, MarkFactor;
    var candle, last := candles[k], k + 1 == |candles|;
    var t, u := Traded(c, s, candle, k, last).book, Traded(c, Without(s), candle, k, last).book;
    SameStop(c.book, s, k, candle);
    var arrived := StopChecked(c.book, s, k, candle);
    LevelBelowPeak(t.peak, s.drawdownStop.value, t.capital);
    if candle.signal != c.previous {
      RefusedFill(arrived, s, k, k, candle.close, candle.signal, !last);
      if u != t {
        OpeningCosts(t, Without(s), k, k, candle.close, candle.signal);
        OpenedKeeps(t, Without(s), k, k, candle.close, candle.signal);
      }
    }
    assert Worth(u, s, candle.close) == Worth(u, Without(s), candle.close) <= t.capital;
  }

  lemma {:induction false} OpenedKeeps(b: Book, s: Settings, row: nat, signalRow: nat, price: real, side: int)
    requires ValidSettings(s) && Sound(b) && b.side == 0 && 0.0 < price && -1 <= side <= 1 && side != 0
    ensures Opened(b, s, row, signalRow, price, side).peak == b.peak
  {
  }

  /** The first row that halted the run. */
  lemma {:induction false} HaltingRow(candles: seq<Candle>, s: Settings, k: nat) returns (row: nat)
    requires ValidCandles(candles) && ValidSettings(s) && k <= |candles| && RunTo(candles, s, k).book.halted
    ensures row < k && !RunTo(candles, s, row).book.halted && RunTo(candles, s, row + 1).book.halted
  {
    hide RunTo;
    StartNotHalted(candles, s);
    if k > 0 && RunTo(candles, s, k - 1).book.halted { row := HaltingRow(candles, s, k - 1); } else { row := k - 1; }
  }

  /**
   The run without the stop tells where the stop halts: the run is halted after `row` exactly when the
   drawdown of what that other run has recorded by then has reached the stop on some row. Before the last
   row that is the drawdown of the finished run.
   */
  lemma {:induction false} HaltsWhereRunWithoutReachesLevel(candles: seq<Candle>, s: Settings, row: nat)
    requires ValidCandles(candles) && ValidSettings(s) && s.drawdownStop.Some? && row < |candles|
    ensures |Backtest(candles, Without(s)).equity| == |candles|
    ensures var known := RunTo(candles, Without(s), row + 1).book.equity;
            |known| == row + 1 &&
            (RunTo(candles, s, row + 1).book.halted <==> exists r: nat :: r <= row && Drawdown(known)[r] <= -s.drawdownStop.value)
    ensures row + 1 < |candles| ==>
              (RunTo(candles, s, row + 1).book.halted <==>
               exists r: nat :: r <= row && Drawdown(Backtest(candles, Without(s)).equity)[r] <= -s.drawdownStop.value)
  {
    hide *;
    var stop, k := s.drawdownStop.value, row + 1;
    WithoutIsValid(s);
    KnownSoFar(candles, Without(s), k);
    var known, equity := RunTo(candles, Without(s), k).book.equity, Backtest(candles, Without(s)).equity;
    HaltsAtLevelWithout(candles, s, k);
    forall r: nat | r <= row ensures AtLevel(known, stop, r) <==> Drawdown(known)[r] <= -stop {
      LevelIsDrawdown(known, stop, r);
    }
    if k < |candles| {
      forall r: nat | r <= row ensures AtLevel(known, stop, r) <==> Drawdown(equity)[r] <= -stop {
        AtLevelExtends(known, equity, stop, r);
        LevelIsDrawdown(equity, stop, r);
      }
    }
  }

  lemma {:induction false} WithoutIsValid(s: Settings)
    requires ValidSettings(s)
    ensures ValidSettings(Without(s))
  {
  }

  lemma {:induction false} HaltsAtLevelWithout(candles: seq<Candle>, s: Settings, k: nat)
    requires ValidCandles(candles) && ValidSettings(s) && s.drawdownStop.Some? && k <= |candles|
    ensures var known := RunTo(candles, Without(s), k).book.equity;
            |known| == k && (RunTo(candles, s, k).book.halted <==> exists r: nat :: r < k && AtLevel(known, s.drawdownStop.value, r))
  {
    hide RunTo, AtLevel, PeakOf, EntriesExtend;
    var known := RunTo(candles, Without(s), k).book.equity;
    if RunTo(candles, s, k).book.halted {
      var h := HaltingRow(candles, s, k);
      HaltingRowReachesLevel(candles, s, h);
      RunExtends(candles, Without(s), h + 1, k);
      AtLevelExtends(RunTo(candles, Without(s), h + 1).book.equity, known, s.drawdownStop.value, h);
    } else {
      StopChangesNothingBefore(candles, s, k);
      RunWatched(candles, s, k);
    }
  }
}
