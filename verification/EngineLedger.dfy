/**
 The trades determine the series: whatever a run's positions and equities are, they can be read off
 its list of trades, and the trades are in order and do not overlap.
 */
module EngineLedger {
  import opened Options
  import opened Engine
  import opened EngineArithmetic

  // ---------- reading a series off a list of trades ----------

  /** What the trades leave of a capital of 1. */
  function Compound(ts: seq<Trade>): real {
    if ts == [] then 1.0 else Compound(ts[..|ts| - 1]) * Factor(ts[|ts| - 1])
  }

  predicate Proper(ts: seq<Trade>) {
    forall i | 0 <= i < |ts| :: ProperTrade(ts[i])
  }

  predicate ProperTrade(t: Trade) {
    0.0 < t.openPrice && (t.side == 1 || t.side == -1)
  }

  /** In time order: a trade opens after the one before it opened, and not before it closed. */
  predicate Ordered(ts: seq<Trade>) {
    && (forall i | 0 <= i < |ts| :: ts[i].signalRow <= ts[i].openRow <= ts[i].closeRow)
    && (forall i, j | 0 <= i < j < |ts| :: ts[i].openRow < ts[j].openRow && ts[i].closeRow <= ts[j].openRow)
  }

  predicate Holds(t: Trade, row: nat) {
    t.openRow <= row < t.closeRow
  }

  /** The side held after `row`, looking back from the last trade. */
  function PositionAt(ts: seq<Trade>, row: nat): int {
    if ts == [] then 0
    else
      var t := ts[|ts| - 1];
      if t.closeRow <= row then 0
      else if t.openRow <= row then t.side
      else PositionAt(ts[..|ts| - 1], row)
  }

  /** The equity recorded for `row`, looking back from the last trade. */
  function EquityAt(ts: seq<Trade>, candles: seq<Candle>, fee: real, row: nat): real
    requires Proper(ts) && row < |candles|
  {
    if ts == [] then 1.0
    else
      var before, t := ts[..|ts| - 1], ts[|ts| - 1];
      if t.closeRow <= row then Compound(ts)
      else if t.openRow <= row then Compound(before) * MarkFactor(t.side, candles[row].close, t.openPrice, fee)
      else EquityAt(before, candles, fee, row)
  }

  lemma {:induction false} CompoundAppend(ts: seq<Trade>, t: Trade)
    ensures Compound(ts + [t]) == Compound(ts) * Factor(t)
  {
    assert (ts + [t])[..|ts|] == ts;
  }

  lemma {:induction false} PositionAppend(ts: seq<Trade>, t: Trade, row: nat)
    ensures PositionAt(ts + [t], row) ==
            if t.closeRow <= row then 0 else if t.openRow <= row then t.side else PositionAt(ts, row)
  {
    assert (ts + [t])[..|ts|] == ts;
  }

  lemma {:induction false} EquityAppend(ts: seq<Trade>, t: Trade, candles: seq<Candle>, fee: real, row: nat)
    requires Proper(ts) && ProperTrade(t) && row < |candles|
    ensures Proper(ts + [t])
    ensures EquityAt(ts + [t], candles, fee, row) ==
            if t.closeRow <= row then Compound(ts + [t])
            else if t.openRow <= row then Compound(ts) * MarkFactor(t.side, candles[row].close, t.openPrice, fee)
            else EquityAt(ts, candles, fee, row)
  {
    assert (ts + [t])[..|ts|] == ts;
  }

  /** A row cannot tell two last trades apart that open alike and close after it. */
  lemma {:induction false} SameReading(ts: seq<Trade>, t: Trade, u: Trade, candles: seq<Candle>, fee: real, row: nat)
    requires Proper(ts) && ProperTrade(t) && row < |candles| && row < t.closeRow && row < u.closeRow
    requires t.openRow == u.openRow && t.side == u.side && t.openPrice == u.openPrice
    ensures Proper(ts + [t]) && Proper(ts + [u])
    ensures PositionAt(ts + [t], row) == PositionAt(ts + [u], row)
    ensures EquityAt(ts + [t], candles, fee, row) == EquityAt(ts + [u], candles, fee, row)
  {
    PositionAppend(ts, t, row);
    PositionAppend(ts, u, row);
    EquityAppend(ts, t, candles, fee, row);
    EquityAppend(ts, u, candles, fee, row);
  }

  lemma {:induction false} OrderedReplace(ts: seq<Trade>, t: Trade, u: Trade)
    requires Ordered(ts + [t]) && u.signalRow == t.signalRow && u.openRow == t.openRow <= u.closeRow
    ensures Ordered(ts + [u])
  {
    var a, b := ts + [t], ts + [u];
    forall i, j | 0 <= i < j < |b| ensures b[i].openRow < b[j].openRow && b[i].closeRow <= b[j].openRow {
      assert a[i].openRow < a[j].openRow && a[i].closeRow <= a[j].openRow;
    }
    forall i | 0 <= i < |b| ensures b[i].signalRow <= b[i].openRow <= b[i].closeRow {
      assert a[i].signalRow <= a[i].openRow;
    }
  }

  /** Once every trade is closed the book is flat and worth what they compound to. */
  lemma {:induction false} AllClosed(ts: seq<Trade>, candles: seq<Candle>, fee: real, row: nat)
    requires Proper(ts) && row < |candles|
    requires forall i | 0 <= i < |ts| :: ts[i].closeRow <= row
    ensures PositionAt(ts, row) == 0 && EquityAt(ts, candles, fee, row) == Compound(ts)
  {
  }

  // ---------- the invariant of a run ----------

  /** The trades, and the open position as a trade that has not closed before row `n`. */
  function Ledger(b: Book, n: nat): seq<Trade> {
    if b.side == 0 then b.trades else b.trades + [OpenTrade(b, n)]
  }

  function OpenTrade(b: Book, n: nat): Trade {
    Trade(b.signalRow, b.entryRow, n, b.side, b.entryPrice, 0.0, b.stop, ByEnd, 0.0, 0.0, 0.0)
  }

  /** `n` rows recorded and everything so far on a row before `bound`. */
  predicate Coherent(b: Book, candles: seq<Candle>, fee: real, n: nat, bound: nat) {
    && Sound(b)
    && |b.position| == |b.equity| == n <= |candles|
    && Proper(b.trades)
    && n <= bound && Ordered(Ledger(b, bound))
    && (forall i | 0 <= i < |b.trades| :: b.trades[i].closeRow < bound)
    && (b.side != 0 ==> b.entryRow < bound)
    && b.capital == Compound(b.trades)
    && Solvent(b)
    && Explained(b, candles, fee, n)
  }

  /** Capital is positive until the run halts, and a halted run holds nothing. */
  predicate Solvent(b: Book) {
    && 0.0 <= b.capital
    && (!b.halted ==> 0.0 < b.capital)
    && (b.halted ==> b.side == 0)
  }

  /** The recorded rows are the ones the ledger gives. */
  predicate Explained(b: Book, candles: seq<Candle>, fee: real, n: nat)
    requires Sound(b) && Proper(b.trades) && |b.position| == |b.equity| == n <= |candles|
  {
    forall r: nat | r < n ::
      b.position[r] == PositionAt(Ledger(b, n), r) && b.equity[r] == EquityAt(Ledger(b, n), candles, fee, r)
  }

  /** No position was opened on `row` yet. */
  predicate Unopened(b: Book, row: nat) {
    && (forall i | 0 <= i < |b.trades| :: b.trades[i].openRow < row)
    && (b.side != 0 ==> b.entryRow < row)
  }

  lemma {:induction false} ClosedCapital(b: Book, s: Settings, row: nat, price: real, reason: Reason)
    requires Sound(b) && b.side != 0 && b.capital == Compound(b.trades)
    requires Solvent(b)
    ensures var r := Closed(b, s, row, price, reason); r.capital == Compound(r.trades) && Solvent(r)
  {
    var t := TradeOf(b, s, row, price, reason);
    CompoundAppend(b.trades, t);
    ProductPositive(b.capital, 1.0 + t.ret);
  }

  lemma {:induction false} ClosedAgrees(b: Book, s: Settings, candles: seq<Candle>, n: nat, row: nat, price: real, reason: Reason, r: nat)
    requires Sound(b) && b.side != 0 && Proper(b.trades) && r < n <= |candles| && r < row
    ensures var c := Closed(b, s, row, price, reason);
            && Proper(c.trades)
            && PositionAt(Ledger(b, n), r) == PositionAt(c.trades, r)
            && EquityAt(Ledger(b, n), candles, s.fee, r) == EquityAt(c.trades, candles, s.fee, r)
  {
    SameReading(b.trades, TradeOf(b, s, row, price, reason), OpenTrade(b, n), candles, s.fee, r);
  }

  lemma {:induction false} ClosedCoherent(b: Book, candles: seq<Candle>, s: Settings, row: nat, price: real, reason: Reason)
    requires Coherent(b, candles, s.fee, row, row + 1) && b.side != 0
    ensures Coherent(Closed(b, s, row, price, reason), candles, s.fee, row, row + 1)
  {
    hide Compound, PositionAt, EquityAt, ReturnOf, FeesOf, Slipped;
    var c := Closed(b, s, row, price, reason);
    ClosedCapital(b, s, row, price, reason);
    OrderedReplace(b.trades, OpenTrade(b, row + 1), TradeOf(b, s, row, price, reason));
    forall r: nat | r < row
      ensures c.position[r] == PositionAt(c.trades, r) && Proper(c.trades) && c.equity[r] == EquityAt(c.trades, candles, s.fee, r)
    {
      ClosedAgrees(b, s, candles, row, row, price, reason, r);
    }
  }

  lemma {:induction false} OpenedCoherent(b: Book, candles: seq<Candle>, s: Settings, row: nat, signalRow: nat, price: real, side: int)
    requires ValidSettings(s) && 0.0 < price && -1 <= side <= 1 && side != 0 && signalRow <= row
    requires Coherent(b, candles, s.fee, row, row + 1) && b.side == 0 && !b.halted && Unopened(b, row)
    ensures Coherent(Opened(b, s, row, signalRow, price, side), candles, s.fee, row, row + 1)
  {
    var c := Opened(b, s, row, signalRow, price, side);
    var t := OpenTrade(c, row);
    forall r: nat | r < row
      ensures c.position[r] == PositionAt(Ledger(c, row), r)
      ensures c.equity[r] == EquityAt(Ledger(c, row), candles, s.fee, r)
    {
      PositionAppend(b.trades, t, r);
      EquityAppend(b.trades, t, candles, s.fee, r);
    }
  }

  lemma {:induction false} FilledCoherent(b: Book, candles: seq<Candle>, s: Settings, row: nat, signalRow: nat, price: real, signal: int, mayOpen: bool)
    requires ValidSettings(s) && 0.0 < price && -1 <= signal <= 1 && signalRow <= row
    requires Coherent(b, candles, s.fee, row, row + 1) && Unopened(b, row)
    ensures Coherent(Filled(b, s, row, signalRow, price, signal, mayOpen), candles, s.fee, row, row + 1)
  {
    var c := b;
    if b.side != 0 && b.side != signal {
      ClosedCoherent(b, candles, s, row, price, BySignal);
      c := Closed(b, s, row, price, BySignal);
    }
    if c.side == 0 && signal != 0 && !c.halted {
      OpenedCoherent(c, candles, s, row, signalRow, price, signal);
    }
  }

  lemma {:induction false} ClosedUnopened(b: Book, s: Settings, row: nat, price: real, reason: Reason)
    requires Sound(b) && b.side != 0
    ensures Unopened(b, row) ==> Unopened(Closed(b, s, row, price, reason), row)
  {
    hide ReturnOf, FeesOf, Slipped;
  }

  lemma {:induction false} StopCheckedCoherent(b: Book, candles: seq<Candle>, s: Settings, row: nat, candle: Candle)
    requires Sound(b) && ValidCandle(candle) && Coherent(b, candles, s.fee, row, row + 1)
    ensures Coherent(StopChecked(b, s, row, candle), candles, s.fee, row, row + 1)
    ensures Unopened(b, row) ==> Unopened(StopChecked(b, s, row, candle), row)
  {
    hide Coherent, Closed;
    if b.side != 0 && b.stop.Some? {
      ClosedCoherent(b, candles, s, row, candle.open, ByGap);
      ClosedCoherent(b, candles, s, row, b.stop.value, ByStop);
      ClosedUnopened(b, s, row, candle.open, ByGap);
      ClosedUnopened(b, s, row, b.stop.value, ByStop);
    }
  }

  lemma {:induction false} RuinCoherent(b: Book, candles: seq<Candle>, s: Settings, row: nat)
    requires ValidSettings(s) && ValidCandles(candles)
    requires row < |candles| && Coherent(b, candles, s.fee, row, row + 1)
    requires b.side != 0 && Worth(b, s, candles[row].close) <= 0.0
    ensures Coherent(Marked(b, s, row, candles[row].close), candles, s.fee, row + 1, row + 1)
  {
    var close := candles[row].close;
    MarkBoundsClose(b, s, row, close, ByRuin);
    ClosedCoherent(b, candles, s, row, close, ByRuin);
    AllClosed(Closed(b, s, row, close, ByRuin).trades, candles, s.fee, row);
  }

  lemma {:induction false} HeldCoherent(b: Book, candles: seq<Candle>, s: Settings, row: nat)
    requires row < |candles| && Coherent(b, candles, s.fee, row, row + 1)
    requires b.side != 0 && 0.0 < Worth(b, s, candles[row].close)
    ensures Coherent(Marked(b, s, row, candles[row].close), candles, s.fee, row + 1, row + 1)
  {
    hide Compound, PositionAt, EquityAt, Slipped, ReturnOf, FeesOf;
    var c := Marked(b, s, row, candles[row].close);
    forall r: nat | r < row + 1
      ensures c.position[r] == PositionAt(Ledger(c, row + 1), r)
      ensures c.equity[r] == EquityAt(Ledger(c, row + 1), candles, s.fee, r)
    {
      if r < row {
        SameReading(b.trades, OpenTrade(b, row), OpenTrade(c, row + 1), candles, s.fee, r);
      } else {
        PositionAppend(b.trades, OpenTrade(c, row + 1), r);
        EquityAppend(b.trades, OpenTrade(c, row + 1), candles, s.fee, r);
      }
    }
  }

  lemma {:induction false} MarkedCoherent(b: Book, candles: seq<Candle>, s: Settings, row: nat)
    requires ValidSettings(s) && ValidCandles(candles)
    requires row < |candles| && Coherent(b, candles, s.fee, row, row + 1)
    ensures Coherent(Marked(b, s, row, candles[row].close), candles, s.fee, row + 1, row + 1)
  {
    if b.side == 0 {
      AllClosed(b.trades, candles, s.fee, row);
    } else if Worth(b, s, candles[row].close) <= 0.0 {
      RuinCoherent(b, candles, s, row);
    } else {
      HeldCoherent(b, candles, s, row);
    }
  }

  /** Closing the position a row was just recorded with, and recording the row again. */
  lemma {:induction false} ReclosedCoherent(b: Book, candles: seq<Candle>, s: Settings, row: nat, price: real, reason: Reason)
    requires Coherent(b, candles, s.fee, row + 1, row + 1) && b.side != 0
    ensures var c := Closed(b, s, row, price, reason);
            Coherent(c.(position := c.position[row := 0], equity := c.equity[row := c.capital]), candles, s.fee, row + 1, row + 1)
  {
    hide ReturnOf, FeesOf, Slipped, Compound, PositionAt, EquityAt, Factor;
    var closed := Closed(b, s, row, price, reason);
    var c := closed.(position := closed.position[row := 0], equity := closed.equity[row := closed.capital]);
    ClosedCapital(b, s, row, price, reason);
    OrderedReplace(b.trades, OpenTrade(b, row + 1), TradeOf(b, s, row, price, reason));
    forall r: nat | r < row + 1
      ensures c.position[r] == PositionAt(c.trades, r) && Proper(c.trades) && c.equity[r] == EquityAt(c.trades, candles, s.fee, r)
    {
      if r < row {
        ClosedAgrees(b, s, candles, row + 1, row, price, reason, r);
      } else {
        AllClosed(c.trades, candles, s.fee, row);
      }
    }
  }

  /** Neither the peak nor a halt of a flat book is told by the ledger. */
  lemma {:induction false} FlagsCoherent(b: Book, candles: seq<Candle>, fee: real, n: nat, peak: real, halted: bool)
    requires Coherent(b, candles, fee, n, n) && (b.side == 0 || halted == b.halted) && (b.halted ==> halted)
    ensures Coherent(b.(peak := peak, halted := halted), candles, fee, n, n)
  {
    hide Compound, PositionAt, EquityAt;
    var c := b.(peak := peak, halted := halted);
    assert forall r: nat :: Ledger(c, r) == Ledger(b, r);
  }

  lemma {:induction false} DrawdownCheckedCoherent(b: Book, candles: seq<Candle>, s: Settings, row: nat)
    requires Sound(b) && row < |candles| && |b.position| == |b.equity| == row + 1
    requires Coherent(b, candles, s.fee, row + 1, row + 1)
    ensures Coherent(DrawdownChecked(b, s, row, candles[row].close), candles, s.fee, row + 1, row + 1)
  {
    hide Coherent, ReturnOf, FeesOf, Slipped;
    var close := candles[row].close;
    var peak := if b.equity[row] > b.peak then b.equity[row] else b.peak;
    var p := b.(peak := peak);
    FlagsCoherent(b, candles, s.fee, row + 1, peak, b.halted);
    if p.side == 0 {
      FlagsCoherent(p, candles, s.fee, row + 1, peak, true);
    } else {
      ReclosedCoherent(p, candles, s, row, close, ByDrawdown);
      var c := Closed(p, s, row, close, ByDrawdown);
      var r := c.(position := c.position[row := 0], equity := c.equity[row := c.capital]);
      FlagsCoherent(r, candles, s.fee, row + 1, r.peak, true);
    }
  }

  lemma {:induction false} RecordedCoherent(b: Book, candles: seq<Candle>, s: Settings, row: nat)
    requires ValidSettings(s) && ValidCandles(candles) && Sound(b)
    requires row < |candles| && row == |b.position| == |b.equity|
    requires Coherent(b, candles, s.fee, row, row + 1)
    ensures Coherent(Recorded(b, s, row, candles[row].close), candles, s.fee, row + 1, row + 1)
  {
    hide Coherent, DrawdownChecked, Closed;
    MarkedCoherent(b, candles, s, row);
    var marked := Marked(b, s, row, candles[row].close);
    if !marked.halted {
      MarkedLength(b, s, row, candles[row].close);
      DrawdownCheckedCoherent(marked, candles, s, row);
    }
  }

  lemma {:induction false} MarkedLength(b: Book, s: Settings, row: nat, close: real)
    requires Sound(b) && |b.position| == |b.equity|
    ensures var r := Marked(b, s, row, close); |r.position| == |r.equity| == |b.position| + 1
  {
    hide ReturnOf, FeesOf, Slipped;
  }

  lemma {:induction false} IdleCoherent(b: Book, candles: seq<Candle>, s: Settings, row: nat)
    requires ValidSettings(s) && ValidCandles(candles) && row < |candles|
    requires b.halted && Coherent(b, candles, s.fee, row, row)
    ensures Coherent(b.(position := b.position + [0], equity := b.equity + [b.capital]), candles, s.fee, row + 1, row + 1)
  {
    hide ReturnOf, FeesOf, Slipped, Compound, PositionAt, EquityAt;
    NextRow(b, candles, s.fee, row);
    MarkedCoherent(b, candles, s, row);
  }

  lemma {:induction false} NextRow(b: Book, candles: seq<Candle>, fee: real, row: nat)
    requires Coherent(b, candles, fee, row, row)
    ensures Coherent(b, candles, fee, row, row + 1) && Unopened(b, row)
  {
    if b.side != 0 { OrderedReplace(b.trades, OpenTrade(b, row), OpenTrade(b, row + 1)); }
    var ledger := Ledger(b, row);
    forall i | 0 <= i < |b.trades| ensures b.trades[i].openRow < row {
      assert ledger[i] == b.trades[i];
    }
  }

  lemma {:induction false} TradedCoherent(c: Cursor, s: Settings, candles: seq<Candle>, row: nat)
    requires ValidSettings(s) && ValidCandles(candles) && row < |candles| && Ready(c, row)
    requires Coherent(c.book, candles, s.fee, row, row)
    requires s.fill.SignalClose? ==> c.pending.None?
    ensures Coherent(Traded(c, s, candles[row], row, row == |candles| - 1).book, candles, s.fee, row, row + 1)
  {
    hide Coherent, Closed, Opened, Filled, StopChecked;
    var candle := candles[row];
    var filled := c.book;
    NextRow(c.book, candles, s.fee, row);
    if c.pending.Some? {
      filled := Filled(c.book, s, row, row - 1, candle.open, c.pending.value, true);
      FilledCoherent(c.book, candles, s, row, row - 1, candle.open, c.pending.value, true);
    }
    StopCheckedCoherent(filled, candles, s, row, candle);
    if s.fill.SignalClose? && candle.signal != c.previous {
      assert Unopened(filled, row);
      FilledCoherent(StopChecked(filled, s, row, candle), candles, s, row, row, candle.close, candle.signal, row < |candles| - 1);
    }
  }

  lemma {:induction false} StartCoherent(candles: seq<Candle>, fee: real)
    ensures Coherent(START, candles, fee, 0, 0)
  {
  }

  /** The invariant of every run, in both fill modes: after each row the book is coherent. */
  lemma {:induction false} RunCoherent(candles: seq<Candle>, s: Settings, k: nat)
    requires ValidCandles(candles) && ValidSettings(s) && k <= |candles|
    ensures var c := RunTo(candles, s, k);
            Coherent(c.book, candles, s.fee, k, k) && (s.fill.SignalClose? ==> c.pending.None?)
  {
    hide Coherent, Traded, Recorded;
    if k == 0 {
      StartCoherent(candles, s.fee);
    } else {
      RunCoherent(candles, s, k - 1);
      var c := RunTo(candles, s, k - 1);
      if c.book.halted {
        IdleCoherent(c.book, candles, s, k - 1);
      } else {
        var t := Traded(c, s, candles[k - 1], k - 1, k == |candles|);
        TradedCoherent(c, s, candles, k - 1);
        TradedPending(c, s, candles[k - 1], k - 1, k == |candles|);
        TradedKeepsSeries(c, s, candles[k - 1], k - 1, k == |candles|);
        RecordedCoherent(t.book, candles, s, k - 1);
      }
    }
  }

  lemma {:induction false} SolventMidRow(b: Book, candles: seq<Candle>, fee: real, row: nat)
    requires Coherent(b, candles, fee, row, row + 1)
    ensures Solvent(b)
  {
  }

  lemma {:induction false} TradedPending(c: Cursor, s: Settings, candle: Candle, row: nat, isLast: bool)
    requires ValidSettings(s) && ValidCandle(candle) && Ready(c, row)
    ensures var r := Traded(c, s, candle, row, isLast);
            r.pending == if s.fill.NextOpen? && candle.signal != c.previous then Some(candle.signal) else None
  {
    hide Filled, StopChecked;
  }

  lemma {:induction false} BacktestCoherent(candles: seq<Candle>, s: Settings)
    requires ValidCandles(candles) && ValidSettings(s)
    ensures Coherent(Backtest(candles, s), candles, s.fee, |candles|, |candles|)
    ensures Backtest(candles, s).side == 0
  {
    hide Coherent, RunTo, ReturnOf, FeesOf, Slipped;
    RunCoherent(candles, s, |candles|);
    var book := RunTo(candles, s, |candles|).book;
    if candles == [] {
      StartCoherent(candles, s.fee);
      StartIsFlat(candles, s);
    } else if book.side != 0 {
      ReclosedCoherent(book, candles, s, |candles| - 1, candles[|candles| - 1].close, ByEnd);
    }
  }

  lemma {:induction false} StartIsFlat(candles: seq<Candle>, s: Settings)
    requires ValidCandles(candles) && ValidSettings(s)
    ensures RunTo(candles, s, 0).book == START
  {
  }

  // ---------- what it says about a finished run ----------

  lemma {:induction false} ReadingOfTrade(ts: seq<Trade>, candles: seq<Candle>, fee: real, row: nat, i: nat)
    requires Ordered(ts) && Proper(ts) && row < |candles| && i < |ts| && Holds(ts[i], row)
    ensures PositionAt(ts, row) == ts[i].side
    ensures EquityAt(ts, candles, fee, row) == Compound(ts[..i]) * MarkFactor(ts[i].side, candles[row].close, ts[i].openPrice, fee)
  {
    hide Compound, MarkFactor;
    var before := ts[..|ts| - 1];
    if i < |ts| - 1 {
      ReadingOfTrade(before, candles, fee, row, i);
      assert before[..i] == ts[..i];
    }
  }

  /** Between trades: the first `i` trades are closed and the others not open yet. */
  lemma {:induction false} ReadingBetween(ts: seq<Trade>, candles: seq<Candle>, fee: real, row: nat, i: nat)
    requires Ordered(ts) && Proper(ts) && row < |candles| && i <= |ts|
    requires forall j | 0 <= j < i :: ts[j].closeRow <= row
    requires forall j | i <= j < |ts| :: row < ts[j].openRow
    ensures PositionAt(ts, row) == 0
    ensures EquityAt(ts, candles, fee, row) == Compound(ts[..i])
  {
    if i == |ts| {
      AllClosed(ts, candles, fee, row);
      assert ts[..i] == ts;
    } else {
      var before := ts[..|ts| - 1];
      ReadingBetween(before, candles, fee, row, i);
      assert before[..i] == ts[..i];
    }
  }

  /** A flat book's series are what its trades give. */
  lemma {:induction false} ReadOff(b: Book, candles: seq<Candle>, fee: real)
    requires Coherent(b, candles, fee, |candles|, |candles|) && b.side == 0
    ensures Ordered(b.trades) && Proper(b.trades) && |b.position| == |b.equity| == |candles|
    ensures forall i | 0 <= i < |b.trades| :: b.trades[i].closeRow < |candles|
    ensures forall r: nat | r < |candles| ::
              b.position[r] == PositionAt(b.trades, r) && b.equity[r] == EquityAt(b.trades, candles, fee, r)
  {
    hide Compound, PositionAt, EquityAt;
  }

  /**
   The trades determine the series. After a run they are ordered and do not overlap, and on every
   row: the trade that holds it, if any, gives the position and, with the trades before it, the
   equity; between trades the book is flat and worth what the closed trades compound to.
   */
  lemma {:induction false} TradesDetermineSeries(candles: seq<Candle>, s: Settings)
    requires ValidCandles(candles) && ValidSettings(s)
    ensures var b := Backtest(candles, s);
            && Ordered(b.trades) && Proper(b.trades)
            && |b.position| == |b.equity| == |candles|
            && (forall i | 0 <= i < |b.trades| :: b.trades[i].closeRow < |candles|)
            && (forall i: nat, r: nat | i < |b.trades| && r < |candles| && Holds(b.trades[i], r) ::
                  && b.position[r] == b.trades[i].side
                  && b.equity[r] == Compound(b.trades[..i]) * MarkFactor(b.trades[i].side, candles[r].close, b.trades[i].openPrice, s.fee))
            && (forall i: nat, r: nat | i <= |b.trades| && r < |candles| && Between(b.trades, i, r) ::
                  b.position[r] == 0 && b.equity[r] == Compound(b.trades[..i]))
  {
    hide Backtest, PositionAt, EquityAt, MarkFactor, Compound, Ordered, Coherent;
    BacktestCoherent(candles, s);
    var b := Backtest(candles, s);
    ReadOff(b, candles, s.fee);
    forall i: nat, r: nat | i < |b.trades| && r < |candles| && Holds(b.trades[i], r)
      ensures b.position[r] == b.trades[i].side
      ensures b.equity[r] == Compound(b.trades[..i]) * MarkFactor(b.trades[i].side, candles[r].close, b.trades[i].openPrice, s.fee)
    {
      ReadingOfTrade(b.trades, candles, s.fee, r, i);
    }
    forall i: nat, r: nat | i <= |b.trades| && r < |candles| && Between(b.trades, i, r)
      ensures b.position[r] == 0 && b.equity[r] == Compound(b.trades[..i])
    {
      ReadingBetween(b.trades, candles, s.fee, r, i);
    }
  }

  predicate Between(ts: seq<Trade>, i: nat, row: nat)
    requires i <= |ts|
  {
    && (forall j | 0 <= j < i :: ts[j].closeRow <= row)
    && (forall j | i <= j < |ts| :: row < ts[j].openRow)
  }

  /** Every row is either held by a trade or between trades, never both: the reading is total. */
  lemma {:induction false} EveryRowIsRead(ts: seq<Trade>, row: nat)
    requires Ordered(ts)
    ensures (exists i: nat :: i < |ts| && Holds(ts[i], row)) != (exists i: nat :: i <= |ts| && Between(ts, i, row))
  {
    if ts == [] {
      assert Between(ts, 0, row);
    } else {
      var before, t := ts[..|ts| - 1], ts[|ts| - 1];
      EveryRowIsRead(before, row);
      if t.closeRow <= row {
        assert Between(ts, |ts|, row);
      } else if t.openRow <= row {
        assert Holds(ts[|ts| - 1], row);
      } else if i: nat :| i < |before| && Holds(before[i], row) {
        assert Holds(ts[i], row);
      } else {
        var i: nat :| i <= |before| && Between(before, i, row);
        assert Between(ts, i, row);
      }
    }
  }
}
