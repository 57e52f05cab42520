/**
 What each trade is: its prices come from its candles, its costs from its prices, and its stop is
 the first touch of the level. From that: what a stop or a gap returns, that costs are never
 negative, and how low a position that survives its stop can be marked.
 */
module EngineStops {
  import opened Options
  import opened Engine
  import opened EngineArithmetic
  import opened EngineLedger
  import opened EngineHalting

  // ---------- a trade and its candles ----------

  /** The price an order is filled at on `row`, before slippage. */
  function OrderQuote(candles: seq<Candle>, s: Settings, row: nat): real
    requires row < |candles|
  {
    if s.fill.NextOpen? then candles[row].open else candles[row].close
  }

  function ExitQuote(candles: seq<Candle>, s: Settings, reason: Reason, row: nat, level: Option<real>): real
    requires row < |candles| && (reason.ByStop? ==> level.Some?)
  {
    match reason
    case BySignal => OrderQuote(candles, s, row)
    case ByGap => candles[row].open
    case ByStop => level.value
    case _ => candles[row].close
  }

  /** The price of a candle that goes furthest against `side`. */
  function Extreme(candle: Candle, side: int): real {
    if side > 0 then candle.low else candle.high
  }

  /** Whether a position opened on `openRow` has its stop checked on `row`. */
  predicate Checked(s: Settings, openRow: nat, row: nat) {
    openRow < row || (s.fill.NextOpen? && openRow == row)
  }

  /** The candle does not reach the level, at its open (when the position was held then) or within. */
  predicate Misses(candle: Candle, side: int, level: real, heldAtOpen: bool) {
    !Beyond(side, Extreme(candle, side), level) && (heldAtOpen ==> !Beyond(side, candle.open, level))
  }

  /** No checked row before `to` reached the level. */
  predicate Untouched(candles: seq<Candle>, s: Settings, openRow: nat, side: int, level: Option<real>, to: nat) {
    && to <= |candles|
    && (level.Some? ==>
          forall r: nat | r < to && Checked(s, openRow, r) :: Misses(candles[r], side, level.value, openRow < r))
  }

  /**
   Up to where a trade has missed its level: a stop or gap ends at the row that reached it, a `next_open`
   signal is filled before its row's stop is checked, and everything else comes after that check.
   */
  function MissedTo(s: Settings, closeRow: nat, reason: Reason): nat {
    match reason
    case ByStop => closeRow
    case ByGap => closeRow
    case BySignal => closeRow + 1 - if s.fill.NextOpen? then 1 else 0
    case _ => closeRow + 1
  }

  predicate Entered(candles: seq<Candle>, s: Settings, row: nat, side: int, quote: real, price: real, stop: Option<real>) {
    && row < |candles| && 0.0 < price
    && quote == OrderQuote(candles, s, row)
    && price == Slipped(quote, side, s.slippage)
    && stop == if s.stopLoss.None? then None else Some(StopLevel(price, side, s.stopLoss.value))
  }

  /** The row a trade closed on gives its reason: the first touch of the level, a mark at or below 0, or the end. */
  predicate ClosedRightly(candles: seq<Candle>, s: Settings, t: Trade)
    requires t.closeRow < |candles| && 0.0 < t.openPrice
  {
    var candle := candles[t.closeRow];
    match t.reason
    case BySignal => true
    case ByGap => t.stopPrice.Some? && t.openRow < t.closeRow && Beyond(t.side, candle.open, t.stopPrice.value)
    case ByStop =>
      && t.stopPrice.Some? && Beyond(t.side, Extreme(candle, t.side), t.stopPrice.value)
      && Checked(s, t.openRow, t.closeRow)
      && (t.openRow < t.closeRow ==> !Beyond(t.side, candle.open, t.stopPrice.value))
    case ByRuin => MarkFactor(t.side, candle.close, t.openPrice, s.fee) <= 0.0
    case ByDrawdown => s.drawdownStop.Some? && 0.0 < MarkFactor(t.side, candle.close, t.openPrice, s.fee)
    case ByEnd => t.closeRow == |candles| - 1 && 0.0 < MarkFactor(t.side, candle.close, t.openPrice, s.fee)
  }

  predicate PaidFor(s: Settings, t: Trade, entryQuote: real, exitQuote: real)
    requires 0.0 < t.openPrice && 0.0 < entryQuote
  {
    var growth := t.closePrice / t.openPrice;
    && t.closePrice == Slipped(exitQuote, -t.side, s.slippage)
    && t.fees == FeesOf(growth, s.fee)
    && t.ret == ReturnOf(t.side, growth, s.fee)
    && t.slippageCost == SlippageCostOf(t.side, exitQuote, entryQuote, growth)
  }

  /** Everything a trade records follows from its rows, its side, its reason and its candles. */
  predicate Accounted(candles: seq<Candle>, s: Settings, t: Trade) {
    && (t.side == 1 || t.side == -1)
    && t.openRow <= t.closeRow < |candles| && 0.0 < t.openPrice
    && ClosedRightly(candles, s, t)
    && (var quote := OrderQuote(candles, s, t.openRow);
        && 0.0 < quote
        && Entered(candles, s, t.openRow, t.side, quote, t.openPrice, t.stopPrice)
        && PaidFor(s, t, quote, ExitQuote(candles, s, t.reason, t.closeRow, t.stopPrice)))
    && Untouched(candles, s, t.openRow, t.side, t.stopPrice, MissedTo(s, t.closeRow, t.reason))
  }

  // ---------- the invariant ----------

  predicate Accounts(b: Book, candles: seq<Candle>, s: Settings, to: nat) {
    && (forall i | 0 <= i < |b.trades| :: Accounted(candles, s, b.trades[i]))
    && (b.side != 0 ==>
          && Entered(candles, s, b.entryRow, b.side, b.entryQuote, b.entryPrice, b.stop)
          && Untouched(candles, s, b.entryRow, b.side, b.stop, to))
  }

  lemma {:induction false} UntouchedEarlier(candles: seq<Candle>, s: Settings, openRow: nat, side: int, level: Option<real>, to: nat, from: nat)
    requires Untouched(candles, s, openRow, side, level, to) && from <= to
    ensures Untouched(candles, s, openRow, side, level, from)
  {
  }

  lemma {:induction false} ClosedAccounts(b: Book, candles: seq<Candle>, s: Settings, row: nat, price: real, reason: Reason, to: nat)
    requires Sound(b) && b.side != 0 && row < |candles| && MissedTo(s, row, reason) <= to && b.entryRow <= row
    requires Accounts(b, candles, s, to)
    requires (reason.ByStop? ==> b.stop.Some?) && price == ExitQuote(candles, s, reason, row, b.stop)
    requires ClosedRightly(candles, s, TradeOf(b, s, row, price, reason))
    ensures Accounts(Closed(b, s, row, price, reason), candles, s, to)
  {
    hide ReturnOf, FeesOf, Slipped, StopLevel, ClosedRightly, Beyond, Untouched, MissedTo;
    UntouchedEarlier(candles, s, b.entryRow, b.side, b.stop, to, MissedTo(s, row, reason));
    var t := TradeOf(b, s, row, price, reason);
    assert Accounted(candles, s, t);
    assert Closed(b, s, row, price, reason).trades == b.trades + [t];
  }

  lemma {:induction false} OpenedAccounts(b: Book, candles: seq<Candle>, s: Settings, row: nat, signalRow: nat, side: int, to: nat)
    requires ValidSettings(s) && ValidCandles(candles) && Sound(b) && b.side == 0 && row < |candles| && to <= |candles|
    requires -1 <= side <= 1 && side != 0 && Accounts(b, candles, s, to)
    requires to <= row || (to == row + 1 && s.fill.SignalClose?)
    ensures Accounts(Opened(b, s, row, signalRow, OrderQuote(candles, s, row), side), candles, s, to)
  {
    hide Slipped, StopLevel, Accounted, Misses;
    SlippedPositive(OrderQuote(candles, s, row), side, s.slippage);
  }

  lemma {:induction false} FilledAccounts(b: Book, candles: seq<Candle>, s: Settings, row: nat, signalRow: nat, signal: int, mayOpen: bool, to: nat)
    requires ValidSettings(s) && ValidCandles(candles) && Sound(b) && row < |candles| && -1 <= signal <= 1
    requires Accounts(b, candles, s, to) && to <= |candles| && (b.side != 0 ==> b.entryRow <= row)
    requires to == if s.fill.SignalClose? then row + 1 else row
    ensures Accounts(Filled(b, s, row, signalRow, OrderQuote(candles, s, row), signal, mayOpen), candles, s, to)
  {
    hide ReturnOf, FeesOf, Slipped, StopLevel, Accounts, Closed, Opened, DrawnDown;
    var price := OrderQuote(candles, s, row);
    var c := b;
    if b.side != 0 && b.side != signal {
      ClosedAccounts(b, candles, s, row, price, BySignal, to);
      c := Closed(b, s, row, price, BySignal);
    }
    if c.side == 0 && signal != 0 {
      OpenedAccounts(c, candles, s, row, signalRow, signal, to);
    }
  }

  lemma {:induction false} StopCheckedAccounts(b: Book, candles: seq<Candle>, s: Settings, row: nat)
    requires ValidCandles(candles) && Sound(b) && row < |candles|
    requires Accounts(b, candles, s, row) && (b.side != 0 ==> b.entryRow <= row && Checked(s, b.entryRow, row))
    ensures Accounts(StopChecked(b, s, row, candles[row]), candles, s, row + 1)
  {
    hide ReturnOf, FeesOf, Slipped, StopLevel, Accounted, Closed, Beyond;
    var candle, r := candles[row], StopChecked(b, s, row, candles[row]);
    if b.stop.Some? {
      if row > b.entryRow && Beyond(b.side, candle.open, b.stop.value) {
        ClosedAccounts(b, candles, s, row, candle.open, ByGap, row);
      } else if Beyond(b.side, Extreme(candle, b.side), b.stop.value) {
        ClosedAccounts(b, candles, s, row, b.stop.value, ByStop, row);
      } else {
        assert Misses(candle, b.side, b.stop.value, b.entryRow < row);
      }
    }
  }

  lemma {:induction false} RecordedAccounts(b: Book, candles: seq<Candle>, s: Settings, row: nat)
    requires ValidCandles(candles) && Sound(b) && row < |candles| && row == |b.position| == |b.equity|
    requires Accounts(b, candles, s, row + 1) && (b.side != 0 ==> b.entryRow <= row && 0.0 < b.capital)
    ensures Accounts(Recorded(b, s, row, candles[row].close), candles, s, row + 1)
  {
    hide ReturnOf, FeesOf, Slipped, StopLevel, Accounted, Closed, Worth, Untouched, Entered, ClosedRightly;
    var close := candles[row].close;
    if b.side != 0 && Worth(b, s, close) <= 0.0 {
      RuinedRightly(b, candles, s, row);
      ClosedAccounts(b, candles, s, row, close, ByRuin, row + 1);
    }
    var marked := Marked(b, s, row, close);
    if !marked.halted && marked.side != 0 && s.drawdownStop.Some? {
      var p := marked.(peak := if marked.equity[row] > marked.peak then marked.equity[row] else marked.peak);
      assert Worth(p, s, close) == Worth(b, s, close) by { SameWorth(b, p, s, close); }
      DrawnRightly(p, candles, s, row);
      ClosedAccounts(p, candles, s, row, close, ByDrawdown, row + 1);
    }
  }

  lemma {:induction false} SameWorth(b: Book, p: Book, s: Settings, close: real)
    requires Sound(b) && Sound(p) && p.side == b.side && p.capital == b.capital && p.entryPrice == b.entryPrice
    ensures Worth(p, s, close) == Worth(b, s, close)
  {
  }

  lemma {:induction false} DrawnRightly(b: Book, candles: seq<Candle>, s: Settings, row: nat)
    requires Sound(b) && b.side != 0 && row < |candles| && s.drawdownStop.Some?
    requires 0.0 < b.capital && 0.0 < Worth(b, s, candles[row].close)
    ensures ClosedRightly(candles, s, TradeOf(b, s, row, candles[row].close, ByDrawdown))
  {
    hide Slipped, ReturnOf, FeesOf, MarkFactor;
    ProductPositive(b.capital, MarkFactor(b.side, candles[row].close, b.entryPrice, s.fee));
  }

  lemma {:induction false} RuinedRightly(b: Book, candles: seq<Candle>, s: Settings, row: nat)
    requires Sound(b) && b.side != 0 && 0.0 < b.capital && row < |candles| && Worth(b, s, candles[row].close) <= 0.0
    ensures ClosedRightly(candles, s, TradeOf(b, s, row, candles[row].close, ByRuin))
  {
    hide Slipped, ReturnOf, FeesOf, MarkFactor;
    ProductPositive(b.capital, MarkFactor(b.side, candles[row].close, b.entryPrice, s.fee));
  }

  lemma {:induction false} TradedAccounts(c: Cursor, candles: seq<Candle>, s: Settings, row: nat)
    requires ValidSettings(s) && ValidCandles(candles) && row < |candles| && Ready(c, row)
    requires s.fill.SignalClose? ==> c.pending.None?
    requires Accounts(c.book, candles, s, row) && (c.book.side != 0 ==> c.book.entryRow < row)
    ensures var r := Traded(c, s, candles[row], row, row == |candles| - 1).book;
            Accounts(r, candles, s, row + 1) && (r.side != 0 ==> r.entryRow <= row)
  {
    hide Filled, StopChecked, Accounts;
    var candle, filled := candles[row], c.book;
    if c.pending.Some? {
      filled := Filled(c.book, s, row, row - 1, candle.open, c.pending.value, true);
      FilledAccounts(c.book, candles, s, row, row - 1, c.pending.value, true, row);
      FilledEntry(c.book, s, row, row - 1, candle.open, c.pending.value, true);
    }
    var arrived := StopChecked(filled, s, row, candle);
    StopCheckedAccounts(filled, candles, s, row);
    StopCheckedEntry(filled, s, row, candle);
    if s.fill.SignalClose? {
      FilledAccounts(arrived, candles, s, row, row, candle.signal, row < |candles| - 1, row + 1);
      FilledEntry(arrived, s, row, row, candle.close, candle.signal, row < |candles| - 1);
    }
  }

  lemma {:induction false} FilledEntry(b: Book, s: Settings, row: nat, signalRow: nat, price: real, signal: int, mayOpen: bool)
    requires ValidSettings(s) && Sound(b) && 0.0 < price && -1 <= signal <= 1 && (b.side != 0 ==> b.entryRow <= row)
    ensures var r := Filled(b, s, row, signalRow, price, signal, mayOpen); r.side != 0 ==> r.entryRow <= row
  {
    hide ReturnOf, FeesOf, Slipped, StopLevel;
  }

  lemma {:induction false} StopCheckedEntry(b: Book, s: Settings, row: nat, candle: Candle)
    requires Sound(b) && ValidCandle(candle)
    ensures var r := StopChecked(b, s, row, candle); r.side != 0 ==> b.side != 0 && r.entryRow == b.entryRow
  {
    hide ReturnOf, FeesOf, Slipped;
  }

  lemma {:induction false} StepAccounts(c: Cursor, candles: seq<Candle>, s: Settings, k: nat)
    requires ValidCandles(candles) && ValidSettings(s) && k < |candles| && Ready(c, k)
    requires Coherent(c.book, candles, s.fee, k, k) && (s.fill.SignalClose? ==> c.pending.None?)
    requires Accounts(c.book, candles, s, k)
    ensures Accounts(Step(c, s, candles[k], k, k == |candles| - 1).book, candles, s, k + 1)
  {
    hide Accounts, Traded, Recorded, Coherent;
    EntryBefore(c.book, candles, s.fee, k);
    if c.book.halted {
      IdleAccounts(c.book, candles, s, k);
    } else {
      var t, last := Traded(c, s, candles[k], k, k == |candles| - 1).book, k == |candles| - 1;
      TradedAccounts(c, candles, s, k);
      TradedCoherent(c, s, candles, k);
      SolventMidRow(t, candles, s.fee, k);
      TradedKeepsSeries(c, s, candles[k], k, last);
      RecordedAccounts(t, candles, s, k);
    }
  }

  lemma {:induction false} RunAccounts(candles: seq<Candle>, s: Settings, k: nat)
    requires ValidCandles(candles) && ValidSettings(s) && k <= |candles|
    ensures Accounts(RunTo(candles, s, k).book, candles, s, k)
  {
    hide *;
    if k == 0 {
      StartAccounts(candles, s);
      StartIsFlat(candles, s);
    } else {
      RunAccounts(candles, s, k - 1);
      RunCoherent(candles, s, k - 1);
      RunSteps(candles, s, k - 1);
      StepAccounts(RunTo(candles, s, k - 1), candles, s, k - 1);
    }
  }

  lemma {:induction false} StartAccounts(candles: seq<Candle>, s: Settings)
    ensures Accounts(START, candles, s, 0)
  {
  }

  lemma {:induction false} EntryBefore(b: Book, candles: seq<Candle>, fee: real, k: nat)
    requires Coherent(b, candles, fee, k, k)
    ensures (b.side != 0 ==> b.entryRow < k) && Solvent(b)
  {
  }

  lemma {:induction false} IdleAccounts(b: Book, candles: seq<Candle>, s: Settings, k: nat)
    requires Accounts(b, candles, s, k) && b.side == 0
    ensures Accounts(b.(position := b.position + [0], equity := b.equity + [b.capital]), candles, s, k + 1)
  {
    hide Accounted;
  }

  /** A position left at the end was marked above 0 there. */
  lemma {:induction false} EndsRightly(candles: seq<Candle>, s: Settings)
    requires ValidCandles(candles) && ValidSettings(s) && candles != [] && RunTo(candles, s, |candles|).book.side != 0
    ensures ClosedRightly(candles, s, TradeOf(RunTo(candles, s, |candles|).book, s, |candles| - 1, candles[|candles| - 1].close, ByEnd))
  {
    hide RunTo, Compound, Slipped, ReturnOf, FeesOf, MarkFactor;
    var n := |candles|;
    var b, close := RunTo(candles, s, n).book, candles[n - 1].close;
    RunCoherent(candles, s, n);
    RunNotNegative(candles, s, n);
    var t := OpenTrade(b, n);
    PositionAppend(b.trades, t, n - 1);
    EquityAppend(b.trades, t, candles, s.fee, n - 1);
    ProductPositive(b.capital, MarkFactor(b.side, close, b.entryPrice, s.fee));
  }

  /** Every trade of a run is accounted for by its candles; the stop is the first touch of the level. */
  lemma {:induction false} TradesAreAccounted(candles: seq<Candle>, s: Settings)
    requires ValidCandles(candles) && ValidSettings(s)
    ensures forall t | t in Backtest(candles, s).trades :: Accounted(candles, s, t)
  {
    hide RunTo, Closed, Accounted, ClosedRightly;
    var n := |candles|;
    RunAccounts(candles, s, n);
    RunCoherent(candles, s, n);
    var b := RunTo(candles, s, n).book;
    EntryBefore(b, candles, s.fee, n);
    if b.side != 0 {
      EndsRightly(candles, s);
      ClosedAccounts(b, candles, s, n - 1, candles[n - 1].close, ByEnd, n);
    }
  }

  // ---------- costs ----------

  /** Fees and slippage only ever cost. */
  lemma {:induction false} CostsAreNotNegative(candles: seq<Candle>, s: Settings, t: Trade)
    requires ValidCandles(candles) && ValidSettings(s) && Accounted(candles, s, t)
    ensures 0.0 < t.closePrice && 0.0 <= t.fees && 0.0 <= t.slippageCost
  {
    var entry := OrderQuote(candles, s, t.openRow);
    var exit := ExitQuote(candles, s, t.reason, t.closeRow, t.stopPrice);
    LevelPositive(candles, s, t);
    ExitSlips(exit, t.openPrice, t.side, s.slippage);
    var growth := t.closePrice / t.openPrice;
    SlippedPositive(exit, -t.side, s.slippage);
    assert 0.0 <= s.fee * (1.0 + growth);
    EntrySlips(exit, entry, t.side, s.slippage);
  }

  lemma {:induction false} LevelPositive(candles: seq<Candle>, s: Settings, t: Trade)
    requires ValidCandles(candles) && ValidSettings(s) && Accounted(candles, s, t)
    ensures 0.0 < ExitQuote(candles, s, t.reason, t.closeRow, t.stopPrice)
  {
    StopLevelPositive(t.openPrice, t.side, s.stopLoss);
  }

  /** With slippage on both legs the price ratio is no better than the quotes' ratio. */
  lemma {:induction false} EntrySlips(exit: real, entry: real, side: int, slippage: real)
    requires 0.0 < exit && 0.0 < entry && (side == 1 || side == -1) && 0.0 <= slippage < 1.0
    ensures 0.0 < Slipped(entry, side, slippage)
    ensures side as real * (Slipped(exit, -side, slippage) / Slipped(entry, side, slippage)) <= side as real * (exit / entry)
  {
    SlippedPositive(entry, side, slippage);
    SlippedPositive(exit, -side, slippage);
    var e, x := Slipped(entry, side, slippage), Slipped(exit, -side, slippage);
    if side == 1 {
      QuotientAntitone(x, entry, e);
      QuotientMonotone(x, exit, entry);
    } else {
      QuotientAntitone(x, e, entry);
      QuotientMonotone(exit, x, entry);
    }
  }

  lemma {:induction false} QuotientAntitone(x: real, y: real, y': real)
    requires 0.0 < x && 0.0 < y <= y'
    ensures x / y' <= x / y
  {
    var q, p := x / y, x / y';
    assert q * y == x && p * y' == x;
    ProductMonotone(p, y, y');
    if q < p { ProductPositive(y, p - q); }
  }

  /** The quotes alone, without costs, would have returned what the trade did plus its two costs. */
  lemma {:induction false} CostsAddUp(candles: seq<Candle>, s: Settings, t: Trade)
    requires ValidCandles(candles) && ValidSettings(s) && Accounted(candles, s, t)
    ensures var entry, exit := OrderQuote(candles, s, t.openRow), ExitQuote(candles, s, t.reason, t.closeRow, t.stopPrice);
            t.ret + t.fees + t.slippageCost == t.side as real * (exit / entry - 1.0)
  {
    hide Untouched, ClosedRightly, Entered, FeesOf, Slipped;
  }

  // ---------- what a stop returns ----------

  /** The growth of a position closed at its stop's level. */
  function LevelGrowth(s: Settings, side: int): real
    requires s.stopLoss.Some?
  {
    (1.0 - side as real * s.stopLoss.value) * (1.0 - side as real * s.slippage)
  }

  lemma {:induction false} LevelGrowthIs(entry: real, s: Settings, side: int)
    requires 0.0 < entry && s.stopLoss.Some? && (side == 1 || side == -1)
    ensures Slipped(StopLevel(entry, side, s.stopLoss.value), -side, s.slippage) / entry == LevelGrowth(s, side)
  {
    var exit := Slipped(StopLevel(entry, side, s.stopLoss.value), -side, s.slippage);
    assert exit == entry * LevelGrowth(s, side) by {
      if side == 1 {
        assert exit == (entry * (1.0 - s.stopLoss.value)) * (1.0 - s.slippage);
      } else {
        assert exit == (entry * (1.0 + s.stopLoss.value)) * (1.0 + s.slippage);
      }
    }
    var q := exit / entry;
    assert q * entry == LevelGrowth(s, side) * entry;
  }

  /** A stop loses the stop-loss fraction, the slippage from the level, and the fees. */
  lemma {:induction false} StopReturn(candles: seq<Candle>, s: Settings, t: Trade)
    requires ValidCandles(candles) && ValidSettings(s) && Accounted(candles, s, t) && t.reason.ByStop?
    ensures s.stopLoss.Some?
    ensures var loss, side := s.stopLoss.value, t.side as real;
            t.ret == -loss - s.slippage * (1.0 - side * loss) - t.fees
  {
    LevelGrowthIs(t.openPrice, s, t.side);
    assert t.closePrice / t.openPrice == LevelGrowth(s, t.side);
  }

  /**
   A gap exit is no better than a stop at the level would have been, exactly when the position is
   short, the fee is at most the whole notional, or the open touched the level itself.
   */
  lemma {:induction false} GapIsNoBetterThanStop(candles: seq<Candle>, s: Settings, t: Trade)
    requires ValidCandles(candles) && ValidSettings(s) && Accounted(candles, s, t) && t.reason.ByGap?
    ensures s.stopLoss.Some?
    ensures t.ret <= ReturnOf(t.side, LevelGrowth(s, t.side), s.fee) <==>
            t.side == -1 || s.fee <= 1.0 || candles[t.closeRow].open == t.stopPrice.value
  {
    var open, level := candles[t.closeRow].open, t.stopPrice.value;
    var exit, stopExit := Slipped(open, -t.side, s.slippage), Slipped(level, -t.side, s.slippage);
    LevelGrowthIs(t.openPrice, s, t.side);
    var g, l := exit / t.openPrice, stopExit / t.openPrice;
    SlipsAlike(open, level, t.side, t.openPrice, s.slippage);
    ReturnsCompare(t.side, g, l, s.fee);
  }

  /** Growth orders like the quotes it comes from. */
  lemma {:induction false} SlipsAlike(a: real, b: real, side: int, entry: real, slippage: real)
    requires 0.0 < entry && (side == 1 || side == -1) && 0.0 <= slippage < 1.0
    ensures var x, y := Slipped(a, -side, slippage) / entry, Slipped(b, -side, slippage) / entry;
            (a < b ==> x < y) && (a == b ==> x == y) && (a > b ==> x > y)
  {
    var k := (1.0 + (-side) as real * slippage) / entry;
    var x, y := Slipped(a, -side, slippage) / entry, Slipped(b, -side, slippage) / entry;
    QuotientPositive(1.0 + (-side) as real * slippage, entry);
    assert x == a * k && y == b * k;
    if a < b { ProductPositive(k, b - a); }
    if a > b { ProductPositive(k, a - b); }
  }

  lemma {:induction false} ReturnsCompare(side: int, g: real, l: real, fee: real)
    requires (side == 1 && g <= l) || (side == -1 && l <= g)
    requires 0.0 <= fee
    ensures ReturnOf(side, g, fee) <= ReturnOf(side, l, fee) <==> side == -1 || fee <= 1.0 || g == l
  {
    if side == 1 {
      assert ReturnOf(side, l, fee) - ReturnOf(side, g, fee) == (l - g) * (1.0 - fee);
      if g < l {
        ProductPositive(l - g, 1.0 - fee);
        if fee > 1.0 { ProductPositive(l - g, fee - 1.0); }
      }
    } else {
      assert ReturnOf(side, l, fee) - ReturnOf(side, g, fee) == (g - l) * (1.0 + fee);
      if l < g { ProductPositive(1.0 + fee, g - l); }
    }
  }

  // ---------- what survives a stop ----------

  predicate Consistent(candle: Candle) {
    candle.low <= candle.open <= candle.high && candle.low <= candle.close <= candle.high
  }

  /** A candle that misses the level leaves the position marked above the stop's loss. */
  lemma {:induction false} MarkAboveStop(side: int, candle: Candle, entry: real, loss: real, fee: real, heldAtOpen: bool)
    requires 0.0 < entry && (side == 1 || side == -1) && Consistent(candle)
    requires Misses(candle, side, StopLevel(entry, side, loss), heldAtOpen)
    ensures 1.0 - loss - fee < MarkFactor(side, candle.close, entry, fee)
  {
    if side == 1 {
      assert candle.close > entry * (1.0 - loss);
      QuotientBeyond(candle.close, entry, 1.0 - loss);
    } else {
      assert candle.close < entry * (1.0 + loss);
      QuotientBeyond(candle.close, entry, 1.0 + loss);
    }
  }

  lemma {:induction false} QuotientBeyond(x: real, y: real, k: real)
    requires 0.0 < y
    ensures y * k < x ==> k < x / y
    ensures x < y * k ==> x / y < k
  {
    var q := x / y;
    assert q * y == x;
    if q <= k { ProductMonotone(y, q, k); } else { ProductMonotone(y, k, q); }
    if q < k { ProductMonotone(y, q, k); } else { ProductMonotone(y, k, q); }
  }

  lemma {:induction false} CompoundPositive(ts: seq<Trade>, i: nat)
    requires i <= |ts| && OnlyLastIsFinal(ts) && (i == |ts| ==> ts == [] || !Final(ts[i - 1]))
    ensures 0.0 < Compound(ts[..i])
  {
    if i > 0 {
      CompoundPositive(ts, i - 1);
      assert ts[..i][..i - 1] == ts[..i - 1];
      ProductPositive(Compound(ts[..i - 1]), Factor(ts[i - 1]));
    }
  }

  lemma {:induction false} LessScaled(c: real, x: real, y: real)
    requires 0.0 < c && x < y
    ensures c * x < c * y
  {
    ProductPositive(c, y - x);
  }

  lemma {:induction false} EquityOfHeldRow(candles: seq<Candle>, s: Settings, i: nat, row: nat)
    requires ValidCandles(candles) && ValidSettings(s) && row < |candles|
    requires i < |Backtest(candles, s).trades| && Holds(Backtest(candles, s).trades[i], row)
    ensures var b := Backtest(candles, s); var t := b.trades[i];
            && |b.equity| == |candles| && t.openPrice != 0.0
            && b.equity[row] == Compound(b.trades[..i]) * MarkFactor(t.side, candles[row].close, t.openPrice, s.fee)
  {
    hide Backtest, Compound, MarkFactor, Between, Ordered;
    TradesDetermineSeries(candles, s);
  }

  lemma {:induction false} MissedWhileHeld(candles: seq<Candle>, s: Settings, t: Trade, row: nat)
    requires ValidCandles(candles) && ValidSettings(s) && s.stopLoss.Some? && row < |candles|
    requires t in Backtest(candles, s).trades && Holds(t, row) && Checked(s, t.openRow, row)
    ensures 0.0 < t.openPrice && (t.side == 1 || t.side == -1)
    ensures Misses(candles[row], t.side, StopLevel(t.openPrice, t.side, s.stopLoss.value), t.openRow < row)
  {
    hide Backtest, ClosedRightly, PaidFor, Misses, StopLevel, Slipped, Checked;
    TradesAreAccounted(candles, s);
    assert Accounted(candles, s, t);
  }

  /** What the trades before another one leave is positive. */
  lemma {:induction false} PositiveBefore(candles: seq<Candle>, s: Settings, i: nat)
    requires ValidCandles(candles) && ValidSettings(s) && i < |Backtest(candles, s).trades|
    ensures 0.0 < Compound(Backtest(candles, s).trades[..i])
  {
    hide Backtest, Compound;
    FinalTradeIsLast(candles, s);
    CompoundPositive(Backtest(candles, s).trades, i);
  }

  /**
   On every row whose stop was checked, a position that survives it is worth more than the capital
   it was opened with less the stop loss and one leg's fee, when the candle is consistent.
   */
  lemma {:induction false} SurvivorsAreAboveTheStop(candles: seq<Candle>, s: Settings, i: nat, row: nat)
    requires ValidCandles(candles) && ValidSettings(s) && s.stopLoss.Some? && row < |candles|
    requires var ts := Backtest(candles, s).trades; i < |ts| && Holds(ts[i], row) && Checked(s, ts[i].openRow, row)
    requires Consistent(candles[row])
    ensures |Backtest(candles, s).equity| == |candles|
    ensures Compound(Backtest(candles, s).trades[..i]) * (1.0 - s.stopLoss.value - s.fee) < Backtest(candles, s).equity[row]
  {
    hide *;
    var ts := Backtest(candles, s).trades;
    var t := ts[i];
    EquityOfHeldRow(candles, s, i, row);
    MissedWhileHeld(candles, s, t, row);
    PositiveBefore(candles, s, i);
    MarkAboveStop(t.side, candles[row], t.openPrice, s.stopLoss.value, s.fee, t.openRow < row);
    LessScaled(Compound(ts[..i]), 1.0 - s.stopLoss.value - s.fee, MarkFactor(t.side, candles[row].close, t.openPrice, s.fee));
  }
}
