/**
 The backtest engine, which steps through its candles and holds one position at a time, or none.

 The first half is the value-level specification of one row and of a whole run; `Loop`, at the end,
 is the engine's mutable object, each method of which is proved against that specification. What
 the rules promise about a run is proved about the specification in the Engine* modules.

 Prices and money are reals and a trade names its candles by row (`ts` strictly increases, so rows
 and times order alike).
 */
module Engine {
  import opened Options

  datatype FillMode = NextOpen | SignalClose

  /** `fee` and `slippage` are fractions (the basis points of the settings times 1e-4). */
  datatype Settings = Settings(
    fill: FillMode,
    stopLoss: Option<real>,
    drawdownStop: Option<real>,
    fee: real,
    slippage: real)

  datatype Candle = Candle(ts: int, open: real, high: real, low: real, close: real, signal: int)

  datatype Reason = BySignal | ByStop | ByGap | ByEnd | ByRuin | ByDrawdown

  datatype Trade = Trade(
    signalRow: nat,
    openRow: nat,
    closeRow: nat,
    side: int,
    openPrice: real,
    closePrice: real,
    stopPrice: Option<real>,
    reason: Reason,
    ret: real,
    fees: real,
    slippageCost: real)

  /** The fields of a `Loop`. */
  datatype Book = Book(
    capital: real,
    peak: real,
    halted: bool,
    side: int,
    signalRow: nat,
    entryRow: nat,
    entryQuote: real,
    entryPrice: real,
    stop: Option<real>,
    trades: seq<Trade>,
    position: seq<int>,
    equity: seq<real>)

  /** A run between two rows: its book, with the pending order and the signal of the row before. */
  datatype Cursor = Cursor(book: Book, pending: Option<int>, previous: int)

  // ---------- what the engine may assume ----------

  /** The accepted settings, with slippage below 1: at 1 a short's entry price is 0. */
  predicate ValidSettings(s: Settings) {
    && (s.stopLoss.Some? ==> 0.0 < s.stopLoss.value < 1.0)
    && (s.drawdownStop.Some? ==> 0.0 < s.drawdownStop.value < 1.0)
    && 0.0 <= s.fee
    && 0.0 <= s.slippage < 1.0
  }

  /** The settings without stops and costs. */
  function Plain(fill: FillMode): Settings {
    Settings(fill, None, None, 0.0, 0.0)
  }

  lemma {:induction false} PlainIsValid()
    ensures forall fill :: ValidSettings(Plain(fill))
  {
  }

  predicate ValidCandle(c: Candle) {
    && 0.0 < c.open && 0.0 < c.high && 0.0 < c.low && 0.0 < c.close
    && -1 <= c.signal <= 1
  }

  predicate ValidCandles(candles: seq<Candle>) {
    && (forall i | 0 <= i < |candles| :: ValidCandle(candles[i]))
    && (forall i, j | 0 <= i < j < |candles| :: candles[i].ts < candles[j].ts)
  }

  // ---------- prices, costs and returns ----------

  /** The price a fill gets: an entry moves by `side`, an exit by `-side`. */
  function Slipped(price: real, toward: int, slippage: real): real {
    price * (1.0 + toward as real * slippage)
  }

  function StopLevel(entry: real, side: int, loss: real): real {
    entry * (1.0 - side as real * loss)
  }

  function FeesOf(growth: real, fee: real): real {
    fee * (1.0 + growth)
  }

  function ReturnOf(side: int, growth: real, fee: real): real {
    side as real * (growth - 1.0) - FeesOf(growth, fee)
  }

  /** What marking at `close` makes of one unit of capital: the entry's fee is taken off, an exit's is not. */
  function MarkFactor(side: int, close: real, entry: real, fee: real): real
    requires entry != 0.0
  {
    1.0 + side as real * (close / entry - 1.0) - fee
  }

  /** The capital after a trade that did not ruin it. */
  function Compounded(capital: real, ret: real): real {
    capital * (1.0 + ret)
  }

  /** What slippage cost: the price ratio of the quotes less the one that was paid. */
  function SlippageCostOf(side: int, exitQuote: real, entryQuote: real, growth: real): real
    requires entryQuote != 0.0
  {
    side as real * (exitQuote / entryQuote - growth)
  }

  function Beyond(side: int, price: real, level: real): bool {
    if side > 0 then price <= level else price >= level
  }

  lemma {:induction false} SlippedPositive(price: real, toward: int, slippage: real)
    requires 0.0 < price && -1 <= toward <= 1 && 0.0 <= slippage < 1.0
    ensures 0.0 < Slipped(price, toward, slippage)
  {
    assert 0.0 < 1.0 + toward as real * slippage by {
      if toward == -1 { assert toward as real * slippage == -slippage; }
    }
  }

  lemma {:induction false} StopLevelPositive(entry: real, side: int, loss: Option<real>)
    requires 0.0 < entry && -1 <= side <= 1 && (loss.Some? ==> 0.0 < loss.value < 1.0)
    ensures loss.Some? ==> 0.0 < StopLevel(entry, side, loss.value)
  {
    if loss.Some? {
      assert StopLevel(entry, side, loss.value) == Slipped(entry, -side, loss.value);
      SlippedPositive(entry, -side, loss.value);
    }
  }

  // ---------- one row ----------

  /** An open position has positive entry prices; a stop level exists only while one is open. */
  predicate Sound(b: Book) {
    && -1 <= b.side <= 1
    && (b.side != 0 ==> 0.0 < b.entryPrice && 0.0 < b.entryQuote)
    && (b.side == 0 ==> b.stop.None?)
    && (b.stop.Some? ==> 0.0 < b.stop.value)
  }

  function TradeOf(b: Book, s: Settings, row: nat, price: real, reason: Reason): Trade
    requires Sound(b) && b.side != 0
  {
    var exit := Slipped(price, -b.side, s.slippage);
    var growth := exit / b.entryPrice;
    Trade(b.signalRow, b.entryRow, row, b.side, b.entryPrice, exit, b.stop, reason,
          ReturnOf(b.side, growth, s.fee),
          FeesOf(growth, s.fee),
          SlippageCostOf(b.side, price, b.entryQuote, growth))
  }

  /** What a trade leaves of the capital it started with. */
  function Factor(t: Trade): real {
    if t.ret <= -1.0 then 0.0 else 1.0 + t.ret
  }

  function Ruined(b: Book): Book {
    b.(capital := 0.0, halted := true)
  }

  function Closed(b: Book, s: Settings, row: nat, price: real, reason: Reason): (r: Book)
    requires Sound(b) && b.side != 0
    ensures Sound(r) && r.side == 0
  {
    var t := TradeOf(b, s, row, price, reason);
    var flat := b.(trades := b.trades + [t], side := 0, stop := None);
    if t.ret <= -1.0 then Ruined(flat) else flat.(capital := Compounded(b.capital, t.ret))
  }

  function Opened(b: Book, s: Settings, row: nat, signalRow: nat, price: real, side: int): (r: Book)
    requires ValidSettings(s) && Sound(b) && b.side == 0 && 0.0 < price && -1 <= side <= 1 && side != 0
    ensures Sound(r)
  {
    var entry := Slipped(price, side, s.slippage);
    SlippedPositive(price, side, s.slippage);
    StopLevelPositive(entry, side, s.stopLoss);
    var stop := if s.stopLoss.None? then b.stop else Some(StopLevel(entry, side, s.stopLoss.value));
    b.(side := side, signalRow := signalRow, entryRow := row, entryQuote := price,
       entryPrice := entry, stop := stop)
  }

  predicate DrawnDown(b: Book, s: Settings, equity: real) {
    s.drawdownStop.Some? && equity <= b.peak * (1.0 - s.drawdownStop.value)
  }

  function Filled(b: Book, s: Settings, row: nat, signalRow: nat, price: real, signal: int, mayOpen: bool): (r: Book)
    requires ValidSettings(s) && Sound(b) && 0.0 < price && -1 <= signal <= 1
    ensures Sound(r)
  {
    var c := if b.side != 0 && b.side != signal then Closed(b, s, row, price, BySignal) else b;
    if s.fill.SignalClose? && DrawnDown(c, s, c.capital) then c
    else if signal != 0 && c.side == 0 && mayOpen && !c.halted then Opened(c, s, row, signalRow, price, signal)
    else c
  }

  function StopChecked(b: Book, s: Settings, row: nat, candle: Candle): (r: Book)
    requires Sound(b) && ValidCandle(candle)
    ensures Sound(r)
  {
    if b.stop.None? then b
    else if row > b.entryRow && Beyond(b.side, candle.open, b.stop.value) then
      Closed(b, s, row, candle.open, ByGap)
    else if Beyond(b.side, if b.side > 0 then candle.low else candle.high, b.stop.value) then
      Closed(b, s, row, b.stop.value, ByStop)
    else b
  }

  /** What the book is worth at `close`, a position marked. */
  function Worth(b: Book, s: Settings, close: real): real
    requires Sound(b)
  {
    if b.side == 0 then b.capital else b.capital * MarkFactor(b.side, close, b.entryPrice, s.fee)
  }

  function Marked(b: Book, s: Settings, row: nat, close: real): (r: Book)
    requires Sound(b)
    ensures Sound(r)
  {
    if b.side != 0 && Worth(b, s, close) <= 0.0 then
      var c := Ruined(Closed(b, s, row, close, ByRuin));
      c.(position := c.position + [0], equity := c.equity + [0.0])
    else
      b.(position := b.position + [b.side], equity := b.equity + [Worth(b, s, close)])
  }

  function DrawdownChecked(b: Book, s: Settings, row: nat, close: real): (r: Book)
    requires Sound(b) && row < |b.position| && row < |b.equity|
    ensures Sound(r)
  {
    var equity := b.equity[row];
    var p := b.(peak := if equity > b.peak then equity else b.peak);
    if !DrawnDown(p, s, equity) then p
    else if p.side == 0 then p.(halted := true)
    else
      var c := Closed(p, s, row, close, ByDrawdown);
      c.(position := c.position[row := 0], equity := c.equity[row := c.capital], halted := true)
  }

  /** The order from the row before and then the stop, the start of a row. */
  function Arrived(c: Cursor, s: Settings, candle: Candle, row: nat): (r: Book)
    requires ValidSettings(s) && Sound(c.book) && ValidCandle(candle)
    requires c.pending.Some? ==> row > 0 && -1 <= c.pending.value <= 1
    ensures Sound(r)
  {
    var filled := if c.pending.None? then c.book
                  else Filled(c.book, s, row, row - 1, candle.open, c.pending.value, true);
    StopChecked(filled, s, row, candle)
  }

  lemma {:induction false} NoStopToCheck(b: Book, s: Settings, row: nat, candle: Candle)
    requires Sound(b) && ValidCandle(candle)
    ensures b.stop.None? ==> StopChecked(b, s, row, candle) == b
  {
  }

  /** What a row's orders do before it is marked: the start of the row and the decision. */
  function Traded(c: Cursor, s: Settings, candle: Candle, row: nat, isLast: bool): (r: Cursor)
    requires ValidSettings(s) && Sound(c.book) && ValidCandle(candle)
    requires c.pending.Some? ==> row > 0 && -1 <= c.pending.value <= 1
    ensures Sound(r.book)
    ensures r.pending.Some? ==> -1 <= r.pending.value <= 1
    ensures r.previous == candle.signal
  {
    var arrived := Arrived(c, s, candle, row);
    if candle.signal == c.previous then Cursor(arrived, None, candle.signal)
    else if s.fill.NextOpen? then Cursor(arrived, Some(candle.signal), candle.signal)
    else Cursor(Filled(arrived, s, row, row, candle.close, candle.signal, !isLast), None, candle.signal)
  }

  function Recorded(b: Book, s: Settings, row: nat, close: real): (r: Book)
    requires Sound(b) && row == |b.position| == |b.equity|
    ensures Sound(r)
  {
    var marked := Marked(b, s, row, close);
    if marked.halted then marked else DrawdownChecked(marked, s, row, close)
  }

  function Step(c: Cursor, s: Settings, candle: Candle, row: nat, isLast: bool): (r: Cursor)
    requires ValidSettings(s) && ValidCandle(candle) && Ready(c, row)
    ensures Ready(r, row + 1)
  {
    if c.book.halted then
      c.(book := c.book.(position := c.book.position + [0], equity := c.book.equity + [c.book.capital]))
    else
      var traded := Traded(c, s, candle, row, isLast);
      TradedKeepsSeries(c, s, candle, row, isLast);
      RecordedLength(traded.book, s, row, candle.close);
      traded.(book := Recorded(traded.book, s, row, candle.close))
  }

  /** `row` rows are recorded; a pending order was decided on the row before. */
  predicate Ready(c: Cursor, row: nat) {
    && Sound(c.book)
    && |c.book.position| == |c.book.equity| == row
    && (c.pending.Some? ==> row > 0 && -1 <= c.pending.value <= 1)
  }

  /** What closing, opening and checking the stop leave alone. */
  predicate SameSeries(b: Book, r: Book) {
    r.position == b.position && r.equity == b.equity && r.peak == b.peak
  }

  lemma {:induction false} FilledKeepsSeries(b: Book, s: Settings, row: nat, signalRow: nat, price: real, signal: int, mayOpen: bool)
    requires ValidSettings(s) && Sound(b) && 0.0 < price && -1 <= signal <= 1
    ensures SameSeries(b, Filled(b, s, row, signalRow, price, signal, mayOpen))
  {
  }

  lemma {:induction false} StopCheckedKeepsSeries(b: Book, s: Settings, row: nat, candle: Candle)
    requires Sound(b) && ValidCandle(candle)
    ensures SameSeries(b, StopChecked(b, s, row, candle))
  {
  }

  lemma {:induction false} TradedKeepsSeries(c: Cursor, s: Settings, candle: Candle, row: nat, isLast: bool)
    requires ValidSettings(s) && Sound(c.book) && ValidCandle(candle)
    requires c.pending.Some? ==> row > 0 && -1 <= c.pending.value <= 1
    ensures SameSeries(c.book, Traded(c, s, candle, row, isLast).book)
  {
    var filled := if c.pending.None? then c.book
                  else Filled(c.book, s, row, row - 1, candle.open, c.pending.value, true);
    if c.pending.Some? { FilledKeepsSeries(c.book, s, row, row - 1, candle.open, c.pending.value, true); }
    StopCheckedKeepsSeries(filled, s, row, candle);
    FilledKeepsSeries(StopChecked(filled, s, row, candle), s, row, row, candle.close, candle.signal, !isLast);
  }

  lemma {:induction false} RecordedLength(b: Book, s: Settings, row: nat, close: real)
    requires Sound(b) && row == |b.position| == |b.equity|
    ensures var r := Recorded(b, s, row, close);
            |r.position| == |r.equity| == row + 1 && r.position[..row] == b.position && r.equity[..row] == b.equity
  {
  }

  // ---------- a whole run ----------

  const START: Book := Book(1.0, 1.0, false, 0, 0, 0, 0.0, 0.0, None, [], [], [])

  /** The run after its first `k` rows. */
  function RunTo(candles: seq<Candle>, s: Settings, k: nat): (r: Cursor)
    requires ValidCandles(candles) && ValidSettings(s) && k <= |candles|
    ensures Ready(r, k)
  {
    if k == 0 then Cursor(START, None, if candles == [] then 0 else candles[0].signal)
    else Step(RunTo(candles, s, k - 1), s, candles[k - 1], k - 1, k == |candles|)
  }

  /** The end of the data: what is still held closes there, and its last row is recorded anew. */
  function Finished(b: Book, s: Settings, last: nat, close: real): (r: Book)
    requires Sound(b) && |b.position| == |b.equity| == last + 1
    ensures Sound(r)
  {
    if b.side == 0 then b
    else
      var c := Closed(b, s, last, close, ByEnd);
      c.(position := c.position[last := 0], equity := c.equity[last := c.capital])
  }

  function Backtest(candles: seq<Candle>, s: Settings): (r: Book)
    requires ValidCandles(candles) && ValidSettings(s)
    ensures Sound(r)
  {
    var book := RunTo(candles, s, |candles|).book;
    if candles == [] then book
    else Finished(book, s, |candles| - 1, candles[|candles| - 1].close)
  }

  lemma {:induction false} RunStarts(candles: seq<Candle>, s: Settings)
    requires ValidCandles(candles) && ValidSettings(s)
    ensures RunTo(candles, s, 0) == Cursor(START, None, if |candles| > 0 then candles[0].signal else 0)
  {
  }

  lemma {:induction false} RunSteps(candles: seq<Candle>, s: Settings, row: nat)
    requires ValidCandles(candles) && ValidSettings(s) && row < |candles|
    ensures var c := RunTo(candles, s, row); var b := c.book;
            && ValidCandle(candles[row]) && Ready(c, row)
            && RunTo(candles, s, row + 1) == Step(c, s, candles[row], row, row == |candles| - 1)
            && (b.halted ==> RunTo(candles, s, row + 1) == c.(book := b.(position := b.position + [0], equity := b.equity + [b.capital])))
  {
    hide Traded, Recorded;
  }

  lemma {:induction false} RunEnds(candles: seq<Candle>, s: Settings)
    requires ValidCandles(candles) && ValidSettings(s)
    ensures var b := RunTo(candles, s, |candles|).book;
            && |b.position| == |b.equity| == |candles|
            && (b.side == 0 ==> Backtest(candles, s) == b)
            && (b.side != 0 ==>
                  candles != [] && Backtest(candles, s) == Finished(b, s, |candles| - 1, candles[|candles| - 1].close))
  {
    hide Step, Closed;
  }

  // ---------- the engine's object ----------

  /** Runs the rules once over `candles` and keeps what they produced. */
  class Loop {
    const candles: seq<Candle>
    const settings: Settings
    var capital: real
    var peak: real
    var halted: bool
    var side: int
    var signalRow: nat
    var entryRow: nat
    var entryQuote: real
    var entryPrice: real
    var stop: Option<real>
    var trades: seq<Trade>
    var position: seq<int>
    var equity: seq<real>

    function Value(): Book
      reads this
    {
      Book(capital, peak, halted, side, signalRow, entryRow, entryQuote, entryPrice, stop, trades, position, equity)
    }

    predicate Valid()
      reads this
    {
      ValidCandles(candles) && ValidSettings(settings) && Sound(Value())
    }

    constructor (candles: seq<Candle>, settings: Settings)
      requires ValidCandles(candles) && ValidSettings(settings)
      ensures Valid() && this.candles == candles && this.settings == settings
      ensures Value() == START
    {
      this.candles := candles;
      this.settings := settings;
      capital, peak, halted := 1.0, 1.0, false;
      side, signalRow, entryRow := 0, 0, 0;
      entryQuote, entryPrice, stop := 0.0, 0.0, None;
      trades, position, equity := [], [], [];
    }

    /** One pass over the candles; what it leaves is `Backtest` of them. */
    method Run()
      requires Valid() && Value() == START
      modifies this
      ensures Valid() && Value() == Backtest(candles, settings)
    {
      hide Step, RunTo, Backtest, Finished, ValidCandles, ValidSettings, ValidCandle, Sound;
      RunStarts(candles, settings);
      var pending: Option<int> := None;
      var previous := if |candles| > 0 then candles[0].signal else 0;
      for row := 0 to |candles|
        invariant Valid() && Cursor(Value(), pending, previous) == RunTo(candles, settings, row)
      {
        RunSteps(candles, settings, row);
        if halted {
          Idle();
        } else {
          pending := Advance(row, pending, previous);
          previous := candles[row].signal;
        }
      }
      RunEnds(candles, settings);
      if side != 0 {
        CloseAtEnd();
      }
    }

    /** A row of a halted run: flat, the equity the capital. */
    method Idle()
      requires Valid()
      modifies this
      ensures Valid()
      ensures Value() == old(Value()).(position := old(position) + [0], equity := old(equity) + [old(capital)])
    {
      position := position + [0];
      equity := equity + [capital];
    }

    /** The branch of `Run` for a position that the last row leaves. */
    method CloseAtEnd()
      requires Valid() && side != 0 && |position| == |equity| == |candles| > 0
      modifies this
      ensures Valid() && Value() == Finished(old(Value()), settings, |candles| - 1, candles[|candles| - 1].close)
    {
      var last := |candles| - 1;
      Close(last, candles[last].close, ByEnd);
      position := position[last := 0];
      equity := equity[last := capital];
    }

    /** A row before the run halts: its orders, its mark and the drawdown check. Returns the order left. */
    method Advance(row: nat, pending: Option<int>, previous: int) returns (order: Option<int>)
      requires Valid() && row < |candles| && Ready(Cursor(Value(), pending, previous), row) && !halted
      modifies this
      ensures Valid()
      ensures Cursor(Value(), order, candles[row].signal) ==
              old(Step(Cursor(Value(), pending, previous), settings, candles[row], row, row == |candles| - 1))
    {
      order := Execute(row, pending, previous);
      Mark(row);
      if !halted {
        CheckDrawdown(row);
      }
    }

    /** What the row's orders do before its mark. */
    method Execute(row: nat, pending: Option<int>, previous: int) returns (order: Option<int>)
      requires Valid() && row < |candles| && Ready(Cursor(Value(), pending, previous), row)
      modifies this
      ensures Valid()
      ensures Cursor(Value(), order, candles[row].signal) ==
              old(Traded(Cursor(Value(), pending, previous), settings, candles[row], row, row == |candles| - 1))
      ensures SameSeries(old(Value()), Value())
    {
      hide Filled, StopChecked, ValidSettings, Sound;
      var candle := candles[row];
      if pending.Some? {
        Fill(row, row - 1, candle.open, pending.value, true);
      }
      NoStopToCheck(Value(), settings, row, candle);
      if stop.Some? {
        CheckStop(row, candle);
      }
      order := None;
      if candle.signal != previous {
        order := Decide(row, candle.signal);
      }
      TradedKeepsSeries(old(Cursor(Value(), pending, previous)), settings, candle, row, row == |candles| - 1);
    }

    /** Fills a decision at once or hands it on as an order, by the fill mode. */
    method Decide(row: nat, signal: int) returns (order: Option<int>)
      requires Valid() && row < |candles| && -1 <= signal <= 1
      modifies this
      ensures Valid()
      ensures settings.fill.NextOpen? ==> order == Some(signal) && Value() == old(Value())
      ensures settings.fill.SignalClose? ==>
                order == None &&
                Value() == Filled(old(Value()), settings, row, row, candles[row].close, signal, row < |candles| - 1)
    {
      if settings.fill.NextOpen? {
        return Some(signal);
      }
      Fill(row, row, candles[row].close, signal, row < |candles| - 1);
      return None;
    }

    /** The closing leg, the refusal of the drawdown stop, and the opening leg. */
    method Fill(row: nat, signalRow: nat, price: real, signal: int, mayOpen: bool)
      requires Valid() && 0.0 < price && -1 <= signal <= 1
      modifies this
      ensures Valid() && Value() == Filled(old(Value()), settings, row, signalRow, price, signal, mayOpen)
    {
      if side != 0 && side != signal {
        Close(row, price, BySignal);
      }
      if settings.fill.SignalClose? && DrawnDown(Value(), settings, capital) {
        return;
      }
      if signal != 0 && side == 0 && mayOpen && !halted {
        Open(row, signalRow, price, signal);
      }
    }

    method CheckStop(row: nat, candle: Candle)
      requires Valid() && stop.Some? && ValidCandle(candle)
      modifies this
      ensures Valid() && Value() == StopChecked(old(Value()), settings, row, candle)
    {
      var level := stop.value;
      if row > entryRow && Beyond(side, candle.open, level) {
        Close(row, candle.open, ByGap);
      } else if Beyond(side, if side > 0 then candle.low else candle.high, level) {
        Close(row, level, ByStop);
      }
    }

    /** Raises the peak to the row's equity and compares the two; a position is closed before the halt. */
    method CheckDrawdown(row: nat)
      requires Valid() && row < |candles| && row < |position| && row < |equity|
      modifies this
      ensures Valid() && Value() == DrawdownChecked(old(Value()), settings, row, candles[row].close)
    {
      var recorded := equity[row];
      peak := if recorded > peak then recorded else peak;
      if DrawnDown(Value(), settings, recorded) {
        if side != 0 {
          Close(row, candles[row].close, ByDrawdown);
          position := position[row := 0];
          equity := equity[row := capital];
        }
        halted := true;
      }
    }

    method Open(row: nat, signalRow: nat, price: real, side: int)
      requires Valid() && this.side == 0 && 0.0 < price && -1 <= side <= 1 && side != 0
      modifies this
      ensures Valid() && Value() == Opened(old(Value()), settings, row, signalRow, price, side)
    {
      SlippedPositive(price, side, settings.slippage);
      StopLevelPositive(Slipped(price, side, settings.slippage), side, settings.stopLoss);
      this.side := side;
      this.signalRow := signalRow;
      entryRow := row;
      entryQuote := price;
      entryPrice := Slipped(price, side, settings.slippage);
      if settings.stopLoss.Some? {
        stop := Some(StopLevel(entryPrice, side, settings.stopLoss.value));
      }
    }

    method Close(row: nat, price: real, reason: Reason)
      requires Valid() && side != 0
      modifies this
      ensures Valid() && Value() == Closed(old(Value()), settings, row, price, reason)
    {
      var exitPrice := Slipped(price, -side, settings.slippage);
      var growth := exitPrice / entryPrice;
      var fees := FeesOf(growth, settings.fee);
      var result := ReturnOf(side, growth, settings.fee);
      var slippageCost := SlippageCostOf(side, price, entryQuote, growth);
      trades := trades + [Trade(signalRow, entryRow, row, side, entryPrice, exitPrice, stop, reason,
                                result, fees, slippageCost)];
      side := 0;
      stop := None;
      if result <= -1.0 {
        Ruin();
      } else {
        capital := Compounded(capital, result);
      }
    }

    method Ruin()
      requires Valid()
      modifies this
      ensures Valid() && Value() == Ruined(old(Value()))
    {
      capital := 0.0;
      halted := true;
    }

    method Mark(row: nat)
      requires Valid() && row < |candles|
      modifies this
      ensures Valid() && Value() == Marked(old(Value()), settings, row, candles[row].close)
    {
      var marked := capital;
      if side != 0 {
        var close := candles[row].close;
        marked := marked * MarkFactor(side, close, entryPrice, settings.fee);
        assert marked == Worth(Value(), settings, close);
        if marked <= 0.0 {
          Close(row, close, ByRuin);
          Ruin();
          marked := 0.0;
        }
      }
      position := position + [side];
      equity := equity + [marked];
    }
  }
}
