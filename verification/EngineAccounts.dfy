/**
 The engine told without its own formulas: as a broker's account in units and cash, and as plain
 comparisons of prices.
 */
module EngineAccounts {
  import opened Options
  import opened Engine
  import opened EngineArithmetic
  import opened EngineLedger
  import opened EngineStops

  // ---------- cash ----------

  /** The units that `capital` buys, or sells short, at `price`. */
  function Units(capital: real, price: real): real
    requires price != 0.0
  {
    capital / price
  }

  /** What these units gain when the price goes from one to the other. */
  function Gain(units: real, side: int, from: real, to: real): real {
    if side > 0 then units * (to - from) else units * (from - to)
  }

  /** The account once the position is closed, the fee paid on the notional of both legs. */
  function Cash(capital: real, side: int, openPrice: real, closePrice: real, fee: real): real
    requires openPrice != 0.0
  {
    var units := Units(capital, openPrice);
    capital + Gain(units, side, openPrice, closePrice) - fee * capital - fee * (units * closePrice)
  }

  /** The account while it is open: its gain so far, the fee of the entry paid. */
  function Valued(capital: real, side: int, openPrice: real, price: real, fee: real): real
    requires openPrice != 0.0
  {
    capital + Gain(Units(capital, openPrice), side, openPrice, price) - fee * capital
  }

  lemma {:induction false} UnitsGrow(capital: real, openPrice: real, price: real)
    requires 0.0 < openPrice
    ensures Units(capital, openPrice) * openPrice == capital
    ensures Units(capital, openPrice) * price == capital * (price / openPrice)
  {
    var u, q := capital / openPrice, price / openPrice;
    assert q * openPrice == price;
    assert u * price == u * (q * openPrice) == (u * openPrice) * q;
  }

  lemma {:induction false} ReturnIsCash(capital: real, side: int, openPrice: real, closePrice: real, fee: real)
    requires 0.0 < openPrice && (side == 1 || side == -1)
    ensures var growth := closePrice / openPrice;
            && capital * ReturnOf(side, growth, fee) == Cash(capital, side, openPrice, closePrice, fee) - capital
            && capital * FeesOf(growth, fee) == fee * capital + fee * (Units(capital, openPrice) * closePrice)
  {
    UnitsGrow(capital, openPrice, closePrice);
    var growth := closePrice / openPrice;
    assert capital * FeesOf(growth, fee) == fee * capital + fee * (capital * growth);
  }

  lemma {:induction false} MarkIsValued(capital: real, side: int, openPrice: real, price: real, fee: real)
    requires 0.0 < openPrice && (side == 1 || side == -1)
    ensures capital * MarkFactor(side, price, openPrice, fee) == Valued(capital, side, openPrice, price, fee)
  {
    UnitsGrow(capital, openPrice, price);
  }

  lemma {:induction false} TradeAt(candles: seq<Candle>, s: Settings, i: nat)
    requires ValidCandles(candles) && ValidSettings(s) && i < |Backtest(candles, s).trades|
    ensures var t := Backtest(candles, s).trades[i];
            && 0.0 < t.openPrice && (t.side == 1 || t.side == -1)
            && t.ret == ReturnOf(t.side, t.closePrice / t.openPrice, s.fee)
            && t.fees == FeesOf(t.closePrice / t.openPrice, s.fee)
  {
    hide Backtest, ReturnOf, FeesOf, Slipped, ClosedRightly, Untouched, Entered;
    TradesAreAccounted(candles, s);
    assert Accounted(candles, s, Backtest(candles, s).trades[i]);
  }

  lemma {:induction false} CompoundNext(ts: seq<Trade>, i: nat)
    requires i < |ts|
    ensures Compound(ts[..i + 1]) == Compound(ts[..i]) * Factor(ts[i])
  {
    assert ts[..i + 1] == ts[..i] + [ts[i]];
    CompoundAppend(ts[..i], ts[i]);
  }

  lemma {:induction false} FactorOf(capital: real, t: Trade, after: real)
    requires 0.0 < capital && capital * t.ret == after - capital
    ensures capital * Factor(t) == if after <= 0.0 then 0.0 else after
  {
    ProductPositive(capital, 1.0 + t.ret);
    ProductPositive(capital, -1.0 - t.ret);
    assert capital * (1.0 + t.ret) == after;
  }

  /**
   Each trade of a run, as an account: it starts with what the trades before it left, buys or sells units with
   all of it, pays the fee on the notional of both legs, and leaves the cash there is then, or nothing.
   */
  lemma {:induction false} TradesAreCash(candles: seq<Candle>, s: Settings, i: nat)
    requires ValidCandles(candles) && ValidSettings(s) && i < |Backtest(candles, s).trades|
    ensures var ts := Backtest(candles, s).trades; var t, capital := ts[i], Compound(ts[..i]);
            && 0.0 < t.openPrice && 0.0 < capital
            && (var after := Cash(capital, t.side, t.openPrice, t.closePrice, s.fee);
                && capital * t.ret == after - capital
                && capital * t.fees == s.fee * capital + s.fee * (Units(capital, t.openPrice) * t.closePrice)
                && Compound(ts[..i + 1]) == if after <= 0.0 then 0.0 else after)
  {
    hide *;
    var ts := Backtest(candles, s).trades;
    var t, capital := ts[i], Compound(ts[..i]);
    TradeAt(candles, s, i);
    PositiveBefore(candles, s, i);
    ReturnIsCash(capital, t.side, t.openPrice, t.closePrice, s.fee);
    CompoundNext(ts, i);
    FactorOf(capital, t, Cash(capital, t.side, t.openPrice, t.closePrice, s.fee));
  }

  /** The equity of a row that a trade holds is the account valued at the row's close. */
  lemma {:induction false} EquityIsValued(candles: seq<Candle>, s: Settings, i: nat, row: nat)
    requires ValidCandles(candles) && ValidSettings(s) && row < |candles|
    requires i < |Backtest(candles, s).trades| && Holds(Backtest(candles, s).trades[i], row)
    ensures var b := Backtest(candles, s); var t := b.trades[i];
            && |b.equity| == |candles| && 0.0 < t.openPrice
            && b.equity[row] == Valued(Compound(b.trades[..i]), t.side, t.openPrice, candles[row].close, s.fee)
  {
    hide *;
    var b := Backtest(candles, s);
    TradeAt(candles, s, i);
    EquityOfHeldRow(candles, s, i, row);
    MarkIsValued(Compound(b.trades[..i]), b.trades[i].side, b.trades[i].openPrice, candles[row].close, s.fee);
  }

  // ---------- prices ----------

  /** What the quotes of a trade's two fills are: an open, a close, or the level. */
  predicate Quoted(candles: seq<Candle>, s: Settings, t: Trade, entry: real, exit: real) {
    && t.openRow < |candles| && t.closeRow < |candles|
    && entry == (if s.fill.NextOpen? then candles[t.openRow].open else candles[t.openRow].close)
    && (match t.reason
        case BySignal => exit == if s.fill.NextOpen? then candles[t.closeRow].open else candles[t.closeRow].close
        case ByGap => exit == candles[t.closeRow].open
        case ByStop => t.stopPrice == Some(exit)
        case _ => exit == candles[t.closeRow].close)
  }

  function More(price: real, share: real): real {
    price + price * share
  }

  function Less(price: real, share: real): real {
    price - price * share
  }

  lemma {:induction false} LevelOf(entry: real, side: int, loss: real)
    ensures side == 1 ==> StopLevel(entry, side, loss) == Less(entry, loss)
    ensures side == -1 ==> StopLevel(entry, side, loss) == More(entry, loss)
  {
    if side == -1 { assert side as real * loss == -loss; }
  }

  lemma {:induction false} SlippedOf(price: real, toward: int, slippage: real)
    ensures toward == 1 ==> Slipped(price, toward, slippage) == More(price, slippage)
    ensures toward == -1 ==> Slipped(price, toward, slippage) == Less(price, slippage)
  {
    if toward == -1 { assert toward as real * slippage == -slippage; }
  }

  /** A bought leg pays slippage on top of its quote and a sold one gets it less; the level is the loss off the entry. */
  lemma {:induction false} FillsSlip(candles: seq<Candle>, s: Settings, t: Trade) returns (entry: real, exit: real)
    requires ValidCandles(candles) && ValidSettings(s) && t in Backtest(candles, s).trades
    ensures Quoted(candles, s, t, entry, exit) && (t.side == 1 || t.side == -1)
    ensures t.side == 1 ==> t.openPrice == More(entry, s.slippage) && t.closePrice == Less(exit, s.slippage)
    ensures t.side == -1 ==> t.openPrice == Less(entry, s.slippage) && t.closePrice == More(exit, s.slippage)
    ensures s.stopLoss.None? ==> t.stopPrice.None?
    ensures s.stopLoss.Some? && t.side == 1 ==> t.stopPrice == Some(Less(t.openPrice, s.stopLoss.value))
    ensures s.stopLoss.Some? && t.side == -1 ==> t.stopPrice == Some(More(t.openPrice, s.stopLoss.value))
  {
    hide *;
    TradesAreAccounted(candles, s);
    entry, exit := QuotesOf(candles, s, t);
    SlippedOf(entry, t.side, s.slippage);
    SlippedOf(exit, -t.side, s.slippage);
    if s.stopLoss.Some? { LevelOf(t.openPrice, t.side, s.stopLoss.value); }
  }

  lemma {:induction false} QuotesOf(candles: seq<Candle>, s: Settings, t: Trade) returns (entry: real, exit: real)
    requires Accounted(candles, s, t)
    ensures Quoted(candles, s, t, entry, exit) && (t.side == 1 || t.side == -1)
    ensures t.openPrice == Slipped(entry, t.side, s.slippage) && t.closePrice == Slipped(exit, -t.side, s.slippage)
    ensures t.stopPrice == if s.stopLoss.None? then None else Some(StopLevel(t.openPrice, t.side, s.stopLoss.value))
  {
    hide Slipped, StopLevel, ReturnOf, FeesOf, SlippageCostOf, MarkFactor, Untouched, Beyond;
    entry, exit := OrderQuote(candles, s, t.openRow), ExitQuote(candles, s, t.reason, t.closeRow, t.stopPrice);
  }

  /** The candle's range of the row does not touch a long's level, nor its open when the position was held then. */
  predicate AboveLong(candle: Candle, level: real, heldAtOpen: bool) {
    level < candle.low && (heldAtOpen ==> level < candle.open)
  }

  predicate BelowShort(candle: Candle, level: real, heldAtOpen: bool) {
    candle.high < level && (heldAtOpen ==> candle.open < level)
  }

  /** Whether the stop of a position opened on `openRow` is looked at on `row`: on its entry candle only at the open's fill. */
  predicate LookedAt(s: Settings, openRow: nat, row: nat) {
    if s.fill.NextOpen? then openRow <= row else openRow < row
  }

  /**
   The first touch of the level is what closes a trade with a stop. No row before its last one touched it; the
   last one did if the trade says stop or gap, at its open for a gap and not there for a stop; and if the trade
   says anything else, it did not, a `next_open` order that the row's open filled aside.
   */
  lemma {:induction false} FirstTouchCloses(candles: seq<Candle>, s: Settings, t: Trade)
    requires ValidCandles(candles) && ValidSettings(s) && t in Backtest(candles, s).trades && t.stopPrice.Some?
    ensures t.openRow <= t.closeRow < |candles|
    ensures var level, stopped := t.stopPrice.value, t.reason in {ByStop, ByGap};
            && (t.side == 1 ==> forall r: nat | r < t.closeRow && LookedAt(s, t.openRow, r) :: AboveLong(candles[r], level, t.openRow < r))
            && (t.side == -1 ==> forall r: nat | r < t.closeRow && LookedAt(s, t.openRow, r) :: BelowShort(candles[r], level, t.openRow < r))
            && (stopped ==> LookedAt(s, t.openRow, t.closeRow))
            && (!stopped && LookedAt(s, t.openRow, t.closeRow) && !(t.reason.BySignal? && s.fill.NextOpen?) ==>
                  && (t.side == 1 ==> AboveLong(candles[t.closeRow], level, t.openRow < t.closeRow))
                  && (t.side == -1 ==> BelowShort(candles[t.closeRow], level, t.openRow < t.closeRow)))
    ensures var level, candle := t.stopPrice.value, candles[t.closeRow];
            && (t.reason.ByGap? ==> t.openRow < t.closeRow && if t.side == 1 then candle.open <= level else level <= candle.open)
            && (t.reason.ByStop? ==>
                  && (if t.side == 1 then candle.low <= level else level <= candle.high)
                  && (t.openRow < t.closeRow ==> if t.side == 1 then level < candle.open else candle.open < level))
  {
    hide Backtest, Slipped, StopLevel, PaidFor, MarkFactor;
    TradesAreAccounted(candles, s);
    assert Accounted(candles, s, t);
  }
}
