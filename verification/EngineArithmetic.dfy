/** The real arithmetic of one trade: what its costs, its mark and its stop do to its return. */
module EngineArithmetic {
  import opened Engine

  lemma {:induction false} ProductPositive(x: real, y: real)
    requires 0.0 < x
    ensures 0.0 < y ==> 0.0 < x * y
    ensures y <= 0.0 ==> x * y <= 0.0
    ensures 0.0 <= y ==> 0.0 <= x * y
  {
  }

  lemma {:induction false} QuotientPositive(x: real, y: real)
    requires 0.0 < y
    ensures 0.0 < x ==> 0.0 < x / y
    ensures 0.0 <= x ==> 0.0 <= x / y
  {
  }

  lemma {:induction false} QuotientMonotone(x: real, x': real, y: real)
    requires 0.0 < y && x <= x'
    ensures x / y <= x' / y
  {
  }

  lemma {:induction false} ProductMonotone(x: real, y: real, y': real)
    requires 0.0 <= x && y <= y'
    ensures x * y <= x * y'
  {
  }

  /** Slippage moves an exit against the trade: the growth is no better than without it. */
  lemma {:induction false} ExitSlips(price: real, entry: real, side: int, slippage: real)
    requires 0.0 < price && 0.0 < entry && (side == 1 || side == -1) && 0.0 <= slippage < 1.0
    ensures var growth := Slipped(price, -side, slippage) / entry;
            && 0.0 < growth
            && side as real * (growth - 1.0) <= side as real * (price / entry - 1.0)
  {
  }

  /** Closing pays at least what the mark left out. */
  lemma {:induction false} ClosingCosts(price: real, entry: real, side: int, fee: real, slippage: real)
    requires 0.0 < price && 0.0 < entry && (side == 1 || side == -1) && 0.0 <= fee && 0.0 <= slippage < 1.0
    ensures var growth := Slipped(price, -side, slippage) / entry;
            1.0 + ReturnOf(side, growth, fee) <= MarkFactor(side, price, entry, fee)
  {
    ExitSlips(price, entry, side, slippage);
    var growth := Slipped(price, -side, slippage) / entry;
    ProductMonotone(fee, 1.0, 1.0 + growth);
  }

  /** What closing at `price` gives never exceeds the mark at `price`; a mark at or below 0 is a ruin. */
  lemma {:induction false} MarkBoundsClose(b: Book, s: Settings, row: nat, price: real, reason: Reason)
    requires ValidSettings(s) && Sound(b) && b.side != 0 && 0.0 < b.capital && 0.0 < price
    ensures 1.0 + TradeOf(b, s, row, price, reason).ret <= MarkFactor(b.side, price, b.entryPrice, s.fee)
    ensures Worth(b, s, price) <= 0.0 ==> TradeOf(b, s, row, price, reason).ret <= -1.0
    ensures 0.0 <= Worth(b, s, price) ==> Closed(b, s, row, price, reason).capital <= Worth(b, s, price)
  {
    hide ReturnOf, FeesOf, Slipped, MarkFactor;
    ClosingCosts(price, b.entryPrice, b.side, s.fee, s.slippage);
    var mark := MarkFactor(b.side, price, b.entryPrice, s.fee);
    var ret := TradeOf(b, s, row, price, reason).ret;
    ProductPositive(b.capital, mark);
    ProductMonotone(b.capital, 1.0 + ret, mark);
  }
}
