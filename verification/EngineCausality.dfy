/**
 No look-ahead: what a run records up to a row depends on the candles up to that row only, although
 the engine treats the last row specially and overwrites entries it already recorded.
 */
module EngineCausality {
  import opened Engine
  import opened EngineLedger

  /** What is known of a trade when it opens. */
  function Entry(t: Trade): Trade {
    t.(closeRow := 0, closePrice := 0.0, reason := ByEnd, ret := 0.0, fees := 0.0, slippageCost := 0.0)
  }

  /**
   How a book may develop from `row` on: recorded rows before it stay, and so do its trades and
   the entry of the position open now; whatever else there is closes and opens from `row` on.
   */
  predicate Extends(b: Book, r: Book, row: nat)
    requires row <= |b.position| == |b.equity|
  {
    && |b.position| <= |r.position| == |r.equity|
    && r.position[..row] == b.position[..row]
    && r.equity[..row] == b.equity[..row]
    && |b.trades| <= |r.trades| && r.trades[..|b.trades|] == b.trades
    && (forall j | |b.trades| <= j < |r.trades| :: row <= r.trades[j].closeRow)
    && EntriesExtend(Ledger(b, 0), Ledger(r, 0), row)
  }

  predicate EntriesExtend(known: seq<Trade>, now: seq<Trade>, row: nat) {
    && |known| <= |now|
    && (forall j | 0 <= j < |known| :: Entry(now[j]) == Entry(known[j]))
    && (forall j | |known| <= j < |now| :: row <= now[j].openRow)
  }

  lemma {:induction false} ExtendsTransitive(a: Book, b: Book, c: Book, row: nat)
    requires row <= |a.position| == |a.equity| && Extends(a, b, row) && Extends(b, c, row)
    ensures Extends(a, c, row)
  {
    hide Ledger;
    var la, lb, lc := Ledger(a, 0), Ledger(b, 0), Ledger(c, 0);
    forall j | 0 <= j < |la| ensures Entry(lc[j]) == Entry(la[j]) {
      assert Entry(lb[j]) == Entry(la[j]);
    }
    forall j | |la| <= j < |lc| ensures row <= lc[j].openRow {
      if j < |lb| { assert Entry(lc[j]).openRow == Entry(lb[j]).openRow; }
    }
    assert c.trades[..|a.trades|] == c.trades[..|b.trades|][..|a.trades|];
    forall j | |a.trades| <= j < |c.trades| ensures row <= c.trades[j].closeRow {
      if j < |b.trades| { assert c.trades[j] == c.trades[..|b.trades|][j] == b.trades[j]; }
    }
  }

  lemma {:induction false} ClosedExtends(b: Book, s: Settings, at: nat, price: real, reason: Reason, row: nat)
    requires Sound(b) && b.side != 0 && row <= |b.position| == |b.equity| && row <= at
    ensures Extends(b, Closed(b, s, at, price, reason), row)
  {
    hide ReturnOf, FeesOf, Slipped;
    var r := Closed(b, s, at, price, reason);
    assert r.trades == b.trades + [TradeOf(b, s, at, price, reason)];
    assert Entry(TradeOf(b, s, at, price, reason)) == Entry(OpenTrade(b, 0));
  }

  lemma {:induction false} FilledExtends(b: Book, s: Settings, at: nat, signalRow: nat, price: real, signal: int, mayOpen: bool, row: nat)
    requires ValidSettings(s) && Sound(b) && 0.0 < price && -1 <= signal <= 1
    requires row <= |b.position| == |b.equity| && row <= at
    ensures Extends(b, Filled(b, s, at, signalRow, price, signal, mayOpen), row)
  {
    hide ReturnOf, FeesOf, Slipped, Closed, StopLevel;
    var c := b;
    if b.side != 0 && b.side != signal {
      ClosedExtends(b, s, at, price, BySignal, row);
      c := Closed(b, s, at, price, BySignal);
    }
    var r := Filled(b, s, at, signalRow, price, signal, mayOpen);
    assert Extends(c, r, row);
    ExtendsTransitive(b, c, r, row);
  }

  lemma {:induction false} StopCheckedExtends(b: Book, s: Settings, at: nat, candle: Candle, row: nat)
    requires Sound(b) && ValidCandle(candle) && row <= |b.position| == |b.equity| && row <= at
    ensures Extends(b, StopChecked(b, s, at, candle), row)
  {
    hide Closed;
    if b.side != 0 && b.stop.Some? {
      ClosedExtends(b, s, at, candle.open, ByGap, row);
      ClosedExtends(b, s, at, b.stop.value, ByStop, row);
    }
  }

  lemma {:induction false} TradedExtends(c: Cursor, s: Settings, candle: Candle, at: nat, isLast: bool, row: nat)
    requires ValidSettings(s) && ValidCandle(candle) && Ready(c, at) && row <= at
    ensures Extends(c.book, Traded(c, s, candle, at, isLast).book, row)
  {
    hide Filled, StopChecked, Extends;
    var filled := c.book;
    ExtendsReflexive(c.book, row);
    if c.pending.Some? {
      filled := Filled(c.book, s, at, at - 1, candle.open, c.pending.value, true);
      FilledExtends(c.book, s, at, at - 1, candle.open, c.pending.value, true, row);
      FilledKeepsSeries(c.book, s, at, at - 1, candle.open, c.pending.value, true);
    }
    var checked := StopChecked(filled, s, at, candle);
    StopCheckedExtends(filled, s, at, candle, row);
    StopCheckedKeepsSeries(filled, s, at, candle);
    ExtendsTransitive(c.book, filled, checked, row);
    if s.fill.SignalClose? && candle.signal != c.previous {
      FilledExtends(checked, s, at, at, candle.close, candle.signal, !isLast, row);
      ExtendsTransitive(c.book, checked, Filled(checked, s, at, at, candle.close, candle.signal, !isLast), row);
    }
  }

  lemma {:induction false} ExtendsReflexive(b: Book, row: nat)
    requires row <= |b.position| == |b.equity|
    ensures Extends(b, b, row)
  {
  }

  lemma {:induction false} MarkedExtends(b: Book, s: Settings, at: nat, close: real, row: nat)
    requires Sound(b) && row <= at && at == |b.position| == |b.equity|
    ensures Extends(b, Marked(b, s, at, close), row)
  {
    hide Closed, Worth;
    if b.side != 0 { ClosedExtends(b, s, at, close, ByRuin, row); }
  }

  lemma {:induction false} DrawdownCheckedExtends(b: Book, s: Settings, at: nat, close: real, row: nat)
    requires Sound(b) && row <= at && |b.position| == |b.equity| == at + 1
    ensures Extends(b, DrawdownChecked(b, s, at, close), row)
  {
    hide Closed;
    var p := b.(peak := if b.equity[at] > b.peak then b.equity[at] else b.peak);
    assert Ledger(p, 0) == Ledger(b, 0);
    if p.side != 0 { ClosedExtends(p, s, at, close, ByDrawdown, row); }
  }

  lemma {:induction false} StepExtends(c: Cursor, s: Settings, candle: Candle, at: nat, isLast: bool, row: nat)
    requires ValidSettings(s) && ValidCandle(candle) && Ready(c, at) && row <= at
    ensures Extends(c.book, Step(c, s, candle, at, isLast).book, row)
  {
    hide Traded, Extends, Marked, DrawdownChecked;
    if c.book.halted {
      IdleExtends(c.book, row);
    } else {
      var traded := Traded(c, s, candle, at, isLast).book;
      TradedExtends(c, s, candle, at, isLast, row);
      TradedKeepsSeries(c, s, candle, at, isLast);
      var marked := Marked(traded, s, at, candle.close);
      MarkedExtends(traded, s, at, candle.close, row);
      MarkedLength(traded, s, at, candle.close);
      ExtendsTransitive(c.book, traded, marked, row);
      if !marked.halted {
        DrawdownCheckedExtends(marked, s, at, candle.close, row);
        ExtendsTransitive(c.book, marked, DrawdownChecked(marked, s, at, candle.close), row);
      }
    }
  }

  lemma {:induction false} IdleExtends(b: Book, row: nat)
    requires row <= |b.position| == |b.equity|
    ensures Extends(b, b.(position := b.position + [0], equity := b.equity + [b.capital]), row)
  {
    assert Ledger(b.(position := b.position + [0], equity := b.equity + [b.capital]), 0) == Ledger(b, 0);
  }

  /** What is recorded before `row` is not touched by the rows from `row` on. */
  lemma {:induction false} RunExtends(candles: seq<Candle>, s: Settings, row: nat, k: nat)
    requires ValidCandles(candles) && ValidSettings(s) && row <= k <= |candles|
    ensures Extends(RunTo(candles, s, row).book, RunTo(candles, s, k).book, row)
    decreases k
  {
    hide Extends, Step;
    if row == k {
      ExtendsReflexive(RunTo(candles, s, row).book, row);
    } else {
      RunExtends(candles, s, row, k - 1);
      StepExtends(RunTo(candles, s, k - 1), s, candles[k - 1], k - 1, k == |candles|, row);
      ExtendsTransitive(RunTo(candles, s, row).book, RunTo(candles, s, k - 1).book, RunTo(candles, s, k).book, row);
    }
  }

  lemma {:induction false} FinishedExtends(b: Book, s: Settings, last: nat, close: real, row: nat)
    requires Sound(b) && row <= last && |b.position| == |b.equity| == last + 1
    ensures Extends(b, Finished(b, s, last, close), row)
  {
    hide Closed;
    if b.side != 0 { ClosedExtends(b, s, last, close, ByEnd, row); }
  }

  /** The same for the finished run: what closes with the last candle closes on a row from `row` on. */
  lemma {:induction false} BacktestExtends(candles: seq<Candle>, s: Settings, row: nat)
    requires ValidCandles(candles) && ValidSettings(s) && row < |candles|
    ensures Extends(RunTo(candles, s, row).book, Backtest(candles, s), row)
  {
    hide RunTo, Extends, Finished;
    RunExtends(candles, s, row, |candles|);
    var b := RunTo(candles, s, |candles|).book;
    FinishedExtends(b, s, |candles| - 1, candles[|candles| - 1].close, row);
    ExtendsTransitive(RunTo(candles, s, row).book, b, Backtest(candles, s), row);
  }

  /** The state before a row is the same for all data that continue the same rows. */
  lemma {:induction false} SameState(a: seq<Candle>, b: seq<Candle>, s: Settings, k: nat)
    requires ValidCandles(a) && ValidCandles(b) && ValidSettings(s)
    requires k < |a| && k < |b| && a[..k] == b[..k] && (k == 0 ==> a[0].signal == b[0].signal)
    ensures RunTo(a, s, k) == RunTo(b, s, k)
  {
    hide Step;
    if k > 0 {
      assert a[0] == a[..k][0] == b[..k][0] == b[0];
      assert a[..k - 1] == a[..k][..k - 1] == b[..k][..k - 1] == b[..k - 1];
      assert a[k - 1] == a[..k][k - 1] == b[..k][k - 1] == b[k - 1];
      SameState(a, b, s, k - 1);
    }
  }

  // ---------- the trades known before a row ----------

  /** The trades closed before `row`, of a list in time order. */
  function ClosedBefore(ts: seq<Trade>, row: nat): seq<Trade> {
    if ts == [] then []
    else if ts[|ts| - 1].closeRow < row then ts
    else ClosedBefore(ts[..|ts| - 1], row)
  }

  /** The entries of a list in time order that opened before `row`. */
  function OpenedBefore(ts: seq<Trade>, row: nat): seq<Trade> {
    if ts == [] then []
    else if ts[|ts| - 1].openRow < row then Entries(ts)
    else OpenedBefore(ts[..|ts| - 1], row)
  }

  function Entries(ts: seq<Trade>): seq<Trade> {
    seq(|ts|, i requires 0 <= i < |ts| => Entry(ts[i]))
  }

  lemma {:induction false} ClosedBeforeIs(ts: seq<Trade>, known: seq<Trade>, row: nat)
    requires known <= ts
    requires forall i | 0 <= i < |known| :: known[i].closeRow < row
    requires forall i | |known| <= i < |ts| :: row <= ts[i].closeRow
    ensures ClosedBefore(ts, row) == known
  {
    if ts != known {
      ClosedBeforeIs(ts[..|ts| - 1], known, row);
    }
  }

  lemma {:induction false} OpenedBeforeIs(ts: seq<Trade>, known: seq<Trade>, row: nat)
    requires EntriesExtend(known, ts, row)
    requires forall i | 0 <= i < |known| :: known[i].openRow < row
    ensures OpenedBefore(ts, row) == Entries(known)
  {
    if |ts| > |known| {
      OpenedBeforeIs(ts[..|ts| - 1], known, row);
    } else if ts != [] {
      assert Entry(ts[|ts| - 1]).openRow == Entry(known[|ts| - 1]).openRow;
    }
  }

  /** What a finished run shows of the rows before `row` is the state the run was in there. */
  lemma {:induction false} KnownBefore(candles: seq<Candle>, s: Settings, row: nat)
    requires ValidCandles(candles) && ValidSettings(s) && row < |candles|
    ensures var b, c := Backtest(candles, s), RunTo(candles, s, row).book;
            && |b.position| == |b.equity| == |candles|
            && b.position[..row] == c.position && b.equity[..row] == c.equity
            && ClosedBefore(b.trades, row) == c.trades
            && OpenedBefore(b.trades, row) == Entries(Ledger(c, 0))
  {
    hide Explained, Compound, Backtest, RunTo, ClosedBefore, OpenedBefore, Entries;
    var b, c := Backtest(candles, s), RunTo(candles, s, row).book;
    BacktestExtends(candles, s, row);
    BacktestCoherent(candles, s);
    RunCoherent(candles, s, row);
    assert c.position[..row] == c.position && c.equity[..row] == c.equity;
    ClosedBeforeIs(b.trades, c.trades, row);
    assert Ledger(b, 0) == b.trades;
    var ledger := Ledger(c, row);
    forall i | 0 <= i < |c.trades| ensures c.trades[i].openRow < row {
      assert ledger[i] == c.trades[i];
    }
    OpenedBeforeIs(b.trades, Ledger(c, 0), row);
  }

  /**
   No look-ahead, in both fill modes: two inputs that agree on their first `row` candles and go on
   after them record the same positions and equities there, close the same trades there and open
   the same positions there.
   */
  lemma {:induction false} NoLookAhead(a: seq<Candle>, b: seq<Candle>, s: Settings, row: nat)
    requires ValidCandles(a) && ValidCandles(b) && ValidSettings(s)
    requires row < |a| && row < |b| && a[..row] == b[..row]
    ensures var x, y := Backtest(a, s), Backtest(b, s);
            && |x.position| == |x.equity| == |a| && |y.position| == |y.equity| == |b|
            && x.position[..row] == y.position[..row]
            && x.equity[..row] == y.equity[..row]
            && ClosedBefore(x.trades, row) == ClosedBefore(y.trades, row)
            && OpenedBefore(x.trades, row) == OpenedBefore(y.trades, row)
  {
    hide Backtest, ClosedBefore, OpenedBefore;
    KnownBefore(a, s, row);
    KnownBefore(b, s, row);
    if row > 0 { SameState(a, b, s, row); }
  }
}
