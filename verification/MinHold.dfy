/** The minimum holding period of a signal, and what it means for the engine's trades. */
module MinHold {
  import opened Options
  import opened Engine
  import opened EngineLedger
  import opened EngineSignals

  datatype Outcome = Held(values: seq<real>) | ValueError

  /** A change to a position on a row after the first: it starts a hold. */
  predicate StartsAt(out: seq<real>, row: nat) {
    0 < row < |out| && out[row] != 0.0 && out[row] != out[row - 1]
  }

  /** `row` is kept by a hold that started on an earlier one. */
  ghost predicate InHold(out: seq<real>, candles: nat, row: nat) {
    exists start: nat :: start < row < start + candles && StartsAt(out, start)
  }

  /** The held signal: during a hold the output before it, otherwise the input. */
  ghost predicate IsHeld(values: seq<real>, candles: nat, out: seq<real>) {
    && |out| == |values|
    && forall r: nat | r < |out| :: out[r] == HeldValue(values, candles, out, r)
  }

  ghost function HeldValue(values: seq<real>, candles: nat, out: seq<real>, row: nat): real
    requires |out| == |values| && row < |out|
  {
    if 0 < row && InHold(out, candles, row) then out[row - 1] else values[row]
  }

  /** `None` is a missing value or NaN. */
  method MinHold(signal: seq<Option<real>>, candles: int) returns (r: Outcome)
    ensures r.ValueError? <==> candles < 1 || None in signal
    ensures r.Held? ==> IsHeld(Numbers(signal), candles, r.values)
  {
    hide *;
    if candles < 1 || None in signal {
      return ValueError;
    }
    var values := Numbers(signal);
    var held: seq<real> := [];
    var previous, until := 0.0, 0;
    StartOfHolds(candles);
    for row := 0 to |values|
      invariant |held| == row && until >= 0
      invariant row > 0 ==> previous == held[row - 1]
      invariant Until(held, candles, until)
      invariant IsHeld(values[..row], candles, held)
    {
      var current := previous;
      ghost var before, was := held, until;
      if row >= until {
        current := if values[row] == 0.0 then 0.0 else values[row];
        if row != 0 && current != 0.0 && current != previous {
          until := row + candles;
        }
      }
      held := held + [current];
      UntilTells(before, candles, was, current);
      UntilMoves(before, candles, was, current);
      AppendHeld(values[..row], candles, before, values[row], current);
      assert values[..row + 1] == values[..row] + [values[row]];
      previous := current;
    }
    assert values[..|values|] == values;
    return Held(held);
  }

  /** `until` is the first row after the last hold that started, 0 before any did. */
  ghost predicate Until(held: seq<real>, candles: nat, until: int) {
    && (forall start: nat | StartsAt(held, start) :: start + candles <= until)
    && (until == 0 || exists start: nat :: StartsAt(held, start) && until == start + candles)
  }

  lemma {:induction false} StartOfHolds(candles: nat)
    ensures Until([], candles, 0) && IsHeld([], candles, [])
  {
  }

  /** The next row is in a hold exactly while it is before `until`. */
  lemma {:induction false} UntilTells(held: seq<real>, candles: nat, until: int, next: real)
    requires Until(held, candles, until)
    ensures InHold(held + [next], candles, |held|) <==> |held| < until
    ensures |held| < until ==> held != []
  {
    SameStarts(held, next);
    if |held| < until {
      var start: nat :| StartsAt(held, start) && until == start + candles;
      assert start < |held| < start + candles;
    }
  }

  lemma {:induction false} UntilMoves(held: seq<real>, candles: nat, until: int, next: real)
    requires Until(held, candles, until) && 1 <= candles
    requires |held| < until ==> held != [] && next == held[|held| - 1]
    ensures Until(held + [next], candles,
                  if until <= |held| && held != [] && next != 0.0 && next != held[|held| - 1] then |held| + candles else until)
  {
    SameStarts(held, next);
    if until != 0 {
      var start: nat :| StartsAt(held, start) && until == start + candles;
      assert StartsAt(held + [next], start);
    }
    assert StartsAt(held + [next], |held|) <==> held != [] && next != 0.0 && next != held[|held| - 1];
  }

  function Numbers(signal: seq<Option<real>>): (r: seq<real>)
    ensures |r| == |signal| && forall i | 0 <= i < |r| && signal[i].Some? :: r[i] == signal[i].value
  {
    seq(|signal|, i requires 0 <= i < |signal| => if signal[i].Some? then signal[i].value else 0.0)
  }

  lemma {:induction false} InHoldPrefix(out: seq<real>, candles: nat, row: nat, k: nat)
    requires row < k <= |out|
    ensures InHold(out[..k], candles, row) <==> InHold(out, candles, row)
  {
    assert forall start: nat | start < row :: StartsAt(out[..k], start) <==> StartsAt(out, start);
  }

  lemma {:induction false} SameStarts(out: seq<real>, current: real)
    ensures forall start: nat | start < |out| :: StartsAt(out + [current], start) <==> StartsAt(out, start)
  {
  }

  lemma {:induction false} AppendHeld(values: seq<real>, candles: nat, out: seq<real>, value: real, current: real)
    requires IsHeld(values, candles, out)
    requires var row := |out|;
             current == if InHold(out + [current], candles, row) && 0 < row then out[row - 1] else value
    ensures IsHeld(values + [value], candles, out + [current])
  {
    var longer := out + [current];
    forall r: nat | r < |out|
      ensures longer[r] == HeldValue(values + [value], candles, longer, r)
    {
      InHoldPrefix(longer, candles, r, |out|);
      assert longer[..|out|] == out;
      assert out[r] == HeldValue(values, candles, out, r);
    }
  }

  // ---------- what a held signal is ----------

  lemma {:induction false} HeldPrefix(values: seq<real>, candles: nat, out: seq<real>, k: nat)
    requires IsHeld(values, candles, out) && k <= |values|
    ensures IsHeld(values[..k], candles, out[..k])
  {
    forall r: nat | r < k
      ensures out[..k][r] == HeldValue(values[..k], candles, out[..k], r)
    {
      InHoldPrefix(out, candles, r, k);
      assert out[r] == HeldValue(values, candles, out, r);
    }
  }

  lemma {:induction false} SameHolds(a: seq<real>, b: seq<real>, candles: nat, row: nat)
    requires row < |a| && row < |b| && forall j | 0 <= j < row :: a[j] == b[j]
    ensures InHold(a, candles, row) <==> InHold(b, candles, row)
  {
    forall start: nat | start < row ensures StartsAt(a, start) <==> StartsAt(b, start) {
    }
  }

  lemma {:induction false} SameUpTo(values: seq<real>, candles: nat, a: seq<real>, b: seq<real>, k: nat)
    requires IsHeld(values, candles, a) && IsHeld(values, candles, b) && k <= |values|
    ensures forall j | 0 <= j < k :: a[j] == b[j]
  {
    hide InHold;
    if k > 0 {
      SameUpTo(values, candles, a, b, k - 1);
      SameHolds(a, b, candles, k - 1);
      assert a[k - 1] == HeldValue(values, candles, a, k - 1);
      assert b[k - 1] == HeldValue(values, candles, b, k - 1);
    }
  }

  /** There is one held signal: the definition above pins every value down. */
  lemma {:induction false} HeldIsUnique(values: seq<real>, candles: nat, a: seq<real>, b: seq<real>)
    requires IsHeld(values, candles, a) && IsHeld(values, candles, b)
    ensures a == b
  {
    SameUpTo(values, candles, a, b, |values|);
  }

  /** No look-ahead: equal inputs up to a row are held alike up to it. */
  lemma {:induction false} HeldIsCausal(v: seq<real>, w: seq<real>, candles: nat, a: seq<real>, b: seq<real>, k: nat)
    requires IsHeld(v, candles, a) && IsHeld(w, candles, b)
    requires k <= |v| && k <= |w| && v[..k] == w[..k]
    ensures a[..k] == b[..k]
  {
    HeldPrefix(v, candles, a, k);
    HeldPrefix(w, candles, b, k);
    HeldIsUnique(v[..k], candles, a[..k], b[..k]);
  }

  lemma {:induction false} HeldAt(values: seq<real>, candles: nat, out: seq<real>, row: nat)
    requires IsHeld(values, candles, out) && row < |out|
    ensures |out| == |values| && out[row] == HeldValue(values, candles, out, row)
  {
    hide InHold;
  }

  /** Where a hold starts, the next `candles` rows, as far as there are any, have its value. */
  lemma {:induction false} NewPositionIsKept(values: seq<real>, candles: nat, out: seq<real>, start: nat, row: nat)
    requires IsHeld(values, candles, out) && StartsAt(out, start)
    requires start <= row < start + candles && row < |out|
    ensures out[row] == out[start]
  {
    hide IsHeld, StartsAt;
    if row > start {
      NewPositionIsKept(values, candles, out, start, row - 1);
      HeldAt(values, candles, out, row);
      assert InHold(out, candles, row);
    }
  }

  /**
   The held signal in terms of its values: a row that follows a change to a position, on a row after the first,
   by fewer rows than are held has the row before's value, and every other row has the input's.
   */
  lemma {:induction false} HeldOrInput(values: seq<real>, candles: nat, out: seq<real>, row: nat)
    requires IsHeld(values, candles, out) && row < |out|
    ensures |out| == |values|
    ensures (exists start: nat :: 0 < start < row < start + candles && out[start] != out[start - 1] && out[start] != 0.0) ==>
              out[row] == out[row - 1]
    ensures (forall start: nat | 0 < start < row < start + candles :: out[start] == out[start - 1] || out[start] == 0.0) ==>
              out[row] == values[row]
  {
    HeldAt(values, candles, out, row);
    if start: nat :| 0 < start < row < start + candles && out[start] != out[start - 1] && out[start] != 0.0 {
      assert StartsAt(out, start);
    }
  }

  /** Holding a held signal again for no longer changes nothing; one candle changes no signal. */
  lemma {:induction false} HoldingAgainChangesNothing(values: seq<real>, candles: nat, out: seq<real>, again: nat)
    requires IsHeld(values, candles, out) && again <= candles
    ensures IsHeld(out, again, out)
    ensures candles == 1 ==> out == values
  {
    forall r: nat | r < |out|
      ensures out[r] == HeldValue(out, again, out, r)
    {
      if InHold(out, again, r) {
        var start: nat :| start < r < start + again && StartsAt(out, start);
        assert InHold(out, candles, r) && out[r] == HeldValue(values, candles, out, r);
      }
    }
    if candles == 1 {
      forall r: nat | r < |out| ensures out[r] == values[r] {
        assert out[r] == HeldValue(values, candles, out, r);
      }
    }
  }

  // ---------- end to end ----------

  /** The engine runs on the held signal `out`. */
  predicate SignalIs(candles: seq<Candle>, out: seq<real>) {
    |candles| == |out| && forall r | 0 <= r < |out| :: candles[r].signal as real == out[r]
  }

  /** Where the signal leaves the side it changed to, at least `hold` rows have gone by. */
  lemma {:induction false} SideIsKept(candles: seq<Candle>, values: seq<real>, hold: nat, out: seq<real>, side: int, start: nat, end: nat)
    requires IsHeld(values, hold, out) && SignalIs(candles, out)
    requires 1 <= start <= end < |candles| && side != 0
    requires candles[start].signal == side != candles[start - 1].signal && candles[end].signal != side
    ensures hold <= end - start
  {
    if end - start < hold {
      NewPositionIsKept(values, hold, out, start, end);
    }
  }

  /**
   On a `min_hold` signal every trade the signal closes spans at least the held candles, in both
   fill modes and whatever stops, costs and the drawdown stop do to the others.
   */
  lemma {:induction false} SignalTradesSpanTheHold(candles: seq<Candle>, s: Settings, values: seq<real>, hold: nat, out: seq<real>)
    requires ValidCandles(candles) && ValidSettings(s)
    requires IsHeld(values, hold, out) && SignalIs(candles, out)
    ensures forall t | t in Backtest(candles, s).trades && t.reason.BySignal? :: hold <= t.closeRow - t.openRow
  {
    hide Backtest, IsHeld, Compound, MarkFactor, Between;
    TradesFollowSignal(candles, s);
    TradesDetermineSeries(candles, s);
    var ts := Backtest(candles, s).trades;
    forall i | 0 <= i < |ts| && ts[i].reason.BySignal? ensures hold <= ts[i].closeRow - ts[i].openRow {
      var t := ts[i];
      assert TradeBacked(candles, s, t) && ProperTrade(t);
      SideIsKept(candles, values, hold, out, t.side, t.signalRow, t.closeRow - Lag(s));
    }
  }
}
