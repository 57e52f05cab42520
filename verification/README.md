# CandleStack, verified

A Dafny model of the parts of CandleStack's backend whose correctness is hardest to see: the backtest
engine and what surrounds it, the arithmetic of candle bins and trading sessions, the single-flight
cache, and two searches in the model uploads. `dafny verify dfyconfig.toml` checks all of it. Every lemma
carries `{:induction false}`: its body is its proof.

## What is modelled

**The backtest engine** (`Engine*.dfy`, `MinHold.dfy`, `Metrics.dfy`). `Engine.Loop` is the engine's
mutable object with its fields and methods. Each method is proved to leave the state that a value-level
function of the old state gives; `Run` leaves `Backtest` of the candles. The `Engine*` modules prove what
the engine's rules promise about every run: the trades determine the series (`EngineLedger`), no
look-ahead (`EngineCausality`), trades follow the signal and no change is missed (`EngineSignals`,
`EngineOpenings`), halting (`EngineHalting`),
the drawdown stop (`EngineDrawdown`), stops and costs (`EngineStops`, `EngineAccounts`), the vectorised form
(`EngineVectorised`), the two fill modes against each other (`EnginePlain`, `EngineShift`), and the reported statistics
(`EngineReport`). `EngineExamples` holds concrete runs that show which conditions are needed.

**Candle bins and sessions** (`Sessions`, `Bins`, `Advice`, `WalkBack`, `Gaps`, `Resample`, `Assemble`;
`Arithmetic` has the ceiling and floor division). Closed forms, backward walks and searches are proved
equal to the plain enumeration of bins; resampling, batching and gap merging lose and invent nothing.

**The single-flight cache** (`SingleFlight`). Any number of callers of one name as a state machine of
atomic Redis calls under arbitrary interleaving, with keys expiring as steps of their own.

**Model uploads** (`CustomCode`, `AllowList`, `CustomCodeWalk`, `Hdf5`, `FreeName`; `Text` has Python's string methods). The allowlist walk over a model's JSON, the bounded
walk over a possibly cyclic HDF5 link graph, and the search for a free numbered name.

## How it is stated

- Prices, money, volumes and statistics are reals: no rounding, NaN or infinity.
- Fee and slippage are the fractions that the settings' basis points stand for. Slippage is below 1: the
  settings allow more, but at 1 a short's entry price is 0 and the engine divides by it.
- The engine's input is checked input: positive prices, `ts` strictly increasing, signals -1, 0 or 1
  (backend/src/candlestack/engine/inputs.py:16-34). A trade names its candles by row. Consistent candles
  (low and high around open and close) are asked for only where a result says so.
- The body of `run` is split: `Loop.Advance`, `Execute`, `Idle` and
  `CloseAtEnd` are parts of it, as `LatestInSessions`, `FirstInSessions`, `Decode`, `FollowLinks`,
  `Expand`, `PushItems` and `PushEntries` are parts of the loops around them.
- A frame is a sequence of bars in time order. Resampling adds bars one by one to their bin;
  `ResampleIsGrouping` says that this is the group-by.
- Calendars are sorted and disjoint and every session is open for a while. Python's bisect is a binary
  search proved to find the insertion point.
- A chunk holds its own rows in order, chunks follow each other, and no session spans a chunk bound;
  candles that are not resampled come from their source on the grid. The source adapters are not part of
  this model.
- Cache keys expire as steps that may come at any time; each result says which expiries it allows.
- A JSON dictionary has distinct keys, and every listed function has a module. Only strings can be on the allowlists. A class name that is a list
  or a dictionary makes Python raise a TypeError, which the model returns as an answer of its own.
- In an HDF5 file an object linked twice counts twice, as the walk counts it; a dataset in the place of
  the group counts nothing.
- Postgres' lowercasing is an arbitrary letter-by-letter function that keeps white space, digits,
  parentheses and LIKE's special characters what they are; Python's is an arbitrary function on text.
  Control and white-space characters are arbitrary sets.

## Where the code is not what its documentation says

- docs/engine.md:795 and its test pair the trades of the two fill modes whenever there are no stops and
  costs. A short that doubles in one mode and not in the other breaks the pairing
  (`EngineExamples.RuinBreaksTheShift`); `EngineShift.NextOpenIsSignalCloseOneRowLater` says exactly
  when it holds, in terms of the candles.
- `first_of_last` for fixed bins returns `lower` itself when there are too few bins and `lower` is off
  the grid, where no bin opens, not the earliest bin there is (`WalkBack.OffGridLowerIsReturned`);
  `WalkBack.FixedCountsBack` says exactly when it is the count-back. Its only caller passes what
  `bin_open` returned, which is on the grid.
- `newest_minute` before the first session answers with a minute that is no bin of the calendar
  (`WalkBack.NewestMinuteBeforeTheCalendar`); `WalkBack.NewestMinuteIsLastClosed` says exactly when it
  is the newest one closed.

Two more results have an exact condition and a concrete input beyond it, though nothing says otherwise:
a long's gap exit can return more than a stop when the fee exceeds the notional
(`EngineStops.GapIsNoBetterThanStop`), and the close that stands in for the next session's is over after
four days (`WalkBack.NowIsBetweenCloses`).

## Model

| member | source | states |
|---|---|---|
| `EngineLedger.TradesDetermineSeries` | backend/src/candlestack/engine/loop.py:75-208 | After any run, in both fill modes: the trades are in order and do not overlap (signal row <= open row <= close row <= the next open row, open rows strictly increasing), and on every row held by a trade the position is its side and the equity is what the trades before it compound to times its mark; between trades the position is 0 and the equity is what the closed trades compound to |
| `EngineLedger.EveryRowIsRead` | backend/src/candlestack/engine/loop.py:75-208 | Every row is either held by a trade or between trades, never both, so the reading above leaves no row open |
| `EngineLedger.RunCoherent` | backend/src/candlestack/engine/loop.py:75-101 | The invariant kept by every row of every run: the recorded series and the capital are the ones the trades and the open position give |
| `EngineCausality.NoLookAhead` | backend/src/candlestack/engine/loop.py:75-122 | Two inputs that agree on their first rows and both go on after them record the same positions and equities on those rows, close the same trades there and open the same positions there, in both fill modes |
| `EngineCausality.RunExtends` | backend/src/candlestack/engine/loop.py:75-101 | Later rows never touch what was recorded before them, although entries of the series are overwritten |
| `EngineCausality.KnownBefore` | backend/src/candlestack/engine/loop.py:75-101 | What a finished run shows of the rows before any row is the state the run was in there |
| `EngineSignals.TradesFollowSignal` | backend/src/candlestack/engine/loop.py:78-122 | Every trade was decided where the signal changed to its side and filled on that row or the next one, by the fill mode; the signal stayed there until the trade closed, and left exactly then when it is what closed it; whatever follows a stop or gap was decided on that row or later |
| `EngineOpenings.OneTradePerChange` | backend/src/candlestack/engine/loop.py:78-122 | The converse: a run decides its trades exactly on the rows where the signal changes to a side, the last row aside, in order and each once; a run that halts on the first of them, one that does not halt on all |
| `EngineOpenings.UnhaltedRunHoldsSignal` | backend/src/candlestack/engine/loop.py:78-122 | After a row without an order left a run that goes on holds the side of that row's signal, unless the signal has not changed yet, the last position was stopped and the signal has not changed since, or the change came with the last row under `signal_close` |
| `EngineSignals.RunFollows` | backend/src/candlestack/engine/loop.py:78-122 | The invariant between rows behind the first of these, with the pending order of `next_open` |
| `EngineOpenings.RunComplete` | backend/src/candlestack/engine/loop.py:78-122 | The invariant behind the other two: the positions decided so far are those of the changes so far |
| `EngineHalting.FinalTradeIsLast` | backend/src/candlestack/engine/loop.py:78-101 | A trade with reason end, ruin or drawdown, or that returned -1 or less, is the last of its run |
| `EngineHalting.CapitalPositiveOrRuined` | backend/src/candlestack/engine/loop.py:140-208 | After every row the capital is not negative, positive unless the run halted, and a halted run holds nothing |
| `EngineHalting.HaltAbsorbs` | backend/src/candlestack/engine/loop.py:81-86 | From a halt on no trade is added, and the series go on with 0 and with the capital there was at the halt |
| `EngineArithmetic.MarkBoundsClose` | backend/src/candlestack/engine/loop.py:196-206 | Closing at a price never gives more than the mark at it; a mark at or below 0 means a return of -1 or less, so the second ruin is redundant in exact arithmetic |
| `EngineDrawdown.HaltsExactlyAtDrawdown` | backend/src/candlestack/engine/loop.py:140-150 | On every row, the last included: a run is halted after it if and only if the drawdown curve of the metrics has reached the stop on some row up to it, a position that only the end of the data closes aside; so the halting row is the first one there and every earlier row is above the level |
| `EngineDrawdown.PeakIsRunningPeak` | backend/src/candlestack/engine/loop.py:140-150 | While a run goes on the engine's peak is the running peak of the metrics, the starting 1 included |
| `EngineDrawdown.RefusalHaltsFlat` | backend/src/candlestack/engine/loop.py:111-122 | On a row of a run where the signal changes to a side while the capital left is at the level already: the order opens nothing, the run is halted after the row, the row is flat and its equity is that capital |
| `EngineDrawdown.StopChangesNothingBefore` | backend/tests/unit/engine/test_properties.py:225-250 | Up to the halt the states with and without a drawdown stop are equal |
| `EngineDrawdown.HaltsWhereRunWithoutReachesLevel` | backend/tests/unit/engine/test_properties.py:213-250 | A run is halted after a row if and only if the drawdown of what the run without the stop has recorded by then has reached the level on some row, which before the last row is the drawdown of its finished series |
| `EngineStops.TradesAreAccounted` | backend/src/candlestack/engine/loop.py:111-190 | Everything a trade records follows from its candles: the entry quote by fill mode, both slippages, the stop level, the exit quote by reason, fees, return and slippage cost; no row it held touched its level before the row that closed it, nor that row when its stop was checked and something else closed it |
| `EngineAccounts.FirstTouchCloses` | backend/src/candlestack/engine/loop.py:87-94 | In plain comparisons of prices: the first row that touches the level, at its open or within, closes a trade as a gap or a stop; on the row of any other close the level was not touched, so the stop comes before the row's signal, its ruin, its drawdown and the end; only a `next_open` order fills before it |
| `EngineAccounts.FillsSlip` | backend/src/candlestack/engine/loop.py:152-165 | In absolute prices: a bought leg pays slippage on top of its quote, a sold one gets it less; the level is the loss off the entry price |
| `EngineAccounts.TradesAreCash` | backend/src/candlestack/engine/loop.py:161-194 | As a broker's account: a trade buys or sells units with all the capital the trades before it left, pays the fee on the notional of both legs, returns what that makes of the capital, and leaves the cash there is, or nothing |
| `EngineAccounts.EquityIsValued` | backend/src/candlestack/engine/loop.py:196-208 | The equity of a row that a trade holds is the account valued at the close, the fee of the entry paid and that of the exit not |
| `EnginePlain.HaltsOnlyAtLoss` | backend/src/candlestack/engine/loop.py:185-194 | Without a drawdown stop a run is halted after a row if and only if one of its trades so far lost everything |
| `EngineStops.StopReturn` | backend/src/candlestack/engine/loop.py:124-190 | A stop exit returns minus the stop loss, minus the slippage from its level, minus the fees |
| `EngineStops.GapIsNoBetterThanStop` | backend/src/candlestack/engine/loop.py:124-190 | A gap exit is no better than a stop at the level, if and only if the position is short, the fee is at most the whole notional, or the open touched the level itself |
| `EngineExamples.GapCanBeatStop` | backend/src/candlestack/engine/loop.py:124-190 | A concrete run with a fee above the notional whose gap exit is the better one |
| `EngineStops.CostsAreNotNegative` | backend/src/candlestack/engine/loop.py:161-190 | Exit prices are positive; fees and slippage cost are never negative |
| `EngineStops.CostsAddUp` | backend/tests/unit/engine/test_properties.py:193-212 | Return, fees and slippage cost of a trade add up to the return of its quotes without costs |
| `EngineStops.SurvivorsAreAboveTheStop` | backend/src/candlestack/engine/loop.py:87-94 | A position that survives a row on which its stop was checked is worth more there than the capital it was opened with times 1 - stop loss - fee, when the candle is consistent |
| `EngineVectorised.LoopRefinesVectorised` | backend/src/candlestack/engine/loop.py:103-208 | Without costs and stops, with signals 0 and 1 and `signal_close`: the position is the signal once it has changed, and the equity moves with the ratio of closes after a long row and not at all after a flat one, the last row included |
| `EnginePlain.HaltsExactlyAtRuin` | backend/src/candlestack/engine/loop.py:161-208 | Without costs and stops a run halts if and only if the candles ruin one of its shorts: a change to a short whose price doubles at a close it is held at, or at the price the signal closes it at |
| `EngineShift.NextOpenIsSignalCloseOneRowLater` | backend/tests/unit/engine/test_properties.py:165-180 | Without costs and stops the `next_open` trades are the `signal_close` trades one row later, at the opens, in number, order, sides and reasons, with the exceptions of the last row, if and only if the candles have no ruined short, or the first change with one pairs itself and is ruined in both modes or is the last change to a side |
| `EngineShift.TradesPair` | backend/tests/unit/engine/test_properties.py:115-160 | The two trades of one change pair if and only if no mode is ruined, both are ruined one row apart by the signal or at a mark that is also the open, or one is ruined where the signal closes it, or in `signal_close` on the last row |
| `EngineShift.LongTradesPair` | backend/tests/unit/engine/test_properties.py:165-180 | In particular always when the signal never asks for a short |
| `EngineShift.UnhaltedTradesPair` | backend/tests/unit/engine/test_properties.py:165-180 | And when neither run halts |
| `EngineExamples.RuinBreaksTheShift` | backend/src/candlestack/engine/loop.py:196-208 | A concrete run in which a ruin in one fill mode only breaks that pairing |
| `EngineHalting.EquityIsNotNegative` | backend/src/candlestack/engine/loop.py:140-208 | No equity of a run is negative, and on every row that ends with a position it is positive |
| `EngineReport.MaxDrawdownOfRun` | backend/src/candlestack/metrics/summary.py:89-93 | The maximum drawdown reported of any run is the largest fall of its equity over all pairs of a level and a later row |
| `EngineReport.TotalReturnCompounds` | backend/tests/unit/engine/test_properties.py:183-190 | 1 + total return is the product of what the trades leave (0 after a ruin), which is also the capital, and the last row is flat |
| `EngineReport.DailyReturnsCompoundLikeTrades` | backend/src/candlestack/metrics/summary.py:120-132 | The UTC-day returns compound to the same total as the trades, unless a day starts from 0, when there are none |
| `EngineReport.ExposureIsRowsHeld` | backend/src/candlestack/metrics/summary.py:89-93 | The rows with a position open number the sum of close row - open row over the trades |
| `EngineReport.ExposureIsShareOfRowsHeld` | backend/src/candlestack/metrics/summary.py:89-93 | The exposure is that sum as a share of the rows |
| `Engine.Loop.constructor` | backend/src/candlestack/engine/loop.py:55-73 | The starting state: capital and peak 1, flat, nothing recorded |
| `Engine.Loop.Run` | backend/src/candlestack/engine/loop.py:75-101 | The one pass over the candles leaves the state `Backtest` of them, the value all results above are about |
| `Engine.Loop.Advance` | backend/src/candlestack/engine/loop.py:81-96 | A row that is not halted is `Step`: orders, mark, drawdown check; returns the order left |
| `Engine.Loop.Execute` | backend/src/candlestack/engine/loop.py:87-95 | The start of a row is `Traded`: the pending order, then the stop, then the decision; the series stay |
| `Engine.Loop.Idle` | backend/src/candlestack/engine/loop.py:82-86 | A halted row is flat with the capital as its equity |
| `Engine.Loop.CloseAtEnd` | backend/src/candlestack/engine/loop.py:98-101 | What the last row leaves open closes at its close, and the row is recorded anew, flat |
| `Engine.Loop.Decide` | backend/src/candlestack/engine/loop.py:103-109 | `next_open` hands the order on and changes nothing; under `signal_close` it is filled at once, and opens only before the last row |
| `Engine.Loop.Fill` | backend/src/candlestack/engine/loop.py:111-122 | The whole state after an order: `Filled` |
| `Engine.Loop.CheckStop` | backend/src/candlestack/engine/loop.py:124-133 | The whole state after the stop check: `StopChecked` |
| `Engine.Loop.CheckDrawdown` | backend/src/candlestack/engine/loop.py:135-150 | The whole state after the drawdown check: `DrawdownChecked` |
| `Engine.Loop.Open` | backend/src/candlestack/engine/loop.py:152-159 | The whole state after an entry: `Opened` |
| `Engine.Loop.Close` | backend/src/candlestack/engine/loop.py:161-190 | The whole state after an exit: `Closed` |
| `Engine.Loop.Ruin` | backend/src/candlestack/engine/loop.py:192-194 | The capital is 0 and the run halted |
| `Engine.Loop.Mark` | backend/src/candlestack/engine/loop.py:196-208 | The whole state after the mark, a ruin included: `Marked` |
| `MinHold.MinHold` | backend/src/candlestack/signals/holding.py:8-40 | An error exactly for fewer than one candle or a missing value; otherwise the output is the held signal of the reference definition `IsHeld`, which speaks of earlier changes instead of a running counter |
| `MinHold.HeldIsUnique` | backend/src/candlestack/signals/holding.py:8-40 | The reference definition pins every value down |
| `MinHold.HeldIsCausal` | backend/src/candlestack/signals/holding.py:19-20 | Inputs that agree up to a row are held alike up to it |
| `MinHold.NewPositionIsKept` | backend/src/candlestack/signals/holding.py:11-17 | A change to a position after the first row is kept for the held candles or to the end |
| `MinHold.HeldOrInput` | backend/src/candlestack/signals/holding.py:11-17 | In terms of the values: a row fewer rows than are held after a change to a position has the value of the row before, and every other row has the input's |
| `MinHold.HoldingAgainChangesNothing` | backend/src/candlestack/signals/holding.py:8-40 | Holding a held signal again for no longer changes nothing, and holding for one candle changes no signal |
| `MinHold.SignalTradesSpanTheHold` | backend/src/candlestack/signals/holding.py:8-20 | On a held signal every engine trade closed by the signal spans at least the held candles, in both fill modes, whatever stops and costs do |
| `Metrics.MaxDrawdownIsLargestFall` | backend/src/candlestack/metrics/summary.py:18-37 | The one-pass maximum drawdown is at least every fall from a level (the starting 1 included) to that row or a later one, and one such fall attains it |
| `Metrics.PeakIsHighestLevel` | backend/src/candlestack/metrics/summary.py:18-21 | The running peak is one of the levels so far and the highest |
| `Metrics.DayEndsAreLastRows` | backend/src/candlestack/metrics/summary.py:123-128 | There is one equity per UTC day with rows, in order: the one of the row that ends the day |
| `Metrics.DailyReturnsAre` | backend/src/candlestack/metrics/summary.py:120-132 | One return a day, from the end of the day before, the first day's from 1; none at all once a day starts from 0 |
| `Metrics.DailyReturnsCompound` | backend/src/candlestack/metrics/summary.py:120-132 | The daily returns compound to the last equity unless a day starts from 0 |
| `Sessions.SessionBinsTile` | backend/src/candlestack/data/sessions.py:64-75 | The bins of a session follow each other without overlap, lie inside it and open on its grid |
| `Sessions.SessionBinsCover` | backend/src/candlestack/data/sessions.py:64-75 | They cover it from its open to its close without a break, all but the last a step long |
| `Sessions.AllBinsTile` | backend/src/candlestack/data/sessions.py:64-75 | So do the bins of a whole calendar |
| `Sessions.SessionsBetween` | backend/src/candlestack/data/sessions.py:53-61 | The search and the early stop find exactly the sessions that overlap the period, in order |
| `Sessions.OverlapIsCommonMoment` | backend/src/candlestack/data/sessions.py:53-61 | A session overlaps a period when they have a moment in common |
| `Sessions.SkippingLosesNoBin` | backend/src/candlestack/data/candles.py:147-162 | Enumerating only the overlapping sessions loses no bin of the period |
| `Bins.FixedBinsAreTheGrid` | backend/src/candlestack/data/candles.py:137-144 | A moment is an expected fixed bin if and only if it is in the period, on the UTC grid, and closed by the clock |
| `WalkBack.SessionBinsAreTheGrid` | backend/src/candlestack/data/candles.py:147-162 | A moment is an expected session bin if and only if it is in the period, on the grid of a session it lies in, and its bin is closed by the clock |
| `Bins.ExpectedSessionsAreSelected` | backend/src/candlestack/data/candles.py:147-162 | The expected session bins are the bins of the whole calendar in the period and closed by the clock, in order |
| `Bins.SessionCountIsEnumeration` | backend/src/candlestack/data/candles.py:268-273 | The closed-form count of a session's bins in a period is the number of them enumerated |
| `Bins.CandleCountIsEnumeration` | backend/src/candlestack/data/candles.py:276-288 | The number of candles a period can have is the length of the list of expected bins, for fixed and session bins |
| `Advice.LatestEnd` | backend/src/candlestack/data/candles.py:327-342 | The walk over the sessions and the closed form return where the first bin too many of the enumeration opens, or the end of the period |
| `Advice.LatestInSessions` | backend/src/candlestack/data/candles.py:334-342 | The same for the loop over the sessions |
| `Advice.LatestEndIsLargest` | backend/src/candlestack/data/candles.py:327-342 | An end up to the period's fits the maximum if and only if it is not later than the latest end; one second later there is exactly one bin too many, unless the period's end capped it |
| `Advice.LongerTimeframeHasFewer` | backend/src/candlestack/data/models.py:73-87 | A period never has more candles of a longer timeframe |
| `Advice.Suggest` | backend/src/candlestack/data/candles.py:345-372 | An error exactly when the period fits; otherwise the latest end and, over every timeframe with more seconds, the shortest that fits or none, with "or larger" exactly when there is one with more seconds still |
| `Advice.SuggestedTimeframeIsShortest` | backend/src/candlestack/data/candles.py:360-372 | A timeframe with more seconds fits if and only if there is a suggestion and it has at least as many: the suggestion is the shortest that fits, and every larger one fits too |
| `Advice.LargerHasMoreSeconds` | backend/src/candlestack/data/models.py:73-76 | The larger timeframes are exactly those with more seconds, the shortest first |
| `Advice.SecondsByName` | backend/src/candlestack/data/models.py:79-87 | The seconds of each timeframe are what its name says in minutes, hours or a day |
| `WalkBack.FirstOfLast` | backend/src/candlestack/data/candles.py:291-324 | For sessions the walk back with its early exits gives the count-th last bin of the filtered full enumeration, the earliest of fewer, or None; for fixed bins so does the closed form when `lower` is on the grid |
| `WalkBack.FirstInSessions` | backend/src/candlestack/data/candles.py:310-324 | The same for the loop over the sessions |
| `WalkBack.CountBackIs` | backend/src/candlestack/data/candles.py:300-304 | The count-back is the first of the last bins, as many as asked for or all of fewer, and None exactly without any |
| `WalkBack.FixedCountsBack` | backend/src/candlestack/data/candles.py:305-309 | For fixed bins the closed form is the count-back of the enumeration if and only if there is no bin, there are enough bins, or `lower` is on the grid |
| `WalkBack.OffGridLowerIsReturned` | backend/src/candlestack/data/candles.py:305-309 | A concrete call whose answer is a `lower` off the grid, where no bin opens |
| `WalkBack.WindowIsSmall` | backend/src/candlestack/data/service.py:334-339 | A window of the last candles holds exactly the last of the bins that count, as many as asked for or all of fewer, and of those that open in it at most one more, for fixed and session bins and any `lower` |
| `WalkBack.WindowOf` | backend/src/candlestack/data/service.py:326-340 | So its size check never raises; the start is the count-back of the enumeration, or the end when there is no bin, for sessions and, with `lower` on the grid as its caller gives it, for fixed bins |
| `WalkBack.NewestMinuteIsLastClosed` | backend/src/candlestack/data/service.py:476-484 | The newest minute is the last 1m bin closed by now: always for fixed bins, and for sessions (on whole minutes) if and only if one has been open for a minute |
| `WalkBack.NewestMinuteBeforeTheCalendar` | backend/src/candlestack/data/service.py:476-484 | A concrete call before the first session whose answer is no bin of the calendar |
| `WalkBack.BinOpenHolds` | backend/src/candlestack/data/service.py:487-496 | The bin that holds a moment, on the UTC grid or in a session, opens where it says, and no other does; a moment outside every session gives itself |
| `WalkBack.ClosesAreNext` | backend/src/candlestack/data/service.py:452-473 | The newest daily close is the last midnight or session close up to now, and the next one the first after; four days later past the calendar |
| `WalkBack.NowIsBetweenCloses` | backend/src/candlestack/data/service.py:452-473 | Now is not before the newest daily close, and before the next one if and only if the calendar has a later close or the four days that stand in for it are not over |
| `WalkBack.NextCloseIsPast` | backend/src/candlestack/data/service.py:462-473 | A concrete call five days after the only session, whose next close is over |
| `Gaps.ExpectedEndInOrder` | backend/src/candlestack/data/candles.py:195-201 | Every expected bin ends after it opens and no later than the next one opens, short last session bins included |
| `Gaps.ExpectedAreBins` | backend/src/candlestack/data/candles.py:195-201 | The end computed for every expected bin is where it closes, for both kinds |
| `Gaps.BinEndIsClose` | backend/src/candlestack/data/candles.py:195-201 | The end computed for a session bin is where that bin closes |
| `Gaps.GapsAreLossless` | backend/src/candlestack/data/candles.py:165-192 | A covered expected bin is missing; a missing one is covered unless there are more than a hundred runs, and then it opens after all the ranges end |
| `Gaps.RangesAreMissingTime` | backend/src/candlestack/data/candles.py:165-201 | Each range is one whole stretch of missing bins, from the open of its first to the close of its last: a step later for fixed bins, where the calendar has it for sessions |
| `Gaps.RangeHoldsMoment` | backend/src/candlestack/data/candles.py:165-201 | A moment lies in a range if and only if it lies in a missing bin of the range or between two of them with nothing but missing bins between |
| `Gaps.FixedRangeLength` | backend/src/candlestack/data/candles.py:165-201 | A range of consecutive fixed bins is as long as its missing bins are together |
| `Gaps.GapsAreMaximal` | backend/src/candlestack/data/candles.py:165-192 | Ranges are not empty, sorted and disjoint, and a present expected bin lies between any two |
| `Gaps.PresentPlusMissing` | backend/src/candlestack/data/candles.py:174-192 | Present and missing bins together number the expected ones |
| `Resample.ResampleIsGrouping` | backend/src/candlestack/data/candles.py:87-134 | Resampling is grouping by bin: one bar per bin that has bars, in order, with the first open, the extremes, the last close and the summed volume of exactly the bars of that bin |
| `Resample.KeyIsItsBin` | backend/src/candlestack/data/candles.py:98-134 | A bar falls into the bin that holds its time, of the UTC grid or of the calendar, and into none otherwise |
| `Resample.TwoStepsAreOne` | backend/src/candlestack/data/candles.py:98-134 | Resampling to one grid and then to a coarser one equals resampling to the coarser at once |
| `Resample.MultipleCoarsens` | backend/src/candlestack/data/models.py:73-87 | A longer step that the shorter divides is coarser, for fixed and for session bins |
| `Resample.VolumeIsConserved` | backend/src/candlestack/data/candles.py:87-134 | Resampling conserves the volume of the bars that fall into a bin |
| `Resample.ResampledIsValid` | backend/src/candlestack/data/candles.py:49-84 | A frame that keeps the rules of valid candles keeps them resampled, on the target grid |
| `Assemble.Assemble` | backend/src/candlestack/data/service.py:499-550 | Batches of twelve chunks, each resampled with the sessions that overlap it and sliced, give the closed candles of everything resampled at once, and the gaps of that |
| `Assemble.Decode` | backend/src/candlestack/data/service.py:520-528 | The rows of a batch in order, and the known-until time lowered by its live chunks |
| `Assemble.AsOfIsEarliest` | backend/src/candlestack/data/service.py:519-528 | Candles are known up to now or to where the live chunk that reaches least far is complete |
| `Assemble.RowsHold` | backend/src/candlestack/data/service.py:519-528 | The rows are those of the chunks, all of them |
| `Assemble.BatchExtendsWhole` | backend/src/candlestack/data/service.py:520-533 | One more batch resampled on its own extends the whole resampled frame, when no session spans a chunk bound |
| `Assemble.AssembledAddsUp` | backend/src/candlestack/data/service.py:499-550 | Every returned candle opens at an expected bin closed by the live chunk's fetch time, in order, and returned candles plus the gap total number the expected bins |
| `Assemble.AssembledSummarises` | backend/src/candlestack/data/service.py:499-550 | An expected bin has a candle if and only if the chunks have rows in it, and each candle summarises exactly the rows of its bin |
| `SingleFlight.FetchesAreFew` | backend/src/candlestack/data/cache.py:146-205 | For any number of callers and any interleaving, counted from the steps of the run: at most one fetch gets a value, and one more for each lock or value that expires; with the fetches that fail with an error to keep, at most one in all, and one more for each lock, value or kept error that expires |
| `SingleFlight.FetchIsStored` | backend/src/candlestack/data/cache.py:172-182 | The client whose fetch gets a value stores it with its next step, and the one whose fetch fails with an error to keep has it kept, whatever others do in between; both end with it, and any other error propagates |
| `SingleFlight.KeptStays` | backend/src/candlestack/data/cache.py:172-178 | A kept error stays until it expires, and is the same unless another failed fetch puts its own there |
| `SingleFlight.LookingAnswers` | backend/src/candlestack/data/cache.py:184-205 | Whoever looks, at first or again under the lock, gets the value, or without one raises the kept error, and fetches nothing |
| `SingleFlight.WaitingIsAnswered` | backend/src/candlestack/data/cache.py:158-171 | While a value or a kept error is there, three steps of its own bring a waiting caller to the end in any interleaving; while a value is there, it returns one |
| `SingleFlight.LockIsTakenWhenFree` | backend/src/candlestack/data/cache.py:207-220 | A free lock is taken by whoever asks, for 30 seconds by a fetch or for as long as asked, and a taken one by nobody |
| `SingleFlight.ExtendsOwnLock` | backend/src/candlestack/data/cache.py:222-231 | Extending sets the expiry for the client that has the lock and does nothing for any other |
| `SingleFlight.ReturnedWasFetched` | backend/src/candlestack/data/cache.py:146-205 | Whatever expires, a returned value was cached from the start or fetched |
| `SingleFlight.AtMostOneFetchSucceeds` | backend/src/candlestack/data/cache.py:146-205 | When neither lock nor value expires: at most one fetch succeeds (none with a cached value), every caller that returns a value returns that one, and the lock is free when all are done |
| `SingleFlight.RunKeepsOneValue` | backend/src/candlestack/data/cache.py:146-205 | The invariant of every such run: one client inside the lock, one value known |
| `SingleFlight.AtMostOneFetchCounts` | backend/src/candlestack/data/cache.py:152-182 | While nothing expires, all callers who raise a kept error raise the same, and there is one value or one kept error in all |
| `SingleFlight.OthersNeverTouchMyLock` | backend/src/candlestack/data/cache.py:207-265 | With any keys expired before: steps of others never release, take over or extend the lock a client has |
| `SingleFlight.HolderFinishes` | backend/src/candlestack/data/cache.py:172-182 | A client inside the lock that is left alone is done within four steps and gives the lock back, whatever its fetch does |
| `CustomCodeWalk.Walk` | backend/src/candlestack/ml/inspect.py:281-313 | The walk with its own stack ends and answers with the first object of the recursive document order that is not accepted. In terms of the document: it is clean if and only if no checked place is refused; otherwise the answer is about the first refused place, with the layer it belongs to |
| `AllowList.VerdictMeans` | backend/src/candlestack/ml/inspect.py:323-352 | An object is accepted if and only if it has no class name, is a listed function registered as nothing else, one of the six internal values with neither module nor registered name, or a listed class of a Keras module registered as nothing else; it is a stub if and only if only training uses it, it is of no Keras module and its registered name has a > |
| `AllowList.ObjectsArePlaces` | backend/src/candlestack/ml/inspect.py:288-312 | The objects that are checked are those at every place of the document with no stub above it, once each and in document order, with the innermost named layer and with whether a training-only key is above |
| `AllowList.CleanExactly` | backend/src/candlestack/ml/inspect.py:281-352 | The answer is clean if and only if no such place holds an object that is neither accepted nor a stub |
| `AllowList.FirstRefused` | backend/src/candlestack/ml/inspect.py:281-313 | Otherwise it is about the first such place in document order |
| `AllowList.ShownIs` | backend/src/candlestack/ml/inspect.py:355-361 | Only a string with something visible besides white space is shown: its first 60 characters, the invisible ones left out |
| `AllowList.LayerNameIs` | backend/src/candlestack/ml/inspect.py:364-371 | A layer's name is its own, be it null, and only without one that of its config |
| `CustomCodeWalk.PushItems` | backend/src/candlestack/ml/inspect.py:292-311 | Pushing a list last first keeps the document order of what the stack has still to say |
| `CustomCodeWalk.PushEntries` | backend/src/candlestack/ml/inspect.py:305-312 | The same for the entries of a dictionary, a list under `layers` item by item |
| `CustomCode.CleanMeansAccepted` | backend/src/candlestack/ml/inspect.py:281-352 | No answer if and only if every object outside stubbed subtrees is accepted |
| `CustomCode.AnswerIsFirst` | backend/src/candlestack/ml/inspect.py:281-313 | Otherwise the answer is that of an object before which every other is accepted |
| `Hdf5.SizesUnder` | backend/src/candlestack/ml/inspect.py:399-421 | On a file that unfolds to a tree: the sum of its datasets, or an error if and only if it has more links than the bound; on one that does not, an error; 0 without the group |
| `Hdf5.Walk` | backend/src/candlestack/ml/inspect.py:407-421 | The same for the walk from the group; it ends on circles of hard links too |
| `Hdf5.Expand` | backend/src/candlestack/ml/inspect.py:411-420 | Taking the last group off the stack keeps the walk's invariant, and ends without a result only on a tree with too many links |
| `Hdf5.FollowLinks` | backend/src/candlestack/ml/inspect.py:412-420 | Following the links of one group keeps the count of links and the sum of datasets, of what was seen and what is left |
| `Hdf5.LightUnfolds` | backend/src/candlestack/ml/inspect.py:399-421 | An object below which fewer links are counted than the depth they are counted to unfolds to a tree |
| `Hdf5.StuckExactly` | backend/src/candlestack/ml/inspect.py:399-421 | An object unfolds to no tree if and only if it is one of a set of groups each of which has a link that may not be followed or one to another of them, such as a circle |
| `FreeName.NumbersAreDistinct` | backend/src/candlestack/ml/service.py:93-100 | Names numbered from 2 on are pairwise distinct |
| `FreeName.DigitsRead` | backend/src/candlestack/ml/service.py:93-100 | The number is written in decimal, without a zero in front |
| `FreeName.NumberedIs` | backend/src/candlestack/ml/service.py:93-100 | A numbered name is as much of the stem as leaves room in 60 characters, without white space at its end, then the number in parentheses after a space, then the extension; the first is the name as it is |
| `FreeName.SecondModel` | backend/src/candlestack/ml/service.py:93-95 | The second `lstm.keras` is `lstm (2).keras` |
| `FreeName.SplitIs` | backend/src/candlestack/ml/service.py:115-117 | A name is its two parts, the extension the last six characters or all of fewer |
| `FreeName.TakenAreMany` | backend/src/candlestack/ml/service.py:103-112 | When all numbers from 2 to some last one are taken, there are at least as many taken names |
| `FreeName.FindFreeName` | backend/src/candlestack/ml/service.py:103-112 | The loop ends at the least free number, at most the taken names plus 2 |
| `FreeName.NumberingCommutesWithLowering` | backend/src/candlestack/ml/service.py:93-109 | Numbering and lowercasing commute |
| `FreeName.EscapedMatchesPrefix` | backend/src/candlestack/ml/store.py:72-82 | The escaped LIKE pattern matches exactly the names that start with the prefix |
| `FreeName.LookupIsByPrefix` | backend/src/candlestack/ml/store.py:72-82 | The lookup, its pattern lowercased too, returns exactly the user's names that start with the lowercased prefix |
| `FreeName.CandidatesStartWithPrefix` | backend/src/candlestack/ml/service.py:305-310 | Every candidate up to 101 starts with the prefix that is looked up |
| `FreeName.LookupSeesEveryCandidate` | backend/src/candlestack/ml/service.py:305-310 | With fewer than 100 models the first number free among the names looked up is at most 101 and the first free among all, and nobody has the chosen name in any case |
| `FreeName.Keep` | backend/src/candlestack/ml/service.py:249-271 | Too many models and full storage exactly at their limits, in that order; otherwise the name is the first free numbered one among all the user's models |
| `FreeName.NumberedStemFits` | backend/src/candlestack/ml/service.py:93-100 | No candidate up to 101 has more than 60 characters before its extension |
| `FreeName.UploadNameIsSaveable` | backend/src/candlestack/ml/service.py:77-90 | No name exactly for a file whose base name does not lowercase to a Keras file's; otherwise the cleaned stem (1 to 60 visible characters, no path, no outer white space) and the extension of the file sent |
| `FreeName.CleanStemIs` | backend/src/candlestack/ml/service.py:77-90 | The cleaned stem is "model" when nothing visible is left, otherwise the first 60 visible characters without white space at either end |
| `FreeName.BaseName` | backend/src/candlestack/ml/service.py:85 | The base name is what follows the last separator of either kind |

## Left out

- EngineVectorised.LoopRefinesVectorised: signals 0 and 1 only, because a short does not compound with the ratio of closes.
- EngineDrawdown.HaltsWhereRunWithoutReachesLevel: the last row in terms of the equity recorded before the end of the data closes a position, because that close may record the row anew.
- EngineStops.SurvivorsAreAboveTheStop: asks for a consistent candle on that row; the engine itself does not check it.
- SingleFlight.HolderFinishes: progress of the holder left alone; that waiting callers get their turn depends on a fair scheduler, which is not part of this model.
- CustomCodeWalk.Walk: answers with what the detail names, not with its text; the check of the model's own class before it is left out.
- FreeName.Keep: stops at the chosen name; the account deleted meanwhile, and a collation that lowercases otherwise than letter by letter, end in errors that are left out.
- MinHold.MinHold: the number of candles is an integer; Python's check that it is no bool or float is left out.
- FreeName.UploadNameIsSaveable: assumes that no text of fewer letters lowercases to the extension.
- Redis failures, timeouts, the seconds the cache is skipped after one, and how long a kept error stays.
- The clock is a parameter; lock and key expiry are steps that may happen at any time.
- Sharpe, Sortino, win rate and the other per-trade averages, fees paid and the buy-and-hold return.
- Normalising a frame (casts, duplicate times), the texts of errors and advice, the candle fingerprint, and the encoding of chunks.
- Reading the calendar (New York time), the source adapters, and everything in `DataService` around the functions modelled.
- The other signal steps, the command line, and the stored results.
- Reading zip, JSON and HDF5 files, the shapes of a model's input and output, and the child process that does it.
- The accounts, the HTTP API, SQL, Postgres locks, model storage on disk, and the frontend.
