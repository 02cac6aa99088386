# Verification of the trading platform's ledgers, protocols and numeric cores

A Dafny model of the parts of the platform where a mistake costs money, with
proofs over all inputs and all runs: the backtester, the paper-trading ledger,
live order execution, reconciliation and stop management, position sizing, and
the numeric code underneath. `dafny verify dfyconfig.toml` checks everything.

Prices and quantities are `real`, times are whole UTC seconds. The exchange, the
strategy scoring and the clock are parameters: a proof for all parameters is a
proof for every behaviour. Where the source mutates objects or loops, the model
is a class or a method with a loop, proved equal to a function on values; the
laws are lemmas about that function.

| component | files |
|---|---|
| Backtest | `BacktestExecution` fills, `FillDecisions` when and at what price, `BacktestPortfolio` ledger, `BacktestEngine` run, `BacktestDecisions` what it evaluates and queues, `BacktestExits` what closes, `BacktestLaws` conservation and causality, `BacktestTiming` |
| Risk | `Sizing` size and re-checks, `RiskDecisions` what is allowed, `RiskToFill` from decision to stop-out, `Breakout` setup geometry, `BreakoutDecisions` what the strategy decides |
| Paper trading | `PaperLedger` specification, `PaperLaws` invariants, `PaperRuns` whole runs, `PaperDecisions` what a pass closes and what enters, `PaperRaces` overlapping passes, `PaperEngine` the mutable state |
| Live execution | `LiveEntry` order protocol, `LiveLookups` its lookups in terms of replies, `Confirmations` interleavings, `ConfirmationTraces` what precedes a submission, `StopManager` ratchet, `StopDecisions` why a tick closes, `StopRaces` overlapping passes, `DayTotals` kept and recomputed totals, `DayRaces` overlapping passes, `Reconciliation`, `ReconcileDecisions` slot by slot, `LivePositions` shared values |
| Numeric cores | `Candles`, `CandleSources` which input an output comes from, `OrderBook`, `BookMonotone` its estimate against the notional, `Metrics`, `MovingAverages`, `Oscillators`, `VolumeIndicators`, `IndicatorLaws` their steps, `HistoryValidation` |

## What the proofs found

- The stop ratchet is conditional. `RatchetExactly` gives the guard under which no
  run before the runner lock loosens a stop. A position handed over with a target
  within half a percent of its fill fails it (`CloseTargetBreaksRatchet`), and so
  does an entry of 0.00010045, where rounding to six decimals puts the trailing
  stop beyond the manager's own sanity bound. The tick after the runner lock resets
  the stop for every entry above 0.001 (`RunnerLockIsUndone`).
- The guard is enough only while passes do not overlap. A tick inside the window of
  another monitor pass or a reconciliation is undone by the older copy
  (`OverlapLoosens`). With overlap only a position whose stop starts as the trailing
  stop and equals the breakeven stop keeps the ratchet (`AlwaysTightensExactly`),
  and above an entry of 0.001 there is none (`NoLargeEntrySettles`).
- The daily totals survive overlapping monitor passes exactly when no pass writes
  over a position that another has closed (`TotalsAgreeExactly`); the next
  recomputation repairs them (`SinceRecomputation`).
- A live position that has been seen on the exchange ends FAILED, without an
  emergency exit, exactly when its row or the verification reply cannot be read
  (`ObservedIsHandled`, with a witness for each kind of reply): only
  `ProtectionFailure` leads to the exit.
- A reported fill is dropped as FAILED without looking for its position when its
  details cannot be read or the order is reported cancelled or rejected
  (`ReportedFillEndsFailed`).
- One request is never submitted twice, but two overlapping requests for one
  setup both become intents (`RacingRequestsSubmitTwice`): the idempotency check
  and the store are separated by awaits. A schedule is safe exactly when requests
  for one setup do not overlap (`SafeExactlyWhenSerial`). Two overlapping paper
  passes likewise write ARMED over ENTERED (`OverlapUndoesEntered`).
- Reconciliation loses an exchange position exactly when an unknown id shares its
  pair with an open local position (`RefinesExchange`).
- Daily losing counts drift by one with each zero-result close (`CloseAgrees`).
- With the default configuration a breakout is never WATCH or ARMED
  (`UnconfirmedNeedsTheBuffer`).
- The backtester's default slippage estimate covers the simulated costs of every
  long, and of a short unless its stop is about three times its entry
  (`DefaultsCoverExactly`).
- Estimated order-book slippage is monotone in the notional exactly for books of a
  single level (`NeverFallsExactly`, on asks and bids). The walk drops a rest of up
  to 1e-9, also at the end of the book, so with a second level some larger notional
  is estimated as cheaper (`AskFalls`, `BidFalls`). Between notionals without a
  sliver it is monotone (`CodeSlippageMonotone`).
- `docs/phase8-backtesting.md:32` says that a gap through a stop fills at the
  adverse open. It does exactly when the candle misses the target (`GapFill`).
  When the candle also reaches the target, the code fills at the stop under the
  stop-first policy and takes the profit under the target-first one, which beats
  the stop level (`GapExactly`, with the candle of `GapThatReachesTarget`).

## Model

| member | source | states |
|---|---|---|
| `BacktestEngine.RunBacktest` | backend/app/backtesting/engine.py:80-183 | The run loop over events, with its pending queue, portfolio and counters, plus the end-of-run close, ends in exactly the outcome of the functional run, including failure in the middle of a run. |
| `BacktestEngine.DoStep` | backend/app/backtesting/engine.py:86-170 | One loop body: mark, track and exit, entry with delay and pop, evaluation at the boundary, equity mark; the new portfolio, queue and counters equal the step function. |
| `BacktestEngine.DoConsider` | backend/app/backtesting/engine.py:136-169 | The first allowed setup is queued with the configured delay, earlier ones count as rejected, a raising risk call fails the run. |
| `BacktestEngine.DoTrack` | backend/app/backtesting/engine.py:91-98 | Stores the updated excursions, then closes on a trigger. |
| `BacktestEngine.DoCloseAll` | backend/app/backtesting/engine.py:172-180 | Closes a snapshot of the open positions at the last close of their symbol. |
| `BacktestLaws.Conservation` | backend/app/backtesting/engine.py:86-183 | Every completed run: no position open, entries filled = exits = number of trades, equity = initial + sum of net P&L, daily P&L sums to realized P&L, consecutive losses is the trailing losing run; and the closing phase itself can never fail. |
| `BacktestLaws.RunSound` | backend/app/backtesting/engine.py:86-170 | At every loop head: filled = exits + open positions, exits = trades, the ledger balances, every trade stopped at its stop is bounded by the approved risk amount plus tolerance. |
| `BacktestLaws.StepSound` | backend/app/backtesting/engine.py:86-170 | One event keeps that invariant. |
| `BacktestLaws.Causality` | backend/app/backtesting/context.py:23-29 | Two histories that agree on all candles closed by T process the same prefix of events up to T and reach the same portfolio, queue, trades and counters. |
| `BacktestLaws.SortUpTo` | backend/app/backtesting/engine.py:243-250 | Selecting the events up to a time commutes with the stable sort by (close, symbol). |
| `BacktestTiming.NoEntryBeforeDecision` | backend/app/backtesting/engine.py:100-120 | On grid-aligned data every trade was decided no later than the open of the candle that filled it and closed no earlier than it opened. |
| `BacktestTiming.EventsSpaced` | backend/app/backtesting/engine.py:243-250 | Consecutive events of one symbol carry candles at least one step apart. |
| `BacktestDecisions.NotAsked` | backend/app/backtesting/engine.py:122 | Off a boundary of the evaluation timeframe, or with a setup still queued for the symbol, an event evaluates, queues and counts nothing. |
| `BacktestDecisions.AllowedIsQueued` | backend/app/backtesting/engine.py:122-169 | On a boundary with nothing queued, when the strategy answers setups and risk refuses the first k and allows the next, the queue holds that one with the configured delay and the time of the event, and detected, rejected and approved grow by the number of setups, k and 1. |
| `BacktestDecisions.RefusedIsCounted` | backend/app/backtesting/engine.py:135-170 | With every setup refused the queue stays, and detected and rejected grow by their number. |
| `BacktestDecisions.StepFailsExactly` | backend/app/backtesting/engine.py:86-170 | An event fails the run if and only if the entry raises, or the strategy is asked and raises, or risk raises before it has allowed a setup. |
| `BacktestDecisions.DecidedOnBoundary` | backend/app/backtesting/engine.py:252-255 | Every trade of a completed run was decided at a multiple of the evaluation duration. |
| `BacktestDecisions.QueueCountsDown` | backend/app/backtesting/engine.py:100-120 | A queued setup is dropped when its symbol is held, counts down while more than one candle remains, and is otherwise tried at the candle: attempts and fills grow, and a fill joins the portfolio. |
| `BacktestDecisions.NothingQueued` | backend/app/backtesting/engine.py:100 | Without a queued setup the entry part does nothing. |
| `BacktestDecisions.ViewIsClosed` | backend/app/backtesting/context.py:23-29 | The strategy sees exactly the candles whose period has ended by the event, each as often as it occurs. |
| `BacktestDecisions.ViewIsPrefix` | backend/app/backtesting/context.py:23-29 | On rows that close in order that is a prefix of them. |
| `BacktestDecisions.EventsExactly` | backend/app/backtesting/engine.py:240-249 | There is an event for a symbol and candle if and only if the candle is one of its five-minute rows and closes within the window, ends included. |
| `BacktestDecisions.EventsOrdered` | backend/app/backtesting/engine.py:250 | Events come by time of close, and at one time by symbol. |
| `BacktestDecisions.SnapshotExactly` | backend/app/backtesting/portfolio.py:26-70 | The account shown to risk is initial equity, net results and the gains of the open positions at the last closes, with the margins, the result of the day and every exposure. |
| `BacktestDecisions.MarkExactly` | backend/app/backtesting/portfolio.py:122-134 | A curve point holds the equity at the last prices, the peak so far, and the fall from it, also in percent. |
| `BacktestDecisions.RunRemembers` | backend/app/backtesting/engine.py:88-89 | The run remembers the candle of the last event of each symbol, and its close as the mark. |
| `BacktestDecisions.EndOfRun` | backend/app/backtesting/engine.py:172-182 | The end of a run adds one trade for each open position, in order, at the last close of its symbol. |
| `BacktestDecisions.EndOfCurve` | backend/app/backtesting/engine.py:181-182 | Then the curve gets one last point, at the time of the last event. |
| `BacktestExits.StepExits` | backend/app/backtesting/engine.py:86-99 | A position held when an event of its symbol comes takes up the candle, and closes, with its trade recorded, exactly when a trigger fires on it. |
| `BacktestExits.FilledExactly` | backend/app/backtesting/engine.py:100-120 | A filled entry opens its position, which takes up its own candle and may close on it again. |
| `BacktestExits.OthersStay` | backend/app/backtesting/engine.py:86-170 | Positions of other symbols neither come, go nor change. |
| `BacktestExits.FramesExactly` | backend/app/backtesting/context.py:23-29 | The strategy is shown the frames of its own symbol. |
| `BacktestExits.ViewExactly` | backend/app/backtesting/context.py:23-29 | The view has every timeframe, and of each the rows closed by now. |
| `BacktestPortfolio.Portfolio.Add` | backend/app/backtesting/portfolio.py:72-76 | Refuses a second position in a symbol; otherwise appends it. |
| `BacktestPortfolio.Portfolio.Record` | backend/app/backtesting/portfolio.py:78-120 | The whole new ledger after a close: totals, daily map, trailing losses, trade list. |
| `BacktestPortfolio.Portfolio.MarkEquity` | backend/app/backtesting/portfolio.py:122-134 | Appends one curve point and moves only the peak. |
| `BacktestPortfolio.RecordCloseBalanced` | backend/app/backtesting/portfolio.py:78-120 | A close keeps every scalar equal to the total of its list: realized P&L, equity, fees, each day, trailing losing run. |
| `BacktestPortfolio.MarkBalanced` | backend/app/backtesting/portfolio.py:122-134 | The peak is the running maximum of marked equity and each drawdown is that peak minus the equity, never negative. |
| `BacktestExecution.Enter` | backend/app/backtesting/execution.py:62-129 | A filled position respects all field constraints, its recorded risk is its own stop-out loss and is within the approved amount plus 1e-9. |
| `BacktestExecution.StopOutBound` | backend/app/backtesting/execution.py:155-182 | A stop filled at the stop level loses at most the initial risk, and exactly 1R if and only if the slipped stop is on the losing side. |
| `BacktestExecution.GapFill` | backend/app/backtesting/execution.py:131-149 | For every candle that opens beyond the stop, the fill is the open if and only if the candle misses the target; otherwise the policy fills at the stop or at the target. |
| `BacktestExecution.GapNoBetter` | backend/app/backtesting/execution.py:131-182 | For every such candle the exit nets no more than the stop level exactly when, missing the target, selling lower cannot raise net proceeds (always, for shorts), or, reaching it, the policy takes the stop first or the target does not pay. |
| `BacktestExecution.GapExactly` | backend/app/backtesting/execution.py:131-182 | With the target on its own side and, for longs, a net result that rises with the exit price (exit slippage and fees each below the whole price), that is exactly when the candle misses the target or the policy takes the stop first. |
| `BacktestExecution.GapThatReachesTarget` | backend/app/backtesting/execution.py:134-143 | A long with stop 99 and target 102 on a candle from 90 to 103 that opens at 90: it leaves at 99 or at 102, never at the open. |
| `BacktestExecution.NetIsLinear` | backend/app/backtesting/execution.py:155-164 | The net result is linear in the theoretical exit price, with slippage and fee in the slope. |
| `FillDecisions.SlippageIsAdverse` | backend/app/backtesting/execution.py:26-40 | Slippage costs the configured part of the price, on both sides, at entry and at exit. |
| `FillDecisions.FeeExactly` | backend/app/backtesting/execution.py:13-23 | A fee is the configured percentage of the notional, the taker or the maker one. |
| `FillDecisions.RawEntryExactly` | backend/app/backtesting/execution.py:73-95 | The price before slippage: the open for market orders; the entry for limit orders whose candle trades there; the worse of open and entry for breakouts whose candle reaches it; none otherwise. |
| `FillDecisions.SkippedExactly` | backend/app/backtesting/execution.py:62-129 | An attempt is skipped if and only if it is not allowed or incomplete, or the candle offers no price within the drift limit and the approved risk. |
| `FillDecisions.RaisedExactly` | backend/app/backtesting/execution.py:62-129 | An attempt raises exactly when an affordable price trades but the fill is not above zero or carries no risk. |
| `FillDecisions.FilledAt` | backend/app/backtesting/execution.py:62-129 | A fill carries the levels of the setup and the size of the decision, at the slipped price at which the candle traded. |
| `FillDecisions.ExitExactly` | backend/app/backtesting/execution.py:131-153 | Which of stop, target and age ends a position on a candle, and at what price, for either side and policy. |
| `FillDecisions.ClosedAs` | backend/app/backtesting/execution.py:155-182 | The gross, fees, net, slippage and multiple of risk of a closed position, from its prices. |
| `FillDecisions.ExcursionsExactly` | backend/app/backtesting/execution.py:184-204 | Excursions grow exactly to the best and worst price reached. |
| `Sizing.SizeIsMaximal` | backend/app/risk/position_sizing.py:31-79 | For every non-zero entry: with a positive entry and loss per unit, a step and a budget, the quantity is a whole number of steps that fits the budget and both caps, and one more step breaks one of them; otherwise it is zero. |
| `Sizing.SizeIsSound` | backend/app/risk/position_sizing.py:31-79 | For every entry, stop and step, also degenerate ones, the sized loss and notional fit budget and caps. |
| `Sizing.SizeMonotone` | backend/app/risk/position_sizing.py:57-64 | A smaller budget never gives a larger size. |
| `Sizing.RechecksHold` | backend/app/risk/engine.py:134-171 | On a sized position the notional and loss re-checks cannot fail, and the exposure re-check passes exactly when existing exposure already fits. |
| `Sizing.AllowedIsBounded` | backend/app/risk/engine.py:134-185 | An allowed decision has a positive size whose stop risk, fees and slippage together fit the risk budget, and whose notional fits both ceilings. |
| `Sizing.MarginIsTheBindingCheck` | backend/app/risk/engine.py:163-168 | The margin check passes exactly when the notional fits min(3, maximum leverage) times the safe balance. |
| `Sizing.EstimatedLeverage` | backend/app/risk/engine.py:159-161 | Rounding up to hundredths never takes a needed leverage below one; zero exactly without a safe balance. |
| `RiskDecisions.AllowedExactly` | backend/app/risk/engine.py:94-190 | A setup is allowed if and only if its levels are on their own sides, reward and stop distance suffice, the size can be traded and carried with whole hundredths of leverage up to the limit and 3, existing exposure leaves room, and the other checks pass. |
| `RiskDecisions.SizeExactly` | backend/app/risk/position_sizing.py:51-68 | The size is the largest number of steps whose loss, with fees and slippage, the budget covers and whose notional both caps allow. |
| `RiskDecisions.StepExactly` | backend/app/risk/position_sizing.py:14-28 | The step is the positive one of the exchange, else one in the last decimal of its precision. |
| `RiskDecisions.CostsExactly` | backend/app/risk/position_sizing.py:41-79 | Stop risk, fees on both fills and slippage allowance of the size, and the loss that is their sum. |
| `RiskToFill.StopOutWithinBudget` | backend/app/backtesting/engine.py:138-168 | Across sizing, re-checks, fill and exit: any filled position stopped at its stop loses at most the configured percentage of equity plus 1e-9. |
| `RiskToFill.CoversExactly` | backend/app/risk/position_sizing.py:41-55 | The slippage estimate covers the simulated costs exactly when a simulated unit loses no more than a sized unit. |
| `RiskToFill.CoversInPrices` | backend/app/risk/slippage.py:15-23 | That condition in prices and configuration: the slippage on the stop fits what the allowance leaves after the slippage on the entry, fees included. |
| `RiskToFill.BacktestCoversExactly` | backend/app/backtesting/historical.py:83-91 | The same for the estimate the backtester passes: entry slippage plus the safety buffer, times the multiplier. |
| `RiskToFill.DefaultsCoverExactly` | backend/app/backtesting/historical.py:83-91 | With the shipped defaults it covers every long, and a short if and only if stop (1 + fee) is at most entry (3 + fee). |
| `RiskToFill.ApprovedLimitOrderFills` | backend/app/backtesting/execution.py:62-129 | With covered costs an approved limit order fills if and only if the candle trades at its price: the risk check of the fill drops nothing. |
| `RiskToFill.EqualSlippageCoversLongsOnly` | backend/app/risk/slippage.py:8-23 | When only the buffer is budgeted, because a missing estimate is allowed, and it comes to twice the slippage of either side, it covers every long and no short. |
| `Breakout.SetupGeometry` | backend/app/strategy/breakout.py:85-137 | Every result other than NO_SETUP: entry strictly between stop and target, stop outside the entry zone and within the ATR distance, risk/reward equal to its recomputation and between minimum and preferred. |
| `Breakout.SetupPassesRiskGeometry` | backend/app/risk/validators.py:4-18 | With limits at least as loose, the stop, target, risk/reward and stop-distance checks of the risk engine pass on every setup. |
| `Breakout.UnconfirmedNeedsTheBuffer` | backend/app/strategy/breakout.py:85-112 | Without confirmation a setup exists if and only if the stop buffer lies within the stop-distance bounds and risk/reward and quality suffice. With the shipped defaults (0.35 below 0.4) WATCH and ARMED are therefore never produced. |
| `Breakout.EntryIsBeyondLevel` | backend/app/strategy/breakout.py:50-71 | A confirmed entry closes strictly beyond the broken level, with or without a retest; an unconfirmed one is the level. |
| `Breakout.TargetGeometry` | backend/app/strategy/exits.py:31-49 | The target rewards, no barrier lies before it, and less than the preferred multiple means that it is a barrier. |
| `Breakout.StructureStopIsBeyondItsLevel` | backend/app/strategy/exits.py:7-28 | A structural stop is on the losing side, beyond the nearest level, within the distance bounds. |
| `BreakoutDecisions.LevelExactly` | backend/app/strategy/breakout.py:39-49 | The level is the highest high, or for a short the lowest low, of exactly the needed rows before the breakout candle. |
| `BreakoutDecisions.WidthExactly` | backend/app/strategy/breakout.py:46-48 | The range is narrow exactly when no high in it is more than the allowed ATR multiple above a low in it. |
| `BreakoutDecisions.ConfirmedExactly` | backend/app/strategy/breakout.py:50-74 | When a breakout is confirmed: close beyond the level, body, wick, distance, volume against the mean of the range, and the retest, as products of prices. |
| `BreakoutDecisions.SetupExactly` | backend/app/strategy/breakout.py:27-117 | There is a setup if and only if the strategy can analyse a narrow range, the stop is within the ATR limits, the target pays the minimum multiple, and the quality suffices. |
| `BreakoutDecisions.SetupHolds` | backend/app/strategy/breakout.py:118-137 | What a setup holds, and when it is TRIGGERED, ARMED or WATCH. |
| `BreakoutDecisions.EntryAndStop` | backend/app/strategy/breakout.py:91-93 | A confirmed breakout enters at the last close, any other at the level; the stop is a buffer behind the level. |
| `BreakoutDecisions.StructureStopExactly` | backend/app/strategy/exits.py:7-30 | The structural stop is a buffer behind the nearest level on the losing side, or behind a whole ATR without one, and exists exactly within the ATR limits. |
| `PaperRuns.EveryRun` | backend/app/paper_trading/engine.py:107-276 | From a new account, after any sequence of entries, marks, exits, invalidations, refreshes and reloads: structure and money invariants hold, recovery would change nothing, and a refresh makes the account current. |
| `PaperRuns.RunGood` | backend/app/paper_trading/engine.py:107-276 | The invariant is kept by every run from any state that has it. |
| `PaperRuns.NothingToRepair` | backend/app/paper_trading/reconciliation.py:4-24 | Recovery of a state the engine reached repairs nothing. |
| `PaperRuns.TwoPendingPerOpenPosition` | backend/app/paper_trading/execution.py:157-172 | A setup has exactly two pending protective orders while its position is open, and none otherwise. |
| `PaperRuns.KeysUnique` | backend/app/paper_trading/execution.py:157-172 | Idempotency keys are unique over all orders ever created. |
| `PaperRuns.EntriesCountEntered` | backend/app/paper_trading/engine.py:182-188 | The entry counter is the number of setups marked ENTERED. |
| `PaperRuns.EnteredIsFinal` | backend/app/paper_trading/engine.py:125-127 | No whole step takes a setup out of ENTERED. |
| `PaperRaces.FinishExactly` | backend/app/paper_trading/engine.py:145-188 | The part of processing after the awaits keeps the invariant if and only if the setup has not become ENTERED since its check. |
| `PaperRaces.OverlapUndoesEntered` | backend/app/paper_trading/engine.py:125-188 | Two overlapping passes write ARMED over ENTERED and leave the position without an ENTERED setup. |
| `PaperRaces.OverlapOccurs` | backend/app/paper_trading/engine.py:125-188 | On a new account with 1000, a triggered setup and a fresh quote, both passes proceed past the check and the first one enters. |
| `PaperRaces.ProcessSplits` | backend/app/paper_trading/engine.py:125-188 | Without overlap the two parts are the whole step. |
| `PaperRuns.PeakIsRunningMaximum` | backend/app/paper_trading/portfolio.py:31-32 | Over any run the peak is the maximum of the initial peak and every equity shown. |
| `PaperRuns.MonitorIsRun` | backend/app/paper_trading/engine.py:206-222 | A monitoring pass is a run of single-position steps, so the invariants hold between positions too. |
| `PaperRuns.ProcessGood` | backend/app/paper_trading/engine.py:125-188 | Processing one triggered setup keeps the invariant on every branch, a raising entry included. |
| `PaperRuns.InvalidateGood` | backend/app/paper_trading/engine.py:266-276 | Invalidation keeps it, with or without a quote. |
| `PaperLaws.BookedSound` | backend/app/paper_trading/execution.py:133-181 | Booking an entry keeps fees, slippage, structure and equity in agreement. |
| `PaperLaws.BookExitSound` | backend/app/paper_trading/execution.py:229-316 | Booking an exit moves fees and slippage from the open position to the trade, adds its net P&L once, and settles exactly its own two orders. |
| `PaperLaws.RefreshSound` | backend/app/paper_trading/portfolio.py:8-33 | After a refresh equity is the floored value of initial + realized + open (unrealized - entry fee); drawdown = peak - equity. |
| `PaperEngine.PaperState.ExecuteEntry` | backend/app/paper_trading/execution.py:62-181 | The mutating entry equals the specification: verdict and whole new state. |
| `PaperEngine.PaperState.ExecuteExit` | backend/app/paper_trading/execution.py:229-316 | The mutating exit equals the specification. |
| `PaperEngine.PaperState.SettleOrders` | backend/app/paper_trading/execution.py:258-271 | The loop settles every pending order of the setup and no other. |
| `PaperEngine.PaperState.RefreshAccount` | backend/app/paper_trading/portfolio.py:8-33 | The field-by-field refresh equals the specification, day rollover included. |
| `PaperEngine.PaperState.ProcessSetup` | backend/app/paper_trading/engine.py:125-188 | One triggered setup, equal to the specification on every branch. |
| `PaperEngine.PaperState.InvalidateSetup` | backend/app/paper_trading/engine.py:266-276 | Status change and exit, equal to the specification. |
| `PaperEngine.PaperState.MonitorOnce` | backend/app/paper_trading/engine.py:206-222 | The monitoring loop, equal to the specification, with its stale flag. |
| `PaperEngine.PaperState.Reconcile` | backend/app/paper_trading/reconciliation.py:4-24 | Both repair loops and the growing set of symbols, equal to the specification; no warning when nothing changes. |
| `PaperDecisions.PassExactly` | backend/app/paper_trading/engine.py:206-222 | A pass with a session closes an open position that it can mark if and only if the mark is at or beyond its stop or target or its age has reached the limit, and there is a price to leave at; trade and own orders carry the first of those reasons. Any other that it can mark stays open, marked; the rest stay as they were. |
| `PaperDecisions.PassTrades` | backend/app/paper_trading/engine.py:206-222 | It records one trade for each position that leaves, and no other. |
| `PaperDecisions.PassStale` | backend/app/paper_trading/engine.py:208-222 | A pass counts as stale if and only if an open position could not be marked or an exit was refused. |
| `PaperDecisions.MonitorExactly` | backend/app/paper_trading/execution.py:201-226 | The same for one position, with the trade, its money, its orders and the cooldown in full. |
| `PaperDecisions.ExitLeaves` | backend/app/paper_trading/execution.py:229-316 | An exit needs a fresh quote, an open position and a price; then it closes at the slipped price and settles the orders of the setup: the level that was hit is filled, the others are cancelled. |
| `PaperDecisions.CloseExactly` | backend/app/paper_trading/engine.py:240-264 | A requested close leaves exactly that with a session, a fresh quote and an open position, and otherwise nothing changes. |
| `PaperDecisions.PricesOfQuote` | backend/app/paper_trading/execution.py:43-55 | Which price of a quote marks, enters and leaves, for each configuration and side. |
| `PaperDecisions.EntryExactly` | backend/app/paper_trading/execution.py:62-181 | An entry is made if and only if every condition holds, in terms of quote age, orders, positions, cooldown and drift; the position, its orders and its fee are those of the slipped price. |
| `PaperDecisions.AccountExactly` | backend/app/paper_trading/portfolio.py:8-33 | A refreshed account: results, margin and exposure of the open positions, equity with their entry fees taken off and a floor, the peak, and a new start on a new day. |
| `PaperDecisions.NewAccountIsCurrent` | backend/app/paper_trading/models.py:84-102 | A new account is what a refresh makes of it, with nothing booked and nothing counted. |
| `PaperDecisions.ProcessExactly` | backend/app/paper_trading/engine.py:125-188 | A triggered setup is left alone unless it is new or ARMED; otherwise the counters, and REJECTED, ARMED or ENTERED exactly as the decision and the entry turn out. |
| `PaperDecisions.InvalidateExactly` | backend/app/paper_trading/engine.py:266-276 | Invalidation changes the status of any setup that is not ENTERED and closes the first open position of the setup, if its quote allows. |
| `PaperDecisions.RecoveryExactly` | backend/app/paper_trading/reconciliation.py:4-24 | Recovery rejects exactly the filled entries without a position and quarantines exactly the open positions whose symbol was open before. |
| `PaperDecisions.RecoveryLeavesOne` | backend/app/paper_trading/reconciliation.py:16-23 | Afterwards each symbol has at most one open position. |
| `LiveEntry.ExecuteEntry` | backend/app/execution/coindcx_executor.py:23-143 | For every exchange behaviour the states persisted, in order, and the way the entry ends are those of the protocol function. |
| `LiveEntry.FinishEntry` | backend/app/execution/coindcx_executor.py:72-143 | The part after the order answer: fill, position, protection, emergency exit. |
| `LiveEntry.WaitForOrder` | backend/app/execution/coindcx_executor.py:153-181 | The polling loop returns the first decisive row, and nothing after an unreadable one or a raised poll. |
| `LiveEntry.WaitForPosition` | backend/app/execution/coindcx_executor.py:183-206 | The polling loop returns the first active row of the pair. |
| `LiveEntry.EntryFollowsTable` | backend/app/execution/state_machine.py:5-25 | Persisted intent states always form a path of the transition table, although most saves bypass transition. |
| `LiveEntry.ObservedIsHandled` | backend/app/execution/coindcx_executor.py:96-143 | Whenever the position poll has returned a row, the confirmation ends PROTECTED, EXIT_REQUESTED or CRITICAL if and only if the replies about it can be read: the row normalises and, when the levels are on the correct sides, accepted and rows came back, a row with its id precedes any row that is not a mapping, its stop parses, and its target parses if the stop agrees. Otherwise it ends FAILED. An exit that raises is what tells CRITICAL from EXIT_REQUESTED. |
| `LiveEntry.LookupExactly` | backend/app/execution/tpsl_manager.py:47-53 | The verification lookup raises exactly on an unreadable reply and verifies exactly when its first match shows both levels. |
| `LiveEntry.UnreadableRepliesEndFailed` | backend/app/execution/tpsl_manager.py:47-53 | Each kind of unreadable verification reply occurs and leaves a filled, seen position FAILED. |
| `LiveEntry.UnreadablePositionEndsFailed` | backend/app/execution/coindcx_executor.py:112 | So does a position row that does not normalise. |
| `LiveEntry.ProtectedIsVerified` | backend/app/execution/tpsl_manager.py:12-62 | PROTECTED is persisted exactly when the entry returns: when the levels are on the correct sides of the fill, the exchange accepted them, and the first row it then shows for the position carries them within tolerance. |
| `LiveEntry.ConfirmationFollowsTable` | backend/app/execution/runtime.py:893-953 | All states one confirmation persists follow the table, up to a repeated FAILED, exactly unless a normalised position meets an unreadable verification reply; then FAILED follows PROTECTION_PENDING, and memory says FAILED too. |
| `LiveEntry.ReportedFillEndsFailed` | backend/app/execution/coindcx_executor.py:72-111 | A reported fill ends FAILED exactly when its order details cannot be read, the order is reported cancelled or rejected, or its position is seen and a reply about it cannot be read. |
| `LiveLookups.OrderExactly` | backend/app/execution/coindcx_executor.py:153-181 | The wait for the order answers with a row if and only if it is the first row of the order in some poll and settles it, and every earlier poll came back with the order readable and unsettled, or absent. |
| `LiveLookups.PositionExactly` | backend/app/execution/coindcx_executor.py:183-206 | The wait for the position answers with a row if and only if it is readable, of the pair and with a quantity other than zero of either sign, the first of its poll to be that or unreadable, and every earlier poll came back without such a row. |
| `LiveLookups.SeenExactly` | backend/app/execution/coindcx_executor.py:60-96 | The row that the confirmation sees, in terms of the polls alone. |
| `LiveLookups.FillStateExactly` | backend/app/execution/coindcx_executor.py:81-112 | What is persisted for a fill says whether the order row reported it filled in part or whole. |
| `LiveLookups.ProtectedExactly` | backend/app/execution/coindcx_executor.py:23-143 | A confirmation ends PROTECTED if and only if the polls lead to a readable position with both levels on their own sides, long or short, both are accepted, and the first row of that position in the verification reply shows both. |
| `LiveLookups.UnseenExactly` | backend/app/execution/coindcx_executor.py:30-112 | What is persisted when the polls lead to no position: FAILED after a refusal or an unreadable reply, nothing more without a fill, else ORDER_UNKNOWN. |
| `LiveLookups.NothingWithoutSubmitting` | backend/app/execution/state_machine.py:5-25 | No path of the table gets beyond the checks without SUBMITTING. |
| `LiveLookups.NotProtectedUnlessPending` | backend/app/execution/state_machine.py:5-25 | No path reaches PROTECTED without PROTECTION_PENDING. |
| `LiveLookups.TerminalStates` | backend/app/execution/state_machine.py:5-25 | Exactly CLOSED, REJECTED, FAILED and CRITICAL end a path, and one of them can be reached from every other state. |
| `Confirmations.SubmittedAtMostOnce` | backend/app/execution/runtime.py:812-897 | No interleaving of requests, confirmations and gates submits one request twice. |
| `ConfirmationTraces.SubmittedWasConfirmed` | backend/app/execution/runtime.py:751-897 | Under every interleaving, what is submitted was stored by an allowed request with a grant, then confirmed with its token, with the phrase and in time, and then passed the gate. |
| `ConfirmationTraces.RefusedLeavesNoTrace` | backend/app/execution/runtime.py:769-770 | A request that is not allowed leaves no trace. |
| `Confirmations.SerialRequestsAreSafe` | backend/app/execution/runtime.py:751-810 | While requests for a setup do not overlap, each setup has at most one intent. |
| `Confirmations.RacingRequestsSubmitTwice` | backend/app/execution/runtime.py:751-810 | Two overlapping requests for one setup can both be stored, confirmed and submitted. |
| `Confirmations.RaceIsReachable` | backend/app/execution/runtime.py:751-810 | Such an overlap is reachable from the empty state. |
| `Confirmations.BeginSafeExactly` | backend/app/execution/runtime.py:751-810 | A request may begin without endangering the one intent per setup if and only if none for its setup is in flight; otherwise two intents can be stored and submitted for it. |
| `Confirmations.SafeExactlyWhenSerial` | backend/app/execution/runtime.py:751-810 | A schedule keeps, at every state, all its non-overlapping continuations at one intent per setup if and only if its own requests for one setup never overlap. |
| `Confirmations.Runtime.ConsumeGrant` | backend/app/execution/runtime.py:820-830 | A grant is consumed once, on a valid token, phrase and time, and otherwise nothing changes. |
| `Confirmations.Runtime.StartRequest` | backend/app/execution/runtime.py:751-754 | A request starts exactly when no stored intent has its setup. |
| `Confirmations.Runtime.StoreIntent` | backend/app/execution/runtime.py:797-810 | Stores the intent and, unless only validating, its grant. |
| `StopManager.RatchetExactly` | backend/app/execution/runtime.py:287-407 | For any unlocked managed position, whatever its stop and target: over every run of whole ticks and reconciliations before the runner lock the stop never loosens if and only if the guard holds. With sane levels the guard is a stop not beyond the breakeven stop and a sane trailing stop; otherwise a stop no tighter than both default stops, with a sane default target as well; or, in place of the sanity conditions, all stops coincide. |
| `StopManager.StopNeverLoosens` | backend/app/execution/runtime.py:364-383 | Under that guard, between any two points of a run, the stop only tightens, and trailing_locked implies breakeven_activated. |
| `StopManager.LargeEntriesRatchet` | backend/app/execution/runtime.py:300-383 | Above an entry of 0.001 the trailing stop and the default target are sane, so the guard only concerns the levels handed over. |
| `StopManager.CheapEntryBreaksRatchet` | backend/app/execution/runtime.py:300-309 | At the entry 0.00010045, with sane levels, rounding breaks the ratchet. |
| `StopManager.CloseTargetBreaksRatchet` | backend/app/execution/runtime.py:300-318 | A long at 100 with stop 99.8 and target 100.4 loosens its stop to 99.15 on the first tick. |
| `StopManager.RatchetBreaks` | backend/app/execution/reconciliation.py:79-101 | Wherever the guard fails, some run loosens the stop. |
| `StopManager.RunnerLockExactly` | backend/app/execution/runtime.py:300-318 | The tick after the runner lock resets the stop to the default if and only if the runner levels fail the sanity tests, and loosens it exactly when the two stops also differ. |
| `StopManager.RunnerLockIsUndone` | backend/app/execution/runtime.py:300-318 | For entries above 0.001 it resets and loosens the stop. |
| `StopManager.RunnerLockCanSurvive` | backend/app/execution/runtime.py:300-318 | At the entry 0.000055 the runner levels pass the tests. |
| `StopManager.TierThreeLocks` | backend/app/execution/runtime.py:388-407 | Tier 3 leaves the runner stop and target in place. |
| `StopDecisions.TickExactly` | backend/app/execution/runtime.py:409-462 | With an accepted exit a tick closes for a reason if and only if the test of that reason, and none before it, holds of the adjusted position at its mark, in prices and for both sides; the closed position realises what it showed. |
| `StopDecisions.TickWithoutClose` | backend/app/execution/runtime.py:287-297 | Without an accepted exit, a positive mark or bot management nothing closes. |
| `StopDecisions.HealthyStaysOpen` | backend/app/execution/runtime.py:409-462 | Strictly between its levels, above the loss cap, and young or above the stagnation limits, a position stays open. |
| `StopDecisions.AdjustedExactly` | backend/app/execution/runtime.py:300-407 | What the tick tests: the starting levels, the unrealized result, and the three locks with their thresholds, stops and target. |
| `StopDecisions.MarkExactly` | backend/app/execution/runtime.py:320-352 | The mark is the live price, else the last mark, else the entry. |
| `StopDecisions.LevelsSaneExactly` | backend/app/execution/runtime.py:300-304 | Levels pass when both are set, the stop not beyond and the target beyond half a percent of gain. |
| `StopDecisions.LevelsInPrices` | backend/app/execution/runtime.py:305-391 | The distances from the entry of every level the manager writes. |
| `StopDecisions.IdentityKept` | backend/app/execution/runtime.py:274-531 | Over any sequence of ticks and reconciliations a position keeps its ids, pair, side, entry and management, and once closed stays closed. |
| `StopDecisions.WritesExactly` | backend/app/execution/runtime.py:298-399 | A tick writes exactly when it changes the position or gives a managed one its mark anew. |
| `StopRaces.SerialRatchetExactly` | backend/app/execution/runtime.py:276-359 | With each pass split into its read and its write: over schedules in which the windows of a position do not overlap, the stop never loosens if and only if the guard holds. |
| `StopRaces.SerialIsRun` | backend/app/execution/reconciliation.py:63-103 | Such a schedule is a run of whole ticks and reconciliations. |
| `StopRaces.OverlapLoosens` | backend/app/execution/runtime.py:254-272 | When a tick lifts the stop inside the window of another monitor pass or of a reconciliation, the second write puts the old stop back, guard or not. |
| `StopRaces.OverlapBreaksRatchet` | backend/app/execution/reconciliation.py:63-103 | So overlap breaks the ratchet for every position with sane levels and a stop looser than the trailing stop. |
| `StopRaces.AlwaysTightensExactly` | backend/app/execution/runtime.py:254-359 | Over all schedules before the runner lock, overlap included, the stop only tightens if and only if it is the trailing stop from the start, the breakeven stop rounds to the same price, and the levels are sane or all stops coincide. |
| `StopRaces.NoLargeEntrySettles` | backend/app/execution/runtime.py:364-383 | Above an entry of 0.001 no position meets that. |
| `LivePositions.LevelMonotone` | backend/app/execution/runtime.py:300-391 | Rounded levels keep the order of their factors, mirrored for shorts. |
| `LivePositions.RoundMonotone` | backend/app/execution/runtime.py:305-309 | Rounding half to even is monotone. |
| `LivePositions.RoundExactly` | backend/app/execution/runtime.py:305-309 | Rounding gives the nearest multiple of the unit, the even one at a tie. |
| `DayTotals.Runtime.MonitorAndClose` | backend/app/execution/runtime.py:471-531 | Over one uninterrupted pass incremental totals stay equal to recomputation, except that each zero-result close adds one losing trade. |
| `DayTotals.OverlappingPassesCountTwice` | backend/app/execution/runtime.py:282-531 | Two passes that both read a position open and both have the exit accepted count its one close twice, and the totals no longer agree with recomputation. |
| `DayTotals.OverlappingPassesOccur` | backend/app/execution/runtime.py:282-531 | A long at 100 with stop 99 that two passes meet at 98 is such a position. |
| `DayRaces.TotalsAgreeExactly` | backend/app/execution/runtime.py:274-531 | Over any schedule of monitor passes, overlap included, the totals, with zero-result closes counted as losses, agree with recomputation at the end if and only if no write replaced a position that another pass had closed, be it by a second accepted exit or by a copy that reopens it. |
| `DayRaces.SinceRecomputation` | backend/app/execution/runtime.py:608-613 | A recomputation in the middle of a schedule repairs the totals; afterwards they agree if and only if no such write has happened since. |
| `DayRaces.SerialIsFresh` | backend/app/execution/runtime.py:274-531 | Passes that do not overlap on a position make no such write. |
| `DayRaces.FinishEnds` | backend/app/execution/runtime.py:276-531 | A finishing pass is over, whether it wrote or not, and changes nothing when it did not write. |
| `DayRaces.StaleWriteOccurs` | backend/app/execution/runtime.py:282-531 | The condition can fail: two passes read one position, and both close it. |
| `DayTotals.Runtime.RecalculateToday` | backend/app/execution/runtime.py:98-130 | The recomputation loop equals the fold over the closed positions of the day. |
| `DayTotals.CloseAgrees` | backend/app/execution/runtime.py:516-531 | One close keeps exact agreement if and only if its result is not zero. |
| `DayTotals.RecomputedSums` | backend/app/execution/runtime.py:127-130 | With four-decimal results the final rounding changes nothing. |
| `DayTotals.RecomputedRounds` | backend/app/execution/runtime.py:127-130 | Whatever was realised, a recomputed total has four decimals and is the nearest such number to its sum. |
| `DayTotals.ScopeExactly` | backend/app/execution/runtime.py:98-118 | Which closes count: those within the day in India and not before a reset. |
| `DayTotals.CountedExactly` | backend/app/execution/runtime.py:108-118 | A closed position counts at its closing time or, without one, at its last update. |
| `Reconciliation.Book.Reconcile` | backend/app/execution/reconciliation.py:52-136 | The three loops over the mutable position map leave exactly the specified positions. |
| `Reconciliation.Book.ApplyRows` | backend/app/execution/reconciliation.py:73-120 | The row loop, which reads the maps built before it, merges or adopts each row. |
| `Reconciliation.Book.CloseGhosts` | backend/app/execution/reconciliation.py:123-136 | The ghost loop writes each closed position over its own slot. |
| `Reconciliation.RefinesExchange` | backend/app/execution/reconciliation.py:63-136 | Afterwards the open local ids are the active exchange ids if and only if no unknown row shares its pair with an open local position. |
| `Reconciliation.OpenIdsAreActive` | backend/app/execution/reconciliation.py:63-136 | No open id is invented, clash or not. |
| `Reconciliation.PositionIdsPreserved` | backend/app/execution/reconciliation.py:90-119 | Local position ids keep their slots; adopted positions get fresh ids. |
| `Reconciliation.SecondRunIsClean` | backend/app/execution/reconciliation.py:65-71 | A second run on the same snapshot reports no orphan and no ghost and keeps the open ids. |
| `Reconciliation.ResultDistinct` | backend/app/execution/reconciliation.py:63-136 | Open exchange ids stay distinct. |
| `ReconcileDecisions.ActiveExactly` | backend/app/execution/reconciliation.py:49-56 | A row counts if and only if it is the last to show its id with a quantity other than zero. |
| `ReconcileDecisions.LandsExactly` | backend/app/execution/reconciliation.py:72-75 | A row belongs to the last open local with its id or, if there is none, to the last open one of its pair. |
| `ReconcileDecisions.LocalExactly` | backend/app/execution/reconciliation.py:72-136 | What becomes of each local, duplicates included: an open one that no row shows, and that its id stands for, is closed and realises its result; any other takes over the last row that lands on it and keeps its management data, or stays. |
| `ReconcileDecisions.AdoptedExactly` | backend/app/execution/reconciliation.py:103-120 | What an adopted position shows: the side, size and prices of its row, and the default levels. |
| `ReconcileDecisions.UnknownIsAdopted` | backend/app/execution/reconciliation.py:103-120 | Every unknown row is adopted at a fresh id with both default levels. |
| `ReconcileDecisions.AdoptionsCount` | backend/app/execution/reconciliation.py:103-120 | There are as many adoptions as unknown rows. |
| `Candles.Aggregate` | backend/app/market_data/candles.py:105-124 | Sorting, grouping into an ordered dictionary and summarising gives the specified aggregate. |
| `Candles.AggregateComposes` | backend/app/market_data/candles.py:105-133 | Aggregating to a finer and then a coarser timeframe equals aggregating once, weeks included. |
| `Candles.AggregateIsOrderedAndAligned` | backend/app/market_data/candles.py:105-133 | Output is strictly ordered and each timestamp starts its own bucket. |
| `Candles.AggregatePreservesVolume` | backend/app/market_data/candles.py:121 | Total volume is preserved. |
| `Candles.AggregateWellFormed` | backend/app/market_data/candles.py:113-122 | low <= open, close <= high survives, so building the result cannot fail validation. |
| `Candles.AggregatePermutation` | backend/app/market_data/candles.py:109 | The arrival order of candles with distinct times does not matter. |
| `Candles.BucketNests` | backend/app/market_data/candles.py:127-133 | The coarse bucket of a moment is the coarse bucket of its fine bucket. |
| `Candles.BucketContains` | backend/app/market_data/candles.py:127-133 | A moment lies within its bucket, and a bucket start is its own bucket. |
| `CandleSources.EveryInputInOneOutput` | backend/app/market_data/candles.py:109-124 | Every input lies in the period of exactly one output. |
| `CandleSources.OutputFromInputs` | backend/app/market_data/candles.py:112-122 | Open and symbol of an output are those of the earliest input in its period, close that of the latest, ties in order of arrival; high and low are the extremes, attained; volume is the sum. |
| `OrderBook.EstimateSlippagePercent` | backend/app/scanner/filters.py:30-47 | The walk over the levels, with its tolerance and early exits, equals the specification. |
| `OrderBook.NoneExactlyWhenTooThin` | backend/app/scanner/filters.py:31-45 | For any levels, None is returned exactly for no notional, no valid first level, or a depth before the first invalid level that is short by more than the tolerance. |
| `OrderBook.OneLevelExactly` | backend/app/scanner/filters.py:30-47 | A single level gives an estimate exactly when its price and quantity are positive and it is deep enough, and then no slippage within it. |
| `OrderBook.AverageBetween` | backend/app/scanner/filters.py:46 | On an exact walk the average fill lies between the best and the last consumed price. |
| `OrderBook.AverageMonotone` | backend/app/scanner/filters.py:46 | On exact walks the average moves away from the best price as the notional grows. |
| `OrderBook.SlippageMonotone` | backend/app/scanner/filters.py:30-47 | At tolerance zero estimated slippage is nondecreasing in the notional, on asks and bids. |
| `OrderBook.WalkLeavesSliver` | backend/app/scanner/filters.py:36-45 | The code's walk buys all but a sliver of at most 1e-9, and all of it if and only if no cumulative depth lies below the notional by as little as that. |
| `OrderBook.CodeAverageBetween` | backend/app/scanner/filters.py:46 | At the code's tolerance the average, less the sliver's share, lies between the best and the last consumed price. |
| `BookMonotone.NeverFallsExactly` | backend/app/scanner/filters.py:30-47 | Over all notionals that get an estimate at the code's tolerance, for any list of levels whose part before the first invalid one is sorted, asks or bids: the estimate is nondecreasing if and only if that part has at most one level. |
| `BookMonotone.SingleLevelExactly` | backend/app/scanner/filters.py:30-47 | On valid sorted levels, asks or bids: if and only if there is a single level. |
| `BookMonotone.OnlyValidLevelsCount` | backend/app/scanner/filters.py:36-38 | Levels from the first invalid one on change no estimate. |
| `BookMonotone.AskFalls` | backend/app/scanner/filters.py:42-46 | Any ask book with a second level: some notional just above the first level and the tolerance is estimated below the one there; it lies within the depth when the depth goes that far. |
| `BookMonotone.BidFalls` | backend/app/scanner/filters.py:42-46 | Any bid book with a second level: the notional that exceeds the depth by 1e-9 is estimated below some smaller one. |
| `BookMonotone.AsksWithin` | backend/app/scanner/filters.py:30-47 | Restricted to notionals that the depth covers, the estimate for asks is nondecreasing if and only if the depth exceeds the first level by no more than 1e-9. |
| `BookMonotone.ExactAskRises` | backend/app/scanner/filters.py:30-47 | For asks it never falls from a notional without a sliver to any larger one that gets an estimate. |
| `BookMonotone.BidsWithin` | backend/app/scanner/filters.py:30-47 | Restricted to notionals that the depth covers, the estimate for bids whose second level is worth more than 1e-9 is nondecreasing if and only if there is one level, or there are two and the first is worth at least twice its quantity at the second price, plus 1e-9. |
| `BookMonotone.BidFallsBehind` | backend/app/scanner/filters.py:42-46 | For bids it falls just behind every level, the last included, that is worse than the best and worth more than 1e-9. |
| `BookMonotone.BidFallsAcross` | backend/app/scanner/filters.py:42-46 | It also falls when a bid notional crosses into a second level that is not far enough below the first. |
| `BookMonotone.CodeSlippageMonotone` | backend/app/scanner/filters.py:30-47 | At the code's tolerance it is nondecreasing between notionals that get an estimate and leave no sliver; on asks only the smaller one must leave none. |
| `BookMonotone.SliverBreaksMonotone` | backend/app/scanner/filters.py:42-46 | Two equal levels and a notional just above the first: a sliver makes a larger notional look cheaper. |
| `OrderBook.SpreadRange` | backend/app/scanner/filters.py:20-27 | A spread is known exactly for a positive uncrossed best pair and lies strictly between 0 and 200 percent. |
| `Metrics.Streaks` | backend/app/backtesting/metrics.py:7-20 | Returns the longest losing and the longest winning run; zeros end both. |
| `Metrics.MetricsOf` | backend/app/backtesting/metrics.py:23-42 | The one-pass drawdown is the maximum over i <= j of prefix sum i minus prefix sum j. |
| `Metrics.MetricLaws` | backend/app/backtesting/metrics.py:32-42 | The figures agree: no profit factor exactly without losses, above one exactly for positive net P&L, expectancy times trades is net P&L, win rate within 0 and 100. |
| `Metrics.CountsExactly` | backend/app/backtesting/metrics.py:24-33 | Wins are the trades with a positive and losses those with a negative net result. |
| `Metrics.FiguresExactly` | backend/app/backtesting/metrics.py:32-42 | What each ratio is a part of, and what no trades report. |
| `Metrics.Grouped` | backend/app/backtesting/metrics.py:99-103 | Names are distinct, in order and cover all trades, each metric set describes exactly the trades of its name, and counts and P&L sum to the whole. |
| `Metrics.TradeOrderMonteCarlo` | backend/app/backtesting/monte_carlo.py:9-21 | Every reordering ends at the same equity, with a drawdown between each single loss and the total of the losses. |
| `Metrics.DrawdownBounds` | backend/app/backtesting/monte_carlo.py:16-19 | Those bounds for any order, with zero drawdown exactly when there is no loss. |
| `Metrics.LossesFirstIsWorst` | backend/app/backtesting/monte_carlo.py:12-19 | The upper bound is attained by the order with all losses first. |
| `MovingAverages.ComputeEma` | backend/app/indicators/ema.py:7-21 | The updating loop equals the recursive average, or the error for a non-positive period. |
| `MovingAverages.ComputeEmaFromOptional` | backend/app/indicators/ema.py:24-32 | The average over present values is written back from the first one; without any value the period does not matter, and otherwise a non-positive one is an error. |
| `MovingAverages.EmaWithinInputs` | backend/app/indicators/ema.py:15-20 | An average stays within the extremes of the values up to its index. |
| `MovingAverages.EmaAffine` | backend/app/indicators/ema.py:15-20 | Averaging commutes with scaling and shifting. |
| `MovingAverages.EmaIsCausal` | backend/app/indicators/ema.py:15-20 | An average depends on no later value. |
| `MovingAverages.MacdWarmUp` | backend/app/indicators/macd.py:14-27 | The line is None exactly on the first slow - 1 indices, signal and histogram exactly on the first slow + signal - 2. |
| `MovingAverages.MacdAffine` | backend/app/indicators/macd.py:14-27 | Scaling the prices scales line, signal and histogram; shifting changes none. |
| `MovingAverages.MacdShiftInvariant` | backend/app/indicators/macd.py:14-27 | All three series are identical on shifted prices. |
| `MovingAverages.CrossoverMirrors` | backend/app/indicators/macd.py:30-41 | Mirrored prices swap bullish and bearish; shifted or enlarged prices change neither. |
| `MovingAverages.CrossoverExactly` | backend/app/indicators/macd.py:30-41 | A crossing compares the last two places where both lines have a value. |
| `MovingAverages.NothingCrosses` | backend/app/indicators/macd.py:36-37 | With fewer than two such places nothing crosses. |
| `Oscillators.ComputeRsi` | backend/app/indicators/rsi.py:8-33 | The loop with its two averages equals the recursive definition. |
| `Oscillators.RsiInRange` | backend/app/indicators/rsi.py:20-25 | RSI lies in [0, 100]. |
| `Oscillators.RsiMirrors` | backend/app/indicators/rsi.py:16-33 | Mirrored prices give 100 - RSI; shifted or enlarged prices the same RSI. |
| `Oscillators.RsiIsMaximal` | backend/app/indicators/rsi.py:20-25 | RSI is 100 exactly when the prices so far rose somewhere and fell nowhere. |
| `Oscillators.ComputeTrueRanges` | backend/app/indicators/atr.py:6-20 | The loop equals the definition, and errors exactly on a later candle with high below low. |
| `Oscillators.ComputeAtr` | backend/app/indicators/atr.py:23-35 | The smoothing loop equals the recursive definition. |
| `Oscillators.AtrWithinPriceRange` | backend/app/indicators/atr.py:23-35 | On well-formed candles ATR lies between zero and the whole price range so far. |
| `Oscillators.WilderWithin` | backend/app/indicators/atr.py:30-34 | Smoothed values stay within the extremes of the inputs so far. |
| `VolumeIndicators.RollingAverage` | backend/app/indicators/volume.py:6-19 | The running sum equals the sum of its window at every index. |
| `VolumeIndicators.RelativeVolumeRange` | backend/app/indicators/volume.py:22-27 | Missing exactly during warm-up or on a window without volume, and never above the period. |
| `VolumeIndicators.UtcSessionVwap` | backend/app/indicators/vwap.py:6-22 | The accumulating loop with resets equals the ratio of sums over the session. |
| `VolumeIndicators.SessionIsDay` | backend/app/indicators/vwap.py:12-17 | On candles in time order a session is all candles of the UTC day so far. |
| `VolumeIndicators.VwapIsLocal` | backend/app/indicators/vwap.py:6-22 | A value depends only on the candles of its own day. |
| `VolumeIndicators.VwapWithinSession` | backend/app/indicators/vwap.py:18-21 | A value lies between the lowest low and the highest high of the session so far, and is missing exactly without volume. |
| `IndicatorLaws.EmaRecurrence` | backend/app/indicators/ema.py:12-20 | The average starts as the mean of the first period and moves by 2 / (period + 1) of the gap to each value. |
| `IndicatorLaws.WilderRecurrence` | backend/app/indicators/atr.py:28-34 | Wilder smoothing starts as the mean and moves by 1 / period of the gap. |
| `IndicatorLaws.RsiExactly` | backend/app/indicators/rsi.py:13-33 | RSI is the share of gains in the smoothed moves, in percent, and 50 when nothing moved. |
| `IndicatorLaws.TrueRangeExactly` | backend/app/indicators/atr.py:12-20 | A true range is the largest of three distances. |
| `IndicatorLaws.MacdExactly` | backend/app/indicators/macd.py:14-27 | The line is the faster average less the slower, the histogram the line less the signal. |
| `IndicatorLaws.RelativeVolumeExactly` | backend/app/indicators/volume.py:22-27 | Relative volume times the mean of its window is the volume. |
| `IndicatorLaws.SessionExactly` | backend/app/indicators/vwap.py:12-17 | A candle is in the session exactly when no day begins after it. |
| `IndicatorLaws.VwapExactly` | backend/app/indicators/vwap.py:18-21 | The VWAP is the volume-weighted mean of high, low and close. |
| `HistoryValidation.MissingPeriods` | backend/app/backtesting/validation.py:32-38 | The nested loop terminates and equals the specification for rows in any order. |
| `HistoryValidation.PresentOrMissing` | backend/app/backtesting/validation.py:32-38 | For ordered rows on the grid, present and missing together are exactly the grid, and disjoint. |
| `HistoryValidation.MissingCount` | backend/app/backtesting/validation.py:32-38 | Present plus missing is the length of the grid, and missing periods come in order. |
| `HistoryValidation.Validate` | backend/app/backtesting/validation.py:20-45 | Issues name exactly the bad rows; accepted exactly when all candles are well-formed and timestamps distinct. |
| `HistoryValidation.IssuesExactly` | backend/app/backtesting/validation.py:24-29 | What each issue means, price by price. |
| `HistoryValidation.BuildWalkForwardWindows` | backend/app/backtesting/walk_forward.py:13-28 | All windows that fit, stepping by the test period, and no further one fits. |
| `HistoryValidation.OutOfSamplePeriodsTile` | backend/app/backtesting/walk_forward.py:16-27 | Each out-of-sample period begins where the one before ends, right after its own training data. |
| `HistoryValidation.NoProgressNeverEnds` | backend/app/backtesting/walk_forward.py:16-27 | Otherwise the loop condition holds for ever. |

## Left out

- Floating-point rounding: arithmetic is exact; `round` to four and six decimals is modelled with ties to even, `Decimal` rounding down as a floor.
- OrderBook.SlippageMonotone: stated at tolerance zero; the lemmas of BookMonotone state what holds at the code's tolerance.
- OrderBook.AverageBetween: stated for exact walks; CodeAverageBetween accounts for the sliver.
- OrderBook.AverageMonotone: stated for exact walks.
- BookMonotone.CodeSlippageMonotone: between notionals without a sliver; NeverFallsExactly says when it holds for all.
- BookMonotone.AsksWithin: a corollary for notionals that the depth covers; the code also estimates up to 1e-9 more, which NeverFallsExactly includes.
- BookMonotone.BidsWithin: the same, with a second bid level worth more than the 1e-9 tolerance; NeverFallsExactly needs no such hypothesis.
- BacktestTiming.NoEntryBeforeDecision: stated for grid-aligned five-minute rows with distinct times; validation rejects duplicates but does not check alignment.
- BacktestLaws.Causality: rows are assumed stored under their own timeframe.
- BacktestExecution: volatility-adjusted slippage equals the base rate because no caller passes an ATR percentage; funding is the constant zero of the source.
- BacktestEngine: strategy, scoring and risk are one oracle of the closed candles and the account snapshot; metadata such as regime, factors and lifecycle events is dropped. That open positions and exposure stay under the limits over a run is not claimed: decisions do not see queued entries.
- BacktestPortfolio: a day without trades that the source's default dictionary creates by reading is not kept; its value is zero.
- Paper trading: in PaperRuns each step is atomic; PaperRaces splits only the processing of a setup at its awaits. A monitoring step may meet a position that is no longer open, as a pass that listed it earlier does; it is then marked and not exited. `daily_pnl` across midnight is not claimed: an exit adds to it before the refresh zeroes it. Setup ids are assumed to end in a digit, as ISO timestamps do.
- PaperRuns.EnteredIsFinal: for whole steps; FinishExactly is the exact condition over split ones, and OverlapUndoesEntered the overlap that breaks it.
- PaperDecisions.NewAccountIsCurrent: for an initial equity of at least 1e-8; a refresh lifts a smaller one to that floor.
- PaperRuns: manual cancellation of orders, sessions and engine status are not part of the state; a session is a flag of each step.
- LiveEntry: order records, fees and raw metadata are not kept; a deadline is the end of the list of polls.
- Confirmations: one action per stretch of code between awaits; the automatic path's own lock is not modelled, so the race concerns the request route.
- Confirmations.SafeExactlyWhenSerial: a state counts as safe when every continuation without further overlap keeps one intent per setup.
- StopManager.StopNeverLoosens: whole ticks and reconciliations; SerialRatchetExactly and AlwaysTightensExactly cover split ones. The average price and the side stay constant, as reconciliation reports for one position; leverage and return on equity are only logged by the source.
- StopRaces: a pass reads once and writes once; the intermediate writes of one tick (reset, price, tiers) are one write.
- DayTotals.Runtime.MonitorAndClose: one pass without an overlapping one, within one IST day and without a manual reset; DayRaces.TotalsAgreeExactly covers overlapping ones. Consecutive losses, cooldowns and the capital shield are not modelled.
- DayRaces: a pass reads once and writes once, as in StopRaces; positions that reconciliation closes are counted only by a recomputation and are not part of these schedules.
- Reconciliation.RefinesExchange: open local positions are assumed to carry distinct exchange ids, which every run keeps (ResultDistinct).
- Reconciliation: unknown orders and protection failures of the report are not modelled; a row without any id is not modelled.
- Sizing: a missing entry, stop or ATR appears only through the flag for the remaining checks, as do liquidity, spread, freshness, drift, cooldown and account checks.
- Breakout: eligibility gates and the weighted quality score are inputs; the trend-pullback strategy is not modelled.
- VolumeIndicators.VwapIsLocal: stated for candles in time order; out of order, the source starts a new session at every change of day.
- Metrics: percentiles, annualised return and R buckets are not modelled.
- HistoryValidation.Validate: one symbol and timeframe; the report over all of them repeats it.
- HistoryValidation.BuildWalkForwardWindows: requires a positive test period or a first window that does not fit, since the source's loop does not end otherwise.
- Indicators: infinite and NaN inputs, which the source rejects, do not exist in `real`; swing detection and level clustering are not modelled.
- `LiveExecutionRuntime.load` reads the undefined name `today_date` (`backend/app/execution/runtime.py:206`); the model starts from a loaded state.
- HTTP routes, storage, notifications, logging, web sockets and exchange clients.
