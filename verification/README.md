# AI Stock: a verified model of its rules and protocols

AI Stock watches Taiwan quotes and fires notify-only trade intents. This project models, in
Dafny, the parts of it that are hard to get right and proves what they promise: over every
input for the pure rules, over every run for the stateful ones, and over every interleaving
where several threads or requests meet.

| file | what it models |
|---|---|
| `DecimalText.dfy` | exact decimals and the canonical price text the duplicate check compares |
| `Price.dfy` | the tick tables, rounding to legal prices, price validation |
| `TradingSession.dfy` | phases, trading dates and expiry cutoffs of the calendar |
| `Intents.dfy`, `QuoteEvaluation.dfy` | when a quote triggers an intent; the trailing stop against its whole history |
| `IntentStore.dfy`, `IntentTable.dfy` | the commands on the intent table, as functions and as methods updating fields in place |
| `IntentProtocol.dfy` | every interleaving of the statements that write the intent table |
| `IntentRuns.dfy` | every run of whole commands against a clock that never goes back |
| `TrailingRuns.dfy` | trailing intents over those runs, against all the quotes they saw |
| `IntentOutcomes.dfy` | what callers get: exactly when a request is accepted, a quote fires, the clock acts, a cancel works |
| `TwapPlan.dfy` | the planner of time-weighted orders |
| `TwapBook.dfy`, `TwapTable.dfy`, `TwapRuns.dfy` | stored orders and slices, the slice worker, and conservation of lots over every run |
| `TwapEndings.dfy` | what ended orders still do, and how many of a kind are live, over every run |
| `TwapOutcomes.dfy` | stored orders as their owners' requests, and the exact effect of each step of their life |
| `TwapProtocol.dfy` | every interleaving of those runs with the two halves of cancellations |
| `Pagination.dfy` | keyset pagination of an owner's intents |
| `TelegramDesk.dfy`, `TelegramRuns.dfy` | drafting and confirming an intent in a chat, cut at its commits, crashes included |
| `TelegramOutcomes.dfy` | which messages and presses are taken up, and that an intent does what its draft shows |
| `KillSwitch.dfy` | the cached halt flag, as steps of many threads |
| `RateLimiter.dfy` | the token bucket |
| `RefreshTokens.dfy` | refresh-token rotation |
| `Idempotency.dfy` | the memo of responses and its cleanup |
| `Outcomes.dfy` | optional values and results |

`dafny verify dfyconfig.toml` checks all of it.

Where the program updates rows or fields in place the model has two layers. A class carries
the fields and its methods update them; each method is proved to have exactly the effect of a
function on the stored value. The theorems about runs speak of those functions, and the files
named Outcomes say in the caller's own terms, without them, what they must do.

## How things are represented

- Decimals are exact: a coefficient with an exponent where the written form matters, a real
  number elsewhere. Decimal's 28-digit context and the scale of the numeric columns are not
  modelled, so no product or mean of prices is rounded on its way.
- Instants are microseconds of Taipei wall-clock time from the start of a Monday; a day is a
  number and its weekday is that number modulo seven.
- Generated ids are natural numbers; a new one is only required to be unused.
- Clocks, quotes, the outcome of subscribing, the state of the kill switch and the classifier
  of chat messages are parameters, and every theorem holds for all their values.
- A dispatch reads the clock twice. The two readings are ordered and less than a night
  (19.5 hours) apart, which is weaker than asking for the same date.
- A decimal has no sign: a price below zero, which the classifier and the price parser both
  refuse, cannot be written. A price kept as text in a chat draft is the decimal it was printed from.
- The notification mode is not stored: a check on the column admits a single value.
- Creation caps may be absent, as in the program's wiring without a database.
- A trigger row carries the instant at which its quote was evaluated. The program stores the
  database's time of the write instead.

## Where the program departs from its own descriptions

- `src/app/domain/price.py:118-121` says that prices of zero or less get the highest tick.
  The table scan gives them the lowest; the model does too.
- `src/app/services/quote_dispatcher_core.py:10` says the dispatcher runs no lifecycle
  update. It does, at line 75, and the session theorem rests on it.
- `src/app/commands/telegram_intent.py:222-225` says a failed create leaves the draft pending.
  A failure of the read that follows the create command's commit ends in the same branch, with
  the draft already confirming and its intent stored. `ErrorKeepsDraftExactlyIfNotCreated` says
  exactly when the draft is still pending, `StrandedIsReached` is a run that ends otherwise, and
  `ConfirmationEndsExactlyIfAwaited` says exactly when a confirming interaction can still end.
- `src/app/services/idempotency.py:4` says a repeated request is not executed again. The command
  commits before its record does, so a failure in between loses the record and a retry runs the
  command again: `CommandCanRunTwiceInADay` is such a run, and `RunsAgainExactlyIfUnrecorded`
  says that this is the only way.
- Terminal statuses are not absorbing when commands interleave: a cancellation writes by id
  alone, so it can overwrite a trigger that landed after its read.
  `CancelCanOverwriteTrigger` is such a run, `TerminalIsFinalExactlyWithoutOpenCancel` says
  exactly when a status is final, and `TerminalIsAbsorbing` covers whole commands. The same
  holds of time-weighted orders: `CancelCanOverwriteCompletion` is a run in which a fully
  announced order ends up cancelled, `EndedIsFinalExactlyWithoutOpenCancel` the exact condition.
- A quote dated in a later session passes the freshness check (`PostDatedQuoteCanTrigger`);
  `TriggeringQuoteIsCurrent` says exactly which triggering quotes are of the current session.
- A planner request made in session may ask for slices in the past: `SliceCanBeInThePast` is
  one, and `NoSliceInThePast` says exactly when there are none.
- An ended time-weighted order may still send a price follow-up, also after its account was
  disabled: `DisabledOrderCanSpeak` is such a run, and `EndedOrderSpeaksExactlyWhileWaiting` says
  exactly when.
- The rate limiter's bound needs a clock that does not go back: `BackwardClockBreaksBound` is a
  run that breaks it, and `BoundHoldsExactlyForForwardClocks` gives the exact condition. On
  windows that do not end before they began not every step back does harm
  (`SomeDetoursDoNotPay`); `ForwardWindowsFitExactlyIfNoDetourPays` says which do.

## Model

| member | source | states |
|---|---|---|
| `DecimalText.ParseInvertsFormat` | src/app/domain/price.py:8-17 | for a positive decimal of any exponent the printed text is in fixed-point form, and reading it back gives exactly the value printed |
| `DecimalText.EqualValuesPrintAlike` | src/app/domain/price.py:8-17 | decimals of equal value print alike, whatever exponents they are written with |
| `DecimalText.FormatIsCanonical` | src/app/domain/price.py:8-17 | printed texts are equal if and only if the values are |
| `Price.RoundDownInTable` | src/app/domain/price.py:115-146 | in any tick table whose limits are multiples of the ticks on both sides, rounding down by the price's own tick lands on the grid, stays in the band and is the greatest grid price not above |
| `Price.RoundUpInTable` | src/app/domain/price.py:148-153 | in any such table, rounding up, even across a limit into a coarser band, gives the least grid price not below |
| `Price.StockTableAligned` | src/app/domain/price.py:22-30 | the stock table's limits are multiples of the ticks on both sides |
| `Price.EtfTableAligned` | src/app/domain/price.py:32-36 | the same of the ETF table |
| `Price.TicksOfTheExchange` | src/app/domain/price.py:22-36 | the tick of every price, band by band, for stocks and for ETFs |
| `Price.LegalExactly` | src/app/domain/price.py:132-136 | a price is legal if and only if it is a positive whole number of its band's ticks |
| `Price.NearestLowerIsGreatestLegal` | src/app/domain/price.py:138-146 | the result is a legal price and no legal price lies between it and the input, over all bands; it is above the input exactly when the input is below the smallest tick, and is then that tick |
| `Price.NearestUpperIsLeastLegal` | src/app/domain/price.py:148-153 | for every positive price the result is the least legal price not below, over all bands |
| `Price.RoundingIsMonotone` | src/app/domain/price.py:138-158 | neither rounding reorders prices, on either side of a band limit |
| `Price.FixedPointsAreLegal` | src/app/domain/price.py:132-153 | a price is legal if and only if rounding down leaves it alone, and if and only if rounding up does |
| `Price.RejectedPriceIsBracketed` | src/app/domain/price.py:187-211 | a price is accepted exactly when it is legal with a positive amount; a rejected one above the smallest tick lies strictly between its suggestions, which are legal with no legal price between them; below the smallest tick both suggestions are that tick |
| `TradingSession.NextWeekday` | src/app/domain/trading_session.py:121-126 | the loop ends at the least trading day after the given day |
| `TradingSession.SessionHours` | src/app/domain/trading_session.py:52-75 | an instant is in session if and only if it lies on Monday to Friday from nine until before half past one; before nine on such a day it is pre-market |
| `TradingSession.ExpiresExactlyAtClose` | src/app/domain/trading_session.py:102-110 | the intents of a trading day are past the cutoff if and only if its session has closed |
| `TradingSession.TradingDateFollowsCutoff` | src/app/domain/trading_session.py:80-110 | at every instant a new intent's date is the least trading day after the expiry cutoff; it starts active exactly when that date is today and its session is open |
| `TradingSession.DatesAreMonotone` | src/app/domain/trading_session.py:80-110 | neither the trading date nor the cutoff moves back as time passes |
| `TradingSession.OpenAndUnexpiredIsToday` | src/app/domain/trading_session.py:102-110 | within one night of an instant in session, a date that has opened and is beyond the cutoff is that instant's own day |
| `QuoteEvaluation.TriggersExactlyOnCondition` | src/app/domain/quote_evaluation.py:58-224 | for every strategy a trigger happens if and only if the quote is accepted and the watched side (last when it is missing) meets the condition; it is recorded at that price, as a fallback exactly when the watched side is missing |
| `QuoteEvaluation.TriggersExactlyOnTerms` | src/app/domain/quote_evaluation.py:58-224 | a quote triggers if and only if it is usable and meets the intent's terms, written out on ask, bid and last for each strategy |
| `QuoteEvaluation.AcceptedExactlyIfUsable` | src/app/domain/quote_evaluation.py:58-92 | a quote passes the checks if and only if both clocks are in session, it is at most ten seconds old, its prices are positive and in order, and it has one |
| `QuoteEvaluation.SkipTellsWhy` | src/app/domain/quote_evaluation.py:58-224 | the reason given for not triggering is true |
| `QuoteEvaluation.OfferedExactly` | src/app/domain/quote_evaluation.py:226-232 | a usable quote offers as a new high its last price, or else the price midway between bid and ask, or none |
| `QuoteEvaluation.TriggeringQuoteIsCurrent` | src/app/domain/quote_evaluation.py:58-65 | for every trigger: evaluation and quote are both in session, the quote is never stale and never of an earlier day, and it is of the very same session if and only if it is not dated after the day |
| `QuoteEvaluation.PostDatedQuoteCanTrigger` | src/app/domain/quote_evaluation.py:58-65 | every quote dated in any later session triggers a market order, at every instant in session |
| `QuoteEvaluation.StopIsLegalAndBelow` | src/app/domain/quote_evaluation.py:235-244 | the stop is a legal positive price, strictly below the baseline if and only if the baseline is above the smallest tick |
| `QuoteEvaluation.StopIsGreatestFarEnough` | src/app/domain/quote_evaluation.py:235-244 | the stop is the greatest legal price at least the asked-for percentage, or amount, below the baseline, or the smallest tick when there is none |
| `QuoteEvaluation.StopIsUnique` | src/app/domain/quote_evaluation.py:235-244 | no other price is |
| `QuoteEvaluation.StopsOutExactly` | src/app/domain/quote_evaluation.py:171-244 | a tick stops out if and only if it is usable and its bid, or else last, is at or below the stop for the best price offered so far |
| `QuoteEvaluation.StopIsMonotone` | src/app/domain/quote_evaluation.py:235-244 | a higher baseline never gives a lower stop |
| `QuoteEvaluation.NewHighWithoutBid` | src/app/domain/quote_evaluation.py:180-217 | a new high seen without a bid fires by the last-price fallback if and only if it is no more than the smallest tick |
| `QuoteEvaluation.TrailingTriggerHasBaseline` | src/app/commands/trigger_intent_core.py:112-141 | baseline and stop are always set together, so the errors for a missing one cannot arise |
| `QuoteEvaluation.StepTracksHistory` | src/app/domain/quote_evaluation.py:171-224 | if the stored values are those of the history, they are again after one more quote, and it fires exactly if it stops out against the extended history |
| `QuoteEvaluation.TrailingMatchesHistory` | src/app/domain/quote_evaluation.py:171-244 | for any quotes, the stored baseline is the maximum reference price of the accepted ones, the stop is the greatest legal price far enough below it, and the intent fires at exactly the first quote that stops out against the whole history |
| `QuoteEvaluation.StopNeverFalls` | src/app/domain/quote_evaluation.py:184-187 | along any run the stop is positive, never decreases, and stays below the baseline whenever the baseline is above the smallest tick |
| `IntentTable.Table.ExpireThrough` | src/app/repositories/trade_intent_core_repository.py:492-511 | live intents dated up to the cutoff become expired, all else is unchanged, and their number is returned |
| `IntentTable.Table.ActivateScheduled` | src/app/repositories/trade_intent_core_repository.py:476-490 | scheduled intents of the date become active, all else is unchanged, and their number is returned |
| `IntentTable.Table.CancelForOwner` | src/app/repositories/trade_intent_core_repository.py:513-528 | the owner's live intents end as cancelled by account, all else is unchanged |
| `IntentTable.Table.Cancel` | src/app/repositories/trade_intent_core_repository.py:269-297 | cancels a live intent of the owner, does nothing to a cancelled one, refuses the rest |
| `IntentTable.Table.UpdateTrailingBaseline` | src/app/repositories/trade_intent_core_repository.py:299-330 | succeeds exactly for a trailing row, whatever its status; that row takes both values, and no other row or field changes |
| `IntentTable.Table.PersistTrigger` | src/app/commands/trigger_intent_core.py:67-198 | status, trigger row and notification change together, or nothing does and the reason is given |
| `IntentTable.Table.ListActive` | src/app/repositories/trade_intent_core_repository.py:342-353 | the listing holds each active intent on the symbol once and no other |
| `IntentTable.Table.RunLifecycle` | src/app/commands/intent_lifecycle.py:38-52 | expiry through the cutoff, then activation of today's intents when in session |
| `IntentTable.Table.ProcessListed` | src/app/services/quote_dispatcher_core.py:81-107 | one intent's turn: baseline write-back, then the savepointed trigger |
| `IntentTable.Table.Dispatch` | src/app/services/quote_dispatcher_core.py:66-109 | lifecycle, listing and the loop over it; a fault undoes the loop but not the lifecycle |
| `IntentTable.Table.Create` | src/app/commands/trade_intent_core.py:115-201 | validation, caps, duplicate check, insert, subscription and inline trigger, all or nothing |
| `IntentProtocol.PersistKeepsSound` | src/app/commands/trigger_intent_core.py:166-198 | a guarded trigger keeps: at most one trigger row per intent, as many notifications as rows, no live intent with a row, and the triggered status only with its row |
| `IntentProtocol.ActiveHasNoTrigger` | src/app/commands/trigger_intent_core.py:166-198 | in a sound table an active intent has no trigger row, so the guard on the status already rules out a second one |
| `IntentProtocol.EveryInterleavingIsSound` | src/app/services/quote_dispatcher_core.py:80-109 | soundness holds after every interleaving of triggers, baseline writes, expiries, activations, account disables, inserts and the two halves of cancellations |
| `IntentProtocol.TriggeredForGood` | src/app/commands/trigger_intent_core.py:166-198 | in every interleaving an intent with a trigger row keeps exactly that one and one notification, and is never live again |
| `IntentProtocol.TerminalIsFinalExactlyWithoutOpenCancel` | src/app/repositories/trade_intent_core_repository.py:275-291 | a terminal status survives every continuation if and only if no cancellation of that intent stands between its read and its write, or the status is already cancelled |
| `IntentProtocol.CancelCanOverwriteTrigger` | src/app/repositories/trade_intent_core_repository.py:275-291 | a reachable run in which a cancellation overwrites a trigger |
| `IntentRuns.ClashIsNumeric` | src/app/repositories/trade_intent_core_repository.py:41-62 | two requests have equal duplicate keys if and only if they ask for numerically the same thing |
| `IntentRuns.DuplicateCheckIsNumeric` | src/app/repositories/trade_intent_core_repository.py:195-214 | a request is refused as a duplicate if and only if a live intent asks for numerically the same thing |
| `IntentRuns.CreateKeepsInvariant` | src/app/commands/trade_intent_core.py:115-201 | creation keeps the run invariant (soundness, fitting parameters, justified triggers, no duplicates, caps) and never faults in its inline trigger |
| `IntentRuns.TurnKeepsInvariant` | src/app/services/quote_dispatcher_core.py:81-107 | an intent's turn never faults, keeps the invariant, and the intent ends triggered, with one more trigger row, if and only if the evaluation said so |
| `IntentRuns.ListedAreToday` | src/app/services/quote_dispatcher_core.py:69-76 | what the lifecycle update leaves active in session carries that session's date |
| `IntentRuns.DispatchKeepsInvariant` | src/app/services/quote_dispatcher_core.py:66-109 | a whole dispatch keeps the invariant, never faults, and triggers exactly the listed intents whose evaluation said so |
| `IntentRuns.EveryRunKeepsInvariant` | src/app/services/quote_dispatcher_core.py:66-109 | the invariant holds in every state of every run from an empty table |
| `IntentRuns.TriggersHappenInOwnSession` | src/app/commands/intent_lifecycle.py:38-52 | in every run each trigger happened inside the session of its intent's trading date, on a quote that was not stale; the quote is of that date too if and only if it is not dated after it |
| `IntentRuns.NoTwoLiveAlike` | src/app/repositories/trade_intent_core_repository.py:195-258 | no run holds two live intents of one owner, symbol, strategy, quantity, date and numerically equal parameters |
| `IntentRuns.TerminalIsAbsorbing` | src/app/repositories/trade_intent_core_repository.py:269-293 | with whole commands as steps no terminal status ever changes |
| `TrailingRuns.TurnEffect` | src/app/services/quote_dispatcher_core.py:81-107 | one evaluation changes exactly the intent's own row, to the judged baseline, stop and status, and adds exactly the trigger row and the notification it calls for |
| `TrailingRuns.LoopKeepsHistory` | src/app/services/quote_dispatcher_core.py:80-109 | the dispatch loop gives each listed intent the quote once and leaves the history of every other alone |
| `TrailingRuns.TrailingRowsFollowTheirQuotes` | src/app/services/quote_dispatcher_core.py:66-109 | in every run of all commands a trailing intent's baseline is the highest price offered by the quotes evaluated for it since its creation and its stop the greatest legal price far enough below that; it has a trigger row if and only if one of them stopped out against all before it, which was the first to do so, the last it saw, and the one recorded |
| `IntentOutcomes.LifecycleIsExact` | src/app/commands/intent_lifecycle.py:38-52 | a live intent is expired exactly from its session's close on and active exactly from its opening on; nothing else changes |
| `IntentOutcomes.DispatchFiresExactly` | src/app/services/quote_dispatcher_core.py:66-109 | in every state of every run a dispatch that is not halted triggers an intent, scheduled or active, if and only if it is live, on the symbol, in its open session, and the quote is usable and meets its terms; any other is left to the clock; the trigger is recorded once with one notification of the right kind |
| `IntentOutcomes.HaltedDispatchIsSilent` | src/app/services/quote_dispatcher_core.py:66-68 | a halted dispatch changes nothing |
| `IntentOutcomes.TriggerTells` | src/app/commands/trigger_intent_core.py:81-165 | a trigger row tells quote time, evaluation time, lots, the price and side it fired on, whether that was a fallback, and the level it was held to; the notification is of the strategy's kind |
| `IntentOutcomes.PersistIsExact` | src/app/commands/trigger_intent_core.py:166-198 | a trigger goes through if and only if the intent is active and has no trigger row, and then status, row and notification are written together |
| `IntentOutcomes.CreateSucceedsExactly` | src/app/commands/trade_intent_core.py:115-201 | a request is accepted if and only if its symbol is known, its parameters fit its strategy (a legal price, a trail on its tick and in range, nothing stray), the caps have room, no live intent asks for the same, and the subscription was made |
| `IntentOutcomes.RefusalTellsWhy` | src/app/commands/trade_intent_core.py:115-201 | the reason given for a refusal is true |
| `IntentOutcomes.CreateStoresRequest` | src/app/commands/trade_intent_core.py:115-247 | an accepted request is stored as asked, for the next session, beside unchanged rows; scheduled outside a session, and inside triggered at once if and only if not halted and the quote at hand is usable and meets its terms |
| `IntentOutcomes.CancelIsExact` | src/app/repositories/trade_intent_core_repository.py:269-297 | exactly a live intent of the owner is cancelled and nothing else changes; the answer tells a foreign or missing intent, one already cancelled and one that ended otherwise apart |
| `IntentOutcomes.DisableIsExact` | src/app/repositories/trade_intent_core_repository.py:513-528 | exactly the owner's live intents end when the account is disabled |
| `TwapPlan.AllocateSlices` | src/app/domain/twap.py:268-288 | the loop of rounded-up shares yields exactly the closed form: q / n lots each, one more for the first q mod n |
| `TwapPlan.SpreadIsFair` | src/app/domain/twap.py:268-288 | the closed form gives out all lots, at least one a slice, never increasing and differing by at most one |
| `TwapPlan.BuildPlan` | src/app/domain/twap.py:186-259 | the planner's checks in order, and the plan they lead to |
| `TwapPlan.AcceptedPlanIsSound` | src/app/domain/twap.py:186-259 | an accepted plan is dated like a new intent, lies within its session, gives out exactly the target in fair shares at even times, and its available count is maximal: one more interval passes the end |
| `TwapPlan.PlanAnswersRequest` | src/app/domain/twap.py:186-259 | an accepted plan has the lots, interval, end and start asked for, or else starts at the first whole second neither past nor before the opening, in the next session |
| `TwapPlan.PlanAcceptedExactly` | src/app/domain/twap.py:186-259 | a request is accepted if and only if it keeps the limits on interval, lots and hours, a second slice is due by its end, and it takes at most 200 slices |
| `TwapPlan.PlanRefusalTellsWhy` | src/app/domain/twap.py:186-259 | the reason given for refusing a request is true, counts included |
| `TwapPlan.NoSliceInThePast` | src/app/domain/twap.py:215-229 | no slice is due before now if and only if the plan was not made in session with a start time already past |
| `TwapPlan.SliceCanBeInThePast` | src/app/domain/twap.py:215-229 | an accepted plan whose first slice lies before now |
| `TwapTable.Table.CreateTwap` | src/app/repositories/intent_repository.py:207-273 | the order and all its slices are stored, or nothing when a live plan of the kind exists |
| `TwapTable.Table.ExpireThrough` | src/app/repositories/intent_repository.py:307-338 | live orders up to the cutoff expire and take their pending slices with them |
| `TwapTable.Table.ActivateScheduled` | src/app/repositories/intent_repository.py:291-305 | exactly the scheduled orders of the date change, only in status, to active, and their number is returned |
| `TwapTable.Table.Cancel` | src/app/repositories/intent_repository.py:459-513 | cancelling a live order drops its pending slices and stops its follow-ups |
| `TwapTable.Table.CancelForOwner` | src/app/repositories/intent_repository.py:575-588 | exactly the owner's live orders change, none of the owner's is live afterwards, slices stay, and the changed ones are counted |
| `TwapTable.Table.ProcessDueSlice` | src/app/commands/twap.py:230-270 | one slice is notified with its price or a follow-up planned, the order turns active, and triggered when nothing is pending |
| `TwapTable.Table.ProcessFollowup` | src/app/commands/twap.py:272-307 | one follow-up attempt: sent, retried later, or given up at the limit |
| `TwapTable.Table.ProcessDueSlices` | src/app/commands/twap.py:157-175 | lifecycle, then the whole batch when in session and not halted |
| `TwapTable.Table.ProcessPriceFollowups` | src/app/commands/twap.py:177-194 | the same for follow-ups |
| `TwapRuns.NotifyKeepsInvariant` | src/app/commands/twap.py:230-270 | notifying one ripe slice keeps the book invariant, and an order with work left stays live |
| `TwapRuns.DuePassKeepsInvariant` | src/app/commands/twap.py:157-210 | a pass over any choice of due rows keeps the invariant |
| `TwapRuns.FollowupPassKeepsInvariant` | src/app/commands/twap.py:177-228 | a pass over any choice of follow-up rows keeps the invariant |
| `TwapRuns.CreateKeepsInvariant` | src/app/repositories/intent_repository.py:207-273 | storing an accepted plan keeps the invariant |
| `TwapRuns.LotsAreConserved` | src/app/commands/twap.py:309-322 | in every run pending, notified and dropped lots add up to the target; a triggered order has notified exactly its target, each slice once; a live order has a pending slice and none dropped |
| `TwapRuns.NotifiedOnceAndInTime` | src/app/commands/twap.py:196-270 | in every run a slice is notified at most once, in the session of its order's date, never before it is due, with at most one follow-up |
| `TwapEndings.EndedOrderStaysEnded` | src/app/commands/twap.py:196-210 | in every run an order that has ended keeps its status, and not one more of its slices is notified |
| `TwapEndings.EndedOrderSpeaksExactlyWhileWaiting` | src/app/commands/twap.py:212-228 | a slice of an ended order can still send a follow-up if and only if it waits for its price and its order was not cancelled by the owner |
| `TwapEndings.DisabledOrderCanSpeak` | src/app/commands/twap.py:212-228 | a run from the empty book that plans an order, announces a slice without a price and disables the account, and a continuation that then still sends the follow-up |
| `TwapEndings.NoTwoLivePlansAlike` | src/app/repositories/intent_repository.py:207-273 | in every run two live orders never share owner, symbol, side and date |
| `TwapOutcomes.OrdersAnswerRequests` | src/app/repositories/intent_repository.py:207-273 | in every run every order is some owner's request, in the slices planned for it, and its pending, notified and dropped lots add up to just the quantity asked for |
| `TwapOutcomes.NoticeIsExact` | src/app/commands/twap.py:230-270 | one announcement sends one message, marks just this slice with its price or a follow-up ten seconds on, and triggers the order if and only if no other slice is pending |
| `TwapOutcomes.FollowupIsExact` | src/app/commands/twap.py:272-307 | a follow-up is sent once the price is there, tried again ten seconds later, and given up at the third miss |
| `TwapOutcomes.DuePassIsExact` | src/app/commands/twap.py:157-175 | a worker pass announces exactly the slices it picked, once each, if and only if the session is on and triggers are not halted; every other slice is left to the clock |
| `TwapOutcomes.FollowupPassIsExact` | src/app/commands/twap.py:177-194 | a follow-up pass tries exactly the slices it picked, once each, if and only if the session is on and triggers are not halted |
| `TwapOutcomes.TwapLifecycleIsExact` | src/app/repositories/intent_repository.py:291-338 | a live order expires exactly from its close on, with its pending slices, and is active exactly from its opening on |
| `TwapOutcomes.TwapCancelIsExact` | src/app/repositories/intent_repository.py:459-513 | exactly the owner's live order is cancelled, with its pending slices and outstanding follow-ups; what was announced stays announced |
| `TwapOutcomes.TwapCreateIsExact` | src/app/repositories/intent_repository.py:207-273 | a plan is stored if and only if its owner has no live one for the symbol, side and date |
| `TwapProtocol.UninterruptedCancelIsAtomic` | src/app/repositories/intent_repository.py:459-513 | read and written in one go, the two halves of a cancellation are the whole command |
| `TwapProtocol.LotsAreConservedInEveryInterleaving` | src/app/repositories/intent_repository.py:459-513 | however late cancellations write, lots add up to the target, a triggered order has notified all of it once, and a live order has work left and nothing dropped |
| `TwapProtocol.NotifiedOnceInEveryInterleaving` | src/app/commands/twap.py:196-270 | however late cancellations write, a slice is notified at most once, in its own session and never early |
| `TwapProtocol.EndedIsFinalExactlyWithoutOpenCancel` | src/app/repositories/intent_repository.py:466-483 | an ended order keeps its status through every continuation if and only if no cancellation of it stands between its read and its write, or it is cancelled already |
| `TwapProtocol.CancelCanOverwriteCompletion` | src/app/repositories/intent_repository.py:466-483 | a run in which an order that announced every slice and triggered ends up cancelled |
| `Pagination.KeysetIsOrder` | src/app/repositories/trade_intent_core_repository.py:424-462 | in both orderings the keyset condition after an anchor holds of exactly the rows the ORDER BY puts after it |
| `Pagination.SelectedIsExact` | src/app/repositories/trade_intent_core_repository.py:415-462 | a selection is in strict order and holds exactly the rows of the filter beyond the anchor |
| `Pagination.StorageOrderIsInvisible` | src/app/repositories/trade_intent_core_repository.py:424-431 | the order is total, so the list depends only on the rows and not on how they are stored |
| `Pagination.CursorContinuesList` | src/app/repositories/trade_intent_core_repository.py:433-470 | with the k-th row as cursor the page is the next stretch of the whole list, and it names its own last row as cursor exactly when more follows |
| `Pagination.CursorRefusedExactly` | src/app/repositories/trade_intent_core_repository.py:433-442 | a cursor is refused if and only if it names no row of the owner |
| `Pagination.WalkPages` | src/app/repositories/trade_intent_core_repository.py:399-470 | following the cursors ends and yields exactly the rows asked for, each once, latest change first if only ended statuses were asked for and otherwise by date and newest first, in the number of pages their count asks for |
| `TelegramDesk.Table.MarkStatus` | src/app/repositories/telegram_intent_repository.py:152-163 | changes only the named row, only its status, exactly if it was pending in that chat, and says so |
| `TelegramDesk.Table.ClaimConfirming` | src/app/repositories/telegram_intent_repository.py:165-186 | a claim succeeds exactly on a pending row of the chat, changes only its status, and makes every later claim on it fail |
| `TelegramDesk.Table.MarkConfirmed` | src/app/repositories/telegram_intent_repository.py:188-212 | succeeds exactly on a confirming row of the chat, which then is confirmed and names its intent; no other row changes |
| `TelegramDesk.Table.Save` | src/app/commands/telegram_intent.py:284-337 | refreshes the pending row or inserts a new one, which the unique index may refuse |
| `TelegramDesk.Table.HandleMessage` | src/app/commands/telegram_intent.py:88-163 | the table and the reply after a message, or no trace when the insert is refused |
| `TelegramDesk.Table.Deliver` | src/app/api/routes/telegram.py:153-172 | only the interaction the reply names can change, only in its message number, and only when a new message was sent |
| `TelegramDesk.Table.HandleCallback` | src/app/commands/telegram_intent.py:165-245 | only the pending row whose button was pressed in its own message can change; it is confirmed only by the intent that was made and left confirming only by a failed read; table and reply for every way creation can end |
| `TelegramRuns.SameRequestKeepsTerms` | src/app/commands/telegram_intent.py:257-282 | a decision let through onto a draft repeats its capability, symbol, quantity and numeric price |
| `TelegramRuns.UnopposedIsGood` | src/app/commands/telegram_intent.py:354-406 | a decision without objection makes a payload that converts to an input the create command's parameter checks accept |
| `TelegramRuns.CreateCarriesInput` | src/app/commands/trade_intent_core.py:115-201 | a created intent asks for what its input said, and no other intent's request changes |
| `TelegramRuns.StepKeepsInvariant` | src/app/commands/telegram_intent.py:88-245 | each commit, crash or outside command keeps: one open interaction a chat, sound drafts, confirmations linked to intents, and the invariant of the intent table |
| `TelegramRuns.OneIntentPerConfirmation` | src/app/commands/telegram_intent.py:211-245 | in every run, crashes included, an interaction is confirming or confirmed if and only if an intent was created for it; there is just one, it asks for what the draft shows, no other interaction has it, and a confirmed one names it |
| `TelegramRuns.DraftsAreSoundAndAlone` | src/app/commands/telegram_intent.py:475-499 | in every run a chat has at most one open interaction and every stored draft converts to a valid create input |
| `TelegramRuns.DraftNeverChanges` | src/app/commands/telegram_intent.py:257-282 | from the moment it is a draft an interaction keeps its capability, symbol, quantity and numeric price |
| `TelegramRuns.FailedReadStrands` | src/app/commands/telegram_intent.py:217-225 | a failed read after the create commit leaves the interaction confirming with no request to finish it |
| `TelegramRuns.StrandedIsReached` | src/app/commands/telegram_intent.py:217-225 | a run from the empty desk that ends so: a draft, a press, a failed read |
| `TelegramRuns.ErrorKeepsDraftExactlyIfNotCreated` | src/app/commands/telegram_intent.py:217-225 | after a press answered with the error reply the draft is still pending if and only if it is not the case that the intent was committed and only the read after it failed; an intent was created in that case alone |
| `TelegramRuns.JobConfirms` | src/app/repositories/telegram_intent_repository.py:188-212 | a second commit that does run on a confirming interaction confirms it with the intent created for it |
| `TelegramRuns.ConfirmationEndsExactlyIfAwaited` | src/app/commands/telegram_intent.py:227-245 | a confirming interaction can leave that state in some continuation if and only if a request is on its way to confirm it |
| `TelegramRuns.LostConfirmationBlocksChat` | src/app/commands/telegram_intent.py:96-104 | such an interaction stays confirming in every later run and its chat has no other open one |
| `TelegramRuns.UninterruptedCallbackIsServed` | src/app/commands/telegram_intent.py:211-245 | with nothing between its commits the two-step confirmation is the whole callback |
| `TelegramOutcomes.IntentDoesWhatWasShown` | src/app/domain/telegram_intent.py:17-29 | in every run the intent created for an interaction is on the symbol and lots it shows, and a quote triggers it if and only if it is usable and meets the terms on display: buy at the price or less, sell at it or more, or at any price |
| `TelegramOutcomes.UnopposedExactlyIfComplete` | src/app/commands/telegram_intent.py:354-381 | a request meets no objection if and only if it is complete: digits for a symbol that can be traded, lots, and a legal price exactly for a limit |
| `TelegramOutcomes.DraftYieldsExactlyToItself` | src/app/commands/telegram_intent.py:257-282 | a complete request is let through onto a draft if and only if it repeats it |
| `TelegramOutcomes.QuestionYieldsExactlyToItsOrder` | src/app/commands/telegram_intent.py:257-282 | an open question is answered by anything about the same order and by nothing else |
| `TelegramOutcomes.MessageToIdleChat` | src/app/commands/telegram_intent.py:88-163 | where nothing is open a request becomes a new row showing it for five minutes, and any other message leaves no trace |
| `TelegramOutcomes.MessageToOpenChat` | src/app/commands/telegram_intent.py:88-163 | an open row is renewed for five minutes, with the values supplied, if and only if it is pending and the message is a request that may complete or repeat it |
| `TelegramOutcomes.MessageAfterExpiry` | src/app/commands/telegram_intent.py:105-107 | a row that has run out is closed as expired and the message starts afresh |
| `TelegramOutcomes.ConfirmIsExact` | src/app/commands/telegram_intent.py:165-210 | a press goes ahead if and only if it is the confirm button of a pending draft of the configured chat, in its own message, before it runs out |
| `TelegramOutcomes.CancelButtonIsExact` | src/app/commands/telegram_intent.py:194-198 | a pending row is cancelled exactly by its cancel button, and until it runs out no other answered press changes it |
| `TelegramOutcomes.PressIsAnsweredByState` | src/app/commands/telegram_intent.py:177-197 | a press is answered by the state of its row, which is closed as expired if it has run out, and a press outside the row's own message is not answered |
| `TelegramOutcomes.DuplicateEndsOnlyPending` | src/app/commands/telegram_intent.py:219-221 | after a duplicate only a row still pending is marked cancelled, and nothing else changes |
| `KillSwitch.KillSwitchProvider.IsHalted` | src/app/services/kill_switch.py:42-51 | answers from the cache while it is fresh, otherwise with the flag, which it then keeps for the lifetime counted from the clock reading |
| `KillSwitch.KillSwitchProvider.Invalidate` | src/app/services/kill_switch.py:53-60 | the cache is empty afterwards |
| `KillSwitch.Switch.Set` | src/app/commands/kill_switch.py:39-64 | a failed commit leaves flag and cache alone; otherwise the next answer at any time is the new flag |
| `KillSwitch.AnswersAreRecent` | src/app/services/kill_switch.py:42-60 | for every interleaving, also with the flag changed directly in the database, a returned value was the flag at a moment less than the lifetime before the call's clock reading and not before the last invalidation |
| `KillSwitch.StaleOnlyDuringToggle` | src/app/commands/kill_switch.py:39-64 | when the flag changes only by command, a cached or returned value differs from it only while some toggle has committed and not yet invalidated |
| `KillSwitch.StaleAnswerExactlyIfHeld` | src/app/services/kill_switch.py:42-60 | from any reachable world, with the flag left alone from then on, a call can still answer wrongly if and only if a cache not yet timed out or the call holding the lock has the other value; with changes by command only, a toggle is then under way |
| `KillSwitch.ToggleUnderWayIsNotSeen` | src/app/commands/kill_switch.py:54-64 | that exception is real: a run in which a committed toggle is answered with the old flag |
| `KillSwitch.UninterruptedCallIsAtomic` | src/app/services/kill_switch.py:42-51 | the steps of a call that nothing interrupts return and store what the provider's method does |
| `RateLimiter.Limiter.Consume` | src/app/core/rate_limiter.py:35-80 | the decision and the stored bucket of one key, other keys untouched |
| `RateLimiter.Limiter.Reset` | src/app/core/rate_limiter.py:82-85 | the next request under the key meets a full bucket, whatever the rule and the time; other keys are as before |
| `RateLimiter.RefillComposes` | src/app/core/rate_limiter.py:26-28 | filling twice is filling once for the whole time |
| `RateLimiter.RefusalsNeverDelay` | src/app/core/rate_limiter.py:57-70 | after any number of refused attempts every later level is what it would have been without them |
| `RateLimiter.WindowIsBounded` | src/app/core/rate_limiter.py:35-80 | in every run with a clock that never goes back, the cost allowed in any window is at most the capacity plus the rate times its length |
| `RateLimiter.BackwardClockBreaksBound` | src/app/core/rate_limiter.py:57-70 | a run with a clock that goes back in which more than a full bucket passes in no time |
| `RateLimiter.BoundHoldsExactlyForForwardClocks` | src/app/core/rate_limiter.py:35-80 | for any readings of the clock, the bound holds on every window for all costs if and only if the readings never go back or nothing ever flows in |
| `RateLimiter.WorstCaseIsExact` | src/app/core/rate_limiter.py:26-80 | for any readings of the clock, forward or back, the most a window can be granted is the capacity and the capped inflow between neighbouring readings: never more, and for some costs just that |
| `RateLimiter.ForwardWindowsFitExactlyIfNoDetourPays` | src/app/core/rate_limiter.py:35-80 | on windows that do not end before they began the bound holds for all costs if and only if the capped inflow along the readings never exceeds the inflow of the direct way |
| `RateLimiter.SomeDetoursDoNotPay` | src/app/core/rate_limiter.py:26-28 | readings that go back and yet let no such window exceed its bound |
| `RateLimiter.RetryAfterIsExact` | src/app/core/rate_limiter.py:72-80 | after a refusal the same request is allowed after a wait if and only if it costs no more than the capacity and the wait is at least the one announced |
| `RefreshTokens.TokenTable.Refresh` | src/app/commands/auth.py:290-353 | the tokens after a refresh and the new token or the refusal, for every way it can go |
| `RefreshTokens.TokenTable.Revoke` | src/app/repositories/refresh_token_repository.py:79-86 | the token ends revoked with the first reason ever given; no other token and no other field changes |
| `RefreshTokens.TokenTable.RevokeAllActive` | src/app/repositories/refresh_token_repository.py:88-98 | exactly the user's live tokens are revoked, and counted |
| `RefreshTokens.CommandKeepsChained` | src/app/commands/auth.py:290-353 | every command keeps parents before children, of the same user, and exactly the rotated tokens with one child each |
| `RefreshTokens.FamilyIsPath` | src/app/commands/auth.py:110-157 | two tokens of one login lie on one path in order of issue |
| `RefreshTokens.EveryRunFormsPaths` | src/app/commands/auth.py:290-353 | in every run a token is revoked as rotated if and only if it has a child, it has one at most, the tokens of a login form one path, and a login has at most one live token |
| `RefreshTokens.LiveTokenEndsItsFamily` | src/app/commands/auth.py:331-342 | a live token is the last of its login's tokens |
| `RefreshTokens.RefreshPassesTheLoginOn` | src/app/commands/auth.py:290-353 | a refresh succeeds if and only if the token is live, unexpired, of an active user and the CSRF pair matches; the new token then continues the same login, user and second-factor state for a full lifetime, the old one is revoked, all other tokens are as before, and any refusal but reuse changes nothing |
| `RefreshTokens.ReplayRevokesUser` | src/app/commands/auth.py:302-322 | presenting a rotated token leaves its user with no live token and other users' tokens alone |
| `RefreshTokens.LogoutIsExact` | src/app/commands/auth.py:372-396 | a logout with a matching pair leaves the presented token revoked, and changes nothing else |
| `RefreshTokens.LoginIsExact` | src/app/commands/auth.py:110-157 | a login adds one live token that starts a family of its own |
| `Idempotency.MemoTable.Run` | src/app/services/idempotency.py:49-92 | the response and the stored record of one request, whether the command answers, raises, or completes without its record being stored |
| `Idempotency.MemoTable.DeleteExpired` | src/app/repositories/idempotency_repository.py:70-76 | exactly the expired records go, and are counted |
| `Idempotency.CleanupIsInvisible` | src/app/repositories/idempotency_repository.py:67-76 | wherever cleanups are inserted in a run of requests, every response is as without them |
| `Idempotency.FirstRequestRuns` | src/app/services/idempotency.py:66-92 | with no record that still counts the command is called; its answer is returned and kept for 24 hours, a failure is not, and other keys are untouched |
| `Idempotency.RetriesReplay` | src/app/services/idempotency.py:61-66 | in any run, for 24 hours after a completion whose record was stored the same request under its user and key gets the stored response, a different one a conflict, and neither runs the command |
| `Idempotency.CloseCompletionsWereUnrecorded` | src/app/services/idempotency.py:59-92 | in any run with a clock that never goes back two completions under one user and key are at least 24 hours apart, unless the record of the first was not stored |
| `Idempotency.RunsAgainExactlyIfUnrecorded` | src/app/services/idempotency.py:71-83 | after any completion in any run, the command can complete again within 24 hours under its user and key if and only if the record of the first was not stored |
| `Idempotency.CommandCanRunTwiceInADay` | src/app/services/idempotency.py:71-83 | a run in which a lost record lets the same request run the command twice |

## Left out

- HTTP routes, dependency wiring, error envelopes, request schemas and migrations: plumbing settled by single branches.
- The broker client, the Bot API, the message classifier, mail, JWT, password hashing, encryption and one-time codes: foreign code.
- Wording of notifications and replies: a notification is its kind and its intent, a reply its kind and what it refers to.
- The older create, trigger and dispatch commands: they repeat the newer ones; of that track only what time-weighted orders need is modelled.
- Whether every live intent's symbol stays subscribed: the count of remaining intents looks at one track only, so this is not claimed.
- Concurrent first use of one idempotency key, which may run the command twice as its module documents; requests here come one after another.
- Floating-point error in the rate limiter and in the cache's clock: both use exact numbers.
- Creation caps of time-weighted orders: the same counts as for the modelled intents.
- Concurrent refreshes of one token: each refresh is one step.
- The order of a dispatcher's UPDATE and INSERT inside its savepoint: both orders leave the same table, and the savepoint is one step.
- Symbols in chat are strings of the digits 0 to 9; other Unicode digits are not considered.
