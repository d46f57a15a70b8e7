/**
 When a quote triggers an intent (src/app/domain/quote_evaluation.py).

 The trailing stop is evaluated one quote at a time against a stored baseline and stop.
 The reference it is held to looks at the whole history of quotes instead.
 */
module QuoteEvaluation {
  import opened Outcomes
  import opened DecimalText
  import opened Price
  import opened TradingSession
  import opened Intents

  const FRESHNESS := 10 * SECOND

  datatype Skip =
    | OutsideSession | QuoteStale | BidAboveAsk | NonPositivePrice | MissingAllPrices
    | ConditionNotMet | UnsupportedStrategy

  datatype Reference = Ask | Bid | LastFallback

  datatype Evaluation = Evaluation(
    shouldTrigger: bool,
    price: Option<real>,
    reference: Option<Reference>,
    fallback: bool,
    skip: Option<Skip>,
    baseline: Option<real>,
    stop: Option<real>,
    baselineUpdatedAt: Option<Instant>)

  function Skipped(reason: Skip): Evaluation {
    Evaluation(false, None, None, false, Some(reason), None, None, None)
  }

  function Fires(price: real, reference: Reference): Evaluation {
    Evaluation(true, Some(price), Some(reference), reference.LastFallback?, None, None, None, None)
  }

  function QuoteFault(q: Quote): Option<Skip> {
    if (q.bid.Some? && q.bid.value <= 0.0) || (q.ask.Some? && q.ask.value <= 0.0) || (q.last.Some? && q.last.value <= 0.0)
    then Some(NonPositivePrice)
    else if q.bid.Some? && q.ask.Some? && q.bid.value > q.ask.value then Some(BidAboveAsk)
    else if q.bid.None? && q.ask.None? && q.last.None? then Some(MissingAllPrices)
    else None
  }

  /** The checks made before any strategy is looked at. */
  function Refusal(q: Quote, now: Instant): Option<Skip> {
    if !InSession(now) || !InSession(q.quoteTime) then Some(OutsideSession)
    else if now - q.quoteTime > FRESHNESS then Some(QuoteStale)
    else QuoteFault(q)
  }

  function EvaluateBuy(q: Quote, target: Option<Dec>): Evaluation {
    if target.None? then Skipped(UnsupportedStrategy)
    else if q.ask.Some? then
      if q.ask.value <= Value(target.value) then Fires(q.ask.value, Ask) else Skipped(ConditionNotMet)
    else if q.last.Some? && q.last.value <= Value(target.value) then Fires(q.last.value, LastFallback)
    else Skipped(ConditionNotMet)
  }

  function EvaluateSell(q: Quote, target: Option<Dec>): Evaluation {
    if target.None? then Skipped(UnsupportedStrategy)
    else if q.bid.Some? then
      if q.bid.value >= Value(target.value) then Fires(q.bid.value, Bid) else Skipped(ConditionNotMet)
    else if q.last.Some? && q.last.value >= Value(target.value) then Fires(q.last.value, LastFallback)
    else Skipped(ConditionNotMet)
  }

  function EvaluateMarketBuy(q: Quote): Evaluation {
    if q.ask.Some? then Fires(q.ask.value, Ask)
    else if q.last.Some? then Fires(q.last.value, LastFallback)
    else Skipped(ConditionNotMet)
  }

  function EvaluateMarketSell(q: Quote): Evaluation {
    if q.bid.Some? then Fires(q.bid.value, Bid)
    else if q.last.Some? then Fires(q.last.value, LastFallback)
    else Skipped(ConditionNotMet)
  }

  /** The price a quote offers as a new baseline. */
  function ReferencePrice(q: Quote): Option<real> {
    if q.last.Some? then q.last
    else if q.bid.Some? && q.ask.Some? then Some((q.bid.value + q.ask.value) / 2.0)
    else None
  }

  /** The part of the baseline a percentage trail keeps. */
  function Kept(trail: Trail): real {
    1.0 - Value(trail.value) / 100.0
  }

  function Portion(amount: real, part: real): real {
    amount * part
  }

  /** The price before rounding at which a trail below `baseline` stops out. */
  function RawStop(trail: Trail, baseline: real): real {
    match trail.mode
    case Percentage => Portion(baseline, Kept(trail))
    case FixedAmount => baseline - Value(trail.value)
  }

  function StopBelow(security: SecurityType, trail: Trail, baseline: real): real {
    NearestLower(security, RawStop(trail, baseline))
  }

  function EvaluateTrailing(q: Quote, i: Intent, now: Instant): Evaluation {
    if i.trail.None? then Skipped(UnsupportedStrategy)
    else
      var reference := ReferencePrice(q);
      var raised := reference.Some? && (i.baseline.None? || reference.value > i.baseline.value);
      var baseline := if raised then reference else i.baseline;
      var stop := if raised then Some(StopBelow(i.security, i.trail.value, reference.value)) else i.stop;
      var updated := if raised then Some(now) else None;
      if stop.None? then Evaluation(false, None, None, false, Some(ConditionNotMet), baseline, stop, updated)
      else if q.bid.Some? then
        if q.bid.value <= stop.value
        then Evaluation(true, q.bid, Some(Bid), false, None, baseline, stop, updated)
        else Evaluation(false, None, None, false, Some(ConditionNotMet), baseline, stop, updated)
      else if q.last.Some? && q.last.value <= stop.value
      then Evaluation(true, q.last, Some(LastFallback), true, None, baseline, stop, updated)
      else Evaluation(false, None, None, false, Some(ConditionNotMet), baseline, stop, updated)
  }

  function Evaluate(q: Quote, i: Intent, now: Instant): Evaluation {
    var refusal := Refusal(q, now);
    if refusal.Some? then Skipped(refusal.value)
    else if BuysBelow(i.strategy) then EvaluateBuy(q, i.target)
    else if SellsAbove(i.strategy) then EvaluateSell(q, i.target)
    else if i.strategy.MarketOrder? || i.strategy.MarketBuy? then EvaluateMarketBuy(q)
    else if i.strategy.MarketSell? then EvaluateMarketSell(q)
    else if i.strategy.TrailingStop? then EvaluateTrailing(q, i, now)
    else Skipped(UnsupportedStrategy)
  }

  /** Writes a raised baseline back, and hands on the intent with the new values. */
  function WithBaseline(i: Intent, e: Evaluation): Intent {
    if e.baselineUpdatedAt.Some? then i.(baseline := e.baseline, stop := e.stop) else i
  }

  // ---------------------------------------------------------------- what a trigger implies

  predicate Accepted(q: Quote, now: Instant) {
    Refusal(q, now).None?
  }

  /** A quote to act on: both clocks in session, not more than ten seconds old, and its prices sensible. */
  ghost predicate IsUsable(q: Quote, now: Instant) {
    && InSession(now) && InSession(q.quoteTime) && now <= q.quoteTime + 10_000_000
    && (forall p :: p == q.bid || p == q.ask || p == q.last ==> p.Some? ==> p.value > 0.0)
    && (q.bid.Some? && q.ask.Some? ==> q.bid.value <= q.ask.value)
    && (q.bid.Some? || q.ask.Some? || q.last.Some?)
  }

  lemma AcceptedExactlyIfUsable(q: Quote, now: Instant)
    ensures Accepted(q, now) <==> IsUsable(q, now)
  {
    hide InSession;
    if !IsUsable(q, now) && Accepted(q, now) {
      var p :| (p == q.bid || p == q.ask || p == q.last) && p.Some? && p.value <= 0.0;
    }
  }

  /** The side of the quote a strategy watches. */
  function PrimaryPrice(s: Strategy, q: Quote): Option<real> {
    if BuysBelow(s) || s.MarketOrder? || s.MarketBuy? then q.ask else q.bid
  }

  function WatchedPrice(s: Strategy, q: Quote): Option<real> {
    if PrimaryPrice(s, q).Some? then PrimaryPrice(s, q) else q.last
  }

  /** The price condition of each strategy, on the watched price. */
  ghost predicate Crosses(i: Intent, stop: Option<real>, price: real) {
    match i.strategy
    case BuyPriceAlert => i.target.Some? && price <= Value(i.target.value)
    case LimitBuy => i.target.Some? && price <= Value(i.target.value)
    case SellPriceAlert => i.target.Some? && price >= Value(i.target.value)
    case LimitSell => i.target.Some? && price >= Value(i.target.value)
    case MarketOrder => true
    case MarketBuy => true
    case MarketSell => true
    case TrailingStop => i.trail.Some? && stop.Some? && price <= stop.value
    case TwapOrder => false
  }

  /**
   A trigger happens exactly when an accepted quote's watched price meets the condition;
   it is recorded at that price, as a fallback exactly when the watched side is missing.
   */
  lemma TriggersExactlyOnCondition(q: Quote, i: Intent, now: Instant)
    ensures var e := Evaluate(q, i, now);
            && (e.shouldTrigger <==>
                && Accepted(q, now) && WatchedPrice(i.strategy, q).Some?
                && Crosses(i, WithBaseline(i, e).stop, WatchedPrice(i.strategy, q).value))
            && (e.shouldTrigger ==>
                && e.price == WatchedPrice(i.strategy, q)
                && (e.fallback <==> PrimaryPrice(i.strategy, q).None?)
                && (e.reference == Some(LastFallback) <==> e.fallback)
                && e.price.value > 0.0)
            && (e.shouldTrigger <==> e.skip.None?)
  {
    hide Value, InSession, StopBelow;
  }

  function Either(first: Option<real>, second: Option<real>): Option<real> {
    if first.Some? then first else second
  }

  /** The terms of an intent on the prices of a quote, as its owner understands them. */
  ghost predicate MeetsTerms(i: Intent, stop: Option<real>, q: Quote) {
    var toBuy, toSell := Either(q.ask, q.last), Either(q.bid, q.last);
    match i.strategy
    case BuyPriceAlert => i.target.Some? && toBuy.Some? && toBuy.value <= Value(i.target.value)
    case LimitBuy => i.target.Some? && toBuy.Some? && toBuy.value <= Value(i.target.value)
    case SellPriceAlert => i.target.Some? && toSell.Some? && toSell.value >= Value(i.target.value)
    case LimitSell => i.target.Some? && toSell.Some? && toSell.value >= Value(i.target.value)
    case MarketOrder => toBuy.Some?
    case MarketBuy => toBuy.Some?
    case MarketSell => toSell.Some?
    case TrailingStop => i.trail.Some? && stop.Some? && toSell.Some? && toSell.value <= stop.value
    case TwapOrder => false
  }

  /** A quote triggers an intent exactly when it is usable and meets the intent's terms. */
  lemma TriggersExactlyOnTerms(q: Quote, i: Intent, now: Instant)
    ensures Evaluate(q, i, now).shouldTrigger
            <==> IsUsable(q, now) && MeetsTerms(i, WithBaseline(i, Evaluate(q, i, now)).stop, q)
  {
    hide Evaluate, Accepted, IsUsable, Value;
    TriggersExactlyOnCondition(q, i, now);
    AcceptedExactlyIfUsable(q, now);
  }

  /** What is wrong with the quote, or with the moment. */
  ghost predicate IsTrueOfQuote(q: Quote, now: Instant, skip: Skip) {
    match skip
    case OutsideSession => !InSession(now) || !InSession(q.quoteTime)
    case QuoteStale => InSession(now) && InSession(q.quoteTime) && now > q.quoteTime + 10_000_000
    case NonPositivePrice =>
      (q.bid.Some? && q.bid.value <= 0.0) || (q.ask.Some? && q.ask.value <= 0.0) || (q.last.Some? && q.last.value <= 0.0)
    case BidAboveAsk => q.bid.Some? && q.ask.Some? && q.bid.value > q.ask.value
    case MissingAllPrices => q.bid.None? && q.ask.None? && q.last.None?
    case _ => false
  }

  lemma RefusalTellsWhy(q: Quote, now: Instant)
    ensures Refusal(q, now).Some? ==> IsTrueOfQuote(q, now, Refusal(q, now).value)
  {
    hide InSession;
  }

  /** A strategy the evaluator does not know, or one without its parameter. */
  ghost predicate LacksParameter(i: Intent) {
    i.strategy.TwapOrder? || (i.strategy.TrailingStop? && i.trail.None?)
    || (!IsMarket(i.strategy) && !i.strategy.TrailingStop? && i.target.None?)
  }

  lemma UnmetIsSaid(q: Quote, i: Intent, now: Instant)
    requires Refusal(q, now).None? && !Evaluate(q, i, now).shouldTrigger
    ensures Evaluate(q, i, now).skip == Some(if LacksParameter(i) then UnsupportedStrategy else ConditionNotMet)
  {
    hide Refusal, Value, StopBelow, ReferencePrice;
  }

  /** The reason given for not triggering is true. */
  lemma SkipTellsWhy(q: Quote, i: Intent, now: Instant)
    requires !Evaluate(q, i, now).shouldTrigger
    ensures var e := Evaluate(q, i, now);
            && e.skip.Some?
            && (match e.skip.value
                case ConditionNotMet => IsUsable(q, now) && !LacksParameter(i) && !MeetsTerms(i, WithBaseline(i, e).stop, q)
                case UnsupportedStrategy => IsUsable(q, now) && LacksParameter(i)
                case _ => IsTrueOfQuote(q, now, e.skip.value))
  {
    hide Refusal, IsUsable, MeetsTerms, IsTrueOfQuote, LacksParameter;
    AcceptedExactlyIfUsable(q, now);
    TriggersExactlyOnTerms(q, i, now);
    RefusalTellsWhy(q, now);
    RefusedIsSkipped(q, i, now);
    hide Evaluate;
    if Refusal(q, now).None? {
      UnmetIsSaid(q, i, now);
    } else {
      RefusalIsOfQuote(q, now);
    }
  }

  lemma RefusedIsSkipped(q: Quote, i: Intent, now: Instant)
    ensures Refusal(q, now).Some? ==> Evaluate(q, i, now).skip == Refusal(q, now)
  {
    hide Refusal;
  }

  lemma RefusalIsOfQuote(q: Quote, now: Instant)
    ensures Refusal(q, now) != Some(ConditionNotMet) && Refusal(q, now) != Some(UnsupportedStrategy)
  {
  }

  /** The instant at which a day ends. */
  function MidnightAfter(d: Day): Instant {
    (d + 1) * DAY
  }

  /**
   A triggering quote was given in a session, never an earlier one than the evaluation's, and
   is never stale; it is of that very session exactly when it is not dated after the day.
   */
  lemma TriggeringQuoteIsCurrent(q: Quote, i: Intent, now: Instant)
    requires Evaluate(q, i, now).shouldTrigger
    ensures InSession(now) && InSession(q.quoteTime)
    ensures now - q.quoteTime <= FRESHNESS && DayOf(q.quoteTime) >= DayOf(now)
    ensures DayOf(q.quoteTime) == DayOf(now) <==> q.quoteTime < MidnightAfter(DayOf(now))
  {
    assert now == DayOf(now) * DAY + TimeOfDay(now);
    assert q.quoteTime == DayOf(q.quoteTime) * DAY + TimeOfDay(q.quoteTime);
  }

  /** A market order: it fires on any accepted quote, whatever its price. */
  const MARKET_INTENT := Intent(0, "2330", Stock, MarketBuy, 1, SingleNotification, None, None, 0, Active, None, None)

  /** The freshness check stops no quote dated in a later session, however late. */
  lemma PostDatedQuoteCanTrigger(now: Instant, dated: Instant)
    requires InSession(now) && InSession(dated) && dated >= MidnightAfter(DayOf(now))
    ensures var q := Quote("2330", None, Some(600.0), None, dated);
            Evaluate(q, MARKET_INTENT, now).shouldTrigger && DayOf(dated) > DayOf(now)
  {
    assert now == DayOf(now) * DAY + TimeOfDay(now);
    assert dated == DayOf(dated) * DAY + TimeOfDay(dated);
  }

  // ---------------------------------------------------------------- one trailing stop

  lemma PortionBelow(amount: real, part: real)
    requires amount > 0.0 && part < 1.0
    ensures Portion(amount, part) < amount
  {
    assert amount * (1.0 - part) > 0.0;
  }

  lemma PortionMonotone(a: real, b: real, part: real)
    requires a <= b && part > 0.0
    ensures Portion(a, part) <= Portion(b, part)
  {
  }

  lemma RawStopBelow(trail: Trail, baseline: real)
    requires ValidTrail(trail) && baseline > 0.0
    ensures RawStop(trail, baseline) < baseline
  {
    hide Portion, Value;
    if trail.mode.Percentage? {
      PortionBelow(baseline, Kept(trail));
    }
  }

  lemma RawStopMonotone(trail: Trail, low: real, high: real)
    requires ValidTrail(trail) && low <= high
    ensures RawStop(trail, low) <= RawStop(trail, high)
  {
    hide Portion, Value;
    if trail.mode.Percentage? {
      PortionMonotone(low, high, Kept(trail));
    }
  }

  /** The stop is a legal price, and below the baseline exactly when a legal price is. */
  lemma StopIsLegalAndBelow(security: SecurityType, trail: Trail, baseline: real)
    requires ValidTrail(trail) && baseline > 0.0
    ensures Legal(security, StopBelow(security, trail, baseline))
    ensures StopBelow(security, trail, baseline) > 0.0
    ensures StopBelow(security, trail, baseline) < baseline <==> baseline > MIN_TICK
  {
    hide NearestLower, RawStop, Legal;
    var raw := RawStop(trail, baseline);
    RawStopBelow(trail, baseline);
    NearestLowerIsGreatestLegal(security, raw);
    MinTickLegal(security);
    assert StopBelow(security, trail, baseline) == NearestLower(security, raw) >= MIN_TICK;
  }

  /** At least the asked-for part or amount below the baseline. */
  ghost predicate IsFarEnough(trail: Trail, baseline: real, price: real) {
    match trail.mode
    case Percentage => 100.0 * (baseline - price) >= Value(trail.value) * baseline
    case FixedAmount => baseline - price >= Value(trail.value)
  }

  /** The greatest legal price far enough below the baseline, or the smallest tick if there is none. */
  ghost predicate IsStopFor(security: SecurityType, trail: Trail, baseline: real, stop: real) {
    && Legal(security, stop) && (IsFarEnough(trail, baseline, stop) || stop == MIN_TICK)
    && forall p :: Legal(security, p) && IsFarEnough(trail, baseline, p) ==> p <= stop
  }

  lemma FarEnoughIsBelowRaw(trail: Trail, baseline: real, price: real)
    ensures IsFarEnough(trail, baseline, price) <==> price <= RawStop(trail, baseline)
  {
    if trail.mode.Percentage? {
      var v := Value(trail.value);
      PercentOff(baseline, v);
    }
  }

  lemma PercentOff(baseline: real, v: real)
    ensures 100.0 * (baseline * (1.0 - v / 100.0)) == 100.0 * baseline - v * baseline
  {
    assert baseline * (1.0 - v / 100.0) == baseline - baseline * (v / 100.0);
    assert 100.0 * (baseline * (v / 100.0)) == v * baseline;
  }

  /** The stop is what the trail asks for, rounded down to a legal price. */
  lemma StopIsGreatestFarEnough(security: SecurityType, trail: Trail, baseline: real)
    ensures IsStopFor(security, trail, baseline, StopBelow(security, trail, baseline))
  {
    hide NearestLower, RawStop, Legal, IsFarEnough;
    var raw := RawStop(trail, baseline);
    NearestLowerIsGreatestLegal(security, raw);
    FarEnoughIsBelowRaw(trail, baseline, StopBelow(security, trail, baseline));
    forall p | Legal(security, p) && IsFarEnough(trail, baseline, p)
      ensures p <= StopBelow(security, trail, baseline)
    {
      FarEnoughIsBelowRaw(trail, baseline, p);
    }
  }

  /** No other price is. */
  lemma StopIsUnique(security: SecurityType, trail: Trail, baseline: real, stop: real)
    requires IsStopFor(security, trail, baseline, stop)
    ensures stop == StopBelow(security, trail, baseline)
  {
    hide StopBelow, Legal, IsFarEnough;
    StopIsGreatestFarEnough(security, trail, baseline);
    var other := StopBelow(security, trail, baseline);
    SmallestLegal(security, stop);
    SmallestLegal(security, other);
  }

  lemma SmallestLegal(security: SecurityType, price: real)
    requires Legal(security, price)
    ensures price >= MIN_TICK
  {
    hide NearestLower;
    NearestLowerIsGreatestLegal(security, price);
    if price < MIN_TICK {
      FixedPointsAreLegal(security, price);
    }
  }

  lemma StopIsMonotone(security: SecurityType, trail: Trail, low: real, high: real)
    requires ValidTrail(trail) && low <= high
    ensures StopBelow(security, trail, low) <= StopBelow(security, trail, high)
  {
    hide NearestLower, RawStop;
    RawStopMonotone(trail, low, high);
    RoundingIsMonotone(security, RawStop(trail, low), RawStop(trail, high));
  }

  /** A new high seen only as a last price fires exactly when it is at or below one tick. */
  lemma NewHighWithoutBid(q: Quote, i: Intent, now: Instant)
    requires i.strategy.TrailingStop? && i.trail.Some? && ValidTrail(i.trail.value)
    requires Accepted(q, now) && q.bid.None? && q.last.Some?
    requires i.baseline.None? || q.last.value > i.baseline.value
    ensures Evaluate(q, i, now).shouldTrigger <==> q.last.value <= MIN_TICK
  {
    hide StopBelow;
    StopIsLegalAndBelow(i.security, i.trail.value, q.last.value);
  }

  /** Baseline and stop are set together, by every evaluation. */
  ghost predicate Paired(i: Intent) {
    i.baseline.Some? <==> i.stop.Some?
  }

  /** So the record of a trailing trigger never lacks its baseline or its stop. */
  lemma TrailingTriggerHasBaseline(q: Quote, i: Intent, now: Instant)
    requires Paired(i)
    ensures var e := Evaluate(q, i, now);
            && Paired(WithBaseline(i, e))
            && (e.shouldTrigger && i.strategy.TrailingStop? ==>
                WithBaseline(i, e).baseline.Some? && WithBaseline(i, e).stop.Some?)
  {
    hide StopBelow;
  }

  // ---------------------------------------------------------------- the whole history

  /** A quote together with the instant it was evaluated at. */
  datatype Tick = Tick(quote: Quote, now: Instant)

  /** Evaluates ticks in order until one fires; gives the intent left and the firing index. */
  function Watch(i: Intent, ticks: seq<Tick>): (r: (Intent, Option<nat>))
    ensures r.1.Some? ==> r.1.value < |ticks|
    decreases |ticks|
  {
    if ticks == [] then (i, None)
    else
      var e := Evaluate(ticks[0].quote, i, ticks[0].now);
      var next := WithBaseline(i, e);
      if e.shouldTrigger then (next, Some(0))
      else
        var rest := Watch(next, ticks[1..]);
        (rest.0, if rest.1.None? then None else Some(rest.1.value + 1))
  }

  /** The reference price of a tick that is accepted and has one. */
  function Offered(t: Tick): Option<real> {
    if Accepted(t.quote, t.now) then ReferencePrice(t.quote) else None
  }

  /** A usable tick offers its last price, or else the price midway between bid and ask. */
  lemma OfferedExactly(t: Tick, price: real)
    ensures Offered(t) == Some(price) <==>
            && IsUsable(t.quote, t.now)
            && (t.quote.last == Some(price)
                || (t.quote.last.None? && t.quote.bid.Some? && t.quote.ask.Some?
                    && price - t.quote.bid.value == t.quote.ask.value - price))
  {
    hide Accepted, IsUsable;
    AcceptedExactlyIfUsable(t.quote, t.now);
  }

  /** `best` is the maximum reference price over the accepted ticks, if there is any. */
  ghost predicate IsHighest(best: Option<real>, ticks: seq<Tick>) {
    match best
    case None => forall k :: 0 <= k < |ticks| ==> Offered(ticks[k]).None?
    case Some(b) =>
      && (exists k :: 0 <= k < |ticks| && Offered(ticks[k]) == best)
      && (forall k :: 0 <= k < |ticks| && Offered(ticks[k]).Some? ==> Offered(ticks[k]).value <= b)
  }

  ghost function StopAt(security: SecurityType, trail: Trail, best: Option<real>): Option<real> {
    if best.None? then None else Some(StopBelow(security, trail, best.value))
  }

  /** Tick k stops the trail out, judged against everything seen up to and including it. */
  ghost predicate StopsOut(security: SecurityType, trail: Trail, ticks: seq<Tick>, k: nat)
    requires k < |ticks|
  {
    && Accepted(ticks[k].quote, ticks[k].now)
    && WatchedPrice(TrailingStop, ticks[k].quote).Some?
    && exists best: real ::
         && IsHighest(Some(best), ticks[..k + 1])
         && WatchedPrice(TrailingStop, ticks[k].quote).value <= StopBelow(security, trail, best)
  }

  /** In the trader's terms: a usable tick whose bid (or else last) is at or below the stop for the best price so far. */
  lemma StopsOutExactly(security: SecurityType, trail: Trail, ticks: seq<Tick>, k: nat)
    requires k < |ticks|
    ensures var q := ticks[k].quote;
            var price := if q.bid.Some? then q.bid else q.last;
            StopsOut(security, trail, ticks, k) <==>
            && IsUsable(q, ticks[k].now) && price.Some?
            && exists best: real, stop: real ::
                 IsHighest(Some(best), ticks[..k + 1]) && IsStopFor(security, trail, best, stop) && price.value <= stop
  {
    hide Accepted, IsUsable, IsHighest, StopBelow, IsStopFor;
    AcceptedExactlyIfUsable(ticks[k].quote, ticks[k].now);
    forall best: real
      ensures IsStopFor(security, trail, best, StopBelow(security, trail, best))
    {
      StopIsGreatestFarEnough(security, trail, best);
    }
    forall best: real, stop: real | IsStopFor(security, trail, best, stop)
      ensures stop == StopBelow(security, trail, best)
    {
      StopIsUnique(security, trail, best, stop);
    }
  }

  lemma HighestIsUnique(a: Option<real>, b: Option<real>, ticks: seq<Tick>)
    requires IsHighest(a, ticks) && IsHighest(b, ticks)
    ensures a == b
  {
    if a.Some? && b.Some? {
      var j :| 0 <= j < |ticks| && Offered(ticks[j]) == a;
      var k :| 0 <= k < |ticks| && Offered(ticks[k]) == b;
    }
  }

  /** The best price after one more tick. */
  function Better(best: Option<real>, t: Tick): Option<real> {
    if Offered(t).Some? && (best.None? || Offered(t).value > best.value) then Offered(t) else best
  }

  lemma HighestExtends(best: Option<real>, past: seq<Tick>, t: Tick)
    requires IsHighest(best, past)
    ensures IsHighest(Better(best, t), past + [t])
  {
    hide Offered;
    var all := past + [t];
    assert all[|past|] == t;
    assert forall k :: 0 <= k < |past| ==> all[k] == past[k];
    if best.Some? {
      var j :| 0 <= j < |past| && Offered(past[j]) == best;
      assert Offered(all[j]) == best;
    }
    assert Offered(all[|past|]) == Offered(t);
  }

  /** The stored values are those of the history so far. */
  ghost predicate Tracks(i: Intent, trail: Trail, past: seq<Tick>) {
    && i.strategy.TrailingStop? && i.trail == Some(trail)
    && IsHighest(i.baseline, past) && i.stop == StopAt(i.security, trail, i.baseline)
  }

  lemma StepTracksHistory(i: Intent, trail: Trail, past: seq<Tick>, t: Tick)
    requires Tracks(i, trail, past)
    ensures var e := Evaluate(t.quote, i, t.now);
            && Tracks(WithBaseline(i, e), trail, past + [t])
            && WithBaseline(i, e).security == i.security
            && (e.shouldTrigger <==> StopsOut(i.security, trail, past + [t], |past|))
  {
    hide StopBelow, IsHighest;
    var e := Evaluate(t.quote, i, t.now);
    var all := past + [t];
    assert all[..|past| + 1] == all && all[|past|] == t;
    HighestExtends(i.baseline, past, t);
    var best := Better(i.baseline, t);
    assert WithBaseline(i, e).baseline == best && WithBaseline(i, e).stop == StopAt(i.security, trail, best);
    forall b: real | IsHighest(Some(b), all)
      ensures Some(b) == best
    {
      HighestIsUnique(Some(b), best, all);
    }
    if e.shouldTrigger {
      assert IsHighest(Some(best.value), all[..|past| + 1]);
    }
  }

  lemma StopsOutOfPrefix(security: SecurityType, trail: Trail, ticks: seq<Tick>, more: seq<Tick>, k: nat)
    requires k < |ticks|
    ensures StopsOut(security, trail, ticks + more, k) <==> StopsOut(security, trail, ticks, k)
  {
    assert (ticks + more)[..k + 1] == ticks[..k + 1];
  }

  /** What watching the remaining ticks yields, given the history behind. */
  lemma {:induction false} WatchFollowsHistory(i: Intent, trail: Trail, past: seq<Tick>, ticks: seq<Tick>)
    requires Tracks(i, trail, past)
    ensures var (out, fired) := Watch(i, ticks);
            var seen := if fired.Some? then fired.value + 1 else |ticks|;
            && Tracks(out, trail, past + ticks[..seen]) && out.security == i.security
            && (forall k :: 0 <= k < seen && fired != Some(k) ==>
                  !StopsOut(i.security, trail, past + ticks, |past| + k))
            && (fired.Some? ==> StopsOut(i.security, trail, past + ticks, |past| + fired.value))
    decreases |ticks|
  {
    hide StopsOut, Evaluate, Tracks;
    if ticks == [] {
      assert past + ticks[..0] == past;
    } else {
      var t := ticks[0];
      var e := Evaluate(t.quote, i, t.now);
      var next := WithBaseline(i, e);
      StepTracksHistory(i, trail, past, t);
      var now := past + [t];
      assert past + ticks == now + ticks[1..];
      StopsOutOfPrefix(i.security, trail, now, ticks[1..], |past|);
      if e.shouldTrigger {
        assert past + ticks[..1] == now;
      } else {
        WatchFollowsHistory(next, trail, now, ticks[1..]);
        var (out, fired) := Watch(i, ticks);
        var rest := Watch(next, ticks[1..]).1;
        var seen := if rest.Some? then rest.value + 1 else |ticks| - 1;
        assert past + ticks[..seen + 1] == now + ticks[1..][..seen];
        forall k | 0 <= k < seen + 1 && fired != Some(k)
          ensures !StopsOut(i.security, trail, past + ticks, |past| + k)
        {
          if k > 0 {
            assert |past| + k == |now| + (k - 1);
            assert rest != Some(k - 1);
          }
        }
      }
    }
  }

  /**
   Quote by quote, from a fresh intent: the stored baseline is the maximum reference price
   of the accepted quotes, the stop is the rounded trail of that maximum, and the intent
   fires at exactly the first quote that stops out against the whole history.
   */
  lemma TrailingMatchesHistory(i: Intent, ticks: seq<Tick>)
    requires i.strategy.TrailingStop? && i.trail.Some? && i.baseline.None? && i.stop.None?
    ensures var (out, fired) := Watch(i, ticks);
            var seen := if fired.Some? then fired.value + 1 else |ticks|;
            && IsHighest(out.baseline, ticks[..seen])
            && out.stop == StopAt(i.security, i.trail.value, out.baseline)
            && (out.baseline.Some? <==> out.stop.Some?)
            && (out.stop.Some? ==> IsStopFor(i.security, i.trail.value, out.baseline.value, out.stop.value))
            && (forall k :: 0 <= k < seen && fired != Some(k) ==> !StopsOut(i.security, i.trail.value, ticks, k))
            && (fired.Some? ==> StopsOut(i.security, i.trail.value, ticks, fired.value))
  {
    hide StopsOut, IsHighest, Watch, Tracks, IsStopFor, StopBelow;
    var trail := i.trail.value;
    var none: seq<Tick> := [];
    FreshTracksNothing(i);
    WatchFollowsHistory(i, trail, none, ticks);
    var (out, fired) := Watch(i, ticks);
    var seen := if fired.Some? then fired.value + 1 else |ticks|;
    assert none + ticks == ticks && none + ticks[..seen] == ticks[..seen];
    TrackedValues(out, trail, ticks[..seen]);
    if out.baseline.Some? {
      StopIsGreatestFarEnough(i.security, trail, out.baseline.value);
    }
    forall k | 0 <= k < seen && fired != Some(k)
      ensures !StopsOut(i.security, trail, ticks, k)
    {
      assert !StopsOut(i.security, trail, none + ticks, |none| + k);
    }
  }

  lemma FreshTracksNothing(i: Intent)
    requires i.strategy.TrailingStop? && i.trail.Some? && i.baseline.None? && i.stop.None?
    ensures Tracks(i, i.trail.value, [])
  {
  }

  lemma TrackedValues(i: Intent, trail: Trail, past: seq<Tick>)
    requires Tracks(i, trail, past)
    ensures IsHighest(i.baseline, past) && i.stop == StopAt(i.security, trail, i.baseline)
  {
  }

  lemma HighestGrows(a: Option<real>, b: Option<real>, ticks: seq<Tick>, m: nat, n: nat)
    requires m <= n <= |ticks| && a.Some?
    requires IsHighest(a, ticks[..m]) && IsHighest(b, ticks[..n])
    ensures b.Some? && 0.0 < a.value <= b.value
  {
    var j :| 0 <= j < m && Offered(ticks[..m][j]) == a;
    assert ticks[..n][j] == ticks[..m][j] == ticks[j];
  }

  /** A run that fires at index k also fires when cut anywhere after k. */
  lemma {:induction false} WatchCut(i: Intent, ticks: seq<Tick>, m: nat, k: nat)
    requires k < m <= |ticks| && Watch(i, ticks).1 == Some(k)
    ensures Watch(i, ticks[..m]).1 == Some(k)
    decreases |ticks|
  {
    hide Evaluate;
    assert ticks[..m][0] == ticks[0] && ticks[..m][1..] == ticks[1..][..m - 1];
    var e := Evaluate(ticks[0].quote, i, ticks[0].now);
    if !e.shouldTrigger {
      WatchCut(WithBaseline(i, e), ticks[1..], m - 1, k - 1);
    }
  }

  /** How much of a run has been seen, on the longer of two cuts. */
  lemma SeenAtLeast(i: Intent, ticks: seq<Tick>, m: nat, n: nat) returns (seen: nat)
    requires i.strategy.TrailingStop? && i.trail.Some? && i.baseline.None? && i.stop.None?
    requires m <= n <= |ticks| && Watch(i, ticks[..m]).1.None?
    ensures m <= seen <= n
    ensures var late := Watch(i, ticks[..n]).0;
            IsHighest(late.baseline, ticks[..seen]) && late.stop == StopAt(i.security, i.trail.value, late.baseline)
  {
    hide Watch, StopsOut, IsHighest;
    TrailingMatchesHistory(i, ticks[..n]);
    var fired := Watch(i, ticks[..n]).1;
    seen := if fired.Some? then fired.value + 1 else n;
    assert ticks[..n][..seen] == ticks[..seen];
    assert ticks[..n][..m] == ticks[..m];
    if fired.Some? && fired.value < m {
      WatchCut(i, ticks[..n], m, fired.value);
    }
  }

  /** However far the run goes, the stop is positive and has never come down. */
  lemma StopNeverFalls(i: Intent, ticks: seq<Tick>, m: nat, n: nat)
    requires i.strategy.TrailingStop? && i.trail.Some? && ValidTrail(i.trail.value)
    requires i.baseline.None? && i.stop.None? && m <= n <= |ticks|
    requires Watch(i, ticks[..m]).1.None?
    ensures var early, late := Watch(i, ticks[..m]).0, Watch(i, ticks[..n]).0;
            early.stop.Some? ==>
              && late.baseline.Some? && late.stop.Some? && 0.0 < early.stop.value <= late.stop.value
              && (late.stop.value < late.baseline.value <==> late.baseline.value > MIN_TICK)
  {
    hide Watch, StopBelow, IsHighest;
    var trail := i.trail.value;
    var early, late := Watch(i, ticks[..m]).0, Watch(i, ticks[..n]).0;
    var a := SeenAtLeast(i, ticks, m, m);
    var b := SeenAtLeast(i, ticks, m, n);
    if early.stop.Some? {
      HighestGrows(early.baseline, late.baseline, ticks, m, b);
      StopIsMonotone(i.security, trail, early.baseline.value, late.baseline.value);
      StopIsLegalAndBelow(i.security, trail, early.baseline.value);
      StopIsLegalAndBelow(i.security, trail, late.baseline.value);
    }
  }
}
