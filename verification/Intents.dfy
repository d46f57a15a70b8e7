/** Trade intents and quotes, as the evaluator and the store see them. */
module Intents {
  import opened Outcomes
  import opened DecimalText
  import opened Price
  import opened TradingSession

  type UserId = nat
  type IntentId = nat
  type Symbol = string

  /** The lifecycle states of src/app/domain/trade_intent.py. */
  datatype Status = Scheduled | Active | Triggered | Expired | Cancelled | CancelledByAccountDisabled

  /** Scheduled and active intents can still be cancelled; all others are terminal. */
  predicate IsLive(s: Status) {
    s.Scheduled? || s.Active?
  }

  datatype Strategy =
    | BuyPriceAlert | LimitBuy | SellPriceAlert | LimitSell
    | MarketOrder | MarketBuy | MarketSell | TrailingStop | TwapOrder

  predicate IsMarket(s: Strategy) {
    s.MarketOrder? || s.MarketBuy? || s.MarketSell?
  }

  predicate BuysBelow(s: Strategy) {
    s.BuyPriceAlert? || s.LimitBuy?
  }

  predicate SellsAbove(s: Strategy) {
    s.SellPriceAlert? || s.LimitSell?
  }

  /** Whether a triggered intent counts as filled at once or may be filled in parts. */
  datatype TransactionMode = SingleNotification | PartialFillAllowed

  datatype TrailMode = Percentage | FixedAmount

  datatype Trail = Trail(mode: TrailMode, value: Dec)

  datatype Intent = Intent(
    owner: UserId,
    symbol: Symbol,
    security: SecurityType,
    strategy: Strategy,
    quantity: int,
    mode: TransactionMode,
    target: Option<Dec>,
    trail: Option<Trail>,
    tradingDate: Day,
    status: Status,
    baseline: Option<real>,
    stop: Option<real>)

  datatype Quote = Quote(
    symbol: Symbol,
    bid: Option<real>,
    ask: Option<real>,
    last: Option<real>,
    quoteTime: Instant)

  /** The range the trailing parameters are confined to by the table's checks. */
  predicate ValidTrail(t: Trail) {
    && t.value.coef > 0
    && (t.mode.Percentage? ==> Value(t.value) <= 10.0)
  }
}
