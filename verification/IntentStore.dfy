/**
 The table of intents with its trigger rows and notifications, and the commands on it
 (src/app/repositories/trade_intent_core_repository.py, src/app/commands/trigger_intent_core.py,
 src/app/commands/intent_lifecycle.py, src/app/commands/trade_intent_core.py,
 src/app/services/quote_dispatcher_core.py).

 Each operation is a function on the stored value; the class in IntentTable performs it on
 mutable fields, and is proved to have exactly that effect.
 */
module IntentStore {
  import opened Outcomes
  import opened DecimalText
  import opened Price
  import opened TradingSession
  import opened Intents
  import opened QuoteEvaluation

  /** The audit row of a trigger; `at` is the instant the quote was evaluated. */
  datatype TriggerRow = TriggerRow(
    intent: IntentId,
    price: real,
    reference: Reference,
    fallback: bool,
    target: real,
    quantity: int,
    baseline: Option<real>,
    stop: Option<real>,
    quoteTime: Instant,
    at: Instant)

  datatype NoteKind = PriceTriggered | LimitOrderTriggered | MarketOrderTriggered | TrailingStopTriggered

  datatype Note = Note(kind: NoteKind, intent: IntentId)

  datatype Db = Db(rows: map<IntentId, Intent>, triggers: seq<TriggerRow>, notes: seq<Note>)

  function EmptyDb(): Db {
    Db(map[], [], [])
  }

  // ---------------------------------------------------------------- bulk updates

  function Expire(i: Intent, cutoff: Day): Intent {
    if IsLive(i.status) && i.tradingDate <= cutoff then i.(status := Expired) else i
  }

  function Activate(i: Intent, day: Day): Intent {
    if i.status.Scheduled? && i.tradingDate == day then i.(status := Active) else i
  }

  function Disable(i: Intent, owner: UserId): Intent {
    if i.owner == owner && IsLive(i.status) then i.(status := CancelledByAccountDisabled) else i
  }

  function ExpiredThrough(db: Db, cutoff: Day): Db {
    db.(rows := map id | id in db.rows :: Expire(db.rows[id], cutoff))
  }

  function ActivatedOn(db: Db, day: Day): Db {
    db.(rows := map id | id in db.rows :: Activate(db.rows[id], day))
  }

  function OwnerDisabled(db: Db, owner: UserId): Db {
    db.(rows := map id | id in db.rows :: Disable(db.rows[id], owner))
  }

  /** Expire what can no longer trigger; inside the session, activate today's intents. */
  function LifecycleRun(db: Db, now: Instant): Db {
    var expired := ExpiredThrough(db, ExpiryCutoff(now));
    if PhaseAt(now).RegularSession? then ActivatedOn(expired, DayOf(now)) else expired
  }

  // ---------------------------------------------------------------- cancelling

  datatype CancelError = NotFound | NotAllowed(status: Status)

  /** What cancelling reads: whether it goes ahead with the write. */
  function CancelCheck(db: Db, id: IntentId, owner: UserId): Result<bool, CancelError> {
    if id !in db.rows || db.rows[id].owner != owner then Err(NotFound)
    else if db.rows[id].status.Cancelled? then Ok(false)
    else if !IsLive(db.rows[id].status) then Err(NotAllowed(db.rows[id].status))
    else Ok(true)
  }

  /** What cancelling writes: by id alone, with no condition on the status. */
  function CancelWrite(db: Db, id: IntentId): Db {
    if id in db.rows then db.(rows := db.rows[id := db.rows[id].(status := Cancelled)]) else db
  }

  function CancelledBy(db: Db, id: IntentId, owner: UserId): Db {
    if CancelCheck(db, id, owner) == Ok(true) then CancelWrite(db, id) else db
  }

  // ---------------------------------------------------------------- triggering

  datatype PersistError = NotActive | Duplicate

  function HasTrigger(triggers: seq<TriggerRow>, id: IntentId): bool {
    exists k :: 0 <= k < |triggers| && triggers[k].intent == id
  }

  /** The guarded status update, the unique trigger row and the notification, or nothing. */
  function Persisted(db: Db, row: TriggerRow, kind: NoteKind): Result<Db, PersistError> {
    var id := row.intent;
    if id !in db.rows || !db.rows[id].status.Active? then Err(NotActive)
    else if HasTrigger(db.triggers, id) then Err(Duplicate)
    else Ok(Db(db.rows[id := db.rows[id].(status := Triggered)], db.triggers + [row], db.notes + [Note(kind, id)]))
  }

  datatype Fault = MissingTarget | MissingBaseline | MissingTriggerFields | NoTrailingRow

  function NoteKindOf(s: Strategy): NoteKind {
    if IsMarket(s) then MarketOrderTriggered
    else if s.LimitBuy? || s.LimitSell? then LimitOrderTriggered
    else if s.TrailingStop? then TrailingStopTriggered
    else PriceTriggered
  }

  /** The row a trigger records, or the fault that would abort the dispatch. */
  function TriggerRowFor(id: IntentId, i: Intent, e: Evaluation, q: Quote, now: Instant): Result<TriggerRow, Fault> {
    if e.price.None? || e.reference.None? then Err(MissingTriggerFields)
    else
      var row := TriggerRow(id, e.price.value, e.reference.value, e.fallback, e.price.value, i.quantity, None, None, q.quoteTime, now);
      if IsMarket(i.strategy) then Ok(row)
      else if i.strategy.TrailingStop? then
        if i.baseline.None? || i.stop.None? then Err(MissingBaseline)
        else Ok(row.(target := i.stop.value, baseline := i.baseline, stop := i.stop))
      else if i.target.None? then Err(MissingTarget)
      else Ok(row.(target := Value(i.target.value)))
  }

  /** The baseline write: by id, with no condition on the status. */
  function BaselineWritten(db: Db, id: IntentId, baseline: Option<real>, stop: Option<real>): Result<Db, Fault> {
    if id !in db.rows || db.rows[id].trail.None? then Err(NoTrailingRow)
    else Ok(db.(rows := db.rows[id := db.rows[id].(baseline := baseline, stop := stop)]))
  }

  /** An intent as the dispatcher listed it. */
  datatype Listed = Listed(id: IntentId, intent: Intent)

  /** The writes one quote causes for one listed intent. */
  function Processed(db: Db, q: Quote, now: Instant, l: Listed): Result<Db, Fault> {
    var e := Evaluate(q, l.intent, now);
    var intent := WithBaseline(l.intent, e);
    var written := if e.baselineUpdatedAt.Some? then BaselineWritten(db, l.id, e.baseline, e.stop) else Ok(db);
    if written.Err? || !e.shouldTrigger then written
    else
      var row := TriggerRowFor(l.id, intent, e, q, now);
      if row.Err? then Err(row.error)
      else
        var persisted := Persisted(written.value, row.value, NoteKindOf(intent.strategy));
        if persisted.Ok? then Ok(persisted.value) else written
  }

  function ProcessedAll(db: Db, q: Quote, now: Instant, listed: seq<Listed>): Result<Db, Fault>
    decreases |listed|
  {
    if listed == [] then Ok(db)
    else
      var first := Processed(db, q, now, listed[0]);
      if first.Err? then first else ProcessedAll(first.value, q, now, listed[1..])
  }

  /** The listing holds each active intent on the symbol once, in some order. */
  ghost predicate IsListing(db: Db, symbol: Symbol, listed: seq<Listed>) {
    && (forall k :: 0 <= k < |listed| ==>
          && listed[k].id in db.rows && listed[k].intent == db.rows[listed[k].id]
          && listed[k].intent.status.Active? && listed[k].intent.symbol == symbol)
    && (forall j, k :: 0 <= j < k < |listed| ==> listed[j].id != listed[k].id)
    && (forall id :: id in db.rows && db.rows[id].status.Active? && db.rows[id].symbol == symbol ==>
          exists k :: 0 <= k < |listed| && listed[k].id == id)
  }

  /** One dispatch: the lifecycle commits first; a fault later undoes only what follows it. */
  function Dispatched(db: Db, q: Quote, now: Instant, later: Instant, halted: bool, listed: seq<Listed>): Db {
    if halted then db
    else
      var ready := LifecycleRun(db, later);
      var done := ProcessedAll(ready, q, now, listed);
      if done.Ok? then done.value else ready
  }

  // ---------------------------------------------------------------- creating

  /** The creation caps, which a deployment may leave out. */
  datatype Limits = Unlimited | Limits(perUser: nat, perSymbol: nat)

  predicate UserCapReached(l: Limits, live: nat) {
    l.Limits? && live >= l.perUser
  }

  predicate SymbolCapReached(l: Limits, live: nat) {
    l.Limits? && live >= l.perSymbol
  }

  datatype CreateInput = CreateInput(
    owner: UserId,
    symbol: Symbol,
    strategy: Strategy,
    quantity: int,
    mode: TransactionMode,
    target: Option<Dec>,
    trailMode: Option<TrailMode>,
    trailValue: Option<Dec>)

  datatype CreateError =
    | UnknownSymbol | BadParameters | BadPrice(reason: PriceError)
    | UserLimit | SymbolLimit | DuplicateIntent | SubscriptionFailed | InlineFault(fault: Fault)

  function ModeText(m: TrailMode): Text {
    if m.Percentage? then "percentage" else "fixed_amount"
  }

  /** The text the duplicate check compares. */
  function DedupKey(i: Intent): Text {
    if i.strategy.TrailingStop? && i.trail.Some? then ModeText(i.trail.value.mode) + ":" + FormatPrice(i.trail.value.value)
    else if i.target.Some? then FormatPrice(i.target.value)
    else ""
  }

  predicate Clashes(a: Intent, b: Intent) {
    && a.owner == b.owner && a.symbol == b.symbol && a.strategy == b.strategy
    && DedupKey(a) == DedupKey(b) && a.quantity == b.quantity && a.tradingDate == b.tradingDate
  }

  function LiveOf(db: Db, owner: UserId): set<IntentId> {
    set id | id in db.rows && db.rows[id].owner == owner && IsLive(db.rows[id].status)
  }

  function LiveOn(db: Db, owner: UserId, symbol: Symbol): set<IntentId> {
    set id | id in db.rows && db.rows[id].owner == owner && db.rows[id].symbol == symbol && IsLive(db.rows[id].status)
  }

  /** The parameter rules of the command. */
  function CheckParameters(inp: CreateInput, security: SecurityType): Result<(), CreateError> {
    if inp.strategy.TrailingStop? then
      if inp.trailMode.None? || inp.trailValue.None? then Err(BadParameters)
      else if inp.trailMode.value.FixedAmount? && !ValidFixedAmount(security, Value(inp.trailValue.value)) then Err(BadParameters)
      else Ok(())
    else if IsMarket(inp.strategy) then Ok(())
    else if inp.target.None? then Err(BadParameters)
    else
      var price := Validate(security, inp.quantity, Value(inp.target.value));
      if price.Err? then Err(BadPrice(price.error))
      else if inp.strategy.TwapOrder? then Err(BadParameters)
      else Ok(())
  }

  /** What the repository refuses on top, once the caps are passed. */
  predicate HasStrayTrail(inp: CreateInput) {
    !inp.strategy.TrailingStop? && (inp.trailMode.Some? || inp.trailValue.Some?)
  }

  function TrailOf(inp: CreateInput): Option<Trail> {
    if inp.trailMode.Some? && inp.trailValue.Some? then Some(Trail(inp.trailMode.value, inp.trailValue.value)) else None
  }

  function NewIntent(inp: CreateInput, security: SecurityType, now: Instant): Intent {
    Intent(inp.owner, inp.symbol, security, inp.strategy, inp.quantity, inp.mode,
           if inp.strategy.TrailingStop? || IsMarket(inp.strategy) then None else inp.target,
           TrailOf(inp), TradingDate(now), if StartsActive(now) then Active else Scheduled, None, None)
  }

  /** The table's own checks, whose violation is reported as a duplicate. */
  predicate PassesChecks(i: Intent) {
    i.quantity > 0 && (i.trail.Some? ==> ValidTrail(i.trail.value)) && (i.target.Some? ==> Value(i.target.value) > 0.0)
  }

  function Inserted(db: Db, id: IntentId, i: Intent): Db {
    db.(rows := db.rows[id := i])
  }

  predicate ClashesInDb(db: Db, i: Intent) {
    exists id :: id in db.rows && IsLive(db.rows[id].status) && Clashes(db.rows[id], i)
  }

  /** Validate, cap, insert, subscribe, trigger inline; all or nothing. */
  function Created(db: Db, id: IntentId, inp: CreateInput, security: Option<SecurityType>, limits: Limits,
                   now: Instant, subscribed: bool, halted: bool, quote: Option<Quote>): Result<Db, CreateError>
    requires id !in db.rows
  {
    if security.None? then Err(UnknownSymbol)
    else
      var parameters := CheckParameters(inp, security.value);
      if parameters.Err? then Err(parameters.error)
      else if UserCapReached(limits, |LiveOf(db, inp.owner)|) then Err(UserLimit)
      else if SymbolCapReached(limits, |LiveOn(db, inp.owner, inp.symbol)|) then Err(SymbolLimit)
      else if HasStrayTrail(inp) then Err(BadParameters)
      else
        var intent := NewIntent(inp, security.value, now);
        if ClashesInDb(db, intent) || !PassesChecks(intent) then Err(DuplicateIntent)
        else if !subscribed then Err(SubscriptionFailed)
        else
          var inserted := Inserted(db, id, intent);
          if !StartsActive(now) || halted || quote.None? then Ok(inserted)
          else
            var done := Processed(inserted, quote.value, now, Listed(id, intent));
            if done.Err? then Err(InlineFault(done.error)) else Ok(done.value)
  }
}
