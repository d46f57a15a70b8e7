/**
 What callers get from the commands on the intent table: when a request is accepted and what
 is stored, what the clock and each quote do to a stored intent, what a trigger records, and
 what cancelling does. Each answer is exact and in the caller's terms.
 */
module IntentOutcomes {
  import opened Outcomes
  import opened DecimalText
  import opened Price
  import opened TradingSession
  import opened Intents
  import opened QuoteEvaluation
  import opened IntentStore
  import opened IntentProtocol
  import Runs = IntentRuns
  import opened TrailingRuns

  // ---------------------------------------------------------------- the clock

  /** What the clock makes of a status: over from the close on, and open from the opening on. */
  ghost function StatusAt(i: Intent, now: Instant): Status {
    if !IsLive(i.status) then i.status
    else if now >= CloseOf(i.tradingDate) then Expired
    else if now >= OpenOf(i.tradingDate) then Active
    else i.status
  }

  /** The lifecycle update expires exactly what has closed, activates exactly what is open, and touches nothing else. */
  lemma LifecycleIsExact(db: Db, now: Instant, id: IntentId)
    requires id in db.rows && IsTradingDay(db.rows[id].tradingDate)
    ensures var after := LifecycleRun(db, now);
            && after.rows.Keys == db.rows.Keys && after.triggers == db.triggers && after.notes == db.notes
            && after.rows[id] == db.rows[id].(status := StatusAt(db.rows[id], now))
  {
    hide ExpiryCutoff, DayOf, InSession, OpenOf, CloseOf;
    ExpiresExactlyAtClose(now, db.rows[id].tradingDate);
    SessionIsPhase(now);
  }

  lemma SessionIsPhase(now: Instant)
    ensures PhaseAt(now).RegularSession? <==> InSession(now)
  {
  }

  // ---------------------------------------------------------------- what a trigger records

  ghost predicate IsKindFor(s: Strategy, kind: NoteKind) {
    match kind
    case PriceTriggered => s.BuyPriceAlert? || s.SellPriceAlert?
    case LimitOrderTriggered => s.LimitBuy? || s.LimitSell?
    case MarketOrderTriggered => s.MarketOrder? || s.MarketBuy? || s.MarketSell?
    case TrailingStopTriggered => s.TrailingStop?
  }

  /** The row tells the quote, the price and side it fired on, and the level it was held to. */
  ghost predicate Tells(t: TriggerRow, id: IntentId, i: Intent, q: Quote, now: Instant) {
    var buys := i.strategy.BuyPriceAlert? || i.strategy.LimitBuy? || i.strategy.MarketOrder? || i.strategy.MarketBuy?;
    var side := if buys then q.ask else q.bid;
    && t.intent == id && t.at == now && t.quoteTime == q.quoteTime && t.quantity == i.quantity
    && (if side.Some? then Some(t.price) == side && !t.fallback && t.reference == (if buys then Ask else Bid)
        else Some(t.price) == q.last && t.fallback && t.reference == LastFallback)
    && (if i.strategy.TrailingStop? then t.baseline == i.baseline && t.stop == i.stop == Some(t.target)
        else t.baseline.None? && t.stop.None? && t.target == if i.target.Some? then Value(i.target.value) else t.price)
  }

  lemma TriggerTells(id: IntentId, i: Intent, q: Quote, now: Instant)
    requires Runs.WellFormed(i) && Evaluate(q, i, now).shouldTrigger
    ensures var e := Evaluate(q, i, now);
            var row := TriggerRowFor(id, WithBaseline(i, e), e, q, now);
            && (row.Ok? ==> Tells(row.value, id, Judged(i, e), q, now))
            && IsKindFor(i.strategy, NoteKindOf(i.strategy))
  {
    hide InSession, Value, StopBelow;
  }

  /** A trigger goes through exactly on an active intent without one, and then the three writes go together. */
  lemma PersistIsExact(db: Db, row: TriggerRow, kind: NoteKind)
    ensures var r, id := Persisted(db, row, kind), row.intent;
            var active := id in db.rows && db.rows[id].status.Active?;
            && (r.Ok? <==> active && !HasTrigger(db.triggers, id))
            && (r == Err(NotActive) <==> !active)
            && (r.Ok? ==>
                  && r.value.rows == db.rows[id := db.rows[id].(status := Triggered)]
                  && r.value.triggers == db.triggers + [row] && r.value.notes == db.notes + [Note(kind, id)])
  {
    hide HasTrigger;
  }

  // ---------------------------------------------------------------- a quote

  ghost function NotesOf(notes: seq<Note>, id: IntentId): seq<Note> {
    if notes == [] then []
    else
      var last := notes[|notes| - 1];
      NotesOf(notes[..|notes| - 1], id) + if last.intent == id then [last] else []
  }

  lemma NotesOfAppended(notes: seq<Note>, n: Note, id: IntentId)
    ensures NotesOf(notes + [n], id) == NotesOf(notes, id) + if n.intent == id then [n] else []
  {
    assert (notes + [n])[..|notes|] == notes;
  }

  /** All the database holds about an intent. */
  datatype Account = Account(row: Intent, triggers: seq<TriggerRow>, notes: seq<Note>)

  ghost function AccountOf(db: Db, id: IntentId): Account
    requires id in db.rows
  {
    Account(db.rows[id], TriggersOf(db.triggers, id), NotesOf(db.notes, id))
  }

  /** The account after one evaluation. */
  ghost function Accounted(a: Account, id: IntentId, q: Quote, now: Instant): Account {
    var e := Evaluate(q, a.row, now);
    Account(Judged(a.row, e), a.triggers + Fired(id, a.row, e, q, now), a.notes + Noted(id, a.row, e))
  }

  lemma TurnAccount(db: Db, limits: Limits, clock: Instant, q: Quote, now: Instant, l: Listed, id: IntentId)
    requires Runs.Invariant(db, limits, clock) && l.id in db.rows && db.rows[l.id] == l.intent && l.intent.status.Active?
    requires InSession(now) ==> DayOf(now) == l.intent.tradingDate
    requires id in db.rows
    ensures var after := Processed(db, q, now, l);
            && after.Ok? && after.value.rows.Keys == db.rows.Keys
            && AccountOf(after.value, id) == if id == l.id then Accounted(AccountOf(db, id), id, q, now) else AccountOf(db, id)
  {
    hide Evaluate, Processed, Runs.Invariant, TriggerRowFor, TriggersOf, NotesOf, NoteKindOf;
    var e := Evaluate(q, l.intent, now);
    TurnEffect(db, limits, clock, q, now, l);
    assert db.triggers + [] == db.triggers && db.notes + [] == db.notes;
    if e.shouldTrigger {
      RowIsOfIntent(l.id, WithBaseline(l.intent, e), e, q, now);
      TriggersOfAppended(db.triggers, TriggerRowFor(l.id, WithBaseline(l.intent, e), e, q, now).value, id);
      NotesOfAppended(db.notes, Note(NoteKindOf(l.intent.strategy), l.id), id);
    }
  }

  /** The loop evaluates each listed intent once, and leaves every other account as it is. */
  lemma {:induction false} LoopAccounts(db: Db, limits: Limits, clock: Instant, q: Quote, now: Instant, listed: seq<Listed>, id: IntentId)
    requires Runs.Invariant(db, limits, clock) && Runs.StillListed(db, listed) && OfToday(listed, now) && id in db.rows
    ensures var after := ProcessedAll(db, q, now, listed);
            && after.Ok? && after.value.rows.Keys == db.rows.Keys
            && AccountOf(after.value, id)
               == if Lists(listed, id) then Accounted(AccountOf(db, id), id, q, now) else AccountOf(db, id)
    decreases |listed|
  {
    hide Runs.Invariant, Processed, OfToday, Runs.StillListed, AccountOf, Accounted;
    if listed != [] {
      FirstIsListed(db, listed, now);
      RestIsListed(db, limits, clock, q, now, listed);
      TurnAccount(db, limits, clock, q, now, listed[0], id);
      LoopAccounts(Processed(db, q, now, listed[0]).value, limits, clock, q, now, listed[1..], id);
      assert listed[0].id == id ==> Lists(listed, id);
    }
  }

  /** What one dispatch does to the account of any intent. */
  lemma DispatchAccount(s: Runs.Site, limits: Limits, c: Runs.Command, id: IntentId)
    requires Runs.Invariant(s.db, limits, s.clock) && Runs.Enabled(s, c) && c.DispatchCommand? && !c.halted && id in s.db.rows
    ensures var ready, after := LifecycleRun(s.db, c.later), Runs.Execute(s, limits, c).db;
            && id in ready.rows && id in after.rows
            && AccountOf(after, id)
               == if Receives(ready, c.snapshot, id) then Accounted(AccountOf(ready, id), id, c.snapshot, c.now)
                  else AccountOf(ready, id)
  {
    hide Runs.Invariant, ProcessedAll, LifecycleRun, IsListing, Runs.StillListed, AccountOf, Accounted;
    var ready := LifecycleRun(s.db, c.later);
    Runs.LifecycleKeepsInvariant(s.db, limits, s.clock, c.later);
    Runs.LifecycleKeys(s.db, c.later);
    ListingIsExact(ready, c.snapshot, c.listed, id);
    AllOfToday(s, limits, c);
    LoopAccounts(ready, limits, c.later, c.snapshot, c.now, c.listed, id);
  }

  /** The quote is on the intent's symbol, in its session as both readings of the clock have it, and on its terms. */
  ghost predicate ShouldFire(i: Intent, stop: Option<real>, q: Quote, now: Instant, later: Instant) {
    && IsLive(i.status) && i.symbol == q.symbol
    && OpenOf(i.tradingDate) <= now && later < CloseOf(i.tradingDate)
    && IsUsable(q, now) && MeetsTerms(i, stop, q)
  }

  /**
   In every state of every run, a dispatch that is not halted triggers an intent exactly when
   it should: live, on the quote's symbol, its session open, the quote usable and its terms
   met, whether it was already active or still scheduled. Any other intent is left to the
   clock. The trigger is recorded once, in full, with one notification of the right kind.
   */
  lemma DispatchFiresExactly(s: Runs.Site, limits: Limits, c: Runs.Command, id: IntentId)
    requires Runs.Invariant(s.db, limits, s.clock) && Runs.Enabled(s, c) && c.DispatchCommand? && !c.halted
    requires id in s.db.rows && !s.db.rows[id].status.Triggered?
    ensures var i, after := s.db.rows[id], Runs.Execute(s, limits, c).db;
            && id in after.rows
            && (after.rows[id].status.Triggered? <==> ShouldFire(i, after.rows[id].stop, c.snapshot, c.now, c.later))
            && (!after.rows[id].status.Triggered? ==>
                  && after.rows[id].status == StatusAt(i, c.later)
                  && TriggersOf(after.triggers, id) == TriggersOf(s.db.triggers, id) && NotesOf(after.notes, id) == NotesOf(s.db.notes, id))
            && (after.rows[id].status.Triggered? ==>
                  exists t, kind ::
                    && TriggersOf(after.triggers, id) == TriggersOf(s.db.triggers, id) + [t]
                    && NotesOf(after.notes, id) == NotesOf(s.db.notes, id) + [Note(kind, id)]
                    && Tells(t, id, after.rows[id], c.snapshot, c.now) && IsKindFor(i.strategy, kind))
  {
    hide Runs.Invariant, LifecycleRun, Evaluate, TriggersOf, NotesOf, Runs.WellFormed, Tells, IsKindFor, TriggerRowFor, NoteKindOf, IsUsable, MeetsTerms;
    var i, ready, after := s.db.rows[id], LifecycleRun(s.db, c.later), Runs.Execute(s, limits, c).db;
    DispatchAccount(s, limits, c, id);
    assert IsTradingDay(i.tradingDate) && Runs.WellFormed(i) by { RowIsOfTradingDay(s, limits, id); }
    LifecycleIsExact(s.db, c.later, id);
    var row := ready.rows[id];
    if Receives(ready, c.snapshot, id) {
      var e := Evaluate(c.snapshot, row, c.now);
      FireIsInSession(s, limits, c, id);
      TriggersExactlyOnTerms(c.snapshot, row, c.now);
      TermsIgnoreStatus(i, row, after.rows[id].stop, c.snapshot);
      assert TriggersOf(s.db.triggers, id) + [] == TriggersOf(s.db.triggers, id);
      assert NotesOf(s.db.notes, id) + [] == NotesOf(s.db.notes, id);
      assert Runs.WellFormed(row) by { StatusKeepsWellFormed(i, row); }
      if e.shouldTrigger {
        Runs.EvaluationIsRecordable(id, row, c.snapshot, c.now);
        TriggerTells(id, row, c.snapshot, c.now);
        var t := TriggerRowFor(id, WithBaseline(row, e), e, c.snapshot, c.now).value;
        assert Fired(id, row, e, c.snapshot, c.now) == [t];
      }
    } else {
      UsableIsInSession(c.snapshot, c.now);
      NotReceivedShouldNotFire(i, row, c);
    }
  }

  /** A halted dispatch changes nothing at all. */
  lemma HaltedDispatchIsSilent(s: Runs.Site, limits: Limits, c: Runs.Command)
    requires Runs.Enabled(s, c) && c.DispatchCommand? && c.halted
    ensures Runs.Execute(s, limits, c).db == s.db
  {
  }

  lemma NotReceivedShouldNotFire(i: Intent, row: Intent, c: Runs.Command)
    requires c.DispatchCommand? && c.now <= c.later && row == i.(status := StatusAt(i, c.later))
    requires !(row.status.Active? && row.symbol == c.snapshot.symbol)
    ensures !ShouldFire(i, row.stop, c.snapshot, c.now, c.later)
  {
    hide OpenOf, CloseOf, IsUsable, MeetsTerms;
  }

  lemma UsableIsInSession(q: Quote, now: Instant)
    ensures IsUsable(q, now) ==> InSession(now)
  {
  }

  lemma RowIsOfTradingDay(s: Runs.Site, limits: Limits, id: IntentId)
    requires Runs.Invariant(s.db, limits, s.clock) && id in s.db.rows
    ensures Runs.WellFormed(s.db.rows[id]) && IsTradingDay(s.db.rows[id].tradingDate)
  {
    hide Sound, Runs.TriggersFit, Runs.Distinct, Runs.Capped;
  }

  lemma StatusKeepsWellFormed(i: Intent, j: Intent)
    requires Runs.WellFormed(i) && j == i.(status := j.status)
    ensures Runs.WellFormed(j)
  {
  }

  lemma TermsIgnoreStatus(i: Intent, j: Intent, stop: Option<real>, q: Quote)
    requires j == i.(status := j.status)
    ensures MeetsTerms(i, stop, q) <==> MeetsTerms(j, stop, q)
  {
    hide Value;
  }

  /** What a dispatch evaluates usefully is in session on its own date. */
  lemma FireIsInSession(s: Runs.Site, limits: Limits, c: Runs.Command, id: IntentId)
    requires Runs.Invariant(s.db, limits, s.clock) && Runs.Enabled(s, c) && c.DispatchCommand? && !c.halted
    requires id in s.db.rows && Receives(LifecycleRun(s.db, c.later), c.snapshot, id) && IsTradingDay(s.db.rows[id].tradingDate)
    ensures var i := s.db.rows[id];
            && IsLive(i.status) && i.symbol == c.snapshot.symbol && c.later < CloseOf(i.tradingDate)
            && (IsUsable(c.snapshot, c.now) ==> OpenOf(i.tradingDate) <= c.now)
            && (InSession(c.now) ==> DayOf(c.now) == i.tradingDate)
  {
    hide Runs.Invariant, LifecycleRun, OpenOf, CloseOf, InSession, DayOf, MeetsTerms;
    var i := s.db.rows[id];
    LifecycleIsExact(s.db, c.later, id);
    if InSession(c.now) {
      Runs.ListedAreToday(s.db, limits, s.clock, c.now, c.later, id);
      ExpiresExactlyAtClose(c.now, i.tradingDate);
    }
    UsableIsInSession(c.snapshot, c.now);
  }

  // ---------------------------------------------------------------- cancelling

  /** Only the owner's live intent is cancelled, and nothing else changes; the answer says which it was. */
  lemma CancelIsExact(db: Db, id: IntentId, owner: UserId)
    ensures var after, answer := CancelledBy(db, id, owner), CancelCheck(db, id, owner);
            var mine := id in db.rows && db.rows[id].owner == owner;
            && after.triggers == db.triggers && after.notes == db.notes && after.rows.Keys == db.rows.Keys
            && (forall other :: other in db.rows && (other != id || !mine || !IsLive(db.rows[id].status)) ==> after.rows[other] == db.rows[other])
            && (mine && IsLive(db.rows[id].status) ==> after.rows[id] == db.rows[id].(status := Cancelled))
            && (answer == Err(NotFound) <==> !mine)
            && (answer.Ok? <==> mine && (IsLive(db.rows[id].status) || db.rows[id].status.Cancelled?))
            && (mine && answer.Err? ==> answer == Err(NotAllowed(db.rows[id].status)))
  {
  }

  /** Exactly the owner's live intents end when the account is disabled. */
  lemma DisableIsExact(db: Db, owner: UserId, id: IntentId)
    requires id in db.rows
    ensures var after := OwnerDisabled(db, owner);
            && after.rows.Keys == db.rows.Keys && after.triggers == db.triggers && after.notes == db.notes
            && after.rows[id] == (if db.rows[id].owner == owner && IsLive(db.rows[id].status)
                                  then db.rows[id].(status := CancelledByAccountDisabled) else db.rows[id])
            && (db.rows[id].owner == owner ==> !IsLive(after.rows[id].status))
  {
  }

  // ---------------------------------------------------------------- creating

  ghost predicate CarriesNoTrail(inp: CreateInput) {
    inp.trailMode.None? && inp.trailValue.None?
  }

  ghost predicate IsWholeNumberOf(value: real, unit: real) {
    exists k: nat :: Times(k, unit) == value
  }

  /** The parameters each strategy needs, and nothing it does not. */
  ghost predicate ParametersFit(inp: CreateInput, security: SecurityType) {
    && inp.quantity > 0 && !inp.strategy.TwapOrder?
    && (if inp.strategy.TrailingStop? then
          && inp.trailMode.Some? && inp.trailValue.Some? && Value(inp.trailValue.value) > 0.0
          && (inp.trailMode.value.Percentage? ==> Value(inp.trailValue.value) <= 10.0)
          && (inp.trailMode.value.FixedAmount? ==>
                IsWholeNumberOf(Value(inp.trailValue.value), if security.Etf? then 0.05 else 0.1))
        else CarriesNoTrail(inp))
    && (!inp.strategy.TrailingStop? && !IsMarket(inp.strategy) ==>
          inp.target.Some? && Legal(security, Value(inp.target.value)))
  }

  /** A stored intent that asks for the same as this request would. */
  ghost predicate AsksTheSame(i: Intent, inp: CreateInput, date: Day) {
    && i.owner == inp.owner && i.symbol == inp.symbol && i.strategy == inp.strategy
    && i.quantity == inp.quantity && i.tradingDate == date
    && (inp.strategy.TrailingStop? && i.trail.Some? && inp.trailMode.Some? && inp.trailValue.Some? ==>
          i.trail.value.mode == inp.trailMode.value && Value(i.trail.value.value) == Value(inp.trailValue.value))
    && (!inp.strategy.TrailingStop? && !IsMarket(inp.strategy) && i.target.Some? && inp.target.Some? ==>
          Value(i.target.value) == Value(inp.target.value))
  }

  ghost predicate HasDouble(db: Db, inp: CreateInput, date: Day) {
    exists id :: id in db.rows && IsLive(db.rows[id].status) && AsksTheSame(db.rows[id], inp, date)
  }

  ghost predicate HasRoom(db: Db, limits: Limits, inp: CreateInput) {
    limits.Limits? ==> |LiveOf(db, inp.owner)| < limits.perUser && |LiveOn(db, inp.owner, inp.symbol)| < limits.perSymbol
  }

  lemma FixedAmountExactly(security: SecurityType, value: real)
    requires value > 0.0
    ensures ValidFixedAmount(security, value) <==> IsWholeNumberOf(value, if security.Etf? then 0.05 else 0.1)
  {
    hide IsMultiple;
    var tick := if security.Etf? then 0.05 else 0.1;
    if IsMultiple(value, tick) {
      WholeTicks(value, tick);
    }
    forall k: nat | Times(k, tick) == value
      ensures IsMultiple(value, tick)
    {
      MultipleBy(value, tick, k);
    }
  }

  lemma ParametersFitExactly(inp: CreateInput, security: SecurityType, now: Instant)
    ensures ParametersFit(inp, security) <==>
            CheckParameters(inp, security).Ok? && !HasStrayTrail(inp) && PassesChecks(NewIntent(inp, security, now))
  {
    hide Value, Validate, ValidFixedAmount, TradingDate, StartsActive, Legal, IsWholeNumberOf;
    if inp.strategy.TrailingStop? {
      if inp.trailMode.Some? && inp.trailValue.Some? {
        Runs.PositiveValue(inp.trailValue.value);
        if Value(inp.trailValue.value) > 0.0 {
          FixedAmountExactly(security, Value(inp.trailValue.value));
        }
      }
    } else if !IsMarket(inp.strategy) && inp.target.Some? {
      RejectedPriceIsBracketed(security, inp.quantity, Value(inp.target.value));
      LegalIsPositive(security, Value(inp.target.value));
    }
  }

  lemma LegalIsPositive(security: SecurityType, price: real)
    ensures Legal(security, price) ==> price > 0.0
  {
  }

  lemma SameExactly(i: Intent, inp: CreateInput, security: SecurityType, now: Instant)
    requires Runs.WellFormed(i) && ParametersFit(inp, security) && Runs.WellFormed(NewIntent(inp, security, now))
    ensures Runs.NumericallySame(i, NewIntent(inp, security, now)) <==> AsksTheSame(i, inp, TradingDate(now))
  {
    hide Value, TradingDate, StartsActive, Legal, IsTradingDay, StopAt;
  }

  lemma DoubleExactly(db: Db, limits: Limits, clock: Instant, inp: CreateInput, security: SecurityType, now: Instant)
    requires Runs.Invariant(db, limits, clock) && ParametersFit(inp, security)
    ensures HasDouble(db, inp, TradingDate(now)) <==> ClashesInDb(db, NewIntent(inp, security, now))
  {
    hide Sound, Runs.TriggersFit, Runs.Distinct, Runs.Capped, Runs.WellFormed, ParametersFit, ClashesInDb, AsksTheSame, Runs.NumericallySame;
    hide NewIntent, TradingDate, CheckParameters, PassesChecks;
    var i := NewIntent(inp, security, now);
    ParametersFitExactly(inp, security, now);
    Runs.NewIntentFits(inp, security, now);
    Runs.DuplicateCheckIsNumeric(db, clock, i);
    forall id | id in db.rows
      ensures Runs.NumericallySame(db.rows[id], i) <==> AsksTheSame(db.rows[id], inp, TradingDate(now))
    {
      RowIsWellFormed(db, clock, id);
      SameExactly(db.rows[id], inp, security, now);
    }
  }

  /** A request is accepted exactly when all of this holds, and no other reason refuses it. */
  lemma CreateSucceedsExactly(
      db: Db, limits: Limits, clock: Instant, id: IntentId, inp: CreateInput, security: Option<SecurityType>,
      now: Instant, subscribed: bool, halted: bool, quote: Option<Quote>)
    requires Runs.Invariant(db, limits, clock) && clock <= now && id !in db.rows
    ensures Created(db, id, inp, security, limits, now, subscribed, halted, quote).Ok? <==>
            && security.Some? && ParametersFit(inp, security.value) && HasRoom(db, limits, inp)
            && !HasDouble(db, inp, TradingDate(now)) && subscribed
  {
    hide Runs.Invariant, CheckParameters, ClashesInDb, PassesChecks, NewIntent, Processed, LiveOf, LiveOn, ParametersFit, HasDouble, TradingDate;
    Runs.CreateKeepsInvariant(db, limits, clock, id, inp, security, now, subscribed, halted, quote);
    if security.Some? {
      ParametersFitExactly(inp, security.value, now);
      if ParametersFit(inp, security.value) {
        DoubleExactly(db, limits, clock, inp, security.value, now);
      }
    }
  }

  /** A refusal for one of these reasons is true. */
  lemma RefusalTellsWhy(
      db: Db, limits: Limits, clock: Instant, id: IntentId, inp: CreateInput, security: Option<SecurityType>,
      now: Instant, subscribed: bool, halted: bool, quote: Option<Quote>)
    requires Runs.Invariant(db, limits, clock) && clock <= now && id !in db.rows
    requires Created(db, id, inp, security, limits, now, subscribed, halted, quote).Err?
    ensures match Created(db, id, inp, security, limits, now, subscribed, halted, quote).error
            case UnknownSymbol => security.None?
            case BadParameters => security.Some? && !ParametersFit(inp, security.value)
            case BadPrice(_) => security.Some? && !ParametersFit(inp, security.value)
            case UserLimit => limits.Limits? && |LiveOf(db, inp.owner)| >= limits.perUser
            case SymbolLimit =>
              limits.Limits? && |LiveOf(db, inp.owner)| < limits.perUser && |LiveOn(db, inp.owner, inp.symbol)| >= limits.perSymbol
            case DuplicateIntent =>
              security.Some? && HasRoom(db, limits, inp)
              && (!ParametersFit(inp, security.value) || HasDouble(db, inp, TradingDate(now)))
            case SubscriptionFailed =>
              && !subscribed && security.Some? && ParametersFit(inp, security.value) && HasRoom(db, limits, inp)
              && !HasDouble(db, inp, TradingDate(now))
            case InlineFault(_) => false
  {
    hide Runs.Invariant, CheckParameters, ClashesInDb, PassesChecks, NewIntent, Processed, LiveOf, LiveOn, ParametersFit, HasDouble, TradingDate;
    Runs.CreateKeepsInvariant(db, limits, clock, id, inp, security, now, subscribed, halted, quote);
    if security.Some? {
      Runs.ParameterErrors(inp, security.value);
      ParametersFitExactly(inp, security.value, now);
      if ParametersFit(inp, security.value) {
        DoubleExactly(db, limits, clock, inp, security.value, now);
      }
    }
  }

  /** The stored intent is the request: for the next session, without what its strategy does not use. */
  ghost predicate IsAsAsked(i: Intent, inp: CreateInput, security: SecurityType, date: Day) {
    && i.owner == inp.owner && i.symbol == inp.symbol && i.security == security && i.strategy == inp.strategy
    && i.quantity == inp.quantity && i.mode == inp.mode && i.tradingDate == date
    && i.target == (if inp.strategy.TrailingStop? || IsMarket(inp.strategy) then None else inp.target)
    && (if inp.strategy.TrailingStop? then
          inp.trailMode.Some? && inp.trailValue.Some? && i.trail == Some(Trail(inp.trailMode.value, inp.trailValue.value))
        else i.trail.None? && i.baseline.None? && i.stop.None?)
  }

  lemma NewIntentIsAsAsked(inp: CreateInput, security: SecurityType, now: Instant)
    requires ParametersFit(inp, security)
    ensures var i := NewIntent(inp, security, now);
            && IsAsAsked(i, inp, security, TradingDate(now)) && i.baseline.None? && i.stop.None?
            && i.status == if InSession(now) then Active else Scheduled
  {
    hide TradingDate, InSession, Value, Legal;
  }

  lemma EvaluationKeepsAsAsked(i: Intent, inp: CreateInput, security: SecurityType, date: Day, q: Quote, now: Instant)
    requires IsAsAsked(i, inp, security, date) && Runs.WellFormed(i)
    ensures IsAsAsked(Judged(i, Evaluate(q, i, now)), inp, security, date)
  {
    hide StopBelow, Value, InSession;
  }

  lemma OthersStay(db: Db, id: IntentId, i: Intent, j: Intent)
    requires id !in db.rows
    ensures Inserted(db, id, i).rows[id := j] == db.rows[id := j]
  {
  }

  /**
   What an accepted request stores: itself, dated for the next session to come, beside rows
   that stay as they were. Outside a session it is scheduled; inside it is triggered at once
   exactly if triggers are not halted and the quote at hand is usable and meets its terms,
   and is active otherwise.
   */
  lemma CreateStoresRequest(s: Runs.Site, limits: Limits, c: Runs.Command)
    requires Runs.Invariant(s.db, limits, s.clock) && Runs.Enabled(s, c) && c.CreateCommand?
    requires Created(s.db, c.id, c.inp, c.security, limits, c.now, c.subscribed, c.halted, c.quote).Ok?
    ensures c.security.Some?
    ensures var after := Created(s.db, c.id, c.inp, c.security, limits, c.now, c.subscribed, c.halted, c.quote).value;
            && c.id in after.rows && after.rows == s.db.rows[c.id := after.rows[c.id]]
            && var i := after.rows[c.id];
               var fires := !c.halted && c.quote.Some? && IsUsable(c.quote.value, c.now) && MeetsTerms(i, i.stop, c.quote.value);
               && IsAsAsked(i, c.inp, c.security.value, TradingDate(c.now))
               && i.status == (if !InSession(c.now) then Scheduled else if fires then Triggered else Active)
               && (i.status.Triggered? <==> after.triggers != s.db.triggers)
               && (i.status.Triggered? ==>
                     exists t, kind :: after.triggers == s.db.triggers + [t] && after.notes == s.db.notes + [Note(kind, c.id)]
                                       && Tells(t, c.id, i, c.quote.value, c.now) && IsKindFor(i.strategy, kind))
  {
    hide Runs.Invariant, Created, NewIntent, Processed, CheckParameters, InSession, Evaluate, TradingDate, Runs.WellFormed;
    hide IsAsAsked, ParametersFit, HasRoom, HasDouble, TriggerRowFor, Tells, IsKindFor, NoteKindOf, IsUsable, MeetsTerms, PassesChecks;
    CreateSteps(s, limits, c);
    var i := NewIntent(c.inp, c.security.value, c.now);
    var inserted := Inserted(s.db, c.id, i);
    assert ParametersFit(c.inp, c.security.value) by {
      CreateSucceedsExactly(s.db, limits, s.clock, c.id, c.inp, c.security, c.now, c.subscribed, c.halted, c.quote);
    }
    NewIntentIsAsAsked(c.inp, c.security.value, c.now);
    OthersStay(s.db, c.id, i, i);
    if InSession(c.now) && !c.halted && c.quote.Some? {
      var q := c.quote.value;
      var e := Evaluate(q, i, c.now);
      TurnEffect(inserted, limits, c.now, q, c.now, Listed(c.id, i));
      OthersStay(s.db, c.id, i, Judged(i, e));
      assert Runs.WellFormed(i) by { InsertedIsWellFormed(inserted, limits, c.now, c.id); }
      EvaluationKeepsAsAsked(i, c.inp, c.security.value, TradingDate(c.now), q, c.now);
      TriggersExactlyOnTerms(q, i, c.now);
      TermsIgnoreValues(i, Judged(i, e), q);
      assert s.db.triggers + [] == s.db.triggers;
      if e.shouldTrigger {
        TriggerTells(c.id, i, q, c.now);
        var t := TriggerRowFor(c.id, WithBaseline(i, e), e, q, c.now).value;
        assert Fired(c.id, i, e, q, c.now) == [t] && |s.db.triggers + [t]| == |s.db.triggers| + 1;
      }
    }
  }

  lemma InsertedIsWellFormed(db: Db, limits: Limits, clock: Instant, id: IntentId)
    requires Runs.Invariant(db, limits, clock) && id in db.rows
    ensures Runs.WellFormed(db.rows[id])
  {
    hide Sound, Runs.TriggersFit, Runs.Distinct, Runs.Capped;
  }

  lemma TermsIgnoreValues(i: Intent, j: Intent, q: Quote)
    requires j == i.(status := j.status, baseline := j.baseline, stop := j.stop)
    ensures MeetsTerms(j, j.stop, q) <==> MeetsTerms(i, j.stop, q)
  {
    hide Value;
  }
}
