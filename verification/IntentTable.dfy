/**
 The commands as they run: fields updated statement by statement, with a savepoint around
 a trigger and a rollback when a command fails.  Each method has exactly the effect of the
 function of the same purpose in IntentStore, about which the runs are reasoned.
 */
module IntentTable {
  import opened Outcomes
  import opened Price
  import opened TradingSession
  import opened Intents
  import opened QuoteEvaluation
  import opened IntentStore

  class Table {
    var rows: map<IntentId, Intent>
    var triggers: seq<TriggerRow>
    var notes: seq<Note>

    function Contents(): Db
      reads this
    {
      Db(rows, triggers, notes)
    }

    constructor ()
      ensures Contents() == EmptyDb()
    {
      rows, triggers, notes := map[], [], [];
    }

    method ExpireThrough(cutoff: Day) returns (count: nat)
      modifies this`rows
      ensures Contents() == ExpiredThrough(old(Contents()), cutoff)
      ensures count == |set id | id in old(rows) && rows[id] != old(rows)[id]|
    {
      var open := set id | id in rows && IsLive(rows[id].status) && rows[id].tradingDate <= cutoff;
      rows := map id | id in rows :: if id in open then rows[id].(status := Expired) else rows[id];
      assert open == set id | id in old(rows) && rows[id] != old(rows)[id];
      count := |open|;
    }

    method ActivateScheduled(day: Day) returns (count: nat)
      modifies this`rows
      ensures Contents() == ActivatedOn(old(Contents()), day)
      ensures count == |set id | id in old(rows) && rows[id] != old(rows)[id]|
    {
      var due := set id | id in rows && rows[id].status.Scheduled? && rows[id].tradingDate == day;
      rows := map id | id in rows :: if id in due then rows[id].(status := Active) else rows[id];
      assert due == set id | id in old(rows) && rows[id] != old(rows)[id];
      count := |due|;
    }

    method CancelForOwner(owner: UserId) returns (count: nat)
      modifies this`rows
      ensures Contents() == OwnerDisabled(old(Contents()), owner)
      ensures count == |LiveOf(old(Contents()), owner)|
    {
      var open := LiveOf(Contents(), owner);
      rows := map id | id in rows :: if id in open then rows[id].(status := CancelledByAccountDisabled) else rows[id];
      count := |open|;
    }

    method Cancel(id: IntentId, owner: UserId) returns (r: Result<Intent, CancelError>)
      modifies this`rows
      ensures Contents() == CancelledBy(old(Contents()), id, owner)
      ensures r.Ok? <==> CancelCheck(old(Contents()), id, owner).Ok?
      ensures r.Ok? ==> id in rows && r.value == rows[id] && r.value.status.Cancelled?
      ensures r.Err? ==> r.error == CancelCheck(old(Contents()), id, owner).error
    {
      if id !in rows || rows[id].owner != owner {
        return Err(NotFound);
      }
      if rows[id].status.Cancelled? {
        return Ok(rows[id]);
      }
      if !IsLive(rows[id].status) {
        return Err(NotAllowed(rows[id].status));
      }
      rows := rows[id := rows[id].(status := Cancelled)];
      r := Ok(rows[id]);
    }

    /** A trailing row takes both values, whatever its status, and no other row or field changes. */
    method UpdateTrailingBaseline(id: IntentId, baseline: Option<real>, stop: Option<real>) returns (r: Result<(), Fault>)
      modifies this`rows
      ensures r.Ok? <==> BaselineWritten(old(Contents()), id, baseline, stop).Ok?
      ensures r.Ok? ==> Contents() == BaselineWritten(old(Contents()), id, baseline, stop).value
      ensures r.Err? ==> Contents() == old(Contents()) && r == Err(NoTrailingRow)
      ensures r.Ok? <==> id in old(rows) && old(rows)[id].trail.Some?
      ensures rows.Keys == old(rows).Keys && forall other :: other in rows && other != id ==> rows[other] == old(rows)[other]
      ensures r.Ok? ==> rows[id] == old(rows)[id].(baseline := rows[id].baseline, stop := rows[id].stop)
      ensures r.Ok? ==> rows[id].baseline == baseline && rows[id].stop == stop
    {
      if id !in rows || rows[id].trail.None? {
        return Err(NoTrailingRow);
      }
      rows := rows[id := rows[id].(baseline := baseline, stop := stop)];
      r := Ok(());
    }

    /** Runs inside a savepoint: a refusal leaves nothing behind. */
    method PersistTrigger(row: TriggerRow, kind: NoteKind) returns (r: Result<(), PersistError>)
      modifies this
      ensures r.Ok? <==> Persisted(old(Contents()), row, kind).Ok?
      ensures r.Ok? ==> Contents() == Persisted(old(Contents()), row, kind).value
      ensures r.Err? ==> Contents() == old(Contents()) && r.error == Persisted(old(Contents()), row, kind).error
    {
      var id, savepoint := row.intent, rows;
      if id !in rows || !rows[id].status.Active? {
        return Err(NotActive);
      }
      rows := rows[id := rows[id].(status := Triggered)];
      if HasTrigger(triggers, id) {
        rows := savepoint;
        return Err(Duplicate);
      }
      triggers := triggers + [row];
      notes := notes + [Note(kind, id)];
      r := Ok(());
    }

    method ListActive(symbol: Symbol) returns (listed: seq<Listed>)
      ensures IsListing(Contents(), symbol, listed)
    {
      listed := [];
      var left := set id | id in rows && rows[id].status.Active? && rows[id].symbol == symbol;
      while left != {}
        invariant forall id :: id in left ==> id in rows && rows[id].status.Active? && rows[id].symbol == symbol
        invariant forall k :: 0 <= k < |listed| ==>
                    && listed[k].id in rows && listed[k].intent == rows[listed[k].id] && listed[k].id !in left
                    && listed[k].intent.status.Active? && listed[k].intent.symbol == symbol
        invariant forall j, k :: 0 <= j < k < |listed| ==> listed[j].id != listed[k].id
        invariant forall id :: id in rows && rows[id].status.Active? && rows[id].symbol == symbol ==>
                    id in left || exists k :: 0 <= k < |listed| && listed[k].id == id
        decreases left
      {
        var id :| id in left;
        ghost var before := listed;
        listed := listed + [Listed(id, rows[id])];
        left := left - {id};
        assert listed[|before|].id == id;
        forall other | other in rows && rows[other].status.Active? && rows[other].symbol == symbol && other !in left
          ensures exists k :: 0 <= k < |listed| && listed[k].id == other
        {
          if other != id {
            var k :| 0 <= k < |before| && before[k].id == other;
            assert listed[k].id == other;
          }
        }
      }
    }

    method RunLifecycle(now: Instant) returns (activated: nat, expired: nat)
      modifies this`rows
      ensures Contents() == LifecycleRun(old(Contents()), now)
    {
      expired := ExpireThrough(ExpiryCutoff(now));
      activated := 0;
      if PhaseAt(now).RegularSession? {
        activated := ActivateScheduled(DayOf(now));
      }
    }

    /** One listed intent's turn: baseline write-back, then the trigger if the quote meets it. */
    method ProcessListed(q: Quote, now: Instant, l: Listed) returns (r: Result<(), Fault>)
      modifies this
      ensures r.Ok? <==> Processed(old(Contents()), q, now, l).Ok?
      ensures r.Ok? ==> Contents() == Processed(old(Contents()), q, now, l).value
      ensures r.Err? ==> r.error == Processed(old(Contents()), q, now, l).error
    {
      var e := Evaluate(q, l.intent, now);
      var intent := l.intent;
      if e.baselineUpdatedAt.Some? {
        var written := UpdateTrailingBaseline(l.id, e.baseline, e.stop);
        if written.Err? {
          return Err(written.error);
        }
        intent := intent.(baseline := e.baseline, stop := e.stop);
      }
      if !e.shouldTrigger {
        return Ok(());
      }
      var row := TriggerRowFor(l.id, intent, e, q, now);
      if row.Err? {
        return Err(row.error);
      }
      var persisted := PersistTrigger(row.value, NoteKindOf(intent.strategy));
      r := Ok(());
    }

    /** The dispatcher: lifecycle, listing, then the loop; a fault rolls the loop back. */
    method Dispatch(q: Quote, now: Instant, later: Instant, halted: bool) returns (listed: seq<Listed>)
      modifies this
      ensures Contents() == Dispatched(old(Contents()), q, now, later, halted, listed)
      ensures !halted ==> IsListing(LifecycleRun(old(Contents()), later), q.symbol, listed)
    {
      listed := [];
      if halted {
        return;
      }
      var activated, expired := RunLifecycle(later);
      ghost var ready := Contents();
      var savedRows, savedTriggers, savedNotes := rows, triggers, notes;
      listed := ListActive(q.symbol);
      var k := 0;
      while k < |listed|
        invariant 0 <= k <= |listed|
        invariant ProcessedAll(ready, q, now, listed) == ProcessedAll(Contents(), q, now, listed[k..])
      {
        var turn := ProcessListed(q, now, listed[k]);
        if turn.Err? {
          rows, triggers, notes := savedRows, savedTriggers, savedNotes;
          return;
        }
        assert listed[k..][1..] == listed[k + 1..];
        k := k + 1;
      }
    }

    /** The create command: all its writes land together or none does. */
    method Create(id: IntentId, inp: CreateInput, security: Option<SecurityType>, limits: Limits,
                  now: Instant, subscribed: bool, halted: bool, quote: Option<Quote>)
      returns (r: Result<(), CreateError>)
      requires id !in rows
      modifies this
      ensures var spec := Created(old(Contents()), id, inp, security, limits, now, subscribed, halted, quote);
              && (r.Ok? <==> spec.Ok?)
              && (r.Ok? ==> Contents() == spec.value)
              && (r.Err? ==> Contents() == old(Contents()) && r.error == spec.error)
    {
      if security.None? {
        return Err(UnknownSymbol);
      }
      var parameters := CheckParameters(inp, security.value);
      if parameters.Err? {
        return Err(parameters.error);
      }
      if limits.Limits? && |LiveOf(Contents(), inp.owner)| >= limits.perUser {
        return Err(UserLimit);
      }
      if limits.Limits? && |LiveOn(Contents(), inp.owner, inp.symbol)| >= limits.perSymbol {
        return Err(SymbolLimit);
      }
      if !inp.strategy.TrailingStop? && (inp.trailMode.Some? || inp.trailValue.Some?) {
        return Err(BadParameters);
      }
      var intent := NewIntent(inp, security.value, now);
      if ClashesInDb(Contents(), intent) || !PassesChecks(intent) {
        return Err(DuplicateIntent);
      }
      var savedRows, savedTriggers, savedNotes := rows, triggers, notes;
      rows := rows[id := intent];
      if !subscribed {
        rows := savedRows;
        return Err(SubscriptionFailed);
      }
      if StartsActive(now) && !halted && quote.Some? {
        var turn := ProcessListed(quote.value, now, Listed(id, intent));
        if turn.Err? {
          rows, triggers, notes := savedRows, savedTriggers, savedNotes;
          return Err(InlineFault(turn.error));
        }
      }
      r := Ok(());
    }
  }
}
