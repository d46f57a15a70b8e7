/**
 What a time-weighted order does for its owner: the stored order is the one requested, and
 each step of its life has exactly the effect its owner is told of.
 */
module TwapOutcomes {
  import opened Outcomes
  import opened TradingSession
  import opened Intents
  import opened TwapPlan
  import opened TwapBook
  import opened TwapRuns
  import opened TwapEndings

  // ---------------------------------------------------------------- single steps

  /** One announcement: exactly this slice and its order move, with one message sent now. */
  lemma NoticeIsExact(b: Book, p: Pick, now: Instant)
    requires p.key in b.slices && p.key.order in b.orders && IsLive(b.orders[p.key.order].status)
    ensures var c, k := SliceNotified(b, p, now), p.key;
            && c.notes == b.notes + [SliceNote(Primary, k, now)]
            && c.slices.Keys == b.slices.Keys && c.orders.Keys == b.orders.Keys
            && c.slices[k].status.Notified? && c.slices[k].price == p.price
            && c.slices[k].lots == b.slices[k].lots && c.slices[k].at == b.slices[k].at
            && (p.price.None? <==> c.slices[k].followupRequired)
            && (p.price.None? ==> c.slices[k].nextFollowup == Some(now + 10_000_000))
            && (forall other :: other in b.slices && other != k ==> c.slices[other] == b.slices[other])
            && (forall id :: id in b.orders && id != k.order ==> c.orders[id] == b.orders[id])
            && c.orders[k.order] == b.orders[k.order].(status := c.orders[k.order].status)
            && c.orders[k.order].status
               == if exists other :: other in b.slices && other != k && other.order == k.order && b.slices[other].status.Pending?
                  then Active else Triggered
  {
    var k := p.key;
    var c := SliceNotified(b, p, now);
    var marked := b.slices[k := NotifiedRow(b.slices[k], p.price, now)];
    PendingElsewhere(b, marked, k);
  }

  lemma PendingElsewhere(b: Book, marked: map<Key, SliceRow>, k: Key)
    requires k in b.slices && marked.Keys == b.slices.Keys && !marked[k].status.Pending?
    requires forall other :: other in b.slices && other != k ==> marked[other] == b.slices[other]
    ensures (exists other :: other in b.slices && other != k && other.order == k.order && b.slices[other].status.Pending?)
            <==> (exists other :: other in marked && other.order == k.order && marked[other].status.Pending?)
  {
  }

  /** One follow-up: sent once the price is there, tried again ten seconds later, and given up at the third miss. */
  lemma FollowupIsExact(b: Book, p: Pick, now: Instant)
    requires p.key in b.slices
    ensures var c, k := FollowedUp(b, p, now), p.key;
            && c.orders == b.orders && c.slices.Keys == b.slices.Keys
            && (forall other :: other in b.slices && other != k ==> c.slices[other] == b.slices[other])
            && c.slices[k].attempts == b.slices[k].attempts + 1 && c.slices[k].status == b.slices[k].status
            && c.notes == b.notes + (if p.price.Some? then [SliceNote(PriceFollowup, k, now)] else [])
            && (p.price.Some? ==> c.slices[k].followupSent && !c.slices[k].followupRequired)
            && (p.price.None? && b.slices[k].attempts < 2 ==>
                  c.slices[k].followupRequired == b.slices[k].followupRequired && c.slices[k].nextFollowup == Some(now + 10_000_000))
            && (p.price.None? && b.slices[k].attempts >= 2 ==> !c.slices[k].followupRequired)
            && (p.price.None? ==> c.slices[k].followupSent == b.slices[k].followupSent)
  {
    assert b.notes + [] == b.notes;
  }

  /** The clock ends an order at the close of its day and wakes it at the opening; only pending slices end with it. */
  lemma TwapLifecycleIsExact(b: Book, now: Instant, k: Key)
    requires k.order in b.orders && IsTradingDay(b.orders[k.order].tradingDate)
    ensures var c, o := TwapLifecycle(b, now), b.orders[k.order];
            var over := IsLive(o.status) && now >= CloseOf(o.tradingDate);
            && c.notes == b.notes && c.orders.Keys == b.orders.Keys && c.slices.Keys == b.slices.Keys
            && c.orders[k.order] == o.(status := if over then Expired
                                               else if IsLive(o.status) && now >= OpenOf(o.tradingDate) then Active else o.status)
            && (k in b.slices && !(over && b.slices[k].status.Pending?) ==> c.slices[k] == b.slices[k])
            && (k in b.slices && over ==> !c.slices[k].status.Pending?)
  {
    hide ExpiryCutoff, DayOf, OpenOf, CloseOf, InSession;
    ExpiresExactlyAtClose(now, b.orders[k.order].tradingDate);
    PhaseIsSession(now);
  }

  lemma PhaseIsSession(now: Instant)
    ensures PhaseAt(now).RegularSession? <==> InSession(now)
  {
  }

  /** Cancelling ends exactly the owner's live order, its pending slices and its outstanding follow-ups. */
  lemma TwapCancelIsExact(b: Book, id: IntentId, owner: UserId, k: Key)
    ensures var c := TwapCancelled(b, id, owner);
            var goes := id in b.orders && b.orders[id].owner == owner && IsLive(b.orders[id].status);
            && c.notes == b.notes && c.orders.Keys == b.orders.Keys && c.slices.Keys == b.slices.Keys
            && (goes ==> c.orders == b.orders[id := b.orders[id].(status := Cancelled)])
            && (!goes ==> c == b)
            && (k in b.slices && k.order != id ==> c.slices[k] == b.slices[k])
            && (goes && k in b.slices && k.order == id ==>
                  && !c.slices[k].status.Pending? && (c.slices[k].followupRequired ==> c.slices[k].followupSent)
                  && (b.slices[k].status.Notified? ==> c.slices[k].status.Notified?))
  {
  }

  /** A plan is stored exactly when its owner has no live one for the symbol, side and date. */
  lemma TwapCreateIsExact(b: Book, id: IntentId, owner: UserId, symbol: Symbol, side: Side, p: Plan)
    ensures var r := TwapCreated(b, id, owner, symbol, side, p);
            && (r.Ok? <==> !exists other :: other in b.orders && IsLive(b.orders[other].status)
                             && SameKind(b.orders[other], Order(owner, symbol, side, p.target, |p.slices|, p.tradingDate, Active)))
            && (r.Ok? ==>
                  && r.value.notes == b.notes
                  && r.value.orders == b.orders[id := Order(owner, symbol, side, p.target, |p.slices|, p.tradingDate,
                                                            if p.phase.RegularSession? then Active else Scheduled)])
  {
  }

  // ---------------------------------------------------------------- a worker's pass

  ghost predicate IsPicked(picks: seq<Pick>, k: Key) {
    exists i :: 0 <= i < |picks| && picks[i].key == k
  }

  lemma {:induction false} BatchAnnouncesPicked(b: Book, picks: seq<Pick>, now: Instant, k: Key)
    requires Holds(b, picks) && DistinctPicks(picks) && IsPicked(picks, k)
    ensures var c := AllNotified(b, picks, now);
            && Count(c.notes, Primary, k) == Count(b.notes, Primary, k) + 1 && k in c.slices && c.slices[k].status.Notified?
    decreases |picks|
  {
    hide SliceNotified, Untouched, Count;
    var next := SliceNotified(b, picks[0], now);
    NotifyMoves(b, picks[0], now);
    assert forall i :: 0 <= i < |picks[1..]| ==> picks[1..][i] == picks[i + 1];
    if picks[0].key == k {
      BatchMoves(next, picks[1..], now, k);
      UntouchedCounts(next, AllNotified(b, picks, now), k, Primary);
      NoticeCounts(b, picks[0], now);
      UntouchedRow(next, AllNotified(b, picks, now), k);
    } else {
      var i :| 0 <= i < |picks| && picks[i].key == k;
      assert picks[1..][i - 1].key == k;
      BatchAnnouncesPicked(next, picks[1..], now, k);
      UntouchedCounts(b, next, k, Primary);
    }
  }

  lemma NoticeCounts(b: Book, p: Pick, now: Instant)
    requires p.key in b.slices && p.key.order in b.orders
    ensures var c := SliceNotified(b, p, now);
            Count(c.notes, Primary, p.key) == Count(b.notes, Primary, p.key) + 1 && p.key in c.slices && c.slices[p.key].status.Notified?
  {
    hide HasPending;
    CountAppends(b.notes, SliceNote(Primary, p.key, now), Primary, p.key);
  }

  lemma UntouchedRow(a: Book, b: Book, k: Key)
    requires Untouched(a, b, k) && k in a.slices
    ensures k in b.slices && b.slices[k] == a.slices[k]
  {
  }

  /**
   A pass over due slices announces exactly those it picked, once each, when the session is
   on and triggers are not halted; every other slice, and every slice otherwise, is left to
   the clock.
   */
  lemma DuePassIsExact(b: Book, now: Instant, later: Instant, halted: bool, picks: seq<Pick>, k: Key)
    requires Enabled(b, DueWork(now, later, halted, picks))
    ensures var ready, c := TwapLifecycle(b, later), DuePass(b, now, later, halted, picks);
            && ready.notes == b.notes
            && (if InSession(now) && !halted && IsPicked(picks, k)
                then Count(c.notes, Primary, k) == Count(b.notes, Primary, k) + 1 && k in c.slices && c.slices[k].status.Notified?
                else Untouched(ready, c, k))
  {
    hide TwapLifecycle, AllNotified, Untouched, Count, PhaseAt, InSession;
    var ready := TwapLifecycle(b, later);
    LifecycleMoves(b, later, k);
    PhaseIsSession(now);
    if WorkerRuns(now, halted) {
      BatchHolds(ready, picks, now);
      BatchMoves(ready, picks, now, k);
      if IsPicked(picks, k) {
        BatchAnnouncesPicked(ready, picks, now, k);
      }
    } else {
      SameIsUntouched(ready, k);
    }
  }

  /** A pass over follow-ups touches exactly those it picked, and none when the session is off or triggers are halted. */
  lemma FollowupPassIsExact(b: Book, now: Instant, later: Instant, halted: bool, picks: seq<Pick>, k: Key)
    requires Enabled(b, FollowupWork(now, later, halted, picks))
    ensures var ready, c := TwapLifecycle(b, later), FollowupPass(b, now, later, halted, picks);
            && c.orders == ready.orders
            && (!(InSession(now) && !halted && IsPicked(picks, k)) ==> Untouched(ready, c, k))
            && (InSession(now) && !halted && IsPicked(picks, k) ==>
                  k in c.slices && k in ready.slices && c.slices[k].attempts == ready.slices[k].attempts + 1)
  {
    hide TwapLifecycle, AllFollowedUp, Untouched, PhaseAt, InSession;
    var ready := TwapLifecycle(b, later);
    PhaseIsSession(now);
    if WorkerRuns(now, halted) {
      BatchHolds(ready, picks, now);
      FollowupsMove(ready, picks, now, k);
      if IsPicked(picks, k) {
        BatchTriesPicked(ready, picks, now, k);
      }
    } else {
      SameIsUntouched(ready, k);
    }
  }

  lemma {:induction false} BatchTriesPicked(b: Book, picks: seq<Pick>, now: Instant, k: Key)
    requires Holds(b, picks) && DistinctPicks(picks) && IsPicked(picks, k)
    ensures var c := AllFollowedUp(b, picks, now);
            k in c.slices && k in b.slices && c.slices[k].attempts == b.slices[k].attempts + 1
    decreases |picks|
  {
    hide FollowedUp, Untouched;
    var next := FollowedUp(b, picks[0], now);
    FollowupMoves(b, picks[0], now);
    assert forall i :: 0 <= i < |picks[1..]| ==> picks[1..][i] == picks[i + 1];
    if picks[0].key == k {
      FollowupIsExact(b, picks[0], now);
      FollowupsMove(next, picks[1..], now, k);
      UntouchedRow(next, AllFollowedUp(b, picks, now), k);
    } else {
      var i :| 0 <= i < |picks| && picks[i].key == k;
      assert picks[1..][i - 1].key == k;
      BatchTriesPicked(next, picks[1..], now, k);
      UntouchedRow(b, next, k);
    }
  }

  // ---------------------------------------------------------------- the order is the one requested

  /** The order is its owner's request: its lots, for the session after it, in the slices of its plan. */
  ghost predicate AnswersRequest(b: Book, id: IntentId, e: Event) {
    && e.Confirm? && e.id == id && id in b.orders && PlanFor(e.request, e.now).Ok?
    && var o, p := b.orders[id], PlanFor(e.request, e.now).value;
       && o.owner == e.owner && o.symbol == e.symbol && o.side == e.side
       && o.target == e.request.quantity && o.tradingDate == TradingDate(e.now) && o.count == |p.slices|
       && forall i :: 1 <= i <= |p.slices| ==>
            Key(id, i) in b.slices && b.slices[Key(id, i)].at == p.slices[i - 1].at && b.slices[Key(id, i)].lots == p.slices[i - 1].lots
  }

  /** No order and no slice loses what was planned for it. */
  ghost predicate KeepsPlans(a: Book, b: Book) {
    && (forall id :: id in a.orders ==> id in b.orders && b.orders[id] == a.orders[id].(status := b.orders[id].status))
    && (forall k :: k in a.slices && k.order in a.orders ==>
          k in b.slices && b.slices[k].lots == a.slices[k].lots && b.slices[k].at == a.slices[k].at)
  }

  lemma KeptPlansCompose(a: Book, b: Book, c: Book)
    requires KeepsPlans(a, b) && KeepsPlans(b, c)
    ensures KeepsPlans(a, c)
  {
  }

  lemma KeptPlansAnswer(a: Book, b: Book, id: IntentId, e: Event)
    requires KeepsPlans(a, b) && AnswersRequest(a, id, e)
    ensures AnswersRequest(b, id, e)
  {
    hide PlanFor, TradingDate;
  }

  lemma NoticeKeepsPlans(b: Book, p: Pick, now: Instant)
    requires p.key in b.slices && p.key.order in b.orders
    ensures KeepsPlans(b, SliceNotified(b, p, now))
  {
    hide HasPending;
  }

  lemma {:induction false} BatchKeepsPlans(b: Book, picks: seq<Pick>, now: Instant)
    requires Holds(b, picks)
    ensures KeepsPlans(b, AllNotified(b, picks, now))
    decreases |picks|
  {
    hide SliceNotified;
    if picks == [] {
      assert KeepsPlans(b, b);
    } else {
      var next := SliceNotified(b, picks[0], now);
      NoticeKeepsPlans(b, picks[0], now);
      NotifyMoves(b, picks[0], now);
      BatchKeepsPlans(next, picks[1..], now);
      KeptPlansCompose(b, next, AllNotified(b, picks, now));
    }
  }

  lemma FollowupKeepsPlans(b: Book, p: Pick, now: Instant)
    requires p.key in b.slices
    ensures KeepsPlans(b, FollowedUp(b, p, now))
  {
  }

  lemma {:induction false} FollowupsKeepPlans(b: Book, picks: seq<Pick>, now: Instant)
    requires Holds(b, picks)
    ensures KeepsPlans(b, AllFollowedUp(b, picks, now))
    decreases |picks|
  {
    hide FollowedUp;
    if picks == [] {
      assert KeepsPlans(b, b);
    } else {
      var next := FollowedUp(b, picks[0], now);
      FollowupKeepsPlans(b, picks[0], now);
      FollowupMoves(b, picks[0], now);
      FollowupsKeepPlans(next, picks[1..], now);
      KeptPlansCompose(b, next, AllFollowedUp(b, picks, now));
    }
  }

  lemma LifecycleKeepsPlans(b: Book, now: Instant)
    ensures KeepsPlans(b, TwapLifecycle(b, now))
  {
    hide ExpiryCutoff, PhaseAt, DayOf;
  }

  lemma StatusChangesKeepPlans(b: Book, id: IntentId, owner: UserId)
    ensures KeepsPlans(b, TwapCancelled(b, id, owner)) && KeepsPlans(b, TwapDisabled(b, owner))
  {
  }

  lemma CreateKeepsPlans(b: Book, id: IntentId, owner: UserId, symbol: Symbol, side: Side, p: Plan)
    requires id !in b.orders
    ensures var r := TwapCreated(b, id, owner, symbol, side, p); r.Ok? ==> KeepsPlans(b, r.value)
  {
    hide WithSlices, SamePlanLive;
    forall k | k in b.slices && k.order in b.orders
      ensures k in WithSlices(b.slices, id, p.slices) && WithSlices(b.slices, id, p.slices)[k] == b.slices[k]
    {
      OthersSlicesStay(b.slices, id, p.slices, k);
    }
  }

  lemma EventKeepsPlans(b: Book, e: Event)
    requires Enabled(b, e)
    ensures KeepsPlans(b, Apply(b, e))
  {
    hide TwapLifecycle, TwapCancelled, TwapDisabled, TwapCreated, AllNotified, AllFollowedUp, PlanFor, DueBatch, FollowupBatch, KeepsPlans;
    SameKeepsPlans(b);
    match e
    case Confirm(id, owner, symbol, side, request, now) =>
      if PlanFor(request, now).Ok? {
        CreateKeepsPlans(b, id, owner, symbol, side, PlanFor(request, now).value);
      }
    case Lifecycle(now) => LifecycleKeepsPlans(b, now);
    case Cancel(id, owner) => StatusChangesKeepPlans(b, id, owner);
    case DisableOwner(owner) => StatusChangesKeepPlans(b, 0, owner);
    case DueWork(now, later, halted, picks) =>
      LifecycleKeepsPlans(b, later);
      if WorkerRuns(now, halted) {
        BatchHolds(TwapLifecycle(b, later), picks, now);
        BatchKeepsPlans(TwapLifecycle(b, later), picks, now);
        KeptPlansCompose(b, TwapLifecycle(b, later), Apply(b, e));
      }
    case FollowupWork(now, later, halted, picks) =>
      LifecycleKeepsPlans(b, later);
      if WorkerRuns(now, halted) {
        BatchHolds(TwapLifecycle(b, later), picks, now);
        FollowupsKeepPlans(TwapLifecycle(b, later), picks, now);
        KeptPlansCompose(b, TwapLifecycle(b, later), Apply(b, e));
      }
  }

  lemma SameKeepsPlans(b: Book)
    ensures KeepsPlans(b, b)
  {
  }

  /** An order that was not there before answers the request just made. */
  lemma NewOrderAnswers(b: Book, e: Event, id: IntentId)
    requires Enabled(b, e) && id !in b.orders && id in Apply(b, e).orders
    ensures AnswersRequest(Apply(b, e), id, e)
  {
    hide PlanFor, WithSlices, TwapLifecycle, TwapCancelled, TwapDisabled, AllNotified, AllFollowedUp, DueBatch, FollowupBatch, TradingDate, SamePlanLive, SoundPlan, IsStartFor;
    if e.Confirm? {
      var plan := PlanFor(e.request, e.now);
      assert plan.Ok?;
      PlanAnswersRequest(e.request, e.now);
      AcceptedPlanIsSound(e.request, e.now);
      PlanNumbers(plan.value, e.now);
      AddedSlices(b.slices, e.id, plan.value.slices);
    } else {
      OnlyConfirmAdds(b, e);
    }
  }

  lemma OnlyConfirmAdds(b: Book, e: Event)
    requires Enabled(b, e) && !e.Confirm?
    ensures Apply(b, e).orders.Keys == b.orders.Keys
  {
    hide TwapLifecycle, AllNotified, AllFollowedUp, DueBatch, FollowupBatch;
    var k := Key(0, 0);
    if e.DueWork? || e.FollowupWork? {
      LifecycleMoves(b, e.later, k);
      if WorkerRuns(e.now, e.halted) {
        BatchHolds(TwapLifecycle(b, e.later), e.picks, e.now);
        BatchMoves(TwapLifecycle(b, e.later), e.picks, e.now, k);
        FollowupsMove(TwapLifecycle(b, e.later), e.picks, e.now, k);
      }
    } else if e.Lifecycle? {
      LifecycleMoves(b, e.now, k);
    }
  }

  lemma {:induction false} RunAnswersRequests(b: Book, events: seq<Event>, c: Book, id: IntentId)
    requires Reaches(b, events, c) && id in c.orders && id !in b.orders
    ensures exists n :: 0 <= n < |events| && AnswersRequest(c, id, events[n])
    decreases |events|
  {
    hide Enabled, Apply, AnswersRequest;
    if events != [] {
      var next := Apply(b, events[0]);
      if id in next.orders {
        NewOrderAnswers(b, events[0], id);
        RunKeepsAnswer(next, events[1..], c, id, events[0]);
      } else {
        RunAnswersRequests(next, events[1..], c, id);
        var n :| 0 <= n < |events[1..]| && AnswersRequest(c, id, events[1..][n]);
        assert events[n + 1] == events[1..][n];
      }
    }
  }

  lemma {:induction false} RunKeepsAnswer(b: Book, events: seq<Event>, c: Book, id: IntentId, e: Event)
    requires Reaches(b, events, c) && AnswersRequest(b, id, e)
    ensures AnswersRequest(c, id, e)
    decreases |events|
  {
    hide Enabled, Apply, AnswersRequest;
    if events != [] {
      EventKeepsPlans(b, events[0]);
      KeptPlansAnswer(b, Apply(b, events[0]), id, e);
      RunKeepsAnswer(Apply(b, events[0]), events[1..], c, id, e);
    }
  }

  /**
   In every run every order is some owner's request: for the lots asked for, in the slices
   planned for it; and its pending, notified and dropped lots add up to just that quantity.
   */
  lemma OrdersAnswerRequests(events: seq<Event>, b: Book, id: IntentId)
    requires Reaches(EMPTY, events, b) && id in b.orders
    ensures exists n :: 0 <= n < |events| && AnswersRequest(b, id, events[n])
                        && LotsIn(b.slices, id, b.orders[id].count, Pending) + LotsIn(b.slices, id, b.orders[id].count, Notified)
                           + LotsIn(b.slices, id, b.orders[id].count, Dropped) == events[n].request.quantity
  {
    hide Reaches, PlanFor, TradingDate;
    LotsAreConserved(events, b, id);
    RunAnswersRequests(EMPTY, events, b, id);
    var n :| 0 <= n < |events| && AnswersRequest(b, id, events[n]);
  }
}
