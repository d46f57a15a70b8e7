/**
 The stored time-weighted orders as they are updated in place.  Every method has exactly
 the effect of its counterpart in TwapBook, about which the runs are reasoned; the rows a
 worker batch works on are those its query returned, with the price each symbol had.
 */
module TwapTable {
  import opened Outcomes
  import opened TradingSession
  import opened Intents
  import opened TwapPlan
  import opened TwapBook

  lemma RowsStayAfterNotice(b: Book, picks: seq<Pick>, now: Instant)
    requires Holds(b, picks) && picks != []
    ensures Holds(SliceNotified(b, picks[0], now), picks[1..])
  {
    hide HasPending;
  }

  lemma RowsStayAfterFollowup(b: Book, picks: seq<Pick>, now: Instant)
    requires Holds(b, picks) && picks != []
    ensures Holds(FollowedUp(b, picks[0], now), picks[1..])
  {
  }

  class Table {
    var orders: map<IntentId, Order>
    var slices: map<Key, SliceRow>
    var notes: seq<SliceNote>

    function Contents(): Book
      reads this
    {
      Book(orders, slices, notes)
    }

    constructor ()
      ensures Contents() == Book(map[], map[], [])
    {
      orders, slices, notes := map[], map[], [];
    }

    method CreateTwap(id: IntentId, owner: UserId, symbol: Symbol, side: Side, p: Plan) returns (r: Result<(), ()>)
      modifies this
      ensures r.Ok? <==> TwapCreated(old(Contents()), id, owner, symbol, side, p).Ok?
      ensures r.Ok? ==> Contents() == TwapCreated(old(Contents()), id, owner, symbol, side, p).value
      ensures r.Err? ==> Contents() == old(Contents())
    {
      if SamePlanLive(Contents(), owner, symbol, side, p.tradingDate) {
        return Err(());
      }
      orders := orders[id := NewOrder(owner, symbol, side, p)];
      for i := 0 to |p.slices|
        invariant orders == old(orders)[id := NewOrder(owner, symbol, side, p)] && notes == old(notes)
        invariant slices == WithSlices(old(slices), id, p.slices[..i])
      {
        slices := slices[Key(id, p.slices[i].number) := NewSlice(p.slices[i])];
        assert p.slices[..i + 1][..i] == p.slices[..i];
      }
      assert p.slices[..|p.slices|] == p.slices;
      r := Ok(());
    }

    method ExpireThrough(cutoff: Day) returns (count: nat)
      modifies this
      ensures Contents() == TwapExpired(old(Contents()), cutoff)
      ensures count == |set id | id in old(orders) && Expires(old(orders)[id], cutoff)|
    {
      var ids := set id | id in orders && Expires(orders[id], cutoff);
      orders := map id | id in orders :: if id in ids then orders[id].(status := Expired) else orders[id];
      if ids != {} {
        slices := map k | k in slices :: if k.order in ids then Drop(slices[k]) else slices[k];
      }
      count := |ids|;
    }

    /** Exactly the scheduled orders of the date change, only in status, and are counted. */
    method ActivateScheduled(day: Day) returns (count: nat)
      modifies this`orders
      ensures Contents() == TwapActivated(old(Contents()), day) && orders.Keys == old(orders).Keys
      ensures forall id :: id in orders ==> (orders[id] != old(orders)[id] <==> IsScheduledFor(old(orders)[id], day))
      ensures forall id :: id in orders && orders[id] != old(orders)[id] ==> orders[id] == old(orders)[id].(status := Active)
      ensures count == |set id | id in orders && orders[id] != old(orders)[id]|
    {
      var due := set id | id in orders && IsScheduledFor(orders[id], day);
      orders := map id | id in orders :: if id in due then orders[id].(status := Active) else orders[id];
      assert due == set id | id in orders && orders[id] != old(orders)[id];
      count := |due|;
    }

    method RunLifecycle(now: Instant)
      modifies this
      ensures Contents() == TwapLifecycle(old(Contents()), now)
    {
      var expired := ExpireThrough(ExpiryCutoff(now));
      if PhaseAt(now).RegularSession? {
        var activated := ActivateScheduled(DayOf(now));
      }
    }

    method Cancel(id: IntentId, owner: UserId)
      modifies this
      ensures Contents() == TwapCancelled(old(Contents()), id, owner)
    {
      if id !in orders || orders[id].owner != owner || !IsLive(orders[id].status) {
        return;
      }
      orders := orders[id := orders[id].(status := Cancelled)];
      slices := map k | k in slices :: if k.order == id then Drop(slices[k]) else slices[k];
      slices := map k | k in slices :: if k.order == id then StopFollowup(slices[k]) else slices[k];
    }

    /** Exactly the owner's live orders end, their slices stay, and the orders are counted. */
    method CancelForOwner(owner: UserId) returns (count: nat)
      modifies this`orders
      ensures Contents() == TwapDisabled(old(Contents()), owner) && orders.Keys == old(orders).Keys
      ensures forall id :: id in orders ==>
                (orders[id] != old(orders)[id] <==> old(orders)[id].owner == owner && IsLive(old(orders)[id].status))
      ensures forall id :: id in orders && old(orders)[id].owner == owner ==> !IsLive(orders[id].status)
      ensures count == |set id | id in orders && orders[id] != old(orders)[id]|
    {
      var open := set id | id in orders && orders[id].owner == owner && IsLive(orders[id].status);
      orders := map id | id in orders :: if id in open then orders[id].(status := CancelledByAccountDisabled) else orders[id];
      assert open == set id | id in orders && orders[id] != old(orders)[id];
      count := |open|;
    }

    method ProcessDueSlice(p: Pick, now: Instant)
      requires p.key in slices && p.key.order in orders
      modifies this
      ensures Contents() == SliceNotified(old(Contents()), p, now)
    {
      var id := p.key.order;
      notes := notes + [SliceNote(Primary, p.key, now)];
      slices := slices[p.key := NotifiedRow(slices[p.key], p.price, now)];
      if orders[id].status.Scheduled? {
        orders := orders[id := orders[id].(status := Active)];
      }
      if !HasPending(Contents(), id) && IsLive(orders[id].status) {
        orders := orders[id := orders[id].(status := Triggered)];
      }
      assert old(orders)[id := old(orders)[id]] == old(orders);
    }

    method ProcessFollowup(p: Pick, now: Instant)
      requires p.key in slices
      modifies this
      ensures Contents() == FollowedUp(old(Contents()), p, now)
    {
      var s := slices[p.key];
      var attempts := s.attempts + 1;
      s := s.(attempts := attempts);
      if p.price.None? {
        if attempts >= MAX_ATTEMPTS {
          s := s.(followupRequired := false, nextFollowup := None);
        } else {
          s := s.(nextFollowup := Some(now + FOLLOWUP_DELAY));
        }
        slices := slices[p.key := s];
        return;
      }
      notes := notes + [SliceNote(PriceFollowup, p.key, now)];
      slices := slices[p.key := s.(followupRequired := false, nextFollowup := None, followupSent := true)];
    }

    /** The worker's pass over due slices. */
    method ProcessDueSlices(now: Instant, later: Instant, halted: bool, picks: seq<Pick>) returns (processed: nat)
      requires WorkerRuns(now, halted) ==> Holds(TwapLifecycle(Contents(), later), picks)
      modifies this
      ensures Contents() == DuePass(old(Contents()), now, later, halted, picks)
      ensures processed == if WorkerRuns(now, halted) then |picks| else 0
    {
      hide SliceNotified, TwapLifecycle, PhaseAt;
      RunLifecycle(later);
      if !PhaseAt(now).RegularSession? || halted {
        return 0;
      }
      ghost var ready := Contents();
      var i := 0;
      while i < |picks|
        invariant 0 <= i <= |picks| && Holds(Contents(), picks[i..])
        invariant AllNotified(ready, picks, now) == AllNotified(Contents(), picks[i..], now)
      {
        assert picks[i..][0] == picks[i] && picks[i..][1..] == picks[i + 1..];
        RowsStayAfterNotice(Contents(), picks[i..], now);
        ProcessDueSlice(picks[i], now);
        i := i + 1;
      }
      processed := |picks|;
    }

    /** The worker's pass over outstanding price follow-ups. */
    method ProcessPriceFollowups(now: Instant, later: Instant, halted: bool, picks: seq<Pick>) returns (processed: nat)
      requires WorkerRuns(now, halted) ==> Holds(TwapLifecycle(Contents(), later), picks)
      modifies this
      ensures Contents() == FollowupPass(old(Contents()), now, later, halted, picks)
      ensures processed == if WorkerRuns(now, halted) then |picks| else 0
    {
      hide FollowedUp, TwapLifecycle, PhaseAt;
      RunLifecycle(later);
      if !PhaseAt(now).RegularSession? || halted {
        return 0;
      }
      ghost var ready := Contents();
      var i := 0;
      while i < |picks|
        invariant 0 <= i <= |picks| && Holds(Contents(), picks[i..])
        invariant AllFollowedUp(ready, picks, now) == AllFollowedUp(Contents(), picks[i..], now)
      {
        assert picks[i..][0] == picks[i] && picks[i..][1..] == picks[i + 1..];
        RowsStayAfterFollowup(Contents(), picks[i..], now);
        ProcessFollowup(picks[i], now);
        i := i + 1;
      }
      processed := |picks|;
    }
  }
}
