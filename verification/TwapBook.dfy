/**
 Time-weighted orders and their slices (src/app/repositories/intent_repository.py and the
 slice worker of src/app/commands/twap.py): creation, the lifecycle cascade, cancellation,
 due slices and price follow-ups, as functions on the stored value.
 */
module TwapBook {
  import opened Outcomes
  import opened TradingSession
  import opened Intents
  import opened TwapPlan

  const MAX_ATTEMPTS := 3
  const FOLLOWUP_DELAY := 10 * SECOND

  datatype Side = Long | Short

  datatype Order = Order(
    owner: UserId,
    symbol: Symbol,
    side: Side,
    target: int,
    count: nat,
    tradingDate: Day,
    status: Status)

  datatype SliceStatus = Pending | Notified | Dropped

  datatype SliceRow = SliceRow(
    lots: int,
    at: Instant,
    status: SliceStatus,
    price: Option<real>,
    followupRequired: bool,
    attempts: nat,
    nextFollowup: Option<Instant>,
    followupSent: bool)

  datatype Key = Key(order: IntentId, number: nat)

  datatype SliceNoteKind = Primary | PriceFollowup

  datatype SliceNote = SliceNote(kind: SliceNoteKind, key: Key, sentAt: Instant)

  datatype Book = Book(orders: map<IntentId, Order>, slices: map<Key, SliceRow>, notes: seq<SliceNote>)

  // ---------------------------------------------------------------- creating

  function NewSlice(s: Slice): SliceRow {
    SliceRow(s.lots, s.at, Pending, None, false, 0, None, false)
  }

  function WithSlices(slices: map<Key, SliceRow>, id: IntentId, planned: seq<Slice>): map<Key, SliceRow> {
    if planned == [] then slices
    else
      var n := |planned| - 1;
      WithSlices(slices, id, planned[..n])[Key(id, planned[n].number) := NewSlice(planned[n])]
  }

  predicate SamePlanLive(b: Book, owner: UserId, symbol: Symbol, side: Side, date: Day) {
    exists id :: id in b.orders && b.orders[id].owner == owner && b.orders[id].symbol == symbol
                 && b.orders[id].side == side && b.orders[id].tradingDate == date && IsLive(b.orders[id].status)
  }

  function NewOrder(owner: UserId, symbol: Symbol, side: Side, p: Plan): Order {
    Order(owner, symbol, side, p.target, |p.slices|, p.tradingDate, if p.phase.RegularSession? then Active else Scheduled)
  }

  /** The order and all its slices, or nothing when a live plan of the kind exists. */
  function TwapCreated(b: Book, id: IntentId, owner: UserId, symbol: Symbol, side: Side, p: Plan): Result<Book, ()> {
    if SamePlanLive(b, owner, symbol, side, p.tradingDate) then Err(())
    else Ok(Book(b.orders[id := NewOrder(owner, symbol, side, p)], WithSlices(b.slices, id, p.slices), b.notes))
  }

  // ---------------------------------------------------------------- lifecycle and cancellation

  predicate Expires(o: Order, cutoff: Day) {
    IsLive(o.status) && o.tradingDate <= cutoff
  }

  function Drop(s: SliceRow): SliceRow {
    if s.status.Pending? then s.(status := Dropped, followupRequired := false, nextFollowup := None) else s
  }

  /** Expired orders take their pending slices with them. */
  function TwapExpired(b: Book, cutoff: Day): Book {
    var ids := set id | id in b.orders && Expires(b.orders[id], cutoff);
    Book(map id | id in b.orders :: if id in ids then b.orders[id].(status := Expired) else b.orders[id],
         map k | k in b.slices :: if k.order in ids then Drop(b.slices[k]) else b.slices[k],
         b.notes)
  }

  predicate IsScheduledFor(o: Order, day: Day) {
    o.status.Scheduled? && o.tradingDate == day
  }

  function TwapActivated(b: Book, day: Day): Book {
    b.(orders := map id | id in b.orders ::
         if IsScheduledFor(b.orders[id], day)
         then b.orders[id].(status := Active) else b.orders[id])
  }

  function TwapLifecycle(b: Book, now: Instant): Book {
    var expired := TwapExpired(b, ExpiryCutoff(now));
    if PhaseAt(now).RegularSession? then TwapActivated(expired, DayOf(now)) else expired
  }

  function StopFollowup(s: SliceRow): SliceRow {
    if s.followupRequired && !s.followupSent then s.(followupRequired := false, nextFollowup := None) else s
  }

  /** Cancelling drops pending slices and stops outstanding follow-ups. */
  function TwapCancelled(b: Book, id: IntentId, owner: UserId): Book {
    if id !in b.orders || b.orders[id].owner != owner || !IsLive(b.orders[id].status) then b
    else Book(b.orders[id := b.orders[id].(status := Cancelled)],
              map k | k in b.slices :: if k.order == id then StopFollowup(Drop(b.slices[k])) else b.slices[k],
              b.notes)
  }

  /** Disabling an account stops its orders and leaves their slices as they are. */
  function TwapDisabled(b: Book, owner: UserId): Book {
    b.(orders := map id | id in b.orders ::
         if b.orders[id].owner == owner && IsLive(b.orders[id].status)
         then b.orders[id].(status := CancelledByAccountDisabled) else b.orders[id])
  }

  // ---------------------------------------------------------------- due slices

  /** A slice picked by a batch, with the reference price its symbol had, if any. */
  datatype Pick = Pick(key: Key, price: Option<real>)

  predicate IsDue(b: Book, k: Key, now: Instant) {
    && k in b.slices && b.slices[k].status.Pending? && b.slices[k].at <= now
    && k.order in b.orders && IsLive(b.orders[k.order].status)
  }

  function HasPending(b: Book, id: IntentId): bool {
    exists k :: k in b.slices && k.order == id && b.slices[k].status.Pending?
  }

  /** An order with nothing pending is done. */
  function Completed(b: Book, id: IntentId): Book
    requires id in b.orders
  {
    if !HasPending(b, id) && IsLive(b.orders[id].status)
    then b.(orders := b.orders[id := b.orders[id].(status := Triggered)]) else b
  }

  function NotifiedRow(s: SliceRow, price: Option<real>, now: Instant): SliceRow {
    s.(status := Notified, price := price, followupRequired := price.None?,
       nextFollowup := if price.None? then Some(now + FOLLOWUP_DELAY) else None)
  }

  function SliceNotified(b: Book, p: Pick, now: Instant): Book
    requires p.key in b.slices && p.key.order in b.orders
  {
    var id := p.key.order;
    var order := b.orders[id];
    var woken := if order.status.Scheduled? then order.(status := Active) else order;
    Completed(Book(b.orders[id := woken],
                   b.slices[p.key := NotifiedRow(b.slices[p.key], p.price, now)],
                   b.notes + [SliceNote(Primary, p.key, now)]), id)
  }

  predicate Holds(b: Book, picks: seq<Pick>) {
    forall i :: 0 <= i < |picks| ==> picks[i].key in b.slices && picks[i].key.order in b.orders
  }

  function AllNotified(b: Book, picks: seq<Pick>, now: Instant): Book
    requires Holds(b, picks)
    decreases |picks|
  {
    if picks == [] then b else AllNotified(SliceNotified(b, picks[0], now), picks[1..], now)
  }

  // ---------------------------------------------------------------- price follow-ups

  predicate WantsFollowup(b: Book, k: Key, now: Instant) {
    && k in b.slices && k.order in b.orders
    && var s := b.slices[k];
       && s.followupRequired && !s.followupSent && s.attempts < MAX_ATTEMPTS
       && s.nextFollowup.Some? && s.nextFollowup.value <= now
       && !b.orders[k.order].status.Cancelled?
  }

  function FollowedUp(b: Book, p: Pick, now: Instant): Book
    requires p.key in b.slices
  {
    var s := b.slices[p.key].(attempts := b.slices[p.key].attempts + 1);
    if p.price.Some? then
      b.(slices := b.slices[p.key := s.(followupRequired := false, nextFollowup := None, followupSent := true)],
         notes := b.notes + [SliceNote(PriceFollowup, p.key, now)])
    else if s.attempts >= MAX_ATTEMPTS then
      b.(slices := b.slices[p.key := s.(followupRequired := false, nextFollowup := None)])
    else
      b.(slices := b.slices[p.key := s.(nextFollowup := Some(now + FOLLOWUP_DELAY))])
  }

  function AllFollowedUp(b: Book, picks: seq<Pick>, now: Instant): Book
    requires Holds(b, picks)
    decreases |picks|
  {
    if picks == [] then b else AllFollowedUp(FollowedUp(b, picks[0], now), picks[1..], now)
  }

  // ---------------------------------------------------------------- the worker

  predicate DistinctPicks(picks: seq<Pick>) {
    forall i, j :: 0 <= i < j < |picks| ==> picks[i].key != picks[j].key
  }

  /** Any choice of rows the due query could return; row locks keep batches apart. */
  predicate DueBatch(b: Book, picks: seq<Pick>, now: Instant) {
    DistinctPicks(picks) && forall i :: 0 <= i < |picks| ==> IsDue(b, picks[i].key, now)
  }

  predicate FollowupBatch(b: Book, picks: seq<Pick>, now: Instant) {
    DistinctPicks(picks) && forall i :: 0 <= i < |picks| ==> WantsFollowup(b, picks[i].key, now)
  }

  predicate WorkerRuns(now: Instant, halted: bool) {
    PhaseAt(now).RegularSession? && !halted
  }

  /** One worker pass over due slices: the lifecycle, then the batch if the session is on. */
  function DuePass(b: Book, now: Instant, later: Instant, halted: bool, picks: seq<Pick>): Book
    requires WorkerRuns(now, halted) ==> Holds(TwapLifecycle(b, later), picks)
  {
    var ready := TwapLifecycle(b, later);
    if WorkerRuns(now, halted) then AllNotified(ready, picks, now) else ready
  }

  function FollowupPass(b: Book, now: Instant, later: Instant, halted: bool, picks: seq<Pick>): Book
    requires WorkerRuns(now, halted) ==> Holds(TwapLifecycle(b, later), picks)
  {
    var ready := TwapLifecycle(b, later);
    if WorkerRuns(now, halted) then AllFollowedUp(ready, picks, now) else ready
  }
}
