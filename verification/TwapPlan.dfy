/**
 Planning a time-weighted order (src/app/domain/twap.py): how many slices fit between the
 start and the end, when each is due, and how the lots are spread over them.
 */
module TwapPlan {
  import opened Outcomes
  import opened TradingSession

  const MIN_QUANTITY := 2
  const MAX_QUANTITY := 1000
  const MIN_INTERVAL := 1
  const MAX_INTERVAL := 3600
  const MIN_SLICES := 2
  const MAX_SLICES := 200
  const LATEST_START := 13 * 3_600 * SECOND + 1_200 * SECOND
  const LATEST_END := 13 * 3_600 * SECOND + 1_500 * SECOND

  datatype TwapError =
    | InvalidInterval | InvalidQuantity | StartOutsideSession | EndOutsideSession | StartAfterEnd
    | EndAlreadyPassed | InsufficientSlices(available: int, materialized: int) | TooManySlices(materialized: int)

  datatype Request = Request(quantity: int, interval: int, startTime: Option<int>, endTime: int)

  datatype Slice = Slice(number: nat, at: Instant, lots: int)

  datatype Plan = Plan(
    phase: Phase,
    tradingDate: Day,
    startAt: Instant,
    endAt: Instant,
    interval: int,
    target: int,
    available: int,
    slices: seq<Slice>)

  // ---------------------------------------------------------------- spreading the lots

  /** Lots of slice i when q lots go over n slices as evenly as possible. */
  function Share(q: nat, n: nat, i: nat): nat
    requires n > 0
  {
    q / n + if i < q % n then 1 else 0
  }

  function Spread(start: Instant, interval: int, q: nat, n: nat): (s: seq<Slice>)
    requires n > 0
    ensures |s| == n
  {
    seq(n, i requires 0 <= i < n => Slice(i + 1, start + interval * SECOND * i, Share(q, n, i)))
  }

  function TotalLots(slices: seq<Slice>): int {
    if slices == [] then 0 else TotalLots(slices[..|slices| - 1]) + slices[|slices| - 1].lots
  }

  /** Lots not yet given out after i slices. */
  function Remaining(q: nat, n: nat, i: nat): int
    requires n > 0
  {
    (n - i) * (q / n) + if i < q % n then q % n - i else 0
  }

  function CeilDiv(a: int, b: int): int
    requires b > 0
  {
    -((-a) / b)
  }

  lemma CeilOfShares(left: nat, base: nat, extra: nat)
    requires left > 0 && extra <= left
    ensures CeilDiv(left * base + extra, left) == base + if extra > 0 then 1 else 0
  {
    var a := left * base + extra;
    var c := base + if extra > 0 then 1 else 0;
    var rest := left * c - a;
    assert 0 <= rest < left by {
      if extra > 0 { assert left * c == left * base + left; }
    }
    assert -a == left * (-c) + rest;
    DivisionIsUnique(-a, left, -c, rest);
  }

  lemma MultipleIsLarge(b: int, k: int)
    requires b > 0
    ensures k >= 1 ==> b * k >= b
    ensures k <= -1 ==> b * k <= -b
  {
    if k >= 1 {
      assert b * k == b + b * (k - 1);
    }
  }

  lemma Difference(b: int, x: int, y: int)
    ensures b * (x - y) == b * x - b * y
  {
  }

  lemma DivisionIsUnique(a: int, b: int, q: int, r: int)
    requires b > 0 && 0 <= r < b && a == b * q + r
    ensures a / b == q
  {
    var d := a / b;
    assert a == b * d + a % b;
    Difference(b, d, q);
    MultipleIsLarge(b, d - q);
  }

  lemma OneLess(left: int, base: int)
    ensures left * base == (left - 1) * base + base
  {
  }

  lemma NextShare(q: nat, n: nat, i: nat)
    requires n > 0 && i < n
    ensures CeilDiv(Remaining(q, n, i), n - i) == Share(q, n, i)
    ensures Remaining(q, n, i) - Share(q, n, i) == Remaining(q, n, i + 1)
  {
    hide CeilDiv;
    var base, extra := q / n, if i < q % n then q % n - i else 0;
    CeilOfShares(n - i, base, extra);
    OneLess(n - i, base);
  }

  lemma StartsWithAll(q: nat, n: nat)
    requires n > 0
    ensures Remaining(q, n, 0) == q && Remaining(q, n, n) == 0
  {
    assert q == n * (q / n) + q % n;
  }

  /** The loop: each slice takes the rounded-up share of what is left. */
  method AllocateSlices(start: Instant, interval: int, q: nat, n: nat) returns (slices: seq<Slice>)
    requires n > 0
    ensures slices == Spread(start, interval, q, n)
  {
    var remaining: int := q;
    slices := [];
    StartsWithAll(q, n);
    for i := 0 to n
      invariant remaining == Remaining(q, n, i)
      invariant slices == Spread(start, interval, q, n)[..i]
    {
      NextShare(q, n, i);
      var planned := -((-remaining) / (n - i));
      slices := slices + [Slice(i + 1, start + interval * SECOND * i, planned)];
      remaining := remaining - planned;
    }
  }

  lemma {:induction false} PrefixTotal(start: Instant, interval: int, q: nat, n: nat, i: nat)
    requires n > 0 && i <= n
    ensures TotalLots(Spread(start, interval, q, n)[..i]) == q - Remaining(q, n, i)
  {
    if i == 0 {
      StartsWithAll(q, n);
    } else {
      PrefixTotal(start, interval, q, n, i - 1);
      NextShare(q, n, i - 1);
      var s := Spread(start, interval, q, n);
      assert s[..i][..i - 1] == s[..i - 1];
    }
  }

  /** All lots are given out, every slice gets some, and shares differ by at most one. */
  lemma SpreadIsFair(start: Instant, interval: int, q: nat, n: nat)
    requires 0 < n <= q
    ensures var s := Spread(start, interval, q, n);
            && TotalLots(s) == q
            && (forall i :: 0 <= i < n ==> s[i].lots >= 1)
            && (forall i, j :: 0 <= i < j < n ==> s[j].lots <= s[i].lots <= s[j].lots + 1)
  {
    var s := Spread(start, interval, q, n);
    PrefixTotal(start, interval, q, n, n);
    StartsWithAll(q, n);
    assert s[..n] == s;
    assert q / n >= 1 by {
      assert q == n * (q / n) + q % n;
      MultipleIsLarge(n, q / n);
    }
  }

  // ---------------------------------------------------------------- the plan

  function CeilToSecond(t: Instant): Instant {
    if t % SECOND == 0 then t else (t / SECOND + 1) * SECOND
  }

  function Invalid(r: Request): Option<TwapError> {
    if r.interval < MIN_INTERVAL || r.interval > MAX_INTERVAL then Some(InvalidInterval)
    else if r.quantity < MIN_QUANTITY || r.quantity > MAX_QUANTITY then Some(InvalidQuantity)
    else if r.startTime.Some? && (r.startTime.value < SESSION_START || r.startTime.value > LATEST_START) then Some(StartOutsideSession)
    else if r.endTime < SESSION_START || r.endTime > LATEST_END then Some(EndOutsideSession)
    else if r.startTime.Some? && r.startTime.value > r.endTime then Some(StartAfterEnd)
    else None
  }

  function PlanDate(now: Instant): Day {
    if PhaseAt(now).PostMarket? then NextTradingDay(DayOf(now)) else DayOf(now)
  }

  function StartAt(r: Request, now: Instant): Instant {
    if r.startTime.Some? then PlanDate(now) * DAY + r.startTime.value
    else if PhaseAt(now).RegularSession? then CeilToSecond(now)
    else PlanDate(now) * DAY + SESSION_START
  }

  function EndAt(r: Request, now: Instant): Instant {
    PlanDate(now) * DAY + r.endTime
  }

  /** How many slices fit, ends included. */
  function Available(r: Request, now: Instant): int
    requires r.interval > 0
  {
    (EndAt(r, now) - StartAt(r, now)) / (r.interval * SECOND) + 1
  }

  function Least(a: int, b: int): int {
    if a <= b then a else b
  }

  function PlanFor(r: Request, now: Instant): Result<Plan, TwapError> {
    if Invalid(r).Some? then Err(Invalid(r).value)
    else if EndAt(r, now) < StartAt(r, now) then
      Err(if PhaseAt(now).RegularSession? then EndAlreadyPassed else InsufficientSlices(0, 0))
    else
      var available := Available(r, now);
      var n := Least(available, r.quantity);
      if n < MIN_SLICES then Err(InsufficientSlices(available, n))
      else if n > MAX_SLICES then Err(TooManySlices(n))
      else Ok(Plan(PhaseAt(now), PlanDate(now), StartAt(r, now), EndAt(r, now), r.interval, r.quantity, available,
                   Spread(StartAt(r, now), r.interval, r.quantity, n)))
  }

  method BuildPlan(r: Request, now: Instant) returns (plan: Result<Plan, TwapError>)
    ensures plan == PlanFor(r, now)
  {
    var invalid := Invalid(r);
    if invalid.Some? {
      return Err(invalid.value);
    }
    var phase, date, start, end := PhaseAt(now), PlanDate(now), StartAt(r, now), EndAt(r, now);
    if phase.RegularSession? && end < start {
      return Err(EndAlreadyPassed);
    }
    if end < start {
      return Err(InsufficientSlices(0, 0));
    }
    var available := (end - start) / (r.interval * SECOND) + 1;
    var n := Least(available, r.quantity);
    if n < MIN_SLICES {
      return Err(InsufficientSlices(available, n));
    }
    if n > MAX_SLICES {
      return Err(TooManySlices(n));
    }
    var slices := AllocateSlices(start, r.interval, r.quantity, n);
    plan := Ok(Plan(phase, date, start, end, r.interval, r.quantity, available, slices));
  }

  /** One slice more than the count would be due after the end; one at the count is not. */
  lemma CountIsMaximal(span: int, step: int)
    requires span >= 0 && step > 0
    ensures var count := span / step + 1; step * (count - 1) <= span < step * count
  {
    assert span == step * (span / step) + span % step;
    assert step * (span / step + 1) == step * (span / step) + step;
  }

  lemma SliceTimesOrdered(step: int, i: int, last: int)
    requires step > 0 && 0 <= i <= last
    ensures 0 <= step * i <= step * last
  {
    assert step * (last - i) >= 0;
    assert step * last == step * i + step * (last - i);
  }

  /** What an accepted plan guarantees about its dates, times and lots. */
  ghost predicate SoundPlan(p: Plan, now: Instant) {
    && p.tradingDate == TradingDate(now)
    && MIN_SLICES <= |p.slices| <= MAX_SLICES && |p.slices| == Least(p.available, p.target)
    && TotalLots(p.slices) == p.target
    && p.tradingDate * DAY + SESSION_START <= p.startAt <= p.endAt < p.tradingDate * DAY + SESSION_END
    && (forall i :: 0 <= i < |p.slices| ==>
          && p.slices[i].number == i + 1 && p.slices[i].lots >= 1
          && p.slices[i].at == p.startAt + p.interval * SECOND * i
          && p.startAt <= p.slices[i].at <= p.endAt)
    && (forall i, j :: 0 <= i < j < |p.slices| ==> p.slices[j].lots <= p.slices[i].lots <= p.slices[j].lots + 1)
    && p.startAt + p.interval * SECOND * (p.available - 1) <= p.endAt < p.startAt + p.interval * SECOND * p.available
  }

  lemma StartWithinSession(r: Request, now: Instant)
    requires Invalid(r).None? && EndAt(r, now) >= StartAt(r, now)
    ensures PlanDate(now) == TradingDate(now)
    ensures PlanDate(now) * DAY + SESSION_START <= StartAt(r, now)
    ensures EndAt(r, now) < PlanDate(now) * DAY + SESSION_END
  {
    assert now == DayOf(now) * DAY + TimeOfDay(now);
    assert now <= CeilToSecond(now);
  }

  lemma AcceptedPlanIsSound(r: Request, now: Instant)
    requires PlanFor(r, now).Ok?
    ensures SoundPlan(PlanFor(r, now).value, now)
  {
    hide PlanDate, StartAt, EndAt, Spread, TotalLots, TradingDate;
    var p := PlanFor(r, now).value;
    var n := |p.slices|;
    StartWithinSession(r, now);
    SpreadIsFair(p.startAt, p.interval, p.target, n);
    var step := p.interval * SECOND;
    CountIsMaximal(p.endAt - p.startAt, step);
    forall i | 0 <= i < n
      ensures p.slices[i] == Slice(i + 1, p.startAt + step * i, Share(p.target, n, i))
      ensures p.startAt <= p.slices[i].at <= p.endAt
    {
      SpreadAt(p.startAt, p.interval, p.target, n, i);
      SliceTimesOrdered(step, i, p.available - 1);
    }
  }

  lemma SpreadAt(start: Instant, interval: int, q: nat, n: nat, i: nat)
    requires i < n
    ensures Spread(start, interval, q, n)[i] == Slice(i + 1, start + interval * SECOND * i, Share(q, n, i))
  {
  }

  /** The start asked for, or else the first whole second that is neither past nor before the opening. */
  ghost predicate IsStartFor(r: Request, now: Instant, date: Day, start: Instant) {
    if r.startTime.Some? then start == date * DAY + r.startTime.value
    else
      && start % SECOND == 0 && now <= start && OpenOf(date) <= start
      && forall s :: s % SECOND == 0 && now <= s && OpenOf(date) <= s ==> start <= s
  }

  lemma StartIsAsAsked(r: Request, now: Instant)
    ensures PlanDate(now) == TradingDate(now) && IsStartFor(r, now, TradingDate(now), StartAt(r, now))
  {
    NextIsLeast(DayOf(now));
    assert now == DayOf(now) * DAY + TimeOfDay(now);
    if r.startTime.None? {
      CeilIsLeast(now);
      WholeSeconds(TradingDate(now));
    }
  }

  lemma CeilIsLeast(t: Instant)
    ensures CeilToSecond(t) % SECOND == 0 && t <= CeilToSecond(t) < t + SECOND
    ensures forall s :: s % SECOND == 0 && t <= s ==> CeilToSecond(t) <= s
  {
    assert t == (t / SECOND) * SECOND + t % SECOND;
    forall s | s % SECOND == 0 && t <= s
      ensures CeilToSecond(t) <= s
    {
      assert s == (s / SECOND) * SECOND;
    }
  }

  lemma WholeSeconds(d: Day)
    ensures OpenOf(d) % SECOND == 0
  {
    assert OpenOf(d) == (d * 86_400 + 9 * 3_600) * SECOND;
  }

  lemma StartIsUnique(r: Request, now: Instant, date: Day, a: Instant, b: Instant)
    requires IsStartFor(r, now, date, a) && IsStartFor(r, now, date, b)
    ensures a == b
  {
  }

  /** An accepted plan is for the request: its lots, its interval, its start and its end, in the next session. */
  lemma PlanAnswersRequest(r: Request, now: Instant)
    requires PlanFor(r, now).Ok?
    ensures var p := PlanFor(r, now).value;
            && p.target == r.quantity && p.interval == r.interval && p.phase == PhaseAt(now)
            && p.tradingDate == TradingDate(now) && p.endAt == p.tradingDate * DAY + r.endTime
            && IsStartFor(r, now, p.tradingDate, p.startAt)
  {
    hide IsStartFor, StartAt, PlanDate, TradingDate, Spread;
    StartIsAsAsked(r, now);
  }

  /** The limits a request must keep: seconds, lots, and hours between nine and twenty-five past one. */
  ghost predicate IsWithinLimits(r: Request) {
    && 1 <= r.interval <= 3600 && 2 <= r.quantity <= 1000
    && 9 * 60 * 60 * SECOND <= r.endTime <= (13 * 60 + 25) * 60 * SECOND
    && (r.startTime.Some? ==> 9 * 60 * 60 * SECOND <= r.startTime.value <= (13 * 60 + 20) * 60 * SECOND && r.startTime.value <= r.endTime)
  }

  /**
   A request is accepted exactly when it keeps the limits, a second slice is due by its end,
   and it would not take more than 200 slices.
   */
  lemma PlanAcceptedExactly(r: Request, now: Instant, start: Instant)
    requires IsStartFor(r, now, TradingDate(now), start)
    ensures var end, step := TradingDate(now) * DAY + r.endTime, r.interval * SECOND;
            PlanFor(r, now).Ok? <==>
            IsWithinLimits(r) && start + step <= end && (r.quantity <= 200 || end < start + step * 200)
  {
    hide IsStartFor, StartAt, PlanDate, TradingDate, Spread;
    StartIsAsAsked(r, now);
    StartIsUnique(r, now, TradingDate(now), start, StartAt(r, now));
    var span, step := EndAt(r, now) - start, r.interval * SECOND;
    if step > 0 {
      CountAtLeast(span, step, 2);
      CountAtLeast(span, step, 201);
    }
  }

  /** What is wrong with the request as such, whenever it is made. */
  ghost predicate IsTrueOfRequest(r: Request, error: TwapError) {
    match error
    case InvalidInterval => !(1 <= r.interval <= 3600)
    case InvalidQuantity => !(2 <= r.quantity <= 1000)
    case StartOutsideSession => r.startTime.Some? && !(SESSION_START <= r.startTime.value <= (13 * 60 + 20) * 60 * SECOND)
    case EndOutsideSession => !(SESSION_START <= r.endTime <= (13 * 60 + 25) * 60 * SECOND)
    case StartAfterEnd => r.startTime.Some? && r.startTime.value > r.endTime
    case _ => false
  }

  /** What is wrong with the time it is made at. */
  ghost predicate IsTrueOfTime(r: Request, inSession: bool, start: Instant, end: Instant, error: TwapError) {
    var step := r.interval * SECOND;
    match error
    case EndAlreadyPassed => inSession && end < start
    case InsufficientSlices(available, count) => end < start + step && (end >= start ==> available == count == 1)
    case TooManySlices(count) => 200 < count <= r.quantity && start + step * (count - 1) <= end
    case _ => false
  }

  lemma InvalidTellsWhy(r: Request)
    ensures Invalid(r).Some? ==> IsTrueOfRequest(r, Invalid(r).value)
    ensures Invalid(r).None? ==> r.interval >= 1 && r.quantity >= 2
  {
  }

  /** The reason given for refusing a request is true. */
  lemma PlanRefusalTellsWhy(r: Request, now: Instant, start: Instant)
    requires IsStartFor(r, now, TradingDate(now), start) && PlanFor(r, now).Err?
    ensures var error := PlanFor(r, now).error;
            IsTrueOfRequest(r, error) || IsTrueOfTime(r, InSession(now), start, TradingDate(now) * DAY + r.endTime, error)
  {
    hide IsStartFor, StartAt, PlanDate, TradingDate, Spread, Invalid, IsTrueOfRequest, IsTrueOfTime, InSession, PhaseAt, Available;
    InvalidTellsWhy(r);
    if Invalid(r).None? {
      StartIsAsAsked(r, now);
      StartIsUnique(r, now, TradingDate(now), start, StartAt(r, now));
      SessionPhase(now);
      var end := EndAt(r, now);
      if end >= start {
        AvailableIs(r, now);
        CountsTellWhy(r, InSession(now), start, end);
      } else {
        PassedTellsWhy(r, InSession(now), start, end);
      }
    }
  }

  lemma SessionPhase(now: Instant)
    ensures PhaseAt(now).RegularSession? <==> InSession(now)
  {
  }

  lemma AvailableIs(r: Request, now: Instant)
    requires r.interval > 0
    ensures Available(r, now) == (EndAt(r, now) - StartAt(r, now)) / (r.interval * SECOND) + 1
  {
  }

  lemma PassedTellsWhy(r: Request, inSession: bool, start: Instant, end: Instant)
    requires end < start && r.interval >= 1
    ensures IsTrueOfTime(r, inSession, start, end, if inSession then EndAlreadyPassed else InsufficientSlices(0, 0))
  {
  }

  lemma CountsTellWhy(r: Request, inSession: bool, start: Instant, end: Instant)
    requires start <= end && r.interval >= 1 && r.quantity >= 2
    ensures var available := (end - start) / (r.interval * SECOND) + 1;
            var n := Least(available, r.quantity);
            && (n < MIN_SLICES ==> IsTrueOfTime(r, inSession, start, end, InsufficientSlices(available, n)))
            && (n > MAX_SLICES ==> IsTrueOfTime(r, inSession, start, end, TooManySlices(n)))
  {
    var span, step := end - start, r.interval * SECOND;
    var available := span / step + 1;
    CountAtLeast(span, step, 2);
    CountAtLeast(span, step, Least(available, r.quantity));
    assert available >= 1;
  }

  lemma CountAtLeast(span: int, step: int, n: int)
    requires step > 0 && n >= 1
    ensures span >= 0 ==> (span / step + 1 >= n <==> span >= step * (n - 1))
  {
    if span >= 0 {
      assert span == step * (span / step) + span % step;
      if span / step + 1 >= n {
        SliceTimesOrdered(step, n - 1, span / step);
      } else {
        SliceTimesOrdered(step, span / step + 1, n - 1);
        assert step * (span / step + 1) == step * (span / step) + step;
      }
    }
  }

  /** No slice is due before now, unless a start time already past was asked for in session. */
  lemma NoSliceInThePast(r: Request, now: Instant)
    requires PlanFor(r, now).Ok?
    ensures (forall i :: 0 <= i < |PlanFor(r, now).value.slices| ==> PlanFor(r, now).value.slices[i].at >= now)
            <==> !(PhaseAt(now).RegularSession? && r.startTime.Some? && r.startTime.value < TimeOfDay(now))
  {
    var p := PlanFor(r, now).value;
    AcceptedPlanIsSound(r, now);
    hide SoundPlan, Spread, TotalLots;
    assert p.slices[0].at == p.startAt by { SpreadAt(p.startAt, p.interval, p.target, |p.slices|, 0); }
    StartBeforeNow(r, now);
    assert forall i :: 0 <= i < |p.slices| ==> p.slices[i].at >= p.startAt by { SlicesFromStart(p, now); }
  }

  /** Such a plan is accepted: at ten o'clock, ten lots a minute apart from the opening on. */
  lemma SliceCanBeInThePast()
    ensures var now := 10 * 3_600 * SECOND;
            var r := Request(10, 60, Some(SESSION_START), LATEST_END);
            && PhaseAt(now).RegularSession? && PlanFor(r, now).Ok?
            && PlanFor(r, now).value.slices[0].at < now
  {
    hide Spread;
    var now := 10 * 3_600 * SECOND;
    var r := Request(10, 60, Some(SESSION_START), LATEST_END);
    assert DayOf(now) == 0 && TimeOfDay(now) == now;
    assert PlanFor(r, now).Ok?;
    SpreadAt(SESSION_START, 60, 10, 10, 0);
  }

  lemma SlicesFromStart(p: Plan, now: Instant)
    requires SoundPlan(p, now)
    ensures forall i :: 0 <= i < |p.slices| ==> p.slices[i].at >= p.startAt
  {
  }

  lemma StartBeforeNow(r: Request, now: Instant)
    requires Invalid(r).None?
    ensures StartAt(r, now) < now <==> PhaseAt(now).RegularSession? && r.startTime.Some? && r.startTime.value < TimeOfDay(now)
  {
    assert now == DayOf(now) * DAY + TimeOfDay(now);
    assert now <= CeilToSecond(now);
    NextIsLeast(DayOf(now));
  }
}
