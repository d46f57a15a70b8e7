/**
 The trading calendar (src/app/domain/trading_session.py): weekdays, 09:00 to 13:30.

 Instants are microseconds of Taipei wall-clock time counted from the midnight that
 starts some Monday; days are numbered from that Monday, so the weekday is the day
 number modulo seven.
 */
module TradingSession {

  type Instant = int
  type Day = int

  const SECOND := 1_000_000
  const DAY := 86_400 * SECOND
  const SESSION_START := 9 * 3_600 * SECOND
  const SESSION_END := 13 * 3_600 * SECOND + 1_800 * SECOND

  datatype Phase = PreMarket | RegularSession | PostMarket

  function DayOf(t: Instant): Day {
    t / DAY
  }

  function TimeOfDay(t: Instant): int {
    t % DAY
  }

  /** The instant at which the session of a day opens. */
  function OpenOf(d: Day): Instant {
    d * DAY + SESSION_START
  }

  predicate IsTradingDay(d: Day) {
    d % 7 < 5
  }

  predicate InSession(t: Instant) {
    IsTradingDay(DayOf(t)) && SESSION_START <= TimeOfDay(t) < SESSION_END
  }

  function PhaseAt(t: Instant): Phase {
    if !IsTradingDay(DayOf(t)) then PostMarket
    else if TimeOfDay(t) < SESSION_START then PreMarket
    else if TimeOfDay(t) < SESSION_END then RegularSession
    else PostMarket
  }

  /** The instant at which the session of a day closes. */
  function CloseOf(d: Day): Instant {
    d * DAY + SESSION_END
  }

  /** Sessions are held from Monday to Friday, from nine o'clock until before half past one. */
  lemma SessionHours(week: int, weekday: int, hour: int, minute: int, rest: int)
    requires 0 <= weekday < 7 && 0 <= hour < 24 && 0 <= minute < 60 && 0 <= rest < 60 * SECOND
    ensures var t := ((week * 7 + weekday) * 24 * 60 + hour * 60 + minute) * 60 * SECOND + rest;
            && DayOf(t) == week * 7 + weekday
            && (InSession(t) <==> weekday < 5 && (9 <= hour < 13 || (hour == 13 && minute < 30)))
            && (PhaseAt(t).PreMarket? <==> weekday < 5 && hour < 9)
            && (PhaseAt(t).RegularSession? <==> InSession(t))
  {
    var d := week * 7 + weekday;
    var time := (hour * 60 + minute) * 60 * SECOND + rest;
    var t := (d * 24 * 60 + hour * 60 + minute) * 60 * SECOND + rest;
    assert t == d * DAY + time && 0 <= time < DAY;
    assert d % 7 == weekday;
  }

  /** What `next_trading_day` promises, without saying how it is found. */
  ghost predicate IsLeastTradingDayAfter(r: Day, d: Day) {
    r > d && IsTradingDay(r) && forall x :: d < x < r ==> !IsTradingDay(x)
  }

  function NextTradingDay(d: Day): (r: Day) {
    if d % 7 == 4 then d + 3 else if d % 7 == 5 then d + 2 else d + 1
  }

  lemma NextIsLeast(d: Day)
    ensures IsLeastTradingDayAfter(NextTradingDay(d), d)
  {
    var r := NextTradingDay(d);
    assert IsTradingDay(r);
    forall x | d < x < r
      ensures !IsTradingDay(x)
    {
      assert x == d + 1 || x == d + 2;
    }
  }

  /** The loop behind `next_trading_day`. */
  method NextWeekday(d: Day) returns (candidate: Day)
    ensures IsLeastTradingDayAfter(candidate, d)
    ensures candidate == NextTradingDay(d)
  {
    NextIsLeast(d);
    candidate := d + 1;
    while !IsTradingDay(candidate)
      invariant d < candidate <= NextTradingDay(d)
      invariant forall x :: d < x < candidate ==> !IsTradingDay(x)
      decreases NextTradingDay(d) - candidate
    {
      candidate := candidate + 1;
    }
  }

  /** The trading date a new day intent carries. */
  function TradingDate(now: Instant): Day {
    if IsTradingDay(DayOf(now)) && TimeOfDay(now) < SESSION_END then DayOf(now) else NextTradingDay(DayOf(now))
  }

  /** The latest trading date whose intents can no longer trigger. */
  function ExpiryCutoff(now: Instant): Day {
    if PhaseAt(now).PostMarket? then DayOf(now) else DayOf(now) - 1
  }

  predicate StartsActive(now: Instant) {
    InSession(now)
  }

  /** A new intent is dated the first trading day that has not yet expired. */
  lemma TradingDateFollowsCutoff(now: Instant)
    ensures IsLeastTradingDayAfter(TradingDate(now), ExpiryCutoff(now))
    ensures StartsActive(now) <==> TradingDate(now) == DayOf(now) && OpenOf(TradingDate(now)) <= now
    ensures StartsActive(now) <==> PhaseAt(now).RegularSession?
  {
    assert now == DayOf(now) * DAY + TimeOfDay(now);
    NextIsLeast(DayOf(now));
  }

  /** Intents of a trading day can no longer trigger exactly from its close on. */
  lemma ExpiresExactlyAtClose(now: Instant, d: Day)
    requires IsTradingDay(d)
    ensures d <= ExpiryCutoff(now) <==> now >= CloseOf(d)
    ensures InSession(now) && DayOf(now) == d <==> OpenOf(d) <= now < CloseOf(d)
  {
    assert now == DayOf(now) * DAY + TimeOfDay(now);
  }

  /** As time passes neither date moves back. */
  lemma DatesAreMonotone(early: Instant, late: Instant)
    requires early <= late
    ensures DayOf(early) <= DayOf(late)
    ensures ExpiryCutoff(early) <= ExpiryCutoff(late)
    ensures TradingDate(early) <= TradingDate(late)
  {
    assert early == DayOf(early) * DAY + TimeOfDay(early);
    assert late == DayOf(late) * DAY + TimeOfDay(late);
    TradingDateFollowsCutoff(early);
    TradingDateFollowsCutoff(late);
  }

  /** The time from one session's close to the next day's opening. */
  const OVERNIGHT := DAY - SESSION_END + SESSION_START

  /** Within one night of an instant in session, what has opened and not expired is of that day. */
  lemma OpenAndUnexpiredIsToday(now: Instant, later: Instant, d: Day)
    requires InSession(now) && now <= later < now + OVERNIGHT
    requires OpenOf(d) <= later && d > ExpiryCutoff(later)
    ensures d == DayOf(now)
  {
    DatesAreMonotone(now, later);
    assert now == DayOf(now) * DAY + TimeOfDay(now);
  }
}
