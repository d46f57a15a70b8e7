/**
 The token bucket (src/app/core/rate_limiter.py), with exact numbers for its floats.
 */
module RateLimiter {
  import opened Outcomes

  /** A stored bucket; a missing one counts as full. */
  datatype Bucket = Bucket(tokens: real, updatedAt: real)

  /** How fast and how far a bucket fills. */
  datatype Rule = Rule(capacity: real, rate: real)

  predicate ValidRule(r: Rule) {
    r.capacity >= 0.0 && r.rate >= 0.0
  }

  /** `retryAfter` is absent when no wait would help. */
  datatype Decision = Decision(allowed: bool, remaining: real, retryAfter: Option<real>)

  function Gain(seconds: real, rate: real): real {
    seconds * rate
  }

  function Least(a: real, b: real): real {
    if a <= b then a else b
  }

  function Refill(tokens: real, elapsed: real, r: Rule): real {
    Least(r.capacity, tokens + Gain(if elapsed >= 0.0 then elapsed else 0.0, r.rate))
  }

  /** What the bucket holds at an instant, before any request then. */
  function Level(b: Option<Bucket>, r: Rule, now: real): real {
    if b.None? then Refill(r.capacity, 0.0, r) else Refill(b.value.tokens, now - b.value.updatedAt, r)
  }

  function Allows(b: Option<Bucket>, r: Rule, cost: real, now: real): bool {
    Level(b, r, now) >= cost
  }

  function After(b: Option<Bucket>, r: Rule, cost: real, now: real): Bucket {
    Bucket(if Allows(b, r, cost, now) then Level(b, r, now) - cost else Level(b, r, now), now)
  }

  function RetryAfter(b: Option<Bucket>, r: Rule, cost: real, now: real): Option<real> {
    if Allows(b, r, cost, now) then Some(0.0)
    else if r.rate > 0.0 then Some((cost - Level(b, r, now)) / r.rate)
    else None
  }

  /** The table of buckets, one row per key. */
  class Limiter {
    var buckets: map<string, Bucket>

    function Stored(key: string): Option<Bucket>
      reads this
    {
      if key in buckets then Some(buckets[key]) else None
    }

    constructor ()
      ensures buckets == map[]
    {
      buckets := map[];
    }

    method Consume(key: string, r: Rule, cost: real, now: real) returns (d: Decision)
      modifies this
      ensures buckets == old(buckets)[key := After(old(Stored(key)), r, cost, now)]
      ensures d.allowed == Allows(old(Stored(key)), r, cost, now)
      ensures d.remaining == buckets[key].tokens
      ensures d.retryAfter == RetryAfter(old(Stored(key)), r, cost, now)
    {
      if key !in buckets {
        buckets := buckets[key := Bucket(r.capacity, now)];
      }
      var row := buckets[key];
      var tokens := Refill(row.tokens, now - row.updatedAt, r);
      var allowed := tokens >= cost;
      if allowed {
        tokens := tokens - cost;
      }
      buckets := buckets[key := Bucket(tokens, now)];
      var retry: Option<real>;
      if allowed {
        retry := Some(0.0);
      } else if r.rate > 0.0 {
        retry := Some((cost - tokens) / r.rate);
      } else {
        retry := None;
      }
      d := Decision(allowed, tokens, retry);
    }

    /** The next request under the key meets a full bucket, and other keys are as before. */
    method Reset(key: string)
      modifies this
      ensures buckets == old(buckets) - {key}
      ensures forall r, now :: ValidRule(r) ==> Level(Stored(key), r, now) == r.capacity
      ensures forall other :: other != key ==> Stored(other) == old(Stored(other))
    {
      buckets := buckets - {key};
    }
  }

  // ---------------------------------------------------------------- refilling

  lemma GainAdds(a: real, b: real, rate: real)
    ensures Gain(a + b, rate) == Gain(a, rate) + Gain(b, rate)
  {
  }

  lemma GainGrows(a: real, b: real, rate: real)
    requires a <= b && rate >= 0.0
    ensures Gain(a, rate) <= Gain(b, rate)
    ensures Gain(0.0, rate) == 0.0
  {
  }

  lemma GainGrowsStrictly(a: real, b: real, rate: real)
    requires a < b && rate > 0.0
    ensures Gain(a, rate) < Gain(b, rate)
  {
  }

  /** Filling twice is filling once for the whole time. */
  lemma RefillComposes(tokens: real, a: real, b: real, r: Rule)
    requires ValidRule(r) && a >= 0.0 && b >= 0.0
    ensures Refill(Refill(tokens, a, r), b, r) == Refill(tokens, a + b, r)
  {
    hide Gain;
    GainAdds(a, b, r.rate);
    GainGrows(0.0, a, r.rate);
    GainGrows(0.0, b, r.rate);
  }

  /** A refused attempt leaves the level at every later instant as it would have been. */
  lemma RefusalCostsNothing(b: Bucket, r: Rule, cost: real, now: real, later: real)
    requires ValidRule(r) && b.updatedAt <= now <= later && !Allows(Some(b), r, cost, now)
    ensures Level(Some(After(Some(b), r, cost, now)), r, later) == Level(Some(b), r, later)
  {
    hide Gain;
    RefillComposes(b.tokens, now - b.updatedAt, later - now, r);
  }

  // ---------------------------------------------------------------- any window

  datatype Request = Request(cost: real, now: real)

  /** Costs are not negative and the clock does not go back. */
  ghost predicate Orderly(requests: seq<Request>) {
    && (forall i :: 0 <= i < |requests| ==> requests[i].cost >= 0.0)
    && (forall i, j :: 0 <= i < j < |requests| ==> requests[i].now <= requests[j].now)
  }

  function Serve(b: Option<Bucket>, r: Rule, requests: seq<Request>): Option<Bucket>
    decreases |requests|
  {
    if requests == [] then b else Serve(Some(After(b, r, requests[0].cost, requests[0].now)), r, requests[1..])
  }

  /** The total cost let through. */
  function Granted(b: Option<Bucket>, r: Rule, requests: seq<Request>): real
    decreases |requests|
  {
    if requests == [] then 0.0
    else
      var q := requests[0];
      (if Allows(b, r, q.cost, q.now) then q.cost else 0.0)
      + Granted(Some(After(b, r, q.cost, q.now)), r, requests[1..])
  }

  /** Tokens are between nothing and full, and the bucket is not of the future. */
  ghost predicate Plausible(b: Option<Bucket>, r: Rule, now: real) {
    b.Some? ==> 0.0 <= b.value.tokens <= r.capacity && b.value.updatedAt <= now
  }

  lemma AfterIsPlausible(b: Option<Bucket>, r: Rule, cost: real, now: real)
    requires ValidRule(r) && cost >= 0.0 && Plausible(b, r, now)
    ensures Plausible(Some(After(b, r, cost, now)), r, now)
    ensures var granted := if Allows(b, r, cost, now) then cost else 0.0;
            After(b, r, cost, now).tokens + granted == Level(b, r, now) <= r.capacity
  {
    hide Gain;
    GainGrows(0.0, if b.Some? then now - b.value.updatedAt else 0.0, r.rate);
  }

  /** From a given bucket on, what is granted is covered by its tokens and the refill. */
  lemma {:induction false} GrantedIsCovered(b: Bucket, r: Rule, requests: seq<Request>, until: real)
    requires ValidRule(r) && Orderly(requests) && 0.0 <= b.tokens <= r.capacity
    requires forall i :: 0 <= i < |requests| ==> b.updatedAt <= requests[i].now <= until
    requires b.updatedAt <= until
    ensures Granted(Some(b), r, requests) <= b.tokens + Gain(until - b.updatedAt, r.rate)
    decreases |requests|
  {
    hide Gain;
    if requests == [] {
      GainGrows(0.0, until - b.updatedAt, r.rate);
    } else {
      var q := requests[0];
      var next := After(Some(b), r, q.cost, q.now);
      AfterIsPlausible(Some(b), r, q.cost, q.now);
      GrantedIsCovered(next, r, requests[1..], until);
      GainAdds(q.now - b.updatedAt, until - q.now, r.rate);
      assert (q.now - b.updatedAt) + (until - q.now) == until - b.updatedAt;
    }
  }

  /** From any plausible bucket, a stretch of requests is granted at most a full bucket and the refill. */
  lemma StretchIsBounded(b: Option<Bucket>, r: Rule, requests: seq<Request>)
    requires ValidRule(r) && Orderly(requests) && requests != [] && Plausible(b, r, requests[0].now)
    ensures Granted(b, r, requests) <= r.capacity + Gain(requests[|requests| - 1].now - requests[0].now, r.rate)
  {
    hide Gain;
    var q, until := requests[0], requests[|requests| - 1].now;
    AfterIsPlausible(b, r, q.cost, q.now);
    forall i | 0 <= i < |requests|
      ensures q.now <= requests[i].now <= until
    {
    }
    GrantedIsCovered(After(b, r, q.cost, q.now), r, requests[1..], until);
  }

  lemma {:induction false} ServeStaysPlausible(b: Option<Bucket>, r: Rule, requests: seq<Request>, until: real)
    requires ValidRule(r) && Orderly(requests)
    requires requests == [] ==> Plausible(b, r, until)
    requires requests != [] ==> Plausible(b, r, requests[0].now)
    requires forall i :: 0 <= i < |requests| ==> requests[i].now <= until
    ensures Plausible(Serve(b, r, requests), r, until)
    decreases |requests|
  {
    if requests != [] {
      var q := requests[0];
      AfterIsPlausible(b, r, q.cost, q.now);
      hide After, Level;
      ServeStaysPlausible(Some(After(b, r, q.cost, q.now)), r, requests[1..], until);
    }
  }

  /**
   In every orderly run from an untouched bucket, the cost granted to the requests i..j is
   at most the capacity plus what flows in between the first and the last of them.
   */
  lemma WindowIsBounded(r: Rule, requests: seq<Request>, i: nat, j: nat)
    requires ValidRule(r) && Orderly(requests) && i < j <= |requests|
    ensures Granted(Serve(None, r, requests[..i]), r, requests[i..j])
            <= r.capacity + Gain(requests[j - 1].now - requests[i].now, r.rate)
  {
    hide Gain, Serve, Granted;
    assert Orderly(requests[..i]) && Orderly(requests[i..j]);
    ServeStaysPlausible(None, r, requests[..i], requests[i].now);
    StretchIsBounded(Serve(None, r, requests[..i]), r, requests[i..j]);
    assert requests[i..j][|requests[i..j]| - 1] == requests[j - 1];
  }

  /** With a clock that goes back more than a bucket can pass: the same seconds are refilled twice. */
  lemma BackwardClockBreaksBound()
    ensures exists r: Rule, requests: seq<Request> ::
              && ValidRule(r) && |requests| == 3 && requests[0].now == requests[2].now
              && Granted(None, r, requests) > r.capacity
  {
    var r := Rule(1.0, 1.0);
    var requests := [Request(1.0, 10.0), Request(1.0, 0.0), Request(1.0, 10.0)];
    var b1 := After(None, r, 1.0, 10.0);
    var b2 := After(Some(b1), r, 1.0, 0.0);
    assert requests[1..] == [requests[1], requests[2]] && requests[1..][1..] == [requests[2]];
    assert b1 == Bucket(0.0, 10.0) && b2 == Bucket(0.0, 0.0);
    assert Granted(Some(b2), r, [requests[2]]) == 1.0;
    assert Granted(Some(b1), r, requests[1..]) == 1.0;
    assert Granted(None, r, requests) == 2.0;
  }

  // ---------------------------------------------------------------- exactly which clocks

  /** The bound on every window of one run from an untouched bucket. */
  ghost predicate WindowFits(r: Rule, requests: seq<Request>, i: int, j: int) {
    0 <= i < j <= |requests| ==>
      Granted(Serve(None, r, requests[..i]), r, requests[i..j])
      <= r.capacity + Gain(requests[j - 1].now - requests[i].now, r.rate)
  }

  ghost predicate AllWindowsFit(r: Rule, requests: seq<Request>) {
    forall i, j :: WindowFits(r, requests, i, j)
  }

  /** Requests of any cost made at these readings of the clock. */
  ghost predicate MadeAt(requests: seq<Request>, clock: seq<real>) {
    |requests| == |clock| && forall i :: 0 <= i < |clock| ==> requests[i].now == clock[i] && requests[i].cost >= 0.0
  }

  ghost predicate NeverGoesBack(clock: seq<real>) {
    forall i, j :: 0 <= i < j < |clock| ==> clock[i] <= clock[j]
  }

  ghost predicate IsFull(b: Option<Bucket>, r: Rule) {
    b.Some? ==> b.value.tokens == r.capacity
  }

  lemma FullStaysFull(b: Option<Bucket>, r: Rule, now: real)
    requires ValidRule(r) && IsFull(b, r)
    ensures Level(b, r, now) == r.capacity && IsFull(Some(After(b, r, 0.0, now)), r)
  {
    hide Gain;
    GainGrows(0.0, if b.Some? && now >= b.value.updatedAt then now - b.value.updatedAt else 0.0, r.rate);
  }

  lemma {:induction false} FreeRequestsLeaveFull(b: Option<Bucket>, r: Rule, requests: seq<Request>)
    requires ValidRule(r) && IsFull(b, r) && forall i :: 0 <= i < |requests| ==> requests[i].cost == 0.0
    ensures IsFull(Serve(b, r, requests), r)
    decreases |requests|
  {
    hide After;
    if requests != [] {
      FullStaysFull(b, r, requests[0].now);
      FreeRequestsLeaveFull(Some(After(b, r, requests[0].cost, requests[0].now)), r, requests[1..]);
    }
  }

  lemma {:induction false} FreeRequestsGrantNothing(b: Option<Bucket>, r: Rule, requests: seq<Request>)
    requires forall i :: 0 <= i < |requests| ==> requests[i].cost == 0.0
    ensures Granted(b, r, requests) == 0.0
    decreases |requests|
  {
    hide After, Allows;
    if requests != [] {
      FreeRequestsGrantNothing(Some(After(b, r, requests[0].cost, requests[0].now)), r, requests[1..]);
    }
  }

  /** A full bucket's worth at reading i, and nothing asked for at any other. */
  ghost function Burst(r: Rule, clock: seq<real>, i: nat): seq<Request> {
    seq(|clock|, k requires 0 <= k < |clock| => Request(if k == i then r.capacity else 0.0, clock[k]))
  }

  /** A burst before a reading that lies further back is more than the window from it allows. */
  lemma BurstBreaksWindow(r: Rule, clock: seq<real>, i: nat, j: nat)
    requires ValidRule(r) && r.rate > 0.0 && i < j < |clock| && clock[j] < clock[i]
    ensures MadeAt(Burst(r, clock, i), clock) && !WindowFits(r, Burst(r, clock, i), i, j + 1)
  {
    hide Gain, Serve, Level;
    var requests := Burst(r, clock, i);
    var before := Serve(None, r, requests[..i]);
    FreeRequestsLeaveFull(None, r, requests[..i]);
    FullStaysFull(before, r, clock[i]);
    var window := requests[i..j + 1];
    assert window[0] == Request(r.capacity, clock[i]);
    FreeRequestsGrantNothing(Some(After(before, r, r.capacity, clock[i])), r, window[1..]);
    assert Granted(before, r, window) == r.capacity;
    GainGrowsStrictly(clock[j] - clock[i], 0.0, r.rate);
    NoGainWithoutTime(r.rate);
  }

  lemma NoGainWithoutTime(rate: real)
    ensures Gain(0.0, rate) == 0.0
  {
  }

  /** A bucket that never refills grants what it holds, whatever the clock does. */
  lemma {:induction false} UnfedGrantsWhatItHolds(b: Option<Bucket>, r: Rule, requests: seq<Request>)
    requires ValidRule(r) && r.rate == 0.0 && (b.Some? ==> 0.0 <= b.value.tokens <= r.capacity)
    requires forall i :: 0 <= i < |requests| ==> requests[i].cost >= 0.0
    ensures Granted(b, r, requests) <= if b.Some? then b.value.tokens else r.capacity
    ensures var after := Serve(b, r, requests); after.Some? ==> 0.0 <= after.value.tokens <= r.capacity
    decreases |requests|
  {
    if requests != [] {
      var q := requests[0];
      UnfedAfter(b, r, q.cost, q.now);
      hide After, Allows;
      UnfedGrantsWhatItHolds(Some(After(b, r, q.cost, q.now)), r, requests[1..]);
    }
  }

  lemma UnfedAfter(b: Option<Bucket>, r: Rule, cost: real, now: real)
    requires ValidRule(r) && r.rate == 0.0 && cost >= 0.0 && (b.Some? ==> 0.0 <= b.value.tokens <= r.capacity)
    ensures var granted := if Allows(b, r, cost, now) then cost else 0.0;
            var held := if b.Some? then b.value.tokens else r.capacity;
            0.0 <= After(b, r, cost, now).tokens == held - granted <= r.capacity
  {
    hide Gain;
    var elapsed := if b.Some? then now - b.value.updatedAt else 0.0;
    NoGain(if elapsed >= 0.0 then elapsed else 0.0);
  }

  /**
   The bound holds for all costs at given readings of the clock exactly when the readings
   never go back, or nothing ever flows in.
   */
  lemma BoundHoldsExactlyForForwardClocks(r: Rule, clock: seq<real>)
    requires ValidRule(r)
    ensures (forall requests: seq<Request> :: MadeAt(requests, clock) ==> AllWindowsFit(r, requests))
            <==> NeverGoesBack(clock) || r.rate == 0.0
  {
    hide Gain, Serve, Granted;
    if NeverGoesBack(clock) || r.rate == 0.0 {
      forall requests: seq<Request> | MadeAt(requests, clock)
        ensures AllWindowsFit(r, requests)
      {
        forall i: int, j: int | 0 <= i < j <= |requests|
          ensures WindowFits(r, requests, i, j)
        {
          if r.rate == 0.0 {
            UnfedGrantsWhatItHolds(None, r, requests[..i]);
            UnfedGrantsWhatItHolds(Serve(None, r, requests[..i]), r, requests[i..j]);
            NoGain(requests[j - 1].now - requests[i].now);
          } else {
            assert Orderly(requests);
            WindowIsBounded(r, requests, i, j);
          }
        }
      }
    } else {
      var i, j :| 0 <= i < j < |clock| && clock[i] > clock[j];
      BurstBreaksWindow(r, clock, i, j);
      assert !AllWindowsFit(r, Burst(r, clock, i));
    }
  }

  // ---------------------------------------------------------------- the most any clock lets through

  /** What can flow into an empty bucket from one reading to the next. */
  function StepInflow(r: Rule, early: real, late: real): real {
    Least(r.capacity, Gain(if late >= early then late - early else 0.0, r.rate))
  }

  /** The same, over all neighbouring readings. */
  function Inflow(r: Rule, clock: seq<real>): real
    decreases |clock|
  {
    if |clock| <= 1 then 0.0 else StepInflow(r, clock[0], clock[1]) + Inflow(r, clock[1..])
  }

  ghost predicate Holds(b: Option<Bucket>, r: Rule) {
    b.Some? ==> 0.0 <= b.value.tokens <= r.capacity
  }

  /** One request, at whatever reading: what it takes and leaves is the level, which grew by the inflow at most. */
  lemma AfterIsWithinInflow(b: Bucket, r: Rule, cost: real, now: real)
    requires ValidRule(r) && Holds(Some(b), r) && cost >= 0.0
    ensures var granted := if Allows(Some(b), r, cost, now) then cost else 0.0;
            var next := After(Some(b), r, cost, now);
            && Holds(Some(next), r) && next.updatedAt == now
            && next.tokens + granted <= b.tokens + StepInflow(r, b.updatedAt, now)
  {
    hide Gain;
    NoGainWithoutTime(r.rate);
    GainGrows(0.0, if now >= b.updatedAt then now - b.updatedAt else 0.0, r.rate);
  }

  lemma FirstIsWithinCapacity(b: Option<Bucket>, r: Rule, cost: real, now: real)
    requires ValidRule(r) && Holds(b, r) && cost >= 0.0
    ensures var granted := if Allows(b, r, cost, now) then cost else 0.0;
            var next := After(b, r, cost, now);
            Holds(Some(next), r) && next.updatedAt == now && next.tokens + granted <= r.capacity
  {
    hide Gain;
    NoGainWithoutTime(r.rate);
    var elapsed := if b.Some? then now - b.value.updatedAt else 0.0;
    GainGrows(0.0, if elapsed >= 0.0 then elapsed else 0.0, r.rate);
  }

  /** Requests made at the readings after the first, which is the bucket's own. */
  ghost predicate Follow(b: Bucket, requests: seq<Request>, clock: seq<real>) {
    && |clock| == |requests| + 1 && clock[0] == b.updatedAt
    && forall k :: 0 <= k < |requests| ==> requests[k].now == clock[k + 1] && requests[k].cost >= 0.0
  }

  lemma {:induction false} GrantedIsWithinInflow(b: Bucket, r: Rule, requests: seq<Request>, clock: seq<real>)
    requires ValidRule(r) && Holds(Some(b), r) && Follow(b, requests, clock)
    ensures Granted(Some(b), r, requests) <= b.tokens + Inflow(r, clock)
    decreases |requests|
  {
    hide After, Allows, StepInflow;
    if requests != [] {
      var q := requests[0];
      AfterIsWithinInflow(b, r, q.cost, q.now);
      GrantedIsWithinInflow(After(Some(b), r, q.cost, q.now), r, requests[1..], clock[1..]);
    }
  }

  lemma {:induction false} ServeHolds(b: Option<Bucket>, r: Rule, requests: seq<Request>)
    requires ValidRule(r) && Holds(b, r) && forall k :: 0 <= k < |requests| ==> requests[k].cost >= 0.0
    ensures Holds(Serve(b, r, requests), r)
    decreases |requests|
  {
    hide After, Holds;
    if requests != [] {
      FirstIsWithinCapacity(b, r, requests[0].cost, requests[0].now);
      ServeHolds(Some(After(b, r, requests[0].cost, requests[0].now)), r, requests[1..]);
    }
  }

  /** The most that a window of requests at these readings can be granted. */
  ghost function WorstCase(r: Rule, clock: seq<real>, i: nat, j: nat): real
    requires i < j <= |clock|
  {
    r.capacity + Inflow(r, clock[i..j])
  }

  ghost function WindowGrant(r: Rule, requests: seq<Request>, i: nat, j: nat): real
    requires i < j <= |requests|
  {
    Granted(Serve(None, r, requests[..i]), r, requests[i..j])
  }

  lemma GrantIsWithinWorstCase(r: Rule, clock: seq<real>, requests: seq<Request>, i: nat, j: nat)
    requires ValidRule(r) && MadeAt(requests, clock) && i < j <= |clock|
    ensures WindowGrant(r, requests, i, j) <= WorstCase(r, clock, i, j)
  {
    hide After, Allows, Inflow, Serve;
    var before, window := Serve(None, r, requests[..i]), requests[i..j];
    ServeHolds(None, r, requests[..i]);
    FirstIsWithinCapacity(before, r, window[0].cost, window[0].now);
    var next := After(before, r, window[0].cost, window[0].now);
    assert Follow(next, window[1..], clock[i..j]);
    GrantedIsWithinInflow(next, r, window[1..], clock[i..j]);
  }

  /** Nothing before reading i, a full bucket at i, and from then on all that has flowed in. */
  ghost function Drain(r: Rule, clock: seq<real>, i: nat): (requests: seq<Request>)
    ensures |requests| == |clock|
  {
    seq(|clock|, k requires 0 <= k < |clock| =>
      Request(if k < i then 0.0 else if k == i then r.capacity else StepInflow(r, clock[k - 1], clock[k]), clock[k]))
  }

  ghost predicate Drains(b: Bucket, r: Rule, requests: seq<Request>, clock: seq<real>) {
    Follow(b, requests, clock) && forall k :: 0 <= k < |requests| ==> requests[k].cost == StepInflow(r, clock[k], clock[k + 1])
  }

  lemma EmptyIsDrained(b: Bucket, r: Rule, now: real)
    requires ValidRule(r) && b.tokens == 0.0
    ensures var cost := StepInflow(r, b.updatedAt, now);
            Allows(Some(b), r, cost, now) && After(Some(b), r, cost, now) == Bucket(0.0, now)
  {
    hide Gain;
  }

  lemma {:induction false} DrainIsGranted(b: Bucket, r: Rule, requests: seq<Request>, clock: seq<real>)
    requires ValidRule(r) && b.tokens == 0.0 && Drains(b, r, requests, clock)
    ensures Granted(Some(b), r, requests) == Inflow(r, clock)
    decreases |requests|
  {
    hide After, Allows, StepInflow;
    if requests != [] {
      EmptyIsDrained(b, r, requests[0].now);
      assert requests[0].cost == StepInflow(r, clock[0], clock[1]);
      DrainIsGranted(Bucket(0.0, requests[0].now), r, requests[1..], clock[1..]);
    }
  }

  lemma InflowIsNotNegative(r: Rule, early: real, late: real)
    requires ValidRule(r)
    ensures StepInflow(r, early, late) >= 0.0
  {
    hide Gain;
    NoGainWithoutTime(r.rate);
    GainGrows(0.0, if late >= early then late - early else 0.0, r.rate);
  }

  lemma DrainIsMadeAt(r: Rule, clock: seq<real>, i: nat)
    requires ValidRule(r)
    ensures MadeAt(Drain(r, clock, i), clock)
  {
    hide StepInflow;
    forall k | 0 < k < |clock|
      ensures StepInflow(r, clock[k - 1], clock[k]) >= 0.0
    {
      InflowIsNotNegative(r, clock[k - 1], clock[k]);
    }
  }

  lemma DrainAt(r: Rule, clock: seq<real>, i: nat, k: nat)
    requires k < |clock|
    ensures var q := Drain(r, clock, i)[k];
            && q.now == clock[k]
            && q.cost == (if k < i then 0.0 else if k == i then r.capacity else StepInflow(r, clock[k - 1], clock[k]))
  {
  }

  lemma DrainWindow(r: Rule, clock: seq<real>, i: nat, j: nat)
    requires ValidRule(r) && i < j <= |clock|
    ensures var window := Drain(r, clock, i)[i..j];
            && window[0] == Request(r.capacity, clock[i])
            && Drains(Bucket(0.0, clock[i]), r, window[1..], clock[i..j])
  {
    hide StepInflow, Drain;
    var requests := Drain(r, clock, i);
    var rest, readings := requests[i..j][1..], clock[i..j];
    DrainAt(r, clock, i, i);
    forall k | 0 <= k < |rest|
      ensures rest[k].now == readings[k + 1] && rest[k].cost >= 0.0
      ensures rest[k].cost == StepInflow(r, readings[k], readings[k + 1])
    {
      assert rest[k] == requests[i + k + 1];
      assert readings[k] == clock[i + k] && readings[k + 1] == clock[i + k + 1];
      DrainAt(r, clock, i, i + k + 1);
      InflowIsNotNegative(r, readings[k], readings[k + 1]);
    }
    assert |readings| == |rest| + 1 && readings[0] == clock[i];
    assert Follow(Bucket(0.0, clock[i]), rest, readings);
  }

  lemma FullIsEmptied(b: Option<Bucket>, r: Rule, now: real)
    requires ValidRule(r) && IsFull(b, r)
    ensures Allows(b, r, r.capacity, now) && After(b, r, r.capacity, now) == Bucket(0.0, now)
  {
    hide Level;
    FullStaysFull(b, r, now);
  }

  lemma DrainReachesWorstCase(r: Rule, clock: seq<real>, i: nat, j: nat)
    requires ValidRule(r) && i < j <= |clock|
    ensures MadeAt(Drain(r, clock, i), clock) && WindowGrant(r, Drain(r, clock, i), i, j) == WorstCase(r, clock, i, j)
  {
    hide Inflow, Serve, Allows, After, Drain, Drains;
    DrainIsMadeAt(r, clock, i);
    var requests := Drain(r, clock, i);
    var before, window := Serve(None, r, requests[..i]), requests[i..j];
    forall k | 0 <= k < i
      ensures requests[..i][k].cost == 0.0
    {
      DrainAt(r, clock, i, k);
    }
    FreeRequestsLeaveFull(None, r, requests[..i]);
    FullIsEmptied(before, r, clock[i]);
    DrainWindow(r, clock, i, j);
    DrainIsGranted(Bucket(0.0, clock[i]), r, window[1..], clock[i..j]);
  }

  /**
   For any readings of the clock, forward or back, the most a window can be granted is a full
   bucket and the capped inflow between neighbouring readings: no requests get more, and some
   get just that.
   */
  lemma WorstCaseIsExact(r: Rule, clock: seq<real>, i: nat, j: nat)
    requires ValidRule(r) && i < j <= |clock|
    ensures forall requests: seq<Request> :: MadeAt(requests, clock) ==> WindowGrant(r, requests, i, j) <= WorstCase(r, clock, i, j)
    ensures exists requests: seq<Request> :: MadeAt(requests, clock) && WindowGrant(r, requests, i, j) == WorstCase(r, clock, i, j)
  {
    hide WindowGrant, WorstCase, MadeAt;
    forall requests: seq<Request> | MadeAt(requests, clock)
      ensures |requests| == |clock| && WindowGrant(r, requests, i, j) <= WorstCase(r, clock, i, j)
    {
      assert |requests| == |clock| by { MadeAtLength(requests, clock); }
      GrantIsWithinWorstCase(r, clock, requests, i, j);
    }
    DrainReachesWorstCase(r, clock, i, j);
  }

  lemma MadeAtLength(requests: seq<Request>, clock: seq<real>)
    requires MadeAt(requests, clock)
    ensures |requests| == |clock|
  {
  }

  /** A window that does not end before it began. */
  ghost predicate IsForward(clock: seq<real>, i: int, j: int) {
    0 <= i < j <= |clock| && clock[i] <= clock[j - 1]
  }

  ghost predicate ForwardWindowsFit(r: Rule, requests: seq<Request>, clock: seq<real>) {
    forall i, j :: IsForward(clock, i, j) ==> WindowFits(r, requests, i, j)
  }

  /** No detour between two readings lets more in than the direct way. */
  ghost predicate NoDetourPays(r: Rule, clock: seq<real>) {
    forall i, j :: IsForward(clock, i, j) ==> Inflow(r, clock[i..j]) <= Gain(clock[j - 1] - clock[i], r.rate)
  }

  /**
   The bound, on windows that do not end before they began, holds for all costs at given
   readings exactly when no detour of the clock lets in more than the direct way.
   */
  lemma ForwardWindowsFitExactlyIfNoDetourPays(r: Rule, clock: seq<real>)
    requires ValidRule(r)
    ensures (forall requests: seq<Request> :: MadeAt(requests, clock) ==> ForwardWindowsFit(r, requests, clock))
            <==> NoDetourPays(r, clock)
  {
    if NoDetourPays(r, clock) {
      forall requests: seq<Request> | MadeAt(requests, clock)
        ensures ForwardWindowsFit(r, requests, clock)
      {
        NoDetourFits(r, clock, requests);
      }
    } else {
      hide Gain, Inflow, WindowFits, MadeAt;
      var i, j :| IsForward(clock, i, j) && Inflow(r, clock[i..j]) > Gain(clock[j - 1] - clock[i], r.rate);
      DetourOverspends(r, clock, i, j);
      assert !ForwardWindowsFit(r, Drain(r, clock, i), clock);
    }
  }

  lemma NoDetourFits(r: Rule, clock: seq<real>, requests: seq<Request>)
    requires ValidRule(r) && NoDetourPays(r, clock) && MadeAt(requests, clock)
    ensures ForwardWindowsFit(r, requests, clock)
  {
    hide Gain, Serve, Granted, Inflow;
    forall i: int, j: int | IsForward(clock, i, j)
      ensures WindowFits(r, requests, i, j)
    {
      GrantIsWithinWorstCase(r, clock, requests, i, j);
    }
  }

  lemma DetourOverspends(r: Rule, clock: seq<real>, i: nat, j: nat)
    requires ValidRule(r) && IsForward(clock, i, j) && Inflow(r, clock[i..j]) > Gain(clock[j - 1] - clock[i], r.rate)
    ensures MadeAt(Drain(r, clock, i), clock) && !WindowFits(r, Drain(r, clock, i), i, j)
  {
    hide Gain, Serve, Granted, Inflow, Drain;
    DrainReachesWorstCase(r, clock, i, j);
  }

  /** Going back is not enough to overspend: a bucket of one token at a token a second forgives these readings. */
  lemma SomeDetoursDoNotPay()
    ensures NoDetourPays(Rule(1.0, 1.0), [0.0, 100.0, 99.0, 200.0])
  {
    var r, c := Rule(1.0, 1.0), [0.0, 100.0, 99.0, 200.0];
    forall i: int, j: int | IsForward(c, i, j)
      ensures Inflow(r, c[i..j]) <= Gain(c[j - 1] - c[i], r.rate)
    {
      var s := c[i..j];
      if |s| >= 2 {
        assert Inflow(r, s) == StepInflow(r, s[0], s[1]) + Inflow(r, s[1..]);
        if |s| >= 3 {
          assert Inflow(r, s[1..]) == StepInflow(r, s[1], s[2]) + Inflow(r, s[1..][1..]);
          if |s| >= 4 {
            assert Inflow(r, s[1..][1..]) == StepInflow(r, s[2], s[3]) + Inflow(r, s[1..][1..][1..]);
          }
        }
      }
    }
  }

  ghost predicate AllRefused(b: Option<Bucket>, r: Rule, requests: seq<Request>)
    decreases |requests|
  {
    requests != [] ==>
      && !Allows(b, r, requests[0].cost, requests[0].now)
      && AllRefused(Some(After(b, r, requests[0].cost, requests[0].now)), r, requests[1..])
  }

  /** Any number of refused attempts leaves every later level as if none had been made. */
  lemma {:induction false} RefusalsNeverDelay(b: Bucket, r: Rule, requests: seq<Request>, later: real)
    requires ValidRule(r) && Orderly(requests) && AllRefused(Some(b), r, requests)
    requires b.updatedAt <= later && forall i :: 0 <= i < |requests| ==> b.updatedAt <= requests[i].now <= later
    ensures Level(Serve(Some(b), r, requests), r, later) == Level(Some(b), r, later)
    decreases |requests|
  {
    hide Level;
    if requests != [] {
      var q := requests[0];
      RefusalCostsNothing(b, r, q.cost, q.now, later);
      RefusalsNeverDelay(After(Some(b), r, q.cost, q.now), r, requests[1..], later);
    }
  }

  // ---------------------------------------------------------------- when to come back

  lemma GainOfQuotient(need: real, rate: real)
    requires rate > 0.0
    ensures Gain(need / rate, rate) == need
  {
  }

  lemma GainReaches(seconds: real, need: real, rate: real)
    requires rate > 0.0
    ensures Gain(seconds, rate) >= need <==> seconds >= need / rate
  {
    hide Gain;
    var enough := need / rate;
    GainOfQuotient(need, rate);
    if seconds >= enough {
      GainGrows(enough, seconds, rate);
    } else {
      GainGrowsStrictly(seconds, enough, rate);
    }
  }

  /**
   After a refusal, with no request in between, the same request is allowed exactly from
   `retryAfter` seconds on; one that costs more than the capacity, or a bucket that never
   refills, is never allowed.
   */
  lemma RetryAfterIsExact(b: Option<Bucket>, r: Rule, cost: real, now: real, wait: real)
    requires ValidRule(r) && Plausible(b, r, now) && cost >= 0.0 && wait >= 0.0 && !Allows(b, r, cost, now)
    ensures var retry := RetryAfter(b, r, cost, now);
            Allows(Some(After(b, r, cost, now)), r, cost, now + wait)
            <==> cost <= r.capacity && retry.Some? && wait >= retry.value
  {
    hide Gain;
    var level := Level(b, r, now);
    if r.rate > 0.0 {
      GainReaches(wait, cost - level, r.rate);
    } else {
      NoGain(wait);
    }
    assert now + wait - now == wait;
  }

  lemma NoGain(seconds: real)
    ensures Gain(seconds, 0.0) == 0.0
  {
  }
}
