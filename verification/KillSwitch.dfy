/**
 The cached trigger-halt flag (src/app/services/kill_switch.py) and the command that flips
 it (src/app/commands/kill_switch.py).

 The class is the cache as one thread uses it. Below it, calls are cut into the steps other
 threads can come between: taking the lock, reading the clock, reading the database, storing
 and releasing; a toggle commits in one step and invalidates in another.
 */
module KillSwitch {
  import opened Outcomes

  /** A remembered answer and the instant it stops being used. */
  datatype Cache = Cache(value: Option<bool>, until: real)

  const EMPTY := Cache(None, 0.0)

  predicate IsHit(c: Cache, now: real) {
    c.value.Some? && now < c.until
  }

  function Answer(c: Cache, flag: bool, now: real): bool {
    if IsHit(c, now) then c.value.value else flag
  }

  function CacheAfter(c: Cache, flag: bool, now: real, ttl: real): Cache {
    if IsHit(c, now) then c else Cache(Some(flag), now + ttl)
  }

  class KillSwitchProvider {
    const ttl: real
    var cachedValue: Option<bool>
    var cachedUntil: real

    function Contents(): Cache
      reads this
    {
      Cache(cachedValue, cachedUntil)
    }

    constructor (ttl: real)
      ensures this.ttl == ttl && Contents() == EMPTY
    {
      this.ttl, cachedValue, cachedUntil := ttl, None, 0.0;
    }

    /** `flag` is what the database would answer, which is asked only on a miss. */
    method IsHalted(now: real, flag: bool) returns (halted: bool)
      modifies this
      ensures halted == old(Answer(Contents(), flag, now))
      ensures Contents() == old(CacheAfter(Contents(), flag, now, ttl))
    {
      if cachedValue.Some? && now < cachedUntil {
        return cachedValue.value;
      }
      cachedValue := Some(flag);
      cachedUntil := now + ttl;
      halted := flag;
    }

    method Invalidate()
      modifies this
      ensures Contents() == EMPTY
    {
      cachedValue, cachedUntil := None, 0.0;
    }
  }

  /** The stored flag and the cache in front of it. */
  class Switch {
    var flag: bool
    const provider: KillSwitchProvider

    constructor (flag: bool, provider: KillSwitchProvider)
      ensures this.flag == flag && this.provider == provider
    {
      this.flag, this.provider := flag, provider;
    }

    /** A refused commit leaves flag and cache alone; otherwise the next call sees the new flag. */
    method Set(enabled: bool, commits: bool) returns (ok: bool)
      modifies this, provider
      ensures ok == commits
      ensures if ok then flag == enabled && provider.Contents() == EMPTY
              else flag == old(flag) && provider.Contents() == old(provider.Contents())
      ensures ok ==> forall now :: Answer(provider.Contents(), flag, now) == enabled
    {
      ok := commits;
      if commits {
        flag := enabled;
        provider.Invalidate();
      }
    }
  }

  // ---------------------------------------------------------------- steps of many threads

  /** The flag as it stood after some step. */
  datatype Moment = Moment(at: real, flag: bool)

  /** Who holds the lock, and how far it has come. */
  datatype Lock =
    | Free
    | Held
    | Missed(now: real)
    | Loaded(now: real, value: bool, seen: nat)

  /**
   `history` records the flag after every step; `seen` points into it at the moment a value
   was read. `toggles` counts commands that have committed and not yet invalidated, and
   `cleared` is the moment of the last invalidation or restart.
   */
  datatype World = World(
    flag: bool,
    clock: real,
    cache: Cache,
    seen: nat,
    lock: Lock,
    toggles: nat,
    history: seq<Moment>,
    cleared: nat)

  datatype Step =
    | Tick(seconds: real)
    | Acquire
    | Look
    | Load
    | Store
    | Commit(enabled: bool)
    | Invalidate
    | ChangeDirectly(enabled: bool)
    | Restart

  ghost predicate Enabled(w: World, s: Step) {
    match s
    case Tick(seconds) => seconds >= 0.0
    case Acquire => w.lock.Free?
    case Look => w.lock.Held?
    case Load => w.lock.Missed?
    case Store => w.lock.Loaded?
    case Invalidate => w.lock.Free? && w.toggles > 0
    case _ => true
  }

  function Recorded(w: World): World {
    w.(history := w.history + [Moment(w.clock, w.flag)])
  }

  ghost function Effect(w: World, s: Step, ttl: real): World
    requires Enabled(w, s)
  {
    match s
    case Tick(seconds) => w.(clock := w.clock + seconds)
    case Acquire => w.(lock := Held)
    case Look => if IsHit(w.cache, w.clock) then w.(lock := Free) else w.(lock := Missed(w.clock))
    case Load => w.(lock := Loaded(w.lock.now, w.flag, |w.history|))
    case Store => w.(cache := Cache(Some(w.lock.value), w.lock.now + ttl), seen := w.lock.seen, lock := Free)
    case Commit(enabled) => w.(flag := enabled, toggles := w.toggles + 1)
    case Invalidate => w.(cache := EMPTY, toggles := w.toggles - 1, cleared := |w.history|)
    case ChangeDirectly(enabled) => w.(flag := enabled)
    case Restart => w.(cache := EMPTY, lock := Free, toggles := 0, cleared := |w.history|)
  }

  ghost function Next(w: World, s: Step, ttl: real): World
    requires Enabled(w, s)
  {
    Recorded(Effect(w, s, ttl))
  }

  /** The value a call returns in this step, if one returns, with the clock it read. */
  ghost function Returned(w: World, s: Step): Option<(bool, real)> {
    if s.Look? && IsHit(w.cache, w.clock) then Some((w.cache.value.value, w.clock))
    else if s.Store? && w.lock.Loaded? then Some((w.lock.value, w.lock.now))
    else None
  }

  ghost predicate Runs(w: World, steps: seq<Step>, ttl: real, end: World)
    decreases |steps|
  {
    if steps == [] then w == end
    else Enabled(w, steps[0]) && Runs(Next(w, steps[0], ttl), steps[1..], ttl, end)
  }

  function Start(flag: bool, clock: real): World {
    World(flag, clock, EMPTY, 0, Free, 0, [Moment(clock, flag)], 0)
  }

  // ---------------------------------------------------------------- every answer was true recently

  /** The value was the flag at that moment, after the last invalidation, and no earlier than `from`. */
  ghost predicate WasTrue(w: World, value: bool, seen: nat, from: real) {
    w.cleared <= seen < |w.history| && w.history[seen].flag == value && w.history[seen].at >= from
  }

  ghost predicate Traced(w: World, ttl: real) {
    && w.history != [] && w.history[|w.history| - 1] == Moment(w.clock, w.flag)
    && w.cleared < |w.history|
    && (w.cache.value.Some? ==> WasTrue(w, w.cache.value.value, w.seen, w.cache.until - ttl))
    && (w.lock.Missed? ==> w.lock.now <= w.clock)
    && (w.lock.Loaded? ==> WasTrue(w, w.lock.value, w.lock.seen, w.lock.now))
  }

  lemma StepKeepsTraced(w: World, s: Step, ttl: real)
    requires Traced(w, ttl) && Enabled(w, s)
    ensures Traced(Next(w, s, ttl), ttl)
    ensures |Next(w, s, ttl).history| == |w.history| + 1 && Next(w, s, ttl).history[..|w.history|] == w.history
  {
  }

  lemma {:induction false} RunKeepsTraced(w: World, steps: seq<Step>, ttl: real, end: World)
    requires Traced(w, ttl) && Runs(w, steps, ttl, end)
    ensures Traced(end, ttl)
    decreases |steps|
  {
    hide Traced, Next, Enabled;
    if steps != [] {
      StepKeepsTraced(w, steps[0], ttl);
      RunKeepsTraced(Next(w, steps[0], ttl), steps[1..], ttl, end);
    }
  }

  /**
   Whatever the threads did and however the flag was changed: a value returned was the flag
   at some moment less than the lifetime of the cache before the call's clock reading, and
   never before the last invalidation. So once a toggle has returned, no call answers from
   before it.
   */
  lemma AnswersAreRecent(flag: bool, clock: real, steps: seq<Step>, ttl: real, w: World, s: Step)
    requires ttl > 0.0 && Runs(Start(flag, clock), steps, ttl, w) && Enabled(w, s) && Returned(w, s).Some?
    ensures var (value, now) := Returned(w, s).value;
            exists m :: w.cleared <= m < |w.history| && w.history[m].flag == value && w.history[m].at > now - ttl
  {
    RunKeepsTraced(Start(flag, clock), steps, ttl, w);
    var m := if s.Look? then w.seen else w.lock.seen;
    assert w.cleared <= m < |w.history|;
  }

  // ---------------------------------------------------------------- staleness needs a toggle under way

  ghost predicate Settled(w: World) {
    w.toggles == 0 ==>
      && (w.cache.value.Some? ==> w.cache.value.value == w.flag)
      && (w.lock.Loaded? ==> w.lock.value == w.flag)
  }

  predicate ThroughCommands(steps: seq<Step>) {
    forall i :: 0 <= i < |steps| ==> !steps[i].ChangeDirectly?
  }

  lemma StepKeepsSettled(w: World, s: Step, ttl: real)
    requires Settled(w) && Enabled(w, s) && (s.ChangeDirectly? ==> s.enabled == w.flag)
    ensures Settled(Next(w, s, ttl))
  {
  }

  lemma {:induction false} RunKeepsSettled(w: World, steps: seq<Step>, ttl: real, end: World)
    requires Settled(w) && ThroughCommands(steps) && Runs(w, steps, ttl, end)
    ensures Settled(end)
    decreases |steps|
  {
    hide Settled, Next, Enabled;
    if steps != [] {
      StepKeepsSettled(w, steps[0], ttl);
      RunKeepsSettled(Next(w, steps[0], ttl), steps[1..], ttl, end);
    }
  }

  /**
   When the flag changes only through the command: the remembered value, and every value
   returned, is the stored flag unless some toggle has committed and not yet invalidated.
   */
  lemma StaleOnlyDuringToggle(flag: bool, clock: real, steps: seq<Step>, ttl: real, w: World, s: Step)
    requires ThroughCommands(steps) && Runs(Start(flag, clock), steps, ttl, w) && Enabled(w, s)
    ensures w.cache.value.Some? && w.cache.value.value != w.flag ==> w.toggles > 0
    ensures Returned(w, s).Some? && Returned(w, s).value.0 != w.flag ==> w.toggles > 0
  {
    RunKeepsSettled(Start(flag, clock), steps, ttl, w);
  }

  // ---------------------------------------------------------------- exactly when a stale answer may come

  /** The old value is in the cache and not timed out, or in the hands of the call that holds the lock. */
  ghost predicate HoldsStale(w: World) {
    || (IsHit(w.cache, w.clock) && w.cache.value.value != w.flag)
    || (w.lock.Loaded? && w.lock.value != w.flag)
  }

  /** Whoever has missed still would: the cache changes only under the lock, and time does not go back. */
  ghost predicate MissStands(w: World) {
    w.lock.Missed? || w.lock.Loaded? ==> !IsHit(w.cache, w.clock)
  }

  predicate FlagRests(steps: seq<Step>) {
    forall i :: 0 <= i < |steps| ==> !steps[i].Commit? && !steps[i].ChangeDirectly?
  }

  lemma StepKeepsMissStanding(w: World, s: Step, ttl: real)
    requires MissStands(w) && Enabled(w, s)
    ensures MissStands(Next(w, s, ttl))
    ensures !s.Commit? && !s.ChangeDirectly? && !HoldsStale(w) ==> !HoldsStale(Next(w, s, ttl))
  {
  }

  lemma {:induction false} RunKeepsMissStanding(w: World, steps: seq<Step>, ttl: real, end: World)
    requires MissStands(w) && Runs(w, steps, ttl, end)
    ensures MissStands(end)
    ensures FlagRests(steps) && !HoldsStale(w) ==> !HoldsStale(end)
    decreases |steps|
  {
    hide MissStands, HoldsStale, Next, Enabled;
    if steps != [] {
      StepKeepsMissStanding(w, steps[0], ttl);
      RunKeepsMissStanding(Next(w, steps[0], ttl), steps[1..], ttl, end);
    }
  }

  /** Without the flag changing again, the run comes to a call that returns something else than the flag. */
  ghost predicate AnswersStale(w: World, steps: seq<Step>, ttl: real, v: World, s: Step) {
    && FlagRests(steps) && Runs(w, steps, ttl, v) && Enabled(v, s)
    && Returned(v, s).Some? && Returned(v, s).value.0 != v.flag
  }

  lemma StaleValueIsReturned(w: World, ttl: real)
    requires MissStands(w) && HoldsStale(w)
    ensures exists steps, v, s :: AnswersStale(w, steps, ttl, v, s)
  {
    if w.lock.Free? {
      var v := Next(w, Acquire, ttl);
      OneStepRuns(w, Acquire, ttl);
      assert AnswersStale(w, [Acquire], ttl, v, Look);
    } else {
      assert Runs(w, [], ttl, w);
      assert AnswersStale(w, [], ttl, w, if w.lock.Loaded? then Store else Look);
    }
  }

  /**
   From any world reached by whatever steps, and with the flag left alone from then on, a
   call can still answer wrongly exactly when the cache or the call under way holds the other
   value. When the flag changes only through the command, a toggle is then under way.
   */
  lemma StaleAnswerExactlyIfHeld(flag: bool, clock: real, past: seq<Step>, ttl: real, w: World)
    requires Runs(Start(flag, clock), past, ttl, w)
    ensures (exists steps, v, s :: AnswersStale(w, steps, ttl, v, s)) <==> HoldsStale(w)
    ensures ThroughCommands(past) && HoldsStale(w) ==> w.toggles > 0
  {
    RunKeepsMissStanding(Start(flag, clock), past, ttl, w);
    if HoldsStale(w) {
      StaleValueIsReturned(w, ttl);
      if ThroughCommands(past) {
        RunKeepsSettled(Start(flag, clock), past, ttl, w);
      }
    }
    forall steps, v, s | AnswersStale(w, steps, ttl, v, s)
      ensures HoldsStale(w)
    {
      RunKeepsMissStanding(w, steps, ttl, v);
    }
  }

  /** A world in which a call has filled the cache and a toggle has committed since. */
  function Overtaken(): World {
    var m := Moment(0.0, false);
    World(true, 0.0, Cache(Some(false), 30.0), 3, Held, 1, [m, m, m, m, m, Moment(0.0, true), Moment(0.0, true)], 0)
  }

  lemma {:induction false} RunsAppend(w: World, steps: seq<Step>, more: seq<Step>, ttl: real, mid: World, end: World)
    requires Runs(w, steps, ttl, mid) && Runs(mid, more, ttl, end)
    ensures Runs(w, steps + more, ttl, end)
    decreases |steps|
  {
    hide Next, Enabled;
    if steps == [] {
      assert steps + more == more;
    } else {
      assert (steps + more)[1..] == steps[1..] + more;
      RunsAppend(Next(w, steps[0], ttl), steps[1..], more, ttl, mid, end);
    }
  }

  lemma OneStepRuns(w: World, s: Step, ttl: real)
    requires Enabled(w, s)
    ensures Runs(w, [s], ttl, Next(w, s, ttl))
  {
    hide Next, Enabled;
    assert [s][1..] == [];
    assert Runs(Next(w, s, ttl), [], ttl, Next(w, s, ttl));
  }

  lemma TwoStepsRun(w: World, s: Step, t: Step, ttl: real)
    requires Enabled(w, s) && Enabled(Next(w, s, ttl), t)
    ensures Runs(w, [s, t], ttl, Next(Next(w, s, ttl), t, ttl))
  {
    hide Next, Enabled, Runs;
    OneStepRuns(w, s, ttl);
    OneStepRuns(Next(w, s, ttl), t, ttl);
    RunsAppend(w, [s], [t], ttl, Next(w, s, ttl), Next(Next(w, s, ttl), t, ttl));
    assert [s] + [t] == [s, t];
  }

  /** How a call that finds the cache empty goes: it misses, then reads and stores. */
  lemma CallMisses()
    ensures var m := Moment(0.0, false);
            Runs(Start(false, 0.0), [Acquire, Look], 30.0, World(false, 0.0, EMPTY, 0, Missed(0.0), 0, [m, m, m], 0))
  {
    hide Runs;
    var m := Moment(0.0, false);
    assert Next(Start(false, 0.0), Acquire, 30.0) == World(false, 0.0, EMPTY, 0, Held, 0, [m, m], 0);
    assert Next(World(false, 0.0, EMPTY, 0, Held, 0, [m, m], 0), Look, 30.0)
           == World(false, 0.0, EMPTY, 0, Missed(0.0), 0, [m, m, m], 0);
    TwoStepsRun(Start(false, 0.0), Acquire, Look, 30.0);
  }

  lemma CallStores()
    ensures var m := Moment(0.0, false);
            Runs(World(false, 0.0, EMPTY, 0, Missed(0.0), 0, [m, m, m], 0), [Load, Store], 30.0,
                 World(false, 0.0, Cache(Some(false), 30.0), 3, Free, 0, [m, m, m, m, m], 0))
  {
    hide Runs;
    var m := Moment(0.0, false);
    var missed := World(false, 0.0, EMPTY, 0, Missed(0.0), 0, [m, m, m], 0);
    var loaded := World(false, 0.0, EMPTY, 0, Loaded(0.0, false, 3), 0, [m, m, m, m], 0);
    assert Next(missed, Load, 30.0) == loaded;
    assert Next(loaded, Store, 30.0) == World(false, 0.0, Cache(Some(false), 30.0), 3, Free, 0, [m, m, m, m, m], 0);
    TwoStepsRun(missed, Load, Store, 30.0);
  }

  lemma ToggleOvertakes()
    ensures var m := Moment(0.0, false);
            Runs(World(false, 0.0, Cache(Some(false), 30.0), 3, Free, 0, [m, m, m, m, m], 0), [Commit(true), Acquire], 30.0,
                 Overtaken())
  {
    hide Runs;
    var m := Moment(0.0, false);
    var filled := World(false, 0.0, Cache(Some(false), 30.0), 3, Free, 0, [m, m, m, m, m], 0);
    var toggled := World(true, 0.0, Cache(Some(false), 30.0), 3, Free, 1, [m, m, m, m, m, Moment(0.0, true)], 0);
    assert Next(filled, Commit(true), 30.0) == toggled;
    assert Next(toggled, Acquire, 30.0) == Overtaken();
    TwoStepsRun(filled, Commit(true), Acquire, 30.0);
  }

  /** The exception is real: between its commit and its invalidation a toggle is answered with the old flag. */
  lemma ToggleUnderWayIsNotSeen()
    ensures exists steps :: Runs(Start(false, 0.0), steps, 30.0, Overtaken())
    ensures Returned(Overtaken(), Look) == Some((false, 0.0)) && Overtaken().flag && Overtaken().toggles == 1
  {
    hide Runs;
    var m := Moment(0.0, false);
    var missed := World(false, 0.0, EMPTY, 0, Missed(0.0), 0, [m, m, m], 0);
    var filled := World(false, 0.0, Cache(Some(false), 30.0), 3, Free, 0, [m, m, m, m, m], 0);
    CallMisses();
    CallStores();
    ToggleOvertakes();
    RunsAppend(missed, [Load, Store], [Commit(true), Acquire], 30.0, filled, Overtaken());
    RunsAppend(Start(false, 0.0), [Acquire, Look], [Load, Store] + [Commit(true), Acquire], 30.0, missed, Overtaken());
  }

  // ---------------------------------------------------------------- a call left alone is the method

  /** Run without interruption, the steps of a call return and leave what the method does. */
  lemma UninterruptedCallIsAtomic(w: World, ttl: real)
    requires w.lock.Free?
    ensures var looked := Next(w, Acquire, ttl);
            var after := Next(looked, Look, ttl);
            if IsHit(w.cache, w.clock) then
              && Returned(looked, Look) == Some((Answer(w.cache, w.flag, w.clock), w.clock))
              && after.lock.Free? && after.cache == CacheAfter(w.cache, w.flag, w.clock, ttl)
            else
              var loaded := Next(after, Load, ttl);
              var done := Next(loaded, Store, ttl);
              && Returned(loaded, Store) == Some((Answer(w.cache, w.flag, w.clock), w.clock))
              && done.lock.Free? && done.cache == CacheAfter(w.cache, w.flag, w.clock, ttl)
  {
  }
}
