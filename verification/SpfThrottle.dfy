/** The SPF throttle of src/instance.rs: exponential hold-down between SPF runs. */
module SpfThrottle {
  import opened Numbers

  const NANOS_PER_MILLI := 1_000_000
  const U32_LIMIT := 0x1_0000_0000
  const U64_LIMIT := 0x1_0000_0000_0000_0000

  /** Configured times, in milliseconds. */
  datatype Config = Config(delay: nat, holdtime: nat, maxHoldtime: nat) {
    /** The hold time can be shifted left by 10 bits in a u64. */
    predicate Valid() {
      holdtime * 1024 < U64_LIMIT
    }

    function Floor(): nat {
      if holdtime < maxHoldtime then holdtime else maxHoldtime
    }

    function Ceiling(): nat {
      if delay < maxHoldtime then maxHoldtime else delay
    }
  }

  /** Instants are in nanoseconds. */
  datatype Throttle = Throttle(lastRun: Option<nat>, scheduled: Option<nat>, multiplier: u32)

  /** The hold time in force after `multiplier` requests that came too soon. */
  function Hold(cfg: Config, multiplier: u32): (h: nat)
    ensures cfg.Floor() <= h <= cfg.maxHoldtime
  {
    var shift := if multiplier < 10 then multiplier else 10;
    var hold := cfg.holdtime * Pow2(shift);
    assert cfg.holdtime * Pow2(shift) >= cfg.holdtime by {
      MulPositive(cfg.holdtime, Pow2(shift));
    }
    if hold < cfg.maxHoldtime then hold else cfg.maxHoldtime
  }

  function SinceMillis(now: nat, last: nat): nat {
    if now < last then 0 else (now - last) / NANOS_PER_MILLI
  }

  /** The delay, in milliseconds, a request at `now` asks for. */
  function Delay(cfg: Config, t: Throttle, now: nat): nat {
    if t.lastRun.None? then cfg.delay
    else
      var since := SinceMillis(now, t.lastRun.value);
      var hold := Hold(cfg, t.multiplier);
      if since >= hold then cfg.delay else hold - since
  }

  function NextMultiplier(cfg: Config, t: Throttle, now: nat): u32 {
    if t.lastRun.None? then t.multiplier
    else if SinceMillis(now, t.lastRun.value) >= Hold(cfg, t.multiplier) then 0
    else if t.multiplier + 1 < U32_LIMIT then t.multiplier + 1
    else t.multiplier
  }

  function Scheduled(cfg: Config, t: Throttle, now: nat): Throttle {
    var at := now + Delay(cfg, t, now) * NANOS_PER_MILLI;
    Throttle(t.lastRun, if t.scheduled.Some? && t.scheduled.value <= at then t.scheduled else Some(at),
             NextMultiplier(cfg, t, now))
  }

  function Ran(t: Throttle, now: nat): Throttle {
    Throttle(Some(now), None, t.multiplier)
  }

  class SpfScheduler {
    const cfg: Config
    var lastRun: Option<nat>
    var scheduled: Option<nat>
    var multiplier: u32

    constructor (cfg: Config)
      ensures this.cfg == cfg && State() == Throttle(None, None, 0)
    {
      this.cfg := cfg;
      lastRun, scheduled, multiplier := None, None, 0;
    }

    ghost function State(): Throttle
      reads this
    {
      Throttle(lastRun, scheduled, multiplier)
    }

    /** `schedule_spf`. */
    method ScheduleSpf(now: nat)
      requires cfg.Valid()
      modifies this
      ensures State() == Scheduled(cfg, old(State()), now)
    {
      var delay;
      if lastRun.Some? {
        var since := SinceMillis(now, lastRun.value);
        var hold := cfg.holdtime * Pow2(if multiplier < 10 then multiplier else 10);
        hold := if hold < cfg.maxHoldtime then hold else cfg.maxHoldtime;
        if since >= hold {
          multiplier := 0;
          delay := cfg.delay;
        } else {
          multiplier := if multiplier + 1 < U32_LIMIT then multiplier + 1 else multiplier;
          delay := hold - since;
        }
      } else {
        delay := cfg.delay;
      }
      var at := now + delay * NANOS_PER_MILLI;
      if !(scheduled.Some? && scheduled.value <= at) {
        scheduled := Some(at);
      }
    }

    /** The timing part of `run_spf`. */
    method RunSpf(now: nat)
      modifies this
      ensures State() == Ran(old(State()), now)
      ensures lastRun == Some(now) && scheduled == None && multiplier == old(multiplier)
    {
      scheduled := None;
      lastRun := Some(now);
    }
  }

  // ---------------------------------------------------------------- any interleaving

  datatype Event = Request(at: nat) | Run(at: nat)

  function After(cfg: Config, t: Throttle, ev: Event): Throttle {
    match ev
    case Request(now) => Scheduled(cfg, t, now)
    case Run(now) => Ran(t, now)
  }

  function StateAfter(cfg: Config, events: seq<Event>): Throttle {
    if events == [] then Throttle(None, None, 0)
    else After(cfg, StateAfter(cfg, events[..|events| - 1]), events[|events| - 1])
  }

  /** Time does not go back, and SPF runs only when it is due. */
  ghost predicate IsTrace(cfg: Config, events: seq<Event>) {
    && (forall i, j :: 0 <= i < j < |events| ==> events[i].at <= events[j].at)
    && (forall i :: 0 <= i < |events| && events[i].Run? ==> Due(StateAfter(cfg, events[..i]), events[i].at))
  }

  predicate Due(t: Throttle, now: nat) {
    t.scheduled.Some? && t.scheduled.value <= now
  }

  /** A pending run never comes sooner than the hold-down floor after the last one. */
  ghost predicate Spaced(cfg: Config, t: Throttle, now: nat) {
    && (t.lastRun.Some? ==> t.lastRun.value <= now)
    && (t.lastRun.Some? && t.scheduled.Some? ==>
          t.scheduled.value >= t.lastRun.value + cfg.Floor() * NANOS_PER_MILLI)
  }

  lemma RequestKeepsSpaced(cfg: Config, t: Throttle, before: nat, now: nat)
    requires Spaced(cfg, t, before) && before <= now
    ensures Spaced(cfg, Scheduled(cfg, t, now), now)
  {
    hide Hold;
    if t.lastRun.Some? {
      var last := t.lastRun.value;
      var since := SinceMillis(now, last);
      assert last + since * NANOS_PER_MILLI <= now;
    }
  }

  lemma {:induction false} TraceSpaced(cfg: Config, events: seq<Event>)
    requires IsTrace(cfg, events)
    ensures Spaced(cfg, StateAfter(cfg, events), if events == [] then 0 else events[|events| - 1].at)
  {
    if events != [] {
      var n := |events| - 1;
      assert forall i :: 0 <= i < n ==> events[..n][..i] == events[..i];
      TraceSpaced(cfg, events[..n]);
      var before := if n == 0 then 0 else events[n - 1].at;
      if events[n].Request? {
        RequestKeepsSpaced(cfg, StateAfter(cfg, events[..n]), before, events[n].at);
      }
    }
  }

  /** Rate limit: in every trace two SPF runs are at least min(holdtime, max holdtime) apart. */
  lemma RunsAreSpaced(cfg: Config, events: seq<Event>, i: nat, j: nat)
    requires IsTrace(cfg, events) && i < j < |events| && events[i].Run? && events[j].Run?
    ensures events[j].at >= events[i].at + cfg.Floor() * NANOS_PER_MILLI
  {
    assert forall k, m :: 0 <= k <= m <= |events| ==> events[..m][..k] == events[..k];
    TraceSpaced(cfg, events[..j]);
    LastRunKnown(cfg, events[..j], i);
  }

  lemma {:induction false} LastRunKnown(cfg: Config, events: seq<Event>, i: nat)
    requires IsTrace(cfg, events) && i < |events| && events[i].Run?
    ensures var t := StateAfter(cfg, events); t.lastRun.Some? && t.lastRun.value >= events[i].at
  {
    var n := |events| - 1;
    if i < n && events[n].Request? {
      assert forall k :: 0 <= k < n ==> events[..n][..k] == events[..k];
      LastRunKnown(cfg, events[..n], i);
    }
  }

  lemma Pow2Step(k: nat)
    ensures Pow2(k + 1) == 2 * Pow2(k)
  {
  }

  /** Back-off: a request that comes too soon doubles the hold time in force, up to 2^10 times the
      configured one and never above the maximum; one that comes late enough resets it. */
  lemma BackOff(cfg: Config, t: Throttle, now: nat)
    requires t.lastRun.Some? && t.multiplier < 10
    ensures var held, next := Hold(cfg, t.multiplier), Hold(cfg, Scheduled(cfg, t, now).multiplier);
            if SinceMillis(now, t.lastRun.value) >= held then next == cfg.Floor()
            else next == if 2 * held < cfg.maxHoldtime then 2 * held else cfg.maxHoldtime
  {
    var m: nat := t.multiplier;
    Pow2Step(m);
    assert cfg.holdtime * Pow2(m + 1) == 2 * (cfg.holdtime * Pow2(m));
    assert Pow2(0) == 1 && cfg.holdtime * Pow2(0) == cfg.holdtime;
  }

  /** The configured hold time doubled `m` times, ten at most, up to the maximum. */
  ghost predicate IsHold(cfg: Config, m: nat, hold: nat) {
    if m == 0 then hold == (if cfg.holdtime < cfg.maxHoldtime then cfg.holdtime else cfg.maxHoldtime)
    else if m > 10 then IsHold(cfg, 10, hold)
    else exists half: nat :: IsHold(cfg, m - 1, half) && hold == (if 2 * half < cfg.maxHoldtime then 2 * half else cfg.maxHoldtime)
  }

  lemma {:induction false} HoldDoubles(cfg: Config, m: nat)
    requires m < U32_LIMIT
    ensures IsHold(cfg, m, Hold(cfg, m))
    decreases if m > 10 then 11 else m
  {
    hide Hold;
    if m == 0 {
      HoldAtStart(cfg);
    } else if m > 10 {
      HoldAtMost(cfg, m);
      HoldDoubles(cfg, 10);
    } else {
      HoldDoubles(cfg, m - 1);
      HoldStep(cfg, m);
    }
  }

  lemma HoldAtStart(cfg: Config)
    ensures Hold(cfg, 0) == if cfg.holdtime < cfg.maxHoldtime then cfg.holdtime else cfg.maxHoldtime
  {
    assert cfg.holdtime * Pow2(0) == cfg.holdtime;
  }

  lemma HoldAtMost(cfg: Config, m: u32)
    requires m > 10
    ensures Hold(cfg, m) == Hold(cfg, 10)
  {
  }

  lemma HoldStep(cfg: Config, m: nat)
    requires 0 < m <= 10
    ensures var half := Hold(cfg, m - 1);
            Hold(cfg, m) == if 2 * half < cfg.maxHoldtime then 2 * half else cfg.maxHoldtime
  {
    Pow2Step(m - 1);
    assert cfg.holdtime * Pow2(m) == 2 * (cfg.holdtime * Pow2(m - 1));
    hide Pow2;
  }

  /**
   When a request at `now` asks for SPF. Without a last run, or once the hold time in force has passed since, after the
   configured delay, and the back-off starts over; otherwise at the end of the hold time after the last run, rounded up to
   the next millisecond from `now`, and the hold time grows. A sooner run that is already pending stays.
   */
  lemma ScheduledAt(cfg: Config, t: Throttle, now: nat) returns (hold: nat, at: nat)
    requires t.lastRun.Some? ==> t.lastRun.value <= now
    ensures IsHold(cfg, t.multiplier, hold)
    ensures t.lastRun.None? || now - t.lastRun.value >= hold * 1_000_000 ==> at == now + cfg.delay * 1_000_000
    ensures t.lastRun.Some? && now - t.lastRun.value < hold * 1_000_000 ==>
              t.lastRun.value + hold * 1_000_000 <= at < t.lastRun.value + (hold + 1) * 1_000_000
    ensures var t' := Scheduled(cfg, t, now);
            && t'.lastRun == t.lastRun
            && t'.scheduled == Some(if t.scheduled.Some? && t.scheduled.value <= at then t.scheduled.value else at)
            && t'.multiplier == (if t.lastRun.None? then t.multiplier
                                 else if now - t.lastRun.value >= hold * 1_000_000 then 0
                                 else if t.multiplier < 0xFFFF_FFFF then t.multiplier + 1 else t.multiplier)
  {
    hold := Hold(cfg, t.multiplier);
    HoldDoubles(cfg, t.multiplier);
    hide Hold, IsHold;
    at := now + Delay(cfg, t, now) * NANOS_PER_MILLI;
    if t.lastRun.Some? {
      var elapsed := now - t.lastRun.value;
      var since := elapsed / NANOS_PER_MILLI;
      assert since * NANOS_PER_MILLI <= elapsed < (since + 1) * NANOS_PER_MILLI;
    }
  }

  /** Responsiveness: a request at time t leaves a run due by t + max(delay, max holdtime), and later
      requests do not push it back. */
  lemma {:induction false} RequestIsServed(cfg: Config, events: seq<Event>, i: nat)
    requires i < |events| && events[i].Request?
    requires forall j :: i < j < |events| ==> events[j].Request?
    ensures var t := StateAfter(cfg, events);
            t.scheduled.Some? && t.scheduled.value <= events[i].at + cfg.Ceiling() * NANOS_PER_MILLI
  {
    hide Hold;
    var n := |events| - 1;
    if i < n {
      RequestIsServed(cfg, events[..n], i);
    }
  }
}
