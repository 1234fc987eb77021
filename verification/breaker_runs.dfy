/** The breaker over whole runs: agreement with the reference model of
    tests/gates.rs, counter bounds, trip spacing and the closing rule. */
module BreakerRuns {
  import opened Prelude
  import opened Breaker

  /** `Idle` is anything that does not concern the breaker. */
  datatype Event = Success(now: u64) | Failure(now: u64) | Poll(now: u64) | Idle(now: u64)

  function Apply(c: Circuit, e: Event): Circuit {
    match e
    case Success(now) => c.Succeeded(now)
    case Failure(now) => c.Failed(now)
    case Poll(now) => c.Polled(now)
    case Idle(_) => c
  }

  /** The breaker after the first `k` events. */
  function After(c: Circuit, es: seq<Event>, k: nat): Circuit
    requires k <= |es|
  {
    if k == 0 then c else Apply(After(c, es, k - 1), es[k - 1])
  }

  /** Time never goes back, and nothing happens before `start`. */
  ghost predicate Timely(start: u64, es: seq<Event>) {
    && (forall i :: 0 <= i < |es| ==> start <= es[i].now)
    && (forall i, j :: 0 <= i < j < |es| ==> es[i].now <= es[j].now)
  }

  // ---- the reference model -----------------------------------------------

  datatype Ref = RefClosed(failures: nat) | RefOpen(since: u64) | RefHalf(successes: nat)

  function RefPoll(cfg: BreakerConfig, r: Ref, now: u64): Ref {
    match r
    case RefOpen(since) => if SatSub(now, since) >= cfg.cooldownMs then RefHalf(0) else r
    case _ => r
  }

  function RefApply(cfg: BreakerConfig, r: Ref, e: Event): Ref {
    var p := RefPoll(cfg, r, e.now);
    match (e, p)
    case (Idle(_), _) => r
    case (Poll(_), _) => p
    case (_, RefOpen(_)) => p
    case (Success(_), RefClosed(_)) => RefClosed(0)
    case (Success(_), RefHalf(s)) => if s + 1 >= cfg.successThreshold then RefClosed(0) else RefHalf(s + 1)
    case (Failure(now), RefClosed(f)) => if f + 1 >= cfg.failureThreshold then RefOpen(now) else RefClosed(f + 1)
    case (Failure(now), RefHalf(_)) => RefOpen(now)
  }

  function RefAfter(cfg: BreakerConfig, es: seq<Event>, k: nat): Ref
    requires k <= |es|
  {
    if k == 0 then RefClosed(0) else RefApply(cfg, RefAfter(cfg, es, k - 1), es[k - 1])
  }

  function RefCallable(cfg: BreakerConfig, r: Ref, now: u64): bool {
    !RefPoll(cfg, r, now).RefOpen?
  }

  /** What the reference model remembers of a breaker. */
  function Remembered(c: Circuit): Ref {
    match c.state
    case Closed => RefClosed(c.consecutiveFailures)
    case Open => RefOpen(c.openedAt)
    case HalfOpen => RefHalf(c.consecutiveSuccesses)
  }

  /** On every event sequence, every configuration and at every prefix the
      breaker and the reference model agree on state and running count, on what
      a poll at any time shows, and on callability with or without that poll. */
  lemma {:induction false} SimulatesReference(cfg: BreakerConfig, es: seq<Event>, k: nat, now: u64)
    requires k <= |es|
    ensures var c, r := After(NewCircuit(cfg), es, k), RefAfter(cfg, es, k);
            && c.cfg == cfg
            && Remembered(c) == r
            && Remembered(c.Polled(now)) == RefPoll(cfg, r, now)
            && c.IsCallable(now) == RefCallable(cfg, r, now)
            && c.Polled(now).IsCallable(now) == RefCallable(cfg, r, now)
  {
    hide Apply, RefApply, Remembered;
    if k > 0 {
      SimulatesReference(cfg, es, k - 1, now);
      SimulatesEvent(After(NewCircuit(cfg), es, k - 1), es[k - 1]);
    } else {
      assert Remembered(NewCircuit(cfg)) == RefClosed(0) by { StartsClosed(cfg); }
    }
    SimulatesPoll(After(NewCircuit(cfg), es, k), now);
  }

  lemma {:induction false} StartsClosed(cfg: BreakerConfig)
    ensures Remembered(NewCircuit(cfg)) == RefClosed(0)
  {
  }

  lemma {:induction false} SimulatesEvent(c: Circuit, e: Event)
    ensures Remembered(Apply(c, e)) == RefApply(c.cfg, Remembered(c), e) && Apply(c, e).cfg == c.cfg
  {
  }

  lemma {:induction false} SimulatesPoll(c: Circuit, now: u64)
    ensures Remembered(c.Polled(now)) == RefPoll(c.cfg, Remembered(c), now)
    ensures c.IsCallable(now) == RefCallable(c.cfg, Remembered(c), now)
    ensures c.Polled(now).IsCallable(now) == RefCallable(c.cfg, Remembered(c), now)
  {
  }

  /** Once polled at `now`, the breaker admits nothing at `now` if it is Open,
      and under HalfOpen exactly while a trial slot is free. Without that poll an
      Open breaker past its cooldown admits any number of calls. */
  lemma {:induction false} AdmissionNeedsPoll(c: Circuit, now: u64, inFlight: nat)
    ensures c.Polled(now).state.Open? ==> !c.Polled(now).Admits(now, inFlight)
    ensures c.Polled(now).Admits(now, inFlight)
            <==> || c.Polled(now).state.Closed?
                 || (c.Polled(now).state.HalfOpen? && inFlight < Max(c.cfg.halfOpenMaxCalls, 1))
    ensures c.Admits(now, inFlight) && !c.Polled(now).Admits(now, inFlight)
            <==> c.state.Open? && c.CooledDown(now) && inFlight >= Max(c.cfg.halfOpenMaxCalls, 1)
  {
  }

  // ---- counters ----------------------------------------------------------

  ghost predicate CountersBounded(c: Circuit) {
    match c.state
    case Closed => c.consecutiveFailures < Max(c.cfg.failureThreshold, 1) && c.consecutiveSuccesses == 0
    case Open => c.consecutiveFailures == 0 && c.consecutiveSuccesses == 0
    case HalfOpen => c.consecutiveFailures == 0 && c.consecutiveSuccesses < Max(c.cfg.successThreshold, 1)
  }

  /** The running counters stay below their thresholds in every reachable state,
      so incrementing one of them never overflows 32 bits. */
  lemma {:induction false} CountersNeverOverflow(cfg: BreakerConfig, es: seq<Event>, k: nat)
    requires k <= |es|
    ensures var c := After(NewCircuit(cfg), es, k);
            && c.cfg == cfg && CountersBounded(c)
            && c.consecutiveFailures + 1 <= U32_MAX && c.consecutiveSuccesses + 1 <= U32_MAX
  {
    if k > 0 {
      CountersNeverOverflow(cfg, es, k - 1);
    }
  }

  // ---- trips -------------------------------------------------------------

  /** The times at which the first `k` events tripped the breaker. */
  function TripTimes(c: Circuit, es: seq<Event>, k: nat): seq<u64>
    requires k <= |es|
  {
    if k == 0 then []
    else
      var earlier := TripTimes(c, es, k - 1);
      if After(c, es, k).trips > After(c, es, k - 1).trips then earlier + [es[k - 1].now] else earlier
  }

  /** One event and the time of the last trip: only a trip sets it, and an open
      breaker moves on only once it has cooled down. */
  lemma {:induction false} OpenedLast(c: Circuit, e: Event)
    ensures var c' := Apply(c, e);
            && c'.cfg == c.cfg
            && (c'.trips == c.trips || c'.trips == c.trips + 1)
            && (c'.trips > c.trips ==> c'.state.Open? && c'.openedAt == e.now)
            && (c'.trips == c.trips ==> c'.openedAt == c.openedAt && (c'.state.Open? ==> c.state.Open?)
                                        && (c.state.Closed? ==> c'.state.Closed?))
            && (c.state.Open? && !c.CooledDown(e.now) ==> c' == c)
  {
  }

  lemma {:induction false} TripHistory(cfg: BreakerConfig, start: u64, es: seq<Event>, k: nat)
    requires k <= |es| && Timely(start, es)
    ensures var c, ts := After(NewCircuit(cfg), es, k), TripTimes(NewCircuit(cfg), es, k);
            && c.cfg == cfg && c.trips == |ts|
            && (|ts| > 0 ==> c.openedAt == ts[|ts| - 1])
            && (c.state.HalfOpen? || (c.state.Closed? && |ts| > 0)
                ==> k > 0 && |ts| > 0 && ts[|ts| - 1] + cfg.cooldownMs <= es[k - 1].now)
            && (|ts| > 0 ==> k > 0 && ts[|ts| - 1] <= es[k - 1].now)
            && (c.state.Open? ==> |ts| > 0)
            && (forall i :: 0 < i < |ts| ==> ts[i - 1] + cfg.cooldownMs <= ts[i])
            && (|ts| > 0 ==> start <= ts[0])
  {
    hide Apply;
    if k > 0 {
      TripHistory(cfg, start, es, k - 1);
      OpenedLast(After(NewCircuit(cfg), es, k - 1), es[k - 1]);
      assert k > 1 ==> es[k - 2].now <= es[k - 1].now;
    }
  }

  lemma {:induction false} SpacedSum(ts: seq<u64>, gap: nat, n: nat)
    requires 0 < n <= |ts|
    requires forall i :: 0 < i < |ts| ==> ts[i - 1] + gap <= ts[i]
    ensures ts[0] + (n - 1) * gap <= ts[n - 1]
  {
    if n > 1 {
      SpacedSum(ts, gap, n - 1);
      MulDistributes(n - 2, 1, gap);
    }
  }

  /** On a clock that never goes back, consecutive trips are at least one
      cooldown apart, so the number of trips is bounded by the elapsed time. */
  lemma {:induction false} TripsAreSpaced(cfg: BreakerConfig, start: u64, es: seq<Event>)
    requires Timely(start, es) && |es| > 0
    ensures var ts, trips := TripTimes(NewCircuit(cfg), es, |es|), After(NewCircuit(cfg), es, |es|).trips;
            && trips == |ts|
            && (forall i :: 0 < i < |ts| ==> ts[i - 1] + cfg.cooldownMs <= ts[i])
            && (trips - 1) * cfg.cooldownMs <= es[|es| - 1].now - start
  {
    TripHistory(cfg, start, es, |es|);
    var ts := TripTimes(NewCircuit(cfg), es, |es|);
    if |ts| > 0 {
      SpacedSum(ts, cfg.cooldownMs, |ts|);
    } else {
      assert (-1) * cfg.cooldownMs <= 0;
    }
  }

  /** From a trip at time `since` on, the breaker stays open without a further
      trip until one cooldown has passed. */
  lemma {:induction false} OpenForOneCooldown(c: Circuit, es: seq<Event>, a: nat, k: nat)
    requires a <= k <= |es| && forall i, j :: 0 <= i < j < |es| ==> es[i].now <= es[j].now
    requires After(c, es, a).state.Open? && (a < |es| ==> After(c, es, a).openedAt <= es[a].now)
    ensures var q, q' := After(c, es, a), After(c, es, k);
            && q'.cfg == c.cfg
            && (q' == q || (k > a && q.openedAt + c.cfg.cooldownMs <= es[k - 1].now))
    decreases k
  {
    hide Apply;
    CfgKept(c, es, k);
    if a < k {
      OpenForOneCooldown(c, es, a, k - 1);
      assert k - 1 > a ==> es[a].now <= es[k - 1].now && es[k - 2].now <= es[k - 1].now;
      if After(c, es, k - 1) == After(c, es, a) {
        OpenedLast(After(c, es, a), es[k - 1]);
      }
    }
  }

  lemma {:induction false} CfgKept(c: Circuit, es: seq<Event>, k: nat)
    requires k <= |es|
    ensures After(c, es, k).cfg == c.cfg
  {
    if k > 0 {
      CfgKept(c, es, k - 1);
    }
  }

  /** So any two events of a run that trip the breaker, whatever state it started
      in, are one cooldown apart. */
  lemma {:induction false} TripsOneCooldownApart(c: Circuit, es: seq<Event>, j: nat, k: nat)
    requires j < k < |es| && forall i, m :: 0 <= i < m < |es| ==> es[i].now <= es[m].now
    requires After(c, es, j + 1).trips > After(c, es, j).trips
    requires After(c, es, k + 1).trips > After(c, es, k).trips
    ensures es[j].now + c.cfg.cooldownMs <= es[k].now
  {
    hide Apply;
    OpenedLast(After(c, es, j), es[j]);
    OpenForOneCooldown(c, es, j + 1, k + 1);
    TripsGrow(c, es, j + 1, k);
  }

  lemma {:induction false} TripsGrow(c: Circuit, es: seq<Event>, i: nat, k: nat)
    requires i <= k <= |es|
    ensures After(c, es, i).trips <= After(c, es, k).trips
    decreases k
  {
    hide Apply;
    if i < k {
      TripsGrow(c, es, i, k - 1);
      OpenedLast(After(c, es, k - 1), es[k - 1]);
    }
  }

  /** A closed breaker stays closed until it trips. */
  lemma {:induction false} ClosedUntilTrip(c: Circuit, es: seq<Event>, i: nat, k: nat)
    requires i <= k <= |es| && After(c, es, i).state.Closed?
    ensures After(c, es, k).trips == After(c, es, i).trips ==> After(c, es, k).state.Closed?
    decreases k
  {
    hide Apply;
    if i < k {
      ClosedUntilTrip(c, es, i, k - 1);
      TripsGrow(c, es, i, k - 1);
      OpenedLast(After(c, es, k - 1), es[k - 1]);
    }
  }

  // ---- closing -----------------------------------------------------------

  function Successes(es: seq<Event>, k: nat): nat
    requires k <= |es|
  {
    if k == 0 then 0 else Successes(es, k - 1) + (if es[k - 1].Success? then 1 else 0)
  }

  ghost predicate NoFailure(es: seq<Event>, k: nat)
    requires k <= |es|
  {
    forall i :: 0 <= i < k ==> !es[i].Failure?
  }

  /** While HalfOpen lasts, the success counter counts the successes since the
      promotion, and there has been no failure. */
  lemma {:induction false} TrialCounts(c: Circuit, es: seq<Event>, k: nat)
    requires k <= |es| && c.state.HalfOpen? && c.consecutiveSuccesses == 0
    requires forall i :: 0 <= i <= k ==> After(c, es, i).state.HalfOpen?
    ensures After(c, es, k).cfg == c.cfg
    ensures After(c, es, k).consecutiveSuccesses == Successes(es, k)
    ensures NoFailure(es, k)
  {
    if k > 0 {
      TrialCounts(c, es, k - 1);
      assert After(c, es, k - 1).state.HalfOpen? && After(c, es, k).state.HalfOpen?;
    }
  }

  /** The trial that starts at a promotion ends at event `k` by closing exactly
      when that event is a success, no failure came before it, and it is the
      `max(success_threshold, 1)`-th success since the promotion. It ends by
      reopening exactly when the event is a failure. */
  lemma {:induction false} ClosesExactlyWhen(c: Circuit, es: seq<Event>, k: nat)
    requires k < |es| && c.state.HalfOpen? && c.consecutiveSuccesses == 0
    requires forall i :: 0 <= i <= k ==> After(c, es, i).state.HalfOpen?
    ensures After(c, es, k + 1).state.Closed?
            <==> es[k].Success? && NoFailure(es, k) && Successes(es, k + 1) == Max(c.cfg.successThreshold, 1)
    ensures After(c, es, k + 1).state.Open? <==> es[k].Failure?
  {
    TrialCounts(c, es, k);
    if k > 0 {
      assert After(c, es, k).state.HalfOpen?;
      TrialBelow(c, es, k);
    }
  }

  lemma {:induction false} TrialBelow(c: Circuit, es: seq<Event>, k: nat)
    requires k <= |es| && c.state.HalfOpen? && c.consecutiveSuccesses == 0
    requires forall i :: 0 <= i <= k ==> After(c, es, i).state.HalfOpen?
    ensures After(c, es, k).cfg == c.cfg
    ensures After(c, es, k).consecutiveSuccesses < Max(c.cfg.successThreshold, 1)
  {
    if k > 0 {
      TrialBelow(c, es, k - 1);
      assert After(c, es, k - 1).state.HalfOpen? && After(c, es, k).state.HalfOpen?;
    }
  }
}
