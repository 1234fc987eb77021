/** Histories of one backend inside any run of its pool, whether it was there from
    the start or was added on the way. */
module PoolHistory {
  import opened Prelude
  import opened Breaker
  import opened Backends
  import opened Pools
  import opened PoolRuns
  import opened PoolLine
  import Histories = BackendRuns
  import Latencies = LatencyRuns
  import Failures = FailureRuns
  import Circuits = BreakerRuns

  /** The clock of a pool run never goes back. */
  ghost predicate Timely(es: seq<Event>) {
    forall i, j :: 0 <= i < j < |es| ==> es[i].now <= es[j].now
  }

  lemma {:induction false} TraceTimely(p: PoolState, es: seq<Event>, i: nat)
    requires Timely(es)
    ensures Histories.Timely(Trace(p, es, i))
  {
    hide Apply, Seen;
    TraceClock(p, es, i);
  }

  /** In a run of a new pool every backend enters as it was added. */
  lemma {:induction false} EntersNew(strategy: Strategy, health: HealthConfig, es: seq<Event>, i: nat, k: nat)
    requires k <= |es| && i < |After(NewPool(strategy, health), es, k).nodes|
    ensures var n := Origin(NewPool(strategy, health), es, i, k);
            && n.ejectedUntil.None? && n.overSince.None? && n.ejections == 0 && n.ewmaEjections == 0
            && n.outlierFailures == 0 && n.latencyEwmaMilli.None? && n.ewmaSamples == 0
            && n.circuit == NewCircuit(n.circuit.cfg)
  {
    hide Apply, Origin;
    var a := JoinsAsAdded(NewPool(strategy, health), es, i, k);
  }

  // ---- latency ejections -----------------------------------------------------

  /** The event ejects backend `i` for its latency. */
  ghost predicate EjectsForLatency(p: PoolState, e: Event, i: nat)
    requires i < |p.nodes|
  {
    e.Poll? && i < |Apply(p, e).nodes| && Apply(p, e).nodes[i].ewmaEjections > p.nodes[i].ewmaEjections
  }

  /** The event judges backend `i`: a poll with the latency layer on that finds no
      ejection of it running. */
  ghost predicate JudgesAt(p: PoolState, e: Event, i: nat)
    requires i < |p.nodes|
  {
    e.Poll? && p.ewma.Some? && (p.nodes[i].ejectedUntil.Some? ==> p.nodes[i].ejectedUntil.value <= e.now)
  }

  /** Latencies recorded for backend `i` between two points of a run. */
  ghost function SamplesAt(p: PoolState, es: seq<Event>, i: nat, j: nat, k: nat): nat
    requires j <= k <= |es|
    decreases k
  {
    if j == k then 0
    else
      var q, e := After(p, es, k - 1), es[k - 1];
      SamplesAt(p, es, i, j, k - 1)
      + (if e.TimedSuccess? && e.i == i && i < |q.nodes| && q.ewma.Some? then 1 else 0)
  }

  /** A window opened by poll `j` is ripe at poll `k`. */
  ghost predicate RipeAt(p: PoolState, es: seq<Event>, i: nat, j: nat, k: nat)
    requires j <= k < |es|
  {
    var q := After(p, es, k);
    && q.ewma.Some?
    && es[j].now + q.ewma.value.windowMs <= es[k].now
    && SamplesAt(p, es, i, j, k) >= q.ewma.value.minSamples
  }

  /** The poll that opened the window open for backend `i` after `k` events: a
      judgement that finds it over the factor opens one if none is open, a judgement
      that does not closes it, and so does the judgement that finds it ripe. */
  ghost function WindowAt(p: PoolState, es: seq<Event>, i: nat, k: nat): (w: Option<nat>)
    requires k <= |es|
    ensures w.Some? ==> w.value < k
  {
    if k == 0 || i >= |After(p, es, k - 1).nodes| then None
    else
      var before, q, e := WindowAt(p, es, i, k - 1), After(p, es, k - 1), es[k - 1];
      if !JudgesAt(q, e, i) then before
      else if !OverFactor(q, i) then None
      else if before.None? then Some(k - 1)
      else if RipeAt(p, es, i, before.value, k - 1) then None
      else before
  }

  lemma {:induction false} JudgementSeen(p: PoolState, e: Event, i: nat)
    requires i < |p.nodes|
    ensures Latencies.Judges(p.nodes[i], Seen(p, e, i)) <==> JudgesAt(p, e, i)
    ensures JudgesAt(p, e, i) ==> (Latencies.FoundOver(p.nodes[i], Seen(p, e, i)) <==> OverFactor(p, i))
    ensures JudgesAt(p, e, i) ==> Seen(p, e, i) == Histories.Poll(e.now, p.ewma, Line(p))
    ensures Latencies.LatencyEjects(p.nodes[i], Seen(p, e, i)) <==> EjectsForLatency(p, e, i)
  {
    hide Line, Histories.Apply, Apply;
    ApplyIsSeen(p, e, i);
    if JudgesAt(p, e, i) {
      LineDecidesFactor(p, i);
    }
    Latencies.JudgementStep(p.nodes[i], Seen(p, e, i));
  }

  lemma {:induction false} SampleSeen(p: PoolState, e: Event, i: nat)
    ensures Latencies.IsSample(Seen(p, e, i))
            <==> e.TimedSuccess? && e.i == i && i < |p.nodes| && p.ewma.Some?
    ensures Latencies.IsSample(Seen(p, e, i)) ==> Seen(p, e, i).latencyMs == e.latencyMs
  {
    hide Apply, Line;
  }

  lemma {:induction false} SamplesSeen(p: PoolState, es: seq<Event>, i: nat, j: nat, k: nat)
    requires j <= k <= |es|
    ensures SamplesAt(p, es, i, j, k) == Latencies.SamplesBetween(Trace(p, es, i), j, k)
    decreases k
  {
    hide Apply, Seen, Latencies.IsSample;
    if j < k {
      SamplesSeen(p, es, i, j, k - 1);
      TraceAt(p, es, i, k - 1);
      SampleSeen(After(p, es, k - 1), es[k - 1], i);
    }
  }

  /** The window of a pool run is the window of the backend's own run. */
  lemma {:induction false} WindowSeen(p: PoolState, es: seq<Event>, i: nat, k: nat)
    requires k <= |es| && i < |After(p, es, k).nodes|
    ensures WindowAt(p, es, i, k) == Latencies.Window(Origin(p, es, i, k), Trace(p, es, i), 0, k)
  {
    hide Apply, Seen, Trace, Origin, JudgesAt, OverFactor, RipeAt, Latencies.Judges, Latencies.FoundOver,
         Latencies.Ripe;
    var n, tr := Origin(p, es, i, k), Trace(p, es, i);
    if k > 0 {
      var q, e := After(p, es, k - 1), es[k - 1];
      TraceAt(p, es, i, k - 1);
      if i < |q.nodes| {
        OriginFixed(p, es, i, k - 1, k);
        WindowSeen(p, es, i, k - 1);
        BackendRunsInPool(p, es, i, k - 1);
        JudgementSeen(q, e, i);
        var w := WindowAt(p, es, i, k - 1);
        if w.Some? && JudgesAt(q, e, i) {
          RipeSeen(p, es, i, w.value, k - 1);
        }
      } else {
        forall j | 0 <= j < k ensures i >= |After(p, es, j).nodes| {
          NodesStayOverRun(p, es, j, k - 1);
        }
        NoWindowBeforeJoining(p, es, n, i, k);
      }
    }
  }

  lemma {:induction false} NoWindowBeforeJoining(p: PoolState, es: seq<Event>, n: Node, i: nat, k: nat)
    requires k <= |es| && forall j :: 0 <= j < k ==> i >= |After(p, es, j).nodes|
    ensures Latencies.Window(n, Trace(p, es, i), 0, k) == None
  {
    hide Apply, Seen, Trace, Latencies.FoundOver, Latencies.Ripe;
    if k > 0 {
      NoWindowBeforeJoining(p, es, n, i, k - 1);
      TraceAt(p, es, i, k - 1);
      SeenIdle(After(p, es, k - 1), es[k - 1], i);
    }
  }

  lemma {:induction false} RipeSeen(p: PoolState, es: seq<Event>, i: nat, j: nat, k: nat)
    requires j <= k < |es| && i < |After(p, es, k).nodes| && JudgesAt(After(p, es, k), es[k], i)
    ensures RipeAt(p, es, i, j, k) <==> Latencies.Ripe(Trace(p, es, i), j, k)
  {
    hide Apply, Seen, Trace, Line, SamplesAt;
    TraceAt(p, es, i, j);
    TraceAt(p, es, i, k);
    JudgementSeen(After(p, es, k), es[k], i);
    SamplesSeen(p, es, i, j, k);
  }

  /** Exactly when a poll ejects a backend for latency, for every backend in every run
      of a new pool on a clock that never goes back: no ejection of it is running, it
      has samples enough and averages more than the factor times the mean of its
      pool, and that was so at every judgement since a poll at least one window
      before, with at least `min_samples` latencies recorded for it since then. */
  lemma {:induction false} LatencyEjectsExactlyWhen(
      strategy: Strategy, health: HealthConfig, es: seq<Event>, i: nat, k: nat)
    requires k < |es| && Timely(es) && i < |After(NewPool(strategy, health), es, k).nodes|
    ensures var p := NewPool(strategy, health);
            var q := After(p, es, k);
            EjectsForLatency(q, es[k], i)
            <==> && JudgesAt(q, es[k], i) && OverFactor(q, i)
                 && WindowAt(p, es, i, k).Some? && RipeAt(p, es, i, WindowAt(p, es, i, k).value, k)
  {
    hide Apply, Seen, Line, Origin, Trace, EjectsForLatency, Histories.After, Histories.Apply, JudgesAt, OverFactor,
         RipeAt, WindowAt, Latencies.LatencyEjects, Latencies.Judges, Latencies.FoundOver, Latencies.Ripe,
         Latencies.Window;
    var p := NewPool(strategy, health);
    var n, tr := Origin(p, es, i, k), Trace(p, es, i);
    EntersNew(strategy, health, es, i, k);
    BackendRunsInPool(p, es, i, k);
    TraceTimely(p, es, i);
    TraceAt(p, es, i, k);
    assert Histories.After(n, tr, 0) == n by { NothingYet(n, tr); }
    JudgementSeen(After(p, es, k), es[k], i);
    WindowSeen(p, es, i, k);
    Latencies.LatencyEjectsExactlyWhen(n, tr, 0, k);
    if WindowAt(p, es, i, k).Some? && JudgesAt(After(p, es, k), es[k], i) {
      RipeSeen(p, es, i, WindowAt(p, es, i, k).value, k);
    }
  }

  lemma {:induction false} NothingYet(n: Node, tr: seq<Histories.Event>)
    ensures Histories.After(n, tr, 0) == n
  {
  }

  /** Two latency ejections of one backend are at least the first one's length
      plus one window apart, short of the top of the clock. */
  lemma {:induction false} LatencyEjectionsSpaced(p: PoolState, es: seq<Event>, i: nat, j: nat, k: nat)
    requires j < k < |es| && Timely(es)
    requires i < |After(p, es, j).nodes| && EjectsForLatency(After(p, es, j), es[j], i)
    requires i < |After(p, es, k).nodes| && EjectsForLatency(After(p, es, k), es[k], i)
    ensures After(p, es, j).ewma.Some? && After(p, es, k).ewma.Some?
    ensures SatAdd(es[j].now, After(p, es, j).ewma.value.ejectionMs) + After(p, es, k).ewma.value.windowMs <= es[k].now
  {
    hide Apply, Seen, Line, Origin, Trace, EjectsForLatency, Histories.After, Histories.Apply,
         Latencies.LatencyEjects, Latencies.Judges, Latencies.FoundOver;
    var n, tr := Origin(p, es, i, k), Trace(p, es, i);
    OriginFixed(p, es, i, j, k);
    BackendRunsInPool(p, es, i, j);
    BackendRunsInPool(p, es, i, k);
    TraceTimely(p, es, i);
    TraceAt(p, es, i, j);
    TraceAt(p, es, i, k);
    JudgementSeen(After(p, es, j), es[j], i);
    JudgementSeen(After(p, es, k), es[k], i);
    Latencies.JudgementStep(Histories.After(n, tr, j), tr[j]);
    Latencies.JudgementStep(Histories.After(n, tr, k), tr[k]);
    Latencies.LatencyEjectionsSpaced(n, tr, j, k);
  }

  /** In every run of a new pool, a backend has an average exactly once a latency was
      recorded for it, and while all its latencies lie between `lo` and `hi` so does
      the average. */
  lemma {:induction false} AverageReportsLatencies(
      strategy: Strategy, health: HealthConfig, es: seq<Event>, i: nat, lo: u64, hi: u64, k: nat)
    requires k <= |es| && i < |After(NewPool(strategy, health), es, k).nodes|
    requires forall j :: 0 <= j < k && es[j].TimedSuccess? && es[j].i == i ==> lo <= es[j].latencyMs <= hi
    ensures var p := NewPool(strategy, health);
            var average := After(p, es, k).nodes[i].latencyEwmaMilli;
            && (average.None? <==> SamplesAt(p, es, i, 0, k) == 0)
            && (average.Some? ==> Min(1000 * lo, U64_MAX) <= average.value <= Min(1000 * hi, U64_MAX))
  {
    hide Apply, Seen, Origin, Trace, Histories.After, SamplesAt, Latencies.IsSample;
    var p := NewPool(strategy, health);
    var n, tr := Origin(p, es, i, k), Trace(p, es, i);
    EntersNew(strategy, health, es, i, k);
    BackendRunsInPool(p, es, i, k);
    SamplesSeen(p, es, i, 0, k);
    forall j | 0 <= j < k && Latencies.IsSample(tr[j])
      ensures tr[j].TimedSuccess? && lo <= tr[j].latencyMs <= hi
    {
      TraceAt(p, es, i, j);
      SampleSeen(After(p, es, j), es[j], i);
      SampleIsTimed(tr[j]);
    }
    Latencies.AverageReportsLatencies(n, tr, lo, hi, k);
  }

  lemma {:induction false} SampleIsTimed(e: Histories.Event)
    requires Latencies.IsSample(e)
    ensures e.TimedSuccess?
  {
  }

  // ---- failures in a row -------------------------------------------------------

  /** Failures recorded for backend `i` since its last recorded success, or since the
      poll that last ended an ejection of it. */
  ghost function FailuresAt(p: PoolState, es: seq<Event>, i: nat, k: nat): nat
    requires k <= |es|
  {
    if k == 0 || i >= |After(p, es, k - 1).nodes| then 0
    else
      var until, e := After(p, es, k - 1).nodes[i].ejectedUntil, es[k - 1];
      if e.Failure? && e.i == i then FailuresAt(p, es, i, k - 1) + 1
      else if (e.Success? || e.TimedSuccess?) && e.i == i then 0
      else if e.Poll? && until.Some? && until.value <= e.now then 0
      else FailuresAt(p, es, i, k - 1)
  }

  lemma {:induction false} OutcomeSeen(p: PoolState, e: Event, i: nat)
    requires i < |p.nodes|
    ensures Seen(p, e, i).Failure? <==> e.Failure? && e.i == i
    ensures Seen(p, e, i).Failure? ==> Seen(p, e, i).health == p.health
    ensures (Seen(p, e, i).Success? || Seen(p, e, i).TimedSuccess?) <==> (e.Success? || e.TimedSuccess?) && e.i == i
    ensures Seen(p, e, i).Poll? <==> e.Poll?
    ensures Seen(p, e, i).now == e.now
  {
    hide Apply, Line;
  }

  lemma {:induction false} FailuresSeen(p: PoolState, es: seq<Event>, i: nat, k: nat)
    requires k <= |es| && i < |After(p, es, k).nodes|
    ensures FailuresAt(p, es, i, k) == Failures.FailuresInARow(Origin(p, es, i, k), Trace(p, es, i), k)
  {
    hide Apply, Seen, Trace, Origin;
    var n, tr := Origin(p, es, i, k), Trace(p, es, i);
    if k > 0 {
      TraceAt(p, es, i, k - 1);
      if i < |After(p, es, k - 1).nodes| {
        OriginFixed(p, es, i, k - 1, k);
        FailuresSeen(p, es, i, k - 1);
        BackendRunsInPool(p, es, i, k - 1);
        OutcomeSeen(After(p, es, k - 1), es[k - 1], i);
      } else {
        forall j | 0 <= j < k ensures i >= |After(p, es, j).nodes| {
          NodesStayOverRun(p, es, j, k - 1);
        }
        NoFailureBeforeJoining(p, es, n, i, k);
      }
    }
  }

  lemma {:induction false} NoFailureBeforeJoining(p: PoolState, es: seq<Event>, n: Node, i: nat, k: nat)
    requires k <= |es| && forall j :: 0 <= j < k ==> i >= |After(p, es, j).nodes|
    ensures Failures.FailuresInARow(n, Trace(p, es, i), k) == 0
  {
    hide Apply, Seen, Trace;
    if k > 0 {
      NoFailureBeforeJoining(p, es, n, i, k - 1);
      TraceAt(p, es, i, k - 1);
      SeenIdle(After(p, es, k - 1), es[k - 1], i);
    }
  }

  /** Exactly when an event ejects a backend for failures, for every backend in every
      run of a new pool: it records a failure of that backend, the failures in a row
      reach the threshold, and no ejection of it is running. */
  lemma {:induction false} FailureEjectsExactlyWhen(
      strategy: Strategy, health: HealthConfig, es: seq<Event>, i: nat, k: nat)
    requires k < |es| && i < |After(NewPool(strategy, health), es, k).nodes|
    ensures var p := NewPool(strategy, health);
            var q, q' := After(p, es, k), After(p, es, k + 1);
            && i < |q'.nodes|
            && (q'.nodes[i].ejections > q.nodes[i].ejections
                <==> && es[k].Failure? && es[k].i == i
                     && FailuresAt(p, es, i, k) + 1 >= health.outlierConsecutiveFailures
                     && !(q.nodes[i].ejectedUntil.Some? && es[k].now < q.nodes[i].ejectedUntil.value))
  {
    hide Apply, Seen, Origin, Trace, Histories.After, FailuresAt, Failures.FailuresInARow;
    var p := NewPool(strategy, health);
    var n, tr := Origin(p, es, i, k), Trace(p, es, i);
    EntersNew(strategy, health, es, i, k);
    OriginFixed(p, es, i, k, k + 1);
    BackendRunsInPool(p, es, i, k);
    BackendRunsInPool(p, es, i, k + 1);
    TraceAt(p, es, i, k);
    OutcomeSeen(After(p, es, k), es[k], i);
    HealthFixed(p, es, k);
    FailuresSeen(p, es, i, k);
    Failures.FailureEjectsExactlyWhen(n, tr, k);
  }

  // ---- ejections of both kinds -----------------------------------------------

  lemma {:induction false} HealthKept(p: PoolState, e: Event)
    ensures Apply(p, e).health == p.health
  {
    hide Node.Polled, Node.Probed, Node.Failed, Node.SucceededIn, Node.Succeeded, Node.Began, Node.Ended, Line,
         Pools.Select;
    if e.Select? {
      SelectKeepsNodes(p, e.now, e.key, e.exclude);
    }
  }

  lemma {:induction false} HealthFixed(p: PoolState, es: seq<Event>, k: nat)
    requires k <= |es|
    ensures After(p, es, k).health == p.health
  {
    hide Apply;
    if k > 0 {
      HealthFixed(p, es, k - 1);
      HealthKept(After(p, es, k - 1), es[k - 1]);
    }
  }

  lemma {:induction false} SeenDurations(p: PoolState, e: Event, i: nat)
    ensures Seen(p, e, i).Failure? ==> Seen(p, e, i).health == p.health
    ensures Seen(p, e, i).Poll? ==> Seen(p, e, i).ewma == p.ewma
  {
    hide Apply, Line;
  }

  /** For every backend of every run of a new pool, short of the top of the clock,
      the ejections of both kinds together number at most one more than the elapsed
      time divided by the shortest duration any configuration of the run asked
      for. */
  lemma {:induction false} EjectionsBounded(
      strategy: Strategy, health: HealthConfig, es: seq<Event>, i: nat, shortest: nat)
    requires Timely(es) && |es| > 0 && es[|es| - 1].now < U64_MAX
    requires i < |After(NewPool(strategy, health), es, |es|).nodes|
    requires health.ejectionBaseMs >= shortest
    requires forall j, cfg :: 0 <= j < |es| && After(NewPool(strategy, health), es, j).ewma == Some(cfg)
                              ==> cfg.ejectionMs >= shortest
    ensures var n := After(NewPool(strategy, health), es, |es|).nodes[i];
            (n.ejections + n.ewmaEjections - 1) * shortest <= es[|es| - 1].now - es[0].now
  {
    hide Apply, Seen, Origin, Trace, Histories.After;
    var p := NewPool(strategy, health);
    var n, tr := Origin(p, es, i, |es|), Trace(p, es, i);
    EntersNew(strategy, health, es, i, |es|);
    BackendRunsInPool(p, es, i, |es|);
    TraceTimely(p, es, i);
    forall j | 0 <= j < |es|
      ensures tr[j].now == es[j].now
      ensures tr[j].Failure? ==> tr[j].health.ejectionBaseMs >= shortest
      ensures tr[j].Poll? && tr[j].ewma.Some? ==> tr[j].ewma.value.ejectionMs >= shortest
    {
      TraceAt(p, es, i, j);
      SeenDurations(After(p, es, j), es[j], i);
      HealthFixed(p, es, j);
    }
    Histories.EjectionsBounded(n, tr, shortest);
  }

  // ---- breakers --------------------------------------------------------------

  /** What a run of the pool is for the breaker of backend `i`. */
  ghost function CircuitTrace(p: PoolState, es: seq<Event>, i: nat): (cs: seq<Circuits.Event>)
    ensures |cs| == |es|
  {
    Histories.CircuitEvents(Trace(p, es, i))
  }

  /** In every run of a pool the breaker of each backend runs as a breaker alone, at
      the same clock readings; so everything proved about runs of one breaker,
      agreement with the reference model included, holds for all of them. */
  lemma {:induction false} CircuitRunsInPool(p: PoolState, es: seq<Event>, i: nat, k: nat)
    requires k <= |es| && i < |After(p, es, k).nodes|
    ensures After(p, es, k).nodes[i].circuit
            == Circuits.After(Origin(p, es, i, k).circuit, CircuitTrace(p, es, i), k)
    ensures forall j :: 0 <= j < |es| ==> CircuitTrace(p, es, i)[j].now == es[j].now
  {
    hide Apply, Seen, Origin, Histories.After, Circuits.After;
    BackendRunsInPool(p, es, i, k);
    Histories.CircuitRunsInBackend(Origin(p, es, i, k), Trace(p, es, i), k);
    TraceClock(p, es, i);
  }

  /** In every state a new pool can reach, the running counters of every breaker are
      below their thresholds, so 32 bits suffice. */
  lemma {:induction false} BreakerCountersNeverOverflow(
      strategy: Strategy, health: HealthConfig, es: seq<Event>, i: nat, k: nat)
    requires k <= |es| && i < |After(NewPool(strategy, health), es, k).nodes|
    ensures var c := After(NewPool(strategy, health), es, k).nodes[i].circuit;
            && Circuits.CountersBounded(c)
            && c.consecutiveFailures + 1 <= U32_MAX && c.consecutiveSuccesses + 1 <= U32_MAX
  {
    hide Apply, Origin, CircuitTrace, Circuits.After, Circuits.CountersBounded;
    var p := NewPool(strategy, health);
    EntersNew(strategy, health, es, i, k);
    CircuitRunsInPool(p, es, i, k);
    Circuits.CountersNeverOverflow(Origin(p, es, i, k).circuit.cfg, CircuitTrace(p, es, i), k);
  }

  /** The event trips the breaker of backend `i`. */
  ghost predicate Trips(p: PoolState, e: Event, i: nat)
    requires i < |p.nodes|
  {
    i < |Apply(p, e).nodes| && Apply(p, e).nodes[i].circuit.trips > p.nodes[i].circuit.trips
  }

  /** On a clock that never goes back, two events of one run that trip the breaker of
      a backend are at least its cooldown apart, from any state of the pool. */
  lemma {:induction false} BreakerTripsSpaced(p: PoolState, es: seq<Event>, i: nat, j: nat, k: nat)
    requires j < k < |es| && Timely(es)
    requires i < |After(p, es, j).nodes| && Trips(After(p, es, j), es[j], i)
    requires i < |After(p, es, k).nodes| && Trips(After(p, es, k), es[k], i)
    ensures es[j].now + After(p, es, j).nodes[i].circuit.cfg.cooldownMs <= es[k].now
  {
    hide Apply, Origin, CircuitTrace, Circuits.After;
    TripIsSeen(p, es, i, j, |es|);
    TripIsSeen(p, es, i, k, |es|);
    CircuitRunsInPool(p, es, i, j);
    OriginFixed(p, es, i, j, |es|);
    var c, cs := Origin(p, es, i, |es|).circuit, CircuitTrace(p, es, i);
    Circuits.CfgKept(c, cs, j);
    Circuits.TripsOneCooldownApart(c, cs, j, k);
  }

  lemma {:induction false} TripIsSeen(p: PoolState, es: seq<Event>, i: nat, k: nat, m: nat)
    requires k < m <= |es| && i < |After(p, es, k).nodes| && Trips(After(p, es, k), es[k], i)
    ensures i < |After(p, es, m).nodes|
    ensures var c, cs := Origin(p, es, i, m).circuit, CircuitTrace(p, es, i);
            && Circuits.After(c, cs, k + 1).trips > Circuits.After(c, cs, k).trips
            && forall j :: 0 <= j < |es| ==> cs[j].now == es[j].now
  {
    hide Apply, Origin, CircuitTrace, Circuits.After;
    OriginFixed(p, es, i, k, m);
    OriginFixed(p, es, i, k + 1, m);
    CircuitRunsInPool(p, es, i, k);
    CircuitRunsInPool(p, es, i, k + 1);
  }

  /** So the trips of every breaker in a run of a new pool are bounded by the elapsed
      time over its cooldown. */
  lemma {:induction false} BreakerTripsBounded(strategy: Strategy, health: HealthConfig, es: seq<Event>, i: nat)
    requires Timely(es) && |es| > 0 && i < |After(NewPool(strategy, health), es, |es|).nodes|
    ensures var c := After(NewPool(strategy, health), es, |es|).nodes[i].circuit;
            (c.trips - 1) * c.cfg.cooldownMs <= es[|es| - 1].now - es[0].now
  {
    hide Apply, Origin, CircuitTrace, Circuits.After;
    var p := NewPool(strategy, health);
    var c, cs := Origin(p, es, i, |es|).circuit, CircuitTrace(p, es, i);
    EntersNew(strategy, health, es, i, |es|);
    CircuitRunsInPool(p, es, i, |es|);
    Circuits.CfgKept(c, cs, |es|);
    Circuits.TripsAreSpaced(c.cfg, es[0].now, cs);
  }
}
