/** The three gates of one backend over whole runs: when it is available, told from
    its history alone. */
module Gates {
  import opened Prelude
  import opened Ewma
  import opened Breaker
  import opened Backends
  import opened BackendRuns
  import opened FailureRuns
  import opened Trials
  import Circuits = BreakerRuns
  import Probes = HealthRuns

  // ---- the health gate -----------------------------------------------------

  /** The chances to probe in the first `k` events. */
  function ChecksIn(es: seq<Event>, k: nat): seq<Probes.Check>
    requires k <= |es|
  {
    if k == 0 then []
    else ChecksIn(es, k - 1) + (if es[k - 1].Probe? then [Probes.Check(es[k - 1].now, es[k - 1].live)] else [])
  }

  ghost predicate SameHealth(n: Node, m: Node) {
    && n.healthy == m.healthy && n.probeFailures == m.probeFailures && n.probeSuccesses == m.probeSuccesses
    && n.lastProbe == m.lastProbe
  }

  lemma {:induction false} HealthStep(n: Node, m: Node, e: Event)
    requires SameHealth(n, m)
    ensures SameHealth(Apply(n, e), if e.Probe? then m.Probed(e.now, e.health, e.live) else m)
  {
    hide Node.Polled, Circuit.Succeeded, Circuit.Failed, EwmaConfig.Fold;
    if e.Poll? {
      PollKeeps(n, e.now, e.ewma, e.line);
    }
  }

  lemma {:induction false} ChecksPrefix(
      n: Node, health: HealthConfig, cs: seq<Probes.Check>, c: Probes.Check, k: nat)
    requires k <= |cs|
    ensures Probes.After(n, health, cs + [c], k) == Probes.After(n, health, cs, k)
  {
    hide Node.Probed;
    if k > 0 {
      ChecksPrefix(n, health, cs, c, k - 1);
    }
  }

  /** The health of a backend goes through a run of checks of its own. */
  lemma {:induction false} HealthRunsInBackend(n: Node, es: seq<Event>, health: HealthConfig, k: nat)
    requires k <= |es| && forall j :: 0 <= j < |es| && es[j].Probe? ==> es[j].health == health
    ensures var cs := ChecksIn(es, k); SameHealth(After(n, es, k), Probes.After(n, health, cs, |cs|))
  {
    hide Apply, SameHealth, Node.Probed;
    if k == 0 {
      Itself(n);
    } else {
      HealthRunsInBackend(n, es, health, k - 1);
      var cs, e := ChecksIn(es, k - 1), es[k - 1];
      HealthStep(After(n, es, k - 1), Probes.After(n, health, cs, |cs|), e);
      if e.Probe? {
        ChecksPrefix(n, health, cs, Probes.Check(e.now, e.live), |cs|);
      } else {
        assert cs + [] == cs;
      }
    }
  }

  lemma {:induction false} Itself(n: Node)
    ensures SameHealth(n, n)
  {
  }

  /** Up or down by the answers to the probes really made, from the configured start. */
  ghost predicate ProbedUp(n: Node, startHealthy: bool, es: seq<Event>, health: HealthConfig, k: nat)
    requires k <= |es|
  {
    var cs := ChecksIn(es, k);
    var made := Probes.Answers(Probes.Probes(n, health, cs, |cs|));
    Probes.HeardTo(if startHealthy then Probes.Up(0) else Probes.Down(0), health, made, |made|).Up?
  }

  lemma {:induction false} HealthyExactlyWhen(
      n: Node, startHealthy: bool, es: seq<Event>, health: HealthConfig, k: nat)
    requires k <= |es| && forall j :: 0 <= j < |es| && es[j].Probe? ==> es[j].health == health
    requires n.healthy == startHealthy && n.probeFailures == 0 && n.probeSuccesses == 0
    ensures After(n, es, k).healthy <==> ProbedUp(n, startHealthy, es, health, k)
  {
    hide After;
    var cs := ChecksIn(es, k);
    HealthRunsInBackend(n, es, health, k);
    Probes.HealthSimulates(n, health, cs, |cs|);
  }

  // ---- the breaker gate ------------------------------------------------------

  /** The reference model of the breaker admits one more call. */
  ghost predicate RefAdmits(cfg: BreakerConfig, es: seq<Event>, call: seq<nat>, k: nat, now: u64)
    requires k <= |es| == |call|
  {
    var r := Circuits.RefAfter(cfg, CircuitEvents(es), k);
    Circuits.RefCallable(cfg, r, now) && (r.RefHalf? ==> |InFlight(es, call, k)| < Max(cfg.halfOpenMaxCalls, 1))
  }

  lemma {:induction false} AdmitsExactlyWhen(n: Node, es: seq<Event>, call: seq<nat>, k: nat, now: u64)
    requires k <= |es| && Matched(es, call) && n.inFlight == 0 && n.circuit == NewCircuit(n.circuit.cfg)
    ensures After(n, es, k).circuit.Admits(now, After(n, es, k).inFlight)
            <==> RefAdmits(n.circuit.cfg, es, call, k, now)
  {
    hide After, Circuits.After, Circuits.RefAfter, InFlight, Matched;
    InFlightCounts(n, es, call, k);
    CircuitRunsInBackend(n, es, k);
    Circuits.SimulatesReference(n.circuit.cfg, CircuitEvents(es), k, now);
  }

  // ---- all three ---------------------------------------------------------------

  /** Exactly when a backend that started new is available, over every run on a clock
      that never goes back: the probes really made leave it up; the latest ejection of
      its history, of either kind, has ended; the reference model of the breaker lets
      a call through; and under a trial, the calls in flight leave a slot. */
  lemma {:induction false} AvailableExactlyWhen(
      n: Node, startHealthy: bool, es: seq<Event>, call: seq<nat>, health: HealthConfig, k: nat, now: u64)
    requires k <= |es| && Timely(es) && (k > 0 ==> es[k - 1].now <= now) && Matched(es, call)
    requires forall j :: 0 <= j < |es| && es[j].Probe? ==> es[j].health == health
    requires n.healthy == startHealthy && n.probeFailures == 0 && n.probeSuccesses == 0
    requires n.ejectedUntil.None? && n.inFlight == 0 && n.circuit == NewCircuit(n.circuit.cfg)
    ensures var arms := Armings(n, es, k);
            After(n, es, k).IsAvailable(now)
            <==> && ProbedUp(n, startHealthy, es, health, k)
                 && (|arms| > 0 ==> arms[|arms| - 1].Until() <= now)
                 && RefAdmits(n.circuit.cfg, es, call, k, now)
  {
    hide After, Armings, ProbedUp, RefAdmits, Circuit.Admits, Matched, Node.IsEjected;
    HealthyExactlyWhen(n, startHealthy, es, health, k);
    OutExactlyWhile(n, es, k, now);
    AdmitsExactlyWhen(n, es, call, k, now);
  }
}
