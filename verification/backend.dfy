/** src/pool.rs: one backend of a pool, as a value (`Node`) and as the object the
    pool updates in place (`Backend`). */
module Backends {
  import opened Prelude
  import opened Ewma
  import opened Breaker
  import Mix64

  type Bytes = Mix64.Bytes

  datatype HealthConfig = HealthConfig(
    probeIntervalMs: u64,
    unhealthyProbeThreshold: u32,
    healthyProbeThreshold: u32,
    outlierConsecutiveFailures: u32,
    ejectionBaseMs: u64,
    startHealthy: bool)

  datatype Node = Node(
    name: Bytes,
    weight: u32,
    inFlight: nat,
    healthy: bool,
    probeFailures: nat,
    probeSuccesses: nat,
    lastProbe: Option<u64>,
    outlierFailures: nat,
    ejectedUntil: Option<u64>,
    ejections: nat,
    circuit: Circuit,
    currentWeight: int,
    served: nat,
    latencyEwmaMilli: Option<u64>,
    ewmaSamples: nat,
    overSince: Option<u64>,
    overSinceSamples: nat,
    ewmaEjections: nat,
    rampPercent: nat,
    lastRampStep: Option<u64>)
  {
    predicate IsEjected(now: u64) {
      ejectedUntil.Some? && now < ejectedUntil.value
    }

    /** The three gates: probe health, timed ejection, breaker. */
    predicate IsAvailable(now: u64) {
      healthy && !IsEjected(now) && circuit.Admits(now, inFlight)
    }

    /** The moving average, zero before the first sample. */
    function Latency(): u64 {
      match latencyEwmaMilli
      case None => 0
      case Some(v) => v
    }

    /** Enough samples to count towards the mean and to be judged. */
    predicate Qualifies(cfg: EwmaConfig) {
      ewmaSamples >= cfg.minSamples
    }

    predicate OverLine(cfg: EwmaConfig, line: u64) {
      Qualifies(cfg) && Latency() > line
    }

    /** The effective score under the weighted strategy. */
    function Score(): nat {
      weight * rampPercent
    }

    // ---- poll, in its three stages ---------------------------------------

    function Reinstated(now: u64, ewma: Option<EwmaConfig>): Node {
      if ejectedUntil.Some? && now >= ejectedUntil.value then
        var back := this.(ejectedUntil := None, outlierFailures := 0);
        match ewma
        case None => back
        case Some(cfg) =>
          back.(rampPercent := Max(1, Min(cfg.reinstatePercent, 100)), lastRampStep := Some(now))
      else this
    }

    predicate RampDue(now: u64, cfg: EwmaConfig) {
      && ejectedUntil.None? && rampPercent < 100
      && (lastRampStep.Some? ==> SatSub(now, lastRampStep.value) >= cfg.rampWindowMs)
    }

    function Ramped(now: u64, cfg: EwmaConfig): Node {
      if RampDue(now, cfg) then this.(rampPercent := Min(2 * rampPercent, 100), lastRampStep := Some(now)) else this
    }

    /** The open window is long enough and has seen enough new samples. */
    predicate Ripe(now: u64, cfg: EwmaConfig) {
      && overSince.Some?
      && SatSub(now, overSince.value) >= cfg.windowMs
      && SatSub(ewmaSamples, overSinceSamples) >= cfg.minSamples
    }

    function Judged(now: u64, cfg: EwmaConfig, line: u64): Node {
      if ejectedUntil.Some? then this
      else if !OverLine(cfg, line) then this.(overSince := None)
      else if overSince.None? then this.(overSince := Some(now), overSinceSamples := ewmaSamples)
      else if Ripe(now, cfg) then
        this.(ejectedUntil := Some(SatAdd(now, cfg.ejectionMs)), ewmaEjections := ewmaEjections + 1, overSince := None)
      else this
    }

    /** The node as the latency judgement of a poll sees it. */
    function Standing(now: u64, cfg: EwmaConfig): Node {
      this.(circuit := circuit.Polled(now)).Reinstated(now, Some(cfg)).Ramped(now, cfg)
    }

    function Polled(now: u64, ewma: Option<EwmaConfig>, line: u64): Node {
      match ewma
      case None => this.(circuit := circuit.Polled(now)).Reinstated(now, None)
      case Some(cfg) => Standing(now, cfg).Judged(now, cfg, line)
    }

    // ---- outcomes and probes ---------------------------------------------

    function Began(): Node {
      this.(inFlight := inFlight + 1)
    }

    function Ended(): Node {
      this.(inFlight := SatSub(inFlight, 1))
    }

    function Succeeded(now: u64): Node {
      this.(served := served + 1, outlierFailures := 0, circuit := circuit.Succeeded(now))
    }

    function SucceededIn(now: u64, ewma: Option<EwmaConfig>, latencyMs: u64): Node {
      var n := Succeeded(now);
      match ewma
      case None => n
      case Some(cfg) =>
        n.(latencyEwmaMilli := Some(cfg.Fold(latencyEwmaMilli, latencyMs)), ewmaSamples := ewmaSamples + 1)
    }

    /** The failure run has reached its threshold and no ejection is running. */
    predicate FailureEjects(now: u64, health: HealthConfig) {
      outlierFailures + 1 >= health.outlierConsecutiveFailures && !IsEjected(now)
    }

    function Failed(now: u64, health: HealthConfig): Node {
      var n := this.(served := served + 1, circuit := circuit.Failed(now), outlierFailures := outlierFailures + 1);
      if FailureEjects(now, health) then
        n.(ejectedUntil := Some(SatAdd(now, health.ejectionBaseMs)), ejections := ejections + 1)
      else n
    }

    predicate ProbeDue(now: u64, health: HealthConfig) {
      lastProbe.Some? ==> SatSub(now, lastProbe.value) >= health.probeIntervalMs
    }

    function HeardGood(health: HealthConfig): Node {
      if !healthy && probeSuccesses + 1 >= health.healthyProbeThreshold
      then this.(probeFailures := 0, healthy := true, probeSuccesses := 0)
      else this.(probeFailures := 0, probeSuccesses := probeSuccesses + 1)
    }

    function HeardBad(health: HealthConfig): Node {
      if healthy && probeFailures + 1 >= health.unhealthyProbeThreshold
      then this.(probeSuccesses := 0, healthy := false, probeFailures := 0)
      else this.(probeSuccesses := 0, probeFailures := probeFailures + 1)
    }

    function Probed(now: u64, health: HealthConfig, live: bool): Node {
      if !ProbeDue(now, health) then this
      else
        var n := this.(lastProbe := Some(now));
        if live then n.HeardGood(health) else n.HeardBad(health)
    }
  }

  function NewNode(name: Bytes, weight: u32, health: HealthConfig, cfg: BreakerConfig): Node {
    Node(name, weight, 0, health.startHealthy, 0, 0, None, 0, None, 0, NewCircuit(cfg), 0, 0,
         None, 0, None, 0, 0, 100, None)
  }

  /** What the steps of a poll leave alone. */
  lemma {:induction false} PollKeeps(n: Node, now: u64, ewma: Option<EwmaConfig>, line: u64)
    ensures var n' := n.Polled(now, ewma, line);
            && n'.circuit == n.circuit.Polled(now)
            && n' == n.(circuit := n'.circuit, ejectedUntil := n'.ejectedUntil, outlierFailures := n'.outlierFailures,
                        rampPercent := n'.rampPercent, lastRampStep := n'.lastRampStep, overSince := n'.overSince,
                        overSinceSamples := n'.overSinceSamples, ewmaEjections := n'.ewmaEjections)
            && (1 <= n.rampPercent <= 100 ==> 1 <= n'.rampPercent <= 100)
  {
    hide Circuit.Polled, Node.Standing, Node.Judged;
    if ewma.Some? {
      StandingKeeps(n, now, ewma.value);
      JudgedKeeps(n.Standing(now, ewma.value), now, ewma.value, line);
    }
  }

  lemma {:induction false} JudgedKeeps(n: Node, now: u64, cfg: EwmaConfig, line: u64)
    ensures var n' := n.Judged(now, cfg, line);
            n' == n.(ejectedUntil := n'.ejectedUntil, overSince := n'.overSince,
                     overSinceSamples := n'.overSinceSamples, ewmaEjections := n'.ewmaEjections)
  {
  }

  lemma {:induction false} StandingKeeps(n: Node, now: u64, cfg: EwmaConfig)
    ensures var n' := n.Standing(now, cfg);
            && n' == n.(circuit := n.circuit.Polled(now), ejectedUntil := n'.ejectedUntil,
                        outlierFailures := n'.outlierFailures, rampPercent := n'.rampPercent,
                        lastRampStep := n'.lastRampStep)
            && (1 <= n.rampPercent <= 100 ==> 1 <= n'.rampPercent <= 100)
  {
    hide Circuit.Polled;
  }

  class Backend {
    const name: Bytes
    const weight: u32
    const breaker: CircuitBreaker
    var inFlight: nat
    var healthy: bool
    var probeFailures: nat
    var probeSuccesses: nat
    var lastProbe: Option<u64>
    var outlierFailures: nat
    var ejectedUntil: Option<u64>
    var ejections: nat
    var currentWeight: int
    var served: nat
    var latencyEwmaMilli: Option<u64>
    var ewmaSamples: nat
    var overSince: Option<u64>
    var overSinceSamples: nat
    var ewmaEjections: nat
    var rampPercent: nat
    var lastRampStep: Option<u64>

    ghost function View(): Node
      reads this, breaker
    {
      Node(name, weight, inFlight, healthy, probeFailures, probeSuccesses, lastProbe, outlierFailures,
           ejectedUntil, ejections, breaker.View(), currentWeight, served, latencyEwmaMilli, ewmaSamples,
           overSince, overSinceSamples, ewmaEjections, rampPercent, lastRampStep)
    }

    constructor (name: Bytes, weight: u32, health: HealthConfig, cfg: BreakerConfig)
      ensures View() == NewNode(name, weight, health, cfg)
      ensures fresh(breaker)
    {
      this.name, this.weight := name, weight;
      breaker := new CircuitBreaker(cfg);
      inFlight, healthy := 0, health.startHealthy;
      probeFailures, probeSuccesses, lastProbe := 0, 0, None;
      outlierFailures, ejectedUntil, ejections := 0, None, 0;
      currentWeight, served := 0, 0;
      latencyEwmaMilli, ewmaSamples := None, 0;
      overSince, overSinceSamples, ewmaEjections := None, 0, 0;
      rampPercent, lastRampStep := 100, None;
    }

    predicate IsAvailable(now: u64)
      reads this, breaker
      ensures IsAvailable(now) == View().IsAvailable(now)
    {
      healthy && !(ejectedUntil.Some? && now < ejectedUntil.value) && breaker.Admits(now, inFlight)
    }

    /** The part of `poll` that concerns one backend. */
    method Poll(now: u64, ewma: Option<EwmaConfig>, line: u64)
      modifies this, breaker
      ensures View() == old(View()).Polled(now, ewma, line)
      ensures 1 <= old(rampPercent) <= 100 ==> 1 <= rampPercent <= 100
    {
      breaker.Poll(now);
      Reinstate(now, ewma);
      if ewma.Some? {
        Ramp(now, ewma.value);
        Judge(now, ewma.value, line);
      }
    }

    method Reinstate(now: u64, ewma: Option<EwmaConfig>)
      modifies this
      ensures View() == old(View()).Reinstated(now, ewma)
      ensures 1 <= old(rampPercent) <= 100 ==> 1 <= rampPercent <= 100
    {
      hide CircuitBreaker.View;
      if ejectedUntil.Some? && now >= ejectedUntil.value {
        ejectedUntil := None;
        outlierFailures := 0;
        if ewma.Some? {
          RestartRamp(now, ewma.value);
        }
      }
    }

    method RestartRamp(now: u64, cfg: EwmaConfig)
      modifies this
      ensures View() == old(View()).(rampPercent := Max(1, Min(cfg.reinstatePercent, 100)), lastRampStep := Some(now))
      ensures 1 <= rampPercent <= 100
    {
      rampPercent := Max(1, Min(cfg.reinstatePercent, 100));
      lastRampStep := Some(now);
    }

    method Ramp(now: u64, cfg: EwmaConfig)
      modifies this
      ensures View() == old(View()).Ramped(now, cfg)
      ensures 1 <= old(rampPercent) <= 100 ==> 1 <= rampPercent <= 100
    {
      if ejectedUntil.None? && rampPercent < 100 {
        var due := match lastRampStep
          case None => true
          case Some(step) => SatSub(now, step) >= cfg.rampWindowMs;
        if due {
          rampPercent := Min(2 * rampPercent, 100);
          lastRampStep := Some(now);
        }
      }
    }

    method Judge(now: u64, cfg: EwmaConfig, line: u64)
      modifies this
      ensures View() == old(View()).Judged(now, cfg, line)
      ensures rampPercent == old(rampPercent)
    {
      if ejectedUntil.None? {
        if ewmaSamples >= cfg.minSamples {
          var ewmaMilli := if latencyEwmaMilli.Some? then latencyEwmaMilli.value else 0;
          if ewmaMilli > line {
            match overSince {
              case None =>
                overSince := Some(now);
                overSinceSamples := ewmaSamples;
              case Some(since) =>
                var newSamples := SatSub(ewmaSamples, overSinceSamples);
                if SatSub(now, since) >= cfg.windowMs && newSamples >= cfg.minSamples {
                  ejectedUntil := Some(SatAdd(now, cfg.ejectionMs));
                  ewmaEjections := ewmaEjections + 1;
                  overSince := None;
                }
            }
          } else {
            overSince := None;
          }
        } else {
          overSince := None;
        }
      }
    }

    method Begin()
      modifies this
      ensures View() == old(View()).Began()
      ensures rampPercent == old(rampPercent)
    {
      inFlight := inFlight + 1;
    }

    method End()
      modifies this
      ensures View() == old(View()).Ended()
      ensures rampPercent == old(rampPercent)
    {
      inFlight := SatSub(inFlight, 1);
    }

    method RecordSuccess(now: u64)
      modifies this, breaker
      ensures View() == old(View()).Succeeded(now)
      ensures rampPercent == old(rampPercent)
    {
      served := served + 1;
      outlierFailures := 0;
      breaker.OnSuccess(now);
    }

    method RecordSuccessLatency(now: u64, ewma: Option<EwmaConfig>, latencyMs: u64)
      modifies this, breaker
      ensures View() == old(View()).SucceededIn(now, ewma, latencyMs)
      ensures rampPercent == old(rampPercent)
    {
      RecordSuccess(now);
      if ewma.Some? {
        latencyEwmaMilli := Some(ewma.value.Fold(latencyEwmaMilli, latencyMs));
        ewmaSamples := ewmaSamples + 1;
      }
    }

    method RecordFailure(now: u64, health: HealthConfig)
      modifies this, breaker
      ensures View() == old(View()).Failed(now, health)
      ensures rampPercent == old(rampPercent)
    {
      hide CircuitBreaker.View, Circuit.Failed;
      CountFailure(now);
      var alreadyEjected := ejectedUntil.Some? && now < ejectedUntil.value;
      if outlierFailures >= health.outlierConsecutiveFailures && !alreadyEjected {
        ejectedUntil := Some(SatAdd(now, health.ejectionBaseMs));
        ejections := ejections + 1;
      }
    }

    method CountFailure(now: u64)
      modifies this, breaker
      ensures View() == old(View()).(served := old(served) + 1, circuit := old(breaker.View()).Failed(now),
                                     outlierFailures := old(outlierFailures) + 1)
    {
      hide CircuitBreaker.View, Circuit.Failed;
      served := served + 1;
      breaker.OnFailure(now);
      outlierFailures := outlierFailures + 1;
    }

    /** The part of `run_health_checks` that concerns one backend; `live` is what
        the upstream would answer to a probe. */
    method Probe(now: u64, health: HealthConfig, live: bool)
      modifies this
      ensures View() == old(View()).Probed(now, health, live)
      ensures rampPercent == old(rampPercent)
    {
      hide CircuitBreaker.View, Node.HeardGood, Node.HeardBad;
      var due := match lastProbe
        case None => true
        case Some(t) => SatSub(now, t) >= health.probeIntervalMs;
      if !due {
        return;
      }
      lastProbe := Some(now);
      if live {
        HearGood(health);
      } else {
        HearBad(health);
      }
    }

    method HearGood(health: HealthConfig)
      modifies this
      ensures View() == old(View()).HeardGood(health)
      ensures rampPercent == old(rampPercent)
    {
      hide CircuitBreaker.View;
      probeSuccesses := probeSuccesses + 1;
      probeFailures := 0;
      if !healthy && probeSuccesses >= health.healthyProbeThreshold {
        healthy := true;
        probeSuccesses := 0;
      }
    }

    method HearBad(health: HealthConfig)
      modifies this
      ensures View() == old(View()).HeardBad(health)
      ensures rampPercent == old(rampPercent)
    {
      hide CircuitBreaker.View;
      probeFailures := probeFailures + 1;
      probeSuccesses := 0;
      if healthy && probeFailures >= health.unhealthyProbeThreshold {
        healthy := false;
        probeFailures := 0;
      }
    }
  }
}
