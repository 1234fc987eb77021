/** One backend over whole runs: ejection timers with their two sources, the
    latency judgement and the reinstatement ramp. */
module BackendRuns {
  import opened Prelude
  import opened Ewma
  import opened Breaker
  import opened Backends
  import Circuits = BreakerRuns

  /** Everything that can happen to a backend, stamped with the clock. The line
      of a poll, probe answers, outcomes and latencies are arbitrary inputs. */
  datatype Event =
    | Poll(now: u64, ewma: Option<EwmaConfig>, line: u64)
    | Probe(now: u64, health: HealthConfig, live: bool)
    | Begin(now: u64)
    | End(now: u64)
    | Success(now: u64)
    | TimedSuccess(now: u64, ewma: Option<EwmaConfig>, latencyMs: u64)
    | Failure(now: u64, health: HealthConfig)
    | Weigh(now: u64, weight: int)
    | Idle(now: u64)

  function Apply(n: Node, e: Event): Node {
    match e
    case Poll(now, ewma, line) => n.Polled(now, ewma, line)
    case Probe(now, health, live) => n.Probed(now, health, live)
    case Begin(_) => n.Began()
    case End(_) => n.Ended()
    case Success(now) => n.Succeeded(now)
    case TimedSuccess(now, ewma, latencyMs) => n.SucceededIn(now, ewma, latencyMs)
    case Failure(now, health) => n.Failed(now, health)
    case Weigh(_, weight) => n.(currentWeight := weight)
    case Idle(_) => n
  }

  function After(n: Node, es: seq<Event>, k: nat): Node
    requires k <= |es|
  {
    if k == 0 then n else Apply(After(n, es, k - 1), es[k - 1])
  }

  ghost predicate Timely(es: seq<Event>) {
    forall i, j :: 0 <= i < j < |es| ==> es[i].now <= es[j].now
  }

  // ---- the breaker of a backend --------------------------------------------

  /** What an event is for the breaker. */
  function CircuitEvent(e: Event): (c: Circuits.Event)
    ensures c.now == e.now
  {
    match e
    case Poll(now, _, _) => Circuits.Poll(now)
    case Success(now) => Circuits.Success(now)
    case TimedSuccess(now, _, _) => Circuits.Success(now)
    case Failure(now, _) => Circuits.Failure(now)
    case _ => Circuits.Idle(e.now)
  }

  function CircuitEvents(es: seq<Event>): (cs: seq<Circuits.Event>)
    ensures |cs| == |es|
  {
    seq(|es|, i requires 0 <= i < |es| => CircuitEvent(es[i]))
  }

  lemma {:induction false} CircuitStep(n: Node, e: Event)
    ensures Apply(n, e).circuit == Circuits.Apply(n.circuit, CircuitEvent(e))
  {
    hide Node.Polled, Circuit.Polled, Circuit.Succeeded, Circuit.Failed;
    if e.Poll? {
      PollKeeps(n, e.now, e.ewma, e.line);
    }
  }

  /** Inside every run of a backend its breaker runs as a breaker alone. */
  lemma {:induction false} CircuitRunsInBackend(n: Node, es: seq<Event>, k: nat)
    requires k <= |es|
    ensures After(n, es, k).circuit == Circuits.After(n.circuit, CircuitEvents(es), k)
  {
    hide Apply, CircuitEvent, Circuits.Apply;
    if k > 0 {
      CircuitRunsInBackend(n, es, k - 1);
      CircuitStep(After(n, es, k - 1), es[k - 1]);
      assert CircuitEvents(es)[k - 1] == CircuitEvent(es[k - 1]);
    }
  }

  // ---- ejection timers ---------------------------------------------------

  /** An ejection: when it was armed and for how long. */
  datatype Arming = Arming(at: u64, lasts: u64) {
    function Until(): u64 {
      SatAdd(at, lasts)
    }
  }

  function Counted(n: Node): nat {
    n.ejections + n.ewmaEjections
  }

  /** Did this event arm an ejection, and with which duration? */
  function ArmedBy(n: Node, e: Event): Option<Arming> {
    if Counted(Apply(n, e)) == Counted(n) then None
    else
      match e
      case Failure(now, health) => Some(Arming(now, health.ejectionBaseMs))
      case Poll(now, Some(cfg), _) => Some(Arming(now, cfg.ejectionMs))
      case _ => None
  }

  function Armings(n: Node, es: seq<Event>, k: nat): seq<Arming>
    requires k <= |es|
  {
    if k == 0 then []
    else
      var earlier := Armings(n, es, k - 1);
      match ArmedBy(After(n, es, k - 1), es[k - 1])
      case None => earlier
      case Some(a) => earlier + [a]
  }

  /** One event: either it arms exactly one ejection, which then runs until the
      arming says, and nothing else was running; or a running ejection is kept as
      it is, or dropped no earlier than its end. */
  ghost predicate TimerKept(n: Node, e: Event) {
    var n' := Apply(n, e);
    match ArmedBy(n, e)
    case Some(a) =>
      && Counted(n') == Counted(n) + 1
      && a.at == e.now
      && n'.ejectedUntil == Some(a.Until())
      && (n.ejectedUntil.Some? ==> n.ejectedUntil.value <= e.now)
    case None =>
      && Counted(n') == Counted(n)
      && (n'.ejectedUntil == n.ejectedUntil
          || (n'.ejectedUntil.None? && n.ejectedUntil.Some? && n.ejectedUntil.value <= e.now))
  }

  lemma {:induction false} PollKeepsTimer(n: Node, e: Event)
    requires e.Poll?
    ensures TimerKept(n, e)
  {
    hide Node.Ramped, Circuit.Polled;
    if e.ewma.Some? {
      var back := n.(circuit := n.circuit.Polled(e.now)).Reinstated(e.now, e.ewma);
      RampKeepsTimer(back, e.now, e.ewma.value);
    }
  }

  lemma {:induction false} RampKeepsTimer(n: Node, now: u64, cfg: EwmaConfig)
    ensures var n' := n.Ramped(now, cfg);
            n'.ejectedUntil == n.ejectedUntil && n'.ejections == n.ejections && n'.ewmaEjections == n.ewmaEjections
  {
  }

  lemma {:induction false} FailureKeepsTimer(n: Node, e: Event)
    requires e.Failure?
    ensures TimerKept(n, e)
  {
  }

  lemma {:induction false} TimerStep(n: Node, e: Event)
    ensures TimerKept(n, e)
  {
    if e.Poll? {
      PollKeepsTimer(n, e);
    } else if e.Failure? {
      FailureKeepsTimer(n, e);
    } else {
      assert Apply(n, e).ejectedUntil == n.ejectedUntil && Counted(Apply(n, e)) == Counted(n);
    }
  }

  /** While the clock is short of its end, a running ejection is neither moved,
      nor recounted, nor dropped, whatever happens. */
  lemma {:induction false} RunningEjectionIsFixed(n: Node, es: seq<Event>, i: nat, k: nat)
    requires i <= k <= |es|
    requires After(n, es, i).ejectedUntil.Some?
    requires forall j :: i <= j < k ==> es[j].now < After(n, es, i).ejectedUntil.value
    ensures After(n, es, k).ejectedUntil == After(n, es, i).ejectedUntil
    ensures Counted(After(n, es, k)) == Counted(After(n, es, i))
  {
    hide Apply, ArmedBy;
    if i < k {
      RunningEjectionIsFixed(n, es, i, k - 1);
      TimerStep(After(n, es, k - 1), es[k - 1]);
    }
  }

  /** The two ejection counters together count the armings, and each arming waits
      for the end of the one before. */
  lemma {:induction false} ArmingHistory(n: Node, es: seq<Event>, k: nat)
    requires k <= |es| && Timely(es) && n.ejectedUntil.None?
    ensures var arms, n' := Armings(n, es, k), After(n, es, k);
            && Counted(n') == Counted(n) + |arms|
            && (forall i :: 0 < i < |arms| ==> arms[i - 1].Until() <= arms[i].at)
            && (forall i :: 0 <= i < |arms| ==> es[0].now <= arms[i].at <= es[k - 1].now)
            && (|arms| == 0 ==> n'.ejectedUntil.None?)
            && (|arms| > 0 ==> n'.ejectedUntil == Some(arms[|arms| - 1].Until())
                               || (n'.ejectedUntil.None? && arms[|arms| - 1].Until() <= es[k - 1].now))
  {
    hide Apply, ArmedBy;
    if k > 0 {
      ArmingHistory(n, es, k - 1);
      TimerStep(After(n, es, k - 1), es[k - 1]);
      assert es[0].now <= es[k - 1].now;
      assert k > 1 ==> es[k - 2].now <= es[k - 1].now;
    }
  }

  lemma {:induction false} ArmingsSpaced(arms: seq<Arming>, shortest: nat, k: nat)
    requires 0 < k <= |arms|
    requires forall i :: 0 < i < |arms| ==> arms[i - 1].Until() <= arms[i].at
    requires forall i :: 0 <= i < |arms| ==> arms[i].lasts >= shortest
    requires arms[k - 1].at < U64_MAX
    ensures arms[0].at + (k - 1) * shortest <= arms[k - 1].at
  {
    if k > 1 {
      ArmingsSpaced(arms, shortest, k - 1);
      MulDistributes(k - 2, 1, shortest);
    }
  }

  /** Over any run on a clock that never goes back, and short of the top of the
      clock range, the ejections of both kinds together number at most one more
      than the elapsed time divided by the shortest ejection. */
  lemma {:induction false} EjectionsBounded(n: Node, es: seq<Event>, shortest: nat)
    requires Timely(es) && |es| > 0 && n.ejectedUntil.None?
    requires es[|es| - 1].now < U64_MAX
    requires forall i :: 0 <= i < |es| ==> (es[i].Failure? ==> es[i].health.ejectionBaseMs >= shortest)
    requires forall i :: 0 <= i < |es| ==> (es[i].Poll? && es[i].ewma.Some? ==> es[i].ewma.value.ejectionMs >= shortest)
    ensures (Counted(After(n, es, |es|)) - Counted(n) - 1) * shortest <= es[|es| - 1].now - es[0].now
  {
    hide Apply, ArmedBy;
    ArmingHistory(n, es, |es|);
    ArmingDurations(n, es, shortest, |es|);
    var arms := Armings(n, es, |es|);
    if |arms| > 0 {
      ArmingsSpaced(arms, shortest, |arms|);
    } else {
      assert (-1) * shortest <= 0;
    }
  }

  lemma {:induction false} ArmingDurations(n: Node, es: seq<Event>, shortest: nat, k: nat)
    requires k <= |es|
    requires forall i :: 0 <= i < |es| ==> (es[i].Failure? ==> es[i].health.ejectionBaseMs >= shortest)
    requires forall i :: 0 <= i < |es| ==> (es[i].Poll? && es[i].ewma.Some? ==> es[i].ewma.value.ejectionMs >= shortest)
    ensures forall i :: 0 <= i < |Armings(n, es, k)| ==> Armings(n, es, k)[i].lasts >= shortest
  {
    hide Apply, ArmedBy;
    if k > 0 {
      ArmingDurations(n, es, shortest, k - 1);
      ArmedAsConfigured(After(n, es, k - 1), es[k - 1]);
    }
  }

  lemma {:induction false} ArmedAsConfigured(n: Node, e: Event)
    ensures match ArmedBy(n, e)
            case None => true
            case Some(a) => (e.Failure? && a.lasts == e.health.ejectionBaseMs)
                            || (e.Poll? && e.ewma.Some? && a.lasts == e.ewma.value.ejectionMs)
  {
    hide Apply;
  }

  /** At the very top of the clock an ejection ends as soon as it starts: there,
      and only there or with a zero duration, the next failure at the same instant
      ejects the node once more. */
  lemma {:induction false} RearmsInstantlyExactlyWhen(n: Node, now: u64, health: HealthConfig)
    requires n.FailureEjects(now, health)
    ensures !n.Failed(now, health).IsEjected(now) <==> health.ejectionBaseMs == 0 || now == U64_MAX
    ensures n.Failed(now, health).Failed(now, health).ejections == n.ejections + 2
            <==> health.ejectionBaseMs == 0 || now == U64_MAX
  {
    FailsTwice(n, now, health);
  }

  lemma {:induction false} FailsTwice(n: Node, now: u64, health: HealthConfig)
    requires n.FailureEjects(now, health)
    ensures var n1 := n.Failed(now, health);
            && n1.ejectedUntil == Some(SatAdd(now, health.ejectionBaseMs)) && n1.ejections == n.ejections + 1
            && n1.FailureEjects(now, health) == !n1.IsEjected(now)
  {
  }

  /** An ejection of five seconds at the top of the clock: two failures in a row
      count two ejections, and the node is not ejected after either. */
  lemma {:induction false} TwoEjectionsAtOnce()
    ensures var health := HealthConfig(1000, 3, 2, 1, 5000, true);
            var n := NewNode([], 1, health, BreakerConfig(5, 2, 1000, 1));
            var es := [Failure(U64_MAX, health), Failure(U64_MAX, health)];
            && After(n, es, 1).ejections == 1 && !After(n, es, 1).IsEjected(U64_MAX)
            && After(n, es, 2).ejections == 2 && !After(n, es, 2).IsEjected(U64_MAX)
  {
    hide Circuit.Failed;
    var health := HealthConfig(1000, 3, 2, 1, 5000, true);
    var n := NewNode([], 1, health, BreakerConfig(5, 2, 1000, 1));
    var es := [Failure(U64_MAX, health), Failure(U64_MAX, health)];
    assert After(n, es, 0) == n;
    assert After(n, es, 1) == n.Failed(U64_MAX, health);
    assert After(n, es, 2) == n.Failed(U64_MAX, health).Failed(U64_MAX, health);
    RearmsInstantlyExactlyWhen(n, U64_MAX, health);
  }
}
