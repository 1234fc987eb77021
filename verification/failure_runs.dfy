/** Failures in a row over whole runs of one backend: what the count holds, exactly
    when a failure ejects, and when the backend is out. */
module FailureRuns {
  import opened Prelude
  import opened Ewma
  import opened Breaker
  import opened Backends
  import opened BackendRuns

  /** An ejection that has run its course is found over at this poll. */
  ghost predicate EndsEjection(n: Node, e: Event) {
    e.Poll? && n.ejectedUntil.Some? && n.ejectedUntil.value <= e.now
  }

  /** Failures since the last success, or since the poll that last ended an
      ejection. */
  ghost function FailuresInARow(n: Node, es: seq<Event>, k: nat): nat
    requires k <= |es|
  {
    if k == 0 then 0
    else if es[k - 1].Failure? then FailuresInARow(n, es, k - 1) + 1
    else if es[k - 1].Success? || es[k - 1].TimedSuccess? || EndsEjection(After(n, es, k - 1), es[k - 1]) then 0
    else FailuresInARow(n, es, k - 1)
  }

  lemma {:induction false} FailureCountStep(n: Node, e: Event)
    ensures Apply(n, e).outlierFailures
            == if e.Failure? then n.outlierFailures + 1
               else if e.Success? || e.TimedSuccess? || EndsEjection(n, e) then 0
               else n.outlierFailures
  {
    hide Circuit.Polled, Circuit.Succeeded, Circuit.Failed, EwmaConfig.Fold, Node.Ramped, Node.Judged;
    if e.Poll? && e.ewma.Some? {
      var back := n.(circuit := n.circuit.Polled(e.now)).Reinstated(e.now, e.ewma);
      RampKeepsFailures(back, e.now, e.ewma.value);
      JudgedKeeps(back.Ramped(e.now, e.ewma.value), e.now, e.ewma.value, e.line);
    }
  }

  lemma {:induction false} RampKeepsFailures(n: Node, now: u64, cfg: EwmaConfig)
    ensures n.Ramped(now, cfg).outlierFailures == n.outlierFailures
  {
  }

  /** The count in a backend is the failures in a row. */
  lemma {:induction false} CountsFailuresInARow(n: Node, es: seq<Event>, k: nat)
    requires k <= |es| && n.outlierFailures == 0
    ensures After(n, es, k).outlierFailures == FailuresInARow(n, es, k)
  {
    hide Apply, EndsEjection;
    if k > 0 {
      CountsFailuresInARow(n, es, k - 1);
      FailureCountStep(After(n, es, k - 1), es[k - 1]);
    }
  }

  lemma {:induction false} FailureEjectionStep(n: Node, e: Event)
    ensures Apply(n, e).ejections
            == n.ejections
               + if e.Failure? && n.outlierFailures + 1 >= e.health.outlierConsecutiveFailures
                    && !(n.ejectedUntil.Some? && e.now < n.ejectedUntil.value)
                 then 1 else 0
  {
    hide Node.Polled, Circuit.Succeeded, Circuit.Failed, EwmaConfig.Fold;
    if e.Poll? {
      PollKeeps(n, e.now, e.ewma, e.line);
    }
  }

  /** Exactly when an ejection for failures is counted, over every run: at a failure
      that makes the failures in a row reach the threshold while no ejection is
      running; and then exactly one is. */
  lemma {:induction false} FailureEjectsExactlyWhen(n: Node, es: seq<Event>, k: nat)
    requires k < |es| && n.outlierFailures == 0
    ensures var q, q' := After(n, es, k), After(n, es, k + 1);
            && q.ejections <= q'.ejections <= q.ejections + 1
            && (q'.ejections > q.ejections
                <==> && es[k].Failure? && FailuresInARow(n, es, k) + 1 >= es[k].health.outlierConsecutiveFailures
                     && !(q.ejectedUntil.Some? && es[k].now < q.ejectedUntil.value))
  {
    hide Apply, FailuresInARow;
    CountsFailuresInARow(n, es, k);
    FailureEjectionStep(After(n, es, k), es[k]);
  }

  /** A backend is out at an instant exactly while the latest ejection of its history,
      of either kind, has not ended. */
  lemma {:induction false} OutExactlyWhile(n: Node, es: seq<Event>, k: nat, now: u64)
    requires k <= |es| && Timely(es) && n.ejectedUntil.None? && (k > 0 ==> es[k - 1].now <= now)
    ensures var arms := Armings(n, es, k);
            After(n, es, k).IsEjected(now) <==> |arms| > 0 && now < arms[|arms| - 1].Until()
  {
    hide Apply, ArmedBy;
    ArmingHistory(n, es, k);
  }
}
