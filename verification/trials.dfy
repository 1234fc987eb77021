/** Overlapping calls to one backend: the half-open trial cap under every
    interleaving of polls, calls that begin and end, outcomes and probes. */
module Trials {
  import opened Prelude
  import opened Breaker
  import opened Backends
  import opened BackendRuns
  import Circuits = BreakerRuns

  // ---- calls ---------------------------------------------------------------

  /** The calls in flight after `k` events. A call is named by the position of the
      event that began it; `call[j]` names the call that an `End` at `j` finishes. */
  ghost function InFlight(es: seq<Event>, call: seq<nat>, k: nat): (calls: set<nat>)
    requires k <= |es| == |call|
    ensures forall b :: b in calls ==> b < k && es[b].Begin?
  {
    if k == 0 then {}
    else
      match es[k - 1]
      case Begin(_) => InFlight(es, call, k - 1) + {k - 1}
      case End(_) => InFlight(es, call, k - 1) - {call[k - 1]}
      case _ => InFlight(es, call, k - 1)
  }

  /** Every `End` finishes a call that is in flight. */
  ghost predicate Matched(es: seq<Event>, call: seq<nat>) {
    |es| == |call| && forall j :: 0 <= j < |es| && es[j].End? ==> call[j] in InFlight(es, call, j)
  }

  /** From event `b` up to event `k` the breaker has been on one trial: it was not
      closed at `b`, it is not closed at `k`, and it has not tripped in between. */
  ghost predicate OneTrial(n: Node, es: seq<Event>, b: nat, k: nat)
    requires b <= |es| && k <= |es|
  {
    var c, c' := After(n, es, b).circuit, After(n, es, k).circuit;
    !c.state.Closed? && !c'.state.Closed? && c.trips == c'.trips
  }

  /** The calls in flight after `k` events that began in the trial now running. */
  ghost function TrialCalls(n: Node, es: seq<Event>, call: seq<nat>, k: nat): set<nat>
    requires k <= |es| == |call|
  {
    set b | b in InFlight(es, call, k) && OneTrial(n, es, b, k)
  }

  // ---- admission -----------------------------------------------------------

  /** What a caller looks at before a call: the backend is available, and its
      breaker has been polled at this instant. */
  ghost predicate Checked(n: Node, now: u64) {
    n.IsAvailable(now) && n.circuit.Polled(now) == n.circuit
  }

  ghost predicate NoBegin(es: seq<Event>, c: nat, k: nat)
    requires k <= |es|
  {
    forall j :: c <= j < k ==> !es[j].Begin?
  }

  /** A call that begins at event `k` is guarded: the backend was checked at some
      point before, and no other call to it began since. */
  ghost predicate Guarded(n: Node, es: seq<Event>, k: nat)
    requires k <= |es|
  {
    exists c: nat, now: u64 :: c <= k && Checked(After(n, es, c), now) && NoBegin(es, c, k)
  }

  lemma {:induction false} CheckedMeans(n: Node, now: u64)
    requires Checked(n, now)
    ensures || n.circuit.state.Closed?
            || (n.circuit.state.HalfOpen? && n.inFlight < Max(n.circuit.cfg.halfOpenMaxCalls, 1))
  {
  }

  // ---- counting calls --------------------------------------------------------

  lemma {:induction false} CountStep(n: Node, e: Event)
    ensures Apply(n, e).inFlight
            == match e case Begin(_) => n.inFlight + 1 case End(_) => SatSub(n.inFlight, 1) case _ => n.inFlight
    ensures e.Begin? ==> Apply(n, e).circuit == n.circuit
  {
    hide Node.Polled, Circuit.Polled, Circuit.Succeeded, Circuit.Failed;
    if e.Poll? {
      PollKeeps(n, e.now, e.ewma, e.line);
    }
  }

  /** The in-flight counter is the number of calls in flight. */
  lemma {:induction false} InFlightCounts(n: Node, es: seq<Event>, call: seq<nat>, k: nat)
    requires k <= |es| && Matched(es, call) && n.inFlight == 0
    ensures After(n, es, k).inFlight == |InFlight(es, call, k)|
  {
    hide Apply, InFlight;
    if k == 0 {
      InFlightStart(es, call);
    } else {
      InFlightCounts(n, es, call, k - 1);
      InFlightStep(es, call, k - 1);
      CountStep(After(n, es, k - 1), es[k - 1]);
    }
  }

  lemma {:induction false} InFlightStart(es: seq<Event>, call: seq<nat>)
    requires |es| == |call|
    ensures InFlight(es, call, 0) == {}
  {
  }

  lemma {:induction false} InFlightStep(es: seq<Event>, call: seq<nat>, k: nat)
    requires k < |es| && Matched(es, call)
    ensures |InFlight(es, call, k + 1)|
            == match es[k]
               case Begin(_) => |InFlight(es, call, k)| + 1
               case End(_) => |InFlight(es, call, k)| - 1
               case _ => |InFlight(es, call, k)|
    ensures es[k].End? ==> |InFlight(es, call, k)| > 0
  {
    if es[k].End? {
      assert call[k] in InFlight(es, call, k);
    }
  }

  lemma {:induction false} CountFallsWithoutBegin(n: Node, es: seq<Event>, c: nat, k: nat)
    requires c <= k <= |es| && NoBegin(es, c, k)
    ensures After(n, es, k).inFlight <= After(n, es, c).inFlight
    decreases k
  {
    hide Apply;
    if c < k {
      CountFallsWithoutBegin(n, es, c, k - 1);
      CountStep(After(n, es, k - 1), es[k - 1]);
    }
  }

  lemma {:induction false} NothingNewWithoutBegin(es: seq<Event>, call: seq<nat>, c: nat, k: nat)
    requires c <= k <= |es| == |call| && NoBegin(es, c, k)
    ensures InFlight(es, call, k) <= InFlight(es, call, c)
    decreases k
  {
    if c < k {
      NothingNewWithoutBegin(es, call, c, k - 1);
    }
  }

  lemma {:induction false} SubsetCard(a: set<nat>, b: set<nat>)
    requires a <= b
    ensures |a| <= |b|
  {
    assert b == a + (b - a);
  }

  // ---- trials ----------------------------------------------------------------

  lemma {:induction false} TripsOverRun(n: Node, es: seq<Event>, i: nat, k: nat)
    requires i <= k <= |es|
    ensures After(n, es, k).circuit.cfg == n.circuit.cfg
    ensures After(n, es, i).circuit.trips <= After(n, es, k).circuit.trips
    ensures After(n, es, i).circuit.state.Closed? && After(n, es, k).circuit.trips == After(n, es, i).circuit.trips
            ==> After(n, es, k).circuit.state.Closed?
  {
    hide After, Circuits.After;
    CircuitRunsInBackend(n, es, i);
    CircuitRunsInBackend(n, es, k);
    Circuits.CfgKept(n.circuit, CircuitEvents(es), k);
    Circuits.TripsGrow(n.circuit, CircuitEvents(es), i, k);
    if After(n, es, i).circuit.state.Closed? {
      Circuits.ClosedUntilTrip(n.circuit, CircuitEvents(es), i, k);
    }
  }

  /** A trial that spans two points spans every point in between. */
  lemma {:induction false} TrialSpans(n: Node, es: seq<Event>, b: nat, c: nat, k: nat)
    requires b <= c <= k <= |es| && OneTrial(n, es, b, k)
    ensures OneTrial(n, es, b, c) && OneTrial(n, es, c, k)
  {
    hide After;
    TripsOverRun(n, es, b, c);
    TripsOverRun(n, es, c, k);
  }

  /** One event adds at most the call it begins to the trial. */
  lemma {:induction false} TrialStep(n: Node, es: seq<Event>, call: seq<nat>, k: nat)
    requires k < |es| == |call|
    ensures TrialCalls(n, es, call, k + 1) <= TrialCalls(n, es, call, k) + (if es[k].Begin? then {k} else {})
    ensures es[k].Begin? && !After(n, es, k).circuit.state.Closed?
            ==> TrialCalls(n, es, call, k + 1) == TrialCalls(n, es, call, k) + {k}
    ensures es[k].Begin? && After(n, es, k).circuit.state.Closed? ==> TrialCalls(n, es, call, k + 1) == {}
  {
    hide Apply, OneTrial;
    CountStep(After(n, es, k), es[k]);
    forall b | b in TrialCalls(n, es, call, k + 1) ensures b == k || b in TrialCalls(n, es, call, k) {
      TrialSpans(n, es, b, k, k + 1);
    }
    if es[k].Begin? {
      SameCircuitSameTrial(n, es, k);
      if After(n, es, k + 1).circuit.state.Closed? {
        NoTrialWhenClosed(n, es, call, k + 1);
      }
    }
  }

  lemma {:induction false} NoTrialWhenClosed(n: Node, es: seq<Event>, call: seq<nat>, k: nat)
    requires k <= |es| == |call| && After(n, es, k).circuit.state.Closed?
    ensures TrialCalls(n, es, call, k) == {}
  {
  }

  lemma {:induction false} SameCircuitSameTrial(n: Node, es: seq<Event>, k: nat)
    requires k < |es| && After(n, es, k + 1).circuit == After(n, es, k).circuit
    ensures forall b :: 0 <= b <= k ==> OneTrial(n, es, b, k + 1) == OneTrial(n, es, b, k)
    ensures !After(n, es, k).circuit.state.Closed? ==> OneTrial(n, es, k, k)
  {
    hide After;
  }

  /** When a guarded call begins, either the breaker is closed or the trial has a
      free slot. */
  lemma {:induction false} GuardedFindsSlot(n: Node, es: seq<Event>, call: seq<nat>, k: nat)
    requires k <= |es| && Matched(es, call) && n.inFlight == 0 && Guarded(n, es, k)
    ensures || After(n, es, k).circuit.state.Closed?
            || |TrialCalls(n, es, call, k)| < Max(n.circuit.cfg.halfOpenMaxCalls, 1)
  {
    hide After, Checked, OneTrial, InFlight;
    var c: nat, now: u64 :| c <= k && Checked(After(n, es, c), now) && NoBegin(es, c, k);
    CheckedMeans(After(n, es, c), now);
    TripsOverRun(n, es, c, c);
    NothingNewWithoutBegin(es, call, c, k);
    if OneTrial(n, es, c, k) {
      InFlightCounts(n, es, call, k);
      CountFallsWithoutBegin(n, es, c, k);
      SubsetCard(TrialCalls(n, es, call, k), InFlight(es, call, k));
      OpenAtBothEnds(n, es, c, k);
    } else {
      forall b | b in TrialCalls(n, es, call, k) ensures false {
        TrialSpans(n, es, b, c, k);
      }
      assert TrialCalls(n, es, call, k) == {};
    }
  }

  lemma {:induction false} OpenAtBothEnds(n: Node, es: seq<Event>, b: nat, k: nat)
    requires b <= |es| && k <= |es| && OneTrial(n, es, b, k)
    ensures !After(n, es, b).circuit.state.Closed? && !After(n, es, k).circuit.state.Closed?
  {
  }

  /** Half-open cap: on every run in which each call that begins is guarded, and
      whatever the order of polls, calls, outcomes and probes, the calls in flight
      that began since the breaker last tripped number at most
      `max(half_open_max_calls, 1)` until it closes, older calls outstanding or
      not. The in-flight counter is the number of calls in flight. */
  lemma {:induction false} HalfOpenCap(n: Node, es: seq<Event>, call: seq<nat>, k: nat)
    requires k <= |es| && Matched(es, call) && n.inFlight == 0
    requires forall j :: 0 <= j < k && es[j].Begin? ==> Guarded(n, es, j)
    ensures |TrialCalls(n, es, call, k)| <= Max(n.circuit.cfg.halfOpenMaxCalls, 1)
    ensures After(n, es, k).inFlight == |InFlight(es, call, k)|
  {
    hide After, Guarded, TrialCalls, InFlight;
    InFlightCounts(n, es, call, k);
    if k == 0 {
      NoCallsAtStart(n, es, call);
    } else {
      HalfOpenCap(n, es, call, k - 1);
      TrialStep(n, es, call, k - 1);
      var before := TrialCalls(n, es, call, k - 1);
      if es[k - 1].Begin? {
        GuardedFindsSlot(n, es, call, k - 1);
      } else {
        SubsetCard(TrialCalls(n, es, call, k), before);
      }
    }
  }

  lemma {:induction false} NoCallsAtStart(n: Node, es: seq<Event>, call: seq<nat>)
    requires |es| == |call|
    ensures TrialCalls(n, es, call, 0) == {}
  {
  }

  /** And availability is the exact guard: with no older call outstanding, one more
      call to a HalfOpen backend that is healthy and not ejected breaks the cap
      exactly when the backend is not available. */
  lemma {:induction false} BreaksCapExactlyWhen(n: Node, es: seq<Event>, call: seq<nat>, k: nat)
    requires k < |es| && Matched(es, call) && n.inFlight == 0 && es[k].Begin?
    requires var q := After(n, es, k); q.circuit.state.HalfOpen? && q.healthy && !q.IsEjected(es[k].now)
    requires TrialCalls(n, es, call, k) == InFlight(es, call, k)
    ensures |TrialCalls(n, es, call, k + 1)| > Max(n.circuit.cfg.halfOpenMaxCalls, 1)
            <==> !After(n, es, k).IsAvailable(es[k].now)
  {
    hide After, TrialCalls, InFlight, Guarded;
    InFlightCounts(n, es, call, k);
    TrialStep(n, es, call, k);
    TripsOverRun(n, es, k, k);
    NamesOnlyPast(es, call, k);
  }

  lemma {:induction false} NamesOnlyPast(es: seq<Event>, call: seq<nat>, k: nat)
    requires k <= |es| == |call|
    ensures k !in InFlight(es, call, k)
  {
  }
}
