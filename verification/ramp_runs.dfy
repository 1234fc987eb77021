/** The reinstatement ramp over whole runs of one backend: exactly when it steps, and
    what it stands at. */
module RampRuns {
  import opened Prelude
  import opened Ewma
  import opened Breaker
  import opened Backends
  import opened BackendRuns

  /** The event brings an ejected node back at partial weight: a poll with the latency
      layer on that finds its ejection over. */
  ghost predicate Reinstates(n: Node, e: Event) {
    e.Poll? && e.ewma.Some? && n.ejectedUntil.Some? && n.ejectedUntil.value <= e.now
  }

  /** The percentage a poll brings a node back at. */
  function StartPercent(e: Event): nat {
    if e.Poll? && e.ewma.Some? then Max(1, Min(e.ewma.value.reinstatePercent, 100)) else 100
  }

  /** The percentage before any step the event may take. */
  ghost function PercentBefore(n: Node, e: Event): nat {
    if Reinstates(n, e) then StartPercent(e) else n.rampPercent
  }

  /** The event takes a ramp step. */
  ghost predicate Steps(n: Node, e: Event) {
    Apply(n, e).rampPercent != PercentBefore(n, e)
  }

  function RampWindowMs(e: Event): u64 {
    if e.Poll? && e.ewma.Some? then e.ewma.value.rampWindowMs else 0
  }

  /** The node may step if its ramp window has passed: the layer is on, no ejection is
      running, and it is below full weight. */
  ghost predicate MayStep(n: Node, e: Event) {
    && e.Poll? && e.ewma.Some? && PercentBefore(n, e) < 100
    && (n.ejectedUntil.Some? ==> n.ejectedUntil.value <= e.now)
  }

  /** What one event does to the ramp. */
  lemma {:induction false} RampEvent(n: Node, e: Event)
    requires 1 <= n.rampPercent <= 100
    ensures var n', clock := Apply(n, e), if Reinstates(n, e) then Some(e.now) else n.lastRampStep;
            && 1 <= n'.rampPercent <= 100
            && (Steps(n, e) <==> MayStep(n, e) && (clock.Some? ==> SatSub(e.now, clock.value) >= RampWindowMs(e)))
            && n'.rampPercent == (if Steps(n, e) then Min(100, 2 * PercentBefore(n, e)) else PercentBefore(n, e))
            && n'.lastRampStep == (if Steps(n, e) then Some(e.now) else clock)
  {
    hide Circuit.Polled, Circuit.Succeeded, Circuit.Failed, EwmaConfig.Fold;
    if e.Poll? {
      PollRamps(n, e);
    }
  }

  lemma {:induction false} PollRamps(n: Node, e: Event)
    requires e.Poll? && 1 <= n.rampPercent <= 100
    ensures var n', clock := Apply(n, e), if Reinstates(n, e) then Some(e.now) else n.lastRampStep;
            var due := MayStep(n, e) && (clock.Some? ==> SatSub(e.now, clock.value) >= RampWindowMs(e));
            && n'.rampPercent == (if due then Min(100, 2 * PercentBefore(n, e)) else PercentBefore(n, e))
            && n'.lastRampStep == (if due then Some(e.now) else clock)
  {
    hide Circuit.Polled, Node.Judged;
    if e.ewma.Some? {
      JudgedKeeps(n.Standing(e.now, e.ewma.value), e.now, e.ewma.value, e.line);
    }
  }

  // ---- over runs -------------------------------------------------------------

  /** Event `j` moves the ramp: a step or a reinstatement. */
  ghost predicate Moves(n: Node, es: seq<Event>, j: nat)
    requires j < |es|
  {
    Steps(After(n, es, j), es[j]) || Reinstates(After(n, es, j), es[j])
  }

  /** The node remembers when its ramp last moved. */
  lemma {:induction false} LastMove(n: Node, es: seq<Event>, k: nat)
    requires k <= |es| && Timely(es) && 1 <= n.rampPercent <= 100 && n.lastRampStep.None?
    ensures var q := After(n, es, k);
            && 1 <= q.rampPercent <= 100
            && (q.lastRampStep.None? ==> forall j :: 0 <= j < k ==> !Moves(n, es, j))
            && (q.lastRampStep.Some? ==>
                  && (exists j :: 0 <= j < k && Moves(n, es, j) && es[j].now == q.lastRampStep.value)
                  && (forall j :: 0 <= j < k && Moves(n, es, j) ==> es[j].now <= q.lastRampStep.value))
  {
    hide Apply, Reinstates, Steps, MayStep, PercentBefore;
    if k > 0 {
      LastMove(n, es, k - 1);
      RampEvent(After(n, es, k - 1), es[k - 1]);
      forall j | 0 <= j < k ensures es[j].now <= es[k - 1].now {
        assert j < k - 1 ==> es[j].now <= es[k - 1].now;
      }
      if Moves(n, es, k - 1) {
        assert After(n, es, k).lastRampStep == Some(es[k - 1].now);
      } else {
        assert After(n, es, k).lastRampStep == After(n, es, k - 1).lastRampStep;
      }
    }
  }

  /** Exactly when the ramp steps, over every run from a backend that was never
      reinstated, on a clock that never goes back: a poll with the layer on finds the
      node below full weight with no ejection running, and one ramp window has passed
      since every step and reinstatement before, the one at this poll included. */
  lemma {:induction false} StepsExactlyWhen(n: Node, es: seq<Event>, k: nat)
    requires k < |es| && Timely(es) && 1 <= n.rampPercent <= 100 && n.lastRampStep.None?
    ensures Steps(After(n, es, k), es[k])
            <==> && MayStep(After(n, es, k), es[k])
                 && (forall j :: 0 <= j < k && Moves(n, es, j) ==> es[j].now + RampWindowMs(es[k]) <= es[k].now)
                 && (Reinstates(After(n, es, k), es[k]) ==> RampWindowMs(es[k]) == 0)
  {
    hide Apply, After, Steps, MayStep, PercentBefore;
    LastMove(n, es, k);
    var q := After(n, es, k);
    RampEvent(q, es[k]);
    forall j | 0 <= j < k ensures es[j].now <= es[k].now {
    }
    if q.lastRampStep.Some? {
      var j :| 0 <= j < k && Moves(n, es, j) && es[j].now == q.lastRampStep.value;
    }
  }

  /** Steps taken from event `i` on, one that comes with event `i` included. */
  ghost function StepsTaken(n: Node, es: seq<Event>, i: nat, k: nat): nat
    requires i <= k <= |es|
    decreases k
  {
    if i == k then 0
    else StepsTaken(n, es, i, k - 1) + (if Steps(After(n, es, k - 1), es[k - 1]) then 1 else 0)
  }

  /** From event `i` on, as long as no later event reinstates the node, the ramp stands
      at its percentage then, doubled at each step and capped; so it is full after at
      most seven steps, and takes no eighth. */
  lemma {:induction false} RampDoubles(n: Node, es: seq<Event>, i: nat, k: nat)
    requires i < k <= |es| && 1 <= n.rampPercent <= 100
    requires forall j :: i < j < k ==> !Reinstates(After(n, es, j), es[j])
    ensures 1 <= PercentBefore(After(n, es, i), es[i]) <= 100
    ensures After(n, es, k).rampPercent
            == Min(100, PercentBefore(After(n, es, i), es[i]) * Pow2(StepsTaken(n, es, i, k)))
    ensures StepsTaken(n, es, i, k) <= 7
    ensures StepsTaken(n, es, i, k) == 7 ==> After(n, es, k).rampPercent == 100
    decreases k
  {
    hide Apply, Steps, Reinstates, MayStep, Pow2;
    RampInRange(n, es, i);
    RampInRange(n, es, k - 1);
    var q, e, r := After(n, es, k - 1), es[k - 1], PercentBefore(After(n, es, i), es[i]);
    RampEvent(q, e);
    StepBelowFull(q, e);
    if i < k - 1 {
      RampDoubles(n, es, i, k - 1);
      DoubledRamp(r, StepsTaken(n, es, i, k - 1), PercentBefore(q, e), Steps(q, e));
    } else {
      Pow2Values();
      assert StepsTaken(n, es, i, i) == 0;
      DoubledRamp(r, 0, r, Steps(q, e));
    }
  }

  lemma {:induction false} StepBelowFull(n: Node, e: Event)
    requires 1 <= n.rampPercent <= 100
    ensures Steps(n, e) ==> PercentBefore(n, e) < 100
  {
    hide Apply;
    RampEvent(n, e);
  }

  lemma {:induction false} Pow2Values()
    ensures Pow2(0) == 1 && Pow2(1) == 2 && Pow2(2) == 4 && Pow2(3) == 8
    ensures Pow2(4) == 16 && Pow2(5) == 32 && Pow2(6) == 64 && Pow2(7) == 128
  {
  }

  /** One more step, or none, after `t` steps from `r`. */
  lemma {:induction false} DoubledRamp(r: nat, t: nat, before: nat, steps: bool)
    requires 1 <= r && t <= 7 && before == Min(100, r * Pow2(t)) && (steps ==> before < 100)
    ensures var t' := t + (if steps then 1 else 0);
            && (if steps then Min(100, 2 * before) else before) == Min(100, r * Pow2(t'))
            && t' <= 7 && (t' == 7 ==> r * Pow2(t') >= 100)
  {
    Pow2Values();
    assert Pow2(t + 1) == 2 * Pow2(t);
  }

  lemma {:induction false} RampInRange(n: Node, es: seq<Event>, k: nat)
    requires k <= |es| && 1 <= n.rampPercent <= 100
    ensures 1 <= After(n, es, k).rampPercent <= 100
  {
    hide Apply, Steps, MayStep, Reinstates, PercentBefore;
    if k > 0 {
      RampInRange(n, es, k - 1);
      RampEvent(After(n, es, k - 1), es[k - 1]);
    }
  }

  /** A backend that was never reinstated at partial weight is at full weight. */
  lemma {:induction false} FullUntilReinstated(n: Node, es: seq<Event>, k: nat)
    requires k <= |es| && n.rampPercent == 100
    requires forall j :: 0 <= j < k ==> !Reinstates(After(n, es, j), es[j])
    ensures After(n, es, k).rampPercent == 100
  {
    hide Apply, Steps, Reinstates;
    if k > 0 {
      FullUntilReinstated(n, es, k - 1);
      RampEvent(After(n, es, k - 1), es[k - 1]);
    }
  }
}
