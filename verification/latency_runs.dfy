/** The latency layer over whole runs of one backend: what the average reports, and
    exactly when a poll ejects for it. */
module LatencyRuns {
  import opened Prelude
  import opened Ewma
  import opened Breaker
  import opened Backends
  import opened BackendRuns

  // ---- the average ---------------------------------------------------------

  /** The event brings a latency into the average. */
  predicate IsSample(e: Event) {
    e.TimedSuccess? && e.ewma.Some?
  }

  /** New samples between two points of a run. */
  ghost function SamplesBetween(es: seq<Event>, i: nat, k: nat): nat
    requires i <= k <= |es|
    decreases k
  {
    if i == k then 0 else SamplesBetween(es, i, k - 1) + (if IsSample(es[k - 1]) then 1 else 0)
  }

  lemma {:induction false} SampleStep(n: Node, e: Event)
    ensures Apply(n, e).ewmaSamples == n.ewmaSamples + (if IsSample(e) then 1 else 0)
    ensures Apply(n, e).latencyEwmaMilli
            == if IsSample(e) then Some(e.ewma.value.Fold(n.latencyEwmaMilli, e.latencyMs)) else n.latencyEwmaMilli
  {
    hide Node.Polled, Circuit.Succeeded, Circuit.Failed, EwmaConfig.Fold;
    if e.Poll? {
      PollKeeps(n, e.now, e.ewma, e.line);
    }
  }

  lemma {:induction false} SamplesCounted(n: Node, es: seq<Event>, i: nat, k: nat)
    requires i <= k <= |es|
    ensures After(n, es, k).ewmaSamples == After(n, es, i).ewmaSamples + SamplesBetween(es, i, k)
  {
    hide Apply;
    if i < k {
      SamplesCounted(n, es, i, k - 1);
      SampleStep(After(n, es, k - 1), es[k - 1]);
    }
  }

  /** A backend that starts without a sample has an average exactly once one has
      arrived, and while all latencies lie between `lo` and `hi` so does the average.
      In particular a constant latency is reported exactly, from the first sample
      on. Configurations may change at every sample. */
  lemma {:induction false} AverageReportsLatencies(n: Node, es: seq<Event>, lo: u64, hi: u64, k: nat)
    requires k <= |es| && n.latencyEwmaMilli.None?
    requires forall i :: 0 <= i < k && IsSample(es[i]) ==> lo <= es[i].latencyMs <= hi
    ensures var average := After(n, es, k).latencyEwmaMilli;
            && (average.None? <==> SamplesBetween(es, 0, k) == 0)
            && (average.Some? ==> Min(1000 * lo, U64_MAX) <= average.value <= Min(1000 * hi, U64_MAX))
  {
    hide Apply, EwmaConfig.Fold;
    if k > 0 {
      AverageReportsLatencies(n, es, lo, hi, k - 1);
      var before := After(n, es, k - 1).latencyEwmaMilli;
      SampleStep(After(n, es, k - 1), es[k - 1]);
      if IsSample(es[k - 1]) {
        FoldStaysBetween(es[k - 1].ewma.value, before, es[k - 1].latencyMs, lo, hi);
      }
    }
  }

  lemma {:induction false} FoldStaysBetween(cfg: EwmaConfig, current: Option<u64>, latencyMs: u64, lo: u64, hi: u64)
    requires lo <= latencyMs <= hi
    requires current.Some? ==> Min(1000 * lo, U64_MAX) <= current.value <= Min(1000 * hi, U64_MAX)
    ensures Min(1000 * lo, U64_MAX) <= cfg.Fold(current, latencyMs) <= Min(1000 * hi, U64_MAX)
  {
    match current
    case None =>
    case Some(prev) =>
      hide EwmaConfig.Fold;
      FoldRounds(cfg, prev, latencyMs);
  }

  // ---- judgement -----------------------------------------------------------

  /** The poll ejects the node for its latency. */
  ghost predicate LatencyEjects(n: Node, e: Event) {
    e.Poll? && Apply(n, e).ewmaEjections > n.ewmaEjections
  }

  /** The latency configuration of a poll, in the parts an ejection needs. */
  function EjectionMs(e: Event): u64 {
    if e.Poll? && e.ewma.Some? then e.ewma.value.ejectionMs else 0
  }

  function WindowMs(e: Event): u64 {
    if e.Poll? && e.ewma.Some? then e.ewma.value.windowMs else 0
  }

  function MinSamples(e: Event): u32 {
    if e.Poll? && e.ewma.Some? then e.ewma.value.minSamples else 0
  }

  /** The event judges the node: a poll with the latency layer on that finds no
      ejection running. */
  ghost predicate Judges(n: Node, e: Event) {
    e.Poll? && e.ewma.Some? && (n.ejectedUntil.Some? ==> n.ejectedUntil.value <= e.now)
  }

  /** It has samples enough and its average is above the line of the poll. */
  ghost predicate FoundOver(n: Node, e: Event) {
    && e.Poll? && e.ewma.Some? && e.ewma.value.minSamples <= n.ewmaSamples
    && n.latencyEwmaMilli.Some? && n.latencyEwmaMilli.value > e.line
  }

  /** A window opened by poll `j` is ripe at poll `k`: it is as long as the
      configuration asks, and has seen as many samples. */
  ghost predicate Ripe(es: seq<Event>, j: nat, k: nat)
    requires j <= k < |es|
  {
    es[j].now + WindowMs(es[k]) <= es[k].now && SamplesBetween(es, j, k) >= MinSamples(es[k])
  }

  /** The poll that opened the window open after `k` events, looking back to event
      `a`: a judgement over the line opens one if none is open, a judgement not over
      the line closes it, and so does the judgement that finds it ripe. */
  ghost function Window(n: Node, es: seq<Event>, a: nat, k: nat): (w: Option<nat>)
    requires a <= k <= |es|
    ensures w.Some? ==> a <= w.value < k
    decreases k
  {
    if k == a then None
    else
      var before, q, e := Window(n, es, a, k - 1), After(n, es, k - 1), es[k - 1];
      if !Judges(q, e) then before
      else if !FoundOver(q, e) then None
      else if before.None? then Some(k - 1)
      else if Ripe(es, before.value, k - 1) then None
      else before
  }

  /** What one event does to the window kept in the node. */
  lemma {:induction false} JudgementStep(n: Node, e: Event)
    ensures var n' := Apply(n, e);
            if !Judges(n, e) then
              !LatencyEjects(n, e) && n'.overSince == n.overSince && n'.overSinceSamples == n.overSinceSamples
            else if !FoundOver(n, e) then !LatencyEjects(n, e) && n'.overSince.None?
            else if n.overSince.None? then
              !LatencyEjects(n, e) && n'.overSince == Some(e.now) && n'.overSinceSamples == n.ewmaSamples
            else if SatSub(e.now, n.overSince.value) >= WindowMs(e)
                    && SatSub(n.ewmaSamples, n.overSinceSamples) >= MinSamples(e) then
              LatencyEjects(n, e) && n'.overSince.None? && n'.ejectedUntil == Some(SatAdd(e.now, EjectionMs(e)))
            else !LatencyEjects(n, e) && n'.overSince == n.overSince && n'.overSinceSamples == n.overSinceSamples
  {
    if !e.Poll? {
      WindowUntouched(n, e);
    } else if e.ewma.Some? {
      StandingForJudgement(n, e.now, e.ewma.value);
      hide Node.Standing;
    }
  }

  lemma {:induction false} StandingForJudgement(n: Node, now: u64, cfg: EwmaConfig)
    ensures var s := n.Standing(now, cfg);
            && (s.ejectedUntil.None? <==> (n.ejectedUntil.Some? ==> n.ejectedUntil.value <= now))
            && s.overSince == n.overSince && s.overSinceSamples == n.overSinceSamples
            && s.ewmaSamples == n.ewmaSamples && s.latencyEwmaMilli == n.latencyEwmaMilli
            && s.ewmaEjections == n.ewmaEjections
  {
    hide Circuit.Polled;
  }

  lemma {:induction false} WindowUntouched(n: Node, e: Event)
    requires !e.Poll?
    ensures Apply(n, e).overSince == n.overSince && Apply(n, e).overSinceSamples == n.overSinceSamples
  {
    hide Circuit.Polled, Circuit.Succeeded, Circuit.Failed, EwmaConfig.Fold;
  }

  /** The node keeps exactly the window that the history says. */
  lemma {:induction false} WindowTracks(n: Node, es: seq<Event>, a: nat, k: nat)
    requires a <= k <= |es| && Timely(es) && After(n, es, a).overSince.None?
    ensures match Window(n, es, a, k)
            case None => After(n, es, k).overSince.None?
            case Some(j) => After(n, es, k).overSince == Some(es[j].now)
                            && After(n, es, k).overSinceSamples == After(n, es, j).ewmaSamples
    decreases k
  {
    hide Apply, Judges, FoundOver, LatencyEjects;
    if a < k {
      WindowTracks(n, es, a, k - 1);
      JudgementStep(After(n, es, k - 1), es[k - 1]);
      var w := Window(n, es, a, k - 1);
      if w.Some? {
        SamplesCounted(n, es, w.value, k - 1);
        assert es[w.value].now <= es[k - 1].now;
      }
    }
  }

  /** Exactly when a poll ejects for latency, over every run on a clock that never
      goes back: no ejection is running, the node has samples enough and is over the
      line, and it has been over the line at every judgement since a poll one window
      or more before, with enough new samples since that poll. */
  lemma {:induction false} LatencyEjectsExactlyWhen(n: Node, es: seq<Event>, a: nat, k: nat)
    requires a <= k < |es| && Timely(es) && After(n, es, a).overSince.None?
    ensures LatencyEjects(After(n, es, k), es[k])
            <==> && Judges(After(n, es, k), es[k]) && FoundOver(After(n, es, k), es[k])
                 && Window(n, es, a, k).Some? && Ripe(es, Window(n, es, a, k).value, k)
    ensures LatencyEjects(After(n, es, k), es[k])
            ==> && After(n, es, k + 1).overSince.None?
                && After(n, es, k + 1).ejectedUntil == Some(SatAdd(es[k].now, EjectionMs(es[k])))
  {
    hide Apply, Judges, FoundOver, LatencyEjects;
    WindowTracks(n, es, a, k);
    JudgementStep(After(n, es, k), es[k]);
    var w := Window(n, es, a, k);
    if w.Some? {
      SamplesCounted(n, es, w.value, k);
      assert es[w.value].now <= es[k].now;
    }
  }

  // ---- what stands behind an ejection ----------------------------------------

  /** `j` is a poll that found no window open and opened one, and the node was over
      the line at it and at every judgement since, up to event `k`; none of them
      ejected it for latency. */
  ghost predicate OpenedAt(n: Node, es: seq<Event>, j: nat, k: nat)
    requires j < k <= |es|
  {
    && Judges(After(n, es, j), es[j])
    && After(n, es, j).overSince.None? && After(n, es, j + 1).overSince == Some(es[j].now)
    && (forall i :: j <= i < k && Judges(After(n, es, i), es[i]) ==> FoundOver(After(n, es, i), es[i]))
    && (forall i :: j <= i < k ==> !LatencyEjects(After(n, es, i), es[i]))
  }

  lemma {:induction false} WindowMeans(n: Node, es: seq<Event>, a: nat, k: nat)
    requires a <= k <= |es| && Timely(es) && After(n, es, a).overSince.None? && Window(n, es, a, k).Some?
    ensures OpenedAt(n, es, Window(n, es, a, k).value, k)
    decreases k
  {
    hide After, Judges, FoundOver, LatencyEjects, OpenedAt, Ripe;
    WindowTracks(n, es, a, k - 1);
    WindowTracks(n, es, a, k);
    LatencyEjectsExactlyWhen(n, es, a, k - 1);
    var before := Window(n, es, a, k - 1);
    if before.None? {
      OpenedNow(n, es, k);
    } else {
      WindowMeans(n, es, a, k - 1);
      OpenedStill(n, es, before.value, k);
    }
  }

  lemma {:induction false} OpenedNow(n: Node, es: seq<Event>, k: nat)
    requires 0 < k <= |es| && Judges(After(n, es, k - 1), es[k - 1]) && FoundOver(After(n, es, k - 1), es[k - 1])
    requires !LatencyEjects(After(n, es, k - 1), es[k - 1])
    requires After(n, es, k - 1).overSince.None? && After(n, es, k).overSince == Some(es[k - 1].now)
    ensures OpenedAt(n, es, k - 1, k)
  {
    hide After;
  }

  lemma {:induction false} OpenedStill(n: Node, es: seq<Event>, j: nat, k: nat)
    requires j < k - 1 && k <= |es| && OpenedAt(n, es, j, k - 1)
    requires Judges(After(n, es, k - 1), es[k - 1]) ==> FoundOver(After(n, es, k - 1), es[k - 1])
    requires !LatencyEjects(After(n, es, k - 1), es[k - 1])
    ensures OpenedAt(n, es, j, k)
  {
    hide After, Judges, FoundOver, LatencyEjects;
  }

  /** Justified by history: behind every latency ejection there is an earlier
      poll, at least one window before, that opened the window; at least
      `min_samples` samples arrived since; and the node was over the line at
      every judgement from then on. */
  lemma {:induction false} LatencyEjectionJustified(n: Node, es: seq<Event>, a: nat, k: nat) returns (j: nat)
    requires a <= k < |es| && Timely(es) && After(n, es, a).overSince.None?
    requires LatencyEjects(After(n, es, k), es[k])
    ensures a <= j < k && OpenedAt(n, es, j, k) && FoundOver(After(n, es, k), es[k])
    ensures es[j].now + WindowMs(es[k]) <= es[k].now
    ensures SamplesBetween(es, j, k) >= MinSamples(es[k])
  {
    hide Apply, Judges, FoundOver, LatencyEjects, OpenedAt;
    LatencyEjectsExactlyWhen(n, es, a, k);
    WindowMeans(n, es, a, k);
    j := Window(n, es, a, k).value;
  }

  /** A node that is ejected is next judged no earlier than the end of that
      ejection. */
  lemma {:induction false} JudgedAfterEjection(n: Node, es: seq<Event>, a: nat, j: nat)
    requires a <= j < |es| && Timely(es) && After(n, es, a).ejectedUntil.Some?
    requires Judges(After(n, es, j), es[j])
    ensures After(n, es, a).ejectedUntil.value <= es[j].now
  {
    hide Apply;
    var until := After(n, es, a).ejectedUntil.value;
    if es[j].now < until {
      forall m | a <= m < j ensures es[m].now < until {
        assert es[m].now <= es[j].now;
      }
      RunningEjectionIsFixed(n, es, a, j);
    }
  }

  /** Two latency ejections of one node are at least the first ejection's length
      plus one window apart (short of the top of the clock, where the end of the
      first one saturates). */
  lemma {:induction false} LatencyEjectionsSpaced(n: Node, es: seq<Event>, i: nat, k: nat)
    requires i < k < |es| && Timely(es)
    requires LatencyEjects(After(n, es, i), es[i]) && LatencyEjects(After(n, es, k), es[k])
    ensures SatAdd(es[i].now, EjectionMs(es[i])) + WindowMs(es[k]) <= es[k].now
  {
    hide Apply, Judges, FoundOver, LatencyEjects, OpenedAt, EjectionMs, WindowMs;
    JudgementStep(After(n, es, i), es[i]);
    var j := LatencyEjectionJustified(n, es, i + 1, k);
    OpenedByJudgement(n, es, j, k);
    JudgedAfterEjection(n, es, i + 1, j);
  }

  lemma {:induction false} OpenedByJudgement(n: Node, es: seq<Event>, j: nat, k: nat)
    requires j < k <= |es| && OpenedAt(n, es, j, k)
    ensures Judges(After(n, es, j), es[j])
  {
  }

  /** An ejection for latency is over at once exactly at the top of the clock or with
      a zero duration. */
  lemma {:induction false} LatencyEjectionOverAtOnceExactlyWhen(n: Node, now: u64, cfg: EwmaConfig, line: u64)
    requires LatencyEjects(n, Poll(now, Some(cfg), line))
    ensures !n.Polled(now, Some(cfg), line).IsEjected(now) <==> cfg.ejectionMs == 0 || now == U64_MAX
  {
    hide LatencyEjects, Judges, FoundOver;
    JudgementStep(n, Poll(now, Some(cfg), line));
  }
}
