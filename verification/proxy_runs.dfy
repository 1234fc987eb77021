/** The proxy over whole runs of requests, with any pool operations in between. */
module ProxyRuns {
  import opened Prelude
  import opened Backends
  import opened Retry
  import opened Pools
  import opened PoolLaws
  import opened Proxying
  import opened ProxyLaws
  import Ops = PoolRuns
  import Mix64

  /** A request, or an operation on one pool outside any request. */
  datatype Event =
    | Request(now: u64, route: Option<Name>, key: Option<Mix64.Bytes>, upstream: nat -> Reply)
    | OnPool(service: Name, op: Ops.Event)

  ghost function Apply(s: ProxyState, e: Event): ProxyState {
    match e
    case Request(now, route, key, upstream) => Handled(s, now, route, key, upstream).0
    case OnPool(service, op) =>
      if service in s.pools then s.(pools := s.pools[service := Ops.Apply(s.pools[service], op)]) else s
  }

  ghost function After(s: ProxyState, es: seq<Event>, k: nat): ProxyState
    requires k <= |es|
  {
    if k == 0 then s else Apply(After(s, es, k - 1), es[k - 1])
  }

  ghost predicate PoolsInv(s: ProxyState) {
    forall service :: service in s.pools ==> Inv(s.pools[service])
  }

  /** The event is a request that reached a pool. */
  ghost predicate Routed(s: ProxyState, e: Event) {
    e.Request? && e.route.Some? && e.route.value in s.pools
  }

  ghost function AttemptsOf(s: ProxyState, e: Event): seq<Attempt> {
    if e.Request? then Handled(s, e.now, e.route, e.key, e.upstream).1.attempts else []
  }

  lemma {:induction false} UnroutedMakesNoAttempt(s: ProxyState, e: Event)
    requires !Routed(s, e)
    ensures AttemptsOf(s, e) == []
    ensures e.Request? ==> Apply(s, e) == s.(totalRequests := s.totalRequests + 1, budget := Deposited(s.budget))
    ensures e.OnPool? ==> Apply(s, e) == s.(pools := Apply(s, e).pools)
  {
  }

  lemma {:induction false} ApplyKeepsPools(s: ProxyState, e: Event)
    requires PoolsInv(s)
    ensures PoolsInv(Apply(s, e)) && Apply(s, e).pools.Keys == s.pools.Keys
  {
    hide Inv, Handled;
    if Routed(s, e) {
      AttemptsRecorded(s, e.now, e.route.value, e.key, e.upstream);
    } else {
      UnroutedMakesNoAttempt(s, e);
      if e.OnPool? && e.service in s.pools {
        ApplyKeepsInv(s.pools[e.service], e.op);
      }
    }
  }

  ghost function RequestsTo(es: seq<Event>, k: nat): nat
    requires k <= |es|
  {
    if k == 0 then 0 else RequestsTo(es, k - 1) + (if es[k - 1].Request? then 1 else 0)
  }

  ghost function AttemptsTo(s: ProxyState, es: seq<Event>, k: nat): nat
    requires k <= |es|
  {
    if k == 0 then 0 else AttemptsTo(s, es, k - 1) + |AttemptsOf(After(s, es, k - 1), es[k - 1])|
  }

  ghost function StrandedTo(s: ProxyState, es: seq<Event>, k: nat): nat
    requires k <= |es|
  {
    if k == 0 then 0
    else
      var q, e := After(s, es, k - 1), es[k - 1];
      StrandedTo(s, es, k - 1)
      + (if Routed(q, e) && Stranded(q, e.now, e.route.value, e.key, e.upstream) then 1 else 0)
  }

  /** One event's share of every running total. */
  lemma {:induction false} EventTotals(s: ProxyState, e: Event)
    requires PoolsInv(s)
    ensures var s', a := Apply(s, e), |AttemptsOf(s, e)|;
            var retries := s'.totalRetries - s.totalRetries;
            && s'.totalRequests == s.totalRequests + (if e.Request? then 1 else 0)
            && retries >= 0 && s'.budget.granted == s.budget.granted + retries
            && s'.totalFailovers == s.totalFailovers + Max(0, a - 1)
            && retries == Max(0, a - 1)
                          + (if Routed(s, e) && Stranded(s, e.now, e.route.value, e.key, e.upstream) then 1 else 0)
            && s'.budget.cfg == s.budget.cfg
            && var before := if e.Request? then Deposited(s.budget) else s.budget;
               && s'.budget.tokensMilli == before.tokensMilli - retries * s.budget.cfg.retryCostMilli
               && (before.tokensMilli >= 0 ==> s'.budget.tokensMilli >= 0)
  {
    hide Inv, Handled, Stranded;
    if Routed(s, e) {
      CountersExact(s, e.now, e.route.value, e.key, e.upstream);
    } else {
      UnroutedMakesNoAttempt(s, e);
      assert 0 * s.budget.cfg.retryCostMilli == 0;
    }
  }

  /** Conservation over every run: the tokens granted are the retries made;
      retries that led to no failover are exactly the requests that were granted a
      retry and found no backend for it; and the attempts are at most one for each
      request plus the retries. */
  lemma {:induction false} TotalsConserved(s: ProxyState, es: seq<Event>, k: nat)
    requires k <= |es| && PoolsInv(s)
    ensures var s' := After(s, es, k);
            && PoolsInv(s')
            && s'.totalRequests - s.totalRequests == RequestsTo(es, k)
            && s'.budget.granted - s.budget.granted == s'.totalRetries - s.totalRetries >= 0
            && (s'.totalRetries - s.totalRetries) - (s'.totalFailovers - s.totalFailovers) == StrandedTo(s, es, k)
            && AttemptsTo(s, es, k) <= RequestsTo(es, k) + (s'.totalFailovers - s.totalFailovers)
  {
    hide Apply, PoolsInv, AttemptsOf, Routed, Stranded;
    if k > 0 {
      TotalsConserved(s, es, k - 1);
      ApplyKeepsPools(After(s, es, k - 1), es[k - 1]);
      EventTotals(After(s, es, k - 1), es[k - 1]);
      OnlyRequestsAttempt(After(s, es, k - 1), es[k - 1]);
    }
  }

  lemma {:induction false} OnlyRequestsAttempt(s: ProxyState, e: Event)
    ensures AttemptsOf(s, e) != [] ==> e.Request?
  {
  }

  // ---- amplification ---------------------------------------------------------

  ghost predicate SaneBudget(b: Budget) {
    && 0 <= b.cfg.depositMilli && 0 < b.cfg.retryCostMilli && 0 <= b.cfg.maxMilli
    && 0 <= b.tokensMilli <= b.cfg.maxMilli
  }

  /** Tokens held plus tokens spent grow by at most one deposit for a request and
      by nothing else. */
  ghost function Worth(b: Budget): int {
    b.tokensMilli + b.granted * b.cfg.retryCostMilli
  }

  lemma {:induction false} WorthStep(s: ProxyState, e: Event)
    requires PoolsInv(s) && SaneBudget(s.budget)
    ensures SaneBudget(Apply(s, e).budget) && Apply(s, e).budget.cfg == s.budget.cfg
    ensures Worth(Apply(s, e).budget) <= Worth(s.budget) + (if e.Request? then s.budget.cfg.depositMilli else 0)
  {
    hide Apply, PoolsInv, AttemptsOf, Routed, Stranded;
    EventTotals(s, e);
    var retries := Apply(s, e).totalRetries - s.totalRetries;
    MulDistributes(s.budget.granted, retries, s.budget.cfg.retryCostMilli);
    MulMonotone(retries, 0, s.budget.cfg.retryCostMilli);
  }

  lemma {:induction false} WorthGrows(s: ProxyState, es: seq<Event>, i: nat, j: nat)
    requires i <= j <= |es| && PoolsInv(s) && SaneBudget(s.budget)
    ensures PoolsInv(After(s, es, j)) && SaneBudget(After(s, es, j).budget)
    ensures After(s, es, j).budget.cfg == s.budget.cfg
    ensures Worth(After(s, es, j).budget)
            <= Worth(After(s, es, i).budget) + (RequestsTo(es, j) - RequestsTo(es, i)) * s.budget.cfg.depositMilli
    decreases j
  {
    hide Apply, PoolsInv, SaneBudget, Worth;
    if i < j {
      WorthGrows(s, es, i, j - 1);
      NextWorth(s, es, i, j);
    } else if j > 0 {
      WorthGrows(s, es, j - 1, j - 1);
      NextWorth(s, es, j - 1, j);
    }
  }

  lemma {:induction false} NextWorth(s: ProxyState, es: seq<Event>, i: nat, j: nat)
    requires i < j <= |es|
    requires var q := After(s, es, j - 1); PoolsInv(q) && SaneBudget(q.budget) && q.budget.cfg == s.budget.cfg
    ensures PoolsInv(After(s, es, j)) && SaneBudget(After(s, es, j).budget)
    ensures After(s, es, j).budget.cfg == s.budget.cfg
    ensures Worth(After(s, es, j).budget) <= Worth(After(s, es, j - 1).budget)
            + (RequestsTo(es, j) - RequestsTo(es, j - 1)) * s.budget.cfg.depositMilli
    ensures (RequestsTo(es, j) - RequestsTo(es, i)) * s.budget.cfg.depositMilli
            == (RequestsTo(es, j) - RequestsTo(es, j - 1)) * s.budget.cfg.depositMilli
               + (RequestsTo(es, j - 1) - RequestsTo(es, i)) * s.budget.cfg.depositMilli
  {
    hide Apply, PoolsInv, SaneBudget, Worth;
    WorthStep(After(s, es, j - 1), es[j - 1]);
    ApplyKeepsPools(After(s, es, j - 1), es[j - 1]);
    var d := s.budget.cfg.depositMilli;
    assert RequestsTo(es, j) - RequestsTo(es, j - 1) == if es[j - 1].Request? then 1 else 0;
    MulDistributes(RequestsTo(es, j) - RequestsTo(es, j - 1), RequestsTo(es, j - 1) - RequestsTo(es, i), d);
    assert 1 * d == d && 0 * d == 0;
  }

  /** Amplification bound on every window of every run: between any two points,
      the retries granted cost at most a full bucket plus one deposit for each
      request in between, and the attempts made are at most one for each request
      plus those retries. */
  lemma {:induction false} WindowAmplification(s: ProxyState, es: seq<Event>, i: nat, j: nat)
    requires i <= j <= |es| && PoolsInv(s) && SaneBudget(s.budget)
    ensures var a, b := After(s, es, i), After(s, es, j);
            var requests, retries := RequestsTo(es, j) - RequestsTo(es, i), b.totalRetries - a.totalRetries;
            && retries * s.budget.cfg.retryCostMilli
               <= s.budget.cfg.maxMilli + requests * s.budget.cfg.depositMilli
            && AttemptsTo(s, es, j) - AttemptsTo(s, es, i) <= requests + retries
  {
    hide Apply, PoolsInv, AttemptsOf, Routed, Stranded;
    WorthGrows(s, es, i, j);
    WorthGrows(s, es, i, i);
    TotalsConserved(s, es, i);
    TotalsConserved(s, es, j);
    AttemptsInWindow(s, es, i, j);
    MulDistributes(After(s, es, j).budget.granted, After(s, es, i).budget.granted, s.budget.cfg.retryCostMilli);
  }

  lemma {:induction false} AttemptsInWindow(s: ProxyState, es: seq<Event>, i: nat, j: nat)
    requires i <= j <= |es| && PoolsInv(s)
    ensures AttemptsTo(s, es, j) - AttemptsTo(s, es, i)
            <= RequestsTo(es, j) - RequestsTo(es, i) + After(s, es, j).totalRetries - After(s, es, i).totalRetries
    decreases j
  {
    hide Apply, PoolsInv, AttemptsOf, Routed, Stranded;
    if i < j {
      AttemptsInWindow(s, es, i, j - 1);
      TotalsConserved(s, es, j - 1);
      EventTotals(After(s, es, j - 1), es[j - 1]);
      OnlyRequestsAttempt(After(s, es, j - 1), es[j - 1]);
    }
  }

  // ---- what a request is owed ------------------------------------------------

  /** What the proxy has paid for since it had granted `base` retries. */
  ghost function SpentSince(b: Budget, base: nat): int {
    (b.granted - base) * b.cfg.retryCostMilli
  }

  ghost function IncomeIn(cfg: RetryConfig, es: seq<Event>, i: nat, k: nat): int
    requires i <= |es| && k <= |es|
  {
    (RequestsTo(es, k) - RequestsTo(es, i)) * cfg.depositMilli
  }

  lemma {:induction false} OwedStep(s: ProxyState, e: Event, base: nat)
    requires PoolsInv(s) && SaneBudget(s.budget) && base <= s.budget.granted
    ensures var b, b' := s.budget, Apply(s, e).budget;
            && SaneBudget(b') && b'.cfg == b.cfg && b'.granted >= b.granted && SpentSince(b, base) >= 0
            && b'.tokensMilli + SpentSince(b', base)
               == (if e.Request? then Min(b.tokensMilli + b.cfg.depositMilli, b.cfg.maxMilli) else b.tokensMilli)
                  + SpentSince(b, base)
  {
    hide Apply, PoolsInv, AttemptsOf, Routed, Stranded;
    EventTotals(s, e);
    WorthStep(s, e);
    var retries := Apply(s, e).totalRetries - s.totalRetries;
    MulDistributes(s.budget.granted - base, retries, s.budget.cfg.retryCostMilli);
    MulMonotone(s.budget.granted - base, 0, s.budget.cfg.retryCostMilli);
  }

  lemma {:induction false} IncomeStep(cfg: RetryConfig, es: seq<Event>, i: nat, k: nat)
    requires i < k <= |es|
    ensures IncomeIn(cfg, es, i, k)
            == IncomeIn(cfg, es, i, k - 1) + (if es[k - 1].Request? then cfg.depositMilli else 0)
  {
    MulDistributes(RequestsTo(es, k - 1) - RequestsTo(es, i), 1, cfg.depositMilli);
  }

  /** In every window of every run, tokens held plus tokens spent in it are worth at
      least the tokens at its start and the deposits of its requests, or one full
      bucket if that is less. */
  lemma {:induction false} WindowOwed(s: ProxyState, es: seq<Event>, i: nat, k: nat)
    requires i <= k <= |es| && PoolsInv(s) && SaneBudget(s.budget)
    ensures var start, b := After(s, es, i).budget, After(s, es, k).budget;
            && PoolsInv(After(s, es, k)) && SaneBudget(b) && b.cfg == s.budget.cfg && b.granted >= start.granted
            && b.tokensMilli + SpentSince(b, start.granted)
               >= Min(start.tokensMilli + IncomeIn(s.budget.cfg, es, i, k), s.budget.cfg.maxMilli)
    decreases k
  {
    hide Apply, PoolsInv, SaneBudget, SpentSince, IncomeIn;
    WorthGrows(s, es, k, k);
    if i < k {
      WindowOwed(s, es, i, k - 1);
      SaneIncome(s.budget);
      OwedStep(After(s, es, k - 1), es[k - 1], After(s, es, i).budget.granted);
      IncomeStep(s.budget.cfg, es, i, k);
    } else {
      NothingYet(After(s, es, k).budget, es, k);
    }
  }

  lemma {:induction false} SaneIncome(b: Budget)
    requires SaneBudget(b)
    ensures 0 <= b.cfg.depositMilli
  {
  }

  lemma {:induction false} NothingYet(b: Budget, es: seq<Event>, k: nat)
    requires k <= |es|
    ensures SpentSince(b, b.granted) == 0 && IncomeIn(b.cfg, es, k, k) == 0
  {
  }

  /** So whenever the proxy cannot afford one more retry, it has granted in every window
      up to then as many as the tokens at its start and the deposits of its requests
      pay for, or as a full bucket pays for. */
  lemma {:induction false} BrokeOnlyAfter(s: ProxyState, es: seq<Event>, i: nat, k: nat)
    requires i <= k <= |es| && PoolsInv(s) && SaneBudget(s.budget) && !Affords(After(s, es, k).budget)
    ensures s.budget.cfg.retryCostMilli > 0
    ensures var start, b := After(s, es, i).budget, After(s, es, k).budget;
            b.granted - start.granted
            >= Min(start.tokensMilli + IncomeIn(s.budget.cfg, es, i, k), s.budget.cfg.maxMilli)
               / s.budget.cfg.retryCostMilli
  {
    hide Apply, PoolsInv, IncomeIn;
    WindowOwed(s, es, i, k);
    var start, b := After(s, es, i).budget, After(s, es, k).budget;
    QuotientAtMost(Min(start.tokensMilli + IncomeIn(s.budget.cfg, es, i, k), s.budget.cfg.maxMilli),
                   s.budget.cfg.retryCostMilli, b.granted - start.granted);
  }

  // ---- served counts ---------------------------------------------------------

  /** Operations outside requests that record no outcome. */
  predicate Quiet(e: Event) {
    e.OnPool? ==> !e.op.Success? && !e.op.TimedSuccess? && !e.op.Failure?
  }

  ghost function AttemptsOnTo(s: ProxyState, es: seq<Event>, service: Name, k: nat): nat
    requires k <= |es|
  {
    if k == 0 then 0
    else
      AttemptsOnTo(s, es, service, k - 1)
      + (if es[k - 1].Request? && es[k - 1].route == Some(service)
         then |AttemptsOf(After(s, es, k - 1), es[k - 1])| else 0)
  }

  /** Over any run in which outcomes come from requests alone, the outcomes the
      backends of a service have recorded grow by exactly the attempts made on
      that service. */
  lemma {:induction false} ServedIsAttempts(s: ProxyState, es: seq<Event>, service: Name, k: nat)
    requires k <= |es| && PoolsInv(s) && service in s.pools
    requires forall i :: 0 <= i < |es| ==> Quiet(es[i])
    ensures PoolsInv(After(s, es, k)) && service in After(s, es, k).pools
    ensures ServedSum(After(s, es, k).pools[service]) == ServedSum(s.pools[service]) + AttemptsOnTo(s, es, service, k)
  {
    hide Apply, PoolsInv, AttemptsOf, ServedSum, Quiet;
    if k > 0 {
      ServedIsAttempts(s, es, service, k - 1);
      ApplyKeepsPools(After(s, es, k - 1), es[k - 1]);
      ServedStep(After(s, es, k - 1), es[k - 1], service);
    }
  }

  lemma {:induction false} ServedStep(s: ProxyState, e: Event, service: Name)
    requires PoolsInv(s) && service in s.pools && Quiet(e)
    ensures service in Apply(s, e).pools
    ensures ServedSum(Apply(s, e).pools[service]) == ServedSum(s.pools[service])
            + (if e.Request? && e.route == Some(service) then |AttemptsOf(s, e)| else 0)
  {
    hide Inv, Handled, ServedSum;
    if Routed(s, e) {
      AttemptsRecorded(s, e.now, e.route.value, e.key, e.upstream);
    } else {
      UnroutedMakesNoAttempt(s, e);
      if e.OnPool? {
        QuietKeepsServed(s.pools[service], e.op);
      }
    }
  }

  lemma {:induction false} QuietKeepsServed(p: PoolState, op: Ops.Event)
    requires !op.Success? && !op.TimedSuccess? && !op.Failure?
    ensures ServedSum(Ops.Apply(p, op)) == ServedSum(p)
  {
    var p' := Ops.Apply(p, op);
    forall i | 0 <= i < |p.nodes| ensures |p'.nodes| >= |p.nodes| && p'.nodes[i].served == p.nodes[i].served {
      Ops.ApplyIsSeen(p, op, i);
      QuietNode(p.nodes[i], Ops.Seen(p, op, i));
    }
    if op.AddBackend? {
      ServedPrefix(p.nodes, p'.nodes, |p.nodes|);
    } else {
      SameLength(p, op);
      ServedAgrees(p.nodes, p'.nodes, |p.nodes|);
    }
  }

  lemma {:induction false} SameLength(p: PoolState, op: Ops.Event)
    requires !op.AddBackend?
    ensures |Ops.Apply(p, op).nodes| == |p.nodes|
  {
    if op.Select? {
      Ops.SelectKeepsNodes(p, op.now, op.key, op.exclude);
    }
  }

  lemma {:induction false} ServedPrefix(nodes: seq<Node>, nodes': seq<Node>, n: nat)
    requires n <= |nodes| <= |nodes'|
    requires forall i :: 0 <= i < n ==> nodes[i].served == nodes'[i].served
    ensures ServedTo(nodes, n) == ServedTo(nodes', n)
  {
    if n > 0 {
      ServedPrefix(nodes, nodes', n - 1);
    }
  }

  lemma {:induction false} QuietNode(n: Node, e: Ops.Runs.Event)
    requires !e.Success? && !e.TimedSuccess? && !e.Failure?
    ensures Ops.Runs.Apply(n, e).served == n.served
  {
  }
}
