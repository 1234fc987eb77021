/** src/retry.rs: the retry budget, a token bucket in integer milli tokens. */
module Retry {
  import opened Prelude

  datatype RetryConfig = RetryConfig(
    maxRetriesPerRequest: u32,
    depositMilli: int,
    retryCostMilli: int,
    maxMilli: int)

  datatype Budget = Budget(cfg: RetryConfig, tokensMilli: int, granted: nat, denied: nat)

  function NewBudget(cfg: RetryConfig): Budget {
    Budget(cfg, cfg.maxMilli, 0, 0)
  }

  function Deposited(b: Budget): Budget {
    b.(tokensMilli := Min(b.tokensMilli + b.cfg.depositMilli, b.cfg.maxMilli))
  }

  predicate Affords(b: Budget) {
    b.tokensMilli >= b.cfg.retryCostMilli
  }

  function Retried(b: Budget): Budget {
    if Affords(b) then b.(tokensMilli := b.tokensMilli - b.cfg.retryCostMilli, granted := b.granted + 1)
    else b.(denied := b.denied + 1)
  }

  class RetryBudget {
    const cfg: RetryConfig
    var tokensMilli: int
    var granted: nat
    var denied: nat

    ghost function View(): Budget
      reads this
    {
      Budget(cfg, tokensMilli, granted, denied)
    }

    constructor (cfg: RetryConfig)
      ensures View() == NewBudget(cfg)
    {
      this.cfg := cfg;
      tokensMilli := cfg.maxMilli;
      granted, denied := 0, 0;
    }

    method OnRequest()
      modifies this
      ensures View() == Deposited(old(View()))
    {
      tokensMilli := Min(tokensMilli + cfg.depositMilli, cfg.maxMilli);
    }

    method TryRetry() returns (ok: bool)
      modifies this
      ensures View() == Retried(old(View()))
      ensures ok == Affords(old(View()))
    {
      if tokensMilli >= cfg.retryCostMilli {
        tokensMilli := tokensMilli - cfg.retryCostMilli;
        granted := granted + 1;
        return true;
      } else {
        denied := denied + 1;
        return false;
      }
    }
  }

  // ---- runs --------------------------------------------------------------

  /** What reaches the budget: a new top-level request, or a wish to retry. */
  datatype Demand = Arrival | Wish

  ghost function Serve(b: Budget, d: Demand): Budget {
    match d
    case Arrival => Deposited(b)
    case Wish => Retried(b)
  }

  /** The budget after the first `k` demands. */
  ghost function After(b: Budget, ds: seq<Demand>, k: nat): Budget
    requires k <= |ds|
  {
    if k == 0 then b else Serve(After(b, ds, k - 1), ds[k - 1])
  }

  ghost function Arrivals(ds: seq<Demand>, k: nat): nat
    requires k <= |ds|
  {
    if k == 0 then 0 else Arrivals(ds, k - 1) + (if ds[k - 1].Arrival? then 1 else 0)
  }

  /** Tokens thrown away because the bucket was at its cap. */
  ghost function Lost(b: Budget, ds: seq<Demand>, k: nat): int
    requires k <= |ds|
  {
    if k == 0 then 0
    else
      var before := After(b, ds, k - 1);
      Lost(b, ds, k - 1)
      + (if ds[k - 1].Arrival? then Max(0, before.tokensMilli + b.cfg.depositMilli - b.cfg.maxMilli) else 0)
  }

  /** Token conservation: what was in the bucket and what was deposited is what
      is left, what was spent and what was lost at the cap. */
  lemma {:induction false} Conservation(b: Budget, ds: seq<Demand>, k: nat)
    requires k <= |ds|
    ensures var b' := After(b, ds, k);
            && b'.cfg == b.cfg && b'.granted >= b.granted
            && b'.tokensMilli + (b'.granted - b.granted) * b.cfg.retryCostMilli + Lost(b, ds, k)
               == b.tokensMilli + Arrivals(ds, k) * b.cfg.depositMilli
            && Lost(b, ds, k) >= 0
            && b'.granted + b'.denied - b.granted - b.denied == k - Arrivals(ds, k)
  {
    if k > 0 {
      Conservation(b, ds, k - 1);
      MulDistributes(After(b, ds, k - 1).granted - b.granted, 1, b.cfg.retryCostMilli);
      MulDistributes(Arrivals(ds, k - 1), 1, b.cfg.depositMilli);
    }
  }

  /** With a sane configuration the bucket stays within `[0, max]`, and the sum
      before the cap stays within `i64`. */
  lemma {:induction false} BucketInRange(b: Budget, ds: seq<Demand>, k: nat)
    requires k <= |ds|
    requires 0 <= b.cfg.depositMilli && 0 <= b.cfg.maxMilli
    requires 0 <= b.tokensMilli <= b.cfg.maxMilli
    requires 0 <= b.cfg.retryCostMilli
    ensures 0 <= After(b, ds, k).tokensMilli <= b.cfg.maxMilli
    ensures After(b, ds, k).cfg == b.cfg
    ensures b.cfg.depositMilli + b.cfg.maxMilli <= I64_MAX
            ==> After(b, ds, k).tokensMilli + b.cfg.depositMilli <= I64_MAX
  {
    if k > 0 {
      BucketInRange(b, ds, k - 1);
    }
  }

  /** Amplification bound on every window: between any two points `i <= j` of any
      run of a new budget, the retries granted cost at most a full bucket plus
      the deposits of the requests that arrived in between. */
  lemma {:induction false} WindowBound(cfg: RetryConfig, ds: seq<Demand>, i: nat, j: nat)
    requires i <= j <= |ds|
    requires 0 <= cfg.depositMilli && 0 < cfg.retryCostMilli && 0 <= cfg.maxMilli
    ensures var b := NewBudget(cfg);
            (After(b, ds, j).granted - After(b, ds, i).granted) * cfg.retryCostMilli
            <= cfg.maxMilli + (Arrivals(ds, j) - Arrivals(ds, i)) * cfg.depositMilli
  {
    var b := NewBudget(cfg);
    Conservation(b, ds, i);
    Conservation(b, ds, j);
    BucketInRange(b, ds, i);
    BucketInRange(b, ds, j);
    LostGrows(b, ds, i, j);
    MulDistributes(After(b, ds, j).granted, After(b, ds, i).granted, cfg.retryCostMilli);
    MulDistributes(Arrivals(ds, j), Arrivals(ds, i), cfg.depositMilli);
  }

  lemma {:induction false} LostGrows(b: Budget, ds: seq<Demand>, i: nat, j: nat)
    requires i <= j <= |ds|
    ensures Lost(b, ds, i) <= Lost(b, ds, j)
  {
    if i < j {
      LostGrows(b, ds, i, j - 1);
    }
  }

  // ---- what a wish is owed -------------------------------------------------

  /** What a budget has paid for since it had granted `base` retries. */
  ghost function Spent(b: Budget, base: nat): int {
    (b.granted - base) * b.cfg.retryCostMilli
  }

  /** What the requests in a window deposit. */
  ghost function Income(cfg: RetryConfig, ds: seq<Demand>, i: nat, k: nat): int
    requires i <= |ds| && k <= |ds|
  {
    (Arrivals(ds, k) - Arrivals(ds, i)) * cfg.depositMilli
  }

  /** From any point on, tokens held plus tokens spent are worth at least the tokens
      held then and the deposits since, or one full bucket if that is less: the cap
      is the only thing that takes tokens away. */
  lemma {:induction false} WorthAtLeast(b: Budget, ds: seq<Demand>, i: nat, k: nat)
    requires i <= k <= |ds|
    requires 0 <= b.cfg.depositMilli && 0 <= b.cfg.retryCostMilli
    ensures var start, now := After(b, ds, i), After(b, ds, k);
            && now.cfg == b.cfg && now.granted >= start.granted
            && now.tokensMilli + Spent(now, start.granted)
               >= Min(start.tokensMilli + Income(b.cfg, ds, i, k), b.cfg.maxMilli)
    decreases k
  {
    hide Serve, Spent, Income;
    if i < k {
      WorthAtLeast(b, ds, i, k - 1);
      WorthStep(After(b, ds, k - 1), ds[k - 1], After(b, ds, i).granted);
      IncomeStep(b.cfg, ds, i, k);
    } else {
      Conservation(b, ds, k);
      NothingYet(After(b, ds, k), ds, k);
    }
  }

  lemma {:induction false} NothingYet(b: Budget, ds: seq<Demand>, k: nat)
    requires k <= |ds|
    ensures Spent(b, b.granted) == 0 && Income(b.cfg, ds, k, k) == 0
  {
  }

  lemma {:induction false} IncomeStep(cfg: RetryConfig, ds: seq<Demand>, i: nat, k: nat)
    requires i < k <= |ds|
    ensures Income(cfg, ds, i, k)
            == Income(cfg, ds, i, k - 1) + (if ds[k - 1].Arrival? then cfg.depositMilli else 0)
  {
    MulDistributes(Arrivals(ds, k - 1) - Arrivals(ds, i), 1, cfg.depositMilli);
  }

  lemma {:induction false} WorthStep(b: Budget, d: Demand, base: nat)
    requires base <= b.granted && 0 <= b.cfg.retryCostMilli
    ensures var b' := Serve(b, d);
            && b'.cfg == b.cfg && b'.granted >= b.granted && Spent(b, base) >= 0
            && b'.tokensMilli + Spent(b', base)
               == (if d.Arrival? then Min(b.tokensMilli + b.cfg.depositMilli, b.cfg.maxMilli) else b.tokensMilli)
                  + Spent(b, base)
  {
    MulDistributes(b.granted - base, 1, b.cfg.retryCostMilli);
    MulMonotone(b.granted - base, 0, b.cfg.retryCostMilli);
  }

  /** So a wish is refused only after enough was granted, in every window before it:
      as many retries as the tokens at its start and its deposits pay for, or as a
      full bucket pays for. */
  lemma {:induction false} RefusedOnlyAfter(b: Budget, ds: seq<Demand>, i: nat, k: nat)
    requires i <= k < |ds| && ds[k].Wish? && After(b, ds, k + 1).granted == After(b, ds, k).granted
    requires 0 <= b.cfg.depositMilli && 0 < b.cfg.retryCostMilli
    ensures After(b, ds, k).granted - After(b, ds, i).granted
            >= Min(After(b, ds, i).tokensMilli + Income(b.cfg, ds, i, k), b.cfg.maxMilli) / b.cfg.retryCostMilli
  {
    hide Income;
    WorthAtLeast(b, ds, i, k);
    QuotientAtMost(Min(After(b, ds, i).tokensMilli + Income(b.cfg, ds, i, k), b.cfg.maxMilli),
                   b.cfg.retryCostMilli, After(b, ds, k).granted - After(b, ds, i).granted);
  }

  lemma {:induction false} QuotientAtMost(worth: int, cost: int, granted: int)
    requires cost > 0 && worth < granted * cost + cost
    ensures worth / cost <= granted
  {
    var q := worth / cost;
    assert worth == cost * q + worth % cost;
    if q > granted {
      MulMonotone(cost, granted + 1, q);
      MulDistributes(granted, 1, cost);
    }
  }

  /** A new budget starts full: `k` wishes with no request in between are granted as
      long as a full bucket lasts, and not once more. */
  lemma {:induction false} FullBucketGrants(cfg: RetryConfig, ds: seq<Demand>, k: nat)
    requires k <= |ds| && forall i :: 0 <= i < k ==> ds[i].Wish?
    requires 0 < cfg.retryCostMilli && 0 <= cfg.maxMilli
    ensures After(NewBudget(cfg), ds, k).granted == Min(k, cfg.maxMilli / cfg.retryCostMilli)
    ensures After(NewBudget(cfg), ds, k).denied == Max(0, k - cfg.maxMilli / cfg.retryCostMilli)
  {
    var b, q := NewBudget(cfg), cfg.maxMilli / cfg.retryCostMilli;
    if k > 0 {
      FullBucketGrants(cfg, ds, k - 1);
      Conservation(b, ds, k - 1);
      NoLoss(b, ds, k - 1);
      NextGrant(cfg.maxMilli, cfg.retryCostMilli, Min(k - 1, q));
    }
  }

  lemma {:induction false} NoLoss(b: Budget, ds: seq<Demand>, k: nat)
    requires k <= |ds| && forall i :: 0 <= i < k ==> ds[i].Wish?
    ensures Lost(b, ds, k) == 0 && Arrivals(ds, k) == 0
  {
    if k > 0 {
      NoLoss(b, ds, k - 1);
    }
  }

  /** After `g` grants of `cost` out of `max`, one more is paid for exactly while `g`
      is below the quotient. */
  lemma {:induction false} NextGrant(max: nat, cost: nat, g: nat)
    requires cost > 0
    ensures max - g * cost >= cost <==> g < max / cost
  {
    var q := max / cost;
    assert max == cost * q + max % cost;
    if g < q {
      MulMonotone(cost, g + 1, q);
    } else {
      MulMonotone(cost, q, g);
    }
    MulDistributes(g, 1, cost);
  }

  // ---- optimality --------------------------------------------------------

  /** A rival schedule on the same bucket: at each wish it decides freely, but a
      grant still has to be paid for. `None` once it has overdrawn. */
  datatype Rival = Rival(tokens: int, granted: nat)

  ghost function RivalAfter(cfg: RetryConfig, start: Rival, ds: seq<Demand>, grants: seq<bool>, k: nat): Option<Rival>
    requires k <= |ds| == |grants|
  {
    if k == 0 then Some(start)
    else
      match RivalAfter(cfg, start, ds, grants, k - 1)
      case None => None
      case Some(r) =>
        if ds[k - 1].Arrival? then Some(r.(tokens := Min(r.tokens + cfg.depositMilli, cfg.maxMilli)))
        else if !grants[k - 1] then Some(r)
        else if r.tokens >= cfg.retryCostMilli then
          Some(Rival(r.tokens - cfg.retryCostMilli, r.granted + 1))
        else None
  }

  /** At every prefix of every run, no affordable schedule from the same bucket
      has granted more retries than the bucket itself, and its token lead is always
      covered by the grants it is behind. */
  lemma {:induction false} GreedyIsOptimal(b: Budget, ds: seq<Demand>, grants: seq<bool>, k: nat)
    requires k <= |ds| == |grants|
    requires b.cfg.retryCostMilli > 0
    ensures var rival := RivalAfter(b.cfg, Rival(b.tokensMilli, b.granted), ds, grants, k);
            var mine := After(b, ds, k);
            && mine.cfg == b.cfg
            && (rival.Some? ==>
                  && rival.value.granted <= mine.granted
                  && rival.value.tokens
                     <= mine.tokensMilli + (mine.granted - rival.value.granted) * b.cfg.retryCostMilli)
  {
    if k > 0 {
      GreedyIsOptimal(b, ds, grants, k - 1);
      var start := Rival(b.tokensMilli, b.granted);
      var r, m := RivalAfter(b.cfg, start, ds, grants, k - 1), After(b, ds, k - 1);
      if r.Some? {
        OptimalStep(b.cfg, m.tokensMilli, m.granted, r.value.tokens, r.value.granted);
      }
    }
  }

  lemma {:induction false} OptimalStep(cfg: RetryConfig, t: int, g: nat, t': int, g': nat)
    requires cfg.retryCostMilli > 0 && g' <= g && t' <= t + (g - g') * cfg.retryCostMilli
    ensures t' > t ==> g' < g
    ensures (g + 1 - g') * cfg.retryCostMilli == (g - g') * cfg.retryCostMilli + cfg.retryCostMilli
    ensures (g - (g' + 1)) * cfg.retryCostMilli == (g - g') * cfg.retryCostMilli - cfg.retryCostMilli
    ensures (g - g') * cfg.retryCostMilli >= 0
  {
  }
}
