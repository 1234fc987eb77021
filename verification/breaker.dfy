/** src/breaker.rs: the per-upstream circuit breaker. */
module Breaker {
  import opened Prelude

  datatype BreakerState = Closed | Open | HalfOpen

  datatype BreakerConfig = BreakerConfig(
    failureThreshold: u32,
    successThreshold: u32,
    cooldownMs: u64,
    halfOpenMaxCalls: u32)
  {
    /** Zero trial calls is treated as one. */
    function TrialCap(): nat {
      Max(halfOpenMaxCalls, 1)
    }
  }

  datatype Circuit = Circuit(
    cfg: BreakerConfig,
    state: BreakerState,
    consecutiveFailures: nat,
    consecutiveSuccesses: nat,
    openedAt: u64,
    trips: nat)
  {
    predicate CooledDown(now: u64) {
      SatSub(now, openedAt) >= cfg.cooldownMs
    }

    predicate IsCallable(now: u64) {
      state.Open? ==> CooledDown(now)
    }

    predicate Admits(now: u64, inFlight: nat) {
      IsCallable(now) && (state.HalfOpen? ==> inFlight < cfg.TrialCap())
    }

    function Polled(now: u64): Circuit {
      if state.Open? && CooledDown(now) then this.(state := HalfOpen, consecutiveSuccesses := 0) else this
    }

    function Tripped(now: u64): Circuit {
      Circuit(cfg, Open, 0, 0, now, trips + 1)
    }

    function Succeeded(now: u64): Circuit {
      var c := Polled(now);
      match c.state
      case Closed => c.(consecutiveFailures := 0)
      case Open => c
      case HalfOpen =>
        if c.consecutiveSuccesses + 1 >= cfg.successThreshold
        then c.(state := Closed, consecutiveFailures := 0, consecutiveSuccesses := 0)
        else c.(consecutiveSuccesses := c.consecutiveSuccesses + 1)
    }

    function Failed(now: u64): Circuit {
      var c := Polled(now);
      match c.state
      case Closed =>
        if c.consecutiveFailures + 1 >= cfg.failureThreshold then c.Tripped(now)
        else c.(consecutiveFailures := c.consecutiveFailures + 1)
      case HalfOpen => c.Tripped(now)
      case Open => c
    }
  }

  function NewCircuit(cfg: BreakerConfig): Circuit {
    Circuit(cfg, Closed, 0, 0, 0, 0)
  }

  class CircuitBreaker {
    const cfg: BreakerConfig
    var state: BreakerState
    var consecutiveFailures: nat
    var consecutiveSuccesses: nat
    var openedAt: u64
    var trips: nat

    ghost function View(): Circuit
      reads this
    {
      Circuit(cfg, state, consecutiveFailures, consecutiveSuccesses, openedAt, trips)
    }

    constructor (cfg: BreakerConfig)
      ensures View() == NewCircuit(cfg)
    {
      this.cfg := cfg;
      state := Closed;
      consecutiveFailures, consecutiveSuccesses := 0, 0;
      openedAt, trips := 0, 0;
    }

    method Poll(now: u64)
      modifies this
      ensures View() == old(View()).Polled(now)
    {
      if state == Open && SatSub(now, openedAt) >= cfg.cooldownMs {
        state := HalfOpen;
        consecutiveSuccesses := 0;
      }
    }

    predicate IsCallable(now: u64)
      reads this
      ensures IsCallable(now) == View().IsCallable(now)
    {
      match state
      case Closed | HalfOpen => true
      case Open => SatSub(now, openedAt) >= cfg.cooldownMs
    }

    predicate Admits(now: u64, inFlight: nat)
      reads this
      ensures Admits(now, inFlight) == View().Admits(now, inFlight)
    {
      if !IsCallable(now) then false
      else
        match state
        case HalfOpen => inFlight < Max(cfg.halfOpenMaxCalls, 1)
        case _ => true
    }

    method OnSuccess(now: u64)
      modifies this
      ensures View() == old(View()).Succeeded(now)
    {
      Poll(now);
      match state {
        case Closed =>
          consecutiveFailures := 0;
        case HalfOpen =>
          consecutiveSuccesses := consecutiveSuccesses + 1;
          if consecutiveSuccesses >= cfg.successThreshold {
            state := Closed;
            consecutiveFailures := 0;
            consecutiveSuccesses := 0;
          }
        case Open =>
      }
    }

    method OnFailure(now: u64)
      modifies this
      ensures View() == old(View()).Failed(now)
    {
      Poll(now);
      match state {
        case Closed =>
          consecutiveFailures := consecutiveFailures + 1;
          if consecutiveFailures >= cfg.failureThreshold {
            Trip(now);
          }
        case HalfOpen =>
          Trip(now);
        case Open =>
      }
    }

    method Trip(now: u64)
      modifies this
      ensures View() == old(View()).Tripped(now)
    {
      state := Open;
      openedAt := now;
      consecutiveFailures := 0;
      consecutiveSuccesses := 0;
      trips := trips + 1;
    }
  }
}
