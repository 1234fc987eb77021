/** Sequences of selections on an unchanged candidate set: exact smooth weighted
    cycles, and when round robin is an exact cycle. */
module PoolSequences {
  import opened Prelude
  import opened Backends
  import opened Sums
  import opened SmoothWrr
  import opened FixedWrr
  import opened Pools
  import Mix64

  /** The pool after `k` selections in a row with nothing in between. */
  ghost function Selected(p: PoolState, now: u64, key: Option<Mix64.Bytes>, exclude: seq<nat>, k: nat): PoolState {
    if k == 0 then p else Select(Selected(p, now, key, exclude, k - 1), now, key, exclude).0
  }

  /** The answer of selection number `k`, counting from zero. */
  ghost function Answer(p: PoolState, now: u64, key: Option<Mix64.Bytes>, exclude: seq<nat>, k: nat): Option<nat> {
    Select(Selected(p, now, key, exclude, k), now, key, exclude).1
  }

  lemma {:induction false} AvailabilityIgnoresWeights(
      nodes: seq<Node>, x: seq<int>, now: u64, exclude: seq<nat>, n: nat)
    requires |x| == |nodes| && n <= |nodes|
    ensures AvailableTo(Reweighed(nodes, x), now, exclude, n) == AvailableTo(nodes, now, exclude, n)
  {
    if n > 0 {
      AvailabilityIgnoresWeights(nodes, x, now, exclude, n - 1);
    }
  }

  lemma {:induction false} ScoresIgnoreWeights(nodes: seq<Node>, x: seq<int>, a: seq<nat>)
    requires |x| == |nodes|
    ensures Scores(Reweighed(nodes, x), a) == Scores(nodes, a)
    ensures Currents(Reweighed(nodes, x)) == x
  {
  }

  /** Weighted selections in a row are smooth weighted picks with fixed scores. */
  lemma {:induction false} WeightedSelections(
      p: PoolState, now: u64, key: Option<Mix64.Bytes>, exclude: seq<nat>, k: nat)
    requires p.strategy.Weighted? && Available(p, now, exclude) != []
    ensures var a, q := Available(p, now, exclude), Selected(p, now, key, exclude, k);
            var x, s := Currents(p.nodes), Scores(p.nodes, a);
            && q.strategy.Weighted? && Available(q, now, exclude) == a
            && |q.nodes| == |p.nodes|
            && Scores(q.nodes, a) == s
            && Currents(q.nodes) == FixedWrr.After(x, s, k)
            && Answer(p, now, key, exclude, k) == PickAt(x, s, k)
  {
    hide Select, Available, Scores, Currents, Next, Chosen;
    if k > 0 {
      WeightedSelections(p, now, key, exclude, k - 1);
      WeightedStep(Selected(p, now, key, exclude, k - 1), now, key, exclude);
    }
    WeightedStep(Selected(p, now, key, exclude, k), now, key, exclude);
  }

  lemma {:induction false} WeightedStep(q: PoolState, now: u64, key: Option<Mix64.Bytes>, exclude: seq<nat>)
    requires q.strategy.Weighted? && Available(q, now, exclude) != []
    ensures var a, q' := Available(q, now, exclude), Select(q, now, key, exclude).0;
            && q'.strategy.Weighted? && Available(q', now, exclude) == a && |q'.nodes| == |q.nodes|
            && Scores(q'.nodes, a) == Scores(q.nodes, a)
            && Currents(q'.nodes) == Next(Currents(q.nodes), Scores(q.nodes, a))
            && Select(q, now, key, exclude).1 == Chosen(Currents(q.nodes), Scores(q.nodes, a))
  {
    var a := Available(q, now, exclude);
    var x' := Next(Currents(q.nodes), Scores(q.nodes, a));
    AvailabilityIgnoresWeights(q.nodes, x', now, exclude, |q.nodes|);
    ScoresIgnoreWeights(q.nodes, x', a);
  }

  /** How many of the first `k` selections chose backend `i`. */
  ghost function Answers(p: PoolState, now: u64, key: Option<Mix64.Bytes>, exclude: seq<nat>, i: nat, k: nat): nat {
    if k == 0 then 0
    else Answers(p, now, key, exclude, i, k - 1) + (if Answer(p, now, key, exclude, k - 1) == Some(i) then 1 else 0)
  }

  lemma {:induction false} AnswersAreShares(
      p: PoolState, now: u64, key: Option<Mix64.Bytes>, exclude: seq<nat>, i: nat, k: nat)
    requires p.strategy.Weighted? && Available(p, now, exclude) != []
    ensures Answers(p, now, key, exclude, i, k)
            == Share(Currents(p.nodes), Scores(p.nodes, Available(p, now, exclude)), i, k)
  {
    hide Available, Scores, Currents, Answer, Select;
    if k > 0 {
      AnswersAreShares(p, now, key, exclude, i, k - 1);
      WeightedSelections(p, now, key, exclude, k - 1);
    }
  }

  /** The effective weights of a moment: the weight times the ramp percentage of every
      candidate, and zero for everybody else. */
  function Effective(p: PoolState, now: u64, exclude: seq<nat>): (s: seq<nat>)
    ensures |s| == |p.nodes|
  {
    seq(|p.nodes|, i requires 0 <= i < |p.nodes| =>
      if Candidate(p.nodes, now, exclude, i) then p.nodes[i].weight * p.nodes[i].rampPercent else 0)
  }

  lemma {:induction false} ScoresAreEffective(p: PoolState, now: u64, exclude: seq<nat>)
    ensures Scores(p.nodes, Available(p, now, exclude)) == Effective(p, now, exclude)
  {
    hide AvailableTo, Node.IsAvailable;
    AvailableIsCandidates(p.nodes, now, exclude, |p.nodes|);
  }

  /** A weighted pool whose candidates stand at zero serves every candidate of
      positive score within one total above and `H_n - 1` totals below its exact
      proportion after every number of selections, ramped scores included. */
  lemma {:induction false} WeightedSmooth(
      p: PoolState, now: u64, key: Option<Mix64.Bytes>, exclude: seq<nat>, i: nat, k: nat)
    requires p.strategy.Weighted? && Available(p, now, exclude) != []
    requires var s := Effective(p, now, exclude);
             AtRest(Currents(p.nodes), s) && i < |s| && s[i] > 0
    ensures var s, c := Effective(p, now, exclude), Answers(p, now, key, exclude, i, k);
            && Sum(s) * c < k * s[i] + Sum(s)
            && (Sum(s) * c) as real >= (k * s[i]) as real - (Sum(s) as real) * (Harmonic(Count(Live(s))) - 1.0)
  {
    hide *;
    ScoresAreEffective(p, now, exclude);
    AnswersAreShares(p, now, key, exclude, i, k);
    Smoothness(Currents(p.nodes), Effective(p, now, exclude), i, k);
  }

  /** And it is back where it started after `k` selections exactly when the total
      divides every `k` times score: then every candidate was chosen in exact
      proportion, and from there the answers repeat. */
  lemma {:induction false} WeightedCycle(
      p: PoolState, now: u64, key: Option<Mix64.Bytes>, exclude: seq<nat>, i: nat, k: nat, j: nat)
    requires p.strategy.Weighted? && Available(p, now, exclude) != []
    requires var s := Effective(p, now, exclude);
             AtRest(Currents(p.nodes), s) && SomebodyLive(s) && i < |s|
    ensures var s := Effective(p, now, exclude);
            && Sum(s) > 0
            && (Currents(Selected(p, now, key, exclude, k).nodes) == Currents(p.nodes) <==> DividesEveryQuota(s, k))
            && (DividesEveryQuota(s, k) ==>
                  && Sum(s) * Answers(p, now, key, exclude, i, k) == k * s[i]
                  && Answer(p, now, key, exclude, k + j) == Answer(p, now, key, exclude, j))
  {
    hide Available, Scores, Currents, Answer, Select, DividesEveryQuota, Effective;
    ScoresAreEffective(p, now, exclude);
    var x, s := Currents(p.nodes), Effective(p, now, exclude);
    ExactCycle(x, s, k);
    AnswersAreShares(p, now, key, exclude, i, k);
    WeightedSelections(p, now, key, exclude, k);
    if DividesEveryQuota(s, k) {
      CycleRepeats(x, s, k, j);
      WeightedSelections(p, now, key, exclude, k + j);
      WeightedSelections(p, now, key, exclude, j);
    }
  }

  // ---- round robin -----------------------------------------------------------

  /** The cursor decides: round robin, and consistent hash for a request without a
      key. */
  predicate TakesTurns(p: PoolState, key: Option<Mix64.Bytes>) {
    p.strategy.RoundRobin? || (p.strategy.ConsistentHash? && key.None?)
  }

  /** Where the cursor points for the `j`-th selection from cursor `c`. */
  function Slot(c: nat, j: nat, n: nat): nat
    requires n > 0
  {
    ((c + j) % CURSOR_MODULUS) % n
  }

  lemma {:induction false} RoundRobinSelections(
      p: PoolState, now: u64, key: Option<Mix64.Bytes>, exclude: seq<nat>, k: nat)
    requires TakesTurns(p, key) && Available(p, now, exclude) != [] && p.rrCursor < CURSOR_MODULUS
    ensures var a, q := Available(p, now, exclude), Selected(p, now, key, exclude, k);
            && q == p.(rrCursor := (p.rrCursor + k) % CURSOR_MODULUS)
            && Answer(p, now, key, exclude, k) == Some(a[Slot(p.rrCursor, k, |a|)])
  {
    hide Select, Available;
    if k > 0 {
      RoundRobinSelections(p, now, key, exclude, k - 1);
      CursorIgnored(p, Selected(p, now, key, exclude, k - 1), now, exclude);
      RoundRobinStep(Selected(p, now, key, exclude, k - 1), now, key, exclude);
      WrapStep(p.rrCursor + (k - 1));
    } else {
      assert (p.rrCursor + 0) % CURSOR_MODULUS == p.rrCursor;
    }
    var q := Selected(p, now, key, exclude, k);
    CursorIgnored(p, q, now, exclude);
    RoundRobinStep(q, now, key, exclude);
  }

  lemma {:induction false} CursorIgnored(p: PoolState, q: PoolState, now: u64, exclude: seq<nat>)
    requires q == p.(rrCursor := q.rrCursor)
    ensures Available(q, now, exclude) == Available(p, now, exclude)
  {
  }

  lemma {:induction false} RoundRobinStep(q: PoolState, now: u64, key: Option<Mix64.Bytes>, exclude: seq<nat>)
    requires TakesTurns(q, key) && Available(q, now, exclude) != []
    ensures Select(q, now, key, exclude).0 == q.(rrCursor := (q.rrCursor + 1) % CURSOR_MODULUS)
    ensures var a := Available(q, now, exclude);
            Select(q, now, key, exclude).1 == Some(a[q.rrCursor % |a|])
    ensures Available(Select(q, now, key, exclude).0, now, exclude) == Available(q, now, exclude)
  {
  }

  lemma {:induction false} WrapStep(v: nat)
    ensures (v % CURSOR_MODULUS + 1) % CURSOR_MODULUS == (v + 1) % CURSOR_MODULUS
  {
  }

  lemma {:induction false} RemainderIs(v: nat, n: nat, q: nat, r: nat)
    requires n > 0 && v == n * q + r && r < n
    ensures v % n == r
  {
    var d, m := v / n, v % n;
    MulDistributes(d, q, n);
    assert r - m == (d - q) * n;
    if d > q {
      MulMonotone(n, 1, d - q);
    } else if d < q {
      MulMonotone(n, 1, q - d);
    }
  }

  lemma {:induction false} DistinctRemainders(v: nat, d: nat, n: nat)
    requires 0 < d < n
    ensures v % n != (v + d) % n
  {
    var q, r := v / n, v % n;
    if r + d < n {
      RemainderIs(v + d, n, q, r + d);
    } else {
      assert v + d == n * (q + 1) + (r + d - n);
      RemainderIs(v + d, n, q + 1, r + d - n);
    }
  }

  ghost predicate DistinctSlots(c: nat, n: nat)
    requires n > 0
  {
    forall i, j :: 0 <= i < j < n ==> Slot(c, i, n) != Slot(c, j, n)
  }

  lemma {:induction false} SlotBeforeWrap(c: nat, j: nat, n: nat)
    requires n > 0 && c + j < CURSOR_MODULUS
    ensures Slot(c, j, n) == (c + j) % n
  {
  }

  lemma {:induction false} SlotAfterWrap(c: nat, j: nat, n: nat, v: nat)
    requires n > 0 && c + j == CURSOR_MODULUS + v && v < n && v < CURSOR_MODULUS
    ensures Slot(c, j, n) == v
  {
    RemainderIs(c + j, CURSOR_MODULUS, 1, v);
    RemainderIs(v, n, 0, v);
  }

  lemma {:induction false} SlotsDistinctWithoutWrap(c: nat, n: nat)
    requires 0 < n && c + n <= CURSOR_MODULUS
    ensures DistinctSlots(c, n)
  {
    hide Slot;
    forall i, j | 0 <= i < j < n ensures Slot(c, i, n) != Slot(c, j, n) {
      SlotBeforeWrap(c, i, n);
      SlotBeforeWrap(c, j, n);
      DistinctRemainders(c + i, j - i, n);
    }
  }

  lemma {:induction false} SlotsDistinctWhenDividing(c: nat, n: nat)
    requires 0 < n && CURSOR_MODULUS % n == 0
    ensures DistinctSlots(c, n)
  {
    forall i, j | 0 <= i < j < n ensures Slot(c, i, n) != Slot(c, j, n) {
      DistinctRemainders(c + i, j - i, n);
      RemainderOfRemainder(c + i, n);
      RemainderOfRemainder(c + j, n);
    }
  }

  lemma {:induction false} RemainderOfRemainder(v: nat, n: nat)
    requires 0 < n && CURSOR_MODULUS % n == 0
    ensures (v % CURSOR_MODULUS) % n == v % n
  {
    var q, d := v / CURSOR_MODULUS, CURSOR_MODULUS / n;
    var r := v % CURSOR_MODULUS;
    assert CURSOR_MODULUS == n * d;
    assert v == n * (d * q + r / n) + r % n by {
      assert CURSOR_MODULUS * q == n * (d * q);
      assert r == n * (r / n) + r % n;
      MulDistributes(d * q, r / n, n);
    }
    RemainderIs(v, n, d * q + r / n, r % n);
  }

  lemma {:induction false} SlotsCollideAtWrap(c: nat, n: nat)
    requires 0 < n && c < CURSOR_MODULUS < c + n && CURSOR_MODULUS % n != 0
    ensures !DistinctSlots(c, n)
  {
    hide Slot;
    var w, r, q := CURSOR_MODULUS - c, CURSOR_MODULUS % n, CURSOR_MODULUS / n;
    assert r < n && CURSOR_MODULUS == n * q + r by { QuotientRemainder(CURSOR_MODULUS, n); }
    if r <= w {
      SlotBeforeWrap(c, w - r, n);
      RemainderIs(CURSOR_MODULUS - r, n, q, 0);
      SlotAfterWrap(c, w, n, 0);
      assert Slot(c, w - r, n) == Slot(c, w, n);
    } else {
      SlotBeforeWrap(c, 0, n);
      RemainderIs(CURSOR_MODULUS - w, n, q, r - w);
      SlotAfterWrap(c, r, n, r - w);
      assert Slot(c, 0, n) == Slot(c, r, n);
    }
  }

  lemma {:induction false} QuotientRemainder(v: nat, n: nat)
    requires n > 0
    ensures v == n * (v / n) + v % n && v % n < n
  {
  }

  /** Round robin over `n` unchanged candidates, and consistent hash for requests
      without a key, serve `n` distinct backends in `n` selections exactly when the
      64-bit cursor does not wrap on the way, or `n` divides `2^64`: at the wrap any other pool size skips a backend. */
  lemma {:induction false} RoundRobinExactCycle(p: PoolState, now: u64, key: Option<Mix64.Bytes>, exclude: seq<nat>)
    requires TakesTurns(p, key) && Available(p, now, exclude) != [] && p.rrCursor <= U64_MAX
    ensures var n := |Available(p, now, exclude)|;
            (forall i, j :: 0 <= i < j < n
               ==> Answer(p, now, key, exclude, i) != Answer(p, now, key, exclude, j))
            <==> p.rrCursor + n <= U64_MAX + 1 || (U64_MAX + 1) % n == 0
  {
    hide Answer, Slot;
    var a, c := Available(p, now, exclude), p.rrCursor;
    var n := |a|;
    AvailableIsCandidates(p.nodes, now, exclude, |p.nodes|);
    forall i, j | 0 <= i < j < n
      ensures Answer(p, now, key, exclude, i) != Answer(p, now, key, exclude, j)
              <==> Slot(c, i, n) != Slot(c, j, n)
    {
      AnswersBySlot(p, now, key, exclude, i, j);
    }
    if c + n <= CURSOR_MODULUS {
      SlotsDistinctWithoutWrap(c, n);
    } else if CURSOR_MODULUS % n == 0 {
      SlotsDistinctWhenDividing(c, n);
    } else {
      SlotsCollideAtWrap(c, n);
    }
  }

  lemma {:induction false} AnswersBySlot(
      p: PoolState, now: u64, key: Option<Mix64.Bytes>, exclude: seq<nat>, i: nat, j: nat)
    requires TakesTurns(p, key) && Available(p, now, exclude) != [] && p.rrCursor < CURSOR_MODULUS
    ensures var n := |Available(p, now, exclude)|;
            Answer(p, now, key, exclude, i) == Answer(p, now, key, exclude, j)
            <==> Slot(p.rrCursor, i, n) == Slot(p.rrCursor, j, n)
  {
    RoundRobinSelections(p, now, key, exclude, i);
    RoundRobinSelections(p, now, key, exclude, j);
    AvailableIsCandidates(p.nodes, now, exclude, |p.nodes|);
    var a, n := Available(p, now, exclude), |Available(p, now, exclude)|;
    var u, v := Slot(p.rrCursor, i, n), Slot(p.rrCursor, j, n);
    assert u < v ==> a[u] < a[v];
    assert v < u ==> a[v] < a[u];
  }
}
