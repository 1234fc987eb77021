/** src/pool.rs, `select_weighted`: smooth weighted round robin on sequences.
    `x` holds the current weights, `s` the effective scores of this pick; a
    score of zero means the node takes no part (unavailable, excluded or of
    weight zero). */
module SmoothWrr {
  import opened Prelude
  import opened Sums

  /** `b` is the lowest-index maximum of `y` among the participants below `n`. */
  ghost predicate Leads(y: seq<int>, s: seq<nat>, n: nat, b: nat)
    requires |y| == |s| && n <= |s|
  {
    && b < n && s[b] > 0
    && (forall i :: 0 <= i < n && s[i] > 0 ==> y[i] <= y[b])
    && (forall i :: 0 <= i < b && s[i] > 0 ==> y[i] < y[b])
  }

  /** The leader a left-to-right scan holds after the first `n` nodes. */
  function LeaderTo(y: seq<int>, s: seq<nat>, n: nat): (b: Option<nat>)
    requires |y| == |s| && n <= |s|
    ensures b.Some? ==> b.value < n && s[b.value] > 0
  {
    if n == 0 then None
    else
      var b := LeaderTo(y, s, n - 1);
      if s[n - 1] == 0 then b
      else if b.None? || y[n - 1] > y[b.value] then Some(n - 1)
      else b
  }

  /** The scan keeps the lowest-index maximum, and finds nobody exactly when
      nobody takes part. */
  lemma {:induction false} ScanFindsFirstMaximum(y: seq<int>, s: seq<nat>, n: nat)
    requires |y| == |s| && n <= |s|
    ensures LeaderTo(y, s, n).None? <==> forall i :: 0 <= i < n ==> s[i] == 0
    ensures forall b: nat :: LeaderTo(y, s, n) == Some(b) <==> Leads(y, s, n, b)
  {
    if n > 0 {
      ScanFindsFirstMaximum(y, s, n - 1);
      var b := LeaderTo(y, s, n - 1);
      assert b.Some? ==> Leads(y, s, n - 1, b.value);
    }
  }

  /** Add every score, take the lowest-index maximum. */
  function Chosen(x: seq<int>, s: seq<nat>): (b: Option<nat>)
    requires |x| == |s|
    ensures b.Some? ==> b.value < |s| && s[b.value] > 0
  {
    LeaderTo(Plus(x, s), s, |s|)
  }

  /** The current weights after one pick. */
  ghost function Next(x: seq<int>, s: seq<nat>): (x': seq<int>)
    requires |x| == |s|
    ensures |x'| == |x|
  {
    match Chosen(x, s)
    case None => x
    case Some(b) => Plus(x, s)[b := x[b] + s[b] - Sum(s)]
  }

  lemma {:induction false} ChosenLeads(x: seq<int>, s: seq<nat>)
    requires |x| == |s|
    ensures Chosen(x, s).Some? ==> Leads(Plus(x, s), s, |s|, Chosen(x, s).value)
    ensures Chosen(x, s).None? <==> forall i :: 0 <= i < |s| ==> s[i] == 0
  {
    ScanFindsFirstMaximum(Plus(x, s), s, |s|);
  }

  /** One pick moves the sum of any part of the pool by its own scores, less the
      total when the chosen node is in it. */
  lemma {:induction false} PartAfterPick(mask: Mask, x: seq<int>, s: seq<nat>)
    requires |mask| == |x| == |s|
    ensures Chosen(x, s).Some?
            ==> Part(mask, Next(x, s)) == Part(mask, x) + Part(mask, s)
                                          - (if mask[Chosen(x, s).value] then Sum(s) else 0)
  {
    PartPlus(mask, x, s);
    match Chosen(x, s)
    case None =>
    case Some(b) => PartUpdate(mask, Plus(x, s), b, x[b] + s[b] - Sum(s));
  }

  /** Conservation: the current weights of the whole pool keep their sum. */
  lemma {:induction false} SumConserved(x: seq<int>, s: seq<nat>)
    requires |x| == |s|
    ensures Sum(Next(x, s)) == Sum(x)
  {
    PartAfterPick(Everyone(|x|), x, s);
  }

  // ---- any run: availability, exclusion and ramps may change at every pick --

  /** Every part of `m` of the `n` nodes holds at most `cap * m * (n - m) / 2`. */
  ghost predicate Spread(x: seq<int>, cap: nat) {
    forall mask: Mask :: |mask| == |x| ==> 2 * Part(mask, x) <= cap * (Count(mask) * (|x| - Count(mask)))
  }

  ghost function Live(s: seq<nat>): Mask {
    seq(|s|, i requires 0 <= i < |s| => s[i] > 0)
  }

  lemma {:induction false} AwayIsIdle(mask: Mask, s: seq<nat>)
    requires |mask| == |s|
    ensures Part(And(mask, Live(s)), s) == Part(mask, s)
  {
    PartSame(And(mask, Live(s)), mask, s);
  }

  /** The members of a part that take part in a pick they do not win sit, after
      the scores are added, at most at the winner: so joining the winner to the
      part bounds what the part can hold. */
  lemma {:induction false} PartBehindWinner(mask: Mask, x: seq<int>, s: seq<nat>, b: nat)
    requires |mask| == |x| == |s| && Chosen(x, s) == Some(b) && !mask[b]
    ensures var k, away := Count(And(mask, Live(s))), Without(mask, Live(s));
            (k + 1) * Part(mask, Next(x, s))
            <= Part(away, x) + k * (Part(mask[b := true], x) + Part(mask[b := true], s))
  {
    var live, away, y := And(mask, Live(s)), Without(mask, Live(s)), Plus(x, s);
    var k := Count(live);
    ChosenLeads(x, s);
    PartAfterPick(mask, x, s);
    PartPlus(mask, x, s);
    PartSplit(mask, Live(s), y);
    PartAgree(away, y, x);
    PartAtMost(live, y, y[b]);
    PartJoin(mask, y, b);
    PartPlus(mask[b := true], x, s);
    var p, q, u := Part(live, y), y[b], Part(away, x);
    assert Part(mask, Next(x, s)) == u + p;
    assert Part(mask[b := true], x) + Part(mask[b := true], s) == u + p + q;
    BehindArithmetic(k, p, q, u);
  }

  lemma {:induction false} BehindArithmetic(k: nat, p: int, q: int, u: int)
    requires p <= k * q
    ensures (k + 1) * (u + p) <= u + k * (u + p + q)
  {
    assert (k + 1) * (u + p) == k * u + u + k * p + p;
    assert k * (u + p + q) == k * u + k * p + k * q;
  }

  /** `m * (n - m)` is concave: its value at `m` beats the `1 : k` mean of its
      values at `m - k` and `m + 1` with enough to spare for `k` scores. */
  lemma {:induction false} Concave(n: int, m: int, k: nat)
    ensures (m - k) * (n - (m - k)) + k * ((m + 1) * (n - (m + 1))) + 2 * k
            <= (k + 1) * (m * (n - m))
            || k == 0
  {
    var t := m * (n - m);
    assert (m - k) * (n - (m - k)) == t + m * k - k * (n - m) - k * k;
    assert (m + 1) * (n - (m + 1)) == t - m + (n - m) - 1;
    MulDistributes(t - m + (n - m), 1, k);
    MulDistributes(t - m, n - m, k);
    MulDistributes(t, m, k);
    MulDistributes(k, 1, t);
    if k > 0 {
      MulMonotone(k, 1, k);
    }
  }

  lemma {:induction false} SpreadArithmetic(cap: nat, n: nat, m: nat, k: nat, part: int, away: int, joined: int)
    requires 1 <= k <= m < n
    requires 2 * away <= cap * ((m - k) * (n - (m - k)))
    requires 2 * joined <= cap * ((m + 1) * (n - (m + 1)))
    requires (k + 1) * part <= away + k * (joined + cap)
    ensures 2 * part <= cap * (m * (n - m))
  {
    Concave(n, m, k);
    CapArithmetic(cap, k, (m - k) * (n - (m - k)), (m + 1) * (n - (m + 1)), m * (n - m), part, away, joined);
  }

  lemma {:induction false} CapArithmetic(cap: nat, k: nat, a: int, j: int, t: int, part: int, away: int, joined: int)
    requires a + k * j + 2 * k <= (k + 1) * t
    requires 2 * away <= cap * a && 2 * joined <= cap * j
    requires (k + 1) * part <= away + k * (joined + cap)
    ensures 2 * part <= cap * t
  {
    MulMonotone(k, 2 * joined, cap * j);
    MulMonotone(cap, a + k * j + 2 * k, (k + 1) * t);
    assert (k + 1) * (2 * part) <= (k + 1) * (cap * t);
    DivideOut(k + 1, 2 * part, cap * t);
  }

  lemma {:induction false} DivideOut(k: nat, p: int, q: int)
    requires k > 0 && k * p <= k * q
    ensures p <= q
  {
    if p > q {
      MulMonotone(k, q + 1, p);
      MulDistributes(q, 1, k);
    }
  }

  lemma {:induction false} SpreadKeptFor(mask: Mask, x: seq<int>, s: seq<nat>, cap: nat)
    requires |mask| == |x| == |s| && Spread(x, cap) && Sum(s) <= cap
    ensures 2 * Part(mask, Next(x, s)) <= cap * (Count(mask) * (|x| - Count(mask)))
  {
    var m, n, live, away := Count(mask), |x|, And(mask, Live(s)), Without(mask, Live(s));
    var k := Count(live);
    match Chosen(x, s)
    case None =>
    case Some(b) =>
      PartAfterPick(mask, x, s);
      if mask[b] || k == 0 {
        PartMonotone(mask, Everyone(n), s);
        AwayIsIdle(mask, s);
        if k == 0 { EmptyPart(live, s); }
      } else {
        var joined := mask[b := true];
        PartBehindWinner(mask, x, s, b);
        PartMonotone(joined, Everyone(n), s);
        PartJoin(mask, x, b);
        PartSplit(mask, Live(s), x);
        CountBounds(joined);
        MulMonotone(k, Part(joined, x) + Part(joined, s), Part(joined, x) + cap);
        SpreadArithmetic(cap, n, m, k, Part(mask, Next(x, s)), Part(away, x), Part(joined, x));
      }
  }

  lemma {:induction false} EmptyPart(mask: Mask, x: seq<int>)
    requires |mask| == |x| && Count(mask) == 0
    ensures Part(mask, x) == 0
  {
    CountBounds(mask);
    ZeroPartTo(mask, x, |x|);
  }

  /** The spread bound survives every pick whose total stays within the cap. */
  lemma {:induction false} SpreadKept(x: seq<int>, s: seq<nat>, cap: nat)
    requires |x| == |s| && Spread(x, cap) && Sum(s) <= cap
    ensures Spread(Next(x, s), cap)
  {
    forall mask: Mask | |mask| == |x|
      ensures 2 * Part(mask, Next(x, s)) <= cap * (Count(mask) * (|x| - Count(mask)))
    {
      SpreadKeptFor(mask, x, s, cap);
    }
  }

  lemma {:induction false} SpreadFromRest(x: seq<int>, cap: nat)
    requires forall i :: 0 <= i < |x| ==> x[i] == 0
    ensures Spread(x, cap)
  {
    forall mask: Mask | |mask| == |x|
      ensures 2 * Part(mask, x) <= cap * (Count(mask) * (|x| - Count(mask)))
    {
      ZeroPartTo(mask, x, |x|);
      CountBounds(mask);
      MulMonotone(Count(mask), 0, |x| - Count(mask));
      MulMonotone(cap, 0, Count(mask) * (|x| - Count(mask)));
    }
  }

  /** A newly added node starts at zero and loosens the bound for everyone. */
  lemma {:induction false} SpreadGrows(x: seq<int>, cap: nat, cap': nat)
    requires Spread(x, cap) && cap <= cap'
    ensures Spread(x + [0], cap')
  {
    forall mask: Mask | |mask| == |x + [0]|
      ensures 2 * Part(mask, x + [0]) <= cap' * (Count(mask) * (|x + [0]| - Count(mask)))
    {
      var rest, last := mask[..|x|], mask[|x|];
      assert mask == rest + [last];
      PartPrefix(rest, x, last, 0, |x|);
      CountBounds(rest);
      assert 2 * Part(rest, x) <= cap * (Count(rest) * (|x| - Count(rest)));
      RoomGrows(cap, cap', Count(rest), |x|);
    }
  }

  /** Room for `m` of `n` grows with the cap and with one more node on either side. */
  lemma {:induction false} RoomGrows(cap: nat, cap': nat, m: nat, n: nat)
    requires m <= n && cap <= cap'
    ensures cap * (m * (n - m)) <= cap' * ((m + 1) * (n - m))
    ensures cap * (m * (n - m)) <= cap' * (m * (n + 1 - m))
  {
    MulMonotone(m, 0, n - m);
    MulMonotone(m, n - m, n + 1 - m);
    MulMonotone(n - m, m, m + 1);
    var room := m * (n - m);
    MulMonotone(room, cap, cap');
    MulMonotone(cap', room, (m + 1) * (n - m));
    MulMonotone(cap', room, m * (n + 1 - m));
  }

  /** In every pool whose weights sum to zero and are spread within `cap`, each
      one lies within `cap * (n - 1) / 2` of zero. */
  lemma {:induction false} SpreadBoundsEach(x: seq<int>, cap: nat, i: nat)
    requires Spread(x, cap) && Sum(x) == 0 && i < |x|
    ensures -(cap * (|x| - 1)) <= 2 * x[i] <= cap * (|x| - 1)
  {
    var n := |x|;
    SinglePart(x, i);
    assert 2 * Part(Only(n, i), x) <= cap * (1 * (n - 1));
    var others := Everyone(n)[i := false];
    PartJoin(others, x, i);
    assert others[i := true] == Everyone(n);
    CountBounds(Everyone(n));
    assert 2 * Part(others, x) <= cap * ((n - 1) * 1);
  }

  /** The part holding node `i` alone. */
  ghost function Only(n: nat, i: nat): Mask {
    seq(n, j => j == i)
  }

  lemma {:induction false} SinglePart(x: seq<int>, i: nat)
    requires i < |x|
    ensures Part(Only(|x|, i), x) == x[i] && Count(Only(|x|, i)) == 1
  {
    var nobody: Mask := seq(|x|, j => false);
    NobodyCounts(|x|, |x|);
    EmptyPart(nobody, x);
    PartJoin(nobody, x, i);
    assert nobody[i := true] == Only(|x|, i);
  }

  lemma {:induction false} NobodyCounts(n: nat, k: nat)
    requires k <= n
    ensures CountTo(seq(n, j => false), k) == 0
  {
    if k > 0 {
      NobodyCounts(n, k - 1);
    }
  }

  /** So a pick on such a pool stays within `i64` throughout: the scores added,
      the running total, and the weights before and after. */
  lemma {:induction false} PickFitsI64(x: seq<int>, s: seq<nat>, cap: nat, i: nat)
    requires |x| == |s| && i < |x|
    requires Spread(x, cap) && Sum(x) == 0 && Sum(s) <= cap
    requires cap * (|x| + 1) <= 2 * I64_MAX
    ensures -I64_MAX <= x[i] <= I64_MAX && -I64_MAX <= Next(x, s)[i] <= I64_MAX
    ensures -I64_MAX <= Plus(x, s)[i] <= I64_MAX
    ensures forall k :: 0 <= k <= |s| ==> 0 <= PartTo(Everyone(|s|), s, k) <= I64_MAX
  {
    SpreadBoundsEach(x, cap, i);
    SpreadKept(x, s, cap);
    SumConserved(x, s);
    SpreadBoundsEach(Next(x, s), cap, i);
    MulDistributes(|x| - 1, 2, cap);
    MulMonotone(cap, 2, |x| + 1);
    EntryAtMostSum(s, i);
    forall k | 0 <= k <= |s| ensures 0 <= PartTo(Everyone(|s|), s, k) <= I64_MAX {
      PrefixAtMostSum(s, k);
    }
  }

  lemma {:induction false} EntryAtMostSum(s: seq<nat>, i: nat)
    requires i < |s|
    ensures s[i] <= Sum(s)
  {
    var others := Everyone(|s|)[i := false];
    PartJoin(others, s, i);
    assert others[i := true] == Everyone(|s|);
    PartMonotone(others, Everyone(|s|), s);
  }

  lemma {:induction false} PrefixAtMostSum(s: seq<nat>, k: nat)
    requires k <= |s|
    ensures 0 <= PartTo(Everyone(|s|), s, k) <= Sum(s)
    decreases |s| - k
  {
    PartMonotoneTo(Everyone(|s|), Everyone(|s|), s, k);
    if k < |s| {
      PrefixAtMostSum(s, k + 1);
    }
  }
}
