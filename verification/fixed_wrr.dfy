/** Smooth weighted round robin on a fixed set of nodes with fixed scores. */
module FixedWrr {
  import opened Prelude
  import opened Sums
  import opened SmoothWrr

  /** The current weights after `k` picks. */
  ghost function After(x: seq<int>, s: seq<nat>, k: nat): (x': seq<int>)
    requires |x| == |s|
    ensures |x'| == |x|
  {
    if k == 0 then x else Next(After(x, s, k - 1), s)
  }

  /** The node that pick number `k` chooses, counting from zero. */
  ghost function PickAt(x: seq<int>, s: seq<nat>, k: nat): Option<nat>
    requires |x| == |s|
  {
    Chosen(After(x, s, k), s)
  }

  /** How many of the first `k` picks went to node `i`. */
  ghost function Share(x: seq<int>, s: seq<nat>, i: nat, k: nat): nat
    requires |x| == |s|
  {
    if k == 0 then 0 else Share(x, s, i, k - 1) + (if PickAt(x, s, k - 1) == Some(i) then 1 else 0)
  }

  /** Every participating node starts at zero, and somebody participates. */
  ghost predicate AtRest(x: seq<int>, s: seq<nat>) {
    && |x| == |s|
    && (forall i :: 0 <= i < |s| && s[i] > 0 ==> x[i] == 0)
  }

  ghost predicate SomebodyLive(s: seq<nat>) {
    exists i :: 0 <= i < |s| && s[i] > 0
  }

  lemma {:induction false} TotalPositive(s: seq<nat>)
    requires SomebodyLive(s)
    ensures Sum(s) > 0 && Count(Live(s)) >= 1 && Part(Live(s), s) == Sum(s)
  {
    var i :| 0 <= i < |s| && s[i] > 0;
    EntryAtMostSum(s, i);
    assert Live(s)[i];
    CountBounds(Live(s));
    PartSame(Live(s), Everyone(|s|), s);
  }

  /** The ledger: a current weight is what the node earned less what it paid. */
  lemma {:induction false} Ledger(x: seq<int>, s: seq<nat>, i: nat, k: nat)
    requires |x| == |s| && i < |s|
    ensures After(x, s, k)[i] == x[i] + k * s[i] - Sum(s) * Share(x, s, i, k)
  {
    hide Next, Sum, Chosen;
    if k > 0 {
      Ledger(x, s, i, k - 1);
      PickAccounts(After(x, s, k - 1), s, i);
      MulDistributes(k - 1, 1, s[i]);
      MulDistributes(Share(x, s, i, k - 1), 1, Sum(s));
    }
  }

  lemma {:induction false} PickAccounts(x: seq<int>, s: seq<nat>, i: nat)
    requires |x| == |s| && i < |s|
    ensures Next(x, s)[i] == x[i] + s[i] - (if Chosen(x, s) == Some(i) then Sum(s) else 0)
  {
    hide Sum;
    ChosenLeads(x, s);
  }

  lemma {:induction false} LiveSumIsZero(x: seq<int>, s: seq<nat>, k: nat)
    requires AtRest(x, s) && SomebodyLive(s)
    ensures Part(Live(s), After(x, s, k)) == 0
  {
    TotalPositive(s);
    if k == 0 {
      ZeroPartTo(Live(s), x, |x|);
    } else {
      LiveSumIsZero(x, s, k - 1);
      ChosenLeads(After(x, s, k - 1), s);
      PartAfterPick(Live(s), After(x, s, k - 1), s);
    }
  }

  /** No participant ever owes a whole total. */
  lemma {:induction false} NeverOwesTotal(x: seq<int>, s: seq<nat>, i: nat, k: nat)
    requires AtRest(x, s) && i < |s| && s[i] > 0
    ensures After(x, s, k)[i] > -Sum(s)
  {
    hide Next, Sum, Live;
    assert SomebodyLive(s);
    TotalPositive(s);
    if k > 0 {
      NeverOwesTotal(x, s, i, k - 1);
      LiveSumIsZero(x, s, k - 1);
      PickOwesNoTotal(After(x, s, k - 1), s, i);
    }
  }

  /** The winner of a pick holds more than zero when it pays, and nobody else pays. */
  lemma {:induction false} PickOwesNoTotal(x: seq<int>, s: seq<nat>, i: nat)
    requires |x| == |s| && SomebodyLive(s) && Part(Live(s), x) == 0
    requires i < |s| && s[i] > 0 && x[i] > -Sum(s)
    ensures Next(x, s)[i] > -Sum(s)
  {
    hide Sum, Live, Part;
    ChosenLeads(x, s);
    WinnerHoldsSome(x, s, Chosen(x, s).value);
  }

  lemma {:induction false} WinnerHoldsSome(x: seq<int>, s: seq<nat>, b: nat)
    requires |x| == |s| && Leads(Plus(x, s), s, |s|, b) && Part(Live(s), x) == 0
    ensures x[b] + s[b] > 0
  {
    hide Part, Sum, Count;
    TotalPositive(s);
    PartPlus(Live(s), x, s);
    if Plus(x, s)[b] <= 0 {
      PartAtMost(Live(s), Plus(x, s), 0);
    }
  }

  // ---- the harmonic bound ------------------------------------------------

  ghost function Harmonic(n: nat): real {
    if n == 0 then 0.0 else Harmonic(n - 1) + 1.0 / (n as real)
  }

  lemma {:induction false} HarmonicMonotone(m: nat, n: nat)
    requires m <= n
    ensures Harmonic(m) <= Harmonic(n)
  {
    if m < n {
      HarmonicMonotone(m, n - 1);
    }
  }

  /** What `m` of the `n` participants may hold together. */
  ghost function Ceiling(total: int, n: nat, m: nat): real {
    (m as real) * ((total as real) * (Harmonic(n) - Harmonic(m)))
  }

  lemma {:induction false} CeilingStep(total: int, n: nat, m: nat, part: int, lead: int, joined: int)
    requires m < n
    requires part <= m * lead
    requires part + lead == joined
    requires joined as real <= Ceiling(total, n, m + 1) + (total as real)
    ensures part as real <= Ceiling(total, n, m)
  {
    hide Harmonic;
    var d := Harmonic(n) - Harmonic(m + 1);
    var q := HarmonicNext(m);
    assert (m + 1) * part <= m * joined by {
      MulDistributes(part, lead, m);
      MulDistributes(m, 1, part);
    }
    RealStep(m as real, total as real, d, q, part as real, joined as real);
  }

  lemma {:induction false} HarmonicNext(m: nat) returns (q: real)
    ensures q * ((m as real) + 1.0) == 1.0
    ensures Harmonic(m + 1) == Harmonic(m) + q
  {
    q := 1.0 / ((m + 1) as real);
  }

  lemma {:induction false} RealStep(m: real, t: real, d: real, q: real, part: real, joined: real)
    requires m >= 0.0 && q * (m + 1.0) == 1.0
    requires (m + 1.0) * part <= m * joined
    requires joined <= (m + 1.0) * (t * d) + t
    ensures part <= m * (t * (d + q))
  {
    var c := m + 1.0;
    RealMonotone(m, joined, c * (t * d) + t);
    ScaledCeiling(m, t, d, q, c);
    if part > m * (t * (d + q)) {
      RealMonotone(c, m * (t * (d + q)), part);
    }
  }

  lemma {:induction false} RealMonotone(a: real, x: real, y: real)
    requires a >= 0.0 && x <= y
    ensures a * x <= a * y
    ensures a > 0.0 && x < y ==> a * x < a * y
  {
  }

  lemma {:induction false} ScaledCeiling(m: real, t: real, d: real, q: real, c: real)
    requires q * c == 1.0
    ensures c * (m * (t * (d + q))) == m * (c * (t * d) + t)
  {
    var mt := m * t;
    assert m * (t * (d + q)) == mt * d + mt * q;
    assert c * (mt * q) == mt * (q * c);
    assert c * (mt * d) == m * (c * (t * d));
  }

  lemma {:induction false} CeilingNonnegative(total: nat, n: nat, m: nat)
    requires m <= n
    ensures Ceiling(total, n, m) >= 0.0
  {
    HarmonicMonotone(m, n);
    var room := Harmonic(n) - Harmonic(m);
    RealMonotone(total as real, 0.0, room);
    RealMonotone(m as real, 0.0, (total as real) * room);
  }

  /** The harmonic invariant: every `m` participants hold at most
      `m * T * (H_n - H_m)`. */
  lemma {:induction false} HarmonicCeiling(x: seq<int>, s: seq<nat>, mask: Mask, k: nat)
    requires AtRest(x, s) && SomebodyLive(s) && Within(mask, Live(s))
    ensures Part(mask, After(x, s, k)) as real <= Ceiling(Sum(s), Count(Live(s)), Count(mask))
    decreases k
  {
    hide Sum, Next, Ceiling;
    if k == 0 {
      CeilingAtRest(x, s, mask);
    } else {
      var before := After(x, s, k - 1);
      ChosenLeads(before, s);
      var b := Chosen(before, s).value;
      HarmonicCeiling(x, s, mask, k - 1);
      if mask[b] {
        WinnerInside(before, s, mask, b);
      } else {
        HarmonicCeiling(x, s, mask[b := true], k - 1);
        WinnerOutside(before, s, mask, b);
      }
    }
  }

  lemma {:induction false} CeilingAtRest(x: seq<int>, s: seq<nat>, mask: Mask)
    requires AtRest(x, s) && SomebodyLive(s) && Within(mask, Live(s))
    ensures Part(mask, x) as real <= Ceiling(Sum(s), Count(Live(s)), Count(mask))
  {
    hide Sum, Ceiling;
    PartMonotone(mask, Live(s), s);
    ZeroPartTo(mask, x, |x|);
    TotalPositive(s);
    CeilingNonnegative(Sum(s), Count(Live(s)), Count(mask));
  }

  /** A pick won inside a part takes from it at least what it was given. */
  lemma {:induction false} WinnerInside(x: seq<int>, s: seq<nat>, mask: Mask, b: nat)
    requires |mask| == |x| == |s| && Chosen(x, s) == Some(b) && mask[b]
    ensures Part(mask, Next(x, s)) <= Part(mask, x)
  {
    hide Next, Part;
    PartAfterPick(mask, x, s);
    PartMonotone(mask, Everyone(|s|), s);
  }

  /** A part that does not win is bounded through the part its winner would join. */
  lemma {:induction false} WinnerOutside(x: seq<int>, s: seq<nat>, mask: Mask, b: nat)
    requires |mask| == |x| == |s| && Within(mask, Live(s)) && Chosen(x, s) == Some(b) && !mask[b]
    requires Part(mask[b := true], x) as real <= Ceiling(Sum(s), Count(Live(s)), Count(mask[b := true]))
    ensures Part(mask, Next(x, s)) as real <= Ceiling(Sum(s), Count(Live(s)), Count(mask))
  {
    hide Next, Ceiling, Part, Count;
    ChosenLeads(x, s);
    var joined, y := mask[b := true], Plus(x, s);
    PartAfterPick(mask, x, s);
    PartJoin(mask, y, b);
    PartPlus(mask, x, s);
    PartPlus(joined, x, s);
    PartMonotone(joined, Everyone(|s|), s);
    PartMonotone(joined, Live(s), s);
    PartAtMost(mask, y, y[b]);
    CeilingStep(Sum(s), Count(Live(s)), Count(mask), Part(mask, y), y[b], Part(joined, y));
  }

  /** Smoothness: from rest, after every number of picks, the share of each
      participant is within one total above and `H_n - 1` totals below its
      exact proportion. */
  lemma {:induction false} Smoothness(x: seq<int>, s: seq<nat>, i: nat, k: nat)
    requires AtRest(x, s) && i < |s| && s[i] > 0
    ensures Sum(s) * Share(x, s, i, k) < k * s[i] + Sum(s)
    ensures (Sum(s) * Share(x, s, i, k)) as real
            >= (k * s[i]) as real - (Sum(s) as real) * (Harmonic(Count(Live(s))) - 1.0)
  {
    hide After, Share, Sum, Harmonic, Live, Count;
    Ledger(x, s, i, k);
    CurrentWeightBounds(x, s, i, k);
    BalancedAccount(Sum(s), Share(x, s, i, k), k * s[i], Harmonic(Count(Live(s))) - 1.0);
  }

  /** An account within one total below and `room` totals above zero, read as a
      bound on the share that was paid for. */
  lemma {:induction false} BalancedAccount(total: int, share: int, earned: int, room: real)
    requires -total < earned - total * share
    requires (earned - total * share) as real <= (total as real) * room
    ensures total * share < earned + total
    ensures (total * share) as real >= (earned as real) - (total as real) * room
  {
    var paid := total * share;
    assert (earned - paid) as real == (earned as real) - (paid as real);
  }

  /** On a fixed set a current weight stays between minus one total and `H_n - 1`
      totals. */
  lemma {:induction false} CurrentWeightBounds(x: seq<int>, s: seq<nat>, i: nat, k: nat)
    requires AtRest(x, s) && i < |s| && s[i] > 0
    ensures -Sum(s) < After(x, s, k)[i]
    ensures After(x, s, k)[i] as real <= (Sum(s) as real) * (Harmonic(Count(Live(s))) - 1.0)
  {
    assert SomebodyLive(s);
    TotalPositive(s);
    NeverOwesTotal(x, s, i, k);
    SinglePart(After(x, s, k), i);
    HarmonicCeiling(x, s, Only(|s|, i), k);
    CeilingOfOne(Sum(s), Count(Live(s)));
  }

  lemma {:induction false} CeilingOfOne(total: int, n: nat)
    ensures Ceiling(total, n, 1) == (total as real) * (Harmonic(n) - 1.0)
  {
    assert Harmonic(0) == 0.0;
    assert Harmonic(1) == 1.0;
  }

  // ---- exact cycles ------------------------------------------------------

  ghost predicate DividesEveryQuota(s: seq<nat>, k: nat)
    requires Sum(s) > 0
  {
    forall i :: 0 <= i < |s| ==> (k * s[i]) % Sum(s) == 0
  }

  lemma {:induction false} NonnegativeZeroSum(mask: Mask, x: seq<int>, i: nat)
    requires |mask| == |x| && i < |x| && mask[i]
    requires forall j :: 0 <= j < |x| && mask[j] ==> x[j] >= 0
    requires Part(mask, x) == 0
    ensures x[i] == 0
  {
    var others := mask[i := false];
    PartJoin(others, x, i);
    assert others[i := true] == mask;
    NonnegativePart(others, x, |x|);
  }

  lemma {:induction false} NonnegativePart(mask: Mask, x: seq<int>, n: nat)
    requires |mask| == |x| && n <= |x|
    requires forall j :: 0 <= j < n && mask[j] ==> x[j] >= 0
    ensures PartTo(mask, x, n) >= 0
  {
    if n > 0 {
      NonnegativePart(mask, x, n - 1);
    }
  }

  /** A weight that is a multiple of the total and owes less than one total owes
      nothing. */
  lemma {:induction false} MultipleAboveMinusTotal(t: nat, earned: nat, share: nat)
    requires t > 0 && earned % t == 0 && t * share < earned + t
    ensures earned - t * share >= 0
  {
    var q := earned / t;
    assert earned == t * q;
    if q < share {
      MulMonotone(t, q + 1, share);
      MulDistributes(q, 1, t);
    }
  }

  lemma {:induction false} NonParticipantUntouched(x: seq<int>, s: seq<nat>, i: nat, k: nat)
    requires |x| == |s| && i < |s| && s[i] == 0
    ensures After(x, s, k)[i] == x[i] && Share(x, s, i, k) == 0
  {
    if k > 0 {
      NonParticipantUntouched(x, s, i, k - 1);
      ChosenLeads(After(x, s, k - 1), s);
    }
  }

  lemma {:induction false} BackToStart(x: seq<int>, s: seq<nat>, k: nat)
    requires AtRest(x, s) && SomebodyLive(s) && Sum(s) > 0 && DividesEveryQuota(s, k)
    ensures After(x, s, k) == x
  {
    LiveSumIsZero(x, s, k);
    var x' := After(x, s, k);
    forall i | 0 <= i < |s| && s[i] > 0 ensures x'[i] >= 0 {
      Ledger(x, s, i, k);
      NeverOwesTotal(x, s, i, k);
      MultipleAboveMinusTotal(Sum(s), k * s[i], Share(x, s, i, k));
    }
    forall i | 0 <= i < |s| ensures x'[i] == x[i] {
      if s[i] > 0 {
        NonnegativeZeroSum(Live(s), x', i);
      } else {
        NonParticipantUntouched(x, s, i, k);
      }
    }
  }

  /** Exact cycles, both ways: from rest, the pool is back where it started after
      `k` picks exactly when the total divides every `k * s_i`; each participant
      has then been picked in exact proportion. */
  lemma {:induction false} ExactCycle(x: seq<int>, s: seq<nat>, k: nat)
    requires AtRest(x, s) && SomebodyLive(s)
    ensures Sum(s) > 0
    ensures After(x, s, k) == x <==> DividesEveryQuota(s, k)
    ensures DividesEveryQuota(s, k) ==> forall i :: 0 <= i < |s| ==> Sum(s) * Share(x, s, i, k) == k * s[i]
  {
    TotalPositive(s);
    if DividesEveryQuota(s, k) {
      BackToStart(x, s, k);
    }
    if After(x, s, k) == x {
      forall i | 0 <= i < |s|
        ensures (k * s[i]) % Sum(s) == 0 && Sum(s) * Share(x, s, i, k) == k * s[i]
      {
        SettledAccount(x, s, i, k);
      }
    }
  }

  lemma {:induction false} SettledAccount(x: seq<int>, s: seq<nat>, i: nat, k: nat)
    requires |x| == |s| && i < |s| && Sum(s) > 0 && After(x, s, k)[i] == x[i]
    ensures Sum(s) * Share(x, s, i, k) == k * s[i] && (k * s[i]) % Sum(s) == 0
  {
    hide *;
    Ledger(x, s, i, k);
    MultipleHasNoRemainder(Sum(s), Share(x, s, i, k), k * s[i]);
  }

  lemma {:induction false} MultipleHasNoRemainder(t: nat, q: nat, n: nat)
    requires t > 0 && n == t * q
    ensures n % t == 0
  {
    var d, r := n / t, n % t;
    MulDistributes(q, d, t);
    assert r == (q - d) * t;
    if q > d {
      MulMonotone(t, 1, q - d);
    } else if q < d {
      MulMonotone(t, 1, d - q);
    }
  }

  lemma {:induction false} AfterAfter(x: seq<int>, s: seq<nat>, a: nat, b: nat)
    requires |x| == |s|
    ensures After(x, s, a + b) == After(After(x, s, a), s, b)
  {
    hide Next;
    if b > 0 {
      AfterAfter(x, s, a, b - 1);
    }
  }

  /** The pick sequence repeats with every such period. */
  lemma {:induction false} CycleRepeats(x: seq<int>, s: seq<nat>, k: nat, j: nat)
    requires AtRest(x, s) && SomebodyLive(s) && Sum(s) > 0 && DividesEveryQuota(s, k)
    ensures PickAt(x, s, k + j) == PickAt(x, s, j)
  {
    ExactCycle(x, s, k);
    AfterAfter(x, s, k, j);
  }

  /** In particular one total is always a period, in which every node is picked
      exactly its score's number of times. */
  lemma {:induction false} OneTotalIsAPeriod(x: seq<int>, s: seq<nat>)
    requires AtRest(x, s) && SomebodyLive(s)
    ensures Sum(s) > 0
    ensures After(x, s, Sum(s)) == x
    ensures forall i :: 0 <= i < |s| ==> Share(x, s, i, Sum(s)) == s[i]
  {
    TotalPositive(s);
    forall i | 0 <= i < |s| ensures (Sum(s) * s[i]) % Sum(s) == 0 {
      MultipleHasNoRemainder(Sum(s), s[i], Sum(s) * s[i]);
    }
    ExactCycle(x, s, Sum(s));
    forall i | 0 <= i < |s| ensures Share(x, s, i, Sum(s)) == s[i] {
      SameMultiple(Sum(s), Share(x, s, i, Sum(s)), s[i]);
    }
  }

  lemma {:induction false} SameMultiple(t: nat, p: nat, q: nat)
    requires t > 0 && t * p == t * q
    ensures p == q
  {
    DivideOut(t, p, q);
    DivideOut(t, q, p);
  }
}
