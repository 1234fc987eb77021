/** Sums of integer sequences over a chosen part of their indices. */
module Sums {
  import opened Prelude

  /** Which indices take part. */
  type Mask = seq<bool>

  /** Sum of the first `n` entries of `x` selected by `mask`. */
  ghost function PartTo(mask: Mask, x: seq<int>, n: nat): int
    requires n <= |mask| && n <= |x|
  {
    if n == 0 then 0 else PartTo(mask, x, n - 1) + (if mask[n - 1] then x[n - 1] else 0)
  }

  ghost function Part(mask: Mask, x: seq<int>): int
    requires |mask| == |x|
  {
    PartTo(mask, x, |x|)
  }

  ghost function Everyone(n: nat): Mask {
    seq(n, i => true)
  }

  ghost function Sum(x: seq<int>): int {
    Part(Everyone(|x|), x)
  }

  ghost function CountTo(mask: Mask, n: nat): nat
    requires n <= |mask|
  {
    if n == 0 then 0 else CountTo(mask, n - 1) + (if mask[n - 1] then 1 else 0)
  }

  ghost function Count(mask: Mask): nat {
    CountTo(mask, |mask|)
  }

  function Plus(x: seq<int>, y: seq<int>): (r: seq<int>)
    requires |x| == |y|
    ensures |r| == |x|
  {
    seq(|x|, i requires 0 <= i < |x| => x[i] + y[i])
  }

  ghost function And(a: Mask, b: Mask): Mask
    requires |a| == |b|
  {
    seq(|a|, i requires 0 <= i < |a| => a[i] && b[i])
  }

  ghost function Without(a: Mask, b: Mask): Mask
    requires |a| == |b|
  {
    seq(|a|, i requires 0 <= i < |a| => a[i] && !b[i])
  }

  ghost predicate Within(a: Mask, b: Mask) {
    |a| == |b| && forall i :: 0 <= i < |a| && a[i] ==> b[i]
  }

  lemma {:induction false} PartUpdateTo(mask: Mask, x: seq<int>, i: nat, v: int, n: nat)
    requires |mask| == |x| && i < |x| && n <= |x|
    ensures PartTo(mask, x[i := v], n) == PartTo(mask, x, n) + (if i < n && mask[i] then v - x[i] else 0)
  {
    if n > 0 {
      PartUpdateTo(mask, x, i, v, n - 1);
    }
  }

  lemma {:induction false} PartUpdate(mask: Mask, x: seq<int>, i: nat, v: int)
    requires |mask| == |x| && i < |x|
    ensures Part(mask, x[i := v]) == Part(mask, x) + (if mask[i] then v - x[i] else 0)
  {
    PartUpdateTo(mask, x, i, v, |x|);
  }

  lemma {:induction false} PartJoinTo(mask: Mask, x: seq<int>, i: nat, n: nat)
    requires |mask| == |x| && i < |x| && n <= |x| && !mask[i]
    ensures PartTo(mask[i := true], x, n) == PartTo(mask, x, n) + (if i < n then x[i] else 0)
    ensures CountTo(mask[i := true], n) == CountTo(mask, n) + (if i < n then 1 else 0)
  {
    if n > 0 {
      PartJoinTo(mask, x, i, n - 1);
    }
  }

  lemma {:induction false} PartJoin(mask: Mask, x: seq<int>, i: nat)
    requires |mask| == |x| && i < |x| && !mask[i]
    ensures Part(mask[i := true], x) == Part(mask, x) + x[i]
    ensures Count(mask[i := true]) == Count(mask) + 1
  {
    PartJoinTo(mask, x, i, |x|);
  }

  lemma {:induction false} PartPlusTo(mask: Mask, x: seq<int>, y: seq<int>, n: nat)
    requires |mask| == |x| == |y| && n <= |x|
    ensures PartTo(mask, Plus(x, y), n) == PartTo(mask, x, n) + PartTo(mask, y, n)
  {
    if n > 0 {
      PartPlusTo(mask, x, y, n - 1);
    }
  }

  lemma {:induction false} PartPlus(mask: Mask, x: seq<int>, y: seq<int>)
    requires |mask| == |x| == |y|
    ensures Part(mask, Plus(x, y)) == Part(mask, x) + Part(mask, y)
  {
    PartPlusTo(mask, x, y, |x|);
  }

  lemma {:induction false} PartSplitTo(mask: Mask, cut: Mask, x: seq<int>, n: nat)
    requires |mask| == |cut| == |x| && n <= |x|
    ensures PartTo(mask, x, n) == PartTo(And(mask, cut), x, n) + PartTo(Without(mask, cut), x, n)
    ensures CountTo(mask, n) == CountTo(And(mask, cut), n) + CountTo(Without(mask, cut), n)
  {
    if n > 0 {
      PartSplitTo(mask, cut, x, n - 1);
    }
  }

  lemma {:induction false} PartSplit(mask: Mask, cut: Mask, x: seq<int>)
    requires |mask| == |cut| == |x|
    ensures Part(mask, x) == Part(And(mask, cut), x) + Part(Without(mask, cut), x)
    ensures Count(mask) == Count(And(mask, cut)) + Count(Without(mask, cut))
  {
    PartSplitTo(mask, cut, x, |x|);
  }

  /** Entries bounded by `c` sum to at most `c` each. */
  lemma {:induction false} PartAtMostTo(mask: Mask, x: seq<int>, c: int, n: nat)
    requires |mask| == |x| && n <= |x|
    requires forall i :: 0 <= i < n && mask[i] ==> x[i] <= c
    ensures PartTo(mask, x, n) <= CountTo(mask, n) * c
  {
    if n > 0 {
      PartAtMostTo(mask, x, c, n - 1);
      MulDistributes(CountTo(mask, n - 1), 1, c);
    }
  }

  lemma {:induction false} PartAtMost(mask: Mask, x: seq<int>, c: int)
    requires |mask| == |x|
    requires forall i :: 0 <= i < |x| && mask[i] ==> x[i] <= c
    ensures Part(mask, x) <= Count(mask) * c
  {
    PartAtMostTo(mask, x, c, |x|);
  }

  /** Nonnegative entries: a smaller part sums to no more. */
  lemma {:induction false} PartMonotoneTo(a: Mask, b: Mask, x: seq<int>, n: nat)
    requires Within(a, b) && |b| == |x| && n <= |x|
    requires forall i :: 0 <= i < |x| ==> x[i] >= 0
    ensures 0 <= PartTo(a, x, n) <= PartTo(b, x, n)
    ensures CountTo(a, n) <= CountTo(b, n)
  {
    if n > 0 {
      PartMonotoneTo(a, b, x, n - 1);
    }
  }

  lemma {:induction false} PartMonotone(a: Mask, b: Mask, x: seq<int>)
    requires Within(a, b) && |b| == |x|
    requires forall i :: 0 <= i < |x| ==> x[i] >= 0
    ensures 0 <= Part(a, x) <= Part(b, x)
    ensures Count(a) <= Count(b)
  {
    PartMonotoneTo(a, b, x, |x|);
  }

  lemma {:induction false} PartAgreeTo(mask: Mask, x: seq<int>, y: seq<int>, n: nat)
    requires |mask| == |x| == |y| && n <= |x|
    requires forall i :: 0 <= i < n && mask[i] ==> x[i] == y[i]
    ensures PartTo(mask, x, n) == PartTo(mask, y, n)
  {
    if n > 0 {
      PartAgreeTo(mask, x, y, n - 1);
    }
  }

  lemma {:induction false} PartAgree(mask: Mask, x: seq<int>, y: seq<int>)
    requires |mask| == |x| == |y|
    requires forall i :: 0 <= i < |x| && mask[i] ==> x[i] == y[i]
    ensures Part(mask, x) == Part(mask, y)
  {
    PartAgreeTo(mask, x, y, |x|);
  }

  lemma {:induction false} PartSameTo(a: Mask, b: Mask, x: seq<int>, n: nat)
    requires |a| == |b| == |x| && n <= |x|
    requires forall i :: 0 <= i < n && a[i] != b[i] ==> x[i] == 0
    ensures PartTo(a, x, n) == PartTo(b, x, n)
  {
    if n > 0 {
      PartSameTo(a, b, x, n - 1);
    }
  }

  /** Masks that differ only where the entries are zero give the same sum. */
  lemma {:induction false} PartSame(a: Mask, b: Mask, x: seq<int>)
    requires |a| == |b| == |x|
    requires forall i :: 0 <= i < |x| && a[i] != b[i] ==> x[i] == 0
    ensures Part(a, x) == Part(b, x)
  {
    PartSameTo(a, b, x, |x|);
  }

  lemma {:induction false} CountBoundsTo(mask: Mask, n: nat)
    requires n <= |mask|
    ensures CountTo(mask, n) <= n
    ensures (exists i :: 0 <= i < n && mask[i]) ==> CountTo(mask, n) >= 1
    ensures CountTo(mask, n) == n <==> forall i :: 0 <= i < n ==> mask[i]
  {
    if n > 0 {
      CountBoundsTo(mask, n - 1);
    }
  }

  lemma {:induction false} CountBounds(mask: Mask)
    ensures Count(mask) <= |mask|
    ensures (exists i :: 0 <= i < |mask| && mask[i]) ==> Count(mask) >= 1
    ensures Count(mask) == |mask| <==> forall i :: 0 <= i < |mask| ==> mask[i]
  {
    CountBoundsTo(mask, |mask|);
  }

  lemma {:induction false} ZeroPartTo(mask: Mask, x: seq<int>, n: nat)
    requires |mask| == |x| && n <= |x|
    requires forall i :: 0 <= i < n && mask[i] ==> x[i] == 0
    ensures PartTo(mask, x, n) == 0
  {
    if n > 0 {
      ZeroPartTo(mask, x, n - 1);
    }
  }

  /** Sums are additive over appending one entry. */
  lemma {:induction false} SumAppend(x: seq<int>, v: int)
    ensures Sum(x + [v]) == Sum(x) + v
  {
    PartPrefix(Everyone(|x|), x, true, v, |x|);
    assert Everyone(|x|) + [true] == Everyone(|x| + 1);
  }

  lemma {:induction false} PartPrefix(mask: Mask, x: seq<int>, b: bool, v: int, n: nat)
    requires |mask| == |x| && n <= |x|
    ensures PartTo(mask + [b], x + [v], n) == PartTo(mask, x, n)
    ensures CountTo(mask + [b], n) == CountTo(mask, n)
  {
    if n > 0 {
      PartPrefix(mask, x, b, v, n - 1);
    }
  }
}
