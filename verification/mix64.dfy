/** src/hashring.rs: the FNV-1a name hash and the SplitMix64 finalizer. */
module Mix64 {
  import opened Prelude

  type Bytes = seq<bv8>

  /** Absorb one byte. */
  function FnvStep(h: bv64, b: bv8): bv64 {
    (h ^ (b as bv64)) * 0x0000_0100_0000_01b3
  }

  /** FNV-1a over the first `n` bytes. */
  function FnvPrefix(bytes: Bytes, n: nat): bv64
    requires n <= |bytes|
  {
    if n == 0 then 0xcbf2_9ce4_8422_2325 else FnvStep(FnvPrefix(bytes, n - 1), bytes[n - 1])
  }

  function Fnv(bytes: Bytes): bv64 {
    FnvPrefix(bytes, |bytes|)
  }

  method Fnv1a64(bytes: Bytes) returns (h: bv64)
    ensures h == Fnv(bytes)
  {
    hide FnvStep;
    h := 0xcbf2_9ce4_8422_2325;
    for n := 0 to |bytes|
      invariant h == FnvPrefix(bytes, n)
    {
      h := FnvStep(h, bytes[n]);
    }
  }

  // ---- the finalizer ------------------------------------------------------

  function Fold30(z: bv64): bv64 {
    z ^ (z >> 30)
  }

  function Unfold30(z: bv64): bv64 {
    z ^ (z >> 30) ^ (z >> 60)
  }

  function Fold27(z: bv64): bv64 {
    z ^ (z >> 27)
  }

  function Unfold27(z: bv64): bv64 {
    z ^ (z >> 27) ^ (z >> 54)
  }

  function Fold31(z: bv64): bv64 {
    z ^ (z >> 31)
  }

  function Unfold31(z: bv64): bv64 {
    z ^ (z >> 31) ^ (z >> 62)
  }

  function MulA(z: bv64): bv64 {
    z * 0xbf58_476d_1ce4_e5b9
  }

  /** Multiplication by the inverse of that odd constant modulo 2^64. */
  function DivA(z: bv64): bv64 {
    z * 0x96de_1b17_3f11_9089
  }

  function MulB(z: bv64): bv64 {
    z * 0x94d0_49bb_1331_11eb
  }

  /** Multiplication by the inverse of that odd constant modulo 2^64. */
  function DivB(z: bv64): bv64 {
    z * 0x3196_42b2_d24d_8ec3
  }

  function Mix(z: bv64): bv64 {
    Fold31(MulB(Fold27(MulA(Fold30(z)))))
  }

  function Unmix(z: bv64): bv64 {
    Unfold30(DivA(Unfold27(DivB(Unfold31(z)))))
  }

  method MixWord(z0: bv64) returns (z: bv64)
    ensures z == Mix(z0)
  {
    hide Fold30, MulA, Fold27, MulB, Fold31;
    z := MulA(Fold30(z0));
    z := MulB(Fold27(z));
    z := Fold31(z);
  }

  // ---- and its inverse ----------------------------------------------------

  lemma {:induction false} Fold30Inverse(z: bv64)
    ensures Unfold30(Fold30(z)) == z && Fold30(Unfold30(z)) == z
  {
    Fold30Words(z);
    Fold30Congruent(Fold30(z), z ^ (z >> 30));
    Fold30Congruent(Unfold30(z), z ^ (z >> 30) ^ (z >> 60));
  }

  lemma {:induction false} Fold30Words(z: bv64)
    ensures Unfold30(z ^ (z >> 30)) == z
    ensures Fold30(z ^ (z >> 30) ^ (z >> 60)) == z
  {
  }

  lemma {:induction false} Fold30Congruent(x: bv64, y: bv64)
    requires x == y
    ensures Unfold30(x) == Unfold30(y) && Fold30(x) == Fold30(y)
  {
    hide *;
  }

  lemma {:induction false} Fold27Inverse(z: bv64)
    ensures Unfold27(Fold27(z)) == z && Fold27(Unfold27(z)) == z
  {
    Fold27Words(z);
    Fold27Congruent(Fold27(z), z ^ (z >> 27));
    Fold27Congruent(Unfold27(z), z ^ (z >> 27) ^ (z >> 54));
  }

  lemma {:induction false} Fold27Words(z: bv64)
    ensures Unfold27(z ^ (z >> 27)) == z
    ensures Fold27(z ^ (z >> 27) ^ (z >> 54)) == z
  {
  }

  lemma {:induction false} Fold27Congruent(x: bv64, y: bv64)
    requires x == y
    ensures Unfold27(x) == Unfold27(y) && Fold27(x) == Fold27(y)
  {
    hide *;
  }

  lemma {:induction false} Fold31Inverse(z: bv64)
    ensures Unfold31(Fold31(z)) == z && Fold31(Unfold31(z)) == z
  {
    Fold31Words(z);
    Fold31Congruent(Fold31(z), z ^ (z >> 31));
    Fold31Congruent(Unfold31(z), z ^ (z >> 31) ^ (z >> 62));
  }

  lemma {:induction false} Fold31Words(z: bv64)
    ensures Unfold31(z ^ (z >> 31)) == z
    ensures Fold31(z ^ (z >> 31) ^ (z >> 62)) == z
  {
  }

  lemma {:induction false} Fold31Congruent(x: bv64, y: bv64)
    requires x == y
    ensures Unfold31(x) == Unfold31(y) && Fold31(x) == Fold31(y)
  {
    hide *;
  }

  lemma {:induction false} MulAInverse(z: bv64)
    ensures DivA(MulA(z)) == z && MulA(DivA(z)) == z
  {
    MulAWords(z);
    MulACongruent(MulA(z), z * 0xbf58_476d_1ce4_e5b9);
    MulACongruent(DivA(z), z * 0x96de_1b17_3f11_9089);
  }

  lemma {:induction false} MulAWords(z: bv64)
    ensures DivA(z * 0xbf58_476d_1ce4_e5b9) == z
    ensures MulA(z * 0x96de_1b17_3f11_9089) == z
  {
  }

  lemma {:induction false} MulACongruent(x: bv64, y: bv64)
    requires x == y
    ensures DivA(x) == DivA(y) && MulA(x) == MulA(y)
  {
    hide *;
  }

  lemma {:induction false} MulBInverse(z: bv64)
    ensures DivB(MulB(z)) == z && MulB(DivB(z)) == z
  {
    MulBWords(z);
    MulBCongruent(MulB(z), z * 0x94d0_49bb_1331_11eb);
    MulBCongruent(DivB(z), z * 0x3196_42b2_d24d_8ec3);
  }

  lemma {:induction false} MulBWords(z: bv64)
    ensures DivB(z * 0x94d0_49bb_1331_11eb) == z
    ensures MulB(z * 0x3196_42b2_d24d_8ec3) == z
  {
  }

  lemma {:induction false} MulBCongruent(x: bv64, y: bv64)
    requires x == y
    ensures DivB(x) == DivB(y) && MulB(x) == MulB(y)
  {
    hide *;
  }

  /** The finalizer is a bijection of the 64-bit words, with an explicit inverse. */
  lemma {:induction false} MixBijective(z: bv64)
    ensures Unmix(Mix(z)) == z
    ensures Mix(Unmix(z)) == z
  {
    hide Fold30, MulA, Fold27, MulB, Fold31, Unfold30, DivA, Unfold27, DivB, Unfold31;
    Fold30Inverse(z);
    MulAInverse(Fold30(z));
    Fold27Inverse(MulA(Fold30(z)));
    MulBInverse(Fold27(MulA(Fold30(z))));
    Fold31Inverse(MulB(Fold27(MulA(Fold30(z)))));
    Fold31Inverse(z);
    MulBInverse(Unfold31(z));
    Fold27Inverse(DivB(Unfold31(z)));
    MulAInverse(Unfold27(DivB(Unfold31(z))));
    Fold30Inverse(DivA(Unfold27(DivB(Unfold31(z)))));
  }

  lemma {:induction false} MixInjective(x: bv64, y: bv64)
    requires Mix(x) == Mix(y)
    ensures x == y
  {
    hide Mix, Unmix;
    MixBijective(x);
    MixBijective(y);
  }

  /** Published values: FNV-1a of the empty name, of "a" and of "foobar", and the
      first output of SplitMix64 from seed zero. */
  lemma {:induction false} KnownHashes()
    ensures Fnv([]) == 0xcbf2_9ce4_8422_2325
    ensures Fnv([97]) == 0xaf63_dc4c_8601_ec8c
    ensures Fnv([102, 111, 111, 98, 97, 114]) == 0x8594_4171_f739_67e8
  {
    var foobar: Bytes := [102, 111, 111, 98, 97, 114];
    assert FnvPrefix(foobar, 1) == FnvStep(0xcbf2_9ce4_8422_2325, 102);
    assert FnvPrefix(foobar, 2) == FnvStep(FnvPrefix(foobar, 1), 111);
    assert FnvPrefix(foobar, 3) == FnvStep(FnvPrefix(foobar, 2), 111);
    assert FnvPrefix(foobar, 4) == FnvStep(FnvPrefix(foobar, 3), 98);
    assert FnvPrefix(foobar, 5) == FnvStep(FnvPrefix(foobar, 4), 97);
  }

  lemma {:induction false} KnownMix()
    ensures Mix(0x9e37_79b9_7f4a_7c15) == 0xe220_a839_7b1d_cdaf
  {
  }

  // ---- counters as words -------------------------------------------------

  function ShiftedIn(x: bv64, bit: bool): bv64 {
    (x << 1) | (if bit then 1 else 0)
  }

  /** The 64-bit word holding the counter `n`, bit by bit (`u64::from`). */
  function Word(n: nat): bv64 {
    if n == 0 then 0 else ShiftedIn(Word(n / 2), n % 2 == 1)
  }

  function Half(w: bv64): bv64 {
    w >> 1
  }

  predicate Odd(w: bv64) {
    w & 1 == 1
  }

  predicate AtMost(x: bv64, y: bv64) {
    x <= y
  }

  /** The value of the low `k` bits of a word. */
  function LowBits(w: bv64, k: nat): nat {
    if k == 0 then 0 else 2 * LowBits(Half(w), k - 1) + (if Odd(w) then 1 else 0)
  }

  /** The word with its low `k` bits set. */
  function Ones(k: nat): bv64 {
    if k == 0 then 0 else ShiftedIn(Ones(k - 1), true)
  }

  lemma {:induction false} ShiftIn(x: bv64, y: bv64, bit: bool)
    requires AtMost(x, y) && AtMost(y, 0x7FFF_FFFF_FFFF_FFFF)
    ensures AtMost(ShiftedIn(x, bit), ShiftedIn(y, true))
    ensures Half(ShiftedIn(x, bit)) == x && Odd(ShiftedIn(x, bit)) == bit
  {
  }

  lemma {:induction false} ZeroWord(y: bv64)
    ensures AtMost(0, y) && Half(0) == 0 && !Odd(0)
  {
  }

  lemma {:induction false} OnesTo16()
    ensures Ones(16) == 0xFFFF
    ensures forall k :: 0 <= k <= 16 ==> AtMost(Ones(k), 0x7FFF_FFFF_FFFF_FFFF)
  {
    assert Ones(4) == 0xF;
    assert Ones(8) == 0xFF;
    assert Ones(12) == 0xFFF;
  }

  lemma {:induction false} OnesTo24()
    ensures Ones(24) == 0xFF_FFFF
    ensures forall k :: 16 <= k <= 24 ==> AtMost(Ones(k), 0x7FFF_FFFF_FFFF_FFFF)
  {
    OnesTo16();
    assert Ones(20) == 0xF_FFFF;
  }

  lemma {:induction false} OnesTo32()
    ensures forall k :: 24 <= k <= 32 ==> AtMost(Ones(k), 0x7FFF_FFFF_FFFF_FFFF)
  {
    OnesTo24();
    assert Ones(28) == 0xFFF_FFFF;
    assert Ones(32) == 0xFFFF_FFFF;
  }

  lemma {:induction false} OnesSmall(k: nat)
    requires k <= 32
    ensures AtMost(Ones(k), 0x7FFF_FFFF_FFFF_FFFF)
  {
    hide Ones, AtMost;
    OnesTo16();
    OnesTo24();
    OnesTo32();
  }

  lemma {:induction false} Pow32()
    ensures Pow2(32) == 0x1_0000_0000
  {
    assert Pow2(8) == 0x100;
    assert Pow2(16) == 0x1_0000;
    assert Pow2(24) == 0x100_0000;
  }

  lemma {:induction false} ZeroBits(k: nat)
    ensures LowBits(0, k) == 0
  {
    if k > 0 {
      ZeroWord(0);
      ZeroBits(k - 1);
    }
  }

  /** A counter below `2^k` is recovered from the low `k` bits of its word. */
  lemma {:induction false} WordHolds(n: nat, k: nat)
    requires k <= 32 && n < Pow2(k)
    ensures AtMost(Word(n), Ones(k)) && LowBits(Word(n), k) == n
  {
    hide ShiftedIn, Half, Odd, AtMost;
    if n == 0 {
      ZeroBits(k);
      ZeroWord(Ones(k));
    } else {
      WordHolds(n / 2, k - 1);
      OnesSmall(k - 1);
      ShiftIn(Word(n / 2), Ones(k - 1), n % 2 == 1);
    }
  }

  lemma {:induction false} WordInjective(n: u32, m: u32)
    requires Word(n) == Word(m)
    ensures n == m
  {
    Pow32();
    WordHolds(n, 32);
    WordHolds(m, 32);
  }

  // ---- positions on the ring ---------------------------------------------

  /** `wrapping_add` */
  function Plus(x: bv64, y: bv64): bv64 {
    x + y
  }

  function VirtualWord(name: Bytes, v: nat): bv64 {
    Mix(Plus(Fnv(name), Mix(Word(v))))
  }

  function Position(w: bv64): nat {
    w as nat
  }

  /** The position of virtual node `v` of a member, as an unsigned number. */
  function VirtualNode(name: Bytes, v: nat): nat {
    Position(VirtualWord(name, v))
  }

  /** The position of a request key. */
  function KeyPosition(key: Bytes): nat {
    Position(Mix(Fnv(key)))
  }

  /** Positions are mixed hashes: unmixing one gives back the hash of the name, for a
      key, or that hash with the mixed counter added, for a virtual node. */
  lemma {:induction false} PositionsAreMixed(name: Bytes, v: nat)
    ensures Unmix(KeyPosition(name) as bv64) == Fnv(name)
    ensures Unmix(VirtualNode(name, v) as bv64) == Plus(Fnv(name), Mix(Word(v)))
  {
    hide Mix, Unmix, Fnv, Word, Plus;
    PositionHolds(Mix(Fnv(name)));
    PositionHolds(VirtualWord(name, v));
    MixBijective(Fnv(name));
    MixBijective(Plus(Fnv(name), Mix(Word(v))));
  }

  lemma {:induction false} PositionInjective(x: bv64, y: bv64)
    requires Position(x) == Position(y)
    ensures x == y
  {
    PositionHolds(x);
    PositionHolds(y);
  }

  lemma {:induction false} PositionHolds(x: bv64)
    ensures Position(x) as bv64 == x
  {
  }

  function Minus(x: bv64, y: bv64): bv64 {
    x - y
  }

  lemma {:induction false} PlusInjective(b: bv64, x: bv64, y: bv64)
    requires Plus(b, x) == Plus(b, y)
    ensures x == y
  {
    hide Plus, Minus;
    PlusUndone(b, x);
    PlusUndone(b, y);
  }

  lemma {:induction false} PlusUndone(b: bv64, x: bv64)
    ensures Minus(Plus(b, x), b) == x
  {
    PlusWords(b, x);
    MinusCongruent(Plus(b, x), b + x, b);
  }

  lemma {:induction false} PlusWords(b: bv64, x: bv64)
    ensures Minus(b + x, b) == x
  {
  }

  lemma {:induction false} MinusCongruent(x: bv64, y: bv64, b: bv64)
    requires x == y
    ensures Minus(x, b) == Minus(y, b)
  {
    hide *;
  }

  lemma {:induction false} VirtualWordsDistinct(name: Bytes, v: u32, w: u32)
    requires VirtualWord(name, v) == VirtualWord(name, w)
    ensures v == w
  {
    hide Mix, Fnv, Word, Plus;
    var b := Fnv(name);
    MixInjective(Plus(b, Mix(Word(v))), Plus(b, Mix(Word(w))));
    PlusInjective(b, Mix(Word(v)), Mix(Word(w)));
    MixInjective(Word(v), Word(w));
    WordInjective(v, w);
  }

  /** The virtual nodes of one member never collide with each other. */
  lemma {:induction false} VirtualNodesDistinct(name: Bytes, v: u32, w: u32)
    requires VirtualNode(name, v) == VirtualNode(name, w)
    ensures v == w
  {
    hide VirtualWord, Position;
    PositionInjective(VirtualWord(name, v), VirtualWord(name, w));
    VirtualWordsDistinct(name, v, w);
  }
}
