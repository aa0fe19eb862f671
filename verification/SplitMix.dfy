/** The SplitMix64 generator of the link emulator, over integers modulo 2^64. */
module SplitMix {
  import opened Bits

  const WORD := 0x1_0000_0000_0000_0000
  const GOLDEN_GAMMA := 0x9E37_79B9_7F4A_7C15
  const MIX_1 := 0xBF58_476D_1CE4_E5B9
  const MIX_2 := 0x94D0_49BB_1331_11EB

  // Inverses of the three odd constants modulo 2^64.
  const GAMMA_INVERSE := 0xF1DE_83E1_9937_733D
  const MIX_1_INVERSE := 0x96DE_1B17_3F11_9089
  const MIX_2_INVERSE := 0x3196_42B2_D24D_8EC3

  type Word = x: int | 0 <= x < WORD

  lemma Pow2Word()
    ensures Pow2(64) == WORD
  {
    Pow2Values();
    Pow2Add(32, 32);
  }

  // ---------- the output mix is a bijection on words ----------

  /** `x ^ (x >> k)`. */
  function XorShift(x: nat, k: nat): nat {
    Xor(x, Shr(x, k))
  }

  /** The inverse of `XorShift` for a shift that three steps exhaust. */
  function UnXorShift(y: nat, k: nat): nat {
    Xor(Xor(y, Shr(y, k)), Shr(y, 2 * k))
  }

  lemma XorShiftIsWord(x: Word, k: nat)
    ensures XorShift(x, k) < WORD
    ensures UnXorShift(x, k) < WORD
  {
    Pow2Word();
    ShrBound(x, k);
    ShrBound(x, 2 * k);
    XorBound(x, Shr(x, k), 64);
    XorBound(Xor(x, Shr(x, k)), Shr(x, 2 * k), 64);
  }

  lemma ShiftedThrice(x: Word, k: nat)
    requires 22 <= k
    ensures Shr(x, 3 * k) == 0
  {
    Pow2Word();
    Pow2Add(64, 3 * k - 64);
    assert Pow2(64) * Pow2(3 * k - 64) >= Pow2(64) by {
      MulAtLeast(Pow2(64), Pow2(3 * k - 64));
    }
    ShrBound(x, 3 * k);
  }

  lemma UnXorShiftLeft(x: Word, k: nat)
    requires 22 <= k
    ensures UnXorShift(XorShift(x, k), k) == x
  {
    var s1, s2, s3 := Shr(x, k), Shr(x, 2 * k), Shr(x, 3 * k);
    var y := Xor(x, s1);
    ShrXor(x, s1, k);
    ShrShr(x, k, k);
    assert Shr(y, k) == Xor(s1, s2);
    ShrXor(x, s1, 2 * k);
    ShrShr(x, k, 2 * k);
    ShiftedThrice(x, k);
    XorZero(s2);
    assert Shr(y, 2 * k) == s2;
    XorAssociative(y, Xor(s1, s2), s2);
    XorCancel(s1, s2);
    XorCancel(x, s1);
  }

  lemma UnXorShiftRight(y: Word, k: nat)
    requires 22 <= k
    ensures XorShift(UnXorShift(y, k), k) == y
  {
    var s1, s2, s3 := Shr(y, k), Shr(y, 2 * k), Shr(y, 3 * k);
    var x := Xor(Xor(y, s1), s2);
    ShrXor(Xor(y, s1), s2, k);
    ShrXor(y, s1, k);
    ShrShr(y, k, k);
    ShrShr(y, 2 * k, k);
    ShiftedThrice(y, k);
    XorZero(Xor(s1, s2));
    assert Shr(x, k) == Xor(s1, s2);
    XorAssociative(y, s1, s2);
    XorCancel(y, Xor(s1, s2));
  }

  /** The three xor-multiply rounds applied to the state. */
  function Mix(state: Word): (r: Word)
  {
    XorShiftIsWord(state, 30);
    var a := (XorShift(state, 30) * MIX_1) % WORD;
    XorShiftIsWord(a, 27);
    var b := (XorShift(a, 27) * MIX_2) % WORD;
    XorShiftIsWord(b, 31);
    XorShift(b, 31)
  }

  function Unmix(output: Word): (r: Word)
  {
    XorShiftIsWord(output, 31);
    var a := (UnXorShift(output, 31) * MIX_2_INVERSE) % WORD;
    XorShiftIsWord(a, 27);
    var b := (UnXorShift(a, 27) * MIX_1_INVERSE) % WORD;
    XorShiftIsWord(b, 30);
    UnXorShift(b, 30)
  }

  lemma ModMultiple(x: Word, k: int)
    ensures (x + k * WORD) % WORD == x
  {
  }

  lemma MulInverse(x: Word, m: Word, inverse: Word, k: nat)
    requires m * inverse == 1 + k * WORD
    ensures (((x * m) % WORD) * inverse) % WORD == x
  {
    var q := (x * m) / WORD;
    var r := (x * m) % WORD;
    assert r == x * m - q * WORD;
    assert r * inverse == x * (m * inverse) - (q * inverse) * WORD;
    assert r * inverse == x + (x * k - q * inverse) * WORD;
    ModMultiple(x, x * k - q * inverse);
  }

  lemma MixRoundTrip1(x: Word)
    ensures (((x * MIX_1) % WORD) * MIX_1_INVERSE) % WORD == x
    ensures (((x * MIX_1_INVERSE) % WORD) * MIX_1) % WORD == x
  {
    MulInverse(x, MIX_1, MIX_1_INVERSE, 8125545580553827436);
    MulInverse(x, MIX_1_INVERSE, MIX_1, 8125545580553827436);
  }

  lemma MixRoundTrip2(x: Word)
    ensures (((x * MIX_2) % WORD) * MIX_2_INVERSE) % WORD == x
    ensures (((x * MIX_2_INVERSE) % WORD) * MIX_2) % WORD == x
  {
    MulInverse(x, MIX_2, MIX_2_INVERSE, 2077064247507883091);
    MulInverse(x, MIX_2_INVERSE, MIX_2, 2077064247507883091);
  }

  lemma UnmixMix(x: Word)
    ensures Unmix(Mix(x)) == x
  {
    XorShiftIsWord(x, 30);
    var a0: Word := XorShift(x, 30);
    var a: Word := (a0 * MIX_1) % WORD;
    XorShiftIsWord(a, 27);
    var b0: Word := XorShift(a, 27);
    var b: Word := (b0 * MIX_2) % WORD;
    XorShiftIsWord(b, 31);
    assert Mix(x) == XorShift(b, 31);
    UnXorShiftLeft(b, 31);
    MixRoundTrip2(b0);
    UnXorShiftLeft(a, 27);
    MixRoundTrip1(a0);
    UnXorShiftLeft(x, 30);
  }

  lemma MixUnmix(y: Word)
    ensures Mix(Unmix(y)) == y
  {
    XorShiftIsWord(y, 31);
    var a0: Word := UnXorShift(y, 31);
    var a: Word := (a0 * MIX_2_INVERSE) % WORD;
    XorShiftIsWord(a, 27);
    var b0: Word := UnXorShift(a, 27);
    var b: Word := (b0 * MIX_1_INVERSE) % WORD;
    XorShiftIsWord(b, 30);
    assert Unmix(y) == UnXorShift(b, 30);
    UnXorShiftRight(b, 30);
    MixRoundTrip1(b0);
    UnXorShiftRight(a, 27);
    MixRoundTrip2(a0);
    UnXorShiftRight(y, 31);
  }

  /** The output mix has a two-sided inverse, so it permutes the 64-bit words. */
  lemma MixIsBijection(x: Word)
    ensures Unmix(Mix(x)) == x
    ensures Mix(Unmix(x)) == x
  {
    UnmixMix(x);
    MixUnmix(x);
  }

  // ---------- the generator ----------

  /** The state after one draw. */
  function Advance(state: Word): Word {
    (state + GOLDEN_GAMMA) % WORD
  }

  /** The state after `n` draws from `state`. */
  function AfterDraws(state: Word, n: nat): Word {
    if n == 0 then state else Advance(AfterDraws(state, n - 1))
  }

  /** Output number `n`, counting from zero, of the generator seeded with `seed`. */
  function Draw(seed: nat, n: nat): Word {
    Mix(AfterDraws(seed % WORD, n + 1))
  }

  lemma WordModulo(x: Word)
    ensures x % WORD == x
  {
  }

  lemma DrawFollows(seed: nat, n: nat)
    ensures AfterDraws(seed % WORD, n + 1) == Advance(AfterDraws(seed % WORD, n))
    ensures Draw(seed, n) == Mix(Advance(AfterDraws(seed % WORD, n)))
  {
  }

  /** `y` is `x` with each of its bits added, without carry, to the bit `k` places above. */
  ghost predicate IsXorShift(y: Word, x: Word, k: nat) {
    forall j: nat :: Bit(y, j) == (Bit(x, j) + Bit(x, k + j)) % 2
  }

  ghost predicate MixedThrough(state: Word, a: Word, c: Word, value: Word) {
    && IsXorShift(a, state, 30)
    && IsXorShift(c, (a * 0xBF58_476D_1CE4_E5B9) % 0x1_0000_0000_0000_0000, 27)
    && IsXorShift(value, (c * 0x94D0_49BB_1331_11EB) % 0x1_0000_0000_0000_0000, 31)
  }

  /** `value` is what SplitMix64 makes of a state, bit by bit. */
  ghost predicate SplitMixed(state: Word, value: Word) {
    exists a: Word, c: Word :: MixedThrough(state, a, c, value)
  }

  lemma XorShiftIsXorShift(x: Word, k: nat)
    requires XorShift(x, k) < WORD
    ensures IsXorShift(XorShift(x, k), x, k)
  {
    hide Bit, Xor, Shr;
    forall j: nat
      ensures Bit(XorShift(x, k), j) == (Bit(x, j) + Bit(x, k + j)) % 2
    {
      XorBit(x, Shr(x, k), j);
      ShrBit(x, k, j);
    }
  }

  lemma MixIsSplitMixed(state: Word)
    ensures SplitMixed(state, Mix(state))
  {
    hide IsXorShift, XorShift;
    XorShiftIsWord(state, 30);
    var a := XorShift(state, 30);
    XorShiftIsXorShift(state, 30);
    var b := (a * MIX_1) % WORD;
    XorShiftIsWord(b, 27);
    var c := XorShift(b, 27);
    XorShiftIsXorShift(b, 27);
    var d := (c * MIX_2) % WORD;
    XorShiftIsWord(d, 31);
    XorShiftIsXorShift(d, 31);
    assert MixedThrough(state, a, c, Mix(state));
  }

  lemma XorShiftOnce(x: Word, y: Word, z: Word, k: nat)
    requires IsXorShift(y, x, k) && IsXorShift(z, x, k)
    ensures y == z
  {
    hide Bit, Pow2;
    Pow2Word();
    forall j | 0 <= j < 64
      ensures Bit(y, j) == Bit(z, j)
    {
      assert Bit(y, j) == (Bit(x, j) + Bit(x, k + j)) % 2;
    }
    SameBitsEqual(y, z, 64);
  }

  /** No other value is. */
  lemma SplitMixedOnce(state: Word, value: Word)
    requires SplitMixed(state, value)
    ensures value == Mix(state)
  {
    hide IsXorShift;
    MixIsSplitMixed(state);
    var a: Word, c: Word :| MixedThrough(state, a, c, value);
    var a': Word, c': Word :| MixedThrough(state, a', c', Mix(state));
    XorShiftOnce(state, a, a', 30);
    XorShiftOnce((a * 0xBF58_476D_1CE4_E5B9) % 0x1_0000_0000_0000_0000, c, c', 27);
    XorShiftOnce((c * 0x94D0_49BB_1331_11EB) % 0x1_0000_0000_0000_0000, value, Mix(state), 31);
  }

  class SplitMix64 {
    var state: Word

    constructor (seed: nat)
      ensures state == seed % WORD
    {
      state := seed % WORD;
    }

    method NextU64() returns (value: Word)
      modifies this
      ensures state == (old(state) + 0x9E37_79B9_7F4A_7C15) % 0x1_0000_0000_0000_0000
      ensures state == Advance(old(state))
      ensures SplitMixed(state, value) && value == Mix(state)
    {
      hide IsXorShift;
      state := (state + GOLDEN_GAMMA) % WORD;
      XorShiftIsWord(state, 30);
      value := (XorShift(state, 30) * MIX_1) % WORD;
      XorShiftIsWord(value, 27);
      value := (XorShift(value, 27) * MIX_2) % WORD;
      XorShiftIsWord(value, 31);
      value := XorShift(value, 31);
      MixIsSplitMixed(state);
    }
  }

  lemma StepModulo(x: nat)
    ensures (x % WORD + GOLDEN_GAMMA) % WORD == (x + GOLDEN_GAMMA) % WORD
  {
    var y := x % WORD + GOLDEN_GAMMA;
    ModMultiple(y % WORD, y / WORD);
    ModMultiple(y % WORD, y / WORD + x / WORD);
    assert x + GOLDEN_GAMMA == y % WORD + (y / WORD + x / WORD) * WORD;
  }

  /** Jumping ahead: `n` draws from seed `s` leave the generator seeded with `s + n * gamma`. */
  lemma {:induction false} JumpAhead(seed: nat, n: nat)
    ensures AfterDraws(seed % WORD, n) == (seed + n * GOLDEN_GAMMA) % WORD
  {
    if n == 0 {
    } else {
      JumpAhead(seed, n - 1);
      StepModulo(seed + (n - 1) * GOLDEN_GAMMA);
      assert seed + n * GOLDEN_GAMMA == seed + (n - 1) * GOLDEN_GAMMA + GOLDEN_GAMMA;
    }
  }

  lemma {:induction false} DrawsCompose(state: Word, m: nat, n: nat)
    ensures AfterDraws(AfterDraws(state, m), n) == AfterDraws(state, m + n)
  {
    if n == 0 {
    } else {
      DrawsCompose(state, m, n - 1);
    }
  }

  /** The offset, below 2^64, at which the generator first shows `value` counting from draw `start`. */
  function PositionOf(seed: nat, start: nat, value: Word): Word {
    ((Unmix(value) - (seed + (start + 1) * GOLDEN_GAMMA)) * GAMMA_INVERSE) % WORD
  }

  lemma MixHits(state: Word, value: Word)
    ensures Mix(state) == value <==> state == Unmix(value)
  {
    MixIsBijection(value);
    MixIsBijection(state);
  }

  lemma Split(seed: nat, start: nat, i: nat)
    ensures seed + (start + i + 1) * GOLDEN_GAMMA == seed + (start + 1) * GOLDEN_GAMMA + i * GOLDEN_GAMMA
  {
  }

  lemma SolveStep(base: nat, target: Word, i: Word)
    ensures (base + i * GOLDEN_GAMMA) % WORD == target <==> i == ((target - base) * GAMMA_INVERSE) % WORD
  {
    var t := 10771413168148108919;
    assert GOLDEN_GAMMA * GAMMA_INVERSE == 1 + t * WORD;
    var q := (base + i * GOLDEN_GAMMA) / WORD;
    if (base + i * GOLDEN_GAMMA) % WORD == target {
      assert target - base == i * GOLDEN_GAMMA - q * WORD;
      assert (target - base) * GAMMA_INVERSE == i + (i * t - q * GAMMA_INVERSE) * WORD;
      ModMultiple(i, i * t - q * GAMMA_INVERSE);
    }
    if i == ((target - base) * GAMMA_INVERSE) % WORD {
      var p := ((target - base) * GAMMA_INVERSE) / WORD;
      assert i == (target - base) * GAMMA_INVERSE - p * WORD;
      assert i * GOLDEN_GAMMA == (target - base) + ((target - base) * t - p * GOLDEN_GAMMA) * WORD;
      ModMultiple(target, (target - base) * t - p * GOLDEN_GAMMA);
    }
  }

  /**
   * Full period: among any 2^64 consecutive outputs from any seed every 64-bit word occurs
   * exactly once; `PositionOf` says where.
   */
  lemma FullPeriod(seed: nat, start: nat, value: Word, i: Word)
    ensures Draw(seed, start + i) == value <==> i == PositionOf(seed, start, value)
  {
    hide Mix, Unmix, AfterDraws;
    var state := AfterDraws(seed % WORD, start + i + 1);
    MixHits(state, value);
    JumpAhead(seed, start + i + 1);
    Split(seed, start, i);
    SolveStep(seed + (start + 1) * GOLDEN_GAMMA, Unmix(value), i);
  }
}
