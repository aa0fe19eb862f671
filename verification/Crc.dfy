/** The CRC-32 of the packet format: the bit loop, burst detection and the IEEE remainder. */
module Crc {
  import opened Bits
  import opened Impairments
  import opened BitRegister
  import opened Words

  const HALF_32 := 0x8000_0000

  type Word32 = w: int | 0 <= w < WORD_32

  /** The reflected generator polynomial. */
  const POLYNOMIAL: Word32 := 0xEDB8_8320

  function Xor32(a: Word32, b: Word32): Word32 {
    Pow2Values();
    XorBound(a, b, 32);
    Xor(a, b)
  }

  /** `POLYNOMIAL & -(crc & 1)`. */
  function MaskedPolynomial(odd: bool): Word32 { if odd then POLYNOMIAL else 0 }

  /** One turn of the inner loop. */
  function BitStep(crc: Word32): Word32 {
    Xor32(crc / 2, MaskedPolynomial(crc % 2 == 1))
  }

  function BitWord(bit: bool): Word32 { if bit then 1 else 0 }

  /** The register as an instance of the general theory. */
  const CRC32: Algebra<Word32> := Algebra<Word32>.Algebra(
    0,
    (a: Word32, b: Word32) => Xor32(a, b),
    (c: Word32) => BitStep(c),
    (b: bool) => BitWord(b),
    (w: Word32) => w % 2 == 1,
    (w: Word32) => w / 2)

  /** The register after one data byte. */
  function ByteStep(crc: Word32, b: Byte): Word32 {
    Steps(CRC32, Xor32(crc, b), 8)
  }

  function Register(data: Bytes): Word32 {
    if data == [] then WORD_32 - 1 else ByteStep(Register(data[..|data| - 1]), data[|data| - 1])
  }

  /** The complement of the register. */
  function Crc32Of(data: Bytes): Word32 {
    WORD_32 - 1 - Register(data)
  }

  /** The inner loop over one byte. */
  method AbsorbByte(register: Word32, b: Byte) returns (crc: Word32)
    ensures crc == ByteStep(register, b)
  {
    crc := Xor32(register, b);
    ghost var absorbed := crc;
    for bit := 0 to 8
      invariant Steps(CRC32, crc, 8 - bit) == Steps(CRC32, absorbed, 8)
    {
      var mask := MaskedPolynomial(crc % 2 == 1);
      crc := Xor32(crc / 2, mask);
    }
  }

  method Crc32(data: Bytes) returns (r: Word32)
    ensures r == Crc32Of(data)
  {
    var crc: Word32 := 0xFFFF_FFFF;
    for index := 0 to |data|
      invariant crc == Register(data[..index])
    {
      assert data[..index + 1][..index] == data[..index];
      crc := AbsorbByte(crc, data[index]);
    }
    assert data[..|data|] == data;
    r := 0xFFFF_FFFF - crc;
  }

  // ---------- the register obeys the laws ----------

  lemma XorRegroups(a: Word32, b: Word32, c: Word32, d: Word32)
    ensures Xor32(Xor32(a, b), Xor32(c, d)) == Xor32(Xor32(a, c), Xor32(b, d))
  {
    XorAssociative(a, b, Xor(c, d));
    XorAssociative(b, c, d);
    XorCommutative(b, c);
    XorAssociative(c, b, d);
    XorAssociative(a, c, Xor(b, d));
  }

  lemma BitWordXor(p: bool, q: bool)
    ensures Xor32(BitWord(p), BitWord(q)) == BitWord(p != q)
  {
    XorOfBits(BitWord(p), BitWord(q));
  }

  lemma MaskXor(p: bool, q: bool)
    ensures Xor32(MaskedPolynomial(p), MaskedPolynomial(q)) == MaskedPolynomial(p != q)
  {
    XorSelf(POLYNOMIAL);
    XorZero(POLYNOMIAL);
    XorZero(0);
  }

  /** A step of a sum, by parts. */
  lemma StepOfXor(a: Word32, b: Word32)
    ensures BitStep(Xor32(a, b)) ==
      Xor32(Xor32(a / 2, b / 2), MaskedPolynomial((a % 2 == 1) != (b % 2 == 1)))
  {
    XorHalves(a, b);
  }

  /** A step commutes with exclusive or. */
  lemma StepLinear(a: Word32, b: Word32)
    ensures BitStep(Xor32(a, b)) == Xor32(BitStep(a), BitStep(b))
  {
    StepOfXor(a, b);
    MaskXor(a % 2 == 1, b % 2 == 1);
    XorRegroups(a / 2, MaskedPolynomial(a % 2 == 1), b / 2, MaskedPolynomial(b % 2 == 1));
  }

  /** Bit 31 of the polynomial is set, so the bit shifted out can be recovered. */
  lemma StepZero(a: Word32)
    ensures BitStep(a) == 0 <==> a == 0
  {
    XorEqual(a / 2, MaskedPolynomial(a % 2 == 1));
  }

  /** A pending word can be split into its low bit, absorbed now, and the rest, absorbed later. */
  lemma PeelBit(c: Word32, w: Word32)
    ensures BitStep(Xor32(c, w)) == Xor32(BitStep(Xor32(c, BitWord(w % 2 == 1))), w / 2)
  {
    var mask := MaskedPolynomial((c % 2 == 1) != (w % 2 == 1));
    StepOfXor(c, w);
    StepOfXor(c, BitWord(w % 2 == 1));
    XorZero(c / 2);
    XorAssociative(c / 2, w / 2, mask);
    XorCommutative(w / 2, mask);
    XorAssociative(c / 2, mask, w / 2);
  }

  lemma Crc32IsLawful()
    ensures Lawful(CRC32)
  {
    forall a: Word32 ensures CRC32.xor(a, CRC32.zero) == a { XorZero(a); }
    forall a: Word32 ensures CRC32.xor(CRC32.zero, a) == a { XorZero(a); }
    forall a: Word32, b: Word32 ensures Cancels(CRC32, a, b) { XorEqual(a, b); }
    forall a: Word32, b: Word32, c: Word32, d: Word32
      ensures Regroups(CRC32, a, b, c, d)
    {
      XorRegroups(a, b, c, d);
    }
    forall p: bool, q: bool
      ensures CRC32.xor(CRC32.inject(p), CRC32.inject(q)) == CRC32.inject(p != q)
    {
      BitWordXor(p, q);
    }
    forall a: Word32, b: Word32 ensures StepsLinearly(CRC32, a, b) { StepLinear(a, b); }
    forall a: Word32 ensures StepKeepsZero(CRC32, a) { StepZero(a); }
    forall c: Word32, w: Word32 ensures Peels(CRC32, c, w) { PeelBit(c, w); }
  }

  // ---------- bytes as message bits, low bit first ----------

  function LowBits(w: nat, n: nat): (r: seq<bool>)
    ensures |r| == n
  {
    if n == 0 then [] else [w % 2 == 1] + LowBits(w / 2, n - 1)
  }

  function BitsOf(data: Bytes): (r: seq<bool>)
    ensures |r| == 8 * |data|
  {
    if data == [] then [] else BitsOf(data[..|data| - 1]) + LowBits(data[|data| - 1], 8)
  }

  /** A word below `2^n` is spelled by its `n` low bits. */
  lemma {:induction false} WordSpells(w: Word32, n: nat)
    requires w < Pow2(n)
    ensures Spells(CRC32, w, LowBits(w, n))
  {
    if n == 0 {
    } else {
      var bits := LowBits(w, n);
      assert bits[1..] == LowBits(w / 2, n - 1);
      WordSpells(w / 2, n - 1);
    }
  }

  /** At most 32 bits are spelled by some word. */
  lemma SpelledBound(rest: nat, k: nat)
    requires 0 < k <= 32 && rest < Pow2(k - 1)
    ensures 2 * rest + 1 < Pow2(k) <= WORD_32
  {
    Pow2Values();
    if k < 32 { Pow2Below(k, 32); }
  }

  lemma {:induction false} SpelledBy(bits: seq<bool>) returns (w: Word32)
    requires |bits| <= 32
    ensures Spells(CRC32, w, bits) && w < Pow2(|bits|)
  {
    if bits == [] {
      w := 0;
    } else {
      var rest := SpelledBy(bits[1..]);
      SpelledBound(rest, |bits|);
      w := 2 * rest + BitWord(bits[0]);
    }
  }

  lemma ByteIsEightBits(register: Word32, b: Byte)
    ensures ByteStep(register, b) == Feed(CRC32, register, LowBits(b, 8))
  {
    Pow2Values();
    WordSpells(b, 8);
    Crc32IsLawful();
    FeedIsSteps(CRC32, register, b, LowBits(b, 8));
  }

  /** The byte loop is the bit-serial register. */
  lemma {:induction false} RegisterIsFeed(data: Bytes)
    ensures Register(data) == Feed(CRC32, WORD_32 - 1, BitsOf(data))
  {
    if data == [] {
    } else {
      var init, b := data[..|data| - 1], data[|data| - 1];
      RegisterIsFeed(init);
      FeedAppend(CRC32, WORD_32 - 1, BitsOf(init), LowBits(b, 8));
      ByteIsEightBits(Register(init), b);
    }
  }

  lemma {:induction false} BitsAt(data: Bytes, k: nat, j: nat)
    requires k < |data| && j < 8
    ensures BitsOf(data)[8 * k + j] == LowBits(data[k], 8)[j]
  {
    if k == |data| - 1 {
    } else {
      BitsAt(data[..|data| - 1], k, j);
    }
  }

  lemma {:induction false} LowBitsInjective(a: nat, b: nat, n: nat)
    requires a < Pow2(n) && b < Pow2(n) && LowBits(a, n) == LowBits(b, n)
    ensures a == b
  {
    if n == 0 {
    } else {
      assert LowBits(a, n)[0] == LowBits(b, n)[0];
      assert LowBits(a, n)[1..] == LowBits(a / 2, n - 1);
      assert LowBits(b, n)[1..] == LowBits(b / 2, n - 1);
      LowBitsInjective(a / 2, b / 2, n - 1);
    }
  }

  lemma SameBits(x: Bytes, y: Bytes)
    requires |x| == |y| && BitsOf(x) == BitsOf(y)
    ensures x == y
  {
    forall k | 0 <= k < |x|
      ensures x[k] == y[k]
    {
      forall j | 0 <= j < 8
        ensures LowBits(x[k], 8)[j] == LowBits(y[k], 8)[j]
      {
        BitsAt(x, k, j);
        BitsAt(y, k, j);
      }
      Pow2Values();
      LowBitsInjective(x[k], y[k], 8);
    }
  }

  // ---------- burst detection ----------

  /**
   * Burst detection: byte strings of equal length that differ only inside 32 consecutive message
   * bits, byte-aligned or not, have the same CRC exactly when they are equal.
   */
  lemma BurstChangesCrc(x: Bytes, y: Bytes, start: nat)
    requires |x| == |y| && DifferWithin(BitsOf(x), BitsOf(y), start, 32)
    ensures Crc32Of(x) == Crc32Of(y) <==> x == y
  {
    RegisterIsFeed(x);
    RegisterIsFeed(y);
    Crc32IsLawful();
    var w := SpelledBy(Burst(BitsOf(x), BitsOf(y), start, 32));
    BurstDetected(CRC32, WORD_32 - 1, BitsOf(x), BitsOf(y), start, 32, w);
    if BitsOf(x) == BitsOf(y) { SameBits(x, y); }
  }

  /** Four consecutive bytes are one such window. */
  lemma ByteWindowIsBurst(x: Bytes, y: Bytes, first: nat)
    requires |x| == |y|
    requires forall k :: 0 <= k < |x| && !(first <= k < first + 4) ==> x[k] == y[k]
    ensures DifferWithin(BitsOf(x), BitsOf(y), 8 * first, 32)
  {
    forall k | 0 <= k < 8 * |x| && !(8 * first <= k < 8 * first + 32)
      ensures BitsOf(x)[k] == BitsOf(y)[k]
    {
      BitsAt(x, k / 8, k % 8);
      BitsAt(y, k / 8, k % 8);
    }
  }

  // ---------- the IEEE remainder ----------

  /** Coefficients of the generator of IEEE Std 802.3 clause 3.2.9 below the 32nd power, highest in bit 31. */
  const GENERATOR: Word32 := 0x04C1_1DB7

  function Double(w: Word32): Word32 { (2 * w) % WORD_32 }

  const IEEE: Divider<Word32> := Divider<Word32>.Divider(
    0,
    (a: Word32, b: Word32) => Xor32(a, b),
    (b: bool) => BitWord(b),
    (w: Word32) => Double(w),
    (w: Word32) => w >= HALF_32,
    GENERATOR,
    32)

  /** A word is its top bit above its low 31 bits; doubling drops the top bit. */
  lemma TopAndRest(t: nat, u: nat)
    requires t < 2 && u < HALF_32
    ensures Join(t, 31, u) < WORD_32
    ensures Join(t, 31, u) >= HALF_32 <==> t == 1
    ensures Double(Join(t, 31, u)) == 2 * u
  {
    Pow2Values();
  }

  function TopBit(w: Word32): nat { if w >= HALF_32 then 1 else 0 }

  lemma Parted(w: Word32)
    ensures w == Join(TopBit(w), 31, w % HALF_32)
  {
    Pow2Values();
  }

  lemma XorDouble(u: nat, v: nat)
    ensures Xor(2 * u, 2 * v) == 2 * Xor(u, v)
  {
    XorHalves(2 * u, 2 * v);
  }

  lemma PartsAdd(p: nat, u: nat, q: nat, v: nat)
    requires p < 2 && q < 2 && u < HALF_32 && v < HALF_32
    ensures var x := Xor(Join(p, 31, u), Join(q, 31, v));
      && x < WORD_32
      && (x >= HALF_32 <==> p != q)
      && Double(x) == 2 * Xor(u, v)
  {
    hide Xor, Join, Double, Pow2;
    Pow2Values();
    XorJoin(p, u, q, v, 31);
    XorBound(u, v, 31);
    XorOfBits(p, q);
    TopAndRest((p + q) % 2, Xor(u, v));
  }

  lemma DoubleAdditive(a: Word32, b: Word32)
    ensures Double(Xor32(a, b)) == Xor32(Double(a), Double(b))
    ensures (Xor32(a, b) >= HALF_32) == ((a >= HALF_32) != (b >= HALF_32))
  {
    var p, q, u, v := TopBit(a), TopBit(b), a % HALF_32, b % HALF_32;
    Parted(a);
    Parted(b);
    PartsAdd(p, u, q, v);
    TopAndRest(p, u);
    TopAndRest(q, v);
    XorDouble(u, v);
  }

  lemma TwiceProduct(w: nat, p: nat)
    ensures (2 * w) * p == w * (2 * p)
  {
  }

  lemma ModuloShift(x: int, k: int)
    ensures (x + k * WORD_32) % WORD_32 == x % WORD_32
  {
  }

  lemma ModuloProduct(x: nat, y: nat)
    ensures ((x % WORD_32) * y) % WORD_32 == (x * y) % WORD_32
  {
    var q, r := x / WORD_32, x % WORD_32;
    assert x * y == r * y + (q * y) * WORD_32;
    ModuloShift(r * y, q * y);
  }

  lemma {:induction false} DoubledIsProduct(w: Word32, n: nat)
    ensures Doubled(IEEE, w, n) == (w * Pow2(n)) % WORD_32
    decreases n
  {
    if n == 0 {
    } else {
      DoubledIsProduct(Double(w), n - 1);
      ModuloProduct(2 * w, Pow2(n - 1));
      TwiceProduct(w, Pow2(n - 1));
    }
  }

  lemma SmallModulo(x: nat)
    requires x < WORD_32
    ensures (1 * x) % WORD_32 == x
  {
  }

  lemma BitTravels(b: bool, k: nat)
    ensures Travels(IEEE, b, k)
  {
    if k < 32 {
      DoubledIsProduct(BitWord(b), k);
      Pow2Values();
      Pow2Below(k, 32);
      if k < 31 { Pow2Below(k, 31); }
      if b { SmallModulo(Pow2(k)); }
    }
  }

  lemma WordVanishes(w: Word32)
    ensures Vanishes(IEEE, w)
  {
    hide Pow2, Doubled;
    DoubledIsProduct(w, 32);
    Pow2Values();
    ModuloShift(0, w);
  }

  lemma IeeeAddition()
    ensures AdditionLaws(IEEE)
  {
    hide Xor;
    forall a: Word32 ensures IEEE.xor(a, IEEE.zero) == a { XorZero(a); }
    forall a: Word32 ensures IEEE.xor(IEEE.zero, a) == a { XorZero(a); }
    forall a: Word32, b: Word32, c: Word32 ensures Associates(IEEE, a, b, c) { XorAssociative(a, b, c); }
    forall a: Word32, b: Word32 ensures Commutes(IEEE, a, b) { XorCommutative(a, b); }
    forall a: Word32, b: Word32 ensures Additive(IEEE, a, b) { DoubleAdditive(a, b); }
    forall p: bool, q: bool
      ensures IEEE.xor(IEEE.inject(p), IEEE.inject(q)) == IEEE.inject(p != q)
    {
      BitWordXor(p, q);
    }
  }

  lemma IeeeWidth()
    ensures WidthLaws(IEEE)
  {
    forall w: Word32 ensures Vanishes(IEEE, w) { WordVanishes(w); }
    forall b: bool, k: nat ensures Travels(IEEE, b, k) { BitTravels(b, k); }
  }

  lemma IeeeIsDivider()
    ensures DividerLaws(IEEE)
  {
    IeeeAddition();
    IeeeWidth();
  }

  /** The `n` low bits of `w` in reverse. */
  function Reversed(w: nat, n: nat): (r: nat)
    ensures r < Pow2(n)
  {
    if n == 0 then 0 else (if w % 2 == 1 then Pow2(n - 1) else 0) + Reversed(w / 2, n - 1)
  }

  lemma ReversedJoin(w: nat, n: nat)
    requires n > 0
    ensures Reversed(w, n) == Join(w % 2, n - 1, Reversed(w / 2, n - 1))
  {
  }

  lemma {:induction false} ReversedXor(a: nat, b: nat, n: nat)
    ensures Reversed(Xor(a, b), n) == Xor(Reversed(a, n), Reversed(b, n))
    decreases n
  {
    hide Xor;
    if n == 0 {
      XorZero(0);
    } else {
      ReversedXor(a / 2, b / 2, n - 1);
      ReversedJoin(a, n);
      ReversedJoin(b, n);
      ReversedJoin(Xor(a, b), n);
      XorHalves(a, b);
      XorOfBits(a % 2, b % 2);
      XorJoin(a % 2, Reversed(a / 2, n - 1), b % 2, Reversed(b / 2, n - 1), n - 1);
    }
  }

  /** A clear high bit becomes a clear low bit. */
  lemma {:induction false} ReversedWider(w: nat, n: nat)
    requires w < Pow2(n)
    ensures Reversed(w, n + 1) == 2 * Reversed(w, n)
  {
    if n == 0 {
    } else {
      ReversedWider(w / 2, n - 1);
    }
  }

  function Reflected(w: Word32): Word32 {
    Pow2Values();
    Reversed(w, 32)
  }

  lemma ReverseBit(w: nat, n: nat, bit: nat)
    requires bit < 2
    ensures Reversed(2 * w + bit, n + 1) == bit * Pow2(n) + Reversed(w, n)
  {
    assert (2 * w + bit) / 2 == w && (2 * w + bit) % 2 == bit;
  }

  lemma EightTimes(n: nat)
    ensures Pow2(n + 1) == 2 * Pow2(n) && Pow2(n + 2) == 4 * Pow2(n) && Pow2(n + 3) == 8 * Pow2(n)
  {
    assert Pow2(n + 2) == 2 * Pow2(n + 1);
    assert Pow2(n + 3) == 2 * Pow2(n + 2);
  }

  lemma NibbleSum(a: nat, b: nat, c: nat, d: nat, p: nat)
    ensures a * p + b * (2 * p) + c * (4 * p) + d * (8 * p) == (8 * d + 4 * c + 2 * b + a) * p
  {
  }

  /** Appending four low bits `a b c d` prepends `d c b a`. */
  lemma ReverseNibble(w: nat, n: nat, a: nat, b: nat, c: nat, d: nat)
    requires a < 2 && b < 2 && c < 2 && d < 2
    ensures Reversed(16 * w + 8 * a + 4 * b + 2 * c + d, n + 4) ==
      (8 * d + 4 * c + 2 * b + a) * Pow2(n) + Reversed(w, n)
  {
    ReverseBit(w, n, a);
    ReverseBit(2 * w + a, n + 1, b);
    ReverseBit(4 * w + 2 * a + b, n + 2, c);
    ReverseBit(8 * w + 4 * a + 2 * b + c, n + 3, d);
    EightTimes(n);
    NibbleSum(a, b, c, d, Pow2(n));
  }

  /** Extends a word and its reversal by four bits. */
  lemma NextNibble(w: nat, n: nat, r: nat, p: nat, a: nat, b: nat, c: nat, d: nat)
    returns (w': nat, n': nat, r': nat, p': nat)
    requires a < 2 && b < 2 && c < 2 && d < 2
    requires r == Reversed(w, n) && p == Pow2(n)
    ensures w' == 16 * w + 8 * a + 4 * b + 2 * c + d && n' == n + 4
    ensures r' == (8 * d + 4 * c + 2 * b + a) * p + r && p' == 16 * p
    ensures r' == Reversed(w', n') && p' == Pow2(n')
  {
    ReverseNibble(w, n, a, b, c, d);
    EightTimes(n);
    w', n', p' := 16 * w + 8 * a + 4 * b + 2 * c + d, n + 4, 16 * p;
    r' := Reversed(w', n');
    assert Pow2(n + 4) == 2 * Pow2(n + 3);
  }

  lemma PolynomialReflects()
    ensures Reflected(POLYNOMIAL) == GENERATOR
  {
    var w, n, r, p := NextNibble(0, 0, 0, 1, 1, 1, 1, 0);
    w, n, r, p := NextNibble(w, n, r, p, 1, 1, 0, 1);
    w, n, r, p := NextNibble(w, n, r, p, 1, 0, 1, 1);
    w, n, r, p := NextNibble(w, n, r, p, 1, 0, 0, 0);
    w, n, r, p := NextNibble(w, n, r, p, 1, 0, 0, 0);
    w, n, r, p := NextNibble(w, n, r, p, 0, 0, 1, 1);
    w, n, r, p := NextNibble(w, n, r, p, 0, 0, 1, 0);
    w, n, r, p := NextNibble(w, n, r, p, 0, 0, 0, 0);
  }

  /** Reflection of a word and of its half. */
  lemma ReflectHalf(w: Word32)
    ensures Reflected(w / 2) == Double(Reflected(w))
    ensures Reflected(w) >= HALF_32 <==> w % 2 == 1
  {
    Pow2Values();
    var r := Reversed(w / 2, 31);
    ReversedWider(w / 2, 31);
    assert Reversed(w, 32) == (if w % 2 == 1 then Pow2(31) else 0) + r;
  }

  lemma {:induction false} ReversedZero(n: nat)
    ensures Reversed(0, n) == 0
  {
    if n == 0 {
    } else {
      ReversedZero(n - 1);
    }
  }

  lemma ReflectZero()
    ensures Reflected(0) == 0
  {
    ReversedZero(32);
  }

  lemma ReflectMask(carry: bool)
    ensures Reflected(MaskedPolynomial(carry)) == if carry then GENERATOR else 0
  {
    PolynomialReflects();
    ReflectZero();
  }

  /** One step of the reflected register is one step of the division register. */
  lemma StepReflects(c: Word32, bit: bool)
    ensures Reflected(BitStep(Xor32(c, BitWord(bit)))) == RegisterStep(IEEE, Reflected(c), bit)
  {
    StepOfXor(c, BitWord(bit));
    XorZero(c / 2);
    var carry := (c % 2 == 1) != bit;
    ReflectHalf(c);
    ReflectMask(carry);
    ReversedXor(c / 2, MaskedPolynomial(carry), 32);
    XorZero(Double(Reflected(c)));
  }

  lemma {:induction false} FeedReflects(c: Word32, bits: seq<bool>)
    ensures Reflected(Feed(CRC32, c, bits)) == RegisterAll(IEEE, Reflected(c), bits)
    decreases bits
  {
    if bits == [] {
    } else {
      StepReflects(c, bits[0]);
      FeedReflects(BitStep(Xor32(c, BitWord(bits[0]))), bits[1..]);
    }
  }

  lemma OnesGrow(w: Word32, m: nat)
    requires w == Pow2(m) - 1 && m < 32
    ensures 2 * w + 1 == Pow2(m + 1) - 1 && 2 * w + 1 < WORD_32
  {
    Pow2Values();
    if m < 31 { Pow2Below(m, 31); }
  }

  lemma OneMore(w: Word32)
    requires 2 * w + 1 < WORD_32
    ensures IEEE.xor(IEEE.double(w), IEEE.inject(true)) == 2 * w + 1
  {
    hide Xor;
    XorHalves(2 * w, 1);
    XorZero(w);
  }

  lemma {:induction false} OnesShiftIn(w: Word32, n: nat, m: nat)
    requires w == Pow2(m) - 1 && m + n <= 32
    ensures ShiftIn(IEEE, w, Repeat(true, n)) == Pow2(m + n) - 1
    decreases n
  {
    hide Xor, Pow2;
    if n == 0 {
    } else {
      OnesGrow(w, m);
      OneMore(w);
      assert Repeat(true, n)[1..] == Repeat(true, n - 1);
      OnesShiftIn(2 * w + 1, n - 1, m + 1);
    }
  }

  lemma HalfOfOnes(p: nat)
    requires p > 0
    ensures (2 * p - 1) % 2 == 1 && (2 * p - 1) / 2 == p - 1
  {
  }

  lemma {:induction false} ReversedOnes(n: nat)
    ensures Reversed(Pow2(n) - 1, n) == Pow2(n) - 1
  {
    if n == 0 {
    } else {
      HalfOfOnes(Pow2(n - 1));
      ReversedOnes(n - 1);
    }
  }

  /**
   * The definition in the standard: the bits in transmission order, the first 32 complemented and
   * 32 zeros appended, divided by the generator; the remainder complemented.
   */
  function IeeeCrc32(message: seq<bool>): Word32 {
    WORD_32 - 1 - Remainder(IEEE, 0, Dividend(message, 32))
  }

  lemma RegisterReflects(data: Bytes)
    ensures Reflected(Register(data)) == RegisterAll(IEEE, Reflected(WORD_32 - 1), BitsOf(data))
  {
    RegisterIsFeed(data);
    FeedReflects(WORD_32 - 1, BitsOf(data));
  }

  lemma PresetIsDivision(message: seq<bool>)
    ensures RegisterAll(IEEE, Reflected(WORD_32 - 1), message) == Remainder(IEEE, 0, Dividend(message, 32))
  {
    hide Remainder, Dividend, RegisterAll, Reversed, DividerLaws, ShiftIn;
    Pow2Values();
    ReversedOnes(32);
    OnesShiftIn(0, 32, 0);
    IeeeIsDivider();
    RegisterIsRemainder(IEEE, message);
  }

  lemma RegisterIsIeeeRemainder(data: Bytes)
    ensures Reflected(Register(data)) == WORD_32 - 1 - IeeeCrc32(BitsOf(data))
  {
    RegisterReflects(data);
    PresetIsDivision(BitsOf(data));
  }

  lemma {:induction false} ReversedComplement(w: nat, n: nat)
    requires w < Pow2(n)
    ensures Reversed(Pow2(n) - 1 - w, n) == Pow2(n) - 1 - Reversed(w, n)
  {
    if n == 0 {
    } else {
      assert (Pow2(n) - 1 - w) / 2 == Pow2(n - 1) - 1 - w / 2;
      assert (Pow2(n) - 1 - w) % 2 == 1 - w % 2;
      ReversedComplement(w / 2, n - 1);
    }
  }

  lemma ComplementReflects(w: Word32)
    ensures Reflected(WORD_32 - 1 - w) == WORD_32 - 1 - Reflected(w)
  {
    Pow2Values();
    ReversedComplement(w, 32);
  }

  /** The bit loop computes the IEEE CRC-32, with the highest power in the low bit. */
  lemma Crc32IsIeeeRemainder(data: Bytes)
    ensures Reflected(Crc32Of(data)) == IeeeCrc32(BitsOf(data))
  {
    hide IeeeCrc32, Reflected, Register, BitsOf;
    RegisterIsIeeeRemainder(data);
    ComplementReflects(Register(data));
  }
}
