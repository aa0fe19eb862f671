/** Deterministic impairment decisions and the engine that turns datagrams into outcomes. */
module Impairments {
  import opened Wrappers
  import opened Bits
  import opened SplitMix

  type Byte = b: int | 0 <= b < 256
  type Bytes = seq<Byte>

  /** A float seen through `as_integer_ratio`: an exact fraction with a positive denominator. */
  datatype Ratio = Ratio(numerator: int, denominator: int)
  type Rate = r: Ratio | r.denominator > 0 witness Ratio(0, 1)

  datatype LinkError =
    | BitOutsidePayload
    | UpperBoundNotPositive
    | NegativeTime
    | OutcomeOutOfOrder
    | ClockMovedBackwards
    | StreamClosed
    | MetadataNotFirst
    | MetadataMissing
    | WrongEmitter

  ghost predicate UnitRate(rate: Rate) {
    0 <= rate.numerator <= rate.denominator
  }

  datatype LinkConfig = LinkConfig(
    seed: int,
    lossRate: Rate,
    duplicateRate: Rate,
    corruptRate: Rate,
    latencyMs: int,
    jitterMs: int,
    reorderWindow: int)
  {
    /** The bounds that the configuration's constructor enforces. */
    ghost predicate Valid() {
      && 0 <= seed < WORD
      && UnitRate(lossRate) && UnitRate(duplicateRate) && UnitRate(corruptRate)
      && 0 <= latencyMs
      && 0 <= jitterMs
      && 0 <= reorderWindow <= 65_535
    }
  }

  ghost predicate RateAtMost(r: Rate, s: Rate) {
    r.numerator * s.denominator <= s.numerator * r.denominator
  }

  datatype Delivery = Delivery(
    payload: Bytes, copyIndex: nat, delayMs: nat, holdPackets: nat, corruptedBit: Option<nat>)

  datatype PacketOutcome = PacketOutcome(packetIndex: nat, dropped: bool, deliveries: seq<Delivery>)
  {
    predicate Duplicated() { |deliveries| == 2 }
  }

  // ---------- decisions on one sample ----------

  function ProbabilityHit(sample: Word, rate: Rate): bool {
    if rate.numerator <= 0 then false
    else if rate.numerator >= rate.denominator then true
    else sample < (rate.numerator * WORD) / rate.denominator
  }

  lemma MulNonNegative(a: int, b: int)
    requires 0 <= a && 0 <= b
    ensures 0 <= a * b
  {
  }

  /** Multiply-high scaling into `0 .. upperBound`. */
  function ScaleU64(sample: Word, upperBound: int): Result<nat, LinkError> {
    if upperBound <= 0 then Failure(UpperBoundNotPositive)
    else
      MulNonNegative(sample, upperBound);
      Success((sample * upperBound) / WORD)
  }

  lemma MulMonotone(a: int, b: int, c: int)
    requires a <= b && 0 <= c
    ensures a * c <= b * c
  {
  }

  lemma DivBelow(x: int, n: int)
    requires 0 < n && x < WORD * n
    ensures x / WORD < n
  {
  }

  lemma ScaledInRange(sample: Word, upperBound: int)
    requires 0 < upperBound
    ensures ScaleU64(sample, upperBound).Success?
    ensures ScaleU64(sample, upperBound).value < upperBound
  {
    var product := sample * upperBound;
    assert product <= (WORD - 1) * upperBound by { MulMonotone(sample, WORD - 1, upperBound); }
    DivBelow(product, upperBound);
  }

  // ---------- exact acceptance counts ----------

  predicate InRange(x: int, n: nat) { 0 <= x < n }

  /** The naturals below `n`. */
  ghost function Below(n: nat): set<int> {
    set x | 0 <= x < n && InRange(x, n)
  }

  lemma {:induction false} BelowSize(n: nat)
    ensures |Below(n)| == n
  {
    if n == 0 {
    } else {
      BelowSize(n - 1);
      assert Below(n) == Below(n - 1) + {n - 1};
    }
  }

  lemma IntervalSize(lo: nat, hi: nat)
    requires lo <= hi
    ensures |Below(hi) - Below(lo)| == hi - lo
  {
    BelowSize(lo);
    BelowSize(hi);
    assert Below(lo) <= Below(hi);
    assert |Below(hi)| == |Below(hi) - Below(lo)| + |Below(lo)| by {
      assert Below(hi) == (Below(hi) - Below(lo)) + Below(lo);
    }
  }

  /** Samples that a rate accepts. */
  ghost function Accepted(rate: Rate): set<int> {
    set s | 0 <= s < WORD && ProbabilityHit(s, rate)
  }

  lemma DivUnique(x: int, d: int, q: int, r: int)
    requires 0 <= r < d && x == q * d + r
    ensures x / d == q && x % d == r
  {
    var q', r' := x / d, x % d;
    assert x == d * q' + r';
    if q' < q {
      MulMonotone(1, q - q', d);
    } else if q < q' {
      MulMonotone(1, q' - q, d);
    }
  }

  lemma DivExact(d: int)
    requires 0 < d
    ensures (d * WORD) / d == WORD
  {
    DivUnique(d * WORD, d, WORD, 0);
  }

  lemma ThresholdRange(n: int, d: int)
    requires 0 <= n <= d && 0 < d
    ensures 0 <= (n * WORD) / d <= WORD
    ensures n == 0 ==> (n * WORD) / d == 0
  {
    var q, r := (n * WORD) / d, (n * WORD) % d;
    assert n * WORD == d * q + r;
    assert 0 <= n * WORD <= d * WORD;
    if q < 0 {
      MulMonotone(q, -1, d);
    } else if WORD < q {
      MulMonotone(WORD + 1, q, d);
    } else if n == 0 && 0 < q {
      MulMonotone(1, q, d);
    }
  }

  /** A rate in the unit interval accepts exactly the floor of `rate * 2^64` samples. */
  lemma AcceptedCount(rate: Rate)
    requires UnitRate(rate)
    ensures |Accepted(rate)| == (rate.numerator * WORD) / rate.denominator
  {
    var n, d := rate.numerator, rate.denominator;
    var t := (n * WORD) / d;
    ThresholdRange(n, d);
    if n == 0 {
      assert Accepted(rate) == {};
    } else if n == d {
      DivExact(d);
      assert Accepted(rate) == Below(WORD);
      BelowSize(WORD);
    } else {
      assert Accepted(rate) == Below(t);
      BelowSize(t);
    }
  }

  /** The samples that scale to `k`. */
  ghost function Bucket(upperBound: int, k: nat): set<int> {
    set s | 0 <= s < WORD && ScaleU64(s, upperBound) == Success(k)
  }

  /** The first sample at or above the fraction `k / upperBound` of the range. */
  function BucketStart(upperBound: int, k: nat): int
    requires 0 < upperBound
  {
    (k * WORD + upperBound - 1) / upperBound
  }

  lemma BucketStartIsThreshold(upperBound: int, k: nat, s: int)
    requires 0 < upperBound
    ensures s < BucketStart(upperBound, k) <==> s * upperBound < k * WORD
  {
    var c := BucketStart(upperBound, k);
    var x := k * WORD + upperBound - 1;
    var r := x % upperBound;
    assert x == upperBound * c + r && 0 <= r < upperBound;
    if s < c {
      MulMonotone(s, c - 1, upperBound);
      assert s * upperBound <= c * upperBound - upperBound;
    } else {
      MulMonotone(c, s, upperBound);
    }
  }

  lemma QuotientIs(x: int, k: int)
    ensures x / WORD == k <==> k * WORD <= x < (k + 1) * WORD
  {
  }

  lemma BucketIsInterval(upperBound: int, k: nat, s: Word)
    requires 0 < upperBound
    ensures ScaleU64(s, upperBound) == Success(k)
      <==> BucketStart(upperBound, k) <= s < BucketStart(upperBound, k + 1)
  {
    BucketStartIsThreshold(upperBound, k, s);
    BucketStartIsThreshold(upperBound, k + 1, s);
    MulNonNegative(s, upperBound);
    QuotientIs(s * upperBound, k);
  }

  /** The least integer not below `2^64 / n`. */
  function Ceiling(n: int): int
    requires 0 < n
  {
    WORD / n + if WORD % n == 0 then 0 else 1
  }

  lemma DivBelowWord(n: int)
    requires 0 < n
    ensures 0 <= WORD / n
  {
    ThresholdRange(1, n);
  }

  lemma BucketSet(upperBound: int, k: nat, lo: nat, hi: nat)
    requires 0 < upperBound && hi <= WORD
    requires lo == BucketStart(upperBound, k) && hi == BucketStart(upperBound, k + 1)
    ensures Bucket(upperBound, k) == Below(hi) - Below(lo)
  {
    forall s: int
      ensures s in Bucket(upperBound, k) <==> s in Below(hi) - Below(lo)
    {
      if 0 <= s < WORD { BucketIsInterval(upperBound, k, s); }
    }
  }

  lemma BucketEnds(upperBound: int, k: nat)
    requires 0 < upperBound && k < upperBound
    ensures 0 <= BucketStart(upperBound, k)
    ensures BucketStart(upperBound, k + 1) <= WORD
  {
    BucketStartIsThreshold(upperBound, k, -1);
    assert -1 < BucketStart(upperBound, k);
    BucketStartIsThreshold(upperBound, k + 1, WORD);
    MulMonotone(k + 1, upperBound, WORD);
  }

  lemma BucketWidth(upperBound: int, k: nat)
    requires 0 < upperBound
    ensures var w := BucketStart(upperBound, k + 1) - BucketStart(upperBound, k);
      WORD / upperBound <= w <= Ceiling(upperBound)
  {
    var n := upperBound;
    var q, r := WORD / n, WORD % n;
    assert WORD == n * q + r;
    var x, y := k * WORD + n - 1, (k + 1) * WORD + n - 1;
    var a, b := x / n, x % n;
    assert x == n * a + b && y == n * (a + q) + (b + r);
    if b + r < n {
      DivUnique(y, n, a + q, b + r);
    } else {
      assert y == n * (a + q + 1) + (b + r - n);
      DivUnique(y, n, a + q + 1, b + r - n);
    }
  }

  lemma FloorAndCeiling(n: int, size: int)
    requires 0 < n
    ensures WORD / n <= size <= Ceiling(n) ==> (size - 1) * n < WORD < (size + 1) * n
  {
    var q, r := WORD / n, WORD % n;
    assert WORD == n * q + r;
    if q <= size <= Ceiling(n) {
      MulMonotone(q + 1, size + 1, n);
      MulMonotone(size - 1, Ceiling(n) - 1, n);
    }
  }

  /** Buckets are fair: every one of the `upperBound` results has floor or ceiling many samples. */
  lemma BucketsAreFair(upperBound: int, k: nat)
    requires 0 < upperBound && k < upperBound
    ensures WORD / upperBound <= |Bucket(upperBound, k)| <= Ceiling(upperBound)
    ensures (|Bucket(upperBound, k)| - 1) * upperBound < WORD < (|Bucket(upperBound, k)| + 1) * upperBound
  {
    FloorAndCeiling(upperBound, |Bucket(upperBound, k)|);
    var lo, hi := BucketStart(upperBound, k), BucketStart(upperBound, k + 1);
    BucketWidth(upperBound, k);
    DivBelowWord(upperBound);
    BucketEnds(upperBound, k);
    BucketSet(upperBound, k, lo, hi);
    IntervalSize(lo, hi);
  }

  // ---------- one-bit corruption ----------

  lemma ByteXor(b: Byte, offset: nat)
    requires offset < 8
    ensures Pow2(offset) < 256 && Xor(b, Pow2(offset)) < 256
  {
    Pow2Values();
    Pow2Below(offset, 8);
    XorBound(b, Pow2(offset), 8);
  }

  function FlippedByte(b: Byte, offset: nat): Byte
    requires offset < 8
  {
    ByteXor(b, offset);
    Xor(b, Pow2(offset))
  }

  /** `payload` with bit `bit` inverted, counting from the low bit of byte zero. */
  function Flipped(payload: Bytes, bit: nat): (r: Bytes)
    requires bit < 8 * |payload|
    ensures |r| == |payload|
  {
    payload[bit / 8 := FlippedByte(payload[bit / 8], bit % 8)]
  }

  lemma FlipByteTwice(b: Byte, offset: nat)
    requires offset < 8
    ensures FlippedByte(b, offset) != b
    ensures FlippedByte(FlippedByte(b, offset), offset) == b
  {
    XorCancel(b, Pow2(offset));
    XorAssociative(b, b, Pow2(offset));
    XorSelf(b);
    XorZero(Pow2(offset));
  }

  /** Flipping changes exactly the byte that holds the bit, and flipping twice changes nothing. */
  lemma FlipIsLocalInvolution(payload: Bytes, bit: nat)
    requires bit < 8 * |payload|
    ensures forall k :: 0 <= k < |payload| ==> (Flipped(payload, bit)[k] == payload[k] <==> k != bit / 8)
    ensures Flipped(Flipped(payload, bit), bit) == payload
  {
    FlipByteTwice(payload[bit / 8], bit % 8);
  }

  method FlipBit(payload: Bytes, bitIndex: int) returns (r: Result<Bytes, LinkError>)
    ensures r.Success? <==> 0 <= bitIndex < 8 * |payload|
    ensures r.Success? ==> r.value == Flipped(payload, bitIndex)
    ensures r.Failure? ==> r.error == BitOutsidePayload
  {
    if !(0 <= bitIndex < |payload| * 8) {
      return Failure(BitOutsidePayload);
    }
    var changed := new Byte[|payload|](i requires 0 <= i < |payload| => payload[i]);
    assert changed[..] == payload;
    var byteIndex, offset := bitIndex / 8, bitIndex % 8;
    changed[byteIndex] := FlippedByte(changed[byteIndex], offset);
    return Success(changed[..]);
  }

  // ---------- the engine ----------

  const DRAWS_PER_PACKET := 6

  /** Sample `slot` of packet `index`: draw `6 * index + slot` of the generator, whatever the rates. */
  function Sample(config: LinkConfig, index: nat, slot: nat): Word
    requires 0 <= config.seed
  {
    Draw(config.seed, DRAWS_PER_PACKET * index + slot)
  }

  predicate Drops(config: LinkConfig, index: nat)
    requires config.Valid()
  {
    ProbabilityHit(Sample(config, index, 0), config.lossRate)
  }

  predicate Duplicates(config: LinkConfig, index: nat)
    requires config.Valid()
  {
    ProbabilityHit(Sample(config, index, 1), config.duplicateRate)
  }

  predicate Corrupts(config: LinkConfig, index: nat)
    requires config.Valid()
  {
    ProbabilityHit(Sample(config, index, 2), config.corruptRate)
  }

  function Max(a: int, b: int): int { if a >= b then a else b }

  function DelayMs(config: LinkConfig, sample: Word): nat
    requires config.Valid()
  {
    if config.jitterMs == 0 then config.latencyMs
    else
      ScaledInRange(sample, 2 * config.jitterMs + 1);
      Max(0, config.latencyMs + ScaleU64(sample, 2 * config.jitterMs + 1).value - config.jitterMs)
  }

  function HoldPackets(config: LinkConfig, sample: Word): nat
    requires config.Valid()
  {
    if config.reorderWindow == 0 then 0
    else
      ScaledInRange(sample, config.reorderWindow + 1);
      ScaleU64(sample, config.reorderWindow + 1).value
  }

  /** The deliveries that share one payload, delay, hold and corrupted bit, numbered from zero. */
  function Copies(count: nat, payload: Bytes, delayMs: nat, holdPackets: nat, bit: Option<nat>)
    : (r: seq<Delivery>)
    ensures |r| == count
    ensures forall k :: 0 <= k < count ==> r[k] == Delivery(payload, k, delayMs, holdPackets, bit)
  {
    seq(count, k requires 0 <= k => Delivery(payload, k, delayMs, holdPackets, bit))
  }

  /** The samples that packet `index` consumes. */
  function Samples(config: LinkConfig, index: nat): (r: seq<Word>)
    requires 0 <= config.seed
    ensures |r| == DRAWS_PER_PACKET
  {
    seq(DRAWS_PER_PACKET, slot requires 0 <= slot => Sample(config, index, slot))
  }

  function BitFrom(config: LinkConfig, samples: seq<Word>, payload: Bytes): (bit: Option<nat>)
    requires config.Valid() && |samples| == DRAWS_PER_PACKET
    ensures bit.Some? ==> bit.value < 8 * |payload|
  {
    if ProbabilityHit(samples[2], config.corruptRate) && payload != [] then
      ScaledInRange(samples[5], |payload| * 8);
      Some(ScaleU64(samples[5], |payload| * 8).value)
    else None
  }

  /** The decision table on given samples; `OutcomeAt` is its value on the packet's own samples. */
  function OutcomeFrom(config: LinkConfig, index: nat, samples: seq<Word>, payload: Bytes): PacketOutcome
    requires config.Valid() && |samples| == DRAWS_PER_PACKET
  {
    if ProbabilityHit(samples[0], config.lossRate) then PacketOutcome(index, true, [])
    else
      var bit := BitFrom(config, samples, payload);
      PacketOutcome(index, false, Copies(
        if ProbabilityHit(samples[1], config.duplicateRate) then 2 else 1,
        if bit.Some? then Flipped(payload, bit.value) else payload,
        DelayMs(config, samples[3]),
        HoldPackets(config, samples[4]),
        bit))
  }

  /** What the engine must decide for packet number `index`: a function of the configuration only. */
  function OutcomeAt(config: LinkConfig, index: nat, payload: Bytes): PacketOutcome
    requires config.Valid()
  {
    OutcomeFrom(config, index, Samples(config, index), payload)
  }

  /** The promised bounds on delay and hold, for every sample. */
  lemma DelayAndHoldBounds(config: LinkConfig, s: Word, t: Word)
    requires config.Valid()
    ensures Max(0, config.latencyMs - config.jitterMs) <= DelayMs(config, s) <= config.latencyMs + config.jitterMs
    ensures DelayMs(config, s) - DelayMs(config, t) <= 2 * config.jitterMs
    ensures HoldPackets(config, s) <= config.reorderWindow
  {
    if config.jitterMs != 0 {
      ScaledInRange(s, 2 * config.jitterMs + 1);
      ScaledInRange(t, 2 * config.jitterMs + 1);
    }
    if config.reorderWindow != 0 { ScaledInRange(s, config.reorderWindow + 1); }
  }

  lemma SampleIsDraw(config: LinkConfig, index: nat, slot: nat)
    requires config.Valid() && slot < DRAWS_PER_PACKET
    ensures Samples(config, index)[slot] == Draw(config.seed, DRAWS_PER_PACKET * index + slot)
  {
  }

  lemma SampleIsNextDraw(config: LinkConfig, index: nat, slot: nat)
    requires config.Valid() && slot < DRAWS_PER_PACKET
    ensures var state := AfterDraws(config.seed, DRAWS_PER_PACKET * index + slot);
      && Advance(state) == AfterDraws(config.seed, DRAWS_PER_PACKET * index + slot + 1)
      && Mix(Advance(state)) == Samples(config, index)[slot]
  {
    var n := DRAWS_PER_PACKET * index + slot;
    DrawFollows(config.seed, n);
    WordModulo(config.seed);
    SampleIsDraw(config, index, slot);
  }

  class ImpairmentEngine {
    const config: LinkConfig
    const rng: SplitMix64
    var packetIndex: nat

    ghost predicate Valid()
      reads this, rng
    {
      config.Valid() && rng.state == AfterDraws(config.seed, DRAWS_PER_PACKET * packetIndex)
    }

    constructor (config: LinkConfig)
      requires config.Valid()
      ensures Valid() && fresh(rng)
      ensures this.config == config && packetIndex == 0
    {
      this.config := config;
      rng := new SplitMix64(config.seed);
      packetIndex := 0;
    }

    method DrawSamples() returns (samples: seq<Word>)
      requires Valid()
      modifies rng
      ensures samples == Samples(config, packetIndex)
      ensures rng.state == AfterDraws(config.seed, DRAWS_PER_PACKET * (packetIndex + 1))
    {
      hide AfterDraws, Samples;
      samples := [];
      for i := 0 to DRAWS_PER_PACKET
        invariant rng.state == AfterDraws(config.seed, DRAWS_PER_PACKET * packetIndex + i)
        invariant samples == Samples(config, packetIndex)[..i]
      {
        var value := rng.NextU64();
        SampleIsNextDraw(config, packetIndex, i);
        samples := samples + [value];
      }
    }

    /** The decisions of one packet, once its samples are drawn. */
    method Decide(index: nat, samples: seq<Word>, payload: Bytes) returns (outcome: PacketOutcome)
      requires config.Valid() && |samples| == DRAWS_PER_PACKET
      ensures outcome == OutcomeFrom(config, index, samples, payload)
    {
      var drop := ProbabilityHit(samples[0], config.lossRate);
      var duplicate := ProbabilityHit(samples[1], config.duplicateRate);
      var corrupt := ProbabilityHit(samples[2], config.corruptRate);

      var jitterOffset := 0;
      if config.jitterMs != 0 {
        var span := 2 * config.jitterMs + 1;
        ScaledInRange(samples[3], span);
        jitterOffset := ScaleU64(samples[3], span).value - config.jitterMs;
      }
      var delayMs := Max(0, config.latencyMs + jitterOffset);

      var holdPackets := 0;
      if config.reorderWindow != 0 {
        ScaledInRange(samples[4], config.reorderWindow + 1);
        holdPackets := ScaleU64(samples[4], config.reorderWindow + 1).value;
      }

      var corruptedBit: Option<nat> := None;
      var outputPayload := payload;
      if corrupt && payload != [] {
        ScaledInRange(samples[5], |payload| * 8);
        var bit := ScaleU64(samples[5], |payload| * 8).value;
        corruptedBit := Some(bit);
        var flipped := FlipBit(payload, bit);
        outputPayload := flipped.value;
      }

      if drop {
        return PacketOutcome(index, true, []);
      }
      var copies := if duplicate then 2 else 1;
      var deliveries: seq<Delivery> := [];
      for copyIndex := 0 to copies
        invariant deliveries == Copies(copyIndex, outputPayload, delayMs, holdPackets, corruptedBit)
      {
        deliveries := deliveries + [Delivery(outputPayload, copyIndex, delayMs, holdPackets, corruptedBit)];
      }
      outcome := PacketOutcome(index, false, deliveries);
    }

    method Process(payload: Bytes) returns (outcome: PacketOutcome)
      requires Valid()
      modifies this, rng
      ensures Valid() && packetIndex == old(packetIndex) + 1
      ensures outcome == OutcomeAt(config, old(packetIndex), payload)
    {
      var samples := DrawSamples();
      var index := packetIndex;
      packetIndex := packetIndex + 1;
      outcome := Decide(index, samples, payload);
    }
  }

  // ---------- monotone coupling ----------

  lemma MulStrict(a: int, b: int, c: int)
    requires a < b && 0 < c
    ensures a * c < b * c
  {
  }

  lemma FloorMonotone(a: int, b: int, c: int, d: int)
    requires 0 < b && 0 < d && a * d <= c * b
    ensures (a * WORD) / b <= (c * WORD) / d
  {
    var p, q := (a * WORD) / b, (c * WORD) / d;
    if q + 1 <= p {
      assert b * p <= a * WORD && c * WORD < d * (q + 1);
      calc {
        d * (b * p);
      <= { MulMonotone(b * p, a * WORD, d); }
        a * WORD * d;
      <= { MulMonotone(a * d, c * b, WORD); }
        c * WORD * b;
      < { MulStrict(c * WORD, d * (q + 1), b); }
        d * (q + 1) * b;
      <= { MulMonotone(q + 1, p, d * b); }
        d * b * p;
      }
    }
  }

  lemma HitIsMonotone(sample: Word, r: Rate, s: Rate)
    requires UnitRate(r) && UnitRate(s) && RateAtMost(r, s)
    ensures ProbabilityHit(sample, r) ==> ProbabilityHit(sample, s)
  {
    var a, b, c, d := r.numerator, r.denominator, s.numerator, s.denominator;
    if ProbabilityHit(sample, r) && 0 < a {
      if c <= 0 {
        MulMonotone(1, a, d);
        MulMonotone(c, 0, b);
      } else if c < d {
        if a >= b {
          assert a == b;
          MulMonotone(c + 1, d, b);
        } else {
          FloorMonotone(a, b, c, d);
        }
      }
    }
  }

  /**
   * Monotone coupling: under one seed a larger rate selects a superset of the packets, for loss,
   * duplication and corruption alike, whatever the other settings and the payloads are.
   */
  lemma MonotoneCoupling(low: LinkConfig, high: LinkConfig, n: nat)
    requires low.Valid() && high.Valid() && low.seed == high.seed
    ensures RateAtMost(low.lossRate, high.lossRate) ==>
      (set i: nat | i < n && Drops(low, i)) <= (set i: nat | i < n && Drops(high, i))
    ensures RateAtMost(low.duplicateRate, high.duplicateRate) ==>
      (set i: nat | i < n && Duplicates(low, i)) <= (set i: nat | i < n && Duplicates(high, i))
    ensures RateAtMost(low.corruptRate, high.corruptRate) ==>
      (set i: nat | i < n && Corrupts(low, i)) <= (set i: nat | i < n && Corrupts(high, i))
  {
    forall i: nat | i < n
      ensures RateAtMost(low.lossRate, high.lossRate) && Drops(low, i) ==> Drops(high, i)
      ensures RateAtMost(low.duplicateRate, high.duplicateRate) && Duplicates(low, i) ==> Duplicates(high, i)
      ensures RateAtMost(low.corruptRate, high.corruptRate) && Corrupts(low, i) ==> Corrupts(high, i)
    {
      if RateAtMost(low.lossRate, high.lossRate) {
        HitIsMonotone(Sample(low, i, 0), low.lossRate, high.lossRate);
      }
      if RateAtMost(low.duplicateRate, high.duplicateRate) {
        HitIsMonotone(Sample(low, i, 1), low.duplicateRate, high.duplicateRate);
      }
      if RateAtMost(low.corruptRate, high.corruptRate) {
        HitIsMonotone(Sample(low, i, 2), low.corruptRate, high.corruptRate);
      }
    }
  }
}
