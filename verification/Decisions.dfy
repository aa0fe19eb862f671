/**
 * What the impairment engine decides, stated without its arithmetic: by comparisons of whole draws, by
 * single bits, and one field at a time. The statement determines the outcome.
 */
module Decisions {
  import opened Wrappers
  import opened Bits
  import opened Impairments
  import opened SplitMix

  // ---------- rates, scaling and damage ----------

  /** The sample is among the first floor(rate * 2^64). */
  predicate Accepts(sample: Word, rate: Rate) {
    (sample + 1) * rate.denominator <= rate.numerator * WORD
  }

  lemma FloorCompare(sample: int, x: int, d: int)
    requires 0 < d
    ensures sample < x / d <==> (sample + 1) * d <= x
  {
    var q, r := x / d, x % d;
    assert x == d * q + r;
    if sample < q {
      MulMonotone(sample + 1, q, d);
    } else {
      MulMonotone(q, sample, d);
    }
  }

  lemma HitIsAccepts(sample: Word, rate: Rate)
    requires UnitRate(rate)
    ensures ProbabilityHit(sample, rate) <==> Accepts(sample, rate)
  {
    var n, d := rate.numerator, rate.denominator;
    if n == 0 {
      MulMonotone(1, sample + 1, d);
    } else if n == d {
      MulMonotone(sample + 1, WORD, d);
    } else {
      FloorCompare(sample, n * WORD, d);
    }
  }

  /** A rate of zero or less accepts no sample, a rate of one or more accepts every sample. */
  lemma HitOutside(sample: Word, rate: Rate)
    ensures rate.numerator <= 0 ==> !ProbabilityHit(sample, rate)
    ensures rate.numerator >= rate.denominator ==> ProbabilityHit(sample, rate)
  {
  }

  /** `k` is the sample's place among `n` equal parts of the range. */
  predicate Scales(sample: Word, n: nat, k: int) {
    0 <= k < n && k * WORD <= sample * n < (k + 1) * WORD
  }

  lemma ScaleScales(sample: Word, n: nat)
    requires 0 < n
    ensures ScaleU64(sample, n).Success? && Scales(sample, n, ScaleU64(sample, n).value)
  {
    MulNonNegative(sample, n);
    ScaledInRange(sample, n);
    QuotientIs(sample * n, ScaleU64(sample, n).value);
  }

  /** Scaling is refused exactly for a bound that is not positive. */
  lemma ScaleRefuses(sample: Word, n: int)
    ensures ScaleU64(sample, n) == Failure(UpperBoundNotPositive) <==> n <= 0
  {
  }

  lemma ScalesOnce(sample: Word, n: nat, j: int, k: int)
    requires Scales(sample, n, j) && Scales(sample, n, k)
    ensures j == k
  {
  }

  /** The payloads differ in bit `bit` and in no other; bit zero is the lowest of byte zero. */
  ghost predicate Damaged(payload: Bytes, damaged: Bytes, bit: nat) {
    && |damaged| == |payload|
    && forall k, j :: 0 <= k < |payload| && 0 <= j < 8 ==>
         (Bit(damaged[k], j) != Bit(payload[k], j) <==> 8 * k + j == bit)
  }

  lemma BitIsBinary(a: nat, j: nat)
    ensures Bit(a, j) < 2
  {
  }

  lemma FlippedIsDamaged(payload: Bytes, bit: nat)
    requires bit < 8 * |payload|
    ensures Damaged(payload, Flipped(payload, bit), bit)
  {
    hide Bit;
    var flipped := Flipped(payload, bit);
    forall k, j | 0 <= k < |payload| && 0 <= j < 8
      ensures Bit(flipped[k], j) != Bit(payload[k], j) <==> 8 * k + j == bit
    {
      XorBit(payload[k], Pow2(bit % 8), j);
      PowerBit(bit % 8, j);
      BitIsBinary(payload[k], j);
    }
  }

  lemma DamagedOnce(payload: Bytes, x: Bytes, y: Bytes, bit: nat)
    requires Damaged(payload, x, bit) && Damaged(payload, y, bit)
    ensures x == y
  {
    hide Bit;
    Pow2Values();
    forall k | 0 <= k < |payload|
      ensures x[k] == y[k]
    {
      forall j | 0 <= j < 8
        ensures Bit(x[k], j) == Bit(y[k], j)
      {
        BitIsBinary(x[k], j);
        BitIsBinary(y[k], j);
        BitIsBinary(payload[k], j);
      }
      SameBitsEqual(x[k], y[k], 8);
    }
  }

  // ---------- the decision on one packet ----------

  /** Draw `slot` of packet `n`. */
  function DrawOf(c: LinkConfig, n: nat, slot: nat): Word
    requires 0 <= c.seed
  {
    Draw(c.seed, 6 * n + slot)
  }

  /** The delay is the latency less the jitter, plus one of `2 * jitterMs + 1` offsets, and not negative. */
  predicate DelayFrom(c: LinkConfig, sample: Word, offset: int, delayMs: int)
    requires c.Valid()
  {
    var shifted := c.latencyMs - c.jitterMs + offset;
    Scales(sample, 2 * c.jitterMs + 1, offset) && delayMs == if shifted < 0 then 0 else shifted
  }

  /** What packet `n` with this payload must suffer, delivery `copy` of it being `d`. */
  ghost predicate DeliveryDecided(c: LinkConfig, n: nat, payload: Bytes, copy: nat, d: Delivery)
    requires c.Valid()
  {
    && d.copyIndex == copy
    && (exists offset :: DelayFrom(c, DrawOf(c, n, 3), offset, d.delayMs))
    && Scales(DrawOf(c, n, 4), c.reorderWindow + 1, d.holdPackets)
    && (d.corruptedBit.Some? <==> Accepts(DrawOf(c, n, 2), c.corruptRate) && payload != [])
    && (d.corruptedBit.Some? ==>
          && Scales(DrawOf(c, n, 5), 8 * |payload|, d.corruptedBit.value)
          && Damaged(payload, d.payload, d.corruptedBit.value))
    && (d.corruptedBit.None? ==> d.payload == payload)
  }

  ghost predicate Decided(c: LinkConfig, n: nat, payload: Bytes, o: PacketOutcome)
    requires c.Valid()
  {
    && o.packetIndex == n
    && (o.dropped <==> Accepts(DrawOf(c, n, 0), c.lossRate))
    && |o.deliveries| == (if o.dropped then 0 else if Accepts(DrawOf(c, n, 1), c.duplicateRate) then 2 else 1)
    && (forall k :: 0 <= k < |o.deliveries| ==> DeliveryDecided(c, n, payload, k, o.deliveries[k]))
  }

  lemma OnePart(sample: Word, k: int)
    requires Scales(sample, 1, k)
    ensures k == 0
  {
  }

  lemma DelayIsDecided(c: LinkConfig, sample: Word) returns (offset: int)
    requires c.Valid()
    ensures DelayFrom(c, sample, offset, DelayMs(c, sample))
  {
    hide Scales;
    ScaleScales(sample, 2 * c.jitterMs + 1);
    offset := ScaleU64(sample, 2 * c.jitterMs + 1).value;
    if c.jitterMs == 0 { OnePart(sample, offset); }
  }

  lemma HoldIsDecided(c: LinkConfig, sample: Word)
    requires c.Valid()
    ensures Scales(sample, c.reorderWindow + 1, HoldPackets(c, sample))
  {
    hide Scales;
    ScaleScales(sample, c.reorderWindow + 1);
    if c.reorderWindow == 0 { OnePart(sample, ScaleU64(sample, 1).value); }
  }

  lemma BitIsDecided(c: LinkConfig, samples: seq<Word>, payload: Bytes)
    requires c.Valid() && |samples| == 6
    ensures var bit := BitFrom(c, samples, payload);
      && (bit.Some? <==> Accepts(samples[2], c.corruptRate) && payload != [])
      && (bit.Some? ==>
            && Scales(samples[5], 8 * |payload|, bit.value)
            && Damaged(payload, Flipped(payload, bit.value), bit.value))
  {
    hide Scales, Damaged, Flipped, Accepts, ProbabilityHit;
    HitIsAccepts(samples[2], c.corruptRate);
    if payload != [] {
      ScaleScales(samples[5], 8 * |payload|);
    }
    var bit := BitFrom(c, samples, payload);
    if bit.Some? {
      FlippedIsDamaged(payload, bit.value);
    }
  }

  lemma DeliveryIsDecided(c: LinkConfig, n: nat, payload: Bytes, k: nat)
    requires c.Valid() && k < |OutcomeAt(c, n, payload).deliveries|
    ensures DeliveryDecided(c, n, payload, k, OutcomeAt(c, n, payload).deliveries[k])
  {
    hide Draw, Accepts, Scales, Damaged, Flipped, BitFrom, DelayMs, HoldPackets;
    var samples := Samples(c, n);
    assert forall slot :: 0 <= slot < 6 ==> samples[slot] == DrawOf(c, n, slot);
    var offset := DelayIsDecided(c, samples[3]);
    HoldIsDecided(c, samples[4]);
    BitIsDecided(c, samples, payload);
    assert OutcomeAt(c, n, payload) == OutcomeFrom(c, n, samples, payload);
  }

  /** The engine's outcome is as decided. */
  lemma OutcomeIsDecided(c: LinkConfig, n: nat, payload: Bytes)
    requires c.Valid()
    ensures Decided(c, n, payload, OutcomeAt(c, n, payload))
  {
    hide Draw, ProbabilityHit, Accepts, DeliveryDecided;
    HitIsAccepts(DrawOf(c, n, 0), c.lossRate);
    HitIsAccepts(DrawOf(c, n, 1), c.duplicateRate);
    forall k | 0 <= k < |OutcomeAt(c, n, payload).deliveries|
      ensures DeliveryDecided(c, n, payload, k, OutcomeAt(c, n, payload).deliveries[k])
    {
      DeliveryIsDecided(c, n, payload, k);
    }
  }

  lemma DeliveryDecidedOnce(c: LinkConfig, n: nat, payload: Bytes, copy: nat, d: Delivery, e: Delivery)
    requires c.Valid() && DeliveryDecided(c, n, payload, copy, d) && DeliveryDecided(c, n, payload, copy, e)
    ensures d == e
  {
    hide Scales, Damaged, Accepts, Draw;
    var i :| DelayFrom(c, DrawOf(c, n, 3), i, d.delayMs);
    var j :| DelayFrom(c, DrawOf(c, n, 3), j, e.delayMs);
    ScalesOnce(DrawOf(c, n, 3), 2 * c.jitterMs + 1, i, j);
    ScalesOnce(DrawOf(c, n, 4), c.reorderWindow + 1, d.holdPackets, e.holdPackets);
    if d.corruptedBit.Some? {
      ScalesOnce(DrawOf(c, n, 5), 8 * |payload|, d.corruptedBit.value, e.corruptedBit.value);
      DamagedOnce(payload, d.payload, e.payload, d.corruptedBit.value);
    }
  }

  /** No other outcome is. */
  lemma DecidedOnce(c: LinkConfig, n: nat, payload: Bytes, o: PacketOutcome, p: PacketOutcome)
    requires c.Valid() && Decided(c, n, payload, o) && Decided(c, n, payload, p)
    ensures o == p
  {
    hide Accepts, DeliveryDecided, Draw;
    forall k | 0 <= k < |o.deliveries|
      ensures o.deliveries[k] == p.deliveries[k]
    {
      DeliveryDecidedOnce(c, n, payload, k, o.deliveries[k], p.deliveries[k]);
    }
  }
}
