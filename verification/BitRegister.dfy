/**
 * Linear feedback registers over any word type: what follows from a handful of laws, whatever the
 * width and the polynomial are. The CRC module shows that the 32-bit register obeys the laws.
 */
module BitRegister {

  /** A register word with exclusive or, a step, and a way to read it from its low bit. */
  datatype Algebra<!T> = Algebra(
    zero: T,
    xor: (T, T) -> T,
    step: T -> T,
    inject: bool -> T,
    low: T -> bool,
    half: T -> T)

  // Each law is a predicate of its own, so that proofs say where they use it.

  predicate Cancels<T(==)>(r: Algebra<T>, a: T, b: T) { r.xor(a, b) == r.zero <==> a == b }

  predicate Regroups<T(==)>(r: Algebra<T>, a: T, b: T, c: T, d: T) {
    r.xor(r.xor(a, b), r.xor(c, d)) == r.xor(r.xor(a, c), r.xor(b, d))
  }

  predicate StepsLinearly<T(==)>(r: Algebra<T>, a: T, b: T) {
    r.step(r.xor(a, b)) == r.xor(r.step(a), r.step(b))
  }

  predicate StepKeepsZero<T(==)>(r: Algebra<T>, a: T) { r.step(a) == r.zero <==> a == r.zero }

  /** A pending word can be split into its low bit, absorbed now, and the rest, absorbed later. */
  predicate Peels<T(==)>(r: Algebra<T>, c: T, w: T) {
    r.step(r.xor(c, w)) == r.xor(r.step(r.xor(c, r.inject(r.low(w)))), r.half(w))
  }

  ghost predicate XorLaws<T(!new)>(r: Algebra<T>) {
    && (forall a :: r.xor(a, r.zero) == a)
    && (forall a :: r.xor(r.zero, a) == a)
    && (forall a, b {:trigger Cancels(r, a, b)} :: Cancels(r, a, b))
    && (forall a, b, c, d {:trigger Regroups(r, a, b, c, d)} :: Regroups(r, a, b, c, d))
    && r.inject(false) == r.zero
    && (forall p, q :: r.xor(r.inject(p), r.inject(q)) == r.inject(p != q))
  }

  ghost predicate StepLaws<T(!new)>(r: Algebra<T>) {
    && (forall a, b {:trigger StepsLinearly(r, a, b)} :: StepsLinearly(r, a, b))
    && (forall a {:trigger StepKeepsZero(r, a)} :: StepKeepsZero(r, a))
    && (forall c, w {:trigger Peels(r, c, w)} :: Peels(r, c, w))
    && r.half(r.zero) == r.zero && !r.low(r.zero)
  }

  ghost predicate Lawful<T(!new)>(r: Algebra<T>) {
    XorLaws(r) && StepLaws(r)
  }

  function Feed<T>(r: Algebra<T>, c: T, bits: seq<bool>): T
    decreases bits
  {
    if bits == [] then c else Feed(r, r.step(r.xor(c, r.inject(bits[0]))), bits[1..])
  }

  function Steps<T>(r: Algebra<T>, c: T, n: nat): T
    decreases n
  {
    if n == 0 then c else Steps(r, r.step(c), n - 1)
  }

  lemma {:induction false} FeedAppend<T>(r: Algebra<T>, c: T, x: seq<bool>, y: seq<bool>)
    ensures Feed(r, c, x + y) == Feed(r, Feed(r, c, x), y)
    decreases x
  {
    if x == [] {
      assert x + y == y;
    } else {
      assert (x + y)[1..] == x[1..] + y;
      FeedAppend(r, r.step(r.xor(c, r.inject(x[0]))), x[1..], y);
    }
  }

  lemma {:induction false} StepsZero<T(!new)>(r: Algebra<T>, c: T, n: nat)
    requires Lawful(r)
    ensures Steps(r, c, n) == r.zero <==> c == r.zero
    decreases n
  {
    if n == 0 {
    } else {
      assert StepKeepsZero(r, c);
      StepsZero(r, r.step(c), n - 1);
    }
  }

  /** Word `w` holds the bits of `bits`, low bit first, and nothing else. */
  ghost predicate Spells<T>(r: Algebra<T>, w: T, bits: seq<bool>)
    decreases bits
  {
    if bits == [] then w == r.zero else r.low(w) == bits[0] && Spells(r, r.half(w), bits[1..])
  }

  /** Feeding a spelled word bit by bit is stepping the register that absorbed it at once. */
  lemma {:induction false} FeedIsSteps<T(!new)>(r: Algebra<T>, c: T, w: T, bits: seq<bool>)
    requires Lawful(r) && Spells(r, w, bits)
    ensures Feed(r, c, bits) == Steps(r, r.xor(c, w), |bits|)
    decreases bits
  {
    if bits == [] {
    } else {
      var c' := r.step(r.xor(c, r.inject(bits[0])));
      assert Peels(r, c, w);
      FeedIsSteps(r, c', r.half(w), bits[1..]);
    }
  }

  ghost predicate AllFalse(bits: seq<bool>) {
    forall k :: 0 <= k < |bits| ==> !bits[k]
  }

  lemma {:induction false} ZeroSpellsFalse<T(!new)>(r: Algebra<T>, bits: seq<bool>)
    requires Lawful(r) && Spells(r, r.zero, bits)
    ensures AllFalse(bits)
    decreases bits
  {
    if bits == [] {
    } else {
      ZeroSpellsFalse(r, bits[1..]);
      assert bits == [bits[0]] + bits[1..];
    }
  }

  // ---------- differences ----------

  function XorBits(x: seq<bool>, y: seq<bool>): (r: seq<bool>)
    requires |x| == |y|
    ensures |r| == |x|
    ensures forall k :: 0 <= k < |r| ==> r[k] == (x[k] != y[k])
  {
    seq(|x|, k requires 0 <= k < |x| => x[k] != y[k])
  }

  /** The difference of two registers is the register of the differences. */
  lemma {:induction false} FeedLinear<T(!new)>(r: Algebra<T>, c: T, d: T, x: seq<bool>, y: seq<bool>)
    requires Lawful(r) && |x| == |y|
    ensures r.xor(Feed(r, c, x), Feed(r, d, y)) == Feed(r, r.xor(c, d), XorBits(x, y))
    decreases x
  {
    if x == [] {
    } else {
      var p, q := r.inject(x[0]), r.inject(y[0]);
      var e := XorBits(x, y);
      assert e[1..] == XorBits(x[1..], y[1..]);
      FeedLinear(r, r.step(r.xor(c, p)), r.step(r.xor(d, q)), x[1..], y[1..]);
      assert StepsLinearly(r, r.xor(c, p), r.xor(d, q));
      assert Regroups(r, c, p, d, q);
      assert r.xor(p, q) == r.inject(e[0]);
    }
  }

  /** Feeding zeros to a difference neither creates nor destroys it. */
  lemma {:induction false} FeedZeros<T(!new)>(r: Algebra<T>, c: T, bits: seq<bool>)
    requires Lawful(r) && AllFalse(bits)
    ensures Feed(r, c, bits) == r.zero <==> c == r.zero
    decreases bits
  {
    if bits == [] {
    } else {
      assert r.xor(c, r.inject(bits[0])) == c;
      assert StepKeepsZero(r, c);
      FeedZeros(r, r.step(c), bits[1..]);
    }
  }

  /** A burst that some word spells leaves a trace unless it is empty. */
  lemma BurstLeavesTrace<T(!new)>(r: Algebra<T>, burst: seq<bool>, w: T)
    requires Lawful(r) && Spells(r, w, burst)
    ensures Feed(r, r.zero, burst) == r.zero <==> AllFalse(burst)
  {
    FeedIsSteps(r, r.zero, w, burst);
    StepsZero(r, w, |burst|);
    if w == r.zero { ZeroSpellsFalse(r, burst); }
    if AllFalse(burst) { FeedZeros(r, r.zero, burst); }
  }

  /** `x` and `y` agree outside the `width` bits from `start`. */
  ghost predicate DifferWithin(x: seq<bool>, y: seq<bool>, start: nat, width: nat) {
    |x| == |y| && forall k :: 0 <= k < |x| && !(start <= k < start + width) ==> x[k] == y[k]
  }

  function Min(a: nat, b: nat): nat { if a <= b then a else b }

  /** The part of the difference inside the window. */
  function Burst(x: seq<bool>, y: seq<bool>, start: nat, width: nat): (b: seq<bool>)
    requires |x| == |y|
    ensures |b| <= width
  {
    XorBits(x, y)[Min(start, |x|)..Min(start + width, |x|)]
  }

  lemma BurstIsWholeDifference(x: seq<bool>, y: seq<bool>, start: nat, width: nat)
    requires DifferWithin(x, y, start, width)
    ensures AllFalse(Burst(x, y, start, width)) <==> x == y
  {
    var b := Burst(x, y, start, width);
    var lo := Min(start, |x|);
    if AllFalse(b) {
      forall k | 0 <= k < |x|
        ensures x[k] == y[k]
      {
        if lo <= k < lo + |b| { assert !b[k - lo]; }
      }
    }
  }

  lemma DifferenceParts(x: seq<bool>, y: seq<bool>, start: nat, width: nat)
    returns (before: seq<bool>, after: seq<bool>)
    requires DifferWithin(x, y, start, width)
    ensures AllFalse(before) && AllFalse(after)
    ensures XorBits(x, y) == before + (Burst(x, y, start, width) + after)
  {
    var e := XorBits(x, y);
    before, after := e[..Min(start, |x|)], e[Min(start + width, |x|)..];
  }

  lemma Surrounded<T(!new)>(r: Algebra<T>, before: seq<bool>, b: seq<bool>, after: seq<bool>)
    requires Lawful(r) && AllFalse(before) && AllFalse(after)
    ensures Feed(r, r.zero, before + (b + after)) == r.zero <==> Feed(r, r.zero, b) == r.zero
  {
    FeedAppend(r, r.zero, before, b + after);
    FeedZeros(r, r.zero, before);
    FeedAppend(r, r.zero, b, after);
    FeedZeros(r, Feed(r, r.zero, b), after);
  }

  /**
   * Burst detection: messages that differ only inside a window whose difference is spelled by one
   * word reach the same register exactly when they are equal.
   */
  lemma BurstDetected<T(!new)>(r: Algebra<T>, c: T, x: seq<bool>, y: seq<bool>, start: nat, width: nat, w: T)
    requires Lawful(r) && DifferWithin(x, y, start, width)
    requires Spells(r, w, Burst(x, y, start, width))
    ensures Feed(r, c, x) == Feed(r, c, y) <==> x == y
  {
    var before, after := DifferenceParts(x, y, start, width);
    var b := Burst(x, y, start, width);
    FeedLinear(r, c, c, x, y);
    assert Cancels(r, c, c);
    Surrounded(r, before, b, after);
    BurstLeavesTrace(r, b, w);
    BurstIsWholeDifference(x, y, start, width);
    assert Cancels(r, Feed(r, c, x), Feed(r, c, y));
  }

  // ---------- polynomial division ----------

  /** Words as polynomials of degree below `width`, highest power in the top bit. */
  datatype Divider<!T> = Divider(
    zero: T,
    xor: (T, T) -> T,
    inject: bool -> T,
    double: T -> T,
    top: T -> bool,
    generator: T,
    width: nat)

  function Reduced<T>(d: Divider<T>, w: T, carry: bool): T {
    if carry then d.xor(w, d.generator) else w
  }

  /** Long division, one dividend bit at a time: bring the bit down, subtract if the divisor fits. */
  function DivideStep<T>(d: Divider<T>, remainder: T, bit: bool): T {
    Reduced(d, d.xor(d.double(remainder), d.inject(bit)), d.top(remainder))
  }

  /** The remainder of the polynomial with the given coefficients, highest power first. */
  function Remainder<T>(d: Divider<T>, start: T, bits: seq<bool>): T
    decreases bits
  {
    if bits == [] then start else Remainder(d, DivideStep(d, start, bits[0]), bits[1..])
  }

  /** The register form: the message bit meets the top bit before the shift. */
  function RegisterStep<T>(d: Divider<T>, register: T, bit: bool): T {
    Reduced(d, d.double(register), d.top(register) != bit)
  }

  function RegisterAll<T>(d: Divider<T>, register: T, bits: seq<bool>): T
    decreases bits
  {
    if bits == [] then register else RegisterAll(d, RegisterStep(d, register, bits[0]), bits[1..])
  }

  /** The word shifted in from `w`, with nothing subtracted. */
  function ShiftIn<T>(d: Divider<T>, w: T, bits: seq<bool>): T
    decreases bits
  {
    if bits == [] then w else ShiftIn(d, d.xor(d.double(w), d.inject(bits[0])), bits[1..])
  }

  function Doubled<T>(d: Divider<T>, w: T, n: nat): T
    decreases n
  {
    if n == 0 then w else Doubled(d, d.double(w), n - 1)
  }

  predicate Associates<T(==)>(d: Divider<T>, a: T, b: T, c: T) {
    d.xor(d.xor(a, b), c) == d.xor(a, d.xor(b, c))
  }

  predicate Commutes<T(==)>(d: Divider<T>, a: T, b: T) { d.xor(a, b) == d.xor(b, a) }

  predicate Additive<T(==)>(d: Divider<T>, a: T, b: T) {
    && d.double(d.xor(a, b)) == d.xor(d.double(a), d.double(b))
    && d.top(d.xor(a, b)) == (d.top(a) != d.top(b))
  }

  /** A bit shifted in reaches the top after `width - 1` doublings, not before, and is then lost. */
  predicate Travels<T(==)>(d: Divider<T>, b: bool, k: nat) {
    k < d.width ==> d.top(Doubled(d, d.inject(b), k)) == (b && k == d.width - 1)
  }

  predicate Vanishes<T(==)>(d: Divider<T>, w: T) { Doubled(d, w, d.width) == d.zero }

  ghost predicate AdditionLaws<T(!new)>(d: Divider<T>) {
    && (forall a :: d.xor(a, d.zero) == a)
    && (forall a :: d.xor(d.zero, a) == a)
    && (forall a, b, c {:trigger Associates(d, a, b, c)} :: Associates(d, a, b, c))
    && (forall a, b {:trigger Commutes(d, a, b)} :: Commutes(d, a, b))
    && (forall a, b {:trigger Additive(d, a, b)} :: Additive(d, a, b))
    && (forall p, q :: d.xor(d.inject(p), d.inject(q)) == d.inject(p != q))
    && d.double(d.zero) == d.zero && !d.top(d.zero) && d.inject(false) == d.zero
  }

  ghost predicate WidthLaws<T(!new)>(d: Divider<T>) {
    && d.width > 0
    && (forall w {:trigger Vanishes(d, w)} :: Vanishes(d, w))
    && (forall b, k: nat {:trigger Travels(d, b, k)} :: Travels(d, b, k))
  }

  ghost predicate DividerLaws<T(!new)>(d: Divider<T>) {
    AdditionLaws(d) && WidthLaws(d)
  }

  lemma {:induction false} DoubledXor<T(!new)>(d: Divider<T>, a: T, b: T, n: nat)
    requires DividerLaws(d)
    ensures Doubled(d, d.xor(a, b), n) == d.xor(Doubled(d, a, n), Doubled(d, b, n))
    decreases n
  {
    if n == 0 {
    } else {
      assert Additive(d, a, b);
      DoubledXor(d, d.double(a), d.double(b), n - 1);
    }
  }

  lemma {:induction false} ShiftInSplits<T(!new)>(d: Divider<T>, w: T, bits: seq<bool>)
    requires DividerLaws(d)
    ensures ShiftIn(d, w, bits) == d.xor(Doubled(d, w, |bits|), ShiftIn(d, d.zero, bits))
    decreases bits
  {
    if bits == [] {
    } else {
      var n := |bits| - 1;
      var b := d.inject(bits[0]);
      ShiftInSplits(d, d.xor(d.double(w), b), bits[1..]);
      ShiftInSplits(d, d.xor(d.double(d.zero), b), bits[1..]);
      DoubledXor(d, d.double(w), b, n);
      var dw, db, s := Doubled(d, d.double(w), n), Doubled(d, b, n), ShiftIn(d, d.zero, bits[1..]);
      assert d.xor(d.double(d.zero), b) == b;
      assert Associates(d, dw, db, s);
    }
  }

  /** While fewer than `width` bits are in, the top bit is clear; then it is the first one. */
  lemma {:induction false} WindowTop<T(!new)>(d: Divider<T>, bits: seq<bool>)
    requires DividerLaws(d) && |bits| <= d.width
    ensures d.top(ShiftIn(d, d.zero, bits)) == (|bits| == d.width && bits[0])
    decreases bits
  {
    if bits == [] {
    } else {
      var b := d.inject(bits[0]);
      assert d.xor(d.double(d.zero), b) == b;
      var rest := bits[1..];
      ShiftInSplits(d, b, rest);
      WindowTop(d, rest);
      assert Travels(d, bits[0], |rest|);
      assert Additive(d, Doubled(d, b, |rest|), ShiftIn(d, d.zero, rest));
    }
  }

  lemma {:induction false} ShiftInAppend<T>(d: Divider<T>, w: T, x: seq<bool>, y: seq<bool>)
    ensures ShiftIn(d, w, x + y) == ShiftIn(d, ShiftIn(d, w, x), y)
    decreases x
  {
    if x == [] {
      assert x + y == y;
    } else {
      assert (x + y)[1..] == x[1..] + y;
      ShiftInAppend(d, d.xor(d.double(w), d.inject(x[0])), x[1..], y);
    }
  }

  lemma OneBit<T>(d: Divider<T>, w: T, bits: seq<bool>)
    requires |bits| == 1
    ensures ShiftIn(d, w, bits) == d.xor(d.double(w), d.inject(bits[0]))
  {
    assert bits[1..] == [];
  }

  /** Sliding the window by one bit. */
  lemma WindowSlides<T(!new)>(d: Divider<T>, z: seq<bool>)
    requires DividerLaws(d) && |z| == d.width + 1
    ensures ShiftIn(d, d.zero, z[1..]) ==
      d.xor(d.double(ShiftIn(d, d.zero, z[..d.width])), d.inject(z[d.width]))
  {
    var n := d.width;
    assert z[..n] + z[n..] == z;
    ShiftInAppend(d, d.zero, z[..n], z[n..]);
    var w := ShiftIn(d, d.zero, z[..n]);
    OneBit(d, w, z[n..]);
    var b := d.inject(z[0]);
    assert d.xor(d.double(d.zero), b) == b;
    assert ShiftIn(d, d.zero, z) == ShiftIn(d, b, z[1..]);
    ShiftInSplits(d, b, z[1..]);
    assert Vanishes(d, b);
  }

  lemma Rearrange<T(!new)>(d: Divider<T>, p: T, q: T, b: T, g: T)
    requires DividerLaws(d)
    ensures d.xor(d.xor(p, q), b) == d.xor(p, d.xor(q, b))
    ensures d.xor(d.xor(d.xor(p, q), b), g) == d.xor(d.xor(p, g), d.xor(q, b))
  {
    var r := d.xor(q, b);
    assert Associates(d, p, q, b);
    assert Associates(d, p, r, g);
    assert Commutes(d, r, g);
    assert Associates(d, p, g, r);
  }

  /** One division step of a register combined with its window is one register step. */
  lemma StepAgrees<T(!new)>(d: Divider<T>, m: T, z: seq<bool>)
    requires DividerLaws(d) && |z| == d.width + 1
    ensures DivideStep(d, d.xor(m, ShiftIn(d, d.zero, z[..d.width])), z[d.width]) ==
      d.xor(RegisterStep(d, m, z[0]), ShiftIn(d, d.zero, z[1..]))
  {
    var w := ShiftIn(d, d.zero, z[..d.width]);
    WindowSlides(d, z);
    WindowTop(d, z[..d.width]);
    var carry := d.top(m) != z[0];
    assert Additive(d, m, w);
    var dm, dw, b, g := d.double(m), d.double(w), d.inject(z[d.width]), d.generator;
    Rearrange(d, dm, dw, b, g);
  }

  /**
   * Dividing a dividend whose first `width` bits were combined with `m` ends where the register
   * started at `m` ends after all but the last `width` bits, combined with those.
   */
  lemma {:induction false} DivisionIsRegister<T(!new)>(d: Divider<T>, m: T, z: seq<bool>)
    requires DividerLaws(d) && |z| >= d.width
    ensures Remainder(d, d.xor(m, ShiftIn(d, d.zero, z[..d.width])), z[d.width..]) ==
      d.xor(RegisterAll(d, m, z[..|z| - d.width]), ShiftIn(d, d.zero, z[|z| - d.width..]))
    decreases z
  {
    var n := d.width;
    if |z| > n {
      StepAgrees(d, m, z[..n + 1]);
      assert z[..n + 1][..n] == z[..n] && z[..n + 1][1..] == z[1..][..n];
      var m' := RegisterStep(d, m, z[0]);
      DivisionIsRegister(d, m', z[1..]);
      assert z[n..][1..] == z[1..][n..];
      assert z[..|z| - n][1..] == z[1..][..|z| - 1 - n];
      assert z[1..][|z| - 1 - n..] == z[|z| - n..];
    } else {
      assert z[..n] == z && z[n..] == [] && z[..|z| - n] == [] && z[|z| - n..] == z;
    }
  }

  /** Until `width` bits are in, division only shifts. */
  lemma {:induction false} ShortDivision<T(!new)>(d: Divider<T>, seen: seq<bool>, bits: seq<bool>)
    requires DividerLaws(d) && |seen| + |bits| <= d.width
    ensures Remainder(d, ShiftIn(d, d.zero, seen), bits) == ShiftIn(d, d.zero, seen + bits)
    decreases bits
  {
    if bits == [] {
      assert seen + bits == seen;
    } else {
      WindowTop(d, seen);
      var next := seen + [bits[0]];
      ShiftInAppend(d, d.zero, seen, [bits[0]]);
      OneBit(d, ShiftIn(d, d.zero, seen), [bits[0]]);
      ShortDivision(d, next, bits[1..]);
      assert next + bits[1..] == seen + bits;
    }
  }

  lemma {:induction false} RemainderAppend<T>(d: Divider<T>, w: T, x: seq<bool>, y: seq<bool>)
    ensures Remainder(d, w, x + y) == Remainder(d, Remainder(d, w, x), y)
    decreases x
  {
    if x == [] {
      assert x + y == y;
    } else {
      assert (x + y)[1..] == x[1..] + y;
      RemainderAppend(d, DivideStep(d, w, x[0]), x[1..], y);
    }
  }

  lemma Interleave<T(!new)>(d: Divider<T>, a: T, b: T, p: T, q: T)
    requires DividerLaws(d)
    ensures d.xor(d.xor(a, b), d.xor(p, q)) == d.xor(d.xor(a, p), d.xor(b, q))
  {
    Rearrange(d, a, b, q, p);
    assert Commutes(d, p, q);
    assert Associates(d, d.xor(a, b), q, p);
  }

  lemma {:induction false} ShiftInXor<T(!new)>(d: Divider<T>, v: T, w: T, x: seq<bool>, y: seq<bool>)
    requires DividerLaws(d) && |x| == |y|
    ensures ShiftIn(d, d.xor(v, w), XorBits(x, y)) == d.xor(ShiftIn(d, v, x), ShiftIn(d, w, y))
    decreases x
  {
    if x == [] {
    } else {
      var e := XorBits(x, y);
      assert e[1..] == XorBits(x[1..], y[1..]);
      var p, q := d.inject(x[0]), d.inject(y[0]);
      assert Additive(d, v, w);
      assert d.xor(p, q) == d.inject(e[0]);
      Interleave(d, d.double(v), d.double(w), p, q);
      ShiftInXor(d, d.xor(d.double(v), p), d.xor(d.double(w), q), x[1..], y[1..]);
    }
  }

  lemma {:induction false} ShiftInZeros<T(!new)>(d: Divider<T>, bits: seq<bool>)
    requires DividerLaws(d) && AllFalse(bits)
    ensures ShiftIn(d, d.zero, bits) == d.zero
    decreases bits
  {
    if bits == [] {
    } else {
      ShiftInZeros(d, bits[1..]);
    }
  }

  function Repeat(bit: bool, n: nat): (r: seq<bool>)
    ensures |r| == n && forall k :: 0 <= k < n ==> r[k] == bit
  {
    seq(n, _ => bit)
  }

  /** The message with `width` zeros appended and its first `width` bits complemented. */
  function Dividend(message: seq<bool>, width: nat): (z: seq<bool>)
    ensures |z| == |message| + width
  {
    var padded := message + Repeat(false, width);
    XorBits(padded, Repeat(true, width) + Repeat(false, |message|))
  }

  /**
   * A register preset to all ones and fed the message ends at the remainder of the dividend: the
   * preset is the complement of the first bits, the absent zeros are the multiplication.
   */
  lemma RegisterIsRemainder<T(!new)>(d: Divider<T>, message: seq<bool>)
    requires DividerLaws(d)
    ensures RegisterAll(d, ShiftIn(d, d.zero, Repeat(true, d.width)), message) ==
      Remainder(d, d.zero, Dividend(message, d.width))
  {
    var n := d.width;
    var padded, ones := message + Repeat(false, n), Repeat(true, n);
    var z := Dividend(message, n);
    var m, w := ShiftIn(d, d.zero, ones), ShiftIn(d, d.zero, padded[..n]);
    assert z[..n] == XorBits(padded[..n], ones);
    assert z[n..] == padded[n..];
    assert z == z[..n] + z[n..];
    RemainderAppend(d, d.zero, z[..n], z[n..]);
    ShortDivision(d, [], z[..n]);
    assert [] + z[..n] == z[..n];
    ShiftInXor(d, d.zero, d.zero, padded[..n], ones);
    assert Commutes(d, w, m);
    DivisionIsRegister(d, m, padded);
    assert padded[..|padded| - n] == message;
    assert padded[|padded| - n..] == Repeat(false, n);
    ShiftInZeros(d, Repeat(false, n));
  }
}
