/** Bitwise operations on natural numbers, by halves. */
module Bits {

  /** Bitwise exclusive or. */
  function Xor(a: nat, b: nat): nat
    decreases a + b
  {
    if a == 0 && b == 0 then 0 else (a % 2 + b % 2) % 2 + 2 * Xor(a / 2, b / 2)
  }

  /** `a >> k`. */
  function Shr(a: nat, k: nat): nat {
    if k == 0 then a else Shr(a / 2, k - 1)
  }

  function Pow2(k: nat): (p: nat)
    ensures p > 0
  {
    if k == 0 then 1 else 2 * Pow2(k - 1)
  }

  lemma {:induction false} XorZero(a: nat)
    ensures Xor(a, 0) == a && Xor(0, a) == a
  {
    if a == 0 {
    } else {
      XorZero(a / 2);
    }
  }

  lemma {:induction false} XorSelf(a: nat)
    ensures Xor(a, a) == 0
  {
    if a == 0 {
    } else {
      XorSelf(a / 2);
    }
  }

  lemma Halves(low: nat, high: nat)
    requires low < 2
    ensures (low + 2 * high) % 2 == low && (low + 2 * high) / 2 == high
  {
  }

  lemma XorHalves(a: nat, b: nat)
    ensures Xor(a, b) % 2 == (a % 2 + b % 2) % 2
    ensures Xor(a, b) / 2 == Xor(a / 2, b / 2)
    ensures Xor(a, b) == 2 * (Xor(a, b) / 2) + Xor(a, b) % 2
  {
    if a != 0 || b != 0 { Halves((a % 2 + b % 2) % 2, Xor(a / 2, b / 2)); }
  }

  lemma XorOf(a: nat, b: nat) returns (p: nat, q: nat)
    ensures p == Xor(a, b) && q == Xor(a / 2, b / 2)
    ensures p / 2 == q && p % 2 == (a % 2 + b % 2) % 2
  {
    XorHalves(a, b);
    p, q := Xor(a, b), Xor(a / 2, b / 2);
  }

  /** The halves of `Xor(Xor(a, b), c)`, with the inner value and its half abstracted. */
  lemma NestedHalves(a: nat, b: nat, c: nat) returns (p: nat, q: nat)
    ensures p == Xor(a, b) && q == Xor(a / 2, b / 2)
    ensures Xor(p, c) / 2 == Xor(q, c / 2)
    ensures Xor(p, c) % 2 == ((a % 2 + b % 2) % 2 + c % 2) % 2
    ensures Xor(c, p) / 2 == Xor(c / 2, q)
    ensures Xor(c, p) % 2 == (c % 2 + (a % 2 + b % 2) % 2) % 2
  {
    p, q := XorOf(a, b);
    XorHalves(p, c);
    XorHalves(c, p);
  }

  lemma SameHalves(x: nat, y: nat)
    requires x / 2 == y / 2 && x % 2 == y % 2
    ensures x == y
  {
  }

  lemma BitAssociative(x: int, y: int, z: int)
    requires 0 <= x < 2 && 0 <= y < 2 && 0 <= z < 2
    ensures ((x + y) % 2 + z) % 2 == (x + (y + z) % 2) % 2
  {
  }

  lemma {:induction false} XorAssociative(a: nat, b: nat, c: nat)
    ensures Xor(Xor(a, b), c) == Xor(a, Xor(b, c))
    decreases a + b + c
  {
    hide Xor;
    if a + b + c == 0 {
      XorZero(0);
    } else {
      XorAssociative(a / 2, b / 2, c / 2);
      var p, q := NestedHalves(a, b, c);
      var r, t := NestedHalves(b, c, a);
      BitAssociative(a % 2, b % 2, c % 2);
      SameHalves(Xor(p, c), Xor(a, r));
    }
  }

  lemma {:induction false} XorBound(a: nat, b: nat, k: nat)
    requires a < Pow2(k) && b < Pow2(k)
    ensures Xor(a, b) < Pow2(k)
  {
    if k == 0 {
    } else {
      XorBound(a / 2, b / 2, k - 1);
    }
  }

  lemma {:induction false} ShrXor(a: nat, b: nat, k: nat)
    ensures Shr(Xor(a, b), k) == Xor(Shr(a, k), Shr(b, k))
    decreases k
  {
    if k == 0 {
    } else {
      assert Xor(a, b) / 2 == Xor(a / 2, b / 2);
      ShrXor(a / 2, b / 2, k - 1);
    }
  }

  lemma {:induction false} ShrShr(a: nat, j: nat, k: nat)
    ensures Shr(Shr(a, j), k) == Shr(a, j + k)
    decreases j
  {
    if j == 0 {
    } else {
      ShrShr(a / 2, j - 1, k);
    }
  }

  /** Bit `j`, counted from the least significant. */
  function Bit(a: nat, j: nat): nat {
    (a / Pow2(j)) % 2
  }

  lemma MulAtLeast(a: nat, b: nat)
    requires b > 0
    ensures a * b >= a
  {
  }

  lemma MulStep(d: nat, p: nat, q: nat)
    requires p < q
    ensures d * q >= d * p + d
  {
    assert d * q == d * p + d * (q - p);
    MulAtLeast(d, q - p);
  }

  lemma QuotientUnique(x: nat, d: nat, q: nat, r: nat)
    requires r < d && x == d * q + r
    ensures x / d == q
  {
    var q', r' := x / d, x % d;
    assert x == d * q' + r';
    if q' < q {
      MulStep(d, q', q);
    } else if q < q' {
      MulStep(d, q, q');
    }
  }

  lemma HalfOfQuotient(a: nat, p: nat)
    requires 0 < p
    ensures (a / 2) / p == a / (2 * p)
  {
    var q, r := (a / 2) / p, (a / 2) % p;
    assert a / 2 == p * q + r;
    assert a == 2 * p * q + (2 * r + a % 2);
    QuotientUnique(a, 2 * p, q, 2 * r + a % 2);
  }

  lemma {:induction false} ShrIsQuotient(a: nat, k: nat)
    ensures Shr(a, k) == a / Pow2(k)
    decreases k
  {
    if k == 0 {
    } else {
      ShrIsQuotient(a / 2, k - 1);
      HalfOfQuotient(a, Pow2(k - 1));
    }
  }

  lemma XorBit(a: nat, b: nat, j: nat)
    ensures Bit(Xor(a, b), j) == (Bit(a, j) + Bit(b, j)) % 2
  {
    ShrXor(a, b, j);
    ShrIsQuotient(Xor(a, b), j);
    ShrIsQuotient(a, j);
    ShrIsQuotient(b, j);
    XorHalves(Shr(a, j), Shr(b, j));
  }

  lemma ShrBit(a: nat, k: nat, j: nat)
    ensures Bit(Shr(a, k), j) == Bit(a, k + j)
  {
    ShrShr(a, k, j);
    ShrIsQuotient(Shr(a, k), j);
    ShrIsQuotient(a, k + j);
  }

  lemma BitOfHalf(a: nat, j: nat)
    ensures Bit(a / 2, j) == Bit(a, j + 1)
  {
    HalfOfQuotient(a, Pow2(j));
  }

  /** A number below `2^k` is its `k` low bits. */
  lemma {:induction false} SameBitsEqual(a: nat, b: nat, k: nat)
    requires a < Pow2(k) && b < Pow2(k)
    requires forall j :: 0 <= j < k ==> Bit(a, j) == Bit(b, j)
    ensures a == b
    decreases k
  {
    if k == 0 {
    } else {
      assert Bit(a, 0) == Bit(b, 0);
      forall j | 0 <= j < k - 1
        ensures Bit(a / 2, j) == Bit(b / 2, j)
      {
        BitOfHalf(a, j);
        BitOfHalf(b, j);
        assert Bit(a, j + 1) == Bit(b, j + 1);
      }
      SameBitsEqual(a / 2, b / 2, k - 1);
    }
  }

  lemma {:induction false} Pow2Below(j: nat, k: nat)
    requires j < k
    ensures Pow2(j) < Pow2(k)
    decreases k
  {
    if j == k - 1 {
    } else {
      Pow2Below(j, k - 1);
    }
  }

  lemma LowestBit(a: nat)
    ensures Bit(a, 0) == a % 2
  {
    assert Pow2(0) == 1;
  }

  lemma PowerIsEven(k: nat)
    requires 0 < k
    ensures Pow2(k) % 2 == 0
  {
  }

  lemma NoBitAbove(j: nat)
    requires 0 < j
    ensures Bit(1, j) == 0
  {
    Pow2Below(0, j);
    QuotientUnique(1, Pow2(j), 0, 1);
  }

  lemma EdgeBit(k: nat, j: nat)
    requires j == 0 || k == 0
    ensures Bit(Pow2(k), j) == if j == k then 1 else 0
  {
    hide Bit;
    LowestBit(Pow2(k));
    if k > 0 {
      PowerIsEven(k);
    } else if j > 0 {
      NoBitAbove(j);
    }
  }

  lemma {:induction false} PowerBit(k: nat, j: nat)
    ensures Bit(Pow2(k), j) == if j == k then 1 else 0
    decreases k
  {
    hide Bit;
    if j == 0 || k == 0 {
      EdgeBit(k, j);
    } else {
      BitOfHalf(Pow2(k), j - 1);
      PowerBit(k - 1, j - 1);
    }
  }

  lemma {:induction false} ShrBound(a: nat, k: nat)
    ensures Shr(a, k) <= a
    ensures a < Pow2(k) ==> Shr(a, k) == 0
    decreases k
  {
    if k == 0 {
    } else {
      ShrBound(a / 2, k - 1);
    }
  }

  lemma {:induction false} Pow2Add(j: nat, k: nat)
    ensures Pow2(j + k) == Pow2(j) * Pow2(k)
  {
    if j == 0 {
    } else {
      Pow2Add(j - 1, k);
    }
  }

  lemma {:induction false} XorCommutative(a: nat, b: nat)
    ensures Xor(a, b) == Xor(b, a)
    decreases a + b
  {
    if a + b == 0 {
    } else {
      XorCommutative(a / 2, b / 2);
    }
  }

  lemma XorCancel(a: nat, b: nat)
    ensures Xor(Xor(a, b), b) == a
    ensures Xor(a, b) == Xor(b, a)
  {
    XorAssociative(a, b, b);
    XorSelf(b);
    XorZero(a);
    XorCommutative(a, b);
  }

  lemma XorOfBits(p: nat, q: nat)
    requires p < 2 && q < 2
    ensures Xor(p, q) == (p + q) % 2
  {
  }

  lemma {:induction false} XorEqual(a: nat, b: nat)
    ensures Xor(a, b) == 0 <==> a == b
    decreases a + b
  {
    if a + b == 0 {
    } else {
      XorHalves(a, b);
      XorEqual(a / 2, b / 2);
    }
  }

  /** The number with high part `p` above the `m` low bits of `u`. */
  function Join(p: nat, m: nat, u: nat): nat {
    p * Pow2(m) + u
  }

  lemma JoinHalves(p: nat, m: nat, u: nat)
    requires m > 0
    ensures Join(p, m, u) / 2 == Join(p, m - 1, u / 2)
    ensures Join(p, m, u) % 2 == u % 2
  {
    assert p * Pow2(m) == 2 * (p * Pow2(m - 1));
  }

  /** Exclusive or acts on high and low parts separately. */
  lemma {:induction false} XorJoin(p: nat, u: nat, q: nat, v: nat, m: nat)
    requires u < Pow2(m) && v < Pow2(m)
    ensures Xor(Join(p, m, u), Join(q, m, v)) == Join(Xor(p, q), m, Xor(u, v))
    decreases m
  {
    if m == 0 {
      XorZero(0);
    } else {
      XorJoin(p, u / 2, q, v / 2, m - 1);
      JoinHalves(p, m, u);
      JoinHalves(q, m, v);
      var ab, _ := XorOf(Join(p, m, u), Join(q, m, v));
      var uv, _ := XorOf(u, v);
      JoinHalves(Xor(p, q), m, uv);
      SameHalves(ab, Join(Xor(p, q), m, uv));
    }
  }

  lemma Pow2Values()
    ensures Pow2(8) == 0x100 && Pow2(16) == 0x1_0000 && Pow2(31) == 0x8000_0000 && Pow2(32) == 0x1_0000_0000
  {
    assert Pow2(4) == 16;
    Pow2Add(4, 4);
    Pow2Add(8, 8);
    Pow2Add(16, 16);
    assert Pow2(32) == 2 * Pow2(31);
  }
}
