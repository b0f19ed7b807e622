/** Bitwise operations on natural numbers, defined one bit at a time, and the
    facts that turn the kernel's masks and shifts into division and remainder. */
module Bits {

  const U64_SIZE: nat := 0x1_0000_0000_0000_0000

  /** A value of the C type `uint64_t`. */
  type U64 = n: nat | n < U64_SIZE

  function Pow2(k: nat): (p: nat)
    ensures p > 0
  {
    if k == 0 then 1 else 2 * Pow2(k - 1)
  }

  /** `a >> k` */
  function Shr(a: nat, k: nat): nat {
    if k == 0 then a else Shr(a / 2, k - 1)
  }

  /** The `k` low bits of `a`. */
  function Low(a: nat, k: nat): nat {
    if k == 0 then 0 else a % 2 + 2 * Low(a / 2, k - 1)
  }

  /** `a & b` */
  function And(a: nat, b: nat): nat
    decreases a
  {
    if a == 0 || b == 0 then 0
    else (if a % 2 == 1 && b % 2 == 1 then 1 else 0) + 2 * And(a / 2, b / 2)
  }

  /** `a | b` */
  function Or(a: nat, b: nat): nat
    decreases a
  {
    if a == 0 then b
    else (if a % 2 == 1 || b % 2 == 1 then 1 else 0) + 2 * Or(a / 2, b / 2)
  }

  /** `~a` on 64 bits */
  function Not(a: U64): U64 {
    U64_SIZE - 1 - a
  }

  lemma AndBit(a: nat, b: nat)
    ensures And(a, b) % 2 == (if a % 2 == 1 && b % 2 == 1 then 1 else 0)
    ensures And(a, b) / 2 == And(a / 2, b / 2)
  {}

  lemma OrBit(a: nat, b: nat)
    ensures Or(a, b) % 2 == (if a % 2 == 1 || b % 2 == 1 then 1 else 0)
    ensures Or(a, b) / 2 == Or(a / 2, b / 2)
  {}

  lemma ShrBit(a: nat, b: nat, k: nat)
    requires k > 0
    ensures Shr(Or(a, b), k) == Shr(Or(a, b) / 2, k - 1) && Shr(a, k) == Shr(a / 2, k - 1) && Shr(b, k) == Shr(b / 2, k - 1)
  {
    hide Or;
  }

  lemma {:induction false} OrZero(a: nat)
    ensures Or(a, 0) == a
  {
    if a > 0 {
      OrZero(a / 2);
    }
  }

  lemma Doubled(a: nat, p: nat, h: nat, l: nat)
    requires a / 2 == p * h + l
    ensures a == (2 * p) * h + (a % 2 + 2 * l)
  {
    var x := p * h;
    assert (2 * p) * h == 2 * x;
  }

  /** A number is its high part and its low part put side by side. */
  lemma {:induction false} ShrLow(a: nat, k: nat)
    ensures a == Pow2(k) * Shr(a, k) + Low(a, k)
    ensures Low(a, k) < Pow2(k)
    decreases k
  {
    if k > 0 {
      ShrLow(a / 2, k - 1);
      Doubled(a, Pow2(k - 1), Shr(a, k), Low(a / 2, k - 1));
    }
  }

  lemma MulMono(d: nat, x: nat, y: nat)
    requires x <= y
    ensures d * x <= d * y
  {}

  /** Euclidean quotient and remainder are unique. */
  lemma QuotientIs(a: nat, d: nat, q: nat, r: nat)
    requires d > 0 && r < d && a == d * q + r
    ensures a / d == q && a % d == r
  {
    var q', r' := a / d, a % d;
    assert a == d * q' + r';
    if q < q' {
      MulMono(d, q + 1, q');
    } else if q' < q {
      MulMono(d, q' + 1, q);
    }
  }

  /** Shifting right is division, the low bits are the remainder. */
  lemma ShiftIsDivision(a: nat, k: nat, d: nat)
    requires d == Pow2(k)
    ensures d > 0 && Shr(a, k) == a / d && Low(a, k) == a % d
  {
    ShrLow(a, k);
    QuotientIs(a, d, Shr(a, k), Low(a, k));
  }

  lemma LowBit(a: nat, k: nat)
    requires k > 0
    ensures Low(a, k) == a % 2 + 2 * Low(a / 2, k - 1)
    ensures Low(a, k) % 2 == a % 2 && Low(a, k) / 2 == Low(a / 2, k - 1)
  {}

  /** Conjunction works separately above and below any bit position. */
  lemma AndSplit(a: nat, b: nat, k: nat)
    ensures Shr(And(a, b), k) == And(Shr(a, k), Shr(b, k))
    ensures Low(And(a, b), k) == And(Low(a, k), Low(b, k))
  {
    AndHigh(a, b, k);
    AndLow(a, b, k);
  }

  lemma {:induction false} AndHigh(a: nat, b: nat, k: nat)
    ensures Shr(And(a, b), k) == And(Shr(a, k), Shr(b, k))
    decreases k
  {
    if k > 0 {
      AndBit(a, b);
      AndHigh(a / 2, b / 2, k - 1);
    }
  }

  lemma {:induction false} AndLow(a: nat, b: nat, k: nat)
    ensures Low(And(a, b), k) == And(Low(a, k), Low(b, k))
    decreases k
  {
    if k > 0 {
      AndBit(a, b);
      AndBit(Low(a, k), Low(b, k));
      LowBit(a, k);
      LowBit(b, k);
      LowBit(And(a, b), k);
      hide And, Low;
      AndLow(a / 2, b / 2, k - 1);
    }
  }

  /** Disjunction works separately above and below any bit position. */
  lemma {:induction false} OrSplit(a: nat, b: nat, k: nat)
    ensures Shr(Or(a, b), k) == Or(Shr(a, k), Shr(b, k))
    ensures Low(Or(a, b), k) == Or(Low(a, k), Low(b, k))
    decreases k
  {
    if k > 0 {
      OrBit(a, b);
      OrBit(Low(a, k), Low(b, k));
      LowBit(a, k);
      LowBit(b, k);
      LowBit(Or(a, b), k);
      ShrBit(a, b, k);
      hide Or, Low, Shr;
      OrSplit(a / 2, b / 2, k - 1);
    }
  }

  /** A mask of `k` low ones keeps the `k` low bits. */
  lemma {:induction false} AndLowOnes(a: nat, k: nat)
    ensures And(a, Pow2(k) - 1) == Low(a, k)
    decreases k
  {
    if k > 0 {
      AndLowOnes(a / 2, k - 1);
      AndBit(a, Pow2(k) - 1);
    }
  }

  /** A mask of `m` ones above `k` zeros keeps exactly that field, in place. */
  lemma AndField(a: nat, mask: nat, k: nat, m: nat)
    requires mask == (Pow2(m) - 1) * Pow2(k)
    ensures And(a, mask) == Pow2(k) * Low(Shr(a, k), m)
  {
    var p := Pow2(k);
    assert mask == p * (Pow2(m) - 1) + 0;
    QuotientIs(mask, p, Pow2(m) - 1, 0);
    ShiftIsDivision(mask, k, p);
    AndSplit(a, mask, k);
    AndLowOnes(Shr(a, k), m);
    AndZero(Low(a, k));
    ShrLow(And(a, mask), k);
  }

  lemma AndZero(a: nat)
    ensures And(a, 0) == 0
  {}

  /** Disjunction of numbers below `2^k` stays below `2^k`. */
  lemma {:induction false} OrBound(a: nat, b: nat, k: nat)
    requires a < Pow2(k) && b < Pow2(k)
    ensures Or(a, b) < Pow2(k)
    decreases k
  {
    if k > 0 {
      OrBound(a / 2, b / 2, k - 1);
      OrBit(a, b);
    }
  }

  // --- The masks the kernel uses ---------------------------------------------------------------

  lemma Powers()
    ensures Pow2(1) == 2 && Pow2(9) == 512 && Pow2(12) == 4096
    ensures Pow2(39) == 0x80_0000_0000 && Pow2(40) == 0x100_0000_0000
    ensures Pow2(52) == 0x10_0000_0000_0000
  {
    assert Pow2(8) == 256;
    assert Pow2(16) == 0x1_0000;
    assert Pow2(24) == 0x100_0000;
    assert Pow2(32) == 0x1_0000_0000;
    assert Pow2(36) == 0x10_0000_0000;
    assert Pow2(44) == 0x1000_0000_0000;
  }

  /** `w & 1` */
  lemma PresentMask(w: nat)
    ensures And(w, 1) == w % 2
  {
    AndBit(w, 1);
    AndZero(w / 2);
  }

  /** `x & 0x1FF` */
  lemma IndexMask(x: nat)
    ensures And(x, 0x1FF) == x % 512
  {
    Powers();
    AndLowOnes(x, 9);
    ShiftIsDivision(x, 9, 512);
  }

  /** A field of `m` bits above the page offset: `w & mask` with `mask` the ones at 12 and up. */
  lemma PageFieldMask(w: nat, mask: nat, m: nat)
    requires mask == (Pow2(m) - 1) * 4096
    ensures And(w, mask) == 4096 * (w / 4096 % Pow2(m))
  {
    Powers();
    AndField(w, mask, 12, m);
    ShiftIsDivision(w, 12, 4096);
    ShiftIsDivision(w / 4096, m, Pow2(m));
  }

  /** `w & 0x000FFFFFFFFFF000`, the address field a table walk keeps. */
  lemma TableMask(w: nat)
    ensures And(w, 0x000F_FFFF_FFFF_F000) == 4096 * (w / 4096 % 0x100_0000_0000)
  {
    Powers();
    PageFieldMask(w, 0x000F_FFFF_FFFF_F000, 40);
  }

  /** `w & 0x0007FFFFFFFFF000`, the narrower address field a translation keeps. */
  lemma FrameMask(w: nat)
    ensures And(w, 0x0007_FFFF_FFFF_F000) == 4096 * (w / 4096 % 0x80_0000_0000)
  {
    Powers();
    PageFieldMask(w, 0x0007_FFFF_FFFF_F000, 39);
  }

  /** `a & ~0xFFF` rounds down to a page boundary. */
  lemma PageMask(a: U64)
    ensures And(a, Not(0xFFF)) == 4096 * (a / 4096)
  {
    Powers();
    assert Not(0xFFF) == 0xFFFF_FFFF_FFFF_F000;
    PageFieldMask(a, 0xFFFF_FFFF_FFFF_F000, 52);
    QuotientIs(a / 4096, 0x10_0000_0000_0000, 0, a / 4096);
  }

  /** The address field of `a | b`, when `b` has no bit there. */
  lemma OrAddress(a: nat, b: nat)
    requires b / 4096 % 0x100_0000_0000 == 0
    ensures Or(a, b) / 4096 % 0x100_0000_0000 == a / 4096 % 0x100_0000_0000
    ensures Or(a, b) % 2 == (if a % 2 == 1 || b % 2 == 1 then 1 else 0)
  {
    Powers();
    OrSplit(a, b, 12);
    ShiftIsDivision(a, 12, 4096);
    ShiftIsDivision(b, 12, 4096);
    ShiftIsDivision(Or(a, b), 12, 4096);
    var x, y, d := a / 4096, b / 4096, 0x100_0000_0000;
    OrSplit(x, y, 40);
    ShiftIsDivision(x, 40, d);
    ShiftIsDivision(y, 40, d);
    ShiftIsDivision(Or(x, y), 40, d);
    OrZero(x % d);
    OrBit(a, b);
  }

  // --- Smearing the top bit downwards ----------------------------------------------------------

  /** The top `m` of the `n` bits of `v` are ones. */
  ghost predicate TopOnes(v: nat, n: nat, m: nat) {
    m <= n && Shr(v, n) == 0 && Shr(v, n - m) == Pow2(m) - 1
  }

  lemma {:induction false} ShrShr(a: nat, k: nat, m: nat)
    ensures Shr(Shr(a, k), m) == Shr(a, k + m)
    decreases k
  {
    if k > 0 {
      ShrShr(a / 2, k - 1, m);
    }
  }

  lemma {:induction false} PowSum(a: nat, b: nat)
    ensures Pow2(a + b) == Pow2(a) * Pow2(b)
    decreases a
  {
    if a > 0 {
      PowSum(a - 1, b);
      assert Pow2(a) * Pow2(b) == 2 * (Pow2(a - 1) * Pow2(b));
    }
  }

  /** `x` with its low `k` bits all set. */
  lemma OrOnes(x: nat, k: nat)
    ensures Or(x, Pow2(k) - 1) == Pow2(k) * Shr(x, k) + (Pow2(k) - 1)
  {
    var ones := Pow2(k) - 1;
    hide Or, Shr, Low, Pow2;
    OrSplit(x, ones, k);
    QuotientIs(ones, Pow2(k), 0, ones);
    ShiftIsDivision(ones, k, Pow2(k));
    OrZero(Shr(x, k));
    ShrLow(x, k);
    OrOnesLow(Low(x, k), k);
    ShrLow(Or(x, ones), k);
  }

  lemma {:induction false} OrOnesLow(x: nat, k: nat)
    requires x < Pow2(k)
    ensures Or(x, Pow2(k) - 1) == Pow2(k) - 1
    decreases k
  {
    if k > 0 {
      var p := Pow2(k - 1);
      assert Pow2(k) == 2 * p;
      OrOnesLow(x / 2, k - 1);
      OrBit(x, 2 * p - 1);
      hide Or, Pow2;
      assert (2 * p - 1) / 2 == p - 1 && (2 * p - 1) % 2 == 1;
    }
  }

  /** `v | v >> m` doubles a run of ones at the top, up to the whole number. */
  lemma Smear(v: nat, n: nat, m: nat)
    requires 1 <= m <= n && TopOnes(v, n, m)
    ensures TopOnes(Or(v, Shr(v, m)), n, if 2 * m <= n then 2 * m else n)
  {
    hide Or, Shr, Pow2;
    var k := if 2 * m <= n then m else n - m;
    var s := n - m - k;
    var x := Shr(v, s);
    OrSplit(v, Shr(v, m), s);
    ShrShr(v, m, s);
    ShrShr(v, n - m, m - k);
    OnesShift(m, m - k);
    assert Shr(Or(v, Shr(v, m)), s) == Or(x, Pow2(k) - 1);
    ShrShr(v, s, k);
    OrOnes(x, k);
    PowSum(k, m);
    assert Pow2(k) * (Pow2(m) - 1) == Pow2(k) * Pow2(m) - Pow2(k);
    OrSplit(v, Shr(v, m), n);
    ShrShr(v, m, n);
    ShrShr(v, n, m);
    ShrZero(m);
    OrZero(0);
  }

  lemma {:induction false} OnesShift(m: nat, d: nat)
    requires d <= m
    ensures Shr(Pow2(m) - 1, d) == Pow2(m - d) - 1
    decreases d
  {
    if d > 0 {
      assert (Pow2(m) - 1) / 2 == Pow2(m - 1) - 1;
      OnesShift(m - 1, d - 1);
    }
  }

  lemma {:induction false} ShrZero(m: nat)
    ensures Shr(0, m) == 0
  {
    if m > 0 {
      ShrZero(m - 1);
    }
  }

  /** Every positive number has a bit length. */
  lemma {:induction false} TopBit(v: nat) returns (n: nat)
    requires v > 0
    ensures n >= 1 && TopOnes(v, n, 1) && Pow2(n - 1) <= v < Pow2(n)
  {
    if v == 1 {
      n := 1;
    } else {
      n := TopBit(v / 2);
      n := n + 1;
    }
  }

  lemma {:induction false} PowMono(a: nat, b: nat)
    requires a <= b
    ensures Pow2(a) <= Pow2(b)
    decreases b
  {
    if a < b {
      PowMono(a, b - 1);
    }
  }

  lemma TwoTo32()
    ensures Pow2(32) == 0x1_0000_0000
  {
    assert Pow2(8) == 256;
    assert Pow2(16) == 0x1_0000;
    assert Pow2(24) == 0x100_0000;
  }

  /** The smearing loop of `next_pow2`, as one expression. */
  function Smeared(v: nat): nat {
    var v1 := Or(v, Shr(v, 1));
    var v2 := Or(v1, Shr(v1, 2));
    var v4 := Or(v2, Shr(v2, 4));
    var v8 := Or(v4, Shr(v4, 8));
    Or(v8, Shr(v8, 16))
  }

  lemma SmearedIsOnes(v: nat) returns (n: nat)
    requires v < 0x1_0000_0000
    ensures Smeared(v) == Pow2(n) - 1
    ensures if v == 0 then n == 0 else n >= 1 && Pow2(n - 1) <= v < Pow2(n)
  {
    if v == 0 {
      n := 0;
      assert Shr(0, 1) == 0;
      ShrZero(2); ShrZero(4); ShrZero(8); ShrZero(16);
    } else {
      n := TopBit(v);
      if n > 32 {
        PowMono(32, n - 1);
        TwoTo32();
        assert false;
      }
      var v1 := Or(v, Shr(v, 1));
      var v2 := Or(v1, Shr(v1, 2));
      var v4 := Or(v2, Shr(v2, 4));
      var v8 := Or(v4, Shr(v4, 8));
      hide Or, Shr, TopOnes;
      SmearStep(v, n, 1);
      SmearStep(v1, n, 2);
      SmearStep(v2, n, 4);
      SmearStep(v4, n, 8);
      SmearStep(v8, n, 16);
      WholeNumber(Smeared(v), n);
    }
  }

  lemma {:induction false} ShrAtMost(a: nat, k: nat)
    ensures Shr(a, k) <= a
  {
    if k > 0 {
      ShrAtMost(a / 2, k - 1);
    }
  }

  lemma {:induction false} OnesOr(x: nat, k: nat)
    requires x < Pow2(k)
    ensures Or(Pow2(k) - 1, x) == Pow2(k) - 1
    decreases k
  {
    if k > 0 {
      OnesOr(x / 2, k - 1);
      OrBit(Pow2(k) - 1, x);
    }
  }

  lemma TwoTo64()
    ensures Pow2(64) == U64_SIZE
  {
    TwoTo32();
    PowSum(32, 32);
  }

  /** A word of ones stays as it is. */
  lemma SmearedMax()
    ensures Smeared(U64_SIZE - 1) == U64_SIZE - 1
  {
    var v := U64_SIZE - 1;
    TwoTo64();
    hide Or, Shr, Pow2;
    forall k: nat ensures Or(v, Shr(v, k)) == v {
      ShrAtMost(v, k);
      OnesOr(Shr(v, k), 64);
    }
  }

  lemma WholeNumber(v: nat, n: nat)
    requires TopOnes(v, n, n)
    ensures v == Pow2(n) - 1
  {}

  lemma SmearStep(v: nat, n: nat, m: nat)
    requires n >= 1 && m >= 1 && TopOnes(v, n, Min(m, n))
    ensures TopOnes(Or(v, Shr(v, m)), n, Min(2 * m, n))
  {
    if m <= n {
      Smear(v, n, m);
    } else {
      ShrShr(v, n, m - n);
      ShrZero(m - n);
      OrZero(v);
    }
  }

  // --- Smearing wide numbers -------------------------------------------------------------------

  predicate Bit(v: nat, i: nat) {
    Shr(v, i) % 2 == 1
  }

  /** One of the `w` bits from `i` up is set. */
  predicate AnyBit(v: nat, i: nat, w: nat) {
    w > 0 && (Bit(v, i + w - 1) || AnyBit(v, i, w - 1))
  }

  lemma {:induction false} AnySum(v: nat, i: nat, a: nat, b: nat)
    ensures AnyBit(v, i, a + b) <==> AnyBit(v, i, a) || AnyBit(v, i + a, b)
    decreases b
  {
    if b > 0 {
      AnySum(v, i, a, b - 1);
    }
  }

  lemma SmearBits(v: nat, u: nat, w: nat, i: nat)
    requires forall j: nat :: Bit(u, j) <==> AnyBit(v, j, w)
    ensures Bit(Or(u, Shr(u, w)), i) <==> AnyBit(v, i, 2 * w)
  {
    OrSplit(u, Shr(u, w), i);
    OrBit(Shr(u, i), Shr(Shr(u, w), i));
    ShrShr(u, w, i);
    hide Or, Shr, AnyBit;
    AnySum(v, i, w, w);
    assert Bit(u, i) <==> AnyBit(v, i, w);
    assert Bit(u, i + w) <==> AnyBit(v, i + w, w);
  }

  /** Each bit of the smeared number says whether one of the 32 bits from there up was set. */
  lemma SmearedBits(v: nat, i: nat)
    ensures Bit(Smeared(v), i) <==> AnyBit(v, i, 32)
  {
    var v1 := Or(v, Shr(v, 1));
    var v2 := Or(v1, Shr(v1, 2));
    var v4 := Or(v2, Shr(v2, 4));
    var v8 := Or(v4, Shr(v4, 8));
    forall j: nat ensures Bit(v, j) <==> AnyBit(v, j, 1) {
      assert !AnyBit(v, j, 0);
    }
    assert Smeared(v) == Or(v8, Shr(v8, 16));
    hide Or, Shr, AnyBit, Bit;
    forall j: nat ensures Bit(v1, j) <==> AnyBit(v, j, 2) { SmearBits(v, v, 1, j); }
    forall j: nat ensures Bit(v2, j) <==> AnyBit(v, j, 4) { SmearBits(v, v1, 2, j); }
    forall j: nat ensures Bit(v4, j) <==> AnyBit(v, j, 8) { SmearBits(v, v2, 4, j); }
    forall j: nat ensures Bit(v8, j) <==> AnyBit(v, j, 16) { SmearBits(v, v4, 8, j); }
    SmearBits(v, v8, 16, i);
  }

  /** A number of `n` bits is all ones exactly if every bit is. */
  lemma {:induction false} OnesByBits(v: nat, n: nat)
    requires v < Pow2(n)
    ensures v == Pow2(n) - 1 <==> forall i: nat :: i < n ==> Bit(v, i)
    decreases n
  {
    if n > 0 {
      OnesByBits(v / 2, n - 1);
      assert Bit(v, 0) <==> v % 2 == 1;
      forall i: nat ensures Bit(v, i + 1) <==> Bit(v / 2, i) {}
      if forall i: nat :: i < n - 1 ==> Bit(v / 2, i) {
        forall i: nat | i < n && Bit(v, 0) ensures Bit(v, i) {
          if i > 0 { assert Bit(v / 2, i - 1); }
        }
      } else {
        var i: nat :| i < n - 1 && !Bit(v / 2, i);
        assert !Bit(v, i + 1);
      }
    }
  }

  /** No 32 consecutive bits below the top one are all zero. */
  ghost predicate NoGap(v: nat) {
    forall i: nat :: Pow2(i) <= v ==> AnyBit(v, i, 32)
  }

  lemma SmearBound(u: nat, w: nat, n: nat)
    requires u < Pow2(n)
    ensures Or(u, Shr(u, w)) < Pow2(n)
  {
    ShrAtMost(u, w);
    OrBound(u, Shr(u, w), n);
  }

  /** Smearing a positive number fills it up to its length exactly if there is no such gap. */
  lemma SmearedFull(v: nat, n: nat)
    requires n > 0 && Pow2(n - 1) <= v < Pow2(n)
    ensures v <= Smeared(v) < Pow2(n)
    ensures Smeared(v) == Pow2(n) - 1 <==> NoGap(v)
  {
    SmearedRange(v, n);
    hide Smeared, Shr, Bit, AnyBit;
    OnesByBits(Smeared(v), n);
    forall i: nat ensures Pow2(i) <= v <==> i < n {
      if i < n { PowMono(i, n - 1); } else { PowMono(n, i); }
    }
    forall i: nat ensures Bit(Smeared(v), i) <==> AnyBit(v, i, 32) {
      SmearedBits(v, i);
    }
  }

  lemma SmearedRange(v: nat, n: nat)
    requires v < Pow2(n)
    ensures v <= Smeared(v) < Pow2(n)
  {
    var v1 := Or(v, Shr(v, 1));
    var v2 := Or(v1, Shr(v1, 2));
    var v4 := Or(v2, Shr(v2, 4));
    var v8 := Or(v4, Shr(v4, 8));
    hide Or, Shr;
    SmearBound(v, 1, n);
    SmearBound(v1, 2, n);
    SmearBound(v2, 4, n);
    SmearBound(v4, 8, n);
    SmearBound(v8, 16, n);
    OrAtLeast(v, Shr(v, 1));
    OrAtLeast(v1, Shr(v1, 2));
    OrAtLeast(v2, Shr(v2, 4));
    OrAtLeast(v4, Shr(v4, 8));
    OrAtLeast(v8, Shr(v8, 16));
  }

  lemma {:induction false} OrAtLeast(a: nat, b: nat)
    ensures Or(a, b) >= a
    decreases a
  {
    if a > 0 {
      OrAtLeast(a / 2, b / 2);
    }
  }

  /** A number below 2^32 has no room for a gap ... */
  lemma ShortNoGap(v: nat)
    requires v < 0x1_0000_0000
    ensures NoGap(v)
  {
    if v > 0 {
      var n := TopBit(v);
      var ones := SmearedIsOnes(v);
      if ones < n { PowMono(ones, n - 1); } else if n < ones { PowMono(n, ones - 1); }
      SmearedFull(v, n);
    }
  }

  /** ... and 2^32 has one. */
  lemma FirstGap()
    ensures !NoGap(0x1_0000_0000)
  {
    LowZeros(32, 32);
    TwoTo32();
    assert Pow2(0) <= 0x1_0000_0000;
  }

  lemma {:induction false} LowZeros(k: nat, w: nat)
    requires w <= k
    ensures !AnyBit(Pow2(k), 0, w)
    decreases w
  {
    if w > 0 {
      LowZeros(k, w - 1);
      PowShifted(k, w - 1);
    }
  }

  lemma {:induction false} PowShifted(k: nat, i: nat)
    requires i <= k
    ensures Shr(Pow2(k), i) == Pow2(k - i)
    decreases i
  {
    if i > 0 {
      assert Pow2(k) / 2 == Pow2(k - 1);
      PowShifted(k - 1, i - 1);
    }
  }

  function Min(a: nat, b: nat): nat { if a <= b then a else b }
}
