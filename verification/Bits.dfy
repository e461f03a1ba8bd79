/** Bitwise operators on natural numbers, one binary digit at a time, and the facts about
    them that the C sources rely on. A C unsigned word of w bits is a nat below Pow2(w). */
module Bits {

  const UINT32_MAX := 0xFFFF_FFFF
  const W32 := UINT32_MAX + 1

  type u32 = n: nat | n < W32

  function Min(a: int, b: int): int {
    if a <= b then a else b
  }

  function Max(a: int, b: int): int {
    if a >= b then a else b
  }

  lemma MulMonotone(m: nat, a: nat, b: nat)
    requires a <= b
    ensures 0 <= m * a <= m * b
  {
  }

  function Pow2(k: nat): (r: nat)
    ensures r > 0
  {
    if k == 0 then 1 else 2 * Pow2(k - 1)
  }

  lemma Pow2Values()
    ensures Pow2(8) == 0x100
    ensures Pow2(16) == 0x1_0000
    ensures Pow2(24) == 0x100_0000
    ensures Pow2(32) == 0x1_0000_0000
  {
    assert Pow2(4) == 16;
    assert Pow2(8) == 256;
    assert Pow2(12) == 4096;
    assert Pow2(16) == 0x1_0000;
    assert Pow2(20) == 0x10_0000;
    assert Pow2(24) == 0x100_0000;
    assert Pow2(28) == 0x1000_0000;
    assert Pow2(32) == 0x1_0000_0000;
  }

  lemma {:induction false} Pow2Monotone(j: nat, k: nat)
    requires j <= k
    ensures Pow2(j) <= Pow2(k)
  {
    if j < k {
      Pow2Monotone(j, k - 1);
    }
  }

  function And(a: nat, b: nat): nat {
    if a == 0 || b == 0 then 0 else a % 2 * (b % 2) + 2 * And(a / 2, b / 2)
  }

  function Xor(a: nat, b: nat): nat
    decreases a + b
  {
    if a == 0 && b == 0 then 0
    else (if a % 2 == b % 2 then 0 else 1) + 2 * Xor(a / 2, b / 2)
  }

  /** The one's complement of a within w bits. */
  function Not(a: nat, w: nat): nat
    requires a < Pow2(w)
  {
    Pow2(w) - 1 - a
  }

  /** __builtin_ffs: one more than the index of the lowest set bit, or 0 when there is none. */
  function Ffs(a: nat): nat {
    if a == 0 then 0 else 1 + Ctz(a)
  }

  function Ctz(a: nat): nat
    requires a > 0
  {
    if a % 2 == 1 then 0 else 1 + Ctz(a / 2)
  }

  /** A mask of the k lowest bits. */
  function LowOnes(k: nat): nat {
    Pow2(k) - 1
  }

  lemma {:induction false} AndLowOnes(a: nat, k: nat)
    ensures And(a, LowOnes(k)) == a % Pow2(k)
  {
    if k > 0 {
      AndLowOnes(a / 2, k - 1);
      assert LowOnes(k) / 2 == LowOnes(k - 1);
      assert LowOnes(k) % 2 == 1;
      ModHalves(a, Pow2(k - 1));
    }
  }

  lemma ModHalves(a: nat, m: nat)
    requires m > 0
    ensures a % (2 * m) == a % 2 + 2 * (a / 2 % m)
  {
    var q, r := a / 2 / m, a / 2 % m;
    assert a == 2 * m * q + (a % 2 + 2 * r);
    ModUnique(a, 2 * m, q, a % 2 + 2 * r);
  }

  lemma ModUnique(a: nat, d: nat, q: nat, r: nat)
    requires 0 <= r < d
    requires a == d * q + r
    ensures a % d == r && a / d == q
  {
    var q', r' := a / d, a % d;
    assert d * q' + r' == a;
    MulDifference(d, q, q');
    MultipleInRange(d, q - q', r' - r);
  }

  lemma MulDifference(d: int, x: int, y: int)
    ensures d * (x - y) == d * x - d * y
  {
  }

  lemma MultipleInRange(d: int, k: int, v: int)
    requires d * k == v && -d < v < d
    ensures k == 0
  {
    if k >= 1 {
      MulAtLeast(d, k);
    } else if k <= -1 {
      MulAtLeast(d, -k);
    }
  }

  lemma MulAtLeast(d: int, k: int)
    requires d >= 0 && k >= 1
    ensures d * k >= d
  {
  }

  lemma {:induction false} XorZero(a: nat)
    ensures Xor(a, 0) == a && Xor(0, a) == a
    decreases a
  {
    if a > 0 {
      XorZero(a / 2);
    }
  }

  lemma {:induction false} XorSelf(a: nat)
    ensures Xor(a, a) == 0
  {
    if a > 0 {
      XorSelf(a / 2);
    }
  }

  lemma {:induction false} XorCommutes(a: nat, b: nat)
    ensures Xor(a, b) == Xor(b, a)
    decreases a + b
  {
    if a + b > 0 {
      XorCommutes(a / 2, b / 2);
    }
  }

  lemma {:induction false} XorAssociates(a: nat, b: nat, c: nat)
    ensures Xor(Xor(a, b), c) == Xor(a, Xor(b, c))
    decreases a + b + c
  {
    if a + b + c > 0 {
      XorAssociates(a / 2, b / 2, c / 2);
      XorHalves(a, b);
      XorHalves(b, c);
      XorHalves(Xor(a, b), c);
      XorHalves(a, Xor(b, c));
    }
  }

  lemma XorHalves(a: nat, b: nat)
    ensures Xor(a, b) % 2 == if a % 2 == b % 2 then 0 else 1
    ensures Xor(a, b) / 2 == Xor(a / 2, b / 2)
  {
  }

  /** A bound on one word bounds an exclusive or; the C idiom `(a ^ b) < 2^k` asks exactly
      whether a and b agree above bit k. */
  lemma {:induction false} XorBelow(a: nat, b: nat, k: nat)
    ensures Xor(a, b) < Pow2(k) <==> a / Pow2(k) == b / Pow2(k)
  {
    if k == 0 {
      XorZeroIffEqual(a, b);
    } else {
      XorBelow(a / 2, b / 2, k - 1);
      XorHalves(a, b);
      DivHalves(a, Pow2(k - 1));
      DivHalves(b, Pow2(k - 1));
    }
  }

  lemma {:induction false} XorZeroIffEqual(a: nat, b: nat)
    ensures Xor(a, b) == 0 <==> a == b
    decreases a + b
  {
    if a + b > 0 {
      XorZeroIffEqual(a / 2, b / 2);
    }
  }

  lemma DivHalves(a: nat, m: nat)
    requires m > 0
    ensures a / (2 * m) == a / 2 / m
  {
    var q, r := a / 2 / m, a / 2 % m;
    assert a == 2 * m * q + (a % 2 + 2 * r);
    ModUnique(a, 2 * m, q, a % 2 + 2 * r);
  }

  lemma XorBounded(a: nat, b: nat, k: nat)
    requires a < Pow2(k) && b < Pow2(k)
    ensures Xor(a, b) < Pow2(k)
  {
    XorBelow(a, b, k);
    ModUnique(a, Pow2(k), 0, a);
    ModUnique(b, Pow2(k), 0, b);
  }

  /** The number of trailing ones of t decides which low masks t meets. */
  lemma {:induction false} MeetsIffTrailing(t: nat, k: nat, w: nat)
    requires t < Pow2(w) && k <= w
    ensures t % Pow2(k) == LowOnes(k) <==> Not(t, w) == 0 || Ctz(Not(t, w)) >= k
  {
    if k > 0 {
      ModHalves(t, Pow2(k - 1));
      assert Not(t, w) / 2 == Not(t / 2, w - 1);
      assert Not(t, w) % 2 == 1 - t % 2;
      MeetsIffTrailing(t / 2, k - 1, w - 1);
    }
  }
}
