/** Bits of integers in infinite two's complement, and the bitwise operations on them. */
module Bits {
  import opened Digits

  datatype Op = And | Ior | Xor

  /** Bit i of x: the parity of x halved i times, rounding down.  A negative number has ones all the
      way up. */
  function BitAt(x: int, i: nat): (b: int)
    ensures 0 <= b <= 1
    decreases i
  {
    if i == 0 then x % 2 else BitAt(x / 2, i - 1)
  }

  function OpBit(op: Op, a: int, b: int): (r: int)
    requires 0 <= a <= 1 && 0 <= b <= 1
    ensures 0 <= r <= 1
  {
    match op
    case And => if a == 1 && b == 1 then 1 else 0
    case Ior => if a == 1 || b == 1 then 1 else 0
    case Xor => if a != b then 1 else 0
  }

  /** z is x op y, bit by bit, without end. */
  ghost predicate IsBitwise(op: Op, x: int, y: int, z: int) {
    forall i: nat :: BitAt(z, i) == OpBit(op, BitAt(x, i), BitAt(y, i))
  }

  /** The machine operation on non-negative words. */
  function BitOp(op: Op, x: nat, y: nat): nat
    decreases x + y
  {
    if x == 0 && y == 0 then 0 else 2 * BitOp(op, x / 2, y / 2) + OpBit(op, x % 2, y % 2)
  }

  /** The bit as arithmetic shift and mask give it. */
  lemma {:induction false} BitMeaning(x: int, i: nat, q: int, r: int)
    requires x == Times(q, Pow2(i)) + r && 0 <= r < Pow2(i)
    ensures BitAt(x, i) == q % 2
    decreases i
  {
    if i == 0 {
      TimesMul(q, 1);
    } else {
      TimesDouble(q, Pow2(i - 1));
      BitMeaning(x / 2, i - 1, q, r / 2);
    }
  }

  lemma TimesDouble(a: int, n: nat)
    ensures Times(a, 2 * n) == 2 * Times(a, n)
  {
    TimesMul(a, n);
    TimesMul(a, 2 * n);
    assert a * (2 * n) == 2 * (a * n);
  }

  /** An integer is its bits: two integers with the same bits are equal. */
  lemma {:induction false} BitsDetermine(x: int, y: int)
    requires forall i: nat :: BitAt(x, i) == BitAt(y, i)
    ensures x == y
    decreases Abs(x) + Abs(y)
  {
    assert x % 2 == BitAt(x, 0) == BitAt(y, 0) == y % 2;
    if !(-1 <= x <= 0 && -1 <= y <= 0) {
      forall i: nat ensures BitAt(x / 2, i) == BitAt(y / 2, i) {
        assert BitAt(x, i + 1) == BitAt(y, i + 1);
      }
      BitsDetermine(x / 2, y / 2);
    }
  }

  /** The machine operation works bit by bit. */
  lemma {:induction false} BitOpBits(op: Op, x: nat, y: nat, i: nat)
    ensures BitAt(BitOp(op, x, y), i) == OpBit(op, BitAt(x, i), BitAt(y, i))
    decreases i
  {
    Unfold(op, x, y);
    if i > 0 {
      BitOpBits(op, x / 2, y / 2, i - 1);
    }
  }

  lemma Unfold(op: Op, x: nat, y: nat)
    ensures BitOp(op, x, y) == 2 * BitOp(op, x / 2, y / 2) + OpBit(op, x % 2, y % 2)
  {
  }

  /** Adding 2^k leaves the bits below k. */
  lemma {:induction false} BitPeriodic(x: int, k: nat, i: nat)
    requires i < k
    ensures BitAt(x + Pow2(k), i) == BitAt(x, i)
    decreases i
  {
    if i > 0 {
      assert (x + Pow2(k)) / 2 == x / 2 + Pow2(k - 1);
      BitPeriodic(x / 2, k - 1, i - 1);
    }
  }

  /** Above its magnitude, a number shows only its sign. */
  lemma {:induction false} BitSign(x: int, k: nat, i: nat)
    requires -(Pow2(k) as int) <= x < Pow2(k) && k <= i
    ensures BitAt(x, i) == if x < 0 then 1 else 0
    decreases i
  {
    if i > 0 {
      BitSign(x / 2, if k == 0 then 0 else k - 1, i - 1);
    }
  }

  /** The topmost bit below 2^(k+1). */
  lemma {:induction false} BitTop(x: int, k: nat)
    requires Pow2(k) <= x < Pow2(k + 1)
    ensures BitAt(x, k) == 1
    decreases k
  {
    if k > 0 {
      BitTop(x / 2, k - 1);
    }
  }

  // ----- the machine operation, split at a bit -----

  lemma {:induction false} BitOpBound(op: Op, x: nat, y: nat, k: nat)
    requires x < Pow2(k) && y < Pow2(k)
    ensures BitOp(op, x, y) < Pow2(k)
    decreases k
  {
    if k > 0 {
      BitOpBound(op, x / 2, y / 2, k - 1);
    }
  }

  /** Low parts and high parts do not interact. */
  lemma {:induction false} BitOpSplit(op: Op, a: nat, b: nat, x: nat, y: nat, k: nat)
    requires a < Pow2(k) && b < Pow2(k)
    ensures 0 <= Times(x, Pow2(k)) && 0 <= Times(y, Pow2(k))
    ensures BitOp(op, a + Times(x, Pow2(k)), b + Times(y, Pow2(k)))
         == BitOp(op, a, b) + Times(BitOp(op, x, y), Pow2(k))
    decreases k
  {
    if k == 0 {
      SplitAtZero(op, a, b, x, y);
    } else {
      var p := Pow2(k - 1);
      HalfBelow(a, k);
      HalfBelow(b, k);
      BitOpSplit(op, a / 2, b / 2, x, y, k - 1);
      var u, w, d := Times(x, p), Times(y, p), Times(BitOp(op, x, y), p);
      TimesDouble(x, p);
      TimesDouble(y, p);
      TimesDouble(BitOp(op, x, y), p);
      Doubled(op, a, b, u, w, d);
    }
  }

  lemma HalfBelow(a: nat, k: nat)
    requires k > 0 && a < Pow2(k)
    ensures a / 2 < Pow2(k - 1) && Pow2(k) == 2 * Pow2(k - 1)
  {}

  lemma SplitAtZero(op: Op, a: nat, b: nat, x: nat, y: nat)
    requires a < Pow2(0) && b < Pow2(0)
    ensures Times(x, Pow2(0)) == x && Times(y, Pow2(0)) == y
    ensures BitOp(op, a + x, b + y) == BitOp(op, a, b) + Times(BitOp(op, x, y), Pow2(0))
  {
    TimesMul(x, 1);
    TimesMul(y, 1);
    TimesMul(BitOp(op, x, y), 1);
    assert a == 0 && b == 0 && BitOp(op, 0, 0) == 0;
  }

  lemma Doubled(op: Op, a: nat, b: nat, u: nat, w: nat, d: int)
    requires BitOp(op, a / 2 + u, b / 2 + w) == BitOp(op, a / 2, b / 2) + d
    ensures BitOp(op, a + 2 * u, b + 2 * w) == BitOp(op, a, b) + 2 * d
  {
    Unfold(op, a, b);
    Unfold(op, a + 2 * u, b + 2 * w);
    assert (a + 2 * u) / 2 == a / 2 + u && (b + 2 * w) / 2 == b / 2 + w;
  }

  /** A disjunction with zero changes nothing. */
  lemma {:induction false} IorZero(x: nat)
    ensures BitOp(Ior, x, 0) == x && BitOp(Ior, 0, x) == x
  {
    if x > 0 {
      IorZero(x / 2);
    }
  }

  /** A disjunction of numbers that share no bit is their sum. */
  lemma IorDisjoint(low: nat, high: nat, k: nat)
    requires low < Pow2(k)
    ensures 0 <= Times(high, Pow2(k))
    ensures BitOp(Ior, low, Times(high, Pow2(k))) == low + Times(high, Pow2(k))
  {
    BitOpSplit(Ior, low, 0, 0, high, k);
    TimesMul(0, Pow2(k));
    IorZero(low);
    IorZero(high);
  }

  lemma Pow2Half()
    ensures Pow2(HALF_DIGIT_LENGTH) == R
  {
    Pow2Add(15, 16);
    assert Pow2(8) == 256;
    Pow2Add(8, 8);
    Pow2Add(7, 8);
    assert Pow2(7) == 128;
  }

  /** Joining two half digits by a shift and an OR is what the sum of `HdCons` computes. */
  lemma HdConsIsOr(high: int64, low: int64)
    requires 0 <= high < 0x1_0000_0000 && IsHalf(low)
    ensures 0 <= Times(high as int, Pow2(HALF_DIGIT_LENGTH))
    ensures HdCons(high, low) as int == BitOp(Ior, low as int, Times(high as int, Pow2(HALF_DIGIT_LENGTH)))
  {
    Pow2Half();
    IorDisjoint(low as int, high as int, HALF_DIGIT_LENGTH);
    TimesMul(high as int, Pow2(HALF_DIGIT_LENGTH));
  }

  /** The radix in bits. */
  lemma {:induction false} PowPow2(n: nat)
    ensures Pow(n) == Pow2(DIGIT_LENGTH * n)
  {
    if n > 0 {
      PowPow2(n - 1);
      Pow2Add(DIGIT_LENGTH, DIGIT_LENGTH * (n - 1));
      Pow2Radix();
    }
  }

  // ----- two's complement -----

  /** The pattern of x modulo 2^k. */
  ghost function Pattern(x: int, k: nat): int {
    if x < 0 then x + Pow2(k) else x
  }

  function SignBit(x: int): int {
    if x < 0 then 1 else 0
  }

  lemma PatternBits(x: int, k: nat, i: nat)
    requires i < k
    ensures BitAt(Pattern(x, k), i) == BitAt(x, i)
  {
    BitPeriodic(x, k, i);
  }

  /** The number with pattern p modulo 2^k and the given sign. */
  ghost function Unpattern(p: int, k: nat, negative: bool): int {
    if negative then p - Pow2(k) else p
  }

  /** x op y through patterns: the machine operation on the patterns, read with the sign that the
      operation gives to the operands' signs. */
  lemma PatternOp(op: Op, x: int, y: int, k: nat)
    requires -(Pow2(k) as int) <= x < Pow2(k) && -(Pow2(k) as int) <= y < Pow2(k)
    ensures IsBitwise(op, x, y, Unpattern(BitOp(op, Pattern(x, k), Pattern(y, k)), k,
                                          OpBit(op, SignBit(x), SignBit(y)) == 1))
  {
    var p, q := Pattern(x, k), Pattern(y, k);
    BitOpBound(op, p, q, k);
    var negative := OpBit(op, SignBit(x), SignBit(y)) == 1;
    var z := Unpattern(BitOp(op, p, q), k, negative);
    forall i: nat ensures BitAt(z, i) == OpBit(op, BitAt(x, i), BitAt(y, i)) {
      if i < k {
        PatternBits(x, k, i);
        PatternBits(y, k, i);
        BitPeriodic(z, k, i);
        BitOpBits(op, p, q, i);
      } else {
        BitSign(x, k, i);
        BitSign(y, k, i);
        BitSign(z, k, i);
      }
    }
  }

  /** The complement flips every bit. */
  lemma {:induction false} NotBits(x: int, i: nat)
    ensures BitAt(-x - 1, i) == 1 - BitAt(x, i)
    decreases i
  {
    if i > 0 {
      assert (-x - 1) / 2 == -(x / 2) - 1;
      NotBits(x / 2, i - 1);
    }
  }
}
