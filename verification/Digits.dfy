/** The digit layout of a bignum: radix 2^62, held in signed 64-bit words, and the integer a run of
    digits stands for.

    Every digit operation of the project is carried out in the newtype `int64`, whose range Dafny
    checks at each intermediate result, so a method that verifies cannot overflow a signed 64-bit word. */
module Digits {

  newtype int64 = x: int | -0x8000_0000_0000_0000 <= x < 0x8000_0000_0000_0000

  const DIGIT_LENGTH := 62
  const HALF_DIGIT_LENGTH := 31
  const RADIX: int64 := 0x4000_0000_0000_0000
  const RADIX_ROOT: int64 := 0x8000_0000
  const DIGIT_MAX: int64 := RADIX - 1

  /** The radix and its square root as unbounded integers. */
  const B: int := 0x4000_0000_0000_0000
  const R: int := 0x8000_0000

  predicate IsDigit(d: int64) {
    0 <= d < RADIX
  }

  predicate IsHalf(d: int64) {
    0 <= d < RADIX_ROOT
  }

  // ----- half digits (HD_LOW, HD_HIGH, HD_CONS) -----

  /** `d & (2^31 - 1)`, for either sign of d. */
  function HdLow(d: int64): (h: int64)
    ensures IsHalf(h)
  {
    d % RADIX_ROOT
  }

  /** `d >> 31`, which floors. */
  function HdHigh(d: int64): (h: int64)
    ensures d as int == h as int * R + HdLow(d) as int
    ensures 0 <= d ==> 0 <= h
    ensures IsDigit(d) ==> IsHalf(h)
    ensures 0 <= d ==> h < 0x1_0000_0000
  {
    d / RADIX_ROOT
  }

  /** `(high << 31) | low`: the operands share no bit, so the disjunction is a sum (`Bits.HdConsIsOr`). */
  function HdCons(high: int64, low: int64): (d: int64)
    requires 0 <= high < 0x1_0000_0000 && IsHalf(low)
    ensures IsHalf(high) ==> IsDigit(d)
  {
    high * RADIX_ROOT + low
  }

  // ----- products -----

  /** a times n, written as a repeated sum.  Weighted digits are kept in this form, so that a proof
      about them stays linear until `TimesMul` is called. */
  ghost function Times(a: int, n: nat): int {
    if n == 0 then 0 else a + Times(a, n - 1)
  }

  lemma {:induction false} TimesMul(a: int, n: nat)
    ensures Times(a, n) == a * n
  {
    if n > 0 {
      TimesMul(a, n - 1);
      assert a * n == a * (n - 1) + a;
    }
  }

  lemma TimesAdd(a: int, b: int, n: nat)
    ensures Times(a + b, n) == Times(a, n) + Times(b, n)
  {
    TimesMul(a, n);
    TimesMul(b, n);
    TimesMul(a + b, n);
    assert (a + b) * n == a * n + b * n;
  }

  lemma TimesNegate(a: int, n: nat)
    ensures Times(-a, n) == -Times(a, n)
  {
    TimesMul(a, n);
    TimesMul(-a, n);
  }

  lemma TimesScale(c: int, a: int, n: nat)
    ensures Times(c * a, n) == c * Times(a, n)
  {
    TimesMul(a, n);
    TimesMul(c * a, n);
    MulAssoc(c, a, n);
  }

  lemma TimesRadix(a: int, n: nat)
    ensures Times(a, B * n) == B * Times(a, n)
  {
    TimesMul(a, n);
    TimesMul(a, B * n);
    assert a * (B * n) == B * (a * n);
  }

  lemma TimesTimes(a: int, n: nat, m: nat)
    ensures n * m >= 0
    ensures Times(Times(a, n), m) == Times(a, n * m)
  {
    MulLe(0, n, m);
    TimesMul(a, n);
    TimesMul(Times(a, n), m);
    TimesMul(a, n * m);
    MulAssoc(a, n, m);
  }

  lemma TimesMono(a: int, b: int, n: nat)
    requires a <= b
    ensures Times(a, n) <= Times(b, n)
  {
    TimesMul(a, n);
    TimesMul(b, n);
    MulLe(a, b, n);
  }

  /** Scaling by a positive weight keeps the strict order, in both directions. */
  lemma TimesCancel(a: int, b: int, n: nat)
    requires 0 < n
    ensures Times(a, n) < Times(b, n) <==> a < b
    ensures Times(a, n) == Times(b, n) <==> a == b
  {
    if a < b {
      TimesMono(a + 1, b, n);
      TimesAdd(a, 1, n);
      TimesMul(1, n);
    } else if b < a {
      TimesMono(b + 1, a, n);
      TimesAdd(b, 1, n);
      TimesMul(1, n);
    }
  }

  lemma MulAssoc(a: int, b: int, c: int)
    ensures a * b * c == a * (b * c)
  {
  }

  lemma MulLe(a: int, b: int, c: int)
    requires a <= b && 0 <= c
    ensures a * c <= b * c
  {
  }

  lemma MulBound(a: int, b: int, x: int, y: int)
    requires 0 <= a <= x && 0 <= b <= y
    ensures 0 <= a * b <= x * y
  {
    MulLe(a, x, b);
    MulLe(b, y, x);
  }

  // ----- powers of the radix -----

  ghost function Pow(n: nat): (p: nat)
    ensures p >= 1
  {
    if n == 0 then 1 else B * Pow(n - 1)
  }

  lemma {:induction false} PowAdd(a: nat, b: nat)
    ensures Pow(a + b) == Pow(a) * Pow(b)
  {
    if a > 0 {
      PowAdd(a - 1, b);
      assert Pow(a + b) == B * Pow(a - 1 + b);
      MulAssoc(B, Pow(a - 1), Pow(b));
    }
  }

  lemma PowMono(a: nat, b: nat)
    requires a <= b
    ensures Pow(a) <= Pow(b)
  {
    if a < b {
      PowMono(a, b - 1);
    }
  }

  // ----- powers of two -----

  function Pow2(k: nat): (p: nat)
    ensures p >= 1
  {
    if k == 0 then 1 else 2 * Pow2(k - 1)
  }

  lemma {:induction false} Pow2Add(a: nat, b: nat)
    ensures Pow2(a + b) == Pow2(a) * Pow2(b)
  {
    if a > 0 {
      Pow2Add(a - 1, b);
      assert Pow2(a + b) == 2 * Pow2(a - 1 + b);
      MulAssoc(2, Pow2(a - 1), Pow2(b));
    }
  }

  lemma Pow2Mono(a: nat, b: nat)
    requires a <= b
    ensures Pow2(a) <= Pow2(b)
  {
    if a < b {
      Pow2Mono(a, b - 1);
    }
  }

  lemma Pow2Product(a: nat, b: nat, x: int, y: int)
    requires Pow2(a) == x && Pow2(b) == y
    ensures Pow2(a + b) == x * y
  {
    Pow2Add(a, b);
  }

  /** The radix is the 62nd power of two. */
  lemma Pow2Radix()
    ensures Pow2(DIGIT_LENGTH) == B
  {
    assert Pow2(3) == 8 && Pow2(4) == 16;
    Pow2Product(3, 4, 8, 16);
    Pow2Product(4, 4, 16, 16);
    Pow2Product(7, 8, 128, 256);
    Pow2Product(8, 8, 256, 256);
    Pow2Product(15, 16, 0x8000, 0x1_0000);
    Pow2Product(31, 31, R, R);
  }

  /** `1 << k`, for k up to the length of a digit. */
  function Bit(k: nat): (p: int64)
    requires k <= DIGIT_LENGTH
    ensures p as int == Pow2(k) && 1 <= p <= RADIX
  {
    Pow2Radix();
    Pow2Mono(k, DIGIT_LENGTH);
    Pow2(k) as int64
  }

  // ----- the value of a run of digits -----

  predicate AllDigits(s: seq<int64>, lo: nat, n: nat)
    requires lo + n <= |s|
  {
    forall k :: lo <= k < lo + n ==> IsDigit(s[k])
  }

  /** The integer written by the n digits of s that start at position lo, least significant first. */
  ghost function V(s: seq<int64>, lo: nat, n: nat): int
    requires lo + n <= |s|
    decreases n
  {
    if n == 0 then 0 else s[lo] as int + B * V(s, lo + 1, n - 1)
  }

  /** The value seen from its leading digit. */
  lemma {:induction false} VSnoc(s: seq<int64>, lo: nat, n: nat)
    requires lo + n + 1 <= |s|
    ensures V(s, lo, n + 1) == V(s, lo, n) + Times(s[lo + n] as int, Pow(n))
    decreases n
  {
    if n == 0 {
      TimesMul(s[lo] as int, 1);
    } else {
      VSnoc(s, lo + 1, n - 1);
      TimesRadix(s[lo + n] as int, Pow(n - 1));
    }
  }

  /** The value depends on the digits read and on nothing else. */
  lemma {:induction false} VSame(s: seq<int64>, lo: nat, t: seq<int64>, lo': nat, n: nat)
    requires lo + n <= |s| && lo' + n <= |t|
    requires s[lo..lo + n] == t[lo'..lo' + n]
    ensures V(s, lo, n) == V(t, lo', n)
    decreases n
  {
    if n > 0 {
      var x, y := s[lo..lo + n], t[lo'..lo' + n];
      assert s[lo + 1..lo + 1 + (n - 1)] == x[1..];
      assert t[lo' + 1..lo' + 1 + (n - 1)] == y[1..];
      VSame(s, lo + 1, t, lo' + 1, n - 1);
      assert s[lo] == x[0] && t[lo'] == y[0];
    }
  }

  /** A number splits at any digit into a low part and a high part scaled by the radix. */
  lemma {:induction false} VSplit(s: seq<int64>, lo: nat, a: nat, b: nat)
    requires lo + a + b <= |s|
    ensures V(s, lo, a + b) == V(s, lo, a) + Times(V(s, lo + a, b), Pow(a))
    decreases a
  {
    if a == 0 {
      TimesMul(V(s, lo, b), 1);
    } else {
      VSplit(s, lo + 1, a - 1, b);
      TimesRadix(V(s, lo + a, b), Pow(a - 1));
    }
  }

  /** n digits in range write a number below Pow(n). */
  lemma {:induction false} VBound(s: seq<int64>, lo: nat, n: nat)
    requires lo + n <= |s| && AllDigits(s, lo, n)
    ensures 0 <= V(s, lo, n) < Pow(n)
    decreases n
  {
    if n > 0 {
      VBound(s, lo + 1, n - 1);
    }
  }

  /** The leading digit places a number between two multiples of the top weight. */
  lemma VTop(s: seq<int64>, lo: nat, n: nat)
    requires 0 < n && lo + n <= |s| && AllDigits(s, lo, n)
    ensures Times(s[lo + n - 1] as int, Pow(n - 1)) <= V(s, lo, n) < Times(s[lo + n - 1] as int + 1, Pow(n - 1))
    ensures Times(s[lo + n - 1] as int + 1, Pow(n - 1)) == Times(s[lo + n - 1] as int, Pow(n - 1)) + Pow(n - 1)
  {
    VSnoc(s, lo, n - 1);
    VBound(s, lo, n - 1);
    TimesAdd(s[lo + n - 1] as int, 1, Pow(n - 1));
    TimesMul(1, Pow(n - 1));
  }

  /** Digits that are all zero write zero. */
  lemma {:induction false} VZero(s: seq<int64>, lo: nat, n: nat)
    requires lo + n <= |s|
    requires forall k :: lo <= k < lo + n ==> s[k] == 0
    ensures V(s, lo, n) == 0
    decreases n
  {
    if n > 0 {
      VZero(s, lo + 1, n - 1);
    }
  }

  /** Two runs of n digits in range write the same number only if they are the same digits. */
  lemma {:induction false} VUnique(s: seq<int64>, lo: nat, t: seq<int64>, lo': nat, n: nat)
    requires lo + n <= |s| && lo' + n <= |t| && AllDigits(s, lo, n) && AllDigits(t, lo', n)
    requires V(s, lo, n) == V(t, lo', n)
    ensures s[lo..lo + n] == t[lo'..lo' + n]
    decreases n
  {
    if n > 0 {
      VUnique(s, lo + 1, t, lo' + 1, n - 1);
      assert s[lo..lo + n] == [s[lo]] + s[lo + 1..lo + 1 + (n - 1)];
      assert t[lo'..lo' + n] == [t[lo']] + t[lo' + 1..lo' + 1 + (n - 1)];
    }
  }

  // ----- a bignum: a sign word followed by its digits -----

  /** A bignum is an array of words: word 0 is the sign (zero or not), the rest are the digits,
      least significant first. */
  type Bignum = array<int64>

  predicate IsBignum(s: seq<int64>) {
    1 <= |s| && AllDigits(s, 1, |s| - 1)
  }

  predicate Negative(s: seq<int64>)
    requires 1 <= |s|
  {
    s[0] != 0
  }

  /** No leading zero digit, and zero carries no sign. */
  predicate Normal(s: seq<int64>) {
    && IsBignum(s)
    && (1 < |s| ==> s[|s| - 1] != 0)
    && (|s| == 1 ==> !Negative(s))
  }

  ghost function Mag(s: seq<int64>): int
    requires 1 <= |s|
  {
    V(s, 1, |s| - 1)
  }

  ghost function IntOf(s: seq<int64>): int
    requires 1 <= |s|
  {
    if Negative(s) then -Mag(s) else Mag(s)
  }

  function Abs(x: int): nat {
    if x < 0 then -x else x
  }

  /** A normal bignum is zero exactly when it has no digits; its magnitude is then at least the
      weight of its leading digit. */
  lemma NormalMag(s: seq<int64>)
    requires Normal(s)
    ensures 0 <= Mag(s) < Pow(|s| - 1)
    ensures |s| == 1 <==> Mag(s) == 0
    ensures 1 < |s| ==> Pow(|s| - 2) <= Mag(s)
    ensures Negative(s) <==> IntOf(s) < 0
    ensures Abs(IntOf(s)) == Mag(s)
  {
    VBound(s, 1, |s| - 1);
    if 1 < |s| {
      VTop(s, 1, |s| - 1);
      TimesMono(1, s[|s| - 1] as int, Pow(|s| - 2));
      TimesMul(1, Pow(|s| - 2));
    }
  }

  /** The normal form is unique: equal integers have equal digits and equal signs. */
  lemma NormalUnique(s: seq<int64>, t: seq<int64>)
    requires Normal(s) && Normal(t) && IntOf(s) == IntOf(t)
    ensures |s| == |t| && s[1..] == t[1..] && (Negative(s) <==> Negative(t))
  {
    NormalMag(s);
    NormalMag(t);
    if |s| < |t| {
      PowMono(|s| - 1, |t| - 2);
    } else if |t| < |s| {
      PowMono(|t| - 1, |s| - 2);
    }
    VUnique(s, 1, t, 1, |s| - 1);
    assert s[1..] == s[1..1 + (|s| - 1)] && t[1..] == t[1..1 + (|t| - 1)];
  }
}
