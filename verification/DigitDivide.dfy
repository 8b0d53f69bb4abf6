/** Division of two digits by one normalised digit, built from half digits
    (vm-build/vm/bignum.cpp, bignum_digit_divide and bignum_digit_divide_subtract). */
module DigitDivide {
  import opened Digits

  /** Three consecutive half digits as a number. */
  function Three(a: int64, b: int64, c: int64): int {
    (a as int * R + b as int) * R + c as int
  }

  /** One column of multiply-and-subtract on half digits. */
  method MulSub(v: int64, u: int64, guess: int64, carryIn: int64) returns (u': int64, carry: int64)
    requires IsHalf(v) && IsHalf(u) && IsHalf(guess) && 0 <= carryIn <= RADIX_ROOT
    ensures IsHalf(u') && 0 <= carry <= RADIX_ROOT
    ensures u' as int - carry as int * R == u as int - v as int * guess as int - carryIn as int
  {
    MulBound(v as int, guess as int, R - 1, R - 1);
    var product := v * guess + carryIn;
    var diff := u - HdLow(product);
    if diff < 0 {
      u' := diff + RADIX_ROOT;
      carry := HdHigh(product) + 1;
    } else {
      u' := diff;
      carry := HdHigh(product);
    }
  }

  /** One column of the add-back on half digits. */
  method AddHalf(v: int64, u: int64, carryIn: int64) returns (u': int64, carry: int64)
    requires IsHalf(v) && IsHalf(u) && 0 <= carryIn <= 1
    ensures IsHalf(u') && 0 <= carry <= 1
    ensures u' as int + carry as int * R == u as int + v as int + carryIn as int
  {
    var sum := v + u + carryIn;
    if sum < RADIX_ROOT {
      u' := sum;
      carry := 0;
    } else {
      u' := sum - RADIX_ROOT;
      carry := 1;
    }
  }

  /** Subtracts guess times the divisor from the three half digits at j, and adds the divisor back
      once if that went below zero.  After an add-back the top half digit holds 2^62 and not 0: the
      source adds the full radix where the half radix is meant, and never reduces. */
  method DigitDivideSubtract(v1: int64, v2: int64, guess: int64, u: array<int64>, j: nat) returns (q: int64)
    requires j + 2 < u.Length && IsHalf(u[j]) && IsHalf(u[j + 1]) && IsHalf(u[j + 2])
    requires IsHalf(v1) && IsHalf(v2) && IsHalf(guess)
    requires Times(HdCons(v1, v2) as int, guess as int) <= Three(u[j], u[j + 1], u[j + 2]) + HdCons(v1, v2) as int
    requires Three(u[j], u[j + 1], u[j + 2]) < Times(HdCons(v1, v2) as int, guess as int) + HdCons(v1, v2) as int
    modifies u
    ensures forall k :: 0 <= k < u.Length && k != j && k != j + 1 && k != j + 2 ==> u[k] == old(u[k])
    ensures 0 <= q && IsHalf(u[j + 1]) && IsHalf(u[j + 2])
    ensures Times(HdCons(v1, v2) as int, q as int) + HdCons(u[j + 1], u[j + 2]) as int
         == old(Three(u[j], u[j + 1], u[j + 2]))
    ensures HdCons(u[j + 1], u[j + 2]) < HdCons(v1, v2)
    ensures q == guess <==> Times(HdCons(v1, v2) as int, guess as int) <= old(Three(u[j], u[j + 1], u[j + 2]))
    ensures (q == guess && u[j] == 0) || (q == guess - 1 && u[j] == RADIX)
  {
    ghost var v, u3 := HdCons(v1, v2) as int, Three(u[j], u[j + 1], u[j + 2]);
    ghost var product := Times(HdCons(v1, v2) as int, guess as int);
    SplitProduct(v1 as int, v2 as int, guess as int);
    TimesMul(v1 as int, guess as int);
    TimesMul(v2 as int, guess as int);
    var carry;
    u[j + 2], carry := MulSub(v2, u[j + 2], guess, 0);
    u[j + 1], carry := MulSub(v1, u[j + 1], guess, carry);
    assert HdCons(u[j + 1], u[j + 2]) as int + (u[j] as int - carry as int) * B == u3 - product;
    q := SettleHalves(v1, v2, guess, u, j, carry);
    assert q == guess - 1 ==> guess > 0 && product == Times(v, q as int) + v;
  }

  /** The two ways the subtraction can end: clean, or with a borrow that the add-back repays. */
  method SettleHalves(v1: int64, v2: int64, guess: int64, u: array<int64>, j: nat, carry: int64) returns (q: int64)
    requires j + 2 < u.Length && IsHalf(u[j]) && IsHalf(u[j + 1]) && IsHalf(u[j + 2])
    requires IsHalf(v1) && IsHalf(v2) && IsHalf(guess) && 0 <= carry <= RADIX_ROOT
    requires -1 <= u[j] - carry <= 0
    requires u[j] < carry ==> B <= HdCons(u[j + 1], u[j + 2]) as int + HdCons(v1, v2) as int
    modifies u
    ensures forall k :: 0 <= k < u.Length && k != j && k != j + 1 && k != j + 2 ==> u[k] == old(u[k])
    ensures IsHalf(u[j + 1]) && IsHalf(u[j + 2])
    ensures q == if old(u[j]) == carry then guess else guess - 1
    ensures u[j] == if old(u[j]) == carry then 0 else RADIX
    ensures HdCons(u[j + 1], u[j + 2]) as int == old(HdCons(u[j + 1], u[j + 2])) as int
          + (if old(u[j]) == carry then 0 else HdCons(v1, v2) as int - B)
  {
    if carry == 0 {
      return guess;
    }
    var diff := u[j] - carry;
    if diff < 0 {
      u[j] := diff + RADIX;
    } else {
      u[j] := diff;
      return guess;
    }
    var sum;
    u[j + 2], sum := AddHalf(v2, u[j + 2], 0);
    u[j + 1], sum := AddHalf(v1, u[j + 1], sum);
    if sum == 1 {
      u[j] := u[j] + 1;
    }
    q := guess - 1;
  }

  lemma SplitProduct(v1: int, v2: int, g: nat)
    ensures Times(v1 * R + v2, g) == R * Times(v1, g) + Times(v2, g)
  {
    TimesAdd(R * v1, v2, g);
    TimesScale(R, v1, g);
  }

  /** The guess from the leading half digits: never below the true quotient digit. */
  method FirstGuess(uj: int64, uj1: int64, uj2: int64, v1: int64, v2: int64) returns (guess: int64, comparand: int64)
    requires IsHalf(uj) && IsHalf(uj1) && IsHalf(uj2) && IsHalf(v1) && IsHalf(v2) && 0 < v1
    requires uj <= v1 && Three(uj, uj1, uj2) < R * HdCons(v1, v2) as int
    ensures IsHalf(guess) && 0 <= comparand
    ensures comparand as int == Three(uj, uj1, uj2) - R * Times(v1 as int, guess as int)
    ensures Three(uj, uj1, uj2) < Times(HdCons(v1, v2) as int, guess as int) + HdCons(v1, v2) as int
  {
    if uj != v1 {
      var ujUj1 := HdCons(uj, uj1);
      guess := ujUj1 / v1;
      QuotientBound(ujUj1 as int, v1 as int, guess as int, (ujUj1 % v1) as int);
      comparand := HdCons(ujUj1 % v1, uj2);
    } else {
      guess := RADIX_ROOT - 1;
      TimesMul(v1 as int, RADIX_ROOT as int - 1);
      TimesMul(v2 as int, RADIX_ROOT as int - 1);
      comparand := HdCons(uj1 + v1, uj2);
    }
    SplitProduct(v1 as int, v2 as int, guess as int);
    TimesMono(0, v2 as int, guess as int);
    TimesMul(0, guess as int);
  }

  lemma QuotientBound(n: int, d: int, q: int, r: int)
    requires 0 <= n < R * d && 0 < d && q == n / d && r == n % d
    ensures 0 <= q < R && 0 <= r < d && n == Times(d, q) + r
  {
    assert n == q * d + r;
    if q >= R {
      MulLe(R, q, d);
    }
    if q < 0 {
      MulLe(q, -1, d);
    }
    TimesMul(d, q);
  }

  /** Corrects the guess by the second half digit of the divisor until it is exact. */
  method Guess(uj: int64, uj1: int64, uj2: int64, v1: int64, v2: int64) returns (guess: int64)
    requires IsHalf(uj) && IsHalf(uj1) && IsHalf(uj2) && IsHalf(v1) && IsHalf(v2) && 0 < v1
    requires uj <= v1 && Three(uj, uj1, uj2) < R * HdCons(v1, v2) as int
    ensures IsHalf(guess)
    ensures Times(HdCons(v1, v2) as int, guess as int) <= Three(uj, uj1, uj2)
    ensures Three(uj, uj1, uj2) < Times(HdCons(v1, v2) as int, guess as int) + HdCons(v1, v2) as int
  {
    ghost var u3 := Three(uj, uj1, uj2);
    var comparand;
    guess, comparand := FirstGuess(uj, uj1, uj2, v1, v2);
    SplitProduct(v1 as int, v2 as int, guess as int);
    GuessProduct(v2, guess);
    while guess * v2 > comparand
      invariant IsHalf(guess) && 0 <= comparand
      invariant guess as int * v2 as int == Times(v2 as int, guess as int) <= (R - 1) * (R - 1)
      invariant comparand as int == u3 - R * Times(v1 as int, guess as int)
      invariant u3 < R * Times(v1 as int, guess as int) + Times(v2 as int, guess as int) + HdCons(v1, v2) as int
      decreases guess
    {
      guess := guess - 1;
      comparand := comparand + v1 * RADIX_ROOT;
      GuessProduct(v2, guess);
      if comparand >= RADIX {
        break;
      }
    }
    SplitProduct(v1 as int, v2 as int, guess as int);
  }

  lemma GuessProduct(v2: int64, guess: int64)
    requires IsHalf(v2) && IsHalf(guess)
    ensures guess as int * v2 as int == Times(v2 as int, guess as int)
    ensures 0 <= guess as int * v2 as int <= (R - 1) * (R - 1)
  {
    TimesMul(v2 as int, guess as int);
    MulBound(guess as int, v2 as int, R - 1, R - 1);
  }

  /** One quotient half digit, in place on the three half digits at j. */
  method BddStep(u: array<int64>, j: nat, v1: int64, v2: int64) returns (q: int64)
    requires j + 2 < u.Length && IsHalf(u[j]) && IsHalf(u[j + 1]) && IsHalf(u[j + 2])
    requires IsHalf(v1) && IsHalf(v2) && 0 < v1
    requires HdCons(u[j], u[j + 1]) < HdCons(v1, v2)
    modifies u
    ensures forall k :: 0 <= k < u.Length && k != j && k != j + 1 && k != j + 2 ==> u[k] == old(u[k])
    ensures IsHalf(q) && IsHalf(u[j + 1]) && IsHalf(u[j + 2]) && u[j] == 0
    ensures Times(HdCons(v1, v2) as int, q as int) + HdCons(u[j + 1], u[j + 2]) as int
         == old(Three(u[j], u[j + 1], u[j + 2]))
    ensures HdCons(u[j + 1], u[j + 2]) < HdCons(v1, v2)
  {
    var guess := Guess(u[j], u[j + 1], u[j + 2], v1, v2);
    // The guess is exact, so the add-back inside is never taken.
    q := DigitDivideSubtract(v1, v2, guess, u, j);
  }

  /** Divides uh * 2^62 + ul by v; the high digit must be below the normalised divisor. */
  method BignumDigitDivide(uh: int64, ul: int64, v: int64) returns (q: int64, r: int64)
    requires IsDigit(uh) && IsDigit(ul) && IsDigit(v) && RADIX / 2 <= v && uh < v
    ensures IsDigit(q) && 0 <= r < v
    ensures uh as int * B + ul as int == Times(v as int, q as int) + r as int
  {
    if uh == 0 {
      if ul < v {
        return 0, ul;
      } else if ul == v {
        return 1, 0;
      }
    }
    var u := new int64[4];
    u[0] := HdHigh(uh);
    u[1] := HdLow(uh);
    u[2] := HdHigh(ul);
    u[3] := HdLow(ul);
    var v1, v2 := HdHigh(v), HdLow(v);
    assert HdCons(v1, v2) == v;
    var q1 := BddStep(u, 0, v1, v2);
    var q2 := BddStep(u, 1, v1, v2);
    q := HdCons(q1, q2);
    r := HdCons(u[2], u[3]);
    HalfQuotients(v as int, q1 as int, q2 as int);
  }

  lemma HalfQuotients(v: int, q1: nat, q2: nat)
    ensures Times(v, q1 * R + q2) == R * Times(v, q1) + Times(v, q2)
  {
    TimesMul(v, q1);
    TimesMul(v, q2);
    TimesMul(v, q1 * R + q2);
    assert v * (q1 * R + q2) == R * (v * q1) + v * q2;
  }
}
