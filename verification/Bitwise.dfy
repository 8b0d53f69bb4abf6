/** Bitwise operations on signed bignums as operations on infinite two's complement
    (vm-build/vm/bignum.cpp, bignum_bitwise_not and the pos/neg operation loops). */
module Bitwise {
  import opened Digits
  import opened Bignums
  import opened Additive
  import opened Bits
  import opened Common

  // ----- complement -----

  /** Adds one to, or takes one from, the magnitude: -x - 1 on sign and magnitude. */
  method BignumBitwiseNot(x: Bignum) returns (r: Bignum)
    requires Normal(x[..])
    ensures fresh(r) && Normal(r[..]) && IntOf(r[..]) == -IntOf(x[..]) - 1
  {
    var negative := x[0] != 0;
    ghost var step := if negative then -1 else 1;
    var y := AllotBignum(x.Length - 1, !negative);
    var scan, carry := StepDigits(x, y, negative);
    CopyColumns(x, y, scan, if carry then step else 0, step);
    NormalMag(x[..]);
    if carry {
      TimesMul(step, Pow(x.Length - 1));
      NoBorrowOut(y[..], x[..], step);
      r := GrowByOne(y);
    } else {
      TimesMul(0, Pow(x.Length - 1));
      r := BignumTrim(y);
    }
  }

  /** A carry out of the top becomes a new digit. */
  method GrowByOne(y: Bignum) returns (r: Bignum)
    requires IsBignum(y[..])
    ensures fresh(r) && Normal(r[..]) && Negative(r[..]) == Negative(y[..])
    ensures Mag(r[..]) == Mag(y[..]) + Pow(y.Length - 1)
  {
    r := AllotBignum(y.Length, y[0] != 0);
    DestructiveCopy(y, r);
    ghost var copied := r[..];
    r[y.Length] := 1;
    assert r[..][1..|y[..]|] == copied[1..|y[..]|] == y[..][1..];
    CopyMag(y[..], r[..]);
    VSnoc(r[..], 1, y.Length - 1);
    TimesMul(1, Pow(y.Length - 1));
  }

  /** Only adding can carry out of the top: taking one from a non-zero magnitude cannot borrow. */
  lemma NoBorrowOut(y: seq<int64>, x: seq<int64>, step: int)
    requires Normal(x) && |y| == |x| && AllDigits(y, 1, |y| - 1) && (step == 1 || step == -1)
    requires Negative(x) <==> step == -1
    requires V(y, 1, |x| - 1) + step * Pow(|x| - 1) == Mag(x) + step
    ensures step == 1
  {
    NormalMag(x);
    VBound(y, 1, |x| - 1);
  }

  /** Runs the step up through digits that wrap around. */
  method StepDigits(x: Bignum, y: Bignum, negative: bool) returns (scan: nat, carry: bool)
    requires IsBignum(x[..]) && y.Length == x.Length && y != x
    modifies y
    ensures y[0] == old(y[0]) && 1 <= scan <= x.Length && (carry ==> scan == x.Length)
    ensures var step := if negative then -1 else 1;
      Summed(y[..], scan - 1, if carry then step else 0, V(x[..], 1, scan - 1) + step)
  {
    ghost var step := if negative then -1 else 1;
    scan := 1;
    carry := true;
    TimesMul(step, Pow(0));
    while carry && scan < x.Length
      invariant 1 <= scan <= x.Length && y[0] == old(y[0])
      invariant Summed(y[..], scan - 1, if carry then step else 0, V(x[..], 1, scan - 1) + step)
      decreases x.Length - scan
    {
      ghost var before := y[..];
      var digit;
      if negative {
        if x[scan] == 0 {
          digit := RADIX - 1;
        } else {
          digit := x[scan] - 1;
          carry := false;
        }
      } else {
        if x[scan] == RADIX - 1 {
          digit := 0;
        } else {
          digit := x[scan] + 1;
          carry := false;
        }
      }
      y[scan] := digit;
      NextCarry(before, y[..], scan - 1, digit, x[..], step, step, if carry then step else 0);
      scan := scan + 1;
    }
  }

  // ----- the three loops -----

  /** The machine operation on two digits. */
  function DigitOp(op: Op, a: int64, b: int64): (r: int64)
    requires IsDigit(a) && IsDigit(b)
    ensures IsDigit(r) && r as int == BitOp(op, a as int, b as int)
  {
    Pow2Radix();
    BitOpBound(op, a as int, b as int, DIGIT_LENGTH);
    BitOp(op, a as int, b as int) as int64
  }

  /** Digit n of a magnitude, zero beyond its end. */
  function DigitAt(s: seq<int64>, n: nat): int64
    requires 1 <= |s|
  {
    if 1 + n < |s| then s[1 + n] else 0
  }

  /** The value of the n low digits of a magnitude padded with zeros. */
  ghost function Low(s: seq<int64>, n: nat): int
    requires 1 <= |s|
  {
    if n <= |s| - 1 then V(s, 1, n) else Mag(s)
  }

  lemma LowSnoc(s: seq<int64>, n: nat)
    requires IsBignum(s)
    ensures Low(s, n + 1) == Low(s, n) + Times(DigitAt(s, n) as int, Pow(n))
  {
    TimesMul(0, Pow(n));
    if n + 1 <= |s| - 1 {
      VSnoc(s, 1, n);
    }
  }

  /** Digit n of an operand as the loops read it: plain, or complemented with a carry. */
  method Operand(s: Bignum, n: nat, complement: bool, carry0: int64, ghost low: int) returns (digit: int64,
                 carry: int64)
    requires IsBignum(s[..]) && 0 <= carry0 <= 1
    requires OperandLow(s[..], n, complement, carry0 as int, low)
    ensures IsDigit(digit) && 0 <= carry <= 1
    ensures OperandLow(s[..], n + 1, complement, carry as int, low + Times(digit as int, Pow(n)))
  {
    var plain := if 1 + n < s.Length then s[1 + n] else 0;
    LowSnoc(s[..], n);
    if !complement {
      NextLow(low, plain as int, n);
      return plain, carry0;
    }
    digit := (DIGIT_MAX - plain) + carry0;
    carry := 0;
    if digit >= RADIX {
      digit := digit - RADIX;
      carry := 1;
    }
    NextLow(low, digit as int, n);
    ComplementColumn(n, plain as int, carry0 as int, digit as int, carry as int);
  }

  lemma NextLow(low: int, digit: int, n: nat)
    requires 0 <= low < Pow(n) && 0 <= digit < B
    ensures 0 <= low + Times(digit, Pow(n)) < Pow(n + 1)
  {
    TimesMono(0, digit, Pow(n));
    TimesMono(digit, B - 1, Pow(n));
    TimesMul(0, Pow(n));
    TimesMul(B - 1, Pow(n));
  }

  lemma ComplementColumn(n: nat, plain: int, c: int, digit: int, c': int)
    requires digit + c' * B == B - 1 - plain + c
    ensures Times(digit, Pow(n)) + Times(c', Pow(n + 1))
         == Pow(n + 1) - Pow(n) - Times(plain, Pow(n)) + Times(c, Pow(n))
  {
    Column(n, digit, c', B - 1, -plain, c);
    TimesNegate(plain, Pow(n));
    TimesMul(B - 1, Pow(n));
  }

  /** `low` is the number that the n low digits of the operand stand for as the loop reads them: its
      magnitude, or its complement modulo the radix power, with the carry still to come. */
  ghost predicate OperandLow(s: seq<int64>, n: nat, complement: bool, carry: int, low: int) {
    && 1 <= |s| && 0 <= low < Pow(n)
    && if complement then low + Times(carry, Pow(n)) == Pow(n) - Low(s, n) else low == Low(s, n)
  }

  /** The loop shared by the three cases: reads a digit of each operand, complementing the negative
      ones, and stores the operation on them. */
  method OperateDigits(op: Op, x: Bignum, y: Bignum, negX: bool, negY: bool, r: Bignum)
    returns (ghost lowX: nat, ghost lowY: nat, ghost carryX: int, ghost carryY: int)
    requires IsBignum(x[..]) && IsBignum(y[..]) && r != x && r != y && 1 <= r.Length
    modifies r
    ensures r[0] == old(r[0]) && IsBignum(r[..])
    ensures 0 <= carryX <= 1 && OperandLow(x[..], r.Length - 1, negX, carryX, lowX)
    ensures 0 <= carryY <= 1 && OperandLow(y[..], r.Length - 1, negY, carryY, lowY)
    ensures Mag(r[..]) == BitOp(op, lowX, lowY)
  {
    var scan := 0;
    var carry1: int64, carry2: int64 := 1, 1;
    lowX, lowY := 0, 0;
    TimesMul(1, Pow(0));
    ghost var xs, ys := x[..], y[..];
    while scan < r.Length - 1
      invariant 0 <= scan <= r.Length - 1 && r[0] == old(r[0]) && x[..] == xs && y[..] == ys
      invariant 0 <= carry1 <= 1 && OperandLow(xs, scan, negX, carry1 as int, lowX)
      invariant 0 <= carry2 <= 1 && OperandLow(ys, scan, negY, carry2 as int, lowY)
      invariant AllDigits(r[..], 1, scan) && V(r[..], 1, scan) == BitOp(op, lowX, lowY)
    {
      var digit1, digit2;
      ghost var before, lx, ly := r[..], lowX, lowY;
      digit1, carry1 := Operand(x, scan, negX, carry1, lowX);
      digit2, carry2 := Operand(y, scan, negY, carry2, lowY);
      lowX, lowY := lowX + Times(digit1 as int, Pow(scan)), lowY + Times(digit2 as int, Pow(scan));
      r[1 + scan] := DigitOp(op, digit1, digit2);
      StoreOperated(before, r[..], scan, op, lx, ly, digit1, digit2);
      scan := scan + 1;
    }
    carryX, carryY := carry1 as int, carry2 as int;
  }

  lemma StoreOperated(r: seq<int64>, r': seq<int64>, n: nat, op: Op, lowX: nat, lowY: nat, d1: int64, d2: int64)
    requires n + 1 < |r| && IsDigit(d1) && IsDigit(d2) && r' == r[n + 1 := DigitOp(op, d1, d2)]
    requires AllDigits(r, 1, n) && lowX < Pow(n) && lowY < Pow(n) && V(r, 1, n) == BitOp(op, lowX, lowY)
    ensures 0 <= lowX + Times(d1 as int, Pow(n)) && 0 <= lowY + Times(d2 as int, Pow(n))
    ensures AllDigits(r', 1, n + 1)
    ensures V(r', 1, n + 1) == BitOp(op, lowX + Times(d1 as int, Pow(n)), lowY + Times(d2 as int, Pow(n)))
  {
    assert r[1..1 + n] == r'[1..1 + n];
    VSame(r, 1, r', 1, n);
    VSnoc(r', 1, n);
    PowPow2(n);
    BitOpSplit(op, lowX, lowY, d1 as int, d2 as int, DIGIT_LENGTH * n);
    forall k | 1 <= k < n + 2 ensures IsDigit(r'[k]) {
      assert k < n + 1 ==> r'[k] == r[k];
    }
  }

  /** Once all digits are read, an operand's pattern is the number modulo the radix power. */
  lemma OperandPattern(s: seq<int64>, n: nat, carry: int, low: int)
    requires Normal(s) && |s| - 1 <= n && 0 <= carry <= 1
    requires OperandLow(s, n, Negative(s), carry, low)
    ensures low == Pattern(IntOf(s), DIGIT_LENGTH * n)
    ensures -(Pow2(DIGIT_LENGTH * n) as int) < IntOf(s) < Pow2(DIGIT_LENGTH * n)
  {
    NormalMag(s);
    PowMono(|s| - 1, n);
    PowPow2(n);
    if Negative(s) {
      NoCarryLeft(low, carry, Pow(n), Mag(s));
    }
  }

  lemma NoCarryLeft(low: int, carry: int, p: nat, m: int)
    requires 0 <= low && 0 <= carry <= 1 && 0 < m && low + Times(carry, p) == p - m
    ensures low == p - m
  {
    TimesMul(carry, p);
  }

  /** Replaces the magnitude by its complement modulo the radix power. */
  method BignumNegateMagnitude(b: Bignum)
    requires IsBignum(b[..])
    modifies b
    ensures IsBignum(b[..]) && b[0] == old(b[0])
    ensures Mag(b[..]) == if old(Mag(b[..])) == 0 then 0 else Pow(b.Length - 1) - old(Mag(b[..]))
  {
    var carry: int64 := 1;
    var scan := 0;
    ghost var b0 := b[..];
    TimesMul(1, Pow(0));
    while scan < b.Length - 1
      invariant 0 <= scan <= b.Length - 1 && 0 <= carry <= 1 && b[0] == b0[0]
      invariant forall k :: 1 + scan <= k < b.Length ==> b[k] == b0[k]
      invariant AllDigits(b[..], 1, scan)
      invariant V(b[..], 1, scan) + Times(carry as int, Pow(scan)) == Pow(scan) - V(b0, 1, scan)
    {
      ghost var before, c := b[..], carry;
      var digit := (DIGIT_MAX - b[1 + scan]) + carry;
      carry := 0;
      if digit >= RADIX {
        digit := digit - RADIX;
        carry := 1;
      }
      b[1 + scan] := digit;
      assert before[1..1 + scan] == b[..][1..1 + scan];
      VSame(before, 1, b[..], 1, scan);
      VSnoc(b[..], 1, scan);
      VSnoc(b0, 1, scan);
      ComplementColumn(scan, b0[1 + scan] as int, c as int, digit as int, carry as int);
      scan := scan + 1;
    }
    VBound(b[..], 1, scan);
    VBound(b0, 1, scan);
    TimesMul(carry as int, Pow(scan));
  }

  // ----- the operations -----

  /** A pattern with the sign that the operation gives, as a signed bignum; a negative result whose
      pattern is zero has no room for its magnitude and comes out as zero. */
  method FinishOperation(r0: Bignum, ghost negative: bool) returns (r: Bignum)
    requires IsBignum(r0[..]) && (Negative(r0[..]) <==> negative) && (r0.Length == 1 ==> !negative)
    modifies r0
    ensures (r == r0 || fresh(r)) && Normal(r[..])
    ensures IntOf(r[..]) == if negative && old(Mag(r0[..])) == 0 then 0
                            else Unpattern(old(Mag(r0[..])), DIGIT_LENGTH * (r0.Length - 1), negative)
  {
    PowPow2(r0.Length - 1);
    if r0[0] != 0 {
      BignumNegateMagnitude(r0);
    }
    r := BignumTrim(r0);
  }

  /** The sign of a result. */
  function ResultNegative(op: Op, negX: bool, negY: bool): bool {
    OpBit(op, if negX then 1 else 0, if negY then 1 else 0) == 1
  }

  /** The one case that goes wrong: xor of a non-negative x and a negative y with x + |y| equal to the
      radix power of the digits allotted, so that the two patterns are the same. */
  ghost predicate XorOverflows(op: Op, x: seq<int64>, y: seq<int64>)
    requires 1 <= |x| && 1 <= |y|
  {
    op == Xor && Negative(x) != Negative(y) &&
    (if Negative(y) then Mag(x) + Mag(y) == Pow(Max(|x| - 1, |y|)) else Mag(x) + Mag(y) == Pow(Max(|y| - 1, |x|)))
  }

  /** The digits that the three cases allot: one more than a negative operand has. */
  function Allotted(x: seq<int64>, y: seq<int64>): nat
    requires 1 <= |x| && 1 <= |y|
  {
    Max(if Negative(x) then |x| else |x| - 1, if Negative(y) then |y| else |y| - 1)
  }

  /** The three cases of signs, with the digits and the sign that each allots. */
  method BitwiseOp(op: Op, x: Bignum, y: Bignum) returns (r: Bignum)
    requires Normal(x[..]) && Normal(y[..])
    ensures fresh(r) && Normal(r[..])
    ensures !XorOverflows(op, x[..], y[..]) ==> IsBitwise(op, IntOf(x[..]), IntOf(y[..]), IntOf(r[..]))
    ensures XorOverflows(op, x[..], y[..]) ==> IntOf(r[..]) == 0
  {
    var negX, negY := x[0] != 0, y[0] != 0;
    var lengthX, lengthY := if negX then x.Length else x.Length - 1, if negY then y.Length else y.Length - 1;
    var n := if lengthX > lengthY then lengthX else lengthY;
    var negative := ResultNegative(op, negX, negY);
    r := AllotBignum(n, negative);
    ghost var lowX, lowY, carryX, carryY := OperateDigits(op, x, y, negX, negY, r);
    OperationMeaning(op, x[..], y[..], n, lowX, lowY, carryX, carryY);
    r := FinishOperation(r, negative);
  }

  lemma OperationMeaning(op: Op, x: seq<int64>, y: seq<int64>, n: nat, p: nat, q: nat, carryX: int, carryY: int)
    requires Normal(x) && Normal(y) && n == Allotted(x, y)
    requires 0 <= carryX <= 1 && OperandLow(x, n, Negative(x), carryX, p)
    requires 0 <= carryY <= 1 && OperandLow(y, n, Negative(y), carryY, q)
    ensures var negative := ResultNegative(op, Negative(x), Negative(y));
      && IsBitwise(op, IntOf(x), IntOf(y), Unpattern(BitOp(op, p, q), DIGIT_LENGTH * n, negative))
      && (negative && BitOp(op, p, q) == 0 <==> XorOverflows(op, x, y))
  {
    OperandPattern(x, n, carryX, p);
    OperandPattern(y, n, carryY, q);
    PatternOp(op, IntOf(x), IntOf(y), DIGIT_LENGTH * n);
    NormalMag(x);
    NormalMag(y);
    if ResultNegative(op, Negative(x), Negative(y)) {
      if op == Xor {
        XorZero(p, q);
        PowPow2(n);
      } else {
        TopBitStays(op, x, y, n, p, q);
      }
    }
  }

  lemma {:induction false} XorZero(p: nat, q: nat)
    ensures BitOp(Xor, p, q) == 0 <==> p == q
    decreases p + q
  {
    if p != 0 || q != 0 {
      XorZero(p / 2, q / 2);
    }
  }

  /** The pattern of a negative operand has its top bit set, because a digit more was allotted. */
  lemma NegativeTopBit(s: seq<int64>, n: nat)
    requires Normal(s) && Negative(s) && |s| <= n
    ensures BitAt(Pattern(IntOf(s), DIGIT_LENGTH * n), DIGIT_LENGTH * n - 1) == 1
  {
    NormalMag(s);
    var k := DIGIT_LENGTH * n;
    PowMono(|s| - 1, n - 1);
    PowPow2(n - 1);
    Pow2Mono(DIGIT_LENGTH * (n - 1), k - 1);
    BitTop(Pattern(IntOf(s), k), k - 1);
  }

  lemma TopBitStays(op: Op, x: seq<int64>, y: seq<int64>, n: nat, p: nat, q: nat)
    requires Normal(x) && Normal(y) && n == Allotted(x, y) && op != Xor
    requires p == Pattern(IntOf(x), DIGIT_LENGTH * n) && q == Pattern(IntOf(y), DIGIT_LENGTH * n)
    requires ResultNegative(op, Negative(x), Negative(y))
    ensures BitOp(op, p, q) != 0
  {
    var k := DIGIT_LENGTH * n;
    if Negative(x) {
      NegativeTopBit(x, n);
    }
    if Negative(y) {
      NegativeTopBit(y, n);
    }
    BitOpBits(op, p, q, k - 1);
    BitSign(0, 0, k - 1);
  }

  method BignumBitwiseAnd(x: Bignum, y: Bignum) returns (r: Bignum)
    requires Normal(x[..]) && Normal(y[..])
    ensures fresh(r) && Normal(r[..]) && IsBitwise(And, IntOf(x[..]), IntOf(y[..]), IntOf(r[..]))
  {
    r := BitwiseOp(And, x, y);
  }

  method BignumBitwiseIor(x: Bignum, y: Bignum) returns (r: Bignum)
    requires Normal(x[..]) && Normal(y[..])
    ensures fresh(r) && Normal(r[..]) && IsBitwise(Ior, IntOf(x[..]), IntOf(y[..]), IntOf(r[..]))
  {
    r := BitwiseOp(Ior, x, y);
  }

  /** The exclusive or is right exactly when it does not overflow. */
  method BignumBitwiseXor(x: Bignum, y: Bignum) returns (r: Bignum)
    requires Normal(x[..]) && Normal(y[..])
    ensures fresh(r) && Normal(r[..])
    ensures IsBitwise(Xor, IntOf(x[..]), IntOf(y[..]), IntOf(r[..])) <==> !XorOverflows(Xor, x[..], y[..])
    ensures XorOverflows(Xor, x[..], y[..]) ==> IntOf(r[..]) == 0
  {
    r := BitwiseOp(Xor, x, y);
    if XorOverflows(Xor, x[..], y[..]) {
      ZeroIsWrong(x[..], y[..]);
    }
  }

  /** Zero is never the exclusive or of numbers of different signs. */
  lemma ZeroIsWrong(x: seq<int64>, y: seq<int64>)
    requires Normal(x) && Normal(y) && Negative(x) != Negative(y)
    ensures !IsBitwise(Xor, IntOf(x), IntOf(y), 0)
  {
    NormalMag(x);
    NormalMag(y);
    var n := Max(|x|, |y|);
    var k := DIGIT_LENGTH * n;
    PowMono(|x| - 1, n);
    PowMono(|y| - 1, n);
    PowPow2(n);
    BitSign(IntOf(x), k, k);
    BitSign(IntOf(y), k, k);
    BitSign(0, k, k);
  }

  /** A pair on which the overflow happens: all ones in two digits, xor minus one. */
  lemma XorOverflowExample()
    ensures var x: seq<int64>, y: seq<int64> := [0, DIGIT_MAX, DIGIT_MAX], [1, 1];
      Normal(x) && Normal(y) && IntOf(y) == -1 && XorOverflows(Xor, x, y)
  {
    var x: seq<int64>, y: seq<int64> := [0, DIGIT_MAX, DIGIT_MAX], [1, 1];
    assert V(x, 1, 2) == DIGIT_MAX as int + B * V(x, 2, 1);
    assert V(x, 2, 1) == DIGIT_MAX as int + B * V(x, 3, 0);
    assert V(y, 1, 1) == 1 + B * V(y, 2, 0);
    assert Pow(2) == B * Pow(1) && Pow(1) == B * Pow(0);
  }
}
