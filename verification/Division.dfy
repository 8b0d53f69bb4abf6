/** Quotient and remainder of signed bignums (vm-build/vm/bignum.cpp, Division): the loops for a small,
    a medium and a large denominator, and the sign dispatch in front of them. */
module Division {
  import opened Digits
  import opened Bignums
  import opened Multiply
  import opened DigitDivide
  import opened LongDivide

  // ----- dividing downwards, one digit at a time -----

  /** Digits scan and above of b, times d, plus r, are digits scan and above of b0. */
  ghost predicate DividedAbove(b0: seq<int64>, b: seq<int64>, scan: nat, d: nat, r: int)
    requires 1 <= scan <= |b0| == |b|
  {
    && V(b0, scan, |b0| - scan) == Times(V(b, scan, |b0| - scan), d) + r
    && AllDigits(b, scan, |b0| - scan)
  }

  lemma NextDown(b0: seq<int64>, b: seq<int64>, b': seq<int64>, scan: nat, digit: int64, d: nat, r: int, r': int)
    requires 1 <= scan < |b0| == |b| && DividedAbove(b0, b, scan + 1, d, r)
    requires b' == b[scan := digit] && IsDigit(digit)
    requires b0[scan] as int + B * r == Times(digit as int, d) + r'
    ensures DividedAbove(b0, b', scan, d, r')
  {
    var n := |b0| - (scan + 1);
    assert b[scan + 1..scan + 1 + n] == b'[scan + 1..scan + 1 + n];
    VSame(b, scan + 1, b', scan + 1, n);
    var high := V(b', scan + 1, n);
    TimesAdd(digit as int, B * high, d);
    TimesScale(B, high, d);
    forall k | scan <= k < |b'| ensures IsDigit(b'[k]) {
      assert k > scan ==> b'[k] == b[k];
    }
  }

  // ----- a denominator below the radix root -----

  /** Two half-digit divisions.  The high quotient is below the radix root because the remainder is
      below the denominator. */
  method ScaleDownStep(twoDigits: int64, denominator: int64, remainder0: int64) returns (digit: int64, remainder: int64)
    requires IsDigit(twoDigits) && 1 < denominator < RADIX_ROOT && 0 <= remainder0 < denominator
    ensures IsDigit(digit) && 0 <= remainder < denominator
    ensures twoDigits as int + B * remainder0 as int == Times(digit as int, denominator as int) + remainder as int
  {
    var numerator := HdCons(remainder0, HdHigh(twoDigits));
    var quotientHigh := numerator / denominator;
    QuotientBound(numerator as int, denominator as int, quotientHigh as int, (numerator % denominator) as int);
    numerator := HdCons(numerator % denominator, HdLow(twoDigits));
    var quotientLow := numerator / denominator;
    QuotientBound(numerator as int, denominator as int, quotientLow as int, (numerator % denominator) as int);
    digit := HdCons(quotientHigh, quotientLow);
    remainder := numerator % denominator;
    TimesFlip(denominator as int, quotientHigh as int);
    TimesFlip(denominator as int, quotientLow as int);
    TimesAdd(R * quotientHigh as int, quotientLow as int, denominator as int);
    TimesScale(R, quotientHigh as int, denominator as int);
  }

  lemma TimesFlip(a: nat, b: nat)
    ensures Times(a, b) == Times(b, a)
  {
    TimesMul(a, b);
    TimesMul(b, a);
  }

  method DestructiveScaleDown(b: Bignum, denominator: int64) returns (remainder: int64)
    requires IsBignum(b[..]) && 1 < denominator < RADIX_ROOT
    modifies b
    ensures IsBignum(b[..]) && b[0] == old(b[0]) && 0 <= remainder < denominator
    ensures old(Mag(b[..])) == Times(Mag(b[..]), denominator as int) + remainder as int
  {
    remainder := 0;
    var scan := b.Length;
    ghost var b0 := b[..];
    TimesMul(0, denominator as int);
    while 1 < scan
      invariant 1 <= scan <= b.Length && 0 <= remainder < denominator
      invariant b[..scan] == b0[..scan]
      invariant DividedAbove(b0, b[..], scan, denominator as int, remainder as int)
    {
      scan := scan - 1;
      assert b[scan] == b[..scan + 1][scan] == b0[..scan + 1][scan] == b0[scan];
      ghost var before, r := b[..], remainder;
      var digit;
      digit, remainder := ScaleDownStep(b[scan], denominator, remainder);
      b[scan] := digit;
      NextDown(b0, before, b[..], scan, digit, denominator as int, r as int, remainder as int);
      assert b[..scan] == before[..scan] == before[..scan + 1][..scan] == b0[..scan + 1][..scan] == b0[..scan];
    }
    assert b[0] == b[..scan][0] == b0[..scan][0];
  }

  method DivideUnsignedSmallDenominator(numerator: Bignum, denominator: int64, qNegative: bool, rNegative: bool)
    returns (q: Bignum, r: Bignum)
    requires Normal(numerator[..]) && numerator.Length > 1 && 1 < denominator < RADIX_ROOT
    ensures Normal(q[..]) && Normal(r[..]) && fresh(q) && fresh(r)
    ensures IntOf(q[..]) == Signed(qNegative, Mag(numerator[..]) / denominator as int)
    ensures IntOf(r[..]) == Signed(rNegative, Mag(numerator[..]) % denominator as int)
  {
    q := BignumNewSign(numerator, qNegative);
    var rest := DestructiveScaleDown(q, denominator);
    ghost var quotient := Mag(q[..]);
    VBound(q[..], 1, q.Length - 1);
    q := BignumTrim(q);
    r := DigitToBignum(rest, rNegative);
    TimesFlip(quotient, denominator as int);
    VBound(numerator[..], 1, numerator.Length - 1);
    DivModUnique(Mag(numerator[..]), denominator as int, quotient, rest as int);
  }

  /** Quotient and remainder are fixed by their defining equation. */
  lemma DivModUnique(n: nat, d: nat, q: nat, r: nat)
    requires n == Times(d, q) + r && r < d
    ensures q == n / d && r == n % d
  {
    TimesMul(d, q);
    var q', r' := n / d, n % d;
    assert n == q' * d + r';
    if q < q' {
      MulLe(q + 1, q', d);
    } else if q' < q {
      MulLe(q' + 1, q, d);
    }
  }

  method RemainderUnsignedSmallDenominator(n: Bignum, d: int64, negative: bool) returns (r: Bignum)
    requires Normal(n[..]) && 1 < d < RADIX_ROOT
    ensures fresh(r) && Normal(r[..])
    ensures IntOf(r[..]) == Signed(negative, Mag(n[..]) % d as int)
  {
    var rest: int64 := 0;
    var scan := n.Length;
    ghost var quotient: nat := 0;
    while 1 < scan
      invariant 1 <= scan <= n.Length && 0 <= rest < d
      invariant V(n[..], scan, n.Length - scan) == Times(d as int, quotient) + rest as int
    {
      scan := scan - 1;
      ghost var digit, r0 := 0, rest;
      digit, rest := RemainderStep(n[scan], d, rest);
      JoinRemainder(d as int, quotient, digit as int);
      quotient := digit as int + B * quotient;
    }
    VBound(n[..], 1, n.Length - 1);
    DivModUnique(Mag(n[..]), d as int, quotient, rest as int);
    r := DigitToBignum(rest, negative);
  }

  /** The remainder of the two half-digit divisions; the quotient digit is not kept. */
  method RemainderStep(twoDigits: int64, d: int64, r0: int64) returns (ghost digit: int64, r: int64)
    requires IsDigit(twoDigits) && 1 < d < RADIX_ROOT && 0 <= r0 < d
    ensures IsDigit(digit) && 0 <= r < d
    ensures twoDigits as int + B * r0 as int == Times(d as int, digit as int) + r as int
  {
    r := HdCons(HdCons(r0, HdHigh(twoDigits)) % d, HdLow(twoDigits)) % d;
    ghost var high := HdCons(r0, HdHigh(twoDigits));
    QuotientBound(high as int, d as int, (high / d) as int, (high % d) as int);
    ghost var low := HdCons(high % d, HdLow(twoDigits));
    QuotientBound(low as int, d as int, (low / d) as int, (low % d) as int);
    digit := HdCons(high / d, low / d);
    HalfQuotients(d as int, (high / d) as int, (low / d) as int);
  }

  lemma JoinRemainder(d: int, quotient: nat, digit: nat)
    ensures B * Times(d, quotient) + Times(d, digit) == Times(d, digit + B * quotient)
  {
    TimesMul(d, quotient);
    TimesMul(d, digit);
    TimesMul(d, digit + B * quotient);
    assert d * (digit + B * quotient) == d * digit + B * (d * quotient);
  }

  // ----- normalisation: shifting left and right by less than a digit -----

  /** A number below l * r cut at r: the high part is below l. */
  lemma Cut(d: nat, l: nat, r: nat)
    requires 0 < r && d < l * r
    ensures 0 <= d / r < l && 0 <= d % r < r && d == (d / r) * r + d % r
  {
    var high := d / r;
    assert d == high * r + d % r;
    if high >= l {
      MulLe(l, high, r);
    }
    if high < 0 {
      MulLe(high, -1, r);
    }
  }

  lemma CutScaled(high: int, low: int, l: nat, r: nat)
    requires 0 <= low < r
    ensures l * (high * r + low) == high * (l * r) + low * l
    ensures 0 <= low * l <= l * r - l
  {
    MulLe(0, low, l);
    MulLe(low, r - 1, l);
    assert (r - 1) * l == l * r - l;
    assert l * (high * r) == high * (l * r);
    assert l * (high * r + low) == l * (high * r) + l * low;
  }

  lemma ShiftWidths(shift: nat)
    requires 0 < shift < DIGIT_LENGTH
    ensures Pow2(shift) * Pow2(DIGIT_LENGTH - shift) == B
  {
    Pow2Radix();
    Pow2Add(shift, DIGIT_LENGTH - shift);
  }

  /** One digit of a left shift: its low part moves up, its high part is carried out. */
  method ShiftLeftStep(digit: int64, shift: nat, carry0: int64) returns (shifted: int64, carry: int64)
    requires IsDigit(digit) && 0 < shift < DIGIT_LENGTH && 0 <= carry0 < Bit(shift)
    ensures IsDigit(shifted) && 0 <= carry < Bit(shift)
    ensures shifted as int + carry as int * B == Pow2(shift) * digit as int + carry0 as int
  {
    var l, r := Bit(shift), Bit(DIGIT_LENGTH - shift);
    ShiftWidths(shift);
    Cut(digit as int, l as int, r as int);
    CutScaled(digit as int / r as int, digit as int % r as int, l as int, r as int);
    shifted := (digit % r) * l + carry0;
    carry := digit / r;
  }

  method DestructiveNormalization(source: Bignum, target: Bignum, shiftLeft: nat)
    requires IsBignum(source[..]) && source != target && 0 < shiftLeft < DIGIT_LENGTH
    requires target.Length == source.Length + 1
          || (target.Length == source.Length && Times(Mag(source[..]), Pow2(shiftLeft)) < Pow(source.Length - 1))
    modifies target
    ensures IsBignum(target[..]) && target[0] == old(target[0])
    ensures Mag(target[..]) == Times(Mag(source[..]), Pow2(shiftLeft))
  {
    var carry: int64 := 0;
    var scan := 1;
    TimesMul(0, Pow2(shiftLeft));
    TimesMul(0, Pow(0));
    while scan < source.Length
      invariant 1 <= scan <= source.Length && 0 <= carry < Bit(shiftLeft)
      invariant target[0] == old(target[0]) && AllDigits(target[..], 1, scan - 1)
      invariant V(target[..], 1, scan - 1) + Times(carry as int, Pow(scan - 1))
             == Times(V(source[..], 1, scan - 1), Pow2(shiftLeft))
    {
      ghost var before, c := target[..], carry;
      var digit := source[scan];
      var shifted;
      shifted, carry := ShiftLeftStep(digit, shiftLeft, carry);
      target[scan] := shifted;
      ScaleColumn(before, target[..], shifted, source[..], scan - 1, Pow2(shiftLeft), c as int, carry as int);
      scan := scan + 1;
    }
    if scan < target.Length {
      ghost var before := target[..];
      target[scan] := carry;
      VSnoc(target[..], 1, scan - 1);
      WindowSame(before, target[..], 1, scan - 1);
    } else {
      NoCarryOut(target[..], carry as int, Times(Mag(source[..]), Pow2(shiftLeft)));
    }
  }

  /** BIGNUM_ASSERT(carry == 0) when the target has no spare digit. */
  lemma NoCarryOut(t: seq<int64>, carry: int, total: int)
    requires IsBignum(t) && 0 <= carry && Mag(t) + Times(carry, Pow(|t| - 1)) == total < Pow(|t| - 1)
    ensures carry == 0 && Mag(t) == total
  {
    VBound(t, 1, |t| - 1);
    TimesMul(0, Pow(|t| - 1));
    TimesMul(1, Pow(|t| - 1));
    if carry > 0 {
      TimesMono(1, carry, Pow(|t| - 1));
    }
  }

  /** One digit of a right shift: the bits coming down from above, and the bits going out below. */
  method ShiftRightStep(digit: int64, shiftRight: nat, carry0: int64, ghost low0: nat) returns (shifted: int64,
                        carry: int64, ghost low: nat)
    requires IsDigit(digit) && 0 < shiftRight < DIGIT_LENGTH
    requires low0 < Pow2(shiftRight) && carry0 as int == low0 * Pow2(DIGIT_LENGTH - shiftRight)
    ensures IsDigit(shifted) && low < Pow2(shiftRight)
    ensures carry as int == low * Pow2(DIGIT_LENGTH - shiftRight)
    ensures digit as int + B * low0 == Times(shifted as int, Pow2(shiftRight)) + low
  {
    var s, l := Bit(shiftRight), Bit(DIGIT_LENGTH - shiftRight);
    low := (digit % s) as int;
    ShiftRightDigit(digit as int, s as int, l as int, shiftRight, low0, low);
    shifted := digit / s + carry0;
    carry := (digit % s) * l;
  }

  lemma ShiftRightDigit(digit: nat, s: nat, l: nat, shift: nat, low0: nat, low: nat)
    requires digit < B && 0 < shift < DIGIT_LENGTH && s == Pow2(shift) && l == Pow2(DIGIT_LENGTH - shift)
    requires low0 < s && low == digit % s
    ensures 0 <= low * l < B && 0 <= low0 * l
    ensures 0 <= digit / s + low0 * l < B
    ensures digit + B * low0 == Times(digit / s + low0 * l, s) + low
  {
    ShiftWidths(shift);
    Commute(s, l);
    Cut(digit, l, s);
    CutScaled(0, low, l, s);
    CutScaled(0, low0, l, s);
    TimesAdd(digit / s, low0 * l, s);
    TimesMul(digit / s, s);
    TimesMul(low0 * l, s);
    MulAssoc(low0, l, s);
  }

  method DestructiveUnnormalization(b: Bignum, shiftRight: nat)
    requires IsBignum(b[..]) && 0 < shiftRight < DIGIT_LENGTH
    requires exists m: int :: Mag(b[..]) == Times(m, Pow2(shiftRight))
    modifies b
    ensures IsBignum(b[..]) && b[0] == old(b[0])
    ensures old(Mag(b[..])) == Times(Mag(b[..]), Pow2(shiftRight))
  {
    var carry: int64 := 0;
    ghost var low: nat := 0;
    var scan := b.Length;
    ghost var b0 := b[..];
    TimesMul(0, Pow2(shiftRight));
    while 1 < scan
      invariant 1 <= scan <= b.Length && low < Pow2(shiftRight)
      invariant carry as int == low * Pow2(DIGIT_LENGTH - shiftRight)
      invariant b[..scan] == b0[..scan]
      invariant DividedAbove(b0, b[..], scan, Pow2(shiftRight), low)
    {
      scan := scan - 1;
      assert b[scan] == b[..scan + 1][scan] == b0[..scan + 1][scan] == b0[scan];
      ghost var before, low0 := b[..], low;
      var shifted;
      shifted, carry, low := ShiftRightStep(b[scan], shiftRight, carry, low);
      b[scan] := shifted;
      NextDown(b0, before, b[..], scan, shifted, Pow2(shiftRight), low0, low);
      assert b[..scan] == before[..scan] == before[..scan + 1][..scan] == b0[..scan + 1][..scan] == b0[..scan];
    }
    assert b[0] == b[..scan][0] == b0[..scan][0];
    ghost var m :| Mag(b0) == Times(m, Pow2(shiftRight));
    NothingShiftedOut(m, Mag(b[..]), Pow2(shiftRight), low);
  }

  /** BIGNUM_ASSERT(carry == 0): a multiple of the power of two shifts out nothing. */
  lemma NothingShiftedOut(m: int, q: int, s: nat, low: nat)
    requires Times(m, s) == Times(q, s) + low && low < s
    ensures low == 0
  {
    TimesCancel(m, q, s);
    TimesAdd(q, 1, s);
    TimesMul(1, s);
    TimesCancel(m, q + 1, s);
  }

  // ----- a one-digit denominator of any size -----

  /** Doubles a digit until its leading bit is set. */
  method NormalizingShift(digit: int64) returns (v: int64, shift: nat)
    requires 0 < digit < RADIX
    ensures RADIX / 2 <= v < RADIX && shift < DIGIT_LENGTH
    ensures v as int == Times(digit as int, Pow2(shift))
  {
    v, shift := digit, 0;
    TimesMul(digit as int, 1);
    while v < RADIX / 2
      invariant 0 < v < RADIX && v as int == Times(digit as int, Pow2(shift))
      decreases RADIX - v
    {
      TimesMul(digit as int, Pow2(shift));
      TimesMul(digit as int, Pow2(shift + 1));
      assert digit as int * (2 * Pow2(shift)) == 2 * (digit as int * Pow2(shift));
      v := v * 2;
      shift := shift + 1;
    }
    TimesMono(1, digit as int, Pow2(shift));
    TimesMul(1, Pow2(shift));
    Pow2Radix();
    if shift >= DIGIT_LENGTH {
      Pow2Mono(DIGIT_LENGTH, shift);
    }
  }

  /** A division of scaled numbers gives the quotient of the unscaled ones, and the scaled remainder. */
  lemma ScaledDivision(n: nat, d: nat, s: nat, q: nat, rest: int)
    requires 0 < s && 0 < d && 0 <= rest < Times(d, s) && Times(n, s) == Times(Times(d, s), q) + rest
    ensures q == n / d && rest == Times(n % d, s)
  {
    var r := n - Times(d, q);
    TimesMul(d, s);
    TimesMul(d, q);
    TimesMul(d * s, q);
    TimesMul(d * q, s);
    assert d * s * q == d * q * s;
    TimesAdd(r, d * q, s);
    assert Times(r, s) == rest;
    TimesMul(0, s);
    TimesCancel(r, 0, s);
    TimesCancel(r, d, s);
    DivModUnique(n, d, q, r);
  }

  method DivideUnsignedMediumDenominator(numerator: Bignum, denominator: int64, qNegative: bool, rNegative: bool)
    returns (q: Bignum, r: Bignum)
    requires Normal(numerator[..]) && numerator.Length > 1 && 0 < denominator < RADIX
    ensures fresh(q) && fresh(r) && Normal(q[..]) && Normal(r[..])
    ensures IntOf(q[..]) == Signed(qNegative, Mag(numerator[..]) / denominator as int)
    ensures IntOf(r[..]) == Signed(rNegative, Mag(numerator[..]) % denominator as int)
  {
    var d, shift := NormalizingShift(denominator);
    q := AllotBignum(if shift == 0 then numerator.Length - 1 else numerator.Length, qNegative);
    if shift == 0 {
      DestructiveCopy(numerator, q);
      CopyMag(numerator[..], q[..]);
      TimesMul(Mag(numerator[..]), 1);
    } else {
      DestructiveNormalization(numerator, q, shift);
    }
    assert Mag(q[..]) == Times(Mag(numerator[..]), Pow2(shift));
    var rest := DivideDown(q, d);
    ghost var quotient := Mag(q[..]);
    VBound(q[..], 1, q.Length - 1);
    VBound(numerator[..], 1, numerator.Length - 1);
    TimesFlip(quotient, d as int);
    ScaledDivision(Mag(numerator[..]), denominator as int, Pow2(shift), quotient, rest as int);
    q := BignumTrim(q);
    ghost var r0 := Mag(numerator[..]) % denominator as int;
    if shift == 0 {
      TimesMul(r0, 1);
    } else {
      UnscaleDigit(rest as int, r0, Pow2(shift));
      rest := rest / Bit(shift);
    }
    r := DigitToBignum(rest, rNegative);
  }

  lemma UnscaleDigit(rest: int, r: int, s: nat)
    requires 0 < s && rest == Times(r, s)
    ensures rest / s == r
  {
    TimesMul(r, s);
    assert r * s / s == r by {
      DivExact(r, s);
    }
  }

  lemma DivExact(r: int, s: nat)
    requires 0 < s
    ensures r * s / s == r
  {
    var q, m := r * s / s, r * s % s;
    assert r * s == q * s + m;
    if q < r {
      MulLe(q + 1, r, s);
    } else if r < q {
      MulLe(r + 1, q, s);
    }
  }

  /** Folds the two-by-one digit division over a number, from its leading digit down. */
  method DivideDown(q: Bignum, denominator: int64) returns (r: int64)
    requires IsBignum(q[..]) && RADIX / 2 <= denominator < RADIX
    modifies q
    ensures IsBignum(q[..]) && q[0] == old(q[0]) && 0 <= r < denominator
    ensures old(Mag(q[..])) == Times(Mag(q[..]), denominator as int) + r as int
  {
    r := 0;
    var scan := q.Length;
    ghost var q0 := q[..];
    TimesMul(0, denominator as int);
    while 1 < scan
      invariant 1 <= scan <= q.Length && 0 <= r < denominator
      invariant q[..scan] == q0[..scan]
      invariant DividedAbove(q0, q[..], scan, denominator as int, r as int)
    {
      scan := scan - 1;
      assert q[scan] == q[..scan + 1][scan] == q0[..scan + 1][scan] == q0[scan];
      ghost var before, r0 := q[..], r;
      var qj;
      qj, r := BignumDigitDivide(r, q[scan], denominator);
      q[scan] := qj;
      TimesFlip(denominator as int, qj as int);
      NextDown(q0, before, q[..], scan, qj, denominator as int, r0 as int, r as int);
      assert q[..scan] == before[..scan] == before[..scan + 1][..scan] == q0[..scan + 1][..scan] == q0[..scan];
    }
    assert q[0] == q[..scan][0] == q0[..scan][0];
  }

  // ----- a denominator of two or more digits -----

  /** The scaled divisor keeps its length, and its leading digit has its top bit set. */
  lemma ScaledDivisor(d: seq<int64>, shift: nat, v1: int64)
    requires Normal(d) && |d| >= 3 && RADIX / 2 <= v1 < RADIX && shift < DIGIT_LENGTH
    requires v1 as int == Times(d[|d| - 1] as int, Pow2(shift))
    ensures Times(RADIX as int / 2, Pow(|d| - 2)) <= Times(Mag(d), Pow2(shift)) < Pow(|d| - 1)
  {
    var top, s, p := d[|d| - 1] as int, Pow2(shift), Pow(|d| - 2);
    VTop(d, 1, |d| - 1);
    TimesMono(Times(top, p), Mag(d), s);
    TimesMono(Mag(d) + 1, Times(top + 1, p), s);
    TimesAdd(Mag(d), 1, s);
    TimesMul(1, s);
    TimesTwice(top, p, s);
    TimesTwice(top + 1, p, s);
    TimesMono(RADIX as int / 2, Times(top, s), p);
    TopFits(top, shift);
    TimesMono(Times(top + 1, s), B, p);
    TimesMul(B, p);
  }

  lemma TimesTwice(a: int, p: nat, s: nat)
    ensures Times(Times(a, p), s) == Times(Times(a, s), p)
  {
    TimesMul(a, p);
    TimesMul(a, s);
    TimesMul(a * p, s);
    TimesMul(a * s, p);
    assert a * p * s == a * s * p;
  }

  lemma TopFits(top: int, shift: nat)
    requires 0 < top && shift < DIGIT_LENGTH && Times(top, Pow2(shift)) < B
    ensures Times(top + 1, Pow2(shift)) <= B
  {
    Pow2Radix();
    Pow2Add(DIGIT_LENGTH - shift, shift);
    TimesMul(Pow2(DIGIT_LENGTH - shift), Pow2(shift));
    TimesCancel(top, Pow2(DIGIT_LENGTH - shift), Pow2(shift));
    TimesMono(top + 1, Pow2(DIGIT_LENGTH - shift), Pow2(shift));
  }

  /** The top digits of the scaled numerator are below the scaled divisor. */
  lemma TopWindow(u: seq<int64>, n: int, d: int, s: nat, ln: nat, ld: nat)
    requires IsBignum(u) && |u| == ln + 2 && ld <= ln && 0 < s && 1 <= ld
    requires Mag(u) == Times(n, s) && 0 <= n < Pow(ln) && Pow(ld - 1) <= d
    ensures V(u, 1 + (ln + 1 - ld), ld) < Times(d, s)
  {
    var m := ln + 1 - ld;
    VSplit(u, 1, m, ld);
    VBound(u, 1, m);
    var high := V(u, 1 + m, ld);
    if high >= Times(d, s) {
      TimesMono(Times(d, s), high, Pow(m));
      TimesTwice(d, s, Pow(m));
      TimesMono(Pow(ld - 1), d, Pow(m));
      TimesMul(Pow(ld - 1), Pow(m));
      PowAdd(ld - 1, m);
      TimesMono(Pow(ln), Times(d, Pow(m)), s);
      TimesCancel(n, Pow(ln), s);
    }
  }

  /** The scaled numerator in a new array with one spare digit. */
  method ScaledNumerator(numerator: Bignum, shift: nat, negative: bool) returns (u: Bignum)
    requires Normal(numerator[..]) && shift < DIGIT_LENGTH
    ensures fresh(u) && u.Length == numerator.Length + 1 && IsBignum(u[..]) && (Negative(u[..]) <==> negative)
    ensures Mag(u[..]) == Times(Mag(numerator[..]), Pow2(shift))
  {
    u := AllotBignum(numerator.Length, negative);
    if shift == 0 {
      DestructiveCopy(numerator, u);
      ghost var copied := u[..];
      u[numerator.Length] := 0;
      assert u[..][1..|numerator[..]|] == copied[1..|numerator[..]|] == numerator[..][1..];
      CopyMag(numerator[..], u[..]);
      VDropZeros(u[..], 1, numerator.Length - 1, numerator.Length);
      TimesMul(Mag(numerator[..]), 1);
    } else {
      DestructiveNormalization(numerator, u, shift);
    }
  }

  /** The scaled denominator: the denominator itself when no shift is needed, a new array otherwise. */
  method ScaledDenominator(denominator: Bignum, shift: nat, ghost v1: int64) returns (v: Bignum)
    requires Normal(denominator[..]) && denominator.Length >= 3 && RADIX / 2 <= v1 < RADIX && shift < DIGIT_LENGTH
    requires v1 as int == Times(denominator[denominator.Length - 1] as int, Pow2(shift))
    ensures v == denominator || fresh(v)
    ensures v.Length == denominator.Length && Divisor(v[..])
    ensures Mag(v[..]) == Times(Mag(denominator[..]), Pow2(shift))
  {
    if shift == 0 {
      TimesMul(denominator[denominator.Length - 1] as int, 1);
      TimesMul(Mag(denominator[..]), 1);
      return denominator;
    }
    ScaledDivisor(denominator[..], shift, v1);
    v := AllotBignum(denominator.Length - 1, false);
    DestructiveNormalization(denominator, v, shift);
    var n := v.Length - 1;
    VTop(v[..], 1, n);
    if v[n] < RADIX / 2 {
      TimesMono(v[n] as int + 1, RADIX as int / 2, Pow(n - 1));
    }
  }

  /** An optional result that, when wanted, is present, normal and has the given value. */
  ghost predicate Holds(wanted: bool, r: array?<int64>, value: int)
    reads r
  {
    wanted ==> r != null && Normal(r[..]) && IntOf(r[..]) == value
  }

  /** Quotient and remainder are each computed only when wanted. */
  method DivideUnsignedLargeDenominator(numerator: Bignum, denominator: Bignum, wantQuotient: bool,
                                        wantRemainder: bool, qNegative: bool, rNegative: bool)
    returns (quotient: array?<int64>, remainder: array?<int64>)
    requires Normal(numerator[..]) && Normal(denominator[..]) && 3 <= denominator.Length <= numerator.Length
    requires 0 < Mag(denominator[..])
    ensures quotient == null || fresh(quotient)
    ensures remainder == null || fresh(remainder)
    ensures Holds(wantQuotient, quotient, Signed(qNegative, Mag(numerator[..]) / Mag(denominator[..])))
    ensures Holds(wantRemainder, remainder, Signed(rNegative, Mag(numerator[..]) % Mag(denominator[..])))
  {
    var v1, shift := NormalizingShift(denominator[denominator.Length - 1]);
    var u := ScaledNumerator(numerator, shift, rNegative);
    var v := ScaledDenominator(denominator, shift, v1);
    var q: array?<int64> := null;
    if wantQuotient {
      q := AllotBignum(numerator.Length - (denominator.Length - 1), qNegative);
    }
    ghost var digits := DivideScaled(numerator, denominator, shift, u, v, q);
    quotient, remainder := null, null;
    if wantRemainder {
      remainder := FinishRemainder(u, shift, Mag(numerator[..]) % Mag(denominator[..]));
    }
    if wantQuotient {
      quotient := BignumTrim(q);
    }
  }

  /** The normalised division, read back in terms of the numbers before scaling. */
  method DivideScaled(ghost numerator: Bignum, ghost denominator: Bignum, ghost shift: nat, u: Bignum, v: Bignum,
                      q: array?<int64>)
    returns (ghost digits: nat)
    requires Normal(numerator[..]) && Normal(denominator[..]) && 3 <= denominator.Length <= numerator.Length
    requires 0 < Mag(denominator[..])
    requires u != numerator && u != denominator && u != v && q != numerator && q != denominator
    requires IsBignum(u[..]) && u.Length == numerator.Length + 1 && Divisor(v[..]) && v.Length == denominator.Length
    requires Mag(u[..]) == Times(Mag(numerator[..]), Pow2(shift))
    requires Mag(v[..]) == Times(Mag(denominator[..]), Pow2(shift))
    requires q != null ==> q != u && q != v && q.Length == numerator.Length - (denominator.Length - 1) + 1
    modifies u
    modifies if q != null then {q} else {}
    ensures IsBignum(u[..]) && u[0] == old(u[0])
    ensures Mag(u[..]) == Times(Mag(numerator[..]) % Mag(denominator[..]), Pow2(shift))
    ensures digits == Mag(numerator[..]) / Mag(denominator[..])
    ensures q != null ==> IsBignum(q[..]) && Mag(q[..]) == digits && q[0] == old(q[0])
  {
    ghost var n, d := Mag(numerator[..]), Mag(denominator[..]);
    NormalMag(numerator[..]);
    NormalMag(denominator[..]);
    TopWindow(u[..], n, d, Pow2(shift), numerator.Length - 1, denominator.Length - 1);
    digits := BignumDivideUnsignedNormalized(u, v, q);
    ScaledDivision(n, d, Pow2(shift), digits, Mag(u[..]));
  }

  method FinishRemainder(u: Bignum, shift: nat, ghost rest: int) returns (r: Bignum)
    requires IsBignum(u[..]) && u.Length > 1 && shift < DIGIT_LENGTH && Mag(u[..]) == Times(rest, Pow2(shift))
    modifies u
    ensures r == u || fresh(r)
    ensures Normal(r[..]) && IntOf(r[..]) == Signed(old(Negative(u[..])), rest)
  {
    TimesMul(rest, 1);
    if shift != 0 {
      DestructiveUnnormalization(u, shift);
      TimesCancel(Mag(u[..]), rest, Pow2(shift));
    }
    r := BignumTrim(u);
  }

  // ----- the signed operations -----

  /** Division that truncates toward zero, and its remainder. */
  function Quot(n: int, d: int): int
    requires d != 0
  {
    Signed((n < 0) != (d < 0), Abs(n) / Abs(d))
  }

  function Rem(n: int, d: int): int
    requires d != 0
  {
    Signed(n < 0, Abs(n) % Abs(d))
  }

  ghost predicate Truncated(n: int, d: int, q: int, r: int) {
    n == q * d + r && Abs(r) < Abs(d) && (r == 0 || (r < 0 <==> n < 0))
  }

  /** Quot and Rem are the truncated division: n = q * d + r with |r| < |d| and r zero or signed like n,
      and no other pair is. */
  lemma TruncatedDivision(n: int, d: int, q: int, r: int)
    requires d != 0
    ensures q == Quot(n, d) && r == Rem(n, d) <==> Truncated(n, d, q, r)
  {
    QuotRemTruncated(n, d);
    if Truncated(n, d, q, r) {
      TruncatedUnique(n, d, q, r, Quot(n, d), Rem(n, d));
    }
  }

  lemma QuotRemTruncated(n: int, d: int)
    requires d != 0
    ensures Truncated(n, d, Quot(n, d), Rem(n, d))
  {
    var a, b := Abs(n), Abs(d);
    assert a == (a / b) * b + a % b;
    SignOfProduct((n < 0) != (d < 0), d < 0, a / b, b);
    assert Quot(n, d) * d == Signed(n < 0, (a / b) * b);
  }

  lemma TruncatedUnique(n: int, d: int, q: int, r: int, q': int, r': int)
    requires d != 0 && Truncated(n, d, q, r) && Truncated(n, d, q', r')
    ensures q == q' && r == r'
  {
    assert (q - q') * d == q * d - q' * d;
    SmallMultiple(q - q', d);
  }

  lemma SmallMultiple(k: int, d: int)
    requires d != 0 && Abs(k * d) < Abs(d)
    ensures k == 0
  {
    assert k * -d == -(k * d);
    if k >= 1 {
      MulLe(1, k, Abs(d));
    } else if k <= -1 {
      MulLe(k, -1, Abs(d));
    }
  }

  datatype Division = DivideByZero | Divided(quotient: Bignum, remainder: Bignum)

  datatype Single = ZeroDenominator | Value(value: Bignum)

  /** The magnitudes' comparison settles two cases without a division. */
  lemma EasyQuotients(n: nat, d: nat)
    requires 0 < d
    ensures n == d ==> n / d == 1 && n % d == 0
    ensures n < d ==> n / d == 0 && n % d == n
    ensures d == 1 ==> n / d == n && n % d == 0
  {
  }

  method BignumDivide(numerator: Bignum, denominator: Bignum) returns (result: Division)
    requires Normal(numerator[..]) && Normal(denominator[..])
    ensures result.DivideByZero? <==> IntOf(denominator[..]) == 0
    ensures result.Divided? ==> Normal(result.quotient[..]) && Normal(result.remainder[..])
    ensures result.Divided? ==> IntOf(result.quotient[..]) == Quot(IntOf(numerator[..]), IntOf(denominator[..]))
    ensures result.Divided? ==> IntOf(result.remainder[..]) == Rem(IntOf(numerator[..]), IntOf(denominator[..]))
  {
    NormalMag(numerator[..]);
    NormalMag(denominator[..]);
    if denominator.Length == 1 {
      return DivideByZero;
    }
    if numerator.Length == 1 {
      return Divided(numerator, numerator);
    }
    var q, r := DivideNonZero(numerator, denominator);
    result := Divided(q, r);
  }

  method DivideNonZero(numerator: Bignum, denominator: Bignum) returns (q: Bignum, r: Bignum)
    requires Normal(numerator[..]) && Normal(denominator[..]) && numerator.Length > 1 && denominator.Length > 1
    requires IntOf(denominator[..]) != 0
    ensures Normal(q[..]) && IntOf(q[..]) == Quot(IntOf(numerator[..]), IntOf(denominator[..]))
    ensures Normal(r[..]) && IntOf(r[..]) == Rem(IntOf(numerator[..]), IntOf(denominator[..]))
  {
    NormalMag(numerator[..]);
    NormalMag(denominator[..]);
    EasyQuotients(Mag(numerator[..]), Mag(denominator[..]));
    var rNegative := numerator[0] != 0;
    var qNegative := if denominator[0] != 0 then !rNegative else rNegative;
    var order := BignumCompareUnsigned(numerator, denominator);
    match order {
      case Equal =>
        q := BignumOne(qNegative);
        r := BignumZero();
      case Less =>
        q := BignumZero();
        r := numerator;
      case Greater =>
        q, r := DivideGreater(numerator, denominator, qNegative, rNegative);
    }
  }

  lemma LongerDividend(n: seq<int64>, d: seq<int64>)
    requires Normal(n) && Normal(d) && Mag(n) > Mag(d) && |d| > 1
    ensures |n| >= |d| && 0 < Mag(d)
    ensures |d| == 2 ==> Mag(d) == d[1] as int && 0 < d[1]
  {
    NormalMag(n);
    NormalMag(d);
    if |n| < |d| {
      PowMono(|n| - 1, |d| - 2);
    }
    if |d| == 2 {
      OneDigit(d);
    }
  }

  method DivideGreater(numerator: Bignum, denominator: Bignum, qNegative: bool, rNegative: bool)
    returns (q: Bignum, r: Bignum)
    requires Normal(numerator[..]) && Normal(denominator[..]) && denominator.Length > 1
    requires Mag(numerator[..]) > Mag(denominator[..]) > 0
    ensures Normal(q[..]) && IntOf(q[..]) == Signed(qNegative, Mag(numerator[..]) / Mag(denominator[..]))
    ensures Normal(r[..]) && IntOf(r[..]) == Signed(rNegative, Mag(numerator[..]) % Mag(denominator[..]))
  {
    LongerDividend(numerator[..], denominator[..]);
    EasyQuotients(Mag(numerator[..]), Mag(denominator[..]));
    if denominator.Length == 2 {
      var digit := denominator[1];
      if digit == 1 {
        q := BignumMaybeNewSign(numerator, qNegative);
        r := BignumZero();
      } else if digit < RADIX_ROOT {
        q, r := DivideUnsignedSmallDenominator(numerator, digit, qNegative, rNegative);
      } else {
        q, r := DivideUnsignedMediumDenominator(numerator, digit, qNegative, rNegative);
      }
      return;
    }
    q, r := DivideUnsignedLargeDenominator(numerator, denominator, true, true, qNegative, rNegative);
  }

  method BignumQuotient(numerator: Bignum, denominator: Bignum) returns (result: Single)
    requires Normal(numerator[..]) && Normal(denominator[..])
    ensures result.ZeroDenominator? <==> IntOf(denominator[..]) == 0
    ensures result.Value? ==> Normal(result.value[..])
    ensures result.Value? ==> IntOf(result.value[..]) == Quot(IntOf(numerator[..]), IntOf(denominator[..]))
  {
    NormalMag(numerator[..]);
    NormalMag(denominator[..]);
    if denominator.Length == 1 {
      return ZeroDenominator;
    }
    if numerator.Length == 1 {
      return Value(numerator);
    }
    var q := QuotientNonZero(numerator, denominator);
    result := Value(q);
  }

  method QuotientNonZero(numerator: Bignum, denominator: Bignum) returns (q: Bignum)
    requires Normal(numerator[..]) && Normal(denominator[..]) && numerator.Length > 1 && denominator.Length > 1
    requires IntOf(denominator[..]) != 0
    ensures Normal(q[..]) && IntOf(q[..]) == Quot(IntOf(numerator[..]), IntOf(denominator[..]))
  {
    NormalMag(numerator[..]);
    NormalMag(denominator[..]);
    EasyQuotients(Mag(numerator[..]), Mag(denominator[..]));
    var qNegative := if denominator[0] != 0 then numerator[0] == 0 else numerator[0] != 0;
    var order := BignumCompareUnsigned(numerator, denominator);
    match order {
      case Equal =>
        q := BignumOne(qNegative);
      case Less =>
        q := BignumZero();
      case Greater =>
        LongerDividend(numerator[..], denominator[..]);
        var rest;
        if denominator.Length == 2 {
          var digit := denominator[1];
          if digit == 1 {
            q := BignumMaybeNewSign(numerator, qNegative);
          } else if digit < RADIX_ROOT {
            q, rest := DivideUnsignedSmallDenominator(numerator, digit, qNegative, false);
          } else {
            q, rest := DivideUnsignedMediumDenominator(numerator, digit, qNegative, false);
          }
        } else {
          var large, none := DivideUnsignedLargeDenominator(numerator, denominator, true, false, qNegative, false);
          q := large;
        }
    }
  }

  method BignumRemainder(numerator: Bignum, denominator: Bignum) returns (result: Single)
    requires Normal(numerator[..]) && Normal(denominator[..])
    ensures result.ZeroDenominator? <==> IntOf(denominator[..]) == 0
    ensures result.Value? ==> Normal(result.value[..])
    ensures result.Value? ==> IntOf(result.value[..]) == Rem(IntOf(numerator[..]), IntOf(denominator[..]))
  {
    NormalMag(numerator[..]);
    NormalMag(denominator[..]);
    if denominator.Length == 1 {
      return ZeroDenominator;
    }
    if numerator.Length == 1 {
      return Value(numerator);
    }
    var r := RemainderNonZero(numerator, denominator);
    result := Value(r);
  }

  method RemainderNonZero(numerator: Bignum, denominator: Bignum) returns (r: Bignum)
    requires Normal(numerator[..]) && Normal(denominator[..]) && numerator.Length > 1 && denominator.Length > 1
    requires IntOf(denominator[..]) != 0
    ensures Normal(r[..]) && IntOf(r[..]) == Rem(IntOf(numerator[..]), IntOf(denominator[..]))
  {
    NormalMag(numerator[..]);
    NormalMag(denominator[..]);
    EasyQuotients(Mag(numerator[..]), Mag(denominator[..]));
    var negative := numerator[0] != 0;
    var order := BignumCompareUnsigned(numerator, denominator);
    match order {
      case Equal =>
        r := BignumZero();
      case Less =>
        r := numerator;
      case Greater =>
        LongerDividend(numerator[..], denominator[..]);
        if denominator.Length == 2 {
          var digit := denominator[1];
          if digit == 1 {
            r := BignumZero();
          } else if digit < RADIX_ROOT {
            r := RemainderUnsignedSmallDenominator(numerator, digit, negative);
          } else {
            var q;
            q, r := DivideUnsignedMediumDenominator(numerator, digit, false, negative);
          }
        } else {
          var none, large := DivideUnsignedLargeDenominator(numerator, denominator, false, true, false, negative);
          r := large;
        }
    }
  }
}
