/** Arithmetic shift of signed bignums (vm-build/vm/bignum.cpp, bignum_arithmetic_shift and
    bignum_magnitude_ash). */
module Shift {
  import opened Common
  import opened Digits
  import opened Bignums
  import opened Multiply
  import opened LongDivide
  import opened Division
  import opened Bits
  import opened Bitwise
  import opened Fixnum

  /** x * 2^n, rounded down. */
  function ShiftInt(x: int, n: int): int {
    if n >= 0 then x * Pow2(n) else x / Pow2(-n)
  }

  // ----- left -----

  /** `(digit << bit) & mask` on a signed 64-bit word: the shift wraps, the mask keeps 62 bits. */
  function ShlMasked(digit: int64, bit: nat): (r: int64)
    requires IsDigit(digit) && bit < DIGIT_LENGTH
    ensures IsDigit(r) && r as int == digit as int * Pow2(bit) % B
  {
    WrapMasked(digit as int * Pow2(bit));
    Wrap(digit as int * Pow2(bit)) as int64 % RADIX
  }

  lemma WrapMasked(x: int)
    ensures Wrap(x) % B == x % B
  {
    var w := Wrap(x);
    var k := (w - x) / TWO64;
    assert w == x + k * TWO64;
    FloorMod(x, 4 * k);
  }

  lemma FloorMod(x: int, k: int)
    ensures (x + k * B) % B == x % B
  {
  }

  /** One digit of a left shift as the source computes it: the high bits of the digit below are in the
      target word already, the low bits of this digit are or-ed above them. */
  method ShiftUpStep(below: int64, digit: int64, bit: nat) returns (word: int64, above: int64)
    requires IsDigit(digit) && bit < DIGIT_LENGTH && 0 <= below as int < Pow2(bit)
    ensures IsDigit(word) && IsDigit(above) && above as int < Pow2(bit)
    ensures word as int + above as int * B == Pow2(bit) * digit as int + below as int
  {
    Pow2Mono(bit, DIGIT_LENGTH);
    Pow2Radix();
    CutAt(digit as int, bit);
    word := DigitOp(Ior, below, ShlMasked(digit, bit));
    above := digit / Bit(DIGIT_LENGTH - bit);
    IorShifted(below as int, digit as int, bit);
  }

  /** A digit cut at 62 - bit. */
  lemma CutAt(digit: int, bit: nat)
    requires 0 <= digit < B && bit < DIGIT_LENGTH
    ensures var r := Pow2(DIGIT_LENGTH - bit);
      && Pow2(bit) * r == B && 0 <= digit / r < Pow2(bit) && digit == (digit / r) * r + digit % r
      && digit * Pow2(bit) % B == (digit % r) * Pow2(bit)
      && digit * Pow2(bit) == (digit / r) * B + (digit % r) * Pow2(bit)
  {
    var l, r := Pow2(bit), Pow2(DIGIT_LENGTH - bit);
    Pow2Radix();
    Pow2Add(bit, DIGIT_LENGTH - bit);
    Cut(digit, l, r);
    CutScaled(digit / r, digit % r, l, r);
    Commute(l, digit);
    FloorMod((digit % r) * l, digit / r);
    SmallMod((digit % r) * l);
  }

  lemma SmallMod(x: int)
    requires 0 <= x < B
    ensures x % B == x
  {
  }

  lemma IorShifted(below: nat, digit: int, bit: nat)
    requires 0 <= digit < B && bit < DIGIT_LENGTH && below < Pow2(bit)
    ensures BitOp(Ior, below, digit * Pow2(bit) % B) == below + (digit % Pow2(DIGIT_LENGTH - bit)) * Pow2(bit)
  {
    CutAt(digit, bit);
    var low := digit % Pow2(DIGIT_LENGTH - bit);
    IorDisjoint(below, low, bit);
    TimesMul(low, Pow2(bit));
  }

  method ShiftUp(x: Bignum, n: nat) returns (r: Bignum)
    requires Normal(x[..]) && x.Length > 1
    ensures fresh(r) && Normal(r[..]) && IntOf(r[..]) == IntOf(x[..]) * Pow2(n)
  {
    var offset, bit := n / DIGIT_LENGTH, n % DIGIT_LENGTH;
    r := AllotBignumZeroed((x.Length - 1) + offset + 1, x[0] != 0);
    ShiftUpDigits(x, r, offset, bit);
    ShiftUpValue(r[..], x[..], offset, bit, n);
    SignedTimes(Mag(x[..]), Pow2(n));
    r := BignumTrim(r);
  }

  /** The digits of x below `scan` have been moved up, and the bits carried out of them wait in the
      word above. */
  ghost predicate MovedUp(r: seq<int64>, x: seq<int64>, offset: nat, bit: nat, scan: nat)
    requires 1 <= scan <= |x| && |r| == |x| + offset + 1
  {
    && IsBignum(r)
    && (forall k :: 1 <= k < 1 + offset || offset + scan < k < |r| ==> r[k] == 0)
    && 0 <= r[offset + scan] as int < Pow2(bit)
    && V(r, 1 + offset, scan - 1) + Times(r[offset + scan] as int, Pow(scan - 1)) == Times(V(x, 1, scan - 1), Pow2(bit))
  }

  /** The digit loop: `scanr` runs `offset` digits ahead of `scan1`. */
  method ShiftUpDigits(x: Bignum, r: Bignum, offset: nat, bit: nat)
    requires IsBignum(x[..]) && x != r && r.Length == x.Length + offset + 1 && bit < DIGIT_LENGTH
    requires forall k :: 1 <= k < r.Length ==> r[k] == 0
    modifies r
    ensures r[0] == old(r[0])
    ensures MovedUp(r[..], x[..], offset, bit, x.Length)
  {
    var scan := 1;
    TimesMul(0, Pow2(bit));
    TimesMul(0, Pow(0));
    while scan < x.Length
      invariant 1 <= scan <= x.Length && r[0] == old(r[0])
      invariant MovedUp(r[..], x[..], offset, bit, scan)
    {
      ghost var before := r[..];
      var at := offset + scan;
      var word, above := ShiftUpStep(r[at], x[scan], bit);
      r[at] := word;
      r[at + 1] := above;
      NextMovedUp(before, r[..], x[..], offset, bit, scan, word, above);
      scan := scan + 1;
    }
  }

  lemma NextMovedUp(r: seq<int64>, r': seq<int64>, x: seq<int64>, offset: nat, bit: nat, scan: nat,
                    word: int64, above: int64)
    requires 1 <= scan < |x| && |r| == |x| + offset + 1 && MovedUp(r, x, offset, bit, scan)
    requires r' == r[offset + scan := word][offset + scan + 1 := above]
    requires IsDigit(word) && IsDigit(above) && above as int < Pow2(bit)
    requires word as int + above as int * B == Pow2(bit) * x[scan] as int + r[offset + scan] as int
    ensures MovedUp(r', x, offset, bit, scan + 1)
  {
    var middle := r[offset + scan := word];
    ShiftColumn(r, middle, word, x, offset, scan - 1, Pow2(bit), r[offset + scan] as int, above as int);
    WindowSame(middle, r', 1 + offset, scan);
    forall k | 1 <= k < |r'| ensures IsDigit(r'[k]) {
      assert k != offset + scan && k != offset + scan + 1 ==> r'[k] == r[k];
    }
  }

  lemma ShiftColumn(before: seq<int64>, after: seq<int64>, digit: int64, x: seq<int64>, offset: nat, n: nat,
                    f: nat, c: int, c': int)
    requires n + 1 < |x| && 1 + offset + n < |before| && after == before[1 + offset + n := digit]
    requires V(before, 1 + offset, n) + Times(c, Pow(n)) == Times(V(x, 1, n), f)
    requires digit as int + c' * B == f * x[n + 1] as int + c
    ensures V(after, 1 + offset, n + 1) + Times(c', Pow(n + 1)) == Times(V(x, 1, n + 1), f)
  {
    WindowSame(before, after, 1 + offset, n);
    VSnoc(after, 1 + offset, n);
    VSnoc(x, 1, n);
    var d := x[n + 1] as int;
    Additive.Column(n, digit as int, c', f * d, 0, c);
    TimesMul(0, Pow(n));
    TimesAdd(V(x, 1, n), Times(d, Pow(n)), f);
    TimesSwap(d, Pow(n), f);
  }

  lemma ShiftUpValue(r: seq<int64>, x: seq<int64>, offset: nat, bit: nat, n: nat)
    requires 1 <= |x| && |r| == |x| + offset + 1 && n == DIGIT_LENGTH * offset + bit
    requires MovedUp(r, x, offset, bit, |x|)
    ensures Mag(r) == Times(Mag(x), Pow2(n))
  {
    VSnoc(r, 1 + offset, |x| - 1);
    VSplit(r, 1, offset, |x|);
    VZero(r, 1, offset);
    PowPow2(offset);
    Pow2Add(bit, DIGIT_LENGTH * offset);
    TimesTimes(Mag(x), Pow2(bit), Pow(offset));
  }

  lemma SignedTimes(m: int, p: nat)
    ensures Times(m, p) == m * p && -m * p == -Times(m, p)
  {
    TimesMul(m, p);
    TimesMul(-m, p);
    TimesNegate(m, p);
  }

  // ----- right -----

  /** One digit of a right shift: the high bits of this digit, and the low bits of the next above them. */
  function ShiftDownDigit(digit: int64, next: int64, bit: nat): (r: int64)
    requires IsDigit(digit) && IsDigit(next) && bit < DIGIT_LENGTH
    ensures IsDigit(r)
  {
    ShiftDownFacts(digit as int, next as int, bit);
    DigitOp(Ior, digit / Bit(bit), ShlMasked62(next, bit))
  }

  /** `(next << (62 - bit)) & mask`; for bit 0 the whole digit is shifted out. */
  function ShlMasked62(next: int64, bit: nat): (r: int64)
    requires IsDigit(next) && bit < DIGIT_LENGTH
    ensures IsDigit(r) && r as int == next as int * Pow2(DIGIT_LENGTH - bit) % B
  {
    WrapMasked(next as int * Pow2(DIGIT_LENGTH - bit));
    Wrap(next as int * Pow2(DIGIT_LENGTH - bit)) as int64 % RADIX
  }

  lemma ShiftDownFacts(digit: int, next: int, bit: nat)
    requires 0 <= digit < B && 0 <= next < B && bit < DIGIT_LENGTH
    ensures var s, l := Pow2(bit), Pow2(DIGIT_LENGTH - bit);
      && l * s == B && 0 <= digit / s < l && digit == (digit / s) * s + digit % s
      && next * l % B == (next % s) * l
  {
    var s, l := Pow2(bit), Pow2(DIGIT_LENGTH - bit);
    Pow2Radix();
    Pow2Add(DIGIT_LENGTH - bit, bit);
    Cut(digit, l, s);
    Cut(next, l, s);
    CutScaled(next / s, next % s, l, s);
    Commute(l, next);
    FloorMod((next % s) * l, next / s);
    SmallMod((next % s) * l);
  }

  /** 2^bit times the new digit is this digit without its low bits, plus the next digit's low bits one
      place up. */
  lemma ShiftDownIdentity(digit: int64, next: int64, bit: nat)
    requires IsDigit(digit) && IsDigit(next) && bit < DIGIT_LENGTH
    ensures var s := Pow2(bit);
      s * ShiftDownDigit(digit, next, bit) as int == digit as int - digit as int % s + (next as int % s) * B
  {
    var s, l := Pow2(bit), Pow2(DIGIT_LENGTH - bit);
    ShiftDownFacts(digit as int, next as int, bit);
    IorDisjoint(digit as int / s, next as int % s, DIGIT_LENGTH - bit);
    TimesMul(next as int % s, l);
    Recombine(digit as int / s, next as int % s, s, l);
  }

  lemma Recombine(high: int, low: int, s: nat, l: nat)
    requires l * s == B
    ensures s * (high + low * l) == high * s + low * B
  {
    assert s * (high + low * l) == s * high + s * (low * l);
    assert s * (low * l) == low * (l * s);
  }

  /** The n low digits of the result, shifted back up, are those of the number without the bits lost and
      with the low bits of the next digit, `low`, above them. */
  ghost predicate ShiftedDown(r: seq<int64>, x: seq<int64>, offset: nat, n: nat, s: nat, low: int)
    requires 1 + n <= |r| && 1 + offset + n <= |x| && 1 + offset < |x| && 0 < s
  {
    && AllDigits(r, 1, n)
    && Times(V(r, 1, n), s) + x[1 + offset] as int % s == V(x, 1 + offset, n) + Times(low, Pow(n))
  }

  lemma ShiftedDownNext(before: seq<int64>, after: seq<int64>, digit: int64, x: seq<int64>, offset: nat, n: nat, s: nat,
                        low: int, low': int)
    requires 0 < s && 1 + n < |before| && after == before[1 + n := digit] && 1 + offset + n < |x| && IsDigit(digit)
    requires ShiftedDown(before, x, offset, n, s, low)
    requires s * digit as int == x[1 + offset + n] as int - low + low' * B
    ensures ShiftedDown(after, x, offset, n + 1, s, low')
  {
    ShiftDownColumn(before, after, digit, x, offset, n, s, x[1 + offset] as int % s, low, low');
    forall k | 1 <= k < n + 2 ensures IsDigit(after[k]) {
      assert k < n + 1 ==> after[k] == before[k];
    }
  }

  /** The digit loop of a right shift by less than the whole number. */
  method ShiftDownDigits(x: Bignum, r: Bignum, offset: nat, bit: nat)
    requires IsBignum(x[..]) && x != r && 1 + offset < x.Length && r.Length == x.Length - offset && bit < DIGIT_LENGTH
    modifies r
    ensures r[0] == old(r[0]) && ShiftedDown(r[..], x[..], offset, r.Length - 1, Pow2(bit), 0)
  {
    var scan := 1;
    var end := r.Length - 1;
    ghost var s := Pow2(bit);
    TimesMul(0, s);
    TimesMul(x[1 + offset] as int % s, Pow(0));
    while scan < end
      invariant 1 <= scan <= end && r[0] == old(r[0])
      invariant ShiftedDown(r[..], x[..], offset, scan - 1, s, x[offset + scan] as int % s)
    {
      ghost var before := r[..];
      r[scan] := ShiftDownDigit(x[offset + scan], x[offset + scan + 1], bit);
      ShiftDownIdentity(x[offset + scan], x[offset + scan + 1], bit);
      ShiftedDownNext(before, r[..], r[scan], x[..], offset, scan - 1, s, x[offset + scan] as int % s,
                      x[offset + scan + 1] as int % s);
      scan := scan + 1;
    }
    ghost var before := r[..];
    r[scan] := x[offset + scan] / Bit(bit);
    LastDigit(x[offset + scan] as int, s);
    ShiftedDownNext(before, r[..], r[scan], x[..], offset, scan - 1, s, x[offset + scan] as int % s, 0);
  }

  lemma LastDigit(digit: int, s: nat)
    requires 0 <= digit < B && 0 < s
    ensures 0 <= digit / s < B && s * (digit / s) == digit - digit % s
  {
    var q := digit / s;
    assert digit == q * s + digit % s;
    if q < 0 {
      MulLe(q, -1, s);
    } else {
      MulLe(1, s, q);
    }
  }

  lemma ShiftDownColumn(before: seq<int64>, after: seq<int64>, digit: int64, x: seq<int64>, offset: nat, n: nat,
                        s: nat, lost: int, low: int, low': int)
    requires 1 + n < |before| && after == before[1 + n := digit] && 1 + offset + n < |x|
    requires Times(V(before, 1, n), s) + lost == V(x, 1 + offset, n) + Times(low, Pow(n))
    requires s * digit as int == x[1 + offset + n] as int - low + low' * B
    ensures Times(V(after, 1, n + 1), s) + lost == V(x, 1 + offset, n + 1) + Times(low', Pow(n + 1))
  {
    WindowSame(before, after, 1, n);
    VSnoc(after, 1, n);
    VSnoc(x, 1 + offset, n);
    var d, w := digit as int, x[1 + offset + n] as int;
    TimesAdd(V(after, 1, n), Times(d, Pow(n)), s);
    TimesSwap(d, Pow(n), s);
    Additive.Column(n, s * d, -low', w, -low, 0);
    TimesNegate(low', Pow(n + 1));
    TimesNegate(low, Pow(n));
    TimesMul(0, Pow(n));
  }

  method ShiftDown(x: Bignum, n: nat) returns (r: Bignum)
    requires Normal(x[..]) && x.Length > 1 && 0 < n < (x.Length - 1) * DIGIT_LENGTH
    ensures fresh(r) && Normal(r[..])
    ensures IntOf(r[..]) == Signed(Negative(x[..]), Mag(x[..]) / Pow2(n))
  {
    var offset, bit := n / DIGIT_LENGTH, n % DIGIT_LENGTH;
    r := AllotBignumZeroed((x.Length - 1) - offset, x[0] != 0);
    ShiftDownDigits(x, r, offset, bit);
    ShiftDownValue(r[..], x[..], offset, bit, n);
    r := BignumTrim(r);
  }

  lemma ShiftDownValue(r: seq<int64>, x: seq<int64>, offset: nat, bit: nat, n: nat)
    requires IsBignum(r) && IsBignum(x) && 1 + offset < |x| && |r| == |x| - offset && n == DIGIT_LENGTH * offset + bit
    requires ShiftedDown(r, x, offset, |r| - 1, Pow2(bit), 0)
    ensures Mag(r) == Mag(x) / Pow2(n)
  {
    var lost := x[1 + offset] as int % Pow2(bit);
    var rest := V(x, 1, offset) + Times(lost, Pow(offset));
    ShiftDownWhole(r, x, offset, bit);
    PowPow2(offset);
    Pow2Add(bit, DIGIT_LENGTH * offset);
    assert Pow2(n) == Pow2(bit) * Pow(offset);
    VBound(r, 1, |r| - 1);
    VBound(x, 1, |x| - 1);
    DivModUnique(Mag(x), Pow2(n), Mag(r), rest);
  }

  /** The number is the result shifted up, plus the digits and the bits below it. */
  lemma ShiftDownWhole(r: seq<int64>, x: seq<int64>, offset: nat, bit: nat)
    requires IsBignum(r) && IsBignum(x) && 1 + offset < |x| && |r| == |x| - offset
    requires ShiftedDown(r, x, offset, |r| - 1, Pow2(bit), 0)
    ensures 0 <= Mag(r)
    ensures var rest := V(x, 1, offset) + Times(x[1 + offset] as int % Pow2(bit), Pow(offset));
      && 0 <= rest < Pow2(bit) * Pow(offset)
      && Mag(x) == Times(Pow2(bit) * Pow(offset), Mag(r)) + rest
  {
    var lost := x[1 + offset] as int % Pow2(bit);
    TimesMul(0, Pow(|r| - 1));
    VSplit(x, 1, offset, |r| - 1);
    VBound(x, 1, offset);
    VBound(r, 1, |r| - 1);
    ShiftedParts(V(x, 1, offset), Mag(r), lost, Pow2(bit), Pow(offset));
  }

  /** The bits kept and the bits lost, recombined. */
  lemma ShiftedParts(low: int, kept: nat, lost: int, s: nat, p: nat)
    requires 0 <= low < p && 0 <= lost < s
    ensures 0 <= s * p && 0 <= low + Times(lost, p) < s * p
    ensures low + Times(Times(kept, s) + lost, p) == Times(s * p, kept) + low + Times(lost, p)
  {
    RestBound(low, lost, s, p);
    TimesAdd(Times(kept, s), lost, p);
    TimesTimes(kept, s, p);
    TimesFlip(kept, s * p);
  }

  lemma RestBound(low: int, lost: int, s: nat, p: nat)
    requires 0 <= low < p && 0 <= lost < s
    ensures 0 <= low + Times(lost, p) < s * p
  {
    TimesMono(0, lost, p);
    TimesMono(lost + 1, s, p);
    TimesAdd(lost, 1, p);
    TimesMul(0, p);
    TimesMul(1, p);
    TimesMul(s, p);
  }

  // ----- the operations -----

  /** Shifts the magnitude and keeps the sign. */
  method BignumMagnitudeAsh(x: Bignum, n: int) returns (r: Bignum)
    requires Normal(x[..])
    ensures r == x || fresh(r)
    ensures Normal(r[..])
    ensures n >= 0 ==> IntOf(r[..]) == IntOf(x[..]) * Pow2(n)
    ensures n < 0 ==> IntOf(r[..]) == Signed(Negative(x[..]), Mag(x[..]) / Pow2(-n))
  {
    NormalMag(x[..]);
    if x.Length == 1 {
      ZeroShifts(n);
      return x;
    }
    if n > 0 {
      r := ShiftUp(x, n);
    } else if n < 0 && -n >= (x.Length - 1) * DIGIT_LENGTH {
      ShiftedOut(x[..], -n);
      r := BignumZero();
    } else if n < 0 {
      r := ShiftDown(x, -n);
    } else {
      r := BignumTrim(x);
    }
  }

  lemma ZeroShifts(n: int)
    ensures n >= 0 ==> 0 * Pow2(n) == 0
    ensures n < 0 ==> 0 / Pow2(-n) == 0
  {
  }

  lemma ShiftedOut(s: seq<int64>, n: nat)
    requires Normal(s) && n >= (|s| - 1) * DIGIT_LENGTH
    ensures Mag(s) / Pow2(n) == 0
  {
    NormalMag(s);
    PowPow2(|s| - 1);
    Pow2Mono(DIGIT_LENGTH * (|s| - 1), n);
    TimesMul(Pow2(n), 0);
    DivModUnique(Mag(s), Pow2(n), 0, Mag(s));
  }

  /** Shifting a negative number right goes through the complement, so that it rounds down. */
  method BignumArithmeticShift(x: Bignum, n: int) returns (r: Bignum)
    requires Normal(x[..])
    ensures r == x || fresh(r)
    ensures Normal(r[..]) && IntOf(r[..]) == ShiftInt(IntOf(x[..]), n)
  {
    NormalMag(x[..]);
    if x[0] != 0 && n < 0 {
      var y := BignumBitwiseNot(x);
      NormalMag(y[..]);
      var z := BignumMagnitudeAsh(y, n);
      r := BignumBitwiseNot(z);
      FloorByComplement(IntOf(x[..]), Pow2(-n));
    } else {
      r := BignumMagnitudeAsh(x, n);
    }
  }

  lemma FloorByComplement(x: int, p: nat)
    requires 0 < p
    ensures x / p == -((-x - 1) / p) - 1
  {
    var y := -x - 1;
    var q, r := y / p, y % p;
    assert y == q * p + r;
    assert (-q - 1) * p == -(q * p) - p;
    FloorUnique(x, p, -q - 1, p - 1 - r);
  }

  lemma FloorUnique(x: int, d: nat, q: int, r: int)
    requires 0 < d && x == q * d + r && 0 <= r < d
    ensures x / d == q
  {
    var q', r' := x / d, x % d;
    assert x == q' * d + r';
    if q < q' {
      MulLe(q + 1, q', d);
    } else if q' < q {
      MulLe(q' + 1, q, d);
    }
  }

  /** A shift up and back down is the identity; a shift down drops at most the bits shifted out. */
  lemma ShiftRoundTrip(x: int, n: nat)
    ensures ShiftInt(ShiftInt(x, n), -(n as int)) == x
    ensures 0 <= x - ShiftInt(ShiftInt(x, -(n as int)), n) < Pow2(n)
  {
    var p := Pow2(n);
    FloorUnique(x * p, p, x, 0);
    if n == 0 {
      assert x / 1 == x;
    } else {
      assert x == (x / p) * p + x % p;
    }
  }
}
