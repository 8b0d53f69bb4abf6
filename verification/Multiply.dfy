/** Schoolbook multiplication on half digits (vm-build/vm/bignum.cpp, Multiplication). */
module Multiply {
  import opened Digits
  import opened Bignums
  import opened Additive

  /** The bounds stated in the source for product_low and product_high, and for carry. */
  const PRODUCT_MAX: int := R * R + R * (R - 2) + (R - 1)
  const CARRY_MAX: int := R * (R - 1) + (R - 1)

  /** The four half products of two digits, and the product they add up to. */
  lemma HalfProducts(x: int64, y: int64)
    requires IsDigit(x) && IsDigit(y)
    ensures 0 <= HdLow(x) as int * HdLow(y) as int <= (R - 1) * (R - 1)
    ensures 0 <= HdLow(x) as int * HdHigh(y) as int <= (R - 1) * (R - 1)
    ensures 0 <= HdHigh(x) as int * HdLow(y) as int <= (R - 1) * (R - 1)
    ensures 0 <= HdHigh(x) as int * HdHigh(y) as int <= (R - 1) * (R - 1)
    ensures x as int * y as int
         == HdLow(x) as int * HdLow(y) as int
          + R * (HdHigh(x) as int * HdLow(y) as int + HdLow(x) as int * HdHigh(y) as int)
          + B * (HdHigh(x) as int * HdHigh(y) as int)
  {
    var xl, xh, yl, yh := HdLow(x) as int, HdHigh(x) as int, HdLow(y) as int, HdHigh(y) as int;
    MulBound(xl, yl, R - 1, R - 1);
    MulBound(xl, yh, R - 1, R - 1);
    MulBound(xh, yl, R - 1, R - 1);
    MulBound(xh, yh, R - 1, R - 1);
    ProductOfSums(xh, xl, yh, yl);
  }

  lemma ProductOfSums(xh: int, xl: int, yh: int, yl: int)
    ensures (xh * R + xl) * (yh * R + yl) == xl * yl + R * (xh * yl + xl * yh) + B * (xh * yh)
  {
    var y := yh * R + yl;
    assert (xh * R + xl) * y == R * (xh * y) + xl * y;
    assert xh * y == R * (xh * yh) + xh * yl;
    assert xl * y == R * (xl * yh) + xl * yl;
  }

  /** One multiply-and-add step: digit r plus x times y plus a carry, as a digit and a new carry.
      `ll`, `hl` and `hh` stand for the half products, so that the statement is linear. */
  lemma StepIdentity(r: int, c: int, ll: int, hl: int, hh: int, xy: int, pl: int, ph: int)
    requires 0 <= r < B && 0 <= c <= CARRY_MAX
    requires 0 <= ll <= (R - 1) * (R - 1) && 0 <= hl <= 2 * (R - 1) * (R - 1) && 0 <= hh <= (R - 1) * (R - 1)
    requires xy == ll + R * hl + B * hh && 0 <= xy <= (B - 1) * (B - 1)
    requires pl == r + ll + c % R
    requires ph == hl + pl / R + c / R
    ensures 0 <= pl <= PRODUCT_MAX && 0 <= ph <= PRODUCT_MAX
    ensures 0 <= hh + ph / R <= CARRY_MAX
    ensures ((ph % R) * R + pl % R) + (hh + ph / R) * B == r + xy + c
  {
  }

  /** The body of the inner loop: one digit of x times one digit of y, added to a digit of the result
      and to the carry.  Every sum and product below fits a signed 64-bit word. */
  method MultiplyStep(r: int64, xLow: int64, xHigh: int64, y: int64, carry0: int64) returns (digit: int64, carry: int64)
    requires IsDigit(r) && IsHalf(xLow) && IsHalf(xHigh) && IsDigit(y) && 0 <= carry0 as int <= CARRY_MAX
    ensures IsDigit(digit) && 0 <= carry as int <= CARRY_MAX
    ensures digit as int + carry as int * B == r as int + (xHigh as int * R + xLow as int) * y as int + carry0 as int
  {
    var yLow, yHigh := HdLow(y), HdHigh(y);
    ghost var x := HdCons(xHigh, xLow);
    HalfProducts(x, y);
    MulBound(x as int, y as int, B - 1, B - 1);
    assert HdLow(x) == xLow && HdHigh(x) == xHigh;
    var productLow := r + xLow * yLow + HdLow(carry0);
    var productHigh := xHigh * yLow + xLow * yHigh + HdHigh(productLow) + HdHigh(carry0);
    StepIdentity(r as int, carry0 as int, xLow as int * yLow as int,
                 xHigh as int * yLow as int + xLow as int * yHigh as int, xHigh as int * yHigh as int,
                 x as int * y as int, productLow as int, productHigh as int);
    digit := HdCons(HdLow(productHigh), HdLow(productLow));
    carry := xHigh * yHigh + HdHigh(productHigh);
  }

  /** Adds x times the digits of y into r from position start on; the final carry is returned. */
  method MultiplyRow(x: int64, y: Bignum, r: Bignum, start: nat) returns (carry: int64)
    requires IsDigit(x) && IsBignum(y[..]) && IsBignum(r[..]) && y != r
    requires 1 <= start && start + (y.Length - 1) <= r.Length
    modifies r
    ensures IsBignum(r[..]) && 0 <= carry as int <= CARRY_MAX
    ensures forall k :: 0 <= k < start || start + (y.Length - 1) <= k < r.Length ==> r[k] == old(r[k])
    ensures V(r[..], start, y.Length - 1) + Times(carry as int, Pow(y.Length - 1))
         == V(old(r[..]), start, y.Length - 1) + Times(Mag(y[..]), x as int)
  {
    var xLow, xHigh := HdLow(x), HdHigh(x);
    carry := 0;
    var scan := 0;
    ghost var r0 := r[..];
    TimesMul(0, x as int);
    TimesMul(0, Pow(0));
    while scan < y.Length - 1
      invariant 0 <= scan <= y.Length - 1
      invariant IsBignum(r[..]) && 0 <= carry as int <= CARRY_MAX
      invariant forall k :: 0 <= k < start || start + scan <= k < r.Length ==> r[k] == r0[k]
      invariant V(r[..], start, scan) + Times(carry as int, Pow(scan))
             == V(r0, start, scan) + Times(V(y[..], 1, scan), x as int)
    {
      ghost var before, c := r[..], carry;
      var digit;
      digit, carry := MultiplyStep(r[start + scan], xLow, xHigh, y[1 + scan], carry);
      r[start + scan] := digit;
      RowColumn(before, r[..], digit, r0, y[..], start, scan, x as int, c as int, carry as int);
      scan := scan + 1;
    }
  }

  lemma RowColumn(before: seq<int64>, after: seq<int64>, digit: int64, r0: seq<int64>, y: seq<int64>,
                  start: nat, n: nat, x: nat, c: int, c': int)
    requires 1 + n < |y| && start + n < |r0| == |before| && after == before[start + n := digit]
    requires V(before, start, n) + Times(c, Pow(n)) == V(r0, start, n) + Times(V(y, 1, n), x)
    requires digit as int + c' * B == r0[start + n] as int + x * y[1 + n] as int + c
    ensures V(after, start, n + 1) + Times(c', Pow(n + 1)) == V(r0, start, n + 1) + Times(V(y, 1, n + 1), x)
  {
    assert before[start..start + n] == after[start..start + n];
    VSame(before, start, after, start, n);
    VSnoc(after, start, n);
    VSnoc(r0, start, n);
    VSnoc(y, 1, n);
    var d := y[1 + n] as int;
    Column(n, digit as int, c', r0[start + n] as int, x * d, c);
    TimesAdd(V(y, 1, n), Times(d, Pow(n)), x);
    TimesSwap(d, Pow(n), x);
  }

  lemma TimesSwap(d: int, p: nat, x: nat)
    ensures Times(Times(d, p), x) == Times(x * d, p)
  {
    TimesMul(d, p);
    TimesMul(d * p, x);
    TimesMul(x * d, p);
    MulAssoc(x, d, p);
    Commute(d * p, x);
  }

  /** The rows added so far are the product of the digits of x read so far with y, and the digits
      above them are zero. */
  ghost predicate Rows(r: seq<int64>, x: seq<int64>, y: seq<int64>, n: nat) {
    && IsBignum(r) && 1 <= |x| && 1 <= |y| && |r| == |x| + |y| - 1 && n < |x|
    && V(r, 1, n + (|y| - 1)) == V(x, 1, n) * Mag(y)
    && forall k :: n + |y| <= k < |r| ==> r[k] == 0
  }

  /** The carry out of a row always lands on a zero digit. */
  lemma NextRow(r: seq<int64>, r': seq<int64>, x: seq<int64>, y: seq<int64>, n: nat, carry: int64)
    requires Rows(r, x, y, n) && n + 1 < |x| && 0 <= x[n + 1] && IsBignum(r')
    requires |r'| == |r| && r'[n + |y|] == carry
    requires r'[..n + 1] == r[..n + 1] && r'[n + |y| + 1..] == r[n + |y| + 1..]
    requires V(r', n + 1, |y| - 1) + Times(carry as int, Pow(|y| - 1))
          == V(r, n + 1, |y| - 1) + Times(Mag(y), x[n + 1] as int)
    ensures Rows(r', x, y, n + 1)
  {
    VSnoc(x, 1, n);
    var d := x[n + 1] as int;
    RowsValue(r, r', n, |y| - 1, carry, Times(Mag(y), d));
    RowAlgebra(V(x, 1, n), Pow(n), d, Mag(y));
    forall k | n + 1 + |y| <= k < |r'| ensures r'[k] == 0 {
      var j := k - (n + |y| + 1);
      assert r'[k] == r'[n + |y| + 1..][j] == r[n + |y| + 1..][j] == r[k];
    }
  }

  lemma RowsValue(r: seq<int64>, r': seq<int64>, n: nat, m: nat, carry: int64, row: int)
    requires n + m + 1 < |r| == |r'| && r'[..n + 1] == r[..n + 1] && r'[n + m + 1] == carry
    requires V(r', n + 1, m) + Times(carry as int, Pow(m)) == V(r, n + 1, m) + row
    ensures V(r', 1, n + 1 + m) == V(r, 1, n + m) + Times(row, Pow(n))
  {
    VSplit(r', 1, n, m + 1);
    VSplit(r, 1, n, m);
    VSnoc(r', 1 + n, m);
    assert r[1..1 + n] == r[..n + 1][1..];
    assert r'[1..1 + n] == r'[..n + 1][1..];
    VSame(r, 1, r', 1, n);
    TimesAdd(V(r, 1 + n, m), row, Pow(n));
  }

  lemma RowAlgebra(x: int, p: nat, d: nat, y: int)
    ensures x * y + Times(Times(y, d), p) == (x + Times(d, p)) * y
  {
    TimesMul(y, d);
    TimesMul(y * d, p);
    TimesMul(d, p);
    assert (x + d * p) * y == x * y + d * p * y;
    assert d * p * y == y * d * p;
  }

  /** The loop over the digits of x. */
  method MultiplyRows(x: Bignum, y: Bignum, r: Bignum)
    requires IsBignum(x[..]) && IsBignum(y[..]) && x != r && y != r && Rows(r[..], x[..], y[..], 0)
    modifies r
    ensures r[0] == old(r[0])
    ensures Rows(r[..], x[..], y[..], x.Length - 1)
  {
    var scan := 1;
    while scan < x.Length
      invariant 1 <= scan <= x.Length && r[0] == old(r[0])
      invariant Rows(r[..], x[..], y[..], scan - 1)
    {
      AddRow(x, y, r, scan);
      scan := scan + 1;
    }
  }

  method AddRow(x: Bignum, y: Bignum, r: Bignum, scan: nat)
    requires 1 <= scan < x.Length && IsBignum(x[..]) && IsBignum(y[..]) && x != r && y != r
    requires Rows(r[..], x[..], y[..], scan - 1)
    modifies r
    ensures r[0] == old(r[0]) && Rows(r[..], x[..], y[..], scan)
  {
    var top := scan + (y.Length - 1);
    ghost var r0 := r[..];
    var carry := MultiplyRow(x[scan], y, r, scan);
    assert r[top] == 0;
    ghost var r1 := r[..];
    r[top] := r[top] + carry;
    assert r1[scan..scan + (y.Length - 1)] == r[..][scan..scan + (y.Length - 1)];
    VSame(r1, scan, r[..], scan, y.Length - 1);
    assert r[..][..scan] == r0[..scan];
    assert r[..][top + 1..] == r0[top + 1..];
    NextRow(r0, r[..], x[..], y[..], scan - 1, carry);
  }

  method BignumMultiplyUnsigned(x0: Bignum, y0: Bignum, negative: bool) returns (r: Bignum)
    requires Normal(x0[..]) && Normal(y0[..]) && x0.Length > 1 && y0.Length > 1
    ensures fresh(r) && Normal(r[..])
    ensures IntOf(r[..]) == Signed(negative, Mag(x0[..]) * Mag(y0[..]))
  {
    var x, y := x0, y0;
    if y.Length > x.Length {
      x, y := y, x;
    }
    r := AllotBignumZeroed((x.Length - 1) + (y.Length - 1), negative);
    VZero(r[..], 1, y.Length - 1);
    MultiplyRows(x, y, r);
    Commute(Mag(x[..]), Mag(y[..]));
    r := BignumTrim(r);
  }

  lemma Commute(a: int, b: int)
    ensures a * b == b * a
  {
  }

  /** One digit times a half-digit factor, plus a carry. */
  method ScaleStep(factor: int64, twoDigits: int64, carry0: int64) returns (digit: int64, carry: int64)
    requires 1 < factor < RADIX_ROOT && IsDigit(twoDigits) && IsHalf(carry0)
    ensures IsDigit(digit) && IsHalf(carry)
    ensures digit as int + carry as int * B == factor as int * twoDigits as int + carry0 as int
  {
    var low, high := HdLow(twoDigits), HdHigh(twoDigits);
    MulBound(factor as int, low as int, R - 1, R - 1);
    MulBound(factor as int, high as int, R - 1, R - 1);
    var productLow := factor * low + HdLow(carry0);
    var productHigh := factor * high + HdHigh(productLow) + HdHigh(carry0);
    assert factor as int * (high as int * R + low as int)
        == R * (factor as int * high as int) + factor as int * low as int;
    digit := HdCons(HdLow(productHigh), HdLow(productLow));
    carry := HdHigh(productHigh);
  }

  /** Multiplies the digits of b in place by a factor below the radix root.  BIGNUM_ASSERT(carry == 0):
      the top word of b is zero on entry, so nothing is carried out. */
  method DestructiveScaleUp(b: Bignum, factor: int64)
    requires IsBignum(b[..]) && 1 < b.Length && 1 < factor < RADIX_ROOT
    requires b[b.Length - 1] == 0
    modifies b
    ensures IsBignum(b[..]) && b[0] == old(b[0])
    ensures Mag(b[..]) == Times(old(Mag(b[..])), factor as int)
  {
    var carry: int64 := 0;
    var scan := 1;
    ghost var b0 := b[..];
    TimesMul(0, factor as int);
    TimesMul(0, Pow(0));
    while scan < b.Length
      invariant 1 <= scan <= b.Length && IsHalf(carry)
      invariant IsBignum(b[..]) && b[0] == b0[0]
      invariant forall k :: scan <= k < b.Length ==> b[k] == b0[k]
      invariant V(b[..], 1, scan - 1) + Times(carry as int, Pow(scan - 1)) == Times(V(b0, 1, scan - 1), factor as int)
    {
      ghost var before, c := b[..], carry;
      var digit;
      digit, carry := ScaleStep(factor, b[scan], carry);
      b[scan] := digit;
      ScaleColumn(before, b[..], digit, b0, scan - 1, factor as int, c as int, carry as int);
      scan := scan + 1;
    }
    ScaleFits(b[..], b0, factor as int, carry as int);
  }

  lemma ScaleColumn(before: seq<int64>, after: seq<int64>, digit: int64, b0: seq<int64>, n: nat,
                    f: nat, c: int, c': int)
    requires n + 1 < |b0| && n + 1 < |before| && after == before[n + 1 := digit]
    requires V(before, 1, n) + Times(c, Pow(n)) == Times(V(b0, 1, n), f)
    requires digit as int + c' * B == f * b0[n + 1] as int + c
    ensures V(after, 1, n + 1) + Times(c', Pow(n + 1)) == Times(V(b0, 1, n + 1), f)
  {
    assert before[1..1 + n] == after[1..1 + n];
    VSame(before, 1, after, 1, n);
    VSnoc(after, 1, n);
    VSnoc(b0, 1, n);
    var d := b0[n + 1] as int;
    Column(n, digit as int, c', f * d, 0, c);
    TimesMul(0, Pow(n));
    TimesAdd(V(b0, 1, n), Times(d, Pow(n)), f);
    TimesSwap(d, Pow(n), f);
  }

  /** No carry leaves the top when the top word was zero. */
  lemma ScaleFits(b: seq<int64>, b0: seq<int64>, f: int, c: int)
    requires IsBignum(b) && IsBignum(b0) && 1 < |b| == |b0| && b0[|b0| - 1] == 0 && 0 <= c && 0 <= f < R
    requires Mag(b) + Times(c, Pow(|b| - 1)) == Times(Mag(b0), f)
    ensures c == 0 && Mag(b) == Times(Mag(b0), f)
  {
    var n := |b| - 1;
    TimesMul(Mag(b0), f);
    VBound(b, 1, n);
    VDropZeros(b0, 1, n - 1, n);
    VBound(b0, 1, n - 1);
    MulBound(Mag(b0), f, Pow(n - 1), R);
    TimesMul(0, Pow(n));
    if c > 0 {
      TimesMono(1, c, Pow(n));
      TimesMul(1, Pow(n));
    }
  }

  method BignumMultiplyUnsignedSmallFactor(x: Bignum, y: int64, negative: bool) returns (r: Bignum)
    requires IsBignum(x[..]) && x.Length > 1 && 1 < y < RADIX_ROOT
    ensures fresh(r) && Normal(r[..])
    ensures IntOf(r[..]) == Signed(negative, Mag(x[..]) * y as int)
  {
    var p := AllotBignum(x.Length, negative);
    DestructiveCopy(x, p);
    ghost var copied := p[..];
    p[x.Length] := 0;
    assert p[..][1..|x[..]|] == copied[1..|x[..]|] == x[..][1..];
    CopyMag(x[..], p[..]);
    VDropZeros(p[..], 1, x.Length - 1, x.Length);
    TimesMul(Mag(x[..]), y as int);
    DestructiveScaleUp(p, y);
    r := BignumTrim(p);
  }

  method BignumMultiply(x: Bignum, y: Bignum) returns (r: Bignum)
    requires Normal(x[..]) && Normal(y[..])
    ensures r == x || r == y || fresh(r)
    ensures Normal(r[..]) && IntOf(r[..]) == IntOf(x[..]) * IntOf(y[..])
  {
    var negative := if x[0] != 0 then y[0] == 0 else y[0] != 0;
    NormalMag(x[..]);
    NormalMag(y[..]);
    if x.Length == 1 {
      return x;
    }
    if y.Length == 1 {
      return y;
    }
    SignOfProduct(Negative(x[..]), Negative(y[..]), Mag(x[..]), Mag(y[..]));
    r := MultiplyNonZero(x, y, negative);
  }

  /** The dispatch on one-digit operands: a factor 1 only sets the sign, a half-digit factor takes
      the scaling loop, anything else the schoolbook loop. */
  method MultiplyNonZero(x: Bignum, y: Bignum, negative: bool) returns (r: Bignum)
    requires Normal(x[..]) && Normal(y[..]) && x.Length > 1 && y.Length > 1
    ensures r == x || r == y || fresh(r)
    ensures Normal(r[..]) && IntOf(r[..]) == Signed(negative, Mag(x[..]) * Mag(y[..]))
  {
    if x.Length == 2 {
      var digit := x[1];
      OneDigit(x[..]);
      if digit == 1 {
        r := BignumMaybeNewSign(y, negative);
        return;
      }
      if digit < RADIX_ROOT {
        Commute(digit as int, Mag(y[..]));
        r := BignumMultiplyUnsignedSmallFactor(y, digit, negative);
        return;
      }
    }
    if y.Length == 2 {
      var digit := y[1];
      OneDigit(y[..]);
      if digit == 1 {
        r := BignumMaybeNewSign(x, negative);
        return;
      }
      if digit < RADIX_ROOT {
        r := BignumMultiplyUnsignedSmallFactor(x, digit, negative);
        return;
      }
    }
    r := BignumMultiplyUnsigned(x, y, negative);
  }

  lemma OneDigit(s: seq<int64>)
    requires |s| == 2
    ensures Mag(s) == s[1] as int
  {
    assert V(s, 1, 1) == s[1] as int + B * V(s, 2, 0);
  }

  lemma SignOfProduct(nx: bool, ny: bool, x: int, y: int)
    ensures Signed(nx, x) * Signed(ny, y) == Signed(nx != ny, x * y)
  {
    assert -x * -y == x * y;
    assert -x * y == -(x * y);
    assert x * -y == -(x * y);
  }
}
