/** Signed addition and subtraction of bignums (vm-build/vm/bignum.cpp, Addition and Subtraction). */
module Additive {
  import opened Digits
  import opened Bignums

  /** One column of a sum: the column equation, scaled by the weight of the column. */
  lemma Column(n: nat, r: int, c': int, x: int, y: int, c: int)
    requires r + c' * B == x + y + c
    ensures Times(r, Pow(n)) + Times(c', Pow(n + 1)) == Times(x, Pow(n)) + Times(y, Pow(n)) + Times(c, Pow(n))
  {
    var p := Pow(n);
    TimesAdd(x, y, p);
    TimesAdd(x + y, c, p);
    TimesAdd(r, c' * B, p);
    TimesMul(c' * B, p);
    TimesMul(c', B * p);
    MulAssoc(c', B, p);
  }

  /** The state of a sum after its n low columns: the digits written so far and the carry out of
      them stand for the sum of the operands' low digits.  A borrow is a carry of -1. */
  ghost predicate Summed(r: seq<int64>, n: nat, carry: int, total: int)
    requires n < |r|
  {
    AllDigits(r, 1, n) && V(r, 1, n) + Times(carry, Pow(n)) == total
  }

  lemma NothingSummed(r: seq<int64>)
    requires 0 < |r|
    ensures Summed(r, 0, 0, 0)
  {
    TimesMul(0, Pow(0));
  }

  /** Writing the next column moves the carry up by one place. */
  lemma NextColumn(r: seq<int64>, r': seq<int64>, n: nat, d: int64, total: int, x: int, y: int, c: int, c': int)
    requires n + 1 < |r| && r' == r[n + 1 := d]
    requires Summed(r, n, c, total) && IsDigit(d)
    requires d as int + c' * B == x + y + c
    ensures Summed(r', n + 1, c', total + Times(x, Pow(n)) + Times(y, Pow(n)))
  {
    assert r[1..1 + n] == r'[1..1 + n];
    VSame(r, 1, r', 1, n);
    VSnoc(r', 1, n);
    Column(n, d as int, c', x, y, c);
    forall k | 1 <= k < n + 2 ensures IsDigit(r'[k]) {
      assert k < n + 1 ==> r'[k] == r[k];
    }
  }

  /** The same step when two numbers are added, read off their digits. */
  lemma NextSum(r: seq<int64>, r': seq<int64>, n: nat, d: int64, x: seq<int64>, y: seq<int64>, c: int64, c': int64)
    requires n + 1 < |r| && r' == r[n + 1 := d] && n + 1 < |x| && n + 1 < |y|
    requires Summed(r, n, c as int, V(x, 1, n) + V(y, 1, n)) && IsDigit(d)
    requires d as int + c' as int * B == x[n + 1] as int + y[n + 1] as int + c as int
    ensures Summed(r', n + 1, c' as int, V(x, 1, n + 1) + V(y, 1, n + 1))
  {
    NextColumn(r, r', n, d, V(x, 1, n) + V(y, 1, n), x[n + 1] as int, y[n + 1] as int, c as int, c' as int);
    VSnoc(x, 1, n);
    VSnoc(y, 1, n);
  }

  /** A column above the shorter operand, where only a carry or a borrow c comes in. */
  lemma NextCarry(r: seq<int64>, r': seq<int64>, n: nat, d: int64, x: seq<int64>, y: int, c: int, c': int)
    requires n + 1 < |r| && r' == r[n + 1 := d] && n + 1 < |x|
    requires Summed(r, n, c, V(x, 1, n) + y) && IsDigit(d)
    requires d as int + c' * B == x[n + 1] as int + c
    ensures Summed(r', n + 1, c', V(x, 1, n + 1) + y)
  {
    NextColumn(r, r', n, d, V(x, 1, n) + y, x[n + 1] as int, 0, c, c');
    VSnoc(x, 1, n);
    TimesMul(0, Pow(n));
  }

  /** The same step when one number is taken away from another, read off their digits. */
  lemma NextBorrow(r: seq<int64>, r': seq<int64>, n: nat, d: int64, x: seq<int64>, y: seq<int64>, b: int64, b': int64)
    requires n + 1 < |r| && r' == r[n + 1 := d] && n + 1 < |x| && n + 1 < |y|
    requires Summed(r, n, -(b as int), V(x, 1, n) - V(y, 1, n)) && IsDigit(d)
    requires d as int - b' as int * B == x[n + 1] as int - y[n + 1] as int - b as int
    ensures Summed(r', n + 1, -(b' as int), V(x, 1, n + 1) - V(y, 1, n + 1))
  {
    NextColumn(r, r', n, d, V(x, 1, n) - V(y, 1, n), x[n + 1] as int, -(y[n + 1] as int), -(b as int), -(b' as int));
    VSnoc(x, 1, n);
    VSnoc(y, 1, n);
    TimesNegate(y[n + 1] as int, Pow(n));
  }

  method BignumAddUnsigned(x0: Bignum, y0: Bignum, negative: bool) returns (r: Bignum)
    requires Normal(x0[..]) && Normal(y0[..]) && x0.Length > 1 && y0.Length > 1
    ensures fresh(r) && Normal(r[..])
    ensures IntOf(r[..]) == Signed(negative, Mag(x0[..]) + Mag(y0[..]))
  {
    var x, y := x0, y0;
    if y.Length > x.Length {
      x, y := y, x;
    }
    r := AllotBignum(x.Length, negative);
    var carry := AddColumns(x, y, r);
    var scan;
    scan, carry := AddCarry(x, y, r, carry);
    CopyColumns(x, r, scan, carry as int, Mag(y[..]));
    r := FinishSum(x, y, r, carry);
  }

  /** Stores the carry out of the top column as a new leading digit, or drops the spare word. */
  method FinishSum(x: Bignum, y: Bignum, r0: Bignum, carry: int64) returns (r: Bignum)
    requires Normal(x[..]) && IsBignum(y[..]) && x.Length > 1 && r0.Length == x.Length + 1 && r0 != x && r0 != y
    requires 0 <= carry <= 1 && Summed(r0[..], x.Length - 1, carry as int, Mag(x[..]) + Mag(y[..]))
    modifies r0
    ensures (r == r0 || fresh(r)) && Normal(r[..])
    ensures IntOf(r[..]) == Signed(old(Negative(r0[..])), Mag(x[..]) + Mag(y[..]))
  {
    r := r0;
    if carry != 0 {
      ghost var before := r[..];
      r[x.Length] := 1;
      NextColumn(before, r[..], x.Length - 1, 1, Mag(x[..]) + Mag(y[..]), 0, 0, 1, 0);
      TimesMul(0, Pow(x.Length - 1));
      TimesMul(0, Pow(x.Length));
    } else {
      TimesMul(0, Pow(x.Length - 1));
      SumKeepsLength(r[..], x[..], y[..]);
      r := BignumShortenLength(r, x.Length - 1);
    }
  }

  /** With no carry out, the sum has the length of the longer operand and no leading zero. */
  lemma SumKeepsLength(r: seq<int64>, x: seq<int64>, y: seq<int64>)
    requires Normal(x) && IsBignum(y) && |r| == |x| + 1 && |x| > 1
    requires Summed(r, |x| - 1, 0, Mag(x) + Mag(y))
    ensures r[|x| - 1] != 0
  {
    NormalMag(x);
    VBound(y, 1, |y| - 1);
    VTop(r, 1, |x| - 1);
    TimesMul(0, Pow(|x| - 1));
    TimesMul(0, Pow(|x| - 2));
  }

  method AddColumns(x: Bignum, y: Bignum, r: Bignum) returns (carry: int64)
    requires IsBignum(x[..]) && IsBignum(y[..]) && y.Length <= x.Length < r.Length && r != x && r != y
    modifies r
    ensures r[0] == old(r[0]) && 0 <= carry <= 1
    ensures Summed(r[..], y.Length - 1, carry as int, V(x[..], 1, y.Length - 1) + Mag(y[..]))
  {
    carry := 0;
    var scan := 1;
    NothingSummed(r[..]);
    while scan < y.Length
      invariant 1 <= scan <= y.Length && 0 <= carry <= 1 && r[0] == old(r[0])
      invariant Summed(r[..], scan - 1, carry as int, V(x[..], 1, scan - 1) + V(y[..], 1, scan - 1))
    {
      var sum := x[scan] + y[scan] + carry;
      ghost var before, c := r[..], carry;
      var digit := sum;
      carry := 0;
      if sum >= RADIX {
        digit := sum - RADIX;
        carry := 1;
      }
      r[scan] := digit;
      NextSum(before, r[..], scan - 1, digit, x[..], y[..], c, carry);
      scan := scan + 1;
    }
  }

  /** Runs a carry into the columns above the shorter operand until it dies out. */
  method AddCarry(x: Bignum, y: Bignum, r: Bignum, carry0: int64) returns (scan: nat, carry: int64)
    requires IsBignum(x[..]) && 1 <= y.Length <= x.Length < r.Length && r != x && r != y && 0 <= carry0 <= 1
    requires Summed(r[..], y.Length - 1, carry0 as int, V(x[..], 1, y.Length - 1) + Mag(y[..]))
    modifies r
    ensures r[0] == old(r[0]) && 0 <= carry <= 1
    ensures y.Length <= scan <= x.Length && (carry == 0 || scan == x.Length)
    ensures Summed(r[..], scan - 1, carry as int, V(x[..], 1, scan - 1) + Mag(y[..]))
  {
    carry := carry0;
    scan := y.Length;
    while carry != 0 && scan < x.Length
      invariant y.Length <= scan <= x.Length && 0 <= carry <= 1 && r[0] == old(r[0])
      invariant Summed(r[..], scan - 1, carry as int, V(x[..], 1, scan - 1) + Mag(y[..]))
      decreases x.Length - scan
    {
      var sum := x[scan] + 1;
      ghost var before := r[..];
      var digit := sum - RADIX;
      if sum < RADIX {
        digit := sum;
        carry := 0;
      }
      r[scan] := digit;
      NextCarry(before, r[..], scan - 1, digit, x[..], Mag(y[..]), 1, carry as int);
      scan := scan + 1;
    }
  }

  /** Copies the columns that no carry reaches. */
  method CopyColumns(x: Bignum, r: Bignum, start: nat, ghost carry: int, ghost y: int)
    requires IsBignum(x[..]) && 1 <= start <= x.Length <= r.Length && r != x
    requires carry == 0 || start == x.Length
    requires Summed(r[..], start - 1, carry, V(x[..], 1, start - 1) + y)
    modifies r
    ensures r[0] == old(r[0])
    ensures Summed(r[..], x.Length - 1, carry, Mag(x[..]) + y)
  {
    var scan := start;
    while scan < x.Length
      invariant start <= scan <= x.Length && r[0] == old(r[0])
      invariant Summed(r[..], scan - 1, carry, V(x[..], 1, scan - 1) + y)
    {
      ghost var before := r[..];
      r[scan] := x[scan];
      NextCarry(before, r[..], scan - 1, x[scan], x[..], y, 0, 0);
      scan := scan + 1;
    }
  }

  method BignumSubtractUnsigned(x0: Bignum, y0: Bignum) returns (r: Bignum)
    requires Normal(x0[..]) && Normal(y0[..])
    ensures fresh(r) && Normal(r[..])
    ensures IntOf(r[..]) == Mag(x0[..]) - Mag(y0[..])
  {
    var x, y := x0, y0;
    var negative := false;
    var order := BignumCompareUnsigned(x, y);
    match order {
      case Equal =>
        r := BignumZero();
        return;
      case Less =>
        x, y := y, x;
        negative := true;
      case Greater =>
        negative := false;
    }
    LongerIsGreater(x[..], y[..]);
    r := AllotBignum(x.Length - 1, negative);
    var borrow := SubtractColumns(x, y, r);
    var scan;
    scan, borrow := SubtractBorrow(x, y, r, borrow);
    NoBorrow(r[..], x[..], y[..], scan - 1, borrow as int);
    assert borrow == 0;
    TimesMul(0, Pow(scan - 1));
    CopyColumns(x, r, scan, 0, -Mag(y[..]));
    TimesMul(0, Pow(x.Length - 1));
    r := BignumTrim(r);
  }

  lemma LongerIsGreater(x: seq<int64>, y: seq<int64>)
    requires Normal(x) && Normal(y) && Mag(x) > Mag(y)
    ensures |x| >= |y| && |x| > 1
  {
    NormalMag(x);
    NormalMag(y);
    if |x| < |y| {
      PowMono(|x| - 1, |y| - 2);
    }
  }

  method SubtractColumns(x: Bignum, y: Bignum, r: Bignum) returns (borrow: int64)
    requires IsBignum(x[..]) && IsBignum(y[..]) && y.Length <= x.Length <= r.Length && r != x && r != y
    modifies r
    ensures r[0] == old(r[0]) && 0 <= borrow <= 1
    ensures Summed(r[..], y.Length - 1, -(borrow as int), V(x[..], 1, y.Length - 1) - Mag(y[..]))
  {
    borrow := 0;
    var scan := 1;
    NothingSummed(r[..]);
    while scan < y.Length
      invariant 1 <= scan <= y.Length && 0 <= borrow <= 1 && r[0] == old(r[0])
      invariant Summed(r[..], scan - 1, -(borrow as int), V(x[..], 1, scan - 1) - V(y[..], 1, scan - 1))
    {
      var difference := x[scan] - y[scan] - borrow;
      ghost var before, c := r[..], borrow;
      var digit := difference;
      borrow := 0;
      if difference < 0 {
        digit := difference + RADIX;
        borrow := 1;
      }
      r[scan] := digit;
      NextBorrow(before, r[..], scan - 1, digit, x[..], y[..], c, borrow);
      scan := scan + 1;
    }
  }

  method SubtractBorrow(x: Bignum, y: Bignum, r: Bignum, borrow0: int64) returns (scan: nat, borrow: int64)
    requires IsBignum(x[..]) && 1 <= y.Length <= x.Length <= r.Length && r != x && r != y && 0 <= borrow0 <= 1
    requires Summed(r[..], y.Length - 1, -(borrow0 as int), V(x[..], 1, y.Length - 1) - Mag(y[..]))
    modifies r
    ensures r[0] == old(r[0]) && 0 <= borrow <= 1
    ensures y.Length <= scan <= x.Length && (borrow == 0 || scan == x.Length)
    ensures Summed(r[..], scan - 1, -(borrow as int), V(x[..], 1, scan - 1) - Mag(y[..]))
  {
    borrow := borrow0;
    scan := y.Length;
    while borrow != 0 && scan < x.Length
      invariant y.Length <= scan <= x.Length && 0 <= borrow <= 1 && r[0] == old(r[0])
      invariant Summed(r[..], scan - 1, -(borrow as int), V(x[..], 1, scan - 1) - Mag(y[..]))
      decreases x.Length - scan
    {
      var difference := x[scan] - borrow;
      ghost var before := r[..];
      var digit := difference + RADIX;
      if difference >= 0 {
        digit := difference;
        borrow := 0;
      }
      r[scan] := digit;
      NextCarry(before, r[..], scan - 1, digit, x[..], -Mag(y[..]), -1, -(borrow as int));
      scan := scan + 1;
    }
  }

  /** BIGNUM_ASSERT(borrow == 0): a larger magnitude never borrows past its end. */
  lemma NoBorrow(r: seq<int64>, x: seq<int64>, y: seq<int64>, n: nat, borrow: int)
    requires 1 <= |x| == |r| && 1 <= |y| && n <= |x| - 1
    requires 0 <= borrow <= 1 && (borrow == 0 || n == |x| - 1)
    requires Summed(r, n, -borrow, V(x, 1, n) - Mag(y)) && Mag(x) > Mag(y)
    ensures borrow == 0
  {
    VBound(r, 1, n);
    TimesMul(-borrow, Pow(n));
  }

  method BignumAdd(x: Bignum, y: Bignum) returns (r: Bignum)
    requires Normal(x[..]) && Normal(y[..])
    ensures r == x || r == y || fresh(r)
    ensures Normal(r[..]) && IntOf(r[..]) == IntOf(x[..]) + IntOf(y[..])
  {
    NormalMag(x[..]);
    NormalMag(y[..]);
    if x.Length == 1 {
      r := y;
    } else if y.Length == 1 {
      r := x;
    } else if x[0] != 0 {
      if y[0] != 0 {
        r := BignumAddUnsigned(x, y, true);
      } else {
        r := BignumSubtractUnsigned(y, x);
      }
    } else if y[0] != 0 {
      r := BignumSubtractUnsigned(x, y);
    } else {
      r := BignumAddUnsigned(x, y, false);
    }
  }

  method BignumSubtract(x: Bignum, y: Bignum) returns (r: Bignum)
    requires Normal(x[..]) && Normal(y[..])
    ensures r == x || r == y || fresh(r)
    ensures Normal(r[..]) && IntOf(r[..]) == IntOf(x[..]) - IntOf(y[..])
  {
    NormalMag(x[..]);
    NormalMag(y[..]);
    if x.Length == 1 {
      if y.Length == 1 {
        r := y;
      } else {
        r := BignumNewSign(y, y[0] == 0);
        assert r[..][|r[..]| - 1] == r[1..][r.Length - 2] == y[1..][y.Length - 2];
      }
    } else if y.Length == 1 {
      r := x;
    } else if x[0] != 0 {
      if y[0] != 0 {
        r := BignumSubtractUnsigned(y, x);
      } else {
        r := BignumAddUnsigned(x, y, true);
      }
    } else if y[0] != 0 {
      r := BignumAddUnsigned(x, y, false);
    } else {
      r := BignumSubtractUnsigned(x, y);
    }
  }
}
