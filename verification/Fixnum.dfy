/** Conversions between 64-bit integers and bignums (vm-build/vm/bignum.cpp, FOO_TO_BIGNUM_SIGNED,
    BIGNUM_TO_FOO, bignum_fits_fixnum_p and bignum_to_fixnum_strict). */
module Fixnum {
  import opened Common
  import opened Digits
  import opened Bignums
  import opened Multiply

  newtype uint64 = x: int | 0 <= x < 0x1_0000_0000_0000_0000

  const URADIX: uint64 := 0x4000_0000_0000_0000

  /** The range of a tagged fixnum: 64 bits less four tag bits. */
  const FIXNUM_MAX: int64 := 0x7FF_FFFF_FFFF_FFFF
  const FIXNUM_MIN: int64 := -0x800_0000_0000_0000

  /** `n < 0 ? -n : n` in the unsigned type: the magnitude, the minimum value included. */
  function Magnitude(n: int64): (m: uint64)
    ensures m as int == Abs(n as int)
  {
    if n < 0 then (-(n as int)) as uint64 else n as uint64
  }

  method FixnumToBignum(n: int64) returns (r: Bignum)
    ensures fresh(r) && Normal(r[..]) && IntOf(r[..]) == n as int
  {
    if n == 0 {
      r := BignumZero();
      return;
    }
    if n == 1 {
      r := BignumOne(false);
      return;
    }
    if n == -1 {
      r := BignumOne(true);
      return;
    }
    var negative := n < 0;
    var accumulator := Magnitude(n);
    if accumulator < URADIX {
      r := AllotBignum(1, negative);
      r[1] := (accumulator % URADIX) as int64;
      OneDigit(r[..]);
    } else {
      r := SplitDigits(accumulator, negative);
    }
  }

  /** The digit loop fills a buffer of two digits, the number that 64 bits can need. */
  method SplitDigits(n: uint64, negative: bool) returns (r: Bignum)
    requires 0 < n
    ensures fresh(r) && Normal(r[..]) && IntOf(r[..]) == Signed(negative, n as int)
  {
    var buffer, end := DigitBuffer(n);
    r := AllotBignum(end, negative);
    ghost var sign, digits := r[0], buffer[..];
    var scan := 0;
    while scan < end
      invariant 0 <= scan <= end && r[0] == sign && buffer[..] == digits
      invariant forall k :: 1 <= k < 1 + scan ==> r[k] == buffer[k - 1]
    {
      r[1 + scan] := buffer[scan];
      scan := scan + 1;
    }
    assert r[..][1..1 + end] == buffer[..][0..0 + end];
    VSame(r[..], 1, buffer[..], 0, end);
  }

  method DigitBuffer(n: uint64) returns (buffer: array<int64>, end: nat)
    requires 0 < n
    ensures fresh(buffer) && 1 <= end <= 2 && buffer.Length == 2
    ensures AllDigits(buffer[..], 0, end) && V(buffer[..], 0, end) == n as int && buffer[end - 1] != 0
  {
    buffer := new int64[2];
    var accumulator := n;
    end := 0;
    TimesMul(n as int, 1);
    while end == 0 || accumulator != 0
      invariant 0 <= end <= 2
      invariant accumulator as int < if end == 0 then TWO64 else if end == 1 then 4 else 1
      invariant end > 0 && accumulator == 0 ==> buffer[end - 1] != 0
      invariant end == 0 ==> accumulator > 0
      invariant AllDigits(buffer[..], 0, end)
      invariant V(buffer[..], 0, end) + Times(accumulator as int, Pow(end)) == n as int
      decreases 2 - end
    {
      var digit := (accumulator % URADIX) as int64;
      ghost var before := buffer[..];
      buffer[end] := digit;
      assert before[0..0 + end] == buffer[..][0..0 + end];
      VSame(before, 0, buffer[..], 0, end);
      VSnoc(buffer[..], 0, end);
      NextDigitOut(accumulator as int, digit as int, end);
      accumulator := accumulator / URADIX;
      end := end + 1;
    }
    TimesMul(0, Pow(end));
  }

  lemma NextDigitOut(acc: nat, digit: int, n: nat)
    requires digit == acc % B
    ensures Times(acc, Pow(n)) == Times(digit, Pow(n)) + Times(acc / B, Pow(n + 1))
  {
    var q := acc / B;
    assert acc == digit + B * q;
    TimesAdd(digit, B * q, Pow(n));
    TimesScale(B, q, Pow(n));
    TimesRadix(q, Pow(n));
  }

  /** The value modulo 2^64, read as a signed word; exact whenever the value fits one. */
  method BignumToFixnum(b: Bignum) returns (n: int64)
    requires Normal(b[..])
    ensures n as int == Wrap(IntOf(b[..]))
  {
    if b.Length == 1 {
      return 0;
    }
    var accumulator: uint64 := 0;
    var scan := b.Length;
    while 1 < scan
      invariant 1 <= scan <= b.Length
      invariant accumulator as int == V(b[..], scan, b.Length - scan) % TWO64
    {
      scan := scan - 1;
      ghost var high := V(b[..], scan + 1, b.Length - scan - 1);
      ShiftAdd(accumulator as int, high, b[scan] as int);
      accumulator := ((accumulator as int * B + b[scan] as int) % TWO64) as uint64;
    }
    n := if b[0] != 0 then Wrap(-(accumulator as int)) as int64 else Wrap(accumulator as int) as int64;
    SameWrap(Mag(b[..]));
  }

  lemma ShiftAdd(acc: int, high: int, digit: int)
    requires acc == high % TWO64
    ensures (acc * B + digit) % TWO64 == (digit + B * high) % TWO64
  {
    var q := high / TWO64;
    assert high == q * TWO64 + acc;
    SameResidue(acc * B + digit, digit + B * high, B * q);
  }

  lemma SameResidue(x: int, y: int, k: int)
    requires y == x + k * TWO64
    ensures x % TWO64 == y % TWO64
  {
  }

  lemma SameWrap(x: int)
    ensures Wrap(x % TWO64) == Wrap(x) && Wrap(-(x % TWO64)) == Wrap(-x)
  {
    var q := x / TWO64;
    assert x == q * TWO64 + x % TWO64;
    WrapShift(x % TWO64, q);
    WrapShift(-x, q);
  }

  method BignumFitsFixnumP(b: Bignum) returns (fits: bool)
    requires Normal(b[..])
    ensures fits <==> FIXNUM_MIN as int <= IntOf(b[..]) <= FIXNUM_MAX as int
  {
    NormalMag(b[..]);
    var len := b.Length - 1;
    if len == 0 {
      return true;
    }
    if len > 1 {
      PowMono(1, b.Length - 2);
      assert Pow(1) == B * Pow(0);
      return false;
    }
    OneDigit(b[..]);
    var digit := b[1];
    fits := (b[0] != 0 && digit <= -FIXNUM_MIN) || (b[0] == 0 && digit <= FIXNUM_MAX);
  }

  datatype StrictResult = OutOfFixnumRange | InRange(value: int64)

  method BignumToFixnumStrict(b: Bignum) returns (r: StrictResult)
    requires Normal(b[..])
    ensures r == if FIXNUM_MIN as int <= IntOf(b[..]) <= FIXNUM_MAX as int then InRange(Wrap(IntOf(b[..])) as int64)
                 else OutOfFixnumRange
    ensures r.InRange? ==> r.value as int == IntOf(b[..])
  {
    var fits := BignumFitsFixnumP(b);
    if !fits {
      return OutOfFixnumRange;
    }
    var fix := BignumToFixnum(b);
    WrapExactly(IntOf(b[..]));
    r := InRange(fix);
  }

  /** Any 64-bit integer survives the trip through a bignum, the minimum value included. */
  method RoundTrip(n: int64) returns (m: int64)
    ensures m == n
  {
    var b := FixnumToBignum(n);
    m := BignumToFixnum(b);
    WrapExactly(n as int);
  }
}
