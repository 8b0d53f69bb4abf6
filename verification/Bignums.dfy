/** Allocation, signs, trimming and comparison of bignums (vm-build/vm/bignum.cpp). */
module Bignums {
  import opened Digits

  datatype Comparison = Less | Equal | Greater

  /** The sign of the difference of two integers. */
  function CompareInts(x: int, y: int): Comparison {
    if x < y then Less else if x > y then Greater else Equal
  }

  function Signed(negative: bool, magnitude: int): int {
    if negative then -magnitude else magnitude
  }

  // ----- allocation -----

  /** The digits of a new bignum are arbitrary. */
  method AllotBignum(length: nat, negative: bool) returns (r: Bignum)
    ensures fresh(r) && r.Length == length + 1
    ensures Negative(r[..]) <==> negative
  {
    r := new int64[length + 1];
    r[0] := if negative then 1 else 0;
  }

  method AllotBignumZeroed(length: nat, negative: bool) returns (r: Bignum)
    ensures fresh(r) && r.Length == length + 1
    ensures Negative(r[..]) <==> negative
    ensures forall k :: 1 <= k < r.Length ==> r[k] == 0
  {
    r := AllotBignum(length, negative);
    ghost var sign := r[0];
    var scan := 1;
    while scan < length + 1
      invariant 1 <= scan <= length + 1
      invariant r[0] == sign
      invariant forall k :: 1 <= k < scan ==> r[k] == 0
    {
      r[scan] := 0;
      scan := scan + 1;
    }
  }

  method BignumZero() returns (r: Bignum)
    ensures fresh(r) && Normal(r[..]) && IntOf(r[..]) == 0 && r.Length == 1
  {
    r := AllotBignum(0, false);
  }

  method BignumOne(negative: bool) returns (r: Bignum)
    ensures fresh(r) && Normal(r[..]) && IntOf(r[..]) == Signed(negative, 1)
  {
    r := DigitToBignum(1, negative);
  }

  method DigitToBignum(digit: int64, negative: bool) returns (r: Bignum)
    requires IsDigit(digit)
    ensures fresh(r) && Normal(r[..])
    ensures IntOf(r[..]) == Signed(negative, digit as int)
  {
    if digit == 0 {
      r := BignumZero();
    } else {
      r := AllotBignum(1, negative);
      r[1] := digit;
    }
  }

  /** Copies the digits of the source over the low digits of the target; the sign word and any
      higher digits of the target stay. */
  method DestructiveCopy(source: Bignum, target: Bignum)
    requires source != target && 1 <= source.Length <= target.Length
    modifies target
    ensures target[0] == old(target[0])
    ensures target[1..source.Length] == source[1..]
    ensures target[source.Length..] == old(target[source.Length..])
  {
    var scan := 1;
    while scan < source.Length
      invariant 1 <= scan <= source.Length
      invariant target[0] == old(target[0])
      invariant forall k :: 1 <= k < scan ==> target[k] == source[k]
      invariant forall k :: scan <= k < target.Length ==> target[k] == old(target[k])
    {
      target[scan] := source[scan];
      scan := scan + 1;
    }
  }

  /** The magnitude is unchanged by a copy of all the digits. */
  lemma CopyMag(s: seq<int64>, t: seq<int64>)
    requires 1 <= |s| <= |t| && IsBignum(s) && t[1..|s|] == s[1..]
    ensures V(t, 1, |s| - 1) == Mag(s)
    ensures AllDigits(t, 1, |s| - 1)
  {
    assert s[1..1 + (|s| - 1)] == s[1..];
    VSame(s, 1, t, 1, |s| - 1);
    forall k | 1 <= k < |s| ensures IsDigit(t[k]) {
      assert t[k] == t[1..|s|][k - 1] == s[1..][k - 1] == s[k];
    }
  }

  /** The same magnitude under another sign, in a new array. */
  method BignumNewSign(x: Bignum, negative: bool) returns (r: Bignum)
    requires IsBignum(x[..])
    ensures fresh(r) && r.Length == x.Length && IsBignum(r[..])
    ensures r[1..] == x[1..]
    ensures Mag(r[..]) == Mag(x[..]) && (Negative(r[..]) <==> negative)
  {
    r := AllotBignum(x.Length - 1, negative);
    DestructiveCopy(x, r);
    assert r[..][1..|x[..]|] == r[1..] == x[1..] == x[..][1..];
    CopyMag(x[..], r[..]);
  }

  method BignumMaybeNewSign(x: Bignum, negative: bool) returns (r: Bignum)
    requires Normal(x[..]) && (x.Length == 1 ==> !negative)
    ensures r == x || fresh(r)
    ensures Normal(r[..]) && IntOf(r[..]) == Signed(negative, Mag(x[..]))
  {
    if (x[0] != 0) == negative {
      r := x;
    } else {
      r := BignumNewSign(x, negative);
      assert r[..][|r[..]| - 1] == r[1..][r.Length - 2] == x[1..][x.Length - 2];
    }
  }

  // ----- trimming -----

  lemma {:induction false} VDropZeros(s: seq<int64>, lo: nat, n: nat, m: nat)
    requires n <= m && lo + m <= |s|
    requires forall k :: lo + n <= k < lo + m ==> s[k] == 0
    ensures V(s, lo, m) == V(s, lo, n)
  {
    VSplit(s, lo, n, m - n);
    VZero(s, lo + n, m - n);
    TimesMul(0, Pow(n));
  }

  /** Keeps the low `length` digits; words above them are dropped, whatever they hold. */
  method BignumShortenLength(b: Bignum, length: nat) returns (t: Bignum)
    requires length < b.Length && AllDigits(b[..], 1, length)
    ensures t == b || fresh(t)
    ensures t.Length == length + 1 && IsBignum(t[..])
    ensures forall k :: 1 <= k <= length ==> t[k] == b[k]
    ensures Mag(t[..]) == V(b[..], 1, length)
    ensures length == b.Length - 1 ==> t == b
    ensures length < b.Length - 1 ==> fresh(t) && (Negative(t[..]) <==> length != 0 && Negative(b[..]))
  {
    t := b;
    if length < b.Length - 1 {
      t := Reallot(b, length);
      t[0] := if length != 0 && b[0] != 0 then 1 else 0;
    }
    assert t[..][1..1 + length] == b[..][1..1 + length];
    VSame(t[..], 1, b[..], 1, length);
  }

  method Reallot(b: Bignum, length: nat) returns (t: Bignum)
    requires length < b.Length
    ensures fresh(t) && t.Length == length + 1
    ensures forall k :: 1 <= k <= length ==> t[k] == b[k]
  {
    t := new int64[length + 1](_ => 0);
    var scan := 1;
    while scan <= length
      invariant 1 <= scan <= length + 1
      invariant forall k :: 1 <= k < scan ==> t[k] == b[k]
    {
      t[scan] := b[scan];
      scan := scan + 1;
    }
  }

  /** Drops leading zero digits.  The scan may run one place below the digits and read the sign
      word; whatever it finds there, the outcome is an empty digit list. */
  method BignumTrim(b: Bignum) returns (t: Bignum)
    requires IsBignum(b[..])
    requires b.Length == 1 ==> !Negative(b[..])
    ensures t == b || fresh(t)
    ensures Normal(t[..])
    ensures Mag(t[..]) == Mag(b[..]) && IntOf(t[..]) == IntOf(b[..])
  {
    var scan := b.Length;
    var more := true;
    while more && 1 <= scan
      invariant 0 <= scan <= b.Length
      invariant forall k :: 1 <= k < b.Length && (if more then scan <= k else scan < k) ==> b[k] == 0
      invariant !more ==> scan < b.Length && b[scan] != 0
      decreases more, scan
    {
      scan := scan - 1;
      more := b[scan] == 0;
    }
    scan := scan + 1;
    t := b;
    if scan < b.Length {
      VDropZeros(b[..], 1, scan - 1, b.Length - 1);
      t := BignumShortenLength(b, scan - 1);
      if scan == 1 {
        assert Mag(t[..]) == 0;
      }
    }
  }

  // ----- comparison -----

  method BignumCompareUnsigned(x: Bignum, y: Bignum) returns (c: Comparison)
    requires Normal(x[..]) && Normal(y[..])
    ensures c == CompareInts(Mag(x[..]), Mag(y[..]))
  {
    NormalMag(x[..]);
    NormalMag(y[..]);
    if x.Length < y.Length {
      PowMono(x.Length - 1, y.Length - 2);
      return Less;
    }
    if x.Length > y.Length {
      PowMono(y.Length - 1, x.Length - 2);
      return Greater;
    }
    var scan := x.Length;
    while 1 < scan
      invariant 1 <= scan <= x.Length
      invariant x[scan..] == y[scan..]
    {
      scan := scan - 1;
      if x[scan] != y[scan] {
        if x[scan] < y[scan] {
          CompareAt(x[..], y[..], scan);
          return Less;
        }
        CompareAt(y[..], x[..], scan);
        return Greater;
      }
    }
    SameLengthMag(x[..], y[..]);
    assert x[..][1..] == x[1..] == y[1..] == y[..][1..];
    c := Equal;
  }

  /** The highest digit in which two numbers of the same length differ decides their order. */
  lemma CompareAt(s: seq<int64>, t: seq<int64>, k: nat)
    requires IsBignum(s) && IsBignum(t) && |s| == |t| && 1 <= k < |s|
    requires s[k + 1..] == t[k + 1..] && s[k] < t[k]
    ensures Mag(s) < Mag(t)
  {
    var m := |s| - 1 - k;
    VSplit(s, 1, k, m);
    VSplit(t, 1, k, m);
    assert s[k + 1..k + 1 + m] == s[k + 1..];
    assert t[k + 1..k + 1 + m] == t[k + 1..];
    VSame(s, 1 + k, t, 1 + k, m);
    LeadingLess(s, t, k);
  }

  lemma LeadingLess(s: seq<int64>, t: seq<int64>, k: nat)
    requires 1 <= k < |s| && k < |t| && AllDigits(s, 1, k) && AllDigits(t, 1, k) && s[k] < t[k]
    ensures V(s, 1, k) < V(t, 1, k)
  {
    VTop(s, 1, k);
    VTop(t, 1, k);
    TimesMono(s[k] as int + 1, t[k] as int, Pow(k - 1));
  }

  lemma SameLengthMag(s: seq<int64>, t: seq<int64>)
    requires IsBignum(s) && IsBignum(t) && |s| == |t|
    ensures Mag(s) == Mag(t) <==> s[1..] == t[1..]
  {
    var n := |s| - 1;
    assert s[1..1 + n] == s[1..] && t[1..1 + n] == t[1..];
    if Mag(s) == Mag(t) {
      VUnique(s, 1, t, 1, n);
    }
    if s[1..] == t[1..] {
      VSame(s, 1, t, 1, n);
    }
  }

  method BignumEqualP(x: Bignum, y: Bignum) returns (e: bool)
    requires Normal(x[..]) && Normal(y[..])
    ensures e <==> IntOf(x[..]) == IntOf(y[..])
  {
    NormalMag(x[..]);
    NormalMag(y[..]);
    if x.Length == 1 {
      return y.Length == 1;
    }
    if y.Length == 1 || (x[0] != 0) != (y[0] != 0) {
      return false;
    }
    e := BignumEqualPUnsigned(x, y);
  }

  method BignumEqualPUnsigned(x: Bignum, y: Bignum) returns (e: bool)
    requires Normal(x[..]) && Normal(y[..])
    ensures e <==> Mag(x[..]) == Mag(y[..])
  {
    NormalMag(x[..]);
    NormalMag(y[..]);
    if x.Length != y.Length {
      if x.Length < y.Length {
        PowMono(x.Length - 1, y.Length - 2);
      } else {
        PowMono(y.Length - 1, x.Length - 2);
      }
      return false;
    }
    SameLengthMag(x[..], y[..]);
    var scan := 1;
    while scan < x.Length
      invariant 1 <= scan <= x.Length
      invariant x[1..scan] == y[1..scan]
    {
      if x[scan] != y[scan] {
        assert x[..][1..][scan - 1] != y[..][1..][scan - 1];
        return false;
      }
      scan := scan + 1;
    }
    assert scan == x.Length == y.Length;
    assert x[..][1..] == x[1..scan];
    assert y[..][1..] == y[1..scan];
    e := true;
  }

  method BignumCompare(x: Bignum, y: Bignum) returns (c: Comparison)
    requires Normal(x[..]) && Normal(y[..])
    ensures c == CompareInts(IntOf(x[..]), IntOf(y[..]))
  {
    NormalMag(x[..]);
    NormalMag(y[..]);
    if x.Length == 1 {
      c := if y.Length == 1 then Equal else if y[0] != 0 then Greater else Less;
    } else if y.Length == 1 {
      c := if x[0] != 0 then Less else Greater;
    } else if x[0] != 0 {
      if y[0] != 0 {
        c := BignumCompareUnsigned(y, x);
      } else {
        c := Less;
      }
    } else if y[0] != 0 {
      c := Greater;
    } else {
      c := BignumCompareUnsigned(x, y);
    }
  }
}
