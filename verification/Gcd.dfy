/** The greatest common divisor by repeated remainder (vm-build/vm/bignum.cpp, the _WIN64 bignum_gcd). */
module Gcd {
  import opened Digits
  import opened Bignums
  import opened Division

  function Multiple(d: int, k: int): int {
    d * k
  }

  ghost predicate Divides(d: int, n: int) {
    exists k :: Multiple(d, k) == n
  }

  /** g is the non-negative greatest common divisor: it divides both numbers, and every common
      divisor divides it.  For two zeros that is zero. */
  ghost predicate IsGcd(g: int, a: int, b: int) {
    0 <= g && Divides(g, a) && Divides(g, b) && forall d :: Divides(d, a) && Divides(d, b) ==> Divides(d, g)
  }

  lemma DividesCombination(d: int, a: int, b: int, q: int)
    requires Divides(d, a) && Divides(d, b)
    ensures Divides(d, a + q * b)
  {
    var i :| Multiple(d, i) == a;
    var j :| Multiple(d, j) == b;
    assert d * (i + q * j) == d * i + q * (d * j);
    assert Multiple(d, i + q * j) == a + q * b;
  }

  lemma DividesNegated(d: int, a: int)
    requires Divides(d, a)
    ensures Divides(d, -a)
  {
    var i :| Multiple(d, i) == a;
    assert Multiple(d, -i) == -a;
  }

  lemma GcdSelf(a: int)
    requires 0 <= a
    ensures IsGcd(a, a, 0)
  {
    assert Multiple(a, 1) == a;
    assert Multiple(a, 0) == 0;
  }

  /** One step of Euclid's algorithm keeps the set of common divisors. */
  lemma GcdStep(g: int, a: int, b: int)
    requires b != 0
    ensures IsGcd(g, a, b) <==> IsGcd(g, b, Rem(a, b))
  {
    var q, r := Quot(a, b), Rem(a, b);
    QuotRemTruncated(a, b);
    forall d | Divides(d, b)
      ensures Divides(d, a) <==> Divides(d, r)
    {
      if Divides(d, a) {
        DividesCombination(d, a, b, -q);
        assert a + -q * b == r;
      }
      if Divides(d, r) {
        DividesCombination(d, r, b, q);
      }
    }
  }

  lemma GcdSymmetric(g: int, a: int, b: int)
    ensures IsGcd(g, a, b) <==> IsGcd(g, b, a)
  {
  }

  /** Signs do not matter. */
  lemma GcdOfMagnitudes(g: int, a: int, b: int)
    requires IsGcd(g, Abs(a), Abs(b))
    ensures IsGcd(g, a, b)
  {
    forall d, x: int | Divides(d, x)
      ensures Divides(d, -x)
    {
      DividesNegated(d, x);
    }
  }

  method BignumGcd(a: Bignum, b: Bignum) returns (r: Bignum)
    requires Normal(a[..]) && Normal(b[..])
    ensures Normal(r[..]) && IsGcd(IntOf(r[..]), IntOf(a[..]), IntOf(b[..]))
  {
    NormalMag(a[..]);
    NormalMag(b[..]);
    var ac := BignumMaybeNewSign(a, false);
    var bc := BignumMaybeNewSign(b, false);
    var order := BignumCompare(ac, bc);
    if order == Less {
      ac, bc := bc, ac;
    }
    ghost var x, y := IntOf(ac[..]), IntOf(bc[..]);
    while bc.Length != 1
      invariant Normal(ac[..]) && Normal(bc[..])
      invariant 0 <= IntOf(ac[..]) && 0 <= IntOf(bc[..])
      invariant forall g :: IsGcd(g, IntOf(ac[..]), IntOf(bc[..])) ==> IsGcd(g, x, y)
      decreases IntOf(bc[..])
    {
      NormalMag(bc[..]);
      var d := BignumRemainder(ac, bc);
      forall g | IsGcd(g, IntOf(bc[..]), Rem(IntOf(ac[..]), IntOf(bc[..])))
        ensures IsGcd(g, x, y)
      {
        GcdStep(g, IntOf(ac[..]), IntOf(bc[..]));
      }
      if d.ZeroDenominator? {
        assert false;
      }
      ac, bc := bc, d.value;
    }
    NormalMag(bc[..]);
    GcdSelf(IntOf(ac[..]));
    r := ac;
    GcdSymmetric(IntOf(r[..]), x, y);
    GcdOfMagnitudes(IntOf(r[..]), IntOf(a[..]), IntOf(b[..]));
  }
}
