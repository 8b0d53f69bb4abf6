/** What several parts of the project share. */
module Common {

  datatype Option<T> = None | Some(value: T)

  function Max(a: nat, b: nat): nat {
    if a >= b then a else b
  }

  // ----- printed numbers -----

  function DigitChar(d: int): char
    requires 0 <= d < 16
  {
    if d < 10 then ('0' as int + d) as char else ('a' as int + d - 10) as char
  }

  function Digits(n: nat, base: nat): (s: string)
    requires 2 <= base <= 16
  {
    if n < base then [DigitChar(n)] else Digits(n / base, base) + [DigitChar(n % base)]
  }

  // ----- 64-bit integers -----

  const TWO63: int := 0x8000_0000_0000_0000
  const TWO64: int := 0x1_0000_0000_0000_0000

  predicate Fits64(x: int) {
    -TWO63 <= x < TWO63
  }

  /** What is left of x in a 64-bit two's-complement cell. */
  function Wrap(x: int): (r: int)
    ensures Fits64(r)
  {
    (x + TWO63) % TWO64 - TWO63
  }

  lemma WrapExactly(x: int)
    ensures Wrap(x) == x <==> Fits64(x)
  {}

  /** Wrapping at every step or once at the end comes to the same. */
  lemma WrapStep(x: int, base: int, d: int)
    requires base == 2 || base == 10 || base == 16
    ensures Wrap(Wrap(Wrap(x) * base) + d) == Wrap(x * base + d)
  {
    var k := (x + TWO63) / TWO64;
    assert x == Wrap(x) + k * TWO64;
    if base == 2 {
      Multiples(Wrap(x) * 2, d, 2 * k);
    } else if base == 10 {
      Multiples(Wrap(x) * 10, d, 10 * k);
    } else {
      Multiples(Wrap(x) * 16, d, 16 * k);
    }
  }

  lemma Multiples(y: int, d: int, k: int)
    ensures Wrap(Wrap(y) + d) == Wrap(y + k * TWO64 + d)
  {
    var j := (y + TWO63) / TWO64;
    WrapShift(y + d, 0 - j);
    WrapShift(y + d, k);
  }

  lemma WrapShift(y: int, k: int)
    ensures Wrap(y + k * TWO64) == Wrap(y)
  {
    var q := (y + TWO63) / TWO64;
    var r := (y + TWO63) % TWO64;
    assert y + k * TWO64 + TWO63 == (q + k) * TWO64 + r;
    RemainderUnique(y + k * TWO64 + TWO63, q + k, r);
  }

  lemma RemainderUnique(z: int, q: int, r: int)
    requires z == q * TWO64 + r && 0 <= r < TWO64
    ensures z % TWO64 == r
  {
    var q', r' := z / TWO64, z % TWO64;
    assert (q - q') * TWO64 == r' - r;
  }

  lemma WrapNegated(x: int)
    ensures Wrap(-Wrap(x)) == Wrap(-x)
  {
    var k := (x + TWO63) / TWO64;
    assert Wrap(x) == x - k * TWO64;
    assert -Wrap(x) == -x + k * TWO64;
    WrapShift(-x, k);
  }
}
