/** Telling numbers from words, and reading integers (src/compiler/lex.rs). */
module Lex {
  import opened Common

  // ----- digits -----

  predicate IsDigit(c: char) {
    '0' <= c <= '9'
  }

  predicate IsHexDigit(c: char) {
    IsDigit(c) || 'a' <= c <= 'f' || 'A' <= c <= 'F'
  }

  predicate AllDigits(s: string) {
    forall c <- s :: IsDigit(c)
  }

  predicate AllHexDigits(s: string) {
    forall c <- s :: IsHexDigit(c)
  }

  predicate AllBinaryDigits(s: string) {
    forall c <- s :: c == '0' || c == '1'
  }

  function DigitValue(c: char): int {
    if IsDigit(c) then c as int - '0' as int
    else if 'a' <= c <= 'f' then 10 + (c as int - 'a' as int)
    else if 'A' <= c <= 'F' then 10 + (c as int - 'A' as int)
    else 99
  }

  /** Underscores separate digits and have no value. */
  predicate Readable(s: string, base: int) {
    forall c <- s :: c == '_' || DigitValue(c) < base
  }

  /** The number that the digits write, without any bound. */
  function Number(s: string, base: int): int {
    if s == "" then 0
    else
      var last := s[|s| - 1];
      var before := Number(s[..|s| - 1], base);
      if last == '_' then before else before * base + DigitValue(last)
  }

  datatype Lexed = Int(value: int) | Word(raw: string) | FloatLike(raw: string) | Malformed(reason: string)

  /** Reads digits into a wrapping 64-bit accumulator. */
  method ParseIntWithBase(digits: string, base: int) returns (r: Lexed)
    requires base == 2 || base == 10 || base == 16
    ensures r.Int? <==> digits != "" && Readable(digits, base)
    ensures r.Int? ==> r.value == Wrap(Number(digits, base))
    ensures digits == "" ==> r == Malformed("number prefix with no digits")
    ensures digits != "" && r.Malformed? ==>
              exists i | 0 <= i < |digits| ::
                && Readable(digits[..i], base) && digits[i] != '_' && DigitValue(digits[i]) >= base
                && r.reason == if IsHexDigit(digits[i]) then "digit out of base range"
                               else "non-digit character in number"
    ensures r == ReadInt(digits, base)
  {
    if digits == "" {
      return Malformed("number prefix with no digits");
    }
    var acc := 0;
    for i := 0 to |digits|
      invariant Readable(digits[..i], base)
      invariant acc == Wrap(Number(digits[..i], base))
    {
      var c := digits[i];
      assert digits[..i + 1][..i] == digits[..i] && digits[..i + 1] == digits[..i] + [c];
      var d;
      if '0' <= c <= '9' {
        d := c as int - '0' as int;
      } else if 'a' <= c <= 'f' {
        d := 10 + (c as int - 'a' as int);
      } else if 'A' <= c <= 'F' {
        d := 10 + (c as int - 'A' as int);
      } else if c == '_' {
        continue;
      } else {
        assert c in digits;
        FirstBad(digits, i, base);
        return Malformed("non-digit character in number");
      }
      if d >= base {
        assert c in digits;
        FirstBad(digits, i, base);
        return Malformed("digit out of base range");
      }
      WrapStep(Number(digits[..i], base), base, d);
      acc := Wrap(Wrap(acc * base) + d);
    }
    assert digits[..|digits|] == digits;
    r := Int(acc);
  }

  function BadReason(c: char): string {
    if IsHexDigit(c) then "digit out of base range" else "non-digit character in number"
  }

  /** The first character that is neither a digit of the base nor an underscore. */
  function FirstBadChar(s: string, base: int): char
    requires !Readable(s, base)
  {
    if s[0] != '_' && DigitValue(s[0]) >= base then s[0]
    else
      assert s == [s[0]] + s[1..];
      FirstBadChar(s[1..], base)
  }

  lemma {:induction false} FirstBad(s: string, i: nat, base: int)
    requires i < |s| && Readable(s[..i], base) && s[i] != '_' && DigitValue(s[i]) >= base
    ensures !Readable(s, base) && FirstBadChar(s, base) == s[i]
    decreases i
  {
    assert s[i] in s;
    if i > 0 {
      assert s[0] in s[..i];
      assert s[1..][..i - 1] == s[..i][1..];
      assert forall c <- s[..i][1..] :: c in s[..i];
      FirstBad(s[1..], i - 1, base);
    }
  }

  function ReadInt(digits: string, base: int): Lexed {
    if digits == "" then Malformed("number prefix with no digits")
    else if Readable(digits, base) then Int(Wrap(Number(digits, base)))
    else Malformed(BadReason(FirstBadChar(digits, base)))
  }

  // ----- classification -----

  predicate StartsWith(s: string, p: string) {
    |s| >= |p| && s[..|p|] == p
  }

  predicate Has0x(s: string) {
    StartsWith(s, "0x") || StartsWith(s, "0X")
  }

  predicate IsPrefix(c: char) {
    c == '$' || c == '%' || c == '#'
  }

  /** A dot, or an exponent mark at the end or before a digit or a sign, in a token that begins like a
      number and holds a digit. */
  predicate LooksLikeFloat(s: string) {
    && s != ""
    && !Has0x(s) && !IsPrefix(s[0])
    && !((s[0] == '-' || s[0] == '+') && |s| >= 2 && (IsPrefix(s[1]) || Has0x(s[1..])))
    && (IsDigit(s[0]) || s[0] == '-' || s[0] == '+' || s[0] == '.')
    && (exists c <- s :: IsDigit(c))
    && ('.' in s || exists i :: 0 <= i < |s| && ExponentAt(s, i))
  }

  predicate ExponentAt(s: string, i: nat)
    requires i < |s|
  {
    (s[i] == 'e' || s[i] == 'E') && (i + 1 == |s| || IsDigit(s[i + 1]) || s[i + 1] == '-' || s[i + 1] == '+')
  }

  function Classify(s: string): Lexed
    decreases |s|
  {
    if s == "" then Word("")
    else if LooksLikeFloat(s) then FloatLike(s)
    else if s[0] == '$' && s[1..] != "" && AllHexDigits(s[1..]) then ReadInt(s[1..], 16)
    else if s[0] == '%' && s[1..] != "" && AllBinaryDigits(s[1..]) then ReadInt(s[1..], 2)
    else if s[0] == '#' && s[1..] != "" && AllDigits(s[1..]) then ReadInt(s[1..], 10)
    else if Has0x(s) then ReadInt(s[2..], 16)
    else
      var negated :=
        if s[0] == '-' && s[1..] != "" && (IsDigit(s[1]) || IsPrefix(s[1])) then Classify(s[1..]) else Word(s);
      if negated.Int? then Int(Wrap(-negated.value))
      else if negated.FloatLike? then FloatLike(s)
      else if AllDigits(s) then ReadInt(s, 10)
      else Word(s)
  }

  // ----- printing -----

  function Decimal(v: int): string {
    if v < 0 then "-" + Digits(-v, 10) else Digits(v, 10)
  }

  lemma DigitCharValue(d: int)
    requires 0 <= d < 16
    ensures DigitValue(DigitChar(d)) == d && IsHexDigit(DigitChar(d)) && DigitChar(d) != '_'
    ensures d < 10 ==> IsDigit(DigitChar(d))
  {}

  lemma Divided(n: nat, base: nat)
    requires base == 2 || base == 10 || base == 16
    ensures n / base * base + n % base == n && (n > 0 ==> n / base < n)
  {}

  predicate DigitsOf(s: string, base: nat) {
    forall c <- s :: DigitValue(c) < base && IsHexDigit(c) && c != '_' && (base == 10 ==> IsDigit(c))
  }

  lemma {:induction false} DigitsRead(n: nat, base: nat)
    requires base == 2 || base == 10 || base == 16
    ensures Digits(n, base) != "" && DigitsOf(Digits(n, base), base)
    ensures Number(Digits(n, base), base) == n
  {
    var s := Digits(n, base);
    Divided(n, base);
    if n >= base {
      var before := Digits(n / base, base);
      DigitsRead(n / base, base);
      DigitCharValue(n % base);
      assert s[..|s| - 1] == before && s[|s| - 1] == DigitChar(n % base);
      assert Number(s, base) == Number(before, base) * base + n % base;
    } else {
      DigitCharValue(n);
      assert s[..0] == "" && Number(s[..0], base) == 0;
      assert 0 * base == 0;
    }
  }

  lemma PlainDigits(s: string)
    requires s != "" && AllDigits(s)
    ensures !LooksLikeFloat(s) && !LooksLikeFloat("-" + s) && Classify(s) == ReadInt(s, 10)
  {
    assert s[0] in s;
    if |s| >= 2 {
      assert s[1] in s;
    }
    assert !Has0x(s);
    var t := "-" + s;
    forall i | 0 <= i < |s|
      ensures !ExponentAt(s, i)
    {
      assert s[i] in s;
    }
    forall i | 0 <= i < |t|
      ensures !ExponentAt(t, i)
    {
      if i > 0 { assert t[i] == s[i - 1] && s[i - 1] in s; }
    }
    assert '.' !in t;
  }

  /** A printed integer of any size is read as its value in a 64-bit cell. */
  lemma DecimalRead(v: int)
    ensures Classify(Decimal(v)) == Int(Wrap(v))
  {
    var n: nat := if v < 0 then -v else v;
    var s := Digits(n, 10);
    DigitsRead(n, 10);
    PlainDigits(s);
    assert Readable(s, 10);
    if v < 0 {
      var t := "-" + s;
      assert t[0] == '-' && t[1..] == s && s[0] in s && t[1] == s[0];
      assert !Has0x(t);
      WrapNegated(n);
    }
  }

  /** Printing an integer in decimal and reading it gives it back if and only if it fits 64 bits, the
      smallest one included. */
  lemma RoundTrip(v: int)
    ensures Classify(Decimal(v)) == Int(v) <==> Fits64(v)
  {
    DecimalRead(v);
    WrapExactly(v);
  }

  lemma PrefixedNotFloat(p: char, s: string)
    requires IsPrefix(p)
    ensures !LooksLikeFloat([p] + s) && ([p] + s)[1..] == s && ([p] + s)[0] == p
  {}

  lemma DigitsReadable(s: string, base: nat)
    requires DigitsOf(s, base)
    ensures Readable(s, base)
  {}

  lemma BinaryDigits(b: string)
    requires DigitsOf(b, 2)
    ensures AllBinaryDigits(b)
  {
    forall c | c in b
      ensures c == '0' || c == '1'
    {
      assert DigitValue(c) < 2;
    }
  }

  lemma HexRead(n: nat)
    ensures Classify("$" + Digits(n, 16)) == Int(Wrap(n))
  {
    DigitsRead(n, 16);
    PrefixedNotFloat('$', Digits(n, 16));
    DigitsReadable(Digits(n, 16), 16);
  }

  lemma BinaryRead(n: nat)
    ensures Classify("%" + Digits(n, 2)) == Int(Wrap(n))
  {
    DigitsRead(n, 2);
    var b := Digits(n, 2);
    PrefixedNotFloat('%', b);
    BinaryDigits(b);
    DigitsReadable(b, 2);
    assert Classify("%" + b) == ReadInt(b, 2);
  }

  lemma ExplicitRead(n: nat)
    ensures Classify("#" + Digits(n, 10)) == Int(Wrap(n))
  {
    DigitsRead(n, 10);
    PrefixedNotFloat('#', Digits(n, 10));
    DigitsReadable(Digits(n, 10), 10);
  }

  lemma Hex0xRead(n: nat)
    ensures Classify("0x" + Digits(n, 16)) == Int(Wrap(n))
  {
    DigitsRead(n, 16);
    var s := "0x" + Digits(n, 16);
    assert s[..2] == "0x" && s[2..] == Digits(n, 16) && s[0] == '0';
  }

  /** The prefixed forms write any 64-bit pattern: base sixteen, two and an explicit ten. */
  lemma PrefixedRead(n: nat)
    ensures Classify("$" + Digits(n, 16)) == Classify("0x" + Digits(n, 16)) == Int(Wrap(n))
    ensures Classify("%" + Digits(n, 2)) == Classify("#" + Digits(n, 10)) == Int(Wrap(n))
  {
    HexRead(n);
    Hex0xRead(n);
    BinaryRead(n);
    ExplicitRead(n);
  }
}
