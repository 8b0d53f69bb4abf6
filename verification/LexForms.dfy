/** Which tokens are numbers, words and floats, told from their characters alone
    (classify_word_or_number in src/compiler/lex.rs). */
module LexForms {
  import opened Common
  import opened Lex

  // ----- the value of digits -----

  /** Digits in lower case, without the underscores between them. */
  function Tidy(s: string): string {
    if s == "" then ""
    else Tidy(s[..|s| - 1]) + if s[|s| - 1] == '_' then "" else [LowerDigit(s[|s| - 1])]
  }

  function LowerDigit(c: char): char {
    if 'A' <= c <= 'F' then (c as int + 32) as char else c
  }

  predicate DigitsOnly(s: string, base: nat) {
    forall c <- s :: ('0' <= c <= '9' || 'a' <= c <= 'f') && DigitValue(c) < base
  }

  /** The last digit counts once, the others count `base` times. */
  lemma NumberSnoc(s: string, c: char, base: int)
    ensures Number(s + [c], base) == if c == '_' then Number(s, base) else Number(s, base) * base + DigitValue(c)
  {
    assert (s + [c])[..|s|] == s;
  }

  lemma Snoc(s: string)
    requires s != ""
    ensures s == s[..|s| - 1] + [s[|s| - 1]]
  {}

  /** Neither underscores nor the case of digits change the number. */
  lemma {:induction false} TidyNumber(s: string, base: nat)
    requires Readable(s, base)
    ensures Number(Tidy(s), base) == Number(s, base)
  {
    if s != "" {
      var before, last := s[..|s| - 1], s[|s| - 1];
      assert last in s;
      ReadableBefore(s, base);
      TidyNumber(before, base);
      Snoc(s);
      NumberSnoc(before, last, base);
      if last != '_' {
        NumberSnoc(Tidy(before), LowerDigit(last), base);
        assert DigitValue(LowerDigit(last)) == DigitValue(last);
      } else {
        assert Tidy(before) + "" == Tidy(before);
      }
    }
  }

  lemma ReadableBefore(s: string, base: nat)
    requires s != "" && Readable(s, base)
    ensures Readable(s[..|s| - 1], base)
  {}

  /** What is left are digits of the base. */
  lemma {:induction false} TidyDigits(s: string, base: nat)
    requires Readable(s, base) && base <= 16
    ensures DigitsOnly(Tidy(s), base)
  {
    if s != "" {
      var last := s[|s| - 1];
      assert last in s;
      ReadableBefore(s, base);
      TidyDigits(s[..|s| - 1], base);
      assert last != '_' ==> DigitsOnly([LowerDigit(last)], base);
    }
  }

  /** Zeros in front change nothing either. */
  lemma {:induction false} LeadingZero(s: string, base: nat)
    ensures Number("0" + s, base) == Number(s, base)
  {
    var t := "0" + s;
    if s == "" {
      assert t[..0] == "" && Number(t[..0], base) * base == 0;
    } else {
      assert t[..|t| - 1] == "0" + s[..|s| - 1] && t[|t| - 1] == s[|s| - 1];
      LeadingZero(s[..|s| - 1], base);
    }
  }

  lemma {:induction false} NotZero(s: string, base: nat)
    requires base >= 2 && s != "" && DigitsOnly(s, base)
    ensures Number(s, base) >= 0 && (s[0] != '0' ==> Number(s, base) > 0)
  {
    var before, last := s[..|s| - 1], s[|s| - 1];
    assert last in s && DigitValue(last) >= 0;
    if before == "" {
      assert Number(before, base) * base == 0;
    } else {
      assert forall c <- before :: c in s;
      NotZero(before, base);
      Scaled(Number(before, base), base);
    }
  }

  lemma Scaled(n: int, base: nat)
    requires n >= 0
    ensures n * base >= 0 && (n > 0 && base >= 2 ==> n * base >= base)
  {
    if n > 0 {
      assert n * base == (n - 1) * base + base;
    }
  }

  /** The number read is the only one that is printed like this. */
  lemma {:induction false} NumberPrinted(s: string, base: nat)
    requires base == 2 || base == 10 || base == 16
    requires s != "" && DigitsOnly(s, base) && (s[0] != '0' || |s| == 1)
    ensures Number(s, base) >= 0 && Digits(Number(s, base), base) == s
  {
    if |s| == 1 {
      DigitPrinted(s[0], base);
      assert s == [s[0]];
    } else {
      var before, last := s[..|s| - 1], s[|s| - 1];
      DigitsBefore(s, base);
      NumberPrinted(before, base);
      NotZero(before, base);
      Snoc(s);
      PrintedSnoc(before, base, last);
    }
  }

  lemma DigitsBefore(s: string, base: nat)
    requires |s| > 1 && DigitsOnly(s, base)
    ensures DigitsOnly(s[..|s| - 1], base) && DigitsOnly([s[|s| - 1]], base)
  {
    var before, last := s[..|s| - 1], s[|s| - 1];
    forall c | c in before
      ensures ('0' <= c <= '9' || 'a' <= c <= 'f') && DigitValue(c) < base
    {
      assert c in s;
    }
    assert last in s;
    assert forall c <- [last] :: c == last;
  }

  lemma DigitPrinted(c: char, base: nat)
    requires base == 2 || base == 10 || base == 16
    requires DigitsOnly([c], base)
    ensures Number([c], base) >= 0 && Digits(Number([c], base), base) == [c]
  {
    LastDigit(c, base);
    assert [c][..0] == "" && Number("", base) == 0;
    var d: nat := DigitValue(c);
    assert Number([c], base) == d && Digits(d, base) == [DigitChar(d)];
  }

  lemma LastDigit(c: char, base: nat)
    requires base <= 16 && DigitsOnly([c], base)
    ensures c != '_' && 0 <= DigitValue(c) < base && DigitChar(DigitValue(c)) == c
  {
    assert c in [c];
  }

  lemma PrintedSnoc(s: string, base: nat, c: char)
    requires base == 2 || base == 10 || base == 16
    requires Number(s, base) > 0 && Digits(Number(s, base), base) == s && DigitsOnly([c], base)
    ensures Number(s + [c], base) >= 0 && Digits(Number(s + [c], base), base) == s + [c]
  {
    LastDigit(c, base);
    NumberSnoc(s, c, base);
    DigitsSnoc(Number(s, base), base, DigitValue(c));
  }

  lemma DigitsSnoc(n: nat, base: nat, d: nat)
    requires base == 2 || base == 10 || base == 16
    requires n > 0 && d < base
    ensures n * base + d >= 0 && Digits(n * base + d, base) == Digits(n, base) + [DigitChar(d)]
  {
    Quotient(n, base, d);
    if base == 2 {
      assert n * 2 + d >= 2;
    } else if base == 10 {
      assert n * 10 + d >= 10;
    } else {
      assert n * 16 + d >= 16;
    }
  }

  lemma Quotient(n: nat, base: nat, d: nat)
    requires base == 2 || base == 10 || base == 16
    requires d < base
    ensures (n * base + d) / base == n && (n * base + d) % base == d
  {}

  // ----- the forms of an integer -----

  /** `s` is digits alone or after #, hexadecimal digits after $, binary digits after %, or hexadecimal
      digits and underscores after 0x or 0X. */
  predicate Unsigned(s: string, base: int, digits: string) {
    digits != "" &&
    (|| (base == 10 && (s == digits || s == "#" + digits) && forall c <- digits :: '0' <= c <= '9')
     || (base == 16 && s == "$" + digits &&
         forall c <- digits :: '0' <= c <= '9' || 'a' <= c <= 'f' || 'A' <= c <= 'F')
     || (base == 2 && s == "%" + digits && forall c <- digits :: c == '0' || c == '1')
     || (base == 16 && (s == "0x" + digits || s == "0X" + digits) &&
         forall c <- digits :: '0' <= c <= '9' || 'a' <= c <= 'f' || 'A' <= c <= 'F' || c == '_'))
  }

  /** `s` is one of the forms, or one of them after a minus, and v is what its digits write. */
  ghost predicate Writes(s: string, v: int) {
    exists base, digits :: Signed(s, base, digits, v)
  }

  predicate Signed(s: string, base: int, digits: string, v: int) {
    || (Unsigned(s, base, digits) && v == Wrap(Number(digits, base)))
    || (s != "" && s[0] == '-' && Unsigned(s[1..], base, digits) && v == Wrap(-Number(digits, base)))
  }

  /** A mark that nothing but a whole number may follow. */
  predicate Marked(s: string) {
    s != "" && (s[0] == '$' || s[0] == '%' || s[0] == '#' || (s[0] == '0' && |s| > 1 && (s[1] == 'x' || s[1] == 'X')))
  }

  /** A token that begins with a digit, a dot or a sign, not with a mark, even after the sign, and that has
      a digit, and a dot or an exponent: an e at its end or before a digit or a sign. */
  ghost predicate FloatShaped(s: string) {
    && s != ""
    && ('0' <= s[0] <= '9' || s[0] == '.' || s[0] == '-' || s[0] == '+')
    && !Marked(if s[0] == '-' || s[0] == '+' then s[1..] else s)
    && (exists i :: 0 <= i < |s| && '0' <= s[i] <= '9')
    && (exists i :: 0 <= i < |s| && FloatMark(s, i))
  }

  predicate FloatMark(s: string, i: nat)
    requires i < |s|
  {
    || s[i] == '.'
    || ((s[i] == 'e' || s[i] == 'E') &&
        (i == |s| - 1 || '0' <= s[i + 1] <= '9' || s[i + 1] == '-' || s[i + 1] == '+'))
  }

  /** 0x and no digits, or something else than hexadecimal digits and underscores. */
  predicate BadHex(s: string) {
    && |s| >= 2 && s[0] == '0' && (s[1] == 'x' || s[1] == 'X')
    && (|s| == 2 ||
        exists c <- s[2..] :: !('0' <= c <= '9' || 'a' <= c <= 'f' || 'A' <= c <= 'F' || c == '_'))
  }

  // ----- each form is read as what it is -----

  lemma Has0xExactly(s: string)
    ensures Has0x(s) <==> |s| >= 2 && s[0] == '0' && (s[1] == 'x' || s[1] == 'X')
  {
    if |s| >= 2 {
      assert s[..2] == [s[0], s[1]];
    }
  }

  lemma FloatExactly(s: string)
    ensures LooksLikeFloat(s) <==> FloatShaped(s)
  {
    Has0xExactly(s);
    if s != "" {
      Has0xExactly(s[1..]);
      DigitExactly(s);
      MarkExactly(s);
    }
  }

  lemma DigitExactly(s: string)
    ensures (exists c <- s :: IsDigit(c)) <==> exists i :: 0 <= i < |s| && '0' <= s[i] <= '9'
  {
    if i :| 0 <= i < |s| && '0' <= s[i] <= '9' {
      assert s[i] in s && IsDigit(s[i]);
    }
  }

  lemma MarkExactly(s: string)
    ensures ('.' in s || exists i :: 0 <= i < |s| && ExponentAt(s, i)) <==>
            exists i :: 0 <= i < |s| && FloatMark(s, i)
  {
    if i :| 0 <= i < |s| && FloatMark(s, i) {
      assert s[i] == '.' || ExponentAt(s, i);
    }
    if '.' in s {
      var i :| 0 <= i < |s| && s[i] == '.';
      assert FloatMark(s, i);
    }
    if i :| 0 <= i < |s| && ExponentAt(s, i) {
      assert FloatMark(s, i);
    }
  }

  lemma DecimalNotFloat(s: string)
    requires s != "" && forall c <- s :: '0' <= c <= '9'
    ensures !FloatShaped(s) && !FloatShaped("-" + s)
  {
    var t := "-" + s;
    forall i | 0 <= i < |s|
      ensures !FloatMark(s, i)
    {
      assert s[i] in s;
    }
    forall i | 0 <= i < |t|
      ensures !FloatMark(t, i)
    {
      if i > 0 {
        assert t[i] == s[i - 1] && s[i - 1] in s;
      }
    }
  }

  lemma MarkedNotFloat(s: string)
    requires Marked(s)
    ensures !FloatShaped(s) && !FloatShaped("-" + s)
  {
    assert ("-" + s)[1..] == s;
  }

  lemma UnsignedNotFloat(s: string, base: int, digits: string)
    requires Unsigned(s, base, digits)
    ensures !FloatShaped(s) && !FloatShaped("-" + s)
  {
    if s == digits && base == 10 {
      DecimalNotFloat(s);
    } else {
      MarkedNotFloat(s);
    }
  }

  lemma ReadsDigits(digits: string, base: int)
    requires digits != "" && Readable(digits, base)
    ensures ReadInt(digits, base) == Int(Wrap(Number(digits, base)))
  {}

  /** An unsigned form is read as its value. */
  lemma UnsignedRead(s: string, base: int, digits: string)
    requires Unsigned(s, base, digits)
    ensures Classify(s) == Int(Wrap(Number(digits, base)))
  {
    UnsignedNotFloat(s, base, digits);
    FloatExactly(s);
    if s == digits && base == 10 {
      PlainRead(s);
    } else if s[0] == '0' {
      HexRead(s, digits);
    } else {
      MarkRead(s, base, digits);
    }
  }

  lemma PlainRead(s: string)
    requires Unsigned(s, 10, s) && !LooksLikeFloat(s)
    ensures Classify(s) == Int(Wrap(Number(s, 10)))
  {
    assert s[0] in s;
    if |s| >= 2 {
      assert s[1] in s;
    }
    Has0xExactly(s);
    ReadsDigits(s, 10);
  }

  lemma HexRead(s: string, digits: string)
    requires Unsigned(s, 16, digits) && s[0] == '0' && !LooksLikeFloat(s)
    ensures Classify(s) == Int(Wrap(Number(digits, 16)))
  {
    Has0xExactly(s);
    assert s[2..] == digits;
    HexDigits(digits);
    ReadsDigits(digits, 16);
  }

  lemma MarkRead(s: string, base: int, digits: string)
    requires Unsigned(s, base, digits) && s != digits && IsPrefix(s[0]) && !LooksLikeFloat(s)
    ensures Classify(s) == Int(Wrap(Number(digits, base)))
  {
    assert s[1..] == digits;
    ReadsDigits(digits, base);
  }

  /** After a minus it is read as the negated value. */
  lemma NegatedRead(s: string, base: int, digits: string)
    requires Unsigned(s, base, digits)
    ensures Classify("-" + s) == Int(Wrap(-Number(digits, base)))
  {
    var t := "-" + s;
    UnsignedRead(s, base, digits);
    UnsignedNotFloat(s, base, digits);
    FloatExactly(t);
    Has0xExactly(t);
    assert t[1..] == s && t[1] == s[0];
    assert digits[0] in digits;
    assert IsDigit(s[0]) || IsPrefix(s[0]);
    WrapNegated(Number(digits, base));
  }

  // ----- and nothing else -----

  /** What is read as an integer, and begins without a minus, is an unsigned form. */
  lemma OnlyUnsigned(s: string) returns (base: int, digits: string)
    requires Classify(s).Int? && s[0] != '-'
    ensures Unsigned(s, base, digits)
  {
    Has0xExactly(s);
    if s[0] == '$' {
      base, digits := 16, s[1..];
      assert s == "$" + digits;
    } else if s[0] == '%' {
      base, digits := 2, s[1..];
      assert s == "%" + digits;
    } else if s[0] == '#' {
      base, digits := 10, s[1..];
      assert s == "#" + digits;
    } else if Has0x(s) {
      base, digits := 16, s[2..];
      assert s == s[..2] + digits;
      HexDigits(digits);
    } else {
      base, digits := 10, s;
    }
  }

  lemma HexDigits(digits: string)
    ensures Readable(digits, 16) <==>
            forall c <- digits :: '0' <= c <= '9' || 'a' <= c <= 'f' || 'A' <= c <= 'F' || c == '_'
  {}

  /** What is read as an integer and begins with a minus is an unsigned form after the minus. */
  lemma OnlyNegated(s: string) returns (base: int, digits: string)
    requires Classify(s).Int? && s[0] == '-'
    ensures Unsigned(s[1..], base, digits)
  {
    Has0xExactly(s);
    assert s[0] in s && !AllDigits(s);
    base, digits := OnlyUnsigned(s[1..]);
  }

  /** A token is an integer if and only if it is one of the forms, and then its value is what its digits
      write. */
  lemma IntegerExactly(s: string, v: int)
    ensures Classify(s) == Int(v) <==> Writes(s, v)
  {
    if Classify(s) == Int(v) {
      if s[0] == '-' {
        var base, digits := OnlyNegated(s);
        WritesNegated(s, base, digits);
        assert Signed(s, base, digits, v);
      } else {
        var base, digits := OnlyUnsigned(s);
        UnsignedRead(s, base, digits);
        assert Signed(s, base, digits, v);
      }
    }
    if Writes(s, v) {
      WrittenRead(s, v);
    }
  }

  lemma WritesNegated(s: string, base: int, digits: string)
    requires s != "" && s[0] == '-' && Unsigned(s[1..], base, digits)
    ensures Classify(s) == Int(Wrap(-Number(digits, base)))
  {
    assert s == "-" + s[1..];
    NegatedRead(s[1..], base, digits);
  }

  lemma WrittenRead(s: string, v: int)
    requires Writes(s, v)
    ensures Classify(s) == Int(v)
  {
    var base, digits :| Signed(s, base, digits, v);
    if Unsigned(s, base, digits) && v == Wrap(Number(digits, base)) {
      UnsignedRead(s, base, digits);
    } else {
      WritesNegated(s, base, digits);
    }
  }

  /** What follows a minus is never float-shaped alone. */
  lemma MinusFloat(s: string)
    requires s != "" && s[0] == '-' && FloatShaped(s[1..]) && (IsDigit(s[1]) || IsPrefix(s[1]))
    ensures FloatShaped(s)
  {
    var t := s[1..];
    var i :| 0 <= i < |t| && FloatMark(t, i);
    assert FloatMark(s, i + 1);
    var j :| 0 <= j < |t| && '0' <= t[j] <= '9';
    assert s[j + 1] == t[j];
  }

  /** A token is a float if and only if it is shaped like one. */
  lemma FloatLikeExactly(s: string)
    ensures Classify(s).FloatLike? <==> FloatShaped(s)
    ensures FloatShaped(s) ==> Classify(s) == FloatLike(s)
  {
    FloatExactly(s);
    if Classify(s).FloatLike? && !FloatShaped(s) {
      FloatExactly(s[1..]);
      assert Classify(s[1..]).FloatLike? && LooksLikeFloat(s[1..]) by {
        assert s[1..][0] != '-';
      }
      MinusFloat(s);
    }
  }

  /** A token is refused if and only if it begins with 0x and goes on without hexadecimal digits. */
  lemma MalformedExactly(s: string)
    ensures Classify(s).Malformed? <==> BadHex(s)
  {
    Has0xExactly(s);
    FloatExactly(s);
    if |s| >= 2 {
      HexDigits(s[2..]);
    }
    if BadHex(s) {
      assert Marked(s);
      MarkedNotFloat(s);
    }
    if s != "" && !Has0x(s) && !LooksLikeFloat(s) {
      NoPrefixRefused(s);
    }
  }

  lemma NoPrefixRefused(s: string)
    requires s != "" && !Has0x(s)
    ensures !Classify(s).Malformed?
  {
    assert forall c: char :: IsDigit(c) ==> DigitValue(c) < 10;
    assert forall c: char :: IsHexDigit(c) ==> DigitValue(c) < 16;
  }

  /** The text of a token decides what it is: a float if it is shaped like one, an integer if it has one of
      the forms, nothing if it spoils a hexadecimal form, and else a word with the same text. */
  lemma ClassifyExactly(s: string)
    ensures FloatShaped(s) ==> Classify(s) == FloatLike(s)
    ensures forall v :: Classify(s) == Int(v) <==> Writes(s, v)
    ensures Classify(s).Malformed? <==> BadHex(s)
    ensures !FloatShaped(s) && !BadHex(s) && (forall v :: !Writes(s, v)) ==> Classify(s) == Word(s)
    ensures Classify(s).Word? ==> !FloatShaped(s) && !BadHex(s) && (forall v :: !Writes(s, v))
  {
    FloatLikeExactly(s);
    MalformedExactly(s);
    forall v
      ensures Classify(s) == Int(v) <==> Writes(s, v)
    {
      IntegerExactly(s, v);
    }
    if Classify(s).Int? {
      assert Writes(s, Classify(s).value);
    }
  }

  // ----- what the forms of a float promise -----

  /** Digits around a dot are a float whatever follows, and so are digits before an exponent. */
  lemma FloatRead(sign: string, whole: string, fraction: string, tail: string)
    requires sign == "" || sign == "-" || sign == "+"
    requires (forall c <- whole :: '0' <= c <= '9') && (forall c <- fraction :: '0' <= c <= '9')
    ensures whole + fraction != "" ==>
              var s := sign + (whole + ("." + (fraction + tail))); Classify(s) == FloatLike(s)
    ensures whole != "" && (tail == "" || '0' <= tail[0] <= '9' || tail[0] == '-' || tail[0] == '+') ==>
              var s := sign + (whole + ("e" + tail)); Classify(s) == FloatLike(s)
  {
    if whole + fraction != "" {
      var body := whole + ("." + (fraction + tail));
      assert body[|whole|] == '.';
      if whole == "" {
        assert body[1] == fraction[0] && fraction[0] in fraction;
      } else {
        assert body[0] == whole[0] && whole[0] in whole;
        assert |whole| > 1 ==> body[1] == whole[1] && whole[1] in whole;
      }
      SignedFloat(sign, body, if whole == "" then 1 else 0, |whole|);
    }
    if whole != "" && (tail == "" || '0' <= tail[0] <= '9' || tail[0] == '-' || tail[0] == '+') {
      var body := whole + ("e" + tail);
      assert body[|whole|] == 'e' && body[|whole| + 1..] == tail;
      assert body[0] == whole[0] && whole[0] in whole;
      assert |whole| > 1 ==> body[1] == whole[1] && whole[1] in whole;
      assert tail != "" ==> body[|whole| + 1] == tail[0];
      SignedFloat(sign, body, 0, |whole|);
    }
  }

  lemma SignedFloat(sign: string, body: string, digit: nat, mark: nat)
    requires sign == "" || sign == "-" || sign == "+"
    requires digit < |body| && '0' <= body[digit] <= '9' && mark < |body| && FloatMark(body, mark)
    requires ('0' <= body[0] <= '9' || body[0] == '.') && !Marked(body)
    ensures Classify(sign + body) == FloatLike(sign + body)
  {
    ShapedSigned(sign, body, digit, mark);
    FloatLikeExactly(sign + body);
  }

  lemma ShapedSigned(sign: string, body: string, digit: nat, mark: nat)
    requires sign == "" || sign == "-" || sign == "+"
    requires digit < |body| && '0' <= body[digit] <= '9' && mark < |body| && FloatMark(body, mark)
    requires ('0' <= body[0] <= '9' || body[0] == '.') && !Marked(body)
    ensures FloatShaped(sign + body)
  {
    if sign == "" {
      assert sign + body == body;
    } else {
      var p := sign[0];
      assert sign == [p];
      MarkAfter(p, body, mark);
      var s := [p] + body;
      assert s[0] == p && s[1..] == body && s[digit + 1] == body[digit];
    }
  }

  lemma MarkAfter(p: char, body: string, mark: nat)
    requires mark < |body| && FloatMark(body, mark)
    ensures FloatMark([p] + body, mark + 1)
  {
    var s := [p] + body;
    assert s[mark + 1] == body[mark];
    assert mark < |body| - 1 ==> s[mark + 2] == body[mark + 1];
  }
}
