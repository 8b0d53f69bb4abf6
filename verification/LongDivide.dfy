/** Long division by a denominator of two or more digits (vm-build/vm/bignum.cpp,
    bignum_divide_unsigned_normalized and bignum_divide_subtract). */
module LongDivide {
  import opened Digits
  import opened Bignums
  import opened Additive
  import opened Multiply
  import opened DigitDivide

  // ----- the trial digit -----

  /** Three digits as a number. */
  function ThreeDigits(a: int64, b: int64, c: int64): int {
    (a as int * B + b as int) * B + c as int
  }

  function TwoDigits(a: int64, b: int64): int {
    a as int * B + b as int
  }

  /** The guess from the two leading digits of the window and the leading digit of the divisor. */
  method FirstTrial(uj: int64, uj1: int64, v1: int64) returns (guess: int64, ch: int64)
    requires IsDigit(uj) && IsDigit(uj1) && IsDigit(v1) && RADIX / 2 <= v1 && uj <= v1
    ensures IsDigit(guess) && 0 <= ch
    ensures ch as int == TwoDigits(uj, uj1) - Times(v1 as int, guess as int)
    ensures TwoDigits(uj, uj1) < Times(v1 as int, guess as int) + v1 as int || guess == RADIX - 1
  {
    if uj != v1 {
      guess, ch := BignumDigitDivide(uj, uj1, v1);
    } else {
      guess, ch := RADIX - 1, uj1 + v1;
      TimesMul(v1 as int, RADIX as int - 1);
    }
  }

  /** The trial quotient digit, corrected by the second digit of the divisor.  It is the largest digit
      whose product with the two leading digits of the divisor fits into the window's three. */
  method TrialDigit(uj: int64, uj1: int64, uj2: int64, v1: int64, v2: int64) returns (guess: int64)
    requires IsDigit(uj) && IsDigit(uj1) && IsDigit(uj2) && IsDigit(v1) && IsDigit(v2)
    requires RADIX / 2 <= v1 && uj <= v1
    ensures IsDigit(guess)
    ensures Times(TwoDigits(v1, v2), guess as int) <= ThreeDigits(uj, uj1, uj2)
    ensures ThreeDigits(uj, uj1, uj2) < Times(TwoDigits(v1, v2), guess as int) + TwoDigits(v1, v2) || guess == RADIX - 1
  {
    ghost var u3 := ThreeDigits(uj, uj1, uj2);
    var ch, cl;
    guess, ch := FirstTrial(uj, uj1, v1);
    cl := uj2;
    TimesMono(0, v2 as int, guess as int);
    TimesMul(0, guess as int);
    while true
      invariant IsDigit(guess) && 0 <= ch && IsDigit(cl)
      invariant ch as int * B + cl as int == u3 - B * Times(v1 as int, guess as int)
      invariant u3 < B * Times(v1 as int, guess as int) + Times(v2 as int, guess as int) + TwoDigits(v1, v2)
             || guess == RADIX - 1
      decreases guess
    {
      var pl, ph := MultiplyStep(0, HdLow(guess), HdHigh(guess), v2, 0);
      TimesMul(v2 as int, guess as int);
      Commute(guess as int, v2 as int);
      if ch > ph || (ch == ph && cl >= pl) {
        break;
      }
      assert guess > 0 by {
        TimesMul(v2 as int, 0);
      }
      guess := guess - 1;
      ch := ch + v1;
      if ch >= RADIX {
        TrialFits(v2 as int, guess as int);
        break;
      }
    }
    SplitTwo(v1 as int, v2 as int, guess as int);
  }

  lemma TrialFits(v2: int, guess: nat)
    requires 0 <= v2 < B && guess < B
    ensures 0 <= Times(v2, guess) < B * B
  {
    TimesMul(v2, guess);
    MulBound(v2, guess, B - 1, B - 1);
  }

  lemma SplitTwo(v1: int, v2: int, g: nat)
    ensures Times(v1 * B + v2, g) == B * Times(v1, g) + Times(v2, g)
  {
    TimesAdd(B * v1, v2, g);
    TimesScale(B, v1, g);
  }

  /** The trial digit is never too small and at most one too large for the whole window. */
  lemma TrialIsClose(u: int, w: int, u3: int, v2: int, p: nat, guess: nat)
    requires 0 < p && B <= v2 && guess < B && 0 <= u3
    requires Times(u3, p) <= u < Times(u3 + 1, p)
    requires Times(v2, p) <= w < Times(v2 + 1, p)
    requires u < B * w
    requires Times(v2, guess) <= u3
    requires u3 < Times(v2, guess) + v2 || guess == B - 1
    ensures Times(w, guess) <= u + w
    ensures u < Times(w, guess) + w
  {
    TimesMul(v2, guess);
    TimesMono(0, v2, p);
    TimesMul(0, p);
    TrialNotSmall(u, w, u3, v2, p, guess);
    TrialNotLarge(u, w, u3, v2, p, guess);
  }

  lemma TrialNotSmall(u: int, w: int, u3: int, v2: int, p: nat, guess: nat)
    requires u < Times(u3 + 1, p) && Times(v2, p) <= w && u < B * w
    requires u3 < Times(v2, guess) + v2 || guess == B - 1
    ensures u < Times(w, guess) + w
  {
    TimesMul(w, guess);
    if guess == B - 1 {
      assert w * (B - 1) + w == B * w;
    } else {
      TimesMono(u3 + 1, Times(v2, guess + 1), p);
      TimesMul(v2, guess + 1);
      TimesMul(v2 * (guess + 1), p);
      TimesMul(v2, p);
      TimesMono(Times(v2, p), w, guess + 1);
      TimesMul(v2 * p, guess + 1);
      assert v2 * (guess + 1) * p == v2 * p * (guess + 1);
      TimesMul(w, guess + 1);
      assert w * (guess + 1) == w * guess + w;
    }
  }

  lemma TrialNotLarge(u: int, w: int, u3: int, v2: int, p: nat, guess: nat)
    requires Times(u3, p) <= u && w < Times(v2 + 1, p) && guess <= v2 && 0 <= u3 && 0 <= w
    requires Times(v2, guess) <= u3
    ensures Times(w, guess) <= u + w
  {
    if guess == 0 {
      TimesMono(0, u3, p);
      TimesMul(0, p);
    } else {
      TimesMono(w, Times(v2 + 1, p), guess - 1);
      TimesMul(v2 + 1, p);
      TimesMul((v2 + 1) * p, guess - 1);
      TimesMul(v2, guess);
      assert (v2 + 1) * (guess - 1) == v2 * guess - v2 + guess - 1;
      TimesMono((v2 + 1) * (guess - 1), u3, p);
      TimesMul((v2 + 1) * (guess - 1), p);
      assert (v2 + 1) * p * (guess - 1) == (v2 + 1) * (guess - 1) * p;
    }
  }

  // ----- multiply and subtract -----

  /** One digit of multiply-and-subtract. */
  method SubtractStep(u: int64, gl: int64, gh: int64, v: int64, carry0: int64) returns (digit: int64, carry: int64)
    requires IsDigit(u) && IsHalf(gl) && IsHalf(gh) && IsDigit(v) && IsDigit(carry0)
    ensures IsDigit(digit) && IsDigit(carry)
    ensures digit as int - carry as int * B == u as int - (gh as int * R + gl as int) * v as int - carry0 as int
  {
    var pl, ph := MultiplyStep(0, gl, gh, v, carry0);
    MulBound(gh as int * R + gl as int, v as int, B - 1, B - 1);
    var diff := u - pl;
    if diff < 0 {
      digit := diff + RADIX;
      carry := ph + 1;
    } else {
      digit := diff;
      carry := ph;
    }
  }

  /** The first loop of bignum_divide_subtract: takes guess times v away from the low digits of the window. */
  method SubtractProduct(v: Bignum, guess: int64, u: Bignum, start: nat) returns (carry: int64)
    requires IsBignum(v[..]) && IsBignum(u[..]) && u != v && IsDigit(guess)
    requires 1 <= start && start + (v.Length - 1) <= u.Length
    modifies u
    ensures IsBignum(u[..]) && IsDigit(carry)
    ensures forall k :: 0 <= k < start || start + (v.Length - 1) <= k < u.Length ==> u[k] == old(u[k])
    ensures V(u[..], start, v.Length - 1) + Times(-(carry as int), Pow(v.Length - 1))
         == V(old(u[..]), start, v.Length - 1) - Times(Mag(v[..]), guess as int)
  {
    var gl, gh := HdLow(guess), HdHigh(guess);
    carry := 0;
    var scan := 0;
    ghost var u0 := u[..];
    TimesMul(0, guess as int);
    TimesMul(0, Pow(0));
    while scan < v.Length - 1
      invariant 0 <= scan <= v.Length - 1
      invariant IsBignum(u[..]) && IsDigit(carry)
      invariant forall k :: 0 <= k < start || start + scan <= k < u.Length ==> u[k] == u0[k]
      invariant V(u[..], start, scan) + Times(-(carry as int), Pow(scan))
             == V(u0, start, scan) - Times(V(v[..], 1, scan), guess as int)
    {
      ghost var before, c := u[..], carry;
      var digit;
      digit, carry := SubtractStep(u[start + scan], gl, gh, v[1 + scan], carry);
      u[start + scan] := digit;
      SubtractColumn(before, u[..], digit, u0, v[..], start, scan, guess as int, c as int, carry as int);
      scan := scan + 1;
    }
  }

  lemma SubtractColumn(before: seq<int64>, after: seq<int64>, digit: int64, u0: seq<int64>, v: seq<int64>,
                       start: nat, n: nat, g: nat, c: int, c': int)
    requires 1 + n < |v| && start + n < |u0| == |before| && after == before[start + n := digit]
    requires V(before, start, n) + Times(-c, Pow(n)) == V(u0, start, n) - Times(V(v, 1, n), g)
    requires digit as int - c' * B == u0[start + n] as int - g * v[1 + n] as int - c
    ensures V(after, start, n + 1) + Times(-c', Pow(n + 1)) == V(u0, start, n + 1) - Times(V(v, 1, n + 1), g)
  {
    assert before[start..start + n] == after[start..start + n];
    VSame(before, start, after, start, n);
    VSnoc(after, start, n);
    VSnoc(u0, start, n);
    VSnoc(v, 1, n);
    var d := v[1 + n] as int;
    Column(n, digit as int, -c', u0[start + n] as int, -(g * d), -c);
    TimesNegate(g * d, Pow(n));
    TimesAdd(V(v, 1, n), Times(d, Pow(n)), g);
    TimesSwap(d, Pow(n), g);
  }

  /** The second loop: adds v back into the low digits of the window. */
  method AddBack(v: Bignum, u: Bignum, start: nat) returns (carry: int64)
    requires IsBignum(v[..]) && IsBignum(u[..]) && u != v
    requires 1 <= start && start + (v.Length - 1) <= u.Length
    modifies u
    ensures IsBignum(u[..]) && 0 <= carry <= 1
    ensures forall k :: 0 <= k < start || start + (v.Length - 1) <= k < u.Length ==> u[k] == old(u[k])
    ensures V(u[..], start, v.Length - 1) + Times(carry as int, Pow(v.Length - 1))
         == V(old(u[..]), start, v.Length - 1) + Mag(v[..])
  {
    carry := 0;
    var scan := 0;
    ghost var u0 := u[..];
    TimesMul(0, Pow(0));
    while scan < v.Length - 1
      invariant 0 <= scan <= v.Length - 1
      invariant IsBignum(u[..]) && 0 <= carry <= 1
      invariant forall k :: 0 <= k < start || start + scan <= k < u.Length ==> u[k] == u0[k]
      invariant V(u[..], start, scan) + Times(carry as int, Pow(scan)) == V(u0, start, scan) + V(v[..], 1, scan)
    {
      ghost var before, c := u[..], carry;
      var sum := v[1 + scan] + u[start + scan] + carry;
      var digit := sum;
      carry := 0;
      if sum >= RADIX {
        digit := sum - RADIX;
        carry := 1;
      }
      u[start + scan] := digit;
      AddBackColumn(before, u[..], digit, u0, v[..], start, scan, c as int, carry as int);
      scan := scan + 1;
    }
  }

  lemma AddBackColumn(before: seq<int64>, after: seq<int64>, digit: int64, u0: seq<int64>, v: seq<int64>,
                      start: nat, n: nat, c: int, c': int)
    requires 1 + n < |v| && start + n < |u0| == |before| && after == before[start + n := digit]
    requires V(before, start, n) + Times(c, Pow(n)) == V(u0, start, n) + V(v, 1, n)
    requires digit as int + c' * B == u0[start + n] as int + v[1 + n] as int + c
    ensures V(after, start, n + 1) + Times(c', Pow(n + 1)) == V(u0, start, n + 1) + V(v, 1, n + 1)
  {
    assert before[start..start + n] == after[start..start + n];
    VSame(before, start, after, start, n);
    VSnoc(after, start, n);
    VSnoc(u0, start, n);
    VSnoc(v, 1, n);
    Column(n, digit as int, c', u0[start + n] as int, v[1 + n] as int, c);
  }

  /** What is left at the top of the window after the subtraction: 0 if the guess was right, -1 if it
      was one too large. */
  lemma WindowTop(u0: int, low: int, t: int, w: int, n: nat, product: int)
    requires 0 <= low < Pow(n) && 0 <= w < Pow(n)
    requires low + Times(t, Pow(n)) == u0 - product
    requires product <= u0 + w && u0 < product + w
    ensures t == 0 || t == -1
    ensures Times(t, Pow(n)) == if t == 0 then 0 else 0 - Pow(n) as int
    ensures t == 0 <==> product <= u0
  {
    TimesMul(1, Pow(n));
    TimesMul(0, Pow(n));
    TimesMul(-1, Pow(n));
    TimesMul(-2, Pow(n));
    if t >= 1 {
      TimesMono(1, t, Pow(n));
    } else if t <= -2 {
      TimesMono(t, -2, Pow(n));
    }
  }

  /** bignum_divide_subtract: reduces the window at start by the right multiple of v, adding v back
      once when the guess was one too large. */
  method BignumDivideSubtract(v: Bignum, guess: int64, u: Bignum, start: nat) returns (q: int64)
    requires IsBignum(v[..]) && IsBignum(u[..]) && u != v && IsDigit(guess)
    requires 1 <= start && start + v.Length <= u.Length
    requires Times(Mag(v[..]), guess as int) <= V(u[..], start, v.Length) + Mag(v[..])
    requires V(u[..], start, v.Length) < Times(Mag(v[..]), guess as int) + Mag(v[..])
    modifies u
    ensures IsBignum(u[..]) && IsDigit(q) && u[start + v.Length - 1] == 0
    ensures forall k :: 0 <= k < start || start + v.Length <= k < u.Length ==> u[k] == old(u[k])
    ensures V(old(u[..]), start, v.Length) == Times(Mag(v[..]), q as int) + V(u[..], start, v.Length - 1)
    ensures V(u[..], start, v.Length - 1) < Mag(v[..])
    ensures q == if Times(Mag(v[..]), guess as int) <= V(old(u[..]), start, v.Length) then guess else guess - 1
  {
    ghost var n, w, u0 := v.Length - 1, Mag(v[..]), u[..];
    var top := start + (v.Length - 1);
    VSnoc(u0, start, n);
    VBound(v[..], 1, n);
    VBound(u0, start, n);
    if guess == 0 {
      WindowTop(V(u0, start, n + 1), V(u0, start, n), u0[top] as int, w, n, 0);
      assert Times(w, 0) == 0;
      return 0;
    }
    var carry := SubtractProduct(v, guess, u, start);
    ghost var u1 := u[..];
    BorrowAtTop(u0, u1, start, n, w, guess as int, carry);
    q := SettleWindow(v, guess, u, start, carry);
  }

  lemma BorrowAtTop(u0: seq<int64>, u1: seq<int64>, start: nat, n: nat, w: int, guess: nat, carry: int64)
    requires start + n < |u0| == |u1| && AllDigits(u1, start, n) && u0[start + n] == u1[start + n]
    requires 0 <= w < Pow(n) && IsDigit(carry) && IsDigit(u0[start + n])
    requires V(u1, start, n) + Times(-(carry as int), Pow(n)) == V(u0, start, n) - Times(w, guess)
    requires Times(w, guess) <= V(u0, start, n + 1) + w && V(u0, start, n + 1) < Times(w, guess) + w
    ensures var t := u1[start + n] as int - carry as int;
      && (t == 0 || t == -1) && (t == 0 <==> Times(w, guess) <= V(u0, start, n + 1))
      && V(u1, start, n) - (if t == 0 then 0 else Pow(n)) == V(u0, start, n + 1) - Times(w, guess)
  {
    VSnoc(u0, start, n);
    VBound(u1, start, n);
    TimesAdd(u0[start + n] as int, -(carry as int), Pow(n));
    WindowTop(V(u0, start, n + 1), V(u1, start, n), u0[start + n] as int - carry as int, w, n, Times(w, guess));
  }

  /** The two ways the subtraction can end: a clean window, or a borrow that the add-back repays. */
  method SettleWindow(v: Bignum, guess: int64, u: Bignum, start: nat, carry: int64) returns (q: int64)
    requires IsBignum(v[..]) && IsBignum(u[..]) && u != v && 0 < guess && IsDigit(carry)
    requires 1 <= start && start + v.Length <= u.Length
    requires -1 <= u[start + v.Length - 1] - carry <= 0
    requires u[start + v.Length - 1] < carry ==> Pow(v.Length - 1) <= V(u[..], start, v.Length - 1) + Mag(v[..])
    modifies u
    ensures IsBignum(u[..]) && u[start + v.Length - 1] == 0
    ensures forall k :: 0 <= k < start || start + v.Length <= k < u.Length ==> u[k] == old(u[k])
    ensures q == if old(u[start + v.Length - 1]) == carry then guess else guess - 1
    ensures V(u[..], start, v.Length - 1) == V(old(u[..]), start, v.Length - 1)
          + (if old(u[start + v.Length - 1]) == carry then 0 else Mag(v[..]) - Pow(v.Length - 1))
  {
    ghost var n := v.Length - 1;
    var top := start + (v.Length - 1);
    if carry == 0 {
      return guess;
    }
    ghost var u1 := u[..];
    var diff := u[top] - carry;
    if diff < 0 {
      u[top] := diff + RADIX;
      WindowSame(u1, u[..], start, n);
    } else {
      u[top] := diff;
      WindowSame(u1, u[..], start, n);
      return guess;
    }
    var back := AddBack(v, u, start);
    VBound(u[..], start, n);
    TimesMul(back as int, Pow(n));
    ghost var u2 := u[..];
    if back == 1 {
      var sum := u[top] + back;
      u[top] := if sum < RADIX then sum else sum - RADIX;
    }
    WindowSame(u2, u[..], start, n);
    q := guess - 1;
  }

  lemma WindowSame(s: seq<int64>, t: seq<int64>, start: nat, n: nat)
    requires start + n < |s| && |t| == |s| && t == s[start + n := t[start + n]]
    ensures V(s, start, n) == V(t, start, n)
  {
    assert s[start..start + n] == t[start..start + n];
    VSame(s, start, t, start, n);
  }

  // ----- the quotient digit loop -----

  /** A normalised divisor: two digits or more, the leading one at least half the radix. */
  predicate Divisor(v: seq<int64>) {
    IsBignum(v) && 3 <= |v| && RADIX / 2 <= v[|v| - 1]
  }

  /** A number seen from the digits at position n and above. */
  lemma Leading(s: seq<int64>, lo: nat, n: nat, k: nat)
    requires lo + n + k <= |s| && AllDigits(s, lo, n + k)
    ensures Times(V(s, lo + n, k), Pow(n)) <= V(s, lo, n + k) < Times(V(s, lo + n, k) + 1, Pow(n))
  {
    VSplit(s, lo, n, k);
    VBound(s, lo, n);
    TimesAdd(V(s, lo + n, k), 1, Pow(n));
    TimesMul(1, Pow(n));
  }

  lemma ThreeDigitsValue(s: seq<int64>, lo: nat)
    requires lo + 3 <= |s|
    ensures V(s, lo, 3) == ThreeDigits(s[lo + 2], s[lo + 1], s[lo])
  {
    assert V(s, lo, 3) == s[lo] as int + B * (s[lo + 1] as int + B * V(s, lo + 2, 1));
    assert V(s, lo + 2, 1) == s[lo + 2] as int + B * V(s, lo + 3, 0);
  }

  lemma TwoDigitsValue(s: seq<int64>, lo: nat)
    requires lo + 2 <= |s|
    ensures V(s, lo, 2) == TwoDigits(s[lo + 1], s[lo])
  {
    assert V(s, lo, 2) == s[lo] as int + B * V(s, lo + 1, 1);
    assert V(s, lo + 1, 1) == s[lo + 1] as int + B * V(s, lo + 2, 0);
  }

  /** The window above a digit stays below the divisor, so the next window is below B times it. */
  lemma WindowFits(u: seq<int64>, v: seq<int64>, start: nat)
    requires Divisor(v) && 1 <= start && start + |v| <= |u| && AllDigits(u, start, |v|)
    requires V(u, start + 1, |v| - 1) < Mag(v)
    ensures V(u, start, |v|) < B * Mag(v)
    ensures u[start + |v| - 1] <= v[|v| - 1]
  {
    var n := |v| - 1;
    VTop(u, start + 1, n);
    VTop(v, 1, n);
    if v[n] < u[start + n] {
      TimesMono(v[n] as int + 1, u[start + n] as int, Pow(n - 1));
    }
  }

  /** The leading digits of the window and of the divisor, as TrialIsClose needs them. */
  lemma WindowLeads(u: seq<int64>, v: seq<int64>, start: nat)
    requires Divisor(v) && IsBignum(u) && 1 <= start && start + |v| <= |u|
    ensures var t, p := start + |v| - 1, Pow(|v| - 3);
      && Times(ThreeDigits(u[t], u[t - 1], u[t - 2]), p) <= V(u, start, |v|)
      && V(u, start, |v|) < Times(ThreeDigits(u[t], u[t - 1], u[t - 2]) + 1, p)
      && Times(TwoDigits(v[|v| - 1], v[|v| - 2]), p) <= Mag(v) < Times(TwoDigits(v[|v| - 1], v[|v| - 2]) + 1, p)
  {
    var m := |v| - 3;
    Leading(u, start, m, 3);
    ThreeDigitsValue(u, start + m);
    Leading(v, 1, m, 2);
    TwoDigitsValue(v, 1 + m);
  }

  /** The corrected guess, read against the whole window and the whole divisor: never too small, and
      at most one too large, so that one add-back suffices. */
  method GuessDigit(u: Bignum, v: Bignum, start: nat) returns (guess: int64)
    requires Divisor(v[..]) && IsBignum(u[..]) && 1 <= start && start + v.Length <= u.Length
    requires V(u[..], start + 1, v.Length - 1) < Mag(v[..])
    ensures IsDigit(guess)
    ensures Times(Mag(v[..]), guess as int) <= V(u[..], start, v.Length) + Mag(v[..])
    ensures V(u[..], start, v.Length) < Times(Mag(v[..]), guess as int) + Mag(v[..])
  {
    var n := v.Length - 1;
    var top := start + n;
    WindowFits(u[..], v[..], start);
    guess := TrialDigit(u[top], u[top - 1], u[top - 2], v[n], v[n - 1]);
    WindowLeads(u[..], v[..], start);
    TrialIsClose(V(u[..], start, n + 1), Mag(v[..]), ThreeDigits(u[top], u[top - 1], u[top - 2]),
                 TwoDigits(v[n], v[n - 1]), Pow(n - 2), guess as int);
  }

  /** One quotient digit: guess, subtract, correct. */
  method QuotientDigit(u: Bignum, v: Bignum, start: nat) returns (qj: int64)
    requires Divisor(v[..]) && IsBignum(u[..]) && u != v
    requires 1 <= start && start + v.Length <= u.Length
    requires V(u[..], start + 1, v.Length - 1) < Mag(v[..])
    modifies u
    ensures IsBignum(u[..]) && IsDigit(qj) && u[start + v.Length - 1] == 0
    ensures u[..start] == old(u[..start]) && u[start + v.Length..] == old(u[start + v.Length..])
    ensures V(old(u[..]), start, v.Length) == Times(Mag(v[..]), qj as int) + V(u[..], start, v.Length - 1)
    ensures V(u[..], start, v.Length - 1) < Mag(v[..])
  {
    var guess := GuessDigit(u, v, start);
    qj := BignumDivideSubtract(v, guess, u, start);
  }

  /** The state of the division when `i` quotient digits are still to come: the numerator is the divisor
      times the quotient digits found, in their places, plus what is left in u. */
  ghost predicate Divided(u: seq<int64>, w: int, quotient: nat, i: nat, n: nat, total: int)
    requires 1 + i + n <= |u|
  {
    && V(u, 1 + i, n) < w
    && total == Times(Times(w, quotient), Pow(i)) + V(u, 1, i + n)
    && forall k :: 1 + i + n <= k < |u| ==> u[k] == 0
  }

  lemma NextQuotientDigit(u: seq<int64>, u': seq<int64>, w: int, quotient: nat, qj: nat, i: nat, n: nat, total: int)
    requires 1 + i + 1 + n <= |u| == |u'| && Divided(u, w, quotient, i + 1, n, total)
    requires u'[..1 + i] == u[..1 + i] && u'[1 + i + n] == 0 && u'[1 + i + n + 1..] == u[1 + i + n + 1..]
    requires V(u, 1 + i, n + 1) == Times(w, qj) + V(u', 1 + i, n) && V(u', 1 + i, n) < w
    ensures Divided(u', w, qj + B * quotient, i, n, total)
  {
    VSplit(u, 1, i, n + 1);
    VSplit(u', 1, i, n);
    assert u[1..1 + i] == u[..1 + i][1..];
    assert u'[1..1 + i] == u'[..1 + i][1..];
    VSame(u, 1, u', 1, i);
    TimesAdd(Times(w, qj), V(u', 1 + i, n), Pow(i));
    JoinQuotient(w, quotient, qj, Pow(i));
    forall k | 1 + i + n <= k < |u'| ensures u'[k] == 0 {
      if k > 1 + i + n {
        var j := k - (1 + i + n + 1);
        assert u'[k] == u'[1 + i + n + 1..][j] == u[1 + i + n + 1..][j] == u[k];
      }
    }
  }

  lemma JoinQuotient(w: int, quotient: nat, qj: nat, p: nat)
    ensures Times(Times(w, quotient), B * p) + Times(Times(w, qj), p) == Times(Times(w, qj + B * quotient), p)
  {
    TimesRadix(Times(w, quotient), p);
    TimesScale(B, Times(w, quotient), p);
    TimesAdd(B * Times(w, quotient), Times(w, qj), p);
    TimesMul(w, quotient);
    TimesMul(w, qj);
    TimesMul(w, qj + B * quotient);
    assert w * (qj + B * quotient) == w * qj + B * (w * quotient);
  }

  /** The quotient digits stored so far, when a quotient is wanted at all. */
  ghost predicate Stored(q: array?<int64>, i: nat, m: nat, quotient: nat)
    reads q
  {
    q != null ==>
      q.Length == m + 1 && i <= m && AllDigits(q[..], 1 + i, m - i) && V(q[..], 1 + i, m - i) == quotient
  }

  method StoreDigit(q: array?<int64>, i: nat, ghost m: nat, qj: int64, ghost quotient: nat)
    requires 1 <= i <= m && Stored(q, i, m, quotient) && IsDigit(qj)
    modifies if q != null then {q} else {}
    ensures Stored(q, i - 1, m, qj as int + B * quotient)
    ensures q != null ==> q[0] == old(q[0])
  {
    if q != null {
      ghost var q0 := q[..];
      q[i] := qj;
      assert q0[1 + i..1 + i + (m - i)] == q[..][1 + i..1 + i + (m - i)];
      VSame(q0, 1 + i, q[..], 1 + i, m - i);
    }
  }

  /** Divides u by v in place: u keeps the remainder, q (when wanted) receives the quotient digits. */
  method BignumDivideUnsignedNormalized(u: Bignum, v: Bignum, q: array?<int64>) returns (ghost quotient: nat)
    requires Divisor(v[..]) && IsBignum(u[..]) && u != v && v.Length <= u.Length
    requires q != null ==> q != u && q != v && q.Length == u.Length - v.Length + 1
    requires V(u[..], 1 + (u.Length - v.Length), v.Length - 1) < Mag(v[..])
    modifies u
    modifies if q != null then {q} else {}
    ensures IsBignum(u[..]) && u[0] == old(u[0])
    ensures old(Mag(u[..])) == Times(Mag(v[..]), quotient) + Mag(u[..])
    ensures 0 <= Mag(u[..]) < Mag(v[..])
    ensures Stored(q, 0, u.Length - v.Length, quotient)
    ensures q != null ==> q[0] == old(q[0])
  {
    ghost var n, m, total := v.Length - 1, u.Length - v.Length, Mag(u[..]);
    quotient := 0;
    var i := u.Length - v.Length;
    assert Times(Mag(v[..]), 0) == 0;
    TimesMul(0, Pow(i));
    while 0 < i
      invariant 0 <= i <= m && IsBignum(u[..]) && u[0] == old(u[0])
      invariant Divided(u[..], Mag(v[..]), quotient, i, n, total)
      invariant Stored(q, i, m, quotient)
      invariant q != null ==> q[0] == old(q[0])
    {
      var qj := NextDigit(u, v, q, i, quotient, total);
      quotient := qj as int + B * quotient;
      i := i - 1;
    }
    TimesMul(Times(Mag(v[..]), quotient), 1);
    VDropZeros(u[..], 1, n, u.Length - 1);
    VBound(u[..], 1, n);
  }

  method NextDigit(u: Bignum, v: Bignum, q: array?<int64>, i: nat, ghost quotient: nat, ghost total: int)
    returns (qj: int64)
    requires Divisor(v[..]) && IsBignum(u[..]) && u != v && 1 <= i <= u.Length - v.Length
    requires q != null ==> q != u && q != v
    requires Divided(u[..], Mag(v[..]), quotient, i, v.Length - 1, total)
    requires Stored(q, i, u.Length - v.Length, quotient)
    modifies u
    modifies if q != null then {q} else {}
    ensures IsDigit(qj) && IsBignum(u[..]) && u[0] == old(u[0])
    ensures q != null ==> q[0] == old(q[0])
    ensures Divided(u[..], Mag(v[..]), qj as int + B * quotient, i - 1, v.Length - 1, total)
    ensures Stored(q, i - 1, u.Length - v.Length, qj as int + B * quotient)
  {
    ghost var u0 := u[..];
    qj := QuotientDigit(u, v, i);
    assert u[0] == u[..i][0] == u0[..i][0];
    NextQuotientDigit(u0, u[..], Mag(v[..]), quotient, qj as int, i - 1, v.Length - 1, total);
    StoreDigit(q, i, u.Length - v.Length, qj, quotient);
  }
}
