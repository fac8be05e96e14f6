/** Written numbers: what `strtod` makes of every form of number the values file may use. */
module Written {
  import opened Bits
  import opened Number

  /** Concatenation, named so that proofs can treat it as one. */
  function Join(a: string, b: string): string {
    a + b
  }

  const SIGNS: set<string> := {"", "-", "+"}

  /** A sign, perhaps a hexadecimal prefix, digits, perhaps a point and more digits, perhaps an exponent. */
  datatype Numeral =
    Numeral(sign: string, prefix: string, whole: string, point: bool, frac: string, exponent: Option<Suffix>)
  datatype Suffix = Suffix(mark: char, sign: string, digits: string)

  function Base(n: Numeral): nat {
    if n.prefix == "" then 10 else 16
  }

  predicate DigitOf(c: char, base: nat) {
    '0' <= c <= '9' || (base == 16 && ('a' <= c <= 'f' || 'A' <= c <= 'F'))
  }

  predicate AllDigits(s: string, base: nat) {
    forall k :: 0 <= k < |s| ==> DigitOf(s[k], base)
  }

  predicate ProperSuffix(e: Option<Suffix>, base: nat) {
    e.Some? ==>
      && e.value.mark in (if base == 10 then {'e', 'E'} else {'p', 'P'})
      && e.value.sign in SIGNS && e.value.digits != "" && AllDigits(e.value.digits, 10)
  }

  predicate Proper(n: Numeral) {
    && n.sign in SIGNS && n.prefix in {"", "0x", "0X"}
    && AllDigits(n.whole, Base(n)) && AllDigits(n.frac, Base(n))
    && (n.whole != "" || n.frac != "") && (!n.point ==> n.frac == "")
    && ProperSuffix(n.exponent, Base(n))
  }

  /** The numeral as written, with some text after it. */
  function Text(n: Numeral, tail: string): string {
    Join(n.sign, Join(n.prefix, Magnitude(n, tail)))
  }

  function Magnitude(n: Numeral, tail: string): string {
    Join(n.whole, AfterWhole(n, tail))
  }

  function AfterWhole(n: Numeral, tail: string): string {
    var rest := Marked(n.exponent, tail);
    if n.point then Pointed(Join(n.frac, rest)) else rest
  }

  function Pointed(rest: string): string {
    "." + rest
  }

  function Marked(e: Option<Suffix>, tail: string): string {
    if e.Some? then Spelled(e.value.mark, e.value.sign, Join(e.value.digits, tail)) else tail
  }

  function Spelled(c: char, sign: string, rest: string): string {
    [c] + (sign + rest)
  }

  /** Text that is not taken for more of the number. */
  predicate Ends(n: Numeral, tail: string) {
    tail == "" ||
    if n.exponent.Some? then !DigitOf(tail[0], 10)
    else
      && !DigitOf(tail[0], Base(n))
      && (!n.point ==> tail[0] != '.')
      && !StartsSuffix(tail, if Base(n) == 10 then 'e' else 'p')
      && (n.prefix == "" && n.whole == "0" && !n.point ==> tail[0] != 'x' && tail[0] != 'X')
  }

  /** A mark with at least one digit of an exponent after it. */
  predicate StartsSuffix(s: string, mark: char) {
    && |s| > 1 && Lower(s[0]) == mark
    && (DigitOf(s[1], 10) || ((s[1] == '-' || s[1] == '+') && |s| > 2 && DigitOf(s[2], 10)))
  }

  // ---- what a numeral denotes -----------------------------------------------

  function DigitValue(c: char): nat {
    if '0' <= c <= '9' then c as int - '0' as int
    else if 'a' <= c <= 'f' then c as int - 'a' as int + 10
    else if 'A' <= c <= 'F' then c as int - 'A' as int + 10
    else 0
  }

  /** Digits as a whole number, most significant first. */
  function Whole(s: string, base: nat): nat {
    if s == "" then 0 else Whole(s[..|s| - 1], base) * base + DigitValue(s[|s| - 1])
  }

  /** `x` multiplied by `b`, or divided by it, as many times as `k` says. */
  function Shifted(x: real, b: real, k: int): real
    requires b > 0.0
    decreases if k < 0 then -k else k
  {
    if k == 0 then x else if k > 0 then Shifted(x, b, k - 1) * b else Shifted(x, b, k + 1) / b
  }

  function ExponentValue(e: Option<Suffix>): int {
    if e.None? then 0
    else
      var w: int := Whole(e.value.digits, 10);
      if e.value.sign == "-" then -w else w
  }

  /**
   * All digits as one whole number, the point moved to where the exponent puts it: by tens, or, in hexadecimal, by
   * twos, four to a digit.
   */
  function Value(n: Numeral): real {
    var all := Whole(n.whole + n.frac, Base(n)) as real;
    var size := if Base(n) == 10 then Shifted(all, 10.0, ExponentValue(n.exponent) - |n.frac|)
                else Shifted(all, 2.0, ExponentValue(n.exponent) - 4 * |n.frac|);
    if n.sign == "-" then -size else size
  }

  lemma ShiftedStep(x: real, b: real, k: int)
    requires b > 0.0
    ensures Shifted(x, b, k + 1) == Shifted(x, b, k) * b
  {
  }

  /** One more in the exponent: ten times, or in hexadecimal twice, the number. */
  lemma ExponentStep(n: Numeral, m: Numeral)
    requires m == n.(exponent := m.exponent) && ExponentValue(m.exponent) == ExponentValue(n.exponent) + 1
    ensures Value(m) == Value(n) * if Base(n) == 10 then 10.0 else 2.0
  {
    var all := Whole(n.whole + n.frac, Base(n)) as real;
    hide Whole, Shifted, ExponentValue;
    ShiftedStep(all, 10.0, ExponentValue(n.exponent) - |n.frac|);
    ShiftedStep(all, 2.0, ExponentValue(n.exponent) - 4 * |n.frac|);
  }

  lemma {:induction false} ShiftedIsScale(x: real, b: real, k: int)
    requires b > 0.0
    ensures Shifted(x, b, k) == Scale(x, b, k)
    decreases if k < 0 then -k else k
  {
    if k > 0 {
      ShiftedIsScale(x, b, k - 1);
      ScaleUp(x, b, k);
    } else if k < 0 {
      ShiftedIsScale(x, b, k + 1);
      ScaleDown(x, b, k);
    } else {
      ScaleNone(x, b);
    }
  }

  lemma ScaleNone(x: real, b: real)
    requires b > 0.0
    ensures Scale(x, b, 0) == x
  {
  }

  lemma ScaleUp(x: real, b: real, k: int)
    requires b > 0.0 && k > 0
    ensures Scale(x, b, k) == Scale(x, b, k - 1) * b
  {
    MultiplyTwice(x, Power(b, k - 1), b);
  }

  lemma ScaleDown(x: real, b: real, k: int)
    requires b > 0.0 && k < 0
    ensures Scale(x, b, k) == Scale(x, b, k + 1) / b
  {
    if k == -1 {
      assert Power(b, 0) == 1.0;
      assert Power(b, 1) == b * Power(b, 0) == b;
      ScaleNone(x, b);
    } else {
      DivideTwice(x, Power(b, -k - 1), b);
      assert Power(b, -k) == b * Power(b, -k - 1);
    }
  }

  lemma MultiplyTwice(x: real, p: real, b: real)
    ensures (x * p) * b == x * (b * p)
  {
  }

  lemma DivideTwice(x: real, p: real, b: real)
    requires p > 0.0 && b > 0.0
    ensures b * p > 0.0 && x / p / b == x / (b * p)
  {
  }

  lemma {:induction false} ShiftedInside(x: real, b: real, k: int)
    requires b > 0.0
    ensures Shifted(x / b, b, k) == Shifted(x, b, k - 1)
    decreases if k < 0 then -k else k
  {
    if k > 0 {
      ShiftedInside(x, b, k - 1);
      ShiftedStep(x, b, k - 2);
    } else if k < 0 {
      ShiftedInside(x, b, k + 1);
    }
  }

  lemma {:induction false} ShiftedPower(x: real, b: real, n: nat, k: int)
    requires b > 0.0
    ensures Shifted(x / Power(b, n), b, k) == Shifted(x, b, k - n)
  {
    hide Shifted;
    if n > 0 {
      DivideTwice(x, Power(b, n - 1), b);
      ShiftedInside(x / Power(b, n - 1), b, k);
      ShiftedPower(x, b, n - 1, k - 1);
      assert x / Power(b, n) == x / Power(b, n - 1) / b;
    } else {
      assert Power(b, 0) == 1.0;
      assert x / Power(b, n) == x;
    }
  }

  // ---- the same in the terms of the conversion ------------------------------

  lemma IsDigit(c: char, base: nat)
    requires base == 10 || base == 16
    ensures Digit(c, base).Some? <==> DigitOf(c, base)
    ensures DigitOf(c, base) ==> Digit(c, base) == Some(DigitValue(c))
  {
  }

  lemma {:induction false} DigitsAreWhole(s: string, base: nat)
    requires (base == 10 || base == 16) && AllDigits(s, base)
    ensures forall k :: 0 <= k < |s| ==> Digit(s[k], base).Some?
    ensures Digits(s, base) == Whole(s, base)
  {
    forall k | 0 <= k < |s| ensures Digit(s[k], base).Some? {
      IsDigit(s[k], base);
    }
    if s != "" {
      DigitsAreWhole(s[..|s| - 1], base);
      IsDigit(s[|s| - 1], base);
    }
  }

  lemma {:induction false} WholeConcat(a: string, b: string, base: nat)
    requires base == 10 || base == 16
    ensures Whole(a + b, base) as real == Mul(Whole(a, base) as real, Power(base as real, |b|)) + Whole(b, base) as real
  {
    hide Mul, Whole, Power;
    if b == "" {
      assert a + b == a;
      NothingMore(base);
    } else {
      var n := |b| - 1;
      assert (a + b)[..|a| + n] == a + b[..n];
      assert (a + b)[|a| + n] == b[n];
      WholeConcat(a, b[..n], base);
      LastDigit(a + b, base);
      LastDigit(b, base);
      Combine(Whole(a, base) as real, Power(base as real, n), Whole(b[..n], base) as real, base as real,
              DigitValue(b[n]) as real);
      PowerStep(base as real, n);
    }
  }

  lemma NothingMore(base: nat)
    requires base > 0
    ensures Whole("", base) == 0 && Power(base as real, 0) == 1.0 && forall w :: Mul(w, 1.0) == w
  {
  }

  lemma PowerStep(b: real, n: nat)
    requires b > 0.0
    ensures Power(b, n + 1) == b * Power(b, n)
  {
  }

  lemma LastDigit(s: string, base: nat)
    requires s != "" && (base == 10 || base == 16)
    ensures Whole(s, base) as real
            == Whole(s[..|s| - 1], base) as real * base as real + DigitValue(s[|s| - 1]) as real
  {
    hide Whole, DigitValue;
    LastDigitOf(s, base);
    OneMoreDigit(Whole(s[..|s| - 1], base), base, DigitValue(s[|s| - 1]));
  }

  lemma LastDigitOf(s: string, base: nat)
    requires s != ""
    ensures Whole(s, base) == Whole(s[..|s| - 1], base) * base + DigitValue(s[|s| - 1])
  {
    hide DigitValue;
  }

  lemma Combine(w: real, p: real, v: real, b: real, d: real)
    ensures (Mul(w, p) + v) * b + d == Mul(w, b * p) + (v * b + d)
  {
    assert (w * p) * b == w * (b * p);
  }

  lemma OneMoreDigit(w: nat, base: nat, d: nat)
    requires base == 10 || base == 16
    ensures (w * base + d) as real == w as real * base as real + d as real
  {
  }

  lemma {:induction false} Sixteens(n: nat)
    ensures Power(16.0, n) == Power(2.0, 4 * n)
  {
    if n > 0 {
      Sixteens(n - 1);
      FourMore(4 * n - 4);
    }
  }

  lemma FourMore(m: nat)
    ensures Power(2.0, m + 4) == 16.0 * Power(2.0, m)
  {
    assert Power(2.0, m + 1) == 2.0 * Power(2.0, m);
    assert Power(2.0, m + 2) == 2.0 * Power(2.0, m + 1);
    assert Power(2.0, m + 3) == 2.0 * Power(2.0, m + 2);
  }

  lemma SplitSum(w: real, p: real, f: real)
    requires p > 0.0
    ensures (Mul(w, p) + f) / p == w + f / p
  {
  }

  /** Mantissa and exponent as the conversion computes them. */
  function Scaled(base: nat, whole: string, point: bool, frac: string, e: int): real
    requires (base == 10 || base == 16) && AllDigits(whole, base) && AllDigits(frac, base)
  {
    DigitsAreWhole(whole, base);
    DigitsAreWhole(frac, base);
    var fraction := if point then Fraction(Digits(frac, base), base, |frac|) else 0.0;
    Scale(Digits(whole, base) as real + fraction, if base == 10 then 10.0 else 2.0, e)
  }

  lemma ScaledIsShifted(base: nat, whole: string, point: bool, frac: string, e: int)
    requires (base == 10 || base == 16) && AllDigits(whole, base) && AllDigits(frac, base) && (!point ==> frac == "")
    ensures var all := Whole(whole + frac, base) as real;
            Scaled(base, whole, point, frac, e)
              == if base == 10 then Shifted(all, 10.0, e - |frac|) else Shifted(all, 2.0, e - 4 * |frac|)
  {
    hide Whole, Digits, Scale, Shifted, Mul, AllDigits;
    DigitsAreWhole(whole, base);
    DigitsAreWhole(frac, base);
    var all, p := Whole(whole + frac, base) as real, Power(base as real, |frac|);
    WholeConcat(whole, frac, base);
    SplitSum(Whole(whole, base) as real, p, Whole(frac, base) as real);
    if !point {
      assert p == 1.0;
      EmptyWhole(base);
    }
    var b := if base == 10 then 10.0 else 2.0;
    assert Scaled(base, whole, point, frac, e) == Scale(all / p, b, e);
    ShiftedIsScale(all / p, b, e);
    if base == 10 {
      ShiftedPower(all, 10.0, |frac|, e);
    } else {
      Sixteens(|frac|);
      ShiftedPower(all, 2.0, 4 * |frac|, e);
    }
  }

  lemma EmptyWhole(base: nat)
    ensures Whole("", base) == 0
  {
  }

  // ---- how the conversion scans a numeral -----------------------------------

  lemma DigitRunIs(s: string, base: nat, n: nat)
    requires n <= |s| && forall k :: 0 <= k < n ==> Digit(s[k], base).Some?
    requires n < |s| ==> Digit(s[n], base).None?
    ensures DigitRun(s, base) == n
  {
    var m := DigitRun(s, base);
    assert n < |s| ==> m <= n;
  }

  /** Digits and then something else: where the run of digits ends, and what it is. */
  lemma DigitsThen(q: string, tail: string, base: nat)
    requires (base == 10 || base == 16) && AllDigits(q, base) && (tail == "" || !DigitOf(tail[0], base))
    ensures var s := Join(q, tail);
            |s| == |q| + |tail| &&
            DigitRun(s, base) == |q| && s[..|q|] == q && s[|q|..] == tail
  {
    hide Digit, DigitRun;
    DigitsAreWhole(q, base);
    if tail != "" {
      IsDigit(tail[0], base);
    }
    DigitRunIs(Join(q, tail), base, |q|);
  }

  lemma ExponentBy(s: string, mark: char, at: nat, q: string)
    requires 1 <= at <= 2 && at < |s| && Lower(s[0]) == mark && (at == 2 <==> s[1] == '-' || s[1] == '+')
    requires q != "" && AllDigits(q, 10) && DigitRun(s[at..], 10) == |q| && s[at..][..|q|] == q
    ensures var w: int := Whole(q, 10);
            Exponent(s, mark) == (at + |q|, if s[1] == '-' then -w else w)
  {
    DigitsAreWhole(q, 10);
    hide Digits, Digit, Whole;
  }

  lemma SpelledParts(c: char, sign: string, rest: string)
    requires sign in SIGNS && rest != "" && DigitOf(rest[0], 10)
    ensures var s := Spelled(c, sign, rest);
            && |s| == 1 + |sign| + |rest| && s[0] == c && s[1 + |sign|..] == rest
            && (s[1] == '-' <==> sign == "-") && (s[1] == '+' <==> sign == "+")
  {
    var s := Spelled(c, sign, rest);
    assert s[1] == if sign == "" then rest[0] else sign[0];
  }

  lemma MarkedExponent(c: char, mark: char, sign: string, q: string, rest: string)
    requires Lower(c) == mark && sign in SIGNS && q != "" && AllDigits(q, 10) && q <= rest && DigitRun(rest, 10) == |q|
    ensures var w: int := Whole(q, 10);
            Exponent(Spelled(c, sign, rest), mark) == (1 + |sign| + |q|, if sign == "-" then -w else w)
  {
    hide Digits, DigitRun, Exponent, Digit, Whole, Lower;
    assert rest[0] == q[0];
    SpelledParts(c, sign, rest);
    hide Spelled;
    ExponentBy(Spelled(c, sign, rest), mark, 1 + |sign|, q);
  }

  /** No exponent starts here. */
  lemma NoExponent(s: string, mark: char)
    requires !StartsSuffix(s, mark)
    ensures Exponent(s, mark) == (0, 0)
  {
    hide Digits;
    if s != "" && Lower(s[0]) == mark {
      var at := if |s| > 1 && (s[1] == '-' || s[1] == '+') then 2 else 1;
      if at < |s| {
        IsDigit(s[at], 10);
        assert s[at..][0] == s[at];
        DigitRunIs(s[at..], 10, 0);
      } else {
        DigitRunIs(s[at..], 10, 0);
      }
    }
  }

  function MarkOf(base: nat): char {
    if base == 10 then 'e' else 'p'
  }

  lemma ExponentOf(n: Numeral, tail: string)
    requires Proper(n) && Ends(n, tail)
    ensures var rest := Marked(n.exponent, tail);
            && Exponent(rest, MarkOf(Base(n))) == (|rest| - |tail|, ExponentValue(n.exponent)) && |rest| >= |tail|
            && (rest == "" || (!DigitOf(rest[0], Base(n)) && (!n.point ==> rest[0] != '.')))
  {
    hide Digits, DigitRun, Whole, Exponent;
    if n.exponent.Some? {
      var e := n.exponent.value;
      DigitsThen(e.digits, tail, 10);
      MarkedExponent(e.mark, MarkOf(Base(n)), e.sign, e.digits, Join(e.digits, tail));
    } else {
      NoExponent(tail, MarkOf(Base(n)));
    }
  }

  lemma PlainBy(s: string, base: nat, whole: string, point: bool, frac: string, used: nat, e: int)
    requires base == 10 || base == 16
    requires AllDigits(whole, base) && DigitRun(s, base) == |whole| && s[..|whole|] == whole
    requires point <==> |whole| < |s| && s[|whole|] == '.'
    requires AllDigits(frac, base) && (whole != "" || frac != "") && (!point ==> frac == "")
    requires point ==> DigitRun(s[|whole| + 1..], base) == |frac| && s[|whole| + 1..][..|frac|] == frac
    requires Exponent(s[|whole| + (if point then 1 + |frac| else 0)..], MarkOf(base)) == (used, e)
    ensures Plain(s, base) == Conversion(|whole| + (if point then 1 + |frac| else 0) + used,
                                         Some(Scaled(base, whole, point, frac, e)))
  {
    hide Digits, Digit, DigitRun, Fraction, Scale, Exponent;
  }

  lemma PointedParts(whole: string, rest: string, n: nat)
    requires n <= |rest|
    ensures var s, after := Join(whole, Pointed(rest)), Pointed(rest);
            && |after| == 1 + |rest| && after[0] == '.'
            && s[|whole|] == '.' && s[|whole| + 1..] == rest && s[|whole| + 1 + n..] == rest[n..]
  {
  }

  lemma PlainPointed(base: nat, whole: string, frac: string, rest: string, used: nat, e: int)
    requires base == 10 || base == 16
    requires AllDigits(whole, base) && AllDigits(frac, base) && (whole != "" || frac != "")
    requires rest == "" || !DigitOf(rest[0], base)
    requires Exponent(rest, MarkOf(base)) == (used, e)
    ensures Plain(Join(whole, Pointed(Join(frac, rest))), base)
            == Conversion(|whole| + 1 + |frac| + used, Some(Scaled(base, whole, true, frac, e)))
  {
    hide Digits, Digit, DigitRun, Exponent, Plain, Pointed, Join, Scaled, AllDigits, MarkOf;
    var fr := Join(frac, rest);
    DigitsThen(frac, rest, base);
    PointedParts(whole, fr, |frac|);
    DigitsThen(whole, Pointed(fr), base);
    PlainBy(Join(whole, Pointed(fr)), base, whole, true, frac, used, e);
  }

  lemma PlainWhole(base: nat, whole: string, rest: string, used: nat, e: int)
    requires base == 10 || base == 16
    requires AllDigits(whole, base) && whole != ""
    requires rest == "" || (!DigitOf(rest[0], base) && rest[0] != '.')
    requires Exponent(rest, MarkOf(base)) == (used, e)
    ensures Plain(Join(whole, rest), base) == Conversion(|whole| + used, Some(Scaled(base, whole, false, "", e)))
  {
    hide Digits, Digit, DigitRun, Exponent, Plain, Join, Scaled, MarkOf;
    DigitsThen(whole, rest, base);
    PlainBy(Join(whole, rest), base, whole, false, "", used, e);
  }

  lemma PlainOf(n: Numeral, tail: string)
    requires Proper(n) && Ends(n, tail)
    ensures Plain(Magnitude(n, tail), Base(n))
            == Conversion(|Magnitude(n, tail)| - |tail|,
                          Some(Scaled(Base(n), n.whole, n.point, n.frac, ExponentValue(n.exponent))))
    ensures |Magnitude(n, tail)| > |tail|
  {
    hide Exponent, ExponentValue, Marked, Plain, Pointed, Scaled, Join, Ends, AllDigits, MarkOf, DigitOf, ProperSuffix;
    ExponentOf(n, tail);
    MagnitudeLength(n, tail);
    var rest := Marked(n.exponent, tail);
    if n.point {
      PlainPointed(Base(n), n.whole, n.frac, rest, |rest| - |tail|, ExponentValue(n.exponent));
    } else {
      PlainWhole(Base(n), n.whole, rest, |rest| - |tail|, ExponentValue(n.exponent));
    }
  }

  lemma MagnitudeLength(n: Numeral, tail: string)
    ensures |Magnitude(n, tail)| == |n.whole| + (if n.point then 1 + |n.frac| else 0) + |Marked(n.exponent, tail)|
  {
    hide Marked;
  }

  /** In decimal no special form of `strtod` applies; in hexadecimal the prefix is skipped. */
  lemma UnsignedOf(n: Numeral, tail: string)
    requires Proper(n) && Ends(n, tail)
    ensures var s, m := Join(n.prefix, Magnitude(n, tail)), Plain(Magnitude(n, tail), Base(n));
            && s != "" && (DigitOf(s[0], 10) || s[0] == '.')
            && (m.used > 0 ==> Unsigned(s) == Conversion(|n.prefix| + m.used, m.value))
  {
    hide Plain;
    var m := Magnitude(n, tail);
    var s := Join(n.prefix, m);
    if n.prefix == "" {
      assert s == m;
      DecimalHead(n, tail);
    } else {
      assert s[2..] == m;
      assert s[0] == '0' && Lower(s[1]) == 'x';
    }
  }

  lemma DecimalHead(n: Numeral, tail: string)
    requires Proper(n) && Ends(n, tail) && n.prefix == ""
    ensures var s := Magnitude(n, tail);
            && s != "" && (DigitOf(s[0], 10) || s[0] == '.')
            && (|s| > 1 && s[0] == '0' ==> Lower(s[1]) != 'x')
  {
    var s := Magnitude(n, tail);
    assert s[0] == if n.whole != "" then n.whole[0] else '.';
    if |s| > 1 && n.whole != "" {
      assert s[1] == if |n.whole| > 1 then n.whole[1] else AfterWhole(n, tail)[0];
      assert |n.whole| == 1 && s[0] == '0' ==> n.whole == "0";
    }
  }

  lemma ConvertBy(s: string, signed: nat, used: nat, value: real)
    requires s != "" && s[0] !in SPACES && signed == (if s[0] == '-' || s[0] == '+' then 1 else 0)
    requires used > 0 && Unsigned(s[signed..]) == Conversion(used, Some(value))
    ensures Convert(s) == Finite(if s[0] == '-' then -value else value)
  {
    hide Unsigned, Finite;
    assert SpaceRun(s) == 0;
  }

  lemma SignParts(sign: string, m: string)
    requires sign in SIGNS && m != "" && (DigitOf(m[0], 10) || m[0] == '.')
    ensures var s := Join(sign, m);
            && s != "" && |sign| == (if s[0] == '-' || s[0] == '+' then 1 else 0)
            && s[|sign|..] == m && s[0] !in SPACES && (DigitOf(s[0], 10) || s[0] in {'.', '-', '+'})
            && (s[0] == '-' <==> sign == "-") && (s[0] == '+' <==> sign == "+")
  {
    var s := Join(sign, m);
    assert s[0] == if sign == "" then m[0] else sign[0];
  }

  /** Whatever follows it, a numeral converts to what it denotes. */
  lemma ConvertNumeral(n: Numeral, tail: string)
    requires Proper(n) && Ends(n, tail)
    ensures Convert(Text(n, tail)) == Finite(Value(n))
    ensures var s := Text(n, tail); s != "" && (DigitOf(s[0], 10) || s[0] in {'.', '-', '+'})
  {
    hide Marked, Plain, Unsigned, Magnitude, Finite, Convert, Digit, DigitOf, Join, Whole, Shifted, Scaled, Ends,
         AllDigits, ProperSuffix, ExponentValue;
    var m := Magnitude(n, tail);
    PlainOf(n, tail);
    UnsignedOf(n, tail);
    ScaledIsShifted(Base(n), n.whole, n.point, n.frac, ExponentValue(n.exponent));
    SignParts(n.sign, Join(n.prefix, m));
    ConvertBy(Join(n.sign, Join(n.prefix, m)), |n.sign|, |n.prefix| + |m| - |tail|,
              Scaled(Base(n), n.whole, n.point, n.frac, ExponentValue(n.exponent)));
  }

  /** The words for infinity and not-a-number, in any case, give no value. */
  lemma WordsAreRefused(sign: string, s: string)
    requires sign in SIGNS && |s| >= 3
    requires || (s[0] in {'i', 'I'} && s[1] in {'n', 'N'} && s[2] in {'f', 'F'})
             || (s[0] in {'n', 'N'} && s[1] in {'a', 'A'} && s[2] in {'n', 'N'})
    ensures Convert(Join(sign, s)) == None
  {
    WordIsUnsigned(s);
    hide Unsigned, Join;
    var t := Join(sign, s);
    assert t[|sign|..] == s && t[0] == (if sign == "" then s[0] else sign[0]) by {
      JoinHead(sign, s);
    }
    assert SpaceRun(t) == 0;
  }

  lemma JoinHead(a: string, b: string)
    requires b != ""
    ensures Join(a, b)[|a|..] == b && Join(a, b) != "" && Join(a, b)[0] == if a == "" then b[0] else a[0]
  {
  }

  lemma WordIsUnsigned(s: string)
    requires |s| >= 3
    requires || (s[0] in {'i', 'I'} && s[1] in {'n', 'N'} && s[2] in {'f', 'F'})
             || (s[0] in {'n', 'N'} && s[1] in {'a', 'A'} && s[2] in {'n', 'N'})
    ensures Unsigned(s).used > 0 && Unsigned(s).value == None
  {
    hide Plain;
    assert StartsWith(s, "inf") || StartsWith(s, "nan");
  }

  // ---- what is too large ----------------------------------------------------

  function Pow2(n: nat): nat {
    if n == 0 then 1 else 2 * Pow2(n - 1)
  }

  lemma {:induction false} Pow2Sum(a: nat, b: nat)
    ensures Pow2(a + b) == Pow2(a) * Pow2(b)
  {
    if a > 0 {
      Pow2Sum(a - 1, b);
      Twice(Pow2(a - 1), Pow2(b));
    }
  }

  lemma Twice(p: nat, q: nat)
    ensures (2 * p) * q == 2 * (p * q)
  {
  }

  lemma PowersOfTwo()
    ensures OVERFLOW == (Pow2(1024) - Pow2(970)) as real
  {
    Pow2Ten();
    hide Pow2;
    Pow2Sum(30, 30);
    assert Pow2(60) == 1152921504606846976;
    Pow2Sum(60, 60);
    assert Pow2(120) == 1329227995784915872903807060280344576;
    Pow2Sum(120, 120);
    assert Pow2(240) == 1329227995784915872903807060280344576
                        * 1329227995784915872903807060280344576;
    Pow2Sum(240, 240);
    assert Pow2(480) == (1329227995784915872903807060280344576 * 1329227995784915872903807060280344576)
                        * (1329227995784915872903807060280344576 * 1329227995784915872903807060280344576);
    Pow2Sum(480, 480);
    assert Pow2(960) == ((1329227995784915872903807060280344576 * 1329227995784915872903807060280344576)
                         * (1329227995784915872903807060280344576 * 1329227995784915872903807060280344576))
                        * ((1329227995784915872903807060280344576 * 1329227995784915872903807060280344576)
                           * (1329227995784915872903807060280344576 * 1329227995784915872903807060280344576));
    Pow2Sum(960, 10);
    Pow2Sum(970, 54);
  }

  lemma Pow2Ten()
    ensures Pow2(10) == 1024 && Pow2(30) == 1073741824 && Pow2(54) == 18014398509481984
  {
    assert Pow2(15) == 32768 && Pow2(12) == 4096;
    Pow2Sum(12, 12);
    Pow2Sum(15, 15);
    Pow2Sum(24, 30);
  }

  /** The bound is 2^1024 - 2^970, half a unit in the last place above the largest `double`. */
  lemma FiniteMeans(x: real)
    ensures var bound := (Pow2(1024) - Pow2(970)) as real;
            Finite(x) == if -bound < x < bound then Some(x) else None
  {
    PowersOfTwo();
    hide Pow2;
  }

  // ---- the forms a reader would try first -----------------------------------

  lemma Unit(s: string, base: nat)
    requires |s| == 1
    ensures Whole(s, base) == DigitValue(s[0])
  {
    assert s[..0] == "";
  }

  lemma Pair(s: string, base: nat)
    requires |s| == 2
    ensures Whole(s, base) == DigitValue(s[0]) * base + DigitValue(s[1])
  {
    Unit(s[..1], base);
  }

  /** A numeral, spelled out and evaluated. */
  lemma Sample(n: Numeral, tail: string, text: string, x: real)
    requires Proper(n) && Ends(n, tail) && Text(n, tail) == text && Value(n) == x && Abs(x) < 1000000.0
    ensures Convert(text) == Some(x)
  {
    hide Convert, Value, Text;
    ConvertNumeral(n, tail);
  }

  lemma SampleUp()
    ensures Convert("1.2e3 lux") == Some(1200.0)
  {
    var n := Numeral("", "", "1", true, "2", Some(Suffix('e', "", "3")));
    Spelling(n, " lux", "1.2e3 lux");
    Pair("12", 10);
    Unit("3", 10);
    hide Whole, Convert, Text;
    assert "1" + "2" == "12";
    assert Shifted(12.0, 10.0, 2) == 1200.0;
    Sample(n, " lux", "1.2e3 lux", 1200.0);
  }

  lemma SampleDown()
    ensures Convert("-2.5E-1,") == Some(-0.25)
  {
    var n := Numeral("-", "", "2", true, "5", Some(Suffix('E', "-", "1")));
    Spelling(n, ",", "-2.5E-1,");
    Pair("25", 10);
    Unit("1", 10);
    hide Whole, Convert, Text;
    assert "2" + "5" == "25";
    assert Shifted(25.0, 10.0, -2) == 0.25;
    Sample(n, ",", "-2.5E-1,", -0.25);
  }

  lemma SampleHex()
    ensures Convert("0x1.8p1") == Some(3.0)
  {
    var n := Numeral("", "0x", "1", true, "8", Some(Suffix('p', "", "1")));
    Spelling(n, "", "0x1.8p1");
    Pair("18", 16);
    Unit("1", 10);
    hide Whole, Convert, Text;
    assert "1" + "8" == "18";
    assert Shifted(24.0, 2.0, -3) == 3.0;
    Sample(n, "", "0x1.8p1", 3.0);
  }

  lemma Spelling(n: Numeral, tail: string, text: string)
    requires var rest := Marked(n.exponent, tail);
             n.sign + (n.prefix + (n.whole + if n.point then "." + (n.frac + rest) else rest)) == text
    ensures Text(n, tail) == text
  {
    hide Marked;
  }

  // ---- what follows a number -----------------------------------------------

  /** A character no form of number contains. */
  predicate Neutral(c: char) {
    !('a' <= Lower(c) <= 'z') && !('0' <= c <= '9') && c !in {'.', '+', '-'}
  }

  predicate AllNeutral(s: string) {
    forall k :: 0 <= k < |s| ==> Neutral(s[k])
  }

  lemma JoinedAt(s: string, tail: string, k: nat)
    requires k <= |s|
    ensures |Join(s, tail)| == |s| + |tail|
    ensures Join(s, tail)[k..] == Join(s[k..], tail) && Join(s, tail)[..k] == s[..k]
    ensures if k < |s| then Join(s, tail)[k] == s[k] else tail != "" ==> Join(s, tail)[k] == tail[0]
  {
  }

  lemma RunTail(s: string, tail: string, base: nat)
    requires AllNeutral(tail) && base <= 16
    ensures DigitRun(Join(s, tail), base) == DigitRun(s, base)
  {
    hide Join;
    var n, m := DigitRun(s, base), DigitRun(Join(s, tail), base);
    JoinedAt(s, tail, n);
    assert tail != "" ==> Digit(tail[0], base).None?;
    assert m >= n ==> m == n;
    if m < n {
      JoinedAt(s, tail, m);
    }
  }

  lemma ExponentTail(s: string, tail: string, mark: char)
    requires AllNeutral(tail) && 'a' <= mark <= 'z'
    ensures Exponent(Join(s, tail), mark) == Exponent(s, mark)
  {
    hide Digits, DigitRun, Digit, Join;
    JoinedAt(s, tail, 0);
    if s != "" && Lower(s[0]) == mark {
      JoinedAt(s, tail, 1);
      var at := if |s| > 1 && (s[1] == '-' || s[1] == '+') then 2 else 1;
      JoinedAt(s, tail, at);
      RunTail(s[at..], tail, 10);
      JoinedAt(s[at..], tail, DigitRun(s[at..], 10));
    }
  }

  lemma PlainTail(s: string, tail: string, base: nat)
    requires AllNeutral(tail) && (base == 10 || base == 16)
    ensures Plain(Join(s, tail), base) == Plain(s, base)
  {
    hide Digits, DigitRun, Digit, Exponent, Fraction, Scale, Join;
    var whole := DigitRun(s, base);
    RunTail(s, tail, base);
    JoinedAt(s, tail, whole);
    var point := whole < |s| && s[whole] == '.';
    var frac := if point then DigitRun(s[whole + 1..], base) else 0;
    if point {
      JoinedAt(s, tail, whole + 1);
      RunTail(s[whole + 1..], tail, base);
      JoinedAt(s[whole + 1..], tail, frac);
    }
    var end := whole + if point then 1 + frac else 0;
    JoinedAt(s, tail, end);
    ExponentTail(s[end..], tail, if base == 10 then 'e' else 'p');
  }

  lemma StartsTail(s: string, tail: string, p: string)
    requires AllNeutral(tail) && forall k :: 0 <= k < |p| ==> 'a' <= p[k] <= 'z' || '0' <= p[k] <= '9'
    ensures StartsWith(Join(s, tail), p) == StartsWith(s, p)
  {
    assert |s| < |p| <= |s| + |tail| ==> Lower(Join(s, tail)[|s|]) == Lower(tail[0]) != p[|s|];
  }

  lemma UnsignedTail(s: string, tail: string)
    requires AllNeutral(tail)
    ensures Unsigned(Join(s, tail)) == Unsigned(s)
  {
    hide Plain, StartsWith, Join;
    StartsTail(s, tail, "infinity");
    StartsTail(s, tail, "inf");
    StartsTail(s, tail, "nan");
    StartsTail(s, tail, "0x");
    PlainTail(s, tail, 10);
    if StartsWith(s, "0x") {
      StartsLong(s, "0x");
      JoinedAt(s, tail, 2);
      PlainTail(s[2..], tail, 16);
    }
  }

  lemma StartsLong(s: string, p: string)
    requires StartsWith(s, p)
    ensures |s| >= |p|
  {
  }

  lemma {:induction false} SpaceRunIs(s: string, n: nat)
    requires n <= |s| && forall k :: 0 <= k < n ==> s[k] in SPACES
    requires n < |s| ==> s[n] !in SPACES
    ensures SpaceRun(s) == n
  {
    if n > 0 {
      SpaceRunIs(s[1..], n - 1);
    }
  }

  /** Blanks before a value do not matter. */
  lemma ConvertSkips(gap: string, x: string)
    requires (forall k :: 0 <= k < |gap| ==> gap[k] in SPACES) && (x == "" || x[0] !in SPACES)
    ensures Convert(Join(gap, x)) == Convert(x)
  {
    hide Unsigned, Finite;
    var s := Join(gap, x);
    SpaceRunIs(s, |gap|);
    SpaceRunIs(x, 0);
    assert s[|gap|..] == x && x[0..] == x;
    assert x != "" ==> s[|gap|] == x[0] && s[|gap| + 1..] == x[1..];
  }

  /** Where a number would have to start, there is none. */
  lemma NoNumber(x: string)
    requires x == "" || (Neutral(x[0]) && x[0] !in SPACES)
    ensures Convert(x) == None
  {
    SpaceRunIs(x, 0);
    assert x[0..] == x;
  }

  /** Nor what follows a value, as long as no character of it belongs to a number. */
  lemma ConvertTail(s: string, tail: string)
    requires s != "" && s[0] !in SPACES && AllNeutral(tail)
    ensures Convert(Join(s, tail)) == Convert(s)
  {
    hide Unsigned, Finite, Join, Neutral;
    SpaceRunIs(s, 0);
    JoinedAt(s, tail, 0);
    SpaceRunIs(Join(s, tail), 0);
    var sign := if s[0] == '-' || s[0] == '+' then 1 else 0;
    JoinedAt(s, tail, sign);
    UnsignedTail(s[sign..], tail);
  }
}
