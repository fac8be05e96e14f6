/** The number at the head of a value, as the C library's `strtod` finds it. */
module Number {
  import opened Bits

  /** A conversion: how many characters it used (0 when there is no number), and its value when finite. */
  datatype Conversion = Conversion(used: nat, value: Option<real>)

  const SPACES: set<char> := {' ', '\t', '\n', '\U{0B}', '\U{0C}', '\r'}

  function Lower(c: char): (r: char)
    ensures 'A' <= c <= 'Z' ==> 'a' <= r <= 'z' && r as int - c as int == 'a' as int - 'A' as int
    ensures !('A' <= c <= 'Z') ==> r == c
  {
    if 'A' <= c <= 'Z' then ((c as int) + 32) as char else c
  }

  function SpaceRun(s: string): (n: nat)
    ensures n <= |s|
  {
    if s == "" || s[0] !in SPACES then 0 else 1 + SpaceRun(s[1..])
  }

  predicate StartsWith(s: string, p: string) {
    |p| <= |s| && forall k :: 0 <= k < |p| ==> Lower(s[k]) == p[k]
  }

  function Digit(c: char, base: nat): Option<nat> {
    var v := if '0' <= c <= '9' then c as int - '0' as int
             else if 'a' <= Lower(c) <= 'f' then Lower(c) as int - 'a' as int + 10
             else 99;
    if v < base then Some(v) else None
  }

  function DigitRun(s: string, base: nat): (n: nat)
    ensures n <= |s|
    ensures forall k :: 0 <= k < n ==> Digit(s[k], base).Some?
    ensures n < |s| ==> Digit(s[n], base).None?
  {
    if s == "" || Digit(s[0], base).None? then 0 else 1 + DigitRun(s[1..], base)
  }

  function Digits(s: string, base: nat): int
    requires forall k :: 0 <= k < |s| ==> Digit(s[k], base).Some?
  {
    if s == "" then 0 else Digits(s[..|s| - 1], base) * base + Digit(s[|s| - 1], base).value
  }

  function Power(b: real, n: nat): (r: real)
    requires b > 0.0
    ensures r > 0.0
  {
    if n == 0 then 1.0 else b * Power(b, n - 1)
  }

  /** 2^1024 - 2^970: from here on a magnitude rounds to infinity in `double`, so `isfinite` rejects it. */
  const OVERFLOW: real := 179769313486231580793728971405303415079934132710037826936173778980444968292764750946649017977587207096330286416692887910946555547851940402630657488671505820681908902000708383676273854845817711531764475730270069855571366959622842914819860834936475292719074168444365510704342711559699508093042880177904174497792.0

  function Finite(x: real): Option<real> {
    if Abs(x) < OVERFLOW then Some(x) else None
  }

  /** The exponent suffix: how many characters it takes (0 when there is none) and its value. */
  function Exponent(s: string, mark: char): (nat, int) {
    if s == "" || Lower(s[0]) != mark then (0, 0)
    else
      var sign := if |s| > 1 && (s[1] == '-' || s[1] == '+') then 1 else 0;
      var n := DigitRun(s[1 + sign..], 10);
      if n == 0 then (0, 0)
      else
        var e := Digits(s[1 + sign..][..n], 10);
        (1 + sign + n, if s[1] == '-' then -(e as int) else e as int)
  }

  /** Digits with an optional point and an optional exponent, in base 10 or 16. */
  function Plain(s: string, base: nat): Conversion
    requires base == 10 || base == 16
  {
    var whole := DigitRun(s, base);
    var point := whole < |s| && s[whole] == '.';
    var frac := if point then DigitRun(s[whole + 1..], base) else 0;
    if whole + frac == 0 then Conversion(0, None)
    else
      var fraction := if point then Fraction(Digits(s[whole + 1..][..frac], base), base, frac) else 0.0;
      var end := whole + (if point then 1 + frac else 0);
      var (used, e) := Exponent(s[end..], if base == 10 then 'e' else 'p');
      var mantissa := Digits(s[..whole], base) as real + fraction;
      Conversion(end + used, Some(Scale(mantissa, if base == 10 then 10.0 else 2.0, e)))
  }

  /** `digits` as `n` places after the point. */
  function Fraction(digits: int, base: nat, n: nat): real
    requires base > 0
  {
    digits as real / Power(base as real, n)
  }

  /** `x` times `b` to the power `e`. */
  function Scale(x: real, b: real, e: int): real
    requires b > 0.0
  {
    if e < 0 then x / Power(b, -e) else x * Power(b, e)
  }

  function Unsigned(s: string): Conversion {
    if StartsWith(s, "infinity") then Conversion(8, None)
    else if StartsWith(s, "inf") || StartsWith(s, "nan") then Conversion(3, None)
    else if StartsWith(s, "0x") && Plain(s[2..], 16).used > 0 then
      var h := Plain(s[2..], 16);
      Conversion(2 + h.used, h.value)
    else Plain(s, 10)
  }

  /** The C library's `strtod` on a C string, with exact arithmetic in place of rounding to `double`. */
  function Strtod(s: string): Conversion {
    var i := SpaceRun(s);
    var sign := if i < |s| && (s[i] == '-' || s[i] == '+') then 1 else 0;
    var m := Unsigned(s[i + sign..]);
    if m.used == 0 then Conversion(0, None)
    else if m.value.None? then Conversion(i + sign + m.used, None)
    else Conversion(i + sign + m.used, Finite(if s[i] == '-' then -m.value.value else m.value.value))
  }

  /** What the shim makes of a value: the number it starts with, when there is one and it is finite. */
  function Convert(value: string): Option<real> {
    var n := Strtod(value);
    if n.used > 0 then n.value else None
  }
}
