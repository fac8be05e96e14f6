/** The other end of the values file: what the host writes, and that the shim's parser reads it back. */
module Rendering {
  import opened Bits
  import opened Number
  import opened Written
  import opened ValuesFile

  function DigitChar(d: nat): char
    requires d < 10
  {
    ('0' as int + d) as char
  }

  function Decimal(n: nat): string {
    if n < 10 then [DigitChar(n)] else Decimal(n / 10) + [DigitChar(n % 10)]
  }

  function FourDigits(n: nat): string
    requires n < 10000
  {
    [DigitChar(n / 1000), DigitChar(n / 100 % 10), DigitChar(n / 10 % 10), DigitChar(n % 10)]
  }

  /** To the nearest integer, halves to the even one. */
  function RoundEven(x: real): (n: nat)
    requires x >= 0.0
    ensures Abs(n as real - x) <= 0.5
    ensures Abs(n as real - x) == 0.5 ==> n % 2 == 0
  {
    var f := x.Floor;
    if x - f as real < 0.5 || (x - f as real == 0.5 && f % 2 == 0) then f else f + 1
  }

  function TenThousandths(v: real): nat {
    RoundEven(Abs(v) * 10000.0)
  }

  /** A number printed with four decimals. The sign is that of the number, also where it rounds to zero. */
  function Fixed4(v: real): string {
    var n := TenThousandths(v);
    (if v < 0.0 then "-" else "") + (Decimal(n / 10000) + ("." + FourDigits(n % 10000)))
  }

  /** The number that is printed. */
  function Printed(v: real): real {
    var x := TenThousandths(v) as real / 10000.0;
    if v < 0.0 then -x else x
  }

  /** Half a unit in the fourth decimal is lost at most. */
  lemma PrintedNear(v: real)
    ensures Abs(Printed(v) - v) <= 0.00005
  {
  }

  /** Nothing is lost of a number that has no more than four decimals. */
  lemma PrintedExactly(k: int)
    ensures Printed(k as real / 10000.0) == k as real / 10000.0
  {
    hide RoundEven;
    var v := k as real / 10000.0;
    assert Abs(v) * 10000.0 == AbsInt(k) as real;
    RoundWhole(AbsInt(k));
    assert TenThousandths(v) == AbsInt(k);
  }

  lemma RoundWhole(n: nat)
    ensures RoundEven(n as real) == n
  {
  }

  datatype Field = Field(name: string, value: real)

  function Line(f: Field): string {
    f.name + "=" + Fixed4(f.value)
  }

  /** One line per field, each ended by a newline. */
  function Render(fields: seq<Field>): string {
    if fields == [] then "" else Line(fields[0]) + "\n" + Render(fields[1..])
  }

  /** Field names are words of letters, digits and underscores. */
  predicate PlainName(name: string) {
    name != "" && forall k :: 0 <= k < |name| ==>
      'a' <= name[k] <= 'z' || '0' <= name[k] <= '9' || name[k] == '_'
  }

  // ---- the number ---------------------------------------------------------

  lemma {:induction false} DecimalDigits(n: nat)
    ensures Decimal(n) != "" && AllDigits(Decimal(n), 10) && Whole(Decimal(n), 10) == n
  {
    if n >= 10 {
      DecimalDigits(n / 10);
      assert Decimal(n)[..|Decimal(n)| - 1] == Decimal(n / 10);
    } else {
      assert Decimal(n)[..0] == "";
    }
  }

  lemma DigitAppended(s: string, d: nat)
    requires d < 10
    ensures Whole(s + [DigitChar(d)], 10) == Whole(s, 10) * 10 + d
  {
    assert (s + [DigitChar(d)])[..|s|] == s;
  }

  /** Four digits after others: the number they make together. */
  lemma FourDigitsValue(n: nat, before: string)
    requires n < 10000
    ensures |FourDigits(n)| == 4 && AllDigits(FourDigits(n), 10)
    ensures Whole(before + FourDigits(n), 10) == Whole(before, 10) * 10000 + n
  {
    hide Whole;
    var a := before + [DigitChar(n / 1000)];
    var b := a + [DigitChar(n / 100 % 10)];
    var c := b + [DigitChar(n / 10 % 10)];
    DigitAppended(before, n / 1000);
    DigitAppended(a, n / 100 % 10);
    DigitAppended(b, n / 10 % 10);
    DigitAppended(c, n % 10);
    assert before + FourDigits(n) == c + [DigitChar(n % 10)];
    DecimalParts(n);
  }

  lemma DecimalParts(n: nat)
    ensures n == n / 1000 * 1000 + n / 100 % 10 * 100 + n / 10 % 10 * 10 + n % 10
  {
    assert n / 10 / 10 == n / 100 && n / 100 / 10 == n / 1000;
  }

  /** The printed number as a numeral. */
  function FixedNumeral(v: real): Numeral {
    var n := TenThousandths(v);
    Numeral(if v < 0.0 then "-" else "", "", Decimal(n / 10000), true, FourDigits(n % 10000), None)
  }

  lemma FixedIsNumeral(v: real)
    ensures Proper(FixedNumeral(v)) && Fixed4(v) == Text(FixedNumeral(v), "")
  {
    hide Decimal, FourDigits, Whole, TenThousandths, AllDigits, DigitOf;
    var n := TenThousandths(v);
    DecimalDigits(n / 10000);
    FourDigitsValue(n % 10000, "");
    assert Join(FourDigits(n % 10000), "") == FourDigits(n % 10000);
  }

  lemma FixedValue(v: real)
    ensures Value(FixedNumeral(v)) == Printed(v)
  {
    hide Decimal, FourDigits, TenThousandths, Whole;
    var n := TenThousandths(v);
    DecimalDigits(n / 10000);
    FourDigitsValue(n % 10000, Decimal(n / 10000));
    assert Shifted(n as real, 10.0, -4) == n as real / 10000.0;
  }

  /** What is printed is converted back exactly, sign included. */
  lemma ConvertFixed(v: real)
    ensures Convert(Fixed4(v)) == Finite(Printed(v))
    ensures Fixed4(v) != "" && Fixed4(v)[0] !in VALUE_LEFT
  {
    hide Convert, Proper, Fixed4, FixedNumeral, Text, Value, Finite, Printed;
    FixedIsNumeral(v);
    FixedValue(v);
    ConvertNumeral(FixedNumeral(v), "");
  }

  // ---- the line and the file ----------------------------------------------

  /**
   * A number in any decimal form, whatever follows it, after a name bare, quoted or braced: the key gets it exactly
   * when it is the name and the marks around the name are the ones that are trimmed.
   */
  lemma NumeralLineMatches(l: string, name: string, r: string, sep: char, gap: string, n: Numeral, tail: string,
                           key: string)
    requires Word(name) && Word(key) && Marks(l) && Marks(r) && (sep == '=' || sep == ':')
    requires forall k :: 0 <= k < |gap| ==> gap[k] in {' ', '\t', '"', '\''}
    requires Proper(n) && Ends(n, tail)
    ensures Match(l + (name + r) + ([sep] + (gap + Text(n, tail))), key, Convert)
            == if name == key && (forall k :: 0 <= k < |l| ==> l[k] in {' ', '\t', '{', '"', '\''})
                  && (forall k :: 0 <= k < |r| ==> r[k] in {' ', '\t', '"', '\''})
               then Finite(Value(n)) else None
  {
    ConvertNumeral(n, tail);
    hide Match, Convert, Text, Value, Finite, Proper, Word, Marks;
    MarkedLine(l, name, r, sep, gap, Text(n, tail), key, Convert);
  }

  lemma LineMatches(f: Field, key: string)
    requires PlainName(f.name)
    ensures Match(Line(f), key, Convert) == if f.name == key then Finite(Printed(f.value)) else None
  {
    var v := Fixed4(f.value);
    ConvertFixed(f.value);
    hide Convert, Fixed4, Finite, Match, Printed;
    BareLine(f.name, '=', v, key, Convert);
    assert f.name + (['='] + v) == Line(f);
  }

  lemma FixedIsClean(v: real)
    ensures NUL !in Fixed4(v) && '\n' !in Fixed4(v)
  {
    DecimalDigits(TenThousandths(v) / 10000);
    hide Decimal, Digits, TenThousandths;
  }

  lemma LineIsClean(f: Field)
    requires PlainName(f.name)
    ensures NUL !in Line(f) && '\n' !in Line(f)
  {
    FixedIsClean(f.value);
    hide Fixed4;
  }

  /**
   * What the host renders is what the shim reads: every field's value as printed, and nothing for a field that
   * was not written, whatever the order of the lines.
   */
  lemma {:induction false} RenderedReadsBack(fields: seq<Field>, key: string)
    requires forall i :: 0 <= i < |fields| ==> PlainName(fields[i].name)
    requires forall i, j :: 0 <= i < j < |fields| ==> fields[i].name != fields[j].name
    ensures forall i :: 0 <= i < |fields| && fields[i].name == key ==>
              Parse(Render(fields), key, Convert) == Finite(Printed(fields[i].value))
    ensures (forall i :: 0 <= i < |fields| ==> fields[i].name != key) ==> Parse(Render(fields), key, Convert) == None
  {
    hide Line, Match, Convert, Finite, Parse, Printed;
    if fields == [] {
      NothingRendered(key);
    } else {
      var f, rest := fields[0], fields[1..];
      RenderedReadsBack(rest, key);
      LineMatches(f, key);
      LineIsClean(f);
      ParseLine(Line(f), key, Convert);
      ParseConcat(Line(f) + "\n", Render(rest), key, Convert);
      assert forall i :: 0 < i < |fields| ==> fields[i] == rest[i - 1];
    }
  }

  lemma NothingRendered(key: string)
    ensures Parse("", key, Convert) == None
  {
    assert CString("") == "";
    assert Lines("") == [];
  }

  /** A rendered file, letter by letter. */
  lemma RenderedText()
    ensures Render([Field("pm25", 12.0), Field("temperature", 21.5)]) == "pm25=12.0000\ntemperature=21.5000\n"
    ensures Fixed4(-0.00001) == "-0.0000"
  {
    hide Fixed4, Line, Render;
    TwelveText();
    TwentyOneText();
    TinyText();
    var f, g := Field("pm25", 12.0), Field("temperature", 21.5);
    LineText(f, "12.0000");
    LineText(g, "21.5000");
    RenderTwo(f, g);
  }

  lemma RenderTwo(f: Field, g: Field)
    ensures Render([f, g]) == Line(f) + "\n" + (Line(g) + "\n")
  {
    hide Line;
    assert [f, g][1..] == [g] && [g][1..] == [];
    assert Render([g]) == Line(g) + "\n" + "";
  }

  lemma TwelveText()
    ensures Fixed4(12.0) == "12.0000"
  {
    assert FourDigits(0) == "0000";
    hide FourDigits, Fixed4;
    FixedText(12.0, 120000, "12", "0000");
  }

  lemma TwentyOneText()
    ensures Fixed4(21.5) == "21.5000"
  {
    assert FourDigits(5000) == "5000";
    hide FourDigits, Fixed4;
    FixedText(21.5, 215000, "21", "5000");
  }

  lemma LineText(f: Field, v: string)
    requires Fixed4(f.value) == v
    ensures Line(f) == f.name + "=" + v
  {
  }

  lemma FixedText(v: real, n: nat, d: string, q: string)
    requires v >= 0.0 && v * 10000.0 == n as real
    requires 100000 <= n < 1000000 && d == [DigitChar(n / 100000), DigitChar(n / 10000 % 10)]
    requires q == FourDigits(n % 10000)
    ensures Fixed4(v) == d + "." + q
  {
    RoundWhole(n);
    assert TenThousandths(v) == n;
    hide RoundEven, FourDigits, TenThousandths;
    assert Decimal(n / 10000) == Decimal(n / 100000) + [DigitChar(n / 10000 % 10)] by {
      assert n / 10000 / 10 == n / 100000;
    }
    assert "" + (d + ("." + q)) == d + "." + q;
  }

  lemma TinyText()
    ensures Fixed4(-0.00001) == "-0.0000"
  {
    assert TenThousandths(-0.00001) == 0;
    assert Decimal(0) == "0" && FourDigits(0) == "0000";
  }
}
