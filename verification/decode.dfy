/** The drivers' formulas, and how close they bring back what the chips encoded. */
module Decoding {
  import opened Bits
  import opened Chips

  function Word(s: seq<byte>): word
    requires |s| == 2
  {
    s[0] as int * 0x100 + s[1] as int
  }

  lemma WordOfBe16(v: word)
    ensures Word(Be16(v)) == v
  {
  }

  // ---- PCT2075 and MCP9808: temperature -----------------------------------

  /** The top eleven bits, in eighths of a degree. */
  function PctDegrees(raw: word): real {
    (ToInt16(raw) / 32) as real * 0.125
  }

  lemma PctDecodes(t: real)
    ensures Abs(PctDegrees(PctTemperature(t)) - Clamp(t, -55.0, 127.0)) <= 0.0625
  {
    var x := Clamp(t, -55.0, 127.0) / 0.125;
    LroundBounds(x, -440, 1016);
    var n := Lround(x);
    assert ToInt16(ToWord(n * 32)) == n * 32;
  }

  function McpDegrees(raw: word): real {
    var t := (raw % 0x1000) as real * 0.0625;
    if raw / 0x1000 % 2 == 1 then -t else t
  }

  /** The count has twelve bits: up to 255.96875 degrees the reading comes back; from there it wraps. */
  lemma McpDecodesExactlyInRange(t: real)
    ensures Abs(McpDegrees(McpTemperature(t)) - t) <= 0.03125 <==> Abs(t) < 255.96875
  {
    var n := Lround(Abs(t) / 0.0625);
    assert McpTemperature(t) % 0x1000 == n % 0x1000;
    assert McpTemperature(t) / 0x1000 % 2 == if t < 0.0 then 1 else 0;
  }

  // ---- INA226: voltage, current, power ------------------------------------

  function InaAmps(raw: word): real {
    ToInt16(raw) as real * 0.000025
  }

  function InaVolts(raw: word): real {
    raw as real * 0.00125
  }

  predicate FitsInt16(n: int) {
    -0x8000 <= n < 0x8000
  }

  /** Reduction modulo 2^16 keeps a value exactly when the value fits; otherwise it is at least 2^16 out. */
  lemma Wraps(n: int)
    ensures FitsInt16(n) ==> ToInt16(ToWord(n)) == n
    ensures !FitsInt16(n) ==> AbsInt(ToInt16(ToWord(n)) - n) >= 0x1_0000
  {
  }

  lemma InaCurrentDecodesExactlyInRange(amps: real)
    ensures Abs(InaAmps(InaCurrent(amps)) - amps) <= 0.0000125 <==> -0.8192125 < amps < 0.8191875
  {
    Wraps(Lround(amps / 0.000025));
  }

  lemma InaVoltageDecodesExactlyInRange(volts: real)
    ensures Abs(InaVolts(InaBus(volts)) - volts) <= 0.000625 <==> -0.000625 < volts < 81.919375
  {
    var n := Lround(volts / 0.00125);
    assert !(0 <= n < 0x1_0000) ==> AbsInt(ToWord(n) - n) >= 0x1_0000;
  }

  /** A battery shunt of 1450 mA, scaled to 1.45 A, is past the register's 0.819 A: it reads as -0.1884 A. */
  lemma BatteryShuntWraps()
    ensures InaAmps(InaCurrent(1.45)) == -0.1884
  {
    assert 1.45 / 0.000025 == 58000.0;
    assert Lround(58000.0) == 58000;
  }

  lemma HalfAtMost(e: real, n: real)
    requires Abs(e) <= 0.5 && n >= 0.0
    ensures Abs(Mul(e, n)) <= n / 2.0
  {
    assert e * n <= 0.5 * n;
    assert e * n >= -0.5 * n;
  }

  lemma QuarterAtMost(e: real, f: real)
    requires Abs(e) <= 0.5 && Abs(f) <= 0.5
    ensures Abs(Mul(e, f)) <= 0.25
  {
    HalfAtMost(e, Abs(f));
    assert e * -f == -(e * f);
  }

  lemma Expand(x: real, y: real, i: real, b: real)
    ensures Mul(x, y) == Mul(i, b) + Mul(x - i, b) + Mul(y - b, i) + Mul(x - i, y - b)
  {
    var e, f := x - i, y - b;
    assert (i + e) * (b + f) == i * b + e * b + f * i + e * f;
  }

  /** A rounded product against the product of its rounded factors. */
  lemma PowerBound(x: real, y: real, z: real, i: real, b: real, p: real)
    requires i >= 0.0 && b >= 0.0 && Abs(i - x) <= 0.5 && Abs(b - y) <= 0.5 && Abs(p - z) <= 0.5
    requires z * 20000.0 == Mul(x, y)
    ensures Abs(20000.0 * p - Mul(i, b)) <= 10000.0 + (i + b) / 2.0 + 0.25
  {
    hide Mul;
    Expand(x, y, i, b);
    HalfAtMost(x - i, b);
    HalfAtMost(y - b, i);
    QuarterAtMost(x - i, y - b);
  }

  /** The power count is the product of the current and voltage counts, in units of 20000. */
  lemma PowerIsProduct(a: real, v: real)
    requires a >= 0.0 && v >= 0.0
    ensures Mul(a, v) / (25.0 * 0.000025) * 20000.0 == Mul(a / 0.000025, v / 0.00125)
    ensures Mul(a, v) >= 0.0
  {
    assert a / 0.000025 == a * 40000.0 && v / 0.00125 == v * 800.0;
    assert (a * 40000.0) * (v * 800.0) == (a * v) * 32000000.0;
  }

  lemma CurrentMagnitude(amps: real)
    requires -0.8192125 < amps < 0.8191875
    ensures AbsInt(ToInt16(InaCurrent(amps))) == Lround(Abs(amps) / 0.000025)
  {
    LroundOdd(amps / 0.000025);
    Wraps(Lround(amps / 0.000025));
    assert -amps / 0.000025 == -(amps / 0.000025);
  }

  lemma ShuntIsCurrent(amps: real)
    ensures InaShunt(amps) == InaCurrent(amps)
  {
    assert amps * 0.100 * 1000000.0 / 2.5 == amps / 0.000025;
  }

  /** No 16-bit field overflows: every rounded quantity fits the field it is put in. */
  predicate NoFieldOverflows(volts: real, amps: real) {
    && FitsInt16(Lround(amps / 0.000025))
    && 0 <= Lround(volts / 0.00125) < 0x1_0000
    && 0 <= Lround(Mul(Abs(amps), volts) / (25.0 * 0.000025)) < 0x1_0000
  }

  lemma SignOfProduct(a: real, v: real)
    requires a >= 0.0
    ensures v <= 0.0 ==> Mul(a, v) <= 0.0
    ensures Mul(a, 0.0) == 0.0
  {
    if v <= 0.0 {
      assert a * -v >= 0.0;
      assert a * v == -(a * -v);
    }
  }

  /** A voltage below zero that still rounds to zero makes the power count zero, when that fits at all. */
  lemma NegativeVoltage(volts: real, amps: real)
    requires NoFieldOverflows(volts, amps) && volts < 0.0
    ensures InaBus(volts) == 0 && InaPower(volts, amps) == 0
  {
    hide Mul;
    SignOfProduct(Abs(amps), volts);
  }

  /** While no field overflows, shunt and current agree and power is their product up to rounding. */
  lemma InaCoheres(volts: real, amps: real)
    requires NoFieldOverflows(volts, amps)
    ensures InaShunt(amps) == InaCurrent(amps)
    ensures var i := AbsInt(ToInt16(InaCurrent(amps))) as real;
            var b := InaBus(volts) as real;
            Abs(20000.0 * InaPower(volts, amps) as real - Mul(i, b)) <= 10000.0 + (i + b) / 2.0 + 0.25
  {
    hide Mul, ToInt16, InaShunt, InaCurrent;
    ShuntIsCurrent(amps);
    CurrentMagnitude(amps);
    if volts < 0.0 {
      NegativeVoltage(volts, amps);
      SignOfProduct(AbsInt(ToInt16(InaCurrent(amps))) as real, 0.0);
    } else {
      PowerIsProduct(Abs(amps), volts);
      var x, y, z := Abs(amps) / 0.000025, volts / 0.00125, Mul(Abs(amps), volts) / (25.0 * 0.000025);
      PowerBound(x, y, z, Lround(x) as real, Lround(y) as real, Lround(z) as real);
    }
  }

  // ---- AHT10: humidity and temperature in twenty bits each ----------------

  function AhtHumidityCount(d: seq<byte>): nat
    requires |d| == 6
  {
    d[1] as int * 0x1000 + d[2] as int * 0x10 + d[3] as int / 0x10
  }

  function AhtTemperatureCount(d: seq<byte>): nat
    requires |d| == 6
  {
    (d[3] as int % 0x10) * 0x1_0000 + d[4] as int * 0x100 + d[5] as int
  }

  function AhtPercent(d: seq<byte>): real
    requires |d| == 6
  {
    AhtHumidityCount(d) as real * 100.0 / 1048576.0
  }

  function AhtDegrees(d: seq<byte>): real
    requires |d| == 6
  {
    AhtTemperatureCount(d) as real * 200.0 / 1048576.0 - 50.0
  }

  lemma AhtUnpacks(h: nat, t: nat)
    requires h < 0x10_0000 && t < 0x10_0000
    ensures AhtHumidityCount(AhtFrame(h, t)) == h
    ensures AhtTemperatureCount(AhtFrame(h, t)) == t
  {
    var mixed := h % 0x10 * 0x10 + t / 0x1_0000;
    assert mixed / 0x10 == h % 0x10 && mixed % 0x10 == t / 0x1_0000;
    assert h / 0x10 / 0x100 == h / 0x1000;
    assert t / 0x100 / 0x100 == t / 0x1_0000;
  }

  /** Humidity comes back to half a count, except where rounding reaches 2^20 and the mask leaves 0. */
  lemma AhtHumidityDecodes(hum: real)
    ensures var h := Clamp(hum, 0.0, 100.0);
            var percent := AhtHumidity(hum) as real * 100.0 / 1048576.0;
            if h >= 100.0 - 50.0 / 1048576.0 then percent == 0.0
            else Abs(percent - h) <= 50.0 / 1048576.0
  {
    LroundBounds(Clamp(hum, 0.0, 100.0) / 100.0 * 1048576.0, 0, 0x10_0000);
  }

  /** So does temperature. */
  lemma AhtTemperatureDecodes(t: real)
    ensures var u := Clamp(t, -50.0, 150.0);
            var degrees := AhtTemperature(t) as real * 200.0 / 1048576.0 - 50.0;
            if u >= 150.0 - 100.0 / 1048576.0 then degrees == -50.0
            else Abs(degrees - u) <= 100.0 / 1048576.0
  {
    LroundBounds((Clamp(t, -50.0, 150.0) + 50.0) / 200.0 * 1048576.0, 0, 0x10_0000);
  }

  /** The whole frame: both readings, each right to half a count unless its own rounding reached 2^20. */
  lemma AhtDecodes(hum: real, t: real)
    ensures var d := AhtFrame(AhtHumidity(hum), AhtTemperature(t));
            var h, u := Clamp(hum, 0.0, 100.0), Clamp(t, -50.0, 150.0);
            && (if h >= 100.0 - 50.0 / 1048576.0 then AhtPercent(d) == 0.0
                else Abs(AhtPercent(d) - h) <= 50.0 / 1048576.0)
            && (if u >= 150.0 - 100.0 / 1048576.0 then AhtDegrees(d) == -50.0
                else Abs(AhtDegrees(d) - u) <= 100.0 / 1048576.0)
  {
    AhtHumidityDecodes(hum);
    AhtTemperatureDecodes(t);
    AhtUnpacks(AhtHumidity(hum), AhtTemperature(t));
    hide AhtHumidity, AhtTemperature, AhtFrame, AhtHumidityCount, AhtTemperatureCount, Lround;
  }

  /** The ends of both scales are where the mask bites: 100 % reads as 0 %, and 150 degrees as -50. */
  lemma AhtFullScaleWraps(hum: real, t: real)
    requires hum >= 100.0 && t >= 150.0
    ensures AhtPercent(AhtFrame(AhtHumidity(hum), AhtTemperature(t))) == 0.0
    ensures AhtDegrees(AhtFrame(AhtHumidity(hum), AhtTemperature(t))) == -50.0
  {
    LroundBounds(1048576.0, 0x10_0000, 0x10_0000);
    AhtDecodes(hum, t);
  }

  // ---- PMSA003I: the checksummed frame ------------------------------------

  function Field(f: seq<byte>, i: nat): word
    requires i + 1 < |f|
  {
    f[i] as int * 0x100 + f[i + 1] as int
  }

  /** What the driver insists on: header, length field, and the additive checksum of the first thirty bytes. */
  predicate FrameAccepted(f: seq<byte>) {
    && |f| == PMS_FRAME
    && f[0] == 0x42 && f[1] == 0x4D
    && Field(f, 2) == 28
    && Field(f, 30) == ToWord(Sum(f[..30]))
  }

  /** A particle count is the reading clamped to sixteen bits, rounded. */
  lemma ParticleDecodes(v: real)
    ensures Abs(ClampWord(v) as real - Clamp(v, 0.0, 65535.0)) <= 0.5
  {
    LroundBounds(Clamp(v, 0.0, 65535.0), 0, 65535);
  }

  lemma PmsFrameDecodes(pm10: word, pm25: word, pm100: word)
    ensures var f := PmsFrame(pm10, pm25, pm100);
            && FrameAccepted(f)
            && Field(f, 4) == Field(f, 10) == pm10
            && Field(f, 6) == Field(f, 12) == pm25
            && Field(f, 8) == Field(f, 14) == pm100
  {
    var f, body := PmsFrame(pm10, pm25, pm100), PmsBody(pm10, pm25, pm100);
    assert f[..30] == body;
  }

  /** Changing one byte of an accepted frame, up to the checksum, makes the driver refuse it. */
  lemma CorruptionRefused(f: seq<byte>, i: nat, b: byte)
    requires FrameAccepted(f) && i < 30 && b != f[i]
    ensures !FrameAccepted(f[i := b])
  {
    var g := f[i := b];
    assert g[..30] == f[..30][i := b];
    SumUpdate(f[..30], i, b);
    assert Field(g, 30) == Field(f, 30);
  }

  lemma {:induction false} SumUpdate(s: seq<byte>, i: nat, b: byte)
    requires i < |s|
    ensures Sum(s[i := b]) == Sum(s) - s[i] + b
  {
    var n := |s| - 1;
    var t := s[i := b];
    if i == n {
      assert t[..n] == s[..n];
    } else {
      assert t[..n] == s[..n][i := b];
      SumUpdate(s[..n], i, b);
    }
  }

  // ---- BH1750, RCWL-9620, RadSens, rain gauge, LPS22HB --------------------

  lemma LuxDecodes(lux: real)
    ensures Abs(LuxCount(lux) as real / 1.2 - Clamp(lux, 0.0, 65535.0 / 1.2)) <= 0.5 / 1.2
  {
    LroundBounds(Clamp(lux * 1.2, 0.0, 65535.0), 0, 65535);
  }

  lemma DistanceDecodes(mm: real)
    ensures DistanceCount(mm) < 0x100_0000
    ensures Abs(DistanceCount(mm) as real / 1000.0 - Clamp(mm, 0.0, 4500.0)) <= 0.0005
  {
    LroundBounds(Clamp(mm, 0.0, 4500.0) * 1000.0, 0, 4500000);
  }

  lemma RadiationDecodes(uR: real)
    ensures RadiationCount(uR) < 0x100_0000
    ensures Abs(RadiationCount(uR) as real / 10.0 - Clamp(uR, 0.0, 1677721.5)) <= 0.05
  {
    LroundBounds(Clamp(uR, 0.0, 1677721.5) * 10.0, 0, 16777215);
  }

  lemma RainDecodes(mm: real)
    ensures RainCount(mm) < 0x1_0000_0000
    ensures Abs(RainCount(mm) as real / 10000.0 - Clamp(mm, 0.0, 429496.7295)) <= 0.00005
  {
    LroundBounds(Clamp((if mm < 0.0 then 0.0 else mm) * 10000.0, 0.0, 4294967295.0), 0, 0xFFFF_FFFF);
  }

  /** The cumulative register is not clamped: past 429496.7295 mm its four bytes wrap. */
  lemma TotalRainDecodesExactlyInRange(mm: real)
    ensures Abs(TotalRainCount(mm) as real / 10000.0 - if mm < 0.0 then 0.0 else mm) <= 0.00005 <==> mm < 429496.72955
  {
    var n := Lround(if mm < 0.0 then 0.0 else mm * 10000.0);
    assert n >= 0x1_0000_0000 ==> n - n % 0x1_0000_0000 >= 0x1_0000_0000;
  }

  lemma LpsPressureDecodes(hPa: real)
    ensures LpsPressure(hPa) < 0x100_0000
    ensures Abs(LpsPressure(hPa) as real / 4096.0 - Clamp(hPa, 0.0, 4095.0)) <= 0.5 / 4096.0
  {
    LroundBounds(Clamp(hPa, 0.0, 4095.0) * 4096.0, 0, 16773120);
  }

  lemma LpsTemperatureDecodesExactlyInRange(t: real)
    ensures Abs(ToInt16(LpsTemperature(t)) as real / 100.0 - t) <= 0.005 <==> -327.685 < t < 327.675
  {
    Wraps(Lround(t * 100.0));
  }

  lemma Be24Decodes(v: nat)
    requires v < 0x100_0000
    ensures FromBe(Be24(v)) == v
  {
    FromBe3(Be24(v));
  }

  // ---- BMP280: the compensation polynomial --------------------------------

  /** Twenty bits, left-aligned in three bytes. */
  function Count20(hi: byte, mid: byte, lo: byte): nat {
    hi as int * 0x1000 + mid as int * 0x10 + lo as int / 0x10
  }

  /** `t_fine`, from a raw count and the three temperature words. */
  function FineTemperature(adc: int, t1: word, t2: int, t3: int): real {
    var a := adc as real / 16384.0 - t1 as real / 1024.0;
    var b := adc as real / 131072.0 - t1 as real / 8192.0;
    a * t2 as real + b * b * t3 as real
  }

  /** Pascals, from a raw count and the first pressure word, the other pressure words being zero. */
  function Pascals(adc: int, p1: word): real
    requires p1 != 0
  {
    (1048576.0 - adc as real) * 6250.0 / p1 as real
  }

  lemma BmpDecodes(hPa: real, t: real)
    ensures Abs(FineTemperature(BmpTemperatureCount(t), 16384, 16384, 0) / 5120.0
                - Clamp(t, -51.2, 786431.0 / 5120.0)) <= 0.5 / 5120.0
    ensures Abs(Pascals(BmpPressureCount(hPa), 6250) - Clamp(hPa * 100.0, 1.0, 1048576.0)) <= 0.5
  {
    hide *;
    BmpTemperatureDecodes(t);
    BmpPressureDecodes(hPa);
  }

  lemma BmpTemperatureDecodes(t: real)
    ensures Abs(FineTemperature(BmpTemperatureCount(t), 16384, 16384, 0) / 5120.0
                - Clamp(t, -51.2, 786431.0 / 5120.0)) <= 0.5 / 5120.0
  {
    var adc := BmpTemperatureCount(t);
    LroundBounds(Clamp(t * 5120.0 + 16.0 * 16384.0, 0.0, 1048575.0), 0, 1048575);
    FineIsLinear(adc);
    hide FineTemperature;
  }

  /** With the code's calibration words the polynomial is a straight line. */
  lemma FineIsLinear(adc: int)
    ensures FineTemperature(adc, 16384, 16384, 0) == adc as real - 262144.0
  {
    var b := adc as real / 131072.0 - 16384.0 / 8192.0;
    assert b * b * 0.0 == 0.0;
  }

  lemma BmpPressureDecodes(hPa: real)
    ensures Abs(Pascals(BmpPressureCount(hPa), 6250) - Clamp(hPa * 100.0, 1.0, 1048576.0)) <= 0.5
  {
    LroundBounds(Clamp(1048576.0 - (if hPa < 0.0 then 0.0 else hPa) * 100.0, 0.0, 1048575.0), 0, 1048575);
  }

  // ---- the signed character -----------------------------------------------

  /** `x | (uint32_t)v` where the low eight bits of `x` are clear and `v` is a sign-extended byte. */
  function OrSigned(x: nat, v: int): nat
    requires -0x80 <= v < 0x80
  {
    if v >= 0 then x + v else 0x1_0000_0000 + v
  }

  /** The RadSens driver's count: each `int` it is handed goes into a 32-bit word without masking. */
  function UnmaskedCount(v0: int, v1: int, v2: int): nat
    requires -0x80 <= v0 < 0x80 && -0x80 <= v1 < 0x80 && -0x80 <= v2 < 0x80
  {
    var x := OrSigned(0, v0);
    var y := OrSigned(x * 0x100 % 0x1_0000_0000, v1);
    OrSigned(y * 0x100 % 0x1_0000_0000, v2)
  }

  /** From three bytes on the bus that count is right exactly when none of them has its top bit set. */
  lemma UnmaskedCountRightIff(b0: byte, b1: byte, b2: byte)
    ensures UnmaskedCount(SignExtend(b0), SignExtend(b1), SignExtend(b2))
              == b0 as int * 0x1_0000 + b1 as int * 0x100 + b2 as int
            <==> b0 < 0x80 && b1 < 0x80 && b2 < 0x80
  {
  }
}
