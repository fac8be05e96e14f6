/** Bytes on the wire for the readings the documentation uses, and with no reading at all. */
module WireSamples {
  import opened Bits
  import opened Chips
  import opened Decoding
  import Sensors

  /** The readings of the documented file. */
  const DOCUMENTED: Readings :=
    map["temperature" := 21.5, "humidity" := 64.5, "pm10" := 12.0, "pm25" := 34.0, "pm100" := 56.0,
        "voltage" := 4.05, "current" := 0.15]

  lemma Documented()
    ensures ValueOr(DOCUMENTED, "temperature", 20.0) == 21.5 && ValueOr(DOCUMENTED, "humidity", 50.0) == 64.5
    ensures ValueOr(DOCUMENTED, "voltage", 4.05) == 4.05 && ValueOr(DOCUMENTED, "current", 0.0) == 0.15
    ensures ValueOr(DOCUMENTED, "pm10", 0.0) == 12.0 && ValueOr(DOCUMENTED, "pm25", 0.0) == 34.0
    ensures ValueOr(DOCUMENTED, "pm100", 0.0) == 56.0
  {
  }

  lemma DocumentedTemperature(shadow: Shadow)
    ensures ChipBytes(Pct2075, DOCUMENTED, shadow, 0x00, 2) == [0x15, 0x80]
    ensures ChipBytes(Mcp9808, DOCUMENTED, shadow, 0x05, 2) == [0x01, 0x58]
  {
    Documented();
    hide ValueOr;
    assert Lround(172.0) == 172 && Lround(344.0) == 344;
  }

  lemma DocumentedPower(shadow: Shadow)
    ensures ChipBytes(Ina226, DOCUMENTED, shadow, 0x01, 2) == [0x17, 0x70]
    ensures ChipBytes(Ina226, DOCUMENTED, shadow, 0x02, 2) == [0x0C, 0xA8]
    ensures ChipBytes(Ina226, DOCUMENTED, shadow, 0x03, 2) == [0x03, 0xCC]
    ensures ChipBytes(Ina226, DOCUMENTED, shadow, 0x04, 2) == [0x17, 0x70]
  {
    Documented();
    hide ValueOr;
    assert InaShunt(0.15) == 6000 && InaBus(4.05) == 3240 && InaCurrent(0.15) == 6000;
    assert InaPower(4.05, 0.15) == 972 by {
      assert Mul(0.15, 4.05) == 0.6075;
    }
    hide InaShunt, InaBus, InaPower, InaCurrent;
  }

  lemma DocumentedHumidity(shadow: Shadow, reg: byte)
    ensures ChipBytes(Aht10, DOCUMENTED, shadow, reg, 6) == [0x18, 0xA5, 0x1E, 0xC5, 0xB8, 0x52]
  {
    hide ValueOr, AhtHumidity, AhtTemperature, ChipBytes;
    Documented();
    HumidityCounts();
    Sensors.AhtBytes(DOCUMENTED, shadow, reg);
  }

  lemma HumidityCounts()
    ensures AhtHumidity(64.5) == 0xA51EC && AhtTemperature(21.5) == 0x5B852
    ensures AhtHumidity(50.0) == 0x80000 && AhtTemperature(20.0) == 0x5999A
  {
  }

  lemma DocumentedParticles(shadow: Shadow, reg: byte)
    ensures ChipBytes(Pmsa003i, DOCUMENTED, shadow, reg, 32)
         == [0x42, 0x4D, 0, 28, 0, 12, 0, 34, 0, 56, 0, 12, 0, 34, 0, 56, 0, 0, 0, 0, 0, 0, 0, 0, 0, 0, 0, 0, 0, 0,
             0x01, 0x77]
  {
    Documented();
    hide ValueOr;
    assert ClampWord(12.0) == 12 && ClampWord(34.0) == 34 && ClampWord(56.0) == 56;
    hide ClampWord, Sum, ChipBytes;
    ParticleSum();
    Sensors.PmsBytes(DOCUMENTED, shadow, reg);
  }

  lemma ParticleSum()
    ensures Sum(PmsBody(12, 34, 56)) == 375
  {
    hide Sum;
    SumOfSixteen(PmsBody(12, 34, 56));
  }

  lemma SumOfSixteen(b: seq<byte>)
    requires |b| == 30 && forall k :: 16 <= k < 30 ==> b[k] == 0
    ensures Sum(b) == b[0] as int + b[1] + b[2] + b[3] + b[4] + b[5] + b[6] + b[7]
                      + b[8] + b[9] + b[10] + b[11] + b[12] + b[13] + b[14] + b[15]
  {
    hide Sum;
    SumOfZeros(b, 30);
    assert b[..30] == b;
    NoneYet(b);
    NextTwo(b, 0);
    NextTwo(b, 2);
    NextTwo(b, 4);
    NextTwo(b, 6);
    NextTwo(b, 8);
    NextTwo(b, 10);
    NextTwo(b, 12);
    NextTwo(b, 14);
  }

  lemma NoneYet(s: seq<byte>)
    ensures Sum(s[..0]) == 0
  {
  }

  lemma NextTwo(s: seq<byte>, n: nat)
    requires n + 2 <= |s|
    ensures Sum(s[..n + 2]) == Sum(s[..n]) + s[n] as int + s[n + 1] as int
  {
    assert s[..n + 2][..n + 1] == s[..n + 1] && s[..n + 1][..n] == s[..n];
  }

  lemma {:induction false} SumOfZeros(b: seq<byte>, n: nat)
    requires |b| == 30 && 16 <= n <= 30 && forall k :: 16 <= k < 30 ==> b[k] == 0
    ensures Sum(b[..n]) == Sum(b[..16])
  {
    if n > 16 {
      assert b[..n][..n - 1] == b[..n - 1];
      SumOfZeros(b, n - 1);
    }
  }

  /** With no reading at all: 20 degrees, 50 %, 4.05 V, 1013.25 hPa, and nothing of the rest. */
  lemma SilentFile(shadow: Shadow, reg: byte)
    ensures ChipBytes(Pct2075, map[], shadow, 0x00, 2) == [0x14, 0x00]
    ensures ChipBytes(Mcp9808, map[], shadow, 0x05, 2) == [0x01, 0x40]
    ensures ChipBytes(Ina226, map[], shadow, 0x02, 2) == [0x0C, 0xA8]
    ensures ChipBytes(Ina226, map[], shadow, 0x04, 2) == [0x00, 0x00]
    ensures ChipBytes(Bh1750, map[], shadow, 0x10, 2) == [0x00, 0x00]
    ensures ChipBytes(Rcwl9620, map[], shadow, 0x01, 3) == [0, 0, 0]
    ensures ChipBytes(CgRadSens, map[], shadow, 0x06, 3) == [0, 0, 0]
    ensures ChipBytes(DfrobotRain, map[], shadow, 0x10, 4) == [0, 0, 0, 0]
  {
    assert Lround(160.0) == 160 && Lround(320.0) == 320 && Lround(3240.0) == 3240 && Lround(0.0) == 0;
    hide Lround, Mul;
  }

  lemma SilentHumidity(shadow: Shadow, reg: byte)
    ensures ChipBytes(Aht10, map[], shadow, reg, 6) == [0x18, 0x80, 0x00, 0x05, 0x99, 0x9A]
  {
    hide AhtHumidity, AhtTemperature, ChipBytes;
    HumidityCounts();
    Sensors.AhtBytes(map[], shadow, reg);
  }

  lemma SilentPressure(shadow: Shadow)
    ensures ChipBytes(Lps22, map[], shadow, 0x28, 3) == [0x00, 0x54, 0x3F]
    ensures ChipBytes(Lps22, map[], shadow, 0x2B, 2) == [0xD0, 0x07]
  {
    assert LpsPressure(1013.25) == 0x3F5400 && LpsTemperature(20.0) == 2000;
    hide LpsPressure, LpsTemperature;
  }

  lemma SilentBarometer(shadow: Shadow)
    ensures ChipBytes(Bmp280, map[], shadow, 0xF7, 6) == [0xE7, 0x43, 0x30, 0x59, 0x00, 0x00]
  {
    hide BmpPressureCount, BmpTemperatureCount;
    BarometerCounts();
  }

  lemma BarometerCounts()
    ensures BmpPressureCount(1013.25) == 0xE7433 && BmpTemperatureCount(20.0) == 0x59000
  {
  }

  /** The documented radiation, 13.7: the bytes are right, and without a mask they are counted as 4294967177. */
  lemma DocumentedRadiation(shadow: Shadow)
    ensures ChipBytes(CgRadSens, map["radiation" := 13.7], shadow, 0x06, 3) == [0x00, 0x00, 0x89]
    ensures UnmaskedCount(SignExtend(0x00), SignExtend(0x00), SignExtend(0x89)) == 4294967177
  {
    hide RadiationCount;
    assert RadiationCount(13.7) == 137 by {
      Radiation137();
    }
  }

  lemma Radiation137()
    ensures RadiationCount(13.7) == 137
  {
  }
}
