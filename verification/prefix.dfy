/** How reads of different lengths from one register compare. */
module Prefixes {
  import opened Bits
  import opened Chips

  function ByteAt(s: seq<byte>, i: nat): byte {
    if i < |s| then s[i] else 0
  }

  predicate Agree(s: seq<byte>, t: seq<byte>, n: nat) {
    forall i :: 0 <= i < n ==> ByteAt(s, i) == ByteAt(t, i)
  }

  lemma PaddedPrefix(s: seq<byte>, t: seq<byte>, n: nat, m: nat)
    requires n <= m
    ensures Pad(s, n) <= Pad(t, m) <==> Agree(s, t, n)
  {
    var u, v := Pad(s, n), Pad(t, m);
    assert forall i :: 0 <= i < n ==> u[i] == ByteAt(s, i) && v[i] == ByteAt(t, i);
    if Agree(s, t, n) {
      assert u == v[..n];
    } else {
      var i :| 0 <= i < n && ByteAt(s, i) != ByteAt(t, i);
      assert u[i] != v[i];
    }
  }

  /** The reads whose answer depends on their length: identity probes answered apart from the reading. */
  predicate LengthMatters(c: Chip, reg: byte, n: nat, m: nat) {
    match c
    case Bh1750 => reg == 0x86 && n == 1 < m
    case Rcwl9620 => reg == 0xFF && n == 1 < m
    case CgRadSens => reg <= 0x01 && n > 0 && n != m && (n == 3 || m == 3)
    case _ => false
  }

  /** The readings for which such a probe happens to look like the start of the reading. */
  predicate LooksAlike(c: Chip, vals: Readings, reg: byte, n: nat) {
    match c
    case Bh1750 => LuxCount(ValueOr(vals, "lux", 0.0)) < 0x100
    case Rcwl9620 => DistanceCount(ValueOr(vals, "distance", 0.0)) / 0x1_0000 % 0x100 == 0
    case CgRadSens =>
      var d := RadiationCount(ValueOr(vals, "radiation", 0.0));
      var id := if reg == 0 then 0x7D else 0x05;
      && d / 0x1_0000 % 0x100 == id
      && (n >= 2 ==> d / 0x100 % 0x100 == 0)
      && (n >= 3 ==> d % 0x100 == 0)
    case _ => true
  }

  lemma Bh1750Agrees(vals: Readings, reg: byte, n: nat, m: nat)
    requires n <= m
    ensures Agree(Bh1750Bytes(vals, reg, n), Bh1750Bytes(vals, reg, m), n)
            <==> (LengthMatters(Bh1750, reg, n, m) ==> LooksAlike(Bh1750, vals, reg, n))
  {
    var s, t := Bh1750Bytes(vals, reg, n), Bh1750Bytes(vals, reg, m);
    assert n > 0 && ByteAt(s, 0) != ByteAt(t, 0) ==> !Agree(s, t, n);
  }

  lemma Rcwl9620Agrees(vals: Readings, reg: byte, n: nat, m: nat)
    requires n <= m
    ensures Agree(Rcwl9620Bytes(vals, reg, n), Rcwl9620Bytes(vals, reg, m), n)
            <==> (LengthMatters(Rcwl9620, reg, n, m) ==> LooksAlike(Rcwl9620, vals, reg, n))
  {
    var s, t := Rcwl9620Bytes(vals, reg, n), Rcwl9620Bytes(vals, reg, m);
    assert n > 0 && ByteAt(s, 0) != ByteAt(t, 0) ==> !Agree(s, t, n);
  }

  lemma CgRadSensAgrees(vals: Readings, reg: byte, n: nat, m: nat)
    requires n <= m
    ensures Agree(CgRadSensBytes(vals, reg, n), CgRadSensBytes(vals, reg, m), n)
            <==> (LengthMatters(CgRadSens, reg, n, m) ==> LooksAlike(CgRadSens, vals, reg, n))
  {
    var s, t := CgRadSensBytes(vals, reg, n), CgRadSensBytes(vals, reg, m);
    assert n > 0 && ByteAt(s, 0) != ByteAt(t, 0) ==> !Agree(s, t, n);
    assert n > 1 && ByteAt(s, 1) != ByteAt(t, 1) ==> !Agree(s, t, n);
    assert n > 2 && ByteAt(s, 2) != ByteAt(t, 2) ==> !Agree(s, t, n);
  }

  /** The other chips that look at the length only produce more of the same. */
  lemma OthersAgree(c: Chip, vals: Readings, shadow: Shadow, reg: byte, n: nat, m: nat)
    requires n <= m <= MAX_READ
    requires c !in {Bh1750, Rcwl9620, CgRadSens}
    ensures Agree(Produced(c, vals, shadow, reg, n), Produced(c, vals, shadow, reg, m), n)
  {
    hide ValueOr, AhtHumidity, AhtTemperature, ClampWord, LpsPressure, LpsTemperature, Bmp280Byte, PmsFrame,
         BmpPressureCount, BmpTemperatureCount, InaShunt, InaBus, InaPower, InaCurrent, PctTemperature,
         McpTemperature, RainCount, TotalRainCount;
  }

  /** A shorter read is a prefix of a longer one, unless the length matters and the readings tell them apart. */
  lemma ShorterReadIsPrefix(c: Chip, vals: Readings, shadow: Shadow, reg: byte, n: nat, m: nat)
    requires n <= m <= MAX_READ
    ensures ChipBytes(c, vals, shadow, reg, n) <= ChipBytes(c, vals, shadow, reg, m)
            <==> (LengthMatters(c, reg, n, m) ==> LooksAlike(c, vals, reg, n))
  {
    PaddedPrefix(Produced(c, vals, shadow, reg, n), Produced(c, vals, shadow, reg, m), n, m);
    if c == Bh1750 {
      Bh1750Agrees(vals, reg, n, m);
    } else if c == Rcwl9620 {
      Rcwl9620Agrees(vals, reg, n, m);
    } else if c == CgRadSens {
      CgRadSensAgrees(vals, reg, n, m);
    } else {
      OthersAgree(c, vals, shadow, reg, n, m);
    }
    hide Bh1750Bytes, Rcwl9620Bytes, CgRadSensBytes, Pct2075Bytes, Mcp9808Word, Ina226Word, Aht10Bytes,
         Pmsa003iBytes, DfrobotRainBytes, Lps22Bytes, Bmp280Bytes, LooksAlike, Agree, Pad;
  }

  /** A burst from the BMP280 is its registers one by one, the address wrapping after 0xFF. */
  lemma BmpBurst(vals: Readings, shadow: Shadow, reg: byte, n: nat, i: nat)
    requires i < n <= MAX_READ
    ensures ChipBytes(Bmp280, vals, shadow, reg, n)[i] == ChipBytes(Bmp280, vals, shadow, (reg + i) % 0x100, 1)[0]
  {
    hide BmpPressureCount, BmpTemperatureCount, Bmp280Byte;
  }

  /** A burst from the LPS22HB runs on from pressure into temperature. */
  lemma LpsBurst(vals: Readings, shadow: Shadow)
    ensures ChipBytes(Lps22, vals, shadow, 0x28, 5)
         == ChipBytes(Lps22, vals, shadow, 0x28, 3) + ChipBytes(Lps22, vals, shadow, 0x2B, 2)
  {
    hide LpsPressure, LpsTemperature;
  }
}
