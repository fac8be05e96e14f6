/** The eleven chips: which address each answers at, and which bytes it answers a read with. */
module Chips {
  import opened Bits

  datatype Chip =
    | Pct2075 | Mcp9808 | Ina226 | Aht10 | Pmsa003i | Bh1750 | Rcwl9620 | CgRadSens | DfrobotRain | Lps22 | Bmp280

  const ALL_CHIPS: seq<Chip> :=
    [Pct2075, Mcp9808, Ina226, Aht10, Pmsa003i, Bh1750, Rcwl9620, CgRadSens, DfrobotRain, Lps22, Bmp280]

  function Addr(c: Chip): byte {
    match c
    case Pct2075 => 0x37
    case Mcp9808 => 0x18
    case Ina226 => 0x40
    case Aht10 => 0x38
    case Pmsa003i => 0x12
    case Bh1750 => 0x23
    case Rcwl9620 => 0x57
    case CgRadSens => 0x66
    case DfrobotRain => 0x1D
    case Lps22 => 0x5C
    case Bmp280 => 0x76
  }

  function Name(c: Chip): string {
    match c
    case Pct2075 => "pct2075"
    case Mcp9808 => "mcp9808"
    case Ina226 => "ina226"
    case Aht10 => "aht10"
    case Pmsa003i => "pmsa003i"
    case Bh1750 => "bh1750"
    case Rcwl9620 => "rcwl9620"
    case CgRadSens => "cgradsens"
    case DfrobotRain => "dfrobot_rain"
    case Lps22 => "lps22"
    case Bmp280 => "bmp280"
  }

  /** The enabled chip an address belongs to. */
  function ChipAt(on: set<Chip>, addr: int): (r: Option<Chip>)
    ensures r.Some? ==> r.value in on && Addr(r.value) == addr
    ensures r.None? ==> forall c :: c in on ==> Addr(c) != addr
  {
    if addr == 0x37 && Pct2075 in on then Some(Pct2075)
    else if addr == 0x18 && Mcp9808 in on then Some(Mcp9808)
    else if addr == 0x40 && Ina226 in on then Some(Ina226)
    else if addr == 0x38 && Aht10 in on then Some(Aht10)
    else if addr == 0x12 && Pmsa003i in on then Some(Pmsa003i)
    else if addr == 0x23 && Bh1750 in on then Some(Bh1750)
    else if addr == 0x57 && Rcwl9620 in on then Some(Rcwl9620)
    else if addr == 0x66 && CgRadSens in on then Some(CgRadSens)
    else if addr == 0x1D && DfrobotRain in on then Some(DfrobotRain)
    else if addr == 0x5C && Lps22 in on then Some(Lps22)
    else if addr == 0x76 && Bmp280 in on then Some(Bmp280)
    else None
  }

  /** No two chips share an address. */
  lemma ChipAtAddr(on: set<Chip>, addr: int, c: Chip)
    requires c in on && Addr(c) == addr
    ensures ChipAt(on, addr) == Some(c)
  {
  }

  lemma Listed(c: Chip)
    ensures c in ALL_CHIPS && ALL_CHIPS[..|ALL_CHIPS|] == ALL_CHIPS
  {
    match c
    case Pct2075 => assert ALL_CHIPS[0] == c;
    case Mcp9808 => assert ALL_CHIPS[1] == c;
    case Ina226 => assert ALL_CHIPS[2] == c;
    case Aht10 => assert ALL_CHIPS[3] == c;
    case Pmsa003i => assert ALL_CHIPS[4] == c;
    case Bh1750 => assert ALL_CHIPS[5] == c;
    case Rcwl9620 => assert ALL_CHIPS[6] == c;
    case CgRadSens => assert ALL_CHIPS[7] == c;
    case DfrobotRain => assert ALL_CHIPS[8] == c;
    case Lps22 => assert ALL_CHIPS[9] == c;
    case Bmp280 => assert ALL_CHIPS[10] == c;
  }

  // ---- what the models read -----------------------------------------------

  /** The readings the values file gives, by key; a key it does not give is absent. */
  type Readings = map<string, real>

  function ValueOr(vals: Readings, key: string, default: real): real {
    if key in vals then vals[key] else default
  }

  const CELLS: nat := 0x8000

  /** The registers written by the host: 128 addresses of 256 registers each. */
  type Shadow = s: seq<word> | |s| == CELLS witness seq(CELLS, _ => 0)

  function Index(addr: int, reg: byte): (i: nat)
    requires 0 <= addr < 128
    ensures i < CELLS
  {
    addr * 0x100 + reg
  }

  function Cell(shadow: Shadow, addr: int, reg: byte): word
    requires 0 <= addr < 128
  {
    shadow[Index(addr, reg)]
  }

  // ---- counts and words ---------------------------------------------------

  function PctTemperature(t: real): word {
    ToWord(Lround(Clamp(t, -55.0, 127.0) / 0.125) * 32)
  }

  function McpTemperature(t: real): word {
    Lround(Abs(t) / 0.0625) % 0x1000 + if t < 0.0 then 0x1000 else 0
  }

  function InaShunt(amps: real): word { ToWord(Lround(amps * 0.100 * 1000000.0 / 2.5)) }
  function InaBus(volts: real): word { ToWord(Lround(volts / 0.00125)) }
  function InaPower(volts: real, amps: real): word { ToWord(Lround(Mul(Abs(amps), volts) / (25.0 * 0.000025))) }
  function InaCurrent(amps: real): word { ToWord(Lround(amps / 0.000025)) }

  function AhtHumidity(hum: real): nat { Lround(Clamp(hum, 0.0, 100.0) / 100.0 * 1048576.0) % 0x10_0000 }
  function AhtTemperature(t: real): nat {
    Lround((Clamp(t, -50.0, 150.0) + 50.0) / 200.0 * 1048576.0) % 0x10_0000
  }

  /** `clamp_u16`. */
  function ClampWord(v: real): word {
    if !(v > 0.0) then 0 else if v > 65535.0 then 65535 else ToWord(Lround(v))
  }

  function LuxCount(lux: real): word { ToWord(Lround(Clamp(lux * 1.2, 0.0, 65535.0))) }
  function DistanceCount(mm: real): nat { Lround(Clamp(mm, 0.0, 4500.0) * 1000.0) % 0x1_0000_0000 }
  function RadiationCount(uR: real): nat { Lround(Clamp(uR, 0.0, 1677721.5) * 10.0) % 0x1_0000_0000 }
  function RainCount(mm: real): nat {
    Lround(Clamp((if mm < 0.0 then 0.0 else mm) * 10000.0, 0.0, 4294967295.0)) % 0x1_0000_0000
  }
  function TotalRainCount(mm: real): nat {
    Lround(if mm < 0.0 then 0.0 else mm * 10000.0) % 0x1_0000_0000
  }
  function LpsPressure(hPa: real): nat { Lround(Clamp(hPa, 0.0, 4095.0) * 4096.0) % 0x1_0000_0000 }
  function LpsTemperature(t: real): word { ToWord(Lround(t * 100.0)) }

  function BmpPressureCount(hPa: real): nat {
    var pa := (if hPa < 0.0 then 0.0 else hPa) * 100.0;
    Lround(Clamp(1048576.0 - pa, 0.0, 1048575.0)) % 0x1_0000_0000
  }
  function BmpTemperatureCount(t: real): nat {
    Lround(Clamp(t * 5120.0 + 16.0 * 16384.0, 0.0, 1048575.0)) % 0x1_0000_0000
  }

  function Be24(v: nat): seq<byte> { [v / 0x1_0000 % 0x100, v / 0x100 % 0x100, v % 0x100] }
  function Le24(v: nat): seq<byte> { [v % 0x100, v / 0x100 % 0x100, v / 0x1_0000 % 0x100] }
  function Le32(v: nat): seq<byte> { Le24(v) + [v / 0x100_0000 % 0x100] }
  function Le16(v: word): seq<byte> { [v % 0x100, v / 0x100] }

  // ---- the registers and frames, chip by chip -----------------------------

  function Pct2075Bytes(vals: Readings, shadow: Shadow, reg: byte): seq<byte> {
    var cell := Cell(shadow, 0x37, reg);
    match reg
    case 0x00 => Be16(PctTemperature(ValueOr(vals, "temperature", 20.0)))
    case 0x01 => [cell % 0x100]
    case 0x02 => Be16(cell)
    case 0x03 => Be16(cell)
    case 0x04 => [if cell != 0 then cell % 0x100 else 1]
    case _ => [0, 0]
  }

  function Mcp9808Word(vals: Readings, shadow: Shadow, reg: byte): word {
    var cell := Cell(shadow, 0x18, reg);
    match reg
    case 0x05 => McpTemperature(ValueOr(vals, "temperature", 20.0))
    case 0x06 => 0x0054
    case 0x07 => 0x0400
    case 0x08 => cell % 4
    case _ => cell
  }

  function Ina226Word(volts: real, amps: real, shadow: Shadow, reg: byte): word {
    var cell := Cell(shadow, 0x40, reg);
    match reg
    case 0x00 => if cell != 0 then cell else 0x4127
    case 0x01 => InaShunt(amps)
    case 0x02 => InaBus(volts)
    case 0x03 => InaPower(volts, amps)
    case 0x04 => InaCurrent(amps)
    case 0x05 => if cell != 0 then cell else 2048
    case 0x06 => cell
    case 0x07 => cell
    case 0xFE => 0x5449
    case 0xFF => 0x2260
    case _ => 0
  }

  /** The measurement frame: a status byte, then two 20-bit counts packed into five bytes. */
  function AhtFrame(h: nat, t: nat): seq<byte>
    requires h < 0x10_0000 && t < 0x10_0000
  {
    [0x18, h / 0x1000, h / 0x10 % 0x100, h % 0x10 * 0x10 + t / 0x1_0000, t / 0x100 % 0x100, t % 0x100]
  }

  function Aht10Bytes(vals: Readings, len: nat): seq<byte> {
    if len <= 1 then [0x18]
    else AhtFrame(AhtHumidity(ValueOr(vals, "humidity", 50.0)), AhtTemperature(ValueOr(vals, "temperature", 20.0)))
  }

  const PMS_FRAME: nat := 32

  function Sum(s: seq<byte>): nat {
    if s == [] then 0 else Sum(s[..|s| - 1]) + s[|s| - 1]
  }

  /** Everything of a particle frame but its checksum. */
  function PmsBody(pm10: word, pm25: word, pm100: word): seq<byte> {
    [0x42, 0x4D, 0, 28,
     pm10 / 0x100, pm10 % 0x100, pm25 / 0x100, pm25 % 0x100, pm100 / 0x100, pm100 % 0x100,
     pm10 / 0x100, pm10 % 0x100, pm25 / 0x100, pm25 % 0x100, pm100 / 0x100, pm100 % 0x100,
     0, 0, 0, 0, 0, 0, 0, 0, 0, 0, 0, 0, 0, 0]
  }

  function PmsFrame(pm10: word, pm25: word, pm100: word): (f: seq<byte>)
    ensures |f| == PMS_FRAME
  {
    PmsBody(pm10, pm25, pm100) + Be16(ToWord(Sum(PmsBody(pm10, pm25, pm100))))
  }

  function Pmsa003iBytes(vals: Readings, len: nat): seq<byte> {
    var f := PmsFrame(ClampWord(ValueOr(vals, "pm10", 0.0)),
                      ClampWord(ValueOr(vals, "pm25", 0.0)),
                      ClampWord(ValueOr(vals, "pm100", 0.0)));
    f[..if len < PMS_FRAME then len else PMS_FRAME]
  }

  function Bh1750Bytes(vals: Readings, reg: byte, len: nat): seq<byte> {
    if len == 1 && reg == 0x86 then [0] else Be16(LuxCount(ValueOr(vals, "lux", 0.0)))
  }

  function Rcwl9620Bytes(vals: Readings, reg: byte, len: nat): seq<byte> {
    if len == 1 && reg == 0xFF then [0] else Be24(DistanceCount(ValueOr(vals, "distance", 0.0)))
  }

  function CgRadSensBytes(vals: Readings, reg: byte, len: nat): seq<byte> {
    if len != 3 && reg == 0x00 then [0x7D]
    else if len != 3 && reg == 0x01 then [0x05]
    else Be24(RadiationCount(ValueOr(vals, "radiation", 0.0)))
  }

  function DfrobotRainBytes(vals: Readings, shadow: Shadow, reg: byte): seq<byte> {
    match reg
    case 0x00 => [0xC0, 0x00, 0x43, 0x73]
    case 0x0A => [0x10, 0x00]
    case 0x0C =>
      var hours := Cell(shadow, 0x1D, 0x26) % 0x100;
      Le32(RainCount(ValueOr(vals, if hours > 1 then "rainfall_24h" else "rainfall_1h", 0.0)))
    case 0x10 => Le32(TotalRainCount(ValueOr(vals, "rainfall_24h", 0.0)))
    case _ => [0]
  }

  function Lps22Bytes(vals: Readings, shadow: Shadow, reg: byte, len: nat): seq<byte> {
    var cell := Cell(shadow, 0x5C, reg) % 0x100;
    var t := Le16(LpsTemperature(ValueOr(vals, "temperature", 20.0)));
    match reg
    case 0x0F => [0xB1]
    case 0x11 => [if cell / 4 % 2 == 1 then cell - 4 else cell]
    case 0x27 => [0x03]
    case 0x28 => Le24(LpsPressure(ValueOr(vals, "pressure", 1013.25))) + if len <= 3 then [] else t
    case 0x2B => t
    case _ => [cell]
  }

  /** One register of the BMP280: identity, calibration words, control registers, and the two 20-bit counts. */
  function Bmp280Byte(pressure: nat, temperature: nat, shadow: Shadow, reg: byte): byte
    requires pressure < 0x10_0000 && temperature < 0x10_0000
  {
    match reg
    case 0x00 => 0x58
    case 0xD0 => 0x58
    case 0x89 => 0x40  // dig_T1 = 16384
    case 0x8B => 0x40  // dig_T2 = 16384
    case 0x8E => 0x6A  // dig_P1 = 6250
    case 0x8F => 0x18
    case 0xF4 => Cell(shadow, 0x76, 0xF4) % 0x100
    case 0xF5 => Cell(shadow, 0x76, 0xF5) % 0x100
    case 0xF7 => pressure / 0x1000
    case 0xF8 => pressure / 0x10 % 0x100
    case 0xF9 => pressure % 0x10 * 0x10
    case 0xFA => temperature / 0x1000
    case 0xFB => temperature / 0x10 % 0x100
    case 0xFC => temperature % 0x10 * 0x10
    case _ => 0
  }

  /** `n` registers from `reg` on, the address counter wrapping after 0xFF. */
  function Bmp280Window(pressure: nat, temperature: nat, shadow: Shadow, reg: byte, n: nat): (r: seq<byte>)
    requires pressure < 0x10_0000 && temperature < 0x10_0000
    ensures |r| == n
    ensures forall i :: 0 <= i < n ==> r[i] == Bmp280Byte(pressure, temperature, shadow, (reg + i) % 0x100)
  {
    if n == 0 then []
    else Bmp280Window(pressure, temperature, shadow, reg, n - 1)
         + [Bmp280Byte(pressure, temperature, shadow, (reg + n - 1) % 0x100)]
  }

  lemma BmpCounts(hPa: real, t: real)
    ensures BmpPressureCount(hPa) < 0x10_0000
    ensures BmpTemperatureCount(t) < 0x10_0000
  {
    LroundBounds(Clamp(1048576.0 - (if hPa < 0.0 then 0.0 else hPa) * 100.0, 0.0, 1048575.0), 0, 1048575);
    LroundBounds(Clamp(t * 5120.0 + 16.0 * 16384.0, 0.0, 1048575.0), 0, 1048575);
  }

  const MAX_READ: nat := 64

  function Bmp280Bytes(vals: Readings, shadow: Shadow, reg: byte, len: nat): seq<byte> {
    var hPa, t := ValueOr(vals, "pressure", 1013.25), ValueOr(vals, "temperature", 20.0);
    BmpCounts(hPa, t);
    var p, u := BmpPressureCount(hPa), BmpTemperatureCount(t);
    Bmp280Window(p, u, shadow, reg, if len > MAX_READ then MAX_READ else len)
  }

  /** What the chip's model produces for a read of `len` bytes from `reg`. */
  function Produced(c: Chip, vals: Readings, shadow: Shadow, reg: byte, len: nat): seq<byte> {
    match c
    case Pct2075 => Pct2075Bytes(vals, shadow, reg)
    case Mcp9808 => Be16(Mcp9808Word(vals, shadow, reg))
    case Ina226 => Be16(Ina226Word(ValueOr(vals, "voltage", 4.05), ValueOr(vals, "current", 0.0), shadow, reg))
    case Aht10 => Aht10Bytes(vals, len)
    case Pmsa003i => Pmsa003iBytes(vals, len)
    case Bh1750 => Bh1750Bytes(vals, reg, len)
    case Rcwl9620 => Rcwl9620Bytes(vals, reg, len)
    case CgRadSens => CgRadSensBytes(vals, reg, len)
    case DfrobotRain => DfrobotRainBytes(vals, shadow, reg)
    case Lps22 => Lps22Bytes(vals, shadow, reg, len)
    case Bmp280 => Bmp280Bytes(vals, shadow, reg, len)
  }

  /** What the bus carries: at most 64 bytes, padded with zeroes when the model produced fewer. */
  function ChipBytes(c: Chip, vals: Readings, shadow: Shadow, reg: byte, len: nat): (r: seq<byte>)
    ensures |r| == if len > MAX_READ then MAX_READ else len
  {
    var n := if len > MAX_READ then MAX_READ else len;
    Pad(Produced(c, vals, shadow, reg, n), n)
  }
}
