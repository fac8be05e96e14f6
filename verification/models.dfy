/** The chip models at work: readings looked up in the file, byte buffers filled in place. */
module Models {
  import opened Bits
  import opened Chips
  import Number
  import ValuesFile
  import ValuesParser

  /**
   * The values file as the lookups of one bus operation find it: for each key, the text at the moment that key is
   * looked up, so another process may rewrite the file between two lookups. A key without a text finds no file.
   */
  type Files = map<string, string>

  function ReadingsOf(files: Files): Readings {
    map k | k in files && ValuesFile.Lookup(files[k], k).Some? :: ValuesFile.Lookup(files[k], k).value
  }

  /** No file, or nothing in it that gives the key a value. */
  predicate NoReading(files: Files, key: string) {
    key !in files || ValuesFile.Lookup(files[key], key).None?
  }

  /** `value_or`: what the file gives a key, or the model's default. */
  method Reading(files: Files, key: string, default: real) returns (v: real)
    ensures v == ValueOr(ReadingsOf(files), key, default)
    ensures NoReading(files, key) ==> v == default
    ensures !NoReading(files, key) ==> Some(v) == ValuesFile.Lookup(files[key], key)
  {
    hide ValuesFile.Lookup;
    if key !in files {
      return default;
    }
    var r := Lookup(files, key);
    v := if r.Some? then r.value else default;
  }

  /** `chip_at`: a search of the chip table for an enabled chip at the address. */
  method FindChip(on: set<Chip>, addr: int) returns (r: Option<Chip>)
    ensures r == ChipAt(on, addr)
  {
    for i := 0 to |ALL_CHIPS|
      invariant forall k :: 0 <= k < i ==> ALL_CHIPS[k] !in on || Addr(ALL_CHIPS[k]) != addr
    {
      if ALL_CHIPS[i] in on && Addr(ALL_CHIPS[i]) == addr {
        ChipAtAddr(on, addr, ALL_CHIPS[i]);
        return Some(ALL_CHIPS[i]);
      }
    }
    var c := ChipAt(on, addr);
    if c.Some? {
      Listed(c.value);
    }
    r := None;
  }

  /** Copies bytes into a buffer. */
  method Put(buf: array<byte>, at: nat, bytes: seq<byte>)
    requires at + |bytes| <= buf.Length
    modifies buf
    ensures forall k :: 0 <= k < buf.Length ==>
              buf[k] == if at <= k < at + |bytes| then bytes[k - at] else old(buf[k])
  {
    for i := 0 to |bytes|
      invariant forall k :: 0 <= k < buf.Length ==>
                  buf[k] == if at <= k < at + i then bytes[k - at] else old(buf[k])
    {
      buf[at + i] := bytes[i];
    }
  }

  /** The particle frame: header, length, the three readings twice, and the running sum of all that. */
  method ModelPmsa003i(files: Files, tmp: array<byte>, len: nat) returns (n: nat)
    requires tmp.Length == MAX_READ
    modifies tmp
    ensures n == (if len < PMS_FRAME then len else PMS_FRAME)
    ensures tmp[..n] == Pmsa003iBytes(ReadingsOf(files), len)
  {
    hide NoReading, ValuesFile.Lookup, ReadingsOf, ClampWord, PmsFrame;
    var a := Reading(files, "pm10", 0.0);
    var b := Reading(files, "pm25", 0.0);
    var c := Reading(files, "pm100", 0.0);
    var f := PmsBuild(ClampWord(a), ClampWord(b), ClampWord(c));
    n := if len < PMS_FRAME then len else PMS_FRAME;
    Put(tmp, 0, f[..n]);
    assert tmp[..n] == f[..][..n];
  }

  method PmsBuild(pm10: word, pm25: word, pm100: word) returns (f: array<byte>)
    ensures fresh(f) && f[..] == PmsFrame(pm10, pm25, pm100)
  {
    f := PmsFill(pm10, pm25, pm100);
    hide PmsBody, Sum;
    var sum := Checksum(f[..], 30);
    assert f[..][..30] == f[..30] == PmsBody(pm10, pm25, pm100);
    f[30], f[31] := sum / 0x100, sum % 0x100;
    assert f[..] == f[..30] + Be16(sum);
  }

  /** The additive checksum of the first `n` bytes, in sixteen bits: the loop of the model and of the driver. */
  method Checksum(f: seq<byte>, n: nat) returns (sum: word)
    requires n <= |f|
    ensures sum == ToWord(Sum(f[..n]))
  {
    sum := 0;
    for i := 0 to n
      invariant sum == ToWord(Sum(f[..i]))
    {
      assert f[..i + 1][..i] == f[..i];
      sum := ToWord(sum as int + f[i] as int);
    }
  }

  /** The frame before its checksum. */
  method PmsFill(pm10: word, pm25: word, pm100: word) returns (f: array<byte>)
    ensures fresh(f) && f.Length == PMS_FRAME && |PmsBody(pm10, pm25, pm100)| == 30
    ensures forall k :: 0 <= k < 30 ==> f[k] == PmsBody(pm10, pm25, pm100)[k]
  {
    f := new byte[PMS_FRAME](_ => 0);
    Put(f, 0, [0x42, 0x4D] + Be16(28) + Be16(pm10) + Be16(pm25) + Be16(pm100));
    Put(f, 10, Be16(pm10) + Be16(pm25) + Be16(pm100));
  }

  /** The register image of the BMP280, and the window of it a read asks for. */
  method ModelBmp280(files: Files, shadow: Shadow, reg: byte, tmp: array<byte>, len: nat) returns (n: nat)
    requires tmp.Length == MAX_READ
    modifies tmp
    ensures n == if len > MAX_READ then MAX_READ else len
    ensures tmp[..n] == Bmp280Bytes(ReadingsOf(files), shadow, reg, len)
  {
    hide NoReading, ValuesFile.Lookup, BmpPressureCount, BmpTemperatureCount, ReadingsOf;
    var hPa := Reading(files, "pressure", 1013.25);
    var t := Reading(files, "temperature", 20.0);
    BmpCounts(hPa, t);
    var p, u := BmpPressureCount(hPa), BmpTemperatureCount(t);
    var img := BmpImage(p, u, shadow);
    img[0xF4] := Cell(shadow, 0x76, 0xF4) % 0x100;
    img[0xF5] := Cell(shadow, 0x76, 0xF5) % 0x100;
    n := if len > MAX_READ then MAX_READ else len;
    CopyWindow(img, p, u, shadow, reg, tmp, n);
  }

  /** `n` bytes of the image from `reg` on, wrapping after 0xFF. */
  method CopyWindow(img: array<byte>, ghost p: nat, ghost u: nat, ghost shadow: Shadow, reg: byte, tmp: array<byte>,
                    n: nat)
    requires img != tmp && img.Length == 0x100 && n <= tmp.Length
    requires p < 0x10_0000 && u < 0x10_0000
    requires forall k :: 0 <= k < 0x100 ==> img[k] == Bmp280Byte(p, u, shadow, k)
    modifies tmp
    ensures tmp[..n] == Bmp280Window(p, u, shadow, reg, n)
  {
    hide Bmp280Byte;
    for i := 0 to n
      invariant tmp[..i] == Bmp280Window(p, u, shadow, reg, i)
    {
      tmp[i] := img[(reg + i) % 0x100];
      assert tmp[..i + 1] == tmp[..i] + [tmp[i]];
    }
  }

  /** The image but for the two control registers. */
  method BmpImage(p: nat, t: nat, ghost shadow: Shadow) returns (img: array<byte>)
    requires p < 0x10_0000 && t < 0x10_0000
    ensures fresh(img) && img.Length == 0x100
    ensures forall k: byte :: k != 0xF4 && k != 0xF5 ==> img[k] == Bmp280Byte(p, t, shadow, k)
  {
    img := new byte[0x100](_ => 0);
    img[0xD0], img[0x00] := 0x58, 0x58;
    Put(img, 0x88, [16384 % 0x100, 16384 / 0x100, 16384 % 0x100, 16384 / 0x100, 0, 0, 6250 % 0x100, 6250 / 0x100]);
    Put(img, 0xF7, [p / 0x1000, p / 0x10 % 0x100, p % 0x10 * 0x10, t / 0x1000, t / 0x10 % 0x100, t % 0x10 * 0x10]);
    img[0xF3] := 0;
  }

  /** The fields a chip may look up. */
  function Keys(c: Chip): seq<string> {
    match c
    case Pct2075 => ["temperature"]
    case Mcp9808 => ["temperature"]
    case Ina226 => ["voltage", "current"]
    case Aht10 => ["humidity", "temperature"]
    case Pmsa003i => ["pm10", "pm25", "pm100"]
    case Bh1750 => ["lux"]
    case Rcwl9620 => ["distance"]
    case CgRadSens => ["radiation"]
    case DfrobotRain => ["rainfall_1h", "rainfall_24h"]
    case Lps22 => ["pressure", "temperature"]
    case Bmp280 => ["pressure", "temperature"]
  }

  predicate SameFor(keys: seq<string>, u: Readings, v: Readings) {
    forall k :: k in keys ==> (k in u <==> k in v) && (k in u ==> u[k] == v[k])
  }

  /** A chip's answer depends on no other field. */
  lemma OnlyOwnFields(c: Chip, u: Readings, v: Readings, shadow: Shadow, reg: byte, len: nat)
    requires SameFor(Keys(c), u, v)
    ensures Produced(c, u, shadow, reg, len) == Produced(c, v, shadow, reg, len)
  {
    hide Lround, Clamp, Le16, Le24, Le32, Be16, Be24, AhtFrame, PmsFrame, Bmp280Window, Cell;
  }

  /** `value_lookup`. */
  method Lookup(files: Files, key: string) returns (r: Option<real>)
    requires key in files
    ensures r == ValuesFile.Lookup(files[key], key)
  {
    hide ValuesFile.Parse, Number.Convert;
    r := ValuesParser.ValueLookup(files[key], key, Number.Convert);
  }

  // ---- the models that answer from registers or with a small frame ---------

  method PutBe16(tmp: array<byte>, v: word)
    requires tmp.Length == MAX_READ
    modifies tmp
    ensures tmp[..2] == Be16(v)
  {
    tmp[0], tmp[1] := v / 0x100, v % 0x100;
  }

  method PutBe24(tmp: array<byte>, v: nat)
    requires tmp.Length == MAX_READ
    modifies tmp
    ensures tmp[..3] == Be24(v)
  {
    tmp[0], tmp[1], tmp[2] := v / 0x1_0000 % 0x100, v / 0x100 % 0x100, v % 0x100;
  }

  method PutLe32(tmp: array<byte>, v: nat)
    requires tmp.Length == MAX_READ
    modifies tmp
    ensures tmp[..4] == Le32(v) && tmp[..3] == Le24(v)
  {
    tmp[0], tmp[1], tmp[2] := v % 0x100, v / 0x100 % 0x100, v / 0x1_0000 % 0x100;
    tmp[3] := v / 0x100_0000 % 0x100;
  }

  method ModelPct2075(files: Files, shadow: Shadow, reg: byte, tmp: array<byte>) returns (n: nat)
    requires tmp.Length == MAX_READ
    modifies tmp
    ensures n <= MAX_READ && tmp[..n] == Pct2075Bytes(ReadingsOf(files), shadow, reg)
  {
    hide NoReading, ValuesFile.Lookup, ReadingsOf, Lround, Be16;
    var cell := Cell(shadow, 0x37, reg);
    match reg {
      case 0x00 =>
        var t := Reading(files, "temperature", 20.0);
        if t > 127.0 {
          t := 127.0;
        }
        if t < -55.0 {
          t := -55.0;
        }
        PutBe16(tmp, ToWord(Lround(t / 0.125) * 32));
        n := 2;
      case 0x01 =>
        tmp[0] := cell % 0x100;
        n := 1;
      case 0x02 =>
        PutBe16(tmp, cell);
        n := 2;
      case 0x03 =>
        PutBe16(tmp, cell);
        n := 2;
      case 0x04 =>
        tmp[0] := if cell != 0 then cell % 0x100 else 1;
        n := 1;
      case _ =>
        tmp[0], tmp[1] := 0, 0;
        n := 2;
    }
  }

  method ModelMcp9808(files: Files, shadow: Shadow, reg: byte, tmp: array<byte>) returns (n: nat)
    requires tmp.Length == MAX_READ
    modifies tmp
    ensures n == 2 && tmp[..n] == Be16(Mcp9808Word(ReadingsOf(files), shadow, reg))
  {
    hide NoReading, ValuesFile.Lookup, ReadingsOf, Lround, Be16;
    var v: word;
    match reg {
      case 0x05 =>
        var t := Reading(files, "temperature", 20.0);
        v := Lround(Abs(t) / 0.0625) % 0x1000;
        if t < 0.0 {
          v := v + 0x1000;
        }
      case 0x06 => v := 0x0054;
      case 0x07 => v := 0x0400;
      case 0x08 => v := Cell(shadow, 0x18, 0x08) % 4;
      case _ => v := Cell(shadow, 0x18, reg);
    }
    PutBe16(tmp, v);
    n := 2;
  }

  /** Both readings are looked up whichever register is read. */
  method ModelIna226(files: Files, shadow: Shadow, reg: byte, tmp: array<byte>) returns (n: nat)
    requires tmp.Length == MAX_READ
    modifies tmp
    ensures n == 2 && tmp[..n] == Produced(Ina226, ReadingsOf(files), shadow, reg, n)
  {
    hide NoReading, ValuesFile.Lookup, ReadingsOf, Lround, Be16, Mul;
    var volts := Reading(files, "voltage", 4.05);
    var amps := Reading(files, "current", 0.0);
    var cell := Cell(shadow, 0x40, reg);
    var v: word;
    match reg {
      case 0x00 => v := if cell != 0 then cell else 0x4127;
      case 0x01 => v := ToWord(Lround(amps * 0.100 * 1000000.0 / 2.5));
      case 0x02 => v := ToWord(Lround(volts / 0.00125));
      case 0x03 => v := ToWord(Lround(Mul(Abs(amps), volts) / (25.0 * 0.000025)));
      case 0x04 => v := ToWord(Lround(amps / 0.000025));
      case 0x05 => v := if cell != 0 then cell else 2048;
      case 0x06 => v := cell;
      case 0x07 => v := cell;
      case 0xFE => v := 0x5449;
      case 0xFF => v := 0x2260;
      case _ => v := 0;
    }
    PutBe16(tmp, v);
    n := 2;
  }

  method ModelAht10(files: Files, tmp: array<byte>, len: nat) returns (n: nat)
    requires tmp.Length == MAX_READ
    modifies tmp
    ensures n == (if len <= 1 then 1 else 6) && tmp[..n] == Aht10Bytes(ReadingsOf(files), len)
  {
    hide NoReading, ValuesFile.Lookup, ReadingsOf, Lround, AhtFrame;
    tmp[0] := 0x18;
    if len <= 1 {
      return 1;
    }
    var hum := Reading(files, "humidity", 50.0);
    if hum < 0.0 {
      hum := 0.0;
    }
    if hum > 100.0 {
      hum := 100.0;
    }
    var t := Reading(files, "temperature", 20.0);
    if t < -50.0 {
      t := -50.0;
    }
    if t > 150.0 {
      t := 150.0;
    }
    var h := Lround(hum / 100.0 * 1048576.0) % 0x10_0000;
    var u := Lround((t + 50.0) / 200.0 * 1048576.0) % 0x10_0000;
    PutCounts(tmp, h, u);
    n := 6;
  }

  /** The two counts, five nibbles each, after the status byte. */
  method PutCounts(tmp: array<byte>, h: nat, t: nat)
    requires tmp.Length == MAX_READ && tmp[0] == 0x18
    requires h < 0x10_0000 && t < 0x10_0000
    modifies tmp
    ensures tmp[..6] == AhtFrame(h, t)
  {
    tmp[1], tmp[2] := h / 0x1000, h / 0x10 % 0x100;
    tmp[3] := h % 0x10 * 0x10 + t / 0x1_0000;
    tmp[4], tmp[5] := t / 0x100 % 0x100, t % 0x100;
  }

  method ModelBh1750(files: Files, reg: byte, tmp: array<byte>, len: nat) returns (n: nat)
    requires tmp.Length == MAX_READ
    modifies tmp
    ensures n <= MAX_READ && tmp[..n] == Bh1750Bytes(ReadingsOf(files), reg, len)
  {
    hide NoReading, ValuesFile.Lookup, ReadingsOf, Lround, Be16;
    if len == 1 && reg == 0x86 {
      tmp[0] := 0x00;
      return 1;
    }
    var lux := Reading(files, "lux", 0.0);
    var raw := lux * 1.2;
    if raw < 0.0 {
      raw := 0.0;
    }
    if raw > 65535.0 {
      raw := 65535.0;
    }
    PutBe16(tmp, ToWord(Lround(raw)));
    n := 2;
  }

  method ModelRcwl9620(files: Files, reg: byte, tmp: array<byte>, len: nat) returns (n: nat)
    requires tmp.Length == MAX_READ
    modifies tmp
    ensures n <= MAX_READ && tmp[..n] == Rcwl9620Bytes(ReadingsOf(files), reg, len)
  {
    hide NoReading, ValuesFile.Lookup, ReadingsOf, Lround, Be24;
    if len == 1 && reg == 0xFF {
      tmp[0] := 0x00;
      return 1;
    }
    var mm := Reading(files, "distance", 0.0);
    if mm < 0.0 {
      mm := 0.0;
    }
    if mm > 4500.0 {
      mm := 4500.0;
    }
    PutBe24(tmp, Lround(mm * 1000.0) % 0x1_0000_0000);
    n := 3;
  }

  /** Three bytes are always the intensity, whatever the register. */
  method ModelCgRadSens(files: Files, reg: byte, tmp: array<byte>, len: nat) returns (n: nat)
    requires tmp.Length == MAX_READ
    modifies tmp
    ensures n <= MAX_READ && tmp[..n] == CgRadSensBytes(ReadingsOf(files), reg, len)
  {
    hide NoReading, ValuesFile.Lookup, ReadingsOf, Lround, Be24;
    if len != 3 && reg == 0x00 {
      tmp[0] := 0x7D;
      return 1;
    }
    if len != 3 && reg == 0x01 {
      tmp[0] := 0x05;
      return 1;
    }
    var uR := Reading(files, "radiation", 0.0);
    if uR < 0.0 {
      uR := 0.0;
    }
    if uR > 1677721.5 {
      uR := 1677721.5;
    }
    PutBe24(tmp, Lround(uR * 10.0) % 0x1_0000_0000);
    n := 3;
  }

  method ModelDfrobotRain(files: Files, shadow: Shadow, reg: byte, tmp: array<byte>) returns (n: nat)
    requires tmp.Length == MAX_READ
    modifies tmp
    ensures n <= MAX_READ && tmp[..n] == DfrobotRainBytes(ReadingsOf(files), shadow, reg)
  {
    hide NoReading, ValuesFile.Lookup, ReadingsOf, Lround, Le32;
    match reg {
      case 0x00 =>
        tmp[0], tmp[1], tmp[2], tmp[3] := 0xC0, 0x00, 0x43, 0x73;
        n := 4;
      case 0x0A =>
        tmp[0], tmp[1] := 0x10, 0x00;
        n := 2;
      case 0x0C =>
        var hours := Cell(shadow, 0x1D, 0x26) % 0x100;
        var mm := Reading(files, if hours > 1 then "rainfall_24h" else "rainfall_1h", 0.0);
        if mm < 0.0 {
          mm := 0.0;
        }
        var ticks := mm * 10000.0;
        if ticks > 4294967295.0 {
          ticks := 4294967295.0;
        }
        PutLe32(tmp, Lround(ticks) % 0x1_0000_0000);
        n := 4;
      case 0x10 =>
        var mm := Reading(files, "rainfall_24h", 0.0);
        PutLe32(tmp, Lround(if mm < 0.0 then 0.0 else mm * 10000.0) % 0x1_0000_0000);
        n := 4;
      case _ =>
        tmp[0] := 0x00;
        n := 1;
    }
  }

  method ModelLps22(files: Files, shadow: Shadow, reg: byte, tmp: array<byte>, len: nat) returns (n: nat)
    requires tmp.Length == MAX_READ
    modifies tmp
    ensures n <= MAX_READ && tmp[..n] == Lps22Bytes(ReadingsOf(files), shadow, reg, len)
  {
    hide NoReading, ValuesFile.Lookup, ReadingsOf, Lround, Le24, Le32;
    var cell := Cell(shadow, 0x5C, reg) % 0x100;
    match reg {
      case 0x0F =>
        tmp[0] := 0xB1;
        n := 1;
      case 0x11 =>
        tmp[0] := if cell / 4 % 2 == 1 then cell - 4 else cell;
        n := 1;
      case 0x27 =>
        tmp[0] := 0x03;
        n := 1;
      case 0x28 =>
        var hPa := Reading(files, "pressure", 1013.25);
        if hPa < 0.0 {
          hPa := 0.0;
        }
        if hPa > 4095.0 {
          hPa := 4095.0;
        }
        PutLe32(tmp, Lround(hPa * 4096.0) % 0x1_0000_0000);
        if len <= 3 {
          return 3;
        }
        var t := Reading(files, "temperature", 20.0);
        var raw := ToWord(Lround(t * 100.0));
        tmp[3], tmp[4] := raw % 0x100, raw / 0x100;
        n := 5;
      case 0x2B =>
        var t := Reading(files, "temperature", 20.0);
        var raw := ToWord(Lround(t * 100.0));
        tmp[0], tmp[1] := raw % 0x100, raw / 0x100;
        n := 2;
      case _ =>
        tmp[0] := cell;
        n := 1;
    }
  }

  /** The model of any chip, filling the front of a 64-byte buffer. */
  method Model(c: Chip, files: Files, shadow: Shadow, reg: byte, tmp: array<byte>, len: nat) returns (n: nat)
    requires tmp.Length == MAX_READ && len <= MAX_READ
    modifies tmp
    ensures n <= MAX_READ && tmp[..n] == Produced(c, ReadingsOf(files), shadow, reg, len)
  {
    hide NoReading, ValuesFile.Lookup, ReadingsOf, Pmsa003iBytes, Bmp280Bytes, Pct2075Bytes, Mcp9808Word, Ina226Word,
         Aht10Bytes, Bh1750Bytes,
         Rcwl9620Bytes, CgRadSensBytes, DfrobotRainBytes, Lps22Bytes;
    match c {
      case Pct2075 => n := ModelPct2075(files, shadow, reg, tmp);
      case Mcp9808 => n := ModelMcp9808(files, shadow, reg, tmp);
      case Ina226 => n := ModelIna226(files, shadow, reg, tmp);
      case Aht10 => n := ModelAht10(files, tmp, len);
      case Pmsa003i => n := ModelPmsa003i(files, tmp, len);
      case Bh1750 => n := ModelBh1750(files, reg, tmp, len);
      case Rcwl9620 => n := ModelRcwl9620(files, reg, tmp, len);
      case CgRadSens => n := ModelCgRadSens(files, reg, tmp, len);
      case DfrobotRain => n := ModelDfrobotRain(files, shadow, reg, tmp);
      case Lps22 => n := ModelLps22(files, shadow, reg, tmp, len);
      case Bmp280 => n := ModelBmp280(files, shadow, reg, tmp, len);
    }
  }

  /** `chip_read`: the chip's answer, at most 64 bytes, padded with zeroes; nothing when no chip is there. */
  method ChipRead(on: set<Chip>, files: Files, shadow: Shadow, addr: int, reg: byte, out: array<byte>, len: nat)
    returns (rc: int)
    requires out.Length >= if len > MAX_READ then MAX_READ else len
    modifies out
    ensures rc == if ChipAt(on, addr).None? then -1 else if len > MAX_READ then MAX_READ else len
    ensures rc >= 0 ==> out[..rc] == ChipBytes(ChipAt(on, addr).value, ReadingsOf(files), shadow, reg, len)
    ensures forall k :: (if rc < 0 then 0 else rc) <= k < out.Length ==> out[k] == old(out[k])
  {
    hide Produced, ReadingsOf, ChipAt;
    var c := FindChip(on, addr);
    if c.None? {
      return -1;
    }
    var n := if len > MAX_READ then MAX_READ else len;
    var tmp := new byte[MAX_READ](_ => 0);
    var w := Model(c.value, files, shadow, reg, tmp, n);
    ghost var made := Produced(c.value, ReadingsOf(files), shadow, reg, n);
    for i := 0 to n
      invariant forall k :: i <= k < out.Length ==> out[k] == old(out[k])
      invariant tmp[..w] == made
      invariant forall k :: 0 <= k < i ==> out[k] == if k < w then made[k] else 0
    {
      assert i < w ==> tmp[i] == tmp[..w][i];
      out[i] := if i < w then tmp[i] else 0x00;
    }
    rc := n;
    assert out[..n] == Pad(made, n);
  }
}
