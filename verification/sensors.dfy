/** Each chip's driver, run over the bus: the reading it arrives at, against what the values file says. */
module Sensors {
  import opened Bits
  import opened Chips
  import opened Bus
  import opened Paths
  import opened Models
  import opened Decoding
  import opened FakeBus
  import opened Wire
  import opened RegisterReads
  import Registers
  import Rendering
  import ValuesFile
  import Number

  /** What the file says now about a field, or the model's default. */
  function FileValue(files: Files, key: string, default: real): real {
    ValueOr(ReadingsOf(files), key, default)
  }

  /** The value the drivers' contracts speak of is what the file gives the key, or else the default. */
  lemma FileValueMeans(files: Files, key: string, default: real)
    ensures NoReading(files, key) ==> FileValue(files, key, default) == default
    ensures !NoReading(files, key) ==> Some(FileValue(files, key, default)) == ValuesFile.Lookup(files[key], key)
  {
    hide ValuesFile.Lookup;
  }

  /**
   * A reading the host rendered into the file is, to the fourth decimal, the value the drivers' contracts below speak
   * of. Every finite `double` is in the range asked for.
   */
  lemma HostValueReaches(files: Files, fields: seq<Rendering.Field>, key: string, default: real, i: nat)
    requires forall k :: 0 <= k < |fields| ==> Rendering.PlainName(fields[k].name)
    requires forall j, k :: 0 <= j < k < |fields| ==> fields[j].name != fields[k].name
    requires key in files && files[key] == Rendering.Render(fields) && |files[key]| < ValuesFile.BUFFER_SIZE
    requires i < |fields| && fields[i].name == key && Abs(fields[i].value) < Number.OVERFLOW - 1.0
    ensures FileValue(files, key, default) == Rendering.Printed(fields[i].value)
    ensures Abs(FileValue(files, key, default) - fields[i].value) <= 0.00005
  {
    hide Rendering.Render, Rendering.PlainName, Number.Convert, Rendering.Printed;
    Rendering.RenderedReadsBack(fields, key);
    Rendering.PrintedNear(fields[i].value);
    hide ValuesFile.Parse;
  }

  ghost predicate Ready(p: Portduino, c: Chip)
    reads p, p.shim.slots, p.shim.shadow
  {
    p.Valid() && c in p.shim.on
  }

  // ---- what makes the firmware believe -------------------------------------

  /**
   * Every chip passes the checks of the scan and of its driver's start-up, whatever the file says and whatever was
   * written to it.
   */
  lemma EveryChipBelieved(vals: Readings, shadow: Shadow)
    ensures FirstWord(ChipBytes(Mcp9808, vals, shadow, 0x07, 2)) == 0x0400
    ensures FirstWord(ChipBytes(Mcp9808, vals, shadow, 0x06, 2)) == 0x0054
    ensures FirstWord(ChipBytes(Ina226, vals, shadow, 0xFE, 2)) == 0x5449
    ensures FirstWord(ChipBytes(Ina226, vals, shadow, 0xFF, 2)) == 0x2260
    ensures FirstWord(ChipBytes(Bh1750, vals, shadow, 0x86, 1)) != 0x92
    ensures FirstWord(ChipBytes(Rcwl9620, vals, shadow, 0xFF, 1)) != 0x15
    ensures FirstWord(ChipBytes(CgRadSens, vals, shadow, 0x00, 1)) == 0x7D
    ensures FirstWord(ChipBytes(Lps22, vals, shadow, 0x0F, 1)) == 0xB1
    ensures FirstWord(ChipBytes(Lps22, vals, shadow, 0x11, 1)) / 4 % 2 == 0
  {
    hide LuxCount, DistanceCount, RadiationCount, LpsPressure, LpsTemperature, InaShunt, InaBus, InaPower, InaCurrent,
         McpTemperature;
  }

  /** The rain gauge: none of the status bits 0x16, and both identity numbers put together from four bytes. */
  lemma RainGaugeBelieved(vals: Readings, shadow: Shadow)
    ensures var status := FirstWord(ChipBytes(DfrobotRain, vals, shadow, 0xF0, 1));
            status / 2 % 2 == 0 && status / 4 % 2 == 0 && status / 16 % 2 == 0
    ensures var d := ChipBytes(DfrobotRain, vals, shadow, 0x00, 4);
            && d[0] as int + d[1] as int * 0x100 + d[3] as int / 0x40 * 0x1_0000 == 0x100C0
            && d[2] as int + d[3] as int % 0x40 * 0x100 == 0x3343
  {
    hide RainCount, TotalRainCount, Cell;
  }

  /** The barometer: its identity at both registers, and neither of the two busy bits. */
  lemma BarometerBelieved(vals: Readings, shadow: Shadow)
    ensures FirstWord(ChipBytes(Bmp280, vals, shadow, 0xD0, 1)) == 0x58
    ensures FirstWord(ChipBytes(Bmp280, vals, shadow, 0x00, 1)) == 0x58
    ensures var status := FirstWord(ChipBytes(Bmp280, vals, shadow, 0xF3, 1));
            status % 2 == 0 && status / 8 % 2 == 0
  {
    hide BmpPressureCount, BmpTemperatureCount, Cell;
  }

  // ---- what one read of a chip brings -------------------------------------

  lemma PctBytes(vals: Readings, shadow: Shadow)
    ensures ChipBytes(Pct2075, vals, shadow, 0x00, 2) == Be16(PctTemperature(ValueOr(vals, "temperature", 20.0)))
  {
    hide PctTemperature;
  }

  lemma McpBytes(vals: Readings, shadow: Shadow)
    ensures ChipBytes(Mcp9808, vals, shadow, 0x05, 2) == Be16(McpTemperature(ValueOr(vals, "temperature", 20.0)))
  {
    hide McpTemperature;
  }

  lemma InaBytes(vals: Readings, shadow: Shadow)
    ensures ChipBytes(Ina226, vals, shadow, 0x02, 2) == Be16(InaBus(ValueOr(vals, "voltage", 4.05)))
    ensures ChipBytes(Ina226, vals, shadow, 0x04, 2) == Be16(InaCurrent(ValueOr(vals, "current", 0.0)))
  {
    hide InaBus, InaCurrent, InaShunt, InaPower;
  }

  /** The shunt and power registers. */
  lemma InaOtherBytes(vals: Readings, shadow: Shadow)
    ensures ChipBytes(Ina226, vals, shadow, 0x01, 2) == Be16(InaShunt(ValueOr(vals, "current", 0.0)))
    ensures ChipBytes(Ina226, vals, shadow, 0x03, 2)
         == Be16(InaPower(ValueOr(vals, "voltage", 4.05), ValueOr(vals, "current", 0.0)))
  {
    hide InaBus, InaCurrent, InaShunt, InaPower;
  }

  /** What the driver makes of one register. */
  function InaRegister(vals: Readings, shadow: Shadow, reg: byte): word {
    FirstWord(ChipBytes(Ina226, vals, shadow, reg, 2))
  }

  lemma InaRegisters(vals: Readings, shadow: Shadow, volts: real, amps: real)
    requires volts == ValueOr(vals, "voltage", 4.05) && amps == ValueOr(vals, "current", 0.0)
    ensures InaRegister(vals, shadow, 0x01) == InaShunt(amps) && InaRegister(vals, shadow, 0x02) == InaBus(volts)
    ensures InaRegister(vals, shadow, 0x03) == InaPower(volts, amps)
    ensures InaRegister(vals, shadow, 0x04) == InaCurrent(amps)
  {
    hide ChipBytes, InaShunt, InaBus, InaPower, InaCurrent, ValueOr;
    InaBytes(vals, shadow);
    InaOtherBytes(vals, shadow);
  }

  /**
   * The four measurement registers of one file cohere: while no field overflows, the shunt register equals the current
   * register, and 20000 times the power register is the product of the other two up to rounding.
   */
  lemma InaRegistersCohere(vals: Readings, shadow: Shadow)
    requires NoFieldOverflows(ValueOr(vals, "voltage", 4.05), ValueOr(vals, "current", 0.0))
    ensures var i := AbsInt(ToInt16(InaRegister(vals, shadow, 0x04))) as real;
            var v := InaRegister(vals, shadow, 0x02) as real;
            && InaRegister(vals, shadow, 0x01) == InaRegister(vals, shadow, 0x04)
            && Abs(20000.0 * InaRegister(vals, shadow, 0x03) as real - i * v) <= 10000.0 + (i + v) / 2.0 + 0.25
  {
    hide NoFieldOverflows, InaShunt, InaBus, InaPower, InaCurrent, ValueOr, Abs, InaRegister, AbsInt, ToInt16, Mul;
    var volts, amps := ValueOr(vals, "voltage", 4.05), ValueOr(vals, "current", 0.0);
    InaRegisters(vals, shadow, volts, amps);
    InaCoheres(volts, amps);
    Product(AbsInt(ToInt16(InaCurrent(amps))) as real, InaBus(volts) as real);
  }

  lemma Product(x: real, y: real)
    ensures Mul(x, y) == x * y
  {
  }

  /** The cumulative rain register: right as long as its four bytes hold the count. */
  lemma TotalRainRegister(vals: Readings, shadow: Shadow)
    ensures var mm := ValueOr(vals, "rainfall_24h", 0.0);
            Abs(FromLe(ChipBytes(DfrobotRain, vals, shadow, 0x10, 4)) as real / 10000.0 - if mm < 0.0 then 0.0 else mm)
              <= 0.00005
            <==> mm < 429496.72955
  {
    hide Le32, FromLe, Abs;
    var mm := ValueOr(vals, "rainfall_24h", 0.0);
    TotalRainBytes(vals, shadow);
    Le32Decodes(TotalRainCount(mm));
    hide TotalRainCount;
    TotalRainDecodesExactlyInRange(mm);
  }

  lemma TotalRainBytes(vals: Readings, shadow: Shadow)
    ensures ChipBytes(DfrobotRain, vals, shadow, 0x10, 4) == Le32(TotalRainCount(ValueOr(vals, "rainfall_24h", 0.0)))
  {
    hide TotalRainCount;
  }

  lemma AhtBytes(vals: Readings, shadow: Shadow, reg: byte)
    ensures ChipBytes(Aht10, vals, shadow, reg, 1) == [0x18]
    ensures ChipBytes(Aht10, vals, shadow, reg, 6)
         == AhtFrame(AhtHumidity(ValueOr(vals, "humidity", 50.0)), AhtTemperature(ValueOr(vals, "temperature", 20.0)))
  {
    hide AhtHumidity, AhtTemperature;
  }

  lemma PmsBytes(vals: Readings, shadow: Shadow, reg: byte)
    ensures ChipBytes(Pmsa003i, vals, shadow, reg, 32)
         == PmsFrame(ClampWord(ValueOr(vals, "pm10", 0.0)), ClampWord(ValueOr(vals, "pm25", 0.0)),
                     ClampWord(ValueOr(vals, "pm100", 0.0)))
  {
    hide ClampWord, PmsFrame;
  }

  lemma LuxBytes(vals: Readings, shadow: Shadow, reg: byte)
    ensures ChipBytes(Bh1750, vals, shadow, reg, 2) == Be16(LuxCount(ValueOr(vals, "lux", 0.0)))
  {
    hide LuxCount;
  }

  lemma DistanceBytes(vals: Readings, shadow: Shadow, reg: byte)
    ensures ChipBytes(Rcwl9620, vals, shadow, reg, 3) == Be24(DistanceCount(ValueOr(vals, "distance", 0.0)))
  {
    hide DistanceCount;
  }

  lemma RadiationBytes(vals: Readings, shadow: Shadow, reg: byte)
    ensures ChipBytes(CgRadSens, vals, shadow, reg, 3) == Be24(RadiationCount(ValueOr(vals, "radiation", 0.0)))
  {
    hide RadiationCount;
  }

  lemma LpsBytes(vals: Readings, shadow: Shadow)
    ensures ChipBytes(Lps22, vals, shadow, 0x28, 3) == Le24(LpsPressure(ValueOr(vals, "pressure", 1013.25)))
    ensures ChipBytes(Lps22, vals, shadow, 0x2B, 2) == Le16(LpsTemperature(ValueOr(vals, "temperature", 20.0)))
  {
    hide LpsPressure, LpsTemperature;
  }

  // ---- PCT2075, MCP9808, INA226: one register each ------------------------

  /** The temperature register, over the combined path and over the separate path. */
  method ReadPct2075(p: Portduino) returns (combined: real, separate: real)
    requires Ready(p, Pct2075)
    modifies p, p.tx, p.rx, p.shim.slots, p.shim.shadow
    ensures p.Valid()
    ensures var t := Clamp(FileValue(p.shim.files, "temperature", 20.0), -55.0, 127.0);
            Abs(combined - t) <= 0.0625 && separate == combined
    ensures NoReading(p.shim.files, "temperature") ==> Abs(combined - 20.0) <= 0.0625
  {
    hide NoReading, ChipAt, ChipBytes, ReadingsOf, Sent, PctTemperature, PctDegrees;
    ChipAtAddr(p.shim.on, 0x37, Pct2075);
    var raw := BusioRead(p, 0x37, 0x00, 2);
    ghost var vals := ReadingsOf(p.shim.files);
    var t := FileValue(p.shim.files, "temperature", 20.0);
    PctBytes(vals, p.State().shadow);
    WordOfBe16(PctTemperature(t));
    FromBe2(Be16(PctTemperature(t)));
    combined := PctDegrees(raw);
    var raw2 := GetRegisterValue(p, 0x37, 0x00, 2);
    PctBytes(vals, p.State().shadow);
    separate := PctDegrees(raw2);
    PctDecodes(t);
    FileValueMeans(p.shim.files, "temperature", 20.0);
  }

  method ReadMcp9808(p: Portduino) returns (t: real)
    requires Ready(p, Mcp9808)
    modifies p, p.tx, p.rx, p.shim.slots, p.shim.shadow
    ensures p.Valid()
    ensures var want := FileValue(p.shim.files, "temperature", 20.0);
            Abs(t - want) <= 0.03125 <==> Abs(want) < 255.96875
    ensures NoReading(p.shim.files, "temperature") ==> Abs(t - 20.0) <= 0.03125
  {
    hide NoReading, FileValue;
    t := McpReading(p);
    FileValueMeans(p.shim.files, "temperature", 20.0);
  }

  method McpReading(p: Portduino) returns (t: real)
    requires Ready(p, Mcp9808)
    modifies p, p.tx, p.rx, p.shim.slots, p.shim.shadow
    ensures p.Valid()
    ensures var want := FileValue(p.shim.files, "temperature", 20.0);
            Abs(t - want) <= 0.03125 <==> Abs(want) < 255.96875
  {
    hide ChipAt, ChipBytes, ReadingsOf, Sent, McpTemperature, McpDegrees, Abs;
    ChipAtAddr(p.shim.on, 0x18, Mcp9808);
    var raw := BusioRead(p, 0x18, 0x05, 2);
    var want := FileValue(p.shim.files, "temperature", 20.0);
    McpBytes(ReadingsOf(p.shim.files), p.State().shadow);
    FromBe2(Be16(McpTemperature(want)));
    t := McpDegrees(raw);
    McpDecodesExactlyInRange(want);
  }

  method ReadIna226(p: Portduino) returns (volts: real, amps: real)
    requires Ready(p, Ina226)
    modifies p, p.tx, p.rx, p.shim.slots, p.shim.shadow
    ensures p.Valid()
    ensures var v := FileValue(p.shim.files, "voltage", 4.05);
            Abs(volts - v) <= 0.000625 <==> -0.000625 < v < 81.919375
    ensures var i := FileValue(p.shim.files, "current", 0.0);
            Abs(amps - i) <= 0.0000125 <==> -0.8192125 < i < 0.8191875
    ensures NoReading(p.shim.files, "voltage") ==> Abs(volts - 4.05) <= 0.000625
    ensures NoReading(p.shim.files, "current") ==> Abs(amps) <= 0.0000125
  {
    hide NoReading, FileValue;
    volts := InaVoltsReading(p);
    amps := InaAmpsReading(p);
    FileValueMeans(p.shim.files, "voltage", 4.05);
    FileValueMeans(p.shim.files, "current", 0.0);
  }

  method InaVoltsReading(p: Portduino) returns (volts: real)
    requires Ready(p, Ina226)
    modifies p, p.tx, p.rx, p.shim.slots, p.shim.shadow
    ensures p.Valid()
    ensures var v := FileValue(p.shim.files, "voltage", 4.05);
            Abs(volts - v) <= 0.000625 <==> -0.000625 < v < 81.919375
  {
    hide ChipAt, ChipBytes, ReadingsOf, Sent, InaBus, InaVolts, Abs;
    ChipAtAddr(p.shim.on, 0x40, Ina226);
    var v := FileValue(p.shim.files, "voltage", 4.05);
    var bus := BusioRead(p, 0x40, 0x02, 2);
    InaBytes(ReadingsOf(p.shim.files), p.State().shadow);
    FromBe2(Be16(InaBus(v)));
    volts := InaVolts(bus);
    InaVoltageDecodesExactlyInRange(v);
  }

  method InaAmpsReading(p: Portduino) returns (amps: real)
    requires Ready(p, Ina226)
    modifies p, p.tx, p.rx, p.shim.slots, p.shim.shadow
    ensures p.Valid()
    ensures var i := FileValue(p.shim.files, "current", 0.0);
            Abs(amps - i) <= 0.0000125 <==> -0.8192125 < i < 0.8191875
  {
    hide ChipAt, ChipBytes, ReadingsOf, Sent, InaCurrent, InaAmps, Abs;
    ChipAtAddr(p.shim.on, 0x40, Ina226);
    var i := FileValue(p.shim.files, "current", 0.0);
    var cur := BusioRead(p, 0x40, 0x04, 2);
    InaBytes(ReadingsOf(p.shim.files), p.State().shadow);
    FromBe2(Be16(InaCurrent(i)));
    amps := InaAmps(cur);
    InaCurrentDecodesExactlyInRange(i);
  }

  // ---- AHT10: commands, status, frame -------------------------------------

  /** One command and the one-byte status after it: calibrated and not busy. */
  method StatusAfter(p: Portduino, cmd: seq<byte>) returns (ready: bool)
    requires Ready(p, Aht10) && 0 < |cmd| <= WIRE_BUFFER
    modifies p, p.tx, p.rx, p.shim.slots, p.shim.shadow
    ensures p.Valid() && p.Pending() == [] && ready
  {
    hide NoReading, ChipAt, ChipBytes, ReadingsOf, Sent, Received, AhtFrame;
    ChipAtAddr(p.shim.on, 0x38, Aht10);
    var read, st := Fetch(p, 0x38, cmd, true, 1);
    AhtBytes(ReadingsOf(p.shim.files), p.State().shadow, cmd[0]);
    assert st == [0x18];
    ready := read && st[0] < 0x80 && st[0] / 8 % 2 == 1;
  }

  /** Reset, calibrate, trigger, each answered with a ready status; then the frame. */
  method ReadAht10(p: Portduino) returns (ready: bool, percent: real, degrees: real)
    requires Ready(p, Aht10)
    modifies p, p.tx, p.rx, p.shim.slots, p.shim.shadow, p.shim`files
    ensures p.Valid() && ready
    ensures var h := Clamp(FileValue(p.shim.files, "humidity", 50.0), 0.0, 100.0);
            if h >= 100.0 - 50.0 / 1048576.0 then percent == 0.0 else Abs(percent - h) <= 50.0 / 1048576.0
    ensures var t := Clamp(FileValue(p.shim.files, "temperature", 20.0), -50.0, 150.0);
            if t >= 150.0 - 100.0 / 1048576.0 then degrees == -50.0 else Abs(degrees - t) <= 100.0 / 1048576.0
    ensures NoReading(p.shim.files, "humidity") ==> Abs(percent - 50.0) <= 50.0 / 1048576.0
    ensures NoReading(p.shim.files, "temperature") ==> Abs(degrees - 20.0) <= 100.0 / 1048576.0
  {
    hide NoReading, FileValue, Abs, Clamp;
    var reset := StatusAfter(p, [0xBA]);
    var calibrated := StatusAfter(p, [0xE1, 0x08, 0x00]);
    var triggered := StatusAfter(p, [0xAC, 0x33, 0x00]);
    ready := reset && calibrated && triggered;
    p.shim.FileRewritten();
    percent, degrees := AhtMeasurement(p);
  }

  method AhtMeasurement(p: Portduino) returns (percent: real, degrees: real)
    requires Ready(p, Aht10) && p.Pending() == []
    modifies p, p.rx, p.shim.slots, p.shim.shadow
    ensures p.Valid()
    ensures var h := Clamp(FileValue(p.shim.files, "humidity", 50.0), 0.0, 100.0);
            if h >= 100.0 - 50.0 / 1048576.0 then percent == 0.0 else Abs(percent - h) <= 50.0 / 1048576.0
    ensures var t := Clamp(FileValue(p.shim.files, "temperature", 20.0), -50.0, 150.0);
            if t >= 150.0 - 100.0 / 1048576.0 then degrees == -50.0 else Abs(degrees - t) <= 100.0 / 1048576.0
    ensures NoReading(p.shim.files, "humidity") ==> Abs(percent - 50.0) <= 50.0 / 1048576.0
    ensures NoReading(p.shim.files, "temperature") ==> Abs(degrees - 20.0) <= 100.0 / 1048576.0
  {
    hide NoReading, ChipAt, ChipBytes, ReadingsOf, AhtFrame, AhtHumidity, AhtTemperature, AhtPercent, AhtDegrees;
    ChipAtAddr(p.shim.on, 0x38, Aht10);
    BegunAgain(p, 0x38);
    var r := p.RequestFrom(0x38, 6);
    AhtBytes(ReadingsOf(p.shim.files), p.State().shadow, Pointer(SlotOf(p.State(), p.fd)));
    assert p.Queue()[..6] == p.Queue();
    var d := Take(p, 6);
    percent, degrees := AhtPercent(d), AhtDegrees(d);
    AhtDecodes(FileValue(p.shim.files, "humidity", 50.0), FileValue(p.shim.files, "temperature", 20.0));
    FileValueMeans(p.shim.files, "humidity", 50.0);
    FileValueMeans(p.shim.files, "temperature", 20.0);
  }

  lemma BegunAgain(p: Portduino, addr: byte)
    requires p.Valid()
    ensures Live(Begun(p.State(), p.fd, addr), p.fd)
  {
    BegunSlot(p.State(), p.fd, addr);
  }

  // ---- PMSA003I: a bare frame ---------------------------------------------

  method ReadPmsa003i(p: Portduino) returns (accepted: bool, pm10: word, pm25: word, pm100: word, same: bool)
    requires Ready(p, Pmsa003i)
    modifies p, p.tx, p.rx, p.shim.slots, p.shim.shadow
    ensures p.Valid() && accepted && same
    ensures Abs(pm10 as real - Clamp(FileValue(p.shim.files, "pm10", 0.0), 0.0, 65535.0)) <= 0.5
    ensures Abs(pm25 as real - Clamp(FileValue(p.shim.files, "pm25", 0.0), 0.0, 65535.0)) <= 0.5
    ensures Abs(pm100 as real - Clamp(FileValue(p.shim.files, "pm100", 0.0), 0.0, 65535.0)) <= 0.5
    ensures pm10 == ClampWord(FileValue(p.shim.files, "pm10", 0.0))
    ensures pm25 == ClampWord(FileValue(p.shim.files, "pm25", 0.0))
    ensures pm100 == ClampWord(FileValue(p.shim.files, "pm100", 0.0))
    ensures NoReading(p.shim.files, "pm10") ==> pm10 == 0
    ensures NoReading(p.shim.files, "pm25") ==> pm25 == 0
    ensures NoReading(p.shim.files, "pm100") ==> pm100 == 0
  {
    hide NoReading, ChipAt, ChipBytes, ReadingsOf, ClampWord, PmsFrame, Sum;
    ChipAtAddr(p.shim.on, 0x12, Pmsa003i);
    BegunSlot(p.State(), p.fd, 0x12);
    p.BeginTransmission(0x12);
    BegunAgain(p, 0x12);
    var r := p.RequestFrom(0x12, 32);
    PmsBytes(ReadingsOf(p.shim.files), p.State().shadow, Pointer(SlotOf(p.State(), p.fd)));
    assert p.Queue()[..32] == p.Queue();
    PmsFrameDecodes(ClampWord(FileValue(p.shim.files, "pm10", 0.0)), ClampWord(FileValue(p.shim.files, "pm25", 0.0)),
                    ClampWord(FileValue(p.shim.files, "pm100", 0.0)));
    ParticleDecodes(FileValue(p.shim.files, "pm10", 0.0));
    ParticleDecodes(FileValue(p.shim.files, "pm25", 0.0));
    ParticleDecodes(FileValue(p.shim.files, "pm100", 0.0));
    var available := p.Available();
    var b := Take(p, 32);
    var sum := Checksum(b, 30);
    accepted := available >= 32 && b[0] == 0x42 && b[1] == 0x4D && Field(b, 2) == 28 && Field(b, 30) == sum;
    pm10, pm25, pm100 := Field(b, 4), Field(b, 6), Field(b, 8);
    same := Field(b, 10) == pm10 && Field(b, 12) == pm25 && Field(b, 14) == pm100;
    FileValueMeans(p.shim.files, "pm10", 0.0);
    FileValueMeans(p.shim.files, "pm25", 0.0);
    FileValueMeans(p.shim.files, "pm100", 0.0);
  }

  // ---- BH1750, RCWL-9620, RadSens, rain gauge, LPS22HB --------------------

  /** Power on, continuous mode, then two bytes with no register write in between. */
  method ReadBh1750(p: Portduino) returns (ok: bool, lux: real)
    requires Ready(p, Bh1750)
    modifies p, p.tx, p.rx, p.shim.slots, p.shim.shadow
    ensures p.Valid() && ok
    ensures Abs(lux - Clamp(FileValue(p.shim.files, "lux", 0.0), 0.0, 65535.0 / 1.2)) <= 0.5 / 1.2
    ensures NoReading(p.shim.files, "lux") ==> Abs(lux) <= 0.5 / 1.2
  {
    hide NoReading, ChipAt, ChipBytes, ReadingsOf, Sent, LuxCount;
    ChipAtAddr(p.shim.on, 0x23, Bh1750);
    var on := Send(p, 0x23, [0x01], true);
    var read, mode := Fetch(p, 0x23, [0x10], true, 2);
    ok := on == 0 && read;
    var want := FileValue(p.shim.files, "lux", 0.0);
    LuxBytes(ReadingsOf(p.shim.files), p.State().shadow, 0x10);
    WordOfBe16(LuxCount(want));
    lux := Word(mode) as real / 1.2;
    LuxDecodes(want);
    FileValueMeans(p.shim.files, "lux", 0.0);
  }

  method ReadRcwl9620(p: Portduino) returns (mm: real)
    requires Ready(p, Rcwl9620)
    modifies p, p.tx, p.rx, p.shim.slots, p.shim.shadow
    ensures p.Valid()
    ensures Abs(mm - Clamp(FileValue(p.shim.files, "distance", 0.0), 0.0, 4500.0)) <= 0.0005
    ensures NoReading(p.shim.files, "distance") ==> Abs(mm) <= 0.0005
  {
    hide NoReading, ChipAt, ChipBytes, ReadingsOf, Sent, DistanceCount, Be24;
    ChipAtAddr(p.shim.on, 0x57, Rcwl9620);
    var bRead, b := Fetch(p, 0x57, [0x01], true, 3);
    var want := FileValue(p.shim.files, "distance", 0.0);
    DistanceBytes(ReadingsOf(p.shim.files), p.State().shadow, 0x01);
    DistanceDecodes(want);
    Be24Decodes(DistanceCount(want));
    FromBe3(b);
    mm := (b[0] as int * 0x1_0000 + b[1] as int * 0x100 + b[2] as int) as real / 1000.0;
    FileValueMeans(p.shim.files, "distance", 0.0);
  }

  /** The intensity, each byte masked as it is taken. */
  method ReadCgRadSens(p: Portduino) returns (uR: real)
    requires Ready(p, CgRadSens)
    modifies p, p.tx, p.rx, p.shim.slots, p.shim.shadow
    ensures p.Valid()
    ensures Abs(uR - Clamp(FileValue(p.shim.files, "radiation", 0.0), 0.0, 1677721.5)) <= 0.05
    ensures NoReading(p.shim.files, "radiation") ==> Abs(uR) <= 0.05
  {
    hide NoReading, ChipAt, ChipBytes, ReadingsOf, Sent, RadiationCount;
    ChipAtAddr(p.shim.on, 0x66, CgRadSens);
    var bRead, b := Fetch(p, 0x66, [0x06], true, 3);
    var want := FileValue(p.shim.files, "radiation", 0.0);
    RadiationBytes(ReadingsOf(p.shim.files), p.State().shadow, 0x06);
    RadiationDecodes(want);
    Be24Decodes(RadiationCount(want));
    FromBe3(b);
    uR := (b[0] as int * 0x1_0000 + b[1] as int * 0x100 + b[2] as int) as real / 10.0;
    FileValueMeans(p.shim.files, "radiation", 0.0);
  }

  /** The intensity as the firmware's driver takes it, sign and all: right only while every byte is below 0x80. */
  method ReadCgRadSensUnmasked(p: Portduino) returns (count: nat)
    requires Ready(p, CgRadSens)
    modifies p, p.tx, p.rx, p.shim.slots, p.shim.shadow
    ensures p.Valid()
    ensures var right := RadiationCount(FileValue(p.shim.files, "radiation", 0.0));
            count == right <==> right / 0x1_0000 < 0x80 && right / 0x100 % 0x100 < 0x80 && right % 0x100 < 0x80
  {
    hide NoReading, ChipAt, ChipBytes, ReadingsOf, ChipWrite, RadiationCount;
    ChipAtAddr(p.shim.on, 0x66, CgRadSens);
    SentSlot(p.shim.on, p.State(), p.fd, 0x66, [0x06]);
    var status := Send(p, 0x66, [0x06], true);
    var r := p.RequestFrom(0x66, 3);
    var want := FileValue(p.shim.files, "radiation", 0.0);
    RadiationBytes(ReadingsOf(p.shim.files), p.State().shadow, 0x06);
    RadiationDecodes(want);
    UnmaskedRightIff(RadiationCount(want));
    hide Be24, UnmaskedCount, SignExtend;
    var v0, v1, v2 := TakeThreeRaw(p);
    count := UnmaskedCount(v0, v1, v2);
  }

  method TakeThreeRaw(p: Portduino) returns (v0: int, v1: int, v2: int)
    requires p.Valid() && |p.Queue()| == 3
    modifies p`rxIndex, p`rxLen
    ensures p.Valid() && p.State() == old(p.State())
    ensures var b := old(p.Queue()); v0 == SignExtend(b[0]) && v1 == SignExtend(b[1]) && v2 == SignExtend(b[2])
    ensures -0x80 <= v0 < 0x80 && -0x80 <= v1 < 0x80 && -0x80 <= v2 < 0x80
  {
    v0 := p.RdRaw();
    v1 := p.RdRaw();
    v2 := p.RdRaw();
  }

  lemma UnmaskedRightIff(n: nat)
    requires n < 0x100_0000
    ensures var b := Be24(n);
            UnmaskedCount(SignExtend(b[0]), SignExtend(b[1]), SignExtend(b[2])) == n
            <==> n / 0x1_0000 < 0x80 && n / 0x100 % 0x100 < 0x80 && n % 0x100 < 0x80
  {
    hide UnmaskedCount, SignExtend;
    var b := Be24(n);
    Digits(n);
    UnmaskedCountRightIff(b[0], b[1], b[2]);
  }

  lemma RainBytesAfterHours(vals: Readings, shadow: Shadow, hours: byte)
    ensures var after := ChipWrite(shadow, 0x1D, 0x26, [hours]);
            ChipBytes(DfrobotRain, vals, after, 0x0C, 4)
              == Le32(RainCount(ValueOr(vals, if hours > 1 then "rainfall_24h" else "rainfall_1h", 0.0)))
  {
    hide ChipBytes, RainCount, Le32;
    Registers.RainBytes(vals, ChipWrite(shadow, 0x1D, 0x26, [hours]));
    Registers.WriteCell(shadow, Registers.Store(0x1D, 0x26, [hours]), 0x1D, 0x26);
  }

  /** The loop that puts four little-endian bytes together. */
  method FourBytes(b: seq<byte>) returns (v: nat)
    requires |b| == 4
    ensures v == FromLe(b)
  {
    v := 0;
    for k := 0 to 4
      invariant v == FromLe(b[..k])
    {
      assert b[..k + 1][..k] == b[..k];
      v := v + b[k] as int * Shift(k);
    }
    assert b[..4] == b;
  }

  /** The rainfall of a window: its hours are written first, then four bytes are read. */
  method ReadRain(p: Portduino, hours: byte) returns (mm: real)
    requires Ready(p, DfrobotRain)
    modifies p, p.tx, p.rx, p.shim.slots, p.shim.shadow
    ensures p.Valid()
    ensures var want := FileValue(p.shim.files, if hours > 1 then "rainfall_24h" else "rainfall_1h", 0.0);
            Abs(mm - Clamp(want, 0.0, 429496.7295)) <= 0.00005
    ensures NoReading(p.shim.files, if hours > 1 then "rainfall_24h" else "rainfall_1h") ==> Abs(mm) <= 0.00005
  {
    hide NoReading, ChipAt, ChipBytes, ReadingsOf, RainCount, ChipWrite, Le32, FromLe;
    ChipAtAddr(p.shim.on, 0x1D, DfrobotRain);
    ghost var before := p.State().shadow;
    SentSlot(p.shim.on, p.State(), p.fd, 0x1D, [0x26, hours]);
    var status := Send(p, 0x1D, [0x26, hours], true);
    SentSlot(p.shim.on, p.State(), p.fd, 0x1D, [0x0C]);
    var bRead, b := Fetch(p, 0x1D, [0x0C], false, 4);
    assert [0x26, hours][1..] == [hours];
    RainBytesAfterHours(ReadingsOf(p.shim.files), before, hours);
    var want := FileValue(p.shim.files, if hours > 1 then "rainfall_24h" else "rainfall_1h", 0.0);
    RainDecodes(want);
    Le32Decodes(RainCount(want));
    var v := FourBytes(b);
    mm := v as real / 10000.0;
    FileValueMeans(p.shim.files, if hours > 1 then "rainfall_24h" else "rainfall_1h", 0.0);
  }

  /** The four base-256 digits of a 32-bit number. */
  lemma Digits(v: nat)
    requires v < 0x1_0000_0000
    ensures v == v % 0x100 + v / 0x100 % 0x100 * 0x100 + v / 0x1_0000 % 0x100 * 0x1_0000
                 + v / 0x100_0000 % 0x100 * 0x100_0000
  {
    var q, r, t := v / 0x100, v / 0x1_0000, v / 0x100_0000;
    assert q / 0x100 == r && r / 0x100 == t;
  }

  lemma Le32Decodes(v: nat)
    requires v < 0x1_0000_0000
    ensures FromLe(Le32(v)) == v
  {
    hide FromLe;
    FromLe4(Le32(v));
    Digits(v);
  }

  /** Pressure, then temperature, each from its own register. */
  method ReadLps22(p: Portduino) returns (hPa: real, t: real)
    requires Ready(p, Lps22)
    modifies p, p.tx, p.rx, p.shim.slots, p.shim.shadow
    ensures p.Valid()
    ensures Abs(hPa - Clamp(FileValue(p.shim.files, "pressure", 1013.25), 0.0, 4095.0)) <= 0.5 / 4096.0
    ensures var want := FileValue(p.shim.files, "temperature", 20.0);
            Abs(t - want) <= 0.005 <==> -327.685 < want < 327.675
    ensures NoReading(p.shim.files, "pressure") ==> Abs(hPa - 1013.25) <= 0.5 / 4096.0
    ensures NoReading(p.shim.files, "temperature") ==> Abs(t - 20.0) <= 0.005
  {
    hide NoReading, FileValue, Abs, Clamp;
    hPa := ReadLpsPressure(p);
    t := ReadLpsTemperature(p);
  }

  method ReadLpsPressure(p: Portduino) returns (hPa: real)
    requires Ready(p, Lps22)
    modifies p, p.tx, p.rx, p.shim.slots, p.shim.shadow
    ensures p.Valid()
    ensures Abs(hPa - Clamp(FileValue(p.shim.files, "pressure", 1013.25), 0.0, 4095.0)) <= 0.5 / 4096.0
    ensures NoReading(p.shim.files, "pressure") ==> Abs(hPa - 1013.25) <= 0.5 / 4096.0
  {
    hide NoReading, ChipAt, ChipBytes, ReadingsOf, Sent, LpsPressure;
    ChipAtAddr(p.shim.on, 0x5C, Lps22);
    var bRead, b := Fetch(p, 0x5C, [0x28], false, 3);
    var want := FileValue(p.shim.files, "pressure", 1013.25);
    LpsBytes(ReadingsOf(p.shim.files), p.State().shadow);
    LpsPressureDecodes(want);
    Digits(LpsPressure(want));
    hPa := (b[0] as int + b[1] as int * 0x100 + b[2] as int * 0x1_0000) as real / 4096.0;
    FileValueMeans(p.shim.files, "pressure", 1013.25);
  }

  method ReadLpsTemperature(p: Portduino) returns (t: real)
    requires Ready(p, Lps22)
    modifies p, p.tx, p.rx, p.shim.slots, p.shim.shadow
    ensures p.Valid()
    ensures var want := FileValue(p.shim.files, "temperature", 20.0);
            Abs(t - want) <= 0.005 <==> -327.685 < want < 327.675
    ensures NoReading(p.shim.files, "temperature") ==> Abs(t - 20.0) <= 0.005
  {
    hide NoReading, ChipAt, ChipBytes, ReadingsOf, Sent, LpsTemperature;
    ChipAtAddr(p.shim.on, 0x5C, Lps22);
    var uRead, u := Fetch(p, 0x5C, [0x2B], false, 2);
    LpsBytes(ReadingsOf(p.shim.files), p.State().shadow);
    var warm := FileValue(p.shim.files, "temperature", 20.0);
    LpsTemperatureDecodesExactlyInRange(warm);
    t := ToInt16(u[0] as int + u[1] as int * 0x100) as real / 100.0;
    FileValueMeans(p.shim.files, "temperature", 20.0);
  }

  // ---- BMP280: calibration, counts, polynomial ----------------------------

  /** The calibration words the driver reads: T1, T2, T3 and P1; the eight that follow are zero. */
  lemma BmpCalibration(vals: Readings, shadow: Shadow)
    ensures var cal := ChipBytes(Bmp280, vals, shadow, 0x88, 24);
            && |cal| == 24
            && cal[0] as int + cal[1] as int * 0x100 == 16384
            && cal[2] as int + cal[3] as int * 0x100 == 16384
            && cal[4] as int + cal[5] as int * 0x100 == 0
            && cal[6] as int + cal[7] as int * 0x100 == 6250
            && forall k :: 8 <= k < 24 ==> cal[k] == 0
  {
    hide BmpPressureCount, BmpTemperatureCount;
  }

  lemma BmpCountBytes(vals: Readings, shadow: Shadow)
    ensures var d := ChipBytes(Bmp280, vals, shadow, 0xF7, 6);
            && |d| == 6
            && Count20(d[0], d[1], d[2]) == BmpPressureCount(ValueOr(vals, "pressure", 1013.25))
            && Count20(d[3], d[4], d[5]) == BmpTemperatureCount(ValueOr(vals, "temperature", 20.0))
  {
    hide BmpPressureCount, BmpTemperatureCount;
    var hPa, t := ValueOr(vals, "pressure", 1013.25), ValueOr(vals, "temperature", 20.0);
    BmpCounts(hPa, t);
    Split20(BmpPressureCount(hPa));
    Split20(BmpTemperatureCount(t));
  }

  lemma Split20(v: nat)
    requires v < 0x10_0000
    ensures Count20(v / 0x1000, v / 0x10 % 0x100, v % 0x10 * 0x10) == v
  {
    assert v / 0x10 / 0x100 == v / 0x1000;
  }

  /** Calibration, then both counts in one burst, then the polynomial; the file may change in between. */
  method ReadBmp280(p: Portduino) returns (degrees: real, pascals: real)
    requires Ready(p, Bmp280)
    modifies p, p.tx, p.rx, p.shim.slots, p.shim.shadow, p.shim`files
    ensures p.Valid()
    ensures Abs(degrees - Clamp(FileValue(p.shim.files, "temperature", 20.0), -51.2, 786431.0 / 5120.0)) <= 0.5 / 5120.0
    ensures Abs(pascals - Clamp(FileValue(p.shim.files, "pressure", 1013.25) * 100.0, 1.0, 1048576.0)) <= 0.5
    ensures NoReading(p.shim.files, "temperature") ==> Abs(degrees - 20.0) <= 0.5 / 5120.0
    ensures NoReading(p.shim.files, "pressure") ==> Abs(pascals - 101325.0) <= 0.5
  {
    hide NoReading, ChipAt, ChipBytes, ReadingsOf, Sent, BmpPressureCount, BmpTemperatureCount, FineTemperature, Pascals,
         Count20;
    ChipAtAddr(p.shim.on, 0x76, Bmp280);
    var calRead, cal := Fetch(p, 0x76, [0x88], false, 24);
    BmpCalibration(ReadingsOf(p.shim.files), p.State().shadow);
    p.shim.FileRewritten();
    var dRead, d := Fetch(p, 0x76, [0xF7], false, 6);
    BmpCountBytes(ReadingsOf(p.shim.files), p.State().shadow);
    var t1: word := cal[0] as int + cal[1] as int * 0x100;
    var t2 := ToInt16(cal[2] as int + cal[3] as int * 0x100);
    var t3 := ToInt16(cal[4] as int + cal[5] as int * 0x100);
    var p1: word := cal[6] as int + cal[7] as int * 0x100;
    degrees := FineTemperature(Count20(d[3], d[4], d[5]), t1, t2, t3) / 5120.0;
    pascals := Pascals(Count20(d[0], d[1], d[2]), p1);
    BmpDecodes(FileValue(p.shim.files, "pressure", 1013.25), FileValue(p.shim.files, "temperature", 20.0));
    FileValueMeans(p.shim.files, "temperature", 20.0);
    FileValueMeans(p.shim.files, "pressure", 1013.25);
  }
}
