/** The shadow registers over any run: each holds the last payload written to it, and what reads make of that. */
module Registers {
  import opened Bits
  import opened Chips
  import opened Bus
  import opened History

  /** A payload written to a register of an address. */
  datatype Store = Store(addr: int, reg: byte, payload: seq<byte>)

  predicate Hits(s: Store, addr: int, reg: byte) {
    s.addr == addr && s.reg == reg
  }

  function MsgStores(msgs: seq<Message>): seq<Store>
    requires forall k :: 0 <= k < |msgs| ==> !msgs[k].Faulty()
  {
    if msgs == [] then []
    else
      var m := msgs[|msgs| - 1];
      assert !m.Faulty();
      MsgStores(msgs[..|msgs| - 1])
      + if !m.read && m.len > 1 then [Store(m.addr, m.buf.value[0], m.buf.value[1..])] else []
  }

  /** The payloads a call stores, in order. */
  function Stores(on: set<Chip>, bus: Bus, op: Op): seq<Store> {
    if op.Open? || !Live(bus, op.fd) then []
    else
      var addr := SlotOf(bus, op.fd).addr;
      var emulated := ChipAt(on, addr).Some?;
      match op
      case Write(_, data) => if emulated && |data| > 1 then [Store(addr, data[0], data[1..])] else []
      case Rdwr(_, msgs) => if Accepted(on, msgs) then MsgStores(msgs[..Faultless(msgs)]) else []
      case SmbusOp(_, rq) =>
        if emulated && rq.Request? && rq.size != QUICK && rq.rw != 1 && rq.size != BYTE && rq.data.Some?
        then [Store(addr, rq.command, SmbusPayload(rq))] else []
      case _ => []
  }

  /** Everything a run stores. */
  function Log(on: set<Chip>, ops: seq<Op>): seq<Store> {
    if ops == [] then []
    else
      var p := ops[..|ops| - 1];
      Log(on, p) + Stores(on, Run(on, p), ops[|ops| - 1])
  }

  /** The payload that counts for a register: the last one stored to it. */
  function LastPayload(log: seq<Store>, addr: int, reg: byte): Option<seq<byte>> {
    if log == [] then None
    else if Hits(log[|log| - 1], addr, reg) then Some(log[|log| - 1].payload)
    else LastPayload(log[..|log| - 1], addr, reg)
  }

  lemma {:induction false} LastPayloadMeaning(log: seq<Store>, addr: int, reg: byte)
    ensures match LastPayload(log, addr, reg)
            case None => forall k :: 0 <= k < |log| ==> !Hits(log[k], addr, reg)
            case Some(p) => exists k :: 0 <= k < |log| && Hits(log[k], addr, reg) && log[k].payload == p
                                        && forall j :: k < j < |log| ==> !Hits(log[j], addr, reg)
  {
    if log != [] && !Hits(log[|log| - 1], addr, reg) {
      var rest := log[..|log| - 1];
      LastPayloadMeaning(rest, addr, reg);
      assert forall k :: 0 <= k < |rest| ==> log[k] == rest[k];
    }
  }

  /** A register after stores: the encoding of the last payload for it, or what it was. */
  function After(was: word, log: seq<Store>, addr: int, reg: byte): word {
    match LastPayload(log, addr, reg) case None => was case Some(p) => Encode(p)
  }

  lemma {:induction false} AfterConcat(was: word, a: seq<Store>, b: seq<Store>, addr: int, reg: byte)
    ensures After(was, a + b, addr, reg) == After(After(was, a, addr, reg), b, addr, reg)
  {
    if b == [] {
      assert a + b == a;
    } else {
      var n := |b| - 1;
      assert (a + b)[..|a + b| - 1] == a + b[..n];
      AfterConcat(was, a, b[..n], addr, reg);
    }
  }

  lemma After1(was: word, s: Store, addr: int, reg: byte)
    ensures After(was, [s], addr, reg) == if Hits(s, addr, reg) then Encode(s.payload) else was
    ensures After(was, [], addr, reg) == was
  {
    assert [s][..0] == [];
    assert LastPayload([], addr, reg).None?;
  }

  lemma WriteCell(shadow: Shadow, s: Store, addr: int, reg: byte)
    requires 0 <= addr < 128
    ensures Cell(ChipWrite(shadow, s.addr, s.reg, s.payload), addr, reg)
         == if Hits(s, addr, reg) then Encode(s.payload) else Cell(shadow, addr, reg)
  {
  }

  lemma {:induction false} MsgsStore(bus: Bus, i: nat, msgs: seq<Message>, addr: int, reg: byte)
    requires i < |bus.slots| && 0 <= addr < 128
    requires forall k :: 0 <= k < |msgs| ==> !msgs[k].Faulty()
    ensures Cell(AfterMsgs(bus, i, msgs).shadow, addr, reg)
         == After(Cell(bus.shadow, addr, reg), MsgStores(msgs), addr, reg)
  {
    hide Encode, ChipWrite, Cell, After;
    if msgs == [] {
      After1(Cell(bus.shadow, addr, reg), Store(0, 0, []), addr, reg);
    } else {
      var n := |msgs| - 1;
      var m := msgs[n];
      MsgsStore(bus, i, msgs[..n], addr, reg);
      assert !m.Faulty();
      if !m.read && m.len > 1 {
        var s := Store(m.addr, m.buf.value[0], m.buf.value[1..]);
        var was := Cell(bus.shadow, addr, reg);
        AfterConcat(was, MsgStores(msgs[..n]), [s], addr, reg);
        After1(After(was, MsgStores(msgs[..n]), addr, reg), s, addr, reg);
        WriteCell(AfterMsgs(bus, i, msgs[..n]).shadow, s, addr, reg);
      } else {
        assert MsgStores(msgs) == MsgStores(msgs[..n]);
      }
    }
  }

  /** One call changes a register exactly as its stores say. */
  lemma StepStores(on: set<Chip>, bus: Bus, op: Op, addr: int, reg: byte)
    requires 0 <= addr < 128
    ensures Cell(Next(on, bus, op).shadow, addr, reg)
         == After(Cell(bus.shadow, addr, reg), Stores(on, bus, op), addr, reg)
  {
    hide Encode, ChipWrite, Cell, After, ChipAt, Accepted;
    var was := Cell(bus.shadow, addr, reg);
    After1(was, Store(0, 0, []), addr, reg);
    if !op.Open? && Live(bus, op.fd) {
      var i := Find(bus.slots, op.fd);
      if op.Rdwr? && Accepted(on, op.msgs) {
        MsgsStore(bus, i, op.msgs[..Faultless(op.msgs)], addr, reg);
      }
      var stores := Stores(on, bus, op);
      if (op.Write? || op.SmbusOp?) && stores != [] {
        After1(was, stores[0], addr, reg);
        assert stores == [stores[0]];
        WriteCell(bus.shadow, stores[0], addr, reg);
      }
    }
  }

  /** In every reachable state each register is the encoding of the last payload stored to it, or 0. */
  lemma {:induction false} ShadowHistory(on: set<Chip>, ops: seq<Op>, addr: int, reg: byte)
    requires 0 <= addr < 128
    ensures Cell(Run(on, ops).shadow, addr, reg)
         == match LastPayload(Log(on, ops), addr, reg) case None => 0 case Some(p) => Encode(p)
  {
    if ops != [] {
      var p := ops[..|ops| - 1];
      ShadowHistory(on, p, addr, reg);
      StepStores(on, Run(on, p), ops[|ops| - 1], addr, reg);
      AfterConcat(0, Log(on, p), Stores(on, Run(on, p), ops[|ops| - 1]), addr, reg);
    }
  }

  // ---- registers that only echo -------------------------------------------

  /** Registers whose two bytes are exactly what was written to them. */
  predicate Plain(c: Chip, reg: byte) {
    match c
    case Ina226 => reg == 0x06 || reg == 0x07
    case Pct2075 => reg == 0x02 || reg == 0x03
    case Mcp9808 => reg !in {0x05, 0x06, 0x07, 0x08}
    case _ => false
  }

  lemma PlainEchoes(c: Chip, vals: Readings, shadow: Shadow, reg: byte)
    requires Plain(c, reg)
    ensures ChipBytes(c, vals, shadow, reg, 2) == Be16(Cell(shadow, Addr(c), reg))
  {
  }

  /** Configuration and calibration echo what the driver wrote unless that was zero, which reads as the default. */
  lemma ConfigurationEchoesNonZero(vals: Readings, shadow: Shadow, reg: byte, hi: byte, lo: byte)
    requires reg == 0x00 || reg == 0x05
    ensures var read := ChipBytes(Ina226, vals, ChipWrite(shadow, 0x40, reg, [hi, lo]), reg, 2);
            && (read == [hi, lo] <==> hi != 0 || lo != 0)
            && (hi == 0 && lo == 0 ==> read == if reg == 0x00 then [0x41, 0x27] else [0x08, 0x00])
  {
    hide InaShunt, InaBus, InaPower, InaCurrent;
    WriteCell(shadow, Store(0x40, reg, [hi, lo]), 0x40, reg);
    var w := hi as int * 0x100 + lo as int;
    assert Encode([hi, lo]) == w;
    assert Be16(w) == [hi, lo];
    assert Be16(0x4127)[0] != 0 && Be16(2048)[0] != 0;
  }

  /** One-byte registers of the PCT2075: configuration echoes, the idle time echoes unless it was zero. */
  lemma SmallRegistersEcho(vals: Readings, shadow: Shadow, b: byte)
    ensures ChipBytes(Pct2075, vals, ChipWrite(shadow, 0x37, 0x01, [b]), 0x01, 1) == [b]
    ensures ChipBytes(Pct2075, vals, ChipWrite(shadow, 0x37, 0x04, [b]), 0x04, 1) == [if b != 0 then b else 1]
  {
    hide PctTemperature;
    WriteCell(shadow, Store(0x37, 0x01, [b]), 0x37, 0x01);
    WriteCell(shadow, Store(0x37, 0x04, [b]), 0x37, 0x04);
    assert Encode([b]) == b;
    assert [b][0] == b;
  }

  /** A descriptor whose pointer is void reads register 0. */
  lemma VoidPointerReadsZero(on: set<Chip>, vals: Readings, bus: Bus, fd: int, c: Chip, len: nat)
    requires Live(bus, fd) && !SlotOf(bus, fd).valid && ChipAt(on, SlotOf(bus, fd).addr) == Some(c)
    ensures ReadBytes(on, vals, bus, fd, len) == ChipBytes(c, vals, bus.shadow, 0, len)
  {
  }

  /** Two bytes written to a plain register are read back by any descriptor, until another payload replaces them. */
  lemma PlainReadBack(on: set<Chip>, vals: Readings, ops: seq<Op>, fd: int, c: Chip, hi: byte, lo: byte)
    requires Live(Run(on, ops), fd) && ChipAt(on, SlotOf(Run(on, ops), fd).addr) == Some(c)
    requires Plain(c, Pointer(SlotOf(Run(on, ops), fd)))
    requires LastPayload(Log(on, ops), Addr(c), Pointer(SlotOf(Run(on, ops), fd))) == Some([hi, lo])
    ensures ReadBytes(on, vals, Run(on, ops), fd, 2) == [hi, lo]
  {
    hide ChipBytes, Run, Log, Plain, LastPayload;
    var reg := Pointer(SlotOf(Run(on, ops), fd));
    ShadowHistory(on, ops, Addr(c), reg);
    PlainEchoes(c, vals, Run(on, ops).shadow, reg);
    assert Be16(Encode([hi, lo])) == [hi, lo];
  }

  // ---- the other registers -------------------------------------------------

  /** Registers that give back one byte written to them. */
  predicate ByteEcho(c: Chip, reg: byte) {
    match c
    case Pct2075 => reg == 0x01
    case Lps22 => reg !in {0x0F, 0x11, 0x27, 0x28, 0x2B}
    case Bmp280 => reg == 0xF4 || reg == 0xF5
    case _ => false
  }

  lemma EchoByte(c: Chip, vals: Readings, shadow: Shadow, reg: byte)
    requires ByteEcho(c, reg)
    ensures ChipBytes(c, vals, shadow, reg, 1) == [Cell(shadow, Addr(c), reg) % 0x100]
  {
    hide BmpPressureCount, BmpTemperatureCount;
  }

  /** One byte written to such a register is read back by any descriptor, until another payload replaces it. */
  lemma ByteReadBack(on: set<Chip>, vals: Readings, ops: seq<Op>, fd: int, c: Chip, b: byte)
    requires Live(Run(on, ops), fd) && ChipAt(on, SlotOf(Run(on, ops), fd).addr) == Some(c)
    requires ByteEcho(c, Pointer(SlotOf(Run(on, ops), fd)))
    requires LastPayload(Log(on, ops), Addr(c), Pointer(SlotOf(Run(on, ops), fd))) == Some([b])
    ensures ReadBytes(on, vals, Run(on, ops), fd, 1) == [b]
  {
    hide ChipBytes, Run, Log, ByteEcho, LastPayload;
    var reg := Pointer(SlotOf(Run(on, ops), fd));
    ShadowHistory(on, ops, Addr(c), reg);
    EchoByte(c, vals, Run(on, ops).shadow, reg);
    assert Encode([b]) == b;
  }

  /** Registers that keep part of what was written, or hold a constant. */
  lemma PartialRegisters(vals: Readings, shadow: Shadow, hi: byte, lo: byte)
    ensures ChipBytes(Mcp9808, vals, ChipWrite(shadow, 0x18, 0x08, [hi, lo]), 0x08, 2) == [0, lo % 4]
    ensures ChipBytes(Lps22, vals, ChipWrite(shadow, 0x5C, 0x11, [lo]), 0x11, 1)
         == [if lo / 4 % 2 == 1 then lo - 4 else lo]
    ensures ChipBytes(Lps22, vals, shadow, 0x27, 1) == [3]
    ensures ChipBytes(DfrobotRain, vals, shadow, 0x0A, 2) == [0x10, 0x00]
  {
    hide ChipBytes, ChipWrite;
    AlertMask(vals, shadow, hi, lo);
    ResetBit(vals, shadow, lo);
    Constants(vals, shadow);
  }

  lemma AlertMask(vals: Readings, shadow: Shadow, hi: byte, lo: byte)
    ensures ChipBytes(Mcp9808, vals, ChipWrite(shadow, 0x18, 0x08, [hi, lo]), 0x08, 2) == [0, lo % 4]
  {
    WriteCell(shadow, Store(0x18, 0x08, [hi, lo]), 0x18, 0x08);
    var w := hi as int * 0x100 + lo as int;
    assert Encode([hi, lo]) == w && w % 4 == lo % 4;
    hide ChipWrite, Encode, Cell;
  }

  lemma ResetBit(vals: Readings, shadow: Shadow, lo: byte)
    ensures ChipBytes(Lps22, vals, ChipWrite(shadow, 0x5C, 0x11, [lo]), 0x11, 1)
         == [if lo / 4 % 2 == 1 then lo - 4 else lo]
  {
    WriteCell(shadow, Store(0x5C, 0x11, [lo]), 0x5C, 0x11);
    assert Encode([lo]) == lo;
    hide ChipWrite, Encode, Cell, LpsTemperature, LpsPressure;
  }

  lemma Constants(vals: Readings, shadow: Shadow)
    ensures ChipBytes(Lps22, vals, shadow, 0x27, 1) == [3]
    ensures ChipBytes(DfrobotRain, vals, shadow, 0x0A, 2) == [0x10, 0x00]
  {
    hide RainCount, TotalRainCount, LpsTemperature, LpsPressure;
  }

  /** Registers nothing is behind. */
  predicate Unmapped(c: Chip, reg: byte) {
    match c
    case Pct2075 => reg > 0x04
    case Ina226 => 0x08 <= reg < 0xFE
    case DfrobotRain => reg !in {0x00, 0x0A, 0x0C, 0x10}
    case Bmp280 => reg !in {0x00, 0x89, 0x8B, 0x8E, 0x8F, 0xD0} && !(0xF4 <= reg <= 0xFC && reg != 0xF6)
    case _ => false
  }

  /** They read zero, whatever was written and whatever the file says. */
  lemma UnmappedReadsZero(c: Chip, vals: Readings, shadow: Shadow, reg: byte)
    requires Unmapped(c, reg)
    ensures ChipBytes(c, vals, shadow, reg, 1) == [0]
    ensures c != Bmp280 ==> ChipBytes(c, vals, shadow, reg, 2) == [0, 0]
  {
    hide BmpPressureCount, BmpTemperatureCount, InaShunt, InaBus, InaPower, InaCurrent, RainCount, TotalRainCount,
         PctTemperature;
  }

  lemma RainBytes(vals: Readings, shadow: Shadow)
    ensures ChipBytes(DfrobotRain, vals, shadow, 0x0C, 4)
         == Le32(RainCount(ValueOr(vals, if Cell(shadow, 0x1D, 0x26) % 0x100 > 1 then "rainfall_24h" else "rainfall_1h",
                                   0.0)))
  {
    hide RainCount, Cell;
  }

  /** The rain gauge answers for 24 hours exactly when the last payload to 0x26 encoded a number of hours above 1. */
  lemma RainWindow(on: set<Chip>, vals: Readings, ops: seq<Op>, fd: int)
    requires Live(Run(on, ops), fd) && ChipAt(on, SlotOf(Run(on, ops), fd).addr) == Some(DfrobotRain)
    requires Pointer(SlotOf(Run(on, ops), fd)) == 0x0C
    ensures var hours := match LastPayload(Log(on, ops), 0x1D, 0x26)
                         case None => 0
                         case Some(p) => if |p| == 0 then 0 else if |p| == 1 then p[0] else p[1];
            ReadBytes(on, vals, Run(on, ops), fd, 4)
              == Le32(RainCount(ValueOr(vals, if hours > 1 then "rainfall_24h" else "rainfall_1h", 0.0)))
  {
    hide ChipBytes, Run, Log, LastPayload, RainCount, Le32, Encode, Cell, ChipAt;
    ShadowHistory(on, ops, 0x1D, 0x26);
    RainBytes(vals, Run(on, ops).shadow);
    match LastPayload(Log(on, ops), 0x1D, 0x26) {
      case None =>
      case Some(p) => EncodedLow(p);
    }
  }

  lemma EncodedLow(p: seq<byte>)
    ensures Encode(p) % 0x100 == if |p| == 0 then 0 else if |p| == 1 then p[0] else p[1]
  {
  }

  // ---- SMBus words --------------------------------------------------------

  function Swap(w: word): word {
    w % 0x100 * 0x100 + w / 0x100
  }

  /** The request that writes a word to a register. */
  function WordWrite(reg: byte, w: word): (rq: Smbus)
    ensures rq.Request? && rq.data.Some?
  {
    Request(0, reg, WORD_DATA, Some(w))
  }

  /**
   * After any run in which the last payload of a plain register was a word written through SMBus, a word read of it
   * through SMBus, on any descriptor, brings the word with its bytes exchanged: the write stores the high byte first,
   * the read takes the low byte first. It is an echo exactly when the bytes are equal.
   */
  lemma SmbusWordSwapped(on: set<Chip>, vals: Readings, ops: seq<Op>, fd: int, c: Chip, reg: byte, w: word, was: word)
    requires Live(Run(on, ops), fd) && ChipAt(on, SlotOf(Run(on, ops), fd).addr) == Some(c) && Plain(c, reg)
    requires LastPayload(Log(on, ops), Addr(c), reg) == Some(SmbusPayload(WordWrite(reg, w)))
    ensures var bus := Run(on, ops);
            SmbusData(on, vals, bus, Find(bus.slots, fd), Request(1, reg, WORD_DATA, Some(was))) == Some(Swap(w))
    ensures Swap(w) == w <==> w / 0x100 == w % 0x100
  {
    hide ChipBytes, Run, Log, Plain, LastPayload;
    ShadowHistory(on, ops, Addr(c), reg);
    PlainEchoes(c, vals, Run(on, ops).shadow, reg);
    assert Encode(SmbusPayload(WordWrite(reg, w))) == w;
  }

  /** Such a write is a store of that payload to the selected chip, so it is the last one directly afterwards. */
  lemma SmbusWordStores(on: set<Chip>, ops: seq<Op>, fd: int, c: Chip, reg: byte, w: word)
    requires fd >= 0 && Live(Run(on, ops), fd) && ChipAt(on, SlotOf(Run(on, ops), fd).addr) == Some(c)
    ensures var more := ops + [SmbusOp(fd, WordWrite(reg, w))];
            LastPayload(Log(on, more), Addr(c), reg) == Some(SmbusPayload(WordWrite(reg, w)))
  {
    hide ChipAt, Run;
    var op := SmbusOp(fd, WordWrite(reg, w));
    assert (ops + [op])[..|ops|] == ops;
    var s := Store(Addr(c), reg, SmbusPayload(WordWrite(reg, w)));
    assert Stores(on, Run(on, ops), op) == [s];
    assert Log(on, ops + [op]) == Log(on, ops) + [s];
  }
}
