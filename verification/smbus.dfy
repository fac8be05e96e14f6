/** SMBus requests, size by size: 0 is quick, 1 byte, 2 byte data, 3 word data. */
module SmbusCalls {
  import opened Bits
  import opened Chips
  import opened Bus
  import opened History
  import opened Registers

  /** A quick command changes nothing: it only asks whether somebody answers. */
  lemma QuickChangesNothing(on: set<Chip>, vals: Readings, bus: Bus, fd: int, rw: byte, command: byte,
                            data: Option<word>)
    requires Live(bus, fd)
    ensures var rq := Request(rw, command, 0, data);
            Next(on, bus, SmbusOp(fd, rq)) == bus && SmbusData(on, vals, bus, Find(bus.slots, fd), rq) == data
  {
    hide ChipAt;
  }

  /** Neither does a read of any size, nor a write of data that points nowhere. */
  lemma ReadsChangeNothing(on: set<Chip>, bus: Bus, fd: int, rw: byte, command: byte, size: nat, data: Option<word>)
    requires Live(bus, fd) && (rw == 1 || (size >= 2 && data.None?))
    ensures Next(on, bus, SmbusOp(fd, Request(rw, command, size, data))) == bus
  {
    hide ChipAt;
  }

  /** A byte written sets the register pointer of its descriptor and stores nothing. */
  lemma ByteWritePoints(on: set<Chip>, bus: Bus, fd: int, rw: byte, command: byte, data: Option<word>)
    requires rw != 1 && Live(bus, fd) && ChipAt(on, SlotOf(bus, fd).addr).Some?
    ensures var next := Next(on, bus, SmbusOp(fd, Request(rw, command, 1, data)));
            && next.shadow == bus.shadow && Live(next, fd)
            && SlotOf(next, fd) == SlotOf(bus, fd).(reg := command, valid := true)
  {
    hide ChipAt;
    var next := Next(on, bus, SmbusOp(fd, Request(rw, command, 1, data)));
    var i := Find(bus.slots, fd);
    FindKeeps(bus.slots, i, next.slots[i], fd);
  }

  /** A write of byte or word data sets the pointer too, and is a store of its one or two bytes, the high one first. */
  lemma DataWriteStores(on: set<Chip>, ops: seq<Op>, fd: int, c: Chip, rw: byte, reg: byte, size: nat,
                        w: word)
    requires rw != 1 && fd >= 0 && Live(Run(on, ops), fd) && ChipAt(on, SlotOf(Run(on, ops), fd).addr) == Some(c)
    requires size >= 2
    ensures var more := ops + [SmbusOp(fd, Request(rw, reg, size, Some(w)))];
            && LastPayload(Log(on, more), Addr(c), reg)
               == Some(if size == 3 then [w / 0x100, w % 0x100] else [w % 0x100])
            && Live(Run(on, more), fd)
            && SlotOf(Run(on, more), fd) == SlotOf(Run(on, ops), fd).(reg := reg, valid := true)
  {
    hide ChipAt, Run, Log;
    var rq := Request(rw, reg, size, Some(w));
    var op := SmbusOp(fd, rq);
    LogMore(on, ops, op);
    var s := Store(Addr(c), reg, SmbusPayload(rq));
    assert Stores(on, Run(on, ops), op) == [s];
    assert Log(on, ops + [op])[|Log(on, ops + [op])| - 1] == s;
    var bus, next := Run(on, ops), Next(on, Run(on, ops), op);
    FindKeeps(bus.slots, Find(bus.slots, fd), next.slots[Find(bus.slots, fd)], fd);
  }

  lemma LogMore(on: set<Chip>, ops: seq<Op>, op: Op)
    ensures Run(on, ops + [op]) == Next(on, Run(on, ops), op)
    ensures Log(on, ops + [op]) == Log(on, ops) + Stores(on, Run(on, ops), op)
  {
    assert (ops + [op])[..|ops|] == ops;
  }

  /** What a read brings into the low half of the union, the high half keeping what it held. */
  function LowByte(was: word, b: byte): word {
    was / 0x100 * 0x100 + b
  }

  /**
   * The PCT2075's configuration byte: over any run, while it is the last payload stored there, byte data read from the
   * register brings it, and so does a byte read while the pointer is there, whatever the request's command.
   */
  lemma ByteEchoes(on: set<Chip>, vals: Readings, ops: seq<Op>, fd: int, b: byte, command: byte, was: word)
    requires Live(Run(on, ops), fd) && ChipAt(on, SlotOf(Run(on, ops), fd).addr) == Some(Pct2075)
    requires LastPayload(Log(on, ops), 0x37, 0x01) == Some([b])
    ensures var bus := Run(on, ops);
            var i := Find(bus.slots, fd);
            && SmbusData(on, vals, bus, i, Request(1, 0x01, 2, Some(was))) == Some(LowByte(was, b))
            && (Pointer(SlotOf(bus, fd)) == 0x01 ==>
                  SmbusData(on, vals, bus, i, Request(1, command, 1, Some(was))) == Some(LowByte(was, b)))
    ensures LowByte(was, b) % 0x100 == b && LowByte(was, b) / 0x100 == was / 0x100
  {
    hide Run, Log, LastPayload, ChipBytes, ChipAt;
    ShadowHistory(on, ops, 0x37, 0x01);
    ConfigurationByte(vals, Run(on, ops).shadow, b);
  }

  lemma ConfigurationByte(vals: Readings, shadow: Shadow, b: byte)
    requires Cell(shadow, 0x37, 0x01) == Encode([b])
    ensures ChipBytes(Pct2075, vals, shadow, 0x01, 2)[0] == b
  {
  }
}
