/** The bus as values: descriptor slots, the shadow registers, and what each system call does to them. */
module Bus {
  import opened Bits
  import opened Chips

  const MAX_SLOTS: nat := 32

  /** One opened descriptor: its target address (-1 before the first), and the register pointer last written. */
  datatype Slot = Slot(fd: int, addr: int, reg: byte, valid: bool)

  datatype Bus = Bus(slots: seq<Slot>, shadow: Shadow)

  datatype Errno = ENXIO | EINVAL | EFAULT | ENFILE

  /** What a call returns: a count, an error, or nothing because the descriptor is not the shim's. */
  datatype Reply = NotOurs | Fail(errno: Errno) | Done(n: nat)

  /** One message of a combined transfer. A null buffer is `None`; a read message's buffer is what it held before. */
  datatype Msg = Msg(addr: word, read: bool, len: word, buf: Option<seq<byte>>)
  {
    predicate Valid() {
      buf.Some? ==> |buf.value| == len
    }

    predicate Faulty() {
      buf.None? && len > 0
    }
  }

  type Message = m: Msg | m.Valid() witness Msg(0, false, 0, None)

  const QUICK: nat := 0
  const BYTE: nat := 1
  const WORD_DATA: nat := 3

  /** An SMBus request; `data` is the union it points to, the byte member being the low half of the word. */
  datatype Smbus = NoRequest | Request(rw: byte, command: byte, size: nat, data: Option<word>)

  datatype Op =
    | Open(fd: int)
    | Close(fd: int)
    | Select(fd: int, addr: int)
    | Write(fd: int, data: seq<byte>)
    | Read(fd: int, len: nat)
    | Rdwr(fd: int, msgs: seq<Message>)
    | SmbusOp(fd: int, rq: Smbus)
    | OtherIoctl(fd: int)

  // ---- slots --------------------------------------------------------------

  function FindFrom(slots: seq<Slot>, start: nat, fd: int): (i: nat)
    requires start <= |slots|
    ensures start <= i <= |slots|
    ensures i < |slots| ==> slots[i].fd == fd
    ensures forall k :: start <= k < i ==> slots[k].fd != fd
    decreases |slots| - start
  {
    if start == |slots| || slots[start].fd == fd then start else FindFrom(slots, start + 1, fd)
  }

  /** The first slot of a descriptor, or the number of slots. */
  function Find(slots: seq<Slot>, fd: int): (i: nat)
    ensures i <= |slots|
    ensures i < |slots| ==> slots[i].fd == fd
    ensures forall k :: 0 <= k < i ==> slots[k].fd != fd
  {
    FindFrom(slots, 0, fd)
  }

  /** The contract of `Find` has only one solution. */
  lemma FindIs(slots: seq<Slot>, fd: int, i: nat)
    requires i <= |slots|
    requires i < |slots| ==> slots[i].fd == fd
    requires forall k :: 0 <= k < i ==> slots[k].fd != fd
    ensures Find(slots, fd) == i
  {
    var j := Find(slots, fd);
    assert i < |slots| ==> j <= i;
  }

  predicate Live(bus: Bus, fd: int) {
    Find(bus.slots, fd) < |bus.slots|
  }

  function SlotOf(bus: Bus, fd: int): (s: Slot)
    requires Live(bus, fd)
    ensures s.fd == fd && s in bus.slots
  {
    bus.slots[Find(bus.slots, fd)]
  }

  /** Descriptors are never negative, and no two slots share one. */
  predicate Distinct(slots: seq<Slot>) {
    forall i, j :: 0 <= i < j < |slots| && slots[i].fd >= 0 ==> slots[i].fd != slots[j].fd
  }

  predicate Valid(bus: Bus) {
    |bus.slots| == MAX_SLOTS && Distinct(bus.slots)
  }

  function Init(): Bus {
    Bus(seq(MAX_SLOTS, _ => Slot(-1, 0, 0, false)), seq(CELLS, _ => 0))
  }

  /** The register a read answers from. */
  function Pointer(s: Slot): byte {
    if s.valid then s.reg else 0
  }

  // ---- effects ------------------------------------------------------------

  /** What `chip_write` keeps of a payload: its first two bytes as a word, or its only byte. */
  function Encode(data: seq<byte>): word {
    if |data| >= 2 then data[0] as int * 0x100 + data[1] as int else if |data| == 1 then data[0] else 0
  }

  function ChipWrite(shadow: Shadow, addr: int, reg: byte, data: seq<byte>): Shadow {
    if 0 <= addr < 128 then shadow[Index(addr, reg) := Encode(data)] else shadow
  }

  function PointTo(bus: Bus, i: nat, reg: byte): Bus
    requires i < |bus.slots|
  {
    bus.(slots := bus.slots[i := bus.slots[i].(reg := reg, valid := true)])
  }

  /** A register byte and what follows it, arriving at an address. */
  function Deliver(bus: Bus, i: nat, addr: int, data: seq<byte>): Bus
    requires i < |bus.slots| && |data| > 0
  {
    var b := PointTo(bus, i, data[0]);
    if |data| > 1 then b.(shadow := ChipWrite(b.shadow, addr, data[0], data[1..])) else b
  }

  function Retarget(bus: Bus, i: nat, addr: int): Bus
    requires i < |bus.slots|
  {
    var s := bus.slots[i];
    bus.(slots := bus.slots[i := s.(addr := addr, valid := s.valid && addr == s.addr)])
  }

  // ---- combined transfers -------------------------------------------------

  predicate AllEmulated(on: set<Chip>, msgs: seq<Message>) {
    forall k :: 0 <= k < |msgs| ==> ChipAt(on, msgs[k].addr).Some?
  }

  /** How many messages come before the first with a missing buffer. */
  function Faultless(msgs: seq<Message>): (n: nat)
    ensures n <= |msgs|
    ensures forall k :: 0 <= k < n ==> !msgs[k].Faulty()
    ensures n < |msgs| ==> msgs[n].Faulty()
  {
    if msgs == [] then 0
    else
      var n := Faultless(msgs[..|msgs| - 1]);
      if n < |msgs| - 1 || msgs[|msgs| - 1].Faulty() then n else |msgs|
  }

  function AfterMsg(bus: Bus, i: nat, m: Message): Bus
    requires i < |bus.slots| && !m.Faulty()
  {
    if m.read || m.len == 0 then bus else Deliver(bus, i, m.addr, m.buf.value)
  }

  /** The state after messages that all have their buffers, one by one. */
  function AfterMsgs(bus: Bus, i: nat, msgs: seq<Message>): (b: Bus)
    requires i < |bus.slots|
    requires forall k :: 0 <= k < |msgs| ==> !msgs[k].Faulty()
    ensures |b.slots| == |bus.slots|
  {
    if msgs == [] then bus else AfterMsg(AfterMsgs(bus, i, msgs[..|msgs| - 1]), i, msgs[|msgs| - 1])
  }

  /** A message after it was handled: a read message's buffer begins with the chip's answer. */
  function Filled(on: set<Chip>, vals: Readings, bus: Bus, i: nat, m: Message): Message
    requires i < |bus.slots| && !m.Faulty() && ChipAt(on, m.addr).Some?
  {
    if !m.read || m.buf.None? then m
    else
      var bytes := ChipBytes(ChipAt(on, m.addr).value, vals, bus.shadow, Pointer(bus.slots[i]), m.len);
      m.(buf := Some(bytes + m.buf.value[|bytes|..]))
  }

  /** Every message after a transfer; those from the first missing buffer on are not touched. */
  function FilledAll(on: set<Chip>, vals: Readings, bus: Bus, i: nat, msgs: seq<Message>): (r: seq<Message>)
    requires i < |bus.slots| && AllEmulated(on, msgs)
    ensures |r| == |msgs|
    ensures forall k :: 0 <= k < |msgs| ==>
              r[k] == if k < Faultless(msgs) then Filled(on, vals, AfterMsgs(bus, i, msgs[..k]), i, msgs[k]) else msgs[k]
  {
    seq(|msgs|, k requires 0 <= k < |msgs| =>
      if k < Faultless(msgs) then Filled(on, vals, AfterMsgs(bus, i, msgs[..k]), i, msgs[k]) else msgs[k])
  }

  /** Whether a transfer is attempted at all: one to eight messages, every one to an emulated chip. */
  predicate Accepted(on: set<Chip>, msgs: seq<Message>) {
    0 < |msgs| <= 8 && AllEmulated(on, msgs)
  }

  function RdwrNext(on: set<Chip>, bus: Bus, i: nat, msgs: seq<Message>): Bus
    requires i < |bus.slots|
  {
    if Accepted(on, msgs) then AfterMsgs(bus, i, msgs[..Faultless(msgs)]) else bus
  }

  function RdwrReply(on: set<Chip>, msgs: seq<Message>): Reply {
    if !(0 < |msgs| <= 8) then Fail(EINVAL)
    else if !AllEmulated(on, msgs) then Fail(ENXIO)
    else if Faultless(msgs) < |msgs| then Fail(EFAULT)
    else Done(|msgs|)
  }

  function RdwrBuffers(on: set<Chip>, vals: Readings, bus: Bus, i: nat, msgs: seq<Message>): (r: seq<Message>)
    requires i < |bus.slots|
    ensures |r| == |msgs|
  {
    if Accepted(on, msgs) then FilledAll(on, vals, bus, i, msgs) else msgs
  }

  // ---- SMBus --------------------------------------------------------------

  function SmbusPayload(rq: Smbus): seq<byte>
    requires rq.Request? && rq.data.Some?
  {
    var w := rq.data.value;
    if rq.size == WORD_DATA then [w / 0x100, w % 0x100] else [w % 0x100]
  }

  function SmbusNext(on: set<Chip>, bus: Bus, i: nat, rq: Smbus): Bus
    requires i < |bus.slots|
  {
    if ChipAt(on, bus.slots[i].addr).None? || rq.NoRequest? || rq.size == QUICK || rq.rw == 1 then bus
    else if rq.size == BYTE then PointTo(bus, i, rq.command)
    else if rq.data.Some? then
      PointTo(bus.(shadow := ChipWrite(bus.shadow, bus.slots[i].addr, rq.command, SmbusPayload(rq))), i, rq.command)
    else bus
  }

  function SmbusReply(on: set<Chip>, bus: Bus, i: nat, rq: Smbus): Reply
    requires i < |bus.slots|
  {
    if ChipAt(on, bus.slots[i].addr).None? then Fail(ENXIO)
    else if rq.NoRequest? then Fail(EINVAL)
    else if rq.size != QUICK && rq.rw == 1 && rq.data.None? then Fail(EINVAL)
    else Done(0)
  }

  /** The request's union afterwards. */
  function SmbusData(on: set<Chip>, vals: Readings, bus: Bus, i: nat, rq: Smbus): Option<word>
    requires i < |bus.slots|
  {
    var c := ChipAt(on, bus.slots[i].addr);
    if rq.NoRequest? then None
    else if c.None? || rq.size == QUICK || rq.rw != 1 || rq.data.None? then rq.data
    else
      var reg := if rq.size == BYTE then Pointer(bus.slots[i]) else rq.command;
      var b := ChipBytes(c.value, vals, bus.shadow, reg, 2);
      if rq.size == WORD_DATA then Some(b[1] as int * 0x100 + b[0] as int)
      else Some(rq.data.value / 0x100 * 0x100 + b[0])
  }

  // ---- every call ---------------------------------------------------------

  /** What a call does to the state. An `Open` carries the descriptor the kernel gave it. */
  function Next(on: set<Chip>, bus: Bus, op: Op): Bus {
    if op.Open? then
      var i := Find(bus.slots, -1);
      if i == |bus.slots| then bus else bus.(slots := bus.slots[i := Slot(op.fd, -1, 0, false)])
    else
      var i := Find(bus.slots, op.fd);
      if i == |bus.slots| then bus
      else
        match op
        case Close(_) => bus.(slots := bus.slots[i := bus.slots[i].(fd := -1)])
        case Select(_, addr) => Retarget(bus, i, addr)
        case Write(_, data) =>
          if ChipAt(on, bus.slots[i].addr).Some? && |data| > 0 then Deliver(bus, i, bus.slots[i].addr, data) else bus
        case Rdwr(_, msgs) => RdwrNext(on, bus, i, msgs)
        case SmbusOp(_, rq) => SmbusNext(on, bus, i, rq)
        case _ => bus
  }

  function Answer(on: set<Chip>, bus: Bus, op: Op): Reply {
    if op.Open? then if Live(bus, -1) then Done(if op.fd < 0 then 0 else op.fd) else Fail(ENFILE)
    else if !Live(bus, op.fd) then NotOurs
    else
      var i := Find(bus.slots, op.fd);
      var emulated := ChipAt(on, bus.slots[i].addr).Some?;
      match op
      case Select(_, addr) => if ChipAt(on, addr).Some? then Done(0) else Fail(ENXIO)
      case Write(_, data) => if emulated then Done(|data|) else Fail(ENXIO)
      case Read(_, len) => if emulated then Done(if len > MAX_READ then MAX_READ else len) else Fail(ENXIO)
      case Rdwr(_, msgs) => RdwrReply(on, msgs)
      case SmbusOp(_, rq) => SmbusReply(on, bus, i, rq)
      case _ => Done(0)
  }

  /** The bytes a bare `read` brings back. */
  function ReadBytes(on: set<Chip>, vals: Readings, bus: Bus, fd: int, len: nat): seq<byte>
    requires Live(bus, fd)
  {
    var s := SlotOf(bus, fd);
    var c := ChipAt(on, s.addr);
    if c.None? then [] else ChipBytes(c.value, vals, bus.shadow, Pointer(s), len)
  }
}
