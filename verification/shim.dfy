/** The shim: the slot table and the shadow registers, updated in place by the intercepted calls. */
module FakeBus {
  import opened Bits
  import opened Chips
  import opened Bus
  import opened Models

  /** The requests other than selecting, transferring and SMBus. */
  datatype Ioctl = Functions | BytesWaiting | TenBit | Pec | Unknown

  class Shim {
    const on: set<Chip>
    var files: Files
    const slots: array<Slot>
    const shadow: array<word>

    ghost predicate Valid()
    {
      slots.Length == MAX_SLOTS && shadow.Length == CELLS
    }

    /** The state the system-call specifications speak of. */
    ghost function State(): (b: Bus)
      requires Valid()
      reads slots, shadow
      ensures |b.slots| == MAX_SLOTS
    {
      Bus(slots[..], shadow[..])
    }

    constructor (on: set<Chip>, files: Files)
      ensures Valid() && fresh(slots) && fresh(shadow)
      ensures this.on == on && this.files == files
      ensures State() == Init()
    {
      this.on, this.files := on, files;
      slots := new Slot[MAX_SLOTS](_ => Slot(-1, 0, 0, false));
      shadow := new word[CELLS](_ => 0);
    }

    /** Another process rewrites the values file; the bus itself is not touched. */
    method FileRewritten()
      modifies `files
    {
      files := *;
    }

    method SlotFind(fd: int) returns (i: nat)
      requires Valid()
      ensures i == Find(slots[..], fd)
    {
      i := 0;
      while i < MAX_SLOTS && slots[i].fd != fd
        invariant i <= MAX_SLOTS
        invariant forall k :: 0 <= k < i ==> slots[k].fd != fd
      {
        i := i + 1;
      }
      FindIs(slots[..], fd, i);
    }

    /** `fake_open`, given the descriptor the kernel returned: takes the first free slot. */
    method FakeOpen(fd: nat) returns (r: Reply)
      requires Valid()
      modifies slots
      ensures State() == Next(on, old(State()), Open(fd))
      ensures r == Answer(on, old(State()), Open(fd))
      ensures r.Done? || r == Fail(ENFILE)
      ensures r.Done? ==> r.n == fd && Live(State(), r.n)
      ensures r.Done? && !Live(old(State()), fd) ==> SlotOf(State(), fd).addr == -1 && !SlotOf(State(), fd).valid
      ensures r.Fail? <==> forall i :: 0 <= i < 32 ==> old(slots[i]).fd != -1
      ensures r.Fail? ==> State() == old(State())
    {
      var i := SlotFind(-1);
      if i == MAX_SLOTS {
        return Fail(ENFILE);
      }
      slots[i] := Slot(fd, -1, 0, false);
      assert slots[..] == old(slots[..])[i := Slot(fd, -1, 0, false)];
      if !Live(old(State()), fd) {
        FindIs(slots[..], fd, i);
      }
      r := Done(fd);
    }

    method CloseFd(fd: int) returns (r: Reply)
      requires Valid()
      modifies slots
      ensures State() == Next(on, old(State()), Close(fd))
      ensures r == Answer(on, old(State()), Close(fd))
      ensures r == if Live(old(State()), fd) then Done(0) else NotOurs
      ensures r == NotOurs ==> State() == old(State())
    {
      var i := SlotFind(fd);
      if i == MAX_SLOTS {
        return NotOurs;
      }
      slots[i] := slots[i].(fd := -1);
      assert slots[..] == old(slots[..])[i := old(slots[i]).(fd := -1)];
      r := Done(0);
    }

    /** `shim_read`: the chip's answer from the register pointer, at most 64 bytes. */
    method ReadFd(fd: int, buf: array<byte>, len: nat) returns (r: Reply)
      requires Valid() && buf.Length >= if len > MAX_READ then MAX_READ else len
      requires buf as object != slots as object && buf as object != shadow as object
      modifies buf
      ensures State() == old(State()) == Next(on, old(State()), Read(fd, len))
      ensures r == Answer(on, old(State()), Read(fd, len))
      ensures r == NotOurs <==> !Live(old(State()), fd)
      ensures r.Fail? ==> r == Fail(ENXIO)
      ensures Live(old(State()), fd) ==> (r.Done? <==> ChipAt(on, SlotOf(old(State()), fd).addr).Some?)
      ensures r.Done? ==> r.n == if len > 64 then 64 else len
      ensures r.Done? ==> r.n <= buf.Length
                          && buf[..r.n] == ReadBytes(on, ReadingsOf(files), old(State()), fd, len)
      ensures forall k :: (if r.Done? then r.n else 0) <= k < buf.Length ==> buf[k] == old(buf[k])
    {
      hide ReadingsOf, ChipBytes, ChipAt;
      var i := SlotFind(fd);
      if i == MAX_SLOTS {
        return NotOurs;
      }
      var addr := slots[i].addr;
      var reg := if slots[i].valid then slots[i].reg else 0x00;
      var c := FindChip(on, addr);
      if c.None? {
        return Fail(ENXIO);
      }
      var n := ChipRead(on, files, shadow[..], addr, reg, buf, len);
      r := Done(n);
    }

    /** `write`: the first byte is the register pointer, the rest goes to the register it points to. */
    method WriteFd(fd: int, data: seq<byte>) returns (r: Reply)
      requires Valid()
      modifies slots, shadow
      ensures State() == Next(on, old(State()), Write(fd, data))
      ensures r == Answer(on, old(State()), Write(fd, data))
      ensures r == NotOurs <==> !Live(old(State()), fd)
      ensures r.Fail? ==> r == Fail(ENXIO)
      ensures Live(old(State()), fd) ==> (r.Done? <==> ChipAt(on, SlotOf(old(State()), fd).addr).Some?)
      ensures r.Done? ==> r.n == |data|
    {
      hide ChipAt;
      var i := SlotFind(fd);
      if i == MAX_SLOTS {
        return NotOurs;
      }
      var c := FindChip(on, slots[i].addr);
      if c.None? {
        return Fail(ENXIO);
      }
      if |data| >= 1 {
        Arrive(i, slots[i].addr, data);
      }
      r := Done(|data|);
    }

    /** The shared body of a write and a write message. */
    method Arrive(i: nat, addr: int, data: seq<byte>)
      requires Valid() && i < MAX_SLOTS && |data| >= 1
      modifies slots, shadow
      ensures State() == Deliver(old(State()), i, addr, data)
    {
      slots[i] := slots[i].(reg := data[0], valid := true);
      assert slots[..] == old(slots[..])[i := old(slots[i]).(reg := data[0], valid := true)];
      if |data| > 1 {
        StoreRegister(addr, data[0], data[1..]);
      }
    }

    /** `chip_write`. */
    method StoreRegister(addr: int, reg: byte, data: seq<byte>)
      requires Valid()
      modifies shadow
      ensures shadow[..] == ChipWrite(old(shadow[..]), addr, reg, data)
    {
      if addr < 0 || addr > 127 {
        return;
      }
      var v: word := 0;
      if |data| >= 2 {
        v := data[0] as int * 0x100 + data[1] as int;
      } else if |data| == 1 {
        v := data[0];
      }
      shadow[Index(addr, reg)] := v;
    }

    /** `ioctl(I2C_SLAVE)`: only a change of target forgets the register pointer. */
    method SelectFd(fd: int, addr: int) returns (r: Reply)
      requires Valid()
      modifies slots
      ensures State() == Next(on, old(State()), Select(fd, addr))
      ensures r == Answer(on, old(State()), Select(fd, addr))
      ensures Live(old(State()), fd) ==> r == if ChipAt(on, addr).Some? then Done(0) else Fail(ENXIO)
      ensures !Live(old(State()), fd) ==> r == NotOurs
      ensures Live(old(State()), fd) ==> Live(State(), fd) && SlotOf(State(), fd).addr == addr
    {
      hide ChipAt;
      var i := SlotFind(fd);
      if i == MAX_SLOTS {
        return NotOurs;
      }
      if addr != slots[i].addr {
        slots[i] := slots[i].(valid := false);
      }
      slots[i] := slots[i].(addr := addr);
      assert State() == Retarget(old(State()), i, addr) by {
        assert slots[..] == old(slots[..])[i := slots[i]];
      }
      var c := FindChip(on, addr);
      r := if c.None? then Fail(ENXIO) else Done(0);
    }

    method AllOnBus(msgs: seq<Message>) returns (all: bool)
      ensures all <==> AllEmulated(on, msgs)
    {
      hide ChipAt;
      for k := 0 to |msgs|
        invariant forall j :: 0 <= j < k ==> ChipAt(on, msgs[j].addr).Some?
      {
        var c := FindChip(on, msgs[k].addr);
        if c.None? {
          return false;
        }
      }
      all := true;
    }

    /** One read message: the chip's answer into a copy of the message's buffer. */
    method FillMessage(i: nat, reg: byte, m: Message) returns (after: Message)
      requires Valid() && i < MAX_SLOTS && reg == Pointer(slots[i])
      requires m.read && m.buf.Some? && ChipAt(on, m.addr).Some?
      ensures after == Filled(on, ReadingsOf(files), State(), i, m)
    {
      hide ReadingsOf, ChipBytes, ChipAt;
      var was := m.buf.value;
      var b := new byte[m.len](j requires 0 <= j < |was| => was[j]);
      var n := ChipRead(on, files, shadow[..], m.addr, reg, b, m.len);
      assert b[..] == b[..n] + was[n..];
      after := m.(buf := Some(b[..]));
    }

    /** One message of a transfer, answered from the pointer `reg`; a write message moves the pointer. */
    method HandleMessage(i: nat, reg: byte, m: Message) returns (next: byte, after: Message)
      requires Valid() && i < MAX_SLOTS && reg == Pointer(slots[i])
      requires !m.Faulty() && ChipAt(on, m.addr).Some?
      modifies slots, shadow
      ensures State() == AfterMsg(old(State()), i, m)
      ensures next == Pointer(slots[i])
      ensures after == Filled(on, ReadingsOf(files), old(State()), i, m)
    {
      hide ReadingsOf, ChipBytes, ChipAt;
      next, after := reg, m;
      if m.read {
        if m.buf.Some? {
          after := FillMessage(i, reg, m);
        }
      } else if m.len >= 1 {
        next := m.buf.value[0];
        Arrive(i, m.addr, m.buf.value);
      }
    }

    /** `do_rdwr`: nothing happens unless every message is to an emulated chip; then they run in order. */
    method RdwrFd(fd: int, msgs: seq<Message>) returns (r: Reply, after: seq<Message>)
      requires Valid()
      modifies slots, shadow
      ensures State() == Next(on, old(State()), Rdwr(fd, msgs))
      ensures r == Answer(on, old(State()), Rdwr(fd, msgs))
      ensures r == NotOurs <==> !Live(old(State()), fd)
      ensures r != NotOurs ==> (r == Fail(EINVAL) <==> |msgs| == 0 || |msgs| > 8)
      ensures r != NotOurs && 0 < |msgs| <= 8 ==>
                && (r == Fail(ENXIO) <==> exists k :: 0 <= k < |msgs| && ChipAt(on, msgs[k].addr).None?)
                && (r.Done? <==> forall k :: 0 <= k < |msgs| ==> ChipAt(on, msgs[k].addr).Some? && !msgs[k].Faulty())
                && (r.Done? ==> r.n == |msgs|)
      ensures after == if Live(old(State()), fd)
                       then RdwrBuffers(on, ReadingsOf(files), old(State()), Find(old(slots[..]), fd), msgs) else msgs
    {
      hide ReadingsOf, ChipAt, FilledAll, AfterMsgs;
      after := msgs;
      var i := SlotFind(fd);
      if i == MAX_SLOTS {
        return NotOurs, msgs;
      }
      if |msgs| == 0 || |msgs| > 8 {
        return Fail(EINVAL), msgs;
      }
      var all := AllOnBus(msgs);
      if !all {
        return Fail(ENXIO), msgs;
      }
      r, after := RunTransfer(i, msgs);
    }

    /** The messages of an accepted transfer, in order, up to the first whose buffer is missing. */
    method RunTransfer(i: nat, msgs: seq<Message>) returns (r: Reply, after: seq<Message>)
      requires Valid() && i < MAX_SLOTS && AllEmulated(on, msgs)
      modifies slots, shadow
      ensures State() == AfterMsgs(old(State()), i, msgs[..Faultless(msgs)])
      ensures r == if Faultless(msgs) < |msgs| then Fail(EFAULT) else Done(|msgs|)
      ensures after == FilledAll(on, ReadingsOf(files), old(State()), i, msgs)
    {
      hide ReadingsOf, ChipAt, Filled, AfterMsg;
      after := msgs;
      var reg := if slots[i].valid then slots[i].reg else 0x00;
      ghost var before, vals := State(), ReadingsOf(files);
      ghost var stop := Faultless(msgs);
      var k := 0;
      while k < |msgs| && !(msgs[k].buf.None? && msgs[k].len > 0)
        invariant 0 <= k <= stop && |after| == |msgs|
        invariant State() == AfterMsgs(before, i, msgs[..k])
        invariant reg == Pointer(slots[i])
        invariant forall j :: 0 <= j < k ==>
                    after[j] == Filled(on, vals, AfterMsgs(before, i, msgs[..j]), i, msgs[j])
        invariant forall j :: k <= j < |msgs| ==> after[j] == msgs[j]
      {
        assert msgs[..k + 1][..k] == msgs[..k];
        var filled: Message;
        reg, filled := HandleMessage(i, reg, msgs[k]);
        after := after[k := filled];
        k := k + 1;
      }
      assert k == stop;
      r := if k < |msgs| then Fail(EFAULT) else Done(|msgs|);
    }

    /**
     * Any other request on a fake descriptor succeeds and changes no state; two of them also store an answer where
     * their argument points, if it points anywhere.
     */
    method OtherIoctlFd(fd: int, request: Ioctl, pointed: bool := true) returns (r: Reply, out: Option<nat>)
      requires Valid()
      ensures State() == Next(on, State(), OtherIoctl(fd))
      ensures r == Answer(on, State(), OtherIoctl(fd))
      ensures r == if Live(State(), fd) then Done(0) else NotOurs
      ensures out == if !Live(State(), fd) || !pointed then None
                     else match request case Functions => Some(0x7F_0001) case BytesWaiting => Some(0) case _ => None
    {
      out := None;
      var i := SlotFind(fd);
      if i == MAX_SLOTS {
        return NotOurs, None;
      }
      if request == Functions && pointed {
        out := Some(0x01 + 0x1_0000 + 0x2_0000 + 0x4_0000 + 0x8_0000 + 0x10_0000 + 0x20_0000 + 0x40_0000);
      } else if request == BytesWaiting && pointed {
        out := Some(0);
      }
      r := Done(0);
    }

    /** `do_smbus`. */
    method SmbusFd(fd: int, rq: Smbus) returns (r: Reply, data: Option<word>)
      requires Valid()
      modifies slots, shadow
      ensures State() == Next(on, old(State()), SmbusOp(fd, rq))
      ensures r == Answer(on, old(State()), SmbusOp(fd, rq))
      ensures r == NotOurs <==> !Live(old(State()), fd)
      ensures r.Done? ==> r.n == 0
      ensures Live(old(State()), fd) ==>
                var addressed := ChipAt(on, SlotOf(old(State()), fd).addr).Some?;
                && (r == Fail(ENXIO) <==> !addressed)
                && (r == Fail(EINVAL) <==>
                      addressed && (rq.NoRequest? || (rq.size != 0 && rq.rw == 1 && rq.data.None?)))
                && (r.Fail? ==> r.errno in {ENXIO, EINVAL})
      ensures Live(old(State()), fd) ==>
                data == SmbusData(on, ReadingsOf(files), old(State()), Find(old(slots[..]), fd), rq)
    {
      hide ReadingsOf, ChipBytes, ChipAt;
      data := if rq.NoRequest? then None else rq.data;
      var i := SlotFind(fd);
      if i == MAX_SLOTS {
        return NotOurs, data;
      }
      var c := FindChip(on, slots[i].addr);
      if c.None? {
        return Fail(ENXIO), data;
      }
      if rq.NoRequest? {
        return Fail(EINVAL), data;
      }
      if rq.size == QUICK {
        return Done(0), data;
      }
      if rq.rw == 1 {
        if data.None? {
          return Fail(EINVAL), data;
        }
        var tmp := new byte[2](_ => 0);
        var reg := if rq.size == BYTE then (if slots[i].valid then slots[i].reg else 0) else rq.command;
        var n := ChipRead(on, files, shadow[..], slots[i].addr, reg, tmp, 2);
        assert tmp[..2][0] == tmp[0] && tmp[..2][1] == tmp[1];
        if rq.size == WORD_DATA {
          data := Some(tmp[1] as int * 0x100 + tmp[0] as int);
        } else {
          data := Some(data.value / 0x100 * 0x100 + tmp[0]);
        }
        return Done(0), data;
      }
      if rq.size == BYTE {
        slots[i] := slots[i].(reg := rq.command, valid := true);
        assert slots[..] == old(slots[..])[i := slots[i]];
      } else if data.Some? {
        var w := data.value;
        StoreRegister(slots[i].addr, rq.command, if rq.size == WORD_DATA then [w / 0x100, w % 0x100] else [w % 0x100]);
        slots[i] := slots[i].(reg := rq.command, valid := true);
        assert slots[..] == old(slots[..])[i := slots[i]];
      }
      r := Done(0);
    }
  }
}
