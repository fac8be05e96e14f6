/** The Linux I2C layer the firmware runs on: one transmit buffer, one receive buffer, and the calls made for them. */
module Wire {
  import opened Bits
  import opened Chips
  import opened Bus
  import opened History
  import opened Paths
  import opened Models
  import opened FakeBus

  const WIRE_BUFFER: nat := 1000

  class Portduino {
    const shim: Shim
    const fd: int
    const tx: array<byte>
    const rx: array<byte>
    var requested: nat
    var rxLen: nat
    var rxIndex: nat

    /** The receive indices stay ordered and inside the buffer; the descriptor is one of the shim's. */
    ghost predicate Valid()
      reads this, shim.slots, shim.shadow
    {
      && shim.Valid() && Live(shim.State(), fd)
      && tx.Length == rx.Length == WIRE_BUFFER
      && requested <= WIRE_BUFFER && rxIndex <= rxLen <= WIRE_BUFFER
      && tx != rx
      && tx as object != shim.slots as object && tx as object != shim.shadow as object
      && rx as object != shim.slots as object && rx as object != shim.shadow as object
      && shim.slots as object != shim.shadow as object
    }

    /** The layer as it starts, on a descriptor the shim has opened. */
    constructor (shim: Shim, fd: int)
      requires shim.Valid() && Live(shim.State(), fd)
      requires shim.slots as object != shim.shadow as object
      ensures Valid() && fresh(tx) && fresh(rx) && this.shim == shim && this.fd == fd
      ensures Pending() == [] && Queue() == []
    {
      this.shim, this.fd := shim, fd;
      tx, rx := new byte[WIRE_BUFFER](_ => 0), new byte[WIRE_BUFFER](_ => 0);
      requested, rxLen, rxIndex := 0, 0, 0;
    }

    ghost function State(): Bus
      requires shim.Valid()
      reads shim.slots, shim.shadow
    {
      shim.State()
    }

    /** The bytes received and not yet taken. */
    ghost function Queue(): (q: seq<byte>)
      requires Valid()
      reads this, rx, shim.slots, shim.shadow
      ensures |q| == rxLen - rxIndex
    {
      rx[rxIndex..rxLen]
    }

    /** The bytes waiting to be sent. */
    ghost function Pending(): (p: seq<byte>)
      requires Valid()
      reads this, tx, shim.slots, shim.shadow
      ensures |p| == requested
    {
      tx[..requested]
    }

    method BeginTransmission(addr: byte)
      requires Valid()
      modifies `requested, shim.slots
      ensures Valid() && State() == Begun(old(State()), fd, addr)
      ensures Pending() == [] && Queue() == old(Queue())
    {
      BegunSlot(State(), fd, addr);
      var r := shim.SelectFd(fd, addr);
      requested := 0;
    }

    method W8(v: byte)
      requires Valid() && requested < WIRE_BUFFER
      modifies `requested, tx
      ensures Valid() && State() == old(State())
      ensures Pending() == old(Pending()) + [v] && Queue() == old(Queue())
    {
      tx[requested] := v;
      requested := requested + 1;
    }

    /** With a stop, what is waiting is written out now; without, it stays for the next `requestFrom`. */
    method EndTransmission(stop: bool) returns (status: nat)
      requires Valid()
      modifies `requested, shim.slots, shim.shadow
      ensures Valid() && Queue() == old(Queue())
      ensures !stop ==> status == 0 && State() == old(State()) && Pending() == old(Pending())
      ensures stop ==> Pending() == []
      ensures stop && old(requested) > 0 ==>
                && State() == Next(shim.on, old(State()), Write(fd, old(Pending())))
                && (status == 0 <==> ChipAt(shim.on, SlotOf(old(State()), fd).addr).Some?)
      ensures stop && old(requested) == 0 ==> status == 0 && State() == old(State())
    {
      hide ChipAt;
      if stop && requested != 0 {
        WriteKeepsLive(shim.on, State(), fd, Pending());
        var r := shim.WriteFd(fd, tx[..requested]);
        var good := r == Done(requested);
        requested := 0;
        return if good then 0 else 4;
      }
      status := 0;
    }

    /** What a one-byte read of the bus returns: the selected chip's byte, or -1 when nobody answers. */
    ghost function BusByte(): (v: int)
      requires Valid()
      reads this, shim, shim.slots, shim.shadow
      ensures -1 <= v < 0x100
      ensures v == -1 <==> ChipAt(shim.on, SlotOf(State(), fd).addr).None?
    {
      var bytes := ReadBytes(shim.on, ReadingsOf(shim.files), State(), fd, 1);
      if bytes == [] then -1 else bytes[0]
    }

    /** One byte from the queue, or, when it is empty, one byte straight from the bus; -1 when nobody answers. */
    method Rd() returns (v: int)
      requires Valid()
      modifies `rxIndex, `rxLen
      ensures Valid() && State() == old(State()) && Pending() == old(Pending())
      ensures old(Queue()) != [] ==> v == old(Queue())[0] && Queue() == old(Queue())[1..]
      ensures old(Queue()) != [] && |old(Queue())| == 1 ==> rxIndex == rxLen == 0
      ensures old(Queue()) == [] ==> Queue() == [] && v == BusByte()
      ensures -1 <= v < 0x100
    {
      hide ChipAt, ChipBytes, ReadingsOf;
      if rxLen - rxIndex != 0 {
        v := rx[rxIndex];
        rxIndex := rxIndex + 1;
        if rxIndex == rxLen {
          rxIndex, rxLen := 0, 0;
        }
        return;
      }
      var tmp := new byte[4](_ => 0);
      var r := shim.ReadFd(fd, tmp, 1);
      assert r.Done? ==> tmp[..1] == [tmp[0]];
      v := if r.Done? then tmp[0] else -1;
    }

    /** `Rd` as the layer really returns it: a queued byte as a signed `char`, a byte off the bus as it is. */
    method RdRaw() returns (v: int)
      requires Valid()
      modifies `rxIndex, `rxLen
      ensures Valid() && State() == old(State()) && Pending() == old(Pending())
      ensures old(Queue()) != [] ==> v == SignExtend(old(Queue())[0]) && Queue() == old(Queue())[1..]
      ensures old(Queue()) == [] ==> Queue() == [] && v == BusByte()
    {
      var queued := rxLen - rxIndex != 0;
      v := Rd();
      if queued && v >= 0x80 {
        v := v - 0x100;
      }
    }

    /** How many bytes wait in the queue; the bus itself never reports any. */
    method Available() returns (n: nat)
      requires Valid()
      ensures n == |Queue()|
    {
      if rxLen - rxIndex != 0 {
        return rxLen - rxIndex;
      }
      var r, waiting := shim.OtherIoctlFd(fd, BytesWaiting);
      n := waiting.value;
    }

    /**
     * Fills the queue from a chip. With bytes waiting to be sent it is one combined transfer, and the queue has `count`
     * bytes: the chip's up to the 64th, then what the receive buffer held. With none it is a new start and a bare read.
     */
    method RequestFrom(addr: byte, count: nat) returns (r: int)
      requires Valid() && count <= WIRE_BUFFER
      modifies `rxIndex, `rxLen, rx, shim.slots, shim.shadow
      ensures Valid() && Pending() == old(Pending())
      ensures var c := ChipAt(shim.on, addr);
              var vals := ReadingsOf(shim.files);
              var n := if count > 64 then 64 else count;
              if old(Pending()) != [] then
                if c.None? then r == -1 && State() == old(State()) && Queue() == old(Queue())
                else
                  && r == count == |Queue()|
                  && State() == Deliver(old(State()), Find(old(State()).slots, fd), addr, old(Pending()))
                  && Queue() == ChipBytes(c.value, vals, State().shadow, old(Pending())[0], count)
                                + old(rx[..])[n..count]
              else
                && State() == Begun(old(State()), fd, addr)
                && r == |Queue()|
                && Queue() == if c.None? then []
                              else ChipBytes(c.value, vals, State().shadow, Pointer(SlotOf(State(), fd)), count)
    {
      if requested != 0 {
        r := RequestCombined(addr, count);
      } else {
        r := RequestSeparate(addr, count);
      }
    }

    method RequestCombined(addr: byte, count: nat) returns (r: int)
      requires Valid() && count <= WIRE_BUFFER && requested > 0
      modifies `rxIndex, `rxLen, rx, shim.slots, shim.shadow
      ensures Valid() && Pending() == old(Pending())
      ensures ChipAt(shim.on, addr).None? ==> r == -1 && State() == old(State()) && Queue() == old(Queue())
      ensures ChipAt(shim.on, addr).Some? ==>
                && r == count == |Queue()|
                && State() == Deliver(old(State()), Find(old(State()).slots, fd), addr, old(Pending()))
                && Queue() == ChipBytes(ChipAt(shim.on, addr).value, ReadingsOf(shim.files), State().shadow,
                                        old(Pending())[0], count)
                              + old(rx[..])[if count > MAX_READ then MAX_READ else count..count]
    {
      hide ChipAt, ChipBytes, ReadingsOf, RdwrBuffers, RdwrReply, RdwrNext;
      ghost var before, vals := State(), ReadingsOf(shim.files);
      var msgs := ReadTransfer(addr, tx[..requested], rx[..count]);
      TransferEffect(before, vals, addr, tx[..requested], rx[..count]);
      var reply, after := shim.RdwrFd(fd, msgs);
      if reply.Done? {
        var got := after[1].buf.value;
        Receive(got);
        rxLen, rxIndex := count, 0;
        return count;
      }
      r := -1;
    }

    /** What the combined transfer will do, for any outcome. */
    lemma TransferEffect(before: Bus, vals: Readings, addr: byte, sent: seq<byte>, held: seq<byte>)
      requires Live(before, fd) && 0 < |sent| <= WIRE_BUFFER && |held| <= WIRE_BUFFER
      ensures var msgs := ReadTransfer(addr, sent, held);
              var c := ChipAt(shim.on, addr);
              var after := RdwrBuffers(shim.on, vals, before, Find(before.slots, fd), msgs);
              if c.None? then
                Next(shim.on, before, Rdwr(fd, msgs)) == before && Answer(shim.on, before, Rdwr(fd, msgs)).Fail?
              else
                var next := Deliver(before, Find(before.slots, fd), addr, sent);
                var bytes := ChipBytes(c.value, vals, next.shadow, sent[0], |held|);
                && Next(shim.on, before, Rdwr(fd, msgs)) == next && Live(next, fd)
                && Answer(shim.on, before, Rdwr(fd, msgs)) == Done(2)
                && after[1].buf == Some(bytes + held[|bytes|..])
    {
      hide ChipAt, ChipBytes, RdwrBuffers;
      var msgs := ReadTransfer(addr, sent, held);
      if ChipAt(shim.on, addr).None? {
        TransferAllOrNothing(shim.on, vals, before, fd, msgs, 0);
      } else {
        ReadTransferEffect(shim.on, vals, before, fd, addr, sent, held);
        DeliverKeepsLive(before, fd, addr, sent);
      }
    }

    /** The kernel's copy into the receive buffer. */
    method Receive(got: seq<byte>)
      requires |got| <= rx.Length
      modifies rx
      ensures rx[..|got|] == got
    {
      for k := 0 to |got|
        invariant rx[..k] == got[..k]
      {
        rx[k] := got[k];
      }
    }

    method RequestSeparate(addr: byte, count: nat) returns (r: int)
      requires Valid() && count <= WIRE_BUFFER && requested == 0
      modifies `rxIndex, `rxLen, rx, shim.slots
      ensures Valid() && Pending() == old(Pending())
      ensures State() == Begun(old(State()), fd, addr)
      ensures r == |Queue()|
      ensures Queue() == if ChipAt(shim.on, addr).None? then []
                         else ChipBytes(ChipAt(shim.on, addr).value, ReadingsOf(shim.files), State().shadow,
                                        Pointer(SlotOf(State(), fd)), count)
    {
      hide ChipAt, ChipBytes, ReadingsOf;
      BegunSlot(State(), fd, addr);
      var s := shim.SelectFd(fd, addr);
      var got := shim.ReadFd(fd, rx, count);
      rxLen := if got.Done? then got.n else 0;
      rxIndex := 0;
      r := rxLen;
    }
  }

  lemma DeliverKeepsLive(bus: Bus, fd: int, addr: int, data: seq<byte>)
    requires Live(bus, fd) && |data| > 0
    ensures var b := Deliver(bus, Find(bus.slots, fd), addr, data);
            Live(b, fd) && Find(b.slots, fd) == Find(bus.slots, fd)
  {
    var i := Find(bus.slots, fd);
    FindKeeps(bus.slots, i, bus.slots[i].(reg := data[0], valid := true), fd);
  }

  lemma WriteKeepsLive(on: set<Chip>, bus: Bus, fd: int, data: seq<byte>)
    requires Live(bus, fd)
    ensures Live(Next(on, bus, Write(fd, data)), fd)
  {
    hide ChipAt;
    if |data| > 0 {
      DeliverKeepsLive(bus, fd, bus.slots[Find(bus.slots, fd)].addr, data);
    }
  }
}
