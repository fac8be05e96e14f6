/** The two ways to read a register: one combined transfer, or a write, a new start and a bare read. */
module Paths {
  import opened Bits
  import opened Chips
  import opened Bus
  import opened History

  lemma MsgsAppend(bus: Bus, i: nat, a: seq<Message>, m: Message)
    requires i < |bus.slots|
    requires forall k :: 0 <= k < |a| ==> !a[k].Faulty()
    requires !m.Faulty()
    ensures AfterMsgs(bus, i, a + [m]) == AfterMsg(AfterMsgs(bus, i, a), i, m)
  {
    assert (a + [m])[..|a + [m]| - 1] == a;
  }

  /** A transfer that names any address nobody answers leaves slots, registers and buffers as they were. */
  lemma TransferAllOrNothing(on: set<Chip>, vals: Readings, bus: Bus, fd: int, msgs: seq<Message>, k: nat)
    requires Live(bus, fd) && k < |msgs| && ChipAt(on, msgs[k].addr).None?
    ensures Next(on, bus, Rdwr(fd, msgs)) == bus
    ensures RdwrBuffers(on, vals, bus, Find(bus.slots, fd), msgs) == msgs
    ensures Answer(on, bus, Rdwr(fd, msgs)).Fail?
  {
    assert !AllEmulated(on, msgs);
    hide ChipAt;
  }

  /** The state after single-message transfers, one system call each. */
  function OneByOne(on: set<Chip>, bus: Bus, fd: int, msgs: seq<Message>): (b: Bus)
    ensures |b.slots| == |bus.slots|
  {
    if msgs == [] then bus
    else Next(on, OneByOne(on, bus, fd, msgs[..|msgs| - 1]), Rdwr(fd, [msgs[|msgs| - 1]]))
  }

  lemma FaultlessAll(msgs: seq<Message>)
    requires forall k :: 0 <= k < |msgs| ==> !msgs[k].Faulty()
    ensures Faultless(msgs) == |msgs| && msgs[..Faultless(msgs)] == msgs
  {
    assert Faultless(msgs) == |msgs|;
  }

  lemma SingleMessage(on: set<Chip>, bus: Bus, fd: int, m: Message)
    requires Live(bus, fd) && !m.Faulty() && ChipAt(on, m.addr).Some?
    ensures Accepted(on, [m])
    ensures Next(on, bus, Rdwr(fd, [m])) == AfterMsg(bus, Find(bus.slots, fd), m)
  {
    hide ChipAt;
    FaultlessAll([m]);
    MsgsAppend(bus, Find(bus.slots, fd), [], m);
    assert [] + [m] == [m];
  }

  /** A transfer does what its messages do one by one, each its own transfer. */
  lemma {:induction false} TransferIsOneByOne(on: set<Chip>, bus: Bus, fd: int, msgs: seq<Message>)
    requires Valid(bus) && Live(bus, fd) && fd >= 0
    requires AllEmulated(on, msgs) && forall k :: 0 <= k < |msgs| ==> !msgs[k].Faulty()
    ensures OneByOne(on, bus, fd, msgs) == AfterMsgs(bus, Find(bus.slots, fd), msgs)
    ensures Live(OneByOne(on, bus, fd, msgs), fd)
    ensures Find(OneByOne(on, bus, fd, msgs).slots, fd) == Find(bus.slots, fd)
  {
    hide ChipAt;
    var i := Find(bus.slots, fd);
    if msgs != [] {
      var p, m := msgs[..|msgs| - 1], msgs[|msgs| - 1];
      TransferIsOneByOne(on, bus, fd, p);
      SingleMessage(on, AfterMsgs(bus, i, p), fd, m);
      MsgsTouchOneSlot(bus, i, msgs);
      var after := AfterMsgs(bus, i, msgs);
      assert after.slots == bus.slots[i := after.slots[i]];
      FindKeeps(bus.slots, i, after.slots[i], fd);
    }
  }

  lemma BufferAfter(on: set<Chip>, vals: Readings, bus: Bus, i: nat, msgs: seq<Message>, k: nat)
    requires i < |bus.slots| && k < |msgs| <= 8
    requires AllEmulated(on, msgs) && forall j :: 0 <= j < |msgs| ==> !msgs[j].Faulty()
    ensures RdwrBuffers(on, vals, bus, i, msgs)[k]
         == Filled(on, vals, AfterMsgs(bus, i, msgs[..k]), i, msgs[k])
  {
    hide ChipAt, Filled, AfterMsgs;
    FaultlessAll(msgs);
  }

  /** As calls: the transfer leaves the state its messages leave, one call each. */
  lemma TransferStateAsCalls(on: set<Chip>, bus: Bus, fd: int, msgs: seq<Message>)
    requires Valid(bus) && Live(bus, fd) && fd >= 0 && 0 < |msgs| <= 8
    requires AllEmulated(on, msgs) && forall j :: 0 <= j < |msgs| ==> !msgs[j].Faulty()
    ensures Next(on, bus, Rdwr(fd, msgs)) == OneByOne(on, bus, fd, msgs)
  {
    hide ChipAt, AfterMsgs, OneByOne;
    FaultlessAll(msgs);
    TransferIsOneByOne(on, bus, fd, msgs);
  }

  /** And each message's buffer ends as its own call would leave it, made where the ones before it ended. */
  lemma TransferBuffersAsCalls(on: set<Chip>, vals: Readings, bus: Bus, fd: int, msgs: seq<Message>, k: nat)
    requires Valid(bus) && Live(bus, fd) && fd >= 0 && k < |msgs| <= 8
    requires AllEmulated(on, msgs) && forall j :: 0 <= j < |msgs| ==> !msgs[j].Faulty()
    ensures var b := OneByOne(on, bus, fd, msgs[..k]);
            RdwrBuffers(on, vals, bus, Find(bus.slots, fd), msgs)[k]
              == RdwrBuffers(on, vals, b, Find(bus.slots, fd), [msgs[k]])[0]
  {
    hide ChipAt, Filled, AfterMsgs, OneByOne, FilledAll, RdwrBuffers, FindFrom;
    var p, m := msgs[..k], msgs[k];
    TransferIsOneByOne(on, bus, fd, p);
    var i, b := Find(bus.slots, fd), OneByOne(on, bus, fd, p);
    BufferAfter(on, vals, bus, i, msgs, k);
    BufferAfter(on, vals, b, i, [m], 0);
    NoMessages(b, i, [m][..0]);
  }

  lemma NoMessages(bus: Bus, i: nat, msgs: seq<Message>)
    requires i < |bus.slots| && msgs == []
    ensures AfterMsgs(bus, i, msgs) == bus
  {
  }

  // ---- begin, write, read -------------------------------------------------

  /** The state after `beginTransmission(addr)`. */
  function Begun(bus: Bus, fd: int, addr: int): Bus
    requires Live(bus, fd)
  {
    Retarget(bus, Find(bus.slots, fd), addr)
  }

  lemma BegunSlot(bus: Bus, fd: int, addr: int)
    requires Live(bus, fd)
    ensures var b := Begun(bus, fd, addr);
            && Live(b, fd) && Find(b.slots, fd) == Find(bus.slots, fd) && |b.slots| == |bus.slots|
            && SlotOf(b, fd).addr == addr
            && Begun(b, fd, addr) == b
  {
    var i := Find(bus.slots, fd);
    var b := Begun(bus, fd, addr);
    FindKeeps(bus.slots, i, b.slots[i], fd);
    assert b.slots[i := b.slots[i]] == b.slots;
  }

  /** The state after `data` reached the address a descriptor was just pointed at, by either path. */
  function Sent(on: set<Chip>, bus: Bus, fd: int, addr: int, data: seq<byte>): Bus
    requires Live(bus, fd)
  {
    var b := Begun(bus, fd, addr);
    if ChipAt(on, addr).Some? && |data| > 0 then Deliver(b, Find(bus.slots, fd), addr, data) else b
  }

  lemma SentSlot(on: set<Chip>, bus: Bus, fd: int, addr: int, data: seq<byte>)
    requires Live(bus, fd) && ChipAt(on, addr).Some? && |data| > 0
    ensures var b := Sent(on, bus, fd, addr, data);
            && Live(b, fd) && Find(b.slots, fd) == Find(bus.slots, fd) && |b.slots| == |bus.slots|
            && SlotOf(b, fd).addr == addr && Pointer(SlotOf(b, fd)) == data[0]
            && Begun(b, fd, addr) == b
            && b.shadow == if |data| > 1 then ChipWrite(bus.shadow, addr, data[0], data[1..]) else bus.shadow
  {
    hide ChipAt, ChipWrite;
    var i := Find(bus.slots, fd);
    BegunSlot(bus, fd, addr);
    var b, c := Begun(bus, fd, addr), Sent(on, bus, fd, addr, data);
    FindKeeps(b.slots, i, c.slots[i], fd);
    assert c.slots[i := c.slots[i]] == c.slots;
  }

  /** The combined transfer both drivers' `requestFrom` issues when bytes are waiting to be sent. */
  function ReadTransfer(addr: word, tx: seq<byte>, rx: seq<byte>): seq<Message>
    requires |tx| < 0x1_0000 && |rx| < 0x1_0000
  {
    var w: Message := Msg(addr, false, |tx|, Some(tx));
    var r: Message := Msg(addr, true, |rx|, Some(rx));
    [w, r]
  }

  lemma ReadTransferEffect(on: set<Chip>, vals: Readings, bus: Bus, fd: int, addr: word, tx: seq<byte>, rx: seq<byte>)
    requires Live(bus, fd) && ChipAt(on, addr).Some?
    requires 0 < |tx| < 0x1_0000 && |rx| < 0x1_0000
    ensures var msgs := ReadTransfer(addr, tx, rx);
            var next := Deliver(bus, Find(bus.slots, fd), addr, tx);
            var bytes := ChipBytes(ChipAt(on, addr).value, vals, next.shadow, tx[0], |rx|);
            && Next(on, bus, Rdwr(fd, msgs)) == next
            && Answer(on, bus, Rdwr(fd, msgs)) == Done(2)
            && RdwrBuffers(on, vals, bus, Find(bus.slots, fd), msgs)[1].buf == Some(bytes + rx[|bytes|..])
  {
    hide ChipAt, ChipBytes, ChipWrite;
    var i := Find(bus.slots, fd);
    var msgs := ReadTransfer(addr, tx, rx);
    assert !msgs[0].Faulty() && !msgs[1].Faulty();
    FaultlessAll(msgs);
    assert msgs == [msgs[0]] + [msgs[1]] && [] + [msgs[0]] == [msgs[0]] == msgs[..1];
    MsgsAppend(bus, i, [], msgs[0]);
    MsgsAppend(bus, i, [msgs[0]], msgs[1]);
  }

  /**
   * A register read over the combined path and over the separate path leaves the same state. The combined path's
   * buffer holds the bytes of the separate path and, past the 64th, whatever it held before: so the two bring the
   * same bytes exactly when no more than 64 are asked for.
   */
  lemma ReadPathsAgree(on: set<Chip>, vals: Readings, bus: Bus, fd: int, tx: seq<byte>, rx: seq<byte>)
    requires Live(bus, fd) && ChipAt(on, SlotOf(bus, fd).addr).Some?
    requires 0 < |tx| < 0x1_0000 && |rx| < 0x1_0000
    ensures var addr := SlotOf(bus, fd).addr;
            var msgs := ReadTransfer(addr, tx, rx);
            var combined := Next(on, bus, Rdwr(fd, msgs));
            var separate := Next(on, Next(on, bus, Write(fd, tx)), Select(fd, addr));
            && combined == separate
            && Live(separate, fd)
            && var buffer := RdwrBuffers(on, vals, bus, Find(bus.slots, fd), msgs)[1].buf;
               var bytes := ReadBytes(on, vals, separate, fd, |rx|);
               && buffer == Some(bytes + rx[if |rx| > 64 then 64 else |rx|..])
               && (buffer == Some(bytes) <==> |rx| <= 64)
  {
    hide ChipAt, ChipBytes, ChipWrite;
    var addr := SlotOf(bus, fd).addr;
    var i := Find(bus.slots, fd);
    ReadTransferEffect(on, vals, bus, fd, addr, tx, rx);
    assert Begun(bus, fd, addr) == bus by {
      assert bus.slots[i := bus.slots[i]] == bus.slots;
    }
    SentSlot(on, bus, fd, addr, tx);
    var bytes := ReadBytes(on, vals, Deliver(bus, i, addr, tx), fd, |rx|);
    if |rx| <= MAX_READ {
      assert bytes + rx[|rx|..] == bytes;
    } else {
      assert |bytes + rx[MAX_READ..]| == |rx| && |bytes| == MAX_READ;
    }
  }

  /** Sixty-five bytes asked of a freshly selected temperature chip: one path brings 65 bytes, the other 64. */
  lemma PathsPartAtSixtyFive(vals: Readings, fd: nat)
    ensures var bus := Next({Pct2075}, Next({Pct2075}, Init(), Open(fd)), Select(fd, 0x37));
            var rx := seq(65, _ => 0);
            && Live(bus, fd) && SlotOf(bus, fd).addr == 0x37
            && var separate := Next({Pct2075}, Next({Pct2075}, bus, Write(fd, [0x00])), Select(fd, 0x37));
               && Live(separate, fd)
               && RdwrBuffers({Pct2075}, vals, bus, Find(bus.slots, fd), ReadTransfer(0x37, [0x00], rx))[1].buf
                  != Some(ReadBytes({Pct2075}, vals, separate, fd, 65))
  {
    hide RdwrBuffers, ChipBytes;
    var on := {Pct2075};
    var start := Next(on, Init(), Open(fd));
    FindIs(Init().slots, -1, 0);
    FindIs(start.slots, fd, 0);
    BegunSlot(start, fd, 0x37);
    var bus := Next(on, start, Select(fd, 0x37));
    ReadPathsAgree(on, vals, bus, fd, [0x00], seq(65, _ => 0));
  }
}
