/** The register reads every driver is built from. */
module RegisterReads {
  import opened Bits
  import opened Chips
  import opened Bus
  import opened Paths
  import opened Models
  import opened FakeBus
  import opened Wire

  /** The next `n` bytes of the queue. */
  method Take(p: Portduino, n: nat) returns (bytes: seq<byte>)
    requires p.Valid() && n <= |p.Queue()|
    modifies p`rxIndex, p`rxLen
    ensures p.Valid() && p.State() == old(p.State()) && p.Pending() == old(p.Pending())
    ensures bytes == old(p.Queue())[..n] && p.Queue() == old(p.Queue())[n..]
  {
    bytes := [];
    ghost var all := p.Queue();
    for i := 0 to n
      invariant p.Valid() && p.State() == old(p.State()) && p.Pending() == old(p.Pending())
      invariant bytes == all[..i] && p.Queue() == all[i..]
    {
      assert all[i..][1..] == all[i + 1..];
      var b := p.Rd();
      bytes := bytes + [b];
    }
  }

  /** `beginTransmission`, the bytes, `endTransmission`. */
  method Send(p: Portduino, addr: byte, data: seq<byte>, stop: bool) returns (status: nat)
    requires p.Valid() && 0 < |data| <= WIRE_BUFFER
    modifies p`requested, p.tx, p.shim.slots, p.shim.shadow
    ensures p.Valid() && p.Queue() == old(p.Queue())
    ensures stop ==> p.Pending() == [] && p.State() == Sent(p.shim.on, old(p.State()), p.fd, addr, data)
    ensures stop ==> (status == 0 <==> ChipAt(p.shim.on, addr).Some?)
    ensures !stop ==> p.Pending() == data && p.State() == Begun(old(p.State()), p.fd, addr)
  {
    hide ChipAt;
    BegunSlot(p.State(), p.fd, addr);
    p.BeginTransmission(addr);
    for i := 0 to |data|
      invariant p.Valid() && p.State() == Begun(old(p.State()), p.fd, addr)
      invariant p.Pending() == data[..i] && p.Queue() == old(p.Queue())
    {
      p.W8(data[i]);
    }
    status := p.EndTransmission(stop);
  }

  /** What a request of `n` bytes leaves in the queue: the chip's bytes, then what the receive buffer held. */
  function Received(c: Chip, vals: Readings, shadow: Shadow, reg: byte, held: seq<byte>): seq<byte> {
    ChipBytes(c, vals, shadow, reg, |held|) + held[if |held| > MAX_READ then MAX_READ else |held|..]
  }

  /**
   * A register read: send the register (and perhaps more), request, take. It succeeds when somebody answers and as
   * many bytes come back as were asked for. Up to 64 bytes they are the chip's, whether what is sent goes out at once
   * (`stop`) or with the request. Past that the request alone (`stop`) brings too few, and the combined transfer makes
   * up the number from the receive buffer.
   */
  method Fetch(p: Portduino, addr: byte, data: seq<byte>, stop: bool, n: nat) returns (ok: bool, bytes: seq<byte>)
    requires p.Valid() && 0 < |data| <= WIRE_BUFFER && n <= WIRE_BUFFER
    modifies p, p.tx, p.rx, p.shim.slots, p.shim.shadow
    ensures p.Valid() && (stop ==> p.Pending() == [])
    ensures p.State() == Sent(p.shim.on, old(p.State()), p.fd, addr, data)
    ensures var c := ChipAt(p.shim.on, addr);
            ok == if c.None? then stop && n == 0 else stop ==> n <= 64
    ensures !ok ==> bytes == []
    ensures var c := ChipAt(p.shim.on, addr);
            ok && c.Some? ==> p.Queue() == [] && bytes == Received(c.value, ReadingsOf(p.shim.files), p.State().shadow,
                                                                   data[0], old(p.rx[..])[..n])
    ensures var c := ChipAt(p.shim.on, addr);
            c.Some? && n <= 64 ==>
              bytes == ChipBytes(c.value, ReadingsOf(p.shim.files), p.State().shadow, data[0], n)
  {
    hide ChipAt, ChipBytes, ReadingsOf, ChipWrite;
    BegunSlot(p.State(), p.fd, addr);
    if ChipAt(p.shim.on, addr).Some? {
      SentSlot(p.shim.on, p.State(), p.fd, addr, data);
    }
    ghost var held := p.rx[..];
    var status := Send(p, addr, data, stop);
    var r := p.RequestFrom(addr, n);
    if r != n {
      return false, [];
    }
    if ChipAt(p.shim.on, addr).Some? {
      FetchedBytes(ChipAt(p.shim.on, addr).value, ReadingsOf(p.shim.files), p.State().shadow, data[0], held, n);
    }
    assert p.Queue()[..n] == p.Queue();
    bytes := Take(p, n);
    ok := true;
  }

  lemma FetchedBytes(c: Chip, vals: Readings, shadow: Shadow, reg: byte, held: seq<byte>, n: nat)
    requires n <= |held|
    ensures Received(c, vals, shadow, reg, held[..n])
         == ChipBytes(c, vals, shadow, reg, n) + held[if n > MAX_READ then MAX_READ else n..n]
    ensures n <= MAX_READ ==> Received(c, vals, shadow, reg, held[..n]) == ChipBytes(c, vals, shadow, reg, n)
  {
    hide ChipBytes;
    var m := if n > MAX_READ then MAX_READ else n;
    assert held[..n][m..] == held[m..n];
    assert n <= MAX_READ ==> held[m..n] == [];
  }

  // ---- the combined and the separate register read -----------------------

  /** `busio_read`: the combined path, most significant byte first, in 32 bits. */
  method BusioRead(p: Portduino, addr: byte, reg: byte, width: byte) returns (v: nat)
    requires p.Valid()
    modifies p, p.tx, p.rx, p.shim.slots, p.shim.shadow
    ensures p.Valid() && p.State() == Sent(p.shim.on, old(p.State()), p.fd, addr, [reg])
    ensures v == if ChipAt(p.shim.on, addr).None? then 0xFFFF_FFFF
                 else FromBe(Received(ChipAt(p.shim.on, addr).value, ReadingsOf(p.shim.files), p.State().shadow, reg,
                                      old(p.rx[..])[..width])) % 0x1_0000_0000
    ensures ChipAt(p.shim.on, addr).Some? && width <= 64 ==>
              v == FromBe(ChipBytes(ChipAt(p.shim.on, addr).value, ReadingsOf(p.shim.files), p.State().shadow, reg,
                                    width)) % 0x1_0000_0000
  {
    hide ChipAt, ChipBytes, ReadingsOf, ChipWrite;
    ghost var held := p.rx[..];
    var status := Send(p, addr, [reg], false);
    var r := p.RequestFrom(addr, width);
    if r != width as int {
      return 0xFFFF_FFFF;
    }
    FetchedBytes(ChipAt(p.shim.on, addr).value, ReadingsOf(p.shim.files), p.State().shadow, reg, held, width);
    assert p.Queue()[..width] == p.Queue();
    v := TakeNumber(p, width);
  }

  lemma FromBeNone(s: seq<byte>)
    requires s == []
    ensures FromBe(s) == 0
  {
  }

  lemma FromBeStep(s: seq<byte>, i: nat)
    requires i < |s|
    ensures FromBe(s[..i + 1]) % 0x1_0000_0000
         == (FromBe(s[..i]) % 0x1_0000_0000 * 0x100 + s[i]) % 0x1_0000_0000
  {
    assert s[..i + 1][..i] == s[..i];
  }

  /** The accumulator loop of `busio_read`: shift in one byte after another. */
  method TakeNumber(p: Portduino, n: nat) returns (v: nat)
    requires p.Valid() && n <= |p.Queue()|
    modifies p`rxIndex, p`rxLen
    ensures p.Valid() && p.State() == old(p.State())
    ensures v == FromBe(old(p.Queue())[..n]) % 0x1_0000_0000
  {
    hide FromBe;
    ghost var all := p.Queue();
    FromBeNone(all[..0]);
    v := 0;
    for i := 0 to n
      invariant p.Valid() && p.State() == old(p.State())
      invariant p.Queue() == all[i..] && v == FromBe(all[..i]) % 0x1_0000_0000
    {
      assert all[i..][1..] == all[i + 1..];
      FromBeStep(all, i);
      var b := p.Rd();
      v := (v * 0x100 + b) % 0x1_0000_0000;
    }
  }

  /** What `getRegisterValue` makes of the bytes it received. */
  function FirstWord(bytes: seq<byte>): word {
    if |bytes| > 1 then bytes[0] as int * 0x100 + bytes[1] as int else if |bytes| == 1 then bytes[0] else 0
  }

  /** `getRegisterValue`: the separate path, the first two bytes, the rest drained. */
  method GetRegisterValue(p: Portduino, addr: byte, reg: byte, width: byte) returns (v: word)
    requires p.Valid()
    modifies p, p.tx, p.rx, p.shim.slots, p.shim.shadow
    ensures p.Valid() && p.State() == Sent(p.shim.on, old(p.State()), p.fd, addr, [reg])
    ensures p.Queue() == []
    ensures v == if ChipAt(p.shim.on, addr).None? then 0
                 else FirstWord(ChipBytes(ChipAt(p.shim.on, addr).value, ReadingsOf(p.shim.files), p.State().shadow,
                                          reg, width))
  {
    hide ChipAt, ChipBytes, ReadingsOf, ChipWrite;
    BegunSlot(p.State(), p.fd, addr);
    if ChipAt(p.shim.on, addr).Some? {
      SentSlot(p.shim.on, p.State(), p.fd, addr, [reg]);
    }
    var status := Send(p, addr, [reg], true);
    var r := p.RequestFrom(addr, width);
    v := FirstOfQueue(p);
    Drain(p, width);
  }

  /** The first two bytes of the queue as a number, or as many as there are. */
  method FirstOfQueue(p: Portduino) returns (v: word)
    requires p.Valid()
    modifies p`rxIndex, p`rxLen
    ensures p.Valid() && p.State() == old(p.State())
    ensures v == FirstWord(old(p.Queue()))
    ensures |p.Queue()| == if |old(p.Queue())| > 2 then |old(p.Queue())| - 2 else 0
  {
    v := 0;
    if p.rxLen - p.rxIndex > 1 {
      var hi := p.Rd();
      var lo := p.Rd();
      v := hi * 0x100 + lo;
    } else if p.rxLen - p.rxIndex != 0 {
      v := p.Rd();
    }
  }

  /** `width - 1` turns that each take a byte if one is left. */
  method Drain(p: Portduino, width: byte)
    requires p.Valid() && |p.Queue()| <= if width > 1 then width as int - 1 else 0
    modifies p`rxIndex, p`rxLen
    ensures p.Valid() && p.State() == old(p.State()) && p.Queue() == []
  {
    var i: int := 0;
    while i < width as int - 1
      invariant p.Valid() && p.State() == old(p.State())
      invariant |p.Queue()| <= if width as int - 1 - i > 0 then width as int - 1 - i else 0
      decreases width as int - 1 - i
    {
      if p.rxLen - p.rxIndex != 0 {
        var b := p.Rd();
      }
      i := i + 1;
    }
  }

  lemma BothPathsSameNumber(bytes: seq<byte>)
    requires 1 <= |bytes| <= 2
    ensures FromBe(bytes) % 0x1_0000_0000 == FirstWord(bytes)
  {
    if |bytes| == 1 {
      assert bytes[..0] == [];
    } else {
      FromBe2(bytes);
    }
  }

  /** Any one- or two-byte register of any chip, read by one function and then by the other: the same number twice. */
  method BothPaths(p: Portduino, addr: byte, reg: byte, width: byte) returns (combined: nat, separate: word)
    requires p.Valid() && ChipAt(p.shim.on, addr).Some? && 1 <= width <= 2
    modifies p, p.tx, p.rx, p.shim.slots, p.shim.shadow
    ensures p.Valid() && combined == separate
  {
    hide ChipAt, ChipBytes, ReadingsOf, ChipWrite, FromBe, FirstWord;
    SentSlot(p.shim.on, p.State(), p.fd, addr, [reg]);
    combined := BusioRead(p, addr, reg, width);
    BothPathsSameNumber(ChipBytes(ChipAt(p.shim.on, addr).value, ReadingsOf(p.shim.files), p.State().shadow, reg, width));
    SentSlot(p.shim.on, p.State(), p.fd, addr, [reg]);
    separate := GetRegisterValue(p, addr, reg, width);
  }
}
