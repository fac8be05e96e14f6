/** The firmware's scan of the 112 addresses, with its two kinds of probe. */
module Scanning {
  import opened Bits
  import opened Chips
  import opened Bus
  import opened Paths
  import opened FakeBus
  import opened Wire

  const FIRST: byte := 8
  const LAST: byte := 119

  /** The addresses probed by a bare read; the others are probed by an SMBus quick command. */
  predicate Bare(a: int) {
    0x30 <= a <= 0x37 || 0x50 <= a <= 0x5F
  }

  /** How many addresses before `a` are probed by a bare read. */
  function BareBefore(a: int): nat
    requires FIRST <= a <= LAST + 1
  {
    if a == FIRST as int then 0 else BareBefore(a - 1) + if Bare(a - 1) then 1 else 0
  }

  /** Whether a probe is answered when `stale` bytes were left in the receive queue: each bare probe takes one. */
  predicate Acked(on: set<Chip>, stale: nat, a: int)
    requires FIRST <= a <= LAST + 1
  {
    ChipAt(on, a).Some? || (Bare(a) && BareBefore(a) < stale)
  }

  function ScanList(on: set<Chip>, stale: nat, end: int): seq<byte>
    requires FIRST <= end <= LAST + 1
  {
    if end == FIRST as int then []
    else ScanList(on, stale, end - 1) + if Acked(on, stale, end - 1) then [end - 1] else []
  }

  function Cut(s: seq<byte>, max: nat): seq<byte> {
    if |s| <= max then s else s[..max]
  }

  /** `writeQuick`. */
  method WriteQuick(p: Portduino, v: byte) returns (rc: int)
    requires p.Valid()
    modifies p.shim.slots, p.shim.shadow
    ensures p.Valid() && p.State() == old(p.State()) && p.Queue() == old(p.Queue())
    ensures rc == if ChipAt(p.shim.on, SlotOf(p.State(), p.fd).addr).Some? then 0 else -1
  {
    hide ChipAt;
    var r, data := p.shim.SmbusFd(p.fd, Request(v, 0, QUICK, None));
    rc := if r.Done? then 0 else -1;
  }

  /** One address: answered or not. A bare probe takes a byte off the queue when there is one. */
  method Probe(p: Portduino, a: byte) returns (err: int)
    requires p.Valid()
    modifies p, p.shim.slots, p.shim.shadow
    ensures p.Valid()
    ensures err == 0 <==> ChipAt(p.shim.on, a).Some? || (Bare(a) && old(p.Queue()) != [])
    ensures |p.Queue()| == if Bare(a) && old(p.Queue()) != [] then |old(p.Queue())| - 1 else |old(p.Queue())|
  {
    hide ChipAt;
    err := 2;
    BegunSlot(p.State(), p.fd, a);
    p.BeginTransmission(a);
    if (0x30 <= a <= 0x37) || (0x50 <= a <= 0x5F) {
      var v := p.Rd();
      if v != -1 {
        err := 0;
      }
    } else {
      err := WriteQuick(p, 0);
    }
    if err != 0 {
      err := 2;
    }
  }

  /** The scan: for any chips, registers, pointers and files, and with the file rewritten between any two probes. */
  method Scan(p: Portduino, max: nat) returns (found: seq<byte>)
    requires p.Valid()
    modifies p, p.shim.slots, p.shim.shadow, p.shim`files
    ensures p.Valid()
    ensures found == Cut(ScanList(p.shim.on, |old(p.Queue())|, LAST as int + 1), max)
    ensures |found| <= max && found <= ScanList(p.shim.on, |old(p.Queue())|, 120)
    ensures |found| < max ==> found == ScanList(p.shim.on, |old(p.Queue())|, 120)
  {
    hide ChipAt;
    found := [];
    ghost var stale := |p.Queue()|;
    var a: int := FIRST as int;
    while a < 120
      invariant FIRST as int <= a <= LAST as int + 1 && p.Valid()
      invariant |p.Queue()| == if BareBefore(a) < stale then stale - BareBefore(a) else 0
      invariant found == Cut(ScanList(p.shim.on, stale, a), max)
    {
      p.shim.FileRewritten();
      var err := Probe(p, a);
      if err == 0 && |found| < max {
        found := found + [a];
      }
      a := a + 1;
    }
  }

  // ---- what the scan finds ------------------------------------------------

  /** With an empty queue the scan lists exactly the enabled chips' addresses, in increasing order. */
  lemma {:induction false} ScanListsEnabled(on: set<Chip>, end: int)
    requires FIRST as int <= end <= LAST as int + 1
    ensures forall a :: a in ScanList(on, 0, end) <==> 8 <= a < end && exists c :: c in on && Addr(c) == a
    ensures forall i, j :: 0 <= i < j < |ScanList(on, 0, end)| ==> ScanList(on, 0, end)[i] < ScanList(on, 0, end)[j]
  {
    hide ChipAt;
    if end > FIRST as int {
      ScanListsEnabled(on, end - 1);
      var s := ScanList(on, 0, end - 1);
      assert forall k :: 0 <= k < |s| ==> s[k] in s;
    }
  }

  lemma {:induction false} ScanListWithin(on: set<Chip>, stale: nat, end: int)
    requires FIRST as int <= end <= LAST as int + 1
    ensures |ScanList(on, stale, end)| <= end - FIRST as int
    ensures forall a :: FIRST as int <= a < end ==> (a in ScanList(on, stale, end) <==> Acked(on, stale, a))
    ensures forall a :: a in ScanList(on, stale, end) ==> FIRST as int <= a < end
  {
    hide Acked;
    if end > FIRST as int {
      ScanListWithin(on, stale, end - 1);
    }
  }

  lemma ChipsInRange(c: Chip)
    ensures 8 <= Addr(c) <= 119
  {
  }

  /** Room for every address: the scan is exact if and only if nothing was left in the receive queue. */
  lemma ScanExactIff(on: set<Chip>, stale: nat, max: nat)
    requires max >= 112
    ensures Cut(ScanList(on, stale, LAST as int + 1), max) == ScanList(on, 0, LAST as int + 1) <==> stale == 0
  {
    hide ScanList;
    ScanListWithin(on, stale, 120);
    ScanListWithin(on, 0, 120);
    NoBareBefore(0x30);
    assert 0x30 in ScanList(on, stale, 120) <==> stale > 0;
    assert 0x30 !in ScanList(on, 0, 120);
  }

  lemma {:induction false} NoBareBefore(a: int)
    requires FIRST as int <= a <= 0x30
    ensures BareBefore(a) == 0
  {
    if a > FIRST as int {
      NoBareBefore(a - 1);
    }
  }

  /** Where an address stands among the twenty-four probed by a bare read. */
  function BareIndex(a: int): int {
    if 0x30 <= a <= 0x37 then a - 0x30 else a - 0x50 + 8
  }

  lemma {:induction false} BareBeforeIs(a: int)
    requires FIRST as int <= a <= LAST as int + 1
    ensures BareBefore(a) == if a < 0x30 then 0 else if a <= 0x37 then a - 0x30 else if a < 0x50 then 8
                             else if a <= 0x5F then a - 0x50 + 8 else 24
  {
    if a > FIRST as int {
      BareBeforeIs(a - 1);
    }
  }

  /**
   * With stale bytes in the receive queue the scan lists the enabled chips and, besides, that many of the twenty-four
   * addresses 0x30-0x37 and 0x50-0x5F, the lowest ones first.
   */
  lemma ScanWithStale(on: set<Chip>, stale: nat, a: int)
    requires 8 <= a <= 119
    ensures a in ScanList(on, stale, 120) <==>
              || (exists c :: c in on && Addr(c) == a)
              || ((0x30 <= a <= 0x37 || 0x50 <= a <= 0x5F) && BareIndex(a) < stale)
  {
    hide ScanList;
    ScanListWithin(on, stale, 120);
    BareBeforeIs(a);
    if c :| c in on && Addr(c) == a {
      ChipAtAddr(on, a, c);
    }
    hide ChipAt;
  }
}
