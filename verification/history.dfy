/** What the state of the bus remembers of any run of calls, on any descriptors, in any order. */
module History {
  import opened Bits
  import opened Chips
  import opened Bus

  /** The state after a run from start-up. */
  function Run(on: set<Chip>, ops: seq<Op>): Bus {
    if ops == [] then Init() else Next(on, Run(on, ops[..|ops| - 1]), ops[|ops| - 1])
  }

  /** Descriptors are not negative, and the kernel hands out none that a slot still holds. */
  predicate LegalStep(bus: Bus, op: Op) {
    op.fd >= 0 && (op.Open? ==> !Live(bus, op.fd))
  }

  predicate Legal(on: set<Chip>, ops: seq<Op>) {
    ops == [] || (Legal(on, ops[..|ops| - 1]) && LegalStep(Run(on, ops[..|ops| - 1]), ops[|ops| - 1]))
  }

  // ---- slots under one step -----------------------------------------------

  /** A change to one slot that keeps its descriptor moves no other. */
  lemma FindKeeps(slots: seq<Slot>, i: nat, s: Slot, fd: int)
    requires i < |slots|
    requires s.fd == slots[i].fd || (fd != s.fd && fd != slots[i].fd)
    ensures Find(slots[i := s], fd) == Find(slots, fd)
  {
    FindIs(slots[i := s], fd, Find(slots, fd));
  }

  /** Slot by slot, a step touches at most the slot `i`, and the state is otherwise the same. */
  predicate OnlySlot(b: Bus, c: Bus, i: nat)
    requires i < |b.slots|
  {
    |c.slots| == |b.slots| && c.slots[i].fd == b.slots[i].fd
    && forall k :: 0 <= k < |b.slots| && k != i ==> c.slots[k] == b.slots[k]
  }

  lemma {:induction false} MsgsTouchOneSlot(bus: Bus, i: nat, msgs: seq<Message>)
    requires i < |bus.slots|
    requires forall k :: 0 <= k < |msgs| ==> !msgs[k].Faulty()
    ensures OnlySlot(bus, AfterMsgs(bus, i, msgs), i)
    ensures AfterMsgs(bus, i, msgs).slots[i] ==
            match LastRegister(msgs) case Some(b) => bus.slots[i].(reg := b, valid := true) case None => bus.slots[i]
  {
    if msgs != [] {
      MsgsTouchOneSlot(bus, i, msgs[..|msgs| - 1]);
    }
  }

  /** The register byte of the last write message. */
  function LastRegister(msgs: seq<Message>): Option<byte>
    requires forall k :: 0 <= k < |msgs| ==> !msgs[k].Faulty()
  {
    if msgs == [] then None
    else
      var m := msgs[|msgs| - 1];
      assert !m.Faulty();
      if !m.read && m.len > 0 then Some(m.buf.value[0]) else LastRegister(msgs[..|msgs| - 1])
  }

  /** The register byte a call writes on its own descriptor, if it writes one. */
  function PointerByte(on: set<Chip>, bus: Bus, op: Op): Option<byte>
    requires Live(bus, op.fd)
  {
    var emulated := ChipAt(on, SlotOf(bus, op.fd).addr).Some?;
    match op
    case Write(_, data) => if emulated && |data| > 0 then Some(data[0]) else None
    case Rdwr(_, msgs) => if Accepted(on, msgs) then LastRegister(msgs[..Faultless(msgs)]) else None
    case SmbusOp(_, rq) =>
      if emulated && rq.Request? && rq.size != QUICK && rq.rw != 1 && (rq.size == BYTE || rq.data.Some?)
      then Some(rq.command) else None
    case _ => None
  }

  /** A call that makes a descriptor's pointer void: opening or closing it, or choosing another target. */
  predicate Forgets(bus: Bus, op: Op, fd: int) {
    op.fd == fd
    && (op.Open? || op.Close? || (op.Select? && Live(bus, fd) && op.addr != SlotOf(bus, fd).addr))
  }

  lemma StepKeepsValid(on: set<Chip>, bus: Bus, op: Op)
    requires Valid(bus) && LegalStep(bus, op)
    ensures Valid(Next(on, bus, op))
  {
    hide ChipAt, Accepted;
    var i := Find(bus.slots, if op.Open? then -1 else op.fd);
    if op.Rdwr? && i < |bus.slots| {
      MsgsTouchOneSlot(bus, i, op.msgs[..Faultless(op.msgs)]);
    }
  }

  /** A call leaves every other descriptor's slot as it was. */
  lemma OtherDescriptorsUntouched(on: set<Chip>, bus: Bus, op: Op, fd: int)
    requires Valid(bus) && LegalStep(bus, op)
    requires fd >= 0 && fd != op.fd
    ensures Live(Next(on, bus, op), fd) <==> Live(bus, fd)
    ensures Live(bus, fd) ==> SlotOf(Next(on, bus, op), fd) == SlotOf(bus, fd)
  {
    hide ChipAt, Accepted;
    var i := Find(bus.slots, if op.Open? then -1 else op.fd);
    var next := Next(on, bus, op);
    if i < |bus.slots| {
      if op.Rdwr? {
        MsgsTouchOneSlot(bus, i, op.msgs[..Faultless(op.msgs)]);
      }
      assert next.slots == bus.slots[i := next.slots[i]];
      FindKeeps(bus.slots, i, next.slots[i], fd);
    }
  }

  /** What a call other than opening and closing does to its own descriptor's pointer. */
  lemma OwnPointer(on: set<Chip>, bus: Bus, op: Op)
    requires Valid(bus) && LegalStep(bus, op) && Live(bus, op.fd) && !op.Close?
    ensures Live(Next(on, bus, op), op.fd)
    ensures var s, t := SlotOf(bus, op.fd), SlotOf(Next(on, bus, op), op.fd);
            && (PointerByte(on, bus, op).Some? ==> t.valid && t.reg == PointerByte(on, bus, op).value)
            && (Forgets(bus, op, op.fd) ==> !t.valid)
            && (PointerByte(on, bus, op).None? && !Forgets(bus, op, op.fd) ==> t == s)
  {
    hide ChipAt, Accepted;
    var i := Find(bus.slots, op.fd);
    var next := Next(on, bus, op);
    if op.Rdwr? {
      MsgsTouchOneSlot(bus, i, op.msgs[..Faultless(op.msgs)]);
    }
    assert next.slots == bus.slots[i := next.slots[i]];
    FindKeeps(bus.slots, i, next.slots[i], op.fd);
  }

  lemma {:induction false} RunIsValid(on: set<Chip>, ops: seq<Op>)
    requires Legal(on, ops)
    ensures Valid(Run(on, ops))
  {
    if ops != [] {
      RunIsValid(on, ops[..|ops| - 1]);
      StepKeepsValid(on, Run(on, ops[..|ops| - 1]), ops[|ops| - 1]);
    }
  }

  // ---- the register pointer over a run ------------------------------------

  predicate SetAt(on: set<Chip>, ops: seq<Op>, fd: int, i: int) {
    && 0 <= i < |ops| && ops[i].fd == fd
    && Live(Run(on, ops[..i]), fd)
    && PointerByte(on, Run(on, ops[..i]), ops[i]).Some?
  }

  predicate ForgottenAt(on: set<Chip>, ops: seq<Op>, fd: int, i: int) {
    0 <= i < |ops| && Forgets(Run(on, ops[..i]), ops[i], fd)
  }

  lemma EventsOfPrefix(on: set<Chip>, ops: seq<Op>, fd: int)
    requires ops != []
    ensures forall i :: 0 <= i < |ops| - 1 ==> SetAt(on, ops, fd, i) == SetAt(on, ops[..|ops| - 1], fd, i)
    ensures forall i :: 0 <= i < |ops| - 1 ==> ForgottenAt(on, ops, fd, i) == ForgottenAt(on, ops[..|ops| - 1], fd, i)
  {
    hide Run, PointerByte, Live, Forgets;
    assert forall i :: 0 <= i < |ops| - 1 ==> ops[..|ops| - 1][..i] == ops[..i];
  }

  /** The latest pointer-setting call on a descriptor, if nothing has made it void since; otherwise -1. */
  function LatestSet(on: set<Chip>, ops: seq<Op>, fd: int): (r: int)
    ensures -1 <= r < |ops|
    ensures r >= 0 ==> SetAt(on, ops, fd, r)
    decreases |ops|
  {
    var n := |ops| - 1;
    if ops == [] then -1
    else if SetAt(on, ops, fd, n) then n
    else if ForgottenAt(on, ops, fd, n) then -1
    else
      EventsOfPrefix(on, ops, fd);
      LatestSet(on, ops[..n], fd)
  }

  /** `LatestSet` names the last setting call that nothing voided, and is -1 when every one has been voided. */
  lemma {:induction false} LatestSetMeaning(on: set<Chip>, ops: seq<Op>, fd: int)
    ensures var r := LatestSet(on, ops, fd);
            if r >= 0 then
              && SetAt(on, ops, fd, r)
              && forall j :: r < j < |ops| ==> !SetAt(on, ops, fd, j) && !ForgottenAt(on, ops, fd, j)
            else
              forall i :: 0 <= i < |ops| && SetAt(on, ops, fd, i) ==>
                            exists j :: i < j < |ops| && ForgottenAt(on, ops, fd, j)
    decreases |ops|
  {
    hide SetAt, ForgottenAt;
    if ops == [] {
      return;
    }
    var n := |ops| - 1;
    if !SetAt(on, ops, fd, n) && !ForgottenAt(on, ops, fd, n) {
      var p := ops[..n];
      LatestSetMeaning(on, p, fd);
      EventsOfPrefix(on, ops, fd);
      var r := LatestSet(on, p, fd);
      if r < 0 {
        forall i | 0 <= i < |ops| && SetAt(on, ops, fd, i)
          ensures exists j :: i < j < |ops| && ForgottenAt(on, ops, fd, j)
        {
          assert SetAt(on, p, fd, i);
          var j :| i < j < |p| && ForgottenAt(on, p, fd, j);
          assert ForgottenAt(on, ops, fd, j);
        }
      }
    }
  }

  /**
   * In every reachable state, a live descriptor's pointer is valid exactly when some call set it and none has made it
   * void since, and then it is the byte of the latest such call.
   */
  lemma {:induction false} PointerHistory(on: set<Chip>, ops: seq<Op>, fd: int)
    requires Legal(on, ops) && fd >= 0 && Live(Run(on, ops), fd)
    ensures var s, i := SlotOf(Run(on, ops), fd), LatestSet(on, ops, fd);
            && (s.valid <==> i >= 0)
            && (i >= 0 ==> Some(s.reg) == PointerByte(on, Run(on, ops[..i]), ops[i]))
    decreases |ops|
  {
    if ops == [] {
      return;
    }
    var n := |ops| - 1;
    var p, op := ops[..n], ops[n];
    var before := Run(on, p);
    RunIsValid(on, p);
    if op.fd != fd {
      OtherDescriptorsUntouched(on, before, op, fd);
      PointerHistory(on, p, fd);
      LatestSetPrefix(on, ops, fd);
    } else if op.Open? {
      OpenedFresh(on, before, fd);
    } else if op.Close? {
      ClosedGone(on, before, fd);
      assert false;
    } else {
      assert Live(before, fd);
      OwnPointer(on, before, op);
      if !SetAt(on, ops, fd, n) && !ForgottenAt(on, ops, fd, n) {
        PointerHistory(on, p, fd);
        LatestSetPrefix(on, ops, fd);
      }
    }
  }

  lemma LatestSetPrefix(on: set<Chip>, ops: seq<Op>, fd: int)
    requires ops != [] && !SetAt(on, ops, fd, |ops| - 1) && !ForgottenAt(on, ops, fd, |ops| - 1)
    ensures var p := ops[..|ops| - 1];
            var i := LatestSet(on, p, fd);
            LatestSet(on, ops, fd) == i && (i >= 0 ==> p[..i] == ops[..i] && p[i] == ops[i])
  {
  }

  lemma OpenedFresh(on: set<Chip>, bus: Bus, fd: int)
    requires Valid(bus) && fd >= 0 && !Live(bus, fd) && Live(Next(on, bus, Open(fd)), fd)
    ensures !SlotOf(Next(on, bus, Open(fd)), fd).valid
  {
    var i := Find(bus.slots, -1);
    FindIs(bus.slots[i := Slot(fd, -1, 0, false)], fd, i);
  }

  lemma ClosedGone(on: set<Chip>, bus: Bus, fd: int)
    requires Valid(bus) && fd >= 0
    ensures !Live(Next(on, bus, Close(fd)), fd)
  {
    var i := Find(bus.slots, fd);
    if i < |bus.slots| {
      FindIs(Next(on, bus, Close(fd)).slots, fd, |bus.slots|);
    }
  }

  /** The pointer belongs to the descriptor, not to the address: a transfer to another chip moves it all the same. */
  lemma TransferElsewhereMovesPointer(on: set<Chip>, bus: Bus, fd: int, addr: word, reg: byte)
    requires Valid(bus) && fd >= 0 && Live(bus, fd) && ChipAt(on, addr).Some?
    ensures var op := Rdwr(fd, [Msg(addr, false, 1, Some([reg]))]);
            && Live(Next(on, bus, op), fd)
            && Pointer(SlotOf(Next(on, bus, op), fd)) == reg
            && SlotOf(Next(on, bus, op), fd).addr == SlotOf(bus, fd).addr
  {
    var m: Message := Msg(addr, false, 1, Some([reg]));
    var op := Rdwr(fd, [m]);
    assert Faultless([m]) == 1 by {
      assert [m][..0] == [];
      assert !m.Faulty();
    }
    assert [m][..1] == [m];
    assert LastRegister([m]) == Some(reg);
    assert Accepted(on, [m]);
    OwnPointer(on, bus, op);
    MsgsTouchOneSlot(bus, Find(bus.slots, fd), [m]);
    FindKeeps(bus.slots, Find(bus.slots, fd), Next(on, bus, op).slots[Find(bus.slots, fd)], fd);
  }
}
