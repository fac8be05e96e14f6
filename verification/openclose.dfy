/**
 * Opening and closing from several threads: the kernel's open and close, and the slot table's insert and clear, are
 * separate steps, and any thread, or any other call on the bus, may run between any two of them.
 */
module OpenClose {
  import B = Bus
  import Chips
  import H = History

  /** Where a thread is. `Half` is between the two halves of a close. */
  datatype Thread = Idle | Opened(fd: nat) | Refused(fd: nat) | Closing(fd: nat) | Half(fd: nat)

  /** The kernel's open descriptors, the bus, the threads, and the fake and other descriptors that callers hold. */
  datatype State = State(kernel: set<nat>, bus: B.Bus, threads: seq<Thread>, held: set<nat>, others: set<nat>)

  datatype Step =
    | KernelOpen(t: nat, fd: nat)   // fake_open: the kernel picks a descriptor
    | Insert(t: nat)                // fake_open: under the lock, take a free slot, or find there is none
    | RefusedClose(t: nat)          // fake_open: give the descriptor back and fail with ENFILE
    | BeginClose(t: nat, fd: nat)   // close: called on a descriptor the caller holds
    | Clear(t: nat)                 // close: under the lock, free the slot
    | KernelClose(t: nat)           // close: the real close
    | OtherOpen(fd: nat)            // a descriptor that is not the shim's
    | Call(op: B.Op)                // any other call, on any descriptor

  function Init(threads: nat): State {
    State({}, B.Init(), seq(threads, _ => Idle), {}, {})
  }

  /** What a step needs. The kernel gives out no descriptor that is open, and no caller closes what it does not hold. */
  predicate Enabled(clearFirst: bool, s: State, step: Step) {
    match step
    case KernelOpen(t, fd) => t < |s.threads| && s.threads[t] == Idle && fd !in s.kernel
    case Insert(t) => t < |s.threads| && s.threads[t].Opened?
    case RefusedClose(t) => t < |s.threads| && s.threads[t].Refused?
    case BeginClose(t, fd) => t < |s.threads| && s.threads[t] == Idle && (fd in s.held || fd in s.others)
    case Clear(t) => t < |s.threads| && (if clearFirst then s.threads[t].Closing? else s.threads[t].Half?)
    case KernelClose(t) => t < |s.threads| && (if clearFirst then s.threads[t].Half? else s.threads[t].Closing?)
    case OtherOpen(fd) => fd !in s.kernel
    case Call(op) => op.fd >= 0 && !op.Open? && !op.Close?
  }

  function Move(s: State, t: nat, to: Thread): State
    requires t < |s.threads|
  {
    s.(threads := s.threads[t := to])
  }

  /** One step, with the slot cleared before the kernel's close (as the code does) or after it. */
  function Next(on: set<Chips.Chip>, clearFirst: bool, s: State, step: Step): State
    requires Enabled(clearFirst, s, step)
  {
    match step
    case KernelOpen(t, fd) => Move(s.(kernel := s.kernel + {fd}), t, Opened(fd))
    case Insert(t) =>
      var fd := s.threads[t].fd;
      var inserted := s.(bus := B.Next(on, s.bus, B.Open(fd)));
      if B.Live(s.bus, -1) then Move(inserted.(held := s.held + {fd}), t, Idle) else Move(inserted, t, Refused(fd))
    case RefusedClose(t) => Move(s.(kernel := s.kernel - {s.threads[t].fd}), t, Idle)
    case BeginClose(t, fd) => Move(s.(held := s.held - {fd}, others := s.others - {fd}), t, Closing(fd))
    case Clear(t) =>
      var fd := s.threads[t].fd;
      Move(s.(bus := B.Next(on, s.bus, B.Close(fd))), t, if clearFirst then Half(fd) else Idle)
    case KernelClose(t) =>
      var fd := s.threads[t].fd;
      Move(s.(kernel := s.kernel - {fd}), t, if clearFirst then Idle else Half(fd))
    case OtherOpen(fd) => s.(kernel := s.kernel + {fd}, others := s.others + {fd})
    case Call(op) => s.(bus := B.Next(on, s.bus, op))
  }

  predicate Runs(on: set<Chips.Chip>, clearFirst: bool, s: State, steps: seq<Step>, end: State)
    decreases |steps|
  {
    if steps == [] then s == end
    else Enabled(clearFirst, s, steps[0]) && Runs(on, clearFirst, Next(on, clearFirst, s, steps[0]), steps[1..], end)
  }

  // ---- the bus under the calls --------------------------------------------

  /** The same descriptors have slots in both states, but for `fd`. */
  ghost predicate SameLive(b: B.Bus, c: B.Bus, fd: int) {
    forall f: nat :: f != fd ==> (B.Live(c, f) <==> B.Live(b, f))
  }

  lemma OpenLive(on: set<Chips.Chip>, bus: B.Bus, fd: nat)
    requires B.Valid(bus) && !B.Live(bus, fd)
    ensures var next := B.Next(on, bus, B.Open(fd));
            B.Valid(next) && SameLive(bus, next, fd) && (B.Live(next, fd) <==> B.Live(bus, -1))
  {
    var op := B.Open(fd);
    H.StepKeepsValid(on, bus, op);
    forall f: nat | f != fd ensures B.Live(B.Next(on, bus, op), f) <==> B.Live(bus, f) {
      H.OtherDescriptorsUntouched(on, bus, op, f);
    }
    var i := B.Find(bus.slots, -1);
    if i < |bus.slots| {
      B.FindIs(bus.slots[i := B.Slot(fd, -1, 0, false)], fd, i);
    }
  }

  lemma CloseLive(on: set<Chips.Chip>, bus: B.Bus, fd: nat)
    requires B.Valid(bus)
    ensures var next := B.Next(on, bus, B.Close(fd));
            B.Valid(next) && SameLive(bus, next, fd) && !B.Live(next, fd)
  {
    var op := B.Close(fd);
    H.StepKeepsValid(on, bus, op);
    forall f: nat | f != fd ensures B.Live(B.Next(on, bus, op), f) <==> B.Live(bus, f) {
      H.OtherDescriptorsUntouched(on, bus, op, f);
    }
    H.ClosedGone(on, bus, fd);
  }

  lemma CallLive(on: set<Chips.Chip>, bus: B.Bus, op: B.Op)
    requires B.Valid(bus) && op.fd >= 0 && !op.Open? && !op.Close?
    ensures var next := B.Next(on, bus, op);
            B.Valid(next) && forall f: nat :: B.Live(next, f) <==> B.Live(bus, f)
  {
    H.StepKeepsValid(on, bus, op);
    forall f: nat ensures B.Live(B.Next(on, bus, op), f) <==> B.Live(bus, f) {
      if f != op.fd {
        H.OtherDescriptorsUntouched(on, bus, op, f);
      } else if B.Live(bus, f) {
        H.OwnPointer(on, bus, op);
      }
    }
  }

  // ---- the invariant ------------------------------------------------------

  /** Whether a thread has a descriptor on its way in or out. */
  predicate Has(th: Thread, fd: int) {
    th != Idle && th.fd == fd
  }

  ghost predicate InFlight(threads: seq<Thread>, fd: int) {
    exists t :: 0 <= t < |threads| && Has(threads[t], fd)
  }

  ghost predicate BeingClosed(threads: seq<Thread>, fd: int) {
    exists t :: 0 <= t < |threads| && threads[t].Closing? && Has(threads[t], fd)
  }

  ghost predicate OneThreadEach(threads: seq<Thread>) {
    forall t, u, fd :: 0 <= t < u < |threads| && Has(threads[t], fd) ==> !Has(threads[u], fd)
  }

  /** Every open descriptor has exactly one owner: a caller, or one thread. */
  ghost predicate Owned(s: State) {
    && (forall fd: nat :: fd in s.kernel <==> fd in s.held || fd in s.others || InFlight(s.threads, fd))
    && (forall fd: nat :: fd in s.held || fd in s.others ==> !InFlight(s.threads, fd))
    && s.held !! s.others
    && OneThreadEach(s.threads)
  }

  /** The slot table holds the descriptors callers hold, and perhaps some that are about to be cleared. */
  ghost predicate Tabled(s: State) {
    && B.Valid(s.bus)
    && (forall fd: nat :: B.Live(s.bus, fd) ==> fd in s.held || BeingClosed(s.threads, fd))
    && (forall fd: nat :: fd in s.held ==> B.Live(s.bus, fd))
  }

  ghost predicate Inv(s: State) {
    Owned(s) && Tabled(s)
  }

  /** What one thread's move does to the descriptors in flight. */
  lemma MoveInFlight(threads: seq<Thread>, t: nat, to: Thread)
    requires t < |threads| && OneThreadEach(threads)
    ensures forall fd :: InFlight(threads[t := to], fd) <==>
                           Has(to, fd) || (InFlight(threads, fd) && !Has(threads[t], fd))
    ensures forall fd :: BeingClosed(threads[t := to], fd) <==>
                           (to.Closing? && Has(to, fd)) || (BeingClosed(threads, fd) && !Has(threads[t], fd))
    ensures (forall fd :: Has(to, fd) ==> Has(threads[t], fd) || !InFlight(threads, fd))
            ==> OneThreadEach(threads[t := to])
  {
    var moved := threads[t := to];
    forall fd ensures InFlight(moved, fd) <==> Has(to, fd) || (InFlight(threads, fd) && !Has(threads[t], fd)) {
      assert Has(to, fd) ==> Has(moved[t], fd);
      if InFlight(threads, fd) && !Has(threads[t], fd) {
        var u :| 0 <= u < |threads| && Has(threads[u], fd);
        assert Has(moved[u], fd);
      }
    }
    forall fd ensures BeingClosed(moved, fd) <==>
                        (to.Closing? && Has(to, fd)) || (BeingClosed(threads, fd) && !Has(threads[t], fd)) {
      assert to.Closing? && Has(to, fd) ==> moved[t].Closing? && Has(moved[t], fd);
      if BeingClosed(threads, fd) && !Has(threads[t], fd) {
        var u :| 0 <= u < |threads| && threads[u].Closing? && Has(threads[u], fd);
        assert moved[u].Closing? && Has(moved[u], fd);
      }
    }
  }

  lemma HasInFlight(threads: seq<Thread>, t: nat)
    requires t < |threads| && threads[t] != Idle
    ensures InFlight(threads, threads[t].fd)
    ensures threads[t].Closing? ==> BeingClosed(threads, threads[t].fd)
  {
    assert Has(threads[t], threads[t].fd);
  }

  /** Only a closing thread can have a descriptor that is in the table. */
  lemma NotTabled(s: State, t: nat)
    requires Inv(s) && t < |s.threads| && s.threads[t] != Idle && !s.threads[t].Closing?
    ensures !B.Live(s.bus, s.threads[t].fd)
  {
    hide B.Live, B.Valid;
    var fd := s.threads[t].fd;
    HasInFlight(s.threads, t);
    assert Has(s.threads[t], fd);
    assert !BeingClosed(s.threads, fd);
  }

  lemma InsertKeeps(on: set<Chips.Chip>, s: State, t: nat)
    requires Inv(s) && Enabled(true, s, Insert(t))
    ensures Inv(Next(on, true, s, Insert(t)))
  {
    hide B.Live, B.Valid, B.Next, InFlight, BeingClosed, OneThreadEach;
    var fd := s.threads[t].fd;
    NotTabled(s, t);
    HasInFlight(s.threads, t);
    MoveInFlight(s.threads, t, Idle);
    MoveInFlight(s.threads, t, Refused(fd));
    OpenLive(on, s.bus, fd);
  }

  lemma BeginCloseKeeps(on: set<Chips.Chip>, s: State, t: nat, fd: nat)
    requires Inv(s) && Enabled(true, s, BeginClose(t, fd))
    ensures Inv(Next(on, true, s, BeginClose(t, fd)))
  {
    hide B.Live, B.Valid, B.Next, InFlight, BeingClosed, OneThreadEach;
    MoveInFlight(s.threads, t, Closing(fd));
  }

  lemma ClearKeeps(on: set<Chips.Chip>, s: State, t: nat)
    requires Inv(s) && Enabled(true, s, Clear(t))
    ensures Inv(Next(on, true, s, Clear(t)))
  {
    hide B.Live, B.Valid, B.Next, InFlight, BeingClosed, OneThreadEach;
    var fd := s.threads[t].fd;
    HasInFlight(s.threads, t);
    MoveInFlight(s.threads, t, Half(fd));
    CloseLive(on, s.bus, fd);
  }

  lemma KernelCloseKeeps(on: set<Chips.Chip>, s: State, step: Step)
    requires Inv(s) && Enabled(true, s, step) && (step.KernelClose? || step.RefusedClose?)
    ensures Inv(Next(on, true, s, step))
  {
    hide B.Live, B.Valid, B.Next, InFlight, BeingClosed, OneThreadEach;
    NotTabled(s, step.t);
    HasInFlight(s.threads, step.t);
    MoveInFlight(s.threads, step.t, Idle);
  }

  lemma OthersKeep(on: set<Chips.Chip>, s: State, step: Step)
    requires Inv(s) && Enabled(true, s, step) && (step.KernelOpen? || step.OtherOpen? || step.Call?)
    ensures Inv(Next(on, true, s, step))
  {
    hide B.Live, B.Valid, B.Next, InFlight, BeingClosed, OneThreadEach;
    if step.KernelOpen? {
      MoveInFlight(s.threads, step.t, Opened(step.fd));
    } else if step.Call? {
      CallLive(on, s.bus, step.op);
    }
  }

  lemma StepKeeps(on: set<Chips.Chip>, s: State, step: Step)
    requires Inv(s) && Enabled(true, s, step)
    ensures Inv(Next(on, true, s, step))
  {
    hide Inv, Next;
    match step {
      case Insert(t) => InsertKeeps(on, s, t);
      case BeginClose(t, fd) => BeginCloseKeeps(on, s, t, fd);
      case Clear(t) => ClearKeeps(on, s, t);
      case KernelClose(t) => KernelCloseKeeps(on, s, step);
      case RefusedClose(t) => KernelCloseKeeps(on, s, step);
      case _ => OthersKeep(on, s, step);
    }
  }

  lemma InitInv(threads: nat)
    ensures Inv(Init(threads))
  {
    forall fd: nat ensures !B.Live(B.Init(), fd) {
      B.FindIs(B.Init().slots, fd, B.MAX_SLOTS);
    }
  }

  lemma {:induction false} RunKeeps(on: set<Chips.Chip>, s: State, steps: seq<Step>, end: State)
    requires Inv(s) && Runs(on, true, s, steps, end)
    ensures Inv(end)
    decreases |steps|
  {
    hide Inv, Next;
    if steps != [] {
      StepKeeps(on, s, steps[0]);
      RunKeeps(on, Next(on, true, s, steps[0]), steps[1..], end);
    }
  }

  // ---- what holds in every reachable state --------------------------------

  lemma {:induction false} SlotsAtLeast(slots: seq<B.Slot>, fds: set<nat>)
    requires forall fd :: fd in fds ==> exists i :: 0 <= i < |slots| && slots[i].fd == fd
    ensures |fds| <= |slots|
  {
    if slots == [] {
      assert fds == {};
    } else {
      var n := |slots| - 1;
      var last := slots[n].fd;
      var rest := set fd | fd in fds && fd != last;
      forall fd | fd in rest ensures exists i :: 0 <= i < n && slots[..n][i].fd == fd {
        var i :| 0 <= i < |slots| && slots[i].fd == fd;
        assert slots[..n][i].fd == fd;
      }
      SlotsAtLeast(slots[..n], rest);
      if last >= 0 && last in fds {
        assert fds == rest + {last};
      } else {
        assert fds == rest;
      }
    }
  }

  /**
   * From start-up, whatever the interleaving: no two slots hold one descriptor, every slot's descriptor is open in the
   * kernel, at most 32 fake descriptors are held, a descriptor the kernel just gave out is in no slot, and nothing
   * leaks: once every thread is idle the open descriptors are exactly those callers hold, and the table holds exactly
   * the fake ones.
   */
  lemma OpenCloseSafe(on: set<Chips.Chip>, threads: nat, steps: seq<Step>, s: State)
    requires Runs(on, true, Init(threads), steps, s)
    ensures B.Distinct(s.bus.slots)
    ensures forall i :: 0 <= i < |s.bus.slots| && s.bus.slots[i].fd >= 0 ==> s.bus.slots[i].fd in s.kernel
    ensures |s.held| <= 32 == |s.bus.slots|
    ensures forall t :: 0 <= t < |s.threads| && s.threads[t].Opened? ==> !B.Live(s.bus, s.threads[t].fd)
    ensures (forall t :: 0 <= t < |s.threads| ==> s.threads[t] == Idle) ==>
              && s.kernel == s.held + s.others
              && forall fd: nat :: B.Live(s.bus, fd) <==> fd in s.held
  {
    InitInv(threads);
    RunKeeps(on, Init(threads), steps, s);
    forall fd | fd in s.held ensures exists i :: 0 <= i < |s.bus.slots| && s.bus.slots[i].fd == fd {
      assert s.bus.slots[B.Find(s.bus.slots, fd)].fd == fd;
    }
    SlotsAtLeast(s.bus.slots, s.held);
    forall i | 0 <= i < |s.bus.slots| && s.bus.slots[i].fd >= 0 ensures s.bus.slots[i].fd in s.kernel {
      LiveIsOpen(s, i);
    }
    forall t | 0 <= t < |s.threads| && s.threads[t].Opened? ensures !B.Live(s.bus, s.threads[t].fd) {
      NotTabled(s, t);
    }
  }

  lemma LiveIsOpen(s: State, i: nat)
    requires Inv(s) && i < |s.bus.slots| && s.bus.slots[i].fd >= 0
    ensures s.bus.slots[i].fd in s.kernel
  {
    var fd := s.bus.slots[i].fd;
    assert B.Find(s.bus.slots, fd) <= i;
    assert B.Live(s.bus, fd);
    if BeingClosed(s.threads, fd) {
      var t :| 0 <= t < |s.threads| && s.threads[t].Closing? && Has(s.threads[t], fd);
      HasInFlight(s.threads, t);
    }
  }

  // ---- every interleaving is a legal run of calls -------------------------

  /** The call a step makes on the bus, if it makes one. */
  function CallsOf(s: State, step: Step): seq<B.Op>
    requires Enabled(true, s, step)
  {
    match step
    case Insert(t) => [B.Open(s.threads[t].fd)]
    case Clear(t) => [B.Close(s.threads[t].fd)]
    case Call(op) => [op]
    case _ => []
  }

  /** The calls of a run, in the order they are made. */
  function Calls(on: set<Chips.Chip>, s: State, steps: seq<Step>, end: State): seq<B.Op>
    requires Runs(on, true, s, steps, end)
    decreases |steps|
  {
    if steps == [] then []
    else CallsOf(s, steps[0]) + Calls(on, Next(on, true, s, steps[0]), steps[1..], end)
  }

  lemma OneMoreCall(on: set<Chips.Chip>, done: seq<B.Op>, op: B.Op)
    requires H.Legal(on, done) && H.LegalStep(H.Run(on, done), op)
    ensures H.Legal(on, done + [op]) && H.Run(on, done + [op]) == B.Next(on, H.Run(on, done), op)
  {
    hide B.Next;
    assert (done + [op])[..|done|] == done;
  }

  /** A step's call is legal where it is made, and leaves the bus as the step does. */
  lemma StepIsLegal(on: set<Chips.Chip>, done: seq<B.Op>, s: State, step: Step)
    requires Inv(s) && Enabled(true, s, step)
    requires H.Legal(on, done) && s.bus == H.Run(on, done)
    ensures H.Legal(on, done + CallsOf(s, step))
    ensures Next(on, true, s, step).bus == H.Run(on, done + CallsOf(s, step))
  {
    hide Inv, B.Next, H.Run, H.Legal;
    match step {
      case Insert(t) =>
        NotTabled(s, t);
        OneMoreCall(on, done, B.Open(s.threads[t].fd));
      case Clear(t) =>
        OneMoreCall(on, done, B.Close(s.threads[t].fd));
      case Call(op) =>
        OneMoreCall(on, done, op);
      case _ =>
        assert done + [] == done;
    }
  }

  lemma {:induction false} CallsAreLegal(on: set<Chips.Chip>, done: seq<B.Op>, s: State, steps: seq<Step>, end: State)
    requires Inv(s) && Runs(on, true, s, steps, end)
    requires H.Legal(on, done) && s.bus == H.Run(on, done)
    ensures H.Legal(on, done + Calls(on, s, steps, end))
    ensures end.bus == H.Run(on, done + Calls(on, s, steps, end))
    decreases |steps|
  {
    hide Inv, Next, H.Run, H.Legal, CallsOf;
    if steps == [] {
      assert done + [] == done;
    } else {
      var first, next := CallsOf(s, steps[0]), Next(on, true, s, steps[0]);
      StepKeeps(on, s, steps[0]);
      StepIsLegal(on, done, s, steps[0]);
      CallsAreLegal(on, done + first, next, steps[1..], end);
      assert done + (first + Calls(on, next, steps[1..], end)) == done + first + Calls(on, next, steps[1..], end);
    }
  }

  /**
   * Whatever the interleaving of threads and calls from start-up, the calls made are a legal run and the bus is where
   * they leave it: in particular none of them opens a descriptor a slot still holds.
   */
  lemma InterleavingIsLegalRun(on: set<Chips.Chip>, threads: nat, steps: seq<Step>, s: State)
    requires Runs(on, true, Init(threads), steps, s)
    ensures H.Legal(on, Calls(on, Init(threads), steps, s))
    ensures s.bus == H.Run(on, Calls(on, Init(threads), steps, s))
  {
    InitInv(threads);
    CallsAreLegal(on, [], Init(threads), steps, s);
    assert [] + Calls(on, Init(threads), steps, s) == Calls(on, Init(threads), steps, s);
  }

  /**
   * In every reachable state an idle thread can open: the three steps of its open, or two of them, bring it a slot for
   * the descriptor the kernel gave it if one is free, and leave everything as it was if none is.
   */
  lemma OpenFinishes(on: set<Chips.Chip>, threads: nat, steps: seq<Step>, s: State, t: nat, fd: nat)
    requires Runs(on, true, Init(threads), steps, s)
    requires t < |s.threads| && s.threads[t] == Idle && fd !in s.kernel
    ensures (exists i :: 0 <= i < |s.bus.slots| && s.bus.slots[i].fd == -1) ==>
              exists e :: Runs(on, true, s, [KernelOpen(t, fd), Insert(t)], e)
                          && e.held == s.held + {fd} && B.Live(e.bus, fd) && e.threads == s.threads
    ensures (forall i :: 0 <= i < |s.bus.slots| ==> s.bus.slots[i].fd != -1) ==>
              Runs(on, true, s, [KernelOpen(t, fd), Insert(t), RefusedClose(t)], s)
  {
    InitInv(threads);
    RunKeeps(on, Init(threads), steps, s);
    FreshIsNotTabled(on, s, t, fd);
    OpenLive(on, s.bus, fd);
    hide Inv, B.Next, B.Valid;
    var s1 := Next(on, true, s, KernelOpen(t, fd));
    var s2 := Next(on, true, s1, Insert(t));
    if i :| 0 <= i < |s.bus.slots| && s.bus.slots[i].fd == -1 {
      assert B.Find(s.bus.slots, -1) <= i;
      assert s2.threads == s.threads;
      TwoSteps(on, s, KernelOpen(t, fd), Insert(t), s2);
    } else {
      var s3 := Next(on, true, s2, RefusedClose(t));
      assert s3.threads == s.threads && s3.kernel == s.kernel;
      ThreeSteps(on, s, KernelOpen(t, fd), Insert(t), RefusedClose(t), s);
    }
  }

  lemma FreshIsNotTabled(on: set<Chips.Chip>, s: State, t: nat, fd: nat)
    requires Inv(s) && t < |s.threads| && s.threads[t] == Idle && fd !in s.kernel
    ensures B.Valid(s.bus) && !B.Live(s.bus, fd)
  {
    OthersKeep(on, s, KernelOpen(t, fd));
    NotTabled(Next(on, true, s, KernelOpen(t, fd)), t);
  }

  /** And it can close what it holds: afterwards the descriptor is in no slot and not open. */
  lemma CloseFinishes(on: set<Chips.Chip>, threads: nat, steps: seq<Step>, s: State, t: nat, fd: nat)
    requires Runs(on, true, Init(threads), steps, s)
    requires t < |s.threads| && s.threads[t] == Idle && fd in s.held
    ensures exists e :: Runs(on, true, s, [BeginClose(t, fd), Clear(t), KernelClose(t)], e)
                        && e.held == s.held - {fd} && e.kernel == s.kernel - {fd} && !B.Live(e.bus, fd)
                        && e.threads == s.threads
  {
    InitInv(threads);
    RunKeeps(on, Init(threads), steps, s);
    var s1 := Next(on, true, s, BeginClose(t, fd));
    CloseLive(on, s.bus, fd);
    var s2 := Next(on, true, s1, Clear(t));
    var s3 := Next(on, true, s2, KernelClose(t));
    assert s3.threads == s.threads;
    ThreeSteps(on, s, BeginClose(t, fd), Clear(t), KernelClose(t), s3);
  }

  lemma TwoSteps(on: set<Chips.Chip>, s: State, a: Step, b: Step, e: State)
    requires Enabled(true, s, a) && Enabled(true, Next(on, true, s, a), b)
    requires e == Next(on, true, Next(on, true, s, a), b)
    ensures Runs(on, true, s, [a, b], e)
  {
    hide Enabled, Next;
    assert [a, b][1..] == [b] && [b][1..] == [];
    assert Runs(on, true, e, [], e);
    assert Runs(on, true, Next(on, true, s, a), [b], e);
  }

  lemma ThreeSteps(on: set<Chips.Chip>, s: State, a: Step, b: Step, c: Step, e: State)
    requires Enabled(true, s, a) && Enabled(true, Next(on, true, s, a), b)
    requires Enabled(true, Next(on, true, Next(on, true, s, a), b), c)
    requires e == Next(on, true, Next(on, true, Next(on, true, s, a), b), c)
    ensures Runs(on, true, s, [a, b, c], e)
  {
    TwoSteps(on, Next(on, true, s, a), b, c, e);
    hide Enabled, Next;
    assert [a, b, c][1..] == [b, c];
  }

  /** With the two halves of a close exchanged, two threads can make two slots hold the same descriptor. */
  lemma ClearMustComeFirst(on: set<Chips.Chip>, fd: nat)
    ensures exists s, steps :: Runs(on, false, Init(2), steps, s) && !B.Distinct(s.bus.slots)
  {
    hide Runs;
    var s0 := Init(2);
    var s1 := Next(on, false, s0, KernelOpen(0, fd));
    B.FindIs(s1.bus.slots, -1, 0);
    var s2 := Next(on, false, s1, Insert(0));
    var s3 := Next(on, false, s2, BeginClose(0, fd));
    var s4 := Next(on, false, s3, KernelClose(0));
    var s5 := Next(on, false, s4, KernelOpen(1, fd));
    B.FindIs(s5.bus.slots, -1, 1);
    var s6 := Next(on, false, s5, Insert(1));
    NoSteps(on, s6);
    Before(on, s5, Insert(1), [], s6);
    var last := [KernelOpen(1, fd)] + ([Insert(1)] + []);
    Before(on, s4, KernelOpen(1, fd), [Insert(1)] + [], s6);
    Before(on, s3, KernelClose(0), last, s6);
    Before(on, s2, BeginClose(0, fd), [KernelClose(0)] + last, s6);
    Before(on, s1, Insert(0), [BeginClose(0, fd)] + ([KernelClose(0)] + last), s6);
    Before(on, s0, KernelOpen(0, fd), [Insert(0)] + ([BeginClose(0, fd)] + ([KernelClose(0)] + last)), s6);
    assert s6.bus.slots[0].fd == s6.bus.slots[1].fd == fd;
  }

  lemma NoSteps(on: set<Chips.Chip>, s: State)
    ensures Runs(on, false, s, [], s)
  {
  }

  lemma Before(on: set<Chips.Chip>, s: State, step: Step, rest: seq<Step>, end: State)
    requires Enabled(false, s, step) && Runs(on, false, Next(on, false, s, step), rest, end)
    ensures Runs(on, false, s, [step] + rest, end)
  {
    assert ([step] + rest)[1..] == rest;
  }
}
