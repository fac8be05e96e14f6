/**
 * The plugin session: the reader loop, the bounded event channel, the settings behind their lock and the cancelled
 * context, as steps that interleave with the consumer and with whoever ends the session.
 */
module Session {

  /** What the host sends after Welcome. */
  datatype Message = Settings(json: string) | Stop | Other(id: int)

  /** Where the reader loop is. */
  datatype Loop =
    | Receiving                // waiting for a message
    | Storing(msg: Message)    // a settings message, not yet stored
    | Sending(msg: Message)    // waiting to put the message on the channel
    | Leaving                  // returning: the context is cancelled next
    | Cancelling               // then the channel is closed
    | Finished

  const CAPACITY: nat := 256

  datatype State = State(
    loop: Loop,
    received: seq<Message>,    // everything the stream delivered
    queue: seq<Message>,       // on the channel
    consumed: seq<Message>,    // taken by the consumer
    setting: string,
    failed: bool,              // the stream ended with an error
    cancelled: bool,
    closes: nat)               // how often the channel was closed

  datatype Step =
    | Receive(msg: Message)
    | StreamFails
    | Store
    | Enqueue
    | Abandon                  // the context is done: give the message up
    | CancelSelf
    | CloseEvents
    | CancelOutside            // Close, or the caller's context
    | Consume

  function Init(welcome: string): State {
    State(Receiving, [], [], [], welcome, false, false, 0)
  }

  predicate Enabled(s: State, step: Step) {
    match step
    case Receive(_) => s.loop == Receiving
    case StreamFails => s.loop == Receiving
    case Store => s.loop.Storing? && s.loop.msg.Settings?
    case Enqueue => s.loop.Sending? && |s.queue| < CAPACITY
    case Abandon => s.loop.Sending? && s.cancelled
    case CancelSelf => s.loop == Leaving
    case CloseEvents => s.loop == Cancelling
    case CancelOutside => true
    case Consume => s.queue != []
  }

  function Next(s: State, step: Step): State
    requires Enabled(s, step)
  {
    match step
    case Receive(m) => s.(received := s.received + [m], loop := if m.Settings? then Storing(m) else Sending(m))
    case StreamFails => s.(failed := true, loop := Leaving)
    case Store => s.(setting := s.loop.msg.json, loop := Sending(s.loop.msg))
    case Enqueue => s.(queue := s.queue + [s.loop.msg], loop := if s.loop.msg.Stop? then Leaving else Receiving)
    case Abandon => s.(loop := Leaving)
    case CancelSelf => s.(cancelled := true, loop := Cancelling)
    case CloseEvents => s.(closes := s.closes + 1, loop := Finished)
    case CancelOutside => s.(cancelled := true)
    case Consume => s.(consumed := s.consumed + [s.queue[0]], queue := s.queue[1..])
  }

  /** The state after a run, each step being enabled when it is taken. */
  predicate Runs(s: State, steps: seq<Step>, end: State)
    decreases |steps|
  {
    if steps == [] then s == end else Enabled(s, steps[0]) && Runs(Next(s, steps[0]), steps[1..], end)
  }

  /** The values of the settings messages, in order. */
  function Values(msgs: seq<Message>): seq<string> {
    if msgs == [] then []
    else
      var m := msgs[|msgs| - 1];
      Values(msgs[..|msgs| - 1]) + if m.Settings? then [m.json] else []
  }

  function Last(welcome: string, values: seq<string>): string {
    if values == [] then welcome else values[|values| - 1]
  }

  /** The messages whose settings have been stored. */
  function Stored(s: State): seq<Message> {
    if s.loop.Storing? && s.received != [] then s.received[..|s.received| - 1] else s.received
  }

  ghost predicate Inv(welcome: string, s: State) {
    && s.consumed + s.queue <= s.received
    && |s.queue| <= CAPACITY
    && (s.loop.Receiving? ==> s.received == s.consumed + s.queue && Stop !in s.received)
    && (s.loop.Storing? || s.loop.Sending? ==> s.received == s.consumed + s.queue + [s.loop.msg])
    && (s.loop.Storing? ==> s.loop.msg.Settings?)
    && (forall i :: 0 <= i < |s.received| - 1 ==> s.received[i] != Stop)
    && s.setting == Last(welcome, Values(Stored(s)))
    && s.closes == (if s.loop.Finished? then 1 else 0)
    && (s.loop.Cancelling? || s.loop.Finished? ==> s.cancelled)
    && (s.failed ==> s.loop.Leaving? || s.loop.Cancelling? || s.loop.Finished?)
  }

  lemma ValuesAppend(msgs: seq<Message>, m: Message)
    ensures Values(msgs + [m]) == Values(msgs) + if m.Settings? then [m.json] else []
  {
    assert (msgs + [m])[..|msgs|] == msgs;
  }

  lemma ReceiveKeeps(welcome: string, s: State, m: Message)
    requires Inv(welcome, s) && Enabled(s, Receive(m))
    ensures Inv(welcome, Next(s, Receive(m)))
  {
    hide Values;
    assert (s.received + [m])[..|s.received|] == s.received;
    ValuesAppend(s.received, m);
    assert Values(s.received) + [] == Values(s.received);
  }

  lemma StoreKeeps(welcome: string, s: State)
    requires Inv(welcome, s) && Enabled(s, Store)
    ensures Inv(welcome, Next(s, Store))
  {
    hide Values;
    ValuesAppend(s.consumed + s.queue, s.loop.msg);
  }

  lemma EnqueueKeeps(welcome: string, s: State)
    requires Inv(welcome, s) && Enabled(s, Enqueue)
    ensures Inv(welcome, Next(s, Enqueue))
  {
    hide Values, Last;
    var n := Next(s, Enqueue);
    assert n.consumed + n.queue == s.consumed + s.queue + [s.loop.msg];
  }

  lemma ConsumeKeeps(welcome: string, s: State)
    requires Inv(welcome, s) && Enabled(s, Consume)
    ensures Inv(welcome, Next(s, Consume))
  {
    hide Values, Last;
    var n := Next(s, Consume);
    assert n.consumed + n.queue == s.consumed + s.queue;
  }

  lemma EndingKeeps(welcome: string, s: State, step: Step)
    requires Inv(welcome, s) && Enabled(s, step)
    requires !step.Receive? && !step.Store? && !step.Enqueue? && !step.Consume?
    ensures Inv(welcome, Next(s, step))
  {
    hide Values, Last;
  }

  lemma StepKeeps(welcome: string, s: State, step: Step)
    requires Inv(welcome, s) && Enabled(s, step)
    ensures Inv(welcome, Next(s, step))
  {
    hide Inv, Next;
    match step {
      case Receive(m) => ReceiveKeeps(welcome, s, m);
      case Store => StoreKeeps(welcome, s);
      case Enqueue => EnqueueKeeps(welcome, s);
      case Consume => ConsumeKeeps(welcome, s);
      case _ => EndingKeeps(welcome, s, step);
    }
  }

  lemma {:induction false} RunKeeps(welcome: string, s: State, steps: seq<Step>, end: State)
    requires Inv(welcome, s) && Runs(s, steps, end)
    ensures Inv(welcome, end)
    decreases |steps|
  {
    hide Inv, Next;
    if steps != [] {
      StepKeeps(welcome, s, steps[0]);
      RunKeeps(welcome, Next(s, steps[0]), steps[1..], end);
    }
  }

  lemma Start(welcome: string, steps: seq<Step>, s: State)
    requires Runs(Init(welcome), steps, s)
    ensures Inv(welcome, s)
  {
    RunKeeps(welcome, Init(welcome), steps, s);
  }

  /** The consumer sees a prefix of what the host sent after Welcome, nothing after Stop, and at most one is lost. */
  lemma EventsInOrder(welcome: string, steps: seq<Step>, s: State)
    requires Runs(Init(welcome), steps, s)
    ensures s.consumed <= s.received
    ensures forall i :: 0 <= i < |s.consumed| && s.consumed[i] == Stop ==>
              i == |s.consumed| - 1 == |s.received| - 1 && s.queue == []
    ensures |s.received| <= |s.consumed| + |s.queue| + 1
  {
    LosesAtMostOne(Init(welcome), steps, s);
    Start(welcome, steps, s);
    assert forall i :: 0 <= i < |s.consumed| ==> s.consumed[i] == (s.consumed + s.queue)[i] == s.received[i];
  }

  /** Nothing is lost: what was received is on the channel or consumed, but for the message being handled. */
  ghost predicate Undisturbed(s: State) {
    && (s.cancelled ==> s.loop.Cancelling? || s.loop.Finished?)
    && s.received == s.consumed + s.queue + (if s.loop.Storing? || s.loop.Sending? then [s.loop.msg] else [])
    && (!s.failed && (s.loop.Leaving? || s.loop.Cancelling? || s.loop.Finished?) ==>
          s.received != [] && s.received[|s.received| - 1] == Stop)
  }

  lemma UndisturbedStep(s: State, step: Step)
    requires Undisturbed(s) && Enabled(s, step) && step != CancelOutside
    ensures Undisturbed(Next(s, step))
  {
    var n := Next(s, step);
    assert step.Consume? ==> n.consumed + n.queue == s.consumed + s.queue;
    assert step.Enqueue? ==> n.consumed + n.queue == s.consumed + s.queue + [s.loop.msg];
  }

  lemma {:induction false} UndisturbedRun(s: State, steps: seq<Step>, end: State)
    requires Undisturbed(s) && Runs(s, steps, end) && CancelOutside !in steps
    ensures Undisturbed(end)
    decreases |steps|
  {
    hide Undisturbed, Next;
    if steps != [] {
      UndisturbedStep(s, steps[0]);
      UndisturbedRun(Next(s, steps[0]), steps[1..], end);
    }
  }

  /**
   * A message is given up only when the context was cancelled from outside: without that, everything received is
   * consumed or on the channel, but for the message being handled, and the loop ends only at Stop or the stream's end.
   */
  lemma LostOnlyWhenCancelled(welcome: string, steps: seq<Step>, s: State)
    requires Runs(Init(welcome), steps, s) && CancelOutside !in steps
    ensures s.received == s.consumed + s.queue + (if s.loop.Storing? || s.loop.Sending? then [s.loop.msg] else [])
    ensures s.loop.Finished? ==> s.failed || (s.received != [] && s.received[|s.received| - 1] == Stop)
  {
    UndisturbedRun(Init(welcome), steps, s);
  }

  /** At most one message is given up, the last one received. */
  lemma {:induction false} LosesAtMostOne(s: State, steps: seq<Step>, end: State)
    requires |s.received| <= |s.consumed| + |s.queue| + (if s.loop.Receiving? then 0 else 1) && Runs(s, steps, end)
    ensures |end.received| <= |end.consumed| + |end.queue| + (if end.loop.Receiving? then 0 else 1)
    decreases |steps|
  {
    if steps != [] {
      LosesAtMostOne(Next(s, steps[0]), steps[1..], end);
    }
  }

  lemma NotFailed(welcome: string, steps: seq<Step>, s: State)
    requires Runs(Init(welcome), steps, s) && s.loop.Receiving?
    ensures !s.failed
  {
    Start(welcome, steps, s);
  }

  /** What is known of a loop that has returned. */
  lemma Ended(welcome: string, steps: seq<Step>, s: State)
    requires Runs(Init(welcome), steps, s) && s.loop.Finished?
    ensures forall i :: 0 <= i < |s.received| - 1 ==> s.received[i] != Stop
    ensures s.consumed + s.queue <= s.received && |s.received| <= |s.consumed + s.queue| + 1
    ensures s.consumed + s.queue < s.received ==> CancelOutside in steps
    ensures CancelOutside !in steps ==> s.failed || (s.received != [] && s.received[|s.received| - 1] == Stop)
  {
    Start(welcome, steps, s);
    LosesAtMostOne(Init(welcome), steps, s);
    if CancelOutside !in steps {
      LostOnlyWhenCancelled(welcome, steps, s);
    }
  }

  /** The channel holds at most 256 messages, and the loop waits for room only while it holds exactly that many. */
  lemma WaitsOnlyWhenFull(welcome: string, steps: seq<Step>, s: State)
    requires Runs(Init(welcome), steps, s)
    ensures |s.queue| <= 256
    ensures s.loop.Sending? && !Enabled(s, Enqueue) ==> |s.queue| == 256
  {
    Start(welcome, steps, s);
  }

  /** The channel closes at most once, after the context is cancelled, and nothing is ever put on it once closed. */
  lemma ChannelClosesOnce(welcome: string, steps: seq<Step>, s: State)
    requires Runs(Init(welcome), steps, s)
    ensures s.closes <= 1
    ensures s.closes == 1 ==> s.cancelled
    ensures s.closes == 1 ==> !Enabled(s, Enqueue) && !Enabled(s, CloseEvents)
  {
    Start(welcome, steps, s);
  }

  lemma {:induction false} ValuesGrow(a: seq<Message>, b: seq<Message>)
    requires a <= b
    ensures Values(a) <= Values(b)
    decreases |b|
  {
    if a != b {
      ValuesGrow(a, b[..|b| - 1]);
    } else {
      assert a == b;
    }
  }

  /** The k-th value: the one Welcome brought for k = 0, that of the k-th settings message otherwise. */
  function Kth(welcome: string, values: seq<string>, k: nat): string
    requires k <= |values|
  {
    if k == 0 then welcome else values[k - 1]
  }

  /** A consumer that has taken k settings events gets, from `Settings`, the value of the k-th or of a later one. */
  lemma SettingsNotStale(welcome: string, steps: seq<Step>, s: State)
    requires Runs(Init(welcome), steps, s)
    ensures exists k :: |Values(s.consumed)| <= k <= |Values(s.received)|
                        && s.setting == Kth(welcome, Values(s.received), k)
  {
    Start(welcome, steps, s);
    var stored := Stored(s);
    assert s.consumed <= stored by {
      assert s.consumed <= s.consumed + s.queue;
    }
    ValuesGrow(s.consumed, stored);
    ValuesGrow(stored, s.received);
    var k := |Values(stored)|;
    assert s.setting == Kth(welcome, Values(s.received), k);
  }

  /** `Settings` never goes back: over any further run the value it returns is the same or a later one. */
  lemma SettingsMoveForward(welcome: string, steps: seq<Step>, s: State, more: seq<Step>, t: State)
    requires Runs(Init(welcome), steps, s) && Runs(s, more, t)
    ensures Values(Stored(s)) <= Values(Stored(t))
    ensures s.setting == Last(welcome, Values(Stored(s))) && t.setting == Last(welcome, Values(Stored(t)))
  {
    Start(welcome, steps, s);
    RunKeeps(welcome, s, more, t);
    StoredGrows(welcome, s, more, t);
    ValuesGrow(Stored(s), Stored(t));
  }

  lemma StoredGrowsStep(welcome: string, s: State, step: Step)
    requires Inv(welcome, s) && Enabled(s, step)
    ensures Stored(s) <= Stored(Next(s, step))
  {
    hide Values, Last;
  }

  lemma {:induction false} StoredGrows(welcome: string, s: State, more: seq<Step>, t: State)
    requires Inv(welcome, s) && Runs(s, more, t)
    ensures Stored(s) <= Stored(t)
    decreases |more|
  {
    if more != [] {
      var n := Next(s, more[0]);
      StepKeeps(welcome, s, more[0]);
      StoredGrowsStep(welcome, s, more[0]);
      hide Inv, Next, Stored;
      StoredGrows(welcome, n, more[1..], t);
    }
  }

  lemma {:induction false} RunsAppend(s: State, steps: seq<Step>, t: State, step: Step)
    requires Runs(s, steps, t) && Enabled(t, step)
    ensures Runs(s, steps + [step], Next(t, step))
    decreases |steps|
  {
    hide Next;
    if steps == [] {
      assert [] + [step] == [step] && [step][1..] == [];
      assert Runs(Next(t, step), [step][1..], Next(t, step));
    } else {
      assert (steps + [step])[0] == steps[0];
      assert (steps + [step])[1..] == steps[1..] + [step];
      RunsAppend(Next(s, steps[0]), steps[1..], t, step);
    }
  }

  /**
   * The client object. `trace` records the steps taken since Welcome; `Traced` says the object is where they lead, so
   * everything proved of runs above holds of it whenever it does.
   */
  class Client {
    var loop: Loop
    var received: seq<Message>
    var events: seq<Message>
    var consumed: seq<Message>
    var setting: string
    var failed: bool
    var cancelled: bool
    var closes: nat
    ghost const welcome: string
    ghost var trace: seq<Step>

    ghost function View(): State
      reads this
    {
      State(loop, received, events, consumed, setting, failed, cancelled, closes)
    }

    ghost predicate Traced()
      reads this
    {
      Runs(Init(welcome), trace, View())
    }

    constructor (welcome: string)
      ensures Traced() && trace == [] && loop == Receiving && received == []
    {
      loop, received, events, consumed, setting := Receiving, [], [], [], welcome;
      failed, cancelled, closes := false, false, 0;
      this.welcome, trace := welcome, [];
    }

    /** Records the step that led from `before` to here. */
    ghost method Took(before: State, step: Step)
      requires Runs(Init(welcome), trace, before) && Enabled(before, step) && View() == Next(before, step)
      modifies `trace
      ensures Traced() && trace == old(trace) + [step]
    {
      RunsAppend(Init(welcome), trace, before, step);
      trace := trace + [step];
    }

    /**
     * `readLoop`, on a stream that delivers these messages and then fails. Whatever runs beside it may act between any
     * two of its steps. It ends: at the first Stop, at the stream's failure, or giving a message up once the context
     * was cancelled from outside; and then it has cancelled the context and closed the channel, once. Unless the
     * context was cancelled from outside, every message it received was delivered.
     */
    method ReadLoop(stream: seq<Message>)
      requires Traced() && loop == Receiving && received == []
      modifies this
      ensures Traced() && loop == Finished && cancelled && closes == 1
      ensures received <= stream && (failed ==> received == stream)
      ensures forall i :: 0 <= i < |received| - 1 ==> received[i] != Stop
      ensures consumed + events <= received && |received| <= |consumed + events| + 1
      ensures consumed + events < received ==> CancelOutside in trace
      ensures CancelOutside !in trace ==> failed || (received != [] && received[|received| - 1] == Stop)
    {
      hide Runs, Values;
      NotFailed(welcome, trace, View());
      var next := 0;
      ghost var before;
      while loop == Receiving
        invariant Traced() && 0 <= next <= |stream| && received == stream[..next]
        invariant loop == Receiving || loop == Leaving
        invariant failed ==> next == |stream|
        decreases |stream| - next + if loop == Receiving then 1 else 0
      {
        Others();
        before := View();
        if next == |stream| {
          failed, loop := true, Leaving;
          Took(before, StreamFails);
        } else {
          var msg := stream[next];
          assert stream[..next + 1] == stream[..next] + [msg];
          next := next + 1;
          HandleReceived(msg);
        }
      }
      Return();
      Ended(welcome, trace, View());
    }

    /** The deferred calls: cancel the context, close the channel. */
    method Return()
      requires Traced() && loop == Leaving
      modifies `loop, `events, `consumed, `cancelled, `closes, `trace
      ensures Traced() && loop == Finished && cancelled && closes == 1
      ensures consumed + events == old(consumed + events)
    {
      hide Runs;
      Others();
      ghost var before := View();
      cancelled, loop := true, Cancelling;
      Took(before, CancelSelf);
      Others();
      before := View();
      closes, loop := closes + 1, Finished;
      Took(before, CloseEvents);
      Start(welcome, trace, View());
    }

    /** One turn of the loop, once `Recv` returned a message: store a setting, then send or give up. */
    method HandleReceived(msg: Message)
      requires Traced() && loop == Receiving
      modifies this
      ensures Traced() && received == old(received) + [msg]
      ensures (loop == Receiving || loop == Leaving) && failed == old(failed)
    {
      hide Runs;
      ghost var before := View();
      received := received + [msg];
      loop := if msg.Settings? then Storing(msg) else Sending(msg);
      Took(before, Receive(msg));
      if msg.Settings? {
        Others();
        before := View();
        setting, loop := msg.json, Sending(msg);
        Took(before, Store);
      }
      SendOrGiveUp(msg);
    }

    /** The `select`, and the return after Stop. */
    method SendOrGiveUp(msg: Message)
      requires Traced() && loop == Sending(msg)
      modifies `loop, `events, `consumed, `cancelled, `trace
      ensures Traced()
      ensures (loop == Receiving || loop == Leaving) && failed == old(failed)
    {
      hide Runs, Values;
      Ready();
      ghost var before := View();
      Start(welcome, trace, before);
      if
      case |events| < CAPACITY =>
        events := events + [msg];
        loop := if msg.Stop? then Leaving else Receiving;
        Took(before, Enqueue);
      case cancelled =>
        loop := Leaving;
        Took(before, Abandon);
    }

    /** What may happen beside the loop: events are taken, the context is cancelled. */
    method Others()
      requires Traced()
      modifies `events, `consumed, `cancelled, `trace
      ensures Traced() && consumed + events == old(consumed + events)
      ensures |events| <= |old(events)| && (old(cancelled) ==> cancelled)
    {
      var turns: nat := *;
      while turns > 0
        invariant Traced() && consumed + events == old(consumed + events)
        invariant |events| <= |old(events)| && (old(cancelled) ==> cancelled)
        decreases turns
      {
        turns := turns - 1;
        if
        case events != [] =>
          var m := TakeEvent();
        case true =>
          Close();
      }
    }

    /** The wait in the `select`: it is over once there is room or the context is cancelled. */
    method Ready()
      requires Traced()
      modifies `events, `consumed, `cancelled, `trace
      ensures Traced() && consumed + events == old(consumed + events)
      ensures |events| < CAPACITY || cancelled
    {
      Others();
      if |events| >= CAPACITY && !cancelled {
        Start(welcome, trace, View());
        if * {
          var m := TakeEvent();
        } else {
          Close();
        }
      }
    }

    /** `Close`, or the caller's context. */
    method Close()
      requires Traced()
      modifies `cancelled, `trace
      ensures Traced() && cancelled
    {
      ghost var before := View();
      cancelled := true;
      Took(before, CancelOutside);
    }

    /** The consumer's receive from `Events`. */
    method TakeEvent() returns (m: Message)
      requires Traced() && events != []
      modifies `events, `consumed, `trace
      ensures Traced() && m == old(events)[0]
      ensures events == old(events)[1..] && consumed == old(consumed) + [m]
    {
      ghost var before := View();
      m := events[0];
      consumed, events := consumed + [m], events[1..];
      Took(before, Consume);
    }

    /** `Settings`: for a consumer of k events, the value of the k-th settings message or of a later one. */
    method CurrentSettings() returns (s: string)
      requires Traced()
      ensures s == setting
      ensures exists k :: |Values(consumed)| <= k <= |Values(received)| && s == Kth(welcome, Values(received), k)
    {
      SettingsNotStale(welcome, trace, View());
      s := setting;
    }
  }
}
