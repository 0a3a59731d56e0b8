/**
 The hand-off of outgoing messages from producer threads to a channel's I/O thread, and the
 two flags that let a producer skip the wake syscall while the I/O thread is running.
 A wake is a token that the next wait of the woken thread consumes.
 */
module NetWake {
  import opened Options

  /** Where the I/O thread is in its loop. */
  datatype Io =
    | Top                     // about to set io_thread_running
    | Poll                    // in io_thread_poll_messages
    | Send(mayIdle: bool)     // in io_thread_send_messages; mayIdle is what polling answered
    | Swap1
    | ClearRunning
    | Swap2
    | Waiters                 // about to pop a send waiter
    | SetRunning(w: nat)
    | WakeWaiter(w: nat)
    | Swap3
    | WakeDriver
    | Wait

  datatype Pc<M> =
    | Idle
    | Push(msg: M)                  // in send_msg, about to push
    | Enlist(msg: M)                // the queue was full: about to join the send waiters
    // maybe_wake_io_thread; `todo` is the message still to be pushed, for a producer that will block
    | Request(todo: Option<M>)      // about to set io_thread_wake_requested
    | Check(todo: Option<M>)        // about to load io_thread_running
    | Wake(todo: Option<M>)         // about to wake the I/O thread
    | Blocked(msg: M)               // waiting to be woken

  /** `out` and `pushed` are history: messages handed to the connection, messages queued. */
  datatype Mem<M> = Mem(
    cap: nat,
    running: bool,
    requested: bool,
    queue: seq<M>,
    waiters: seq<nat>,
    kept: Option<M>,
    ioToken: bool,
    tokens: set<nat>,
    out: seq<M>,
    pushed: seq<M>)

  datatype State<M> = State(m: Mem<M>, io: Io, prods: map<nat, Pc<M>>)

  datatype Event<M> =
    | IoStep(idle: bool, accepted: bool, more: bool) // the choices are the connection's answers
    | IoDrop(msg: M)                // a stream dropped on the I/O thread queues its close message
    | DriverSignal                  // the driver signals the connection the I/O thread waits on
    | CallSend(p: nat, msg: M)
    | CallWake(p: nat)              // a reader asks for the I/O thread to run
    | Produce(p: nat)
    | Nudge(p: nat)                 // some other wake of producer `p`

  ghost predicate Init<M>(s: State<M>) {
    && s.m == Mem(s.m.cap, false, false, [], [], None, false, {}, [], [])
    && s.io == Top
    && forall p | p in s.prods :: s.prods[p] == Idle
  }

  function Flat<M>(kept: Option<M>): seq<M> {
    if kept.Some? then [kept.value] else []
  }

  /** One step of the I/O thread. */
  ghost predicate IoEffect<M>(m: Mem<M>, io: Io, idle: bool, accepted: bool, more: bool, m': Mem<M>, io': Io) {
    match io
    case Top => m' == m.(running := true) && io' == Poll
    case Poll => m' == m && io' == Send(idle)
    case Send(mayIdle) =>
      if m.kept.Some? then
        if accepted then m' == m.(kept := None, out := m.out + [m.kept.value]) && io' == Send(mayIdle)
        else m' == m && io' == Top
      else if m.queue != [] then
        if accepted then
          && m' == m.(queue := m.queue[1..], out := m.out + [m.queue[0]])
          && io' == if more then Send(mayIdle) else Top // after 32 messages the loop starts over
        else m' == m.(queue := m.queue[1..], kept := Some(m.queue[0])) && io' == Top
      else m' == m && io' == if mayIdle then Swap1 else Top
    case Swap1 => m' == m.(requested := false) && io' == if m.requested then Top else ClearRunning
    case ClearRunning => m' == m.(running := false) && io' == Swap2
    case Swap2 => m' == m.(requested := false) && io' == if m.requested then Top else Waiters
    case Waiters =>
      if m.waiters != [] then m' == m.(waiters := m.waiters[1..]) && io' == SetRunning(m.waiters[0])
      else m' == m && io' == Swap3
    case SetRunning(w) => m' == m.(running := true) && io' == WakeWaiter(w)
    case WakeWaiter(w) => m' == m.(tokens := m.tokens + {w}) && io' == Top
    case Swap3 => m' == m.(requested := false) && io' == if m.requested then Top else WakeDriver
    case WakeDriver => m' == m && io' == Wait
    case Wait => m.ioToken && m' == m.(ioToken := false) && io' == Top
  }

  /** One step of producer `p` inside `send_msg` or `maybe_wake_io_thread`. */
  ghost predicate Effect<M>(m: Mem<M>, p: nat, pc: Pc<M>, m': Mem<M>, pc': Pc<M>) {
    match pc
    case Idle => false
    case Push(msg) =>
      if |m.queue| < m.cap
      then m' == m.(queue := m.queue + [msg], pushed := m.pushed + [msg]) && pc' == Request(None)
      else m' == m && pc' == Enlist(msg)
    case Enlist(msg) => m' == m.(waiters := m.waiters + [p]) && pc' == Request(Some(msg))
    case Request(todo) => m' == m.(requested := true) && pc' == Check(todo)
    case Check(todo) => m' == m && pc' == if m.running then Done(todo) else Wake(todo)
    case Wake(todo) => m' == m.(ioToken := true) && pc' == Done(todo)
    case Blocked(msg) => p in m.tokens && m' == m.(tokens := m.tokens - {p}) && pc' == Push(msg)
  }

  function Done<M>(todo: Option<M>): Pc<M> {
    if todo.Some? then Blocked(todo.value) else Idle
  }

  ghost predicate ProducerStep<M>(s: State<M>, p: nat, s': State<M>) {
    && p in s.prods && p in s'.prods && s'.io == s.io
    && s'.prods == s.prods[p := s'.prods[p]]
    && Effect(s.m, p, s.prods[p], s'.m, s'.prods[p])
  }

  ghost predicate Step<M>(s: State<M>, e: Event<M>, s': State<M>) {
    match e
    case IoStep(idle, accepted, more) =>
      s'.prods == s.prods && IoEffect(s.m, s.io, idle, accepted, more, s'.m, s'.io)
    case IoDrop(msg) =>
      && s.io == Poll && |s.m.queue| < s.m.cap
      && s' == s.(m := s.m.(queue := s.m.queue + [msg], pushed := s.m.pushed + [msg]))
    case DriverSignal => s' == s.(m := s.m.(ioToken := true))
    case CallSend(p, msg) => p in s.prods && s.prods[p] == Idle && s' == s.(prods := s.prods[p := Push(msg)])
    case CallWake(p) => p in s.prods && s.prods[p] == Idle && s' == s.(prods := s.prods[p := Request(None)])
    case Produce(p) => ProducerStep(s, p, s')
    case Nudge(p) => s' == s.(m := s.m.(tokens := s.m.tokens + {p}))
  }

  ghost predicate Next<M(!new)>(s: State<M>, s': State<M>) {
    exists e :: Step(s, e, s')
  }

  ghost predicate IsRun<M(!new)>(run: seq<State<M>>) {
    && |run| > 0 && Init(run[0])
    && forall i | 0 <= i < |run| - 1 :: Next(run[i], run[i + 1])
  }

  // ---------------------------------------------------------------------------------------
  // The invariant
  // ---------------------------------------------------------------------------------------

  /** Some producer has queued something and is about to raise the request flag. */
  ghost predicate Requesting<M>(s: State<M>) {
    exists p :: p in s.prods && s.prods[p].Request?
  }

  /** Some producer is between its enqueue and the end of `maybe_wake_io_thread`. */
  ghost predicate InFlight<M>(s: State<M>) {
    exists p :: p in s.prods && (s.prods[p].Request? || s.prods[p].Check? || s.prods[p].Wake?)
  }

  /** The I/O thread found the queue empty and is on its way to sleep. */
  ghost predicate Settling(io: Io) {
    io == Swap1 || io == ClearRunning || io == Swap2 || io == Waiters || io == Swap3
  }

  ghost predicate Asleep(io: Io) {
    io == WakeDriver || io == Wait
  }

  ghost predicate FlagsOk<M>(s: State<M>) {
    && (Settling(s.io) && s.m.queue != [] ==> s.m.requested || Requesting(s))
    && (s.io == Swap3 && s.m.waiters != [] ==> s.m.requested || Requesting(s))
    && (Asleep(s.io) && (s.m.queue != [] || s.m.waiters != []) ==> s.m.ioToken || InFlight(s))
    && (s.io == Swap2 || s.io == Waiters || s.io == Swap3 || Asleep(s.io) ==> !s.m.running)
    && (Settling(s.io) || Asleep(s.io) ==> s.m.kept.None?)
  }

  /** A producer that will block, or is blocked, can count on being woken. */
  ghost predicate WillBeWoken<M>(s: State<M>, p: nat) {
    p in s.m.waiters || p in s.m.tokens || s.io == SetRunning(p) || s.io == WakeWaiter(p)
  }

  ghost predicate Committed<M>(pc: Pc<M>) {
    || pc.Blocked?
    || ((pc.Request? || pc.Check? || pc.Wake?) && pc.todo.Some?)
  }

  ghost predicate Inv<M>(s: State<M>) {
    && FlagsOk(s)
    && (forall p | p in s.prods && Committed(s.prods[p]) :: WillBeWoken(s, p))
    && Conserved(s.m)
  }

  lemma InitInv<M>(s: State<M>)
    requires Init(s)
    ensures Inv(s)
  {
  }

  /** What was pushed is what was handed over, what is kept back and what is queued. */
  ghost predicate Conserved<M>(m: Mem<M>) {
    m.out + Flat(m.kept) + m.queue == m.pushed && |m.queue| <= m.cap
  }

  lemma IoConserves<M>(m: Mem<M>, io: Io, idle: bool, accepted: bool, more: bool, m': Mem<M>, io': Io)
    requires Conserved(m) && IoEffect(m, io, idle, accepted, more, m', io')
    ensures Conserved(m')
  {
  }

  lemma IoFlags<M>(s: State<M>, idle: bool, accepted: bool, more: bool, s': State<M>)
    requires Inv(s) && Step(s, IoStep(idle, accepted, more), s')
    ensures FlagsOk(s')
  {
    assert Requesting(s') == Requesting(s) && InFlight(s') == InFlight(s);
    assert Requesting(s) ==> InFlight(s);
    hide Requesting;
    hide InFlight;
  }

  lemma IoInv<M>(s: State<M>, idle: bool, accepted: bool, more: bool, s': State<M>)
    requires Inv(s) && Step(s, IoStep(idle, accepted, more), s')
    ensures Inv(s')
  {
    IoFlags(s, idle, accepted, more, s');
    IoConserves(s.m, s.io, idle, accepted, more, s'.m, s'.io);
    hide FlagsOk;
    hide Conserved;
    forall p | p in s'.prods && Committed(s'.prods[p]) ensures WillBeWoken(s', p) {
      assert WillBeWoken(s, p);
    }
  }

  lemma ProducerInv<M>(s: State<M>, p: nat, s': State<M>)
    requires Inv(s) && Step(s, Produce(p), s')
    ensures Inv(s')
  {
    FlagsAfter(s, p, s');
    hide FlagsOk;
    forall q | q in s'.prods && Committed(s'.prods[q]) ensures WillBeWoken(s', q) {
      if q != p || Committed(s.prods[q]) { assert WillBeWoken(s, q); }
    }
  }

  lemma FlagsAfter<M>(s: State<M>, p: nat, s': State<M>)
    requires Inv(s) && Step(s, Produce(p), s')
    ensures FlagsOk(s')
  {
    var pc, pc' := s.prods[p], s'.prods[p];
    if Requesting(s) && !pc.Request? {
      var q :| q in s.prods && s.prods[q].Request?;
      assert q in s'.prods && s'.prods[q].Request?;
    }
    if InFlight(s) && !pc.Check? && !pc.Wake? && !pc.Request? {
      var q :| q in s.prods && (s.prods[q].Request? || s.prods[q].Check? || s.prods[q].Wake?);
      assert q in s'.prods && s'.prods[q] == s.prods[q];
    }
    if pc'.Request? || pc'.Check? || pc'.Wake? { assert InFlight(s'); }
    if pc'.Request? { assert Requesting(s'); }
  }

  lemma CallInv<M>(s: State<M>, p: nat, pc: Pc<M>)
    requires Inv(s) && p in s.prods && s.prods[p] == Idle && !Committed(pc)
    ensures Inv(s.(prods := s.prods[p := pc]))
  {
    var s' := s.(prods := s.prods[p := pc]);
    if Requesting(s) {
      var q :| q in s.prods && s.prods[q].Request?;
      assert q in s'.prods && s'.prods[q].Request?;
    }
    if InFlight(s) {
      var q :| q in s.prods && (s.prods[q].Request? || s.prods[q].Check? || s.prods[q].Wake?);
      assert q in s'.prods && s'.prods[q] == s.prods[q];
    }
    forall q | q in s'.prods && Committed(s'.prods[q]) ensures WillBeWoken(s', q) {
      assert WillBeWoken(s, q);
    }
  }

  lemma StepInv<M>(s: State<M>, e: Event<M>, s': State<M>)
    requires Inv(s) && Step(s, e, s')
    ensures Inv(s')
  {
    match e
    case IoStep(idle, accepted, more) => IoInv(s, idle, accepted, more, s');
    case CallSend(p, msg) => CallInv(s, p, Push(msg));
    case CallWake(p) => CallInv(s, p, Request(None));
    case Produce(p) => ProducerInv(s, p, s');
    case _ =>
      assert Requesting(s') == Requesting(s) && InFlight(s') == InFlight(s);
      forall p | p in s'.prods && Committed(s'.prods[p]) ensures WillBeWoken(s', p) {
        assert WillBeWoken(s, p);
      }
  }

  lemma {:induction false} RunInv<M(!new)>(run: seq<State<M>>, i: nat)
    requires IsRun(run) && i < |run|
    ensures Inv(run[i])
  {
    hide Inv;
    if i == 0 {
      InitInv(run[0]);
    } else {
      RunInv(run, i - 1);
      assert Next(run[i - 1], run[i - 1 + 1]);
      var e :| Step(run[i - 1], e, run[i]);
      StepInv(run[i - 1], e, run[i]);
    }
  }

  /**
   No wakeup is lost: in every run, when the I/O thread is blocked in its wait with no pending
   wake and no producer is between its enqueue and the end of `maybe_wake_io_thread`, there is
   no message to send, no thread waiting for room, and no producer blocked without a wake of
   its own pending; and everything ever pushed has been handed to the connection, in order.
   */
  lemma NoLostWakeup<M(!new)>(run: seq<State<M>>, i: nat)
    requires IsRun(run) && i < |run|
    requires run[i].io == Wait && !run[i].m.ioToken && !InFlight(run[i])
    ensures var m := run[i].m;
            && m.queue == [] && m.waiters == []
            && (forall p | p in run[i].prods && run[i].prods[p].Blocked? :: p in m.tokens)
            && m.out == m.pushed
  {
    RunInv(run, i);
    var s := run[i];
    forall p | p in s.prods && s.prods[p].Blocked? ensures p in s.m.tokens {
      assert Committed(s.prods[p]) && WillBeWoken(s, p);
    }
  }

  /** In every run the messages leave in the order they were pushed, and the assertion before sleeping holds. */
  lemma MessagesLeaveInOrder<M(!new)>(run: seq<State<M>>, i: nat)
    requires IsRun(run) && i < |run|
    ensures var s := run[i];
            && s.m.out <= s.m.pushed && s.m.out + Flat(s.m.kept) + s.m.queue == s.m.pushed
            && (s.io == Swap1 ==> s.m.kept.None?)
  {
    RunInv(run, i);
  }
}
