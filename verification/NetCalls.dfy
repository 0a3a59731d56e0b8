/**
 The calls of `send_msg` and what becomes of each: over every run, a call that has returned pushed its
 message exactly once, whether or not it had to wait for room, and everything pushed is the message of
 one call or was queued by the I/O thread itself. The history is kept beside the hand-off and does not
 restrict it. A call that no other thread disturbs pushes or blocks, and an undisturbed I/O thread sends
 everything and sleeps.
 */
module NetCalls {
  import opened Options
  import opened NetWake
  import opened CallLog

  /** `after` is where the producers that are past their push put their message. */
  datatype Log<M> = Log(s: State<M>, after: map<nat, nat>, book: Book<M>)

  /** The message a producer has still to push. */
  ghost function Unsent<M>(pc: Pc<M>): Option<M> {
    match pc
    case Idle => None
    case Push(msg) => Some(msg)
    case Enlist(msg) => Some(msg)
    case Request(todo) => todo
    case Check(todo) => todo
    case Wake(todo) => todo
    case Blocked(msg) => Some(msg)
  }

  ghost function Sending<M>(m: Mem<M>, pc: Pc<M>, at: Option<nat>): View<M> {
    if Unsent(pc).Some? then On(Unsent(pc).value, None)
    else if pc != Idle && at.Some? && at.value < |m.pushed| then On(m.pushed[at.value], at)
    else Off
  }

  ghost function AfterOf(after: map<nat, nat>, p: nat): Option<nat> {
    if p in after then Some(after[p]) else None
  }

  ghost function SendingAt<M>(s: State<M>, after: map<nat, nat>, p: nat): View<M> {
    if p in s.prods then Sending(s.m, s.prods[p], AfterOf(after, p)) else Off
  }

  /** The producer whose step it is. */
  ghost function Actor<M>(e: Event<M>): Option<nat> {
    match e
    case CallSend(p, _) => Some(p)
    case CallWake(p) => Some(p)
    case Produce(p) => Some(p)
    case _ => None
  }

  /** The step is a producer's, and pushes its message. */
  ghost predicate Pushes<M>(s: State<M>, p: nat, s': State<M>) {
    p in s.prods && s.prods[p].Push? && |s'.m.pushed| > |s.m.pushed|
  }

  ghost function NextAfter<M>(l: Log<M>, p: nat, s': State<M>): map<nat, nat> {
    if Pushes(l.s, p, s') then l.after[p := |l.s.m.pushed|]
    else if p in s'.prods && s'.prods[p] == Idle then l.after - {p}
    else l.after
  }

  ghost function NextLog<M>(l: Log<M>, e: Event<M>, s': State<M>): Log<M> {
    match Actor(e)
    case Some(p) =>
      var after := NextAfter(l, p, s');
      Log(s', after, Noted(l.book, p, SendingAt(s', after, p), |s'.m.pushed|))
    case None => Log(s', l.after, if e.IoDrop? then NotedOther(l.book) else l.book)
  }

  ghost predicate LogStep<M>(l: Log<M>, e: Event<M>, l': Log<M>) {
    Step(l.s, e, l'.s) && l' == NextLog(l, e, l'.s)
  }

  ghost predicate IsLog<M>(run: seq<Log<M>>, events: seq<Event<M>>) {
    && |run| == |events| + 1 && Init(run[0].s) && run[0].after == map[] && Empty(run[0].book)
    && forall i | 0 <= i < |events| :: LogStep(run[i], events[i], run[i + 1])
  }

  /** Only a producer that is past its push, in maybe_wake_io_thread, has a position. */
  ghost predicate AfterOk<M>(s: State<M>, after: map<nat, nat>) {
    forall p | p in after ::
      && p in s.prods && after[p] < |s.m.pushed|
      && Unsent(s.prods[p]).None? && s.prods[p] != Idle
  }

  /** A step of a producer is a turn; what it claims is its own message, and it ends only past its push. */
  ghost predicate SendTurn<M>(v: View<M>, v': View<M>, pushed: seq<M>, pushed': seq<M>) {
    && Turn(v, v', |pushed|, |pushed'|)
    && pushed' == (if |pushed'| > |pushed| && v.On? then pushed + [v.call] else pushed)
    && (v.On? && v'.Off? ==> v.held.Some?)
  }

  lemma CallTurns<M>(l: Log<M>, e: Event<M>, l': Log<M>)
    requires AfterOk(l.s, l.after) && LogStep(l, e, l') && (e.CallSend? || e.CallWake?)
    ensures AfterOk(l'.s, l'.after)
    ensures SendTurn(SendingAt(l.s, l.after, e.p), SendingAt(l'.s, l'.after, e.p), l.s.m.pushed, l'.s.m.pushed)
  {
    hide Noted;
  }

  lemma ProduceAfter<M>(l: Log<M>, p: nat, l': Log<M>)
    requires AfterOk(l.s, l.after) && LogStep(l, Produce(p), l')
    ensures AfterOk(l'.s, l'.after)
  {
    hide Noted;
    hide SendingAt;
  }

  lemma ProduceTurns<M>(l: Log<M>, p: nat, l': Log<M>)
    requires AfterOk(l.s, l.after) && LogStep(l, Produce(p), l')
    ensures SendTurn(SendingAt(l.s, l.after, p), SendingAt(l'.s, l'.after, p), l.s.m.pushed, l'.s.m.pushed)
  {
    hide Noted;
    assert AfterOf(l.after, p).Some? ==> Unsent(l.s.prods[p]).None? && l.after[p] < |l.s.m.pushed|;
    hide AfterOk;
  }

  lemma ActorTurns<M>(l: Log<M>, e: Event<M>, l': Log<M>)
    requires AfterOk(l.s, l.after) && LogStep(l, e, l') && Actor(e).Some?
    ensures AfterOk(l'.s, l'.after)
    ensures var p := Actor(e).value;
            SendTurn(SendingAt(l.s, l.after, p), SendingAt(l'.s, l'.after, p), l.s.m.pushed, l'.s.m.pushed)
    ensures forall u: nat | Actor(e) != Some(u) :: SendingAt(l'.s, l'.after, u) == SendingAt(l.s, l.after, u)
  {
    if e.Produce? {
      ProduceAfter(l, e.p, l');
      ProduceTurns(l, e.p, l');
    } else {
      CallTurns(l, e, l');
    }
    hide LogStep;
    hide SendTurn;
    OthersStay(l, e, l');
  }

  lemma OthersStay<M>(l: Log<M>, e: Event<M>, l': Log<M>)
    requires AfterOk(l.s, l.after) && LogStep(l, e, l') && Actor(e).Some?
    ensures forall u: nat | Actor(e) != Some(u) :: SendingAt(l'.s, l'.after, u) == SendingAt(l.s, l.after, u)
  {
    hide Noted;
    var p := Actor(e).value;
    assert l.s.m.pushed <= l'.s.m.pushed;
    forall u: nat | u != p ensures SendingAt(l'.s, l'.after, u) == SendingAt(l.s, l.after, u) {
      assert AfterOf(l'.after, u) == AfterOf(l.after, u);
      assert u in l.s.prods <==> u in l'.s.prods;
      assert u in l.s.prods ==> l'.s.prods[u] == l.s.prods[u];
    }
  }

  lemma OtherSteps<M>(l: Log<M>, e: Event<M>, l': Log<M>)
    requires AfterOk(l.s, l.after) && LogStep(l, e, l') && Actor(e).None?
    ensures AfterOk(l'.s, l'.after)
    ensures |l'.s.m.pushed| == |l.s.m.pushed| + if e.IoDrop? then 1 else 0
    ensures l'.s.m.pushed == if e.IoDrop? then l.s.m.pushed + [e.msg] else l.s.m.pushed
    ensures forall u :: SendingAt(l'.s, l'.after, u) == SendingAt(l.s, l.after, u)
  {
    assert l'.s.prods == l.s.prods;
    assert l.s.m.pushed <= l'.s.m.pushed;
  }

  ghost predicate LogInv<M>(l: Log<M>) {
    && AfterOk(l.s, l.after) && BookOk(l.book)
    && (forall u :: Place(l.book, u) == SendingAt(l.s, l.after, u))
    && |l.book.claims| == |l.s.m.pushed|
    && (forall q: nat | q < |l.s.m.pushed| && l.book.claims[q].Some? :: PushedBy(l, q))
    && (forall c | c in l.book.ends :: l.book.ends[c].Some?)
  }

  ghost predicate PushedBy<M>(l: Log<M>, q: nat)
    requires q < |l.s.m.pushed| && q < |l.book.claims| && l.book.claims[q].Some?
  {
    l.book.claims[q].value < |l.book.calls| && l.book.calls[l.book.claims[q].value] == l.s.m.pushed[q]
  }

  lemma ActorBook<M>(l: Log<M>, e: Event<M>, l': Log<M>)
    requires LogInv(l) && LogStep(l, e, l') && Actor(e).Some?
    ensures BookOk(l'.book) && |l'.book.claims| == |l'.s.m.pushed| && l.book.calls <= l'.book.calls
    ensures forall u :: Place(l'.book, u) == SendingAt(l'.s, l'.after, u)
  {
    ActorTurns(l, e, l');
    var p := Actor(e).value;
    var v := SendingAt(l'.s, l'.after, p);
    assert l'.book == Noted(l.book, p, v, |l'.s.m.pushed|);
    assert forall u | u != p :: SendingAt(l'.s, l'.after, u) == Place(l.book, u);
    hide LogStep;
    hide BookOk;
    hide Noted;
    hide SendingAt;
    assert Place(l.book, p) == SendingAt(l.s, l.after, p);
    hide LogInv;
    NotedOk(l.book, p, v, |l'.s.m.pushed|);
  }

  lemma ActorClaims<M>(l: Log<M>, e: Event<M>, l': Log<M>)
    requires LogInv(l) && LogStep(l, e, l') && Actor(e).Some?
    ensures l.book.calls <= l'.book.calls
    ensures |l'.s.m.pushed| <= |l.s.m.pushed| ==> l'.s.m.pushed == l.s.m.pushed && l'.book.claims == l.book.claims
    ensures |l'.s.m.pushed| > |l.s.m.pushed| ==>
              && Actor(e).value in l.book.current
              && var c := l.book.current[Actor(e).value];
              && c < |l.book.calls| && l'.s.m.pushed == l.s.m.pushed + [l.book.calls[c]]
              && l'.book.claims == l.book.claims + [Some(c)]
  {
    ActorTurns(l, e, l');
    var p := Actor(e).value;
    var v := SendingAt(l'.s, l'.after, p);
    assert l'.book == Noted(l.book, p, v, |l'.s.m.pushed|);
    hide LogStep;
    hide BookOk;
    hide Noted;
    hide SendingAt;
    assert Place(l.book, p) == SendingAt(l.s, l.after, p) && |l.book.claims| == |l.s.m.pushed|;
    hide LogInv;
    NotedOk(l.book, p, v, |l'.s.m.pushed|);
  }

  lemma ActorEnds<M>(l: Log<M>, e: Event<M>, l': Log<M>, c: nat)
    requires LogInv(l) && LogStep(l, e, l') && Actor(e).Some? && c in l'.book.ends
    ensures l'.book.ends[c].Some?
  {
    ActorTurns(l, e, l');
    var p := Actor(e).value;
    var v := SendingAt(l'.s, l'.after, p);
    assert l'.book == Noted(l.book, p, v, |l'.s.m.pushed|);
    hide LogStep;
    hide AfterOk;
    hide BookOk;
    hide Noted;
    hide SendingAt;
    EndsStay(l.book, p, v, |l'.s.m.pushed|, c);
  }

  lemma ActorInv<M>(l: Log<M>, e: Event<M>, l': Log<M>)
    requires LogInv(l) && LogStep(l, e, l') && Actor(e).Some?
    ensures LogInv(l')
  {
    ActorTurns(l, e, l');
    ActorBook(l, e, l');
    ActorClaims(l, e, l');
    forall c | c in l'.book.ends ensures l'.book.ends[c].Some? { ActorEnds(l, e, l', c); }
    hide LogStep;
    hide SendTurn;
    hide AfterOk;
    hide BookOk;
    hide SendingAt;
    forall q: nat | q < |l'.s.m.pushed| && l'.book.claims[q].Some? ensures PushedBy(l', q) {
      if q < |l.s.m.pushed| { assert PushedBy(l, q); }
    }
  }

  lemma OthersInv<M>(l: Log<M>, e: Event<M>, l': Log<M>)
    requires LogInv(l) && LogStep(l, e, l') && Actor(e).None?
    ensures LogInv(l')
  {
    OtherSteps(l, e, l');
    OtherOk(l.book);
    hide Step;
    hide AfterOk;
    hide BookOk;
    hide SendingAt;
    forall u ensures Place(l'.book, u) == SendingAt(l'.s, l'.after, u) {
      assert Place(l.book, u) == SendingAt(l.s, l.after, u);
    }
    forall q: nat | q < |l'.s.m.pushed| && l'.book.claims[q].Some? ensures PushedBy(l', q) {
      assert PushedBy(l, q);
    }
  }

  lemma LogInit<M>(l: Log<M>)
    requires Init(l.s) && l.after == map[] && Empty(l.book)
    ensures LogInv(l)
  {
    EmptyOk(l.book);
    hide BookOk;
  }

  lemma {:induction false} LogRunInv<M>(run: seq<Log<M>>, events: seq<Event<M>>, n: nat)
    requires IsLog(run, events) && n < |run|
    ensures LogInv(run[n])
  {
    hide LogInv;
    hide LogStep;
    if n == 0 {
      LogInit(run[0]);
    } else {
      LogRunInv(run, events, n - 1);
      if Actor(events[n - 1]).Some? {
        ActorInv(run[n - 1], events[n - 1], run[n]);
      } else {
        OthersInv(run[n - 1], events[n - 1], run[n]);
      }
    }
  }

  /**
   What becomes of every call of send_msg, in every run: one that has returned pushed its message, at
   one position that no other call has; what is at a call's position is its message; a call that has
   not returned is that of a producer that holds its message or is past its push; and with every
   producer idle every call has returned.
   */
  lemma SendsArePushed<M>(run: seq<Log<M>>, events: seq<Event<M>>, n: nat)
    requires IsLog(run, events) && n < |run|
    ensures var m, b := run[n].s.m, run[n].book;
            && |b.claims| == |m.pushed|
            && (forall q: nat | q < |m.pushed| && b.claims[q].Some? ::
                  b.claims[q].value < |b.calls| && b.calls[b.claims[q].value] == m.pushed[q])
            && (forall q: nat, r: nat | q < r < |m.pushed| && b.claims[q].Some? :: b.claims[q] != b.claims[r])
            && (forall c | c in b.ends ::
                  b.ends[c].Some? && b.ends[c].value < |m.pushed| && b.claims[b.ends[c].value] == Some(c))
            && (forall c: nat | c < |b.calls| && c !in b.ends :: HeldBy(run[n], c))
            && ((forall p | p in run[n].s.prods :: run[n].s.prods[p] == Idle) ==>
                  forall c: nat | c < |b.calls| :: c in b.ends)
  {
    LogRunInv(run, events, n);
    var m, b := run[n].s.m, run[n].book;
    forall c: nat | c < |b.calls| && c !in b.ends ensures HeldBy(run[n], c) {
      var p :| p in b.current && b.current[p] == c;
      assert ThreadOk(b, p) && Place(b, p) == SendingAt(run[n].s, run[n].after, p);
    }
    hide BookOk;
    forall q: nat | q < |m.pushed| && b.claims[q].Some?
      ensures b.claims[q].value < |b.calls| && b.calls[b.claims[q].value] == m.pushed[q]
    {
      assert PushedBy(run[n], q);
    }
    forall q: nat, r: nat | q < r < |m.pushed| && b.claims[q].Some? ensures b.claims[q] != b.claims[r] {
      if b.claims[q] == b.claims[r] { ClaimsOnce(b, q, r); }
    }
    forall c | c in b.ends
      ensures b.ends[c].Some? && b.ends[c].value < |m.pushed| && b.claims[b.ends[c].value] == Some(c)
    {
      EndsInOrder(b, c);
    }
    if forall p | p in run[n].s.prods :: run[n].s.prods[p] == Idle {
      forall c: nat | c < |b.calls| ensures c in b.ends {
        assert forall p :: Place(b, p) == SendingAt(run[n].s, run[n].after, p);
        AllEnded(b, c);
      }
    }
  }

  /** The call is in progress in a producer that holds its message, or has pushed it. */
  ghost predicate HeldBy<M>(l: Log<M>, c: nat)
    requires c < |l.book.calls|
  {
    exists p ::
      && p in l.book.current && l.book.current[p] == c && p in l.s.prods
      && (|| Unsent(l.s.prods[p]) == Some(l.book.calls[c])
          || (p in l.after && l.after[p] < |l.s.m.pushed| && l.s.m.pushed[l.after[p]] == l.book.calls[c]))
  }

  lemma {:induction false} ClaimsGrow<M>(run: seq<Log<M>>, events: seq<Event<M>>, i: nat, n: nat)
    requires IsLog(run, events) && i <= n < |run|
    ensures run[i].book.claims <= run[n].book.claims
  {
    if i < n {
      ClaimsGrow(run, events, i, n - 1);
      assert LogStep(run[n - 1], events[n - 1], run[n]);
    }
  }

  /** A message sent after another call had returned is pushed, and so leaves, after that call's. */
  lemma LaterSendsFollow<M>(run: seq<Log<M>>, events: seq<Event<M>>, i: nat, n: nat, c: nat, c': nat)
    requires IsLog(run, events) && i <= n < |run| && c in run[i].book.ends
    requires |run[i].book.calls| <= c' && c' in run[n].book.ends
    ensures run[i].book.ends[c].Some? && run[n].book.ends[c'].Some?
    ensures run[i].book.ends[c].value < run[n].book.ends[c'].value
  {
    LogRunInv(run, events, i);
    LogRunInv(run, events, n);
    ClaimsGrow(run, events, i, n);
    hide BookOk;
    EndsInOrder(run[n].book, c');
    LaterClaims(run[i].book, run[n].book, c, c', run[n].book.ends[c'].value);
  }

  ghost predicate DroppedAt<M>(run: seq<Log<M>>, events: seq<Event<M>>, q: nat, msg: M, i: nat) {
    i < |events| && i < |run| && |run[i].s.m.pushed| == q && events[i] == IoDrop(msg)
  }

  /** What was pushed by no call was queued by the I/O thread for a dropped stream. */
  lemma {:induction false} OthersAreDrops<M>(run: seq<Log<M>>, events: seq<Event<M>>, n: nat, q: nat)
    requires IsLog(run, events) && n < |run| && q < |run[n].book.claims| && run[n].book.claims[q].None?
    ensures q < |run[n].s.m.pushed| && exists i :: 0 <= i < n && DroppedAt(run, events, q, run[n].s.m.pushed[q], i)
  {
    hide LogInv;
    hide LogStep;
    hide Init;
    if n > 0 {
      var l, e, l' := run[n - 1], events[n - 1], run[n];
      LogRunInv(run, events, n - 1);
      StepClaims(l, e, l', q);
      if q < |l.book.claims| {
        OthersAreDrops(run, events, n - 1, q);
        var i :| 0 <= i < n - 1 && DroppedAt(run, events, q, l.s.m.pushed[q], i);
        assert DroppedAt(run, events, q, l'.s.m.pushed[q], i);
      } else {
        assert DroppedAt(run, events, q, l'.s.m.pushed[q], n - 1);
      }
    } else {
      assert false;
    }
  }

  lemma StepClaims<M>(l: Log<M>, e: Event<M>, l': Log<M>, q: nat)
    requires LogInv(l) && LogStep(l, e, l') && q < |l'.book.claims| && l'.book.claims[q].None?
    ensures l.s.m.pushed <= l'.s.m.pushed && l.book.claims <= l'.book.claims && q < |l'.s.m.pushed|
    ensures |l.s.m.pushed| == |l.book.claims|
    ensures q >= |l.book.claims| ==> q == |l.s.m.pushed| && e == IoDrop(l'.s.m.pushed[q])
  {
    if Actor(e).Some? { ActorClaims(l, e, l'); } else { OtherSteps(l, e, l'); }
  }

  // ---------------------------------------------------------------------------------------
  // A call that no other thread disturbs
  // ---------------------------------------------------------------------------------------

  datatype Local<M> = Local(m: Mem<M>, pc: Pc<M>)

  ghost predicate Alone<M>(run: seq<Local<M>>, p: nat) {
    |run| > 0 && forall i | 0 <= i < |run| - 1 :: Effect(run[i].m, p, run[i].pc, run[i + 1].m, run[i + 1].pc)
  }

  /** They are steps of the producer, whatever the other threads are at. */
  lemma AloneSteps<M>(s: State<M>, p: nat, run: seq<Local<M>>, i: nat)
    requires p in s.prods && Alone(run, p) && i + 1 < |run|
    ensures Step(State(run[i].m, s.io, s.prods[p := run[i].pc]), Produce(p),
                 State(run[i + 1].m, s.io, s.prods[p := run[i + 1].pc]))
  {
    assert s.prods[p := run[i].pc][p := run[i + 1].pc] == s.prods[p := run[i + 1].pc];
    assert Effect(run[i].m, p, run[i].pc, run[i + 1].m, run[i + 1].pc);
    hide Effect;
  }

  /** maybe_wake_io_thread raises the request flag, and wakes the I/O thread unless it is running. */
  lemma WakeAlone<M>(m: Mem<M>, p: nat, todo: Option<M>) returns (run: seq<Local<M>>)
    ensures Alone(run, p) && run[0] == Local(m, Request(todo))
    ensures run[|run| - 1] == Local(m.(requested := true, ioToken := m.ioToken || !m.running), Done(todo))
  {
    var m' := m.(requested := true);
    run := [Local(m, Request(todo)), Local(m', Check(todo))];
    if m.running {
      run := run + [Local(m', Done(todo))];
    } else {
      run := run + [Local(m', Wake(todo)), Local(m'.(ioToken := true), Done(todo))];
    }
  }

  /**
   A send_msg that runs alone queues its message and returns, or, if there is no room, blocks as a
   waiter; and either way the I/O thread is running or will be woken.
   */
  lemma SendAlone<M>(m: Mem<M>, p: nat, msg: M) returns (run: seq<Local<M>>)
    ensures Alone(run, p) && run[0] == Local(m, Push(msg))
    ensures var l := run[|run| - 1];
            && l.m.requested && (m.running || l.m.ioToken)
            && if |m.queue| < m.cap
               then l.pc == Idle && l.m.queue == m.queue + [msg] && l.m.pushed == m.pushed + [msg]
               else l.pc == Blocked(msg) && l.m.waiters == m.waiters + [p] && l.m.pushed == m.pushed
  {
    if |m.queue| < m.cap {
      var rest := WakeAlone(m.(queue := m.queue + [msg], pushed := m.pushed + [msg]), p, None);
      run := [Local(m, Push(msg))] + rest;
    } else {
      var rest := WakeAlone(m.(waiters := m.waiters + [p]), p, Some(msg));
      run := [Local(m, Push(msg)), Local(m, Enlist(msg))] + rest;
    }
  }

  // ---------------------------------------------------------------------------------------
  // The I/O thread with no one to disturb it
  // ---------------------------------------------------------------------------------------

  datatype IoLocal<M> = IoLocal(m: Mem<M>, io: Io)

  /** One step of the I/O thread, with a connection that has nothing to read and takes every message. */
  ghost predicate IoTurn<M>(l: IoLocal<M>, l': IoLocal<M>) {
    exists more :: IoEffect(l.m, l.io, true, true, more, l'.m, l'.io)
  }

  ghost predicate IoAlone<M>(run: seq<IoLocal<M>>) {
    |run| > 0 && forall i | 0 <= i < |run| - 1 :: IoTurn(run[i], run[i + 1])
  }

  lemma IoSteps<M>(s: State<M>, run: seq<IoLocal<M>>, i: nat) returns (more: bool)
    requires IoAlone(run) && i + 1 < |run|
    ensures Step(State(run[i].m, run[i].io, s.prods), IoStep(true, true, more),
                 State(run[i + 1].m, run[i + 1].io, s.prods))
  {
    assert IoTurn(run[i], run[i + 1]);
    hide IoEffect;
    more :| IoEffect(run[i].m, run[i].io, true, true, more, run[i + 1].m, run[i + 1].io);
  }

  lemma Joined<M>(a: seq<IoLocal<M>>, b: seq<IoLocal<M>>)
    requires IoAlone(a) && IoAlone(b) && IoTurn(a[|a| - 1], b[0])
    ensures IoAlone(a + b)
  {
    hide IoTurn;
    var c := a + b;
    forall i | 0 <= i < |c| - 1 ensures IoTurn(c[i], c[i + 1]) {
      if i < |a| - 1 {
        assert IoTurn(a[i], a[i + 1]);
      } else if i >= |a| {
        assert IoTurn(b[i - |a|], b[i - |a| + 1]);
      }
    }
  }

  ghost predicate Takes<M>(l: IoLocal<M>, more: bool, l': IoLocal<M>) {
    IoEffect(l.m, l.io, true, true, more, l'.m, l'.io)
  }

  lemma Turns<M>(l: IoLocal<M>, more: bool, l': IoLocal<M>)
    requires Takes(l, more, l')
    ensures IoTurn(l, l')
  {
  }

  /**
   It hands over what it kept back and then the whole queue, in order. `sent` is how many messages it
   has sent since it last began; after 33 it begins again.
   */
  lemma {:induction false} IoDrains<M>(m: Mem<M>, sent: nat) returns (run: seq<IoLocal<M>>)
    requires m.running
    ensures IoAlone(run) && run[0] == IoLocal(m, Send(true))
    ensures run[|run| - 1] ==
              IoLocal(m.(kept := None, queue := [], out := m.out + Flat(m.kept) + m.queue), Send(true))
    decreases |m.queue| + |Flat(m.kept)|
  {
    var l := IoLocal(m, Send(true));
    run := [l];
    if m.kept.None? && m.queue == [] {
      assert m.out + Flat(m.kept) + m.queue == m.out;
      return;
    }
    var m' := if m.kept.Some? then m.(kept := None, out := m.out + [m.kept.value])
              else m.(queue := m.queue[1..], out := m.out + [m.queue[0]]);
    assert m'.out + Flat(m'.kept) + m'.queue == m.out + Flat(m.kept) + m.queue;
    var again := m.kept.None? && sent >= 32;
    var rest := IoDrains(m', if again then 0 else sent + 1);
    hide IoAlone;
    if again {
      Turns(l, false, IoLocal(m', Top));
      Turns(IoLocal(m', Top), true, IoLocal(m', Poll));
      Turns(IoLocal(m', Poll), true, rest[0]);
      Single(IoLocal(m', Top));
      Single(IoLocal(m', Poll));
      hide IoTurn;
      Joined([IoLocal(m', Poll)], rest);
      Joined([IoLocal(m', Top)], [IoLocal(m', Poll)] + rest);
      rest := [IoLocal(m', Top)] + ([IoLocal(m', Poll)] + rest);
    } else {
      Turns(l, true, rest[0]);
    }
    Single(l);
    hide IoTurn;
    Joined([l], rest);
    run := [l] + rest;
  }

  lemma Single<M>(l: IoLocal<M>)
    ensures IoAlone([l])
  {
  }

  /** The way down to the wait, with nobody waiting for room and the request flag down. */
  lemma Down<M>(m: Mem<M>) returns (run: seq<IoLocal<M>>)
    requires m.running && !m.requested && m.waiters == [] && m.kept.None? && m.queue == []
    ensures IoAlone(run) && run[0] == IoLocal(m, Swap1) && run[|run| - 1] == IoLocal(m.(running := false), Wait)
  {
    var m' := m.(running := false);
    run := [IoLocal(m, Swap1), IoLocal(m, ClearRunning), IoLocal(m', Swap2), IoLocal(m', Waiters),
            IoLocal(m', Swap3), IoLocal(m', WakeDriver), IoLocal(m', Wait)];
    forall i | 0 <= i < |run| - 1 ensures IoTurn(run[i], run[i + 1]) { Turns(run[i], true, run[i + 1]); }
  }

  /**
   With no thread waiting for room it then goes to sleep, a second time round if its flag had been
   raised; and nothing is left to send.
   */
  lemma {:induction false} IoSleeps<M>(m: Mem<M>) returns (run: seq<IoLocal<M>>)
    requires m.waiters == []
    ensures IoAlone(run) && run[0] == IoLocal(m, Top)
    ensures run[|run| - 1] ==
              IoLocal(m.(running := false, requested := false, kept := None, queue := [],
                         out := m.out + Flat(m.kept) + m.queue), Wait)
    decreases m.requested
  {
    var m1 := m.(running := true);
    var m2 := m1.(kept := None, queue := [], out := m.out + Flat(m.kept) + m.queue);
    var drained := IoDrains(m1, 0);
    var rest;
    if m.requested {
      var m3 := m2.(requested := false);
      assert m3.out + Flat(m3.kept) + m3.queue == m2.out;
      rest := IoSleeps(m3);
      Turns(IoLocal(m2, Swap1), true, rest[0]);
      Single(IoLocal(m2, Swap1));
      Joined([IoLocal(m2, Swap1)], rest);
      rest := [IoLocal(m2, Swap1)] + rest;
    } else {
      rest := Down(m2);
    }
    Turns(IoLocal(m, Top), true, IoLocal(m1, Poll));
    Turns(IoLocal(m1, Poll), true, drained[0]);
    Turns(IoLocal(m2, Send(true)), true, rest[0]);
    Single(IoLocal(m, Top));
    Single(IoLocal(m1, Poll));
    hide IoAlone;
    hide IoTurn;
    Joined(drained, rest);
    Joined([IoLocal(m1, Poll)], drained + rest);
    Joined([IoLocal(m, Top)], [IoLocal(m1, Poll)] + (drained + rest));
    run := [IoLocal(m, Top)] + ([IoLocal(m1, Poll)] + (drained + rest));
  }

  // ---------------------------------------------------------------------------------------
  // Every run has its history
  // ---------------------------------------------------------------------------------------

  ghost predicate IsTrace<M>(run: seq<State<M>>, events: seq<Event<M>>) {
    && |run| == |events| + 1 && Init(run[0])
    && forall i | 0 <= i < |events| :: Step(run[i], events[i], run[i + 1])
  }

  ghost predicate LogOf<M>(l: seq<Log<M>>, run: seq<State<M>>) {
    |l| == |run| && forall i | 0 <= i < |run| :: l[i].s == run[i]
  }

  lemma {:induction false} HaveLog<M>(run: seq<State<M>>, events: seq<Event<M>>) returns (l: seq<Log<M>>)
    requires IsTrace(run, events)
    ensures IsLog(l, events) && LogOf(l, run)
    decreases |events|
  {
    hide Step;
    hide Noted;
    hide NextAfter;
    var n := |events|;
    if n == 0 {
      l := [Log(run[0], map[], Book(map[], [], map[], map[], []))];
    } else {
      l := HaveLog(run[..n], events[..n - 1]);
      var x := NextLog(l[n - 1], events[n - 1], run[n]);
      assert LogStep(l[n - 1], events[n - 1], x) by { assert Step(run[n - 1], events[n - 1], run[n]); }
      l := l + [x];
      forall i | 0 <= i < n ensures LogStep(l[i], events[i], l[i + 1]) {
        assert i < n - 1 ==> LogStep(l[i], events[..n - 1][i], l[i + 1]);
      }
    }
  }
}
