/**
 One direction of an I/O channel: Vyukov's bounded multi-producer, multi-consumer queue of
 64 stamped slots in memory shared by two processes. `send` and `recv` are written as the
 atomic steps they perform, and any number of threads interleave them.
 */
module IoChannel {

  const QUEUE_SIZE: nat := 64

  /** `pos & QUEUE_MASK`. */
  function Slot(pos: nat): nat {
    pos % 64
  }

  /** Where a thread stands inside `send` or `recv`. */
  datatype Pc<M> =
    | Idle
    | SendLoad(msg: M)              // about to load the head
    | SendTry(msg: M, pos: nat)     // about to load the stamp of the slot of `pos`
    | SendCas(msg: M, pos: nat)     // saw stamp == pos, about to move the head
    | SendOwner(msg: M, pos: nat)   // claimed `pos`, about to write the message
    | SendWritten(msg: M, pos: nat) // message written, about to publish the stamp
    | RecvLoad
    | RecvTry(pos: nat)
    | RecvCas(pos: nat)             // saw stamp == pos + 1, about to move the tail
    | RecvOwner(pos: nat)           // claimed `pos`, about to copy the message out
    | RecvRead(pos: nat, msg: M)    // message copied, about to release the slot

  /**
   The shared memory and the threads. `sent` and `delivered` are history: the message of the
   sender that claimed each position, and the message each finished `recv` returned.
   */
  datatype State<M> = State(
    head: nat,
    tail: nat,
    stamps: seq<nat>,
    msgs: seq<M>,
    threads: map<nat, Pc<M>>,
    sent: seq<M>,
    delivered: map<nat, M>)

  /** One atomic step of thread `t`. `weak` lets a compare_exchange_weak fail spuriously. */
  datatype Event<M> =
    | CallSend(t: nat, msg: M)
    | LoadHead(t: nat)
    | LoadSendStamp(t: nat)
    | CasHead(t: nat, weak: bool)
    | WriteMsg(t: nat)
    | Publish(t: nat)
    | CallRecv(t: nat)
    | LoadTail(t: nat)
    | LoadRecvStamp(t: nat)
    | CasTail(t: nat, weak: bool)
    | ReadMsg(t: nat)
    | Release(t: nat)

  /** The stamps and counters that `connect` stores. */
  ghost predicate Init<M>(s: State<M>) {
    && s.head == 0 && s.tail == 0
    && |s.stamps| == QUEUE_SIZE && |s.msgs| == QUEUE_SIZE
    && (forall i | 0 <= i < QUEUE_SIZE :: s.stamps[i] == i)
    && (forall t | t in s.threads :: s.threads[t] == Idle)
    && s.sent == [] && s.delivered == map[]
  }

  ghost predicate At<M>(s: State<M>, t: nat) {
    t in s.threads && |s.stamps| == QUEUE_SIZE && |s.msgs| == QUEUE_SIZE
  }

  function Goto<M>(s: State<M>, t: nat, pc: Pc<M>): State<M> {
    s.(threads := s.threads[t := pc])
  }

  /** What `send` does after loading `stamp`: claim, give up with NotReady, or retry. */
  function AfterSendStamp<M>(msg: M, pos: nat, stamp: nat): Pc<M> {
    if stamp == pos then SendCas(msg, pos)
    else if stamp < pos then Idle
    else SendLoad(msg)
  }

  function AfterRecvStamp<M>(pos: nat, stamp: nat): Pc<M> {
    if stamp == pos + 1 then RecvCas(pos)
    else if stamp < pos + 1 then Idle
    else RecvLoad
  }

  function ClaimHead<M>(s: State<M>, t: nat): State<M>
    requires t in s.threads && s.threads[t].SendCas?
  {
    var pc := s.threads[t];
    Goto(s, t, SendOwner(pc.msg, pc.pos)).(head := s.head + 1, sent := s.sent + [pc.msg])
  }

  function DoPublish<M>(s: State<M>, t: nat): State<M>
    requires t in s.threads && s.threads[t].SendWritten? && |s.stamps| == QUEUE_SIZE
  {
    var pos := s.threads[t].pos;
    Goto(s, t, Idle).(stamps := s.stamps[Slot(pos) := pos + 1])
  }

  function ClaimTail<M>(s: State<M>, t: nat): State<M>
    requires t in s.threads && s.threads[t].RecvCas?
  {
    Goto(s, t, RecvOwner(s.threads[t].pos)).(tail := s.tail + 1)
  }

  function DoRelease<M>(s: State<M>, t: nat): State<M>
    requires t in s.threads && s.threads[t].RecvRead? && |s.stamps| == QUEUE_SIZE
  {
    var pc := s.threads[t];
    Goto(s, t, Idle).(stamps := s.stamps[Slot(pc.pos) := pc.pos + QUEUE_SIZE],
                      delivered := s.delivered[pc.pos := pc.msg])
  }

  ghost predicate Step<M>(s: State<M>, e: Event<M>, s': State<M>) {
    && At(s, e.t)
    && var pc := s.threads[e.t];
    match e
    case CallSend(t, msg) => pc == Idle && s' == Goto(s, t, SendLoad(msg))
    case LoadHead(t) => pc.SendLoad? && s' == Goto(s, t, SendTry(pc.msg, s.head))
    case LoadSendStamp(t) =>
      && pc.SendTry?
      && s' == Goto(s, t, AfterSendStamp(pc.msg, pc.pos, s.stamps[Slot(pc.pos)]))
    case CasHead(t, weak) =>
      && pc.SendCas?
      && s' == if s.head == pc.pos && !weak then ClaimHead(s, t) else Goto(s, t, SendTry(pc.msg, s.head))
    case WriteMsg(t) =>
      && pc.SendOwner?
      && s' == Goto(s, t, SendWritten(pc.msg, pc.pos)).(msgs := s.msgs[Slot(pc.pos) := pc.msg])
    case Publish(t) => pc.SendWritten? && s' == DoPublish(s, t)
    case CallRecv(t) => pc == Idle && s' == Goto(s, t, RecvLoad)
    case LoadTail(t) => pc.RecvLoad? && s' == Goto(s, t, RecvTry(s.tail))
    case LoadRecvStamp(t) =>
      && pc.RecvTry?
      && s' == Goto(s, t, AfterRecvStamp(pc.pos, s.stamps[Slot(pc.pos)]))
    case CasTail(t, weak) =>
      && pc.RecvCas?
      && s' == if s.tail == pc.pos && !weak then ClaimTail(s, t) else Goto(s, t, RecvTry(s.tail))
    case ReadMsg(t) =>
      && pc.RecvOwner?
      && s' == Goto(s, t, RecvRead(pc.pos, s.msgs[Slot(pc.pos)]))
    case Release(t) => pc.RecvRead? && s' == DoRelease(s, t)
  }

  ghost predicate Next<M(!new)>(s: State<M>, s': State<M>) {
    exists e :: Step(s, e, s')
  }

  /** A run: any schedule of any threads, starting from a freshly connected channel. */
  ghost predicate IsRun<M(!new)>(run: seq<State<M>>) {
    && |run| > 0 && Init(run[0])
    && forall i | 0 <= i < |run| - 1 :: Next(run[i], run[i + 1])
  }

  // ---------------------------------------------------------------------------------------
  // The invariant
  // ---------------------------------------------------------------------------------------

  ghost predicate SendHolds<M>(pc: Pc<M>, pos: nat) {
    (pc.SendOwner? || pc.SendWritten?) && pc.pos == pos
  }

  ghost predicate RecvHolds<M>(pc: Pc<M>, pos: nat) {
    (pc.RecvOwner? || pc.RecvRead?) && pc.pos == pos
  }

  /** The thread has claimed a position and works on its slot. */
  ghost predicate Owns<M>(pc: Pc<M>) {
    pc.SendOwner? || pc.SendWritten? || pc.RecvOwner? || pc.RecvRead?
  }

  /** The slot that the next claim of position `p` will use, for a `p` within one lap of the head. */
  ghost predicate SlotOk<M>(s: State<M>, p: nat)
    requires s.head <= p < s.head + QUEUE_SIZE
    requires |s.stamps| == QUEUE_SIZE && |s.msgs| == QUEUE_SIZE && |s.sent| == s.head
  {
    var stamp := s.stamps[Slot(p)];
    if p < QUEUE_SIZE then stamp == p
    else
      var q := p - QUEUE_SIZE;
      && (stamp == q + 1 ==> s.msgs[Slot(p)] == s.sent[q] && q !in s.delivered)
      && if q >= s.tail then stamp == q || stamp == q + 1 else stamp == q + 1 || stamp == p
  }

  ghost predicate PcOk<M>(s: State<M>, pc: Pc<M>)
    requires |s.stamps| == QUEUE_SIZE && |s.msgs| == QUEUE_SIZE && |s.sent| == s.head
  {
    match pc
    case SendTry(_, pos) => pos <= s.head
    case SendCas(_, pos) => pos <= s.head && pos <= s.stamps[Slot(pos)]
    case SendOwner(msg, pos) => pos < s.head && s.stamps[Slot(pos)] == pos && s.sent[pos] == msg
    case SendWritten(msg, pos) =>
      && pos < s.head && s.stamps[Slot(pos)] == pos && s.sent[pos] == msg
      && s.msgs[Slot(pos)] == msg
    case RecvTry(pos) => pos <= s.tail
    case RecvCas(pos) => pos <= s.tail && pos < s.stamps[Slot(pos)]
    case RecvOwner(pos) => pos < s.tail <= s.head && s.stamps[Slot(pos)] == pos + 1 && pos !in s.delivered
    case RecvRead(pos, msg) =>
      && pos < s.tail <= s.head && s.stamps[Slot(pos)] == pos + 1 && pos !in s.delivered
      && msg == s.sent[pos]
    case _ => true
  }

  ghost predicate Inv<M>(s: State<M>) {
    && |s.stamps| == QUEUE_SIZE && |s.msgs| == QUEUE_SIZE && |s.sent| == s.head
    && s.tail <= s.head <= s.tail + QUEUE_SIZE
    && (forall p: nat | s.head <= p < s.head + QUEUE_SIZE :: SlotOk(s, p))
    && (forall t | t in s.threads :: PcOk(s, s.threads[t]))
    && (forall t, u | t in s.threads && u in s.threads && t != u && Owns(s.threads[t]) && Owns(s.threads[u]) ::
          s.threads[t].pos != s.threads[u].pos)
    && (forall p | p in s.delivered :: p < s.tail && s.delivered[p] == s.sent[p])
    && (forall p: nat | p < s.tail :: TakenOk(s, p))
    && (forall p: nat | s.tail <= p < s.head :: QueuedOk(s, p))
  }

  /** A position below the tail: delivered, or in the hands of a receiver. */
  ghost predicate TakenOk<M>(s: State<M>, p: nat) {
    p in s.delivered || exists t :: t in s.threads && RecvHolds(s.threads[t], p)
  }

  /** A position between tail and head: published, or in the hands of a sender. */
  ghost predicate QueuedOk<M>(s: State<M>, p: nat)
    requires |s.stamps| == QUEUE_SIZE
  {
    s.stamps[Slot(p)] == p + 1 || exists t :: t in s.threads && SendHolds(s.threads[t], p)
  }

  // ---------------------------------------------------------------------------------------
  // The invariant holds in every reachable state
  // ---------------------------------------------------------------------------------------

  lemma InitInv<M>(s: State<M>)
    requires Init(s)
    ensures Inv(s)
  {
  }

  /** A step that touches nothing but the thread's own registers. */
  lemma LocalInv<M>(s: State<M>, t: nat, pc: Pc<M>)
    requires Inv(s) && t in s.threads && PcOk(s, pc)
    requires (!Owns(pc) && !Owns(s.threads[t])) ||
             (pc.RecvRead? && s.threads[t] == RecvOwner(pc.pos))
    ensures Inv(Goto(s, t, pc))
  {
    var s' := Goto(s, t, pc);
    forall p: nat | s.head <= p < s.head + QUEUE_SIZE ensures SlotOk(s', p) {
      assert SlotOk(s, p);
    }
    AccountKept(s, t, s');
  }

  lemma AccountKept<M>(s: State<M>, t: nat, s': State<M>)
    requires Inv(s) && t in s.threads && t in s'.threads && |s'.stamps| == QUEUE_SIZE
    requires s'.threads == s.threads[t := s'.threads[t]] && s'.stamps == s.stamps
    requires s.delivered == s'.delivered && s.head <= s'.head && s.tail <= s'.tail
    requires forall p: nat :: RecvHolds(s'.threads[t], p) <==> s.tail <= p < s'.tail || RecvHolds(s.threads[t], p)
    requires forall p: nat :: SendHolds(s'.threads[t], p) <==> s.head <= p < s'.head || SendHolds(s.threads[t], p)
    ensures forall p: nat | p < s'.tail :: TakenOk(s', p)
    ensures forall p: nat | s'.tail <= p < s'.head :: QueuedOk(s', p)
  {
    forall p: nat | p < s'.tail ensures TakenOk(s', p) {
      if p < s.tail {
        assert TakenOk(s, p);
        if u :| u in s.threads && RecvHolds(s.threads[u], p) {
          assert u in s'.threads && RecvHolds(s'.threads[u], p);
        }
      }
    }
    forall p: nat | s'.tail <= p < s'.head ensures QueuedOk(s', p) {
      if p < s.head {
        assert QueuedOk(s, p);
        if u :| u in s.threads && SendHolds(s.threads[u], p) {
          assert u in s'.threads && SendHolds(s'.threads[u], p);
        }
      }
    }
  }

  lemma ClaimHeadSlot<M>(s: State<M>, t: nat, p: nat)
    requires Inv(s) && t in s.threads && s.threads[t].SendCas? && s.head == s.threads[t].pos
    requires s.head < p <= s.head + QUEUE_SIZE
    ensures s.head < s.tail + QUEUE_SIZE && s.stamps[Slot(s.head)] == s.head
    ensures SlotOk(ClaimHead(s, t), p)
  {
    assert PcOk(s, s.threads[t]) && SlotOk(s, s.head);
    if p < s.head + QUEUE_SIZE { assert SlotOk(s, p); }
  }

  lemma ClaimHeadInv<M>(s: State<M>, t: nat)
    requires Inv(s) && t in s.threads && s.threads[t].SendCas? && s.head == s.threads[t].pos
    ensures Inv(ClaimHead(s, t))
  {
    var s' := ClaimHead(s, t);
    forall p: nat | s'.head <= p < s'.head + QUEUE_SIZE ensures SlotOk(s', p) {
      ClaimHeadSlot(s, t, p);
    }
    ClaimHeadSlot(s, t, s'.head);
    AccountKept(s, t, s');
  }

  lemma WriteMsgInv<M>(s: State<M>, t: nat, s': State<M>)
    requires Inv(s) && Step(s, WriteMsg(t), s')
    ensures Inv(s')
  {
    forall p: nat | s'.head <= p < s'.head + QUEUE_SIZE ensures SlotOk(s', p) {
      assert SlotOk(s, p);
    }
    AccountKept(s, t, s');
  }

  lemma ClaimTailSlot<M>(s: State<M>, t: nat)
    requires Inv(s) && t in s.threads && s.threads[t].RecvCas? && s.tail == s.threads[t].pos
    ensures s.tail < s.head && s.stamps[Slot(s.tail)] == s.tail + 1
    ensures forall p: nat | s.head <= p < s.head + QUEUE_SIZE :: SlotOk(ClaimTail(s, t), p)
  {
    assert PcOk(s, s.threads[t]) && SlotOk(s, if s.tail == s.head then s.head else s.tail + QUEUE_SIZE);
    forall p: nat | s.head <= p < s.head + QUEUE_SIZE ensures SlotOk(ClaimTail(s, t), p) {
      assert SlotOk(s, p);
    }
  }

  lemma ClaimTailInv<M>(s: State<M>, t: nat)
    requires Inv(s) && t in s.threads && s.threads[t].RecvCas? && s.tail == s.threads[t].pos
    ensures Inv(ClaimTail(s, t))
  {
    ClaimTailSlot(s, t);
    AccountKept(s, t, ClaimTail(s, t));
  }

  /** No slot is worked on by two threads: never written and read, or written twice, at once. */
  lemma SlotsApart<M>(s: State<M>, t: nat, u: nat)
    requires Inv(s) && t in s.threads && u in s.threads && t != u
    requires Owns(s.threads[t]) && Owns(s.threads[u])
    ensures Slot(s.threads[t].pos) != Slot(s.threads[u].pos)
  {
    assert PcOk(s, s.threads[t]) && PcOk(s, s.threads[u]);
  }

  /** Advancing the stamp of the slot that `t` holds keeps what every other thread relies on. */
  lemma StampPcOk<M>(s: State<M>, t: nat, s': State<M>, u: nat)
    requires Inv(s) && t in s.threads && Owns(s.threads[t]) && u in s.threads && u != t
    requires var i := Slot(s.threads[t].pos);
             |s'.stamps| == QUEUE_SIZE && s.stamps[i] < s'.stamps[i] && s'.stamps == s.stamps[i := s'.stamps[i]]
    requires s'.msgs == s.msgs && s'.sent == s.sent && s'.head == s.head && s'.tail == s.tail
    requires s'.delivered.Keys <= s.delivered.Keys + {s.threads[t].pos}
    ensures PcOk(s', s.threads[u])
  {
    assert PcOk(s, s.threads[u]);
    if Owns(s.threads[u]) { SlotsApart(s, t, u); }
  }

  lemma PublishInv<M>(s: State<M>, t: nat)
    requires Inv(s) && t in s.threads && s.threads[t].SendWritten?
    ensures Inv(DoPublish(s, t))
  {
    var pos, s' := s.threads[t].pos, DoPublish(s, t);
    assert PcOk(s, s.threads[t]);
    forall u | u in s'.threads && u != t ensures PcOk(s', s'.threads[u]) {
      StampPcOk(s, t, s', u);
    }
    forall p: nat | s.head <= p < s.head + QUEUE_SIZE ensures SlotOk(s', p) {
      assert SlotOk(s, p);
    }
    forall p: nat | p < s.tail ensures TakenOk(s', p) {
      assert TakenOk(s, p);
      if u :| u in s.threads && RecvHolds(s.threads[u], p) {
        assert u in s'.threads && RecvHolds(s'.threads[u], p);
      }
    }
    forall p: nat | s.tail <= p < s.head ensures QueuedOk(s', p) {
      assert QueuedOk(s, p);
      if u :| u in s.threads && SendHolds(s.threads[u], p) {
        assert u in s'.threads && (SendHolds(s'.threads[u], p) || p == pos);
      }
    }
  }

  lemma ReleaseSlot<M>(s: State<M>, t: nat, p: nat)
    requires Inv(s) && t in s.threads && s.threads[t].RecvRead? && s.head <= p < s.head + QUEUE_SIZE
    ensures SlotOk(DoRelease(s, t), p)
  {
    hide TakenOk;
    hide QueuedOk;
    assert PcOk(s, s.threads[t]);
    assert SlotOk(s, p);
  }

  lemma ReleaseAccount<M>(s: State<M>, t: nat)
    requires Inv(s) && t in s.threads && s.threads[t].RecvRead?
    ensures forall p: nat | p < s.tail :: TakenOk(DoRelease(s, t), p)
    ensures forall p: nat | s.tail <= p < s.head :: QueuedOk(DoRelease(s, t), p)
  {
    hide SlotOk;
    var s' := DoRelease(s, t);
    assert PcOk(s, s.threads[t]);
    forall p: nat | p < s.tail ensures TakenOk(s', p) {
      assert TakenOk(s, p);
      if u :| u in s.threads && RecvHolds(s.threads[u], p) {
        assert u in s'.threads && (RecvHolds(s'.threads[u], p) || p in s'.delivered);
      }
    }
    forall p: nat | s.tail <= p < s.head ensures QueuedOk(s', p) {
      assert QueuedOk(s, p);
      if u :| u in s.threads && SendHolds(s.threads[u], p) {
        assert u in s'.threads && SendHolds(s'.threads[u], p);
      }
    }
  }

  lemma ReleaseInv<M>(s: State<M>, t: nat)
    requires Inv(s) && t in s.threads && s.threads[t].RecvRead?
    ensures Inv(DoRelease(s, t))
  {
    hide SlotOk;
    hide TakenOk;
    hide QueuedOk;
    var s' := DoRelease(s, t);
    assert PcOk(s, s.threads[t]);
    forall u | u in s'.threads && u != t ensures PcOk(s', s'.threads[u]) {
      StampPcOk(s, t, s', u);
    }
    forall p: nat | s.head <= p < s.head + QUEUE_SIZE ensures SlotOk(s', p) {
      ReleaseSlot(s, t, p);
    }
    ReleaseAccount(s, t);
  }

  lemma StepInv<M>(s: State<M>, e: Event<M>, s': State<M>)
    requires Inv(s) && Step(s, e, s')
    ensures Inv(s')
  {
    var pc := s.threads[e.t];
    assert PcOk(s, pc);
    match e
    case CasHead(t, weak) =>
      if s.head == pc.pos && !weak { ClaimHeadInv(s, t); } else { LocalInv(s, t, s'.threads[t]); }
    case CasTail(t, weak) =>
      if s.tail == pc.pos && !weak { ClaimTailInv(s, t); } else { LocalInv(s, t, s'.threads[t]); }
    case WriteMsg(t) => WriteMsgInv(s, t, s');
    case Publish(t) => PublishInv(s, t);
    case Release(t) => ReleaseInv(s, t);
    case ReadMsg(t) => ReadMsgInv(s, t);
    case _ => LocalInv(s, e.t, s'.threads[e.t]);
  }

  /** The message a receiver copies out of its slot is the one sent at its position. */
  lemma ReadMsgInv<M>(s: State<M>, t: nat)
    requires Inv(s) && t in s.threads && s.threads[t].RecvOwner?
    ensures var pos := s.threads[t].pos;
            pos < |s.sent| && s.msgs[Slot(pos)] == s.sent[pos] && Inv(Goto(s, t, RecvRead(pos, s.msgs[Slot(pos)])))
  {
    var pos := s.threads[t].pos;
    assert PcOk(s, s.threads[t]);
    assert SlotOk(s, s.head + (pos - s.head) % 64);
    LocalInv(s, t, RecvRead(pos, s.msgs[Slot(pos)]));
  }

  lemma {:induction false} RunInv<M(!new)>(run: seq<State<M>>, i: nat)
    requires IsRun(run) && i < |run|
    ensures Inv(run[i])
  {
    hide Inv;
    if i == 0 {
      InitInv(run[0]);
    } else {
      RunInv(run, i - 1);
      assert Next(run[i - 1], run[i - 1 + 1]);
      var e :| Step(run[i - 1], e, run[i]);
      StepInv(run[i - 1], e, run[i]);
    }
  }

  // ---------------------------------------------------------------------------------------
  // What the queue promises
  // ---------------------------------------------------------------------------------------

  /** The queue the channel implements: the claimed messages not yet claimed by a receiver. */
  ghost function Contents<M>(s: State<M>): (q: seq<M>)
    requires Inv(s)
    ensures |q| <= QUEUE_SIZE
  {
    s.sent[s.tail..]
  }

  /**
   Refinement: every step of every thread either leaves the queue alone, or is the winning
   CAS of a `send` and appends its message, or is the winning CAS of a `recv` and removes
   the oldest message, which is the one that `recv` goes on to return.
   */
  lemma StepRefinesFifo<M>(s: State<M>, e: Event<M>, s': State<M>)
    requires Inv(s) && Step(s, e, s')
    ensures Inv(s')
    ensures if s'.head != s.head then
              && e.CasHead? && |Contents(s)| < QUEUE_SIZE
              && Contents(s') == Contents(s) + [s.threads[e.t].msg]
            else if s'.tail != s.tail then
              && e.CasTail? && |Contents(s)| > 0 && Contents(s') == Contents(s)[1..]
              && s'.threads[e.t] == RecvOwner(s.tail) && s'.sent[s.tail] == Contents(s)[0]
            else Contents(s') == Contents(s)
    ensures e.Release? ==>
              && s.threads[e.t].pos !in s.delivered
              && s'.delivered == s.delivered[s.threads[e.t].pos := s.sent[s.threads[e.t].pos]]
    ensures !e.Release? ==> s'.delivered == s.delivered
  {
    StepInv(s, e, s');
    assert PcOk(s, s.threads[e.t]);
    if e.CasHead? && s'.head != s.head { ClaimHeadSlot(s, e.t, s'.head); }
    if e.CasTail? && s'.tail != s.tail { ClaimTailSlot(s, e.t); }
  }

  /**
   In every run: what was received at a position is what the sender that claimed it sent, a
   position in the hands of a receiver is not delivered yet, and no two threads are at work
   on one slot, so no slot is written and read at the same time.
   */
  lemma DeliveredIsSent<M(!new)>(run: seq<State<M>>, i: nat)
    requires IsRun(run) && i < |run|
    ensures var s := run[i];
            && (forall p | p in s.delivered :: p < s.tail <= |s.sent| && s.delivered[p] == s.sent[p])
            && (forall t | t in s.threads && (s.threads[t].RecvOwner? || s.threads[t].RecvRead?) ::
                  s.threads[t].pos !in s.delivered)
            && (forall t, u | t in s.threads && u in s.threads && t != u && Owns(s.threads[t]) && Owns(s.threads[u]) ::
                  Slot(s.threads[t].pos) != Slot(s.threads[u].pos))
  {
    RunInv(run, i);
    var s := run[i];
    forall t, u | t in s.threads && u in s.threads && t != u && Owns(s.threads[t]) && Owns(s.threads[u])
      ensures Slot(s.threads[t].pos) != Slot(s.threads[u].pos)
    {
      SlotsApart(s, t, u);
    }
  }

  /** Nothing is lost: with no call in progress, exactly the first `tail` messages are delivered. */
  lemma QuiescentDelivery<M(!new)>(run: seq<State<M>>, i: nat)
    requires IsRun(run) && i < |run| && forall t | t in run[i].threads :: run[i].threads[t] == Idle
    ensures var s := run[i];
            s.tail <= |s.sent| && s.delivered == map p: nat | p < s.tail :: s.sent[p]
  {
    RunInv(run, i);
    forall p: nat | p < run[i].tail ensures p in run[i].delivered {
      assert TakenOk(run[i], p);
    }
  }

  /** The slot of the head is free exactly if the message one lap back is delivered. */
  lemma HeadSlot<M>(s: State<M>)
    requires Inv(s)
    ensures s.stamps[Slot(s.head)] <= s.head
    ensures s.stamps[Slot(s.head)] == s.head <==> s.head < QUEUE_SIZE || s.head - QUEUE_SIZE in s.delivered
  {
    hide QueuedOk;
    assert SlotOk(s, s.head);
    if QUEUE_SIZE <= s.head < s.tail + QUEUE_SIZE {
      assert TakenOk(s, s.head - QUEUE_SIZE);
      if u :| u in s.threads && RecvHolds(s.threads[u], s.head - QUEUE_SIZE) {
        assert PcOk(s, s.threads[u]);
      }
    }
  }

  /** A claimed position that is not yet one lap old has a stamp of its own lap at least. */
  lemma OldSlot<M>(s: State<M>, pos: nat)
    requires Inv(s) && pos < s.head
    ensures s.stamps[Slot(pos)] >= pos
  {
    hide TakenOk;
    hide QueuedOk;
    hide PcOk;
    assert SlotOk(s, s.head + (pos - s.head) % 64);
  }

  /**
   `send` answers NotReady exactly when, as it loads the stamp, its position is still the head
   and the message one lap back is not delivered: the slot it needs really is in use.
   */
  lemma SendNotReadyIff<M>(s: State<M>, t: nat, s': State<M>)
    requires Inv(s) && Step(s, LoadSendStamp(t), s')
    ensures var pos := s.threads[t].pos;
            s'.threads[t] == Idle <==> s.head == pos && pos >= QUEUE_SIZE && pos - QUEUE_SIZE !in s.delivered
  {
    hide TakenOk;
    hide QueuedOk;
    hide SlotOk;
    var pos := s.threads[t].pos;
    assert PcOk(s, s.threads[t]);
    HeadSlot(s);
    if pos < s.head { OldSlot(s, pos); }
  }

  /** `recv` answers NotReady exactly when its position is still the tail and nothing is published there. */
  lemma RecvNotReadyIff<M>(s: State<M>, t: nat, s': State<M>)
    requires Inv(s) && Step(s, LoadRecvStamp(t), s')
    ensures var pos := s.threads[t].pos;
            s'.threads[t] == Idle <==>
              s.tail == pos && (s.head == pos || exists u :: u in s.threads && SendHolds(s.threads[u], pos))
  {
    var pos := s.threads[t].pos;
    assert PcOk(s, s.threads[t]);
    assert SlotOk(s, s.head + (pos - s.head) % 64);
    if pos == s.tail < s.head {
      assert QueuedOk(s, pos);
      if u :| u in s.threads && SendHolds(s.threads[u], pos) {
        assert PcOk(s, s.threads[u]);
      }
    }
  }
}
