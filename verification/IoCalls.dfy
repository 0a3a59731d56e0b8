/**
 The calls of `send` and `recv` and what becomes of each: over every run, a send that returned Ok
 queued its message at exactly one position, any other finished send found the queue full, and the
 same for recv. The histories are kept beside the channel and do not restrict it.
 */
module IoCalls {
  import opened Options
  import opened IoChannel
  import opened CallLog

  // ---------------------------------------------------------------------------------------
  // send
  // ---------------------------------------------------------------------------------------

  /** A thread inside `send(msg)`, and the position it has claimed. */
  ghost function Sending<M>(pc: Pc<M>): View<M> {
    match pc
    case SendLoad(msg) => On(msg, None)
    case SendTry(msg, _) => On(msg, None)
    case SendCas(msg, _) => On(msg, None)
    case SendOwner(msg, pos) => On(msg, Some(pos))
    case SendWritten(msg, pos) => On(msg, Some(pos))
    case _ => Off
  }

  ghost function SendingAt<M>(s: State<M>, t: nat): View<M> {
    if t in s.threads then Sending(s.threads[t]) else Off
  }

  datatype Sends<M> = Sends(s: State<M>, book: Book<M>)

  ghost predicate SendsStep<M>(l: Sends<M>, e: Event<M>, l': Sends<M>) {
    Step(l.s, e, l'.s) && l'.book == Noted(l.book, e.t, SendingAt(l'.s, e.t), l'.s.head)
  }

  ghost predicate IsSends<M>(run: seq<Sends<M>>, events: seq<Event<M>>) {
    && |run| == |events| + 1 && Init(run[0].s) && Empty(run[0].book)
    && forall i | 0 <= i < |events| :: SendsStep(run[i], events[i], run[i + 1])
  }

  /** The head is one lap ahead of a message that has not been delivered: no slot is free. */
  ghost predicate Full<M>(s: State<M>) {
    s.head >= QUEUE_SIZE && s.head - QUEUE_SIZE !in s.delivered
  }

  /** The message at `p` is there for a receiver, or was. */
  ghost predicate Published<M>(s: State<M>, p: nat)
    requires |s.stamps| == QUEUE_SIZE
  {
    s.stamps[Slot(p)] > p
  }

  /** A step of a send is a turn: it keeps its message, and claims the head if it claims. */
  lemma SendTurns<M>(s: State<M>, e: Event<M>, s': State<M>)
    requires Inv(s) && Step(s, e, s')
    ensures Turn(SendingAt(s, e.t), SendingAt(s', e.t), s.head, s'.head)
    ensures forall u | u != e.t :: SendingAt(s', u) == SendingAt(s, u)
    ensures s'.sent == if s'.head > s.head then s.sent + [SendingAt(s, e.t).call] else s.sent
    ensures |s'.stamps| == |s.stamps| && forall i | 0 <= i < |s.stamps| :: s'.stamps[i] >= s.stamps[i]
  {
    hide SlotOk;
    hide TakenOk;
    hide QueuedOk;
    assert PcOk(s, s.threads[e.t]);
  }

  /**
   However a send ends: with its message claimed, it has just been published; without, the queue
   is full as the stamp is loaded.
   */
  lemma SendEnds<M>(s: State<M>, e: Event<M>, s': State<M>)
    requires Inv(s) && Step(s, e, s') && SendingAt(s, e.t).On? && SendingAt(s', e.t).Off?
    ensures match SendingAt(s, e.t).held
            case Some(p) =>
              e.Publish? && p < |s'.sent| && s'.sent[p] == SendingAt(s, e.t).call && |s'.stamps| == QUEUE_SIZE
              && s'.stamps[Slot(p)] == p + 1
            case None => e.LoadSendStamp? && Full(s)
  {
    hide SlotOk;
    hide TakenOk;
    hide QueuedOk;
    assert PcOk(s, s.threads[e.t]);
    if e.LoadSendStamp? { SendNotReadyIff(s, e.t, s'); }
  }

  ghost predicate SentBy<M>(l: Sends<M>, p: nat)
    requires p < |l.s.sent| && p < |l.book.claims|
  {
    && l.book.claims[p].Some? && l.book.claims[p].value < |l.book.calls|
    && l.book.calls[l.book.claims[p].value] == l.s.sent[p]
  }

  ghost predicate SendsInv<M>(l: Sends<M>) {
    && Inv(l.s) && BookOk(l.book) && (forall t :: Place(l.book, t) == SendingAt(l.s, t))
    && |l.book.claims| == l.s.head == |l.s.sent|
    && (forall p: nat | p < l.s.head :: SentBy(l, p))
    && (forall c | c in l.book.ends && l.book.ends[c].Some? :: Published(l.s, l.book.ends[c].value))
  }

  lemma SendsStepInv<M>(l: Sends<M>, e: Event<M>, l': Sends<M>)
    requires SendsInv(l) && SendsStep(l, e, l')
    ensures SendsInv(l')
  {
    hide BookOk;
    hide Inv;
    hide Step;
    hide Noted;
    hide SendingAt;
    StepInv(l.s, e, l'.s);
    SendTurns(l.s, e, l'.s);
    NotedOk(l.book, e.t, SendingAt(l'.s, e.t), l'.s.head);
    if SendingAt(l.s, e.t).On? && SendingAt(l'.s, e.t).Off? { SendEnds(l.s, e, l'.s); }
    forall p: nat | p < l'.s.head ensures SentBy(l', p) {
      if p < l.s.head { assert SentBy(l, p); }
    }
    forall c | c in l'.book.ends && l'.book.ends[c].Some? ensures Published(l'.s, l'.book.ends[c].value) {
      EndsStay(l.book, e.t, SendingAt(l'.s, e.t), l'.s.head, c);
      if c in l.book.ends { assert Published(l.s, l.book.ends[c].value); }
    }
  }

  lemma {:induction false} SendsRunInv<M>(run: seq<Sends<M>>, events: seq<Event<M>>, n: nat)
    requires IsSends(run, events) && n < |run|
    ensures SendsInv(run[n])
  {
    hide SendsInv;
    hide SendsStep;
    if n == 0 {
      SendsInit(run[0]);
    } else {
      SendsRunInv(run, events, n - 1);
      SendsStepInv(run[n - 1], events[n - 1], run[n]);
    }
  }

  lemma SendsInit<M>(l: Sends<M>)
    requires Init(l.s) && Empty(l.book)
    ensures SendsInv(l)
  {
    InitInv(l.s);
    EmptyOk(l.book);
  }

  /** Call `c` ended at step `i` of the run, and the queue was full then. */
  ghost predicate FoundFull<M>(run: seq<Sends<M>>, c: nat, i: nat) {
    i + 1 < |run| && c !in run[i].book.ends && c in run[i + 1].book.ends && Full(run[i].s)
  }

  /** A send that ended without its message queued found the queue full as it ended. */
  lemma {:induction false} NotReadyWasFull<M>(run: seq<Sends<M>>, events: seq<Event<M>>, n: nat, c: nat)
    requires IsSends(run, events) && n < |run| && c in run[n].book.ends && run[n].book.ends[c].None?
    ensures exists i :: 0 <= i < n && FoundFull(run, c, i)
  {
    hide Step;
    hide Inv;
    hide BookOk;
    if n > 0 {
      var l, e, l' := run[n - 1], events[n - 1], run[n];
      assert SendsStep(l, e, l');
      SendsRunInv(run, events, n - 1);
      EndsStay(l.book, e.t, SendingAt(l'.s, e.t), l'.s.head, c);
      if c in l.book.ends {
        NotReadyWasFull(run, events, n - 1, c);
      } else {
        SendEnds(l.s, e, l'.s);
        assert FoundFull(run, c, n - 1);
      }
    }
  }

  /**
   What becomes of every send, in every run: if it returned Ok its message is published at one
   position, and that is the only one it claimed; if it returned NotReady it claimed none, and
   found the queue full; and every message in the queue's history is that of one send.
   */
  lemma SendOutcomes<M>(run: seq<Sends<M>>, events: seq<Event<M>>, n: nat)
    requires IsSends(run, events) && n < |run|
    ensures var s, b := run[n].s, run[n].book;
            && |b.claims| == |s.sent| && |s.stamps| == QUEUE_SIZE
            && (forall p: nat | p < |s.sent| ::
                  b.claims[p].Some? && b.claims[p].value < |b.calls| && b.calls[b.claims[p].value] == s.sent[p])
            && (forall p: nat, q: nat | p < q < |s.sent| :: b.claims[p] != b.claims[q])
            && (forall c | c in b.ends ::
                  match b.ends[c]
                  case Some(p) => p < |s.sent| && b.claims[p] == Some(c) && Published(s, p)
                  case None =>
                    (forall p: nat | p < |s.sent| :: b.claims[p] != Some(c))
                    && exists i :: 0 <= i < n && FoundFull(run, c, i))
            && ((forall t | t in s.threads :: s.threads[t] == Idle) ==>
                  forall c: nat | c < |b.calls| :: c in b.ends)
  {
    SendsRunInv(run, events, n);
    var s, b := run[n].s, run[n].book;
    hide Inv;
    forall p: nat | p < |s.sent|
      ensures b.claims[p].Some? && b.claims[p].value < |b.calls| && b.calls[b.claims[p].value] == s.sent[p]
    {
      assert SentBy(run[n], p);
    }
    assert |s.stamps| == QUEUE_SIZE by { Stamps(s); }
    hide BookOk;
    forall p: nat, q: nat | p < q < |s.sent| ensures b.claims[p] != b.claims[q] {
      if b.claims[p] == b.claims[q] { ClaimsOnce(b, p, q); }
    }
    forall c | c in b.ends
      ensures match b.ends[c]
              case Some(p) => p < |s.sent| && b.claims[p] == Some(c) && Published(s, p)
              case None =>
                (forall p: nat | p < |s.sent| :: b.claims[p] != Some(c))
                && exists i :: 0 <= i < n && FoundFull(run, c, i)
    {
      EndsInOrder(b, c);
      if b.ends[c].None? {
        NotReadyWasFull(run, events, n, c);
        forall p: nat | p < |s.sent| ensures b.claims[p] != Some(c) { EndsWithClaim(b, c, p); }
      }
    }
    if forall t | t in s.threads :: s.threads[t] == Idle {
      forall c: nat | c < |b.calls| ensures c in b.ends {
        assert forall t :: Place(b, t) == SendingAt(s, t);
        AllEnded(b, c);
      }
    }
  }

  lemma Stamps<M>(s: State<M>)
    requires Inv(s)
    ensures |s.stamps| == QUEUE_SIZE && |s.msgs| == QUEUE_SIZE
  {
  }

  // ---------------------------------------------------------------------------------------
  // recv
  // ---------------------------------------------------------------------------------------

  /** A thread inside `recv`, and the position it has claimed. */
  ghost function Receiving<M>(pc: Pc<M>): View<()> {
    match pc
    case RecvLoad => On((), None)
    case RecvTry(_) => On((), None)
    case RecvCas(_) => On((), None)
    case RecvOwner(pos) => On((), Some(pos))
    case RecvRead(pos, _) => On((), Some(pos))
    case _ => Off
  }

  ghost function ReceivingAt<M>(s: State<M>, t: nat): View<()> {
    if t in s.threads then Receiving(s.threads[t]) else Off
  }

  datatype Recvs<M> = Recvs(s: State<M>, book: Book<()>)

  ghost predicate RecvsStep<M>(l: Recvs<M>, e: Event<M>, l': Recvs<M>) {
    Step(l.s, e, l'.s) && l'.book == Noted(l.book, e.t, ReceivingAt(l'.s, e.t), l'.s.tail)
  }

  ghost predicate IsRecvs<M>(run: seq<Recvs<M>>, events: seq<Event<M>>) {
    && |run| == |events| + 1 && Init(run[0].s) && Empty(run[0].book)
    && forall i | 0 <= i < |events| :: RecvsStep(run[i], events[i], run[i + 1])
  }

  /** No message is there to receive: none is queued, or the oldest is still being written. */
  ghost predicate NoneReady<M>(s: State<M>) {
    s.head == s.tail || exists u :: u in s.threads && SendHolds(s.threads[u], s.tail)
  }

  lemma RecvTurns<M>(s: State<M>, e: Event<M>, s': State<M>)
    requires Inv(s) && Step(s, e, s')
    ensures Turn(ReceivingAt(s, e.t), ReceivingAt(s', e.t), s.tail, s'.tail)
    ensures forall u | u != e.t :: ReceivingAt(s', u) == ReceivingAt(s, u)
    ensures forall p | p in s.delivered :: p in s'.delivered && s'.delivered[p] == s.delivered[p]
  {
    hide SlotOk;
    hide TakenOk;
    hide QueuedOk;
    assert PcOk(s, s.threads[e.t]);
  }

  /**
   However a recv ends: with a position claimed, it returns the message sent there; without, there
   is no message ready as the stamp is loaded.
   */
  lemma RecvEnds<M>(s: State<M>, e: Event<M>, s': State<M>)
    requires Inv(s) && Step(s, e, s') && ReceivingAt(s, e.t).On? && ReceivingAt(s', e.t).Off?
    ensures match ReceivingAt(s, e.t).held
            case Some(p) => e.Release? && p < |s.sent| && p in s'.delivered && s'.delivered[p] == s.sent[p]
            case None => e.LoadRecvStamp? && NoneReady(s)
  {
    hide SlotOk;
    hide TakenOk;
    hide QueuedOk;
    assert PcOk(s, s.threads[e.t]);
    if e.LoadRecvStamp? { RecvNotReadyIff(s, e.t, s'); }
  }

  ghost predicate RecvsInv<M>(l: Recvs<M>) {
    && Inv(l.s) && BookOk(l.book) && (forall t :: Place(l.book, t) == ReceivingAt(l.s, t))
    && |l.book.claims| == l.s.tail && (forall p: nat | p < l.s.tail :: l.book.claims[p].Some?)
    && (forall c | c in l.book.ends && l.book.ends[c].Some? :: l.book.ends[c].value in l.s.delivered)
  }

  lemma RecvsStepInv<M>(l: Recvs<M>, e: Event<M>, l': Recvs<M>)
    requires RecvsInv(l) && RecvsStep(l, e, l')
    ensures RecvsInv(l')
  {
    hide BookOk;
    hide Inv;
    hide Step;
    hide Noted;
    hide ReceivingAt;
    StepInv(l.s, e, l'.s);
    RecvTurns(l.s, e, l'.s);
    NotedOk(l.book, e.t, ReceivingAt(l'.s, e.t), l'.s.tail);
    if ReceivingAt(l.s, e.t).On? && ReceivingAt(l'.s, e.t).Off? { RecvEnds(l.s, e, l'.s); }
    forall c | c in l'.book.ends && l'.book.ends[c].Some? ensures l'.book.ends[c].value in l'.s.delivered {
      EndsStay(l.book, e.t, ReceivingAt(l'.s, e.t), l'.s.tail, c);
    }
  }

  lemma {:induction false} RecvsRunInv<M>(run: seq<Recvs<M>>, events: seq<Event<M>>, n: nat)
    requires IsRecvs(run, events) && n < |run|
    ensures RecvsInv(run[n])
  {
    hide RecvsInv;
    hide RecvsStep;
    if n == 0 {
      RecvsInit(run[0]);
    } else {
      RecvsRunInv(run, events, n - 1);
      RecvsStepInv(run[n - 1], events[n - 1], run[n]);
    }
  }

  lemma RecvsInit<M>(l: Recvs<M>)
    requires Init(l.s) && Empty(l.book)
    ensures RecvsInv(l)
  {
    InitInv(l.s);
    EmptyOk(l.book);
  }

  ghost predicate FoundNone<M>(run: seq<Recvs<M>>, c: nat, i: nat) {
    i + 1 < |run| && c !in run[i].book.ends && c in run[i + 1].book.ends && NoneReady(run[i].s)
  }

  lemma {:induction false} NotReadyWasNone<M>(run: seq<Recvs<M>>, events: seq<Event<M>>, n: nat, c: nat)
    requires IsRecvs(run, events) && n < |run| && c in run[n].book.ends && run[n].book.ends[c].None?
    ensures exists i :: 0 <= i < n && FoundNone(run, c, i)
  {
    hide Step;
    hide Inv;
    hide BookOk;
    if n > 0 {
      var l, e, l' := run[n - 1], events[n - 1], run[n];
      assert RecvsStep(l, e, l');
      RecvsRunInv(run, events, n - 1);
      EndsStay(l.book, e.t, ReceivingAt(l'.s, e.t), l'.s.tail, c);
      if c in l.book.ends {
        NotReadyWasNone(run, events, n - 1, c);
      } else {
        RecvEnds(l.s, e, l'.s);
        assert FoundNone(run, c, n - 1);
      }
    }
  }

  /**
   What becomes of every recv, in every run: if it returned a message, it is the one sent at the
   position it claimed, and no other recv claimed that; if it returned NotReady it claimed none, and
   there was no message ready.
   */
  lemma RecvOutcomes<M>(run: seq<Recvs<M>>, events: seq<Event<M>>, n: nat)
    requires IsRecvs(run, events) && n < |run|
    ensures var s, b := run[n].s, run[n].book;
            && |b.claims| == s.tail <= |s.sent|
            && (forall p: nat | p < s.tail :: b.claims[p].Some? && b.claims[p].value < |b.calls|)
            && (forall p: nat, q: nat | p < q < s.tail :: b.claims[p] != b.claims[q])
            && (forall c | c in b.ends ::
                  match b.ends[c]
                  case Some(p) =>
                    p < s.tail && b.claims[p] == Some(c) && p in s.delivered && s.delivered[p] == s.sent[p]
                  case None =>
                    (forall p: nat | p < s.tail :: b.claims[p] != Some(c))
                    && exists i :: 0 <= i < n && FoundNone(run, c, i))
            && ((forall t | t in s.threads :: s.threads[t] == Idle) ==>
                  forall c: nat | c < |b.calls| :: c in b.ends)
  {
    RecvsRunInv(run, events, n);
    var s, b := run[n].s, run[n].book;
    Delivered(s);
    hide Inv;
    forall p: nat | p < s.tail ensures b.claims[p].Some? && b.claims[p].value < |b.calls| { assert ClaimOk(b, p); }
    hide BookOk;
    forall p: nat, q: nat | p < q < s.tail ensures b.claims[p] != b.claims[q] {
      if b.claims[p] == b.claims[q] { ClaimsOnce(b, p, q); }
    }
    forall c | c in b.ends
      ensures match b.ends[c]
              case Some(p) => p < s.tail && b.claims[p] == Some(c) && p in s.delivered && s.delivered[p] == s.sent[p]
              case None =>
                (forall p: nat | p < s.tail :: b.claims[p] != Some(c))
                && exists i :: 0 <= i < n && FoundNone(run, c, i)
    {
      EndsInOrder(b, c);
      if b.ends[c].None? {
        NotReadyWasNone(run, events, n, c);
        forall p: nat | p < s.tail ensures b.claims[p] != Some(c) { EndsWithClaim(b, c, p); }
      }
    }
    if forall t | t in s.threads :: s.threads[t] == Idle {
      forall c: nat | c < |b.calls| ensures c in b.ends {
        assert forall t :: Place(b, t) == ReceivingAt(s, t);
        AllEnded(b, c);
      }
    }
  }

  lemma Delivered<M>(s: State<M>)
    requires Inv(s)
    ensures s.tail <= |s.sent| && forall p | p in s.delivered :: p < s.tail && s.delivered[p] == s.sent[p]
  {
  }

  lemma {:induction false} SendClaimsGrow<M>(run: seq<Sends<M>>, events: seq<Event<M>>, i: nat, n: nat)
    requires IsSends(run, events) && i <= n < |run|
    ensures run[i].book.claims <= run[n].book.claims
  {
    hide Step;
    if i < n {
      SendClaimsGrow(run, events, i, n - 1);
      assert SendsStep(run[n - 1], events[n - 1], run[n]);
    }
  }

  /** A send that began after another had returned stores its message behind that of the other. */
  lemma LaterSendsFollow<M>(
    run: seq<Sends<M>>, events: seq<Event<M>>, i: nat, n: nat, c: nat, c': nat)
    requires IsSends(run, events) && i <= n < |run| && c in run[i].book.ends && run[i].book.ends[c].Some?
    requires |run[i].book.calls| <= c' && c' in run[n].book.ends && run[n].book.ends[c'].Some?
    ensures run[i].book.ends[c].value < run[n].book.ends[c'].value
  {
    SendsRunInv(run, events, i);
    SendsRunInv(run, events, n);
    SendClaimsGrow(run, events, i, n);
    hide Inv;
    hide BookOk;
    EndsInOrder(run[n].book, c');
    LaterClaims(run[i].book, run[n].book, c, c', run[n].book.ends[c'].value);
  }

  lemma {:induction false} RecvClaimsGrow<M>(run: seq<Recvs<M>>, events: seq<Event<M>>, i: nat, n: nat)
    requires IsRecvs(run, events) && i <= n < |run|
    ensures run[i].book.claims <= run[n].book.claims
  {
    hide Step;
    if i < n {
      RecvClaimsGrow(run, events, i, n - 1);
      assert RecvsStep(run[n - 1], events[n - 1], run[n]);
    }
  }

  /** A recv that began after another had returned takes a later message. */
  lemma LaterRecvsFollow<M>(
    run: seq<Recvs<M>>, events: seq<Event<M>>, i: nat, n: nat, c: nat, c': nat)
    requires IsRecvs(run, events) && i <= n < |run| && c in run[i].book.ends && run[i].book.ends[c].Some?
    requires |run[i].book.calls| <= c' && c' in run[n].book.ends && run[n].book.ends[c'].Some?
    ensures run[i].book.ends[c].value < run[n].book.ends[c'].value
  {
    RecvsRunInv(run, events, i);
    RecvsRunInv(run, events, n);
    RecvClaimsGrow(run, events, i, n);
    hide Inv;
    hide BookOk;
    EndsInOrder(run[n].book, c');
    LaterClaims(run[i].book, run[n].book, c, c', run[n].book.ends[c'].value);
  }

  // ---------------------------------------------------------------------------------------
  // A call that no other thread disturbs comes to its end
  // ---------------------------------------------------------------------------------------

  /** The steps are all of thread `t`. */
  ghost predicate Alone<M>(run: seq<State<M>>, events: seq<Event<M>>, t: nat) {
    |run| == |events| + 1 && forall i | 0 <= i < |events| :: events[i].t == t && Step(run[i], events[i], run[i + 1])
  }

  lemma GoAgain<M>(s: State<M>, t: nat, pc: Pc<M>, pc': Pc<M>)
    ensures Goto(Goto(s, t, pc), t, pc') == Goto(s, t, pc')
  {
    assert s.threads[t := pc][t := pc'] == s.threads[t := pc'];
  }

  /** What a send does before it claims, and after. */
  lemma SendBegins<M>(s: State<M>, t: nat, msg: M)
    requires Inv(s) && t in s.threads && s.threads[t] == Idle
    ensures var s1, s2 := Goto(s, t, SendLoad(msg)), Goto(s, t, SendTry(msg, s.head));
            && Step(s, CallSend(t, msg), s1) && Step(s1, LoadHead(t), s2)
            && Step(s2, LoadSendStamp(t), Goto(s, t, if Full(s) then Idle else SendCas(msg, s.head)))
  {
    HeadSlot(s);
    Stamps(s);
    hide SlotOk;
    hide PcOk;
    GoAgain(s, t, SendLoad(msg), SendTry(msg, s.head));
    GoAgain(s, t, SendTry(msg, s.head), if Full(s) then Idle else SendCas(msg, s.head));
  }

  /** The states of a send once it has claimed: its position is its own, its message is in, it is published. */
  ghost function Claimed<M>(s: State<M>, t: nat, msg: M): State<M> {
    Goto(s, t, SendOwner(msg, s.head)).(head := s.head + 1, sent := s.sent + [msg])
  }

  ghost function Stored<M>(s: State<M>, t: nat, msg: M): State<M>
    requires |s.msgs| == QUEUE_SIZE
  {
    Goto(s, t, SendWritten(msg, s.head)).(head := s.head + 1, sent := s.sent + [msg],
                                          msgs := s.msgs[Slot(s.head) := msg])
  }

  ghost function Sent<M>(s: State<M>, t: nat, msg: M): (s': State<M>)
    requires |s.msgs| == QUEUE_SIZE && |s.stamps| == QUEUE_SIZE && t in s.threads && s.threads[t] == Idle
    ensures s'.threads == s.threads && s'.tail == s.tail && s'.delivered == s.delivered
    ensures s'.sent == s.sent + [msg] && |s'.stamps| == QUEUE_SIZE && Published(s', s.head)
  {
    s.(head := s.head + 1, sent := s.sent + [msg], msgs := s.msgs[Slot(s.head) := msg],
       stamps := s.stamps[Slot(s.head) := s.head + 1])
  }

  lemma SendClaims<M>(s: State<M>, t: nat, msg: M)
    requires t in s.threads && |s.msgs| == QUEUE_SIZE && |s.stamps| == QUEUE_SIZE
    ensures Step(Goto(s, t, SendCas(msg, s.head)), CasHead(t, false), Claimed(s, t, msg))
    ensures Step(Claimed(s, t, msg), WriteMsg(t), Stored(s, t, msg))
  {
    GoAgain(s, t, SendCas(msg, s.head), SendOwner(msg, s.head));
    GoAgain(s, t, SendOwner(msg, s.head), SendWritten(msg, s.head));
  }

  lemma SendPublishes<M>(s: State<M>, t: nat, msg: M)
    requires t in s.threads && s.threads[t] == Idle && |s.msgs| == QUEUE_SIZE && |s.stamps| == QUEUE_SIZE
    ensures Step(Stored(s, t, msg), Publish(t), Sent(s, t, msg))
  {
    assert s.threads[t := SendWritten(msg, s.head)][t := Idle] == s.threads;
  }

  /** Three steps of thread `t` more. */
  lemma ThenThree<M>(
    run: seq<State<M>>, events: seq<Event<M>>, t: nat, a: Event<M>, x: State<M>, b: Event<M>, y: State<M>,
    c: Event<M>, z: State<M>)
    requires Alone(run, events, t) && a.t == b.t == c.t == t
    requires Step(run[|events|], a, x) && Step(x, b, y) && Step(y, c, z)
    ensures Alone(run + [x, y, z], events + [a, b, c], t)
  {
    hide Step;
    var run', events' := run + [x, y, z], events + [a, b, c];
    forall i | 0 <= i < |events'| ensures events'[i].t == t && Step(run'[i], events'[i], run'[i + 1]) {
      if i < |events| { assert events[i].t == t && Step(run[i], events[i], run[i + 1]); }
    }
  }

  /** A send that runs alone stores its message and publishes it, unless the queue is full. */
  lemma SendAlone<M>(s: State<M>, t: nat, msg: M) returns (run: seq<State<M>>, events: seq<Event<M>>)
    requires Inv(s) && t in s.threads && s.threads[t] == Idle
    ensures Alone(run, events, t) && |events| > 0 && run[0] == s && events[0] == CallSend(t, msg)
    ensures var s' := run[|events|];
            && s'.threads == s.threads && s'.tail == s.tail && s'.delivered == s.delivered
            && s'.sent == (if Full(s) then s.sent else s.sent + [msg])
            && (!Full(s) ==> |s'.stamps| == QUEUE_SIZE && Published(s', s.head))
  {
    SendBegins(s, t, msg);
    Stamps(s);
    var s1, s2 := Goto(s, t, SendLoad(msg)), Goto(s, t, SendTry(msg, s.head));
    var s3 := Goto(s, t, if Full(s) then Idle else SendCas(msg, s.head));
    assert s.threads[t := Idle] == s.threads;
    hide Inv;
    hide Step;
    hide Full;
    hide Published;
    ThenThree([s], [], t, CallSend(t, msg), s1, LoadHead(t), s2, LoadSendStamp(t), s3);
    run, events := [s] + [s1, s2, s3], [] + [CallSend(t, msg), LoadHead(t), LoadSendStamp(t)];
    hide Alone;
    if !Full(s) {
      SendClaims(s, t, msg);
      SendPublishes(s, t, msg);
      hide Goto;
      hide Claimed;
      hide Stored;
      hide Sent;
      var s4, s5, s6 := Claimed(s, t, msg), Stored(s, t, msg), Sent(s, t, msg);
      ThenThree(run, events, t, CasHead(t, false), s4, WriteMsg(t), s5, Publish(t), s6);
      run, events := run + [s4, s5, s6], events + [CasHead(t, false), WriteMsg(t), Publish(t)];
    }
  }

  /** What the slot of the tail holds. */
  lemma TailSlot<M>(s: State<M>)
    requires Inv(s)
    ensures |s.stamps| == QUEUE_SIZE && |s.msgs| == QUEUE_SIZE
    ensures if NoneReady(s) then s.stamps[Slot(s.tail)] < s.tail + 1
            else s.stamps[Slot(s.tail)] == s.tail + 1 && s.tail < |s.sent| && s.msgs[Slot(s.tail)] == s.sent[s.tail]
  {
    hide TakenOk;
    if s.tail < s.head {
      assert SlotOk(s, s.tail + QUEUE_SIZE);
      assert QueuedOk(s, s.tail);
      if u :| u in s.threads && SendHolds(s.threads[u], s.tail) { assert PcOk(s, s.threads[u]); }
    } else {
      assert SlotOk(s, s.head);
    }
  }

  /** What a recv does before it claims, and after. */
  lemma RecvBegins<M>(s: State<M>, t: nat)
    requires Inv(s) && t in s.threads && s.threads[t] == Idle
    ensures var s1, s2 := Goto(s, t, RecvLoad), Goto(s, t, RecvTry(s.tail));
            && Step(s, CallRecv(t), s1) && Step(s1, LoadTail(t), s2)
            && Step(s2, LoadRecvStamp(t), Goto(s, t, if NoneReady(s) then Idle else RecvCas(s.tail)))
  {
    TailSlot(s);
    hide Inv;
    hide NoneReady;
    GoAgain(s, t, RecvLoad, RecvTry(s.tail));
    GoAgain(s, t, RecvTry(s.tail), if NoneReady(s) then Idle else RecvCas(s.tail));
  }

  /** The states of a recv once it has claimed. */
  ghost function Taking<M>(s: State<M>, t: nat): State<M> {
    Goto(s, t, RecvOwner(s.tail)).(tail := s.tail + 1)
  }

  ghost function Taken<M>(s: State<M>, t: nat): State<M>
    requires s.tail < |s.sent|
  {
    Goto(s, t, RecvRead(s.tail, s.sent[s.tail])).(tail := s.tail + 1)
  }

  ghost function Received<M>(s: State<M>): (s': State<M>)
    requires |s.stamps| == QUEUE_SIZE && s.tail < |s.sent|
    ensures s'.threads == s.threads && s'.head == s.head && s'.sent == s.sent
    ensures s'.delivered == s.delivered[s.tail := s.sent[s.tail]]
  {
    s.(tail := s.tail + 1, stamps := s.stamps[Slot(s.tail) := s.tail + QUEUE_SIZE],
       delivered := s.delivered[s.tail := s.sent[s.tail]])
  }

  lemma RecvClaims<M>(s: State<M>, t: nat)
    requires t in s.threads && |s.msgs| == QUEUE_SIZE && |s.stamps| == QUEUE_SIZE
    requires s.tail < |s.sent| && s.msgs[Slot(s.tail)] == s.sent[s.tail]
    ensures Step(Goto(s, t, RecvCas(s.tail)), CasTail(t, false), Taking(s, t))
    ensures Step(Taking(s, t), ReadMsg(t), Taken(s, t))
  {
    GoAgain(s, t, RecvCas(s.tail), RecvOwner(s.tail));
    GoAgain(s, t, RecvOwner(s.tail), RecvRead(s.tail, s.sent[s.tail]));
  }

  lemma RecvReleases<M>(s: State<M>, t: nat)
    requires t in s.threads && s.threads[t] == Idle && |s.msgs| == QUEUE_SIZE && |s.stamps| == QUEUE_SIZE
    requires s.tail < |s.sent|
    ensures Step(Taken(s, t), Release(t), Received(s))
  {
    assert s.threads[t := RecvRead(s.tail, s.sent[s.tail])][t := Idle] == s.threads;
  }

  /** A recv that runs alone returns the oldest message, unless none is there to receive. */
  lemma RecvAlone<M>(s: State<M>, t: nat) returns (run: seq<State<M>>, events: seq<Event<M>>)
    requires Inv(s) && t in s.threads && s.threads[t] == Idle
    ensures Alone(run, events, t) && |events| > 0 && run[0] == s && events[0] == CallRecv(t)
    ensures NoneReady(s) || s.tail < |s.sent|
    ensures var s' := run[|events|];
            && s'.threads == s.threads && s'.head == s.head && s'.sent == s.sent
            && s'.delivered == if NoneReady(s) then s.delivered else s.delivered[s.tail := s.sent[s.tail]]
  {
    RecvBegins(s, t);
    TailSlot(s);
    var s1, s2 := Goto(s, t, RecvLoad), Goto(s, t, RecvTry(s.tail));
    var s3 := Goto(s, t, if NoneReady(s) then Idle else RecvCas(s.tail));
    assert s.threads[t := Idle] == s.threads;
    hide Inv;
    hide Step;
    hide NoneReady;
    ThenThree([s], [], t, CallRecv(t), s1, LoadTail(t), s2, LoadRecvStamp(t), s3);
    run, events := [s] + [s1, s2, s3], [] + [CallRecv(t), LoadTail(t), LoadRecvStamp(t)];
    hide Alone;
    if !NoneReady(s) {
      RecvClaims(s, t);
      RecvReleases(s, t);
      hide Goto;
      hide Taking;
      hide Taken;
      hide Received;
      var s4, s5, s6 := Taking(s, t), Taken(s, t), Received(s);
      ThenThree(run, events, t, CasTail(t, false), s4, ReadMsg(t), s5, Release(t), s6);
      run, events := run + [s4, s5, s6], events + [CasTail(t, false), ReadMsg(t), Release(t)];
    }
  }

  // ---------------------------------------------------------------------------------------
  // Every run has its histories
  // ---------------------------------------------------------------------------------------

  /** Any run of the channel, with the events that made it. */
  ghost predicate IsTrace<M>(run: seq<State<M>>, events: seq<Event<M>>) {
    |run| == |events| + 1 && Init(run[0]) && forall i | 0 <= i < |events| :: Step(run[i], events[i], run[i + 1])
  }

  ghost predicate SendsOf<M>(l: seq<Sends<M>>, run: seq<State<M>>) {
    |l| == |run| && forall i | 0 <= i < |run| :: l[i].s == run[i]
  }

  ghost predicate RecvsOf<M>(l: seq<Recvs<M>>, run: seq<State<M>>) {
    |l| == |run| && forall i | 0 <= i < |run| :: l[i].s == run[i]
  }

  lemma {:induction false} HaveSends<M>(run: seq<State<M>>, events: seq<Event<M>>) returns (l: seq<Sends<M>>)
    requires IsTrace(run, events)
    ensures IsSends(l, events) && SendsOf(l, run)
    decreases |events|
  {
    hide Step;
    hide Noted;
    var n := |events|;
    if n == 0 {
      l := [Sends(run[0], Book(map[], [], map[], map[], []))];
    } else {
      l := HaveSends(run[..n], events[..n - 1]);
      var t := events[n - 1].t;
      var x := Sends(run[n], Noted(l[n - 1].book, t, SendingAt(run[n], t), run[n].head));
      assert SendsStep(l[n - 1], events[n - 1], x) by { assert Step(run[n - 1], events[n - 1], run[n]); }
      l := l + [x];
      forall i | 0 <= i < n ensures SendsStep(l[i], events[i], l[i + 1]) {
        assert i < n - 1 ==> SendsStep(l[i], events[..n - 1][i], l[i + 1]);
      }
    }
  }

  lemma {:induction false} HaveRecvs<M>(run: seq<State<M>>, events: seq<Event<M>>) returns (l: seq<Recvs<M>>)
    requires IsTrace(run, events)
    ensures IsRecvs(l, events) && RecvsOf(l, run)
    decreases |events|
  {
    hide Step;
    hide Noted;
    var n := |events|;
    if n == 0 {
      l := [Recvs(run[0], Book(map[], [], map[], map[], []))];
    } else {
      l := HaveRecvs(run[..n], events[..n - 1]);
      var t := events[n - 1].t;
      var x := Recvs(run[n], Noted(l[n - 1].book, t, ReceivingAt(run[n], t), run[n].tail));
      assert RecvsStep(l[n - 1], events[n - 1], x) by { assert Step(run[n - 1], events[n - 1], run[n]); }
      l := l + [x];
      forall i | 0 <= i < n ensures RecvsStep(l[i], events[i], l[i + 1]) {
        assert i < n - 1 ==> RecvsStep(l[i], events[..n - 1][i], l[i + 1]);
      }
    }
  }
}
