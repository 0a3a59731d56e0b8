/**
 What the queue looks like at rest: over every run, each claimed slot that no thread works on has been
 stamped as done. So a `push`, `force_push` or `pop` that no other thread disturbs comes to its end.
 */
module QueueSettled {
  import opened LapCode
  import opened ArrayQueue
  import opened QueueCalls

  /** Some thread has claimed position `p` and works on its slot. */
  ghost predicate Owned<V>(s: State<V>, p: nat) {
    exists u :: u in s.threads && Owns(s.threads[u]) && s.threads[u].pos == p
  }

  /** The stamp that a finished call leaves in the slot of position `p`: published, or released after a pop. */
  ghost function RestStamp<V>(m: Mem<V>, p: nat): nat
    requires m.c.Valid()
  {
    Enc(m.c, p) + if p < m.h then m.c.lap else 1
  }

  ghost predicate SettledAt<V>(s: State<V>, p: nat)
    requires Shape(s.m)
  {
    Owned(s, p) || s.m.stamps[Idx(s.m.c, p)] == RestStamp(s.m, p)
  }

  /** The last lap of claimed positions. */
  ghost predicate Settled<V>(s: State<V>)
    requires Shape(s.m)
  {
    forall p: nat | p < |s.m.sent| <= p + s.m.c.cap :: SettledAt(s, p)
  }

  lemma StaysOwned<V>(s: State<V>, e: Event<V>, s': State<V>, p: nat)
    requires Step(s, e, s') && Owned(s, p)
    requires Owns(s.threads[e.tid]) && s.threads[e.tid].pos == p ==>
               Owns(s'.threads[e.tid]) && s'.threads[e.tid].pos == p
    ensures Owned(s', p)
  {
    hide Effect;
    var u :| u in s.threads && Owns(s.threads[u]) && s.threads[u].pos == p;
    assert u in s'.threads && (u != e.tid ==> s'.threads[u] == s.threads[u]);
  }

  ghost predicate Stamps<V>(e: Event<V>) {
    e.StampPush? || e.StampForce? || e.StampPop?
  }

  /** The step claims a position. */
  ghost predicate Claiming<V>(s: State<V>, e: Event<V>, s': State<V>) {
    (e.CasTail? || e.CasForce? || e.CasHead?) && s'.m != s.m
  }

  /** Every other step leaves the stamps and the claims as they are. */
  lemma OtherwiseSame<V>(m: Mem<V>, pc: Pc<V>, e: Event<V>, m': Mem<V>, pc': Pc<V>)
    requires Shape(m) && Effect(m, pc, e, m', pc') && !Stamps(e)
    requires e.CasTail? || e.CasForce? || e.CasHead? ==> m' == m
    ensures m'.stamps == m.stamps && m'.h == m.h && m'.sent == m.sent && m'.c == m.c
    ensures Owns(pc) ==> Owns(pc') && pc'.pos == pc.pos
  {
    hide Advance;
    hide Index;
    hide InBounds;
  }

  lemma OtherSettled<V>(s: State<V>, e: Event<V>, s': State<V>, p: nat)
    requires Inv(s) && Inv(s') && Step(s, e, s') && !Stamps(e) && !Claiming(s, e, s')
    requires p < |s'.m.sent| <= p + s'.m.c.cap && Settled(s)
    ensures SettledAt(s', p)
  {
    hide SlotOk;
    hide PcOk;
    OtherwiseSame(s.m, s.threads[e.tid], e, s'.m, s'.threads[e.tid]);
    hide Effect;
    hide Enc;
    hide Idx;
    assert SettledAt(s, p);
    if Owned(s, p) { StaysOwned(s, e, s', p); }
  }

  /** A claim takes a position that is not of the last lap, or the oldest value. */
  lemma ClaimTakes<V>(s: State<V>, e: Event<V>, s': State<V>)
    requires Inv(s) && Step(s, e, s') && Claiming(s, e, s')
    ensures s'.m.stamps == s.m.stamps && s'.m.c == s.m.c
    ensures !Owns(s.threads[e.tid]) && Owns(s'.threads[e.tid])
    ensures e.CasHead? ==> s'.threads[e.tid].pos == s.m.h && s'.m.h == s.m.h + 1 && s'.m.sent == s.m.sent
    ensures !e.CasHead? ==> s'.threads[e.tid].pos == |s.m.sent| && |s'.m.sent| == |s.m.sent| + 1
    ensures e.CasTail? ==> s'.m.h == s.m.h
    ensures e.CasForce? ==> s'.m.h == s.m.h + 1 && s.m.h + s.m.c.cap == |s.m.sent|
  {
    hide SlotOk;
    hide PcOk;
    hide Enc;
    hide Idx;
    hide Advance;
    hide Index;
    if e.CasHead? { PopClaims(s, e, s'); } else { Claims(s, e, s'); }
    if e.CasForce? { PopClaims(s, e, s'); }
  }

  lemma ClaimSettled<V>(s: State<V>, e: Event<V>, s': State<V>, p: nat)
    requires Inv(s) && Inv(s') && Step(s, e, s') && Claiming(s, e, s')
    requires p < |s'.m.sent| <= p + s'.m.c.cap && Settled(s)
    ensures SettledAt(s', p)
  {
    ClaimTakes(s, e, s');
    hide SlotOk;
    hide PcOk;
    hide Effect;
    hide Enc;
    hide Idx;
    if s'.threads[e.tid].pos == p {
      assert Owned(s', p);
    } else {
      assert SettledAt(s, p);
      if Owned(s, p) { StaysOwned(s, e, s', p); }
    }
  }

  /** The stamp that ends a call is the one its position rests with. */
  lemma StampRests<V>(s: State<V>, e: Event<V>, s': State<V>)
    requires Inv(s) && Step(s, e, s') && Stamps(e)
    ensures var p := s.threads[e.tid].pos;
            && Owns(s.threads[e.tid]) && p < |s.m.sent| <= p + s.m.c.cap
            && s'.m == s.m.(stamps := s.m.stamps[Idx(s.m.c, p) := RestStamp(s.m, p)])
  {
    var m, pc := s.m, s.threads[e.tid];
    assert PcOk(m, pc);
    IndexOfEnc(m.c, pc.pos);
    var p := pc.pos;
    assert SlotOk(m, p + m.c.cap);
    assert Idx(m.c, p + m.c.cap) == Idx(m.c, p);
    hide Index;
  }

  lemma StampSettled<V>(s: State<V>, e: Event<V>, s': State<V>, p: nat)
    requires Inv(s) && Inv(s') && Step(s, e, s') && Stamps(e)
    requires p < |s'.m.sent| <= p + s'.m.c.cap && Settled(s)
    ensures SettledAt(s', p)
  {
    StampRests(s, e, s');
    hide SlotOk;
    hide PcOk;
    hide Effect;
    var q := s.threads[e.tid].pos;
    hide Enc;
    hide Idx;
    if p != q {
      assert SettledAt(s, p);
      IdxPeriod(s.m.c, if p < q then p else q, if p < q then q else p);
      if Owned(s, p) { StaysOwned(s, e, s', p); }
    }
  }

  lemma SettledStep<V>(s: State<V>, e: Event<V>, s': State<V>)
    requires Inv(s) && Settled(s) && Step(s, e, s')
    ensures Inv(s') && Settled(s')
  {
    StepInv(s, e, s');
    hide Effect;
    hide SlotOk;
    hide PcOk;
    forall p: nat | p < |s'.m.sent| <= p + s'.m.c.cap ensures SettledAt(s', p) {
      if Stamps(e) {
        StampSettled(s, e, s', p);
      } else if Claiming(s, e, s') {
        ClaimSettled(s, e, s', p);
      } else {
        OtherSettled(s, e, s', p);
      }
    }
  }

  /** In every run. */
  lemma {:induction false} RunSettled<V>(run: seq<State<V>>, events: seq<Event<V>>, n: nat)
    requires IsTrace(run, events) && n < |run|
    ensures Inv(run[n]) && Settled(run[n])
  {
    hide Effect;
    if n == 0 {
      InitInv(run[0]);
    } else {
      RunSettled(run, events, n - 1);
      SettledStep(run[n - 1], events[n - 1], run[n]);
    }
  }

  // ---------------------------------------------------------------------------------------
  // A call that no other thread disturbs
  // ---------------------------------------------------------------------------------------

  /** The memory while no thread works on a slot. */
  ghost predicate Rests<V>(m: Mem<V>) {
    && MemOk(m) && |m.sent| == m.t
    && forall p: nat | p < |m.sent| <= p + m.c.cap :: m.stamps[Idx(m.c, p)] == RestStamp(m, p)
  }

  lemma RestsWhenIdle<V>(s: State<V>)
    requires Inv(s) && Settled(s) && forall u | u in s.threads :: !Owns(s.threads[u])
    ensures Rests(s.m)
  {
    hide SlotOk;
    hide PcOk;
    hide Enc;
    hide Idx;
    assert !Pending(s);
    forall p: nat | p < |s.m.sent| <= p + s.m.c.cap ensures s.m.stamps[Idx(s.m.c, p)] == RestStamp(s.m, p) {
      assert SettledAt(s, p) && !Owned(s, p);
    }
  }

  /** The stamps that a push and a pop find. */
  lemma RestingSlots<V>(m: Mem<V>)
    requires Rests(m)
    ensures Index(m.c, m.tail) == Idx(m.c, m.t) && Index(m.c, m.head) == Idx(m.c, m.h) && m.c.lap > 1
    ensures Shape(m) && m.t == |m.sent|
    ensures QueueFull(m) ==>
              && m.h < m.t && m.stamps[Idx(m.c, m.t)] + m.c.lap == m.tail + 1 && m.head + m.c.lap == m.tail
              && m.vals[Idx(m.c, m.t)] == m.sent[m.h]
    ensures !QueueFull(m) ==> m.stamps[Idx(m.c, m.t)] == m.tail
    ensures m.h < m.t ==> m.stamps[Idx(m.c, m.h)] == m.head + 1 && m.vals[Idx(m.c, m.h)] == m.sent[m.h]
    ensures m.h <= m.t && (m.h == m.t ==> m.stamps[Idx(m.c, m.h)] == m.head == m.tail)
  {
    IndexOfEnc(m.c, m.t);
    IndexOfEnc(m.c, m.h);
    assert SlotOk(m, m.t);
    if m.h < m.t { assert SlotOk(m, m.h + m.c.cap); }
    if m.t >= m.c.cap { assert m.stamps[Idx(m.c, m.t - m.c.cap)] == RestStamp(m, m.t - m.c.cap); }
  }

  /** What thread `u` sees of the queue, with no step of another in between. */
  datatype Local<V> = Local(m: Mem<V>, pc: Pc<V>)

  ghost predicate Turned<V>(l: Local<V>, e: Event<V>, u: nat, l': Local<V>) {
    e.tid == u && l.m.c.Valid() && Effect(l.m, l.pc, e, l'.m, l'.pc)
  }

  ghost predicate Alone<V>(run: seq<Local<V>>, events: seq<Event<V>>, u: nat) {
    |run| == |events| + 1 && forall i | 0 <= i < |events| :: Turned(run[i], events[i], u, run[i + 1])
  }

  ghost function In<V>(s: State<V>, u: nat, l: Local<V>): State<V> {
    State(l.m, s.threads[u := l.pc])
  }

  /** They are steps of the queue, whatever the other threads are at. */
  lemma AloneSteps<V>(s: State<V>, u: nat, run: seq<Local<V>>, events: seq<Event<V>>, i: nat)
    requires u in s.threads && Alone(run, events, u) && i < |events|
    ensures Step(In(s, u, run[i]), events[i], In(s, u, run[i + 1]))
  {
    assert Turned(run[i], events[i], u, run[i + 1]);
    assert s.threads[u := run[i].pc][u := run[i + 1].pc] == s.threads[u := run[i + 1].pc];
    hide Effect;
  }

  lemma Then<V>(run: seq<Local<V>>, events: seq<Event<V>>, u: nat, e: Event<V>, l: Local<V>)
    requires Alone(run, events, u) && Turned(run[|events|], e, u, l)
    ensures Alone(run + [l], events + [e], u)
  {
    hide Turned;
    var run', events' := run + [l], events + [e];
    forall i | 0 <= i < |events'| ensures Turned(run'[i], events'[i], u, run'[i + 1]) {
      if i < |events| { assert Turned(run[i], events[i], u, run[i + 1]); }
    }
  }

  /** A push or force_push up to the stamp of the slot at the tail. */
  lemma PushLooks<V>(m: Mem<V>, u: nat, v: V, force: bool) returns (run: seq<Local<V>>, events: seq<Event<V>>)
    requires Rests(m)
    ensures Alone(run, events, u) && |events| == 3 && run[0] == Local(m, Idle) && events[0] == CallPush(u, v, force)
    ensures run[3] == Local(m, if QueueFull(m) then PushFull(v, force, m.tail, m.t) else PushCas(v, force, m.tail, m.t))
  {
    RestingSlots(m);
    hide MemOk;
    hide Rests;
    var l1, l2 := Local(m, PushLoad(v, force)), Local(m, PushTry(v, force, m.tail, m.t));
    var l3 := Local(m, if QueueFull(m) then PushFull(v, force, m.tail, m.t) else PushCas(v, force, m.tail, m.t));
    assert Turned(Local(m, Idle), CallPush(u, v, force), u, l1);
    assert Turned(l1, LoadTail(u), u, l2);
    assert Turned(l2, LoadPushStamp(u), u, l3);
    hide Turned;
    run, events := [Local(m, Idle), l1, l2, l3], [CallPush(u, v, force), LoadTail(u), LoadPushStamp(u)];
  }

  lemma ThenPut<V>(m: Mem<V>, u: nat, v: V, force: bool, run: seq<Local<V>>, events: seq<Event<V>>)
    returns (run': seq<Local<V>>, events': seq<Event<V>>)
    requires Rests(m) && !QueueFull(m) && Alone(run, events, u)
    requires |events| > 0 && run[|events|] == Local(m, PushCas(v, force, m.tail, m.t))
    ensures Alone(run', events', u) && |events'| > 0 && run'[0] == run[0] && events'[0] == events[0]
    ensures var l := run'[|events'|];
            l.pc == Idle && l.m.h == m.h && l.m.t == m.t + 1 && l.m.sent == m.sent + [v]
  {
    RestingSlots(m);
    hide MemOk;
    hide Rests;
    hide Index;
    hide Alone;
    var i, m1 := Index(m.c, m.tail), ClaimTail(m, v, m.tail);
    var l1, l2 := Local(m1, PushOwner(v, m.tail, m.t)), Local(SetVal(m1, i, v), PushWritten(v, m.tail, m.t));
    var l3 := Local(SetStamp(l2.m, i, m.tail + 1), Idle);
    Then(run, events, u, CasTail(u, false), l1);
    Then(run + [l1], events + [CasTail(u, false)], u, WriteVal(u), l2);
    Then(run + [l1] + [l2], events + [CasTail(u, false)] + [WriteVal(u)], u, StampPush(u), l3);
    run' := run + [l1] + [l2] + [l3];
    events' := events + [CasTail(u, false)] + [WriteVal(u)] + [StampPush(u)];
  }

  lemma ThenDisplace<V>(m: Mem<V>, u: nat, v: V, run: seq<Local<V>>, events: seq<Event<V>>)
    returns (run': seq<Local<V>>, events': seq<Event<V>>)
    requires Rests(m) && QueueFull(m) && Alone(run, events, u)
    requires |events| > 0 && run[|events|] == Local(m, PushFull(v, true, m.tail, m.t))
    ensures Alone(run', events', u) && |events'| > 1 && run'[0] == run[0] && events'[0] == events[0]
    ensures var l := run'[|events'|];
            l.pc == Idle && l.m.h == m.h + 1 && l.m.t == m.t + 1 && l.m.sent == m.sent + [v]
    ensures m.h < |m.sent| && run'[|events'| - 1].pc == ForceSwapped(m.sent[m.h], m.tail, m.t)
  {
    RestingSlots(m);
    hide MemOk;
    hide Rests;
    hide Index;
    hide Alone;
    var i, m1 := Index(m.c, m.tail), ClaimForce(m, v, m.tail);
    var l1 := Local(m1, ForceHead(v, m.tail, m.t));
    var l2 := Local(m1.(tail := Advance(m.c, m.tail), t := m.t + 1), ForceTail(v, m.tail, m.t));
    var l3 := Local(SetVal(l2.m, i, v), ForceSwapped(m.sent[m.h], m.tail, m.t));
    var l4 := Local(SetStamp(l3.m, i, m.tail + 1), Idle);
    Then(run, events, u, CasForce(u, false), l1);
    Then(run + [l1], events + [CasForce(u, false)], u, StoreTail(u), l2);
    Then(run + [l1] + [l2], events + [CasForce(u, false)] + [StoreTail(u)], u, SwapVal(u), l3);
    Then(run + [l1] + [l2] + [l3], events + [CasForce(u, false)] + [StoreTail(u)] + [SwapVal(u)], u, StampForce(u), l4);
    run' := run + [l1] + [l2] + [l3] + [l4];
    events' := events + [CasForce(u, false)] + [StoreTail(u)] + [SwapVal(u)] + [StampForce(u)];
  }

  /**
   A push that runs alone queues its value, and gives it back if the queue is full; a force_push that
   runs alone queues its value, and hands back the oldest if the queue was full.
   */
  lemma PushAlone<V>(m: Mem<V>, u: nat, v: V, force: bool) returns (run: seq<Local<V>>, events: seq<Event<V>>)
    requires Rests(m)
    ensures Alone(run, events, u) && |events| > 1 && run[0] == Local(m, Idle) && events[0] == CallPush(u, v, force)
    ensures var l := run[|events|];
            && l.pc == Idle && l.m.sent == (if QueueFull(m) && !force then m.sent else m.sent + [v])
            && l.m.t == |l.m.sent| && l.m.h == (if QueueFull(m) && force then m.h + 1 else m.h)
    ensures QueueFull(m) && force ==>
              m.h < |m.sent| && run[|events| - 1].pc == ForceSwapped(m.sent[m.h], m.tail, m.t)
  {
    run, events := PushLooks(m, u, v, force);
    RestingSlots(m);
    hide Rests;
    hide MemOk;
    hide Alone;
    if !QueueFull(m) {
      run, events := ThenPut(m, u, v, force, run, events);
    } else if force {
      run, events := ThenDisplace(m, u, v, run, events);
    } else {
      var l := Local(m, Idle);
      Then(run, events, u, CheckHead(u), l);
      run, events := run + [l], events + [CheckHead(u)];
    }
  }

  lemma PopLooks<V>(m: Mem<V>, u: nat) returns (run: seq<Local<V>>, events: seq<Event<V>>)
    requires Rests(m)
    ensures Alone(run, events, u) && |events| == 3 && run[0] == Local(m, Idle) && events[0] == CallPop(u)
    ensures run[3] == Local(m, if m.h < m.t then PopCas(m.head, m.h) else PopEmpty(m.head, m.h))
  {
    RestingSlots(m);
    hide MemOk;
    hide Rests;
    var l1, l2 := Local(m, PopLoad), Local(m, PopTry(m.head, m.h));
    var l3 := Local(m, if m.h < m.t then PopCas(m.head, m.h) else PopEmpty(m.head, m.h));
    assert Turned(Local(m, Idle), CallPop(u), u, l1);
    assert Turned(l1, LoadHead(u), u, l2);
    assert Turned(l2, LoadPopStamp(u), u, l3);
    hide Turned;
    run, events := [Local(m, Idle), l1, l2, l3], [CallPop(u), LoadHead(u), LoadPopStamp(u)];
  }

  lemma ThenTake<V>(m: Mem<V>, u: nat, run: seq<Local<V>>, events: seq<Event<V>>)
    returns (run': seq<Local<V>>, events': seq<Event<V>>)
    requires Rests(m) && m.h < m.t && Alone(run, events, u)
    requires |events| > 0 && run[|events|] == Local(m, PopCas(m.head, m.h))
    ensures Alone(run', events', u) && |events'| > 1 && run'[0] == run[0] && events'[0] == events[0]
    ensures var l := run'[|events'|]; l.pc == Idle && l.m.h == m.h + 1 && l.m.t == m.t && l.m.sent == m.sent
    ensures m.h < |m.sent| && run'[|events'| - 1].pc == PopRead(m.sent[m.h], m.head, m.h)
  {
    RestingSlots(m);
    hide MemOk;
    hide Rests;
    hide Index;
    hide Alone;
    var m1 := ClaimHead(m, m.head);
    var l1, l2 := Local(m1, PopOwner(m.head, m.h)), Local(m1, PopRead(m.sent[m.h], m.head, m.h));
    var l3 := Local(SetStamp(m1, Index(m.c, m.head), m.head + m.c.lap), Idle);
    Then(run, events, u, CasHead(u, false), l1);
    Then(run + [l1], events + [CasHead(u, false)], u, ReadVal(u), l2);
    Then(run + [l1] + [l2], events + [CasHead(u, false)] + [ReadVal(u)], u, StampPop(u), l3);
    run' := run + [l1] + [l2] + [l3];
    events' := events + [CasHead(u, false)] + [ReadVal(u)] + [StampPop(u)];
  }

  /** A pop that runs alone returns the oldest value, and None if the queue is empty. */
  lemma PopAlone<V>(m: Mem<V>, u: nat) returns (run: seq<Local<V>>, events: seq<Event<V>>)
    requires Rests(m)
    ensures Alone(run, events, u) && |events| > 1 && run[0] == Local(m, Idle) && events[0] == CallPop(u)
    ensures var l := run[|events|];
            l.pc == Idle && l.m.sent == m.sent && l.m.t == m.t && l.m.h == if m.h < m.t then m.h + 1 else m.h
    ensures m.h < m.t ==> m.h < |m.sent| && run[|events| - 1].pc == PopRead(m.sent[m.h], m.head, m.h)
  {
    run, events := PopLooks(m, u);
    RestingSlots(m);
    hide Rests;
    hide MemOk;
    hide Alone;
    if m.h < m.t {
      run, events := ThenTake(m, u, run, events);
    } else {
      var l := Local(m, Idle);
      Then(run, events, u, CheckTail(u), l);
      run, events := run + [l], events + [CheckTail(u)];
    }
  }
}
