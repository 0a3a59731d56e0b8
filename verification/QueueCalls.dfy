/**
 The calls of `push`, `force_push`, `pop` and `len` and what becomes of each: over every run, a push
 that was accepted queued its value at exactly one position, a push that was given back found the
 queue full, and every value left through exactly one pop or was displaced. The histories are kept
 beside the queue and do not restrict it.
 */
module QueueCalls {
  import opened Options
  import opened LapCode
  import opened ArrayQueue
  import opened CallLog

  // ---------------------------------------------------------------------------------------
  // push and force_push
  // ---------------------------------------------------------------------------------------

  /** A thread in `push` or `force_push` that has claimed no position yet. */
  ghost predicate Offering<V>(pc: Pc<V>) {
    pc.PushLoad? || pc.PushTry? || pc.PushCas? || pc.PushFull?
  }

  /** One that has. */
  ghost predicate Placing<V>(pc: Pc<V>) {
    pc.PushOwner? || pc.PushWritten? || pc.ForceHead? || pc.ForceTail? || pc.ForceSwapped?
  }

  /** The value of the call, and the position it has claimed. */
  ghost function Pushing<V>(m: Mem<V>, pc: Pc<V>): View<V> {
    if Offering(pc) then On(pc.v, None)
    else if Placing(pc) && pc.pos < |m.sent| then On(m.sent[pc.pos], Some(pc.pos))
    else Off
  }

  ghost function PushingAt<V>(s: State<V>, u: nat): View<V> {
    if u in s.threads then Pushing(s.m, s.threads[u]) else Off
  }

  datatype Pushes<V> = Pushes(s: State<V>, book: Book<V>)

  ghost predicate PushesStep<V>(l: Pushes<V>, e: Event<V>, l': Pushes<V>) {
    Step(l.s, e, l'.s) && l'.book == Noted(l.book, e.tid, PushingAt(l'.s, e.tid), |l'.s.m.sent|)
  }

  ghost predicate IsPushes<V>(run: seq<Pushes<V>>, events: seq<Event<V>>) {
    && |run| == |events| + 1 && Init(run[0].s) && Empty(run[0].book)
    && forall i | 0 <= i < |events| :: PushesStep(run[i], events[i], run[i + 1])
  }

  ghost predicate QueueFull<V>(m: Mem<V>) {
    m.t - m.h == m.c.cap
  }

  /** A step of a push is a turn, and keeps telling force_push from push until a position is claimed. */
  ghost predicate PushTurn<V>(m: Mem<V>, pc: Pc<V>, m': Mem<V>, pc': Pc<V>) {
    && Turn(Pushing(m, pc), Pushing(m', pc'), |m.sent|, |m'.sent|)
    && m'.sent == (if |m'.sent| > |m.sent| && Pushing(m, pc).On? then m.sent + [Pushing(m, pc).call] else m.sent)
    && (Offering(pc) && Offering(pc') ==> pc'.force == pc.force)
    && (pc'.ForceHead? && !pc.ForceHead? ==> pc.PushFull? && pc.force)
  }

  lemma OfferGoesOn<V>(m: Mem<V>, pc: Pc<V>, e: Event<V>, m': Mem<V>, pc': Pc<V>)
    requires Shape(m) && Effect(m, pc, e, m', pc') && m'.sent == m.sent && Offering(pc)
    ensures PushTurn(m, pc, m', pc')
  {
    hide Advance;
    hide Index;
    hide InBounds;
  }

  lemma PlacingGoesOn<V>(m: Mem<V>, pc: Pc<V>, e: Event<V>, m': Mem<V>, pc': Pc<V>)
    requires Shape(m) && Effect(m, pc, e, m', pc') && m'.sent == m.sent && Placing(pc) && pc.pos < |m.sent|
    ensures PushTurn(m, pc, m', pc')
  {
    hide Advance;
    hide Index;
    hide InBounds;
  }

  lemma OtherGoesOn<V>(m: Mem<V>, pc: Pc<V>, e: Event<V>, m': Mem<V>, pc': Pc<V>)
    requires Shape(m) && Effect(m, pc, e, m', pc') && m'.sent == m.sent && !Offering(pc) && !Placing(pc)
    ensures PushTurn(m, pc, m', pc')
  {
    hide Advance;
    hide Index;
    hide InBounds;
  }

  lemma Claims<V>(s: State<V>, e: Event<V>, s': State<V>)
    requires Inv(s) && Step(s, e, s') && (e.CasTail? || e.CasForce?) && s'.m != s.m
    ensures PushTurn(s.m, s.threads[e.tid], s'.m, s'.threads[e.tid])
  {
    hide SlotOk;
    hide Enc;
    hide Idx;
    hide Advance;
    hide Index;
    var m, pc := s.m, s.threads[e.tid];
    assert PcOk(m, pc);
    if e.CasTail? {
      StampsDistinct(m.c, pc.pos, m.t);
      NotPending(s, m.t);
    } else {
      FullSlot(m, pc.pos);
    }
  }

  lemma PushTurns<V>(s: State<V>, e: Event<V>, s': State<V>)
    requires Inv(s) && Step(s, e, s')
    ensures PushTurn(s.m, s.threads[e.tid], s'.m, s'.threads[e.tid])
    ensures forall u | u != e.tid :: PushingAt(s', u) == PushingAt(s, u)
  {
    hide SlotOk;
    hide Effect;
    hide PushTurn;
    assert PcOk(s.m, s.threads[e.tid]);
    var m, pc, m', pc' := s.m, s.threads[e.tid], s'.m, s'.threads[e.tid];
    if !SentSame(s, e, s') {
      Claims(s, e, s');
    } else if Offering(pc) {
      OfferGoesOn(m, pc, e, m', pc');
    } else if Placing(pc) {
      PlacingGoesOn(m, pc, e, m', pc');
    } else {
      OtherGoesOn(m, pc, e, m', pc');
    }
    forall u | u != e.tid ensures PushingAt(s', u) == PushingAt(s, u) {
      if u in s.threads {
        assert PcOk(s.m, s.threads[u]);
        assert s.m.sent <= s'.m.sent by { SentGrows(m, pc, m', pc'); }
      }
    }
  }

  ghost predicate SentSame<V>(s: State<V>, e: Event<V>, s': State<V>)
    requires Step(s, e, s')
    ensures !SentSame(s, e, s') ==> (e.CasTail? || e.CasForce?) && s'.m != s.m
  {
    s'.m.sent == s.m.sent
  }

  lemma SentGrows<V>(m: Mem<V>, pc: Pc<V>, m': Mem<V>, pc': Pc<V>)
    requires PushTurn(m, pc, m', pc')
    ensures m.sent <= m'.sent
  {
  }

  /**
   However a push ends: with a position claimed, its value has just been made visible there, and a
   force_push that displaced a value hands back the one a lap before; without, it was a push and the
   queue is full as the head is loaded.
   */
  lemma PushEnds<V>(s: State<V>, e: Event<V>, s': State<V>)
    requires Inv(s) && Step(s, e, s') && PushingAt(s, e.tid).On? && PushingAt(s', e.tid).Off?
    ensures match PushingAt(s, e.tid).held
            case Some(p) =>
              && p < |s'.m.sent| && s'.m.sent[p] == PushingAt(s, e.tid).call && Shape(s'.m)
              && s'.m.stamps[Idx(s'.m.c, p)] == Enc(s'.m.c, p) + 1 && s'.m.vals[Idx(s'.m.c, p)] == s'.m.sent[p]
              && (e.StampPush?
                  || (e.StampForce? && s.m.c.cap <= p && s.threads[e.tid].prev == s.m.sent[p - s.m.c.cap]))
            case None => e.CheckHead? && QueueFull(s.m) && !s.threads[e.tid].force
  {
    hide SlotOk;
    hide Enc;
    hide Idx;
    hide Advance;
    hide Index;
    var m, pc := s.m, s.threads[e.tid];
    assert PcOk(m, pc);
    if e.CheckHead? {
      PushFullIff(s, e.tid, s');
    } else {
      if Owns(pc) { IndexOfEnc(m.c, pc.pos); }
    }
  }

  ghost predicate PushesInv<V>(l: Pushes<V>) {
    && Inv(l.s) && BookOk(l.book) && (forall u :: Place(l.book, u) == PushingAt(l.s, u))
    && |l.book.claims| == |l.s.m.sent|
    && (forall p: nat | p < |l.s.m.sent| :: PushedBy(l, p))
  }

  ghost predicate PushedBy<V>(l: Pushes<V>, p: nat)
    requires p < |l.s.m.sent| && p < |l.book.claims|
  {
    && l.book.claims[p].Some? && l.book.claims[p].value < |l.book.calls|
    && l.book.calls[l.book.claims[p].value] == l.s.m.sent[p]
  }

  lemma PushesStepInv<V>(l: Pushes<V>, e: Event<V>, l': Pushes<V>)
    requires PushesInv(l) && PushesStep(l, e, l')
    ensures PushesInv(l')
  {
    hide BookOk;
    hide Inv;
    hide Effect;
    hide Noted;
    hide Pushing;
    StepInv(l.s, e, l'.s);
    PushTurns(l.s, e, l'.s);
    NotedOk(l.book, e.tid, PushingAt(l'.s, e.tid), |l'.s.m.sent|);
    forall p: nat | p < |l'.s.m.sent| ensures PushedBy(l', p) {
      if p < |l.s.m.sent| { assert PushedBy(l, p); }
    }
  }

  lemma {:induction false} PushesRunInv<V>(run: seq<Pushes<V>>, events: seq<Event<V>>, n: nat)
    requires IsPushes(run, events) && n < |run|
    ensures PushesInv(run[n])
  {
    hide PushesInv;
    hide PushesStep;
    if n == 0 {
      PushesInit(run[0]);
    } else {
      PushesRunInv(run, events, n - 1);
      PushesStepInv(run[n - 1], events[n - 1], run[n]);
    }
  }

  lemma PushesInit<V>(l: Pushes<V>)
    requires Init(l.s) && Empty(l.book)
    ensures PushesInv(l)
  {
    InitInv(l.s);
    EmptyOk(l.book);
    hide Inv;
    hide BookOk;
  }

  /** Call `c` ended at step `i` of the run, and the queue was full then. */
  ghost predicate FoundFull<V>(run: seq<Pushes<V>>, c: nat, i: nat) {
    i + 1 < |run| && c !in run[i].book.ends && c in run[i + 1].book.ends && QueueFull(run[i].s.m)
  }

  lemma {:induction false} GivenBackWasFull<V>(run: seq<Pushes<V>>, events: seq<Event<V>>, n: nat, c: nat)
    requires IsPushes(run, events) && n < |run| && c in run[n].book.ends && run[n].book.ends[c].None?
    ensures exists i :: 0 <= i < n && FoundFull(run, c, i)
  {
    hide Effect;
    hide Inv;
    hide BookOk;
    if n > 0 {
      var l, e, l' := run[n - 1], events[n - 1], run[n];
      assert PushesStep(l, e, l');
      PushesRunInv(run, events, n - 1);
      EndsStay(l.book, e.tid, PushingAt(l'.s, e.tid), |l'.s.m.sent|, c);
      if c in l.book.ends {
        GivenBackWasFull(run, events, n - 1, c);
      } else {
        PushEnds(l.s, e, l'.s);
        assert FoundFull(run, c, n - 1);
      }
    }
  }

  /**
   What becomes of every push and force_push, in every run: one that was accepted claimed one
   position, which no other call did, and its value is the one that leaves there; one that was given
   back claimed none, and found the queue full.
   */
  lemma PushOutcomes<V>(run: seq<Pushes<V>>, events: seq<Event<V>>, n: nat)
    requires IsPushes(run, events) && n < |run|
    ensures var s, b := run[n].s, run[n].book;
            && |b.claims| == |s.m.sent|
            && (forall p: nat | p < |s.m.sent| ::
                  b.claims[p].Some? && b.claims[p].value < |b.calls| && b.calls[b.claims[p].value] == s.m.sent[p])
            && (forall p: nat, q: nat | p < q < |s.m.sent| :: b.claims[p] != b.claims[q])
            && (forall c | c in b.ends ::
                  match b.ends[c]
                  case Some(p) => p < |s.m.sent| && b.claims[p] == Some(c)
                  case None =>
                    (forall p: nat | p < |s.m.sent| :: b.claims[p] != Some(c))
                    && exists i :: 0 <= i < n && FoundFull(run, c, i))
            && ((forall u | u in s.threads :: s.threads[u] == Idle) ==>
                  forall c: nat | c < |b.calls| :: c in b.ends)
  {
    PushesRunInv(run, events, n);
    var s, b := run[n].s, run[n].book;
    hide Inv;
    hide BookOk;
    forall p: nat | p < |s.m.sent|
      ensures b.claims[p].Some? && b.claims[p].value < |b.calls| && b.calls[b.claims[p].value] == s.m.sent[p]
    {
      assert PushedBy(run[n], p);
    }
    forall p: nat, q: nat | p < q < |s.m.sent| ensures b.claims[p] != b.claims[q] {
      if b.claims[p] == b.claims[q] { ClaimsOnce(b, p, q); }
    }
    forall c | c in b.ends
      ensures match b.ends[c]
              case Some(p) => p < |s.m.sent| && b.claims[p] == Some(c)
              case None =>
                (forall p: nat | p < |s.m.sent| :: b.claims[p] != Some(c))
                && exists i :: 0 <= i < n && FoundFull(run, c, i)
    {
      EndsInOrder(b, c);
      if b.ends[c].None? {
        GivenBackWasFull(run, events, n, c);
        forall p: nat | p < |s.m.sent| ensures b.claims[p] != Some(c) { EndsWithClaim(b, c, p); }
      }
    }
    if forall u | u in s.threads :: s.threads[u] == Idle {
      forall c: nat | c < |b.calls| ensures c in b.ends {
        assert forall u :: Place(b, u) == PushingAt(s, u);
        AllEnded(b, c);
      }
    }
  }

  // ---------------------------------------------------------------------------------------
  // pop
  // ---------------------------------------------------------------------------------------

  /** A thread inside `pop`, and the position it has claimed. */
  ghost function Popping<V>(pc: Pc<V>): View<()> {
    if pc.PopLoad? || pc.PopTry? || pc.PopCas? || pc.PopEmpty? then On((), None)
    else if pc.PopOwner? || pc.PopRead? then On((), Some(pc.pos))
    else Off
  }

  ghost function PoppingAt<V>(s: State<V>, u: nat): View<()> {
    if u in s.threads then Popping(s.threads[u]) else Off
  }

  datatype Pops<V> = Pops(s: State<V>, book: Book<()>)

  /** The step displaces the oldest value. */
  ghost predicate Displaces<V>(s: State<V>, e: Event<V>, s': State<V>) {
    e.CasForce? && s'.m != s.m
  }

  /** A value that is displaced leaves through no pop. */
  ghost predicate PopsStep<V>(l: Pops<V>, e: Event<V>, l': Pops<V>) {
    && Step(l.s, e, l'.s)
    && l'.book == if Displaces(l.s, e, l'.s) then NotedOther(l.book)
                  else Noted(l.book, e.tid, PoppingAt(l'.s, e.tid), l'.s.m.h)
  }

  ghost predicate IsPops<V>(run: seq<Pops<V>>, events: seq<Event<V>>) {
    && |run| == |events| + 1 && Init(run[0].s) && Empty(run[0].book)
    && forall i | 0 <= i < |events| :: PopsStep(run[i], events[i], run[i + 1])
  }

  lemma PopGoesOn<V>(m: Mem<V>, pc: Pc<V>, e: Event<V>, m': Mem<V>, pc': Pc<V>)
    requires Shape(m) && Effect(m, pc, e, m', pc') && m'.h == m.h && Popping(pc).On?
    ensures Turn(Popping(pc), Popping(pc'), m.h, m'.h)
  {
    hide Advance;
    hide Index;
    hide InBounds;
  }

  lemma NoPopGoesOn<V>(m: Mem<V>, pc: Pc<V>, e: Event<V>, m': Mem<V>, pc': Pc<V>)
    requires Shape(m) && Effect(m, pc, e, m', pc') && m'.h == m.h && Popping(pc).Off?
    ensures Turn(Popping(pc), Popping(pc'), m.h, m'.h)
  {
    hide Advance;
    hide Index;
    hide InBounds;
  }

  lemma PopClaims<V>(s: State<V>, e: Event<V>, s': State<V>)
    requires Inv(s) && Step(s, e, s') && (e.CasHead? || e.CasForce?) && s'.m != s.m
    ensures s'.m.h == s.m.h + 1
    ensures var v, v' := Popping(s.threads[e.tid]), Popping(s'.threads[e.tid]);
            if e.CasForce? then v == v' && QueueFull(s.m) else Turn(v, v', s.m.h, s'.m.h)
  {
    hide SlotOk;
    hide Enc;
    hide Idx;
    hide Advance;
    hide Index;
    var m, pc := s.m, s.threads[e.tid];
    assert PcOk(m, pc);
    if e.CasHead? { StampsDistinct(m.c, pc.pos, m.h); } else { FullSlot(m, pc.pos); }
  }

  lemma PopTurns<V>(s: State<V>, e: Event<V>, s': State<V>)
    requires Inv(s) && Step(s, e, s')
    ensures var v, v' := PoppingAt(s, e.tid), PoppingAt(s', e.tid);
            if Displaces(s, e, s') then s'.m.h == s.m.h + 1 && v' == v && QueueFull(s.m)
            else Turn(v, v', s.m.h, s'.m.h)
    ensures forall u | u != e.tid :: PoppingAt(s', u) == PoppingAt(s, u)
  {
    hide SlotOk;
    hide Effect;
    hide Turn;
    assert PcOk(s.m, s.threads[e.tid]);
    if HeadSame(s, e, s') {
      if Popping(s.threads[e.tid]).On? {
        PopGoesOn(s.m, s.threads[e.tid], e, s'.m, s'.threads[e.tid]);
      } else {
        NoPopGoesOn(s.m, s.threads[e.tid], e, s'.m, s'.threads[e.tid]);
      }
    } else {
      PopClaims(s, e, s');
    }
  }

  ghost predicate HeadSame<V>(s: State<V>, e: Event<V>, s': State<V>)
    requires Step(s, e, s')
    ensures HeadSame(s, e, s') ==> !Displaces(s, e, s')
    ensures !HeadSame(s, e, s') ==> (e.CasHead? || e.CasForce?) && s'.m != s.m
  {
    s'.m.h == s.m.h
  }

  /**
   However a pop ends: with a position claimed, it returns the value pushed there and releases the slot
   for the next lap; without, the queue is empty as the tail is loaded.
   */
  lemma PopEnds<V>(s: State<V>, e: Event<V>, s': State<V>)
    requires Inv(s) && Step(s, e, s') && PoppingAt(s, e.tid).On? && PoppingAt(s', e.tid).Off?
    ensures match PoppingAt(s, e.tid).held
            case Some(p) =>
              && e.StampPop? && p < s.m.h && p < |s.m.sent| && s.threads[e.tid].v == s.m.sent[p] && Shape(s'.m)
              && s'.m.stamps[Idx(s'.m.c, p)] == Enc(s'.m.c, p) + s'.m.c.lap
            case None => e.CheckTail? && s.m.h == s.m.t
  {
    hide SlotOk;
    hide Enc;
    hide Idx;
    hide Advance;
    hide Index;
    assert PcOk(s.m, s.threads[e.tid]);
    if e.CheckTail? { PopEmptyIff(s, e.tid, s'); }
    if e.StampPop? { IndexOfEnc(s.m.c, s.threads[e.tid].pos); }
  }

  ghost predicate PopsInv<V>(l: Pops<V>) {
    && Inv(l.s) && BookOk(l.book) && (forall u :: Place(l.book, u) == PoppingAt(l.s, u))
    && |l.book.claims| == l.s.m.h
  }

  lemma PopsStepInv<V>(l: Pops<V>, e: Event<V>, l': Pops<V>)
    requires PopsInv(l) && PopsStep(l, e, l')
    ensures PopsInv(l')
  {
    hide BookOk;
    hide Inv;
    hide Effect;
    hide Noted;
    hide Popping;
    StepInv(l.s, e, l'.s);
    PopTurns(l.s, e, l'.s);
    if Displaces(l.s, e, l'.s) {
      CallLog.OtherOk(l.book);
    } else {
      NotedOk(l.book, e.tid, PoppingAt(l'.s, e.tid), l'.s.m.h);
    }
  }

  lemma {:induction false} PopsRunInv<V>(run: seq<Pops<V>>, events: seq<Event<V>>, n: nat)
    requires IsPops(run, events) && n < |run|
    ensures PopsInv(run[n])
  {
    hide PopsInv;
    hide PopsStep;
    if n == 0 {
      PopsInit(run[0]);
    } else {
      PopsRunInv(run, events, n - 1);
      PopsStepInv(run[n - 1], events[n - 1], run[n]);
    }
  }

  lemma PopsInit<V>(l: Pops<V>)
    requires Init(l.s) && Empty(l.book)
    ensures PopsInv(l)
  {
    InitInv(l.s);
    EmptyOk(l.book);
    hide Inv;
    hide BookOk;
  }

  ghost predicate FoundEmpty<V>(run: seq<Pops<V>>, c: nat, i: nat) {
    i + 1 < |run| && c !in run[i].book.ends && c in run[i + 1].book.ends && run[i].s.m.h == run[i].s.m.t
  }

  lemma {:induction false} NoneWasEmpty<V>(run: seq<Pops<V>>, events: seq<Event<V>>, n: nat, c: nat)
    requires IsPops(run, events) && n < |run| && c in run[n].book.ends && run[n].book.ends[c].None?
    ensures exists i :: 0 <= i < n && FoundEmpty(run, c, i)
  {
    hide Effect;
    hide Inv;
    hide BookOk;
    if n > 0 {
      var l, e, l' := run[n - 1], events[n - 1], run[n];
      assert PopsStep(l, e, l');
      PopsRunInv(run, events, n - 1);
      if !Displaces(l.s, e, l'.s) { EndsStay(l.book, e.tid, PoppingAt(l'.s, e.tid), l'.s.m.h, c); }
      if c in l.book.ends {
        NoneWasEmpty(run, events, n - 1, c);
      } else {
        PopEnds(l.s, e, l'.s);
        assert FoundEmpty(run, c, n - 1);
      }
    }
  }

  /**
   What becomes of every pop, in every run: one that returned a value claimed one position, which no
   other pop did; one that returned None claimed none, and found the queue empty; and with all threads
   idle every pop has returned.
   */
  lemma PopOutcomes<V>(run: seq<Pops<V>>, events: seq<Event<V>>, n: nat)
    requires IsPops(run, events) && n < |run|
    ensures var s, b := run[n].s, run[n].book;
            && |b.claims| == s.m.h
            && (forall p: nat | p < s.m.h && b.claims[p].Some? :: b.claims[p].value < |b.calls|)
            && (forall p: nat, q: nat | p < q < s.m.h && b.claims[p].Some? :: b.claims[p] != b.claims[q])
            && (forall c | c in b.ends ::
                  match b.ends[c]
                  case Some(p) => p < s.m.h && b.claims[p] == Some(c)
                  case None =>
                    (forall p: nat | p < s.m.h :: b.claims[p] != Some(c))
                    && exists i :: 0 <= i < n && FoundEmpty(run, c, i))
            && ((forall u | u in s.threads :: s.threads[u] == Idle) ==>
                  forall c: nat | c < |b.calls| :: c in b.ends)
  {
    PopsRunInv(run, events, n);
    var s, b := run[n].s, run[n].book;
    hide Inv;
    forall p: nat | p < s.m.h && b.claims[p].Some? ensures b.claims[p].value < |b.calls| { assert ClaimOk(b, p); }
    hide BookOk;
    forall p: nat, q: nat | p < q < s.m.h && b.claims[p].Some? ensures b.claims[p] != b.claims[q] {
      if b.claims[p] == b.claims[q] { ClaimsOnce(b, p, q); }
    }
    forall c | c in b.ends
      ensures match b.ends[c]
              case Some(p) => p < s.m.h && b.claims[p] == Some(c)
              case None =>
                (forall p: nat | p < s.m.h :: b.claims[p] != Some(c))
                && exists i :: 0 <= i < n && FoundEmpty(run, c, i)
    {
      EndsInOrder(b, c);
      if b.ends[c].None? {
        NoneWasEmpty(run, events, n, c);
        forall p: nat | p < s.m.h ensures b.claims[p] != Some(c) { EndsWithClaim(b, c, p); }
      }
    }
    if forall u | u in s.threads :: s.threads[u] == Idle {
      forall c: nat | c < |b.calls| ensures c in b.ends {
        assert forall u :: Place(b, u) == PoppingAt(s, u);
        AllEnded(b, c);
      }
    }
  }

  ghost predicate DisplacedAt<V>(run: seq<Pops<V>>, events: seq<Event<V>>, p: nat, i: nat) {
    i < |events| && i + 1 < |run| && run[i].s.m.h == p && Displaces(run[i].s, events[i], run[i + 1].s)
  }

  /** A value that left through no pop was displaced by a force_push. */
  lemma {:induction false} OthersDisplaced<V>(run: seq<Pops<V>>, events: seq<Event<V>>, n: nat, p: nat)
    requires IsPops(run, events) && n < |run| && p < |run[n].book.claims| && run[n].book.claims[p].None?
    ensures exists i :: 0 <= i < n && DisplacedAt(run, events, p, i)
  {
    hide PopsInv;
    hide PopsStep;
    hide Init;
    hide Displaces;
    if n > 0 {
      PopsRunInv(run, events, n - 1);
      StepDisplaces(run[n - 1], events[n - 1], run[n], p);
      if p < |run[n - 1].book.claims| {
        OthersDisplaced(run, events, n - 1, p);
      } else {
        assert DisplacedAt(run, events, p, n - 1);
      }
    } else {
      assert false;
    }
  }

  lemma StepDisplaces<V>(l: Pops<V>, e: Event<V>, l': Pops<V>, p: nat)
    requires PopsInv(l) && PopsStep(l, e, l') && p < |l'.book.claims| && l'.book.claims[p].None?
    ensures if p < |l.book.claims| then l.book.claims[p].None? else p == l.s.m.h && Displaces(l.s, e, l'.s)
  {
    hide BookOk;
    hide Inv;
    hide Effect;
    hide Popping;
    hide Displaces;
    PopTurns(l.s, e, l'.s);
    if !Displaces(l.s, e, l'.s) {
      NotedOk(l.book, e.tid, PoppingAt(l'.s, e.tid), l'.s.m.h);
    }
    hide Noted;
  }

  // ---------------------------------------------------------------------------------------
  // len
  // ---------------------------------------------------------------------------------------

  ghost predicate Measuring<V>(pc: Pc<V>) {
    pc.LenLoad? || pc.LenTail? || pc.LenHead?
  }

  /** A `len` goes on or returns the number of values in the queue as it loaded the head. */
  lemma LenEnds<V>(s: State<V>, e: Event<V>, s': State<V>)
    requires Inv(s) && Step(s, e, s') && Measuring(s.threads[e.tid]) && !Measuring(s'.threads[e.tid])
    ensures e.LenReload? && s'.threads[e.tid] == Idle
    ensures var pc := s.threads[e.tid];
            pc.LenHead? && s.m.c.Valid() && Len(s.m.c, pc.hword, pc.word) == pc.size && 0 <= pc.size <= s.m.c.cap
  {
    hide SlotOk;
    hide Enc;
    hide Idx;
    hide Advance;
    hide Index;
    if e.LenReload? { LenIsExact(s, e.tid, s'); }
  }

  lemma {:induction false} PushClaimsGrow<V>(run: seq<Pushes<V>>, events: seq<Event<V>>, i: nat, n: nat)
    requires IsPushes(run, events) && i <= n < |run|
    ensures run[i].book.claims <= run[n].book.claims
  {
    hide Step;
    if i < n {
      PushClaimsGrow(run, events, i, n - 1);
      assert PushesStep(run[n - 1], events[n - 1], run[n]);
    }
  }

  /** A push that began after another had returned queues its value behind that of the other. */
  lemma LaterPushesFollow<V>(
    run: seq<Pushes<V>>, events: seq<Event<V>>, i: nat, n: nat, c: nat, c': nat)
    requires IsPushes(run, events) && i <= n < |run| && c in run[i].book.ends && run[i].book.ends[c].Some?
    requires |run[i].book.calls| <= c' && c' in run[n].book.ends && run[n].book.ends[c'].Some?
    ensures run[i].book.ends[c].value < run[n].book.ends[c'].value
  {
    PushesRunInv(run, events, i);
    PushesRunInv(run, events, n);
    PushClaimsGrow(run, events, i, n);
    hide Inv;
    hide BookOk;
    EndsInOrder(run[n].book, c');
    LaterClaims(run[i].book, run[n].book, c, c', run[n].book.ends[c'].value);
  }

  lemma {:induction false} PopClaimsGrow<V>(run: seq<Pops<V>>, events: seq<Event<V>>, i: nat, n: nat)
    requires IsPops(run, events) && i <= n < |run|
    ensures run[i].book.claims <= run[n].book.claims
  {
    hide Step;
    if i < n {
      PopClaimsGrow(run, events, i, n - 1);
      assert PopsStep(run[n - 1], events[n - 1], run[n]);
    }
  }

  /** A pop that began after another had returned takes a later value. */
  lemma LaterPopsFollow<V>(
    run: seq<Pops<V>>, events: seq<Event<V>>, i: nat, n: nat, c: nat, c': nat)
    requires IsPops(run, events) && i <= n < |run| && c in run[i].book.ends && run[i].book.ends[c].Some?
    requires |run[i].book.calls| <= c' && c' in run[n].book.ends && run[n].book.ends[c'].Some?
    ensures run[i].book.ends[c].value < run[n].book.ends[c'].value
  {
    PopsRunInv(run, events, i);
    PopsRunInv(run, events, n);
    PopClaimsGrow(run, events, i, n);
    hide Inv;
    hide BookOk;
    EndsInOrder(run[n].book, c');
    LaterClaims(run[i].book, run[n].book, c, c', run[n].book.ends[c'].value);
  }

  // ---------------------------------------------------------------------------------------
  // Every run has its histories
  // ---------------------------------------------------------------------------------------

  ghost predicate IsTrace<V>(run: seq<State<V>>, events: seq<Event<V>>) {
    && |run| == |events| + 1 && Init(run[0])
    && forall i | 0 <= i < |events| :: Step(run[i], events[i], run[i + 1])
  }

  ghost predicate PushesOf<V>(l: seq<Pushes<V>>, run: seq<State<V>>) {
    |l| == |run| && forall i | 0 <= i < |run| :: l[i].s == run[i]
  }

  ghost predicate PopsOf<V>(l: seq<Pops<V>>, run: seq<State<V>>) {
    |l| == |run| && forall i | 0 <= i < |run| :: l[i].s == run[i]
  }

  lemma {:induction false} HavePushes<V>(run: seq<State<V>>, events: seq<Event<V>>) returns (l: seq<Pushes<V>>)
    requires IsTrace(run, events)
    ensures IsPushes(l, events) && PushesOf(l, run)
    decreases |events|
  {
    hide Step;
    hide Noted;
    var n := |events|;
    if n == 0 {
      l := [Pushes(run[0], Book(map[], [], map[], map[], []))];
    } else {
      l := HavePushes(run[..n], events[..n - 1]);
      var t := events[n - 1].tid;
      var x := Pushes(run[n], Noted(l[n - 1].book, t, PushingAt(run[n], t), |run[n].m.sent|));
      assert PushesStep(l[n - 1], events[n - 1], x) by { assert Step(run[n - 1], events[n - 1], run[n]); }
      l := l + [x];
      forall i | 0 <= i < n ensures PushesStep(l[i], events[i], l[i + 1]) {
        assert i < n - 1 ==> PushesStep(l[i], events[..n - 1][i], l[i + 1]);
      }
    }
  }

  lemma {:induction false} HavePops<V>(run: seq<State<V>>, events: seq<Event<V>>) returns (l: seq<Pops<V>>)
    requires IsTrace(run, events)
    ensures IsPops(l, events) && PopsOf(l, run)
    decreases |events|
  {
    hide Step;
    hide Noted;
    hide Displaces;
    var n := |events|;
    if n == 0 {
      l := [Pops(run[0], Book(map[], [], map[], map[], []))];
    } else {
      l := HavePops(run[..n], events[..n - 1]);
      var t := events[n - 1].tid;
      var x := Pops(run[n], if Displaces(run[n - 1], events[n - 1], run[n]) then NotedOther(l[n - 1].book)
                            else Noted(l[n - 1].book, t, PoppingAt(run[n], t), run[n].m.h));
      assert PopsStep(l[n - 1], events[n - 1], x) by { assert Step(run[n - 1], events[n - 1], run[n]); }
      l := l + [x];
      forall i | 0 <= i < n ensures PopsStep(l[i], events[i], l[i + 1]) {
        assert i < n - 1 ==> PopsStep(l[i], events[..n - 1][i], l[i + 1]);
      }
    }
  }
}
