/**
 `ArrayQueue`: a bounded lock-free queue for any capacity, with `push`, `force_push`, `pop`
 and `len`, as interleaved atomic steps of any number of threads. The registers and the
 shared cells hold lap/index words; `pos`, `h`, `t`, `sent` and `size` are history.
 */
module ArrayQueue {
  import opened LapCode

  datatype Pc<V> =
    | Idle
    // push_or_else; `force` tells force_push from push
    | PushLoad(v: V, force: bool)
    | PushTry(v: V, force: bool, word: nat, pos: nat)  // about to load the slot's stamp
    | PushCas(v: V, force: bool, word: nat, pos: nat)  // saw stamp == tail
    | PushFull(v: V, force: bool, word: nat, pos: nat) // saw stamp + one_lap == tail + 1
    | PushOwner(v: V, word: nat, pos: nat)             // moved the tail
    | PushWritten(v: V, word: nat, pos: nat)           // wrote the value
    | ForceHead(v: V, word: nat, pos: nat)             // moved the head, tail still to be stored
    | ForceTail(v: V, word: nat, pos: nat)             // stored the tail
    | ForceSwapped(prev: V, word: nat, pos: nat)        // swapped the value
    | PopLoad
    | PopTry(word: nat, pos: nat)
    | PopCas(word: nat, pos: nat)                      // saw stamp == head + 1
    | PopEmpty(word: nat, pos: nat)                    // saw stamp == head
    | PopOwner(word: nat, pos: nat)                    // moved the head
    | PopRead(v: V, word: nat, pos: nat)               // read the value
    | LenLoad
    | LenTail(word: nat, pos: nat)                     // loaded the tail
    | LenHead(word: nat, pos: nat, hword: nat, hpos: nat, size: int)

  /** The shared memory; `h` and `t` count the moves of head and tail, `sent` the claimed values. */
  datatype Mem<V> = Mem(
    c: Config,
    head: nat,
    tail: nat,
    stamps: seq<nat>,
    vals: seq<V>,
    h: nat,
    t: nat,
    sent: seq<V>)

  datatype State<V> = State(m: Mem<V>, threads: map<nat, Pc<V>>)

  datatype Event<V> =
    | CallPush(tid: nat, v: V, force: bool)
    | LoadTail(tid: nat)
    | LoadPushStamp(tid: nat)
    | CasTail(tid: nat, weak: bool)
    | WriteVal(tid: nat)
    | StampPush(tid: nat)
    | CheckHead(tid: nat)               // push on a full slot: load the head
    | CasForce(tid: nat, weak: bool)    // force_push on a full slot: move the head
    | StoreTail(tid: nat)
    | SwapVal(tid: nat)
    | StampForce(tid: nat)
    | CallPop(tid: nat)
    | LoadHead(tid: nat)
    | LoadPopStamp(tid: nat)
    | CasHead(tid: nat, weak: bool)
    | CheckTail(tid: nat)
    | ReadVal(tid: nat)
    | StampPop(tid: nat)
    | CallLen(tid: nat)
    | LenLoadTail(tid: nat)
    | LenLoadHead(tid: nat)
    | LenReload(tid: nat)

  ghost predicate Init<V>(s: State<V>) {
    var m := s.m;
    && m.c.cap > 0 && m.c == New(m.c.cap)
    && m.head == 0 && m.tail == 0
    && |m.stamps| == m.c.cap && |m.vals| == m.c.cap
    && (forall i | 0 <= i < m.c.cap :: m.stamps[i] == i)
    && (forall u | u in s.threads :: s.threads[u] == Idle)
    && m.h == 0 && m.t == 0 && m.sent == []
  }

  ghost predicate Shape<V>(m: Mem<V>) {
    m.c.Valid() && |m.stamps| == m.c.cap && |m.vals| == m.c.cap
  }

  function AfterPushStamp<V>(c: Config, pc: Pc<V>, stamp: nat): Pc<V>
    requires pc.PushTry?
  {
    if pc.word == stamp then PushCas(pc.v, pc.force, pc.word, pc.pos)
    else if stamp + c.lap == pc.word + 1 then PushFull(pc.v, pc.force, pc.word, pc.pos)
    else PushLoad(pc.v, pc.force)
  }

  function AfterPopStamp<V>(pc: Pc<V>, stamp: nat): Pc<V>
    requires pc.PopTry?
  {
    if pc.word + 1 == stamp then PopCas(pc.word, pc.pos)
    else if stamp == pc.word then PopEmpty(pc.word, pc.pos)
    else PopLoad
  }

  /** The winning CAS of a push: the tail moves past `word`. */
  function ClaimTail<V>(m: Mem<V>, v: V, word: nat): Mem<V>
    requires m.c.Valid()
  {
    m.(tail := Advance(m.c, word), t := m.t + 1, sent := m.sent + [v])
  }

  /** The winning CAS of a force_push: the head moves from `tail - one_lap` to `new_tail - one_lap`. */
  function ClaimForce<V>(m: Mem<V>, v: V, word: nat): Mem<V>
    requires m.c.Valid() && word >= m.c.lap
  {
    m.(head := Advance(m.c, word) - m.c.lap, h := m.h + 1, sent := m.sent + [v])
  }

  /** The winning CAS of a pop. */
  function ClaimHead<V>(m: Mem<V>, word: nat): Mem<V>
    requires m.c.Valid()
  {
    m.(head := Advance(m.c, word), h := m.h + 1)
  }

  function SetStamp<V>(m: Mem<V>, i: nat, stamp: nat): Mem<V>
    requires i < |m.stamps|
  {
    m.(stamps := m.stamps[i := stamp])
  }

  function SetVal<V>(m: Mem<V>, i: nat, v: V): Mem<V>
    requires i < |m.vals|
  {
    m.(vals := m.vals[i := v])
  }

  /** The thread has claimed a position and works on its slot. */
  ghost predicate Owns<V>(pc: Pc<V>) {
    || pc.PushOwner? || pc.PushWritten? || pc.PopOwner? || pc.PopRead?
    || pc.ForceHead? || pc.ForceTail? || pc.ForceSwapped?
  }

  /** The slot access of `get_unchecked` is in bounds. */
  ghost predicate InBounds<V>(m: Mem<V>, word: nat)
    requires m.c.Valid()
  {
    Index(m.c, word) < |m.stamps| == |m.vals|
  }

  /** The memory and the program counter of the stepping thread after event `e`. */
  ghost predicate Effect<V>(m: Mem<V>, pc: Pc<V>, e: Event<V>, m': Mem<V>, pc': Pc<V>)
    requires m.c.Valid()
  {
    match e
    case CallPush(_, v, force) => pc == Idle && m' == m && pc' == PushLoad(v, force)
    case LoadTail(_) => pc.PushLoad? && m' == m && pc' == PushTry(pc.v, pc.force, m.tail, m.t)
    case LoadPushStamp(_) =>
      && pc.PushTry? && InBounds(m, pc.word) && m' == m
      && pc' == AfterPushStamp(m.c, pc, m.stamps[Index(m.c, pc.word)])
    case CasTail(_, weak) =>
      && pc.PushCas?
      && if m.tail == pc.word && !weak
         then m' == ClaimTail(m, pc.v, pc.word) && pc' == PushOwner(pc.v, pc.word, pc.pos)
         else m' == m && pc' == PushTry(pc.v, pc.force, m.tail, m.t)
    case WriteVal(_) =>
      && pc.PushOwner? && InBounds(m, pc.word)
      && m' == SetVal(m, Index(m.c, pc.word), pc.v) && pc' == PushWritten(pc.v, pc.word, pc.pos)
    case StampPush(_) =>
      && pc.PushWritten? && InBounds(m, pc.word)
      && m' == SetStamp(m, Index(m.c, pc.word), pc.word + 1) && pc' == Idle
    case CheckHead(_) =>
      && pc.PushFull? && !pc.force && m' == m
      && pc' == if m.head + m.c.lap == pc.word then Idle else PushLoad(pc.v, pc.force)
    case CasForce(_, weak) =>
      && pc.PushFull? && pc.force
      && if m.head + m.c.lap == pc.word && !weak
         then m' == ClaimForce(m, pc.v, pc.word) && pc' == ForceHead(pc.v, pc.word, pc.pos)
         else m' == m && pc' == PushLoad(pc.v, pc.force)
    case StoreTail(_) =>
      && pc.ForceHead?
      && m' == m.(tail := Advance(m.c, pc.word), t := pc.pos + 1) && pc' == ForceTail(pc.v, pc.word, pc.pos)
    case SwapVal(_) =>
      && pc.ForceTail? && InBounds(m, pc.word)
      && m' == SetVal(m, Index(m.c, pc.word), pc.v)
      && pc' == ForceSwapped(m.vals[Index(m.c, pc.word)], pc.word, pc.pos)
    case StampForce(_) =>
      && pc.ForceSwapped? && InBounds(m, pc.word)
      && m' == SetStamp(m, Index(m.c, pc.word), pc.word + 1) && pc' == Idle
    case CallPop(_) => pc == Idle && m' == m && pc' == PopLoad
    case LoadHead(_) => pc.PopLoad? && m' == m && pc' == PopTry(m.head, m.h)
    case LoadPopStamp(_) =>
      && pc.PopTry? && InBounds(m, pc.word) && m' == m
      && pc' == AfterPopStamp(pc, m.stamps[Index(m.c, pc.word)])
    case CasHead(_, weak) =>
      && pc.PopCas?
      && if m.head == pc.word && !weak
         then m' == ClaimHead(m, pc.word) && pc' == PopOwner(pc.word, pc.pos)
         else m' == m && pc' == PopTry(m.head, m.h)
    case CheckTail(_) =>
      && pc.PopEmpty? && m' == m
      && pc' == if m.tail == pc.word then Idle else PopLoad
    case ReadVal(_) =>
      && pc.PopOwner? && InBounds(m, pc.word) && m' == m
      && pc' == PopRead(m.vals[Index(m.c, pc.word)], pc.word, pc.pos)
    case StampPop(_) =>
      && pc.PopRead? && InBounds(m, pc.word)
      && m' == SetStamp(m, Index(m.c, pc.word), pc.word + m.c.lap) && pc' == Idle
    case CallLen(_) => pc == Idle && m' == m && pc' == LenLoad
    case LenLoadTail(_) => pc.LenLoad? && m' == m && pc' == LenTail(m.tail, m.t)
    case LenLoadHead(_) =>
      pc.LenTail? && m' == m && pc' == LenHead(pc.word, pc.pos, m.head, m.h, m.t - m.h)
    case LenReload(_) =>
      && pc.LenHead? && m' == m
      && pc' == if m.tail == pc.word then Idle else LenLoad
  }

  ghost predicate Step<V>(s: State<V>, e: Event<V>, s': State<V>) {
    && s.m.c.Valid() && e.tid in s.threads && e.tid in s'.threads
    && s'.threads == s.threads[e.tid := s'.threads[e.tid]]
    && Effect(s.m, s.threads[e.tid], e, s'.m, s'.threads[e.tid])
  }

  ghost predicate Next<V(!new)>(s: State<V>, s': State<V>) {
    exists e :: Step(s, e, s')
  }

  ghost predicate IsRun<V(!new)>(run: seq<State<V>>) {
    && |run| > 0 && Init(run[0])
    && forall i | 0 <= i < |run| - 1 :: Next(run[i], run[i + 1])
  }

  // ---------------------------------------------------------------------------------------
  // The invariant
  // ---------------------------------------------------------------------------------------

  /** The slot that the next claim of position `p` will use, for `p` within one lap of the last claim. */
  ghost predicate SlotOk<V>(m: Mem<V>, p: nat)
    requires Shape(m) && |m.sent| <= p < |m.sent| + m.c.cap
  {
    var i := Idx(m.c, p);
    var stamp := m.stamps[i];
    if p < m.c.cap then stamp == p
    else
      var q := p - m.c.cap;
      var word := Enc(m.c, q);
      && (stamp == word + 1 ==> m.vals[i] == m.sent[q])
      && if q >= m.h then
           || stamp == word
           || stamp == word + 1
           || (m.c.cap <= q < m.h + m.c.cap && stamp + m.c.lap == word + 1)
         else
           stamp == word + 1 || stamp == word + m.c.lap
  }

  ghost predicate WordOk<V>(m: Mem<V>, word: nat, pos: nat)
    requires m.c.Valid()
  {
    word == Enc(m.c, pos)
  }

  /** A claimed position is within the last lap of claims, so its slot is not claimed again. */
  ghost predicate OwnOk<V>(m: Mem<V>, word: nat, pos: nat)
    requires m.c.Valid()
  {
    word == Enc(m.c, pos) && pos < |m.sent| <= pos + m.c.cap
  }

  ghost predicate PcOk<V>(m: Mem<V>, pc: Pc<V>)
    requires Shape(m)
  {
    match pc
    case PushTry(_, _, w, p) => WordOk(m, w, p) && p <= m.t
    case PushCas(_, _, w, p) => WordOk(m, w, p) && p <= m.t && w <= m.stamps[Idx(m.c, p)]
    case PushFull(_, _, w, p) =>
      WordOk(m, w, p) && m.c.cap <= p <= m.t && w + 1 <= m.stamps[Idx(m.c, p)] + m.c.lap
    case PushOwner(v, w, p) => OwnOk(m, w, p) && p < m.t && m.sent[p] == v && m.stamps[Idx(m.c, p)] == w
    case PushWritten(v, w, p) =>
      && OwnOk(m, w, p) && p < m.t && m.sent[p] == v && m.stamps[Idx(m.c, p)] == w
      && m.vals[Idx(m.c, p)] == v
    case ForceHead(v, w, p) =>
      && OwnOk(m, w, p) && p == m.t && |m.sent| == p + 1 && m.sent[p] == v && ForceOk(m, p)
      && m.vals[Idx(m.c, p)] == m.sent[p - m.c.cap]
    case ForceTail(v, w, p) =>
      && OwnOk(m, w, p) && p < m.t && m.sent[p] == v && ForceOk(m, p)
      && m.vals[Idx(m.c, p)] == m.sent[p - m.c.cap]
    case ForceSwapped(prev, w, p) =>
      && OwnOk(m, w, p) && p < m.t && ForceOk(m, p) && prev == m.sent[p - m.c.cap]
      && m.vals[Idx(m.c, p)] == m.sent[p]
    case PopTry(w, p) => WordOk(m, w, p) && p <= m.h
    case PopCas(w, p) => WordOk(m, w, p) && p <= m.h && w < m.stamps[Idx(m.c, p)]
    case PopEmpty(w, p) => WordOk(m, w, p) && p <= m.h
    case PopOwner(w, p) =>
      && OwnOk(m, w, p) && p < m.h && m.stamps[Idx(m.c, p)] == w + 1
      && m.vals[Idx(m.c, p)] == m.sent[p]
    case PopRead(v, w, p) =>
      OwnOk(m, w, p) && p < m.h && m.stamps[Idx(m.c, p)] == w + 1 && v == m.sent[p]
    case LenTail(w, p) => WordOk(m, w, p) && p <= m.t
    case LenHead(w, p, hw, hp, size) =>
      && WordOk(m, w, p) && p <= m.t && WordOk(m, hw, hp)
      && (p == m.t ==> size == p - hp && hp <= p <= hp + m.c.cap)
    case _ => true
  }

  /** A displacing push at `p` still sees the stamp of the position it displaces. */
  ghost predicate ForceOk<V>(m: Mem<V>, p: nat)
    requires Shape(m)
  {
    && m.c.cap <= p < m.h + m.c.cap && p < |m.sent|
    && m.stamps[Idx(m.c, p)] + m.c.lap == Enc(m.c, p) + 1
  }

  ghost predicate Pending<V>(s: State<V>) {
    exists u :: u in s.threads && s.threads[u].ForceHead?
  }

  ghost predicate MemOk<V>(m: Mem<V>) {
    && Shape(m)
    && m.head == Enc(m.c, m.h) && m.tail == Enc(m.c, m.t)
    && m.h <= m.t <= m.h + m.c.cap && m.t <= |m.sent| <= m.h + m.c.cap
    && (forall p: nat | |m.sent| <= p < |m.sent| + m.c.cap :: SlotOk(m, p))
  }

  ghost predicate Inv<V>(s: State<V>) {
    && MemOk(s.m)
    && |s.m.sent| == (if Pending(s) then s.m.t + 1 else s.m.t)
    && (forall u | u in s.threads :: PcOk(s.m, s.threads[u]))
    && (forall u, v | u in s.threads && v in s.threads && u != v && Owns(s.threads[u]) && Owns(s.threads[v]) ::
          Idx(s.m.c, s.threads[u].pos) != Idx(s.m.c, s.threads[v].pos))
  }

  lemma InitInv<V>(s: State<V>)
    requires Init(s)
    ensures Inv(s)
  {
    forall p: nat | |s.m.sent| <= p < |s.m.sent| + s.m.c.cap ensures SlotOk(s.m, p) {
    }
  }

  lemma LocalInv<V>(s: State<V>, u: nat, s': State<V>)
    requires Inv(s) && u in s.threads && u in s'.threads
    requires s' == State(s.m, s.threads[u := s'.threads[u]]) && PcOk(s.m, s'.threads[u])
    requires var pc, pc' := s.threads[u], s'.threads[u];
             (!Owns(pc) && !Owns(pc')) || (pc'.PopRead? && pc == PopOwner(pc'.word, pc'.pos))
    ensures Inv(s')
  {
    PendingSame(s, u, s');
  }

  lemma PendingSame<V>(s: State<V>, u: nat, s': State<V>)
    requires u in s.threads && u in s'.threads && s'.threads == s.threads[u := s'.threads[u]]
    requires s.threads[u].ForceHead? == s'.threads[u].ForceHead?
    ensures Pending(s) == Pending(s')
  {
    if Pending(s) {
      var v :| v in s.threads && s.threads[v].ForceHead?;
      assert v in s'.threads && s'.threads[v].ForceHead?;
    }
    if Pending(s') {
      var v :| v in s'.threads && s'.threads[v].ForceHead?;
      assert v in s.threads && s.threads[v].ForceHead?;
    }
  }

  /** The invariant after a step of `u`, from what the step does to memory and to each thread. */
  lemma Assemble<V>(s: State<V>, u: nat, s': State<V>)
    requires Inv(s) && u in s.threads && u in s'.threads && s'.threads == s.threads[u := s'.threads[u]]
    requires s'.m.c == s.m.c && MemOk(s'.m) && PcOk(s'.m, s'.threads[u])
    requires forall x | x in s.threads && x != u :: OtherOk(s'.m, s.threads[x], s'.threads[u])
    requires |s'.m.sent| == (if Pending(s') then s'.m.t + 1 else s'.m.t)
    ensures Inv(s')
  {
  }

  /** Another thread's facts hold in `m`, and its slot is not the one `mine` works on. */
  ghost predicate OtherOk<V>(m: Mem<V>, pc: Pc<V>, mine: Pc<V>)
    requires Shape(m)
  {
    PcOk(m, pc) && (Owns(pc) && Owns(mine) ==> Idx(m.c, pc.pos) != Idx(m.c, mine.pos))
  }

  // ---------------------------------------------------------------------------------------
  // Claims: the winning compare-and-swaps
  // ---------------------------------------------------------------------------------------

  /** A claimed position whose slot has stamp `stamp`: which of the three kinds of owner it is. */
  lemma OwnerStamp<V>(m: Mem<V>, pc: Pc<V>)
    requires Shape(m) && PcOk(m, pc) && Owns(pc)
    ensures var stamp := m.stamps[Idx(m.c, pc.pos)];
            || (stamp == Enc(m.c, pc.pos) && pc.pos < m.t)
            || (stamp == Enc(m.c, pc.pos) + 1 && pc.pos < m.h)
            || (m.c.cap <= pc.pos < m.h + m.c.cap && stamp + m.c.lap == Enc(m.c, pc.pos) + 1)
  {
  }

  lemma FreeSlot<V>(m: Mem<V>, pos: nat)
    requires MemOk(m) && pos == m.t && Enc(m.c, pos) <= m.stamps[Idx(m.c, pos)] && |m.sent| == m.t
    ensures m.stamps[Idx(m.c, pos)] == Enc(m.c, pos) && m.t < m.h + m.c.cap
  {
    assert SlotOk(m, m.t);
    assert m.t >= m.c.cap ==> Enc(m.c, m.t) == Enc(m.c, m.t - m.c.cap) + m.c.lap;
  }

  lemma ClaimTailMem<V>(m: Mem<V>, v: V)
    requires MemOk(m) && |m.sent| == m.t < m.h + m.c.cap && m.stamps[Idx(m.c, m.t)] == Enc(m.c, m.t)
    ensures MemOk(ClaimTail(m, v, m.tail))
  {
    var m' := ClaimTail(m, v, m.tail);
    AdvanceEnc(m.c, m.t);
    forall p: nat | |m'.sent| <= p < |m'.sent| + m.c.cap ensures SlotOk(m', p) {
      if p < m.t + m.c.cap {
        assert SlotOk(m, p);
      } else {
        assert Idx(m.c, p) == Idx(m.c, m.t);
      }
    }
  }

  lemma ClaimTailPc<V>(m: Mem<V>, v: V, pc: Pc<V>)
    requires MemOk(m) && |m.sent| == m.t && PcOk(m, pc) && !pc.ForceHead?
    requires m.stamps[Idx(m.c, m.t)] == Enc(m.c, m.t)
    ensures PcOk(ClaimTail(m, v, m.tail), pc)
    ensures Owns(pc) ==> Idx(m.c, pc.pos) != Idx(m.c, m.t)
  {
    if Owns(pc) {
      OwnerStamp(m, pc);
      StampsDistinct(m.c, pc.pos, m.t);
      if pc.pos >= m.c.cap { StampsDistinct(m.c, pc.pos - m.c.cap, m.t); }
      assert Idx(m.c, pc.pos) == Idx(m.c, pc.pos + m.c.cap);
    }
  }

  lemma NotPending<V>(s: State<V>, pos: nat)
    requires Inv(s) && pos == s.m.t && Enc(s.m.c, pos) <= s.m.stamps[Idx(s.m.c, pos)]
    ensures !Pending(s)
  {
    forall u | u in s.threads ensures !s.threads[u].ForceHead? {
      assert PcOk(s.m, s.threads[u]);
    }
  }

  lemma ClaimTailInv<V>(s: State<V>, u: nat, s': State<V>)
    requires Inv(s) && Step(s, CasTail(u, false), s') && s.m.tail == s.threads[u].word
    ensures Inv(s')
  {
    hide SlotOk;
    hide Enc;
    hide Idx;
    var m, pc := s.m, s.threads[u];
    assert PcOk(m, pc);
    StampsDistinct(m.c, pc.pos, m.t);
    NotPending(s, m.t);
    FreeSlot(m, m.t);
    ClaimTailMem(m, pc.v);
    forall x | x in s.threads && x != u ensures OtherOk(s'.m, s.threads[x], s'.threads[u]) {
      assert !s.threads[x].ForceHead?;
      ClaimTailPc(m, pc.v, s.threads[x]);
    }
    PendingSame(s, u, s');
    Assemble(s, u, s');
  }

  /** A full queue at the moment the head is one lap behind: the oldest value is there to displace. */
  lemma FullSlot<V>(m: Mem<V>, pos: nat)
    requires MemOk(m) && m.c.cap <= pos <= m.t && m.head + m.c.lap == Enc(m.c, pos)
    requires Enc(m.c, pos) + 1 <= m.stamps[Idx(m.c, pos)] + m.c.lap
    ensures pos == m.t == |m.sent| == m.h + m.c.cap
    ensures m.stamps[Idx(m.c, pos)] == m.head + 1 && m.vals[Idx(m.c, pos)] == m.sent[m.h]
  {
    assert Enc(m.c, m.h + m.c.cap) == m.head + m.c.lap;
    StampsDistinct(m.c, pos, m.h + m.c.cap);
    assert SlotOk(m, pos);
  }

  lemma ClaimForceMem<V>(m: Mem<V>, v: V)
    requires MemOk(m) && m.t == |m.sent| == m.h + m.c.cap && m.stamps[Idx(m.c, m.t)] == m.head + 1
    ensures m.tail >= m.c.lap && MemOk(ClaimForce(m, v, m.tail))
  {
    assert m.tail == Enc(m.c, m.h) + m.c.lap;
    var m' := ClaimForce(m, v, m.tail);
    AdvanceEnc(m.c, m.t);
    assert Enc(m.c, m.t + 1) == Enc(m.c, m.h + 1) + m.c.lap;
    EncMonotone(m.c, m.h, m.t);
    forall p: nat | |m'.sent| <= p < |m'.sent| + m.c.cap ensures SlotOk(m', p) {
      if p < m.t + m.c.cap {
        assert SlotOk(m, p);
      } else {
        assert Idx(m.c, p) == Idx(m.c, m.t);
      }
    }
  }

  lemma ClaimForcePc<V>(m: Mem<V>, v: V, pc: Pc<V>)
    requires MemOk(m) && m.t == |m.sent| == m.h + m.c.cap && m.tail >= m.c.lap && PcOk(m, pc) && !pc.ForceHead?
    requires m.stamps[Idx(m.c, m.t)] == m.head + 1
    ensures PcOk(ClaimForce(m, v, m.tail), pc)
    ensures Owns(pc) ==> Idx(m.c, pc.pos) != Idx(m.c, m.t)
  {
    if Owns(pc) {
      OwnerStamp(m, pc);
      assert Idx(m.c, m.t) == Idx(m.c, m.h);
      StampsDistinct(m.c, m.h, pc.pos);
      if pc.pos >= m.c.cap { StampsDistinct(m.c, pc.pos - m.c.cap, m.h); }
    }
  }

  lemma ClaimForceInv<V>(s: State<V>, u: nat, s': State<V>)
    requires Inv(s) && Step(s, CasForce(u, false), s') && s.m.head + s.m.c.lap == s.threads[u].word
    ensures Inv(s')
  {
    hide SlotOk;
    hide Enc;
    hide Idx;
    var m, pc := s.m, s.threads[u];
    assert PcOk(m, pc);
    FullSlot(m, pc.pos);
    ClaimForceMem(m, pc.v);
    forall x | x in s.threads && x != u ensures OtherOk(s'.m, s.threads[x], s'.threads[u]) {
      assert !s.threads[x].ForceHead?;
      ClaimForcePc(m, pc.v, s.threads[x]);
    }
    assert s'.threads[u].ForceHead?;
    Assemble(s, u, s');
  }

  /** What a pop sees when its stamp test and its CAS both succeed: the oldest value, published. */
  lemma OldestSlot<V>(s: State<V>, pos: nat)
    requires Inv(s) && pos == s.m.h && Enc(s.m.c, pos) < s.m.stamps[Idx(s.m.c, pos)]
    ensures pos < s.m.t && s.m.stamps[Idx(s.m.c, pos)] == Enc(s.m.c, pos) + 1
    ensures s.m.vals[Idx(s.m.c, pos)] == s.m.sent[pos]
  {
    var m := s.m;
    assert SlotOk(m, if m.h == |m.sent| then m.h else m.h + m.c.cap);
    if m.h == m.t { NotPending(s, pos); }
  }

  lemma ClaimHeadMem<V>(m: Mem<V>)
    requires MemOk(m) && m.h < m.t && m.stamps[Idx(m.c, m.h)] == m.head + 1
    ensures MemOk(ClaimHead(m, m.head))
  {
    var m' := ClaimHead(m, m.head);
    AdvanceEnc(m.c, m.h);
    forall p: nat | |m'.sent| <= p < |m'.sent| + m.c.cap ensures SlotOk(m', p) {
      assert SlotOk(m, p);
    }
  }

  lemma ClaimHeadPc<V>(m: Mem<V>, pc: Pc<V>)
    requires MemOk(m) && m.h < m.t && m.stamps[Idx(m.c, m.h)] == m.head + 1 && PcOk(m, pc)
    ensures PcOk(ClaimHead(m, m.head), pc)
    ensures Owns(pc) ==> Idx(m.c, pc.pos) != Idx(m.c, m.h)
  {
    if Owns(pc) {
      OwnerStamp(m, pc);
      StampsDistinct(m.c, m.h, pc.pos);
      if pc.pos >= m.c.cap { StampsDistinct(m.c, pc.pos - m.c.cap, m.h); }
    }
  }

  lemma ClaimHeadInv<V>(s: State<V>, u: nat, s': State<V>)
    requires Inv(s) && u in s.threads && s.threads[u].PopCas? && s.m.head == s.threads[u].word
    requires s' == State(ClaimHead(s.m, s.m.head), s.threads[u := PopOwner(s.m.head, s.threads[u].pos)])
    ensures Inv(s')
  {
    hide SlotOk;
    hide Enc;
    hide Idx;
    var m, pc := s.m, s.threads[u];
    assert PcOk(m, pc);
    StampsDistinct(m.c, pc.pos, m.h);
    OldestSlot(s, m.h);
    ClaimHeadMem(m);
    forall x | x in s.threads && x != u ensures OtherOk(s'.m, s.threads[x], s'.threads[u]) {
      ClaimHeadPc(m, s.threads[x]);
    }
    PendingSame(s, u, s');
    Assemble(s, u, s');
  }

  // ---------------------------------------------------------------------------------------
  // Work on a claimed slot
  // ---------------------------------------------------------------------------------------

  /** Values written into a claimed slot are not visible to anyone else. */
  lemma SetValMem<V>(m: Mem<V>, pc: Pc<V>, v: V)
    requires MemOk(m) && PcOk(m, pc) && (pc.PushOwner? || pc.ForceTail?)
    ensures MemOk(SetVal(m, Idx(m.c, pc.pos), v))
  {
    var m' := SetVal(m, Idx(m.c, pc.pos), v);
    forall p: nat | |m'.sent| <= p < |m'.sent| + m.c.cap ensures SlotOk(m', p) {
      assert SlotOk(m, p);
      IdxPeriod(m.c, pc.pos, p);
    }
  }

  lemma SetValInv<V>(s: State<V>, u: nat, s': State<V>)
    requires Inv(s) && u in s.threads && (s.threads[u].PushOwner? || s.threads[u].ForceTail?)
    requires var m, pc := s.m, s.threads[u];
             var i := Idx(m.c, pc.pos);
             s' == State(SetVal(m, i, pc.v), s.threads[u := if pc.PushOwner? then PushWritten(pc.v, pc.word, pc.pos)
                                                            else ForceSwapped(m.vals[i], pc.word, pc.pos)])
    ensures Inv(s')
  {
    hide SlotOk;
    hide Enc;
    hide Idx;
    var m, pc := s.m, s.threads[u];
    assert PcOk(m, pc);
    SetValMem(m, pc, pc.v);
    forall x | x in s.threads && x != u ensures OtherOk(s'.m, s.threads[x], s'.threads[u]) {
      SetValPc(m, s.threads[x], Idx(m.c, pc.pos), pc.v);
    }
    PendingSame(s, u, s');
    Assemble(s, u, s');
  }

  lemma SetValPc<V>(m: Mem<V>, pc: Pc<V>, i: nat, v: V)
    requires Shape(m) && PcOk(m, pc) && i < m.c.cap && (Owns(pc) ==> Idx(m.c, pc.pos) != i)
    ensures PcOk(SetVal(m, i, v), pc)
  {
  }

  /** The stamp a thread stores when it is done with its slot. */
  ghost function DoneStamp<V>(m: Mem<V>, pc: Pc<V>): nat
    requires pc.PushWritten? || pc.ForceSwapped? || pc.PopRead?
  {
    if pc.PopRead? then pc.word + m.c.lap else pc.word + 1
  }

  lemma SetStampSlot<V>(m: Mem<V>, pc: Pc<V>, p: nat)
    requires MemOk(m) && PcOk(m, pc) && (pc.PushWritten? || pc.ForceSwapped? || pc.PopRead?)
    requires |m.sent| <= p < |m.sent| + m.c.cap
    ensures SlotOk(SetStamp(m, Idx(m.c, pc.pos), DoneStamp(m, pc)), p)
  {
    assert SlotOk(m, p);
    IdxPeriod(m.c, pc.pos, p);
  }

  lemma SetStampMem<V>(m: Mem<V>, pc: Pc<V>)
    requires MemOk(m) && PcOk(m, pc) && (pc.PushWritten? || pc.ForceSwapped? || pc.PopRead?)
    ensures MemOk(SetStamp(m, Idx(m.c, pc.pos), DoneStamp(m, pc)))
  {
    forall p: nat | |m.sent| <= p < |m.sent| + m.c.cap
      ensures SlotOk(SetStamp(m, Idx(m.c, pc.pos), DoneStamp(m, pc)), p)
    {
      SetStampSlot(m, pc, p);
    }
  }

  lemma SetStampPc<V>(m: Mem<V>, pc: Pc<V>, i: nat, stamp: nat)
    requires Shape(m) && PcOk(m, pc) && i < m.c.cap && (Owns(pc) ==> Idx(m.c, pc.pos) != i)
    requires m.stamps[i] <= stamp
    ensures PcOk(SetStamp(m, i, stamp), pc)
  {
  }

  lemma SetStampInv<V>(s: State<V>, u: nat, s': State<V>)
    requires Inv(s) && u in s.threads
    requires s.threads[u].PushWritten? || s.threads[u].ForceSwapped? || s.threads[u].PopRead?
    requires var pc := s.threads[u];
             s' == State(SetStamp(s.m, Idx(s.m.c, pc.pos), DoneStamp(s.m, pc)), s.threads[u := Idle])
    ensures Inv(s')
  {
    hide SlotOk;
    hide Enc;
    hide Idx;
    var m, pc := s.m, s.threads[u];
    assert PcOk(m, pc);
    SetStampMem(m, pc);
    forall x | x in s.threads && x != u ensures OtherOk(s'.m, s.threads[x], s'.threads[u]) {
      SetStampPc(m, s.threads[x], Idx(m.c, pc.pos), DoneStamp(m, pc));
    }
    PendingSame(s, u, s');
    Assemble(s, u, s');
  }

  lemma StoreTailPc<V>(m: Mem<V>, pc: Pc<V>)
    requires MemOk(m) && PcOk(m, pc) && !pc.ForceHead? && |m.sent| == m.t + 1
    ensures PcOk(m.(tail := Advance(m.c, m.tail), t := m.t + 1), pc)
  {
  }

  lemma StoreTailMem<V>(m: Mem<V>)
    requires MemOk(m) && |m.sent| == m.t + 1
    ensures MemOk(m.(tail := Advance(m.c, m.tail), t := m.t + 1))
  {
    AdvanceEnc(m.c, m.t);
    var m' := m.(tail := Advance(m.c, m.tail), t := m.t + 1);
    forall p: nat | |m.sent| <= p < |m.sent| + m.c.cap ensures SlotOk(m', p) {
      assert SlotOk(m, p);
    }
  }

  lemma StoreTailInv<V>(s: State<V>, u: nat, s': State<V>)
    requires Inv(s) && u in s.threads && s.threads[u].ForceHead?
    requires var m, pc := s.m, s.threads[u];
             s' == State(m.(tail := Advance(m.c, pc.word), t := pc.pos + 1),
                         s.threads[u := ForceTail(pc.v, pc.word, pc.pos)])
    ensures Inv(s')
  {
    hide SlotOk;
    hide Enc;
    hide Idx;
    var m := s.m;
    assert PcOk(m, s.threads[u]);
    StoreTailMem(m);
    forall x | x in s.threads && x != u ensures OtherOk(s'.m, s.threads[x], s'.threads[u]) && !s.threads[x].ForceHead? {
      assert PcOk(m, s.threads[x]);
      StoreTailPc(m, s.threads[x]);
    }
    Assemble(s, u, s');
  }

  lemma CasInv<V>(s: State<V>, e: Event<V>, s': State<V>)
    requires Inv(s) && Step(s, e, s') && (e.CasTail? || e.CasForce? || e.CasHead?)
    ensures Inv(s')
  {
    hide SlotOk;
    hide Enc;
    hide Idx;
    var m, pc := s.m, s.threads[e.tid];
    assert PcOk(m, pc);
    if s'.m == m {
      LocalInv(s, e.tid, s');
    } else {
      match e
      case CasTail(u, weak) => ClaimTailInv(s, u, s');
      case CasForce(u, weak) => ClaimForceInv(s, u, s');
      case CasHead(u, weak) => ClaimHeadInv(s, u, s');
    }
  }

  lemma SlotWorkInv<V>(s: State<V>, e: Event<V>, s': State<V>)
    requires Inv(s) && Step(s, e, s')
    requires e.WriteVal? || e.SwapVal? || e.StampPush? || e.StampForce? || e.StampPop?
    ensures Inv(s')
  {
    hide SlotOk;
    hide Enc;
    hide Idx;
    var u := e.tid;
    assert PcOk(s.m, s.threads[u]);
    IndexOfEnc(s.m.c, s.threads[u].pos);
    if e.WriteVal? || e.SwapVal? { SetValInv(s, u, s'); } else { SetStampInv(s, u, s'); }
  }

  lemma StepInv<V>(s: State<V>, e: Event<V>, s': State<V>)
    requires Inv(s) && Step(s, e, s')
    ensures Inv(s')
  {
    hide SlotOk;
    hide Enc;
    hide Idx;
    if e.CasTail? || e.CasForce? || e.CasHead? {
      CasInv(s, e, s');
    } else if e.WriteVal? || e.SwapVal? || e.StampPush? || e.StampForce? || e.StampPop? {
      SlotWorkInv(s, e, s');
    } else if e.StoreTail? {
      StoreTailInv(s, e.tid, s');
    } else {
      if e.LoadPushStamp? {
        PushStampPcOk(s.m, s.threads[e.tid], e.tid, s'.m, s'.threads[e.tid]);
      } else if e.LoadPopStamp? || e.ReadVal? {
        PopLocalPcOk(s.m, s.threads[e.tid], e, s'.m, s'.threads[e.tid]);
      } else {
        OtherLocalPcOk(s.m, s.threads[e.tid], e, s'.m, s'.threads[e.tid]);
      }
      LocalInv(s, e.tid, s');
    }
  }

  /** What a push concludes from the stamp it loads is true of the memory at that moment. */
  lemma PushStampPcOk<V>(m: Mem<V>, pc: Pc<V>, u: nat, m': Mem<V>, pc': Pc<V>)
    requires MemOk(m) && PcOk(m, pc) && Effect(m, pc, LoadPushStamp(u), m', pc')
    ensures m' == m && PcOk(m, pc') && !Owns(pc) && !Owns(pc')
  {
    hide SlotOk;
    IndexOfEnc(m.c, pc.pos);
  }

  /** A step that writes no shared cell leaves the thread with true knowledge. */
  lemma PopLocalPcOk<V>(m: Mem<V>, pc: Pc<V>, e: Event<V>, m': Mem<V>, pc': Pc<V>)
    requires MemOk(m) && PcOk(m, pc) && Effect(m, pc, e, m', pc') && (e.LoadPopStamp? || e.ReadVal?)
    ensures m' == m && PcOk(m, pc')
    ensures (!Owns(pc) && !Owns(pc')) || (pc'.PopRead? && pc == PopOwner(pc'.word, pc'.pos))
  {
    hide SlotOk;
    hide Enc;
    hide Idx;
    IndexOfEnc(m.c, pc.pos);
  }

  lemma OtherLocalPcOk<V>(m: Mem<V>, pc: Pc<V>, e: Event<V>, m': Mem<V>, pc': Pc<V>)
    requires MemOk(m) && PcOk(m, pc) && Effect(m, pc, e, m', pc')
    requires e.CallPush? || e.LoadTail? || e.CheckHead? || e.CallPop? || e.LoadHead? || e.CheckTail? ||
             e.CallLen? || e.LenLoadTail? || e.LenLoadHead? || e.LenReload?
    ensures m' == m && PcOk(m, pc') && !Owns(pc) && !Owns(pc')
  {
    hide SlotOk;
    hide Enc;
    hide Idx;
  }

  lemma {:induction false} RunInv<V(!new)>(run: seq<State<V>>, i: nat)
    requires IsRun(run) && i < |run|
    ensures Inv(run[i])
  {
    hide Inv;
    hide Effect;
    if i == 0 {
      InitInv(run[0]);
    } else {
      RunInv(run, i - 1);
      assert Next(run[i - 1], run[i - 1 + 1]);
      var e :| Step(run[i - 1], e, run[i]);
      StepInv(run[i - 1], e, run[i]);
    }
  }

  // ---------------------------------------------------------------------------------------
  // What the queue promises
  // ---------------------------------------------------------------------------------------

  /** The queue the words describe: claimed values between head and tail. */
  ghost function Contents<V>(m: Mem<V>): (q: seq<V>)
    requires MemOk(m)
    ensures |q| == m.t - m.h <= m.c.cap
  {
    m.sent[m.h..m.t]
  }

  /** The winning CAS of a push appends its value, and only to a queue that is not full. */
  lemma PushAppends<V>(s: State<V>, u: nat, s': State<V>)
    requires Inv(s) && Step(s, CasTail(u, false), s') && s.m.tail == s.threads[u].word
    ensures Inv(s') && |Contents(s.m)| < s.m.c.cap
    ensures Contents(s'.m) == Contents(s.m) + [s.threads[u].v]
  {
    hide SlotOk;
    hide Enc;
    hide Idx;
    var m, pc := s.m, s.threads[u];
    assert PcOk(m, pc);
    StampsDistinct(m.c, pc.pos, m.t);
    NotPending(s, m.t);
    FreeSlot(m, m.t);
    ClaimTailInv(s, u, s');
  }

  /** The winning CAS of a pop removes the oldest value, which is the value it will return. */
  lemma PopRemovesOldest<V>(s: State<V>, u: nat, s': State<V>)
    requires Inv(s) && Step(s, CasHead(u, false), s') && s.m.head == s.threads[u].word
    ensures Inv(s') && |Contents(s.m)| > 0
    ensures Contents(s'.m) == Contents(s.m)[1..]
    ensures s'.threads[u] == PopOwner(s.m.head, s.m.h) && s'.m.sent[s.m.h] == Contents(s.m)[0]
  {
    hide SlotOk;
    hide Enc;
    hide Idx;
    var m, pc := s.m, s.threads[u];
    assert PcOk(m, pc);
    StampsDistinct(m.c, pc.pos, m.h);
    OldestSlot(s, m.h);
    ClaimHeadInv(s, u, s');
    assert Contents(s'.m) == m.sent[m.h + 1..m.t];
  }

  /**
   The winning CAS of a force_push happens on a full queue and removes the oldest value, and
   its position is one lap ahead of the value it removes.
   */
  lemma ForceDisplacesOldest<V>(s: State<V>, u: nat, s': State<V>)
    requires Inv(s) && Step(s, CasForce(u, false), s') && s.m.head + s.m.c.lap == s.threads[u].word
    ensures Inv(s') && |Contents(s.m)| == s.m.c.cap
    ensures Contents(s'.m) == Contents(s.m)[1..]
    ensures s'.threads[u] == ForceHead(s.threads[u].v, s.m.tail, s.m.h + s.m.c.cap)
    ensures s'.m.sent[s.m.h] == Contents(s.m)[0]
  {
    hide SlotOk;
    hide Enc;
    hide Idx;
    var m, pc := s.m, s.threads[u];
    assert PcOk(m, pc);
    FullSlot(m, pc.pos);
    ClaimForceInv(s, u, s');
  }

  /** Storing the tail appends the value of the force_push. */
  lemma ForceAppends<V>(s: State<V>, u: nat, s': State<V>)
    requires Inv(s) && Step(s, StoreTail(u), s')
    ensures Inv(s') && |Contents(s.m)| < s.m.c.cap
    ensures Contents(s'.m) == Contents(s.m) + [s.threads[u].v]
  {
    hide SlotOk;
    hide Enc;
    hide Idx;
    assert PcOk(s.m, s.threads[u]);
    StoreTailInv(s, u, s');
  }

  /** No other step of any thread changes the queue. */
  lemma OtherStepsKeep<V>(s: State<V>, e: Event<V>, s': State<V>)
    requires Inv(s) && Step(s, e, s') && !e.StoreTail?
    requires e.CasTail? || e.CasForce? || e.CasHead? ==> s'.m == s.m
    ensures Inv(s') && Contents(s'.m) == Contents(s.m)
  {
    hide SlotOk;
    hide Enc;
    hide Idx;
    StepInv(s, e, s');
  }

  /**
   In every run: a pop that has read its value holds the value pushed at its position, a
   force_push that has swapped holds the value it displaced, and no two threads are at work
   on one slot.
   */
  lemma ValuesLeaveIntact<V(!new)>(run: seq<State<V>>, i: nat)
    requires IsRun(run) && i < |run|
    ensures var s := run[i];
            forall u | u in s.threads ::
              var pc := s.threads[u];
              && (pc.PopRead? ==> pc.pos < s.m.h && pc.pos < |s.m.sent| && pc.v == s.m.sent[pc.pos])
              && (pc.ForceSwapped? ==>
                    && s.m.c.cap <= pc.pos < s.m.h + s.m.c.cap && pc.pos < |s.m.sent|
                    && pc.prev == s.m.sent[pc.pos - s.m.c.cap])
    ensures var s := run[i];
            s.m.c.Valid() &&
            forall u, v | u in s.threads && v in s.threads && u != v && Owns(s.threads[u]) && Owns(s.threads[v]) ::
              Index(s.m.c, s.threads[u].word) != Index(s.m.c, s.threads[v].word)
  {
    RunInv(run, i);
    var s := run[i];
    forall u | u in s.threads && Owns(s.threads[u])
      ensures Index(s.m.c, s.threads[u].word) == Idx(s.m.c, s.threads[u].pos)
    {
      assert PcOk(s.m, s.threads[u]);
      IndexOfEnc(s.m.c, s.threads[u].pos);
    }
  }

  /** The unchecked slot accesses are in bounds, for every capacity. */
  lemma SlotAccessInBounds<V(!new)>(run: seq<State<V>>, i: nat, u: nat)
    requires IsRun(run) && i < |run| && u in run[i].threads
    ensures var pc := run[i].threads[u];
            run[i].m.c.Valid() && (pc.PushTry? || pc.PopTry? || Owns(pc) ==> InBounds(run[i].m, pc.word))
  {
    RunInv(run, i);
    var pc := run[i].threads[u];
    assert PcOk(run[i].m, pc);
    if pc.PushTry? || pc.PopTry? || Owns(pc) { IndexOfEnc(run[i].m.c, pc.pos); }
  }

  /** `push` gives its value back exactly when the queue is full as it loads the head. */
  lemma PushFullIff<V>(s: State<V>, u: nat, s': State<V>)
    requires Inv(s) && Step(s, CheckHead(u), s')
    ensures s'.threads[u] == Idle <==> |Contents(s.m)| == s.m.c.cap && s.m.t == s.threads[u].pos
  {
    var m, pc := s.m, s.threads[u];
    assert PcOk(m, pc);
    assert Enc(m.c, m.h + m.c.cap) == m.head + m.c.lap;
    StampsDistinct(m.c, pc.pos, m.h + m.c.cap);
  }

  /** `pop` answers None exactly when the queue is empty as it loads the tail. */
  lemma PopEmptyIff<V>(s: State<V>, u: nat, s': State<V>)
    requires Inv(s) && Step(s, CheckTail(u), s')
    ensures s'.threads[u] == Idle <==> Contents(s.m) == [] && s.m.h == s.threads[u].pos
  {
    var m, pc := s.m, s.threads[u];
    assert PcOk(m, pc);
    StampsDistinct(m.c, pc.pos, m.t);
  }

  /** What `len` returns is the number of values in the queue at the moment it loaded the head. */
  lemma LenIsExact<V>(s: State<V>, u: nat, s': State<V>)
    requires Inv(s) && Step(s, LenReload(u), s') && s'.threads[u] == Idle
    ensures var pc := s.threads[u];
            Len(s.m.c, pc.hword, pc.word) == pc.size && 0 <= pc.size <= s.m.c.cap
  {
    var m, pc := s.m, s.threads[u];
    assert PcOk(m, pc);
    StampsDistinct(m.c, pc.pos, m.t);
    LenIsDistance(m.c, pc.hpos, pc.pos);
  }
}
