/**
 The reader/writer lock that keeps slab reclaim apart from allocation: one 32-bit word,
 changed by fetch_add, fetch_sub, fetch_or and fetch_xor of any number of threads.
 */
module RwLock {
  import opened Counting

  const READER: nat := 2
  const WRITER: nat := 1
  const MAX_LOCK_VALUE: nat := 0x7fff_ffff

  /** One more than the largest value of the lock word; fetch_add and fetch_sub wrap around it. */
  const WORD: nat := 0x1_0000_0000

  /** Below this many threads the word cannot wrap. */
  const MAX_THREADS: nat := 0x8000_0000

  datatype Pc =
    | Idle
    | Reading   // try_read_lock returned true, read_unlock not yet called
    | BackOff   // added itself to the word, was refused, about to subtract itself again
    | Spinning  // set the writer bit, waits for the readers to leave
    | Writing   // single_write_lock returned true, write_unlock not yet called

  datatype State = State(word: nat, threads: map<nat, Pc>)

  datatype Event =
    | ReadEnter(t: nat)
    | ReadRetreat(t: nat)
    | ReadUnlock(t: nat)
    | WriteEnter(t: nat)
    | WritePoll(t: nat)
    | WriteUnlock(t: nat)

  function Add(word: nat, n: nat): nat {
    (word + n) % WORD
  }

  function Sub(word: nat, n: nat): nat {
    (word - n) % WORD
  }

  predicate HasWriter(word: nat) {
    word % 2 == 1
  }

  function Or(word: nat): nat {
    if HasWriter(word) then word else word + WRITER
  }

  function Xor(word: nat): nat {
    if HasWriter(word) then word - WRITER else word + WRITER
  }

  ghost predicate Init(s: State) {
    s.word == 0 && forall t | t in s.threads :: s.threads[t] == Idle
  }

  ghost predicate Step(s: State, e: Event, s': State) {
    && e.t in s.threads
    && var pc := s.threads[e.t];
    match e
    case ReadEnter(t) =>
      && pc == Idle
      && s' == State(Add(s.word, READER),
                     s.threads[t := if s.word > MAX_LOCK_VALUE || HasWriter(s.word) then BackOff else Reading])
    case ReadRetreat(t) => pc == BackOff && s' == State(Sub(s.word, READER), s.threads[t := Idle])
    case ReadUnlock(t) => pc == Reading && s' == State(Sub(s.word, READER), s.threads[t := Idle])
    case WriteEnter(t) =>
      && pc == Idle
      && s' == State(Or(s.word), s.threads[t := if HasWriter(s.word) then Idle else Spinning])
    case WritePoll(t) =>
      && pc == Spinning
      && s' == State(s.word, s.threads[t := if s.word == WRITER then Writing else Spinning])
    case WriteUnlock(t) => pc == Writing && s' == State(Xor(s.word), s.threads[t := Idle])
  }

  ghost predicate Next(s: State, s': State) {
    exists e :: Step(s, e, s')
  }

  ghost predicate IsRun(run: seq<State>) {
    && |run| > 0 && Init(run[0]) && |run[0].threads| < MAX_THREADS
    && forall i | 0 <= i < |run| - 1 :: Next(run[i], run[i + 1])
  }

  /** The threads counted in the word: those holding the read lock and those backing off. */
  ghost function Readers(s: State): set<nat> {
    set t | t in s.threads && (s.threads[t] == Reading || s.threads[t] == BackOff)
  }

  /** The threads behind the writer bit. */
  ghost function Writers(s: State): set<nat> {
    set t | t in s.threads && (s.threads[t] == Spinning || s.threads[t] == Writing)
  }

  /** The lock word is twice the number of readers plus the writer bit, and never wraps. */
  ghost predicate Inv(s: State) {
    && |s.threads| < MAX_THREADS
    && s.word == 2 * |Readers(s)| + |Writers(s)|
    && |Writers(s)| <= 1
    && (forall t, u | t in s.threads && u in s.threads :: !(s.threads[t] == Writing && s.threads[u] == Reading))
  }

  lemma SizeBound(s: State)
    requires |s.threads| < MAX_THREADS
    ensures |Readers(s)| + |Writers(s)| < MAX_THREADS
  {
    SubsetSize(Readers(s) + Writers(s), s.threads.Keys);
    assert Readers(s) !! Writers(s);
  }

  function ReaderBit(pc: Pc): nat {
    if pc == Reading || pc == BackOff then 1 else 0
  }

  function WriterBit(pc: Pc): nat {
    if pc == Spinning || pc == Writing then 1 else 0
  }

  /** How one thread's move changes the count of readers. */
  lemma ReadersAfter(s: State, t: nat, s': State)
    requires t in s.threads && t in s'.threads && s'.threads == s.threads[t := s'.threads[t]]
    ensures |Readers(s')| == |Readers(s)| + ReaderBit(s'.threads[t]) - ReaderBit(s.threads[t])
  {
    var after := ReaderBit(s'.threads[t]) == 1;
    assert Readers(s') == if after then Readers(s) + {t} else Readers(s) - {t};
    PutSize(Readers(s), t, after);
  }

  lemma WritersAfter(s: State, t: nat, s': State)
    requires t in s.threads && t in s'.threads && s'.threads == s.threads[t := s'.threads[t]]
    ensures |Writers(s')| == |Writers(s)| + WriterBit(s'.threads[t]) - WriterBit(s.threads[t])
  {
    var after := WriterBit(s'.threads[t]) == 1;
    assert Writers(s') == if after then Writers(s) + {t} else Writers(s) - {t};
    PutSize(Writers(s), t, after);
  }

  lemma WordKept(s: State, e: Event, s': State)
    requires Inv(s) && Step(s, e, s')
    ensures |s'.threads| < MAX_THREADS && |Writers(s')| <= 1
    ensures s'.word == 2 * |Readers(s')| + |Writers(s')|
  {
    hide Readers;
    hide Writers;
    ReadersAfter(s, e.t, s');
    WritersAfter(s, e.t, s');
    assert s'.threads.Keys == s.threads.Keys;
    SizeBound(s);
    SizeBound(s');
  }

  lemma StepInv(s: State, e: Event, s': State)
    requires Inv(s) && Step(s, e, s')
    ensures Inv(s')
  {
    WordKept(s, e, s');
    if e.WritePoll? && s.word == WRITER {
      forall u | u in s.threads ensures s.threads[u] != Reading {
        assert u !in Readers(s);
      }
    }
    if e.ReadEnter? && s'.threads[e.t] == Reading {
      forall u | u in s.threads ensures s.threads[u] != Writing {
        assert u !in Writers(s);
      }
    }
  }

  lemma {:induction false} RunInv(run: seq<State>, i: nat)
    requires IsRun(run) && i < |run|
    ensures Inv(run[i])
  {
    if i == 0 {
      assert Readers(run[0]) == {} && Writers(run[0]) == {};
    } else {
      RunInv(run, i - 1);
      assert Next(run[i - 1], run[i - 1 + 1]);
      var e :| Step(run[i - 1], e, run[i]);
      StepInv(run[i - 1], e, run[i]);
    }
  }

  /** In every run, while a thread has the write lock no thread has the read lock, and no other the write lock. */
  lemma MutualExclusion(run: seq<State>, i: nat, t: nat, u: nat)
    requires IsRun(run) && i < |run| && t in run[i].threads && u in run[i].threads && t != u
    requires run[i].threads[t] == Writing
    ensures run[i].threads[u] == Idle || run[i].threads[u] == BackOff
  {
    RunInv(run, i);
    var s := run[i];
    assert t in Writers(s);
    if u in Writers(s) { SingletonSet(Writers(s), t, u); }
  }

  /** `single_write_lock` answers false exactly when another thread is behind the writer bit. */
  lemma WriteRefusedIff(s: State, t: nat, s': State)
    requires Inv(s) && Step(s, WriteEnter(t), s')
    ensures s'.threads[t] == Idle <==>
              exists u :: u in s.threads && (s.threads[u] == Spinning || s.threads[u] == Writing)
  {
    if HasWriter(s.word) {
      assert |Writers(s)| == 1;
      var u :| u in Writers(s);
    } else {
      assert Writers(s) == {};
      forall u | u in s.threads ensures !(s.threads[u] == Spinning || s.threads[u] == Writing) {
        assert u !in Writers(s);
      }
    }
  }

  /** The assertion in `write_unlock` holds, and a spinning writer proceeds exactly when no reader is left. */
  lemma WriterProgress(s: State, t: nat)
    requires Inv(s) && t in s.threads
    ensures s.threads[t] == Writing ==> HasWriter(s.word)
    ensures s.threads[t] == Spinning ==> (s.word == WRITER <==> Readers(s) == {})
  {
    if t in Writers(s) {
      assert |Writers(s)| == 1 by { SubsetSize({t}, Writers(s)); }
    }
  }

  /**
   `try_read_lock` answers true exactly when no thread is behind the writer bit and fewer than 2^30
   threads are counted in the word; one that it refuses is counted until it retreats.
   */
  lemma ReadAdmittedIff(s: State, t: nat, s': State)
    requires Inv(s) && Step(s, ReadEnter(t), s')
    ensures s'.threads[t] == Reading <==>
              && (forall u | u in s.threads :: s.threads[u] != Spinning && s.threads[u] != Writing)
              && |Readers(s)| < 0x4000_0000
    ensures s'.threads[t] != Reading ==> s'.threads[t] == BackOff
  {
    if HasWriter(s.word) {
      assert |Writers(s)| == 1;
      var u :| u in Writers(s);
    } else {
      assert Writers(s) == {};
      forall u | u in s.threads ensures s.threads[u] != Spinning && s.threads[u] != Writing {
        assert u !in Writers(s);
      }
    }
  }

  /** A poll of the word gives a spinning writer the lock exactly when no thread is counted in it. */
  lemma WriteAdmittedIff(s: State, t: nat, s': State)
    requires Inv(s) && Step(s, WritePoll(t), s')
    ensures s'.threads[t] == Writing <==>
              forall u | u in s.threads :: s.threads[u] != Reading && s.threads[u] != BackOff
  {
    WriterProgress(s, t);
    if Readers(s) == {} {
      forall u | u in s.threads ensures s.threads[u] != Reading && s.threads[u] != BackOff {
        assert u !in Readers(s);
      }
    } else {
      var u :| u in Readers(s);
    }
  }

  /**
   Nothing else gives or takes a lock: a thread has the read lock from a try_read_lock that admitted it
   to its own read_unlock, and the write lock from its last poll to its own write_unlock.
   */
  lemma LocksChangeHands(s: State, e: Event, s': State, u: nat)
    requires Step(s, e, s') && u in s.threads
    ensures u in s'.threads
    ensures s.threads[u] == Reading && s'.threads[u] != Reading <==> e == ReadUnlock(u)
    ensures s.threads[u] != Reading && s'.threads[u] == Reading ==> e == ReadEnter(u)
    ensures s.threads[u] == Writing && s'.threads[u] != Writing <==> e == WriteUnlock(u)
    ensures s.threads[u] != Writing && s'.threads[u] == Writing ==> e == WritePoll(u)
  {
  }
}
