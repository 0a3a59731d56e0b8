/**
 A one-way byte pipe in shared memory: one writer, one reader, two counters and a ring of
 bytes. The copies in `PipeBuffer::write` and `PipeBuffer::read` are modelled byte by byte,
 so the two processes interleave inside them, each with a stale copy of the other's counter.
 */
module SyncPipe {
  import opened Arithmetic
  import opened Bytes
  import opened Ring

  /** Where the writer is in `Writer::write_timeout(src)`. `base` is history: the writer counter at the call. */
  datatype WPc =
    | WIdle
    | WTest(src: seq<Byte>, done: nat, base: nat)                   // about to test can_write
    | WWait(src: seq<Byte>, done: nat, base: nat)                   // in the wait syscall
    | WLoad(src: seq<Byte>, done: nat, base: nat)                   // entering PipeBuffer::write
    | WCopy(src: seq<Byte>, done: nat, base: nat, n: nat, k: nat)   // k of n bytes copied
    | WNotify(src: seq<Byte>, done: nat, base: nat)                 // all written, about to wake the reader
    | WUndo(src: seq<Byte>, done: nat, base: nat)                   // the reader is gone, about to unwrite

  /**
   Where the reader is in `Reader::read_timeout` with a buffer of `len` bytes. `last` is the read made
   after an error. `seen` is history: the writer counter that the read loaded.
   */
  datatype RPc =
    | RIdle
    | RTest(len: nat)                                                    // about to test can_read
    | RWait(len: nat)                                                    // in the wait syscall
    | RLoad(len: nat, last: bool)                                        // entering PipeBuffer::read
    | RCopy(len: nat, last: bool, seen: nat, n: nat, got: seq<Byte>)     // |got| of n bytes copied

  /** What a finished write_timeout or read_timeout returned. */
  datatype Outcome = Pending | Ok(count: nat) | Err

  /**
   `size` is work_buf_len. History: `stream` is every byte the writer counter covers,
   `taken` every byte the reader returned, `handed` the bytes of the writes that completed.
   */
  datatype State = State(
    size: nat,
    buf: seq<Byte>,
    reader: nat,
    writer: nat,
    gone: bool,      // the reader process has exited
    closed: bool,    // the writer has an error code
    severed: bool,   // the reader has an error code
    w: WPc,
    r: RPc,
    result: Outcome, // of the latest write
    answer: Outcome, // of the latest read
    stream: seq<Byte>,
    taken: seq<Byte>,
    handed: seq<Byte>)

  datatype Event =
    | WriteCall(src: seq<Byte>)
    | WriteTest
    | WriteResume       // the wait returns
    | WriteFail         // the wait or the wake reports that the reader is gone
    | WriteLoad
    | WriteByte
    | WriteCommit
    | WriteDone
    | WriteUndo
    | ReadCall(len: nat)
    | ReadTest
    | ReadResume
    | ReadFail(timedOut: bool)      // the wait reports an error; a timeout is forgotten as the call returns
    | ReadLoad
    | ReadByte
    | ReadCommit(wakeFails: bool)
    | ReaderExit

  ghost predicate Init(s: State) {
    && s.size > 0 && |s.buf| == s.size && s.reader == 0 && s.writer == 0
    && !s.gone && !s.closed && !s.severed && s.w == WIdle && s.r == RIdle
    && s.stream == [] && s.taken == [] && s.handed == []
  }

  /**
   The cell that byte `k` of a copy of `n` bytes at `counter` goes to: one slice when it fits
   before the end of the ring, else one slice up to the end and one from the start.
   */
  function Cell(size: nat, counter: nat, n: nat, k: nat): int
    requires size > 0
  {
    var offset := counter % size;
    if offset + n <= size then offset + k
    else
      var first := size - offset;
      if k < first then offset + k else k - first
  }

  ghost predicate Step(s: State, e: Event, s': State) {
    && s.size > 0
    && match e
       case WriteCall(src) =>
         && s.w == WIdle
         && s' == if s.closed || |src| == 0 then s.(result := Err)
                  else s.(w := WTest(src, 0, s.writer), result := Pending)
       case WriteTest =>
         && s.w.WTest?
         && s' == s.(w := if s.writer < s.reader + s.size then WLoad(s.w.src, s.w.done, s.w.base)
                          else WWait(s.w.src, s.w.done, s.w.base))
       case WriteResume => s.w.WWait? && s' == s.(w := WTest(s.w.src, s.w.done, s.w.base))
       case WriteFail =>
         && s.gone && (s.w.WWait? || s.w.WNotify?)
         && s' == s.(w := WUndo(s.w.src, s.w.done, s.w.base), closed := true)
       case WriteLoad =>
         && s.w.WLoad? && s.w.done <= |s.w.src|
         && var n := Min(s.reader + s.size - s.writer, |s.w.src| - s.w.done);
         && s' == s.(w := if n <= 0 then WTest(s.w.src, s.w.done, s.w.base)
                          else WCopy(s.w.src, s.w.done, s.w.base, n, 0))
       case WriteByte =>
         && s.w.WCopy? && s.w.k < s.w.n && s.w.done + s.w.k < |s.w.src|
         && var i := Cell(s.size, s.writer, s.w.n, s.w.k);
         && 0 <= i < |s.buf|
         && s' == s.(buf := s.buf[i := s.w.src[s.w.done + s.w.k]], w := s.w.(k := s.w.k + 1))
       case WriteCommit =>
         && s.w.WCopy? && s.w.k == s.w.n && s.w.done + s.w.n <= |s.w.src|
         && var done := s.w.done + s.w.n;
         && s' == s.(writer := s.writer + s.w.n, stream := s.stream + s.w.src[s.w.done..done],
                     w := if done == |s.w.src| then WNotify(s.w.src, done, s.w.base)
                          else WTest(s.w.src, done, s.w.base))
       case WriteDone =>
         && s.w.WNotify?
         && s' == s.(w := WIdle, result := Ok(s.w.done), handed := s.handed + s.w.src)
       case WriteUndo =>
         && s.w.WUndo?
         && var unread := s.writer - s.reader;
         && var count := if s.w.done >= unread then s.w.done - unread else 0;
         && s' == s.(writer := s.reader, stream := if s.reader <= |s.stream| then s.stream[..s.reader] else s.stream,
                     w := WIdle, result := if count > 0 then Ok(count) else Err)
       case ReadCall(len) =>
         && s.r == RIdle && !s.gone
         && s' == if len == 0 then s.(answer := Err) else s.(r := RTest(len), answer := Pending)
       case ReadTest =>
         && s.r.RTest? && !s.gone
         && s' == s.(r := if s.reader < s.writer then RLoad(s.r.len, false)
                          else if s.severed then RLoad(s.r.len, true)
                          else RWait(s.r.len))
       case ReadResume => s.r.RWait? && !s.gone && s' == s.(r := RTest(s.r.len))
       case ReadFail(timedOut) => s.r.RWait? && !s.gone && s' == s.(r := RLoad(s.r.len, true), severed := !timedOut)
       case ReadLoad =>
         && s.r.RLoad? && !s.gone
         && var n := Min(s.writer - s.reader, s.r.len);
         && s' == if n > 0 then s.(r := RCopy(s.r.len, s.r.last, s.writer, n, []))
                  else if s.r.last then s.(r := RIdle, answer := Err)
                  else s.(r := RTest(s.r.len))
       case ReadByte =>
         && s.r.RCopy? && !s.gone && |s.r.got| < s.r.n
         && var i := Cell(s.size, s.reader, s.r.n, |s.r.got|);
         && 0 <= i < |s.buf|
         && s' == s.(r := s.r.(got := s.r.got + [s.buf[i]]))
       case ReadCommit(wakeFails) =>
         && s.r.RCopy? && !s.gone && |s.r.got| == s.r.n
         && s' == s.(reader := s.reader + s.r.n, taken := s.taken + s.r.got, r := RIdle, answer := Ok(s.r.n),
                     severed := s.severed || (!s.r.last && wakeFails))
       case ReaderExit => s' == s.(gone := true)
  }

  ghost predicate Next(s: State, s': State) {
    exists e :: Step(s, e, s')
  }

  ghost predicate IsRun(run: seq<State>) {
    && |run| > 0 && Init(run[0])
    && forall i | 0 <= i < |run| - 1 :: Next(run[i], run[i + 1])
  }

  // ---------------------------------------------------------------------------------------
  // The invariant
  // ---------------------------------------------------------------------------------------

  /** Unread byte `k` of the stream sits in its cell. */
  ghost predicate ByteOk(s: State, k: nat)
    requires s.size > 0 && |s.buf| == s.size && k < |s.stream|
  {
    s.buf[Idx(s.size, k)] == s.stream[k]
  }

  ghost predicate CopiedOk(s: State, j: nat)
    requires s.size > 0 && |s.buf| == s.size && s.w.WCopy? && s.w.done + j < |s.w.src|
  {
    s.buf[Idx(s.size, s.writer + j)] == s.w.src[s.w.done + j]
  }

  ghost predicate RingOk(s: State) {
    && s.size > 0 && |s.buf| == s.size
    && s.reader <= s.writer <= s.reader + s.size
    && |s.stream| == s.writer && s.taken == s.stream[..s.reader]
    && (forall k: nat | s.reader <= k < s.writer :: ByteOk(s, k))
  }

  ghost predicate WriterOk(s: State)
    requires RingOk(s)
  {
    && (!s.w.WIdle? ==>
          && s.w.done <= |s.w.src| && |s.w.src| > 0 && s.writer == s.w.base + s.w.done
          && s.stream == s.handed + s.w.src[..s.w.done] && |s.handed| == s.w.base)
    && (s.w.WIdle? && !s.closed ==> s.stream == s.handed)
    && (s.w.WLoad? ==> s.writer < s.reader + s.size)
    && (!s.w.WIdle? && !s.w.WNotify? && !s.w.WUndo? ==> s.w.done < |s.w.src|)
    && (s.w.WNotify? ==> s.w.done == |s.w.src|)
    && (s.w.WUndo? ==> s.gone && s.closed)
    && (s.closed ==> s.gone && (s.w.WIdle? || s.w.WUndo?))
    && (s.w.WCopy? ==>
          && 0 < s.w.n && s.w.k <= s.w.n && s.w.done + s.w.n <= |s.w.src|
          && s.writer + s.w.n <= s.reader + s.size
          && (forall j: nat | j < s.w.k :: CopiedOk(s, j)))
  }

  ghost predicate ReaderOk(s: State)
    requires RingOk(s)
  {
    && (!s.gone && !s.r.RIdle? ==> s.r.len > 0)
    && (!s.gone && s.r.RLoad? && !s.r.last ==> s.reader < s.writer)
    && (!s.gone && s.r.RCopy? ==>
          && 0 < s.r.n && |s.r.got| <= s.r.n && s.r.n == Min(s.r.len, s.r.seen - s.reader)
          && s.reader + s.r.n <= s.r.seen <= s.writer
          && s.r.got == s.stream[s.reader..s.reader + |s.r.got|])
  }

  ghost predicate Inv(s: State) {
    RingOk(s) && WriterOk(s) && ReaderOk(s)
  }

  /** The two-slice copy of the code writes each byte where its position belongs. */
  lemma CellIsIdx(size: nat, counter: nat, n: nat, k: nat)
    requires size > 0 && k < n <= size
    ensures Cell(size, counter, n, k) == Idx(size, counter + k)
  {
    IdxIsMod(size, counter);
    IdxPlus(size, counter, k);
  }

  lemma WriteByteInv(s: State, s': State)
    requires Inv(s) && Step(s, WriteByte, s')
    ensures Inv(s')
  {
    hide Idx;
    hide Cell;
    CellIsIdx(s.size, s.writer, s.w.n, s.w.k);
    forall k: nat | s.reader <= k < s.writer ensures ByteOk(s', k) {
      assert ByteOk(s, k);
      IdxApart(s.size, k, s.writer + s.w.k);
    }
    forall j: nat | j < s'.w.k ensures CopiedOk(s', j) {
      if j < s.w.k {
        assert CopiedOk(s, j);
        IdxApart(s.size, s.writer + j, s.writer + s.w.k);
      }
    }
  }

  lemma CommitByte(s: State, s': State, k: nat)
    requires RingOk(s) && WriterOk(s) && s.w.WCopy? && s.w.k == s.w.n
    requires s'.size == s.size && s'.buf == s.buf && s'.stream == s.stream + s.w.src[s.w.done..s.w.done + s.w.n]
    requires s.reader <= k < s.writer + s.w.n
    ensures ByteOk(s', k)
  {
    hide Idx;
    if k < s.writer { assert ByteOk(s, k); } else { assert CopiedOk(s, k - s.writer); }
  }

  lemma CommitRing(s: State, s': State)
    requires Inv(s) && Step(s, WriteCommit, s')
    ensures RingOk(s')
  {
    hide Idx;
    hide ByteOk;
    hide CopiedOk;
    forall k: nat | s'.reader <= k < s'.writer ensures ByteOk(s', k) {
      CommitByte(s, s', k);
    }
  }

  /** What a commit adds to the stream is the next part of this call. */
  lemma CommitStream(s: State, s': State)
    requires Inv(s) && Step(s, WriteCommit, s')
    ensures var done := s.w.done + s.w.n;
            && done <= |s.w.src| && s'.w.WTest? == (done < |s.w.src|) && (s'.w.WTest? || s'.w.WNotify?)
            && s'.w.src == s.w.src && s'.w.done == done && s'.w.base == s.w.base
            && s'.writer == s.w.base + done && s'.stream == s.handed + s.w.src[..done]
            && s'.handed == s.handed && s'.closed == s.closed
  {
    hide Idx;
    hide ByteOk;
    hide CopiedOk;
    hide ReaderOk;
    AppendSlice(s.handed, s.w.src, s.w.done, s.w.n);
  }

  lemma CommitWriter(s: State, s': State)
    requires Inv(s) && Step(s, WriteCommit, s') && RingOk(s')
    ensures WriterOk(s')
  {
    CommitStream(s, s');
    assert |s.handed| == s.w.base && !s.closed && |s.w.src| > 0;
    hide RingOk;
    hide Inv;
    hide Step;
  }

  lemma WriteCommitInv(s: State, s': State)
    requires Inv(s) && Step(s, WriteCommit, s')
    ensures Inv(s')
  {
    hide RingOk;
    hide WriterOk;
    hide ReaderOk;
    CommitRing(s, s');
    CommitWriter(s, s');
    GrowReader(s, s', s.w.src[s.w.done..s.w.done + s.w.n]);
  }

  /** A longer stream does not disturb a read in progress. */
  lemma GrowReader(s: State, s': State, more: seq<Byte>)
    requires RingOk(s) && RingOk(s') && ReaderOk(s)
    requires s'.reader == s.reader && s'.r == s.r && s'.gone == s.gone && s'.stream == s.stream + more
    ensures ReaderOk(s')
  {
    hide ByteOk;
    if !s.gone && s.r.RCopy? {
      SliceKept(s.stream, more, s.reader, s.reader + |s.r.got|);
    }
  }

  lemma AppendSlice(a: seq<Byte>, src: seq<Byte>, done: nat, n: nat)
    requires done + n <= |src|
    ensures (a + src[..done]) + src[done..done + n] == a + src[..done + n]
  {
  }

  lemma SliceKept(a: seq<Byte>, b: seq<Byte>, i: nat, j: nat)
    requires i <= j <= |a|
    ensures (a + b)[i..j] == a[i..j]
  {
  }

  lemma ReadByteInv(s: State, s': State)
    requires Inv(s) && Step(s, ReadByte, s')
    ensures Inv(s')
  {
    hide Idx;
    hide Cell;
    CellIsIdx(s.size, s.reader, s.r.n, |s.r.got|);
    assert ByteOk(s, s.reader + |s.r.got|);
    KeepRing(s, s');
  }

  lemma ReadCommitInv(s: State, wakeFails: bool, s': State)
    requires Inv(s) && Step(s, ReadCommit(wakeFails), s')
    ensures Inv(s')
  {
    hide Idx;
    hide Cell;
    assert s.stream[..s.reader] + s.stream[s.reader..s'.reader] == s.stream[..s'.reader];
    forall k: nat | s'.reader <= k < s'.writer ensures ByteOk(s', k) {
      assert ByteOk(s, k);
    }
    if s.w.WCopy? {
      forall j: nat | j < s'.w.k ensures CopiedOk(s', j) { assert CopiedOk(s, j); }
    }
  }

  /** Steps that leave the ring, the counters and the copy in progress as they are. */
  lemma KeepRing(s: State, s': State)
    requires Inv(s) && s'.size == s.size && s'.buf == s.buf && s'.reader == s.reader && s'.writer == s.writer
    requires s'.stream == s.stream && s'.taken == s.taken
    ensures RingOk(s')
    ensures s.w.WCopy? && s'.w == s.w ==> forall j: nat | j < s'.w.k :: CopiedOk(s', j)
  {
    hide Idx;
    forall k: nat | s'.reader <= k < s'.writer ensures ByteOk(s', k) {
      assert ByteOk(s, k);
    }
    if s.w.WCopy? && s'.w == s.w {
      forall j: nat | j < s'.w.k ensures CopiedOk(s', j) { assert CopiedOk(s, j); }
    }
  }

  /** Rolling back drops exactly the unread bytes. */
  lemma UndoInv(s: State, s': State)
    requires Inv(s) && Step(s, WriteUndo, s')
    ensures Inv(s') && s'.stream == s'.taken
  {
    hide Idx;
  }

  /** Steps of the reader that take nothing leave the writer's side as it is. */
  lemma KeepWriter(s: State, s': State)
    requires Inv(s) && s' == s.(r := s'.r, severed := s'.severed, answer := s'.answer)
    ensures RingOk(s') && WriterOk(s')
  {
    hide Idx;
    hide Cell;
    KeepRing(s, s');
    hide ByteOk;
    hide CopiedOk;
  }

  lemma ReaderLocalInv(s: State, e: Event, s': State)
    requires Inv(s) && Step(s, e, s')
    requires e.ReadCall? || e.ReadTest? || e.ReadResume? || e.ReadFail? || e.ReadLoad?
    ensures Inv(s')
  {
    hide Cell;
    KeepWriter(s, s');
    hide ByteOk;
    hide WriterOk;
  }

  lemma WriterLocalInv(s: State, e: Event, s': State)
    requires Inv(s) && Step(s, e, s')
    requires e.WriteCall? || e.WriteTest? || e.WriteResume? || e.WriteFail?
    ensures Inv(s')
  {
    hide Idx;
    hide Cell;
    KeepRing(s, s');
    hide ByteOk;
    hide CopiedOk;
    assert ReaderOk(s');
    hide ReaderOk;
    hide RingOk;
  }

  lemma WriteLoadInv(s: State, s': State)
    requires Inv(s) && Step(s, WriteLoad, s')
    ensures Inv(s')
  {
    hide Idx;
    KeepRing(s, s');
    hide ByteOk;
    assert ReaderOk(s');
    hide ReaderOk;
  }

  lemma WriteDoneInv(s: State, s': State)
    requires Inv(s) && Step(s, WriteDone, s')
    ensures Inv(s')
  {
    hide Idx;
    KeepRing(s, s');
    hide ByteOk;
    assert ReaderOk(s');
    hide ReaderOk;
    assert s.w.src[..|s.w.src|] == s.w.src;
  }

  lemma StepInv(s: State, e: Event, s': State)
    requires Inv(s) && Step(s, e, s')
    ensures Inv(s')
  {
    hide Idx;
    hide Cell;
    match e
    case WriteByte => WriteByteInv(s, s');
    case WriteLoad => WriteLoadInv(s, s');
    case WriteCommit => WriteCommitInv(s, s');
    case WriteDone => WriteDoneInv(s, s');
    case WriteUndo => UndoInv(s, s');
    case ReadByte => ReadByteInv(s, s');
    case ReadCommit(wakeFails) => ReadCommitInv(s, wakeFails, s');
    case ReaderExit => KeepRing(s, s');
    case ReadCall(_) => ReaderLocalInv(s, e, s');
    case ReadTest => ReaderLocalInv(s, e, s');
    case ReadResume => ReaderLocalInv(s, e, s');
    case ReadFail(_) => ReaderLocalInv(s, e, s');
    case ReadLoad => ReaderLocalInv(s, e, s');
    case _ => WriterLocalInv(s, e, s');
  }

  lemma {:induction false} RunInv(run: seq<State>, i: nat)
    requires IsRun(run) && i < |run|
    ensures Inv(run[i])
  {
    hide Inv;
    if i == 0 {
      InitInv(run[0]);
    } else {
      RunInv(run, i - 1);
      assert Next(run[i - 1], run[i - 1 + 1]);
      var e :| Step(run[i - 1], e, run[i]);
      StepInv(run[i - 1], e, run[i]);
    }
  }

  lemma InitInv(s: State)
    requires Init(s)
    ensures Inv(s)
  {
  }

  // ---------------------------------------------------------------------------------------
  // What the pipe promises
  // ---------------------------------------------------------------------------------------

  /**
   In every run: the counters stay within one ring of each other, each unread byte sits at its
   position masked by the ring size, and what was read is a prefix of what was written; while
   no write has been rolled back, what was written is the completed writes followed by the
   committed part of the current one.
   */
  lemma ReadIsPrefixOfWritten(run: seq<State>, i: nat)
    requires IsRun(run) && i < |run|
    ensures var s := run[i];
            && s.size == |s.buf| > 0 && s.reader <= s.writer <= s.reader + s.size && |s.stream| == s.writer
            && s.taken == s.stream[..s.reader]
            && (forall k: nat | s.reader <= k < s.writer :: s.buf[k % s.size] == s.stream[k])
    ensures var s := run[i];
            !s.closed ==> s.stream == s.handed + if s.w.WIdle? then [] else s.w.src[..Min(s.w.done, |s.w.src|)]
  {
    hide Idx;
    RunInv(run, i);
    var s := run[i];
    forall k: nat | s.reader <= k < s.writer ensures s.buf[k % s.size] == s.stream[k] {
      assert ByteOk(s, k);
      IdxIsMod(s.size, k);
    }
  }

  /** The cells a write is filling hold no unread byte, so the copies of the two sides never touch one cell. */
  lemma CopiesApart(run: seq<State>, i: nat, j: nat, k: nat)
    requires IsRun(run) && i < |run|
    requires var s := run[i];
             s.w.WCopy? && s.r.RCopy? && !s.gone && j < s.w.n && k < s.r.n
    ensures var s := run[i];
            s.size > 0 && Cell(s.size, s.writer, s.w.n, j) != Cell(s.size, s.reader, s.r.n, k)
  {
    hide Idx;
    hide Cell;
    RunInv(run, i);
    var s := run[i];
    CellIsIdx(s.size, s.writer, s.w.n, j);
    CellIsIdx(s.size, s.reader, s.r.n, k);
    IdxApart(s.size, s.reader + k, s.writer + j);
  }

  /**
   Rollback: when the reader is gone, the count that write_timeout returns is exactly the number
   of bytes of this call that the reader took, whatever was unread from earlier calls; it is an
   error exactly when that number is zero; and afterwards nothing unread is left.
   */
  lemma RollbackCount(s: State, s': State)
    requires Inv(s) && Step(s, WriteUndo, s')
    ensures var mine := if |s.taken| > s.w.base then |s.taken| - s.w.base else 0;
            && s'.result == (if mine > 0 then Ok(mine) else Err)
            && mine <= s.w.done && s.taken[|s.taken| - mine..] == s.w.src[..mine]
    ensures s'.writer == s'.reader && s'.stream == s.taken
  {
    hide Idx;
  }

  /**
   However a write ends: its count is exactly the number of its bytes that are in the stream from then
   on, it is an error exactly when there are none, and what is there are its first bytes, at the place
   where it began; unless the reader is gone that is all of them, behind everything written before.
   */
  lemma WriteEnds(s: State, e: Event, s': State)
    requires Inv(s) && Step(s, e, s') && !s.w.WIdle? && s'.w.WIdle?
    ensures var src, base := s.w.src, s.w.base;
            var n := if |s'.stream| > base then |s'.stream| - base else 0;
            && s'.result == (if n > 0 then Ok(n) else Err)
            && n <= |src| && s'.stream[|s'.stream| - n..] == src[..n]
            && (if s'.closed then s.gone && s'.stream == s'.taken
                else n == |src| && s'.stream == s.stream == s.handed + src)
  {
    hide Idx;
    hide ByteOk;
    assert s.w.src[..|s.w.src|] == s.w.src;
    if e.WriteUndo? { RollbackCount(s, s'); }
  }

  /**
   The writer waits exactly when it finds the ring full of unread bytes, and the reader exactly when it
   finds nothing unread and knows of no error.
   */
  lemma WaitsIff(s: State, e: Event, s': State)
    requires Inv(s) && Step(s, e, s')
    ensures s'.w.WWait? && !s.w.WWait? <==> e.WriteTest? && |s.stream| == |s.taken| + s.size
    ensures s'.r.RWait? && !s.r.RWait? <==> e.ReadTest? && s.stream == s.taken && !s.severed
  {
    hide Idx;
    hide Cell;
    hide ByteOk;
    hide CopiedOk;
  }

  /** A copy that is begun moves something: as much as fits, and no more. */
  lemma LoadsCopy(s: State, e: Event, s': State)
    requires Inv(s) && Step(s, e, s')
    ensures e.WriteLoad? ==>
              && s'.w.WCopy? && 0 < s'.w.n <= |s.w.src| - s.w.done
              && (s'.w.n == |s.w.src| - s.w.done || |s.stream| + s'.w.n == |s.taken| + s.size)
    ensures e.ReadLoad? ==>
              if s.stream != s.taken then s'.r.RCopy? && 0 < s'.r.n <= s.r.len else s.r.last && s'.r.RIdle?
  {
    hide Idx;
    hide Cell;
    hide ByteOk;
    hide CopiedOk;
  }

  /**
   However a read ends: it took the next unread bytes, as many as its buffer holds or as there were when
   it loaded the writer's counter, and at least one; or nothing, and then nothing is unread.
   */
  lemma ReadEnds(s: State, e: Event, s': State)
    requires Inv(s) && Step(s, e, s') && !s.r.RIdle? && s'.r.RIdle?
    ensures s'.stream == s.stream && s'.taken == s.stream[..|s'.taken|]
    ensures match s'.answer
            case Pending => false
            case Ok(n) =>
              && |s'.taken| == |s.taken| + n && 0 < n <= s.r.len && s.r.RCopy?
              && |s'.taken| <= s.r.seen <= s.writer && (n < s.r.len ==> |s'.taken| == s.r.seen)
            case Err => s'.taken == s.taken == s.stream
  {
    hide Idx;
    hide ByteOk;
    StepInv(s, e, s');
  }
}
