/** Whole sequences of file system calls: the documented write loop, reading, and leaked blocks. */
module SrfsCalls {
  import opened Arithmetic
  import opened Bytes
  import opened Options
  import opened SrfsBlock
  import opened SrfsTree
  import opened SrfsFile
  import opened SrfsDir
  import opened SrfsState
  import opened SrfsSpace
  import opened SrfsTrail
  import opened SrfsFileOps
  import opened SrfsLinks
  import opened SrfsFs

  /**
   A client that writes a buffer as `write` asks: after a short count, another write for the rest.
   None if one of the writes is refused because its offset is past the end, or fails.
   */
  function WriteAll(free: int, c: seq<Byte>, offset: nat, buf: seq<Byte>): Option<seq<Byte>>
    decreases |buf|
  {
    if buf == [] then Some(c)
    else if offset > |c| || !Fits(free, |c|, offset, |buf|) then None
    else
      var n := WriteCount(|c|, offset, |buf|);
      WriteAll(free - WriteBlocks(|c|, offset, |buf|), Written(c, offset, buf[..n]), offset + n, buf[n..])
  }

  /** The buffer over the contents from `offset` on, longer if need be. */
  ghost function Overlay(c: seq<Byte>, offset: nat, buf: seq<Byte>): seq<Byte>
    requires offset <= |c|
  {
    c[..offset] + buf + (if offset + |buf| < |c| then c[offset + |buf|..] else [])
  }

  /** A write that starts below the size of a file with a partly filled last block and passes it. */
  predicate Overruns(size: nat, offset: nat, len: nat) {
    size > MAX_IN_META && size % 4096 != 0 && offset < size < offset + len
  }

  /** The blocks that a file of this size has beside its metadata block. */
  function BlocksOf(size: nat): nat {
    if size <= MAX_IN_META then 0 else NumBlocks(size) + NumLinks(NumBlocks(size)) + NumLols(NumBlocks(size))
  }

  /** There is room for the whole buffer: in the largest file, and on the device. */
  predicate Room(free: int, size: nat, offset: nat, len: nat) {
    var end := Max(size, offset + len);
    end <= MAX_FILE && BlocksOf(end) - BlocksOf(size) <= free
  }

  lemma BlocksGrow(a: nat, b: nat)
    requires a <= b
    ensures BlocksOf(a) <= BlocksOf(b)
  {
  }

  /** The blocks that one append takes are those the longer file has more. */
  lemma AppendBlocks(size: nat, len: nat)
    requires len > 0 && size < MAX_FILE
    ensures var n := WriteCount(size, size, len);
            size + n <= MAX_FILE && WriteBlocks(size, size, len) == BlocksOf(size + n) - BlocksOf(size)
  {
    var n := WriteCount(size, size, len);
    NextBlocks(size, n);
    if size > MAX_IN_META && size % 4096 == 0 {
      CountsGrow(size / 4096);
    }
    hide NumLinks;
    hide NumLols;
    hide NewLink;
    hide NewLol;
    assert size <= MAX_IN_META < size + n ==> NumLinks(1) == 0 && NumLols(1) == 0 by { FewBlocks(); }
    hide NumBlocks;
  }

  lemma FewBlocks()
    ensures NumLinks(1) == 0 && NumLols(1) == 0
  {
  }

  lemma NextBlocks(size: nat, n: nat)
    requires 0 < n && size % 4096 + n <= 4096 && size < MAX_FILE
    ensures size + n <= MAX_FILE
    ensures NumBlocks(size + n) == if size % 4096 == 0 then size / 4096 + 1 else NumBlocks(size)
    ensures size % 4096 == 0 ==> NumBlocks(size) == size / 4096
    ensures size <= MAX_IN_META ==> NumBlocks(size + n) == 1
    ensures size < MAX_FILE ==> size / 4096 < MAX_DOUBLE
  {
  }

  lemma SomeWritten(size: nat, offset: nat, len: nat)
    requires offset <= size && len > 0
    ensures 0 < WriteCount(size, offset, len) <= len
  {
  }

  /** So it is with every write: an overwrite takes none. */
  lemma StepBlocks(free: int, c: seq<Byte>, offset: nat, buf: seq<Byte>)
    requires offset <= |c| <= MAX_FILE && buf != [] && Fits(free, |c|, offset, |buf|)
    ensures var n := WriteCount(|c|, offset, |buf|);
            && n <= |buf|
            && var size := |Written(c, offset, buf[..n])|;
            size <= MAX_FILE && WriteBlocks(|c|, offset, |buf|) == BlocksOf(size) - BlocksOf(|c|)
  {
    if offset == |c| {
      AppendBlocks(|c|, |buf|);
    }
  }

  /** The first part of the buffer written, and then the rest laid over, is the whole laid over. */
  lemma OverlaySplit(c: seq<Byte>, offset: nat, buf: seq<Byte>, n: nat)
    requires offset <= |c| && 0 < n <= |buf| && (offset == |c| || offset + n <= |c|)
    ensures var c' := Written(c, offset, buf[..n]);
            && offset + n <= |c'| && |c'| == (if offset == |c| then |c| + n else |c|)
            && Overlay(c', offset + n, buf[n..]) == Overlay(c, offset, buf)
  {
    var c' := Written(c, offset, buf[..n]);
    assert c'[..offset + n] == c[..offset] + buf[..n];
    assert buf == buf[..n] + buf[n..];
  }

  /** One write of the loop, where no byte of it is lost. */
  lemma StepOverlays(c: seq<Byte>, offset: nat, buf: seq<Byte>)
    requires offset <= |c| && buf != []
    ensures var n := WriteCount(|c|, offset, |buf|);
            && 0 < n <= |buf|
            && (offset == |c| || offset + n <= |c| ==>
                  var c' := Written(c, offset, buf[..n]);
                  offset + n <= |c'| && Overlay(c', offset + n, buf[n..]) == Overlay(c, offset, buf))
            && (Overruns(|c|, offset, |buf|) && offset + n <= |c| ==>
                  var c' := Written(c, offset, buf[..n]); |c'| == |c| && Overruns(|c'|, offset + n, |buf| - n))
  {
    SomeWritten(|c|, offset, |buf|);
    var n := WriteCount(|c|, offset, |buf|);
    assert Overruns(|c|, offset, |buf|) && offset + n <= |c| ==> Overruns(|c|, offset + n, |buf| - n);
    hide WriteCount;
    hide Written;
    hide Overlay;
    if offset == |c| || offset + n <= |c| { OverlaySplit(c, offset, buf, n); }
  }

  /** Room for the whole is room for the first write, and then for the rest; and the other way round. */
  lemma StepRoom(free: int, size: nat, offset: nat, len: nat)
    requires offset <= size <= MAX_FILE && len > 0 && free >= 0
    ensures Room(free, size, offset, len) && !Overruns(size, offset, len) ==> Fits(free, size, offset, len)
    ensures var n, k := WriteCount(size, offset, len), WriteBlocks(size, offset, len);
            Fits(free, size, offset, len) && (offset == size || offset + n <= size) ==>
              var size' := if offset == size then size + n else size;
              && offset + n <= size' <= MAX_FILE && k <= free && 0 < n <= len
              && (Room(free - k, size', offset + n, len - n) <==> Room(free, size, offset, len))
  {
    hide BlocksOf;
    if offset == size < MAX_FILE {
      AppendBlocks(size, len);
      BlocksGrow(size + WriteCount(size, size, len), size + len);
    }
  }

  /**
   The loop writes the whole buffer where asked if and only if it does not overrun, the file does
   not get too large, and the device has the blocks.
   */
  lemma {:induction false} WriteAllIff(free: int, c: seq<Byte>, offset: nat, buf: seq<Byte>)
    requires offset <= |c| <= MAX_FILE && free >= 0
    ensures WriteAll(free, c, offset, buf) == Some(Overlay(c, offset, buf)) <==>
              !Overruns(|c|, offset, |buf|) && Room(free, |c|, offset, |buf|)
    decreases |buf|
  {
    hide Room;
    hide WriteBlocks;
    hide WriteCount;
    hide Fits;
    if buf == [] {
      assert Overlay(c, offset, buf) == c && Room(free, |c|, offset, 0) by { NoRoomNeeded(free, |c|, offset); }
    } else {
      var n := WriteCount(|c|, offset, |buf|);
      StepOverlays(c, offset, buf);
      var c' := Written(c, offset, buf[..n]);
      StepRoom(free, |c|, offset, |buf|);
      if Fits(free, |c|, offset, |buf|) {
        if offset == |c| || offset + n <= |c| {
          WriteAllIff(free - WriteBlocks(|c|, offset, |buf|), c', offset + n, buf[n..]);
        } else {
          Crosses(|c|, offset, |buf|);
          assert |c'| == |c| && |Overlay(c, offset, buf)| > |c|;
        }
      }
    }
  }

  /** Only an overrun is counted past the end of the file. */
  lemma Crosses(size: nat, offset: nat, len: nat)
    requires offset < size < offset + WriteCount(size, offset, len)
    ensures Overruns(size, offset, len)
  {
  }

  lemma NoRoomNeeded(free: int, size: nat, offset: nat)
    requires offset <= size <= MAX_FILE && free >= 0
    ensures Room(free, size, offset, 0)
  {
  }

  /**
   The loop on the file system. It comes to its end exactly if the loop on the plain byte sequence
   does, with the same contents; so the file is the whole overlay exactly under the condition of
   WriteAllIff.
   */
  method WriteWhole(fs: SyncFileSystem, id: EntryId, offset: nat, buf: seq<Byte>) returns (ok: bool)
    requires fs.Valid() && IsLive(fs.objs, id) && fs.objs[id.blockNo].body.File?
    modifies fs
    ensures var c, free := old(fs.objs[id.blockNo].body.content), FreeBlocks(old(fs.sb));
            && |c| <= MAX_FILE && free >= 0
            && (ok <==> WriteAll(free, c, offset, buf).Some?)
            && (ok ==>
                  && var c' := WriteAll(free, c, offset, buf).value;
                  && fs.Valid() && FileUpdated(old(fs.objs), fs.objs, id.blockNo, c')
                  && BlocksOf(|c'|) >= BlocksOf(|c|) && Spends(old(fs.sb), fs.sb, BlocksOf(|c'|) - BlocksOf(|c|)))
            && (offset <= |c| ==>
                  (ok && FileUpdated(old(fs.objs), fs.objs, id.blockNo, Overlay(c, offset, buf))
                   <==> !Overruns(|c|, offset, |buf|) && Room(free, |c|, offset, |buf|)))
  {
    hide Good;
    hide Quiet;
    hide BlocksOf;
    hide WriteBlocks;
    hide WriteCount;
    hide Fits;
    hide Room;
    hide Written;
    var m := id.blockNo;
    ghost var c0, free0 := fs.objs[m].body.content, FreeBlocks(fs.sb);
    ghost var c, free, at, rest := c0, free0, offset, buf;
    FileLimits(fs.sb, fs.store, fs.objs, fs.roles, fs.leaked, m);
    if offset <= |c0| { WriteAllIff(free0, c0, offset, buf); }
    SameFile(fs.objs, m);
    var done := 0;
    ok := true;
    while done < |buf|
      invariant done <= |buf| && rest == buf[done..] && at == offset + done
      invariant fs.Valid() && IsLive(fs.objs, id) && fs.objs[m].body.File? && id.generation % 2 == 0
      invariant FileUpdated(old(fs.objs), fs.objs, m, c) && free == FreeBlocks(fs.sb)
      invariant |c| <= MAX_FILE && BlocksOf(|c|) >= BlocksOf(|c0|)
      invariant Spends(old(fs.sb), fs.sb, BlocksOf(|c|) - BlocksOf(|c0|))
      invariant WriteAll(free0, c0, offset, buf) == WriteAll(free, c, at, rest)
    {
      ghost var objs1 := fs.objs;
      var r := fs.Write(id, offset + done, buf[done..]);
      if !r.Ok? {
        return false;
      }
      assert 0 < r.value <= |rest| by { SomeWritten(|c|, at, |rest|); }
      ghost var c' := Written(c, at, rest[..r.value]);
      StepBlocks(free, c, at, rest);
      UpdatedTwice(old(fs.objs), objs1, fs.objs, m, c, c');
      free := free - WriteBlocks(|c|, at, |rest|);
      assert rest[r.value..] == buf[done + r.value..];
      c, at, rest := c', at + r.value, rest[r.value..];
      done := done + r.value;
    }
  }

  /** An overrun: 20 bytes at offset 4990 of a 5000-byte file are all counted, and half are lost. */
  lemma LostTail(free: nat, c: seq<Byte>, buf: seq<Byte>)
    requires |c| == 5000 && |buf| == 20
    ensures WriteCount(|c|, 4990, |buf|) == 20
    ensures WriteAll(free, c, 4990, buf) == Some(c[..4990] + buf[..10])
  {
    assert buf[..20] == buf && buf[20..] == [];
  }

  /** read returns bytes of the file only, if and only if it does not pass the end in its last block. */
  lemma ReadStaysIff(size: nat, offset: nat, len: nat)
    ensures ReadCount(size, offset, len) <= (if offset < size then size - offset else 0)
            <==> !(Overruns(size, offset, len) && offset / 4096 == size / 4096)
  {
    assert offset < size ==> offset / 4096 <= size / 4096;
  }

  /** What is left of the contents from `offset` on. */
  ghost function Rest(c: seq<Byte>, offset: nat): seq<Byte> {
    if offset <= |c| then c[offset..] else []
  }

  /**
   Whether one of the reads of a client with buffers of these sizes, from `lens(i)` on, passes the end
   of the file: it starts below the size and has room beyond it in the last data block.
   */
  predicate PassesEnd(size: nat, offset: nat, lens: nat -> nat, i: nat)
    requires forall k :: lens(k) > 0
    decreases size - offset
  {
    offset < size &&
    var n := Min(lens(i), 4096 - offset % 4096);
    if offset + n > size then size > MAX_IN_META else PassesEnd(size, offset + n, lens, i + 1)
  }

  /** No read can if the file is in its metadata block or ends with its last data block. */
  lemma {:induction false} EndsWithBlock(size: nat, offset: nat, lens: nat -> nat, i: nat)
    requires (forall k :: lens(k) > 0) && (size <= MAX_IN_META || size % 4096 == 0)
    ensures !PassesEnd(size, offset, lens, i)
    decreases size - offset
  {
    var n := Min(lens(i), 4096 - offset % 4096);
    if offset < size && offset + n <= size { EndsWithBlock(size, offset + n, lens, i + 1); }
  }

  /** What the client has after `i` reads. */
  ghost predicate ReadSoFar(c: seq<Byte>, offset: nat, lens: nat -> nat, out: seq<Byte>, i: nat)
    requires forall k :: lens(k) > 0
  {
    var at := offset + |out|;
    && (out == [] || offset <= |c|)
    && if at <= |c| || out == []
       then out + Rest(c, at) == Rest(c, offset) && PassesEnd(|c|, offset, lens, 0) == PassesEnd(|c|, at, lens, i)
       else Rest(c, offset) <= out && PassesEnd(|c|, offset, lens, 0)
  }

  lemma ReadOn(c: seq<Byte>, offset: nat, lens: nat -> nat, out: seq<Byte>, i: nat, s: seq<Byte>)
    requires (forall k :: lens(k) > 0) && ReadSoFar(c, offset, lens, out, i) && ReadsAs(s, c, offset + |out|)
    requires MayRead(|c|, offset + |out|, lens(i), |s|) && !MayRead(|c|, offset + |out|, lens(i), |s| + 1) && s != []
    ensures offset + |out| < |c| && ReadSoFar(c, offset, lens, out + s, i + 1)
  {
    var at := offset + |out|;
    var n := Min(lens(i), 4096 - at % 4096);
    ReadsOneBlock(|c|, at, lens(i), |s|);
    hide MayRead;
    if at + n <= |c| {
      assert s == c[at..at + n];
    } else if |c| <= MAX_IN_META {
      assert s == c[at..];
    } else {
      assert s[..|c| - at] == c[at..];
    }
  }

  lemma ReadsOneBlock(size: nat, at: nat, len: nat, n: nat)
    requires len > 0 && MayRead(size, at, len, n) && !MayRead(size, at, len, n + 1)
    ensures n == if at >= size then 0
                 else var m := Min(len, 4096 - at % 4096); if size <= MAX_IN_META then Min(m, size - at) else m
  {
  }

  /**
   A client that reads until a read returns nothing, with buffers of any sizes. It gets the contents
   from `offset` on, to the last byte, and nothing more exactly if none of its reads passes the end.
   */
  method ReadWhole(fs: SyncFileSystem, id: EntryId, offset: nat, lens: nat -> nat) returns (out: seq<Byte>)
    requires fs.Valid() && IsLive(fs.objs, id) && fs.objs[id.blockNo].body.File? && forall k :: lens(k) > 0
    modifies fs`trail
    ensures fs.Valid()
    ensures var c := fs.objs[id.blockNo].body.content;
            && Rest(c, offset) <= out && (out == Rest(c, offset) <==> !PassesEnd(|c|, offset, lens, 0))
            && (|c| <= MAX_IN_META || |c| % 4096 == 0 ==> out == Rest(c, offset))
  {
    hide Good;
    hide Quiet;
    hide ReadsAs;
    hide MayRead;
    ghost var c := fs.objs[id.blockNo].body.content;
    FileLimits(fs.sb, fs.store, fs.objs, fs.roles, fs.leaked, id.blockNo);
    if |c| <= MAX_IN_META || |c| % 4096 == 0 { EndsWithBlock(|c|, offset, lens, 0); }
    hide PassesEnd;
    var i := 0;
    out := [];
    while true
      invariant fs.Valid() && ReadSoFar(c, offset, lens, out, i)
      decreases |c| - |out|
    {
      hide ReadSoFar;
      var r := fs.Read(id, offset + |out|, lens(i));
      assert MayRead(|c|, offset + |out|, lens(i), |r.value|);
      assert !MayRead(|c|, offset + |out|, lens(i), |r.value| + 1);
      ReadsOneBlock(|c|, offset + |out|, lens(i), |r.value|);
      if r.value == [] {
        break;
      }
      ReadOn(c, offset, lens, out, i, r.value);
      out := out + r.value;
      i := i + 1;
    }
    ReadToEnd(c, offset, lens, out, i);
  }

  lemma ReadToEnd(c: seq<Byte>, offset: nat, lens: nat -> nat, out: seq<Byte>, i: nat)
    requires (forall k :: lens(k) > 0) && ReadSoFar(c, offset, lens, out, i) && offset + |out| >= |c|
    ensures Rest(c, offset) <= out && (out == Rest(c, offset) <==> !PassesEnd(|c|, offset, lens, 0))
  {
  }

  // ---------------------------------------------------------------------------------------
  // Leaked blocks
  // ---------------------------------------------------------------------------------------

  /** Where every object fits in its metadata block, no other block is used. */
  lemma OnlyMeta(sb: Superblock, store: Store, objs: Objs, roles: Roles, leaked: set<nat>)
    requires Good(sb, store, objs, roles, leaked)
    requires forall m | m in objs :: Size(objs[m]) <= 14
    ensures roles.Keys == objs.Keys
  {
    hide Linked;
    hide AllocOk;
    hide HeaderOk;
    forall b | b in roles ensures b in objs {
      var m := roles[b].owner;
      assert Held(store, objs, roles, m);
      assert objs[m].tree == EMPTY && InTree(m, EMPTY, b, roles[b].role);
    }
    forall b | b in objs ensures b in roles {
      assert Held(store, objs, roles, b);
    }
  }

  /** The accounting of a file system of 4 blocks with one object in block 3 beside the root. */
  lemma OneLeaked(sb: Superblock, store: Store, objs: Objs, roles: Roles, leaked: set<nat>)
    requires Good(sb, store, objs, roles, leaked) && sb.numBlocks == 4 && objs.Keys == {ROOT, 3}
    requires forall m | m in objs :: Size(objs[m]) <= 14
    ensures sb.emptyAreaStart == 4 && sb.freeBlocks == 1
  {
    hide Linked;
    hide AllHeld;
    OnlyMeta(sb, store, objs, roles, leaked);
    assert 3 in roles && 2 !in roles && 1 in roles;
    assert Accounted(2, roles, leaked);
    assert leaked == {2};
  }

  /**
   A leaked block is counted free and never found: on a device of 4 blocks, with two files made
   and the first removed, one free block is counted and no file can be made. The id of the removed
   file is refused.
   */
  method LeakRun(blocks: Store, a: Name, b: Name, c: Name)
    returns (fs: SyncFileSystem, free: nat, stale: Result<seq<Byte>>, r: Result<EntryId>)
    requires forall n: nat | n < 4 :: n in blocks
    requires ValidName(a) && ValidName(b) && ValidName(c) && a != b && b != c
    ensures free == 1 && stale == Err(ValidationFailed) && r.Failed?
  {
    hide Good;
    hide Quiet;
    hide SwapRemove;
    hide EntryBlocksFor;
    hide EntryFrees;
    hide EntryLess;
    hide Left;
    assert EntryBlocksFor(0) == 0 && EntryBlocksFor(1) == 0 by { SmallDirectory(); }
    fs := new SyncFileSystem.Format(4, blocks);
    var root := EntryId(ROOT, 1);
    assert NewEntryCheck(4, fs.objs, root, a).Ok?;
    var x := fs.AddDirectoryEntry(root, a, true);
    assert fs.objs.Keys == {ROOT, 2} && fs.objs[ROOT].body.entries == [Entry(x.value, a)];
    assert NewEntryCheck(4, fs.objs, root, b).Ok?;
    var y := fs.AddDirectoryEntry(root, b, true);
    assert fs.objs.Keys == {ROOT, 2, 3} && fs.objs[ROOT].body.entries == [Entry(x.value, a), Entry(y.value, b)];
    ghost var es := fs.objs[ROOT].body.entries;
    assert EntryFrees(2, fs.objs[ROOT].tree) == [] by { SmallFrees(fs.objs[ROOT].tree); }
    var ok, i := fs.Remove(x.value);
    assert ok.Ok? && i == 0;
    assert SwapRemove(es, 0) == [Entry(y.value, b)] by { Swapped(es); }
    assert fs.objs.Keys == {ROOT, 3} && fs.objs[ROOT].body.entries == [Entry(y.value, b)];
    OneLeaked(fs.sb, fs.store, fs.objs, fs.roles, fs.leaked);
    free := fs.sb.freeBlocks;
    stale := fs.Read(x.value, 0, 1);
    assert NewEntryCheck(4, fs.objs, root, c).Ok?;
    r := fs.AddDirectoryEntry(root, c, true);
  }

  lemma SmallDirectory()
    ensures EntryBlocksFor(0) == 0 && EntryBlocksFor(1) == 0
  {
  }

  lemma SmallFrees(t: Tree)
    ensures EntryFrees(2, t) == []
  {
  }

  lemma Swapped(es: seq<Entry>)
    requires |es| == 2
    ensures SwapRemove(es, 0) == [es[1]]
  {
  }

  // ---------------------------------------------------------------------------------------
  // Runs on one file
  // ---------------------------------------------------------------------------------------

  datatype FileOp = WriteAt(offset: nat, buf: seq<Byte>) | Truncate(size: nat)

  /** One call on a plain byte sequence. Refused calls change nothing. */
  function Apply(c: seq<Byte>, op: FileOp): seq<Byte> {
    match op
    case WriteAt(offset, buf) =>
      if offset <= |c| then Written(c, offset, buf[..WriteCount(|c|, offset, |buf|)]) else c
    case Truncate(size) => if size <= |c| then c[..size] else c
  }

  function ApplyAll(c: seq<Byte>, ops: seq<FileOp>): seq<Byte>
    decreases |ops|
  {
    if ops == [] then c else Apply(ApplyAll(c, ops[..|ops| - 1]), ops[|ops| - 1])
  }

  /** A file between two calls: its contents and its blocks, with the superblock. */
  datatype Stage = Stage(sb: Superblock, content: seq<Byte>, tree: Tree)

  /** A call that does not fail: what it writes or cuts, the blocks it takes and where, the blocks it frees. */
  ghost predicate FileStep(s: Stage, op: FileOp, s': Stage) {
    var c := s.content;
    match op
    case WriteAt(offset, buf) =>
      if offset > |c| then s' == s
      else
        && var k := WriteBlocks(|c|, offset, |buf|);
        && Writable(s.sb, |c|, offset, |buf|) && Spends(s.sb, s'.sb, k)
        && s'.content == Apply(c, op) && s'.tree == GrownBy(s.tree, s.sb.emptyAreaStart, k)
    case Truncate(size) =>
      if size > |c| then s' == s
      else
        && Counted(s.tree) && Frees(s.sb, s'.sb, CutFrees(s.tree, DataBlocks(size)))
        && s'.content == Apply(c, op) && s'.tree == CutTree(s.tree, DataBlocks(size))
  }

  /** A write at or below the end that there is no room for. */
  ghost predicate Fails(s: Stage, op: FileOp) {
    op.WriteAt? && op.offset <= |s.content| && !Writable(s.sb, |s.content|, op.offset, |op.buf|)
  }

  ghost predicate FileTrace(trace: seq<Stage>, ops: seq<FileOp>) {
    |trace| == |ops| + 1 && forall k | 0 <= k < |ops| :: FileStep(trace[k], ops[k], trace[k + 1])
  }

  /** Along a trace the file is the plain byte sequence. */
  lemma {:induction false} TraceApplies(trace: seq<Stage>, ops: seq<FileOp>, n: nat)
    requires FileTrace(trace, ops) && n <= |ops|
    ensures trace[n].content == ApplyAll(trace[0].content, ops[..n])
    decreases n
  {
    if n > 0 {
      TraceApplies(trace, ops, n - 1);
      assert ops[..n][..n - 1] == ops[..n - 1];
      assert FileStep(trace[n - 1], ops[n - 1], trace[n]);
    }
  }

  lemma AppliedSoFar(trace: seq<Stage>, ops: seq<FileOp>, n: nat)
    requires n <= |ops| && FileTrace(trace, ops[..n])
    ensures trace[n].content == ApplyAll(trace[0].content, ops[..n])
  {
    TraceApplies(trace, ops[..n], n);
    assert ops[..n][..n] == ops[..n];
  }

  lemma LongerFileTrace(trace: seq<Stage>, ops: seq<FileOp>, n: nat, s: Stage)
    requires n < |ops| && FileTrace(trace, ops[..n]) && FileStep(trace[n], ops[n], s)
    ensures FileTrace(trace + [s], ops[..n + 1])
  {
    hide FileStep;
    var longer, more := trace + [s], ops[..n + 1];
    forall k | 0 <= k < |more| ensures FileStep(longer[k], more[k], longer[k + 1]) {
      if k < n { assert ops[..n][k] == more[k]; }
    }
  }

  ghost function StageOf(fs: SyncFileSystem, m: nat): Stage
    requires m in fs.objs && fs.objs[m].body.File?
    reads fs
  {
    Stage(fs.sb, fs.objs[m].body.content, fs.objs[m].tree)
  }

  /**
   Any run of writes and truncations of one file: up to the first write that there is no room for,
   the file is the plain byte sequence, its blocks are exactly those of the trace, and nothing else
   changed.
   */
  method RunFile(fs: SyncFileSystem, id: EntryId, ops: seq<FileOp>) returns (done: nat, ghost trace: seq<Stage>)
    requires fs.Valid() && IsLive(fs.objs, id) && fs.objs[id.blockNo].body.File?
    modifies fs
    ensures done <= |ops| && FileTrace(trace, ops[..done]) && trace[0] == old(StageOf(fs, id.blockNo))
    ensures trace[done].content == ApplyAll(old(fs.objs[id.blockNo].body.content), ops[..done])
    ensures if done < |ops| then Fails(trace[done], ops[done])
            else
              && fs.Valid() && FileUpdated(old(fs.objs), fs.objs, id.blockNo, trace[done].content)
              && trace[done] == StageOf(fs, id.blockNo)
  {
    hide Good;
    hide Quiet;
    hide FileTrace;
    var m := id.blockNo;
    FileLimits(fs.sb, fs.store, fs.objs, fs.roles, fs.leaked, m);
    SameFile(fs.objs, m);
    done, trace := 0, [StageOf(fs, m)];
    assert FileTrace(trace, ops[..0]) by { NoOps(trace, ops); }
    while done < |ops|
      invariant done <= |ops| && fs.Valid() && |trace| == done + 1 && FileTrace(trace, ops[..done])
      invariant FileUpdated(old(fs.objs), fs.objs, m, trace[done].content)
      invariant trace[0] == old(StageOf(fs, m)) && trace[done] == StageOf(fs, m)
    {
      ghost var objs1, c := fs.objs, trace[done].content;
      ghost var c' := Apply(c, ops[done]);
      AppliedSoFar(trace, ops, done);
      match ops[done] {
        case WriteAt(offset, buf) =>
          var r := fs.Write(id, offset, buf);
          if r.Failed? {
            return;
          }
          if r.Ok? { UpdatedTwice(old(fs.objs), objs1, fs.objs, m, c, c'); }
        case Truncate(size) =>
          var r := fs.SetFileSize(id, size);
          if r.Ok? { UpdatedTwice(old(fs.objs), objs1, fs.objs, m, c, c'); }
      }
      LongerFileTrace(trace, ops, done, StageOf(fs, m));
      trace := trace + [StageOf(fs, m)];
      done := done + 1;
    }
    AppliedSoFar(trace, ops, done);
  }

  lemma NoOps(trace: seq<Stage>, ops: seq<FileOp>)
    requires |trace| == 1
    ensures FileTrace(trace, ops[..0])
  {
  }
}
