/**
 srfs as mounted: the superblock fields, and the device as seen through the block cache. Files
 are byte sequences and directories entry sequences, kept in ghost fields that every operation
 must keep in step with the blocks.
 */
module SrfsFs {
  import opened Arithmetic
  import opened Bytes
  import opened SrfsBlock
  import opened SrfsTree
  import opened SrfsFile
  import opened SrfsDir
  import opened SrfsState
  import opened SrfsSpace
  import opened SrfsTrail
  import opened SrfsFileOps
  import opened SrfsLinks
  import opened SrfsDirOps

  datatype FsError = FsFull | InvalidArgument | ValidationFailed | NotFound | AlreadyExists | TooLarge
  /**
   `Failed`: the file system refuses further work, because an allocation failed inside a
   transaction, an assertion failed, or a directory did not validate during a search.
   */
  datatype Result<T> = Ok(value: T) | Err(error: FsError) | Failed

  datatype BlockType = Metadata | DataBlock | Links | ListOfLinks

  function TxnSlot(sb: Superblock, kind: BlockType): nat {
    match kind
    case Metadata => sb.txnMeta
    case DataBlock => sb.txnData
    case Links => sb.txnLink
    case ListOfLinks => sb.txnLol
  }

  function SetTxnSlot(sb: Superblock, kind: BlockType, b: nat): Superblock {
    match kind
    case Metadata => sb.(txnMeta := b)
    case DataBlock => sb.(txnData := b)
    case Links => sb.(txnLink := b)
    case ListOfLinks => sb.(txnLol := b)
  }

  /** A transaction is open that has not allocated a block of this kind. */
  ghost predicate MayAllocate(sb: Superblock, kind: BlockType) {
    sb.txnOwner != 0 && TxnSlot(sb, kind) == 0
  }

  // ---------------------------------------------------------------------------------------
  // What the file operations promise
  // ---------------------------------------------------------------------------------------

  /** File `m` has new contents; no other file or directory changed. */
  ghost predicate FileUpdated(objs: Objs, objs': Objs, m: nat, c: seq<Byte>) {
    m in objs && m in objs' && objs' == objs[m := objs[m].(body := File(c), tree := objs'[m].tree)]
  }

  lemma UpdatedTwice(objs: Objs, objs1: Objs, objs2: Objs, m: nat, c1: seq<Byte>, c2: seq<Byte>)
    requires FileUpdated(objs, objs1, m, c1) && FileUpdated(objs1, objs2, m, c2)
    ensures FileUpdated(objs, objs2, m, c2)
  {
  }

  lemma SameFile(objs: Objs, m: nat)
    requires m in objs && objs[m].body.File?
    ensures FileUpdated(objs, objs, m, objs[m].body.content)
  {
    assert objs[m] == objs[m].(body := File(objs[m].body.content), tree := objs[m].tree);
  }

  /** The count that `write` returns. */
  function WriteCount(size: nat, offset: nat, len: nat): nat
    requires offset <= size
  {
    if offset == size then (if size + len <= MAX_IN_META then len else Min(len, 4096 - size % 4096))
    else if size <= MAX_IN_META then Min(len, size - offset)
    else Min(len, 4096 - offset % 4096)
  }

  /** The count that `read` returns. */
  function ReadCount(size: nat, offset: nat, len: nat): nat {
    if offset >= size then 0
    else if size <= MAX_IN_META then Min(len, size - offset)
    else Min(len, 4096 - offset % 4096)
  }

  /**
   Whether a read may return `n` bytes: no more than the buffer holds or than is left of the block of
   the offset, none from the end on, and none past the end in a metadata block.
   */
  predicate MayRead(size: nat, offset: nat, len: nat, n: nat) {
    n == 0 || (n <= len && offset % 4096 + n <= 4096 && offset < size && (size <= MAX_IN_META ==> offset + n <= size))
  }

  /**
   Whether a write may take `n` bytes: no more than there are or than is left of the block of the
   offset, and none past the end of a file that is overwritten in its metadata block.
   */
  predicate MayWrite(size: nat, offset: nat, len: nat, n: nat) {
    n <= len && offset % 4096 + n <= 4096 && (offset < size <= MAX_IN_META ==> offset + n <= size)
  }

  /** read and write take as many bytes as they may. */
  lemma CountsAreLargest(size: nat, offset: nat, len: nat, n: nat)
    ensures MayRead(size, offset, len, n) <==> n <= ReadCount(size, offset, len)
    ensures offset <= size ==> (MayWrite(size, offset, len, n) <==> n <= WriteCount(size, offset, len))
  {
  }

  /** The blocks that data block `n` of a file takes, with the link blocks it needs. */
  function BlocksFor(n: nat): nat {
    1 + (if NewLink(n) then 1 else 0) + if NewLol(n) then 1 else 0
  }

  lemma GrownSome(t: Tree, e: nat, n: nat)
    ensures GrownBy(t, e, BlocksFor(n)) == Grown(t, e, e + 1, e + 2) && BlocksFor(n) >= 1
  {
  }

  lemma OneBlock()
    ensures BlocksFor(0) == 1
  {
  }

  /** The blocks that `write` must allocate. */
  function WriteBlocks(size: nat, offset: nat, len: nat): nat {
    if offset < size || size + len <= MAX_IN_META then 0
    else if size <= MAX_IN_META then 1
    else if size % 4096 != 0 then 0
    else BlocksFor(size / 4096)
  }

  /**
   Whether `write` at or below the size succeeds, with `free` blocks left: it must not be an empty
   write at the end of a file with data blocks, nor pass the largest file, and its blocks must be
   there.
   */
  predicate Fits(free: int, size: nat, offset: nat, len: nat) {
    && !(len == 0 && offset == size && size > MAX_IN_META)
    && !(offset == size == MAX_FILE)
    && WriteBlocks(size, offset, len) <= free
  }

  ghost predicate Writable(sb: Superblock, size: nat, offset: nat, len: nat) {
    Fits(FreeBlocks(sb), size, offset, len)
  }

  /**
   What `write` answers and does. An id that does not name a file is refused, and an offset past
   the end; else the file is the plain byte sequence with the same overwrite or append.
   */
  ghost predicate WriteResult(
    sb: Superblock, objs: Objs, sb': Superblock, objs': Objs, id: EntryId, offset: nat, buf: seq<Byte>, r: Result<nat>)
  {
    if id.generation % 2 == 1 then r == Err(InvalidArgument)
    else if !IsLive(objs, id) then r == Err(ValidationFailed)
    else
      && objs[id.blockNo].body.File?
      && var c := objs[id.blockNo].body.content;
      && (if offset > |c| then r == Err(InvalidArgument) else !r.Err?)
      && (r.Ok? <==> offset <= |c| && Writable(sb, |c|, offset, |buf|))
      && (r.Ok? ==>
            && r.value == WriteCount(|c|, offset, |buf|) && Spends(sb, sb', WriteBlocks(|c|, offset, |buf|))
            && FileUpdated(objs, objs', id.blockNo, Written(c, offset, buf[..r.value]))
            && objs'[id.blockNo].tree
               == GrownBy(objs[id.blockNo].tree, sb.emptyAreaStart, WriteBlocks(|c|, offset, |buf|)))
  }

  ghost predicate AppendResult(
    sb: Superblock, objs: Objs, sb': Superblock, objs': Objs, m: nat, buf: seq<Byte>, r: Result<nat>)
    requires m in objs && objs[m].body.File?
  {
    var c := objs[m].body.content;
    && !r.Err? && (r.Ok? <==> Writable(sb, |c|, |c|, |buf|))
    && (r.Ok? ==>
          && r.value == WriteCount(|c|, |c|, |buf|) && Spends(sb, sb', WriteBlocks(|c|, |c|, |buf|))
          && FileUpdated(objs, objs', m, c + buf[..r.value])
          && objs'[m].tree == GrownBy(objs[m].tree, sb.emptyAreaStart, WriteBlocks(|c|, |c|, |buf|)))
  }

  /** File `m` has lost its last data block, and the link blocks that only that one needed. */
  ghost predicate BlockDropped(sb: Superblock, objs: Objs, sb': Superblock, objs': Objs, m: nat, c: seq<Byte>) {
    && FileUpdated(objs, objs', m, c) && objs[m].tree.data != [] && Counted(objs[m].tree)
    && objs'[m].tree == Shrunk(objs[m].tree) && Frees(sb, sb', BlockFrees(objs[m].tree))
  }

  /** The blocks that an open transaction has marked for freeing, as they are freed. */
  function Marked(sb: Superblock): seq<nat> {
    (if sb.txnLink != 0 then [sb.txnLink] else []) + if sb.txnData != 0 then [sb.txnData] else []
  }

  /** Data block number `n` of a directory of `num` entries, one more to come. */
  function EntryBlocksFor(num: nat): nat {
    if num < 14 || (num > 14 && num % 15 != 0) then 0 else BlocksFor(num / 15)
  }

  /** The blocks that one more entry in directory `d` takes. */
  ghost function NextEntryBlocks(objs: Objs, d: nat): nat
    requires d in objs && objs[d].body.Dir?
  {
    EntryBlocksFor(|objs[d].body.entries|)
  }

  /** Directory `m` has one more entry, and the blocks for it at `at`. */
  ghost predicate EntryPlaced(at: nat, objs: Objs, objs': Objs, m: nat, e: Entry) {
    && m in objs && objs[m].body.Dir? && DirUpdated(objs, objs', m, objs[m].body.entries + [e])
    && objs'[m].tree == GrownBy(objs[m].tree, at, NextEntryBlocks(objs, m))
  }

  /** Directory `p` has these entries instead, in the same blocks. */
  ghost predicate Renamed(objs: Objs, objs': Objs, p: nat, es: seq<Entry>) {
    p in objs && objs' == objs[p := objs[p].(body := Dir(es))]
  }

  /** Object `k` has moved from directory `p` to `q`, which got the blocks for its entry at `at`. */
  ghost predicate MovedTo(at: nat, objs: Objs, objs': Objs, p: nat, i: nat, q: nat, k: nat, name: Name)
    requires p in objs && q in objs && k in objs && p != q && objs[p].body.Dir? && objs[q].body.Dir?
    requires i < |objs[p].body.entries|
  {
    && var s := MovedObjs(objs, p, i, q, k, name);
    && Counted(objs[p].tree)
    && objs' == s[q := s[q].(tree := GrownBy(objs[q].tree, at, NextEntryBlocks(objs, q)))]
                 [p := s[p].(tree := EntryLess(|objs[p].body.entries|, objs[p].tree))]
  }

  lemma MovedExactly(
    at: nat, objs: Objs, objs1: Objs, objs2: Objs, objs3: Objs, p: nat, i: nat, q: nat, k: nat, name: Name)
    requires p in objs && q in objs && k in objs && p != q && objs[p].body.Dir? && objs[q].body.Dir?
    requires i < |objs[p].body.entries| && objs1 == objs[k := objs[k].(parent := IdOf(objs, q))]
    requires EntryPlaced(at, objs1, objs2, q, Entry(IdOf(objs, k), name))
    requires DirUpdated(objs2, objs3, p, SwapRemove(objs[p].body.entries, i)) && Counted(objs[p].tree)
    requires objs3[p].tree == EntryLess(|objs[p].body.entries|, objs[p].tree)
    ensures MovedTo(at, objs, objs3, p, i, q, k, name)
  {
    hide SwapRemove;
    hide EntryBlocksFor;
    hide Counted;
    hide EntryLess;
    hide GrownBy;
  }

  /** The fields of an open transaction that its steps leave alone; blocks come from the empty area. */
  ghost predicate TxnKept(sb: Superblock, sb': Superblock) {
    && sb'.numBlocks == sb.numBlocks && sb'.generation == sb.generation && sb'.txnMeta == sb.txnMeta
    && sb'.txnOwner == sb.txnOwner && sb'.txnType == sb.txnType && sb'.txnLol == sb.txnLol
    && sb'.freeBlocks + sb'.emptyAreaStart == sb.freeBlocks + sb.emptyAreaStart
  }

  const DOT: Byte := 46

  /** validate_filename. */
  predicate ValidName(name: Name) {
    |name| <= 255 && SLASH !in name && name != [DOT] && name != [DOT, DOT]
  }

  /** The generation of the next file or directory: even for files, odd for directories. */
  function NextGeneration(g: nat, isFile: bool): (r: nat)
    ensures g < r <= g + 2 && (isFile <==> r % 2 == 0)
  {
    if isFile == ((g + 1) % 2 == 0) then g + 1 else g + 2
  }

  /** What validate_new_entry answers for directory `id` and a new name, on a device of `n` blocks. */
  ghost function NewEntryCheck(n: nat, objs: Objs, id: EntryId, name: Name): Result<()> {
    if !ValidName(name) || !(1 <= id.blockNo < n) then Err(InvalidArgument)
    else if id.generation % 2 == 0 || !IsLive(objs, id) || !objs[id.blockNo].body.Dir? then Failed
    else
      var es := objs[id.blockNo].body.entries;
      if exists i :: 0 <= i < |es| && es[i].name == name then Err(AlreadyExists)
      else if |es| == MAX_DIR_ENTRIES then Err(TooLarge)
      else Ok(())
  }

  // ---------------------------------------------------------------------------------------
  // Ids of removed objects
  // ---------------------------------------------------------------------------------------

  /**
   The id of a removed object that `validate` still accepts, on a block that nothing uses: an empty
   directory, or a file in its metadata block.
   */
  ghost predicate Left(store: Store, roles: Roles, id: EntryId) {
    && id.blockNo in store && id.blockNo !in roles && Accepts(store, id)
    && Word(store[id.blockNo], 4) <= if id.generation % 2 == 0 then MAX_IN_META else 0
  }

  /** What such a file seems to hold. */
  ghost function LeftBytes(store: Store, id: EntryId): seq<Byte>
    requires id.blockNo in store && Word(store[id.blockNo], 4) <= MAX_IN_META
  {
    store[id.blockNo][META_BYTES..META_BYTES + Word(store[id.blockNo], 4)]
  }

  /** A write to a block that nothing uses changes no file and no directory. */
  lemma UnusedWritten(
    sb: Superblock, store: Store, objs: Objs, roles: Roles, leaked: set<nat>, m: nat, b: Block)
    requires Good(sb, store, objs, roles, leaked) && m !in roles
    ensures Good(sb, store[m := b], objs, roles, leaked)
  {
    hide Linked;
    hide Generations;
    hide AllocOk;
    UnusedChanged(store, store[m := b], objs, roles);
    hide AllHeld;
  }

  /** Such a file as an object in its metadata block. */
  ghost function LeftObj(store: Store, id: EntryId): Obj
    requires id.blockNo in store && Word(store[id.blockNo], 4) <= MAX_IN_META
  {
    Obj(id.generation, EntryId(Word(store[id.blockNo], 2), Word(store[id.blockNo], 3)), EMPTY,
        File(LeftBytes(store, id)))
  }

  /** A write to it, and a cut. */
  lemma LeftWritten(store: Store, roles: Roles, id: EntryId, at: nat, s: seq<Byte>)
    requires Left(store, roles, id) && id.generation % 2 == 0 && at <= |LeftBytes(store, id)|
    requires at + |s| <= MAX_IN_META && (at < |LeftBytes(store, id)| ==> at + |s| <= |LeftBytes(store, id)|)
    ensures var m, c' := id.blockNo, Written(LeftBytes(store, id), at, s);
            var store' := store[m := Paste(SetWord(store[m], 4, |c'|), META_BYTES + at, s)];
            Left(store', roles, id) && LeftBytes(store', id) == c'
  {
    hide Word;
    hide SetWord;
    hide Paste;
    WrittenInMeta(store, id.blockNo, LeftObj(store, id), LeftBytes(store, id), at, s);
  }

  lemma LeftCut(store: Store, roles: Roles, id: EntryId, size: nat)
    requires Left(store, roles, id) && id.generation % 2 == 0 && size <= |LeftBytes(store, id)|
    ensures var store' := store[id.blockNo := SetWord(store[id.blockNo], 4, size)];
            Left(store', roles, id) && LeftBytes(store', id) == LeftBytes(store, id)[..size]
  {
    hide Word;
    hide SetWord;
    var b, o := store[id.blockNo], LeftObj(store, id);
    var c := LeftBytes(store, id);
    var b' := SetWord(b, 4, size);
    SizeSet(b, b, id.blockNo, o, o.(body := File(c[..size])));
    assert b[META_BYTES..] == b[META_BYTES..4096] && b'[META_BYTES..] == b'[META_BYTES..4096];
    SliceSlice(b, META_BYTES, 4096, 0, size);
    SliceSlice(b', META_BYTES, 4096, 0, size);
    SliceSlice(b, META_BYTES, META_BYTES + |c|, 0, size);
  }

  /** A write to such an id that stays in the metadata block. */
  ghost predicate LeftWrite(store: Store, roles: Roles, id: EntryId, offset: nat, buf: seq<Byte>) {
    && Left(store, roles, id)
    && (id.generation % 2 == 0 && offset == |LeftBytes(store, id)| ==> offset + |buf| <= MAX_IN_META)
  }

  /** It counts the bytes that no file has. */
  ghost predicate LeftResult(
    store: Store, store': Store, roles: Roles, id: EntryId, offset: nat, buf: seq<Byte>, r: Result<nat>)
  {
    && Left(store, roles, id)
    && if id.generation % 2 == 1 || offset > |LeftBytes(store, id)| then r == Err(InvalidArgument)
       else
         && r == Ok(WriteCount(|LeftBytes(store, id)|, offset, |buf|)) && Left(store', roles, id)
         && LeftBytes(store', id) == Written(LeftBytes(store, id), offset, buf[..r.value])
  }

  lemma GoodRange(sb: Superblock, store: Store, objs: Objs, roles: Roles, leaked: set<nat>)
    requires Good(sb, store, objs, roles, leaked)
    ensures sb.emptyAreaStart <= sb.numBlocks
  {
  }

  lemma UsedBelow(sb: Superblock, roles: Roles, leaked: set<nat>, b: nat)
    requires AllocOk(sb, roles, leaked) && b in roles
    ensures b < sb.emptyAreaStart
  {
  }

  lemma RootReady(sb: Superblock, blocks: Store)
    requires forall b: nat | b < sb.numBlocks :: b in blocks
    ensures var device := blocks[ROOT := MetaBlock(ZERO, EntryId(ROOT, 1), EntryId(ROOT, 1))];
            Stored(device, sb) && HeaderOk(device[ROOT], ROOT, ROOT_OBJ)
  {
    hide MetaBlock;
    hide HeaderOk;
    MetaBlockOk(ZERO, ROOT_OBJ, ROOT);
  }

  class SyncFileSystem {
    var sb: Superblock
    var store: Store
    ghost var objs: Objs
    ghost var roles: Roles
    ghost var leaked: set<nat>
    /** The accesses to the block cache. */
    ghost var trail: Trail

    ghost predicate Valid()
      reads this
    {
      Good(sb, store, objs, roles, leaked) && Quiet(trail)
    }

    /** Nothing is changed, though blocks may have been looked at. */
    twostate predicate Same()
      reads this
    {
      unchanged(`sb, `store, `objs, `roles, `leaked)
    }

    /**
     An id that `validate` refuses, or that names a block that belongs to a file or directory now.
     The ids of removed objects that `validate` still accepts are those of `Left`.
     */
    ghost predicate Known(id: EntryId)
      reads this
    {
      id.blockNo in objs || (id.blockNo in store && !Accepts(store, id))
    }

    /** format, then open_fs, on a device of `numBlocks` blocks with any contents. */
    constructor Format(numBlocks: nat, blocks: Store)
      requires 3 <= numBlocks < U64_LIMIT - 1 && forall b: nat | b < numBlocks :: b in blocks
      ensures Valid()
      ensures objs == map[ROOT := ROOT_OBJ] && sb.numBlocks == numBlocks && sb.emptyAreaStart == 2 && sb.generation == 1
      ensures leaked == {} && trail == START
    {
      hide Good;
      hide HeaderOk;
      hide MetaBlock;
      var super := Superblock(numBlocks, numBlocks - 2, 1, 0, 2, 0, 0, 0, 0, 0, TxnNone);
      var device := blocks[ROOT := MetaBlock(ZERO, EntryId(ROOT, 1), EntryId(ROOT, 1))];
      RootReady(super, blocks);
      Formatted(super, device);
      sb, store := super, device;
      objs := map[ROOT := ROOT_OBJ];
      roles := map[ROOT := Use(ROOT, Meta)];
      leaked, trail := {}, START;
    }

    // -------------------------------------------------------------------------------------
    // Accesses to the cache
    // -------------------------------------------------------------------------------------

    /** get_block_uninit and write of block `b`, while `m` is among the last blocks looked at. */
    ghost method FillAccess(b: nat, m: nat, n: nat)
      requires Quiet(trail) && Near(trail, m, n)
      modifies this`trail
      ensures Onward(old(trail), trail)
      ensures Quiet(trail) && Near(trail, m, n + 2)
    {
      trail := Filled(trail, b);
    }

    ghost method LookAccess(m: nat)
      requires Quiet(trail)
      modifies this`trail
      ensures Onward(old(trail), trail)
      ensures Quiet(trail) && Near(trail, m, 2) && Answered(trail)
    {
      trail := Seen(trail, m);
    }

    /** read_mut and write of block `b`. */
    ghost method ReadRewriteAccess(b: nat, m: nat, n: nat)
      requires Quiet(trail) && Near(trail, m, n)
      modifies this`trail
      ensures Onward(old(trail), trail)
      ensures Quiet(trail) && Near(trail, m, n + 2)
    {
      trail := ReadRewritten(trail, b);
    }

    ghost method ReadAccess(b: nat, m: nat, n: nat)
      requires Quiet(trail) && Near(trail, m, n)
      modifies this`trail
      ensures Onward(old(trail), trail)
      ensures Quiet(trail) && Near(trail, m, n + 1) && Near(trail, b, 0)
    {
      trail := Seen(trail, b);
    }

    ghost method GetAccess(m: nat, n: nat)
      requires Quiet(trail) && Near(trail, m, n) && n <= 15
      modifies this`trail
      ensures Onward(old(trail), trail)
      ensures Quiet(trail) && Near(trail, m, 0)
    {
      trail := Got(trail, m);
    }

    /** get_mut and write of block `m`. */
    ghost method RewriteAccess(m: nat, n: nat)
      requires Quiet(trail) && Near(trail, m, n) && n <= 15
      modifies this`trail
      ensures Onward(old(trail), trail)
      ensures Quiet(trail) && Near(trail, m, 0)
    {
      trail := Rewritten(trail, m);
    }

    /** The same where the block may be dirty already. */
    ghost method FinishAccess(m: nat)
      requires Settled(trail, m, 12)
      modifies this`trail
      ensures Onward(old(trail), trail)
      ensures Quiet(trail)
    {
      trail := Rewritten(trail, m);
    }

    /** The accesses that give a directory one entry less, by way of `source` where the layout changes. */
    ghost method DropAccess(m: nat, source: nat, again: bool)
      requires Quiet(trail) && Near(trail, m, 6) && (again ==> Near(trail, source, 6))
      modifies this`trail
      ensures Onward(old(trail), trail)
      ensures Quiet(trail)
    {
      if again {
        trail := GotMut(Got(trail, source), m);
      }
      trail := Rewritten(trail, m);
    }

    /** The same inside the metadata block. */
    ghost method DropHere(m: nat, moved: bool)
      requires Quiet(trail) && Near(trail, m, 0)
      modifies this`trail
      ensures Onward(old(trail), trail)
      ensures Quiet(trail)
    {
      if moved {
        trail := GotMut(trail, m);
      }
      trail := Rewritten(trail, m);
    }

    /** The last entry copied over the removed one. */
    ghost method HoleAccess(m: nat, linked: bool, l: nat, moved: bool, last: nat, b: nat)
      requires Quiet(trail) && Near(trail, m, 0) && Near(trail, b, 1)
      modifies this`trail
      ensures Onward(old(trail), trail)
      ensures Quiet(trail) && Near(trail, m, 6) && Near(trail, b, 6) && (linked ==> Near(trail, l, 6))
    {
      if linked {
        trail := Seen(trail, l);
      }
      if moved {
        trail := ReadRewritten(Seen(trail, last), b);
      }
    }

    /** The new parent stored, and a look at the block. */
    ghost method MoveAccess(k: nat, q: nat)
      requires Quiet(trail) && Near(trail, k, 0) && Near(trail, q, 1)
      modifies this`trail
      ensures Onward(old(trail), trail)
      ensures Quiet(trail) && Near(trail, q, 6)
    {
      trail := Seen(Rewritten(trail, k), k);
    }

    /** The reads of a debug build in the middle of move_rename. */
    ghost method CheckAccess(k: nat, p: nat, q: nat)
      requires Quiet(trail)
      modifies this`trail
      ensures Onward(old(trail), trail)
      ensures Quiet(trail)
    {
      trail := Seen(Seen(Seen(Seen(trail, k), p), q), k);
    }

    /** The entries copied to a new data block. */
    ghost method SpillAccess(m: nat, d: nat)
      requires Quiet(trail) && Near(trail, m, 0)
      modifies this`trail
      ensures Onward(old(trail), trail)
      ensures Quiet(trail)
    {
      trail := Rewritten(Filled(Got(trail, m), d), m);
    }

    /** An entry put in a data block, found by way of a link block or not. */
    ghost method EntryAccess(m: nat, linked: bool, l: nat, d: nat)
      requires Quiet(trail) && Near(trail, m, 0)
      modifies this`trail
      ensures Onward(old(trail), trail)
      ensures Quiet(trail)
    {
      trail := Got(trail, m);
      if linked {
        trail := Seen(trail, l);
      }
      trail := Rewritten(ReadRewritten(trail, d), m);
    }

    /** The accesses of the same round for a small file. */
    ghost method UnspillAccess(m: nat, d: nat, again: bool)
      requires Quiet(trail) && Near(trail, m, 2)
      modifies this`trail
      ensures Onward(old(trail), trail)
      ensures Quiet(trail)
    {
      trail := Rewritten(Got(trail, m), m);
      if again {
        trail := Rewritten(Seen(trail, d), m);
      }
    }

    /** A new link block, and perhaps a list of links before the metadata block is changed. */
    ghost method LinkAccesses(m: nat, l: nat, lol: bool, q: nat, look: bool)
      requires Quiet(trail) && Near(trail, m, 6)
      modifies this`trail
      ensures Onward(old(trail), trail)
      ensures Settled(trail, m, 12)
    {
      if lol {
        trail := Filled(trail, l);
      }
      if look {
        trail := Got(trail, m);
      }
      trail := GotMut(Filled(trail, if lol then q else l), m);
    }

    /** The accesses of one round of set_file_size to the metadata block, by way of these blocks. */
    ghost method CutAccesses(m: nat, links: seq<nat>, source: nat, again: bool)
      requires Quiet(trail) && Near(trail, m, 2) && |links| <= 2 && (again ==> source in links)
      modifies this`trail
      ensures Onward(old(trail), trail)
      ensures Quiet(trail)
    {
      trail := Got(trail, m);
      if |links| == 2 {
        trail := Seen(trail, links[0]);
      }
      if links != [] {
        trail := Seen(trail, links[|links| - 1]);
      }
      trail := Rewritten(trail, m);
      if again {
        trail := Rewritten(Got(trail, source), m);
      }
    }

    // -------------------------------------------------------------------------------------
    // Transactions and blocks
    // -------------------------------------------------------------------------------------

    method StartTxn(ty: TxnType, owner: nat)
      requires NoTxn(sb)
      modifies this`sb
      ensures sb == old(sb).(txnOwner := owner, txnType := ty)
      ensures AllocOk(old(sb), roles, leaked) ==> AllocOk(sb, roles, leaked)
    {
      sb := sb.(txnOwner := owner, txnType := ty);
    }

    method CommitTxn()
      modifies this`sb
      ensures NoTxn(sb) && (AllocOk(old(sb), roles, leaked) ==> AllocOk(sb, roles, leaked))
      ensures sb == old(sb).(txnMeta := 0, txnData := 0, txnLink := 0, txnLol := 0, txnOwner := 0, txnType := TxnNone)
    {
      sb := sb.(txnMeta := 0, txnData := 0, txnLink := 0, txnLol := 0, txnOwner := 0, txnType := TxnNone);
    }

    /** allocate_txn_block, with the freelist branch that `freelistHead == 0` keeps from running. */
    method AllocateRaw(kind: BlockType) returns (r: Result<nat>)
      requires MayAllocate(sb, kind) && Stored(store, sb)
      requires sb.freelistHead < sb.numBlocks && sb.emptyAreaStart > 0
      modifies this`sb
      ensures r == Err(FsFull) <==> old(sb.freeBlocks) == 0
      ensures sb.freelistHead < sb.numBlocks == old(sb.numBlocks)
      ensures old(sb.freelistHead) == 0 ==>
                && (r.Ok? <==> old(sb.freeBlocks) > 0 && old(sb.emptyAreaStart) < sb.numBlocks)
                && (r.Ok? ==>
                      && r.value == old(sb.emptyAreaStart)
                      && sb == SetTxnSlot(old(sb).(emptyAreaStart := r.value + 1,
                                                   freeBlocks := old(sb.freeBlocks) - 1), kind, r.value))
    {
      if sb.freeBlocks == 0 {
        return Err(FsFull);
      }
      var b: nat;
      if sb.freelistHead == 0 {
        b := sb.emptyAreaStart;
        sb := sb.(emptyAreaStart := b + 1);
      } else {
        b := sb.freelistHead;
        var next := Word(store[b], 0);
        if next >= sb.numBlocks {
          return Err(ValidationFailed);
        }
        sb := sb.(freelistHead := next);
      }
      if b >= sb.numBlocks {
        return Err(ValidationFailed);
      }
      sb := SetTxnSlot(sb.(freeBlocks := sb.freeBlocks - 1), kind, b);
      return Ok(b);
    }

    /**
     In every reachable state an allocation takes the first block of the empty area, which no
     object uses, and fails exactly when that area is exhausted: with FsFull if nothing was
     leaked, with an error otherwise.
     */
    method Allocate(kind: BlockType, ghost use: Use) returns (r: Result<nat>)
      requires MayAllocate(sb, kind) && Stored(store, sb) && AllocOk(sb, roles, leaked)
      modifies this`sb, this`roles
      ensures sb.numBlocks == old(sb.numBlocks) && (r.Ok? <==> old(sb.emptyAreaStart) < sb.numBlocks)
      ensures r == Err(FsFull) <==> old(sb.emptyAreaStart) == old(sb.numBlocks) && leaked == {}
      ensures r.Ok? ==>
                && r.value == old(sb.emptyAreaStart) && r.value !in old(roles) && r.value !in leaked
                && r.value in store && r.value < U64_LIMIT
                && roles == old(roles)[r.value := use] && AllocOk(sb, roles, leaked)
                && sb == SetTxnSlot(old(sb).(emptyAreaStart := r.value + 1, freeBlocks := old(sb.freeBlocks) - 1),
                                    kind, r.value)
    {
      assert |leaked| == 0 <==> leaked == {};
      r := AllocateRaw(kind);
      if r.Ok? {
        roles := roles[r.value := use];
        forall b | 1 <= b < sb.emptyAreaStart ensures Accounted(b, roles, leaked) {
          assert b < r.value ==> Accounted(b, old(roles), leaked);
        }
      }
    }

    /**
     free_txn_block. A block at the end of the used area goes back to the empty area; any other
     is written as the head of a free list that freelist_head never points to.
     */
    method Free(kind: BlockType)
      requires AllocOk(sb, roles, leaked) && Stored(store, sb)
      requires TxnSlot(sb, kind) in roles && TxnSlot(sb, kind) != ROOT && Quiet(trail)
      modifies this`sb, this`store, this`roles, this`leaked, this`trail
      ensures Onward(old(trail), trail)
      ensures AllocOk(sb, roles, leaked) && Stored(store, sb) && sb.generation == old(sb.generation)
      ensures sb.numBlocks == old(sb.numBlocks) && Quiet(trail)
      ensures var b := TxnSlot(old(sb), kind);
              && roles == old(roles) - {b}
              && (forall x | x in old(store) && x != b :: x in store && store[x] == old(store)[x])
              && (if b + 1 == old(sb.emptyAreaStart)
                  then leaked == old(leaked) && sb.emptyAreaStart == b
                  else leaked == old(leaked) + {b} && sb.emptyAreaStart == old(sb.emptyAreaStart))
              && Abandoned(old(store), store, sb, b)
              && sb == SetTxnSlot(old(sb), kind, 0).(freeBlocks := old(sb.freeBlocks) + 1,
                                                     emptyAreaStart := sb.emptyAreaStart)
    {
      hide Answered;
      hide Word;
      hide SetWord;
      var b := TxnSlot(sb, kind);
      if sb.emptyAreaStart == b + 1 {
        sb := sb.(emptyAreaStart := sb.emptyAreaStart - 1);
      } else {
        var junk: Block := *;
        trail := Filled(trail, b);
        WordOfSet(junk, 0, 0, 0);
        store := store[b := SetWord(junk, 0, sb.freelistHead)];
        leaked := leaked + {b};
      }
      roles := roles - {b};
      sb := SetTxnSlot(sb, kind, 0).(freeBlocks := sb.freeBlocks + 1);
      forall x | 1 <= x < sb.emptyAreaStart ensures Accounted(x, roles, leaked) {
        assert Accounted(x, old(roles), old(leaked));
      }
    }

    // -------------------------------------------------------------------------------------
    // Linking a new data block to a file
    // -------------------------------------------------------------------------------------

    /** The part of append for files up to about 2M: a word of the metadata block. */
    method LinkDirect(m: nat, prevSize: nat, d: nat, ghost t: Tree)
      requires TreeOk(store, m, t) && prevSize == 4096 * |t.data| && |t.data| < MAX_DIRECT && d in store
      requires d < U64_LIMIT && Settled(trail, m, 12)
      modifies this`store, this`trail
      ensures Onward(old(trail), trail)
      ensures Settled(trail, m, 12)
      ensures store.Keys == old(store.Keys) && TreeOk(store, m, Grown(t, d, 0, 0))
      ensures SameHeader(old(store)[m], store[m])
      ensures forall b | b in store && b != m :: store[b] == old(store)[b]
    {
      hide Word;
      var idx := prevSize / 4096;
      trail := GotMut(trail, m);
      var mb := SetWord(store[m], 16 + idx, d);
      SetWordBut(store[m], 16 + idx, d);
      GrowDirect(store, m, t, d, mb);
      store := store[m := mb];
    }

    /** A new link block `l` for data block `d`, listed in the metadata block. */
    method PutNewLink(m: nat, prevSize: nat, d: nat, l: nat, ghost t: Tree, ghost roles0: Roles)
      requires TreeOk(store, m, t) && Owns(roles0, m, t) && d in store && d < U64_LIMIT
      requires prevSize == 4096 * |t.data| && MAX_DIRECT <= |t.data| < MAX_SINGLE && NewLink(|t.data|)
      requires l in store && l !in roles0 && l < U64_LIMIT && Quiet(trail) && Near(trail, m, 6)
      modifies this`store, this`trail
      ensures Onward(old(trail), trail)
      ensures Settled(trail, m, 12)
      ensures store.Keys == old(store.Keys) && TreeOk(store, m, Grown(t, d, l, l + 1))
      ensures LinkFrame(old(store), store, roles0, m) && SameHeader(old(store)[m], store[m])
    {
      hide Quiet;
      hide Near;
      hide Settled;
      hide Word;
      ghost var n := |t.data|;
      Shifts(prevSize);
      CountsGrow(n);
      var linkIdx := prevSize / 2097152;
      var lb, mb;
      if prevSize == 2031616 {
        var junk: Block := *;
        lb := SetWord(Paste(junk, 0, store[m][META_BYTES..]), 496, d);
        mb := SetWord(store[m], 16 + linkIdx, l);
        LinksAndOne(junk, store[m], d);
        SetWordBut(store[m], 16 + linkIdx, l);
        GrowFirstLink(store, m, t, d, l, lb, mb);
      } else {
        var junk: Block := *;
        lb := SetWord(junk, 0, d);
        mb := SetWord(store[m], 16 + linkIdx, l);
        SetWordBut(junk, 0, d);
        SetWordBut(store[m], 16 + linkIdx, l);
        GrowLink(store, roles0, m, t, d, l, lb, mb);
      }
      hide TreeOk;
      LinkAccesses(m, l, false, 0, prevSize == 2031616);
      store := store[l := lb];
      store := store[m := mb];
    }

    /** The next word of the last link block. */
    method PutInLink(m: nat, prevSize: nat, d: nat, l: nat, ghost t: Tree)
      requires TreeOk(store, m, t) && Owns(roles, m, t) && d in store && d < U64_LIMIT
      requires prevSize == 4096 * |t.data| && MAX_DIRECT < |t.data| < MAX_DOUBLE && !NewLink(|t.data|)
      requires |t.data| / 512 < |t.links| && l == t.links[|t.data| / 512]
      requires Quiet(trail) && Near(trail, m, 10)
      modifies this`store, this`trail
      ensures Onward(old(trail), trail)
      ensures Settled(trail, m, 12)
      ensures store.Keys == old(store.Keys) && forall x, y :: TreeOk(store, m, Grown(t, d, x, y))
      ensures LinkFrame(old(store), store, roles, m) && SameHeader(old(store)[m], store[m])
    {
      hide Word;
      Shifts(prevSize);
      assert OwnsLink(roles, m, t, |t.data| / 512);
      var k := prevSize % 2097152 / 4096;
      SetWordBut(store[l], k, d);
      GrowInLink(store, roles, m, t, d, SetWord(store[l], k, d));
      hide TreeOk;
      CountsGrow(|t.data|);
      trail := ReadRewritten(trail, l);
      store := store[l := SetWord(store[l], k, d)];
      assert forall x, y :: Grown(t, d, x, y) == Grown(t, d, 0, 0);
    }

    /** The part of append for files up to about 1G: one level of link blocks. */
    method LinkSingle(m: nat, prevSize: nat, d: nat, ghost t: Tree) returns (ok: bool)
      requires AllocOk(sb, roles, leaked) && Stored(store, sb) && sb.txnOwner != 0 && sb.txnLink == 0
      requires TreeOk(store, m, t) && Owns(roles, m, t) && d in store && d < U64_LIMIT
      requires prevSize == 4096 * |t.data| && MAX_DIRECT <= |t.data| < MAX_SINGLE
      requires Quiet(trail) && Near(trail, m, 6)
      modifies this`sb, this`store, this`roles, this`trail
      ensures Onward(old(trail), trail)
      ensures sb.numBlocks == old(sb.numBlocks) && Settled(trail, m, 12)
      ensures var l, k := old(sb.emptyAreaStart), if NewLink(|t.data|) then 1 else 0;
              && (ok <==> l + k <= sb.numBlocks)
              && (ok ==>
                    && AllocOk(sb, roles, leaked) && store.Keys == old(store.Keys)
                    && TreeOk(store, m, Grown(t, d, l, l + 1)) && roles == LinkRoles(old(roles), m, t, l, l + 1)
                    && LinkFrame(old(store), store, old(roles), m) && SameHeader(old(store)[m], store[m])
                    && sb == old(sb).(emptyAreaStart := l + k, freeBlocks := sb.freeBlocks, txnLink := sb.txnLink)
                    && sb.freeBlocks + k == old(sb.freeBlocks))
    {
      hide Answered;
      hide Word;
      ghost var n := |t.data|;
      Shifts(prevSize);
      CountsGrow(n);
      if prevSize % 2097152 == 0 || prevSize == 2031616 {
        var r := Allocate(Links, Use(m, Link(|t.links|)));
        ok := r.Ok?;
        if ok {
          PutNewLink(m, prevSize, d, r.value, t, old(roles));
        }
      } else {
        ok := true;
        Route(store, m, t, n - 1);
        trail := Got(trail, m);
        var l := Word(store[m], 16 + prevSize / 2097152);
        PutInLink(m, prevSize, d, l, t);
      }
    }

    /** A new link block `l` in a new list of links `q`. */
    method PutNewLol(m: nat, prevSize: nat, d: nat, l: nat, q: nat, ghost t: Tree, ghost roles0: Roles)
      requires TreeOk(store, m, t) && Owns(roles0, m, t) && d in store && d < U64_LIMIT
      requires prevSize == 4096 * |t.data| && MAX_SINGLE <= |t.data| < MAX_DOUBLE && NewLol(|t.data|)
      requires l in store && l !in roles0 && l < U64_LIMIT && q in store && q !in roles0 && q < U64_LIMIT && l != q
      requires Quiet(trail) && Near(trail, m, 6)
      modifies this`store, this`trail
      ensures Onward(old(trail), trail)
      ensures Settled(trail, m, 12)
      ensures store.Keys == old(store.Keys) && TreeOk(store, m, Grown(t, d, l, q))
      ensures LinkFrame(old(store), store, roles0, m) && SameHeader(old(store)[m], store[m])
    {
      hide Quiet;
      hide Near;
      hide Settled;
      hide Word;
      ghost var n := |t.data|;
      Shifts(prevSize);
      CountsGrow(n);
      var lolIdx := prevSize / 1073741824;
      var junk: Block := *;
      var lb := SetWord(junk, 0, d);
      SetWordBut(junk, 0, d);
      var mb := SetWord(store[m], 16 + lolIdx, q);
      SetWordBut(store[m], 16 + lolIdx, q);
      var qb;
      if prevSize == 1040187392 {
        var junk: Block := *;
        qb := SetWord(Paste(junk, 0, store[m][META_BYTES..]), 496, l);
        LinksAndOne(junk, store[m], l);
        GrowFirstLol(store, roles0, m, t, d, l, lb, q, qb, mb);
      } else {
        var junk: Block := *;
        qb := SetWord(junk, 0, l);
        SetWordBut(junk, 0, l);
        GrowLol(store, roles0, m, t, d, l, lb, q, qb, mb);
      }
      hide TreeOk;
      LinkAccesses(m, l, true, q, prevSize == 1040187392);
      store := store[l := lb];
      store := store[q := qb];
      store := store[m := mb];
    }

    /** A new link block `l` in the next word of the last list of links `q`. */
    method PutLinkInLol(m: nat, prevSize: nat, d: nat, l: nat, q: nat, ghost t: Tree, ghost roles0: Roles)
      requires TreeOk(store, m, t) && Owns(roles0, m, t) && d in store && d < U64_LIMIT
      requires prevSize == 4096 * |t.data| && MAX_SINGLE < |t.data| < MAX_DOUBLE
      requires NewLink(|t.data|) && !NewLol(|t.data|)
      requires l in store && l !in roles0 && l < U64_LIMIT
      requires |t.data| / 262144 < |t.lols| && q == t.lols[|t.data| / 262144]
      requires Quiet(trail) && Near(trail, q, 0) && Near(trail, m, 8)
      modifies this`store, this`trail
      ensures Onward(old(trail), trail)
      ensures Settled(trail, m, 12)
      ensures store.Keys == old(store.Keys) && forall y :: TreeOk(store, m, Grown(t, d, l, y))
      ensures LinkFrame(old(store), store, roles0, m) && SameHeader(old(store)[m], store[m])
    {
      hide Word;
      Shifts(prevSize);
      assert OwnsLol(roles0, m, t, |t.data| / 262144);
      var k := prevSize % 1073741824 / 2097152;
      var junk: Block := *;
      var lb, qb := SetWord(junk, 0, d), SetWord(store[q], k, l);
      SetWordBut(junk, 0, d);
      SetWordBut(store[q], k, l);
      GrowLinkInLol(store, roles0, m, t, d, l, lb, qb);
      hide TreeOk;
      trail := Rewritten(Filled(trail, l), q);
      store := store[l := lb];
      store := store[q := qb];
      assert forall y :: Grown(t, d, l, y) == Grown(t, d, l, 0);
    }

    /** With a new list of links; panics where the metadata block has no word left for it. */
    method LinkNewLol(m: nat, prevSize: nat, d: nat, ghost t: Tree) returns (ok: bool)
      requires AllocOk(sb, roles, leaked) && Stored(store, sb) && sb.txnOwner != 0 && sb.txnLink == 0 && sb.txnLol == 0
      requires TreeOk(store, m, t) && Owns(roles, m, t) && d in store && d < U64_LIMIT
      requires prevSize == 4096 * |t.data| && MAX_SINGLE <= |t.data| && NewLol(|t.data|)
      requires Quiet(trail) && Near(trail, m, 6)
      modifies this`sb, this`store, this`roles, this`trail
      ensures Onward(old(trail), trail)
      ensures sb.numBlocks == old(sb.numBlocks) && Settled(trail, m, 12)
      ensures var n, l := |t.data|, old(sb.emptyAreaStart);
              var k := (if NewLink(n) then 1 else 0) + if NewLol(n) then 1 else 0;
              && (ok <==> l + k <= sb.numBlocks && n < MAX_DOUBLE)
              && (ok ==>
                    && AllocOk(sb, roles, leaked) && store.Keys == old(store.Keys)
                    && TreeOk(store, m, Grown(t, d, l, l + 1)) && roles == LinkRoles(old(roles), m, t, l, l + 1)
                    && LinkFrame(old(store), store, old(roles), m) && SameHeader(old(store)[m], store[m])
                    && sb == old(sb).(emptyAreaStart := l + k, freeBlocks := sb.freeBlocks, txnLink := sb.txnLink,
                                      txnLol := sb.txnLol)
                    && sb.freeBlocks + k == old(sb.freeBlocks))
    {
      hide Word;
      Shifts(prevSize);
      hide TreeOk;
      hide AllocOk;
      hide Owns;
      hide LinkFrame;
      var r := Allocate(Links, Use(m, Link(|t.links|)));
      if !r.Ok? {
        return false;
      }
      var s := Allocate(ListOfLinks, Use(m, Lol(|t.lols|)));
      if !s.Ok? {
        return false;
      }
      if prevSize / 1073741824 >= 496 {
        return false;
      }
      ok := true;
      PutNewLol(m, prevSize, d, r.value, s.value, t, old(roles));
    }

    /** With the last list of links. */
    method LinkInLol(m: nat, prevSize: nat, d: nat, ghost t: Tree) returns (ok: bool)
      requires AllocOk(sb, roles, leaked) && Stored(store, sb) && sb.txnOwner != 0 && sb.txnLink == 0 && sb.txnLol == 0
      requires TreeOk(store, m, t) && Owns(roles, m, t) && d in store && d < U64_LIMIT
      requires prevSize == 4096 * |t.data| && MAX_SINGLE <= |t.data| && !NewLol(|t.data|)
      requires Quiet(trail) && Near(trail, m, 6)
      modifies this`sb, this`store, this`roles, this`trail
      ensures Onward(old(trail), trail)
      ensures sb.numBlocks == old(sb.numBlocks) && Settled(trail, m, 12)
      ensures var n, l := |t.data|, old(sb.emptyAreaStart);
              var k := (if NewLink(n) then 1 else 0) + if NewLol(n) then 1 else 0;
              && (ok <==> l + k <= sb.numBlocks && n < MAX_DOUBLE)
              && (ok ==>
                    && AllocOk(sb, roles, leaked) && store.Keys == old(store.Keys)
                    && TreeOk(store, m, Grown(t, d, l, l + 1)) && roles == LinkRoles(old(roles), m, t, l, l + 1)
                    && LinkFrame(old(store), store, old(roles), m) && SameHeader(old(store)[m], store[m])
                    && sb == old(sb).(emptyAreaStart := l + k, freeBlocks := sb.freeBlocks, txnLink := sb.txnLink,
                                      txnLol := sb.txnLol)
                    && sb.freeBlocks + k == old(sb.freeBlocks))
    {
      hide Word;
      NextInLol(store, m, t, prevSize);
      hide AllocOk;
      hide Owns;
      hide LinkFrame;
      hide NewLink;
      hide NewLol;
      var q := Word(store[m], 16 + prevSize / 1073741824);
      trail := Seen(Got(trail, m), q);
      if prevSize % 2097152 == 0 {
        hide TreeOk;
        var r := Allocate(Links, Use(m, Link(|t.links|)));
        ok := r.Ok?;
        if ok {
          PutLinkInLol(m, prevSize, d, r.value, q, t, old(roles));
        }
      } else {
        ok := true;
        trail := Got(trail, q);
        var l := Word(store[q], prevSize % 1073741824 / 2097152);
        hide TreeOk;
        PutInLink(m, prevSize, d, l, t);
      }
    }

    /** The part of append for larger files: lists of links. */
    method LinkDouble(m: nat, prevSize: nat, d: nat, ghost t: Tree) returns (ok: bool)
      requires AllocOk(sb, roles, leaked) && Stored(store, sb) && sb.txnOwner != 0 && sb.txnLink == 0 && sb.txnLol == 0
      requires TreeOk(store, m, t) && Owns(roles, m, t) && d in store && d < U64_LIMIT
      requires prevSize == 4096 * |t.data| && MAX_SINGLE <= |t.data|
      requires Quiet(trail) && Near(trail, m, 6)
      modifies this`sb, this`store, this`roles, this`trail
      ensures Onward(old(trail), trail)
      ensures sb.numBlocks == old(sb.numBlocks) && Settled(trail, m, 12)
      ensures var n, l := |t.data|, old(sb.emptyAreaStart);
              var k := (if NewLink(n) then 1 else 0) + if NewLol(n) then 1 else 0;
              && (ok <==> l + k <= sb.numBlocks && n < MAX_DOUBLE)
              && (ok ==>
                    && AllocOk(sb, roles, leaked) && store.Keys == old(store.Keys)
                    && TreeOk(store, m, Grown(t, d, l, l + 1)) && roles == LinkRoles(old(roles), m, t, l, l + 1)
                    && LinkFrame(old(store), store, old(roles), m) && SameHeader(old(store)[m], store[m])
                    && sb == old(sb).(emptyAreaStart := l + k, freeBlocks := sb.freeBlocks, txnLink := sb.txnLink,
                                      txnLol := sb.txnLol)
                    && sb.freeBlocks + k == old(sb.freeBlocks))
    {
      hide Word;
      hide TreeOk;
      Shifts(prevSize);
      if prevSize % 1073741824 == 0 || prevSize == 1040187392 {
        ok := LinkNewLol(m, prevSize, d, t);
      } else {
        ok := LinkInLol(m, prevSize, d, t);
      }
    }

    /** Linking data block `d`, as the layout of the new size asks. */
    method LinkBlock(m: nat, prevSize: nat, newSize: nat, d: nat, ghost t: Tree) returns (ok: bool)
      requires AllocOk(sb, roles, leaked) && Stored(store, sb) && sb.txnOwner != 0 && sb.txnLink == 0 && sb.txnLol == 0
      requires TreeOk(store, m, t) && Owns(roles, m, t) && d in store && d < U64_LIMIT
      requires prevSize == 4096 * |t.data| && prevSize < newSize <= prevSize + 4096
      requires Quiet(trail) && Near(trail, m, 6)
      modifies this`sb, this`store, this`roles, this`trail
      ensures Onward(old(trail), trail)
      ensures sb.numBlocks == old(sb.numBlocks) && Settled(trail, m, 12)
      ensures var n, l := |t.data|, old(sb.emptyAreaStart);
              && (ok <==> l + BlocksFor(n) - 1 <= sb.numBlocks && n < MAX_DOUBLE)
              && (ok ==>
                    && AllocOk(sb, roles, leaked) && store.Keys == old(store.Keys)
                    && TreeOk(store, m, Grown(t, d, l, l + 1)) && roles == LinkRoles(old(roles), m, t, l, l + 1)
                    && LinkFrame(old(store), store, old(roles), m) && m in old(store)
                    && SameHeader(old(store)[m], store[m])
                    && Spends(old(sb), sb, BlocksFor(n) - 1))
    {
      hide Word;
      if newSize <= 2031616 {
        LinkDirect(m, prevSize, d, t);
        ok := true;
        assert Grown(t, d, sb.emptyAreaStart, sb.emptyAreaStart + 1) == Grown(t, d, 0, 0);
      } else if newSize <= 1040187392 {
        hide TreeOk;
        hide AllocOk;
        hide Owns;
        ok := LinkSingle(m, prevSize, d, t);
      } else {
        hide TreeOk;
        hide AllocOk;
        hide Owns;
        ok := LinkDouble(m, prevSize, d, t);
      }
    }

    // -------------------------------------------------------------------------------------
    // Files
    // -------------------------------------------------------------------------------------

    /** find_data_block: the block that holds the byte at `offset`, in every layout. */
    method FindDataBlock(m: nat, offset: nat) returns (b: nat)
      requires Valid() && m in objs && objs[m].body.File?
      requires MAX_IN_META < |objs[m].body.content| && offset < |objs[m].body.content|
      requires Near(trail, m, 6)
      modifies this`trail
      ensures Onward(old(trail), trail)
      ensures Quiet(trail) && Near(trail, m, 2)
      ensures offset / 4096 < |objs[m].tree.data| && b == objs[m].tree.data[offset / 4096]
      ensures b in store && store[b][offset % 4096] == objs[m].body.content[offset] && b != m
    {
      hide Answered;
      hide Word;
      hide Linked;
      hide AllocOk;
      ghost var c, t := objs[m].body.content, objs[m].tree;
      assert Held(store, objs, roles, m);
      ByteAt(store, m, c, t, offset);
      Route(store, m, t, offset / 4096);
      assert OwnsData(roles, m, t, offset / 4096);
      Shifts(offset);
      hide TreeOk;
      trail := Got(Got(trail, m), m);
      var size := Word(store[m], 4);
      if size <= 2031616 {
        return Word(store[m], 16 + offset / 4096);
      }
      if size <= 1040187392 {
        var l := Word(store[m], 16 + offset / 2097152);
        trail := Seen(trail, l);
        return Word(store[l], offset % 2097152 / 4096);
      }
      var q := Word(store[m], 16 + offset / 1073741824);
      var l := Word(store[q], offset % 1073741824 / 2097152);
      trail := Seen(Seen(trail, q), l);
      return Word(store[l], offset % 2097152 / 4096);
    }

    /** update_file: bytes of one data block, not clipped to the size of the file. */
    method UpdateFile(m: nat, offset: nat, buf: seq<Byte>) returns (n: nat)
      requires Valid() && m in objs && objs[m].body.File?
      requires MAX_IN_META < |objs[m].body.content| && offset < |objs[m].body.content|
      requires Near(trail, m, 2)
      modifies this`store, this`objs, this`trail
      ensures Onward(old(trail), trail)
      ensures n == Min(|buf|, 4096 - offset % 4096)
      ensures Answered(trail)
      ensures Valid() && FileUpdated(old(objs), objs, m, Written(old(objs)[m].body.content, offset, buf[..n]))
      ensures objs[m].tree == old(objs)[m].tree
    {
      hide Answered;
      hide Good;
      var d := FindDataBlock(m, offset);
      n := Min(|buf|, 4096 - offset % 4096);
      ghost var c := objs[m].body.content;
      ghost var c' := Written(c, offset, buf[..n]);
      var db := Paste(store[d], offset % 4096, buf[..n]);
      Updated(sb, store, objs, roles, leaked, m, c, offset, buf[..n], offset / 4096, d, db);
      hide Paste;
      trail := ReadRewritten(trail, d);
      store := store[d := db];
      objs := objs[m := objs[m].(body := File(c'))];
    }

    /** append, first case: from the metadata block to a data block. */
    method AppendSpill(m: nat, s: seq<Byte>) returns (ok: bool)
      requires Valid() && m in objs && objs[m].body.File?
      requires |objs[m].body.content| <= MAX_IN_META < |objs[m].body.content| + |s| <= 4096
      requires Near(trail, m, 6)
      modifies this
      ensures Onward(old(trail), trail)
      ensures Answered(trail)
      ensures ok <==> old(sb.emptyAreaStart) < old(sb.numBlocks)
      ensures ok ==> Valid() && Spends(old(sb), sb, 1) && FileUpdated(old(objs), objs, m, old(objs)[m].body.content + s)
      ensures ok ==> objs[m].tree == GrownBy(old(objs)[m].tree, old(sb.emptyAreaStart), 1)
    {
      hide Answered;
      hide Quiet;
      hide Near;
      hide Settled;
      hide Good;
      hide Word;
      hide SetWord;
      hide TreeOk;
      hide AllocOk;
      hide Owns;
      ghost var c := objs[m].body.content;
      FileFacts(sb, store, objs, roles, leaked, m);
      var size := Word(store[m], 4);
      var bytes := store[m][META_BYTES..META_BYTES + size];
      StartTxn(TxnAddBytes, m);
      QuietAnswered(trail);
      var r := Allocate(DataBlock, Use(m, Data(0)));
      ok := r.Ok?;
      if ok {
        var d := r.value;
        var junk: Block := *;
        var db := Paste(Paste(junk, 0, bytes), size, s);
        assert db[..|c| + |s|] == c + s;
        hide Paste;
        FillAccess(d, m, 6);
        RewriteAccess(m, 8);
        store := store[d := db];
        store := store[m := SetWord(SetWord(store[m], 16, d), 4, size + |s|)];
        CommitTxn();
        QuietAnswered(trail);
        objs := objs[m := objs[m].(body := File(c + s), tree := Tree([d], [], []))];
        Spilled(old(sb), old(store), old(objs), old(roles), leaked, m, c, s, d, db, sb, store, objs, roles);
      }
    }

    /** append, second case: in the last data block. */
    method AppendInBlock(m: nat, s: seq<Byte>)
      requires Valid() && m in objs && objs[m].body.File?
      requires MAX_IN_META < |objs[m].body.content| && |objs[m].body.content| % 4096 != 0
      requires |objs[m].body.content| % 4096 + |s| <= 4096
      requires Near(trail, m, 4)
      modifies this`store, this`objs, this`trail
      ensures Onward(old(trail), trail)
      ensures Valid() && FileUpdated(old(objs), objs, m, old(objs)[m].body.content + s)
      ensures objs[m].tree == old(objs)[m].tree
    {
      hide Answered;
      hide Good;
      hide Word;
      hide SetWord;
      hide TreeOk;
      hide AllocOk;
      hide Owns;
      ghost var c := objs[m].body.content;
      FileFacts(sb, store, objs, roles, leaked, m);
      var size := Word(store[m], 4);
      var d := FindDataBlock(m, size - 1);
      assert (size - 1) / 4096 == size / 4096;
      var db := Paste(store[d], size % 4096, s);
      hide Paste;
      trail := Rewritten(ReadRewritten(trail, d), m);
      store := store[d := db];
      store := store[m := SetWord(store[m], 4, size + |s|)];
      objs := objs[m := objs[m].(body := File(c + s))];
      AppendedInBlock(sb, old(store), old(objs), roles, leaked, m, c, s, size / 4096, d, db, store[m], objs);
    }

    /** A new data block with these bytes. */
    method PlaceData(m: nat, s: seq<Byte>, ghost t: Tree) returns (ok: bool, d: nat, ghost db: Block)
      requires AllocOk(sb, roles, leaked) && Stored(store, sb) && MayAllocate(sb, DataBlock)
      requires TreeOk(store, m, t) && Owns(roles, m, t) && |s| <= 4096 && Quiet(trail) && Near(trail, m, 4)
      modifies this`sb, this`store, this`roles, this`trail
      ensures Onward(old(trail), trail)
      ensures ok <==> old(sb.emptyAreaStart) < old(sb.numBlocks)
      ensures Quiet(trail) && Near(trail, m, 6)
      ensures ok ==>
                && d == old(sb.emptyAreaStart) && d !in old(roles) && d in old(store) && d < U64_LIMIT
                && db[..|s|] == s && store == old(store)[d := db] && roles == old(roles)[d := Use(m, Data(|t.data|))]
                && AllocOk(sb, roles, leaked) && Stored(store, sb) && TreeOk(store, m, t) && Owns(roles, m, t)
                && old(sb.freeBlocks) > 0
                && sb == old(sb).(emptyAreaStart := d + 1, freeBlocks := old(sb.freeBlocks) - 1, txnData := d)
    {
      hide Quiet;
      hide TreeOk;
      hide AllocOk;
      hide Owns;
      var r := Allocate(DataBlock, Use(m, Data(|t.data|)));
      ok, d := r.Ok?, 0;
      if ok {
        d := r.value;
        var junk: Block := *;
        var b := Paste(junk, 0, s);
        db := b;
        assert db[..|s|] == s;
        hide Paste;
        FillAccess(d, m, 4);
        store := store[d := b];
        DataStored(old(store), old(roles), roles, m, t, d, db);
      } else {
        db := *;
      }
    }

    /** append, last case: a new data block, linked as the layout of the new size asks. */
    method AppendNewBlock(m: nat, s: seq<Byte>) returns (ok: bool)
      requires Valid() && m in objs && objs[m].body.File?
      requires MAX_IN_META < |objs[m].body.content| && |objs[m].body.content| % 4096 == 0 && 0 < |s| <= 4096
      requires Near(trail, m, 4)
      modifies this
      ensures Onward(old(trail), trail)
      ensures Answered(trail)
      ensures var size := |old(objs)[m].body.content|;
              ok <==> size < MAX_FILE && old(sb.emptyAreaStart) + BlocksFor(size / 4096) <= old(sb.numBlocks)
      ensures ok ==> Valid() && Spends(old(sb), sb, BlocksFor(|old(objs)[m].body.content| / 4096))
      ensures ok ==> FileUpdated(old(objs), objs, m, old(objs)[m].body.content + s)
      ensures ok ==> objs[m].tree == GrownBy(old(objs)[m].tree, old(sb.emptyAreaStart),
                                             BlocksFor(|old(objs)[m].body.content| / 4096))
    {
      hide Answered;
      hide Quiet;
      hide Near;
      hide Settled;
      hide Good;
      hide Word;
      hide SetWord;
      hide TreeOk;
      hide AllocOk;
      hide Owns;
      hide LinkFrame;
      hide NewLink;
      hide NewLol;
      hide Grown;
      hide GrownBy;
      hide BlocksFor;
      hide LinkRoles;
      hide SameHeader;
      ghost var c, t := objs[m].body.content, objs[m].tree;
      ghost var n := |t.data|;
      FileFacts(sb, store, objs, roles, leaked, m);
      var size := Word(store[m], 4);
      assert size == 4096 * n && n > 0;
      GrownSome(t, sb.emptyAreaStart, n);
      StartTxn(TxnAddBytes, m);
      var d; ghost var db;
      ok, d, db := PlaceData(m, s, t);
      QuietAnswered(trail);
      if !ok {
        return;
      }
      ghost var l := sb.emptyAreaStart;
      var newSize := size + |s|;
      ok := LinkBlock(m, size, newSize, d, t);
      SettledAnswered(trail, m, 12);
      if ok {
        ghost var store2 := store;
        FinishAccess(m);
        QuietAnswered(trail);
        store := store[m := SetWord(store[m], 4, newSize)];
        CommitTxn();
        objs := objs[m := objs[m].(body := File(c + s), tree := Grown(t, d, l, l + 1))];
        BlockAppended(old(sb), old(store), old(objs), old(roles), leaked, m, c, t, s, d, l, l + 1, db, sb, store2);
      }
    }

    /** append: as many bytes as fit in one data block. */
    method Append(m: nat, buf: seq<Byte>) returns (r: Result<nat>)
      requires m in objs && objs[m].body.File? && buf != [] && |objs[m].body.content| + |buf| > MAX_IN_META
      requires Valid() && Near(trail, m, 2)
      modifies this
      ensures Onward(old(trail), trail)
      ensures Answered(trail)
      ensures AppendResult(old(sb), old(objs), sb, objs, m, buf, r) && (r.Ok? ==> Valid())
    {
      hide Answered;
      hide Good;
      hide Word;
      hide TreeOk;
      hide AllocOk;
      hide Owns;
      hide BlocksFor;
      FileFacts(sb, store, objs, roles, leaked, m);
      assert sb.emptyAreaStart <= sb.numBlocks by { AllocRange(sb, roles, leaked); }
      trail := Got(trail, m);
      var size := Word(store[m], 4);
      var n := Min(|buf|, 4096 - size % 4096);
      if size <= MAX_IN_META {
        var ok := AppendSpill(m, buf[..n]);
        return if ok then Ok(n) else Failed;
      }
      if size % 4096 != 0 {
        AppendInBlock(m, buf[..n]);
        return Ok(n);
      }
      var ok := AppendNewBlock(m, buf[..n]);
      return if ok then Ok(n) else Failed;
    }

    /** The part of write for bytes that stay in the metadata block. */
    method WriteInMeta(id: EntryId, offset: nat, newSize: nat, s: seq<Byte>, ghost c: seq<Byte>)
      requires Valid() && offset <= |c| && offset + |s| <= newSize == |Written(c, offset, s)| <= MAX_IN_META
      requires if id.blockNo in objs then objs[id.blockNo].body == File(c)
               else Left(store, roles, id) && id.generation % 2 == 0 && c == LeftBytes(store, id)
      requires Near(trail, id.blockNo, 2)
      modifies this`store, this`objs, this`trail
      ensures Onward(old(trail), trail)
      ensures Valid() && Answered(trail)
      ensures if id.blockNo in old(objs) then
                && FileUpdated(old(objs), objs, id.blockNo, Written(c, offset, s))
                && objs[id.blockNo].tree == old(objs)[id.blockNo].tree
              else
                objs == old(objs) && Left(store, roles, id) && LeftBytes(store, id) == Written(c, offset, s)
    {
      hide Quiet;
      hide Near;
      hide Answered;
      hide Good;
      hide Word;
      hide SetWord;
      hide Paste;
      var m := id.blockNo;
      if m in objs { ObjFacts(sb, store, objs, roles, leaked, m); }
      var b := Paste(SetWord(store[m], 4, newSize), META_BYTES + offset, s);
      if m in objs {
        WroteInMeta(sb, store, objs, roles, leaked, m, offset, s);
        objs := objs[m := objs[m].(body := File(Written(c, offset, s)))];
      } else {
        LeftWritten(store, roles, id, offset, s);
        UnusedWritten(sb, store, objs, roles, leaked, m, b);
      }
      RewriteAccess(m, 2);
      QuietAnswered(trail);
      store := store[m := b];
    }

    /** write: the contract is the plain byte sequence with the same overwrite or append. */
    method Write(id: EntryId, offset: nat, buf: seq<Byte>) returns (r: Result<nat>)
      requires Valid() && (Known(id) || LeftWrite(store, roles, id, offset, buf))
      modifies this
      ensures Onward(old(trail), trail)
      ensures old(Known(id)) ==> WriteResult(old(sb), old(objs), sb, objs, id, offset, buf, r)
      ensures !old(Known(id)) ==> LeftResult(old(store), store, roles, id, offset, buf, r)
      ensures !old(Known(id)) ==> unchanged(this`sb, this`objs, this`roles, this`leaked)
      ensures r.Err? ==> Same()
      ensures Answered(trail) && (!r.Failed? ==> Valid())
    {
      hide Quiet;
      hide Near;
      hide Answered;
      hide Good;
      hide Word;
      hide SetWord;
      hide Paste;
      hide AllocOk;
      hide TreeOk;
      hide BlocksFor;
      if id.generation % 2 == 1 {
        QuietAnswered(trail);
        return Err(InvalidArgument);
      }
      var m := id.blockNo;
      if m in objs { ObjFacts(sb, store, objs, roles, leaked, m); }
      LookAccess(m);
      if Word(store[m], 0) != m || Word(store[m], 1) != id.generation {
        return Err(ValidationFailed);
      }
      if m in objs { FileFacts(sb, store, objs, roles, leaked, m); }
      hide Owns;
      ghost var c := if m in objs then objs[m].body.content else LeftBytes(store, id);
      GoodRange(sb, store, objs, roles, leaked);
      var size := Word(store[m], 4);
      if offset > size {
        return Err(InvalidArgument);
      }
      var end := if offset == size then offset + |buf| else Min(size, offset + |buf|);
      var newSize := if size >= end then size else end;
      if newSize <= MAX_IN_META {
        WriteInMeta(id, offset, newSize, buf[..end - offset], c);
        return Ok(end - offset);
      }
      if newSize == size {
        if offset == size {
          return Failed;
        }
        var n := UpdateFile(m, offset, buf);
        return Ok(n);
      }
      r := Append(m, buf);
    }

    /**
     read: the bytes of the file from `offset` on, clipped to the size only if the file is in
     its metadata block, else up to the end of the data block.
     */
    method Read(id: EntryId, offset: nat, len: nat) returns (r: Result<seq<Byte>>)
      requires Valid() && (Known(id) || Left(store, roles, id))
      modifies this`trail
      ensures Onward(old(trail), trail)
      ensures Valid()
      ensures id.generation % 2 == 1 ==> r == Err(InvalidArgument)
      ensures id.generation % 2 == 0 && Known(id) && !IsLive(objs, id) ==> r == Err(ValidationFailed)
      ensures id.generation % 2 == 0 && (IsLive(objs, id) || !Known(id)) ==>
                && r.Ok? && (Known(id) ==> objs[id.blockNo].body.File?)
                && var c := if Known(id) then objs[id.blockNo].body.content else LeftBytes(store, id);
                && ReadsAs(r.value, c, offset)
                && |r.value| == ReadCount(|c|, offset, len)
                && (forall n: nat :: MayRead(|c|, offset, len, n) <==> n <= |r.value|)
    {
      hide Answered;
      hide Good;
      hide Word;
      hide TreeOk;
      hide Owns;
      if id.generation % 2 == 1 {
        return Err(InvalidArgument);
      }
      var m := id.blockNo;
      if m in objs { ObjFacts(sb, store, objs, roles, leaked, m); }
      LookAccess(m);
      if Word(store[m], 0) != m || Word(store[m], 1) != id.generation {
        return Err(ValidationFailed);
      }
      if m in objs { FileFacts(sb, store, objs, roles, leaked, m); }
      hide AllocOk;
      var size := Word(store[m], 4);
      if offset >= size {
        return Ok([]);
      }
      if size <= MAX_IN_META {
        var end := Min(size, offset + len);
        SliceSlice(store[m], META_BYTES, META_BYTES + size, offset, end);
        return Ok(store[m][META_BYTES + offset..META_BYTES + end]);
      }
      var b := FindDataBlock(m, offset);
      var n := Min(len, 4096 - offset % 4096);
      trail := Seen(trail, b);
      BlockBytes(sb, store, objs, roles, leaked, m, offset, n);
      return Ok(store[b][offset % 4096..offset % 4096 + n]);
    }

    // -------------------------------------------------------------------------------------
    // Truncation
    // -------------------------------------------------------------------------------------

    method FreeIf(cond: bool, kind: BlockType)
      requires AllocOk(sb, roles, leaked) && Stored(store, sb)
      requires cond ==> TxnSlot(sb, kind) in roles && TxnSlot(sb, kind) != ROOT
      requires Quiet(trail)
      modifies this`sb, this`store, this`roles, this`leaked, this`trail
      ensures Onward(old(trail), trail)
      ensures AllocOk(sb, roles, leaked) && Stored(store, sb) && Quiet(trail)
      ensures forall k | k != kind :: TxnSlot(sb, k) == TxnSlot(old(sb), k)
      ensures Frees(old(sb), sb, if cond then [TxnSlot(old(sb), kind)] else [])
      ensures var gone := if cond then {TxnSlot(old(sb), kind)} else {};
              && roles == old(roles) - gone
              && (forall x | x in old(store) && x !in gone :: x in store && store[x] == old(store)[x])
      ensures cond ==> Abandoned(old(store), store, sb, TxnSlot(old(sb), kind))
    {
      hide Quiet;
      hide AllocOk;
      if cond {
        AfterOne(sb.emptyAreaStart, TxnSlot(sb, kind));
        Free(kind);
      }
    }

    /**
     The transaction of set_file_size: the new metadata block, then the data block and the link
     blocks it leaves unused.
     */
    method GiveUp(m: nat, mb: Block, d: nat, freeLink: bool, l: nat, freeLol: bool, q: nat)
      requires NoTxn(sb) && AllocOk(sb, roles, leaked) && Stored(store, sb) && m in store
      requires d in roles && d != ROOT && (freeLink ==> l in roles && l != d && l != ROOT)
      requires freeLol ==> freeLink && q in roles && q != d && q != l && q != ROOT
      requires Quiet(trail)
      modifies this`sb, this`store, this`roles, this`leaked, this`trail
      ensures Onward(old(trail), trail)
      ensures AllocOk(sb, roles, leaked) && NoTxn(sb) && Stored(store, sb) && Quiet(trail)
      ensures Frees(old(sb), sb, [d] + (if freeLink then [l] else []) + if freeLol then [q] else [])
      ensures var gone := {d} + (if freeLink then {l} else {}) + if freeLol then {q} else {};
              && roles == old(roles) - gone
              && (forall x | x in old(store)[m := mb] && x !in gone :: x in store && store[x] == old(store)[m := mb][x])
    {
      hide Quiet;
      hide AllocOk;
      StartTxn(TxnRemoveBytes, m);
      sb := sb.(txnData := d, txnLink := if freeLink then l else 0, txnLol := if freeLol then q else 0);
      AllocTxn(old(sb), sb, roles, leaked);
      store := store[m := mb];
      FreeIf(true, DataBlock);
      ghost var links, lols := if freeLink then {l} else {}, if freeLol then {q} else {};
      ghost var sb1 := sb;
      assert TxnSlot(sb, Links) == if freeLink then l else 0;
      assert TxnSlot(sb, ListOfLinks) == if freeLol then q else 0;
      MinusMinus(old(roles), {d}, links);
      FreeIf(freeLink, Links);
      assert TxnSlot(sb, ListOfLinks) == if freeLol then q else 0;
      FreesJoin(old(sb), sb1, sb, [d], if freeLink then [l] else []);
      ghost var sb2 := sb;
      MinusMinus(old(roles), {d} + links, lols);
      FreeIf(freeLol, ListOfLinks);
      FreesJoin(old(sb), sb2, sb, [d] + if freeLink then [l] else [], if freeLol then [q] else []);
      CommitTxn();
    }

    /** set_file_size, one block of a file of at most about 2M, or the bytes back to the metadata block. */
    method DropDirect(m: nat, mid: nat)
      requires Valid() && m in objs && objs[m].body.File? && MAX_IN_META < |objs[m].body.content| <= 2031616
      requires var size := |objs[m].body.content|;
               if size <= 4096 then mid <= MAX_IN_META else mid == (size - 1) / 4096 * 4096
      requires Near(trail, m, 2)
      modifies this
      ensures Onward(old(trail), trail)
      ensures Valid() && BlockDropped(old(sb), old(objs), sb, objs, m, old(objs)[m].body.content[..mid])
    {
      hide Quiet;
      hide Near;
      hide Good;
      hide Word;
      hide SetWord;
      hide AllocOk;
      hide TreeOk;
      hide Owns;
      hide HeaderOk;
      hide Shrunk;
      hide Dropped;
      hide NumLinks;
      hide NumLols;
      ghost var c, t := objs[m].body.content, objs[m].tree;
      FileFacts(sb, store, objs, roles, leaked, m);
      DirectLast(sb, store, objs, roles, leaked, m, mid);
      LastBlock(sb, store, objs, roles, leaked, m);
      var d := Word(store[m], 16 + mid / 4096);
      UnspillAccess(m, d, mid <= MAX_IN_META && mid > 0);
      var mb := SetWord(store[m], 4, mid);
      if mid <= MAX_IN_META && mid > 0 {
        mb := Paste(mb, META_BYTES, store[d][..MAX_IN_META]);
      }
      DirectMeta(sb, store, objs, roles, leaked, m, d, mid, mb);
      hide Paste;
      GiveUp(m, mb, d, false, 0, false, 0);
      if |c| <= 4096 {
        objs := objs[m := objs[m].(body := File(c[..mid]), tree := EMPTY)];
        AfterUnspill(old(sb), old(store), old(objs), old(roles), old(leaked), m, c, mid, mb, sb, store, objs, roles,
                     leaked);
      } else {
        objs := objs[m := objs[m].(body := File(c[..mid]), tree := Shrunk(t))];
        AfterDrop(old(sb), old(store), old(objs), old(roles), old(leaked), m, c, mid, mb, sb, store, objs, roles,
                  leaked);
      }
    }

    /** The loop that copies 496 links back to a metadata block. */
    static method CopyLinks(meta: Block, links: Block) returns (mb: Block)
      ensures CopyOfLinks(mb, links) && SameHeader(meta, mb)
    {
      hide Word;
      hide SetWord;
      mb := meta;
      for idx := 0 to 496
        invariant SameHeader(meta, mb)
        invariant forall k | 0 <= k < idx :: LinkCopied(mb, links, k)
      {
        var v := Word(links, idx);
        WordBound(links, idx);
        SetWordBut(mb, 16 + idx, v);
        ghost var prev := mb;
        mb := SetWord(mb, 16 + idx, v);
        forall k | 0 <= k < idx ensures LinkCopied(mb, links, k) {
          assert LinkCopied(prev, links, k);
        }
      }
    }

    /** set_file_size, one block of a file of at most about 1G. */
    method DropSingle(m: nat, mid: nat)
      requires Valid() && m in objs && objs[m].body.File?
      requires 2031616 < |objs[m].body.content| <= 1040187392 && mid == (|objs[m].body.content| - 1) / 4096 * 4096
      requires Near(trail, m, 2)
      modifies this
      ensures Onward(old(trail), trail)
      ensures Valid() && BlockDropped(old(sb), old(objs), sb, objs, m, old(objs)[m].body.content[..mid])
    {
      hide Quiet;
      hide Near;
      hide Good;
      hide Word;
      hide SetWord;
      hide AllocOk;
      hide TreeOk;
      hide Owns;
      hide HeaderOk;
      hide ObjOk;
      hide Shrunk;
      hide Dropped;
      hide NumLinks;
      hide NumLols;
      ghost var c, t := objs[m].body.content, objs[m].tree;
      FileFacts(sb, store, objs, roles, leaked, m);
      TreeCounts(sb, store, objs, roles, leaked, m);
      LastBlock(sb, store, objs, roles, leaked, m);
      SingleLast(sb, store, objs, roles, leaked, m, mid);
      var l := Word(store[m], 16 + mid / 2097152);
      var dataIdx := mid % 2097152 / 4096;
      var d := Word(store[l], dataIdx);
      var freeLink := dataIdx == 0 || mid == 2031616;
      CutAccesses(m, [l], l, mid == 2031616);
      var mb := SetWord(store[m], 4, mid);
      if mid == 2031616 {
        assert t.links[0] == l;
        mb := CopyLinks(mb, store[l]);
      }
      SingleMeta(store, roles, m, objs[m], c, mid, mb);
      assert [d] + (if freeLink then [l] else []) + [] == BlockFrees(t);
      GiveUp(m, mb, d, freeLink, l, false, 0);
      objs := objs[m := objs[m].(body := File(c[..mid]), tree := Shrunk(t))];
      AfterDrop(old(sb), old(store), old(objs), old(roles), old(leaked), m, c, mid, mb, sb, store, objs, roles, leaked);
    }

    /** set_file_size, one block of a larger file. */
    method DropDouble(m: nat, mid: nat)
      requires Valid() && m in objs && objs[m].body.File?
      requires 1040187392 < |objs[m].body.content| && mid == (|objs[m].body.content| - 1) / 4096 * 4096
      requires Near(trail, m, 2)
      modifies this
      ensures Onward(old(trail), trail)
      ensures Valid() && BlockDropped(old(sb), old(objs), sb, objs, m, old(objs)[m].body.content[..mid])
    {
      hide Quiet;
      hide Near;
      hide Good;
      hide Word;
      hide SetWord;
      hide AllocOk;
      hide TreeOk;
      hide Owns;
      hide HeaderOk;
      hide ObjOk;
      hide Shrunk;
      hide Dropped;
      hide NumLinks;
      hide NumLols;
      ghost var c, t := objs[m].body.content, objs[m].tree;
      FileFacts(sb, store, objs, roles, leaked, m);
      TreeCounts(sb, store, objs, roles, leaked, m);
      LastBlock(sb, store, objs, roles, leaked, m);
      DoubleLast(sb, store, objs, roles, leaked, m, mid);
      var q := Word(store[m], 16 + mid / 1073741824);
      var linkIdx := mid % 1073741824 / 2097152;
      var l := Word(store[q], linkIdx);
      var dataIdx := mid % 2097152 / 4096;
      var d := Word(store[l], dataIdx);
      var freeLink := dataIdx == 0;
      var freeLol := freeLink && (linkIdx == 0 || mid == 1040187392);
      CutAccesses(m, [q, l], q, mid == 1040187392);
      var mb := SetWord(store[m], 4, mid);
      if mid == 1040187392 {
        assert t.lols[0] == q;
        mb := CopyLinks(mb, store[q]);
      }
      DoubleMeta(store, roles, m, objs[m], c, mid, mb);
      GiveUp(m, mb, d, freeLink, l, freeLol, q);
      objs := objs[m := objs[m].(body := File(c[..mid]), tree := Shrunk(t))];
      AfterDrop(old(sb), old(store), old(objs), old(roles), old(leaked), m, c, mid, mb, sb, store, objs, roles, leaked);
    }

    /** One round of set_file_size; `done` if the size was reached without another block change. */
    method Shorten(m: nat, size: nat, newSize: nat) returns (done: bool)
      requires Valid() && newSize < size
      requires if m in objs then objs[m].body.File? && size == |objs[m].body.content|
               else m in store && m !in roles && size <= MAX_IN_META
      requires Near(trail, m, 2)
      modifies this
      ensures Onward(old(trail), trail)
      ensures Valid()
      ensures m in old(objs) ==>
                && m in objs && objs[m].body.File?
                && var k, c, n := |objs[m].body.content|, old(objs)[m].body.content, |old(objs)[m].tree.data|;
                && newSize <= k < size
                && if done then
                     && k == newSize && DataBlocks(newSize) == n && FileUpdated(old(objs), objs, m, c[..k])
                     && sb == old(sb) && objs[m].tree == old(objs)[m].tree
                   else DataBlocks(newSize) < n && BlockDropped(old(sb), old(objs), sb, objs, m, c[..k])
      ensures m !in old(objs) ==>
                && done && unchanged(this`sb, this`objs, this`roles, this`leaked)
                && m in old(store) && store == old(store)[m := SetWord(old(store)[m], 4, newSize)]
    {
      hide Quiet;
      hide Near;
      hide Good;
      hide AllocOk;
      hide TreeOk;
      hide Owns;
      hide Word;
      if m in objs { FileFacts(sb, store, objs, roles, leaked, m); }
      var mid := if MAX_IN_META < size <= 4096 && newSize <= MAX_IN_META then newSize else (size - 1) / 4096 * 4096;
      if (newSize > mid && newSize > MAX_IN_META) || size <= MAX_IN_META {
        if m in objs {
          ghost var c := objs[m].body.content;
          ghost var objs' := objs[m := objs[m].(body := File(c[..newSize]))];
          TruncatedInPlace(sb, store, objs, roles, leaked, m, c, newSize, objs');
          objs := objs';
        } else {
          UnusedWritten(sb, store, objs, roles, leaked, m, SetWord(store[m], 4, newSize));
        }
        RewriteAccess(m, 2);
        store := store[m := SetWord(store[m], 4, newSize)];
        return true;
      }
      if size <= 2031616 {
        DropDirect(m, mid);
      } else if size <= 1040187392 {
        DropSingle(m, mid);
      } else {
        DropDouble(m, mid);
      }
      return false;
    }

    /** set_file_size: block by block from the end. It only shortens, and then always succeeds. */
    method SetFileSize(id: EntryId, newSize: nat) returns (r: Result<()>)
      requires Valid() && (Known(id) || Left(store, roles, id))
      modifies this
      ensures Onward(old(trail), trail)
      ensures (old(Known(id)) && !IsLive(old(objs), id)) || id.generation % 2 == 1 ==> r == Err(ValidationFailed)
      ensures !old(Known(id)) && id.generation % 2 == 0 ==>
                && unchanged(this`sb, this`objs, this`roles, this`leaked)
                && var c := LeftBytes(old(store), id);
                if newSize > |c| then r == Err(InvalidArgument)
                else r == Ok(()) && Left(store, roles, id) && LeftBytes(store, id) == c[..newSize]
      ensures IsLive(old(objs), id) && id.generation % 2 == 0 ==>
                && old(objs)[id.blockNo].body.File?
                && var c := old(objs)[id.blockNo].body.content;
                if newSize > |c| then r == Err(InvalidArgument)
                else
                  && r == Ok(()) && FileUpdated(old(objs), objs, id.blockNo, c[..newSize])
                  && var t := old(objs)[id.blockNo].tree;
                  && Counted(t) && Frees(old(sb), sb, CutFrees(t, DataBlocks(newSize)))
                  && objs[id.blockNo].tree == CutTree(t, DataBlocks(newSize))
      ensures r.Err? ==> Same()
      ensures Valid() && !r.Failed?
    {
      hide Quiet;
      hide Near;
      hide Answered;
      hide Good;
      hide Word;
      hide AllocOk;
      hide TreeOk;
      hide Owns;
      var m := id.blockNo;
      if m in objs { ObjFacts(sb, store, objs, roles, leaked, m); }
      if Word(store[m], 0) != m || Word(store[m], 1) != id.generation || id.generation % 2 == 1 {
        LookAccess(m);
        return Err(ValidationFailed);
      }
      ghost var live, first, n, freed := m in objs, true, DataBlocks(newSize), [];
      ghost var c0 := if live then objs[m].body.content else LeftBytes(store, id);
      ghost var t0, k: nat := if live then objs[m].tree else EMPTY, |c0|;
      if live {
        TreeCounts(sb, store, objs, roles, leaked, m);
        CutStart(sb, t0, n);
        SameFile(objs, m);
      }
      hide CutSoFar;
      hide CutFrees;
      hide CutTree;
      assert c0[..k] == c0;
      while true
        invariant Valid() && k <= |c0| && m in store && Onward(old(trail), trail)
        invariant live ==> FileUpdated(old(objs), objs, m, c0[..k]) && CutSoFar(old(sb), t0, sb, objs[m].tree, n, freed)
        invariant first ==> k == |c0| && Same()
        invariant !first ==> live && newSize <= k
        decreases k
      {
        if live { ObjFacts(sb, store, objs, roles, leaked, m); }
        LookAccess(m);
        if Word(store[m], 0) != m || Word(store[m], 1) != id.generation || id.generation % 2 == 1 {
          return Err(ValidationFailed);
        }
        if live { FileFacts(sb, store, objs, roles, leaked, m); }
        var size := Word(store[m], 4);
        if newSize > size {
          return Err(InvalidArgument);
        }
        if newSize == size {
          if live { CutEnd(old(sb), t0, sb, objs[m].tree, n, freed); }
          return Ok(());
        }
        ghost var objs1, sb1 := objs, sb;
        var done := Shorten(m, size, newSize);
        if live {
          ghost var k' := |objs[m].body.content|;
          assert c0[..k][..k'] == c0[..k'];
          UpdatedTwice(old(objs), objs1, objs, m, c0[..k], c0[..k']);
          first, k := false, k';
        }
        if done {
          if live {
            CutEnd(old(sb), t0, sb, objs[m].tree, n, freed);
          } else {
            LeftCut(old(store), roles, id, newSize);
          }
          return Ok(());
        }
        CutStep(old(sb), t0, sb1, objs1[m].tree, sb, n, freed);
        freed := freed + BlockFrees(objs1[m].tree);
        assert m in store by { ObjFacts(sb, store, objs, roles, leaked, m); }
      }
    }

    // -------------------------------------------------------------------------------------
    // Finding directory entries
    // -------------------------------------------------------------------------------------

    /** The inner loop of find_entry: the entries of one data block, from number `curr` on. */
    static method ScanBlock(b: Block, curr: nat, num: nat, pred: Entry -> bool, ghost es: seq<Entry>)
      returns (found: bool, pos: nat, next: nat)
      requires curr < num == |es| && HoldsFrom(b, es, curr) && NoneBefore(es, pred, curr)
      ensures found ==> pos < 15 && FirstMatch(es, pred, curr + pos)
      ensures !found ==> next == Min(curr + 15, num) && NoneBefore(es, pred, next)
    {
      hide EntryAt;
      next, pos, found := curr, 0, false;
      while pos < 15
        invariant 0 <= pos <= 15 && next == curr + pos && !found && NoneBefore(es, pred, next) && next < num
      {
        if pred(EntryAt(b, pos)) {
          found := true;
          return;
        }
        next := next + 1;
        if next >= num {
          return;
        }
        pos := pos + 1;
      }
    }

    /** find_entry over the data blocks that the metadata block lists. */
    method ScanDirect(m: nat, num: nat, pred: Entry -> bool) returns (found: bool, b: nat, pos: nat, ghost i: nat)
      requires Device(sb, store, objs, roles, leaked) && m in objs && objs[m].body.Dir?
      requires num == |objs[m].body.entries| && 14 < num <= 7440
      requires Quiet(trail)
      modifies this`trail
      ensures Onward(old(trail), trail)
      ensures Quiet(trail) && (found ==> Near(trail, b, 0))
      ensures var es, t := objs[m].body.entries, objs[m].tree;
              && |t.data| == EntryBlocks(|es|)
              && (found ==> FirstMatch(es, pred, i) && (b, pos) == Location(m, es, t, i))
              && (!found ==> NoneBefore(es, pred, num))
    {
      hide Answered;
      hide Device;
      hide AllocOk;
      hide Word;
      hide EntryAt;
      hide Owns;
      hide ObjOk;
      ghost var es, t := objs[m].body.entries, objs[m].tree;
      DirFacts(sb, store, objs, roles, leaked, m);
      hide DirOk;
      var curr, idx := 0, 0;
      while idx < (num + 14) / 15
        invariant 0 <= idx <= EntryBlocks(num) && curr == Min(15 * idx, num) && NoneBefore(es, pred, curr)
        invariant Quiet(trail) && Onward(old(trail), trail)
      {
        Route(store, m, t, idx);
        b := Word(store[m], 16 + idx);
        BlockHolds(store, m, es, t, idx);
        trail := Seen(trail, b);
        var next;
        found, pos, next := ScanBlock(store[b], curr, num, pred, es);
        if found {
          i := curr + pos;
          return;
        }
        curr, idx := next, idx + 1;
      }
      return false, 0, 0, 0;
    }

    /** The middle loop of find_entry: the data blocks of link block `j`. */
    method ScanLink(m: nat, num: nat, j: nat, pred: Entry -> bool) returns (found: bool, b: nat, pos: nat, ghost i: nat)
      requires Device(sb, store, objs, roles, leaked) && m in objs && objs[m].body.Dir?
      requires num == |objs[m].body.entries| && 7440 < num && 7680 * j < num && j < 496
      requires NoneBefore(objs[m].body.entries, pred, 7680 * j)
      requires Quiet(trail)
      modifies this`trail
      ensures Onward(old(trail), trail)
      ensures Quiet(trail) && (found ==> Near(trail, b, 0))
      ensures var es, t := objs[m].body.entries, objs[m].tree;
              && |t.data| == EntryBlocks(|es|)
              && (found ==> FirstMatch(es, pred, i) && (b, pos) == Location(m, es, t, i))
              && (!found ==> NoneBefore(es, pred, Min(num, 7680 * (j + 1))))
    {
      hide Answered;
      hide Device;
      hide AllocOk;
      hide Word;
      hide EntryAt;
      hide Owns;
      hide ObjOk;
      ghost var es, t := objs[m].body.entries, objs[m].tree;
      DirFacts(sb, store, objs, roles, leaked, m);
      hide DirOk;
      LinkCounts(|t.data|);
      Route(store, m, t, 512 * j);
      hide TreeOk;
      var l := Word(store[m], 16 + j);
      trail := Seen(trail, l);
      var curr, k := 7680 * j, 0;
      while k < 512
        invariant 0 <= k <= 512 && curr == 7680 * j + 15 * k < num && NoneBefore(es, pred, curr)
        invariant Quiet(trail) && Onward(old(trail), trail)
      {
        Route(store, m, t, 512 * j + k);
        b := Word(store[l], k);
        BlockHolds(store, m, es, t, 512 * j + k);
        trail := Seen(trail, b);
        var next;
        found, pos, next := ScanBlock(store[b], curr, num, pred, es);
        if found {
          i := curr + pos;
          return;
        }
        curr, k := next, k + 1;
        if 512 * j + k >= (num + 14) / 15 {
          return false, 0, 0, 0;
        }
      }
      return false, 0, 0, 0;
    }

    /** find_entry: the first entry that meets the predicate, in every layout. */
    method FindEntry(m: nat, pred: Entry -> bool) returns (found: bool, b: nat, pos: nat, ghost i: nat)
      requires Device(sb, store, objs, roles, leaked)
      requires if m in objs then objs[m].body.Dir? else m in store && Word(store[m], 4) == 0
      requires Quiet(trail)
      modifies this`trail
      ensures Onward(old(trail), trail)
      ensures Quiet(trail) && (found ==> Near(trail, b, 0))
      ensures m in objs ==>
                && var es, t := objs[m].body.entries, objs[m].tree;
                && (|es| > 14 ==> |t.data| == EntryBlocks(|es|))
                && (found ==> FirstMatch(es, pred, i) && (b, pos) == Location(m, es, t, i))
                && (!found ==> NoneBefore(es, pred, |es|))
      ensures m !in objs ==> !found
    {
      hide Answered;
      hide Device;
      hide AllocOk;
      hide Word;
      hide EntryAt;
      hide Owns;
      hide ObjOk;
      hide TreeOk;
      ghost var es := if m in objs then objs[m].body.entries else [];
      if m in objs { DirFacts(sb, store, objs, roles, leaked, m); }
      trail := Seen(trail, m);
      var num := Word(store[m], 4);
      if num <= 14 {
        pos := 0;
        while pos < num
          invariant 0 <= pos <= num && NoneBefore(es, pred, pos)
        {
          assert MetaEntryOk(store[m], es, pos);
          if pred(EntryAt(store[m], pos + 1)) {
            return true, m, pos + 1, pos;
          }
          pos := pos + 1;
        }
        return false, 0, 0, 0;
      }
      hide DirOk;
      if num <= 7440 {
        found, b, pos, i := ScanDirect(m, num, pred);
        return;
      }
      var j := 0;
      while j < (num + 7679) / 7680
        invariant 0 <= j <= (num + 7679) / 7680 && NoneBefore(es, pred, Min(num, 7680 * j))
        invariant Quiet(trail) && Onward(old(trail), trail)
      {
        found, b, pos, i := ScanLink(m, num, j, pred);
        if found {
          return;
        }
        j := j + 1;
      }
      return false, 0, 0, 0;
    }

    /** get_directory_entry: element `pos` of the directory. */
    method GetDirectoryEntry(id: EntryId, pos: nat) returns (r: Result<Entry>)
      requires Valid() && (Known(id) || Left(store, roles, id))
      modifies this`trail
      ensures Onward(old(trail), trail)
      ensures Valid()
      ensures id.generation % 2 == 0 || (Known(id) && !IsLive(objs, id)) ==> r == Err(ValidationFailed)
      ensures id.generation % 2 == 1 && !Known(id) ==> r == Err(NotFound)
      ensures id.generation % 2 == 1 && IsLive(objs, id) ==>
                && objs[id.blockNo].body.Dir?
                && var es := objs[id.blockNo].body.entries; r == if pos < |es| then Ok(es[pos]) else Err(NotFound)
    {
      hide Answered;
      hide Good;
      hide Word;
      hide EntryAt;
      hide Owns;
      hide ObjOk;
      hide TreeOk;
      hide Device;
      hide Linked;
      hide AllocOk;
      hide Generations;
      var m := id.blockNo;
      if m in objs { ObjFacts(sb, store, objs, roles, leaked, m); }
      trail := Seen(trail, m);
      if Word(store[m], 0) != m || Word(store[m], 1) != id.generation || id.generation % 2 == 0 {
        return Err(ValidationFailed);
      }
      GoodDevice(sb, store, objs, roles, leaked);
      if m in objs { DirFacts(sb, store, objs, roles, leaked, m); }
      var num := Word(store[m], 4);
      if pos >= num {
        return Err(NotFound);
      }
      ghost var es, t := objs[m].body.entries, objs[m].tree;
      if num <= 14 {
        assert MetaEntryOk(store[m], es, pos);
        return Ok(EntryAt(store[m], pos + 1));
      }
      EntryIn(store, m, es, t, pos);
      Route(store, m, t, pos / 15);
      hide DirOk;
      if num <= 7440 {
        var d := Word(store[m], 16 + pos / 15);
        trail := Seen(trail, d);
        return Ok(EntryAt(store[d], pos % 15));
      }
      EntryShifts(pos);
      var l := Word(store[m], 16 + pos / 7680);
      var d := Word(store[l], pos % 7680 / 15);
      trail := Seen(Seen(trail, l), d);
      return Ok(EntryAt(store[d], pos % 15));
    }

    // -------------------------------------------------------------------------------------
    // Adding directory entries
    // -------------------------------------------------------------------------------------

    /** The loop that copies the 496 links of a metadata block to a link block. */
    static method CopyLinksOut(b: Block, meta: Block) returns (lb: Block)
      ensures CopyOfLinks(meta, lb)
    {
      hide Word;
      hide SetWord;
      lb := b;
      for idx := 0 to 496
        invariant forall k | 0 <= k < idx :: LinkCopied(meta, lb, k)
      {
        var v := Word(meta, 16 + idx);
        WordBound(meta, 16 + idx);
        SetWordBut(lb, idx, v);
        ghost var prev := lb;
        lb := SetWord(lb, idx, v);
        forall k | 0 <= k < idx ensures LinkCopied(meta, lb, k) {
          assert LinkCopied(meta, prev, k);
        }
      }
    }

    /** A new link block for the data block of entry number `num`. */
    method PutNewEntryLink(m: nat, num: nat, d: nat, l: nat, ghost t: Tree, ghost roles0: Roles)
      requires TreeOk(store, m, t) && Owns(roles0, m, t) && d in store && d < U64_LIMIT
      requires num == 15 * |t.data| && MAX_DIRECT <= |t.data| < MAX_SINGLE && NewLink(|t.data|)
      requires l in store && l !in roles0 && l < U64_LIMIT && Quiet(trail) && Near(trail, m, 2)
      modifies this`store, this`trail
      ensures Onward(old(trail), trail)
      ensures Quiet(trail) && Near(trail, m, 6)
      ensures store.Keys == old(store.Keys) && TreeOk(store, m, Grown(t, d, l, l + 1))
      ensures LinkFrame(old(store), store, roles0, m) && SameHeader(old(store)[m], store[m])
    {
      hide Quiet;
      hide Word;
      hide SetWord;
      ghost var n := |t.data|;
      EntryShifts(num);
      CountsGrow(n);
      var junk: Block := *;
      var mb := SetWord(store[m], 16 + num / 7680, l);
      SetWordBut(store[m], 16 + num / 7680, l);
      var lb;
      if num == 7440 {
        var copy := CopyLinksOut(junk, store[m]);
        lb := SetWord(copy, 496, d);
        SetWordBut(copy, 496, d);
        forall k | 0 <= k < 496 ensures LinkCopied(store[m], lb, k) {
          assert LinkCopied(store[m], copy, k);
        }
        GrowFirstLink(store, m, t, d, l, lb, mb);
      } else {
        lb := SetWord(junk, 0, d);
        SetWordBut(junk, 0, d);
        GrowLink(store, roles0, m, t, d, l, lb, mb);
      }
      hide TreeOk;
      if num == 7440 {
        GetAccess(m, 2);
      }
      FillAccess(l, m, if num == 7440 then 0 else 2);
      store := store[l := lb];
      store := store[m := mb];
    }

    /** The next word of the last link block, for the data block of entry number `num`. */
    method PutInEntryLink(m: nat, num: nat, d: nat, ghost t: Tree)
      requires TreeOk(store, m, t) && Owns(roles, m, t) && d in store && d < U64_LIMIT
      requires num == 15 * |t.data| && MAX_DIRECT < |t.data| < MAX_SINGLE && !NewLink(|t.data|)
      requires Quiet(trail) && Near(trail, m, 2)
      modifies this`store, this`trail
      ensures Onward(old(trail), trail)
      ensures store.Keys == old(store.Keys) && TreeOk(store, m, Grown(t, d, 0, 0))
      ensures LinkFrame(old(store), store, roles, m) && SameHeader(old(store)[m], store[m])
      ensures Quiet(trail) && Near(trail, m, 6)
    {
      hide Quiet;
      hide Word;
      hide SetWord;
      ghost var n := |t.data|;
      EntryShifts(num);
      CountsGrow(n);
      Route(store, m, t, n - 1);
      GetAccess(m, 2);
      var l := Word(store[m], 16 + num / 7680);
      var k := num % 7680 / 15;
      assert OwnsLink(roles, m, t, n / 512);
      SetWordBut(store[l], k, d);
      GrowInLink(store, roles, m, t, d, SetWord(store[l], k, d));
      hide TreeOk;
      ReadRewriteAccess(l, m, 0);
      store := store[l := SetWord(store[l], k, d)];
    }

    /** Linking the data block of entry number `num`, a multiple of 15. */
    method LinkEntryBlock(m: nat, num: nat, d: nat, ghost t: Tree) returns (ok: bool)
      requires AllocOk(sb, roles, leaked) && Stored(store, sb) && MayAllocate(sb, Links)
      requires TreeOk(store, m, t) && Owns(roles, m, t) && d in store && d < U64_LIMIT
      requires num == 15 * |t.data| && |t.data| < MAX_SINGLE
      requires Quiet(trail) && Near(trail, m, 2)
      modifies this`sb, this`store, this`roles, this`trail
      ensures Onward(old(trail), trail)
      ensures Quiet(trail) && Near(trail, m, 6)
      ensures var n, l := |t.data|, old(sb.emptyAreaStart);
              && (ok <==> l + BlocksFor(n) - 1 <= old(sb.numBlocks))
              && (ok ==>
                    && TxnKept(old(sb), sb) && sb.emptyAreaStart == l + BlocksFor(n) - 1
                    && AllocOk(sb, roles, leaked) && store.Keys == old(store.Keys)
                    && TreeOk(store, m, Grown(t, d, l, l + 1)) && roles == LinkRoles(old(roles), m, t, l, l + 1)
                    && LinkFrame(old(store), store, old(roles), m) && m in old(store)
                    && SameHeader(old(store)[m], store[m]))
    {
      hide Quiet;
      hide Word;
      hide SetWord;
      hide AllocOk;
      ghost var n := |t.data|;
      assert sb.emptyAreaStart <= sb.numBlocks by { AllocRange(sb, roles, leaked); }
      EntryShifts(num);
      CountsGrow(n);
      if num < 7440 {
        var mb := SetWord(store[m], 16 + num / 15, d);
        SetWordBut(store[m], 16 + num / 15, d);
        GrowDirect(store, m, t, d, mb);
        hide TreeOk;
        store := store[m := mb];
        assert Grown(t, d, sb.emptyAreaStart, sb.emptyAreaStart + 1) == Grown(t, d, 0, 0);
        ok := true;
      } else if num == 7440 || num % 7680 == 0 {
        hide TreeOk;
        hide Owns;
        var r := Allocate(Links, Use(m, Link(|t.links|)));
        ok := r.Ok?;
        if ok {
          PutNewEntryLink(m, num, d, r.value, t, old(roles));
        }
      } else {
        hide TreeOk;
        hide Owns;
        PutInEntryLink(m, num, d, t);
        assert Grown(t, d, sb.emptyAreaStart, sb.emptyAreaStart + 1) == Grown(t, d, 0, 0);
        ok := true;
      }
    }

    /** The loop that copies the 14 entries of a metadata block to a data block. */
    static method CopyEntriesOut(meta: Block) returns (db: Block)
      ensures forall k | 0 <= k < 14 :: EntryAt(db, k) == EntryAt(meta, k + 1)
    {
      hide EntryAt;
      hide CopyEntry;
      db := *;
      for idx := 0 to 14
        invariant forall k | 0 <= k < idx :: EntryAt(db, k) == EntryAt(meta, k + 1)
      {
        forall k | 0 <= k < 15 { EntryOfCopy(db, idx, meta, idx + 1, k); }
        db := CopyEntry(db, idx, meta, idx + 1);
      }
    }

    /** The 15th entry: the 14 in the metadata block move to a data block with it. */
    method AddSpill(m: nat, e: Entry) returns (ok: bool)
      requires Device(sb, store, objs, roles, leaked) && MayAllocate(sb, DataBlock) && m in objs && objs[m].body.Dir?
      requires |objs[m].body.entries| == 14
      requires |e.name| <= 255 && e.id.blockNo < U64_LIMIT && e.id.generation < U64_LIMIT
      requires Quiet(trail) && Near(trail, m, 0)
      modifies this
      ensures Onward(old(trail), trail)
      ensures Quiet(trail)
      ensures ok <==> old(sb.emptyAreaStart) < old(sb.numBlocks)
      ensures ok ==> sb.emptyAreaStart == old(sb.emptyAreaStart) + 1
      ensures ok ==> Device(sb, store, objs, roles, leaked) && TxnKept(old(sb), sb)
                     && EntryPlaced(old(sb.emptyAreaStart), old(objs), objs, m, e)
    {
      hide Quiet;
      hide Near;
      hide AllocOk;
      hide AllHeld;
      hide Word;
      hide SetWord;
      hide EntryAt;
      hide SetEntry;
      hide CopyEntry;
      hide Owns;
      hide AllInTree;
      hide ObjOk;
      ghost var es := objs[m].body.entries;
      DirFacts(sb, store, objs, roles, leaked, m);
      var r := Allocate(DataBlock, Use(m, Data(0)));
      ok := r.Ok?;
      if ok {
        var d := r.value;
        var copy := CopyEntriesOut(store[m]);
        var db := SetEntry(copy, 14, e);
        EntryOfSet(copy, 14, e, 14);
        forall k | 0 <= k < 14 ensures EntryAt(db, k) == es[k] {
          EntryOfSet(copy, 14, e, k);
          assert MetaEntryOk(store[m], es, k);
        }
        SpillAccess(m, d);
        store := store[d := db];
        store := store[m := SetWord(SetWord(store[m], 16, d), 4, 15)];
        objs := objs[m := objs[m].(body := Dir(es + [e]), tree := Tree([d], [], []))];
        EntrySpilled(old(store), old(roles), m, old(objs)[m], es, e, d, db);
        SpilledKept(old(store), store, old(objs), old(roles), m, d);
        OneChanged(old(store), store, old(objs), old(roles), roles, m, objs[m]);
      }
    }

    /** The first entry of a new data block. */
    method AddNewBlock(m: nat, e: Entry) returns (ok: bool)
      requires Device(sb, store, objs, roles, leaked) && MayAllocate(sb, DataBlock) && MayAllocate(sb, Links)
      requires m in objs && objs[m].body.Dir?
      requires var num := |objs[m].body.entries|; 14 < num < MAX_DIR_ENTRIES && num % 15 == 0
      requires |e.name| <= 255 && e.id.blockNo < U64_LIMIT && e.id.generation < U64_LIMIT
      requires Quiet(trail) && Near(trail, m, 0)
      modifies this
      ensures Onward(old(trail), trail)
      ensures Quiet(trail)
      ensures ok <==> old(sb.emptyAreaStart) + BlocksFor(|old(objs)[m].body.entries| / 15) <= old(sb.numBlocks)
      ensures ok ==> sb.emptyAreaStart == old(sb.emptyAreaStart) + BlocksFor(|old(objs)[m].body.entries| / 15)
      ensures ok ==> Device(sb, store, objs, roles, leaked) && TxnKept(old(sb), sb)
                     && EntryPlaced(old(sb.emptyAreaStart), old(objs), objs, m, e)
    {
      hide Quiet;
      hide Near;
      hide AllocOk;
      hide AllHeld;
      hide Word;
      hide SetWord;
      hide EntryAt;
      hide SetEntry;
      hide Owns;
      hide AllInTree;
      hide ObjOk;
      hide TreeOk;
      hide LinkFrame;
      hide NewLink;
      hide NewLol;
      hide Grown;
      hide GrownBy;
      hide BlocksFor;
      hide LinkRoles;
      ghost var es, t := objs[m].body.entries, objs[m].tree;
      DirFacts(sb, store, objs, roles, leaked, m);
      hide DirOk;
      var num := Word(store[m], 4);
      assert num == 15 * |t.data|;
      GrownSome(t, sb.emptyAreaStart, |t.data|);
      var r := Allocate(DataBlock, Use(m, Data(|t.data|)));
      if !r.Ok? {
        return false;
      }
      var d := r.value;
      ghost var l := sb.emptyAreaStart;
      var junk: Block := *;
      var db := SetEntry(junk, 0, e);
      EntryOfSet(junk, 0, e, 0);
      FillAccess(d, m, 0);
      store := store[d := db];
      DataStored(old(store), old(roles), roles, m, t, d, db);
      ok := LinkEntryBlock(m, num, d, t);
      if ok {
        ghost var store2 := store;
        RewriteAccess(m, 6);
        store := store[m := SetWord(store[m], 4, num + 1)];
        objs := objs[m := objs[m].(body := Dir(es + [e]), tree := Grown(t, d, l, l + 1))];
        EntryBlockAdded(old(sb), old(store), old(objs), old(roles), leaked, m, es, e, d, l, db, store2, store, objs,
                        roles);
      }
    }

    /** An entry in the last data block. */
    method AddInBlock(m: nat, e: Entry)
      requires Device(sb, store, objs, roles, leaked) && m in objs && objs[m].body.Dir?
      requires var num := |objs[m].body.entries|; 14 < num < MAX_DIR_ENTRIES && num % 15 != 0
      requires |e.name| <= 255 && e.id.blockNo < U64_LIMIT && e.id.generation < U64_LIMIT
      requires Quiet(trail) && Near(trail, m, 0)
      modifies this`store, this`objs, this`trail
      ensures Onward(old(trail), trail)
      ensures Quiet(trail)
      ensures Device(sb, store, objs, roles, leaked)
      ensures EntryPlaced(sb.emptyAreaStart, old(objs), objs, m, e)
    {
      hide Quiet;
      hide Near;
      hide AllocOk;
      hide AllHeld;
      hide Word;
      hide SetWord;
      hide EntryAt;
      hide SetEntry;
      hide Owns;
      hide AllInTree;
      hide ObjOk;
      hide TreeOk;
      ghost var es, t := objs[m].body.entries, objs[m].tree;
      DirFacts(sb, store, objs, roles, leaked, m);
      hide DirOk;
      var num := Word(store[m], 4);
      Route(store, m, t, num / 15);
      EntryShifts(num);
      var d, l := 0, 0;
      if num < 7440 {
        d := Word(store[m], 16 + num / 15);
      } else {
        l := Word(store[m], 16 + num / 7680);
        d := Word(store[l], num % 7680 / 15);
      }
      var db := SetEntry(store[d], num % 15, e);
      forall k | 0 <= k < 15 { EntryOfSet(store[d], num % 15, e, k); }
      EntryPut(store, roles, m, objs[m], es, num, e, d, db);
      EntryAccess(m, num >= 7440, l, d);
      store := store[d := db];
      store := store[m := SetWord(store[m], 4, num + 1)];
      objs := objs[m := objs[m].(body := Dir(es + [e]))];
      OwnBlocksChanged(old(store), store, old(objs), roles, m, d, num / 15);
      OneChanged(old(store), store, old(objs), roles, roles, m, objs[m]);
    }

    /** add_directory_entry_inner: appends the entry, in every layout. */
    method AddEntryInner(m: nat, e: Entry) returns (ok: bool)
      requires Device(sb, store, objs, roles, leaked) && MayAllocate(sb, DataBlock) && MayAllocate(sb, Links)
      requires m in objs && objs[m].body.Dir? && |objs[m].body.entries| < MAX_DIR_ENTRIES
      requires |e.name| <= 255 && e.id.blockNo < U64_LIMIT && e.id.generation < U64_LIMIT
      requires Quiet(trail) && Near(trail, m, 6)
      modifies this
      ensures Onward(old(trail), trail)
      ensures Quiet(trail)
      ensures ok <==> old(sb.emptyAreaStart) + EntryBlocksFor(|old(objs)[m].body.entries|) <= old(sb.numBlocks)
      ensures ok ==> sb.emptyAreaStart == old(sb.emptyAreaStart) + EntryBlocksFor(|old(objs)[m].body.entries|)
      ensures ok ==> Device(sb, store, objs, roles, leaked) && TxnKept(old(sb), sb)
                     && EntryPlaced(old(sb.emptyAreaStart), old(objs), objs, m, e)
    {
      hide Quiet;
      hide Near;
      hide AllocOk;
      hide AllHeld;
      hide Word;
      hide SetWord;
      hide SetEntry;
      hide Owns;
      hide AllInTree;
      hide ObjOk;
      hide BlocksFor;
      hide DirOk;
      ghost var es := objs[m].body.entries;
      DirFacts(sb, store, objs, roles, leaked, m);
      assert sb.emptyAreaStart <= sb.numBlocks by { AllocRange(sb, roles, leaked); }
      assert BlocksFor(0) == 1 by { OneBlock(); }
      GetAccess(m, 6);
      var num := Word(store[m], 4);
      if num < 14 {
        RewriteAccess(m, 0);
        AddedInMeta(store, m, objs[m], es, e);
        store := store[m := SetEntry(SetWord(store[m], 4, num + 1), num + 1, e)];
        objs := objs[m := objs[m].(body := Dir(es + [e]))];
        MetaChanged(old(store), store, old(objs), roles, m);
        OneChanged(old(store), store, old(objs), roles, roles, m, objs[m]);
        ok := true;
      } else if num == 14 {
        ok := AddSpill(m, e);
      } else if num % 15 == 0 {
        ok := AddNewBlock(m, e);
      } else {
        AddInBlock(m, e);
        ok := true;
      }
    }

    // -------------------------------------------------------------------------------------
    // Removing directory entries
    // -------------------------------------------------------------------------------------

    /** The last entry over the removed one, in data blocks. Returns the last data and link blocks. */
    method FillHole(m: nat, num: nat, b: nat, pos: nat, ghost i: nat) returns (lb: nat, l: nat)
      requires Device(sb, store, objs, roles, leaked) && m in objs && objs[m].body.Dir?
      requires num == |objs[m].body.entries| && 14 < num && i < num
      requires |objs[m].tree.data| == EntryBlocks(num) && (b, pos) == Location(m, objs[m].body.entries, objs[m].tree, i)
      requires Quiet(trail) && Near(trail, m, 0) && Near(trail, b, 1)
      modifies this`store, this`trail
      ensures Onward(old(trail), trail)
      ensures Quiet(trail) && Near(trail, m, 6)
      ensures (num == 15 ==> Near(trail, lb, 6)) && (num > 7440 ==> Near(trail, l, 6))
      ensures m in store && m in old(store) && store[m] == old(store)[m]
      ensures forall x | x in old(store) && x !in objs[m].tree.data :: x in store && store[x] == old(store)[x]
      ensures Stored(store, sb)
      ensures var es, t := objs[m].body.entries, objs[m].tree;
              && ObjOk(store, m, objs[m].(body := Dir(es[i := es[num - 1]])))
              && lb == t.data[(num - 1) / 15]
              && (num > 7440 ==> (num - 1) / 7680 < |t.links| && l == t.links[(num - 1) / 7680])
    {
      hide Quiet;
      hide Near;
      hide Device;
      hide AllocOk;
      hide Word;
      hide EntryAt;
      hide Owns;
      hide ObjOk;
      hide TreeOk;
      hide CopyEntry;
      hide Dropped;
      ghost var es, o := objs[m].body.entries, objs[m];
      DirFacts(sb, store, objs, roles, leaked, m);
      LastEntry(store, roles, m, o, es);
      BlockHolds(store, m, es, o.tree, i / 15);
      hide DirOk;
      var p := num - 1;
      if num <= 7440 {
        l := 0;
        lb := Word(store[m], 16 + p / 15);
      } else {
        l := Word(store[m], 16 + p / 7680);
        lb := Word(store[l], p % 7680 / 15);
      }
      HoleAccess(m, num > 7440, l, (b, pos) != (lb, p % 15), lb, b);
      if (b, pos) != (lb, p % 15) {
        store := store[b := CopyEntry(store[b], pos, store[lb], p % 15)];
      }
      HoleFilled(old(store), roles, m, o, es, i, store);
    }

    /** The loop that copies the first 14 entries of a data block back to a metadata block. */
    static method CopyEntriesIn(meta: Block, b: Block) returns (mb: Block)
      ensures SameHeader(meta, mb)
      ensures forall k | 0 <= k < 14 :: EntryAt(mb, k + 1) == EntryAt(b, k)
    {
      hide EntryAt;
      hide Word;
      mb := meta;
      for idx := 0 to 14
        invariant SameHeader(meta, mb)
        invariant forall k | 0 <= k < idx :: EntryAt(mb, k + 1) == EntryAt(b, k)
      {
        forall k | 0 <= k < 15 { EntryOfCopy(mb, idx + 1, b, idx, k); }
        PasteKeepsHeader(mb, 272 * (idx + 1), b[272 * idx..272 * idx + 272]);
        mb := CopyEntry(mb, idx + 1, b, idx);
      }
    }

    /**
     The rest of remove_directory_entry_inner, with data blocks: the last entry goes, and the
     blocks it leaves unused are marked for freeing. `o` is the directory after FillHole.
     */
    method DropLastEntry(m: nat, num: nat, lb: nat, l: nat, ghost o: Obj) returns (ghost o': Obj, ghost gone: set<nat>)
      requires ObjOk(store, m, o) && o.body.Dir? && Owns(roles, m, o.tree) && AllInTree(roles, m, o.tree)
      requires num == |o.body.entries| && 14 < num && (num - 1) / 15 < |o.tree.data|
      requires lb == o.tree.data[(num - 1) / 15]
      requires num > 7440 ==> (num - 1) / 7680 < |o.tree.links| && l == o.tree.links[(num - 1) / 7680]
      requires sb.txnData == 0 && sb.txnLink == 0 && 0 !in roles
      requires Quiet(trail) && Near(trail, m, 6) && (num == 15 ==> Near(trail, lb, 6))
      requires num > 7440 ==> Near(trail, l, 6)
      modifies this`sb, this`store, this`trail
      ensures Onward(old(trail), trail)
      ensures Quiet(trail)
      ensures m in store && forall x | x in old(store) && x != m :: x in store && store[x] == old(store)[x]
      ensures ObjOk(store, m, o') && o' == o.(body := Dir(o.body.entries[..num - 1]), tree := o'.tree)
      ensures Owns(roles - gone, m, o'.tree) && AllInTree(roles - gone, m, o'.tree)
      ensures forall x | x in gone :: x in roles && roles[x].owner == m && x != m
      ensures sb == old(sb).(txnData := sb.txnData, txnLink := sb.txnLink)
      ensures (sb.txnLink != 0 ==> sb.txnLink != sb.txnData)
      ensures gone == (if sb.txnData != 0 then {sb.txnData} else {}) + if sb.txnLink != 0 then {sb.txnLink} else {}
      ensures Marked(sb) == EntryFrees(num, o.tree) && Counted(o.tree) && o'.tree == EntryLess(num, o.tree)
    {
      hide Quiet;
      hide Near;
      hide Word;
      hide SetWord;
      hide EntryAt;
      hide TreeOk;
      hide HeaderOk;
      ghost var es := o.body.entries;
      LastEntry(store, roles, m, o, es);
      EntryFreesAre(num, o.tree);
      assert OwnsData(roles, m, o.tree, (num - 1) / 15);
      assert num > 7440 ==> OwnsLink(roles, m, o.tree, (num - 1) / 7680);
      hide DirOk;
      DropAccess(m, if num == 15 then lb else l, num == 15 || num == 7441);
      if num == 15 {
        gone, o' := Dropped(o.tree), o.(body := Dir(es[..14]), tree := EMPTY);
        SingleTree(roles, m, o.tree);
        var b := CopyEntriesIn(store[m], store[lb]);
        EntriesUnspilled(store, m, o, es, b);
        sb := sb.(txnData := lb);
        store := store[m := SetWord(b, 4, 14)];
      } else if (num - 1) % 15 != 0 {
        gone, o' := {}, o.(body := Dir(es[..num - 1]));
        NoneGone(roles);
        LastEntryCut(store, roles, m, o, es);
        store := store[m := SetWord(store[m], 4, num - 1)];
      } else {
        gone, o' := Dropped(o.tree), o.(body := Dir(es[..num - 1]), tree := Shrunk(o.tree));
        ShrunkOwns(roles, m, o.tree);
        var b := store[m];
        sb := sb.(txnData := lb);
        if num == 7441 {
          b := CopyLinks(store[m], store[l]);
        }
        if num == 7441 || (num > 7440 && num % 7680 == 1) {
          sb := sb.(txnLink := l);
        }
        ShrunkMeta(store, roles, m, o, es, b);
        LastBlockDropped(store, roles, m, o, es, SetWord(b, 4, num - 1));
        store := store[m := SetWord(b, 4, num - 1)];
      }
    }

    /**
     remove_directory_entry_inner: the last entry takes the place of the removed one. The blocks
     left unused are recorded in the transaction for the caller to free.
     */
    method RemoveEntryInner(m: nat, id: EntryId) returns (found: bool, ghost i: nat, ghost gone: set<nat>)
      requires Device(sb, store, objs, roles, leaked) && m in objs && objs[m].body.Dir? && sb.txnData == 0
      requires sb.txnLink == 0 && Quiet(trail)
      modifies this`sb, this`store, this`objs, this`trail
      ensures Onward(old(trail), trail)
      ensures Quiet(trail)
      ensures !found ==> NoneBefore(old(objs)[m].body.entries, (e: Entry) => e.id == id, |old(objs)[m].body.entries|)
      ensures found ==>
                && var es := old(objs)[m].body.entries;
                && i < |es| && es[i].id == id && DirUpdated(old(objs), objs, m, SwapRemove(es, i))
                && AllocOk(sb, roles, leaked) && Stored(store, sb) && AllHeld(store, objs, roles - gone)
                && (forall x | x in gone :: x in roles && roles[x].owner == m && x != m)
                && sb == old(sb).(txnData := sb.txnData, txnLink := sb.txnLink)
                && (sb.txnLink != 0 ==> sb.txnLink != sb.txnData)
                && gone == (if sb.txnData != 0 then {sb.txnData} else {})
                           + (if sb.txnLink != 0 then {sb.txnLink} else {})
                && var t := old(objs)[m].tree;
                && Marked(sb) == EntryFrees(|es|, t) && Counted(t) && objs[m].tree == EntryLess(|es|, t)
    {
      hide Quiet;
      hide Near;
      hide AllocOk;
      hide AllHeld;
      hide Word;
      hide SetWord;
      hide EntryAt;
      hide Owns;
      hide AllInTree;
      hide ObjOk;
      hide TreeOk;
      hide CopyEntry;
      ghost var es, o := objs[m].body.entries, objs[m];
      DirFacts(sb, store, objs, roles, leaked, m);
      FreshZero(sb, roles, leaked);
      var b, pos;
      found, b, pos, i := FindEntry(m, (e: Entry) => e.id == id);
      if !found {
        gone := {};
        return;
      }
      hide DirOk;
      ReadAccess(m, b, 0);
      var num := Word(store[m], 4);
      ghost var o';
      if num <= 14 {
        gone := {};
        NoneGone(roles);
        DropHere(m, pos < num);
        var mb := if pos < num then CopyEntry(store[m], pos, store[m], num) else store[m];
        RemovedInMeta(store, m, o, es, i, mb);
        o' := o.(body := Dir(SwapRemove(es, i)));
        store := store[m := SetWord(mb, 4, num - 1)];
      } else {
        var lb, l := FillHole(m, num, b, pos, i);
        ghost var o1 := o.(body := Dir(es[i := es[num - 1]]));
        o', gone := DropLastEntry(m, num, lb, l, o1);
      }
      objs := objs[m := o'];
      RemovedHeld(old(store), old(objs), roles, m, o', store, gone);
      AllocTxn(old(sb), sb, roles, leaked);
    }

    // -------------------------------------------------------------------------------------
    // Creating, removing and moving
    // -------------------------------------------------------------------------------------

    /** validate_new_entry. */
    method ValidateNewEntry(id: EntryId, name: Name) returns (r: Result<()>)
      requires Valid() && (1 <= id.blockNo < sb.numBlocks ==> Known(id) || Left(store, roles, id))
      modifies this`trail
      ensures Onward(old(trail), trail)
      ensures Valid() && (r.Ok? ==> Near(trail, id.blockNo, 0))
      ensures !(1 <= id.blockNo < sb.numBlocks) || Known(id) ==> r == NewEntryCheck(sb.numBlocks, objs, id, name)
      ensures 1 <= id.blockNo < sb.numBlocks && !Known(id) ==>
                r == if !ValidName(name) then Err(InvalidArgument)
                     else if id.generation % 2 == 0 then Failed else Ok(())
      ensures r == Err(InvalidArgument) <==>
                || !(1 <= id.blockNo < sb.numBlocks)
                || |name| > 255 || 47 in name || name == [46] || name == [46, 46]
    {
      hide Answered;
      hide Good;
      hide Word;
      hide Device;
      hide Linked;
      hide Generations;
      hide AllocOk;
      hide ObjOk;
      hide Owns;
      hide AllInTree;
      hide DirOk;
      if !ValidName(name) || id.blockNo < 1 || id.blockNo >= sb.numBlocks {
        return Err(InvalidArgument);
      }
      var m := id.blockNo;
      if m in objs { ObjFacts(sb, store, objs, roles, leaked, m); }
      GoodDevice(sb, store, objs, roles, leaked);
      if Word(store[m], 0) != m || Word(store[m], 1) != id.generation || id.generation % 2 == 0 {
        trail := Seen(trail, m);
        return Failed;
      }
      if m in objs { DirFacts(sb, store, objs, roles, leaked, m); }
      ghost var es := if m in objs then objs[m].body.entries else [];
      var found, _, _, i := FindEntry(m, (e: Entry) => e.name == name);
      if found {
        assert es[i].name == name;
        return Err(AlreadyExists);
      }
      trail := Seen(trail, m);
      assert forall k | 0 <= k < |es| :: es[k].name != name;
      if Word(store[m], 4) == MAX_DIR_ENTRIES {
        return Err(TooLarge);
      }
      return Ok(());
    }

    /** The transaction of add_directory_entry, once the name is known to be free. */
    method CreateEntry(parent: EntryId, name: Name, isFile: bool) returns (r: Result<EntryId>)
      requires Valid() && parent.blockNo in objs && sb.generation + 2 < U64_LIMIT
      requires NewEntryCheck(sb.numBlocks, objs, parent, name).Ok?
      requires Near(trail, parent.blockNo, 0)
      modifies this
      ensures Onward(old(trail), trail)
      ensures Quiet(trail)
      ensures r.Ok? <==>
                old(sb.emptyAreaStart) + 1 + NextEntryBlocks(old(objs), parent.blockNo) <= old(sb.numBlocks)
      ensures !r.Err?
      ensures r.Ok? ==>
                && Valid() && r.value == EntryId(old(sb.emptyAreaStart), NextGeneration(old(sb.generation), isFile))
                && r.value.blockNo !in old(objs) && sb.generation == r.value.generation
                && Spends(old(sb).(generation := sb.generation), sb, 1 + NextEntryBlocks(old(objs), parent.blockNo))
                && var o := Obj(r.value.generation, parent, EMPTY, if isFile then File([]) else Dir([]));
                EntryPlaced(r.value.blockNo + 1, old(objs)[r.value.blockNo := o], objs, parent.blockNo,
                            Entry(r.value, name))
    {
      hide Quiet;
      hide Near;
      hide Good;
      hide AllHeld;
      hide AllocOk;
      hide Linked;
      hide Generations;
      hide MetaBlock;
      hide HeaderOk;
      hide EntryBlocksFor;
      ghost var m := parent.blockNo;
      GoodDevice(sb, store, objs, roles, leaked);
      AllocRange(sb, roles, leaked);
      ParentBound(sb, store, objs, roles, leaked, m);
      var generation := NextGeneration(sb.generation, isFile);
      sb := sb.(generation := generation);
      AllocTxn(old(sb), sb, roles, leaked);
      StartTxn(TxnAddNode, parent.blockNo);
      var a := Allocate(Metadata, Use(sb.emptyAreaStart, Meta));
      if !a.Ok? {
        return Failed;
      }
      var id := EntryId(a.value, generation);
      var junk: Block := *;
      ghost var o := Obj(generation, parent, EMPTY, if isFile then File([]) else Dir([]));
      var b := MetaBlock(junk, id, parent);
      MetaBlockOk(junk, o, id.blockNo);
      ObjCreated(store, objs, old(roles), id.blockNo, o, b);
      FillAccess(id.blockNo, m, 0);
      NearLonger(trail, m, 2, 6);
      store := store[id.blockNo := b];
      objs := objs[id.blockNo := o];
      ghost var objs1 := objs;
      var ok := AddEntryInner(parent.blockNo, Entry(id, name));
      if !ok {
        return Failed;
      }
      CommitTxn();
      CreatedLinked(old(objs), objs1, objs, m, id.blockNo, o, name);
      CreatedGood(old(sb), sb, store, old(objs), objs1, objs, roles, leaked, m);
      return Ok(id);
    }

    /** add_directory_entry: a new, empty file or directory, under a name that was free. */
    method AddDirectoryEntry(parent: EntryId, name: Name, isFile: bool) returns (r: Result<EntryId>)
      requires Valid() && (1 <= parent.blockNo < sb.numBlocks ==> Known(parent)) && sb.generation + 2 < U64_LIMIT
      modifies this
      ensures Onward(old(trail), trail)
      ensures var check := NewEntryCheck(old(sb.numBlocks), old(objs), parent, name);
              && (check.Err? ==> r == Err(check.error) && Same())
              && (check.Failed? ==> r.Failed?) && (check.Ok? ==> !r.Err?)
              && (r.Ok? <==>
                    && check.Ok?
                    && old(sb.emptyAreaStart) + 1 + NextEntryBlocks(old(objs), parent.blockNo) <= old(sb.numBlocks))
      ensures r == Err(InvalidArgument) <==>
                || !(1 <= parent.blockNo < old(sb.numBlocks))
                || |name| > 255 || 47 in name || name == [46] || name == [46, 46]
      ensures Quiet(trail) && (r.Err? || r.Ok? ==> Valid())
      ensures r.Ok? ==>
                && r.value == EntryId(old(sb.emptyAreaStart), NextGeneration(old(sb.generation), isFile))
                && r.value.blockNo !in old(objs) && sb.generation == r.value.generation
                && Spends(old(sb).(generation := sb.generation), sb, 1 + NextEntryBlocks(old(objs), parent.blockNo))
                && var o := Obj(r.value.generation, parent, EMPTY, if isFile then File([]) else Dir([]));
                EntryPlaced(r.value.blockNo + 1, old(objs)[r.value.blockNo := o], objs, parent.blockNo,
                            Entry(r.value, name))
    {
      hide Answered;
      hide Good;
      hide EntryBlocksFor;
      var check := ValidateNewEntry(parent, name);
      match check {
        case Err(e) => return Err(e);
        case Failed => return Failed;
        case Ok(_) => r := CreateEntry(parent, name, isFile);
      }
    }

    /** Freeing what RemoveEntryInner marked. */
    method FreeMarked(ghost gone: set<nat>)
      requires AllocOk(sb, roles, leaked) && Stored(store, sb)
      requires gone == (if sb.txnData != 0 then {sb.txnData} else {}) + if sb.txnLink != 0 then {sb.txnLink} else {}
      requires (forall x | x in gone :: x in roles && x != ROOT) && (sb.txnLink != 0 ==> sb.txnLink != sb.txnData)
      requires Quiet(trail)
      modifies this`sb, this`store, this`roles, this`leaked, this`trail
      ensures Onward(old(trail), trail)
      ensures Quiet(trail)
      ensures AllocOk(sb, roles, leaked) && Stored(store, sb) && Frees(old(sb), sb, Marked(old(sb)))
      ensures sb.txnMeta == old(sb.txnMeta) && roles == old(roles) - gone
      ensures forall x | x in old(store) && x !in gone :: x in store && store[x] == old(store)[x]
    {
      hide Quiet;
      hide AllocOk;
      ghost var links := if sb.txnLink != 0 then {sb.txnLink} else {};
      ghost var data := if sb.txnData != 0 then {sb.txnData} else {};
      assert gone == links + data;
      FreeIf(sb.txnLink != 0, Links);
      ghost var sb1 := sb;
      assert TxnSlot(sb, DataBlock) == old(sb.txnData) && TxnSlot(sb, Metadata) == old(sb.txnMeta);
      MinusMinus(old(roles), links, data);
      FreeIf(sb.txnData != 0, DataBlock);
      assert TxnSlot(sb, Metadata) == old(sb.txnMeta);
      FreesJoin(old(sb), sb1, sb, if old(sb.txnLink) != 0 then [old(sb.txnLink)] else [],
                if old(sb.txnData) != 0 then [old(sb.txnData)] else []);
    }

    /** The transaction of remove. */
    method RemoveObj(id: EntryId, p: nat) returns (ghost i: nat)
      requires Valid() && id.blockNo in objs && id == IdOf(objs, id.blockNo) && id.blockNo != ROOT
      requires Size(objs[id.blockNo]) == 0 && p == objs[id.blockNo].parent.blockNo
      modifies this
      ensures Onward(old(trail), trail)
      ensures Valid() && p in old(objs) && p != id.blockNo && old(objs)[p].body.Dir?
      ensures var bs := EntryFrees(|old(objs)[p].body.entries|, old(objs)[p].tree);
              && Frees(old(sb), sb, bs + [id.blockNo])
              && id.blockNo in store && (Accepts(store, id) <==> id.blockNo + 1 == AfterAll(old(sb.emptyAreaStart), bs))
              && (Accepts(store, id) ==> Left(store, roles, id) && Word(store[id.blockNo], 4) == 0)
      ensures var es := old(objs)[p].body.entries;
              i < |es| && es[i].id == id && DirUpdated(old(objs) - {id.blockNo}, objs, p, SwapRemove(es, i))
      ensures Counted(old(objs)[p].tree)
      ensures objs[p].tree == EntryLess(|old(objs)[p].body.entries|, old(objs)[p].tree)
    {
      hide Quiet;
      hide Good;
      hide AllHeld;
      hide AllocOk;
      hide Linked;
      hide Generations;
      hide SwapRemove;
      hide DirUpdated;
      hide EntryFrees;
      hide EntryLess;
      hide Counted;
      hide Marked;
      hide AfterAll;
      hide Left;
      hide Accepts;
      hide Word;
      hide Size;
      var k := id.blockNo;
      GoodDevice(sb, store, objs, roles, leaked);
      RootIn(objs, sb, store, roles, leaked);
      ParentHasEntry(objs, k);
      StartTxn(TxnRemoveNode, p);
      sb := sb.(txnMeta := k);
      AllocTxn(old(sb), sb, roles, leaked);
      var found; ghost var gone;
      found, i, gone := RemoveEntryInner(p, id);
      ghost var objs1, store1 := objs, store;
      OtherKept(old(objs), objs, p, SwapRemove(old(objs)[p].body.entries, i), k);
      RootApart(old(store), old(objs), old(roles), p, gone);
      ObjDeleted(store1, objs1, roles - gone, k);
      StoredHeader(store1, objs1, roles - gone, k);
      RemoveBlocks(id, gone);
      objs := objs - {k};
      UnusedChanged(store1, store, objs, roles);
      AfterRemove(old(sb), sb, store, old(objs), objs1, objs, roles, leaked, p, i, k);
    }

    /** The frees at the end of remove. */
    method RemoveBlocks(id: EntryId, ghost gone: set<nat>)
      requires AllocOk(sb, roles, leaked) && Stored(store, sb) && sb.txnMeta == id.blockNo
      requires gone == (if sb.txnData != 0 then {sb.txnData} else {}) + if sb.txnLink != 0 then {sb.txnLink} else {}
      requires (forall x | x in gone :: x in roles && x != ROOT) && (sb.txnLink != 0 ==> sb.txnLink != sb.txnData)
      requires id.blockNo in roles - gone && id.blockNo != ROOT && id.blockNo in store
      requires Accepts(store, id) && Word(store[id.blockNo], 4) == 0
      requires Quiet(trail)
      modifies this`sb, this`store, this`roles, this`leaked, this`trail
      ensures Onward(old(trail), trail)
      ensures Quiet(trail)
      ensures AllocOk(sb, roles, leaked) && Stored(store, sb) && NoTxn(sb)
      ensures roles == old(roles) - gone - {id.blockNo} && Frees(old(sb), sb, Marked(old(sb)) + [id.blockNo])
      ensures id.blockNo in store && (Accepts(store, id) ==> Left(store, roles, id) && Word(store[id.blockNo], 4) == 0)
      ensures Accepts(store, id) <==> id.blockNo + 1 == AfterAll(old(sb.emptyAreaStart), Marked(old(sb)))
      ensures forall x | x in old(store) && x !in gone && x != id.blockNo :: x in store && store[x] == old(store)[x]
    {
      hide Quiet;
      hide AllocOk;
      hide Word;
      var k := id.blockNo;
      assert k != 0 by { FreshZero(sb, roles, leaked); }
      FreeMarked(gone);
      ghost var sb1 := sb;
      assert k < sb.emptyAreaStart by { UsedBelow(sb, roles, leaked, k); }
      FreeIf(true, Metadata);
      FreesJoin(old(sb), sb1, sb, Marked(old(sb)), [k]);
      AfterOne(sb1.emptyAreaStart, k);
      CommitTxn();
    }

    /** remove: an empty file or directory goes, with its entry and its block. */
    method Remove(id: EntryId) returns (r: Result<()>, ghost i: nat)
      requires Valid() && Known(id)
      modifies this
      ensures Onward(old(trail), trail)
      ensures r == if id.blockNo == ROOT then Err(InvalidArgument)
                   else if !IsLive(old(objs), id) then Err(ValidationFailed)
                   else if Size(old(objs)[id.blockNo]) > 0 then Err(TooLarge)
                   else Ok(())
      ensures Valid() && (r.Err? ==> Same())
      ensures r.Ok? ==>
                && var p := old(objs)[id.blockNo].parent.blockNo;
                && p in old(objs) && p != id.blockNo && old(objs)[p].body.Dir?
                && var es := old(objs)[p].body.entries;
                && i < |es| && es[i].id == id
                && DirUpdated(old(objs) - {id.blockNo}, objs, p, SwapRemove(es, i))
                && Counted(old(objs)[p].tree) && objs[p].tree == EntryLess(|es|, old(objs)[p].tree)
                && var bs := EntryFrees(|es|, old(objs)[p].tree);
                && Frees(old(sb), sb, bs + [id.blockNo]) && id.blockNo in store
                && (Accepts(store, id) <==> id.blockNo + 1 == AfterAll(old(sb.emptyAreaStart), bs))
                && (Accepts(store, id) ==> Left(store, roles, id) && Word(store[id.blockNo], 4) == 0)
    {
      hide Answered;
      hide Good;
      hide Word;
      hide SwapRemove;
      if id.blockNo == ROOT {
        return Err(InvalidArgument), 0;
      }
      var k := id.blockNo;
      if k in objs {
        ObjFacts(sb, store, objs, roles, leaked, k);
        HeaderFacts(sb, store, objs, roles, leaked, k);
      }
      trail := Seen(trail, k);
      if Word(store[k], 0) != k || Word(store[k], 1) != id.generation {
        return Err(ValidationFailed), 0;
      }
      if Word(store[k], 4) > 0 {
        return Err(TooLarge), 0;
      }
      i := RemoveObj(id, Word(store[k], 2));
      r := Ok(());
    }

    /** move_rename inside one directory: only the name in the entry changes. */
    method RenameEntry(id: EntryId, p: nat, name: Name) returns (ghost i: nat)
      requires Valid() && id.blockNo in objs && id == IdOf(objs, id.blockNo) && id.blockNo != ROOT
      requires p == objs[id.blockNo].parent.blockNo && |name| <= 255
      requires p in objs && objs[p].body.Dir?
      requires forall j | 0 <= j < |objs[p].body.entries| :: objs[p].body.entries[j].name != name
      modifies this`store, this`objs, this`trail
      ensures Onward(old(trail), trail)
      ensures Valid()
      ensures var es := old(objs)[p].body.entries;
              i < |es| && es[i].id == id && Renamed(old(objs), objs, p, es[i := Entry(id, name)])
    {
      hide Quiet;
      hide Near;
      hide Good;
      hide AllHeld;
      hide AllocOk;
      hide Linked;
      hide Generations;
      hide Word;
      hide Owns;
      hide ObjOk;
      hide AllInTree;
      hide SetName;
      hide TreeOk;
      GoodDevice(sb, store, objs, roles, leaked);
      ParentHasEntry(objs, id.blockNo);
      DirFacts(sb, store, objs, roles, leaked, p);
      ghost var es, o := objs[p].body.entries, objs[p];
      var found, b, pos;
      found, b, pos, i := FindEntry(p, (e: Entry) => e.id == id);
      if |es| <= 14 {
        RenamedInMeta(store, p, o, es, i, name);
      } else {
        BlockHolds(store, p, es, o.tree, i / 15);
        RenamedInBlock(store, roles, p, o, es, i, name);
      }
      hide DirOk;
      RewriteAccess(b, 0);
      store := store[b := SetName(store[b], pos, name)];
      objs := objs[p := o.(body := Dir(es[i := Entry(id, name)]))];
      if |es| <= 14 {
        MetaChanged(old(store), store, old(objs), roles, p);
      } else {
        OwnBlocksChanged(old(store), store, old(objs), roles, p, b, i / 15);
      }
      OneChanged(old(store), store, old(objs), roles, roles, p, objs[p]);
      Rename(old(objs), p, i, name);
      RenamedGood(sb, store, old(objs), objs, roles, leaked, p);
    }

    /** move_rename to another directory. */
    method MoveEntry(id: EntryId, p: nat, newParent: EntryId, name: Name) returns (ok: bool, ghost i: nat)
      requires Valid() && id.blockNo in objs && id == IdOf(objs, id.blockNo) && id.blockNo != ROOT
      requires p == objs[id.blockNo].parent.blockNo && newParent.blockNo in objs && newParent != objs[id.blockNo].parent
      requires NewEntryCheck(sb.numBlocks, objs, newParent, name).Ok?
      requires Near(trail, id.blockNo, 0) && Near(trail, newParent.blockNo, 1)
      modifies this
      ensures Onward(old(trail), trail)
      ensures Quiet(trail)
      ensures ok <==> old(sb.emptyAreaStart) + NextEntryBlocks(old(objs), newParent.blockNo) <= old(sb.numBlocks)
      ensures ok ==>
                && Valid() && p in old(objs) && p != newParent.blockNo && old(objs)[p].body.Dir?
                && Trades(old(sb), sb, NextEntryBlocks(old(objs), newParent.blockNo),
                          EntryFrees(|old(objs)[p].body.entries|, old(objs)[p].tree))
                && i < |old(objs)[p].body.entries| && old(objs)[p].body.entries[i].id == id
                && MovedTo(old(sb.emptyAreaStart), old(objs), objs, p, i, newParent.blockNo, id.blockNo, name)
    {
      hide Quiet;
      hide Near;
      hide Good;
      hide AllHeld;
      hide AllocOk;
      hide Linked;
      hide Generations;
      hide SetWord;
      hide SwapRemove;
      hide EntryBlocksFor;
      hide MovedObjs;
      hide MovedTo;
      var k, q := id.blockNo, newParent.blockNo;
      GoodDevice(sb, store, objs, roles, leaked);
      RootIn(objs, sb, store, roles, leaked);
      ParentHasEntry(objs, k);
      ParentBound(sb, store, objs, roles, leaked, q);
      ParentBound(sb, store, objs, roles, leaked, k);
      ParentBound(sb, store, objs, roles, leaked, p);
      StartTxn(TxnMove, p);
      sb := sb.(txnMeta := k);
      AllocTxn(old(sb), sb, roles, leaked);
      ObjReparented(store, objs, roles, k, newParent);
      MoveAccess(k, q);
      store := store[k := SetWord(SetWord(store[k], 2, q), 3, newParent.generation)];
      objs := objs[k := objs[k].(parent := newParent)];
      ghost var objs1 := objs;
      ok := AddEntryInner(q, Entry(id, name));
      if !ok {
        i := 0;
        return;
      }
      CheckAccess(k, p, q);
      ghost var objs2, roles2, sb2 := objs, roles, sb;
      sb := sb.(txnData := 0, txnLink := 0, txnLol := 0);
      AllocTxn(sb2, sb, roles, leaked);
      ghost var store2 := store;
      var found; ghost var gone;
      found, i, gone := RemoveEntryInner(p, id);
      ghost var store3 := store;
      RootApart(store2, objs2, roles2, p, gone);
      ghost var sb3 := sb;
      FreeMarked(gone);
      CheckAccess(k, p, q);
      CommitTxn();
      SpendsThenFrees(old(sb), sb3, sb, NextEntryBlocks(old(objs), q), Marked(sb3));
      UnusedChanged(store3, store, objs, roles);
      MovedExactly(old(sb.emptyAreaStart), old(objs), objs1, objs2, objs, p, i, q, k, name);
      AfterMove(old(sb), sb, store, old(objs), objs1, objs2, objs, roles, leaked, p, i, q, k, name);
    }

    /** move_rename: a new name, in the same directory or in another. Ids that do not validate panic. */
    method MoveRename(id: EntryId, newParent: EntryId, name: Name) returns (r: Result<()>, ghost i: nat)
      requires Valid() && Known(id) && Known(newParent)
      modifies this
      ensures Onward(old(trail), trail)
      ensures !(IsLive(old(objs), id) && IsLive(old(objs), newParent)) ==> r.Failed?
      ensures IsLive(old(objs), id) && IsLive(old(objs), newParent) ==>
                var check := NewEntryCheck(old(sb.numBlocks), old(objs), newParent, name);
                && (check.Err? ==> r == Err(check.error))
                && (check.Failed? ==> r.Failed?)
                && (check.Ok? && id.blockNo == ROOT ==> r == Err(InvalidArgument))
                && (check.Ok? && id.blockNo != ROOT ==>
                      && var p, q := old(objs)[id.blockNo].parent.blockNo, newParent.blockNo;
                      && !r.Err? && p in old(objs) && old(objs)[p].body.Dir? && old(objs)[q].body.Dir?
                      && var es, k := old(objs)[p].body.entries, NextEntryBlocks(old(objs), q);
                      && (r.Ok? ==> i < |es| && es[i].id == id)
                      && if p == q then
                           r.Ok? && sb == old(sb) && Renamed(old(objs), objs, p, es[i := Entry(id, name)])
                         else
                           && (r.Ok? <==> old(sb.emptyAreaStart) + k <= old(sb.numBlocks))
                           && (r.Ok? ==> Trades(old(sb), sb, k, EntryFrees(|es|, old(objs)[p].tree)))
                           && (r.Ok? ==> MovedTo(old(sb.emptyAreaStart), old(objs), objs, p, i, q, id.blockNo, name)))
      ensures Quiet(trail) && (r.Err? ==> Same()) && (!r.Failed? ==> Valid())
    {
      hide Answered;
      hide Good;
      hide Word;
      hide MovedTo;
      hide EntryBlocksFor;
      hide Linked;
      hide Generations;
      hide Device;
      i := 0;
      var k, q := id.blockNo, newParent.blockNo;
      if k in objs { ObjFacts(sb, store, objs, roles, leaked, k); }
      if q in objs { ObjFacts(sb, store, objs, roles, leaked, q); }
      trail := Seen(Seen(trail, k), q);
      if !Accepts(store, id) || !Accepts(store, newParent) {
        return Failed, 0;
      }
      var check := ValidateNewEntry(newParent, name);
      match check {
        case Err(e) => return Err(e), 0;
        case Failed => return Failed, 0;
        case Ok(_) =>
      }
      if k == ROOT {
        return Err(InvalidArgument), 0;
      }
      HeaderFacts(sb, store, objs, roles, leaked, k);
      GoodDevice(sb, store, objs, roles, leaked);
      ParentHasEntry(objs, k);
      trail := Seen(trail, k);
      var oldParent := EntryId(Word(store[k], 2), Word(store[k], 3));
      if oldParent == newParent {
        i := RenameEntry(id, oldParent.blockNo, name);
        r := Ok(());
      } else {
        var ok;
        ok, i := MoveEntry(id, oldParent.blockNo, newParent, name);
        r := if ok then Ok(()) else Failed;
      }
    }
  }
}
