/** Runs on formatted devices: which names are taken, and where the file system does not do what it seems meant to. */
module SrfsCases {
  import opened Bytes
  import opened SrfsBlock
  import opened SrfsTree
  import opened SrfsFile
  import opened SrfsDir
  import opened SrfsState
  import opened SrfsSpace
  import opened SrfsTrail
  import opened SrfsFileOps
  import opened SrfsLinks
  import opened SrfsFs
  import opened SrfsCalls

  /** A formatted device with one file of the given contents. */
  method OneFile(numBlocks: nat, blocks: Store, a: Name, buf: seq<Byte>) returns (fs: SyncFileSystem, id: EntryId)
    requires 3 <= numBlocks < U64_LIMIT - 1 && (forall b: nat | b < numBlocks :: b in blocks) && ValidName(a)
    requires |buf| <= MAX_FILE && BlocksOf(|buf|) + 3 <= numBlocks
    ensures fresh(fs) && fs.Valid() && IsLive(fs.objs, id) && fs.objs[id.blockNo].body == File(buf)
    ensures id.generation % 2 == 0 && id.blockNo == 2 && fs.sb.numBlocks == numBlocks
    ensures fs.sb.emptyAreaStart == 3 + BlocksOf(|buf|)
  {
    hide Good;
    hide Quiet;
    hide BlocksOf;
    hide EntryBlocksFor;
    fs := new SyncFileSystem.Format(numBlocks, blocks);
    var root := EntryId(ROOT, 1);
    assert NewEntryCheck(numBlocks, fs.objs, root, a).Ok?;
    assert EntryBlocksFor(0) == 0 by { NoBlocksFor(); }
    var r := fs.AddDirectoryEntry(root, a, true);
    id := r.value;
    assert IsLive(fs.objs, id) && fs.objs[id.blockNo].body == File([]);
    assert BlocksOf(0) == 0 by { NoBlocks(); }
    var ok := WriteWhole(fs, id, 0, buf);
    assert Room(numBlocks - 3, 0, 0, |buf|);
    assert Overlay([], 0, buf) == buf;
  }

  lemma NoBlocks()
    ensures BlocksOf(0) == 0
  {
  }

  lemma NoBlocksFor()
    ensures EntryBlocksFor(0) == 0
  {
  }

  lemma OneBlockOf(size: nat)
    requires MAX_IN_META < size <= 4096
    ensures BlocksOf(size) == 1
  {
  }

  lemma TwoBlocksOf(size: nat)
    requires 4096 < size <= 8192
    ensures BlocksOf(size) == 2
  {
  }

  /** A read of 20 bytes at offset 3990 of a 4000-byte file returns 20 bytes. */
  method ReadPastRun(
    blocks: Store, a: Name, buf: seq<Byte>)
    returns (fs: SyncFileSystem, id: EntryId, r: Result<seq<Byte>>)
    requires (forall b: nat | b < 4 :: b in blocks) && ValidName(a) && |buf| == 4000
    ensures fs.Valid() && IsLive(fs.objs, id) && fs.objs[id.blockNo].body == File(buf)
    ensures r.Ok? && |r.value| == 20 && r.value[..10] == buf[3990..]
  {
    hide Good;
    hide Quiet;
    OneBlockOf(4000);
    fs, id := OneFile(4, blocks, a, buf);
    r := fs.Read(id, 3990, 20);
  }

  /** Reads of a 100-byte file: 10 bytes at offset 0, 50 at offset 60, and at the end. */
  method ShortReadRun(blocks: Store, a: Name, buf: seq<Byte>)
    returns (first: Result<seq<Byte>>, last: Result<seq<Byte>>, none: Result<seq<Byte>>)
    requires (forall b: nat | b < 4 :: b in blocks) && ValidName(a) && |buf| == 100
    ensures first == Ok(buf[..10]) && last == Ok(buf[60..]) && none == Ok([])
  {
    hide Good;
    hide Quiet;
    var fs, id := OneFile(4, blocks, a, buf);
    first := fs.Read(id, 0, 10);
    assert first.value == buf[..10];
    last := fs.Read(id, 60, 50);
    assert last.value == buf[60..];
    none := fs.Read(id, 100, 1);
  }

  /** An empty write at the end of a file with a data block fails. */
  method EmptyAppendRun(
    blocks: Store, a: Name, buf: seq<Byte>)
    returns (fs: SyncFileSystem, id: EntryId, r: Result<nat>)
    requires (forall b: nat | b < 4 :: b in blocks) && ValidName(a) && |buf| == 4000
    ensures r.Failed?
  {
    hide Good;
    hide Quiet;
    OneBlockOf(4000);
    fs, id := OneFile(4, blocks, a, buf);
    r := fs.Write(id, 4000, []);
  }

  /** A file of the largest size cannot grow, however large the device. */
  method FullFileRun(numBlocks: nat, blocks: Store, a: Name, buf: seq<Byte>, more: seq<Byte>)
    returns (fs: SyncFileSystem, id: EntryId, r: Result<nat>)
    requires BlocksOf(MAX_FILE) + 3 <= numBlocks < U64_LIMIT - 1 && (forall b: nat | b < numBlocks :: b in blocks)
    requires ValidName(a) && |buf| == MAX_FILE && more != []
    ensures r.Failed?
  {
    hide Good;
    hide Quiet;
    hide BlocksOf;
    fs, id := OneFile(numBlocks, blocks, a, buf);
    r := fs.Write(id, MAX_FILE, more);
  }

  /** 20 bytes written at offset 4990 of a 5000-byte file are all counted, and half are lost. */
  method LostTailRun(blocks: Store, a: Name, buf: seq<Byte>, more: seq<Byte>)
    returns (fs: SyncFileSystem, id: EntryId, ok: bool)
    requires (forall b: nat | b < 5 :: b in blocks) && ValidName(a) && |buf| == 5000 && |more| == 20
    ensures ok && fs.Valid() && IsLive(fs.objs, id) && fs.objs[id.blockNo].body == File(buf[..4990] + more[..10])
  {
    hide Good;
    hide Quiet;
    TwoBlocksOf(5000);
    fs, id := OneFile(5, blocks, a, buf);
    ghost var free := FreeBlocks(fs.sb);
    assert free >= 0 by { FileLimits(fs.sb, fs.store, fs.objs, fs.roles, fs.leaked, id.blockNo); }
    LostTail(free, buf, more);
    hide WriteAll;
    ok := WriteWhole(fs, id, 4990, more);
  }

  /** What the client of a file gets back is what it wrote, exactly if none of its reads passes the end. */
  method WriteReadRun(numBlocks: nat, blocks: Store, a: Name, buf: seq<Byte>, lens: nat -> nat)
    returns (out: seq<Byte>)
    requires 3 <= numBlocks < U64_LIMIT - 1 && (forall b: nat | b < numBlocks :: b in blocks) && ValidName(a)
    requires |buf| <= MAX_FILE && BlocksOf(|buf|) + 3 <= numBlocks && forall k :: lens(k) > 0
    ensures buf <= out && (out == buf <==> !PassesEnd(|buf|, 0, lens, 0))
  {
    hide Good;
    hide Quiet;
    hide BlocksOf;
    hide PassesEnd;
    var fs, id := OneFile(numBlocks, blocks, a, buf);
    out := ReadWhole(fs, id, 0, lens);
  }

  // ---------------------------------------------------------------------------------------
  // Names
  // ---------------------------------------------------------------------------------------

  /** On a fresh device a name is refused exactly if it is too long, has a slash, or is one or two dots. */
  method NameRun(blocks: Store, name: Name, isFile: bool) returns (fs: SyncFileSystem, r: Result<EntryId>)
    requires forall b: nat | b < 4 :: b in blocks
    ensures fresh(fs) && fs.Valid() && fs.sb.numBlocks == 4 && ROOT in fs.objs
    ensures r.Err? <==> |name| > 255 || 47 in name || name == [46] || name == [46, 46]
    ensures r.Err? ==> r == Err(InvalidArgument) && fs.objs.Keys == {ROOT}
    ensures !r.Err? ==>
              && r.Ok? && IsLive(fs.objs, r.value) && IsLive(fs.objs, EntryId(ROOT, 1)) && r.value.blockNo != ROOT
              && fs.objs[ROOT].body == Dir([Entry(r.value, name)])
              && fs.objs[r.value.blockNo].parent == EntryId(ROOT, 1)
              && fs.objs[r.value.blockNo].body == if isFile then File([]) else Dir([])
  {
    hide Good;
    hide Quiet;
    fs := Files(4, blocks, []);
    FewEntries(0);
    r := fs.AddDirectoryEntry(EntryId(ROOT, 1), name, isFile);
  }

  /** The same for the new name of a file; the name it has is taken already. */
  method RenameRun(blocks: Store, a: Name, name: Name) returns (r: Result<()>)
    requires (forall b: nat | b < 4 :: b in blocks) && ValidName(a)
    ensures r == Err(InvalidArgument) <==> |name| > 255 || 47 in name || name == [46] || name == [46, 46]
    ensures r == Err(AlreadyExists) <==> name == a
    ensures r.Ok? || r.Err?
  {
    hide Good;
    hide Quiet;
    var fs, x := NameRun(blocks, a, true);
    ghost var i;
    r, i := fs.MoveRename(x.value, EntryId(ROOT, 1), name);
  }

  /** "a.txt", "...", no bytes and 255 bytes are names; ".", "..", "a/b" and 256 bytes are not. */
  method SampleNames(blocks: Store, longest: Name, longer: Name) returns (yes: seq<bool>, no: seq<bool>)
    requires (forall b: nat | b < 4 :: b in blocks) && |longest| == 255 && 47 !in longest && |longer| == 256
    ensures yes == [true, true, true, true] && no == [false, false, false, false]
  {
    hide Good;
    hide Quiet;
    var names := [[97, 46, 116, 120, 116], [46, 46, 46], [], longest, [46], [46, 46], [97, 47, 98], longer];
    var took := [];
    for k := 0 to 8
      invariant |took| == k && forall j | 0 <= j < k :: took[j] == (j < 4)
    {
      assert 47 !in [97, 46, 116, 120, 116] && 47 !in [46, 46, 46] && 47 in [97, 47, 98];
      var fs, r := NameRun(blocks, names[k], true);
      took := took + [r.Ok?];
    }
    yes, no := took[..4], took[4..];
  }

  // ---------------------------------------------------------------------------------------
  // Ids of removed objects
  // ---------------------------------------------------------------------------------------

  lemma FewEntries(n: nat)
    requires n < 14
    ensures EntryBlocksFor(n) == 0
  {
  }

  /** A formatted device with an empty file for each of these names in the root directory. */
  method Files(numBlocks: nat, blocks: Store, names: seq<Name>) returns (fs: SyncFileSystem)
    requires |names| <= 14 && |names| + 2 <= numBlocks < U64_LIMIT - 1 && 3 <= numBlocks
    requires (forall b: nat | b < numBlocks :: b in blocks) && forall i | 0 <= i < |names| :: ValidName(names[i])
    requires forall i, j | 0 <= i < j < |names| :: names[i] != names[j]
    ensures fresh(fs) && fs.Valid() && IsLive(fs.objs, EntryId(ROOT, 1)) && fs.sb.numBlocks == numBlocks
    ensures fs.sb.emptyAreaStart == 2 + |names| && fs.sb.generation <= 1 + 2 * |names|
    ensures fs.objs[ROOT].tree == EMPTY && fs.objs[ROOT].body.Dir? && |fs.objs[ROOT].body.entries| == |names|
    ensures forall i | 0 <= i < |names| :: fs.objs[ROOT].body.entries[i].name == names[i]
    ensures names == [] ==> fs.objs.Keys == {ROOT}
  {
    hide Good;
    hide Quiet;
    hide EntryBlocksFor;
    hide ValidName;
    fs := new SyncFileSystem.Format(numBlocks, blocks);
    for n := 0 to |names|
      invariant fresh(fs) && fs.Valid() && IsLive(fs.objs, EntryId(ROOT, 1)) && fs.sb.numBlocks == numBlocks
      invariant fs.sb.emptyAreaStart == 2 + n && fs.sb.generation <= 1 + 2 * n
      invariant fs.objs[ROOT].tree == EMPTY && fs.objs[ROOT].body.Dir? && |fs.objs[ROOT].body.entries| == n
      invariant forall i | 0 <= i < n :: fs.objs[ROOT].body.entries[i].name == names[i]
      invariant n == 0 ==> fs.objs.Keys == {ROOT}
    {
      FewEntries(n);
      assert NewEntryCheck(numBlocks, fs.objs, EntryId(ROOT, 1), names[n]).Ok?;
      var r := fs.AddDirectoryEntry(EntryId(ROOT, 1), names[n], true);
    }
  }

  /** The last object made is removed: its id names nothing, and `validate` still accepts it. */
  method StaleRun(blocks: Store, a: Name) returns (fs: SyncFileSystem, id: EntryId)
    requires (forall b: nat | b < 4 :: b in blocks) && ValidName(a)
    ensures fresh(fs) && fs.Valid() && fs.objs.Keys == {ROOT} && id.blockNo != ROOT && id.generation % 2 == 0
    ensures Left(fs.store, fs.roles, id) && LeftBytes(fs.store, id) == []
  {
    hide Good;
    hide Quiet;
    hide SwapRemove;
    fs := Files(4, blocks, []);
    FewEntries(0);
    assert NewEntryCheck(4, fs.objs, EntryId(ROOT, 1), a).Ok?;
    var r := fs.AddDirectoryEntry(EntryId(ROOT, 1), a, true);
    id := r.value;
    var s, i := fs.Remove(id);
  }

  /**
   The same for a file whose block is not the last in use: the 15th entry of a directory takes a
   data block after it, which goes back first when the file is removed.
   */
  method StaleSpillRun(blocks: Store, names: seq<Name>) returns (fs: SyncFileSystem, id: EntryId, last: bool)
    requires (forall b: nat | b < 18 :: b in blocks) && |names| == 15
    requires forall i | 0 <= i < 15 :: ValidName(names[i])
    requires forall i, j | 0 <= i < j < 15 :: names[i] != names[j]
    ensures fs.Valid() && !IsLive(fs.objs, id) && id.blockNo in fs.store && Accepts(fs.store, id) && !last
  {
    hide Good;
    hide Quiet;
    hide SwapRemove;
    hide ValidName;
    fs := Files(18, blocks, names[..14]);
    assert NewEntryCheck(18, fs.objs, EntryId(ROOT, 1), names[14]).Ok?;
    var r := fs.AddDirectoryEntry(EntryId(ROOT, 1), names[14], true);
    id := r.value;
    last := Last(fs.sb, id.blockNo);
    assert fs.objs[ROOT].tree == Tree([17], [], []);
    assert EntryFrees(15, fs.objs[ROOT].tree) == [17];
    var s, i := fs.Remove(id);
  }

  /** A write through such an id is counted, and can be read back, and no file holds it. */
  method LostWriteRun(blocks: Store, a: Name, buf: seq<Byte>)
    returns (fs: SyncFileSystem, id: EntryId, n: Result<nat>, r: Result<seq<Byte>>)
    requires (forall b: nat | b < 4 :: b in blocks) && ValidName(a) && 0 < |buf| <= MAX_IN_META
    ensures fs.Valid() && fs.objs.Keys == {ROOT} && n == Ok(|buf|) && r == Ok(buf)
  {
    hide Good;
    hide Quiet;
    hide SwapRemove;
    fs, id := StaleRun(blocks, a);
    assert LeftWrite(fs.store, fs.roles, id, 0, buf);
    n := fs.Write(id, 0, buf);
    assert buf[..|buf|] == buf;
    r := fs.Read(id, 0, |buf|);
    assert r.value == buf;
  }
}
