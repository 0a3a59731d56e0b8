/** Runs of calls of a client that keeps the ids it is given, over the whole directory tree. */
module SrfsRuns {
  import opened Bytes
  import opened SrfsTree
  import opened SrfsDir
  import opened SrfsState
  import opened SrfsSpace
  import opened SrfsTrail
  import opened SrfsFileOps
  import opened SrfsLinks
  import opened SrfsDirOps
  import opened SrfsFs
  import opened SrfsRooted

  datatype Call =
    | Add(parent: EntryId, name: Name, isFile: bool)
    | Remove(id: EntryId)
    | Move(id: EntryId, parent: EntryId, name: Name)
    | Write(id: EntryId, offset: nat, buf: seq<Byte>)
    | Truncate(id: EntryId, size: nat)

  /** The ids of all files and directories there are. */
  ghost predicate Live(objs: Objs, ids: set<EntryId>) {
    forall id: EntryId :: id in ids <==> id.blockNo in objs && id == IdOf(objs, id.blockNo)
  }

  // ---------------------------------------------------------------------------------------
  // What a call does to the tree of files and directories, and where it puts their blocks
  // ---------------------------------------------------------------------------------------

  ghost predicate Added(objs: Objs, objs': Objs, parent: EntryId, name: Name, isFile: bool, id: EntryId) {
    && parent.blockNo in objs && objs[parent.blockNo].body.Dir?
    && id.blockNo !in objs
    && var o := Obj(id.generation, parent, EMPTY, if isFile then File([]) else Dir([]));
    EntryPlaced(id.blockNo + 1, objs[id.blockNo := o], objs', parent.blockNo, Entry(id, name))
  }

  ghost predicate RemovedAt(objs: Objs, objs': Objs, id: EntryId, i: nat) {
    && id.blockNo in objs
    && var p := objs[id.blockNo].parent.blockNo;
    && p in objs && objs[p].body.Dir?
    && var es := objs[p].body.entries;
    && i < |es| && es[i].id == id && DirUpdated(objs - {id.blockNo}, objs', p, SwapRemove(es, i))
    && Counted(objs[p].tree) && objs'[p].tree == EntryLess(|es|, objs[p].tree)
  }

  ghost predicate MovedFrom(at: nat, objs: Objs, objs': Objs, id: EntryId, q: nat, name: Name, i: nat) {
    && id.blockNo in objs && q in objs && objs[q].body.Dir?
    && var p := objs[id.blockNo].parent.blockNo;
    && p in objs && objs[p].body.Dir?
    && var es := objs[p].body.entries;
    && i < |es| && es[i].id == id
    && if p == q then Renamed(objs, objs', p, es[i := Entry(id, name)])
       else MovedTo(at, objs, objs', p, i, q, id.blockNo, name)
  }

  ghost predicate FilePlaced(objs: Objs, objs': Objs, m: nat, c: seq<Byte>, t: Tree) {
    m in objs && objs' == objs[m := objs[m].(body := File(c), tree := t)]
  }

  /** The id of the next object. */
  function NewId(sb: Superblock, isFile: bool): EntryId {
    EntryId(sb.emptyAreaStart, NextGeneration(sb.generation, isFile))
  }

  /** One call that did not fail. A refused call changes nothing. */
  ghost predicate TreeStep(sb: Superblock, objs: Objs, call: Call, objs': Objs) {
    match call
    case Add(parent, name, isFile) =>
      && parent.blockNo in objs
      && (match NewEntryCheck(sb.numBlocks, objs, parent, name)
          case Ok(_) => Added(objs, objs', parent, name, isFile, NewId(sb, isFile))
          case Err(_) => objs' == objs
          case Failed => false)
    case Remove(id) =>
      && id.blockNo in objs
      && if id.blockNo == ROOT || Size(objs[id.blockNo]) > 0 then objs' == objs
         else exists i :: RemovedAt(objs, objs', id, i)
    case Move(id, parent, name) =>
      && id.blockNo in objs && parent.blockNo in objs
      && (match NewEntryCheck(sb.numBlocks, objs, parent, name)
          case Ok(_) =>
            if id.blockNo == ROOT then objs' == objs
            else exists i :: MovedFrom(sb.emptyAreaStart, objs, objs', id, parent.blockNo, name, i)
          case Err(_) => objs' == objs
          case Failed => false)
    case Write(id, offset, buf) =>
      && id.blockNo in objs
      && (match objs[id.blockNo].body
          case Dir(_) => objs' == objs
          case File(c) =>
            if offset > |c| then objs' == objs
            else
              var t := GrownBy(objs[id.blockNo].tree, sb.emptyAreaStart, WriteBlocks(|c|, offset, |buf|));
              FilePlaced(objs, objs', id.blockNo, Written(c, offset, buf[..WriteCount(|c|, offset, |buf|)]), t))
    case Truncate(id, size) =>
      && id.blockNo in objs
      && (match objs[id.blockNo].body
          case Dir(_) => objs' == objs
          case File(c) =>
            if size > |c| then objs' == objs
            else
              && var t := objs[id.blockNo].tree;
              && Counted(t) && FilePlaced(objs, objs', id.blockNo, c[..size], CutTree(t, DataBlocks(size))))
  }

  /** The call moves a directory into itself or to somewhere below itself, which nothing refuses. */
  ghost predicate MovesUnder(sb: Superblock, objs: Objs, call: Call) {
    && call.Move? && call.parent.blockNo in objs && NewEntryCheck(sb.numBlocks, objs, call.parent, call.name).Ok?
    && call.id.blockNo != ROOT && Reaches(objs, call.parent.blockNo, call.id.blockNo)
  }

  /** A call keeps everything reachable from the root exactly if it does not move a directory under itself. */
  lemma StepRootedIff(sb: Superblock, objs: Objs, call: Call, objs': Objs)
    requires Linked(objs) && Rooted(objs) && TreeStep(sb, objs, call, objs')
    ensures Rooted(objs') <==> !MovesUnder(sb, objs, call)
  {
    hide Linked;
    hide Rooted;
    hide NewEntryCheck;
    hide Added;
    hide RemovedAt;
    hide MovedFrom;
    match call {
      case Add(parent, name, isFile) =>
        if NewEntryCheck(sb.numBlocks, objs, parent, name).Ok? {
          AddRooted(objs, objs', parent, name, isFile, NewId(sb, isFile));
        }
      case Remove(id) =>
        if id.blockNo != ROOT && Size(objs[id.blockNo]) == 0 {
          var i :| RemovedAt(objs, objs', id, i);
          RemoveRooted(objs, objs', id, i);
        }
      case Move(id, parent, name) =>
        if NewEntryCheck(sb.numBlocks, objs, parent, name).Ok? && id.blockNo != ROOT {
          var i :| MovedFrom(sb.emptyAreaStart, objs, objs', id, parent.blockNo, name, i);
          MoveRootedIff(sb.emptyAreaStart, objs, objs', id, parent.blockNo, name, i);
        }
      case Write(id, offset, buf) => SameParentsRooted(objs, objs');
      case Truncate(id, size) => SameParentsRooted(objs, objs');
    }
  }

  lemma AddRooted(objs: Objs, objs': Objs, parent: EntryId, name: Name, isFile: bool, id: EntryId)
    requires Linked(objs) && Rooted(objs) && Added(objs, objs', parent, name, isFile, id)
    ensures Rooted(objs')
  {
    hide Linked;
    hide Rooted;
    AddedRooted(objs, objs', id.blockNo, parent.blockNo);
  }

  lemma RemoveRooted(objs: Objs, objs': Objs, id: EntryId, i: nat)
    requires Linked(objs) && Rooted(objs) && RemovedAt(objs, objs', id, i) && Size(objs[id.blockNo]) == 0
    ensures Rooted(objs')
  {
    hide Linked;
    hide Rooted;
    hide SwapRemove;
    RemovedRooted(objs, objs', id.blockNo);
  }

  lemma MoveRootedIff(at: nat, objs: Objs, objs': Objs, id: EntryId, q: nat, name: Name, i: nat)
    requires Rooted(objs) && MovedFrom(at, objs, objs', id, q, name, i) && id.blockNo != ROOT
    ensures Rooted(objs') <==> !Reaches(objs, q, id.blockNo)
  {
    hide Rooted;
    hide Reaches;
    hide SwapRemove;
    ReparentedRootedIff(objs, objs', id.blockNo, q);
  }

  lemma SameParentsRooted(objs: Objs, objs': Objs)
    requires Rooted(objs) && objs'.Keys == objs.Keys && forall m | m in objs :: objs'[m].parent == objs[m].parent
    ensures Rooted(objs')
  {
    forall m | m in objs ensures Reaches(objs', m, ROOT) {
      var n: nat :| Up(objs, m, n) == ROOT;
      SameUp(objs, objs', m, n);
    }
  }

  lemma {:induction false} SameUp(objs: Objs, objs': Objs, m: nat, n: nat)
    requires objs'.Keys == objs.Keys && forall x | x in objs :: objs'[x].parent == objs[x].parent
    ensures Up(objs', m, n) == Up(objs, m, n)
    decreases n
  {
    if n > 0 && m in objs && m != ROOT {
      SameUp(objs, objs', objs[m].parent.blockNo, n - 1);
    }
  }

  // ---------------------------------------------------------------------------------------
  // When a call fails, and what it does to the superblock and to the ids there are
  // ---------------------------------------------------------------------------------------

  /** There is room for one more entry in directory `d`, and for `more` blocks beside. */
  ghost predicate EntryFits(sb: Superblock, objs: Objs, d: nat, more: nat) {
    d in objs && objs[d].body.Dir? && NextEntryBlocks(objs, d) + more <= FreeBlocks(sb)
  }

  /**
   The call of a client with these ids does not fail: it uses ids that it holds, the generation
   counter is not at its limit, and there are blocks for what it adds.
   */
  ghost predicate Succeeds(sb: Superblock, objs: Objs, ids: set<EntryId>, call: Call) {
    match call
    case Add(parent, name, isFile) =>
      && parent in ids && sb.generation + 2 < U64_LIMIT
      && (match NewEntryCheck(sb.numBlocks, objs, parent, name)
          case Ok(_) => EntryFits(sb, objs, parent.blockNo, 1)
          case Err(_) => true
          case Failed => false)
    case Remove(id) => id in ids
    case Move(id, parent, name) =>
      && id in ids && parent in ids
      && (match NewEntryCheck(sb.numBlocks, objs, parent, name)
          case Ok(_) =>
            || id.blockNo == ROOT || EntryFits(sb, objs, parent.blockNo, 0)
            || (id.blockNo in objs && objs[id.blockNo].parent.blockNo == parent.blockNo)
          case Err(_) => true
          case Failed => false)
    case Write(id, offset, buf) =>
      && id in ids
      && (id.blockNo in objs && objs[id.blockNo].body.File? && offset <= |objs[id.blockNo].body.content| ==>
            Writable(sb, |objs[id.blockNo].body.content|, offset, |buf|))
    case Truncate(id, size) => id in ids
  }

  /** The call makes a new object. */
  ghost predicate Makes(sb: Superblock, objs: Objs, call: Call) {
    call.Add? && NewEntryCheck(sb.numBlocks, objs, call.parent, call.name).Ok?
  }

  /** The call removes an object. */
  ghost predicate Deletes(objs: Objs, call: Call) {
    && call.Remove? && call.id.blockNo != ROOT && call.id.blockNo in objs && Size(objs[call.id.blockNo]) == 0
    && var p := objs[call.id.blockNo].parent.blockNo;
    p in objs && objs[p].body.Dir?
  }

  /** The call moves an object to another directory. */
  ghost predicate Relocates(sb: Superblock, objs: Objs, call: Call) {
    && call.Move? && NewEntryCheck(sb.numBlocks, objs, call.parent, call.name).Ok?
    && call.id.blockNo != ROOT && call.id.blockNo in objs
    && var p := objs[call.id.blockNo].parent.blockNo;
    p in objs && objs[p].body.Dir? && p != call.parent.blockNo
  }

  /** The blocks that a call takes from the empty area. */
  ghost function Takes(sb: Superblock, objs: Objs, call: Call): nat {
    match call
    case Add(parent, _, _) => if Makes(sb, objs, call) then 1 + NextEntryBlocks(objs, parent.blockNo) else 0
    case Move(_, parent, _) => if Relocates(sb, objs, call) then NextEntryBlocks(objs, parent.blockNo) else 0
    case Write(id, offset, buf) =>
      if id.blockNo in objs && objs[id.blockNo].body.File? && offset <= |objs[id.blockNo].body.content|
      then WriteBlocks(|objs[id.blockNo].body.content|, offset, |buf|) else 0
    case _ => 0
  }

  /** The blocks that directory `p` gives up with an entry. */
  ghost function DirFrees(objs: Objs, p: nat): seq<nat>
    requires p in objs && objs[p].body.Dir?
  {
    EntryFrees(|objs[p].body.entries|, objs[p].tree)
  }

  /** The blocks that a call then frees, in this order. */
  ghost function Gives(sb: Superblock, objs: Objs, call: Call): seq<nat> {
    match call
    case Remove(id) =>
      if Deletes(objs, call) then DirFrees(objs, objs[id.blockNo].parent.blockNo) + [id.blockNo] else []
    case Move(id, _, _) => if Relocates(sb, objs, call) then DirFrees(objs, objs[id.blockNo].parent.blockNo) else []
    case Truncate(id, size) =>
      if id.blockNo in objs && Counted(objs[id.blockNo].tree) && objs[id.blockNo].body.File?
         && size <= |objs[id.blockNo].body.content|
      then CutFrees(objs[id.blockNo].tree, DataBlocks(size)) else []
    case _ => []
  }

  ghost function GenerationAfter(sb: Superblock, objs: Objs, call: Call): nat {
    if Makes(sb, objs, call) then NextGeneration(sb.generation, call.isFile) else sb.generation
  }

  /** The superblock after a call that did not fail: the generation used up, blocks taken and blocks freed. */
  ghost predicate SpaceStep(sb: Superblock, objs: Objs, call: Call, sb': Superblock) {
    Trades(sb.(generation := GenerationAfter(sb, objs, call)), sb', Takes(sb, objs, call), Gives(sb, objs, call))
  }

  /** The ids there are after a call. */
  ghost function IdsAfter(sb: Superblock, objs: Objs, ids: set<EntryId>, call: Call): set<EntryId> {
    match call
    case Add(parent, name, isFile) =>
      if NewEntryCheck(sb.numBlocks, objs, parent, name).Ok? then ids + {NewId(sb, isFile)} else ids
    case Remove(id) =>
      if id.blockNo == ROOT || (id.blockNo in objs && Size(objs[id.blockNo]) > 0) then ids else ids - {id}
    case _ => ids
  }

  // ---------------------------------------------------------------------------------------
  // Runs
  // ---------------------------------------------------------------------------------------

  /** The file system and the client between two calls. */
  datatype Moment = Moment(
    sb: Superblock, store: Store, objs: Objs, roles: Roles, leaked: set<nat>, trail: Trail, ids: set<EntryId>)

  ghost predicate Sound(m: Moment) {
    Good(m.sb, m.store, m.objs, m.roles, m.leaked) && Quiet(m.trail) && Live(m.objs, m.ids)
  }

  ghost predicate Step(m: Moment, call: Call, m': Moment) {
    && Succeeds(m.sb, m.objs, m.ids, call) && TreeStep(m.sb, m.objs, call, m'.objs)
    && SpaceStep(m.sb, m.objs, call, m'.sb) && m'.ids == IdsAfter(m.sb, m.objs, m.ids, call)
    && Onward(m.trail, m'.trail)
  }

  ghost predicate Trace(trace: seq<Moment>, calls: seq<Call>) {
    && |trace| == |calls| + 1
    && (forall i | 0 <= i < |trace| :: Sound(trace[i]))
    && (forall i | 0 <= i < |calls| :: Step(trace[i], calls[i], trace[i + 1]))
  }

  lemma SoundLinked(m: Moment)
    requires Sound(m)
    ensures Linked(m.objs)
  {
  }

  /** In every run without a move of a directory under itself, everything stays reachable. */
  lemma {:induction false} TraceRooted(trace: seq<Moment>, calls: seq<Call>, n: nat)
    requires Trace(trace, calls) && n <= |calls| && Rooted(trace[0].objs)
    requires forall i | 0 <= i < n :: !MovesUnder(trace[i].sb, trace[i].objs, calls[i])
    ensures Rooted(trace[n].objs)
    decreases n
  {
    hide Sound;
    hide Rooted;
    hide Linked;
    hide TreeStep;
    hide SpaceStep;
    hide Succeeds;
    hide IdsAfter;
    hide MovesUnder;
    if n > 0 {
      TraceRooted(trace, calls, n - 1);
      SoundLinked(trace[n - 1]);
      assert Step(trace[n - 1], calls[n - 1], trace[n]);
      StepRootedIff(trace[n - 1].sb, trace[n - 1].objs, calls[n - 1], trace[n].objs);
    }
  }

  /** What exists has a generation at most that of the superblock. */
  lemma OldGeneration(m: Moment, id: EntryId)
    requires Sound(m) && id in m.ids
    ensures id.generation <= m.sb.generation
  {
    hide AllHeld;
    hide Linked;
    hide AllocOk;
  }

  /** Generations never fall, and what comes into being has a new one. */
  lemma StepGenerations(m: Moment, call: Call, m': Moment)
    requires Step(m, call, m')
    ensures m'.sb.generation >= m.sb.generation
    ensures forall id | id in m'.ids && id !in m.ids :: id.generation > m.sb.generation
  {
    hide TreeStep;
    hide Succeeds;
    hide NewEntryCheck;
  }

  lemma {:induction false} NewerIds(trace: seq<Moment>, calls: seq<Call>, i: nat, n: nat, id: EntryId)
    requires Trace(trace, calls) && i <= n <= |calls|
    ensures trace[n].sb.generation >= trace[i].sb.generation
    ensures id in trace[n].ids && id !in trace[i].ids ==> id.generation > trace[i].sb.generation
    decreases n
  {
    hide Sound;
    hide Step;
    if i < n {
      NewerIds(trace, calls, i, n - 1, id);
      StepGenerations(trace[n - 1], calls[n - 1], trace[n]);
    }
  }

  /** In every run an id that is gone stays gone: no id is ever issued again. */
  lemma NeverReused(trace: seq<Moment>, calls: seq<Call>, i: nat, j: nat, n: nat, id: EntryId)
    requires Trace(trace, calls) && i <= j <= n <= |calls| && id in trace[i].ids && id !in trace[j].ids
    ensures id !in trace[n].ids
  {
    hide Sound;
    hide Step;
    OldGeneration(trace[i], id);
    NewerIds(trace, calls, i, j, id);
    NewerIds(trace, calls, j, n, id);
  }

  /** In every run all ids issued are different, whatever was removed in between. */
  lemma IssuedApart(trace: seq<Moment>, calls: seq<Call>, i: nat, j: nat)
    requires Trace(trace, calls) && i < j < |calls| && Makes(trace[i].sb, trace[i].objs, calls[i])
    requires Makes(trace[j].sb, trace[j].objs, calls[j])
    ensures NewId(trace[i].sb, calls[i].isFile).generation < NewId(trace[j].sb, calls[j].isFile).generation
  {
    hide Sound;
    hide TreeStep;
    hide Succeeds;
    assert Step(trace[i], calls[i], trace[i + 1]);
    NewerIds(trace, calls, i + 1, j, EntryId(ROOT, 1));
  }

  /** The blocks that a call leaks. */
  ghost function Leaking(m: Moment, call: Call): nat {
    Leaks(m.sb.emptyAreaStart + Takes(m.sb, m.objs, call), Gives(m.sb, m.objs, call))
  }

  ghost function LeakCount(trace: seq<Moment>, calls: seq<Call>, n: nat): nat
    requires n <= |calls| && n <= |trace|
  {
    if n == 0 then 0 else LeakCount(trace, calls, n - 1) + Leaking(trace[n - 1], calls[n - 1])
  }

  lemma StepLeaks(m: Moment, call: Call, m': Moment)
    requires Sound(m) && Sound(m') && Step(m, call, m')
    ensures |m'.leaked| == |m.leaked| + Leaking(m, call)
  {
    hide TreeStep;
    hide Succeeds;
    hide Live;
    hide AllHeld;
    hide Linked;
    hide GenerationAfter;
    hide Takes;
    hide Gives;
    var sb, k, bs := m.sb, Takes(m.sb, m.objs, call), Gives(m.sb, m.objs, call);
    var sb1 := sb.(generation := GenerationAfter(sb, m.objs, call));
    assert AllocOk(sb1, m.roles, m.leaked);
    TradesLeaks(sb1, m.roles, m.leaked, m'.sb, m'.roles, m'.leaked, k, bs);
  }

  /**
   In every run free_blocks is ahead of the blocks that can still be allocated by exactly the number
   of frees so far that were not at the end of the used area.
   */
  lemma {:induction false} TraceLeaks(trace: seq<Moment>, calls: seq<Call>, n: nat)
    requires Trace(trace, calls) && n <= |calls| && trace[0].leaked == {}
    ensures |trace[n].leaked| == LeakCount(trace, calls, n)
    ensures trace[n].sb.freeBlocks == FreeBlocks(trace[n].sb) + LeakCount(trace, calls, n)
    decreases n
  {
    hide Step;
    hide Leaking;
    hide Sound;
    if n > 0 {
      TraceLeaks(trace, calls, n - 1);
      StepLeaks(trace[n - 1], calls[n - 1], trace[n]);
    }
    SoundSpace(trace[n]);
  }

  lemma SoundSpace(m: Moment)
    requires Sound(m)
    ensures m.sb.freeBlocks == FreeBlocks(m.sb) + |m.leaked|
  {
  }

  ghost function Now(fs: SyncFileSystem, ids: set<EntryId>): Moment
    reads fs
  {
    Moment(fs.sb, fs.store, fs.objs, fs.roles, fs.leaked, fs.trail, ids)
  }

  lemma SameLive(objs: Objs, objs': Objs, ids: set<EntryId>)
    requires Live(objs, ids) && objs'.Keys == objs.Keys
    requires forall m | m in objs :: objs'[m].generation == objs[m].generation
    ensures Live(objs', ids)
  {
  }

  /**
   One call of a client that keeps the ids it is given until it removes them. It does not fail
   exactly where Succeeds says so, and then is the step over the plain tree.
   */
  method Perform(fs: SyncFileSystem, ids: set<EntryId>, call: Call) returns (ok: bool, ids': set<EntryId>)
    requires Sound(Now(fs, ids))
    modifies fs
    ensures ok <==> Succeeds(old(fs.sb), old(fs.objs), ids, call)
    ensures ok ==> Sound(Now(fs, ids')) && Step(old(Now(fs, ids)), call, Now(fs, ids'))
  {
    hide Good;
    hide Quiet;
    hide Live;
    hide TreeStep;
    hide SpaceStep;
    hide Succeeds;
    ok, ids' := true, ids;
    match call {
      case Add(parent, name, isFile) => ok, ids' := PerformAdd(fs, ids, parent, name, isFile);
      case Remove(id) => ok, ids' := PerformRemove(fs, ids, id);
      case Move(id, parent, name) => ok := PerformMove(fs, ids, id, parent, name);
      case Write(id, offset, buf) => ok := PerformWrite(fs, ids, id, offset, buf);
      case Truncate(id, size) => ok := PerformTruncate(fs, ids, id, size);
    }
  }

  method PerformAdd(fs: SyncFileSystem, ids: set<EntryId>, parent: EntryId, name: Name, isFile: bool)
    returns (ok: bool, ids': set<EntryId>)
    requires Sound(Now(fs, ids))
    modifies fs
    ensures ok <==> Succeeds(old(fs.sb), old(fs.objs), ids, Add(parent, name, isFile))
    ensures ok ==> Sound(Now(fs, ids')) && Step(old(Now(fs, ids)), Add(parent, name, isFile), Now(fs, ids'))
  {
    hide Good;
    hide Quiet;
    hide NextEntryBlocks;
    if parent !in ids || fs.sb.generation + 2 >= U64_LIMIT {
      return false, ids;
    }
    var r := fs.AddDirectoryEntry(parent, name, isFile);
    match r {
      case Failed => return false, ids;
      case Err(_) => return true, ids;
      case Ok(id) => return true, ids + {id};
    }
  }

  method PerformRemove(fs: SyncFileSystem, ids: set<EntryId>, id: EntryId) returns (ok: bool, ids': set<EntryId>)
    requires Sound(Now(fs, ids))
    modifies fs
    ensures ok <==> Succeeds(old(fs.sb), old(fs.objs), ids, Remove(id))
    ensures ok ==> Sound(Now(fs, ids')) && Step(old(Now(fs, ids)), Remove(id), Now(fs, ids'))
  {
    hide Good;
    hide Quiet;
    hide SwapRemove;
    if id !in ids {
      return false, ids;
    }
    var r, i := fs.Remove(id);
    if r.Ok? {
      assert RemovedAt(old(fs.objs), fs.objs, id, i);
    }
    return true, if r.Ok? then ids - {id} else ids;
  }

  method PerformMove(fs: SyncFileSystem, ids: set<EntryId>, id: EntryId, parent: EntryId, name: Name) returns (ok: bool)
    requires Sound(Now(fs, ids))
    modifies fs
    ensures ok <==> Succeeds(old(fs.sb), old(fs.objs), ids, Move(id, parent, name))
    ensures ok ==> Sound(Now(fs, ids)) && Step(old(Now(fs, ids)), Move(id, parent, name), Now(fs, ids))
  {
    hide Good;
    hide Quiet;
    hide NextEntryBlocks;
    hide SwapRemove;
    if id !in ids || parent !in ids {
      return false;
    }
    var r, i := fs.MoveRename(id, parent, name);
    if r.Ok? {
      assert MovedFrom(old(fs.sb.emptyAreaStart), old(fs.objs), fs.objs, id, parent.blockNo, name, i);
      SameLive(old(fs.objs), fs.objs, ids);
    }
    return !r.Failed?;
  }

  method PerformWrite(
    fs: SyncFileSystem, ids: set<EntryId>, id: EntryId, offset: nat, buf: seq<Byte>)
    returns (ok: bool)
    requires Sound(Now(fs, ids))
    modifies fs
    ensures ok <==> Succeeds(old(fs.sb), old(fs.objs), ids, Write(id, offset, buf))
    ensures ok ==> Sound(Now(fs, ids)) && Step(old(Now(fs, ids)), Write(id, offset, buf), Now(fs, ids))
  {
    hide Good;
    hide Quiet;
    hide Writable;
    if id !in ids {
      return false;
    }
    FileOrDir(fs.sb, fs.store, fs.objs, fs.roles, fs.leaked, id.blockNo);
    var r := fs.Write(id, offset, buf);
    return !r.Failed?;
  }

  method PerformTruncate(fs: SyncFileSystem, ids: set<EntryId>, id: EntryId, size: nat) returns (ok: bool)
    requires Sound(Now(fs, ids))
    modifies fs
    ensures ok <==> Succeeds(old(fs.sb), old(fs.objs), ids, Truncate(id, size))
    ensures ok ==> Sound(Now(fs, ids)) && Step(old(Now(fs, ids)), Truncate(id, size), Now(fs, ids))
  {
    hide Good;
    hide Quiet;
    if id !in ids {
      return false;
    }
    FileOrDir(fs.sb, fs.store, fs.objs, fs.roles, fs.leaked, id.blockNo);
    var r := fs.SetFileSize(id, size);
    return true;
  }

  /** A new file system, and a client that knows the root. */
  ghost predicate Start(m: Moment, numBlocks: nat) {
    && m.objs == map[ROOT := ROOT_OBJ] && m.ids == {EntryId(ROOT, 1)}
    && m.sb.numBlocks == numBlocks && m.sb.emptyAreaStart == 2 && m.sb.generation == 1 && m.leaked == {}
    && m.trail == START
  }

  /**
   Any run of calls from a freshly formatted device, up to the first that fails: it is a run over
   the plain tree of files and directories, the client holds exactly the ids of what there is, and
   everything is reachable from the root unless a directory was moved under itself. The blocks
   counted free and out of reach are those of the frees not at the end of the used area.
   */
  method RunCalls(numBlocks: nat, blocks: Store, calls: seq<Call>)
    returns (done: nat, fs: SyncFileSystem, ids: set<EntryId>, ghost trace: seq<Moment>)
    requires 3 <= numBlocks < U64_LIMIT - 1 && forall b: nat | b < numBlocks :: b in blocks
    ensures done <= |calls| && Trace(trace, calls[..done]) && Start(trace[0], numBlocks)
    ensures if done < |calls| then !Succeeds(trace[done].sb, trace[done].objs, trace[done].ids, calls[done])
            else trace[done] == Now(fs, ids)
    ensures (forall i | 0 <= i < done :: !MovesUnder(trace[i].sb, trace[i].objs, calls[i])) ==> Rooted(trace[done].objs)
    ensures forall i | 0 <= i <= done :: trace[i].sb.freeBlocks == FreeBlocks(trace[i].sb) + LeakCount(trace, calls, i)
  {
    hide Good;
    hide Quiet;
    hide Live;
    hide Step;
    hide Succeeds;
    fs := new SyncFileSystem.Format(numBlocks, blocks);
    ids := {EntryId(ROOT, 1)};
    assert Live(fs.objs, ids) by { RootLive(); }
    trace := [Now(fs, ids)];
    assert Rooted(trace[0].objs) by { assert Up(trace[0].objs, ROOT, 0) == ROOT; }
    hide Rooted;
    done := 0;
    while done < |calls|
      invariant done <= |calls| && fresh(fs) && Sound(Now(fs, ids)) && Trace(trace, calls[..done])
      invariant Start(trace[0], numBlocks) && Rooted(trace[0].objs) && trace[done] == Now(fs, ids)
    {
      var ok, ids' := Perform(fs, ids, calls[done]);
      if !ok {
        KeptRooted(trace, calls, done);
        KeptLeaks(trace, calls, done);
        return;
      }
      LongerTrace(trace, calls, done, Now(fs, ids'));
      ids := ids';
      trace := trace + [Now(fs, ids)];
      done := done + 1;
    }
    KeptRooted(trace, calls, done);
    KeptLeaks(trace, calls, done);
  }

  lemma RootLive()
    ensures Live(map[ROOT := ROOT_OBJ], {EntryId(ROOT, 1)})
  {
  }

  lemma LongerTrace(trace: seq<Moment>, calls: seq<Call>, n: nat, m: Moment)
    requires n < |calls| && Trace(trace, calls[..n]) && Step(trace[n], calls[n], m) && Sound(m)
    ensures Trace(trace + [m], calls[..n + 1])
  {
    hide Step;
    hide Sound;
    var longer, more := trace + [m], calls[..n + 1];
    forall i | 0 <= i < |more| ensures Step(longer[i], more[i], longer[i + 1]) {
      if i < n { assert calls[..n][i] == more[i] && longer[i + 1] == trace[i + 1]; }
    }
  }

  lemma KeptRooted(trace: seq<Moment>, calls: seq<Call>, n: nat)
    requires n <= |calls| && Trace(trace, calls[..n]) && Rooted(trace[0].objs)
    ensures (forall i | 0 <= i < n :: !MovesUnder(trace[i].sb, trace[i].objs, calls[i])) ==> Rooted(trace[n].objs)
  {
    hide Sound;
    hide Step;
    hide Rooted;
    hide MovesUnder;
    if forall i | 0 <= i < n :: !MovesUnder(trace[i].sb, trace[i].objs, calls[i]) {
      TraceRooted(trace, calls[..n], n);
    }
  }

  lemma {:induction false} SameCount(trace: seq<Moment>, calls: seq<Call>, n: nat, i: nat)
    requires i <= n <= |calls| && n < |trace|
    ensures LeakCount(trace, calls[..n], i) == LeakCount(trace, calls, i)
    decreases i
  {
    hide Leaking;
    if i > 0 {
      SameCount(trace, calls, n, i - 1);
      assert calls[..n][i - 1] == calls[i - 1];
    }
  }

  lemma KeptLeaks(trace: seq<Moment>, calls: seq<Call>, n: nat)
    requires n <= |calls| && Trace(trace, calls[..n]) && trace[0].leaked == {}
    ensures forall i | 0 <= i <= n :: trace[i].sb.freeBlocks == FreeBlocks(trace[i].sb) + LeakCount(trace, calls, i)
  {
    hide LeakCount;
    forall i | 0 <= i <= n
      ensures trace[i].sb.freeBlocks == FreeBlocks(trace[i].sb) + LeakCount(trace, calls, i)
    {
      TraceLeaks(trace, calls[..n], i);
      SameCount(trace, calls, n, i);
    }
  }

  /** A directory moved into its own child: both are valid, and neither is reachable any more. */
  method LoopRun(blocks: Store, a: Name, b: Name, c: Name) returns (fs: SyncFileSystem, r: Result<()>)
    requires forall n: nat | n < 4 :: n in blocks
    requires ValidName(a) && ValidName(b) && ValidName(c)
    ensures r.Ok? && fs.Valid() && fs.objs.Keys == {ROOT, 2, 3} && fs.objs[ROOT].body == Dir([])
    ensures !Reaches(fs.objs, 2, ROOT) && !Reaches(fs.objs, 3, ROOT)
  {
    hide Good;
    hide Quiet;
    hide SwapRemove;
    fs := new SyncFileSystem.Format(4, blocks);
    var root := EntryId(ROOT, 1);
    assert NewEntryCheck(4, fs.objs, root, a).Ok?;
    var x := fs.AddDirectoryEntry(root, a, false);
    assert x.Ok? && x.value.blockNo == 2;
    assert NewEntryCheck(4, fs.objs, x.value, b).Ok?;
    var y := fs.AddDirectoryEntry(x.value, b, false);
    assert y.Ok? && y.value.blockNo == 3;
    assert NewEntryCheck(4, fs.objs, y.value, c).Ok?;
    ghost var objs1 := fs.objs;
    ghost var i;
    r, i := fs.MoveRename(x.value, y.value, c);
    assert i == 0;
    assert SwapRemove(objs1[ROOT].body.entries, 0) == [] by { OnlyOne(objs1[ROOT].body.entries); }
    assert Up(fs.objs, 2, 2) == 2;
    CycleHasNoRoot(fs.objs, 2, 2);
    assert Up(fs.objs, 3, 2) == 3;
    CycleHasNoRoot(fs.objs, 3, 2);
  }

  lemma OnlyOne(es: seq<Entry>)
    requires |es| == 1
    ensures SwapRemove(es, 0) == []
  {
  }
}
