/** The state of a mounted srfs and the invariant that every operation keeps. */
module SrfsState {
  import opened Bytes
  import opened SrfsBlock
  import opened SrfsTree
  import opened SrfsFile
  import opened SrfsDir

  datatype TxnType = TxnNone | TxnAddNode | TxnAddBytes | TxnRemoveNode | TxnRemoveBytes | TxnMove

  /** The fields of SuperblockHeader that change after formatting. */
  datatype Superblock = Superblock(
    numBlocks: nat, freeBlocks: nat, generation: nat, freelistHead: nat, emptyAreaStart: nat,
    txnMeta: nat, txnData: nat, txnLink: nat, txnLol: nat, txnOwner: nat, txnType: TxnType)

  datatype Body = File(content: seq<Byte>) | Dir(entries: seq<Entry>)

  /** A file or directory: what its metadata block and its other blocks stand for. */
  datatype Obj = Obj(generation: nat, parent: EntryId, tree: Tree, body: Body)

  type Objs = map<nat, Obj>

  const ROOT: nat := 1

  function Size(o: Obj): nat {
    match o.body case File(c) => |c| case Dir(es) => |es|
  }

  /** The metadata block: id, parent and size in its first five words. */
  ghost predicate HeaderOk(b: Block, m: nat, o: Obj) {
    && Word(b, 0) == m && Word(b, 1) == o.generation
    && Word(b, 2) == o.parent.blockNo && Word(b, 3) == o.parent.generation
    && Word(b, 4) == Size(o)
  }

  /** EntryMetadata::new written to a block: an empty object. */
  function MetaBlock(b: Block, id: EntryId, parent: EntryId): Block {
    SetWord(SetWord(SetWord(SetWord(SetWord(b, 0, id.blockNo), 1, id.generation),
                            2, parent.blockNo), 3, parent.generation), 4, 0)
  }

  lemma MetaBlockOk(b: Block, o: Obj, m: nat)
    requires m < U64_LIMIT && o.generation < U64_LIMIT && Size(o) == 0
    requires o.parent.blockNo < U64_LIMIT && o.parent.generation < U64_LIMIT
    ensures HeaderOk(MetaBlock(b, EntryId(m, o.generation), o.parent), m, o)
  {
    hide Word;
    hide SetWord;
    var b0 := SetWord(b, 0, m);
    var b1 := SetWord(b0, 1, o.generation);
    var b2 := SetWord(b1, 2, o.parent.blockNo);
    var b3 := SetWord(b2, 3, o.parent.generation);
    WordOfSet(b, 0, m, 0);
    forall w | 0 <= w < 2 { WordOfSet(b0, 1, o.generation, w); }
    forall w | 0 <= w < 3 { WordOfSet(b1, 2, o.parent.blockNo, w); }
    forall w | 0 <= w < 4 { WordOfSet(b2, 3, o.parent.generation, w); }
    forall w | 0 <= w < 5 { WordOfSet(b3, 4, 0, w); }
  }

  /** Directories have odd generations, files even ones. */
  ghost predicate BodyOk(store: Store, m: nat, o: Obj) {
    match o.body
    case File(c) => o.generation % 2 == 0 && FileOk(store, m, c, o.tree)
    case Dir(es) => o.generation % 2 == 1 && DirOk(store, m, es, o.tree)
  }

  ghost predicate ObjOk(store: Store, m: nat, o: Obj) {
    m in store && HeaderOk(store[m], m, o) && BodyOk(store, m, o)
  }

  ghost predicate Accounted(b: nat, roles: Roles, leaked: set<nat>) {
    b in roles || b in leaked
  }

  /**
   The block accounting: every block below the empty area is used in one place or leaked, and
   free_blocks counts the empty area and the leaked blocks.
   */
  ghost predicate AllocOk(sb: Superblock, roles: Roles, leaked: set<nat>) {
    && 2 <= sb.emptyAreaStart <= sb.numBlocks < U64_LIMIT
    && sb.freelistHead == 0
    && sb.freeBlocks == sb.numBlocks - sb.emptyAreaStart + |leaked|
    && (forall b | b in roles :: 1 <= b < sb.emptyAreaStart && b !in leaked)
    && (forall b | b in leaked :: 1 <= b < sb.emptyAreaStart)
    && (forall b | 1 <= b < sb.emptyAreaStart :: Accounted(b, roles, leaked))
  }

  ghost predicate NoTxn(sb: Superblock) {
    sb.txnMeta == 0 && sb.txnData == 0 && sb.txnLink == 0 && sb.txnLol == 0 && sb.txnOwner == 0 && sb.txnType.TxnNone?
  }

  ghost predicate Stored(store: Store, sb: Superblock) {
    forall b: nat | b < sb.numBlocks :: b in store
  }

  ghost predicate Held(store: Store, objs: Objs, roles: Roles, m: nat)
    requires m in objs
  {
    ObjOk(store, m, objs[m]) && Owns(roles, m, objs[m].tree) && AllInTree(roles, m, objs[m].tree)
  }

  /** Every object is on the device, in blocks used for nothing else. */
  ghost predicate AllHeld(store: Store, objs: Objs, roles: Roles) {
    && (forall m | m in objs :: Held(store, objs, roles, m))
    && (forall b | b in roles :: roles[b].owner in objs)
  }

  // ---------------------------------------------------------------------------------------
  // The directory tree
  // ---------------------------------------------------------------------------------------

  function IdOf(objs: Objs, m: nat): EntryId
    requires m in objs
  {
    EntryId(m, objs[m].generation)
  }

  /** The id of a file or directory that exists. */
  ghost predicate IsLive(objs: Objs, id: EntryId) {
    id.blockNo in objs && id == IdOf(objs, id.blockNo)
  }

  /** What `validate` looks for in the block that an id names, the checksum aside. */
  predicate Accepts(store: Store, id: EntryId)
    requires id.blockNo in store
  {
    Word(store[id.blockNo], 0) == id.blockNo && Word(store[id.blockNo], 1) == id.generation
  }

  /** An entry of directory `d` names a live object whose parent is `d`. */
  ghost predicate ChildOk(objs: Objs, d: nat, e: Entry)
    requires d in objs
  {
    && e.id.blockNo in objs && e.id.blockNo != ROOT
    && e.id == IdOf(objs, e.id.blockNo)
    && objs[e.id.blockNo].parent == IdOf(objs, d)
  }

  ghost predicate DistinctEntries(es: seq<Entry>) {
    forall i, j | 0 <= i < j < |es| :: es[i].name != es[j].name && es[i].id != es[j].id
  }

  ghost predicate DirLinked(objs: Objs, d: nat)
    requires d in objs
  {
    objs[d].body.Dir? ==>
      && (forall i | 0 <= i < |objs[d].body.entries| :: ChildOk(objs, d, objs[d].body.entries[i]))
      && DistinctEntries(objs[d].body.entries)
  }

  /** Every object but the root is named in the directory that it records as its parent. */
  ghost predicate HasEntry(objs: Objs, m: nat)
    requires m in objs
  {
    m != ROOT ==>
      && var p := objs[m].parent;
      && p.blockNo in objs && p == IdOf(objs, p.blockNo) && objs[p.blockNo].body.Dir?
      && exists i :: 0 <= i < |objs[p.blockNo].body.entries| && objs[p.blockNo].body.entries[i].id == IdOf(objs, m)
  }

  ghost predicate Linked(objs: Objs) {
    && ROOT in objs && objs[ROOT].generation == 1 && objs[ROOT].body.Dir?
    && (forall d | d in objs :: DirLinked(objs, d))
    && (forall m | m in objs :: HasEntry(objs, m))
  }

  ghost predicate Generations(objs: Objs, sb: Superblock) {
    sb.generation < U64_LIMIT && forall m | m in objs :: objs[m].generation <= sb.generation
  }

  /** The invariant between operations. */
  ghost predicate Good(sb: Superblock, store: Store, objs: Objs, roles: Roles, leaked: set<nat>) {
    && AllocOk(sb, roles, leaked) && NoTxn(sb) && Stored(store, sb)
    && AllHeld(store, objs, roles) && Linked(objs) && Generations(objs, sb)
  }

  lemma FileOrDir(sb: Superblock, store: Store, objs: Objs, roles: Roles, leaked: set<nat>, m: nat)
    requires Good(sb, store, objs, roles, leaked) && m in objs
    ensures objs[m].body.File? <==> objs[m].generation % 2 == 0
  {
    assert Held(store, objs, roles, m);
  }

  /** Only link blocks and the metadata block of `m` change. */
  ghost predicate LinkFrame(store: Store, store': Store, roles: Roles, m: nat) {
    forall b | b in roles && b in store && (roles[b].owner != m || roles[b].role.Data?) ::
      b in store' && store'[b] == store[b]
  }

  // ---------------------------------------------------------------------------------------
  // Framing
  // ---------------------------------------------------------------------------------------

  /** The blocks of other objects, and their uses, stay as they are. */
  ghost predicate OthersKept(store: Store, store': Store, roles: Roles, roles': Roles, m: nat) {
    && (forall b | b in roles && roles[b].owner != m ::
          b in roles' && roles'[b] == roles[b] && b in store && b in store' && store'[b] == store[b])
    && (forall b | b in roles' && roles'[b].owner != m :: b in roles && roles[b] == roles'[b])
  }

  lemma ObjFrame(store: Store, store': Store, m: nat, o: Obj)
    requires ObjOk(store, m, o) && m in store' && store'[m] == store[m]
    requires forall x | x in o.tree.data || x in o.tree.links || x in o.tree.lols ::
               x in store' && store'[x] == store[x]
    ensures ObjOk(store', m, o)
  {
    hide Word;
    hide FileOk;
    hide DirOk;
    match o.body
    case File(c) => FileFrame(store, store', m, c, o.tree);
    case Dir(es) => DirFrame(store, store', m, es, o.tree);
  }

  lemma OthersHeld(store: Store, store': Store, objs: Objs, roles: Roles, roles': Roles, m: nat, k: nat)
    requires k in objs && k != m && Held(store, objs, roles, k) && OthersKept(store, store', roles, roles', m)
    ensures Held(store', objs, roles', k)
  {
    var t := objs[k].tree;
    forall i | 0 <= i < |t.data| ensures OwnsData(roles', k, t, i) { assert OwnsData(roles, k, t, i); }
    forall i | 0 <= i < |t.links| ensures OwnsLink(roles', k, t, i) { assert OwnsLink(roles, k, t, i); }
    forall i | 0 <= i < |t.lols| ensures OwnsLol(roles', k, t, i) { assert OwnsLol(roles, k, t, i); }
    forall x | x in t.data ensures x in roles && roles[x].owner == k {
      var i :| 0 <= i < |t.data| && t.data[i] == x;
      assert OwnsData(roles, k, t, i);
    }
    forall x | x in t.links ensures x in roles && roles[x].owner == k {
      var i :| 0 <= i < |t.links| && t.links[i] == x;
      assert OwnsLink(roles, k, t, i);
    }
    forall x | x in t.lols ensures x in roles && roles[x].owner == k {
      var i :| 0 <= i < |t.lols| && t.lols[i] == x;
      assert OwnsLol(roles, k, t, i);
    }
    hide ObjOk;
    ObjFrame(store, store', k, objs[k]);
  }

  /** One object changed on the device, every other kept. */
  lemma OneChanged(store: Store, store': Store, objs: Objs, roles: Roles, roles': Roles, m: nat, o: Obj)
    requires AllHeld(store, objs, roles) && OthersKept(store, store', roles, roles', m)
    requires ObjOk(store', m, o) && Owns(roles', m, o.tree) && AllInTree(roles', m, o.tree)
    ensures AllHeld(store', objs[m := o], roles')
  {
    hide ObjOk;
    hide Owns;
    hide AllInTree;
    var objs' := objs[m := o];
    forall k | k in objs' ensures Held(store', objs', roles', k) {
      if k != m {
        assert Held(store, objs, roles, k);
        OthersHeld(store, store', objs, roles, roles', m, k);
      }
    }
  }

  /** New contents of a file do not concern the directory tree. */
  lemma FileLinked(objs: Objs, m: nat, c: seq<Byte>, t: Tree)
    requires Linked(objs) && m in objs && objs[m].body.File?
    ensures Linked(objs[m := objs[m].(body := File(c), tree := t)])
  {
    var objs' := objs[m := objs[m].(body := File(c), tree := t)];
    forall k | k in objs ensures IdOf(objs', k) == IdOf(objs, k) && objs'[k].parent == objs[k].parent {
    }
    forall d | d in objs' ensures DirLinked(objs', d) {
      assert DirLinked(objs, d);
      if objs'[d].body.Dir? {
        forall i | 0 <= i < |objs'[d].body.entries| ensures ChildOk(objs', d, objs'[d].body.entries[i]) {
          assert ChildOk(objs, d, objs[d].body.entries[i]);
        }
      }
    }
    forall k | k in objs' ensures HasEntry(objs', k) {
      assert HasEntry(objs, k);
    }
  }

  lemma FileChanged(
    sb: Superblock, store: Store, objs: Objs, roles: Roles, leaked: set<nat>,
    sb': Superblock, store': Store, roles': Roles, leaked': set<nat>, m: nat, c: seq<Byte>, t: Tree)
    requires Good(sb, store, objs, roles, leaked) && m in objs && objs[m].body.File?
    requires AllocOk(sb', roles', leaked') && NoTxn(sb') && Stored(store', sb') && sb'.generation == sb.generation
    requires OthersKept(store, store', roles, roles', m)
    requires ObjOk(store', m, objs[m].(body := File(c), tree := t)) && Owns(roles', m, t) && AllInTree(roles', m, t)
    ensures Good(sb', store', objs[m := objs[m].(body := File(c), tree := t)], roles', leaked')
  {
    hide ObjOk;
    hide Owns;
    hide AllInTree;
    hide AllocOk;
    FileLinked(objs, m, c, t);
    OneChanged(store, store', objs, roles, roles', m, objs[m].(body := File(c), tree := t));
    hide Linked;
    hide AllHeld;
    hide OthersKept;
  }

  const ROOT_OBJ: Obj := Obj(1, EntryId(ROOT, 1), EMPTY, Dir([]))

  lemma Formatted(sb: Superblock, store: Store)
    requires 3 <= sb.numBlocks < U64_LIMIT
    requires sb == Superblock(sb.numBlocks, sb.numBlocks - 2, 1, 0, 2, 0, 0, 0, 0, 0, TxnNone)
    requires Stored(store, sb) && HeaderOk(store[ROOT], ROOT, ROOT_OBJ)
    ensures Good(sb, store, map[ROOT := ROOT_OBJ], map[ROOT := Use(ROOT, Meta)], {})
  {
    hide HeaderOk;
    var objs: Objs, roles: Roles := map[ROOT := ROOT_OBJ], map[ROOT := Use(ROOT, Meta)];
    assert Held(store, objs, roles, ROOT);
    assert DirLinked(objs, ROOT) && HasEntry(objs, ROOT);
    assert Accounted(1, roles, {});
  }
}
