/** Each step of a directory operation, from block writes to the objects on the device. */
module SrfsDirOps {
  import opened Bytes
  import opened SrfsBlock
  import opened SrfsTree
  import opened SrfsFile
  import opened SrfsDir
  import opened SrfsState
  import opened SrfsSpace
  import opened SrfsFileOps
  import opened SrfsLinks

  /** The part of the invariant that holds inside directory transactions. */
  ghost predicate Device(sb: Superblock, store: Store, objs: Objs, roles: Roles, leaked: set<nat>) {
    AllocOk(sb, roles, leaked) && Stored(store, sb) && AllHeld(store, objs, roles)
  }

  /** Directory `m` has new entries; no other file or directory changed. */
  ghost predicate DirUpdated(objs: Objs, objs': Objs, m: nat, es: seq<Entry>) {
    m in objs && m in objs' && objs' == objs[m := objs[m].(body := Dir(es), tree := objs'[m].tree)]
  }

  lemma OtherKept(objs: Objs, objs': Objs, m: nat, es: seq<Entry>, k: nat)
    requires DirUpdated(objs, objs', m, es) && k in objs && k != m
    ensures k in objs' && objs'[k] == objs[k]
  {
  }

  /** What it says of one directory. */
  lemma DirFacts(sb: Superblock, store: Store, objs: Objs, roles: Roles, leaked: set<nat>, m: nat)
    requires Device(sb, store, objs, roles, leaked) && m in objs && objs[m].body.Dir?
    ensures AllocOk(sb, roles, leaked) && Stored(store, sb) && sb.numBlocks < U64_LIMIT
    ensures ObjOk(store, m, objs[m]) && Owns(roles, m, objs[m].tree) && AllInTree(roles, m, objs[m].tree)
    ensures m in store && m in roles && m != 0
    ensures var es, t := objs[m].body.entries, objs[m].tree;
            && Word(store[m], 4) == |es| <= MAX_DIR_ENTRIES && DirOk(store, m, es, t)
            && Counted(t) && (|es| <= 14 ==> t == EMPTY)
            && (|es| > 14 ==> TreeOk(store, m, t) && |t.data| == EntryBlocks(|es|))
  {
    hide Word;
    hide EntryAt;
    assert Held(store, objs, roles, m);
  }

  // ---------------------------------------------------------------------------------------
  // Headers and entries share the metadata block
  // ---------------------------------------------------------------------------------------

  lemma PasteKeepsHeader(b: Block, off: nat, s: seq<Byte>)
    requires META_BYTES <= off && off + |s| <= 4096
    ensures SameHeader(b, Paste(b, off, s))
  {
    hide Paste;
    forall w | 0 <= w < 16 ensures Word(Paste(b, off, s), w) == Word(b, w) {
      WordOfPaste(b, off, s, w);
    }
  }

  lemma SetEntryHeader(b: Block, p: nat, e: Entry)
    requires 1 <= p < 15 && |e.name| <= 255 && e.id.blockNo < U64_LIMIT && e.id.generation < U64_LIMIT
    ensures SameHeader(b, SetEntry(b, p, e))
  {
    hide Word;
    hide SetWord;
    hide Paste;
    var a := SetWord(b, 34 * p, e.id.blockNo);
    var c := SetWord(a, 34 * p + 1, e.id.generation);
    SetWordBut(b, 34 * p, e.id.blockNo);
    SetWordBut(a, 34 * p + 1, e.id.generation);
    PasteKeepsHeader(c, 272 * p + 16, e.name);
    PasteKeepsHeader(Paste(c, 272 * p + 16, e.name), 272 * p + 271, [|e.name|]);
  }

  /** A new size leaves the entries of the metadata block alone. */
  lemma SizeKeepsEntry(b: Block, size: nat, p: nat)
    requires 1 <= p < 15
    ensures EntryAt(SetWord(b, 4, size), p) == EntryAt(b, p)
  {
    assert SetWord(b, 4, size)[META_BYTES..] == b[META_BYTES..];
    hide SetWord;
    hide EntryAt;
    SameEntryInMeta(b, SetWord(b, 4, size), p);
  }

  // ---------------------------------------------------------------------------------------
  // Adding an entry
  // ---------------------------------------------------------------------------------------

  lemma AddedInMeta(store: Store, m: nat, o: Obj, es: seq<Entry>, e: Entry)
    requires ObjOk(store, m, o) && o.body == Dir(es) && |es| < 14
    requires |e.name| <= 255 && e.id.blockNo < U64_LIMIT && e.id.generation < U64_LIMIT
    ensures ObjOk(store[m := SetEntry(SetWord(store[m], 4, |es| + 1), |es| + 1, e)], m, o.(body := Dir(es + [e])))
  {
    hide Word;
    hide SetWord;
    hide SetEntry;
    hide EntryAt;
    var b, es' := SetWord(store[m], 4, |es| + 1), es + [e];
    var mb, o' := SetEntry(b, |es| + 1, e), o.(body := Dir(es'));
    SizeSet(store[m], store[m], m, o, o');
    SetEntryHeader(b, |es| + 1, e);
    SameHead(b, mb, m, o');
    forall i | 0 <= i < |es'| ensures MetaEntryOk(mb, es', i) {
      EntryOfSet(b, |es| + 1, e, i + 1);
      if i < |es| {
        SizeKeepsEntry(store[m], |es| + 1, i + 1);
        assert MetaEntryOk(store[m], es, i);
      }
    }
  }

  /** The directory on the device after its 15th entry. */
  lemma EntrySpilled(store: Store, roles: Roles, m: nat, o: Obj, es: seq<Entry>, e: Entry, d: nat, db: Block)
    requires ObjOk(store, m, o) && Owns(roles, m, o.tree) && AllInTree(roles, m, o.tree) && o.body == Dir(es)
    requires |es| == 14
    requires d < U64_LIMIT && d !in roles && (forall k | 0 <= k < 14 :: EntryAt(db, k) == es[k]) && EntryAt(db, 14) == e
    ensures var t', roles' := Tree([d], [], []), roles[d := Use(m, Data(0))];
            && ObjOk(store[d := db][m := SetWord(SetWord(store[m], 16, d), 4, 15)], m,
                     o.(body := Dir(es + [e]), tree := t'))
            && Owns(roles', m, t') && AllInTree(roles', m, t')
  {
    hide Word;
    hide SetWord;
    hide TreeOk;
    hide EntryAt;
    var b := SetWord(store[m], 16, d);
    SetWordBut(store[m], 16, d);
    SpillEntries(store, m, es, e, d, db, b);
    SpilledOwns(roles, m, d);
    hide DirOk;
    hide Owns;
    hide AllInTree;
    SizeWritten(store[d := db][m := b], roles[d := Use(m, Data(0))], m, store[m], o,
                o.(body := Dir(es + [e]), tree := Tree([d], [], [])));
    assert store[d := db][m := b][m := SetWord(b, 4, 15)] == store[d := db][m := SetWord(b, 4, 15)];
  }

  /** The directory on the device after an entry in a new data block `d`, once the block is linked. */
  lemma EntryAppended(
    store: Store, roles: Roles, m: nat, o: Obj, es: seq<Entry>, e: Entry, d: nat, l: nat, q: nat, db: Block,
    store2: Store)
    requires ObjOk(store, m, o) && Owns(roles, m, o.tree) && AllInTree(roles, m, o.tree) && o.body == Dir(es)
    requires 14 < |es| < MAX_DIR_ENTRIES && |es| % 15 == 0 && EntryAt(db, 0) == e
    requires d !in roles && l !in roles && q !in roles && d != l && d != q && l != q
    requires m in store2 && SameHeader(store[m], store2[m])
    requires TreeOk(store2, m, Grown(o.tree, d, l, q))
    requires LinkFrame(store[d := db], store2, roles[d := Use(m, Data(|o.tree.data|))], m)
    ensures var t', roles' := Grown(o.tree, d, l, q), GrownRoles(roles, m, o.tree, d, l, q);
            && ObjOk(store2[m := SetWord(store2[m], 4, |es| + 1)], m, o.(body := Dir(es + [e]), tree := t'))
            && Owns(roles', m, t') && AllInTree(roles', m, t')
  {
    hide Word;
    hide SetWord;
    hide HeaderOk;
    hide NewLink;
    hide NewLol;
    hide EntryAt;
    var t := o.tree;
    TreeStored(store, m, o);
    GrownOwns(roles, m, t, d, l, q);
    LinkedData(store, store2, roles, m, t, d, db);
    hide LinkFrame;
    hide TreeOk;
    ExtendEntries(store, store2, m, es, t, Grown(t, d, l, q), d, e);
    hide DirOk;
    hide Owns;
    hide AllInTree;
    var o' := o.(body := Dir(es + [e]), tree := Grown(t, d, l, q));
    hide Grown;
    hide GrownRoles;
    SizeWritten(store2, GrownRoles(roles, m, t, d, l, q), m, store[m], o, o');
  }

  /** The directory on the device after an entry in a data block it has. */
  lemma EntryPut(store: Store, roles: Roles, m: nat, o: Obj, es: seq<Entry>, pos: nat, e: Entry, d: nat, db: Block)
    requires ObjOk(store, m, o) && Owns(roles, m, o.tree) && o.body == Dir(es) && 14 < |es| && pos <= |es|
    requires pos == |es| ==> pos % 15 != 0 && |es| < MAX_DIR_ENTRIES
    requires pos / 15 < |o.tree.data| && d == o.tree.data[pos / 15] && d in store
    requires EntrySet(store[d], db, pos % 15, e)
    ensures d != m
    ensures var es' := if pos < |es| then es[pos := e] else es + [e];
            ObjOk(store[d := db][m := SetWord(store[m], 4, |es'|)], m, o.(body := Dir(es')))
  {
    hide Word;
    hide SetWord;
    hide EntryAt;
    hide TreeOk;
    var es' := if pos < |es| then es[pos := e] else es + [e];
    PutEntry(store, roles, m, es, o.tree, pos, e, db);
    assert OwnsData(roles, m, o.tree, pos / 15);
    hide DirOk;
    hide Owns;
    SizeWritten(store[d := db], roles, m, store[m], o, o.(body := Dir(es')));
  }

  // ---------------------------------------------------------------------------------------
  // Removing an entry
  // ---------------------------------------------------------------------------------------

  /** remove_directory_entry_inner inside the metadata block: the last entry over the hole. */
  lemma RemovedInMeta(store: Store, m: nat, o: Obj, es: seq<Entry>, i: nat, b: Block)
    requires ObjOk(store, m, o) && o.body == Dir(es) && i < |es| <= 14
    requires b == if i + 1 < |es| then CopyEntry(store[m], i + 1, store[m], |es|) else store[m]
    ensures ObjOk(store[m := SetWord(b, 4, |es| - 1)], m, o.(body := Dir(SwapRemove(es, i))))
  {
    hide Word;
    hide SetWord;
    hide EntryAt;
    var n, es' := |es| - 1, SwapRemove(es, i);
    var mb, o' := SetWord(b, 4, n), o.(body := Dir(es'));
    assert SameHeader(store[m], b) by {
      if i + 1 < |es| { PasteKeepsHeader(store[m], 272 * (i + 1), store[m][272 * |es|..272 * |es| + 272]); }
    }
    SizeSet(store[m], b, m, o, o');
    forall j | 0 <= j < n ensures MetaEntryOk(mb, es', j) {
      if i + 1 < |es| { EntryOfCopy(store[m], i + 1, store[m], |es|, j + 1); }
      SizeKeepsEntry(b, n, j + 1);
      assert MetaEntryOk(store[m], es, j) && MetaEntryOk(store[m], es, n);
    }
  }

  /** A last data block that keeps other entries. */
  lemma LastEntryCut(store: Store, roles: Roles, m: nat, o: Obj, es: seq<Entry>)
    requires ObjOk(store, m, o) && Owns(roles, m, o.tree) && o.body == Dir(es) && |es| > 15 && (|es| - 1) % 15 != 0
    ensures ObjOk(store[m := SetWord(store[m], 4, |es| - 1)], m, o.(body := Dir(es[..|es| - 1])))
  {
    hide Word;
    hide SetWord;
    hide TreeOk;
    CutEntries(store, m, es, o.tree);
    hide DirOk;
    hide Owns;
    SizeWritten(store, roles, m, store[m], o, o.(body := Dir(es[..|es| - 1])));
  }

  /** A data block given up, and the link block with it where only that one needed it. */
  lemma LastBlockDropped(store: Store, roles: Roles, m: nat, o: Obj, es: seq<Entry>, mb: Block)
    requires ObjOk(store, m, o) && Owns(roles, m, o.tree) && o.body == Dir(es) && |es| > 15 && (|es| - 1) % 15 == 0
    requires HeaderOk(mb, m, o.(body := Dir(es[..|es| - 1])))
    requires o.tree.data != [] && |o.tree.links| == NumLinks(|o.tree.data|) && |o.tree.lols| == NumLols(|o.tree.data|)
    requires TreeOk(store[m := mb], m, Shrunk(o.tree))
    ensures ObjOk(store[m := mb], m, o.(body := Dir(es[..|es| - 1]), tree := Shrunk(o.tree)))
  {
    hide Word;
    hide EntryAt;
    MetaApart(roles, m, o.tree);
    DropEntryBlock(store, store[m := mb], m, es, o.tree);
  }

  /** The metadata block that remove_directory_entry_inner writes when it gives up a data block. */
  lemma ShrunkMeta(store: Store, roles: Roles, m: nat, o: Obj, es: seq<Entry>, b: Block)
    requires ObjOk(store, m, o) && Owns(roles, m, o.tree) && o.body == Dir(es) && |es| > 15 && (|es| - 1) % 15 == 0
    requires if |es| == 7441 then
               o.tree.links != [] && o.tree.links[0] in store && CopyOfLinks(b,
                       store[o.tree.links[0]]) && SameHeader(store[m], b)
             else b == store[m]
    ensures var mb, t := SetWord(b, 4, |es| - 1), o.tree;
            && HeaderOk(mb, m, o.(body := Dir(es[..|es| - 1])))
            && t.data != [] && |t.links| == NumLinks(|t.data|) && |t.lols| == NumLols(|t.data|)
            && TreeOk(store[m := mb], m, Shrunk(t))
  {
    hide Word;
    hide SetWord;
    hide EntryAt;
    var t, n := o.tree, |es| - 1;
    SizeSet(store[m], b, m, o, o.(body := Dir(es[..n])));
    MetaApart(roles, m, t);
    hide HeaderOk;
    assert |t.data| - 1 == n / 15;
    var mb := SetWord(b, 4, n);
    hide TreeOk;
    if |es| == 7441 {
      CopyOfLinksSize(b, store[t.links[0]], n);
      ShrinkToDirect(store, m, t, mb);
    } else {
      DirectShrink(store, roles, m, t, n);
    }
  }

  lemma CopyOfLinksSize(b: Block, links: Block, size: nat)
    requires CopyOfLinks(b, links) && size < U64_LIMIT
    ensures CopyOfLinks(SetWord(b, 4, size), links)
  {
    hide Word;
    hide SetWord;
    SetWordBut(b, 4, size);
    forall k | 0 <= k < 496 ensures LinkCopied(SetWord(b, 4, size), links, k) {
      assert LinkCopied(b, links, k);
    }
  }

  /** The entries of the only data block back in the metadata block. */
  lemma EntriesUnspilled(store: Store, m: nat, o: Obj, es: seq<Entry>, b: Block)
    requires ObjOk(store, m, o) && o.body == Dir(es) && |es| == 15 && SameHeader(store[m], b)
    requires |o.tree.data| == 1 && o.tree.data[0] in store
    requires forall i | 0 <= i < 14 :: EntryAt(b, i + 1) == EntryAt(store[o.tree.data[0]], i)
    ensures ObjOk(store[m := SetWord(b, 4, 14)], m, o.(body := Dir(es[..14]), tree := EMPTY))
  {
    hide Word;
    hide SetWord;
    hide EntryAt;
    hide TreeOk;
    var mb := SetWord(b, 4, 14);
    SizeSet(store[m], b, m, o, o.(body := Dir(es[..14])));
    forall i | 0 <= i < 14 ensures EntryAt(mb, i + 1) == EntryAt(store[o.tree.data[0]], i) {
      SizeKeepsEntry(b, 14, i + 1);
    }
    UnspillEntries(store, m, es, o.tree, mb);
  }

  // ---------------------------------------------------------------------------------------
  // Objects
  // ---------------------------------------------------------------------------------------

  /** Blocks that no object uses may change. */
  lemma UnusedChanged(store: Store, store': Store, objs: Objs, roles: Roles)
    requires AllHeld(store, objs, roles)
    requires forall b | b in roles && b in store :: b in store' && store'[b] == store[b]
    ensures AllHeld(store', objs, roles)
  {
    forall m | m in objs ensures Held(store', objs, roles, m) {
      assert Held(store, objs, roles, m);
      HeldFrame(store, store', objs, roles, m);
    }
  }

  lemma HeldFrame(store: Store, store': Store, objs: Objs, roles: Roles, m: nat)
    requires m in objs && Held(store, objs, roles, m)
    requires forall b | b in roles && b in store :: b in store' && store'[b] == store[b]
    ensures Held(store', objs, roles, m)
  {
    hide HeaderOk;
    var t := objs[m].tree;
    TreeStored(store, m, objs[m]);
    OwnedInRoles(roles, m, t);
    hide BodyOk;
    hide Owns;
    BodyFrame(store, store', m, objs[m]);
  }

  lemma OwnedInRoles(roles: Roles, m: nat, t: Tree)
    requires Owns(roles, m, t)
    ensures forall x | x in t.data || x in t.links || x in t.lols :: x in roles && roles[x].owner == m
  {
    forall x | x in t.data ensures x in roles && roles[x].owner == m {
      var i :| 0 <= i < |t.data| && t.data[i] == x;
      assert OwnsData(roles, m, t, i);
    }
    forall x | x in t.links ensures x in roles && roles[x].owner == m {
      var i :| 0 <= i < |t.links| && t.links[i] == x;
      assert OwnsLink(roles, m, t, i);
    }
    forall x | x in t.lols ensures x in roles && roles[x].owner == m {
      var i :| 0 <= i < |t.lols| && t.lols[i] == x;
      assert OwnsLol(roles, m, t, i);
    }
  }

  lemma EmptyObj(store: Store, k: nat, o: Obj)
    requires k in store && HeaderOk(store[k], k, o) && Size(o) == 0 && o.tree == EMPTY
    requires o.body.File? <==> o.generation % 2 == 0
    ensures ObjOk(store, k, o)
  {
    hide HeaderOk;
  }

  /** A new, empty object in a block no object uses. */
  lemma ObjCreated(store: Store, objs: Objs, roles: Roles, k: nat, o: Obj, b: Block)
    requires AllHeld(store, objs, roles) && k !in roles && HeaderOk(b, k, o) && Size(o) == 0 && o.tree == EMPTY
    requires o.body.File? <==> o.generation % 2 == 0
    ensures AllHeld(store[k := b], objs[k := o], roles[k := Use(k, Meta)]) && k !in objs
  {
    hide HeaderOk;
    hide ObjOk;
    var store', roles' := store[k := b], roles[k := Use(k, Meta)];
    ObjsInRoles(store, objs, roles);
    RolesStored(store, objs, roles);
    EmptyObj(store', k, o);
    assert forall x | x in roles :: roles[x].owner in objs;
    hide AllHeld;
    assert Owns(roles', k, o.tree) && AllInTree(roles', k, o.tree);
    hide Owns;
    hide AllInTree;
    NewKept(store, store', roles, roles', k, b);
    hide OthersKept;
    OneChanged(store, store', objs, roles, roles', k, o);
  }

  lemma NewKept(store: Store, store': Store, roles: Roles, roles': Roles, k: nat, b: Block)
    requires k !in roles && store' == store[k := b] && roles' == roles[k := Use(k, Meta)]
    requires forall x | x in roles :: x in store
    ensures OthersKept(store, store', roles, roles', k)
  {
  }

  lemma ObjsInRoles(store: Store, objs: Objs, roles: Roles)
    requires AllHeld(store, objs, roles)
    ensures forall m | m in objs :: m in roles
  {
    hide AllHeld;
    forall m | m in objs ensures m in roles {
      MetaRole(store, objs, roles, m);
    }
  }

  lemma RolesStored(store: Store, objs: Objs, roles: Roles)
    requires AllHeld(store, objs, roles)
    ensures forall b | b in roles :: b in store
  {
    hide ObjOk;
    hide Owns;
    forall b | b in roles ensures b in store {
      var m := roles[b].owner;
      assert Held(store, objs, roles, m);
      RoleStored(store, m, objs[m], b, roles[b].role);
    }
  }

  lemma RoleStored(store: Store, m: nat, o: Obj, b: nat, role: Role)
    requires ObjOk(store, m, o) && InTree(m, o.tree, b, role)
    ensures b in store
  {
    hide HeaderOk;
    TreeStored(store, m, o);
    hide BodyOk;
  }

  /** An empty object uses its metadata block only, and can go. */
  lemma ObjDeleted(store: Store, objs: Objs, roles: Roles, k: nat)
    requires AllHeld(store, objs, roles) && k in objs && Size(objs[k]) == 0
    ensures k in roles && AllHeld(store, objs - {k}, roles - {k})
  {
    hide HeaderOk;
    assert Held(store, objs, roles, k);
    var objs', roles' := objs - {k}, roles - {k};
    assert objs[k].tree == EMPTY;
    forall b | b in roles && roles[b].owner == k ensures b == k {
      assert InTree(k, EMPTY, b, roles[b].role);
    }
    RolesStored(store, objs, roles);
    assert OthersKept(store, store, roles, roles', k);
    hide ObjOk;
    hide Owns;
    hide AllInTree;
    forall m | m in objs' ensures Held(store, objs', roles', m) {
      assert Held(store, objs, roles, m);
      OthersHeld(store, store, objs, roles, roles', k, m);
    }
  }

  /** A new parent in the header of an object. */
  lemma ObjReparented(store: Store, objs: Objs, roles: Roles, k: nat, parent: EntryId)
    requires AllHeld(store, objs, roles) && k in objs && parent.blockNo < U64_LIMIT && parent.generation < U64_LIMIT
    ensures k in store
    ensures AllHeld(store[k := SetWord(SetWord(store[k], 2, parent.blockNo), 3, parent.generation)],
                    objs[k := objs[k].(parent := parent)], roles)
  {
    hide Word;
    hide SetWord;
    assert Held(store, objs, roles, k);
    var b, o' := store[k], objs[k].(parent := parent);
    var b1 := SetWord(b, 2, parent.blockNo);
    var b2 := SetWord(b1, 3, parent.generation);
    var store' := store[k := b2];
    assert ObjOk(store', k, o') by { Reparented(store, roles, k, objs[k], parent); }
    RolesStored(store, objs, roles);
    hide ObjOk;
    hide Owns;
    hide AllInTree;
    OneChanged(store, store', objs, roles, roles, k, o');
  }

  lemma Reparented(store: Store, roles: Roles, k: nat, o: Obj, parent: EntryId)
    requires ObjOk(store, k, o) && Owns(roles, k, o.tree) && parent.blockNo < U64_LIMIT && parent.generation < U64_LIMIT
    ensures ObjOk(store[k := SetWord(SetWord(store[k], 2, parent.blockNo), 3, parent.generation)], k,
                  o.(parent := parent))
  {
    var b := store[k];
    var b1 := SetWord(b, 2, parent.blockNo);
    var b2 := SetWord(b1, 3, parent.generation);
    assert b1[META_BYTES..] == b[META_BYTES..] && b2[META_BYTES..] == b1[META_BYTES..];
    hide Word;
    hide SetWord;
    SetWordBut(b, 2, parent.blockNo);
    SetWordBut(b1, 3, parent.generation);
    TreeStored(store, k, o);
    MetaApart(roles, k, o.tree);
    hide BodyOk;
    hide Owns;
    BodyFrame(store, store[k := b2], k, o);
    BodyParent(store[k := b2], k, o, parent);
  }

  lemma BodyParent(store: Store, k: nat, o: Obj, parent: EntryId)
    requires BodyOk(store, k, o)
    ensures BodyOk(store, k, o.(parent := parent))
  {
    hide FileOk;
    hide DirOk;
  }

  // ---------------------------------------------------------------------------------------
  // Finding an entry
  // ---------------------------------------------------------------------------------------

  lemma GoodDevice(sb: Superblock, store: Store, objs: Objs, roles: Roles, leaked: set<nat>)
    requires Good(sb, store, objs, roles, leaked)
    ensures Device(sb, store, objs, roles, leaked) && Linked(objs) && NoTxn(sb) && Generations(objs, sb)
  {
  }

  /** Block and position of entry `i`. */
  ghost function Location(m: nat, es: seq<Entry>, t: Tree, i: nat): (nat, nat)
    requires i < |es| && (|es| > 14 ==> |t.data| == EntryBlocks(|es|))
  {
    if |es| <= 14 then (m, i + 1) else (t.data[i / 15], i % 15)
  }

  /** No entry before `n` meets the predicate. */
  ghost predicate NoneBefore(es: seq<Entry>, pred: Entry -> bool, n: nat) {
    forall k | 0 <= k < n && k < |es| :: !pred(es[k])
  }

  /** Entry `i` is the first to meet the predicate. */
  ghost predicate FirstMatch(es: seq<Entry>, pred: Entry -> bool, i: nat) {
    i < |es| && pred(es[i]) && NoneBefore(es, pred, i)
  }

  /** A data block that holds the entries from `base` on. */
  ghost predicate HoldsFrom(b: Block, es: seq<Entry>, base: nat) {
    forall k | 0 <= k < 15 && base + k < |es| :: EntryAt(b, k) == es[base + k]
  }

  lemma BlockHolds(store: Store, m: nat, es: seq<Entry>, t: Tree, i: nat)
    requires DirOk(store, m, es, t) && 14 < |es| && i < |t.data|
    ensures t.data[i] in store && HoldsFrom(store[t.data[i]], es, 15 * i)
  {
    hide TreeOk;
    hide EntryAt;
    assert EntryOk(store, t, es, i, 0);
    forall k | 0 <= k < 15 && 15 * i + k < |es| ensures EntryAt(store[t.data[i]], k) == es[15 * i + k] {
      assert EntryOk(store, t, es, i, k);
    }
  }

  /** The index arithmetic of the source, in block numbers. */
  lemma EntryShifts(pos: nat)
    ensures pos / 7680 == pos / 15 / 512 && pos % 7680 / 15 == pos / 15 % 512
    ensures pos % 15 == 0 ==> (pos % 7680 == 0 <==> pos / 15 % 512 == 0)
  {
  }

  lemma SpilledKept(store: Store, store': Store, objs: Objs, roles: Roles, m: nat, d: nat)
    requires AllHeld(store, objs, roles) && m in objs && d !in roles
    requires forall b | b in store && b != m && b != d :: b in store' && store'[b] == store[b]
    ensures OthersKept(store, store', roles, roles[d := Use(m, Data(0))], m)
  {
    hide AllHeld;
    RolesStored(store, objs, roles);
    MetaRole(store, objs, roles, m);
  }

  lemma MetaRole(store: Store, objs: Objs, roles: Roles, m: nat)
    requires AllHeld(store, objs, roles) && m in objs
    ensures m in roles && roles[m] == Use(m, Meta)
  {
    hide ObjOk;
    hide AllInTree;
    assert Held(store, objs, roles, m);
  }

  lemma FreshBlocks(sb: Superblock, roles: Roles, leaked: set<nat>, l: nat)
    requires AllocOk(sb, roles, leaked) && l >= sb.emptyAreaStart
    ensures forall b | b >= l :: b !in roles
  {
  }

  /** Only the metadata block of `m` changed. */
  lemma MetaChanged(store: Store, store': Store, objs: Objs, roles: Roles, m: nat)
    requires AllHeld(store, objs, roles) && m in objs
    requires forall b | b in store && b != m :: b in store' && store'[b] == store[b]
    ensures OthersKept(store, store', roles, roles, m)
  {
    hide AllHeld;
    RolesStored(store, objs, roles);
    MetaRole(store, objs, roles, m);
  }

  /** Only the metadata block of `m` and one of its data blocks changed. */
  lemma OwnBlocksChanged(store: Store, store': Store, objs: Objs, roles: Roles, m: nat, d: nat, i: nat)
    requires AllHeld(store, objs, roles) && m in objs && i < |objs[m].tree.data| && d == objs[m].tree.data[i]
    requires forall b | b in store && b != m && b != d :: b in store' && store'[b] == store[b]
    ensures OthersKept(store, store', roles, roles, m)
  {
    hide AllHeld;
    DataRole(store, objs, roles, m, i);
    RolesStored(store, objs, roles);
    MetaRole(store, objs, roles, m);
  }

  lemma DataRole(store: Store, objs: Objs, roles: Roles, m: nat, i: nat)
    requires AllHeld(store, objs, roles) && m in objs && i < |objs[m].tree.data|
    ensures var d := objs[m].tree.data[i]; d in roles && roles[d] == Use(m, Data(i))
  {
    hide ObjOk;
    hide AllInTree;
    assert Held(store, objs, roles, m);
    assert OwnsData(roles, m, objs[m].tree, i);
  }

  /** The objects on the device after an entry in a new data block, once the block is linked. */
  lemma EntryBlockAdded(
    sb: Superblock, store: Store, objs: Objs, roles: Roles, leaked: set<nat>,
    m: nat, es: seq<Entry>, e: Entry, d: nat, l: nat, db: Block, store2: Store, store': Store, objs': Objs,
    roles': Roles)
    requires Device(sb, store, objs, roles, leaked) && m in objs && objs[m].body == Dir(es)
    requires 14 < |es| < MAX_DIR_ENTRIES && |es| % 15 == 0 && EntryAt(db, 0) == e
    requires d == sb.emptyAreaStart && l == d + 1
    requires m in store && m in store2 && SameHeader(store[m], store2[m])
    requires TreeOk(store2, m, Grown(objs[m].tree, d, l, l + 1))
    requires LinkFrame(store[d := db], store2, roles[d := Use(m, Data(|objs[m].tree.data|))], m)
    requires store' == store2[m := SetWord(store2[m], 4, |es| + 1)]
    requires roles' == GrownRoles(roles, m, objs[m].tree, d, l, l + 1)
    requires objs' == objs[m := objs[m].(body := Dir(es + [e]), tree := Grown(objs[m].tree, d, l, l + 1))]
    ensures AllHeld(store', objs', roles')
  {
    hide AllHeld;
    hide SetWord;
    hide TreeOk;
    hide Grown;
    hide GrownRoles;
    hide LinkFrame;
    hide ObjOk;
    hide AllInTree;
    hide Owns;
    hide SameHeader;
    hide EntryAt;
    hide DirOk;
    FreshBlocks(sb, roles, leaked, d);
    DirFacts(sb, store, objs, roles, leaked, m);
    EntryAppended(store, roles, m, objs[m], es, e, d, l, l + 1, db, store2);
    MetaRole(store, objs, roles, m);
    OthersAfterLink(sb, store, objs, roles, leaked, store2, m, objs[m].tree, d, l, l + 1, db, store'[m]);
    hide AllocOk;
    hide OthersKept;
    OneChanged(store, store', objs, roles, roles', m, objs'[m]);
  }

  // ---------------------------------------------------------------------------------------
  // remove_directory_entry_inner with data blocks
  // ---------------------------------------------------------------------------------------

  /** The words that lead to the last entry, and the blocks that removing it gives up. */
  lemma LastEntry(store: Store, roles: Roles, m: nat, o: Obj, es: seq<Entry>)
    requires ObjOk(store, m, o) && Owns(roles, m, o.tree) && o.body == Dir(es) && 14 < |es|
    ensures var t, p := o.tree, |es| - 1;
            && |t.data| == EntryBlocks(|es|) && p / 15 == |t.data| - 1 && t.data[p / 15] in store
            && |t.links| == NumLinks(|t.data|) && |t.lols| == NumLols(|t.data|)
            && (|es| <= 7440 ==> p / 15 < 496 && Word(store[m], 16 + p / 15) == t.data[p / 15])
            && (|es| > 7440 ==>
                  && p / 7680 < |t.links| && p / 7680 < 496 && p % 7680 / 15 < 512
                  && Word(store[m], 16 + p / 7680) == t.links[p / 7680] && t.links[p / 7680] in store
                  && Word(store[t.links[p / 7680]], p % 7680 / 15) == t.data[p / 15])
            && (|es| > 15 && p % 15 == 0 ==>
                  Dropped(t) == {t.data[p / 15]}
                                + if |es| == 7441 || (|es| > 7440 && |es| % 7680 == 1) then {t.links[p / 7680]} else {})
  {
    hide Word;
    hide EntryAt;
    var t, p := o.tree, |es| - 1;
    Route(store, m, t, p / 15);
    EntryShifts(p);
    CountsGrow(p / 15);
    hide TreeOk;
    hide Owns;
  }

  lemma LastEntryPlace(n: nat)
    requires 14 < n
    ensures (n - 1) / 15 == EntryBlocks(n) - 1 && (n > 7440 ==> (n - 1) / 7680 == NumLinks(EntryBlocks(n)) - 1)
    ensures DataGoes(n) <==> n == 15 || (n - 1) % 15 == 0
    ensures LinkGoes(n) ==> n > 15 && DataGoes(n)
  {
    EntryShifts(n - 1);
  }

  /** The blocks given up with an entry, by their numbers. */
  lemma EntryFreesAre(n: nat, t: Tree)
    requires 14 < n && |t.data| == EntryBlocks(n) && |t.links| == NumLinks(|t.data|)
    ensures n > 7440 ==> (n - 1) / 7680 == |t.links| - 1
    ensures EntryFrees(n, t) ==
            (if LinkGoes(n) then [t.links[(n - 1) / 7680]] else []) + if DataGoes(n) then [t.data[(n - 1) / 15]] else []
    ensures DataGoes(n) <==> n == 15 || (n - 1) % 15 == 0
    ensures LinkGoes(n) ==> n > 15 && DataGoes(n)
  {
    LastEntryPlace(n);
    assert LinkGoes(n) ==> n > 7440;
    hide EntryBlocks;
    hide NumLinks;
    hide DataGoes;
    hide LinkGoes;
  }

  /** Entry `pos` of a data block replaced by `e`. */
  lemma EntryReplaced(store: Store, roles: Roles, m: nat, o: Obj, es: seq<Entry>, pos: nat, e: Entry, db: Block)
    requires ObjOk(store, m, o) && Owns(roles, m, o.tree) && o.body == Dir(es) && 14 < |es| && pos < |es|
    requires pos / 15 < |o.tree.data| && o.tree.data[pos / 15] in store
    requires EntrySet(store[o.tree.data[pos / 15]], db, pos % 15, e)
    ensures ObjOk(store[o.tree.data[pos / 15] := db], m, o.(body := Dir(es[pos := e])))
  {
    hide Word;
    hide EntryAt;
    hide TreeOk;
    PutEntry(store, roles, m, es, o.tree, pos, e, db);
    assert OwnsData(roles, m, o.tree, pos / 15);
    hide DirOk;
  }

  /** The last entry copied over entry `i`, where that is not the last. */
  lemma HoleFilled(store: Store, roles: Roles, m: nat, o: Obj, es: seq<Entry>, i: nat, store1: Store)
    requires ObjOk(store, m, o) && Owns(roles, m, o.tree) && o.body == Dir(es) && 14 < |es| && i < |es|
    requires |o.tree.data| == EntryBlocks(|es|)
    requires var p, t := |es| - 1, o.tree;
             && t.data[i / 15] in store && t.data[p / 15] in store
             && store1 == if (t.data[i / 15], i % 15) == (t.data[p / 15], p % 15) then store
                          else
                            var b := CopyEntry(store[t.data[i / 15]], i % 15, store[t.data[p / 15]], p % 15);
                            store[t.data[i / 15] := b]
    ensures m in store1 && store1[m] == store[m]
    ensures ObjOk(store1, m, o.(body := Dir(es[i := es[|es| - 1]])))
  {
    hide Word;
    hide EntryAt;
    hide CopyEntry;
    var p, t := |es| - 1, o.tree;
    OwnedApart(roles, m, t, i / 15);
    if (t.data[i / 15], i % 15) == (t.data[p / 15], p % 15) {
      assert i / 15 == p / 15 && i == p;
      assert es[i := es[p]] == es;
    } else {
      var b := store[t.data[i / 15]];
      EntryIn(store, m, es, t, p);
      forall x | 0 <= x < 15 { EntryOfCopy(b, i % 15, store[t.data[p / 15]], p % 15, x); }
      hide TreeOk;
      hide Owns;
      EntryReplaced(store, roles, m, o, es, i, es[p], CopyEntry(b, i % 15, store[t.data[p / 15]], p % 15));
    }
  }

  /** The objects on the device when directory `m` has changed and gives up the blocks `gone`. */
  lemma RemovedHeld(
    store: Store, objs: Objs, roles: Roles, m: nat, o': Obj, store': Store, gone: set<nat>)
    requires AllHeld(store, objs, roles) && m in objs
    requires ObjOk(store', m, o') && Owns(roles - gone, m, o'.tree) && AllInTree(roles - gone, m, o'.tree)
    requires forall x | x in gone :: x in roles && roles[x].owner == m
    requires forall b | b in store && b != m && b !in objs[m].tree.data :: b in store' && store'[b] == store[b]
    ensures AllHeld(store', objs[m := o'], roles - gone)
  {
    hide AllHeld;
    hide ObjOk;
    hide Owns;
    hide AllInTree;
    RolesStored(store, objs, roles);
    MetaRole(store, objs, roles, m);
    forall b | b in objs[m].tree.data ensures b in roles && roles[b].owner == m {
      var i :| 0 <= i < |objs[m].tree.data| && objs[m].tree.data[i] == b;
      DataRole(store, objs, roles, m, i);
    }
    OneChanged(store, store', objs, roles, roles - gone, m, o');
  }

  /** A tree of one data block gives it up. */
  lemma SingleTree(roles: Roles, m: nat, t: Tree)
    requires Owns(roles, m, t) && AllInTree(roles, m, t) && |t.data| == 1
    requires |t.links| == NumLinks(1) && |t.lols| == NumLols(1)
    ensures Dropped(t) == {t.data[0]} && Owns(roles - Dropped(t), m, EMPTY) && AllInTree(roles - Dropped(t), m, EMPTY)
  {
    assert NumLinks(1) == 0 && NumLols(1) == 0;
    assert t.links == [] && t.lols == [];
    assert t.data[..0] == [];
    assert Shrunk(t) == EMPTY;
    ShrunkOwns(roles, m, t);
  }

  lemma NoneGone(roles: Roles)
    ensures roles - {} == roles
  {
  }

  lemma FreshZero(sb: Superblock, roles: Roles, leaked: set<nat>)
    requires AllocOk(sb, roles, leaked)
    ensures 0 !in roles
  {
  }

  // ---------------------------------------------------------------------------------------
  // Whole operations
  // ---------------------------------------------------------------------------------------

  lemma ParentBound(sb: Superblock, store: Store, objs: Objs, roles: Roles, leaked: set<nat>, m: nat)
    requires Device(sb, store, objs, roles, leaked) && Generations(objs, sb) && m in objs
    ensures m < U64_LIMIT && objs[m].generation < U64_LIMIT && m != 0
    ensures objs[m].body.Dir? ==> |objs[m].body.entries| <= MAX_DIR_ENTRIES
  {
    hide HeaderOk;
    hide AllInTree;
    assert Held(store, objs, roles, m);
    MetaRole(store, objs, roles, m);
  }

  /** The directory tree after a new object is created and named. */
  lemma CreatedLinked(objs: Objs, objs1: Objs, objs2: Objs, m: nat, k: nat, o: Obj, name: Name)
    requires Linked(objs) && m in objs && objs[m].body.Dir? && k !in objs && Size(o) == 0 && objs1 == objs[k := o]
    requires o.parent == IdOf(objs, m)
    requires forall i | 0 <= i < |objs[m].body.entries| :: objs[m].body.entries[i].name != name
    requires m in objs2
    requires objs2 == objs1[m := objs1[m].(body := Dir(objs[m].body.entries + [Entry(EntryId(k, o.generation), name)]),
                                           tree := objs2[m].tree)]
    ensures Linked(objs2)
  {
    hide Linked;
    hide LinkedBut;
    Create(objs, k, o);
    Attach(objs1, m, k, name);
    assert objs1[k].(parent := IdOf(objs1, m)) == objs1[k];
    assert objs1[k := objs1[k]] == objs1;
    var objs' := WithEntries(objs1, m, objs1[m].body.entries + [Entry(IdOf(objs1, k), name)]);
    LinkedSame(objs', objs2);
  }

  lemma CreatedGood(
    sb: Superblock, sb': Superblock, store': Store, objs: Objs, objs1: Objs, objs2: Objs, roles': Roles,
    leaked: set<nat>, m: nat)
    requires Generations(objs, sb) && Linked(objs2) && Device(sb', store', objs2, roles', leaked) && NoTxn(sb')
    requires sb.generation < sb'.generation < U64_LIMIT && m in objs2 && m in objs1
    requires objs2 == objs1[m := objs2[m]] && objs2[m].generation == objs1[m].generation
    requires forall x | x in objs1 :: x in objs || objs1[x].generation == sb'.generation
    requires forall x | x in objs1 && x in objs :: objs1[x].generation == objs[x].generation
    ensures Good(sb', store', objs2, roles', leaked)
  {
    hide Linked;
    hide AllHeld;
    hide AllocOk;
    assert Generations(objs2, sb');
  }

  lemma HeaderFacts(sb: Superblock, store: Store, objs: Objs, roles: Roles, leaked: set<nat>, m: nat)
    requires Good(sb, store, objs, roles, leaked) && m in objs
    ensures m in store && Word(store[m], 2) == objs[m].parent.blockNo && Word(store[m], 3) == objs[m].parent.generation
    ensures Word(store[m], 4) == Size(objs[m])
  {
    hide Word;
    hide Linked;
    hide BodyOk;
    assert Held(store, objs, roles, m);
  }

  lemma StoredHeader(store: Store, objs: Objs, roles: Roles, m: nat)
    requires AllHeld(store, objs, roles) && m in objs
    ensures m in store && Accepts(store, IdOf(objs, m)) && Word(store[m], 4) == Size(objs[m])
  {
    hide Word;
    hide BodyOk;
    assert Held(store, objs, roles, m);
  }

  /** The parent of an object other than the root is a directory that names it. */
  lemma ParentHasEntry(objs: Objs, k: nat)
    requires Linked(objs) && k in objs && k != ROOT
    ensures var p := objs[k].parent.blockNo;
            && p in objs && objs[p].body.Dir? && objs[k].parent == IdOf(objs, p)
            && (Size(objs[k]) == 0 ==> p != k)
            && !NoneBefore(objs[p].body.entries, (e: Entry) => e.id == IdOf(objs, k), |objs[p].body.entries|)
  {
    assert HasEntry(objs, k);
    hide Linked;
    var p := objs[k].parent.blockNo;
    var j :| 0 <= j < |objs[p].body.entries| && objs[p].body.entries[j].id == IdOf(objs, k);
    var pred := (e: Entry) => e.id == IdOf(objs, k);
    assert pred(objs[p].body.entries[j]);
  }

  /** The root's metadata block is not among the blocks that a directory gives up. */
  lemma RootApart(store: Store, objs: Objs, roles: Roles, m: nat, gone: set<nat>)
    requires AllHeld(store, objs, roles) && ROOT in objs
    requires forall x | x in gone :: x in roles && roles[x].owner == m && x != m
    ensures ROOT !in gone
  {
    hide AllHeld;
    MetaRole(store, objs, roles, ROOT);
  }

  /** The directory tree after an empty object is removed. */
  lemma RemovedLinked(objs: Objs, objs1: Objs, objs2: Objs, p: nat, i: nat, k: nat)
    requires Linked(objs) && p in objs && objs[p].body.Dir? && i < |objs[p].body.entries| && p != k
    requires objs[p].body.entries[i].id.blockNo == k && k in objs && Size(objs[k]) == 0
    requires p in objs1
    requires objs1 == objs[p := objs[p].(body := Dir(SwapRemove(objs[p].body.entries, i)), tree := objs1[p].tree)]
    requires objs2 == objs1 - {k}
    ensures Linked(objs2)
  {
    hide Linked;
    hide LinkedBut;
    hide SwapRemove;
    Unlink(objs, p, i);
    var objs' := WithEntries(objs, p, SwapRemove(objs[p].body.entries, i));
    Delete(objs', k);
    LinkedSame(objs' - {k}, objs2);
  }

  /** The whole file system after an empty object is removed. */
  lemma AfterRemove(
    sb: Superblock, sb': Superblock, store': Store, objs: Objs, objs1: Objs, objs2: Objs, roles': Roles,
    leaked': set<nat>,
    p: nat, i: nat, k: nat)
    requires Generations(objs, sb) && sb'.generation == sb.generation && NoTxn(sb')
    requires AllocOk(sb', roles', leaked') && Stored(store', sb') && AllHeld(store', objs2, roles')
    requires Linked(objs) && p in objs && objs[p].body.Dir? && i < |objs[p].body.entries| && p != k
    requires objs[p].body.entries[i].id.blockNo == k && k in objs && Size(objs[k]) == 0
    requires DirUpdated(objs, objs1, p, SwapRemove(objs[p].body.entries, i)) && objs2 == objs1 - {k}
    ensures Good(sb', store', objs2, roles', leaked')
    ensures DirUpdated(objs - {k}, objs2, p, SwapRemove(objs[p].body.entries, i)) && objs2[p] == objs1[p]
  {
    hide Linked;
    hide AllHeld;
    hide AllocOk;
    hide SwapRemove;
    RemovedLinked(objs, objs1, objs2, p, i, k);
    assert Generations(objs2, sb');
  }

  // ---------------------------------------------------------------------------------------
  // Renaming and moving
  // ---------------------------------------------------------------------------------------

  lemma RenamedInMeta(store: Store, m: nat, o: Obj, es: seq<Entry>, i: nat, name: Name)
    requires ObjOk(store, m, o) && o.body == Dir(es) && i < |es| <= 14 && |name| <= 255
    ensures ObjOk(store[m := SetName(store[m], i + 1, name)], m, o.(body := Dir(es[i := Entry(es[i].id, name)])))
  {
    hide Word;
    hide EntryAt;
    hide Paste;
    var b, es' := store[m], es[i := Entry(es[i].id, name)];
    var mb, o', at := SetName(b, i + 1, name), o.(body := Dir(es')), 272 * (i + 1);
    PasteKeepsHeader(b, at + 16, name);
    PasteKeepsHeader(Paste(b, at + 16, name), at + 271, [|name|]);
    SameHead(b, mb, m, o);
    assert MetaEntryOk(b, es, i);
    forall j | 0 <= j < |es'| ensures MetaEntryOk(mb, es', j) {
      assert MetaEntryOk(b, es, j);
      EntryOfSetName(b, i + 1, name, j + 1);
    }
  }

  lemma RenamedInBlock(store: Store, roles: Roles, m: nat, o: Obj, es: seq<Entry>, i: nat, name: Name)
    requires ObjOk(store, m, o) && Owns(roles, m, o.tree) && o.body == Dir(es) && 14 < |es| && i < |es| && |name| <= 255
    requires i / 15 < |o.tree.data| && o.tree.data[i / 15] in store
    ensures var d := o.tree.data[i / 15];
            ObjOk(store[d := SetName(store[d], i % 15, name)], m, o.(body := Dir(es[i := Entry(es[i].id, name)])))
  {
    hide Word;
    hide EntryAt;
    hide SetName;
    hide TreeOk;
    var b := store[o.tree.data[i / 15]];
    EntryIn(store, m, es, o.tree, i);
    forall x | 0 <= x < 15 { EntryOfSetName(b, i % 15, name, x); }
    hide DirOk;
    hide Owns;
    EntryReplaced(store, roles, m, o, es, i, Entry(es[i].id, name), SetName(b, i % 15, name));
  }

  /** The tree after `k` moves from entry `i` of `p` to the end of `q` under a new name. */
  ghost function MovedObjs(objs: Objs, p: nat, i: nat, q: nat, k: nat, name: Name): Objs
    requires p in objs && q in objs && k in objs && p != q && objs[p].body.Dir? && objs[q].body.Dir?
    requires i < |objs[p].body.entries|
  {
    var objs1 := objs[k := objs[k].(parent := IdOf(objs, q))];
    var objs2 := WithEntries(objs1, q, objs[q].body.entries + [Entry(IdOf(objs, k), name)]);
    WithEntries(objs2, p, SwapRemove(objs[p].body.entries, i))
  }

  lemma MovedLinked(objs: Objs, p: nat, i: nat, q: nat, k: nat, name: Name)
    requires Linked(objs) && p in objs && q in objs && k in objs && p != q && objs[p].body.Dir? && objs[q].body.Dir?
    requires i < |objs[p].body.entries| && objs[p].body.entries[i].id.blockNo == k
    requires forall j | 0 <= j < |objs[q].body.entries| :: objs[q].body.entries[j].name != name
    ensures Linked(MovedObjs(objs, p, i, q, k, name))
  {
    hide Linked;
    hide LinkedBut;
    hide SwapRemove;
    Unlink(objs, p, i);
    var a := WithEntries(objs, p, SwapRemove(objs[p].body.entries, i));
    assert a[q].body == objs[q].body;
    Attach(a, q, k, name);
    var b := a[k := a[k].(parent := IdOf(a, q))];
    var c := WithEntries(b, q, b[q].body.entries + [Entry(IdOf(a, k), name)]);
    assert c == MovedObjs(objs, p, i, q, k, name);
  }

  /** The whole file system after a move. */
  lemma AfterMove(
    sb: Superblock, sb': Superblock, store': Store, objs: Objs, objs1: Objs, objs2: Objs, objs3: Objs, roles': Roles,
    leaked': set<nat>, p: nat, i: nat, q: nat, k: nat, name: Name)
    requires Generations(objs, sb) && sb'.generation == sb.generation && NoTxn(sb')
    requires AllocOk(sb', roles', leaked') && Stored(store', sb') && AllHeld(store', objs3, roles')
    requires Linked(objs) && p in objs && q in objs && k in objs && p != q && objs[p].body.Dir? && objs[q].body.Dir?
    requires i < |objs[p].body.entries| && objs[p].body.entries[i].id.blockNo == k
    requires forall j | 0 <= j < |objs[q].body.entries| :: objs[q].body.entries[j].name != name
    requires objs1 == objs[k := objs[k].(parent := IdOf(objs, q))]
    requires DirUpdated(objs1, objs2, q, objs[q].body.entries + [Entry(IdOf(objs, k), name)])
    requires DirUpdated(objs2, objs3, p, SwapRemove(objs[p].body.entries, i))
    ensures Good(sb', store', objs3, roles', leaked')
    ensures SameButTrees(MovedObjs(objs, p, i, q, k, name), objs3)
  {
    hide Linked;
    hide AllHeld;
    hide AllocOk;
    hide SwapRemove;
    MovedLinked(objs, p, i, q, k, name);
    var spec := MovedObjs(objs, p, i, q, k, name);
    assert SameButTrees(spec, objs3);
    LinkedSame(spec, objs3);
    assert Generations(objs3, sb');
  }

  lemma RenamedGood(sb: Superblock, store': Store, objs: Objs, objs': Objs, roles: Roles, leaked: set<nat>, p: nat)
    requires Generations(objs, sb) && NoTxn(sb) && AllocOk(sb, roles, leaked) && Stored(store', sb)
    requires AllHeld(store', objs', roles) && Linked(objs') && p in objs && p in objs'
    requires objs' == objs[p := objs'[p]] && objs'[p].generation == objs[p].generation
    ensures Good(sb, store', objs', roles, leaked)
  {
    hide Linked;
    hide AllHeld;
    hide AllocOk;
    assert Generations(objs', sb);
  }
}
