/** Each step of a file operation, from block writes to the invariant of the whole file system. */
module SrfsFileOps {
  import opened Bytes
  import opened SrfsBlock
  import opened SrfsTree
  import opened SrfsFile
  import opened SrfsDir
  import opened SrfsState
  import opened SrfsSpace

  lemma ObjFacts(sb: Superblock, store: Store, objs: Objs, roles: Roles, leaked: set<nat>, m: nat)
    requires Good(sb, store, objs, roles, leaked) && m in objs
    ensures m in store && Word(store[m], 0) == m && Word(store[m], 1) == objs[m].generation
    ensures objs[m].body.File? <==> objs[m].generation % 2 == 0
  {
    hide Word;
    hide Linked;
    assert Held(store, objs, roles, m);
  }

  /** A file is not too large, and the empty area is inside the device. */
  lemma FileLimits(sb: Superblock, store: Store, objs: Objs, roles: Roles, leaked: set<nat>, m: nat)
    requires Good(sb, store, objs, roles, leaked) && m in objs && objs[m].body.File?
    ensures |objs[m].body.content| <= MAX_FILE && sb.emptyAreaStart <= sb.numBlocks
    ensures objs[m].generation % 2 == 0
  {
    hide Linked;
    assert Held(store, objs, roles, m);
  }

  lemma AllocRange(sb: Superblock, roles: Roles, leaked: set<nat>)
    requires AllocOk(sb, roles, leaked)
    ensures 2 <= sb.emptyAreaStart <= sb.numBlocks
  {
  }

  /** What the invariant says of one file. */
  lemma FileFacts(sb: Superblock, store: Store, objs: Objs, roles: Roles, leaked: set<nat>, m: nat)
    requires Good(sb, store, objs, roles, leaked) && m in objs && objs[m].body.File?
    ensures AllocOk(sb, roles, leaked) && NoTxn(sb) && Stored(store, sb) && sb.numBlocks < U64_LIMIT
    ensures m in store && m in roles && m != 0 && Owns(roles, m, objs[m].tree)
    ensures var c, t := objs[m].body.content, objs[m].tree;
            && Word(store[m], 4) == |c| <= MAX_FILE
            && (|c| <= MAX_IN_META ==> t == EMPTY && c == store[m][META_BYTES..META_BYTES + |c|])
            && (|c| > MAX_IN_META ==> TreeOk(store, m, t) && |t.data| == NumBlocks(|c|))
  {
    hide Word;
    hide Linked;
    assert Held(store, objs, roles, m);
  }

  /** A metadata block with a new size, and with any other links or bytes. */
  lemma SizeSet(b: Block, b': Block, m: nat, o: Obj, o': Obj)
    requires HeaderOk(b, m, o) && SameHeader(b, b') && Size(o') < U64_LIMIT
    requires o'.generation == o.generation && o'.parent == o.parent
    ensures HeaderOk(SetWord(b', 4, Size(o')), m, o')
    ensures SetWord(b', 4, Size(o'))[META_BYTES..] == b'[META_BYTES..]
  {
    hide Word;
    SetWordBut(b', 4, Size(o'));
  }

  /** An object depends on its data area and blocks, and on its header. */
  lemma BodyFrame(store: Store, store': Store, m: nat, o: Obj)
    requires BodyOk(store, m, o) && m in store && m in store' && store'[m][META_BYTES..] == store[m][META_BYTES..]
    requires forall x | x in o.tree.data || x in o.tree.links || x in o.tree.lols ::
               x in store' && store'[x] == store[x]
    ensures BodyOk(store', m, o)
  {
    hide FileOk;
    hide DirOk;
    match o.body
    case File(c) => FileFrame(store, store', m, c, o.tree);
    case Dir(es) => DirFrame(store, store', m, es, o.tree);
  }

  lemma TreeStored(store: Store, m: nat, o: Obj)
    requires BodyOk(store, m, o)
    ensures forall x | x in o.tree.data || x in o.tree.links || x in o.tree.lols :: x in store
  {
  }

  lemma MetaApart(roles: Roles, m: nat, t: Tree)
    requires Owns(roles, m, t)
    ensures m !in t.data && m !in t.links && m !in t.lols
  {
    forall i | 0 <= i < |t.data| ensures t.data[i] != m { assert OwnsData(roles, m, t, i); }
    forall i | 0 <= i < |t.links| ensures t.links[i] != m { assert OwnsLink(roles, m, t, i); }
    forall i | 0 <= i < |t.lols| ensures t.lols[i] != m { assert OwnsLol(roles, m, t, i); }
  }

  /** Blocks with no role are in no tree. */
  lemma FreshApart(roles: Roles, m: nat, t: Tree, d: nat)
    requires Owns(roles, m, t) && d !in roles
    ensures d != m && d !in t.data && d !in t.links && d !in t.lols
  {
    forall i | 0 <= i < |t.data| ensures t.data[i] != d { assert OwnsData(roles, m, t, i); }
    forall i | 0 <= i < |t.links| ensures t.links[i] != d { assert OwnsLink(roles, m, t, i); }
    forall i | 0 <= i < |t.lols| ensures t.lols[i] != d { assert OwnsLol(roles, m, t, i); }
  }

  /** Writing the new size after the body is right. */
  lemma SizeWritten(store: Store, roles: Roles, m: nat, b: Block, o: Obj, o': Obj)
    requires m in store && BodyOk(store, m, o') && HeaderOk(b, m, o) && SameHeader(b, store[m]) && Size(o') < U64_LIMIT
    requires o'.generation == o.generation && o'.parent == o.parent && Owns(roles, m, o'.tree)
    ensures ObjOk(store[m := SetWord(store[m], 4, Size(o'))], m, o')
  {
    hide BodyOk;
    hide HeaderOk;
    hide SetWord;
    SizeSet(b, store[m], m, o, o');
    TreeStored(store, m, o');
    MetaApart(roles, m, o'.tree);
    BodyFrame(store, store[m := SetWord(store[m], 4, Size(o'))], m, o');
  }

  /** Contents of a file replaced where no block is gained or lost. */
  lemma SameBlocks(
    sb: Superblock, store: Store, objs: Objs, roles: Roles, leaked: set<nat>, store': Store, m: nat, c: seq<Byte>)
    requires Good(sb, store, objs, roles, leaked) && m in objs && objs[m].body.File?
    requires Stored(store', sb) && forall b | b in roles && roles[b].owner != m :: b in store' && store'[b] == store[b]
    requires ObjOk(store', m, objs[m].(body := File(c)))
    ensures Good(sb, store', objs[m := objs[m].(body := File(c))], roles, leaked)
  {
    hide ObjOk;
    hide Owns;
    hide AllInTree;
    assert Held(store, objs, roles, m);
    FileChanged(sb, store, objs, roles, leaked, sb, store', roles, leaked, m, c, objs[m].tree);
  }

  /** The file on the device after append with a new data block `d`, once the block is linked. */
  lemma AppendedObj(
    store: Store, roles: Roles, m: nat, o: Obj, c: seq<Byte>, s: seq<Byte>, d: nat, l: nat, q: nat, db: Block,
    store2: Store)
    requires ObjOk(store, m, o) && Owns(roles, m, o.tree) && AllInTree(roles, m, o.tree) && o.body == File(c)
    requires |c| > MAX_IN_META && |c| % 4096 == 0 && 0 < |s| <= 4096 && |c| + |s| <= MAX_FILE && db[..|s|] == s
    requires d !in roles && l !in roles && q !in roles && d != l && d != q && l != q
    requires m in store2 && SameHeader(store[m], store2[m])
    requires TreeOk(store2, m, Grown(o.tree, d, l, q))
    requires LinkFrame(store[d := db], store2, roles[d := Use(m, Data(|o.tree.data|))], m)
    ensures var t', roles' := Grown(o.tree, d, l, q), GrownRoles(roles, m, o.tree, d, l, q);
            && ObjOk(store2[m := SetWord(store2[m], 4, |c| + |s|)], m, o.(body := File(c + s), tree := t'))
            && Owns(roles', m, t') && AllInTree(roles', m, t')
  {
    hide Word;
    hide SetWord;
    hide HeaderOk;
    hide NewLink;
    hide NewLol;
    var t := o.tree;
    TreeStored(store, m, o);
    GrownOwns(roles, m, t, d, l, q);
    LinkedData(store, store2, roles, m, t, d, db);
    hide LinkFrame;
    hide TreeOk;
    ExtendData(store, store2, m, c, t, Grown(t, d, l, q), d, s);
    hide FileOk;
    hide Owns;
    hide AllInTree;
    var o' := o.(body := File(c + s), tree := Grown(t, d, l, q));
    hide Grown;
    hide GrownRoles;
    SizeWritten(store2, GrownRoles(roles, m, t, d, l, q), m, store[m], o, o');
  }

  /** The whole file system after append with a new data block. */
  lemma BlockAppended(
    sb: Superblock, store: Store, objs: Objs, roles: Roles, leaked: set<nat>,
    m: nat, c: seq<Byte>, t: Tree, s: seq<Byte>, d: nat, l: nat, q: nat, db: Block, sb': Superblock, store2: Store)
    requires Good(sb, store, objs, roles, leaked) && m in objs && objs[m].body == File(c) && objs[m].tree == t
    requires |c| > MAX_IN_META && |c| % 4096 == 0 && 0 < |s| <= 4096 && |c| + |s| <= MAX_FILE && db[..|s|] == s
    requires d !in roles && l !in roles && q !in roles && d != l && d != q && l != q
    requires m in store && m in store2 && store2.Keys == store.Keys && SameHeader(store[m], store2[m])
    requires TreeOk(store2, m, Grown(t, d, l, q))
    requires LinkFrame(store[d := db], store2, roles[d := Use(m, Data(|t.data|))], m)
    requires AllocOk(sb', GrownRoles(roles, m, t, d, l, q), leaked) && NoTxn(sb')
    requires sb'.generation == sb.generation && sb'.numBlocks == sb.numBlocks
    ensures Good(sb', store2[m := SetWord(store2[m], 4, |c| + |s|)],
                 objs[m := objs[m].(body := File(c + s), tree := Grown(t, d, l, q))],
                 GrownRoles(roles, m, t, d, l, q), leaked)
  {
    hide SetWord;
    hide SameHeader;
    hide TreeOk;
    hide Grown;
    hide GrownRoles;
    hide LinkFrame;
    hide Linked;
    hide ObjOk;
    assert Held(store, objs, roles, m);
    AppendedObj(store, roles, m, objs[m], c, s, d, l, q, db, store2);
    var mb := SetWord(store2[m], 4, |c| + |s|);
    OthersAfterLink(sb, store, objs, roles, leaked, store2, m, t, d, l, q, db, mb);
    hide AllInTree;
    hide Owns;
    hide AllocOk;
    hide OthersKept;
    FileChanged(sb, store, objs, roles, leaked, sb', store2[m := mb], GrownRoles(roles, m, t, d, l, q), leaked, m,
                c + s, Grown(t, d, l, q));
  }

  /** A tree before its new data block is linked. */
  lemma DataStored(store: Store, roles: Roles, roles': Roles, m: nat, t: Tree, d: nat, db: Block)
    requires TreeOk(store, m, t) && Owns(roles, m, t) && d !in roles
    requires roles' == roles[d := Use(m, Data(|t.data|))]
    ensures TreeOk(store[d := db], m, t) && Owns(roles', m, t)
  {
    hide Word;
    FreshApart(roles, m, t, d);
    TreeFrame(store, store[d := db], m, t);
    forall i | 0 <= i < |t.data| ensures OwnsData(roles', m, t, i) { assert OwnsData(roles, m, t, i); }
    forall i | 0 <= i < |t.links| ensures OwnsLink(roles', m, t, i) { assert OwnsLink(roles, m, t, i); }
    forall i | 0 <= i < |t.lols| ensures OwnsLol(roles', m, t, i) { assert OwnsLol(roles, m, t, i); }
  }

  /** Linking leaves the data blocks as they were, the new one included. */
  lemma LinkedData(store: Store, store2: Store, roles: Roles, m: nat, t: Tree, d: nat, db: Block)
    requires Owns(roles, m, t) && d !in roles && (forall x | x in t.data :: x in store)
    requires LinkFrame(store[d := db], store2, roles[d := Use(m, Data(|t.data|))], m)
    ensures d in store2 && store2[d] == db
    ensures forall x | x in t.data :: x in store2 && store2[x] == store[x]
  {
    forall x | x in t.data ensures x in store2 && store2[x] == store[x] {
      var i :| 0 <= i < |t.data| && t.data[i] == x;
      assert OwnsData(roles, m, t, i);
    }
  }

  lemma OthersAfterLink(
    sb: Superblock, store: Store, objs: Objs, roles: Roles, leaked: set<nat>,
    store2: Store, m: nat, t: Tree, d: nat, l: nat, q: nat, db: Block, mb: Block)
    requires AllocOk(sb, roles, leaked) && Stored(store, sb) && m in roles && roles[m] == Use(m, Meta)
    requires d !in roles && l !in roles && q !in roles
    requires LinkFrame(store[d := db], store2, roles[d := Use(m, Data(|t.data|))], m)
    ensures OthersKept(store, store2[m := mb], roles, GrownRoles(roles, m, t, d, l, q), m)
  {
  }

  // ---------------------------------------------------------------------------------------
  // Writes that keep the blocks
  // ---------------------------------------------------------------------------------------

  /** `s` over the bytes of `c` from `o` on, as far as `c` reaches; appended at its end. */
  function Written(c: seq<Byte>, o: nat, s: seq<Byte>): seq<Byte>
    requires o <= |c|
  {
    if o == |c| then c + s
    else if o + |s| <= |c| then c[..o] + s + c[o + |s|..]
    else c[..o] + s[..|c| - o]
  }

  lemma MetaBytes(b: Block, c: seq<Byte>, at: nat, s: seq<Byte>)
    requires |c| <= MAX_IN_META && c == b[META_BYTES..META_BYTES + |c|] && at <= |c|
    requires at + |s| <= MAX_IN_META && (at < |c| ==> at + |s| <= |c|)
    ensures Written(c, at, s) == Paste(b, META_BYTES + at, s)[META_BYTES..META_BYTES + |Written(c, at, s)|]
  {
    var c', mb := Written(c, at, s), Paste(b, META_BYTES + at, s);
    forall k | 0 <= k < |c'| ensures mb[META_BYTES + k] == c'[k] {
      PasteAt(b, META_BYTES + at, s, META_BYTES + k);
      assert k < |c| ==> b[META_BYTES + k] == c[k];
    }
  }

  /** A write inside the metadata block. */
  lemma WrittenInMeta(store: Store, m: nat, o: Obj, c: seq<Byte>, at: nat, s: seq<Byte>)
    requires ObjOk(store, m, o) && o.body == File(c) && at <= |c| && |c| <= MAX_IN_META
    requires at + |s| <= MAX_IN_META && (at < |c| ==> at + |s| <= |c|)
    ensures var c' := Written(c, at, s);
            ObjOk(store[m := Paste(SetWord(store[m], 4, |c'|), META_BYTES + at, s)], m, o.(body := File(c')))
  {
    hide Word;
    hide SetWord;
    hide Paste;
    var c', b := Written(c, at, s), store[m];
    var b', o' := SetWord(b, 4, |c'|), o.(body := File(c'));
    SizeSet(b, b, m, o, o');
    forall w | 0 <= w < 5 ensures Word(Paste(b', META_BYTES + at, s), w) == Word(b', w) {
      WordOfPaste(b', META_BYTES + at, s, w);
    }
    assert c == b'[META_BYTES..META_BYTES + |c|] by {
      assert b[META_BYTES..] == b[META_BYTES..4096] && b'[META_BYTES..] == b'[META_BYTES..4096];
      SliceSlice(b, META_BYTES, 4096, 0, |c|);
      SliceSlice(b', META_BYTES, 4096, 0, |c|);
    }
    MetaBytes(b', c, at, s);
  }

  lemma WroteInMeta(
    sb: Superblock, store: Store, objs: Objs, roles: Roles, leaked: set<nat>, m: nat, at: nat, s: seq<Byte>)
    requires m in store && m in objs && objs[m].body.File? && at <= |objs[m].body.content| <= MAX_IN_META
    requires var c := objs[m].body.content; at + |s| <= MAX_IN_META && (at < |c| ==> at + |s| <= |c|)
    requires Good(sb, store, objs, roles, leaked)
    ensures var c' := Written(objs[m].body.content, at, s);
            Good(sb, store[m := Paste(SetWord(store[m], 4, |c'|), META_BYTES + at, s)],
                 objs[m := objs[m].(body := File(c'))], roles, leaked)
  {
    hide Linked;
    hide ObjOk;
    hide Paste;
    hide SetWord;
    var c := objs[m].body.content;
    assert Held(store, objs, roles, m);
    WrittenInMeta(store, m, objs[m], c, at, s);
    SameBlocks(sb, store, objs, roles, leaked, store[m := Paste(SetWord(store[m], 4, |Written(c, at, s)|),
                                                                META_BYTES + at, s)],
               m, Written(c, at, s));
  }

  /** Pasting `s` at offset `at` of the file, inside one data block of it. */
  lemma WrittenInBlock(store: Store, roles: Roles, m: nat, c: seq<Byte>, t: Tree, at: nat, s: seq<Byte>, i: nat)
    requires FileOk(store, m, c, t) && Owns(roles, m, t) && |c| > MAX_IN_META && at <= |c|
    requires i < |t.data| && 4096 * i <= at && at + |s| <= 4096 * (i + 1) && |c| + |s| <= MAX_FILE + 4096
    requires at == |c| ==> at + |s| <= MAX_FILE
    ensures t.data[i] in store
    ensures var c' := Written(c, at, s);
            FileOk(store[t.data[i] := Paste(store[t.data[i]], at - 4096 * i, s)], m, c', t)
  {
    hide TreeOk;
    var c' := Written(c, at, s);
    assert NumBlocks(|c'|) == NumBlocks(|c|);
    PasteData(store, roles, m, c, t, i, at - 4096 * i, s, c');
  }

  /** update_file, for the whole file system. */
  lemma Updated(
    sb: Superblock, store: Store, objs: Objs, roles: Roles, leaked: set<nat>,
    m: nat, c: seq<Byte>, at: nat, s: seq<Byte>, i: nat, d: nat, db: Block)
    requires MAX_IN_META < |c| && 4096 * i <= at < |c| && at + |s| <= 4096 * (i + 1) && d in store
    requires db == Paste(store[d], at - 4096 * i, s)
    requires m in objs && objs[m].body == File(c) && i < |objs[m].tree.data| && d == objs[m].tree.data[i]
    requires Good(sb, store, objs, roles, leaked)
    ensures Good(sb, store[d := db], objs[m := objs[m].(body := File(Written(c, at, s)))], roles, leaked)
  {
    hide Word;
    hide TreeOk;
    hide Linked;
    var t := objs[m].tree;
    assert Held(store, objs, roles, m);
    WrittenInBlock(store, roles, m, c, t, at, s, i);
    assert OwnsData(roles, m, t, i);
    hide FileOk;
    hide Paste;
    SameBlocks(sb, store, objs, roles, leaked, store[d := db], m, Written(c, at, s));
  }

  /** An append that fits in the last data block, for the whole file system. */
  lemma AppendedInBlock(
    sb: Superblock, store: Store, objs: Objs, roles: Roles, leaked: set<nat>,
    m: nat, c: seq<Byte>, s: seq<Byte>, i: nat, d: nat, db: Block, mb: Block, objs': Objs)
    requires MAX_IN_META < |c| && 4096 * i < |c| && |c| + |s| <= 4096 * (i + 1) && d in store && m in store
    requires db == Paste(store[d], |c| - 4096 * i, s) && mb == SetWord(store[m], 4, |c| + |s|)
    requires m in objs && objs[m].body == File(c) && i < |objs[m].tree.data| && d == objs[m].tree.data[i]
    requires objs' == objs[m := objs[m].(body := File(c + s))]
    requires Good(sb, store, objs, roles, leaked)
    ensures Good(sb, store[d := db][m := mb], objs', roles, leaked)
  {
    hide Word;
    hide TreeOk;
    hide Linked;
    var o := objs[m];
    assert Held(store, objs, roles, m);
    assert OwnsData(roles, m, o.tree, i);
    assert |c| + |s| <= MAX_FILE;
    WrittenInBlock(store, roles, m, c, o.tree, |c|, s, i);
    var store1 := store[d := db];
    hide FileOk;
    hide Paste;
    hide SetWord;
    SizeWritten(store1, roles, m, store[m], o, o.(body := File(c + s)));
    SameBlocks(sb, store, objs, roles, leaked, store1[m := mb], m, c + s);
  }

  /** The file on the device after it outgrows its metadata block. */
  lemma SpilledObj(store: Store, roles: Roles, m: nat, o: Obj, c: seq<Byte>, s: seq<Byte>, d: nat, db: Block)
    requires ObjOk(store, m, o) && Owns(roles, m, o.tree) && AllInTree(roles, m, o.tree) && o.body == File(c)
    requires |c| <= MAX_IN_META < |c| + |s| <= 4096 && d < U64_LIMIT && d !in roles && db[..|c| + |s|] == c + s
    ensures var t', roles' := Tree([d], [], []), roles[d := Use(m, Data(0))];
            && ObjOk(store[d := db][m := SetWord(SetWord(store[m], 16, d), 4, |c| + |s|)], m,
                     o.(body := File(c + s), tree := t'))
            && Owns(roles', m, t') && AllInTree(roles', m, t')
  {
    hide Word;
    hide SetWord;
    hide TreeOk;
    var b := SetWord(store[m], 16, d);
    SetWordBut(store[m], 16, d);
    Spill(store, m, c, d, db, b, s);
    SpilledOwns(roles, m, d);
    hide FileOk;
    hide Owns;
    hide AllInTree;
    SizeWritten(store[d := db][m := b], roles[d := Use(m, Data(0))], m, store[m], o,
                o.(body := File(c + s), tree := Tree([d], [], [])));
    assert store[d := db][m := b][m := SetWord(b, 4, |c| + |s|)] == store[d := db][m := SetWord(b, 4, |c| + |s|)];
  }

  /** The first data block of a file, for the whole file system. */
  lemma Spilled(
    sb: Superblock, store: Store, objs: Objs, roles: Roles, leaked: set<nat>,
    m: nat, c: seq<Byte>, s: seq<Byte>, d: nat, db: Block, sb': Superblock, store': Store, objs': Objs, roles': Roles)
    requires |c| <= MAX_IN_META < |c| + |s| <= 4096 && d in store && m in store && d < U64_LIMIT
    requires db[..|c| + |s|] == c + s
    requires store' == store[d := db][m := SetWord(SetWord(store[m], 16, d), 4, |c| + |s|)]
    requires m in objs && objs[m].body == File(c)
    requires objs' == objs[m := objs[m].(body := File(c + s), tree := Tree([d], [], []))]
    requires d !in roles && roles' == roles[d := Use(m, Data(0))]
    requires NoTxn(sb') && sb'.generation == sb.generation && sb'.numBlocks == sb.numBlocks
    requires Good(sb, store, objs, roles, leaked) && AllocOk(sb', roles', leaked)
    ensures Good(sb', store', objs', roles', leaked)
  {
    hide SetWord;
    hide Linked;
    hide ObjOk;
    hide AllInTree;
    assert Held(store, objs, roles, m);
    SpilledObj(store, roles, m, objs[m], c, s, d, db);
    hide Owns;
    FileChanged(sb, store, objs, roles, leaked, sb', store', roles', leaked, m, c + s, Tree([d], [], []));
  }

  lemma SpilledOwns(roles: Roles, m: nat, d: nat)
    requires Owns(roles, m, EMPTY) && AllInTree(roles, m, EMPTY) && d !in roles
    ensures var roles', t' := roles[d := Use(m, Data(0))], Tree([d], [], []);
            Owns(roles', m, t') && AllInTree(roles', m, t')
  {
    var roles', t' := roles[d := Use(m, Data(0))], Tree([d], [], []);
    assert OwnsData(roles', m, t', 0);
    forall b | b in roles' && roles'[b].owner == m ensures InTree(m, t', b, roles'[b].role) {
      assert b in roles ==> InTree(m, EMPTY, b, roles[b].role);
    }
  }

  // ---------------------------------------------------------------------------------------
  // Truncation
  // ---------------------------------------------------------------------------------------

  /** A shorter file with the same blocks: only the size word changes. */
  lemma TruncatedInPlace(
    sb: Superblock, store: Store, objs: Objs, roles: Roles, leaked: set<nat>, m: nat, c: seq<Byte>, size: nat,
    objs': Objs)
    requires size <= |c| && m in store && m in objs && objs[m].body == File(c)
    requires |c| <= MAX_IN_META || (size > MAX_IN_META && NumBlocks(size) == NumBlocks(|c|))
    requires objs' == objs[m := objs[m].(body := File(c[..size]))]
    requires Good(sb, store, objs, roles, leaked)
    ensures Good(sb, store[m := SetWord(store[m], 4, size)], objs', roles, leaked)
  {
    hide Word;
    hide SetWord;
    hide Linked;
    var o := objs[m];
    var o' := o.(body := File(c[..size]));
    assert Held(store, objs, roles, m);
    if |c| <= MAX_IN_META {
      SliceSlice(store[m], META_BYTES, META_BYTES + |c|, 0, size);
    } else {
      Cut(store, m, c, o.tree, size);
    }
    hide FileOk;
    SizeWritten(store, roles, m, store[m], o, o');
    SameBlocks(sb, store, objs, roles, leaked, store[m := SetWord(store[m], 4, size)], m, c[..size]);
  }

  /** The file on the device after its last data block is given up. */
  lemma ShrunkObj(store: Store, roles: Roles, m: nat, o: Obj, c: seq<Byte>, size: nat, store1: Store, store2: Store)
    requires ObjOk(store, m, o) && Owns(roles, m, o.tree) && o.body == File(c)
    requires |c| > 4096 && size == (|c| - 1) / 4096 * 4096
    requires m in store1 && HeaderOk(store1[m], m, o.(body := File(c[..size]))) && TreeOk(store1, m, Shrunk(o.tree))
    requires forall x | x in store && x != m :: x in store1 && store1[x] == store[x]
    requires forall x | x in store1 && x !in Dropped(o.tree) :: x in store2 && store2[x] == store1[x]
    ensures ObjOk(store2, m, o.(body := File(c[..size]), tree := Shrunk(o.tree)))
  {
    hide Word;
    hide NewLink;
    hide NewLol;
    var t := o.tree;
    MetaApart(roles, m, t);
    DropBlock(store, store1, m, c, t, size);
    DroppedApart(roles, m, t);
    FileFrame(store1, store2, m, c[..size], Shrunk(t));
  }

  /** The blocks given up are not in what remains. */
  lemma DroppedApart(roles: Roles, m: nat, t: Tree)
    requires Owns(roles, m, t) && t.data != [] && |t.links| == NumLinks(|t.data|) && |t.lols| == NumLols(|t.data|)
    ensures var t', s := Shrunk(t), Dropped(t);
            && m !in s && (forall x | x in t'.data :: x !in s) && (forall x | x in t'.links :: x !in s)
            && (forall x | x in t'.lols :: x !in s)
  {
    hide NewLink;
    hide NewLol;
    hide NumLinks;
    hide NumLols;
    var t' := Shrunk(t);
    assert OwnsData(roles, m, t, |t.data| - 1);
    assert t.links != [] ==> OwnsLink(roles, m, t, |t.links| - 1);
    assert t.lols != [] ==> OwnsLol(roles, m, t, |t.lols| - 1);
    forall i | 0 <= i < |t'.data| ensures t'.data[i] !in Dropped(t) { assert OwnsData(roles, m, t, i); }
    forall i | 0 <= i < |t'.links| ensures t'.links[i] !in Dropped(t) { assert OwnsLink(roles, m, t, i); }
    forall i | 0 <= i < |t'.lols| ensures t'.lols[i] !in Dropped(t) { assert OwnsLol(roles, m, t, i); }
  }

  /** The file on the device after its bytes go back to the metadata block. */
  lemma UnspilledObj(store: Store, roles: Roles, m: nat, o: Obj, c: seq<Byte>, size: nat, mb: Block, store2: Store)
    requires ObjOk(store, m, o) && Owns(roles, m, o.tree) && o.body == File(c)
    requires MAX_IN_META < |c| <= 4096 && size <= MAX_IN_META
    requires HeaderOk(mb, m, o.(body := File(c[..size])))
    requires |o.tree.data| == 1 && o.tree.data[0] in store
    requires mb[META_BYTES..META_BYTES + size] == store[o.tree.data[0]][..size]
    requires m in store2 && store2[m] == mb
    ensures ObjOk(store2, m, o.(body := File(c[..size]), tree := EMPTY))
  {
    hide Word;
    hide TreeOk;
    Unspill(store, m, c, o.tree, size, mb);
  }

  /** One block fewer, for the whole file system. */
  lemma FileShrunk(
    sb: Superblock, store: Store, objs: Objs, roles: Roles, leaked: set<nat>,
    m: nat, c: seq<Byte>, t': Tree, sb': Superblock, store': Store, objs': Objs, roles': Roles, leaked': set<nat>)
    requires m in objs && objs[m].body.File? && objs[m].tree.data != []
    requires objs' == objs[m := objs[m].(body := File(c), tree := t')]
    requires |objs[m].tree.links| == NumLinks(|objs[m].tree.data|)
    requires |objs[m].tree.lols| == NumLols(|objs[m].tree.data|)
    requires t' == Shrunk(objs[m].tree) && roles' == roles - Dropped(objs[m].tree)
    requires forall x | x in store && x != m && x !in Dropped(objs[m].tree) :: x in store' && store'[x] == store[x]
    requires NoTxn(sb') && sb'.generation == sb.generation && Stored(store', sb')
    requires ObjOk(store', m, objs[m].(body := File(c), tree := t'))
    requires Good(sb, store, objs, roles, leaked) && AllocOk(sb', roles', leaked')
    ensures Good(sb', store', objs', roles', leaked')
  {
    hide Linked;
    hide ObjOk;
    hide NumLinks;
    hide NumLols;
    var t := objs[m].tree;
    assert Held(store, objs, roles, m);
    ShrunkOwns(roles, m, t);
    DroppedOwned(roles, m, t);
    hide Shrunk;
    hide Dropped;
    hide Owns;
    hide AllInTree;
    FileChanged(sb, store, objs, roles, leaked, sb', store', roles', leaked', m, c, t');
  }

  lemma DroppedOwned(roles: Roles, m: nat, t: Tree)
    requires Owns(roles, m, t) && t.data != []
    ensures forall x | x in Dropped(t) :: x in roles && roles[x].owner == m && x != m
  {
    assert OwnsData(roles, m, t, |t.data| - 1);
    assert t.links != [] ==> OwnsLink(roles, m, t, |t.links| - 1);
    assert t.lols != [] ==> OwnsLol(roles, m, t, |t.lols| - 1);
  }

  lemma TreeCounts(sb: Superblock, store: Store, objs: Objs, roles: Roles, leaked: set<nat>, m: nat)
    requires m in objs && Good(sb, store, objs, roles, leaked)
    ensures var t := objs[m].tree;
            |t.links| == NumLinks(|t.data|) && |t.lols| == NumLols(|t.data|) && |t.data| <= MAX_DOUBLE
    ensures ObjOk(store, m, objs[m]) && Owns(roles, m, objs[m].tree)
    ensures m != ROOT ==> forall x | x in roles && roles[x].owner == m :: x != ROOT
  {
    hide Word;
    hide Linked;
    assert ROOT in objs by { RootIn(objs, sb, store, roles, leaked); }
    assert Held(store, objs, roles, m) && Held(store, objs, roles, ROOT);
  }

  lemma RootIn(objs: Objs, sb: Superblock, store: Store, roles: Roles, leaked: set<nat>)
    requires Good(sb, store, objs, roles, leaked)
    ensures ROOT in objs && objs[ROOT].body.Dir?
  {
  }

  /** set_file_size for one block of a file of more than one, for the whole file system. */
  lemma AfterDrop(
    sb: Superblock, store: Store, objs: Objs, roles: Roles, leaked: set<nat>, m: nat, c: seq<Byte>, size: nat,
    mb: Block,
    sb': Superblock, store2: Store, objs': Objs, roles': Roles, leaked': set<nat>)
    requires m in objs && objs[m].body == File(c) && |c| > 4096 && size == (|c| - 1) / 4096 * 4096
    requires HeaderOk(mb, m, objs[m].(body := File(c[..size])))
    requires var t := objs[m].tree; t.data != [] && |t.links| == NumLinks(|t.data|) && |t.lols| == NumLols(|t.data|)
    requires TreeOk(store[m := mb], m, Shrunk(objs[m].tree))
    requires forall x | x in store[m := mb] && x !in Dropped(objs[m].tree) ::
               x in store2 && store2[x] == store[m := mb][x]
    requires objs' == objs[m := objs[m].(body := File(c[..size]), tree := Shrunk(objs[m].tree))]
    requires roles' == roles - Dropped(objs[m].tree)
    requires NoTxn(sb') && sb'.generation == sb.generation && Stored(store2, sb') && AllocOk(sb', roles', leaked')
    requires Good(sb, store, objs, roles, leaked)
    ensures Good(sb', store2, objs', roles', leaked')
  {
    hide Good;
    hide Dropped;
    hide Shrunk;
    hide HeaderOk;
    hide TreeOk;
    hide ObjOk;
    hide AllocOk;
    hide Owns;
    TreeCounts(sb, store, objs, roles, leaked, m);
    ShrunkObj(store, roles, m, objs[m], c, size, store[m := mb], store2);
    FileShrunk(sb, store, objs, roles, leaked, m, c[..size], Shrunk(objs[m].tree), sb', store2, objs', roles', leaked');
  }

  /** set_file_size back to the metadata block, for the whole file system. */
  lemma AfterUnspill(
    sb: Superblock, store: Store, objs: Objs, roles: Roles, leaked: set<nat>, m: nat, c: seq<Byte>, size: nat,
    mb: Block,
    sb': Superblock, store2: Store, objs': Objs, roles': Roles, leaked': set<nat>)
    requires m in objs && objs[m].body == File(c) && MAX_IN_META < |c| <= 4096 && size <= MAX_IN_META
    requires HeaderOk(mb, m, objs[m].(body := File(c[..size])))
    requires |objs[m].tree.data| == 1 && objs[m].tree.data[0] in store
    requires mb[META_BYTES..META_BYTES + size] == store[objs[m].tree.data[0]][..size]
    requires forall x | x in store[m := mb] && x != objs[m].tree.data[0] ::
               x in store2 && store2[x] == store[m := mb][x]
    requires objs' == objs[m := objs[m].(body := File(c[..size]), tree := EMPTY)]
    requires roles' == roles - {objs[m].tree.data[0]}
    requires NoTxn(sb') && sb'.generation == sb.generation && Stored(store2, sb') && AllocOk(sb', roles', leaked')
    requires Good(sb, store, objs, roles, leaked)
    ensures Good(sb', store2, objs', roles', leaked') && Counted(objs[m].tree) && Shrunk(objs[m].tree) == EMPTY
  {
    hide Good;
    hide HeaderOk;
    hide ObjOk;
    hide AllocOk;
    var t := objs[m].tree;
    TreeCounts(sb, store, objs, roles, leaked, m);
    assert OwnsData(roles, m, t, 0);
    assert NumLinks(1) == 0 && NumLols(1) == 0 && t.links == [] && t.lols == [];
    assert t.data[..0] == [];
    assert Shrunk(t) == EMPTY && Dropped(t) == {t.data[0]};
    hide Owns;
    UnspilledObj(store, roles, m, objs[m], c, size, mb, store2);
    FileShrunk(sb, store, objs, roles, leaked, m, c[..size], EMPTY, sb', store2, objs', roles', leaked');
  }

  /** `s` is what the file holds from `offset` on, as far as the file reaches. */
  ghost predicate ReadsAs(s: seq<Byte>, c: seq<Byte>, offset: nat) {
    forall i | 0 <= i < |s| :: offset + i < |c| ==> s[i] == c[offset + i]
  }

  /** Bytes read from one data block are those of the file, as far as it reaches. */
  lemma BlockBytes(
    sb: Superblock, store: Store, objs: Objs, roles: Roles, leaked: set<nat>, m: nat, offset: nat, n: nat)
    requires Good(sb, store, objs, roles, leaked) && m in objs && objs[m].body.File?
    requires MAX_IN_META < |objs[m].body.content| && offset < |objs[m].body.content| && offset % 4096 + n <= 4096
    requires offset / 4096 < |objs[m].tree.data| && objs[m].tree.data[offset / 4096] in store
    ensures ReadsAs(store[objs[m].tree.data[offset / 4096]][offset % 4096..offset % 4096 + n], objs[m].body.content,
                    offset)
  {
    hide Word;
    hide Linked;
    hide AllocOk;
    var c, t := objs[m].body.content, objs[m].tree;
    assert Held(store, objs, roles, m);
    hide TreeOk;
    var s := store[t.data[offset / 4096]][offset % 4096..offset % 4096 + n];
    forall i | 0 <= i < |s| && offset + i < |c| ensures s[i] == c[offset + i] {
      ByteAt(store, m, c, t, offset + i);
      assert (offset + i) / 4096 == offset / 4096;
    }
  }

  /** The allocator does not look at the transaction fields. */
  lemma AllocTxn(sb: Superblock, sb': Superblock, roles: Roles, leaked: set<nat>)
    requires AllocOk(sb, roles, leaked)
    requires sb'.numBlocks == sb.numBlocks && sb'.freeBlocks == sb.freeBlocks
    requires sb'.freelistHead == sb.freelistHead && sb'.emptyAreaStart == sb.emptyAreaStart
    ensures AllocOk(sb', roles, leaked)
  {
  }

  /** The last data block and its links, for a file with data blocks. */
  lemma LastBlock(sb: Superblock, store: Store, objs: Objs, roles: Roles, leaked: set<nat>, m: nat)
    requires Good(sb, store, objs, roles, leaked) && m in objs && objs[m].body.File?
    requires MAX_IN_META < |objs[m].body.content|
    ensures var c, t := objs[m].body.content, objs[m].tree;
            && t.data != [] && |t.data| - 1 == (|c| - 1) / 4096
            && |t.links| == NumLinks(|t.data|) && |t.lols| == NumLols(|t.data|) && |t.data| <= MAX_DOUBLE
            && (forall x | x in Dropped(t) :: x in roles && x in store && x != ROOT && x != m)
  {
    hide Word;
    TreeCounts(sb, store, objs, roles, leaked, m);
    RootIn(objs, sb, store, roles, leaked);
    assert Held(store, objs, roles, m);
    DroppedOwned(roles, m, objs[m].tree);
    hide Linked;
  }

  /** The link word that set_file_size reads for a small file. */
  lemma DirectLast(sb: Superblock, store: Store, objs: Objs, roles: Roles, leaked: set<nat>, m: nat, mid: nat)
    requires Good(sb, store, objs, roles, leaked) && m in objs && objs[m].body.File?
    requires MAX_IN_META < |objs[m].body.content| <= 2031616
    requires var size := |objs[m].body.content|;
             if size <= 4096 then mid <= MAX_IN_META else mid == (size - 1) / 4096 * 4096
    ensures var t := objs[m].tree;
            && t.data != [] && mid / 4096 == |t.data| - 1 < 496
            && m in store && Word(store[m], 16 + mid / 4096) == t.data[|t.data| - 1]
            && t.data[|t.data| - 1] in store
            && Dropped(t) == {t.data[|t.data| - 1]} && BlockFrees(t) == [t.data[|t.data| - 1]] && TreeOk(store, m, t)
  {
    hide Good;
    hide Word;
    LastBlock(sb, store, objs, roles, leaked, m);
    FileFacts(sb, store, objs, roles, leaked, m);
    Route(store, m, objs[m].tree, |objs[m].tree.data| - 1);
    hide TreeOk;
  }

  /** The metadata block that set_file_size writes for a small file. */
  lemma DirectMeta(
    sb: Superblock, store: Store, objs: Objs, roles: Roles, leaked: set<nat>, m: nat, d: nat, mid: nat, mb: Block)
    requires Good(sb, store, objs, roles, leaked) && m in objs && objs[m].body.File? && m in store && d in store
    requires MAX_IN_META < |objs[m].body.content| <= 2031616
    requires var size := |objs[m].body.content|;
             if size <= 4096 then mid <= MAX_IN_META else mid == (size - 1) / 4096 * 4096
    requires mb == if mid <= MAX_IN_META && mid > 0
                  then Paste(SetWord(store[m], 4, mid), META_BYTES, store[d][..MAX_IN_META])
                   else SetWord(store[m], 4, mid)
    ensures var c, t := objs[m].body.content, objs[m].tree;
            && HeaderOk(mb, m, objs[m].(body := File(c[..mid])))
            && (|c| <= 4096 ==> mb[META_BYTES..META_BYTES + mid] == store[d][..mid])
            && (|c| > 4096 ==>
                  && t.data != [] && |t.links| == NumLinks(|t.data|) && |t.lols| == NumLols(|t.data|)
                  && TreeOk(store[m := mb], m, Shrunk(t)))
  {
    hide Good;
    hide Word;
    hide SetWord;
    hide TreeOk;
    hide Owns;
    hide AllocOk;
    var c, t, o := objs[m].body.content, objs[m].tree, objs[m];
    FileFacts(sb, store, objs, roles, leaked, m);
    LastBlock(sb, store, objs, roles, leaked, m);
    TreeCounts(sb, store, objs, roles, leaked, m);
    SizeSet(store[m], store[m], m, o, o.(body := File(c[..mid])));
    if |c| <= 4096 {
      var b := SetWord(store[m], 4, mid);
      forall w | 0 <= w < 5 ensures Word(mb, w) == Word(b, w) {
        if mid > 0 { WordOfPaste(b, META_BYTES, store[d][..MAX_IN_META], w); }
      }
      if mid > 0 {
        assert mb[META_BYTES..META_BYTES + mid] == store[d][..mid];
      }
    } else {
      hide Paste;
      DirectShrink(store, roles, m, t, mid);
    }
  }

  lemma DirectShrink(store: Store, roles: Roles, m: nat, t: Tree, size: nat)
    requires TreeOk(store, m, t) && Owns(roles, m, t) && t.data != [] && size < U64_LIMIT
    requires |t.data| - 1 != MAX_DIRECT && |t.data| - 1 != MAX_SINGLE
    ensures TreeOk(store[m := SetWord(store[m], 4, size)], m, Shrunk(t))
  {
    hide Word;
    hide SetWord;
    hide NewLink;
    hide NewLol;
    ShrinkSame(store, m, t);
    MetaApart(roles, m, t);
    SetWordBut(store[m], 4, size);
    var store' := store[m := SetWord(store[m], 4, size)];
    assert LinksBut(store[m], store'[m], 0);
    TreeFrame(store, store', m, Shrunk(t));
  }

  /** The words that set_file_size follows for a file with link blocks, and what it gives up. */
  lemma SingleLast(sb: Superblock, store: Store, objs: Objs, roles: Roles, leaked: set<nat>, m: nat, mid: nat)
    requires Good(sb, store, objs, roles, leaked) && m in objs && objs[m].body.File?
    requires 2031616 < |objs[m].body.content| <= 1040187392 && mid == (|objs[m].body.content| - 1) / 4096 * 4096
    ensures var t, i, j := objs[m].tree, mid / 4096, mid / 2097152;
            && t.data != [] && i == |t.data| - 1 && j < |t.links| && j < 496 && m in store && t.links[j] in store
            && Word(store[m], 16 + j) == t.links[j]
            && mid % 2097152 / 4096 < 512 && Word(store[t.links[j]], mid % 2097152 / 4096) == t.data[i]
            && t.data[i] != t.links[j] && mid >= 2031616
            && var gone := mid % 2097152 / 4096 == 0 || mid == 2031616;
            && Dropped(t) == {t.data[i]} + (if gone then {t.links[j]} else {})
            && BlockFrees(t) == [t.data[i]] + if gone then [t.links[j]] else []
  {
    hide Good;
    hide Word;
    LastBlock(sb, store, objs, roles, leaked, m);
    FileFacts(sb, store, objs, roles, leaked, m);
    var t := objs[m].tree;
    var n := |t.data| - 1;
    Shifts(mid);
    Route(store, m, t, n);
    CountsGrow(n);
    assert OwnsData(roles, m, t, n) && OwnsLink(roles, m, t, n / 512);
    hide TreeOk;
    hide AllocOk;
    assert NewLink(n) ==> n / 512 == |t.links| - 1;
  }

  /** The metadata block that set_file_size writes for a file with link blocks. */
  lemma SingleMeta(store: Store, roles: Roles, m: nat, o: Obj, c: seq<Byte>, mid: nat, mb: Block)
    requires ObjOk(store, m, o) && Owns(roles, m, o.tree) && o.body == File(c)
    requires 2031616 < |c| <= 1040187392 && mid == (|c| - 1) / 4096 * 4096
    requires if mid == 2031616 then
               o.tree.links != [] && o.tree.links[0] in store && CopyOfLinks(mb, store[o.tree.links[0]])
               && SameHeader(SetWord(store[m], 4, mid), mb)
             else mb == SetWord(store[m], 4, mid)
    ensures var t := o.tree;
            && HeaderOk(mb, m, o.(body := File(c[..mid])))
            && t.data != [] && |t.links| == NumLinks(|t.data|) && |t.lols| == NumLols(|t.data|)
            && TreeOk(store[m := mb], m, Shrunk(t))
  {
    hide Word;
    hide SetWord;
    SizeSet(store[m], store[m], m, o, o.(body := File(c[..mid])));
    MetaApart(roles, m, o.tree);
    hide HeaderOk;
    hide TreeOk;
    if mid == 2031616 {
      ShrinkToDirect(store, m, o.tree, mb);
      SameHead(SetWord(store[m], 4, mid), mb, m, o.(body := File(c[..mid])));
    } else {
      DirectShrink(store, roles, m, o.tree, mid);
    }
  }

  lemma SameHead(a: Block, b: Block, m: nat, o: Obj)
    requires HeaderOk(a, m, o) && SameHeader(a, b)
    ensures HeaderOk(b, m, o)
  {
    hide Word;
  }

  /** The words that set_file_size follows for a file with lists of links, and what it gives up. */
  lemma DoubleLast(sb: Superblock, store: Store, objs: Objs, roles: Roles, leaked: set<nat>, m: nat, mid: nat)
    requires Good(sb, store, objs, roles, leaked) && m in objs && objs[m].body.File?
    requires 1040187392 < |objs[m].body.content| && mid == (|objs[m].body.content| - 1) / 4096 * 4096
    ensures var t, i, j, q := objs[m].tree, mid / 4096, mid / 2097152, mid / 1073741824;
            var k, k' := mid % 2097152 / 4096, mid % 1073741824 / 2097152;
            && t.data != [] && i == |t.data| - 1 && j < |t.links| && q < |t.lols| && q < 496 && k < 512 && k' < 512
            && m in store && t.links[j] in store && t.lols[q] in store
            && Word(store[m], 16 + q) == t.lols[q] && Word(store[t.lols[q]], k') == t.links[j]
            && Word(store[t.links[j]], k) == t.data[i]
            && t.data[i] != t.links[j] && t.data[i] != t.lols[q] && t.links[j] != t.lols[q] && mid >= 1040187392
            && var gone, gone' := k == 0, k == 0 && (k' == 0 || mid == 1040187392);
            && Dropped(t) == {t.data[i]} + (if gone then {t.links[j]} else {}) + (if gone' then {t.lols[q]} else {})
            && BlockFrees(t) == [t.data[i]] + (if gone then [t.links[j]] else []) + if gone' then [t.lols[q]] else []
  {
    hide Good;
    hide Word;
    LastBlock(sb, store, objs, roles, leaked, m);
    FileFacts(sb, store, objs, roles, leaked, m);
    var t := objs[m].tree;
    var n := |t.data| - 1;
    Shifts(mid);
    Route(store, m, t, n);
    DoubleCounts(t, n);
    assert OwnsData(roles, m, t, n) && OwnsLink(roles, m, t, n / 512) && OwnsLol(roles, m, t, n / 262144);
    hide TreeOk;
    hide AllocOk;
    hide NewLink;
    hide NewLol;
  }

  lemma DoubleCounts(t: Tree, n: nat)
    requires n + 1 == |t.data| <= MAX_DOUBLE && n >= MAX_SINGLE
    requires |t.links| == NumLinks(|t.data|) && |t.lols| == NumLols(|t.data|)
    ensures NewLink(n) <==> n % 512 == 0
    ensures NewLol(n) <==> n % 512 == 0 && (n / 512 % 512 == 0 || n == MAX_SINGLE)
    ensures NewLink(n) ==> n / 512 == |t.links| - 1
    ensures NewLol(n) ==> n / 262144 == |t.lols| - 1
  {
    CountsGrow(n);
    assert n % 262144 == n % 512 + 512 * (n / 512 % 512);
  }

  /** The metadata block that set_file_size writes for a file with lists of links. */
  lemma DoubleMeta(store: Store, roles: Roles, m: nat, o: Obj, c: seq<Byte>, mid: nat, mb: Block)
    requires ObjOk(store, m, o) && Owns(roles, m, o.tree) && o.body == File(c)
    requires 1040187392 < |c| && mid == (|c| - 1) / 4096 * 4096
    requires if mid == 1040187392 then
               o.tree.lols != [] && o.tree.lols[0] in store && CopyOfLinks(mb, store[o.tree.lols[0]])
               && SameHeader(SetWord(store[m], 4, mid), mb)
             else mb == SetWord(store[m], 4, mid)
    ensures var t := o.tree;
            && HeaderOk(mb, m, o.(body := File(c[..mid])))
            && t.data != [] && |t.links| == NumLinks(|t.data|) && |t.lols| == NumLols(|t.data|)
            && TreeOk(store[m := mb], m, Shrunk(t))
  {
    hide Word;
    hide SetWord;
    SizeSet(store[m], store[m], m, o, o.(body := File(c[..mid])));
    MetaApart(roles, m, o.tree);
    hide HeaderOk;
    hide TreeOk;
    if mid == 1040187392 {
      ShrinkToSingle(store, m, o.tree, mb);
      SameHead(SetWord(store[m], 4, mid), mb, m, o.(body := File(c[..mid])));
    } else {
      DirectShrink(store, roles, m, o.tree, mid);
    }
  }
}
