/** How the entries of an srfs directory lie on the device. */
module SrfsDir {
  import opened Bytes
  import opened SrfsBlock
  import opened SrfsTree

  type Name = seq<Byte>

  datatype EntryId = EntryId(blockNo: nat, generation: nat)
  datatype Entry = Entry(id: EntryId, name: Name)

  const MAX_DIR_ENTRIES := 65536

  /** DirEntryInternal: 272 bytes, the id in two words, 255 bytes of name, the length. */
  function EntryAt(b: Block, p: nat): Entry
    requires p < 15
  {
    Entry(EntryId(Word(b, 34 * p), Word(b, 34 * p + 1)), b[272 * p + 16..272 * p + 16 + b[272 * p + 271]])
  }

  /** set_name: bytes of an older, longer name stay behind the new one. */
  function SetName(b: Block, p: nat, name: Name): Block
    requires p < 15 && |name| <= 255
  {
    Paste(Paste(b, 272 * p + 16, name), 272 * p + 271, [|name|])
  }

  function SetEntry(b: Block, p: nat, e: Entry): Block
    requires p < 15 && |e.name| <= 255
  {
    SetName(SetWord(SetWord(b, 34 * p, e.id.blockNo), 34 * p + 1, e.id.generation), p, e.name)
  }

  /** The structure copy of one entry. */
  function CopyEntry(b: Block, p: nat, from: Block, q: nat): Block
    requires p < 15 && q < 15
  {
    Paste(b, 272 * p, from[272 * q..272 * q + 272])
  }

  /** An entry depends on its own 272 bytes. */
  lemma SameEntry(a: Block, p: nat, b: Block, q: nat)
    requires p < 15 && q < 15 && a[272 * p..272 * p + 272] == b[272 * q..272 * q + 272]
    ensures EntryAt(a, p) == EntryAt(b, q)
  {
    SliceSlice(a, 272 * p, 272 * p + 272, 0, 8);
    SliceSlice(b, 272 * q, 272 * q + 272, 0, 8);
    SliceSlice(a, 272 * p, 272 * p + 272, 8, 16);
    SliceSlice(b, 272 * q, 272 * q + 272, 8, 16);
    assert a[272 * p..272 * p + 272][271] == b[272 * q..272 * q + 272][271];
    var n: nat := a[272 * p + 271];
    SliceSlice(a, 272 * p, 272 * p + 272, 16, 16 + n);
    SliceSlice(b, 272 * q, 272 * q + 272, 16, 16 + n);
  }

  lemma EntryOfSetName(b: Block, p: nat, name: Name, x: nat)
    requires p < 15 && x < 15 && |name| <= 255
    ensures EntryAt(SetName(b, p, name), x) == if x == p then Entry(EntryAt(b, p).id, name) else EntryAt(b, x)
  {
    var a := Paste(b, 272 * p + 16, name);
    if x == p {
      WordOfPaste(b, 272 * p + 16, name, 34 * p);
      WordOfPaste(b, 272 * p + 16, name, 34 * p + 1);
      WordOfPaste(a, 272 * p + 271, [|name|], 34 * p);
      WordOfPaste(a, 272 * p + 271, [|name|], 34 * p + 1);
      hide Word;
      assert a[272 * p + 16..272 * p + 16 + |name|] == name;
      PasteOutside(a, 272 * p + 271, [|name|], 272 * p + 16, 272 * p + 16 + |name|);
    } else {
      OtherName(b, p, name, x);
    }
  }

  lemma OtherName(b: Block, p: nat, name: Name, x: nat)
    requires p < 15 && x < 15 && |name| <= 255 && x != p
    ensures EntryAt(SetName(b, p, name), x) == EntryAt(b, x)
  {
    hide EntryAt;
    var a := Paste(b, 272 * p + 16, name);
    PasteOutside(b, 272 * p + 16, name, 272 * x, 272 * x + 272);
    PasteOutside(a, 272 * p + 271, [|name|], 272 * x, 272 * x + 272);
    SameEntry(SetName(b, p, name), x, b, x);
  }

  lemma EntryOfSet(b: Block, p: nat, e: Entry, x: nat)
    requires p < 15 && x < 15 && |e.name| <= 255 && e.id.blockNo < U64_LIMIT && e.id.generation < U64_LIMIT
    ensures EntryAt(SetEntry(b, p, e), x) == if x == p then e else EntryAt(b, x)
  {
    hide Word;
    hide SetWord;
    hide SetName;
    var a := SetWord(b, 34 * p, e.id.blockNo);
    var c := SetWord(a, 34 * p + 1, e.id.generation);
    EntryOfSetName(c, p, e.name, x);
    if x == p {
      WordOfSet(b, 34 * p, e.id.blockNo, 34 * p);
      WordOfSet(a, 34 * p + 1, e.id.generation, 34 * p);
      WordOfSet(a, 34 * p + 1, e.id.generation, 34 * p + 1);
    } else {
      OtherId(b, 34 * p, e.id.blockNo, p, x);
      OtherId(a, 34 * p + 1, e.id.generation, p, x);
    }
  }

  lemma OtherId(b: Block, w: nat, v: nat, p: nat, x: nat)
    requires p < 15 && x < 15 && x != p && 34 * p <= w <= 34 * p + 1
    ensures EntryAt(SetWord(b, w, v), x) == EntryAt(b, x)
  {
    hide EntryAt;
    hide U64;
    var c := SetWord(b, w, v);
    assert 272 * x + 272 <= 8 * w || 8 * w + 8 <= 272 * x;
    assert c[272 * x..272 * x + 272] == b[272 * x..272 * x + 272];
    SameEntry(c, x, b, x);
  }

  lemma EntryOfCopy(b: Block, p: nat, from: Block, q: nat, x: nat)
    requires p < 15 && q < 15 && x < 15
    ensures EntryAt(CopyEntry(b, p, from, q), x) == if x == p then EntryAt(from, q) else EntryAt(b, x)
  {
    hide Word;
    var c := CopyEntry(b, p, from, q);
    if x == p {
      assert c[272 * p..272 * p + 272] == from[272 * q..272 * q + 272];
      SameEntry(c, p, from, q);
    } else {
      assert 272 * x + 272 <= 272 * p || 272 * p + 272 <= 272 * x;
      assert c[272 * x..272 * x + 272] == b[272 * x..272 * x + 272];
      SameEntry(c, x, b, x);
    }
  }

  // ---------------------------------------------------------------------------------------
  // Layout
  // ---------------------------------------------------------------------------------------

  function EntryBlocks(n: nat): nat {
    (n + 14) / 15
  }

  ghost predicate EntryOk(store: Store, t: Tree, es: seq<Entry>, i: nat, k: nat) {
    i < |t.data| && k < 15 && 15 * i + k < |es| ==>
      t.data[i] in store && EntryAt(store[t.data[i]], k) == es[15 * i + k]
  }

  ghost predicate MetaEntryOk(b: Block, es: seq<Entry>, i: nat)
    requires i < |es| <= 14
  {
    EntryAt(b, i + 1) == es[i]
  }

  /** The device holds entries `es` for metadata block `m`, with block tree `t`. */
  ghost predicate DirOk(store: Store, m: nat, es: seq<Entry>, t: Tree) {
    && m in store
    && |es| <= MAX_DIR_ENTRIES
    && if |es| <= 14 then t == EMPTY && forall i | 0 <= i < |es| :: MetaEntryOk(store[m], es, i)
       else
         && |t.data| == EntryBlocks(|es|)
         && TreeOk(store, m, t)
         && (forall i: nat, k: nat :: EntryOk(store, t, es, i, k))
  }

  /** Entry `pos` of a directory with data blocks. */
  lemma EntryIn(store: Store, m: nat, es: seq<Entry>, t: Tree, pos: nat)
    requires DirOk(store, m, es, t) && 14 < |es| && pos < |es|
    ensures pos / 15 < |t.data| && t.data[pos / 15] in store && EntryAt(store[t.data[pos / 15]], pos % 15) == es[pos]
  {
    assert EntryOk(store, t, es, pos / 15, pos % 15);
    assert 15 * (pos / 15) + pos % 15 == pos;
  }

  /** `db` is `b` with entry `k` set to `e`. */
  ghost predicate EntrySet(b: Block, db: Block, k: nat, e: Entry) {
    forall x | 0 <= x < 15 :: EntryAt(db, x) == if x == k then e else EntryAt(b, x)
  }

  /** Putting one entry in a data block replaces it, or appends it to a last block with room. */
  lemma PutEntry(store: Store, roles: Roles, m: nat, es: seq<Entry>, t: Tree, pos: nat, e: Entry, db: Block)
    requires DirOk(store, m, es, t) && Owns(roles, m, t) && 14 < |es| && pos <= |es| < MAX_DIR_ENTRIES + 1
    requires pos == |es| ==> pos % 15 != 0 && |es| < MAX_DIR_ENTRIES
    requires pos / 15 < |t.data| && EntrySet(store[t.data[pos / 15]], db, pos % 15, e)
    ensures DirOk(store[t.data[pos / 15] := db], m, if pos < |es| then es[pos := e] else es + [e], t)
  {
    hide Word;
    hide EntryAt;
    var i, es' := pos / 15, if pos < |es| then es[pos := e] else es + [e];
    OwnedApart(roles, m, t, i);
    var store' := store[t.data[i] := db];
    TreeFrame(store, store', m, t);
    forall j: nat, k: nat ensures EntryOk(store', t, es', j, k) {
      assert EntryOk(store, t, es, j, k);
      if j < |t.data| && k < 15 && 15 * j + k < |es'| {
        assert 15 * j + k == pos <==> j == i && k == pos % 15;
        assert j != i ==> t.data[j] != t.data[i];
      }
    }
  }

  /** A directory whose tree gained the block `d` that holds the next entry. */
  lemma ExtendEntries(store: Store, store': Store, m: nat, es: seq<Entry>, t: Tree, t': Tree, d: nat, e: Entry)
    requires DirOk(store, m, es, t) && 14 < |es| < MAX_DIR_ENTRIES && |es| % 15 == 0
    requires TreeOk(store', m, t') && t'.data == t.data + [d] && EntryAt(store'[d], 0) == e
    requires forall x | x in t.data :: store'[x] == store[x]
    ensures DirOk(store', m, es + [e], t')
  {
    hide Word;
    hide EntryAt;
    var n := |t.data|;
    assert 15 * n == |es| && EntryBlocks(|es| + 1) == n + 1;
    assert t'.data[n] == d;
    forall j: nat, k: nat ensures EntryOk(store', t', es + [e], j, k) {
      assert EntryOk(store, t, es, j, k);
    }
  }

  /** The 14 entries of the metadata block and a new one move to a data block. */
  lemma SpillEntries(store: Store, m: nat, es: seq<Entry>, e: Entry, d: nat, db: Block, mb: Block)
    requires DirOk(store, m, es, EMPTY) && |es| == 14 && m != d && Word(mb, 16) == d
    requires forall k | 0 <= k < 14 :: EntryAt(db, k) == es[k]
    requires EntryAt(db, 14) == e
    ensures DirOk(store[d := db][m := mb], m, es + [e], Tree([d], [], []))
  {
    hide Word;
    hide EntryAt;
    var store', t := store[d := db][m := mb], Tree([d], [], []);
    assert DataLink(store', m, t, 0);
    forall j: nat, k: nat ensures EntryOk(store', t, es + [e], j, k) {
    }
  }

  /** Dropping the last entry of a last block that keeps others. */
  lemma CutEntries(store: Store, m: nat, es: seq<Entry>, t: Tree)
    requires DirOk(store, m, es, t) && |es| > 15 && (|es| - 1) % 15 != 0
    ensures DirOk(store, m, es[..|es| - 1], t)
  {
    hide TreeOk;
    hide EntryAt;
    var es' := es[..|es| - 1];
    forall j: nat, k: nat ensures EntryOk(store, t, es', j, k) {
      assert EntryOk(store, t, es, j, k);
    }
  }

  /** Dropping the only entry of the last block, and the block. */
  lemma DropEntryBlock(store: Store, store': Store, m: nat, es: seq<Entry>, t: Tree)
    requires DirOk(store, m, es, t) && |es| > 15 && (|es| - 1) % 15 == 0
    requires TreeOk(store', m, Shrunk(t)) && forall x | x in t.data :: x in store' && store'[x] == store[x]
    ensures DirOk(store', m, es[..|es| - 1], Shrunk(t))
  {
    hide Word;
    hide EntryAt;
    CountsGrow(|t.data| - 1);
    var es', t' := es[..|es| - 1], Shrunk(t);
    forall j: nat, k: nat ensures EntryOk(store', t', es', j, k) {
      assert EntryOk(store, t, es, j, k);
    }
  }

  /** The first 14 entries of the only data block move back to the metadata block. */
  lemma UnspillEntries(store: Store, m: nat, es: seq<Entry>, t: Tree, mb: Block)
    requires DirOk(store, m, es, t) && |es| == 15 && t.data[0] in store
    requires forall i | 0 <= i < 14 :: EntryAt(mb, i + 1) == EntryAt(store[t.data[0]], i)
    ensures DirOk(store[m := mb], m, es[..14], EMPTY)
  {
    hide TreeOk;
    hide EntryAt;
    forall i | 0 <= i < 14 ensures MetaEntryOk(mb, es[..14], i) {
      assert EntryOk(store, t, es, 0, i);
    }
  }

  /** A directory depends on its own blocks only. */
  lemma DirFrame(store: Store, store': Store, m: nat, es: seq<Entry>, t: Tree)
    requires DirOk(store, m, es, t) && m in store' && store'[m][META_BYTES..] == store[m][META_BYTES..]
    requires forall x | x in t.data || x in t.links || x in t.lols :: x in store' && store'[x] == store[x]
    ensures DirOk(store', m, es, t)
  {
    if |es| <= 14 {
      forall i | 0 <= i < |es| ensures MetaEntryOk(store'[m], es, i) {
        assert MetaEntryOk(store[m], es, i);
        SameArea(store[m], store'[m]);
        SameEntryInMeta(store[m], store'[m], i + 1);
      }
    } else {
      SameArea(store[m], store'[m]);
      hide Word;
      hide EntryAt;
      TreeFrame(store, store', m, t);
      forall j: nat, k: nat ensures EntryOk(store', t, es, j, k) {
        assert EntryOk(store, t, es, j, k);
      }
    }
  }

  lemma SameEntryInMeta(a: Block, b: Block, p: nat)
    requires 1 <= p < 15 && a[META_BYTES..] == b[META_BYTES..]
    ensures EntryAt(a, p) == EntryAt(b, p)
  {
    assert a[META_BYTES..] == a[META_BYTES..4096] && b[META_BYTES..] == b[META_BYTES..4096];
    SliceSlice(a, META_BYTES, 4096, 272 * p - META_BYTES, 272 * p + 272 - META_BYTES);
    SliceSlice(b, META_BYTES, 4096, 272 * p - META_BYTES, 272 * p + 272 - META_BYTES);
    SameEntry(a, p, b, p);
  }
}
