/** How the bytes of an srfs file lie on the device, in the metadata block or in data blocks. */
module SrfsFile {
  import opened Bytes
  import opened SrfsBlock
  import opened SrfsTree

  /** MAX_BYTES_LIST_OF_LISTS_BLOCKS. */
  const MAX_FILE: nat := 532575944704

  function NumBlocks(size: nat): nat {
    (size + 4095) / 4096
  }

  ghost predicate ByteOk(store: Store, t: Tree, c: seq<Byte>, i: nat, k: nat) {
    i < |t.data| && k < 4096 && 4096 * i + k < |c| ==>
      t.data[i] in store && store[t.data[i]][k] == c[4096 * i + k]
  }

  /** The device holds contents `c` for metadata block `m`, with block tree `t`. */
  ghost predicate FileOk(store: Store, m: nat, c: seq<Byte>, t: Tree) {
    && m in store
    && |c| <= MAX_FILE
    && if |c| <= MAX_IN_META then t == EMPTY && c == store[m][META_BYTES..META_BYTES + |c|]
       else
         && |t.data| == NumBlocks(|c|)
         && TreeOk(store, m, t)
         && (forall i: nat, k: nat :: ByteOk(store, t, c, i, k))
  }

  /** Byte `o` of a file with data blocks. */
  lemma ByteAt(store: Store, m: nat, c: seq<Byte>, t: Tree, o: nat)
    requires FileOk(store, m, c, t) && |c| > MAX_IN_META && o < |c|
    ensures o / 4096 < |t.data| && t.data[o / 4096] in store && store[t.data[o / 4096]][o % 4096] == c[o]
  {
    assert ByteOk(store, t, c, o / 4096, o % 4096);
    assert 4096 * (o / 4096) + o % 4096 == o;
  }

  /** Pasting into a data block changes its bytes alone, and no link. */
  lemma PasteData(
    store: Store, roles: Roles, m: nat, c: seq<Byte>, t: Tree, i: nat, at: nat, s: seq<Byte>, c': seq<Byte>)
    requires FileOk(store, m, c, t) && Owns(roles, m, t) && |c| > MAX_IN_META && i < |t.data| && at + |s| <= 4096
    requires |c'| >= |c| && NumBlocks(|c'|) == NumBlocks(|c|) && |c'| <= MAX_FILE
    requires forall o | 0 <= o < |c'| && !(4096 * i + at <= o < 4096 * i + at + |s|) :: o < |c| && c'[o] == c[o]
    requires forall x | 0 <= x < |s| && 4096 * i + at + x < |c'| :: c'[4096 * i + at + x] == s[x]
    ensures t.data[i] in store
    ensures FileOk(store[t.data[i] := Paste(store[t.data[i]], at, s)], m, c', t)
  {
    hide Word;
    OwnedApart(roles, m, t, i);
    var d := t.data[i];
    var store' := store[d := Paste(store[d], at, s)];
    TreeFrame(store, store', m, t);
    forall j: nat, k: nat ensures ByteOk(store', t, c', j, k) {
      if j < |t.data| && k < 4096 && 4096 * j + k < |c'| {
        assert ByteOk(store, t, c, j, k);
        if j == i {
          PasteAt(store[d], at, s, k);
          assert at <= k < at + |s| ==> c'[4096 * i + at + (k - at)] == s[k - at];
        } else {
          assert t.data[j] != d;
          assert !(4096 * i + at <= 4096 * j + k < 4096 * i + at + |s|);
        }
      }
    }
  }

  /** A file whose tree gained the block `d` that holds the next bytes. */
  lemma ExtendData(store: Store, store': Store, m: nat, c: seq<Byte>, t: Tree, t': Tree, d: nat, s: seq<Byte>)
    requires FileOk(store, m, c, t) && |c| > MAX_IN_META && |c| % 4096 == 0 && 0 < |s| <= 4096 && |c| + |s| <= MAX_FILE
    requires TreeOk(store', m, t') && t'.data == t.data + [d] && store'[d][..|s|] == s
    requires forall x | x in t.data :: store'[x] == store[x]
    ensures FileOk(store', m, c + s, t')
  {
    hide Word;
    var n := |t.data|;
    assert 4096 * n == |c| && NumBlocks(|c + s|) == n + 1;
    assert t'.data[n] == d;
    forall j: nat, k: nat ensures ByteOk(store', t', c + s, j, k) {
      if j < |t'.data| && k < 4096 && 4096 * j + k < |c + s| {
        assert ByteOk(store, t, c, j, k);
        if j == n {
          assert store'[d][..|s|][k] == s[k];
        }
      }
    }
  }

  /** The bytes of the metadata block and the first new ones move to a data block. */
  lemma Spill(store: Store, m: nat, c: seq<Byte>, d: nat, db: Block, mb: Block, s: seq<Byte>)
    requires FileOk(store, m, c, EMPTY) && |c| <= MAX_IN_META < |c| + |s| <= 4096 && m != d
    requires db[..|c| + |s|] == c + s && Word(mb, 16) == d
    ensures FileOk(store[d := db][m := mb], m, c + s, Tree([d], [], []))
  {
    hide Word;
    var store', t := store[d := db][m := mb], Tree([d], [], []);
    assert DataLink(store', m, t, 0);
    forall j: nat, k: nat ensures ByteOk(store', t, c + s, j, k) {
      if j < |t.data| && k < 4096 && 4096 * j + k < |c + s| {
        assert db[..|c| + |s|][k] == db[k];
      }
    }
  }

  /** A shorter file of the same number of blocks. */
  lemma Cut(store: Store, m: nat, c: seq<Byte>, t: Tree, size: nat)
    requires FileOk(store, m, c, t) && MAX_IN_META < size <= |c| && NumBlocks(size) == NumBlocks(|c|)
    ensures FileOk(store, m, c[..size], t)
  {
    hide TreeOk;
    forall j: nat, k: nat ensures ByteOk(store, t, c[..size], j, k) {
      assert ByteOk(store, t, c, j, k);
    }
  }

  /** A file without its last block. */
  lemma DropBlock(store: Store, store': Store, m: nat, c: seq<Byte>, t: Tree, size: nat)
    requires FileOk(store, m, c, t) && |c| > 4096 && size == (|c| - 1) / 4096 * 4096
    requires TreeOk(store', m, Shrunk(t)) && forall x | x in t.data :: x in store' && store'[x] == store[x]
    ensures FileOk(store', m, c[..size], Shrunk(t))
  {
    hide Word;
    CountsGrow(|t.data| - 1);
    assert size > 0;
    forall j: nat, k: nat ensures ByteOk(store', Shrunk(t), c[..size], j, k) {
      assert ByteOk(store, t, c, j, k);
    }
  }

  /** The first bytes of the only data block move back to the metadata block. */
  lemma Unspill(store: Store, m: nat, c: seq<Byte>, t: Tree, size: nat, mb: Block)
    requires FileOk(store, m, c, t) && MAX_IN_META < |c| <= 4096 && size <= MAX_IN_META
    requires t.data[0] in store && mb[META_BYTES..META_BYTES + size] == store[t.data[0]][..size]
    ensures FileOk(store[m := mb], m, c[..size], EMPTY)
  {
    hide TreeOk;
    var b := store[t.data[0]];
    forall k | 0 <= k < size ensures b[..size][k] == c[..size][k] {
      assert ByteOk(store, t, c, 0, k);
    }
    assert b[..size] == c[..size];
  }

  /** A file depends on its own blocks only. */
  lemma FileFrame(store: Store, store': Store, m: nat, c: seq<Byte>, t: Tree)
    requires FileOk(store, m, c, t) && m in store' && store'[m][META_BYTES..] == store[m][META_BYTES..]
    requires forall x | x in t.data || x in t.links || x in t.lols :: x in store' && store'[x] == store[x]
    ensures FileOk(store', m, c, t)
  {
    if |c| <= MAX_IN_META {
      assert store[m][META_BYTES..] == store[m][META_BYTES..4096];
      assert store'[m][META_BYTES..] == store'[m][META_BYTES..4096];
      SliceSlice(store[m], META_BYTES, 4096, 0, |c|);
      SliceSlice(store'[m], META_BYTES, 4096, 0, |c|);
    } else {
      SameArea(store[m], store'[m]);
      hide Word;
      TreeFrame(store, store', m, t);
      forall j: nat, k: nat ensures ByteOk(store', t, c, j, k) {
        assert ByteOk(store, t, c, j, k);
      }
    }
  }
}
