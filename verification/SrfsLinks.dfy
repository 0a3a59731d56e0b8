/** The directory tree under adding, removing, renaming and moving entries. */
module SrfsLinks {
  import opened Arithmetic
  import opened SrfsDir
  import opened SrfsState

  /** remove_directory_entry_inner on entries: the last one takes the place of the removed one. */
  function SwapRemove(es: seq<Entry>, i: nat): seq<Entry>
    requires i < |es|
  {
    es[i := es[|es| - 1]][..|es| - 1]
  }

  ghost predicate NotNamed(es: seq<Entry>, k: nat) {
    forall i | 0 <= i < |es| :: es[i].id.blockNo != k
  }

  /** The tree is right but for object `k`, which no directory names. */
  ghost predicate LinkedBut(objs: Objs, k: nat) {
    && ROOT in objs && objs[ROOT].generation == 1 && objs[ROOT].body.Dir? && k != ROOT && k in objs
    && (forall d | d in objs :: DirLinked(objs, d) && (objs[d].body.Dir? ==> NotNamed(objs[d].body.entries, k)))
    && (forall m | m in objs && m != k :: HasEntry(objs, m))
  }

  ghost function WithEntries(objs: Objs, d: nat, es: seq<Entry>): Objs
    requires d in objs
  {
    objs[d := objs[d].(body := Dir(es))]
  }

  lemma SwapRemoveKeeps(es: seq<Entry>, i: nat)
    requires i < |es| && DistinctEntries(es)
    ensures DistinctEntries(SwapRemove(es, i))
    ensures forall e | e in SwapRemove(es, i) :: e in es && e.id != es[i].id
    ensures forall j | 0 <= j < |es| && j != i :: es[j] in SwapRemove(es, i)
  {
    var es', last := SwapRemove(es, i), |es| - 1;
    forall j | 0 <= j < |es'| ensures es'[j] == es[if j == i then last else j] {
    }
    forall e | e in es' ensures e in es && e.id != es[i].id {
      var j :| 0 <= j < |es'| && es'[j] == e;
      var o := if j == i then last else j;
      assert es[o] == e && o != i;
      assert es[Min(o, i)].id != es[Max(o, i)].id;
    }
    forall j | 0 <= j < |es| && j != i ensures es[j] in es' {
      assert es'[if j == last then i else j] == es[j];
    }
  }

  /** Objects other than `k` keep their ids and parents. */
  ghost predicate SameIds(objs: Objs, objs': Objs, k: nat) {
    forall x | x in objs && x != k ::
      x in objs' && objs'[x].generation == objs[x].generation && objs'[x].parent == objs[x].parent
  }

  lemma ChildrenKept(objs: Objs, objs': Objs, k: nat, c: nat)
    requires c in objs && c in objs' && DirLinked(objs, c) && IdOf(objs', c) == IdOf(objs, c) && SameIds(objs, objs', k)
    requires objs[c].body.Dir? && objs'[c].body.Dir? && DistinctEntries(objs'[c].body.entries)
    requires forall e | e in objs'[c].body.entries :: e in objs[c].body.entries && e.id.blockNo != k
    ensures DirLinked(objs', c) && NotNamed(objs'[c].body.entries, k)
  {
    var cs := objs'[c].body.entries;
    forall j | 0 <= j < |cs| ensures ChildOk(objs', c, cs[j]) && cs[j].id.blockNo != k {
      assert cs[j] in cs;
      var i :| 0 <= i < |objs[c].body.entries| && objs[c].body.entries[i] == cs[j];
      assert ChildOk(objs, c, objs[c].body.entries[i]);
    }
  }

  /** The directory of `m` still has its entry. */
  lemma EntryKept(objs: Objs, objs': Objs, k: nat, m: nat)
    requires m in objs && m != k && HasEntry(objs, m) && SameIds(objs, objs', k)
    requires m == ROOT || (
      var p := objs[m].parent.blockNo;
      p in objs' && objs'[p].generation == objs[p].generation && objs'[p].body.Dir?
      && forall e | e in objs[p].body.entries && e.id == IdOf(objs, m) :: HasId(objs'[p].body.entries, e.id))
    ensures m in objs' && HasEntry(objs', m)
  {
    if m != ROOT {
      var p := objs[m].parent.blockNo;
      var j :| 0 <= j < |objs[p].body.entries| && objs[p].body.entries[j].id == IdOf(objs, m);
      assert objs[p].body.entries[j] in objs[p].body.entries;
    }
  }

  ghost predicate HasId(es: seq<Entry>, id: EntryId) {
    exists i :: 0 <= i < |es| && es[i].id == id
  }

  /** Removing the entry of `k` leaves the tree right but for `k`. */
  lemma Unlink(objs: Objs, d: nat, i: nat)
    requires Linked(objs) && d in objs && objs[d].body.Dir? && i < |objs[d].body.entries|
    ensures LinkedBut(WithEntries(objs, d, SwapRemove(objs[d].body.entries, i)), objs[d].body.entries[i].id.blockNo)
  {
    var es := objs[d].body.entries;
    var k, es' := es[i].id.blockNo, SwapRemove(es, i);
    var objs' := WithEntries(objs, d, es');
    assert DirLinked(objs, d) && ChildOk(objs, d, es[i]);
    SwapRemoveKeeps(es, i);
    hide SwapRemove;
    forall c | c in objs' ensures DirLinked(objs', c) && (objs'[c].body.Dir? ==> NotNamed(objs'[c].body.entries, k)) {
      assert DirLinked(objs, c);
      if objs[c].body.Dir? {
        OnlyThere(objs, d, i, c);
        hide Linked;
        ChildrenKept(objs, objs', k, c);
      }
    }
    forall m | m in objs' && m != k ensures HasEntry(objs', m) {
      assert HasEntry(objs, m);
      hide Linked;
      hide DirLinked;
      StillThere(es, i, m, IdOf(objs, m));
      EntryKept(objs, objs', k, m);
    }
  }

  /** An object is named in one directory, once. */
  lemma OnlyThere(objs: Objs, d: nat, i: nat, c: nat)
    requires Linked(objs) && d in objs && objs[d].body.Dir? && i < |objs[d].body.entries| && c in objs
    requires objs[c].body.Dir?
    ensures forall e | e in objs[c].body.entries :: (c != d || e.id != objs[d].body.entries[i].id) ==>
              e.id.blockNo != objs[d].body.entries[i].id.blockNo
  {
    assert DirLinked(objs, d) && DirLinked(objs, c);
    assert ChildOk(objs, d, objs[d].body.entries[i]);
    forall e | e in objs[c].body.entries ensures ChildOk(objs, c, e) {
      var j :| 0 <= j < |objs[c].body.entries| && objs[c].body.entries[j] == e;
      assert ChildOk(objs, c, objs[c].body.entries[j]);
    }
  }

  lemma StillThere(es: seq<Entry>, i: nat, m: nat, id: EntryId)
    requires i < |es| && DistinctEntries(es) && es[i].id.blockNo != m == id.blockNo
    ensures forall e | e in es && e.id == id :: HasId(SwapRemove(es, i), id)
    ensures forall e | e in es && e.id == id :: HasId(es, id)
  {
    SwapRemoveKeeps(es, i);
    hide SwapRemove;
    forall e | e in es && e.id == id ensures HasId(SwapRemove(es, i), id) && HasId(es, id) {
      var j :| 0 <= j < |es| && es[j] == e;
      assert es[j] in SwapRemove(es, i);
      var n :| 0 <= n < |SwapRemove(es, i)| && SwapRemove(es, i)[n] == es[j];
    }
  }

  /** A new, empty object that no directory names yet. */
  lemma Create(objs: Objs, k: nat, o: Obj)
    requires Linked(objs) && k !in objs && Size(o) == 0
    ensures LinkedBut(objs[k := o], k)
  {
    var objs' := objs[k := o];
    forall c | c in objs' ensures DirLinked(objs', c) && (objs'[c].body.Dir? ==> NotNamed(objs'[c].body.entries, k)) {
      if c != k {
        assert DirLinked(objs, c);
        if objs[c].body.Dir? {
          forall j | 0 <= j < |objs[c].body.entries| ensures ChildOk(objs', c, objs[c].body.entries[j]) {
            assert ChildOk(objs, c, objs[c].body.entries[j]);
          }
        }
      }
    }
    forall m | m in objs' && m != k ensures HasEntry(objs', m) {
      assert HasEntry(objs, m);
    }
  }

  /** An entry for `k`, with `k` recording the directory as its parent, completes the tree. */
  lemma Attach(objs: Objs, d: nat, k: nat, name: Name)
    requires LinkedBut(objs, k) && d in objs && objs[d].body.Dir?
    requires forall i | 0 <= i < |objs[d].body.entries| :: objs[d].body.entries[i].name != name
    ensures var objs1 := objs[k := objs[k].(parent := IdOf(objs, d))];
            objs1[d].body.Dir? && Linked(WithEntries(objs1, d, objs1[d].body.entries + [Entry(IdOf(objs, k), name)]))
  {
    var es := objs[d].body.entries;
    var objs1 := objs[k := objs[k].(parent := IdOf(objs, d))];
    var objs' := WithEntries(objs1, d, es + [Entry(IdOf(objs, k), name)]);
    forall c | c in objs' ensures DirLinked(objs', c) {
      assert DirLinked(objs, c) && (objs[c].body.Dir? ==> NotNamed(objs[c].body.entries, k));
      AttachedDirs(objs, objs', d, k, name, c);
    }
    forall m | m in objs' ensures HasEntry(objs', m) {
      assert m != k ==> HasEntry(objs, m);
      AttachedHas(objs, objs', d, k, name, m);
    }
    hide DirLinked;
    hide HasEntry;
  }

  /** `objs` with `k` attached to directory `d`. */
  ghost predicate Attached(objs: Objs, objs': Objs, d: nat, k: nat, name: Name) {
    && d in objs && objs[d].body.Dir? && k in objs && k != ROOT
    && var objs1 := objs[k := objs[k].(parent := IdOf(objs, d))];
       objs' == objs1[d := objs1[d].(body := Dir(objs[d].body.entries + [Entry(IdOf(objs, k), name)]))]
  }

  lemma AttachedDirs(objs: Objs, objs': Objs, d: nat, k: nat, name: Name, c: nat)
    requires Attached(objs, objs', d, k, name) && c in objs && DirLinked(objs, c)
    requires objs[c].body.Dir? ==> NotNamed(objs[c].body.entries, k)
    requires forall i | 0 <= i < |objs[d].body.entries| :: objs[d].body.entries[i].name != name
    ensures DirLinked(objs', c)
  {
    if objs[c].body.Dir? {
      if c == d {
        AttachedDir(objs, objs', d, k, name);
      } else {
        ChildrenKept(objs, objs', k, c);
      }
    }
  }

  lemma AttachedHas(objs: Objs, objs': Objs, d: nat, k: nat, name: Name, m: nat)
    requires Attached(objs, objs', d, k, name) && m in objs && (m != k ==> HasEntry(objs, m))
    ensures HasEntry(objs', m)
  {
    if m == k {
      assert objs'[d].body.entries[|objs[d].body.entries|].id == IdOf(objs', k);
    } else {
      AppendedThere(objs[d].body.entries, Entry(IdOf(objs, k), name), IdOf(objs, m));
      EntryKept(objs, objs', k, m);
    }
  }

  lemma AppendedThere(es: seq<Entry>, x: Entry, id: EntryId)
    ensures forall e | e in es && e.id == id :: HasId(es, id) && HasId(es + [x], id)
  {
    forall e | e in es && e.id == id ensures HasId(es, id) && HasId(es + [x], id) {
      var j :| 0 <= j < |es| && es[j] == e;
      assert (es + [x])[j] == e;
    }
  }

  lemma AttachedDir(objs: Objs, objs': Objs, d: nat, k: nat, name: Name)
    requires d in objs && objs[d].body.Dir? && DirLinked(objs, d) && k in objs && k != ROOT
    requires NotNamed(objs[d].body.entries, k)
    requires forall i | 0 <= i < |objs[d].body.entries| :: objs[d].body.entries[i].name != name
    requires d in objs' && k in objs' && SameIds(objs, objs', k)
    requires IdOf(objs', d) == IdOf(objs, d) && IdOf(objs', k) == IdOf(objs, k) && objs'[k].parent == IdOf(objs, d)
    requires objs'[d].body == Dir(objs[d].body.entries + [Entry(IdOf(objs, k), name)])
    ensures DirLinked(objs', d)
  {
    var es, es' := objs[d].body.entries, objs'[d].body.entries;
    forall j | 0 <= j < |es'| ensures ChildOk(objs', d, es'[j]) {
      if j < |es| {
        assert ChildOk(objs, d, es[j]);
      }
    }
  }

  /** An empty object that no directory names can go. */
  lemma Delete(objs: Objs, k: nat)
    requires LinkedBut(objs, k) && Size(objs[k]) == 0
    ensures Linked(objs - {k})
  {
    var objs' := objs - {k};
    forall c | c in objs' ensures DirLinked(objs', c) {
      assert DirLinked(objs, c);
      if objs'[c].body.Dir? {
        forall j | 0 <= j < |objs[c].body.entries| ensures ChildOk(objs', c, objs[c].body.entries[j]) {
          assert ChildOk(objs, c, objs[c].body.entries[j]);
        }
      }
    }
    forall m | m in objs' ensures HasEntry(objs', m) {
      assert HasEntry(objs, m);
    }
  }

  /** A new name that no other entry of the directory has. */
  lemma Rename(objs: Objs, d: nat, i: nat, name: Name)
    requires Linked(objs) && d in objs && objs[d].body.Dir? && i < |objs[d].body.entries|
    requires forall j | 0 <= j < |objs[d].body.entries| :: objs[d].body.entries[j].name != name
    ensures var es := objs[d].body.entries; Linked(WithEntries(objs, d, es[i := Entry(es[i].id, name)]))
  {
    var es := objs[d].body.entries;
    var objs' := WithEntries(objs, d, es[i := Entry(es[i].id, name)]);
    forall c | c in objs' ensures DirLinked(objs', c) {
      assert DirLinked(objs, c);
      RenamedDirs(objs, objs', d, i, name, c);
    }
    forall m | m in objs' ensures HasEntry(objs', m) {
      assert HasEntry(objs, m);
      RenamedHas(objs, objs', d, i, name, m);
    }
    hide DirLinked;
    hide HasEntry;
  }

  lemma RenamedDirs(objs: Objs, objs': Objs, d: nat, i: nat, name: Name, c: nat)
    requires d in objs && objs[d].body.Dir? && i < |objs[d].body.entries| && c in objs && DirLinked(objs, c)
    requires forall j | 0 <= j < |objs[d].body.entries| :: objs[d].body.entries[j].name != name
    requires var es := objs[d].body.entries; objs' == WithEntries(objs, d, es[i := Entry(es[i].id, name)])
    ensures DirLinked(objs', c)
  {
    if objs[c].body.Dir? {
      if c == d {
        RenamedDir(objs, objs', d, i, name);
      } else {
        NoRoot(objs, c);
        ChildrenKept(objs, objs', ROOT, c);
      }
    }
  }

  lemma RenamedHas(objs: Objs, objs': Objs, d: nat, i: nat, name: Name, m: nat)
    requires d in objs && objs[d].body.Dir? && i < |objs[d].body.entries| && m in objs && HasEntry(objs, m)
    requires var es := objs[d].body.entries; objs' == WithEntries(objs, d, es[i := Entry(es[i].id, name)])
    ensures HasEntry(objs', m)
  {
    if m != ROOT {
      RenamedThere(objs[d].body.entries, i, name, IdOf(objs, m));
      EntryKept(objs, objs', ROOT, m);
    }
  }

  lemma NoRoot(objs: Objs, c: nat)
    requires c in objs && objs[c].body.Dir? && DirLinked(objs, c)
    ensures forall e | e in objs[c].body.entries :: e.id.blockNo != ROOT
  {
    forall e | e in objs[c].body.entries ensures e.id.blockNo != ROOT {
      var j :| 0 <= j < |objs[c].body.entries| && objs[c].body.entries[j] == e;
      assert ChildOk(objs, c, objs[c].body.entries[j]);
    }
  }

  lemma RenamedThere(es: seq<Entry>, i: nat, name: Name, id: EntryId)
    requires i < |es|
    ensures forall e | e in es && e.id == id :: HasId(es, id) && HasId(es[i := Entry(es[i].id, name)], id)
  {
    var es' := es[i := Entry(es[i].id, name)];
    forall e | e in es && e.id == id ensures HasId(es, id) && HasId(es', id) {
      var j :| 0 <= j < |es| && es[j] == e;
      assert es'[j].id == id;
    }
  }

  lemma RenamedDir(objs: Objs, objs': Objs, d: nat, i: nat, name: Name)
    requires d in objs && objs[d].body.Dir? && DirLinked(objs, d) && i < |objs[d].body.entries|
    requires forall j | 0 <= j < |objs[d].body.entries| :: objs[d].body.entries[j].name != name
    requires d in objs' && IdOf(objs', d) == IdOf(objs, d) && SameIds(objs, objs', ROOT)
    requires var es := objs[d].body.entries; objs'[d].body == Dir(es[i := Entry(es[i].id, name)])
    ensures DirLinked(objs', d)
  {
    var es, es' := objs[d].body.entries, objs'[d].body.entries;
    forall j | 0 <= j < |es'| ensures ChildOk(objs', d, es'[j]) {
      assert ChildOk(objs, d, es[j]);
    }
  }

  /** The same files and directories, in other blocks. */
  ghost predicate SameButTrees(objs: Objs, objs': Objs) {
    objs'.Keys == objs.Keys && forall x | x in objs :: objs'[x] == objs[x].(tree := objs'[x].tree)
  }

  lemma LinkedSame(objs: Objs, objs': Objs)
    requires Linked(objs) && SameButTrees(objs, objs')
    ensures Linked(objs')
  {
    forall c | c in objs' ensures DirLinked(objs', c) {
      assert DirLinked(objs, c);
      hide Linked;
      if objs[c].body.Dir? {
        forall j | 0 <= j < |objs[c].body.entries| ensures ChildOk(objs', c, objs[c].body.entries[j]) {
          assert ChildOk(objs, c, objs[c].body.entries[j]);
        }
      }
    }
    forall m | m in objs' ensures HasEntry(objs', m) {
      assert HasEntry(objs, m);
    }
    hide DirLinked;
    hide HasEntry;
  }
}
