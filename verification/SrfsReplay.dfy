/**
 A run depends on the calls alone: whatever was on the device before it was formatted, and whatever
 blocks hold that nothing has written, the same calls make the same files, in the same blocks, under
 the same ids.
 */
module SrfsReplay {
  import opened SrfsTree
  import opened SrfsState
  import opened SrfsSpace
  import opened SrfsLinks
  import opened SrfsFs
  import opened SrfsRuns

  /** Two moments that differ in the contents of the device at most. */
  ghost predicate Alike(m: Moment, n: Moment) {
    m.sb == n.sb && m.objs == n.objs && m.roles == n.roles && m.leaked == n.leaked && m.ids == n.ids
  }

  /** An entry with a given id is in one place. */
  lemma OnePlace(objs: Objs, p: nat, i: nat, j: nat)
    requires Linked(objs) && p in objs && objs[p].body.Dir?
    requires i < |objs[p].body.entries| && j < |objs[p].body.entries|
    requires objs[p].body.entries[i].id == objs[p].body.entries[j].id
    ensures i == j
  {
    assert DirLinked(objs, p);
  }

  /** A call that does not fail has one outcome on files, directories and their blocks. */
  lemma SameTree(sb: Superblock, objs: Objs, call: Call, a: Objs, b: Objs)
    requires Linked(objs) && TreeStep(sb, objs, call, a) && TreeStep(sb, objs, call, b)
    ensures a == b
  {
    hide Linked;
    hide SwapRemove;
    hide EntryBlocksFor;
    hide NewEntryCheck;
    hide GrownBy;
    hide EntryLess;
    match call {
      case Remove(id) =>
        if id.blockNo != ROOT && Size(objs[id.blockNo]) == 0 {
          var i :| RemovedAt(objs, a, id, i);
          var j :| RemovedAt(objs, b, id, j);
          OnePlace(objs, objs[id.blockNo].parent.blockNo, i, j);
        }
      case Move(id, parent, name) =>
        if NewEntryCheck(sb.numBlocks, objs, parent, name).Ok? && id.blockNo != ROOT {
          var i :| MovedFrom(sb.emptyAreaStart, objs, a, id, parent.blockNo, name, i);
          var j :| MovedFrom(sb.emptyAreaStart, objs, b, id, parent.blockNo, name, j);
          OnePlace(objs, objs[id.blockNo].parent.blockNo, i, j);
        }
      case _ =>
    }
  }

  /** The use of every block follows from the files and directories. */
  lemma SameRoles(objs: Objs, store: Store, roles: Roles, store': Store, roles': Roles)
    requires AllHeld(store, objs, roles) && AllHeld(store', objs, roles')
    ensures roles == roles'
  {
    forall b | b in roles ensures b in roles' && roles'[b] == roles[b] {
      SameUse(objs, store, roles, store', roles', b);
    }
    forall b | b in roles' ensures b in roles { SameUse(objs, store', roles', store, roles, b); }
  }

  lemma SameUse(objs: Objs, store: Store, roles: Roles, store': Store, roles': Roles, b: nat)
    requires AllHeld(store, objs, roles) && AllHeld(store', objs, roles') && b in roles
    ensures b in roles' && roles'[b] == roles[b]
  {
    hide ObjOk;
    var m := roles[b].owner;
    var t := objs[m].tree;
    assert Held(store, objs, roles, m) && Held(store', objs, roles', m);
    assert InTree(m, t, b, roles[b].role);
    match roles[b].role {
      case Meta =>
      case Data(i) => assert OwnsData(roles', m, t, i);
      case Link(j) => assert OwnsLink(roles', m, t, j);
      case Lol(q) => assert OwnsLol(roles', m, t, q);
    }
  }

  /** And what is leaked: the rest below the empty area. */
  lemma SameLeaked(sb: Superblock, roles: Roles, leaked: set<nat>, leaked': set<nat>)
    requires AllocOk(sb, roles, leaked) && AllocOk(sb, roles, leaked')
    ensures leaked == leaked'
  {
    forall b ensures b in leaked <==> b in leaked' {
      if 1 <= b < sb.emptyAreaStart {
        assert Accounted(b, roles, leaked) && Accounted(b, roles, leaked');
      }
    }
  }

  lemma SameRest(m: Moment, n: Moment)
    requires Sound(m) && Sound(n) && m.sb == n.sb && m.objs == n.objs && m.ids == n.ids
    ensures Alike(m, n)
  {
    hide AllHeld;
    hide AllocOk;
    hide Linked;
    hide Live;
    SameRoles(m.objs, m.store, m.roles, n.store, n.roles);
    SameLeaked(m.sb, m.roles, m.leaked, n.leaked);
  }

  lemma SameSuperblock(m: Moment, call: Call, a: Moment, b: Moment)
    requires Sound(a) && Sound(b) && SpaceStep(m.sb, m.objs, call, a.sb) && SpaceStep(m.sb, m.objs, call, b.sb)
    ensures a.sb == b.sb
  {
    hide AllHeld;
    hide Linked;
    hide Live;
    hide GenerationAfter;
    hide Takes;
    hide Gives;
  }

  lemma SameStep(m: Moment, n: Moment, call: Call, a: Moment, b: Moment)
    requires Alike(m, n) && Sound(m) && Sound(a) && Sound(b) && Step(m, call, a) && Step(n, call, b)
    ensures Alike(a, b)
  {
    hide Sound;
    hide TreeStep;
    hide SpaceStep;
    hide Succeeds;
    hide IdsAfter;
    hide Alike;
    assert m.sb == n.sb && m.objs == n.objs && m.ids == n.ids by { Parts(m, n); }
    SoundLinked(m);
    SameTree(m.sb, m.objs, call, a.objs, b.objs);
    SameSuperblock(m, call, a, b);
    SameRest(a, b);
  }

  lemma Parts(m: Moment, n: Moment)
    requires Alike(m, n)
    ensures m.sb == n.sb && m.objs == n.objs && m.ids == n.ids
  {
  }

  /** Two runs of the same calls on formatted devices of the same size are alike at every moment. */
  lemma {:induction false} Replay(numBlocks: nat, calls: seq<Call>, trace: seq<Moment>, trace': seq<Moment>, n: nat)
    requires Trace(trace, calls) && Trace(trace', calls) && n <= |calls|
    requires Start(trace[0], numBlocks) && Start(trace'[0], numBlocks)
    ensures Alike(trace[n], trace'[n])
    decreases n
  {
    hide Step;
    hide Alike;
    hide Sound;
    if n == 0 {
      SameStart(numBlocks, trace[0], trace'[0]);
    } else {
      Replay(numBlocks, calls, trace, trace', n - 1);
      SameStep(trace[n - 1], trace'[n - 1], calls[n - 1], trace[n], trace'[n]);
    }
  }

  /** A run ends where it has to: two runs of the same calls stop at the same call, if at any. */
  lemma SameEnd(numBlocks: nat, calls: seq<Call>, done: nat, trace: seq<Moment>, done': nat, trace': seq<Moment>)
    requires done < done' <= |calls| && Trace(trace, calls[..done]) && Trace(trace', calls[..done'])
    requires Start(trace[0], numBlocks) && Start(trace'[0], numBlocks)
    ensures Succeeds(trace[done].sb, trace[done].objs, trace[done].ids, calls[done])
  {
    hide Sound;
    hide TreeStep;
    hide SpaceStep;
    hide Succeeds;
    hide Alike;
    hide Start;
    var prefix := trace'[..done + 1];
    forall i | 0 <= i < done ensures Step(prefix[i], calls[..done][i], prefix[i + 1]) {
      assert calls[..done'][i] == calls[..done][i];
    }
    assert Trace(prefix, calls[..done]);
    Replay(numBlocks, calls[..done], trace, prefix, done);
    Parts(trace[done], trace'[done]);
    assert Step(trace'[done], calls[..done'][done], trace'[done + 1]);
  }

  lemma SameStart(numBlocks: nat, m: Moment, n: Moment)
    requires Sound(m) && Sound(n) && Start(m, numBlocks) && Start(n, numBlocks)
    ensures Alike(m, n)
  {
    hide AllHeld;
    hide Linked;
    hide Live;
    SameRest(m, n);
  }
}
