/**
 Whether every file and directory can be reached from the root: the one property of the
 directory tree that the operations do not keep by themselves.
 */
module SrfsRooted {
  import opened SrfsState

  /** The object `n` parents above `m`; above the root is the root. */
  ghost function Up(objs: Objs, m: nat, n: nat): nat
    decreases n
  {
    if n == 0 then m
    else if m in objs && m != ROOT then Up(objs, objs[m].parent.blockNo, n - 1)
    else m
  }

  /** `k` is `m` or one of the directories above it. */
  ghost predicate Reaches(objs: Objs, m: nat, k: nat) {
    exists n: nat :: Up(objs, m, n) == k
  }

  ghost predicate Rooted(objs: Objs) {
    forall m | m in objs :: Reaches(objs, m, ROOT)
  }

  lemma {:induction false} UpAdd(objs: Objs, m: nat, a: nat, b: nat)
    ensures Up(objs, m, a + b) == Up(objs, Up(objs, m, a), b)
    decreases a
  {
    if a > 0 {
      if m in objs && m != ROOT {
        UpAdd(objs, objs[m].parent.blockNo, a - 1, b);
      } else {
        Stuck(objs, m, a + b);
        Stuck(objs, m, b);
      }
    }
  }

  lemma {:induction false} Stuck(objs: Objs, m: nat, n: nat)
    requires m !in objs || m == ROOT
    ensures Up(objs, m, n) == m
  {
  }

  /** An object above itself is on a cycle, and the root is not above it. */
  lemma CycleHasNoRoot(objs: Objs, k: nat, c: nat)
    requires k != ROOT && c > 0 && Up(objs, k, c) == k
    ensures !Reaches(objs, k, ROOT)
  {
    forall j: nat ensures Up(objs, k, j) != ROOT {
      Around(objs, k, c, j);
      Multiple(c, j);
      UpAdd(objs, k, j, c * j - j);
      Stuck(objs, ROOT, c * j - j);
    }
  }

  lemma Multiple(c: nat, j: nat)
    requires c > 0
    ensures c * j >= j
  {
  }

  lemma {:induction false} Around(objs: Objs, k: nat, c: nat, t: nat)
    requires Up(objs, k, c) == k
    ensures Up(objs, k, c * t) == k
    decreases t
  {
    if t > 0 {
      Around(objs, k, c, t - 1);
      assert c * t == c * (t - 1) + c;
      UpAdd(objs, k, c * (t - 1), c);
    }
  }

  /** The two trees agree on every object but `k`, and on every parent but that of `k`. */
  ghost predicate SameParentsBut(objs: Objs, objs': Objs, k: nat) {
    forall m | m != k :: (m in objs <==> m in objs') && (m in objs ==> objs'[m].parent == objs[m].parent)
  }

  lemma {:induction false} SamePath(objs: Objs, objs': Objs, k: nat, m: nat, n: nat)
    requires SameParentsBut(objs, objs', k) && forall i: nat | i < n :: Up(objs, m, i) != k
    ensures Up(objs', m, n) == Up(objs, m, n)
    decreases n
  {
    if n > 0 {
      assert Up(objs, m, 0) == m;
      if m in objs && m != ROOT {
        var p := objs[m].parent.blockNo;
        forall i: nat | i < n - 1 ensures Up(objs, p, i) != k {
          assert Up(objs, m, i + 1) == Up(objs, p, i);
        }
        SamePath(objs, objs', k, p, n - 1);
      }
    }
  }

  /** Where `k` is not above `m`, changes at `k` do not matter to `m`. */
  lemma StillReaches(objs: Objs, objs': Objs, k: nat, m: nat)
    requires SameParentsBut(objs, objs', k) && Reaches(objs, m, ROOT) && !Reaches(objs, m, k)
    ensures Reaches(objs', m, ROOT)
  {
    var n: nat :| Up(objs, m, n) == ROOT;
    forall i: nat | i < n ensures Up(objs, m, i) != k {
    }
    SamePath(objs, objs', k, m, n);
  }

  lemma {:induction false} FirstReach(objs: Objs, m: nat, k: nat, n: nat) returns (f: nat)
    requires Up(objs, m, n) == k
    ensures Up(objs, m, f) == k && forall i: nat | i < f :: Up(objs, m, i) != k
    decreases n
  {
    if i: nat :| i < n && Up(objs, m, i) == k {
      f := FirstReach(objs, m, k, i);
    } else {
      f := n;
    }
  }

  /** One step up and on. */
  lemma ParentReaches(objs: Objs, m: nat, k: nat)
    requires m in objs && m != ROOT && Reaches(objs, objs[m].parent.blockNo, k)
    ensures Reaches(objs, m, k)
  {
    var n: nat :| Up(objs, objs[m].parent.blockNo, n) == k;
    assert Up(objs, m, n + 1) == k;
  }

  /** What had a way to the root still has one, through `k` or not. */
  lemma {:induction false} BelowReaches(objs: Objs, objs': Objs, k: nat, m: nat, n: nat)
    requires SameParentsBut(objs, objs', k) && k in objs && k in objs' && Reaches(objs', k, ROOT)
    requires Up(objs, m, n) == ROOT
    ensures Reaches(objs', m, ROOT)
    decreases n
  {
    if m == ROOT {
      assert Up(objs', m, 0) == ROOT;
    } else if m != k {
      assert n > 0 && m in objs;
      BelowReaches(objs, objs', k, objs[m].parent.blockNo, n - 1);
      ParentReaches(objs', m, ROOT);
    }
  }

  /** A new parent `q` for `k` keeps everything reachable exactly if `q` is not `k` or below it. */
  lemma ReparentedRootedIff(objs: Objs, objs': Objs, k: nat, q: nat)
    requires Rooted(objs) && SameParentsBut(objs, objs', k)
    requires k in objs && k in objs' && k != ROOT && q in objs && objs'[k].parent.blockNo == q
    ensures Rooted(objs') <==> !Reaches(objs, q, k)
  {
    if Reaches(objs, q, k) {
      var n: nat :| Up(objs, q, n) == k;
      var f := FirstReach(objs, q, k, n);
      SamePath(objs, objs', k, q, f);
      assert Up(objs', k, f + 1) == k;
      CycleHasNoRoot(objs', k, f + 1);
    } else {
      StillReaches(objs, objs', k, q);
      ParentReaches(objs', k, ROOT);
      forall m | m in objs' ensures Reaches(objs', m, ROOT) {
        assert m in objs;
        var n: nat :| Up(objs, m, n) == ROOT;
        BelowReaches(objs, objs', k, m, n);
      }
    }
  }

  lemma {:induction false} StaysIn(objs: Objs, m: nat, n: nat)
    requires Linked(objs) && m in objs
    ensures Up(objs, m, n) in objs
    decreases n
  {
    if n > 0 && m != ROOT {
      assert HasEntry(objs, m);
      StaysIn(objs, objs[m].parent.blockNo, n - 1);
    }
  }

  /** A new object under a directory of the tree. */
  lemma AddedRooted(objs: Objs, objs': Objs, k: nat, q: nat)
    requires Linked(objs) && Rooted(objs) && SameParentsBut(objs, objs', k) && k !in objs && q in objs
    requires k in objs' && objs'[k].parent.blockNo == q
    ensures Rooted(objs')
  {
    forall m | m in objs ensures Reaches(objs', m, ROOT) {
      forall n: nat ensures Up(objs, m, n) != k {
        StaysIn(objs, m, n);
      }
      StillReaches(objs, objs', k, m);
    }
    assert k != ROOT by { assert ROOT in objs; }
    ParentReaches(objs', k, ROOT);
  }

  /** An empty object is above nothing else, so it can go. */
  lemma RemovedRooted(objs: Objs, objs': Objs, k: nat)
    requires Linked(objs) && Rooted(objs) && SameParentsBut(objs, objs', k)
    requires k in objs && k !in objs' && Size(objs[k]) == 0
    ensures Rooted(objs')
  {
    forall m | m in objs' ensures Reaches(objs', m, ROOT) {
      forall n: nat ensures Up(objs, m, n) != k {
        NotAbove(objs, k, m, n);
      }
      StillReaches(objs, objs', k, m);
    }
  }

  lemma {:induction false} NotAbove(objs: Objs, k: nat, m: nat, n: nat)
    requires Linked(objs) && k in objs && Size(objs[k]) == 0 && m in objs && m != k
    ensures Up(objs, m, n) != k
    decreases n
  {
    if n > 0 && m != ROOT {
      assert HasEntry(objs, m);
      NotAbove(objs, k, objs[m].parent.blockNo, n - 1);
    }
  }
}
