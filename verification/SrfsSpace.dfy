/**
 The empty area at the end of the device: blocks are taken from its start, and only the block just
 before it ever goes back. What calls take and give back is told exactly, in the order of the frees.
 */
module SrfsSpace {
  import opened SrfsBlock
  import opened SrfsTree
  import opened SrfsFile
  import opened SrfsState

  function FreeBlocks(sb: Superblock): int {
    sb.numBlocks - sb.emptyAreaStart
  }

  /** The last block before the empty area. */
  predicate Last(sb: Superblock, b: nat) {
    b + 1 == sb.emptyAreaStart
  }

  /** Where the empty area begins once block `b` is freed. */
  function After(e: nat, b: nat): nat {
    if b + 1 == e then b else e
  }

  /** And once all of these are freed, in this order. */
  function AfterAll(e: nat, bs: seq<nat>): nat
    decreases |bs|
  {
    if bs == [] then e else AfterAll(After(e, bs[0]), bs[1..])
  }

  /** How many of them are leaked: neither used nor in the empty area. */
  function Leaks(e: nat, bs: seq<nat>): nat
    decreases |bs|
  {
    if bs == [] then 0 else (if bs[0] + 1 == e then 0 else 1) + Leaks(After(e, bs[0]), bs[1..])
  }

  lemma AfterOne(e: nat, b: nat)
    ensures AfterAll(e, [b]) == After(e, b)
  {
  }

  lemma {:induction false} AfterJoin(e: nat, a: seq<nat>, b: seq<nat>)
    ensures AfterAll(e, a + b) == AfterAll(AfterAll(e, a), b)
    decreases |a|
  {
    if a == [] {
      assert a + b == b;
    } else {
      assert (a + b)[1..] == a[1..] + b;
      AfterJoin(After(e, a[0]), a[1..], b);
    }
  }

  /** Every block freed moves the start of the empty area or is leaked. */
  lemma {:induction false} AfterCount(e: nat, bs: seq<nat>)
    ensures AfterAll(e, bs) + |bs| == e + Leaks(e, bs)
    decreases |bs|
  {
    if bs != [] {
      AfterCount(After(e, bs[0]), bs[1..]);
    }
  }

  /**
   `k` blocks are taken from the empty area, and then these are freed; nothing else of the
   superblock that lasts changes.
   */
  ghost predicate Trades(sb: Superblock, sb': Superblock, k: nat, bs: seq<nat>) {
    && sb'.numBlocks == sb.numBlocks && sb'.generation == sb.generation
    && sb'.emptyAreaStart == AfterAll(sb.emptyAreaStart + k, bs) && sb'.freeBlocks + k == sb.freeBlocks + |bs|
  }

  ghost predicate Spends(sb: Superblock, sb': Superblock, k: nat) {
    && sb'.numBlocks == sb.numBlocks && sb'.generation == sb.generation
    && sb'.emptyAreaStart == sb.emptyAreaStart + k && sb'.freeBlocks + k == sb.freeBlocks
  }

  ghost predicate Frees(sb: Superblock, sb': Superblock, bs: seq<nat>) {
    Trades(sb, sb', 0, bs)
  }

  lemma FreesJoin(sb: Superblock, sb1: Superblock, sb2: Superblock, a: seq<nat>, b: seq<nat>)
    requires Frees(sb, sb1, a) && Frees(sb1, sb2, b)
    ensures Frees(sb, sb2, a + b)
  {
    AfterJoin(sb.emptyAreaStart, a, b);
  }

  lemma SpendsThenFrees(sb: Superblock, sb1: Superblock, sb2: Superblock, k: nat, bs: seq<nat>)
    requires Spends(sb, sb1, k) && Frees(sb1, sb2, bs)
    ensures Trades(sb, sb2, k, bs)
  {
  }

  /** So the blocks leaked are those freed and not in the empty area. */
  lemma TradesLeaks(
    sb: Superblock, roles: Roles, leaked: set<nat>, sb': Superblock, roles': Roles, leaked': set<nat>,
    k: nat, bs: seq<nat>)
    requires AllocOk(sb, roles, leaked) && AllocOk(sb', roles', leaked') && Trades(sb, sb', k, bs)
    ensures |leaked'| == |leaked| + Leaks(sb.emptyAreaStart + k, bs)
  {
    AfterCount(sb.emptyAreaStart + k, bs);
  }

  ghost function BlocksBelow(e: nat): set<nat> {
    if e <= 1 then {} else BlocksBelow(e - 1) + {e - 1}
  }

  lemma {:induction false} BelowAre(e: nat)
    requires e >= 1
    ensures |BlocksBelow(e)| == e - 1 && forall b: nat :: b in BlocksBelow(e) <==> 1 <= b < e
    decreases e
  {
    if e > 1 {
      BelowAre(e - 1);
    }
  }

  /** free_blocks counts all blocks that are not in use, the superblock aside. */
  lemma FreeIsUnused(sb: Superblock, roles: Roles, leaked: set<nat>)
    requires AllocOk(sb, roles, leaked)
    ensures sb.freeBlocks + |roles| + 1 == sb.numBlocks
  {
    var all := BlocksBelow(sb.emptyAreaStart);
    BelowAre(sb.emptyAreaStart);
    forall b | b in all ensures b in roles.Keys + leaked { assert Accounted(b, roles, leaked); }
    assert all == roles.Keys + leaked;
  }

  /** What freeing leaves on block `b`: its contents in the empty area, a zero word anywhere else. */
  ghost predicate Abandoned(store: Store, store': Store, sb': Superblock, b: nat) {
    && b in store && b in store'
    && if sb'.emptyAreaStart <= b then store'[b] == store[b] else Word(store'[b], 0) == 0
  }

  ghost predicate Counted(t: Tree) {
    |t.data| <= MAX_DOUBLE && |t.links| == NumLinks(|t.data|) && |t.lols| == NumLols(|t.data|)
  }

  /** A tree that takes `k` blocks at `e`: none, or a data block and then the link blocks that it needs. */
  ghost function GrownBy(t: Tree, e: nat, k: nat): Tree {
    if k == 0 then t else Grown(t, e, e + 1, e + 2)
  }

  // ---------------------------------------------------------------------------------------
  // Blocks of directories
  // ---------------------------------------------------------------------------------------

  /** Of a directory with `n` entries, the last data block goes with an entry. */
  predicate DataGoes(n: nat) {
    n == 15 || (n > 15 && n % 15 == 1)
  }

  /** And the last link block. */
  predicate LinkGoes(n: nat) {
    n == 7441 || (n > 7441 && n % 7680 == 1)
  }

  function LastOf(s: seq<nat>): seq<nat> {
    if s == [] then [] else [s[|s| - 1]]
  }

  /** The blocks that a directory with `n` entries gives up with an entry, as they are freed. */
  ghost function EntryFrees(n: nat, t: Tree): seq<nat> {
    (if LinkGoes(n) then LastOf(t.links) else []) + if DataGoes(n) then LastOf(t.data) else []
  }

  /** And its tree then. */
  ghost function EntryLess(n: nat, t: Tree): Tree
    requires Counted(t)
  {
    if DataGoes(n) && t.data != [] then Shrunk(t) else t
  }

  // ---------------------------------------------------------------------------------------
  // Blocks of files
  // ---------------------------------------------------------------------------------------

  /** The data blocks of a file of this size. */
  function DataBlocks(size: nat): nat {
    if size <= MAX_IN_META then 0 else NumBlocks(size)
  }

  lemma ShrunkCounted(t: Tree)
    requires Counted(t) && t.data != []
    ensures Counted(Shrunk(t))
  {
    CountsGrow(|t.data| - 1);
  }

  /** The blocks that a file gives up with its last data block, as they are freed. */
  ghost function BlockFrees(t: Tree): seq<nat>
    requires t.data != []
  {
    var n := |t.data| - 1;
    [t.data[n]] + (if NewLink(n) then LastOf(t.links) else []) + if NewLol(n) then LastOf(t.lols) else []
  }

  /** And with all data blocks from number `n` on. */
  ghost function CutFrees(t: Tree, n: nat): seq<nat>
    requires Counted(t)
    decreases |t.data|
  {
    if |t.data| <= n then [] else ShrunkCounted(t); BlockFrees(t) + CutFrees(Shrunk(t), n)
  }

  ghost function CutTree(t: Tree, n: nat): Tree
    requires Counted(t)
    decreases |t.data|
  {
    if |t.data| <= n then t else ShrunkCounted(t); CutTree(Shrunk(t), n)
  }

  /** On the way to `n` data blocks: tree `t0` is now `t`, and these were freed. */
  ghost predicate CutSoFar(sb0: Superblock, t0: Tree, sb: Superblock, t: Tree, n: nat, freed: seq<nat>) {
    && Counted(t0) && Counted(t) && CutTree(t, n) == CutTree(t0, n)
    && Frees(sb0, sb, freed) && freed + CutFrees(t, n) == CutFrees(t0, n)
  }

  lemma CutStart(sb: Superblock, t: Tree, n: nat)
    requires Counted(t)
    ensures CutSoFar(sb, t, sb, t, n, [])
  {
  }

  lemma CutStep(sb0: Superblock, t0: Tree, sb: Superblock, t: Tree, sb': Superblock, n: nat, freed: seq<nat>)
    requires CutSoFar(sb0, t0, sb, t, n, freed) && n < |t.data| && Frees(sb, sb', BlockFrees(t))
    ensures CutSoFar(sb0, t0, sb', Shrunk(t), n, freed + BlockFrees(t))
  {
    ShrunkCounted(t);
    FreesJoin(sb0, sb, sb', freed, BlockFrees(t));
    var rest := CutFrees(Shrunk(t), n);
    assert freed + (BlockFrees(t) + rest) == freed + BlockFrees(t) + rest;
  }

  lemma CutEnd(sb0: Superblock, t0: Tree, sb: Superblock, t: Tree, n: nat, freed: seq<nat>)
    requires CutSoFar(sb0, t0, sb, t, n, freed) && |t.data| <= n
    ensures Counted(t0) && Frees(sb0, sb, CutFrees(t0, n)) && t == CutTree(t0, n)
  {
    assert freed + [] == freed;
  }
}
