/**
 The block tree of an srfs file or directory: data blocks reached from the metadata block
 directly, through link blocks, or through lists of link blocks.
 */
module SrfsTree {
  import opened Bytes
  import opened SrfsBlock

  type Store = map<nat, Block>

  /** The most data blocks of each layout. */
  const MAX_DIRECT := 496
  const MAX_SINGLE := 253952
  const MAX_DOUBLE := 130023424

  datatype Tree = Tree(data: seq<nat>, links: seq<nat>, lols: seq<nat>)

  const EMPTY: Tree := Tree([], [], [])

  /** What a block is used for, and by which metadata block. */
  datatype Role = Meta | Data(i: nat) | Link(j: nat) | Lol(q: nat)
  datatype Use = Use(owner: nat, role: Role)

  type Roles = map<nat, Use>

  function NumLinks(n: nat): nat {
    if n <= MAX_DIRECT then 0 else (n + 511) / 512
  }

  function NumLols(n: nat): nat {
    if n <= MAX_SINGLE then 0 else (NumLinks(n) + 511) / 512
  }

  /** Whether data block `n` needs a new link block, and a new list of links. */
  predicate NewLink(n: nat) {
    n >= MAX_DIRECT && (n == MAX_DIRECT || n % 512 == 0)
  }

  predicate NewLol(n: nat) {
    n >= MAX_SINGLE && (n == MAX_SINGLE || n % 262144 == 0)
  }

  ghost predicate DataLink(store: Store, m: nat, t: Tree, i: nat)
    requires m in store && (forall x | x in t.links :: x in store) && i < |t.data|
  {
    if t.links == [] then i < 496 && Word(store[m], 16 + i) == t.data[i]
    else i / 512 < |t.links| && Word(store[t.links[i / 512]], i % 512) == t.data[i]
  }

  ghost predicate LinkLink(store: Store, m: nat, t: Tree, j: nat)
    requires m in store && (forall x | x in t.lols :: x in store) && j < |t.links|
  {
    if t.lols == [] then j < 496 && Word(store[m], 16 + j) == t.links[j]
    else j / 512 < |t.lols| && Word(store[t.lols[j / 512]], j % 512) == t.links[j]
  }

  ghost predicate LolLink(store: Store, m: nat, t: Tree, q: nat)
    requires m in store && q < |t.lols|
  {
    q < 496 && Word(store[m], 16 + q) == t.lols[q]
  }

  ghost predicate Shape(store: Store, m: nat, t: Tree) {
    && |t.data| <= MAX_DOUBLE && |t.links| == NumLinks(|t.data|) && |t.lols| == NumLols(|t.data|)
    && m in store && (forall x | x in t.data :: x in store)
    && (forall x | x in t.links :: x in store) && (forall x | x in t.lols :: x in store)
  }

  /** The blocks and their links, on the device, form the tree. */
  ghost predicate TreeOk(store: Store, m: nat, t: Tree) {
    && Shape(store, m, t)
    && (forall i | 0 <= i < |t.data| :: DataLink(store, m, t, i))
    && (forall j | 0 <= j < |t.links| :: LinkLink(store, m, t, j))
    && (forall q | 0 <= q < |t.lols| :: LolLink(store, m, t, q))
  }

  ghost predicate OwnsData(roles: Roles, m: nat, t: Tree, i: nat)
    requires i < |t.data|
  {
    t.data[i] in roles && roles[t.data[i]] == Use(m, Data(i))
  }

  ghost predicate OwnsLink(roles: Roles, m: nat, t: Tree, j: nat)
    requires j < |t.links|
  {
    t.links[j] in roles && roles[t.links[j]] == Use(m, Link(j))
  }

  ghost predicate OwnsLol(roles: Roles, m: nat, t: Tree, q: nat)
    requires q < |t.lols|
  {
    t.lols[q] in roles && roles[t.lols[q]] == Use(m, Lol(q))
  }

  /** Every block of the tree is recorded in its place, so no block is used twice. */
  ghost predicate Owns(roles: Roles, m: nat, t: Tree) {
    && m in roles && roles[m] == Use(m, Meta)
    && (forall i | 0 <= i < |t.data| :: OwnsData(roles, m, t, i))
    && (forall j | 0 <= j < |t.links| :: OwnsLink(roles, m, t, j))
    && (forall q | 0 <= q < |t.lols| :: OwnsLol(roles, m, t, q))
  }

  /** And every block recorded for `m` is in the tree at that place. */
  ghost predicate InTree(m: nat, t: Tree, b: nat, role: Role) {
    match role
    case Meta => b == m
    case Data(i) => i < |t.data| && t.data[i] == b
    case Link(j) => j < |t.links| && t.links[j] == b
    case Lol(q) => q < |t.lols| && t.lols[q] == b
  }

  ghost predicate AllInTree(roles: Roles, m: nat, t: Tree) {
    forall b | b in roles && roles[b].owner == m :: InTree(m, t, b, roles[b].role)
  }

  // ---------------------------------------------------------------------------------------
  // Counting
  // ---------------------------------------------------------------------------------------

  /** One more data block takes one more link block exactly when NewLink, and the same for lists. */
  lemma CountsGrow(n: nat)
    requires n < MAX_DOUBLE
    ensures NumLinks(n + 1) == NumLinks(n) + (if NewLink(n) then 1 else 0)
    ensures NumLols(n + 1) == NumLols(n) + (if NewLol(n) then 1 else 0)
    ensures NewLol(n) ==> NewLink(n)
    ensures n >= MAX_DIRECT && NewLink(n) ==> NumLinks(n) == n / 512
    ensures n > MAX_DIRECT && !NewLink(n) ==> n / 512 == NumLinks(n) - 1
    ensures n > MAX_DIRECT && n <= MAX_SINGLE ==> NumLinks(n) <= 496
    ensures n >= MAX_SINGLE && NewLol(n) ==> NumLols(n) == n / 262144
    ensures n > MAX_SINGLE && !NewLol(n) ==> n / 262144 == NumLols(n) - 1
    ensures NumLols(n + 1) <= 496
  {
    LinkCounts(n);
    LinkCounts(n + 1);
    if n > MAX_SINGLE {
      var l := NumLinks(n);
      assert (n / 512) / 512 == n / 262144;
      assert n % 262144 == n % 512 + 512 * ((n / 512) % 512);
    }
  }

  lemma LinkCounts(n: nat)
    requires n <= MAX_DOUBLE
    ensures n > MAX_DIRECT ==> 512 * (NumLinks(n) - 1) < n <= 512 * NumLinks(n)
    ensures n > MAX_SINGLE ==> 512 * (NumLols(n) - 1) < NumLinks(n) <= 512 * NumLols(n)
    ensures NumLols(n) <= 496
    ensures n <= MAX_SINGLE ==> NumLinks(n) <= 496
  {
  }

  // ---------------------------------------------------------------------------------------
  // Growing by one data block
  // ---------------------------------------------------------------------------------------

  /** The tree with data block `d`, link block `l` and list `q`, the last two only where needed. */
  ghost function Grown(t: Tree, d: nat, l: nat, q: nat): Tree {
    var n := |t.data|;
    Tree(t.data + [d], if NewLink(n) then t.links + [l] else t.links, if NewLol(n) then t.lols + [q] else t.lols)
  }

  /** Two metadata blocks with the same links, but for word `w`. */
  ghost predicate LinksBut(a: Block, b: Block, w: nat) {
    forall k | 16 <= k < 512 && k != w :: Word(b, k) == Word(a, k)
  }

  ghost predicate WordsBut(a: Block, b: Block, w: nat) {
    forall k | 0 <= k < 512 && k != w :: Word(b, k) == Word(a, k)
  }

  /** The first 496 words of `b` are the links of the metadata block `a`. */
  ghost predicate CopyOfLinks(a: Block, b: Block) {
    forall k | 0 <= k < 496 :: LinkCopied(a, b, k)
  }

  ghost predicate LinkCopied(a: Block, b: Block, k: nat)
    requires k < 496
  {
    Word(b, k) == Word(a, 16 + k)
  }

  lemma GrowDirect(store: Store, m: nat, t: Tree, d: nat, mb: Block)
    requires TreeOk(store, m, t) && |t.data| < MAX_DIRECT && d in store
    requires LinksBut(store[m], mb, 16 + |t.data|) && Word(mb, 16 + |t.data|) == d
    ensures TreeOk(store[m := mb], m, Grown(t, d, 0, 0))
  {
    hide Word;
    var n, t', store' := |t.data|, Grown(t, d, 0, 0), store[m := mb];
    CountsGrow(n);
    forall i | 0 <= i < n + 1 ensures DataLink(store', m, t', i) {
      assert i < n ==> DataLink(store, m, t, i);
    }
  }

  lemma GrowFirstLink(store: Store, m: nat, t: Tree, d: nat, l: nat, lb: Block, mb: Block)
    requires TreeOk(store, m, t) && |t.data| == MAX_DIRECT && d in store && l != m
    requires CopyOfLinks(store[m], lb) && Word(lb, 496) == d
    requires LinksBut(store[m], mb, 16) && Word(mb, 16) == l
    ensures TreeOk(store[l := lb][m := mb], m, Grown(t, d, l, 0))
  {
    hide Word;
    var n, t', store' := |t.data|, Grown(t, d, l, 0), store[l := lb][m := mb];
    CountsGrow(n);
    assert t'.links == [l];
    forall i | 0 <= i < n + 1 ensures DataLink(store', m, t', i) {
      assert i < n ==> DataLink(store, m, t, i) && LinkCopied(store[m], lb, i);
      assert i / 512 == 0 && i % 512 == i;
    }
  }

  /** A new link block, listed in the metadata block. */
  lemma GrowLink(store: Store, roles: Roles, m: nat, t: Tree, d: nat, l: nat, lb: Block, mb: Block)
    requires TreeOk(store, m, t) && Owns(roles, m, t) && d in store && l !in roles
    requires MAX_DIRECT < |t.data| < MAX_SINGLE && NewLink(|t.data|)
    requires Word(lb, 0) == d
    requires LinksBut(store[m], mb, 16 + |t.data| / 512) && Word(mb, 16 + |t.data| / 512) == l
    ensures TreeOk(store[l := lb][m := mb], m, Grown(t, d, l, 0))
  {
    hide Word;
    var n, t', store' := |t.data|, Grown(t, d, l, 0), store[l := lb][m := mb];
    CountsGrow(n);
    LinkCounts(n);
    forall i | 0 <= i < n + 1 ensures DataLink(store', m, t', i) {
      assert i < n ==> DataLink(store, m, t, i) && OwnsLink(roles, m, t, i / 512);
      assert i == n ==> i % 512 == 0;
    }
    forall j | 0 <= j < |t'.links| ensures LinkLink(store', m, t', j) {
      assert j < |t.links| ==> LinkLink(store, m, t, j);
    }
  }

  /** A free word of the last link block. */
  lemma GrowInLink(store: Store, roles: Roles, m: nat, t: Tree, d: nat, lb: Block)
    requires TreeOk(store, m, t) && Owns(roles, m, t) && d in store
    requires MAX_DIRECT < |t.data| < MAX_DOUBLE && !NewLink(|t.data|)
    requires |t.data| / 512 < |t.links|
    requires var l := t.links[|t.data| / 512];
             WordsBut(store[l], lb, |t.data| % 512) && Word(lb, |t.data| % 512) == d
    ensures TreeOk(store[t.links[|t.data| / 512] := lb], m, Grown(t, d, 0, 0))
  {
    hide Word;
    var n, t', l := |t.data|, Grown(t, d, 0, 0), t.links[|t.data| / 512];
    var store' := store[l := lb];
    CountsGrow(n);
    assert OwnsLink(roles, m, t, n / 512);
    forall i | 0 <= i < n + 1 ensures DataLink(store', m, t', i) {
      assert i < n ==> DataLink(store, m, t, i) && OwnsLink(roles, m, t, i / 512);
    }
    forall j | 0 <= j < |t'.links| ensures LinkLink(store', m, t', j) {
      assert LinkLink(store, m, t, j);
      assert t.lols != [] ==> OwnsLol(roles, m, t, j / 512);
    }
    forall q | 0 <= q < |t'.lols| ensures LolLink(store', m, t', q) {
      assert LolLink(store, m, t, q);
    }
  }

  /** Past the single-link layout: the links move to a first list of links. */
  lemma GrowFirstLol(
    store: Store, roles: Roles, m: nat, t: Tree, d: nat, l: nat, lb: Block, q: nat, qb: Block, mb: Block)
    requires TreeOk(store, m, t) && Owns(roles, m, t) && |t.data| == MAX_SINGLE && d in store
    requires l !in roles && q !in roles && l != q
    requires Word(lb, 0) == d
    requires CopyOfLinks(store[m], qb) && Word(qb, 496) == l
    requires LinksBut(store[m], mb, 16) && Word(mb, 16) == q
    ensures TreeOk(store[l := lb][q := qb][m := mb], m, Grown(t, d, l, q))
  {
    hide Word;
    var n, t', store' := |t.data|, Grown(t, d, l, q), store[l := lb][q := qb][m := mb];
    CountsGrow(n);
    LinkCounts(n);
    assert |t.links| == 496;
    assert t'.lols == [q];
    forall i | 0 <= i < n + 1 ensures DataLink(store', m, t', i) {
      assert i < n ==> DataLink(store, m, t, i) && OwnsLink(roles, m, t, i / 512);
      assert i == n ==> i % 512 == 0 && i / 512 == 496;
    }
    forall j | 0 <= j < |t'.links| ensures LinkLink(store', m, t', j) {
      assert j < |t.links| ==> LinkLink(store, m, t, j) && LinkCopied(store[m], qb, j);
      assert j / 512 == 0 && j % 512 == j;
    }
  }

  /** A new link block in a new list of links. */
  lemma GrowLol(
    store: Store, roles: Roles, m: nat, t: Tree, d: nat, l: nat, lb: Block, q: nat, qb: Block, mb: Block)
    requires TreeOk(store, m, t) && Owns(roles, m, t) && d in store
    requires MAX_SINGLE < |t.data| < MAX_DOUBLE && NewLol(|t.data|)
    requires l !in roles && q !in roles && l != q
    requires Word(lb, 0) == d && Word(qb, 0) == l && |t.data| / 262144 < 496
    requires LinksBut(store[m], mb, 16 + |t.data| / 262144) && Word(mb, 16 + |t.data| / 262144) == q
    ensures TreeOk(store[l := lb][q := qb][m := mb], m, Grown(t, d, l, q))
  {
    hide Word;
    var n, t', store' := |t.data|, Grown(t, d, l, q), store[l := lb][q := qb][m := mb];
    CountsGrow(n);
    LinkCounts(n);
    forall i | 0 <= i < n + 1 ensures DataLink(store', m, t', i) {
      assert i < n ==> DataLink(store, m, t, i) && OwnsLink(roles, m, t, i / 512);
      assert i == n ==> i % 512 == 0 && i / 512 == |t.links|;
    }
    forall j | 0 <= j < |t'.links| ensures LinkLink(store', m, t', j) {
      assert j < |t.links| ==> LinkLink(store, m, t, j) && OwnsLol(roles, m, t, j / 512);
      assert j == |t.links| ==> j % 512 == 0 && j / 512 == |t.lols|;
    }
    forall k | 0 <= k < |t'.lols| ensures LolLink(store', m, t', k) {
      assert k < |t.lols| ==> LolLink(store, m, t, k);
    }
  }

  /** A new link block in a free word of the last list of links. */
  lemma GrowLinkInLol(store: Store, roles: Roles, m: nat, t: Tree, d: nat, l: nat, lb: Block, qb: Block)
    requires TreeOk(store, m, t) && Owns(roles, m, t) && d in store && l !in roles
    requires MAX_SINGLE < |t.data| < MAX_DOUBLE && NewLink(|t.data|) && !NewLol(|t.data|)
    requires Word(lb, 0) == d && |t.data| / 262144 < |t.lols|
    requires var q, k := t.lols[|t.data| / 262144], |t.data| / 512 % 512;
             WordsBut(store[q], qb, k) && Word(qb, k) == l
    ensures TreeOk(store[l := lb][t.lols[|t.data| / 262144] := qb], m, Grown(t, d, l, 0))
  {
    hide Word;
    var n, t', q := |t.data|, Grown(t, d, l, 0), t.lols[|t.data| / 262144];
    var store' := store[l := lb][q := qb];
    CountsGrow(n);
    LinkCounts(n);
    assert OwnsLol(roles, m, t, n / 262144);
    forall i | 0 <= i < n + 1 ensures DataLink(store', m, t', i) {
      assert i < n ==> DataLink(store, m, t, i) && OwnsLink(roles, m, t, i / 512);
      assert i == n ==> i % 512 == 0 && i / 512 == |t.links|;
    }
    forall j | 0 <= j < |t'.links| ensures LinkLink(store', m, t', j) {
      assert j < |t.links| ==> LinkLink(store, m, t, j) && OwnsLol(roles, m, t, j / 512);
      assert j == |t.links| ==> j == n / 512 && j / 512 == n / 262144;
    }
    forall k | 0 <= k < |t'.lols| ensures LolLink(store', m, t', k) {
      assert LolLink(store, m, t, k);
    }
  }

  // ---------------------------------------------------------------------------------------
  // Shrinking by one data block
  // ---------------------------------------------------------------------------------------

  /** The tree without its last data block, and without the link blocks only that one needed. */
  ghost function Shrunk(t: Tree): Tree
    requires t.data != [] && |t.links| == NumLinks(|t.data|) && |t.lols| == NumLols(|t.data|)
  {
    var n := |t.data| - 1;
    Tree(t.data[..n], if NewLink(n) && t.links != [] then t.links[..|t.links| - 1] else t.links,
         if NewLol(n) && t.lols != [] then t.lols[..|t.lols| - 1] else t.lols)
  }

  /** Nothing on the device needs to change, unless the layout does. */
  lemma ShrinkSame(store: Store, m: nat, t: Tree)
    requires TreeOk(store, m, t) && t.data != []
    requires |t.data| - 1 != MAX_DIRECT && |t.data| - 1 != MAX_SINGLE
    ensures TreeOk(store, m, Shrunk(t))
  {
    hide Word;
    var n, t' := |t.data| - 1, Shrunk(t);
    CountsGrow(n);
    LinkCounts(n);
    forall i | 0 <= i < n ensures DataLink(store, m, t', i) {
      assert DataLink(store, m, t, i);
    }
    forall j | 0 <= j < |t'.links| ensures LinkLink(store, m, t', j) {
      assert LinkLink(store, m, t, j);
    }
    forall q | 0 <= q < |t'.lols| ensures LolLink(store, m, t', q) {
      assert LolLink(store, m, t, q);
    }
  }

  /** The links of the only link block move back to the metadata block. */
  lemma ShrinkToDirect(store: Store, m: nat, t: Tree, mb: Block)
    requires TreeOk(store, m, t) && |t.data| - 1 == MAX_DIRECT
    requires CopyOfLinks(mb, store[t.links[0]]) && m !in t.links
    ensures TreeOk(store[m := mb], m, Shrunk(t))
  {
    hide Word;
    var n, t', store' := |t.data| - 1, Shrunk(t), store[m := mb];
    CountsGrow(n);
    assert t'.links == [];
    forall i | 0 <= i < n ensures DataLink(store', m, t', i) {
      assert DataLink(store, m, t, i) && LinkCopied(mb, store[t.links[0]], i);
      assert i / 512 == 0 && i % 512 == i;
    }
  }

  /** The links of the only list of links move back to the metadata block. */
  lemma ShrinkToSingle(store: Store, m: nat, t: Tree, mb: Block)
    requires TreeOk(store, m, t) && |t.data| - 1 == MAX_SINGLE
    requires CopyOfLinks(mb, store[t.lols[0]]) && m !in t.links
    ensures TreeOk(store[m := mb], m, Shrunk(t))
  {
    hide Word;
    var n, t', store' := |t.data| - 1, Shrunk(t), store[m := mb];
    CountsGrow(n);
    LinkCounts(n);
    assert t'.lols == [];
    forall i | 0 <= i < n ensures DataLink(store', m, t', i) {
      assert DataLink(store, m, t, i);
    }
    forall j | 0 <= j < |t'.links| ensures LinkLink(store', m, t', j) {
      assert LinkLink(store, m, t, j) && LinkCopied(mb, store[t.lols[0]], j);
      assert j / 512 == 0 && j % 512 == j;
    }
  }

  // ---------------------------------------------------------------------------------------
  // Finding a data block, and framing
  // ---------------------------------------------------------------------------------------

  /** Following the words from the metadata block leads to data block `i` in every layout. */
  lemma Route(store: Store, m: nat, t: Tree, i: nat)
    requires TreeOk(store, m, t) && i < |t.data|
    ensures |t.data| <= MAX_DIRECT ==> i < 496 && Word(store[m], 16 + i) == t.data[i]
    ensures MAX_DIRECT < |t.data| <= MAX_SINGLE ==>
              && i / 512 < |t.links| && i / 512 < 496 && Word(store[m], 16 + i / 512) == t.links[i / 512]
              && Word(store[t.links[i / 512]], i % 512) == t.data[i]
    ensures MAX_SINGLE < |t.data| ==>
              && i / 512 < |t.links| && i / 262144 < |t.lols| && i / 262144 < 496
              && Word(store[m], 16 + i / 262144) == t.lols[i / 262144]
              && Word(store[t.lols[i / 262144]], i / 512 % 512) == t.links[i / 512]
              && Word(store[t.links[i / 512]], i % 512) == t.data[i]
    ensures t.data[i] in store
    ensures |t.data| > MAX_DIRECT ==> t.links[i / 512] in store
    ensures |t.data| > MAX_SINGLE ==> t.lols[i / 262144] in store
  {
    hide Word;
    LinkCounts(|t.data|);
    assert DataLink(store, m, t, i);
    if |t.data| > MAX_DIRECT {
      assert LinkLink(store, m, t, i / 512);
      if |t.data| > MAX_SINGLE {
        assert i / 512 / 512 == i / 262144;
        assert LolLink(store, m, t, i / 262144);
      }
    }
  }

  /** A tree depends on its links only. */
  lemma TreeFrame(store: Store, store': Store, m: nat, t: Tree)
    requires TreeOk(store, m, t) && m in store' && LinksBut(store[m], store'[m], 0)
    requires forall x | x in t.data :: x in store'
    requires forall x | x in t.links :: x in store' && store'[x] == store[x]
    requires forall x | x in t.lols :: x in store' && store'[x] == store[x]
    ensures TreeOk(store', m, t)
  {
    hide Word;
    forall i | 0 <= i < |t.data| ensures DataLink(store', m, t, i) {
      assert DataLink(store, m, t, i);
    }
    forall j | 0 <= j < |t.links| ensures LinkLink(store', m, t, j) {
      assert LinkLink(store, m, t, j);
    }
    forall q | 0 <= q < |t.lols| ensures LolLink(store', m, t, q) {
      assert LolLink(store, m, t, q);
    }
  }

  lemma OwnedApart(roles: Roles, m: nat, t: Tree, i: nat)
    requires Owns(roles, m, t) && i < |t.data|
    ensures t.data[i] != m && t.data[i] !in t.links && t.data[i] !in t.lols
    ensures forall k | 0 <= k < |t.data| && k != i :: t.data[k] != t.data[i]
  {
    assert OwnsData(roles, m, t, i);
    forall j | 0 <= j < |t.links| ensures t.links[j] != t.data[i] { assert OwnsLink(roles, m, t, j); }
    forall q | 0 <= q < |t.lols| ensures t.lols[q] != t.data[i] { assert OwnsLol(roles, m, t, q); }
    forall k | 0 <= k < |t.data| && k != i ensures t.data[k] != t.data[i] { assert OwnsData(roles, m, t, k); }
  }

  /** The same data area has the same links. */
  lemma SameArea(a: Block, b: Block)
    requires a[META_BYTES..] == b[META_BYTES..]
    ensures LinksBut(a, b, 0)
  {
    assert a[META_BYTES..] == a[META_BYTES..4096] && b[META_BYTES..] == b[META_BYTES..4096];
    forall k | 16 <= k < 512 ensures Word(b, k) == Word(a, k) {
      SliceSlice(a, META_BYTES, 4096, 8 * k - META_BYTES, 8 * k + 8 - META_BYTES);
      SliceSlice(b, META_BYTES, 4096, 8 * k - META_BYTES, 8 * k + 8 - META_BYTES);
    }
  }

  /** The same EntryMetadata. */
  ghost predicate SameHeader(a: Block, b: Block) {
    forall k | 0 <= k < 16 :: Word(b, k) == Word(a, k)
  }

  lemma SetWordBut(b: Block, w: nat, v: nat)
    requires w < 512 && v < U64_LIMIT
    ensures Word(SetWord(b, w, v), w) == v
    ensures WordsBut(b, SetWord(b, w, v), w) && LinksBut(b, SetWord(b, w, v), w)
    ensures w >= 16 ==> SameHeader(b, SetWord(b, w, v))
  {
    hide Word;
    hide SetWord;
    forall k | 0 <= k < 512 ensures Word(SetWord(b, w, v), k) == if k == w then v else Word(b, k) {
      WordOfSet(b, w, v, k);
    }
  }

  /** The copy of the data area of `meta`, with one more link after its 496. */
  lemma LinksAndOne(b: Block, meta: Block, v: nat)
    requires v < U64_LIMIT
    ensures var lb := SetWord(Paste(b, 0, meta[META_BYTES..]), 496, v);
            CopyOfLinks(meta, lb) && Word(lb, 496) == v
  {
    hide Word;
    hide SetWord;
    hide Paste;
    var p := Paste(b, 0, meta[META_BYTES..]);
    var lb := SetWord(p, 496, v);
    SetWordBut(p, 496, v);
    forall k | 0 <= k < 496 ensures LinkCopied(meta, lb, k) {
      WordOfLinks(b, meta, k);
    }
  }

  // ---------------------------------------------------------------------------------------
  // Roles of the blocks of a tree that grows or shrinks
  // ---------------------------------------------------------------------------------------

  ghost function LinkRoles(roles: Roles, m: nat, t: Tree, l: nat, q: nat): Roles {
    var n := |t.data|;
    var r := if NewLink(n) then roles[l := Use(m, Link(|t.links|))] else roles;
    if NewLol(n) then r[q := Use(m, Lol(|t.lols|))] else r
  }

  ghost function GrownRoles(roles: Roles, m: nat, t: Tree, d: nat, l: nat, q: nat): Roles {
    LinkRoles(roles[d := Use(m, Data(|t.data|))], m, t, l, q)
  }

  lemma GrownOwns(roles: Roles, m: nat, t: Tree, d: nat, l: nat, q: nat)
    requires Owns(roles, m, t) && AllInTree(roles, m, t)
    requires d !in roles && l !in roles && q !in roles && d != l && d != q && l != q
    ensures var roles' := GrownRoles(roles, m, t, d, l, q);
            Owns(roles', m, Grown(t, d, l, q)) && AllInTree(roles', m, Grown(t, d, l, q))
  {
    var roles', t' := GrownRoles(roles, m, t, d, l, q), Grown(t, d, l, q);
    forall i | 0 <= i < |t'.data| ensures OwnsData(roles', m, t', i) {
      assert i < |t.data| ==> OwnsData(roles, m, t, i);
    }
    forall j | 0 <= j < |t'.links| ensures OwnsLink(roles', m, t', j) {
      assert j < |t.links| ==> OwnsLink(roles, m, t, j);
    }
    forall k | 0 <= k < |t'.lols| ensures OwnsLol(roles', m, t', k) {
      assert k < |t.lols| ==> OwnsLol(roles, m, t, k);
    }
    forall b | b in roles' && roles'[b].owner == m ensures InTree(m, t', b, roles'[b].role) {
      assert b in roles ==> InTree(m, t, b, roles[b].role);
    }
  }

  /** The blocks that shrinking gives up. */
  ghost function Dropped(t: Tree): set<nat>
    requires t.data != []
  {
    var n := |t.data| - 1;
    {t.data[n]} + (if NewLink(n) && t.links != [] then {t.links[|t.links| - 1]} else {})
    + (if NewLol(n) && t.lols != [] then {t.lols[|t.lols| - 1]} else {})
  }

  lemma ShrunkOwns(roles: Roles, m: nat, t: Tree)
    requires Owns(roles, m, t) && AllInTree(roles, m, t)
    requires t.data != [] && |t.links| == NumLinks(|t.data|) && |t.lols| == NumLols(|t.data|)
    ensures var roles' := roles - Dropped(t); Owns(roles', m, Shrunk(t)) && AllInTree(roles', m, Shrunk(t))
  {
    hide NewLink;
    hide NewLol;
    hide NumLinks;
    hide NumLols;
    var n, roles', t' := |t.data| - 1, roles - Dropped(t), Shrunk(t);
    assert OwnsData(roles, m, t, n);
    assert t.links != [] ==> OwnsLink(roles, m, t, |t.links| - 1);
    assert t.lols != [] ==> OwnsLol(roles, m, t, |t.lols| - 1);
    forall i | 0 <= i < |t'.data| ensures OwnsData(roles', m, t', i) {
      assert OwnsData(roles, m, t, i);
    }
    forall j | 0 <= j < |t'.links| ensures OwnsLink(roles', m, t', j) {
      assert OwnsLink(roles, m, t, j);
    }
    forall k | 0 <= k < |t'.lols| ensures OwnsLol(roles', m, t', k) {
      assert OwnsLol(roles, m, t, k);
    }
    forall b | b in roles' && roles'[b].owner == m ensures InTree(m, t', b, roles'[b].role) {
      assert InTree(m, t, b, roles[b].role);
    }
  }

  lemma Shift21(o: nat)
    ensures o / 2097152 == o / 4096 / 512 && o % 2097152 / 4096 == o / 4096 % 512
    ensures o % 4096 == 0 ==> (o % 2097152 == 0 <==> o / 4096 % 512 == 0)
  {
    var i, r := o / 4096, o % 4096;
    var j, k := i / 512, i % 512;
    assert o == 2097152 * j + (4096 * k + r);
    assert o / 2097152 == j && o % 2097152 == 4096 * k + r;
  }

  lemma Shift30(o: nat)
    ensures o / 1073741824 == o / 2097152 / 512 && o % 1073741824 / 2097152 == o / 2097152 % 512
    ensures o % 2097152 == 0 ==> (o % 1073741824 == 0 <==> o / 2097152 % 512 == 0)
    ensures o % 1073741824 == 0 ==> o % 2097152 == 0
  {
    var i, r := o / 2097152, o % 2097152;
    var j, k := i / 512, i % 512;
    assert o == 1073741824 * j + (2097152 * k + r);
    assert o / 1073741824 == j && o % 1073741824 == 2097152 * k + r;
  }

  lemma Div18(i: nat)
    ensures i / 262144 == i / 512 / 512
    ensures i % 262144 == 0 <==> i % 512 == 0 && i / 512 % 512 == 0
  {
    var j, r := i / 512, i % 512;
    assert i == 262144 * (j / 512) + (512 * (j % 512) + r);
    assert i / 262144 == j / 512 && i % 262144 == 512 * (j % 512) + r;
  }

  /** The shifts and masks of the source, in block numbers. */
  lemma Shifts(o: nat)
    ensures var i := o / 4096;
            && o / 2097152 == i / 512 && o % 2097152 / 4096 == i % 512
            && o / 1073741824 == i / 262144 && o % 1073741824 / 2097152 == i / 512 % 512
            && (o % 4096 == 0 ==>
                  o == 4096 * i && (o % 2097152 == 0 <==> i % 512 == 0) && (o % 1073741824 == 0 <==> i % 262144 == 0))
  {
    Shift21(o);
    Shift30(o);
    Div18(o / 4096);
  }

  /** The words that the append of block `n` follows in a file with lists of links. */
  lemma NextInLol(store: Store, m: nat, t: Tree, p: nat)
    requires TreeOk(store, m, t) && p == 4096 * |t.data| && MAX_SINGLE < |t.data| && !NewLol(|t.data|)
    ensures |t.data| < MAX_DOUBLE && (p % 2097152 == 0 <==> NewLink(|t.data|))
    ensures |t.data| / 262144 < |t.lols| && p / 1073741824 < 496
    ensures Word(store[m], 16 + p / 1073741824) == t.lols[|t.data| / 262144]
    ensures p % 1073741824 / 2097152 < 512
    ensures !NewLink(|t.data|) ==>
              |t.data| / 512 < |t.links|
              && Word(store[t.lols[|t.data| / 262144]], p % 1073741824 / 2097152) == t.links[|t.data| / 512]
  {
    hide Word;
    var n := |t.data|;
    Shifts(p);
    CountsGrow(n);
    LinkCounts(n);
    assert LolLink(store, m, t, n / 262144);
    if !NewLink(n) {
      assert LinkLink(store, m, t, n / 512);
      assert n / 512 / 512 == n / 262144;
    }
  }

  lemma MinusMinus(roles: Roles, a: set<nat>, b: set<nat>)
    ensures roles - a - b == roles - (a + b)
  {
  }
}
