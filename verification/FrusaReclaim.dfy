/** A batch with no live entry leaves its slab, and its region goes back. */
module FrusaReclaim {
  import opened FrusaList
  import opened FrusaMem
  import opened FrusaBatch

  ghost function WithoutHome(home: Home, b: seq<nat>): Home {
    home - Elems(b)
  }

  // ---------------------------------------------------------------------------------------
  // Lists
  // ---------------------------------------------------------------------------------------

  ghost function Last(s: seq<nat>): nat
    requires s != []
  {
    s[|s| - 1]
  }

  /** Some block of the batch has a live entry. */
  ghost predicate AnyLive(mem: Mem, b: seq<nat>) {
    exists j :: 0 <= j < |b| && b[j] in mem && mem[b[j]].bits != {}
  }

  /** The region of batch `b` is gone, and every other block is as it was. */
  ghost predicate BatchTaken(
    mem: Mem, regions: Regions, kinds: Kinds, home: Home, b: seq<nat>, mem': Mem, regions': Regions, kinds': Kinds) {
    && b != [] && b[0] in mem && regions' == regions - {mem[b[0]].data} && kinds' == kinds - {mem[b[0]].data}
    && (forall h | h in home && h !in b && h in mem :: h in mem' && mem'[h] == mem[h])
  }

  /** `mem` with the structure before the batch linked past it. */
  ghost function Unlinked(mem: Mem, a: seq<nat>, next: nat): Mem
    requires a != [] ==> Last(a) in mem
  {
    if a == [] then mem else mem[Last(a) := mem[Last(a)].(next := next)]
  }

  lemma UnlinkedChain(mem: Mem, a: seq<nat>, b: seq<nat>, c: seq<nat>)
    requires Chain(mem, a + b + c) && NoDup(a + b + c)
    ensures a != [] ==> Last(a) in mem
    ensures var mem' := Unlinked(mem, a, Head(c)); Chain(mem', a + c) && NoDup(a + c)
    ensures b != [] ==> Last(b) in mem && mem[Last(b)].next == Head(c)
  {
    var s, t := a + b + c, a + c;
    if a != [] { assert LinkOk(mem, s, |a| - 1) && s[|a| - 1] == Last(a); }
    if b != [] { assert LinkOk(mem, s, |a| + |b| - 1) && s[|a| + |b| - 1] == Last(b); }
    var mem' := Unlinked(mem, a, Head(c));
    forall i | 0 <= i < |t| ensures LinkOk(mem', t, i) {
      var j := if i < |a| then i else i + |b|;
      assert LinkOk(mem, s, j) && s[j] == t[i];
      assert i + 1 < |t| ==> t[i + 1] == s[if i + 1 < |a| then i + 1 else i + 1 + |b|];
      if a != [] && t[i] == Last(a) {
        assert s[|a| - 1] == s[j];
        assert i == |a| - 1;
      }
    }
    forall i, j | 0 <= i < j < |t| ensures t[i] != t[j] {
      assert t[i] == s[if i < |a| then i else i + |b|] && t[j] == s[if j < |a| then j else j + |b|];
    }
  }

  lemma UsedShrunk(mem: Mem, a: seq<nat>, b: seq<nat>, c: seq<nat>)
    requires forall h | h in a + b + c :: h in mem
    requires forall h | h in b :: h in mem && mem[h].bits == {}
    ensures (forall h | h in a + c :: h in mem) && Used(mem, a + c) == Used(mem, a + b + c)
  {
    assert forall h | h in a || h in b || h in c || h in a + b :: h in a + b + c;
    UsedConcat(mem, a + b, c);
    UsedConcat(mem, a, b);
    UsedConcat(mem, a, c);
    UsedZero(mem, b);
  }

  /** The list and counters after an empty batch leaves. */
  lemma ListShrunk(mem: Mem, slab: Slab, a: seq<nat>, b: seq<nat>, c: seq<nat>)
    requires ListOk(mem, slab, a + b + c) && (forall h | h in b :: h in mem && mem[h].bits == {})
    ensures a != [] ==> Last(a) in mem
    ensures |b| * (64 * slab.entrySz) <= slab.total
    ensures ListOk(Unlinked(mem, a, Head(c)), slab.(head := Head(a + c),
                                                    total := slab.total - |b| * (64 * slab.entrySz)), a + c)
  {
    hide Used;
    UnlinkedChain(mem, a, b, c);
    UsedShrunk(mem, a, b, c);
    var mem', s, t := Unlinked(mem, a, Head(c)), a + b + c, a + c;
    assert forall h | h in t :: h in s;
    forall h | h in t ensures h in mem && h in mem' && mem'[h] == mem[h].(next := mem'[h].next) {
    }
    UsedFrame(mem, mem', t);
    hide Chain;
    hide NoDup;
    Distribute(|b|, |t|, slab.entrySz);
    assert |s| == |b| + |t|;
    assert 64 * |t| * slab.entrySz >= 0;
  }

  // ---------------------------------------------------------------------------------------
  // Blocks and regions
  // ---------------------------------------------------------------------------------------

  /** The blocks of a batch cover its region, so no other block lies there. */
  lemma BatchAlone(
    mem: Mem, slabs: seq<Slab>, chains: seq<seq<nat>>, home: Home, regions: Regions, kinds: Kinds, b: seq<nat>,
    size: nat, h: nat)
    requires DataOk(mem, slabs, chains, home, regions, kinds) && Batch(mem, b, size) && size > 0
    requires (forall g | g in b :: g in home) && h in home && h in mem && RegionOf(mem[h]) == mem[b[0]].data
    requires HeaderOk(mem[b[0]], regions, kinds)
    ensures h in b
  {
    hide DataOk;
    assert InBatch(mem, b[0], 0, |b|, mem[b[0]].data, size);
    HomedOf(mem, slabs, chains, home, regions, kinds, h);
    BlockInRegion(mem[h], regions, kinds);
    var r, d := mem[b[0]].data, mem[h].data;
    hide Batch;
    assert regions[r].size == |b| * (64 * size) && d < r + regions[r].size by { assert BlockSize(mem[h]) > 0; }
    var j := DivPlace(d - r, 64 * size, |b|);
    InBatchAt(mem, b, size, j);
    PairOf(mem, slabs, chains, home, regions, kinds, h, b[j]);
    Meet(mem[h], mem[b[j]]);
  }

  lemma InBatchAt(mem: Mem, b: seq<nat>, size: nat, j: nat)
    requires Batch(mem, b, size) && j < |b|
    ensures b[j] in b && InBatch(mem, b[j], j, |b|, mem[b[0]].data, size)
  {
  }

  /** Blocks that overlap. */
  lemma Meet(b: Block, c: Block)
    requires b.entrySz > 0 && c.entrySz > 0 && c.data <= b.data < c.data + BlockSize(c)
    ensures !BlocksApart(b, c)
  {
  }

  lemma HomedOf(mem: Mem, slabs: seq<Slab>, chains: seq<seq<nat>>, home: Home, regions: Regions, kinds: Kinds, h: nat)
    requires DataOk(mem, slabs, chains, home, regions, kinds) && h in home
    ensures Homed(mem, chains, home, regions, kinds, h)
  {
  }

  lemma PairOf(
    mem: Mem, slabs: seq<Slab>, chains: seq<seq<nat>>, home: Home, regions: Regions, kinds: Kinds, h: nat, g: nat)
    requires DataOk(mem, slabs, chains, home, regions, kinds) && h in home && g in home
    ensures PairApart(mem, h, g)
  {
  }

  lemma DivPlace(d: nat, k: nat, n: nat) returns (j: nat)
    requires k > 0 && d < n * k
    ensures j < n && j * k <= d < j * k + k
  {
    j := 0;
    while (j + 1) * k <= d
      invariant j * k <= d
      decreases d - j
    {
      MulOne(j, k);
      MulMono(1, k, j);
      j := j + 1;
    }
    MulOne(j, k);
    if j >= n { MulMono(n, j, k); }
  }

  /** The data side after a batch leaves slab `n`. */
  lemma BatchGone(
    mem: Mem, slabs: seq<Slab>, chains: seq<seq<nat>>, home: Home, regions: Regions, kinds: Kinds,
    n: nat, a: seq<nat>, b: seq<nat>, c: seq<nat>, mem': Mem, slab': Slab, regions': Regions, kinds': Kinds)
    requires n < |slabs| && n < |chains| && chains[n] == a + b + c && b != [] && b[0] in mem
    requires regions' == regions - {mem[b[0]].data} && kinds' == kinds - {mem[b[0]].data}
    requires ListOk(mem', slab', a + c) && slab'.entrySz == slabs[n].entrySz && Batched(mem', a + c, slab'.entrySz)
    requires forall h | h in home && h !in b && h in mem :: h in mem' && mem'[h] == mem[h].(next := mem'[h].next)
    requires forall h | h in home && h !in chains[n] && h in mem :: h in mem' && mem'[h] == mem[h]
    requires Batch(mem, b, slabs[n].entrySz) && DataOk(mem, slabs, chains, home, regions, kinds)
    ensures DataOk(mem', slabs[n := slab'], chains[n := a + c], WithoutHome(home, b), regions', kinds')
  {
    hide ListOk;
    hide Batched;
    hide Batch;
    var slabs', chains', home' := slabs[n := slab'], chains[n := a + c], WithoutHome(home, b);
    assert SlabOk(mem, slabs[n], chains[n], home, n);
    NoDupParts(mem, slabs[n], a, b, c);
    forall i | 0 <= i < |slabs'| ensures SlabOk(mem', slabs'[i], chains'[i], home', i) {
      OtherSlab(mem, slabs, chains, home, regions, kinds, n, a, b, c, mem', i);
    }
    forall h | h in home' ensures Homed(mem', chains', home', regions', kinds', h) {
      OtherHome(mem, slabs, chains, home, regions, kinds, n, a, b, c, mem', regions', kinds', h);
    }
    forall h, g | h in home' && g in home' ensures PairApart(mem', h, g) {
      OtherPair(mem, slabs, chains, home, regions, kinds, b, mem', h, g);
    }
    hide SlabOk;
    hide Homed;
    hide PairApart;
  }

  lemma OtherHome(
    mem: Mem, slabs: seq<Slab>, chains: seq<seq<nat>>, home: Home, regions: Regions, kinds: Kinds,
    n: nat, a: seq<nat>, b: seq<nat>, c: seq<nat>, mem': Mem, regions': Regions, kinds': Kinds, h: nat)
    requires n < |slabs| && n < |chains| && chains[n] == a + b + c && b != [] && b[0] in mem
    requires regions' == regions - {mem[b[0]].data} && kinds' == kinds - {mem[b[0]].data}
    requires forall h | h in home && h !in b && h in mem :: h in mem' && mem'[h] == mem[h].(next := mem'[h].next)
    requires Batch(mem, b, slabs[n].entrySz) && DataOk(mem, slabs, chains, home, regions, kinds)
    requires h in WithoutHome(home, b)
    ensures Homed(mem', chains[n := a + c], WithoutHome(home, b), regions', kinds', h)
  {
    hide DataOk;
    hide Batch;
    HomedOf(mem, slabs, chains, home, regions, kinds, h);
    assert forall g | g in b :: g in chains[n];
    NotInRegion(mem, slabs, chains, home, regions, kinds, n, b, h);
    hide HeaderOk;
    HeaderStays(mem[h], mem'[h], regions, kinds, mem[b[0]].data, regions', kinds');
  }

  lemma HeaderStays(b: Block, b': Block, regions: Regions, kinds: Kinds, r: nat, regions': Regions, kinds': Kinds)
    requires HeaderOk(b, regions, kinds) && b' == b.(next := b'.next) && RegionOf(b) != r
    requires regions' == regions - {r} && kinds' == kinds - {r}
    ensures HeaderOk(b', regions', kinds')
  {
  }

  lemma OtherPair(mem: Mem, slabs: seq<Slab>, chains: seq<seq<nat>>, home: Home, regions: Regions, kinds: Kinds,
                  b: seq<nat>, mem': Mem, h: nat, g: nat)
    requires forall h | h in home && h !in b && h in mem :: h in mem' && mem'[h] == mem[h].(next := mem'[h].next)
    requires DataOk(mem, slabs, chains, home, regions, kinds) && h in WithoutHome(home, b) && g in WithoutHome(home, b)
    ensures PairApart(mem', h, g)
  {
    assert Homed(mem, chains, home, regions, kinds, h) && Homed(mem, chains, home, regions, kinds, g);
    assert PairApart(mem, h, g);
    hide DataOk;
  }

  lemma NoDupParts(mem: Mem, slab: Slab, a: seq<nat>, b: seq<nat>, c: seq<nat>)
    requires ListOk(mem, slab, a + b + c)
    ensures forall h | h in a || h in c :: h !in b
    ensures forall h | h in a || h in c || h in b :: h in a + b + c
  {
    var s := a + b + c;
    forall i, j | 0 <= i < |a| && 0 <= j < |b| ensures a[i] != b[j] {
      assert s[i] == a[i] && s[|a| + j] == b[j];
    }
    forall i, j | 0 <= i < |c| && 0 <= j < |b| ensures c[i] != b[j] {
      assert s[|a| + |b| + i] == c[i] && s[|a| + j] == b[j];
    }
  }

  lemma OtherSlab(
    mem: Mem, slabs: seq<Slab>, chains: seq<seq<nat>>, home: Home, regions: Regions, kinds: Kinds,
    n: nat, a: seq<nat>, b: seq<nat>, c: seq<nat>, mem': Mem, i: nat)
    requires DataOk(mem, slabs, chains, home, regions, kinds) && n < |slabs| && i < |slabs| && chains[n] == a + b + c
    requires forall h | h in home && h !in chains[n] && h in mem :: h in mem' && mem'[h] == mem[h]
    requires forall h | h in a || h in c :: h !in b
    ensures i != n ==> SlabOk(mem', slabs[i], chains[i], WithoutHome(home, b), i)
    ensures forall h | h in a + c :: h in WithoutHome(home, b) && WithoutHome(home, b)[h] == n
  {
    assert SlabOk(mem, slabs[i], chains[i], home, i) && SlabOk(mem, slabs[n], chains[n], home, n);
    if i != n {
      forall h | h in chains[i] ensures h in mem && h in mem' && mem'[h] == mem[h] && h !in chains[n] && h !in b {
        assert h in home && home[h] == i;
      }
      ListFrame(mem, mem', slabs[i], chains[i]);
      BatchedFrame(mem, mem', chains[i], slabs[i].entrySz);
    }
  }

  lemma NotInRegion(
    mem: Mem, slabs: seq<Slab>, chains: seq<seq<nat>>, home: Home, regions: Regions, kinds: Kinds, n: nat,
    b: seq<nat>, h: nat)
    requires DataOk(mem, slabs, chains, home, regions, kinds) && n < |slabs| && n < |chains|
    requires Batch(mem, b, slabs[n].entrySz)
    requires (forall g | g in b :: g in chains[n]) && h in home && h !in b
    ensures h in mem && RegionOf(mem[h]) != mem[b[0]].data
  {
    assert SlabOk(mem, slabs[n], chains[n], home, n) && b[0] in b;
    assert Homed(mem, chains, home, regions, kinds, h) && Homed(mem, chains, home, regions, kinds, b[0]);
    if RegionOf(mem[h]) == mem[b[0]].data {
      BatchAlone(mem, slabs, chains, home, regions, kinds, b, slabs[n].entrySz, h);
    }
  }

  // ---------------------------------------------------------------------------------------
  // The invariant
  // ---------------------------------------------------------------------------------------

  /** Only blocks without a live entry are gone; the others changed in their links alone. */
  ghost predicate Reclaimed(
    mem: Mem, home: Home, regions: Regions, kinds: Kinds, mem': Mem, home': Home, regions': Regions, kinds': Kinds) {
    && (forall h | h in home' :: h in home && home'[h] == home[h])
    && (forall h | h in home && h in mem ::
          if h in home' then h in mem' && mem'[h] == mem[h].(next := mem'[h].next) else mem[h].bits == {})
    && ClientsKept(regions, kinds, regions', kinds')
    && (forall r | r in kinds' :: r in kinds && kinds'[r] == kinds[r])
  }

  lemma ReclaimedClients(
    mem: Mem, home: Home, regions: Regions, kinds: Kinds, mem': Mem, home': Home, regions': Regions, kinds': Kinds)
    requires Reclaimed(mem, home, regions, kinds, mem', home', regions', kinds')
    ensures ClientsKept(regions, kinds, regions', kinds') && (home == map[] ==> home' == map[])
  {
  }

  lemma ReclaimedTwice(
    m0: Mem, h0: Home, r0: Regions, k0: Kinds, m1: Mem, h1: Home, r1: Regions, k1: Kinds, m2: Mem, h2: Home,
    r2: Regions, k2: Kinds)
    requires Reclaimed(m0, h0, r0, k0, m1, h1, r1, k1) && Reclaimed(m1, h1, r1, k1, m2, h2, r2, k2)
    requires forall h | h in h0 :: h in m0
    ensures Reclaimed(m0, h0, r0, k0, m2, h2, r2, k2)
  {
  }

  lemma BatchFreedData(
    mem: Mem, slabs: seq<Slab>, regions: Regions, kinds: Kinds, chains: seq<seq<nat>>, home: Home,
    n: nat, a: seq<nat>, b: seq<nat>, c: seq<nat>, mem': Mem, slab': Slab, regions': Regions, kinds': Kinds)
    requires n < |slabs| && n < |chains| && chains[n] == a + b + c && b != [] && b[0] in mem
    requires (a != [] ==> Last(a) in mem)
    requires forall h | h in b :: h in mem && mem[h].bits == {}
    requires regions' == regions - {mem[b[0]].data} && kinds' == kinds - {mem[b[0]].data}
    requires forall h | h in home && h !in b && h in mem :: h in mem' && mem'[h] == Unlinked(mem, a, Head(c))[h]
    requires |b| * (64 * slabs[n].entrySz) <= slabs[n].total
    requires slab' == slabs[n].(head := Head(a + c), total := slabs[n].total - |b| * (64 * slabs[n].entrySz))
    requires Batch(mem, b, slabs[n].entrySz) && Batched(mem, a, slabs[n].entrySz) && Batched(mem, c, slabs[n].entrySz)
    requires DataOk(mem, slabs, chains, home, regions, kinds) && Covered(mem, home, kinds)
    ensures DataOk(mem', slabs[n := slab'], chains[n := a + c], WithoutHome(home, b), regions', kinds')
    ensures Covered(mem', WithoutHome(home, b), kinds')
    ensures Batched(mem', a, slabs[n].entrySz) && Batched(mem', c, slabs[n].entrySz)
    ensures forall h | h in b :: h in home
    ensures forall h | h in home :: h in mem
    ensures mem[b[0]].data in kinds && kinds[mem[b[0]].data] == BatchData
  {
    hide DataOk;
    hide Covered;
    hide Batched;
    hide Batch;
    hide ListOk;
    var slab := slabs[n];
    SlabFacts(mem, slabs, chains, home, regions, kinds, n);
    NoDupParts(mem, slab, a, b, c);
    ListShrunk(mem, slab, a, b, c);
    LastNotIn(mem, slab, a, b, c);
    ListFrame(Unlinked(mem, a, Head(c)), mem', slab', a + c);
    BatchedFrame(mem, mem', a, slab.entrySz);
    BatchedFrame(mem, mem', c, slab.entrySz);
    BatchedConcat(mem', a, c, slab.entrySz);
    HomeOutside(mem, slabs, chains, home, regions, kinds, n, a);
    BatchGone(mem, slabs, chains, home, regions, kinds, n, a, b, c, mem', slab', regions', kinds');
    FreedCovered(mem, slabs, chains, home, regions, kinds, n, b, mem', kinds');
    InBatchAt(mem, b, slab.entrySz, 0);
    FreedKinds(mem, slabs, chains, home, regions, kinds, b);
  }

  /** Empty batch `b`, between `a` and `c` in slab `n`, has left with its structures and its region. */
  lemma BatchFreed(
    mem: Mem, meta: Slab, slabs: seq<Slab>, regions: Regions, kinds: Kinds, pages: seq<nat>, used: set<nat>,
    chains: seq<seq<nat>>, home: Home, table: set<nat>, n: nat, a: seq<nat>, b: seq<nat>, c: seq<nat>,
    mem': Mem, meta': Slab, slab': Slab, regions': Regions, kinds': Kinds)
    requires n < |slabs| && n < |chains| && chains[n] == a + b + c && b != [] && b[0] in mem
    requires (a != [] ==> Last(a) in mem)
    requires forall h | h in b :: h in mem && mem[h].bits == {}
    requires regions' == regions - {mem[b[0]].data} && kinds' == kinds - {mem[b[0]].data}
    requires forall h | h in home && h !in b && h in mem :: h in mem' && mem'[h] == Unlinked(mem, a, Head(c))[h]
    requires |b| * (64 * slabs[n].entrySz) <= slabs[n].total
    requires slab' == slabs[n].(head := Head(a + c), total := slabs[n].total - |b| * (64 * slabs[n].entrySz))
    requires Batch(mem, b, slabs[n].entrySz) && Batched(mem, a, slabs[n].entrySz) && Batched(mem, c, slabs[n].entrySz)
    requires RegionsOk(regions', kinds') && MetaOk(mem', meta', pages, used - Elems(b), regions', kinds')
    requires Inv(mem, meta, slabs, regions, kinds, pages, used, chains, home, table)
    ensures Inv(mem', meta', slabs[n := slab'], regions', kinds', pages, used - Elems(b), chains[n := a + c],
                WithoutHome(home, b), table)
    ensures Batched(mem', a, slabs[n].entrySz) && Batched(mem', c, slabs[n].entrySz)
    ensures Reclaimed(mem, home, regions, kinds, mem', WithoutHome(home, b), regions', kinds')
  {
    hide MetaOk;
    hide RegionsOk;
    hide DataOk;
    hide Covered;
    hide Batched;
    hide Batch;
    BatchFreedData(mem, slabs, regions, kinds, chains, home, n, a, b, c, mem', slab', regions', kinds');
    RegionKinds(regions, kinds);
    assert WithoutHome(home, b).Keys == home.Keys - Elems(b);
  }

  lemma LastNotIn(mem: Mem, slab: Slab, a: seq<nat>, b: seq<nat>, c: seq<nat>)
    requires ListOk(mem, slab, a + b + c) && (a != [] ==> Last(a) in mem)
    ensures a != [] ==> Last(a) in a && Last(a) in a + b + c
  {
  }

  lemma HomeOutside(
    mem: Mem, slabs: seq<Slab>, chains: seq<seq<nat>>, home: Home, regions: Regions, kinds: Kinds, n: nat, a: seq<nat>)
    requires DataOk(mem, slabs, chains, home, regions, kinds) && n < |slabs|
    ensures forall h | h in home :: h in mem
    ensures forall h | h in chains[n] :: h in home
  {
    forall h | h in home ensures h in mem { HomedOf(mem, slabs, chains, home, regions, kinds, h); }
    assert SlabOk(mem, slabs[n], chains[n], home, n);
  }

  lemma FreedCovered(
    mem: Mem, slabs: seq<Slab>, chains: seq<seq<nat>>, home: Home, regions: Regions, kinds: Kinds, n: nat,
    b: seq<nat>, mem': Mem, kinds': Kinds)
    requires DataOk(mem, slabs, chains, home, regions, kinds) && Covered(mem, home, kinds) && n < |slabs|
    requires n < |chains|
    requires Batch(mem, b, slabs[n].entrySz) && (forall g | g in b :: g in chains[n])
    requires kinds' == kinds - {mem[b[0]].data}
    requires forall h | h in home && h !in b && h in mem :: h in mem' && mem'[h] == mem[h].(next := mem'[h].next)
    ensures Covered(mem', WithoutHome(home, b), kinds')
  {
    var home' := WithoutHome(home, b);
    forall r | r in kinds' && kinds'[r] == BatchData ensures HasHeader(mem', home', r) {
      assert HasHeader(mem, home, r);
      var h :| h in home && h in mem && RegionOf(mem[h]) == r;
      BatchRegion(mem, slabs, chains, home, regions, kinds, n, b, h);
      assert h in home' && h in mem' && RegionOf(mem'[h]) == r;
    }
  }

  /** The blocks of a batch have its region. */
  lemma BatchRegion(
    mem: Mem, slabs: seq<Slab>, chains: seq<seq<nat>>, home: Home, regions: Regions, kinds: Kinds, n: nat,
    b: seq<nat>, h: nat)
    requires n < |slabs| && Batch(mem, b, slabs[n].entrySz) && h in mem
    ensures h in b ==> RegionOf(mem[h]) == mem[b[0]].data
  {
    if h in b {
      var j :| 0 <= j < |b| && b[j] == h;
      InBatchAt(mem, b, slabs[n].entrySz, j);
    }
  }

  /** The region of a batch is not a client's. */
  lemma FreedKinds(
    mem: Mem, slabs: seq<Slab>, chains: seq<seq<nat>>, home: Home, regions: Regions, kinds: Kinds, b: seq<nat>)
    requires DataOk(mem, slabs, chains, home, regions, kinds) && b != [] && b[0] in home && b[0] in mem
    requires mem[b[0]].batchPos == 0
    ensures mem[b[0]].data in kinds && kinds[mem[b[0]].data] == BatchData
  {
    HomedOf(mem, slabs, chains, home, regions, kinds, b[0]);
  }

  // ---------------------------------------------------------------------------------------
  // Marking a batch
  // ---------------------------------------------------------------------------------------

  /** Blocks `i` to `j` of the batch marked as fully used. */
  ghost function Marked(mem: Mem, b: seq<nat>, i: nat, j: nat): Mem
    requires i <= j <= |b|
  {
    map h | h in mem :: if h in b[i..j] then mem[h].(bits := ALL_BITS) else mem[h]
  }

  /** The blocks of a batch as maybe_free_batch walks them. */
  ghost predicate Walk(mem: Mem, b: seq<nat>) {
    && NoDup(b) && (forall j | 0 <= j < |b| :: b[j] in mem)
    && (forall j | 0 <= j < |b| - 1 :: mem[b[j]].next == b[j + 1])
  }

  lemma MarkNext(mem: Mem, b: seq<nat>, j: nat)
    requires Walk(mem, b) && j < |b|
    ensures Marked(mem, b, 0, j + 1) == Marked(mem, b, 0, j)[b[j] := mem[b[j]].(bits := ALL_BITS)]
    ensures Marked(mem, b, 0, j)[b[j]] == mem[b[j]]
  {
    assert b[0..j + 1] == b[0..j] + [b[j]];
    assert b[j] !in b[0..j];
  }

  lemma UnmarkNext(mem: Mem, b: seq<nat>, i: nat, j: nat)
    requires Walk(mem, b) && i < j <= |b| && mem[b[i]].bits == {}
    ensures Marked(mem, b, i, j)[b[i]] == mem[b[i]].(bits := ALL_BITS)
    ensures Marked(mem, b, i + 1, j) == Marked(mem, b, i, j)[b[i] := mem[b[i]]]
  {
    assert b[i..j] == [b[i]] + b[i + 1..j];
    assert b[i] !in b[i + 1..j];
  }

  lemma MarkedNone(mem: Mem, b: seq<nat>, i: nat)
    requires i <= |b|
    ensures Marked(mem, b, i, i) == mem
  {
  }

  lemma BatchWalk(mem: Mem, slab: Slab, a: seq<nat>, b: seq<nat>, c: seq<nat>)
    requires ListOk(mem, slab, a + b + c) && b != []
    ensures Walk(mem, b) && mem[Last(b)].next == Head(c)
  {
    var s := a + b + c;
    forall j | 0 <= j < |b| ensures b[j] in mem && (j < |b| - 1 ==> mem[b[j]].next == b[j + 1]) {
      assert LinkOk(mem, s, |a| + j) && s[|a| + j] == b[j];
      assert j < |b| - 1 ==> s[|a| + j + 1] == b[j + 1];
    }
    forall i, j | 0 <= i < j < |b| ensures b[i] != b[j] {
      assert s[|a| + i] == b[i] && s[|a| + j] == b[j];
    }
    assert LinkOk(mem, s, |a| + |b| - 1) && s[|a| + |b| - 1] == Last(b);
    assert c != [] ==> s[|a| + |b|] == c[0];
  }

  // ---------------------------------------------------------------------------------------
  // What a reclaim keeps
  // ---------------------------------------------------------------------------------------

  /** Splitting the first batch off a list. */
  lemma FirstBatch(mem: Mem, s: seq<nat>, size: nat)
    requires Batched(mem, s, size) && s != []
    ensures s[0] in mem
    ensures var n := mem[s[0]].batchSz;
            0 < n <= |s| && Batch(mem, s[..n], size) && Batched(mem, s[n..], size) && s == s[..n] + s[n..]
  {
    hide Batch;
    var n := mem[s[0]].batchSz;
    assert s == s[..n] + s[n..];
  }

  lemma KeptStep(mem: Mem, s: seq<nat>, size: nat)
    requires Batched(mem, s, size) && s != [] && forall h | h in s :: h in mem
    ensures var n := mem[s[0]].batchSz;
            && 0 < n <= |s| && Batched(mem, s[n..], size) && (forall h | h in s[n..] :: h in mem)
            && Kept(mem, s, size) == (if AnyLive(mem, s[..n]) then s[..n] else []) + Kept(mem, s[n..], size)
  {
    var n := mem[s[0]].batchSz;
    assert forall h | h in s[..n] || h in s[n..] :: h in s;
    assert EmptyBlocks(mem, s[..n]) <==> !AnyLive(mem, s[..n]) by {
      assert forall j | 0 <= j < n :: s[..n][j] in s[..n];
    }
  }

  /** Blocks that changed in their links only are live in the same way. */
  lemma SameAnyLive(mem: Mem, mem': Mem, b: seq<nat>)
    requires forall h | h in b :: h in mem && h in mem' && mem'[h].bits == mem[h].bits
    ensures AnyLive(mem, b) <==> AnyLive(mem', b)
  {
    if AnyLive(mem, b) {
      var j :| 0 <= j < |b| && b[j] in mem && mem[b[j]].bits != {};
      assert b[j] in b;
    }
    if AnyLive(mem', b) {
      var j :| 0 <= j < |b| && b[j] in mem' && mem'[b[j]].bits != {};
      assert b[j] in b;
    }
  }

  lemma SelfReclaimed(mem: Mem, home: Home, regions: Regions, kinds: Kinds)
    ensures Reclaimed(mem, home, regions, kinds, mem, home, regions, kinds)
  {
    assert forall h | h in home && h in mem :: mem[h] == mem[h].(next := mem[h].next);
  }

  /**
   A sweep over list `s0` in progress: `a` is what was kept so far and `s` is still to come,
   where blocks differ from the start in their links only.
   */
  ghost predicate Sweep(mem0: Mem, s0: seq<nat>, mem: Mem, a: seq<nat>, s: seq<nat>, size: nat) {
    && Batched(mem0, s0, size) && (forall h | h in s0 :: h in mem0)
    && Batched(mem, a, size) && Batched(mem, s, size) && Batched(mem0, s, size)
    && (forall h | h in s :: h in mem0 && h in mem && mem[h] == mem0[h].(next := mem[h].next))
    && Kept(mem0, s0, size) == a + Kept(mem0, s, size)
  }

  lemma SweepStart(mem: Mem, s: seq<nat>, size: nat)
    requires Batched(mem, s, size) && forall h | h in s :: h in mem
    ensures Sweep(mem, s, mem, [], s, size)
  {
    hide Batch;
    assert [] + Kept(mem, s, size) == Kept(mem, s, size);
  }

  lemma SweepFirst(mem0: Mem, s0: seq<nat>, mem: Mem, a: seq<nat>, s: seq<nat>, size: nat)
    requires Sweep(mem0, s0, mem, a, s, size) && s != []
    ensures s[0] in mem
    ensures var n := mem[s[0]].batchSz;
            && 0 < n <= |s| && Batch(mem, s[..n], size) && Batched(mem, s[n..], size) && Batched(mem, a, size)
            && a + s == a + s[..n] + s[n..]
  {
    hide Batch;
    hide Kept;
    FirstBatch(mem, s, size);
  }

  lemma SweepKeeps(mem0: Mem, s0: seq<nat>, mem: Mem, a: seq<nat>, s: seq<nat>, size: nat, n: nat)
    requires Sweep(mem0, s0, mem, a, s, size) && s != [] && s[0] in mem && n == mem[s[0]].batchSz <= |s|
    requires AnyLive(mem, s[..n])
    ensures Sweep(mem0, s0, mem, a + s[..n], s[n..], size)
  {
    hide Batch;
    hide Batched;
    hide Kept;
    FirstBatch(mem, s, size);
    KeptStep(mem0, s, size);
    var b, c := s[..n], s[n..];
    assert forall h | h in b || h in c :: h in s;
    SameAnyLive(mem0, mem, b);
    OneBatch(mem, b, size);
    BatchedConcat(mem, a, b, size);
    assert a + (b + Kept(mem0, c, size)) == (a + b) + Kept(mem0, c, size);
  }

  lemma SweepFrees(mem0: Mem, s0: seq<nat>, mem: Mem, a: seq<nat>, s: seq<nat>, size: nat, n: nat, mem': Mem)
    requires Sweep(mem0, s0, mem, a, s, size) && s != [] && s[0] in mem && n == mem[s[0]].batchSz <= |s|
    requires !AnyLive(mem, s[..n])
    requires Batched(mem', a, size) && Batched(mem', s[n..], size)
    requires forall h | h in s[n..] :: h in mem && h in mem' && mem'[h] == mem[h].(next := mem'[h].next)
    ensures Sweep(mem0, s0, mem', a, s[n..], size)
  {
    hide Batch;
    hide Batched;
    hide Kept;
    KeptStep(mem0, s, size);
    var b, c := s[..n], s[n..];
    assert forall h | h in b || h in c :: h in s;
    SameAnyLive(mem0, mem, b);
    assert [] + Kept(mem0, c, size) == Kept(mem0, c, size);
  }

  lemma SweepEnd(mem0: Mem, s0: seq<nat>, mem: Mem, a: seq<nat>, size: nat)
    requires Sweep(mem0, s0, mem, a, [], size)
    ensures Batched(mem0, s0, size) && (forall h | h in s0 :: h in mem0) && a == Kept(mem0, s0, size)
  {
    assert a + [] == a;
  }

  /** What a reclaim keeps does not depend on the links. */
  lemma {:induction false} KeptFrame(mem: Mem, mem': Mem, s: seq<nat>, size: nat)
    requires Batched(mem, s, size)
    requires forall h | h in s :: h in mem && h in mem' && mem'[h] == mem[h].(next := mem'[h].next)
    ensures Batched(mem', s, size) && Kept(mem', s, size) == Kept(mem, s, size)
    decreases |s|
  {
    BatchedFrame(mem, mem', s, size);
    if s != [] {
      KeptStep(mem, s, size);
      KeptStep(mem', s, size);
      var n := mem[s[0]].batchSz;
      assert s[0] in s && forall h | h in s[..n] || h in s[n..] :: h in s;
      SameAnyLive(mem, mem', s[..n]);
      KeptFrame(mem, mem', s[n..], size);
    }
  }
}
