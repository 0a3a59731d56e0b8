/** Batches of blocks joining a slab and leaving it. */
module FrusaBatch {
  import opened Arithmetic
  import opened FrusaList
  import opened FrusaMem

  // ---------------------------------------------------------------------------------------
  // Sizes
  // ---------------------------------------------------------------------------------------

  /** The entry size of slab `n`. */
  function EntrySize(n: nat): (k: nat)
    ensures k >= 16
  {
    16 * Pow2(n)
  }

  /** How much add_blocks_to_locked_slab asks for. */
  function AllocSize(blockSz: nat, total: nat): nat {
    if blockSz <= PAGE_4K then (if total < 8 * blockSz then PAGE_4K else 8 * PAGE_4K)
    else if blockSz <= 64 * PAGE_4K then blockSz
    else if blockSz < PAGE_2M then PAGE_2M
    else blockSz
  }

  lemma Pow2Values()
    ensures Pow2(2) == 4 && Pow2(3) == 8 && Pow2(8) == 256 && Pow2(11) == 2048 && Pow2(12) == 4096 && Pow2(17) == 131072
    ensures Pow2(18) == 262144 && Pow2(21) == 2097152
  {
    assert Pow2(2) == 4;
    assert Pow2(4) == 16;
    assert Pow2(6) == 64;
    assert Pow2(8) == 256;
    assert Pow2(10) == 1024;
    assert Pow2(11) == 2048;
    assert Pow2(12) == 4096;
    assert Pow2(14) == 16384;
    assert Pow2(16) == 65536;
    assert Pow2(17) == 131072;
    assert Pow2(19) == 524288;
    assert Pow2(21) == 2097152;
  }

  /** A region asked for is a whole number of blocks, fewer than 2^16. */
  lemma WholeBlocks(n: nat, total: nat)
    ensures var blockSz := 64 * EntrySize(n);
            var size := AllocSize(blockSz, total);
            && 0 < size / blockSz < 65536 && size / blockSz * blockSz == size
  {
    var blockSz := 64 * EntrySize(n);
    var size := AllocSize(blockSz, total);
    assert blockSz == 1024 * Pow2(n);
    Pow2Values();
    assert Pow2(0) == 1 && Pow2(1) == 2 && Pow2(9) == 512 && Pow2(10) == 1024;
    hide Pow2;
    var m := if n == 0 then size / 1024 else if n == 1 then size / 2048 else if n == 2 then size / 4096
             else if n == 9 then 4 else if n == 10 then 2 else 1;
    if 3 <= n <= 8 {
      Pow2Mono(3, n);
      Pow2Mono(n, 8);
    } else if n >= 12 {
      Pow2Mono(12, n);
    }
    assert size == m * blockSz && 0 < m <= 32;
    Quotient(m, blockSz);
  }

  lemma Quotient(m: nat, k: nat)
    requires k > 0
    ensures m * k / k == m
  {
    var q := m * k / k;
    assert m * k == q * k + m * k % k;
    if q < m { Spaced(q, m, k); } else if m < q { Spaced(m, q, k); }
  }

  lemma AlignDivides(n: nat, size: nat)
    requires n <= 17 && (n <= 8 || size >= PAGE_2M)
    ensures AlignFor(size) % EntrySize(n) == 0
  {
    Pow2Values();
    hide Pow2;
    if n <= 8 {
      Divides(n, 8);
      Divides(n, 17);
    } else {
      Divides(n, 17);
    }
  }

  lemma LargeEntry(n: nat)
    requires n >= 9
    ensures 64 * EntrySize(n) > 64 * PAGE_4K
  {
    assert Pow2(9) == 512;
    Pow2Mono(9, n);
  }

  /** Every entry of a block is aligned to the entry size, up to 2M. */
  lemma EntryAligned(n: nat, b: Block, regions: Regions, kinds: Kinds, bit: nat)
    requires n <= 17 && b.entrySz == EntrySize(n) && HeaderOk(b, regions, kinds) && RegionsOk(regions, kinds)
    requires bit < 64
    ensures AddressOf(b, bit) % b.entrySz == 0
  {
    hide EntrySize;
    var k, r := b.entrySz, RegionOf(b);
    var align := regions[r].align;
    if n >= 9 { LargeEntry(n); }
    AlignDivides(n, regions[r].size);
    assert r % align == 0 && align % k == 0;
    assert AddressOf(b, bit) == r + b.batchPos * (64 * k) + bit * k;
    hide RegionsOk;
    hide HeaderOk;
    AlignedSum(r, align, k, b.batchPos, bit);
  }

  lemma AlignedSum(r: nat, align: nat, k: nat, pos: nat, bit: nat)
    requires k > 0 && align > 0 && r % align == 0 && align % k == 0
    ensures (r + pos * (64 * k) + bit * k) % k == 0
  {
    var q, a := r / align, align / k;
    assert r == align * q && align == k * a;
    Regroup(k, a, q, pos, bit);
    ModOfMul(a * q + 64 * pos + bit, k);
  }

  lemma Regroup(k: nat, a: nat, q: nat, pos: nat, bit: nat)
    ensures k * a * q + pos * (64 * k) + bit * k == (a * q + 64 * pos + bit) * k
  {
  }

  lemma ModOfMul(n: nat, k: nat)
    requires k > 0
    ensures n * k % k == 0
  {
    var q, r := n * k / k, n * k % k;
    assert n * k == q * k + r;
    if q < n { Spaced(q, n, k); } else if n < q { Spaced(n, q, k); }
  }

  lemma Divides(n: nat, m: nat)
    requires n <= m
    ensures 16 * Pow2(m) % EntrySize(n) == 0
  {
    Pow2Add(m - n, n);
    var d := Pow2(m - n);
    assert 16 * Pow2(m) == d * EntrySize(n);
    ModOfMul(d, EntrySize(n));
  }

  // ---------------------------------------------------------------------------------------
  // A batch joins a slab
  // ---------------------------------------------------------------------------------------

  /** The block structures of a new batch, as far as they are made. */
  ghost predicate Made(mem: Mem, hs: seq<nat>, j: nat, num: nat, r: nat, size: nat, last: nat)
    requires j < |hs|
  {
    hs[j] in mem && mem[hs[j]] == Block(size, j, num, {}, r + j * (64 * size), if j + 1 < |hs| then hs[j + 1] else last)
  }

  ghost predicate AllMade(mem: Mem, hs: seq<nat>, num: nat, r: nat, size: nat, last: nat) {
    forall j | 0 <= j < |hs| :: Made(mem, hs, j, num, r, size, last)
  }

  ghost function WithHome(home: Home, hs: seq<nat>, n: nat): Home {
    map h | h in home.Keys + Elems(hs) :: if h in hs then n else home[h]
  }

  ghost function Elems(hs: seq<nat>): set<nat> {
    set h | h in hs
  }

  lemma {:induction false} UsedZero(mem: Mem, hs: seq<nat>)
    requires forall h | h in hs :: h in mem && mem[h].bits == {}
    ensures Used(mem, hs) == 0
    decreases |hs|
  {
    if hs != [] {
      assert hs[0] in hs && forall h | h in hs[1..] :: h in hs;
      UsedZero(mem, hs[1..]);
    }
  }

  lemma MadeBatch(mem: Mem, hs: seq<nat>, r: nat, size: nat, last: nat)
    requires hs != [] && AllMade(mem, hs, |hs|, r, size, last)
    ensures Batched(mem, hs, size) && (forall h | h in hs :: h in mem && mem[h].bits == {} && mem[h].entrySz == size)
  {
    assert Made(mem, hs, 0, |hs|, r, size, last);
    forall j | 0 <= j < |hs| ensures InBatch(mem, hs[j], j, |hs|, mem[hs[0]].data, size) {
      assert Made(mem, hs, j, |hs|, r, size, last);
    }
    forall h | h in hs ensures h in mem && mem[h].bits == {} && mem[h].entrySz == size {
      var j :| 0 <= j < |hs| && hs[j] == h;
      assert Made(mem, hs, j, |hs|, r, size, last);
    }
    OneBatch(mem, hs, size);
  }

  /** The list and counters of a slab with a batch put in front. */
  lemma ListGrown(mem: Mem, slab: Slab, s: seq<nat>, hs: seq<nat>, r: nat, mem': Mem, slab': Slab)
    requires ListOk(mem, slab, s) && Batched(mem, s, slab.entrySz) && hs != [] && NoDup(hs)
    requires (forall h | h in hs :: h !in s && h != 0) && forall h | h in s :: h in mem' && mem'[h] == mem[h]
    requires AllMade(mem', hs, |hs|, r, slab.entrySz, slab.head)
    requires slab' == slab.(head := hs[0], total := slab.total + |hs| * (64 * slab.entrySz))
    ensures ListOk(mem', slab', hs + s) && Batched(mem', hs + s, slab.entrySz)
  {
    var t, size := hs + s, slab.entrySz;
    MadeBatch(mem', hs, r, size, slab.head);
    UsedZero(mem', hs);
    ListFrame(mem, mem', slab, s);
    UsedConcat(mem', hs, s);
    BatchedFrame(mem, mem', s, size);
    BatchedConcat(mem', hs, s, size);
    forall i | 0 <= i < |t| ensures LinkOk(mem', t, i) {
      if i < |hs| {
        assert Made(mem', hs, i, |hs|, r, size, slab.head) && hs[i] in hs;
      } else {
        assert LinkOk(mem, s, i - |hs|) && s[i - |hs|] in s;
      }
    }
    forall i, j | 0 <= i < j < |t| ensures t[i] != t[j] {
      if i < |hs| <= j { assert hs[i] in hs && s[j - |hs|] in s; }
    }
    Distribute(|hs|, |s|, size);
  }

  lemma Distribute(a: nat, b: nat, k: nat)
    ensures 64 * (a + b) * k == 64 * b * k + a * (64 * k)
  {
  }

  /** The structure of a new block is right for its region. */
  lemma MadeHeader(mem: Mem, hs: seq<nat>, j: nat, r: nat, size: nat, last: nat, regions: Regions, kinds: Kinds)
    requires j < |hs| && Made(mem, hs, j, |hs|, r, size, last) && size > 0 && r > 0
    requires r in regions && r in kinds && kinds[r] == BatchData
    requires regions[r] == Region(|hs| * (64 * size), AlignFor(|hs| * (64 * size)))
    requires 64 * size <= 64 * PAGE_4K || |hs| * (64 * size) >= PAGE_2M
    ensures HeaderOk(mem[hs[j]], regions, kinds) && RegionOf(mem[hs[j]]) == r
  {
    assert BlockSize(mem[hs[j]]) == 64 * size;
  }

  /** Blocks of one batch do not overlap. */
  lemma MadeApart(mem: Mem, hs: seq<nat>, i: nat, j: nat, r: nat, size: nat, last: nat)
    requires i < |hs| && j < |hs| && i != j && Made(mem, hs, i, |hs|, r, size, last)
    requires Made(mem, hs, j, |hs|, r, size, last)
    ensures BlocksApart(mem[hs[i]], mem[hs[j]])
  {
    if i < j { Spaced(i, j, 64 * size); } else { Spaced(j, i, 64 * size); }
  }

  /** Blocks of different regions do not overlap. */
  lemma RegionsKeepApart(b: Block, c: Block, regions: Regions, kinds: Kinds)
    requires RegionsOk(regions, kinds) && HeaderOk(b, regions, kinds) && HeaderOk(c, regions, kinds)
    requires RegionOf(b) != RegionOf(c)
    ensures BlocksApart(b, c) && BlocksApart(c, b)
  {
    BlockInRegion(b, regions, kinds);
    BlockInRegion(c, regions, kinds);
    assert RegionsApart(regions, RegionOf(b), RegionOf(c));
  }

  /** The data side with a batch put in front of slab `n`. */
  lemma BatchAdded(
    mem: Mem, slabs: seq<Slab>, chains: seq<seq<nat>>, home: Home, regions: Regions, kinds: Kinds,
    n: nat, hs: seq<nat>, r: nat, mem': Mem, slab': Slab)
    requires n < |slabs| && n < |chains| && hs != [] && NoDup(hs) && (forall h | h in hs :: h !in home && h != 0)
    requires forall h | h in home && h in mem :: h in mem' && mem'[h] == mem[h]
    requires r > 0 && r in regions && r in kinds && kinds[r] == BatchData
    requires var size := slabs[n].entrySz;
             && AllMade(mem', hs, |hs|, r, size, slabs[n].head)
             && regions[r] == Region(|hs| * (64 * size), AlignFor(|hs| * (64 * size)))
             && (64 * size <= 64 * PAGE_4K || |hs| * (64 * size) >= PAGE_2M)
             && slab' == slabs[n].(head := hs[0], total := slabs[n].total + |hs| * (64 * size))
    requires forall h | h in home && h in mem :: RegionOf(mem[h]) != r
    requires RegionsOk(regions, kinds) && DataOk(mem, slabs, chains, home, regions, kinds)
    ensures DataOk(mem', slabs[n := slab'], chains[n := hs + chains[n]], WithHome(home, hs, n), regions, kinds)
  {
    var size, last := slabs[n].entrySz, slabs[n].head;
    var slabs', chains', home' := slabs[n := slab'], chains[n := hs + chains[n]], WithHome(home, hs, n);
    assert SlabOk(mem, slabs[n], chains[n], home, n);
    ListGrown(mem, slabs[n], chains[n], hs, r, mem', slab');
    hide ListOk;
    hide Batched;
    forall i | 0 <= i < |slabs'| ensures SlabOk(mem', slabs'[i], chains'[i], home', i) {
      SlabKept(mem, slabs, chains, home, regions, kinds, mem', hs, n, i);
    }
    forall h | h in home' ensures Homed(mem', chains', home', regions, kinds, h) {
      HomeKept(mem, slabs, chains, home, regions, kinds, mem', hs, n, r, h);
    }
    forall h, g | h in home' && g in home' ensures PairApart(mem', h, g) {
      PairKept(mem, slabs, chains, home, regions, kinds, mem', hs, n, r, h, g);
    }
  }

  lemma SlabKept(mem: Mem, slabs: seq<Slab>, chains: seq<seq<nat>>, home: Home, regions: Regions, kinds: Kinds,
                 mem': Mem, hs: seq<nat>, n: nat, i: nat)
    requires DataOk(mem, slabs, chains, home, regions, kinds) && n < |slabs| && i < |slabs|
    requires forall h | h in home && h in mem :: h in mem' && mem'[h] == mem[h]
    requires forall h | h in hs :: h !in home
    ensures i != n ==> SlabOk(mem', slabs[i], chains[i], WithHome(home, hs, n), i)
    ensures forall h | h in hs + chains[n] :: h in WithHome(home, hs, n) && WithHome(home, hs, n)[h] == n
  {
    assert SlabOk(mem, slabs[i], chains[i], home, i) && SlabOk(mem, slabs[n], chains[n], home, n);
    ListFrame(mem, mem', slabs[i], chains[i]);
    BatchedFrame(mem, mem', chains[i], slabs[i].entrySz);
  }

  lemma HomeKept(mem: Mem, slabs: seq<Slab>, chains: seq<seq<nat>>, home: Home, regions: Regions, kinds: Kinds,
                 mem': Mem, hs: seq<nat>, n: nat, r: nat, h: nat)
    requires DataOk(mem, slabs, chains, home, regions, kinds) && n < |slabs| && hs != []
    requires forall h | h in home && h in mem :: h in mem' && mem'[h] == mem[h]
    requires forall h | h in hs :: h !in home
    requires r > 0 && r in regions && r in kinds && kinds[r] == BatchData
    requires var size := slabs[n].entrySz;
             && AllMade(mem', hs, |hs|, r, size, slabs[n].head)
             && regions[r] == Region(|hs| * (64 * size), AlignFor(|hs| * (64 * size)))
             && (64 * size <= 64 * PAGE_4K || |hs| * (64 * size) >= PAGE_2M)
    requires h in WithHome(home, hs, n)
    ensures Homed(mem', chains[n := hs + chains[n]], WithHome(home, hs, n), regions, kinds, h)
    ensures h in hs ==> h in mem' && RegionOf(mem'[h]) == r
  {
    assert SlabOk(mem, slabs[n], chains[n], home, n);
    if h in hs {
      var j :| 0 <= j < |hs| && hs[j] == h;
      assert Made(mem', hs, j, |hs|, r, slabs[n].entrySz, slabs[n].head);
      MadeHeader(mem', hs, j, r, slabs[n].entrySz, slabs[n].head, regions, kinds);
    } else {
      assert Homed(mem, chains, home, regions, kinds, h);
    }
  }

  lemma PairKept(mem: Mem, slabs: seq<Slab>, chains: seq<seq<nat>>, home: Home, regions: Regions, kinds: Kinds,
                 mem': Mem, hs: seq<nat>, n: nat, r: nat, h: nat, g: nat)
    requires DataOk(mem, slabs, chains, home, regions, kinds) && RegionsOk(regions, kinds) && n < |slabs| && hs != []
    requires forall h | h in home && h in mem :: h in mem' && mem'[h] == mem[h]
    requires forall h | h in hs :: h !in home
    requires r > 0 && r in regions && r in kinds && kinds[r] == BatchData
    requires var size := slabs[n].entrySz;
             && AllMade(mem', hs, |hs|, r, size, slabs[n].head)
             && regions[r] == Region(|hs| * (64 * size), AlignFor(|hs| * (64 * size)))
             && (64 * size <= 64 * PAGE_4K || |hs| * (64 * size) >= PAGE_2M)
    requires forall h | h in home && h in mem :: RegionOf(mem[h]) != r
    requires h in WithHome(home, hs, n) && g in WithHome(home, hs, n)
    ensures PairApart(mem', h, g)
  {
    HomeKept(mem, slabs, chains, home, regions, kinds, mem', hs, n, r, h);
    HomeKept(mem, slabs, chains, home, regions, kinds, mem', hs, n, r, g);
    assert h !in hs ==> Homed(mem, chains, home, regions, kinds, h);
    assert g !in hs ==> Homed(mem, chains, home, regions, kinds, g);
    if h != g {
      if h in hs && g in hs {
        var i :| 0 <= i < |hs| && hs[i] == h;
        var j :| 0 <= j < |hs| && hs[j] == g;
        assert Made(mem', hs, i, |hs|, r, slabs[n].entrySz, slabs[n].head);
        assert Made(mem', hs, j, |hs|, r, slabs[n].entrySz, slabs[n].head);
        MadeApart(mem', hs, i, j, r, slabs[n].entrySz, slabs[n].head);
      } else if h in hs || g in hs {
        RegionsKeepApart(mem'[h], mem'[g], regions, kinds);
      } else {
        assert PairApart(mem, h, g);
      }
    }
  }

  // ---------------------------------------------------------------------------------------
  // The invariant
  // ---------------------------------------------------------------------------------------

  ghost predicate HasHeader(mem: Mem, home: Home, r: nat) {
    exists h :: h in home && h in mem && RegionOf(mem[h]) == r
  }

  /** No data region is lost: each belongs to a block of a slab. */
  ghost predicate Covered(mem: Mem, home: Home, kinds: Kinds) {
    forall r | r in kinds && kinds[r] == BatchData :: HasHeader(mem, home, r)
  }

  ghost predicate Sizes(slabs: seq<Slab>) {
    forall n | 0 <= n < |slabs| :: slabs[n].entrySz == EntrySize(n)
  }

  /**
   Between operations: metadata entries in use are exactly the structures of the data blocks and
   the array of slabs.
   */
  ghost predicate Inv(
    mem: Mem, meta: Slab, slabs: seq<Slab>, regions: Regions, kinds: Kinds, pages: seq<nat>, used: set<nat>,
    chains: seq<seq<nat>>, home: Home, table: set<nat>)
  {
    && RegionsOk(regions, kinds) && MetaOk(mem, meta, pages, used, regions, kinds)
    && DataOk(mem, slabs, chains, home, regions, kinds) && Sizes(slabs)
    && used == home.Keys + table && home.Keys !! table && Covered(mem, home, kinds)
  }

  /** Blocks and clients' regions that were there stay as they were. */
  ghost predicate Undisturbed(
    mem: Mem, home: Home, regions: Regions, kinds: Kinds, mem': Mem, home': Home, regions': Regions, kinds': Kinds) {
    && (forall h | h in home && h in mem :: h in home' && home'[h] == home[h] && h in mem' && mem'[h] == mem[h])
    && (forall h | h in home' && h !in home :: h in mem' && mem'[h].bits == {})
    && ClientsKept(regions, kinds, regions', kinds')
  }

  ghost predicate ClientsKept(regions: Regions, kinds: Kinds, regions': Regions, kinds': Kinds) {
    && (forall r | r in regions && r in kinds && kinds[r] == Client ::
          r in regions' && r in kinds' && regions'[r] == regions[r] && kinds'[r] == Client)
    && (forall r | r in kinds' && kinds'[r] == Client :: r in kinds && kinds[r] == Client)
  }

  lemma ClientsKeptTwice(r0: Regions, k0: Kinds, r1: Regions, k1: Kinds, r2: Regions, k2: Kinds)
    requires ClientsKept(r0, k0, r1, k1) && ClientsKept(r1, k1, r2, k2)
    ensures ClientsKept(r0, k0, r2, k2)
  {
  }

  lemma UndisturbedClients(
    mem: Mem, home: Home, regions: Regions, kinds: Kinds, mem': Mem, home': Home, regions': Regions, kinds': Kinds)
    requires Undisturbed(mem, home, regions, kinds, mem', home', regions', kinds')
    ensures ClientsKept(regions, kinds, regions', kinds')
  {
  }

  /** Live allocations are the same, and at the same addresses. */
  lemma SameLive(
    mem: Mem, home: Home, regions: Regions, kinds: Kinds, mem': Mem, home': Home, regions': Regions, kinds': Kinds,
    e: Entry)
    requires Undisturbed(mem, home, regions, kinds, mem', home', regions', kinds') && forall h | h in home :: h in mem
    ensures Live(mem, home, e) <==> Live(mem', home', e)
    ensures Live(mem, home, e) ==> AddressOf(mem'[e.h], e.bit) == AddressOf(mem[e.h], e.bit)
  {
  }

  /** What the invariant says of one slab. */
  lemma SlabFacts(mem: Mem, slabs: seq<Slab>, chains: seq<seq<nat>>, home: Home, regions: Regions, kinds: Kinds, n: nat)
    requires DataOk(mem, slabs, chains, home, regions, kinds) && n < |slabs|
    ensures |chains| == |slabs| && SlabOk(mem, slabs[n], chains[n], home, n)
    ensures forall h | h in chains[n] :: h in mem && mem[h].data > 0
  {
    assert SlabOk(mem, slabs[n], chains[n], home, n);
    forall h | h in chains[n] ensures h in mem && mem[h].data > 0 {
      assert Homed(mem, chains, home, regions, kinds, h);
      BlockInRegion(mem[h], regions, kinds);
    }
  }

  lemma FreshIsFree(
    mem: Mem, slabs: seq<Slab>, chains: seq<seq<nat>>, home: Home, regions: Regions, kinds: Kinds, n: nat)
    requires DataOk(mem, slabs, chains, home, regions, kinds) && n < |slabs| && n < |chains| && chains[n] != []
    requires chains[n][0] in mem && mem[chains[n][0]].bits == {}
    ensures (forall h | h in chains[n] :: h in mem) && HasFree(mem, chains[n])
  {
    SlabFacts(mem, slabs, chains, home, regions, kinds, n);
    assert FirstFree(mem[chains[n][0]].bits, 0) < 64;
  }

  /** A growth that failed: metadata pages may have been added, nothing else. */
  lemma GrowthFailed(
    mem: Mem, meta: Slab, slabs: seq<Slab>, regions: Regions, kinds: Kinds, pages: seq<nat>, used: set<nat>,
    chains: seq<seq<nat>>, home: Home, table: set<nat>,
    mem': Mem, meta': Slab, regions': Regions, kinds': Kinds, pages': seq<nat>)
    requires Inv(mem, meta, slabs, regions, kinds, pages, used, chains, home, table)
    requires RegionsOk(regions', kinds') && MetaOk(mem', meta', pages', used, regions', kinds')
    requires forall a | a in used && a in mem :: a in mem' && mem'[a] == mem[a]
    requires forall r | r in kinds :: r in kinds' && kinds'[r] == kinds[r]
    requires forall r | r in regions :: r in regions' && regions'[r] == regions[r]
    requires forall r | r in kinds' && r !in kinds :: kinds'[r] == Page
    ensures Inv(mem', meta', slabs, regions', kinds', pages', used, chains, home, table)
    ensures Undisturbed(mem, home, regions, kinds, mem', home, regions', kinds')
  {
    hide MetaOk;
    hide RegionsOk;
    hide DataOk;
    hide Covered;
    DataFrame(mem, mem', slabs, chains, home, regions, kinds, regions', kinds');
    HomeInMem(mem, slabs, chains, home, regions, kinds);
    CoveredKept(mem, mem', home, kinds, kinds');
    RegionKinds(regions, kinds);
    RegionKinds(regions', kinds');
  }

  lemma HomeInMem(mem: Mem, slabs: seq<Slab>, chains: seq<seq<nat>>, home: Home, regions: Regions, kinds: Kinds)
    requires DataOk(mem, slabs, chains, home, regions, kinds)
    ensures forall h | h in home :: h in mem
  {
    forall h | h in home ensures h in mem {
      assert Homed(mem, chains, home, regions, kinds, h);
    }
  }

  lemma CoveredKept(mem: Mem, mem': Mem, home: Home, kinds: Kinds, kinds': Kinds)
    requires Covered(mem, home, kinds) && forall h | h in home && h in mem :: h in mem' && mem'[h] == mem[h]
    requires forall r | r in kinds' && kinds'[r] == BatchData :: r in kinds && kinds[r] == BatchData
    ensures Covered(mem', home, kinds')
  {
    forall r | r in kinds' && kinds'[r] == BatchData ensures HasHeader(mem', home, r) {
      assert HasHeader(mem, home, r);
    }
  }

  /** A growth that succeeded: a batch of empty blocks `hs` on region `r`. */
  lemma GrowthDone(
    mem: Mem, meta: Slab, slabs: seq<Slab>, regions: Regions, kinds: Kinds, pages: seq<nat>, used: set<nat>,
    chains: seq<seq<nat>>, home: Home, table: set<nat>, n: nat, hs: seq<nat>, r: nat,
    mem': Mem, meta': Slab, slab': Slab, regions': Regions, kinds': Kinds, pages': seq<nat>)
    requires n < |slabs| && n < |chains| && hs != [] && NoDup(hs) && (forall h | h in hs :: h !in used && h != 0)
    requires r > 0 && r !in regions && r in regions' && r in kinds' && kinds'[r] == BatchData
    requires var size := slabs[n].entrySz;
             && AllMade(mem', hs, |hs|, r, size, slabs[n].head)
             && regions'[r] == Region(|hs| * (64 * size), AlignFor(|hs| * (64 * size)))
             && (64 * size <= 64 * PAGE_4K || |hs| * (64 * size) >= PAGE_2M)
             && slab' == slabs[n].(head := hs[0], total := slabs[n].total + |hs| * (64 * size))
    requires forall a | a in used && a in mem :: a in mem' && mem'[a] == mem[a]
    requires forall r | r in kinds :: r in kinds' && kinds'[r] == kinds[r]
    requires forall r | r in regions :: r in regions' && regions'[r] == regions[r]
    requires forall q | q in kinds' && q !in kinds :: kinds'[q] == if q == r then BatchData else Page
    requires RegionsOk(regions', kinds') && MetaOk(mem', meta', pages', used + Elems(hs), regions', kinds')
    requires Inv(mem, meta, slabs, regions, kinds, pages, used, chains, home, table)
    ensures Inv(mem', meta', slabs[n := slab'], regions', kinds', pages', used + Elems(hs),
                chains[n := hs + chains[n]], WithHome(home, hs, n), table)
    ensures Undisturbed(mem, home, regions, kinds, mem', WithHome(home, hs, n), regions', kinds')
    ensures (forall h | h in hs + chains[n] :: h in mem') && HasFree(mem', hs + chains[n])
  {
    hide MetaOk;
    hide RegionsOk;
    hide DataOk;
    hide AllMade;
    hide Covered;
    hide Batched;
    var home' := WithHome(home, hs, n);
    RegionKinds(regions, kinds);
    HomeRegions(mem, slabs, chains, home, regions, kinds, r);
    DataFrame(mem, mem, slabs, chains, home, regions, kinds, regions', kinds');
    BatchAdded(mem, slabs, chains, home, regions', kinds', n, hs, r, mem', slab');
    MadeBatch(mem', hs, r, slabs[n].entrySz, slabs[n].head);
    FirstMade(mem', hs, r, slabs[n].entrySz, slabs[n].head);
    GrownCovered(mem, home, kinds, mem', hs, n, r, kinds');
    assert home'.Keys == home.Keys + Elems(hs);
    FreshIsFree(mem', slabs[n := slab'], chains[n := hs + chains[n]], home', regions', kinds', n);
  }

  lemma FirstMade(mem: Mem, hs: seq<nat>, r: nat, size: nat, last: nat)
    requires hs != [] && AllMade(mem, hs, |hs|, r, size, last)
    ensures hs[0] in hs && hs[0] in mem && RegionOf(mem[hs[0]]) == r
  {
    assert Made(mem, hs, 0, |hs|, r, size, last);
  }

  lemma RegionKinds(regions: Regions, kinds: Kinds)
    requires RegionsOk(regions, kinds)
    ensures kinds.Keys == regions.Keys
  {
  }

  lemma HomeRegions(
    mem: Mem, slabs: seq<Slab>, chains: seq<seq<nat>>, home: Home, regions: Regions, kinds: Kinds, r: nat)
    requires DataOk(mem, slabs, chains, home, regions, kinds) && r !in regions
    ensures forall h | h in home :: h in mem && RegionOf(mem[h]) != r
  {
    forall h | h in home ensures h in mem && RegionOf(mem[h]) != r {
      assert Homed(mem, chains, home, regions, kinds, h);
    }
  }

  lemma GrownCovered(mem: Mem, home: Home, kinds: Kinds, mem': Mem, hs: seq<nat>, n: nat, r: nat, kinds': Kinds)
    requires Covered(mem, home, kinds) && hs != [] && hs[0] in mem' && RegionOf(mem'[hs[0]]) == r
    requires forall h | h in home && h in mem :: h in mem' && mem'[h] == mem[h]
    requires forall q | q in kinds' && kinds'[q] == BatchData :: q == r || (q in kinds && kinds[q] == BatchData)
    ensures Covered(mem', WithHome(home, hs, n), kinds')
  {
    var home' := WithHome(home, hs, n);
    forall q | q in kinds' && kinds'[q] == BatchData ensures HasHeader(mem', home', q) {
      if q == r {
        assert hs[0] in hs && hs[0] in home';
      } else {
        assert HasHeader(mem, home, q);
        var h :| h in home && h in mem && RegionOf(mem[h]) == q;
        assert h in home';
      }
    }
  }

  // ---------------------------------------------------------------------------------------
  // One entry allocated or freed
  // ---------------------------------------------------------------------------------------

  /** The live allocations gain or lose `e`; the others stay where they are. */
  ghost predicate LiveChange(mem: Mem, home: Home, mem': Mem, home': Home, e: Entry, on: bool) {
    && (forall d :: Live(mem', home', d) <==> if on then Live(mem, home, d) || d == e else Live(mem, home, d) && d != e)
    && (forall d | Live(mem, home, d) && d != e ::
          && home'[d.h] == home[d.h]
          && d.h in mem' && mem'[d.h].data == mem[d.h].data && mem'[d.h].entrySz == mem[d.h].entrySz)
  }

  lemma EntriesApartFromPages(
    mem: Mem, meta: Slab, slabs: seq<Slab>, regions: Regions, kinds: Kinds, pages: seq<nat>, used: set<nat>,
    chains: seq<seq<nat>>, home: Home, table: set<nat>)
    requires Inv(mem, meta, slabs, regions, kinds, pages, used, chains, home, table)
    ensures forall p | p in pages :: p in mem && p !in home
  {
    forall p | p in pages ensures p in mem && p !in home {
      assert PageOk(mem, used, regions, kinds, p);
      assert p in used ==> EntryOk(pages, p);
    }
  }

  /** Block `h` has other bits, and nothing else changed. */
  ghost predicate BitsChanged(mem: Mem, mem': Mem, h: nat) {
    h in mem && h in mem' && mem' == mem[h := mem[h].(bits := mem'[h].bits)]
  }

  lemma SlabBits(mem: Mem, slab: Slab, s: seq<nat>, home: Home, i: nat, h: nat, mem': Mem)
    requires SlabOk(mem, slab, s, home, i) && BitsChanged(mem, mem', h)
    ensures Batched(mem', s, slab.entrySz) && (h !in s ==> SlabOk(mem', slab, s, home, i))
  {
    BatchedFrame(mem, mem', s, slab.entrySz);
    if h !in s { ListFrame(mem, mem', slab, s); }
  }

  lemma OneSlabChanged(
    mem: Mem, slabs: seq<Slab>, chains: seq<seq<nat>>, home: Home, regions: Regions, kinds: Kinds, n: nat, h: nat,
    mem': Mem, slab': Slab)
    requires n < |slabs| && n < |chains| && DataOk(mem, slabs, chains, home, regions, kinds)
    requires h in chains[n] && BitsChanged(mem, mem', h)
    requires ListOk(mem', slab', chains[n]) && slab'.entrySz == slabs[n].entrySz
    ensures DataOk(mem', slabs[n := slab'], chains, home, regions, kinds)
  {
    hide ListOk;
    hide Batched;
    var slabs' := slabs[n := slab'];
    assert SlabOk(mem, slabs[n], chains[n], home, n);
    forall i | 0 <= i < |slabs'| ensures SlabOk(mem', slabs'[i], chains[i], home, i) {
      assert SlabOk(mem, slabs[i], chains[i], home, i);
      SlabBits(mem, slabs[i], chains[i], home, i, h, mem');
    }
    forall g | g in home ensures Homed(mem', chains, home, regions, kinds, g) {
      assert Homed(mem, chains, home, regions, kinds, g);
    }
    forall g, f | g in home && f in home ensures PairApart(mem', g, f) {
      assert PairApart(mem, g, f);
    }
  }

  /** The invariant with one bit of block `h` changed, and its slab's counter. */
  lemma DataBit(
    mem: Mem, meta: Slab, slabs: seq<Slab>, regions: Regions, kinds: Kinds, pages: seq<nat>, used: set<nat>,
    chains: seq<seq<nat>>, home: Home, table: set<nat>, n: nat, h: nat, bit: nat, on: bool, mem': Mem, slab': Slab)
    requires n < |slabs| && n < |chains| && h in chains[n] && h in mem && bit < 64 && (bit in mem[h].bits <==> !on)
    requires mem' == mem[h := mem[h].(bits := if on then mem[h].bits + {bit} else mem[h].bits - {bit})]
    requires ListOk(mem', slab', chains[n]) && slab'.entrySz == slabs[n].entrySz
    requires Inv(mem, meta, slabs, regions, kinds, pages, used, chains, home, table)
    ensures h in home && home[h] == n
    ensures Inv(mem', meta, slabs[n := slab'], regions, kinds, pages, used, chains, home, table)
    ensures LiveChange(mem, home, mem', home, Entry(h, bit), on)
  {
    hide MetaOk;
    hide RegionsOk;
    hide Covered;
    hide ListOk;
    EntriesApartFromPages(mem, meta, slabs, regions, kinds, pages, used, chains, home, table);
    assert BitsChanged(mem, mem', h);
    OneSlabChanged(mem, slabs, chains, home, regions, kinds, n, h, mem', slab');
    SlabFacts(mem, slabs, chains, home, regions, kinds, n);
    hide DataOk;
    MetaFrame(mem, mem', meta, pages, used, regions, kinds, regions, kinds);
    assert Covered(mem', home, kinds) by { CoveredBits(mem, mem', home, kinds, h); }
  }

  lemma CoveredBits(mem: Mem, mem': Mem, home: Home, kinds: Kinds, h: nat)
    requires Covered(mem, home, kinds) && h in mem && h in mem' && mem' == mem[h := mem[h].(bits := mem'[h].bits)]
    ensures Covered(mem', home, kinds)
  {
    forall r | r in kinds && kinds[r] == BatchData ensures HasHeader(mem', home, r) {
      assert HasHeader(mem, home, r);
      var g :| g in home && g in mem && RegionOf(mem[g]) == r;
      assert g in mem' && RegionOf(mem'[g]) == r;
    }
  }

  lemma UndisturbedTwice(
    m0: Mem, h0: Home, r0: Regions, k0: Kinds, m1: Mem, h1: Home, r1: Regions, k1: Kinds, m2: Mem, h2: Home,
    r2: Regions, k2: Kinds)
    requires Undisturbed(m0, h0, r0, k0, m1, h1, r1, k1) && Undisturbed(m1, h1, r1, k1, m2, h2, r2, k2)
    ensures Undisturbed(m0, h0, r0, k0, m2, h2, r2, k2)
  {
  }

  lemma LiveAfter(
    m0: Mem, h0: Home, r0: Regions, k0: Kinds, m1: Mem, h1: Home, r1: Regions, k1: Kinds, m2: Mem, h2: Home, e: Entry)
    requires Undisturbed(m0, h0, r0, k0, m1, h1, r1, k1) && (forall h | h in h0 :: h in m0)
    requires LiveChange(m1, h1, m2, h2, e, true)
    ensures LiveChange(m0, h0, m2, h2, e, true)
  {
    forall d ensures Live(m0, h0, d) <==> Live(m1, h1, d) {
      SameLive(m0, h0, r0, k0, m1, h1, r1, k1, d);
    }
  }

  /** The address of a live entry is outside every other block of its slab. */
  lemma OnlyOwner(
    mem: Mem, slabs: seq<Slab>, chains: seq<seq<nat>>, home: Home, regions: Regions, kinds: Kinds, n: nat, k: nat,
    j: nat, bit: nat)
    requires DataOk(mem, slabs, chains, home, regions, kinds) && n < |slabs| && n < |chains|
    requires k < |chains[n]| && j < |chains[n]| && j != k && bit < 64 && chains[n][k] in mem && chains[n][j] in mem
    ensures var p, b := AddressOf(mem[chains[n][k]], bit), mem[chains[n][j]]; p < b.data || p >= b.data + BlockSize(b)
  {
    var g, h := chains[n][j], chains[n][k];
    assert SlabOk(mem, slabs[n], chains[n], home, n) && g in chains[n] && h in chains[n];
    assert g != h;
    assert PairApart(mem, h, g);
    EntryInBlock(mem[h], bit);
  }

  // ---------------------------------------------------------------------------------------
  // Layouts
  // ---------------------------------------------------------------------------------------

  /** A requested size, and the alignment as a power of two. */
  datatype Layout = Layout(size: nat, alignLog: nat)

  /** sz_from_layout, as the exponent, for an allocator of `count` slabs. */
  function SizeLog(layout: Layout): nat {
    if LogUp(layout.size) >= layout.alignLog then LogUp(layout.size) else layout.alignLog
  }

  predicate Small(layout: Layout, count: nat) {
    SizeLog(layout) <= count + 3
  }

  /** slab_for_sz. */
  function Order(layout: Layout): nat {
    if SizeLog(layout) <= 4 then 0 else SizeLog(layout) - 4
  }

  /** The entries of the chosen slab are large enough, and a multiple of the alignment. */
  lemma OrderFits(layout: Layout, count: nat)
    requires Small(layout, count) && count > 0
    ensures Order(layout) < count && layout.size <= EntrySize(Order(layout))
    ensures EntrySize(Order(layout)) % Pow2(layout.alignLog) == 0
  {
    var k, n := SizeLog(layout), Order(layout);
    assert Pow2(4) == 16;
    Pow2Add(4, n);
    Pow2Mono(LogUp(layout.size), n + 4);
    Pow2Add(n + 4 - layout.alignLog, layout.alignLog);
    ModOfMul(Pow2(n + 4 - layout.alignLog), Pow2(layout.alignLog));
  }

  /** An entry of slab `n` has room for the layout, and the size is no smaller than the alignment. */
  predicate Fits(layout: Layout, n: nat) {
    layout.size <= EntrySize(n) && Pow2(layout.alignLog) <= EntrySize(n)
  }

  /** A request is served from a slab exactly when it fits the entries of one, and then from the first such slab. */
  lemma SmallIff(layout: Layout, count: nat)
    requires count > 0
    ensures Small(layout, count) <==> exists n: nat :: n < count && Fits(layout, n)
    ensures Small(layout, count) ==> Order(layout) < count && Fits(layout, Order(layout))
    ensures forall n: nat | n < Order(layout) :: !Fits(layout, n)
  {
    if Small(layout, count) { FitsAbove(layout, Order(layout)); }
    forall n: nat | Fits(layout, n) ensures SizeLog(layout) <= n + 4 { FitsBelow(layout, n); }
  }

  lemma FitsAbove(layout: Layout, n: nat)
    requires SizeLog(layout) <= n + 4
    ensures Fits(layout, n)
  {
    assert Pow2(4) == 16;
    Pow2Add(4, n);
    Pow2Mono(LogUp(layout.size), n + 4);
    Pow2Mono(layout.alignLog, n + 4);
  }

  lemma FitsBelow(layout: Layout, n: nat)
    requires Fits(layout, n)
    ensures SizeLog(layout) <= n + 4
  {
    assert Pow2(4) == 16;
    Pow2Add(4, n);
    var k := LogUp(layout.size);
    if n + 4 < k { Pow2Mono(n + 4, k - 1); }
    assert Pow2(n + 5) == 2 * Pow2(n + 4);
    if n + 4 < layout.alignLog { Pow2Mono(n + 5, layout.alignLog); }
  }

  /** An entry of the chosen slab is aligned as asked, up to 2M. */
  lemma AlignedAsAsked(layout: Layout, count: nat, b: Block, regions: Regions, kinds: Kinds, bit: nat)
    requires Small(layout, count) && 0 < count && layout.alignLog <= 21 && b.entrySz == EntrySize(Order(layout))
    requires HeaderOk(b, regions, kinds) && RegionsOk(regions, kinds) && bit < 64
    ensures AddressOf(b, bit) % Pow2(layout.alignLog) == 0
  {
    hide HeaderOk;
    hide RegionsOk;
    hide AddressOf;
    OrderFits(layout, count);
    Pow2Divides(layout.alignLog, 21);
    Pow2Values();
    hide Pow2;
    hide EntrySize;
    hide Order;
    hide Small;
    if Order(layout) <= 17 {
      EntryAligned(Order(layout), b, regions, kinds, bit);
      MultipleOf(AddressOf(b, bit), b.entrySz, Pow2(layout.alignLog));
    } else {
      LargeAligned(Order(layout), b, regions, kinds, bit);
      MultipleOf(AddressOf(b, bit), PAGE_2M, Pow2(layout.alignLog));
    }
  }

  /** An entry above 2M is aligned to 2M. */
  lemma LargeAligned(n: nat, b: Block, regions: Regions, kinds: Kinds, bit: nat)
    requires n >= 17 && b.entrySz == EntrySize(n)
    requires HeaderOk(b, regions, kinds) && RegionsOk(regions, kinds) && bit < 64
    ensures AddressOf(b, bit) % PAGE_2M == 0
  {
    LargeEntry(n);
    hide EntrySize;
    var k, r := b.entrySz, RegionOf(b);
    assert r >= 0 && r % PAGE_2M == 0;
    assert AddressOf(b, bit) == r + b.batchPos * (64 * k) + bit * k;
    hide RegionsOk;
    hide HeaderOk;
    hide AddressOf;
    LargeSize(n);
    Steps(k / PAGE_2M, r / PAGE_2M, b.batchPos, bit);
  }

  lemma LargeSize(n: nat)
    requires n >= 17
    ensures EntrySize(n) % PAGE_2M == 0
  {
    Pow2Values();
    Divides(17, n);
  }

  lemma Steps(c: nat, q: nat, pos: nat, bit: nat)
    ensures var k := c * PAGE_2M;
            (q * PAGE_2M + pos * (64 * k) + bit * k) % PAGE_2M == 0
  {
    var m := q + 64 * (pos * c) + bit * c;
    assert q * PAGE_2M + pos * (64 * (c * PAGE_2M)) + bit * (c * PAGE_2M) == m * PAGE_2M;
  }

  lemma Pow2Divides(n: nat, m: nat)
    requires n <= m
    ensures Pow2(m) % Pow2(n) == 0
  {
    Pow2Add(m - n, n);
    ModOfMul(Pow2(m - n), Pow2(n));
  }

  lemma MultipleOf(a: nat, b: nat, c: nat)
    requires b > 0 && c > 0 && a % b == 0 && b % c == 0
    ensures a % c == 0
  {
    var q, r := a / b, b / c;
    assert a == b * q && b == c * r;
    assert a == r * q * c by { Reorder(c, r, q); }
    ModOfMul(r * q, c);
  }

  lemma Reorder(c: nat, r: nat, q: nat)
    ensures c * r * q == r * q * c
  {
  }
}
