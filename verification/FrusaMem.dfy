/** The memory of a Frusa allocator and the invariant that every operation keeps. */
module FrusaMem {
  import opened FrusaList

  /** A region obtained from the fallback allocator and not given back. */
  datatype Region = Region(size: nat, align: nat)

  /** What a region is for: metadata entries, data blocks of a slab, or a client's own. */
  datatype Kind = Page | BatchData | Client

  type Regions = map<nat, Region>
  type Kinds = map<nat, Kind>

  datatype Slab = Slab(entrySz: nat, head: nat, total: nat, inUse: nat)

  const PAGE_4K := 4096
  const PAGE_2M := 2097152

  ghost predicate Apart(a: nat, n: nat, b: nat, k: nat) {
    a + n <= b || b + k <= a
  }

  ghost predicate RegionsApart(regions: Regions, r: nat, q: nat)
    requires r in regions && q in regions
  {
    r != q ==> Apart(r, regions[r].size, q, regions[q].size)
  }

  /** The regions do not overlap, and each is used for one thing. */
  ghost predicate RegionsOk(regions: Regions, kinds: Kinds) {
    && kinds.Keys == regions.Keys
    && (forall r | r in regions :: r > 0 && regions[r].size > 0 && regions[r].align > 0 && r % regions[r].align == 0)
    && (forall r, q | r in regions && q in regions :: RegionsApart(regions, r, q))
  }

  // ---------------------------------------------------------------------------------------
  // A slab's list and counters
  // ---------------------------------------------------------------------------------------

  ghost predicate ListOk(mem: Mem, slab: Slab, s: seq<nat>) {
    && Chain(mem, s) && NoDup(s) && AllBitsOk(mem, s)
    && (forall h | h in s :: mem[h].entrySz == slab.entrySz)
    && slab.head == Head(s) && slab.entrySz > 0
    && slab.inUse == Used(mem, s) * slab.entrySz
    && slab.total == 64 * |s| * slab.entrySz
  }

  lemma ListFrame(mem: Mem, mem': Mem, slab: Slab, s: seq<nat>)
    requires ListOk(mem, slab, s) && forall h | h in s :: h in mem' && mem'[h] == mem[h]
    ensures ListOk(mem', slab, s)
  {
    UsedFrame(mem, mem', s);
    forall i | 0 <= i < |s| ensures LinkOk(mem', s, i) {
      assert LinkOk(mem, s, i);
    }
  }

  /** One bit set or cleared, with the counter. */
  lemma BitKeeps(mem: Mem, slab: Slab, s: seq<nat>, k: nat, bit: nat, on: bool)
    requires ListOk(mem, slab, s) && k < |s| && bit < 64 && (bit in mem[s[k]].bits <==> !on)
    requires !on ==> slab.inUse >= slab.entrySz
    ensures var b := mem[s[k]];
            var bits := if on then b.bits + {bit} else b.bits - {bit};
            var slab' := slab.(inUse := if on then slab.inUse + slab.entrySz else slab.inUse - slab.entrySz);
            ListOk(mem[s[k] := b.(bits := bits)], slab', s)
  {
    var b := mem[s[k]];
    var bits := if on then b.bits + {bit} else b.bits - {bit};
    var mem' := mem[s[k] := b.(bits := bits)];
    UsedUpdate(mem, s, k, b.(bits := bits));
    assert |bits| == |b.bits| + if on then 1 else -1;
    assert Used(mem', s) == Used(mem, s) + if on then 1 else -1;
    MulOne(Used(mem, s), slab.entrySz);
    assert on ==> Used(mem', s) * slab.entrySz == Used(mem, s) * slab.entrySz + slab.entrySz;
    assert !on ==> Used(mem', s) * slab.entrySz == Used(mem, s) * slab.entrySz - slab.entrySz;
    forall i | 0 <= i < |s| ensures LinkOk(mem', s, i) {
      assert LinkOk(mem, s, i);
    }
  }

  lemma MulOne(n: nat, k: nat)
    ensures (n + 1) * k == n * k + k
    ensures n > 0 ==> (n - 1) * k == n * k - k
  {
  }

  /** A set bit is counted. */
  lemma CountedBit(mem: Mem, slab: Slab, s: seq<nat>, k: nat)
    requires ListOk(mem, slab, s) && k < |s| && mem[s[k]].bits != {}
    ensures slab.inUse >= slab.entrySz
  {
    UsedPart(mem, s, k);
    assert |mem[s[k]].bits| > 0;
    assert Used(mem, s) >= 1;
    MulOne(Used(mem, s) - 1, slab.entrySz);
  }

  lemma {:induction false} UsedPart(mem: Mem, s: seq<nat>, k: nat)
    requires (forall h | h in s :: h in mem) && k < |s|
    ensures Used(mem, s) >= |mem[s[k]].bits|
    decreases |s|
  {
    if k > 0 {
      assert s[1..][k - 1] == s[k] && forall h | h in s[1..] :: h in s;
      UsedPart(mem, s[1..], k - 1);
    }
  }

  // ---------------------------------------------------------------------------------------
  // Metadata: pages of 64 entries of 64 bytes, the first of which is the block itself
  // ---------------------------------------------------------------------------------------

  function PageOf(a: nat): nat {
    a / 4096 * 4096
  }

  ghost predicate EntryBit(mem: Mem, used: set<nat>, p: nat, i: nat)
    requires p in mem
  {
    i in mem[p].bits <==> p + 64 * i in used
  }

  ghost predicate PageOk(mem: Mem, used: set<nat>, regions: Regions, kinds: Kinds, p: nat) {
    && p % 4096 == 0 && p in regions && regions[p] == Region(PAGE_4K, PAGE_4K) && p in kinds && kinds[p] == Page
    && p in mem && mem[p].data == p && 0 in mem[p].bits
    && (forall i | 1 <= i < 64 :: EntryBit(mem, used, p, i))
  }

  ghost predicate EntryOk(pages: seq<nat>, a: nat) {
    a % 64 == 0 && a % 4096 != 0 && PageOf(a) in pages
  }

  /** `used` is exactly the set of metadata entries in use beside the blocks themselves. */
  ghost predicate MetaOk(mem: Mem, meta: Slab, pages: seq<nat>, used: set<nat>, regions: Regions, kinds: Kinds) {
    && meta.entrySz == 64 && ListOk(mem, meta, pages)
    && (forall p | p in pages :: PageOk(mem, used, regions, kinds, p))
    && (forall a | a in used :: EntryOk(pages, a))
  }

  lemma EntryAddress(p: nat, i: nat)
    requires p % 4096 == 0 && 1 <= i < 64
    ensures var a := p + 64 * i; PageOf(a) == p && a % 64 == 0 && a % 4096 != 0 && (a - p) / 64 == i
  {
    var a := p + 64 * i;
    assert a == 4096 * (p / 4096) + 64 * i;
    assert a / 4096 == p / 4096 && a % 4096 == 64 * i;
  }

  lemma AddressEntry(a: nat)
    requires a % 64 == 0 && a % 4096 != 0
    ensures var p := PageOf(a); p % 4096 == 0 && p <= a && 1 <= (a - p) / 64 < 64 && a == p + 64 * ((a - p) / 64)
  {
    var q, r, x := a / 4096, a % 4096, a / 64;
    assert a == 4096 * q + r && a == 64 * x;
    assert r == 64 * (x - 64 * q);
  }

  /** Metadata does not depend on the data blocks' own structures. */
  lemma MetaFrame(mem: Mem, mem': Mem, meta: Slab, pages: seq<nat>, used: set<nat>, regions: Regions, kinds: Kinds,
                  regions': Regions, kinds': Kinds)
    requires MetaOk(mem, meta, pages, used, regions, kinds)
    requires forall p | p in pages :: p in mem' && mem'[p] == mem[p]
    requires forall p | p in pages && p in regions && p in kinds ::
               p in regions' && p in kinds' && regions'[p] == regions[p] && kinds'[p] == kinds[p]
    ensures MetaOk(mem', meta, pages, used, regions', kinds')
  {
    ListFrame(mem, mem', meta, pages);
    forall p | p in pages ensures PageOk(mem', used, regions', kinds', p) {
      assert PageOk(mem, used, regions, kinds, p);
      forall i | 1 <= i < 64 ensures EntryBit(mem', used, p, i) {
        assert EntryBit(mem, used, p, i);
      }
    }
  }

  /** Other regions may come and go. */
  lemma MetaRegions(mem: Mem, meta: Slab, pages: seq<nat>, used: set<nat>, regions: Regions, kinds: Kinds,
                    regions': Regions, kinds': Kinds)
    requires MetaOk(mem, meta, pages, used, regions, kinds)
    requires forall p | p in pages && p in regions && p in kinds ::
               p in regions' && p in kinds' && regions'[p] == regions[p] && kinds'[p] == kinds[p]
    ensures MetaOk(mem, meta, pages, used, regions', kinds')
  {
    assert forall p | p in pages :: PageOk(mem, used, regions, kinds, p);
    MetaFrame(mem, mem, meta, pages, used, regions, kinds, regions', kinds');
  }

  // ---------------------------------------------------------------------------------------
  // Data blocks
  // ---------------------------------------------------------------------------------------

  function BlockSize(b: Block): nat {
    64 * b.entrySz
  }

  function RegionOf(b: Block): int {
    b.data - b.batchPos * BlockSize(b)
  }

  /** The alignment asked for with a region of this size. */
  function AlignFor(size: nat): nat {
    if size < PAGE_2M then PAGE_4K else PAGE_2M
  }

  ghost predicate HeaderOk(b: Block, regions: Regions, kinds: Kinds) {
    && b.entrySz > 0 && b.batchPos < b.batchSz && RegionOf(b) > 0
    && RegionOf(b) in regions && RegionOf(b) in kinds && kinds[RegionOf(b)] == BatchData
    && var size := b.batchSz * BlockSize(b);
       regions[RegionOf(b)] == Region(size, AlignFor(size)) && (BlockSize(b) <= 64 * PAGE_4K || size >= PAGE_2M)
  }

  ghost predicate BlocksApart(b: Block, c: Block) {
    Apart(b.data, BlockSize(b), c.data, BlockSize(c))
  }

  /** Data blocks by the address of their structure, with the number of their slab. */
  type Home = map<nat, nat>

  ghost predicate SlabOk(mem: Mem, slab: Slab, s: seq<nat>, home: Home, n: nat) {
    && ListOk(mem, slab, s) && Batched(mem, s, slab.entrySz)
    && (forall h | h in s :: h in home && home[h] == n)
  }

  ghost predicate Homed(mem: Mem, chains: seq<seq<nat>>, home: Home, regions: Regions, kinds: Kinds, h: nat)
    requires h in home
  {
    home[h] < |chains| && h in chains[home[h]] && h in mem && HeaderOk(mem[h], regions, kinds)
  }

  ghost predicate PairApart(mem: Mem, h: nat, g: nat) {
    h != g && h in mem && g in mem ==> BlocksApart(mem[h], mem[g])
  }

  ghost predicate DataOk(
    mem: Mem, slabs: seq<Slab>, chains: seq<seq<nat>>, home: Home, regions: Regions, kinds: Kinds) {
    && |chains| == |slabs|
    && (forall n | 0 <= n < |slabs| :: SlabOk(mem, slabs[n], chains[n], home, n))
    && (forall h | h in home :: Homed(mem, chains, home, regions, kinds, h))
    && (forall h, g | h in home && g in home :: PairApart(mem, h, g))
  }

  /** The data side does not depend on the metadata pages, nor on regions it does not use. */
  lemma DataFrame(
    mem: Mem, mem': Mem, slabs: seq<Slab>, chains: seq<seq<nat>>, home: Home, regions: Regions, kinds: Kinds,
                  regions': Regions, kinds': Kinds)
    requires DataOk(mem, slabs, chains, home, regions, kinds)
    requires forall h | h in home && h in mem :: h in mem' && mem'[h] == mem[h]
    requires forall r | r in regions && r in kinds && kinds[r] == BatchData ::
               r in regions' && r in kinds' && regions'[r] == regions[r] && kinds'[r] == BatchData
    ensures DataOk(mem', slabs, chains, home, regions', kinds')
  {
    forall n | 0 <= n < |slabs| ensures SlabOk(mem', slabs[n], chains[n], home, n) {
      assert SlabOk(mem, slabs[n], chains[n], home, n);
      ListFrame(mem, mem', slabs[n], chains[n]);
      BatchedFrame(mem, mem', chains[n], slabs[n].entrySz);
    }
    forall h | h in home ensures Homed(mem', chains, home, regions', kinds', h) {
      assert Homed(mem, chains, home, regions, kinds, h);
    }
    forall h, g | h in home && g in home ensures PairApart(mem', h, g) {
      assert Homed(mem, chains, home, regions, kinds, h) && Homed(mem, chains, home, regions, kinds, g);
      assert PairApart(mem, h, g);
    }
  }

  // ---------------------------------------------------------------------------------------
  // Live allocations
  // ---------------------------------------------------------------------------------------

  /** An entry of a data block: the block and the bit. */
  datatype Entry = Entry(h: nat, bit: nat)

  ghost predicate Live(mem: Mem, home: Home, e: Entry) {
    e.h in home && e.h in mem && e.bit in mem[e.h].bits
  }

  function AddressOf(b: Block, bit: nat): nat {
    b.data + bit * b.entrySz
  }

  /** Entries of one block lie in it, one after the other. */
  lemma EntryInBlock(b: Block, bit: nat)
    requires bit < 64
    ensures b.data <= AddressOf(b, bit) && AddressOf(b, bit) + b.entrySz <= b.data + BlockSize(b)
  {
    Spaced(bit, 64, b.entrySz);
  }

  lemma Spaced(i: nat, j: nat, k: nat)
    requires i < j
    ensures i * k + k <= j * k
  {
    MulOne(i, k);
    MulMono(i + 1, j, k);
  }

  lemma MulMono(i: nat, j: nat, k: nat)
    requires i <= j
    ensures i * k <= j * k
  {
  }

  /** Two live allocations never overlap. */
  lemma LiveApart(
    mem: Mem, slabs: seq<Slab>, chains: seq<seq<nat>>, home: Home, regions: Regions, kinds: Kinds, d: Entry, e: Entry)
    requires DataOk(mem, slabs, chains, home, regions, kinds) && Live(mem, home, d) && Live(mem, home, e) && d != e
    ensures Apart(AddressOf(mem[d.h], d.bit), mem[d.h].entrySz, AddressOf(mem[e.h], e.bit), mem[e.h].entrySz)
  {
    LiveBit(mem, slabs, chains, home, regions, kinds, d);
    LiveBit(mem, slabs, chains, home, regions, kinds, e);
    EntryInBlock(mem[d.h], d.bit);
    EntryInBlock(mem[e.h], e.bit);
    if d.h == e.h {
      if d.bit < e.bit { Spaced(d.bit, e.bit, mem[d.h].entrySz); } else { Spaced(e.bit, d.bit, mem[d.h].entrySz); }
    } else {
      assert PairApart(mem, d.h, e.h);
    }
  }

  lemma LiveBit(mem: Mem, slabs: seq<Slab>, chains: seq<seq<nat>>, home: Home, regions: Regions, kinds: Kinds, e: Entry)
    requires DataOk(mem, slabs, chains, home, regions, kinds) && Live(mem, home, e)
    ensures e.bit < 64
  {
    assert Homed(mem, chains, home, regions, kinds, e.h);
    var n := home[e.h];
    assert SlabOk(mem, slabs[n], chains[n], home, n);
  }

  /** A block lies in the region of its batch. */
  lemma BlockInRegion(b: Block, regions: Regions, kinds: Kinds)
    requires HeaderOk(b, regions, kinds)
    ensures var r := RegionOf(b); r <= b.data && b.data + BlockSize(b) <= r + regions[r].size
  {
    Spaced(b.batchPos, b.batchSz, BlockSize(b));
    assert b.batchPos * BlockSize(b) >= 0;
  }

  /** A live allocation never overlaps metadata or a client's own region. */
  lemma LiveApartFromOthers(
    mem: Mem, slabs: seq<Slab>, chains: seq<seq<nat>>, home: Home, regions: Regions, kinds: Kinds, e: Entry, q: nat)
    requires DataOk(mem, slabs, chains, home, regions, kinds) && RegionsOk(regions, kinds) && Live(mem, home, e)
    requires q in regions && q in kinds && kinds[q] != BatchData
    ensures Apart(AddressOf(mem[e.h], e.bit), mem[e.h].entrySz, q, regions[q].size)
  {
    LiveBit(mem, slabs, chains, home, regions, kinds, e);
    EntryInBlock(mem[e.h], e.bit);
    assert Homed(mem, chains, home, regions, kinds, e.h);
    BlockInRegion(mem[e.h], regions, kinds);
    assert RegionsApart(regions, RegionOf(mem[e.h]), q);
  }

  // ---------------------------------------------------------------------------------------
  // Metadata entries taken and given back, and new pages
  // ---------------------------------------------------------------------------------------

  /** A free bit of a page becomes a used entry, or the other way round. */
  lemma MetaBit(
    mem: Mem, meta: Slab, pages: seq<nat>, used: set<nat>, regions: Regions, kinds: Kinds, k: nat, bit: nat, on: bool,
    mem': Mem, meta': Slab)
    requires MetaOk(mem, meta, pages, used, regions, kinds) && k < |pages| && 1 <= bit < 64
    requires bit in mem[pages[k]].bits <==> !on
    requires var b := mem[pages[k]];
             mem' == mem[pages[k] := b.(bits := if on then b.bits + {bit} else b.bits - {bit})]
    requires meta'.entrySz == 64 && ListOk(mem', meta', pages)
    ensures var e := pages[k] + 64 * bit;
            && (e in used <==> !on)
            && MetaOk(mem', meta', pages, if on then used + {e} else used - {e}, regions, kinds)
  {
    var p := pages[k];
    var e := p + 64 * bit;
    var used' := if on then used + {e} else used - {e};
    assert p in pages && PageOk(mem, used, regions, kinds, p) && EntryBit(mem, used, p, bit);
    EntryAddress(p, bit);
    forall q | q in pages ensures PageOk(mem', used', regions, kinds, q) {
      assert PageOk(mem, used, regions, kinds, q);
      forall i | 1 <= i < 64 ensures EntryBit(mem', used', q, i) {
        assert EntryBit(mem, used, q, i);
        EntryAddress(q, i);
      }
    }
  }

  /** alloc_metadata_blocks: a new page, at the head of the list, with one entry used by itself. */
  lemma PageAdded(
    mem: Mem, meta: Slab, pages: seq<nat>, used: set<nat>, regions: Regions, kinds: Kinds, p: nat,
    mem': Mem, meta': Slab, regions': Regions, kinds': Kinds)
    requires MetaOk(mem, meta, pages, used, regions, kinds) && RegionsOk(regions, kinds) && RegionsOk(regions', kinds')
    requires p > 0 && p % 4096 == 0 && p !in regions
    requires regions' == regions[p := Region(PAGE_4K, PAGE_4K)] && kinds' == kinds[p := Page]
    requires mem' == mem[p := Block(64, 0, 0, {0}, p, meta.head)]
    requires meta' == meta.(head := p, total := meta.total + 4096, inUse := meta.inUse + 64)
    ensures MetaOk(mem', meta', [p] + pages, used, regions', kinds') && HasFree(mem', [p] + pages)
    ensures p !in used
  {
    var pages' := [p] + pages;
    forall q | q in pages ensures q != p {
      assert PageOk(mem, used, regions, kinds, q);
    }
    forall a | a in used ensures PageOf(a) != p && a != p {
      assert EntryOk(pages, a);
    }
    UsedFrame(mem, mem', pages);
    assert pages'[1..] == pages;
    assert Used(mem', pages') == 1 + Used(mem, pages);
    forall i | 0 <= i < |pages'| ensures LinkOk(mem', pages', i) {
      if i > 0 { assert LinkOk(mem, pages, i - 1); }
    }
    forall i, j | 0 <= i < j < |pages'| ensures pages'[i] != pages'[j] {
      if i == 0 { assert pages[j - 1] in pages; }
    }
    forall q | q in pages' ensures PageOk(mem', used, regions', kinds', q) {
      if q == p {
        forall i | 1 <= i < 64 ensures EntryBit(mem', used, p, i) {
          EntryAddress(p, i);
        }
      } else {
        assert PageOk(mem, used, regions, kinds, q);
        forall i | 1 <= i < 64 ensures EntryBit(mem', used, q, i) { assert EntryBit(mem, used, q, i); }
      }
    }
    forall a | a in used ensures EntryOk(pages', a) {
      assert EntryOk(pages, a);
    }
    assert FirstFree(mem'[pages'[0]].bits, 0) < 64;
  }
}
