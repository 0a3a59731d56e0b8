/** How far Frusa honours the alignment of a small request: exactly up to 2M. */
module FrusaAlign {
  import opened Arithmetic
  import opened FrusaList
  import opened FrusaMem
  import opened FrusaBatch
  import F = Frusa

  /** The fields of the allocator. */
  datatype State = State(
    mem: Mem, meta: Slab, slabs: seq<Slab>, regions: Regions, kinds: Kinds, pages: seq<nat>, used: set<nat>,
    chains: seq<seq<nat>>, home: Home, table: set<nat>)

  ghost predicate Ok(s: State) {
    Inv(s.mem, s.meta, s.slabs, s.regions, s.kinds, s.pages, s.used, s.chains, s.home, s.table)
  }

  /** In every state of an allocator of `count` slabs, what serves the layout is aligned as it asks. */
  ghost predicate AlwaysAligned(layout: Layout, count: nat) {
    forall s: State, e: Entry ::
      Ok(s) && |s.slabs| == count && Live(s.mem, s.home, e) && s.home[e.h] == Order(layout) ==>
        AddressOf(s.mem[e.h], e.bit) % Pow2(layout.alignLog) == 0
  }

  /** A small request is always aligned as asked if and only if it asks for at most 2M. */
  lemma AlignedIff(layout: Layout, count: nat)
    requires Small(layout, count) && 1 <= count <= 27
    ensures AlwaysAligned(layout, count) <==> layout.alignLog <= 21
  {
    hide Inv;
    OrderFits(layout, count);
    if layout.alignLog <= 21 {
      forall s: State, e: Entry
        | Ok(s) && |s.slabs| == count && Live(s.mem, s.home, e) && s.home[e.h] == Order(layout)
        ensures AddressOf(s.mem[e.h], e.bit) % Pow2(layout.alignLog) == 0
      {
        F.EntryFits(s.mem, s.meta, s.slabs, s.regions, s.kinds, s.pages, s.used, s.chains, s.home, s.table, e, layout,
                    count);
      }
    } else {
      var s, e := Misaligned(count, Order(layout));
      Pow2Values();
      Pow2Mono(22, layout.alignLog);
      assert Pow2(22) == 2 * Pow2(21);
      assert AddressOf(s.mem[e.h], e.bit) % Pow2(layout.alignLog) == PAGE_2M by { SmallMod(PAGE_2M,
              Pow2(layout.alignLog)); }
    }
  }

  lemma SmallMod(a: nat, b: nat)
    requires a < b
    ensures a % b == a
  {
  }

  // ---------------------------------------------------------------------------------------
  // An allocator with one entry of more than 2M in use, at address 2M
  // ---------------------------------------------------------------------------------------

  /** The first metadata page, and the only one. */
  const PAGE: nat := 4096
  const REGIONS: Regions := map[PAGE := Region(PAGE_4K, PAGE_4K)]
  const KINDS: Kinds := map[PAGE := Page]

  /** That page after the entries 1 to `c` are taken. */
  lemma {:induction false} Taken(c: nat) returns (mem: Mem, meta: Slab, used: set<nat>)
    requires c < 64
    ensures MetaOk(mem, meta, [PAGE], used, REGIONS, KINDS) && mem.Keys == {PAGE}
    ensures forall i | c < i < 64 :: i !in mem[PAGE].bits
    decreases c
  {
    if c == 0 {
      mem, meta, used := map[PAGE := Block(64, 0, 0, {0}, PAGE, 0)], Slab(64, PAGE, 4096, 64), {};
      assert [PAGE] + [] == [PAGE];
      PageAdded(map[], Slab(64, 0, 0, 0), [], {}, map[], map[], PAGE, mem, meta, REGIONS, KINDS);
    } else {
      var mem0, meta0, used0 := Taken(c - 1);
      F.TableBit(mem0, meta0, [PAGE], used0, REGIONS, KINDS, PAGE, c);
      mem := mem0[PAGE := mem0[PAGE].(bits := mem0[PAGE].bits + {c})];
      meta, used := meta0.(inUse := meta0.inUse + 64), used0 + {PAGE + 64 * c};
    }
  }

  /** After the set-up. */
  lemma Ready(count: nat) returns (s: State)
    requires count <= 27
    ensures Ok(s) && |s.slabs| == |s.chains| == count && s.home == map[] && s.pages == [PAGE]
    ensures s.regions == REGIONS && s.kinds == KINDS && s.mem.Keys == {PAGE} && s.table == s.used
    ensures forall n | 0 <= n < count :: s.slabs[n] == Slab(EntrySize(n), 0, 0, 0) && s.chains[n] == []
    ensures forall i | count < i < 64 :: i !in s.mem[PAGE].bits
  {
    hide MetaOk;
    hide EntrySize;
    var mem, meta, used := Taken(count);
    var slabs := seq(count, n requires 0 <= n => Slab(EntrySize(n), 0, 0, 0));
    var chains := seq(count, n => []);
    F.EmptySlabs(mem, slabs, chains, map[], REGIONS, KINDS);
    s := State(mem, meta, slabs, REGIONS, KINDS, [PAGE], used, chains, map[], used);
    hide DataOk;
    F.NoDataNow(mem, map[], map[], KINDS);
  }

  /** With one batch of one block in slab `n`, on a region at address 2M. */
  lemma Grown(count: nat, n: nat) returns (s: State, h: nat)
    requires 18 <= n < count <= 27
    ensures Ok(s) && |s.slabs| == |s.chains| == count && s.chains[n] == [h] && h in s.mem
    ensures s.mem[h] == Block(EntrySize(n), 0, 1, {}, PAGE_2M, 0)
  {
    hide MetaOk;
    hide Inv;
    hide RegionsOk;
    hide AllMade;
    hide HasFree;
    hide Undisturbed;
    var s0 := Ready(count);
    LargeSize(n);
    hide EntrySize;
    var bit, k := count + 1, EntrySize(n);
    h := PAGE + 64 * bit;
    assert MetaOk(s0.mem, s0.meta, [PAGE], s0.used, REGIONS, KINDS) by { InvMeta(s0); }
    F.TableBit(s0.mem, s0.meta, [PAGE], s0.used, REGIONS, KINDS, PAGE, bit);
    var mem1 := s0.mem[PAGE := s0.mem[PAGE].(bits := s0.mem[PAGE].bits + {bit})];
    var mem2 := mem1[h := Block(k, 0, 1, {}, PAGE_2M, 0)];
    var meta2, used2 := s0.meta.(inUse := s0.meta.inUse + 64), s0.used + {h};
    var regions := REGIONS[PAGE_2M := Region(64 * k, PAGE_2M)];
    var kinds := KINDS[PAGE_2M := BatchData];
    MetaFrame(mem1, mem2, meta2, [PAGE], used2, REGIONS, KINDS, regions, kinds);
    TwoRegions(k);
    NotTaken(s0, bit);
    var slab := Slab(k, h, 64 * k, 0);
    OneMade(mem2, h, k);
    assert Elems([h]) == {h} && used2 == s0.used + Elems([h]);
    GrowthDone(s0.mem, s0.meta, s0.slabs, REGIONS, KINDS, [PAGE], s0.used, s0.chains, map[], s0.table, n, [h], PAGE_2M,
               mem2, meta2, slab, regions, kinds, [PAGE]);
    assert [h] + [] == [h];
    s := State(mem2, meta2, s0.slabs[n := slab], regions, kinds, [PAGE], used2,
               s0.chains[n := [h]], WithHome(map[], [h], n), s0.table);
  }

  lemma InvMeta(s: State)
    requires Ok(s)
    ensures MetaOk(s.mem, s.meta, s.pages, s.used, s.regions, s.kinds)
  {
  }

  lemma TwoRegions(k: nat)
    requires k > 0
    ensures RegionsOk(REGIONS[PAGE_2M := Region(64 * k, PAGE_2M)], KINDS[PAGE_2M := BatchData])
  {
  }

  lemma OneMade(mem: Mem, h: nat, k: nat)
    requires h in mem && mem[h] == Block(k, 0, 1, {}, PAGE_2M, 0)
    ensures AllMade(mem, [h], 1, PAGE_2M, k, 0)
  {
  }

  lemma NotTaken(s: State, bit: nat)
    requires Ok(s) && s.pages == [PAGE] && PAGE in s.mem && 1 <= bit < 64 && bit !in s.mem[PAGE].bits
    ensures PAGE + 64 * bit !in s.used
    ensures forall a | a in s.used :: a != PAGE
  {
    assert PAGE in s.pages && PageOk(s.mem, s.used, s.regions, s.kinds, PAGE);
    assert EntryBit(s.mem, s.used, PAGE, bit);
    assert PAGE in s.used ==> EntryOk(s.pages, PAGE);
  }

  /** With the first entry of that block in use: it is at 2M, and not aligned to more. */
  lemma Misaligned(count: nat, n: nat) returns (s: State, e: Entry)
    requires 18 <= n < count <= 27
    ensures Ok(s) && |s.slabs| == count && Live(s.mem, s.home, e) && s.home[e.h] == n
    ensures AddressOf(s.mem[e.h], e.bit) == PAGE_2M
  {
    hide Inv;
    hide EntrySize;
    var s0, h := Grown(count, n);
    F.InvSlab(s0.mem, s0.meta, s0.slabs, s0.regions, s0.kinds, s0.pages, s0.used, s0.chains, s0.home, s0.table, n);
    hide ListOk;
    e := Entry(h, 0);
    BitKeeps(s0.mem, s0.slabs[n], [h], 0, 0, true);
    var mem := s0.mem[h := s0.mem[h].(bits := s0.mem[h].bits + {0})];
    var slab := s0.slabs[n].(inUse := s0.slabs[n].inUse + s0.slabs[n].entrySz);
    DataBit(s0.mem, s0.meta, s0.slabs, s0.regions, s0.kinds, s0.pages, s0.used, s0.chains, s0.home, s0.table,
            n, h, 0, true, mem, slab);
    s := s0.(mem := mem, slabs := s0.slabs[n := slab]);
  }
}
