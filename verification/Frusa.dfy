/**
 The Frusa slab allocator, run by one thread. Block structures live in metadata entries that the
 allocator hands out itself; memory comes from a fallback allocator, which may refuse.
 */
module Frusa {
  import opened Arithmetic
  import opened FrusaList
  import opened FrusaMem
  import opened FrusaBatch
  import opened FrusaReclaim

  class Frusa {
    /** SLABS: 8 for Frusa4K, 17 for Frusa2M. */
    const count: nat
    var mem: Mem
    var meta: Slab
    var slabs: seq<Slab>
    /** Regions held from the fallback allocator, by the allocator and by its clients. */
    var regions: Regions
    /** How many more compare-and-swaps on bitmaps will be lost to others. */
    var losses: nat
    /** How often the fallback allocator has refused. */
    ghost var refusals: nat
    ghost var kinds: Kinds
    ghost var pages: seq<nat>
    ghost var used: set<nat>
    ghost var chains: seq<seq<nat>>
    ghost var home: Home
    /** The metadata entries that hold the array of data slabs. */
    ghost var table: set<nat>

    ghost predicate Valid()
      reads this
    {
      Inv(mem, meta, slabs, regions, kinds, pages, used, chains, home, table)
    }

    /** Valid, and set up completely or not at all. */
    ghost predicate Whole()
      reads this
    {
      && Valid() && 1 <= count <= 27
      && (|| |slabs| == count
          || (slabs == [] && chains == [] && pages == [] && used == {} && table == {} && home == map[]))
    }

    constructor (count: nat, losses: nat)
      requires 1 <= count <= 27
      ensures Whole() && this.count == count && slabs == [] && regions == map[] && kinds == map[] && home == map[]
      ensures refusals == 0
    {
      this.count, this.losses := count, losses;
      mem, meta, slabs, regions := map[], Slab(64, 0, 0, 0), [], map[];
      kinds, pages, used, chains, home, table, refusals := map[], [], {}, [], map[], {}, 0;
    }

    // -------------------------------------------------------------------------------------
    // The fallback allocator
    // -------------------------------------------------------------------------------------

    /** Any free, aligned region of the size, or null. */
    method FallbackAlloc(size: nat, align: nat, ghost kind: Kind) returns (p: nat)
      requires RegionsOk(regions, kinds) && size > 0 && align > 0
      modifies this`regions, this`kinds, this`refusals
      ensures RegionsOk(regions, kinds) && refusals == old(refusals) + if p == 0 then 1 else 0
      ensures p == 0 ==> regions == old(regions) && kinds == old(kinds)
      ensures p != 0 ==> p % align == 0 && p !in old(regions)
      ensures p != 0 ==> regions == old(regions)[p := Region(size, align)] && kinds == old(kinds)[p := kind]
    {
      p := *;
      if p % align != 0 || p == 0 || exists r :: r in regions && p < r + regions[r].size && r < p + size {
        refusals := refusals + 1;
        return 0;
      }
      forall r | r in regions ensures r != p && Apart(p, size, r, regions[r].size) {
      }
      regions := regions[p := Region(size, align)];
      kinds := kinds[p := kind];
      forall r, q | r in regions && q in regions ensures RegionsApart(regions, r, q) {
        assert r != p && q != p ==> RegionsApart(old(regions), r, q);
      }
    }

    /** A region goes back with the size and alignment it was obtained with. */
    method FallbackDealloc(p: nat, size: nat, align: nat)
      requires RegionsOk(regions, kinds) && p in regions && regions[p] == Region(size, align)
      modifies this`regions, this`kinds
      ensures RegionsOk(regions, kinds) && regions == old(regions) - {p} && kinds == old(kinds) - {p}
    {
      regions := regions - {p};
      kinds := kinds - {p};
      forall r, q | r in regions && q in regions ensures RegionsApart(regions, r, q) {
        assert RegionsApart(old(regions), r, q);
      }
    }

    // -------------------------------------------------------------------------------------
    // One slab
    // -------------------------------------------------------------------------------------

    /** Block::alloc: the lowest free entry; null if there is none, or the swap is lost. */
    method BlockAlloc(h: nat) returns (p: nat, ghost bit: nat)
      requires h in mem && mem[h].data > 0
      modifies this`mem, this`losses
      ensures losses <= old(losses)
      ensures p == 0 ==> mem == old(mem) && (FirstFree(mem[h].bits, 0) == 64 || losses < old(losses))
      ensures p != 0 ==>
                var b := old(mem)[h];
                && bit < 64 && bit !in b.bits && p == AddressOf(b, bit)
                && mem == old(mem)[h := b.(bits := b.bits + {bit})]
    {
      bit := 0;
      var b := mem[h];
      var ones := FirstFree(b.bits, 0);
      if ones == 64 {
        return 0, 0;
      }
      var lost: bool := *;
      if lost && losses > 0 {
        losses := losses - 1;
        return 0, 0;
      }
      mem := mem[h := b.(bits := b.bits + {ones})];
      return AddressOf(b, ones), ones;
    }

    /** Slab::alloc: an entry that was free; null only if there is none or a swap was lost. */
    method SlabAlloc(slab: Slab, ghost s: seq<nat>) returns (p: nat, slab': Slab, ghost k: nat, ghost bit: nat)
      requires ListOk(mem, slab, s) && forall h | h in s :: mem[h].data > 0
      modifies this`mem, this`losses
      ensures losses <= old(losses)
      ensures p == 0 ==> mem == old(mem) && slab' == slab && (!HasFree(mem, s) || losses < old(losses))
      ensures p != 0 ==>
                && k < |s| && bit < 64 && bit !in old(mem)[s[k]].bits && p == AddressOf(old(mem)[s[k]], bit)
                && mem == old(mem)[s[k] := old(mem)[s[k]].(bits := old(mem)[s[k]].bits + {bit})]
                && slab' == slab.(inUse := slab.inUse + slab.entrySz) && ListOk(mem, slab', s)
    {
      hide Used;
      hide FirstFree;
      k, bit, slab' := 0, 0, slab;
      FullIff(mem, s);
      MulInjective(Used(mem, s), 64 * |s|, slab.entrySz);
      if slab.inUse == slab.total {
        return 0, slab, 0, 0;
      }
      var pblock := slab.head;
      while pblock != 0
        invariant k <= |s| && pblock == (if k < |s| then s[k] else 0) && mem == old(mem) && losses <= old(losses)
        invariant losses < old(losses) || forall j | 0 <= j < k :: FirstFree(mem[s[j]].bits, 0) == 64
        decreases |s| - k
      {
        assert LinkOk(mem, s, k) && s[k] in s;
        p, bit := BlockAlloc(pblock);
        if p != 0 {
          BitKeeps(old(mem), slab, s, k, bit, true);
          slab' := slab.(inUse := slab.inUse + slab.entrySz);
          return;
        }
        pblock := mem[pblock].next;
        k := k + 1;
      }
      assert k < |s| ==> LinkOk(mem, s, k);
      return 0, slab, 0, 0;
    }

    /** Slab::dealloc: clears the bit of the one block that holds the address. */
    method SlabDealloc(slab: Slab, p: nat, ghost s: seq<nat>, ghost k: nat, ghost bit: nat) returns (slab': Slab)
      requires ListOk(mem, slab, s) && k < |s| && bit in mem[s[k]].bits && p == AddressOf(mem[s[k]], bit)
      requires forall j | 0 <= j < |s| && j != k :: OutOfBlock(mem[s[j]], p)
      modifies this`mem
      ensures mem == old(mem)[s[k] := old(mem)[s[k]].(bits := old(mem)[s[k]].bits - {bit})]
      ensures slab' == slab.(inUse := slab'.inUse) && ListOk(mem, slab', s)
    {
      hide Used;
      CountedBit(mem, slab, s, k);
      assert s[k] in s;
      BitKeeps(mem, slab, s, k, bit, false);
      EntryInBlock(mem[s[k]], bit);
      var pblock := slab.head;
      ghost var j := 0;
      slab' := slab;
      while true
        invariant j <= k && pblock == s[j] && mem == old(mem)
        decreases |s| - j
      {
        assert LinkOk(mem, s, j) && s[j] in s;
        var b := mem[pblock];
        InBlockIff(b, p);
        assert j != k ==> OutOfBlock(mem[s[j]], p);
        if p >= b.data && (p - b.data) / b.entrySz < 64 {
          Quotient(bit, b.entrySz);
          mem := mem[pblock := b.(bits := b.bits - {(p - b.data) / b.entrySz})];
          slab' := slab.(inUse := slab.inUse - slab.entrySz);
          return;
        }
        pblock := b.next;
        j := j + 1;
      }
    }

    // -------------------------------------------------------------------------------------
    // Metadata entries
    // -------------------------------------------------------------------------------------

    /** alloc_metadata_blocks and add_blocks: one page holds exactly one block of 64 entries. */
    method AddPage() returns (ok: bool)
      requires RegionsOk(regions, kinds) && MetaOk(mem, meta, pages, used, regions, kinds)
      modifies this`mem, this`meta, this`regions, this`kinds, this`pages, this`refusals
      ensures refusals == old(refusals) + if ok then 0 else 1
      ensures RegionsOk(regions, kinds) && MetaOk(mem, meta, pages, used, regions, kinds)
      ensures OnlyMoreRegions(old(regions), old(kinds), regions, kinds)
      ensures forall a | a in used && a in old(mem) :: a in mem && mem[a] == old(mem)[a]
      ensures ok ==> (forall p | p in pages :: p in mem) && HasFree(mem, pages)
      ensures ok ==> |pages| > 0 && pages[1..] == old(pages) && pages[0] in mem && mem[pages[0]].bits == {0}
      ensures !ok ==> mem == old(mem) && pages == old(pages) && meta == old(meta)
    {
      hide MetaOk;
      hide RegionsOk;
      var p := FallbackAlloc(PAGE_4K, PAGE_4K, Page);
      if p == 0 {
        return false;
      }
      RegionKinds(old(regions), old(kinds));
      PageAdded(mem, meta, pages, used, old(regions), old(kinds), p,
                mem[p := Block(64, 0, 0, {0}, p, meta.head)],
                meta.(head := p, total := meta.total + 4096, inUse := meta.inUse + 64), regions, kinds);
      mem := mem[p := Block(64, 0, 0, {0}, p, meta.head)];
      meta := meta.(head := p, total := meta.total + 4096, inUse := meta.inUse + 64);
      pages := [p] + pages;
      PagesApart(mem, meta, pages, used, regions, kinds);
      return true;
    }

    /** alloc_metadata: an entry that was not in use, or null if the fallback allocator refuses a page. */
    method AllocMetadata() returns (e: nat)
      requires RegionsOk(regions, kinds) && MetaOk(mem, meta, pages, used, regions, kinds)
      modifies this`mem, this`meta, this`regions, this`kinds, this`pages, this`used, this`losses, this`refusals
      ensures RegionsOk(regions, kinds) && MetaOk(mem, meta, pages, used, regions, kinds) && losses <= old(losses)
      ensures refusals == old(refusals) + if e == 0 then 1 else 0
      ensures OnlyMoreRegions(old(regions), old(kinds), regions, kinds)
      ensures forall a | a in old(used) && a in old(mem) :: a in mem && mem[a] == old(mem)[a]
      ensures e == 0 ==> used == old(used)
      ensures e != 0 ==> e !in old(used) && used == old(used) + {e}
    {
      hide MetaOk;
      hide RegionsOk;
      hide ListOk;
      hide HasFree;
      ghost var grown := false;
      PagesApart(mem, meta, pages, used, regions, kinds);
      while true
        invariant RegionsOk(regions, kinds) && MetaOk(mem, meta, pages, used, regions, kinds) && used == old(used)
        invariant refusals == old(refusals)
        invariant OnlyMoreRegions(old(regions), old(kinds), regions, kinds) && losses <= old(losses)
        invariant forall a | a in used && a in old(mem) :: a in mem && mem[a] == old(mem)[a]
        invariant (forall p | p in pages :: p in mem) && (grown ==> HasFree(mem, pages))
        decreases losses, if grown then 0 else 1
      {
        ghost var mem0, k, bit := mem, 0, 0;
        PagesApart(mem, meta, pages, used, regions, kinds);
        var slab';
        e, slab', k, bit := SlabAlloc(meta, pages);
        if e != 0 {
          EntryTaken(mem0, meta, pages, used, regions, kinds, k, bit, mem, slab');
          meta := slab';
          used := used + {e};
          return;
        }
        var ok := AddPage();
        if !ok {
          return 0;
        }
        grown := true;
      }
    }

    /** The metadata slab's dealloc: the entry is free again, and nothing else changes. */
    method DeallocMetadata(e: nat)
      requires RegionsOk(regions, kinds) && MetaOk(mem, meta, pages, used, regions, kinds) && e in used
      modifies this`mem, this`meta, this`used
      ensures MetaOk(mem, meta, pages, used, regions, kinds) && used == old(used) - {e}
      ensures forall a | a in old(used) && a in old(mem) :: a in mem && mem[a] == old(mem)[a]
      ensures forall a | a in old(mem) && a !in pages :: a in mem && mem[a] == old(mem)[a]
    {
      hide MetaOk;
      hide RegionsOk;
      hide ListOk;
      EntryPlace(mem, meta, pages, used, regions, kinds, e);
      PagesApart(mem, meta, pages, used, regions, kinds);
      ghost var k :| 0 <= k < |pages| && pages[k] == PageOf(e);
      ghost var bit := (e - PageOf(e)) / 64;
      forall j | 0 <= j < |pages| && j != k ensures OutOfBlock(mem[pages[j]], e) {
        OtherPage(mem, meta, pages, used, regions, kinds, j, k, e);
      }
      var slab' := SlabDealloc(meta, e, pages, k, bit);
      MetaBit(old(mem), meta, pages, used, regions, kinds, k, bit, false, mem, slab');
      meta := slab';
      used := used - {e};
    }

    /** Writing a block structure in an entry in use. */
    method PutBlock(h: nat, b: Block)
      requires RegionsOk(regions, kinds) && MetaOk(mem, meta, pages, used, regions, kinds) && h in used
      modifies this`mem
      ensures mem == old(mem)[h := b] && MetaOk(mem, meta, pages, used, regions, kinds)
    {
      hide MetaOk;
      hide RegionsOk;
      PagesApart(mem, meta, pages, used, regions, kinds);
      MetaFrame(mem, mem[h := b], meta, pages, used, regions, kinds, regions, kinds);
      mem := mem[h := b];
    }

    // -------------------------------------------------------------------------------------
    // Growing a slab
    // -------------------------------------------------------------------------------------

    /** The loop that frees the block structures already made, from the first on. */
    method DropBlocks(blocks: nat, count: nat, ghost hs: seq<nat>, ghost num: nat, ghost r: nat, ghost size: nat)
      requires RegionsOk(regions, kinds) && MetaOk(mem, meta, pages, used, regions, kinds)
      requires |hs| == count && blocks == Head(hs) && NoDup(hs) && (forall h | h in hs :: h in used)
      requires AllMade(mem, hs, num, r, size, 0)
      modifies this`mem, this`meta, this`used
      ensures MetaOk(mem, meta, pages, used, regions, kinds) && used == old(used) - Elems(hs)
      ensures forall a | a in used && a in old(mem) :: a in mem && mem[a] == old(mem)[a]
    {
      hide MetaOk;
      hide RegionsOk;
      var curr := blocks;
      for k := 0 to count
        invariant MetaOk(mem, meta, pages, used, regions, kinds) && used == old(used) - Elems(hs[..k])
        invariant curr == (if k < count then hs[k] else 0)
        invariant forall a | a in used && a in old(mem) :: a in mem && mem[a] == old(mem)[a]
      {
        ghost var used0 := used;
        assert Made(old(mem), hs, k, num, r, size, 0) && hs[k] in hs && hs[k] !in hs[..k];
        var next := mem[curr].next;
        DeallocMetadata(curr);
        assert Elems(hs[..k + 1]) == Elems(hs[..k]) + {hs[k]};
        assert used == old(used) - Elems(hs[..k + 1]);
        curr := next;
      }
      assert hs[..count] == hs;
    }

    /** One more block structure at `p`, linked from the one before it. */
    method LinkBlock(prev: nat, p: nat, idx: nat, ghost hs: seq<nat>, num: nat, r: nat, size: nat)
      requires RegionsOk(regions, kinds) && MetaOk(mem, meta, pages, used, regions, kinds)
      requires AllMade(mem, hs, num, r, size, 0) && NoDup(hs) && (forall h | h in hs :: h in used && h != 0)
      requires p !in hs && p in used
      requires idx == |hs| && prev == if idx > 0 then hs[idx - 1] else 0
      modifies this`mem
      ensures MetaOk(mem, meta, pages, used, regions, kinds)
      ensures forall a | a in old(mem) && a != p && a !in hs :: a in mem && mem[a] == old(mem)[a]
      ensures AllMade(mem, hs + [p], num, r, size, 0) && NoDup(hs + [p])
    {
      hide MetaOk;
      hide RegionsOk;
      assert idx > 0 ==> Made(mem, hs, idx - 1, num, r, size, 0) && hs[idx - 1] in hs;
      forall j | 0 <= j < |hs| ensures hs[j] in mem && hs[j] in hs {
        assert Made(mem, hs, j, num, r, size, 0);
      }
      PutBlock(p, Block(size, idx, num, {}, r + idx * (64 * size), 0));
      if prev != 0 {
        PutBlock(prev, mem[prev].(next := p));
      }
      BlockMade(old(mem), mem, hs, p, num, r, size);
    }

    /** The loop that makes the block structures of a batch, or none if metadata runs out. */
    method MakeBlocks(size: nat, num: nat, r: nat) returns (ok: bool, blocks: nat, prev: nat, ghost hs: seq<nat>)
      requires RegionsOk(regions, kinds) && MetaOk(mem, meta, pages, used, regions, kinds) && num > 0
      modifies this`mem, this`meta, this`regions, this`kinds, this`pages, this`used, this`losses, this`refusals
      ensures RegionsOk(regions, kinds) && MetaOk(mem, meta, pages, used, regions, kinds) && losses <= old(losses)
      ensures refusals == old(refusals) + if ok then 0 else 1
      ensures OnlyMoreRegions(old(regions), old(kinds), regions, kinds)
      ensures forall a | a in old(used) && a in old(mem) :: a in mem && mem[a] == old(mem)[a]
      ensures ok ==>
                && |hs| == num && NoDup(hs) && (forall h | h in hs :: h !in old(used) && h != 0)
                && used == old(used) + Elems(hs) && AllMade(mem, hs, num, r, size, 0) && blocks == hs[0]
                && prev == hs[num - 1]
      ensures !ok ==> used == old(used)
    {
      hide MetaOk;
      hide RegionsOk;
      hs, blocks, prev := [], 0, 0;
      for idx := 0 to num
        invariant RegionsOk(regions, kinds) && MetaOk(mem, meta, pages, used, regions, kinds) && losses <= old(losses)
        invariant OnlyMoreRegions(old(regions), old(kinds), regions, kinds) && refusals == old(refusals)
        invariant forall a | a in old(used) && a in old(mem) :: a in mem && mem[a] == old(mem)[a]
        invariant |hs| == idx && NoDup(hs) && used == old(used) + Elems(hs)
        invariant forall h | h in hs :: h !in old(used) && h != 0
        invariant AllMade(mem, hs, num, r, size, 0) && blocks == Head(hs)
        invariant prev == (if idx > 0 then hs[idx - 1] else 0)
      {
        ghost var mem0, regions0, kinds0 := mem, regions, kinds;
        var p := AllocMetadata();
        MoreRegions(old(regions), old(kinds), regions0, kinds0, regions, kinds);
        assert AllMade(mem, hs, num, r, size, 0) by {
          forall j | 0 <= j < |hs| ensures Made(mem, hs, j, num, r, size, 0) {
            assert Made(mem0, hs, j, num, r, size, 0) && hs[j] in hs;
          }
        }
        if p == 0 {
          DropBlocks(blocks, idx, hs, num, r, size);
          assert used == old(used);
          return false, 0, 0, [];
        }
        assert p !in Elems(hs) && p !in hs;
        LinkBlock(prev, p, idx, hs, num, r, size);
        if idx == 0 {
          blocks := p;
        }
        assert Elems(hs + [p]) == Elems(hs) + {p};
        hs := hs + [p];
        prev := p;
      }
      return true, blocks, prev, hs;
    }

    /** add_blocks_to_locked_slab: a batch of empty blocks in front of the list, or nothing. */
    method AddBlocks(n: nat) returns (ok: bool)
      requires Valid() && n < |slabs|
      modifies this
      ensures Valid() && losses <= old(losses) && table == old(table) && |slabs| == old(|slabs|) && n < |chains|
      ensures refusals == old(refusals) + if ok then 0 else 1
      ensures Undisturbed(old(mem), old(home), old(regions), old(kinds), mem, home, regions, kinds)
      ensures ok ==> (forall h | h in chains[n] :: h in mem) && HasFree(mem, chains[n])
      ensures !ok ==> slabs == old(slabs) && chains == old(chains) && home == old(home)
    {
      hide MetaOk;
      hide RegionsOk;
      hide DataOk;
      hide Covered;
      hide Undisturbed;
      SlabFacts(mem, slabs, chains, home, regions, kinds, n);
      RegionKinds(regions, kinds);
      assert slabs[n].entrySz == EntrySize(n);
      hide EntrySize;
      var size := AllocSize(64 * slabs[n].entrySz, slabs[n].total);
      WholeBlocks(n, slabs[n].total);
      var r := FallbackAlloc(size, AlignFor(size), BatchData);
      if r == 0 {
        GrowthFailed(mem, meta, slabs, regions, kinds, pages, used, chains, home, table, mem, meta, regions, kinds,
                     pages);
        return false;
      }
      MetaRegions(mem, meta, pages, used, old(regions), old(kinds), regions, kinds);
      ok := FillRegion(n, r, size, old(regions), old(kinds));
    }

    /** The rest of add_blocks_to_locked_slab, once region `r` is obtained. */
    method FillRegion(n: nat, r: nat, size: nat, ghost regions0: Regions, ghost kinds0: Kinds) returns (ok: bool)
      requires Inv(mem, meta, slabs, regions0, kinds0, pages, used, chains, home, table) && n < |slabs| && n < |chains|
      requires RegionsOk(regions, kinds) && MetaOk(mem, meta, pages, used, regions, kinds)
      requires r > 0 && r !in regions0 && r !in kinds0
      requires regions == regions0[r := Region(size, AlignFor(size))] && kinds == kinds0[r := BatchData]
      requires var k := 64 * slabs[n].entrySz;
               k > 0 && size > 0 && size / k > 0 && size / k * k == size && (k <= 64 * PAGE_4K || size >= PAGE_2M)
      modifies this
      ensures Valid() && losses <= old(losses) && table == old(table) && |slabs| == old(|slabs|) && n < |chains|
      ensures refusals == old(refusals) + if ok then 0 else 1
      ensures Undisturbed(old(mem), old(home), regions0, kinds0, mem, home, regions, kinds)
      ensures ok ==> (forall h | h in chains[n] :: h in mem) && HasFree(mem, chains[n])
      ensures !ok ==> slabs == old(slabs) && chains == old(chains) && home == old(home)
    {
      hide MetaOk;
      hide RegionsOk;
      hide DataOk;
      hide Covered;
      hide Undisturbed;
      hide AllMade;
      hide HasFree;
      hide Inv;
      var num := size / (64 * slabs[n].entrySz);
      var blocks, prev; ghost var hs;
      ok, blocks, prev, hs := MakeBlocks(slabs[n].entrySz, num, r);
      if ok {
        JoinBatch(n, r, num, blocks, prev, hs, regions0, kinds0, old(mem), old(meta), old(pages), old(used));
      } else {
        UndoRegion(r, size, regions0, kinds0, old(mem), old(meta), old(pages));
      }
    }

    /** Giving region `r` back when its block structures could not be made. */
    method UndoRegion(
      r: nat, size: nat, ghost regions0: Regions, ghost kinds0: Kinds, ghost mem0: Mem, ghost meta0: Slab,
      ghost pages0: seq<nat>)
      requires Inv(mem0, meta0, slabs, regions0, kinds0, pages0, used, chains, home, table)
      requires RegionsOk(regions, kinds) && MetaOk(mem, meta, pages, used, regions, kinds)
      requires r !in regions0 && r !in kinds0
      requires OnlyMoreRegions(regions0[r := Region(size, AlignFor(size))], kinds0[r := BatchData], regions, kinds)
      requires forall a | a in used && a in mem0 :: a in mem && mem[a] == mem0[a]
      modifies this`regions, this`kinds
      ensures Valid() && Undisturbed(mem0, home, regions0, kinds0, mem, home, regions, kinds)
    {
      hide MetaOk;
      hide RegionsOk;
      hide Inv;
      hide Undisturbed;
      assert regions0[r := Region(size, AlignFor(size))][r] == Region(size, AlignFor(size));
      NoPageAt(mem, meta, pages, used, regions, kinds, r);
      FallbackDealloc(r, size, AlignFor(size));
      MetaRegions(mem, meta, pages, used, old(regions), old(kinds), regions, kinds);
      GrowthFailed(mem0, meta0, slabs, regions0, kinds0, pages0, used, chains, home, table, mem, meta, regions, kinds,
                   pages);
    }

    /** Linking the new batch in front of the slab's list. */
    method JoinBatch(
      n: nat, r: nat, num: nat, blocks: nat, prev: nat, ghost hs: seq<nat>,
      ghost regions0: Regions, ghost kinds0: Kinds, ghost mem0: Mem, ghost meta0: Slab, ghost pages0: seq<nat>,
      ghost used0: set<nat>)
      requires Inv(mem0, meta0, slabs, regions0, kinds0, pages0, used0, chains, home, table) && n < |slabs|
      requires n < |chains|
      requires RegionsOk(regions, kinds) && MetaOk(mem, meta, pages, used, regions, kinds)
      requires r > 0 && r !in regions0 && r !in kinds0 && num > 0
      requires var size := num * (64 * slabs[n].entrySz);
               && (64 * slabs[n].entrySz <= 64 * PAGE_4K || size >= PAGE_2M)
               && OnlyMoreRegions(regions0[r := Region(size, AlignFor(size))], kinds0[r := BatchData], regions, kinds)
      requires forall a | a in used0 && a in mem0 :: a in mem && mem[a] == mem0[a]
      requires |hs| == num && NoDup(hs) && (forall h | h in hs :: h !in used0 && h != 0) && used == used0 + Elems(hs)
      requires AllMade(mem, hs, num, r, slabs[n].entrySz, 0) && blocks == hs[0] && prev == hs[num - 1]
      modifies this`mem, this`slabs, this`chains, this`home
      ensures Valid() && |slabs| == old(|slabs|) && n < |chains|
      ensures Undisturbed(mem0, old(home), regions0, kinds0, mem, home, regions, kinds)
      ensures (forall h | h in chains[n] :: h in mem) && HasFree(mem, chains[n])
    {
      hide MetaOk;
      hide RegionsOk;
      hide Inv;
      hide Undisturbed;
      hide AllMade;
      hide HasFree;
      var slab := slabs[n];
      LastMade(mem, hs, num, r, slab.entrySz, 0);
      PutBlock(prev, mem[prev].(next := slab.head));
      LastLinked(old(mem), mem, hs, r, slab.entrySz, slab.head);
      slab := slab.(head := blocks, total := slab.total + num * (64 * slab.entrySz));
      NewKinds(regions0, kinds0, r, num * (64 * slab.entrySz), regions, kinds);
      GrowthDone(mem0, meta0, slabs, regions0, kinds0, pages0, used0, chains, home, table, n, hs, r,
                 mem, meta, slab, regions, kinds, pages);
      slabs := slabs[n := slab];
      chains := chains[n := hs + chains[n]];
      home := WithHome(home, hs, n);
    }

    // -------------------------------------------------------------------------------------
    // Allocating and freeing
    // -------------------------------------------------------------------------------------

    /**
     alloc_from_slab: an entry that was not live, or null if the fallback allocator refuses. While
     the slab has a free entry and no swap is lost, the fallback allocator is not asked.
     */
    method AllocFromSlab(n: nat) returns (p: nat, ghost e: Entry)
      requires Valid() && n < |slabs|
      modifies this
      ensures Valid() && table == old(table) && |slabs| == old(|slabs|)
      ensures refusals == old(refusals) + if p == 0 then 1 else 0
      ensures p == 0 ==> Undisturbed(old(mem), old(home), old(regions), old(kinds), mem, home, regions, kinds)
      ensures p != 0 ==>
                && LiveChange(old(mem), old(home), mem, home, e, true) && !Live(old(mem), old(home), e)
                && e.h in home && home[e.h] == n && e.h in mem && p == AddressOf(mem[e.h], e.bit)
                && ClientsKept(old(regions), old(kinds), regions, kinds)
      ensures losses <= old(losses)
      ensures Spare(old(mem), old(chains), n) && losses == old(losses) ==>
                p != 0 && regions == old(regions) && kinds == old(kinds)
    {
      hide Undisturbed;
      hide ClientsKept;
      hide LiveChange;
      hide Inv;
      hide HasFree;
      ghost var grown := false;
      e := Entry(0, 0);
      SelfUndisturbed(mem, home, regions, kinds);
      InvSlab(mem, meta, slabs, regions, kinds, pages, used, chains, home, table, n);
      while true
        invariant Valid() && table == old(table) && |slabs| == old(|slabs|) && n < |chains| && refusals == old(refusals)
        invariant Undisturbed(old(mem), old(home), old(regions), old(kinds), mem, home, regions, kinds)
        invariant (forall h | h in chains[n] :: h in mem) && (grown ==> HasFree(mem, chains[n]))
        invariant losses <= old(losses)
        invariant Spare(old(mem), old(chains), n) && losses == old(losses) ==>
                    mem == old(mem) && chains == old(chains) && regions == old(regions) && kinds == old(kinds)
        decreases losses, if grown then 0 else 1
      {
        InvSlab(mem, meta, slabs, regions, kinds, pages, used, chains, home, table, n);
        ghost var mem1, regions1, kinds1, home1, k, bit := mem, regions, kinds, home, 0, 0;
        var slab';
        p, slab', k, bit := SlabAlloc(slabs[n], chains[n]);
        if p != 0 {
          ghost var h := chains[n][k];
          e := Entry(h, bit);
          DataBit(mem1, meta, slabs, regions, kinds, pages, used, chains, home, table, n, h, bit, true, mem, slab');
          slabs := slabs[n := slab'];
          Fresh(old(mem), old(home), old(regions), old(kinds), mem1, home, regions, kinds, mem, e);
          UndisturbedClients(old(mem), old(home), old(regions), old(kinds), mem1, home, regions, kinds);
          return;
        }
        var ok := AddBlocks(n);
        UndisturbedTwice(old(mem), old(home), old(regions), old(kinds), mem1, home1, regions1, kinds1, mem, home,
                         regions, kinds);
        if !ok {
          return 0, e;
        }
        grown := true;
      }
    }

    /** dealloc_to_slab: the entry is no longer live, and every other allocation stays. */
    method DeallocToSlab(n: nat, p: nat, ghost e: Entry)
      requires Valid() && n < |slabs| && Live(mem, home, e) && home[e.h] == n && p == AddressOf(mem[e.h], e.bit)
      modifies this`mem, this`slabs
      ensures Valid() && LiveChange(old(mem), home, mem, home, e, false) && |slabs| == old(|slabs|)
    {
      hide LiveChange;
      hide Inv;
      InvSlab(mem, meta, slabs, regions, kinds, pages, used, chains, home, table, n);
      LivePlace(mem, meta, slabs, regions, kinds, pages, used, chains, home, table, e);
      ghost var k :| 0 <= k < |chains[n]| && chains[n][k] == e.h;
      forall j | 0 <= j < |chains[n]| && j != k ensures OutOfBlock(mem[chains[n][j]], p) {
        InvOwner(mem, meta, slabs, regions, kinds, pages, used, chains, home, table, n, k, j, e.bit);
      }
      var slab' := SlabDealloc(slabs[n], p, chains[n], k, e.bit);
      DataBit(old(mem), meta, slabs, regions, kinds, pages, used, chains, home, table, n, e.h, e.bit, false, mem,
              slab');
      slabs := slabs[n := slab'];
    }

    // -------------------------------------------------------------------------------------
    // Reclaim
    // -------------------------------------------------------------------------------------

    /** The inner loop that unmarks the first `pos` blocks. */
    method Unmark(start: nat, pos: nat, ghost mem0: Mem, ghost b: seq<nat>)
      requires Walk(mem0, b) && pos < |b| && start == b[0] && mem == Marked(mem0, b, 0, pos)
      requires forall j | 0 <= j < pos :: mem0[b[j]].bits == {}
      modifies this`mem
      ensures mem == mem0
    {
      var marked := start;
      for i := 0 to pos
        invariant mem == Marked(mem0, b, i, pos) && marked == b[i]
      {
        UnmarkNext(mem0, b, i, pos);
        mem := mem[marked := mem[marked].(bits := {})];
        marked := mem[marked].next;
      }
      MarkedNone(mem0, b, pos);
    }

    /** The first loop of maybe_free_batch: marks the whole batch, or finds a live entry and unmarks. */
    method MarkBatch(start: nat, count: nat, ghost b: seq<nat>) returns (inUse: bool, last: nat, next: nat)
      requires Walk(mem, b) && |b| == count > 0 && start == b[0]
      modifies this`mem
      ensures inUse <==> exists j :: 0 <= j < |b| && old(mem)[b[j]].bits != {}
      ensures mem == if inUse then old(mem) else Marked(old(mem), b, 0, count)
      ensures last == Last(b) && next == old(mem)[Last(b)].next
    {
      next, last, inUse := start, 0, false;
      MarkedNone(mem, b, 0);
      for pos := 0 to count
        invariant mem == if inUse then old(mem) else Marked(old(mem), b, 0, pos)
        invariant next == (if pos < count then b[pos] else old(mem)[Last(b)].next) && (pos > 0 ==> last == b[pos - 1])
        invariant inUse <==> exists j :: 0 <= j < pos && old(mem)[b[j]].bits != {}
      {
        MarkNext(old(mem), b, pos);
        last := next;
        if !inUse {
          if mem[next].bits == {} {
            mem := mem[next := mem[next].(bits := ALL_BITS)];
          } else {
            Unmark(start, pos, old(mem), b);
            inUse := true;
          }
        }
        next := mem[next].next;
      }
    }

    /** The last loop of maybe_free_batch: the structures of the batch go back to the metadata slab. */
    method FreeStructures(start: nat, count: nat, ghost b: seq<nat>) returns (next: nat)
      requires RegionsOk(regions, kinds) && MetaOk(mem, meta, pages, used, regions, kinds)
      requires Walk(mem, b) && |b| == count > 0 && start == b[0] && forall h | h in b :: h in used
      modifies this`mem, this`meta, this`used
      ensures MetaOk(mem, meta, pages, used, regions, kinds) && used == old(used) - Elems(b)
      ensures forall a | a in old(used) && a in old(mem) :: a in mem && mem[a] == old(mem)[a]
      ensures next == old(mem)[Last(b)].next
    {
      hide MetaOk;
      hide RegionsOk;
      next := start;
      PagesApart(mem, meta, pages, used, regions, kinds);
      for pos := 0 to count
        invariant MetaOk(mem, meta, pages, used, regions, kinds) && used == old(used) - Elems(b[..pos])
        invariant forall a | a in old(mem) && a !in pages :: a in mem && mem[a] == old(mem)[a]
        invariant next == if pos < count then b[pos] else old(mem)[Last(b)].next
      {
        assert b[pos] in b && b[pos] !in b[..pos];
        var curr := next;
        next := mem[curr].next;
        DeallocMetadata(curr);
        assert Elems(b[..pos + 1]) == Elems(b[..pos]) + {b[pos]};
      }
      assert b[..count] == b;
    }

    /**
     maybe_free_batch: if the batch has no live entry, its structures and its region go back, the
     region with the size and alignment it was obtained with; else nothing changes.
     */
    method MaybeFreeBatch(
      start: nat, ghost n: nat, ghost a: seq<nat>, ghost b: seq<nat>, ghost c: seq<nat>)
      returns (freed: nat, r: nat)
      requires n < |slabs| && n < |chains| && chains[n] == a + b + c && b != [] && start == b[0]
      requires Batch(mem, b, slabs[n].entrySz) && Valid()
      modifies this`mem, this`meta, this`used, this`regions, this`kinds
      ensures freed == 0 <==> AnyLive(old(mem), b)
      ensures freed == 0 ==>
                && r == Last(b) && mem == old(mem) && meta == old(meta) && used == old(used)
                && regions == old(regions) && kinds == old(kinds)
      ensures freed > 0 ==>
                && r == Head(c) && freed == |b| * (64 * slabs[n].entrySz) && used == old(used) - Elems(b)
                && RegionsOk(regions, kinds) && MetaOk(mem, meta, pages, used, regions, kinds)
                && BatchTaken(old(mem), old(regions), old(kinds), home, b, mem, regions, kinds)
    {
      hide MetaOk;
      hide RegionsOk;
      hide DataOk;
      hide Covered;
      hide Marked;
      BatchFacts(mem, meta, slabs, regions, kinds, pages, used, chains, home, table, n, a, b, c);
      hide Batch;
      hide Inv;
      var block := mem[start];
      var inUse, last, next := MarkBatch(start, block.batchSz, b);
      if inUse {
        return 0, last;
      }
      MarkedMeta(old(mem), meta, pages, used, regions, kinds, b);
      MarkedWalk(old(mem), b);
      var size := block.batchSz * (64 * block.entrySz);
      next := FreeStructures(start, block.batchSz, b);
      NoPageAt(mem, meta, pages, used, regions, kinds, block.data);
      FallbackDealloc(block.data, size, AlignFor(size));
      MetaRegions(mem, meta, pages, used, old(regions), old(kinds), regions, kinds);
      return size, next;
    }

    /** One round of reclaim_slab: batch `b`, after `a` and before `c`, leaves or stays. */
    method ReclaimStep(
      n: nat, start: nat, prev: nat, ghost a: seq<nat>, ghost b: seq<nat>, ghost c: seq<nat>)
      returns (freed: nat, r: nat)
      requires n < |slabs| && n < |chains| && chains[n] == a + b + c && b != [] && start == b[0]
      requires prev == if a == [] then 0 else Last(a)
      requires Batch(mem, b, slabs[n].entrySz) && Batched(mem, a, slabs[n].entrySz)
      requires Batched(mem, c, slabs[n].entrySz) && Valid()
      modifies this`mem, this`meta, this`used, this`regions, this`kinds, this`slabs, this`chains, this`home
      ensures Valid() && |slabs| == old(|slabs|) && n < |chains| && slabs[n].entrySz == old(slabs)[n].entrySz
      ensures freed == 0 <==> AnyLive(old(mem), b)
      ensures freed == 0 ==>
                && r == Last(b) && mem == old(mem) && regions == old(regions) && kinds == old(kinds)
                && slabs == old(slabs) && chains == old(chains) && home == old(home)
      ensures freed > 0 ==>
                && r == Head(c) && chains == old(chains)[n := a + c]
                && Batched(mem, a, slabs[n].entrySz) && Batched(mem, c, slabs[n].entrySz)
                && slabs == old(slabs)[n := old(slabs)[n].(head := Head(a + c), total := slabs[n].total)]
                && slabs[n].total + freed == old(slabs)[n].total
                && Reclaimed(old(mem), old(home), old(regions), old(kinds), mem, home, regions, kinds)
    {
      hide MetaOk;
      hide RegionsOk;
      hide Inv;
      hide Batched;
      hide Batch;
      hide Reclaimed;
      BatchRoom(mem, meta, slabs, regions, kinds, pages, used, chains, home, table, n, a, b, c);
      freed, r := MaybeFreeBatch(start, n, a, b, c);
      if freed > 0 {
        ghost var mem1 := mem;
        if prev != 0 {
          PutBlock(prev, mem[prev].(next := r));
        }
        var slab := slabs[n].(head := if prev == 0 then r else slabs[n].head, total := slabs[n].total - freed);
        BatchFreed(old(mem), old(meta), slabs, old(regions), old(kinds), pages, old(used), chains, home, table, n, a,
                   b, c,
                   mem, meta, slab, regions, kinds);
        slabs := slabs[n := slab];
        chains := chains[n := a + c];
        home := WithoutHome(home, b);
      }
    }

    /**
     reclaim_slab: unless less than a page is unused, exactly the batches without a live entry
     leave, and the rest stay in order. Every live allocation stays where it is.
     */
    method ReclaimSlab(n: nat)
      requires Valid() && n < |slabs| && n < |chains|
      modifies this`mem, this`meta, this`used, this`regions, this`kinds, this`slabs, this`chains, this`home
      ensures Valid() && |slabs| == old(|slabs|) && slabs == old(slabs)[n := slabs[n]]
      ensures Reclaimed(old(mem), old(home), old(regions), old(kinds), mem, home, regions, kinds)
      ensures chains == old(chains)[n := KeptChain(old(mem), old(slabs)[n], old(chains)[n])]
    {
      hide Inv;
      hide Batched;
      hide Batch;
      hide Reclaimed;
      hide Kept;
      hide Sweep;
      SelfReclaimed(mem, home, regions, kinds);
      SlabParts(mem, meta, slabs, regions, kinds, pages, used, chains, home, table, n);
      var size := slabs[n].entrySz;
      if slabs[n].total - slabs[n].inUse < PAGE_4K {
        return;
      }
      var prev, start := 0, slabs[n].head;
      ghost var a, s, s0 := [], chains[n], chains[n];
      SweepStart(mem, s, size);
      assert a + s == s;
      while start != 0
        invariant Valid() && |slabs| == old(|slabs|) && n < |chains| && slabs[n].entrySz == size
        invariant slabs == old(slabs)[n := slabs[n]]
        invariant chains == old(chains)[n := a + s] && start == Head(s) && prev == (if a == [] then 0 else Last(a))
        invariant Sweep(old(mem), s0, mem, a, s, size)
        invariant Reclaimed(old(mem), old(home), old(regions), old(kinds), mem, home, regions, kinds)
        decreases |s|
      {
        SweepFirst(old(mem), s0, mem, a, s, size);
        ghost var k := mem[s[0]].batchSz;
        ghost var b, c := s[..k], s[k..];
        NextOf(mem, meta, slabs, regions, kinds, pages, used, chains, home, table, n, a, b, c);
        ghost var mem1, home1, regions1, kinds1 := mem, home, regions, kinds;
        var freed, r := ReclaimStep(n, start, prev, a, b, c);
        if freed > 0 {
          start := r;
          ReclaimedTwice(old(mem), old(home), old(regions), old(kinds), mem1, home1, regions1, kinds1, mem, home,
                         regions, kinds);
          StillLinked(mem1, home1, regions1, kinds1, mem, home, regions, kinds, chains, n, a, c, meta, slabs, pages,
                      used, table);
          SweepFrees(old(mem), s0, mem1, a, s, size, k, mem);
        } else {
          prev := r;
          start := mem[r].next;
          SweepKeeps(old(mem), s0, mem, a, s, size, k);
          a := a + b;
        }
        s := c;
      }
      EndOfList(mem, meta, slabs, regions, kinds, pages, used, chains, home, table, n, a, s);
      SweepEnd(old(mem), s0, mem, a, size);
      assert a + [] == a;
    }

    /** The loop of reclaim: every slab in turn. */
    method ReclaimAll()
      requires Whole() && |slabs| == count
      modifies this`mem, this`meta, this`used, this`regions, this`kinds, this`slabs, this`chains, this`home
      ensures Whole() && |slabs| == count && |chains| == old(|chains|) == count == old(|slabs|)
      ensures Reclaimed(old(mem), old(home), old(regions), old(kinds), mem, home, regions, kinds)
      ensures forall n | 0 <= n < count :: chains[n] == KeptChain(old(mem), old(slabs)[n], old(chains)[n])
    {
      hide Inv;
      hide Reclaimed;
      hide KeptChain;
      SelfReclaimed(mem, home, regions, kinds);
      InvLengths(mem, meta, slabs, regions, kinds, pages, used, chains, home, table);
      for n := 0 to count
        invariant Valid() && |slabs| == |chains| == count
        invariant Reclaimed(old(mem), old(home), old(regions), old(kinds), mem, home, regions, kinds)
        invariant forall i | 0 <= i < n :: chains[i] == KeptChain(old(mem), old(slabs)[i], old(chains)[i])
        invariant forall i | n <= i < count :: chains[i] == old(chains)[i] && slabs[i] == old(slabs)[i]
      {
        ghost var mem1, home1, regions1, kinds1 := mem, home, regions, kinds;
        KeptThen(old(mem), old(meta), old(slabs), old(regions), old(kinds), old(pages), old(used), old(chains),
                 old(home), table,
                 mem, meta, slabs, regions, kinds, pages, used, chains, home, n);
        ReclaimSlab(n);
        ReclaimedTwice(old(mem), old(home), old(regions), old(kinds), mem1, home1, regions1, kinds1, mem, home,
                       regions, kinds);
      }
    }

    // -------------------------------------------------------------------------------------
    // Set-up and the public operations
    // -------------------------------------------------------------------------------------

    /** The loop of do_init that takes a metadata entry for each data slab. */
    method TakeTable(p: nat)
      requires RegionsOk(regions, kinds) && MetaOk(mem, meta, pages, used, regions, kinds) && used == {} && pages == [p]
      requires p in mem && mem[p].bits == {0} && count <= 27
      modifies this`mem, this`meta, this`used
      ensures MetaOk(mem, meta, pages, used, regions, kinds)
    {
      hide MetaOk;
      hide RegionsOk;
      hide ListOk;
      for idx := 0 to count
        invariant MetaOk(mem, meta.(inUse := meta.inUse + idx * 64), pages, used, regions, kinds)
        invariant p in mem && (forall i | idx < i < 64 :: i !in mem[p].bits) && meta == old(meta)
      {
        ghost var m := meta.(inUse := meta.inUse + idx * 64);
        TableBit(mem, m, pages, used, regions, kinds, p, idx + 1);
        mem := mem[p := mem[p].(bits := mem[p].bits + {idx + 1})];
        used := used + {p + 64 * (idx + 1)};
      }
      meta := meta.(inUse := meta.inUse + count * 64);
    }

    /** The loop of do_init that sets the slabs up, each with entries twice as large as the one before. */
    static method EmptyTable(count: nat) returns (made: seq<Slab>, ghost lists: seq<seq<nat>>)
      ensures |made| == |lists| == count
      ensures forall n | 0 <= n < count :: made[n] == Slab(EntrySize(n), 0, 0, 0) && lists[n] == []
    {
      var size := 16;
      made, lists := [], [];
      for idx := 0 to count
        invariant |made| == |lists| == idx && size == EntrySize(idx)
        invariant forall n | 0 <= n < idx :: made[n] == Slab(EntrySize(n), 0, 0, 0) && lists[n] == []
      {
        made := made + [Slab(size, 0, 0, 0)];
        lists := lists + [[]];
        size := 2 * size;
      }
    }

    /** init: the first metadata page, with the array of empty slabs in it; panics without memory. */
    method Init() returns (ok: bool)
      requires Whole() && slabs == []
      modifies this
      ensures if ok then Whole() && |slabs| == count && home == map[] else slabs == []
      ensures refusals == old(refusals) + if ok then 0 else 1
      ensures OnlyMoreRegions(old(regions), old(kinds), regions, kinds)
    {
      hide MetaOk;
      hide RegionsOk;
      hide Covered;
      hide ListOk;
      NoData(mem, kinds);
      ok := AddPage();
      if !ok {
        return;
      }
      FirstPage(mem, meta, pages, used, regions, kinds);
      assert pages == [pages[0]] + pages[1..];
      TakeTable(meta.head);
      table := used;
      hide EntrySize;
      var made; ghost var lists;
      made, lists := EmptyTable(count);
      EmptySlabs(mem, made, lists, home, regions, kinds);
      slabs, chains := made, lists;
      assert Covered(mem, home, kinds) by { NoDataNow(mem, home, old(kinds), kinds); }
    }

    /** slabs(): sets the allocator up on first use. */
    method EnsureInit() returns (ok: bool)
      requires Whole()
      modifies this
      ensures ok ==> Whole() && |slabs| == count && home == old(home)
      ensures ok ==> Undisturbed(old(mem), old(home), old(regions), old(kinds), mem, home, regions, kinds)
      ensures refusals == old(refusals) + (if ok then 0 else 1) && (!ok ==> slabs == [])
      ensures old(|slabs|) == count ==> ok && unchanged(this)
    {
      hide Inv;
      hide Undisturbed;
      if |slabs| == count {
        SelfUndisturbed(mem, home, regions, kinds);
        return true;
      }
      ok := Init();
      if ok {
        EmptyUndisturbed(old(mem), old(regions), old(kinds), mem, regions, kinds);
      }
    }

    /**
     alloc. A small request gets an entry that was not live, large enough, and aligned as asked
     up to 2M; a large one gets a region of its own from the fallback. The answer is null, or the
     set-up panics, exactly when the fallback refuses.
     */
    method Alloc(layout: Layout) returns (r: Outcome, ghost e: Entry)
      requires Whole() && layout.size > 0
      modifies this
      ensures r.Panicked? ==> Small(layout, count) && slabs == old(slabs) == []
      ensures refusals == old(refusals) + if r.Panicked? || r.p == 0 then 1 else 0
      ensures r.Ptr? ==> Whole()
      ensures r == Ptr(0) ==> Undisturbed(old(mem), old(home), old(regions), old(kinds), mem, home, regions, kinds)
      ensures r.Ptr? && r.p != 0 && Small(layout, count) ==>
                && LiveChange(old(mem), old(home), mem, home, e, true) && !Live(old(mem), old(home), e)
                && e.h in home && home[e.h] == Order(layout) && e.h in mem && r.p == AddressOf(mem[e.h], e.bit)
                && layout.size <= mem[e.h].entrySz && (layout.alignLog <= 21 ==> r.p % Pow2(layout.alignLog) == 0)
                && ClientsKept(old(regions), old(kinds), regions, kinds)
      ensures Small(layout, count) && old(|slabs|) == count && Spare(old(mem), old(chains), Order(layout))
              && losses == old(losses) ==>
                r.Ptr? && r.p != 0 && regions == old(regions) && kinds == old(kinds)
      ensures r.Ptr? && r.p != 0 && !Small(layout, count) ==>
                && r.p !in old(regions) && r.p % Pow2(layout.alignLog) == 0
                && regions == old(regions)[r.p := Region(layout.size, Pow2(layout.alignLog))]
                && kinds == old(kinds)[r.p := Client] && mem == old(mem) && home == old(home) && slabs == old(slabs)
    {
      hide Inv;
      hide Undisturbed;
      hide ClientsKept;
      hide LiveChange;
      hide Live;
      e := Entry(0, 0);
      if Small(layout, count) {
        OrderFits(layout, count);
        var ok := EnsureInit();
        if !ok {
          return Panicked, e;
        }
        ghost var mem1, home1, regions1, kinds1 := mem, home, regions, kinds;
        InvLengths(old(mem), old(meta), old(slabs), old(regions), old(kinds), old(pages), old(used), old(chains),
                   old(home), old(table));
        var p;
        p, e := AllocFromSlab(Order(layout));
        if p == 0 {
          UndisturbedTwice(old(mem), old(home), old(regions), old(kinds), mem1, home1, regions1, kinds1, mem, home,
                           regions, kinds);
        } else {
          LiveAfter(old(mem), old(home), old(regions), old(kinds), mem1, home1, regions1, kinds1, mem, home, e);
          SameLive(old(mem), old(home), old(regions), old(kinds), mem1, home1, regions1, kinds1, e);
          NowLive(mem1, home1, mem, home, e);
          UndisturbedClients(old(mem), old(home), old(regions), old(kinds), mem1, home1, regions1, kinds1);
          ClientsKeptTwice(old(regions), old(kinds), regions1, kinds1, regions, kinds);
          EntryFits(mem, meta, slabs, regions, kinds, pages, used, chains, home, table, e, layout, count);
        }
        return Ptr(p), e;
      }
      InvRegions(mem, meta, slabs, regions, kinds, pages, used, chains, home, table);
      var p := FallbackAlloc(layout.size, Pow2(layout.alignLog), Client);
      if p == 0 {
        SelfUndisturbed(mem, home, regions, kinds);
      } else {
        ClientChanged(mem, meta, slabs, old(regions), old(kinds), pages, used, chains, home, table, regions, kinds, p);
      }
      return Ptr(p), e;
    }

    /**
     reclaim: exactly the batches without a live entry go, from every slab with a page or more
     unused. On first use it sets the allocator up, and there is nothing to reclaim.
     */
    method Reclaim() returns (ok: bool)
      requires Whole()
      modifies this
      ensures if ok then Whole() && |slabs| == |chains| == count else slabs == old(slabs) == []
      ensures refusals == old(refusals) + if ok then 0 else 1
      ensures old(|slabs|) == count ==>
                && ok && |old(chains)| == count
                && Reclaimed(old(mem), old(home), old(regions), old(kinds), mem, home, regions, kinds)
                && forall n | 0 <= n < count :: chains[n] == KeptChain(old(mem), old(slabs)[n], old(chains)[n])
      ensures old(|slabs|) != count && ok ==>
                home == map[] && ClientsKept(old(regions), old(kinds), regions, kinds)
    {
      hide Inv;
      hide Reclaimed;
      hide KeptChain;
      hide Undisturbed;
      hide ClientsKept;
      ok := EnsureInit();
      if !ok {
        return;
      }
      ghost var mem1, home1, regions1, kinds1 := mem, home, regions, kinds;
      ReclaimAll();
      if old(|slabs|) != count {
        UndisturbedClients(old(mem), old(home), old(regions), old(kinds), mem1, home1, regions1, kinds1);
        ReclaimedClients(mem1, home1, regions1, kinds1, mem, home, regions, kinds);
        ClientsKeptTwice(old(regions), old(kinds), regions1, kinds1, regions, kinds);
      }
    }

    /** dealloc of what alloc returned for the same layout: exactly that allocation goes. */
    method Dealloc(p: nat, layout: Layout, ghost e: Entry)
      requires Whole()
      requires Small(layout, count) ==>
                 |slabs| == count && Live(mem, home, e) && home[e.h] == Order(layout) && p == AddressOf(mem[e.h], e.bit)
      requires !Small(layout, count) ==>
                 && p in regions && p in kinds && kinds[p] == Client
                 && regions[p] == Region(layout.size, Pow2(layout.alignLog))
      modifies this`mem, this`slabs, this`regions, this`kinds
      ensures Whole()
      ensures Small(layout, count) ==>
                LiveChange(old(mem), home, mem, home, e, false) && regions == old(regions) && kinds == old(kinds)
      ensures !Small(layout, count) ==>
                mem == old(mem) && slabs == old(slabs) && regions == old(regions) - {p} && kinds == old(kinds) - {p}
    {
      hide Inv;
      hide LiveChange;
      if Small(layout, count) {
        OrderFits(layout, count);
        DeallocToSlab(Order(layout), p, e);
      } else {
        InvRegions(mem, meta, slabs, regions, kinds, pages, used, chains, home, table);
        FallbackDealloc(p, layout.size, Pow2(layout.alignLog));
        ClientChanged(mem, meta, slabs, old(regions), old(kinds), pages, used, chains, home, table, regions, kinds, p);
      }
    }
  }

  /** A pointer, 0 for null, or the panic of a failed set-up. */
  datatype Outcome = Ptr(p: nat) | Panicked

  lemma EmptyUndisturbed(mem: Mem, regions: Regions, kinds: Kinds, mem': Mem, regions': Regions, kinds': Kinds)
    requires OnlyMoreRegions(regions, kinds, regions', kinds')
    ensures Undisturbed(mem, map[], regions, kinds, mem', map[], regions', kinds')
  {
  }

  lemma NowLive(mem: Mem, home: Home, mem': Mem, home': Home, e: Entry)
    requires LiveChange(mem, home, mem', home', e, true)
    ensures Live(mem', home', e)
  {
  }

  lemma InvRegions(
    mem: Mem, meta: Slab, slabs: seq<Slab>, regions: Regions, kinds: Kinds, pages: seq<nat>, used: set<nat>,
    chains: seq<seq<nat>>, home: Home, table: set<nat>)
    requires Inv(mem, meta, slabs, regions, kinds, pages, used, chains, home, table)
    ensures RegionsOk(regions, kinds) && kinds.Keys == regions.Keys
  {
  }

  /** The entry that serves a layout is large enough, and aligned up to 2M. */
  lemma EntryFits(
    mem: Mem, meta: Slab, slabs: seq<Slab>, regions: Regions, kinds: Kinds, pages: seq<nat>, used: set<nat>,
    chains: seq<seq<nat>>, home: Home, table: set<nat>, e: Entry, layout: Layout, count: nat)
    requires Inv(mem, meta, slabs, regions, kinds, pages, used, chains, home, table) && Live(mem, home, e)
    requires Small(layout, count) && count > 0 && home[e.h] == Order(layout) < |slabs|
    ensures layout.size <= mem[e.h].entrySz
    ensures layout.alignLog <= 21 ==> AddressOf(mem[e.h], e.bit) % Pow2(layout.alignLog) == 0
  {
    hide MetaOk;
    hide Covered;
    OrderFits(layout, count);
    SlabFacts(mem, slabs, chains, home, regions, kinds, home[e.h]);
    HomedOf(mem, slabs, chains, home, regions, kinds, e.h);
    LiveBit(mem, slabs, chains, home, regions, kinds, e);
    hide DataOk;
    hide RegionsOk;
    if layout.alignLog <= 21 {
      AlignedAsAsked(layout, count, mem[e.h], regions, kinds, e.bit);
    }
  }

  /** A client's region came or went. */
  lemma ClientChanged(
    mem: Mem, meta: Slab, slabs: seq<Slab>, regions: Regions, kinds: Kinds, pages: seq<nat>, used: set<nat>,
    chains: seq<seq<nat>>, home: Home, table: set<nat>, regions': Regions, kinds': Kinds, p: nat)
    requires Inv(mem, meta, slabs, regions, kinds, pages, used, chains, home, table) && RegionsOk(regions', kinds')
    requires forall r | r in kinds && r != p :: r in kinds' && kinds'[r] == kinds[r]
    requires forall r | r in regions && r != p :: r in regions' && regions'[r] == regions[r]
    requires forall r | r in kinds' && r != p :: r in kinds && kinds'[r] == kinds[r]
    requires (p in kinds ==> kinds[p] == Client) && (p in kinds' ==> kinds'[p] == Client)
    ensures Inv(mem, meta, slabs, regions', kinds', pages, used, chains, home, table)
  {
    hide DataOk;
    hide RegionsOk;
    InvRegions(mem, meta, slabs, regions, kinds, pages, used, chains, home, table);
    assert p in pages ==> PageOk(mem, used, regions, kinds, p);
    hide MetaOk;
    MetaRegions(mem, meta, pages, used, regions, kinds, regions', kinds');
    DataFrame(mem, mem, slabs, chains, home, regions, kinds, regions', kinds');
    forall r | r in kinds' && kinds'[r] == BatchData ensures HasHeader(mem, home, r) {
      assert HasHeader(mem, home, r);
    }
  }

  lemma InvLengths(
    mem: Mem, meta: Slab, slabs: seq<Slab>, regions: Regions, kinds: Kinds, pages: seq<nat>, used: set<nat>,
    chains: seq<seq<nat>>, home: Home, table: set<nat>)
    requires Inv(mem, meta, slabs, regions, kinds, pages, used, chains, home, table)
    ensures |chains| == |slabs| && forall h | h in home :: h in mem
  {
    forall h | h in home ensures h in mem { HomedOf(mem, slabs, chains, home, regions, kinds, h); }
  }

  /** What a slab keeps is not changed by reclaiming others first. */
  lemma KeptThen(
    mem0: Mem, meta0: Slab, slabs0: seq<Slab>, regions0: Regions, kinds0: Kinds, pages0: seq<nat>, used0: set<nat>,
    chains0: seq<seq<nat>>, home0: Home, table: set<nat>,
    mem: Mem, meta: Slab, slabs: seq<Slab>, regions: Regions, kinds: Kinds, pages: seq<nat>, used: set<nat>,
    chains: seq<seq<nat>>, home: Home, n: nat)
    requires Inv(mem0, meta0, slabs0, regions0, kinds0, pages0, used0, chains0, home0, table)
    requires Inv(mem, meta, slabs, regions, kinds, pages, used, chains, home, table)
    requires n < |slabs| && n < |chains| && n < |slabs0| && n < |chains0| && chains[n] == chains0[n]
    requires slabs[n] == slabs0[n]
    requires Reclaimed(mem0, home0, regions0, kinds0, mem, home, regions, kinds)
    ensures KeptChain(mem, slabs[n], chains[n]) == KeptChain(mem0, slabs0[n], chains0[n])
    ensures forall h | h in home0 :: h in mem0
  {
    hide Batched;
    hide Kept;
    SlabParts(mem0, meta0, slabs0, regions0, kinds0, pages0, used0, chains0, home0, table, n);
    SlabParts(mem, meta, slabs, regions, kinds, pages, used, chains, home, table, n);
    hide Inv;
    KeptFrame(mem0, mem, chains[n], slabs[n].entrySz);
  }

  lemma TableBit(
    mem: Mem, meta: Slab, pages: seq<nat>, used: set<nat>, regions: Regions, kinds: Kinds, p: nat, bit: nat)
    requires MetaOk(mem, meta, pages, used, regions, kinds) && pages == [p] && p in mem && 1 <= bit < 64
    requires bit !in mem[p].bits
    ensures MetaOk(mem[p := mem[p].(bits := mem[p].bits + {bit})], meta.(inUse := meta.inUse + 64), pages,
                   used + {p + 64 * bit}, regions, kinds)
  {
    BitKeeps(mem, meta, pages, 0, bit, true);
    MetaBit(mem, meta, pages, used, regions, kinds, 0, bit, true, mem[p := mem[p].(bits := mem[p].bits + {bit})],
            meta.(inUse := meta.inUse + 64));
  }

  lemma FirstPage(mem: Mem, meta: Slab, pages: seq<nat>, used: set<nat>, regions: Regions, kinds: Kinds)
    requires MetaOk(mem, meta, pages, used, regions, kinds)
    ensures meta.head == Head(pages)
  {
  }

  lemma EmptySlabs(mem: Mem, slabs: seq<Slab>, chains: seq<seq<nat>>, home: Home, regions: Regions, kinds: Kinds)
    requires |slabs| == |chains| && home == map[]
    requires forall n | 0 <= n < |slabs| :: slabs[n] == Slab(EntrySize(n), 0, 0, 0) && chains[n] == []
    ensures DataOk(mem, slabs, chains, home, regions, kinds) && Sizes(slabs)
  {
    forall n | 0 <= n < |slabs| ensures SlabOk(mem, slabs[n], chains[n], home, n) {
      assert Batched(mem, [], slabs[n].entrySz);
      assert ListOk(mem, slabs[n], []);
    }
  }

  lemma NoData(mem: Mem, kinds: Kinds)
    requires Covered(mem, map[], kinds)
    ensures forall r | r in kinds :: kinds[r] != BatchData
  {
    forall r | r in kinds ensures kinds[r] != BatchData {
      assert kinds[r] == BatchData ==> HasHeader(mem, map[], r);
    }
  }

  lemma NoDataNow(mem: Mem, home: Home, kinds0: Kinds, kinds: Kinds)
    requires forall r | r in kinds0 :: kinds0[r] != BatchData
    requires forall r | r in kinds && r !in kinds0 :: kinds[r] == Page
    requires forall r | r in kinds0 :: r in kinds && kinds[r] == kinds0[r]
    ensures Covered(mem, home, kinds)
  {
  }

  /** The list of a slab after a reclaim. */
  ghost function KeptChain(mem: Mem, slab: Slab, s: seq<nat>): seq<nat> {
    if slab.total - slab.inUse < PAGE_4K then s
    else if Batched(mem, s, slab.entrySz) && forall h | h in s :: h in mem then Kept(mem, s, slab.entrySz)
    else []
  }

  lemma SlabParts(
    mem: Mem, meta: Slab, slabs: seq<Slab>, regions: Regions, kinds: Kinds, pages: seq<nat>, used: set<nat>,
    chains: seq<seq<nat>>, home: Home, table: set<nat>, n: nat)
    requires Inv(mem, meta, slabs, regions, kinds, pages, used, chains, home, table) && n < |slabs| && n < |chains|
    ensures Batched(mem, chains[n], slabs[n].entrySz) && slabs[n].head == Head(chains[n])
    ensures forall h | h in chains[n] :: h in mem && h in home && h != 0
    ensures forall h | h in home :: h in mem
  {
    SlabFacts(mem, slabs, chains, home, regions, kinds, n);
    HomeOutside(mem, slabs, chains, home, regions, kinds, n, []);
    forall h | h in chains[n] ensures h != 0 {
      var i :| 0 <= i < |chains[n]| && chains[n][i] == h;
      assert LinkOk(mem, chains[n], i);
    }
  }

  lemma NextOf(
    mem: Mem, meta: Slab, slabs: seq<Slab>, regions: Regions, kinds: Kinds, pages: seq<nat>, used: set<nat>,
    chains: seq<seq<nat>>, home: Home, table: set<nat>, n: nat, a: seq<nat>, b: seq<nat>, c: seq<nat>)
    requires Inv(mem, meta, slabs, regions, kinds, pages, used, chains, home, table)
    requires n < |slabs| && n < |chains| && chains[n] == a + b + c && b != []
    ensures Last(b) in mem && mem[Last(b)].next == Head(c)
    ensures Last(a + b) == Last(b)
    ensures forall h | h in home :: h in mem
    ensures forall h | h in c :: h in home
  {
    SlabFacts(mem, slabs, chains, home, regions, kinds, n);
    BatchWalk(mem, slabs[n], a, b, c);
    HomeOutside(mem, slabs, chains, home, regions, kinds, n, a);
    assert forall h | h in c :: h in a + b + c;
  }

  lemma StillLinked(
    mem1: Mem, home1: Home, regions1: Regions, kinds1: Kinds, mem: Mem, home: Home, regions: Regions, kinds: Kinds,
    chains: seq<seq<nat>>, n: nat, a: seq<nat>, c: seq<nat>, meta: Slab, slabs: seq<Slab>, pages: seq<nat>,
    used: set<nat>, table: set<nat>)
    requires Inv(mem, meta, slabs, regions, kinds, pages, used, chains, home, table) && n < |slabs| && n < |chains|
    requires chains[n] == a + c
    requires Reclaimed(mem1, home1, regions1, kinds1, mem, home, regions, kinds)
    requires forall h | h in c :: h in home1 && h in mem1
    ensures forall h | h in c :: h in mem && mem[h] == mem1[h].(next := mem[h].next)
  {
    SlabParts(mem, meta, slabs, regions, kinds, pages, used, chains, home, table, n);
    hide Inv;
    assert forall h | h in c :: h in a + c;
  }

  lemma EndOfList(
    mem: Mem, meta: Slab, slabs: seq<Slab>, regions: Regions, kinds: Kinds, pages: seq<nat>, used: set<nat>,
    chains: seq<seq<nat>>, home: Home, table: set<nat>, n: nat, a: seq<nat>, s: seq<nat>)
    requires Inv(mem, meta, slabs, regions, kinds, pages, used, chains, home, table)
    requires n < |slabs| && n < |chains| && chains[n] == a + s
    ensures s != [] ==> Head(s) != 0
  {
    SlabParts(mem, meta, slabs, regions, kinds, pages, used, chains, home, table, n);
    if s != [] { assert s[0] in a + s; }
  }

  lemma BatchRoom(
    mem: Mem, meta: Slab, slabs: seq<Slab>, regions: Regions, kinds: Kinds, pages: seq<nat>, used: set<nat>,
    chains: seq<seq<nat>>, home: Home, table: set<nat>, n: nat, a: seq<nat>, b: seq<nat>, c: seq<nat>)
    requires Inv(mem, meta, slabs, regions, kinds, pages, used, chains, home, table)
    requires n < |slabs| && n < |chains| && chains[n] == a + b + c && b != []
    ensures |b| * (64 * slabs[n].entrySz) <= slabs[n].total
    ensures slabs[n].head == Head(a + b + c)
    ensures forall h | h in b :: h in mem
    ensures a != [] ==> Last(a) in mem && Last(a) in home && Last(a) in used && Last(a) !in b && Last(a) != 0
  {
    hide MetaOk;
    hide RegionsOk;
    hide Covered;
    hide DataOk;
    hide Batched;
    SlabFacts(mem, slabs, chains, home, regions, kinds, n);
    NoDupParts(mem, slabs[n], a, b, c);
    HomeOutside(mem, slabs, chains, home, regions, kinds, n, a);
    Distribute(|b|, |a + c|, slabs[n].entrySz);
    assert 64 * |a + c| * slabs[n].entrySz >= 0;
    if a != [] {
      assert LinkOk(mem, a + b + c, |a| - 1) && (a + b + c)[|a| - 1] == Last(a);
    }
  }

  /** What the invariant says of one batch of a slab. */
  lemma BatchFacts(
    mem: Mem, meta: Slab, slabs: seq<Slab>, regions: Regions, kinds: Kinds, pages: seq<nat>, used: set<nat>,
    chains: seq<seq<nat>>, home: Home, table: set<nat>, n: nat, a: seq<nat>, b: seq<nat>, c: seq<nat>)
    requires Inv(mem, meta, slabs, regions, kinds, pages, used, chains, home, table)
    requires n < |slabs| && n < |chains| && chains[n] == a + b + c && Batch(mem, b, slabs[n].entrySz)
    ensures RegionsOk(regions, kinds) && MetaOk(mem, meta, pages, used, regions, kinds)
    ensures Walk(mem, b) && mem[Last(b)].next == Head(c) && forall h | h in b :: h in used && h in mem && h !in pages
    ensures forall h | h in home :: h in used && h in mem && h !in pages
    ensures var block := mem[b[0]];
            && block.batchSz == |b| && block.entrySz == slabs[n].entrySz && block.entrySz > 0
            && block.data in regions && block.data in kinds && kinds[block.data] == BatchData
            && var size := block.batchSz * (64 * block.entrySz);
               size > 0 && regions[block.data] == Region(size, AlignFor(size))
  {
    hide MetaOk;
    hide RegionsOk;
    hide Covered;
    hide DataOk;
    hide ListOk;
    hide Batched;
    SlabFacts(mem, slabs, chains, home, regions, kinds, n);
    BatchWalk(mem, slabs[n], a, b, c);
    NoDupParts(mem, slabs[n], a, b, c);
    InBatchAt(mem, b, slabs[n].entrySz, 0);
    HomeOutside(mem, slabs, chains, home, regions, kinds, n, a);
    HomedOf(mem, slabs, chains, home, regions, kinds, b[0]);
    PagesApart(mem, meta, pages, used, regions, kinds);
    Spaced(0, mem[b[0]].batchSz, 64 * mem[b[0]].entrySz);
  }

  lemma MarkedMeta(mem: Mem, meta: Slab, pages: seq<nat>, used: set<nat>, regions: Regions, kinds: Kinds, b: seq<nat>)
    requires MetaOk(mem, meta, pages, used, regions, kinds) && RegionsOk(regions, kinds)
    requires forall h | h in b :: h !in pages
    ensures MetaOk(Marked(mem, b, 0, |b|), meta, pages, used, regions, kinds)
    ensures forall h | h in mem && h !in b :: h in Marked(mem, b, 0, |b|) && Marked(mem, b, 0, |b|)[h] == mem[h]
  {
    hide MetaOk;
    PagesApart(mem, meta, pages, used, regions, kinds);
    assert b[0..|b|] == b;
    MetaFrame(mem, Marked(mem, b, 0, |b|), meta, pages, used, regions, kinds, regions, kinds);
  }

  lemma MarkedWalk(mem: Mem, b: seq<nat>)
    requires Walk(mem, b) && b != []
    ensures Walk(Marked(mem, b, 0, |b|), b) && Marked(mem, b, 0, |b|)[Last(b)].next == mem[Last(b)].next
  {
    assert b[0..|b|] == b;
  }

  lemma SelfUndisturbed(mem: Mem, home: Home, regions: Regions, kinds: Kinds)
    ensures Undisturbed(mem, home, regions, kinds, mem, home, regions, kinds)
  {
  }

  lemma InvSlab(
    mem: Mem, meta: Slab, slabs: seq<Slab>, regions: Regions, kinds: Kinds, pages: seq<nat>, used: set<nat>,
    chains: seq<seq<nat>>, home: Home, table: set<nat>, n: nat)
    requires Inv(mem, meta, slabs, regions, kinds, pages, used, chains, home, table) && n < |slabs|
    ensures |chains| == |slabs| && ListOk(mem, slabs[n], chains[n]) && slabs[n].entrySz == EntrySize(n)
    ensures forall h | h in chains[n] :: h in mem && mem[h].data > 0
    ensures forall h | h in home :: h in mem
  {
    SlabFacts(mem, slabs, chains, home, regions, kinds, n);
    forall h | h in home ensures h in mem {
      assert Homed(mem, chains, home, regions, kinds, h);
    }
  }

  lemma LivePlace(
    mem: Mem, meta: Slab, slabs: seq<Slab>, regions: Regions, kinds: Kinds, pages: seq<nat>, used: set<nat>,
    chains: seq<seq<nat>>, home: Home, table: set<nat>, e: Entry)
    requires Inv(mem, meta, slabs, regions, kinds, pages, used, chains, home, table) && Live(mem, home, e)
    ensures home[e.h] < |chains| && e.h in chains[home[e.h]] && e.bit < 64
  {
    assert Homed(mem, chains, home, regions, kinds, e.h);
    LiveBit(mem, slabs, chains, home, regions, kinds, e);
  }

  lemma InvOwner(
    mem: Mem, meta: Slab, slabs: seq<Slab>, regions: Regions, kinds: Kinds, pages: seq<nat>, used: set<nat>,
    chains: seq<seq<nat>>, home: Home, table: set<nat>, n: nat, k: nat, j: nat, bit: nat)
    requires Inv(mem, meta, slabs, regions, kinds, pages, used, chains, home, table)
    requires n < |slabs| && n < |chains| && k < |chains[n]| && j < |chains[n]| && j != k && bit < 64
    requires chains[n][k] in mem && chains[n][j] in mem
    ensures OutOfBlock(mem[chains[n][j]], AddressOf(mem[chains[n][k]], bit))
  {
    OnlyOwner(mem, slabs, chains, home, regions, kinds, n, k, j, bit);
  }

  lemma Fresh(m0: Mem, h0: Home, r0: Regions, k0: Kinds, m1: Mem, h1: Home, r1: Regions, k1: Kinds, m2: Mem, e: Entry)
    requires Undisturbed(m0, h0, r0, k0, m1, h1, r1, k1) && LiveChange(m1, h1, m2, h1, e, true)
    requires e.h in m1 && e.bit !in m1[e.h].bits && (forall h | h in h0 :: h in m0)
    ensures LiveChange(m0, h0, m2, h1, e, true) && !Live(m0, h0, e)
  {
    LiveAfter(m0, h0, r0, k0, m1, h1, r1, k1, m2, h1, e);
    SameLive(m0, h0, r0, k0, m1, h1, r1, k1, e);
  }

  lemma NewKinds(regions: Regions, kinds: Kinds, r: nat, size: nat, regions': Regions, kinds': Kinds)
    requires r !in regions && r !in kinds
    requires OnlyMoreRegions(regions[r := Region(size, AlignFor(size))], kinds[r := BatchData], regions', kinds')
    ensures forall q | q in kinds :: q in kinds' && kinds'[q] == kinds[q]
    ensures forall q | q in regions :: q in regions' && regions'[q] == regions[q]
    ensures forall q | q in kinds' && q !in kinds :: kinds'[q] == if q == r then BatchData else Page
    ensures r in regions' && r in kinds' && kinds'[r] == BatchData && regions'[r] == Region(size, AlignFor(size))
  {
    var kinds1, regions1 := kinds[r := BatchData], regions[r := Region(size, AlignFor(size))];
    assert r in kinds1 && r in regions1;
    forall q | q in kinds ensures q in kinds' && kinds'[q] == kinds[q] {
      assert q in kinds1;
    }
    forall q | q in regions ensures q in regions' && regions'[q] == regions[q] {
      assert q in regions1;
    }
  }

  lemma LastMade(mem: Mem, hs: seq<nat>, num: nat, r: nat, size: nat, last: nat)
    requires hs != [] && AllMade(mem, hs, num, r, size, last)
    ensures hs[|hs| - 1] in mem && hs[|hs| - 1] in hs
  {
    assert Made(mem, hs, |hs| - 1, num, r, size, last);
  }

  /** A region for data is not a metadata page. */
  lemma NoPageAt(mem: Mem, meta: Slab, pages: seq<nat>, used: set<nat>, regions: Regions, kinds: Kinds, r: nat)
    requires MetaOk(mem, meta, pages, used, regions, kinds) && r in kinds && kinds[r] == BatchData
    ensures r !in pages
  {
    forall p | p in pages ensures p != r {
      assert PageOk(mem, used, regions, kinds, p);
    }
  }

  lemma LastLinked(mem: Mem, mem': Mem, hs: seq<nat>, r: nat, size: nat, last: nat)
    requires hs != [] && NoDup(hs) && AllMade(mem, hs, |hs|, r, size, 0) && hs[|hs| - 1] in mem
    requires mem' == mem[hs[|hs| - 1] := mem[hs[|hs| - 1]].(next := last)]
    ensures AllMade(mem', hs, |hs|, r, size, last)
  {
    forall j | 0 <= j < |hs| ensures Made(mem', hs, j, |hs|, r, size, last) {
      assert Made(mem, hs, j, |hs|, r, size, 0);
    }
  }

  lemma MoreRegions(r0: Regions, k0: Kinds, r1: Regions, k1: Kinds, r2: Regions, k2: Kinds)
    requires OnlyMoreRegions(r0, k0, r1, k1) && OnlyMoreRegions(r1, k1, r2, k2)
    ensures OnlyMoreRegions(r0, k0, r2, k2)
  {
  }

  /** One more block structure, linked from the one before it. */
  lemma BlockMade(mem: Mem, mem': Mem, hs: seq<nat>, p: nat, num: nat, r: nat, size: nat)
    requires AllMade(mem, hs, num, r, size, 0) && NoDup(hs) && p !in hs
    requires p in mem' && mem'[p] == Block(size, |hs|, num, {}, r + |hs| * (64 * size), 0)
    requires forall j | 0 <= j < |hs| ::
               && hs[j] in mem' && hs[j] in mem
               && mem'[hs[j]] == if j == |hs| - 1 then mem[hs[j]].(next := p) else mem[hs[j]]
    ensures AllMade(mem', hs + [p], num, r, size, 0) && NoDup(hs + [p])
  {
    var hs' := hs + [p];
    forall j | 0 <= j < |hs'| ensures Made(mem', hs', j, num, r, size, 0) {
      assert j < |hs| ==> Made(mem, hs, j, num, r, size, 0);
    }
    forall i, j | 0 <= i < j < |hs'| ensures hs'[i] != hs'[j] {
      assert hs[i] in hs;
    }
  }

  /** A free bit of a page is not the block itself, and its address is an entry. */
  lemma EntryTaken(
    mem: Mem, meta: Slab, pages: seq<nat>, used: set<nat>, regions: Regions, kinds: Kinds, k: nat, bit: nat,
    mem': Mem, meta': Slab)
    requires MetaOk(mem, meta, pages, used, regions, kinds) && k < |pages| && pages[k] in mem && bit < 64
    requires bit !in mem[pages[k]].bits
    requires mem' == mem[pages[k] := mem[pages[k]].(bits := mem[pages[k]].bits + {bit})]
    requires meta'.entrySz == meta.entrySz && ListOk(mem', meta', pages)
    ensures var e := AddressOf(mem[pages[k]], bit); e !in used && MetaOk(mem', meta', pages, used + {e}, regions, kinds)
  {
    assert pages[k] in pages && PageOk(mem, used, regions, kinds, pages[k]);
    MetaBit(mem, meta, pages, used, regions, kinds, k, bit, true, mem', meta');
  }

  /** Where the bit of an entry in use is. */
  lemma EntryPlace(mem: Mem, meta: Slab, pages: seq<nat>, used: set<nat>, regions: Regions, kinds: Kinds, e: nat)
    requires MetaOk(mem, meta, pages, used, regions, kinds) && e in used
    ensures var p := PageOf(e);
            var bit := (e - p) / 64;
            && e % 64 == 0 && e % 4096 != 0
            && p in pages && p in mem && p <= e && 1 <= bit < 64 && bit in mem[p].bits
            && e == AddressOf(mem[p], bit) == p + 64 * bit
  {
    assert EntryOk(pages, e);
    AddressEntry(e);
    var p := PageOf(e);
    assert PageOk(mem, used, regions, kinds, p) && EntryBit(mem, used, p, (e - p) / 64);
  }

  /** Regions were added, none removed or changed, and no data region among them. */
  ghost predicate OnlyMoreRegions(regions: Regions, kinds: Kinds, regions': Regions, kinds': Kinds) {
    && (forall r | r in regions :: r in regions' && regions'[r] == regions[r])
    && (forall r | r in kinds :: r in kinds' && kinds'[r] == kinds[r])
    && (forall r | r in kinds' && r !in kinds :: kinds'[r] == Page)
  }

  /** Pages are not entries, and lie above zero. */
  lemma PagesApart(mem: Mem, meta: Slab, pages: seq<nat>, used: set<nat>, regions: Regions, kinds: Kinds)
    requires MetaOk(mem, meta, pages, used, regions, kinds) && RegionsOk(regions, kinds)
    ensures ListOk(mem, meta, pages) && meta.entrySz == 64
    ensures forall p | p in pages :: p in mem && mem[p].data == p > 0 && p !in used
  {
    forall p | p in pages ensures p in mem && mem[p].data == p > 0 && p !in used {
      assert PageOk(mem, used, regions, kinds, p);
      assert p in used ==> EntryOk(pages, p);
    }
  }

  lemma OtherPage(
    mem: Mem, meta: Slab, pages: seq<nat>, used: set<nat>, regions: Regions, kinds: Kinds, j: nat, k: nat, e: nat)
    requires MetaOk(mem, meta, pages, used, regions, kinds) && j < |pages| && k < |pages| && j != k
    requires e % 64 == 0 && e % 4096 != 0 && PageOf(e) == pages[k]
    ensures pages[j] in mem && OutOfBlock(mem[pages[j]], e)
  {
    assert pages[j] in pages && pages[k] in pages;
    assert PageOk(mem, used, regions, kinds, pages[j]) && PageOk(mem, used, regions, kinds, pages[k]);
    AddressEntry(e);
    assert pages[j] != pages[k];
    assert pages[j] / 4096 != pages[k] / 4096;
  }

  ghost predicate OutOfBlock(b: Block, p: nat) {
    p < b.data || p >= b.data + BlockSize(b)
  }

  lemma InBlockIff(b: Block, p: nat)
    requires b.entrySz > 0
    ensures p >= b.data && (p - b.data) / b.entrySz < 64 <==> !OutOfBlock(b, p)
  {
    if p >= b.data {
      var d, k := p - b.data, b.entrySz;
      assert d == d / k * k + d % k;
      if d / k < 64 { Spaced(d / k, 64, k); } else { MulMono(64, d / k, k); }
    }
  }

  // ---------------------------------------------------------------------------------------
  // Sizes
  // ---------------------------------------------------------------------------------------

  lemma MulInjective(a: nat, b: nat, k: nat)
    requires k > 0
    ensures a * k == b * k ==> a == b
  {
    if a < b { Spaced(a, b, k); }
    if b < a { Spaced(b, a, k); }
  }
}
