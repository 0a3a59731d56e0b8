/** The blocks of a Frusa slab: 64 entries with a bitmap each, linked by `next`, in batches. */
module FrusaList {
  import opened Counting

  /** `entrySz` is 1 << entry_sz_log2; `bits` is used_bitmap; `next` is 0 for null. */
  datatype Block = Block(entrySz: nat, batchPos: nat, batchSz: nat, bits: set<nat>, data: nat, next: nat)

  /** Block structures by address. */
  type Mem = map<nat, Block>

  const ALL_BITS: set<nat> := set i: nat | i < 64 && InBlock(i)

  predicate InBlock(i: nat) { i < 64 }

  ghost predicate BitsOk(bits: set<nat>) {
    forall i | i in bits :: i < 64
  }

  /** trailing_ones: the lowest bit that is not set, or 64. */
  function FirstFree(bits: set<nat>, start: nat): (n: nat)
    requires start <= 64
    ensures start <= n <= 64
    ensures n < 64 ==> n !in bits
    ensures forall j | start <= j < n :: j in bits
    decreases 64 - start
  {
    if start == 64 || start !in bits then start else FirstFree(bits, start + 1)
  }

  lemma BitsSize(bits: set<nat>)
    requires BitsOk(bits)
    ensures |bits| <= 64
    ensures |bits| == 64 <==> (forall i: nat | i < 64 :: i in bits)
  {
    Bits64();
    assert bits <= ALL_BITS;
    SubsetSize(bits, ALL_BITS);
    if |bits| == 64 && exists i: nat :: i < 64 && i !in bits {
      var i: nat :| i < 64 && i !in bits;
      SubsetSize(bits, ALL_BITS - {i});
      assert false;
    }
    if forall i: nat | i < 64 :: i in bits {
      assert bits == ALL_BITS;
    }
  }

  lemma {:induction false} LowBits(n: nat)
    requires n <= 64
    ensures |set i: nat | i < n && InBlock(i)| == n
  {
    var s := set i: nat | i < n && InBlock(i);
    if n > 0 {
      LowBits(n - 1);
      assert s == (set i: nat | i < n - 1 && InBlock(i)) + {n - 1};
    } else {
      assert s == {};
    }
  }

  lemma Bits64()
    ensures |ALL_BITS| == 64 && forall i: nat | i < 64 :: i in ALL_BITS
  {
    LowBits(64);
    assert forall i: nat | i < 64 :: InBlock(i);
  }

  // ---------------------------------------------------------------------------------------
  // Linked lists
  // ---------------------------------------------------------------------------------------

  ghost function Head(s: seq<nat>): nat {
    if s == [] then 0 else s[0]
  }

  ghost predicate LinkOk(mem: Mem, s: seq<nat>, i: nat)
    requires i < |s|
  {
    s[i] != 0 && s[i] in mem && mem[s[i]].next == if i + 1 < |s| then s[i + 1] else 0
  }

  /** The blocks of `s`, and no others, follow each other through `next`. */
  ghost predicate Chain(mem: Mem, s: seq<nat>) {
    forall i | 0 <= i < |s| :: LinkOk(mem, s, i)
  }

  ghost predicate NoDup(s: seq<nat>) {
    forall i, j | 0 <= i < j < |s| :: s[i] != s[j]
  }

  /** The bits set in the blocks of `s`. */
  ghost function Used(mem: Mem, s: seq<nat>): nat
    requires forall h | h in s :: h in mem
  {
    if s == [] then 0 else |mem[s[0]].bits| + Used(mem, s[1..])
  }

  ghost predicate AllBitsOk(mem: Mem, s: seq<nat>) {
    forall h | h in s :: h in mem && BitsOk(mem[h].bits)
  }

  /** Some block of `s` has a free entry. */
  ghost predicate HasFree(mem: Mem, s: seq<nat>)
    requires forall h | h in s :: h in mem
  {
    exists k :: 0 <= k < |s| && FirstFree(mem[s[k]].bits, 0) < 64
  }

  /** Slab `n` has a free entry. */
  ghost predicate Spare(mem: Mem, chains: seq<seq<nat>>, n: nat) {
    n < |chains| && (forall h | h in chains[n] :: h in mem) && HasFree(mem, chains[n])
  }

  lemma {:induction false} UsedFrame(mem: Mem, mem': Mem, s: seq<nat>)
    requires forall h | h in s :: h in mem && h in mem' && mem'[h].bits == mem[h].bits
    ensures Used(mem', s) == Used(mem, s)
    decreases |s|
  {
    if s != [] {
      assert s[0] in s;
      assert forall h | h in s[1..] :: h in s;
      UsedFrame(mem, mem', s[1..]);
    }
  }

  /** Changing the bits of one block. */
  lemma {:induction false} UsedUpdate(mem: Mem, s: seq<nat>, k: nat, b: Block)
    requires (forall h | h in s :: h in mem) && NoDup(s) && k < |s|
    ensures Used(mem[s[k] := b], s) == Used(mem, s) - |mem[s[k]].bits| + |b.bits|
    decreases |s|
  {
    var mem', rest := mem[s[k] := b], s[1..];
    assert forall h | h in rest :: h in s;
    if k == 0 {
      forall h | h in rest ensures h != s[0] {
        var j :| 0 <= j < |rest| && rest[j] == h;
        assert s[j + 1] == h;
      }
      UsedFrame(mem, mem', rest);
    } else {
      assert rest[k - 1] == s[k];
      UsedUpdate(mem, rest, k - 1, b);
    }
  }

  lemma {:induction false} UsedConcat(mem: Mem, a: seq<nat>, b: seq<nat>)
    requires forall h | h in a || h in b :: h in mem
    ensures (forall h | h in a + b :: h in mem) && Used(mem, a + b) == Used(mem, a) + Used(mem, b)
    decreases |a|
  {
    if a == [] {
      assert a + b == b;
    } else {
      assert (a + b)[0] == a[0] && (a + b)[1..] == a[1..] + b;
      assert forall h | h in a[1..] :: h in a;
      UsedConcat(mem, a[1..], b);
    }
  }

  /** All entries are used exactly if no block has a free one. */
  lemma {:induction false} FullIff(mem: Mem, s: seq<nat>)
    requires AllBitsOk(mem, s)
    ensures Used(mem, s) <= 64 * |s|
    ensures Used(mem, s) == 64 * |s| <==> !HasFree(mem, s)
    decreases |s|
  {
    if s != [] {
      var rest := s[1..];
      assert s[0] in s && forall h | h in rest :: h in s;
      FullIff(mem, rest);
      BlockFull(mem[s[0]].bits);
      FreeInRest(mem, s);
    }
  }

  lemma FreeInRest(mem: Mem, s: seq<nat>)
    requires (forall h | h in s :: h in mem) && s != []
    ensures (forall h | h in s[1..] :: h in mem)
    ensures HasFree(mem, s) <==> FirstFree(mem[s[0]].bits, 0) < 64 || HasFree(mem, s[1..])
  {
    var rest := s[1..];
    assert forall h | h in rest :: h in s;
    if HasFree(mem, s) {
      var k :| 0 <= k < |s| && FirstFree(mem[s[k]].bits, 0) < 64;
      if k > 0 { assert rest[k - 1] == s[k]; }
    }
    if HasFree(mem, rest) {
      var k :| 0 <= k < |rest| && FirstFree(mem[rest[k]].bits, 0) < 64;
      assert s[k + 1] == rest[k];
    }
  }

  lemma BlockFull(bits: set<nat>)
    requires BitsOk(bits)
    ensures |bits| <= 64 && (|bits| == 64 <==> FirstFree(bits, 0) == 64)
  {
    BitsSize(bits);
  }

  // ---------------------------------------------------------------------------------------
  // Batches
  // ---------------------------------------------------------------------------------------

  /** Position `j` of a batch of `n` blocks whose data start at `r`. */
  ghost predicate InBatch(mem: Mem, h: nat, j: nat, n: nat, r: nat, size: nat) {
    && h in mem && mem[h].batchPos == j && mem[h].batchSz == n && mem[h].entrySz == size
    && mem[h].data == r + j * (64 * size)
  }

  ghost predicate Batch(mem: Mem, b: seq<nat>, size: nat) {
    b != [] && b[0] in mem && forall j | 0 <= j < |b| :: InBatch(mem, b[j], j, |b|, mem[b[0]].data, size)
  }

  /** A list of complete batches. */
  ghost predicate Batched(mem: Mem, s: seq<nat>, size: nat)
    decreases |s|
  {
    s == [] ||
    (s[0] in mem && var n := mem[s[0]].batchSz;
     0 < n <= |s| && Batch(mem, s[..n], size) && Batched(mem, s[n..], size))
  }

  lemma {:induction false} BatchedFrame(mem: Mem, mem': Mem, s: seq<nat>, size: nat)
    requires Batched(mem, s, size)
    requires forall h | h in s && h in mem :: h in mem' && mem'[h] == mem[h].(bits := mem'[h].bits,
            next := mem'[h].next)
    ensures Batched(mem', s, size)
    decreases |s|
  {
    if s != [] {
      var n := mem[s[0]].batchSz;
      assert s[..n][0] == s[0];
      forall j | 0 <= j < n ensures InBatch(mem', s[..n][j], j, n, mem'[s[0]].data, size) {
        assert InBatch(mem, s[..n][j], j, n, mem[s[0]].data, size);
        assert s[..n][j] in s;
      }
      assert forall h | h in s[n..] :: h in s;
      BatchedFrame(mem, mem', s[n..], size);
    }
  }

  lemma {:induction false} BatchedConcat(mem: Mem, a: seq<nat>, b: seq<nat>, size: nat)
    requires Batched(mem, a, size) && Batched(mem, b, size)
    ensures Batched(mem, a + b, size)
    decreases |a|
  {
    if a == [] {
      assert a + b == b;
    } else {
      var n := mem[a[0]].batchSz;
      assert (a + b)[..n] == a[..n] && (a + b)[n..] == a[n..] + b;
      BatchedConcat(mem, a[n..], b, size);
    }
  }

  lemma OneBatch(mem: Mem, b: seq<nat>, size: nat)
    requires Batch(mem, b, size)
    ensures Batched(mem, b, size)
  {
    assert InBatch(mem, b[0], 0, |b|, mem[b[0]].data, size);
    assert b[..|b|] == b && b[|b|..] == [];
  }

  ghost predicate EmptyBlocks(mem: Mem, b: seq<nat>)
    requires forall h | h in b :: h in mem
  {
    forall j | 0 <= j < |b| :: mem[b[j]].bits == {}
  }

  /** What reclaim keeps: the batches with a live entry, in order. */
  ghost function Kept(mem: Mem, s: seq<nat>, size: nat): seq<nat>
    requires Batched(mem, s, size) && forall h | h in s :: h in mem
    decreases |s|
  {
    if s == [] then []
    else
      var n := mem[s[0]].batchSz;
      var b := s[..n];
      assert forall h | h in b || h in s[n..] :: h in s;
      (if EmptyBlocks(mem, b) then [] else b) + Kept(mem, s[n..], size)
  }
}
