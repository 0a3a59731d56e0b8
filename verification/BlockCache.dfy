/**
 The 16-entry block cache of srfs: a fixed array kept in most-recently-used order in front of a
 block device. What a reader of the file system sees is the first cached copy of a block, else
 the device.
 */
module BlockCache {
  import opened Bytes
  import opened SrfsBlock

  const CACHE_SIZE := 16
  /** u64::MAX, the number of a slot that holds no block. */
  const NO_BLOCK: nat := U64_LIMIT - 1

  datatype CachedBlock = CachedBlock(blockNo: nat, dirty: bool, block: Block)

  /** The index of the first copy of `b`, or the length. */
  function First(s: seq<CachedBlock>, b: nat): (i: nat)
    ensures i <= |s|
    ensures i < |s| ==> s[i].blockNo == b
    ensures forall j | 0 <= j < i :: s[j].blockNo != b
  {
    if s == [] || s[0].blockNo == b then 0 else 1 + First(s[1..], b)
  }

  /** The contents of block `b`: the simple view. */
  function ViewOf(s: seq<CachedBlock>, device: map<nat, Block>, b: nat): Block
    requires b in device
  {
    var i := First(s, b);
    if i < |s| then s[i].block else device[b]
  }

  /** The whole device as seen through the cache. */
  ghost function StoreOf(s: seq<CachedBlock>, device: map<nat, Block>): map<nat, Block> {
    map b | b in device :: ViewOf(s, device, b)
  }

  /** A first copy that is not dirty equals the device; later copies are unconstrained. */
  ghost predicate SlotCoherent(s: seq<CachedBlock>, device: map<nat, Block>, i: nat)
    requires i < |s|
  {
    First(s, s[i].blockNo) == i && s[i].blockNo in device && !s[i].dirty ==> s[i].block == device[s[i].blockNo]
  }

  ghost predicate Coherent(s: seq<CachedBlock>, device: map<nat, Block>) {
    forall i | 0 <= i < |s| :: SlotCoherent(s, device, i)
  }

  /** The slot `idx` moved to the front, the ones before it one place back. */
  function Rotated(s: seq<CachedBlock>, idx: nat): seq<CachedBlock>
    requires idx < |s|
  {
    [s[idx]] + s[..idx] + s[idx + 1..]
  }

  lemma FirstIs(s: seq<CachedBlock>, b: nat, i: nat)
    requires i <= |s| && (i < |s| ==> s[i].blockNo == b)
    requires forall j | 0 <= j < i :: s[j].blockNo != b
    ensures First(s, b) == i
  {
  }

  /** Moving the first copy of a block to the front keeps every first copy the first. */
  lemma RotateFirst(s: seq<CachedBlock>, idx: nat, c: nat)
    requires idx < |s| && First(s, s[idx].blockNo) == idx
    ensures var i, t := First(s, c), Rotated(s, idx);
            && First(t, c) == (if i == idx then 0 else if i < idx then i + 1 else i)
            && (i < |s| ==> t[First(t, c)] == s[i])
  {
    var i, t := First(s, c), Rotated(s, idx);
    FirstIs(t, c, if i == idx then 0 else if i < idx then i + 1 else i);
  }

  /** The slots after a read of `b`, whose contents on the device are `block`. */
  ghost function Looked(s: seq<CachedBlock>, b: nat, block: Block): seq<CachedBlock>
    requires s != []
  {
    if First(s, b) < |s| then Rotated(s, First(s, b)) else [CachedBlock(b, false, block)] + s[..|s| - 1]
  }

  /** The slots with the front one marked dirty, or clean. */
  function Marked(s: seq<CachedBlock>, dirty: bool): seq<CachedBlock>
    requires s != []
  {
    s[0 := s[0].(dirty := dirty)]
  }

  /** An LRU move changes neither the view nor coherence. */
  lemma RotateKeeps(s: seq<CachedBlock>, device: map<nat, Block>, idx: nat)
    requires idx < |s| && First(s, s[idx].blockNo) == idx && Coherent(s, device)
    ensures Coherent(Rotated(s, idx), device)
    ensures StoreOf(Rotated(s, idx), device) == StoreOf(s, device)
  {
    hide First;
    hide Rotated;
    hide ViewOf;
    hide SlotCoherent;
    var t := Rotated(s, idx);
    forall b | b in device ensures ViewOf(t, device, b) == ViewOf(s, device, b) {
      RotatedView(s, device, idx, b);
    }
    forall k | 0 <= k < |t| ensures SlotCoherent(t, device, k) {
      RotatedSlot(s, device, idx, k);
    }
  }

  lemma RotatedView(s: seq<CachedBlock>, device: map<nat, Block>, idx: nat, b: nat)
    requires idx < |s| && First(s, s[idx].blockNo) == idx && b in device
    ensures ViewOf(Rotated(s, idx), device, b) == ViewOf(s, device, b)
  {
    assert |Rotated(s, idx)| == |s|;
    RotateFirst(s, idx, b);
  }

  lemma RotatedSlot(s: seq<CachedBlock>, device: map<nat, Block>, idx: nat, k: nat)
    requires idx < |s| && First(s, s[idx].blockNo) == idx && Coherent(s, device) && k < |Rotated(s, idx)|
    ensures SlotCoherent(Rotated(s, idx), device, k)
  {
    hide First;
    var t := Rotated(s, idx);
    assert |t| == |s|;
    hide Rotated;
    var i := First(s, t[k].blockNo);
    RotateFirst(s, idx, t[k].blockNo);
    assert i < |s| ==> SlotCoherent(s, device, i);
  }

  lemma InFront(s: seq<CachedBlock>, e: CachedBlock, c: nat)
    requires s != []
    ensures var n := |s| - 1;
            First([e] + s[..n], c) == (if c == e.blockNo then 0 else if First(s, c) < n then First(s, c) + 1 else n + 1)
  {
    var n := |s| - 1;
    FirstIs([e] + s[..n], c, if c == e.blockNo then 0 else if First(s, c) < n then First(s, c) + 1 else n + 1);
  }

  /** Dropping a clean last slot and putting a copy of `b` in front changes the view at `b` only. */
  lemma ReplaceLast(s: seq<CachedBlock>, device: map<nat, Block>, e: CachedBlock)
    requires s != [] && !s[|s| - 1].dirty && Coherent(s, device) && e.blockNo in device
    ensures var t := Rotated(s[|s| - 1 := e], |s| - 1);
            && StoreOf(t, device) == StoreOf(s, device)[e.blockNo := e.block]
            && (e.dirty || e.block == device[e.blockNo] ==> Coherent(t, device))
  {
    hide First;
    var n := |s| - 1;
    var t := Rotated(s[n := e], n);
    assert t == [e] + s[..n];
    hide Rotated;
    hide ViewOf;
    hide SlotCoherent;
    forall b | b in device ensures ViewOf(t, device, b) == if b == e.blockNo then e.block else ViewOf(s, device, b) {
      ReplacedView(s, device, e, b);
    }
    if e.dirty || e.block == device[e.blockNo] {
      forall k | 0 <= k < |t| ensures SlotCoherent(t, device, k) {
        ReplacedSlot(s, device, e, k);
      }
    }
  }

  lemma ReplacedView(s: seq<CachedBlock>, device: map<nat, Block>, e: CachedBlock, b: nat)
    requires s != [] && !s[|s| - 1].dirty && Coherent(s, device) && b in device
    ensures ViewOf([e] + s[..|s| - 1], device, b) == if b == e.blockNo then e.block else ViewOf(s, device, b)
  {
    hide First;
    InFront(s, e, b);
    assert First(s, b) == |s| - 1 ==> SlotCoherent(s, device, |s| - 1);
  }

  lemma ReplacedSlot(s: seq<CachedBlock>, device: map<nat, Block>, e: CachedBlock, k: nat)
    requires s != [] && Coherent(s, device) && e.blockNo in device && (e.dirty || e.block == device[e.blockNo])
    requires k < |s|
    ensures SlotCoherent([e] + s[..|s| - 1], device, k)
  {
    hide First;
    InFront(s, e, ([e] + s[..|s| - 1])[k].blockNo);
    assert k > 0 ==> SlotCoherent(s, device, k - 1);
  }

  /** Changing the contents of a dirty front slot changes the view at its block only. */
  lemma ChangeFront(s: seq<CachedBlock>, device: map<nat, Block>, e: CachedBlock)
    requires s != [] && Coherent(s, device) && s[0].blockNo == e.blockNo && e.blockNo in device
    requires e.dirty || e.block == device[e.blockNo]
    ensures Coherent(s[0 := e], device)
    ensures StoreOf(s[0 := e], device) == StoreOf(s, device)[e.blockNo := e.block]
  {
    var t := s[0 := e];
    forall c ensures First(t, c) == First(s, c) {
      FirstIs(t, c, First(s, c));
    }
    forall k | 0 <= k < |t| ensures SlotCoherent(t, device, k) {
      assert SlotCoherent(s, device, k);
    }
  }

  /** Copying the first copy to the device changes no view. */
  lemma CopyBack(s: seq<CachedBlock>, device: map<nat, Block>, b: nat)
    requires First(s, b) < |s| && b in device && Coherent(s, device)
    ensures var d := device[b := s[First(s, b)].block];
            Coherent(s, d) && StoreOf(s, d) == StoreOf(s, device)
  {
    var d := device[b := s[First(s, b)].block];
    forall k | 0 <= k < |s| ensures SlotCoherent(s, d, k) {
      assert SlotCoherent(s, device, k);
    }
  }

  class BlockCache {
    var blocks: array<CachedBlock>
    var device: map<nat, Block>
    var blockReads: nat
    var blockWrites: nat

    ghost predicate Valid()
      reads this, blocks
    {
      blocks.Length == CACHE_SIZE && NO_BLOCK !in device && Coherent(blocks[..], device)
    }

    ghost function Store(): map<nat, Block>
      reads this, blocks
    {
      StoreOf(blocks[..], device)
    }

    ghost predicate Cached(b: nat)
      reads this, blocks
    {
      First(blocks[..], b) < blocks.Length
    }

    constructor (device: map<nat, Block>)
      requires NO_BLOCK !in device
      ensures Valid() && fresh(blocks) && this.device == device && Store() == device
      ensures forall i | 0 <= i < CACHE_SIZE :: !blocks[i].dirty
    {
      this.device := device;
      blocks := new CachedBlock[CACHE_SIZE](_ => CachedBlock(NO_BLOCK, false, ZERO));
      blockReads, blockWrites := 0, 0;
      new;
      forall b | b in device ensures First(blocks[..], b) == CACHE_SIZE {
        FirstIs(blocks[..], b, CACHE_SIZE);
      }
      assert forall i | 0 <= i < CACHE_SIZE :: SlotCoherent(blocks[..], device, i);
    }

    /** The swap loop: an in-place rotation. */
    method PushTop(idx: nat)
      requires blocks.Length == CACHE_SIZE && idx < CACHE_SIZE
      modifies blocks
      ensures blocks[..] == Rotated(old(blocks[..]), idx)
    {
      var pos := idx;
      while pos > 0
        invariant 0 <= pos <= idx
        invariant blocks[pos] == old(blocks[idx])
        invariant forall i | 0 <= i < pos :: blocks[i] == old(blocks[i])
        invariant forall i | pos < i <= idx :: blocks[i] == old(blocks[i - 1])
        invariant forall i | idx < i < CACHE_SIZE :: blocks[i] == old(blocks[i])
      {
        blocks[pos - 1], blocks[pos] := blocks[pos], blocks[pos - 1];
        pos := pos - 1;
      }
    }

    /** The linear search shared by the lookups. */
    method Find(b: nat) returns (idx: nat)
      requires blocks.Length == CACHE_SIZE
      ensures idx == First(blocks[..], b)
    {
      idx := 0;
      while idx < CACHE_SIZE && blocks[idx].blockNo != b
        invariant 0 <= idx <= CACHE_SIZE
        invariant forall j | 0 <= j < idx :: blocks[j].blockNo != b
      {
        idx := idx + 1;
      }
      FirstIs(blocks[..], b, idx);
    }

    /**
     A lookup never changes the view. On a miss it takes the last slot, which the source asserts
     to be clean.
     */
    method Read(b: nat) returns (block: Block)
      requires Valid() && b in device
      requires !Cached(b) ==> !blocks[CACHE_SIZE - 1].dirty
      modifies this`blockReads, blocks
      ensures Valid() && Store() == old(Store())
      ensures blocks[0].blockNo == b && block == blocks[0].block == Store()[b]
      ensures blocks[..] == Looked(old(blocks[..]), b, device[b])
      ensures blockReads == old(blockReads) + (if old(Cached(b)) then 0 else 1)
    {
      var idx := Find(b);
      if idx < CACHE_SIZE {
        RotateKeeps(blocks[..], device, idx);
        PushTop(idx);
      } else {
        ReplaceLast(blocks[..], device, CachedBlock(b, false, device[b]));
        blockReads := blockReads + 1;
        blocks[CACHE_SIZE - 1] := CachedBlock(b, false, device[b]);
        assert blocks[..] == old(blocks[..])[CACHE_SIZE - 1 := CachedBlock(b, false, device[b])];
        PushTop(CACHE_SIZE - 1);
        assert StoreOf(old(blocks[..]), device)[b] == device[b];
      }
      block := blocks[0].block;
    }

    /** As Read, and the slot is marked dirty for the caller to change. */
    method ReadMut(b: nat) returns (block: Block)
      requires Valid() && b in device
      requires !Cached(b) ==> !blocks[CACHE_SIZE - 1].dirty
      modifies this`blockReads, blocks
      ensures Valid() && Store() == old(Store())
      ensures blocks[0] == CachedBlock(b, true, block) && block == Store()[b]
      ensures blocks[..] == Marked(Looked(old(blocks[..]), b, device[b]), true)
    {
      block := Read(b);
      MarkDirty();
    }

    /** `blocks[0].dirty = true`. */
    method MarkDirty()
      requires Valid() && blocks[0].blockNo in device
      modifies blocks
      ensures Valid() && Store() == old(Store())
      ensures blocks[..] == Marked(old(blocks[..]), true)
    {
      var e := blocks[0].(dirty := true);
      ChangeFront(blocks[..], device, e);
      assert StoreOf(blocks[..], device)[e.blockNo] == e.block by { FirstIs(blocks[..], e.blockNo, 0); }
      blocks[0] := e;
      assert blocks[..] == old(blocks[..])[0 := e];
    }

    /** get and get_mut: only for blocks known to be cached; they panic otherwise. */
    method Get(b: nat) returns (block: Block)
      requires Valid() && b in device && Cached(b)
      modifies blocks
      ensures Valid() && Store() == old(Store())
      ensures blocks[0].blockNo == b && block == blocks[0].block == Store()[b]
      ensures blocks[..] == Rotated(old(blocks[..]), First(old(blocks[..]), b))
    {
      var idx := Find(b);
      RotateKeeps(blocks[..], device, idx);
      PushTop(idx);
      block := blocks[0].block;
    }

    method GetMut(b: nat) returns (block: Block)
      requires Valid() && b in device && Cached(b)
      modifies blocks
      ensures Valid() && Store() == old(Store())
      ensures blocks[0] == CachedBlock(b, true, block) && block == Store()[b]
      ensures blocks[..] == Marked(Rotated(old(blocks[..]), First(old(blocks[..]), b)), true)
    {
      block := Get(b);
      MarkDirty();
    }

    /**
     get_block_uninit takes the last slot without looking for an older copy of `b`: the view
     changes at `b` only, to whatever the slot held.
     */
    method GetBlockUninit(b: nat) returns (block: Block)
      requires Valid() && b in device && !blocks[CACHE_SIZE - 1].dirty
      modifies blocks
      ensures Valid() && Store() == old(Store())[b := block]
      ensures blocks[..] == [CachedBlock(b, true, old(blocks[CACHE_SIZE - 1].block))] + old(blocks[..CACHE_SIZE - 1])
      ensures block == blocks[0].block
    {
      var e := CachedBlock(b, true, blocks[CACHE_SIZE - 1].block);
      ReplaceLast(blocks[..], device, e);
      blocks[CACHE_SIZE - 1] := blocks[CACHE_SIZE - 1].(blockNo := b);
      PushTop(CACHE_SIZE - 1);
      blocks[0] := blocks[0].(dirty := true);
      assert blocks[..] == Rotated(old(blocks[..])[CACHE_SIZE - 1 := e], CACHE_SIZE - 1);
      block := blocks[0].block;
    }

    /** What a caller does through the reference it was given: the view changes there only. */
    method SetFront(block: Block)
      requires Valid() && blocks[0].blockNo in device && blocks[0].dirty
      modifies blocks
      ensures Valid() && Store() == old(Store())[blocks[0].blockNo := block]
      ensures blocks[..] == old(blocks[..])[0 := old(blocks[0]).(block := block)]
    {
      ChangeFront(blocks[..], device, blocks[0].(block := block));
      blocks[0] := blocks[0].(block := block);
      assert blocks[..] == old(blocks[..])[0 := old(blocks[0]).(block := block)];
    }

    /** write: the device catches up with the view, which does not change. */
    method Write(b: nat)
      requires Valid() && b in device && Cached(b) && blocks[First(blocks[..], b)].dirty
      modifies this`device, this`blockWrites, blocks
      ensures Valid() && Store() == old(Store())
      ensures device == old(device)[b := Store()[b]] && blockWrites == old(blockWrites) + 1
      ensures blocks[0].blockNo == b && blocks[..] == Marked(Rotated(old(blocks[..]), First(old(blocks[..]), b)), false)
    {
      var idx := Find(b);
      RotateKeeps(blocks[..], device, idx);
      PushTop(idx);
      FirstIs(blocks[..], b, 0);
      CopyBack(blocks[..], device, b);
      blockWrites := blockWrites + 1;
      device := device[b := blocks[0].block];
      ChangeFront(blocks[..], device, blocks[0].(dirty := false));
      assert StoreOf(blocks[..], device)[b] == blocks[0].block;
      label Clean:
      blocks[0] := blocks[0].(dirty := false);
      assert blocks[..] == old@Clean(blocks[..])[0 := blocks[0]];
    }

    /**
     write_uncached_block goes past the cache: the cache stays coherent exactly if the block is
     not cached, or its first copy is dirty, or the copy has the same contents.
     */
    method WriteUncached(b: nat, block: Block)
      requires Valid() && b in device
      modifies this`device, this`blockWrites
      ensures device == old(device)[b := block] && blockWrites == old(blockWrites) + 1
      ensures Valid() <==>
                (Cached(b) ==> var i := First(blocks[..], b); blocks[i].dirty || blocks[i].block == block)
      ensures Store() == if Cached(b) then old(Store()) else old(Store())[b := block]
    {
      blockWrites := blockWrites + 1;
      device := device[b := block];
      ghost var i := First(blocks[..], b);
      assert i < CACHE_SIZE ==> (SlotCoherent(blocks[..], device, i) <==> blocks[i].dirty || blocks[i].block == block);
      forall k | 0 <= k < CACHE_SIZE && k != i ensures SlotCoherent(blocks[..], device, k) {
        assert SlotCoherent(blocks[..], old(device), k);
      }
    }
  }
}
