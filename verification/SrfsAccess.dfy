/**
 The block cache under the accesses of srfs: every access of a trail that SrfsTrail calls answered is
 answered by the cache itself. Each block that `get`, `get_mut` or `write` asks for is cached, each
 slot that is evicted is clean, and each block written is dirty.
 */
module SrfsAccess {
  import opened SrfsBlock
  import opened BlockCache
  import opened SrfsTrail

  /**
   What is known of the slots after access number `now`: a block looked at n accesses ago is in one
   of the first n + 1 slots, for n below 16; and no slot is dirty, but for the front one if `dirty`.
   */
  ghost predicate Knows(s: seq<CachedBlock>, last: Times, now: nat, dirty: bool) {
    && |s| == CACHE_SIZE
    && (forall b | b in last :: Aged(s, last, now, b))
    && (forall k | 0 <= k < |s| && s[k].dirty :: k == 0 && dirty)
    && (dirty ==> s[0].dirty && Front(s, last, now))
  }

  ghost predicate Aged(s: seq<CachedBlock>, last: Times, now: nat, b: nat)
    requires b in last
  {
    last[b] <= now && (now - last[b] < CACHE_SIZE ==> First(s, b) <= now - last[b])
  }

  /** The front slot holds the block looked at last. */
  ghost predicate Front(s: seq<CachedBlock>, last: Times, now: nat)
    requires s != []
  {
    s[0].blockNo in last && last[s[0].blockNo] == now
  }

  /** Looking a block up moves every other back by one slot at most. */
  lemma KnowsLooked(s: seq<CachedBlock>, last: Times, now: nat, dirty: bool, b: nat, block: Block)
    requires Knows(s, last, now, dirty) && (dirty ==> b in last && last[b] == now)
    ensures Knows(Looked(s, b, block), last[b := now + 1], now + 1, dirty)
  {
    var t, idx, last' := Looked(s, b, block), First(s, b), last[b := now + 1];
    assert dirty ==> Aged(s, last, now, b);
    forall c | c in last' ensures Aged(t, last', now + 1, c) {
      if idx < |s| { RotateFirst(s, idx, c); } else { InFront(s, CachedBlock(b, false, block), c); }
      assert c in last ==> Aged(s, last, now, c);
    }
    assert t[0].blockNo == b;
  }

  lemma KnowsMarked(s: seq<CachedBlock>, last: Times, now: nat, dirty: bool, on: bool)
    requires Knows(s, last, now, dirty) && Front(s, last, now)
    ensures Knows(Marked(s, on), last, now, on)
  {
    forall c | c in last ensures Aged(Marked(s, on), last, now, c) {
      assert Aged(s, last, now, c);
      FirstIs(Marked(s, on), c, First(s, c));
    }
  }

  /** A slot taken for `b` without looking. */
  lemma KnowsTaken(s: seq<CachedBlock>, last: Times, now: nat, b: nat, block: Block)
    requires Knows(s, last, now, false)
    ensures Knows([CachedBlock(b, true, block)] + s[..CACHE_SIZE - 1], last[b := now + 1], now + 1, true)
  {
    var t, last' := [CachedBlock(b, true, block)] + s[..CACHE_SIZE - 1], last[b := now + 1];
    forall c | c in last' ensures Aged(t, last', now + 1, c) {
      InFront(s, CachedBlock(b, true, block), c);
      assert c in last ==> Aged(s, last, now, c);
    }
  }

  lemma KnowsChanged(s: seq<CachedBlock>, last: Times, now: nat, block: Block)
    requires Knows(s, last, now, true)
    ensures Knows(s[0 := s[0].(block := block)], last, now, true)
  {
    var t := s[0 := s[0].(block := block)];
    forall c | c in last ensures Aged(t, last, now, c) {
      assert Aged(s, last, now, c);
      FirstIs(t, c, First(s, c));
    }
  }

  lemma NearCached(s: seq<CachedBlock>, last: Times, now: nat, dirty: bool, b: nat)
    requires Knows(s, last, now, dirty) && b in last && now < last[b] + CACHE_SIZE
    ensures First(s, b) < |s|
  {
    assert Aged(s, last, now, b);
  }

  lemma InFrontNow(s: seq<CachedBlock>, last: Times, now: nat, b: nat)
    requires Knows(s, last, now, true) && b in last && last[b] == now
    ensures s != [] && s[0].dirty && s[0].blockNo == b
  {
    assert Aged(s, last, now, b);
  }

  lemma LookedFront(s: seq<CachedBlock>, b: nat, block: Block)
    requires s != []
    ensures Looked(s, b, block)[0].blockNo == b
  {
  }

  /** The slot that would be evicted is clean. */
  lemma CleanLast(s: seq<CachedBlock>, last: Times, now: nat, dirty: bool)
    requires Knows(s, last, now, dirty)
    ensures !s[CACHE_SIZE - 1].dirty
  {
  }


  // ---------------------------------------------------------------------------------------
  // Trails as lists of accesses
  // ---------------------------------------------------------------------------------------

  ghost function LogOf(t: Trail): seq<Access>
    decreases t
  {
    match t.past
    case NoAccess => []
    case Then(t0, a) => LogOf(t0) + [a]
  }

  ghost function TrailOf(log: seq<Access>): Trail
    decreases |log|
  {
    if log == [] then START else Extended(TrailOf(log[..|log| - 1]), log[|log| - 1])
  }

  /** An answered trail is its list of accesses, and every one of them was fine when it was made. */
  lemma {:induction false} TrailIsLog(t: Trail, i: nat)
    requires Answered(t)
    ensures TrailOf(LogOf(t)) == t
    ensures i < |LogOf(t)| ==> Fine(TrailOf(LogOf(t)[..i]), LogOf(t)[i])
    decreases t
  {
    match t.past
    case NoAccess =>
    case Then(t0, a) =>
      TrailIsLog(t0, i);
      var log := LogOf(t);
      assert log[..|log| - 1] == LogOf(t0);
      if i < |LogOf(t0)| { assert log[..i] == LogOf(t0)[..i]; }
  }

  class Accesses {
    const cache: BlockCache
    /** Every access so far; each of them was answered. */
    ghost var trail: Trail

    ghost predicate Valid()
      reads this, cache, cache.blocks
    {
      cache.Valid() && Knows(cache.blocks[..], trail.last, trail.now, trail.dirty)
    }

    /** What all accesses leave alone. */
    twostate predicate Same()
      reads this, cache
    {
      cache.device.Keys == old(cache.device.Keys) && cache.blocks == old(cache.blocks)
    }

    constructor (cache: BlockCache)
      requires cache.Valid() && forall i | 0 <= i < CACHE_SIZE :: !cache.blocks[i].dirty
      ensures Valid() && this.cache == cache && trail == START
    {
      this.cache, trail := cache, START;
    }

    method Read(b: nat)
      requires Valid() && b in cache.device && Fine(trail, ReadAt(b))
      modifies this, cache, cache.blocks
      ensures Valid() && Same() && trail == Extended(old(trail), ReadAt(b))
    {
      hide Knows;
      hide Coherent;
      hide StoreOf;
      hide First;
      hide Looked;
      KnowsLooked(cache.blocks[..], trail.last, trail.now, trail.dirty, b, cache.device[b]);
      CleanLast(cache.blocks[..], trail.last, trail.now, trail.dirty);
      var _ := cache.Read(b);
      trail := Extended(trail, ReadAt(b));
    }

    method ReadMut(b: nat)
      requires Valid() && b in cache.device && Fine(trail, ReadMutAt(b))
      modifies this, cache, cache.blocks
      ensures Valid() && Same() && trail == Extended(old(trail), ReadMutAt(b))
    {
      hide Knows;
      hide Coherent;
      hide StoreOf;
      hide First;
      ghost var s, t := cache.blocks[..], trail;
      KnowsLooked(s, t.last, t.now, t.dirty, b, cache.device[b]);
      LookedFront(s, b, cache.device[b]);
      KnowsMarked(Looked(s, b, cache.device[b]), t.last[b := t.now + 1], t.now + 1, t.dirty, true);
      CleanLast(s, t.last, t.now, t.dirty);
      var _ := cache.ReadMut(b);
      trail := Extended(trail, ReadMutAt(b));
    }

    /** get: the block is cached, so it does not panic. */
    method Get(b: nat)
      requires Valid() && b in cache.device && Fine(trail, GetAt(b))
      modifies this, cache, cache.blocks
      ensures Valid() && Same() && trail == Extended(old(trail), GetAt(b))
    {
      hide Knows;
      hide Coherent;
      hide StoreOf;
      hide First;
      KnowsLooked(cache.blocks[..], trail.last, trail.now, trail.dirty, b, cache.device[b]);
      NearCached(cache.blocks[..], trail.last, trail.now, trail.dirty, b);
      var _ := cache.Get(b);
      trail := Extended(trail, GetAt(b));
    }

    method GetMut(b: nat)
      requires Valid() && b in cache.device && Fine(trail, GetMutAt(b))
      modifies this, cache, cache.blocks
      ensures Valid() && Same() && trail == Extended(old(trail), GetMutAt(b))
    {
      hide Knows;
      hide Coherent;
      hide StoreOf;
      hide First;
      ghost var s, t := cache.blocks[..], trail;
      KnowsLooked(s, t.last, t.now, t.dirty, b, cache.device[b]);
      NearCached(s, t.last, t.now, t.dirty, b);
      LookedFront(s, b, cache.device[b]);
      KnowsMarked(Looked(s, b, cache.device[b]), t.last[b := t.now + 1], t.now + 1, t.dirty, true);
      var _ := cache.GetMut(b);
      trail := Extended(trail, GetMutAt(b));
    }

    /** get_block_uninit: the slot taken is clean. */
    method Uninit(b: nat)
      requires Valid() && b in cache.device && Fine(trail, UninitAt(b))
      modifies this, cache, cache.blocks
      ensures Valid() && Same() && trail == Extended(old(trail), UninitAt(b))
    {
      hide Knows;
      hide Coherent;
      hide StoreOf;
      KnowsTaken(cache.blocks[..], trail.last, trail.now, b, cache.blocks[CACHE_SIZE - 1].block);
      CleanLast(cache.blocks[..], trail.last, trail.now, trail.dirty);
      var _ := cache.GetBlockUninit(b);
      trail := Extended(trail, UninitAt(b));
    }

    /** Changes to the block at the front, and the write that follows them. */
    method Write(b: nat, block: Block)
      requires Valid() && b in cache.device && Fine(trail, WriteBack(b))
      modifies this, cache, cache.blocks
      ensures Valid() && Same() && trail == Extended(old(trail), WriteBack(b))
    {
      hide Knows;
      hide Coherent;
      hide StoreOf;
      ghost var t := trail;
      InFrontNow(cache.blocks[..], t.last, t.now, b);
      KnowsChanged(cache.blocks[..], t.last, t.now, block);
      cache.SetFront(block);
      ghost var s := cache.blocks[..];
      FirstIs(s, b, 0);
      KnowsLooked(s, t.last, t.now, t.dirty, b, block);
      KnowsMarked(Looked(s, b, block), t.last[b := t.now + 1], t.now + 1, t.dirty, false);
      cache.Write(b);
      trail := Extended(trail, WriteBack(b));
    }

    method Do(a: Access, block: Block)
      requires Valid() && a.b in cache.device && Fine(trail, a)
      modifies this, cache, cache.blocks
      ensures Valid() && Same() && trail == Extended(old(trail), a)
    {
      hide Knows;
      hide Coherent;
      hide StoreOf;
      hide Fine;
      match a {
        case ReadAt(b) => Read(b);
        case ReadMutAt(b) => ReadMut(b);
        case GetAt(b) => Get(b);
        case GetMutAt(b) => GetMut(b);
        case UninitAt(b) => Uninit(b);
        case WriteBack(b) => Write(b, block);
      }
    }

    /** All accesses of a trail, from a clean cache, whatever is written. */
    method DoAll(log: seq<Access>, blocks: seq<Block>, ghost t: Trail)
      requires Valid() && trail == START && Answered(t) && log == LogOf(t) && |blocks| == |log|
      requires forall i | 0 <= i < |log| :: log[i].b in cache.device
      modifies this, cache, cache.blocks
      ensures Valid() && Same() && trail == t
    {
      hide Knows;
      hide Coherent;
      hide StoreOf;
      hide Fine;
      hide Answered;
      for i := 0 to |log|
        invariant Valid() && Same() && trail == TrailOf(log[..i])
      {
        TrailIsLog(t, i);
        Do(log[i], blocks[i]);
        assert log[..i + 1][..i] == log[..i];
      }
      TrailIsLog(t, 0);
      assert log[..|log|] == log;
    }
  }
}
