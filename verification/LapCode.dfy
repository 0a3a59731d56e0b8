/**
 The word encoding of `ArrayQueue`: a position in the queue, counted from the beginning of
 time, is kept as a lap number and an index packed into one word. `one_lap` is a power of
 two greater than the capacity, so `word & (one_lap - 1)` is `word % one_lap`.
 */
module LapCode {
  import opened Arithmetic
  import Ring

  datatype Config = Config(cap: nat, lap: nat) {
    ghost predicate Valid() {
      0 < cap < lap
    }
  }

  /** The constants that `ArrayQueue::new` computes. */
  function New(cap: nat): (c: Config)
    requires cap > 0
    ensures c.Valid() && c.cap == cap && exists k :: c.lap == Pow2(k) && Pow2(k) <= 2 * cap
  {
    Config(cap, Pow2(LogUp(cap + 1)))
  }

  /** The slot index and the lap part of a word, as the code masks them out. */
  function Index(c: Config, word: nat): nat
    requires c.Valid()
  {
    word % c.lap
  }

  /** The word after `word`: next index, or index zero one lap further. */
  function Advance(c: Config, word: nat): nat
    requires c.Valid()
  {
    if Index(c, word) + 1 < c.cap then word + 1 else word - Index(c, word) + c.lap
  }

  /** The word of position `p`. */
  ghost function Enc(c: Config, p: nat): nat
    requires c.Valid()
  {
    if p < c.cap then p else c.lap + Enc(c, p - c.cap)
  }

  /** The slot of position `p`. */
  ghost function Idx(c: Config, p: nat): (i: nat)
    requires c.Valid()
    ensures i < c.cap
  {
    Ring.Idx(c.cap, p)
  }

  /** Masking the word of a position gives the position's slot: laps and indices never mix. */
  lemma {:induction false} IndexOfEnc(c: Config, p: nat)
    requires c.Valid()
    ensures Index(c, Enc(c, p)) == Idx(c, p)
  {
    if p >= c.cap {
      IndexOfEnc(c, p - c.cap);
      Ring.ModStep(Enc(c, p - c.cap), c.lap);
    } else {
      Ring.ModUnique(p, c.lap, 0, p);
    }
  }

  /** Advancing the word of a position gives the word of the next position. */
  lemma {:induction false} AdvanceEnc(c: Config, p: nat)
    requires c.Valid()
    ensures Advance(c, Enc(c, p)) == Enc(c, p + 1)
  {
    IndexOfEnc(c, p);
    if p >= c.cap {
      AdvanceEnc(c, p - c.cap);
      IndexOfEnc(c, p - c.cap);
    }
  }

  lemma {:induction false} EncMonotone(c: Config, p: nat, q: nat)
    requires c.Valid() && p < q
    ensures Enc(c, p) < Enc(c, q)
  {
    if p >= c.cap {
      EncMonotone(c, p - c.cap, q - c.cap);
    }
  }

  lemma {:induction false} IdxPeriod(c: Config, p: nat, q: nat)
    requires c.Valid() && p < q < p + 2 * c.cap
    ensures Idx(c, p) == Idx(c, q) <==> q == p + c.cap
  {
    if p >= c.cap {
      IdxPeriod(c, p - c.cap, q - c.cap);
    } else if q >= c.cap {
      assert Ring.Idx(c.cap, q) == Ring.Idx(c.cap, q - c.cap);
      if q >= 2 * c.cap {
        assert Ring.Idx(c.cap, q - c.cap) == Ring.Idx(c.cap, q - 2 * c.cap);
      }
    }
  }

  /**
   Stamps never collide: a slot's stamp is the word of a position of the slot while it waits
   for that position to be pushed, and one more while it holds it; no word is both.
   */
  lemma StampsDistinct(c: Config, p: nat, q: nat)
    requires c.Valid()
    ensures Idx(c, p) == Idx(c, q) ==> Enc(c, p) + 1 != Enc(c, q)
    ensures Enc(c, p) == Enc(c, q) ==> p == q
  {
    IndexOfEnc(c, p);
    IndexOfEnc(c, q);
    SuccMod(Enc(c, p), c.lap);
    if p < q { EncMonotone(c, p, q); }
    if q < p { EncMonotone(c, q, p); }
  }

  lemma SuccMod(a: nat, m: nat)
    requires 0 < m && a % m + 1 < m
    ensures (a + 1) % m == a % m + 1
  {
    assert a + 1 == m * (a / m) + (a % m + 1);
    Ring.ModUnique(a + 1, m, a / m, a % m + 1);
  }

  /** `ArrayQueue::len` on the words of a head and a tail it loaded. */
  function Len(c: Config, head: nat, tail: nat): int
    requires c.Valid()
  {
    var hix, tix := Index(c, head), Index(c, tail);
    if hix < tix then tix - hix
    else if hix > tix then c.cap - hix + tix
    else if tail == head then 0
    else c.cap
  }

  lemma {:induction false} LenIsDistance(c: Config, h: nat, t: nat)
    requires c.Valid() && h <= t <= h + c.cap
    ensures Len(c, Enc(c, h), Enc(c, t)) == t - h
  {
    IndexOfEnc(c, h);
    IndexOfEnc(c, t);
    if h < t { EncMonotone(c, h, t); }
    IdxDistance(c, h, t);
  }

  lemma {:induction false} IdxDistance(c: Config, h: nat, t: nat)
    requires c.Valid() && h <= t <= h + c.cap
    ensures t == h + c.cap ==> Idx(c, t) == Idx(c, h)
    ensures t < h + c.cap ==> Idx(c, t) - Idx(c, h) == t - h || Idx(c, t) - Idx(c, h) == t - h - c.cap
  {
    if h >= c.cap {
      IdxDistance(c, h - c.cap, t - c.cap);
    } else if t >= c.cap {
      assert Ring.Idx(c.cap, t) == Ring.Idx(c.cap, t - c.cap);
    }
  }
}
