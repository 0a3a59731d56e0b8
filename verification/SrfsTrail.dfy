/**
 The accesses that srfs makes to its block cache, in the order it makes them. `get`, `get_mut` and
 `write` panic where the block is not cached, and a slot that is evicted has to be clean: what the
 file system has to do so that neither happens is a condition on the accesses alone.
 */
module SrfsTrail {

  /** One call of the cache. */
  datatype Access =
    | ReadAt(b: nat) | ReadMutAt(b: nat) | GetAt(b: nat) | GetMutAt(b: nat) | UninitAt(b: nat) | WriteBack(b: nat)

  /** When each block was last looked at, by the number of the access. */
  type Times = map<nat, nat>

  /** All accesses so far, their number, and whether the block looked at last is dirty. */
  datatype Trail = Trail(past: Past, last: Times, now: nat, dirty: bool)
  datatype Past = NoAccess | Then(before: Trail, access: Access)

  const START: Trail := Trail(NoAccess, map[], 0, false)

  /** The block was looked at no more than `n` accesses ago. */
  ghost predicate Near(t: Trail, b: nat, n: nat) {
    b in t.last && t.last[b] <= t.now <= t.last[b] + n
  }

  /**
   The access is one that the cache answers: a block that has to be cached is one of the last 16
   looked at, only a dirty block is written, and as long as one is dirty nothing else is looked at.
   */
  ghost predicate Fine(t: Trail, a: Access) {
    match a
    case ReadAt(b) => t.dirty ==> Near(t, b, 0)
    case ReadMutAt(b) => t.dirty ==> Near(t, b, 0)
    case GetAt(b) => Near(t, b, 15) && (t.dirty ==> Near(t, b, 0))
    case GetMutAt(b) => Near(t, b, 15) && (t.dirty ==> Near(t, b, 0))
    case UninitAt(b) => !t.dirty
    case WriteBack(b) => t.dirty && Near(t, b, 0)
  }

  ghost predicate Answered(t: Trail)
    decreases t
  {
    match t.past
    case NoAccess => t == START
    case Then(t0, a) => Answered(t0) && Fine(t0, a) && t == Extended(t0, a)
  }

  /** `t` is how `r` was at some time. */
  ghost predicate Since(t: Trail, r: Trail)
    decreases r
  {
    r == t || (r.past.Then? && Since(t, r.past.before))
  }

  /** `r` is `t` with more accesses, so everything that `t` was at some time `r` was too. */
  ghost predicate Onward(t: Trail, r: Trail) {
    forall a {:trigger Since(a, r)} :: Since(a, t) ==> Since(a, r)
  }

  ghost function Extended(t: Trail, a: Access): Trail {
    Trail(Then(t, a), t.last[a.b := t.now + 1], t.now + 1,
          if a.ReadAt? || a.GetAt? then t.dirty else !a.WriteBack?)
  }

  /** One more access. */
  ghost function Next(t: Trail, a: Access): (r: Trail)
    requires Fine(t, a)
    ensures (Answered(t) ==> Answered(r)) && Onward(t, r)
  {
    Extended(t, a)
  }

  /** Every access was answered, and no slot is dirty. */
  ghost predicate Quiet(t: Trail) {
    Answered(t) && !t.dirty
  }

  /** Block `b` is one of the last looked at, and no other is dirty. */
  ghost predicate Settled(t: Trail, b: nat, n: nat) {
    Answered(t) && Near(t, b, n) && (t.dirty ==> Near(t, b, 0))
  }

  lemma SettledAnswered(t: Trail, b: nat, n: nat)
    requires Settled(t, b, n)
    ensures Answered(t)
  {
  }

  lemma NearLonger(t: Trail, b: nat, n: nat, k: nat)
    requires Near(t, b, n) && n <= k
    ensures Near(t, b, k)
  {
  }

  lemma QuietAnswered(t: Trail)
    requires Quiet(t)
    ensures Answered(t)
  {
  }

  /** `n` more accesses, to block `b` alone. */
  ghost predicate Touched(t: Trail, r: Trail, b: nat, n: nat) {
    r.now == t.now + n && r.last == t.last[b := r.now]
  }

  ghost function Seen(t: Trail, b: nat): (r: Trail)
    requires Quiet(t)
    ensures Quiet(r) && Onward(t, r) && Touched(t, r, b, 1)
  {
    Next(t, ReadAt(b))
  }

  ghost function Got(t: Trail, b: nat): (r: Trail)
    requires Quiet(t) && Near(t, b, 15)
    ensures Quiet(r) && Onward(t, r) && Touched(t, r, b, 1)
  {
    Next(t, GetAt(b))
  }

  ghost function GotMut(t: Trail, b: nat): (r: Trail)
    requires Settled(t, b, 15)
    ensures Answered(r) && r.dirty && Onward(t, r) && Touched(t, r, b, 1)
  {
    Next(t, GetMutAt(b))
  }

  /** get_mut and write. */
  ghost function Rewritten(t: Trail, b: nat): (r: Trail)
    requires Settled(t, b, 15)
    ensures Quiet(r) && Onward(t, r) && Touched(t, r, b, 2)
  {
    Next(GotMut(t, b), WriteBack(b))
  }

  /** read_mut and write. */
  ghost function ReadRewritten(t: Trail, b: nat): (r: Trail)
    requires Quiet(t)
    ensures Quiet(r) && Onward(t, r) && Touched(t, r, b, 2)
  {
    Next(Next(t, ReadMutAt(b)), WriteBack(b))
  }

  /** get_block_uninit and write. */
  ghost function Filled(t: Trail, b: nat): (r: Trail)
    requires Quiet(t)
    ensures Quiet(r) && Onward(t, r) && Touched(t, r, b, 2)
  {
    Next(Next(t, UninitAt(b)), WriteBack(b))
  }
}
