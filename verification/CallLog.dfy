/**
 A history of the calls of many threads, each of which may claim one position of a shared sequence
 before it ends. Which call claimed what, and what each call had claimed as it ended, is written down
 from what the threads do; that a call claims at most once, and ends with what it claimed, follows
 from a condition on single steps.
 */
module CallLog {
  import opened Options

  /** Where a thread is: in no call, or in `call`, with the position it has claimed. */
  datatype View<C> = Off | On(call: C, held: Option<nat>)

  /**
   The calls in the order they began, the call each thread is in, what each finished call ended
   with, and the call that claimed each position, if it was one of these.
   */
  datatype Book<C> = Book(
    views: map<nat, View<C>>,
    calls: seq<C>,
    current: map<nat, nat>,
    ends: map<nat, Option<nat>>,
    claims: seq<Option<nat>>)

  ghost function Place<C>(b: Book<C>, t: nat): View<C> {
    if t in b.views then b.views[t] else Off
  }

  /** What is written down as thread `t` comes to be at `v`, with `n` positions claimed by then. */
  ghost function Noted<C>(b: Book<C>, t: nat, v: View<C>, n: nat): Book<C> {
    var was, c := Place(b, t), if t in b.current then b.current[t] else |b.calls|;
    Book(b.views[t := v],
         if was.Off? && v.On? then b.calls + [v.call] else b.calls,
         if was.Off? && v.On? then b.current[t := c] else if was.On? && v.Off? then b.current - {t} else b.current,
         if was.On? && v.Off? then b.ends[c := was.held] else b.ends,
         if n > |b.claims| then b.claims + [if was.On? then Some(c) else None] else b.claims)
  }

  /** A position claimed by none of these calls. */
  ghost function NotedOther<C>(b: Book<C>): Book<C> {
    b.(claims := b.claims + [None])
  }

  /** What a step may do to its thread: begin a call, go on with it, claim the next position, or end. */
  ghost predicate Turn<C>(v: View<C>, v': View<C>, n: nat, n': nat) {
    match (v, v')
    case (Off, Off) => n' == n
    case (Off, On(_, h)) => h.None? && n' == n
    case (On(_, _), Off) => n' == n
    case (On(c, h), On(c', h')) =>
      c' == c && if h' == h then n' == n else h.None? && h' == Some(n) && n' == n + 1
  }

  ghost predicate InCall<C>(b: Book<C>, c: nat) {
    exists t :: t in b.current && b.current[t] == c
  }

  ghost predicate Holds<C>(b: Book<C>, c: nat, p: nat) {
    exists t :: t in b.current && b.current[t] == c && Place(b, t).On? && Place(b, t).held == Some(p)
  }

  ghost predicate ThreadOk<C>(b: Book<C>, t: nat)
    requires t in b.current
  {
    && Place(b, t).On? && b.current[t] < |b.calls| && b.current[t] !in b.ends
    && b.calls[b.current[t]] == Place(b, t).call
    && (Place(b, t).held.Some? ==>
          Place(b, t).held.value < |b.claims| && b.claims[Place(b, t).held.value] == Some(b.current[t]))
  }

  ghost predicate EndOk<C>(b: Book<C>, c: nat)
    requires c in b.ends
  {
    && c < |b.calls|
    && (b.ends[c].Some? ==> b.ends[c].value < |b.claims| && b.claims[b.ends[c].value] == Some(c))
  }

  ghost predicate ClaimOk<C>(b: Book<C>, p: nat)
    requires p < |b.claims|
  {
    b.claims[p].Some? ==>
      && var c := b.claims[p].value;
      && c < |b.calls| && (if c in b.ends then b.ends[c] == Some(p) else Holds(b, c, p))
  }

  ghost predicate BookOk<C>(b: Book<C>) {
    && (forall t :: t in b.current <==> Place(b, t).On?)
    && (forall t | t in b.current :: ThreadOk(b, t))
    && (forall t, u | t in b.current && u in b.current && t != u :: b.current[t] != b.current[u])
    && (forall c | c in b.ends :: EndOk(b, c))
    && (forall c: nat | c < |b.calls| && c !in b.ends :: InCall(b, c))
    && (forall p: nat | p < |b.claims| :: ClaimOk(b, p))
  }

  ghost predicate Empty<C>(b: Book<C>) {
    b.calls == [] && b.current == map[] && b.ends == map[] && b.claims == [] && forall t :: Place(b, t).Off?
  }

  lemma EmptyOk<C>(b: Book<C>)
    requires Empty(b)
    ensures BookOk(b)
  {
  }

  lemma BeginOk<C>(b: Book<C>, t: nat, v: View<C>)
    requires BookOk(b) && Place(b, t).Off? && v.On? && v.held.None?
    ensures BookOk(Noted(b, t, v, |b.claims|))
  {
    var b' := Noted(b, t, v, |b.claims|);
    assert forall u | u != t :: Place(b', u) == Place(b, u);
    forall u | u in b'.current ensures ThreadOk(b', u) { assert u != t ==> ThreadOk(b, u); }
    forall c: nat | c < |b'.calls| && c !in b'.ends ensures InCall(b', c) {
      if c < |b.calls| {
        var u :| u in b.current && b.current[u] == c;
        assert u in b'.current && b'.current[u] == c;
      } else {
        assert t in b'.current && b'.current[t] == c;
      }
    }
    forall u, w | u in b'.current && w in b'.current && u != w ensures b'.current[u] != b'.current[w] {
      BegunApart(b, t, v, u, w);
    }
    forall c | c in b'.ends ensures EndOk(b', c) { assert EndOk(b, c); }
    forall p: nat | p < |b'.claims| ensures ClaimOk(b', p) { BegunClaim(b, t, v, p); }
  }

  lemma BegunClaim<C>(b: Book<C>, t: nat, v: View<C>, p: nat)
    requires BookOk(b) && Place(b, t).Off? && v.On? && p < |b.claims|
    ensures ClaimOk(Noted(b, t, v, |b.claims|), p)
  {
    var b' := Noted(b, t, v, |b.claims|);
    assert ClaimOk(b, p);
    if b.claims[p].Some? && b.claims[p].value !in b.ends {
      var u :| u in b.current && b.current[u] == b.claims[p].value && Place(b, u).On? && Place(b, u).held == Some(p);
      assert u != t && u in b'.current && Place(b', u).held == Some(p);
    }
  }

  lemma BegunApart<C>(b: Book<C>, t: nat, v: View<C>, u: nat, w: nat)
    requires BookOk(b) && Place(b, t).Off? && v.On?
    requires var b' := Noted(b, t, v, |b.claims|); u in b'.current && w in b'.current && u != w
    ensures var b' := Noted(b, t, v, |b.claims|); b'.current[u] != b'.current[w]
  {
    assert u != t ==> ThreadOk(b, u);
    assert w != t ==> ThreadOk(b, w);
  }

  lemma GoOnOk<C>(b: Book<C>, t: nat, v: View<C>)
    requires BookOk(b) && Place(b, t).On? && v == Place(b, t)
    ensures BookOk(Noted(b, t, v, |b.claims|))
  {
    var b' := Noted(b, t, v, |b.claims|);
    assert forall u :: Place(b', u) == Place(b, u);
    SameOk(b, b');
  }

  lemma SameOk<C>(b: Book<C>, b': Book<C>)
    requires BookOk(b) && (forall u :: Place(b', u) == Place(b, u))
    requires b'.calls == b.calls && b'.current == b.current && b'.ends == b.ends && b'.claims == b.claims
    ensures BookOk(b')
  {
    forall u | u in b'.current ensures ThreadOk(b', u) { assert ThreadOk(b, u); }
    forall c: nat | c < |b'.calls| && c !in b'.ends ensures InCall(b', c) { assert InCall(b, c); }
    forall c | c in b'.ends ensures EndOk(b', c) { assert EndOk(b, c); }
    forall p: nat | p < |b'.claims| ensures ClaimOk(b', p) {
      assert ClaimOk(b, p);
      if b.claims[p].Some? && b.claims[p].value !in b.ends {
        var u :| u in b.current && b.current[u] == b.claims[p].value && Place(b, u).On? && Place(b, u).held == Some(p);
        assert u in b'.current && Place(b', u).held == Some(p);
      }
    }
  }

  lemma ClaimedOk<C>(b: Book<C>, t: nat, v: View<C>)
    requires BookOk(b) && Place(b, t).On? && Place(b, t).held.None? && v == On(Place(b, t).call, Some(|b.claims|))
    ensures BookOk(Noted(b, t, v, |b.claims| + 1))
  {
    var b' := Noted(b, t, v, |b.claims| + 1);
    assert ThreadOk(b, t);
    assert forall u | u != t :: Place(b', u) == Place(b, u);
    forall u | u in b'.current ensures ThreadOk(b', u) { assert ThreadOk(b, u); }
    forall c: nat | c < |b'.calls| && c !in b'.ends ensures InCall(b', c) { assert InCall(b, c); }
    forall c | c in b'.ends ensures EndOk(b', c) { assert EndOk(b, c); }
    forall p: nat | p < |b'.claims| ensures ClaimOk(b', p) {
      if p < |b.claims| {
        assert ClaimOk(b, p);
        if b.claims[p].Some? && b.claims[p].value !in b.ends {
          var u :| u in b.current && b.current[u] == b.claims[p].value
            && Place(b, u).On? && Place(b, u).held == Some(p);
          assert u != t && u in b'.current && Place(b', u).held == Some(p);
        }
      } else {
        assert t in b'.current && Place(b', t).held == Some(p);
        assert Holds(b', b'.current[t], p);
      }
    }
  }

  lemma EndedOk<C>(b: Book<C>, t: nat)
    requires BookOk(b) && Place(b, t).On?
    ensures BookOk(Noted(b, t, Off, |b.claims|))
  {
    var b' := Noted(b, t, Off, |b.claims|);
    var c := b.current[t];
    assert ThreadOk(b, t);
    assert forall u | u != t :: Place(b', u) == Place(b, u);
    forall u | u in b'.current ensures ThreadOk(b', u) { assert ThreadOk(b, u); }
    forall d: nat | d < |b'.calls| && d !in b'.ends ensures InCall(b', d) {
      var u :| u in b.current && b.current[u] == d;
      assert u in b'.current && b'.current[u] == d;
    }
    forall d | d in b'.ends ensures EndOk(b', d) { assert d != c ==> EndOk(b, d); }
    forall p: nat | p < |b'.claims| ensures ClaimOk(b', p) {
      assert ClaimOk(b, p);
      if b.claims[p].Some? && b.claims[p].value !in b.ends {
        var u :| u in b.current && b.current[u] == b.claims[p].value && Place(b, u).On? && Place(b, u).held == Some(p);
        if u != t { assert u in b'.current && Place(b', u).held == Some(p); }
      }
    }
  }

  lemma InOrder<C>(b: Book<C>, t: nat)
    requires BookOk(b) && Place(b, t).On?
    ensures t in b.current && ThreadOk(b, t)
  {
  }

  /** Every step that is a turn of its thread keeps the book in order. */
  lemma NotedOk<C>(b: Book<C>, t: nat, v: View<C>, n: nat)
    requires BookOk(b) && Turn(Place(b, t), v, |b.claims|, n)
    ensures BookOk(Noted(b, t, v, n)) && |Noted(b, t, v, n).claims| == n
    ensures forall u :: Place(Noted(b, t, v, n), u) == if u == t then v else Place(b, u)
    ensures b.calls <= Noted(b, t, v, n).calls
    ensures n == |b.claims| ==> Noted(b, t, v, n).claims == b.claims
    ensures n > |b.claims| ==>
              && t in b.current && b.current[t] < |b.calls| && b.calls[b.current[t]] == Place(b, t).call
              && Noted(b, t, v, n).claims == b.claims + [Some(b.current[t])]
  {
    if Place(b, t).On? { InOrder(b, t); }
    hide BookOk;
    match (Place(b, t), v)
    case (Off, Off) => IdleOk(b, t);
    case (Off, On(_, _)) => BeginOk(b, t, v);
    case (On(_, _), Off) => EndedOk(b, t);
    case (On(_, _), On(_, _)) => if v == Place(b, t) { GoOnOk(b, t, v); } else { ClaimedOk(b, t, v); }
  }

  lemma IdleOk<C>(b: Book<C>, t: nat)
    requires BookOk(b) && Place(b, t).Off?
    ensures BookOk(Noted(b, t, Off, |b.claims|))
  {
    SameOk(b, Noted(b, t, Off, |b.claims|));
  }

  lemma OtherOk<C>(b: Book<C>)
    requires BookOk(b)
    ensures BookOk(NotedOther(b))
  {
    var b' := NotedOther(b);
    assert forall u :: Place(b', u) == Place(b, u);
    forall u | u in b'.current ensures ThreadOk(b', u) { assert ThreadOk(b, u); }
    forall c: nat | c < |b'.calls| && c !in b'.ends ensures InCall(b', c) { assert InCall(b, c); }
    forall c | c in b'.ends ensures EndOk(b', c) { assert EndOk(b, c); }
    forall p: nat | p < |b'.claims| ensures ClaimOk(b', p) {
      if p < |b.claims| {
        assert ClaimOk(b, p);
        if b.claims[p].Some? && b.claims[p].value !in b.ends {
          var u :| u in b.current && b.current[u] == b.claims[p].value
            && Place(b, u).On? && Place(b, u).held == Some(p);
          assert u in b'.current && Place(b', u).held == Some(p);
        }
      }
    }
  }

  // ---------------------------------------------------------------------------------------
  // What a book in order says
  // ---------------------------------------------------------------------------------------

  /** A call claims one position at most. */
  lemma ClaimsOnce<C>(b: Book<C>, p: nat, q: nat)
    requires BookOk(b) && p < |b.claims| && q < |b.claims| && b.claims[p].Some? && b.claims[p] == b.claims[q]
    ensures p == q
  {
    assert ClaimOk(b, p) && ClaimOk(b, q);
    var c := b.claims[p].value;
    if c !in b.ends {
      var t :| t in b.current && b.current[t] == c && Place(b, t).On? && Place(b, t).held == Some(p);
      var u :| u in b.current && b.current[u] == c && Place(b, u).On? && Place(b, u).held == Some(q);
      assert t == u;
    }
  }

  /** A finished call claimed exactly what it ended with. */
  lemma EndsWithClaim<C>(b: Book<C>, c: nat, p: nat)
    requires BookOk(b) && c in b.ends && p < |b.claims|
    ensures b.claims[p] == Some(c) <==> b.ends[c] == Some(p)
  {
    assert ClaimOk(b, p) && EndOk(b, c);
  }

  /** With no call in progress every call is finished. */
  lemma AllEnded<C>(b: Book<C>, c: nat)
    requires BookOk(b) && c < |b.calls| && forall t :: Place(b, t).Off?
    ensures c in b.ends
  {
    assert !InCall(b, c);
  }

  lemma EndsInOrder<C>(b: Book<C>, c: nat)
    requires BookOk(b) && c in b.ends
    ensures EndOk(b, c)
  {
  }

  /** What a call ended with stays, and a call ends only as its thread leaves it. */
  lemma EndsStay<C>(b: Book<C>, t: nat, v: View<C>, n: nat, c: nat)
    requires BookOk(b) && c in Noted(b, t, v, n).ends
    ensures if c in b.ends then Noted(b, t, v, n).ends[c] == b.ends[c]
            else Place(b, t).On? && v.Off? && Noted(b, t, v, n).ends[c] == Place(b, t).held
  {
    if Place(b, t).On? { InOrder(b, t); }
  }

  /** A call that began after another had ended claims a later position. */
  lemma LaterClaims<C>(b: Book<C>, b': Book<C>, c: nat, c': nat, p: nat)
    requires BookOk(b) && BookOk(b') && b.claims <= b'.claims
    requires c in b.ends && b.ends[c].Some? && |b.calls| <= c' && p < |b'.claims| && b'.claims[p] == Some(c')
    ensures b.ends[c].value < p
  {
    assert EndOk(b, c);
    assert p < |b.claims| ==> ClaimOk(b, p);
  }
}
